/**
 * The other way to a script's function: execute_get_main, given the content of the script
 * file (src/scripting/exec_cache.py:44-60, src/scripting/server.py:173-193).
 */
module MainScripts {
  import opened Common
  import opened ScriptCache
  import opened ScriptCacheTheorems
  import opened BackgroundWrites

  /** execute_get_main returned the function of the content it was given, or refused it for lack of main. */
  predicate RanIsRight(e: Event, compiles: Compiles) {
    e.Ran? ==> e.outcome == if compiles(e.content) then Returned(Some(Func(e.content))) else NoMain
  }

  ghost predicate RansAreRight(log: seq<Event>, compiles: Compiles) {
    forall i :: 0 <= i < |log| ==> RanIsRight(log[i], compiles)
  }

  /** No script that compiles has a recorded length equal to another content's length in characters. */
  ghost predicate NoMainCollision(u: set<string>, compiles: Compiles) {
    forall a, b :: a in u && b in u && compiles(a) && Measures(CharLen(b), a) ==> a == b
  }

  lemma RunMainIsRight(c: Cache, u: set<string>, compiles: Compiles, path: string, content: string)
    requires Agree(c, compiles) && NoMainCollision(u, compiles) && content in u
    requires forall k :: k in c.table && c.table[k].Some? ==> c.table[k].value.source in u
    ensures RanIsRight(Ran(Exec(path), content, ExecuteGetMain(c, compiles, Exec(path), content).1), compiles)
  {
    assert EntryAgrees(c, compiles, Exec(path));
  }

  lemma {:induction false} MainRunsAreRight(files: map<string, string>, u: set<string>,
      compiles: Compiles, steps: seq<Step>)
    requires NoMainCollision(u, compiles) && StepsIn(u, steps)
    ensures var s := Run(Init(files), compiles, steps); Within(s, u) && RansAreRight(s.log, compiles)
  {
    if steps != [] {
      var m := |steps| - 1;
      MainRunsAreRight(files, u, compiles, steps[..m]);
      TablesAgree(files, compiles, steps[..m]);
      var s := Run(Init(files), compiles, steps[..m]);
      StepStaysWithin(s, u, compiles, steps[m]);
      StepRunsRight(s, u, compiles, steps[m]);
    }
  }

  lemma StepRunsRight(s: State, u: set<string>, compiles: Compiles, step: Step)
    requires Agree(s.cache, compiles) && Within(s, u) && NoMainCollision(u, compiles) && StepIn(u, step)
    requires RansAreRight(s.log, compiles)
    ensures RansAreRight(Apply(s, compiles, step).log, compiles)
  {
    if step.RunMain? {
      RunMainIsRight(s.cache, u, compiles, step.path, step.content);
    } else {
      OthersRunNothing(s, compiles, step);
    }
  }

  lemma OthersRunNothing(s: State, compiles: Compiles, step: Step)
    requires !step.RunMain?
    ensures var t := Apply(s, compiles, step);
            t.log == s.log || (|t.log| == |s.log| + 1 && s.log <= t.log && !t.log[|s.log|].Ran?)
  {
  }

  /** Where the recorded length is that of `b` in characters, running `b` gives the old function. */
  lemma SameLengthRunsOldFunction(compiles: Compiles, steps: seq<Step>, path: string, a: string, b: string)
    requires var t := Run(Init(map[]), compiles, steps);
             && Exec(path) in t.cache.lens && t.cache.lens[Exec(path)] == CharLen(b)
             && Exec(path) in t.cache.table && t.cache.table[Exec(path)] == Some(Func(a))
    requires a != b
    ensures !RansAreRight(Run(Init(map[]), compiles, steps + [RunMain(path, b)]).log, compiles)
  {
    RunSnoc(Init(map[]), compiles, steps, RunMain(path, b));
    var t := Run(Init(map[]), compiles, steps);
    var r := Run(Init(map[]), compiles, steps + [RunMain(path, b)]);
    assert r.log[|t.log|] == Ran(Exec(path), b, Returned(Some(Func(a))));
    assert !RanIsRight(r.log[|t.log|], compiles);
  }

  /** A run that caches `a` under a length equal to that of `b` in characters. */
  lemma CachedUnderLength(compiles: Compiles, path: string, a: string, b: string) returns (steps: seq<Step>)
    requires compiles(a) && Measures(CharLen(b), a)
    ensures forall u :: a in u ==> StepsIn(u, steps)
    ensures var t := Run(Init(map[]), compiles, steps);
            && Exec(path) in t.cache.lens && t.cache.lens[Exec(path)] == CharLen(b)
            && Exec(path) in t.cache.table && t.cache.table[Exec(path)] == Some(Func(a))
  {
    var s0 := Init(map[]);
    if CharLen(b) == CharLen(a) {
      steps := [UploadFile(Exec(path), a)];
      RunSnoc(s0, compiles, [], UploadFile(Exec(path), a));
      assert [] + steps == steps;
    } else {
      steps := ReadOf(path, a);
      ReadOfRuns(s0, compiles, [], path, a);
      assert [] + steps == steps;
    }
  }

  lemma CollisionMisleadsMain(u: set<string>, compiles: Compiles, a: string, b: string) returns (steps: seq<Step>)
    requires a in u && b in u && compiles(a) && Measures(CharLen(b), a) && a != b
    ensures StepsIn(u, steps) && !RansAreRight(Run(Init(map[]), compiles, steps).log, compiles)
  {
    steps := CachedUnderLength(compiles, "p", a, b);
    SameLengthRunsOldFunction(compiles, steps, "p", a, b);
    steps := steps + [RunMain("p", b)];
  }

  /**
   * In every interleaving over the contents in `u`, execute_get_main returns the function of
   * the content it is given, if and only if no script that compiles has a recorded length
   * equal to another content's length in characters.
   */
  lemma MainIsRightIff(u: set<string>, compiles: Compiles)
    ensures NoMainCollision(u, compiles) <==>
            forall files, steps :: StepsIn(u, steps) ==> RansAreRight(Run(Init(files), compiles, steps).log, compiles)
  {
    if NoMainCollision(u, compiles) {
      forall files, steps | StepsIn(u, steps) ensures RansAreRight(Run(Init(files), compiles, steps).log, compiles) {
        MainRunsAreRight(files, u, compiles, steps);
      }
    } else {
      var a, b :| a in u && b in u && compiles(a) && Measures(CharLen(b), a) && a != b;
      var steps := CollisionMisleadsMain(u, compiles, a, b);
    }
  }

  // ----- the first execution of a script -----

  /**
   * A script executed for the first time is remembered with its length, and a SETNX of its
   * content is started; one that is remembered already changes nothing.
   */
  lemma ExecutionRemembers(c: Cache, compiles: Compiles, path: string, content: string)
    requires Agree(c, compiles) && compiles(content)
    ensures var (c', outcome) := ExecuteGetMain(c, compiles, Exec(path), content);
            if Exec(path) in c.table then c' == c
            else
              && outcome == Returned(Some(Func(content)))
              && c'.table == c.table[Exec(path) := Some(Func(content))]
              && c'.lens == c.lens[Exec(path) := CharLen(content)]
              && c'.background == c.background + [SetNx(Exec(path), content)] && c'.files == c.files
  {
    assert EntryAgrees(c, compiles, Exec(path));
  }

  /**
   * After the first execution of a script, whatever happens, the SETNX of its content is
   * outstanding, has run, or has failed.
   */
  lemma FirstExecutionIsWritten(
    files: map<string, string>, compiles: Compiles, before: seq<Step>, path: string, content: string, after: seq<Step>)
    requires compiles(content) && Exec(path) !in Run(Init(files), compiles, before).cache.table
    ensures var s := Run(Init(files), compiles, before);
            var t := Run(Apply(s, compiles, RunMain(path, content)), compiles, after);
            var w := SetNx(Exec(path), content);
            w in t.cache.background || IsSettled(t.log, |s.log|, w)
  {
    TablesAgree(files, compiles, before);
    var s := Run(Init(files), compiles, before);
    var w := SetNx(Exec(path), content);
    ExecutionRemembers(s.cache, compiles, path, content);
    var s' := Apply(s, compiles, RunMain(path, content));
    assert s'.cache.background[|s.cache.background|] == w;
    WriteSettles(s', compiles, after, |s.log|, w);
  }
}
