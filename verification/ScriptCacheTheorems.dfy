/** What every run of the script cache guarantees, and exactly when. */
module ScriptCacheTheorems {
  import opened Common
  import opened ScriptCache

  type Compiles = string -> bool

  // ----- table agreement, with no hypothesis -----

  /** A length that either measure gives for the content. */
  predicate Measures(n: nat, content: string) {
    n == CharLen(content) || n == ByteLen(content)
  }

  predicate EntryAgrees(c: Cache, compiles: Compiles, key: Key) {
    && (key in c.table <==> key in c.lens)
    && (key in c.table ==>
          c.table[key].Some? && compiles(c.table[key].value.source) && Measures(c.lens[key], c.table[key].value.source))
  }

  /** For script keys both tables have the same keys, and each length is that of the stored function's source. */
  ghost predicate Agree(c: Cache, compiles: Compiles) {
    forall path :: EntryAgrees(c, compiles, Exec(path))
  }

  lemma GetKeepsAgreement(c: Cache, compiles: Compiles, key: Key, reply: Option<string>)
    requires Agree(c, compiles)
    ensures Agree(Get(c, compiles, key, reply).0, compiles)
  {
  }

  lemma RunMainKeepsAgreement(c: Cache, compiles: Compiles, key: Key, content: string)
    requires Agree(c, compiles)
    ensures Agree(ExecuteGetMain(c, compiles, key, content).0, compiles)
    ensures key.Exec? ==> ExecuteGetMain(c, compiles, key, content).1 != KeyError
  {
    if key.Exec? {
      assert EntryAgrees(c, compiles, Exec(key.path));
    }
  }

  lemma UploadKeepsAgreement(c: Cache, compiles: Compiles, key: Key, content: string)
    requires Agree(c, compiles) && (key.Exec? ==> compiles(content))
    ensures Agree(Upload(c, key, content), compiles)
  {
    forall path ensures EntryAgrees(Upload(c, key, content), compiles, Exec(path)) {
      assert EntryAgrees(c, compiles, Exec(path));
    }
  }

  /** The pop of an upload breaks the agreement for a cached script, and the set right after restores it. */
  lemma PopBreaksAndSetRestores(c: Cache, compiles: Compiles, key: Key, content: string)
    requires Agree(c, compiles) && key.Exec? && compiles(content)
    ensures key in c.table ==> !Agree(Pop(c, key), compiles)
    ensures Agree(SetScript(Pop(c, key), key, Some(Func(content)), content), compiles)
  {
    assert EntryAgrees(c, compiles, Exec(key.path));
    assert key in c.table ==> !EntryAgrees(Pop(c, key), compiles, Exec(key.path));
    forall path ensures EntryAgrees(SetScript(Pop(c, key), key, Some(Func(content)), content), compiles, Exec(path)) {
      assert EntryAgrees(c, compiles, Exec(path));
    }
  }

  lemma LoadKeepsAgreement(c: Cache, compiles: Compiles, path: string, reply: Option<string>)
    requires Agree(c, compiles)
    ensures Agree(LoadLib(c, path, reply).0, compiles)
  {
    forall p ensures EntryAgrees(LoadLib(c, path, reply).0, compiles, Exec(p)) {
      assert EntryAgrees(c, compiles, Exec(p));
    }
  }

  lemma StepKeepsAgreement(s: State, compiles: Compiles, step: Step)
    requires Agree(s.cache, compiles)
    ensures Agree(Apply(s, compiles, step).cache, compiles)
  {
    match step
    case FinishGet(id) =>
      if id in s.pending && s.pending[id].GetPending? {
        GetKeepsAgreement(s.cache, compiles, s.pending[id].key, s.pending[id].reply);
      }
    case RunMain(path, content) => RunMainKeepsAgreement(s.cache, compiles, Exec(path), content);
    case UploadFile(key, content) =>
      if !(key.Exec? && !compiles(content)) {
        UploadKeepsAgreement(s.cache, compiles, key, content);
      }
    case Delete(key) =>
      forall p | key in s.cache.lens ensures EntryAgrees(DelItem(s.cache, key), compiles, Exec(p)) {
        assert EntryAgrees(s.cache, compiles, Exec(p));
      }
    case FinishLoad(id) =>
      if id in s.pending && s.pending[id].LoadPending? {
        LoadKeepsAgreement(s.cache, compiles, s.pending[id].path, s.pending[id].reply);
      }
    case Flush(i) =>
      forall p ensures EntryAgrees(Apply(s, compiles, step).cache, compiles, Exec(p)) {
        assert EntryAgrees(s.cache, compiles, Exec(p));
      }
    case _ =>
  }

  ghost predicate NoKeyErrors(log: seq<Event>) {
    forall i :: 0 <= i < |log| && log[i].Ran? ==> log[i].outcome != KeyError
  }

  /** At every await boundary of every run the tables agree, and no lookup in execute_get_main ever failed. */
  lemma {:induction false} TablesAgree(files: map<string, string>, compiles: Compiles, steps: seq<Step>)
    ensures var s := Run(Init(files), compiles, steps); Agree(s.cache, compiles) && NoKeyErrors(s.log)
  {
    if steps != [] {
      var m := |steps| - 1;
      TablesAgree(files, compiles, steps[..m]);
      var s := Run(Init(files), compiles, steps[..m]);
      StepKeepsAgreement(s, compiles, steps[m]);
      if steps[m].RunMain? {
        RunMainKeepsAgreement(s.cache, compiles, Exec(steps[m].path), steps[m].content);
      }
    }
  }

  // ----- get refines Redis exactly when lengths tell contents apart -----

  /** The contents that the steps of a run bring in. */
  predicate StepIn(u: set<string>, step: Step) {
    match step
    case RunMain(_, content) => content in u
    case UploadFile(_, content) => content in u
    case Elsewhere(_, value) => value.Some? ==> value.value in u
    case _ => true
  }

  predicate StepsIn(u: set<string>, steps: seq<Step>) {
    forall i :: 0 <= i < |steps| ==> StepIn(u, steps[i])
  }

  /** `get` returned what Redis held at its read. */
  predicate GetIsRight(e: Event, compiles: Compiles) {
    e.Got? ==>
      match e.reply
      case None => e.outcome == Returned(None)
      case Some(content) => e.outcome == if compiles(content) then Returned(Some(Func(content))) else NoMain
  }

  predicate GetsAreRight(log: seq<Event>, compiles: Compiles) {
    forall i :: 0 <= i < |log| ==> GetIsRight(log[i], compiles)
  }

  /** No script that compiles has a recorded length equal to another content's length in bytes. */
  predicate NoCollision(u: set<string>, compiles: Compiles) {
    forall a, b :: a in u && b in u && compiles(a) && Measures(ByteLen(b), a) ==> a == b
  }

  /** All contents around are from `u`. */
  ghost predicate Within(s: State, u: set<string>) {
    && (forall k :: k in s.redis ==> s.redis[k] in u)
    && (forall i :: 0 <= i < |s.cache.background| ==> s.cache.background[i].content in u)
    && (forall id :: id in s.pending && s.pending[id].reply.Some? ==> s.pending[id].reply.value in u)
    && (forall k :: k in s.cache.table && s.cache.table[k].Some? ==> s.cache.table[k].value.source in u)
    && (forall id :: id in s.pending && s.pending[id].GetPending? ==> s.pending[id].key.Exec?)
  }

  lemma StepStaysWithin(s: State, u: set<string>, compiles: Compiles, step: Step)
    requires Within(s, u) && StepIn(u, step)
    ensures Within(Apply(s, compiles, step), u)
  {
    var t := Apply(s, compiles, step);
    if (step.Flush? || step.FailWrite?) && step.i < |s.cache.background| {
      var bg := s.cache.background;
      forall j | 0 <= j < |t.cache.background| ensures t.cache.background[j].content in u {
        assert t.cache.background[j] == bg[if j < step.i then j else j + 1];
      }
    }
  }

  lemma FinishedGetIsRight(c: Cache, u: set<string>, compiles: Compiles, path: string, reply: Option<string>)
    requires Agree(c, compiles) && NoCollision(u, compiles) && (reply.Some? ==> reply.value in u)
    requires forall k :: k in c.table && c.table[k].Some? ==> c.table[k].value.source in u
    ensures GetIsRight(Got(Exec(path), reply, Get(c, compiles, Exec(path), reply).1), compiles)
  {
    assert EntryAgrees(c, compiles, Exec(path));
  }

  lemma {:induction false} RunsAreRight(files: map<string, string>, u: set<string>,
      compiles: Compiles, steps: seq<Step>)
    requires NoCollision(u, compiles) && StepsIn(u, steps)
    ensures Within(Run(Init(files), compiles, steps), u)
    ensures GetsAreRight(Run(Init(files), compiles, steps).log, compiles)
  {
    if steps != [] {
      var m := |steps| - 1;
      RunsAreRight(files, u, compiles, steps[..m]);
      TablesAgree(files, compiles, steps[..m]);
      var s := Run(Init(files), compiles, steps[..m]);
      StepStaysWithin(s, u, compiles, steps[m]);
      if steps[m].FinishGet? && steps[m].id in s.pending && s.pending[steps[m].id].GetPending? {
        FinishedGetIsRight(s.cache, u, compiles, s.pending[steps[m].id].key.path, s.pending[steps[m].id].reply);
      }
    }
  }

  lemma RunSnoc(s: State, compiles: Compiles, steps: seq<Step>, step: Step)
    ensures Run(s, compiles, steps + [step]) == Apply(Run(s, compiles, steps), compiles, step)
  {
    assert (steps + [step])[..|steps|] == steps;
  }

  /** Redis is set to `b` elsewhere, then one `get` of the script runs. */
  function ReadOf(path: string, b: string): seq<Step> {
    [Elsewhere(Exec(path), Some(b))] + [ReadForGet(0, path)] + [FinishGet(0)]
  }

  lemma RunThree(s: State, compiles: Compiles, steps: seq<Step>, x: Step, y: Step, z: Step)
    ensures Run(s, compiles, steps + ([x] + [y] + [z])) ==
            Apply(Apply(Apply(Run(s, compiles, steps), compiles, x), compiles, y), compiles, z)
  {
    RunSnoc(s, compiles, steps, x);
    RunSnoc(s, compiles, steps + [x], y);
    RunSnoc(s, compiles, steps + [x] + [y], z);
    assert steps + ([x] + [y] + [z]) == steps + [x] + [y] + [z];
  }

  lemma ReadOfRuns(s: State, compiles: Compiles, steps: seq<Step>, path: string, b: string)
    requires 0 !in Run(s, compiles, steps).pending
    ensures var t := Run(s, compiles, steps);
            var r := Run(s, compiles, steps + ReadOf(path, b));
            && r.cache == Get(t.cache, compiles, Exec(path), Some(b)).0
            && 0 !in r.pending
            && r.log == t.log + [Got(Exec(path), Some(b), Get(t.cache, compiles, Exec(path), Some(b)).1)]
  {
    RunThree(s, compiles, steps, Elsewhere(Exec(path), Some(b)), ReadForGet(0, path), FinishGet(0));
    ReadSteps(Run(s, compiles, steps), compiles, path, b);
  }

  lemma ReadSteps(t: State, compiles: Compiles, path: string, b: string)
    requires 0 !in t.pending
    ensures var r := Apply(Apply(Apply(t, compiles, Elsewhere(Exec(path), Some(b))), compiles, ReadForGet(0, path)),
        compiles, FinishGet(0));
            && r.cache == Get(t.cache, compiles, Exec(path), Some(b)).0
            && 0 !in r.pending
            && r.log == t.log + [Got(Exec(path), Some(b), Get(t.cache, compiles, Exec(path), Some(b)).1)]
  {
  }

  /** A run that caches `a` and records the length of `b` for it. */
  lemma CollidingScript(compiles: Compiles, path: string, a: string, b: string) returns (steps: seq<Step>)
    requires compiles(a) && Measures(ByteLen(b), a)
    ensures forall u :: a in u ==> StepsIn(u, steps)
    ensures var t := Run(Init(map[]), compiles, steps);
            && 0 !in t.pending && Exec(path) in t.cache.lens && t.cache.lens[Exec(path)] == ByteLen(b)
            && Lookup(t.cache, Exec(path)) == Some(Func(a))
  {
    var s0 := Init(map[]);
    if ByteLen(b) == CharLen(a) {
      steps := [UploadFile(Exec(path), a)];
      RunSnoc(s0, compiles, [], UploadFile(Exec(path), a));
      assert [] + steps == steps;
    } else {
      steps := ReadOf(path, a);
      ReadOfRuns(s0, compiles, [], path, a);
      assert [] + steps == steps;
    }
  }

  /** Where the recorded length is that of `b`, get returns the old function for `b`. */
  lemma SameLengthReturnsOldFunction(compiles: Compiles, steps: seq<Step>, path: string, a: string, b: string)
    requires var t := Run(Init(map[]), compiles, steps);
             && 0 !in t.pending && Exec(path) in t.cache.lens && t.cache.lens[Exec(path)] == ByteLen(b)
             && Lookup(t.cache, Exec(path)) == Some(Func(a))
    requires a != b
    ensures !GetsAreRight(Run(Init(map[]), compiles, steps + ReadOf(path, b)).log, compiles)
  {
    ReadOfRuns(Init(map[]), compiles, steps, path, b);
    var t := Run(Init(map[]), compiles, steps);
    var r := Run(Init(map[]), compiles, steps + ReadOf(path, b));
    assert r.log[|t.log|] == Got(Exec(path), Some(b), Returned(Some(Func(a))));
    assert !GetIsRight(r.log[|t.log|], compiles);
  }

  /** Two contents that collide make a run in which `get` returns the wrong function. */
  lemma CollisionMisleadsGet(u: set<string>, compiles: Compiles, a: string, b: string) returns (steps: seq<Step>)
    requires a in u && b in u && compiles(a) && Measures(ByteLen(b), a) && a != b
    ensures StepsIn(u, steps) && !GetsAreRight(Run(Init(map[]), compiles, steps).log, compiles)
  {
    steps := CollidingScript(compiles, "p", a, b);
    SameLengthReturnsOldFunction(compiles, steps, "p", a, b);
    steps := steps + ReadOf("p", b);
  }

  /**
   * In every interleaving of gets, sets, defaults and background writes over the contents
   * in `u`, get returns the function compiled from what Redis held at its read (None when it
   * held nothing), if and only if no two of the contents collide.
   */
  lemma GetRefinesRedisIff(u: set<string>, compiles: Compiles)
    ensures NoCollision(u, compiles) <==>
            forall files, steps :: StepsIn(u, steps) ==> GetsAreRight(Run(Init(files), compiles, steps).log, compiles)
  {
    if NoCollision(u, compiles) {
      forall files, steps | StepsIn(u, steps) ensures GetsAreRight(Run(Init(files), compiles, steps).log, compiles) {
        RunsAreRight(files, u, compiles, steps);
      }
    } else {
      var a, b :| a in u && b in u && compiles(a) && Measures(ByteLen(b), a) && a != b;
      var steps := CollisionMisleadsGet(u, compiles, a, b);
    }
  }

  // ----- libraries -----

  /** No step uploads a script over the path of a library. */
  predicate KeepsApart(libs: set<string>, step: Step) {
    match step
    case UploadFile(Exec(path), _) => path !in libs
    case UploadFile(Lib(path), _) => path in libs
    case ReadForLoad(_, path) => path in libs
    case _ => true
  }

  predicate AllKeepApart(libs: set<string>, steps: seq<Step>) {
    forall i :: 0 <= i < |steps| ==> KeepsApart(libs, steps[i])
  }

  /** The library files deployed with the server are among the contents. */
  predicate FilesIn(files: map<string, string>, libs: set<string>, u: set<string>) {
    forall path :: path in files && path in libs ==> files[path] in u
  }

  /** As NoCollision, for contents that need not compile. */
  predicate NoLibCollision(u: set<string>) {
    forall a, b :: a in u && b in u && Measures(ByteLen(b), a) ==> a == b
  }

  /**
   * A load that found content leaves it on disk, reports a change exactly when a length was
   * recorded and differed, and then misses no change of a known file; one that found none
   * leaves the file alone.
   */
  predicate LoadIsRight(e: Event) {
    e.LoadedLib? ==>
      match e.reply
      case Some(content) =>
        && e.after == Some(content)
        && e.loaded == Changed(e.lenBefore.Some? && e.lenBefore.value != ByteLen(content))
        && (e.lenBefore.Some? && e.before != Some(content) ==> e.loaded == Changed(true))
      case None => e.after == e.before && e.loaded == if e.before.None? then NotFound else Changed(false)
  }

  predicate LoadsAreRight(log: seq<Event>) {
    forall i :: 0 <= i < |log| ==> LoadIsRight(log[i])
  }

  /** A recorded library length is that of the file on disk. */
  ghost predicate LibsOk(c: Cache, libs: set<string>, u: set<string>) {
    forall path :: path in libs ==>
      && (path in c.files ==> c.files[path] in u)
      && (Lib(path) in c.lens ==> path in c.files && Measures(c.lens[Lib(path)], c.files[path]))
  }

  lemma LoadKeepsLibs(c: Cache, libs: set<string>, u: set<string>, path: string, reply: Option<string>)
    requires LibsOk(c, libs, u) && NoLibCollision(u) && path in libs && (reply.Some? ==> reply.value in u)
    ensures var (c', loaded) := LoadLib(c, path, reply);
            && LibsOk(c', libs, u)
            && LoadIsRight(LoadedLib(path, reply, loaded,
                 if Lib(path) in c.lens then Some(c.lens[Lib(path)]) else None, File(c, path), File(c', path)))
  {
  }

  lemma StepKeepsLibs(s: State, libs: set<string>, u: set<string>, compiles: Compiles, step: Step)
    requires LibsOk(s.cache, libs, u) && Within(s, u) && NoLibCollision(u)
    requires StepIn(u, step) && KeepsApart(libs, step)
    requires forall id :: id in s.pending && s.pending[id].LoadPending? ==> s.pending[id].path in libs
    ensures LibsOk(Apply(s, compiles, step).cache, libs, u)
  {
    match step
    case FinishLoad(id) =>
      if id in s.pending && s.pending[id].LoadPending? {
        LoadKeepsLibs(s.cache, libs, u, s.pending[id].path, s.pending[id].reply);
      }
    case UploadFile(key, content) =>
      assert Upload(s.cache, key, content).files == s.cache.files[key.path := content];
    case _ =>
  }

  lemma {:induction false} LibraryRuns(files: map<string, string>, libs: set<string>, u: set<string>,
      compiles: Compiles, steps: seq<Step>)
    requires NoLibCollision(u) && StepsIn(u, steps) && AllKeepApart(libs, steps)
    requires FilesIn(files, libs, u)
    ensures var s := Run(Init(files), compiles, steps);
            && Within(s, u) && LibsOk(s.cache, libs, u) && LoadsAreRight(s.log)
            && forall id :: id in s.pending && s.pending[id].LoadPending? ==> s.pending[id].path in libs
  {
    if steps != [] {
      var m := |steps| - 1;
      LibraryRuns(files, libs, u, compiles, steps[..m]);
      var s := Run(Init(files), compiles, steps[..m]);
      StepStaysWithin(s, u, compiles, steps[m]);
      StepKeepsLibs(s, libs, u, compiles, steps[m]);
      if steps[m].FinishLoad? && steps[m].id in s.pending && s.pending[steps[m].id].LoadPending? {
        LoadKeepsLibs(s.cache, libs, u, s.pending[steps[m].id].path, s.pending[steps[m].id].reply);
      }
    }
  }

  function LoadOf(path: string, b: string): seq<Step> {
    [Elsewhere(Lib(path), Some(b))] + [ReadForLoad(0, path)] + [FinishLoad(0)]
  }

  lemma LoadOfRuns(s: State, compiles: Compiles, steps: seq<Step>, path: string, b: string)
    requires 0 !in Run(s, compiles, steps).pending
    ensures var t := Run(s, compiles, steps);
            var r := Run(s, compiles, steps + LoadOf(path, b));
            && r.cache == LoadLib(t.cache, path, Some(b)).0 && 0 !in r.pending
            && |r.log| == |t.log| + 1 && r.log[|t.log|].LoadedLib? && r.log[|t.log|].path == path
            && r.log[|t.log|].reply == Some(b)
            && r.log[|t.log|].before == File(t.cache, path) && r.log[|t.log|].after == File(r.cache, path)
            && r.log[|t.log|].loaded == LoadLib(t.cache, path, Some(b)).1
  {
    RunThree(s, compiles, steps, Elsewhere(Lib(path), Some(b)), ReadForLoad(0, path), FinishLoad(0));
    LoadSteps(Run(s, compiles, steps), compiles, path, b);
  }

  lemma LoadSteps(t: State, compiles: Compiles, path: string, b: string)
    requires 0 !in t.pending
    ensures var r := Apply(Apply(Apply(t, compiles, Elsewhere(Lib(path), Some(b))), compiles, ReadForLoad(0, path)),
        compiles, FinishLoad(0));
            && r.cache == LoadLib(t.cache, path, Some(b)).0 && 0 !in r.pending
            && |r.log| == |t.log| + 1 && r.log[|t.log|].LoadedLib? && r.log[|t.log|].path == path
            && r.log[|t.log|].reply == Some(b)
            && r.log[|t.log|].before == File(t.cache, path) && r.log[|t.log|].after == File(r.cache, path)
            && r.log[|t.log|].loaded == LoadLib(t.cache, path, Some(b)).1
  {
  }

  /** A load leaves another content's file in place when the lengths agree. */
  lemma SameLengthKeepsOldFile(compiles: Compiles, steps: seq<Step>, path: string, b: string)
    requires var t := Run(Init(map[]), compiles, steps);
             && 0 !in t.pending && Lib(path) in t.cache.lens && t.cache.lens[Lib(path)] == ByteLen(b)
             && File(t.cache, path) != Some(b)
    ensures !LoadsAreRight(Run(Init(map[]), compiles, steps + LoadOf(path, b)).log)
  {
    LoadOfRuns(Init(map[]), compiles, steps, path, b);
    var t := Run(Init(map[]), compiles, steps);
    var r := Run(Init(map[]), compiles, steps + LoadOf(path, b));
    assert !LoadIsRight(r.log[|t.log|]);
  }

  /** A run that brings `a` to disk and records the length of `b` for it. */
  lemma CollidingFile(compiles: Compiles, path: string, a: string, b: string) returns (steps: seq<Step>)
    requires Measures(ByteLen(b), a)
    ensures forall u :: a in u ==> StepsIn(u, steps)
    ensures AllKeepApart({path}, steps)
    ensures var t := Run(Init(map[]), compiles, steps);
            && 0 !in t.pending && Lib(path) in t.cache.lens && t.cache.lens[Lib(path)] == ByteLen(b)
            && File(t.cache, path) == Some(a)
  {
    var s0 := Init(map[]);
    if ByteLen(b) == CharLen(a) {
      steps := [UploadFile(Lib(path), a)];
      RunSnoc(s0, compiles, [], UploadFile(Lib(path), a));
      assert [] + steps == steps;
    } else {
      steps := LoadOf(path, a);
      LoadOfRuns(s0, compiles, [], path, a);
      assert [] + steps == steps;
    }
  }

  lemma CollisionMisleadsLoad(u: set<string>, compiles: Compiles, path: string, a: string, b: string)
      returns (steps: seq<Step>)
    requires a in u && b in u && Measures(ByteLen(b), a) && a != b
    ensures StepsIn(u, steps) && AllKeepApart({path}, steps)
    ensures !LoadsAreRight(Run(Init(map[]), compiles, steps).log)
  {
    steps := CollidingFile(compiles, path, a, b);
    SameLengthKeepsOldFile(compiles, steps, path, b);
    steps := steps + LoadOf(path, b);
  }

  /**
   * Over every run that mixes uploads and loads of contents in `u` and uploads no script
   * over a library's path, each successful load leaves the content it read on disk and
   * reports changes exactly, if and only if no two of the contents collide.
   */
  lemma LibrarySyncIff(u: set<string>, compiles: Compiles)
    ensures NoLibCollision(u) <==>
            forall files, libs, steps :: FilesIn(files, libs, u) && StepsIn(u, steps) && AllKeepApart(libs, steps) ==>
              LoadsAreRight(Run(Init(files), compiles, steps).log)
  {
    if NoLibCollision(u) {
      forall files, libs, steps | FilesIn(files, libs, u) && StepsIn(u, steps) && AllKeepApart(libs, steps)
        ensures LoadsAreRight(Run(Init(files), compiles, steps).log)
      {
        LibraryRuns(files, libs, u, compiles, steps);
      }
    } else {
      var a, b :| a in u && b in u && Measures(ByteLen(b), a) && a != b;
      var steps := CollisionMisleadsLoad(u, compiles, "p", a, b);
      assert FilesIn(map[], {"p"}, u);
    }
  }

  // ----- deletion -----

  /** A deleted key is in neither table, whatever was there before, and nothing else changes. */
  lemma DeleteForgets(s: State, compiles: Compiles, key: Key)
    requires Agree(s.cache, compiles)
    ensures var t := Apply(s, compiles, Delete(key));
            && (key.Exec? ==> key !in t.cache.table) && key !in t.cache.lens
            && (forall k :: k != key ==>
                  && (k in t.cache.table <==> k in s.cache.table) && (k in t.cache.lens <==> k in s.cache.lens)
                  && (k in s.cache.table ==> t.cache.table[k] == s.cache.table[k])
                  && (k in s.cache.lens ==> t.cache.lens[k] == s.cache.lens[k]))
            && t.redis == s.redis && t.cache.files == s.cache.files && t.cache.background == s.cache.background
  {
    if key.Exec? {
      assert EntryAgrees(s.cache, compiles, Exec(key.path));
    }
  }
}
