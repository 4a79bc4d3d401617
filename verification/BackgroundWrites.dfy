/**
 * The Redis writes of uploads (src/scripting/exec_cache.py:77-88) run as background tasks in
 * any order: what Redis holds once they have run.
 */
module BackgroundWrites {
  import opened Common
  import opened ScriptCache
  import opened ScriptCacheTheorems

  /** The content of the write, if it is a SET of the key. */
  function OwnSet(w: Write, key: Key): seq<string> {
    if w.Set? && w.key == key then [w.content] else []
  }

  /** The contents of the SETs of a key, in order. */
  function Sets(writes: seq<Write>, key: Key): seq<string> {
    if writes == [] then []
    else
      Sets(writes[..|writes| - 1], key) + OwnSet(writes[|writes| - 1], key)
  }

  /** The contents uploaded under a key, in order. */
  function Uploads(log: seq<Event>, key: Key): seq<string> {
    if log == [] then []
    else
      var e := log[|log| - 1];
      Uploads(log[..|log| - 1], key) + if e.Uploaded? && e.key == key then [e.content] else []
  }

  /** The contents of the SETs of a key that have run, in the order in which they ran. */
  function FlushedSets(log: seq<Event>, key: Key): seq<string> {
    if log == [] then []
    else
      var e := log[|log| - 1];
      FlushedSets(log[..|log| - 1], key) + if e.Flushed? then OwnSet(e.write, key) else []
  }

  /** The contents of the SETs of a key that have failed, in the order in which they did. */
  function FailedSets(log: seq<Event>, key: Key): seq<string> {
    if log == [] then []
    else
      var e := log[|log| - 1];
      FailedSets(log[..|log| - 1], key) + if e.WriteFailed? then OwnSet(e.write, key) else []
  }

  function Last(s: seq<string>): Option<string> {
    if s == [] then None else Some(s[|s| - 1])
  }

  lemma SetsSnoc(a: seq<Write>, w: Write, key: Key)
    ensures Sets(a + [w], key) == Sets(a, key) + OwnSet(w, key)
  {
    assert (a + [w])[..|a|] == a;
  }

  lemma Associate(x: seq<string>, y: seq<string>, z: seq<string>)
    ensures x + (y + z) == x + y + z
  {
  }

  lemma SetsConcatStep(a: seq<Write>, b: seq<Write>, w: Write, key: Key)
    requires Sets(a + b, key) == Sets(a, key) + Sets(b, key)
    ensures Sets(a + (b + [w]), key) == Sets(a, key) + Sets(b + [w], key)
  {
    assert a + (b + [w]) == (a + b) + [w];
    SetsSnoc(a + b, w, key);
    SetsSnoc(b, w, key);
    Associate(Sets(a, key), Sets(b, key), OwnSet(w, key));
  }

  lemma {:induction false} SetsConcat(a: seq<Write>, b: seq<Write>, key: Key)
    ensures Sets(a + b, key) == Sets(a, key) + Sets(b, key)
  {
    if b == [] {
      assert a + b == a;
    } else {
      var rest, w := b[..|b| - 1], b[|b| - 1];
      assert b == rest + [w];
      SetsConcat(a, rest, key);
      SetsConcatStep(a, rest, w, key);
    }
  }

  lemma SetsOfOne(w: Write, key: Key)
    ensures Sets([w], key) == OwnSet(w, key)
  {
    assert [w][..0] == [];
  }

  /** Taking the i-th write out of the background takes out at most its own content. */
  lemma SetsSplit(bg: seq<Write>, i: nat, key: Key)
    requires i < |bg|
    ensures Sets(bg, key) == Sets(bg[..i], key) + OwnSet(bg[i], key) + Sets(bg[i + 1..], key)
    ensures Sets(bg[..i] + bg[i + 1..], key) == Sets(bg[..i], key) + Sets(bg[i + 1..], key)
  {
    assert bg == bg[..i] + [bg[i]] + bg[i + 1..];
    SetsConcat(bg[..i] + [bg[i]], bg[i + 1..], key);
    SetsConcat(bg[..i], [bg[i]], key);
    SetsConcat(bg[..i], bg[i + 1..], key);
    SetsOfOne(bg[i], key);
  }

  lemma LogSnoc(log: seq<Event>, e: Event, key: Key)
    ensures Uploads(log + [e], key) == Uploads(log, key) + if e.Uploaded? && e.key == key then [e.content] else []
    ensures FlushedSets(log + [e], key) == FlushedSets(log, key) + if e.Flushed? then OwnSet(e.write, key) else []
    ensures FailedSets(log + [e], key) == FailedSets(log, key) + if e.WriteFailed? then OwnSet(e.write, key) else []
  {
    assert (log + [e])[..|log|] == log;
  }

  /** What a key's uploads and writes have come to. */
  datatype Books = Books(uploads: seq<string>, flushed: seq<string>, failed: seq<string>, outstanding: seq<string>)

  function BooksOf(s: State, key: Key): Books {
    Books(Uploads(s.log, key), FlushedSets(s.log, key), FailedSets(s.log, key), Sets(s.cache.background, key))
  }

  /** The step runs an outstanding SET of the key. */
  predicate RunsSet(s: State, step: Step, key: Key) {
    step.Flush? && step.i < |s.cache.background| && s.cache.background[step.i].Set?
        && s.cache.background[step.i].key == key
  }

  /** The step fails an outstanding SET of the key. */
  predicate FailsSet(s: State, step: Step, key: Key) {
    step.FailWrite? && step.i < |s.cache.background| && s.cache.background[step.i].Set?
        && s.cache.background[step.i].key == key
  }

  predicate StartsSet(compiles: Compiles, step: Step, key: Key) {
    step.UploadFile? && step.key == key && (key.Exec? ==> compiles(step.content))
  }

  /** Running a SET moves its content from the outstanding ones to the end of those that ran, and into Redis. */
  lemma SetRuns(s: State, compiles: Compiles, step: Step, key: Key)
    requires RunsSet(s, step, key)
    ensures var bg := s.cache.background;
            var t := Apply(s, compiles, step);
            var (before, x, after) := (Sets(bg[..step.i], key), bg[step.i].content, Sets(bg[step.i + 1..], key));
            && BooksOf(s, key).outstanding == before + [x] + after
            && BooksOf(t, key)
               == BooksOf(s, key).(flushed := FlushedSets(s.log, key) + [x], outstanding := before + after)
            && RedisGet(t, key) == Some(x)
  {
    var w := s.cache.background[step.i];
    SetsSplit(s.cache.background, step.i, key);
    LogSnoc(s.log, Flushed(w), key);
    SetIsWritten(s.redis, w);
  }

  lemma SetIsWritten(redis: map<Key, string>, w: Write)
    requires w.Set?
    ensures w.key in Written(redis, w) && Written(redis, w)[w.key] == w.content
  {
  }

  /** A SET that fails is no longer outstanding, and leaves Redis alone. */
  lemma SetFails(s: State, compiles: Compiles, step: Step, key: Key)
    requires FailsSet(s, step, key)
    ensures var bg := s.cache.background;
            var t := Apply(s, compiles, step);
            var (before, x, after) := (Sets(bg[..step.i], key), bg[step.i].content, Sets(bg[step.i + 1..], key));
            && BooksOf(s, key).outstanding == before + [x] + after
            && BooksOf(t, key)
               == BooksOf(s, key).(failed := FailedSets(s.log, key) + [x], outstanding := before + after)
            && RedisGet(t, key) == RedisGet(s, key)
  {
    SetsSplit(s.cache.background, step.i, key);
    LogSnoc(s.log, WriteFailed(s.cache.background[step.i]), key);
  }

  /** An upload adds to the outstanding ones. */
  lemma SetStarts(s: State, compiles: Compiles, step: Step, key: Key)
    requires StartsSet(compiles, step, key)
    ensures var (b, t) := (BooksOf(s, key), Apply(s, compiles, step));
            && BooksOf(t, key)
               == b.(uploads := b.uploads + [step.content], outstanding := b.outstanding + [step.content])
            && RedisGet(t, key) == RedisGet(s, key)
  {
    SetsConcat(s.cache.background, [Set(key, step.content)], key);
    SetsOfOne(Set(key, step.content), key);
    LogSnoc(s.log, Uploaded(key, step.content), key);
  }

  /** The step leaves the log as it is or adds an event that says nothing about the key's SETs. */
  predicate NotesNothing(s: State, t: State, key: Key) {
    t.log == s.log
    || (|t.log| == |s.log| + 1 && s.log <= t.log
        && !(t.log[|s.log|].Uploaded? && t.log[|s.log|].key == key)
        && !((t.log[|s.log|].Flushed? || t.log[|s.log|].WriteFailed?) && OwnSet(t.log[|s.log|].write, key) != []))
  }

  /** The step leaves the outstanding writes as they are, or starts one that is no SET of the key. */
  predicate StartsNothing(s: State, t: State, key: Key) {
    var (bg, bg') := (s.cache.background, t.cache.background);
    bg' == bg || (|bg'| == |bg| + 1 && bg <= bg' && !(bg'[|bg|].Set? && bg'[|bg|].key == key))
  }

  /** An event about another write. */
  lemma NoteSaysNothing(log: seq<Event>, e: Event, key: Key)
    requires (e.Flushed? || e.WriteFailed?) && OwnSet(e.write, key) == []
    ensures Uploads(log + [e], key) == Uploads(log, key)
    ensures FlushedSets(log + [e], key) == FlushedSets(log, key) && FailedSets(log + [e], key) == FailedSets(log, key)
  {
    LogSnoc(log, e, key);
  }

  lemma QuietStep(s: State, compiles: Compiles, step: Step, key: Key)
    requires !step.Flush? && !step.FailWrite? && !StartsSet(compiles, step, key)
    ensures NotesNothing(s, Apply(s, compiles, step), key) && StartsNothing(s, Apply(s, compiles, step), key)
    ensures !(step.Elsewhere? && step.key == key) ==> RedisGet(Apply(s, compiles, step), key) == RedisGet(s, key)
  {
  }

  lemma QuietBooks(s: State, t: State, key: Key)
    requires NotesNothing(s, t, key) && StartsNothing(s, t, key)
    ensures BooksOf(t, key) == BooksOf(s, key)
  {
    var (bg, bg') := (s.cache.background, t.cache.background);
    if t.log != s.log {
      assert t.log == s.log + [t.log[|s.log|]];
      LogSnoc(s.log, t.log[|s.log|], key);
    }
    if bg' != bg {
      assert bg' == bg + [bg'[|bg|]];
      SetsConcat(bg, [bg'[|bg|]], key);
      SetsOfOne(bg'[|bg|], key);
    }
  }

  /** Any other step leaves the books alone, and Redis too where it holds the key. */
  lemma OtherFlush(s: State, compiles: Compiles, step: Step, key: Key)
    requires step.Flush? && step.i < |s.cache.background| && !RunsSet(s, step, key)
    ensures var t := Apply(s, compiles, step);
            BooksOf(t, key) == BooksOf(s, key) && (RedisGet(s, key).Some? ==> RedisGet(t, key) == RedisGet(s, key))
  {
    var w := s.cache.background[step.i];
    assert OwnSet(w, key) == [];
    SetsSkip(s.cache.background, step.i, key);
    NoteSaysNothing(s.log, Flushed(w), key);
    OtherWriteKeeps(s.redis, w, key);
  }

  lemma OtherFailure(s: State, compiles: Compiles, step: Step, key: Key)
    requires step.FailWrite? && step.i < |s.cache.background| && !FailsSet(s, step, key)
    ensures var t := Apply(s, compiles, step);
            BooksOf(t, key) == BooksOf(s, key) && RedisGet(t, key) == RedisGet(s, key)
  {
    var (bg, i) := (s.cache.background, step.i);
    var t := Apply(s, compiles, step);
    assert t.cache.background == bg[..i] + bg[i + 1..] && t.log == s.log + [WriteFailed(bg[i])] && t.redis == s.redis;
    SetsSkip(bg, i, key);
    NoteSaysNothing(s.log, WriteFailed(bg[i]), key);
  }

  lemma OtherWriteKeeps(redis: map<Key, string>, w: Write, key: Key)
    requires OwnSet(w, key) == []
    ensures key in redis ==> key in Written(redis, w) && Written(redis, w)[key] == redis[key]
  {
  }

  lemma SetsSkip(bg: seq<Write>, i: nat, key: Key)
    requires i < |bg| && !(bg[i].Set? && bg[i].key == key)
    ensures Sets(bg[..i] + bg[i + 1..], key) == Sets(bg, key)
  {
    SetsSplit(bg, i, key);
    NothingInside(Sets(bg[..i], key), OwnSet(bg[i], key), Sets(bg[i + 1..], key));
  }

  lemma NothingInside(a: seq<string>, x: seq<string>, b: seq<string>)
    requires x == []
    ensures a + x + b == a + b
  {
  }

  lemma OthersLeaveBooks(s: State, compiles: Compiles, step: Step, key: Key)
    requires !RunsSet(s, step, key) && !FailsSet(s, step, key) && !StartsSet(compiles, step, key)
    ensures var t := Apply(s, compiles, step);
            && BooksOf(t, key) == BooksOf(s, key)
            && (!(step.Elsewhere? && step.key == key) && RedisGet(s, key).Some? ==>
                 RedisGet(t, key) == RedisGet(s, key))
  {
    if step.Flush? {
      if step.i < |s.cache.background| {
        OtherFlush(s, compiles, step, key);
      }
    } else if step.FailWrite? {
      if step.i < |s.cache.background| {
        OtherFailure(s, compiles, step, key);
      }
    } else {
      QuietStep(s, compiles, step, key);
      QuietBooks(s, Apply(s, compiles, step), key);
    }
  }

  // ----- what Redis holds -----

  /** No other server writes the key. */
  predicate OnlyHere(steps: seq<Step>, key: Key) {
    forall i :: 0 <= i < |steps| ==> !(steps[i].Elsewhere? && steps[i].key == key)
  }

  /** Each upload's SET has run or failed once, or is outstanding, and Redis holds the last that ran. */
  predicate Balanced(b: Books, held: Option<string>) {
    && multiset(b.uploads) == multiset(b.flushed) + multiset(b.failed) + multiset(b.outstanding)
    && (b.flushed != [] ==> held == Last(b.flushed))
  }

  lemma RunBalances(b: Books, held: Option<string>, before: seq<string>, x: string, after: seq<string>)
    requires Balanced(b, held) && b.outstanding == before + [x] + after
    ensures Balanced(b.(flushed := b.flushed + [x], outstanding := before + after), Some(x))
  {
    assert multiset(b.outstanding) == multiset(before) + multiset{x} + multiset(after);
  }

  lemma FailureBalances(b: Books, held: Option<string>, before: seq<string>, x: string, after: seq<string>)
    requires Balanced(b, held) && b.outstanding == before + [x] + after
    ensures Balanced(b.(failed := b.failed + [x], outstanding := before + after), held)
  {
    assert multiset(b.outstanding) == multiset(before) + multiset{x} + multiset(after);
  }

  lemma StartBalances(b: Books, held: Option<string>, x: string)
    requires Balanced(b, held)
    ensures Balanced(b.(uploads := b.uploads + [x], outstanding := b.outstanding + [x]), held)
  {
  }

  lemma FlushedIsHeld(b: Books, held: Option<string>)
    requires Balanced(b, held) && b.flushed != []
    ensures held.Some?
  {
  }

  lemma StepBalances(s: State, compiles: Compiles, step: Step, key: Key)
    requires Balanced(BooksOf(s, key), RedisGet(s, key)) && !(step.Elsewhere? && step.key == key)
    ensures var t := Apply(s, compiles, step); Balanced(BooksOf(t, key), RedisGet(t, key))
  {
    var b, held := BooksOf(s, key), RedisGet(s, key);
    if RunsSet(s, step, key) {
      var bg := s.cache.background;
      SetRuns(s, compiles, step, key);
      RunBalances(b, held, Sets(bg[..step.i], key), bg[step.i].content, Sets(bg[step.i + 1..], key));
    } else if FailsSet(s, step, key) {
      var bg := s.cache.background;
      SetFails(s, compiles, step, key);
      FailureBalances(b, held, Sets(bg[..step.i], key), bg[step.i].content, Sets(bg[step.i + 1..], key));
    } else if StartsSet(compiles, step, key) {
      SetStarts(s, compiles, step, key);
      StartBalances(b, held, step.content);
    } else {
      OthersLeaveBooks(s, compiles, step, key);
      if b.flushed != [] {
        FlushedIsHeld(b, held);
      }
    }
  }

  /**
   * In every run in which no other server writes the key: each upload's SET has run or failed
   * exactly once, or is outstanding, and Redis holds the content of the last SET that ran.
   */
  lemma {:induction false} RedisHoldsLastFlush(files: map<string, string>, compiles: Compiles,
      steps: seq<Step>, key: Key)
    requires OnlyHere(steps, key)
    ensures var s := Run(Init(files), compiles, steps); Balanced(BooksOf(s, key), RedisGet(s, key))
  {
    if steps != [] {
      var m := |steps| - 1;
      RedisHoldsLastFlush(files, compiles, steps[..m], key);
      StepBalances(Run(Init(files), compiles, steps[..m]), compiles, steps[m], key);
    }
  }

  lemma LastIsThere(b: Books, held: Option<string>)
    requires Balanced(b, held) && b.flushed != []
    ensures held.Some? && held.value in b.uploads && held == Last(b.flushed)
  {
    assert b.flushed[|b.flushed| - 1] in multiset(b.flushed);
    assert b.flushed[|b.flushed| - 1] in multiset(b.uploads);
  }

  /**
   * Once a SET of a key has run, whatever failed or is outstanding, Redis holds one of the
   * uploads, and it holds the latest if and only if the SET that ran last has its content.
   */
  lemma LatestUploadSurvivesIff(files: map<string, string>, compiles: Compiles, steps: seq<Step>, key: Key)
    requires OnlyHere(steps, key)
    requires BooksOf(Run(Init(files), compiles, steps), key).flushed != []
    ensures var s := Run(Init(files), compiles, steps);
            var b := BooksOf(s, key);
            && RedisGet(s, key).Some? && RedisGet(s, key).value in b.uploads
            && (RedisGet(s, key) == Last(b.uploads) <==> Last(b.flushed) == Last(b.uploads))
  {
    RedisHoldsLastFlush(files, compiles, steps, key);
    var s := Run(Init(files), compiles, steps);
    LastIsThere(BooksOf(s, key), RedisGet(s, key));
  }

  /** The step does not run a SET of the key before an earlier one. */
  predicate KeepsOrder(s: State, step: Step, key: Key) {
    RunsSet(s, step, key) ==> Sets(s.cache.background[..step.i], key) == []
  }

  ghost predicate AllKeepOrder(s: State, compiles: Compiles, steps: seq<Step>, key: Key) {
    forall i :: 0 <= i < |steps| ==> KeepsOrder(Run(s, compiles, steps[..i]), steps[i], key)
  }

  predicate Queued(b: Books) {
    b.failed == [] ==> b.uploads == b.flushed + b.outstanding
  }

  lemma QueuedRuns(b: Books, x: string, after: seq<string>)
    requires Queued(b) && b.outstanding == [] + [x] + after
    ensures Queued(b.(flushed := b.flushed + [x], outstanding := [] + after))
  {
    assert b.flushed + ([] + [x] + after) == (b.flushed + [x]) + ([] + after);
  }

  lemma QueuedStarts(b: Books, x: string)
    requires Queued(b)
    ensures Queued(b.(uploads := b.uploads + [x], outstanding := b.outstanding + [x]))
  {
    assert b.flushed + b.outstanding + [x] == b.flushed + (b.outstanding + [x]);
  }

  lemma QueuedFails(b: Books, x: string, rest: seq<string>)
    ensures Queued(b.(failed := b.failed + [x], outstanding := rest))
  {
  }

  lemma StepQueues(s: State, compiles: Compiles, step: Step, key: Key)
    requires Queued(BooksOf(s, key)) && KeepsOrder(s, step, key)
    ensures Queued(BooksOf(Apply(s, compiles, step), key))
  {
    var b, bg := BooksOf(s, key), s.cache.background;
    if RunsSet(s, step, key) {
      SetRuns(s, compiles, step, key);
      QueuedRuns(b, bg[step.i].content, Sets(bg[step.i + 1..], key));
    } else if FailsSet(s, step, key) {
      SetFails(s, compiles, step, key);
      QueuedFails(b, bg[step.i].content, Sets(bg[..step.i], key) + Sets(bg[step.i + 1..], key));
    } else if StartsSet(compiles, step, key) {
      SetStarts(s, compiles, step, key);
      QueuedStarts(b, step.content);
    } else {
      OthersLeaveBooks(s, compiles, step, key);
    }
  }

  lemma {:induction false} RunQueues(files: map<string, string>, compiles: Compiles, steps: seq<Step>, key: Key)
    requires AllKeepOrder(Init(files), compiles, steps, key)
    ensures Queued(BooksOf(Run(Init(files), compiles, steps), key))
  {
    if steps != [] {
      var m := |steps| - 1;
      forall i | 0 <= i < m ensures KeepsOrder(Run(Init(files), compiles, steps[..m][..i]), steps[..m][i], key) {
        assert steps[..m][..i] == steps[..i];
        assert KeepsOrder(Run(Init(files), compiles, steps[..i]), steps[i], key);
      }
      RunQueues(files, compiles, steps[..m], key);
      StepQueues(Run(Init(files), compiles, steps[..m]), compiles, steps[m], key);
    }
  }

  lemma QueuedHoldsLatest(b: Books, held: Option<string>)
    requires Balanced(b, held) && Queued(b) && b.uploads != [] && b.outstanding == [] && b.failed == []
    ensures held == Last(b.uploads)
  {
    assert b.uploads == b.flushed;
  }

  /**
   * If the SETs of a key run in the order in which they were started, and none fails, Redis
   * ends up with the latest upload.
   */
  lemma OrderedWritesKeepLatest(files: map<string, string>, compiles: Compiles, steps: seq<Step>, key: Key)
    requires OnlyHere(steps, key) && AllKeepOrder(Init(files), compiles, steps, key)
    requires var b := BooksOf(Run(Init(files), compiles, steps), key);
             b.uploads != [] && b.outstanding == [] && b.failed == []
    ensures var s := Run(Init(files), compiles, steps); RedisGet(s, key) == Last(Uploads(s.log, key))
  {
    RunQueues(files, compiles, steps, key);
    RedisHoldsLastFlush(files, compiles, steps, key);
    var s := Run(Init(files), compiles, steps);
    QueuedHoldsLatest(BooksOf(s, key), RedisGet(s, key));
  }

  // ----- one upload -----

  /**
   * The upload's SET is the only one of its key outstanding, or none is and Redis holds the
   * upload, or its SET failed; `before` are the failures before the upload.
   */
  predicate OnItsWay(s: State, key: Key, content: string, before: seq<string>) {
    var b := BooksOf(s, key);
    || (b.failed == before && b.outstanding == [content])
    || (b.failed == before && b.outstanding == [] && RedisGet(s, key) == Some(content))
    || (b.failed == before + [content] && b.outstanding == [])
  }

  lemma OnlyOne(before: seq<string>, x: string, after: seq<string>, content: string)
    requires before + [x] + after == [content]
    ensures x == content && before + after == []
  {
    assert |before| + 1 + |after| == 1;
    assert (before + [x] + after)[0] == x;
  }

  lemma StepOnItsWay(s: State, compiles: Compiles, step: Step, key: Key, content: string, before: seq<string>)
    requires OnItsWay(s, key, content, before)
    requires !(step.Elsewhere? && step.key == key) && !(step.UploadFile? && step.key == key)
    ensures OnItsWay(Apply(s, compiles, step), key, content, before)
  {
    var bg := s.cache.background;
    if RunsSet(s, step, key) {
      SetRuns(s, compiles, step, key);
      OnlyOne(Sets(bg[..step.i], key), bg[step.i].content, Sets(bg[step.i + 1..], key), content);
    } else if FailsSet(s, step, key) {
      SetFails(s, compiles, step, key);
      OnlyOne(Sets(bg[..step.i], key), bg[step.i].content, Sets(bg[step.i + 1..], key), content);
    } else {
      OthersLeaveBooks(s, compiles, step, key);
      assert BooksOf(Apply(s, compiles, step), key) == BooksOf(s, key);
    }
  }

  lemma {:induction false} RunOnItsWay(
    s: State, compiles: Compiles, steps: seq<Step>, key: Key, content: string, before: seq<string>)
    requires OnItsWay(s, key, content, before) && OnlyHere(steps, key)
    requires forall i :: 0 <= i < |steps| ==> !(steps[i].UploadFile? && steps[i].key == key)
    ensures OnItsWay(Run(s, compiles, steps), key, content, before)
  {
    if steps != [] {
      var m := |steps| - 1;
      RunOnItsWay(s, compiles, steps[..m], key, content, before);
      StepOnItsWay(Run(s, compiles, steps[..m]), compiles, steps[m], key, content, before);
    }
  }

  /**
   * An upload with no SET of its key outstanding before it, and no other upload or foreign
   * write of the key after it: whatever else happens, its SET is still outstanding, or has
   * failed, or Redis holds the upload.
   */
  lemma UploadReachesRedis(s: State, compiles: Compiles, key: Key, content: string, after: seq<Step>)
    requires key.Exec? ==> compiles(content)
    requires Sets(s.cache.background, key) == [] && OnlyHere(after, key)
    requires forall i :: 0 <= i < |after| ==> !(after[i].UploadFile? && after[i].key == key)
    ensures OnItsWay(Run(Apply(s, compiles, UploadFile(key, content)), compiles, after), key, content,
                     FailedSets(s.log, key))
  {
    SetStarts(s, compiles, UploadFile(key, content), key);
    RunOnItsWay(Apply(s, compiles, UploadFile(key, content)), compiles, after, key, content, FailedSets(s.log, key));
  }

  /**
   * When its SET runs at once, Redis holds the upload, and every get that reads it returns
   * its function, whichever of the two measures recorded the length.
   */
  lemma PromptUploadIsRead(s: State, compiles: Compiles, key: Key, content: string)
    requires key.Exec? ==> compiles(content)
    ensures var t := Apply(Apply(s, compiles, UploadFile(key, content)), compiles, Flush(|s.cache.background|));
            && t.redis == s.redis[key := content] && t.cache.background == s.cache.background
            && File(t.cache, key.path) == Some(content)
            && (key.Exec? ==> Get(t.cache, compiles, key, RedisGet(t, key)).1 == Returned(Some(Func(content))))
  {
    var bg := s.cache.background;
    assert (bg + [Set(key, content)])[..|bg|] + (bg + [Set(key, content)])[|bg| + 1..] == bg;
  }

  lemma TwoUploads(s: State, compiles: Compiles, key: Key, first: string, second: string)
    requires s.cache.background == [] && key.Exec? && compiles(first) && compiles(second)
    ensures var t := Apply(Apply(s, compiles, UploadFile(key, first)), compiles, UploadFile(key, second));
            && t.redis == s.redis && t.cache.background == [Set(key, first), Set(key, second)]
            && Lookup(t.cache, key) == Some(Func(second)) && key in t.cache.lens && t.cache.lens[key] == CharLen(second)
  {
  }

  /**
   * Two uploads in a row whose SETs run in either order: the second survives exactly if its
   * SET runs last or the contents are equal, and get returns the function of the survivor.
   */
  lemma LateWriteRevertsUpload(s: State, compiles: Compiles, key: Key, first: string, second: string, i: nat)
    requires s.cache.background == [] && key.Exec? && compiles(first) && compiles(second) && i < 2
    requires Measures(ByteLen(first), second) ==> first == second
    ensures var uploaded := Apply(Apply(s, compiles, UploadFile(key, first)), compiles, UploadFile(key, second));
            var t := Apply(Apply(uploaded, compiles, Flush(i)), compiles, Flush(0));
            && Lookup(t.cache, key) == Some(Func(second)) && t.cache.background == []
            && RedisGet(t, key) == Some(if i == 0 then second else first)
            && (RedisGet(t, key) == Some(second) <==> i == 0 || first == second)
            && Get(t.cache, compiles, key, RedisGet(t, key)).1 == Returned(Some(Func(RedisGet(t, key).value)))
  {
    TwoUploads(s, compiles, key, first, second);
  }

  // ----- every background write -----

  /** The log tells from position `n` on that the write has run or failed. */
  predicate IsSettled(log: seq<Event>, n: nat, w: Write) {
    exists i :: n <= i < |log| && (log[i] == Flushed(w) || log[i] == WriteFailed(w))
  }

  lemma StepSettles(s: State, compiles: Compiles, step: Step, n: nat, w: Write)
    requires n <= |s.log| && (w in s.cache.background || IsSettled(s.log, n, w))
    ensures var t := Apply(s, compiles, step);
            n <= |t.log| && (w in t.cache.background || IsSettled(t.log, n, w))
  {
    var t := Apply(s, compiles, step);
    LogOnlyGrows(s, compiles, step);
    if IsSettled(s.log, n, w) {
      var i :| n <= i < |s.log| && (s.log[i] == Flushed(w) || s.log[i] == WriteFailed(w));
      assert t.log[i] == s.log[i];
    } else if (step.Flush? || step.FailWrite?) && step.i < |s.cache.background| {
      var bg := s.cache.background;
      var j :| 0 <= j < |bg| && bg[j] == w;
      if j == step.i {
        assert t.log[|s.log|] == if step.Flush? then Flushed(w) else WriteFailed(w);
      } else {
        assert w == t.cache.background[if j < step.i then j else j - 1];
      }
    }
  }

  lemma LogOnlyGrows(s: State, compiles: Compiles, step: Step)
    ensures s.log <= Apply(s, compiles, step).log
    ensures !step.Flush? && !step.FailWrite? ==> s.cache.background <= Apply(s, compiles, step).cache.background
  {
  }

  /** A write that is outstanding stays so until it runs or fails. */
  lemma {:induction false} WriteSettles(s: State, compiles: Compiles, steps: seq<Step>, n: nat, w: Write)
    requires n <= |s.log| && w in s.cache.background
    ensures var t := Run(s, compiles, steps);
            n <= |t.log| && (w in t.cache.background || IsSettled(t.log, n, w))
  {
    if steps != [] {
      WriteSettles(s, compiles, steps[..|steps| - 1], n, w);
      StepSettles(Run(s, compiles, steps[..|steps| - 1]), compiles, steps[|steps| - 1], n, w);
    }
  }

  /** What the writes that ran left under a key: the last SET, or the first SETNX if there was none before it. */
  function Outcome(log: seq<Event>, key: Key): Option<string> {
    if log == [] then None
    else
      var before, e := Outcome(log[..|log| - 1], key), log[|log| - 1];
      if !e.Flushed? || e.write.key != key then before
      else match e.write
        case Set(_, content) => Some(content)
        case SetNx(_, content) => if before.Some? then before else Some(content)
  }

  lemma OutcomeSnoc(log: seq<Event>, e: Event, key: Key)
    ensures Outcome(log + [e], key)
            == if !e.Flushed? || e.write.key != key then Outcome(log, key)
               else match e.write
                    case Set(_, content) => Some(content)
                    case SetNx(_, content) => if Outcome(log, key).Some? then Outcome(log, key) else Some(content)
  {
    assert (log + [e])[..|log|] == log;
  }

  lemma StepOutcome(s: State, compiles: Compiles, step: Step, key: Key)
    requires RedisGet(s, key) == Outcome(s.log, key) && !(step.Elsewhere? && step.key == key)
    ensures var t := Apply(s, compiles, step); RedisGet(t, key) == Outcome(t.log, key)
  {
    var t := Apply(s, compiles, step);
    if step.Flush? {
      if step.i < |s.cache.background| {
        OutcomeSnoc(s.log, Flushed(s.cache.background[step.i]), key);
      }
    } else {
      OthersNoteNoFlush(s, compiles, step, key);
      if t.log != s.log {
        assert t.log == s.log + [t.log[|s.log|]];
        OutcomeSnoc(s.log, t.log[|s.log|], key);
      }
    }
  }

  lemma OthersNoteNoFlush(s: State, compiles: Compiles, step: Step, key: Key)
    requires !step.Flush? && !(step.Elsewhere? && step.key == key)
    ensures var t := Apply(s, compiles, step);
            && RedisGet(t, key) == RedisGet(s, key)
            && (t.log == s.log || (|t.log| == |s.log| + 1 && s.log <= t.log && !t.log[|s.log|].Flushed?))
  {
  }

  /** In every run in which no other server writes the key, Redis holds the outcome of the writes that ran. */
  lemma {:induction false} RedisHoldsOutcome(files: map<string, string>, compiles: Compiles, steps: seq<Step>, key: Key)
    requires OnlyHere(steps, key)
    ensures var s := Run(Init(files), compiles, steps); RedisGet(s, key) == Outcome(s.log, key)
  {
    if steps != [] {
      var m := |steps| - 1;
      RedisHoldsOutcome(files, compiles, steps[..m], key);
      StepOutcome(Run(Init(files), compiles, steps[..m]), compiles, steps[m], key);
    }
  }
}
