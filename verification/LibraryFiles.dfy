/**
 * Library files in runs that also upload scripts over library paths: what a load leaves on
 * disk, told from what was uploaded, deleted and loaded before.
 */
module LibraryFiles {
  import opened Common
  import opened ScriptCache
  import opened ScriptCacheTheorems

  /**
   * What a log says of a library: no length is recorded, or that of `content`, counted in
   * bytes or in characters; `hidden` when a script with other content was uploaded over the
   * file since.
   */
  datatype Standing = Unrecorded | Recorded(content: string, inBytes: bool, hidden: bool)

  function After(st: Standing, e: Event, path: string): Standing {
    match e
    case Uploaded(Lib(p), content) =>
      if p == path then Recorded(content, CharLen(content) == ByteLen(content), false) else st
    case Uploaded(Exec(p), script) =>
      if p == path && st.Recorded? then st.(hidden := script != st.content) else st
    case Deleted(Lib(p)) => if p == path then Unrecorded else st
    case LoadedLib(p, Some(content), _, _, _, _) =>
      if p != path || (st.Recorded? && st.content == content && st.inBytes) then st else Recorded(content, true, false)
    case LoadedLib(p, None, _, _, Some(content), _) => if p == path then Recorded(content, true, false) else st
    case _ => st
  }

  function StandingOf(log: seq<Event>, path: string): Standing {
    if log == [] then Unrecorded else After(StandingOf(log[..|log| - 1], path), log[|log| - 1], path)
  }

  lemma StandingSnoc(log: seq<Event>, e: Event, path: string)
    ensures StandingOf(log + [e], path) == After(StandingOf(log, path), e, path)
  {
    assert (log + [e])[..|log|] == log;
  }

  /** The standing is that of the cache. */
  predicate Stands(c: Cache, st: Standing, u: set<string>, path: string) {
    && (path in c.files ==> c.files[path] in u)
    && match st
       case Unrecorded => Lib(path) !in c.lens
       case Recorded(content, inBytes, hidden) =>
         && content in u && path in c.files && Lib(path) in c.lens && Measures(c.lens[Lib(path)], content)
         && (inBytes <==> c.lens[Lib(path)] == ByteLen(content))
         && (hidden <==> c.files[path] != content)
  }

  /** The content whose load does not reach the disk. */
  predicate HiddenBy(st: Standing, content: string) {
    st.Recorded? && st.content == content && st.inBytes && st.hidden
  }

  /** A load of the content reports a change: a length is recorded, and it is not this content's in bytes. */
  predicate Reported(st: Standing, content: string) {
    st.Recorded? && !(st.content == content && st.inBytes)
  }

  /** A load's effect follows from the standing before it. */
  lemma LoadStands(c: Cache, st: Standing, u: set<string>, path: string, reply: Option<string>)
    requires Stands(c, st, u, path) && NoLibCollision(u) && (reply.Some? ==> reply.value in u)
    ensures var (c', loaded) := LoadLib(c, path, reply);
            var len := if Lib(path) in c.lens then Some(c.lens[Lib(path)]) else None;
            && Stands(c', After(st, LoadedLib(path, reply, loaded, len, File(c, path), File(c', path)), path), u, path)
            && (reply.Some? ==> (File(c', path) == reply <==> !HiddenBy(st, reply.value)))
            && (loaded == Changed(true) <==> reply.Some? && Reported(st, reply.value))
            && (st.Recorded? ==> (st.hidden <==> File(c, path) != Some(st.content)))
  {
  }

  lemma OtherLoadStands(c: Cache, st: Standing, u: set<string>, path: string, other: string, reply: Option<string>)
    requires Stands(c, st, u, path) && other != path
    ensures Stands(LoadLib(c, other, reply).0, st, u, path)
  {
  }

  lemma UploadStands(c: Cache, st: Standing, u: set<string>, path: string, key: Key, content: string)
    requires Stands(c, st, u, path) && content in u
    ensures Stands(Upload(c, key, content), After(st, Uploaded(key, content), path), u, path)
  {
    assert Upload(c, key, content).files == c.files[key.path := content];
  }

  /** Steps that neither upload, delete nor load leave libraries alone. */
  lemma OtherStepStands(s: State, st: Standing, u: set<string>, compiles: Compiles, path: string, step: Step)
    requires Stands(s.cache, st, u, path) && Within(s, u)
    requires !step.UploadFile? && !step.Delete? && !step.FinishLoad?
    ensures Stands(Apply(s, compiles, step).cache, st, u, path)
    ensures var t := Apply(s, compiles, step);
            t.log == s.log || (t.log == s.log + [t.log[|s.log|]] && After(st, t.log[|s.log|], path) == st
                && !t.log[|s.log|].LoadedLib?)
  {
  }

  /** What a load leaves on disk and what it reports follow from the standing before it. */
  predicate LoadFollows(st: Standing, e: Event, path: string) {
    e.LoadedLib? && e.path == path ==>
      && (e.reply.Some? ==> (e.after == e.reply <==> !HiddenBy(st, e.reply.value)))
      && (e.loaded == Changed(true) <==> e.reply.Some? && Reported(st, e.reply.value))
      && (st.Recorded? ==> (st.hidden <==> e.before != Some(st.content)))
  }

  ghost predicate LoadsFollow(log: seq<Event>, path: string) {
    forall j :: 0 <= j < |log| ==> LoadFollows(StandingOf(log[..j], path), log[j], path)
  }

  lemma LoadsFollowSnoc(log: seq<Event>, e: Event, path: string)
    requires LoadsFollow(log, path) && LoadFollows(StandingOf(log, path), e, path)
    ensures LoadsFollow(log + [e], path)
  {
    var log' := log + [e];
    forall j | 0 <= j < |log'| ensures LoadFollows(StandingOf(log'[..j], path), log'[j], path) {
      assert log'[..j] == log[..j];
    }
  }

  ghost predicate Known(s: State, u: set<string>, path: string) {
    Stands(s.cache, StandingOf(s.log, path), u, path) && LoadsFollow(s.log, path)
  }

  /** One event more, after which the cache stands as the log says. */
  lemma KnownSnoc(s: State, t: State, u: set<string>, path: string, e: Event)
    requires Known(s, u, path) && t.log == s.log + [e]
    requires LoadFollows(StandingOf(s.log, path), e, path)
    requires Stands(t.cache, After(StandingOf(s.log, path), e, path), u, path)
    ensures Known(t, u, path)
  {
    StandingSnoc(s.log, e, path);
    LoadsFollowSnoc(s.log, e, path);
  }

  lemma LoadKnown(s: State, u: set<string>, compiles: Compiles, path: string, id: nat)
    requires Known(s, u, path) && Within(s, u) && NoLibCollision(u)
    requires id in s.pending && s.pending[id].LoadPending?
    ensures Known(Apply(s, compiles, FinishLoad(id)), u, path)
  {
    var LoadPending(p, reply) := s.pending[id];
    var t := Apply(s, compiles, FinishLoad(id));
    if p == path {
      LoadStands(s.cache, StandingOf(s.log, path), u, path, reply);
    } else {
      OtherLoadStands(s.cache, StandingOf(s.log, path), u, path, p, reply);
    }
    KnownSnoc(s, t, u, path, t.log[|s.log|]);
  }

  lemma OtherStepKnown(s: State, u: set<string>, compiles: Compiles, path: string, step: Step)
    requires Known(s, u, path) && Within(s, u) && !step.UploadFile? && !step.Delete? && !step.FinishLoad?
    ensures Known(Apply(s, compiles, step), u, path)
  {
    var t := Apply(s, compiles, step);
    OtherStepStands(s, StandingOf(s.log, path), u, compiles, path, step);
    if t.log != s.log {
      KnownSnoc(s, t, u, path, t.log[|s.log|]);
    }
  }

  lemma StepKnown(s: State, u: set<string>, compiles: Compiles, path: string, step: Step)
    requires Known(s, u, path) && Within(s, u) && NoLibCollision(u) && StepIn(u, step)
    ensures Known(Apply(s, compiles, step), u, path)
  {
    var t := Apply(s, compiles, step);
    match step
    case FinishLoad(id) =>
      if id in s.pending && s.pending[id].LoadPending? {
        LoadKnown(s, u, compiles, path, id);
      }
    case UploadFile(key, content) =>
      if t != s {
        UploadStands(s.cache, StandingOf(s.log, path), u, path, key, content);
        KnownSnoc(s, t, u, path, Uploaded(key, content));
      }
    case Delete(key) =>
      if t != s {
        KnownSnoc(s, t, u, path, Deleted(key));
      }
    case _ => OtherStepKnown(s, u, compiles, path, step);
  }

  lemma {:induction false} RunKnown(files: map<string, string>, u: set<string>, compiles: Compiles,
      steps: seq<Step>, path: string)
    requires NoLibCollision(u) && StepsIn(u, steps) && (path in files ==> files[path] in u)
    ensures Within(Run(Init(files), compiles, steps), u) && Known(Run(Init(files), compiles, steps), u, path)
  {
    if steps != [] {
      var m := |steps| - 1;
      RunKnown(files, u, compiles, steps[..m], path);
      StepStaysWithin(Run(Init(files), compiles, steps[..m]), u, compiles, steps[m]);
      StepKnown(Run(Init(files), compiles, steps[..m]), u, compiles, path, steps[m]);
    }
  }

  /**
   * In every run over contents that do not collide, scripts uploaded to library paths
   * included: a load that read content leaves it on disk if and only if it is not the case
   * that this very content was recorded in bytes and a script with other content was
   * uploaded over the file since.
   */
  lemma LoadReachesDiskIff(files: map<string, string>, u: set<string>, compiles: Compiles, steps: seq<Step>, j: nat)
    requires NoLibCollision(u) && StepsIn(u, steps) && (forall path :: path in files ==> files[path] in u)
    requires var log := Run(Init(files), compiles, steps).log; j < |log| && log[j].LoadedLib? && log[j].reply.Some?
    ensures var log := Run(Init(files), compiles, steps).log;
            log[j].after == log[j].reply <==> !HiddenBy(StandingOf(log[..j], log[j].path), log[j].reply.value)
  {
    var log := Run(Init(files), compiles, steps).log;
    RunKnown(files, u, compiles, steps, log[j].path);
    assert LoadFollows(StandingOf(log[..j], log[j].path), log[j], log[j].path);
  }

  // ----- reported changes -----

  /**
   * In every run over contents that do not collide, a load reports a change if and only if
   * it read content, a length was recorded, and that was not this very content's in bytes.
   */
  lemma ReportedChangeIff(files: map<string, string>, u: set<string>, compiles: Compiles, steps: seq<Step>, j: nat)
    requires NoLibCollision(u) && StepsIn(u, steps) && (forall path :: path in files ==> files[path] in u)
    requires var log := Run(Init(files), compiles, steps).log; j < |log| && log[j].LoadedLib?
    ensures var log := Run(Init(files), compiles, steps).log;
            log[j].loaded == Changed(true) <==>
            log[j].reply.Some? && Reported(StandingOf(log[..j], log[j].path), log[j].reply.value)
  {
    var log := Run(Init(files), compiles, steps).log;
    RunKnown(files, u, compiles, steps, log[j].path);
    assert LoadFollows(StandingOf(log[..j], log[j].path), log[j], log[j].path);
  }

  /**
   * A load that finds its content on disk already reports a change if and only if that
   * content was recorded in characters that are not its bytes, or the length recorded is
   * another content's and a script with this very content was uploaded over the file.
   */
  lemma FalseChangeIff(files: map<string, string>, u: set<string>, compiles: Compiles, steps: seq<Step>, j: nat)
    requires NoLibCollision(u) && StepsIn(u, steps) && (forall path :: path in files ==> files[path] in u)
    requires var log := Run(Init(files), compiles, steps).log;
             j < |log| && log[j].LoadedLib? && log[j].reply.Some? && log[j].before == log[j].reply
    ensures var log := Run(Init(files), compiles, steps).log;
            var st := StandingOf(log[..j], log[j].path);
            log[j].loaded == Changed(true) <==>
            st.Recorded? && (if st.content == log[j].reply.value then !st.inBytes else st.hidden)
  {
    ReportedChangeIff(files, u, compiles, steps, j);
    var log := Run(Init(files), compiles, steps).log;
    RunKnown(files, u, compiles, steps, log[j].path);
    assert LoadFollows(StandingOf(log[..j], log[j].path), log[j], log[j].path);
  }

  /** The event does not change what is recorded of a library loaded with this content. */
  predicate KeepsContent(e: Event, path: string, content: string) {
    match e
    case Uploaded(Lib(p), _) => p != path
    case Deleted(Lib(p)) => p != path
    case LoadedLib(p, Some(c), _, _, _, _) => p != path || c == content
    case LoadedLib(p, None, _, _, Some(_), _) => p != path
    case _ => true
  }

  predicate RecordedInBytes(st: Standing, content: string) {
    st.Recorded? && st.content == content && st.inBytes
  }

  lemma {:induction false} StaysRecorded(log: seq<Event>, path: string, content: string, j: nat, k: nat)
    requires j < k <= |log| && log[j].LoadedLib? && log[j].path == path && log[j].reply == Some(content)
    requires forall i :: j < i < k ==> KeepsContent(log[i], path, content)
    ensures RecordedInBytes(StandingOf(log[..k], path), content)
  {
    assert log[..k][..k - 1] == log[..k - 1];
    if j < k - 1 {
      StaysRecorded(log, path, content, j, k - 1);
      assert KeepsContent(log[k - 1], path, content);
    }
  }

  /**
   * A change is reported once: after a load of some content, no later load of the same
   * content reports one, as long as nothing else is recorded for the library in between.
   */
  lemma ChangeIsReportedOnce(
    files: map<string, string>, u: set<string>, compiles: Compiles, steps: seq<Step>, content: string, j: nat, k: nat)
    requires NoLibCollision(u) && StepsIn(u, steps) && (forall path :: path in files ==> files[path] in u)
    requires var log := Run(Init(files), compiles, steps).log;
             && j < k < |log| && log[j].LoadedLib? && log[k].LoadedLib? && log[j].path == log[k].path
             && log[j].reply == log[k].reply == Some(content)
             && forall i :: j < i < k ==> KeepsContent(log[i], log[j].path, content)
    ensures Run(Init(files), compiles, steps).log[k].loaded != Changed(true)
  {
    ReportedChangeIff(files, u, compiles, steps, k);
    var log := Run(Init(files), compiles, steps).log;
    StaysRecorded(log, log[j].path, content, j, k);
  }

  /** The last thing that happened is a load that reported a change of a file that already held the content. */
  predicate FalseChange(log: seq<Event>, path: string, content: string) {
    && log != [] && log[|log| - 1].LoadedLib? && log[|log| - 1].path == path && log[|log| - 1].loaded == Changed(true)
    && log[|log| - 1].before == log[|log| - 1].after == log[|log| - 1].reply == Some(content)
  }

  /** A library with characters outside ASCII, uploaded here and then loaded, is reported as changed. */
  lemma FalseChangeIsReported(u: set<string>, compiles: Compiles, path: string, content: string)
    requires content in u && CharLen(content) != ByteLen(content)
    ensures exists steps :: StepsIn(u, steps) && FalseChange(Run(Init(map[]), compiles, steps).log, path, content)
  {
    var upload := [UploadFile(Lib(path), content)];
    var steps := upload + LoadOf(path, content);
    RunSnoc(Init(map[]), compiles, [], upload[0]);
    assert [] + upload == upload;
    UploadedLibrary(compiles, path, content);
    LoadOfRuns(Init(map[]), compiles, upload, path, content);
    LoadOfUploaded(Run(Init(map[]), compiles, upload).cache, path, content);
    assert StepsIn(u, steps);
    assert FalseChange(Run(Init(map[]), compiles, steps).log, path, content);
  }

  lemma UploadedLibrary(compiles: Compiles, path: string, content: string)
    ensures var t := Run(Init(map[]), compiles, [UploadFile(Lib(path), content)]);
            && 0 !in t.pending && File(t.cache, path) == Some(content)
            && Lib(path) in t.cache.lens && t.cache.lens[Lib(path)] == CharLen(content)
  {
    RunSnoc(Init(map[]), compiles, [], UploadFile(Lib(path), content));
    assert [] + [UploadFile(Lib(path), content)] == [UploadFile(Lib(path), content)];
  }

  lemma LoadOfUploaded(c: Cache, path: string, content: string)
    requires File(c, path) == Some(content) && Lib(path) in c.lens && c.lens[Lib(path)] == CharLen(content)
    requires CharLen(content) != ByteLen(content)
    ensures var (c', loaded) := LoadLib(c, path, Some(content));
            File(c', path) == Some(content) && loaded == Changed(true)
  {
  }

  // ----- a run where it fails -----

  /** The last thing that happened is a load that read the library and left the script on disk. */
  predicate ScriptStays(log: seq<Event>, path: string, library: string, script: string) {
    && log != [] && log[|log| - 1].LoadedLib? && log[|log| - 1].path == path
    && log[|log| - 1].reply == Some(library) && log[|log| - 1].after == Some(script)
  }

  /** Two loads of a library with a script uploaded in between: the script stays on disk. */
  lemma ScriptUploadHidesLibrary(u: set<string>, compiles: Compiles, path: string, library: string, script: string)
    requires NoLibCollision(u) && library in u && script in u && library != script && compiles(script)
    ensures exists steps ::
        StepsIn(u, steps) && ScriptStays(Run(Init(map[]), compiles, steps).log, path, library, script)
  {
    var s0 := Init(map[]);
    var upload := UploadFile(Exec(path), script);
    var steps := LoadOf(path, library) + [upload];
    assert StepsIn(u, steps);
    LibraryThenScript(compiles, path, library, script);
    LoadOfRuns(s0, compiles, steps, path, library);
    LoadOfHidden(Run(s0, compiles, steps), path, library, script);
    assert StepsIn(u, steps + LoadOf(path, library));
    assert ScriptStays(Run(s0, compiles, steps + LoadOf(path, library)).log, path, library, script);
  }

  lemma LibraryThenScript(compiles: Compiles, path: string, library: string, script: string)
    requires compiles(script)
    ensures var t := Run(Init(map[]), compiles, LoadOf(path, library) + [UploadFile(Exec(path), script)]);
            && 0 !in t.pending && Lib(path) in t.cache.lens && t.cache.lens[Lib(path)] == ByteLen(library)
            && File(t.cache, path) == Some(script)
  {
    var s0 := Init(map[]);
    var first := LoadOf(path, library);
    LoadOfRuns(s0, compiles, [], path, library);
    assert [] + first == first;
    ScriptReplacesFile(Run(s0, compiles, first), compiles, path, script);
    RunSnoc(s0, compiles, first, UploadFile(Exec(path), script));
  }

  lemma LoadOfHidden(t: State, path: string, library: string, script: string)
    requires Lib(path) in t.cache.lens && t.cache.lens[Lib(path)] == ByteLen(library)
        && File(t.cache, path) == Some(script)
    ensures File(LoadLib(t.cache, path, Some(library)).0, path) == Some(script)
  {
  }

  lemma ScriptReplacesFile(s: State, compiles: Compiles, path: string, content: string)
    requires compiles(content)
    ensures var t := Apply(s, compiles, UploadFile(Exec(path), content));
            && File(t.cache, path) == Some(content) && t.pending == s.pending
            && (Lib(path) in s.cache.lens ==>
                 Lib(path) in t.cache.lens && t.cache.lens[Lib(path)] == s.cache.lens[Lib(path)])
  {
  }
}
