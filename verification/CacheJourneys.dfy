/** What becomes of one request over a whole run, from one of its commands on. */
module CacheJourneys {
  import opened Common
  import opened CacheProtocol
  import opened CacheInvariant
  import opened CacheTheorems
  import opened CacheSteps

  // ----- a wait ends with the lock it read -----

  /** From the wait on, there is no way back to before it. */
  predicate WaitBegun(pc: Pc) {
    IsWaiting(pc) || pc.Fill? || pc.Serve? || pc.Upstream? || pc.Save? || pc.SaveLocal? || pc.Done?
  }

  /** The wait of process `p`, begun at log position `from`, is for `eta` and polls only before it. */
  ghost predicate WaitsFor(s: State, p: nat, from: nat, eta: Time) {
    && p in s.procs && WaitBegun(s.procs[p].pc)
    && (IsWaiting(s.procs[p].pc) ==> s.procs[p].pc.w.eta == eta)
    && forall j :: from <= j < |s.log| && s.log[j].Polled? && s.log[j].proc == p ==> s.log[j].at < s.log[j].eta == eta
  }

  /** Process `p` stays where it is, or acts and follows an edge. */
  predicate Advances(s: State, t: State, p: nat, step: Step) {
    && p in s.procs && p in t.procs && t.procs[p].key == s.procs[p].key
    && (t.procs[p].pc == s.procs[p].pc
        || (step.Act? && step.proc == p && Fits(s.procs[p].pc, step.action)
             && Follows(s.procs[p].pc, step.action, t.procs[p].pc)))
  }

  /** At most one event is recorded, and it is the acting process's. */
  predicate Records(s: State, t: State, step: Step) {
    t.log == s.log
    || (|t.log| == |s.log| + 1 && s.log <= t.log && step.Act? && step.proc in s.procs
         && NotesOf(step.proc, s.procs[step.proc], t.log[|s.log|]))
  }

  lemma StepAdvances(s: State, p: nat, step: Step)
    requires p in s.procs
    ensures Advances(s, Apply(s, step), p, step)
  {
    if step.Act? && step.proc == p {
      assert Moves(s, Acted(s, p, step.action), p);
      if Fits(s.procs[p].pc, step.action) {
        ActionsFollow(s, p, step.action);
      }
    } else {
      OthersStep(s, p, step);
    }
  }

  lemma StepRecords(s: State, step: Step)
    ensures Records(s, Apply(s, step), step)
  {
    if step.Act? && step.proc in s.procs {
      ActedNotes(s, step.proc, step.action);
    } else {
      QuietStep(s, step);
    }
  }

  lemma WaitGoesOn(pc: Pc, a: Action, next: Pc, eta: Time)
    requires WaitBegun(pc) && (IsWaiting(pc) ==> pc.w.eta == eta) && Fits(pc, a) && Follows(pc, a, next)
    ensures WaitBegun(next) && (IsWaiting(next) ==> next.w.eta == eta)
  {
  }

  lemma WaitStep(s: State, t: State, p: nat, from: nat, eta: Time, step: Step)
    requires WaitsFor(s, p, from, eta) && Advances(s, t, p, step) && Records(s, t, step)
    ensures WaitsFor(t, p, from, eta)
  {
    var pc, next := s.procs[p].pc, t.procs[p].pc;
    if next != pc {
      WaitGoesOn(pc, step.action, next, eta);
    }
  }

  lemma {:induction false} WaitRun(s: State, p: nat, from: nat, eta: Time, steps: seq<Step>)
    requires WaitsFor(s, p, from, eta)
    ensures WaitsFor(Run(s, steps), p, from, eta)
  {
    if steps != [] {
      var m := |steps| - 1;
      WaitRun(s, p, from, eta, steps[..m]);
      var t := Run(s, steps[..m]);
      StepAdvances(t, p, steps[m]);
      StepRecords(t, steps[m]);
      WaitStep(t, Apply(t, steps[m]), p, from, eta, steps[m]);
    }
  }

  /** What a begun wait comes to. */
  lemma WaitsForEnds(t: State, p: nat, from: nat, eta: Time, expiry: Time)
    requires WaitsFor(t, p, from, eta) && eta <= expiry
    ensures forall j :: from <= j < |t.log| && t.log[j].Polled? && t.log[j].proc == p ==> t.log[j].at < expiry
    ensures t.now >= expiry && t.procs[p].pc.Wait? ==>
              (forall err :: Acted(t, p, Poll(err)) == t) && Acted(t, p, Timeout).procs[p].pc == Upstream
  {
  }

  lemma LockOk(s: State, key: string)
    requires Reachable(s) && key in s.locks
    ensures s.locks[key].eta <= s.locks[key].expiry
  {
    ReachableInv(s);
  }

  lemma WaitBegins(s: State, p: nat)
    requires p in s.procs && s.procs[p].pc.ReadEta? && LockHeld(s, s.procs[p].key)
    ensures WaitsFor(Acted(s, p, GetEta(false)), p, |s.log|, s.locks[s.procs[p].key].eta)
  {
  }

  /**
   * A waiter that read a live lock: whatever happens afterwards, as long as it waits its ETA
   * is the lock's and so no later than the lock's expiry, all polls of its wait come before
   * that expiry, and from then on no poll is enabled and the loop is left for the upstream.
   */
  lemma WaitEndsWithTheLock(s: State, p: nat, steps: seq<Step>)
    requires Reachable(s) && p in s.procs && s.procs[p].pc.ReadEta? && LockHeld(s, s.procs[p].key)
    ensures var lock := s.locks[s.procs[p].key];
            var t := Run(Acted(s, p, GetEta(false)), steps);
            && p in t.procs && !t.procs[p].pc.ReadEta?
            && (IsWaiting(t.procs[p].pc) ==> t.procs[p].pc.w.eta == lock.eta <= lock.expiry)
            && (forall j :: |s.log| <= j < |t.log| && t.log[j].Polled? && t.log[j].proc == p ==>
                 t.log[j].at < lock.expiry)
            && (t.now >= lock.expiry && t.procs[p].pc.Wait? ==>
                  (forall err :: Acted(t, p, Poll(err)) == t) && Acted(t, p, Timeout).procs[p].pc == Upstream)
  {
    var lock := s.locks[s.procs[p].key];
    LockOk(s, s.procs[p].key);
    WaitBegins(s, p);
    WaitRun(Acted(s, p, GetEta(false)), p, |s.log|, lock.eta, steps);
    WaitsForEnds(Run(Acted(s, p, GetEta(false)), steps), p, |s.log|, lock.eta, lock.expiry);
  }

  // ----- where a getter's copy comes from -----

  /** The action is the getter's GET for this path, due at this point, and succeeds. */
  predicate IsGet(pc: Pc, a: Action, path: Path) {
    if path == Direct then pc.SendGet? && a == Get(false) else pc.Wait? && a == Poll(false)
  }

  /** The action is the getter's TTL for this path, due at this point. */
  predicate IsTtl(pc: Pc, a: Action, path: Path, err: bool) {
    if path == Direct then pc.SendTtl? && a == Ttl(err) else pc.PollTtl? && a == GetPollTtl(err)
  }

  /** Step `g` of the run is the GET of process `p`, and it found this value under the key. */
  ghost predicate GotAt(start: State, steps: seq<Step>, g: nat, p: nat, key: string, found: Found, path: Path) {
    && g < |steps| && steps[g].Act? && steps[g].proc == p
    && var v := Run(start, steps[..g]);
       && p in v.procs && v.procs[p].key == key && IsGet(v.procs[p].pc, steps[g].action, path)
       && InRedis(v, key) && GetCommand(v, key) == Hit(found)
  }

  /** Step `k` of the run is the TTL of process `p`, failed or not, with this reply. */
  ghost predicate TimedAt(start: State, steps: seq<Step>, k: nat, p: nat, key: string, ttl: TtlReply,
      err: bool, path: Path) {
    && k < |steps| && steps[k].Act? && steps[k].proc == p
    && var u := Run(start, steps[..k]);
       && p in u.procs && u.procs[p].key == key && IsTtl(u.procs[p].pc, steps[k].action, path, err)
       && TtlCommand(u, key, err) == ttl
  }

  /** The process read this value and then this TTL. */
  ghost predicate ReadBoth(start: State, steps: seq<Step>, p: nat, key: string, found: Found,
      ttl: TtlReply, path: Path) {
    exists g: nat, k: nat, err ::
        g < k && GotAt(start, steps, g, p, key, found, path) && TimedAt(start, steps, k, p, key, ttl, err, path)
  }

  ghost predicate ReadGet(start: State, steps: seq<Step>, p: nat, key: string, found: Found, path: Path) {
    exists g: nat :: GotAt(start, steps, g, p, key, found, path)
  }

  /** A process that holds a value, or a value with a TTL, read them. */
  ghost predicate Accounted(start: State, steps: seq<Step>, p: nat, pr: Proc) {
    match pr.pc
    case SendTtl(_, Hit(found)) => ReadGet(start, steps, p, pr.key, found, Direct)
    case SendSetNx(_, Hit(found), ttl) => ReadBoth(start, steps, p, pr.key, found, ttl, Direct)
    case Decide(_, Hit(found), ttl, _) => ReadBoth(start, steps, p, pr.key, found, ttl, Direct)
    case PollTtl(_, found) => ReadGet(start, steps, p, pr.key, found, Waited)
    case Fill(found, ttl, _, path) =>
      path != AfterSet ==>
          ReadBoth(start, steps, p, pr.key, found, ttl, path)
              && (path == Waited ==> ttl.seconds == -1 || ttl.seconds > 0)
    case _ => true
  }

  ghost predicate CopyAccounted(start: State, steps: seq<Step>, e: Event) {
    e.Copied? && e.path != AfterSet ==>
      && ReadBoth(start, steps, e.proc, e.key, e.found, e.ttl, e.path)
      && (e.path == Waited ==> e.ttl.seconds == -1 || e.ttl.seconds > 0)
      && e.expire == ExpireIn(e.at, e.ttl.seconds)
  }

  ghost predicate AllAccounted(start: State, steps: seq<Step>) {
    var s := Run(start, steps);
    && (forall p :: p in s.procs ==> Accounted(start, steps, p, s.procs[p]))
    && (forall j :: 0 <= j < |s.log| ==> CopyAccounted(start, steps, s.log[j]))
  }

  // Longer runs account for what shorter ones do.

  lemma GotLater(start: State, steps: seq<Step>, step: Step, g: nat, p: nat, key: string, found: Found, path: Path)
    requires GotAt(start, steps, g, p, key, found, path)
    ensures GotAt(start, steps + [step], g, p, key, found, path)
  {
    assert (steps + [step])[..g] == steps[..g];
  }

  lemma TimedLater(start: State, steps: seq<Step>, step: Step, k: nat, p: nat, key: string, ttl: TtlReply,
      err: bool, path: Path)
    requires TimedAt(start, steps, k, p, key, ttl, err, path)
    ensures TimedAt(start, steps + [step], k, p, key, ttl, err, path)
  {
    assert (steps + [step])[..k] == steps[..k];
  }

  lemma ReadGetLater(start: State, steps: seq<Step>, step: Step, p: nat, key: string, found: Found, path: Path)
    requires ReadGet(start, steps, p, key, found, path)
    ensures ReadGet(start, steps + [step], p, key, found, path)
  {
    var g: nat :| GotAt(start, steps, g, p, key, found, path);
    GotLater(start, steps, step, g, p, key, found, path);
  }

  lemma ReadBothLater(start: State, steps: seq<Step>, step: Step, p: nat, key: string, found: Found,
      ttl: TtlReply, path: Path)
    requires ReadBoth(start, steps, p, key, found, ttl, path)
    ensures ReadBoth(start, steps + [step], p, key, found, ttl, path)
  {
    var g: nat, k: nat, err :| g < k && GotAt(start, steps, g, p, key, found, path)
        && TimedAt(start, steps, k, p, key, ttl, err, path);
    GotLater(start, steps, step, g, p, key, found, path);
    TimedLater(start, steps, step, k, p, key, ttl, err, path);
  }

  lemma AccountedLater(start: State, steps: seq<Step>, step: Step, p: nat, pr: Proc)
    requires Accounted(start, steps, p, pr)
    ensures Accounted(start, steps + [step], p, pr)
  {
    match pr.pc
    case SendTtl(_, Hit(found)) => ReadGetLater(start, steps, step, p, pr.key, found, Direct);
    case SendSetNx(_, Hit(found), ttl) => ReadBothLater(start, steps, step, p, pr.key, found, ttl, Direct);
    case Decide(_, Hit(found), ttl, _) => ReadBothLater(start, steps, step, p, pr.key, found, ttl, Direct);
    case PollTtl(_, found) => ReadGetLater(start, steps, step, p, pr.key, found, Waited);
    case Fill(found, ttl, _, path) =>
      if path != AfterSet {
        ReadBothLater(start, steps, step, p, pr.key, found, ttl, path);
      }
    case _ =>
  }

  /** GET and TTL themselves are the steps that later points look back to. */
  lemma GetAccounts(start: State, steps: seq<Step>, p: nat, a: Action, path: Path)
    requires var s := Run(start, steps);
             p in s.procs && IsGet(s.procs[p].pc, a, path) && InRedis(s, s.procs[p].key)
    ensures var s := Run(start, steps);
            ReadGet(start, steps + [Act(p, a)], p, s.procs[p].key, GetCommand(s, s.procs[p].key).found, path)
  {
    var s := Run(start, steps);
    var steps' := steps + [Act(p, a)];
    assert steps'[..|steps|] == steps;
    assert GotAt(start, steps', |steps|, p, s.procs[p].key, GetCommand(s, s.procs[p].key).found, path);
  }

  lemma TtlAccounts(start: State, steps: seq<Step>, p: nat, a: Action, err: bool, found: Found, path: Path)
    requires var s := Run(start, steps);
             p in s.procs && IsTtl(s.procs[p].pc, a, path, err) && ReadGet(start, steps, p, s.procs[p].key, found, path)
    ensures var s := Run(start, steps);
            ReadBoth(start, steps + [Act(p, a)], p, s.procs[p].key, found, TtlCommand(s, s.procs[p].key, err), path)
  {
    var s := Run(start, steps);
    var key := s.procs[p].key;
    var steps' := steps + [Act(p, a)];
    var g: nat :| GotAt(start, steps, g, p, key, found, path);
    GotLater(start, steps, Act(p, a), g, p, key, found, path);
    assert steps'[..|steps|] == steps;
    assert TimedAt(start, steps', |steps|, p, key, TtlCommand(s, key, err), err, path);
  }

  lemma DirectReadAccounts(start: State, steps: seq<Step>, p: nat, a: Action)
    requires var s := Run(start, steps);
             p in s.procs && (a.Get? || a.Ttl?) && Fits(s.procs[p].pc, a) && Accounted(start, steps, p, s.procs[p])
    ensures Accounted(start, steps + [Act(p, a)], p, Acted(Run(start, steps), p, a).procs[p])
  {
    var s := Run(start, steps);
    match a
    case Get(err) =>
      if !err && InRedis(s, s.procs[p].key) {
        GetAccounts(start, steps, p, a, Direct);
      }
    case Ttl(err) =>
      if s.procs[p].pc.reply.Hit? {
        TtlAccounts(start, steps, p, a, err, s.procs[p].pc.reply.found, Direct);
      }
  }

  lemma PollAccounts(start: State, steps: seq<Step>, p: nat, err: bool)
    requires var s := Run(start, steps); p in s.procs && s.procs[p].pc.Wait?
    ensures Accounted(start, steps + [Act(p, Poll(err))], p, Acted(Run(start, steps), p, Poll(err)).procs[p])
  {
    var s := Run(start, steps);
    if !err && InRedis(s, s.procs[p].key) {
      GetAccounts(start, steps, p, Poll(err), Waited);
    }
  }

  lemma PollTtlAccounts(start: State, steps: seq<Step>, p: nat, err: bool)
    requires var s := Run(start, steps);
        p in s.procs && s.procs[p].pc.PollTtl? && Accounted(start, steps, p, s.procs[p])
    ensures Accounted(start, steps + [Act(p, GetPollTtl(err))], p,
        Acted(Run(start, steps), p, GetPollTtl(err)).procs[p])
  {
    TtlAccounts(start, steps, p, GetPollTtl(err), err, Run(start, steps).procs[p].pc.found, Waited);
  }

  /** Any other action keeps what the process holds. */
  lemma OtherAccounts(start: State, steps: seq<Step>, p: nat, pr: Proc, a: Action, next: Pc)
    requires Accounted(start, steps, p, pr) && Fits(pr.pc, a) && Follows(pr.pc, a, next)
    requires !a.Get? && !a.Ttl? && !a.Poll? && !a.GetPollTtl?
    ensures Accounted(start, steps, p, pr.(pc := next))
  {
  }

  lemma ActAccounts(start: State, steps: seq<Step>, p: nat, a: Action)
    requires var s := Run(start, steps);
             p in s.procs && Fits(s.procs[p].pc, a) && Accounted(start, steps, p, s.procs[p])
    ensures Accounted(start, steps + [Act(p, a)], p, Acted(Run(start, steps), p, a).procs[p])
  {
    match a
    case Get(_) => DirectReadAccounts(start, steps, p, a);
    case Ttl(_) => DirectReadAccounts(start, steps, p, a);
    case Poll(err) => PollAccounts(start, steps, p, err);
    case GetPollTtl(err) => PollTtlAccounts(start, steps, p, err);
    case _ => OtherActAccounts(start, steps, p, a);
  }

  lemma OtherActAccounts(start: State, steps: seq<Step>, p: nat, a: Action)
    requires var s := Run(start, steps);
             p in s.procs && Fits(s.procs[p].pc, a) && Accounted(start, steps, p, s.procs[p])
    requires !a.Get? && !a.Ttl? && !a.Poll? && !a.GetPollTtl?
    ensures Accounted(start, steps + [Act(p, a)], p, Acted(Run(start, steps), p, a).procs[p])
  {
    var s := Run(start, steps);
    AccountedLater(start, steps, Act(p, a), p, s.procs[p]);
    OtherMoveAccounts(start, steps + [Act(p, a)], s, p, a);
  }

  lemma OtherMoveAccounts(start: State, steps: seq<Step>, s: State, p: nat, a: Action)
    requires p in s.procs && Fits(s.procs[p].pc, a) && Accounted(start, steps, p, s.procs[p])
    requires !a.Get? && !a.Ttl? && !a.Poll? && !a.GetPollTtl?
    ensures Accounted(start, steps, p, Acted(s, p, a).procs[p])
  {
    assert Moves(s, Acted(s, p, a), p);
    ActionsFollow(s, p, a);
    OtherAccounts(start, steps, p, s.procs[p], a, Acted(s, p, a).procs[p].pc);
  }

  lemma StepAccounts(start: State, steps: seq<Step>, step: Step, p: nat)
    requires AllAccounted(start, steps) && p in Apply(Run(start, steps), step).procs
    ensures Accounted(start, steps + [step], p, Apply(Run(start, steps), step).procs[p])
  {
    var s := Run(start, steps);
    if p in s.procs {
      if step.Act? && step.proc == p && Fits(s.procs[p].pc, step.action) {
        ActAccounts(start, steps, p, step.action);
      } else {
        AccountedLater(start, steps, step, p, s.procs[p]);
        StandsStill(s, p, step);
      }
    }
  }

  lemma StandsStill(s: State, p: nat, step: Step)
    requires p in s.procs && !(step.Act? && step.proc == p && Fits(s.procs[p].pc, step.action))
    ensures p in Apply(s, step).procs && Apply(s, step).procs[p] == s.procs[p]
  {
    if !(step.Act? && step.proc == p) {
      OthersStep(s, p, step);
    }
  }

  lemma CopyLater(start: State, steps: seq<Step>, step: Step, e: Event)
    requires CopyAccounted(start, steps, e)
    ensures CopyAccounted(start, steps + [step], e)
  {
    if e.Copied? && e.path != AfterSet {
      ReadBothLater(start, steps, step, e.proc, e.key, e.found, e.ttl, e.path);
    }
  }

  lemma NewCopyAccounted(start: State, steps: seq<Step>, step: Step, q: nat, pr: Proc, e: Event)
    requires Accounted(start, steps, q, pr) && NotesOf(q, pr, e)
    ensures CopyAccounted(start, steps + [step], e)
  {
    CopyLater(start, steps, step, e);
  }

  lemma StepAccountsCopies(start: State, steps: seq<Step>, step: Step, t: State, j: nat)
    requires AllAccounted(start, steps) && Records(Run(start, steps), t, step) && j < |t.log|
    ensures CopyAccounted(start, steps + [step], t.log[j])
  {
    var s := Run(start, steps);
    if j < |s.log| {
      assert t.log[j] == s.log[j];
      CopyLater(start, steps, step, s.log[j]);
    } else {
      NewCopyAccounted(start, steps, step, step.proc, s.procs[step.proc], t.log[j]);
    }
  }

  lemma {:induction false} RunAccounts(start: State, steps: seq<Step>)
    requires start.procs == map[] && start.log == []
    ensures AllAccounted(start, steps)
  {
    if steps != [] {
      var m := |steps| - 1;
      var rest, step := steps[..m], steps[m];
      RunAccounts(start, rest);
      assert rest + [step] == steps;
      var t := Run(start, steps);
      forall p | p in t.procs ensures Accounted(start, steps, p, t.procs[p]) {
        StepAccounts(start, rest, step, p);
      }
      StepRecords(Run(start, rest), step);
      forall j | 0 <= j < |t.log| ensures CopyAccounted(start, steps, t.log[j]) {
        StepAccountsCopies(start, rest, step, t, j);
      }
    }
  }

  // ----- when a copy has no expiry, and when it is torn -----

  /** No reply says that the key has a while to live: the condition for a direct copy without expiry. */
  predicate NoLifeSeen(u: State, key: string, err: bool) {
    err || !InRedis(u, key) || u.redis[key].expiry.None? || u.redis[key].expiry.value - u.now < 500
  }

  /** The wait loop takes a reply without expiry only for a key that has none. */
  predicate Persistent(u: State, key: string, err: bool) {
    !err && InRedis(u, key) && u.redis[key].expiry.None?
  }

  lemma ReplyGivesExpiry(u: State, key: string, err: bool, later: Time)
    ensures var ttl := TtlCommand(u, key, err);
            && (ExpireIn(later, ttl.seconds) == None <==> NoLifeSeen(u, key, err))
            && (ttl.seconds == -1 || ttl.seconds > 0 ==>
                 (ExpireIn(later, ttl.seconds) == None <==> Persistent(u, key, err)))
  {
  }

  /**
   * In every run, a copy made by the getter goes back to a TTL command of its request.  On
   * the direct path it has no expiry if and only if that command failed, or found the key
   * gone, without expiry, or with under half a second left; in the wait loop, if and only if
   * the command found the key without expiry.
   */
  lemma CopyIsImmortalIff(now: Time, waitEta: nat, steps: seq<Step>, j: nat)
    requires var s := Run(Init(now, waitEta), steps); j < |s.log| && s.log[j].Copied? && s.log[j].path != AfterSet
    ensures var start := Init(now, waitEta);
            var e := Run(start, steps).log[j];
            exists k: nat, err ::
              && TimedAt(start, steps, k, e.proc, e.key, e.ttl, err, e.path)
              && (e.expire.None? <==>
                    if e.path == Direct then NoLifeSeen(Run(start, steps[..k]), e.key, err)
                        else Persistent(Run(start, steps[..k]), e.key, err))
  {
    var start := Init(now, waitEta);
    RunAccounts(start, steps);
    var e := Run(start, steps).log[j];
    assert CopyAccounted(start, steps, e);
    var g: nat, k: nat, err :| g < k && GotAt(start, steps, g, e.proc, e.key, e.found, e.path)
                               && TimedAt(start, steps, k, e.proc, e.key, e.ttl, err, e.path);
    ReplyGivesExpiry(Run(start, steps[..k]), e.key, err, e.at);
  }

  /** No write of the key between two states of a run. */
  predicate Quiet(v: State, u: State, key: string) {
    forall i :: |v.log| <= i < |u.log| ==> !(u.log[i].Stored? && u.log[i].key == key)
  }

  /** Redis holds the same write at two moments exactly if the key was not written in between. */
  lemma SameWriteIff(v: State, u: State, key: string)
    requires RedisOk(v) && RedisOk(u) && v.log <= u.log
    requires InRedis(v, key) && InRedis(u, key)
    ensures GetCommand(v, key).found.src == TtlCommand(u, key, false).src <==> Quiet(v, u, key)
    ensures Quiet(v, u, key) ==> v.redis[key] == u.redis[key]
  {
    var a, b := v.redis[key].src, u.redis[key].src;
    assert u.log[a] == v.log[a];
    if b < |v.log| {
      assert v.log[b] == u.log[b];
    }
  }

  lemma {:induction false} LogGrows(s: State, steps: seq<Step>)
    ensures s.log <= Run(s, steps).log && Run(s, steps).waitEta == s.waitEta
  {
    if steps != [] {
      var m := |steps| - 1;
      LogGrows(s, steps[..m]);
      var t := Run(s, steps[..m]);
      if steps[m].Act? && steps[m].proc in t.procs {
        assert Moves(t, Acted(t, steps[m].proc, steps[m].action), steps[m].proc);
      }
    }
  }

  lemma PrefixesGrow(start: State, steps: seq<Step>, g: nat, k: nat)
    requires g <= k <= |steps|
    ensures Run(start, steps[..g]).log <= Run(start, steps[..k]).log
  {
    RunConcat(start, steps[..g], steps[g..k]);
    assert steps[..g] + steps[g..k] == steps[..k];
    LogGrows(Run(start, steps[..g]), steps[g..k]);
  }

  /**
   * A value got in one state of a run and a lifetime got later come from one write exactly if the key
   * was not written in between.
   */
  lemma ReadsAgreeIff(now: Time, waitEta: nat, steps: seq<Step>, g: nat, k: nat, key: string)
    requires g <= k <= |steps|
    ensures var v, u := Run(Init(now, waitEta), steps[..g]), Run(Init(now, waitEta), steps[..k]);
            InRedis(v, key) && InRedis(u, key) ==>
                (GetCommand(v, key).found.src == TtlCommand(u, key, false).src <==> Quiet(v, u, key))
  {
    var start := Init(now, waitEta);
    RunKeeps(now, waitEta, steps[..g]);
    RunKeeps(now, waitEta, steps[..k]);
    PrefixesGrow(start, steps, g, k);
    if InRedis(Run(start, steps[..g]), key) && InRedis(Run(start, steps[..k]), key) {
      SameWriteIff(Run(start, steps[..g]), Run(start, steps[..k]), key);
    }
  }

  /** GET at step `g`, TTL at step `k`; if TTL found the key, the copy is untorn exactly if no write came between. */
  ghost predicate UntornIff(start: State, steps: seq<Step>, g: nat, k: nat, err: bool, e: Event)
    requires e.Copied? && g <= |steps| && k <= |steps|
  {
    var v, u := Run(start, steps[..g]), Run(start, steps[..k]);
    !err && InRedis(u, e.key) ==> (e.found.src == e.ttl.src <==> Quiet(v, u, e.key))
  }

  /**
   * In every run, a copy made by the getter goes back to a GET and a TTL of its request.
   * If that TTL found the key, the copy's data and lifetime come from one write if and only
   * if the key was not written between the two commands.
   */
  lemma CopyIsUntornIff(now: Time, waitEta: nat, steps: seq<Step>, j: nat)
    requires var s := Run(Init(now, waitEta), steps); j < |s.log| && s.log[j].Copied? && s.log[j].path != AfterSet
    ensures var start := Init(now, waitEta);
            var e := Run(start, steps).log[j];
            exists g: nat, k: nat, err :: g < k
              && GotAt(start, steps, g, e.proc, e.key, e.found, e.path)
              && TimedAt(start, steps, k, e.proc, e.key, e.ttl, err, e.path)
              && UntornIff(start, steps, g, k, err, e)
  {
    var start := Init(now, waitEta);
    RunAccounts(start, steps);
    var e := Run(start, steps).log[j];
    assert CopyAccounted(start, steps, e);
    var g: nat, k: nat, err :| g < k && GotAt(start, steps, g, e.proc, e.key, e.found, e.path)
                               && TimedAt(start, steps, k, e.proc, e.key, e.ttl, err, e.path);
    ReadsAgreeIff(now, waitEta, steps, g, k, e.key);
    assert UntornIff(start, steps, g, k, err, e);
  }

  /** A copy whose data and lifetime come from one write follows that write's expiry. */
  lemma UntornCopyFollowsItsWrite(s: State, j: nat)
    requires Reachable(s) && j < |s.log| && s.log[j].Copied?
    requires s.log[j].found.src == s.log[j].ttl.src && s.log[j].expire.Some?
    ensures var e := s.log[j];
            && e.found.src < j && WasStored(s.log, e.key, e.found) && s.log[e.found.src].expiry.Some?
            && FollowsWrite(s.log, e, e.expire.value, e.found.src, s.log[e.found.src].expiry.value)
  {
    ReachableInv(s);
    CopiedIsOk(s, j);
  }

  // ----- how long a copy is served -----

  /** The step can put another copy under the key on this node, or take it away. */
  predicate Replaces(s: State, step: Step, node: nat, key: string) {
    match step
    case Evict(n, k) => n == node && k == key
    case PeerCopy(_, target, k) => target == node && k == key
    case Act(p, a) =>
      && p in s.procs && s.procs[p].key == key
      && ((a.SetBytes? && a.node == node) || (a.SetGroupcache? && a.node == node))
    case _ => false
  }

  lemma CopyStaysInStep(s: State, step: Step, node: nat, key: string)
    requires (node, key) in s.local && !Replaces(s, step, node, key)
    ensures (node, key) in Apply(s, step).local && Apply(s, step).local[(node, key)] == s.local[(node, key)]
  {
    if step.Act? && step.proc in s.procs {
      if step.action.SetBytes? || step.action.SetGroupcache? {
        CopyingTouchesOne(s, step.proc, step.action);
      } else {
        OthersTouchNone(s, step.proc, step.action);
      }
    }
  }

  lemma CopyingTouchesOne(s: State, p: nat, a: Action)
    requires p in s.procs && (a.SetBytes? || a.SetGroupcache?)
    ensures forall at :: at in s.local && at != (a.node, s.procs[p].key) ==>
              at in Acted(s, p, a).local && Acted(s, p, a).local[at] == s.local[at]
  {
  }

  lemma OthersTouchNone(s: State, p: nat, a: Action)
    requires p in s.procs && !a.SetBytes? && !a.SetGroupcache?
    ensures Acted(s, p, a).local == s.local
  {
    if Fits(s.procs[p].pc, a) {
      if InLookup(s.procs[p].pc) {
        LookupTouchesNone(s, p, a);
      } else {
        AnswerTouchesNone(s, p, a);
      }
    }
  }

  lemma LookupTouchesNone(s: State, p: nat, a: Action)
    requires p in s.procs && Fits(s.procs[p].pc, a) && InLookup(s.procs[p].pc) && !a.SetBytes?
    ensures Acted(s, p, a).local == s.local
  {
  }

  lemma AnswerTouchesNone(s: State, p: nat, a: Action)
    requires p in s.procs && Fits(s.procs[p].pc, a) && !InLookup(s.procs[p].pc) && !a.SetGroupcache?
    ensures Acted(s, p, a).local == s.local
  {
  }

  lemma {:induction false} CopyStays(s: State, steps: seq<Step>, node: nat, key: string)
    requires (node, key) in s.local
    requires forall i :: 0 <= i < |steps| ==> !Replaces(Run(s, steps[..i]), steps[i], node, key)
    ensures var t := Run(s, steps); (node, key) in t.local && t.local[(node, key)] == s.local[(node, key)]
  {
    if steps != [] {
      var m := |steps| - 1;
      var rest := steps[..m];
      forall i | 0 <= i < m ensures !Replaces(Run(s, rest[..i]), rest[i], node, key) {
        assert rest[..i] == steps[..i];
      }
      CopyStays(s, rest, node, key);
      assert rest == steps[..m];
      CopyStaysInStep(Run(s, rest), steps[m], node, key);
    }
  }

  /**
   * Until it is replaced or evicted, a copy answers the requests for its key on its node
   * exactly as long as it is not expired, so one without expiry answers them however late
   * and whatever becomes of the entry in Redis.
   */
  lemma CopyIsServedUntilExpiry(s: State, steps: seq<Step>, node: nat, key: string, p: nat)
    requires (node, key) in s.local
    requires forall i :: 0 <= i < |steps| ==> !Replaces(Run(s, steps[..i]), steps[i], node, key)
    requires var t := Run(s, steps); p in t.procs && t.procs[p].key == key && t.procs[p].pc.Lookup?
    ensures var c := s.local[(node, key)];
            var t := Run(s, steps);
            Acted(t, p, LookupHit(node)).procs[p].pc ==
            if c.expire.None? || t.now < c.expire.value then Serve(c.found) else Lookup
  {
    CopyStays(s, steps, node, key);
  }
}
