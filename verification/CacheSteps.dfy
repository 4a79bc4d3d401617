/** What single steps of the cache protocol do to a process and to the log, and how runs compose. */
module CacheSteps {
  import opened Common
  import opened CacheProtocol
  import opened CacheTheorems

  // ----- runs -----

  lemma RunSnoc(s: State, steps: seq<Step>, step: Step)
    ensures Run(s, steps + [step]) == Apply(Run(s, steps), step)
  {
    assert (steps + [step])[..|steps|] == steps;
  }

  lemma {:induction false} RunConcat(s: State, a: seq<Step>, b: seq<Step>)
    ensures Run(s, a + b) == Run(Run(s, a), b)
  {
    if b == [] {
      assert a + b == a;
    } else {
      var m := |b| - 1;
      RunConcat(s, a, b[..m]);
      assert a + b == (a + b[..m]) + [b[m]];
      RunSnoc(s, a + b[..m], b[m]);
    }
  }

  lemma ReachableStep(s: State, step: Step)
    requires Reachable(s) && Apply(s, step).waitEta == s.waitEta
    ensures Reachable(Apply(s, step))
  {
    var now, steps :| s == Run(Init(now, s.waitEta), steps);
    assert (steps + [step])[..|steps|] == steps;
    assert Run(Init(now, s.waitEta), steps + [step]) == Apply(s, step);
  }

  // ----- processes -----

  /** One step by others leaves a process where it is. */
  lemma OthersStep(s: State, p: nat, step: Step)
    requires p in s.procs && !(step.Act? && step.proc == p)
    ensures var t := Apply(s, step);
            && p in t.procs && t.procs[p] == s.procs[p] && t.waitEta == s.waitEta && s.log <= t.log
            && t.now == s.now + if step.Tick? then step.ms else 0
  {
    if step.Act? && step.proc in s.procs {
      assert Moves(s, Acted(s, step.proc, step.action), step.proc);
    }
  }

  /** The actions of the wait loop leave a process along an edge of the control flow. */
  lemma WaitingFollows(s: State, p: nat, a: Action)
    requires p in s.procs && Fits(s.procs[p].pc, a) && (IsWaiting(s.procs[p].pc) || s.procs[p].pc.ReadEta?)
    ensures Follows(s.procs[p].pc, a, Acted(s, p, a).procs[p].pc)
  {
  }

  /** And so does every other action. */
  lemma ActionsFollow(s: State, p: nat, a: Action)
    requires p in s.procs && Fits(s.procs[p].pc, a)
    ensures Follows(s.procs[p].pc, a, Acted(s, p, a).procs[p].pc)
  {
    if IsWaiting(s.procs[p].pc) || s.procs[p].pc.ReadEta? {
      WaitingFollows(s, p, a);
    }
  }

  // ----- the log -----

  /** What a Polled or Copied event says of the process `pr` that recorded it. */
  predicate NotesOf(p: nat, pr: Proc, e: Event) {
    && (e.Polled? ==> e.proc == p && pr.pc.Wait? && e.eta == pr.pc.w.eta && e.at < e.eta)
    && (e.Copied? && e.path != AfterSet ==>
          && e.proc == p && e.key == pr.key && pr.pc.Fill? && pr.pc.path == e.path
          && e.found == pr.pc.found && e.ttl == pr.pc.ttl && e.expire == ExpireIn(e.at, e.ttl.seconds))
  }

  /** At most one event is added, and it satisfies `NotesOf`. */
  predicate Notes(s: State, t: State, p: nat)
    requires p in s.procs
  {
    t.log == s.log || (|t.log| == |s.log| + 1 && s.log <= t.log && NotesOf(p, s.procs[p], t.log[|s.log|]))
  }

  lemma LookupNotes(s: State, p: nat, a: Action)
    requires p in s.procs && Fits(s.procs[p].pc, a) && InLookup(s.procs[p].pc)
    ensures Notes(s, Acted(s, p, a), p)
  {
  }

  lemma AnswerNotes(s: State, p: nat, a: Action)
    requires p in s.procs && Fits(s.procs[p].pc, a) && !InLookup(s.procs[p].pc)
    ensures Notes(s, Acted(s, p, a), p)
  {
  }

  /** Every step of a process records at most one event, which says what it did. */
  lemma ActedNotes(s: State, p: nat, a: Action)
    requires p in s.procs
    ensures Notes(s, Acted(s, p, a), p)
  {
    if Fits(s.procs[p].pc, a) {
      if InLookup(s.procs[p].pc) {
        LookupNotes(s, p, a);
      } else {
        AnswerNotes(s, p, a);
      }
    }
  }

  /** Steps that are no action of a process record nothing. */
  lemma QuietStep(s: State, step: Step)
    requires !step.Act? || step.proc !in s.procs
    ensures Apply(s, step).log == s.log
  {
  }
}
