/**
 * One invocation of the sync script (sync_to_dynamodb.py:59-116) in its own order, with
 * the other handlers running between any two of its awaits.
 */
module SyncHandler {
  import opened SyncQueue

  ghost predicate Reachable(s: State) {
    exists steps :: s == Run(steps)
  }

  lemma ReachableStep(s: State, step: Step)
    requires Reachable(s)
    ensures Reachable(Apply(s, step))
  {
    var steps :| s == Run(steps);
    RunSnoc(steps, step);
  }

  lemma ReachableConserves(s: State)
    requires Reachable(s)
    ensures Conserved(s)
  {
    var steps :| s == Run(steps);
    RunConserves(steps);
  }

  predicate ByOthers(h: nat, steps: seq<Step>) {
    forall i :: 0 <= i < |steps| ==> steps[i].h != h
  }

  function After(s: State, steps: seq<Step>): State {
    if steps == [] then s else Apply(After(s, steps[..|steps| - 1]), steps[|steps| - 1])
  }

  /** What the others do in the i-th gap, whether the i-th write fails, and whether Redis takes the batch back. */
  datatype Env = Env(others: nat -> seq<Step>, fails: nat -> bool, accepts: bool)

  ghost predicate ValidEnv(h: nat, env: Env) {
    forall i :: ByOthers(h, env.others(i))
  }

  lemma OneByOther(s: State, h: nat, step: Step)
    requires step.h != h && h in s.handlers
    ensures var t := Apply(s, step);
        h in t.handlers && t.handlers[h] == s.handlers[h] && s.applied <= t.applied
  {
    StepMovesOne(s, step);
  }

  lemma {:induction false} OthersRun(s: State, h: nat, steps: seq<Step>)
    requires Reachable(s) && h in s.handlers && ByOthers(h, steps)
    ensures var t := After(s, steps);
            Reachable(t) && h in t.handlers && t.handlers[h] == s.handlers[h] && s.applied <= t.applied
  {
    if steps != [] {
      var m := |steps| - 1;
      OthersRun(s, h, steps[..m]);
      OneByOther(After(s, steps[..m]), h, steps[m]);
      ReachableStep(After(s, steps[..m]), steps[m]);
    }
  }

  /** What a pop of up to `n` items in world `at` led to by world `s`; a negative count is refused. */
  predicate Drained(at: State, s: State, n: int, outcome: Outcome) {
    if n < 0 then outcome == Aborted && s.queue == at.queue
    else
      var batch := RPop(at.queue, n).1;
      match outcome
      case NoItems => batch == []
      case Updated(count) => batch != [] && count == |Elements(batch)| && Elements(batch) <= s.applied
      case Error => batch != [] && Reverse(batch) <= s.queue
      case Aborted => batch != []
      case Pending(_) => false
  }

  lemma RequeuePutsBack(s: State, h: nat, accepted: bool)
    requires h in s.handlers && s.handlers[h].Failing?
    ensures var t := RequeueStep(s, h, accepted);
            && h in t.handlers && t.handlers[h] == Finished(if accepted then Error else Aborted)
            && (accepted ==> Reverse(s.handlers[h].batch) <= t.queue)
  {
  }

  class World {
    var s: State

    constructor ()
      ensures s == Init() && Reachable(s)
    {
      this.s := Init();
      new;
      assert Run([]) == Init();
    }

    method Do(step: Step)
      requires Reachable(s)
      modifies this
      ensures Reachable(s) && s == Apply(old(s), step)
    {
      ReachableStep(s, step);
      s := Apply(s, step);
    }

    method Yield(h: nat, env: Env, gap: nat)
      requires Reachable(s) && h in s.handlers && ValidEnv(h, env)
      modifies this
      ensures Reachable(s) && h in s.handlers && s.handlers[h] == old(s).handlers[h]
          && old(s).applied <= s.applied
    {
      OthersRun(s, h, env.others(gap));
      s := After(s, env.others(gap));
    }

    /** Lines 106-112: the whole batch goes back to the left end, or is refused. */
    method PutBack(h: nat, env: Env, gap: nat)
      requires Reachable(s) && h in s.handlers && s.handlers[h].Writing? && ValidEnv(h, env)
      modifies this
      ensures Reachable(s) && h in s.handlers
      ensures s.handlers[h] == Finished(if env.accepts then Error else Aborted)
      ensures env.accepts ==> Reverse(old(s).handlers[h].batch) <= s.queue
    {
      Do(Fail(h));
      Yield(h, env, gap);
      RequeuePutsBack(s, h, env.accepts);
      Do(Requeue(h, env.accepts));
    }

    /** Lines 93-104: one put_item. */
    method WriteNext(h: nat, env: Env, gap: nat)
      requires Reachable(s) && h in s.handlers && s.handlers[h].Writing?
          && s.handlers[h].todo != {} && ValidEnv(h, env)
      modifies this
      ensures Reachable(s) && h in s.handlers && s.handlers[h].Writing?
      ensures s.handlers[h].batch == old(s).handlers[h].batch && s.handlers[h].todo < old(s).handlers[h].todo
    {
      var item :| item in s.handlers[h].todo;
      Do(WriteOne(h, item));
      Yield(h, env, gap);
    }

    method Finish(h: nat)
      requires Reachable(s) && h in s.handlers && s.handlers[h].Writing? && s.handlers[h].todo == {}
      modifies this
      ensures Reachable(s) && h in s.handlers
      ensures s.handlers[h] == Finished(Updated(|Elements(old(s).handlers[h].batch)|))
      ensures Elements(old(s).handlers[h].batch) <= s.applied
    {
      ReachableConserves(s);
      WritingDone(s, h);
      Do(Complete(h));
    }

    /** Lines 78-112: the batch is written item by item, or put back as a whole. */
    method WriteBatch(h: nat, env: Env) returns (ok: bool)
      requires Reachable(s) && h in s.handlers && s.handlers[h].Writing? && ValidEnv(h, env)
      modifies this
      ensures Reachable(s) && h in s.handlers
      ensures ok ==> s.handlers[h] == Finished(Updated(|Elements(old(s).handlers[h].batch)|))
      ensures ok ==> Elements(old(s).handlers[h].batch) <= s.applied
      ensures !ok ==> s.handlers[h] == Finished(if env.accepts then Error else Aborted)
      ensures !ok && env.accepts ==> Reverse(old(s).handlers[h].batch) <= s.queue
    {
      ghost var batch := s.handlers[h].batch;
      var gap := 0;
      ok := true;
      while ok && s.handlers[h].todo != {}
        invariant Reachable(s) && h in s.handlers
        invariant ok ==> s.handlers[h].Writing? && s.handlers[h].batch == batch
        invariant !ok ==> s.handlers[h] == Finished(if env.accepts then Error else Aborted)
        invariant !ok && env.accepts ==> Reverse(batch) <= s.queue
        decreases ok, if ok then s.handlers[h].todo else {}
      {
        if env.fails(gap) {
          ok := false;
          PutBack(h, env, gap);
        } else {
          WriteNext(h, env, gap);
        }
        gap := gap + 1;
      }
      if ok {
        Finish(h);
      }
    }

    /**
     * A popper takes its batch, from the queue as it is in world `at`, and deals with it:
     * every distinct item is written and counted, or the batch is put back or refused.
     */
    method Drain(h: nat, env: Env) returns (ghost at: State)
      requires Reachable(s) && h in s.handlers && s.handlers[h].Full? && ValidEnv(h, env)
      modifies this
      ensures Reachable(at) && Reachable(s) && h in s.handlers
      ensures s.handlers[h].Finished? && Drained(at, s, old(s).handlers[h].popCount, s.handlers[h].outcome)
    {
      Yield(h, env, 0);
      at := s;
      Do(Pop(h));
      if s.handlers[h].Writing? {
        Yield(h, env, 1);
        var ok := WriteBatch(h, env);
      }
    }

    /** A change event with its batch size: push, and when that fills the queue pop a batch and write it. */
    method HandleChange(h: nat, item: Item, size: int, env: Env) returns (outcome: Outcome, ghost at: State)
      requires Reachable(s) && h !in s.handlers && ValidEnv(h, env)
      modifies this
      ensures Reachable(s) && h in s.handlers && s.handlers[h] == Finished(outcome)
      ensures outcome.Pending? <==> |old(s).queue| + 1 < size
      ensures outcome.Pending? ==> outcome.inQueue == |old(s).queue| + 1 && s.queue == [item] + old(s).queue
      ensures !outcome.Pending? ==> Reachable(at) && Drained(at, s, size, outcome)
    {
      at := s;
      Do(Push(h, item, size));
      assert Reverse([item]) == [item];
      if s.handlers[h].Full? {
        at := Drain(h, env);
      }
      outcome := s.handlers[h].outcome;
    }

    /** A cron run: drain everything counted, if it reaches the run's own size. */
    method HandleCron(h: nat, size: int, env: Env) returns (outcome: Outcome, ghost at: State)
      requires Reachable(s) && h !in s.handlers && ValidEnv(h, env)
      modifies this
      ensures Reachable(s) && h in s.handlers && s.handlers[h] == Finished(outcome)
      ensures outcome.Pending? <==> |old(s).queue| < size
      ensures outcome.Pending? ==> outcome.inQueue == |old(s).queue| && s.queue == old(s).queue
      ensures !outcome.Pending? ==> Reachable(at) && Drained(at, s, |old(s).queue|, outcome)
    {
      at := s;
      Do(CronCheck(h, size));
      if s.handlers[h].Full? {
        at := Drain(h, env);
      }
      outcome := s.handlers[h].outcome;
    }
  }
}
