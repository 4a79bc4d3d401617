/**
 * When a pushed item goes missing (sync_to_dynamodb.py:65-112): neither queued, nor in some
 * handler's batch, nor in the table.
 */
module SyncLoss {
  import opened SyncQueue

  predicate OthersHold(s: State, h: nat, x: Item) {
    exists g :: g in s.handlers && g != h && x in Held(s.handlers[g])
  }

  predicate InHands(s: State, x: Item) {
    exists g :: g in s.handlers && x in Held(s.handlers[g])
  }

  /** The item was pushed and has left no trace. */
  predicate Missing(s: State, x: Item) {
    x in s.pushes && x !in s.queue && !InHands(s, x) && x !in s.applied
  }

  /** The step lets go of a handler's batch: the handler is cancelled, or its requeue is refused. */
  predicate LetsGo(s: State, step: Step) {
    && step.h in s.handlers
    && (step.Cancel? || (step.Requeue? && !step.accepted && s.handlers[step.h].Failing?))
  }

  /** The step lets go of a batch with the item in it, of which there is no other trace. */
  predicate TakesLast(s: State, step: Step, x: Item) {
    && LetsGo(s, step) && x in Held(s.handlers[step.h])
    && x !in s.applied && x !in s.queue && !OthersHold(s, step.h, x)
  }

  predicate PushesItem(s: State, step: Step, x: Item) {
    step.Push? && step.item == x && step.h !in s.handlers
  }

  /** What a handler's move does to who holds the item. */
  lemma HandsMove(s: State, t: State, h: nat, next: Handler, x: Item)
    requires t.handlers == s.handlers[h := next]
    ensures InHands(s, x) <==> OthersHold(s, h, x) || (h in s.handlers && x in Held(s.handlers[h]))
    ensures InHands(t, x) <==> OthersHold(s, h, x) || x in Held(next)
  {
    if g :| g in s.handlers && g != h && x in Held(s.handlers[g]) {
      assert g in t.handlers && x in Held(t.handlers[g]);
    }
    if x in Held(next) {
      assert h in t.handlers && x in Held(t.handlers[h]);
    }
  }

  lemma HeldIsPushed(s: State, h: nat, x: Item)
    requires Conserved(s) && h in s.handlers && x in Held(s.handlers[h])
    ensures x in s.pushes
  {
    HeldWasPushed(s, h);
    assert x in multiset(Held(s.handlers[h]));
  }

  /** One step: the item stays missing until it is pushed again, and goes missing with its last trace. */
  predicate MissingStep(s: State, t: State, step: Step, x: Item) {
    Missing(t, x) <==> (Missing(s, x) && !PushesItem(s, step, x)) || TakesLast(s, step, x)
  }

  lemma PushMissing(s: State, h: nat, item: Item, size: int, x: Item)
    requires Conserved(s) && h !in s.handlers
    ensures MissingStep(s, PushStep(s, h, item, size), Push(h, item, size), x)
  {
    var t := PushStep(s, h, item, size);
    HandsMove(s, t, h, t.handlers[h], x);
    assert t.queue == [item] + s.queue by {
      assert Reverse([item]) == [item];
    }
  }

  lemma PopMissing(s: State, h: nat, x: Item)
    requires h in s.handlers && s.handlers[h].Full?
    ensures MissingStep(s, PopStep(s, h), Pop(h), x)
  {
    var t := PopStep(s, h);
    HandsMove(s, t, h, t.handlers[h], x);
    if s.handlers[h].popCount >= 0 {
      PopMovesItem(s.queue, s.handlers[h].popCount, x);
    }
  }

  /** An item of the queue stays or is in the batch. */
  lemma PopMovesItem(queue: seq<Item>, n: nat, x: Item)
    ensures var (rest, batch) := RPop(queue, n); x in queue <==> x in rest || x in batch
  {
    var (rest, batch) := RPop(queue, n);
    RPopKeepsItems(queue, n);
    assert x in queue <==> x in multiset(rest) + multiset(batch);
  }

  lemma WriteMissing(s: State, h: nat, item: Item, x: Item)
    requires Conserved(s) && h in s.handlers && s.handlers[h].Writing? && item in s.handlers[h].todo
    ensures MissingStep(s, WriteStep(s, h, item), WriteOne(h, item), x)
  {
    var t := WriteStep(s, h, item);
    HandsMove(s, t, h, t.handlers[h], x);
    assert HandlerOk(s, s.handlers[h]);
    assert item in s.handlers[h].batch;
  }

  lemma CompleteMissing(s: State, h: nat, x: Item)
    requires Conserved(s) && h in s.handlers && s.handlers[h].Writing? && s.handlers[h].todo == {}
    ensures MissingStep(s, CompleteStep(s, h), Complete(h), x)
  {
    var t := CompleteStep(s, h);
    HandsMove(s, t, h, t.handlers[h], x);
    assert HandlerOk(s, s.handlers[h]);
    assert x in s.handlers[h].batch ==> x in Elements(s.handlers[h].batch);
  }

  lemma RequeueMissing(s: State, h: nat, accepted: bool, x: Item)
    requires Conserved(s) && h in s.handlers && s.handlers[h].Failing?
    ensures MissingStep(s, RequeueStep(s, h, accepted), Requeue(h, accepted), x)
  {
    var t := RequeueStep(s, h, accepted);
    var batch := s.handlers[h].batch;
    HandsMove(s, t, h, t.handlers[h], x);
    if x in batch {
      HeldIsPushed(s, h, x);
    }
    if accepted {
      LPushKeepsItems(s.queue, batch);
      assert x in t.queue <==> x in multiset(s.queue) + multiset(batch);
    }
  }

  lemma CancelMissing(s: State, h: nat, x: Item)
    requires Conserved(s) && h in s.handlers && !s.handlers[h].Finished?
    ensures MissingStep(s, CancelStep(s, h), Cancel(h), x)
  {
    var t := CancelStep(s, h);
    HandsMove(s, t, h, t.handlers[h], x);
    if x in Held(s.handlers[h]) {
      HeldIsPushed(s, h, x);
    }
  }

  /** A cron check or a failure moves a handler that holds the same as before. */
  lemma OtherMissing(s: State, step: Step, x: Item)
    requires step.CronCheck? || step.Fail?
    ensures MissingStep(s, Apply(s, step), step, x)
  {
    var t := Apply(s, step);
    if t != s {
      HandsMove(s, t, step.h, t.handlers[step.h], x);
    }
  }

  lemma StepMissing(s: State, step: Step, x: Item)
    requires Conserved(s)
    ensures MissingStep(s, Apply(s, step), step, x)
  {
    match step
    case Push(h, item, size) => if h !in s.handlers { PushMissing(s, h, item, size, x); }
    case Pop(h) => if h in s.handlers && s.handlers[h].Full? { PopMissing(s, h, x); }
    case WriteOne(h, item) =>
      if h in s.handlers && s.handlers[h].Writing? && item in s.handlers[h].todo { WriteMissing(s, h, item, x); }
    case Complete(h) =>
      if h in s.handlers && s.handlers[h].Writing? && s.handlers[h].todo == {} { CompleteMissing(s, h, x); }
    case Requeue(h, accepted) => if h in s.handlers && s.handlers[h].Failing? { RequeueMissing(s, h, accepted, x); }
    case Cancel(h) => if h in s.handlers && !s.handlers[h].Finished? { CancelMissing(s, h, x); }
    case _ => OtherMissing(s, step, x);
  }

  // ----- over runs -----

  /** What a step does to the item. */
  datatype Mark = Mark(takesLast: bool, pushes: bool)

  /** The marks of the steps of a run. */
  function Marks(steps: seq<Step>, x: Item): seq<Mark> {
    if steps == [] then []
    else
      var rest, step := steps[..|steps| - 1], steps[|steps| - 1];
      var s := Run(rest);
      Marks(rest, x) + [Mark(TakesLast(s, step, x), PushesItem(s, step, x))]
  }

  /** Mark `i` is that of step `i`, taken in the state the run has reached by then. */
  lemma {:induction false} MarksAt(steps: seq<Step>, x: Item, i: nat)
    requires i < |steps|
    ensures |Marks(steps, x)| == |steps|
    ensures var s := Run(steps[..i]);
            Marks(steps, x)[i] == Mark(TakesLast(s, steps[i], x), PushesItem(s, steps[i], x))
  {
    var rest := steps[..|steps| - 1];
    if i < |rest| {
      MarksAt(rest, x, i);
      assert rest[..i] == steps[..i];
    } else if rest != [] {
      MarksAt(rest, x, 0);
    }
  }

  predicate NotPushedFrom(marks: seq<Mark>, i: nat) {
    forall k :: i <= k < |marks| ==> !marks[k].pushes
  }

  /** Some step took the last trace of the item, and it was not pushed again since. */
  predicate LostForGood(marks: seq<Mark>) {
    exists i :: 0 <= i < |marks| && marks[i].takesLast && NotPushedFrom(marks, i + 1)
  }

  /** One step more: lost before and not pushed by it, or lost by it. */
  lemma LostForGoodSnoc(marks: seq<Mark>, m: Mark)
    ensures LostForGood(marks + [m]) <==> (LostForGood(marks) && !m.pushes) || m.takesLast
  {
    var marks' := marks + [m];
    if i :| 0 <= i < |marks| && marks'[i].takesLast && NotPushedFrom(marks', i + 1) {
      assert marks[i].takesLast && !marks'[|marks|].pushes;
      forall k | i + 1 <= k < |marks| ensures !marks[k].pushes {
        assert marks'[k] == marks[k];
      }
      assert NotPushedFrom(marks, i + 1);
    }
    if LostForGood(marks) && !m.pushes {
      var i :| 0 <= i < |marks| && marks[i].takesLast && NotPushedFrom(marks, i + 1);
      assert marks'[i].takesLast && NotPushedFrom(marks', i + 1);
    }
    if m.takesLast {
      assert marks'[|marks|].takesLast && NotPushedFrom(marks', |marks| + 1);
    }
  }

  /**
   * Over every run, a pushed item is neither queued, nor held, nor in the table exactly if
   * some handler was cancelled or had its requeue refused while its batch had the last
   * trace of the item, and the item was not pushed again since.
   */
  lemma {:induction false} NothingIsLostIff(steps: seq<Step>, x: Item)
    ensures Missing(Run(steps), x) <==> LostForGood(Marks(steps, x))
  {
    if steps != [] {
      var rest, step := steps[..|steps| - 1], steps[|steps| - 1];
      var s := Run(rest);
      NothingIsLostIff(rest, x);
      RunConserves(rest);
      StepMissing(s, step, x);
      LostForGoodSnoc(Marks(rest, x), Mark(TakesLast(s, step, x), PushesItem(s, step, x)));
    }
  }

  /** A pushed item in the hands of a handler, and nowhere else. */
  lemma OnlyInHands()
    ensures var s := Run([Push(0, "x", 1)] + [Pop(0)]);
            s.pushes == ["x"] && s.queue == [] && s.applied == {} && s.handlers == map[0 := Writing(["x"], {"x"}, 0)]
  {
    RunSnoc([], Push(0, "x", 1));
    assert [] + [Push(0, "x", 1)] == [Push(0, "x", 1)];
    var s := Run([Push(0, "x", 1)]);
    assert s.queue == ["x"] && s.handlers == map[0 := Full(1, false)];
    RunSnoc([Push(0, "x", 1)], Pop(0));
    assert ["x"][..0] == [] && ["x"][0..] == ["x"] && Reverse(["x"]) == ["x"];
    assert Elements(["x"]) == {"x"};
  }

  /** An item goes missing with a cancelled handler. */
  lemma CancelCanLose()
    ensures Missing(Run([Push(0, "x", 1)] + [Pop(0)] + [Cancel(0)]), "x")
  {
    OnlyInHands();
    RunSnoc([Push(0, "x", 1)] + [Pop(0)], Cancel(0));
    LettingGo(Run([Push(0, "x", 1)] + [Pop(0)]));
  }

  /** An item goes missing with a refused requeue. */
  lemma RefusedRequeueCanLose()
    ensures Missing(Run([Push(0, "x", 1)] + [Pop(0)] + [Fail(0)] + [Requeue(0, false)]), "x")
  {
    var steps := [Push(0, "x", 1)] + [Pop(0)];
    OnlyInHands();
    RunSnoc(steps, Fail(0));
    RunSnoc(steps + [Fail(0)], Requeue(0, false));
    LettingGo(Run(steps));
  }

  lemma LettingGo(s: State)
    requires s.pushes == ["x"] && s.queue == [] && s.applied == {} && s.handlers == map[0 := Writing(["x"], {"x"}, 0)]
    ensures Missing(CancelStep(s, 0), "x") && Missing(RequeueStep(FailStep(s, 0), 0, false), "x")
  {
  }
}
