/**
 * How long the queue can get (sync_to_dynamodb.py:59-76, 117-139): a bound over every run,
 * with any number of handlers, batch sizes, failures, cron drains and cancellations.
 */
module SyncBound {
  import opened SyncQueue

  /** The handler saw a full queue and is about to pop a batch of at least `b` items. */
  predicate IsPopper(next: Handler, b: nat) {
    next.Full? && !next.cron && next.popCount >= b
  }

  /** The handler saw a full queue and is about to pop fewer than `b` items, but some. */
  predicate IsSmallPopper(next: Handler, b: nat) {
    next.Full? && !next.cron && 0 < next.popCount < b
  }

  function Poppers(s: State, b: nat): set<nat> {
    set h | h in s.handlers && IsPopper(s.handlers[h], b)
  }

  function SmallPoppers(s: State, b: nat): set<nat> {
    set h | h in s.handlers && IsSmallPopper(s.handlers[h], b)
  }

  /**
   * What is left behind for good: `big` and `small` count the poppers of each kind that were
   * cancelled, and `small` also the pushes of handlers whose batch size is not positive, as
   * these never pop.
   */
  datatype Left = Left(big: nat, small: nat)

  /** The bound. */
  predicate Bounded(s: State, b: nat, left: Left) {
    |s.queue| < b * (1 + |Poppers(s, b)| + left.big) + |SmallPoppers(s, b)| + left.small + s.requeued
  }

  /** The bound without a product. */
  predicate InBatches(s: State, b: nat, left: Left) {
    |s.queue| < Batches(b, 1 + |Poppers(s, b)| + left.big) + |SmallPoppers(s, b)| + left.small + s.requeued
  }

  /** The items of `n` batches. */
  function Batches(b: nat, n: nat): nat {
    if n == 0 then 0 else Batches(b, n - 1) + b
  }

  lemma {:induction false} BatchesIsTimes(b: nat, n: nat)
    ensures Batches(b, n) == b * n
  {
    if n > 0 {
      BatchesIsTimes(b, n - 1);
    }
  }

  function One(c: bool): nat {
    if c then 1 else 0
  }

  /** What a handler in this state adds to the bound. */
  function Weight(next: Handler, b: nat): nat {
    if IsPopper(next, b) then b else One(IsSmallPopper(next, b))
  }

  function WeightOf(s: State, b: nat, h: nat): nat {
    if h in s.handlers then Weight(s.handlers[h], b) else 0
  }

  function Toggle(p: set<nat>, h: nat, c: bool): (q: set<nat>)
    requires h !in p
    ensures |q| == |p| + One(c)
  {
    if c then p + {h} else p
  }

  lemma PoppersMove(s: State, b: nat, h: nat, next: Handler)
    ensures |Poppers(SetHandler(s, h, next), b)| + One(h in Poppers(s, b)) == |Poppers(s, b)| + One(IsPopper(next, b))
  {
    var p := Poppers(s, b) - {h};
    assert Poppers(SetHandler(s, h, next), b) == Toggle(p, h, IsPopper(next, b));
    assert Poppers(s, b) == Toggle(p, h, h in Poppers(s, b));
  }

  lemma SmallPoppersMove(s: State, b: nat, h: nat, next: Handler)
    ensures |SmallPoppers(SetHandler(s, h, next), b)| + One(h in SmallPoppers(s, b))
         == |SmallPoppers(s, b)| + One(IsSmallPopper(next, b))
  {
    var p := SmallPoppers(s, b) - {h};
    assert SmallPoppers(SetHandler(s, h, next), b) == Toggle(p, h, IsSmallPopper(next, b));
    assert SmallPoppers(s, b) == Toggle(p, h, h in SmallPoppers(s, b));
  }

  /** The bound of a state. */
  function Room(s: State, b: nat, left: Left): nat {
    Batches(b, 1 + |Poppers(s, b)| + left.big) + |SmallPoppers(s, b)| + left.small
  }

  /** A move changes the bound by what the handler weighs before and after. */
  lemma RoomMoves(s: State, t: State, b: nat, left: Left, h: nat, next: Handler)
    requires t.handlers == s.handlers[h := next]
    ensures Room(t, b, left) + WeightOf(s, b, h) == Room(s, b, left) + Weight(next, b)
  {
    PoppersMove(s, b, h, next);
    SmallPoppersMove(s, b, h, next);
    assert Poppers(t, b) == Poppers(SetHandler(s, h, next), b);
    assert SmallPoppers(t, b) == SmallPoppers(SetHandler(s, h, next), b);
    var n, m := |Poppers(s, b)| + left.big, |Poppers(t, b)| + left.big;
    assert Batches(b, 1 + n) == Batches(b, n) + b;
    assert Batches(b, 1 + m) == Batches(b, m) + b;
  }

  lemma RoomForOne(s: State, b: nat, left: Left)
    ensures Room(s, b, left) >= b
  {
    var n := |Poppers(s, b)| + left.big;
    assert Batches(b, 1 + n) == Batches(b, n) + b;
  }

  /** A move whose queue, put-back items apart, grows by no more than the bound, or stays under one batch. */
  lemma MoveKeepsBound(s: State, t: State, b: nat, left: Left, h: nat, next: Handler)
    requires InBatches(s, b, left) && t.handlers == s.handlers[h := next] && s.requeued <= t.requeued
    requires || |t.queue| - t.requeued + WeightOf(s, b, h) <= |s.queue| - s.requeued + Weight(next, b)
             || |t.queue| < b
    ensures InBatches(t, b, left)
  {
    RoomMoves(s, t, b, left, h, next);
    RoomForOne(t, b, left);
  }

  // ----- the steps -----

  /** What a step leaves behind for good. */
  function LeftBy(s: State, b: nat, step: Step): Left {
    match step
    case Cancel(h) => Left(One(h in Poppers(s, b)), One(h in SmallPoppers(s, b)))
    case Push(h, _, size) => Left(0, One(h !in s.handlers && size <= 0))
    case _ => Left(0, 0)
  }

  function Plus(a: Left, b: Left): Left {
    Left(a.big + b.big, a.small + b.small)
  }

  lemma PushKeepsBound(s: State, b: nat, left: Left, h: nat, item: Item, size: int)
    requires b > 0 && size <= b && h !in s.handlers && InBatches(s, b, left)
    ensures InBatches(PushStep(s, h, item, size), b, Plus(left, Left(0, One(size <= 0))))
  {
    var t := PushStep(s, h, item, size);
    var left' := Plus(left, Left(0, One(size <= 0)));
    RoomMoves(s, t, b, left, h, t.handlers[h]);
    RoomForOne(t, b, left);
    assert Room(t, b, left') == Room(t, b, left) + One(size <= 0);
  }

  lemma PopKeepsBound(s: State, b: nat, left: Left, h: nat)
    requires b > 0 && InBatches(s, b, left)
    ensures InBatches(PopStep(s, h), b, left)
  {
    var t := PopStep(s, h);
    if t != s {
      PopTakes(s, b, h);
      MoveKeepsBound(s, t, b, left, h, t.handlers[h]);
    }
  }

  /** A pop takes at least what its handler weighs, or all there is. */
  lemma PopTakes(s: State, b: nat, h: nat)
    requires b > 0 && h in s.handlers && s.handlers[h].Full?
    ensures var t := PopStep(s, h);
            && t.handlers == s.handlers[h := t.handlers[h]] && !t.handlers[h].Full? && t.requeued == s.requeued
            && (|t.queue| + WeightOf(s, b, h) <= |s.queue| || |t.queue| == 0)
  {
  }

  /** A cancelled popper keeps its place in the bound. */
  lemma CancelKeepsBound(s: State, b: nat, left: Left, h: nat)
    requires InBatches(s, b, left) && h in s.handlers && !s.handlers[h].Finished?
    ensures InBatches(CancelStep(s, h), b, Plus(left, LeftBy(s, b, Cancel(h))))
  {
    var t := CancelStep(s, h);
    var gone := LeftBy(s, b, Cancel(h));
    RoomMoves(s, t, b, left, h, Finished(Aborted));
    RoomPlus(t, b, left, gone);
  }

  lemma RoomPlus(s: State, b: nat, left: Left, gone: Left)
    requires gone.big <= 1
    ensures Room(s, b, Plus(left, gone)) == Room(s, b, left) + gone.small + if gone.big == 1 then b else 0
  {
    var n := 1 + |Poppers(s, b)| + left.big;
    assert Batches(b, n + 1) == Batches(b, n) + b;
  }

  lemma OtherKeepsBound(s: State, b: nat, left: Left, step: Step)
    requires InBatches(s, b, left) && !step.Push? && !step.Pop? && !step.Cancel?
    ensures InBatches(Apply(s, step), b, left)
  {
    var t := Apply(s, step);
    if t != s {
      OtherMoves(s, b, step);
      MoveKeepsBound(s, t, b, left, step.h, t.handlers[step.h]);
    }
  }

  lemma OtherMoves(s: State, b: nat, step: Step)
    requires !step.Push? && !step.Pop? && !step.Cancel? && Apply(s, step) != s
    ensures var t := Apply(s, step);
            && step.h in t.handlers && t.handlers == s.handlers[step.h := t.handlers[step.h]]
            && |t.queue| - t.requeued == |s.queue| - s.requeued && s.requeued <= t.requeued
            && WeightOf(s, b, step.h) == 0
  {
  }

  /** The batch sizes of the run are at most `b`. */
  predicate SizesUpTo(steps: seq<Step>, b: nat) {
    forall i :: 0 <= i < |steps| && steps[i].Push? ==> steps[i].size <= b
  }

  lemma StepKeepsBound(s: State, b: nat, left: Left, step: Step)
    requires b > 0 && InBatches(s, b, left) && (step.Push? ==> step.size <= b)
    ensures InBatches(Apply(s, step), b, Plus(left, LeftBy(s, b, step)))
  {
    match step
    case Push(h, item, size) => if h !in s.handlers { PushKeepsBound(s, b, left, h, item, size); }
    case Pop(h) => PopKeepsBound(s, b, left, h);
    case Cancel(h) => if h in s.handlers && !s.handlers[h].Finished? { CancelKeepsBound(s, b, left, h); }
    case _ => OtherKeepsBound(s, b, left, step);
  }

  // ----- over runs -----

  /** What the steps of a run have left behind for good. */
  function LeftBehind(b: nat, steps: seq<Step>): Left {
    if steps == [] then Left(0, 0)
    else
      var rest, step := steps[..|steps| - 1], steps[|steps| - 1];
      Plus(LeftBehind(b, rest), LeftBy(Run(rest), b, step))
  }

  lemma {:induction false} RunIsBounded(b: nat, steps: seq<Step>)
    requires b > 0 && SizesUpTo(steps, b)
    ensures InBatches(Run(steps), b, LeftBehind(b, steps))
  {
    if steps != [] {
      var rest, step := steps[..|steps| - 1], steps[|steps| - 1];
      RunIsBounded(b, rest);
      StepKeepsBound(Run(rest), b, LeftBehind(b, rest), step);
    } else {
      StartIsBounded(b);
    }
  }

  lemma StartIsBounded(b: nat)
    requires b > 0
    ensures InBatches(Init(), b, Left(0, 0))
  {
    RoomForOne(Init(), b, Left(0, 0));
  }

  lemma BoundedMeans(s: State, b: nat, left: Left)
    requires InBatches(s, b, left)
    ensures Bounded(s, b, left)
  {
    BatchesIsTimes(b, 1 + |Poppers(s, b)| + left.big);
  }

  /**
   * In every run whose batch sizes are at most B, the queue is shorter than B * (1 + p + c)
   * plus p', c' and the items put back after failures.  Of the handlers that saw a full
   * queue, p are about to pop B items and c were cancelled in that state; p' and c' are those
   * that pop fewer.  A push with a batch size that is not positive counts in c', as its
   * handler never pops.  Cron drains of any size keep this.
   */
  lemma QueueIsBounded(b: nat, steps: seq<Step>)
    requires b > 0 && SizesUpTo(steps, b)
    ensures Bounded(Run(steps), b, LeftBehind(b, steps))
  {
    RunIsBounded(b, steps);
    BoundedMeans(Run(steps), b, LeftBehind(b, steps));
  }

  lemma BoundedWhenQuiet(s: State, b: nat)
    requires InBatches(s, b, Left(0, 0)) && s.requeued == 0 && Poppers(s, b) == {} && SmallPoppers(s, b) == {}
    ensures |s.queue| < b
  {
    assert Batches(b, 1) == Batches(b, 0) + b;
  }

  /**
   * As long as nothing was put back or left behind, the bound has only the poppers left, and
   * whenever no handler is about to pop the queue holds fewer items than the largest batch.
   */
  lemma QuietQueueIsShort(b: nat, steps: seq<Step>)
    requires b > 0 && SizesUpTo(steps, b) && Run(steps).requeued == 0 && LeftBehind(b, steps) == Left(0, 0)
    ensures Bounded(Run(steps), b, Left(0, 0))
    ensures var s := Run(steps); Poppers(s, b) == {} && SmallPoppers(s, b) == {} ==> |s.queue| < b
  {
    RunIsBounded(b, steps);
    BoundedMeans(Run(steps), b, Left(0, 0));
    if Poppers(Run(steps), b) == {} && SmallPoppers(Run(steps), b) == {} {
      BoundedWhenQuiet(Run(steps), b);
    }
  }

  // ----- how a full queue can be left behind -----

  /** The first `n` handlers push one item each, with batch size `b`. */
  function Pushes(b: nat, n: nat): seq<Step> {
    if n == 0 then [] else Pushes(b, n - 1) + [Push(n - 1, "x", b)]
  }

  /** All handlers so far are done, and the queue holds `n` items. */
  predicate AllDone(s: State, n: nat) {
    && |s.queue| == n && (forall h :: h in s.handlers ==> h < n && s.handlers[h].Finished?)
  }

  lemma {:induction false} PushesWait(b: nat, n: nat)
    requires n < b
    ensures AllDone(Run(Pushes(b, n)), n)
  {
    if n > 0 {
      PushesWait(b, n - 1);
      RunSnoc(Pushes(b, n - 1), Push(n - 1, "x", b));
      PushWaits(Run(Pushes(b, n - 1)), b, n - 1);
    }
  }

  lemma PushWaits(s: State, b: nat, n: nat)
    requires AllDone(s, n) && n + 1 < b
    ensures AllDone(Apply(s, Push(n, "x", b)), n + 1)
  {
  }

  /** The last of a batch is pushed, and its handler is about to pop it. */
  lemma LastPushFills(s: State, b: nat, h: nat)
    requires b > 0 && AllDone(s, b - 1) && h == b - 1
    ensures var t := Apply(s, Push(h, "x", b));
            && |t.queue| == b && t.handlers == s.handlers[h := Full(b, false)]
            && forall g :: g in s.handlers ==> g != h && s.handlers[g].Finished?
  {
  }

  lemma PopTakesAll(s: State, b: nat, h: nat)
    requires b > 0 && |s.queue| == b && h in s.handlers && s.handlers[h] == Full(b, false)
    ensures var t := Apply(s, Pop(h));
            && |t.queue| == 0 && h in t.handlers && t.handlers[h].Writing? && |t.handlers[h].batch| == b
            && t.handlers == s.handlers[h := t.handlers[h]]
  {
  }

  lemma FailurePutsBack(s: State, h: nat)
    requires h in s.handlers && s.handlers[h].Writing?
    ensures var t := Apply(Apply(s, Fail(h)), Requeue(h, true));
            |t.queue| == |s.queue| + |s.handlers[h].batch| && t.handlers == s.handlers[h := Finished(Error)]
  {
  }

  /** A popper whose batch is the whole queue fails and puts it back. */
  lemma FailedBatchComesBack(s: State, b: nat, h: nat)
    requires b > 0 && AllDone(s, b - 1) && h == b - 1
    ensures var t1 := Apply(s, Push(h, "x", b));
            var t := Apply(Apply(Apply(t1, Pop(h)), Fail(h)), Requeue(h, true));
            |t.queue| == b && forall g :: g in t.handlers ==> t.handlers[g].Finished?
  {
    var t1 := Apply(s, Push(h, "x", b));
    LastPushFills(s, b, h);
    PopTakesAll(t1, b, h);
    FailurePutsBack(Apply(t1, Pop(h)), h);
  }

  lemma CancelledPopperLeaves(s: State, b: nat, h: nat)
    requires b > 0 && AllDone(s, b - 1) && h == b - 1
    ensures var t := Apply(Apply(s, Push(h, "x", b)), Cancel(h));
            |t.queue| == b && forall g :: g in t.handlers ==> t.handlers[g].Finished?
  {
  }

  /** The run leaves at least a batch in the queue with every handler done. */
  predicate LeavesFullQueue(b: nat, steps: seq<Step>) {
    var s := Run(steps);
    |s.queue| >= b && forall h :: h in s.handlers ==> s.handlers[h].Finished?
  }

  /**
   * For every batch size, one failed batch that is put back, or one cancellation of a
   * popper, is enough to leave a full queue that nobody is about to pop.
   */
  lemma OneFailureCanLeaveFullQueue(b: nat)
    requires b > 0
    ensures exists h :: LeavesFullQueue(b, Pushes(b, b) + [Pop(h)] + [Fail(h)] + [Requeue(h, true)])
    ensures exists h :: LeavesFullQueue(b, Pushes(b, b) + [Cancel(h)])
  {
    var h := b - 1;
    var pushes := Pushes(b, b);
    PushesWait(b, h);
    RunSnoc(Pushes(b, h), Push(h, "x", b));
    RunSnoc(pushes, Pop(h));
    RunSnoc(pushes + [Pop(h)], Fail(h));
    RunSnoc(pushes + [Pop(h)] + [Fail(h)], Requeue(h, true));
    FailedBatchComesBack(Run(Pushes(b, h)), b, h);
    assert LeavesFullQueue(b, pushes + [Pop(h)] + [Fail(h)] + [Requeue(h, true)]);
    RunSnoc(pushes, Cancel(h));
    CancelledPopperLeaves(Run(Pushes(b, h)), b, h);
    assert LeavesFullQueue(b, pushes + [Cancel(h)]);
  }

  /** A handler with a batch size that is not positive leaves its item in the queue. */
  lemma NonPositiveSizeNeverPops(s: State, h: nat, item: Item, size: int)
    requires h !in s.handlers && size <= 0
    ensures var t := Apply(Apply(s, Push(h, item, size)), Pop(h));
            h in t.handlers && t.handlers[h].Finished? && t.queue == [item] + s.queue
  {
    assert Reverse([item]) == [item];
  }
}
