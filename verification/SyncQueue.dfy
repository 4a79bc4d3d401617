/**
 * The batched sync queue (example/graphql-engine/scripts/sync_to_dynamodb.py:59-139) as a
 * transition system: concurrent handlers push to one Redis list and pop batches from it.
 * The put queue and the delete queue run the same protocol on lists of their own; an item
 * is the encoded object or key.
 */
module SyncQueue {
  import opened Bags

  type Item = string

  datatype Outcome =
    | Pending(inQueue: nat)
    | NoItems
    | Updated(count: nat)
    | Error
    | Aborted

  /** Where a handler is between two awaits. */
  datatype Handler =
    | Full(popCount: int, cron: bool)
    | Writing(batch: seq<Item>, todo: set<Item>, count: nat)
    | Failing(batch: seq<Item>)
    | Finished(outcome: Outcome)

  /**
   * `applied` are the items the table has received.  The rest is history: every push in
   * order, all that entered the queue by a push or a requeue in order, every pop in order, the contents
   * of the batches that completed and of those that
   * vanished, and how many items were put back.
   */
  datatype State = State(
    queue: seq<Item>,
    handlers: map<nat, Handler>,
    applied: set<Item>,
    pushes: seq<Item>,
    entered: seq<Item>,
    pops: seq<Item>,
    completed: multiset<Item>,
    lost: multiset<Item>,
    requeued: nat)

  datatype Step =
    | Push(h: nat, item: Item, size: int)
    | CronCheck(h: nat, size: int)
    | Pop(h: nat)
    | WriteOne(h: nat, item: Item)
    | Complete(h: nat)
    | Fail(h: nat)
    | Requeue(h: nat, accepted: bool)
    | Cancel(h: nat)

  function Reverse<T>(s: seq<T>): (r: seq<T>)
    ensures |r| == |s|
  {
    if s == [] then [] else Reverse(s[1..]) + [s[0]]
  }

  /** RPOP with a count: up to `n` items from the right end, rightmost first. */
  function RPop(queue: seq<Item>, n: nat): (r: (seq<Item>, seq<Item>))
    ensures |r.0| == (if n <= |queue| then |queue| - n else 0) && |r.0| + |r.1| == |queue|
  {
    var k := if n <= |queue| then |queue| - n else 0;
    (queue[..k], Reverse(queue[k..]))
  }

  /** LPUSH of several values puts each at the left end in turn. */
  function LPush(queue: seq<Item>, items: seq<Item>): (r: seq<Item>)
    ensures |r| == |queue| + |items|
  {
    Reverse(items) + queue
  }

  lemma {:induction false} ReverseKeepsItems<T>(s: seq<T>)
    ensures multiset(Reverse(s)) == multiset(s)
  {
    if s != [] {
      ReverseKeepsItems(s[1..]);
      assert s == [s[0]] + s[1..];
    }
  }

  lemma RPopKeepsItems(queue: seq<Item>, n: nat)
    ensures var (rest, batch) := RPop(queue, n); multiset(rest) + multiset(batch) == multiset(queue)
  {
    var k := if n <= |queue| then |queue| - n else 0;
    assert queue == queue[..k] + queue[k..];
    ReverseKeepsItems(queue[k..]);
  }

  lemma LPushKeepsItems(queue: seq<Item>, items: seq<Item>)
    ensures multiset(LPush(queue, items)) == multiset(queue) + multiset(items)
  {
    ReverseKeepsItems(items);
  }

  function Elements(s: seq<Item>): set<Item> {
    set x | x in s
  }

  /** At most one handler moves, and the table only gains items. */
  predicate OnlyMoves(s: State, t: State, h: nat) {
    && (t.handlers == s.handlers || (h in t.handlers && t.handlers == s.handlers[h := t.handlers[h]]))
    && s.applied <= t.applied
  }

  function SetHandler(s: State, h: nat, next: Handler): State {
    s.(handlers := s.handlers[h := next])
  }

  /** The batch a handler has taken off the queue and not finished with. */
  function Held(next: Handler): seq<Item> {
    match next
    case Writing(batch, _, _) => batch
    case Failing(batch) => batch
    case _ => []
  }

  // Each of the following is one step of a handler `h`; one that is not enabled changes nothing.

  /** Lines 63-67 and 121-129: LPUSH answers the new length; the batch size comes with the request. */
  function PushStep(s: State, h: nat, item: Item, size: int): State {
    if h in s.handlers then s
    else
      var n := |s.queue| + 1;
      SetHandler(s, h, if n >= size then Full(size, false) else Finished(Pending(n))).(
        queue := LPush(s.queue, [item]), pushes := s.pushes + [item], entered := s.entered + [item])
  }

  /** A cron run drains all it counted, if that reaches its own size. */
  function CronStep(s: State, h: nat, size: int): State {
    if h in s.handlers then s
    else SetHandler(s, h, if |s.queue| >= size then Full(|s.queue|, true) else Finished(Pending(|s.queue|)))
  }

  /** RPOP refuses a negative count, and the handler raises. */
  function PopStep(s: State, h: nat): State {
    if h !in s.handlers || !s.handlers[h].Full? then s
    else if s.handlers[h].popCount < 0 then SetHandler(s, h, Finished(Aborted))
    else
      var (rest, batch) := RPop(s.queue, s.handlers[h].popCount);
      if batch == [] then SetHandler(s, h, Finished(NoItems))
      else SetHandler(s, h, Writing(batch, Elements(batch), 0)).(queue := rest, pops := s.pops + batch)
  }

  function WriteStep(s: State, h: nat, item: Item): State {
    if h !in s.handlers || !s.handlers[h].Writing? || item !in s.handlers[h].todo then s
    else
      var Writing(batch, todo, count) := s.handlers[h];
      SetHandler(s, h, Writing(batch, todo - {item}, count + 1)).(applied := s.applied + {item})
  }

  function CompleteStep(s: State, h: nat): State {
    if h !in s.handlers || !s.handlers[h].Writing? || s.handlers[h].todo != {} then s
    else
      SetHandler(s, h, Finished(Updated(s.handlers[h].count))).(
        completed := s.completed + multiset(s.handlers[h].batch))
  }

  function FailStep(s: State, h: nat): State {
    if h !in s.handlers || !s.handlers[h].Writing? then s else SetHandler(s, h, Failing(s.handlers[h].batch))
  }

  /** Lines 106-112: the whole batch goes back as one LPUSH, which Redis or its client may refuse. */
  function RequeueStep(s: State, h: nat, accepted: bool): State {
    if h !in s.handlers || !s.handlers[h].Failing? then s
    else
      var batch := s.handlers[h].batch;
      if accepted then
        SetHandler(s, h, Finished(Error)).(queue := LPush(s.queue, batch), entered := s.entered + batch,
            requeued := s.requeued + |batch|)
      else SetHandler(s, h, Finished(Aborted)).(lost := s.lost + multiset(batch))
  }

  function CancelStep(s: State, h: nat): State {
    if h !in s.handlers || s.handlers[h].Finished? then s
    else SetHandler(s, h, Finished(Aborted)).(lost := s.lost + multiset(Held(s.handlers[h])))
  }

  function Apply(s: State, step: Step): State {
    match step
    case Push(h, item, size) => PushStep(s, h, item, size)
    case CronCheck(h, size) => CronStep(s, h, size)
    case Pop(h) => PopStep(s, h)
    case WriteOne(h, item) => WriteStep(s, h, item)
    case Complete(h) => CompleteStep(s, h)
    case Fail(h) => FailStep(s, h)
    case Requeue(h, accepted) => RequeueStep(s, h, accepted)
    case Cancel(h) => CancelStep(s, h)
  }

  function Init(): State {
    State([], map[], {}, [], [], [], multiset{}, multiset{}, 0)
  }

  function Run(steps: seq<Step>): State {
    if steps == [] then Init() else Apply(Run(steps[..|steps| - 1]), steps[|steps| - 1])
  }

  // ----- conservation -----

  function Pushed(s: State): multiset<Item> {
    multiset(s.pushes)
  }

  ghost function InFlight(handlers: map<nat, Handler>): multiset<Item> {
    Bag(handlers, (h: nat, next: Handler) => multiset(Held(next)))
  }

  /** A handler's move changes what is in flight by what it held and holds. */
  lemma InFlightMoves(handlers: map<nat, Handler>, h: nat, next: Handler)
    ensures InFlight(handlers[h := next]) + (if h in handlers then multiset(Held(handlers[h])) else multiset{})
         == InFlight(handlers) + multiset(Held(next))
  {
    var f := (h: nat, next: Handler) => multiset(Held(next));
    BagTake(handlers[h := next], f, h);
    assert handlers[h := next] - {h} == handlers - {h};
    if h in handlers {
      BagTake(handlers, f, h);
    } else {
      assert handlers - {h} == handlers;
    }
  }

  ghost predicate HandlerOk(s: State, next: Handler) {
    match next
    case Writing(batch, todo, count) =>
      && todo <= Elements(batch) && Elements(batch) - todo <= s.applied && count + |todo| == |Elements(batch)|
    case _ => true
  }

  ghost predicate Conserved(s: State) {
    && Pushed(s) == multiset(s.queue) + InFlight(s.handlers) + s.completed + s.lost
    && (forall x :: x in s.completed ==> x in s.applied)
    && (forall x :: x in s.applied ==> x in Pushed(s))
    && HandlersOk(s)
  }

  ghost predicate HandlersOk(s: State) {
    forall h :: h in s.handlers ==> HandlerOk(s, s.handlers[h])
  }

  /** What a handler holds was pushed. */
  lemma HeldWasPushed(s: State, h: nat)
    requires Conserved(s) && h in s.handlers
    ensures multiset(Held(s.handlers[h])) <= Pushed(s)
  {
    BagTake(s.handlers, (h: nat, next: Handler) => multiset(Held(next)), h);
  }

  /** The books before and after: pushed, queue, completed, lost, and what the handler held and holds. */
  ghost predicate Balanced(s: State, t: State, held: multiset<Item>, next: Handler) {
    Pushed(t) + (multiset(s.queue) + s.completed + s.lost + held)
      == Pushed(s) + (multiset(t.queue) + t.completed + t.lost + multiset(Held(next)))
  }

  ghost function HeldBy(s: State, h: nat): multiset<Item> {
    if h in s.handlers then multiset(Held(s.handlers[h])) else multiset{}
  }

  lemma BalanceMoves(s: State, t: State, h: nat, next: Handler)
    requires Pushed(s) == multiset(s.queue) + InFlight(s.handlers) + s.completed + s.lost
    requires t.handlers == s.handlers[h := next] && Balanced(s, t, HeldBy(s, h), next)
    ensures Pushed(t) == multiset(t.queue) + InFlight(t.handlers) + t.completed + t.lost
  {
    InFlightMoves(s.handlers, h, next);
    var was, becomes := HeldBy(s, h), multiset(Held(next));
    var before, after := InFlight(s.handlers), InFlight(t.handlers);
    var kept, kept' := multiset(s.queue) + s.completed + s.lost, multiset(t.queue) + t.completed + t.lost;
    forall x ensures Pushed(t)[x] == (kept' + after)[x] {
      assert (after + was)[x] == (before + becomes)[x];
      assert (Pushed(t) + (kept + was))[x] == (Pushed(s) + (kept' + becomes))[x];
      assert Pushed(s)[x] == (kept + before)[x];
    }
    assert Pushed(t) == kept' + after;
  }

  /** The books balance after a move of handler `h` that leaves the table alone. */
  lemma MoveConserves(s: State, t: State, h: nat, next: Handler)
    requires Conserved(s) && t.handlers == s.handlers[h := next] && t.applied == s.applied
    requires HandlerOk(t, next) && Pushed(s) <= Pushed(t) && Balanced(s, t, HeldBy(s, h), next)
    requires forall x :: x in t.completed ==> x in t.applied
    ensures Conserved(t)
  {
    BalanceMoves(s, t, h, next);
    assert forall x :: x in Pushed(s) ==> x in Pushed(t);
  }

  lemma PushConserves(s: State, h: nat, item: Item, size: int)
    requires Conserved(s)
    ensures Conserved(PushStep(s, h, item, size))
  {
    var t := PushStep(s, h, item, size);
    LPushKeepsItems(s.queue, [item]);
    if t != s {
      MoveConserves(s, t, h, t.handlers[h]);
    }
  }

  /** A batch leaves the queue for a handler that held nothing. */
  lemma TakeConserves(s: State, t: State, h: nat, rest: seq<Item>, batch: seq<Item>)
    requires Conserved(s) && h in s.handlers && Held(s.handlers[h]) == []
    requires multiset(rest) + multiset(batch) == multiset(s.queue)
    requires t == SetHandler(s, h, Writing(batch, Elements(batch), 0)).(queue := rest, pops := s.pops + batch)
    ensures Conserved(t)
  {
    var next := Writing(batch, Elements(batch), 0);
    assert HandlerOk(t, next);
    assert HeldBy(s, h) == multiset{};
    MoveConserves(s, t, h, next);
  }

  lemma PopConserves(s: State, h: nat)
    requires Conserved(s)
    ensures Conserved(PopStep(s, h))
  {
    if h in s.handlers && s.handlers[h].Full? && s.handlers[h].popCount < 0 {
      MoveConserves(s, PopStep(s, h), h, Finished(Aborted));
    } else if h in s.handlers && s.handlers[h].Full? {
      var (rest, batch) := RPop(s.queue, s.handlers[h].popCount);
      RPopKeepsItems(s.queue, s.handlers[h].popCount);
      if batch == [] {
        MoveConserves(s, PopStep(s, h), h, Finished(NoItems));
      } else {
        TakeConserves(s, PopStep(s, h), h, rest, batch);
      }
    }
  }

  lemma WriteKeepsHandlers(s: State, h: nat, item: Item)
    requires HandlersOk(s)
    ensures HandlersOk(WriteStep(s, h, item))
  {
    var t := WriteStep(s, h, item);
    forall g | g in t.handlers ensures HandlerOk(t, t.handlers[g]) {
      assert HandlerOk(s, s.handlers[g]);
    }
  }

  lemma WriteConserves(s: State, h: nat, item: Item)
    requires Conserved(s)
    ensures Conserved(WriteStep(s, h, item))
  {
    WriteKeepsHandlers(s, h, item);
    if h in s.handlers && s.handlers[h].Writing? && item in s.handlers[h].todo {
      var batch := s.handlers[h].batch;
      HeldWasPushed(s, h);
      assert HandlerOk(s, s.handlers[h]) && item in multiset(batch);
      var t := WriteStep(s, h, item);
      assert Balanced(s, t, HeldBy(s, h), t.handlers[h]);
      BalanceMoves(s, t, h, t.handlers[h]);
    }
  }

  lemma CompleteConserves(s: State, h: nat)
    requires Conserved(s)
    ensures Conserved(CompleteStep(s, h))
  {
    var t := CompleteStep(s, h);
    if t != s {
      assert forall x :: x in multiset(s.handlers[h].batch) ==> x in Elements(s.handlers[h].batch);
      MoveConserves(s, t, h, t.handlers[h]);
    }
  }

  lemma FailConserves(s: State, h: nat)
    requires Conserved(s)
    ensures Conserved(FailStep(s, h))
  {
    var t := FailStep(s, h);
    if t != s {
      MoveConserves(s, t, h, Failing(s.handlers[h].batch));
    }
  }

  lemma RequeueConserves(s: State, h: nat, accepted: bool)
    requires Conserved(s)
    ensures Conserved(RequeueStep(s, h, accepted))
  {
    var t := RequeueStep(s, h, accepted);
    if t != s {
      LPushKeepsItems(s.queue, s.handlers[h].batch);
      MoveConserves(s, t, h, Finished(if accepted then Error else Aborted));
    }
  }

  lemma CancelConserves(s: State, h: nat)
    requires Conserved(s)
    ensures Conserved(CancelStep(s, h))
  {
    var t := CancelStep(s, h);
    if t != s {
      MoveConserves(s, t, h, Finished(Aborted));
    }
  }

  lemma CronConserves(s: State, h: nat, size: int)
    requires Conserved(s)
    ensures Conserved(CronStep(s, h, size))
  {
    var t := CronStep(s, h, size);
    if t != s {
      MoveConserves(s, t, h, t.handlers[h]);
    }
  }

  lemma StepConserves(s: State, step: Step)
    requires Conserved(s)
    ensures Conserved(Apply(s, step))
  {
    match step
    case Push(h, item, size) => PushConserves(s, h, item, size);
    case CronCheck(h, size) => CronConserves(s, h, size);
    case Pop(h) => PopConserves(s, h);
    case WriteOne(h, item) => WriteConserves(s, h, item);
    case Complete(h) => CompleteConserves(s, h);
    case Fail(h) => FailConserves(s, h);
    case Requeue(h, accepted) => RequeueConserves(s, h, accepted);
    case Cancel(h) => CancelConserves(s, h);
  }

  lemma {:induction false} RunConserves(steps: seq<Step>)
    ensures Conserved(Run(steps))
  {
    if steps != [] {
      RunConserves(steps[..|steps| - 1]);
      StepConserves(Run(steps[..|steps| - 1]), steps[|steps| - 1]);
    }
  }

  /** No cancellation, and Redis takes the list that a failed batch is put back with. */
  predicate Harmless(steps: seq<Step>) {
    forall i :: 0 <= i < |steps| ==> !steps[i].Cancel? && !(steps[i].Requeue? && !steps[i].accepted)
  }

  /**
   * In every run each push is accounted for exactly once: in the queue, in some handler's
   * batch, in a completed batch or lost; a completed item is in the table, and the table
   * holds nothing that was not pushed.
   */
  lemma EveryPushIsAccountedFor(steps: seq<Step>)
    ensures var s := Run(steps);
            && Pushed(s) == multiset(s.queue) + InFlight(s.handlers) + s.completed + s.lost
            && (forall x :: x in s.completed ==> x in s.applied)
            && (forall x :: x in s.applied ==> x in Pushed(s))
  {
    RunConserves(steps);
  }

  lemma StepLosesNothing(s: State, step: Step)
    requires !step.Cancel? && !(step.Requeue? && !step.accepted)
    ensures Apply(s, step).lost == s.lost
  {
  }

  lemma {:induction false} RunLosesNothing(steps: seq<Step>)
    requires Harmless(steps)
    ensures Run(steps).lost == multiset{}
  {
    if steps != [] {
      RunLosesNothing(steps[..|steps| - 1]);
      StepLosesNothing(Run(steps[..|steps| - 1]), steps[|steps| - 1]);
    }
  }

  /**
   * Without cancellation, and if the requeue is accepted, nothing is lost: every item pushed is queued,
   * held or in the table.
   */
  lemma NothingIsLost(steps: seq<Step>)
    requires Harmless(steps)
    ensures var s := Run(steps);
            forall x :: x in Pushed(s) ==> x in s.queue || x in InFlight(s.handlers) || x in s.applied
  {
    RunLosesNothing(steps);
    EveryPushIsAccountedFor(steps);
    var s := Run(steps);
    forall x | x in Pushed(s) ensures x in s.queue || x in InFlight(s.handlers) || x in s.applied {
      assert x in multiset(s.queue) + InFlight(s.handlers) + s.completed + s.lost;
    }
  }

  /** A handler that completes has written every distinct item of its batch, and counted each once. */
  lemma CompletionWritesTheBatch(steps: seq<Step>, h: nat)
    requires var s := Run(steps); h in s.handlers && s.handlers[h].Writing? && s.handlers[h].todo == {}
    ensures var s := Run(steps);
            && Elements(s.handlers[h].batch) <= s.applied
            && CompleteStep(s, h).handlers[h] == Finished(Updated(|Elements(s.handlers[h].batch)|))
  {
    var s := Run(steps);
    RunConserves(steps);
    WritingDone(s, h);
  }

  lemma WritingDone(s: State, h: nat)
    requires Conserved(s) && h in s.handlers && s.handlers[h].Writing? && s.handlers[h].todo == {}
    ensures Elements(s.handlers[h].batch) <= s.applied
    ensures CompleteStep(s, h).handlers[h] == Finished(Updated(|Elements(s.handlers[h].batch)|))
  {
    assert HandlerOk(s, s.handlers[h]);
  }

  // ----- order -----

  lemma {:induction false} ReverseConcat<T>(a: seq<T>, b: seq<T>)
    ensures Reverse(a + b) == Reverse(b) + Reverse(a)
  {
    if a == [] {
      assert a + b == b;
    } else {
      assert (a + b)[1..] == a[1..] + b;
      ReverseConcat(a[1..], b);
    }
  }

  /** The pops so far, and then the queue from its right end, are what entered the queue, in order. */
  ghost predicate InOrder(s: State) {
    s.entered == s.pops + Reverse(s.queue)
  }

  lemma LPushInOrder(queue: seq<Item>, items: seq<Item>)
    ensures Reverse(LPush(queue, items)) == Reverse(queue) + items
  {
    ReverseConcat(Reverse(items), queue);
    ReverseTwice(items);
  }

  lemma {:induction false} ReverseTwice<T>(s: seq<T>)
    ensures Reverse(Reverse(s)) == s
  {
    if s != [] {
      ReverseConcat(Reverse(s[1..]), [s[0]]);
      ReverseTwice(s[1..]);
      assert Reverse([s[0]]) == [s[0]];
      assert s == [s[0]] + s[1..];
    }
  }

  lemma EntryKeepsOrder(s: State, t: State, items: seq<Item>)
    requires InOrder(s)
    requires t.queue == LPush(s.queue, items) && t.entered == s.entered + items && t.pops == s.pops
    ensures InOrder(t)
  {
    LPushInOrder(s.queue, items);
  }

  lemma RPopInOrder(queue: seq<Item>, n: nat)
    ensures var (rest, batch) := RPop(queue, n);
            Reverse(queue) == batch + Reverse(rest) && (batch == [] ==> rest == queue)
  {
    var k := if n <= |queue| then |queue| - n else 0;
    assert queue == queue[..k] + queue[k..];
    ReverseConcat(queue[..k], queue[k..]);
  }

  lemma PopKeepsOrder(s: State, h: nat)
    requires InOrder(s)
    ensures InOrder(PopStep(s, h))
  {
    if h in s.handlers && s.handlers[h].Full? && s.handlers[h].popCount >= 0 {
      RPopInOrder(s.queue, s.handlers[h].popCount);
    }
  }

  lemma StepKeepsOrder(s: State, step: Step)
    requires InOrder(s)
    ensures InOrder(Apply(s, step))
  {
    match step
    case Push(h, item, size) =>
      if h !in s.handlers {
        EntryKeepsOrder(s, PushStep(s, h, item, size), [item]);
      }
    case Pop(h) => PopKeepsOrder(s, h);
    case Requeue(h, accepted) =>
      if h in s.handlers && s.handlers[h].Failing? && accepted {
        EntryKeepsOrder(s, RequeueStep(s, h, accepted), s.handlers[h].batch);
      }
    case _ =>
  }

  /** In every run, items leave the queue in the order they entered it, by a push or a requeue, whoever pops. */
  lemma {:induction false} PopsAreInEntryOrder(steps: seq<Step>)
    ensures InOrder(Run(steps))
  {
    if steps != [] {
      PopsAreInEntryOrder(steps[..|steps| - 1]);
      StepKeepsOrder(Run(steps[..|steps| - 1]), steps[|steps| - 1]);
    }
  }

  /** What entered is the pushes and what was put back; nothing was put back exactly if it is the pushes. */
  lemma {:induction false} EntriesCount(steps: seq<Step>)
    ensures var s := Run(steps);
            |s.entered| == |s.pushes| + s.requeued && (s.requeued == 0 ==> s.entered == s.pushes)
  {
    if steps != [] {
      EntriesCount(steps[..|steps| - 1]);
      StepCountsEntries(Run(steps[..|steps| - 1]), steps[|steps| - 1]);
    }
  }

  lemma StepCountsEntries(s: State, step: Step)
    requires |s.entered| == |s.pushes| + s.requeued && (s.requeued == 0 ==> s.entered == s.pushes)
    ensures var t := Apply(s, step);
            |t.entered| == |t.pushes| + t.requeued && (t.requeued == 0 ==> t.entered == t.pushes)
  {
  }

  /**
   * Items leave the queue in the order they were pushed, whoever pops, as long as nothing is put back; after that
   * the two cannot agree, as what is put back enters again.
   */
  lemma PopsAreInPushOrder(steps: seq<Step>)
    ensures var s := Run(steps); s.pushes == s.pops + Reverse(s.queue) <==> s.requeued == 0
  {
    PopsAreInEntryOrder(steps);
    EntriesCount(steps);
  }

  lemma EntriesStay(s: State, step: Step)
    ensures s.entered <= Apply(s, step).entered
  {
  }

  lemma {:induction false} EntriesGrow(steps: seq<Step>, more: seq<Step>)
    ensures Run(steps).entered <= Run(steps + more).entered
  {
    if more == [] {
      assert steps + more == steps;
    } else {
      var m := |more| - 1;
      EntriesGrow(steps, more[..m]);
      RunSnoc(steps + more[..m], more[m]);
      assert steps + more == (steps + more[..m]) + [more[m]];
      EntriesStay(Run(steps + more[..m]), more[m]);
    }
  }

  /**
   * A batch that is put back waits its turn: in every continuation of the run, the items of
   * the batch come out in their old order, after everything popped so far and everything
   * that was queued when they were put back, and before anything that enters later.
   */
  lemma RequeuedBatchWaitsItsTurn(steps: seq<Step>, h: nat, more: seq<Step>)
    requires var s := Run(steps); h in s.handlers && s.handlers[h].Failing?
    ensures var s := Run(steps);
            var t := Run((steps + [Requeue(h, true)]) + more);
            s.pops + Reverse(s.queue) + s.handlers[h].batch <= t.pops + Reverse(t.queue)
  {
    RunSnoc(steps, Requeue(h, true));
    PopsAreInEntryOrder(steps);
    EntriesGrow(steps + [Requeue(h, true)], more);
    PopsAreInEntryOrder((steps + [Requeue(h, true)]) + more);
  }

  lemma StepMovesOne(s: State, step: Step)
    ensures OnlyMoves(s, Apply(s, step), step.h)
  {
  }

  lemma RunSnoc(steps: seq<Step>, step: Step)
    ensures Run(steps + [step]) == Apply(Run(steps), step)
  {
    assert (steps + [step])[..|steps|] == steps;
  }
}
