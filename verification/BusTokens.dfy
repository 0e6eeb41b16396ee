/** The slot semaphore and the ledger of a queued bus route under fine interleaving
    (RouteState::accept, drain_one and clear_pending in include/solar/bus/facility.hpp).

    Taking a slot, storing a message, counting it, removing a message, giving the slot back, starting
    and finishing the handler are separate steps, in any interleaving of any number of producers and
    consumers.
 */
module BusTokens {
  import opened Rings
  import opened Sequences

  /** A producer: outside accept, holding a slot, past a failed take that will drop the oldest, or
      stored but not yet counted as accepted. */
  datatype Producer = Resting | Holding(message: int) | Dropping(message: int) | Counting

  /** A consumer: outside drain_one, between its removal and its give, about to start the handler, or
      inside it. */
  datatype Consumer = Waiting | Owing | Given | Delivering

  /** The route's counters; `uncounted` are messages a clear removed and has not counted yet. */
  datatype Ledger = Ledger(accepted: nat, droppedOldest: nat, delivered: nat, cancelled: nat, uncounted: nat)

  datatype State = State(
    dropOldest: bool,
    slots: nat,
    cells: seq<int>,
    head: nat,
    tail: nat,
    count: nat,
    producers: seq<Producer>,
    consumers: seq<Consumer>,
    ledger: Ledger)

  datatype Action =
    | TakeSlot(producer: nat, message: int)
    | TakeFails(producer: nat, message: int)
    | Store(producer: nat)
    | DropAndStore(producer: nat)
    | CountAccepted(producer: nat)
    | Remove(consumer: nat)
    | Give(consumer: nat)
    | StartHandler(consumer: nat)
    | FinishHandler(consumer: nat)
    | Clear
    | CountCancelled(removed: nat)

  const HOLDS: Producer -> bool := (p: Producer) => p.Holding?
  const OWES: Consumer -> bool := (c: Consumer) => c.Owing?

  function Initial(capacity: nat, dropOldest: bool, producers: nat, consumers: nat): State
  {
    State(dropOldest, capacity, seq(capacity, _ => 0), 0, 0, 0,
          seq(producers, _ => Resting), seq(consumers, _ => Waiting), Ledger(0, 0, 0, 0, 0))
  }

  predicate Enabled(s: State, a: Action)
  {
    match a
    case TakeSlot(p, _) => p < |s.producers| && s.producers[p].Resting? && s.slots > 0
    case TakeFails(p, _) => p < |s.producers| && s.producers[p].Resting? && s.slots == 0
    case Store(p) => p < |s.producers| && s.producers[p].Holding?
    case DropAndStore(p) => p < |s.producers| && s.producers[p].Dropping?
    case CountAccepted(p) => p < |s.producers| && s.producers[p].Counting?
    case Remove(c) => c < |s.consumers| && s.consumers[c].Waiting? && s.count > 0
    case Give(c) => c < |s.consumers| && s.consumers[c].Owing?
    case StartHandler(c) => c < |s.consumers| && s.consumers[c].Given?
    case FinishHandler(c) => c < |s.consumers| && s.consumers[c].Delivering?
    case Clear => true
    case CountCancelled(n) => n <= s.ledger.uncounted
  }

  /** The indices are in range; no step needs more than this to be defined. */
  predicate Shaped(s: State)
  {
    s.head < |s.cells| && s.tail < |s.cells|
  }

  function Apply(s: State, a: Action): (s': State)
    requires Shaped(s) && Enabled(s, a)
    ensures Shaped(s') && |s'.cells| == |s.cells|
  {
    var n := |s.cells|;
    match a
    case TakeSlot(p, m) => s.(slots := s.slots - 1, producers := s.producers[p := Holding(m)])
    case TakeFails(p, m) => s.(producers := s.producers[p := if s.dropOldest then Dropping(m) else Resting])
    case Store(p) =>
      s.(cells := s.cells[s.tail := s.producers[p].message], tail := Slot(s.tail, 1, n),
         count := s.count + 1, producers := s.producers[p := Counting])
    case DropAndStore(p) =>
      // the count goes down and up again, so it keeps its value even when it was zero
      s.(head := Slot(s.head, 1, n), cells := s.cells[s.tail := s.producers[p].message],
         tail := Slot(s.tail, 1, n), producers := s.producers[p := Counting],
         ledger := s.ledger.(droppedOldest := s.ledger.droppedOldest + 1))
    case CountAccepted(p) =>
      s.(producers := s.producers[p := Resting], ledger := s.ledger.(accepted := s.ledger.accepted + 1))
    case Remove(c) =>
      s.(head := Slot(s.head, 1, n), count := s.count - 1, consumers := s.consumers[c := Owing])
    case Give(c) =>
      s.(slots := if s.slots < n then s.slots + 1 else n, consumers := s.consumers[c := Given])
    case StartHandler(c) => s.(consumers := s.consumers[c := Delivering])
    case FinishHandler(c) =>
      s.(consumers := s.consumers[c := Waiting], ledger := s.ledger.(delivered := s.ledger.delivered + 1))
    case Clear =>
      s.(head := 0, tail := 0, count := 0, slots := n,
         ledger := s.ledger.(uncounted := s.ledger.uncounted + s.count))
    case CountCancelled(k) =>
      s.(ledger := s.ledger.(uncounted := s.ledger.uncounted - k, cancelled := s.ledger.cancelled + k))
  }

  // ---------------------------------------------------------------- conservation

  /** Every slot is free, filled, held by a producer, or owed by a consumer. */
  ghost predicate Conserved(s: State)
  {
    && Shaped(s)
    && s.slots + s.count + Count(s.producers, HOLDS) + Count(s.consumers, OWES) == |s.cells|
    && s.tail == Slot(s.head, s.count, |s.cells|)
  }

  /** The unread messages, oldest first. */
  ghost function Unread(s: State): seq<int>
    requires s.head < |s.cells| && s.count <= |s.cells|
  {
    Window(s.cells, s.head, s.count)
  }

  /** Clearing is safe when nobody is between two halves of an operation. */
  ghost predicate Calm(s: State, a: Action)
  {
    a.Clear? ==> Count(s.producers, HOLDS) == 0 && Count(s.consumers, OWES) == 0
  }

  predicate ByProducer(a: Action)
  {
    a.TakeSlot? || a.TakeFails? || a.Store? || a.DropAndStore? || a.CountAccepted?
  }

  predicate ByConsumer(a: Action)
  {
    a.Remove? || a.Give? || a.StartHandler? || a.FinishHandler?
  }

  lemma ProducerConserves(s: State, a: Action)
    requires Conserved(s) && Enabled(s, a) && ByProducer(a)
    ensures Conserved(Apply(s, a))
  {
    CountUpdate(s.producers, a.producer, Apply(s, a).producers[a.producer], HOLDS);
  }

  lemma ConsumerConserves(s: State, a: Action)
    requires Conserved(s) && Enabled(s, a) && ByConsumer(a)
    ensures Conserved(Apply(s, a))
  {
    CountUpdate(s.consumers, a.consumer, Apply(s, a).consumers[a.consumer], OWES);
  }

  /** Every step keeps conservation, except exactly a clear that meets somebody halfway. */
  lemma ConservedStep(s: State, a: Action)
    requires Conserved(s) && Enabled(s, a)
    ensures Conserved(Apply(s, a)) <==> Calm(s, a)
  {
    if ByProducer(a) {
      ProducerConserves(s, a);
    } else if ByConsumer(a) {
      ConsumerConserves(s, a);
    }
  }

  /** A store never overwrites an unread message: it appends to them. */
  lemma StoreAppends(s: State, p: nat)
    requires Conserved(s) && Enabled(s, Store(p))
    ensures s.count < |s.cells|
    ensures Unread(Apply(s, Store(p))) == Unread(s) + [s.producers[p].message]
  {
    CountUpdate(s.producers, p, Counting, HOLDS);
    WindowPush(s.cells, s.head, s.count, s.producers[p].message);
  }

  lemma RemoveTakesOldest(s: State, c: nat)
    requires Conserved(s) && Enabled(s, Remove(c))
    ensures Unread(Apply(s, Remove(c))) == Unread(s)[1..]
  {
    WindowPop(s.cells, s.head, s.count);
  }

  /** Dropping the oldest keeps the new message exactly when something was still unread: if the
      consumers emptied the queue after the failed take, the new message itself disappears. */
  lemma DropAndStoreEffect(s: State, p: nat)
    requires Conserved(s) && Enabled(s, DropAndStore(p))
    ensures Conserved(Apply(s, DropAndStore(p)))
    ensures Unread(Apply(s, DropAndStore(p)))
         == if s.count > 0 then Unread(s)[1..] + [s.producers[p].message] else []
  {
    ConservedStep(s, DropAndStore(p));
    if s.count > 0 {
      var n := |s.cells|;
      WindowPop(s.cells, s.head, s.count);
      WindowPush(s.cells, Slot(s.head, 1, n), s.count - 1, s.producers[p].message);
    }
  }

  // ---------------------------------------------------------------- the ledger

  const COUNTS: Producer -> bool := (p: Producer) => p.Counting?
  const BUSY: Consumer -> bool := (c: Consumer) => !c.Waiting?

  /** Every stored message, counted as accepted or about to be, was delivered, is with a consumer, is
      still stored, was dropped as the oldest, or was cleared, counted as cancelled or about to be. */
  ghost predicate Balanced(s: State)
  {
    s.ledger.accepted + Count(s.producers, COUNTS)
      == s.ledger.delivered + Count(s.consumers, BUSY) + s.count
         + s.ledger.droppedOldest + s.ledger.cancelled + s.ledger.uncounted
  }

  lemma ProducerBalances(s: State, a: Action)
    requires Shaped(s) && Enabled(s, a) && Balanced(s)
    requires ByProducer(a)
    ensures Balanced(Apply(s, a))
  {
    CountUpdate(s.producers, a.producer, Apply(s, a).producers[a.producer], COUNTS);
  }

  lemma ConsumerBalances(s: State, a: Action)
    requires Shaped(s) && Enabled(s, a) && Balanced(s)
    requires ByConsumer(a)
    ensures Balanced(Apply(s, a))
  {
    CountUpdate(s.consumers, a.consumer, Apply(s, a).consumers[a.consumer], BUSY);
  }

  lemma BalancedStep(s: State, a: Action)
    requires Shaped(s) && Enabled(s, a) && Balanced(s)
    ensures Balanced(Apply(s, a))
  {
    if ByProducer(a) {
      ProducerBalances(s, a);
    } else if ByConsumer(a) {
      ConsumerBalances(s, a);
    }
  }

  // ---------------------------------------------------------------- runs

  ghost function Run(s0: State, actions: seq<Action>): (s: State)
    requires Shaped(s0)
    ensures Shaped(s)
  {
    if actions == [] then s0
    else
      var s := Run(s0, actions[..|actions| - 1]);
      var a := actions[|actions| - 1];
      if Enabled(s, a) then Apply(s, a) else s
  }

  /** Every clear in the run happens while no producer and no consumer is halfway. */
  ghost predicate CalmRun(s0: State, actions: seq<Action>)
    requires Shaped(s0)
  {
    forall i :: 0 <= i < |actions| ==> Calm(Run(s0, actions[..i]), actions[i])
  }

  /** Slots are conserved over every interleaving, under every overflow policy. */
  lemma {:induction false} TokensConserved(capacity: nat, dropOldest: bool, producers: nat, consumers: nat,
                                           actions: seq<Action>)
    requires capacity > 0
    requires CalmRun(Initial(capacity, dropOldest, producers, consumers), actions)
    ensures Conserved(Run(Initial(capacity, dropOldest, producers, consumers), actions))
  {
    var s0 := Initial(capacity, dropOldest, producers, consumers);
    if actions == [] {
      CountNone(s0.producers, HOLDS);
      CountNone(s0.consumers, OWES);
    } else {
      var init, a := actions[..|actions| - 1], actions[|actions| - 1];
      assert forall i :: 0 <= i < |init| ==> init[..i] == actions[..i] && init[i] == actions[i];
      TokensConserved(capacity, dropOldest, producers, consumers, init);
      if Enabled(Run(s0, init), a) {
        ConservedStep(Run(s0, init), a);
      }
    }
  }

  /** The semaphore is within its limit, and only a drop-oldest route ever drops. */
  ghost predicate KeepsPolicy(s: State, dropOldest: bool)
  {
    && s.dropOldest == dropOldest && s.slots <= |s.cells|
    && (!dropOldest ==> s.ledger.droppedOldest == 0 && forall p :: 0 <= p < |s.producers| ==> !s.producers[p].Dropping?)
  }

  lemma KeepsPolicyStep(s: State, a: Action, dropOldest: bool)
    requires Shaped(s) && Enabled(s, a) && KeepsPolicy(s, dropOldest)
    ensures KeepsPolicy(Apply(s, a), dropOldest)
  {
  }

  /** Over every interleaving, clears at any moment included. */
  lemma {:induction false} RunsKeepPolicy(capacity: nat, dropOldest: bool, producers: nat, consumers: nat,
                                          actions: seq<Action>)
    requires capacity > 0
    ensures KeepsPolicy(Run(Initial(capacity, dropOldest, producers, consumers), actions), dropOldest)
  {
    var s0 := Initial(capacity, dropOldest, producers, consumers);
    if actions != [] {
      var init, a := actions[..|actions| - 1], actions[|actions| - 1];
      RunsKeepPolicy(capacity, dropOldest, producers, consumers, init);
      if Enabled(Run(s0, init), a) {
        KeepsPolicyStep(Run(s0, init), a, dropOldest);
      }
    }
  }

  /** The ledger balances over every interleaving, clears at any moment included; with nobody halfway it
      reads accepted = delivered + pending + dropped oldest + cancelled. */
  lemma {:induction false} LedgerBalances(capacity: nat, dropOldest: bool, producers: nat, consumers: nat,
                                          actions: seq<Action>)
    requires capacity > 0
    ensures var s := Run(Initial(capacity, dropOldest, producers, consumers), actions);
            && Balanced(s)
            && ((forall i :: 0 <= i < |s.producers| ==> !s.producers[i].Counting?)
                && (forall i :: 0 <= i < |s.consumers| ==> s.consumers[i].Waiting?) && s.ledger.uncounted == 0 ==>
                  s.ledger.accepted == s.ledger.delivered + s.count + s.ledger.droppedOldest + s.ledger.cancelled)
  {
    var s0 := Initial(capacity, dropOldest, producers, consumers);
    var s := Run(s0, actions);
    CountNone(s0.producers, COUNTS);
    CountNone(s0.consumers, BUSY);
    BalancedAlong(s0, actions);
    if forall i :: 0 <= i < |s.producers| ==> !s.producers[i].Counting? {
      CountNone(s.producers, COUNTS);
    }
    if forall i :: 0 <= i < |s.consumers| ==> s.consumers[i].Waiting? {
      CountNone(s.consumers, BUSY);
    }
  }

  lemma BalancedFrom(s0: State, init: seq<Action>, a: Action, s: State)
    requires Shaped(s0) && s == Run(s0, init) && Balanced(s)
    ensures Balanced(Run(s0, init + [a]))
  {
    assert (init + [a])[..|init|] == init;
    if Enabled(s, a) {
      BalancedStep(s, a);
    }
  }

  lemma {:induction false} BalancedAlong(s0: State, actions: seq<Action>)
    requires Shaped(s0) && Balanced(s0)
    ensures Balanced(Run(s0, actions))
  {
    if actions != [] {
      var init, a := actions[..|actions| - 1], actions[|actions| - 1];
      BalancedAlong(s0, init);
      BalancedFrom(s0, init, a, Run(s0, init));
      assert init + [a] == actions;
    }
  }

  // ---------------------------------------------------------------- what can go wrong

  ghost predicate Reaches(s0: State, s: State)
    requires Shaped(s0)
  {
    exists actions :: Run(s0, actions) == s
  }

  lemma ReachStep(s0: State, s: State, a: Action, s': State)
    requires Shaped(s0) && Reaches(s0, s) && Shaped(s) && Enabled(s, a) && Apply(s, a) == s'
    ensures Reaches(s0, s')
  {
    var actions :| Run(s0, actions) == s;
    assert (actions + [a])[..|actions|] == actions;
    assert Run(s0, actions + [a]) == s';
  }

  /** A clear between a take and its store lets two producers fill a one-element queue twice. */
  lemma ClearWhileHoldingOverfills()
    ensures exists s :: Reaches(Initial(1, false, 2, 0), s) && s.count == 2 && |s.cells| == 1
  {
    var s0 := State(false, 1, [0], 0, 0, 0, [Resting, Resting], [], Ledger(0, 0, 0, 0, 0));
    assert Initial(1, false, 2, 0) == s0;
    assert Run(s0, []) == s0;
    var s1 := s0.(slots := 0, producers := [Holding(7), Resting]);
    ReachStep(s0, s0, TakeSlot(0, 7), s1);
    var s2 := s1.(slots := 1);
    ReachStep(s0, s1, Clear, s2);
    var s3 := s2.(slots := 0, producers := [Holding(7), Holding(8)]);
    ReachStep(s0, s2, TakeSlot(1, 8), s3);
    StoreTwice(s0, s3);
  }

  lemma StoreTwice(s0: State, s3: State)
    requires Shaped(s0) && Reaches(s0, s3)
    requires s3 == State(false, 0, [0], 0, 0, 0, [Holding(7), Holding(8)], [], Ledger(0, 0, 0, 0, 0))
    ensures exists s :: Reaches(s0, s) && s.count == 2 && |s.cells| == 1
  {
    var s4 := s3.(cells := [7], count := 1, producers := [Counting, Holding(8)]);
    ReachStep(s0, s3, Store(0), s4);
    var s5 := s4.(cells := [8], count := 2, producers := [Counting, Counting]);
    ReachStep(s0, s4, Store(1), s5);
  }

  /** A drop-oldest accept can lose its own message: the queue drains after the take failed. */
  lemma DropOldestCanLoseTheNewest()
    ensures exists s :: Reaches(Initial(1, true, 2, 1), s)
                        && s.count == 0 && s.producers == [Counting, Counting] && s.cells == [8]
  {
    var s0 := State(true, 1, [0], 0, 0, 0, [Resting, Resting], [Waiting], Ledger(0, 0, 0, 0, 0));
    assert Initial(1, true, 2, 1) == s0;
    assert Run(s0, []) == s0;
    var s1 := s0.(slots := 0, producers := [Holding(7), Resting]);
    ReachStep(s0, s0, TakeSlot(0, 7), s1);
    var s2 := s1.(cells := [7], count := 1, producers := [Counting, Resting]);
    ReachStep(s0, s1, Store(0), s2);
    var s3 := s2.(producers := [Counting, Dropping(8)]);
    ReachStep(s0, s2, TakeFails(1, 8), s3);
    DrainThenDrop(s0, s3);
  }

  lemma DrainThenDrop(s0: State, s3: State)
    requires Shaped(s0) && Reaches(s0, s3)
    requires s3 == State(true, 0, [7], 0, 0, 1, [Counting, Dropping(8)], [Waiting], Ledger(0, 0, 0, 0, 0))
    ensures exists s :: Reaches(s0, s) && s.count == 0 && s.producers == [Counting, Counting] && s.cells == [8]
  {
    var s4 := s3.(count := 0, consumers := [Owing]);
    ReachStep(s0, s3, Remove(0), s4);
    var s5 := s4.(slots := 1, consumers := [Given]);
    ReachStep(s0, s4, Give(0), s5);
    var s6 := s5.(cells := [8], producers := [Counting, Counting], ledger := Ledger(0, 1, 0, 0, 0));
    ReachStep(s0, s5, DropAndStore(1), s6);
  }
}
