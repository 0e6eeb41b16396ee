/** Every run of the event facility: well-formed tables, one FIFO, one log
    (include/solar/events/runtime.hpp).
 */
module EventOrdering {
  import opened Basics
  import opened EventPipeline
  import opened Sequences

  // ---------------------------------------------------------------- aggregation tables

  /** A slot is occupied exactly when it counts something, and it remembers its last record. */
  ghost predicate SlotsOk(slots: seq<Slot>, event: nat)
  {
    && (forall i :: 0 <= i < |slots| ==> SlotOk(slots[i], event))
    && (forall i, j :: 0 <= i < j < |slots| && slots[i].occupied && slots[j].occupied
          ==> slots[i].key != slots[j].key)
  }

  ghost predicate SlotOk(slot: Slot, event: nat)
  {
    && (slot.occupied <==> slot.count > 0)
    && (slot.occupied ==> slot.last.Some? && slot.last.value.header.event == event)
  }

  // ---------------------------------------------------------------- shape of every state

  ghost predicate RingsOk(cfg: Config, rings: seq<seq<Rec>>)
  {
    forall k, i :: 0 <= k < |rings| && 0 <= i < |rings[k]| ==>
      rings[k][i].header.event < |cfg.events| && cfg.RingOf(rings[k][i]) == k
  }

  ghost predicate Ready(cfg: Config, s: System)
  {
    && Shaped(cfg, s.fac)
    && |s.discarded| == |cfg.events|
    && HeldInRange(cfg, s)
    && RingsOk(cfg, s.fac.rings)
    && forall e :: 0 <= e < |s.fac.events| ==> SlotsOk(s.fac.events[e].slots, e)
  }

  lemma ReadyAtStart(cfg: Config)
    requires cfg.Valid()
    ensures Ready(cfg, Start0(cfg))
  {
  }

  /** Replacing a slot by an open one of its own key, or by an empty one, keeps the table. */
  lemma SlotsOkUpdate(slots: seq<Slot>, event: nat, i: nat, slot: Slot)
    requires SlotsOk(slots, event) && i < |slots| && SlotOk(slot, event)
    requires slot.occupied ==> forall j :: 0 <= j < |slots| && j != i && slots[j].occupied ==> slots[j].key != slot.key
    ensures SlotsOk(slots[i := slot], event)
  {
  }

  lemma AggregateEffect(c: EventConfig, e: EventState, o: Observation, r: Rec)
    requires c.capture.Aggregate? && SlotsOk(e.slots, o.event) && r.header.event == o.event
    ensures var (e', d) := DecideAggregate(c, e, o, r);
      && SlotsOk(e'.slots, o.event) && |e'.slots| == |e.slots|
      && e'.history == e.history && e'.inflight == e.inflight
      && (d.Emit? ==> d.record.header.event == o.event && d.record.header.context == r.header.context)
      && (d.Skip? ==> !d.outcome.Captured? && !d.outcome.Refused?)
  {
    var found := FindSlot(e.slots, o.key);
    FindSlotIsFirst(e.slots, o.key);
    if found.Some? {
      var k := found.value;
      assert SlotOk(e.slots[k], o.event);
      match Accumulate(e.slots[k], o.key, r, o.now, c.capture.window)
      case Held(slot) => SlotsOkUpdate(e.slots, o.event, k, slot);
      case Closing(_) => SlotsOkUpdate(e.slots, o.event, k, EMPTY_SLOT);
    }
  }

  /** What one event's capture policy may touch, and what it hands on. */
  lemma DecideEffect(c: EventConfig, e: EventState, o: Observation)
    requires c.capture.SampleEvery? ==> c.capture.period > 0
    requires SlotsOk(e.slots, o.event)
    ensures var (e', d) := Decide(c, e, o);
      && SlotsOk(e'.slots, o.event) && |e'.slots| == |e.slots|
      && e'.history == e.history && e'.inflight == e.inflight
      && (d.Emit? ==> d.record.header.event == o.event
                      && (d.record.header.context.IsrContext? <==> o.isr))
      && (d.Skip? ==> !d.outcome.Captured? && !d.outcome.Refused?)
  {
    if c.capture.Aggregate? {
      var attempted := e.(attempts := e.attempts + 1);
      AggregateEffect(c, attempted.(windowStart := e.windowStart), o, MakeRecord(c, e.policyCounter, o));
    }
  }

  lemma RingsOkPush(cfg: Config, rings: seq<seq<Rec>>, k: nat, r: Rec)
    requires RingsOk(cfg, rings) && k < |rings|
    requires r.header.event < |cfg.events| && cfg.RingOf(r) == k
    ensures RingsOk(cfg, rings[k := rings[k] + [r]])
  {
  }

  lemma RingsOkPop(cfg: Config, rings: seq<seq<Rec>>, k: nat)
    requires RingsOk(cfg, rings) && k < |rings| && rings[k] != []
    ensures RingsOk(cfg, rings[k := rings[k][1..]])
  {
  }

  /** A captured record takes the next number and goes to the end of the ring of its kind. */
  lemma CaptureEffect(cfg: Config, s: System, o: Observation)
    requires Ready(cfg, s) && o.event < |cfg.events|
    ensures var (fac, outcome) := CaptureEvent(cfg, s.fac, o);
      && Ready(cfg, s.(fac := fac))
      && (forall e :: 0 <= e < |cfg.events| && e != o.event ==> fac.events[e] == s.fac.events[e])
      && fac.events[o.event].history == s.fac.events[o.event].history
      && fac.events[o.event].inflight == s.fac.events[o.event].inflight
      && fac.log == s.fac.log && fac.evicted == s.fac.evicted && fac.accepting == s.fac.accepting
      && if !outcome.Captured? then
           fac.rings == s.fac.rings && fac.nextSequence == s.fac.nextSequence
           && fac.accepted == s.fac.accepted
         else
           var k := cfg.RingFor(o.event, o.isr);
           && outcome.record.header.event == o.event
           && outcome.record.header.sequence == s.fac.nextSequence
           && cfg.RingOf(outcome.record) == k
           && fac.rings == s.fac.rings[k := s.fac.rings[k] + [outcome.record]]
           && fac.nextSequence == s.fac.nextSequence + 1
           && fac.accepted == s.fac.accepted + 1
           && (cfg.IsCritical(o.event) ==>
                 |s.fac.rings[k]| + |fac.events[o.event].history| + fac.events[o.event].inflight
                   < cfg.Reserved(o.event))
  {
    if s.fac.accepting {
      var (e, d) := Decide(cfg.events[o.event], s.fac.events[o.event], o);
      DecideEffect(cfg.events[o.event], s.fac.events[o.event], o);
      var (fac, outcome) := CaptureEvent(cfg, s.fac, o);
      if outcome.Captured? {
        RingsOkPush(cfg, s.fac.rings, cfg.RingFor(o.event, o.isr), outcome.record);
      }
    }
  }

  // ---------------------------------------------------------------- what the other operations touch

  /** A pop takes the least front, and of the events it touches only the in-flight counts. */
  lemma PopEffect(s: Facility)
    requires |s.rings| == 2 + |s.events|
    ensures var (s', r) := PopNext(s);
      var k := Earliest(s.rings, |s.rings|);
      && |s'.events| == |s.events|
      && (k.None? ==> s' == s && r.None?)
      && (k.Some? ==> r == Some(s.rings[k.value][0]) && s'.rings == s.rings[k.value := s.rings[k.value][1..]]
                      && s'.log == s.log && s'.evicted == s.evicted && s'.accepting == s.accepting
                      && s'.nextSequence == s.nextSequence && s'.accepted == s.accepted)
      && (forall e :: 0 <= e < |s.events| ==>
            s'.events[e] == if k == Some(2 + e) then s.events[e].(inflight := s.events[e].inflight + 1) else s.events[e])
  {
  }

  /** Retention leaves the rings, the numbering and the slots alone. */
  lemma RetainEffect(cfg: Config, s: Facility, r: Rec, persisted: bool)
    requires Shaped(cfg, s) && r.header.event < |cfg.events|
    ensures var s' := RetainRecord(cfg, s, r, persisted).0;
      && s'.accepting == s.accepting && s'.nextSequence == s.nextSequence && s'.accepted == s.accepted
      && (forall e :: 0 <= e < |s.events| ==> s'.events[e].slots == s.events[e].slots)
  {
  }

  /** A flush gives the first open slot's record a number of its own, and empties the slot. */
  lemma FlushEffect(cfg: Config, s: Facility, event: nat)
    requires Shaped(cfg, s) && event < |cfg.events| && SlotsOk(s.events[event].slots, event)
    ensures var (s', r) := TakeAggregate(cfg, s, event);
      && |s'.events| == |s.events| && s'.rings == s.rings && s'.log == s.log && s'.evicted == s.evicted
      && s'.accepting == s.accepting
      && (forall e :: 0 <= e < |s.events| && e != event ==> s'.events[e] == s.events[e])
      && s'.events[event].history == s.events[event].history
      && s'.events[event].inflight == s.events[event].inflight
      && SlotsOk(s'.events[event].slots, event) && |s'.events[event].slots| == |s.events[event].slots|
      && (r.None? ==> s' == s)
      && (r.Some? ==> r.value.header.event == event && r.value.header.sequence == s.nextSequence
                      && s'.nextSequence == s.nextSequence + 1 && s'.accepted == s.accepted + 1)
  {
    var slots := s.events[event].slots;
    FirstOpenIsFirst(slots);
    var k := FirstOpen(slots);
    if k.Some? {
      assert SlotOk(slots[k.value], event);
      SlotsOkUpdate(slots, event, k.value, EMPTY_SLOT);
    }
  }

  lemma RetainKeepsReady(cfg: Config, s: System, persisted: bool)
    requires Ready(cfg, s) && s.drainer.Popped?
    ensures Ready(cfg, Step(cfg, s, Retain(persisted)))
  {
    RetainEffect(cfg, s.fac, s.drainer.record, persisted);
  }

  lemma FlushKeepsReady(cfg: Config, s: System, event: nat)
    requires Ready(cfg, s) && Enabled(cfg, s, Flush(event))
    ensures Ready(cfg, Step(cfg, s, Flush(event)))
  {
    FlushEffect(cfg, s.fac, event);
  }

  lemma PopKeepsReady(cfg: Config, s: System)
    requires Ready(cfg, s) && s.drainer.Idle?
    ensures Ready(cfg, Step(cfg, s, Pop))
  {
    PopEffect(s.fac);
    var k := Earliest(s.fac.rings, |s.fac.rings|);
    if k.Some? {
      RingsOkPop(cfg, s.fac.rings, k.value);
    }
  }

  lemma ObserveKeepsReady(cfg: Config, s: System, o: Observation)
    requires Ready(cfg, s) && o.event < |cfg.events|
    ensures Ready(cfg, Step(cfg, s, Observe(o)))
  {
    CaptureEffect(cfg, s, o);
  }

  lemma ConcludeKeepsReady(cfg: Config, s: System)
    requires Ready(cfg, s) && s.drainer.Retained?
    ensures Ready(cfg, Step(cfg, s, Conclude))
  {
  }

  lemma StopKeepsReady(cfg: Config, s: System)
    requires Ready(cfg, s)
    ensures Ready(cfg, Step(cfg, s, Stop))
  {
  }

  lemma StartKeepsReady(cfg: Config, s: System)
    requires Ready(cfg, s)
    ensures Ready(cfg, Step(cfg, s, Start))
  {
  }

  lemma ReadyStep(cfg: Config, s: System, op: Op)
    requires Ready(cfg, s) && Enabled(cfg, s, op)
    ensures Ready(cfg, Step(cfg, s, op))
  {
    match op
    case Observe(o) => ObserveKeepsReady(cfg, s, o);
    case Pop => PopKeepsReady(cfg, s);
    case Retain(persisted) => RetainKeepsReady(cfg, s, persisted);
    case Conclude => ConcludeKeepsReady(cfg, s);
    case Stop => StopKeepsReady(cfg, s);
    case Start => StartKeepsReady(cfg, s);
    case Flush(event) => FlushKeepsReady(cfg, s, event);
  }

  /** A run takes operations in any order; one that is not enabled does nothing. */
  ghost function Run(cfg: Config, ops: seq<Op>): (s: System)
    requires cfg.Valid()
    ensures Ready(cfg, s)
  {
    if ops == [] then ReadyAtStart(cfg); Start0(cfg)
    else
      var s := Run(cfg, ops[..|ops| - 1]);
      var op := ops[|ops| - 1];
      if Enabled(cfg, s, op) then ReadyStep(cfg, s, op); Step(cfg, s, op) else s
  }

  // ---------------------------------------------------------------- the rings are one FIFO

  function InRing(cfg: Config, k: nat): Rec -> bool { r => cfg.RingOf(r) == k }

  /** How many admitted records have left the rings. */
  function Taken(s: System): nat
  {
    |s.processed| + (if s.drainer.Idle? then 0 else 1)
  }

  /** The records still waiting, in the order in which they were admitted. */
  ghost function Waiting(s: System): seq<Rec>
    requires Taken(s) <= |s.admitted|
  {
    s.admitted[Taken(s)..]
  }

  /** Each ring is the part of the queue that goes its way. */
  ghost predicate Lanes(cfg: Config, rings: seq<seq<Rec>>, queue: seq<Rec>)
  {
    forall k :: 0 <= k < |rings| ==> rings[k] == Filter(queue, InRing(cfg, k))
  }

  lemma LanesPush(cfg: Config, rings: seq<seq<Rec>>, queue: seq<Rec>, r: Rec)
    requires Lanes(cfg, rings, queue) && cfg.RingOf(r) < |rings|
    ensures Lanes(cfg, rings[cfg.RingOf(r) := rings[cfg.RingOf(r)] + [r]], queue + [r])
  {
    var rings' := rings[cfg.RingOf(r) := rings[cfg.RingOf(r)] + [r]];
    forall k | 0 <= k < |rings'| ensures rings'[k] == Filter(queue + [r], InRing(cfg, k)) {
      FilterSnoc(queue, r, InRing(cfg, k));
    }
  }

  /** Admitted records are numbered 1, 2, 3, ... */
  ghost predicate InSequence(cfg: Config, admitted: seq<Rec>)
  {
    && (forall i :: 0 <= i < |admitted| ==> admitted[i].header.sequence == i + 1)
    && (forall i :: 0 <= i < |admitted| ==> admitted[i].header.event < |cfg.events|)
  }

  lemma InSequenceSnoc(cfg: Config, admitted: seq<Rec>, r: Rec)
    requires InSequence(cfg, admitted) && r.header.event < |cfg.events| && r.header.sequence == |admitted| + 1
    ensures InSequence(cfg, admitted + [r])
  {
  }

  /** All rings together are a single queue, cut apart by destination. */
  ghost predicate OneFifo(cfg: Config, s: System)
  {
    && Taken(s) <= |s.admitted|
    && s.processed == s.admitted[..|s.processed|]
    && (!s.drainer.Idle? ==> s.drainer.record == s.admitted[|s.processed|])
    && s.fac.nextSequence == |s.admitted| + 1
    && s.fac.accepted == |s.admitted|
    && InSequence(cfg, s.admitted)
    && Lanes(cfg, s.fac.rings, Waiting(s))
  }

  /** The merge takes the queue's head: the least front is the oldest waiting record. */
  lemma PopTakesHead(cfg: Config, s: System)
    requires Ready(cfg, s) && OneFifo(cfg, s) && Waiting(s) != []
    ensures Earliest(s.fac.rings, |s.fac.rings|) == Some(cfg.RingOf(Waiting(s)[0]))
    ensures s.fac.rings[cfg.RingOf(Waiting(s)[0])][0] == Waiting(s)[0]
  {
    var w := Waiting(s);
    var k := cfg.RingOf(w[0]);
    assert w[0].header.sequence == Taken(s) + 1;
    assert s.fac.rings[k] == [w[0]] + Filter(w[1..], InRing(cfg, k));
    EarliestIsLeast(s.fac.rings, |s.fac.rings|);
    var best := Earliest(s.fac.rings, |s.fac.rings|).value;
    var front := s.fac.rings[best][0];
    FilterMember(w, InRing(cfg, best), front);
    var i :| 0 <= i < |w| && w[i] == front;
    assert w[i].header.sequence == Taken(s) + 1 + i;
  }

  lemma EmptyRingsNoneWaiting(cfg: Config, s: System)
    requires Ready(cfg, s) && OneFifo(cfg, s) && RingsEmpty(s.fac)
    ensures Waiting(s) == []
  {
    if Waiting(s) != [] {
      PopTakesHead(cfg, s);
    }
  }

  lemma FifoAppend(cfg: Config, s: System, s': System, r: Rec)
    requires |s.fac.rings| == cfg.Rings() && OneFifo(cfg, s) && r.header.event < |cfg.events|
    requires s'.admitted == s.admitted + [r] && r.header.sequence == s.fac.nextSequence
    requires s'.processed == s.processed && s'.drainer == s.drainer
    requires s'.fac.nextSequence == s.fac.nextSequence + 1 && s'.fac.accepted == s.fac.accepted + 1
    requires s'.fac.rings == s.fac.rings[cfg.RingOf(r) := s.fac.rings[cfg.RingOf(r)] + [r]]
    ensures OneFifo(cfg, s')
  {
    InSequenceSnoc(cfg, s.admitted, r);
    assert Waiting(s') == Waiting(s) + [r];
    LanesPush(cfg, s.fac.rings, Waiting(s), r);
    PrefixKept(s.admitted, r, |s.processed|);
  }

  lemma PrefixKept(admitted: seq<Rec>, r: Rec, n: nat)
    requires n <= |admitted|
    ensures (admitted + [r])[..n] == admitted[..n]
  {
  }

  lemma FifoCapture(cfg: Config, s: System, o: Observation)
    requires Ready(cfg, s) && OneFifo(cfg, s) && o.event < |cfg.events|
    ensures OneFifo(cfg, Step(cfg, s, Observe(o)))
  {
    CaptureEffect(cfg, s, o);
    var outcome := CaptureEvent(cfg, s.fac, o).1;
    var s' := Step(cfg, s, Observe(o));
    if outcome.Captured? {
      FifoAppend(cfg, s, s', outcome.record);
    } else {
      assert Waiting(s') == Waiting(s);
    }
  }

  lemma LanesPop(cfg: Config, rings: seq<seq<Rec>>, queue: seq<Rec>)
    requires Lanes(cfg, rings, queue) && queue != [] && cfg.RingOf(queue[0]) < |rings|
    ensures var k := cfg.RingOf(queue[0]);
            rings[k] != [] && Lanes(cfg, rings[k := rings[k][1..]], queue[1..])
  {
    var k := cfg.RingOf(queue[0]);
    assert rings[k] == [queue[0]] + Filter(queue[1..], InRing(cfg, k));
    var rings' := rings[k := rings[k][1..]];
    forall j | 0 <= j < |rings'| ensures rings'[j] == Filter(queue[1..], InRing(cfg, j)) {
      assert rings[j] == Filter(queue, InRing(cfg, j));
    }
  }

  lemma FifoPop(cfg: Config, s: System)
    requires Ready(cfg, s) && OneFifo(cfg, s) && s.drainer.Idle?
    ensures OneFifo(cfg, Step(cfg, s, Pop))
    ensures var s' := Step(cfg, s, Pop);
      if Waiting(s) == [] then s' == s
      else s'.drainer == Popped(Waiting(s)[0]) && Waiting(s') == Waiting(s)[1..]
  {
    var s' := Step(cfg, s, Pop);
    PopEffect(s.fac);
    if Waiting(s) != [] {
      PopTakesHead(cfg, s);
      assert Waiting(s') == Waiting(s)[1..];
      LanesPop(cfg, s.fac.rings, Waiting(s));
    }
  }

  lemma FifoFlush(cfg: Config, s: System, event: nat)
    requires Ready(cfg, s) && OneFifo(cfg, s) && Enabled(cfg, s, Flush(event))
    ensures OneFifo(cfg, Step(cfg, s, Flush(event)))
  {
    EmptyRingsNoneWaiting(cfg, s);
    FlushEffect(cfg, s.fac, event);
    var (fac, r) := TakeAggregate(cfg, s.fac, event);
    if r.Some? {
      FifoHandOver(cfg, s, Step(cfg, s, Flush(event)), r.value);
    }
  }

  /** A record that goes straight to the drainer while nothing waits is the next of the queue. */
  lemma FifoHandOver(cfg: Config, s: System, s': System, r: Rec)
    requires OneFifo(cfg, s) && s.drainer.Idle? && Waiting(s) == []
    requires r.header.event < |cfg.events| && r.header.sequence == s.fac.nextSequence
    requires s'.admitted == s.admitted + [r] && s'.processed == s.processed && s'.drainer == Popped(r)
    requires s'.fac.nextSequence == s.fac.nextSequence + 1 && s'.fac.accepted == s.fac.accepted + 1
    requires s'.fac.rings == s.fac.rings
    ensures OneFifo(cfg, s')
  {
    InSequenceSnoc(cfg, s.admitted, r);
    PrefixKept(s.admitted, r, |s.processed|);
    assert Waiting(s') == [];
  }

  lemma FifoStep(cfg: Config, s: System, op: Op)
    requires Ready(cfg, s) && OneFifo(cfg, s) && Enabled(cfg, s, op) && cfg.drainOnStop
    ensures OneFifo(cfg, Step(cfg, s, op))
  {
    match op
    case Observe(o) => FifoCapture(cfg, s, o);
    case Pop => FifoPop(cfg, s);
    case Flush(event) => FifoFlush(cfg, s, event);
    case Retain(persisted) =>
      var fac := RetainRecord(cfg, s.fac, s.drainer.record, persisted).0;
      assert fac.rings == s.fac.rings && fac.nextSequence == s.fac.nextSequence;
      assert Waiting(Step(cfg, s, op)) == Waiting(s);
    case Conclude =>
      assert Waiting(Step(cfg, s, op)) == Waiting(s);
    case _ =>
      assert Waiting(Step(cfg, s, op)) == Waiting(s);
  }

  /** Over every run with a draining stop: records are numbered 1, 2, 3, ... as they are admitted
      and are processed in exactly that order, without a gap or a repeat. */
  lemma {:induction false} RunsAreFifo(cfg: Config, ops: seq<Op>)
    requires cfg.Valid() && cfg.drainOnStop
    ensures OneFifo(cfg, Run(cfg, ops))
  {
    if ops == [] {
    } else {
      var s := Run(cfg, ops[..|ops| - 1]);
      RunsAreFifo(cfg, ops[..|ops| - 1]);
      if Enabled(cfg, s, ops[|ops| - 1]) {
        FifoStep(cfg, s, ops[|ops| - 1]);
      }
    }
  }
}
