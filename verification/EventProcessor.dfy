/** The event facility with its one drainer, as an object (capture_event, process_record_for,
    drain_processor, flush_aggregates, start and a draining stop in include/solar/events/runtime.hpp).

    `ops` is the run of EventPipeline the object has gone through so far, so every theorem about runs
    is a theorem about the object.
 */
module EventProcessor {
  import opened Basics
  import opened EventPipeline
  import opened Sequences
  import opened EventOrdering
  import EventConservation
  import EventRetention
  import History = EventHistory
  import opened Rings
  import EventFacility
  import CompactHistory

  /** Admitted records that go to the byte log can be stored there. */
  ghost predicate LogCanHold(cfg: Config, records: seq<Rec>)
  {
    forall i :: 0 <= i < |records| ==> CanHold(cfg, records[i])
  }

  ghost predicate CanHold(cfg: Config, r: Rec)
  {
    r.header.event < |cfg.events| && cfg.events[r.header.event].retention.Buffered? ==>
      CompactHistory.Storable(cfg.layout, r)
  }

  /** An observation whose record the log can hold: its payload has the event's size, and the header
      it would get at this moment reads back. */
  ghost predicate Sized(cfg: Config, s: Facility, o: Observation)
    requires Shaped(cfg, s) && o.event < |cfg.events|
  {
    var c := cfg.events[o.event];
    && |o.payload| == c.payloadSize && cfg.layout.size + c.payloadSize < 0x1_0000
    && (CaptureEvent(cfg, s, o).1.Captured? ==> cfg.layout.RoundTrips(CaptureEvent(cfg, s, o).1.record.header))
  }

  lemma CapturedCanBeHeld(cfg: Config, s: Facility, o: Observation)
    requires Shaped(cfg, s) && o.event < |cfg.events| && Sized(cfg, s, o)
    ensures var outcome := CaptureEvent(cfg, s, o).1;
            outcome.Captured? ==> CanHold(cfg, outcome.record)
  {
  }

  class Processor {
    const facility: EventFacility.EventFacility
    const log: CompactHistory.Log

    /** The record between its locked sections. */
    var held: Drainer
    ghost var ops: seq<Op>

    /** The byte log is the one the facility speaks of. */
    ghost predicate Mirrored()
      reads log, log.bytes, facility, facility.ingress
      reads set k | 0 <= k < |facility.ingress.rings| :: facility.ingress.rings[k]
      reads set k | 0 <= k < |facility.ingress.rings| :: facility.ingress.rings[k].cells
    {
      && facility.Valid() && log.Valid()
      && log.layout == facility.cfg.layout && log.bytes.Length == facility.cfg.historyBytes
      && log.records == facility.stored && log.evicted == facility.dropped
    }

    ghost predicate Valid()
      reads this, log, log.bytes, facility, facility.ingress
      reads set k | 0 <= k < |facility.ingress.rings| :: facility.ingress.rings[k]
      reads set k | 0 <= k < |facility.ingress.rings| :: facility.ingress.rings[k].cells
    {
      Mirrored() && Follows(facility.cfg, facility.Model(), held, ops)
    }

    constructor (facility: EventFacility.EventFacility, log: CompactHistory.Log)
      requires facility.Valid() && facility.cfg.drainOnStop && facility.Model() == Init(facility.cfg)
      requires log.Valid() && log.layout == facility.cfg.layout && log.bytes.Length == facility.cfg.historyBytes
      requires log.records == [] && log.evicted == 0
      ensures Valid() && this.facility == facility && this.log == log && ops == [] && held.Idle?
    {
      this.facility, this.log := facility, log;
      held, ops := Idle, [];
    }

    method CaptureOnly(o: Observation) returns (outcome: Outcome)
      requires Mirrored() && o.event < |facility.cfg.events|
      modifies facility`events, facility`nextSequence, facility`accepted, facility.ingress
      modifies set k | 0 <= k < |facility.ingress.rings| :: facility.ingress.rings[k]
      modifies set k | 0 <= k < |facility.ingress.rings| :: facility.ingress.rings[k].cells
      ensures Mirrored()
      ensures (facility.Model(), outcome) == CaptureEvent(facility.cfg, old(facility.Model()), o)
    {
      outcome := facility.Capture(o);
    }

    /** capture_event. */
    method Observe(o: Observation) returns (outcome: Outcome)
      requires Valid() && o.event < |facility.cfg.events| && Sized(facility.cfg, facility.Model(), o)
      modifies this`ops, facility`events, facility`nextSequence, facility`accepted, facility.ingress
      modifies set k | 0 <= k < |facility.ingress.rings| :: facility.ingress.rings[k]
      modifies set k | 0 <= k < |facility.ingress.rings| :: facility.ingress.rings[k].cells
      ensures Valid() && ops == old(ops) + [EventPipeline.Observe(o)]
      ensures outcome == CaptureEvent(facility.cfg, old(facility.Model()), o).1
    {
      FollowsObserve(facility.cfg, facility.Model(), held, ops, o);
      outcome := CaptureOnly(o);
      ops := ops + [EventPipeline.Observe(o)];
    }

    method PopOnly() returns (r: Option<Rec>)
      requires Mirrored()
      modifies facility`events, facility.ingress
      modifies set k | 0 <= k < |facility.ingress.rings| :: facility.ingress.rings[k]
      ensures Mirrored()
      ensures (facility.Model(), r) == EventPipeline.PopNext(old(facility.Model()))
    {
      r := facility.Pop();
    }

    /** pop_next. */
    method PopNext() returns (found: bool)
      requires Valid() && held.Idle?
      modifies this, facility`events, facility.ingress
      modifies set k | 0 <= k < |facility.ingress.rings| :: facility.ingress.rings[k]
      ensures Valid() && ops == old(ops) + [Pop]
      ensures if found then held.Popped? else held.Idle?
    {
      FollowsPop(facility.cfg, facility.Model(), ops);
      var r := PopOnly();
      found := r.Some?;
      held := if found then Popped(r.value) else Idle;
      ops := ops + [Pop];
    }

    method RetainOnly(r: Rec, persisted: bool)
      requires Mirrored() && r.header.event < |facility.cfg.events| && CanHold(facility.cfg, r)
      modifies facility, log, log.bytes
      ensures Mirrored()
      ensures facility.Model() == RetainRecord(facility.cfg, old(facility.Model()), r, persisted).0
    {
      if facility.cfg.events[r.header.event].retention.Buffered? {
        var _ := facility.RetainBuffered(r, persisted, log);
      } else {
        var _ := facility.RetainOther(r, persisted);
      }
    }

    /** retain_record; `persisted` is the answer of a persistent store. */
    method Retain(persisted: bool)
      requires Valid() && held.Popped?
      modifies this, facility, log, log.bytes
      ensures Valid() && held.Retained? && ops == old(ops) + [EventPipeline.Retain(persisted)]
    {
      FollowsRetain(facility.cfg, facility.Model(), held, ops, persisted);
      RetainOnly(held.record, persisted);
      held := Retained(held.record);
      ops := ops + [EventPipeline.Retain(persisted)];
    }

    method Conclude()
      requires Valid() && held.Retained?
      modifies this
      ensures Valid() && held.Idle? && ops == old(ops) + [EventPipeline.Conclude]
    {
      FollowsConclude(facility.cfg, facility.Model(), held, ops);
      held := Idle;
      ops := ops + [EventPipeline.Conclude];
    }

    /** read_history of this object; `histories` are the rings of critical history. */
    method ReadHistory(histories: seq<FixedRing<Rec>>, cursor: nat, room: nat, filter: Option<nat>)
      returns (page: seq<Rec>, next: nat, available: nat, stale: bool, evictedBefore: nat)
      requires Valid() && |histories| == |facility.events|
      requires forall k :: 0 <= k < |histories| ==>
                 histories[k].Valid() && histories[k].contents == facility.events[k].history
      ensures var stores := EventRetention.Stores(Run(facility.cfg, ops).fac);
              && History.IsPage(History.Matching(stores, cursor, filter), room, page)
              && available == |History.Matching(stores, cursor, filter)|
              && History.Advances(stores, cursor, next, filter, page)
    {
      EventRetention.RunsAreReadable(facility.cfg, ops);
      ghost var stores := EventRetention.Stores(facility.Model());
      assert forall k :: 0 <= k < |histories| ==> stores[k + 1] == facility.events[k].history;
      var store := new History.Retained(log, histories, stores);
      page, next, available, stale, evictedBefore :=
        History.ReadHistory(store, cursor, room, filter, Run(facility.cfg, ops).admitted);
    }

    /** start. */
    method Start()
      requires Valid()
      modifies this`ops, facility`accepting
      ensures Valid() && ops == old(ops) + [EventPipeline.Start]
    {
      FollowsAccepting(facility.cfg, facility.Model(), held, ops);
      facility.SetAccepting(true);
      ops := ops + [EventPipeline.Start];
    }

    /** The first store of a draining stop. */
    method Stop()
      requires Valid()
      modifies this`ops, facility`accepting
      ensures Valid() && ops == old(ops) + [EventPipeline.Stop] && !facility.accepting
    {
      FollowsAccepting(facility.cfg, facility.Model(), held, ops);
      facility.SetAccepting(false);
      ops := ops + [EventPipeline.Stop];
    }

    method TakeOnly(event: nat) returns (r: Option<Rec>)
      requires Mirrored() && event < |facility.cfg.events|
      modifies facility`events, facility`nextSequence, facility`accepted
      ensures Mirrored()
      ensures (facility.Model(), r) == TakeAggregate(facility.cfg, old(facility.Model()), event)
    {
      r := facility.TakePending(event);
    }

    /** take_pending_aggregate, after capture is closed and the final drain found every ring empty. */
    method FlushOne(event: nat) returns (found: bool)
      requires Valid() && held.Idle? && event < |facility.cfg.events|
      requires !facility.accepting && RingsEmpty(facility.Model())
      requires CanFlush(facility.cfg, facility.Model(), event)
      modifies this, facility`events, facility`nextSequence, facility`accepted
      ensures Valid() && ops == old(ops) + [Flush(event)]
      ensures if found then held.Popped? else held.Idle?
    {
      FollowsFlush(facility.cfg, facility.Model(), ops, event);
      var r := TakeOnly(event);
      found := r.Some?;
      held := if found then Popped(r.value) else Idle;
      ops := ops + [Flush(event)];
    }

    /** drain_processor: everything waiting is processed, in order, and nothing else. */
    method Drain(persist: Rec -> bool)
      requires Valid() && held.Idle?
      modifies this, facility, facility.ingress, log, log.bytes
      modifies set k | 0 <= k < |facility.ingress.rings| :: facility.ingress.rings[k]
      ensures Valid() && held.Idle? && old(ops) <= ops
      ensures var s, s' := Run(facility.cfg, old(ops)), Run(facility.cfg, ops);
              s'.admitted == s.admitted == s'.processed && RingsEmpty(s'.fac)
    {
      while true
        invariant Valid() && held.Idle? && old(ops) <= ops
        invariant Run(facility.cfg, ops).admitted == Run(facility.cfg, old(ops)).admitted
        decreases |Run(facility.cfg, ops).admitted| - |Run(facility.cfg, ops).processed|
      {
        ghost var before := ops;
        var found := PopNext();
        if !found {
          PopFoundNothing(facility.cfg, before);
          break;
        }
        PopFoundOne(facility.cfg, before);
        var persisted := persist(held.record);
        Retain(persisted);
        Conclude();
        RoundIs(facility.cfg, before + [Pop], persisted);
      }
    }

    /** One round of the inner loop of flush_aggregates. */
    method FlushNext(event: nat, persist: Rec -> bool) returns (more: bool)
      requires Valid() && event < |facility.cfg.events| && Flushing(facility.cfg, Run(facility.cfg, ops))
      modifies this, facility, log, log.bytes
      ensures Valid() && old(ops) <= ops
      ensures FlushedOne(facility.cfg, Run(facility.cfg, old(ops)), Run(facility.cfg, ops), event, more)
    {
      ghost var before := ops;
      FlushingCanFlush(facility.cfg, Run(facility.cfg, ops), event);
      more := FlushOne(event);
      if !more {
        FlushFoundNothing(facility.cfg, before, event);
        return;
      }
      var persisted := persist(held.record);
      Retain(persisted);
      Conclude();
      FlushRound(facility.cfg, before, event, persisted);
    }

    /** The inner loop of flush_aggregates: every open aggregate of one event is processed. */
    method FlushEvent(event: nat, persist: Rec -> bool)
      requires Valid() && event < |facility.cfg.events| && Flushing(facility.cfg, Run(facility.cfg, ops))
      modifies this, facility, log, log.bytes
      ensures Valid() && old(ops) <= ops
      ensures FlushedAll(facility.cfg, Run(facility.cfg, old(ops)), Run(facility.cfg, ops), event)
    {
      ghost var s := Run(facility.cfg, ops);
      ghost var now := s;
      var more := true;
      while more
        invariant Valid() && old(ops) <= ops && now == Run(facility.cfg, ops)
        invariant FlushedSoFar(facility.cfg, s, now, event)
        invariant !more ==> EventRetention.AllFree(now.fac.events[event].slots)
        decreases more, OpenTotal(now.fac.events)
      {
        more := FlushNext(event, persist);
        FlushedStep(facility.cfg, s, now, Run(facility.cfg, ops), event, more);
        now := Run(facility.cfg, ops);
      }
    }

    /** flush_aggregates: no aggregate stays open, and everything admitted has been processed. */
    method FlushAggregates(persist: Rec -> bool)
      requires Valid() && Flushing(facility.cfg, Run(facility.cfg, ops))
      modifies this, facility, log, log.bytes
      ensures Valid() && old(ops) <= ops
      ensures AllFlushed(facility.cfg, Run(facility.cfg, ops), |facility.cfg.events|)
    {
      ghost var now := Run(facility.cfg, ops);
      for event := 0 to |facility.cfg.events|
        invariant Valid() && old(ops) <= ops && now == Run(facility.cfg, ops)
        invariant AllFlushed(facility.cfg, now, event)
      {
        FlushEvent(event, persist);
        AllFlushedStep(facility.cfg, now, Run(facility.cfg, ops), event);
        now := Run(facility.cfg, ops);
      }
    }
  }

  /** The object is where the run has led. */
  ghost predicate Follows(cfg: Config, fac: Facility, held: Drainer, ops: seq<Op>)
  {
    cfg.Valid() && cfg.drainOnStop && fac == Run(cfg, ops).fac && held == Run(cfg, ops).drainer && LogCanHold(cfg, Run(cfg, ops).admitted)
  }

  /** What an observation adds to a run. */
  lemma RunObserves(cfg: Config, ops: seq<Op>, o: Observation)
    requires cfg.Valid() && o.event < |cfg.events|
    ensures var s, s' := Run(cfg, ops), Run(cfg, ops + [Observe(o)]);
      var (fac, outcome) := CaptureEvent(cfg, s.fac, o);
      && s'.fac == fac && s'.drainer == s.drainer
      && s'.admitted == if outcome.Captured? then s.admitted + [outcome.record] else s.admitted
  {
    StepObserves(cfg, Run(cfg, ops), o);
    EventRetention.RunSnoc(cfg, ops, Observe(o));
  }

  lemma StepObserves(cfg: Config, s: System, o: Observation)
    requires Ready(cfg, s) && o.event < |cfg.events|
    ensures var (fac, outcome) := CaptureEvent(cfg, s.fac, o); var s' := Step(cfg, s, Observe(o));
      && s'.fac == fac && s'.drainer == s.drainer
      && s'.admitted == if outcome.Captured? then s.admitted + [outcome.record] else s.admitted
  {
  }

  lemma LogCanHoldSnoc(cfg: Config, records: seq<Rec>, r: Rec)
    requires LogCanHold(cfg, records) && CanHold(cfg, r)
    ensures LogCanHold(cfg, records + [r])
  {
  }

  lemma FollowsObserve(cfg: Config, fac: Facility, held: Drainer, ops: seq<Op>, o: Observation)
    requires Follows(cfg, fac, held, ops) && Shaped(cfg, fac) && o.event < |cfg.events| && Sized(cfg, fac, o)
    ensures Follows(cfg, CaptureEvent(cfg, fac, o).0, held, ops + [Observe(o)])
  {
    RunObserves(cfg, ops, o);
    CapturedCanBeHeld(cfg, fac, o);
    var outcome := CaptureEvent(cfg, fac, o).1;
    if outcome.Captured? {
      LogCanHoldSnoc(cfg, Run(cfg, ops).admitted, outcome.record);
    }
  }

  lemma FollowsPop(cfg: Config, fac: Facility, ops: seq<Op>)
    requires Follows(cfg, fac, Idle, ops) && |fac.rings| == 2 + |fac.events|
    ensures var (fac', r) := PopNext(fac);
            Follows(cfg, fac', if r.Some? then Popped(r.value) else Idle, ops + [Pop])
  {
    EventRetention.RunSnoc(cfg, ops, Pop);
  }

  /** The record in the drainer's hand was admitted, so the log can hold it. */
  lemma FollowsRetain(cfg: Config, fac: Facility, held: Drainer, ops: seq<Op>, persisted: bool)
    requires Follows(cfg, fac, held, ops) && Shaped(cfg, fac) && held.Popped?
    ensures held.record.header.event < |cfg.events| && CanHold(cfg, held.record)
    ensures Follows(cfg, RetainRecord(cfg, fac, held.record, persisted).0, Retained(held.record), ops + [Retain(persisted)])
  {
    EventRetention.RunSnoc(cfg, ops, Retain(persisted));
    RunsAreFifo(cfg, ops);
  }

  lemma FollowsConclude(cfg: Config, fac: Facility, held: Drainer, ops: seq<Op>)
    requires Follows(cfg, fac, held, ops) && held.Retained?
    ensures Follows(cfg, fac, Idle, ops + [Conclude])
  {
    EventRetention.RunSnoc(cfg, ops, Conclude);
  }

  lemma FollowsAccepting(cfg: Config, fac: Facility, held: Drainer, ops: seq<Op>)
    requires Follows(cfg, fac, held, ops)
    ensures Follows(cfg, fac.(accepting := true), held, ops + [Start])
    ensures Follows(cfg, fac.(accepting := false), held, ops + [Stop])
  {
    EventRetention.RunSnoc(cfg, ops, Start);
    EventRetention.RunSnoc(cfg, ops, Stop);
  }

  /** The log can hold what a flush of the event would take next. */
  ghost predicate CanFlush(cfg: Config, s: Facility, event: nat)
    requires Shaped(cfg, s) && event < |cfg.events|
  {
    var r := TakeAggregate(cfg, s, event).1;
    r.Some? ==> CanHold(cfg, r.value)
  }

  lemma FollowsFlush(cfg: Config, fac: Facility, ops: seq<Op>, event: nat)
    requires Follows(cfg, fac, Idle, ops) && Shaped(cfg, fac) && event < |cfg.events|
    requires !fac.accepting && RingsEmpty(fac) && CanFlush(cfg, fac, event)
    ensures var (fac', r) := TakeAggregate(cfg, fac, event);
            Follows(cfg, fac', if r.Some? then Popped(r.value) else Idle, ops + [Flush(event)])
  {
    EventRetention.RunSnoc(cfg, ops, Flush(event));
    FlushEffect(cfg, fac, event);
  }

  lemma PopFoundNothing(cfg: Config, ops: seq<Op>)
    requires cfg.Valid() && cfg.drainOnStop
    requires Run(cfg, ops).drainer.Idle? && Run(cfg, ops + [Pop]).drainer.Idle?
    ensures var s := Run(cfg, ops + [Pop]);
            s == Run(cfg, ops) && s.processed == s.admitted && RingsEmpty(s.fac)
  {
    var s := Run(cfg, ops);
    RunsAreFifo(cfg, ops);
    EventRetention.RunSnoc(cfg, ops, Pop);
    FifoPop(cfg, s);
    assert s.admitted[..|s.admitted|] == s.admitted;
    NoneWaitingEmptyRings(cfg, s);
  }

  lemma NoneWaitingEmptyRings(cfg: Config, s: System)
    requires OneFifo(cfg, s) && Waiting(s) == []
    ensures RingsEmpty(s.fac)
  {
  }

  lemma PopFoundOne(cfg: Config, ops: seq<Op>)
    requires cfg.Valid() && cfg.drainOnStop && Run(cfg, ops).drainer.Idle? && Run(cfg, ops + [Pop]).drainer.Popped?
    ensures var s, s' := Run(cfg, ops), Run(cfg, ops + [Pop]);
            s'.admitted == s.admitted && s'.processed == s.processed && |s.processed| < |s.admitted|
  {
    RunsAreFifo(cfg, ops + [Pop]);
    EventRetention.RunSnoc(cfg, ops, Pop);
  }

  lemma RoundIs(cfg: Config, ops: seq<Op>, persisted: bool)
    requires cfg.Valid() && Run(cfg, ops).drainer.Popped?
    ensures var s, s' := Run(cfg, ops), Run(cfg, ops + [Retain(persisted)] + [Conclude]);
            s'.admitted == s.admitted && s'.processed == s.processed + [s.drainer.record]
  {
    RunFiles(cfg, ops, persisted);
  }

  // ---------------------------------------------------------------- flushing what is open

  const OPEN: Slot -> bool := (s: Slot) => s.occupied

  /** How many slots are open in all tables together. */
  ghost function OpenTotal(events: seq<EventState>): nat
  {
    if events == [] then 0 else Count(events[0].slots, OPEN) + OpenTotal(events[1..])
  }

  lemma {:induction false} OpenTotalUpdate(events: seq<EventState>, e: nat, after: EventState)
    requires e < |events|
    ensures OpenTotal(events[e := after])
         == OpenTotal(events) - Count(events[e].slots, OPEN) + Count(after.slots, OPEN)
  {
    if e == 0 {
      assert events[0 := after][1..] == events[1..];
    } else {
      OpenTotalUpdate(events[1..], e - 1, after);
      assert events[e := after][1..] == events[1..][e - 1 := after];
    }
  }

  lemma {:induction false} OpenTotalAlike(a: seq<EventState>, b: seq<EventState>)
    requires |a| == |b| && forall e :: 0 <= e < |a| ==> a[e].slots == b[e].slots
    ensures OpenTotal(a) == OpenTotal(b)
  {
    if a != [] {
      OpenTotalAlike(a[1..], b[1..]);
    }
  }

  /** The record a flush makes of a slot. */
  function FlushedRecord(slot: Slot, sequence: nat): Rec
    requires slot.last.Some?
  {
    var last := slot.last.value;
    last.(header := last.header.(sequence := sequence, occurrences := slot.count,
                                 flags := last.header.flags.(aggregated := true)))
  }

  ghost predicate SlotCanFlush(cfg: Config, slot: Slot, sequence: nat)
  {
    slot.occupied && slot.last.Some? ==> CanHold(cfg, FlushedRecord(slot, sequence))
  }

  /** The log can hold the open aggregates under any of the next n sequence numbers. */
  ghost predicate Flushable(cfg: Config, s: Facility, n: nat)
  {
    forall e, i, sequence: nat ::
      0 <= e < |s.events| && 0 <= i < |s.events[e].slots| && s.nextSequence <= sequence < s.nextSequence + n ==>
        SlotCanFlush(cfg, s.events[e].slots[i], sequence)
  }

  /** Capture is closed, nothing waits, everything admitted is processed, and the rest can be flushed. */
  ghost predicate Flushing(cfg: Config, s: System)
  {
    && Ready(cfg, s) && s.drainer.Idle? && !s.fac.accepting && RingsEmpty(s.fac) && s.processed == s.admitted
    && Flushable(cfg, s.fac, OpenTotal(s.fac.events))
  }

  /** Only this event's slots may differ. */
  ghost predicate SlotsOutside(s: System, s': System, event: nat)
  {
    && |s'.fac.events| == |s.fac.events|
    && forall e :: 0 <= e < |s.fac.events| && e != event ==> s'.fac.events[e].slots == s.fac.events[e].slots
  }

  /** One round: one slot fewer is open, or none of the event's is and nothing has changed. */
  ghost predicate FlushedOne(cfg: Config, s: System, s': System, event: nat, more: bool)
  {
    && Flushing(cfg, s') && SlotsOutside(s, s', event)
    && (more ==> OpenTotal(s'.fac.events) < OpenTotal(s.fac.events))
    && (!more ==> s' == s && event < |s.fac.events| && EventRetention.AllFree(s.fac.events[event].slots))
  }

  ghost predicate FlushedSoFar(cfg: Config, s: System, s': System, event: nat)
  {
    Flushing(cfg, s') && SlotsOutside(s, s', event) && event < |s'.fac.events|
  }

  ghost predicate FlushedAll(cfg: Config, s: System, s': System, event: nat)
  {
    FlushedSoFar(cfg, s, s', event) && EventRetention.AllFree(s'.fac.events[event].slots)
  }

  lemma FlushedStep(cfg: Config, s: System, now: System, s': System, event: nat, more: bool)
    requires FlushedSoFar(cfg, s, now, event) && FlushedOne(cfg, now, s', event, more)
    ensures FlushedSoFar(cfg, s, s', event)
    ensures if more then OpenTotal(s'.fac.events) < OpenTotal(now.fac.events)
            else s' == now && EventRetention.AllFree(s'.fac.events[event].slots)
  {
  }

  /** The first n events have no open slot. */
  ghost predicate AllFlushed(cfg: Config, s: System, n: nat)
  {
    && Flushing(cfg, s) && n <= |s.fac.events|
    && forall e :: 0 <= e < n ==> EventRetention.AllFree(s.fac.events[e].slots)
  }

  lemma AllFlushedStep(cfg: Config, s: System, s': System, event: nat)
    requires AllFlushed(cfg, s, event) && FlushedAll(cfg, s, s', event)
    ensures AllFlushed(cfg, s', event + 1)
  {
  }

  /** What one flush does to the table of its event. */
  lemma FlushOpens(cfg: Config, s: Facility, event: nat)
    requires Shaped(cfg, s) && event < |cfg.events| && SlotsOk(s.events[event].slots, event)
    ensures var (s', r) := TakeAggregate(cfg, s, event);
      var slots := s.events[event].slots;
      match FirstOpen(slots)
      case None => r.None? && EventRetention.AllFree(slots)
      case Some(k) =>
        && slots[k].occupied && slots[k].last.Some? && r == Some(FlushedRecord(slots[k], s.nextSequence))
        && event < |s'.events| && s'.events[event].slots == slots[k := EMPTY_SLOT]
        && s'.nextSequence == s.nextSequence + 1
        && s'.events == s.events[event := s'.events[event]]
        && OpenTotal(s'.events) == OpenTotal(s.events) - 1
  {
    var slots := s.events[event].slots;
    FirstOpenIsFirst(slots);
    var k := FirstOpen(slots);
    forall i | 0 <= i < |slots|
      ensures slots[i].occupied <==> slots[i].count > 0
    {
      assert SlotOk(slots[i], event);
    }
    if k.Some? {
      assert SlotOk(slots[k.value], event);
      var s' := TakeAggregate(cfg, s, event).0;
      CountUpdate(slots, k.value, EMPTY_SLOT, OPEN);
      OpenTotalUpdate(s.events, event, s'.events[event]);
    }
  }

  lemma FlushingCanFlush(cfg: Config, s: System, event: nat)
    requires Flushing(cfg, s) && event < |cfg.events|
    ensures CanFlush(cfg, s.fac, event)
  {
    FlushOpens(cfg, s.fac, event);
    var k := FirstOpen(s.fac.events[event].slots);
    if k.Some? {
      assert SlotCanFlush(cfg, s.fac.events[event].slots[k.value], s.fac.nextSequence);
    }
  }

  lemma StepFlushes(cfg: Config, s: System, event: nat)
    requires Ready(cfg, s) && Enabled(cfg, s, Flush(event))
    ensures var (fac, r) := TakeAggregate(cfg, s.fac, event);
      Step(cfg, s, Flush(event))
        == if r.None? then s else s.(fac := fac, drainer := Popped(r.value), admitted := s.admitted + [r.value])
  {
  }

  /** A flush either finds nothing and changes nothing, or hands the next record to the drainer. */
  lemma RunFlushes(cfg: Config, ops: seq<Op>, event: nat)
    requires cfg.Valid() && cfg.drainOnStop && event < |cfg.events|
    requires var s := Run(cfg, ops); s.drainer.Idle? && !s.fac.accepting && RingsEmpty(s.fac)
    ensures var s, s' := Run(cfg, ops), Run(cfg, ops + [Flush(event)]);
      var (fac, r) := TakeAggregate(cfg, s.fac, event);
      s' == if r.None? then s else s.(fac := fac, drainer := Popped(r.value), admitted := s.admitted + [r.value])
  {
    StepFlushes(cfg, Run(cfg, ops), event);
    EventRetention.RunSnoc(cfg, ops, Flush(event));
  }

  /** Retaining and concluding the drainer's record. */
  lemma RunFiles(cfg: Config, ops: seq<Op>, persisted: bool)
    requires cfg.Valid() && Run(cfg, ops).drainer.Popped?
    ensures var s, s' := Run(cfg, ops), Run(cfg, ops + [Retain(persisted)] + [Conclude]);
      var r := s.drainer.record;
      s' == s.(fac := RetainRecord(cfg, s.fac, r, persisted).0, drainer := Idle, processed := s.processed + [r])
  {
    EventRetention.RunSnoc(cfg, ops, Retain(persisted));
    EventRetention.RunSnoc(cfg, ops + [Retain(persisted)], Conclude);
  }

  lemma FlushFoundNothing(cfg: Config, ops: seq<Op>, event: nat)
    requires cfg.Valid() && cfg.drainOnStop && event < |cfg.events| && Flushing(cfg, Run(cfg, ops))
    requires Run(cfg, ops + [Flush(event)]).drainer.Idle?
    ensures Run(cfg, ops + [Flush(event)]) == Run(cfg, ops)
    ensures EventRetention.AllFree(Run(cfg, ops).fac.events[event].slots)
  {
    RunFlushes(cfg, ops, event);
    NothingToFlush(cfg, Run(cfg, ops), event);
  }

  lemma NothingToFlush(cfg: Config, s: System, event: nat)
    requires Ready(cfg, s) && event < |cfg.events| && TakeAggregate(cfg, s.fac, event).1.None?
    ensures EventRetention.AllFree(s.fac.events[event].slots)
  {
    FlushOpens(cfg, s.fac, event);
  }

  /** One slot fewer is open, and the others can still be flushed. */
  lemma FlushableStep(cfg: Config, s: Facility, s': Facility, event: nat, k: nat, n: nat)
    requires Flushable(cfg, s, n) && n > 0 && event < |s.events| == |s'.events| && k < |s.events[event].slots|
    requires s'.nextSequence == s.nextSequence + 1
    requires forall e :: 0 <= e < |s.events| ==>
               s'.events[e].slots == if e == event then s.events[e].slots[k := EMPTY_SLOT] else s.events[e].slots
    ensures Flushable(cfg, s', n - 1)
  {
    forall e, i, sequence: nat | 0 <= e < |s'.events| && 0 <= i < |s'.events[e].slots|
      && s'.nextSequence <= sequence < s'.nextSequence + (n - 1)
      ensures SlotCanFlush(cfg, s'.events[e].slots[i], sequence)
    {
      assert SlotCanFlush(cfg, s.events[e].slots[i], sequence);
    }
  }

  /** One round of flushing: a record is taken, retained and processed. */
  lemma RoundFlushes(cfg: Config, s: System, fac1: Facility, r: Rec, event: nat, persisted: bool, s': System)
    requires Flushing(cfg, s) && event < |cfg.events| && TakeAggregate(cfg, s.fac, event) == (fac1, Some(r))
    requires Shaped(cfg, fac1) && r.header.event < |cfg.events| && Ready(cfg, s')
    requires s' == s.(fac := RetainRecord(cfg, fac1, r, persisted).0, admitted := s.admitted + [r],
                      processed := s.processed + [r])
    ensures Flushing(cfg, s') && SlotsOutside(s, s', event)
    ensures OpenTotal(s'.fac.events) < OpenTotal(s.fac.events)
  {
    FlushOpens(cfg, s.fac, event);
    FlushEffect(cfg, s.fac, event);
    RetainEffect(cfg, fac1, r, persisted);
    OpenTotalAlike(fac1.events, s'.fac.events);
    var k := FirstOpen(s.fac.events[event].slots).value;
    FlushableStep(cfg, s.fac, s'.fac, event, k, OpenTotal(s.fac.events));
  }

  lemma FlushRound(cfg: Config, ops: seq<Op>, event: nat, persisted: bool)
    requires cfg.Valid() && cfg.drainOnStop && event < |cfg.events| && Flushing(cfg, Run(cfg, ops))
    requires Run(cfg, ops + [Flush(event)]).drainer.Popped?
    ensures var s, s' := Run(cfg, ops), Run(cfg, ops + [Flush(event)] + [Retain(persisted)] + [Conclude]);
            Flushing(cfg, s') && SlotsOutside(s, s', event)
            && OpenTotal(s'.fac.events) < OpenTotal(s.fac.events)
  {
    var flushed := ops + [Flush(event)];
    RunFlushes(cfg, ops, event);
    RunFiles(cfg, flushed, persisted);
    RoundFlushes(cfg, Run(cfg, ops), Run(cfg, flushed).fac, Run(cfg, flushed).drainer.record, event, persisted,
                 Run(cfg, flushed + [Retain(persisted)] + [Conclude]));
  }

  // ---------------------------------------------------------------- what is left in the end

  lemma {:induction false} FilterAll(records: seq<Rec>, keep: Rec -> bool, r: Rec)
    requires r in records && keep(r)
    ensures r in Filter(records, keep)
  {
    FilterMember(records, keep, r);
  }

  /** When nothing waits, every record ever admitted for a critical event that does not aggregate is
      among those a history read sees. */
  lemma CriticalIsReadable(cfg: Config, ops: seq<Op>, event: nat, r: Rec)
    requires cfg.Valid() && cfg.drainOnStop && cfg.IsCritical(event) && !cfg.Aggregates(event)
    requires var s := Run(cfg, ops); s.drainer.Idle? && RingsEmpty(s.fac)
    requires r in Run(cfg, ops).admitted && r.header.event == event
    ensures r in History.Matching(EventRetention.Stores(Run(cfg, ops).fac), 0, Some(event))
  {
    var s := Run(cfg, ops);
    EventRetention.NonAggregatingNeverLost(cfg, event, ops);
    FilterAll(s.admitted, EventRetention.OfEvent(event), r);
    InStores(s.fac, event, r);
  }

  lemma InStores(s: Facility, event: nat, r: Rec)
    requires event < |s.events| && r in s.events[event].history && r.header.event == event
    ensures r in History.Matching(EventRetention.Stores(s), 0, Some(event))
  {
    var stores := EventRetention.Stores(s);
    assert stores[event + 1] == s.events[event].history;
    var i :| 0 <= i < |stores[event + 1]| && stores[event + 1][i] == r;
    assert CompactHistory.Matches(stores[event + 1][i], 0, Some(event));
  }

  /** After the flush no occurrence is open: each attempt was filtered, rejected, refused by a ring, or is
      carried by a record that was processed. */
  lemma EverythingIsAccounted(cfg: Config, ops: seq<Op>, event: nat)
    requires cfg.Valid() && cfg.drainOnStop && event < |cfg.events|
    requires AllFlushed(cfg, Run(cfg, ops), |cfg.events|)
    ensures var s := Run(cfg, ops); var e := s.fac.events[event];
      e.attempts == e.sampled + e.rateLimited + e.keysRejected
                    + EventConservation.Occurrences(s.processed, event)
                    + EventConservation.Occurrences(s.refused, event) + s.discarded[event]
  {
    EventConservation.RunsAreBalanced(cfg, ops, event);
    NoneOpen(cfg, Run(cfg, ops), event);
  }

  lemma NoneOpen(cfg: Config, s: System, event: nat)
    requires AllFlushed(cfg, s, |cfg.events|) && event < |cfg.events|
    ensures OpenCount(s.fac.events[event].slots) == 0 && s.processed == s.admitted
  {
    var slots := s.fac.events[event].slots;
    assert EventRetention.AllFree(slots);
    forall i | 0 <= i < |slots|
      ensures slots[i].count == 0
    {
      assert SlotOk(slots[i], event);
    }
    EventConservation.OpenCountEmpty(slots);
  }
}
