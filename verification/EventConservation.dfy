/** Every observed occurrence is accounted for over every run
    (include/solar/events/runtime.hpp).
 */
module EventConservation {
  import opened EventPipeline
  import opened EventOrdering

  /** Occurrences carried by the records of one event. */
  ghost function Occurrences(records: seq<Rec>, event: nat): nat
  {
    if records == [] then 0
    else
      var r := records[|records| - 1];
      Occurrences(records[..|records| - 1], event)
        + (if r.header.event == event then r.header.occurrences else 0)
  }

  lemma OccurrencesSnoc(records: seq<Rec>, r: Rec, event: nat)
    ensures Occurrences(records + [r], event)
         == Occurrences(records, event) + (if r.header.event == event then r.header.occurrences else 0)
  {
    assert (records + [r])[..|records|] == records;
  }

  lemma {:induction false} OpenCountUpdate(slots: seq<Slot>, i: nat, slot: Slot)
    requires i < |slots|
    ensures OpenCount(slots[i := slot]) == OpenCount(slots) - slots[i].count + slot.count
  {
    if i == 0 {
      assert slots[0 := slot][1..] == slots[1..];
    } else {
      OpenCountUpdate(slots[1..], i - 1, slot);
      assert slots[i := slot][1..] == slots[1..][i - 1 := slot];
    }
  }

  lemma {:induction false} OpenCountEmpty(slots: seq<Slot>)
    requires forall i :: 0 <= i < |slots| ==> slots[i].count == 0
    ensures OpenCount(slots) == 0
  {
    if slots != [] {
      OpenCountEmpty(slots[1..]);
    }
  }

  /** Attempts that were neither filtered, nor rejected for want of a key, nor still open. */
  ghost function Settled(e: EventState): int
  {
    e.attempts - e.sampled - e.rateLimited - e.keysRejected - OpenCount(e.slots)
  }

  /** One event's capture policy either keeps an occurrence or hands it on with what it had kept. */
  lemma DecideAccounts(c: EventConfig, e: EventState, o: Observation)
    requires c.capture.SampleEvery? ==> c.capture.period > 0
    requires SlotsOk(e.slots, o.event)
    ensures var (e', d) := Decide(c, e, o);
      Settled(e') == Settled(e) + (if d.Emit? then d.record.header.occurrences else 0)
  {
    var found := FindSlot(e.slots, o.key);
    FindSlotIsFirst(e.slots, o.key);
    if c.capture.Aggregate? && found.Some? {
      var r := MakeRecord(c, e.policyCounter, o);
      match Accumulate(e.slots[found.value], o.key, r, o.now, c.capture.window)
      case Held(slot) => OpenCountUpdate(e.slots, found.value, slot);
      case Closing(_) => OpenCountUpdate(e.slots, found.value, EMPTY_SLOT);
    }
  }

  lemma CaptureAccounts(cfg: Config, s: Facility, o: Observation)
    requires Shaped(cfg, s) && o.event < |cfg.events| && SlotsOk(s.events[o.event].slots, o.event)
    ensures var (s', outcome) := CaptureEvent(cfg, s, o);
      && |s'.events| == |s.events|
      && (forall e :: 0 <= e < |s.events| && e != o.event ==> s'.events[e] == s.events[e])
      && (outcome.Captured? || outcome.Refused? ==> outcome.record.header.event == o.event)
      && Settled(s'.events[o.event]) == Settled(s.events[o.event])
           + (if outcome.Captured? || outcome.Refused? then outcome.record.header.occurrences else 0)
  {
    if s.accepting {
      DecideAccounts(cfg.events[o.event], s.events[o.event], o);
      DecideEffect(cfg.events[o.event], s.events[o.event], o);
    }
  }

  /** The ledger of one event: every attempt is in exactly one column. */
  ghost predicate Balanced(s: System, event: nat)
    requires event < |s.fac.events| && event < |s.discarded|
  {
    var e := s.fac.events[event];
    e.attempts == e.sampled + e.rateLimited + e.keysRejected + OpenCount(e.slots)
                  + Occurrences(s.admitted, event) + Occurrences(s.refused, event)
                  + s.discarded[event]
  }

  lemma BalancedCapture(cfg: Config, s: System, o: Observation, event: nat)
    requires Ready(cfg, s) && o.event < |cfg.events| && event < |cfg.events| && Balanced(s, event)
    ensures var s' := Step(cfg, s, Observe(o));
      event < |s'.fac.events| && event < |s'.discarded| && Balanced(s', event)
  {
    CaptureAccounts(cfg, s.fac, o);
    var (fac, outcome) := CaptureEvent(cfg, s.fac, o);
    BalancedOutcome(s, fac, outcome, o.event, event);
  }

  /** What an outcome adds to the ledger is what left the event's own columns. */
  lemma BalancedOutcome(s: System, fac: Facility, outcome: Outcome, observed: nat, event: nat)
    requires event < |s.fac.events| == |fac.events| && event < |s.discarded| && Balanced(s, event)
    requires observed < |fac.events| && (event != observed ==> fac.events[event] == s.fac.events[event])
    requires outcome.Captured? || outcome.Refused? ==> outcome.record.header.event == observed
    requires Settled(fac.events[observed]) == Settled(s.fac.events[observed])
               + (if outcome.Captured? || outcome.Refused? then outcome.record.header.occurrences else 0)
    ensures var s' := match outcome
              case Captured(r) => s.(fac := fac, admitted := s.admitted + [r])
              case Refused(r) => s.(fac := fac, refused := s.refused + [r])
              case _ => s.(fac := fac);
            Balanced(s', event)
  {
    if outcome.Captured? {
      OccurrencesSnoc(s.admitted, outcome.record, event);
    } else if outcome.Refused? {
      OccurrencesSnoc(s.refused, outcome.record, event);
    }
  }

  lemma BalancedFlush(cfg: Config, s: System, flushed: nat, event: nat)
    requires Ready(cfg, s) && Enabled(cfg, s, Flush(flushed))
    requires event < |cfg.events| && Balanced(s, event)
    ensures var s' := Step(cfg, s, Flush(flushed));
      event < |s'.fac.events| && event < |s'.discarded| && Balanced(s', event)
  {
    var e := s.fac.events[flushed];
    var slot := FirstOpen(e.slots);
    FirstOpenIsFirst(e.slots);
    if slot.Some? {
      OpenCountUpdate(e.slots, slot.value, EMPTY_SLOT);
      OccurrencesSnoc(s.admitted, TakeAggregate(cfg, s.fac, flushed).1.value, event);
    }
  }

  /** Retention leaves every capture column alone. */
  lemma RetainKeepsColumns(cfg: Config, s: Facility, r: Rec, persisted: bool, event: nat)
    requires Shaped(cfg, s) && r.header.event < |cfg.events| && event < |cfg.events|
    ensures var s' := RetainRecord(cfg, s, r, persisted).0;
      && |s'.events| == |s.events|
      && var e, e' := s.events[event], s'.events[event];
         e'.attempts == e.attempts && e'.sampled == e.sampled && e'.rateLimited == e.rateLimited
         && e'.keysRejected == e.keysRejected && e'.slots == e.slots
  {
  }

  lemma BalancedRetain(cfg: Config, s: System, persisted: bool, event: nat)
    requires Shaped(cfg, s.fac) && |s.discarded| == |cfg.events| && HeldInRange(cfg, s)
    requires s.drainer.Popped? && event < |cfg.events| && Balanced(s, event)
    ensures var s' := Step(cfg, s, Retain(persisted));
      event < |s'.fac.events| && event < |s'.discarded| && Balanced(s', event)
  {
    RetainKeepsColumns(cfg, s.fac, s.drainer.record, persisted, event);
  }

  lemma BalancedStop(cfg: Config, s: System, event: nat)
    requires Shaped(cfg, s.fac) && |s.discarded| == |cfg.events| && HeldInRange(cfg, s)
    requires event < |cfg.events| && Balanced(s, event)
    ensures var s' := Step(cfg, s, Stop);
      event < |s'.fac.events| && event < |s'.discarded| && Balanced(s', event)
  {
    OpenCountEmpty(seq(|s.fac.events[event].slots|, _ => EMPTY_SLOT));
  }

  lemma BalancedStep(cfg: Config, s: System, op: Op, event: nat)
    requires Ready(cfg, s) && Enabled(cfg, s, op) && event < |cfg.events| && Balanced(s, event)
    ensures Ready(cfg, Step(cfg, s, op)) && Balanced(Step(cfg, s, op), event)
  {
    ReadyStep(cfg, s, op);
    match op
    case Observe(o) => BalancedCapture(cfg, s, o, event);
    case Flush(flushed) => BalancedFlush(cfg, s, flushed, event);
    case Retain(persisted) => BalancedRetain(cfg, s, persisted, event);
    case Stop => BalancedStop(cfg, s, event);
    case _ =>
  }

  /** Over every run, under either stop policy, no occurrence disappears and none is invented. */
  lemma {:induction false} RunsAreBalanced(cfg: Config, ops: seq<Op>, event: nat)
    requires cfg.Valid() && event < |cfg.events|
    ensures Balanced(Run(cfg, ops), event)
  {
    if ops == [] {
      OpenCountEmpty(Run(cfg, ops).fac.events[event].slots);
    } else {
      var s := Run(cfg, ops[..|ops| - 1]);
      RunsAreBalanced(cfg, ops[..|ops| - 1], event);
      if Enabled(cfg, s, ops[|ops| - 1]) {
        BalancedStep(cfg, s, ops[|ops| - 1], event);
      }
    }
  }
}
