/** The event facility as the firmware runs it: rings, byte log and counters updated in place
    (capture_event, pop_next and retain_record in include/solar/events/runtime.hpp).

    Each method is proved to be one step of EventPipeline; EventProcessor strings the steps together.
 */
module EventFacility {
  import opened Basics
  import opened Rings
  import CompactHistory
  import opened EventPipeline

  /** The ingress rings: thread, ISR, and one per event. */
  class Ingress {
    const rings: seq<FixedRing<Rec>>
    const depths: seq<nat>

    /** What each ring holds, oldest first. */
    ghost var contents: seq<seq<Rec>>

    ghost predicate Holds(k: nat)
      requires k < |rings| == |contents| == |depths|
      reads this, rings[k], rings[k].cells
    {
      rings[k].Valid() && rings[k].cells.Length == depths[k] && rings[k].contents == contents[k]
    }

    /** No two rings share anything. */
    ghost predicate Separate()
    {
      forall i, j :: 0 <= i < j < |rings| ==> rings[i] != rings[j] && rings[i].cells != rings[j].cells
    }

    ghost predicate Valid()
      reads this, set k | 0 <= k < |rings| :: rings[k], set k | 0 <= k < |rings| :: rings[k].cells
    {
      |rings| == |contents| == |depths| && Separate() && forall k :: 0 <= k < |rings| ==> Holds(k)
    }

    constructor (rings: seq<FixedRing<Rec>>, depths: seq<nat>)
      requires |rings| == |depths|
      requires forall i, j :: 0 <= i < j < |rings| ==> rings[i] != rings[j] && rings[i].cells != rings[j].cells
      requires forall k :: 0 <= k < |rings| ==>
                 rings[k].Valid() && rings[k].contents == [] && rings[k].cells.Length == depths[k]
      ensures Valid() && this.rings == rings && this.depths == depths
      ensures forall k :: 0 <= k < |rings| ==> contents[k] == []
    {
      this.rings, this.depths := rings, depths;
      contents := seq(|rings|, _ => []);
    }

    /** pop_next's scan over the fronts: the least sequence number wins. */
    method Scan() returns (best: Option<nat>)
      requires Valid()
      ensures best == Earliest(contents, |rings|)
    {
      best := None;
      var least := 0;
      for k := 0 to |rings|
        invariant best == Earliest(contents, k)
        invariant best.Some? ==> least == contents[best.value][0].header.sequence
      {
        assert Holds(k);
        var front := rings[k].Front();
        if front.Some? && (best.None? || front.value.header.sequence < least) {
          best, least := Some(k), front.value.header.sequence;
        }
      }
    }

    method Pop(k: nat) returns (r: Rec)
      requires Valid() && k < |rings| && contents[k] != []
      modifies this, rings[k]
      ensures Valid()
      ensures contents == old(contents)[k := old(contents)[k][1..]]
      ensures r == old(contents)[k][0]
    {
      assert Holds(k);
      var popped := rings[k].Pop();
      contents := contents[k := contents[k][1..]];
      r := popped.value;
      assert Holds(k);
      forall j | 0 <= j < |rings| && j != k
        ensures Holds(j)
      {
        assert old(Holds(j));
      }
    }

    method Push(k: nat, r: Rec) returns (pushed: bool)
      requires Valid() && k < |rings|
      modifies this, rings[k], rings[k].cells
      ensures Valid()
      ensures pushed <==> |old(contents)[k]| < depths[k]
      ensures contents == if pushed then old(contents)[k := old(contents)[k] + [r]] else old(contents)
    {
      assert Holds(k);
      pushed := rings[k].Push(r);
      if pushed {
        contents := contents[k := contents[k] + [r]];
      }
      assert Holds(k);
      forall j | 0 <= j < |rings| && j != k
        ensures Holds(j)
      {
        assert old(Holds(j));
      }
    }

    method Clear(k: nat)
      requires Valid() && k < |rings|
      modifies this, rings[k]
      ensures Valid() && contents == old(contents)[k := []]
    {
      assert Holds(k);
      rings[k].Clear();
      contents := contents[k := []];
      assert Holds(k);
      forall j | 0 <= j < |rings| && j != k
        ensures Holds(j)
      {
        assert old(Holds(j));
      }
    }

    method ClearAll()
      requires Valid()
      modifies this, set k | 0 <= k < |rings| :: rings[k]
      ensures Valid() && contents == seq(|rings|, _ => [])
    {
      for k := 0 to |rings|
        invariant Valid()
        invariant forall j :: 0 <= j < k ==> contents[j] == []
      {
        Clear(k);
      }
    }

    method Size(k: nat) returns (size: nat)
      requires Valid() && k < |rings|
      ensures size == |contents[k]|
    {
      assert Holds(k);
      size := rings[k].size;
    }
  }

  /** The capture loop over the aggregation entries. */
  method SearchSlot(slots: seq<Slot>, key: int) returns (selected: Option<nat>)
    ensures selected == FindSlot(slots, key)
  {
    selected := None;
    assert slots[0..] == slots;
    for i := 0 to |slots|
      invariant selected.Some? ==> selected.value < i
      invariant FindSlot(slots, key) == Choice(slots, key, i, selected)
    {
      ChoiceStep(slots, key, i, selected);
      if slots[i].occupied && slots[i].key == key {
        return Some(i);
      }
      if selected.None? && !slots[i].occupied {
        selected := Some(i);
      }
    }
  }

  lemma ChoiceStep(slots: seq<Slot>, key: int, i: nat, selected: Option<nat>)
    requires i < |slots|
    ensures Choice(slots, key, i, selected)
         == if slots[i].occupied && slots[i].key == key then Some(i)
            else Choice(slots, key, i + 1, if selected.None? && !slots[i].occupied then Some(i) else selected)
  {
    assert slots[i..][1..] == slots[i + 1..];
    assert slots[i..][0] == slots[i];
  }

  /** The slot that is chosen when the entries before i offered `selected`. */
  function Choice(slots: seq<Slot>, key: int, i: nat, selected: Option<nat>): Option<nat>
    requires i <= |slots|
  {
    var rest := FindSlot(slots[i..], key);
    if rest.Some? && (selected.None? || slots[i + rest.value].occupied) then Some(i + rest.value) else selected
  }

  /** `stored` and `dropped` mirror the byte log, which retention alone touches. */
  class EventFacility {
    const cfg: Config
    const ingress: Ingress
    var events: seq<EventState>
    var nextSequence: nat
    var accepted: nat
    var accepting: bool
    ghost var stored: seq<Rec>
    ghost var dropped: nat

    ghost predicate Valid()
      reads this, ingress
      reads set k | 0 <= k < |ingress.rings| :: ingress.rings[k]
      reads set k | 0 <= k < |ingress.rings| :: ingress.rings[k].cells
    {
      && ingress.Valid()
      && |ingress.rings| == cfg.Rings() && (forall k :: 0 <= k < cfg.Rings() ==> ingress.depths[k] == cfg.Depth(k))
      && Shaped(cfg, Model())
    }

    /** The state the objects stand for. */
    ghost function Model(): Facility
      reads this, ingress
    {
      Facility(ingress.contents, events, stored, dropped, nextSequence, accepted, accepting)
    }

    /** Facility::init over empty rings and an empty log. */
    constructor (cfg: Config, ingress: Ingress)
      requires cfg.Valid() && ingress.Valid() && |ingress.rings| == cfg.Rings()
      requires forall k :: 0 <= k < cfg.Rings() ==> ingress.depths[k] == cfg.Depth(k)
      requires forall k :: 0 <= k < cfg.Rings() ==> ingress.contents[k] == []
      ensures Valid() && Model() == Init(cfg)
      ensures this.cfg == cfg && this.ingress == ingress
    {
      this.cfg, this.ingress := cfg, ingress;
      events := seq(|cfg.events|, e requires 0 <= e < |cfg.events| => FreshEvent(cfg.events[e]));
      nextSequence, accepted, accepting := 1, 0, true;
      stored, dropped := [], 0;
    }

    /** pop_next. */
    method Pop() returns (r: Option<Rec>)
      requires Valid()
      modifies this`events, ingress, set k | 0 <= k < |ingress.rings| :: ingress.rings[k]
      ensures Valid()
      ensures (Model(), r) == PopNext(old(Model()))
    {
      ghost var before := Model();
      var k := ingress.Scan();
      if k.None? {
        return None;
      }
      PopIs(cfg, before, k.value);
      var record := ingress.Pop(k.value);
      if k.value >= 2 {
        var e := events[k.value - 2];
        events := events[k.value - 2 := e.(inflight := e.inflight + 1)];
      }
      r := Some(record);
    }

    /** capture_event; the accepting check and the locked section are one step. */
    method Capture(o: Observation) returns (outcome: Outcome)
      requires Valid() && o.event < |cfg.events|
      modifies this`events, this`nextSequence, this`accepted, ingress
      modifies set k | 0 <= k < |ingress.rings| :: ingress.rings[k]
      modifies set k | 0 <= k < |ingress.rings| :: ingress.rings[k].cells
      ensures Valid()
      ensures (Model(), outcome) == CaptureEvent(cfg, old(Model()), o)
    {
      if !accepting {
        return Closed;
      }
      CaptureIs(cfg, Model(), o);
      var e, decision := DecideByLoop(cfg.events[o.event], events[o.event], o);
      events := events[o.event := e];
      match decision
      case Skip(skipped) => outcome := skipped;
      case Emit(r) => outcome := AdmitInPlace(o, r);
    }

    /** The reservation check of a critical event, and the push. */
    method TryPush(event: nat, isr: bool, record: Rec) returns (admitted: bool)
      requires Valid() && event < |cfg.events|
      modifies ingress
      modifies set k | 0 <= k < |ingress.rings| :: ingress.rings[k]
      modifies set k | 0 <= k < |ingress.rings| :: ingress.rings[k].cells
      ensures ingress.Valid()
      ensures var ring := cfg.RingFor(event, isr); var e := events[event];
              && (admitted <==>
                    && |old(ingress.contents)[ring]| < cfg.Depth(ring)
                    && (cfg.IsCritical(event) ==>
                          |old(ingress.contents)[ring]| + |e.history| + e.inflight < cfg.Reserved(event)))
              && ingress.contents == if !admitted then old(ingress.contents)
                   else old(ingress.contents)[ring := old(ingress.contents)[ring] + [record]]
    {
      var ring, e := cfg.RingFor(event, isr), events[event];
      var size := ingress.Size(ring);
      if cfg.IsCritical(event) && size + |e.history| + e.inflight >= cfg.Reserved(event) {
        return false;
      }
      admitted := ingress.Push(ring, record);
    }

    method AdmitInPlace(o: Observation, r: Rec) returns (outcome: Outcome)
      requires Valid() && o.event < |cfg.events|
      modifies this`events, this`nextSequence, this`accepted, ingress
      modifies set k | 0 <= k < |ingress.rings| :: ingress.rings[k]
      modifies set k | 0 <= k < |ingress.rings| :: ingress.rings[k].cells
      ensures Valid()
      ensures (Model(), outcome) == Admit(cfg, old(Model()), o, old(events)[o.event], r)
    {
      AdmitShaped(cfg, Model(), o, r);
      var e := events[o.event];
      var record := Numbered(r, nextSequence);
      var admitted := TryPush(o.event, o.isr, record);
      if !admitted {
        events := events[o.event := e.(ingressRejected := e.ingressRejected + 1, knownLost := e.knownLost + 1,
                                       policyCounter := e.policyCounter + 1, overflow := true)];
        return Refused(record);
      }
      nextSequence, accepted := nextSequence + 1, accepted + 1;
      events := events[o.event := e.(captured := e.captured + 1, policyCounter := 0)];
      return Captured(record);
    }

    /** retain_record of a buffered event; `log` is the byte log that `stored` and `dropped` mirror. */
    method RetainBuffered(r: Rec, ghost persisted: bool, log: CompactHistory.Log) returns (ok: bool)
      requires Valid() && r.header.event < |cfg.events| && cfg.events[r.header.event].retention.Buffered?
      requires log.Valid() && log.layout == cfg.layout && log.bytes.Length == cfg.historyBytes
      requires log.records == stored && log.evicted == dropped && CompactHistory.Storable(cfg.layout, r)
      modifies this, log, log.bytes
      ensures Valid() && log.Valid() && log.records == stored && log.evicted == dropped
      ensures (Model(), ok) == RetainRecord(cfg, old(Model()), r, persisted)
    {
      ghost var before := Model();
      var evicted;
      ok, evicted := log.Append(r);
      ghost var records := log.records;
      Account(r.header.event, ok, evicted, records);
      BufferedIs(cfg, before, r, ok, evicted, records);
    }

    /** The counters of a buffered event after the log has answered. */
    method Account(event: nat, ok: bool, evicted: nat, ghost records: seq<Rec>)
      requires Valid() && event < |events|
      modifies this
      ensures Valid()
      ensures Model() == Filed(old(Model()), event, ok, evicted, records)
    {
      StaysShaped(cfg, Model(), event, ok, evicted, records);
      stored, dropped := records, dropped + evicted;
      events := events[event := Accounted(events[event], ok, evicted)];
    }

    /** retain_record of every other event. */
    method RetainOther(r: Rec, persisted: bool) returns (ok: bool)
      requires Valid() && r.header.event < |cfg.events| && !cfg.events[r.header.event].retention.Buffered?
      modifies this`events
      ensures Valid()
      ensures (Model(), ok) == RetainRecord(cfg, old(Model()), r, persisted)
    {
      ghost var before := Model();
      RetainShaped(cfg, before, r, persisted);
      var event, e := r.header.event, events[r.header.event];
      e, ok := RetainElsewhere(cfg.events[event].retention, e, r, persisted);
      events := events[event := e];
      assert e == before.events[event] ==> events == before.events;
    }

    /** The accepting store of start and of a draining stop. */
    method SetAccepting(open: bool)
      requires Valid()
      modifies this`accepting
      ensures Valid() && Model() == old(Model()).(accepting := open)
    {
      accepting := open;
    }

    /** A cancelling stop: capture closes, the rings are emptied and the open aggregates discarded. */
    method Cancel()
      requires Valid()
      modifies this`events, this`accepting, ingress, set k | 0 <= k < |ingress.rings| :: ingress.rings[k]
      ensures Valid()
      ensures Model() == CancelPending(old(Model()))
    {
      CancelShaped(cfg, Model());
      accepting := false;
      ingress.ClearAll();
      events := DiscardAll(events);
      assert Model() == CancelPending(old(Model()));
    }

    /** take_pending_aggregate. */
    method TakePending(event: nat) returns (r: Option<Rec>)
      requires Valid() && event < |cfg.events|
      modifies this`events, this`nextSequence, this`accepted
      ensures Valid()
      ensures (Model(), r) == TakeAggregate(cfg, old(Model()), event)
    {
      var e := events[event];
      var i := SearchOpen(e.slots);
      if i.None? || e.slots[i.value].last.None? {
        return None;
      }
      var slot := e.slots[i.value];
      var last := slot.last.value;
      r := Some(last.(header := last.header.(
                  sequence := nextSequence, occurrences := slot.count,
                  flags := last.header.flags.(aggregated := true))));
      events := events[event := e.(slots := e.slots[i.value := EMPTY_SLOT], captured := e.captured + 1,
                                   policyCounter := 0)];
      nextSequence, accepted := nextSequence + 1, accepted + 1;
    }
  }

  lemma CancelShaped(cfg: Config, s: Facility)
    requires Shaped(cfg, s)
    ensures Shaped(cfg, CancelPending(s))
  {
  }

  /** cancel_aggregates for one event: what its entries counted is lost, and they are free again. */
  method Discard(e: EventState) returns (e': EventState)
    ensures e' == CancelSlots(e)
  {
    var discarded, slots := 0, e.slots;
    assert e.slots[0..] == e.slots;
    for i := 0 to |e.slots|
      invariant |slots| == |e.slots|
      invariant OpenCount(e.slots) == discarded + OpenCount(e.slots[i..])
      invariant forall j :: 0 <= j < i ==> slots[j] == EMPTY_SLOT
    {
      assert e.slots[i..][1..] == e.slots[i + 1..];
      discarded := discarded + e.slots[i].count;
      slots := slots[i := EMPTY_SLOT];
    }
    e' := e.(slots := slots, knownLost := e.knownLost + discarded);
    assert slots == CancelSlots(e).slots;
  }

  method DiscardAll(events: seq<EventState>) returns (discarded: seq<EventState>)
    ensures |discarded| == |events|
    ensures forall e :: 0 <= e < |events| ==> discarded[e] == CancelSlots(events[e])
  {
    discarded := [];
    for e := 0 to |events|
      invariant |discarded| == e
      invariant forall k :: 0 <= k < e ==> discarded[k] == CancelSlots(events[k])
    {
      var cancelled := Discard(events[e]);
      discarded := discarded + [cancelled];
    }
  }

  /** Retention outside the byte log: nothing, reserved storage, or a persistent store. */
  method RetainElsewhere(retention: Retention, e: EventState, r: Rec, persisted: bool)
    returns (e': EventState, ok: bool)
    requires !retention.Buffered?
    ensures match retention
            case Transient => e' == e && ok
            case Persistent => ok == persisted && e' == if persisted then e.(retained := e.retained + 1) else e
            case Critical(slots) =>
              var inflight := if e.inflight != 0 then e.inflight - 1 else 0;
              && (ok <==> |e.history| != slots)
              && e' == if ok then e.(retained := e.retained + 1, inflight := inflight, history := e.history + [r])
                       else e.(knownLost := e.knownLost + 1, overflow := true, inflight := inflight)
  {
    e' := e;
    match retention
    case Transient => ok := true;
    case Persistent =>
      ok := persisted;
      if ok {
        e' := e'.(retained := e'.retained + 1);
      }
    case Critical(slots) =>
      ok := |e.history| != slots;
      if ok {
        e' := e'.(history := e'.history + [r]);
      }
      if e'.inflight != 0 {
        e' := e'.(inflight := e'.inflight - 1);
      }
      e' := if ok then e'.(retained := e'.retained + 1)
            else e'.(knownLost := e'.knownLost + 1, overflow := true);
  }

  /** The first entry of the table that holds occurrences. */
  method SearchOpen(slots: seq<Slot>) returns (r: Option<nat>)
    ensures r == FirstOpen(slots)
  {
    assert slots[0..] == slots;
    for i := 0 to |slots|
      invariant var rest := FirstOpen(slots[i..]);
                FirstOpen(slots) == if rest.None? then None else Some(i + rest.value)
    {
      assert slots[i..][1..] == slots[i + 1..];
      if slots[i].occupied && slots[i].count > 0 {
        return Some(i);
      }
    }
    return None;
  }

  function Accounted(e: EventState, ok: bool, evicted: nat): EventState
  {
    if ok then e.(retained := e.retained + 1, historyEvicted := e.historyEvicted + evicted)
    else e.(knownLost := e.knownLost + 1, overflow := true)
  }

  /** The facility after the log answered: its new contents, and the event's counters. */
  function Filed(s: Facility, event: nat, ok: bool, evicted: nat, records: seq<Rec>): Facility
    requires event < |s.events|
  {
    s.(log := records, evicted := s.evicted + evicted,
       events := s.events[event := Accounted(s.events[event], ok, evicted)])
  }

  lemma BufferedKept(cfg: Config, s: Facility, r: Rec)
    requires r.header.event < |s.events| && CompactHistory.Footprint(cfg.layout, r) <= cfg.historyBytes
    ensures var drop := Evictions(cfg, s.log, r);
            RetainLogged(cfg, s, r) == (Filed(s, r.header.event, true, drop, s.log[drop..] + [r]), true)
  {
  }

  lemma BufferedLost(cfg: Config, s: Facility, r: Rec)
    requires r.header.event < |s.events| && CompactHistory.Footprint(cfg.layout, r) > cfg.historyBytes
    ensures RetainLogged(cfg, s, r) == (Filed(s, r.header.event, false, 0, s.log), false)
  {
  }

  /** Retaining a buffered record is filing what the byte log answers. */
  lemma BufferedIs(cfg: Config, s: Facility, r: Rec, ok: bool, evicted: nat, records: seq<Rec>)
    requires r.header.event < |s.events|
    requires ok <==> CompactHistory.Footprint(cfg.layout, r) <= cfg.historyBytes
    requires !ok ==> evicted == 0 && records == s.log
    requires ok ==> evicted == Evictions(cfg, s.log, r) && records == s.log[evicted..] + [r]
    ensures RetainLogged(cfg, s, r) == (Filed(s, r.header.event, ok, evicted, records), ok)
  {
    if ok {
      BufferedKept(cfg, s, r);
    } else {
      BufferedLost(cfg, s, r);
    }
  }

  lemma StaysShaped(cfg: Config, s: Facility, event: nat, ok: bool, evicted: nat, records: seq<Rec>)
    requires Shaped(cfg, s) && event < |s.events|
    ensures Shaped(cfg, Filed(s, event, ok, evicted, records))
  {
  }

  lemma RetainShaped(cfg: Config, s: Facility, r: Rec, persisted: bool)
    requires Shaped(cfg, s) && r.header.event < |cfg.events|
    ensures Shaped(cfg, RetainRecord(cfg, s, r, persisted).0)
  {
  }

  /** The capture policy, with the loop over the aggregation entries. */
  method DecideByLoop(c: EventConfig, e: EventState, o: Observation) returns (e': EventState, decision: Decision)
    requires c.capture.SampleEvery? ==> c.capture.period > 0
    ensures (e', decision) == Decide(c, e, o)
  {
    e' := e.(attempts := e.attempts + 1);
    var gate := PassGate(c.capture, e'.attempts, o.now, e'.windowStart);
    if gate.Sample? {
      e' := e'.(sampled := e'.sampled + 1);
      return e', Skip(SampledOut);
    }
    if gate.Limit? {
      e' := e'.(rateLimited := e'.rateLimited + 1);
      return e', Skip(Limited);
    }
    e' := e'.(windowStart := gate.windowStart);
    var r := MakeRecord(c, e'.policyCounter, o);
    if c.capture.Aggregate? {
      e', decision := AggregateByLoop(c, e', o, r);
    } else {
      decision := Emit(r);
    }
  }

  method AggregateByLoop(c: EventConfig, e: EventState, o: Observation, r: Rec)
    returns (e': EventState, decision: Decision)
    requires c.capture.Aggregate?
    ensures (e', decision) == DecideAggregate(c, e, o, r)
  {
    var found := SearchSlot(e.slots, o.key);
    if found.None? {
      e' := e.(keysRejected := e.keysRejected + 1, knownLost := e.knownLost + 1, policyCounter := e.policyCounter + 1);
      return e', Skip(KeysFull);
    }
    match Accumulate(e.slots[found.value], o.key, r, o.now, c.capture.window)
    case Held(slot) =>
      e' := e.(slots := e.slots[found.value := slot], aggregated := e.aggregated + 1);
      decision := Skip(Absorbed);
    case Closing(occurrences) =>
      e' := e.(slots := e.slots[found.value := EMPTY_SLOT]);
      decision := Emit(r.(header := r.header.(occurrences := occurrences)));
  }

  /** A record taken from a critical ring is in flight until it is retained. */
  function Bumped(events: seq<EventState>, ring: nat): seq<EventState>
    requires ring < 2 + |events|
  {
    if ring < 2 then events
    else events[ring - 2 := events[ring - 2].(inflight := events[ring - 2].inflight + 1)]
  }

  lemma PopIs(cfg: Config, s: Facility, k: nat)
    requires Shaped(cfg, s) && Earliest(s.rings, |s.rings|) == Some(k)
    ensures var s' := s.(rings := s.rings[k := s.rings[k][1..]], events := Bumped(s.events, k));
            PopNext(s) == (s', Some(s.rings[k][0])) && Shaped(cfg, s')
  {
  }

  lemma AdmitShaped(cfg: Config, s: Facility, o: Observation, r: Rec)
    requires Shaped(cfg, s) && o.event < |cfg.events|
    ensures Shaped(cfg, Admit(cfg, s, o, s.events[o.event], r).0)
  {
  }

  /** Capturing is deciding on the event's state and then admitting what was decided. */
  lemma CaptureIs(cfg: Config, s: Facility, o: Observation)
    requires Shaped(cfg, s) && o.event < |cfg.events| && s.accepting
    ensures var (e, decision) := Decide(cfg.events[o.event], s.events[o.event], o);
            var s' := s.(events := s.events[o.event := e]);
            && Shaped(cfg, s')
            && (decision.Skip? ==> CaptureEvent(cfg, s, o) == (s', decision.outcome))
            && (decision.Emit? ==> CaptureEvent(cfg, s, o) == Admit(cfg, s', o, s'.events[o.event], decision.record))
  {
    var (e, decision) := Decide(cfg.events[o.event], s.events[o.event], o);
    if decision.Emit? {
      AdmitFromUpdated(cfg, s, o, e, decision.record);
    }
  }

  lemma UpdateTwice<T>(s: seq<T>, i: nat, x: T, y: T)
    requires i < |s|
    ensures s[i := x][i := y] == s[i := y]
  {
  }

  lemma AdmitFromUpdated(cfg: Config, s: Facility, o: Observation, e: EventState, r: Rec)
    requires Shaped(cfg, s) && o.event < |cfg.events|
    requires Shaped(cfg, s.(events := s.events[o.event := e]))
    ensures Admit(cfg, s.(events := s.events[o.event := e]), o, e, r) == Admit(cfg, s, o, e, r)
  {
    var (s', _) := Admit(cfg, s, o, e, r);
    UpdateTwice(s.events, o.event, e, s'.events[o.event]);
  }
}
