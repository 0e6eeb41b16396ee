/** Event capture, merging and retention as a state machine
    (include/solar/events/runtime.hpp, include/solar/events/facility.hpp).

    One locked section is one step. Ring 0 is the thread ingress, ring 1 the ISR ingress and ring
    2 + e the critical ingress of event e. Counters are unbounded naturals.
 */
module EventPipeline {
  import opened Basics
  import opened EventRecords
  import opened CompactHistory

  type Rec = StoredRecord

  // ---------------------------------------------------------------- configuration

  datatype Capture =
    | EveryOccurrence
    | SampleEvery(period: nat)
    | RateLimited(interval: int)
    | Aggregate(window: int, keys: nat)

  datatype Retention = Transient | Buffered | Critical(slots: nat) | Persistent

  datatype EventConfig = EventConfig(
    capture: Capture,
    retention: Retention,
    payloadSize: nat,
    severity: nat,
    schema: nat,
    recovers: bool)

  datatype Config = Config(
    events: seq<EventConfig>,
    threadDepth: nat,
    isrDepth: nat,
    layout: Layout,
    historyBytes: nat,
    drainOnStop: bool)
  {
    predicate Valid()
    {
      forall e :: 0 <= e < |events| ==>
        && (events[e].capture.SampleEvery? ==> events[e].capture.period > 0)
        && (events[e].capture.Aggregate? ==> events[e].capture.keys > 0)
    }

    predicate IsCritical(event: nat)
    {
      event < |events| && events[event].retention.Critical?
    }

    predicate Aggregates(event: nat)
    {
      event < |events| && events[event].capture.Aggregate?
    }

    function Reserved(event: nat): nat
    {
      if IsCritical(event) then events[event].retention.slots else 0
    }

    function Rings(): nat { 2 + |events| }

    function Depth(ring: nat): nat
    {
      if ring == 0 then threadDepth else if ring == 1 then isrDepth else Reserved(ring - 2)
    }

    function RingFor(event: nat, isr: bool): nat
    {
      if IsCritical(event) then 2 + event else if isr then 1 else 0
    }

    function RingOf(r: Rec): nat
    {
      RingFor(r.header.event, r.header.context.IsrContext?)
    }
  }

  // ---------------------------------------------------------------- state

  /** One entry of the aggregation table. An unkeyed policy is a table of one entry. */
  datatype Slot = Slot(occupied: bool, key: int, windowStart: int, count: nat, last: Option<Rec>)

  const EMPTY_SLOT := Slot(false, 0, 0, 0, None)

  datatype EventState = EventState(
    attempts: nat,
    captured: nat,
    sampled: nat,
    rateLimited: nat,
    aggregated: nat,
    keysRejected: nat,
    ingressRejected: nat,
    retained: nat,
    historyEvicted: nat,
    knownLost: nat,
    overflow: bool,
    windowStart: int,
    policyCounter: nat,
    slots: seq<Slot>,
    history: seq<Rec>,
    inflight: nat)

  datatype Facility = Facility(
    rings: seq<seq<Rec>>,
    events: seq<EventState>,
    log: seq<Rec>,
    evicted: nat,
    nextSequence: nat,
    accepted: nat,
    accepting: bool)

  datatype Observation = Observation(
    event: nat,
    isr: bool,
    source: Source,
    key: int,
    payload: seq<Byte>,
    now: int,
    correlation: nat,
    logIntent: nat)

  datatype Outcome =
    | Closed
    | SampledOut
    | Limited
    | Absorbed
    | KeysFull
    | Refused(record: Rec)
    | Captured(record: Rec)

  function FreshEvent(c: EventConfig): EventState
  {
    EventState(0, 0, 0, 0, 0, 0, 0, 0, 0, 0, false, 0, 0,
               if c.capture.Aggregate? then seq(c.capture.keys, _ => EMPTY_SLOT) else [], [], 0)
  }

  function Init(cfg: Config): Facility
  {
    Facility(seq(cfg.Rings(), _ => []),
             seq(|cfg.events|, e requires 0 <= e < |cfg.events| => FreshEvent(cfg.events[e])),
             [], 0, 1, 0, true)
  }

  predicate Shaped(cfg: Config, s: Facility)
  {
    && cfg.Valid()
    && |s.rings| == cfg.Rings()
    && |s.events| == |cfg.events|
    && s.nextSequence > 0
    && forall e :: 0 <= e < |s.events| ==>
         |s.events[e].slots| == if cfg.events[e].capture.Aggregate? then cfg.events[e].capture.keys else 0
  }

  // ---------------------------------------------------------------- capture

  const MAX_U32: nat := 0xFFFF_FFFF

  function MakeRecord(c: EventConfig, policyCounter: nat, o: Observation): Rec
  {
    var lost := if policyCounter < MAX_U32 then policyCounter else MAX_U32;
    StoredRecord(
      RecordHeader(o.event, o.source, 0, o.now, if o.isr then IsrContext else ThreadContext, 0,
                   c.severity, o.correlation, o.logIntent, 1, lost, c.payloadSize, c.schema,
                   Flags(false, lost != 0, c.retention.Critical?, c.recovers)),
      o.payload)
  }

  /** The slot of the key, else the first free slot, else none: the capture loop's choice. */
  function FindSlot(slots: seq<Slot>, key: int): (r: Option<nat>)
    ensures r.Some? ==> r.value < |slots|
  {
    if slots == [] then None
    else if slots[0].occupied && slots[0].key == key then Some(0)
    else
      var rest := FindSlot(slots[1..], key);
      if !slots[0].occupied && (rest.None? || !slots[rest.value + 1].occupied) then Some(0)
      else if rest.None? then None
      else Some(rest.value + 1)
  }

  /** Exactly what the loop chooses: the first slot of the key, else the first free slot. */
  lemma {:induction false} FindSlotIsFirst(slots: seq<Slot>, key: int)
    ensures match FindSlot(slots, key)
            case None => forall i :: 0 <= i < |slots| ==> slots[i].occupied && slots[i].key != key
            case Some(k) =>
              && k < |slots|
              && (if slots[k].occupied
                  then slots[k].key == key && forall j :: 0 <= j < k ==> !slots[j].occupied || slots[j].key != key
                  else && (forall j :: 0 <= j < |slots| && slots[j].occupied ==> slots[j].key != key)
                       && forall j :: 0 <= j < k ==> slots[j].occupied)
  {
    if slots != [] {
      FindSlotIsFirst(slots[1..], key);
      assert forall i :: 1 <= i < |slots| ==> slots[i] == slots[1..][i - 1];
    }
  }

  datatype Gate = Open(windowStart: int) | Sample | Limit

  function PassGate(c: Capture, attempts: nat, now: int, windowStart: int): Gate
    requires attempts > 0 && (c.SampleEvery? ==> c.period > 0)
  {
    match c
    case EveryOccurrence => Open(windowStart)
    case SampleEvery(period) => if (attempts - 1) % period == 0 then Open(windowStart) else Sample
    case RateLimited(interval) =>
      if attempts == 1 || now - windowStart >= interval then Open(now) else Limit
    case Aggregate(_, _) => Open(windowStart)
  }

  datatype Folded = Held(slot: Slot) | Closing(occurrences: nat)

  function Accumulate(slot: Slot, key: int, r: Rec, now: int, window: int): Folded
  {
    if slot.count == 0 then Held(Slot(true, key, now, 1, Some(r)))
    else if now - slot.windowStart < window then
      Held(Slot(true, slot.key, slot.windowStart, slot.count + 1, Some(r)))
    else Closing(slot.count + 1)
  }

  datatype Decision = Skip(outcome: Outcome) | Emit(record: Rec)

  /** The aggregating policies: fold the occurrence into its slot, or close the slot's window. */
  function DecideAggregate(c: EventConfig, e: EventState, o: Observation, r: Rec): (EventState, Decision)
    requires c.capture.Aggregate?
  {
    var found := FindSlot(e.slots, o.key);
    if found.None? then
      (e.(keysRejected := e.keysRejected + 1, knownLost := e.knownLost + 1,
          policyCounter := e.policyCounter + 1),
       Skip(KeysFull))
    else
      match Accumulate(e.slots[found.value], o.key, r, o.now, c.capture.window)
      case Held(slot) =>
        (e.(slots := e.slots[found.value := slot], aggregated := e.aggregated + 1), Skip(Absorbed))
      case Closing(occurrences) =>
        (e.(slots := e.slots[found.value := EMPTY_SLOT]),
         Emit(r.(header := r.header.(occurrences := occurrences))))
  }

  /** The capture policy of one event, up to the record it materialises. */
  function Decide(c: EventConfig, e: EventState, o: Observation): (EventState, Decision)
    requires c.capture.SampleEvery? ==> c.capture.period > 0
  {
    var e := e.(attempts := e.attempts + 1);
    match PassGate(c.capture, e.attempts, o.now, e.windowStart)
    case Sample => (e.(sampled := e.sampled + 1), Skip(SampledOut))
    case Limit => (e.(rateLimited := e.rateLimited + 1), Skip(Limited))
    case Open(windowStart) =>
      var e := e.(windowStart := windowStart);
      var r := MakeRecord(c, e.policyCounter, o);
      if c.capture.Aggregate? then DecideAggregate(c, e, o, r) else (e, Emit(r))
  }

  function Numbered(r: Rec, sequence: nat): Rec
  {
    r.(header := r.header.(
         sequence := sequence,
         flags := r.header.flags.(aggregated := r.header.flags.aggregated || r.header.occurrences > 1)))
  }

  /** Push a materialised record into its ring under the next sequence number. */
  function Admit(cfg: Config, s: Facility, o: Observation, e: EventState, r: Rec): (Facility, Outcome)
    requires Shaped(cfg, s) && o.event < |cfg.events|
  {
    var ring := cfg.RingFor(o.event, o.isr);
    var record := Numbered(r, s.nextSequence);
    var room := |s.rings[ring]| < cfg.Depth(ring)
      && (cfg.IsCritical(o.event) ==>
            |s.rings[ring]| + |e.history| + e.inflight < cfg.Reserved(o.event));
    if !room then
      (s.(events := s.events[o.event := e.(ingressRejected := e.ingressRejected + 1,
                                           knownLost := e.knownLost + 1,
                                           policyCounter := e.policyCounter + 1,
                                           overflow := true)]),
       Refused(record))
    else
      (s.(rings := s.rings[ring := s.rings[ring] + [record]],
          events := s.events[o.event := e.(captured := e.captured + 1, policyCounter := 0)],
          nextSequence := s.nextSequence + 1,
          accepted := s.accepted + 1),
       Captured(record))
  }

  /** capture_event: the accepting check and the locked section, as one step. */
  function CaptureEvent(cfg: Config, s: Facility, o: Observation): (Facility, Outcome)
    requires Shaped(cfg, s) && o.event < |cfg.events|
  {
    if !s.accepting then (s, Closed)
    else
      var (e, decision) := Decide(cfg.events[o.event], s.events[o.event], o);
      match decision
      case Skip(outcome) => (s.(events := s.events[o.event := e]), outcome)
      case Emit(r) => Admit(cfg, s, o, e, r)
  }

  // ---------------------------------------------------------------- pop, retain, flush, cancel

  /** The ring whose front carries the least sequence, scanning the first n rings in order. */
  function Earliest(rings: seq<seq<Rec>>, n: nat): (r: Option<nat>)
    requires n <= |rings|
    ensures r.Some? ==> r.value < n && rings[r.value] != []
  {
    if n == 0 then None
    else
      var best := Earliest(rings, n - 1);
      if rings[n - 1] != []
         && (best.None? || rings[n - 1][0].header.sequence < rings[best.value][0].header.sequence)
      then Some(n - 1) else best
  }

  /** The scan finds a least front, and none exactly when all rings are empty. */
  lemma {:induction false} EarliestIsLeast(rings: seq<seq<Rec>>, n: nat)
    requires n <= |rings|
    ensures match Earliest(rings, n)
            case None => forall k :: 0 <= k < n ==> rings[k] == []
            case Some(best) =>
              && best < n && rings[best] != []
              && forall k :: 0 <= k < n && rings[k] != [] ==>
                   rings[best][0].header.sequence <= rings[k][0].header.sequence
  {
    if n > 0 {
      EarliestIsLeast(rings, n - 1);
    }
  }

  /** pop_next: take the front of that ring; a critical record becomes in-flight. */
  function PopNext(s: Facility): (Facility, Option<Rec>)
    requires |s.rings| == 2 + |s.events|
  {
    var k := Earliest(s.rings, |s.rings|);
    if k.None? then (s, None)
    else
      var popped := s.(rings := s.rings[k.value := s.rings[k.value][1..]]);
      if k.value < 2 then (popped, Some(s.rings[k.value][0]))
      else
        var e := s.events[k.value - 2];
        (popped.(events := s.events[k.value - 2 := e.(inflight := e.inflight + 1)]),
         Some(s.rings[k.value][0]))
  }

  /** How many oldest records the byte log gives up for a record that fits it. */
  function Evictions(cfg: Config, log: seq<Rec>, r: Rec): (k: nat)
    requires Footprint(cfg.layout, r) <= cfg.historyBytes
    ensures k <= |log|
  {
    LeastDrop(cfg.layout, log, cfg.historyBytes - Footprint(cfg.layout, r))
  }

  /** Retention in the byte log. */
  function RetainLogged(cfg: Config, s: Facility, r: Rec): (Facility, bool)
    requires r.header.event < |s.events|
  {
    var e := s.events[r.header.event];
    if Footprint(cfg.layout, r) > cfg.historyBytes then
      (s.(events := s.events[r.header.event := e.(knownLost := e.knownLost + 1, overflow := true)]), false)
    else
      var drop := Evictions(cfg, s.log, r);
      (s.(log := s.log[drop..] + [r], evicted := s.evicted + drop,
          events := s.events[r.header.event := e.(retained := e.retained + 1,
                                                  historyEvicted := e.historyEvicted + drop)]),
       true)
  }

  /** retain_record: `persisted` is the answer of a persistent store. */
  function RetainRecord(cfg: Config, s: Facility, r: Rec, persisted: bool): (result: (Facility, bool))
    requires Shaped(cfg, s) && r.header.event < |cfg.events|
    ensures |result.0.events| == |s.events| && result.0.rings == s.rings
  {
    var e := s.events[r.header.event];
    var kept := e.(retained := e.retained + 1);
    match cfg.events[r.header.event].retention
    case Transient => (s, true)
    case Buffered => RetainLogged(cfg, s, r)
    case Critical(slots) =>
      var inflight := if e.inflight != 0 then e.inflight - 1 else 0;
      if |e.history| == slots then
        (s.(events := s.events[r.header.event := e.(knownLost := e.knownLost + 1, overflow := true,
                                                    inflight := inflight)]), false)
      else
        (s.(events := s.events[r.header.event := kept.(inflight := inflight, history := e.history + [r])]),
         true)
    case Persistent =>
      if persisted then (s.(events := s.events[r.header.event := kept]), true) else (s, false)
  }

  function FirstOpen(slots: seq<Slot>): (r: Option<nat>)
    ensures r.Some? ==> r.value < |slots|
  {
    if slots == [] then None
    else if slots[0].occupied && slots[0].count > 0 then Some(0)
    else
      var rest := FirstOpen(slots[1..]);
      if rest.None? then None else Some(rest.value + 1)
  }

  /** The open slot that is taken is the first one. */
  lemma {:induction false} FirstOpenIsFirst(slots: seq<Slot>)
    ensures match FirstOpen(slots)
            case None => forall i :: 0 <= i < |slots| ==> !slots[i].occupied || slots[i].count == 0
            case Some(k) =>
              && k < |slots| && slots[k].occupied && slots[k].count > 0
              && forall j :: 0 <= j < k ==> !slots[j].occupied || slots[j].count == 0
  {
    if slots != [] {
      FirstOpenIsFirst(slots[1..]);
      assert forall i :: 1 <= i < |slots| ==> slots[i] == slots[1..][i - 1];
    }
  }

  /** take_pending_aggregate: give the first open slot a sequence number of its own. */
  function TakeAggregate(cfg: Config, s: Facility, event: nat): (Facility, Option<Rec>)
    requires Shaped(cfg, s) && event < |cfg.events|
  {
    var e := s.events[event];
    var open := FirstOpen(e.slots);
    if open.None? || e.slots[open.value].last.None? then (s, None)
    else
      var slot := e.slots[open.value];
      var last := slot.last.value;
      var record := last.(header := last.header.(
        sequence := s.nextSequence, occurrences := slot.count,
        flags := last.header.flags.(aggregated := true)));
      (s.(events := s.events[event := e.(slots := e.slots[open.value := EMPTY_SLOT],
                                         captured := e.captured + 1, policyCounter := 0)],
          nextSequence := s.nextSequence + 1,
          accepted := s.accepted + 1),
       Some(record))
  }

  function OpenCount(slots: seq<Slot>): nat
  {
    if slots == [] then 0 else slots[0].count + OpenCount(slots[1..])
  }

  function CancelSlots(e: EventState): EventState
  {
    e.(slots := seq(|e.slots|, _ => EMPTY_SLOT), knownLost := e.knownLost + OpenCount(e.slots))
  }

  /** stop with CancelPending: every ring and every open aggregate is dropped. */
  function CancelPending(s: Facility): Facility
  {
    s.(accepting := false,
       rings := seq(|s.rings|, _ => []),
       events := seq(|s.events|, e requires 0 <= e < |s.events| => CancelSlots(s.events[e])))
  }

  // ---------------------------------------------------------------- runs

  /** What the single drainer holds between its locked sections. */
  datatype Drainer = Idle | Popped(record: Rec) | Retained(record: Rec)

  /** The facility, its drainer, and the auxiliary record of everything admitted so far. */
  datatype System = System(
    fac: Facility,
    drainer: Drainer,
    admitted: seq<Rec>,
    processed: seq<Rec>,
    refused: seq<Rec>,
    discarded: seq<nat>)

  datatype Op =
    | Observe(observation: Observation)
    | Pop
    | Retain(persisted: bool)
    | Conclude
    | Stop
    | Start
    | Flush(event: nat)

  function Start0(cfg: Config): System
  {
    System(Init(cfg), Idle, [], [], [], seq(|cfg.events|, _ => 0))
  }

  predicate RingsEmpty(s: Facility)
  {
    forall k :: 0 <= k < |s.rings| ==> s.rings[k] == []
  }

  predicate Enabled(cfg: Config, s: System, op: Op)
  {
    match op
    case Observe(o) => o.event < |cfg.events|
    case Pop => s.drainer.Idle?
    case Retain(_) => s.drainer.Popped?
    case Conclude => s.drainer.Retained?
    case Stop => true
    case Start => true
    case Flush(e) =>
      // after the final drain found every ring empty, with capture closed
      e < |cfg.events| && s.drainer.Idle? && !s.fac.accepting && cfg.drainOnStop && RingsEmpty(s.fac)
  }

  predicate HeldInRange(cfg: Config, s: System)
  {
    !s.drainer.Idle? ==> s.drainer.record.header.event < |cfg.events|
  }

  function Step(cfg: Config, s: System, op: Op): System
    requires Shaped(cfg, s.fac) && |s.discarded| == |cfg.events| && HeldInRange(cfg, s)
    requires Enabled(cfg, s, op)
  {
    match op
    case Observe(o) =>
      var (fac, outcome) := CaptureEvent(cfg, s.fac, o);
      (match outcome
       case Captured(r) => s.(fac := fac, admitted := s.admitted + [r])
       case Refused(r) => s.(fac := fac, refused := s.refused + [r])
       case _ => s.(fac := fac))
    case Pop =>
      var (fac, r) := PopNext(s.fac);
      if r.None? then s else s.(fac := fac, drainer := Popped(r.value))
    case Retain(persisted) =>
      s.(fac := RetainRecord(cfg, s.fac, s.drainer.record, persisted).0,
         drainer := Retained(s.drainer.record))
    case Conclude =>
      s.(drainer := Idle, processed := s.processed + [s.drainer.record])
    case Stop =>
      if cfg.drainOnStop then s.(fac := s.fac.(accepting := false))
      else s.(fac := CancelPending(s.fac),
              discarded := seq(|s.discarded|, e requires 0 <= e < |s.discarded| =>
                s.discarded[e] + OpenCount(s.fac.events[e].slots)))
    case Start => s.(fac := s.fac.(accepting := true))
    case Flush(event) =>
      var (fac, r) := TakeAggregate(cfg, s.fac, event);
      if r.None? then s
      else s.(fac := fac, drainer := Popped(r.value), admitted := s.admitted + [r.value])
  }
}
