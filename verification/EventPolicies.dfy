/** What the capture policies promise over every run, told by the history of one event alone
    (should_materialize, capture_event and take_pending_aggregate in include/solar/events/runtime.hpp).
 */
module EventPolicies {
  import opened Arithmetic
  import opened Basics
  import opened EventRecords
  import opened EventPipeline
  import opened EventOrdering

  // ---------------------------------------------------------------- the history of one event

  datatype Happening =
    | Attempted(observation: Observation, outcome: Outcome)
    | Flushed(key: int, record: Rec)
    | Filed(record: Rec, fate: Fate, dropped: nat)
    | Cancelled(discarded: nat)

  /** A record is kept, lost for want of room, or not saved by a persistent store. */
  datatype Fate = Kept | Lost | Unsaved

  /** What a step does to the event, if anything its capture policy can notice. */
  ghost function Happens(cfg: Config, s: System, op: Op, event: nat): Option<Happening>
    requires Ready(cfg, s) && Enabled(cfg, s, op) && event < |cfg.events|
  {
    match op
    case Observe(o) =>
      if o.event == event && s.fac.accepting then Some(Attempted(o, CaptureEvent(cfg, s.fac, o).1)) else None
    case Flush(e) =>
      var slots := s.fac.events[event].slots;
      if e == event && TakeAggregate(cfg, s.fac, event).1.Some?
      then Some(Flushed(slots[FirstOpen(slots).value].key, TakeAggregate(cfg, s.fac, event).1.value))
      else None
    case Retain(persisted) =>
      var r := s.drainer.record;
      var retention := cfg.events[event].retention;
      if r.header.event != event || retention.Transient? then None
      else
        var (fac, kept) := RetainRecord(cfg, s.fac, r, persisted);
        Some(Filed(r, if kept then Kept else if retention.Persistent? then Unsaved else Lost,
                   if fac.evicted > s.fac.evicted then fac.evicted - s.fac.evicted else 0))
    case Stop => if cfg.drainOnStop then None else Some(Cancelled(OpenCount(s.fac.events[event].slots)))
    case _ => None
  }

  ghost function History(cfg: Config, ops: seq<Op>, event: nat): seq<Happening>
    requires cfg.Valid() && event < |cfg.events|
  {
    if ops == [] then []
    else
      var before := History(cfg, ops[..|ops| - 1], event);
      var s, op := Run(cfg, ops[..|ops| - 1]), ops[|ops| - 1];
      if !Enabled(cfg, s, op) then before
      else
        match Happens(cfg, s, op, event)
        case Some(x) => before + [x]
        case None => before
  }

  // ---------------------------------------------------------------- what a history tells

  predicate Materialised(outcome: Outcome) { outcome.Captured? || outcome.Refused? }

  function Attempts(h: seq<Happening>): (a: seq<Happening>)
    ensures forall i :: 0 <= i < |a| ==> a[i].Attempted?
  {
    if h == [] then []
    else Attempts(h[..|h| - 1]) + if h[|h| - 1].Attempted? then [h[|h| - 1]] else []
  }

  datatype Kind = Sampling | Limiting | Absorbing | Rejecting | Refusing | Capturing | Keeping | Losing

  predicate IsOf(x: Happening, kind: Kind)
  {
    if x.Flushed? then kind == Capturing
    else if x.Filed? then (x.fate.Kept? && kind == Keeping) || (x.fate.Lost? && kind == Losing)
    else if x.Cancelled? then false
    else
      match x.outcome
      case SampledOut => kind == Sampling
      case Limited => kind == Limiting
      case Absorbed => kind == Absorbing
      case KeysFull => kind == Rejecting
      case Refused(_) => kind == Refusing
      case Captured(_) => kind == Capturing
      case Closed => false
  }

  function Count(h: seq<Happening>, kind: Kind): nat
  {
    if h == [] then 0 else Count(h[..|h| - 1], kind) + if IsOf(h[|h| - 1], kind) then 1 else 0
  }

  /** When the event was last let through. */
  function LastOpened(h: seq<Happening>): Option<int>
  {
    if h == [] then None
    else
      var x := h[|h| - 1];
      if x.Attempted? && !x.outcome.Limited? then Some(x.observation.now) else LastOpened(h[..|h| - 1])
  }

  /** Occurrences lost for want of a key or of room since a record of the event last got a number. */
  function LostSince(h: seq<Happening>): nat
  {
    if h == [] then 0
    else
      var x := h[|h| - 1];
      if IsOf(x, Capturing) then 0
      else LostSince(h[..|h| - 1]) + if IsOf(x, Rejecting) || IsOf(x, Refusing) then 1 else 0
  }

  /** An absorbed occurrence, and what had been lost before it. */
  datatype Member = Member(observation: Observation, lost: nat)

  predicate Ends(x: Happening, key: int)
  {
    match x
    case Attempted(o, outcome) => o.key == key && Materialised(outcome)
    case Flushed(k, _) => k == key
    case Filed(_, _, _) => false
    case Cancelled(_) => true
  }

  predicate Joins(x: Happening, key: int)
  {
    x.Attempted? && x.observation.key == key && x.outcome.Absorbed?
  }

  /** The occurrences in the open window of a key: those absorbed since its last window ended. */
  function Members(h: seq<Happening>, key: int): seq<Member>
  {
    if h == [] then []
    else MembersAfter(Members(h[..|h| - 1], key), key, h[|h| - 1], LostSince(h[..|h| - 1]))
  }

  function MembersAfter(members: seq<Member>, key: int, x: Happening, lost: nat): seq<Member>
  {
    if Ends(x, key) then [] else if Joins(x, key) then members + [Member(x.observation, lost)] else members
  }

  /** The keys with an open window. */
  function OpenKeys(h: seq<Happening>): set<int>
  {
    if h == [] then {} else KeysAfter(OpenKeys(h[..|h| - 1]), h[|h| - 1])
  }

  function KeysAfter(keys: set<int>, x: Happening): set<int>
  {
    match x
    case Attempted(o, outcome) =>
      if Materialised(outcome) then keys - {o.key} else if outcome.Absorbed? then keys + {o.key} else keys
    case Flushed(key, _) => keys - {key}
    case Filed(_, _, _) => keys
    case Cancelled(_) => {}
  }

  lemma {:induction false} OpenMeansMembers(h: seq<Happening>, key: int)
    ensures key in OpenKeys(h) <==> Members(h, key) != []
  {
    if h != [] {
      OpenMeansMembers(h[..|h| - 1], key);
    }
  }

  /** The record speaks of the occurrence `o` of its event. */
  ghost predicate Carries(c: EventConfig, o: Observation, lost: nat, occurrences: nat, aggregated: bool, r: Rec)
  {
    && r.payload == o.payload && r.header.event == o.event && r.header.source == o.source
    && r.header.timestamp == o.now && r.header.quality == 0
    && r.header.context == (if o.isr then IsrContext else ThreadContext)
    && r.header.correlation == o.correlation && r.header.logIntent == o.logIntent
    && r.header.severity == c.severity && r.header.schema == c.schema && r.header.payloadSize == c.payloadSize
    && r.header.occurrences == occurrences
    && r.header.lostBefore == (if lost <= MAX_U32 then lost else MAX_U32)
    && r.header.flags == Flags(aggregated, lost > 0, c.retention.Critical?, c.recovers)
  }

  ghost predicate Emits(c: EventConfig, h: seq<Happening>, o: Observation, outcome: Outcome, occurrences: nat)
  {
    Materialised(outcome) && Carries(c, o, LostSince(h), occurrences, occurrences > 1, outcome.record)
  }

  /** What the policy owes to an attempt after the history `h`. */
  ghost predicate Owed(c: EventConfig, h: seq<Happening>, o: Observation, outcome: Outcome)
    requires c.capture.SampleEvery? ==> c.capture.period > 0
  {
    match c.capture
    case EveryOccurrence => Emits(c, h, o, outcome, 1)
    case SampleEvery(period) =>
      if |Attempts(h)| % period == 0 then Emits(c, h, o, outcome, 1) else outcome == SampledOut
    case RateLimited(interval) =>
      if LastOpened(h).Some? && o.now - LastOpened(h).value < interval then outcome == Limited
      else Emits(c, h, o, outcome, 1)
    case Aggregate(window, keys) =>
      var members := Members(h, o.key);
      if members == [] then outcome == if |OpenKeys(h)| < keys then Absorbed else KeysFull
      else if o.now - members[0].observation.now < window then outcome == Absorbed
      else Emits(c, h, o, outcome, |members| + 1)
  }

  /** What may happen to the event after the history `h`. */
  ghost predicate Right(c: EventConfig, event: nat, h: seq<Happening>, x: Happening)
    requires c.capture.SampleEvery? ==> c.capture.period > 0
  {
    match x
    case Attempted(o, outcome) => o.event == event && Owed(c, h, o, outcome)
    case Flushed(key, r) =>
      var members := Members(h, key);
      && members != []
      && var last := members[|members| - 1];
         Carries(c, last.observation, last.lost, |members|, true, r)
    case Filed(r, _, _) => r.header.event == event
    case Cancelled(_) => true
  }

  ghost predicate AllRight(c: EventConfig, event: nat, h: seq<Happening>)
    requires c.capture.SampleEvery? ==> c.capture.period > 0
  {
    h == [] || (AllRight(c, event, h[..|h| - 1]) && Right(c, event, h[..|h| - 1], h[|h| - 1]))
  }

  lemma {:induction false} EachIsRight(c: EventConfig, event: nat, h: seq<Happening>, i: nat)
    requires c.capture.SampleEvery? ==> c.capture.period > 0
    requires AllRight(c, event, h) && i < |h|
    ensures Right(c, event, h[..i], h[i])
  {
    var n := |h| - 1;
    if i < n {
      EachIsRight(c, event, h[..n], i);
      assert h[..n][..i] == h[..i];
    }
  }

  // ---------------------------------------------------------------- the state tells the same

  ghost predicate Counts(e: EventState, h: seq<Happening>)
  {
    && e.attempts == |Attempts(h)|
    && e.sampled == Count(h, Sampling) && e.rateLimited == Count(h, Limiting)
    && e.aggregated == Count(h, Absorbing) && e.keysRejected == Count(h, Rejecting)
    && e.ingressRejected == Count(h, Refusing) && e.captured == Count(h, Capturing)
    && e.policyCounter == LostSince(h)
  }

  /** The rate limit's window starts where the event was last let through. */
  ghost predicate Armed(c: EventConfig, e: EventState, h: seq<Happening>)
  {
    c.capture.RateLimited? ==>
      (LastOpened(h).None? <==> e.attempts == 0) && (LastOpened(h).Some? ==> LastOpened(h).value == e.windowStart)
  }

  ghost predicate SlotTells(c: EventConfig, slot: Slot, members: seq<Member>)
  {
    slot.occupied ==>
      && members != [] && slot.count == |members| && slot.windowStart == members[0].observation.now
      && slot.last.Some?
      && var last := members[|members| - 1];
         Carries(c, last.observation, last.lost, 1, false, slot.last.value)
  }

  function SlotKeys(slots: seq<Slot>): set<int>
  {
    if slots == [] then {}
    else
      var slot := slots[|slots| - 1];
      SlotKeys(slots[..|slots| - 1]) + if slot.occupied then {slot.key} else {}
  }

  ghost predicate Windows(c: EventConfig, slots: seq<Slot>, h: seq<Happening>)
  {
    && SlotKeys(slots) == OpenKeys(h)
    && forall i :: 0 <= i < |slots| ==> SlotTells(c, slots[i], Members(h, slots[i].key))
  }

  ghost predicate Explains(c: EventConfig, e: EventState, h: seq<Happening>)
  {
    Counts(e, h) && Armed(c, e, h) && Windows(c, e.slots, h)
  }

  lemma {:induction false} SlotKeysAre(slots: seq<Slot>, key: int)
    ensures key in SlotKeys(slots) <==> exists i :: 0 <= i < |slots| && slots[i].occupied && slots[i].key == key
  {
    if slots != [] {
      SlotKeysAre(slots[..|slots| - 1], key);
    }
  }

  /** Different slots have different keys, so the table is full when there are as many keys as slots. */
  lemma {:induction false} SlotKeysCount(slots: seq<Slot>, event: nat)
    requires SlotsOk(slots, event)
    ensures |SlotKeys(slots)| <= |slots|
    ensures |SlotKeys(slots)| == |slots| <==> forall i :: 0 <= i < |slots| ==> slots[i].occupied
  {
    if slots != [] {
      var n := |slots| - 1;
      SlotKeysCount(slots[..n], event);
      SlotKeysAre(slots[..n], slots[n].key);
    }
  }

  lemma SlotKeysUpdate(slots: seq<Slot>, event: nat, k: nat, slot: Slot)
    requires SlotsOk(slots, event) && k < |slots| && (slots[k].occupied && slot.occupied ==> slot.key == slots[k].key)
    ensures SlotKeys(slots[k := slot])
         == if slot.occupied then SlotKeys(slots) + {slot.key}
            else if slots[k].occupied then SlotKeys(slots) - {slots[k].key} else SlotKeys(slots)
  {
    var slots' := slots[k := slot];
    forall key
      ensures key in SlotKeys(slots') <==> key in (if slot.occupied then SlotKeys(slots) + {slot.key}
                else if slots[k].occupied then SlotKeys(slots) - {slots[k].key} else SlotKeys(slots))
    {
      SlotKeysAre(slots, key);
      SlotKeysAre(slots', key);
      assert slots'[k] == slot;
      if i :| 0 <= i < |slots| && slots[i].occupied && slots[i].key == key {
        assert i != k ==> slots'[i] == slots[i];
      }
    }
  }

  // ---------------------------------------------------------------- one attempt

  /** The outcome that the decision leads to, under the sequence number n. */
  ghost predicate Follows(d: Decision, n: nat, outcome: Outcome)
  {
    match d
    case Skip(skipped) => outcome == skipped && !Materialised(outcome) && !outcome.Closed?
    case Emit(r) => Materialised(outcome) && outcome.record == Numbered(r, n)
  }

  /** What the outcome adds to the event's counters. */
  function Booked(e: EventState, outcome: Outcome): EventState
  {
    match outcome
    case Captured(_) => e.(captured := e.captured + 1, policyCounter := 0)
    case Refused(_) => e.(ingressRejected := e.ingressRejected + 1, knownLost := e.knownLost + 1,
                          policyCounter := e.policyCounter + 1, overflow := true)
    case _ => e
  }

  lemma CaptureMoves(cfg: Config, s: System, o: Observation)
    requires Ready(cfg, s) && o.event < |cfg.events| && s.fac.accepting
    ensures var (fac, outcome) := CaptureEvent(cfg, s.fac, o);
      var (e, d) := Decide(cfg.events[o.event], s.fac.events[o.event], o);
      && |fac.events| == |cfg.events| && Follows(d, s.fac.nextSequence, outcome)
      && fac.events[o.event] == Booked(e, outcome)
      && (forall k :: 0 <= k < |cfg.events| && k != o.event ==> fac.events[k] == s.fac.events[k])
  {
    DecideEffect(cfg.events[o.event], s.fac.events[o.event], o);
  }

  lemma CountsSnoc(h: seq<Happening>, x: Happening)
    ensures Attempts(h + [x]) == Attempts(h) + if x.Attempted? then [x] else []
    ensures forall kind :: Count(h + [x], kind) == Count(h, kind) + if IsOf(x, kind) then 1 else 0
    ensures LostSince(h + [x])
         == if IsOf(x, Capturing) then 0
            else LostSince(h) + if IsOf(x, Rejecting) || IsOf(x, Refusing) then 1 else 0
  {
    assert (h + [x])[..|h|] == h;
  }

  lemma WindowsSnoc(h: seq<Happening>, x: Happening)
    ensures LastOpened(h + [x])
         == if x.Attempted? && !x.outcome.Limited? then Some(x.observation.now) else LastOpened(h)
    ensures OpenKeys(h + [x]) == KeysAfter(OpenKeys(h), x)
    ensures forall key :: Members(h + [x], key) == MembersAfter(Members(h, key), key, x, LostSince(h))
  {
    assert (h + [x])[..|h|] == h;
  }

  /** What the decision itself adds to the counters. */
  ghost predicate Books(e: EventState, e': EventState, d: Decision)
  {
    && e'.attempts == e.attempts + 1
    && e'.sampled == e.sampled + (if d == Skip(SampledOut) then 1 else 0)
    && e'.rateLimited == e.rateLimited + (if d == Skip(Limited) then 1 else 0)
    && e'.aggregated == e.aggregated + (if d == Skip(Absorbed) then 1 else 0)
    && e'.keysRejected == e.keysRejected + (if d == Skip(KeysFull) then 1 else 0)
    && e'.knownLost == e.knownLost + (if d == Skip(KeysFull) then 1 else 0)
    && e'.policyCounter == e.policyCounter + (if d == Skip(KeysFull) then 1 else 0)
    && e'.captured == e.captured && e'.ingressRejected == e.ingressRejected && e'.overflow == e.overflow
    && e'.retained == e.retained && e'.historyEvicted == e.historyEvicted
  }

  lemma DecideBooks(c: EventConfig, e: EventState, o: Observation)
    requires c.capture.SampleEvery? ==> c.capture.period > 0
    ensures Books(e, Decide(c, e, o).0, Decide(c, e, o).1)
  {
  }

  lemma AttemptCounts(e: EventState, e': EventState, d: Decision, h: seq<Happening>, o: Observation, n: nat, outcome: Outcome)
    requires Counts(e, h) && Books(e, e', d) && Follows(d, n, outcome)
    ensures Counts(Booked(e', outcome), h + [Attempted(o, outcome)])
  {
    CountsSnoc(h, Attempted(o, outcome));
  }

  /** An event that does not aggregate has no windows. */
  lemma PlainAttempt(c: EventConfig, e: EventState, h: seq<Happening>, o: Observation, n: nat, outcome: Outcome)
    requires c.capture.SampleEvery? ==> c.capture.period > 0
    requires !c.capture.Aggregate? && e.slots == [] && Explains(c, e, h)
    requires Follows(Decide(c, e, o).1, n, outcome)
    ensures Owed(c, h, o, outcome)
    ensures Armed(c, Booked(Decide(c, e, o).0, outcome), h + [Attempted(o, outcome)])
    ensures Windows(c, Booked(Decide(c, e, o).0, outcome).slots, h + [Attempted(o, outcome)])
  {
    WindowsSnoc(h, Attempted(o, outcome));
  }

  /** The decision for an aggregating event, in terms of the occurrences its window holds. */
  lemma AggregateOwed(c: EventConfig, e: EventState, h: seq<Happening>, o: Observation, n: nat, outcome: Outcome)
    requires c.capture.Aggregate? && |e.slots| == c.capture.keys && SlotsOk(e.slots, o.event) && Explains(c, e, h)
    requires Follows(Decide(c, e, o).1, n, outcome)
    ensures Owed(c, h, o, outcome)
  {
    FindSlotIsFirst(e.slots, o.key);
    SlotKeysAre(e.slots, o.key);
    SlotKeysCount(e.slots, o.event);
    OpenMeansMembers(h, o.key);
  }

  lemma WindowsUpdate(c: EventConfig, slots: seq<Slot>, event: nat, h: seq<Happening>, x: Happening, k: nat, slot: Slot)
    requires SlotsOk(slots, event) && Windows(c, slots, h) && k < |slots|
    requires slots[k].occupied && slot.occupied ==> slot.key == slots[k].key
    requires slot.occupied || slots[k].occupied
    requires var key := if slot.occupied then slot.key else slots[k].key;
      && (forall i :: 0 <= i < |slots| && i != k && slots[i].occupied ==> slots[i].key != key)
      && (forall other :: other != key ==> !Ends(x, other) && !Joins(x, other))
      && OpenKeys(h + [x]) == if slot.occupied then OpenKeys(h) + {key} else OpenKeys(h) - {key}
    requires SlotTells(c, slot, Members(h + [x], slot.key))
    ensures Windows(c, slots[k := slot], h + [x])
  {
    SlotKeysUpdate(slots, event, k, slot);
    WindowsSnoc(h, x);
    var slots' := slots[k := slot];
    forall i | 0 <= i < |slots'|
      ensures SlotTells(c, slots'[i], Members(h + [x], slots'[i].key))
    {
      if i != k && slots'[i].occupied {
        assert slots'[i] == slots[i] && SlotTells(c, slots[i], Members(h, slots[i].key));
      }
    }
  }

  /** An occurrence that is held opens or extends the window of its key. */
  lemma HeldWindow(c: EventConfig, slots: seq<Slot>, h: seq<Happening>, o: Observation, r: Rec, k: nat, slot: Slot)
    requires SlotsOk(slots, o.event) && Windows(c, slots, h) && k < |slots|
    requires if slots[k].occupied then slots[k].key == o.key else o.key !in SlotKeys(slots)
    requires c.capture.Aggregate? && Accumulate(slots[k], o.key, r, o.now, c.capture.window) == Held(slot)
    requires Carries(c, o, LostSince(h), 1, false, r)
    ensures Windows(c, slots[k := slot], h + [Attempted(o, Absorbed)])
  {
    WindowsSnoc(h, Attempted(o, Absorbed));
    SlotKeysAre(slots, o.key);
    OpenMeansMembers(h, o.key);
    assert SlotOk(slots[k], o.event) && SlotTells(c, slots[k], Members(h, slots[k].key));
    WindowsUpdate(c, slots, o.event, h, Attempted(o, Absorbed), k, slot);
  }

  /** One that finds its window over ends it. */
  lemma ClosedWindow(c: EventConfig, slots: seq<Slot>, h: seq<Happening>, o: Observation, k: nat, outcome: Outcome)
    requires SlotsOk(slots, o.event) && Windows(c, slots, h) && k < |slots|
    requires slots[k].occupied && slots[k].key == o.key && Materialised(outcome)
    ensures Windows(c, slots[k := EMPTY_SLOT], h + [Attempted(o, outcome)])
  {
    WindowsSnoc(h, Attempted(o, outcome));
    WindowsUpdate(c, slots, o.event, h, Attempted(o, outcome), k, EMPTY_SLOT);
  }

  lemma AggregateDecides(c: EventConfig, e: EventState, o: Observation)
    requires c.capture.Aggregate?
    ensures Decide(c, e, o)
         == DecideAggregate(c, e.(attempts := e.attempts + 1), o, MakeRecord(c, e.policyCounter, o))
  {
  }

  lemma AggregateWindows(c: EventConfig, e: EventState, h: seq<Happening>, o: Observation, n: nat, outcome: Outcome)
    requires c.capture.Aggregate? && SlotsOk(e.slots, o.event)
    requires Windows(c, e.slots, h) && e.policyCounter == LostSince(h)
    requires var r := MakeRecord(c, e.policyCounter, o); Follows(DecideAggregate(c, e, o, r).1, n, outcome)
    ensures var r := MakeRecord(c, e.policyCounter, o);
            Windows(c, Booked(DecideAggregate(c, e, o, r).0, outcome).slots, h + [Attempted(o, outcome)])
  {
    FindSlotIsFirst(e.slots, o.key);
    SlotKeysAre(e.slots, o.key);
    var found, r := FindSlot(e.slots, o.key), MakeRecord(c, e.policyCounter, o);
    if found.Some? {
      var k := found.value;
      assert SlotOk(e.slots[k], o.event);
      match Accumulate(e.slots[k], o.key, r, o.now, c.capture.window)
      case Held(slot) => HeldWindow(c, e.slots, h, o, r, k, slot);
      case Closing(_) => ClosedWindow(c, e.slots, h, o, k, outcome);
    } else {
      WindowsSnoc(h, Attempted(o, outcome));
    }
  }

  lemma AttemptExplained(c: EventConfig, e: EventState, h: seq<Happening>, o: Observation, n: nat, outcome: Outcome)
    requires c.capture.SampleEvery? ==> c.capture.period > 0
    requires |e.slots| == if c.capture.Aggregate? then c.capture.keys else 0
    requires SlotsOk(e.slots, o.event) && Explains(c, e, h)
    requires Follows(Decide(c, e, o).1, n, outcome)
    ensures Owed(c, h, o, outcome) && Explains(c, Booked(Decide(c, e, o).0, outcome), h + [Attempted(o, outcome)])
  {
    DecideBooks(c, e, o);
    AttemptCounts(e, Decide(c, e, o).0, Decide(c, e, o).1, h, o, n, outcome);
    if c.capture.Aggregate? {
      AggregateOwed(c, e, h, o, n, outcome);
      AggregateDecides(c, e, o);
      AggregateWindows(c, e.(attempts := e.attempts + 1), h, o, n, outcome);
    } else {
      PlainAttempt(c, e, h, o, n, outcome);
    }
  }

  // ---------------------------------------------------------------- every other step

  /** Nothing happened to the capture policy of the event. */
  ghost predicate Untouched(e: EventState, e': EventState)
  {
    && e'.attempts == e.attempts && e'.sampled == e.sampled && e'.rateLimited == e.rateLimited
    && e'.aggregated == e.aggregated && e'.keysRejected == e.keysRejected && e'.captured == e.captured
    && e'.ingressRejected == e.ingressRejected && e'.policyCounter == e.policyCounter
    && e'.windowStart == e.windowStart
  }

  lemma FlushExplained(c: EventConfig, e: EventState, h: seq<Happening>, event: nat, k: nat, e': EventState, r: Rec)
    requires Explains(c, e, h) && SlotsOk(e.slots, event) && k < |e.slots| && e.slots[k].occupied
    requires e'.slots == e.slots[k := EMPTY_SLOT]
    requires Untouched(e, e'.(captured := e.captured, policyCounter := e.policyCounter))
    requires e'.captured == e.captured + 1 && e'.policyCounter == 0
    ensures Explains(c, e', h + [Flushed(e.slots[k].key, r)])
  {
    var x := Flushed(e.slots[k].key, r);
    CountsSnoc(h, x);
    WindowsSnoc(h, x);
    WindowsUpdate(c, e.slots, event, h, x, k, EMPTY_SLOT);
  }

  lemma {:induction false} NoSlotKeys(slots: seq<Slot>)
    requires forall i :: 0 <= i < |slots| ==> slots[i] == EMPTY_SLOT
    ensures SlotKeys(slots) == {}
  {
    if slots != [] {
      NoSlotKeys(slots[..|slots| - 1]);
    }
  }

  lemma CancelExplained(c: EventConfig, e: EventState, h: seq<Happening>, e': EventState, discarded: nat)
    requires Explains(c, e, h) && Untouched(e, e')
    requires forall i :: 0 <= i < |e'.slots| ==> e'.slots[i] == EMPTY_SLOT
    ensures Explains(c, e', h + [Cancelled(discarded)])
  {
    CountsSnoc(h, Cancelled(discarded));
    WindowsSnoc(h, Cancelled(discarded));
    NoSlotKeys(e'.slots);
  }

  /** The state of the event agrees with its history, and everything in the history was right. */
  ghost predicate Told(cfg: Config, s: System, event: nat, h: seq<Happening>)
    requires Ready(cfg, s) && event < |cfg.events|
  {
    Explains(cfg.events[event], s.fac.events[event], h) && AllRight(cfg.events[event], event, h)
  }

  ghost function Longer(h: seq<Happening>, x: Option<Happening>): seq<Happening>
  {
    if x.Some? then h + [x.value] else h
  }

  lemma ToldSnoc(cfg: Config, s: System, s': System, event: nat, h: seq<Happening>, x: Happening)
    requires Ready(cfg, s) && Ready(cfg, s') && event < |cfg.events| && Told(cfg, s, event, h)
    requires Right(cfg.events[event], event, h, x) && Explains(cfg.events[event], s'.fac.events[event], h + [x])
    ensures Told(cfg, s', event, h + [x])
  {
    assert (h + [x])[..|h|] == h;
  }

  lemma ToldSame(cfg: Config, s: System, s': System, event: nat, h: seq<Happening>)
    requires Ready(cfg, s) && Ready(cfg, s') && event < |cfg.events| && Told(cfg, s, event, h)
    requires Untouched(s.fac.events[event], s'.fac.events[event])
    requires s'.fac.events[event].slots == s.fac.events[event].slots
    ensures Told(cfg, s', event, h)
  {
  }

  lemma ToldObserve(cfg: Config, s: System, o: Observation, event: nat, h: seq<Happening>)
    requires Ready(cfg, s) && o.event < |cfg.events| && event < |cfg.events| && Told(cfg, s, event, h)
    ensures var s' := Step(cfg, s, Observe(o));
            Ready(cfg, s') && Told(cfg, s', event, Longer(h, Happens(cfg, s, Observe(o), event)))
  {
    ObserveKeepsReady(cfg, s, o);
    var s' := Step(cfg, s, Observe(o));
    if s.fac.accepting {
      CaptureMoves(cfg, s, o);
    }
    if s.fac.accepting && o.event == event {
      var outcome := CaptureEvent(cfg, s.fac, o).1;
      AttemptExplained(cfg.events[event], s.fac.events[event], h, o, s.fac.nextSequence, outcome);
      ToldSnoc(cfg, s, s', event, h, Attempted(o, outcome));
    } else {
      ToldSame(cfg, s, s', event, h);
    }
  }

  lemma FlushOwed(cfg: Config, s: Facility, event: nat, h: seq<Happening>)
    requires Shaped(cfg, s) && event < |cfg.events| && SlotsOk(s.events[event].slots, event)
    requires Explains(cfg.events[event], s.events[event], h) && TakeAggregate(cfg, s, event).1.Some?
    ensures var c, slots, (s', r) := cfg.events[event], s.events[event].slots, TakeAggregate(cfg, s, event);
      var x := Flushed(slots[FirstOpen(slots).value].key, r.value);
      |s'.events| == |s.events| && Right(c, event, h, x) && Explains(c, s'.events[event], h + [x])
  {
    var e := s.events[event];
    var (s', r) := TakeAggregate(cfg, s, event);
    var k := FirstOpen(e.slots).value;
    FirstOpenIsFirst(e.slots);
    assert SlotOk(e.slots[k], event) && SlotTells(cfg.events[event], e.slots[k], Members(h, e.slots[k].key));
    FlushExplained(cfg.events[event], e, h, event, k, s'.events[event], r.value);
  }

  lemma ToldFlush(cfg: Config, s: System, flushed: nat, event: nat, h: seq<Happening>)
    requires Ready(cfg, s) && Enabled(cfg, s, Flush(flushed)) && event < |cfg.events| && Told(cfg, s, event, h)
    ensures var s' := Step(cfg, s, Flush(flushed));
            Ready(cfg, s') && Told(cfg, s', event, Longer(h, Happens(cfg, s, Flush(flushed), event)))
  {
    FlushKeepsReady(cfg, s, flushed);
    var s' := Step(cfg, s, Flush(flushed));
    var (fac, r) := TakeAggregate(cfg, s.fac, flushed);
    if flushed == event && r.Some? {
      FlushOwed(cfg, s.fac, event, h);
      var slots := s.fac.events[event].slots;
      ToldSnoc(cfg, s, s', event, h, Flushed(slots[FirstOpen(slots).value].key, r.value));
    } else {
      FlushEffect(cfg, s.fac, flushed);
      ToldSame(cfg, s, s', event, h);
    }
  }

  lemma ToldStop(cfg: Config, s: System, event: nat, h: seq<Happening>)
    requires Ready(cfg, s) && event < |cfg.events| && Told(cfg, s, event, h)
    ensures var s' := Step(cfg, s, Stop);
            Ready(cfg, s') && Told(cfg, s', event, Longer(h, Happens(cfg, s, Stop, event)))
  {
    StopKeepsReady(cfg, s);
    var s' := Step(cfg, s, Stop);
    if cfg.drainOnStop {
      ToldSame(cfg, s, s', event, h);
    } else {
      var discarded := OpenCount(s.fac.events[event].slots);
      CancelExplained(cfg.events[event], s.fac.events[event], h, s'.fac.events[event], discarded);
      ToldSnoc(cfg, s, s', event, h, Cancelled(discarded));
    }
  }

  lemma ToldPop(cfg: Config, s: System, event: nat, h: seq<Happening>)
    requires Ready(cfg, s) && s.drainer.Idle? && event < |cfg.events| && Told(cfg, s, event, h)
    ensures Ready(cfg, Step(cfg, s, Pop)) && Told(cfg, Step(cfg, s, Pop), event, h)
  {
    PopKeepsReady(cfg, s);
    PopEffect(s.fac);
    ToldSame(cfg, s, Step(cfg, s, Pop), event, h);
  }

  lemma RetainUntouched(cfg: Config, s: Facility, r: Rec, persisted: bool, event: nat)
    requires Shaped(cfg, s) && r.header.event < |cfg.events| && event < |cfg.events|
    ensures var s' := RetainRecord(cfg, s, r, persisted).0;
            Untouched(s.events[event], s'.events[event]) && s'.events[event].slots == s.events[event].slots
  {
  }

  lemma ToldRetain(cfg: Config, s: System, persisted: bool, event: nat, h: seq<Happening>)
    requires Ready(cfg, s) && s.drainer.Popped? && event < |cfg.events| && Told(cfg, s, event, h)
    ensures var s' := Step(cfg, s, Retain(persisted));
            Ready(cfg, s') && Told(cfg, s', event, Longer(h, Happens(cfg, s, Retain(persisted), event)))
  {
    RetainKeepsReady(cfg, s, persisted);
    RetainUntouched(cfg, s.fac, s.drainer.record, persisted, event);
    ToldSame(cfg, s, Step(cfg, s, Retain(persisted)), event, h);
    var x := Happens(cfg, s, Retain(persisted), event);
    if x.Some? {
      FiledExplained(cfg.events[event], Step(cfg, s, Retain(persisted)).fac.events[event], h, x.value);
      ToldSnoc(cfg, s, Step(cfg, s, Retain(persisted)), event, h, x.value);
    }
  }

  lemma FiledExplained(c: EventConfig, e: EventState, h: seq<Happening>, x: Happening)
    requires Explains(c, e, h) && x.Filed?
    ensures Explains(c, e, h + [x])
  {
    CountsSnoc(h, x);
    WindowsSnoc(h, x);
  }

  lemma ToldStep(cfg: Config, s: System, op: Op, event: nat, h: seq<Happening>)
    requires Ready(cfg, s) && Enabled(cfg, s, op) && event < |cfg.events| && Told(cfg, s, event, h)
    ensures var s' := Step(cfg, s, op);
            Ready(cfg, s') && Told(cfg, s', event, Longer(h, Happens(cfg, s, op, event)))
  {
    match op
    case Observe(o) => ToldObserve(cfg, s, o, event, h);
    case Pop => ToldPop(cfg, s, event, h);
    case Retain(persisted) => ToldRetain(cfg, s, persisted, event, h);
    case Conclude => ToldSame(cfg, s, Step(cfg, s, op), event, h);
    case Stop => ToldStop(cfg, s, event, h);
    case Start => ToldSame(cfg, s, Step(cfg, s, op), event, h);
    case Flush(flushed) => ToldFlush(cfg, s, flushed, event, h);
  }

  /** Over every run, every attempt is answered and every record filled in as the history of its event
      demands, and the counters are what that history counts. */
  lemma {:induction false} RunsKeepPolicy(cfg: Config, ops: seq<Op>, event: nat)
    requires cfg.Valid() && event < |cfg.events|
    ensures Told(cfg, Run(cfg, ops), event, History(cfg, ops, event))
  {
    if ops == [] {
      ToldAtStart(cfg, event);
    } else {
      RunsKeepPolicy(cfg, ops[..|ops| - 1], event);
      ToldOneMore(cfg, ops, event);
    }
  }

  lemma ToldAtStart(cfg: Config, event: nat)
    requires cfg.Valid() && event < |cfg.events|
    ensures Ready(cfg, Start0(cfg)) && Told(cfg, Start0(cfg), event, [])
  {
    ReadyAtStart(cfg);
    NoSlotKeys(Start0(cfg).fac.events[event].slots);
  }

  lemma ToldOneMore(cfg: Config, ops: seq<Op>, event: nat)
    requires cfg.Valid() && event < |cfg.events| && ops != []
    requires Told(cfg, Run(cfg, ops[..|ops| - 1]), event, History(cfg, ops[..|ops| - 1], event))
    ensures Told(cfg, Run(cfg, ops), event, History(cfg, ops, event))
  {
    var init := ops[..|ops| - 1];
    HistoryGrows(cfg, ops, event);
    ToldNext(cfg, Run(cfg, init), ops[|ops| - 1], event, History(cfg, init, event), Run(cfg, ops), History(cfg, ops, event));
  }

  /** The state and the history after one more operation. */
  ghost predicate IsNext(cfg: Config, s: System, op: Op, event: nat, h: seq<Happening>, s': System, h': seq<Happening>)
    requires Ready(cfg, s) && event < |cfg.events|
  {
    if Enabled(cfg, s, op) then s' == Step(cfg, s, op) && h' == Longer(h, Happens(cfg, s, op, event)) else s' == s && h' == h
  }

  lemma HistoryGrows(cfg: Config, ops: seq<Op>, event: nat)
    requires cfg.Valid() && event < |cfg.events| && ops != []
    ensures var init := ops[..|ops| - 1];
      IsNext(cfg, Run(cfg, init), ops[|ops| - 1], event, History(cfg, init, event), Run(cfg, ops), History(cfg, ops, event))
  {
  }

  lemma ToldNext(cfg: Config, s: System, op: Op, event: nat, h: seq<Happening>, s': System, h': seq<Happening>)
    requires Ready(cfg, s) && event < |cfg.events| && Told(cfg, s, event, h) && IsNext(cfg, s, op, event, h, s', h')
    ensures Ready(cfg, s') && Told(cfg, s', event, h')
  {
    if Enabled(cfg, s, op) {
      ToldStep(cfg, s, op, event, h);
    }
  }

  // ---------------------------------------------------------------- every pth attempt

  lemma CeilStep(n: nat, p: nat)
    requires p > 0
    ensures (n + p) / p == (n + p - 1) / p + if n % p == 0 then 1 else 0
  {
    var q, r := n / p, n % p;
    assert n == p * q + r;
    assert n + p == p * (q + 1) + r;
    if r == 0 {
      assert n + p - 1 == p * q + (p - 1);
      QuotientUnique(n + p - 1, p, q, p - 1);
    } else {
      assert n + p - 1 == p * (q + 1) + (r - 1);
      QuotientUnique(n + p - 1, p, q + 1, r - 1);
    }
    QuotientUnique(n + p, p, q + 1, r);
  }

  lemma {:induction false} SampledAt(c: EventConfig, event: nat, h: seq<Happening>)
    requires c.capture.SampleEvery? && c.capture.period > 0
    requires AllRight(c, event, h)
    ensures forall j :: 0 <= j < |Attempts(h)| ==> (Attempts(h)[j].outcome == SampledOut <==> j % c.capture.period != 0)
  {
    if h != [] {
      var n := |h| - 1;
      SampledAt(c, event, h[..n]);
    }
  }

  /** How many of the first n numbers are no multiples of p. */
  function Skipped(n: nat, p: nat): nat
    requires p > 0
  {
    if n == 0 then 0 else Skipped(n - 1, p) + if (n - 1) % p == 0 then 0 else 1
  }

  lemma {:induction false} SkippedIs(n: nat, p: nat)
    requires p > 0
    ensures Skipped(n, p) == n - (n + p - 1) / p
  {
    if n == 0 {
      QuotientUnique(p - 1, p, 0, p - 1);
    } else {
      SkippedIs(n - 1, p);
      CeilStep(n - 1, p);
    }
  }

  lemma {:induction false} SampledCount(c: EventConfig, event: nat, h: seq<Happening>)
    requires c.capture.SampleEvery? && c.capture.period > 0
    requires AllRight(c, event, h)
    ensures Count(h, Sampling) == Skipped(|Attempts(h)|, c.capture.period)
  {
    if h != [] {
      var n := |h| - 1;
      SampledCount(c, event, h[..n]);
    }
  }

  /** Over every run, the attempts that are not sampled out are the first one and every pth after it. */
  lemma SamplesEveryPth(cfg: Config, ops: seq<Op>, event: nat)
    requires cfg.Valid() && event < |cfg.events| && cfg.events[event].capture.SampleEvery?
    ensures var a, e, p := Attempts(History(cfg, ops, event)), Run(cfg, ops).fac.events[event],
                           cfg.events[event].capture.period;
      && e.attempts == |a|
      && (forall j :: 0 <= j < |a| ==> (a[j].outcome == SampledOut <==> j % p != 0))
      && e.sampled == e.attempts - (e.attempts + p - 1) / p
  {
    RunsKeepPolicy(cfg, ops, event);
    SampledAt(cfg.events[event], event, History(cfg, ops, event));
    SampledCount(cfg.events[event], event, History(cfg, ops, event));
    SkippedIs(Run(cfg, ops).fac.events[event].attempts, cfg.events[event].capture.period);
  }

  // ---------------------------------------------------------------- at most one in an interval

  /** Attempt j was let through and everything after it, up to k, was limited. */
  ghost predicate LastBefore(a: seq<Happening>, j: nat, k: nat)
  {
    && j < k <= |a| && (forall i :: 0 <= i < |a| ==> a[i].Attempted?)
    && !a[j].outcome.Limited? && forall m :: j < m < k ==> a[m].outcome.Limited?
  }

  /** The first attempt is let through; a later one is limited if and only if it comes less than the
      interval after the last one that was let through. */
  ghost predicate Spaced(a: seq<Happening>, interval: int)
    requires forall i :: 0 <= i < |a| ==> a[i].Attempted?
  {
    && (a != [] ==> !a[0].outcome.Limited?)
    && forall j: nat, k: nat :: k < |a| && LastBefore(a, j, k) ==>
         (a[k].outcome.Limited? <==> a[k].observation.now - a[j].observation.now < interval)
  }

  lemma {:induction false} LastOpenedIs(h: seq<Happening>, j: nat)
    requires LastBefore(Attempts(h), j, |Attempts(h)|)
    ensures LastOpened(h) == Some(Attempts(h)[j].observation.now)
  {
    var n := |h| - 1;
    var a, before := Attempts(h), Attempts(h[..n]);
    if h[n].Attempted? {
      assert a[|before|] == h[n];
    }
    if j < |before| {
      assert forall i :: 0 <= i < |before| ==> a[i] == before[i];
      assert LastBefore(before, j, |before|);
      LastOpenedIs(h[..n], j);
    }
  }

  lemma {:induction false} FirstIsOpened(c: EventConfig, event: nat, h: seq<Happening>)
    requires c.capture.RateLimited?
    requires AllRight(c, event, h)
    ensures Attempts(h) == [] ==> LastOpened(h).None?
    ensures Attempts(h) != [] ==> !Attempts(h)[0].outcome.Limited?
  {
    if h != [] {
      var n := |h| - 1;
      FirstIsOpened(c, event, h[..n]);
    }
  }

  lemma {:induction false} SpacedAt(c: EventConfig, event: nat, h: seq<Happening>)
    requires c.capture.RateLimited?
    requires AllRight(c, event, h)
    ensures Spaced(Attempts(h), c.capture.interval)
  {
    FirstIsOpened(c, event, h);
    if h != [] {
      var n := |h| - 1;
      SpacedAt(c, event, h[..n]);
      var a, before := Attempts(h), Attempts(h[..n]);
      forall j: nat, k: nat | k < |a| && LastBefore(a, j, k)
        ensures a[k].outcome.Limited? <==> a[k].observation.now - a[j].observation.now < c.capture.interval
      {
        assert forall i :: 0 <= i < |before| ==> a[i] == before[i];
        assert LastBefore(before, j, k);
        if k == |before| {
          LastOpenedIs(h[..n], j);
        }
      }
    }
  }

  /** Over every run, a rate limit lets the first attempt through, and then exactly those that come at
      least the interval after the last one it let through. */
  lemma LimitsTheRate(cfg: Config, ops: seq<Op>, event: nat)
    requires cfg.Valid() && event < |cfg.events| && cfg.events[event].capture.RateLimited?
    ensures var h, e := History(cfg, ops, event), Run(cfg, ops).fac.events[event];
      && Spaced(Attempts(h), cfg.events[event].capture.interval)
      && e.attempts == |Attempts(h)| && e.rateLimited == Count(h, Limiting)
  {
    RunsKeepPolicy(cfg, ops, event);
    SpacedAt(cfg.events[event], event, History(cfg, ops, event));
  }

  // ---------------------------------------------------------------- room

  /** A materialised record is refused exactly when its own place is full: the reservation of a critical
      event, counting what is stored and in flight, else the ISR or the thread ingress. */
  lemma RefusedIffFull(cfg: Config, s: System, o: Observation)
    requires Ready(cfg, s) && o.event < |cfg.events| && Materialised(CaptureEvent(cfg, s.fac, o).1)
    ensures var e, retention := s.fac.events[o.event], cfg.events[o.event].retention;
      CaptureEvent(cfg, s.fac, o).1.Refused? <==>
        if retention.Critical? then |s.fac.rings[2 + o.event]| + |e.history| + e.inflight >= retention.slots
        else if o.isr then |s.fac.rings[1]| >= cfg.isrDepth
        else |s.fac.rings[0]| >= cfg.threadDepth
  {
    DecideEffect(cfg.events[o.event], s.fac.events[o.event], o);
  }

  // ---------------------------------------------------------------- losses

  function Dropped(h: seq<Happening>): nat
  {
    if h == [] then 0 else Dropped(h[..|h| - 1]) + if h[|h| - 1].Filed? then h[|h| - 1].dropped else 0
  }

  function Discarded(h: seq<Happening>): nat
  {
    if h == [] then 0 else Discarded(h[..|h| - 1]) + if h[|h| - 1].Cancelled? then h[|h| - 1].discarded else 0
  }

  /** The loss counters: no key, no room, not retained, or open when the facility was cancelled. */
  ghost predicate Ledger(e: EventState, h: seq<Happening>)
  {
    && e.retained == Count(h, Keeping) && e.historyEvicted == Dropped(h)
    && e.knownLost == Count(h, Rejecting) + Count(h, Refusing) + Count(h, Losing) + Discarded(h)
    && (e.overflow <==> Count(h, Refusing) + Count(h, Losing) > 0)
  }

  lemma LedgerSnoc(h: seq<Happening>, x: Happening)
    ensures forall kind :: Count(h + [x], kind) == Count(h, kind) + if IsOf(x, kind) then 1 else 0
    ensures Dropped(h + [x]) == Dropped(h) + if x.Filed? then x.dropped else 0
    ensures Discarded(h + [x]) == Discarded(h) + if x.Cancelled? then x.discarded else 0
  {
    assert (h + [x])[..|h|] == h;
  }

  lemma AttemptLedger(e: EventState, e': EventState, d: Decision, h: seq<Happening>, o: Observation, n: nat, outcome: Outcome)
    requires Ledger(e, h) && Books(e, e', d) && Follows(d, n, outcome)
    ensures Ledger(Booked(e', outcome), h + [Attempted(o, outcome)])
  {
    LedgerSnoc(h, Attempted(o, outcome));
  }

  lemma LedgerObserve(cfg: Config, s: System, o: Observation, event: nat, h: seq<Happening>)
    requires Ready(cfg, s) && o.event < |cfg.events| && event < |cfg.events| && Ledger(s.fac.events[event], h)
    ensures var s' := Step(cfg, s, Observe(o));
            Ready(cfg, s') && Ledger(s'.fac.events[event], Longer(h, Happens(cfg, s, Observe(o), event)))
  {
    ObserveKeepsReady(cfg, s, o);
    if s.fac.accepting {
      CaptureMoves(cfg, s, o);
      if o.event == event {
        var outcome := CaptureEvent(cfg, s.fac, o).1;
        DecideBooks(cfg.events[event], s.fac.events[event], o);
        var (e, d) := Decide(cfg.events[event], s.fac.events[event], o);
        AttemptLedger(s.fac.events[event], e, d, h, o, s.fac.nextSequence, outcome);
      }
    }
  }

  /** What retention adds to the counters of the record's event. */
  lemma RetainBooks(cfg: Config, s: Facility, r: Rec, persisted: bool)
    requires Shaped(cfg, s) && r.header.event < |cfg.events|
    ensures var (s', kept) := RetainRecord(cfg, s, r, persisted);
      var retention := cfg.events[r.header.event].retention;
      var e, e' := s.events[r.header.event], s'.events[r.header.event];
      && (forall k :: 0 <= k < |s.events| && k != r.header.event ==> s'.events[k] == s.events[k])
      && (retention.Transient? ==> s' == s)
      && s'.evicted >= s.evicted
      && (!retention.Transient? ==>
            BooksFate(e, e', if kept then Kept else if retention.Persistent? then Unsaved else Lost, s'.evicted - s.evicted))
  {
  }

  ghost predicate BooksFate(e: EventState, e': EventState, fate: Fate, dropped: nat)
  {
    && e'.historyEvicted == e.historyEvicted + dropped
    && e'.retained == e.retained + (if fate.Kept? then 1 else 0)
    && e'.knownLost == e.knownLost + (if fate.Lost? then 1 else 0)
    && e'.overflow == (e.overflow || fate.Lost?)
  }

  lemma FiledLedger(e: EventState, e': EventState, h: seq<Happening>, r: Rec, fate: Fate, dropped: nat)
    requires Ledger(e, h) && BooksFate(e, e', fate, dropped)
    ensures Ledger(e', h + [Filed(r, fate, dropped)])
  {
    LedgerSnoc(h, Filed(r, fate, dropped));
  }

  lemma LedgerRetain(cfg: Config, s: System, persisted: bool, event: nat, h: seq<Happening>)
    requires Ready(cfg, s) && s.drainer.Popped? && event < |cfg.events| && Ledger(s.fac.events[event], h)
    ensures var s' := Step(cfg, s, Retain(persisted));
            Ready(cfg, s') && Ledger(s'.fac.events[event], Longer(h, Happens(cfg, s, Retain(persisted), event)))
  {
    RetainKeepsReady(cfg, s, persisted);
    var r, e := s.drainer.record, s.fac.events[event];
    RetainBooks(cfg, s.fac, r, persisted);
    var x := Happens(cfg, s, Retain(persisted), event);
    if x.Some? {
      FiledLedger(e, Step(cfg, s, Retain(persisted)).fac.events[event], h, r, x.value.fate, x.value.dropped);
    }
  }

  lemma LedgerFlush(cfg: Config, s: System, flushed: nat, event: nat, h: seq<Happening>)
    requires Ready(cfg, s) && Enabled(cfg, s, Flush(flushed)) && event < |cfg.events| && Ledger(s.fac.events[event], h)
    ensures var s' := Step(cfg, s, Flush(flushed));
            Ready(cfg, s') && Ledger(s'.fac.events[event], Longer(h, Happens(cfg, s, Flush(flushed), event)))
  {
    FlushKeepsReady(cfg, s, flushed);
    FlushEffect(cfg, s.fac, flushed);
    var x := Happens(cfg, s, Flush(flushed), event);
    if x.Some? {
      LedgerSnoc(h, x.value);
    }
  }

  lemma LedgerStop(cfg: Config, s: System, event: nat, h: seq<Happening>)
    requires Ready(cfg, s) && event < |cfg.events| && Ledger(s.fac.events[event], h)
    ensures var s' := Step(cfg, s, Stop);
            Ready(cfg, s') && Ledger(s'.fac.events[event], Longer(h, Happens(cfg, s, Stop, event)))
  {
    StopKeepsReady(cfg, s);
    if !cfg.drainOnStop {
      var e := s.fac.events[event];
      assert Step(cfg, s, Stop).fac.events[event] == CancelSlots(e);
      CancelLedger(e, h);
    }
  }

  lemma CancelLedger(e: EventState, h: seq<Happening>)
    requires Ledger(e, h)
    ensures Ledger(CancelSlots(e), h + [Cancelled(OpenCount(e.slots))])
  {
    LedgerSnoc(h, Cancelled(OpenCount(e.slots)));
  }

  lemma LedgerStep(cfg: Config, s: System, op: Op, event: nat, h: seq<Happening>)
    requires Ready(cfg, s) && Enabled(cfg, s, op) && event < |cfg.events| && Ledger(s.fac.events[event], h)
    ensures var s' := Step(cfg, s, op);
            Ready(cfg, s') && Ledger(s'.fac.events[event], Longer(h, Happens(cfg, s, op, event)))
  {
    match op
    case Observe(o) => LedgerObserve(cfg, s, o, event, h);
    case Pop =>
      PopKeepsReady(cfg, s);
      PopEffect(s.fac);
    case Retain(persisted) => LedgerRetain(cfg, s, persisted, event, h);
    case Conclude =>
    case Stop => LedgerStop(cfg, s, event, h);
    case Start =>
    case Flush(flushed) => LedgerFlush(cfg, s, flushed, event, h);
  }

  /** Over every run, the retention and loss counters are what the history counts. */
  lemma {:induction false} RunsKeepLedger(cfg: Config, ops: seq<Op>, event: nat)
    requires cfg.Valid() && event < |cfg.events|
    ensures Ledger(Run(cfg, ops).fac.events[event], History(cfg, ops, event))
  {
    if ops != [] {
      var init := ops[..|ops| - 1];
      RunsKeepLedger(cfg, init, event);
      HistoryGrows(cfg, ops, event);
      LedgerNext(cfg, Run(cfg, init), ops[|ops| - 1], event, History(cfg, init, event), Run(cfg, ops), History(cfg, ops, event));
    }
  }

  lemma LedgerNext(cfg: Config, s: System, op: Op, event: nat, h: seq<Happening>, s': System, h': seq<Happening>)
    requires Ready(cfg, s) && event < |cfg.events| && Ledger(s.fac.events[event], h)
    requires IsNext(cfg, s, op, event, h, s', h')
    ensures event < |s'.fac.events| && Ledger(s'.fac.events[event], h')
  {
    if Enabled(cfg, s, op) {
      LedgerStep(cfg, s, op, event, h);
    }
  }
}
