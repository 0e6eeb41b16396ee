/** What the event facility retains over every run: the byte log as a counted suffix, critical
    records in exactly one of three places, and strictly ordered stores
    (include/solar/events/runtime.hpp).
 */
module EventRetention {
  import opened Basics
  import opened EventRecords
  import opened CompactHistory
  import opened EventPipeline
  import opened EventOrdering
  import opened Sequences
  import History = EventHistory

  function OfEvent(event: nat): Rec -> bool { (r: Rec) => r.header.event == event }

  /** Records the byte log takes: buffered events that fit an empty log. */
  function Loggable(cfg: Config): Rec -> bool
  {
    (r: Rec) => r.header.event < |cfg.events| && cfg.events[r.header.event].retention.Buffered?
         && Footprint(cfg.layout, r) <= cfg.historyBytes
  }

  /** How many admitted records have gone through retention. */
  function Kept(s: System): nat
  {
    |s.processed| + (if s.drainer.Retained? then 1 else 0)
  }

  ghost predicate IsSuffix(a: seq<Rec>, b: seq<Rec>)
  {
    |a| <= |b| && a == b[|b| - |a|..]
  }

  /** The log holds the newest of the records it was given, and counts the rest as evicted. */
  ghost predicate LogIsSuffix(cfg: Config, s: System)
    requires Kept(s) <= |s.admitted|
  {
    var given := Filter(s.admitted[..Kept(s)], Loggable(cfg));
    IsSuffix(s.fac.log, given) && s.fac.evicted == |given| - |s.fac.log|
  }

  // ---------------------------------------------------------------- what a step touches

  /** Everything the retention claims speak of is the same in both states. */
  ghost predicate SameStores(s: System, s': System)
  {
    && s'.fac.log == s.fac.log && s'.fac.evicted == s.fac.evicted
    && |s'.fac.events| == |s.fac.events|
    && (forall e :: 0 <= e < |s.fac.events| ==> s'.fac.events[e].history == s.fac.events[e].history)
    && Kept(s') == Kept(s) <= |s.admitted|
    && s.admitted <= s'.admitted
  }

  lemma QuietCapture(cfg: Config, s: System, o: Observation)
    requires Ready(cfg, s) && OneFifo(cfg, s) && o.event < |cfg.events|
    ensures SameStores(s, Step(cfg, s, Observe(o)))
  {
    CaptureEffect(cfg, s, o);
  }

  lemma QuietPop(cfg: Config, s: System)
    requires Ready(cfg, s) && OneFifo(cfg, s) && s.drainer.Idle?
    ensures SameStores(s, Step(cfg, s, Pop))
  {
    PopEffect(s.fac);
  }

  lemma QuietFlush(cfg: Config, s: System, event: nat)
    requires Ready(cfg, s) && OneFifo(cfg, s) && Enabled(cfg, s, Flush(event))
    ensures SameStores(s, Step(cfg, s, Flush(event)))
  {
    FlushEffect(cfg, s.fac, event);
  }

  lemma QuietStep(cfg: Config, s: System, op: Op)
    requires Ready(cfg, s) && OneFifo(cfg, s) && Enabled(cfg, s, op) && cfg.drainOnStop && !op.Retain?
    ensures SameStores(s, Step(cfg, s, op))
  {
    match op
    case Observe(o) => QuietCapture(cfg, s, o);
    case Pop => QuietPop(cfg, s);
    case Flush(event) => QuietFlush(cfg, s, event);
    case _ =>
  }

  /** The drainer holds the record that retention has to see next. */
  ghost predicate TakesNext(cfg: Config, s: System)
  {
    && Shaped(cfg, s.fac) && HeldInRange(cfg, s) && s.drainer.Popped?
    && Kept(s) < |s.admitted| && s.drainer.record == s.admitted[Kept(s)]
    && s.drainer.record.header.sequence == Kept(s) + 1
  }

  ghost predicate RetainsOne(cfg: Config, s: System, s': System)
  {
    TakesNext(cfg, s) && Files(cfg, s, s')
  }

  /** From s to s' the record in the drainer's hand is filed where its event belongs. */
  ghost predicate Files(cfg: Config, s: System, s': System)
  {
    && s.drainer.Popped?
    && s'.admitted == s.admitted && Kept(s') == Kept(s) + 1 && s'.drainer.Retained?
    && |s'.fac.events| == |s.fac.events| && s'.fac.rings == s.fac.rings
    && LogTakes(cfg, s.fac, s'.fac, s.drainer.record)
    && forall e :: 0 <= e < |s.fac.events| ==>
         HistoryTakes(cfg, e, s.fac.events[e], s'.fac.events[e], s.drainer.record)
  }

  ghost predicate LogTakes(cfg: Config, s: Facility, s': Facility, r: Rec)
  {
    if Loggable(cfg)(r) then
      var drop := Evictions(cfg, s.log, r);
      s'.log == s.log[drop..] + [r] && s'.evicted == s.evicted + drop
    else s'.log == s.log && s'.evicted == s.evicted
  }

  ghost predicate HistoryTakes(cfg: Config, event: nat, e: EventState, e': EventState, r: Rec)
  {
    if cfg.IsCritical(event) && r.header.event == event then
      && e'.history == (if |e.history| != cfg.Reserved(event) then e.history + [r] else e.history)
      && e'.inflight == (if e.inflight != 0 then e.inflight - 1 else 0)
    else e'.history == e.history && e'.inflight == e.inflight
  }

  lemma RetainReachesLog(cfg: Config, s: Facility, r: Rec, persisted: bool)
    requires Shaped(cfg, s) && r.header.event < |cfg.events|
    ensures var s' := RetainRecord(cfg, s, r, persisted).0;
            LogTakes(cfg, s, s', r) && |s'.events| == |s.events| && s'.rings == s.rings
  {
  }

  lemma RetainReachesHistory(cfg: Config, s: Facility, r: Rec, persisted: bool, e: nat)
    requires Shaped(cfg, s) && r.header.event < |cfg.events| && e < |cfg.events|
    ensures HistoryTakes(cfg, e, s.events[e], RetainRecord(cfg, s, r, persisted).0.events[e], r)
  {
  }

  lemma RetainFiles(cfg: Config, s: System, persisted: bool)
    requires Shaped(cfg, s.fac) && HeldInRange(cfg, s) && s.drainer.Popped?
    requires |s.discarded| == |cfg.events|
    ensures Files(cfg, s, Step(cfg, s, Retain(persisted)))
  {
    var r := s.drainer.record;
    RetainReachesLog(cfg, s.fac, r, persisted);
    var s' := Step(cfg, s, Retain(persisted));
    forall e | 0 <= e < |s.fac.events|
      ensures HistoryTakes(cfg, e, s.fac.events[e], s'.fac.events[e], r)
    {
      RetainReachesHistory(cfg, s.fac, r, persisted, e);
    }
  }

  lemma SuffixDrop(log: seq<Rec>, given: seq<Rec>, drop: nat, r: Rec)
    requires IsSuffix(log, given) && drop <= |log|
    ensures IsSuffix(log[drop..] + [r], given + [r])
  {
  }

  /** What the log was given grows by the retained record exactly when the log takes it. */
  lemma GivenGrows(cfg: Config, s: System, s': System)
    requires Kept(s) < |s.admitted| && s'.admitted == s.admitted && Kept(s') == Kept(s) + 1
    ensures var r := s.admitted[Kept(s)];
            Filter(s'.admitted[..Kept(s')], Loggable(cfg))
              == Filter(s.admitted[..Kept(s)], Loggable(cfg)) + (if Loggable(cfg)(r) then [r] else [])
  {
    FilterPrefix(s.admitted, Kept(s), Loggable(cfg));
  }

  lemma LogAfterRetain(cfg: Config, s: System, s': System)
    requires RetainsOne(cfg, s, s') && LogIsSuffix(cfg, s)
    ensures LogIsSuffix(cfg, s')
  {
    var r := s.drainer.record;
    GivenGrows(cfg, s, s');
    if Loggable(cfg)(r) {
      SuffixDrop(s.fac.log, Filter(s.admitted[..Kept(s)], Loggable(cfg)), Evictions(cfg, s.fac.log, r), r);
    }
  }

  // ---------------------------------------------------------------- critical reservations

  /** The critical record of this event that the drainer holds between pop and retention. */
  function InHand(s: System, event: nat): seq<Rec>
  {
    if s.drainer.Popped? && s.drainer.record.header.event == event then [s.drainer.record] else []
  }

  /** Ingress, in-flight and history together fit the reservation. */
  ghost predicate WithinReserve(cfg: Config, s: System, event: nat)
    requires Shaped(cfg, s.fac) && event < |cfg.events|
  {
    && s.fac.events[event].inflight == |InHand(s, event)|
    && |s.fac.rings[2 + event]| + |s.fac.events[event].history| + |InHand(s, event)|
         <= cfg.Reserved(event)
  }

  lemma ReserveAfterRetain(cfg: Config, s: System, s': System, event: nat)
    requires Files(cfg, s, s') && Shaped(cfg, s.fac) && Shaped(cfg, s'.fac)
    requires cfg.IsCritical(event) && WithinReserve(cfg, s, event)
    ensures WithinReserve(cfg, s', event)
  {
    assert HistoryTakes(cfg, event, s.fac.events[event], s'.fac.events[event], s.drainer.record);
  }

  /** The push into critical history never fails. */
  lemma CriticalPushSucceeds(cfg: Config, s: System, persisted: bool, event: nat)
    requires Shaped(cfg, s.fac) && s.drainer.Popped? && s.drainer.record.header.event == event
    requires cfg.IsCritical(event) && WithinReserve(cfg, s, event)
    ensures RetainRecord(cfg, s.fac, s.drainer.record, persisted).1
  {
  }

  lemma ReserveAfterPop(cfg: Config, s: System, event: nat)
    requires Ready(cfg, s) && s.drainer.Idle?
    requires cfg.IsCritical(event) && WithinReserve(cfg, s, event)
    ensures Ready(cfg, Step(cfg, s, Pop)) && WithinReserve(cfg, Step(cfg, s, Pop), event)
  {
    PopKeepsReady(cfg, s);
    PopEffect(s.fac);
    var k := Earliest(s.fac.rings, |s.fac.rings|);
    if k.Some? {
      assert cfg.RingOf(s.fac.rings[k.value][0]) == k.value;
    }
  }

  lemma ReserveAfterCapture(cfg: Config, s: System, o: Observation, event: nat)
    requires Ready(cfg, s) && o.event < |cfg.events|
    requires cfg.IsCritical(event) && WithinReserve(cfg, s, event)
    ensures Ready(cfg, Step(cfg, s, Observe(o))) && WithinReserve(cfg, Step(cfg, s, Observe(o)), event)
  {
    CaptureEffect(cfg, s, o);
    ObserveKeepsReady(cfg, s, o);
    ReserveWith(cfg, s, CaptureEvent(cfg, s.fac, o).0, o, event);
  }

  /** Capturing adds to the ring of a critical event only what the reservation has room for. */
  lemma ReserveWith(cfg: Config, s: System, fac: Facility, o: Observation, event: nat)
    requires Shaped(cfg, s.fac) && Shaped(cfg, fac) && o.event < |cfg.events|
    requires cfg.IsCritical(event) && WithinReserve(cfg, s, event)
    requires fac.events[event].history == s.fac.events[event].history
    requires fac.events[event].inflight == s.fac.events[event].inflight
    requires fac.rings[2 + event] == s.fac.rings[2 + event]
             || (|fac.rings[2 + event]| == |s.fac.rings[2 + event]| + 1
                 && |s.fac.rings[2 + event]| + |fac.events[event].history| + fac.events[event].inflight
                      < cfg.Reserved(event))
    ensures WithinReserve(cfg, s.(fac := fac), event)
  {
  }

  lemma ReserveAfterFlush(cfg: Config, s: System, flushed: nat, event: nat)
    requires Ready(cfg, s) && Enabled(cfg, s, Flush(flushed)) && Ready(cfg, Step(cfg, s, Flush(flushed)))
    requires cfg.IsCritical(event) && !cfg.Aggregates(event) && WithinReserve(cfg, s, event)
    ensures WithinReserve(cfg, Step(cfg, s, Flush(flushed)), event)
  {
    FlushEffect(cfg, s.fac, flushed);
  }

  /** The reservation holds after every step, whatever the stop policy. */
  lemma WithinReserveStep(cfg: Config, s: System, op: Op, event: nat)
    requires Ready(cfg, s) && Enabled(cfg, s, op)
    requires cfg.IsCritical(event) && !cfg.Aggregates(event) && WithinReserve(cfg, s, event)
    ensures Ready(cfg, Step(cfg, s, op)) && WithinReserve(cfg, Step(cfg, s, op), event)
  {
    ReadyStep(cfg, s, op);
    match op
    case Observe(o) => ReserveAfterCapture(cfg, s, o, event);
    case Pop => ReserveAfterPop(cfg, s, event);
    case Retain(persisted) =>
      RetainFiles(cfg, s, persisted);
      ReserveAfterRetain(cfg, s, Step(cfg, s, op), event);
    case Flush(flushed) => ReserveAfterFlush(cfg, s, flushed, event);
    case _ =>
  }

  /** Critical history is exactly what retention has seen of the event. */
  ghost predicate HistoryIsExact(s: System, event: nat)
    requires Kept(s) <= |s.admitted| && event < |s.fac.events|
  {
    s.fac.events[event].history == Filter(s.admitted[..Kept(s)], OfEvent(event))
  }

  lemma HistoryAfterRetain(cfg: Config, s: System, s': System, event: nat)
    requires RetainsOne(cfg, s, s')
    requires cfg.IsCritical(event) && WithinReserve(cfg, s, event) && HistoryIsExact(s, event)
    ensures HistoryIsExact(s', event)
  {
    assert HistoryTakes(cfg, event, s.fac.events[event], s'.fac.events[event], s.drainer.record);
    FilterPrefix(s.admitted, Kept(s), OfEvent(event));
  }

  /** Every critical record ever admitted is in history, in the drainer's hand, or in the ring. */
  ghost predicate NothingLost(cfg: Config, s: System, event: nat)
    requires Shaped(cfg, s.fac) && event < |cfg.events|
  {
    Filter(s.admitted, OfEvent(event))
      == s.fac.events[event].history + InHand(s, event) + s.fac.rings[2 + event]
  }

  lemma FilterThree(a: seq<Rec>, b: seq<Rec>, c: seq<Rec>, keep: Rec -> bool)
    ensures Filter(a + b + c, keep) == Filter(a, keep) + Filter(b, keep) + Filter(c, keep)
  {
    FilterAppend(a + b, c, keep);
    FilterAppend(a, b, keep);
  }

  /** What is between retention and the rings is what the drainer holds. */
  lemma BetweenIsInHand(cfg: Config, s: System, event: nat)
    requires OneFifo(cfg, s)
    ensures Kept(s) <= Taken(s) && Filter(s.admitted[Kept(s)..Taken(s)], OfEvent(event)) == InHand(s, event)
  {
    var held := s.admitted[Kept(s)..Taken(s)];
    if s.drainer.Popped? {
      assert held == [s.drainer.record];
      assert held[1..] == [];
    } else {
      assert held == [];
    }
  }

  lemma WaitingIsTheRing(cfg: Config, s: System, event: nat)
    requires |s.fac.rings| == cfg.Rings() && OneFifo(cfg, s) && cfg.IsCritical(event)
    ensures Filter(Waiting(s), OfEvent(event)) == s.fac.rings[2 + event]
  {
    var w := Waiting(s);
    forall r | r in w
      ensures OfEvent(event)(r) == InRing(cfg, 2 + event)(r)
    {
      var i :| 0 <= i < |w| && w[i] == r;
      assert s.admitted[Taken(s) + i].header.event < |cfg.events|;
    }
    FilterCongruent(w, OfEvent(event), InRing(cfg, 2 + event));
  }

  lemma ThreeParts(records: seq<Rec>, i: nat, j: nat)
    requires i <= j <= |records|
    ensures records[..i] + records[i..j] + records[j..] == records
  {
  }

  lemma ThreePlaces(cfg: Config, s: System, event: nat)
    requires Ready(cfg, s) && OneFifo(cfg, s) && cfg.IsCritical(event)
    requires HistoryIsExact(s, event)
    ensures NothingLost(cfg, s, event)
  {
    BetweenIsInHand(cfg, s, event);
    WaitingIsTheRing(cfg, s, event);
    var kept, held, waiting := s.admitted[..Kept(s)], s.admitted[Kept(s)..Taken(s)], Waiting(s);
    FilterThree(kept, held, waiting, OfEvent(event));
    ThreeParts(s.admitted, Kept(s), Taken(s));
  }

  // ---------------------------------------------------------------- ordered stores

  /** A list of admitted records in increasing order, all through retention. */
  ghost predicate Chronological(list: seq<Rec>, s: System)
    requires Kept(s) <= |s.admitted|
  {
    && (forall i, j :: 0 <= i < j < |list| ==> list[i].header.sequence < list[j].header.sequence)
    && (forall i :: 0 <= i < |list| ==>
          0 < list[i].header.sequence <= Kept(s) && list[i] == s.admitted[list[i].header.sequence - 1])
  }

  ghost predicate OnlyFrom(list: seq<Rec>, keep: Rec -> bool)
  {
    forall i :: 0 <= i < |list| ==> keep(list[i])
  }

  ghost predicate StoresOrdered(cfg: Config, s: System)
    requires Kept(s) <= |s.admitted|
  {
    && Chronological(s.fac.log, s) && OnlyFrom(s.fac.log, Loggable(cfg))
    && forall e :: 0 <= e < |s.fac.events| ==>
         && Chronological(s.fac.events[e].history, s)
         && OnlyFrom(s.fac.events[e].history, OfEvent(e))
         && (s.fac.events[e].history != [] ==> cfg.IsCritical(e))
  }

  lemma ChronologicalSnoc(list: seq<Rec>, s: System, s': System, drop: nat)
    requires Kept(s) < |s.admitted| && s'.admitted == s.admitted && Kept(s') == Kept(s) + 1
    requires s.admitted[Kept(s)].header.sequence == Kept(s) + 1
    requires Chronological(list, s) && drop <= |list|
    ensures Chronological(list, s') && Chronological(list[drop..] + [s.admitted[Kept(s)]], s')
  {
  }

  lemma LogOrderAfterRetain(cfg: Config, s: System, s': System)
    requires RetainsOne(cfg, s, s') && StoresOrdered(cfg, s)
    ensures Chronological(s'.fac.log, s') && OnlyFrom(s'.fac.log, Loggable(cfg))
  {
    var r := s.drainer.record;
    if Loggable(cfg)(r) {
      var drop := Evictions(cfg, s.fac.log, r);
      ChronologicalSnoc(s.fac.log, s, s', drop);
      OnlyFromSnoc(s.fac.log, Loggable(cfg), drop, r);
    } else {
      ChronologicalKept(s.fac.log, s, s');
    }
  }

  lemma OnlyFromSnoc(list: seq<Rec>, keep: Rec -> bool, drop: nat, r: Rec)
    requires OnlyFrom(list, keep) && drop <= |list| && keep(r)
    ensures OnlyFrom(list[drop..] + [r], keep)
  {
  }

  lemma ChronologicalKept(list: seq<Rec>, s: System, s': System)
    requires Kept(s) < |s.admitted| && s'.admitted == s.admitted && Kept(s') == Kept(s) + 1
    requires Chronological(list, s)
    ensures Chronological(list, s')
  {
  }

  lemma HistoryOrderAfterRetain(cfg: Config, s: System, s': System, e: nat)
    requires TakesNext(cfg, s) && Kept(s') == Kept(s) + 1 && s'.admitted == s.admitted
    requires e < |s.fac.events| && e < |s'.fac.events|
    requires HistoryTakes(cfg, e, s.fac.events[e], s'.fac.events[e], s.drainer.record)
    requires Chronological(s.fac.events[e].history, s)
    requires OnlyFrom(s.fac.events[e].history, OfEvent(e))
    ensures Chronological(s'.fac.events[e].history, s')
    ensures OnlyFrom(s'.fac.events[e].history, OfEvent(e))
  {
    var before, r := s.fac.events[e].history, s.drainer.record;
    ChronologicalKept(before, s, s');
    if s'.fac.events[e].history != before {
      ChronologicalSnoc(before, s, s', 0);
      OnlyFromSnoc(before, OfEvent(e), 0, r);
      assert before[0..] == before;
    }
  }

  lemma OrderAfterRetain(cfg: Config, s: System, s': System)
    requires RetainsOne(cfg, s, s') && StoresOrdered(cfg, s)
    ensures StoresOrdered(cfg, s')
  {
    LogOrderAfterRetain(cfg, s, s');
    forall e | 0 <= e < |s.fac.events|
      ensures Chronological(s'.fac.events[e].history, s')
      ensures OnlyFrom(s'.fac.events[e].history, OfEvent(e))
      ensures s'.fac.events[e].history != [] ==> cfg.IsCritical(e)
    {
      assert HistoryTakes(cfg, e, s.fac.events[e], s'.fac.events[e], s.drainer.record);
      HistoryOrderAfterRetain(cfg, s, s', e);
    }
  }

  /** The retained lists a history read merges: the log, then each critical history. */
  function Stores(s: Facility): seq<seq<Rec>>
  {
    [s.log] + seq(|s.events|, e requires 0 <= e < |s.events| => s.events[e].history)
  }

  lemma StoresReadable(cfg: Config, s: System)
    requires Kept(s) <= |s.admitted| && StoresOrdered(cfg, s)
    ensures History.Increasing(Stores(s.fac)[0]) && History.Numbered(Stores(s.fac), s.admitted)
  {
    forall k | 0 <= k < |Stores(s.fac)| ensures Chronological(Stores(s.fac)[k], s) {
      assert k > 0 ==> Stores(s.fac)[k] == s.fac.events[k - 1].history;
    }
  }

  // ---------------------------------------------------------------- every run

  ghost predicate RetentionOk(cfg: Config, s: System)
    requires Ready(cfg, s) && Kept(s) <= |s.admitted|
  {
    && LogIsSuffix(cfg, s)
    && StoresOrdered(cfg, s)
    && forall e :: cfg.IsCritical(e) && !cfg.Aggregates(e) ==>
         WithinReserve(cfg, s, e) && HistoryIsExact(s, e)
  }

  lemma RetentionFrame(cfg: Config, s: System, s': System)
    requires Ready(cfg, s) && Ready(cfg, s') && SameStores(s, s') && RetentionOk(cfg, s)
    requires forall e :: cfg.IsCritical(e) && !cfg.Aggregates(e) ==> WithinReserve(cfg, s', e)
    ensures RetentionOk(cfg, s')
  {
    OrderFrame(cfg, s, s');
    assert s'.admitted[..Kept(s')] == s.admitted[..Kept(s)];
    forall e | cfg.IsCritical(e) && !cfg.Aggregates(e) ensures HistoryIsExact(s', e) {
      assert HistoryIsExact(s, e);
    }
  }

  lemma OrderFrame(cfg: Config, s: System, s': System)
    requires SameStores(s, s') && StoresOrdered(cfg, s)
    ensures StoresOrdered(cfg, s')
  {
    ChronologicalFrame(s.fac.log, s, s');
    forall e | 0 <= e < |s'.fac.events|
      ensures Chronological(s'.fac.events[e].history, s')
    {
      ChronologicalFrame(s.fac.events[e].history, s, s');
    }
  }

  lemma ChronologicalFrame(list: seq<Rec>, s: System, s': System)
    requires SameStores(s, s') && Chronological(list, s)
    ensures Chronological(list, s')
  {
  }

  lemma RetentionAfterRetain(cfg: Config, s: System, s': System)
    requires Ready(cfg, s) && Ready(cfg, s') && Kept(s) <= |s.admitted| && RetentionOk(cfg, s)
    requires RetainsOne(cfg, s, s')
    requires forall e :: cfg.IsCritical(e) && !cfg.Aggregates(e) ==> WithinReserve(cfg, s', e)
    ensures Kept(s') <= |s'.admitted| && RetentionOk(cfg, s')
  {
    LogAfterRetain(cfg, s, s');
    OrderAfterRetain(cfg, s, s');
    forall e | cfg.IsCritical(e) && !cfg.Aggregates(e) ensures HistoryIsExact(s', e) {
      HistoryAfterRetain(cfg, s, s', e);
    }
  }

  lemma ReserveAfterStep(cfg: Config, s: System, op: Op)
    requires Ready(cfg, s) && Enabled(cfg, s, op)
    requires forall e :: cfg.IsCritical(e) && !cfg.Aggregates(e) ==> WithinReserve(cfg, s, e)
    ensures Ready(cfg, Step(cfg, s, op))
    ensures forall e :: cfg.IsCritical(e) && !cfg.Aggregates(e) ==> WithinReserve(cfg, Step(cfg, s, op), e)
  {
    ReadyStep(cfg, s, op);
    forall e | cfg.IsCritical(e) && !cfg.Aggregates(e) ensures WithinReserve(cfg, Step(cfg, s, op), e) {
      WithinReserveStep(cfg, s, op, e);
    }
  }

  lemma RetentionRetain(cfg: Config, s: System, persisted: bool)
    requires Ready(cfg, s) && OneFifo(cfg, s) && s.drainer.Popped? && RetentionOk(cfg, s)
    requires Ready(cfg, Step(cfg, s, Retain(persisted)))
    requires forall e :: cfg.IsCritical(e) && !cfg.Aggregates(e) ==>
               WithinReserve(cfg, Step(cfg, s, Retain(persisted)), e)
    ensures var s' := Step(cfg, s, Retain(persisted)); Kept(s') <= |s'.admitted| && RetentionOk(cfg, s')
  {
    RetainFiles(cfg, s, persisted);
    RetentionAfterRetain(cfg, s, Step(cfg, s, Retain(persisted)));
  }

  lemma RetentionStep(cfg: Config, s: System, op: Op)
    requires Ready(cfg, s) && OneFifo(cfg, s) && Enabled(cfg, s, op) && cfg.drainOnStop
    requires RetentionOk(cfg, s)
    ensures Ready(cfg, Step(cfg, s, op)) && Kept(Step(cfg, s, op)) <= |Step(cfg, s, op).admitted|
    ensures RetentionOk(cfg, Step(cfg, s, op))
  {
    ReserveAfterStep(cfg, s, op);
    if op.Retain? {
      RetentionRetain(cfg, s, op.persisted);
    } else {
      QuietStep(cfg, s, op);
      RetentionFrame(cfg, s, Step(cfg, s, op));
    }
  }

  lemma {:induction false} RunsRetain(cfg: Config, ops: seq<Op>)
    requires cfg.Valid() && cfg.drainOnStop
    ensures OneFifo(cfg, Run(cfg, ops)) && RetentionOk(cfg, Run(cfg, ops))
  {
    RunsAreFifo(cfg, ops);
    if ops != [] {
      var s := Run(cfg, ops[..|ops| - 1]);
      RunsRetain(cfg, ops[..|ops| - 1]);
      if Enabled(cfg, s, ops[|ops| - 1]) {
        RetentionStep(cfg, s, ops[|ops| - 1]);
      }
    }
  }

  /** What a history read relies on holds after every run: the log is in order, and each retained
      record is the admitted record of its number. */
  lemma RunsAreReadable(cfg: Config, ops: seq<Op>)
    requires cfg.Valid() && cfg.drainOnStop
    ensures var s := Run(cfg, ops);
      History.Increasing(Stores(s.fac)[0]) && History.Numbered(Stores(s.fac), s.admitted)
  {
    RunsRetain(cfg, ops);
    StoresReadable(cfg, Run(cfg, ops));
  }

  /** Under either stop policy the reservation is never exceeded. */
  lemma {:induction false} RunsKeepReserve(cfg: Config, ops: seq<Op>, event: nat)
    requires cfg.Valid() && cfg.IsCritical(event) && !cfg.Aggregates(event)
    ensures WithinReserve(cfg, Run(cfg, ops), event)
  {
    if ops != [] {
      var s := Run(cfg, ops[..|ops| - 1]);
      RunsKeepReserve(cfg, ops[..|ops| - 1], event);
      if Enabled(cfg, s, ops[|ops| - 1]) {
        WithinReserveStep(cfg, s, ops[|ops| - 1], event);
      }
    }
  }

  // ---------------------------------------------------------------- aggregation breaks the promise

  lemma RunSnoc(cfg: Config, ops: seq<Op>, op: Op)
    requires cfg.Valid()
    ensures Run(cfg, ops + [op])
         == if Enabled(cfg, Run(cfg, ops), op) then Step(cfg, Run(cfg, ops), op) else Run(cfg, ops)
  {
    assert (ops + [op])[..|ops|] == ops;
  }

  function Occurrence(event: nat, now: int): Observation
  {
    Observation(event, false, Source(0, 0), 0, [], now, 0, 0)
  }

  ghost predicate AllFree(slots: seq<Slot>)
  {
    forall i :: 0 <= i < |slots| ==> !slots[i].occupied
  }

  /** Slot k counts one occurrence since time 0, and it is the only one in use. */
  ghost predicate OnlyOpen(slots: seq<Slot>, k: nat)
  {
    && k < |slots| && slots[k].occupied && slots[k].key == 0 && slots[k].windowStart == 0 && slots[k].count == 1
    && slots[k].last.Some?
    && forall i :: 0 <= i < |slots| && i != k ==> !slots[i].occupied
  }

  /** How much of one event there is: records in history and in flight, and records ever admitted. */
  ghost predicate Holding(cfg: Config, s: System, event: nat, history: nat, inflight: nat, admitted: nat)
  {
    && Ready(cfg, s) && event < |cfg.events|
    && |s.fac.events[event].history| == history && s.fac.events[event].inflight == inflight
    && |Filter(s.admitted, OfEvent(event))| == admitted
  }

  ghost predicate Resting(s: System)
  {
    s.drainer.Idle? && RingsEmpty(s.fac)
  }

  /** Nothing is going on, and every record ever admitted is in history. */
  ghost predicate Quiet(cfg: Config, s: System, event: nat, n: nat)
  {
    Holding(cfg, s, event, n, 0, n) && Resting(s) && s.fac.accepting && AllFree(s.fac.events[event].slots)
  }

  /** The same, with one slot open. */
  ghost predicate Opened(cfg: Config, s: System, event: nat, n: nat, k: nat)
  {
    Holding(cfg, s, event, n, 0, n) && Resting(s) && OnlyOpen(s.fac.events[event].slots, k)
  }

  /** The closed slot's record is the only one that waits. */
  ghost predicate Queued(cfg: Config, s: System, event: nat, n: nat, r: Rec)
  {
    && Holding(cfg, s, event, n, 0, n + 1) && s.drainer.Idle? && s.fac.accepting && r.header.event == event
    && AllFree(s.fac.events[event].slots)
    && forall k :: 0 <= k < |s.fac.rings| ==> s.fac.rings[k] == if k == 2 + event then [r] else []
  }

  /** The drainer has taken it. */
  ghost predicate Carried(cfg: Config, s: System, event: nat, n: nat)
  {
    && Holding(cfg, s, event, n, 1, n + 1) && s.drainer.Popped? && s.drainer.record.header.event == event
    && s.fac.accepting && RingsEmpty(s.fac) && AllFree(s.fac.events[event].slots)
  }

  lemma DecideOpens(c: EventConfig, e: EventState, event: nat)
    requires c.capture.Aggregate? && AllFree(e.slots) && |e.slots| > 0 && SlotsOk(e.slots, event)
    ensures var (e', d) := Decide(c, e, Occurrence(event, 0));
      d == Skip(Absorbed) && exists k: nat :: OnlyOpen(e'.slots, k)
  {
    var found := FindSlot(e.slots, 0);
    FindSlotIsFirst(e.slots, 0);
    assert !e.slots[0].occupied;
    assert SlotOk(e.slots[found.value], event);
    var (e', d) := Decide(c, e, Occurrence(event, 0));
    assert OnlyOpen(e'.slots, found.value);
  }

  /** Observed at time 0, with no slot in use: one slot is open and nothing else has changed. */
  lemma OpensOne(cfg: Config, s: System, event: nat, n: nat)
    requires Quiet(cfg, s, event, n) && cfg.Aggregates(event)
    ensures var s' := Step(cfg, s, Observe(Occurrence(event, 0)));
      s'.fac.accepting && exists k: nat :: Opened(cfg, s', event, n, k)
  {
    CaptureEffect(cfg, s, Occurrence(event, 0));
    DecideOpens(cfg.events[event], s.fac.events[event], event);
    var s' := Step(cfg, s, Observe(Occurrence(event, 0)));
    var k: nat :| OnlyOpen(s'.fac.events[event].slots, k);
    assert Opened(cfg, s', event, n, k);
  }

  lemma DecideCloses(c: EventConfig, e: EventState, event: nat, k: nat)
    requires c.capture.Aggregate? && OnlyOpen(e.slots, k)
    ensures var (e', d) := Decide(c, e, Occurrence(event, c.capture.window));
      && d.Emit? && AllFree(e'.slots) && e'.history == e.history && e'.inflight == e.inflight
  {
    FindSlotIsFirst(e.slots, 0);
    assert FindSlot(e.slots, 0) == Some(k);
  }

  lemma CapturesClosing(cfg: Config, s: Facility, event: nat, k: nat)
    requires Shaped(cfg, s) && s.accepting && cfg.IsCritical(event) && cfg.Aggregates(event)
    requires s.rings[2 + event] == [] && s.events[event].inflight == 0
    requires |s.events[event].history| < cfg.Reserved(event) && OnlyOpen(s.events[event].slots, k)
    ensures var (s', outcome) := CaptureEvent(cfg, s, Occurrence(event, cfg.events[event].capture.window));
      outcome.Captured? && event < |s'.events| && AllFree(s'.events[event].slots)
  {
    DecideCloses(cfg.events[event], s.events[event], event, k);
  }

  /** Observed again when the window is over, with room in the reservation: a record is admitted. */
  lemma ClosesOne(cfg: Config, s: System, event: nat, n: nat, k: nat)
    requires Opened(cfg, s, event, n, k) && s.fac.accepting
    requires cfg.IsCritical(event) && cfg.Aggregates(event) && n < cfg.Reserved(event)
    ensures var s' := Step(cfg, s, Observe(Occurrence(event, cfg.events[event].capture.window)));
      exists r :: Queued(cfg, s', event, n, r)
  {
    var o := Occurrence(event, cfg.events[event].capture.window);
    CapturesClosing(cfg, s.fac, event, k);
    CaptureEffect(cfg, s, o);
    var r := CaptureEvent(cfg, s.fac, o).1.record;
    FilterSnoc(s.admitted, r, OfEvent(event));
    assert Queued(cfg, Step(cfg, s, Observe(o)), event, n, r);
  }

  lemma PopsOnly(cfg: Config, s: System, event: nat, n: nat, r: Rec)
    requires Queued(cfg, s, event, n, r) && cfg.IsCritical(event)
    ensures Carried(cfg, Step(cfg, s, Pop), event, n)
  {
    PopKeepsReady(cfg, s);
    assert s.fac.rings[2 + event] == [r];
    EarliestIsLeast(s.fac.rings, |s.fac.rings|);
    assert Earliest(s.fac.rings, |s.fac.rings|) == Some(2 + event);
  }

  /** Critical retention leaves slots, rings and the accepting flag alone. */
  lemma KeepsTheRest(cfg: Config, s: Facility, r: Rec, event: nat)
    requires Shaped(cfg, s) && cfg.IsCritical(event) && r.header.event == event
    ensures var s' := RetainRecord(cfg, s, r, true).0;
      s'.events[event].slots == s.events[event].slots && s'.accepting == s.accepting
  {
  }

  lemma FilesOne(cfg: Config, s: System, event: nat, n: nat)
    requires Carried(cfg, s, event, n) && cfg.IsCritical(event) && n < cfg.Reserved(event)
    ensures var s' := Step(cfg, s, Retain(true));
      s'.drainer.Retained? && Quiet(cfg, s'.(drainer := Idle), event, n + 1)
  {
    RetainKeepsReady(cfg, s, true);
    RetainReachesHistory(cfg, s.fac, s.drainer.record, true, event);
    KeepsTheRest(cfg, s.fac, s.drainer.record, event);
  }

  lemma ConcludesOne(cfg: Config, s: System, event: nat, n: nat)
    requires Ready(cfg, s) && s.drainer.Retained? && Quiet(cfg, s.(drainer := Idle), event, n)
    ensures Quiet(cfg, Step(cfg, s, Conclude), event, n)
  {
  }

  /** A run within one life of the facility: it is never started again. */
  ghost predicate NoStart(ops: seq<Op>)
  {
    forall i :: 0 <= i < |ops| ==> !ops[i].Start?
  }

  lemma RunOpens(cfg: Config, ops: seq<Op>, event: nat, n: nat) returns (ops': seq<Op>, k: nat)
    requires cfg.Valid() && cfg.Aggregates(event) && NoStart(ops) && Quiet(cfg, Run(cfg, ops), event, n)
    ensures NoStart(ops') && Opened(cfg, Run(cfg, ops'), event, n, k) && Run(cfg, ops').fac.accepting
  {
    OpensOne(cfg, Run(cfg, ops), event, n);
    RunSnoc(cfg, ops, Observe(Occurrence(event, 0)));
    ops' := ops + [Observe(Occurrence(event, 0))];
    k :| Opened(cfg, Run(cfg, ops'), event, n, k);
  }

  lemma RunCloses(cfg: Config, ops: seq<Op>, event: nat, n: nat, k: nat) returns (ops': seq<Op>, r: Rec)
    requires cfg.Valid() && cfg.IsCritical(event) && cfg.Aggregates(event) && n < cfg.Reserved(event)
    requires NoStart(ops) && Opened(cfg, Run(cfg, ops), event, n, k) && Run(cfg, ops).fac.accepting
    ensures NoStart(ops') && Queued(cfg, Run(cfg, ops'), event, n, r)
  {
    var observe := Observe(Occurrence(event, cfg.events[event].capture.window));
    ClosesOne(cfg, Run(cfg, ops), event, n, k);
    RunSnoc(cfg, ops, observe);
    ops' := ops + [observe];
    r :| Queued(cfg, Run(cfg, ops'), event, n, r);
  }

  lemma RunPops(cfg: Config, ops: seq<Op>, event: nat, n: nat, r: Rec) returns (ops': seq<Op>)
    requires cfg.Valid() && cfg.IsCritical(event) && NoStart(ops) && Queued(cfg, Run(cfg, ops), event, n, r)
    ensures NoStart(ops') && Carried(cfg, Run(cfg, ops'), event, n)
  {
    PopsOnly(cfg, Run(cfg, ops), event, n, r);
    RunSnoc(cfg, ops, Pop);
    ops' := ops + [Pop];
  }

  lemma RunRetains(cfg: Config, ops: seq<Op>, event: nat, n: nat) returns (ops': seq<Op>)
    requires cfg.Valid() && cfg.IsCritical(event) && n < cfg.Reserved(event)
    requires NoStart(ops) && Carried(cfg, Run(cfg, ops), event, n)
    ensures NoStart(ops') && Run(cfg, ops').drainer.Retained?
    ensures Quiet(cfg, Run(cfg, ops').(drainer := Idle), event, n + 1)
  {
    FilesOne(cfg, Run(cfg, ops), event, n);
    RunSnoc(cfg, ops, Retain(true));
    ops' := ops + [Retain(true)];
  }

  lemma RunConcludes(cfg: Config, ops: seq<Op>, event: nat, n: nat) returns (ops': seq<Op>)
    requires cfg.Valid() && NoStart(ops) && Run(cfg, ops).drainer.Retained?
    requires Quiet(cfg, Run(cfg, ops).(drainer := Idle), event, n)
    ensures NoStart(ops') && Quiet(cfg, Run(cfg, ops'), event, n)
  {
    ConcludesOne(cfg, Run(cfg, ops), event, n);
    RunSnoc(cfg, ops, Conclude);
    ops' := ops + [Conclude];
  }

  /** Two observations a round fill the reserved slots one after the other. */
  lemma {:induction false} FillAll(cfg: Config, event: nat, n: nat) returns (ops: seq<Op>)
    requires cfg.Valid() && cfg.IsCritical(event) && cfg.Aggregates(event) && n <= cfg.Reserved(event)
    ensures NoStart(ops) && Quiet(cfg, Run(cfg, ops), event, n)
  {
    if n == 0 {
      ops := [];
    } else {
      ops := FillAll(cfg, event, n - 1);
      var k, r;
      ops, k := RunOpens(cfg, ops, event, n - 1);
      ops, r := RunCloses(cfg, ops, event, n - 1, k);
      ops := RunPops(cfg, ops, event, n - 1, r);
      ops := RunRetains(cfg, ops, event, n - 1);
      ops := RunConcludes(cfg, ops, event, n);
    }
  }

  lemma RunStops(cfg: Config, ops: seq<Op>, event: nat, n: nat, k: nat) returns (ops': seq<Op>)
    requires cfg.Valid() && cfg.drainOnStop && NoStart(ops) && Opened(cfg, Run(cfg, ops), event, n, k)
    ensures NoStart(ops') && Opened(cfg, Run(cfg, ops'), event, n, k) && !Run(cfg, ops').fac.accepting
  {
    RunSnoc(cfg, ops, Stop);
    ops' := ops + [Stop];
  }

  /** A flushed aggregate takes no reservation: the drainer holds a record that history has no place for. */
  lemma FlushTakes(cfg: Config, s: System, event: nat, n: nat, k: nat)
    requires Opened(cfg, s, event, n, k) && !s.fac.accepting && cfg.drainOnStop
    ensures Enabled(cfg, s, Flush(event))
    ensures var s' := Step(cfg, s, Flush(event));
      Holding(cfg, s', event, n, 0, n + 1) && s'.drainer.Popped? && s'.drainer.record.header.event == event
      && RingsEmpty(s'.fac)
  {
    FlushKeepsReady(cfg, s, event);
    var slots := s.fac.events[event].slots;
    FirstOpenIsFirst(slots);
    assert SlotOk(slots[k], event);
    assert FirstOpen(slots) == Some(k);
    FilterSnoc(s.admitted, TakeAggregate(cfg, s.fac, event).1.value, OfEvent(event));
  }

  lemma RunFlushes(cfg: Config, ops: seq<Op>, event: nat, n: nat, k: nat) returns (ops': seq<Op>)
    requires cfg.Valid() && cfg.drainOnStop && NoStart(ops)
    requires Opened(cfg, Run(cfg, ops), event, n, k) && !Run(cfg, ops).fac.accepting
    ensures var s := Run(cfg, ops');
      NoStart(ops') && Holding(cfg, s, event, n, 0, n + 1) && s.drainer.Popped?
      && s.drainer.record.header.event == event && RingsEmpty(s.fac)
  {
    FlushTakes(cfg, Run(cfg, ops), event, n, k);
    RunSnoc(cfg, ops, Flush(event));
    ops' := ops + [Flush(event)];
  }

  lemma RetainLoses(cfg: Config, s: System, event: nat)
    requires cfg.IsCritical(event) && RingsEmpty(s.fac) && s.drainer.Popped? && s.drainer.record.header.event == event
    requires Holding(cfg, s, event, cfg.Reserved(event), 0, cfg.Reserved(event) + 1)
    ensures Ready(cfg, Step(cfg, s, Retain(true))) && !NothingLost(cfg, Step(cfg, s, Retain(true)), event)
  {
    RetainKeepsReady(cfg, s, true);
    RetainReachesHistory(cfg, s.fac, s.drainer.record, true, event);
  }

  lemma LossyRun(cfg: Config, event: nat) returns (ops: seq<Op>)
    requires cfg.Valid() && cfg.drainOnStop && cfg.IsCritical(event) && cfg.Aggregates(event)
    ensures NoStart(ops) && !NothingLost(cfg, Run(cfg, ops), event)
  {
    var n, k := cfg.Reserved(event), 0;
    ops := FillAll(cfg, event, n);
    ops, k := RunOpens(cfg, ops, event, n);
    ops := RunStops(cfg, ops, event, n, k);
    ops := RunFlushes(cfg, ops, event, n, k);
    RetainLoses(cfg, Run(cfg, ops), event);
    RunSnoc(cfg, ops, Retain(true));
    ops := ops + [Retain(true)];
  }

  lemma NonAggregatingNeverLost(cfg: Config, event: nat, ops: seq<Op>)
    requires cfg.Valid() && cfg.drainOnStop && cfg.IsCritical(event) && !cfg.Aggregates(event)
    ensures NothingLost(cfg, Run(cfg, ops), event)
  {
    RunsRetain(cfg, ops);
    ThreePlaces(cfg, Run(cfg, ops), event);
  }

  /** Critical records are never lost, over any run at all, if their event does not aggregate; if it does,
      they are lost in some run within one life of the facility. */
  lemma CriticalNeverLost(cfg: Config, event: nat)
    requires cfg.Valid() && cfg.drainOnStop && cfg.IsCritical(event)
    ensures (forall ops :: NoStart(ops) ==> NothingLost(cfg, Run(cfg, ops), event)) <==> !cfg.Aggregates(event)
    ensures !cfg.Aggregates(event) ==> forall ops :: NothingLost(cfg, Run(cfg, ops), event)
  {
    if cfg.Aggregates(event) {
      var ops := LossyRun(cfg, event);
    } else {
      forall ops ensures NothingLost(cfg, Run(cfg, ops), event) {
        NonAggregatingNeverLost(cfg, event, ops);
      }
    }
  }
}
