/** What a cancelling stop of the event facility does, and what becomes of the records that waited
    (Facility::stop and cancel_aggregates in include/solar/events/runtime.hpp).
 */
module EventCancellation {
  import opened Basics
  import opened EventPipeline
  import opened EventOrdering
  import EventConservation
  import EventRetention

  /** A cancelling stop closes capture, empties every ring and every slot, and counts exactly the open
      occurrences of each event as lost; nothing else changes, and the waiting records are counted nowhere. */
  lemma CancellingStop(cfg: Config, s: System)
    requires Ready(cfg, s) && !cfg.drainOnStop
    ensures var s' := Step(cfg, s, Stop);
      && Ready(cfg, s') && !s'.fac.accepting && RingsEmpty(s'.fac)
      && s'.drainer == s.drainer && s'.admitted == s.admitted && s'.processed == s.processed && s'.refused == s.refused
      && s'.fac.log == s.fac.log && s'.fac.evicted == s.fac.evicted && s'.fac.nextSequence == s.fac.nextSequence
      && forall e :: 0 <= e < |cfg.events| ==> Emptied(s.fac.events[e], s'.fac.events[e])
  {
    StopKeepsReady(cfg, s);
    forall e | 0 <= e < |cfg.events|
      ensures Emptied(s.fac.events[e], Step(cfg, s, Stop).fac.events[e])
    {
      SlotsEmptied(s.fac.events[e]);
    }
  }

  lemma SlotsEmptied(e: EventState)
    ensures Emptied(e, CancelSlots(e))
  {
    EventConservation.OpenCountEmpty(CancelSlots(e).slots);
  }

  /** No slot is in use any more, what they counted is lost, and the rest of the event is as it was. */
  ghost predicate Emptied(e: EventState, e': EventState)
  {
    && EventRetention.AllFree(e'.slots) && OpenCount(e'.slots) == 0 && |e'.slots| == |e.slots|
    && e'.knownLost == e.knownLost + OpenCount(e.slots)
    && e'.(slots := e.slots, knownLost := e.knownLost) == e
  }

  /** Capture is open exactly when no stop has come since the last start. */
  function Open(ops: seq<Op>): bool
  {
    if ops == [] then true
    else
      match ops[|ops| - 1]
      case Stop => false
      case Start => true
      case _ => Open(ops[..|ops| - 1])
  }

  lemma AcceptingStep(cfg: Config, s: System, op: Op)
    requires Ready(cfg, s) && Enabled(cfg, s, op)
    ensures Step(cfg, s, op).fac.accepting == match op case Stop => false case Start => true case _ => s.fac.accepting
  {
    match op
    case Observe(o) => CaptureEffect(cfg, s, o);
    case Pop => PopEffect(s.fac);
    case Retain(persisted) => RetainEffect(cfg, s.fac, s.drainer.record, persisted);
    case Flush(event) => FlushEffect(cfg, s.fac, event);
    case _ =>
  }

  /** Over every run capture is open as the last stop or start left it, under either stop policy, and an
      observation that finds it closed changes nothing. */
  lemma {:induction false} OpenFromStartToStop(cfg: Config, ops: seq<Op>, o: Observation)
    requires cfg.Valid()
    ensures Run(cfg, ops).fac.accepting == Open(ops)
    ensures !Open(ops) ==> Run(cfg, ops + [Observe(o)]) == Run(cfg, ops)
  {
    if ops != [] {
      var init, op := ops[..|ops| - 1], ops[|ops| - 1];
      OpenFromStartToStop(cfg, init, o);
      if Enabled(cfg, Run(cfg, init), op) {
        AcceptingStep(cfg, Run(cfg, init), op);
      }
    }
    EventRetention.RunSnoc(cfg, ops, Observe(o));
  }

  // ---------------------------------------------------------------- records apart

  ghost predicate WaitsAt(s: Facility, k: nat, i: nat, sequence: nat)
  {
    k < |s.rings| && i < |s.rings[k]| && s.rings[k][i].header.sequence == sequence
  }

  /** Every waiting record has its own number, below the next one, and the drainer holds none of them. */
  ghost predicate Apart(s: System)
  {
    && (forall k, i :: 0 <= k < |s.fac.rings| && 0 <= i < |s.fac.rings[k]| ==>
          s.fac.rings[k][i].header.sequence < s.fac.nextSequence)
    && (forall k: nat, i: nat, l: nat, j: nat, sequence: nat ::
          WaitsAt(s.fac, k, i, sequence) && WaitsAt(s.fac, l, j, sequence) ==> k == l && i == j)
    && (!s.drainer.Idle? ==> s.drainer.record.header.sequence < s.fac.nextSequence
                             && forall k: nat, i: nat :: !WaitsAt(s.fac, k, i, s.drainer.record.header.sequence))
  }

  lemma ApartRingsShrink(s: System, s': System)
    requires Apart(s) && s'.fac.nextSequence >= s.fac.nextSequence
    requires s'.fac.rings == s.fac.rings && s'.drainer == s.drainer
    ensures Apart(s')
  {
    assert forall k: nat, i: nat, sequence: nat :: WaitsAt(s'.fac, k, i, sequence) ==> WaitsAt(s.fac, k, i, sequence);
  }

  lemma ApartPush(s: System, s': System, k: nat, r: Rec)
    requires Apart(s) && k < |s.fac.rings| && r.header.sequence == s.fac.nextSequence
    requires s'.fac.rings == s.fac.rings[k := s.fac.rings[k] + [r]] && s'.fac.nextSequence == s.fac.nextSequence + 1
    requires s'.drainer == s.drainer
    ensures Apart(s')
  {
    var n := |s.fac.rings[k]|;
    forall l: nat, i: nat, sequence: nat | WaitsAt(s'.fac, l, i, sequence)
      ensures if l == k && i == n then sequence == s.fac.nextSequence
              else WaitsAt(s.fac, l, i, sequence) && sequence < s.fac.nextSequence
    {
      assert l != k ==> s'.fac.rings[l] == s.fac.rings[l];
    }
    forall l, i | 0 <= l < |s'.fac.rings| && 0 <= i < |s'.fac.rings[l]|
      ensures s'.fac.rings[l][i].header.sequence < s'.fac.nextSequence
    {
      assert WaitsAt(s'.fac, l, i, s'.fac.rings[l][i].header.sequence);
    }
  }

  lemma ApartPop(s: System, s': System, k: nat)
    requires Apart(s) && k < |s.fac.rings| && s.fac.rings[k] != []
    requires s'.fac.rings == s.fac.rings[k := s.fac.rings[k][1..]] && s'.fac.nextSequence == s.fac.nextSequence
    requires s'.drainer == Popped(s.fac.rings[k][0])
    ensures Apart(s')
  {
    var taken := s.fac.rings[k][0].header.sequence;
    assert WaitsAt(s.fac, k, 0, taken);
    forall l: nat, i: nat, sequence: nat | WaitsAt(s'.fac, l, i, sequence)
      ensures WaitsAt(s.fac, l, if l == k then i + 1 else i, sequence) && sequence != taken
    {
      assert l != k ==> s'.fac.rings[l] == s.fac.rings[l];
      assert WaitsAt(s.fac, l, if l == k then i + 1 else i, sequence);
    }
    forall l, i | 0 <= l < |s'.fac.rings| && 0 <= i < |s'.fac.rings[l]|
      ensures s'.fac.rings[l][i].header.sequence < s'.fac.nextSequence
    {
      assert WaitsAt(s'.fac, l, i, s'.fac.rings[l][i].header.sequence);
    }
  }

  lemma ApartEmpty(s: System, s': System)
    requires Apart(s) && RingsEmpty(s'.fac) && s'.drainer == s.drainer && s'.fac.nextSequence == s.fac.nextSequence
    ensures Apart(s')
  {
  }

  // ---------------------------------------------------------------- after the stop

  /** Everything that has happened since the state `s0`: what was processed after it is the record the drainer
      held then, or carries a number given out since; and so does everything still under way. */
  ghost predicate Since(s0: System, s: System)
  {
    && s.fac.nextSequence >= s0.fac.nextSequence
    && s0.processed <= s.processed
    && (forall j :: |s0.processed| <= j < |s.processed| ==> New(s0, s.processed[j]))
    && (forall k, i :: 0 <= k < |s.fac.rings| && 0 <= i < |s.fac.rings[k]| ==>
          s.fac.rings[k][i].header.sequence >= s0.fac.nextSequence)
    && (!s.drainer.Idle? ==> New(s0, s.drainer.record))
  }

  ghost predicate New(s0: System, r: Rec)
  {
    (!s0.drainer.Idle? && r == s0.drainer.record) || r.header.sequence >= s0.fac.nextSequence
  }

  lemma SinceObserve(cfg: Config, s0: System, s: System, o: Observation)
    requires Ready(cfg, s) && Since(s0, s) && o.event < |cfg.events|
    ensures Since(s0, Step(cfg, s, Observe(o)))
  {
    CaptureEffect(cfg, s, o);
  }

  lemma SincePop(cfg: Config, s0: System, s: System)
    requires Ready(cfg, s) && Since(s0, s) && s.drainer.Idle?
    ensures Since(s0, Step(cfg, s, Pop))
  {
    PopEffect(s.fac);
  }

  lemma SinceRetain(cfg: Config, s0: System, s: System, persisted: bool)
    requires Ready(cfg, s) && Since(s0, s) && s.drainer.Popped?
    ensures Since(s0, Step(cfg, s, Retain(persisted)))
  {
    RetainEffect(cfg, s.fac, s.drainer.record, persisted);
  }

  lemma SinceStop(cfg: Config, s0: System, s: System)
    requires Ready(cfg, s) && Since(s0, s)
    ensures Since(s0, Step(cfg, s, Stop))
  {
  }

  lemma SinceStep(cfg: Config, s0: System, s: System, op: Op)
    requires Ready(cfg, s) && Enabled(cfg, s, op) && !cfg.drainOnStop && Since(s0, s)
    ensures Since(s0, Step(cfg, s, op))
  {
    match op
    case Observe(o) => SinceObserve(cfg, s0, s, o);
    case Pop => SincePop(cfg, s0, s);
    case Retain(persisted) => SinceRetain(cfg, s0, s, persisted);
    case Stop => SinceStop(cfg, s0, s);
    case Conclude =>
    case Start =>
    // a cancelling facility flushes nothing: Flush is not enabled
  }

  lemma ApartObserve(cfg: Config, s: System, o: Observation)
    requires Ready(cfg, s) && Apart(s) && o.event < |cfg.events|
    ensures Apart(Step(cfg, s, Observe(o)))
  {
    CaptureEffect(cfg, s, o);
    var (fac, outcome) := CaptureEvent(cfg, s.fac, o);
    var s' := Step(cfg, s, Observe(o));
    if outcome.Captured? {
      ApartPush(s, s', cfg.RingFor(o.event, o.isr), outcome.record);
    } else {
      ApartRingsShrink(s, s');
    }
  }

  lemma ApartStep(cfg: Config, s: System, op: Op)
    requires Ready(cfg, s) && Enabled(cfg, s, op) && !cfg.drainOnStop && Apart(s)
    ensures Apart(Step(cfg, s, op))
  {
    match op
    case Observe(o) => ApartObserve(cfg, s, o);
    case Pop =>
      PopEffect(s.fac);
      var k := Earliest(s.fac.rings, |s.fac.rings|);
      if k.Some? {
        ApartPop(s, Step(cfg, s, Pop), k.value);
      }
    case Retain(persisted) =>
      RetainEffect(cfg, s.fac, s.drainer.record, persisted);
      var s' := Step(cfg, s, op);
      ApartRingsShrink(s, s'.(drainer := s.drainer));
      assert forall k: nat, i: nat, n: nat :: WaitsAt(s'.fac, k, i, n) == WaitsAt(s.fac, k, i, n);
    case Stop =>
      CancellingStop(cfg, s);
      ApartEmpty(s, Step(cfg, s, Stop));
    case Conclude =>
      assert forall k: nat, i: nat, n: nat :: WaitsAt(Step(cfg, s, op).fac, k, i, n) == WaitsAt(s.fac, k, i, n);
    case Start => ApartRingsShrink(s, Step(cfg, s, Start));
  }

  lemma {:induction false} RunsKeepApart(cfg: Config, ops: seq<Op>)
    requires cfg.Valid() && !cfg.drainOnStop
    ensures Apart(Run(cfg, ops))
  {
    if ops != [] {
      RunsKeepApart(cfg, ops[..|ops| - 1]);
      var s := Run(cfg, ops[..|ops| - 1]);
      if Enabled(cfg, s, ops[|ops| - 1]) {
        ApartStep(cfg, s, ops[|ops| - 1]);
      }
    }
  }

  lemma {:induction false} RunsSinceStop(cfg: Config, ops: seq<Op>, more: seq<Op>)
    requires cfg.Valid() && !cfg.drainOnStop
    ensures Since(Run(cfg, ops), Run(cfg, ops + [Stop] + more))
  {
    var s0 := Run(cfg, ops);
    if more == [] {
      assert ops + [Stop] + more == ops + [Stop];
      SinceAtStop(cfg, ops);
    } else {
      var init, op := more[..|more| - 1], more[|more| - 1];
      RunsSinceStop(cfg, ops, init);
      assert ops + [Stop] + more == (ops + [Stop] + init) + [op];
      SinceOneMore(cfg, s0, ops + [Stop] + init, op);
    }
  }

  lemma SinceAtStop(cfg: Config, ops: seq<Op>)
    requires cfg.Valid() && !cfg.drainOnStop
    ensures Since(Run(cfg, ops), Run(cfg, ops + [Stop]))
  {
    EventRetention.RunSnoc(cfg, ops, Stop);
    SinceCancelled(cfg, Run(cfg, ops));
  }

  lemma SinceCancelled(cfg: Config, s: System)
    requires Ready(cfg, s) && !cfg.drainOnStop
    ensures Since(s, Step(cfg, s, Stop))
  {
    CancellingStop(cfg, s);
  }

  lemma SinceOneMore(cfg: Config, s0: System, ops: seq<Op>, op: Op)
    requires cfg.Valid() && !cfg.drainOnStop && Since(s0, Run(cfg, ops))
    ensures Since(s0, Run(cfg, ops + [op]))
  {
    EventRetention.RunSnoc(cfg, ops, op);
    if Enabled(cfg, Run(cfg, ops), op) {
      SinceStep(cfg, s0, Run(cfg, ops), op);
    }
  }

  /** A record that waits when a cancelling stop comes is never processed afterwards, whatever follows. */
  lemma CancelledIsNeverProcessed(cfg: Config, ops: seq<Op>, more: seq<Op>, k: nat, i: nat)
    requires cfg.Valid() && !cfg.drainOnStop
    requires k < |Run(cfg, ops).fac.rings| && i < |Run(cfg, ops).fac.rings[k]|
    ensures var s, s' := Run(cfg, ops), Run(cfg, ops + [Stop] + more);
      && s.processed <= s'.processed
      && forall j :: |s.processed| <= j < |s'.processed| ==>
           s'.processed[j].header.sequence != s.fac.rings[k][i].header.sequence
  {
    RunsKeepApart(cfg, ops);
    RunsSinceStop(cfg, ops, more);
    var s := Run(cfg, ops);
    assert WaitsAt(s.fac, k, i, s.fac.rings[k][i].header.sequence);
  }
}
