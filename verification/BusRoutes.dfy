/** Asynchronous bus routes and their ledgers
    (RouteState in include/solar/bus/facility.hpp, emit_route in include/solar/bus/runtime.hpp).

    One accept, one removal and one handler return are each one step here; BusTokens takes the
    queued accept apart. Counters are unbounded naturals.
 */
module BusRoutes {
  import opened Basics
  import opened Rings

  datatype Overflow = Reject | DropNewest | DropOldest | WaitFor

  datatype EmitMode = Normal | Try | Isr

  datatype Status = Ok | Full | Timeout | NotReady | HandlerFailed | Unavailable

  datatype Reason = RouteNotReady | RouteRejected | RouteTimedOut | ExecutorUnavailable | InlineHandlerFailed

  datatype Acceptance = Acceptance(status: Status, accepted: bool, dropped: bool, needsSubmit: bool)

  datatype Attempt = Attempt(failed: bool, accepted: bool, dropped: bool, status: Status, reason: Option<Reason>)

  /** The answers a route can give: an inline route accepts before its handler may fail, every other
      failure leaves the message out, and an unaccepted success is a dropped newest message. */
  ghost predicate Possible(a: Attempt)
  {
    && (a.failed && a.accepted ==> a.reason == Some(InlineHandlerFailed))
    && (a.failed ==> !a.dropped)
    && (!a.failed && !a.accepted ==> a.dropped)
  }

  /** The status that goes with each reason. */
  ghost predicate StatusFits(a: Attempt)
  {
    match a.reason
    case None => a.status == Ok && !a.failed
    case Some(RouteNotReady) => a.status == NotReady && a.failed
    case Some(RouteTimedOut) => a.status == Timeout && a.failed
    case Some(RouteRejected) => a.status == Full && a.failed
    case Some(ExecutorUnavailable) => a.status == Unavailable && a.failed
    case Some(InlineHandlerFailed) => a.failed
  }

  /** The whole answer of a queued route, by whether it was open and full. */
  ghost predicate QueuedAnswer(r: Attempt, open: bool, full: bool, overflow: Overflow, mode: EmitMode, submitted: bool)
  {
    && Possible(r) && StatusFits(r)
    && (r.failed <==> !open || (full && (overflow.Reject? || overflow.WaitFor?))
                      || (!submitted && (!full || overflow.DropOldest?)))
    && (r.reason == Some(RouteNotReady) <==> !open)
    && (r.reason == Some(RouteTimedOut) <==> open && full && overflow.WaitFor? && mode.Normal?)
    && (r.reason == Some(RouteRejected) <==>
          open && full && (overflow.Reject? || (overflow.WaitFor? && !mode.Normal?)))
    && (r.reason == Some(ExecutorUnavailable) <==> open && !submitted && (!full || overflow.DropOldest?))
    && (r.accepted <==> !r.failed && (!full || overflow.DropOldest?))
    && (r.dropped <==> !r.failed && full)
  }

  /** Positions in the acceptance log that were handed to the handler: each later than the one before. */
  ghost predicate InOrder(started: seq<nat>, limit: nat)
  {
    && (forall i :: 0 <= i < |started| ==> started[i] < limit)
    && (forall i, j :: 0 <= i < j < |started| ==> started[i] < started[j])
  }

  /** The queue is the newest part of what was accepted, and the handler got older ones in order. */
  ghost predicate InStep<M>(log: seq<M>, queue: seq<M>, started: seq<nat>)
  {
    && |queue| <= |log| && queue == log[|log| - |queue|..]
    && InOrder(started, |log| - |queue|)
  }

  lemma InStepStore<M>(log: seq<M>, queue: seq<M>, started: seq<nat>, kept: seq<M>, message: M)
    requires InStep(log, queue, started)
    requires kept == queue || (queue != [] && kept == queue[1..])
    ensures InStep(log + [message], kept + [message], started)
  {
  }

  lemma InStepTake<M>(log: seq<M>, queue: seq<M>, started: seq<nat>)
    requires InStep(log, queue, started) && queue != []
    ensures InStep(log, queue[1..], started + [|log| - |queue|]) && log[|log| - |queue|] == queue[0]
  {
  }

  lemma InStepClear<M>(log: seq<M>, queue: seq<M>, started: seq<nat>)
    requires InStep(log, queue, started)
    ensures InStep(log, [], started)
  {
  }

  class QueuedRoute<M(0)> {
    const ring: FixedRing<M>
    const overflow: Overflow
    var slots: nat
    var accepting: bool

    var considered: nat
    var accepted: nat
    var delivered: nat
    var inFlight: nat
    var droppedNewest: nat
    var droppedOldest: nat
    var rejected: nat
    var timedOut: nat
    var cancelled: nat
    var unavailable: nat
    var handlerFailed: nat

    /** Every message accepted so far, and which of them the handler was given. */
    ghost var log: seq<M>
    ghost var started: seq<nat>

    /** The queue is the newest part of what was accepted, every slot is free or filled, and the
        ledger balances. */
    ghost predicate Valid()
      reads this, ring, ring.cells
    {
      && ring.Valid()
      && slots + |ring.contents| == ring.cells.Length
      && Ledger(|ring.contents|)
      && InStep(log, ring.contents, started)
    }

    ghost predicate Ledger(pending: nat)
      reads this
    {
      && accepted == |log|
      && accepted == delivered + inFlight + pending + droppedOldest + cancelled
      && |started| == delivered + inFlight
    }

    constructor (capacity: nat, overflow: Overflow)
      ensures Valid() && fresh(ring) && fresh(ring.cells)
      ensures ring.cells.Length == capacity && this.overflow == overflow
      ensures log == [] && started == [] && accepting
    {
      ring := new FixedRing(capacity);
      this.overflow := overflow;
      slots, accepting := capacity, true;
      considered, accepted, delivered, inFlight, droppedNewest := 0, 0, 0, 0, 0;
      droppedOldest, rejected, timedOut, cancelled, unavailable, handlerFailed := 0, 0, 0, 0, 0, 0;
      log, started := [], [];
    }

    /** The locked section of accept: store at the tail, after dropping the oldest if told to. */
    method Store(message: M, dropOldest: bool)
      requires Valid() && ring.cells.Length > 0 && (if dropOldest then slots == 0 else slots > 0)
      modifies this`slots, this`accepted, this`droppedOldest, this`log, ring, ring.cells
      ensures Valid() && log == old(log) + [message]
      ensures ring.contents == (if dropOldest then old(ring.contents)[1..] else old(ring.contents)) + [message]
      ensures droppedOldest == old(droppedOldest) + if dropOldest then 1 else 0
    {
      ghost var kept := if dropOldest then ring.contents[1..] else ring.contents;
      InStepStore(log, ring.contents, started, kept, message);
      if dropOldest {
        var _ := ring.Pop();
        droppedOldest := droppedOldest + 1;
      } else {
        slots := slots - 1;
      }
      assert ring.contents == kept && |kept| < ring.cells.Length;
      var _ := ring.Push(message);
      accepted := accepted + 1;
      log := log + [message];
    }

    method Accept(message: M, mode: EmitMode) returns (a: Acceptance)
      requires Valid() && ring.cells.Length > 0
      modifies this, ring, ring.cells
      ensures Valid() && started == old(started) && delivered == old(delivered)
      ensures a.accepted <==> old(slots) > 0 || overflow.DropOldest?
      ensures a.dropped <==> old(slots) == 0 && (overflow.DropOldest? || overflow.DropNewest?)
      ensures log == if a.accepted then old(log) + [message] else old(log)
      ensures ring.contents == if !a.accepted then old(ring.contents)
                           else (if a.dropped then old(ring.contents)[1..] else old(ring.contents)) + [message]
      ensures droppedOldest == old(droppedOldest) + if a.accepted && a.dropped then 1 else 0
      ensures a.status == if old(slots) > 0 || a.dropped then Ok
                          else if overflow.WaitFor? && mode.Normal? then Timeout else Full
      ensures a.needsSubmit == a.accepted
      ensures droppedNewest == old(droppedNewest) + if a.dropped && !a.accepted then 1 else 0
      ensures rejected == old(rejected) + if a.status != Ok then 1 else 0
      ensures timedOut == old(timedOut) + if a.status == Timeout then 1 else 0
      ensures considered == old(considered) && accepting == old(accepting) && cancelled == old(cancelled)
      ensures unavailable == old(unavailable)
    {
      if slots > 0 {
        Store(message, false);
        a := Acceptance(Ok, true, false, true);
      } else if overflow.DropNewest? {
        droppedNewest := droppedNewest + 1;
        a := Acceptance(Ok, false, true, false);
      } else if overflow.DropOldest? {
        Store(message, true);
        a := Acceptance(Ok, true, true, true);
      } else {
        var late := overflow.WaitFor? && mode.Normal?;
        rejected := rejected + 1;
        if late {
          timedOut := timedOut + 1;
        }
        a := Acceptance(if late then Timeout else Full, false, false, false);
      }
    }

    /** The first half of drain_one: remove the oldest message and start its handler. */
    method Take() returns (message: Option<M>)
      requires Valid()
      modifies this`slots, this`inFlight, this`started, ring
      ensures Valid()
      ensures old(ring.contents) == [] ==> message == None && started == old(started) && ring.contents == []
      ensures old(ring.contents) != [] ==>
                && message == Some(old(ring.contents)[0]) && ring.contents == old(ring.contents)[1..]
                && started == old(started) + [|log| - |old(ring.contents)|]
                && log[started[|started| - 1]] == message.value
    {
      ghost var queue := ring.contents;
      message := ring.Pop();
      if message.Some? {
        ghost var position := |log| - |queue|;
        InStepTake(log, queue, started);
        started := started + [position];
        assert started[|started| - 1] == position && InStep(log, ring.contents, started);
        slots := slots + 1;
        inFlight := inFlight + 1;
      }
    }

    /** The handler returned. */
    method Finish(handled: bool)
      requires Valid() && inFlight > 0
      modifies this`delivered, this`inFlight, this`handlerFailed
      ensures Valid() && delivered == old(delivered) + 1 && inFlight == old(inFlight) - 1
      ensures handlerFailed == old(handlerFailed) + if handled then 0 else 1
    {
      delivered, inFlight := delivered + 1, inFlight - 1;
      if !handled {
        handlerFailed := handlerFailed + 1;
      }
    }

    /** Drops everything stored and refills the semaphore. */
    method ClearPending() returns (removed: nat)
      requires Valid()
      modifies this`slots, this`cancelled, ring
      ensures Valid() && ring.contents == [] && removed == |old(ring.contents)|
      ensures cancelled == old(cancelled) + removed
    {
      removed := ring.size;
      InStepClear(log, ring.contents, started);
      ring.Clear();
      slots := ring.cells.Length;
      cancelled := cancelled + removed;
    }

    /** The executor refused: everything stored is cancelled. */
    method Withdraw()
      requires Valid()
      modifies this`slots, this`cancelled, this`unavailable, ring
      ensures Valid() && ring.contents == []
      ensures cancelled == old(cancelled) + |old(ring.contents)| && unavailable == old(unavailable) + 1
    {
      var _ := ClearPending();
      unavailable := unavailable + 1;
    }

    /** emit_route for a queued route; `submitted` is the executor's answer. */
    method Emit(message: M, mode: EmitMode, submitted: bool) returns (r: Attempt)
      requires Valid() && ring.cells.Length > 0
      modifies this, ring, ring.cells
      ensures Valid() && started == old(started) && considered == old(considered) + 1
      ensures unavailable == old(unavailable) + if r.reason == Some(ExecutorUnavailable) then 1 else 0
      ensures QueuedAnswer(r, old(accepting), old(slots) == 0, overflow, mode, submitted)
      ensures droppedNewest == old(droppedNewest) + if r.dropped && !r.accepted then 1 else 0
      ensures timedOut == old(timedOut) + if r.reason == Some(RouteTimedOut) then 1 else 0
      ensures rejected == old(rejected)
                          + if r.reason == Some(RouteTimedOut) || r.reason == Some(RouteRejected) then 1 else 0
      // an accepted message is the newest one stored
      ensures r.accepted ==> !r.failed && log == old(log) + [message]
                             && ring.contents != [] && ring.contents[|ring.contents| - 1] == message
      // a refused submission cancels it together with everything stored before it
      ensures r.reason == Some(ExecutorUnavailable) ==>
                && log == old(log) + [message] && ring.contents == []
                && cancelled + droppedOldest
                     == old(cancelled) + old(droppedOldest) + |old(ring.contents)| + 1
      ensures !r.accepted && r.reason != Some(ExecutorUnavailable) ==>
                log == old(log) && ring.contents == old(ring.contents)
    {
      considered := considered + 1;
      if !accepting {
        return Attempt(true, false, false, NotReady, Some(RouteNotReady));
      }
      var a := Accept(message, mode);
      if a.status != Ok {
        return Attempt(true, false, false, a.status,
                       Some(if a.status == Timeout then RouteTimedOut else RouteRejected));
      }
      if a.needsSubmit && !submitted {
        Withdraw();
        assert cancelled + droppedOldest == old(cancelled) + old(droppedOldest) + |old(ring.contents)| + 1;
        return Attempt(true, false, false, Unavailable, Some(ExecutorUnavailable));
      }
      r := Attempt(false, a.accepted, a.dropped, Ok, None);
    }
  }

  /** A route that keeps only the newest message. */
  class LatestRoute<M(0)> {
    var payload: M
    var pending: bool
    var accepted: nat
    var delivered: nat
    var inFlight: nat
    var replacements: nat
    var cancelled: nat
    var accepting: bool
    var considered: nat
    var unavailable: nat

    /** Accepts made while a handler ran and nothing was stored: counted as replacements although
        they replace nothing. */
    ghost var overlapped: nat
    ghost var log: seq<M>
    ghost var started: seq<nat>

    function Stored(): nat
      reads this
    {
      if pending then 1 else 0
    }

    ghost predicate Valid()
      reads this
    {
      && accepted == |log|
      && (pending ==> log != [] && payload == log[|log| - 1])
      && overlapped <= replacements
      && accepted == delivered + inFlight + Stored() + (replacements - overlapped) + cancelled
      && |started| == delivered + inFlight
      && InOrder(started, if pending then |log| - 1 else |log|)
    }

    constructor (initial: M)
      ensures Valid() && log == [] && started == [] && !pending && inFlight == 0 && replacements == 0
    {
      accepting, considered, unavailable := true, 0, 0;
      payload, pending, log, started, overlapped := initial, false, [], [], 0;
      accepted, delivered, inFlight, replacements, cancelled := 0, 0, 0, 0, 0;
    }

    method Accept(message: M)
      requires Valid()
      modifies this`payload, this`pending, this`accepted, this`replacements, this`overlapped, this`log
      ensures Valid() && pending && log == old(log) + [message] && started == old(started)
      ensures replacements == old(replacements) + if old(pending) || inFlight != 0 then 1 else 0
      ensures overlapped == old(overlapped) + if !old(pending) && inFlight != 0 then 1 else 0
      ensures inFlight == old(inFlight) && delivered == old(delivered) && cancelled == old(cancelled)
    {
      if pending || inFlight != 0 {
        replacements := replacements + 1;
        overlapped := overlapped + if pending then 0 else 1;
      }
      payload, pending := message, true;
      accepted := accepted + 1;
      log := log + [message];
    }

    /** The handler is given the newest accepted message, or nothing. */
    method Take() returns (message: Option<M>)
      requires Valid()
      modifies this`pending, this`started, this`inFlight
      ensures Valid() && !pending && inFlight == old(inFlight) + old(Stored())
      ensures message == if old(pending) then Some(log[|log| - 1]) else None
      ensures started == if old(pending) then old(started) + [|log| - 1] else old(started)
    {
      if !pending {
        return None;
      }
      message := Some(payload);
      pending := false;
      started := started + [|log| - 1];
      inFlight := inFlight + 1;
    }

    method Finish()
      requires Valid() && inFlight > 0
      modifies this`delivered, this`inFlight
      ensures Valid() && delivered == old(delivered) + 1
    {
      delivered, inFlight := delivered + 1, inFlight - 1;
    }

    method ClearPending() returns (removed: nat)
      requires Valid()
      modifies this`pending, this`cancelled
      ensures Valid() && !pending && removed == old(Stored()) && cancelled == old(cancelled) + removed
    {
      removed := Stored();
      pending := false;
      cancelled := cancelled + removed;
    }

    /** emit_route for a latest route: a refused submission cancels the message it just stored. */
    method Emit(message: M, submitted: bool) returns (r: Attempt)
      requires Valid()
      modifies this
      ensures Valid() && Possible(r) && started == old(started) && considered == old(considered) + 1
      ensures r.failed <==> !old(accepting) || !submitted
      ensures r.reason == if !old(accepting) then Some(RouteNotReady)
                          else if !submitted then Some(ExecutorUnavailable) else None
      ensures StatusFits(r) && (r.accepted <==> !r.failed) && !r.dropped
      ensures log == if old(accepting) then old(log) + [message] else old(log)
      ensures pending == if old(accepting) then submitted else old(pending)
      ensures unavailable == old(unavailable) + if r.reason == Some(ExecutorUnavailable) then 1 else 0
    {
      considered := considered + 1;
      if !accepting {
        return Attempt(true, false, false, NotReady, Some(RouteNotReady));
      }
      Accept(message);
      if !submitted {
        var _ := ClearPending();
        unavailable := unavailable + 1;
        return Attempt(true, false, false, Unavailable, Some(ExecutorUnavailable));
      }
      r := Attempt(false, true, false, Ok, None);
    }
  }

  /** Two messages, the second accepted while the handler has the first: both are delivered, and a
      replacement is counted although nothing was replaced. */
  method OverlapCountsAsReplacement() returns (given: seq<Option<int>>, replacements: nat)
    ensures given == [Some(1), Some(2)] && replacements == 1
  {
    var route := new LatestRoute<int>(0);
    route.Accept(1);
    var first := route.Take();
    route.Accept(2);
    replacements := route.replacements;
    route.Finish();
    var second := route.Take();
    given := [first, second];
  }

  /** A signal route: any number of accepts before a drain make one delivery. */
  class CoalescedRoute {
    var pending: bool
    var accepted: nat
    var delivered: nat
    var inFlight: nat
    var coalesced: nat
    var cancelled: nat
    var accepting: bool
    var considered: nat
    var unavailable: nat

    function Stored(): nat
      reads this
    {
      if pending then 1 else 0
    }

    ghost predicate Valid()
      reads this
    {
      accepted == delivered + inFlight + Stored() + coalesced + cancelled
    }

    constructor ()
      ensures Valid() && !pending && accepted == 0
    {
      pending, accepted, delivered, inFlight, coalesced, cancelled := false, 0, 0, 0, 0, 0;
      accepting, considered, unavailable := true, 0, 0;
    }

    method Accept() returns (needsSubmit: bool)
      requires Valid()
      modifies this`pending, this`accepted, this`coalesced
      ensures Valid() && pending && accepted == old(accepted) + 1
      ensures needsSubmit <==> !old(pending)
      ensures coalesced == old(coalesced) + if old(pending) then 1 else 0
    {
      needsSubmit := !pending;
      if pending {
        coalesced := coalesced + 1;
      }
      pending := true;
      accepted := accepted + 1;
    }

    method Take() returns (taken: bool)
      requires Valid()
      modifies this`pending, this`inFlight
      ensures Valid() && !pending && taken == old(pending)
      ensures inFlight == old(inFlight) + old(Stored())
    {
      taken := pending;
      if taken {
        pending := false;
        inFlight := inFlight + 1;
      }
    }

    method Finish()
      requires Valid() && inFlight > 0
      modifies this`delivered, this`inFlight
      ensures Valid() && delivered == old(delivered) + 1
    {
      delivered, inFlight := delivered + 1, inFlight - 1;
    }

    method ClearPending() returns (removed: nat)
      requires Valid()
      modifies this`pending, this`cancelled
      ensures Valid() && !pending && removed == old(Stored()) && cancelled == old(cancelled) + removed
    {
      removed := Stored();
      pending := false;
      cancelled := cancelled + removed;
    }

    /** emit_route for a signal: a refused submission cancels the signal it just stored. */
    method Emit(submitted: bool) returns (r: Attempt)
      requires Valid()
      modifies this
      ensures Valid() && Possible(r) && considered == old(considered) + 1
      ensures r.failed <==> !old(accepting) || (!old(pending) && !submitted)
      ensures r.reason == if !old(accepting) then Some(RouteNotReady)
                          else if !old(pending) && !submitted then Some(ExecutorUnavailable) else None
      ensures StatusFits(r) && (r.accepted <==> !r.failed) && !r.dropped
      ensures accepted == old(accepted) + if old(accepting) then 1 else 0
      ensures pending == if old(accepting) then !r.failed else old(pending)
      ensures coalesced == old(coalesced) + if old(accepting) && old(pending) then 1 else 0
      ensures unavailable == old(unavailable) + if r.reason == Some(ExecutorUnavailable) then 1 else 0
    {
      considered := considered + 1;
      if !accepting {
        return Attempt(true, false, false, NotReady, Some(RouteNotReady));
      }
      var needsSubmit := Accept();
      if needsSubmit && !submitted {
        var _ := ClearPending();
        unavailable := unavailable + 1;
        return Attempt(true, false, false, Unavailable, Some(ExecutorUnavailable));
      }
      r := Attempt(false, true, false, Ok, None);
    }
  }
}
