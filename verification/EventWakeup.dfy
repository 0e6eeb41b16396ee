/** The scheduling handshake between capture and the event processor
    (request_processing, capture_event and drain_processor in include/solar/events/runtime.hpp).

    Any number of capturers, starters and stop-time drainers run beside the processor's work item.
    Each atomic operation and each locked section is one step, in any interleaving. Submitting a
    queued work item changes nothing and submitting a running one queues it again.
 */
module EventWakeup {

  /** A caller of request_processing: idle, about to exchange the flag, about to submit, or refused and
      about to store the flag back. */
  datatype Caller = Away | Pushed | MustSubmit | MustClear

  /** The processor's work item: not running, before its flag store, or in its drain loop. */
  datatype Worker = Off | Entering | Draining

  /** A drain on the stop path, which may give up at its deadline. */
  datatype Stopper = Absent | Beginning | Sweeping

  datatype State = State(
    ingress: nat,
    flag: bool,
    queued: bool,
    worker: Worker,
    callers: seq<Caller>,
    stoppers: seq<Stopper>)

  datatype Action =
    | Push(caller: nat)       // locked section of capture: a record enters a ring
    | Restart(caller: nat)    // start() had found records waiting and clears the flag
    | Exchange(caller: nat)   // processor_pending.exchange(true)
    | Submit(caller: nat)     // schedule_processor succeeds
    | SubmitRefused(caller: nat)  // schedule_processor fails or is not installed
    | ClearFlag(caller: nat)  // the refused caller stores false
    | Dispatch                // the work queue starts the item
    | WorkerClears            // drain_processor stores false
    | WorkerTakes             // locked section: pop one record
    | WorkerSeesEmpty         // locked section: the final empty check
    | StopBegins(stopper: nat)
    | StopClears(stopper: nat)
    | StopTakes(stopper: nat)
    | StopEnds(stopper: nat)  // empty, or the deadline expired

  function Initial(callers: nat, stoppers: nat): State
  {
    State(0, false, false, Off, seq(callers, _ => Away), seq(stoppers, _ => Absent))
  }

  predicate At(s: State, caller: nat, pc: Caller)
  {
    caller < |s.callers| && s.callers[caller] == pc
  }

  predicate StopAt(s: State, stopper: nat, pc: Stopper)
  {
    stopper < |s.stoppers| && s.stoppers[stopper] == pc
  }

  predicate Enabled(s: State, a: Action)
  {
    match a
    case Push(c) => At(s, c, Away)
    case Restart(c) => At(s, c, Away)
    case Exchange(c) => At(s, c, Pushed)
    case Submit(c) => At(s, c, MustSubmit)
    case SubmitRefused(c) => At(s, c, MustSubmit)
    case ClearFlag(c) => At(s, c, MustClear)
    case Dispatch => s.queued && s.worker.Off?
    case WorkerClears => s.worker.Entering?
    case WorkerTakes => s.worker.Draining? && s.ingress > 0
    case WorkerSeesEmpty => s.worker.Draining? && s.ingress == 0
    case StopBegins(k) => StopAt(s, k, Absent)
    case StopClears(k) => StopAt(s, k, Beginning)
    case StopTakes(k) => StopAt(s, k, Sweeping) && s.ingress > 0
    case StopEnds(k) => StopAt(s, k, Sweeping)
  }

  function Apply(s: State, a: Action): State
    requires Enabled(s, a)
  {
    match a
    case Push(c) => s.(ingress := s.ingress + 1, callers := s.callers[c := Pushed])
    case Restart(c) => s.(flag := false, callers := s.callers[c := Pushed])
    case Exchange(c) => s.(flag := true, callers := s.callers[c := if s.flag then Away else MustSubmit])
    case Submit(c) => s.(queued := true, callers := s.callers[c := Away])
    case SubmitRefused(c) => s.(callers := s.callers[c := MustClear])
    case ClearFlag(c) => s.(flag := false, callers := s.callers[c := Away])
    case Dispatch => s.(queued := false, worker := Entering)
    case WorkerClears => s.(flag := false, worker := Draining)
    case WorkerTakes => s.(ingress := s.ingress - 1)
    case WorkerSeesEmpty => s.(worker := Off)
    case StopBegins(k) => s.(stoppers := s.stoppers[k := Beginning])
    case StopClears(k) => s.(flag := false, stoppers := s.stoppers[k := Sweeping])
    case StopTakes(k) => s.(ingress := s.ingress - 1)
    case StopEnds(k) => s.(stoppers := s.stoppers[k := Absent])
  }

  // ---------------------------------------------------------------- the invariant

  ghost predicate SomeCaller(s: State, pc: Caller)
  {
    exists c :: 0 <= c < |s.callers| && s.callers[c] == pc
  }

  /** The flag promises a drain: a queued item, an entering worker or a submitter. */
  ghost predicate FlagIsBacked(s: State)
  {
    s.flag ==> s.queued || s.worker.Entering? || SomeCaller(s, MustSubmit)
  }

  /** A flag that promises nothing is about to be stored back by a refused caller. */
  ghost predicate FlagIsOwned(s: State)
  {
    FlagIsBacked(s) || SomeCaller(s, MustClear)
  }

  /** Waiting records have somebody who will look at the rings again. */
  ghost predicate Attended(s: State)
  {
    s.ingress > 0 ==>
      s.queued || !s.worker.Off? || SomeCaller(s, Pushed) || SomeCaller(s, MustSubmit)
  }

  /** Records wait, and nobody but this caller is on the way to schedule the processor. */
  ghost predicate DependsOn(s: State, c: nat)
  {
    && s.ingress > 0 && !s.queued && s.worker.Off?
    && forall d :: 0 <= d < |s.callers| && (s.callers[d] == Pushed || s.callers[d] == MustSubmit) ==> d == c
  }

  /** The two steps that can strand records: a refused submission, and an exchange that finds the flag
      set and relies on whoever set it. */
  ghost predicate Strands(s: State, a: Action)
  {
    match a
    case SubmitRefused(c) => DependsOn(s, c)
    case Exchange(c) => s.flag && DependsOn(s, c)
    case _ => false
  }

  /** Some caller besides c is at this point. */
  ghost predicate Another(s: State, c: nat, pc: Caller)
  {
    exists d :: 0 <= d < |s.callers| && d != c && s.callers[d] == pc
  }

  lemma CallerMoves(s: State, c: nat, to: Caller, pc: Caller)
    requires c < |s.callers|
    ensures SomeCaller(s.(callers := s.callers[c := to]), pc) <==> to == pc || Another(s, c, pc)
  {
    var callers' := s.callers[c := to];
    assert callers'[c] == to;
    forall d | 0 <= d < |s.callers| && d != c
      ensures callers'[d] == s.callers[d]
    {
    }
  }

  lemma SameCallers(s: State, s': State, pc: Caller)
    requires s'.callers == s.callers
    ensures SomeCaller(s', pc) == SomeCaller(s, pc)
  {
  }

  lemma FlagIsOwnedStep(s: State, a: Action)
    requires FlagIsOwned(s) && Enabled(s, a)
    ensures FlagIsOwned(Apply(s, a))
    ensures FlagIsBacked(s) && !a.SubmitRefused? ==> FlagIsBacked(Apply(s, a))
  {
    var s' := Apply(s, a);
    match a
    case Push(c) => Moved(s, s', c);
    case Restart(c) =>
    case Exchange(c) => Moved(s, s', c);
    case Submit(c) => Moved(s, s', c);
    case SubmitRefused(c) => Moved(s, s', c);
    case ClearFlag(c) =>
    case _ =>
      SameCallers(s, s', MustSubmit);
      SameCallers(s, s', MustClear);
  }

  lemma Moved(s: State, s': State, c: nat)
    requires c < |s.callers| == |s'.callers| && s'.callers == s.callers[c := s'.callers[c]]
    ensures forall pc :: SomeCaller(s', pc) <==> s'.callers[c] == pc || Another(s, c, pc)
  {
    forall pc
      ensures SomeCaller(s', pc) <==> s'.callers[c] == pc || Another(s, c, pc)
    {
      CallerMoves(s, c, s'.callers[c], pc);
      SameCallers(s.(callers := s'.callers), s', pc);
    }
  }

  /** Waiting records stay attended exactly when the step is not one that strands them. */
  lemma AttendedStep(s: State, a: Action)
    requires Attended(s) && Enabled(s, a)
    ensures Attended(Apply(s, a)) <==> !Strands(s, a)
  {
    var s' := Apply(s, a);
    match a
    case Push(c) => Moved(s, s', c);
    case Restart(c) => Moved(s, s', c);
    case Exchange(c) => Moved(s, s', c);
    case Submit(_) =>
    case SubmitRefused(c) => Moved(s, s', c);
    case ClearFlag(c) => Moved(s, s', c);
    case _ =>
      SameCallers(s, s', Pushed);
      SameCallers(s, s', MustSubmit);
  }

  /** An exchange strands records only in the window between a refusal and its flag store. */
  lemma ExchangeStrandsOnlyBehindRefusal(s: State, c: nat)
    requires FlagIsOwned(s) && At(s, c, Pushed) && Strands(s, Exchange(c))
    ensures SomeCaller(s, MustClear) && !FlagIsBacked(s)
  {
  }

  // ---------------------------------------------------------------- runs

  /** Actions that are not enabled do nothing. */
  ghost function RunFrom(s0: State, actions: seq<Action>): State
  {
    if actions == [] then s0
    else
      var s := RunFrom(s0, actions[..|actions| - 1]);
      var a := actions[|actions| - 1];
      if Enabled(s, a) then Apply(s, a) else s
  }

  ghost predicate NoneRefused(actions: seq<Action>)
  {
    forall i :: 0 <= i < |actions| ==> !actions[i].SubmitRefused?
  }

  lemma {:induction false} OwnedAlong(s0: State, actions: seq<Action>)
    requires FlagIsOwned(s0)
    ensures FlagIsOwned(RunFrom(s0, actions))
  {
    if actions != [] {
      var init, a := actions[..|actions| - 1], actions[|actions| - 1];
      OwnedAlong(s0, init);
      if Enabled(RunFrom(s0, init), a) {
        FlagIsOwnedStep(RunFrom(s0, init), a);
      }
    }
  }

  lemma {:induction false} AttendedAlong(s0: State, actions: seq<Action>)
    requires FlagIsBacked(s0) && Attended(s0) && NoneRefused(actions)
    ensures FlagIsBacked(RunFrom(s0, actions)) && Attended(RunFrom(s0, actions))
  {
    if actions != [] {
      var init, a := actions[..|actions| - 1], actions[|actions| - 1];
      AttendedAlong(s0, init);
      var s := RunFrom(s0, init);
      if Enabled(s, a) {
        FlagIsOwnedStep(s, a);
        AttendedStep(s, a);
      }
    }
  }

  /** No lost wake-up: over every interleaving without a refused submission, waiting records have
      a queued item, a worker before its final empty check, or a caller between push and submit. */
  lemma NoLostWakeup(callers: nat, stoppers: nat, actions: seq<Action>)
    ensures FlagIsOwned(RunFrom(Initial(callers, stoppers), actions))
    ensures NoneRefused(actions) ==> Attended(RunFrom(Initial(callers, stoppers), actions))
  {
    OwnedAlong(Initial(callers, stoppers), actions);
    if NoneRefused(actions) {
      AttendedAlong(Initial(callers, stoppers), actions);
    }
  }

  lemma RunSnoc(s0: State, actions: seq<Action>, s: State, a: Action, s': State)
    requires RunFrom(s0, actions) == s && Enabled(s, a) && Apply(s, a) == s'
    ensures RunFrom(s0, actions + [a]) == s'
  {
    assert (actions + [a])[..|actions|] == actions;
  }

  // ---------------------------------------------------------------- what a run has done

  /** The steps of the run that were taken. */
  ghost function Taken(s0: State, actions: seq<Action>): seq<Action>
  {
    if actions == [] then []
    else
      var init, a := actions[..|actions| - 1], actions[|actions| - 1];
      Taken(s0, init) + if Enabled(RunFrom(s0, init), a) then [a] else []
  }

  /** Records put into the rings less records taken out, by the processor or by a stop. */
  function Balance(steps: seq<Action>): int
  {
    if steps == [] then 0
    else
      var a := steps[|steps| - 1];
      Balance(steps[..|steps| - 1])
        + if a.Push? then 1 else if a.WorkerTakes? || a.StopTakes? then -1 else 0
  }

  predicate Lowers(a: Action)
  {
    a.Restart? || a.ClearFlag? || a.WorkerClears? || a.StopClears?
  }

  /** An exchange happened, and since the last one nobody stored the flag back. */
  predicate Raised(steps: seq<Action>)
  {
    if steps == [] then false
    else
      var a := steps[|steps| - 1];
      a.Exchange? || (!Lowers(a) && Raised(steps[..|steps| - 1]))
  }

  ghost predicate Tells(s: State, steps: seq<Action>)
  {
    s.ingress == Balance(steps) && s.flag == Raised(steps)
  }

  lemma TellsStep(s: State, steps: seq<Action>, a: Action)
    requires Tells(s, steps) && Enabled(s, a)
    ensures Tells(Apply(s, a), steps + [a])
  {
    assert (steps + [a])[..|steps|] == steps;
  }

  /** In every interleaving the rings hold what was pushed and not yet taken, and the flag is up exactly
      from an exchange to the next store of a drain, of a stop, of a start or of a refused caller. */
  lemma {:induction false} RunsTellRecordsAndFlag(callers: nat, stoppers: nat, actions: seq<Action>)
    ensures Tells(RunFrom(Initial(callers, stoppers), actions), Taken(Initial(callers, stoppers), actions))
  {
    if actions != [] {
      var s0, init, a := Initial(callers, stoppers), actions[..|actions| - 1], actions[|actions| - 1];
      RunsTellRecordsAndFlag(callers, stoppers, init);
      var s, steps := RunFrom(s0, init), Taken(s0, init);
      if Enabled(s, a) {
        TellsStep(s, steps, a);
      } else {
        assert steps + [] == steps;
      }
    }
  }

  /** One refused submission can strand a record. */
  lemma RefusedSubmissionStrands()
    ensures !Attended(RunFrom(Initial(1, 0), [Push(0), Exchange(0), SubmitRefused(0), ClearFlag(0)]))
  {
    var s0 := State(0, false, false, Off, [Away], []);
    assert Initial(1, 0) == s0;
    var s1 := s0.(ingress := 1, callers := [Pushed]);
    var s2 := s1.(flag := true, callers := [MustSubmit]);
    var s3 := s2.(callers := [MustClear]);
    var s4 := s1.(callers := [Away]);
    RunSnoc(s0, [], s0, Push(0), s1);
    RunSnoc(s0, [] + [Push(0)], s1, Exchange(0), s2);
    RunSnoc(s0, [] + [Push(0)] + [Exchange(0)], s2, SubmitRefused(0), s3);
    RunSnoc(s0, [] + [Push(0)] + [Exchange(0)] + [SubmitRefused(0)], s3, ClearFlag(0), s4);
    assert [] + [Push(0)] + [Exchange(0)] + [SubmitRefused(0)] + [ClearFlag(0)]
        == [Push(0), Exchange(0), SubmitRefused(0), ClearFlag(0)];
  }

  // ---------------------------------------------------------------- recovery

  /** After records were stranded, the next observation, up to and including its exchange, gets them
      attended again exactly when it finds the flag clear; a set flag is a refused caller's. */
  lemma NextObservationRecovers(s: State, c: nat)
    requires FlagIsOwned(s) && !Attended(s) && At(s, c, Away)
    ensures At(Apply(s, Push(c)), c, Pushed)
    ensures Attended(Apply(Apply(s, Push(c)), Exchange(c))) <==> !s.flag
    ensures s.flag ==> SomeCaller(s, MustClear)
  {
    var s1 := Apply(s, Push(c));
    var s2 := Apply(s1, Exchange(c));
    assert s2.callers == s.callers[c := s2.callers[c]];
    Moved(s, s2, c);
  }

  /** Once the flag promises a drain or is clear, one observation is enough: from then on, in every
      interleaving without another refusal, records are attended. */
  lemma RecoveryLasts(s: State, c: nat, actions: seq<Action>)
    requires FlagIsBacked(s) && At(s, c, Away) && NoneRefused(actions)
    ensures Attended(RunFrom(Apply(s, Push(c)), actions))
  {
    var s1 := Apply(s, Push(c));
    assert s1.callers[c] == Pushed;
    Moved(s, s1, c);
    AttendedAlong(s1, actions);
  }

  lemma WindowOpens()
    ensures RunFrom(Initial(2, 0), [Push(0), Exchange(0), SubmitRefused(0)])
         == State(1, true, false, Off, [MustClear, Away], [])
  {
    var s0 := State(0, false, false, Off, [Away, Away], []);
    assert Initial(2, 0) == s0;
    var s1 := s0.(ingress := 1, callers := [Pushed, Away]);
    var s2 := s1.(flag := true, callers := [MustSubmit, Away]);
    RunSnoc(s0, [], s0, Push(0), s1);
    RunSnoc(s0, [] + [Push(0)], s1, Exchange(0), s2);
    RunSnoc(s0, [] + [Push(0)] + [Exchange(0)], s2, SubmitRefused(0), s2.(callers := [MustClear, Away]));
    assert [] + [Push(0)] + [Exchange(0)] + [SubmitRefused(0)] == [Push(0), Exchange(0), SubmitRefused(0)];
  }

  /** An observation in the window before the flag is stored back is stranded with the record it finds. */
  lemma ObservationInTheWindowStrands()
    ensures var s := RunFrom(Initial(2, 0), [Push(0), Exchange(0), SubmitRefused(0), Push(1), Exchange(1), ClearFlag(0)]);
            s == State(2, false, false, Off, [Away, Away], []) && !Attended(s)
  {
    WindowOpens();
    var s0 := Initial(2, 0);
    var s3 := State(1, true, false, Off, [MustClear, Away], []);
    var s4 := s3.(ingress := 2, callers := [MustClear, Pushed]);
    var s5 := s4.(callers := [MustClear, Away]);
    var t3 := [Push(0), Exchange(0), SubmitRefused(0)];
    RunSnoc(s0, t3, s3, Push(1), s4);
    RunSnoc(s0, t3 + [Push(1)], s4, Exchange(1), s5);
    RunSnoc(s0, t3 + [Push(1)] + [Exchange(1)], s5, ClearFlag(0), s5.(flag := false, callers := [Away, Away]));
    assert t3 + [Push(1)] + [Exchange(1)] + [ClearFlag(0)]
        == [Push(0), Exchange(0), SubmitRefused(0), Push(1), Exchange(1), ClearFlag(0)];
  }

  // ---------------------------------------------------------------- progress

  /** Everything but a new observation, a restart or a new stop. */
  predicate Internal(a: Action)
  {
    !a.Push? && !a.Restart? && !a.StopBegins?
  }

  function CallerWork(callers: seq<Caller>): nat
  {
    if callers == [] then 0
    else (match callers[0] case Away => 0 case Pushed => 5 case MustSubmit => 4 case MustClear => 1) + CallerWork(callers[1..])
  }

  function StopperWork(stoppers: seq<Stopper>): nat
  {
    if stoppers == [] then 0
    else (match stoppers[0] case Absent => 0 case Beginning => 2 case Sweeping => 1) + StopperWork(stoppers[1..])
  }

  /** An upper bound on the internal steps that can still happen. */
  function Work(s: State): nat
  {
    s.ingress + (if s.queued then 3 else 0)
      + (match s.worker case Off => 0 case Entering => 2 case Draining => 1)
      + CallerWork(s.callers) + StopperWork(s.stoppers)
  }

  lemma {:induction false} CallerWorkUpdate(callers: seq<Caller>, c: nat, to: Caller)
    requires c < |callers|
    ensures CallerWork(callers[c := to]) - CallerWork(callers)
         == CallerWork([to]) - CallerWork([callers[c]])
  {
    if c == 0 {
      assert callers[0 := to][1..] == callers[1..];
    } else {
      CallerWorkUpdate(callers[1..], c - 1, to);
      assert callers[c := to][1..] == callers[1..][c - 1 := to];
    }
  }

  lemma {:induction false} StopperWorkUpdate(stoppers: seq<Stopper>, k: nat, to: Stopper)
    requires k < |stoppers|
    ensures StopperWork(stoppers[k := to]) - StopperWork(stoppers)
         == StopperWork([to]) - StopperWork([stoppers[k]])
  {
    if k == 0 {
      assert stoppers[0 := to][1..] == stoppers[1..];
    } else {
      StopperWorkUpdate(stoppers[1..], k - 1, to);
      assert stoppers[k := to][1..] == stoppers[1..][k - 1 := to];
    }
  }

  lemma WorkDecreases(s: State, a: Action)
    requires Internal(a) && Enabled(s, a)
    ensures Work(Apply(s, a)) < Work(s)
  {
    match a
    case Exchange(c) => CallerWorkUpdate(s.callers, c, if s.flag then Away else MustSubmit);
    case Submit(c) => CallerWorkUpdate(s.callers, c, Away);
    case SubmitRefused(c) => CallerWorkUpdate(s.callers, c, MustClear);
    case ClearFlag(c) => CallerWorkUpdate(s.callers, c, Away);
    case StopClears(k) => StopperWorkUpdate(s.stoppers, k, Sweeping);
    case StopEnds(k) => StopperWorkUpdate(s.stoppers, k, Absent);
    case _ =>
  }

  /** Internal steps of a run in which no submission is refused. */
  predicate Settles(a: Action)
  {
    Internal(a) && !a.SubmitRefused?
  }

  /** While attended records wait, some step settles. */
  lemma SomethingSettles(s: State)
    requires Attended(s) && s.ingress > 0
    ensures exists a :: Settles(a) && Enabled(s, a)
  {
    if SomeCaller(s, Pushed) {
      var c :| 0 <= c < |s.callers| && s.callers[c] == Pushed;
      assert Settles(Exchange(c)) && Enabled(s, Exchange(c));
    } else if SomeCaller(s, MustSubmit) {
      var c :| 0 <= c < |s.callers| && s.callers[c] == MustSubmit;
      assert Settles(Submit(c)) && Enabled(s, Submit(c));
    } else {
      assert Settles(Dispatch) && Settles(WorkerClears) && Settles(WorkerTakes);
      assert Enabled(s, Dispatch) || Enabled(s, WorkerClears) || Enabled(s, WorkerTakes);
    }
  }

  ghost predicate SettlingRun(s: State, actions: seq<Action>)
  {
    forall i :: 0 <= i < |actions| ==> Settles(actions[i]) && Enabled(RunFrom(s, actions[..i]), actions[i])
  }

  lemma {:induction false} SettlingBound(s: State, actions: seq<Action>)
    requires SettlingRun(s, actions)
    ensures |actions| + Work(RunFrom(s, actions)) <= Work(s)
  {
    if actions != [] {
      var init, a := actions[..|actions| - 1], actions[|actions| - 1];
      assert forall i :: 0 <= i < |init| ==> init[..i] == actions[..i] && init[i] == actions[i];
      SettlingBound(s, init);
      assert Enabled(RunFrom(s, init), a);
      WorkDecreases(RunFrom(s, init), a);
    }
  }

  /** When observations pause, every interleaving without a refused submission is finite, and where it
      cannot go on the rings are empty. */
  lemma RecordsAreDrained(s: State, actions: seq<Action>)
    requires FlagIsBacked(s) && Attended(s) && SettlingRun(s, actions)
    ensures |actions| <= Work(s)
    ensures var s' := RunFrom(s, actions);
            (forall a :: Settles(a) ==> !Enabled(s', a)) ==> s'.ingress == 0
  {
    SettlingBound(s, actions);
    AttendedAlong(s, actions);
    var s' := RunFrom(s, actions);
    if s'.ingress > 0 {
      SomethingSettles(s');
    }
  }
}
