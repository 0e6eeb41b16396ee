/** Counted admission of an on-demand registration (submit_registration, RegistrationState::handle and
    continue_registration in include/solar/execution/runtime.hpp).

    Each load, each compare-and-swap, each native submission and each store is one step, in any
    interleaving of any number of submitters, the one handler and any number of cancellers. The work
    item follows the kernel: submitting while queued does nothing, submitting while running requeues.
 */
module Admission {
  import opened Sequences

  const WORD: nat := 0x1_0000_0000

  /** A submitter: outside, past its accepting check, holding a loaded count, or admitted and about
      to submit natively. */
  datatype Submitter = Outside | Entering | Loaded(seen: nat) | Admitted

  /** The handler: not running, entered, holding a loaded count, invoking the behaviour, or in one of
      the four steps of its continuation. */
  datatype Handler = Idle | Entered | Taking(seen: nat) | Invoking | ReadingPending | ReadingAccepting
                   | ReadingDraining | Resubmitting

  /** How far a stop has come: not requested, between its two stores, or done. */
  datatype Stop = Running | BetweenStores | Stopped

  datatype State = State(
    capacity: nat,
    drains: bool,
    pending: nat,
    accepting: bool,
    draining: bool,
    stop: Stop,
    queued: bool,
    handler: Handler,
    submitters: seq<Submitter>,
    cancellers: nat,
    admitted: nat,
    started: nat,
    withdrawn: nat)

  datatype Action =
    | Enter(submitter: nat)
    | LoadCount(submitter: nat)
    | SwapUp(submitter: nat, spurious: bool)
    | SubmitNative(submitter: nat)
    | SubmitFails(submitter: nat)
    | StartHandler
    | LoadForTake
    | SwapDown(spurious: bool)
    | FinishInvocation
    | ReadPending
    | ReadAccepting
    | ReadDraining
    | Resubmit(ok: bool)
    | StoreAccepting
    | StoreDraining
    | CancelWork
    | ResetPending

  function Initial(capacity: nat, drains: bool, submitters: nat): State
  {
    State(capacity, drains, 0, true, false, Running, false, Idle, seq(submitters, _ => Outside), 0, 0, 0, 0)
  }

  predicate Enabled(s: State, a: Action)
  {
    match a
    case Enter(i) => i < |s.submitters| && s.submitters[i].Outside?
    case LoadCount(i) => i < |s.submitters| && s.submitters[i].Entering?
    case SwapUp(i, _) => i < |s.submitters| && s.submitters[i].Loaded?
    case SubmitNative(i) => i < |s.submitters| && s.submitters[i].Admitted?
    case SubmitFails(i) => i < |s.submitters| && s.submitters[i].Admitted?
    case StartHandler => s.queued && s.handler.Idle?
    case LoadForTake => s.handler.Entered?
    case SwapDown(_) => s.handler.Taking?
    case FinishInvocation => s.handler.Invoking?
    case ReadPending => s.handler.ReadingPending?
    case ReadAccepting => s.handler.ReadingAccepting?
    case ReadDraining => s.handler.ReadingDraining?
    case Resubmit(_) => s.handler.Resubmitting?
    case StoreAccepting => s.stop.Running?
    case StoreDraining => s.stop.BetweenStores?
    case CancelWork => true
    case ResetPending => s.cancellers > 0
  }

  /** The submitter looks at a count it loaded: rejected at capacity, else ready to swap. */
  function Judge(s: State): Submitter
  {
    if s.pending >= s.capacity then Outside else Loaded(s.pending)
  }

  /** The handler looks at a count it loaded: nothing pending ends it. */
  function JudgeTake(s: State): Handler
  {
    if s.pending == 0 then Idle else Taking(s.pending)
  }

  function Apply(s: State, a: Action): (s': State)
    requires Enabled(s, a)
    ensures s'.capacity == s.capacity && s'.drains == s.drains && |s'.submitters| == |s.submitters|
  {
    match a
    case Enter(i) => if s.accepting then s.(submitters := s.submitters[i := Entering]) else s
    case LoadCount(i) => s.(submitters := s.submitters[i := Judge(s)])
    case SwapUp(i, spurious) =>
      if s.pending == s.submitters[i].seen && !spurious
      then s.(pending := s.pending + 1, admitted := s.admitted + 1, submitters := s.submitters[i := Admitted])
      else s.(submitters := s.submitters[i := Judge(s)])
    case SubmitNative(i) => s.(queued := true, submitters := s.submitters[i := Outside])
    case SubmitFails(i) =>
      // an unsigned 32-bit fetch_sub
      s.(pending := (s.pending + WORD - 1) % WORD, withdrawn := s.withdrawn + 1,
         submitters := s.submitters[i := Outside])
    case StartHandler => s.(queued := false, handler := Entered)
    case LoadForTake => s.(handler := JudgeTake(s))
    case SwapDown(spurious) =>
      if s.pending == s.handler.seen && s.pending > 0 && !spurious
      then s.(pending := s.pending - 1, started := s.started + 1, handler := Invoking)
      else s.(handler := JudgeTake(s))
    case FinishInvocation => s.(handler := ReadingPending)
    case ReadPending => s.(handler := if s.pending != 0 then ReadingAccepting else Idle)
    case ReadAccepting => s.(handler := if s.accepting then Resubmitting else ReadingDraining)
    case ReadDraining => s.(handler := if s.draining then Resubmitting else Idle)
    case Resubmit(ok) => s.(queued := s.queued || ok, handler := Idle)
    case StoreAccepting => s.(accepting := false, stop := BetweenStores)
    case StoreDraining => s.(draining := s.drains, stop := Stopped)
    case CancelWork => s.(queued := false, cancellers := s.cancellers + 1)
    case ResetPending => s.(withdrawn := s.withdrawn + s.pending, pending := 0, cancellers := s.cancellers - 1)
  }

  // ---------------------------------------------------------------- safety and liveness

  const ADMITTED: Submitter -> bool := (p: Submitter) => p.Admitted?

  /** The count never exceeds the capacity, loaded counts leave room, and every admission was started,
      is pending, or was withdrawn by a cancel or a refused submission. */
  ghost predicate Bounded(s: State)
  {
    && s.pending <= s.capacity < WORD
    && (forall i :: 0 <= i < |s.submitters| && s.submitters[i].Loaded? ==> s.submitters[i].seen < s.capacity)
    && s.admitted == s.started + s.pending + s.withdrawn
  }

  ghost predicate StopConsistent(s: State)
  {
    && (s.accepting <==> s.stop.Running?)
    && (s.draining <==> s.stop.Stopped? && s.drains)
    && (s.handler.ReadingDraining? ==> !s.accepting)
  }

  /** The registration still has to run what it admitted: it accepts, or its stop drains. */
  ghost predicate Owes(s: State)
  {
    s.stop.Running? || s.drains
  }

  /** The count is looked after even without the handler that is now running: beyond the submitters
      that still have to submit natively, nothing is pending that is not queued or being cancelled. */
  ghost predicate Covered(s: State)
  {
    s.queued || s.cancellers > 0 || s.pending <= Count(s.submitters, ADMITTED)
  }

  ghost predicate Live(s: State)
  {
    Owes(s) && s.handler.Idle? ==> Covered(s)
  }

  ghost predicate Holds(s: State)
  {
    Bounded(s) && StopConsistent(s) && Live(s)
  }

  /** The three steps that can break the guarantee: rolling back an admission that the handler already
      took, a failing resubmission, and reading the draining flag between the two stores of a stop. */
  ghost predicate Sound(s: State, a: Action)
  {
    match a
    case SubmitFails(_) => s.pending > 0
    case Resubmit(ok) => ok || !Owes(s) || Covered(s)
    case ReadDraining => s.stop.BetweenStores? && s.drains ==> Covered(s)
    case _ => true
  }

  predicate BySubmitter(a: Action)
  {
    a.Enter? || a.LoadCount? || a.SwapUp? || a.SubmitNative? || a.SubmitFails?
  }

  predicate ByHandler(a: Action)
  {
    a.LoadForTake? || a.SwapDown? || a.FinishInvocation? || a.ReadPending? || a.ReadAccepting?
    || a.ReadDraining? || a.Resubmit?
  }

  lemma SubmitterStep(s: State, a: Action)
    requires Holds(s) && Enabled(s, a) && BySubmitter(a)
    ensures Holds(Apply(s, a)) <==> Sound(s, a)
  {
    CountUpdate(s.submitters, a.submitter, Apply(s, a).submitters[a.submitter], ADMITTED);
    var s' := Apply(s, a);
    if a.Enter? && !s.accepting {
    } else {
      assert s'.submitters == s.submitters[a.submitter := s'.submitters[a.submitter]];
    }
  }

  lemma HandlerStep(s: State, a: Action)
    requires Holds(s) && Enabled(s, a) && ByHandler(a)
    ensures Holds(Apply(s, a)) <==> Sound(s, a)
  {
  }

  lemma ControlStep(s: State, a: Action)
    requires Holds(s) && Enabled(s, a) && !BySubmitter(a) && !ByHandler(a)
    ensures Holds(Apply(s, a)) && Sound(s, a)
  {
  }

  /** The guarantee survives a step exactly when the step is sound. */
  lemma HoldsStep(s: State, a: Action)
    requires Holds(s) && Enabled(s, a)
    ensures Holds(Apply(s, a)) <==> Sound(s, a)
  {
    if BySubmitter(a) {
      SubmitterStep(s, a);
    } else if ByHandler(a) {
      HandlerStep(s, a);
    } else {
      ControlStep(s, a);
    }
  }

  // ---------------------------------------------------------------- runs

  ghost function Run(s0: State, actions: seq<Action>): (s: State)
    ensures s.capacity == s0.capacity
  {
    if actions == [] then s0
    else
      var s := Run(s0, actions[..|actions| - 1]);
      var a := actions[|actions| - 1];
      if Enabled(s, a) then Apply(s, a) else s
  }

  ghost predicate SoundRun(s0: State, actions: seq<Action>)
  {
    forall i :: 0 <= i < |actions| ==> Sound(Run(s0, actions[..i]), actions[i])
  }

  lemma HoldsFrom(s0: State, init: seq<Action>, a: Action, s: State)
    requires s == Run(s0, init) && Holds(s) && Sound(s, a)
    ensures Holds(Run(s0, init + [a]))
  {
    assert (init + [a])[..|init|] == init;
    if Enabled(s, a) {
      HoldsStep(s, a);
    }
  }

  lemma SoundPrefix(s0: State, actions: seq<Action>, n: nat)
    requires SoundRun(s0, actions) && n <= |actions|
    ensures SoundRun(s0, actions[..n])
  {
    var init := actions[..n];
    forall i | 0 <= i < |init|
      ensures Sound(Run(s0, init[..i]), init[i])
    {
      assert init[..i] == actions[..i];
    }
  }

  lemma {:induction false} HoldsAlong(s0: State, actions: seq<Action>)
    requires Holds(s0) && SoundRun(s0, actions)
    ensures Holds(Run(s0, actions))
  {
    if actions != [] {
      var init, a := actions[..|actions| - 1], actions[|actions| - 1];
      SoundPrefix(s0, actions, |actions| - 1);
      HoldsAlong(s0, init);
      HoldsFrom(s0, init, a, Run(s0, init));
      assert init + [a] == actions;
    }
  }

  lemma SomebodyLooks(s: State)
    requires Holds(s) && s.pending > 0 && (s.accepting || s.draining)
    ensures s.queued || !s.handler.Idle? || s.cancellers > 0
            || exists i :: 0 <= i < |s.submitters| && s.submitters[i].Admitted?
  {
    if forall i :: 0 <= i < |s.submitters| ==> !s.submitters[i].Admitted? {
      CountNone(s.submitters, ADMITTED);
    }
  }

  /** Assumptions on the actions alone: no submission is refused, and the two stores of a stop are one
      step, which nothing comes between. */
  ghost predicate Disciplined(actions: seq<Action>)
  {
    forall i :: 0 <= i < |actions| ==>
      && !actions[i].SubmitFails?
      && (actions[i].Resubmit? ==> actions[i].ok)
      && (actions[i].StoreAccepting? && i + 1 < |actions| ==> actions[i + 1].StoreDraining?)
  }

  /** A disciplined run is between the two stores only right after the first. */
  lemma {:induction false} BetweenStoresIsBrief(s0: State, actions: seq<Action>, n: nat)
    requires s0.stop.Running? && Disciplined(actions) && n <= |actions|
    requires Run(s0, actions[..n]).stop.BetweenStores?
    ensures n > 0 && actions[n - 1].StoreAccepting?
  {
    assert n > 0;
    assert actions[..n] == actions[..n - 1] + [actions[n - 1]];
    StopMoves(s0, actions[..n - 1], Run(s0, actions[..n - 1]), actions[n - 1]);
    if Run(s0, actions[..n - 1]).stop.BetweenStores? {
      BetweenStoresIsBrief(s0, actions, n - 1);
    }
  }

  /** A run comes between the two stores by the first of them, and stays there until the second. */
  lemma StopMoves(s0: State, init: seq<Action>, s: State, a: Action)
    requires s == Run(s0, init) && Run(s0, init + [a]).stop.BetweenStores?
    ensures if s.stop.BetweenStores? then !a.StoreDraining? else a.StoreAccepting?
  {
    assert (init + [a])[..|init|] == init;
  }

  lemma DisciplinedIsSound(s0: State, actions: seq<Action>)
    requires s0.stop.Running? && Disciplined(actions)
    ensures SoundRun(s0, actions)
  {
    forall i | 0 <= i < |actions|
      ensures Sound(Run(s0, actions[..i]), actions[i])
    {
      if Run(s0, actions[..i]).stop.BetweenStores? {
        BetweenStoresIsBrief(s0, actions, i);
        assert !actions[i].ReadDraining?;
      }
    }
  }

  /** In every interleaving the count stays within capacity, no admission is lost or run twice, and
      whatever is pending is queued, being handled, being cancelled, or about to be submitted. */
  lemma AdmissionHolds(capacity: nat, drains: bool, submitters: nat, actions: seq<Action>)
    requires capacity < WORD && Disciplined(actions)
    ensures var s := Run(Initial(capacity, drains, submitters), actions);
            && Holds(s)
            && s.pending <= capacity
            && s.admitted == s.started + s.pending + s.withdrawn
            && (s.pending > 0 && (s.accepting || s.draining) ==>
                  s.queued || !s.handler.Idle? || s.cancellers > 0
                  || exists i :: 0 <= i < |s.submitters| && s.submitters[i].Admitted?)
  {
    var s0 := Initial(capacity, drains, submitters);
    CountNone(s0.submitters, ADMITTED);
    DisciplinedIsSound(s0, actions);
    HoldsAlong(s0, actions);
    var s := Run(s0, actions);
    if s.pending > 0 && (s.accepting || s.draining) {
      SomebodyLooks(s);
    }
  }

  // ---------------------------------------------------------------- opening and closing

  const PAST_CHECK: Submitter -> bool := (p: Submitter) => p.Entering? || p.Loaded?

  /** Once a registration has stopped accepting, it never accepts again, who is outside stays outside, and
      each admission uses up a submitter that was past the check. */
  lemma ClosedStep(s: State, a: Action)
    requires !s.accepting && Enabled(s, a)
    ensures var s' := Apply(s, a);
      && !s'.accepting && |s'.submitters| == |s.submitters|
      && (forall i :: 0 <= i < |s.submitters| && s.submitters[i].Outside? ==> s'.submitters[i].Outside?)
      && s'.admitted + Count(s'.submitters, PAST_CHECK) <= s.admitted + Count(s.submitters, PAST_CHECK)
  {
    if BySubmitter(a) && !a.Enter? {
      CountUpdate(s.submitters, a.submitter, Apply(s, a).submitters[a.submitter], PAST_CHECK);
    }
  }

  /** A stop closes admission: in every run from then on at most the submitters that were past the accepting
      check are still admitted. */
  lemma {:induction false} StopClosesAdmission(s: State, actions: seq<Action>)
    requires !s.accepting
    ensures var s' := Run(s, actions);
      && !s'.accepting && |s'.submitters| == |s.submitters|
      && (forall i :: 0 <= i < |s.submitters| && s.submitters[i].Outside? ==> s'.submitters[i].Outside?)
      && s'.admitted + Count(s'.submitters, PAST_CHECK) <= s.admitted + Count(s.submitters, PAST_CHECK)
  {
    if actions != [] {
      var init, a := actions[..|actions| - 1], actions[|actions| - 1];
      StopClosesAdmission(s, init);
      if Enabled(Run(s, init), a) {
        ClosedStep(Run(s, init), a);
      }
    }
  }

  lemma RunOne(s: State, actions: seq<Action>, t: State, a: Action)
    requires Run(s, actions) == t
    ensures Run(s, actions + [a]) == if Enabled(t, a) then Apply(t, a) else t
  {
    assert (actions + [a])[..|actions|] == actions;
  }

  /** A submitter on its own is admitted if and only if the registration accepts and has room; otherwise
      nothing changes. */
  lemma LoneSubmitter(s: State, i: nat)
    requires i < |s.submitters| && s.submitters[i].Outside?
    ensures var s' := Run(s, [Enter(i)] + [LoadCount(i)] + [SwapUp(i, false)]);
      s' == if s.accepting && s.pending < s.capacity
            then s.(pending := s.pending + 1, admitted := s.admitted + 1, submitters := s.submitters[i := Admitted])
            else s
  {
    assert Run(s, []) == s && [] + [Enter(i)] == [Enter(i)];
    RunOne(s, [], s, Enter(i));
    var s1 := Run(s, [Enter(i)]);
    RunOne(s, [Enter(i)], s1, LoadCount(i));
    var s2 := Run(s, [Enter(i)] + [LoadCount(i)]);
    RunOne(s, [Enter(i)] + [LoadCount(i)], s2, SwapUp(i, false));
    LoneSteps(s, i, s1, s2);
  }

  lemma LoneSteps(s: State, i: nat, s1: State, s2: State)
    requires i < |s.submitters| && s.submitters[i].Outside?
    requires s1 == Apply(s, Enter(i))
    requires s2 == if Enabled(s1, LoadCount(i)) then Apply(s1, LoadCount(i)) else s1
    ensures (if Enabled(s2, SwapUp(i, false)) then Apply(s2, SwapUp(i, false)) else s2)
         == if s.accepting && s.pending < s.capacity
            then s.(pending := s.pending + 1, admitted := s.admitted + 1, submitters := s.submitters[i := Admitted])
            else s
  {
    if s.accepting {
      assert s1.submitters == s.submitters[i := Entering];
      assert s2.submitters == s.submitters[i := s2.submitters[i]];
      if s.pending < s.capacity {
        assert s2.submitters[i := Admitted] == s.submitters[i := Admitted];
      } else {
        assert s2.submitters == s.submitters;
      }
    }
  }

  /** A cancel with nobody in between leaves nothing queued and nothing pending; what was pending counts as
      withdrawn. */
  lemma CancelEmpties(s: State)
    ensures Enabled(Apply(s, CancelWork), ResetPending)
    ensures var s' := Apply(Apply(s, CancelWork), ResetPending);
      s' == s.(queued := false, pending := 0, withdrawn := s.withdrawn + s.pending)
  {
  }

  // ---------------------------------------------------------------- progress

  /** Steps that only carry admitted work forward: no new submission, no failure, no stop, no cancel,
      no spurious failure of a swap. */
  predicate Settles(a: Action)
  {
    a.SubmitNative? || a.StartHandler? || a.LoadForTake? || (a.SwapDown? && !a.spurious)
    || a.FinishInvocation? || a.ReadPending? || a.ReadAccepting? || a.ReadDraining?
    || (a.Resubmit? && a.ok)
  }

  /** How far the handler is from its end, counting a queued run as work still to do. */
  ghost function Distance(s: State): nat
  {
    (if s.queued then 4 else 0)
    + match s.handler
      case Idle => 0
      case Entered => 3
      case Taking(seen) => if seen == s.pending then 1 else 2
      case Invoking => 9
      case ReadingPending => 8
      case ReadingAccepting => 7
      case ReadingDraining => 6
      case Resubmitting => 5
  }

  ghost function Work(s: State): nat
  {
    9 * s.pending + 5 * Count(s.submitters, ADMITTED) + Distance(s)
  }

  lemma SettlingDecreases(s: State, a: Action)
    requires Holds(s) && Enabled(s, a) && Settles(a)
    ensures Work(Apply(s, a)) < Work(s)
  {
    if a.SubmitNative? {
      CountUpdate(s.submitters, a.submitter, Outside, ADMITTED);
    }
  }

  /** A registration that owes work and has no settling step left has nothing pending: everything it
      admitted was started or withdrawn. */
  lemma SettledIsEmpty(s: State)
    requires Holds(s) && Owes(s) && s.cancellers == 0
    requires forall a :: Enabled(s, a) ==> !Settles(a)
    ensures s.pending == 0 && s.admitted == s.started + s.withdrawn
  {
    assert Settles(StartHandler) && Settles(LoadForTake) && Settles(SwapDown(false))
           && Settles(FinishInvocation) && Settles(ReadPending) && Settles(ReadAccepting)
           && Settles(ReadDraining) && Settles(Resubmit(true));
    assert s.handler.Idle? && !s.queued;
    if i :| 0 <= i < |s.submitters| && s.submitters[i].Admitted? {
      assert Enabled(s, SubmitNative(i));
    } else {
      CountNone(s.submitters, ADMITTED);
    }
  }

  ghost predicate SettlingRun(s: State, actions: seq<Action>)
  {
    forall i :: 0 <= i < |actions| ==> Settles(actions[i]) && Enabled(Run(s, actions[..i]), actions[i])
  }

  lemma SettlingStep(s: State, a: Action)
    requires Holds(s) && !s.stop.BetweenStores? && Enabled(s, a) && Settles(a)
    ensures var s' := Apply(s, a);
            && Holds(s') && Work(s') < Work(s) && s'.stop == s.stop
            && s'.admitted == s.admitted && s'.withdrawn == s.withdrawn && s'.cancellers == s.cancellers
  {
    HoldsStep(s, a);
    SettlingDecreases(s, a);
  }

  lemma {:induction false} SettlingAlong(s: State, actions: seq<Action>)
    requires Holds(s) && !s.stop.BetweenStores? && SettlingRun(s, actions)
    ensures var s' := Run(s, actions);
            && Holds(s') && |actions| + Work(s') <= Work(s) && s'.stop == s.stop && s'.drains == s.drains
            && s'.admitted == s.admitted && s'.withdrawn == s.withdrawn && s'.cancellers == s.cancellers
  {
    if actions != [] {
      var init, a := actions[..|actions| - 1], actions[|actions| - 1];
      assert forall i :: 0 <= i < |init| ==> init[..i] == actions[..i] && init[i] == actions[i];
      SettlingAlong(s, init);
      assert Enabled(Run(s, init), a);
      SettlingStep(Run(s, init), a);
    }
  }

  /** Every settling run is bounded by the work at its start, and one that cannot go on has started
      everything that was admitted and not withdrawn. */
  lemma AdmittedWorkIsStarted(s: State, actions: seq<Action>)
    requires Holds(s) && Owes(s) && !s.stop.BetweenStores? && s.cancellers == 0 && SettlingRun(s, actions)
    ensures |actions| <= Work(s)
    ensures var s' := Run(s, actions);
            (forall a :: Enabled(s', a) ==> !Settles(a)) ==>
              s'.pending == 0 && s'.started == s.admitted - s.withdrawn
  {
    SettlingAlong(s, actions);
    var s' := Run(s, actions);
    if forall a :: Enabled(s', a) ==> !Settles(a) {
      SettledIsEmpty(s');
    }
  }

  // ---------------------------------------------------------------- runs that break the guarantee

  ghost predicate Reaches(s0: State, s: State)
  {
    exists actions :: Run(s0, actions) == s
  }

  lemma ReachStep(s0: State, s: State, a: Action, s': State)
    requires Reaches(s0, s) && Enabled(s, a) && Apply(s, a) == s'
    ensures Reaches(s0, s')
  {
    var actions :| Run(s0, actions) == s;
    assert (actions + [a])[..|actions|] == actions;
    assert Run(s0, actions + [a]) == s';
  }

  lemma AdmitOne(s0: State, s: State, i: nat, s': State)
    requires Reaches(s0, s) && i < |s.submitters| && s.submitters[i].Outside?
    requires s.accepting && s.pending < s.capacity
    requires s' == s.(pending := s.pending + 1, admitted := s.admitted + 1, submitters := s.submitters[i := Admitted])
    ensures Reaches(s0, s')
  {
    var s1 := s.(submitters := s.submitters[i := Entering]);
    ReachStep(s0, s, Enter(i), s1);
    var s2 := s.(submitters := s.submitters[i := Loaded(s.pending)]);
    assert s1.submitters[i := Loaded(s.pending)] == s2.submitters;
    ReachStep(s0, s1, LoadCount(i), s2);
    assert s2.submitters[i := Admitted] == s'.submitters;
    ReachStep(s0, s2, SwapUp(i, false), s');
  }

  lemma HandleOne(s0: State, s: State, s': State)
    requires Reaches(s0, s) && s.queued && s.handler.Idle? && s.pending > 0
    requires s' == s.(queued := false, pending := s.pending - 1, started := s.started + 1, handler := ReadingPending)
    ensures Reaches(s0, s')
  {
    var s1 := s.(queued := false, handler := Entered);
    ReachStep(s0, s, StartHandler, s1);
    var s2 := s1.(handler := Taking(s.pending));
    ReachStep(s0, s1, LoadForTake, s2);
    var s3 := s'.(handler := Invoking);
    ReachStep(s0, s2, SwapDown(false), s3);
    ReachStep(s0, s3, FinishInvocation, s');
  }

  lemma ContinueOnce(s0: State, s: State, s': State)
    requires Reaches(s0, s) && s.handler.ReadingPending? && s.pending > 0 && s.accepting
    requires s' == s.(handler := Idle, queued := true)
    ensures Reaches(s0, s')
  {
    var s1 := s.(handler := ReadingAccepting);
    ReachStep(s0, s, ReadPending, s1);
    var s2 := s.(handler := Resubmitting);
    ReachStep(s0, s1, ReadAccepting, s2);
    ReachStep(s0, s2, Resubmit(true), s');
  }

  lemma ReadFlagsInTheGap(s0: State, s: State, s': State)
    requires Reaches(s0, s) && s.handler.ReadingPending? && s.pending > 0 && s.drains
    requires s.stop.Running? && !s.draining
    requires s' == s.(accepting := false, draining := true, stop := Stopped, handler := Idle)
    ensures Reaches(s0, s')
  {
    var s1 := s.(handler := ReadingAccepting);
    ReachStep(s0, s, ReadPending, s1);
    var s2 := s1.(accepting := false, stop := BetweenStores);
    ReachStep(s0, s1, StoreAccepting, s2);
    var s3 := s2.(handler := ReadingDraining);
    ReachStep(s0, s2, ReadAccepting, s3);
    ReachStep(s0, s3, ReadDraining, s2.(handler := Idle));
    ReachStep(s0, s2.(handler := Idle), StoreDraining, s');
  }

  /** Two admissions, the first of them submitted natively. */
  lemma TwoAdmitted(s0: State, s: State, drains: bool)
    requires s0 == Initial(2, drains, 2)
    requires s == State(2, drains, 2, true, false, Running, true, Idle, [Outside, Admitted], 0, 2, 0, 0)
    ensures Reaches(s0, s)
  {
    assert Run(s0, []) == s0;
    var s1 := s0.(pending := 1, admitted := 1, submitters := [Admitted, Outside]);
    AdmitOne(s0, s0, 0, s1);
    var s2 := s1.(queued := true, submitters := [Outside, Outside]);
    ReachStep(s0, s1, SubmitNative(0), s2);
    AdmitOne(s0, s2, 1, s);
  }

  /** The handler may take an admission before its submitter submits; if that submission then fails, its
      rollback wraps the count around. */
  lemma RollbackCanUnderflow()
    ensures exists s :: Reaches(Initial(2, false, 2), s) && s.pending == WORD - 1 && s.capacity == 2
  {
    var s0 := Initial(2, false, 2);
    var s := State(2, false, 2, true, false, Running, true, Idle, [Outside, Admitted], 0, 2, 0, 0);
    TwoAdmitted(s0, s, false);
    var s1 := s.(queued := false, pending := 1, started := 1, handler := ReadingPending);
    HandleOne(s0, s, s1);
    var s2 := s1.(handler := Idle, queued := true);
    ContinueOnce(s0, s1, s2);
    var s3 := s1.(pending := 0, started := 2);
    HandleOne(s0, s2, s3);
    var s4 := s3.(pending := WORD - 1, withdrawn := 1, submitters := [Outside, Outside]);
    ReachStep(s0, s3, SubmitFails(1), s4);
  }

  /** A handler that reads both flags between the two stores of a draining stop leaves work behind. */
  lemma DrainCanStrand()
    ensures exists s :: Reaches(Initial(2, true, 2), s) && s.draining && s.pending == 1 && !s.queued
                        && s.handler.Idle? && s.submitters == [Outside, Outside] && s.cancellers == 0
  {
    var s0 := Initial(2, true, 2);
    var s := State(2, true, 2, true, false, Running, true, Idle, [Outside, Admitted], 0, 2, 0, 0);
    TwoAdmitted(s0, s, true);
    var s1 := s.(submitters := [Outside, Outside]);
    ReachStep(s0, s, SubmitNative(1), s1);
    var s2 := s1.(queued := false, pending := 1, started := 1, handler := ReadingPending);
    HandleOne(s0, s1, s2);
    ReadFlagsInTheGap(s0, s2, s2.(accepting := false, draining := true, stop := Stopped, handler := Idle));
  }

  /** A resubmission that fails leaves admitted work behind: its result is ignored. */
  lemma ResubmitFailureStrands()
    ensures exists s :: Reaches(Initial(2, false, 2), s) && s.pending == 1 && !s.queued && s.accepting
                        && s.handler.Idle? && s.submitters == [Outside, Outside] && s.cancellers == 0
  {
    var s0 := Initial(2, false, 2);
    var s := State(2, false, 2, true, false, Running, true, Idle, [Outside, Admitted], 0, 2, 0, 0);
    TwoAdmitted(s0, s, false);
    var s1 := s.(submitters := [Outside, Outside]);
    ReachStep(s0, s, SubmitNative(1), s1);
    var s2 := s1.(queued := false, pending := 1, started := 1, handler := ReadingPending);
    HandleOne(s0, s1, s2);
    var s3 := s2.(handler := ReadingAccepting);
    ReachStep(s0, s2, ReadPending, s3);
    var s4 := s2.(handler := Resubmitting);
    ReachStep(s0, s3, ReadAccepting, s4);
    ReachStep(s0, s4, Resubmit(false), s2.(handler := Idle));
  }
}
