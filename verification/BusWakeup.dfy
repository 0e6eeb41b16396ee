/** The wake-up of a coalesced or latest bus route (accept, drain_one and clear_pending in
    include/solar/bus/facility.hpp, emit_route in include/solar/bus/runtime.hpp).

    Setting the pending flag, submitting, clearing and draining are separate steps, in any interleaving
    of any number of emitters with the route's work item. A coalesced route submits only for the emitter
    that set the flag; a latest route submits for every emitter. Submitting a queued work item changes
    nothing and submitting a running one queues it again.
 */
module BusWakeup {
  import opened Sequences

  /** An emitter: outside, about to submit, or refused and about to clear. It remembers the batch that
      its signal went into. */
  datatype Emitter = Away | MustSubmit(batch: nat) | MustClear(batch: nat)

  /** The route's work item: not running, before its drain, or in the handler. */
  datatype Worker = Off | Entering | Handling

  /** `batch` numbers the times the flag was taken down; `waiting` counts the accepts since it went up. */
  datatype State = State(
    coalesces: bool,
    pending: bool,
    queued: bool,
    worker: Worker,
    emitters: seq<Emitter>,
    batch: nat,
    waiting: nat,
    accepted: nat,
    drained: nat,
    withdrawn: nat,
    lost: nat)

  datatype Action =
    | Accept(emitter: nat)
    | Submit(emitter: nat)
    | Refuse(emitter: nat)
    | Clear(emitter: nat)
    | Dispatch
    | Drain
    | Return

  function Initial(coalesces: bool, emitters: nat): State
  {
    State(coalesces, false, false, Off, seq(emitters, _ => Away), 0, 0, 0, 0, 0, 0)
  }

  predicate Enabled(s: State, a: Action)
  {
    match a
    case Accept(c) => c < |s.emitters| && s.emitters[c].Away?
    case Submit(c) => c < |s.emitters| && s.emitters[c].MustSubmit?
    case Refuse(c) => c < |s.emitters| && s.emitters[c].MustSubmit?
    case Clear(c) => c < |s.emitters| && s.emitters[c].MustClear?
    case Dispatch => s.queued && s.worker.Off?
    case Drain => s.worker.Entering?
    case Return => s.worker.Handling?
  }

  /** Whether the emitter's own signal is among those a clear would take down now. */
  predicate Mine(s: State, c: nat)
    requires c < |s.emitters| && !s.emitters[c].Away?
  {
    s.pending && s.emitters[c].batch == s.batch
  }

  /** What a clear takes down that the clearing emitter did not put up. */
  function Others(s: State, c: nat): int
    requires c < |s.emitters| && !s.emitters[c].Away?
  {
    s.waiting - if Mine(s, c) then 1 else 0
  }

  function Apply(s: State, a: Action): State
    requires Enabled(s, a)
  {
    match a
    case Accept(c) =>
      s.(pending := true, waiting := s.waiting + 1, accepted := s.accepted + 1,
         emitters := s.emitters[c := if s.pending && s.coalesces then Away else MustSubmit(s.batch)])
    case Submit(c) => s.(queued := true, emitters := s.emitters[c := Away])
    case Refuse(c) => s.(emitters := s.emitters[c := MustClear(s.emitters[c].batch)])
    case Clear(c) =>
      s.(pending := false, batch := if s.pending then s.batch + 1 else s.batch, waiting := 0,
         withdrawn := s.withdrawn + (if Mine(s, c) then 1 else 0),
         lost := s.lost + (if Others(s, c) > 0 then Others(s, c) else 0),
         emitters := s.emitters[c := Away])
    case Dispatch => s.(queued := false, worker := Entering)
    case Drain =>
      if !s.pending then s.(worker := Off)
      else s.(pending := false, batch := s.batch + 1, drained := s.drained + s.waiting, waiting := 0,
              worker := Handling)
    case Return => s.(worker := Off)
  }

  // ---------------------------------------------------------------- somebody will drain

  const SUBMITS: Emitter -> bool := (e: Emitter) => e.MustSubmit?
  const CLEARS: Emitter -> bool := (e: Emitter) => e.MustClear?

  /** A signal that is up has a queued item, a handler before its drain, or an emitter about to submit. */
  ghost predicate Attended(s: State)
  {
    s.pending ==> s.queued || s.worker.Entering? || Count(s.emitters, SUBMITS) > 0
  }

  /** Otherwise a refused emitter is about to take it down. */
  ghost predicate Owned(s: State)
  {
    Attended(s) || Count(s.emitters, CLEARS) > 0
  }

  /** The step that leaves a signal up with nobody to drain it: the refusal of the only emitter that was
      going to submit. */
  ghost predicate Strands(s: State, a: Action)
  {
    a.Refuse? && s.pending && !s.queued && !s.worker.Entering? && Count(s.emitters, SUBMITS) == 1
  }

  lemma Counts(s: State, a: Action)
    requires Enabled(s, a) && (a.Accept? || a.Submit? || a.Refuse? || a.Clear?)
    ensures var e, e' := s.emitters[a.emitter], Apply(s, a).emitters[a.emitter];
            && Count(Apply(s, a).emitters, SUBMITS)
                 == Count(s.emitters, SUBMITS) - (if e.MustSubmit? then 1 else 0) + (if e'.MustSubmit? then 1 else 0)
            && Count(Apply(s, a).emitters, CLEARS)
                 == Count(s.emitters, CLEARS) - (if e.MustClear? then 1 else 0) + (if e'.MustClear? then 1 else 0)
            && (e.MustSubmit? ==> Count(s.emitters, SUBMITS) > 0) && (e.MustClear? ==> Count(s.emitters, CLEARS) > 0)
  {
    CountUpdate(s.emitters, a.emitter, Apply(s, a).emitters[a.emitter], SUBMITS);
    CountUpdate(s.emitters, a.emitter, Apply(s, a).emitters[a.emitter], CLEARS);
  }

  /** A signal stays attended exactly when the step does not strand it. */
  lemma AttendedStep(s: State, a: Action)
    requires Attended(s) && Enabled(s, a)
    ensures Attended(Apply(s, a)) <==> !Strands(s, a)
  {
    if a.Accept? || a.Submit? || a.Refuse? || a.Clear? {
      Counts(s, a);
    }
  }

  lemma OwnedStep(s: State, a: Action)
    requires Owned(s) && Enabled(s, a)
    ensures Owned(Apply(s, a))
  {
    if a.Accept? || a.Submit? || a.Refuse? || a.Clear? {
      Counts(s, a);
    }
  }

  // ---------------------------------------------------------------- what becomes of the signals

  /** Every accepted signal was drained, withdrawn by its own emitter, lost to another's clear, or is up;
      signals are up exactly when the flag is, and an emitter's own is among them in its own batch. */
  ghost predicate Accounted(s: State)
  {
    && s.accepted == s.drained + s.withdrawn + s.lost + s.waiting
    && (s.pending <==> s.waiting > 0)
    && (forall c :: 0 <= c < |s.emitters| && !s.emitters[c].Away? ==> s.emitters[c].batch <= s.batch)
  }

  lemma AccountedStep(s: State, a: Action)
    requires Accounted(s) && Enabled(s, a)
    ensures Accounted(Apply(s, a))
  {
  }

  /** A clear loses exactly what others put up in the same batch; nothing else loses anything. */
  lemma LossIsExact(s: State, a: Action)
    requires Accounted(s) && Enabled(s, a)
    ensures Apply(s, a).lost == s.lost + if a.Clear? then Others(s, a.emitter) else 0
    ensures Apply(s, a).lost > s.lost <==>
              a.Clear? && s.pending && (s.emitters[a.emitter].batch != s.batch || s.waiting > 1)
  {
  }

  // ---------------------------------------------------------------- runs

  ghost function Run(s0: State, actions: seq<Action>): State
  {
    if actions == [] then s0
    else
      var s := Run(s0, actions[..|actions| - 1]);
      var a := actions[|actions| - 1];
      if Enabled(s, a) then Apply(s, a) else s
  }

  ghost predicate NoneRefused(actions: seq<Action>)
  {
    forall i :: 0 <= i < |actions| ==> !actions[i].Refuse?
  }

  /** Nobody is refused, so nobody clears and nothing is lost. */
  ghost predicate Undisturbed(s: State)
  {
    Attended(s) && Count(s.emitters, CLEARS) == 0 && s.lost == 0 && s.withdrawn == 0
  }

  lemma UndisturbedStep(s: State, a: Action)
    requires Undisturbed(s) && Enabled(s, a) && !a.Refuse?
    ensures Undisturbed(Apply(s, a))
  {
    AttendedStep(s, a);
    if a.Accept? || a.Submit? || a.Clear? {
      Counts(s, a);
    }
  }

  lemma {:induction false} Along(s0: State, actions: seq<Action>)
    requires Owned(s0) && Accounted(s0)
    ensures Owned(Run(s0, actions)) && Accounted(Run(s0, actions))
    ensures Undisturbed(s0) && NoneRefused(actions) ==> Undisturbed(Run(s0, actions))
  {
    if actions != [] {
      var init, a := actions[..|actions| - 1], actions[|actions| - 1];
      Along(s0, init);
      var s := Run(s0, init);
      if Enabled(s, a) {
        OwnedStep(s, a);
        AccountedStep(s, a);
        if Undisturbed(s) && !a.Refuse? {
          UndisturbedStep(s, a);
        }
      }
    }
  }

  /** In every interleaving a signal that is up is attended or about to be taken down by a refused emitter,
      and every accept is accounted for; without a refusal every signal is attended and none is lost. */
  lemma NoSignalForgotten(coalesces: bool, emitters: nat, actions: seq<Action>)
    ensures var s := Run(Initial(coalesces, emitters), actions);
            && Owned(s) && s.accepted == s.drained + s.withdrawn + s.lost + s.waiting
            && (NoneRefused(actions) ==> Attended(s) && s.accepted == s.drained + s.waiting)
  {
    var s0 := Initial(coalesces, emitters);
    CountNone(s0.emitters, SUBMITS);
    CountNone(s0.emitters, CLEARS);
    Along(s0, actions);
  }

  /** How often the handler was entered. */
  ghost function Deliveries(s0: State, actions: seq<Action>): nat
  {
    if actions == [] then 0
    else
      var init, a := actions[..|actions| - 1], actions[|actions| - 1];
      var s := Run(s0, init);
      Deliveries(s0, init) + if a.Drain? && Enabled(s, a) && Apply(s, a).worker.Handling? then 1 else 0
  }

  /** How often a refused emitter's clear found a signal up. */
  ghost function Withdrawals(s0: State, actions: seq<Action>): nat
  {
    if actions == [] then 0
    else
      var init, a := actions[..|actions| - 1], actions[|actions| - 1];
      var s := Run(s0, init);
      Withdrawals(s0, init) + if a.Clear? && Enabled(s, a) && s.pending then 1 else 0
  }

  lemma {:induction false} DeliveriesAlong(s0: State, actions: seq<Action>)
    requires Owned(s0) && Accounted(s0)
    ensures var s := Run(s0, actions);
            && s.batch == s0.batch + Deliveries(s0, actions) + Withdrawals(s0, actions)
            && s0.drained + Deliveries(s0, actions) <= s.drained
  {
    if actions != [] {
      var init := actions[..|actions| - 1];
      Along(s0, init);
      DeliveriesAlong(s0, init);
    }
  }

  /** In every interleaving the handler is entered once for each batch that no clear took down, and never
      without a signal: each delivery stands for at least one accept. */
  lemma EachDeliveryHasASignal(coalesces: bool, emitters: nat, actions: seq<Action>)
    ensures var s0 := Initial(coalesces, emitters);
            var s := Run(s0, actions);
            && s.batch == Deliveries(s0, actions) + Withdrawals(s0, actions)
            && Deliveries(s0, actions) <= s.drained <= s.accepted
  {
    var s0 := Initial(coalesces, emitters);
    CountNone(s0.emitters, SUBMITS);
    CountNone(s0.emitters, CLEARS);
    DeliveriesAlong(s0, actions);
    Along(s0, actions);
  }

  // ---------------------------------------------------------------- progress

  /** Steps that bring no new signal and refuse none. */
  predicate Settles(a: Action)
  {
    !a.Accept? && !a.Refuse?
  }

  ghost function Work(s: State): nat
  {
    (if s.queued then 3 else 0) + (match s.worker case Off => 0 case Entering => 2 case Handling => 1)
    + 4 * Count(s.emitters, SUBMITS) + Count(s.emitters, CLEARS)
  }

  lemma WorkDecreases(s: State, a: Action)
    requires Enabled(s, a) && Settles(a)
    ensures Work(Apply(s, a)) < Work(s)
  {
    if a.Submit? || a.Clear? {
      Counts(s, a);
    }
  }

  lemma SomethingSettles(s: State)
    requires Owned(s) && s.pending
    ensures exists a :: Settles(a) && Enabled(s, a)
  {
    if c :| 0 <= c < |s.emitters| && s.emitters[c].MustSubmit? {
      assert Enabled(s, Submit(c));
    } else if c :| 0 <= c < |s.emitters| && s.emitters[c].MustClear? {
      assert Enabled(s, Clear(c));
    } else {
      CountNone(s.emitters, SUBMITS);
      CountNone(s.emitters, CLEARS);
      assert Enabled(s, Dispatch) || Enabled(s, Drain) || Enabled(s, Return);
    }
  }

  ghost predicate SettlingRun(s: State, actions: seq<Action>)
  {
    forall i :: 0 <= i < |actions| ==> Settles(actions[i]) && Enabled(Run(s, actions[..i]), actions[i])
  }

  lemma SettlingPrefix(s: State, actions: seq<Action>, n: nat)
    requires SettlingRun(s, actions) && n <= |actions|
    ensures SettlingRun(s, actions[..n])
  {
    var init := actions[..n];
    forall i | 0 <= i < |init|
      ensures Settles(init[i]) && Enabled(Run(s, init[..i]), init[i])
    {
      assert init[..i] == actions[..i];
    }
  }

  lemma {:induction false} SettlingBound(s: State, actions: seq<Action>)
    requires SettlingRun(s, actions)
    ensures |actions| + Work(Run(s, actions)) <= Work(s) && Run(s, actions).accepted == s.accepted
  {
    if actions != [] {
      var init, a := actions[..|actions| - 1], actions[|actions| - 1];
      SettlingPrefix(s, actions, |actions| - 1);
      SettlingBound(s, init);
      assert Enabled(Run(s, init), a);
      WorkDecreases(Run(s, init), a);
    }
  }

  /** When emitting pauses, every interleaving without a refusal is finite, and where it cannot go on
      nothing is up: each accepted signal was drained, withdrawn or lost to a clear. */
  lemma SignalsAreDrained(s: State, actions: seq<Action>)
    requires Owned(s) && Accounted(s) && SettlingRun(s, actions)
    ensures |actions| <= Work(s)
    ensures var s' := Run(s, actions);
            (forall a :: Settles(a) ==> !Enabled(s', a)) ==>
              !s'.pending && s.accepted == s'.drained + s'.withdrawn + s'.lost
  {
    SettlingBound(s, actions);
    Along(s, actions);
    var s' := Run(s, actions);
    if s'.pending {
      SomethingSettles(s');
    }
  }

  // ---------------------------------------------------------------- how a signal gets lost

  ghost predicate Reaches(s0: State, s: State)
  {
    exists actions :: Run(s0, actions) == s
  }

  lemma ReachStep(s0: State, s: State, a: Action, s': State)
    requires Reaches(s0, s) && Enabled(s, a) && Apply(s, a) == s'
    ensures Reaches(s0, s')
  {
    var actions :| Run(s0, actions) == s;
    assert (actions + [a])[..|actions|] == actions;
    assert Run(s0, actions + [a]) == s';
  }

  /** A coalesced accept relies on the emitter that set the flag: its refusal cancels both signals. */
  lemma RefusalCancelsAnother()
    ensures exists s :: Reaches(Initial(true, 2), s) && s.accepted == 2 && s.lost == 1 && s.withdrawn == 1
                        && s.drained == 0 && !s.pending && s.emitters == [Away, Away]
  {
    var s0 := State(true, false, false, Off, [Away, Away], 0, 0, 0, 0, 0, 0);
    assert Initial(true, 2) == s0;
    assert Run(s0, []) == s0;
    var s1 := s0.(pending := true, waiting := 1, accepted := 1, emitters := [MustSubmit(0), Away]);
    ReachStep(s0, s0, Accept(0), s1);
    var s2 := s1.(waiting := 2, accepted := 2);
    ReachStep(s0, s1, Accept(1), s2);
    var s3 := s2.(emitters := [MustClear(0), Away]);
    ReachStep(s0, s2, Refuse(0), s3);
    var s4 := s3.(pending := false, batch := 1, waiting := 0, withdrawn := 1, lost := 1, emitters := [Away, Away]);
    ReachStep(s0, s3, Clear(0), s4);
  }

  /** A late clear takes down a signal whose own submission succeeded. */
  lemma LateClearCancelsSubmitted()
    ensures exists s :: Reaches(Initial(false, 2), s) && s.queued && s.accepted == 2 && s.lost == 1
                        && !s.pending && s.emitters == [Away, Away]
  {
    var s0 := State(false, false, false, Off, [Away, Away], 0, 0, 0, 0, 0, 0);
    assert Initial(false, 2) == s0;
    assert Run(s0, []) == s0;
    var s1 := s0.(pending := true, waiting := 1, accepted := 1, emitters := [MustSubmit(0), Away]);
    ReachStep(s0, s0, Accept(0), s1);
    var s2 := s1.(emitters := [MustClear(0), Away]);
    ReachStep(s0, s1, Refuse(0), s2);
    var s3 := s2.(waiting := 2, accepted := 2, emitters := [MustClear(0), MustSubmit(0)]);
    ReachStep(s0, s2, Accept(1), s3);
    var s4 := s3.(queued := true, emitters := [MustClear(0), Away]);
    ReachStep(s0, s3, Submit(1), s4);
    var s5 := s4.(pending := false, batch := 1, waiting := 0, withdrawn := 1, lost := 1, emitters := [Away, Away]);
    ReachStep(s0, s4, Clear(0), s5);
  }
}
