/** Aggregation of health evidence (worse, expired, recompute_subject_locked and recompute_system_locked in
    include/solar/health/facility.hpp). Ticks are unbounded integers; errors are opaque numbers, and
    the detail word of an assessment is kept with the evidence, since aggregation ignores it.
 */
module HealthAggregation {
  import opened Basics

  datatype Condition = Unknown | Nominal | Degraded | Faulted
  datatype Liveness = LivenessUnknown | Live | Late | Stalled | Exited
  datatype Readiness = ReadinessUnknown | Ready | NotReady
  datatype Safety = SafetyUnknown | Acceptable | AtRisk | Unsafe
  datatype Freshness = FreshnessUnknown | Current | Stale

  datatype Assessment = Assessment(
    condition: Condition,
    liveness: Liveness,
    readiness: Readiness,
    safety: Safety,
    freshness: Freshness,
    lastError: Option<int>,
    recovering: bool)

  datatype Evidence = Evidence(
    assessment: Assessment,
    available: bool,
    observedAt: int,
    staleAfter: int,
    required: bool,
    present: bool,
    detail: nat)

  // ---------------------------------------------------------------- the enumerations' order

  function ConditionRank(c: Condition): nat
  {
    match c case Unknown => 0 case Nominal => 1 case Degraded => 2 case Faulted => 3
  }

  function LivenessRank(l: Liveness): nat
  {
    match l case LivenessUnknown => 0 case Live => 1 case Late => 2 case Stalled => 3 case Exited => 4
  }

  function ReadinessRank(r: Readiness): nat
  {
    match r case ReadinessUnknown => 0 case Ready => 1 case NotReady => 2
  }

  function SafetyRank(s: Safety): nat
  {
    match s case SafetyUnknown => 0 case Acceptable => 1 case AtRisk => 2 case Unsafe => 3
  }

  function FreshnessRank(f: Freshness): nat
  {
    match f case FreshnessUnknown => 0 case Current => 1 case Stale => 2
  }

  function WorseCondition(a: Condition, b: Condition): Condition
  {
    if ConditionRank(b) > ConditionRank(a) then b else a
  }

  function WorseLiveness(a: Liveness, b: Liveness): Liveness
  {
    if LivenessRank(b) > LivenessRank(a) then b else a
  }

  /** Not ready dominates, then unknown: not the order of the enumeration. */
  function WorseReadiness(a: Readiness, b: Readiness): Readiness
  {
    if a.NotReady? || b.NotReady? then NotReady
    else if a.ReadinessUnknown? || b.ReadinessUnknown? then ReadinessUnknown
    else Ready
  }

  function WorseSafety(a: Safety, b: Safety): Safety
  {
    if SafetyRank(b) > SafetyRank(a) then b else a
  }

  function Expired(now: int, observed: int, staleAfter: int): bool
  {
    observed > 0 && staleAfter > 0 && now - observed > staleAfter
  }

  // ---------------------------------------------------------------- what one piece of evidence says

  /** The assessment after its age is taken into account. */
  function Aged(e: Evidence, now: int): Assessment
  {
    if !Expired(now, e.observedAt, e.staleAfter) then e.assessment
    else if e.required && e.assessment.condition != Faulted
    then e.assessment.(freshness := Stale, condition := Degraded)
    else e.assessment.(freshness := Stale)
  }

  /** Whether the evidence takes part: present, available if required, and nominal if optional. */
  predicate Admitted(e: Evidence, now: int)
  {
    && e.present
    && (e.required ==> e.available)
    && (!e.required ==> Aged(e, now).condition == Nominal)
  }

  /** Required evidence that is missing or unavailable. */
  predicate Gap(e: Evidence)
  {
    e.required && (!e.present || !e.available)
  }

  // ---------------------------------------------------------------- joins

  /** The greatest weight in a sequence, 0 when it is empty. */
  ghost function Join<T>(s: seq<T>, weight: T -> nat): nat
  {
    if s == [] then 0
    else
      var n := |s| - 1;
      Max(Join(s[..n], weight), weight(s[n]))
  }

  function Max(a: nat, b: nat): nat
  {
    if b > a then b else a
  }

  /** The join is an upper bound, and attained unless it is 0. */
  lemma {:induction false} JoinIsGreatest<T>(s: seq<T>, weight: T -> nat)
    ensures forall i :: 0 <= i < |s| ==> weight(s[i]) <= Join(s, weight)
    ensures Join(s, weight) > 0 ==> exists i :: 0 <= i < |s| && weight(s[i]) == Join(s, weight)
  {
    if s != [] {
      var n := |s| - 1;
      JoinIsGreatest(s[..n], weight);
      assert forall i :: 0 <= i < n ==> s[..n][i] == s[i];
    }
  }

  lemma JoinMonotone<T>(s: seq<T>, t: seq<T>, weight: T -> nat)
    requires forall x :: x in s ==> x in t
    ensures Join(s, weight) <= Join(t, weight)
  {
    JoinIsGreatest(s, weight);
    JoinIsGreatest(t, weight);
    if Join(s, weight) > 0 {
      var i :| 0 <= i < |s| && weight(s[i]) == Join(s, weight);
      assert s[i] in t;
    }
  }

  lemma JoinPrefix<T>(s: seq<T>, n: nat, weight: T -> nat)
    requires n < |s|
    ensures Join(s[..n + 1], weight) == Max(Join(s[..n], weight), weight(s[n]))
  {
    assert s[..n + 1][..n] == s[..n];
  }

  datatype Field = ConditionField | LivenessField | ReadinessField | SafetyField | FreshnessField | RecoveryField

  function Value(f: Field, a: Assessment): nat
  {
    match f
    case ConditionField => ConditionRank(a.condition)
    case LivenessField => LivenessRank(a.liveness)
    case ReadinessField => ReadinessRank(a.readiness)
    case SafetyField => SafetyRank(a.safety)
    case FreshnessField => FreshnessRank(a.freshness)
    case RecoveryField => if a.recovering then 1 else 0
  }

  /** What evidence adds to the join of one field: nothing unless it is admitted. */
  ghost function Adds(f: Field, now: int): Evidence -> nat
  {
    (e: Evidence) => if Admitted(e, now) then Value(f, Aged(e, now)) else 0
  }

  /** Every field of the assessment is the join of what the evidence adds. */
  ghost predicate IsJoin(a: Assessment, s: seq<Evidence>, now: int)
  {
    forall f :: Value(f, a) == Join(s, Adds(f, now))
  }

  /** The worst admitted condition. */
  ghost function Worst(s: seq<Evidence>, now: int): nat
  {
    Join(s, Adds(ConditionField, now))
  }

  /** The fields that IsJoin fixes are fixed completely. */
  lemma ValuesDetermine(a: Assessment, b: Assessment)
    requires forall f :: Value(f, a) == Value(f, b)
    ensures a.(lastError := None) == b.(lastError := None)
  {
    assert Value(ConditionField, a) == Value(ConditionField, b);
    assert Value(LivenessField, a) == Value(LivenessField, b);
    assert Value(ReadinessField, a) == Value(ReadinessField, b);
    assert Value(SafetyField, a) == Value(SafetyField, b);
    assert Value(FreshnessField, a) == Value(FreshnessField, b);
    assert Value(RecoveryField, a) == Value(RecoveryField, b);
  }

  // ---------------------------------------------------------------- folding the evidence

  /** Merge one admitted assessment into the accumulator. */
  function MergeFields(a: Assessment, b: Assessment): Assessment
  {
    Assessment(
      WorseCondition(a.condition, b.condition),
      if b.liveness.LivenessUnknown? then a.liveness else WorseLiveness(a.liveness, b.liveness),
      if b.readiness.ReadinessUnknown? then a.readiness
      else if a.readiness.ReadinessUnknown? then b.readiness
      else WorseReadiness(a.readiness, b.readiness),
      if b.safety.SafetyUnknown? then a.safety else WorseSafety(a.safety, b.safety),
      if FreshnessRank(b.freshness) > FreshnessRank(a.freshness) then b.freshness else a.freshness,
      if b.lastError.Some? && (a.lastError.None? || WorseCondition(a.condition, b.condition) != a.condition)
      then b.lastError else a.lastError,
      a.recovering || b.recovering)
  }

  /** The merge takes the greater value in every field. */
  lemma MergeTakesGreater(a: Assessment, b: Assessment, f: Field)
    ensures Value(f, MergeFields(a, b)) == Max(Value(f, a), Value(f, b))
  {
  }

  lemma MergeIsJoin(a: Assessment, s: seq<Evidence>, n: nat, now: int)
    requires n < |s| && IsJoin(a, s[..n], now)
    ensures IsJoin(if Admitted(s[n], now) then MergeFields(a, Aged(s[n], now)) else a, s[..n + 1], now)
  {
    var a' := if Admitted(s[n], now) then MergeFields(a, Aged(s[n], now)) else a;
    forall f
      ensures Value(f, a') == Join(s[..n + 1], Adds(f, now))
    {
      JoinPrefix(s, n, Adds(f, now));
      MergeTakesGreater(a, Aged(s[n], now), f);
    }
  }

  const NOTHING: Assessment :=
    Assessment(Unknown, LivenessUnknown, ReadinessUnknown, SafetyUnknown, FreshnessUnknown, None, false)

  /** The condition admitted evidence contributes. */
  ghost function Weight(e: Evidence, now: int): nat
  {
    ConditionRank(Aged(e, now).condition)
  }

  /** The first admitted evidence whose condition is the worst admitted one. */
  ghost predicate IsPrimary(k: nat, s: seq<Evidence>, now: int)
  {
    && k < |s| && Admitted(s[k], now)
    && Weight(s[k], now) == Worst(s, now)
    && (forall j :: 0 <= j < k && Admitted(s[j], now) ==> Weight(s[j], now) < Worst(s, now))
  }

  /** Admitted evidence that carries an error. */
  predicate HasError(e: Evidence, now: int)
  {
    Admitted(e, now) && e.assessment.lastError.Some?
  }

  /** Evidence whose error is taken when its turn comes: the first error, or one that makes things worse
      than all admitted evidence before it. */
  ghost predicate TakesError(k: nat, s: seq<Evidence>, now: int)
  {
    && k < |s| && HasError(s[k], now)
    && ((forall j :: 0 <= j < k ==> !HasError(s[j], now)) || Weight(s[k], now) > Worst(s[..k], now))
  }

  /** Evidence k is the last of the first n whose error was taken. */
  ghost predicate TakenLast(k: nat, s: seq<Evidence>, n: nat, now: int)
  {
    k < n <= |s| && TakesError(k, s, now) && forall j :: k < j < n ==> !TakesError(j, s, now)
  }

  /** The reported error is the one taken last. */
  ghost predicate IsLastError(error: Option<int>, s: seq<Evidence>, n: nat, now: int)
    requires n <= |s|
  {
    match error
    case None => forall j :: 0 <= j < n ==> !HasError(s[j], now)
    case Some(_) => exists k: nat :: TakenLast(k, s, n, now) && s[k].assessment.lastError == error
  }

  datatype Aggregate = Aggregate(assessment: Assessment, primary: Option<nat>, hasEvidence: bool, gap: bool)

  ghost predicate AnyPresent(s: seq<Evidence>)
  {
    exists i :: 0 <= i < |s| && s[i].present
  }

  ghost predicate AnyGap(s: seq<Evidence>)
  {
    exists i :: 0 <= i < |s| && Gap(s[i])
  }

  ghost predicate NoneAdmitted(s: seq<Evidence>, now: int)
  {
    forall i :: 0 <= i < |s| ==> !Admitted(s[i], now)
  }

  /** What folding means, without the order of the steps. */
  ghost predicate IsAggregate(r: Aggregate, s: seq<Evidence>, now: int)
  {
    && IsJoin(r.assessment, s, now)
    && (r.hasEvidence <==> AnyPresent(s))
    && (r.gap <==> AnyGap(s))
    && (r.primary.None? <==> NoneAdmitted(s, now))
    && (r.primary.Some? ==> IsPrimary(r.primary.value, s, now))
    && IsLastError(r.assessment.lastError, s, |s|, now)
  }

  /** One step of the fold: the merge lambda of the source. */
  function Merge(r: Aggregate, e: Evidence, i: nat, now: int): Aggregate
  {
    if !e.present then r.(gap := r.gap || e.required)
    else if !e.available && e.required then r.(hasEvidence := true, gap := true)
    else if !e.required && Aged(e, now).condition != Nominal then r.(hasEvidence := true)
    else
      var merged := MergeFields(r.assessment, Aged(e, now));
      Aggregate(merged, if r.primary.None? || merged.condition != r.assessment.condition then Some(i) else r.primary,
                true, r.gap)
  }

  /** Folds the evidence in the order given; `primary` is the position of the primary evidence. */
  method Fold(s: seq<Evidence>, now: int) returns (r: Aggregate)
    ensures IsAggregate(r, s, now)
  {
    r := Aggregate(NOTHING, None, false, false);
    NothingIsAggregate(s[..0], now);
    for i := 0 to |s|
      invariant IsAggregate(r, s[..i], now)
    {
      MergeStep(r, s, i, now);
      r := Merge(r, s[i], i, now);
    }
    assert s[..|s|] == s;
  }

  lemma NothingIsAggregate(s: seq<Evidence>, now: int)
    requires s == []
    ensures IsAggregate(Aggregate(NOTHING, None, false, false), s, now)
  {
  }

  lemma MergeStep(r: Aggregate, s: seq<Evidence>, n: nat, now: int)
    requires n < |s| && IsAggregate(r, s[..n], now)
    ensures IsAggregate(Merge(r, s[n], n, now), s[..n + 1], now)
  {
    MergeIsJoin(r.assessment, s, n, now);
    PrimaryStep(r, s, n, now);
    ErrorStep(r.assessment, s, n, now);
    FlagStep(r, s, n, now);
  }

  lemma FlagStep(r: Aggregate, s: seq<Evidence>, n: nat, now: int)
    requires n < |s|
    requires (r.hasEvidence <==> AnyPresent(s[..n])) && (r.gap <==> AnyGap(s[..n]))
    ensures var r' := Merge(r, s[n], n, now);
            (r'.hasEvidence <==> AnyPresent(s[..n + 1])) && (r'.gap <==> AnyGap(s[..n + 1]))
  {
    var before, after := s[..n], s[..n + 1];
    assert after == before + [s[n]];
  }

  /** One more piece of evidence becomes primary exactly when it is admitted and is the first or worse. */
  lemma PrimaryStep(r: Aggregate, s: seq<Evidence>, n: nat, now: int)
    requires n < |s|
    requires ConditionRank(r.assessment.condition) == Worst(s[..n], now)
    requires r.primary.Some? ==> IsPrimary(r.primary.value, s[..n], now)
    requires r.primary.None? <==> NoneAdmitted(s[..n], now)
    ensures var r' := Merge(r, s[n], n, now);
            && (r'.primary.None? <==> NoneAdmitted(s[..n + 1], now))
            && (r'.primary.Some? ==> IsPrimary(r'.primary.value, s[..n + 1], now))
  {
    JoinPrefix(s, n, Adds(ConditionField, now));
    JoinIsGreatest(s[..n], Adds(ConditionField, now));
    assert s[..n + 1] == s[..n] + [s[n]];
  }

  /** The merge takes the new error exactly when TakesError says so. */
  lemma ErrorChoice(a: Assessment, s: seq<Evidence>, n: nat, now: int)
    requires |s| == n + 1 && ConditionRank(a.condition) == Worst(s[..n], now)
    requires a.lastError.None? <==> forall j :: 0 <= j < n ==> !HasError(s[j], now)
    ensures var a' := if Admitted(s[n], now) then MergeFields(a, Aged(s[n], now)) else a;
            a'.lastError == if TakesError(n, s, now) then s[n].assessment.lastError else a.lastError
  {
  }

  lemma ErrorStep(a: Assessment, s: seq<Evidence>, n: nat, now: int)
    requires n < |s| && ConditionRank(a.condition) == Worst(s[..n], now)
    requires IsLastError(a.lastError, s[..n], n, now)
    ensures var a' := if Admitted(s[n], now) then MergeFields(a, Aged(s[n], now)) else a;
            IsLastError(a'.lastError, s[..n + 1], n + 1, now)
  {
    var t, t' := s[..n], s[..n + 1];
    assert t' == t + [s[n]] && t'[..n] == t;
    assert a.lastError.None? <==> forall j :: 0 <= j < n ==> !HasError(t'[j], now);
    ErrorChoice(a, t', n, now);
    if TakesError(n, t', now) {
      assert TakenLast(n, t', n + 1, now);
    } else {
      TakenSame(t, t', now);
      if a.lastError.Some? {
        var k: nat :| TakenLast(k, t, n, now) && t[k].assessment.lastError == a.lastError;
        assert TakenLast(k, t', n + 1, now);
      }
    }
  }

  lemma TakenSame(t: seq<Evidence>, t': seq<Evidence>, now: int)
    requires t <= t'
    ensures forall k: nat :: k < |t| ==> TakesError(k, t', now) == TakesError(k, t, now)
  {
    forall k: nat | k < |t|
      ensures TakesError(k, t', now) == TakesError(k, t, now)
    {
      assert t'[..k] == t[..k];
      assert t'[k] == t[k];
    }
  }

  // ---------------------------------------------------------------- what a subject reports

  /** recompute_subject_locked's last step: no evidence, or a gap under a nominal result, is unknown. */
  function Settle(r: Aggregate): Assessment
  {
    if !r.hasEvidence || (r.gap && r.assessment.condition == Nominal)
    then r.assessment.(condition := Unknown) else r.assessment
  }

  /** Any permutation of the evidence gives the same assessment; only the error may differ. */
  lemma OrderDoesNotMatter(s: seq<Evidence>, t: seq<Evidence>, now: int, a: Aggregate, b: Aggregate)
    requires multiset(s) == multiset(t) && IsAggregate(a, s, now) && IsAggregate(b, t, now)
    ensures Settle(a).(lastError := None) == Settle(b).(lastError := None)
    ensures a.primary.Some? <==> b.primary.Some?
  {
    assert forall x :: x in multiset(s) <==> x in s;
    assert forall x :: x in multiset(t) <==> x in t;
    forall f
      ensures Value(f, a.assessment) == Value(f, b.assessment)
    {
      JoinMonotone(s, t, Adds(f, now));
      JoinMonotone(t, s, Adds(f, now));
    }
    ValuesDetermine(a.assessment, b.assessment);
    FlagsByElements(s, t, now, a, b);
    FlagsByElements(t, s, now, b, a);
  }

  lemma FlagsByElements(s: seq<Evidence>, t: seq<Evidence>, now: int, a: Aggregate, b: Aggregate)
    requires forall x :: x in s ==> x in t
    requires IsAggregate(a, s, now) && IsAggregate(b, t, now)
    ensures (a.hasEvidence ==> b.hasEvidence) && (a.gap ==> b.gap)
    ensures a.primary.Some? ==> b.primary.Some?
  {
    if a.hasEvidence {
      var i :| 0 <= i < |s| && s[i].present;
      assert s[i] in t;
    }
    if a.gap {
      var i :| 0 <= i < |s| && Gap(s[i]);
      assert s[i] in t;
    }
    if a.primary.Some? {
      assert s[a.primary.value] in t;
    }
  }

  /** Optional evidence never raises the condition above nominal: any worse condition comes from
      required, available evidence. */
  lemma OptionalNeverAlarms(s: seq<Evidence>, now: int, a: Aggregate)
    requires IsAggregate(a, s, now) && ConditionRank(Settle(a).condition) > ConditionRank(Nominal)
    ensures exists i :: 0 <= i < |s| && s[i].required && s[i].present && s[i].available
                        && Aged(s[i], now).condition == Settle(a).condition
  {
    JoinIsGreatest(s, Adds(ConditionField, now));
    assert Value(ConditionField, a.assessment) == Worst(s, now);
    var i :| 0 <= i < |s| && Adds(ConditionField, now)(s[i]) == Worst(s, now);
    assert Admitted(s[i], now);
  }

  /** A nominal subject has evidence, no gap, and nothing admitted that says otherwise. */
  lemma NominalMeansAllWell(s: seq<Evidence>, now: int, a: Aggregate)
    requires IsAggregate(a, s, now) && Settle(a).condition == Nominal
    ensures forall i :: 0 <= i < |s| && s[i].required ==>
              && s[i].present && s[i].available
              && ConditionRank(Aged(s[i], now).condition) <= ConditionRank(Nominal)
    ensures exists i :: 0 <= i < |s| && Admitted(s[i], now) && Aged(s[i], now).condition == Nominal
  {
    JoinIsGreatest(s, Adds(ConditionField, now));
    assert Value(ConditionField, a.assessment) == Worst(s, now);
    forall i | 0 <= i < |s| && s[i].required
      ensures s[i].present && s[i].available
      ensures ConditionRank(Aged(s[i], now).condition) <= ConditionRank(Nominal)
    {
      assert !Gap(s[i]);
      assert Adds(ConditionField, now)(s[i]) <= Worst(s, now);
    }
    var i :| 0 <= i < |s| && Adds(ConditionField, now)(s[i]) == Worst(s, now);
    assert Admitted(s[i], now);
  }

  // ---------------------------------------------------------------- the condition a subject ends up with

  /** The evidence is there and says this, once its age is taken into account: required evidence only while
      it is available, optional evidence only when it is nominal. */
  ghost predicate Says(e: Evidence, now: int, c: Condition)
  {
    e.present && (if e.required then e.available else c == Nominal) && Aged(e, now).condition == c
  }

  ghost predicate SomeSays(s: seq<Evidence>, now: int, c: Condition)
  {
    exists i :: 0 <= i < |s| && Says(s[i], now, c)
  }

  lemma WorstSays(s: seq<Evidence>, now: int, a: Aggregate)
    requires IsAggregate(a, s, now)
    ensures a.assessment.condition != Unknown ==> SomeSays(s, now, a.assessment.condition)
    ensures forall i :: 0 <= i < |s| && Admitted(s[i], now) ==>
              ConditionRank(Aged(s[i], now).condition) <= ConditionRank(a.assessment.condition)
  {
    var weight := Adds(ConditionField, now);
    JoinIsGreatest(s, weight);
    assert Value(ConditionField, a.assessment) == Join(s, weight);
    forall i | 0 <= i < |s| && Admitted(s[i], now)
      ensures ConditionRank(Aged(s[i], now).condition) <= ConditionRank(a.assessment.condition)
    {
      assert weight(s[i]) <= Join(s, weight);
    }
    if a.assessment.condition != Unknown {
      var i :| 0 <= i < |s| && weight(s[i]) == Join(s, weight);
      assert Admitted(s[i], now);
      assert Says(s[i], now, a.assessment.condition);
    }
  }

  lemma SayingIsAdmitted(e: Evidence, now: int)
    ensures forall c :: Says(e, now, c) <==> Admitted(e, now) && Aged(e, now).condition == c
  {
  }

  /** The reported condition, by what the evidence says: an alarm is never hidden by missing evidence,
      while nominal needs all required evidence. */
  lemma SettledCondition(s: seq<Evidence>, now: int, a: Aggregate)
    requires IsAggregate(a, s, now)
    ensures Settle(a).condition == Faulted <==> SomeSays(s, now, Faulted)
    ensures Settle(a).condition == Degraded <==> !SomeSays(s, now, Faulted) && SomeSays(s, now, Degraded)
    ensures Settle(a).condition == Nominal <==>
              && !SomeSays(s, now, Faulted) && !SomeSays(s, now, Degraded) && SomeSays(s, now, Nominal)
              && forall i :: 0 <= i < |s| && s[i].required ==> s[i].present && s[i].available
  {
    WorstSays(s, now, a);
    forall i | 0 <= i < |s|
      ensures forall c :: Says(s[i], now, c) <==> Admitted(s[i], now) && Aged(s[i], now).condition == c
    {
      SayingIsAdmitted(s[i], now);
    }
    assert AnyGap(s) <==> !(forall i :: 0 <= i < |s| && s[i].required ==> s[i].present && s[i].available) by {
      if AnyGap(s) {
        var i :| 0 <= i < |s| && Gap(s[i]);
      }
    }
    if SomeSays(s, now, a.assessment.condition) {
      assert AnyPresent(s);
    }
  }

  /** What the other fields are is not touched by the last step. */
  lemma SettleKeepsTheRest(a: Aggregate)
    ensures Settle(a).(condition := a.assessment.condition) == a.assessment
  {
  }

  // ---------------------------------------------------------------- ageing

  /** Evidence expires once and for all when its age passes the limit; without a time or a limit never. */
  lemma ExpiresAfterLimit(observed: int, staleAfter: int, now: int)
    ensures observed > 0 && staleAfter > 0 ==>
              (Expired(now, observed, staleAfter) <==> observed + staleAfter < now)
    ensures observed <= 0 || staleAfter <= 0 ==> !Expired(now, observed, staleAfter)
    ensures !Expired(observed, observed, staleAfter)
    ensures forall later :: later >= now && Expired(now, observed, staleAfter) ==> Expired(later, observed, staleAfter)
  {
  }

  /** Age touches freshness and condition only: expired evidence is stale, required expired evidence is at
      least degraded and a fault stays a fault, optional evidence keeps its condition. */
  lemma AgeingIs(e: Evidence, now: int)
    ensures var a, expired := Aged(e, now), Expired(now, e.observedAt, e.staleAfter);
      && a.(freshness := e.assessment.freshness, condition := e.assessment.condition) == e.assessment
      && a.freshness == (if expired then Stale else e.assessment.freshness)
      && (!expired || !e.required || e.assessment.condition == Faulted ==> a.condition == e.assessment.condition)
      && (expired && e.required && e.assessment.condition != Faulted ==> a.condition == Degraded)
  {
  }

  /** A required source that has expired makes its subject degraded or worse, and stale. */
  lemma ExpiryAlarms(s: seq<Evidence>, now: int, a: Aggregate, i: nat)
    requires IsAggregate(a, s, now) && i < |s|
    requires s[i].required && s[i].present && s[i].available && Expired(now, s[i].observedAt, s[i].staleAfter)
    ensures Settle(a).condition == Degraded || Settle(a).condition == Faulted
    ensures Settle(a).freshness == Stale
  {
    WorstSays(s, now, a);
    AgeingIs(s[i], now);
    assert Admitted(s[i], now);
    JoinIsGreatest(s, Adds(FreshnessField, now));
    assert Adds(FreshnessField, now)(s[i]) <= Join(s, Adds(FreshnessField, now));
    assert Value(FreshnessField, a.assessment) == Join(s, Adds(FreshnessField, now));
  }
}
