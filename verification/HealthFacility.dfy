/** The health facility: evidence, subject records, the cached system summary and the transition history
    (recompute_subject_locked, recompute_system_locked, report and commit_monitor in
    include/solar/health/facility.hpp). One locked section is one step.
 */
module HealthFacility {
  import opened Basics
  import opened Sequences
  import opened HealthAggregation
  import opened HealthHistory

  /** A subject's record; `primary` is the position of the primary evidence among the subject's. */
  datatype Subject = Subject(assessment: Assessment, primary: Option<nat>, assessedAt: int,
                             generation: nat, transitions: nat, lastTransition: int, reports: nat, repeated: nat)

  /** A monitor, its latest observation as evidence, and its counters. */
  datatype Monitor = Monitor(
    subject: nat,
    evidence: Evidence,
    observations: nat,
    failures: nat,
    recoveries: nat,
    stale: bool,
    staleTransitions: nat)

  /** What a check hands in; zero times stand for defaults. */
  datatype Observation = Observation(assessment: Assessment, detail: nat, available: bool, observedAt: int, staleAfter: int,
                                     explicitRecovery: bool)

  datatype Summary = Summary(
    condition: Condition,
    readiness: Readiness,
    safety: Safety,
    freshness: Freshness,
    nominal: nat,
    degraded: nat,
    faulted: nat,
    unknown: nat,
    stale: nat,
    primary: Option<nat>)

  const BLANK_SUBJECT: Subject := Subject(NOTHING, None, 0, 0, 0, 0, 0, 0)

  // ---------------------------------------------------------------- the system summary

  ghost function HasCondition(c: Condition): Subject -> bool
  {
    (s: Subject) => s.assessment.condition == c
  }

  ghost const IS_STALE: Subject -> bool := (s: Subject) => s.assessment.freshness == Stale

  /** For the system, unknown is worse than ready, and than current, but better than not ready or stale. */
  function ReadinessLoss(r: Readiness): nat
  {
    match r case Ready => 0 case ReadinessUnknown => 1 case NotReady => 2
  }

  function FreshnessLoss(f: Freshness): nat
  {
    match f case Current => 0 case FreshnessUnknown => 1 case Stale => 2
  }

  /** How much a subject matters as the source of the primary evidence. */
  function Blame(s: Subject): nat
  {
    if s.primary.Some? then ConditionRank(s.assessment.condition) else 0
  }

  ghost const READINESS: Subject -> nat := (s: Subject) => ReadinessLoss(s.assessment.readiness)
  ghost const FRESHNESS: Subject -> nat := (s: Subject) => FreshnessLoss(s.assessment.freshness)
  ghost const SAFETY: Subject -> nat := (s: Subject) => SafetyRank(s.assessment.safety)
  ghost const BLAME: Subject -> nat := (s: Subject) => Blame(s)

  /** The first subject with primary evidence and the worst such condition, if that is known at all. */
  ghost predicate IsBlamed(primary: Option<nat>, subjects: seq<Subject>)
  {
    match primary
    case None => Join(subjects, BLAME) == 0
    case Some(k) =>
      && k < |subjects| && Blame(subjects[k]) == Join(subjects, BLAME) > 0
      && (forall j :: 0 <= j < k ==> Blame(subjects[j]) < Blame(subjects[k]))
  }

  ghost predicate IsCount(r: Summary, subjects: seq<Subject>)
  {
    && r.unknown == Count(subjects, HasCondition(Unknown)) && r.nominal == Count(subjects, HasCondition(Nominal))
    && r.degraded == Count(subjects, HasCondition(Degraded)) && r.faulted == Count(subjects, HasCondition(Faulted))
    && r.stale == Count(subjects, IS_STALE)
  }

  /** Readiness, freshness and safety are joins over the subjects; safety is at least acceptable. */
  ghost predicate IsWorst(r: Summary, subjects: seq<Subject>)
  {
    && ReadinessLoss(r.readiness) == Join(subjects, READINESS)
    && FreshnessLoss(r.freshness) == Join(subjects, FRESHNESS)
    && SafetyRank(r.safety) == Max(1, Join(subjects, SAFETY))
  }

  function OverallCondition(r: Summary): Condition
  {
    if r.faulted > 0 then Faulted else if r.degraded > 0 then Degraded
    else if r.unknown > 0 then Unknown else Nominal
  }

  ghost predicate IsSummary(r: Summary, subjects: seq<Subject>)
  {
    IsCount(r, subjects) && IsWorst(r, subjects) && IsBlamed(r.primary, subjects)
    && r.condition == OverallCondition(r)
  }

  /** One round of the loop over the subjects; the worst blamed condition so far is `worst`. */
  function Tally(r: Summary, s: Subject, i: nat, worst: nat): Summary
  {
    Summary(
      r.condition,
      WorseReadiness(r.readiness, s.assessment.readiness),
      WorseSafety(r.safety, s.assessment.safety),
      if s.assessment.freshness == Stale then Stale
      else if s.assessment.freshness == FreshnessUnknown && r.freshness != Stale then FreshnessUnknown
      else r.freshness,
      r.nominal + (if s.assessment.condition == Nominal then 1 else 0),
      r.degraded + (if s.assessment.condition == Degraded then 1 else 0),
      r.faulted + (if s.assessment.condition == Faulted then 1 else 0),
      r.unknown + (if s.assessment.condition == Unknown then 1 else 0),
      r.stale + (if s.assessment.freshness == Stale then 1 else 0),
      if s.primary.Some? && ConditionRank(s.assessment.condition) > worst then Some(i) else r.primary)
  }

  lemma CountStep(r: Summary, subjects: seq<Subject>, s: Subject, worst: nat)
    requires IsCount(r, subjects)
    ensures IsCount(Tally(r, s, |subjects|, worst), subjects + [s])
  {
    CountSnoc(subjects, s, HasCondition(Unknown));
    CountSnoc(subjects, s, HasCondition(Nominal));
    CountSnoc(subjects, s, HasCondition(Degraded));
    CountSnoc(subjects, s, HasCondition(Faulted));
    CountSnoc(subjects, s, IS_STALE);
  }

  lemma JoinSnoc<T>(s: seq<T>, x: T, weight: T -> nat)
    ensures Join(s + [x], weight) == Max(Join(s, weight), weight(x))
  {
    assert (s + [x])[..|s|] == s;
  }

  lemma WorstStep(r: Summary, subjects: seq<Subject>, s: Subject, worst: nat)
    requires IsWorst(r, subjects)
    ensures IsWorst(Tally(r, s, |subjects|, worst), subjects + [s])
  {
    JoinSnoc(subjects, s, READINESS);
    JoinSnoc(subjects, s, FRESHNESS);
    JoinSnoc(subjects, s, SAFETY);
  }

  lemma BlameStep(r: Summary, subjects: seq<Subject>, s: Subject)
    requires IsBlamed(r.primary, subjects)
    ensures IsBlamed(Tally(r, s, |subjects|, Join(subjects, BLAME)).primary, subjects + [s])
  {
    JoinSnoc(subjects, s, BLAME);
    NobodyBlamedMore(subjects);
    var longer := subjects + [s];
    assert forall j :: 0 <= j < |subjects| ==> longer[j] == subjects[j];
    assert longer[|subjects|] == s;
  }

  lemma NobodyBlamedMore(subjects: seq<Subject>)
    ensures forall j :: 0 <= j < |subjects| ==> Blame(subjects[j]) <= Join(subjects, BLAME)
  {
    JoinIsGreatest(subjects, BLAME);
    forall j | 0 <= j < |subjects|
      ensures Blame(subjects[j]) <= Join(subjects, BLAME)
    {
      assert BLAME(subjects[j]) <= Join(subjects, BLAME);
    }
  }

  /** What the loop knows about the subjects it has been through. */
  ghost predicate IsTally(r: Summary, worst: nat, subjects: seq<Subject>)
  {
    IsCount(r, subjects) && IsWorst(r, subjects) && IsBlamed(r.primary, subjects) && worst == Join(subjects, BLAME)
  }

  lemma TallyStep(r: Summary, worst: nat, subjects: seq<Subject>, s: Subject)
    requires IsTally(r, worst, subjects)
    ensures IsTally(Tally(r, s, |subjects|, worst), Max(worst, Blame(s)), subjects + [s])
  {
    CountStep(r, subjects, s, worst);
    WorstStep(r, subjects, s, worst);
    BlameStep(r, subjects, s);
    JoinSnoc(subjects, s, BLAME);
  }

  const NO_TALLY: Summary := Summary(Unknown, Ready, Acceptable, Current, 0, 0, 0, 0, 0, None)

  /** Everything the loop computes: the summary so far and the worst blamed condition. */
  function TallyAll(subjects: seq<Subject>): (Summary, nat)
  {
    if subjects == [] then (NO_TALLY, 0)
    else
      var n := |subjects| - 1;
      var (r, worst) := TallyAll(subjects[..n]);
      (Tally(r, subjects[n], n, worst), Max(worst, Blame(subjects[n])))
  }

  lemma {:induction false} TallyAllIsTally(subjects: seq<Subject>)
    ensures IsTally(TallyAll(subjects).0, TallyAll(subjects).1, subjects)
  {
    if subjects != [] {
      var n := |subjects| - 1;
      TallyAllIsTally(subjects[..n]);
      var (r, worst) := TallyAll(subjects[..n]);
      TallyStep(r, worst, subjects[..n], subjects[n]);
      assert subjects[..n] + [subjects[n]] == subjects;
    }
  }

  /** recompute_system_locked. */
  method Summarize(subjects: seq<Subject>) returns (r: Summary)
    ensures IsSummary(r, subjects)
  {
    r := NO_TALLY;
    var worst := 0;
    for i := 0 to |subjects|
      invariant (r, worst) == TallyAll(subjects[..i])
    {
      assert subjects[..i + 1][..i] == subjects[..i];
      r, worst := Tally(r, subjects[i], i, worst), Max(worst, Blame(subjects[i]));
    }
    assert subjects[..|subjects|] == subjects;
    TallyAllIsTally(subjects);
    TallyConcludes(r, worst, subjects);
    r := r.(condition := OverallCondition(r));
  }

  lemma TallyConcludes(r: Summary, worst: nat, subjects: seq<Subject>)
    requires IsTally(r, worst, subjects)
    ensures IsSummary(r.(condition := OverallCondition(r)), subjects)
  {
  }

  lemma {:induction false} CountPositive<T>(s: seq<T>, p: T -> bool)
    ensures Count(s, p) > 0 <==> exists i :: 0 <= i < |s| && p(s[i])
  {
    if s != [] {
      CountPositive(s[1..], p);
      if Count(s[1..], p) > 0 {
        var i :| 0 <= i < |s[1..]| && p(s[1..][i]);
        assert p(s[i + 1]);
      }
      if i :| 0 < i < |s| && p(s[i]) {
        assert p(s[1..][i - 1]);
      }
    }
  }

  /** The system is nominal exactly when every subject is. */
  lemma NominalIffAll(r: Summary, subjects: seq<Subject>)
    requires IsSummary(r, subjects)
    ensures r.condition == Nominal
            <==> (forall i :: 0 <= i < |subjects| ==> subjects[i].assessment.condition == Nominal)
  {
    CountPositive(subjects, HasCondition(Unknown));
    CountPositive(subjects, HasCondition(Degraded));
    CountPositive(subjects, HasCondition(Faulted));
    forall i | 0 <= i < |subjects|
      ensures subjects[i].assessment.condition == Nominal
              || HasCondition(Unknown)(subjects[i]) || HasCondition(Degraded)(subjects[i])
              || HasCondition(Faulted)(subjects[i])
    {
    }
  }

  /** Some subject has this condition. */
  ghost predicate SomeSubject(subjects: seq<Subject>, c: Condition)
  {
    exists i :: 0 <= i < |subjects| && subjects[i].assessment.condition == c
  }

  /** The system's condition by its subjects': a fault anywhere, else a degradation, else an unknown. */
  lemma SystemCondition(r: Summary, subjects: seq<Subject>)
    requires IsSummary(r, subjects)
    ensures r.condition == Faulted <==> SomeSubject(subjects, Faulted)
    ensures r.condition == Degraded <==> !SomeSubject(subjects, Faulted) && SomeSubject(subjects, Degraded)
    ensures r.condition == Unknown <==>
              !SomeSubject(subjects, Faulted) && !SomeSubject(subjects, Degraded) && SomeSubject(subjects, Unknown)
  {
    CountIsSome(subjects, Faulted);
    CountIsSome(subjects, Degraded);
    CountIsSome(subjects, Unknown);
  }

  lemma CountIsSome(subjects: seq<Subject>, c: Condition)
    ensures Count(subjects, HasCondition(c)) > 0 <==> SomeSubject(subjects, c)
  {
    CountPositive(subjects, HasCondition(c));
    if SomeSubject(subjects, c) {
      var i :| 0 <= i < |subjects| && subjects[i].assessment.condition == c;
      assert HasCondition(c)(subjects[i]);
    }
  }

  // ---------------------------------------------------------------- evidence of a subject

  /** The observations of the monitors that watch one subject, in catalog order. */
  function MonitorsOf(monitors: seq<Monitor>, subject: nat): seq<Evidence>
  {
    if monitors == [] then []
    else (if monitors[0].subject == subject then [monitors[0].evidence] else [])
         + MonitorsOf(monitors[1..], subject)
  }

  predicate Watches(m: Monitor, subject: nat) { m.subject == subject }

  function Watching(subject: nat): Monitor -> bool { (m: Monitor) => Watches(m, subject) }

  /** Each monitor of the subject contributes its evidence once, in order, and no other monitor does. */
  lemma {:induction false} MonitorsOfAre(monitors: seq<Monitor>, subject: nat)
    ensures |MonitorsOf(monitors, subject)| == Count(monitors, Watching(subject))
    ensures forall m :: 0 <= m < |monitors| && Watches(monitors[m], subject) ==>
              var before := Count(monitors[..m], Watching(subject));
              before < |MonitorsOf(monitors, subject)| && MonitorsOf(monitors, subject)[before] == monitors[m].evidence
  {
    if monitors != [] {
      var rest := monitors[1..];
      MonitorsOfAre(rest, subject);
      forall m | 0 <= m < |monitors| && Watches(monitors[m], subject)
        ensures var before := Count(monitors[..m], Watching(subject));
                before < |MonitorsOf(monitors, subject)| && MonitorsOf(monitors, subject)[before] == monitors[m].evidence
      {
        if m > 0 {
          assert rest[m - 1] == monitors[m] && monitors[..m][1..] == rest[..m - 1];
        }
      }
    }
  }

  /** The evidence that some monitor of the subject holds. */
  lemma {:induction false} MonitorSays(monitors: seq<Monitor>, subject: nat, now: int, c: Condition)
    ensures SomeSays(MonitorsOf(monitors, subject), now, c)
            <==> exists m :: 0 <= m < |monitors| && Watches(monitors[m], subject) && Says(monitors[m].evidence, now, c)
  {
    if monitors != [] {
      var rest := monitors[1..];
      MonitorSays(rest, subject, now, c);
      var first := if monitors[0].subject == subject then [monitors[0].evidence] else [];
      SaysEither(first, MonitorsOf(rest, subject), now, c);
      assert forall m :: 0 < m < |monitors| ==> monitors[m] == rest[m - 1];
      assert forall m :: 0 <= m < |rest| ==> rest[m] == monitors[m + 1];
      assert SomeSays(first, now, c) <==> Watches(monitors[0], subject) && Says(monitors[0].evidence, now, c) by {
        if Watches(monitors[0], subject) && Says(monitors[0].evidence, now, c) {
          assert Says(first[0], now, c);
        }
      }
    }
  }

  lemma SaysEither(a: seq<Evidence>, b: seq<Evidence>, now: int, c: Condition)
    ensures SomeSays(a + b, now, c) <==> SomeSays(a, now, c) || SomeSays(b, now, c)
  {
    if SomeSays(a, now, c) {
      var i :| 0 <= i < |a| && Says(a[i], now, c);
      assert Says((a + b)[i], now, c);
    }
    if SomeSays(b, now, c) {
      var i :| 0 <= i < |b| && Says(b[i], now, c);
      assert Says((a + b)[|a| + i], now, c);
    }
    if SomeSays(a + b, now, c) {
      var i :| 0 <= i < |a + b| && Says((a + b)[i], now, c);
      assert (a + b)[i] == if i < |a| then a[i] else b[i - |a|];
    }
  }

  /** Evidence changes for a subject only if one of its monitors has new evidence. */
  lemma {:induction false} SameEvidence(monitors: seq<Monitor>, after: seq<Monitor>, subject: nat)
    requires |after| == |monitors|
    requires forall m :: 0 <= m < |monitors| ==> after[m].subject == monitors[m].subject
    requires forall m :: 0 <= m < |monitors| && monitors[m].subject == subject ==>
               after[m].evidence == monitors[m].evidence
    ensures MonitorsOf(after, subject) == MonitorsOf(monitors, subject)
  {
    if monitors != [] {
      SameEvidence(monitors[1..], after[1..], subject);
    }
  }

  /** The staleness bookkeeping of one monitor when its subject is assessed. */
  function Noted(m: Monitor, subject: nat, now: int): Monitor
  {
    if m.subject != subject then m
    else
      var isStale := m.evidence.present && Expired(now, m.evidence.observedAt, m.evidence.staleAfter);
      m.(stale := isStale, staleTransitions := m.staleTransitions + if isStale && !m.stale then 1 else 0)
  }

  /** The loop over the monitors counts the ones that have become stale. */
  method NoteStale(monitors: seq<Monitor>, subject: nat, now: int) returns (after: seq<Monitor>)
    ensures |after| == |monitors|
    ensures forall m :: 0 <= m < |monitors| ==> after[m] == Noted(monitors[m], subject, now)
  {
    after := [];
    for i := 0 to |monitors|
      invariant |after| == i
      invariant forall m :: 0 <= m < i ==> after[m] == Noted(monitors[m], subject, now)
    {
      after := after + [Noted(monitors[i], subject, now)];
    }
  }

  // ---------------------------------------------------------------- the counters over runs

  /** One assessment of a monitor's subject: the evidence it had then, and the time. */
  datatype Check = Check(evidence: Evidence, now: int)

  predicate StaleAt(c: Check)
  {
    c.evidence.present && Expired(c.now, c.evidence.observedAt, c.evidence.staleAfter)
  }

  /** The monitor after a run of assessments. */
  function Checked(m: Monitor, checks: seq<Check>): Monitor
  {
    if checks == [] then m
    else
      var c := checks[|checks| - 1];
      Noted(Checked(m, checks[..|checks| - 1]).(evidence := c.evidence), m.subject, c.now)
  }

  /** At assessment i the monitor is stale and was not before. */
  ghost predicate BecomesStale(stale: bool, checks: seq<Check>, i: int)
  {
    0 <= i < |checks| && StaleAt(checks[i]) && !(if i == 0 then stale else StaleAt(checks[i - 1]))
  }

  ghost function Onsets(stale: bool, checks: seq<Check>): set<int>
  {
    set i | 0 <= i < |checks| && BecomesStale(stale, checks, i)
  }

  lemma OnsetsGrow(stale: bool, checks: seq<Check>)
    requires checks != []
    ensures var n := |checks| - 1;
      |Onsets(stale, checks)|
        == |Onsets(stale, checks[..n])| + if BecomesStale(stale, checks, n) then 1 else 0
  {
    var n := |checks| - 1;
    var before, after := Onsets(stale, checks[..n]), Onsets(stale, checks);
    assert forall i :: 0 <= i < n ==> BecomesStale(stale, checks[..n], i) == BecomesStale(stale, checks, i);
    assert after == if BecomesStale(stale, checks, n) then before + {n} else before;
  }

  /** Over every run of assessments the counter counts the assessments at which the monitor became stale,
      and the flag is the last answer. */
  lemma {:induction false} StaleTransitionsAreOnsets(m: Monitor, checks: seq<Check>)
    ensures var m' := Checked(m, checks);
      && m'.subject == m.subject
      && m'.stale == (if checks == [] then m.stale else StaleAt(checks[|checks| - 1]))
      && m'.staleTransitions == m.staleTransitions + |Onsets(m.stale, checks)|
  {
    if checks != [] {
      StaleTransitionsAreOnsets(m, checks[..|checks| - 1]);
      OnsetsGrow(m.stale, checks);
    } else {
      assert Onsets(m.stale, checks) == {};
    }
  }

  /** The evidence a committed observation becomes. */
  function AsEvidence(o: Observation, required: bool, now: int, defaultStale: int): Evidence
  {
    Evidence(o.assessment, o.available, if o.observedAt == 0 then now else o.observedAt,
             if o.staleAfter == 0 then defaultStale else o.staleAfter, required, true, o.detail)
  }

  /** A monitor after a committed observation: the new evidence, and the counters. */
  function Observed(m: Monitor, o: Observation, required: bool, now: int, defaultStale: int): Monitor
  {
    m.(evidence := AsEvidence(o, required, now, defaultStale),
       observations := m.observations + 1,
       failures := m.failures + (if o.available then 0 else 1),
       recoveries := m.recoveries
         + if o.explicitRecovery && m.evidence.assessment.condition != Nominal && o.assessment.condition == Nominal
           then 1 else 0)
  }

  /** The record says what the evidence said when it was last assessed. */
  ghost predicate Reflects(s: Subject, evidence: seq<Evidence>)
  {
    s.generation > 0 ==>
      exists a :: IsAggregate(a, evidence, s.assessedAt) && s.assessment == Settle(a) && s.primary == a.primary
  }

  /** A committed observation, with the times it was handed in at. */
  datatype Commit = Commit(observation: Observation, required: bool, now: int, defaultStale: int)

  function Committed(m: Monitor, commits: seq<Commit>): Monitor
  {
    if commits == [] then m
    else
      var c := commits[|commits| - 1];
      Observed(Committed(m, commits[..|commits| - 1]), c.observation, c.required, c.now, c.defaultStale)
  }

  /** The condition the monitor reported before commit i. */
  function PriorTo(m: Monitor, commits: seq<Commit>, i: nat): Condition
    requires i <= |commits|
  {
    if i == 0 then m.evidence.assessment.condition else commits[i - 1].observation.assessment.condition
  }

  /** Commit i is a declared recovery: explicitly so, and from a condition that was not nominal. */
  ghost predicate Recovers(m: Monitor, commits: seq<Commit>, i: int)
  {
    && 0 <= i < |commits| && commits[i].observation.explicitRecovery
    && commits[i].observation.assessment.condition == Nominal && PriorTo(m, commits, i) != Nominal
  }

  ghost predicate Unavailable(commits: seq<Commit>, i: int)
  {
    0 <= i < |commits| && !commits[i].observation.available
  }

  ghost function Failures(commits: seq<Commit>): set<int>
  {
    set i | 0 <= i < |commits| && Unavailable(commits, i)
  }

  ghost function Recoveries(m: Monitor, commits: seq<Commit>): set<int>
  {
    set i | 0 <= i < |commits| && Recovers(m, commits, i)
  }

  lemma FailuresGrow(commits: seq<Commit>)
    requires commits != []
    ensures var n := |commits| - 1;
      |Failures(commits)| == |Failures(commits[..n])| + if Unavailable(commits, n) then 1 else 0
  {
    var n := |commits| - 1;
    assert forall i :: 0 <= i < n ==> Unavailable(commits[..n], i) == Unavailable(commits, i);
    assert Failures(commits) == if Unavailable(commits, n) then Failures(commits[..n]) + {n} else Failures(commits[..n]);
  }

  lemma RecoveriesGrow(m: Monitor, commits: seq<Commit>)
    requires commits != []
    ensures var n := |commits| - 1;
      |Recoveries(m, commits)| == |Recoveries(m, commits[..n])| + if Recovers(m, commits, n) then 1 else 0
  {
    var n := |commits| - 1;
    var before := Recoveries(m, commits[..n]);
    assert forall i :: 0 <= i < n ==> Recovers(m, commits[..n], i) == Recovers(m, commits, i);
    assert Recoveries(m, commits) == if Recovers(m, commits, n) then before + {n} else before;
  }

  /** Over every run of commits: one observation each, the failures are the unavailable ones and the
      recoveries the declared ones. */
  lemma {:induction false} CommitsAreCounted(m: Monitor, commits: seq<Commit>)
    ensures var m' := Committed(m, commits);
      && m'.observations == m.observations + |commits|
      && m'.failures == m.failures + |Failures(commits)|
      && m'.recoveries == m.recoveries + |Recoveries(m, commits)|
      && m'.evidence.assessment.condition == PriorTo(m, commits, |commits|)
  {
    if commits == [] {
      assert Failures(commits) == {} && Recoveries(m, commits) == {};
    } else {
      CommitsAreCounted(m, commits[..|commits| - 1]);
      FailuresGrow(commits);
      RecoveriesGrow(m, commits);
    }
  }

  /** A zero time stands for now, a zero limit for the monitor's own; nothing else is replaced. */
  lemma DefaultsFillIn(o: Observation, required: bool, now: int, defaultStale: int)
    ensures var e := AsEvidence(o, required, now, defaultStale);
      && e.present && e.required == required && e.available == o.available
      && e.assessment == o.assessment && e.detail == o.detail
      && (o.observedAt != 0 ==> e.observedAt == o.observedAt) && (o.observedAt == 0 ==> e.observedAt == now)
      && (o.staleAfter != 0 ==> e.staleAfter == o.staleAfter) && (o.staleAfter == 0 ==> e.staleAfter == defaultStale)
  {
  }

  /** What a subject's record says, in terms of its evidence at the time of the assessment. */
  lemma RecordTellsTheTruth(s: Subject, evidence: seq<Evidence>)
    requires Reflects(s, evidence) && s.generation > 0
    ensures s.assessment.condition == Faulted <==> SomeSays(evidence, s.assessedAt, Faulted)
    ensures s.assessment.condition == Degraded <==>
              !SomeSays(evidence, s.assessedAt, Faulted) && SomeSays(evidence, s.assessedAt, Degraded)
    ensures s.assessment.condition == Nominal <==>
              && !SomeSays(evidence, s.assessedAt, Faulted) && !SomeSays(evidence, s.assessedAt, Degraded)
              && SomeSays(evidence, s.assessedAt, Nominal)
              && forall i :: 0 <= i < |evidence| && evidence[i].required ==> evidence[i].present && evidence[i].available
  {
    var a :| IsAggregate(a, evidence, s.assessedAt) && s.assessment == Settle(a) && s.primary == a.primary;
    SettledCondition(evidence, s.assessedAt, a);
  }

  const SOURCES: nat := 9

  /** One health facility; `history.nextSequence - 1` is the length of its log. */
  class Facility {
    /** Nine fixed sources per subject: report, assessment, lifecycle, execution, events, metrics,
        logging, remote and hardware. */
    var sources: seq<seq<Evidence>>
    var monitors: seq<Monitor>
    var subjects: seq<Subject>
    var system: Summary
    var assessed: bool
    const history: History

    function EvidenceOf(k: nat): seq<Evidence>
      requires k < |sources|
      reads this
    {
      sources[k] + MonitorsOf(monitors, k)
    }

    ghost predicate Shaped()
      reads this
    {
      && |sources| == |subjects| == history.subjects
      && (forall k :: 0 <= k < |sources| ==> |sources[k]| == SOURCES)
      && forall m :: 0 <= m < |monitors| ==> monitors[m].subject < |subjects|
    }

    /** Every record reflects its evidence and agrees with the history. */
    ghost predicate Valid()
      reads this, history, history.ring
    {
      && history.Valid() && Shaped()
      && (forall k :: 0 <= k < |subjects| ==> Reflects(subjects[k], EvidenceOf(k)))
      && Agrees(subjects, history.log)
      && (assessed ==> IsSummary(system, subjects))
    }

    constructor (depth: nat, subjects: nat, monitors: seq<Monitor>, empty: Evidence)
      requires depth > 0 && forall m :: 0 <= m < |monitors| ==> monitors[m].subject < subjects
      ensures Valid() && fresh(history) && fresh(history.ring) && history.log == []
      ensures |this.subjects| == subjects && this.monitors == monitors
    {
      history := new History(depth, subjects);
      sources := seq(subjects, _ => seq(SOURCES, _ => empty));
      this.monitors := monitors;
      this.subjects := seq(subjects, _ => BLANK_SUBJECT);
      system := Summary(Unknown, ReadinessUnknown, SafetyUnknown, FreshnessUnknown, 0, 0, 0, 0, 0, None);
      assessed := false;
    }

    /** Some fixed source of the subject, or some monitor that watches it, says this. */
    ghost predicate HasSaid(k: nat, now: int, c: Condition)
      requires k < |sources|
      reads this
    {
      || (exists i :: 0 <= i < |sources[k]| && Says(sources[k][i], now, c))
      || exists m :: 0 <= m < |monitors| && Watches(monitors[m], k) && Says(monitors[m].evidence, now, c)
    }

    /** Every assessed subject is faulted exactly when one of its sources or monitors said so when it was
        assessed, and degraded exactly when none did and one said that. */
    lemma AlarmsAreReported(k: nat)
      requires Valid() && k < |subjects| && subjects[k].generation > 0
      ensures var s := subjects[k];
        && (s.assessment.condition == Faulted <==> HasSaid(k, s.assessedAt, Faulted))
        && (s.assessment.condition == Degraded <==> !HasSaid(k, s.assessedAt, Faulted) && HasSaid(k, s.assessedAt, Degraded))
    {
      var now := subjects[k].assessedAt;
      RecordTellsTheTruth(subjects[k], EvidenceOf(k));
      SaysEither(sources[k], MonitorsOf(monitors, k), now, Faulted);
      SaysEither(sources[k], MonitorsOf(monitors, k), now, Degraded);
      MonitorSays(monitors, k, now, Faulted);
      MonitorSays(monitors, k, now, Degraded);
    }

    /** recompute_subject_locked: the record, and the history if the condition changed. */
    method Assess(index: nat, now: int)
      requires history.Valid() && Shaped() && index < |subjects| && Agrees(subjects, history.log)
      requires forall k :: 0 <= k < |subjects| && k != index ==> Reflects(subjects[k], EvidenceOf(k))
      modifies this`subjects, history, history.ring
      ensures history.Valid() && Shaped() && Agrees(subjects, history.log)
      ensures forall k :: 0 <= k < |subjects| ==> Reflects(subjects[k], EvidenceOf(k))
      ensures subjects == old(subjects)[index := subjects[index]]
      ensures Reassessed(old(subjects)[index], subjects[index], now)
    {
      var record := subjects[index];
      var a := Fold(EvidenceOf(index), now);
      var assessment := Settle(a);
      var changed := assessment.condition != record.assessment.condition;
      var s := record.(assessment := assessment, primary := a.primary, assessedAt := now,
                       generation := record.generation + 1,
                       transitions := record.transitions + (if changed then 1 else 0),
                       lastTransition := if changed then now else record.lastTransition);
      ghost var log := history.log;
      assert AgreesOn(record, log, index);
      history.Append(index, record.assessment.condition, assessment.condition, now, a.primary);
      AgreesStep(subjects, log, index, s, history.log);
      assert Reflects(s, EvidenceOf(index));
      subjects := subjects[index := s];
    }

    /** A subject's assessment, the staleness of its monitors, and the system summary. */
    method Recompute(index: nat, now: int)
      requires history.Valid() && Shaped() && index < |subjects| && Agrees(subjects, history.log)
      requires forall k :: 0 <= k < |subjects| && k != index ==> Reflects(subjects[k], EvidenceOf(k))
      modifies this`subjects, this`monitors, this`system, this`assessed, history, history.ring
      ensures Valid() && assessed
      ensures |monitors| == |old(monitors)|
      ensures forall m :: 0 <= m < |monitors| ==> monitors[m] == Noted(old(monitors)[m], index, now)
      ensures subjects == old(subjects)[index := subjects[index]]
      ensures Reassessed(old(subjects)[index], subjects[index], now)
    {
      Assess(index, now);
      RememberStale(index, now);
      system := Summarize(subjects);
      assessed := true;
    }

    method RememberStale(index: nat, now: int)
      requires Shaped() && forall k :: 0 <= k < |subjects| ==> Reflects(subjects[k], EvidenceOf(k))
      modifies this`monitors
      ensures Shaped() && forall k :: 0 <= k < |subjects| ==> Reflects(subjects[k], EvidenceOf(k))
      ensures |monitors| == |old(monitors)|
      ensures forall m :: 0 <= m < |monitors| ==> monitors[m] == Noted(old(monitors)[m], index, now)
    {
      ghost var before := monitors;
      monitors := NoteStale(monitors, index, now);
      forall k: nat | k < |subjects|
        ensures MonitorsOf(monitors, k) == MonitorsOf(before, k)
      {
        SameEvidence(before, monitors, k);
      }
    }

    /** commit_adapter: one of the fixed sources of a subject changes. */
    method CommitSource(index: nat, slot: nat, evidence: Evidence, now: int)
      requires Valid() && index < |subjects| && slot < SOURCES
      modifies this, history, history.ring
      ensures Valid() && assessed
      ensures sources == old(sources)[index := old(sources)[index][slot := evidence]]
      ensures |monitors| == |old(monitors)|
      ensures forall m :: 0 <= m < |monitors| ==> monitors[m] == Noted(old(monitors)[m], index, now)
      ensures subjects == old(subjects)[index := subjects[index]]
      ensures Reassessed(old(subjects)[index], subjects[index], now)
    {
      sources := sources[index := sources[index][slot := evidence]];
      Recompute(index, now);
    }

    /** report: a component's own assessment of itself, in the first source. */
    method Report(index: nat, assessment: Assessment, detail: nat, staleAfter: int, now: int)
      returns (transitioned: bool, repeated: bool, generation: nat)
      requires Valid() && index < |subjects|
      modifies this, history, history.ring
      ensures Valid() && assessed
      ensures sources == old(sources)[index := old(sources)[index][0 := Evidence(assessment, true, now, staleAfter, true, true, detail)]]
      ensures repeated <==> old(sources)[index][0].present && old(sources)[index][0].assessment == assessment
                            && old(sources)[index][0].detail == detail
      ensures subjects == old(subjects)[index := subjects[index]]
      ensures Reassessed(Reported(old(subjects)[index], repeated), subjects[index], now)
      ensures subjects[index].reports == old(subjects)[index].reports + 1
      ensures subjects[index].repeated == old(subjects)[index].repeated + if repeated then 1 else 0
      ensures generation == subjects[index].generation == old(subjects)[index].generation + 1
      ensures transitioned <==> subjects[index].assessment.condition != old(subjects)[index].assessment.condition
    {
      repeated := sources[index][0].present && sources[index][0].assessment == assessment
                  && sources[index][0].detail == detail;
      var transitions := subjects[index].transitions;
      CountReport(index, repeated);
      CommitSource(index, 0, Evidence(assessment, true, now, staleAfter, true, true, detail), now);
      generation := subjects[index].generation;
      transitioned := transitions != subjects[index].transitions;
    }

    method CountReport(index: nat, repeated: bool)
      requires Valid() && index < |subjects|
      modifies this`subjects
      ensures Valid() && subjects == old(subjects)[index := Reported(old(subjects)[index], repeated)]
    {
      ghost var before := subjects;
      subjects := subjects[index := Reported(subjects[index], repeated)];
      forall k: nat | k < |subjects|
        ensures AgreesOn(subjects[k], history.log, k)
      {
        assert AgreesOn(before[k], history.log, k);
      }
      SummaryIgnoresReports(system, before, subjects, assessed);
    }

    /** A new observation leaves every other subject's record in step with its evidence. */
    method Observe(m: nat, monitor: Monitor)
      requires Shaped() && m < |monitors| && monitor.subject == monitors[m].subject
      requires forall k :: 0 <= k < |subjects| ==> Reflects(subjects[k], EvidenceOf(k))
      modifies this`monitors
      ensures Shaped() && monitors == old(monitors)[m := monitor]
      ensures forall k :: 0 <= k < |subjects| && k != monitor.subject ==> Reflects(subjects[k], EvidenceOf(k))
    {
      ghost var before := monitors;
      monitors := monitors[m := monitor];
      forall k: nat | k < |subjects| && k != monitor.subject
        ensures MonitorsOf(monitors, k) == MonitorsOf(before, k)
      {
        SameEvidence(before, monitors, k);
      }
    }

    /** commit_monitor: the observation of a monitor changes, for the subject it watches. */
    method CommitMonitor(m: nat, o: Observation, required: bool, now: int, defaultStale: int)
      requires Valid() && m < |monitors|
      modifies this, history, history.ring
      ensures Valid() && assessed && sources == old(sources) && |monitors| == |old(monitors)|
      ensures var monitor := Observed(old(monitors)[m], o, required, now, defaultStale);
              var subject, at := monitor.subject, monitor.evidence.observedAt;
              && monitors[m] == Noted(monitor, subject, at)
              && (forall k :: 0 <= k < |monitors| && k != m ==> monitors[k] == Noted(old(monitors)[k], subject, at))
              && subject < |subjects| == |old(subjects)|
              && subjects == old(subjects)[subject := subjects[subject]]
              && Reassessed(old(subjects)[subject], subjects[subject], at)
    {
      var monitor := Observed(monitors[m], o, required, now, defaultStale);
      Observe(m, monitor);
      Recompute(monitor.subject, monitor.evidence.observedAt);
    }
  }

  function Reported(s: Subject, repeated: bool): Subject
  {
    s.(reports := s.reports + 1, repeated := s.repeated + if repeated then 1 else 0)
  }

  /** What assessing a subject does to its counters and times. */
  ghost predicate Reassessed(s: Subject, s': Subject, now: int)
  {
    var changed := s'.assessment.condition != s.assessment.condition;
    && s'.generation == s.generation + 1 && s'.assessedAt == now
    && s'.transitions == s.transitions + (if changed then 1 else 0)
    && s'.lastTransition == (if changed then now else s.lastTransition)
    && s'.reports == s.reports && s'.repeated == s.repeated
  }

  /** Counters play no part in the summary. */
  lemma {:induction false} CountAlike(a: seq<Subject>, b: seq<Subject>, p: Subject -> bool)
    requires |a| == |b| && forall i :: 0 <= i < |a| ==> p(a[i]) == p(b[i])
    ensures Count(a, p) == Count(b, p)
  {
    if a != [] {
      CountAlike(a[1..], b[1..], p);
    }
  }

  lemma {:induction false} JoinAlike(a: seq<Subject>, b: seq<Subject>, weight: Subject -> nat)
    requires |a| == |b| && forall i :: 0 <= i < |a| ==> weight(a[i]) == weight(b[i])
    ensures Join(a, weight) == Join(b, weight)
  {
    if a != [] {
      JoinAlike(a[..|a| - 1], b[..|b| - 1], weight);
    }
  }

  lemma BlameAlike(primary: Option<nat>, a: seq<Subject>, b: seq<Subject>)
    requires |a| == |b| && forall i :: 0 <= i < |a| ==> Blame(b[i]) == Blame(a[i])
    requires IsBlamed(primary, a)
    ensures IsBlamed(primary, b)
  {
    JoinAlike(a, b, BLAME);
  }

  lemma CountsAlike(r: Summary, a: seq<Subject>, b: seq<Subject>)
    requires |a| == |b| && forall i :: 0 <= i < |a| ==> b[i].assessment == a[i].assessment
    requires IsCount(r, a)
    ensures IsCount(r, b)
  {
    CountAlike(a, b, HasCondition(Unknown));
    CountAlike(a, b, HasCondition(Nominal));
    CountAlike(a, b, HasCondition(Degraded));
    CountAlike(a, b, HasCondition(Faulted));
    CountAlike(a, b, IS_STALE);
  }

  lemma WorstAlike(r: Summary, a: seq<Subject>, b: seq<Subject>)
    requires |a| == |b| && forall i :: 0 <= i < |a| ==> b[i].assessment == a[i].assessment
    requires IsWorst(r, a)
    ensures IsWorst(r, b)
  {
    JoinAlike(a, b, READINESS);
    JoinAlike(a, b, FRESHNESS);
    JoinAlike(a, b, SAFETY);
  }

  lemma SummaryIgnoresReports(r: Summary, a: seq<Subject>, b: seq<Subject>, assessed: bool)
    requires |a| == |b| && (assessed ==> IsSummary(r, a))
    requires forall i :: 0 <= i < |a| ==> b[i].assessment == a[i].assessment && b[i].primary == a[i].primary
    ensures assessed ==> IsSummary(r, b)
  {
    if assessed {
      CountsAlike(r, a, b);
      WorstAlike(r, a, b);
      BlameAlike(r.primary, a, b);
    }
  }

  /** Each subject's condition and time of change are those of its last transition, and its counter counts
      its transitions. */
  ghost predicate Agrees(subjects: seq<Subject>, log: seq<Transition>)
  {
    forall k: nat :: k < |subjects| ==> AgreesOn(subjects[k], log, k)
  }

  ghost predicate AgreesOn(s: Subject, log: seq<Transition>, k: nat)
  {
    && s.assessment.condition == ConditionAfter(log, k) && s.transitions == TransitionsOf(log, k)
    && s.lastTransition == ChangedAt(log, k)
  }

  lemma AgreesStep(subjects: seq<Subject>, log: seq<Transition>, index: nat, s: Subject, log': seq<Transition>)
    requires Agrees(subjects, log) && index < |subjects|
    requires log' == log || (|log'| == |log| + 1 && log' == log + [log'[|log|]] && log'[|log|].subject == index)
    requires log' == log ==> s.assessment.condition == subjects[index].assessment.condition
                             && s.transitions == subjects[index].transitions
                             && s.lastTransition == subjects[index].lastTransition
    requires log' != log ==> s.assessment.condition == log'[|log|].current
                             && s.transitions == subjects[index].transitions + 1
                             && s.lastTransition == log'[|log|].at
    ensures Agrees(subjects[index := s], log')
  {
    var after := subjects[index := s];
    forall k: nat | k < |subjects|
      ensures AgreesOn(after[k], log', k)
    {
      assert AgreesOn(subjects[k], log, k);
      if log' != log {
        ConditionAfterSnoc(log, log'[|log|], k);
        TransitionsOfSnoc(log, log'[|log|], k);
      }
    }
  }

  /** The subjects' transition counters add up to the number of transitions ever recorded. */
  lemma CountersAddUp(subjects: seq<Subject>, log: seq<Transition>)
    requires Agrees(subjects, log) && Chained(log, |subjects|)
    ensures SumOfTransitions(subjects) == |log|
  {
    forall i | 0 <= i < |log|
      ensures log[i].subject < |subjects|
    {
      assert Fits(log, i, |subjects|);
    }
    CountsAddUp(log, |subjects|);
    SumIsTotal(subjects, log, |subjects|);
    assert subjects[..|subjects|] == subjects;
  }

  ghost function SumOfTransitions(subjects: seq<Subject>): nat
  {
    if subjects == [] then 0
    else SumOfTransitions(subjects[..|subjects| - 1]) + subjects[|subjects| - 1].transitions
  }

  lemma {:induction false} SumIsTotal(subjects: seq<Subject>, log: seq<Transition>, n: nat)
    requires Agrees(subjects, log) && n <= |subjects|
    ensures SumOfTransitions(subjects[..n]) == TotalOf(log, n)
  {
    if n > 0 {
      SumIsTotal(subjects, log, n - 1);
      assert subjects[..n][..n - 1] == subjects[..n - 1];
      assert AgreesOn(subjects[n - 1], log, n - 1);
    }
  }
}
