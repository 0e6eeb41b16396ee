/** The transition history of the health facility and what it says about its subjects
    (append_history, the transition counters and read_history in include/solar/health/facility.hpp).
 */
module HealthHistory {
  import opened Basics
  import opened Arithmetic
  import opened Sequences
  import opened HealthAggregation

  datatype Transition = Transition(
    sequence: nat,
    subject: nat,
    previous: Condition,
    current: Condition,
    at: int,
    evidence: Option<nat>)

  const BLANK: Transition := Transition(0, 0, Unknown, Unknown, 0, None)

  // ---------------------------------------------------------------- the log and its subjects

  /** The condition of a subject after a log of transitions; subjects start unknown. */
  ghost function ConditionAfter(log: seq<Transition>, subject: nat): Condition
  {
    if log == [] then Unknown
    else
      var last := log[|log| - 1];
      if last.subject == subject then last.current else ConditionAfter(log[..|log| - 1], subject)
  }

  /** When a subject last changed; 0 if it never did. */
  ghost function ChangedAt(log: seq<Transition>, subject: nat): int
  {
    if log == [] then 0
    else
      var last := log[|log| - 1];
      if last.subject == subject then last.at else ChangedAt(log[..|log| - 1], subject)
  }

  ghost function TransitionsOf(log: seq<Transition>, subject: nat): nat
  {
    Count(log, (t: Transition) => t.subject == subject)
  }

  /** Transition i has number i + 1, is a real change, and starts where its subject was. */
  ghost predicate Fits(log: seq<Transition>, i: nat, subjects: nat)
    requires i < |log|
  {
    && log[i].sequence == i + 1 && log[i].subject < subjects
    && log[i].previous != log[i].current
    && log[i].previous == ConditionAfter(log[..i], log[i].subject)
  }

  ghost predicate Chained(log: seq<Transition>, subjects: nat)
  {
    forall i: nat :: i < |log| ==> Fits(log, i, subjects)
  }

  lemma ConditionAfterSnoc(log: seq<Transition>, t: Transition, subject: nat)
    ensures ConditionAfter(log + [t], subject)
         == if t.subject == subject then t.current else ConditionAfter(log, subject)
    ensures ChangedAt(log + [t], subject) == if t.subject == subject then t.at else ChangedAt(log, subject)
  {
    assert (log + [t])[..|log|] == log;
  }

  lemma TransitionsOfSnoc(log: seq<Transition>, t: Transition, subject: nat)
    ensures TransitionsOf(log + [t], subject) == TransitionsOf(log, subject) + if t.subject == subject then 1 else 0
  {
    CountSnoc(log, t, (t: Transition) => t.subject == subject);
  }

  lemma ChainedSnoc(log: seq<Transition>, t: Transition, subjects: nat)
    requires Chained(log, subjects)
    requires t.sequence == |log| + 1 && t.subject < subjects && t.previous != t.current
    requires t.previous == ConditionAfter(log, t.subject)
    ensures Chained(log + [t], subjects)
  {
    var longer := log + [t];
    forall i: nat | i < |longer|
      ensures Fits(longer, i, subjects)
    {
      assert longer[..i] == log[..i];
      assert if i < |log| then Fits(log, i, subjects) else log[..i] == log;
    }
  }

  /** Consecutive transitions of one subject fit together: the later starts where the earlier ended. */
  lemma {:induction false} TransitionsFit(log: seq<Transition>, subjects: nat, i: nat, j: nat)
    requires Chained(log, subjects) && i < j < |log| && log[i].subject == log[j].subject
    requires forall k :: i < k < j ==> log[k].subject != log[i].subject
    ensures log[j].previous == log[i].current
  {
    assert Fits(log, j, subjects);
    LastOneCounts(log[..j], i, log[i].subject);
  }

  lemma {:induction false} LastOneCounts(log: seq<Transition>, i: nat, subject: nat)
    requires i < |log| && log[i].subject == subject
    requires forall k :: i < k < |log| ==> log[k].subject != subject
    ensures ConditionAfter(log, subject) == log[i].current
  {
    if i < |log| - 1 {
      LastOneCounts(log[..|log| - 1], i, subject);
    }
  }

  /** The transition counts of the first n subjects together. */
  ghost function TotalOf(log: seq<Transition>, n: nat): nat
  {
    if n == 0 then 0 else TotalOf(log, n - 1) + TransitionsOf(log, n - 1)
  }

  lemma {:induction false} TotalSnoc(log: seq<Transition>, t: Transition, n: nat)
    ensures TotalOf(log + [t], n) == TotalOf(log, n) + if t.subject < n then 1 else 0
  {
    if n > 0 {
      TotalSnoc(log, t, n - 1);
      TransitionsOfSnoc(log, t, n - 1);
    }
  }

  lemma {:induction false} TotalEmpty(n: nat)
    ensures TotalOf([], n) == 0
  {
    if n > 0 {
      TotalEmpty(n - 1);
    }
  }

  /** The subjects' transition counts add up to the whole log. */
  lemma {:induction false} CountsAddUp(log: seq<Transition>, subjects: nat)
    requires forall i :: 0 <= i < |log| ==> log[i].subject < subjects
    ensures TotalOf(log, subjects) == |log|
  {
    if log == [] {
      TotalEmpty(subjects);
    } else {
      var init, t := log[..|log| - 1], log[|log| - 1];
      CountsAddUp(init, subjects);
      TotalSnoc(init, t, subjects);
      assert init + [t] == log;
    }
  }

  // ---------------------------------------------------------------- the ring

  /** The ring holds the newest transitions of the log, each in the cell of its sequence number. */
  ghost predicate Holds(ring: seq<Transition>, log: seq<Transition>)
    requires |ring| > 0
  {
    forall i: nat :: i < |log| && |log| - |ring| <= i ==> InItsCell(ring, log, i)
  }

  ghost predicate InItsCell(ring: seq<Transition>, log: seq<Transition>, i: nat)
    requires |ring| > 0 && i < |log|
  {
    ring[i % |ring|] == log[i]
  }

  lemma HoldsSnoc(ring: seq<Transition>, log: seq<Transition>, t: Transition)
    requires |ring| > 0 && Holds(ring, log)
    ensures Holds(ring[|log| % |ring| := t], log + [t])
  {
    var ring', log' := ring[|log| % |ring| := t], log + [t];
    forall i: nat | i < |log'| && |log'| - |ring'| <= i
      ensures InItsCell(ring', log', i)
    {
      if i < |log| {
        RemaindersDiffer(i, |log|, |ring|);
        assert InItsCell(ring, log, i);
      }
    }
  }

  lemma HeldEntry(ring: seq<Transition>, log: seq<Transition>, i: nat)
    requires |ring| > 0 && Holds(ring, log) && i < |log| && |log| - |ring| <= i
    ensures ring[i % |ring|] == log[i]
  {
    assert InItsCell(ring, log, i);
  }

  /** The run of `count` transitions that starts with sequence number `first`. */
  ghost function Page(log: seq<Transition>, first: nat, count: nat): seq<Transition>
    requires first > 0 && (count > 0 ==> first - 1 + count <= |log|)
  {
    if count == 0 then [] else log[first - 1..first - 1 + count]
  }

  lemma PageSnoc(log: seq<Transition>, first: nat, count: nat)
    requires first > 0 && first + count <= |log|
    ensures Page(log, first, count + 1) == Page(log, first, count) + [log[first + count - 1]]
  {
  }

  class History {
    const ring: array<Transition>
    const subjects: nat
    var nextSequence: nat
    var overwritten: nat
    ghost var log: seq<Transition>

    ghost predicate Valid()
      reads this, ring
    {
      && ring.Length > 0
      && nextSequence == |log| + 1
      && overwritten == (if |log| > ring.Length then |log| - ring.Length else 0)
      && Chained(log, subjects)
      && Holds(ring[..], log)
    }

    constructor (depth: nat, subjects: nat)
      requires depth > 0
      ensures Valid() && log == [] && this.subjects == subjects && ring.Length == depth && fresh(ring)
    {
      ring := new Transition[depth](_ => BLANK);
      this.subjects := subjects;
      nextSequence := 1;
      overwritten := 0;
      log := [];
    }

    /** append_history: nothing unless the condition changed. */
    method Append(subject: nat, previous: Condition, current: Condition, at: int, evidence: Option<nat>)
      requires Valid() && subject < subjects && previous == ConditionAfter(log, subject)
      modifies this, ring
      ensures Valid()
      ensures log == if previous == current then old(log)
                     else old(log) + [Transition(|old(log)| + 1, subject, previous, current, at, evidence)]
    {
      if previous == current {
        return;
      }
      if nextSequence > ring.Length {
        overwritten := overwritten + 1;
      }
      var t := Transition(nextSequence, subject, previous, current, at, evidence);
      HoldsSnoc(ring[..], log, t);
      ChainedSnoc(log, t, subjects);
      ghost var cells := ring[..];
      ring[(nextSequence - 1) % ring.Length] := t;
      assert ring[..] == cells[|log| % |cells| := t];
      nextSequence := nextSequence + 1;
      log := log + [t];
    }

    /** The sequence number of the oldest transition still held. */
    function Oldest(): (r: nat)
      requires ring.Length > 0
      reads this
    {
      if nextSequence > ring.Length then nextSequence - ring.Length else 1
    }

    /** The cell of a sequence number holds the transition with that number. */
    method EntryAt(sequence: nat) returns (t: Transition)
      requires Valid() && Oldest() <= sequence < nextSequence
      ensures Valid() && t == log[sequence - 1] && t.sequence == sequence
    {
      HeldEntry(ring[..], log, sequence - 1);
      assert Fits(log, sequence - 1, subjects);
      t := ring[(sequence - 1) % ring.Length];
    }

    /** The copying loop of read_history. */
    method CopyRun(first: nat, limit: nat) returns (page: seq<Transition>, next: nat)
      requires Valid() && Oldest() <= first
      ensures Valid() && |page| <= limit && next == first + |page|
      ensures page != [] ==> next - 1 <= |log|
      ensures next <= |log| ==> |page| == limit
      ensures page == Page(log, first, |page|)
    {
      page, next := [], first;
      while next < nextSequence && |page| < limit
        invariant Valid() && next == first + |page| && |page| <= limit
        invariant page != [] ==> next <= nextSequence
        invariant page == Page(log, first, |page|)
      {
        var entry := EntryAt(next);
        if entry.sequence == next {
          PageSnoc(log, first, |page|);
          page := page + [entry];
        }
        next := next + 1;
      }
    }

    /** read_history: a contiguous run of the log that starts at the cursor, or at the oldest transition
        held if the cursor is older or 0, and ends at the newest or where the destination is full. */
    method Read(cursor: nat, limit: nat) returns (page: seq<Transition>, next: nat, available: nat, lost: nat)
      requires Valid()
      ensures available == (if |log| < ring.Length then |log| else ring.Length)
      ensures lost == |log| - available == overwritten
      ensures var first := if cursor <= lost then lost + 1 else cursor;
              && |page| <= limit && next == first + |page|
              && (page != [] ==> next - 1 <= |log|)
              && (next <= |log| ==> |page| == limit)
              && page == Page(log, first, |page|)
    {
      var newest, oldest := nextSequence, Oldest();
      var sequence := if cursor == 0 then oldest else cursor;
      if sequence < oldest {
        sequence := oldest;
      }
      available := newest - oldest;
      lost := overwritten;
      page, next := CopyRun(sequence, limit);
    }
  }
}
