/** Per-source condition tracking of processed event records
    (process_record_for in include/solar/events/runtime.hpp).
 */
module ConditionTracking {
  import opened Basics
  import opened EventRecords

  type Rec = StoredRecord

  datatype Entry = Entry(
    occupied: bool,
    source: Source,
    consecutive: nat,
    lastSequence: nat,
    lastTimestamp: int,
    active: bool)

  datatype Table = Table(entries: seq<Entry>, conditionActive: bool, consecutive: nat)

  const FREE := Entry(false, Source(0, 0), 0, 0, 0, false)

  // ---------------------------------------------------------------- one record

  predicate Holds(e: Entry, source: Source) { e.occupied && e.source == source }

  /** The first entry of the source, else the first free entry, else none. */
  ghost predicate IsChoice(entries: seq<Entry>, source: Source, r: Option<nat>)
  {
    if exists i :: 0 <= i < |entries| && Holds(entries[i], source) then
      && r.Some? && r.value < |entries| && Holds(entries[r.value], source)
      && forall i :: 0 <= i < r.value ==> !Holds(entries[i], source)
    else if exists i :: 0 <= i < |entries| && !entries[i].occupied then
      && r.Some? && r.value < |entries| && !entries[r.value].occupied
      && forall i :: 0 <= i < r.value ==> entries[i].occupied
    else r.None?
  }

  function FindEntry(entries: seq<Entry>, source: Source): (r: Option<nat>)
    ensures IsChoice(entries, source, r)
  {
    if entries == [] then None
    else if Holds(entries[0], source) then Some(0)
    else
      var rest := FindEntry(entries[1..], source);
      assert forall i :: 1 <= i < |entries| ==> entries[i] == entries[1..][i - 1];
      assert forall i :: 0 <= i < |entries[1..]| ==> entries[1..][i] == entries[i + 1];
      if !entries[0].occupied && (rest.None? || !entries[rest.value + 1].occupied) then Some(0)
      else if rest.None? then None
      else Some(rest.value + 1)
  }

  /** The record's own event: its source becomes active and counts one more. */
  function Touch(t: Table, r: Rec): Table
  {
    var found := FindEntry(t.entries, r.header.source);
    if found.None? then t
    else
      var n := t.entries[found.value].consecutive + 1;
      Table(t.entries[found.value := Entry(true, r.header.source, n, r.header.sequence,
                                           r.header.timestamp, true)],
            true, n)
  }

  function Quiet(e: Entry, source: Source): Entry
  {
    if e.occupied && e.source == source then e.(active := false, consecutive := 0) else e
  }

  function QuietAll(entries: seq<Entry>, source: Source): (r: seq<Entry>)
    ensures |r| == |entries|
    ensures forall i :: 0 <= i < |r| ==> r[i] == Quiet(entries[i], source)
  {
    if entries == [] then [] else QuietAll(entries[..|entries| - 1], source) + [Quiet(entries[|entries| - 1], source)]
  }

  predicate AnyActive(entries: seq<Entry>)
  {
    exists i :: 0 <= i < |entries| && entries[i].occupied && entries[i].active
  }

  /** The event it resolves, if any: the source's condition ends there. */
  function Resolve(t: Table, source: Source): Table
  {
    var entries := QuietAll(t.entries, source);
    var any := AnyActive(entries);
    Table(entries, any, if any then t.consecutive else 0)
  }

  function Process(resolves: seq<Option<nat>>, tables: seq<Table>, r: Rec): (t: seq<Table>)
    ensures |t| == |tables|
  {
    if r.header.event >= |tables| then tables
    else
      var touched := tables[r.header.event := Touch(tables[r.header.event], r)];
      if r.header.event < |resolves| && resolves[r.header.event].Some?
         && resolves[r.header.event].value < |tables|
      then
        var target := resolves[r.header.event].value;
        touched[target := Resolve(touched[target], r.header.source)]
      else touched
  }

  // ---------------------------------------------------------------- the tracker

  class Tracker {
    const resolves: seq<Option<nat>>
    var tables: seq<Table>

    constructor (resolves: seq<Option<nat>>, capacity: nat)
      ensures this.resolves == resolves && tables == Initial(|resolves|, capacity)
    {
      this.resolves := resolves;
      tables := Initial(|resolves|, capacity);
    }

    method Record(r: Rec)
      requires r.header.event < |tables| == |resolves|
      requires resolves[r.header.event].Some? ==> resolves[r.header.event].value < |tables|
      modifies this`tables
      ensures tables == Process(resolves, old(tables), r)
    {
      var table := tables[r.header.event];
      var found := Find(table.entries, r.header.source);
      if found.Some? {
        var n := table.entries[found.value].consecutive + 1;
        var entry := Entry(true, r.header.source, n, r.header.sequence, r.header.timestamp, true);
        table := Table(table.entries[found.value := entry], true, n);
      }
      tables := tables[r.header.event := table];
      if resolves[r.header.event].Some? {
        var target := resolves[r.header.event].value;
        var entries, any := Clear(tables[target].entries, r.header.source);
        tables := tables[target := Table(entries, any, if any then tables[target].consecutive else 0)];
      }
    }

    /** The search loop: stop at the source, remember the first free entry. */
    static method Find(entries: seq<Entry>, source: Source) returns (found: Option<nat>)
      ensures found == FindEntry(entries, source)
    {
      found := None;
      for i := 0 to |entries|
        invariant forall j :: 0 <= j < i ==> !Holds(entries[j], source)
        invariant found.None? ==> forall j :: 0 <= j < i ==> entries[j].occupied
        invariant found.Some? ==> found.value < i && !entries[found.value].occupied
                                  && forall j :: 0 <= j < found.value ==> entries[j].occupied
      {
        if Holds(entries[i], source) {
          return Some(i);
        }
        if found.None? && !entries[i].occupied {
          found := Some(i);
        }
      }
    }

    static method Clear(entries: seq<Entry>, source: Source) returns (cleared: seq<Entry>, any: bool)
      ensures cleared == QuietAll(entries, source)
      ensures any == AnyActive(cleared)
    {
      cleared, any := [], false;
      for i := 0 to |entries|
        invariant |cleared| == i && any == AnyActive(cleared)
        invariant forall j :: 0 <= j < i ==> cleared[j] == Quiet(entries[j], source)
      {
        var entry := entries[i];
        if entry.occupied && entry.source == source {
          entry := entry.(active := false, consecutive := 0);
        }
        assert (cleared + [entry])[i] == entry;
        assert forall j :: 0 <= j < i ==> (cleared + [entry])[j] == cleared[j];
        cleared := cleared + [entry];
        any := any || (entry.occupied && entry.active);
      }
    }
  }

  // ---------------------------------------------------------------- what the tables mean

  function Initial(events: nat, capacity: nat): seq<Table>
  {
    seq(events, _ => Table(seq(capacity, _ => FREE), false, 0))
  }

  function After(resolves: seq<Option<nat>>, capacity: nat, log: seq<Rec>): (t: seq<Table>)
    ensures |t| == |resolves|
  {
    if log == [] then Initial(|resolves|, capacity)
    else Process(resolves, After(resolves, capacity, log[..|log| - 1]), log[|log| - 1])
  }

  predicate Resolves(resolves: seq<Option<nat>>, r: Rec, event: nat)
  {
    r.header.event < |resolves| && resolves[r.header.event] == Some(event)
  }

  /** Records of the event from the source since the source's last resolving record. */
  function CountSince(resolves: seq<Option<nat>>, log: seq<Rec>, event: nat, source: Source): nat
  {
    if log == [] then 0
    else
      var r := log[|log| - 1];
      var before := CountSince(resolves, log[..|log| - 1], event, source);
      if r.header.source != source then before
      else if Resolves(resolves, r, event) then 0
      else if r.header.event == event then before + 1
      else before
  }

  /** The first `capacity` sources of the event, in order of first appearance. */
  function Tracked(log: seq<Rec>, event: nat, capacity: nat): (t: seq<Source>)
    ensures |t| <= capacity
    ensures forall i, j :: 0 <= i < j < |t| ==> t[i] != t[j]
  {
    if log == [] then []
    else
      var r := log[|log| - 1];
      var before := Tracked(log[..|log| - 1], event, capacity);
      if r.header.event == event && r.header.source !in before && |before| < capacity
      then before + [r.header.source] else before
  }

  /** The table tracks these sources, in this order, with these counts. */
  ghost predicate Says(t: Table, tracked: seq<Source>, counts: seq<nat>)
  {
    && |tracked| == |counts| <= |t.entries|
    && (forall i :: 0 <= i < |tracked| ==>
          t.entries[i].occupied && t.entries[i].source == tracked[i] && t.entries[i].consecutive == counts[i]
          && (t.entries[i].active <==> counts[i] > 0))
    && (forall i :: |tracked| <= i < |t.entries| ==>
          !t.entries[i].occupied && t.entries[i].consecutive == 0)
    && (t.conditionActive <==> AnyActive(t.entries))
    && (t.conditionActive <==> t.consecutive > 0)
  }

  lemma TouchKnown(t: Table, tracked: seq<Source>, counts: seq<nat>, r: Rec, k: nat)
    requires Says(t, tracked, counts) && k < |tracked| && tracked[k] == r.header.source
    requires forall i :: 0 <= i < |tracked| && i != k ==> tracked[i] != tracked[k]
    ensures Says(Touch(t, r), tracked, counts[k := counts[k] + 1])
  {
    assert Holds(t.entries[k], r.header.source);
    assert FindEntry(t.entries, r.header.source) == Some(k);
    assert Touch(t, r).entries[k].active;
  }

  lemma TouchNew(t: Table, tracked: seq<Source>, counts: seq<nat>, r: Rec)
    requires Says(t, tracked, counts) && r.header.source !in tracked && |tracked| < |t.entries|
    ensures Says(Touch(t, r), tracked + [r.header.source], counts + [1])
  {
    assert !t.entries[|tracked|].occupied;
    assert FindEntry(t.entries, r.header.source) == Some(|tracked|);
    assert Touch(t, r).entries[|tracked|].active;
  }

  lemma TouchFull(t: Table, tracked: seq<Source>, counts: seq<nat>, r: Rec)
    requires Says(t, tracked, counts) && r.header.source !in tracked && |tracked| == |t.entries|
    ensures Touch(t, r) == t
  {
  }

  /** One more record of the source: its count goes up, or it is newly tracked if there is room. */
  ghost predicate Grows(tracked: seq<Source>, counts: seq<nat>, source: Source, room: nat,
                        tracked': seq<Source>, counts': seq<nat>)
  {
    && |counts| == |tracked|
    && if source in tracked then
         && tracked' == tracked && |counts'| == |counts|
         && forall i :: 0 <= i < |counts| ==> counts'[i] == counts[i] + (if tracked[i] == source then 1 else 0)
       else if |tracked| < room then tracked' == tracked + [source] && counts' == counts + [1]
       else tracked' == tracked && counts' == counts
  }

  ghost predicate Distinct(tracked: seq<Source>)
  {
    forall i, j :: 0 <= i < j < |tracked| ==> tracked[i] != tracked[j]
  }

  lemma TouchGrows(t: Table, tracked: seq<Source>, counts: seq<nat>,
                   tracked': seq<Source>, counts': seq<nat>, r: Rec)
    requires Says(t, tracked, counts) && Distinct(tracked)
    requires Grows(tracked, counts, r.header.source, |t.entries|, tracked', counts')
    ensures Says(Touch(t, r), tracked', counts')
  {
    if r.header.source in tracked {
      var k :| 0 <= k < |tracked| && tracked[k] == r.header.source;
      TouchKnown(t, tracked, counts, r, k);
      assert counts' == counts[k := counts[k] + 1];
    } else if |tracked| < |t.entries| {
      TouchNew(t, tracked, counts, r);
    } else {
      TouchFull(t, tracked, counts, r);
    }
  }

  lemma ResolveSays(t: Table, tracked: seq<Source>, counts: seq<nat>, counts': seq<nat>, source: Source)
    requires Says(t, tracked, counts) && |counts'| == |counts|
    requires forall i :: 0 <= i < |counts| ==> counts'[i] == if tracked[i] == source then 0 else counts[i]
    ensures Says(Resolve(t, source), tracked, counts')
  {
    var t' := Resolve(t, source);
    if AnyActive(t'.entries) {
      var i :| 0 <= i < |t'.entries| && t'.entries[i].occupied && t'.entries[i].active;
      assert t.entries[i].active;
    }
  }

  function Counts(resolves: seq<Option<nat>>, log: seq<Rec>, event: nat, tracked: seq<Source>): (c: seq<nat>)
    ensures |c| == |tracked|
    ensures forall i :: 0 <= i < |c| ==> c[i] == CountSince(resolves, log, event, tracked[i])
  {
    if tracked == [] then []
    else
      var n := |tracked| - 1;
      Counts(resolves, log, event, tracked[..n]) + [CountSince(resolves, log, event, tracked[n])]
  }

  /** The table of one event says exactly what the processed log says: each tracked source counts
      its records since it was last resolved, and the event is active when some source is. */
  ghost predicate Faithful(resolves: seq<Option<nat>>, log: seq<Rec>, event: nat, capacity: nat, t: Table)
  {
    var tracked := Tracked(log, event, capacity);
    |t.entries| == capacity && Says(t, tracked, Counts(resolves, log, event, tracked))
  }

  /** A source that never sent the event has nothing to count. */
  lemma {:induction false} UnseenCountsNothing(resolves: seq<Option<nat>>, log: seq<Rec>, event: nat,
                                               capacity: nat, source: Source)
    requires source !in Tracked(log, event, capacity) && |Tracked(log, event, capacity)| < capacity
    ensures CountSince(resolves, log, event, source) == 0
  {
    if log != [] {
      UnseenCountsNothing(resolves, log[..|log| - 1], event, capacity, source);
    }
  }

  /** Counts after the record's own event was touched, before any resolution. */
  function Bumped(resolves: seq<Option<nat>>, log: seq<Rec>, r: Rec, event: nat, tracked: seq<Source>): (c: seq<nat>)
    ensures |c| == |tracked|
    ensures forall i :: 0 <= i < |c| ==>
              c[i] == CountSince(resolves, log, event, tracked[i])
                      + if r.header.event == event && tracked[i] == r.header.source then 1 else 0
  {
    if tracked == [] then []
    else
      var n := |tracked| - 1;
      Bumped(resolves, log, r, event, tracked[..n])
        + [CountSince(resolves, log, event, tracked[n])
           + if r.header.event == event && tracked[n] == r.header.source then 1 else 0]
  }

  lemma TrackedSnoc(log: seq<Rec>, r: Rec, event: nat, capacity: nat)
    ensures var tracked := Tracked(log, event, capacity);
            Tracked(log + [r], event, capacity)
              == if r.header.event == event && r.header.source !in tracked && |tracked| < capacity
                 then tracked + [r.header.source] else tracked
  {
    assert (log + [r])[..|log|] == log;
  }

  lemma LogGrows(resolves: seq<Option<nat>>, log: seq<Rec>, r: Rec, event: nat, capacity: nat)
    requires r.header.event == event
    ensures var tracked, tracked' := Tracked(log, event, capacity), Tracked(log + [r], event, capacity);
      Grows(tracked, Counts(resolves, log, event, tracked), r.header.source, capacity,
            tracked', Bumped(resolves, log, r, event, tracked'))
  {
    TrackedSnoc(log, r, event, capacity);
    var tracked := Tracked(log, event, capacity);
    if r.header.source !in tracked && |tracked| < capacity {
      UnseenCountsNothing(resolves, log, event, capacity, r.header.source);
    }
  }

  /** Resolution turns the counts after the touch into the counts of the longer log. */
  lemma LogResolves(resolves: seq<Option<nat>>, log: seq<Rec>, r: Rec, event: nat, tracked: seq<Source>)
    ensures var bumped, counts := Bumped(resolves, log, r, event, tracked),
                                  Counts(resolves, log + [r], event, tracked);
      forall i :: 0 <= i < |tracked| ==>
        counts[i] == if Resolves(resolves, r, event) && tracked[i] == r.header.source then 0 else bumped[i]
  {
    assert (log + [r])[..|log|] == log;
  }

  /** The first half of a step: the record's own event is touched. */
  lemma FaithfulTouch(resolves: seq<Option<nat>>, t: Table, log: seq<Rec>, r: Rec, event: nat, capacity: nat)
    requires event < |resolves| && Faithful(resolves, log, event, capacity, t)
    ensures var tracked := Tracked(log + [r], event, capacity);
            Says(if r.header.event == event then Touch(t, r) else t, tracked,
                 Bumped(resolves, log, r, event, tracked))
  {
    var tracked := Tracked(log + [r], event, capacity);
    var bumped := Bumped(resolves, log, r, event, tracked);
    if r.header.event == event {
      var before := Tracked(log, event, capacity);
      LogGrows(resolves, log, r, event, capacity);
      TouchGrows(t, before, Counts(resolves, log, event, before), tracked, bumped, r);
    } else {
      TrackedSnoc(log, r, event, capacity);
      assert bumped == Counts(resolves, log, event, tracked);
    }
  }

  /** What processing one record does to the table of one event. */
  lemma ProcessAt(resolves: seq<Option<nat>>, tables: seq<Table>, r: Rec, event: nat)
    requires event < |resolves| == |tables|
    ensures var t := if r.header.event == event then Touch(tables[event], r) else tables[event];
            Process(resolves, tables, r)[event] == if Resolves(resolves, r, event) then Resolve(t, r.header.source) else t
    ensures |Process(resolves, tables, r)[event].entries| == |tables[event].entries|
  {
  }

  /** The second half of a step: the source's condition ends where the record resolves it. */
  lemma FaithfulResolve(resolves: seq<Option<nat>>, t: Table, log: seq<Rec>, r: Rec, event: nat, tracked: seq<Source>)
    requires Says(t, tracked, Bumped(resolves, log, r, event, tracked))
    ensures Says(if Resolves(resolves, r, event) then Resolve(t, r.header.source) else t, tracked,
                 Counts(resolves, log + [r], event, tracked))
  {
    var bumped, counts := Bumped(resolves, log, r, event, tracked), Counts(resolves, log + [r], event, tracked);
    LogResolves(resolves, log, r, event, tracked);
    if Resolves(resolves, r, event) {
      ResolveSays(t, tracked, bumped, counts, r.header.source);
    } else {
      assert counts == bumped;
    }
  }

  lemma FaithfulStep(resolves: seq<Option<nat>>, tables: seq<Table>, log: seq<Rec>, r: Rec, event: nat,
                     capacity: nat)
    requires event < |resolves| == |tables|
    requires Faithful(resolves, log, event, capacity, tables[event])
    ensures Faithful(resolves, log + [r], event, capacity, Process(resolves, tables, r)[event])
  {
    ProcessAt(resolves, tables, r, event);
    FaithfulTouch(resolves, tables[event], log, r, event, capacity);
    FaithfulResolve(resolves, if r.header.event == event then Touch(tables[event], r) else tables[event],
                    log, r, event, Tracked(log + [r], event, capacity));
  }

  /** For every processed log, every event and every configuration of recoveries. */
  lemma {:induction false} TablesAreFaithful(resolves: seq<Option<nat>>, capacity: nat, log: seq<Rec>, event: nat)
    requires event < |resolves|
    ensures Faithful(resolves, log, event, capacity, After(resolves, capacity, log)[event])
  {
    if log != [] {
      var before := log[..|log| - 1];
      TablesAreFaithful(resolves, capacity, before, event);
      FaithfulStep(resolves, After(resolves, capacity, before), before, log[|log| - 1], event, capacity);
      assert before + [log[|log| - 1]] == log;
    }
  }

  // ---------------------------------------------------------------- the latest record

  /** The last record of the event from the source. */
  function LatestFrom(log: seq<Rec>, event: nat, source: Source): Option<Rec>
  {
    if log == [] then None
    else
      var r := log[|log| - 1];
      if r.header.event == event && r.header.source == source then Some(r)
      else LatestFrom(log[..|log| - 1], event, source)
  }

  /** What the source of the event's last tracked record counted with that record. */
  function CountAtLatest(resolves: seq<Option<nat>>, log: seq<Rec>, event: nat, capacity: nat): nat
  {
    if log == [] then 0
    else
      var r, before := log[|log| - 1], log[..|log| - 1];
      if r.header.event == event && r.header.source in Tracked(log, event, capacity)
      then CountSince(resolves, before, event, r.header.source) + 1
      else CountAtLatest(resolves, before, event, capacity)
  }

  ghost predicate Remembers(e: Entry, latest: Option<Rec>)
  {
    latest.Some? && e.lastSequence == latest.value.header.sequence && e.lastTimestamp == latest.value.header.timestamp
  }

  /** Each tracked source remembers its last record. While some source is active the event counts what
      the source of its last record counted then, and nothing otherwise. */
  ghost predicate Recent(resolves: seq<Option<nat>>, log: seq<Rec>, event: nat, capacity: nat, t: Table)
  {
    var tracked := Tracked(log, event, capacity);
    && |t.entries| == capacity
    && (forall i :: 0 <= i < |tracked| ==> Remembers(t.entries[i], LatestFrom(log, event, tracked[i])))
    && t.consecutive == if t.conditionActive then CountAtLatest(resolves, log, event, capacity) else 0
  }

  lemma LatestSnoc(log: seq<Rec>, r: Rec, event: nat, source: Source)
    ensures LatestFrom(log + [r], event, source)
         == if r.header.event == event && r.header.source == source then Some(r) else LatestFrom(log, event, source)
  {
    assert (log + [r])[..|log|] == log;
  }

  lemma CountAtLatestSnoc(resolves: seq<Option<nat>>, log: seq<Rec>, r: Rec, event: nat, capacity: nat)
    ensures CountAtLatest(resolves, log + [r], event, capacity)
         == if r.header.event == event && r.header.source in Tracked(log + [r], event, capacity)
            then CountSince(resolves, log, event, r.header.source) + 1
            else CountAtLatest(resolves, log, event, capacity)
  {
    assert (log + [r])[..|log|] == log;
  }

  /** Where the touched source is found. */
  lemma TouchAt(resolves: seq<Option<nat>>, t: Table, log: seq<Rec>, r: Rec, event: nat, capacity: nat) returns (k: Option<nat>)
    requires Faithful(resolves, log, event, capacity, t) && r.header.event == event
    ensures k == FindEntry(t.entries, r.header.source)
    ensures var tracked' := Tracked(log + [r], event, capacity);
      && |tracked'| <= |t.entries|
      && (k.None? ==> r.header.source !in tracked' && tracked' == Tracked(log, event, capacity))
      && (k.Some? ==> k.value < |tracked'| && tracked'[k.value] == r.header.source && k.value < |t.entries|
                      && t.entries[k.value].consecutive == CountSince(resolves, log, event, r.header.source))
  {
    TrackedSnoc(log, r, event, capacity);
    var tracked := Tracked(log, event, capacity);
    k := FindEntry(t.entries, r.header.source);
    if r.header.source in tracked {
      var i :| 0 <= i < |tracked| && tracked[i] == r.header.source;
      assert Holds(t.entries[i], r.header.source);
    } else if |tracked| < capacity {
      assert !t.entries[|tracked|].occupied;
      UnseenCountsNothing(resolves, log, event, capacity, r.header.source);
    }
  }

  lemma RemembersTouch(resolves: seq<Option<nat>>, t: Table, log: seq<Rec>, r: Rec, event: nat, capacity: nat, i: nat)
    requires Faithful(resolves, log, event, capacity, t) && Recent(resolves, log, event, capacity, t)
    requires r.header.event == event && i < |Tracked(log + [r], event, capacity)|
    ensures Remembers(Touch(t, r).entries[i], LatestFrom(log + [r], event, Tracked(log + [r], event, capacity)[i]))
  {
    var tracked, tracked' := Tracked(log, event, capacity), Tracked(log + [r], event, capacity);
    LatestSnoc(log, r, event, tracked'[i]);
    var k := TouchAt(resolves, t, log, r, event, capacity);
    if k.None? || i != k.value {
      assert tracked'[i] != r.header.source;
      TrackedSnoc(log, r, event, capacity);
      assert Remembers(t.entries[i], LatestFrom(log, event, tracked[i]));
    }
  }

  lemma RecentOwn(resolves: seq<Option<nat>>, t: Table, log: seq<Rec>, r: Rec, event: nat, capacity: nat)
    requires Faithful(resolves, log, event, capacity, t) && Recent(resolves, log, event, capacity, t)
    requires r.header.event == event
    ensures Recent(resolves, log + [r], event, capacity, Touch(t, r))
  {
    var tracked' := Tracked(log + [r], event, capacity);
    forall i | 0 <= i < |tracked'|
      ensures Remembers(Touch(t, r).entries[i], LatestFrom(log + [r], event, tracked'[i]))
    {
      RemembersTouch(resolves, t, log, r, event, capacity, i);
    }
    var k := TouchAt(resolves, t, log, r, event, capacity);
    CountAtLatestSnoc(resolves, log, r, event, capacity);
  }

  lemma RecentOther(resolves: seq<Option<nat>>, t: Table, log: seq<Rec>, r: Rec, event: nat, capacity: nat)
    requires Recent(resolves, log, event, capacity, t) && r.header.event != event
    ensures Recent(resolves, log + [r], event, capacity, t)
  {
    var tracked := Tracked(log, event, capacity);
    TrackedSnoc(log, r, event, capacity);
    CountAtLatestSnoc(resolves, log, r, event, capacity);
    forall i | 0 <= i < |tracked|
      ensures Remembers(t.entries[i], LatestFrom(log + [r], event, tracked[i]))
    {
      LatestSnoc(log, r, event, tracked[i]);
    }
  }

  lemma RecentResolve(resolves: seq<Option<nat>>, t: Table, log: seq<Rec>, event: nat, capacity: nat, source: Source)
    requires Recent(resolves, log, event, capacity, t)
    requires AnyActive(QuietAll(t.entries, source)) ==> t.conditionActive
    ensures Recent(resolves, log, event, capacity, Resolve(t, source))
  {
  }

  lemma QuietActive(t: Table, source: Source)
    requires t.conditionActive <==> AnyActive(t.entries)
    ensures AnyActive(QuietAll(t.entries, source)) ==> t.conditionActive
  {
    var entries := QuietAll(t.entries, source);
    if AnyActive(entries) {
      var i :| 0 <= i < |entries| && entries[i].occupied && entries[i].active;
      assert t.entries[i].occupied && t.entries[i].active;
    }
  }

  lemma RecentStep(resolves: seq<Option<nat>>, tables: seq<Table>, log: seq<Rec>, r: Rec, event: nat, capacity: nat)
    requires event < |resolves| == |tables|
    requires Faithful(resolves, log, event, capacity, tables[event])
    requires Recent(resolves, log, event, capacity, tables[event])
    ensures Recent(resolves, log + [r], event, capacity, Process(resolves, tables, r)[event])
  {
    ProcessAt(resolves, tables, r, event);
    var t := if r.header.event == event then Touch(tables[event], r) else tables[event];
    if r.header.event == event {
      RecentOwn(resolves, tables[event], log, r, event, capacity);
    } else {
      RecentOther(resolves, tables[event], log, r, event, capacity);
    }
    FaithfulTouch(resolves, tables[event], log, r, event, capacity);
    QuietActive(t, r.header.source);
    if Resolves(resolves, r, event) {
      RecentResolve(resolves, t, log + [r], event, capacity, r.header.source);
    }
  }

  /** For every processed log, every event and every configuration of recoveries. */
  lemma {:induction false} TablesRememberTheLatest(resolves: seq<Option<nat>>, capacity: nat, log: seq<Rec>, event: nat)
    requires event < |resolves|
    ensures Recent(resolves, log, event, capacity, After(resolves, capacity, log)[event])
  {
    if log != [] {
      var before := log[..|log| - 1];
      TablesAreFaithful(resolves, capacity, before, event);
      TablesRememberTheLatest(resolves, capacity, before, event);
      RecentStep(resolves, After(resolves, capacity, before), before, log[|log| - 1], event, capacity);
      assert before + [log[|log| - 1]] == log;
    }
  }
}
