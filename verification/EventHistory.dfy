/** Reading retained event history: the merge of the byte log with every critical history
    (read_history and latest_history in include/solar/events/runtime.hpp).
 */
module EventHistory {
  import opened Basics
  import opened EventRecords
  import opened CompactHistory
  import opened Rings

  type Rec = StoredRecord

  // ---------------------------------------------------------------- specification

  /** Every retained record is the admitted record of its number. */
  ghost predicate Numbered(stores: seq<seq<Rec>>, admitted: seq<Rec>)
  {
    forall k, i :: 0 <= k < |stores| && 0 <= i < |stores[k]| ==>
      0 < stores[k][i].header.sequence <= |admitted|
      && stores[k][i] == admitted[stores[k][i].header.sequence - 1]
  }

  /** The retained records at or after `from` that pass the filter. */
  ghost function Matching(stores: seq<seq<Rec>>, from: nat, filter: Option<nat>): set<Rec>
  {
    set k, i | 0 <= k < |stores| && 0 <= i < |stores[k]| && Matches(stores[k][i], from, filter)
      :: stores[k][i]
  }

  /** A record matches when some store holds it, it is not before the cursor, and it is of the event asked for. */
  lemma MatchingMeans(stores: seq<seq<Rec>>, from: nat, filter: Option<nat>, r: Rec)
    ensures r in Matching(stores, from, filter) <==>
              && (exists k :: 0 <= k < |stores| && r in stores[k])
              && r.header.sequence >= from && (filter.Some? ==> r.header.event == filter.value)
  {
    if k :| 0 <= k < |stores| && r in stores[k] {
      var i :| 0 <= i < |stores[k]| && stores[k][i] == r;
    }
  }

  ghost function Elems(page: seq<Rec>): set<Rec> { set r | r in page }

  ghost predicate Increasing(page: seq<Rec>)
  {
    forall i, j :: 0 <= i < j < |page| ==> page[i].header.sequence < page[j].header.sequence
  }

  /** The `room` smallest matches, in order: nothing skipped, nothing repeated. */
  ghost predicate IsPage(matches: set<Rec>, room: nat, page: seq<Rec>)
  {
    && Increasing(page)
    && (forall r :: r in page ==> r in matches)
    && |page| <= room
    && (forall r :: r in matches && r !in page ==>
          |page| == room && forall i :: 0 <= i < |page| ==> page[i].header.sequence < r.header.sequence)
  }

  ghost predicate IsLeast(matches: set<Rec>, r: Rec)
  {
    r in matches && forall x :: x in matches ==> r.header.sequence <= x.header.sequence
  }

  // ---------------------------------------------------------------- following the cursor

  lemma MatchingAfter(stores: seq<seq<Rec>>, admitted: seq<Rec>, from: nat, filter: Option<nat>, least: Rec)
    requires Numbered(stores, admitted) && IsLeast(Matching(stores, from, filter), least)
    ensures Matching(stores, least.header.sequence + 1, filter)
         == Matching(stores, from, filter) - {least}
  {
    var k0, i0 :| 0 <= k0 < |stores| && 0 <= i0 < |stores[k0]| && stores[k0][i0] == least;
    forall k, i | 0 <= k < |stores| && 0 <= i < |stores[k]| && Matches(stores[k][i], from, filter)
      ensures stores[k][i] == least || stores[k][i].header.sequence > least.header.sequence
    {
      assert stores[k][i] in Matching(stores, from, filter);
    }
  }

  /** The page's records leave the cursor's future; everything else stays in it. */
  ghost predicate Advances(stores: seq<seq<Rec>>, from: nat, next: nat, filter: Option<nat>, page: seq<Rec>)
  {
    Matching(stores, next, filter)
      == Matching(stores, from, filter) - Elems(page)
  }

  /** Pages read one after the other from an unchanged store, each from where the one before ended. */
  ghost predicate WalksUntil(stores: seq<seq<Rec>>, cursors: seq<nat>, filter: Option<nat>, pages: seq<seq<Rec>>)
  {
    && |cursors| == |pages| + 1
    && (forall n :: 0 <= n < |pages| ==>
          && IsPage(Matching(stores, cursors[n], filter), |pages[n]|, pages[n])
          && Advances(stores, cursors[n], cursors[n + 1], filter, pages[n]))
  }

  /** ... until nothing is left. */
  ghost predicate Walks(stores: seq<seq<Rec>>, cursors: seq<nat>, filter: Option<nat>, pages: seq<seq<Rec>>)
  {
    WalksUntil(stores, cursors, filter, pages) && Matching(stores, cursors[|pages|], filter) == {}
  }

  ghost function Concat(pages: seq<seq<Rec>>): seq<Rec>
  {
    if pages == [] then [] else pages[0] + Concat(pages[1..])
  }

  /** Following `next` visits every matching record once, in increasing order. */
  lemma {:induction false} WalkVisitsEachOnce(stores: seq<seq<Rec>>, cursors: seq<nat>,
                                              filter: Option<nat>, pages: seq<seq<Rec>>)
    requires Walks(stores, cursors, filter, pages)
    ensures Increasing(Concat(pages))
    ensures Elems(Concat(pages)) == Matching(stores, cursors[0], filter)
  {
    if pages != [] {
      WalkVisitsEachOnce(stores, cursors[1..], filter, pages[1..]);
      JoinPages(Matching(stores, cursors[0], filter), |pages[0]|, pages[0], Concat(pages[1..]));
    }
  }

  lemma JoinPages(matches: set<Rec>, room: nat, page: seq<Rec>, rest: seq<Rec>)
    requires IsPage(matches, room, page) && Increasing(rest)
    requires Elems(rest) == matches - Elems(page)
    ensures Increasing(page + rest) && Elems(page + rest) == matches
  {
    forall i, j | 0 <= i < |page| && 0 <= j < |rest|
      ensures page[i].header.sequence < rest[j].header.sequence
    {
      assert rest[j] in Elems(rest);
    }
    assert Elems(page + rest) == Elems(page) + Elems(rest);
    assert Elems(page) <= matches;
  }

  // ---------------------------------------------------------------- the merge

  /** No match in the list comes before the selected record. */
  ghost predicate NoLater(selected: Option<Rec>, list: seq<Rec>, from: nat, filter: Option<nat>)
  {
    forall i :: 0 <= i < |list| && Matches(list[i], from, filter) ==>
      selected.Some? && selected.value.header.sequence <= list[i].header.sequence
  }

  /** No match in the list comes after the selected record. */
  ghost predicate NoEarlier(selected: Option<Rec>, list: seq<Rec>, filter: Option<nat>)
  {
    forall i :: 0 <= i < |list| && Matches(list[i], 0, filter) ==>
      selected.Some? && list[i].header.sequence <= selected.value.header.sequence
  }

  /** The records seen so far, in order; the rest is still to come. */
  ghost predicate Scanned(matches: set<Rec>, left: set<Rec>, seen: seq<Rec>)
  {
    Increasing(seen) && (forall r :: r in seen ==> r in matches) && left == matches - Elems(seen)
  }

  /** The page is as much of what was seen as the output has room for. */
  ghost predicate Fills(page: seq<Rec>, room: nat, seen: seq<Rec>)
  {
    page <= seen && |page| <= room && (|page| < room ==> |page| == |seen|)
  }

  lemma FillsStep(page: seq<Rec>, room: nat, seen: seq<Rec>, r: Rec)
    requires Fills(page, room, seen)
    ensures Fills(if |page| < room then page + [r] else page, room, seen + [r])
  {
  }

  lemma ScanStep(matches: set<Rec>, left: set<Rec>, seen: seq<Rec>, r: Rec)
    requires Scanned(matches, left, seen) && r in left
    requires forall x :: x in seen ==> x.header.sequence < r.header.sequence
    ensures Scanned(matches, left - {r}, seen + [r])
  {
    assert Elems(seen + [r]) == Elems(seen) + {r};
  }

  ghost predicate Merged(matches: set<Rec>, left: set<Rec>, search: nat, seen: seq<Rec>)
  {
    Scanned(matches, left, seen) && forall r :: r in seen ==> r.header.sequence < search
  }

  lemma MergeStep(stores: seq<seq<Rec>>, admitted: seq<Rec>, from: nat, search: nat, filter: Option<nat>,
                  seen: seq<Rec>, r: Rec)
    requires Numbered(stores, admitted) && IsLeast(Matching(stores, search, filter), r)
    requires Merged(Matching(stores, from, filter), Matching(stores, search, filter), search, seen)
    ensures Merged(Matching(stores, from, filter), Matching(stores, r.header.sequence + 1, filter),
                   r.header.sequence + 1, seen + [r])
    ensures |Matching(stores, r.header.sequence + 1, filter)| < |Matching(stores, search, filter)|
  {
    MatchingAfter(stores, admitted, search, filter, r);
    ScanStep(Matching(stores, from, filter), Matching(stores, search, filter), seen, r);
  }

  function NextCursor(cursor: nat, page: seq<Rec>): nat
  {
    if page == [] then cursor else page[|page| - 1].header.sequence + 1
  }

  lemma {:induction false} IncreasingCount(page: seq<Rec>)
    requires Increasing(page)
    ensures |Elems(page)| == |page|
  {
    if page != [] {
      var init, last := page[..|page| - 1], page[|page| - 1];
      IncreasingCount(init);
      assert Elems(page) == Elems(init) + {last};
    }
  }

  lemma ScannedAll(matches: set<Rec>, seen: seq<Rec>, room: nat, page: seq<Rec>)
    requires Scanned(matches, {}, seen) && Fills(page, room, seen)
    ensures |matches| == |seen|
    ensures IsPage(matches, room, page)
  {
    IncreasingCount(seen);
    forall r | r in matches ensures r in seen {
      assert r in Elems(seen) || r in matches - Elems(seen);
    }
    assert matches == Elems(seen);
    forall r | r in matches && r !in page
      ensures |page| == room && forall i :: 0 <= i < |page| ==> page[i].header.sequence < r.header.sequence
    {
      var n :| 0 <= n < |seen| && seen[n] == r;
    }
  }

  lemma PageAdvances(stores: seq<seq<Rec>>, from: nat, filter: Option<nat>, room: nat, page: seq<Rec>)
    requires IsPage(Matching(stores, from, filter), room, page)
    ensures Advances(stores, from, NextCursor(from, page), filter, page)
  {
    if page != [] {
      var last := page[|page| - 1];
      var next := last.header.sequence + 1;
      var matches := Matching(stores, from, filter);
      assert last in matches;
      forall r | r in matches ensures r in page <==> !Matches(r, next, filter) {
        if r in page {
          var n :| 0 <= n < |page| && page[n] == r;
        }
      }
      assert Matching(stores, next, filter) <= matches;
    }
  }

  lemma NothingBefore(stores: seq<seq<Rec>>, admitted: seq<Rec>, from: nat, filter: Option<nat>, least: Rec)
    requires IsLeast(Matching(stores, 1, filter), least) && from < least.header.sequence
    requires Numbered(stores, admitted)
    ensures Matching(stores, least.header.sequence, filter) == Matching(stores, from, filter)
  {
    forall r | r in Matching(stores, from, filter) ensures Matches(r, least.header.sequence, filter) {
      assert r in Matching(stores, 1, filter);
    }
  }

  // ---------------------------------------------------------------- the readers

  /** The retained records of a facility: the byte log and one ring of critical history per event. */
  class Retained {
    const log: Log
    const histories: seq<FixedRing<Rec>>

    /** The log's records, then each critical history. */
    ghost var lists: seq<seq<Rec>>

    ghost predicate Valid()
      reads this, log, log.bytes
      reads set k | 0 <= k < |histories| :: histories[k]
      reads set k | 0 <= k < |histories| :: histories[k].cells
    {
      && log.Valid() && |lists| == 1 + |histories| && lists[0] == log.records
      && forall k :: 0 <= k < |histories| ==> Holds(k)
    }

    /** History k is list k + 1. */
    ghost predicate Holds(k: nat)
      requires k < |histories| && |lists| == 1 + |histories|
      reads this, histories[k], histories[k].cells
    {
      histories[k].Valid() && histories[k].contents == lists[k + 1]
    }

    constructor (log: Log, histories: seq<FixedRing<Rec>>, ghost lists: seq<seq<Rec>>)
      requires log.Valid() && |lists| == 1 + |histories| && lists[0] == log.records
      requires forall k :: 0 <= k < |histories| ==> histories[k].Valid() && histories[k].contents == lists[k + 1]
      ensures Valid() && this.log == log && this.histories == histories && this.lists == lists
    {
      this.log, this.histories, this.lists := log, histories, lists;
    }
  }

  /** The earlier of `best` and the earliest match in one critical history. */
  method EarliestIn(history: FixedRing<Rec>, from: nat, filter: Option<nat>, best: Option<Rec>)
    returns (selected: Option<Rec>)
    requires history.Valid()
    ensures NoLater(selected, history.contents, from, filter)
    ensures best.Some? ==> selected.Some? && selected.value.header.sequence <= best.value.header.sequence
    ensures selected == best
            || exists i :: 0 <= i < |history.contents| && Matches(history.contents[i], from, filter)
                           && selected == Some(history.contents[i])
  {
    ghost var records := history.contents;
    selected := best;
    for i := 0 to history.size
      invariant NoLater(selected, records[..i], from, filter)
      invariant best.Some? ==> selected.Some? && selected.value.header.sequence <= best.value.header.sequence
      invariant selected == best
                || exists j :: 0 <= j < i && Matches(records[j], from, filter) && selected == Some(records[j])
    {
      var r := history.At(i);
      assert records[..i + 1] == records[..i] + [r];
      if Matches(r, from, filter)
         && (selected.None? || r.header.sequence < selected.value.header.sequence)
      {
        selected := Some(r);
      }
    }
    assert records[..|records|] == records;
  }

  /** The selected record is the earliest match in the first k lists. */
  ghost predicate EarliestOf(selected: Option<Rec>, stores: seq<seq<Rec>>, k: nat, from: nat, filter: Option<nat>)
    requires k <= |stores|
  {
    && (selected.Some? ==> selected.value in Matching(stores, from, filter))
    && forall a :: 0 <= a < k ==> NoLater(selected, stores[a], from, filter)
  }

  lemma EarliestStep(stores: seq<seq<Rec>>, k: nat, from: nat, filter: Option<nat>, best: Option<Rec>,
                     selected: Option<Rec>)
    requires k < |stores| && EarliestOf(best, stores, k, from, filter)
    requires NoLater(selected, stores[k], from, filter)
    requires best.Some? ==> selected.Some? && selected.value.header.sequence <= best.value.header.sequence
    requires selected == best
             || exists i :: 0 <= i < |stores[k]| && Matches(stores[k][i], from, filter) && selected == Some(stores[k][i])
    ensures EarliestOf(selected, stores, k + 1, from, filter)
  {
  }

  lemma EarliestOfAll(stores: seq<seq<Rec>>, from: nat, filter: Option<nat>, selected: Option<Rec>)
    requires EarliestOf(selected, stores, |stores|, from, filter)
    ensures selected.None? <==> Matching(stores, from, filter) == {}
    ensures selected.Some? ==> IsLeast(Matching(stores, from, filter), selected.value)
  {
  }

  /** The earliest match in the log or in any critical history. */
  method Earliest(store: Retained, from: nat, filter: Option<nat>) returns (selected: Option<Rec>)
    requires store.Valid() && Increasing(store.lists[0])
    ensures store.Valid()
    ensures selected.None? <==> Matching(store.lists, from, filter) == {}
    ensures selected.Some? ==> IsLeast(Matching(store.lists, from, filter), selected.value)
  {
    ghost var stores := store.lists;
    selected := store.log.Next(from, filter);
    for k := 0 to |store.histories|
      invariant store.Valid() && EarliestOf(selected, stores, k + 1, from, filter)
    {
      ghost var best := selected;
      assert store.Holds(k);
      selected := EarliestIn(store.histories[k], from, filter, selected);
      EarliestStep(stores, k + 1, from, filter, best, selected);
    }
    EarliestOfAll(stores, from, filter, selected);
  }

  lemma MergeDone(stores: seq<seq<Rec>>, from: nat, search: nat, filter: Option<nat>, room: nat,
                  seen: seq<Rec>, page: seq<Rec>)
    requires Merged(Matching(stores, from, filter), Matching(stores, search, filter), search, seen)
    requires Matching(stores, search, filter) == {} && Fills(page, room, seen)
    ensures IsPage(Matching(stores, from, filter), room, page)
    ensures |seen| == |Matching(stores, from, filter)|
    ensures Advances(stores, from, NextCursor(from, page), filter, page)
  {
    ScannedAll(Matching(stores, from, filter), seen, room, page);
    PageAdvances(stores, from, filter, room, page);
  }

  /** The state of the merge loop: the matches before `search` were seen, and the page has the first of them. */
  ghost predicate Gathering(stores: seq<seq<Rec>>, cursor: nat, search: nat, room: nat, filter: Option<nat>,
                            seen: seq<Rec>, page: seq<Rec>, next: nat, available: nat)
  {
    && Merged(Matching(stores, cursor, filter), Matching(stores, search, filter), search, seen)
    && Fills(page, room, seen) && available == |seen| && next == NextCursor(cursor, page)
  }

  lemma GatherStep(stores: seq<seq<Rec>>, admitted: seq<Rec>, cursor: nat, search: nat, room: nat, filter: Option<nat>,
                   seen: seq<Rec>, page: seq<Rec>, next: nat, r: Rec)
    requires Numbered(stores, admitted) && IsLeast(Matching(stores, search, filter), r)
    requires Gathering(stores, cursor, search, room, filter, seen, page, next, |seen|)
    ensures var search', fits := r.header.sequence + 1, |page| < room;
            && Gathering(stores, cursor, search', room, filter, seen + [r], if fits then page + [r] else page,
                         if fits then search' else next, |seen| + 1)
            && |Matching(stores, search', filter)| < |Matching(stores, search, filter)|
  {
    MergeStep(stores, admitted, cursor, search, filter, seen, r);
    FillsStep(page, room, seen, r);
  }

  /** The merge loop: repeatedly take the earliest match past the last one. */
  method Collect(store: Retained, cursor: nat, room: nat, filter: Option<nat>,
                 ghost admitted: seq<Rec>)
    returns (page: seq<Rec>, next: nat, available: nat)
    requires store.Valid() && Increasing(store.lists[0]) && Numbered(store.lists, admitted)
    ensures store.Valid()
    ensures IsPage(Matching(store.lists, cursor, filter), room, page)
    ensures available == |Matching(store.lists, cursor, filter)|
    ensures Advances(store.lists, cursor, next, filter, page)
    ensures next == NextCursor(cursor, page)
  {
    ghost var stores := store.lists;
    ghost var seen: seq<Rec> := [];
    page, next, available := [], cursor, 0;
    var search: nat := cursor;
    while true
      invariant store.Valid() && store.lists == stores && Increasing(stores[0])
      invariant Gathering(stores, cursor, search, room, filter, seen, page, next, available)
      decreases |Matching(stores, search, filter)|
    {
      var selected := Earliest(store, search, filter);
      if selected.None? {
        break;
      }
      var r := selected.value;
      GatherStep(stores, admitted, cursor, search, room, filter, seen, page, next, r);
      available := available + 1;
      seen := seen + [r];
      search := r.header.sequence + 1;
      if |page| < room {
        page := page + [r];
        next := search;
      }
    }
    MergeDone(stores, cursor, search, filter, room, seen, page);
  }

  /** One page: the smallest matches that fit, the exact match count, and the next cursor. */
  method ReadHistory(store: Retained, cursor: nat, room: nat, filter: Option<nat>,
                     ghost admitted: seq<Rec>)
    returns (page: seq<Rec>, next: nat, available: nat, stale: bool, evictedBefore: nat)
    requires store.Valid() && Increasing(store.lists[0]) && Numbered(store.lists, admitted)
    ensures store.Valid()
    ensures IsPage(Matching(store.lists, cursor, filter), room, page)
    ensures available == |Matching(store.lists, cursor, filter)|
    ensures Advances(store.lists, cursor, next, filter, page)
    ensures page != [] ==> next == page[|page| - 1].header.sequence + 1
    ensures stale <==> store.log.evicted != 0 && Matching(store.lists, 1, filter) != {}
                       && forall r :: r in Matching(store.lists, 1, filter) ==> cursor < r.header.sequence
    ensures page == [] && !stale ==> next == cursor
    ensures stale ==>
              exists r :: (IsLeast(Matching(store.lists, 1, filter), r)
                           && evictedBefore == r.header.sequence - cursor
                           && (page == [] ==> next == r.header.sequence))
  {
    ghost var stores := store.lists;
    var oldest := Earliest(store, 1, filter);
    page, next, available := Collect(store, cursor, room, filter, admitted);
    stale, evictedBefore := false, 0;
    if oldest.Some? && cursor < oldest.value.header.sequence && store.log.evicted != 0 {
      stale, evictedBefore := true, oldest.value.header.sequence - cursor;
      if page == [] {
        next := oldest.value.header.sequence;
        NothingBefore(stores, admitted, cursor, filter, oldest.value);
      }
    }
  }

  /** A page is also the page of an output of just its size, and with room it is empty only at the end. */
  lemma PageOfItsSize(matches: set<Rec>, room: nat, page: seq<Rec>)
    requires IsPage(matches, room, page)
    ensures IsPage(matches, |page|, page)
    ensures room > 0 && page == [] ==> matches == {}
  {
  }

  lemma PageShrinks(stores: seq<seq<Rec>>, from: nat, next: nat, filter: Option<nat>, room: nat, page: seq<Rec>)
    requires IsPage(Matching(stores, from, filter), room, page) && page != []
    requires Advances(stores, from, next, filter, page)
    ensures |Matching(stores, next, filter)| < |Matching(stores, from, filter)|
  {
    var matches := Matching(stores, from, filter);
    assert page[0] in Elems(page) && page[0] in matches;
    assert Matching(stores, next, filter) <= matches - {page[0]};
    SubsetCount(Matching(stores, next, filter), matches - {page[0]});
  }

  lemma {:induction false} SubsetCount<T>(a: set<T>, b: set<T>)
    requires a <= b
    ensures |a| <= |b|
  {
    if a != {} {
      var x :| x in a;
      SubsetCount(a - {x}, b - {x});
    }
  }

  lemma WalkGrows(stores: seq<seq<Rec>>, cursors: seq<nat>, filter: Option<nat>, pages: seq<seq<Rec>>,
                  page: seq<Rec>, next: nat)
    requires WalksUntil(stores, cursors, filter, pages)
    requires IsPage(Matching(stores, cursors[|pages|], filter), |page|, page)
    requires Advances(stores, cursors[|pages|], next, filter, page)
    ensures WalksUntil(stores, cursors + [next], filter, pages + [page])
  {
    var cursors', pages' := cursors + [next], pages + [page];
    forall n | 0 <= n < |pages'|
      ensures IsPage(Matching(stores, cursors'[n], filter), |pages'[n]|, pages'[n])
      ensures Advances(stores, cursors'[n], cursors'[n + 1], filter, pages'[n])
    {
      assert n < |pages| ==> pages'[n] == pages[n];
    }
  }

  /** Reading page after page from `next` ends, and visits every matching record once, in order. */
  method FollowPages(store: Retained, cursor: nat, room: nat, filter: Option<nat>,
                     ghost admitted: seq<Rec>)
    returns (pages: seq<seq<Rec>>, cursors: seq<nat>)
    requires store.Valid() && Increasing(store.lists[0]) && Numbered(store.lists, admitted) && room > 0
    ensures Walks(store.lists, cursors, filter, pages) && cursors[0] == cursor
    ensures Increasing(Concat(pages)) && Elems(Concat(pages)) == Matching(store.lists, cursor, filter)
  {
    ghost var stores := store.lists;
    pages, cursors := [], [cursor];
    var at := cursor;
    while true
      invariant store.Valid() && store.lists == stores
      invariant WalksUntil(stores, cursors, filter, pages) && cursors[0] == cursor && cursors[|pages|] == at
      decreases |Matching(stores, at, filter)|
    {
      var page, next, _, _, _ := ReadHistory(store, at, room, filter, admitted);
      PageOfItsSize(Matching(stores, at, filter), room, page);
      if page == [] {
        break;
      }
      PageShrinks(stores, at, next, filter, room, page);
      WalkGrows(stores, cursors, filter, pages, page, next);
      pages, cursors, at := pages + [page], cursors + [next], next;
    }
    WalkVisitsEachOnce(stores, cursors, filter, pages);
  }

  /** The later of `best` and the latest match in one critical history. */
  method LatestIn(history: FixedRing<Rec>, filter: Option<nat>, best: Option<Rec>) returns (selected: Option<Rec>)
    requires history.Valid()
    ensures NoEarlier(selected, history.contents, filter)
    ensures best.Some? ==> selected.Some? && selected.value.header.sequence >= best.value.header.sequence
    ensures selected == best
            || exists i :: 0 <= i < |history.contents| && Matches(history.contents[i], 0, filter)
                           && selected == Some(history.contents[i])
  {
    ghost var records := history.contents;
    selected := best;
    for i := 0 to history.size
      invariant NoEarlier(selected, records[..i], filter)
      invariant best.Some? ==> selected.Some? && selected.value.header.sequence >= best.value.header.sequence
      invariant selected == best
                || exists j :: 0 <= j < i && Matches(records[j], 0, filter) && selected == Some(records[j])
    {
      var r := history.At(i);
      assert records[..i + 1] == records[..i] + [r];
      if Matches(r, 0, filter)
         && (selected.None? || r.header.sequence > selected.value.header.sequence)
      {
        selected := Some(r);
      }
    }
    assert records[..|records|] == records;
  }

  ghost predicate LatestOf(selected: Option<Rec>, stores: seq<seq<Rec>>, k: nat, filter: Option<nat>)
    requires k <= |stores|
  {
    && (selected.Some? ==> selected.value in Matching(stores, 0, filter))
    && forall a :: 0 <= a < k ==> NoEarlier(selected, stores[a], filter)
  }

  lemma LatestStep(stores: seq<seq<Rec>>, k: nat, filter: Option<nat>, best: Option<Rec>, selected: Option<Rec>)
    requires k < |stores| && LatestOf(best, stores, k, filter)
    requires NoEarlier(selected, stores[k], filter)
    requires best.Some? ==> selected.Some? && selected.value.header.sequence >= best.value.header.sequence
    requires selected == best
             || exists i :: 0 <= i < |stores[k]| && Matches(stores[k][i], 0, filter) && selected == Some(stores[k][i])
    ensures LatestOf(selected, stores, k + 1, filter)
  {
  }

  lemma LatestOfAll(stores: seq<seq<Rec>>, filter: Option<nat>, selected: Option<Rec>)
    requires LatestOf(selected, stores, |stores|, filter)
    ensures selected.None? <==> Matching(stores, 0, filter) == {}
    ensures selected.Some? ==>
              forall r :: r in Matching(stores, 0, filter) ==> r.header.sequence <= selected.value.header.sequence
  {
  }

  lemma LatestInLog(stores: seq<seq<Rec>>, filter: Option<nat>)
    requires stores != [] && Increasing(stores[0])
    ensures LatestOf(LastMatch(stores[0], filter), stores, 1, filter)
  {
  }

  /** The newest match in the log or in any critical history. */
  method LatestHistory(store: Retained, filter: Option<nat>) returns (selected: Option<Rec>)
    requires store.Valid() && Increasing(store.lists[0])
    ensures selected.None? <==> Matching(store.lists, 0, filter) == {}
    ensures selected.Some? ==>
              && selected.value in Matching(store.lists, 0, filter)
              && forall r :: r in Matching(store.lists, 0, filter) ==>
                   r.header.sequence <= selected.value.header.sequence
  {
    ghost var stores := store.lists;
    selected := store.log.Latest(filter);
    LatestInLog(stores, filter);
    for k := 0 to |store.histories|
      invariant store.Valid() && LatestOf(selected, stores, k + 1, filter)
    {
      ghost var best := selected;
      assert store.Holds(k);
      selected := LatestIn(store.histories[k], filter, selected);
      LatestStep(stores, k + 1, filter, best, selected);
    }
    LatestOfAll(stores, filter, selected);
  }
}
