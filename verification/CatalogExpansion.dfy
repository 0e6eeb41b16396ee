/** Collection and expansion of catalog declarations (include/solar/catalog/collection.hpp).

    The finite map `expand` says which declarations expand and into what; a failed static assertion is
    the answer None.
 */
module CatalogExpansion {
  import opened Basics
  import opened CatalogGraph

  /** How a declaration came into the catalog. */
  datatype Origin<D> = Direct | Contribution(component: nat) | Expansion(from: Origin<D>, declaration: D)

  /** `component` is None for declarations of the application itself. */
  datatype Pending<D> = Pending(declaration: D, component: Option<nat>, origin: Origin<D>)

  datatype Entry<D> = Entry(pending: Pending<D>, localId: nat)

  function Wrap<D>(declarations: seq<D>, component: Option<nat>, origin: Origin<D>): seq<Pending<D>>
  {
    seq(|declarations|, i requires 0 <= i < |declarations| => Pending(declarations[i], component, origin))
  }

  /** What an expanding entry is replaced by. */
  function Below<D>(expand: map<D, seq<D>>, p: Pending<D>): seq<Pending<D>>
    requires p.declaration in expand
  {
    Wrap(expand[p.declaration], p.component, Expansion(p.origin, p.declaration))
  }

  /** ExpandPending: an expanding declaration may not be among those being expanded. */
  function ExpandOne<D>(expand: map<D, seq<D>>, seen: seq<D>, p: Pending<D>): Option<seq<Pending<D>>>
    decreases Fresh(expand.Keys, seen), 1, 0
  {
    if p.declaration !in expand then Some([p])
    else if p.declaration in seen then None
    else
      NotOnPathShrinks(expand.Keys, seen, p.declaration);
      ExpandList(expand, seen + [p.declaration], Below(expand, p))
  }

  /** ExpandPendingList. */
  function ExpandList<D>(expand: map<D, seq<D>>, seen: seq<D>, list: seq<Pending<D>>): Option<seq<Pending<D>>>
    decreases Fresh(expand.Keys, seen), 2, |list|
  {
    if list == [] then Some([])
    else
      var head, tail := ExpandOne(expand, seen, list[0]), ExpandList(expand, seen, list[1..]);
      if head.None? || tail.None? then None else Some(head.value + tail.value)
  }

  // ---------------------------------------------------------------- when expansion succeeds

  /** The successor lists of the expansion relation; declarations that do not expand have none. */
  function Successors<D>(expand: map<D, seq<D>>): D -> seq<D>
  {
    (d: D) => if d in expand then expand[d] else []
  }

  lemma {:induction false} ListSucceeds<D>(expand: map<D, seq<D>>, seen: seq<D>, list: seq<Pending<D>>)
    ensures ExpandList(expand, seen, list).Some?
            <==> (forall i :: 0 <= i < |list| ==> ExpandOne(expand, seen, list[i]).Some?)
    decreases |list|
  {
    if list != [] {
      ListSucceeds(expand, seen, list[1..]);
      if ExpandList(expand, seen, list).Some? {
        forall i | 0 <= i < |list|
          ensures ExpandOne(expand, seen, list[i]).Some?
        {
          assert i > 0 ==> list[i] == list[1..][i - 1];
        }
      }
    }
  }

  /** Along a walk of expanding declarations from a successful entry, nothing is met twice. */
  lemma {:induction false} WalksNeverRepeat<D(!new)>(expand: map<D, seq<D>>, seen: seq<D>, p: Pending<D>, w: seq<D>)
    requires ExpandOne(expand, seen, p).Some? && Walk(Successors(expand), p.declaration, w)
    ensures forall i :: 0 <= i < |w| && w[i] in expand ==> w[i] !in seen
    ensures forall i, j :: 0 <= i < j < |w| ==> w[i] != w[j]
    decreases |w|
  {
    if |w| > 1 {
      var d := p.declaration;
      WalkTail(Successors(expand), d, w);
      ListSucceeds(expand, seen + [d], Below(expand, p));
      var k :| 0 <= k < |expand[d]| && expand[d][k] == w[1];
      WalksNeverRepeat(expand, seen + [d], Below(expand, p)[k], w[1..]);
      forall i | 0 < i < |w|
        ensures (w[i] in expand ==> w[i] !in seen) && w[i] != d
      {
        assert w[i] == w[1..][i - 1];
        assert w[i] in expand ==> w[i] !in seen + [d];
      }
      forall i, j | 0 <= i < j < |w|
        ensures w[i] != w[j]
      {
        assert i > 0 ==> w[i] == w[1..][i - 1] && w[j] == w[1..][j - 1];
      }
    }
  }

  lemma {:induction false} SearchSucceeds<D(!new)>(expand: map<D, seq<D>>, root: D, seen: seq<D>, p: Pending<D>)
    requires !CycleFrom(Successors(expand), root) && Path(Successors(expand), root, seen, p.declaration)
    ensures ExpandOne(expand, seen, p).Some?
    decreases Fresh(expand.Keys, seen)
  {
    var d := p.declaration;
    if d in expand {
      if d in seen {
        MeetingThePath(Successors(expand), root, seen, d);
      } else {
        NotOnPathShrinks(expand.Keys, seen, d);
        PathGrows(Successors(expand), root, seen, d);
        var list := Below(expand, p);
        forall i | 0 <= i < |list|
          ensures ExpandOne(expand, seen + [d], list[i]).Some?
        {
          assert list[i].declaration in Successors(expand)(d);
          SearchSucceeds(expand, root, seen + [d], list[i]);
        }
        ListSucceeds(expand, seen + [d], list);
      }
    }
  }

  /** Expansion succeeds exactly when no cycle of expansions can be reached from the list. */
  lemma ExpandsIffNoCycleReachable<D(!new)>(expand: map<D, seq<D>>, list: seq<Pending<D>>)
    ensures ExpandList(expand, [], list).Some?
            <==> (forall i :: 0 <= i < |list| ==> !CycleFrom(Successors(expand), list[i].declaration))
  {
    ListSucceeds(expand, [], list);
    forall i | 0 <= i < |list|
      ensures ExpandOne(expand, [], list[i]).Some? <==> !CycleFrom(Successors(expand), list[i].declaration)
    {
      if ExpandOne(expand, [], list[i]).Some? {
        forall w, j, k | Walk(Successors(expand), list[i].declaration, w) && 0 <= j < k < |w|
          ensures w[j] != w[k]
        {
          WalksNeverRepeat(expand, [], list[i], w);
        }
      } else if !CycleFrom(Successors(expand), list[i].declaration) {
        SearchSucceeds(expand, list[i].declaration, [], list[i]);
      }
    }
  }

  // ---------------------------------------------------------------- what it yields

  /** The expansions of a list drawn as trees, one per entry, from left to right. */
  datatype Forest<D> =
    | Empty
    | Leaf(entry: Pending<D>, right: Forest<D>)
    | Node(entry: Pending<D>, children: Forest<D>, right: Forest<D>)

  ghost function Roots<D>(f: Forest<D>): seq<Pending<D>>
  {
    if f.Empty? then [] else [f.entry] + Roots(f.right)
  }

  /** One entry for each declaration, in order, with the owner of the entry they replace and an origin that
      records it. */
  ghost predicate Replaces<D>(list: seq<Pending<D>>, declarations: seq<D>, e: Pending<D>)
  {
    && |list| == |declarations|
    && forall i :: 0 <= i < |list| ==>
         && list[i].declaration == declarations[i] && list[i].component == e.component
         && list[i].origin == Expansion(e.origin, e.declaration)
  }

  /** Leaves do not expand; a node's children are exactly what it expands into, with the node's owner
      and an origin that records the node. */
  ghost predicate Draws<D>(expand: map<D, seq<D>>, f: Forest<D>)
  {
    match f
    case Empty => true
    case Leaf(e, right) => e.declaration !in expand && Draws(expand, right)
    case Node(e, children, right) =>
      && e.declaration in expand && Replaces(Roots(children), expand[e.declaration], e)
      && Draws(expand, children) && Draws(expand, right)
  }

  /** The leaves from left to right, depth first. */
  ghost function Leaves<D>(f: Forest<D>): seq<Pending<D>>
  {
    match f
    case Empty => []
    case Leaf(e, right) => [e] + Leaves(right)
    case Node(_, children, right) => Leaves(children) + Leaves(right)
  }

  lemma ReplacedOnce<D>(a: seq<Pending<D>>, b: seq<Pending<D>>, declarations: seq<D>, e: Pending<D>)
    requires Replaces(a, declarations, e) && Replaces(b, declarations, e)
    ensures a == b
  {
  }

  /** A forest is determined by its roots. */
  lemma {:induction false} DrawnOnce<D>(expand: map<D, seq<D>>, f: Forest<D>, g: Forest<D>)
    requires Draws(expand, f) && Draws(expand, g) && Roots(f) == Roots(g)
    ensures f == g
  {
    if !f.Empty? {
      assert f.entry == Roots(f)[0] == Roots(g)[0] == g.entry;
      assert Roots(f.right) == Roots(f)[1..] == Roots(g)[1..] == Roots(g.right);
      DrawnOnce(expand, f.right, g.right);
      if f.Node? {
        ReplacedOnce(Roots(f.children), Roots(g.children), expand[f.entry.declaration], f.entry);
        DrawnOnce(expand, f.children, g.children);
      }
    }
  }

  lemma {:induction false} ExpansionIsDrawn<D>(expand: map<D, seq<D>>, seen: seq<D>, list: seq<Pending<D>>)
    returns (f: Forest<D>)
    requires ExpandList(expand, seen, list).Some?
    ensures Draws(expand, f) && Roots(f) == list && Leaves(f) == ExpandList(expand, seen, list).value
    decreases Fresh(expand.Keys, seen), |list|
  {
    if list == [] {
      f := Empty;
    } else {
      var right := ExpansionIsDrawn(expand, seen, list[1..]);
      var e := list[0];
      if e.declaration !in expand {
        f := Leaf(e, right);
      } else {
        NotOnPathShrinks(expand.Keys, seen, e.declaration);
        var children := ExpansionIsDrawn(expand, seen + [e.declaration], Below(expand, e));
        f := Node(e, children, right);
      }
    }
  }

  /** The expansion is the depth-first leaves of the one forest that grows from the list. */
  lemma ExpansionIsDepthFirst<D(!new)>(expand: map<D, seq<D>>, list: seq<Pending<D>>, f: Forest<D>)
    requires ExpandList(expand, [], list).Some? && Draws(expand, f) && Roots(f) == list
    ensures ExpandList(expand, [], list).value == Leaves(f)
  {
    var g := ExpansionIsDrawn(expand, [], list);
    DrawnOnce(expand, f, g);
  }

  /** The first origin, before any expansion. */
  function Source<D>(o: Origin<D>): Origin<D>
  {
    match o
    case Expansion(from, _) => Source(from)
    case _ => o
  }

  /** Leaves do not expand, and each keeps the owner and the first origin of the root above it. */
  lemma {:induction false} LeavesKeepTheirOwner<D>(expand: map<D, seq<D>>, f: Forest<D>, p: Pending<D>)
    requires Draws(expand, f) && p in Leaves(f)
    ensures p.declaration !in expand
    ensures exists r :: r in Roots(f) && r.component == p.component && Source(r.origin) == Source(p.origin)
  {
    match f
    case Leaf(e, right) =>
      if p in Leaves(right) {
        LeavesKeepTheirOwner(expand, right, p);
      } else {
        assert e in Roots(f);
      }
    case Node(e, children, right) =>
      if p in Leaves(right) {
        LeavesKeepTheirOwner(expand, right, p);
      } else {
        LeavesKeepTheirOwner(expand, children, p);
        assert e in Roots(f);
      }
  }

  // ---------------------------------------------------------------- collection

  /** ComponentContributionEntries: one component after another, numbered from `index`. */
  function Contributed<D>(contributions: seq<seq<D>>, index: nat): seq<Pending<D>>
    decreases |contributions|
  {
    if contributions == [] then []
    else Wrap(contributions[0], Some(index), Contribution(index)) + Contributed(contributions[1..], index + 1)
  }

  /** FinalizeEntries: local ids are handed out from `index`. */
  function Finalize<D>(list: seq<Pending<D>>, index: nat): seq<Entry<D>>
  {
    if list == [] then [] else [Entry(list[0], index)] + Finalize(list[1..], index + 1)
  }

  /** CollectCatalog. */
  function Collect<D>(expand: map<D, seq<D>>, direct: seq<D>, contributions: seq<seq<D>>): Option<seq<Entry<D>>>
  {
    match ExpandList(expand, [], Wrap(direct, None, Direct) + Contributed(contributions, 0))
    case None => None
    case Some(list) => Some(Finalize(list, 0))
  }

  /** The application comes first, then the components in order. */
  function Rank<D>(p: Pending<D>): nat
  {
    match p.component case None => 0 case Some(k) => k + 1
  }

  ghost predicate Ordered<D>(s: seq<Pending<D>>)
  {
    forall i, j :: 0 <= i < j < |s| ==> Rank(s[i]) <= Rank(s[j])
  }

  /** The owner is the one the first origin names. */
  ghost predicate OriginFits<D>(p: Pending<D>)
  {
    Source(p.origin) == match p.component case None => Direct case Some(k) => Contribution(k)
  }

  lemma OrderedAppend<D>(a: seq<Pending<D>>, b: seq<Pending<D>>)
    requires Ordered(a) && Ordered(b)
    requires forall p, q :: p in a && q in b ==> Rank(p) <= Rank(q)
    ensures Ordered(a + b)
  {
  }

  lemma {:induction false} ContributedInOrder<D>(contributions: seq<seq<D>>, index: nat)
    ensures var s := Contributed(contributions, index);
            Ordered(s) && forall p :: p in s ==> Rank(p) > index && OriginFits(p)
    decreases |contributions|
  {
    if contributions != [] {
      ContributedInOrder(contributions[1..], index + 1);
      OrderedAppend(Wrap(contributions[0], Some(index), Contribution(index)),
                    Contributed(contributions[1..], index + 1));
    }
  }

  lemma RightIsLater<D(!new)>(expand: map<D, seq<D>>, f: Forest<D>, q: Pending<D>)
    requires !f.Empty? && Draws(expand, f) && Ordered(Roots(f)) && q in Leaves(f.right)
    ensures Rank(f.entry) <= Rank(q)
  {
    LeavesKeepTheirOwner(expand, f.right, q);
    var right := Roots(f.right);
    var k :| 0 <= k < |right| && right[k].component == q.component;
    FirstIsEarliest(f.entry, right, k);
  }

  lemma FirstIsEarliest<D>(e: Pending<D>, right: seq<Pending<D>>, k: nat)
    requires Ordered([e] + right) && k < |right|
    ensures Rank(e) <= Rank(right[k])
  {
    assert ([e] + right)[0] == e && ([e] + right)[k + 1] == right[k];
  }

  lemma ChildrenAlike<D(!new)>(expand: map<D, seq<D>>, f: Forest<D>)
    requires f.Node? && Draws(expand, f)
    ensures forall p :: p in Leaves(f.children) ==> Rank(p) == Rank(f.entry)
    ensures Ordered(Leaves(f.children))
  {
    forall p | p in Leaves(f.children)
      ensures p.component == f.entry.component
    {
      LeavesKeepTheirOwner(expand, f.children, p);
    }
  }

  /** Expansion keeps the order of owners: what an entry expands into takes its place. */
  lemma {:induction false} LeavesInOrder<D(!new)>(expand: map<D, seq<D>>, f: Forest<D>)
    requires Draws(expand, f) && Ordered(Roots(f))
    ensures Ordered(Leaves(f))
  {
    if !f.Empty? {
      assert Roots(f)[1..] == Roots(f.right);
      LeavesInOrder(expand, f.right);
      forall q | q in Leaves(f.right)
        ensures Rank(f.entry) <= Rank(q)
      {
        RightIsLater(expand, f, q);
      }
      if f.Leaf? {
        OrderedAppend([f.entry], Leaves(f.right));
      } else {
        ChildrenAlike(expand, f);
        OrderedAppend(Leaves(f.children), Leaves(f.right));
      }
    }
  }

  lemma LeavesFit<D(!new)>(expand: map<D, seq<D>>, f: Forest<D>)
    requires Draws(expand, f) && forall r :: r in Roots(f) ==> OriginFits(r)
    ensures forall p :: p in Leaves(f) ==> p.declaration !in expand && OriginFits(p)
  {
    forall p | p in Leaves(f)
      ensures p.declaration !in expand && OriginFits(p)
    {
      LeavesKeepTheirOwner(expand, f, p);
    }
  }

  lemma DeclaredInOrder<D>(direct: seq<D>, contributions: seq<seq<D>>)
    ensures var list := Wrap(direct, None, Direct) + Contributed(contributions, 0);
            Ordered(list) && forall p :: p in list ==> OriginFits(p)
  {
    ContributedInOrder(contributions, 0);
    OrderedAppend(Wrap(direct, None, Direct), Contributed(contributions, 0));
  }

  lemma {:induction false} FinalizeNumbers<D>(list: seq<Pending<D>>, index: nat)
    ensures var entries := Finalize(list, index);
            |entries| == |list| && forall i :: 0 <= i < |list| ==> entries[i] == Entry(list[i], index + i)
    decreases |list|
  {
    if list != [] {
      FinalizeNumbers(list[1..], index + 1);
    }
  }

  /** Where the declarations of component k start: after the application's and those of the components before. */
  function Offset<D>(direct: seq<D>, contributions: seq<seq<D>>, k: nat): nat
    requires k <= |contributions|
  {
    if k == 0 then |direct| else Offset(direct, contributions, k - 1) + |contributions[k - 1]|
  }

  /** Declaration i of component k stands in its place. */
  ghost predicate Placed<D>(roots: seq<Pending<D>>, direct: seq<D>, contributions: seq<seq<D>>, k: nat, i: nat)
    requires k < |contributions| && i < |contributions[k]|
  {
    var place := Offset(direct, contributions, k) + i;
    place < |roots| && roots[place] == Pending(contributions[k][i], Some(k), Contribution(k))
  }

  /** The application's declarations, then each component's, all in order, each with its owner and origin. */
  ghost predicate Declared<D>(roots: seq<Pending<D>>, direct: seq<D>, contributions: seq<seq<D>>)
  {
    && |roots| == Offset(direct, contributions, |contributions|)
    && (forall i :: 0 <= i < |direct| ==> i < |roots| && roots[i] == Pending(direct[i], None, Direct))
    && forall k, i :: 0 <= k < |contributions| && 0 <= i < |contributions[k]| ==>
         Placed(roots, direct, contributions, k, i)
  }

  lemma {:induction false} ContributedSnoc<D>(contributions: seq<seq<D>>, last: seq<D>, index: nat)
    ensures Contributed(contributions + [last], index)
         == Contributed(contributions, index)
            + Wrap(last, Some(index + |contributions|), Contribution(index + |contributions|))
    decreases |contributions|
  {
    if contributions == [] {
      assert ([] + [last])[1..] == [];
    } else {
      ContributedSnoc(contributions[1..], last, index + 1);
      assert (contributions + [last])[1..] == contributions[1..] + [last];
    }
  }

  lemma {:induction false} OffsetPrefix<D>(direct: seq<D>, contributions: seq<seq<D>>, n: nat, k: nat)
    requires k <= n <= |contributions|
    ensures Offset(direct, contributions[..n], k) == Offset(direct, contributions, k)
  {
    if k > 0 {
      OffsetPrefix(direct, contributions, n, k - 1);
    }
  }

  /** The list that is expanded is exactly what was declared. */
  lemma {:induction false} DeclarationsAreDeclared<D>(direct: seq<D>, contributions: seq<seq<D>>)
    ensures Declared(Wrap(direct, None, Direct) + Contributed(contributions, 0), direct, contributions)
    decreases |contributions|
  {
    if contributions != [] {
      var n := |contributions| - 1;
      var init, last := contributions[..n], contributions[n];
      DeclarationsAreDeclared(direct, init);
      ContributedSnoc(init, last, 0);
      assert init + [last] == contributions;
      var before := Wrap(direct, None, Direct) + Contributed(init, 0);
      var roots := Wrap(direct, None, Direct) + Contributed(contributions, 0);
      assert roots == before + Wrap(last, Some(n), Contribution(n));
      OffsetPrefix(direct, contributions, n, n);
      forall k, i | 0 <= k < |contributions| && 0 <= i < |contributions[k]|
        ensures Placed(roots, direct, contributions, k, i)
      {
        OffsetPrefix(direct, contributions, n, k);
        if k < n {
          assert Placed(before, direct, init, k, i);
        }
      }
    }
  }

  /** Every place of the list belongs to the application or to one component. */
  lemma {:induction false} PlaceOf<D>(direct: seq<D>, contributions: seq<seq<D>>, n: nat, place: nat) returns (k: nat)
    requires n <= |contributions| && |direct| <= place < Offset(direct, contributions, n)
    ensures k < n && Offset(direct, contributions, k) <= place < Offset(direct, contributions, k) + |contributions[k]|
  {
    if place >= Offset(direct, contributions, n - 1) {
      k := n - 1;
    } else {
      k := PlaceOf(direct, contributions, n - 1, place);
    }
  }

  lemma DeclaredOnce<D>(a: seq<Pending<D>>, b: seq<Pending<D>>, direct: seq<D>, contributions: seq<seq<D>>)
    requires Declared(a, direct, contributions) && Declared(b, direct, contributions)
    ensures a == b
  {
    forall place | 0 <= place < |a|
      ensures a[place] == b[place]
    {
      if place >= |direct| {
        var k := PlaceOf(direct, contributions, |contributions|, place);
        var i := place - Offset(direct, contributions, k);
        assert Placed(a, direct, contributions, k, i) && Placed(b, direct, contributions, k, i);
      }
    }
  }

  /** A collected catalog: entry i has local id i, nothing in it expands any more, its declarations are
      the depth-first leaves of what was declared, each with the owner its first origin names, the
      application's first and then the components' in order. */
  lemma CollectedCatalog<D(!new)>(expand: map<D, seq<D>>, direct: seq<D>, contributions: seq<seq<D>>, f: Forest<D>)
    requires Draws(expand, f) && Declared(Roots(f), direct, contributions)
    requires Collect(expand, direct, contributions).Some?
    ensures var entries := Collect(expand, direct, contributions).value;
            && |entries| == |Leaves(f)|
            && (forall i :: 0 <= i < |entries| ==>
                  && entries[i].localId == i
                  && entries[i].pending == Leaves(f)[i]
                  && entries[i].pending.declaration !in expand
                  && OriginFits(entries[i].pending))
            && (forall i, j :: 0 <= i < j < |entries| ==> Rank(entries[i].pending) <= Rank(entries[j].pending))
  {
    DeclarationsAreDeclared(direct, contributions);
    DeclaredOnce(Roots(f), Wrap(direct, None, Direct) + Contributed(contributions, 0), direct, contributions);
    DeclaredInOrder(direct, contributions);
    ExpansionIsDepthFirst(expand, Roots(f), f);
    FinalizeNumbers(Leaves(f), 0);
    LeavesInOrder(expand, f);
    LeavesFit(expand, f);
  }
}
