/** Walks through a relation given by successor lists. */
module CatalogGraph {

  /** A walk starts at `from` and follows one successor after another. */
  ghost predicate Walk<T(!new)>(next: T -> seq<T>, from: T, w: seq<T>)
  {
    w != [] && w[0] == from && forall i :: 0 < i < |w| ==> w[i] in next(w[i - 1])
  }

  /** A walk from `from` that comes back to a place it has been. */
  ghost predicate Loops<T(!new)>(next: T -> seq<T>, from: T, w: seq<T>, i: nat, j: nat)
  {
    Walk(next, from, w) && i < j < |w| && w[i] == w[j]
  }

  ghost predicate CycleFrom<T(!new)>(next: T -> seq<T>, from: T)
  {
    exists w, i, j :: Loops(next, from, w, i, j)
  }

  lemma WalkTail<T(!new)>(next: T -> seq<T>, from: T, w: seq<T>)
    requires Walk(next, from, w) && |w| > 1
    ensures w[1] in next(from) && Walk(next, w[1], w[1..])
  {
    var v := w[1..];
    forall i | 0 < i < |v|
      ensures v[i] in next(v[i - 1])
    {
      assert w[i + 1] in next(w[i + 1 - 1]);
    }
  }

  lemma WalkSnoc<T(!new)>(next: T -> seq<T>, from: T, w: seq<T>, x: T)
    requires Walk(next, from, w) && x in next(w[|w| - 1])
    ensures Walk(next, from, w + [x])
  {
    var v := w + [x];
    forall i | 0 < i < |v|
      ensures v[i] in next(v[i - 1])
    {
    }
  }

  /** What the path-based search needs: it goes on exactly where the path leads, and the path so far
      is a walk without repetition. */
  ghost predicate Path<T(!new)>(next: T -> seq<T>, from: T, path: seq<T>, x: T)
  {
    if path == [] then x == from else Walk(next, from, path) && x in next(path[|path| - 1])
  }

  lemma PathGrows<T(!new)>(next: T -> seq<T>, from: T, path: seq<T>, x: T)
    requires Path(next, from, path, x)
    ensures Walk(next, from, path + [x])
  {
    if path != [] {
      WalkSnoc(next, from, path, x);
    } else {
      assert path + [x] == [x];
    }
  }

  /** Meeting the path again is a cycle. */
  lemma MeetingThePath<T(!new)>(next: T -> seq<T>, from: T, path: seq<T>, x: T)
    requires Path(next, from, path, x) && x in path
    ensures CycleFrom(next, from)
  {
    PathGrows(next, from, path, x);
    var i :| 0 <= i < |path| && path[i] == x;
    assert Loops(next, from, path + [x], i, |path|);
  }

  /** How many of `all` are not on the path: what a search along the path has left. */
  ghost function Fresh<T>(all: set<T>, path: seq<T>): nat
  {
    |all - set y | y in path|
  }

  lemma NotOnPathShrinks<T>(all: set<T>, path: seq<T>, x: T)
    requires x in all && x !in path
    ensures Fresh(all, path + [x]) < Fresh(all, path)
  {
    var before, after := all - (set y | y in path), all - (set y | y in path + [x]);
    assert x in before && x !in after;
    assert after <= before;
    SubsetSize(after, before);
  }

  lemma {:induction false} SubsetSize<T>(a: set<T>, b: set<T>)
    requires a < b
    ensures |a| < |b|
  {
    var x :| x in b && x !in a;
    if a < b - {x} {
      SubsetSize(a, b - {x});
    } else {
      assert a == b - {x};
    }
  }
}
