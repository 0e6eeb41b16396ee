/** Validation of catalog dependencies (ValidateCatalogDependency and ValidateAllCatalogDependencies in
    include/solar/catalog/catalog.hpp). A failed static assertion is the answer false.
 */
module CatalogDependencies {
  import opened CatalogGraph

  /** ValidateCatalogDependency: `tag` is available, not on the path, and its dependencies are valid. */
  predicate Validate<Tag(==)>(tags: seq<Tag>, dependencies: Tag -> seq<Tag>, path: seq<Tag>, tag: Tag)
    decreases Fresh((set t | t in tags), path), 1, 0
  {
    && tag in tags
    && tag !in path
    && (NotOnPathShrinks((set t | t in tags), path, tag);
        ValidateList(tags, dependencies, path + [tag], dependencies(tag)))
  }

  /** ValidateCatalogDependencies: the list of one tag's dependencies. */
  predicate ValidateList<Tag(==)>(tags: seq<Tag>, dependencies: Tag -> seq<Tag>, path: seq<Tag>, list: seq<Tag>)
    decreases Fresh((set t | t in tags), path), 2, |list|
  {
    list == [] ||
    (Validate(tags, dependencies, path, list[0]) && ValidateList(tags, dependencies, path, list[1..]))
  }

  /** ValidateAllCatalogDependencies. */
  predicate ValidateAll<Tag(==)>(tags: seq<Tag>, dependencies: Tag -> seq<Tag>)
  {
    forall i :: 0 <= i < |tags| ==> Validate(tags, dependencies, [], tags[i])
  }

  lemma {:induction false} ListMember<Tag>(tags: seq<Tag>, dependencies: Tag -> seq<Tag>, path: seq<Tag>, list: seq<Tag>)
    ensures ValidateList(tags, dependencies, path, list)
            <==> (forall i :: 0 <= i < |list| ==> Validate(tags, dependencies, path, list[i]))
    decreases |list|
  {
    if list != [] {
      ListMember(tags, dependencies, path, list[1..]);
      if ValidateList(tags, dependencies, path, list) {
        forall i | 0 <= i < |list|
          ensures Validate(tags, dependencies, path, list[i])
        {
          assert i > 0 ==> list[i] == list[1..][i - 1];
        }
      }
    }
  }

  /** Where a validated tag's walks lead: only to available tags, never onto the path, never round. */
  lemma {:induction false} WalksStayValid<Tag(!new)>(tags: seq<Tag>, dependencies: Tag -> seq<Tag>, path: seq<Tag>,
                                                     tag: Tag, w: seq<Tag>)
    requires Validate(tags, dependencies, path, tag) && Walk(dependencies, tag, w)
    ensures forall i :: 0 <= i < |w| ==> w[i] in tags && w[i] !in path
    ensures forall i, j :: 0 <= i < j < |w| ==> w[i] != w[j]
    decreases |w|
  {
    if |w| > 1 {
      WalkTail(dependencies, tag, w);
      ListMember(tags, dependencies, path + [tag], dependencies(tag));
      WalksStayValid(tags, dependencies, path + [tag], w[1], w[1..]);
      forall i | 0 < i < |w|
        ensures w[i] in tags && w[i] !in path && w[i] != tag
      {
        assert w[i] == w[1..][i - 1] && w[i] !in path + [tag];
      }
      forall i, j | 0 <= i < j < |w|
        ensures w[i] != w[j]
      {
        assert i > 0 ==> w[i] == w[1..][i - 1] && w[j] == w[1..][j - 1];
      }
    }
  }

  /** Every dependency of every catalog tag is in the set. */
  ghost predicate Closed<Tag(!new)>(tags: seq<Tag>, dependencies: Tag -> seq<Tag>)
  {
    forall t, d :: t in tags && d in dependencies(t) ==> d in tags
  }

  ghost predicate Acyclic<Tag(!new)>(tags: seq<Tag>, dependencies: Tag -> seq<Tag>)
  {
    forall t :: t in tags ==> !CycleFrom(dependencies, t)
  }

  lemma {:induction false} SearchSucceeds<Tag(!new)>(tags: seq<Tag>, dependencies: Tag -> seq<Tag>, root: Tag,
                                                     path: seq<Tag>, tag: Tag)
    requires Closed(tags, dependencies) && Acyclic(tags, dependencies)
    requires root in tags && tag in tags && Path(dependencies, root, path, tag)
    ensures Validate(tags, dependencies, path, tag)
    decreases Fresh((set t | t in tags), path)
  {
    if tag in path {
      MeetingThePath(dependencies, root, path, tag);
    } else {
      NotOnPathShrinks((set t | t in tags), path, tag);
      PathGrows(dependencies, root, path, tag);
      var list := dependencies(tag);
      forall i | 0 <= i < |list|
        ensures Validate(tags, dependencies, path + [tag], list[i])
      {
        SearchSucceeds(tags, dependencies, root, path + [tag], list[i]);
      }
      ListMember(tags, dependencies, path + [tag], list);
    }
  }

  /** The check accepts exactly the catalog sets that are closed under dependency and free of cycles. */
  lemma ValidIffClosedAndAcyclic<Tag(!new)>(tags: seq<Tag>, dependencies: Tag -> seq<Tag>)
    ensures ValidateAll(tags, dependencies) <==> Closed(tags, dependencies) && Acyclic(tags, dependencies)
  {
    if ValidateAll(tags, dependencies) {
      forall t, d | t in tags && d in dependencies(t)
        ensures d in tags
      {
        var i :| 0 <= i < |tags| && tags[i] == t;
        assert Walk(dependencies, t, [t, d]);
        WalksStayValid(tags, dependencies, [], tags[i], [t, d]);
        assert [t, d][1] in tags;
      }
      forall t | t in tags
        ensures !CycleFrom(dependencies, t)
      {
        var k :| 0 <= k < |tags| && tags[k] == t;
        forall w, i, j | Walk(dependencies, t, w) && 0 <= i < j < |w|
          ensures w[i] != w[j]
        {
          WalksStayValid(tags, dependencies, [], tags[k], w);
        }
      }
    }
    if Closed(tags, dependencies) && Acyclic(tags, dependencies) {
      forall i | 0 <= i < |tags|
        ensures Validate(tags, dependencies, [], tags[i])
      {
        SearchSucceeds(tags, dependencies, tags[i], [], tags[i]);
      }
    }
  }
}
