/** Trees path by path: what is read, what is copied, and the order files are listed in. */
module TreeLaws {
  import opened Json
  import opened FileTree

  // --------------------------------------------------------------- whole trees

  lemma LookupInside(tree: Tree, path: Path, name: string)
    requires tree.Dir? && name in tree.entries && path != [] && path[0] == name
    ensures Lookup(tree, path) == Lookup(tree.entries[name], path[1..])
  {
  }

  lemma LookupBehind(tree: Tree, name: string, path: Path)
    requires tree.Dir? && name in tree.entries
    ensures Lookup(tree, [name] + path) == Lookup(tree.entries[name], path)
  {
    assert ([name] + path)[1..] == path;
  }

  /** A tree is free of links if and only if no path leads to one. */
  lemma NoLinksExactly(tree: Tree)
    ensures NoLinks(tree) <==> forall path :: Lookup(tree, path) != Some(Link)
  {
    if NoLinks(tree) {
      forall path ensures Lookup(tree, path) != Some(Link) {
        NoLinkAt(tree, path);
      }
    } else {
      var path := LinkAt(tree);
    }
  }

  lemma {:induction false} NoLinkAt(tree: Tree, path: Path)
    requires NoLinks(tree)
    ensures Lookup(tree, path) != Some(Link)
    decreases |path|
  {
    if path != [] && tree.Dir? && path[0] in tree.entries {
      NoLinkAt(tree.entries[path[0]], path[1..]);
    }
  }

  lemma {:induction false} LinkAt(tree: Tree) returns (path: Path)
    requires !NoLinks(tree)
    ensures Lookup(tree, path) == Some(Link)
  {
    if tree.Dir? {
      var name :| name in tree.entries && !NoLinks(tree.entries[name]);
      path := LinkAt(tree.entries[name]);
      LookupBehind(tree, name, path);
      path := [name] + path;
    } else {
      path := [];
    }
  }

  /** A tree is readable if and only if every path in it is. */
  lemma {:induction false} ReadableExactly(tree: Tree, at: Path, works: Works)
    ensures Readable(tree, at, works) <==> forall path :: Lookup(tree, path).Some? ==> works(at + path)
  {
    assert Lookup(tree, []) == Some(tree) && at + [] == at;
    if tree.Dir? {
      forall name | name in tree.entries
        ensures Readable(tree.entries[name], at + [name], works) <==>
                forall path :: Lookup(tree.entries[name], path).Some? ==> works(at + [name] + path)
      {
        ReadableExactly(tree.entries[name], at + [name], works);
      }
      if name :| name in tree.entries && !Readable(tree.entries[name], at + [name], works) {
        var path :| Lookup(tree.entries[name], path).Some? && !works(at + [name] + path);
        LookupBehind(tree, name, path);
        assert at + ([name] + path) == at + [name] + path;
      }
      if Readable(tree, at, works) {
        forall path | Lookup(tree, path).Some? ensures works(at + path) {
          if path != [] {
            LookupInside(tree, path, path[0]);
            assert at + [path[0]] + path[1..] == at + path;
          }
        }
      }
    }
  }

  // -------------------------------------------------------------- what is copied

  /** Nothing but directories of the restored tree stands above `path`, if anything does. */
  ghost predicate Reached(restored: Tree, path: Path)
    decreases |path|
  {
    path != [] ==>
      && restored.Dir?
      && (path[0] in restored.entries ==> Reached(restored.entries[path[0]], path[1..]))
  }

  // What the copy needs of one path of the old tree.
  ghost predicate Copied(restored: Tree, previous: Tree, path: Path, at: Path, works: Copying) {
    Lookup(previous, path).Some? && Reached(restored, path) ==>
      && works.inspects(at + path)
      && (Lookup(restored, path).None? ==>
            && !Lookup(previous, path).value.Link?
            && (!Lookup(previous, path).value.Special? ==> works.copies(at + path)))
  }

  lemma CopiedInside(restored: Tree, previous: Tree, name: string, rest: Path, at: Path, works: Copying)
    requires restored.Dir? && previous.Dir? && name in previous.entries
    ensures Copied(restored, previous, [name] + rest, at, works) <==>
            if name in restored.entries
            then Copied(restored.entries[name], previous.entries[name], rest, at + [name], works)
            else CopiedAnew(previous.entries[name], rest, at + [name], works)
  {
    var path := [name] + rest;
    assert path[1..] == rest && at + path == at + [name] + rest;
    LookupBehind(previous, name, rest);
    if name in restored.entries {
      LookupBehind(restored, name, rest);
    }
  }

  // Where nothing was restored at all, everything but special files is copied.
  ghost predicate CopiedAnew(entry: Tree, path: Path, at: Path, works: Copying) {
    Lookup(entry, path).Some? ==>
      && works.inspects(at + path)
      && !Lookup(entry, path).value.Link?
      && (!Lookup(entry, path).value.Special? ==> works.copies(at + path))
  }

  lemma CopiedIntoNew(entry: Tree, path: Path, at: Path, works: Copying)
    requires entry.Dir? && path != []
    ensures Copied(Dir(map[]), entry, path, at, works) <==> CopiedAnew(entry, path, at, works)
  {
    assert Lookup(Dir(map[]), path) == None;
  }

  // The same of one entry, with or without something restored at its name.
  lemma {:induction false} EntryExactly(entry: Tree, kept: Option<Tree>, at: Path, works: Copying)
    ensures kept.Some? ==>
      (EntryCopyable(entry, kept, at, works) <==> forall path :: Copied(kept.value, entry, path, at, works))
    ensures kept.None? ==>
      (EntryCopyable(entry, kept, at, works) <==> forall path :: CopiedAnew(entry, path, at, works))
    decreases entry, 2
  {
    assert at + [] == at && Lookup(entry, []) == Some(entry);
    match kept
    case Some(tree) =>
      assert Lookup(tree, []) == Some(tree);
      assert Copied(tree, entry, [], at, works) <==> works.inspects(at);
      if entry.Dir? && tree.Dir? {
        CopyableBelow(tree, entry, at, works);
      } else {
        forall path | path != [] ensures Copied(tree, entry, path, at, works) {
        }
      }
    case None =>
      assert CopiedAnew(entry, [], at, works) <==>
        works.inspects(at) && !entry.Link? && (!entry.Special? ==> works.copies(at));
      if entry.Dir? {
        CopyableBelow(Dir(map[]), entry, at, works);
        forall path | path != []
          ensures Copied(Dir(map[]), entry, path, at, works) <==> CopiedAnew(entry, path, at, works)
        {
          CopiedIntoNew(entry, path, at, works);
        }
        assert Copied(Dir(map[]), entry, [], at, works) <==> works.inspects(at);
      } else {
        forall path | path != [] ensures CopiedAnew(entry, path, at, works) {
        }
      }
  }

  lemma {:induction false} CopyableBelow(restored: Tree, previous: Tree, at: Path, works: Copying)
    requires restored.Dir? && previous.Dir?
    ensures Copyable(restored, previous, at, works) <==> forall path :: Copied(restored, previous, path, at, works)
    decreases previous, 1
  {
    assert at + [] == at && Lookup(previous, []) == Some(previous) && Lookup(restored, []) == Some(restored);
    assert Copied(restored, previous, [], at, works) <==> works.inspects(at);
    forall name | name in previous.entries
      ensures EntryCopyable(previous.entries[name], Get(restored.entries, name), at + [name], works) <==>
              forall rest: Path :: Copied(restored, previous, [name] + rest, at, works)
    {
      EntryExactly(previous.entries[name], Get(restored.entries, name), at + [name], works);
      forall rest: Path
        ensures Copied(restored, previous, [name] + rest, at, works) <==>
                if name in restored.entries
                then Copied(restored.entries[name], previous.entries[name], rest, at + [name], works)
                else CopiedAnew(previous.entries[name], rest, at + [name], works)
      {
        CopiedInside(restored, previous, name, rest, at, works);
      }
    }
    if Copyable(restored, previous, at, works) {
      forall path ensures Copied(restored, previous, path, at, works) {
        if path != [] && path[0] in previous.entries {
          assert path == [path[0]] + path[1..];
        }
      }
    }
  }

  /**
   * The copy goes through if and only if every entry of the old tree that
   * nothing restored stands above can be inspected, and every such entry with
   * nothing restored in its place is no link and can be copied.
   */
  lemma CopyableExactly(restored: Tree, previous: Tree, works: Copying)
    requires restored.Dir? && previous.Dir?
    ensures Copyable(restored, previous, [], works) <==>
            forall path :: Lookup(previous, path).Some? && Reached(restored, path) ==>
              && works.inspects(path)
              && (Lookup(restored, path).None? ==>
                    && !Lookup(previous, path).value.Link?
                    && (!Lookup(previous, path).value.Special? ==> works.copies(path)))
  {
    CopyableBelow(restored, previous, [], works);
    forall path
      ensures Copied(restored, previous, path, [], works) <==>
              (Lookup(previous, path).Some? && Reached(restored, path) ==>
                 && works.inspects(path)
                 && (Lookup(restored, path).None? ==>
                       && !Lookup(previous, path).value.Link?
                       && (!Lookup(previous, path).value.Special? ==> works.copies(path))))
    {
      assert [] + path == path;
    }
  }

  // -------------------------------------------------------- the order of a listing

  /** The two paths part, and there the first has the earlier name. */
  predicate EarlierPath(p: Path, q: Path) {
    p != [] && q != [] && (Before(p[0], q[0]) || (p[0] == q[0] && EarlierPath(p[1..], q[1..])))
  }

  lemma {:induction false} EarlierBehind(at: Path, p: Path, q: Path)
    requires EarlierPath(p, q)
    ensures EarlierPath(at + p, at + q)
    decreases |at|
  {
    if at == [] {
      assert at + p == p && at + q == q;
    } else {
      assert (at + p)[1..] == at[1..] + p && (at + q)[1..] == at[1..] + q;
      EarlierBehind(at[1..], p, q);
    }
  }

  ghost predicate ListedInOrder(listing: seq<Expected>) {
    forall i, j :: 0 <= i < j < |listing| ==> EarlierPath(listing[i].path, listing[j].path)
  }

  /** Files are listed once each, in the order of their names at every depth. */
  lemma {:induction false} ListingInOrder(tree: Tree, at: Path, hash: Bytes -> Digest)
    ensures ListedInOrder(Listing(tree, at, hash))
    decreases tree, 1, 0
  {
    if tree.Dir? {
      SortedMembers(tree.entries);
      EntriesInOrder(tree, Sorted(tree.entries.Keys), at, hash);
    }
  }

  lemma {:induction false} EntriesInOrder(tree: Tree, names: seq<string>, at: Path, hash: Bytes -> Digest)
    requires tree.Dir? && Ascending(names) && forall name :: name in names ==> name in tree.entries
    ensures ListedInOrder(EntriesListing(tree, names, at, hash))
    decreases tree, 0, |names|
  {
    if names != [] {
      var name := names[0];
      var first := Listing(tree.entries[name], at + [name], hash);
      var rest := EntriesListing(tree, names[1..], at, hash);
      ListingInOrder(tree.entries[name], at + [name], hash);
      EntriesInOrder(tree, names[1..], at, hash);
      forall e, f | e in first && f in rest ensures EarlierPath(e.path, f.path) {
        ListingFiles(tree.entries[name], at + [name], hash, e);
        EntriesListingFiles(tree, names[1..], at, hash, f);
        var (p, q) := (e.path[|at|..], f.path[|at|..]);
        assert e.path == at + p && f.path == at + q;
        assert p[0] == (at + [name])[|at|] && q[0] == f.path[|at|];
        EarlierBehind(at, p, q);
      }
      TwoListings(first, rest);
    }
  }

  lemma TwoListings(p: seq<Expected>, q: seq<Expected>)
    requires ListedInOrder(p) && ListedInOrder(q)
    requires forall e, f :: e in p && f in q ==> EarlierPath(e.path, f.path)
    ensures ListedInOrder(p + q)
  {
  }
}
