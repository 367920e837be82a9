/** Directory trees: listing and verifying their files, and overlaying one on another. */
module FileTree {
  import opened Json

  type Path = seq<string>

  // `Special` is anything that is neither a file, a directory nor a symbolic link.
  datatype Tree = File(bytes: Bytes) | Dir(entries: map<string, Tree>) | Link | Special

  function Lookup(tree: Tree, path: Path): Option<Tree>
    decreases |path|
  {
    if path == [] then Some(tree)
    else if tree.Dir? && path[0] in tree.entries then Lookup(tree.entries[path[0]], path[1..])
    else None
  }

  ghost predicate NoLinks(tree: Tree) {
    !tree.Link? && (tree.Dir? ==> forall name :: name in tree.entries ==> NoLinks(tree.entries[name]))
  }

  // Which operations succeed, by the path below the root they are for.
  type Works = Path -> bool

  datatype Copying = Copying(inspects: Works, copies: Works)

  // ------------------------------------------------------ hashing a tree

  datatype Expected = Expected(path: Path, digest: Digest)

  /** Every file below `tree` with its hash, depth first in name order. */
  ghost function Listing(tree: Tree, at: Path, hash: Bytes -> Digest): seq<Expected>
    decreases tree, 1, 0
  {
    match tree
    case File(bytes) => [Expected(at, hash(bytes))]
    case Dir(entries) => EntriesListing(tree, Sorted(entries.Keys), at, hash)
    case _ => []
  }

  ghost function EntriesListing(tree: Tree, names: seq<string>, at: Path, hash: Bytes -> Digest): seq<Expected>
    requires tree.Dir? && forall name :: name in names ==> name in tree.entries
    decreases tree, 0, |names|
  {
    if names == [] then []
    else Listing(tree.entries[names[0]], at + [names[0]], hash) + EntriesListing(tree, names[1..], at, hash)
  }

  ghost predicate Readable(tree: Tree, at: Path, works: Works) {
    && works(at)
    && (tree.Dir? ==> forall name :: name in tree.entries ==> Readable(tree.entries[name], at + [name], works))
  }

  /** Succeeds exactly when everything can be read and there is no link anywhere. */
  method HashRestoreTree(root: Tree, hash: Bytes -> Digest, works: Works) returns (hashes: Option<seq<Expected>>)
    ensures hashes.Some? <==> root.Dir? && NoLinks(root) && Readable(root, [], works)
    ensures hashes.Some? ==> hashes.value == Listing(root, [], hash)
  {
    if !root.Dir? {
      return None;
    }
    hashes := HashVisit(root, [], [], hash, works);
  }

  method HashVisit(directory: Tree, at: Path, before: seq<Expected>, hash: Bytes -> Digest, works: Works)
    returns (hashes: Option<seq<Expected>>)
    requires directory.Dir?
    ensures hashes.Some? <==> NoLinks(directory) && Readable(directory, at, works)
    ensures hashes.Some? ==> hashes.value == before + Listing(directory, at, hash)
    decreases directory, 0
  {
    if !works(at) {
      return None;
    }
    var names := CollectKeys(directory.entries, []);
    AscendingUnique(names, Sorted(directory.entries.Keys));
    SortedMembers(directory.entries);
    hashes := Some(before);
    var i := 0;
    assert names[0..] == names;
    while i < |names|
      invariant 0 <= i <= |names| && hashes.Some?
      invariant forall j :: 0 <= j < i ==>
        NoLinks(directory.entries[names[j]]) && Readable(directory.entries[names[j]], at + [names[j]], works)
      invariant hashes.value + EntriesListing(directory, names[i..], at, hash) ==
                before + EntriesListing(directory, names, at, hash)
    {
      var name := names[i];
      ListingStep(directory, names, i, at, hash, hashes.value);
      hashes := HashEntry(directory.entries[name], at + [name], hashes.value, hash, works);
      if hashes.None? {
        assert name in directory.entries;
        return None;
      }
      i := i + 1;
    }
  }

  lemma ListingStep(
    directory: Tree, names: seq<string>, i: nat, at: Path, hash: Bytes -> Digest, found: seq<Expected>)
    requires directory.Dir? && i < |names| && forall name :: name in names ==> name in directory.entries
    ensures found + EntriesListing(directory, names[i..], at, hash) ==
            found + Listing(directory.entries[names[i]], at + [names[i]], hash) +
            EntriesListing(directory, names[i + 1..], at, hash)
  {
    assert names[i..][0] == names[i] && names[i..][1..] == names[i + 1..];
  }

  lemma SortedMembers<V>(entries: map<string, V>)
    ensures forall name :: name in Sorted(entries.Keys) <==> name in entries
  {
    assert forall name :: name in Sorted(entries.Keys) <==> name in Elements(Sorted(entries.Keys));
  }

  method HashEntry(entry: Tree, at: Path, before: seq<Expected>, hash: Bytes -> Digest, works: Works)
    returns (hashes: Option<seq<Expected>>)
    ensures hashes.Some? <==> NoLinks(entry) && Readable(entry, at, works)
    ensures hashes.Some? ==> hashes.value == before + Listing(entry, at, hash)
    decreases entry, 1
  {
    if !works(at) || entry.Link? {
      return None;
    }
    if entry.Dir? {
      hashes := HashVisit(entry, at, before, hash, works);
    } else if entry.File? {
      hashes := Some(before + [Expected(at, hash(entry.bytes))]);
    } else {
      hashes := Some(before);
    }
  }

  // ------------------------------------------------------------ verifying

  ghost predicate FileMatches(root: Tree, expected: Expected, hash: Bytes -> Digest) {
    match Lookup(root, expected.path)
    case Some(File(bytes)) => hash(bytes) == expected.digest
    case _ => false
  }

  ghost predicate Verified(root: Tree, expected: seq<Expected>, hash: Bytes -> Digest) {
    forall i :: 0 <= i < |expected| ==> FileMatches(root, expected[i], hash)
  }

  ghost predicate AllRead(expected: seq<Expected>, works: Works) {
    forall i :: 0 <= i < |expected| ==> works(expected[i].path)
  }

  method VerifyRestoreTree(root: Tree, expected: seq<Expected>, hash: Bytes -> Digest, works: Works) returns (ok: bool)
    ensures ok <==> Verified(root, expected, hash) && AllRead(expected, works)
  {
    for i := 0 to |expected|
      invariant forall j :: 0 <= j < i ==> FileMatches(root, expected[j], hash) && works(expected[j].path)
    {
      var found := Lookup(root, expected[i].path);
      if !works(expected[i].path) || found.None? || !found.value.File? {
        return false;
      }
      if hash(found.value.bytes) != expected[i].digest {
        return false;
      }
    }
    ok := true;
  }

  // ----------------------------------------------------- what is preserved

  /** Everything in `before` is still there: files unchanged, directories at most fuller. */
  ghost predicate Preserves(before: Tree, after: Tree) {
    if before.Dir? then
      && after.Dir?
      && forall name :: name in before.entries ==>
           name in after.entries && Preserves(before.entries[name], after.entries[name])
    else after == before
  }

  lemma {:induction false} PreservesItself(tree: Tree)
    ensures Preserves(tree, tree)
  {
    if tree.Dir? {
      forall name | name in tree.entries ensures Preserves(tree.entries[name], tree.entries[name]) {
        PreservesItself(tree.entries[name]);
      }
    }
  }

  lemma {:induction false} PreservesThrough(one: Tree, two: Tree, three: Tree)
    requires Preserves(one, two) && Preserves(two, three)
    ensures Preserves(one, three)
  {
    if one.Dir? {
      forall name | name in one.entries
        ensures name in three.entries && Preserves(one.entries[name], three.entries[name])
      {
        PreservesThrough(one.entries[name], two.entries[name], three.entries[name]);
      }
    }
  }

  lemma {:induction false} PreservedFile(before: Tree, after: Tree, path: Path)
    requires Preserves(before, after)
    requires Lookup(before, path).Some? && Lookup(before, path).value.File?
    ensures Lookup(after, path) == Lookup(before, path)
    decreases |path|
  {
    if path != [] {
      PreservedFile(before.entries[path[0]], after.entries[path[0]], path[1..]);
    }
  }

  /** A tree that verifies keeps verifying while it is preserved. */
  lemma PreservedVerifies(before: Tree, after: Tree, expected: seq<Expected>, hash: Bytes -> Digest)
    requires Preserves(before, after) && Verified(before, expected, hash)
    ensures Verified(after, expected, hash)
  {
    forall i | 0 <= i < |expected| ensures FileMatches(after, expected[i], hash) {
      assert FileMatches(before, expected[i], hash);
      PreservedFile(before, after, expected[i].path);
    }
  }

  // ------------------------------------------------------------ the listing

  lemma {:induction false} ListingFiles(tree: Tree, at: Path, hash: Bytes -> Digest, e: Expected)
    ensures e in Listing(tree, at, hash) <==>
            at <= e.path && FileMatches(tree, Expected(e.path[|at|..], e.digest), hash)
    decreases tree, 1, 0
  {
    if tree.Dir? {
      var names := Sorted(tree.entries.Keys);
      assert forall name :: name in names <==> name in Elements(names);
      EntriesListingFiles(tree, names, at, hash, e);
      if at <= e.path && |at| < |e.path| {
        assert e.path[|at|..][0] == e.path[|at|];
      }
    } else {
      if at <= e.path && e.path[|at|..] == [] {
        assert e.path == at;
      }
      assert at[|at|..] == [];
    }
  }

  lemma {:induction false} EntriesListingFiles(
    tree: Tree, names: seq<string>, at: Path, hash: Bytes -> Digest, e: Expected)
    requires tree.Dir? && forall name :: name in names ==> name in tree.entries
    ensures e in EntriesListing(tree, names, at, hash) <==>
            at < e.path && e.path[|at|] in names && FileMatches(tree, Expected(e.path[|at|..], e.digest), hash)
    decreases tree, 0, |names|
  {
    if names != [] {
      var name := names[0];
      ListingFiles(tree.entries[name], at + [name], hash, e);
      EntriesListingFiles(tree, names[1..], at, hash, e);
      assert at + [name] <= e.path <==> at < e.path && e.path[|at|] == name;
      if at < e.path {
        assert e.path[|at|..][0] == e.path[|at|] && e.path[|at|..][1..] == e.path[|at| + 1..];
      }
    }
  }

  /** The listing names exactly the tree's files, each with the hash of its bytes. */
  lemma ListingIsComplete(tree: Tree, hash: Bytes -> Digest, e: Expected)
    ensures e in Listing(tree, [], hash) <==> FileMatches(tree, e, hash)
  {
    ListingFiles(tree, [], hash, e);
    assert e.path[0..] == e.path;
  }

  lemma TreeVerifiesItself(tree: Tree, hash: Bytes -> Digest)
    ensures Verified(tree, Listing(tree, [], hash), hash)
  {
    var all := Listing(tree, [], hash);
    forall i | 0 <= i < |all| ensures FileMatches(tree, all[i], hash) {
      assert all[i] in all;
      ListingIsComplete(tree, hash, all[i]);
    }
  }

  // ------------------------------------------------------------ the overlay

  /** `restored` with whatever of `old` it does not already have. */
  ghost function Overlay(restored: Tree, previous: Tree): Tree
    decreases previous, 1
  {
    if restored.Dir? && previous.Dir? then
      Dir(map name | name in restored.entries.Keys + previous.entries.Keys && Laid(restored, previous, name).Some?
          :: Laid(restored, previous, name).value)
    else restored
  }

  ghost function Laid(restored: Tree, previous: Tree, name: string): Option<Tree>
    requires restored.Dir? && previous.Dir?
    decreases previous, 0
  {
    if name in previous.entries then LaidOn(previous.entries[name], Get(restored.entries, name))
    else Get(restored.entries, name)
  }

  // What an old entry and what was restored at its name come to.
  ghost function LaidOn(entry: Tree, kept: Option<Tree>): Option<Tree>
    decreases entry, 2
  {
    match kept
    case Some(tree) => Some(Overlay(tree, entry))
    case None =>
      match entry
      case File(bytes) => Some(File(bytes))
      case Dir(_) => Some(Overlay(Dir(map[]), entry))
      case _ => None
  }

  /** Whether every step of the copy works, and no symbolic link would have to be copied. */
  ghost predicate Copyable(restored: Tree, previous: Tree, at: Path, works: Copying)
    requires restored.Dir? && previous.Dir?
    decreases previous, 1
  {
    works.inspects(at) && forall name :: name in previous.entries ==>
      EntryCopyable(previous.entries[name], Get(restored.entries, name), at + [name], works)
  }

  ghost predicate EntryCopyable(entry: Tree, kept: Option<Tree>, at: Path, works: Copying)
    decreases entry, 2
  {
    && works.inspects(at)
    && match kept
       case Some(tree) => entry.Dir? && tree.Dir? ==> Copyable(tree, entry, at, works)
       case None =>
         && !entry.Link?
         && (entry.Dir? ==> works.copies(at) && Copyable(Dir(map[]), entry, at, works))
         && (entry.File? ==> works.copies(at))
  }

  // The overlay when only the entries in `visited` have been laid.
  ghost function PartLaid(restored: Tree, previous: Tree, visited: set<string>): map<string, Tree>
    requires restored.Dir? && previous.Dir? && visited <= previous.entries.Keys
  {
    map name | name in restored.entries.Keys + visited &&
      (name in visited ==> Laid(restored, previous, name).Some?)
      :: if name in visited then Laid(restored, previous, name).value else restored.entries[name]
  }

  lemma LaidIs(restored: Tree, previous: Tree, name: string)
    requires restored.Dir? && previous.Dir?
    ensures Get(Overlay(restored, previous).entries, name) == Laid(restored, previous, name)
    ensures name in previous.entries ==>
      Laid(restored, previous, name) == LaidOn(previous.entries[name], Get(restored.entries, name))
  {
  }

  lemma PreservesUpdate(before: Tree, entries: map<string, Tree>, name: string, placed: Tree)
    requires before.Dir? && Preserves(before, Dir(entries))
    requires name in before.entries ==> Preserves(before.entries[name], placed)
    ensures Preserves(before, Dir(entries[name := placed]))
  {
  }

  lemma PartLaidStep(restored: Tree, previous: Tree, visited: set<string>, name: string)
    requires restored.Dir? && previous.Dir? && visited <= previous.entries.Keys
    requires name in previous.entries && name !in visited
    ensures Get(PartLaid(restored, previous, visited), name) == Get(restored.entries, name)
    ensures PartLaid(restored, previous, visited + {name}) ==
            match Laid(restored, previous, name)
            case Some(value) => PartLaid(restored, previous, visited)[name := value]
            case None => PartLaid(restored, previous, visited)
  {
  }

  lemma PartLaidAll(restored: Tree, previous: Tree)
    requires restored.Dir? && previous.Dir?
    ensures Overlay(restored, previous) == Dir(PartLaid(restored, previous, previous.entries.Keys))
  {
    assert Overlay(restored, previous).entries == PartLaid(restored, previous, previous.entries.Keys);
  }

  lemma OneLess(all: set<string>, rest: set<string>, name: string)
    requires rest <= all && name in rest
    ensures all - (rest - {name}) == (all - rest) + {name} && name !in all - rest
  {
  }

  // Where the copy stands once the entries in `visited` are done.
  ghost predicate CopiedSoFar(restored: Tree, previous: Tree, entries: map<string, Tree>, visited: set<string>,
                              at: Path, works: Copying)
    requires restored.Dir? && previous.Dir? && visited <= previous.entries.Keys
  {
    && entries == PartLaid(restored, previous, visited)
    && Preserves(restored, Dir(entries))
    && works.inspects(at)
    && forall name :: name in visited ==>
         EntryCopyable(previous.entries[name], Get(restored.entries, name), at + [name], works)
  }

  lemma CopyStarts(restored: Tree, previous: Tree, at: Path, works: Copying)
    requires restored.Dir? && previous.Dir? && works.inspects(at)
    ensures CopiedSoFar(restored, previous, restored.entries, {}, at, works)
  {
    PreservesItself(restored);
  }

  // One more entry, or the step at which the copy gives up.
  lemma CopyStep(
    restored: Tree, previous: Tree, entries: map<string, Tree>, visited: set<string>, name: string,
    placed: Option<Tree>, at: Path, works: Copying)
    requires restored.Dir? && previous.Dir? && visited <= previous.entries.Keys
    requires name in previous.entries && name !in visited
    requires CopiedSoFar(restored, previous, entries, visited, at, works)
    requires name in restored.entries ==> placed.Some? && Preserves(restored.entries[name], placed.value)
    requires var (entry, kept) := (previous.entries[name], Get(restored.entries, name));
             EntryCopyable(entry, kept, at + [name], works) ==> placed == LaidOn(entry, kept)
    ensures var next := if placed.Some? then entries[name := placed.value] else entries;
            && Preserves(restored, Dir(next))
            && (if EntryCopyable(previous.entries[name], Get(restored.entries, name), at + [name], works)
                then CopiedSoFar(restored, previous, next, visited + {name}, at, works)
                else !Copyable(restored, previous, at, works))
  {
    PartLaidStep(restored, previous, visited, name);
    if placed.Some? {
      PreservesUpdate(restored, entries, name, placed.value);
    }
  }

  lemma CopyEnds(restored: Tree, previous: Tree, entries: map<string, Tree>, at: Path, works: Copying)
    requires restored.Dir? && previous.Dir?
    requires CopiedSoFar(restored, previous, entries, previous.entries.Keys, at, works)
    ensures Copyable(restored, previous, at, works) && Dir(entries) == Overlay(restored, previous)
  {
    PartLaidAll(restored, previous);
  }

  /** The entries still to visit may come in any order, and any step may fail. */
  method CopyMissingEntries(previous: Tree, restored: Tree, at: Path, works: Copying) returns (ok: bool, out: Tree)
    requires NoLinks(restored) && restored.Dir?
    ensures Preserves(restored, out)
    ensures ok <==> previous.Dir? && Copyable(restored, previous, at, works)
    ensures ok ==> out == Overlay(restored, previous)
    decreases previous, 0
  {
    ok, out := false, restored;
    PreservesItself(restored);
    if !previous.Dir? || !works.inspects(at) {
      return;
    }
    var entries := restored.entries;
    var rest := previous.entries.Keys;
    CopyStarts(restored, previous, at, works);
    assert previous.entries.Keys - rest == {};
    while rest != {}
      invariant rest <= previous.entries.Keys
      invariant CopiedSoFar(restored, previous, entries, previous.entries.Keys - rest, at, works)
      decreases |rest|
    {
      var name :| name in rest;
      ghost var visited := previous.entries.Keys - rest;
      OneLess(previous.entries.Keys, rest, name);
      var kept := Get(entries, name);
      PartLaidStep(restored, previous, visited, name);
      var done, placed := CopyEntry(previous.entries[name], kept, at + [name], works);
      CopyStep(restored, previous, entries, visited, name, placed, at, works);
      if placed.Some? {
        entries := entries[name := placed.value];
      }
      if !done {
        out := Dir(entries);
        return;
      }
      rest := rest - {name};
    }
    assert previous.entries.Keys - rest == previous.entries.Keys;
    CopyEnds(restored, previous, entries, at, works);
    ok, out := true, Dir(entries);
  }

  // One entry of the loop: what stands at its name afterwards.
  method CopyEntry(entry: Tree, kept: Option<Tree>, at: Path, works: Copying) returns (ok: bool, placed: Option<Tree>)
    requires kept.Some? ==> NoLinks(kept.value)
    ensures kept.Some? ==> placed.Some? && Preserves(kept.value, placed.value)
    ensures ok <==> EntryCopyable(entry, kept, at, works)
    ensures ok ==> placed == LaidOn(entry, kept)
    decreases entry, 1
  {
    placed := kept;
    if kept.Some? {
      PreservesItself(kept.value);
    }
    if !works.inspects(at) {
      return false, placed;
    }
    if kept.Some? {
      if entry.Dir? && kept.value.Dir? {
        var merged;
        ok, merged := CopyMissingEntries(entry, kept.value, at, works);
        placed := Some(merged);
      } else {
        ok := true;
      }
      return;
    }
    if entry.Link? {
      return false, placed;
    }
    ok := true;
    if entry.Dir? {
      if !works.copies(at) {
        return false, placed;
      }
      var merged;
      ok, merged := CopyMissingEntries(entry, Dir(map[]), at, works);
      placed := Some(merged);
    } else if entry.File? {
      // A copy that fails, or does not read back with its hash, may leave anything behind.
      if works.copies(at) {
        placed := Some(entry);
      } else {
        var left: Tree := *;
        ok, placed := false, Some(left);
      }
    }
  }

  // ------------------------------------------------- what an overlay contains

  lemma {:induction false} OverlayPreserves(restored: Tree, previous: Tree)
    ensures Preserves(restored, Overlay(restored, previous))
    decreases previous
  {
    PreservesItself(restored);
    if restored.Dir? && previous.Dir? {
      forall name | name in restored.entries
        ensures name in Overlay(restored, previous).entries &&
                Preserves(restored.entries[name], Overlay(restored, previous).entries[name])
      {
        PreservesItself(restored.entries[name]);
        LaidIs(restored, previous, name);
        if name in previous.entries {
          OverlayPreserves(restored.entries[name], previous.entries[name]);
        }
      }
    }
  }

  /** Something of the restored tree stands at `path`, or a file of it stands above. */
  ghost predicate Shadowed(restored: Tree, path: Path)
    decreases |path|
  {
    || path == []
    || !restored.Dir?
    || (path[0] in restored.entries && Shadowed(restored.entries[path[0]], path[1..]))
  }

  // What stands at a place: a file with its bytes, a directory, or nothing.
  function Shown(found: Option<Tree>): Option<Tree> {
    match found
    case Some(Dir(_)) => Some(Dir(map[]))
    case _ => found
  }

  ghost function OverlayShows(restored: Tree, previous: Tree, path: Path): Option<Tree> {
    var was, now := Lookup(previous, path), Lookup(restored, path);
    if now.Some? then Shown(now)
    else if !Shadowed(restored, path) && was.Some? && (was.value.File? || was.value.Dir?) then Shown(was)
    else None
  }

  /**
   * At every path the overlay shows what was restored there, or else the old
   * file or directory if nothing restored shadows it, or else nothing.
   */
  lemma {:induction false} OverlayContents(restored: Tree, previous: Tree, path: Path)
    ensures Shown(Lookup(Overlay(restored, previous), path)) == OverlayShows(restored, previous, path)
    decreases previous, |path|
  {
    if restored.Dir? && previous.Dir? && path != [] {
      var name, rest := path[0], path[1..];
      var laid := Laid(restored, previous, name);
      LaidIs(restored, previous, name);
      assert Lookup(Overlay(restored, previous), path) == (if laid.Some? then Lookup(laid.value, rest) else None);
      if name in previous.entries {
        var entry := previous.entries[name];
        assert Lookup(previous, path) == Lookup(entry, rest);
        assert rest == [] ==> Lookup(entry, rest) == Some(entry);
        if name in restored.entries {
          OverlayContents(restored.entries[name], entry, rest);
        } else {
          assert Lookup(restored, path) == None && !Shadowed(restored, path);
          if entry.Dir? {
            OverlayContents(Dir(map[]), entry, rest);
            assert Shadowed(Dir(map[]), rest) <==> rest == [];
            assert laid == Some(Overlay(Dir(map[]), entry));
          }
        }
      }
    }
  }
}
