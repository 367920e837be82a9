/** Publishing a verified restore next to, or in place of, an existing project folder. */
module Restore {
  import opened Json
  import opened Locations
  import T = FileTree

  type Directory = map<string, T.Tree>

  datatype Collision = AbortIfExists | Duplicate | Overwrite | DeleteAndReplace

  datatype Failure =
    | NowExists(name: string)
    | NoStaging
    | DownloadFailed
    | HashFailed
    | MissingFiles(count: nat)
    | PublishFailed
    | VerifyFailed
    | Appeared(name: string)
    | ProtectFailed
    | InstallFailed
    | RolledBack
    | RollbackFailed(quarantine: string)

  // What the provider hands over: a whole tree, of which some referenced files
  // may be missing, or whatever a failed transfer left behind.
  datatype Download = Fetched(tree: T.Tree, missing: nat) | Broken(partial: T.Tree)

  datatype Attempt = Attempt(source: string, target: string, ok: bool)

  // What works, apart from renames and removals: creating the staging folder,
  // reading it, copying what is missing, and reading back what was installed.
  datatype Disk = Disk(stages: bool, hashing: T.Works, copying: T.Copying, verifying: T.Works)

  ghost predicate AllOk(renames: seq<Attempt>) {
    forall attempt :: attempt in renames ==> attempt.ok
  }

  /**
   * The folder that holds the projects. Every operation may fail; `history`
   * is every state the folder has been in, `renames` every rename tried.
   */
  class Volume {
    var entries: Directory
    ghost var history: seq<Directory>
    ghost var renames: seq<Attempt>

    constructor (initial: Directory)
      ensures entries == initial && history == [initial] && renames == []
    {
      entries := initial;
      history := [initial];
      renames := [];
    }

    // A failed rename leaves the folder as it was.
    method Rename(source: string, target: string) returns (ok: bool)
      requires source in entries && target !in entries
      modifies this
      ensures entries == if ok then (old(entries) - {source})[target := old(entries)[source]] else old(entries)
      ensures history == old(history) + [entries]
      ensures renames == old(renames) + [Attempt(source, target, ok)]
    {
      ok := *;
      if ok {
        entries := (entries - {source})[target := entries[source]];
      }
      history := history + [entries];
      renames := renames + [Attempt(source, target, ok)];
    }

    // Recursive removal; a failure may stop half way and leave anything behind.
    method Remove(name: string) returns (ok: bool)
      modifies this
      ensures Others(old(entries), entries, {name})
      ensures ok ==> name !in entries
      ensures !ok ==> (name in entries <==> name in old(entries))
      ensures name !in old(entries) ==> entries == old(entries)
      ensures history == old(history) + [entries] && renames == old(renames)
    {
      ok := *;
      if name !in entries {
        ok := false;
      } else if ok {
        entries := entries - {name};
      } else {
        var left: T.Tree := *;
        entries := entries[name := left];
      }
      history := history + [entries];
    }

    method Put(name: string, tree: T.Tree)
      modifies this
      ensures entries == old(entries)[name := tree]
      ensures history == old(history) + [entries] && renames == old(renames)
    {
      entries := entries[name := tree];
      history := history + [entries];
    }
  }

  ghost predicate Others(before: Directory, after: Directory, names: set<string>) {
    forall name :: name !in names ==>
      (name in before <==> name in after) && (name in before && name in after ==> before[name] == after[name])
  }

  /** The tree stands whole at its own name, or under the quarantine's. */
  ghost predicate Intact(state: Directory, final: string, quarantine: string, tree: T.Tree) {
    Get(state, final) == Some(tree) || Get(state, quarantine) == Some(tree)
  }

  // A rename that would have put things back was tried, and failed.
  ghost predicate CompensationFailed(renames: seq<Attempt>, staging: string, final: string, quarantine: string) {
    Attempt(final, staging, false) in renames || Attempt(quarantine, final, false) in renames
  }

  // ------------------------------------------------------------ free names

  function Numbered(prefix: string, n: nat, suffix: string): string {
    prefix + Decimal(n) + suffix
  }

  lemma NumberedDiffer(prefix: string, suffix: string, m: nat, n: nat)
    requires m != n
    ensures Numbered(prefix, m, suffix) != Numbered(prefix, n, suffix)
  {
    DecimalValue(m);
    DecimalValue(n);
    var (x, y) := (Numbered(prefix, m, suffix), Numbered(prefix, n, suffix));
    if |x| == |y| {
      assert x[|prefix|..|x| - |suffix|] == Decimal(m);
      assert y[|prefix|..|y| - |suffix|] == Decimal(n);
    }
  }

  /** Finitely many names hold finitely many numbered ones. */
  lemma {:induction false} NumberedFit(taken: set<string>, prefix: string, suffix: string, start: nat, n: nat)
    requires start <= n && forall m: nat :: start <= m < n ==> Numbered(prefix, m, suffix) in taken
    ensures n - start <= |taken|
    decreases n
  {
    if start < n {
      var last := Numbered(prefix, n - 1, suffix);
      forall m: nat | start <= m < n - 1 ensures Numbered(prefix, m, suffix) in taken - {last} {
        NumberedDiffer(prefix, suffix, m, n - 1);
      }
      NumberedFit(taken - {last}, prefix, suffix, start, n - 1);
    }
  }

  /** The first numbered name not taken; the numbers outlast the names. */
  method FirstFree(taken: Directory, prefix: string, suffix: string, start: nat) returns (name: string, n: nat)
    ensures n >= start && name == Numbered(prefix, n, suffix)
    ensures IsFirst(taken, prefix, suffix, start, name)
  {
    n := start;
    while Numbered(prefix, n, suffix) in taken
      invariant n >= start
      invariant forall m: nat :: start <= m < n ==> Numbered(prefix, m, suffix) in taken
      decreases |taken.Keys| + 1 - (n - start)
    {
      NumberedFit(taken.Keys, prefix, suffix, start, n + 1);
      n := n + 1;
    }
    name := Numbered(prefix, n, suffix);
    forall m: nat | start <= m < n ensures prefix + Decimal(m) + suffix in taken {
      assert Numbered(prefix, m, suffix) in taken;
    }
    assert name == prefix + Decimal(n) + suffix;
  }

  /** The name with the lowest number, from `start` up, that is free. */
  ghost predicate IsFirst(taken: Directory, prefix: string, suffix: string, start: nat, name: string) {
    exists n: nat :: start <= n && name == prefix + Decimal(n) + suffix && name !in taken &&
      forall m: nat :: start <= m < n ==> prefix + Decimal(m) + suffix in taken
  }

  /** Where the restore goes, or a refusal because something is already there. */
  method ResolveCollision(taken: Directory, requested: string, collision: Collision)
    returns (final: Result<string, Failure>)
    ensures requested !in taken ==> final == Ok(requested)
    ensures requested in taken && collision.AbortIfExists? ==> final == Err(NowExists(requested))
    ensures requested in taken && collision.Duplicate? ==>
      final.Ok? && IsFirst(taken, requested + " (", ")", 2, final.value)
    ensures requested in taken && (collision.Overwrite? || collision.DeleteAndReplace?) ==> final == Ok(requested)
  {
    if requested !in taken {
      return Ok(requested);
    }
    match collision
    case AbortIfExists => final := Err(NowExists(requested));
    case Duplicate =>
      var name, _ := FirstFree(taken, requested + " (", ")", 2);
      final := Ok(name);
    case Overwrite => final := Ok(requested);
    case DeleteAndReplace => final := Ok(requested);
  }

  // ------------------------------------------------------------ publishing

  // The states added to a history, and the renames tried.
  ghost function Since<X>(before: seq<X>, after: seq<X>): seq<X> {
    if before <= after then after[|before|..] else after
  }

  // Only the three names are ever involved.
  ghost predicate Confined(start: Directory, states: seq<Directory>, names: set<string>) {
    forall state :: state in states ==> Others(start, state, names)
  }

  ghost predicate AllIntact(states: seq<Directory>, final: string, quarantine: string, tree: T.Tree) {
    forall state :: state in states ==> Intact(state, final, quarantine, tree)
  }

  lemma SinceThrough<X>(one: seq<X>, two: seq<X>, three: seq<X>)
    requires one <= two <= three
    ensures Since(one, three) == Since(one, two) + Since(two, three)
  {
  }

  lemma ConfinedThrough(start: Directory, middle: Directory, p: seq<Directory>, q: seq<Directory>, names: set<string>)
    requires Others(start, middle, names) && Confined(start, p, names) && Confined(middle, q, names)
    ensures Confined(start, p + q, names)
  {
  }

  lemma IntactThrough(p: seq<Directory>, q: seq<Directory>, final: string, quarantine: string, tree: T.Tree)
    requires AllIntact(p, final, quarantine, tree) && AllIntact(q, final, quarantine, tree)
    ensures AllIntact(p + q, final, quarantine, tree)
  {
  }

  lemma SinceLast<X>(one: seq<X>, two: seq<X>, x: X)
    requires one <= two
    ensures Since(one, two + [x]) == Since(one, two) + [x]
  {
  }

  predicate Replaces(collision: Collision) {
    collision.Overwrite? || collision.DeleteAndReplace?
  }

  method Rollback(volume: Volume, final: string, staging: string, quarantine: string) returns (ok: bool)
    requires final in volume.entries && staging !in volume.entries && quarantine in volume.entries
    requires final != staging && final != quarantine && staging != quarantine
    modifies volume
    ensures old(volume.history) <= volume.history && old(volume.renames) <= volume.renames
    ensures ok ==> Get(volume.entries, final) == Some(old(volume.entries)[quarantine])
    ensures !ok ==>
      && Get(volume.entries, quarantine) == Some(old(volume.entries)[quarantine])
      && CompensationFailed(Since(old(volume.renames), volume.renames), staging, final, quarantine)
    ensures AllIntact(Since(old(volume.history), volume.history), final, quarantine, old(volume.entries)[quarantine])
    ensures Confined(old(volume.entries), Since(old(volume.history), volume.history), {staging, final, quarantine})
    ensures Others(old(volume.entries), volume.entries, {staging, final, quarantine})
  {
    ok := volume.Rename(final, staging);
    ghost var moved := Attempt(final, staging, ok);
    ghost var first := volume.entries;
    OneRename(old(volume.history), old(volume.renames), first, moved);
    if ok {
      ok := volume.Rename(quarantine, final);
      TwoRenames(old(volume.history), old(volume.renames), first, moved,
                 volume.entries, Attempt(quarantine, final, ok));
    }
  }

  // A tree moved to a free name, and perhaps moved back.
  lemma MovedThere(start: Directory, staging: string, final: string)
    requires staging in start && staging != final && final !in start
    ensures var there := (start - {staging})[final := start[staging]];
            && Others(start, there, {staging, final}) && Get(there, final) == Some(start[staging])
            && staging !in there && (there - {final})[staging := there[final]] == start
    ensures Others(start, start, {staging, final})
  {
  }

  method PublishNew(
    volume: Volume, staging: string, final: string, expected: seq<T.Expected>, hash: Bytes -> Digest, disk: Disk)
    returns (result: Result<Option<string>, Failure>)
    requires staging in volume.entries && staging != final && final !in volume.entries
    modifies volume
    ensures old(volume.history) < volume.history && old(volume.renames) <= volume.renames
    ensures result.Ok? ==>
      && result.value == None
      && volume.entries == (old(volume.entries) - {staging})[final := old(volume.entries)[staging]]
      && T.Verified(volume.entries[final], expected, hash)
    ensures result.Ok? <==>
      && AllOk(Since(old(volume.renames), volume.renames))
      && T.Verified(old(volume.entries)[staging], expected, hash) && T.AllRead(expected, disk.verifying)
    ensures result.Err? ==>
      || volume.entries == old(volume.entries)
      || (&& Attempt(final, staging, false) in Since(old(volume.renames), volume.renames)
          && volume.entries == (old(volume.entries) - {staging})[final := old(volume.entries)[staging]])
    ensures result.Err? ==>
      || (&& result.error == PublishFailed
          && Since(old(volume.renames), volume.renames) == [Attempt(staging, final, false)])
      || (&& result.error == VerifyFailed
          && !(T.Verified(old(volume.entries)[staging], expected, hash) && T.AllRead(expected, disk.verifying)))
    ensures Confined(old(volume.entries), Since(old(volume.history), volume.history), {staging, final})
    ensures Others(old(volume.entries), volume.entries, {staging, final})
  {
    MovedThere(volume.entries, staging, final);
    var moved := volume.Rename(staging, final);
    ghost var first := volume.entries;
    OneRename(old(volume.history), old(volume.renames), first, Attempt(staging, final, moved));
    if !moved {
      return Err(PublishFailed);
    }
    var verified := T.VerifyRestoreTree(volume.entries[final], expected, hash, disk.verifying);
    if !verified {
      var back := volume.Rename(final, staging);
      TwoRenames(old(volume.history), old(volume.renames), first, Attempt(staging, final, true),
                 volume.entries, Attempt(final, staging, back));
      return Err(VerifyFailed);
    }
    result := Ok(None);
  }

  // The new tree is in place and the old one in quarantine: fill in what is missing, and verify.
  method FillAndVerify(
    volume: Volume, final: string, quarantine: string, expected: seq<T.Expected>, collision: Collision,
    hash: Bytes -> Digest, disk: Disk)
    returns (ok: bool)
    requires final in volume.entries && quarantine in volume.entries && final != quarantine
    requires volume.entries[final].Dir? && T.NoLinks(volume.entries[final])
    modifies volume
    ensures old(volume.history) <= volume.history && volume.renames == old(volume.renames)
    ensures final in volume.entries && Others(old(volume.entries), volume.entries, {final})
    ensures ok <==>
      Completes(collision, old(volume.entries)[final], old(volume.entries)[quarantine], expected, hash, disk)
    ensures ok && collision.Overwrite? ==>
      volume.entries[final] == T.Overlay(old(volume.entries)[final], old(volume.entries)[quarantine])
    ensures ok && !collision.Overwrite? ==> volume.entries[final] == old(volume.entries)[final]
    ensures Confined(old(volume.entries), Since(old(volume.history), volume.history), {final})
  {
    ok := true;
    if collision.Overwrite? {
      var merged;
      ok, merged := T.CopyMissingEntries(volume.entries[quarantine], volume.entries[final], [], disk.copying);
      volume.Put(final, merged);
      assert Since(old(volume.history), volume.history) == [volume.entries];
    }
    if ok {
      ok := T.VerifyRestoreTree(volume.entries[final], expected, hash, disk.verifying);
    }
  }

  /** Whether what is installed can be filled in, read back, and verifies. */
  ghost predicate Completes(collision: Collision, restored: T.Tree, previous: T.Tree, expected: seq<T.Expected>,
                            hash: Bytes -> Digest, disk: Disk)
    requires restored.Dir?
  {
    && (collision.Overwrite? ==>
          && previous.Dir? && T.Copyable(restored, previous, [], disk.copying)
          && T.Verified(T.Overlay(restored, previous), expected, hash))
    && (!collision.Overwrite? ==> T.Verified(restored, expected, hash))
    && T.AllRead(expected, disk.verifying)
  }

  // Then either drop the quarantine or put everything back.
  method FinishReplacement(
    volume: Volume, staging: string, final: string, quarantine: string, expected: seq<T.Expected>,
    collision: Collision, hash: Bytes -> Digest, disk: Disk)
    returns (result: Result<Option<string>, Failure>)
    requires staging !in volume.entries && final in volume.entries && quarantine in volume.entries
    requires staging != final && final != quarantine && staging != quarantine
    requires volume.entries[final].Dir? && T.NoLinks(volume.entries[final])
    modifies volume
    ensures old(volume.history) <= volume.history && old(volume.renames) <= volume.renames
    ensures result.Ok? <==>
      Completes(collision, old(volume.entries)[final], old(volume.entries)[quarantine], expected, hash, disk)
    ensures result.Ok? ==> volume.renames == old(volume.renames)
    ensures result.Ok? ==>
      && Get(volume.entries, final) ==
         Some(if collision.Overwrite? then T.Overlay(old(volume.entries)[final], old(volume.entries)[quarantine])
              else old(volume.entries)[final])
      && T.Verified(volume.entries[final], expected, hash)
      && result.value == (if quarantine in volume.entries then Some(quarantine) else None)
      && |volume.history| > |old(volume.history)|
    ensures AllIntact(BeforeDrop(result.Ok?, Since(old(volume.history), volume.history)), final, quarantine,
                      old(volume.entries)[quarantine])
    ensures result.Err? ==>
      || (result.error == RolledBack && Get(volume.entries, final) == Some(old(volume.entries)[quarantine]))
      || (&& result.error == RollbackFailed(quarantine)
          && Get(volume.entries, quarantine) == Some(old(volume.entries)[quarantine]))
    ensures result.Err? ==>
      || Get(volume.entries, final) == Some(old(volume.entries)[quarantine])
      || (&& Get(volume.entries, quarantine) == Some(old(volume.entries)[quarantine])
          && CompensationFailed(Since(old(volume.renames), volume.renames), staging, final, quarantine))
    ensures Confined(old(volume.entries), Since(old(volume.history), volume.history), {staging, final, quarantine})
    ensures Others(old(volume.entries), volume.entries, {staging, final, quarantine})
  {
    var verified := FillAndVerify(volume, final, quarantine, expected, collision, hash, disk);
    ghost var (states, middle) := (volume.history, volume.entries);
    ghost var tree := old(volume.entries)[quarantine];
    assert AllIntact(Since(old(volume.history), states), final, quarantine, tree);
    if !verified {
      var undone := Rollback(volume, final, staging, quarantine);
      SinceThrough(old(volume.history), states, volume.history);
      ConfinedThrough(old(volume.entries), middle, Since(old(volume.history), states), Since(states, volume.history),
                      {staging, final, quarantine});
      IntactThrough(Since(old(volume.history), states), Since(states, volume.history), final, quarantine, tree);
      return Err(if undone then RolledBack else RollbackFailed(quarantine));
    }
    var dropped := volume.Remove(quarantine);
    SinceLast(old(volume.history), states, volume.entries);
    result := Ok(if dropped then None else Some(quarantine));
  }

  // The states up to the moment the verified tree is accepted: a success adds
  // one more, in which the quarantine has been dropped.
  ghost function BeforeDrop(ok: bool, states: seq<Directory>): seq<Directory> {
    if ok && states != [] then states[..|states| - 1] else states
  }

  /** Which step of a replacement a failure is about, and where the old tree is after a rollback. */
  ghost predicate ReplaceFailed(failure: Failure, tries: seq<Attempt>, staging: string, final: string,
                                quarantine: string, tree: T.Tree, after: Directory)
  {
    var (aside, installed) := (Attempt(final, quarantine, true), Attempt(staging, final, true));
    match failure
    case ProtectFailed => tries == [aside.(ok := false)]
    case InstallFailed => [aside, installed.(ok := false)] <= tries
    case RolledBack => [aside, installed] <= tries && Get(after, final) == Some(tree)
    case RollbackFailed(name) =>
      [aside, installed] <= tries && name == quarantine && Get(after, quarantine) == Some(tree)
    case _ => false
  }

  /** Set the old tree aside, move the staged one in, and finish or undo. */
  method Replace(
    volume: Volume, staging: string, final: string, quarantine: string, expected: seq<T.Expected>,
    collision: Collision, hash: Bytes -> Digest, disk: Disk)
    returns (result: Result<Option<string>, Failure>)
    requires staging in volume.entries && final in volume.entries && quarantine !in volume.entries
    requires staging != final
    requires volume.entries[staging].Dir? && T.NoLinks(volume.entries[staging])
    modifies volume
    ensures old(volume.history) <= volume.history && old(volume.renames) <= volume.renames
    ensures result.Ok? ==> |old(volume.history)| < |volume.history|
    ensures result.Ok? <==>
      && AllOk(Since(old(volume.renames), volume.renames))
      && Completes(collision, old(volume.entries)[staging], old(volume.entries)[final], expected, hash, disk)
    ensures result.Ok? ==>
      && Get(volume.entries, final) ==
         Some(if collision.Overwrite? then T.Overlay(old(volume.entries)[staging], old(volume.entries)[final])
              else old(volume.entries)[staging])
      && T.Verified(volume.entries[final], expected, hash)
      && result.value == (if quarantine in volume.entries then Some(quarantine) else None)
    ensures result.Err? ==> ReplaceFailed(
      result.error, Since(old(volume.renames), volume.renames), staging, final, quarantine,
      old(volume.entries)[final], volume.entries)
    ensures result.Err? && (result.error.RolledBack? || result.error.RollbackFailed?) ==>
      !Completes(collision, old(volume.entries)[staging], old(volume.entries)[final], expected, hash, disk)
    ensures AllIntact(BeforeDrop(result.Ok?, Since(old(volume.history), volume.history)), final, quarantine,
                      old(volume.entries)[final])
    ensures result.Err? ==>
      || Get(volume.entries, final) == Some(old(volume.entries)[final])
      || (&& Get(volume.entries, quarantine) == Some(old(volume.entries)[final])
          && CompensationFailed(Since(old(volume.renames), volume.renames), staging, final, quarantine))
    ensures Confined(old(volume.entries), Since(old(volume.history), volume.history), {staging, final, quarantine})
    ensures Others(old(volume.entries), volume.entries, {staging, final, quarantine})
  {
    ghost var (tree, names) := (volume.entries[final], {staging, final, quarantine});
    var installed, failure := Install(volume, staging, final, quarantine);
    if !installed {
      return Err(failure);
    }
    ghost var (states, middle, tries) := (volume.history, volume.entries, volume.renames);
    result := FinishReplacement(volume, staging, final, quarantine, expected, collision, hash, disk);
    ghost var (p, q) := (Since(old(volume.history), states), Since(states, volume.history));
    SinceThrough(old(volume.history), states, volume.history);
    SinceThrough(old(volume.renames), tries, volume.renames);
    ConfinedThrough(old(volume.entries), middle, p, q, names);
    assert BeforeDrop(result.Ok?, p + q) == p + BeforeDrop(result.Ok?, q);
    IntactThrough(p, BeforeDrop(result.Ok?, q), final, quarantine, tree);
  }

  // The two renames of a replacement; a failure of the second is undone if possible.
  method Install(volume: Volume, staging: string, final: string, quarantine: string)
    returns (ok: bool, failure: Failure)
    requires staging in volume.entries && final in volume.entries && quarantine !in volume.entries
    requires staging != final
    modifies volume
    ensures old(volume.history) <= volume.history && old(volume.renames) <= volume.renames
    ensures ok <==> AllOk(Since(old(volume.renames), volume.renames))
    ensures ok ==>
      && staging !in volume.entries
      && Get(volume.entries, final) == Some(old(volume.entries)[staging])
      && Get(volume.entries, quarantine) == Some(old(volume.entries)[final])
    ensures ok ==> Since(old(volume.renames), volume.renames) ==
                   [Attempt(final, quarantine, true), Attempt(staging, final, true)]
    ensures !ok ==>
      || (failure == ProtectFailed && Since(old(volume.renames), volume.renames) == [Attempt(final, quarantine, false)])
      || (&& failure == InstallFailed
          && [Attempt(final, quarantine, true), Attempt(staging, final, false)] <=
             Since(old(volume.renames), volume.renames))
    ensures !ok ==>
      || Get(volume.entries, final) == Some(old(volume.entries)[final])
      || (&& Get(volume.entries, quarantine) == Some(old(volume.entries)[final])
          && CompensationFailed(Since(old(volume.renames), volume.renames), staging, final, quarantine))
    ensures AllIntact(Since(old(volume.history), volume.history), final, quarantine, old(volume.entries)[final])
    ensures Confined(old(volume.entries), Since(old(volume.history), volume.history), {staging, final, quarantine})
    ensures Others(old(volume.entries), volume.entries, {staging, final, quarantine})
  {
    ghost var (tree, names) := (volume.entries[final], {staging, final, quarantine});
    ok := volume.Rename(final, quarantine);
    ghost var (states, middle, tries) := (volume.history, volume.entries, volume.renames);
    assert Since(old(volume.history), states) == [middle];
    assert Since(old(volume.renames), tries) == [Attempt(final, quarantine, ok)];
    failure := ProtectFailed;
    if !ok {
      return;
    }
    failure := InstallFailed;
    ok := MoveIn(volume, staging, final, quarantine);
    SinceThrough(old(volume.history), states, volume.history);
    SinceThrough(old(volume.renames), tries, volume.renames);
    Behind(Attempt(final, quarantine, true), Since(tries, volume.renames));
    ConfinedThrough(old(volume.entries), middle, [middle], Since(states, volume.history), names);
    IntactThrough([middle], Since(states, volume.history), final, quarantine, tree);
  }

  method MoveIn(volume: Volume, staging: string, final: string, quarantine: string) returns (ok: bool)
    requires staging in volume.entries && final !in volume.entries && quarantine in volume.entries
    requires staging != final && staging != quarantine
    modifies volume
    ensures old(volume.history) <= volume.history && old(volume.renames) <= volume.renames
    ensures ok <==> AllOk(Since(old(volume.renames), volume.renames))
    ensures ok ==> Since(old(volume.renames), volume.renames) == [Attempt(staging, final, true)]
    ensures !ok ==> [Attempt(staging, final, false)] <= Since(old(volume.renames), volume.renames)
    ensures ok ==>
      && staging !in volume.entries
      && Get(volume.entries, final) == Some(old(volume.entries)[staging])
      && Get(volume.entries, quarantine) == Some(old(volume.entries)[quarantine])
    ensures !ok ==>
      || Get(volume.entries, final) == Some(old(volume.entries)[quarantine])
      || (&& Get(volume.entries, quarantine) == Some(old(volume.entries)[quarantine])
          && CompensationFailed(Since(old(volume.renames), volume.renames), staging, final, quarantine))
    ensures AllIntact(Since(old(volume.history), volume.history), final, quarantine, old(volume.entries)[quarantine])
    ensures Confined(old(volume.entries), Since(old(volume.history), volume.history), {staging, final, quarantine})
    ensures Others(old(volume.entries), volume.entries, {staging, final, quarantine})
  {
    ok := volume.Rename(staging, final);
    ghost var first := volume.entries;
    OneRename(old(volume.history), old(volume.renames), first, Attempt(staging, final, ok));
    assert Others(old(volume.entries), first, {staging, final, quarantine});
    if !ok {
      var back := volume.Rename(quarantine, final);
      TwoRenames(old(volume.history), old(volume.renames), first, Attempt(staging, final, false),
                 volume.entries, Attempt(quarantine, final, back));
    }
  }

  lemma Behind(first: Attempt, rest: seq<Attempt>)
    ensures forall next :: [next] <= rest ==> [first, next] <= [first] + rest
  {
  }

  // What one rename, or two, add to the history.
  lemma OneRename(history: seq<Directory>, renames: seq<Attempt>, state: Directory, attempt: Attempt)
    ensures Since(history, history + [state]) == [state] && Since(renames, renames + [attempt]) == [attempt]
    ensures AllOk([attempt]) <==> attempt.ok
  {
    assert [attempt][0] == attempt;
  }

  lemma TwoRenames(
    history: seq<Directory>, renames: seq<Attempt>, first: Directory, one: Attempt, second: Directory, two: Attempt)
    ensures Since(history, history + [first] + [second]) == [first, second]
    ensures Since(renames, renames + [one] + [two]) == [one, two]
    ensures AllOk([one, two]) <==> one.ok && two.ok
  {
    assert [one, two][0] == one && [one, two][1] == two;
  }

  /** Whether a staged tree can be published if every rename works. */
  ghost predicate Publishable(
    start: Directory, staging: string, final: string, expected: seq<T.Expected>, collision: Collision,
    hash: Bytes -> Digest, disk: Disk)
    requires staging in start && start[staging].Dir?
  {
    if final !in start then T.Verified(start[staging], expected, hash) && T.AllRead(expected, disk.verifying)
    else Replaces(collision) && Completes(collision, start[staging], start[final], expected, hash, disk)
  }

  /** Which step of a publication a failure is about. */
  ghost predicate PublicationFailed(
    failure: Failure, collision: Collision, tries: seq<Attempt>, staging: string, final: string, quarantine: string,
    before: Directory, after: Directory)
  {
    match failure
    case PublishFailed => final !in before && tries == [Attempt(staging, final, false)]
    case VerifyFailed => final !in before
    case Appeared(name) => name == final && final in before && tries == [] && !Replaces(collision)
    case _ => final in before && ReplaceFailed(failure, tries, staging, final, quarantine, before[final], after)
  }

  /** What publishing a staged, hashed tree does to the folder, whichever operations fail. */
  method PublishVerifiedRestore(
    volume: Volume, staging: string, final: string, pid: string, expected: seq<T.Expected>, collision: Collision,
    hash: Bytes -> Digest, disk: Disk)
    returns (result: Result<Option<string>, Failure>, ghost quarantine: string)
    requires staging in volume.entries && staging != final
    requires volume.entries[staging].Dir? && T.NoLinks(volume.entries[staging])
    modifies volume
    ensures old(volume.history) <= volume.history && old(volume.renames) <= volume.renames
    ensures quarantine !in old(volume.entries)
    // Success means verified, and only three names are ever involved.
    ensures result.Ok? <==>
      && AllOk(Since(old(volume.renames), volume.renames))
      && Publishable(old(volume.entries), staging, final, expected, collision, hash, disk)
    ensures result.Ok? ==> |old(volume.history)| < |volume.history|
    ensures result.Ok? ==> final in volume.entries && T.Verified(volume.entries[final], expected, hash)
    ensures Confined(old(volume.entries), Since(old(volume.history), volume.history), {staging, final, quarantine})
    ensures Others(old(volume.entries), volume.entries, {staging, final, quarantine})
    ensures final in old(volume.entries) && Replaces(collision) ==>
      IsFirst(old(volume.entries), "." + final + ".auru-previous-" + pid + "-", "", 1, quarantine)
    ensures result.Err? ==> PublicationFailed(
      result.error, collision, Since(old(volume.renames), volume.renames), staging, final, quarantine,
      old(volume.entries), volume.entries)
    ensures result.Err? && (result.error.VerifyFailed? || result.error.RolledBack? || result.error.RollbackFailed?) ==>
      !Publishable(old(volume.entries), staging, final, expected, collision, hash, disk)
    // Nothing in the way: the staged tree moves in, or moves back.
    ensures final !in old(volume.entries) && result.Ok? ==>
      && result.value == None
      && volume.entries == (old(volume.entries) - {staging})[final := old(volume.entries)[staging]]
    ensures final !in old(volume.entries) && result.Err? ==>
      || volume.entries == old(volume.entries)
      || (&& Attempt(final, staging, false) in Since(old(volume.renames), volume.renames)
          && volume.entries == (old(volume.entries) - {staging})[final := old(volume.entries)[staging]])
    // A folder that appeared meanwhile is never touched.
    ensures final in old(volume.entries) && !Replaces(collision) ==>
      result == Err(Appeared(final)) && volume.entries == old(volume.entries) && volume.history == old(volume.history)
    // A folder to be replaced is whole at every step until the new tree verifies.
    ensures final in old(volume.entries) && Replaces(collision) ==>
      AllIntact(BeforeDrop(result.Ok?, Since(old(volume.history), volume.history)), final, quarantine,
                old(volume.entries)[final])
    ensures final in old(volume.entries) && Replaces(collision) && result.Ok? ==>
      && Get(volume.entries, final) ==
         Some(if collision.Overwrite? then T.Overlay(old(volume.entries)[staging], old(volume.entries)[final])
              else old(volume.entries)[staging])
      && result.value == (if quarantine in volume.entries then Some(quarantine) else None)
    ensures final in old(volume.entries) && Replaces(collision) && result.Err? ==>
      || Get(volume.entries, final) == Some(old(volume.entries)[final])
      || (&& Get(volume.entries, quarantine) == Some(old(volume.entries)[final])
          && CompensationFailed(Since(old(volume.renames), volume.renames), staging, final, quarantine))
  {
    var aside, _ := FirstFree(volume.entries, "." + final + ".auru-previous-" + pid + "-", "", 1);
    quarantine := aside;
    if final !in volume.entries {
      result := PublishNew(volume, staging, final, expected, hash, disk);
    } else if !Replaces(collision) {
      result := Err(Appeared(final));
    } else {
      result := Replace(volume, staging, final, aside, expected, collision, hash, disk);
    }
  }

  // ----------------------------------------------------------------- staging

  // Best-effort removal of the staging folder; nothing else changes.
  method DropStaging(volume: Volume, staging: string)
    modifies volume
    ensures Others(old(volume.entries), volume.entries, {staging})
    ensures staging !in old(volume.entries) ==> volume.entries == old(volume.entries)
    ensures volume.history == old(volume.history) + [volume.entries] && volume.renames == old(volume.renames)
  {
    var _ := volume.Remove(staging);
  }

  /** Whether what the provider hands over may be published at all. */
  ghost predicate Stageable(download: Download, collision: Collision, disk: Disk) {
    && download.Fetched? && download.tree.Dir? && T.NoLinks(download.tree)
    && T.Readable(download.tree, [], disk.hashing)
    && !(download.missing > 0 && Replaces(collision))
  }

  /** Which step of the staging a failure is about. */
  ghost predicate StagingFailed(failure: Failure, download: Download, collision: Collision, disk: Disk) {
    match failure
    case NoStaging => !disk.stages
    case DownloadFailed => disk.stages && download.Broken?
    case HashFailed =>
      && disk.stages && download.Fetched?
      && !(download.tree.Dir? && T.NoLinks(download.tree) && T.Readable(download.tree, [], disk.hashing))
    case MissingFiles(count) =>
      && disk.stages && download.Fetched? && count == download.missing > 0
      && download.tree.Dir? && T.NoLinks(download.tree) && T.Readable(download.tree, [], disk.hashing)
      && (collision.Overwrite? || collision.DeleteAndReplace?)
    case _ => false
  }

  // Fill the staging folder and hash it, unless the restore may not go on.
  method Stage(
    volume: Volume, staging: string, download: Download, collision: Collision, hash: Bytes -> Digest, disk: Disk)
    returns (expected: Result<seq<T.Expected>, Failure>)
    requires staging !in volume.entries
    modifies volume
    ensures old(volume.history) <= volume.history && volume.renames == old(volume.renames)
    ensures Confined(old(volume.entries), Since(old(volume.history), volume.history), {staging})
    ensures Others(old(volume.entries), volume.entries, {staging})
    ensures expected.Ok? <==> disk.stages && Stageable(download, collision, disk)
    ensures expected.Err? ==> StagingFailed(expected.error, download, collision, disk)
    ensures expected.Ok? ==>
      && download.Fetched? && download.tree.Dir? && T.NoLinks(download.tree)
      && Get(volume.entries, staging) == Some(download.tree)
      && expected.value == T.Listing(download.tree, [], hash)
  {
    if !disk.stages {
      return Err(NoStaging);
    }
    volume.Put(staging, match download case Fetched(tree, _) => tree case Broken(partial) => partial);
    ghost var filled := volume.entries;
    assert Since(old(volume.history), volume.history) == [filled];
    if download.Broken? {
      expected := Err(DownloadFailed);
    } else {
      var hashes := T.HashRestoreTree(download.tree, hash, disk.hashing);
      if hashes.None? {
        expected := Err(HashFailed);
      } else if download.missing > 0 && Replaces(collision) {
        expected := Err(MissingFiles(download.missing));
      } else {
        expected := Ok(hashes.value);
      }
    }
    if expected.Err? {
      DropStaging(volume, staging);
      assert Since(old(volume.history), volume.history) == [filled, volume.entries];
    }
  }

  // A failure says the same once staging has been dropped.
  lemma FailureKept(
    failure: Failure, collision: Collision, tries: seq<Attempt>, staging: string, final: string, quarantine: string,
    before: Directory, middle: Directory, after: Directory)
    requires PublicationFailed(failure, collision, tries, staging, final, quarantine, before, middle)
    requires Others(middle, after, {staging}) && staging != final && staging != quarantine
    ensures PublicationFailed(failure, collision, tries, staging, final, quarantine, before, after)
  {
  }

  // Dropping staging is one more state, in which the other names are as they were.
  lemma StagingDropped(start: Directory, states: seq<Directory>, middle: Directory, after: Directory, staging: string,
                       final: string, quarantine: string)
    requires var names := {staging, final, quarantine}; Others(start, middle, names) && Confined(start, states, names)
    requires Others(middle, after, {staging}) && staging != final && staging != quarantine
    ensures var names := {staging, final, quarantine};
            Others(start, after, names) && Confined(start, states + [after], names)
    ensures Get(after, final) == Get(middle, final) && Get(after, quarantine) == Get(middle, quarantine)
    ensures forall tree :: AllIntact(states, final, quarantine, tree) && Intact(middle, final, quarantine, tree) ==>
              AllIntact(states + [after], final, quarantine, tree)
  {
  }

  // Publish, and drop whatever is left in staging when that fails.
  method PublishOrDrop(
    volume: Volume, staging: string, final: string, pid: string, expected: seq<T.Expected>, collision: Collision,
    hash: Bytes -> Digest, disk: Disk)
    returns (result: Result<Option<string>, Failure>, ghost quarantine: string)
    requires staging in volume.entries && staging != final
    requires volume.entries[staging].Dir? && T.NoLinks(volume.entries[staging])
    modifies volume
    ensures old(volume.history) <= volume.history && old(volume.renames) <= volume.renames
    ensures quarantine !in old(volume.entries)
    ensures result.Ok? <==>
      && AllOk(Since(old(volume.renames), volume.renames))
      && Publishable(old(volume.entries), staging, final, expected, collision, hash, disk)
    ensures result.Ok? ==> |old(volume.history)| < |volume.history|
    ensures result.Ok? ==> final in volume.entries && T.Verified(volume.entries[final], expected, hash)
    ensures result.Ok? && final in old(volume.entries) ==>
      && volume.entries[final] ==
         (if collision.Overwrite? then T.Overlay(old(volume.entries)[staging], old(volume.entries)[final])
          else old(volume.entries)[staging])
      && result.value == (if quarantine in volume.entries then Some(quarantine) else None)
    ensures result.Ok? && final !in old(volume.entries) ==>
      volume.entries[final] == old(volume.entries)[staging] && result.value == None
    ensures result.Err? ==> PublicationFailed(
      result.error, collision, Since(old(volume.renames), volume.renames), staging, final, quarantine,
      old(volume.entries), volume.entries)
    ensures result.Err? && (result.error.VerifyFailed? || result.error.RolledBack? || result.error.RollbackFailed?) ==>
      !Publishable(old(volume.entries), staging, final, expected, collision, hash, disk)
    ensures Confined(old(volume.entries), Since(old(volume.history), volume.history), {staging, final, quarantine})
    ensures Others(old(volume.entries), volume.entries, {staging, final, quarantine})
    ensures final in old(volume.entries) && Replaces(collision) ==>
      AllIntact(BeforeDrop(result.Ok?, Since(old(volume.history), volume.history)), final, quarantine,
                old(volume.entries)[final])
    ensures final in old(volume.entries) && Replaces(collision) && result.Err? ==>
      || Get(volume.entries, final) == Some(old(volume.entries)[final])
      || (&& Get(volume.entries, quarantine) == Some(old(volume.entries)[final])
          && CompensationFailed(Since(old(volume.renames), volume.renames), staging, final, quarantine))
  {
    result, quarantine := PublishVerifiedRestore(volume, staging, final, pid, expected, collision, hash, disk);
    if result.Err? {
      ghost var (states, middle) := (volume.history, volume.entries);
      DropStaging(volume, staging);
      FailureKept(result.error, collision, Since(old(volume.renames), volume.renames), staging, final, quarantine,
                  old(volume.entries), middle, volume.entries);
      SinceLast(old(volume.history), states, volume.entries);
      StagingDropped(old(volume.entries), Since(old(volume.history), states), middle, volume.entries, staging, final,
                     quarantine);
    }
  }

  // --------------------------------------------------------- the whole restore

  datatype Restored = Restored(name: string, verified: nat, missing: nat, previous: Option<string>)

  ghost predicate Untouched(start: Directory, states: seq<Directory>, name: string) {
    forall state :: state in states ==> Get(state, name) == Get(start, name)
  }

  lemma UntouchedIntact(start: Directory, states: seq<Directory>, final: string, quarantine: string)
    requires final in start && Untouched(start, states, final)
    ensures AllIntact(states, final, quarantine, start[final])
  {
  }

  /** Whether the restore goes through if every rename works: nothing about hashes remains to chance. */
  ghost predicate Restorable(start: Directory, home: string, download: Download, collision: Collision,
                             hash: Bytes -> Digest, disk: Disk)
  {
    && disk.stages && Stageable(download, collision, disk)
    && T.AllRead(T.Listing(download.tree, [], hash), disk.verifying)
    && (home in start ==>
          && Replaces(collision)
          && (collision.Overwrite? ==>
                start[home].Dir? && T.Copyable(download.tree, start[home], [], disk.copying)))
  }

  // What was hashed verifies wherever it is installed, filled in or not.
  lemma StagedVerifies(
    start: Directory, staging: string, final: string, tree: T.Tree, collision: Collision, hash: Bytes -> Digest,
    disk: Disk)
    requires Get(start, staging) == Some(tree) && tree.Dir?
    ensures Publishable(start, staging, final, T.Listing(tree, [], hash), collision, hash, disk) <==>
      && T.AllRead(T.Listing(tree, [], hash), disk.verifying)
      && (final in start ==>
            && Replaces(collision)
            && (collision.Overwrite? ==>
                  start[final].Dir? && T.Copyable(tree, start[final], [], disk.copying)))
  {
    var expected := T.Listing(tree, [], hash);
    T.TreeVerifiesItself(tree, hash);
    if final in start {
      T.OverlayPreserves(tree, start[final]);
      T.PreservedVerifies(tree, T.Overlay(tree, start[final]), expected, hash);
    }
  }

  // A folder not touched while staging is intact before as well as during publication.
  lemma IntactAcross(
    start: Directory, p: seq<Directory>, q: seq<Directory>, ok: bool, final: string, quarantine: string)
    requires final in start && Untouched(start, p, final) && (ok ==> q != [])
    requires AllIntact(BeforeDrop(ok, q), final, quarantine, start[final])
    ensures AllIntact(BeforeDrop(ok, p + q), final, quarantine, start[final])
  {
    UntouchedIntact(start, p, final, quarantine);
    IntactThrough(p, BeforeDrop(ok, q), final, quarantine, start[final]);
    assert BeforeDrop(ok, p + q) == p + BeforeDrop(ok, q);
  }

  /**
   * Which step a failure is about, and, once the old folder was moved, where it
   * stands: a rollback puts it back, a failed one leaves it under the name told.
   */
  ghost predicate RestoreFailed(
    failure: Failure, download: Download, collision: Collision, hash: Bytes -> Digest, disk: Disk,
    tries: seq<Attempt>, staging: string, home: string, aside: string, before: Directory, after: Directory)
  {
    match failure
    case PublishFailed => home !in before && tries == [Attempt(staging, home, false)]
    case VerifyFailed =>
      && home !in before && download.Fetched?
      && !T.AllRead(T.Listing(download.tree, [], hash), disk.verifying)
    case Appeared(name) => name == home && home in before && !collision.Overwrite? && !collision.DeleteAndReplace?
    case ProtectFailed => tries == [Attempt(home, aside, false)]
    case InstallFailed => [Attempt(home, aside, true), Attempt(staging, home, false)] <= tries
    case RolledBack =>
      && Uninstallable(download, collision, hash, disk, home, before)
      && Get(after, home) == Some(before[home])
    case RollbackFailed(name) =>
      && Uninstallable(download, collision, hash, disk, home, before)
      && name == aside && Get(after, aside) == Some(before[home])
    case _ => StagingFailed(failure, download, collision, disk)
  }

  // What was installed could not be filled in from the old folder, or not be read back.
  ghost predicate Uninstallable(download: Download, collision: Collision, hash: Bytes -> Digest, disk: Disk,
                                home: string, before: Directory)
  {
    && home in before && download.Fetched? && download.tree.Dir?
    && (|| !T.AllRead(T.Listing(download.tree, [], hash), disk.verifying)
        || (collision.Overwrite? && before[home].Dir? ==>
              !T.Copyable(download.tree, before[home], [], disk.copying)))
  }

  lemma PublicationExplained(
    failure: Failure, download: Download, collision: Collision, hash: Bytes -> Digest, disk: Disk,
    tries: seq<Attempt>, staging: string, home: string, aside: string, start: Directory, before: Directory,
    after: Directory)
    requires download.Fetched? && download.tree.Dir? && Get(start, staging) == Some(download.tree)
    requires Get(start, home) == Get(before, home)
    requires PublicationFailed(failure, collision, tries, staging, home, aside, start, after)
    requires failure.VerifyFailed? || failure.RolledBack? || failure.RollbackFailed? ==>
      !Publishable(start, staging, home, T.Listing(download.tree, [], hash), collision, hash, disk)
    ensures RestoreFailed(failure, download, collision, hash, disk, tries, staging, home, aside, before, after)
  {
    StagedVerifies(start, staging, home, download.tree, collision, hash, disk);
  }

  // Staging, hashing, the missing-files rule and publication, in their order.
  method RestoreInto(
    volume: Volume, home: string, staging: string, pid: string, download: Download, collision: Collision,
    hash: Bytes -> Digest, disk: Disk)
    returns (result: Result<Restored, Failure>, ghost aside: string)
    requires staging !in volume.entries && staging != home
    modifies volume
    ensures old(volume.history) <= volume.history && old(volume.renames) <= volume.renames
    ensures result.Ok? <==>
      && AllOk(Since(old(volume.renames), volume.renames))
      && Restorable(old(volume.entries), home, download, collision, hash, disk)
    ensures result.Ok? ==>
      && download.Fetched? && home in volume.entries
      && T.Verified(volume.entries[home], T.Listing(download.tree, [], hash), hash)
      && result.value == Restored(
           home, |T.Listing(download.tree, [], hash)|, download.missing,
           if home in old(volume.entries) && aside in volume.entries then Some(aside) else None)
    ensures result.Ok? ==>
      volume.entries[home] ==
      if home in old(volume.entries) && collision.Overwrite?
      then T.Overlay(download.tree, old(volume.entries)[home]) else download.tree
    ensures result.Err? ==> RestoreFailed(
      result.error, download, collision, hash, disk, Since(old(volume.renames), volume.renames), staging, home, aside,
      old(volume.entries), volume.entries)
    ensures aside !in old(volume.entries)
    ensures Confined(old(volume.entries), Since(old(volume.history), volume.history), {staging, home, aside})
    ensures Others(old(volume.entries), volume.entries, {staging, home, aside})
    ensures Replaces(collision) && (download.Broken? || download.missing > 0) ==>
      && result.Err?
      && Untouched(old(volume.entries), Since(old(volume.history), volume.history), home)
      && Get(volume.entries, home) == Get(old(volume.entries), home)
    ensures home in old(volume.entries) && Replaces(collision) ==>
      AllIntact(BeforeDrop(result.Ok?, Since(old(volume.history), volume.history)), home, aside,
                old(volume.entries)[home])
    ensures home in old(volume.entries) && Replaces(collision) && result.Err? ==>
      || Get(volume.entries, home) == Some(old(volume.entries)[home])
      || (&& Get(volume.entries, aside) == Some(old(volume.entries)[home])
          && CompensationFailed(Since(old(volume.renames), volume.renames), staging, home, aside))
  {
    aside := staging;
    var expected := Stage(volume, staging, download, collision, hash, disk);
    ghost var start := old(volume.entries);
    ghost var (states, middle, tries) := (volume.history, volume.entries, volume.renames);
    ghost var p := Since(old(volume.history), states);
    if home in start {
      UntouchedIntact(start, p, home, staging);
    }
    if expected.Err? {
      return Err(expected.error), aside;
    }
    StagedVerifies(middle, staging, home, download.tree, collision, hash, disk);
    var published;
    published, aside := PublishOrDrop(volume, staging, home, pid, expected.value, collision, hash, disk);
    SinceThrough(old(volume.history), states, volume.history);
    SinceThrough(old(volume.renames), tries, volume.renames);
    ghost var q := Since(states, volume.history);
    ConfinedThrough(start, middle, p, q, {staging, home, aside});
    if home in start && Replaces(collision) {
      IntactAcross(start, p, q, published.Ok?, home, aside);
    }
    if published.Err? {
      PublicationExplained(published.error, download, collision, hash, disk, Since(tries, volume.renames), staging,
                           home, aside, middle, start, volume.entries);
    }
    result := match published
      case Err(failure) => Err(failure)
      case Ok(previous) => Ok(Restored(home, |expected.value|, download.missing, previous));
  }

  lemma OthersUntouched(start: Directory, states: seq<Directory>, names: set<string>)
    requires Confined(start, states, names)
    ensures forall name :: name in start && name !in names ==> Untouched(start, states, name)
  {
  }

  // What an overlay shows, at every path.
  lemma OverlayEverywhere(restored: T.Tree, previous: T.Tree)
    ensures forall path ::
      T.Shown(T.Lookup(T.Overlay(restored, previous), path)) == T.OverlayShows(restored, previous, path)
  {
    forall path
      ensures T.Shown(T.Lookup(T.Overlay(restored, previous), path)) == T.OverlayShows(restored, previous, path)
    {
      T.OverlayContents(restored, previous, path);
    }
  }

  /**
   * The whole restore. It goes to `home`, by way of `staging`; an old folder
   * waits under the name `aside`.
   */
  method RestoreFromProvider(
    volume: Volume, requested: string, pid: string, download: Download, collision: Collision,
    hash: Bytes -> Digest, disk: Disk)
    returns (result: Result<Restored, Failure>, ghost home: string, ghost staging: string, ghost aside: string)
    modifies volume
    ensures old(volume.history) <= volume.history && old(volume.renames) <= volume.renames
    // Something already there is refused, duplicated beside or replaced.
    ensures requested in old(volume.entries) && collision.AbortIfExists? ==>
      && result == Err(NowExists(requested))
      && volume.entries == old(volume.entries) && volume.history == old(volume.history)
    ensures
      if requested in old(volume.entries) && collision.Duplicate?
      then IsFirst(old(volume.entries), requested + " (", ")", 2, home) else home == requested
    ensures !(requested in old(volume.entries) && collision.AbortIfExists?) ==>
      IsFirst(old(volume.entries), "." + home + ".auru-restoring-" + pid + "-", "", 1, staging)
    // Exactly when it goes through.
    ensures result.Ok? <==>
      && AllOk(Since(old(volume.renames), volume.renames))
      && !(requested in old(volume.entries) && collision.AbortIfExists?)
      && disk.stages && download.Fetched? && download.tree.Dir? && T.NoLinks(download.tree)
      && T.Readable(download.tree, [], disk.hashing)
      && T.AllRead(T.Listing(download.tree, [], hash), disk.verifying)
      && (collision.Overwrite? || collision.DeleteAndReplace? ==> download.missing == 0)
      && (requested in old(volume.entries) && collision.Overwrite? ==>
            && old(volume.entries)[requested].Dir?
            && T.Copyable(download.tree, old(volume.entries)[requested], [], disk.copying))
    // What is there then, path by path when it was laid over the old folder.
    ensures result.Ok? ==>
      && result.value == Restored(
           home, |T.Listing(download.tree, [], hash)|, download.missing,
           if home in old(volume.entries) && aside in volume.entries then Some(aside) else None)
      && home in volume.entries && T.Verified(volume.entries[home], T.Listing(download.tree, [], hash), hash)
    ensures result.Ok? && requested in old(volume.entries) && collision.Overwrite? ==>
      forall path :: T.Shown(T.Lookup(volume.entries[requested], path)) ==
                     T.OverlayShows(download.tree, old(volume.entries)[requested], path)
    ensures result.Ok? && !(requested in old(volume.entries) && collision.Overwrite?) ==>
      volume.entries[home] == download.tree
    // What a failure says.
    ensures result.Err? && !(requested in old(volume.entries) && collision.AbortIfExists?) ==> RestoreFailed(
      result.error, download, collision, hash, disk, Since(old(volume.renames), volume.renames), staging, home, aside,
      old(volume.entries), volume.entries)
    // Existing folders are untouched, but for a requested one that is to be replaced.
    ensures forall name ::
      name in old(volume.entries) && (name != requested || collision.AbortIfExists? || collision.Duplicate?) ==>
      && Untouched(old(volume.entries), Since(old(volume.history), volume.history), name)
      && Get(volume.entries, name) == Some(old(volume.entries)[name])
    // Missing referenced files, or a failed download, leave even that one untouched.
    ensures download.Broken? || download.missing > 0 ==>
      requested in old(volume.entries) && (collision.Overwrite? || collision.DeleteAndReplace?) ==>
      && result.Err?
      && Untouched(old(volume.entries), Since(old(volume.history), volume.history), requested)
      && Get(volume.entries, requested) == Some(old(volume.entries)[requested])
    // Otherwise it is whole at every step until the new tree verifies.
    ensures requested in old(volume.entries) && (collision.Overwrite? || collision.DeleteAndReplace?) ==>
      && aside !in old(volume.entries)
      && AllIntact(BeforeDrop(result.Ok?, Since(old(volume.history), volume.history)), requested, aside,
                   old(volume.entries)[requested])
    ensures result.Err? ==>
      requested in old(volume.entries) && (collision.Overwrite? || collision.DeleteAndReplace?) ==>
      || Get(volume.entries, requested) == Some(old(volume.entries)[requested])
      || (&& Get(volume.entries, aside) == Some(old(volume.entries)[requested])
          && CompensationFailed(Since(old(volume.renames), volume.renames), staging, requested, aside))
  {
    home, staging, aside := requested, requested, requested;
    var target := ResolveCollision(volume.entries, requested, collision);
    if target.Err? {
      return Err(target.error), home, staging, aside;
    }
    var stage, _ := FirstFree(volume.entries, "." + target.value + ".auru-restoring-" + pid + "-", "", 1);
    home, staging := target.value, stage;
    ghost var start := volume.entries;
    result, aside := RestoreInto(volume, target.value, stage, pid, download, collision, hash, disk);
    if result.Ok? && requested in start && collision.Overwrite? {
      OverlayEverywhere(download.tree, start[requested]);
    }
    OthersUntouched(start, Since(old(volume.history), volume.history), {stage, target.value, aside});
  }
}
