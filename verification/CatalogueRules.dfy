/** The reconciled library row by row: which rows stay, which are added, and what the seeds change. */
module CatalogueRules {
  import opened Json
  import opened Catalogue

  // ------------------------------------------------------------- rows that stay

  ghost predicate Increasing(places: seq<nat>) {
    forall i, j :: 0 <= i < j < |places| ==> places[i] < places[j]
  }

  // Where the rows from `i` on that stay are.
  function Places(projects: seq<Project>, provider: string, i: nat): seq<nat>
    requires i <= |projects|
    decreases |projects| - i
  {
    if i == |projects| then []
    else (if Retained(projects[i], provider) then [i] else []) + Places(projects, provider, i + 1)
  }

  lemma {:induction false} PlacesMembers(projects: seq<Project>, provider: string, i: nat, n: nat)
    requires i <= |projects|
    ensures n in Places(projects, provider, i) <==> i <= n < |projects| && Retained(projects[n], provider)
    decreases |projects| - i
  {
    if i < |projects| {
      PlacesMembers(projects, provider, i + 1, n);
    }
  }

  lemma {:induction false} PlacesIncrease(projects: seq<Project>, provider: string, i: nat)
    requires i <= |projects|
    ensures Increasing(Places(projects, provider, i))
    decreases |projects| - i
  {
    if i < |projects| {
      var rest := Places(projects, provider, i + 1);
      PlacesIncrease(projects, provider, i + 1);
      forall j | 0 <= j < |rest| ensures i < rest[j] {
        PlacesMembers(projects, provider, i + 1, rest[j]);
      }
      OneBefore(i, rest);
    }
  }

  lemma OneBefore(i: nat, rest: seq<nat>)
    requires Increasing(rest) && forall j :: 0 <= j < |rest| ==> i < rest[j]
    ensures Increasing([i] + rest)
  {
  }

  lemma {:induction false} PlacesHold(projects: seq<Project>, provider: string, i: nat)
    requires i <= |projects|
    ensures var places, kept := Places(projects, provider, i), Retain(projects[i..], provider);
            |places| == |kept| && forall j :: 0 <= j < |places| ==>
              places[j] < |projects| && kept[j] == projects[places[j]]
    decreases |projects| - i
  {
    if i < |projects| {
      PlacesHold(projects, provider, i + 1);
      assert projects[i..][0] == projects[i] && projects[i..][1..] == projects[i + 1..];
    }
  }

  lemma RetainedPlaces(projects: seq<Project>, provider: string) returns (places: seq<nat>)
    ensures places == Places(projects, provider, 0) && |places| == |Retain(projects, provider)|
    ensures forall j :: 0 <= j < |places| ==>
      places[j] < |projects| && Retain(projects, provider)[j] == projects[places[j]]
    ensures forall i: nat {:trigger i in places} ::
      i in places <==> i < |projects| && Retained(projects[i], provider)
    ensures Increasing(places)
  {
    places := Places(projects, provider, 0);
    PlacesIncrease(projects, provider, 0);
    forall i: nat ensures i in places <==> i < |projects| && Retained(projects[i], provider) {
      PlacesMembers(projects, provider, 0, i);
    }
    PlacesHold(projects, provider, 0);
    assert projects[0..] == projects;
  }

  ghost predicate Kept(before: Project, after: Project, seeds: seq<Seed>) {
    && after.local == before.local && after.remote == before.remote && after.handles == before.handles
    && after.shown == before.shown
    && (before.location.Some? ==> after.location == before.location)
    && ((forall s :: s in seeds ==> Get(before.handles, s.provider) != Some(s.handle)) ==> after == before)
  }

  ghost predicate AllKept(projects: seq<Project>, places: seq<nat>, after: seq<Project>, seeds: seq<Seed>) {
    && |after| == |places|
    && forall j :: 0 <= j < |places| ==> places[j] < |projects| && Kept(projects[places[j]], after[j], seeds)
  }

  // ---------------------------------------------------------------- rows added

  // A row as the catalogue describes it, but for metadata and location, which a later seed may change.
  ghost predicate RowOf(row: Project, seed: Seed) {
    && !row.local && row.remote == Some(Remote(seed.provider, seed.handle, seed.head))
    && row.handles == map[seed.provider := seed.handle] && row.shown == seed.shown
  }

  ghost predicate Holds(project: Project, seed: Seed) {
    Get(project.handles, seed.provider) == Some(seed.handle)
  }

  // The first seed of a handle that no row holds.
  ghost predicate IsNew(projects: seq<Project>, seeds: seq<Seed>, n: nat)
    requires n < |seeds|
  {
    && (forall p :: p in projects ==> !Holds(p, seeds[n]))
    && forall m :: 0 <= m < n ==> !(seeds[m].provider == seeds[n].provider && seeds[m].handle == seeds[n].handle)
  }

  ghost predicate RowsOf(added: seq<Project>, seeds: seq<Seed>, n: nat, places: seq<nat>)
    requires n <= |seeds|
  {
    |added| == |places| && forall j :: 0 <= j < |places| ==> places[j] < n && RowOf(added[j], seeds[places[j]])
  }

  // What has been added by the seeds before `n`.
  ghost predicate AddedBy(projects: seq<Project>, seeds: seq<Seed>, n: nat, added: seq<Project>, places: seq<nat>)
    requires n <= |seeds|
  {
    && RowsOf(added, seeds, n, places) && Increasing(places)
    && forall m: nat {:trigger m in places} {:trigger IsNew(projects, seeds, m)} ::
         m < n ==> (m in places <==> IsNew(projects, seeds, m))
  }

  lemma {:induction false} EarliestSame(seeds: seq<Seed>, n: nat) returns (m: nat)
    requires n < |seeds|
    ensures m <= n && seeds[m].provider == seeds[n].provider && seeds[m].handle == seeds[n].handle
    ensures forall k :: 0 <= k < m ==> !(seeds[k].provider == seeds[m].provider && seeds[k].handle == seeds[m].handle)
  {
    if k :| 0 <= k < n && seeds[k].provider == seeds[n].provider && seeds[k].handle == seeds[n].handle {
      m := EarliestSame(seeds, k);
    } else {
      m := n;
    }
  }

  // A seed whose handle no row holds, of those there or added so far, is new.
  lemma UnheldIsNew(projects: seq<Project>, seeds: seq<Seed>, n: nat, added: seq<Project>, places: seq<nat>)
    requires n < |seeds| && AddedBy(projects, seeds, n, added, places)
    requires forall p :: p in projects ==> !Holds(p, seeds[n])
    ensures IsNew(projects, seeds, n) <==> forall p :: p in added ==> !Holds(p, seeds[n])
  {
    if p :| p in added && Holds(p, seeds[n]) {
      var j :| 0 <= j < |added| && added[j] == p;
      var m := places[j];
      assert seeds[n].provider in p.handles;
      assert seeds[m].provider == seeds[n].provider && seeds[m].handle == seeds[n].handle;
    }
    if !IsNew(projects, seeds, n) {
      var m := EarliestSame(seeds, n);
      assert forall p :: p in projects ==> Holds(p, seeds[m]) == Holds(p, seeds[n]);
      assert m < n && IsNew(projects, seeds, m);
      var j :| 0 <= j < |places| && places[j] == m;
      assert added[j] in added && Holds(added[j], seeds[n]);
    }
  }

  lemma AddedStep(projects: seq<Project>, seeds: seq<Seed>, n: nat, added: seq<Project>, places: seq<nat>)
    returns (next: seq<Project>, more: seq<nat>)
    requires n < |seeds| && AddedBy(projects, seeds, n, added, places)
    ensures AddedBy(projects, seeds, n + 1, next, more)
    ensures next == if FirstWith(projects, seeds[n]).Some? then added else Place(added, seeds[n])
  {
    var seed := seeds[n];
    next, more := added, places;
    if FirstWith(projects, seed).Some? {
      var p := projects[FirstWith(projects, seed).value];
      assert p in projects && Holds(p, seed);
    } else {
      forall p | p in projects ensures !Holds(p, seed) {
        var i :| 0 <= i < |projects| && projects[i] == p;
        assert !Has(projects[i], seed);
      }
      UnheldIsNew(projects, seeds, n, added, places);
      var found := FirstWith(added, seed);
      next := Place(added, seed);
      if found.Some? {
        assert added[found.value] in added && Holds(added[found.value], seed);
      } else {
        forall p | p in added ensures !Holds(p, seed) {
          var i :| 0 <= i < |added| && added[i] == p;
          assert !Has(added[i], seed);
        }
        more := places + [n];
      }
    }
  }

  lemma {:induction false} AddedUpTo(
    projects: seq<Project>, seeds: seq<Seed>, n: nat, added: seq<Project>, places: seq<nat>) returns (all: seq<nat>)
    requires n <= |seeds| && AddedBy(projects, seeds, n, added, places)
    ensures AddedBy(projects, seeds, |seeds|, Additions(projects, added, seeds[n..]), all)
    decreases |seeds| - n
  {
    if n == |seeds| {
      all := places;
    } else {
      var next, more := AddedStep(projects, seeds, n, added, places);
      assert seeds[n..][0] == seeds[n] && seeds[n..][1..] == seeds[n + 1..];
      all := AddedUpTo(projects, seeds, n + 1, next, more);
    }
  }

  lemma SameHolders(projects: seq<Project>, kept: seq<Project>, provider: string, seeds: seq<Seed>, n: nat)
    requires n < |seeds| && kept == Retain(projects, provider)
    ensures IsNew(kept, seeds, n) <==> Unrepresented(projects, provider, seeds, n)
  {
    RetainMembers(projects, provider);
  }

  /** The first seed of a handle that no row which stays holds. */
  ghost predicate Unrepresented(projects: seq<Project>, provider: string, seeds: seq<Seed>, n: nat)
    requires n < |seeds|
  {
    && (forall p :: p in projects && (p.local || p.remote.None? || p.remote.value.provider != provider) ==>
          Get(p.handles, seeds[n].provider) != Some(seeds[n].handle))
    && forall m :: 0 <= m < n ==> !(seeds[m].provider == seeds[n].provider && seeds[m].handle == seeds[n].handle)
  }

  /**
   * The rows that are local, have no remote or one of another provider come
   * first, in their old order; only their metadata, and a location not set, may
   * differ, and only where a seed has a handle of theirs. Behind them comes one
   * row for each handle of the catalogue that none of them holds, in the
   * catalogue's order, as its first seed says. There are no others.
   */
  lemma ReconciledExactly(projects: seq<Project>, provider: string, seeds: seq<Seed>)
    returns (stay: seq<nat>, come: seq<nat>)
    ensures Increasing(stay) && Increasing(come)
    ensures forall i: nat {:trigger i in stay} :: i in stay <==>
      && i < |projects|
      && (projects[i].local || projects[i].remote.None? || projects[i].remote.value.provider != provider)
    ensures forall n: nat {:trigger n in come} ::
      n in come <==> n < |seeds| && Unrepresented(projects, provider, seeds, n)
    ensures var after := Reconciled(projects, provider, seeds);
      && |stay| <= |after|
      && AllKept(projects, stay, after[..|stay|], seeds)
      && RowsOf(after[|stay|..], seeds, |seeds|, come)
  {
    stay := RetainedPlaces(projects, provider);
    come := NewRows(projects, provider, seeds);
    KeptRows(projects, provider, seeds);
    AddedRows(projects, provider, seeds);
  }

  lemma KeptRows(projects: seq<Project>, provider: string, seeds: seq<Seed>)
    ensures var stay, after := Places(projects, provider, 0), Reconciled(projects, provider, seeds);
      |stay| <= |after| && AllKept(projects, stay, after[..|stay|], seeds)
  {
    var kept := Retain(projects, provider);
    var stay := Places(projects, provider, 0);
    PlacesHold(projects, provider, 0);
    assert projects[0..] == projects;
    ReconciledParts(projects, provider, seeds);
    forall j | 0 <= j < |stay| ensures Kept(kept[j], TouchedByEach(kept, kept, seeds)[j], seeds) {
      TouchedKeeps(kept, j, kept[j], seeds);
    }
  }

  lemma AddedRows(projects: seq<Project>, provider: string, seeds: seq<Seed>)
    ensures var stay, after := Places(projects, provider, 0), Reconciled(projects, provider, seeds);
      |stay| <= |after| && after[|stay|..] == Additions(Retain(projects, provider), [], seeds)
  {
    var kept := Retain(projects, provider);
    PlacesHold(projects, provider, 0);
    assert projects[0..] == projects;
    ReconciledParts(projects, provider, seeds);
    Behind(TouchedByEach(kept, kept, seeds), Additions(kept, [], seeds));
  }

  lemma Behind(p: seq<Project>, q: seq<Project>)
    ensures (p + q)[|p|..] == q
  {
  }

  lemma NewRows(projects: seq<Project>, provider: string, seeds: seq<Seed>) returns (come: seq<nat>)
    ensures RowsOf(Additions(Retain(projects, provider), [], seeds), seeds, |seeds|, come) && Increasing(come)
    ensures forall n: nat {:trigger n in come} ::
      n in come <==> n < |seeds| && Unrepresented(projects, provider, seeds, n)
  {
    var kept := Retain(projects, provider);
    assert AddedBy(kept, seeds, 0, [], []);
    assert seeds[0..] == seeds;
    come := AddedUpTo(kept, seeds, 0, [], []);
    forall n: nat | n < |seeds| ensures IsNew(kept, seeds, n) <==> Unrepresented(projects, provider, seeds, n) {
      SameHolders(projects, kept, provider, seeds, n);
    }
  }

  // -------------------------------------------------------- what the seeds change

  // The first row that holds a seed's handle says what the seed says.
  ghost predicate Shows(projects: seq<Project>, seed: Seed) {
    exists i :: 0 <= i < |projects| && Holds(projects[i], seed)
      && (forall j :: 0 <= j < i ==> !Holds(projects[j], seed))
      && projects[i].metadata == seed.metadata && (seed.location.Some? ==> projects[i].location.Some?)
  }

  lemma PlacedShows(projects: seq<Project>, seed: Seed)
    ensures Shows(Place(projects, seed), seed)
  {
    var after, found := Place(projects, seed), FirstWith(projects, seed);
    var i := if found.Some? then found.value else |projects|;
    assert forall j :: 0 <= j < |projects| ==> Holds(projects[j], seed) == Has(projects[j], seed);
    forall j | 0 <= j < i ensures !Holds(after[j], seed) {
      assert after[j] == projects[j];
    }
    assert Holds(after[i], seed) && after[i].metadata == seed.metadata;
  }

  // Another handle's seed changes another row.
  lemma StillShows(projects: seq<Project>, seed: Seed, other: Seed)
    requires Shows(projects, seed) && other.provider == seed.provider && other.handle != seed.handle
    ensures Shows(Place(projects, other), seed)
  {
    var i :| 0 <= i < |projects| && Holds(projects[i], seed)
      && (forall j :: 0 <= j < i ==> !Holds(projects[j], seed))
      && projects[i].metadata == seed.metadata && (seed.location.Some? ==> projects[i].location.Some?);
    var after := Place(projects, other);
    assert !Has(projects[i], other);
    assert after[i] == projects[i];
    forall j | 0 <= j < i ensures !Holds(after[j], seed) {
      assert after[j].handles == projects[j].handles && !Holds(projects[j], seed);
    }
  }

  lemma {:induction false} AllStillShow(projects: seq<Project>, seed: Seed, seeds: seq<Seed>)
    requires Shows(projects, seed)
    requires forall s :: s in seeds ==> s.provider == seed.provider && s.handle != seed.handle
    ensures Shows(PlaceAll(projects, seeds), seed)
    decreases |seeds|
  {
    if seeds != [] {
      assert seeds[0] in seeds;
      StillShows(projects, seed, seeds[0]);
      AllStillShow(Place(projects, seeds[0]), seed, seeds[1..]);
    }
  }

  lemma {:induction false} LastSeedShows(projects: seq<Project>, seeds: seq<Seed>, n: nat)
    requires n < |seeds| && forall s :: s in seeds ==> s.provider == seeds[n].provider
    requires forall m :: n < m < |seeds| ==> seeds[m].handle != seeds[n].handle
    ensures Shows(PlaceAll(projects, seeds), seeds[n])
    decreases |seeds|
  {
    if n == 0 {
      PlacedShows(projects, seeds[0]);
      forall s | s in seeds[1..] ensures s.provider == seeds[0].provider && s.handle != seeds[0].handle {
        var m :| 1 <= m < |seeds| && seeds[m] == s;
      }
      AllStillShow(Place(projects, seeds[0]), seeds[0], seeds[1..]);
    } else {
      LastSeedShows(Place(projects, seeds[0]), seeds[1..], n - 1);
    }
  }

  /** The last seed of a handle decides the metadata of the first row that holds it, and gives it a location. */
  lemma SeedsShown(projects: seq<Project>, provider: string, seeds: seq<Seed>, n: nat)
    requires n < |seeds| && forall s :: s in seeds ==> s.provider == provider
    requires forall m :: n < m < |seeds| ==> seeds[m].handle != seeds[n].handle
    ensures Shows(Reconciled(projects, provider, seeds), seeds[n])
  {
    assert seeds[n] in seeds;
    LastSeedShows(Retain(projects, provider), seeds, n);
  }
}
