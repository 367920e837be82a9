/** Reconciling one provider's catalogue with the rows of the library. */
module Catalogue {
  import opened Json

  // Heads, metadata, locations and everything a row merely shows are opaque.
  datatype Remote = Remote(provider: string, handle: string, head: int)

  datatype Project = Project(
    local: bool, remote: Option<Remote>, handles: map<string, string>, metadata: int, location: Option<int>, shown: int)

  datatype Seed = Seed(provider: string, handle: string, head: int, metadata: int, location: Option<int>, shown: int)

  function FromRemote(seed: Seed): Project {
    Project(false, Some(Remote(seed.provider, seed.handle, seed.head)), map[seed.provider := seed.handle],
            seed.metadata, seed.location, seed.shown)
  }

  // ------------------------------------------------------ what the loops compute

  predicate Retained(project: Project, provider: string) {
    project.local || project.remote.None? || project.remote.value.provider != provider
  }

  function Retain(projects: seq<Project>, provider: string): seq<Project> {
    if projects == [] then []
    else (if Retained(projects[0], provider) then [projects[0]] else []) + Retain(projects[1..], provider)
  }

  lemma {:induction false} RetainMembers(projects: seq<Project>, provider: string)
    ensures forall p :: p in Retain(projects, provider) <==> p in projects && Retained(p, provider)
  {
    if projects != [] {
      RetainMembers(projects[1..], provider);
      assert projects == [projects[0]] + projects[1..];
    }
  }

  predicate Has(project: Project, seed: Seed) {
    Get(project.handles, seed.provider) == Some(seed.handle)
  }

  /** The first row holding the seed's handle. */
  function FirstWith(projects: seq<Project>, seed: Seed): (r: Option<nat>)
    ensures r.Some? ==> r.value < |projects| && Has(projects[r.value], seed)
    ensures r.Some? ==> forall j :: 0 <= j < r.value ==> !Has(projects[j], seed)
    ensures r.None? <==> forall j :: 0 <= j < |projects| ==> !Has(projects[j], seed)
  {
    if projects == [] then None
    else if Has(projects[0], seed) then Some(0)
    else
      match FirstWith(projects[1..], seed)
      case None => None
      case Some(i) => Some(i + 1)
  }

  function Touched(project: Project, seed: Seed): Project {
    project.(metadata := seed.metadata, location := if project.location.None? then seed.location else project.location)
  }

  function Place(projects: seq<Project>, seed: Seed): seq<Project> {
    match FirstWith(projects, seed)
    case Some(i) => projects[i := Touched(projects[i], seed)]
    case None => projects + [FromRemote(seed)]
  }

  function PlaceAll(projects: seq<Project>, seeds: seq<Seed>): seq<Project>
    decreases |seeds|
  {
    if seeds == [] then projects else PlaceAll(Place(projects, seeds[0]), seeds[1..])
  }

  function Reconciled(projects: seq<Project>, provider: string, seeds: seq<Seed>): seq<Project> {
    PlaceAll(Retain(projects, provider), seeds)
  }

  ghost function AllHandles(projects: seq<Project>): set<(string, string)> {
    set i, provider | 0 <= i < |projects| && provider in projects[i].handles ::
      (provider, projects[i].handles[provider])
  }

  lemma HandlesOfSeed(projects: seq<Project>, seed: Seed)
    ensures (seed.provider, seed.handle) in AllHandles(projects) <==> FirstWith(projects, seed).Some?
  {
    var found := FirstWith(projects, seed);
    if found.Some? {
      assert seed.provider in projects[found.value].handles;
    }
  }

  class Library {
    var projects: seq<Project>

    /**
     * The index of known handles is exactly the handles of the rows, so a seed
     * no row holds is never skipped.
     */
    method ReplaceProviderProjects(provider: string, seeds: seq<Seed>)
      modifies this
      ensures projects == Reconciled(old(projects), provider, seeds)
    {
      KeepRetained(provider);
      var known := CollectHandles();
      var i := 0;
      assert seeds[0..] == seeds;
      while i < |seeds|
        invariant 0 <= i <= |seeds|
        invariant known == AllHandles(projects)
        invariant PlaceAll(projects, seeds[i..]) == Reconciled(old(projects), provider, seeds)
      {
        var seed := seeds[i];
        assert seeds[i..][0] == seed && seeds[i..][1..] == seeds[i + 1..];
        HandlesOfSeed(projects, seed);
        i := i + 1;
        var found := FirstWith(projects, seed);
        if found.Some? {
          TouchedHandles(projects, found.value, seed);
          projects := projects[found.value := Touched(projects[found.value], seed)];
          continue;
        }
        if (seed.provider, seed.handle) in known {
          assert false;
        } else {
          AddedHandles(projects, seed);
          known := known + {(seed.provider, seed.handle)};
          projects := projects + [FromRemote(seed)];
        }
      }
    }

    method KeepRetained(provider: string)
      modifies this
      ensures projects == Retain(old(projects), provider)
      ensures forall p :: p in projects <==>
        p in old(projects) && (p.local || p.remote.None? || p.remote.value.provider != provider)
    {
      var kept: seq<Project> := [];
      for i := 0 to |projects|
        invariant projects == old(projects)
        invariant kept + Retain(projects[i..], provider) == Retain(projects, provider)
      {
        assert projects[i..][1..] == projects[i + 1..];
        if Retained(projects[i], provider) {
          kept := kept + [projects[i]];
        }
      }
      RetainMembers(projects, provider);
      projects := kept;
    }

    method CollectHandles() returns (known: set<(string, string)>)
      ensures known == AllHandles(projects)
    {
      known := {};
      for i := 0 to |projects|
        invariant known == AllHandles(projects[..i])
      {
        var handles := projects[i].handles;
        var here := set provider | provider in handles :: (provider, handles[provider]);
        LastHandles(projects[..i], projects[i]);
        assert projects[..i + 1] == projects[..i] + [projects[i]];
        known := known + here;
      }
      assert projects[..|projects|] == projects;
    }
  }

  lemma LastHandles(projects: seq<Project>, last: Project)
    ensures AllHandles(projects + [last]) ==
            AllHandles(projects) + (set provider | provider in last.handles :: (provider, last.handles[provider]))
  {
    var all := projects + [last];
    forall p | p in AllHandles(projects) ensures p in AllHandles(all) {
      var i, provider :|
        0 <= i < |projects| && provider in projects[i].handles && p == (provider, projects[i].handles[provider]);
      assert all[i] == projects[i];
    }
    forall provider | provider in last.handles ensures (provider, last.handles[provider]) in AllHandles(all) {
      assert all[|projects|] == last;
    }
  }

  lemma TouchedHandles(projects: seq<Project>, i: nat, seed: Seed)
    requires i < |projects|
    ensures AllHandles(projects[i := Touched(projects[i], seed)]) == AllHandles(projects)
  {
    var after := projects[i := Touched(projects[i], seed)];
    assert forall j :: 0 <= j < |projects| ==> after[j].handles == projects[j].handles;
  }

  lemma AddedHandles(projects: seq<Project>, seed: Seed)
    ensures AllHandles(projects + [FromRemote(seed)]) == AllHandles(projects) + {(seed.provider, seed.handle)}
  {
    var row := FromRemote(seed);
    LastHandles(projects, row);
    assert (set provider | provider in row.handles :: (provider, row.handles[provider])) ==
           {(seed.provider, seed.handle)} by {
      assert seed.provider in row.handles;
    }
  }

  // ------------------------------------------------------------- rows keep their place

  /** What the seeds make of a row: those it is the first to hold, in turn. */
  function TouchedBy(projects: seq<Project>, i: nat, row: Project, seeds: seq<Seed>): Project
    decreases |seeds|
  {
    if seeds == [] then row
    else
      var next := if FirstWith(projects, seeds[0]) == Some(i) then Touched(row, seeds[0]) else row;
      TouchedBy(projects, i, next, seeds[1..])
  }

  ghost predicate SameHandles(p: seq<Project>, q: seq<Project>) {
    |p| == |q| && forall i :: 0 <= i < |p| ==> p[i].handles == q[i].handles
  }

  lemma {:induction false} SameFirst(p: seq<Project>, q: seq<Project>, seed: Seed)
    requires SameHandles(p, q)
    ensures FirstWith(p, seed) == FirstWith(q, seed)
  {
    if p != [] {
      assert p[0].handles == q[0].handles;
      forall i | 0 <= i < |p[1..]| ensures p[1..][i].handles == q[1..][i].handles {
        assert p[i + 1].handles == q[i + 1].handles;
      }
      SameFirst(p[1..], q[1..], seed);
    }
  }

  lemma {:induction false} FirstInFront(projects: seq<Project>, more: seq<Project>, seed: Seed)
    ensures FirstWith(projects + more, seed) ==
            match FirstWith(projects, seed)
            case Some(i) => Some(i)
            case None =>
              match FirstWith(more, seed)
              case Some(j) => Some(|projects| + j)
              case None => None
  {
    if projects == [] {
      assert projects + more == more;
    } else {
      assert (projects + more)[1..] == projects[1..] + more;
      FirstInFront(projects[1..], more, seed);
    }
  }

  function TouchedByEach(projects: seq<Project>, rows: seq<Project>, seeds: seq<Seed>): seq<Project>
    requires |rows| == |projects|
  {
    seq(|rows|, i requires 0 <= i < |rows| => TouchedBy(projects, i, rows[i], seeds))
  }

  /** The rows the seeds add, given the rows there before and those added so far. */
  function Additions(projects: seq<Project>, added: seq<Project>, seeds: seq<Seed>): seq<Project>
    decreases |seeds|
  {
    if seeds == [] then added
    else if FirstWith(projects, seeds[0]).Some? then Additions(projects, added, seeds[1..])
    else Additions(projects, Place(added, seeds[0]), seeds[1..])
  }

  /** Every row there before stays where it was; the rest are additions after them. */
  lemma {:induction false} PlacedApart(
    projects: seq<Project>, rows: seq<Project>, added: seq<Project>, seeds: seq<Seed>)
    requires SameHandles(projects, rows)
    ensures PlaceAll(rows + added, seeds) == TouchedByEach(projects, rows, seeds) + Additions(projects, added, seeds)
    decreases |seeds|
  {
    if seeds == [] {
      assert TouchedByEach(projects, rows, seeds) == rows;
    } else {
      var seed := seeds[0];
      SameFirst(projects, rows, seed);
      match FirstWith(projects, seed)
      case Some(i) =>
        var touched := rows[i := Touched(rows[i], seed)];
        PlaceAmong(rows, added, seed, i);
        PlacedApart(projects, touched, added, seeds[1..]);
        TouchedStep(projects, rows, seeds);
      case None =>
        PlaceBehind(rows, added, seed);
        PlacedApart(projects, rows, Place(added, seed), seeds[1..]);
        TouchedStep(projects, rows, seeds);
    }
  }

  lemma TouchedStep(projects: seq<Project>, rows: seq<Project>, seeds: seq<Seed>)
    requires |rows| == |projects| && seeds != []
    ensures TouchedByEach(projects, rows, seeds) ==
            match FirstWith(projects, seeds[0])
            case Some(i) => TouchedByEach(projects, rows[i := Touched(rows[i], seeds[0])], seeds[1..])
            case None => TouchedByEach(projects, rows, seeds[1..])
  {
  }

  lemma PlaceAmong(rows: seq<Project>, added: seq<Project>, seed: Seed, i: nat)
    requires FirstWith(rows, seed) == Some(i)
    ensures Place(rows + added, seed) == rows[i := Touched(rows[i], seed)] + added
  {
    FirstInFront(rows, added, seed);
    assert (rows + added)[i := Touched(rows[i], seed)] == rows[i := Touched(rows[i], seed)] + added;
  }

  lemma PlaceBehind(rows: seq<Project>, added: seq<Project>, seed: Seed)
    requires FirstWith(rows, seed).None?
    ensures Place(rows + added, seed) == rows + Place(added, seed)
  {
    FirstInFront(rows, added, seed);
    match FirstWith(added, seed)
    case Some(j) =>
      assert (rows + added)[|rows| + j := Touched(added[j], seed)] == rows + added[j := Touched(added[j], seed)];
    case None =>
      assert rows + added + [FromRemote(seed)] == rows + (added + [FromRemote(seed)]);
  }

  lemma ReconciledParts(projects: seq<Project>, provider: string, seeds: seq<Seed>)
    ensures var kept := Retain(projects, provider);
            Reconciled(projects, provider, seeds) == TouchedByEach(kept, kept, seeds) + Additions(kept, [], seeds)
  {
    var kept := Retain(projects, provider);
    assert kept + [] == kept;
    PlacedApart(kept, kept, [], seeds);
  }

  lemma {:induction false} TouchedKeeps(projects: seq<Project>, i: nat, row: Project, seeds: seq<Seed>)
    ensures var t := TouchedBy(projects, i, row, seeds);
            && t.(metadata := row.metadata, location := row.location) == row
            && (row.location.Some? ==> t.location == row.location)
    ensures (forall s :: s in seeds ==> FirstWith(projects, s) != Some(i)) ==> TouchedBy(projects, i, row, seeds) == row
    decreases |seeds|
  {
    if seeds != [] {
      var next := if FirstWith(projects, seeds[0]) == Some(i) then Touched(row, seeds[0]) else row;
      TouchedKeeps(projects, i, next, seeds[1..]);
    }
  }

  /**
   * Local rows and other providers' rows keep their place and everything but
   * metadata and an unset location, which only a seed for their handle changes.
   */
  lemma RowsKeepTheirPlace(projects: seq<Project>, provider: string, seeds: seq<Seed>, i: nat)
    requires i < |Retain(projects, provider)|
    ensures var kept, after := Retain(projects, provider), Reconciled(projects, provider, seeds);
            && i < |after|
            && after[i].(metadata := kept[i].metadata, location := kept[i].location) == kept[i]
            && (kept[i].location.Some? ==> after[i].location == kept[i].location)
            && ((forall s :: s in seeds ==> !Has(kept[i], s)) ==> after[i] == kept[i])
  {
    var kept := Retain(projects, provider);
    ReconciledParts(projects, provider, seeds);
    TouchedKeeps(kept, i, kept[i], seeds);
  }

  // -------------------------------------------------------- every seed is there

  lemma {:induction false} PlacedHas(projects: seq<Project>, seeds: seq<Seed>, wanted: Seed)
    requires wanted in seeds || FirstWith(projects, wanted).Some?
    ensures FirstWith(PlaceAll(projects, seeds), wanted).Some?
    decreases |seeds|
  {
    if seeds != [] {
      var next := Place(projects, seeds[0]);
      if wanted == seeds[0] {
        var found := FirstWith(projects, wanted);
        assert Has(next[if found.Some? then found.value else |projects|], wanted);
      } else if FirstWith(projects, wanted).Some? {
        var j := FirstWith(projects, wanted).value;
        assert Has(next[j], wanted);
      }
      PlacedHas(next, seeds[1..], wanted);
    }
  }

  /** Every seed's handle is held by some row. */
  lemma EverySeedRepresented(projects: seq<Project>, provider: string, seeds: seq<Seed>, seed: Seed)
    requires seed in seeds
    ensures var after := Reconciled(projects, provider, seeds);
            exists i :: 0 <= i < |after| && Has(after[i], seed)
  {
    PlacedHas(Retain(projects, provider), seeds, seed);
    var after := Reconciled(projects, provider, seeds);
    assert Has(after[FirstWith(after, seed).value], seed);
  }

  // ------------------------------------------------------- no handle twice

  // Added rows are provider-only rows, one for each of their handles.
  ghost predicate OwnHandles(added: seq<Project>, provider: string) {
    && (forall i :: 0 <= i < |added| ==>
          && !added[i].local && added[i].remote.Some? && added[i].remote.value.provider == provider
          && added[i].handles == map[provider := added[i].remote.value.handle])
    && forall i, j :: 0 <= i < j < |added| ==> added[i].remote.value.handle != added[j].remote.value.handle
  }

  ghost predicate Unheld(projects: seq<Project>, added: seq<Project>, provider: string) {
    forall i, j :: 0 <= i < |projects| && 0 <= j < |added| && added[j].remote.Some? ==>
      Get(projects[i].handles, provider) != Some(added[j].remote.value.handle)
  }

  lemma {:induction false} AdditionsDistinct(
    projects: seq<Project>, added: seq<Project>, provider: string, seeds: seq<Seed>)
    requires forall s :: s in seeds ==> s.provider == provider
    requires OwnHandles(added, provider) && Unheld(projects, added, provider)
    ensures OwnHandles(Additions(projects, added, seeds), provider)
    ensures Unheld(projects, Additions(projects, added, seeds), provider)
    decreases |seeds|
  {
    if seeds != [] {
      var seed := seeds[0];
      assert seed in seeds;
      if FirstWith(projects, seed).Some? {
        AdditionsDistinct(projects, added, provider, seeds[1..]);
      } else {
        var next := Place(added, seed);
        var found := FirstWith(added, seed);
        if found.None? {
          forall i | 0 <= i < |added| ensures added[i].remote.value.handle != seed.handle {
            assert !Has(added[i], seed);
          }
        }
        forall i, j | 0 <= i < |projects| && 0 <= j < |next| && next[j].remote.Some?
          ensures Get(projects[i].handles, provider) != Some(next[j].remote.value.handle)
        {
          assert !Has(projects[i], seed);
          assert j < |added| ==> next[j].remote == added[j].remote;
        }
        AdditionsDistinct(projects, next, provider, seeds[1..]);
      }
    }
  }

  /**
   * At most one provider-only row per handle, and none for a handle another
   * row of the library holds.
   */
  lemma NoHandleTwice(projects: seq<Project>, provider: string, seeds: seq<Seed>, i: nat, j: nat)
    requires forall s :: s in seeds ==> s.provider == provider
    requires var after := Reconciled(projects, provider, seeds);
             i < |after| && j < |after| && i != j && !Retained(after[j], provider)
    ensures var after := Reconciled(projects, provider, seeds);
            Get(after[i].handles, provider) != Some(after[j].remote.value.handle)
  {
    var kept := Retain(projects, provider);
    var added := Additions(kept, [], seeds);
    ReconciledParts(projects, provider, seeds);
    AdditionsDistinct(kept, [], provider, seeds);
    KeptAreRetained(projects, provider, seeds, j);
    if i < |kept| {
      TouchedKeeps(kept, i, kept[i], seeds);
    }
  }

  lemma {:induction false} RetainRetained(projects: seq<Project>, provider: string, i: nat)
    requires i < |Retain(projects, provider)|
    ensures Retained(Retain(projects, provider)[i], provider)
  {
    if Retained(projects[0], provider) {
      if i > 0 {
        RetainRetained(projects[1..], provider, i - 1);
      }
    } else {
      RetainRetained(projects[1..], provider, i);
    }
  }

  lemma KeptAreRetained(projects: seq<Project>, provider: string, seeds: seq<Seed>, j: nat)
    requires j < |Reconciled(projects, provider, seeds)|
      && !Retained(Reconciled(projects, provider, seeds)[j], provider)
    ensures j >= |Retain(projects, provider)|
  {
    var kept := Retain(projects, provider);
    ReconciledParts(projects, provider, seeds);
    if j < |kept| {
      RetainRetained(projects, provider, j);
      TouchedKeeps(kept, j, kept[j], seeds);
    }
  }

  // -------------------------------------------------------------- idempotence

  lemma {:induction false} RetainAppend(p: seq<Project>, q: seq<Project>, provider: string)
    ensures Retain(p + q, provider) == Retain(p, provider) + Retain(q, provider)
  {
    if p == [] {
      assert p + q == q;
    } else {
      assert (p + q)[1..] == p[1..] + q;
      RetainAppend(p[1..], q, provider);
    }
  }

  lemma {:induction false} RetainAll(projects: seq<Project>, provider: string)
    requires forall i :: 0 <= i < |projects| ==> Retained(projects[i], provider)
    ensures Retain(projects, provider) == projects
  {
    if projects != [] {
      RetainAll(projects[1..], provider);
    }
  }

  lemma {:induction false} RetainNone(projects: seq<Project>, provider: string)
    requires forall i :: 0 <= i < |projects| ==> !Retained(projects[i], provider)
    ensures Retain(projects, provider) == []
  {
    if projects != [] {
      RetainNone(projects[1..], provider);
    }
  }

  // The last seed for a row decides its metadata, the first with a location an unset one.
  lemma {:induction false} TouchedTwice(projects: seq<Project>, i: nat, row: Project, later: Project, seeds: seq<Seed>)
    requires later.location == row.location || (row.location.None? && later.location.Some?)
    requires later.(metadata := row.metadata, location := row.location) == row
    ensures var (x, y) := (TouchedBy(projects, i, row, seeds), TouchedBy(projects, i, later, seeds));
            && y.(metadata := x.metadata, location := x.location) == x
            && ((exists s :: s in seeds && FirstWith(projects, s) == Some(i)) ==> x.metadata == y.metadata)
            && ((forall s :: s in seeds ==> FirstWith(projects, s) != Some(i)) ==> y == later)
            && (later.location.Some? ==> y.location == later.location)
            && (later.location == row.location ==> y.location == x.location)
    decreases |seeds|
  {
    if seeds != [] {
      var mine := FirstWith(projects, seeds[0]) == Some(i);
      var x, y := if mine then Touched(row, seeds[0]) else row, if mine then Touched(later, seeds[0]) else later;
      if mine {
        SameMetadata(projects, i, x, y, seeds[1..]);
      } else {
        TouchedTwice(projects, i, x, y, seeds[1..]);
      }
    }
  }

  lemma {:induction false} SameMetadata(projects: seq<Project>, i: nat, x: Project, y: Project, seeds: seq<Seed>)
    requires x.metadata == y.metadata && y.(location := x.location) == x
    ensures var (p, q) := (TouchedBy(projects, i, x, seeds), TouchedBy(projects, i, y, seeds));
            && q.(location := p.location) == p
            && (y.location.Some? ==> q.location == y.location)
            && (y.location == x.location ==> q.location == p.location)
    decreases |seeds|
  {
    if seeds != [] {
      var mine := FirstWith(projects, seeds[0]) == Some(i);
      var p, q := if mine then Touched(x, seeds[0]) else x, if mine then Touched(y, seeds[0]) else y;
      SameMetadata(projects, i, p, q, seeds[1..]);
    }
  }

  lemma {:induction false} NoLocation(projects: seq<Project>, i: nat, row: Project, later: Project, seeds: seq<Seed>)
    requires TouchedBy(projects, i, row, seeds).location.None? && later.location.None?
    ensures TouchedBy(projects, i, later, seeds).location.None?
    decreases |seeds|
  {
    if seeds != [] {
      var mine := FirstWith(projects, seeds[0]) == Some(i);
      var x, y := if mine then Touched(row, seeds[0]) else row, if mine then Touched(later, seeds[0]) else later;
      TouchedKeeps(projects, i, x, seeds[1..]);
      NoLocation(projects, i, x, y, seeds[1..]);
    }
  }

  lemma TouchedIdempotent(projects: seq<Project>, i: nat, row: Project, seeds: seq<Seed>)
    ensures var once := TouchedBy(projects, i, row, seeds);
            TouchedBy(projects, i, once, seeds) == once
  {
    var once := TouchedBy(projects, i, row, seeds);
    TouchedKeeps(projects, i, row, seeds);
    TouchedTwice(projects, i, row, once, seeds);
    if once.location.None? {
      NoLocation(projects, i, row, once, seeds);
    }
  }

  lemma {:induction false} SameAdditions(p: seq<Project>, q: seq<Project>, added: seq<Project>, seeds: seq<Seed>)
    requires SameHandles(p, q)
    ensures Additions(p, added, seeds) == Additions(q, added, seeds)
    decreases |seeds|
  {
    if seeds != [] {
      SameFirst(p, q, seeds[0]);
      SameAdditions(p, q, if FirstWith(p, seeds[0]).Some? then added else Place(added, seeds[0]), seeds[1..]);
    }
  }

  lemma {:induction false} SameTouched(p: seq<Project>, q: seq<Project>, i: nat, row: Project, seeds: seq<Seed>)
    requires SameHandles(p, q)
    ensures TouchedBy(p, i, row, seeds) == TouchedBy(q, i, row, seeds)
    decreases |seeds|
  {
    if seeds != [] {
      SameFirst(p, q, seeds[0]);
      SameTouched(p, q, i, if FirstWith(p, seeds[0]) == Some(i) then Touched(row, seeds[0]) else row, seeds[1..]);
    }
  }

  /** Reconciling twice with the same catalogue is reconciling once. */
  lemma ReconcileIdempotent(projects: seq<Project>, provider: string, seeds: seq<Seed>)
    requires forall s :: s in seeds ==> s.provider == provider
    ensures Reconciled(Reconciled(projects, provider, seeds), provider, seeds) == Reconciled(projects, provider, seeds)
  {
    var kept := Retain(projects, provider);
    var rows, added := TouchedByEach(kept, kept, seeds), Additions(kept, [], seeds);
    ReconciledParts(projects, provider, seeds);
    AdditionsDistinct(kept, [], provider, seeds);
    forall i | 0 <= i < |kept| ensures rows[i].handles == kept[i].handles && Retained(rows[i], provider) {
      TouchedKeeps(kept, i, kept[i], seeds);
      RetainRetained(projects, provider, i);
    }
    RetainAll(rows, provider);
    RetainNone(added, provider);
    RetainAppend(rows, added, provider);
    assert Retain(rows + added, provider) == rows;
    ReconciledParts(rows + added, provider, seeds);
    SameAdditions(rows, kept, [], seeds);
    forall i | 0 <= i < |rows| ensures TouchedBy(rows, i, rows[i], seeds) == rows[i] {
      SameTouched(rows, kept, i, rows[i], seeds);
      TouchedIdempotent(kept, i, kept[i], seeds);
    }
    assert TouchedByEach(rows, rows, seeds) == rows;
  }
}
