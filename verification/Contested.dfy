/** Which conflicts there are, told from look-ups in the inputs alone, and the order they are reported in. */
module Contested {
  import opened Json
  import opened Locations
  import opened Merge
  import opened Branches
  import opened Conflicts

  // The kind of segment that leads into three containers of one kind.
  predicate LeadsInto(a: Value, l: Value, r: Value, s: Segment) {
    if a.Object? && l.Object? && r.Object? then s.Key?
    else if a.Array? && l.Array? && r.Array? then
      if forall v :: v in a.items + l.items + r.items ==> HasId(v) then s.Id? else s.Index?
    else false
  }

  /**
   * The place is reached through containers of one kind in all three inputs,
   * and there the inputs disagree all three with no way further in. Both sides
   * may also have added the same key.
   */
  ghost predicate ContestedAt(a: Option<Value>, l: Value, r: Value, place: Location)
    decreases |place|
  {
    if place == [] then
      && l != r && Some(l) != a && Some(r) != a
      && (a.Some? ==> forall s :: !LeadsInto(a.value, l, r, s))
    else
      && a.Some? && LeadsInto(a.value, l, r, place[0])
      && var (x, y, z) :=
           (PaddedChild(a.value, place[0]), PaddedChild(l, place[0]), PaddedChild(r, place[0]));
         && y.Some? && z.Some? && (x.None? ==> place[0].Key?)
         && ContestedAt(x, y.value, z.value, place[1..])
  }

  lemma LeadsIntoContainers(a: Value, l: Value, r: Value)
    ensures Container(a, l, r) <==> exists s :: LeadsInto(a, l, r, s)
    ensures Arrays(a, l, r) ==>
      (IdentityArrays(a, l, r) <==> forall v :: v in a.items + l.items + r.items ==> HasId(v))
  {
    if Arrays(a, l, r) {
      assert forall v :: v in a.items + l.items + r.items <==> v in a.items || v in l.items || v in r.items;
      assert LeadsInto(a, l, r, Id("")) || LeadsInto(a, l, r, Index(0));
    }
    if Objects(a, l, r) {
      assert LeadsInto(a, l, r, Key(""));
    }
  }

  // A side equal to the ancestor contests nothing.
  lemma {:induction false} UnchangedIsUncontested(a: Value, l: Value, r: Value, place: Location)
    requires l == a || r == a
    ensures !ContestedAt(Some(a), l, r, place)
    decreases |place|
  {
    if place != [] && ContestedAt(Some(a), l, r, place) {
      var (x, y, z) := (PaddedChild(a, place[0]), PaddedChild(l, place[0]), PaddedChild(r, place[0]));
      UnchangedIsUncontested(x.value, y.value, z.value, place[1..]);
    }
  }

  lemma {:induction false} GatherHolds(branches: seq<Branch>, at: Location, b: Branch, c: Clash)
    requires b in branches && c in BranchClashes(b, at)
    ensures c in Gather(branches, at)
  {
    if b != branches[0] || c !in BranchClashes(branches[0], at) {
      GatherHolds(branches[1..], at, b, c);
    }
  }

  // The branch a contested place lies in.
  lemma BranchTowards(a: Value, l: Value, r: Value, place: Location) returns (b: Branch)
    requires UniqueIds(a) && UniqueIds(l) && UniqueIds(r)
    requires place != [] && ContestedAt(Some(a), l, r, place)
    ensures Container(a, l, r) && b in BranchesOf(a, l, r) && b.segment == place[0]
    ensures PaddedChild(a, place[0]) == b.a
    ensures PaddedChild(l, place[0]) == Some(b.l) && PaddedChild(r, place[0]) == Some(b.r)
  {
    var s := place[0];
    LeadsIntoContainers(a, l, r);
    var (x, y, z) := (PaddedChild(a, s), PaddedChild(l, s), PaddedChild(r, s));
    b := Branch(s, x, y.value, z.value);
    if x.Some? && (y == x || z == x) {
      UnchangedIsUncontested(x.value, y.value, z.value, place[1..]);
    }
    if IdentityArrays(a, l, r) {
      var i := FindId(a.items, s.id).value;
      ByIdIsFind(l.items, s.id);
      ByIdIsFind(r.items, s.id);
      assert b in ElementBranch(a, l, r, i);
    }
    BranchMembers(a, l, r, b);
  }

  ghost predicate Reported(a: Value, l: Value, r: Value, at: Location, place: Location) {
    exists c :: c in Clashes(a, l, r, at) && c.at == at + place
  }

  lemma FirstApart(at: Location, place: Location)
    requires place != []
    ensures at + [place[0]] + place[1..] == at + place
  {
  }

  lemma ReportedInBranch(a: Value, l: Value, r: Value, at: Location, b: Branch, c: Clash)
    requires Container(a, l, r) && b in BranchesOf(a, l, r) && c in BranchClashes(b, at)
    ensures c in Clashes(a, l, r, at)
  {
    GatherHolds(BranchesOf(a, l, r), at, b, c);
    ClashesByBranch(a, l, r, at);
  }

  lemma {:induction false} ContestedIsReported(a: Value, l: Value, r: Value, at: Location, place: Location)
    requires UniqueIds(a) && UniqueIds(l) && UniqueIds(r)
    requires ContestedAt(Some(a), l, r, place)
    ensures Reported(a, l, r, at, place)
    decreases |place|
  {
    if place == [] {
      LeadsIntoContainers(a, l, r);
      assert at + place == at && Clash(at, Some(a), l, r) in Clashes(a, l, r, at);
    } else {
      var b := BranchTowards(a, l, r, place);
      var below := at + [b.segment];
      FirstApart(at, place);
      if b.a.Some? {
        BranchInputs(a, l, r, b);
        ContestedIsReported(b.a.value, b.l, b.r, below, place[1..]);
        var c :| c in Clashes(b.a.value, b.l, b.r, below) && c.at == below + place[1..];
        ReportedInBranch(a, l, r, at, b, c);
      } else {
        assert place[1..] == [];
        ReportedInBranch(a, l, r, at, b, Clash(below, None, b.l, b.r));
      }
    }
  }

  lemma {:induction false} ReportedIsContested(a: Value, l: Value, r: Value, at: Location, c: Clash)
    requires UniqueIds(a) && UniqueIds(l) && UniqueIds(r)
    requires c in Clashes(a, l, r, at)
    ensures at <= c.at && ContestedAt(Some(a), l, r, c.at[|at|..])
    decreases Composite(a), a
  {
    LeadsIntoContainers(a, l, r);
    if Container(a, l, r) {
      var b := ClashBranch(a, l, r, at, c);
      BranchInputs(a, l, r, b);
      BranchUnder(b, at, c);
      BranchLeads(a, l, r, b);
      var place := c.at[|at|..];
      assert place[0] == c.at[|at|] == b.segment && place[1..] == c.at[|at| + 1..];
      if b.a.Some? {
        ReportedIsContested(b.a.value, b.l, b.r, at + [b.segment], c);
      } else {
        assert place[1..] == [];
      }
    } else {
      assert c.at[|at|..] == [];
    }
  }

  lemma BranchLeads(a: Value, l: Value, r: Value, b: Branch)
    requires Container(a, l, r) && b in BranchesOf(a, l, r)
    ensures LeadsInto(a, l, r, b.segment) && (b.a.None? ==> b.segment.Key?)
  {
    BranchMembers(a, l, r, b);
    LeadsIntoContainers(a, l, r);
  }

  /** A place is reported if and only if it is contested. */
  lemma ReportedExactly(a: Value, l: Value, r: Value, place: Location)
    requires UniqueIds(a) && UniqueIds(l) && UniqueIds(r)
    ensures Reported(a, l, r, [], place) <==> ContestedAt(Some(a), l, r, place)
  {
    if ContestedAt(Some(a), l, r, place) {
      ContestedIsReported(a, l, r, [], place);
    }
    if Reported(a, l, r, [], place) {
      var c :| c in Clashes(a, l, r, []) && c.at == [] + place;
      ReportedIsContested(a, l, r, [], c);
      assert c.at[0..] == place;
    }
  }

  /** The merge is clean if and only if no place is contested. */
  lemma CleanExactly(a: Value, l: Value, r: Value)
    requires UniqueIds(a) && UniqueIds(l) && UniqueIds(r)
    ensures Outcome(a, l, r).Clean? <==> forall place :: !ContestedAt(Some(a), l, r, place)
  {
    var clashes := Clashes(a, l, r, []);
    if clashes != [] {
      var c := clashes[0];
      ReportedIsContested(a, l, r, [], c);
      assert ContestedAt(Some(a), l, r, c.at[0..]);
    } else {
      forall place ensures !ContestedAt(Some(a), l, r, place) {
        if ContestedAt(Some(a), l, r, place) {
          ContestedIsReported(a, l, r, [], place);
        }
      }
    }
  }

  // --------------------------------------------------------- order of the report

  // Which of two children of the ancestor's value comes first.
  ghost predicate ComesFirst(a: Value, s: Segment, t: Segment) {
    match (s, t)
    case (Key(key), Key(other)) => Before(key, other)
    case (Index(index), Index(other)) => index < other
    case (Id(id), Id(other)) =>
      a.Array? && exists i, j :: 0 <= i < j < |a.items| && IdOf(a.items[i]) == id && IdOf(a.items[j]) == other
    case _ => false
  }

  /** Where the two places part, the first goes to the earlier key, position or element of the ancestor. */
  ghost predicate Ahead(a: Value, p: Location, q: Location)
    decreases |p|
  {
    p != [] && q != [] &&
    if p[0] == q[0] then PaddedChild(a, p[0]).Some? && Ahead(PaddedChild(a, p[0]).value, p[1..], q[1..])
    else ComesFirst(a, p[0], q[0])
  }

  ghost predicate InOrder(a: Value, clashes: seq<Clash>, at: Location) {
    && (forall c :: c in clashes ==> at <= c.at)
    && forall i, j :: 0 <= i < j < |clashes| ==> Ahead(a, clashes[i].at[|at|..], clashes[j].at[|at|..])
  }

  ghost predicate BranchesInOrder(a: Value, branches: seq<Branch>) {
    forall i, j :: 0 <= i < j < |branches| ==> ComesFirst(a, branches[i].segment, branches[j].segment)
  }

  lemma {:induction false} FieldsInOrder(a: Value, l: Value, r: Value, keys: seq<string>)
    requires Objects(a, l, r) && Ascending(keys)
    ensures BranchesInOrder(a, FieldsBranches(a, l, r, keys))
  {
    if keys != [] {
      FieldsInOrder(a, l, r, keys[1..]);
      var rest := FieldsBranches(a, l, r, keys[1..]);
      forall b | b in rest ensures b.segment.Key? && Before(keys[0], b.segment.key) {
        FieldsBranchesMembers(a, l, r, keys[1..], b);
      }
    }
  }

  lemma {:induction false} ElementsInOrder(a: Value, l: Value, r: Value, i: nat)
    requires Arrays(a, l, r) && i <= |a.items|
    ensures BranchesInOrder(a, ElementsBranches(a, l, r, i))
    decreases |a.items| - i
  {
    if i < |a.items| {
      ElementsInOrder(a, l, r, i + 1);
      forall b | b in ElementsBranches(a, l, r, i + 1) ensures ComesFirst(a, Id(IdOf(a.items[i])), b.segment) {
        ElementsBranchesMembers(a, l, r, i + 1, b);
        var j: nat :| i + 1 <= j < |a.items| && b in ElementBranch(a, l, r, j);
        assert b.segment == Id(IdOf(a.items[j]));
      }
      var first, rest := ElementBranch(a, l, r, i), ElementsBranches(a, l, r, i + 1);
      assert forall b :: b in first ==> b.segment == Id(IdOf(a.items[i]));
      OneAhead(a, first, rest);
    }
  }

  lemma OneAhead(a: Value, first: seq<Branch>, rest: seq<Branch>)
    requires |first| <= 1 && BranchesInOrder(a, rest)
    requires forall b, c :: b in first && c in rest ==> ComesFirst(a, b.segment, c.segment)
    ensures BranchesInOrder(a, first + rest)
  {
  }

  lemma {:induction false} IndicesInOrder(a: Value, l: Value, r: Value, i: nat)
    requires Arrays(a, l, r) && i <= Longest(a, l, r)
    ensures BranchesInOrder(a, IndicesBranches(a, l, r, i))
    decreases Longest(a, l, r) - i
  {
    if i < Longest(a, l, r) {
      IndicesInOrder(a, l, r, i + 1);
      forall b | b in IndicesBranches(a, l, r, i + 1) ensures ComesFirst(a, Index(i), b.segment) {
        IndicesBranchesMembers(a, l, r, i + 1, b);
      }
    }
  }

  lemma BranchOrder(a: Value, l: Value, r: Value)
    requires Container(a, l, r)
    ensures BranchesInOrder(a, BranchesOf(a, l, r))
  {
    if Objects(a, l, r) {
      FieldsInOrder(a, l, r, AllKeys(a, l, r));
    } else if IdentityArrays(a, l, r) {
      ElementsInOrder(a, l, r, 0);
    } else {
      IndicesInOrder(a, l, r, 0);
    }
  }

  lemma AheadBelow(a: Value, b: Branch, at: Location, clashes: seq<Clash>)
    requires b.a.Some? && PaddedChild(a, b.segment) == b.a && InOrder(b.a.value, clashes, at + [b.segment])
    ensures InOrder(a, clashes, at)
  {
    var below := at + [b.segment];
    forall c | c in clashes ensures at <= c.at && c.at[|at|..] == [b.segment] + c.at[|below|..] {
      assert below <= c.at && c.at[|at|] == below[|at|];
    }
    forall i, j | 0 <= i < j < |clashes| ensures Ahead(a, clashes[i].at[|at|..], clashes[j].at[|at|..]) {
      var (p, q) := (clashes[i].at[|at|..], clashes[j].at[|at|..]);
      assert p[1..] == clashes[i].at[|below|..] && q[1..] == clashes[j].at[|below|..];
    }
  }

  lemma {:induction false} GatherInOrder(a: Value, branches: seq<Branch>, at: Location)
    requires BranchesInOrder(a, branches)
    requires forall i, j :: 0 <= i < j < |branches| ==> branches[i].segment != branches[j].segment
    requires forall b :: b in branches ==> InOrder(a, BranchClashes(b, at), at)
    ensures InOrder(a, Gather(branches, at), at)
  {
    if branches != [] {
      var first, rest := BranchClashes(branches[0], at), Gather(branches[1..], at);
      GatherInOrder(a, branches[1..], at);
      forall i, j | 0 <= i < |first| && 0 <= j < |rest|
        ensures at <= rest[j].at && Ahead(a, first[i].at[|at|..], rest[j].at[|at|..])
      {
        var b := GatherMember(branches[1..], at, rest[j]);
        BranchAhead(a, branches[0], b, at, first[i], rest[j]);
      }
      TwoInOrder(a, first, rest, at);
    }
  }

  lemma BranchAhead(a: Value, b: Branch, later: Branch, at: Location, c: Clash, d: Clash)
    requires ComesFirst(a, b.segment, later.segment) && b.segment != later.segment
    requires c in BranchClashes(b, at) && d in BranchClashes(later, at)
    ensures at <= c.at && at <= d.at && Ahead(a, c.at[|at|..], d.at[|at|..])
  {
    BranchUnder(b, at, c);
    BranchUnder(later, at, d);
    assert c.at[|at|..][0] == b.segment && d.at[|at|..][0] == later.segment;
  }

  lemma TwoInOrder(a: Value, p: seq<Clash>, q: seq<Clash>, at: Location)
    requires InOrder(a, p, at) && InOrder(a, q, at)
    requires forall i, j :: 0 <= i < |p| && 0 <= j < |q| ==> Ahead(a, p[i].at[|at|..], q[j].at[|at|..])
    ensures InOrder(a, p + q, at)
  {
  }

  /** Conflicts are reported in the order of keys, of positions and of the ancestor's elements. */
  lemma {:induction false} ReportedInOrder(a: Value, l: Value, r: Value, at: Location)
    requires UniqueIds(a) && UniqueIds(l) && UniqueIds(r)
    ensures InOrder(a, Clashes(a, l, r, at), at)
    decreases Composite(a), a
  {
    if Container(a, l, r) {
      forall b | b in BranchesOf(a, l, r) ensures InOrder(a, BranchClashes(b, at), at) {
        if b.a.Some? {
          BranchSmaller(a, l, r, b);
          BranchInputs(a, l, r, b);
          ReportedInOrder(b.a.value, b.l, b.r, at + [b.segment]);
          AheadBelow(a, b, at, BranchClashes(b, at));
        }
      }
      BranchOrder(a, l, r);
      BranchSegments(a, l, r);
      GatherInOrder(a, BranchesOf(a, l, r), at);
      ClashesByBranch(a, l, r, at);
    }
  }
}
