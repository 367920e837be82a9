/** Every conflict the merge reports is genuine, addressable, and at a place of its own. */
module Conflicts {
  import opened Json
  import opened Locations
  import opened Merge
  import opened Branches

  // --------------------------------------------------------------- look-ups

  /** The first element with the given id. */
  function FindId(items: seq<Value>, id: string): (r: Option<nat>)
    ensures r.Some? ==> r.value < |items| && HasId(items[r.value]) && IdOf(items[r.value]) == id
    ensures r.Some? ==> forall j :: 0 <= j < r.value ==> !(HasId(items[j]) && IdOf(items[j]) == id)
    ensures r.None? ==> forall j :: 0 <= j < |items| ==> !(HasId(items[j]) && IdOf(items[j]) == id)
  {
    if items == [] then None
    else if HasId(items[0]) && IdOf(items[0]) == id then Some(0)
    else
      match FindId(items[1..], id)
      case None => None
      case Some(i) => Some(i + 1)
  }

  function Child(v: Value, segment: Segment): Option<Value> {
    match segment
    case Key(key) => if v.Object? then Get(v.fields, key) else None
    case Index(i) => if v.Array? && i < |v.items| then Some(v.items[i]) else None
    case Id(id) =>
      if v.Array? && FindId(v.items, id).Some? then Some(v.items[FindId(v.items, id).value]) else None
  }

  function Lookup(v: Value, at: Location): Option<Value>
    decreases |at|
  {
    if at == [] then Some(v)
    else
      match Child(v, at[0])
      case None => None
      case Some(child) => Lookup(child, at[1..])
  }

  // Past the end of an array the merge sees null.
  function PaddedChild(v: Value, segment: Segment): Option<Value> {
    if v.Array? && segment.Index? then Some(At(v, segment.index)) else Child(v, segment)
  }

  function PaddedLookup(v: Value, at: Location): Option<Value>
    decreases |at|
  {
    if at == [] then Some(v)
    else
      match PaddedChild(v, at[0])
      case None => None
      case Some(child) => PaddedLookup(child, at[1..])
  }

  // ------------------------------------------------------------- unique ids

  ghost predicate Distinct(items: seq<Value>) {
    forall i, j :: 0 <= i < j < |items| ==> IdOf(items[i]) != IdOf(items[j])
  }

  /** No identity array inside `v` repeats an id. */
  ghost predicate UniqueIds(v: Value) {
    match v
    case Object(fields) => forall key :: key in fields ==> UniqueIds(fields[key])
    case Array(items) =>
      && (AllHaveId(items) ==> Distinct(items))
      && forall i :: 0 <= i < |items| ==> UniqueIds(items[i])
    case _ => true
  }

  lemma {:induction false} ByIdDistinct(items: seq<Value>, i: nat)
    requires Distinct(items) && i < |items|
    ensures IdOf(items[i]) in ById(items) && ById(items)[IdOf(items[i])] == items[i]
  {
    var last := |items| - 1;
    if i < last {
      ByIdDistinct(items[..last], i);
    }
  }

  lemma ByIdIsFind(items: seq<Value>, id: string)
    requires Distinct(items) && AllHaveId(items)
    ensures id in ById(items) <==> FindId(items, id).Some?
    ensures id in ById(items) ==> ById(items)[id] == items[FindId(items, id).value]
  {
    ByIdKeys(items);
    if id in ById(items) {
      var v :| v in items && IdOf(v) == id;
    }
    if FindId(items, id).Some? {
      ByIdDistinct(items, FindId(items, id).value);
    }
  }

  lemma FindDistinct(items: seq<Value>, i: nat)
    requires Distinct(items) && AllHaveId(items) && i < |items|
    ensures FindId(items, IdOf(items[i])) == Some(i)
  {
    assert items[i] in items;
  }

  // ------------------------------------------------------ genuine conflicts

  ghost predicate Genuine(c: Clash, a: Value, l: Value, r: Value, at: Location) {
    && at <= c.at
    && var place := c.at[|at|..];
    && PaddedLookup(a, place) == c.ancestor
    && PaddedLookup(l, place) == Some(c.local)
    && PaddedLookup(r, place) == Some(c.remote)
    && c.local != c.remote && c.ancestor != Some(c.local) && c.ancestor != Some(c.remote)
  }

  // What a branch sees of the three inputs.
  lemma BranchInputs(a: Value, l: Value, r: Value, b: Branch)
    requires Container(a, l, r) && b in BranchesOf(a, l, r)
    requires UniqueIds(a) && UniqueIds(l) && UniqueIds(r)
    ensures PaddedChild(a, b.segment) == b.a
    ensures PaddedChild(l, b.segment) == Some(b.l) && PaddedChild(r, b.segment) == Some(b.r)
    ensures UniqueIds(b.l) && UniqueIds(b.r) && (b.a.Some? ==> UniqueIds(b.a.value))
    ensures b.a.None? ==> b.l != b.r
  {
    BranchMembers(a, l, r, b);
    if IdentityArrays(a, l, r) {
      ElementInputs(a, l, r, b);
    }
  }

  lemma ElementInputs(a: Value, l: Value, r: Value, b: Branch)
    requires IdentityArrays(a, l, r) && IsBranch(a, l, r, b)
    requires UniqueIds(a) && UniqueIds(l) && UniqueIds(r)
    ensures b.segment.Id? && b.a.Some?
    ensures Child(a, b.segment) == b.a && Child(l, b.segment) == Some(b.l) && Child(r, b.segment) == Some(b.r)
    ensures b.l in l.items && b.r in r.items && b.a.value in a.items
  {
    var i: nat :| i < |a.items| && b in ElementBranch(a, l, r, i);
    FindDistinct(a.items, i);
    ByIdIsFind(l.items, b.segment.id);
    ByIdIsFind(r.items, b.segment.id);
  }

  /**
   * A reported conflict shows what a look-up of its location finds in each
   * input, and the three sides really do disagree there.
   */
  lemma {:induction false} ConflictsAreGenuine(a: Value, l: Value, r: Value, at: Location, c: Clash)
    requires UniqueIds(a) && UniqueIds(l) && UniqueIds(r)
    requires c in Clashes(a, l, r, at)
    ensures Genuine(c, a, l, r, at)
    decreases Composite(a), a
  {
    if Container(a, l, r) {
      var b := ClashBranch(a, l, r, at, c);
      BranchInputs(a, l, r, b);
      BranchUnder(b, at, c);
      var place := c.at[|at|..];
      assert place[0] == c.at[|at|] == b.segment;
      assert place[1..] == c.at[|at| + 1..];
      if b.a.Some? {
        ConflictsAreGenuine(b.a.value, b.l, b.r, at + [b.segment], c);
        assert Genuine(c, b.a.value, b.l, b.r, at + [b.segment]);
      } else {
        assert place[1..] == [];
      }
    } else {
      assert c.at[|at|..] == [];
    }
  }

  // ------------------------------------------------------- separate places

  ghost predicate PairwiseApart(clashes: seq<Clash>) {
    forall i, j :: 0 <= i < j < |clashes| ==> Apart(clashes[i].at, clashes[j].at)
  }

  ghost predicate DistinctSegments(branches: seq<Branch>) {
    forall i, j :: 0 <= i < j < |branches| ==> branches[i].segment != branches[j].segment
  }

  lemma {:induction false} FieldsSegments(a: Value, l: Value, r: Value, keys: seq<string>)
    requires Objects(a, l, r) && Ascending(keys)
    ensures DistinctSegments(FieldsBranches(a, l, r, keys))
  {
    if keys != [] {
      FieldsSegments(a, l, r, keys[1..]);
      var rest := FieldsBranches(a, l, r, keys[1..]);
      forall b | b in rest ensures b.segment != Key(keys[0]) {
        FieldsBranchesMembers(a, l, r, keys[1..], b);
        BeforeTotal(keys[0], b.segment.key);
      }
    }
  }

  lemma {:induction false} ElementsSegments(a: Value, l: Value, r: Value, i: nat)
    requires Arrays(a, l, r) && i <= |a.items| && Distinct(a.items)
    ensures DistinctSegments(ElementsBranches(a, l, r, i))
    decreases |a.items| - i
  {
    if i < |a.items| {
      ElementsSegments(a, l, r, i + 1);
      forall b | b in ElementsBranches(a, l, r, i + 1) ensures b.segment != Id(IdOf(a.items[i])) {
        ElementsBranchesMembers(a, l, r, i + 1, b);
      }
    }
  }

  lemma {:induction false} IndicesSegments(a: Value, l: Value, r: Value, i: nat)
    requires Arrays(a, l, r) && i <= Longest(a, l, r)
    ensures DistinctSegments(IndicesBranches(a, l, r, i))
    decreases Longest(a, l, r) - i
  {
    if i < Longest(a, l, r) {
      IndicesSegments(a, l, r, i + 1);
      forall b | b in IndicesBranches(a, l, r, i + 1) ensures b.segment != Index(i) {
        IndicesBranchesMembers(a, l, r, i + 1, b);
      }
    }
  }

  lemma BranchSegments(a: Value, l: Value, r: Value)
    requires Container(a, l, r) && UniqueIds(a)
    ensures DistinctSegments(BranchesOf(a, l, r))
  {
    if Objects(a, l, r) {
      FieldsSegments(a, l, r, AllKeys(a, l, r));
    } else if IdentityArrays(a, l, r) {
      ElementsSegments(a, l, r, 0);
    } else {
      IndicesSegments(a, l, r, 0);
    }
  }

  lemma {:induction false} GatherApart(branches: seq<Branch>, at: Location)
    requires DistinctSegments(branches)
    requires forall b :: b in branches ==> PairwiseApart(BranchClashes(b, at))
    ensures PairwiseApart(Gather(branches, at))
  {
    if branches != [] {
      var first, rest := BranchClashes(branches[0], at), Gather(branches[1..], at);
      GatherApart(branches[1..], at);
      forall i, j | 0 <= i < |first| && 0 <= j < |rest| ensures Apart(first[i].at, rest[j].at) {
        var b := GatherMember(branches[1..], at, rest[j]);
        BranchUnder(branches[0], at, first[i]);
        BranchUnder(b, at, rest[j]);
        SegmentsApart(at, first[i].at, rest[j].at, branches[0].segment, b.segment);
      }
    }
  }

  /** No conflict location is a prefix of another; in particular they differ. */
  lemma {:induction false} ConflictsAreApart(a: Value, l: Value, r: Value, at: Location)
    requires UniqueIds(a) && UniqueIds(l) && UniqueIds(r)
    ensures PairwiseApart(Clashes(a, l, r, at))
    decreases Composite(a), a
  {
    if Container(a, l, r) {
      forall b | b in BranchesOf(a, l, r) ensures PairwiseApart(BranchClashes(b, at)) {
        if b.a.Some? {
          BranchSmaller(a, l, r, b);
          BranchInputs(a, l, r, b);
          ConflictsAreApart(b.a.value, b.l, b.r, at + [b.segment]);
        }
      }
      BranchSegments(a, l, r);
      GatherApart(BranchesOf(a, l, r), at);
      ClashesByBranch(a, l, r, at);
    }
  }

  // -------------------------------------------------------------- symmetry

  function Swapped(c: Clash): Clash {
    c.(local := c.remote, remote := c.local)
  }

  function SwappedAll(clashes: seq<Clash>): seq<Clash> {
    seq(|clashes|, i requires 0 <= i < |clashes| => Swapped(clashes[i]))
  }

  function SwappedBranch(b: Branch): Branch {
    b.(l := b.r, r := b.l)
  }

  function SwappedBranches(branches: seq<Branch>): seq<Branch> {
    if branches == [] then [] else [SwappedBranch(branches[0])] + SwappedBranches(branches[1..])
  }

  lemma {:induction false} SwappedAppend(p: seq<Branch>, q: seq<Branch>)
    ensures SwappedBranches(p + q) == SwappedBranches(p) + SwappedBranches(q)
  {
    if p == [] {
      assert p + q == q;
    } else {
      assert (p + q)[1..] == p[1..] + q;
      SwappedAppend(p[1..], q);
    }
  }

  lemma {:induction false} SwapFields(a: Value, l: Value, r: Value, keys: seq<string>)
    requires Objects(a, l, r)
    ensures FieldsBranches(a, r, l, keys) == SwappedBranches(FieldsBranches(a, l, r, keys))
  {
    if keys != [] {
      SwapFields(a, l, r, keys[1..]);
      SwappedAppend(FieldBranch(a, l, r, keys[0]), FieldsBranches(a, l, r, keys[1..]));
      assert FieldBranch(a, r, l, keys[0]) == SwappedBranches(FieldBranch(a, l, r, keys[0]));
    }
  }

  lemma {:induction false} SwapElements(a: Value, l: Value, r: Value, i: nat)
    requires Arrays(a, l, r) && i <= |a.items|
    ensures ElementsBranches(a, r, l, i) == SwappedBranches(ElementsBranches(a, l, r, i))
    decreases |a.items| - i
  {
    if i < |a.items| {
      SwapElements(a, l, r, i + 1);
      SwappedAppend(ElementBranch(a, l, r, i), ElementsBranches(a, l, r, i + 1));
      assert ElementBranch(a, r, l, i) == SwappedBranches(ElementBranch(a, l, r, i));
    }
  }

  lemma {:induction false} SwapIndices(a: Value, l: Value, r: Value, i: nat)
    requires Arrays(a, l, r) && i <= Longest(a, l, r)
    ensures IndicesBranches(a, r, l, i) == SwappedBranches(IndicesBranches(a, l, r, i))
    decreases Longest(a, l, r) - i
  {
    if i < Longest(a, l, r) {
      SwapIndices(a, l, r, i + 1);
      SwappedAppend([IndexBranch(a, l, r, i)], IndicesBranches(a, l, r, i + 1));
    }
  }

  lemma SwapBranches(a: Value, l: Value, r: Value)
    requires Container(a, l, r)
    ensures BranchesOf(a, r, l) == SwappedBranches(BranchesOf(a, l, r))
  {
    if Objects(a, l, r) {
      assert a.fields.Keys + l.fields.Keys + r.fields.Keys == a.fields.Keys + r.fields.Keys + l.fields.Keys;
      SwapFields(a, l, r, AllKeys(a, l, r));
    } else if IdentityArrays(a, l, r) {
      SwapElements(a, l, r, 0);
    } else {
      SwapIndices(a, l, r, 0);
    }
  }

  /** Exchanging the sides exchanges them in every conflict and changes nothing else. */
  lemma {:induction false} ConflictsAreSymmetric(a: Value, l: Value, r: Value, at: Location)
    ensures Clashes(a, r, l, at) == SwappedAll(Clashes(a, l, r, at))
    decreases Composite(a), a, 1, 0
  {
    if Container(a, l, r) {
      SwapBranches(a, l, r);
      ClashesByBranch(a, l, r, at);
      ClashesByBranch(a, r, l, at);
      forall b | b in BranchesOf(a, l, r) && b.a.Some?
        ensures !Composite(b.a.value) || b.a.value < a
      {
        BranchSmaller(a, l, r, b);
      }
      SwapGather(a, BranchesOf(a, l, r), at);
    }
  }

  lemma BranchSwapped(b: Branch, at: Location)
    requires b.a.Some? ==>
      Clashes(b.a.value, b.r, b.l, at + [b.segment]) == SwappedAll(Clashes(b.a.value, b.l, b.r, at + [b.segment]))
    ensures BranchClashes(SwappedBranch(b), at) == SwappedAll(BranchClashes(b, at))
  {
  }

  lemma SwappedClashes(p: seq<Clash>, q: seq<Clash>)
    ensures SwappedAll(p + q) == SwappedAll(p) + SwappedAll(q)
  {
  }

  lemma {:induction false} GatherFirst(branches: seq<Branch>, at: Location)
    requires branches != []
    ensures Gather(branches, at) == BranchClashes(branches[0], at) + Gather(branches[1..], at)
    ensures SwappedBranches(branches)[0] == SwappedBranch(branches[0])
    ensures SwappedBranches(branches)[1..] == SwappedBranches(branches[1..])
  {
  }

  lemma {:induction false} SwapGather(a: Value, branches: seq<Branch>, at: Location)
    requires Composite(a)
    requires forall b :: b in branches && b.a.Some? ==> !Composite(b.a.value) || b.a.value < a
    ensures Gather(SwappedBranches(branches), at) == SwappedAll(Gather(branches, at))
    decreases Composite(a), a, 0, |branches|
  {
    if branches != [] {
      var b := branches[0];
      if b.a.Some? {
        ConflictsAreSymmetric(b.a.value, b.l, b.r, at + [b.segment]);
      }
      SwapGather(a, branches[1..], at);
      BranchSwapped(b, at);
      GatherFirst(branches, at);
      GatherFirst(SwappedBranches(branches), at);
      SwappedClashes(BranchClashes(b, at), Gather(branches[1..], at));
    }
  }

  /** Equal sides never conflict, whatever the ancestor. */
  lemma {:induction false} EqualSidesNeverConflict(a: Value, x: Value, at: Location)
    ensures Clashes(a, x, x, at) == []
    decreases Composite(a), a
  {
    var clashes := Clashes(a, x, x, at);
    if Container(a, x, x) && clashes != [] {
      var b := ClashBranch(a, x, x, at, clashes[0]);
      BranchMembers(a, x, x, b);
      assert b.l == b.r && b.a.Some?;
      EqualSidesNeverConflict(b.a.value, b.l, at + [b.segment]);
      assert false;
    }
  }
}
