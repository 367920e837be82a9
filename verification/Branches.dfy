/**
 * One level of the merge, seen uniformly: the places where it descends, or
 * where two additions collide, each with the segment that leads there.
 */
module Branches {
  import opened Json
  import opened Locations
  import opened Merge

  // `a` is None where both sides added the same key with different values.
  datatype Branch = Branch(segment: Segment, a: Option<Value>, l: Value, r: Value)

  predicate Container(a: Value, l: Value, r: Value) {
    Objects(a, l, r) || Arrays(a, l, r)
  }

  ghost function BranchesOf(a: Value, l: Value, r: Value): seq<Branch>
    requires Container(a, l, r)
  {
    if Objects(a, l, r) then FieldsBranches(a, l, r, AllKeys(a, l, r))
    else if IdentityArrays(a, l, r) then ElementsBranches(a, l, r, 0)
    else IndicesBranches(a, l, r, 0)
  }

  ghost function FieldBranch(a: Value, l: Value, r: Value, key: string): seq<Branch>
    requires Objects(a, l, r)
  {
    if Descends(a, l, r, key) then
      [Branch(Key(key), Some(a.fields[key]), l.fields[key], r.fields[key])]
    else if key !in a.fields && key in l.fields && key in r.fields && l.fields[key] != r.fields[key] then
      [Branch(Key(key), None, l.fields[key], r.fields[key])]
    else []
  }

  ghost function FieldsBranches(a: Value, l: Value, r: Value, keys: seq<string>): seq<Branch>
    requires Objects(a, l, r)
  {
    if keys == [] then [] else FieldBranch(a, l, r, keys[0]) + FieldsBranches(a, l, r, keys[1..])
  }

  ghost function ElementBranch(a: Value, l: Value, r: Value, i: nat): seq<Branch>
    requires Arrays(a, l, r) && i < |a.items|
  {
    var id := IdOf(a.items[i]);
    if InBoth(a, l, r, i) then [Branch(Id(id), Some(a.items[i]), ById(l.items)[id], ById(r.items)[id])] else []
  }

  ghost function ElementsBranches(a: Value, l: Value, r: Value, i: nat): seq<Branch>
    requires Arrays(a, l, r) && i <= |a.items|
    decreases |a.items| - i
  {
    if i == |a.items| then [] else ElementBranch(a, l, r, i) + ElementsBranches(a, l, r, i + 1)
  }

  ghost function IndexBranch(a: Value, l: Value, r: Value, i: nat): Branch
    requires Arrays(a, l, r)
  {
    Branch(Index(i), Some(At(a, i)), At(l, i), At(r, i))
  }

  ghost function IndicesBranches(a: Value, l: Value, r: Value, i: nat): seq<Branch>
    requires Arrays(a, l, r) && i <= Longest(a, l, r)
    decreases Longest(a, l, r) - i
  {
    if i == Longest(a, l, r) then []
    else [IndexBranch(a, l, r, i)] + IndicesBranches(a, l, r, i + 1)
  }

  // ---------------------------------------------------- clashes by branches

  ghost function BranchClashes(b: Branch, at: Location): seq<Clash> {
    match b.a
    case None => [Clash(at + [b.segment], None, b.l, b.r)]
    case Some(a) => Clashes(a, b.l, b.r, at + [b.segment])
  }

  ghost function Gather(branches: seq<Branch>, at: Location): seq<Clash> {
    if branches == [] then [] else BranchClashes(branches[0], at) + Gather(branches[1..], at)
  }

  lemma {:induction false} GatherAppend(p: seq<Branch>, q: seq<Branch>, at: Location)
    ensures Gather(p + q, at) == Gather(p, at) + Gather(q, at)
  {
    if p == [] {
      assert p + q == q;
    } else {
      assert (p + q)[1..] == p[1..] + q;
      GatherAppend(p[1..], q, at);
    }
  }

  lemma GatherOne(b: Branch, at: Location)
    ensures Gather([b], at) == BranchClashes(b, at)
  {
    assert Gather([b][1..], at) == [];
  }

  lemma {:induction false} GatherFields(a: Value, l: Value, r: Value, keys: seq<string>, at: Location)
    requires Objects(a, l, r)
    ensures Gather(FieldsBranches(a, l, r, keys), at) == FieldsClashes(a, l, r, keys, at)
  {
    if keys != [] {
      var first := FieldBranch(a, l, r, keys[0]);
      GatherAppend(first, FieldsBranches(a, l, r, keys[1..]), at);
      GatherFields(a, l, r, keys[1..], at);
      if first != [] {
        GatherOne(first[0], at);
      }
    }
  }

  lemma {:induction false} GatherElements(a: Value, l: Value, r: Value, i: nat, at: Location)
    requires Arrays(a, l, r) && i <= |a.items|
    ensures Gather(ElementsBranches(a, l, r, i), at) == ElementsClashes(a, l, r, i, at)
    decreases |a.items| - i
  {
    if i < |a.items| {
      var first := ElementBranch(a, l, r, i);
      GatherAppend(first, ElementsBranches(a, l, r, i + 1), at);
      GatherElements(a, l, r, i + 1, at);
      GatherElement(a, l, r, i, at);
    }
  }

  lemma GatherElement(a: Value, l: Value, r: Value, i: nat, at: Location)
    requires Arrays(a, l, r) && i < |a.items|
    ensures Gather(ElementBranch(a, l, r, i), at) == ElementClashes(a, l, r, i, at)
  {
    var first := ElementBranch(a, l, r, i);
    if first != [] {
      GatherOne(first[0], at);
    }
  }

  lemma {:induction false} GatherIndices(a: Value, l: Value, r: Value, i: nat, at: Location)
    requires Arrays(a, l, r) && i <= Longest(a, l, r)
    ensures Gather(IndicesBranches(a, l, r, i), at) == IndicesClashes(a, l, r, i, at)
    decreases Longest(a, l, r) - i
  {
    if i < Longest(a, l, r) {
      GatherAppend([IndexBranch(a, l, r, i)], IndicesBranches(a, l, r, i + 1), at);
      GatherOne(IndexBranch(a, l, r, i), at);
      GatherIndices(a, l, r, i + 1, at);
    }
  }

  lemma ClashesByBranch(a: Value, l: Value, r: Value, at: Location)
    requires Container(a, l, r)
    ensures Clashes(a, l, r, at) == Gather(BranchesOf(a, l, r), at)
  {
    if Objects(a, l, r) {
      GatherFields(a, l, r, AllKeys(a, l, r), at);
    } else if IdentityArrays(a, l, r) {
      GatherElements(a, l, r, 0, at);
    } else {
      GatherIndices(a, l, r, 0, at);
    }
  }

  lemma {:induction false} GatherMember(branches: seq<Branch>, at: Location, c: Clash) returns (b: Branch)
    requires c in Gather(branches, at)
    ensures b in branches && c in BranchClashes(b, at)
  {
    if c in BranchClashes(branches[0], at) {
      b := branches[0];
    } else {
      b := GatherMember(branches[1..], at, c);
    }
  }

  // ------------------------------------------------------ which branches there are

  /** Membership in `BranchesOf`, without its order. */
  ghost predicate IsBranch(a: Value, l: Value, r: Value, b: Branch)
    requires Container(a, l, r)
  {
    if Objects(a, l, r) then b.segment.Key? && b in FieldBranch(a, l, r, b.segment.key)
    else if IdentityArrays(a, l, r) then
      exists i: nat :: i < |a.items| && b in ElementBranch(a, l, r, i)
    else
      b.segment.Index? && b.segment.index < Longest(a, l, r) && b == IndexBranch(a, l, r, b.segment.index)
  }

  lemma {:induction false} FieldsBranchesMembers(a: Value, l: Value, r: Value, keys: seq<string>, b: Branch)
    requires Objects(a, l, r)
    ensures b in FieldsBranches(a, l, r, keys) <==>
            b.segment.Key? && b.segment.key in keys && b in FieldBranch(a, l, r, b.segment.key)
  {
    if keys != [] {
      FieldsBranchesMembers(a, l, r, keys[1..], b);
      assert keys == [keys[0]] + keys[1..];
    }
  }

  lemma {:induction false} ElementsBranchesMembers(a: Value, l: Value, r: Value, i: nat, b: Branch)
    requires Arrays(a, l, r) && i <= |a.items|
    ensures b in ElementsBranches(a, l, r, i) <==>
            exists j: nat :: i <= j < |a.items| && b in ElementBranch(a, l, r, j)
    decreases |a.items| - i
  {
    if i < |a.items| {
      var (first, rest) := (ElementBranch(a, l, r, i), ElementsBranches(a, l, r, i + 1));
      ElementsBranchesMembers(a, l, r, i + 1, b);
      assert ElementsBranches(a, l, r, i) == first + rest;
      assert b in first + rest <==> b in first || b in rest;
    }
  }

  lemma {:induction false} IndicesBranchesMembers(a: Value, l: Value, r: Value, i: nat, b: Branch)
    requires Arrays(a, l, r) && i <= Longest(a, l, r)
    ensures b in IndicesBranches(a, l, r, i) <==>
            b.segment.Index? && i <= b.segment.index < Longest(a, l, r) && b == IndexBranch(a, l, r, b.segment.index)
    decreases Longest(a, l, r) - i
  {
    if i < Longest(a, l, r) {
      IndicesBranchesMembers(a, l, r, i + 1, b);
    }
  }

  lemma BranchMembers(a: Value, l: Value, r: Value, b: Branch)
    requires Container(a, l, r)
    ensures b in BranchesOf(a, l, r) <==> IsBranch(a, l, r, b)
  {
    if Objects(a, l, r) {
      var keys := AllKeys(a, l, r);
      FieldsBranchesMembers(a, l, r, keys, b);
      assert forall key :: key in keys <==> key in Elements(keys);
    } else if IdentityArrays(a, l, r) {
      ElementsBranchesMembers(a, l, r, 0, b);
    } else {
      IndicesBranchesMembers(a, l, r, 0, b);
    }
  }

  lemma BranchSmaller(a: Value, l: Value, r: Value, b: Branch)
    requires Container(a, l, r) && b in BranchesOf(a, l, r) && b.a.Some?
    ensures !Composite(b.a.value) || b.a.value < a
  {
    BranchMembers(a, l, r, b);
  }

  /** A clash sits at its own level, or inside one branch. */
  lemma ClashBranch(a: Value, l: Value, r: Value, at: Location, c: Clash) returns (b: Branch)
    requires Container(a, l, r) && c in Clashes(a, l, r, at)
    ensures b in BranchesOf(a, l, r) && c in BranchClashes(b, at)
    ensures b.a.Some? ==> !Composite(b.a.value) || b.a.value < a
  {
    ClashesByBranch(a, l, r, at);
    b := GatherMember(BranchesOf(a, l, r), at, c);
    if b.a.Some? {
      BranchSmaller(a, l, r, b);
    }
  }

  // --------------------------------------------------------- distinct places

  ghost predicate Apart(p: Location, q: Location) {
    !(p <= q) && !(q <= p)
  }

  lemma SegmentsApart(at: Location, p: Location, q: Location, s: Segment, t: Segment)
    requires at + [s] <= p && at + [t] <= q && s != t
    ensures Apart(p, q)
  {
    assert p[|at|] == s && q[|at|] == t;
  }

  /** Every clash found under a location extends it. */
  lemma {:induction false} ClashesUnder(a: Value, l: Value, r: Value, at: Location, c: Clash)
    requires c in Clashes(a, l, r, at)
    ensures at <= c.at
    decreases Composite(a), a, 0
  {
    if Container(a, l, r) {
      var b := ClashBranch(a, l, r, at, c);
      BranchUnder(b, at, c);
    }
  }

  lemma {:induction false} BranchUnder(b: Branch, at: Location, c: Clash)
    requires c in BranchClashes(b, at)
    ensures at + [b.segment] <= c.at && at <= c.at
    decreases b.a.Some? && Composite(b.a.value), if b.a.Some? then b.a.value else Null, 1
  {
    if b.a.Some? {
      ClashesUnder(b.a.value, b.l, b.r, at + [b.segment], c);
    }
    assert at <= at + [b.segment];
  }
}
