/** The shape of merged identity arrays: whose ids they hold, and in which order. */
module Edits {
  import opened Json
  import opened Locations
  import opened Merge
  import opened Branches
  import opened Conflicts

  // -------------------------------------------------------- identity arrays

  predicate SameId(a: Value, l: Value, r: Value) {
    HasId(a) && HasId(l) && HasId(r) && IdOf(a) == IdOf(l) == IdOf(r)
  }

  lemma MergedKeepsId(a: Value, l: Value, r: Value, at: Location, taken: set<Location>)
    requires SameId(a, l, r)
    ensures HasId(Merged(a, l, r, at, taken)) && IdOf(Merged(a, l, r, at, taken)) == IdOf(a)
  {
    assert Field(a, l, r, "id", at, taken) == Some(a.fields["id"]);
  }

  lemma {:induction false} ByIdElement(items: seq<Value>, id: string)
    requires id in ById(items)
    ensures ById(items)[id] in items && IdOf(ById(items)[id]) == id
  {
    var last := |items| - 1;
    if IdOf(items[last]) != id {
      ByIdElement(items[..last], id);
    }
  }

  function IdList(items: seq<Value>): seq<string> {
    seq(|items|, i requires 0 <= i < |items| => IdOf(items[i]))
  }

  /** An ancestor's element survives when both sides keep it, or the only side keeping it changed it. */
  predicate Survives(a: Value, l: Value, r: Value, i: nat)
    requires Arrays(a, l, r) && i < |a.items|
  {
    var id, ls, rs := IdOf(a.items[i]), ById(l.items), ById(r.items);
    || (id in ls && id in rs)
    || (id in ls && id !in rs && ls[id] != a.items[i])
    || (id !in ls && id in rs && rs[id] != a.items[i])
  }

  // The surviving ids from index `i` on, in the ancestor's order.
  function SurvivingIds(a: Value, l: Value, r: Value, i: nat): seq<string>
    requires Arrays(a, l, r) && i <= |a.items|
    decreases |a.items| - i
  {
    if i == |a.items| then []
    else (if Survives(a, l, r, i) then [IdOf(a.items[i])] else []) + SurvivingIds(a, l, r, i + 1)
  }

  function FreshIds(ids: seq<string>, known: set<string>): seq<string> {
    if ids == [] then []
    else (if ids[0] in known then [] else [ids[0]]) + FreshIds(ids[1..], known)
  }

  lemma SurvivorIds(a: Value, l: Value, r: Value, i: nat, at: Location, taken: set<Location>)
    requires IdentityArrays(a, l, r) && i < |a.items|
    ensures var s := Survivor(a, l, r, i, at, taken);
            AllHaveId(s) && IdList(s) == if Survives(a, l, r, i) then [IdOf(a.items[i])] else []
  {
    var id := IdOf(a.items[i]);
    assert a.items[i] in a.items;
    if id in ById(l.items) {
      ByIdElement(l.items, id);
    }
    if id in ById(r.items) {
      ByIdElement(r.items, id);
    }
    if InBoth(a, l, r, i) {
      MergedKeepsId(a.items[i], ById(l.items)[id], ById(r.items)[id], at + [Id(id)], taken);
    }
  }

  lemma {:induction false} SurvivorsIds(a: Value, l: Value, r: Value, i: nat, at: Location, taken: set<Location>)
    requires IdentityArrays(a, l, r) && i <= |a.items|
    ensures var s := Survivors(a, l, r, i, at, taken);
            AllHaveId(s) && IdList(s) == SurvivingIds(a, l, r, i)
    decreases |a.items| - i
  {
    if i < |a.items| {
      SurvivorIds(a, l, r, i, at, taken);
      SurvivorsIds(a, l, r, i + 1, at, taken);
    }
  }

  lemma {:induction false} FreshAll(items: seq<Value>, known: set<string>)
    requires forall v :: v in items ==> IdOf(v) !in known
    ensures Fresh(items, known) == items
  {
    if items != [] {
      FreshAll(items[1..], known);
    }
  }

  lemma {:induction false} FreshNone(items: seq<Value>, known: set<string>)
    requires forall v :: v in items ==> IdOf(v) in known
    ensures Fresh(items, known) == []
  {
    if items != [] {
      FreshNone(items[1..], known);
    }
  }

  lemma {:induction false} FreshConcat(p: seq<Value>, q: seq<Value>, known: set<string>)
    ensures Fresh(p + q, known) == Fresh(p, known) + Fresh(q, known)
  {
    if p == [] {
      assert p + q == q;
    } else {
      assert (p + q)[1..] == p[1..] + q;
      FreshConcat(p[1..], q, known);
    }
  }

  lemma {:induction false} FreshIdList(items: seq<Value>, known: set<string>)
    requires AllHaveId(items)
    ensures AllHaveId(Fresh(items, known)) && IdList(Fresh(items, known)) == FreshIds(IdList(items), known)
  {
    if items != [] {
      assert items[0] in items && items == [items[0]] + items[1..];
      FreshIdList(items[1..], known);
      assert IdList(items)[1..] == IdList(items[1..]);
      var first, rest := if IdOf(items[0]) in known then [] else [items[0]], Fresh(items[1..], known);
      IdsAppend(first, rest);
    }
  }

  lemma IdentityArrayParts(a: Value, l: Value, r: Value, at: Location, taken: set<Location>)
    requires IdentityArrays(a, l, r)
    ensures Merged(a, l, r, at, taken) == Array(
              Survivors(a, l, r, 0, at, taken) + Fresh(l.items, Ids(a.items)) +
              Fresh(r.items, Ids(a.items) + Ids(l.items)))
  {
    var survivors := Survivors(a, l, r, 0, at, taken);
    var locals, remotes := Fresh(l.items, Ids(a.items)), Fresh(r.items, Ids(a.items) + Ids(l.items));
    assert survivors + (locals + remotes) == survivors + locals + remotes;
  }

  /**
   * The ids of a merged identity array: the ancestor's survivors in its order,
   * then local additions, then remote additions local does not have.
   */
  lemma IdentityArrayOrder(a: Value, l: Value, r: Value, at: Location, taken: set<Location>)
    requires IdentityArrays(a, l, r)
    ensures var m := Merged(a, l, r, at, taken);
            && m.Array? && AllHaveId(m.items)
            && IdList(m.items) == SurvivingIds(a, l, r, 0) + FreshIds(IdList(l.items), Ids(a.items)) +
                                  FreshIds(IdList(r.items), Ids(a.items) + Ids(l.items))
  {
    var survivors := Survivors(a, l, r, 0, at, taken);
    var locals, remotes := Fresh(l.items, Ids(a.items)), Fresh(r.items, Ids(a.items) + Ids(l.items));
    SurvivorsIds(a, l, r, 0, at, taken);
    FreshIdList(l.items, Ids(a.items));
    FreshIdList(r.items, Ids(a.items) + Ids(l.items));
    IdsAppend(survivors, locals);
    IdsAppend(survivors + locals, remotes);
    IdentityArrayParts(a, l, r, at, taken);
  }

  lemma IdsAppend(p: seq<Value>, q: seq<Value>)
    requires AllHaveId(p) && AllHaveId(q)
    ensures AllHaveId(p + q) && IdList(p + q) == IdList(p) + IdList(q)
  {
  }

  lemma {:induction false} FreshIdsMembers(ids: seq<string>, known: set<string>, id: string)
    ensures id in FreshIds(ids, known) <==> id in ids && id !in known
  {
    if ids != [] {
      FreshIdsMembers(ids[1..], known, id);
      assert ids == [ids[0]] + ids[1..];
    }
  }

  lemma {:induction false} FreshIdsNoRepeats(ids: seq<string>, known: set<string>)
    requires NoRepeats(ids)
    ensures NoRepeats(FreshIds(ids, known))
  {
    if ids != [] {
      FreshIdsNoRepeats(ids[1..], known);
      forall id | id in FreshIds(ids[1..], known) ensures id != ids[0] {
        FreshIdsMembers(ids[1..], known, id);
        var j :| 0 <= j < |ids[1..]| && ids[1..][j] == id;
        assert ids[j + 1] == id;
      }
      TwoParts(if ids[0] in known then [] else [ids[0]], FreshIds(ids[1..], known));
    }
  }

  lemma {:induction false} SurvivingIdsMembers(a: Value, l: Value, r: Value, i: nat, id: string)
    requires Arrays(a, l, r) && i <= |a.items|
    ensures id in SurvivingIds(a, l, r, i) <==>
            exists j: nat :: i <= j < |a.items| && IdOf(a.items[j]) == id && Survives(a, l, r, j)
    decreases |a.items| - i
  {
    if i < |a.items| {
      SurvivingIdsMembers(a, l, r, i + 1, id);
    }
  }

  lemma {:induction false} SurvivingIdsNoRepeats(a: Value, l: Value, r: Value, i: nat)
    requires Arrays(a, l, r) && i <= |a.items| && Distinct(a.items)
    ensures NoRepeats(SurvivingIds(a, l, r, i))
    decreases |a.items| - i
  {
    if i < |a.items| {
      SurvivingIdsNoRepeats(a, l, r, i + 1);
      SurvivingIdsMembers(a, l, r, i + 1, IdOf(a.items[i]));
    }
  }

  /** Unique ids per input stay unique in the merged array. */
  lemma IdentityArrayUnique(a: Value, l: Value, r: Value, at: Location, taken: set<Location>)
    requires IdentityArrays(a, l, r) && Distinct(a.items) && Distinct(l.items) && Distinct(r.items)
    ensures Merged(a, l, r, at, taken).Array? && Distinct(Merged(a, l, r, at, taken).items)
  {
    var m := Merged(a, l, r, at, taken);
    var kept := SurvivingIds(a, l, r, 0);
    var locals := FreshIds(IdList(l.items), Ids(a.items));
    var remotes := FreshIds(IdList(r.items), Ids(a.items) + Ids(l.items));
    IdentityArrayOrder(a, l, r, at, taken);
    SurvivingIdsNoRepeats(a, l, r, 0);
    FreshIdsNoRepeats(IdList(l.items), Ids(a.items));
    FreshIdsNoRepeats(IdList(r.items), Ids(a.items) + Ids(l.items));
    forall id
      ensures id in kept ==> id in Ids(a.items)
      ensures id in locals ==> id !in Ids(a.items) && id in Ids(l.items)
      ensures id in remotes ==> id !in Ids(a.items) && id !in Ids(l.items)
    {
      SurvivingIdsMembers(a, l, r, 0, id);
      FreshIdsMembers(IdList(l.items), Ids(a.items), id);
      FreshIdsMembers(IdList(r.items), Ids(a.items) + Ids(l.items), id);
    }
    TwoParts(kept, locals);
    TwoParts(kept + locals, remotes);
    forall i, j | 0 <= i < j < |m.items| ensures IdOf(m.items[i]) != IdOf(m.items[j]) {
      assert IdList(m.items)[i] != IdList(m.items)[j];
    }
  }

  lemma TwoParts(p: seq<string>, q: seq<string>)
    requires NoRepeats(p) && NoRepeats(q)
    requires forall id :: id in p ==> id !in q
    ensures NoRepeats(p + q)
  {
    forall i, j | 0 <= i < |p| && 0 <= j < |q| ensures p[i] != q[j] {
      assert p[i] in p;
    }
  }

  /** An ancestor's id is in the merged array exactly when it survives. */
  lemma AncestorSurvival(a: Value, l: Value, r: Value, i: nat, at: Location, taken: set<Location>)
    requires IdentityArrays(a, l, r) && Distinct(a.items) && i < |a.items|
    ensures Merged(a, l, r, at, taken).Array?
    ensures IdOf(a.items[i]) in IdList(Merged(a, l, r, at, taken).items) <==> Survives(a, l, r, i)
  {
    var id := IdOf(a.items[i]);
    IdentityArrayOrder(a, l, r, at, taken);
    assert a.items[i] in a.items && id in Ids(a.items);
    SurvivingIdsMembers(a, l, r, 0, id);
    FreshIdsMembers(IdList(l.items), Ids(a.items), id);
    FreshIdsMembers(IdList(r.items), Ids(a.items) + Ids(l.items), id);
  }
}
