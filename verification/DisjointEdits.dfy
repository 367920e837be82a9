/** Edits to different places both survive the merge, at any depth. */
module DisjointEdits {
  import opened Json
  import opened Locations
  import opened Merge
  import opened Conflicts
  import opened Edits
  import opened OneSided

  ghost predicate DistinctArrays(a: Value, l: Value, r: Value) {
    IdentityArrays(a, l, r) && Distinct(a.items) && Distinct(l.items) && Distinct(r.items)
  }

  // ------------------------------------------- elements of a merged identity array

  lemma {:induction false} SurvivorAmong(
    a: Value, l: Value, r: Value, i: nat, j: nat, at: Location, taken: set<Location>)
    requires Arrays(a, l, r) && i <= j < |a.items|
    ensures forall v :: v in Survivor(a, l, r, j, at, taken) ==> v in Survivors(a, l, r, i, at, taken)
    decreases j - i
  {
    if i < j {
      SurvivorAmong(a, l, r, i + 1, j, at, taken);
    }
  }

  lemma {:induction false} FreshMembers(items: seq<Value>, known: set<string>, v: Value)
    ensures v in Fresh(items, known) <==> v in items && IdOf(v) !in known
  {
    if items != [] {
      FreshMembers(items[1..], known, v);
      assert items == [items[0]] + items[1..];
    }
  }

  lemma ElementById(items: seq<Value>, v: Value)
    requires Distinct(items) && AllHaveId(items) && v in items
    ensures FindId(items, IdOf(v)).Some? && items[FindId(items, IdOf(v)).value] == v
  {
    var i :| 0 <= i < |items| && items[i] == v;
    FindDistinct(items, i);
  }

  lemma NoElementById(items: seq<Value>, id: string)
    requires AllHaveId(items)
    ensures FindId(items, id).None? <==> id !in IdList(items)
    ensures FindId(items, id).None? <==> id !in Ids(items)
  {
    var found := FindId(items, id);
    if found.Some? {
      assert IdList(items)[found.value] == id && items[found.value] in items;
    }
    if id in IdList(items) {
      var i :| 0 <= i < |items| && IdList(items)[i] == id;
      assert items[i] in items;
    }
  }

  // Which element of the merged array carries an id, in terms of the inputs.
  ghost function Element(a: Value, l: Value, r: Value, id: string, at: Location, taken: set<Location>): Option<Value>
    requires IdentityArrays(a, l, r)
  {
    match FindId(a.items, id)
    case Some(i) =>
      var kept := Survivor(a, l, r, i, at, taken);
      if kept == [] then None else Some(kept[0])
    case None => if Child(l, Id(id)).Some? then Child(l, Id(id)) else Child(r, Id(id))
  }

  lemma MergedElement(a: Value, l: Value, r: Value, id: string, at: Location, taken: set<Location>)
    requires DistinctArrays(a, l, r)
    ensures Child(Merged(a, l, r, at, taken), Id(id)) == Element(a, l, r, id, at, taken)
  {
    var i := FindId(a.items, id);
    if i.Some? {
      KeptElement(a, l, r, i.value, at, taken);
    } else {
      NoElementById(a.items, id);
      AddedElement(a, l, r, id, at, taken);
    }
  }

  lemma KeptElement(a: Value, l: Value, r: Value, i: nat, at: Location, taken: set<Location>)
    requires DistinctArrays(a, l, r) && i < |a.items|
    ensures var kept := Survivor(a, l, r, i, at, taken);
            Child(Merged(a, l, r, at, taken), Id(IdOf(a.items[i]))) == if kept == [] then None else Some(kept[0])
  {
    var m, kept := Merged(a, l, r, at, taken), Survivor(a, l, r, i, at, taken);
    IdentityArrayUnique(a, l, r, at, taken);
    IdentityArrayOrder(a, l, r, at, taken);
    NoElementById(m.items, IdOf(a.items[i]));
    AncestorSurvival(a, l, r, i, at, taken);
    SurvivorIds(a, l, r, i, at, taken);
    SurvivorAmong(a, l, r, 0, i, at, taken);
    assert (kept == []) == (IdList(kept) == []);
    if kept != [] {
      assert IdOf(kept[0]) == IdList(kept)[0];
      ElementById(m.items, kept[0]);
    }
  }

  lemma AddedElement(a: Value, l: Value, r: Value, id: string, at: Location, taken: set<Location>)
    requires DistinctArrays(a, l, r) && id !in Ids(a.items)
    ensures Child(Merged(a, l, r, at, taken), Id(id)) ==
            if Child(l, Id(id)).Some? then Child(l, Id(id)) else Child(r, Id(id))
  {
    var m := Merged(a, l, r, at, taken);
    IdentityArrayUnique(a, l, r, at, taken);
    IdentityArrayOrder(a, l, r, at, taken);
    NoElementById(m.items, id);
    NoElementById(l.items, id);
    NoElementById(r.items, id);
    if Child(l, Id(id)).Some? {
      var v := Child(l, Id(id)).value;
      FreshMembers(l.items, Ids(a.items), v);
      assert v in m.items;
      ElementById(m.items, v);
    } else if Child(r, Id(id)).Some? {
      var v := Child(r, Id(id)).value;
      FreshMembers(r.items, Ids(a.items) + Ids(l.items), v);
      assert v in m.items;
      ElementById(m.items, v);
    } else {
      SurvivingIdsMembers(a, l, r, 0, id);
      FreshIdsMembers(IdList(l.items), Ids(a.items), id);
      FreshIdsMembers(IdList(r.items), Ids(a.items) + Ids(l.items), id);
    }
  }

  // -------------------------------------------------------- disjoint edits

  /**
   * A path of keys and ids whose proper prefixes are objects, or identity
   * arrays with unique ids, present in all three inputs.
   */
  ghost predicate Follows(a: Value, l: Value, r: Value, place: Location)
    decreases |place|
  {
    || place == []
    || (&& ((Objects(a, l, r) && place[0].Key?) || (DistinctArrays(a, l, r) && place[0].Id?))
        && (|place| == 1 ||
            (var s := place[0];
             && Child(a, s).Some? && Child(l, s).Some? && Child(r, s).Some?
             && Follows(Child(a, s).value, Child(l, s).value, Child(r, s).value, place[1..]))))
  }

  /** At `place`, `m` has what the side that changed it has. */
  ghost predicate KeepsEdit(a: Value, l: Value, r: Value, m: Value, place: Location) {
    && (Lookup(r, place) == Lookup(a, place) ==> Lookup(m, place) == Lookup(l, place))
    && (Lookup(l, place) == Lookup(a, place) ==> Lookup(m, place) == Lookup(r, place))
  }

  lemma OneStep(v: Value, place: Location)
    requires |place| == 1
    ensures Lookup(v, place) == Child(v, place[0])
  {
  }

  lemma KeepsEditHere(a: Value, l: Value, r: Value, m: Value, place: Location)
    requires |place| == 1
    requires var s := place[0];
             && (Child(r, s) == Child(a, s) ==> Child(m, s) == Child(l, s))
             && (Child(l, s) == Child(a, s) ==> Child(m, s) == Child(r, s))
    ensures KeepsEdit(a, l, r, m, place)
  {
    OneStep(a, place);
    OneStep(l, place);
    OneStep(r, place);
    OneStep(m, place);
  }

  lemma KeepsEditBelow(a: Value, l: Value, r: Value, m: Value, place: Location)
    requires |place| > 1
    requires var s := place[0];
             && Child(a, s).Some? && Child(l, s).Some? && Child(r, s).Some? && Child(m, s).Some?
             && KeepsEdit(Child(a, s).value, Child(l, s).value, Child(r, s).value, Child(m, s).value, place[1..])
    ensures KeepsEdit(a, l, r, m, place)
  {
  }

  /**
   * Wherever one side left a place as the ancestor had it, the merge has the
   * other side's value there, or its absence; clashes elsewhere may be
   * resolved either way.
   */
  lemma {:induction false} DisjointEdit(
    a: Value, l: Value, r: Value, place: Location, at: Location, taken: set<Location>)
    requires Follows(a, l, r, place) && (place == [] ==> !Arrays(a, l, r))
    ensures KeepsEdit(a, l, r, Merged(a, l, r, at, taken), place)
    decreases |place|, 1
  {
    if place == [] {
      if r == a {
        RemoteUnchanged(a, l, at, taken);
      }
      if l == a {
        LocalUnchanged(a, r, at, taken);
      }
    } else if place[0].Key? {
      DisjointInObject(a, l, r, place, at, taken);
    } else {
      DisjointInArray(a, l, r, place, at, taken);
    }
  }

  lemma DisjointInObject(a: Value, l: Value, r: Value, place: Location, at: Location, taken: set<Location>)
    requires place != [] && Follows(a, l, r, place) && Objects(a, l, r) && place[0].Key?
    ensures KeepsEdit(a, l, r, Merged(a, l, r, at, taken), place)
    decreases |place|, 0
  {
    var key := place[0].key;
    var m := Merged(a, l, r, at, taken);
    assert Child(m, place[0]) == Field(a, l, r, key, at, taken);
    if |place| == 1 {
      KeepsEditHere(a, l, r, m, place);
    } else {
      if Descends(a, l, r, key) {
        DisjointEdit(a.fields[key], l.fields[key], r.fields[key], place[1..], at + [Key(key)], taken);
      }
      KeepsEditBelow(a, l, r, m, place);
    }
  }

  lemma DisjointInArray(a: Value, l: Value, r: Value, place: Location, at: Location, taken: set<Location>)
    requires place != [] && Follows(a, l, r, place) && DistinctArrays(a, l, r) && place[0].Id?
    ensures KeepsEdit(a, l, r, Merged(a, l, r, at, taken), place)
    decreases |place|, 0
  {
    var m := Merged(a, l, r, at, taken);
    DisjointElement(a, l, r, place, at, taken);
    if |place| == 1 {
      KeepsEditHere(a, l, r, m, place);
    } else {
      KeepsEditBelow(a, l, r, m, place);
    }
  }

  lemma DisjointElement(a: Value, l: Value, r: Value, place: Location, at: Location, taken: set<Location>)
    requires place != [] && Follows(a, l, r, place) && DistinctArrays(a, l, r) && place[0].Id?
    ensures var m, s := Merged(a, l, r, at, taken), place[0];
            && (Child(r, s) == Child(a, s) ==> Child(m, s) == Child(l, s))
            && (Child(l, s) == Child(a, s) ==> Child(m, s) == Child(r, s))
            && (|place| > 1 ==> Child(m, s).Some?)
            && (|place| > 1 ==>
                KeepsEdit(Child(a, s).value, Child(l, s).value, Child(r, s).value, Child(m, s).value, place[1..]))
    decreases |place|, 0, 0
  {
    var id := place[0].id;
    MergedElement(a, l, r, id, at, taken);
    ByIdIsFind(l.items, id);
    ByIdIsFind(r.items, id);
    var i := FindId(a.items, id);
    if i.Some? && InBoth(a, l, r, i.value) {
      var (av, lv, rv) := (a.items[i.value], ById(l.items)[id], ById(r.items)[id]);
      RemoteUnchanged(av, lv, at + [Id(id)], taken);
      LocalUnchanged(av, rv, at + [Id(id)], taken);
      DisjointEdit(av, lv, rv, place[1..], at + [Id(id)], taken);
    }
  }
}
