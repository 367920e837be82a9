/**
 * The rules of the merge, place by place: what stands under a key, under an
 * id, at an index and at a leaf, in terms of what the three inputs have there.
 */
module MergeRules {
  import opened Json
  import opened Locations
  import opened Merge
  import opened Conflicts
  import opened OneSided
  import opened DisjointEdits

  // ------------------------------------------------------ keys and identities

  /** A key or an id that addresses one child of all three inputs. */
  ghost predicate Named(a: Value, l: Value, r: Value, s: Segment) {
    (s.Key? && a.Object? && l.Object? && r.Object?) || (s.Id? && DistinctArrays(a, l, r))
  }

  /**
   * A child is there exactly when both sides have it, or a side added it, or
   * the only side that kept the ancestor's changed it.
   */
  lemma KeptExactly(a: Value, l: Value, r: Value, s: Segment, at: Location, taken: set<Location>)
    requires Named(a, l, r, s)
    ensures var (av, lv, rv) := (Child(a, s), Child(l, s), Child(r, s));
            Child(Merged(a, l, r, at, taken), s).Some? <==>
            || (lv.Some? && rv.Some?)
            || (av.None? && (lv.Some? || rv.Some?))
            || (lv.Some? && rv.None? && lv != av)
            || (rv.Some? && lv.None? && rv != av)
  {
    MergedChild(a, l, r, s, at, taken);
  }

  /**
   * Which value it is. A deletion gives way to a change, a change to nothing;
   * two changes of an ancestor's child are merged; of two additions under a key
   * the local one stays unless the remote one is taken, under an id always.
   */
  lemma MergedChild(a: Value, l: Value, r: Value, s: Segment, at: Location, taken: set<Location>)
    requires Named(a, l, r, s)
    ensures var (av, lv, rv) := (Child(a, s), Child(l, s), Child(r, s));
            var m := Child(Merged(a, l, r, at, taken), s);
            && (lv.None? && rv.None? ==> m == None)
            && (av.None? && lv.Some? && rv.None? ==> m == lv)
            && (av.None? && lv.None? && rv.Some? ==> m == rv)
            && (av.None? && lv.Some? && rv.Some? ==> m == if s.Key? && at + [s] in taken then rv else lv)
            && (av.Some? && lv.Some? && rv.None? ==> m == if lv == av then None else lv)
            && (av.Some? && lv.None? && rv.Some? ==> m == if rv == av then None else rv)
            && (av.Some? && lv.Some? && rv.Some? ==>
                m == if lv == av then rv
                     else if rv == av then lv
                     else Some(Merged(av.value, lv.value, rv.value, at + [s], taken)))
  {
    if s.Key? {
      assert Child(Merged(a, l, r, at, taken), s) == Field(a, l, r, s.key, at, taken);
    } else {
      IdChild(a, l, r, s.id, at, taken);
    }
  }

  lemma IdChild(a: Value, l: Value, r: Value, id: string, at: Location, taken: set<Location>)
    requires DistinctArrays(a, l, r)
    ensures var (av, lv, rv) := (Child(a, Id(id)), Child(l, Id(id)), Child(r, Id(id)));
            var m := Child(Merged(a, l, r, at, taken), Id(id));
            && (av.None? ==> m == if lv.Some? then lv else rv)
            && (av.Some? && (lv.None? || rv.None?) ==> m == if lv == av then rv else if rv == av then lv
                                                            else if lv.Some? then lv else rv)
            && (av.Some? && lv.Some? && rv.Some? ==>
                m == if lv == av then rv
                     else if rv == av then lv
                     else Some(Merged(av.value, lv.value, rv.value, at + [Id(id)], taken)))
  {
    MergedElement(a, l, r, id, at, taken);
    ByIdIsFind(l.items, id);
    ByIdIsFind(r.items, id);
    var i := FindId(a.items, id);
    if i.Some? && InBoth(a, l, r, i.value) {
      ElementOneSided(a.items[i.value], ById(l.items)[id], ById(r.items)[id], at + [Id(id)], taken);
    }
  }

  // Elements with an id are objects, so a change of one side only is copied.
  lemma ElementOneSided(a: Value, l: Value, r: Value, at: Location, taken: set<Location>)
    requires a.Object?
    ensures l == a ==> Merged(a, l, r, at, taken) == r
    ensures r == a ==> Merged(a, l, r, at, taken) == l
  {
    if l == a {
      NotArraysKept(a, r, at, taken);
    }
    if r == a {
      NotArraysKept(a, l, at, taken);
    }
  }

  // ------------------------------------------------------------- everything else

  /** Arrays without identity: as long as the longest, merged position by position with null past an end. */
  lemma IndexArrayExactly(a: Value, l: Value, r: Value, at: Location, taken: set<Location>)
    requires a.Array? && l.Array? && r.Array?
    requires exists v :: v in a.items + l.items + r.items && !HasId(v)
    ensures var m := Merged(a, l, r, at, taken);
            && m.Array?
            && |m.items| >= |a.items| && |m.items| >= |l.items| && |m.items| >= |r.items|
            && (|m.items| == |a.items| || |m.items| == |l.items| || |m.items| == |r.items|)
            && forall i :: 0 <= i < |m.items| ==>
                 m.items[i] == Merged(if i < |a.items| then a.items[i] else Null,
                                      if i < |l.items| then l.items[i] else Null,
                                      if i < |r.items| then r.items[i] else Null, at + [Index(i)], taken)
  {
    assert !IdentityArrays(a, l, r);
  }

  /** Anything else is a leaf: the changed side wins, and of two changes the local one unless the remote is taken. */
  lemma LeafExactly(a: Value, l: Value, r: Value, at: Location, taken: set<Location>)
    requires !(a.Object? && l.Object? && r.Object?) && !(a.Array? && l.Array? && r.Array?)
    ensures Merged(a, l, r, at, taken) ==
            if l == a || (l != r && r != a && at in taken) then r else l
  {
  }

  /** Where an id is repeated, the last element that has it counts. */
  lemma {:induction false} LastOfId(items: seq<Value>, id: string)
    ensures id in ById(items) <==> exists i :: 0 <= i < |items| && IdOf(items[i]) == id
    ensures forall i ::
      0 <= i < |items| && IdOf(items[i]) == id && (forall j :: i < j < |items| ==> IdOf(items[j]) != id) ==>
      id in ById(items) && ById(items)[id] == items[i]
  {
    if items != [] {
      var last := |items| - 1;
      LastOfId(items[..last], id);
      if IdOf(items[last]) != id {
        forall i | 0 <= i < |items| && IdOf(items[i]) == id ensures items[..last][i] == items[i] {
        }
      }
    }
  }
}
