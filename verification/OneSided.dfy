/** An edit made on one side only: what the merge makes of it, and when it comes out as it was made. */
module OneSided {
  import opened Json
  import opened Locations
  import opened Merge
  import opened Branches
  import opened Conflicts
  import opened Edits

  // ------------------------------------------------------ what becomes of it

  /** The elements of an ancestor's array that the edit kept, as it left them, in the ancestor's order. */
  function KeptElements(items: seq<Value>, edited: map<string, Value>): seq<Value> {
    if items == [] then []
    else
      (if IdOf(items[0]) in edited then [edited[IdOf(items[0])]] else []) + KeptElements(items[1..], edited)
  }

  /** The merge of `a` with itself and `x`: positions are padded, identities are put back in order. */
  function Edited(a: Value, x: Value): Value {
    if !Arrays(a, a, x) then x
    else if IdentityArrays(a, a, x) then
      Array(KeptElements(a.items, ById(x.items)) + Fresh(x.items, Ids(a.items)))
    else
      Array(seq(Longest(a, a, x), i requires 0 <= i < Longest(a, a, x) =>
        if i < |a.items| then Edited(a.items[i], At(x, i)) else At(x, i)))
  }

  lemma NotArraysKept(a: Value, x: Value, at: Location, taken: set<Location>)
    requires !Arrays(a, a, x)
    ensures Merged(a, a, x, at, taken) == x && Merged(a, x, a, at, taken) == x
  {
    if Objects(a, a, x) {
      assert Merged(a, a, x, at, taken).fields == x.fields;
      assert Merged(a, x, a, at, taken).fields == x.fields;
    }
  }

  lemma {:induction false} SurvivorsKept(a: Value, x: Value, i: nat, at: Location, taken: set<Location>)
    requires IdentityArrays(a, a, x) && Distinct(a.items) && i <= |a.items|
    ensures Survivors(a, a, x, i, at, taken) == KeptElements(a.items[i..], ById(x.items))
    ensures Survivors(a, x, a, i, at, taken) == KeptElements(a.items[i..], ById(x.items))
    decreases |a.items| - i
  {
    if i < |a.items| {
      SurvivorsKept(a, x, i + 1, at, taken);
      assert a.items[i..][0] == a.items[i] && a.items[i..][1..] == a.items[i + 1..];
      var av, id := a.items[i], IdOf(a.items[i]);
      ByIdDistinct(a.items, i);
      assert av in a.items;
      if id in ById(x.items) {
        ByIdElement(x.items, id);
        NotArraysKept(av, ById(x.items)[id], at + [Id(id)], taken);
      }
    }
  }

  lemma NothingAdded(items: seq<Value>, known: set<string>)
    ensures Fresh(items, Ids(items) + known) == [] && Fresh(items, known + Ids(items)) == []
  {
    FreshNone(items, Ids(items) + known);
    FreshNone(items, known + Ids(items));
  }

  /** Whichever side made it, an edit comes out the same. */
  lemma {:induction false} MergedIsEdited(a: Value, x: Value, at: Location, taken: set<Location>)
    requires Arrays(a, a, x) ==> UniqueIds(a)
    ensures Merged(a, a, x, at, taken) == Edited(a, x) && Merged(a, x, a, at, taken) == Edited(a, x)
    decreases a
  {
    if !Arrays(a, a, x) {
      NotArraysKept(a, x, at, taken);
    } else if IdentityArrays(a, a, x) {
      IdentityIsEdited(a, x, at, taken);
    } else {
      forall i | 0 <= i < Longest(a, a, x)
        ensures Merged(At(a, i), At(a, i), At(x, i), at + [Index(i)], taken) == Edited(a, x).items[i]
        ensures Merged(At(a, i), At(x, i), At(a, i), at + [Index(i)], taken) == Edited(a, x).items[i]
      {
        if i < |a.items| {
          MergedIsEdited(a.items[i], At(x, i), at + [Index(i)], taken);
        } else {
          NotArraysKept(Null, At(x, i), at + [Index(i)], taken);
        }
      }
      assert Merged(a, a, x, at, taken).items == Edited(a, x).items;
      assert Merged(a, x, a, at, taken).items == Edited(a, x).items;
    }
  }

  lemma IdentityIsEdited(a: Value, x: Value, at: Location, taken: set<Location>)
    requires IdentityArrays(a, a, x) && Distinct(a.items)
    ensures Merged(a, a, x, at, taken) == Edited(a, x) && Merged(a, x, a, at, taken) == Edited(a, x)
  {
    assert a.items[0..] == a.items;
    SurvivorsKept(a, x, 0, at, taken);
    NothingAdded(a.items, {});
    NothingAdded(a.items, Ids(x.items));
    assert Ids(a.items) + {} == Ids(a.items) && Ids(a.items) + Ids(a.items) == Ids(a.items);
    var added := Fresh(x.items, Ids(a.items));
    assert [] + added == added && added + [] == added;
  }

  // ---------------------------------------------------- never a conflict

  /** A side equal to the ancestor never conflicts with anything. */
  lemma {:induction false} OneSideNeverConflicts(a: Value, l: Value, r: Value, at: Location)
    requires (l == a || r == a) && (Arrays(a, l, r) ==> UniqueIds(a))
    ensures Clashes(a, l, r, at) == []
    decreases Composite(a), a
  {
    var clashes := Clashes(a, l, r, at);
    if clashes != [] {
      assert Container(a, l, r);
      var b := ClashBranch(a, l, r, at, clashes[0]);
      UnchangedBranch(a, l, r, b);
      OneSideNeverConflicts(b.a.value, b.l, b.r, at + [b.segment]);
      assert false;
    }
  }

  lemma UnchangedBranch(a: Value, l: Value, r: Value, b: Branch)
    requires (l == a || r == a) && (Arrays(a, l, r) ==> UniqueIds(a))
    requires Container(a, l, r) && b in BranchesOf(a, l, r)
    ensures b.a.Some? && UniqueIds(b.a.value) && (b.l == b.a.value || b.r == b.a.value)
  {
    BranchMembers(a, l, r, b);
    if IdentityArrays(a, l, r) {
      var i: nat :| i < |a.items| && b in ElementBranch(a, l, r, i);
      ByIdDistinct(a.items, i);
    }
  }

  // --------------------------------------------------- when it is kept exactly

  function Keeping(ids: seq<string>, known: set<string>): seq<string> {
    if ids == [] then []
    else (if ids[0] in known then [ids[0]] else []) + Keeping(ids[1..], known)
  }

  /**
   * The edit lists the ids it kept first and in their old order, or did not
   * shorten an array without identity, here and in its elements.
   */
  predicate EditKept(a: Value, x: Value) {
    if !Arrays(a, a, x) then true
    else if IdentityArrays(a, a, x) then
      IdList(x.items) == Keeping(IdList(a.items), Ids(x.items)) + FreshIds(IdList(x.items), Ids(a.items))
    else
      |a.items| <= |x.items| && forall i :: 0 <= i < |a.items| ==> EditKept(a.items[i], x.items[i])
  }

  lemma {:induction false} KeptMember(items: seq<Value>, x: seq<Value>, v: Value)
    requires v in KeptElements(items, ById(x))
    ensures v in x && IdOf(v) in Ids(items) && IdOf(v) in ById(x) && ById(x)[IdOf(v)] == v
  {
    assert items == [items[0]] + items[1..];
    var id := IdOf(items[0]);
    if v in KeptElements(items[1..], ById(x)) {
      KeptMember(items[1..], x, v);
    } else {
      ByIdElement(x, id);
    }
  }

  lemma {:induction false} KeptIds(items: seq<Value>, x: seq<Value>)
    ensures IdList(KeptElements(items, ById(x))) == Keeping(IdList(items), Ids(x))
  {
    ByIdKeys(x);
    if items != [] {
      KeptIds(items[1..], x);
      assert IdList(items)[1..] == IdList(items[1..]);
      if IdOf(items[0]) in ById(x) {
        ByIdElement(x, IdOf(items[0]));
      }
    }
  }

  lemma {:induction false} KeptOnce(items: seq<Value>, known: set<string>)
    requires Distinct(items)
    ensures NoRepeats(Keeping(IdList(items), known))
    ensures forall id :: id in Keeping(IdList(items), known) ==> id in IdList(items)
  {
    if items != [] {
      KeptOnce(items[1..], known);
      assert IdList(items)[1..] == IdList(items[1..]);
      forall id | id in Keeping(IdList(items[1..]), known) ensures id != IdOf(items[0]) {
        var j :| 0 <= j < |items[1..]| && IdList(items[1..])[j] == id;
        assert items[j + 1] == items[1..][j];
      }
      TwoParts(if IdOf(items[0]) in known then [IdOf(items[0])] else [], Keeping(IdList(items[1..]), known));
    }
  }

  // An element alone with its id is the one found by it.
  lemma {:induction false} AloneIsFound(items: seq<Value>, j: nat)
    requires j < |items| && forall i :: 0 <= i < |items| && i != j ==> IdOf(items[i]) != IdOf(items[j])
    ensures IdOf(items[j]) in ById(items) && ById(items)[IdOf(items[j])] == items[j]
  {
    if j < |items| - 1 {
      AloneIsFound(items[..|items| - 1], j);
    }
  }

  lemma IdentityKept(a: Value, x: Value)
    requires IdentityArrays(a, a, x) && Distinct(a.items)
    ensures Edited(a, x) == x <==> EditKept(a, x)
  {
    var kept, added := KeptElements(a.items, ById(x.items)), Fresh(x.items, Ids(a.items));
    KeptIds(a.items, x.items);
    FreshIdList(x.items, Ids(a.items));
    forall v | v in kept ensures HasId(v) {
      KeptMember(a.items, x.items, v);
    }
    IdsAppend(kept, added);
    if EditKept(a, x) {
      SameElements(a, x, kept);
    }
  }

  // Where the ids come in the merged order, so do the elements.
  lemma SameElements(a: Value, x: Value, kept: seq<Value>)
    requires IdentityArrays(a, a, x) && Distinct(a.items) && kept == KeptElements(a.items, ById(x.items))
    requires EditKept(a, x)
    ensures x.items == kept + Fresh(x.items, Ids(a.items))
  {
    var n := |kept|;
    KeptIds(a.items, x.items);
    forall j | 0 <= j < |x.items|
      ensures j < n <==> IdOf(x.items[j]) in Ids(a.items)
      ensures j < n ==> IdOf(x.items[j]) == IdOf(kept[j])
    {
      IdPlace(a, x, kept, j);
    }
    forall j | 0 <= j < n ensures x.items[j] == kept[j] {
      KeptAlone(a, x, kept, j);
      AloneIsFound(x.items, j);
      KeptMember(a.items, x.items, kept[j]);
    }
    var more := x.items[n..];
    assert x.items == kept + more;
    forall v | v in kept ensures IdOf(v) in Ids(a.items) {
      KeptMember(a.items, x.items, v);
    }
    forall v | v in more ensures IdOf(v) !in Ids(a.items) {
      var j :| 0 <= j < |more| && more[j] == v;
      assert x.items[n + j] == v;
    }
    FreshAfter(kept, more, Ids(a.items));
  }

  lemma IdPlace(a: Value, x: Value, kept: seq<Value>, j: nat)
    requires IdentityArrays(a, a, x) && kept == KeptElements(a.items, ById(x.items)) && EditKept(a, x)
    requires j < |x.items|
    ensures |kept| <= |x.items|
    ensures if j < |kept| then IdOf(x.items[j]) == IdOf(kept[j]) && IdOf(x.items[j]) in Ids(a.items)
            else IdOf(x.items[j]) !in Ids(a.items)
  {
    var ids, late := IdList(x.items), FreshIds(IdList(x.items), Ids(a.items));
    KeptIds(a.items, x.items);
    assert ids == IdList(kept) + late;
    if j < |kept| {
      assert ids[j] == IdList(kept)[j];
      KeptMember(a.items, x.items, kept[j]);
    } else {
      assert ids[j] == late[j - |kept|];
      FreshIdsMembers(ids, Ids(a.items), ids[j]);
    }
  }

  lemma KeptAlone(a: Value, x: Value, kept: seq<Value>, j: nat)
    requires IdentityArrays(a, a, x) && Distinct(a.items) && EditKept(a, x)
    requires kept == KeptElements(a.items, ById(x.items))
    requires j < |kept| <= |x.items|
    ensures forall i :: 0 <= i < |x.items| && i != j ==> IdOf(x.items[i]) != IdOf(x.items[j])
  {
    KeptIds(a.items, x.items);
    KeptOnce(a.items, Ids(x.items));
    IdPlace(a, x, kept, j);
    forall i | 0 <= i < |x.items| && i != j ensures IdOf(x.items[i]) != IdOf(x.items[j]) {
      IdPlace(a, x, kept, i);
      assert i < |kept| ==> IdList(kept)[i] != IdList(kept)[j];
    }
  }

  lemma FreshAfter(known: seq<Value>, more: seq<Value>, ids: set<string>)
    requires forall v :: v in known ==> IdOf(v) in ids
    requires forall v :: v in more ==> IdOf(v) !in ids
    ensures Fresh(known + more, ids) == more
  {
    FreshNone(known, ids);
    FreshAll(more, ids);
    FreshConcat(known, more, ids);
    assert [] + more == more;
  }

  lemma {:induction false} EditedIsKept(a: Value, x: Value)
    requires Arrays(a, a, x) ==> UniqueIds(a)
    ensures Edited(a, x) == x <==> EditKept(a, x)
    decreases a
  {
    if IdentityArrays(a, a, x) {
      IdentityKept(a, x);
    } else if Arrays(a, a, x) {
      forall i | 0 <= i < |a.items| && i < |x.items|
        ensures Edited(a.items[i], x.items[i]) == x.items[i] <==> EditKept(a.items[i], x.items[i])
      {
        EditedIsKept(a.items[i], x.items[i]);
      }
      if EditKept(a, x) {
        assert Edited(a, x).items == x.items;
      } else if |a.items| <= |x.items| {
        var i :| 0 <= i < |a.items| && !EditKept(a.items[i], x.items[i]);
        assert Edited(a, x).items[i] != x.items[i];
      } else {
        assert |Edited(a, x).items| > |x.items|;
      }
    }
  }

  /** With an unchanged local side the result is exactly the remote side if and only if the edit is kept. */
  lemma LocalUnchanged(a: Value, r: Value, at: Location, taken: set<Location>)
    requires Arrays(a, a, r) ==> UniqueIds(a)
    ensures Merged(a, a, r, at, taken) == r <==> EditKept(a, r)
    ensures Clashes(a, a, r, at) == []
  {
    MergedIsEdited(a, r, at, taken);
    EditedIsKept(a, r);
    OneSideNeverConflicts(a, a, r, at);
  }

  lemma RemoteUnchanged(a: Value, l: Value, at: Location, taken: set<Location>)
    requires Arrays(a, l, a) ==> UniqueIds(a)
    ensures Merged(a, l, a, at, taken) == l <==> EditKept(a, l)
    ensures Clashes(a, l, a, at) == []
  {
    MergedIsEdited(a, l, at, taken);
    EditedIsKept(a, l);
    OneSideNeverConflicts(a, l, a, at);
  }

  /** An edit made on one side only merges cleanly, and comes out as it was made if and only if it is kept. */
  lemma OneSidedEdit(a: Value, x: Value)
    requires Arrays(a, a, x) ==> UniqueIds(a)
    ensures Outcome(a, a, x) == Clean(Edited(a, x)) && Outcome(a, x, a) == Clean(Edited(a, x))
    ensures Edited(a, x) == x <==> EditKept(a, x)
  {
    MergedIsEdited(a, x, [], {});
    EditedIsKept(a, x);
    OneSideNeverConflicts(a, a, x, []);
    OneSideNeverConflicts(a, x, a, []);
  }

  // ------------------------------------------------------ edits that are lost

  function Nulls(n: nat): seq<Value> {
    seq(n, _ => Null)
  }

  /** Shortening an array without identity comes to nothing but nulls at its end. */
  lemma ShortenedArrayIsPadded(a: Value, x: Value)
    requires Arrays(a, a, x) && !IdentityArrays(a, a, x) && UniqueIds(a) && |x.items| < |a.items|
    requires forall i :: 0 <= i < |x.items| ==> EditKept(a.items[i], x.items[i])
    ensures Outcome(a, a, x) == Clean(Array(x.items + Nulls(|a.items| - |x.items|)))
    ensures Outcome(a, x, a) == Clean(Array(x.items + Nulls(|a.items| - |x.items|)))
  {
    OneSidedEdit(a, x);
    forall i | 0 <= i < |a.items|
      ensures Edited(a, x).items[i] == (x.items + Nulls(|a.items| - |x.items|))[i]
    {
      EditedIsKept(a.items[i], At(x, i));
    }
    assert Edited(a, x).items == x.items + Nulls(|a.items| - |x.items|);
  }

  /** Putting the elements of an identity array in another order comes to nothing. */
  lemma ReorderingIsUndone(a: Value, x: Value)
    requires IdentityArrays(a, a, x) && UniqueIds(a) && UniqueIds(x)
    requires forall v :: v in x.items <==> v in a.items
    ensures Outcome(a, a, x) == Clean(a) && Outcome(a, x, a) == Clean(a)
  {
    OneSidedEdit(a, x);
    forall v | v in a.items ensures IdOf(v) in ById(x.items) && ById(x.items)[IdOf(v)] == v {
      var i :| 0 <= i < |x.items| && x.items[i] == v;
      ByIdDistinct(x.items, i);
    }
    AllKept(a.items, ById(x.items));
    FreshNone(x.items, Ids(a.items));
    assert a.items + [] == a.items;
  }

  lemma {:induction false} AllKept(items: seq<Value>, edited: map<string, Value>)
    requires forall v :: v in items ==> IdOf(v) in edited && edited[IdOf(v)] == v
    ensures KeptElements(items, edited) == items
  {
    if items != [] {
      assert items == [items[0]] + items[1..];
      AllKept(items[1..], edited);
    }
  }

  /** Of two arrays of numbers the shorter is lost; of the same length it is not. */
  lemma NumbersEdited(a: seq<int>, x: seq<int>)
    requires a != []
    ensures var (p, q) := (Numbers(a), Numbers(x)); Outcome(p, p, q) == Clean(q) <==> |a| <= |x|
  {
    var (p, q) := (Numbers(a), Numbers(x));
    assert p.items[0] in p.items && !HasId(p.items[0]);
    OneSidedEdit(p, q);
  }

  function Numbers(ns: seq<int>): Value {
    Array(seq(|ns|, i requires 0 <= i < |ns| => Number(ns[i])))
  }
}
