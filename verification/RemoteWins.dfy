/** Choosing the remote side everywhere, compared with merging the other way round. */
module RemoteWins {
  import opened Json
  import opened Locations
  import opened Merge
  import opened Branches
  import opened Conflicts
  import opened Edits
  import opened DisjointEdits
  import opened Resolve

  // ------------------------------------------------------------- additions

  function Additions(a: Value, side: Value): seq<Value>
    requires a.Array? && side.Array?
  {
    Fresh(side.items, Ids(a.items))
  }

  /** What one side added to an identity array starts what the other side added. */
  predicate OneExtendsOther(p: seq<Value>, q: seq<Value>) {
    p <= q || q <= p
  }

  /** At every identity array the merge reaches, one side's additions are a prefix of the other's. */
  ghost predicate AdditionsAgree(a: Value, l: Value, r: Value)
    decreases Composite(a), a, 1
  {
    if Objects(a, l, r) then
      forall key :: key in a.fields && Descends(a, l, r, key) ==>
        AdditionsAgree(a.fields[key], l.fields[key], r.fields[key])
    else if IdentityArrays(a, l, r) then
      && OneExtendsOther(Additions(a, l), Additions(a, r))
      && forall i :: 0 <= i < |a.items| ==> ElementAgrees(a, l, r, i)
    else if Arrays(a, l, r) then
      forall i :: 0 <= i < Longest(a, l, r) ==> AdditionsAgree(At(a, i), At(l, i), At(r, i))
    else true
  }

  ghost predicate ElementAgrees(a: Value, l: Value, r: Value, i: nat)
    requires Arrays(a, l, r) && i < |a.items|
    decreases Composite(a), a, 0
  {
    var id := IdOf(a.items[i]);
    InBoth(a, l, r, i) ==> AdditionsAgree(a.items[i], ById(l.items)[id], ById(r.items)[id])
  }

  lemma {:induction false} FreshTwice(items: seq<Value>, known: set<string>, more: set<string>)
    ensures Fresh(items, known + more) == Fresh(Fresh(items, known), more)
  {
    if items != [] {
      FreshTwice(items[1..], known, more);
      var rest := Fresh(items[1..], known);
      assert ([items[0]] + rest)[1..] == rest && [] + rest == rest;
      assert Fresh(items, known) == if IdOf(items[0]) in known then rest else [items[0]] + rest;
    }
  }

  // Ids of `l` that the ancestor lacks are the ids of its additions.
  lemma {:induction false} FreshSameKnown(items: seq<Value>, p: set<string>, q: set<string>)
    requires forall v :: v in items ==> (IdOf(v) in p <==> IdOf(v) in q)
    ensures Fresh(items, p) == Fresh(items, q)
  {
    if items != [] {
      FreshSameKnown(items[1..], p, q);
    }
  }

  lemma {:induction false} FreshDistinct(items: seq<Value>, known: set<string>)
    requires Distinct(items)
    ensures Distinct(Fresh(items, known))
  {
    if items != [] {
      FreshDistinct(items[1..], known);
      forall v | v in Fresh(items[1..], known) ensures IdOf(v) != IdOf(items[0]) {
        FreshMembers(items[1..], known, v);
      }
    }
  }

  lemma AddedIsAdditions(a: Value, l: Value, r: Value)
    requires Arrays(a, l, r)
    ensures Added(a, l, r) == Additions(a, l) + Fresh(Additions(a, r), Ids(Additions(a, l)))
  {
    FreshTwice(r.items, Ids(a.items), Ids(l.items));
    forall v | v in Additions(a, r) ensures IdOf(v) in Ids(l.items) <==> IdOf(v) in Ids(Additions(a, l)) {
      FreshMembers(r.items, Ids(a.items), v);
      if IdOf(v) in Ids(l.items) {
        var w :| w in l.items && IdOf(w) == IdOf(v);
        FreshMembers(l.items, Ids(a.items), w);
      }
      if IdOf(v) in Ids(Additions(a, l)) {
        var w :| w in Additions(a, l) && IdOf(w) == IdOf(v);
        FreshMembers(l.items, Ids(a.items), w);
      }
    }
    FreshSameKnown(Additions(a, r), Ids(l.items), Ids(Additions(a, l)));
  }

  // When `p` starts `q`, appending what the other lacks gives `q` either way.
  lemma PrefixUnion(p: seq<Value>, q: seq<Value>)
    requires Distinct(q) && p <= q
    ensures p + Fresh(q, Ids(p)) == q && q + Fresh(p, Ids(q)) == q
  {
    var tail := q[|p|..];
    TailIsFresh(p, q);
    forall v | v in p ensures IdOf(v) in Ids(p) && v in q && IdOf(v) in Ids(q) {
      assert v in p + tail;
    }
    FreshNone(p, Ids(q));
    FreshNone(p, Ids(p));
    FreshAll(tail, Ids(p));
    FreshConcat(p, tail, Ids(p));
    assert q == p + tail && [] + tail == tail && q + [] == q;
  }

  lemma TailIsFresh(p: seq<Value>, q: seq<Value>)
    requires Distinct(q) && p <= q
    ensures q == p + q[|p|..]
    ensures forall v :: v in q[|p|..] ==> IdOf(v) !in Ids(p)
  {
    var tail := q[|p|..];
    forall v, w | v in tail && w in p ensures IdOf(w) != IdOf(v) {
      var i :| 0 <= i < |tail| && tail[i] == v;
      var j :| 0 <= j < |p| && p[j] == w;
      assert q[|p| + i] == v && q[j] == w;
    }
  }

  /** Additions come out the same from both directions exactly when one list extends the other. */
  lemma AddedBothWays(a: Value, l: Value, r: Value)
    requires Arrays(a, l, r) && Distinct(l.items) && Distinct(r.items)
    ensures Added(a, l, r) == Added(a, r, l) <==> OneExtendsOther(Additions(a, l), Additions(a, r))
  {
    var p, q := Additions(a, l), Additions(a, r);
    AddedIsAdditions(a, l, r);
    AddedIsAdditions(a, r, l);
    FreshDistinct(l.items, Ids(a.items));
    FreshDistinct(r.items, Ids(a.items));
    if p <= q {
      PrefixUnion(p, q);
    }
    if q <= p {
      PrefixUnion(q, p);
    }
    if Added(a, l, r) == Added(a, r, l) {
      Starts(p, Fresh(q, Ids(p)), q, Fresh(p, Ids(q)));
    }
  }

  lemma Starts(p: seq<Value>, s: seq<Value>, q: seq<Value>, t: seq<Value>)
    requires p + s == q + t
    ensures OneExtendsOther(p, q)
  {
    assert p == (q + t)[..|p|] && q == (p + s)[..|q|];
  }

  // ------------------------------------------------------ remote everywhere

  ghost predicate TakesAll(clashes: seq<Clash>, taken: set<Location>) {
    forall c :: c in clashes ==> c.at in taken
  }

  lemma {:induction false} GatherHas(branches: seq<Branch>, at: Location, b: Branch)
    requires b in branches
    ensures forall c :: c in BranchClashes(b, at) ==> c in Gather(branches, at)
  {
    if b != branches[0] {
      GatherHas(branches[1..], at, b);
    }
  }

  lemma BranchTaken(a: Value, l: Value, r: Value, b: Branch, at: Location, taken: set<Location>)
    requires Container(a, l, r) && IsBranch(a, l, r, b) && TakesAll(Clashes(a, l, r, at), taken)
    ensures TakesAll(BranchClashes(b, at), taken)
  {
    BranchMembers(a, l, r, b);
    ClashesByBranch(a, l, r, at);
    GatherHas(BranchesOf(a, l, r), at, b);
  }

  ghost predicate SameBothWays(a: Value, l: Value, r: Value, at: Location, taken: set<Location>) {
    Merged(a, l, r, at, taken) == Merged(a, r, l, at, {})
  }

  lemma {:induction false} TakingAllRemote(a: Value, l: Value, r: Value, at: Location, taken: set<Location>)
    requires UniqueIds(a) && UniqueIds(l) && UniqueIds(r)
    requires TakesAll(Clashes(a, l, r, at), taken)
    ensures SameBothWays(a, l, r, at, taken) <==> AdditionsAgree(a, l, r)
    decreases Composite(a), a, 2
  {
    if Objects(a, l, r) {
      TakingAllFields(a, l, r, at, taken);
    } else if IdentityArrays(a, l, r) {
      TakingAllElements(a, l, r, at, taken);
    } else if Arrays(a, l, r) {
      TakingAllIndices(a, l, r, at, taken);
    } else if l != a && r != a && l != r {
      assert Clashes(a, l, r, at)[0] == Clash(at, Some(a), l, r);
      assert at in taken;
    }
  }

  lemma TakingAllFields(a: Value, l: Value, r: Value, at: Location, taken: set<Location>)
    requires Objects(a, l, r) && UniqueIds(a) && UniqueIds(l) && UniqueIds(r)
    requires TakesAll(Clashes(a, l, r, at), taken)
    ensures SameBothWays(a, l, r, at, taken) <==> AdditionsAgree(a, l, r)
    decreases Composite(a), a, 1
  {
    forall key | key in a.fields.Keys + l.fields.Keys + r.fields.Keys
      ensures Field(a, l, r, key, at, taken) == Field(a, r, l, key, at, {}) <==>
              (Descends(a, l, r, key) ==> AdditionsAgree(a.fields[key], l.fields[key], r.fields[key]))
    {
      TakingAllField(a, l, r, key, at, taken);
    }
    SameFields(a, l, r, at, taken);
  }

  lemma SameFields(a: Value, l: Value, r: Value, at: Location, taken: set<Location>)
    requires Objects(a, l, r)
    ensures SameBothWays(a, l, r, at, taken) <==>
            forall key :: key in a.fields.Keys + l.fields.Keys + r.fields.Keys ==>
              Field(a, l, r, key, at, taken) == Field(a, r, l, key, at, {})
  {
    var one, other := Merged(a, l, r, at, taken), Merged(a, r, l, at, {});
    forall key | key in a.fields.Keys + l.fields.Keys + r.fields.Keys
      ensures Get(one.fields, key) == Field(a, l, r, key, at, taken)
      ensures Get(other.fields, key) == Field(a, r, l, key, at, {})
    {
    }
    if forall key :: key in a.fields.Keys + l.fields.Keys + r.fields.Keys ==>
      Field(a, l, r, key, at, taken) == Field(a, r, l, key, at, {})
    {
      assert one.fields == other.fields;
    }
  }

  lemma TakingAllField(a: Value, l: Value, r: Value, key: string, at: Location, taken: set<Location>)
    requires Objects(a, l, r) && UniqueIds(a) && UniqueIds(l) && UniqueIds(r)
    requires TakesAll(Clashes(a, l, r, at), taken)
    ensures Field(a, l, r, key, at, taken) == Field(a, r, l, key, at, {}) <==>
            (Descends(a, l, r, key) ==> AdditionsAgree(a.fields[key], l.fields[key], r.fields[key]))
    decreases Composite(a), a, 0
  {
    if FieldBranch(a, l, r, key) != [] {
      var b := FieldBranch(a, l, r, key)[0];
      BranchTaken(a, l, r, b, at, taken);
      if b.a.Some? {
        TakingAllRemote(b.a.value, b.l, b.r, at + [b.segment], taken);
      } else {
        assert BranchClashes(b, at)[0].at in taken;
      }
    }
  }

  lemma TakingAllIndices(a: Value, l: Value, r: Value, at: Location, taken: set<Location>)
    requires Arrays(a, l, r) && !IdentityArrays(a, l, r) && UniqueIds(a) && UniqueIds(l) && UniqueIds(r)
    requires TakesAll(Clashes(a, l, r, at), taken)
    ensures SameBothWays(a, l, r, at, taken) <==> AdditionsAgree(a, l, r)
    decreases Composite(a), a, 1
  {
    var one, other := Merged(a, l, r, at, taken), Merged(a, r, l, at, {});
    forall i: nat | i < Longest(a, l, r)
      ensures one.items[i] == other.items[i] <==> AdditionsAgree(At(a, i), At(l, i), At(r, i))
    {
      BranchTaken(a, l, r, IndexBranch(a, l, r, i), at, taken);
      TakingAllRemote(At(a, i), At(l, i), At(r, i), at + [Index(i)], taken);
    }
    if AdditionsAgree(a, l, r) {
      assert one.items == other.items;
    }
  }

  lemma TakingAllElements(a: Value, l: Value, r: Value, at: Location, taken: set<Location>)
    requires IdentityArrays(a, l, r) && UniqueIds(a) && UniqueIds(l) && UniqueIds(r)
    requires TakesAll(Clashes(a, l, r, at), taken)
    ensures SameBothWays(a, l, r, at, taken) <==> AdditionsAgree(a, l, r)
    decreases Composite(a), a, 1
  {
    var one, other := Survivors(a, l, r, 0, at, taken), Survivors(a, r, l, 0, at, {});
    TakingAllSurvivors(a, l, r, 0, at, taken);
    AddedBothWays(a, l, r);
    SplitEqual(one, Added(a, l, r), other, Added(a, r, l));
    assert Merged(a, l, r, at, taken) == Array(one + Added(a, l, r));
    assert Merged(a, r, l, at, {}) == Array(other + Added(a, r, l));
    assert one == other <==> forall i :: 0 <= i < |a.items| ==> ElementAgrees(a, l, r, i);
  }

  lemma SplitEqual<T>(p: seq<T>, q: seq<T>, p': seq<T>, q': seq<T>)
    requires |p| == |p'|
    ensures p + q == p' + q' <==> p == p' && q == q'
  {
    if p + q == p' + q' {
      assert p == (p + q)[..|p|] && p' == (p' + q')[..|p|];
      assert q == (p + q)[|p|..] && q' == (p' + q')[|p|..];
    }
  }

  lemma {:induction false} TakingAllSurvivors(a: Value, l: Value, r: Value, i: nat, at: Location, taken: set<Location>)
    requires IdentityArrays(a, l, r) && UniqueIds(a) && UniqueIds(l) && UniqueIds(r) && i <= |a.items|
    requires TakesAll(Clashes(a, l, r, at), taken)
    ensures |Survivors(a, l, r, i, at, taken)| == |Survivors(a, r, l, i, at, {})|
    ensures Survivors(a, l, r, i, at, taken) == Survivors(a, r, l, i, at, {}) <==>
            forall j :: i <= j < |a.items| ==> ElementAgrees(a, l, r, j)
    decreases Composite(a), a, 0, |a.items| - i
  {
    if i < |a.items| {
      TakingAllSurvivors(a, l, r, i + 1, at, taken);
      SplitEqual(Survivor(a, l, r, i, at, taken), Survivors(a, l, r, i + 1, at, taken),
                 Survivor(a, r, l, i, at, {}), Survivors(a, r, l, i + 1, at, {}));
      TakingAllSurvivor(a, l, r, i, at, taken);
    }
  }

  lemma TakingAllSurvivor(a: Value, l: Value, r: Value, i: nat, at: Location, taken: set<Location>)
    requires IdentityArrays(a, l, r) && UniqueIds(a) && UniqueIds(l) && UniqueIds(r) && i < |a.items|
    requires TakesAll(Clashes(a, l, r, at), taken)
    ensures |Survivor(a, l, r, i, at, taken)| == |Survivor(a, r, l, i, at, {})|
    ensures Survivor(a, l, r, i, at, taken) == Survivor(a, r, l, i, at, {}) <==> ElementAgrees(a, l, r, i)
    decreases Composite(a), a, 0, 0
  {
    if InBoth(a, l, r, i) {
      var b := ElementBranch(a, l, r, i)[0];
      BranchTaken(a, l, r, b, at, taken);
      BranchMembers(a, l, r, b);
      BranchInputs(a, l, r, b);
      TakingAllRemote(b.a.value, b.l, b.r, at + [b.segment], taken);
    }
  }

  /**
   * Taking the remote side of every conflict resolves to the value of the
   * merge with the sides exchanged, exactly when at every identity array one
   * side's additions are a prefix of the other's.
   */
  lemma RemoteEverywhere(a: Value, l: Value, r: Value, choices: seq<Choice>)
    requires Container(a, l, r) && UniqueIds(a) && UniqueIds(l) && UniqueIds(r) && SafeConflicts(a, l, r)
    requires |choices| == |Clashes(a, l, r, [])| && forall choice :: choice in choices ==> choice == Remote
    ensures Resolved(Base(a, l, r), Reports(Clashes(a, l, r, [])), choices) == Ok(Base(a, r, l)) <==>
            AdditionsAgree(a, l, r)
  {
    var clashes := Clashes(a, l, r, []);
    EveryChoiceIsHonoured(a, l, r, choices);
    forall c | c in clashes ensures c.at in Chosen(clashes, choices) {
      var i :| 0 <= i < |clashes| && clashes[i] == c;
      assert choices[i] in choices;
    }
    TakingAllRemote(a, l, r, [], Chosen(clashes, choices));
  }

  // ------------------------------------------- inputs whose conflicts are safe

  /** Keys, ids and array lengths whose printed forms can be read back. */
  ghost predicate Printable(v: Value) {
    match v
    case Object(fields) => forall key :: key in fields ==> SafeKey(key) && Printable(fields[key])
    case Array(items) =>
      && |items| <= USIZE_LIMIT
      && forall i :: 0 <= i < |items| ==> Printable(items[i]) && ']' !in IdOf(items[i])
    case _ => true
  }

  lemma PrintableBranch(a: Value, l: Value, r: Value, b: Branch)
    requires Printable(a) && Printable(l) && Printable(r)
    requires Container(a, l, r) && b in BranchesOf(a, l, r)
    ensures Safe(b.segment) && Printable(b.l) && Printable(b.r) && (b.a.Some? ==> Printable(b.a.value))
  {
    BranchMembers(a, l, r, b);
    if IdentityArrays(a, l, r) {
      ByIdElement(l.items, b.segment.id);
      ByIdElement(r.items, b.segment.id);
    }
  }

  lemma {:induction false} PrintableConflicts(a: Value, l: Value, r: Value, at: Location, c: Clash)
    requires Printable(a) && Printable(l) && Printable(r) && SafeLocation(at)
    requires c in Clashes(a, l, r, at)
    ensures SafeLocation(c.at)
    decreases Composite(a), a
  {
    if Container(a, l, r) {
      var b := ClashBranch(a, l, r, at, c);
      PrintableBranch(a, l, r, b);
      assert forall s :: s in at + [b.segment] ==> s in at || s == b.segment;
      if b.a.Some? {
        PrintableConflicts(b.a.value, b.l, b.r, at + [b.segment], c);
      }
    }
  }

  lemma PrintableIsSafe(a: Value, l: Value, r: Value)
    requires Printable(a) && Printable(l) && Printable(r)
    ensures SafeConflicts(a, l, r)
  {
    forall c | c in Clashes(a, l, r, []) ensures SafeLocation(c.at) {
      PrintableConflicts(a, l, r, [], c);
    }
  }
}
