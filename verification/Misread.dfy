/** Taking the remote side of a conflict whose printed path does, or does not, lead back to it. */
module Misread {
  import opened Json
  import opened Locations
  import opened Merge
  import opened Branches
  import opened Conflicts
  import opened Resolve

  // --------------------------------------------------- where a path leads instead

  /**
   * `p` stops above `q`, or they part at segments that cannot mean the same
   * child: an index and an id are not told apart.
   */
  predicate Strays(p: Location, q: Location)
    decreases |p|
  {
    && p != [] && q != []
    && if p[0] == q[0] then (|p| == 1 && |q| > 1) || Strays(p[1..], q[1..])
       else p[0].Key? || q[0].Key? || (p[0].Id? <==> q[0].Id?)
  }

  lemma {:induction false} StraysBehind(front: Location, p: Location, q: Location)
    requires q != []
    requires if p == [] then front != [] else Strays(p, q)
    ensures Strays(front + p, front + q)
    decreases |front|
  {
    if front == [] {
      assert front + p == p && front + q == q;
    } else {
      assert (front + p)[1..] == front[1..] + p && (front + q)[1..] == front[1..] + q;
      if |front| == 1 && p == [] {
        assert |front + q| > 1;
      } else {
        StraysBehind(front[1..], p, q);
      }
    }
  }

  function FirstUnsafe(at: Location): nat
    requires !SafeLocation(at)
    ensures FirstUnsafe(at) < |at| && !Safe(at[FirstUnsafe(at)]) && SafeLocation(at[..FirstUnsafe(at)])
  {
    if !Safe(at[0]) then 0
    else
      assert at == [at[0]] + at[1..];
      var i := FirstUnsafe(at[1..]);
      assert at[..1 + i] == [at[0]] + at[1..][..i];
      1 + i
  }

  /** An unsafe location's path reads as nothing, as the root, or as one that leads elsewhere. */
  lemma UnsafeStrays(at: Location, p: Location)
    requires !SafeLocation(at) && Parse(Print(at)) == Some(p) && p != []
    ensures Strays(p, at)
  {
    var k := FirstUnsafe(at);
    var front, rest := at[..k], at[k..];
    assert at == front + rest && rest[0] == at[k];
    ParsedIsSafe(Print(at));
    if front != [] || !rest[0].Key? {
      FrontIsRead(front, rest);
      KindIsRead(rest);
      var tail := Parse(Text(rest, false)).value;
      assert p == front + tail;
      if tail != [] {
        assert tail[0] in p;
      }
      StraysBehind(front, tail, rest);
    } else {
      assert p[0] in p;
    }
  }

  // ------------------------------------------------------- what a patch changes

  lemma WithChildDiffers(v: Value, s: Segment, child: Value)
    requires Child(v, s).Some? && Child(v, s) != Some(child)
    ensures WithChild(v, s, child) != v
  {
    match s
    case Key(key) => assert WithChild(v, s, child).fields[key] == child;
    case Index(i) => assert WithChild(v, s, child).items[i] == child;
    case Id(id) => assert WithChild(v, s, child).items[FindId(v.items, id).value] == child;
  }

  /** Patching another value in at a place changes the whole. */
  lemma {:induction false} PatchChanges(v: Value, at: Location, path: string, was: Value, now: Value)
    requires at != [] && Lookup(v, at) == Some(was) && was != now
    requires Patch(v, at, path, Some(now)).Ok?
    ensures Patch(v, at, path, Some(now)).value != v
    decreases |at|
  {
    var child := Child(v, at[0]).value;
    if |at| == 1 {
      assert at[1..] == [];
      WithChildDiffers(v, at[0], now);
    } else {
      PatchChanges(child, at[1..], path, was, now);
      WithChildDiffers(v, at[0], Patch(child, at[1..], path, Some(now)).value);
    }
  }

  lemma WithChildHolds(v: Value, s: Segment, child: Value)
    requires Child(v, s).Some? || (s.Key? && v.Object?)
    ensures child < WithChild(v, s, child)
  {
    match s
    case Key(key) => assert WithChild(v, s, child).fields[key] == child;
    case Index(i) => assert WithChild(v, s, child).items[i] == child;
    case Id(id) => assert WithChild(v, s, child).items[FindId(v.items, id).value] == child;
  }

  /** What was patched in lies inside the whole. */
  lemma {:induction false} PatchHolds(v: Value, at: Location, path: string, now: Value)
    requires at != [] && Patch(v, at, path, Some(now)).Ok?
    ensures now < Patch(v, at, path, Some(now)).value
    decreases |at|
  {
    if |at| == 1 {
      WithChildHolds(v, at[0], now);
    } else {
      var patched := Patch(Child(v, at[0]).value, at[1..], path, Some(now)).value;
      PatchHolds(Child(v, at[0]).value, at[1..], path, now);
      WithChildHolds(v, at[0], patched);
    }
  }

  lemma WithChildInjective(v: Value, s: Segment, x: Value, y: Value)
    requires (Child(v, s).Some? || (s.Key? && v.Object?)) && x != y
    ensures WithChild(v, s, x) != WithChild(v, s, y)
  {
    match s
    case Key(key) => assert WithChild(v, s, x).fields[key] == x && WithChild(v, s, y).fields[key] == y;
    case Index(i) => assert WithChild(v, s, x).items[i] == x && WithChild(v, s, y).items[i] == y;
    case Id(id) =>
      var i := FindId(v.items, id).value;
      assert WithChild(v, s, x).items[i] == x && WithChild(v, s, y).items[i] == y;
  }

  // Changing another child leaves this one as it was.
  lemma WithOtherChild(v: Value, s: Segment, x: Value, t: Segment, y: Value)
    requires Child(v, s).Some? || (s.Key? && v.Object?)
    requires s != t && (s.Key? || t.Key? || (s.Id? <==> t.Id?))
    requires Child(v, t).Some? && Child(v, t) != Some(y)
    ensures WithChild(v, s, x) != WithChild(v, t, y)
  {
    match t
    case Key(key) => assert WithChild(v, s, x).fields[key] != WithChild(v, t, y).fields[key];
    case Index(i) => assert WithChild(v, s, x).items[i] != WithChild(v, t, y).items[i];
    case Id(id) =>
      var i := FindId(v.items, id).value;
      assert WithChild(v, s, x).items[i] != WithChild(v, t, y).items[i];
  }

  /** Patching at a place that strays never gives what patching at the place itself does. */
  lemma {:induction false} StrayPatch(v: Value, p: Location, q: Location, path: string, was: Value, now: Value)
    requires Strays(p, q) && Lookup(v, q) == Some(was) && was != now
    requires Patch(v, q, path, Some(now)).Ok?
    ensures Patch(v, p, path, Some(now)) != Patch(v, q, path, Some(now))
    decreases |q|
  {
    if Patch(v, p, path, Some(now)).Ok? {
      var s, t, child := p[0], q[0], Child(v, q[0]).value;
      assert |q| == 1 ==> q[1..] == [];
      if s != t {
        var y := if |q| == 1 then now else Patch(child, q[1..], path, Some(now)).value;
        if |q| > 1 {
          PatchChanges(child, q[1..], path, was, now);
        }
        WithOtherChild(v, s, if |p| == 1 then now else Patch(Child(v, s).value, p[1..], path, Some(now)).value, t, y);
      } else if |p| == 1 {
        var y := Patch(child, q[1..], path, Some(now)).value;
        PatchHolds(child, q[1..], path, now);
        WithChildInjective(v, s, now, y);
      } else {
        StrayPatch(child, p[1..], q[1..], path, was, now);
        WithChildInjective(v, s, Patch(child, p[1..], path, Some(now)).value,
                           Patch(child, q[1..], path, Some(now)).value);
      }
    }
  }

  // -------------------------------------------------------- the exact condition

  /**
   * Taking the remote side of a conflict gives the merge with that conflict
   * decided for remote if and only if its location is safe. From another one
   * the resolver fails, or changes something else.
   */
  lemma SafeLocationsExactly(a: Value, l: Value, r: Value, c: Clash)
    requires Container(a, l, r) && UniqueIds(a) && UniqueIds(l) && UniqueIds(r)
    requires c in Clashes(a, l, r, [])
    ensures SetValue(Base(a, l, r), Print(c.at), Some(c.remote)) == Ok(Merged(a, l, r, [], {c.at})) <==>
            SafeLocation(c.at)
  {
    var base, path := Base(a, l, r), Print(c.at);
    assert c.at[0..] == c.at && {} + {c.at} == {c.at};
    PatchTakesRemote(a, l, r, [], {}, c, path);
    ChosenSideHeld(a, l, r, [], {}, c);
    ConflictsAreGenuine(a, l, r, [], c);
    RoundTrip(c.at);
    if !SafeLocation(c.at) && Parse(path).Some? && Parse(path).value != [] {
      UnsafeStrays(c.at, Parse(path).value);
      StrayPatch(base, Parse(path).value, c.at, path, c.local, c.remote);
    }
  }

  // Remote for one conflict only.
  function OnlyOne(n: nat, i: nat): seq<Choice> {
    seq(n, j => if j == i then Remote else Local)
  }

  lemma {:induction false} TakingOnlyOne(base: Value, conflicts: seq<ConflictedField>, i: nat)
    requires i < |conflicts|
    ensures Resolved(base, conflicts, OnlyOne(|conflicts|, i)) == SetValue(base, conflicts[i].path, conflicts[i].remote)
    decreases |conflicts|
  {
    var choices, rest := OnlyOne(|conflicts|, i), conflicts[1..];
    if i == 0 {
      assert forall choice :: choice in choices[1..] ==> choice == Local;
      var patched := SetValue(base, conflicts[0].path, conflicts[0].remote);
      if patched.Ok? {
        LocalEverywhere(patched.value, rest, choices[1..]);
      }
    } else {
      assert choices[1..] == OnlyOne(|rest|, i - 1);
      TakingOnlyOne(base, rest, i - 1);
    }
  }

  /** Every vector of choices is honoured if and only if every conflict's location is safe. */
  lemma ChoicesHonouredExactly(a: Value, l: Value, r: Value)
    requires Container(a, l, r) && UniqueIds(a) && UniqueIds(l) && UniqueIds(r)
    ensures (forall choices :: |choices| == |Clashes(a, l, r, [])| ==> Honoured(a, l, r, choices)) <==>
            SafeConflicts(a, l, r)
  {
    var clashes := Clashes(a, l, r, []);
    if SafeConflicts(a, l, r) {
      forall choices | |choices| == |clashes| ensures Honoured(a, l, r, choices) {
        EveryChoiceIsHonoured(a, l, r, choices);
      }
    } else {
      var c :| c in clashes && !SafeLocation(c.at);
      var i :| 0 <= i < |clashes| && clashes[i] == c;
      var choices := OnlyOne(|clashes|, i);
      TakingOnlyOne(Base(a, l, r), Reports(clashes), i);
      SafeLocationsExactly(a, l, r, c);
      ChosenOne(clashes, i);
      assert !Honoured(a, l, r, choices);
    }
  }

  ghost predicate Honoured(a: Value, l: Value, r: Value, choices: seq<Choice>)
    requires |choices| == |Clashes(a, l, r, [])|
  {
    var clashes := Clashes(a, l, r, []);
    Resolved(Base(a, l, r), Reports(clashes), choices) == Ok(Merged(a, l, r, [], Chosen(clashes, choices)))
  }

  lemma ChosenOne(clashes: seq<Clash>, i: nat)
    requires i < |clashes|
    ensures Chosen(clashes, OnlyOne(|clashes|, i)) == {clashes[i].at}
  {
    var choices := OnlyOne(|clashes|, i);
    assert choices[i] == Remote;
    assert clashes[i].at in Chosen(clashes, choices);
  }

  /** A key added differently on both sides is such a conflict, whether or not it is safe. */
  lemma AddedKeyConflicts(key: string, x: Value, y: Value)
    requires x != y
    ensures Clashes(Object(map[]), Object(map[key := x]), Object(map[key := y]), []) ==
            [Clash([Key(key)], None, x, y)]
  {
    var a, l, r := Object(map[]), Object(map[key := x]), Object(map[key := y]);
    assert a.fields.Keys + l.fields.Keys + r.fields.Keys == {key};
    AscendingUnique([key], AllKeys(a, l, r));
    assert [] + [Key(key)] == [Key(key)];
    assert FieldClashes(a, l, r, key, []) == [Clash([Key(key)], None, x, y)];
    assert FieldsClashes(a, l, r, [], []) == [] && [key][1..] == [];
  }
}
