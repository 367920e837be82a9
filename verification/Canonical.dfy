/** Key sorting for blob payloads: one canonical form for every meaning, at every depth. */
module Canonical {
  import J = Json

  // JSON as stored: an object's members in the order they were inserted.
  datatype Value =
    | Null
    | Bool(b: bool)
    | Number(n: int)
    | String(s: string)
    | Array(items: seq<Value>)
    | Object(members: seq<Member>)

  datatype Member = Member(key: string, value: Value)

  /** No object inside repeats a key, as the map type guarantees. */
  predicate Valid(v: Value) {
    match v
    case Array(items) => forall i :: 0 <= i < |items| ==> Valid(items[i])
    case Object(members) =>
      && (forall i :: 0 <= i < |members| ==> Valid(members[i].value))
      && forall i, j :: 0 <= i < j < |members| ==> members[i].key != members[j].key
    case _ => true
  }

  /** What a value means: objects are maps, whatever the order of their members. */
  function Meaning(v: Value): J.Value
    decreases v, 1
  {
    match v
    case Null => J.Null
    case Bool(b) => J.Bool(b)
    case Number(n) => J.Number(n)
    case String(s) => J.String(s)
    case Array(items) => J.Array(seq(|items|, i requires 0 <= i < |items| => Meaning(items[i])))
    case Object(members) => J.Object(MembersMeaning(v, members))
  }

  function MembersMeaning(v: Value, members: seq<Member>): map<string, J.Value>
    requires v.Object? && forall m :: m in members ==> m in v.members
    decreases v, 0, |members|
  {
    if members == [] then map[]
    else
      assert members[0] in v.members;
      MembersMeaning(v, members[1..])[members[0].key := Meaning(members[0].value)]
  }

  /** The one value of each meaning whose keys are in order at every depth. */
  ghost function Canonical(x: J.Value): Value
    decreases x, 1
  {
    match x
    case Null => Null
    case Bool(b) => Bool(b)
    case Number(n) => Number(n)
    case String(s) => String(s)
    case Array(items) => Array(seq(|items|, i requires 0 <= i < |items| => Canonical(items[i])))
    case Object(fields) =>
      InOrder(fields);
      Object(CanonicalMembers(x, J.Sorted(fields.Keys)))
  }

  ghost function CanonicalMembers(x: J.Value, keys: seq<string>): seq<Member>
    requires x.Object? && forall key :: key in keys ==> key in x.fields
    decreases x, 0, |keys|
  {
    if keys == [] then []
    else [Member(keys[0], Canonical(x.fields[keys[0]]))] + CanonicalMembers(x, keys[1..])
  }

  lemma InOrder<V>(fields: map<string, V>)
    ensures forall key :: key in J.Sorted(fields.Keys) <==> key in fields
  {
    assert forall key :: key in J.Sorted(fields.Keys) <==> key in J.Elements(J.Sorted(fields.Keys));
  }

  // ------------------------------------------------------------------ sorting

  ghost predicate KeysAscending(members: seq<Member>) {
    forall i, j :: 0 <= i < j < |members| ==> J.Before(members[i].key, members[j].key)
  }

  function InsertMember(members: seq<Member>, m: Member): seq<Member> {
    if members == [] || J.Before(m.key, members[0].key) then [m] + members
    else [members[0]] + InsertMember(members[1..], m)
  }

  lemma {:induction false} InsertMemberOrdered(members: seq<Member>, m: Member)
    requires KeysAscending(members) && forall i :: 0 <= i < |members| ==> members[i].key != m.key
    ensures KeysAscending(InsertMember(members, m))
    ensures forall x :: x in InsertMember(members, m) <==> x == m || x in members
  {
    if members != [] {
      assert members == [members[0]] + members[1..];
      J.BeforeTotal(m.key, members[0].key);
      if J.Before(m.key, members[0].key) {
        forall j | 1 <= j < |members| ensures J.Before(m.key, members[j].key) {
          J.BeforeTransitive(m.key, members[0].key, members[j].key);
        }
      } else {
        InsertMemberOrdered(members[1..], m);
        var rest := InsertMember(members[1..], m);
        forall j | 0 <= j < |rest| ensures J.Before(members[0].key, rest[j].key) {
          assert rest[j] in rest;
        }
      }
    }
  }

  /** Children first, then the keys; the result is the canonical value of the same meaning. */
  method SortJsonObjects(v: Value) returns (sorted: Value)
    requires Valid(v)
    ensures sorted == Canonical(Meaning(v))
    decreases v
  {
    match v
    case Object(members) =>
      var ordered: seq<Member> := [];
      for i := 0 to |members|
        invariant KeysAscending(ordered)
        invariant forall x :: x in ordered <==>
          exists j :: 0 <= j < i && x == Member(members[j].key, Canonical(Meaning(members[j].value)))
      {
        var child := SortJsonObjects(members[i].value);
        var member := Member(members[i].key, child);
        forall k | 0 <= k < |ordered| ensures ordered[k].key != member.key {
          assert ordered[k] in ordered;
        }
        InsertMemberOrdered(ordered, member);
        ordered := InsertMember(ordered, member);
      }
      SortedIsCanonical(v, ordered);
      sorted := Object(ordered);
    case Array(items) =>
      var out: seq<Value> := [];
      for i := 0 to |items|
        invariant |out| == i && forall j :: 0 <= j < i ==> out[j] == Canonical(Meaning(items[j]))
      {
        var child := SortJsonObjects(items[i]);
        out := out + [child];
      }
      assert Meaning(v).items == seq(|items|, i requires 0 <= i < |items| => Meaning(items[i]));
      assert out == Canonical(Meaning(v)).items;
      sorted := Array(out);
    case _ =>
      sorted := v;
  }

  lemma {:induction false} MeaningOfMembers(v: Value, members: seq<Member>)
    requires v.Object? && forall m :: m in members ==> m in v.members
    requires forall i, j :: 0 <= i < j < |members| ==> members[i].key != members[j].key
    ensures forall i :: 0 <= i < |members| ==>
      members[i].key in MembersMeaning(v, members) &&
      MembersMeaning(v, members)[members[i].key] == Meaning(members[i].value)
    ensures forall key :: key in MembersMeaning(v, members) ==> exists i :: 0 <= i < |members| && members[i].key == key
    decreases |members|
  {
    if members != [] {
      MeaningOfMembers(v, members[1..]);
      forall i | 0 <= i < |members|
        ensures members[i].key in MembersMeaning(v, members) &&
                MembersMeaning(v, members)[members[i].key] == Meaning(members[i].value)
      {
        assert i > 0 ==> members[1..][i - 1] == members[i];
      }
      forall key | key in MembersMeaning(v, members) ensures exists i :: 0 <= i < |members| && members[i].key == key {
        if key != members[0].key {
          assert key in MembersMeaning(v, members[1..]);
          var i :| 0 <= i < |members[1..]| && members[1..][i].key == key;
          assert members[i + 1].key == key;
        }
      }
    }
  }

  lemma {:induction false} CanonicalMember(x: J.Value, keys: seq<string>, i: nat)
    requires x.Object? && (forall key :: key in keys ==> key in x.fields) && i < |keys|
    ensures |CanonicalMembers(x, keys)| == |keys|
    ensures CanonicalMembers(x, keys)[i] == Member(keys[i], Canonical(x.fields[keys[i]]))
    decreases |keys|
  {
    if |keys| > 1 {
      CanonicalMember(x, keys[1..], if i > 0 then i - 1 else 0);
    }
  }

  lemma {:induction false} CanonicalMembersLength(x: J.Value, keys: seq<string>)
    requires x.Object? && forall key :: key in keys ==> key in x.fields
    ensures |CanonicalMembers(x, keys)| == |keys|
  {
    if keys != [] {
      CanonicalMember(x, keys, 0);
    }
  }

  // The canonical object is the one list of members that holds each key in order.
  lemma CanonicalListed(x: J.Value, members: seq<Member>)
    requires x.Object? && |members| == |J.Sorted(x.fields.Keys)|
    requires forall i :: 0 <= i < |members| ==>
      members[i].key == J.Sorted(x.fields.Keys)[i] && members[i].key in x.fields &&
      members[i].value == Canonical(x.fields[members[i].key])
    ensures Canonical(x) == Object(members)
  {
    var keys := J.Sorted(x.fields.Keys);
    InOrder(x.fields);
    var canonical := CanonicalMembers(x, keys);
    CanonicalMembersLength(x, keys);
    forall i | 0 <= i < |members| ensures members[i] == canonical[i] {
      CanonicalMember(x, keys, i);
    }
    assert members == canonical;
  }

  ghost predicate HoldsCanonicalChildren(v: Value, ordered: seq<Member>)
    requires v.Object?
  {
    forall x :: x in ordered <==>
      exists j :: 0 <= j < |v.members| && x == Member(v.members[j].key, Canonical(Meaning(v.members[j].value)))
  }

  lemma OrderedMember(v: Value, ordered: seq<Member>, i: nat)
    requires v.Object? && Valid(v) && HoldsCanonicalChildren(v, ordered) && i < |ordered|
    ensures ordered[i].key in Meaning(v).fields
    ensures ordered[i].value == Canonical(Meaning(v).fields[ordered[i].key])
  {
    MeaningOfMembers(v, v.members);
    assert ordered[i] in ordered;
    var j :| 0 <= j < |v.members| && ordered[i] == Member(v.members[j].key, Canonical(Meaning(v.members[j].value)));
  }

  // An ordered list of the canonical children is the canonical list of members.
  lemma SortedIsCanonical(v: Value, ordered: seq<Member>)
    requires v.Object? && Valid(v) && KeysAscending(ordered)
    requires HoldsCanonicalChildren(v, ordered)
    ensures Canonical(Meaning(v)) == Object(ordered)
  {
    var x := Meaning(v);
    var names := seq(|ordered|, i requires 0 <= i < |ordered| => ordered[i].key);
    NamesAreKeys(v, ordered, names);
    J.AscendingUnique(names, J.Sorted(x.fields.Keys));
    forall i | 0 <= i < |ordered|
      ensures ordered[i].key == J.Sorted(x.fields.Keys)[i] && ordered[i].key in x.fields
      ensures ordered[i].value == Canonical(x.fields[ordered[i].key])
    {
      OrderedMember(v, ordered, i);
      assert names[i] == ordered[i].key;
    }
    CanonicalListed(x, ordered);
  }

  lemma NamesAreKeys(v: Value, ordered: seq<Member>, names: seq<string>)
    requires v.Object? && Valid(v) && KeysAscending(ordered)
    requires HoldsCanonicalChildren(v, ordered)
    requires |names| == |ordered| && forall i :: 0 <= i < |names| ==> names[i] == ordered[i].key
    ensures J.Ascending(names) && J.Elements(names) == Meaning(v).fields.Keys
  {
    MeaningOfMembers(v, v.members);
    forall key ensures key in names <==> key in Meaning(v).fields {
      if key in names {
        var i :| 0 <= i < |names| && names[i] == key;
        assert ordered[i] in ordered;
      }
      if key in Meaning(v).fields {
        var j :| 0 <= j < |v.members| && v.members[j].key == key;
        var m := Member(key, Canonical(Meaning(v.members[j].value)));
        assert m in ordered;
        var i :| 0 <= i < |ordered| && ordered[i] == m;
        assert names[i] == key;
      }
    }
  }

  // --------------------------------------------------------------- canonicity

  lemma {:induction false} CanonicalValid(x: J.Value)
    ensures Valid(Canonical(x))
    decreases x
  {
    match x
    case Array(items) =>
      forall i | 0 <= i < |items| ensures Valid(Canonical(items[i])) {
        CanonicalValid(items[i]);
      }
    case Object(fields) =>
      var keys, members := J.Sorted(fields.Keys), Canonical(x).members;
      InOrder(fields);
      CanonicalMembersLength(x, keys);
      forall i | 0 <= i < |members| ensures members[i].key == keys[i] && Valid(members[i].value) {
        CanonicalMember(x, keys, i);
        assert keys[i] in keys;
        CanonicalValid(fields[keys[i]]);
      }
      forall i, j | 0 <= i < j < |members| ensures members[i].key != members[j].key {
        J.BeforeTotal(keys[i], keys[j]);
      }
    case _ =>
  }

  /** Sorting keeps the meaning. */
  lemma {:induction false} CanonicalMeaning(x: J.Value)
    ensures Meaning(Canonical(x)) == x
    decreases x
  {
    match x
    case Array(items) =>
      forall i | 0 <= i < |items| ensures Meaning(Canonical(items[i])) == items[i] {
        CanonicalMeaning(items[i]);
      }
      assert Meaning(Canonical(x)).items == items;
    case Object(fields) =>
      CanonicalFields(x);
    case _ =>
  }

  lemma CanonicalFields(x: J.Value)
    requires x.Object?
    ensures Meaning(Canonical(x)) == x
    decreases x, 0
  {
    var keys, v := J.Sorted(x.fields.Keys), Canonical(x);
    InOrder(x.fields);
    CanonicalValid(x);
    CanonicalKeys(x);
    forall i | 0 <= i < |v.members|
      ensures v.members[i].key in x.fields && Meaning(v.members[i].value) == x.fields[v.members[i].key]
    {
      CanonicalMeaning(x.fields[keys[i]]);
    }
    forall key | key in x.fields ensures exists i :: 0 <= i < |v.members| && v.members[i].key == key {
      var i :| 0 <= i < |keys| && keys[i] == key;
      assert v.members[i].key == key;
    }
    MeaningIs(v, x.fields);
  }

  // An object's meaning is the map its members list.
  lemma MeaningIs(v: Value, fields: map<string, J.Value>)
    requires v.Object? && Valid(v)
    requires forall i :: 0 <= i < |v.members| ==>
      v.members[i].key in fields && Meaning(v.members[i].value) == fields[v.members[i].key]
    requires forall key :: key in fields ==> exists i :: 0 <= i < |v.members| && v.members[i].key == key
    ensures Meaning(v) == J.Object(fields)
  {
    MeaningOfMembers(v, v.members);
    assert MembersMeaning(v, v.members) == fields;
  }

  // The members of a canonical object, one per key, in order.
  lemma CanonicalKeys(x: J.Value)
    requires x.Object?
    ensures |Canonical(x).members| == |J.Sorted(x.fields.Keys)|
    ensures forall i :: 0 <= i < |Canonical(x).members| ==>
      J.Sorted(x.fields.Keys)[i] in x.fields &&
      Canonical(x).members[i] == Member(J.Sorted(x.fields.Keys)[i], Canonical(x.fields[J.Sorted(x.fields.Keys)[i]]))
  {
    var keys := J.Sorted(x.fields.Keys);
    InOrder(x.fields);
    CanonicalMembersLength(x, keys);
    forall i | 0 <= i < |keys|
      ensures keys[i] in x.fields && CanonicalMembers(x, keys)[i] == Member(keys[i], Canonical(x.fields[keys[i]]))
    {
      CanonicalMember(x, keys, i);
      assert keys[i] in keys;
    }
  }

  /**
   * Sorted forms are equal exactly when the meanings are; the sorted form has
   * the value's own meaning, and sorting it again changes nothing.
   */
  lemma SortingIsCanonical(v: Value, w: Value)
    ensures Canonical(Meaning(v)) == Canonical(Meaning(w)) <==> Meaning(v) == Meaning(w)
    ensures Meaning(Canonical(Meaning(v))) == Meaning(v)
    ensures Canonical(Meaning(Canonical(Meaning(v)))) == Canonical(Meaning(v))
  {
    CanonicalMeaning(Meaning(v));
    CanonicalMeaning(Meaning(w));
  }

  /** At every depth the members of a sorted object are in key order. */
  ghost predicate OrderedThroughout(v: Value) {
    match v
    case Array(items) => forall i :: 0 <= i < |items| ==> OrderedThroughout(items[i])
    case Object(members) =>
      KeysAscending(members) && forall i :: 0 <= i < |members| ==> OrderedThroughout(members[i].value)
    case _ => true
  }

  lemma {:induction false} CanonicalOrdered(x: J.Value)
    ensures OrderedThroughout(Canonical(x))
    decreases x
  {
    match x
    case Array(items) =>
      forall i | 0 <= i < |items| ensures OrderedThroughout(Canonical(items[i])) {
        CanonicalOrdered(items[i]);
      }
    case Object(fields) =>
      var keys, members := J.Sorted(fields.Keys), Canonical(x).members;
      InOrder(fields);
      CanonicalMembersLength(x, keys);
      forall i | 0 <= i < |members| ensures members[i].key == keys[i] && OrderedThroughout(members[i].value) {
        CanonicalMember(x, keys, i);
        assert keys[i] in keys;
        CanonicalOrdered(fields[keys[i]]);
      }
    case _ =>
  }
}
