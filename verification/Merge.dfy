/** The three-way merge: what it yields, where it clashes, and the loops that compute both. */
module Merge {
  import opened Json
  import opened Locations

  /** One field both sides changed differently. */
  datatype Clash = Clash(at: Location, ancestor: Option<Value>, local: Value, remote: Value)

  /** The same clash as it is reported, with its location printed. */
  datatype ConflictedField = ConflictedField(
    path: string, ancestor: Option<Value>, local: Option<Value>, remote: Option<Value>)

  datatype MergeOutcome =
    | Clean(merged: Value)
    | Conflict(base: Value, conflicts: seq<ConflictedField>)

  // ------------------------------------------------------------- identities

  predicate HasId(v: Value) {
    v.Object? && "id" in v.fields && v.fields["id"].String?
  }

  predicate AllHaveId(items: seq<Value>) {
    forall v :: v in items ==> HasId(v)
  }

  function IdOf(v: Value): string {
    if HasId(v) then v.fields["id"].s else ""
  }

  /** A map collected from `(id, element)` pairs: the last of several equal ids wins. */
  function ById(items: seq<Value>): map<string, Value> {
    if items == [] then map[]
    else
      var last := |items| - 1;
      ById(items[..last])[IdOf(items[last]) := items[last]]
  }

  function Ids(items: seq<Value>): set<string> {
    set v | v in items :: IdOf(v)
  }

  /** The elements whose id is not `known`, in order. */
  function Fresh(items: seq<Value>, known: set<string>): seq<Value> {
    if items == [] then []
    else (if IdOf(items[0]) in known then [] else [items[0]]) + Fresh(items[1..], known)
  }

  // ------------------------------------------------------- the merged value

  predicate Composite(v: Value) {
    v.Object? || v.Array?
  }

  function Max(x: nat, y: nat): nat {
    if x < y then y else x
  }

  /** An element of an index array, null past its end. */
  function At(v: Value, i: nat): Value
    requires v.Array?
  {
    if i < |v.items| then v.items[i] else Null
  }

  predicate Objects(a: Value, l: Value, r: Value) {
    a.Object? && l.Object? && r.Object?
  }

  predicate Arrays(a: Value, l: Value, r: Value) {
    a.Array? && l.Array? && r.Array?
  }

  predicate IdentityArrays(a: Value, l: Value, r: Value) {
    Arrays(a, l, r) && AllHaveId(a.items) && AllHaveId(l.items) && AllHaveId(r.items)
  }

  function Longest(a: Value, l: Value, r: Value): nat
    requires Arrays(a, l, r)
  {
    Max(Max(|a.items|, |l.items|), |r.items|)
  }

  predicate InBoth(a: Value, l: Value, r: Value, i: nat)
    requires Arrays(a, l, r) && i < |a.items|
  {
    IdOf(a.items[i]) in ById(l.items) && IdOf(a.items[i]) in ById(r.items)
  }

  /** Whether the merge of an object descends into a key instead of copying one side. */
  predicate Descends(a: Value, l: Value, r: Value, key: string)
    requires Objects(a, l, r)
  {
    && key in a.fields && key in l.fields && key in r.fields
    && l.fields[key] != a.fields[key] && r.fields[key] != a.fields[key]
  }

  /**
   * The merge of `a`, `l` and `r`, found at location `at`, in which clashes
   * keep the local side except at the locations in `taken`, which take the
   * remote one. `merge3` itself keeps the local side everywhere.
   */
  function Merged(a: Value, l: Value, r: Value, at: Location, taken: set<Location>): Value
    decreases Composite(a), a, 2
  {
    if Objects(a, l, r) then
      Object(map key |
        key in a.fields.Keys + l.fields.Keys + r.fields.Keys && Field(a, l, r, key, at, taken).Some?
        :: Field(a, l, r, key, at, taken).value)
    else if IdentityArrays(a, l, r) then
      Array(Survivors(a, l, r, 0, at, taken) + Added(a, l, r))
    else if Arrays(a, l, r) then
      Array(seq(Longest(a, l, r), i requires 0 <= i < Longest(a, l, r) =>
        Merged(At(a, i), At(l, i), At(r, i), at + [Index(i)], taken)))
    else
      Scalar(a, l, r, at in taken)
  }

  function Scalar(a: Value, l: Value, r: Value, takeRemote: bool): Value {
    if l == a then r
    else if r == a || l == r || !takeRemote then l
    else r
  }

  function Field(a: Value, l: Value, r: Value, key: string, at: Location, taken: set<Location>): Option<Value>
    requires Objects(a, l, r)
    decreases Composite(a), a, 1
  {
    if Descends(a, l, r, key) then
      Some(Merged(a.fields[key], l.fields[key], r.fields[key], at + [Key(key)], taken))
    else
      var (av, lv, rv) := (Get(a.fields, key), Get(l.fields, key), Get(r.fields, key));
      if lv == av then rv
      else if rv == av then lv
      else if lv.None? || (av.None? && rv.Some? && at + [Key(key)] in taken) then rv
      else lv
  }

  function Added(a: Value, l: Value, r: Value): seq<Value>
    requires Arrays(a, l, r)
  {
    Fresh(l.items, Ids(a.items)) + Fresh(r.items, Ids(a.items) + Ids(l.items))
  }

  /** What remains of the ancestor's elements from index `i` on. */
  function Survivors(a: Value, l: Value, r: Value, i: nat, at: Location, taken: set<Location>): seq<Value>
    requires Arrays(a, l, r) && i <= |a.items|
    decreases Composite(a), a, 1, |a.items| - i
  {
    if i == |a.items| then []
    else Survivor(a, l, r, i, at, taken) + Survivors(a, l, r, i + 1, at, taken)
  }

  function Survivor(a: Value, l: Value, r: Value, i: nat, at: Location, taken: set<Location>): seq<Value>
    requires Arrays(a, l, r) && i < |a.items|
    decreases Composite(a), a, 0
  {
    var av, id := a.items[i], IdOf(a.items[i]);
    var (ls, rs) := (ById(l.items), ById(r.items));
    if id in ls && id in rs then [Merged(av, ls[id], rs[id], at + [Id(id)], taken)]
    else if id in ls && ls[id] != av then [ls[id]]
    else if id in rs && rs[id] != av then [rs[id]]
    else []
  }

  // ------------------------------------------------------------ the clashes

  /** Every clash of the merge at `at`, in the order the merge reports them. */
  ghost function Clashes(a: Value, l: Value, r: Value, at: Location): seq<Clash>
    decreases Composite(a), a, 2
  {
    if Objects(a, l, r) then FieldsClashes(a, l, r, AllKeys(a, l, r), at)
    else if IdentityArrays(a, l, r) then ElementsClashes(a, l, r, 0, at)
    else if Arrays(a, l, r) then IndicesClashes(a, l, r, 0, at)
    else if l != a && r != a && l != r then [Clash(at, Some(a), l, r)]
    else []
  }

  ghost function AllKeys(a: Value, l: Value, r: Value): seq<string>
    requires Objects(a, l, r)
  {
    Sorted(a.fields.Keys + l.fields.Keys + r.fields.Keys)
  }

  ghost function FieldsClashes(a: Value, l: Value, r: Value, keys: seq<string>, at: Location): seq<Clash>
    requires Objects(a, l, r)
    decreases Composite(a), a, 1, |keys|
  {
    if keys == [] then []
    else FieldClashes(a, l, r, keys[0], at) + FieldsClashes(a, l, r, keys[1..], at)
  }

  ghost function FieldClashes(a: Value, l: Value, r: Value, key: string, at: Location): seq<Clash>
    requires Objects(a, l, r)
    decreases Composite(a), a, 0
  {
    if Descends(a, l, r, key) then
      Clashes(a.fields[key], l.fields[key], r.fields[key], at + [Key(key)])
    else if key !in a.fields && key in l.fields && key in r.fields && l.fields[key] != r.fields[key] then
      [Clash(at + [Key(key)], None, l.fields[key], r.fields[key])]
    else []
  }

  ghost function ElementsClashes(a: Value, l: Value, r: Value, i: nat, at: Location): seq<Clash>
    requires Arrays(a, l, r) && i <= |a.items|
    decreases Composite(a), a, 1, |a.items| - i
  {
    if i == |a.items| then []
    else ElementClashes(a, l, r, i, at) + ElementsClashes(a, l, r, i + 1, at)
  }

  ghost function ElementClashes(a: Value, l: Value, r: Value, i: nat, at: Location): seq<Clash>
    requires Arrays(a, l, r) && i < |a.items|
    decreases Composite(a), a, 0
  {
    var av, id := a.items[i], IdOf(a.items[i]);
    if InBoth(a, l, r, i) then Clashes(av, ById(l.items)[id], ById(r.items)[id], at + [Id(id)]) else []
  }

  ghost function IndicesClashes(a: Value, l: Value, r: Value, i: nat, at: Location): seq<Clash>
    requires Arrays(a, l, r) && i <= Longest(a, l, r)
    decreases Composite(a), a, 1, Longest(a, l, r) - i
  {
    if i == Longest(a, l, r) then []
    else Clashes(At(a, i), At(l, i), At(r, i), at + [Index(i)]) + IndicesClashes(a, l, r, i + 1, at)
  }

  // -------------------------------------------------- what merge3 reports

  function Report(clash: Clash): ConflictedField {
    ConflictedField(Print(clash.at), clash.ancestor, Some(clash.local), Some(clash.remote))
  }

  ghost function Reports(clashes: seq<Clash>): seq<ConflictedField> {
    seq(|clashes|, i requires 0 <= i < |clashes| => Report(clashes[i]))
  }

  ghost function Base(a: Value, l: Value, r: Value): Value {
    Merged(a, l, r, [], {})
  }

  ghost function Outcome(a: Value, l: Value, r: Value): MergeOutcome {
    var clashes := Clashes(a, l, r, []);
    if clashes == [] then Clean(Base(a, l, r)) else Conflict(Base(a, l, r), Reports(clashes))
  }

  /** The conflict list `before` after the merge has appended `clashes` to it. */
  ghost function Log(before: seq<ConflictedField>, clashes: seq<Clash>): seq<ConflictedField> {
    before + Reports(clashes)
  }

  lemma LogAppend(before: seq<ConflictedField>, p: seq<Clash>, q: seq<Clash>)
    ensures Log(before, p + q) == Log(Log(before, p), q)
    ensures Log(before, []) == before
  {
  }

  // ------------------------------------------------------------- the loops

  method MergeThree(a: Value, l: Value, r: Value) returns (outcome: MergeOutcome)
    ensures outcome == Outcome(a, l, r)
  {
    var merged, conflicts := MergeValues(a, l, r, "", [], []);
    LogAppend([], Clashes(a, l, r, []), []);
    outcome := if conflicts == [] then Clean(merged) else Conflict(merged, conflicts);
  }

  // Every loop below appends its conflicts to `before`, the list it was handed.
  method MergeValues(a: Value, l: Value, r: Value, path: string, ghost at: Location, before: seq<ConflictedField>)
    returns (merged: Value, conflicts: seq<ConflictedField>)
    requires path == Print(at)
    ensures merged == Merged(a, l, r, at, {})
    ensures conflicts == Log(before, Clashes(a, l, r, at))
    decreases Composite(a), a, 3
  {
    if Objects(a, l, r) {
      merged, conflicts := MergeObjects(a, l, r, path, at, before);
    } else if Arrays(a, l, r) {
      if AllHaveId(a.items) && AllHaveId(l.items) && AllHaveId(r.items) {
        merged, conflicts := MergeArraysById(a, l, r, path, at, before);
      } else {
        merged, conflicts := MergeArraysByIndex(a, l, r, path, at, before);
      }
    } else {
      merged, conflicts := MergeScalar(a, l, r, path, at, before);
    }
  }

  method MergeScalar(a: Value, l: Value, r: Value, path: string, ghost at: Location, before: seq<ConflictedField>)
    returns (merged: Value, conflicts: seq<ConflictedField>)
    requires path == Print(at) && !Objects(a, l, r) && !Arrays(a, l, r)
    ensures merged == Merged(a, l, r, at, {})
    ensures conflicts == Log(before, Clashes(a, l, r, at))
  {
    var localChanged, remoteChanged := l != a, r != a;
    conflicts := before;
    if !localChanged && !remoteChanged {
      merged := a;
    } else if localChanged && !remoteChanged {
      merged := l;
    } else if !localChanged && remoteChanged {
      merged := r;
    } else if l == r {
      merged := l;
    } else {
      conflicts := conflicts + [ConflictedField(path, Some(a), Some(l), Some(r))];
      merged := l;
    }
  }

  method MergeObjects(a: Value, l: Value, r: Value, path: string, ghost at: Location, before: seq<ConflictedField>)
    returns (merged: Value, conflicts: seq<ConflictedField>)
    requires path == Print(at) && Objects(a, l, r)
    ensures merged == Merged(a, l, r, at, {})
    ensures conflicts == Log(before, Clashes(a, l, r, at))
    decreases Composite(a), a, 2
  {
    var keys := CollectKeys(a.fields, []);
    keys := CollectKeys(l.fields, keys);
    keys := CollectKeys(r.fields, keys);
    AscendingUnique(keys, AllKeys(a, l, r));

    var out;
    out, conflicts := MergeFields(a, l, r, keys, path, at, before);
    merged := Object(out);
  }

  // The fields of the merged object among `keys`.
  ghost function FieldsOf(a: Value, l: Value, r: Value, keys: set<string>, at: Location): map<string, Value>
    requires Objects(a, l, r)
  {
    map key | key in keys && Field(a, l, r, key, at, {}).Some? :: Field(a, l, r, key, at, {}).value
  }

  lemma FieldsOfMore(a: Value, l: Value, r: Value, keys: seq<string>, key: string, at: Location)
    requires Objects(a, l, r)
    ensures FieldsOf(a, l, r, Elements(keys + [key]), at) ==
            match Field(a, l, r, key, at, {})
            case None => FieldsOf(a, l, r, Elements(keys), at)
            case Some(value) => FieldsOf(a, l, r, Elements(keys), at)[key := value]
  {
    assert Elements(keys + [key]) == Elements(keys) + {key};
  }

  method MergeFields(a: Value, l: Value, r: Value, keys: seq<string>, path: string, ghost at: Location,
                     before: seq<ConflictedField>)
    returns (out: map<string, Value>, conflicts: seq<ConflictedField>)
    requires path == Print(at) && Objects(a, l, r)
    ensures out == FieldsOf(a, l, r, Elements(keys), at)
    ensures conflicts == Log(before, FieldsClashes(a, l, r, keys, at))
    decreases Composite(a), a, 1
  {
    out := map[];
    conflicts := before;
    var i := 0;
    assert keys[0..] == keys;
    while i < |keys|
      invariant 0 <= i <= |keys|
      invariant out == FieldsOf(a, l, r, Elements(keys[..i]), at)
      invariant Log(conflicts, FieldsClashes(a, l, r, keys[i..], at)) == Log(before, FieldsClashes(a, l, r, keys, at))
    {
      var key := keys[i];
      assert keys[i..][0] == key && keys[i..][1..] == keys[i + 1..];
      assert keys[..i + 1] == keys[..i] + [key];
      FieldsOfMore(a, l, r, keys[..i], key, at);
      LogAppend(conflicts, FieldClashes(a, l, r, key, at), FieldsClashes(a, l, r, keys[i + 1..], at));
      PrintExtend(at, Key(key));
      var entry;
      entry, conflicts := MergeField(a, l, r, key, ChildPath(path, key), at, conflicts);
      if entry.Some? {
        out := out[key := entry.value];
      }
      i := i + 1;
    }
    LogAppend(conflicts, [], []);
    assert keys[..i] == keys;
  }

  // One iteration of the object loop; None leaves the key out of the result.
  method MergeField(a: Value, l: Value, r: Value, key: string, path: string, ghost at: Location,
                    before: seq<ConflictedField>)
    returns (entry: Option<Value>, conflicts: seq<ConflictedField>)
    requires Objects(a, l, r) && path == Print(at + [Key(key)])
    ensures entry == Field(a, l, r, key, at, {})
    ensures conflicts == Log(before, FieldClashes(a, l, r, key, at))
    decreases Composite(a), a, 0
  {
    var av, lv, rv := Get(a.fields, key), Get(l.fields, key), Get(r.fields, key);
    var localChanged, remoteChanged := lv != av, rv != av;
    conflicts := before;
    match (av, lv, rv)
    case (_, None, None) => entry := None;
    case (None, Some(_), None) => entry := lv;
    case (None, None, Some(_)) => entry := rv;
    case (Some(_), None, Some(_)) => entry := if remoteChanged then rv else None;
    case (Some(_), Some(_), None) => entry := if localChanged then lv else None;
    case (Some(ancestor), Some(local), Some(remote)) =>
      if !localChanged && !remoteChanged {
        entry := av;
      } else if localChanged && !remoteChanged {
        entry := lv;
      } else if !localChanged && remoteChanged {
        entry := rv;
      } else {
        var child;
        child, conflicts := MergeValues(ancestor, local, remote, path, at + [Key(key)], conflicts);
        entry := Some(child);
      }
    case (None, Some(local), Some(remote)) =>
      if local != remote {
        conflicts := conflicts + [ConflictedField(path, None, lv, rv)];
      }
      entry := lv;
  }

  method CollectById(items: seq<Value>) returns (elements: map<string, Value>)
    ensures elements == ById(items)
  {
    elements := map[];
    var i := 0;
    while i < |items|
      invariant 0 <= i <= |items| && elements == ById(items[..i])
    {
      assert items[..i + 1][..i] == items[..i];
      elements := elements[IdOf(items[i]) := items[i]];
      i := i + 1;
    }
    assert items[..i] == items;
  }

  lemma {:induction false} ByIdKeys(items: seq<Value>)
    ensures ById(items).Keys == Ids(items)
  {
    if items != [] {
      var last := |items| - 1;
      ByIdKeys(items[..last]);
      assert items == items[..last] + [items[last]];
    }
  }

  method MergeArraysById(a: Value, l: Value, r: Value, path: string, ghost at: Location, before: seq<ConflictedField>)
    returns (merged: Value, conflicts: seq<ConflictedField>)
    requires path == Print(at) && IdentityArrays(a, l, r)
    ensures merged == Merged(a, l, r, at, {})
    ensures conflicts == Log(before, Clashes(a, l, r, at))
    decreases Composite(a), a, 2
  {
    var ancestors := CollectById(a.items);
    var locals := CollectById(l.items);
    var remotes := CollectById(r.items);
    ByIdKeys(a.items);
    ByIdKeys(l.items);
    var out;
    out, conflicts := MergeSurvivors(a, l, r, locals, remotes, path, at, before);
    out := AppendFresh(out, l.items, ancestors.Keys);
    out := AppendFresh(out, r.items, ancestors.Keys + locals.Keys);
    MergedById(a, l, r, at);
    merged := Array(out);
  }

  lemma MergedById(a: Value, l: Value, r: Value, at: Location)
    requires IdentityArrays(a, l, r)
    ensures Merged(a, l, r, at, {}) ==
            Array(Survivors(a, l, r, 0, at, {}) + Fresh(l.items, Ids(a.items)) +
                  Fresh(r.items, Ids(a.items) + Ids(l.items)))
    ensures Clashes(a, l, r, at) == ElementsClashes(a, l, r, 0, at)
  {
    var survivors := Survivors(a, l, r, 0, at, {});
    assert Merged(a, l, r, at, {}) == Array(survivors + Added(a, l, r));
    assert survivors + Added(a, l, r) ==
      survivors + Fresh(l.items, Ids(a.items)) + Fresh(r.items, Ids(a.items) + Ids(l.items));
  }

  // The first pass, in the ancestor's order.
  method MergeSurvivors(a: Value, l: Value, r: Value, locals: map<string, Value>, remotes: map<string, Value>,
                        path: string, ghost at: Location, before: seq<ConflictedField>)
    returns (out: seq<Value>, conflicts: seq<ConflictedField>)
    requires path == Print(at) && Arrays(a, l, r) && locals == ById(l.items) && remotes == ById(r.items)
    ensures out == Survivors(a, l, r, 0, at, {})
    ensures conflicts == Log(before, ElementsClashes(a, l, r, 0, at))
    decreases Composite(a), a, 1
  {
    out := [];
    conflicts := before;
    var i := 0;
    while i < |a.items|
      invariant 0 <= i <= |a.items|
      invariant out + Survivors(a, l, r, i, at, {}) == Survivors(a, l, r, 0, at, {})
      invariant Log(conflicts, ElementsClashes(a, l, r, i, at)) == Log(before, ElementsClashes(a, l, r, 0, at))
    {
      LogAppend(conflicts, ElementClashes(a, l, r, i, at), ElementsClashes(a, l, r, i + 1, at));
      assert out + Survivors(a, l, r, i, at, {}) ==
        (out + Survivor(a, l, r, i, at, {})) + Survivors(a, l, r, i + 1, at, {});
      var kept;
      kept, conflicts := MergeSurvivor(a, l, r, i, locals, remotes, path, at, conflicts);
      out := out + kept;
      i := i + 1;
    }
    LogAppend(conflicts, [], []);
  }

  // One iteration of the first pass; `kept` is what it pushes.
  method MergeSurvivor(a: Value, l: Value, r: Value, i: nat, locals: map<string, Value>, remotes: map<string, Value>,
                       path: string, ghost at: Location, before: seq<ConflictedField>)
    returns (kept: seq<Value>, conflicts: seq<ConflictedField>)
    requires path == Print(at) && Arrays(a, l, r) && locals == ById(l.items) && remotes == ById(r.items)
    requires i < |a.items|
    ensures kept == Survivor(a, l, r, i, at, {})
    ensures conflicts == Log(before, ElementClashes(a, l, r, i, at))
    decreases Composite(a), a, 0
  {
    var av, id := a.items[i], IdOf(a.items[i]);
    kept, conflicts := [], before;
    if id in locals && id !in remotes {
      if locals[id] != av {
        kept := [locals[id]];
      }
    } else if id !in locals && id in remotes {
      if remotes[id] != av {
        kept := [remotes[id]];
      }
    } else if id in locals && id in remotes {
      PrintExtend(at, Id(id));
      var merged;
      merged, conflicts :=
        MergeValues(av, locals[id], remotes[id], path + "[id=" + id + "]", at + [Id(id)], conflicts);
      kept := [merged];
    }
  }

  method AppendFresh(before: seq<Value>, items: seq<Value>, known: set<string>) returns (out: seq<Value>)
    ensures out == before + Fresh(items, known)
  {
    out := before;
    var i := 0;
    while i < |items|
      invariant 0 <= i <= |items|
      invariant out + Fresh(items[i..], known) == before + Fresh(items, known)
    {
      if IdOf(items[i]) !in known {
        out := out + [items[i]];
      }
      i := i + 1;
    }
  }

  method MergeArraysByIndex(a: Value, l: Value, r: Value, path: string, ghost at: Location,
                            before: seq<ConflictedField>)
    returns (merged: Value, conflicts: seq<ConflictedField>)
    requires path == Print(at) && Arrays(a, l, r) && !IdentityArrays(a, l, r)
    ensures merged == Merged(a, l, r, at, {})
    ensures conflicts == Log(before, Clashes(a, l, r, at))
    decreases Composite(a), a, 1
  {
    var len := Max(Max(|a.items|, |l.items|), |r.items|);
    var out: seq<Value> := [];
    conflicts := before;
    var i := 0;
    while i < len
      invariant 0 <= i <= len && |out| == i
      invariant forall j :: 0 <= j < i ==>
        out[j] == Merged(At(a, j), At(l, j), At(r, j), at + [Index(j)], {})
      invariant Log(conflicts, IndicesClashes(a, l, r, i, at)) == Log(before, IndicesClashes(a, l, r, 0, at))
    {
      PrintExtend(at, Index(i));
      LogAppend(conflicts, Clashes(At(a, i), At(l, i), At(r, i), at + [Index(i)]), IndicesClashes(a, l, r, i + 1, at));
      var element;
      element, conflicts :=
        MergeValues(At(a, i), At(l, i), At(r, i), path + "." + Decimal(i), at + [Index(i)], conflicts);
      out := out + [element];
      i := i + 1;
    }
    MergedByIndex(a, l, r, at, out);
    merged := Array(out);
  }

  lemma MergedByIndex(a: Value, l: Value, r: Value, at: Location, out: seq<Value>)
    requires Arrays(a, l, r) && !IdentityArrays(a, l, r) && |out| == Longest(a, l, r)
    requires forall j :: 0 <= j < |out| ==> out[j] == Merged(At(a, j), At(l, j), At(r, j), at + [Index(j)], {})
    ensures Merged(a, l, r, at, {}) == Array(out)
  {
    assert Merged(a, l, r, at, {}).items == out;
  }
}
