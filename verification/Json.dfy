/** JSON values as the three-way merge sees them, the ordered key sets it walks, and what the other parts share. */
module Json {

  datatype Option<+T> = None | Some(value: T)

  datatype Result<+T, +E> = Ok(value: T) | Err(error: E)

  type Bytes = seq<bv8>

  // Content hashes are compared only; the hash itself is a parameter throughout.
  type Digest = nat

  // Numbers are only ever compared for equality, so an integer stands for a
  // number's identity. Objects compare without regard to key order.
  datatype Value =
    | Null
    | Bool(b: bool)
    | Number(n: int)
    | String(s: string)
    | Array(items: seq<Value>)
    | Object(fields: map<string, Value>)

  function Get<V>(fields: map<string, V>, key: string): Option<V> {
    if key in fields then Some(fields[key]) else None
  }

  // Strict lexicographic order on code points, which is the order of the UTF-8 bytes.
  predicate Before(x: string, y: string) {
    y != [] && (x == [] || x[0] < y[0] || (x[0] == y[0] && Before(x[1..], y[1..])))
  }

  lemma {:induction false} BeforeTransitive(x: string, y: string, z: string)
    requires Before(x, y) && Before(y, z)
    ensures Before(x, z)
  {
    if x != [] && x[0] == y[0] && y[0] == z[0] {
      BeforeTransitive(x[1..], y[1..], z[1..]);
    }
  }

  lemma {:induction false} BeforeTotal(x: string, y: string)
    ensures Before(x, y) || x == y || Before(y, x)
    ensures !(Before(x, y) && Before(y, x))
  {
    if x != [] && y != [] && x[0] == y[0] {
      BeforeTotal(x[1..], y[1..]);
      assert x == [x[0]] + x[1..] && y == [y[0]] + y[1..];
    }
  }

  ghost predicate Ascending(keys: seq<string>) {
    forall i, j :: 0 <= i < j < |keys| ==> Before(keys[i], keys[j])
  }

  predicate NoRepeats(ids: seq<string>) {
    forall i, j :: 0 <= i < j < |ids| ==> ids[i] != ids[j]
  }

  ghost function Elements(keys: seq<string>): set<string> {
    set k | k in keys
  }

  /** Insertion into an ordered set of keys. */
  function Insert(keys: seq<string>, key: string): seq<string> {
    if keys == [] then [key]
    else if Before(key, keys[0]) then [key] + keys
    else if key == keys[0] then keys
    else [keys[0]] + Insert(keys[1..], key)
  }

  lemma {:induction false} InsertMembers(keys: seq<string>, key: string)
    ensures Elements(Insert(keys, key)) == Elements(keys) + {key}
  {
    if keys != [] && !Before(key, keys[0]) && key != keys[0] {
      var rest := Insert(keys[1..], key);
      InsertMembers(keys[1..], key);
      assert keys == [keys[0]] + keys[1..] && Insert(keys, key) == [keys[0]] + rest;
      assert Elements([keys[0]] + rest) == {keys[0]} + Elements(rest);
      assert Elements([keys[0]] + keys[1..]) == {keys[0]} + Elements(keys[1..]);
    }
  }

  lemma {:induction false} InsertOrdered(keys: seq<string>, key: string)
    requires Ascending(keys)
    ensures Ascending(Insert(keys, key))
    ensures Elements(Insert(keys, key)) == Elements(keys) + {key}
  {
    InsertMembers(keys, key);
    if keys != [] && Before(key, keys[0]) {
      forall j | 1 <= j < |keys| ensures Before(key, keys[j]) {
        BeforeTransitive(key, keys[0], keys[j]);
      }
    } else if keys != [] && key != keys[0] {
      var rest := Insert(keys[1..], key);
      BeforeTotal(key, keys[0]);
      InsertOrdered(keys[1..], key);
      forall j | 0 <= j < |rest| ensures Before(keys[0], rest[j]) {
        assert rest[j] in Elements(rest);
      }
      assert Insert(keys, key) == [keys[0]] + rest;
    }
  }

  /** The members of `keys` in order. */
  ghost function Sorted(keys: set<string>): (r: seq<string>)
    ensures Ascending(r) && Elements(r) == keys
  {
    if keys == {} then []
    else
      var k :| k in keys;
      InsertOrdered(Sorted(keys - {k}), k);
      Insert(Sorted(keys - {k}), k)
  }

  /** Ascending sequences are determined by their members. */
  lemma {:induction false} AscendingUnique(p: seq<string>, q: seq<string>)
    requires Ascending(p) && Ascending(q) && Elements(p) == Elements(q)
    ensures p == q
  {
    NoElements(p);
    NoElements(q);
    if p != [] {
      FirstIsLeast(p, q);
      TailElements(p);
      TailElements(q);
      AscendingUnique(p[1..], q[1..]);
      assert p == [p[0]] + p[1..] && q == [q[0]] + q[1..];
    }
  }

  lemma NoElements(p: seq<string>)
    ensures p == [] <==> Elements(p) == {}
  {
    if p != [] {
      assert p[0] in Elements(p);
    }
  }

  lemma FirstIsLeast(p: seq<string>, q: seq<string>)
    requires Ascending(p) && Ascending(q) && Elements(p) == Elements(q)
    requires p != [] && q != []
    ensures p[0] == q[0]
  {
    assert p[0] in Elements(q) && q[0] in Elements(p);
    BeforeTotal(p[0], q[0]);
  }

  lemma TailElements(p: seq<string>)
    requires p != [] && Ascending(p)
    ensures Elements(p[1..]) == Elements(p) - {p[0]}
  {
    forall j | 1 <= j < |p| ensures p[j] != p[0] {
      BeforeTotal(p[0], p[j]);
    }
    assert p == [p[0]] + p[1..];
  }

  method CollectKeys<V>(fields: map<string, V>, before: seq<string>) returns (keys: seq<string>)
    requires Ascending(before)
    ensures Ascending(keys) && Elements(keys) == Elements(before) + fields.Keys
  {
    keys := before;
    var rest := fields.Keys;
    while rest != {}
      invariant rest <= fields.Keys && Ascending(keys)
      invariant Elements(keys) + rest == Elements(before) + fields.Keys
      decreases |rest|
    {
      var key :| key in rest;
      InsertOrdered(keys, key);
      keys := Insert(keys, key);
      rest := rest - {key};
    }
  }
}
