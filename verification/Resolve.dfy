/** Resolving conflicts: the patcher, and what every vector of choices makes of the merge. */
module Resolve {
  import opened Json
  import opened Locations
  import opened Merge
  import opened Branches
  import opened Conflicts
  import opened Edits
  import opened DisjointEdits

  datatype Choice = Local | Remote

  datatype Fault =
    | WrongChoiceCount(expected: nat, received: nat)
    | InvalidPath(path: string)
    | EmptyPath
    | Unavailable(path: string, segment: Segment)
    | NotAnObject(path: string)
    | NotAnArray(path: string)

  // ------------------------------------------------------------ the patcher

  function WithChild(v: Value, segment: Segment, child: Value): Value
    requires Child(v, segment).Some? || (segment.Key? && v.Object?)
  {
    match segment
    case Key(key) => Object(v.fields[key := child])
    case Index(i) => Array(v.items[i := child])
    case Id(id) => Array(v.items[FindId(v.items, id).value := child])
  }

  function WithoutChild(v: Value, segment: Segment): Value
    requires Child(v, segment).Some? || (segment.Key? && v.Object?)
  {
    match segment
    case Key(key) => Object(v.fields - {key})
    case Index(i) => Array(v.items[..i] + v.items[i + 1..])
    case Id(id) =>
      var i := FindId(v.items, id).value;
      Array(v.items[..i] + v.items[i + 1..])
  }

  // The last segment may insert or remove a key; elements must exist.
  function PatchLast(v: Value, last: Segment, path: string, replacement: Option<Value>): Result<Value, Fault> {
    if last.Key? && !v.Object? then Err(NotAnObject(path))
    else if !last.Key? && !v.Array? && replacement.None? then Err(NotAnArray(path))
    else if !last.Key? && Child(v, last).None? then Err(Unavailable(path, last))
    else
      match replacement
      case Some(value) => Ok(WithChild(v, last, value))
      case None => Ok(WithoutChild(v, last))
  }

  function Patch(v: Value, segments: Location, path: string, replacement: Option<Value>): Result<Value, Fault>
    requires segments != []
    decreases |segments|
  {
    if |segments| == 1 then PatchLast(v, segments[0], path, replacement)
    else
      match Child(v, segments[0])
      case None => Err(Unavailable(path, segments[0]))
      case Some(child) =>
        match Patch(child, segments[1..], path, replacement)
        case Err(fault) => Err(fault)
        case Ok(patched) => Ok(WithChild(v, segments[0], patched))
  }

  function SetValue(root: Value, path: string, replacement: Option<Value>): Result<Value, Fault> {
    match Parse(path)
    case None => Err(InvalidPath(path))
    case Some(segments) => if segments == [] then Err(EmptyPath) else Patch(root, segments, path, replacement)
  }

  // The values descended through, each holding the next, around a new innermost one.
  function Wrap(above: seq<Value>, segments: Location, v: Value): Value
    requires |segments| == |above| && forall j :: 0 <= j < |above| ==> Child(above[j], segments[j]).Some?
  {
    if above == [] then v
    else
      var last := |above| - 1;
      Wrap(above[..last], segments[..last], WithChild(above[last], segments[last], v))
  }

  ghost function Wrapped(above: seq<Value>, segments: Location, inner: Result<Value, Fault>): Result<Value, Fault>
    requires |segments| == |above| && forall j :: 0 <= j < |above| ==> Child(above[j], segments[j]).Some?
  {
    match inner
    case Err(fault) => Err(fault)
    case Ok(v) => Ok(Wrap(above, segments, v))
  }

  lemma PatchBelow(
    above: seq<Value>, segments: Location, i: nat, current: Value, path: string, replacement: Option<Value>)
    requires i == |above| && i + 1 < |segments| && Child(current, segments[i]).Some?
    requires forall j :: 0 <= j < |above| ==> Child(above[j], segments[j]).Some?
    ensures Wrapped(above, segments[..i], Patch(current, segments[i..], path, replacement)) ==
            Wrapped(above + [current], segments[..i + 1],
                    Patch(Child(current, segments[i]).value, segments[i + 1..], path, replacement))
  {
    assert segments[i..][0] == segments[i] && segments[i..][1..] == segments[i + 1..];
    assert (above + [current])[..i] == above && segments[..i + 1][..i] == segments[..i];
  }

  // The walk to the value that holds the last segment, past those in `above`.
  method Descend(root: Value, segments: Location, path: string, ghost replacement: Option<Value>)
    returns (result: Result<(Value, seq<Value>), Fault>)
    requires segments != []
    ensures match result
            case Err(fault) => Patch(root, segments, path, replacement) == Err(fault)
            case Ok((current, above)) =>
              var last := |segments| - 1;
              && |above| == last && (forall j :: 0 <= j < last ==> Child(above[j], segments[j]).Some?)
              && Patch(root, segments, path, replacement) ==
                 Wrapped(above, segments[..last], PatchLast(current, segments[last], path, replacement))
  {
    var current, above, i := root, [], 0;
    assert segments[..0] == [] && segments[0..] == segments;
    while i < |segments| - 1
      invariant i == |above| < |segments|
      invariant forall j :: 0 <= j < i ==> Child(above[j], segments[j]).Some?
      invariant Patch(root, segments, path, replacement) ==
                Wrapped(above, segments[..i], Patch(current, segments[i..], path, replacement))
    {
      var child := Child(current, segments[i]);
      if child.None? {
        assert segments[i..][0] == segments[i];
        return Err(Unavailable(path, segments[i]));
      }
      PatchBelow(above, segments, i, current, path, replacement);
      above := above + [current];
      current := child.value;
      i := i + 1;
    }
    assert segments[i..] == [segments[i]];
    result := Ok((current, above));
  }

  /**
   * The descent to the last parent, the change there, and every value on the
   * way holding it, as an update in place would leave them.
   */
  method SetConflictedValue(root: Value, path: string, replacement: Option<Value>)
    returns (result: Result<Value, Fault>)
    ensures result == SetValue(root, path, replacement)
  {
    var parsed := ConflictPathSegments(path);
    if parsed.None? {
      return Err(InvalidPath(path));
    }
    var segments := parsed.value;
    if segments == [] {
      return Err(EmptyPath);
    }
    var descent := Descend(root, segments, path, replacement);
    if descent.Err? {
      return Err(descent.error);
    }
    var (current, above) := descent.value;
    var last := |segments| - 1;
    var patched := PatchLast(current, segments[last], path, replacement);
    if patched.Err? {
      return patched;
    }
    var v := Rebuild(above, segments[..last], patched.value);
    result := Ok(v);
  }

  method Rebuild(above: seq<Value>, segments: Location, inner: Value) returns (v: Value)
    requires |segments| == |above| && forall j :: 0 <= j < |above| ==> Child(above[j], segments[j]).Some?
    ensures v == Wrap(above, segments, inner)
  {
    v := inner;
    var i := |above|;
    assert above[..i] == above && segments[..i] == segments;
    while i > 0
      invariant 0 <= i <= |above|
      invariant Wrap(above[..i], segments[..i], v) == Wrap(above, segments, inner)
    {
      i := i - 1;
      assert above[..i + 1][..i] == above[..i] && segments[..i + 1][..i] == segments[..i];
      v := WithChild(above[i], segments[i], v);
    }
  }

  // ----------------------------------------------------------- the resolver

  /** Conflicts in turn; a local choice changes nothing. */
  function ResolveEach(base: Value, conflicts: seq<ConflictedField>, choices: seq<Choice>): Result<Value, Fault>
    requires |conflicts| == |choices|
    decreases |conflicts|
  {
    if conflicts == [] then Ok(base)
    else if choices[0] == Local then ResolveEach(base, conflicts[1..], choices[1..])
    else
      match SetValue(base, conflicts[0].path, conflicts[0].remote)
      case Err(fault) => Err(fault)
      case Ok(patched) => ResolveEach(patched, conflicts[1..], choices[1..])
  }

  function Resolved(base: Value, conflicts: seq<ConflictedField>, choices: seq<Choice>): Result<Value, Fault> {
    if |conflicts| != |choices| then Err(WrongChoiceCount(|conflicts|, |choices|))
    else ResolveEach(base, conflicts, choices)
  }

  method ResolveConflicts(base: Value, conflicts: seq<ConflictedField>, choices: seq<Choice>)
    returns (result: Result<Value, Fault>)
    ensures result == Resolved(base, conflicts, choices)
  {
    if |conflicts| != |choices| {
      return Err(WrongChoiceCount(|conflicts|, |choices|));
    }
    var current := base;
    var i := 0;
    assert conflicts[0..] == conflicts && choices[0..] == choices;
    while i < |conflicts|
      invariant 0 <= i <= |conflicts|
      invariant ResolveEach(current, conflicts[i..], choices[i..]) == ResolveEach(base, conflicts, choices)
    {
      assert conflicts[i..][1..] == conflicts[i + 1..] && choices[i..][1..] == choices[i + 1..];
      if choices[i] == Remote {
        var patched := SetConflictedValue(current, conflicts[i].path, conflicts[i].remote);
        if patched.Err? {
          return Err(patched.error);
        }
        current := patched.value;
      }
      i := i + 1;
    }
    result := Ok(current);
  }

  // ------------------------------------- what a location set leaves untouched

  lemma MergedIgnores(a: Value, l: Value, r: Value, at: Location, taken: set<Location>, p: Location)
    requires !(at <= p)
    ensures Merged(a, l, r, at, taken + {p}) == Merged(a, l, r, at, taken)
    decreases Composite(a), a, 2
  {
    if Objects(a, l, r) {
      forall key | key in a.fields.Keys + l.fields.Keys + r.fields.Keys
        ensures Field(a, l, r, key, at, taken + {p}) == Field(a, l, r, key, at, taken)
      {
        FieldIgnores(a, l, r, key, at, taken, p);
      }
    } else if IdentityArrays(a, l, r) {
      SurvivorsIgnore(a, l, r, 0, at, taken, p);
    } else if Arrays(a, l, r) {
      forall i: nat | i < Longest(a, l, r)
        ensures Merged(At(a, i), At(l, i), At(r, i), at + [Index(i)], taken + {p}) ==
                Merged(At(a, i), At(l, i), At(r, i), at + [Index(i)], taken)
      {
        assert at <= at + [Index(i)];
        MergedIgnores(At(a, i), At(l, i), At(r, i), at + [Index(i)], taken, p);
      }
      assert Merged(a, l, r, at, taken + {p}).items == Merged(a, l, r, at, taken).items;
    }
  }

  lemma FieldIgnores(a: Value, l: Value, r: Value, key: string, at: Location, taken: set<Location>, p: Location)
    requires Objects(a, l, r) && !(at + [Key(key)] <= p)
    ensures Field(a, l, r, key, at, taken + {p}) == Field(a, l, r, key, at, taken)
    decreases Composite(a), a, 1
  {
    if Descends(a, l, r, key) {
      MergedIgnores(a.fields[key], l.fields[key], r.fields[key], at + [Key(key)], taken, p);
    }
  }

  lemma SurvivorIgnores(a: Value, l: Value, r: Value, i: nat, at: Location, taken: set<Location>, p: Location)
    requires Arrays(a, l, r) && i < |a.items| && !(at + [Id(IdOf(a.items[i]))] <= p)
    ensures Survivor(a, l, r, i, at, taken + {p}) == Survivor(a, l, r, i, at, taken)
    decreases Composite(a), a, 0
  {
    var id := IdOf(a.items[i]);
    if InBoth(a, l, r, i) {
      MergedIgnores(a.items[i], ById(l.items)[id], ById(r.items)[id], at + [Id(id)], taken, p);
    }
  }

  lemma SurvivorsIgnore(a: Value, l: Value, r: Value, i: nat, at: Location, taken: set<Location>, p: Location)
    requires Arrays(a, l, r) && i <= |a.items|
    requires forall j :: i <= j < |a.items| ==> !(at + [Id(IdOf(a.items[j]))] <= p)
    ensures Survivors(a, l, r, i, at, taken + {p}) == Survivors(a, l, r, i, at, taken)
    decreases Composite(a), a, 1, |a.items| - i
  {
    if i < |a.items| {
      SurvivorIgnores(a, l, r, i, at, taken, p);
      SurvivorsIgnore(a, l, r, i + 1, at, taken, p);
    }
  }

  // -------------------------------------------------- one branch, replaced

  function BranchMerged(b: Branch, at: Location, taken: set<Location>): Value {
    match b.a
    case None => if at + [b.segment] in taken then b.r else b.l
    case Some(a) => Merged(a, b.l, b.r, at + [b.segment], taken)
  }

  /**
   * The merge holds each branch's merge at that branch's segment, and taking
   * the remote side at one more place below a branch changes that child only.
   */
  lemma Graft(a: Value, l: Value, r: Value, b: Branch, at: Location, taken: set<Location>, p: Location)
    requires Container(a, l, r) && b in BranchesOf(a, l, r) && at + [b.segment] <= p
    requires UniqueIds(a) && UniqueIds(l) && UniqueIds(r)
    ensures Child(Merged(a, l, r, at, taken), b.segment) == Some(BranchMerged(b, at, taken))
    ensures WithChild(Merged(a, l, r, at, taken), b.segment, BranchMerged(b, at, taken + {p})) ==
            Merged(a, l, r, at, taken + {p})
  {
    BranchMembers(a, l, r, b);
    if Objects(a, l, r) {
      GraftField(a, l, r, b, at, taken, p);
    } else if IdentityArrays(a, l, r) {
      var i: nat :| i < |a.items| && b in ElementBranch(a, l, r, i);
      GraftElement(a, l, r, i, at, taken, p);
    } else {
      GraftIndex(a, l, r, b.segment.index, at, taken, p);
    }
  }

  lemma GraftField(a: Value, l: Value, r: Value, b: Branch, at: Location, taken: set<Location>, p: Location)
    requires Objects(a, l, r) && b.segment.Key? && b in FieldBranch(a, l, r, b.segment.key)
    requires at + [b.segment] <= p
    ensures Child(Merged(a, l, r, at, taken), b.segment) == Some(BranchMerged(b, at, taken))
    ensures WithChild(Merged(a, l, r, at, taken), b.segment, BranchMerged(b, at, taken + {p})) ==
            Merged(a, l, r, at, taken + {p})
  {
    var before, after := Merged(a, l, r, at, taken), Merged(a, l, r, at, taken + {p});
    var key := b.segment.key;
    assert Field(a, l, r, key, at, taken) == Some(BranchMerged(b, at, taken));
    assert Field(a, l, r, key, at, taken + {p}) == Some(BranchMerged(b, at, taken + {p}));
    forall other | other in a.fields.Keys + l.fields.Keys + r.fields.Keys && other != key
      ensures Field(a, l, r, other, at, taken + {p}) == Field(a, l, r, other, at, taken)
    {
      assert p[|at|] == b.segment;
      FieldIgnores(a, l, r, other, at, taken, p);
    }
    assert before.fields[key := BranchMerged(b, at, taken + {p})] == after.fields;
  }

  lemma GraftIndex(a: Value, l: Value, r: Value, i: nat, at: Location, taken: set<Location>, p: Location)
    requires Arrays(a, l, r) && !IdentityArrays(a, l, r) && i < Longest(a, l, r)
    requires at + [Index(i)] <= p
    ensures var b := IndexBranch(a, l, r, i);
            && Child(Merged(a, l, r, at, taken), b.segment) == Some(BranchMerged(b, at, taken))
            && WithChild(Merged(a, l, r, at, taken), b.segment, BranchMerged(b, at, taken + {p})) ==
               Merged(a, l, r, at, taken + {p})
  {
    var before, after := Merged(a, l, r, at, taken), Merged(a, l, r, at, taken + {p});
    forall j: nat | j < Longest(a, l, r) && j != i ensures after.items[j] == before.items[j] {
      assert p[|at|] == Index(i);
      MergedIgnores(At(a, j), At(l, j), At(r, j), at + [Index(j)], taken, p);
    }
    assert before.items[i := BranchMerged(IndexBranch(a, l, r, i), at, taken + {p})] == after.items;
  }

  lemma GraftElement(a: Value, l: Value, r: Value, i: nat, at: Location, taken: set<Location>, p: Location)
    requires DistinctArrays(a, l, r) && i < |a.items| && InBoth(a, l, r, i)
    requires at + [Id(IdOf(a.items[i]))] <= p
    ensures var b := ElementBranch(a, l, r, i)[0];
            && Child(Merged(a, l, r, at, taken), b.segment) == Some(BranchMerged(b, at, taken))
            && WithChild(Merged(a, l, r, at, taken), b.segment, BranchMerged(b, at, taken + {p})) ==
               Merged(a, l, r, at, taken + {p})
  {
    var id := IdOf(a.items[i]);
    var b := ElementBranch(a, l, r, i)[0];
    var before, after := Merged(a, l, r, at, taken), Merged(a, l, r, at, taken + {p});
    var n := SurvivorsGraft(a, l, r, 0, i, at, taken, p);
    assert before.items[n] == BranchMerged(b, at, taken);
    IdOfMerged(a, l, r, i, at, taken);
    FindMerged(a, l, r, id, n, at, taken);
    assert before.items[n := BranchMerged(b, at, taken + {p})] == after.items;
  }

  lemma IdOfMerged(a: Value, l: Value, r: Value, i: nat, at: Location, taken: set<Location>)
    requires IdentityArrays(a, l, r) && i < |a.items| && InBoth(a, l, r, i)
    ensures IdOf(BranchMerged(ElementBranch(a, l, r, i)[0], at, taken)) == IdOf(a.items[i])
  {
    var id := IdOf(a.items[i]);
    ByIdElement(l.items, id);
    ByIdElement(r.items, id);
    assert a.items[i] in a.items;
    MergedKeepsId(a.items[i], ById(l.items)[id], ById(r.items)[id], at + [Id(id)], taken);
  }

  lemma FindMerged(a: Value, l: Value, r: Value, id: string, n: nat, at: Location, taken: set<Location>)
    requires DistinctArrays(a, l, r)
    requires Merged(a, l, r, at, taken).Array? && n < |Merged(a, l, r, at, taken).items|
    requires IdOf(Merged(a, l, r, at, taken).items[n]) == id
    ensures FindId(Merged(a, l, r, at, taken).items, id) == Some(n)
  {
    IdentityArrayUnique(a, l, r, at, taken);
    IdentityArrayOrder(a, l, r, at, taken);
    FindDistinct(Merged(a, l, r, at, taken).items, n);
  }

  // Where element `j` ends up among the survivors from `i` on.
  lemma {:induction false} SurvivorsGraft(
    a: Value, l: Value, r: Value, i: nat, j: nat, at: Location, taken: set<Location>, p: Location) returns (n: nat)
    requires Arrays(a, l, r) && i <= j < |a.items| && Distinct(a.items) && InBoth(a, l, r, j)
    requires at + [Id(IdOf(a.items[j]))] <= p
    ensures var b := ElementBranch(a, l, r, j)[0];
            var before, after := Survivors(a, l, r, i, at, taken), Survivors(a, l, r, i, at, taken + {p});
            && n < |before| && before[n] == BranchMerged(b, at, taken)
            && after == before[n := BranchMerged(b, at, taken + {p})]
    decreases j - i
  {
    assert p[|at|] == Id(IdOf(a.items[j]));
    if i == j {
      SurvivorsIgnore(a, l, r, i + 1, at, taken, p);
      n := 0;
    } else {
      SurvivorIgnores(a, l, r, i, at, taken, p);
      n := SurvivorsGraft(a, l, r, i + 1, j, at, taken, p);
      n := n + |Survivor(a, l, r, i, at, taken)|;
    }
  }

  // ---------------------------------------------------- patching one conflict

  // A clash exactly at a branch's own place takes the remote side when told to.
  lemma ClashAtBranch(b: Branch, at: Location, c: Clash, taken: set<Location>)
    requires c in BranchClashes(b, at) && c.at == at + [b.segment]
    ensures BranchMerged(b, at, taken) == if c.at in taken then c.remote else c.local
  {
    if b.a.Some? && Container(b.a.value, b.l, b.r) {
      var inner := ClashBranch(b.a.value, b.l, b.r, at + [b.segment], c);
      BranchUnder(inner, at + [b.segment], c);
      assert false;
    }
  }

  /** Patching the remote value in at a conflict is merging with that conflict taken. */
  lemma {:induction false} PatchTakesRemote(
    a: Value, l: Value, r: Value, at: Location, taken: set<Location>, c: Clash, path: string)
    requires Container(a, l, r) && UniqueIds(a) && UniqueIds(l) && UniqueIds(r)
    requires c in Clashes(a, l, r, at)
    ensures at < c.at
    ensures Patch(Merged(a, l, r, at, taken), c.at[|at|..], path, Some(c.remote)) ==
            Ok(Merged(a, l, r, at, taken + {c.at}))
    decreases Composite(a), a
  {
    var b := ClashBranch(a, l, r, at, c);
    BranchUnder(b, at, c);
    BranchInputs(a, l, r, b);
    Graft(a, l, r, b, at, taken, c.at);
    var place := c.at[|at|..];
    assert place[0] == c.at[|at|] == b.segment;
    if |place| == 1 {
      assert c.at == at + [b.segment];
      ClashAtBranch(b, at, c, taken + {c.at});
    } else {
      assert place[1..] == c.at[|at| + 1..];
      if !Container(b.a.value, b.l, b.r) {
        assert false;
      }
      PatchTakesRemote(b.a.value, b.l, b.r, at + [b.segment], taken, c, path);
    }
  }

  lemma LookupBelow(v: Value, segment: Segment, child: Value, at: Location, place: Location)
    requires at + [segment] <= place && Child(v, segment) == Some(child)
    ensures at <= place && Lookup(v, place[|at|..]) == Lookup(child, place[|at| + 1..])
  {
    var below := place[|at|..];
    assert below[0] == place[|at|] == segment && below[1..] == place[|at| + 1..];
  }

  lemma AddedBothHeld(b: Branch, at: Location, taken: set<Location>, c: Clash)
    requires b.a.None? && c in BranchClashes(b, at)
    ensures |c.at| == |at| + 1
    ensures Lookup(BranchMerged(b, at, taken), c.at[|at| + 1..]) == Some(if c.at in taken then c.remote else c.local)
  {
    assert c.at == at + [b.segment] && c.at[|at| + 1..] == [];
  }

  /** At every conflict the merge holds the side that was chosen there. */
  lemma {:induction false} ChosenSideHeld(a: Value, l: Value, r: Value, at: Location, taken: set<Location>, c: Clash)
    requires UniqueIds(a) && UniqueIds(l) && UniqueIds(r)
    requires c in Clashes(a, l, r, at)
    ensures at <= c.at
    ensures Lookup(Merged(a, l, r, at, taken), c.at[|at|..]) == Some(if c.at in taken then c.remote else c.local)
    decreases Composite(a), a
  {
    if Container(a, l, r) {
      var b := ClashBranch(a, l, r, at, c);
      BranchUnder(b, at, c);
      BranchInputs(a, l, r, b);
      Graft(a, l, r, b, at, taken, c.at);
      LookupBelow(Merged(a, l, r, at, taken), b.segment, BranchMerged(b, at, taken), at, c.at);
      if b.a.Some? {
        ChosenSideHeld(b.a.value, b.l, b.r, at + [b.segment], taken, c);
      } else {
        AddedBothHeld(b, at, taken, c);
      }
    } else {
      assert c.at[|at|..] == [];
    }
  }

  // ------------------------------------------------- every vector of choices

  /** The locations of the conflicts for which the remote side was chosen. */
  ghost function Chosen(clashes: seq<Clash>, choices: seq<Choice>): set<Location>
    requires |clashes| == |choices|
  {
    set i | 0 <= i < |clashes| && choices[i] == Remote :: clashes[i].at
  }

  lemma ChosenStep(clashes: seq<Clash>, choices: seq<Choice>)
    requires |clashes| == |choices| && clashes != []
    ensures Chosen(clashes, choices) ==
            (if choices[0] == Remote then {clashes[0].at} else {}) + Chosen(clashes[1..], choices[1..])
  {
    var rest := Chosen(clashes[1..], choices[1..]);
    forall p | p in Chosen(clashes, choices) && !(choices[0] == Remote && p == clashes[0].at) ensures p in rest {
      var i :| 0 <= i < |clashes| && choices[i] == Remote && clashes[i].at == p;
      assert clashes[1..][i - 1].at == p && choices[1..][i - 1] == Remote;
    }
    forall p | p in rest ensures p in Chosen(clashes, choices) {
      var i :| 0 <= i < |clashes[1..]| && choices[1..][i] == Remote && clashes[1..][i].at == p;
      assert clashes[i + 1].at == p && choices[i + 1] == Remote;
    }
  }

  /**
   * Resolving any list of the merge's conflicts, in any order, gives the merge
   * with the remote side taken at the chosen locations.
   */
  lemma {:induction false} ResolveAnyList(
    a: Value, l: Value, r: Value, taken: set<Location>, clashes: seq<Clash>, choices: seq<Choice>)
    requires Container(a, l, r) && UniqueIds(a) && UniqueIds(l) && UniqueIds(r)
    requires |clashes| == |choices|
    requires forall c :: c in clashes ==> c in Clashes(a, l, r, []) && SafeLocation(c.at)
    ensures ResolveEach(Merged(a, l, r, [], taken), Reports(clashes), choices) ==
            Ok(Merged(a, l, r, [], taken + Chosen(clashes, choices)))
    decreases |clashes|
  {
    if clashes == [] {
      assert taken + Chosen(clashes, choices) == taken;
    } else {
      var c := clashes[0];
      ChosenStep(clashes, choices);
      assert Reports(clashes)[1..] == Reports(clashes[1..]);
      if choices[0] == Local {
        ResolveAnyList(a, l, r, taken, clashes[1..], choices[1..]);
        assert taken + Chosen(clashes, choices) == taken + Chosen(clashes[1..], choices[1..]);
      } else {
        RoundTrip(c.at);
        assert c.at[0..] == c.at;
        PatchTakesRemote(a, l, r, [], taken, c, Print(c.at));
        ResolveAnyList(a, l, r, taken + {c.at}, clashes[1..], choices[1..]);
        assert taken + {c.at} + Chosen(clashes[1..], choices[1..]) == taken + Chosen(clashes, choices);
      }
    }
  }

  ghost predicate SafeConflicts(a: Value, l: Value, r: Value) {
    forall c :: c in Clashes(a, l, r, []) ==> SafeLocation(c.at)
  }

  /**
   * One choice per conflict always resolves; each conflict's location then
   * holds the chosen side, and the value is the merge that chose those sides.
   */
  lemma EveryChoiceIsHonoured(a: Value, l: Value, r: Value, choices: seq<Choice>)
    requires Container(a, l, r) && UniqueIds(a) && UniqueIds(l) && UniqueIds(r) && SafeConflicts(a, l, r)
    requires |choices| == |Clashes(a, l, r, [])|
    ensures var clashes := Clashes(a, l, r, []);
            var result := Resolved(Base(a, l, r), Reports(clashes), choices);
            && result == Ok(Merged(a, l, r, [], Chosen(clashes, choices)))
            && forall i :: 0 <= i < |clashes| ==>
                 Lookup(result.value, clashes[i].at) ==
                 Some(if choices[i] == Remote then clashes[i].remote else clashes[i].local)
  {
    var clashes := Clashes(a, l, r, []);
    var taken := Chosen(clashes, choices);
    ResolveAnyList(a, l, r, {}, clashes, choices);
    assert {} + taken == taken;
    ConflictsAreApart(a, l, r, []);
    forall i | 0 <= i < |clashes|
      ensures Lookup(Merged(a, l, r, [], taken), clashes[i].at) ==
              Some(if choices[i] == Remote then clashes[i].remote else clashes[i].local)
    {
      ChosenSideHeld(a, l, r, [], taken, clashes[i]);
      assert clashes[i].at[0..] == clashes[i].at;
      if clashes[i].at in taken {
        var j :| 0 <= j < |clashes| && choices[j] == Remote && clashes[j].at == clashes[i].at;
        assert j == i;
      }
    }
  }

  /** Local choices are no-ops, whatever the conflicts' paths. */
  lemma {:induction false} LocalEverywhere(base: Value, conflicts: seq<ConflictedField>, choices: seq<Choice>)
    requires |conflicts| == |choices| && forall choice :: choice in choices ==> choice == Local
    ensures Resolved(base, conflicts, choices) == Ok(base)
  {
    if conflicts != [] {
      assert choices[0] in choices && forall choice :: choice in choices[1..] ==> choice in choices;
      LocalEverywhere(base, conflicts[1..], choices[1..]);
    }
  }

  /** A conflict at a root that is neither objects nor arrays cannot be taken: its path is empty. */
  lemma RootConflictIsRefused(a: Value, l: Value, r: Value)
    requires !Container(a, l, r) && l != a && r != a && l != r
    ensures Outcome(a, l, r) == Conflict(l, [ConflictedField("", Some(a), Some(l), Some(r))])
    ensures Resolved(l, Outcome(a, l, r).conflicts, [Remote]) == Err(EmptyPath)
  {
    assert Outcome(a, l, r).conflicts[0].path == "";
  }
}
