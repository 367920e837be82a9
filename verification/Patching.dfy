/** What the patcher does to a value and what it refuses, said of the values before and after. */
module Patching {
  import opened Json
  import opened Locations
  import opened Merge
  import opened Conflicts
  import opened Resolve
  import opened PathGrammar

  // ---------------------------------------------------------- one child changed

  /** `w` is `v` with one child replaced, or gone; a key may be new, an element must be there. */
  ghost predicate Replaced(v: Value, w: Value, s: Segment, child: Option<Value>) {
    if s.Key? then
      && v.Object? && w.Object?
      && forall key :: Get(w.fields, key) == if key == s.key then child else Get(v.fields, key)
    else
      v.Array? && exists i: nat :: Addresses(v, s, i) && WithoutOrWith(v, w, i, child)
  }

  // The element at a position, or the first with an id.
  ghost predicate Addresses(v: Value, s: Segment, i: nat)
    requires v.Array?
  {
    && i < |v.items|
    && (s.Index? ==> s.index == i)
    && (s.Id? ==>
          && HasId(v.items[i]) && IdOf(v.items[i]) == s.id
          && forall j :: 0 <= j < i ==> !(HasId(v.items[j]) && IdOf(v.items[j]) == s.id))
  }

  ghost predicate WithoutOrWith(v: Value, w: Value, i: nat, child: Option<Value>)
    requires v.Array? && i < |v.items|
  {
    && w.Array?
    && |w.items| == |v.items| - (if child.None? then 1 else 0)
    && (forall j :: 0 <= j < i ==> w.items[j] == v.items[j])
    && match child
       case Some(element) => w.items[i] == element && forall j :: i < j < |v.items| ==> w.items[j] == v.items[j]
       case None => forall j :: i <= j < |w.items| ==> w.items[j] == v.items[j + 1]
  }

  /** `w` is `v` with what the location addresses replaced, or gone, and nothing else changed. */
  ghost predicate PatchedTo(v: Value, at: Location, replacement: Option<Value>, w: Value)
    requires at != []
    decreases |at|
  {
    if |at| == 1 then Replaced(v, w, at[0], replacement)
    else
      && Child(v, at[0]).Some?
      && exists below ::
           PatchedTo(Child(v, at[0]).value, at[1..], replacement, below) && Replaced(v, w, at[0], Some(below))
  }

  lemma AddressedChild(v: Value, s: Segment)
    requires v.Array? && !s.Key?
    ensures Child(v, s).Some? <==> exists i: nat :: Addresses(v, s, i)
    ensures forall i: nat :: Addresses(v, s, i) ==>
      Child(v, s) == Some(v.items[i]) && i == if s.Index? then s.index else FindId(v.items, s.id).value
  {
    if Child(v, s).Some? {
      assert Addresses(v, s, if s.Index? then s.index else FindId(v.items, s.id).value);
    }
  }

  // One child replaced is what the patcher's update computes.
  lemma ReplacedIs(v: Value, w: Value, s: Segment, child: Option<Value>)
    ensures Replaced(v, w, s, child) <==>
            && (if s.Key? then v.Object? else Child(v, s).Some?)
            && w == if child.Some? then WithChild(v, s, child.value) else WithoutChild(v, s)
  {
    if s.Key? {
      if v.Object? && w.Object? {
        KeyReplaced(v, w, s.key, child);
      }
    } else if v.Array? {
      AddressedChild(v, s);
      forall i: nat | Addresses(v, s, i)
        ensures WithoutOrWith(v, w, i, child) <==>
                w == if child.Some? then WithChild(v, s, child.value) else WithoutChild(v, s)
      {
        ElementReplaced(v, w, i, child);
      }
    }
  }

  lemma KeyReplaced(v: Value, w: Value, key: string, child: Option<Value>)
    requires v.Object? && w.Object?
    ensures Replaced(v, w, Key(key), child) <==>
            w.fields == if child.Some? then v.fields[key := child.value] else v.fields - {key}
  {
    var after := if child.Some? then v.fields[key := child.value] else v.fields - {key};
    if Replaced(v, w, Key(key), child) {
      forall other ensures Get(w.fields, other) == Get(after, other) {
      }
      SameFields(w.fields, after);
    }
  }

  lemma SameFields(p: map<string, Value>, q: map<string, Value>)
    requires forall key :: Get(p, key) == Get(q, key)
    ensures p == q
  {
    forall key ensures key in p <==> key in q {
      assert Get(p, key) == Get(q, key);
    }
    forall key | key in p ensures p[key] == q[key] {
      assert Get(p, key) == Get(q, key);
    }
  }

  lemma ElementReplaced(v: Value, w: Value, i: nat, child: Option<Value>)
    requires v.Array? && i < |v.items|
    ensures WithoutOrWith(v, w, i, child) <==>
            w == Array(if child.Some? then v.items[i := child.value] else v.items[..i] + v.items[i + 1..])
  {
    var after := if child.Some? then v.items[i := child.value] else v.items[..i] + v.items[i + 1..];
    if WithoutOrWith(v, w, i, child) {
      assert w.items == after;
    }
  }

  /** The patcher succeeds with a value if and only if that is the value with the location patched. */
  lemma {:induction false} PatchExactly(
    v: Value, at: Location, path: string, replacement: Option<Value>, w: Value)
    requires at != []
    ensures Patch(v, at, path, replacement) == Ok(w) <==> PatchedTo(v, at, replacement, w)
    decreases |at|
  {
    if |at| == 1 {
      ReplacedIs(v, w, at[0], replacement);
    } else if Child(v, at[0]).Some? {
      var child := Child(v, at[0]).value;
      var patched := Patch(child, at[1..], path, replacement);
      forall below
        ensures patched == Ok(below) <==> PatchedTo(child, at[1..], replacement, below)
        ensures Replaced(v, w, at[0], Some(below)) <==> w == WithChild(v, at[0], below)
      {
        PatchExactly(child, at[1..], path, replacement, below);
        ReplacedIs(v, w, at[0], Some(below));
      }
    }
  }

  // --------------------------------------------------------------- and refused

  // Why the patch stops at a segment: the value there has no such child.
  ghost predicate Blocks(v: Value, s: Segment, last: bool, path: string, replacement: Option<Value>, fault: Fault) {
    if !last then Child(v, s).None? && fault == Unavailable(path, s)
    else if s.Key? then !v.Object? && fault == NotAnObject(path)
    else
      && Child(v, s).None?
      && fault == if !v.Array? && replacement.None? then NotAnArray(path) else Unavailable(path, s)
  }

  /** A refusal names the first segment that leads nowhere. */
  lemma {:induction false} PatchRefused(
    v: Value, at: Location, path: string, replacement: Option<Value>, fault: Fault)
    requires at != []
    ensures Patch(v, at, path, replacement) == Err(fault) <==>
            exists n :: 0 <= n < |at| && Lookup(v, at[..n]).Some? &&
              Blocks(Lookup(v, at[..n]).value, at[n], n == |at| - 1, path, replacement, fault)
    decreases |at|
  {
    assert at[..0] == [] && Lookup(v, at[..0]) == Some(v);
    forall n | 1 <= n < |at|
      ensures Lookup(v, at[..n]) ==
              if Child(v, at[0]).Some? then Lookup(Child(v, at[0]).value, at[1..][..n - 1]) else None
    {
      assert at[..n][0] == at[0] && at[..n][1..] == at[1..][..n - 1];
    }
    if |at| > 1 && Child(v, at[0]).Some? {
      var child, rest := Child(v, at[0]).value, at[1..];
      PatchRefused(child, rest, path, replacement, fault);
      if m :| 0 <= m < |rest| && Lookup(child, rest[..m]).Some? &&
              Blocks(Lookup(child, rest[..m]).value, rest[m], m == |rest| - 1, path, replacement, fault) {
        assert Lookup(v, at[..m + 1]).Some? && rest[m] == at[m + 1];
      }
      if n :| 1 <= n < |at| && Lookup(v, at[..n]).Some? &&
              Blocks(Lookup(v, at[..n]).value, at[n], n == |at| - 1, path, replacement, fault) {
        assert rest[n - 1] == at[n] && Lookup(child, rest[..n - 1]).Some?;
      }
    }
  }

  /** Setting a value patches what the path reads as; a path that reads as nothing, or as the root, is refused. */
  lemma SetExactly(root: Value, path: string, replacement: Option<Value>, w: Value)
    ensures SetValue(root, path, replacement) == Ok(w) <==>
            exists at :: at != [] && ReadsAs(path, at) && PatchedTo(root, at, replacement, w)
    ensures SetValue(root, path, replacement) == Err(InvalidPath(path)) <==> forall at :: !ReadsAs(path, at)
    ensures SetValue(root, path, replacement) == Err(EmptyPath) <==> Dots(path)
  {
    forall at ensures Parse(path) == Some(at) <==> ReadsAs(path, at) {
      PathReads(path, at);
    }
    PathReads(path, []);
    if Parse(path).Some? && Parse(path).value != [] {
      var at := Parse(path).value;
      PatchExactly(root, at, path, replacement, w);
      if Patch(root, at, path, replacement).Err? {
        PatchRefused(root, at, path, replacement, Patch(root, at, path, replacement).error);
      }
    }
  }

  // ------------------------------------------------------------ one after another

  ghost predicate Advances(before: Value, after: Value, conflict: ConflictedField, choice: Choice) {
    match choice
    case Local => after == before
    case Remote => SetValue(before, conflict.path, conflict.remote) == Ok(after)
  }

  // The value before, between and after the conflicts.
  ghost predicate Resolves(
    states: seq<Value>, base: Value, conflicts: seq<ConflictedField>, choices: seq<Choice>)
  {
    && |conflicts| == |choices| && |states| == |conflicts| + 1 && states[0] == base
    && forall i :: 0 <= i < |conflicts| ==> Advances(states[i], states[i + 1], conflicts[i], choices[i])
  }

  lemma {:induction false} ResolvedStates(base: Value, conflicts: seq<ConflictedField>, choices: seq<Choice>)
    returns (states: seq<Value>)
    requires |conflicts| == |choices| && ResolveEach(base, conflicts, choices).Ok?
    ensures Resolves(states, base, conflicts, choices)
    ensures states[|conflicts|] == ResolveEach(base, conflicts, choices).value
    decreases |conflicts|
  {
    if conflicts == [] {
      states := [base];
    } else {
      var next := if choices[0] == Local then base
                  else SetValue(base, conflicts[0].path, conflicts[0].remote).value;
      var rest := ResolvedStates(next, conflicts[1..], choices[1..]);
      states := [base] + rest;
      forall i | 1 <= i < |conflicts|
        ensures conflicts[i] == conflicts[1..][i - 1] && choices[i] == choices[1..][i - 1]
        ensures states[i] == rest[i - 1] && states[i + 1] == rest[i]
      {
      }
    }
  }

  lemma {:induction false} StatesResolve(
    states: seq<Value>, base: Value, conflicts: seq<ConflictedField>, choices: seq<Choice>)
    requires Resolves(states, base, conflicts, choices)
    ensures ResolveEach(base, conflicts, choices) == Ok(states[|conflicts|])
    decreases |conflicts|
  {
    if conflicts != [] {
      forall i | 0 <= i < |conflicts| - 1
        ensures Advances(states[1..][i], states[1..][i + 1], conflicts[1..][i], choices[1..][i])
      {
        assert Advances(states[i + 1], states[i + 2], conflicts[i + 1], choices[i + 1]);
      }
      StatesResolve(states[1..], states[1], conflicts[1..], choices[1..]);
    }
  }

  /** Resolving is setting the remote value at each conflict it was chosen for, one after another. */
  lemma ResolvedExactly(base: Value, conflicts: seq<ConflictedField>, choices: seq<Choice>, w: Value)
    ensures Resolved(base, conflicts, choices) == Ok(w) <==>
            exists states :: Resolves(states, base, conflicts, choices) && states[|conflicts|] == w
    ensures Resolved(base, conflicts, choices) == Err(WrongChoiceCount(|conflicts|, |choices|)) <==>
            |conflicts| != |choices|
  {
    if |conflicts| == |choices| && ResolveEach(base, conflicts, choices).Ok? {
      var states := ResolvedStates(base, conflicts, choices);
    }
    forall states | Resolves(states, base, conflicts, choices)
      ensures ResolveEach(base, conflicts, choices) == Ok(states[|conflicts|])
    {
      StatesResolve(states, base, conflicts, choices);
    }
    if |conflicts| == |choices| {
      NoCountFault(base, conflicts, choices);
    }
  }

  lemma {:induction false} NoCountFault(base: Value, conflicts: seq<ConflictedField>, choices: seq<Choice>)
    requires |conflicts| == |choices|
    ensures var result := ResolveEach(base, conflicts, choices); result.Err? ==> !result.error.WrongChoiceCount?
    decreases |conflicts|
  {
    if conflicts != [] {
      if choices[0] == Local {
        NoCountFault(base, conflicts[1..], choices[1..]);
      } else {
        var (path, remote) := (conflicts[0].path, conflicts[0].remote);
        var patched := SetValue(base, path, remote);
        if patched.Ok? {
          NoCountFault(patched.value, conflicts[1..], choices[1..]);
        } else if Parse(path).Some? && Parse(path).value != [] {
          PatchRefused(base, Parse(path).value, path, remote, patched.error);
        }
      }
    }
  }
}
