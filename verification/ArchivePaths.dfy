/** Which archive paths are safe, character by character. */
module ArchivePaths {
  import opened Json
  import opened Dawproject

  // ------------------------------------------------------------------- components

  /** A part of a path from one slash, or an end, to the next. */
  predicate PartAt(path: string, i: nat, j: nat) {
    && i <= j <= |path|
    && (i == 0 || path[i - 1] == '/') && (j == |path| || path[j] == '/')
    && '/' !in path[i..j]
  }

  // Where the first part ends.
  function FirstEnd(path: string): (k: nat)
    ensures k <= |path| && '/' !in path[..k] && (k == |path| || path[k] == '/')
  {
    if path == "" || path[0] == '/' then 0
    else
      var k := FirstEnd(path[1..]) + 1;
      assert path[..k] == [path[0]] + path[1..][..k - 1];
      k
  }

  lemma {:induction false} ComponentsSplit(path: string)
    ensures var k := FirstEnd(path);
            Components(path) == [path[..k]] + if k == |path| then [] else Components(path[k + 1..])
  {
    if path == "" {
    } else if path[0] == '/' {
      assert path[..0] == "";
    } else {
      ComponentsSplit(path[1..]);
      var k := FirstEnd(path);
      assert path[..k] == [path[0]] + path[1..][..k - 1];
      if k < |path| {
        assert path[1..][k..] == path[k + 1..];
      }
    }
  }

  lemma FirstOrLater(path: string, part: string)
    ensures var k := FirstEnd(path);
            part in Components(path) <==> part == path[0..k] || (k < |path| && part in Components(path[k + 1..]))
  {
    var k := FirstEnd(path);
    ComponentsSplit(path);
    assert path[0..k] == path[..k];
  }

  lemma PartShifted(path: string, k: nat, i: nat, j: nat)
    requires k < |path| && path[k] == '/'
    ensures i <= j <= |path| - k - 1 ==> path[k + 1..][i..j] == path[k + 1 + i..k + 1 + j]
    ensures PartAt(path[k + 1..], i, j) <==> PartAt(path, k + 1 + i, k + 1 + j)
  {
    var rest := path[k + 1..];
    if i <= j <= |rest| {
      assert rest[i..j] == path[k + 1 + i..k + 1 + j];
      assert i > 0 ==> rest[i - 1] == path[k + i];
      assert j < |rest| ==> rest[j] == path[k + 1 + j];
    }
  }

  // A part starts at the beginning or behind the first slash.
  lemma PartsOf(path: string, i: nat, j: nat)
    requires PartAt(path, i, j)
    ensures var k := FirstEnd(path); (i == 0 && j == k) || k < i
  {
    var k := FirstEnd(path);
    assert forall n :: 0 <= n < k ==> path[..k][n] == path[n];
    assert forall n :: 0 <= n < j - i ==> path[i..j][n] == path[i + n];
  }

  lemma {:induction false} PartWhere(path: string, part: string) returns (i: nat, j: nat)
    requires part in Components(path)
    ensures PartAt(path, i, j) && path[i..j] == part
    decreases |path|
  {
    var k := FirstEnd(path);
    FirstOrLater(path, part);
    if part == path[0..k] {
      i, j := 0, k;
      assert path[0..k] == path[..k];
    } else {
      var m, n := PartWhere(path[k + 1..], part);
      i, j := k + 1 + m, k + 1 + n;
      PartShifted(path, k, m, n);
    }
  }

  lemma {:induction false} PartIsComponent(path: string, i: nat, j: nat, part: string)
    requires PartAt(path, i, j) && part == path[i..j]
    ensures part in Components(path)
    decreases |path|
  {
    var k := FirstEnd(path);
    PartsOf(path, i, j);
    FirstOrLater(path, part);
    if k < i {
      var rest, m, n := path[k + 1..], i - k - 1, j - k - 1;
      assert PartAt(rest, m, n) && part == rest[m..n] by {
        PartShifted(path, k, m, n);
      }
      PartIsComponent(rest, m, n, part);
    }
  }

  // Two dots between slashes or ends.
  predicate DotsAt(path: string, i: nat) {
    && i + 2 <= |path| && path[i] == '.' && path[i + 1] == '.'
    && (i == 0 || path[i - 1] == '/') && (i + 2 == |path| || path[i + 2] == '/')
  }

  lemma DotsExactly(path: string)
    ensures ".." in Components(path) <==> exists i: nat :: DotsAt(path, i)
  {
    if ".." in Components(path) {
      var i, j := PartWhere(path, "..");
      assert path[i..j][0] == path[i] && path[i..j][1] == path[i + 1] && j == i + 2;
      assert DotsAt(path, i);
    }
    if i: nat :| DotsAt(path, i) {
      assert path[i..i + 2] == "..";
      PartIsComponent(path, i, i + 2, "..");
    }
  }

  /**
   * A path is safe if and only if it is not empty, holds no backslash, does not
   * start at the root or with a lone dot, and nowhere has two dots for a part.
   */
  lemma SafePathExactly(path: string)
    ensures SafePath(path) <==>
            && path != "" && '\\' !in path
            && path[0] != '/' && path != "." && !("./" <= path)
            && forall i: nat :: !DotsAt(path, i)
  {
    if path != "" {
      FirstComponent(path);
      DotsExactly(path);
    }
  }

  lemma FirstComponent(path: string)
    requires path != ""
    ensures Components(path)[0] == "" <==> path[0] == '/'
    ensures Components(path)[0] == "." <==> path == "." || "./" <= path
  {
    var k := FirstEnd(path);
    ComponentsSplit(path);
    assert k == 0 <==> path[0] == '/';
    if path[..k] == "." {
      assert path[0] == path[..k][0] && k == 1;
    }
    if path == "." || "./" <= path {
      assert path[0] == '.' && path[..1] == ".";
      assert path[1..] == "" || path[1..][0] == '/';
    }
  }
}
