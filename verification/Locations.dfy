/** Conflict locations, the strings the merge prints for them, and the parser that reads them back. */
module Locations {
  import opened Json

  datatype Segment = Key(key: string) | Index(index: nat) | Id(id: string)

  type Location = seq<Segment>

  const USIZE_LIMIT: nat := 0x1_0000_0000_0000_0000

  // ---------------------------------------------------------------- numbers

  predicate IsDigit(c: char) {
    '0' <= c <= '9'
  }

  function Decimal(n: nat): (s: string)
    ensures s != "" && forall c :: c in s ==> IsDigit(c)
  {
    var digit := [(n % 10 + '0' as int) as char];
    if n < 10 then digit else Decimal(n / 10) + digit
  }

  function DigitsValue(s: string): nat
    requires forall c :: c in s ==> IsDigit(c)
  {
    if s == "" then 0
    else
      var last := |s| - 1;
      assert IsDigit(s[last]);
      assert forall c :: c in s[..last] ==> c in s;
      10 * DigitsValue(s[..last]) + (s[last] as int - '0' as int)
  }

  /** `str::parse::<usize>`: an optional plus sign and digits, without overflow. */
  function ParseUsize(s: string): Option<nat> {
    var digits := if |s| > 1 && s[0] == '+' then s[1..] else s;
    if digits == "" || exists c :: c in digits && !IsDigit(c) then None
    else if DigitsValue(digits) < USIZE_LIMIT then Some(DigitsValue(digits))
    else None
  }

  lemma {:induction false} DecimalValue(n: nat)
    ensures DigitsValue(Decimal(n)) == n
  {
    if n >= 10 {
      DecimalValue(n / 10);
      assert Decimal(n)[..|Decimal(n)| - 1] == Decimal(n / 10);
    } else {
      assert Decimal(n)[..0] == "";
    }
  }

  lemma DecimalParses(n: nat)
    ensures ParseUsize(Decimal(n)) == if n < USIZE_LIMIT then Some(n) else None
  {
    DecimalValue(n);
    assert Decimal(n)[0] in Decimal(n);
  }

  // --------------------------------------------------------------- printing

  function ChildPath(parent: string, key: string): string {
    if parent == "" then key else parent + "." + key
  }

  function Extend(parent: string, segment: Segment): string {
    match segment
    case Key(key) => ChildPath(parent, key)
    case Index(index) => parent + "." + Decimal(index)
    case Id(id) => parent + "[id=" + id + "]"
  }

  function Print(at: Location): string {
    if at == [] then "" else Extend(Print(at[..|at| - 1]), at[|at| - 1])
  }

  lemma PrintExtend(at: Location, segment: Segment)
    ensures Print(at + [segment]) == Extend(Print(at), segment)
  {
    assert (at + [segment])[..|at|] == at;
  }

  // ---------------------------------------------------------------- parsing

  /** The offset of the first character of `s` that belongs to `stops`. */
  function Find(s: string, stops: set<char>): (r: Option<nat>)
    ensures r.None? <==> forall c :: c in s ==> c !in stops
    ensures r.Some? ==> r.value < |s| && s[r.value] in stops
    ensures r.Some? ==> forall j :: 0 <= j < r.value ==> s[j] !in stops
  {
    if s == "" then None
    else if s[0] in stops then Some(0)
    else
      match Find(s[1..], stops)
      case None => None
      case Some(offset) => Some(offset + 1)
  }

  function Word(s: string): Segment {
    match ParseUsize(s)
    case Some(index) => Index(index)
    case None => Key(s)
  }

  /** The segments of a path, or None when the path is malformed. */
  function Parse(path: string): Option<Location>
    decreases |path|
  {
    if path == "" then Some([])
    else if path[0] == '.' then Parse(path[1..])
    else if "[id=" <= path then
      match Find(path[4..], {']'})
      case None => None
      case Some(offset) => Prepend(Id(path[4..4 + offset]), Parse(path[4 + offset + 1..]))
    else
      match Find(path, {'.', '['})
      case None => Prepend(Word(path), Some([]))
      case Some(end) => if end == 0 then None else Prepend(Word(path[..end]), Parse(path[end..]))
  }

  function Prepend(segment: Segment, rest: Option<Location>): Option<Location> {
    match rest
    case None => None
    case Some(segments) => Some([segment] + segments)
  }

  function After(done: Location, rest: Option<Location>): Option<Location> {
    match rest
    case None => None
    case Some(segments) => Some(done + segments)
  }

  lemma AfterNothing(rest: Option<Location>)
    ensures After([], rest) == rest
  {
    if rest.Some? {
      assert [] + rest.value == rest.value;
    }
  }

  lemma AfterPrepend(done: Location, segment: Segment, rest: Option<Location>)
    ensures After(done, Prepend(segment, rest)) == After(done + [segment], rest)
  {
    if rest.Some? {
      assert done + ([segment] + rest.value) == done + [segment] + rest.value;
    }
  }

  /** The cursor loop of the resolver; None stands for its "invalid conflict path" error. */
  method ConflictPathSegments(path: string) returns (result: Option<Location>)
    ensures result == Parse(path)
  {
    var segments: Location := [];
    var cursor := 0;
    Begins(path);
    while cursor < |path|
      invariant 0 <= cursor <= |path|
      invariant Continued(path, cursor, segments) == Parse(path)
    {
      if path[cursor] == '.' {
        PastDot(path, cursor, segments);
        cursor := cursor + 1;
      } else {
        var found := NextSegment(path[cursor..]);
        if found.None? {
          return None;
        }
        var (segment, size) := found.value;
        PastSegment(path, cursor, segments, segment, size);
        segments := segments + [segment];
        cursor := cursor + size;
      }
    }
    Ends(path, segments);
    result := Some(segments);
  }

  // What the whole path reads as, given the segments before the cursor.
  function Continued(path: string, cursor: nat, segments: Location): Option<Location>
    requires cursor <= |path|
  {
    After(segments, Parse(path[cursor..]))
  }

  lemma Begins(path: string)
    ensures Continued(path, 0, []) == Parse(path)
  {
    assert path[0..] == path;
    AfterNothing(Parse(path));
  }

  lemma PastDot(path: string, cursor: nat, segments: Location)
    requires cursor < |path| && path[cursor] == '.'
    ensures Continued(path, cursor + 1, segments) == Continued(path, cursor, segments)
  {
    assert path[cursor..][1..] == path[cursor + 1..];
  }

  lemma PastSegment(path: string, cursor: nat, segments: Location, segment: Segment, size: nat)
    requires cursor + size <= |path|
    requires Parse(path[cursor..]) == Prepend(segment, Parse(path[cursor..][size..]))
    ensures Continued(path, cursor + size, segments + [segment]) == Continued(path, cursor, segments)
  {
    assert path[cursor..][size..] == path[cursor + size..];
    AfterPrepend(segments, segment, Parse(path[cursor + size..]));
  }

  lemma Ends(path: string, segments: Location)
    ensures Continued(path, |path|, segments) == Some(segments)
  {
    assert path[|path|..] == "" && segments + [] == segments;
  }

  // The segment at the front of what is left of a path, and how much of it that takes.
  method NextSegment(rest: string) returns (found: Option<(Segment, nat)>)
    requires rest != "" && rest[0] != '.'
    ensures found.None? ==> Parse(rest) == None
    ensures found.Some? ==>
      && 0 < found.value.1 <= |rest|
      && Parse(rest) == Prepend(found.value.0, Parse(rest[found.value.1..]))
  {
    if "[id=" <= rest {
      var offset := Find(rest[4..], {']'});
      ParseId(rest);
      if offset.None? {
        return None;
      }
      return Some((Id(rest[4..4 + offset.value]), 4 + offset.value + 1));
    }
    var stop := Find(rest, {'.', '['});
    var end := if stop.Some? then stop.value else |rest|;
    ParseWord(rest);
    if end == 0 {
      return None;
    }
    found := Some((Word(rest[..end]), end));
  }

  lemma ParseId(rest: string)
    requires "[id=" <= rest
    ensures match Find(rest[4..], {']'})
            case None => Parse(rest) == None
            case Some(offset) =>
              Parse(rest) == Prepend(Id(rest[4..4 + offset]), Parse(rest[4 + offset + 1..]))
  {
    assert rest[0] == '[';
  }

  lemma ParseWord(rest: string)
    requires rest != "" && rest[0] != '.' && !("[id=" <= rest)
    ensures match Find(rest, {'.', '['})
            case None => Parse(rest) == Prepend(Word(rest[..|rest|]), Parse(rest[|rest|..]))
            case Some(end) =>
              if end == 0 then Parse(rest) == None else Parse(rest) == Prepend(Word(rest[..end]), Parse(rest[end..]))
  {
    assert rest[..|rest|] == rest && rest[|rest|..] == "";
  }

  // -------------------------------------------------------------- round trip

  predicate SafeKey(key: string) {
    key != "" && '.' !in key && '[' !in key && ParseUsize(key).None?
  }

  predicate Safe(segment: Segment) {
    match segment
    case Key(key) => SafeKey(key)
    case Index(index) => index < USIZE_LIMIT
    case Id(id) => ']' !in id
  }

  predicate SafeLocation(at: Location) {
    forall segment :: segment in at ==> Safe(segment)
  }

  // What one segment adds to a path, and the whole path built from the front,
  // which is how the parser reads it.
  function Piece(segment: Segment, first: bool): string {
    match segment
    case Key(key) => if first then key else "." + key
    case Index(index) => "." + Decimal(index)
    case Id(id) => "[id=" + id + "]"
  }

  function Text(at: Location, first: bool): string {
    if at == [] then "" else Piece(at[0], first) + Text(at[1..], false)
  }

  lemma {:induction false} TextAppend(at: Location, segment: Segment, first: bool)
    ensures Text(at + [segment], first) ==
            Text(at, first) + Text([segment], first && at == [])
  {
    if at == [] {
      assert at + [segment] == [segment];
    } else {
      assert (at + [segment])[1..] == at[1..] + [segment];
      TextAppend(at[1..], segment, false);
    }
  }

  lemma {:induction false} PrintIsText(at: Location)
    requires SafeLocation(at)
    ensures Print(at) == Text(at, true)
    ensures Print(at) == "" <==> at == []
  {
    if at != [] {
      var last := |at| - 1;
      assert at == at[..last] + [at[last]] && at[last] in at;
      PrintIsText(at[..last]);
      TextAppend(at[..last], at[last], true);
      ExtendIsPiece(Print(at[..last]), at[last]);
    }
  }

  lemma ExtendIsPiece(parent: string, segment: Segment)
    ensures Extend(parent, segment) == parent + Text([segment], parent == "")
    ensures Safe(segment) ==> Extend(parent, segment) != ""
  {
    TextOne(segment, parent == "");
    match segment
    case Key(key) => JoinThree(parent, ".", key);
    case Index(index) => JoinThree(parent, ".", Decimal(index));
    case Id(id) =>
      JoinThree(parent, "[id=" + id, "]");
      JoinThree(parent, "[id=", id);
  }

  lemma {:induction false} TextParses(at: Location, first: bool)
    requires SafeLocation(at)
    ensures Parse(Text(at, first)) == Some(at)
    decreases |at|
  {
    if at != [] {
      assert at == [at[0]] + at[1..] && at[0] in at;
      TextParses(at[1..], false);
      PieceParses(at[0], first, Text(at[1..], false));
    }
  }

  lemma PieceParses(segment: Segment, first: bool, rest: string)
    requires Safe(segment)
    requires rest == "" || rest[0] in {'.', '['}
    ensures Parse(Piece(segment, first) + rest) == Prepend(segment, Parse(rest))
  {
    match segment
    case Key(key) => KeyParses(key, first, rest);
    case Index(index) => IndexParses(index, rest);
    case Id(id) => IdParses(id, rest);
  }

  lemma KeyIsWord(key: string)
    requires SafeKey(key)
    ensures Word(key) == Key(key)
  {
  }

  lemma KeyParses(key: string, first: bool, rest: string)
    requires SafeKey(key)
    requires rest == "" || rest[0] in {'.', '['}
    ensures Parse((if first then key else "." + key) + rest) == Prepend(Key(key), Parse(rest))
  {
    WordParses(key, rest);
    KeyIsWord(key);
    if !first {
      DotSkipped(key + rest);
      assert "." + key + rest == "." + (key + rest);
    }
  }

  lemma IndexParses(index: nat, rest: string)
    requires index < USIZE_LIMIT
    requires rest == "" || rest[0] in {'.', '['}
    ensures Parse("." + Decimal(index) + rest) == Prepend(Index(index), Parse(rest))
  {
    var digits := Decimal(index);
    DecimalParses(index);
    WordParses(digits, rest);
    DotSkipped(digits + rest);
    JoinThree(".", digits, rest);
  }

  lemma DotSkipped(path: string)
    ensures Parse("." + path) == Parse(path)
  {
    assert ("." + path)[1..] == path;
  }

  lemma WordParses(word: string, rest: string)
    requires word != "" && '.' !in word && '[' !in word
    requires rest == "" || rest[0] in {'.', '['}
    ensures Parse(word + rest) == Prepend(Word(word), Parse(rest))
  {
    var path := word + rest;
    assert path[0] == word[0] && word[0] in word;
    assert rest != "" ==> path[|word|] == rest[0];
    assert forall j :: 0 <= j < |word| ==> path[j] == word[j] && word[j] in word;
    var stop := Find(path, {'.', '['});
    if rest == "" {
      assert path == word;
      assert forall c :: c in path ==> c !in {'.', '['};
    } else {
      assert path[|word|] in path;
      assert stop.Some? && stop.value == |word|;
      assert path[..|word|] == word && path[|word|..] == rest;
    }
  }

  lemma IdParses(id: string, rest: string)
    requires ']' !in id
    ensures Parse("[id=" + id + "]" + rest) == Prepend(Id(id), Parse(rest))
  {
    var path := "[id=" + id + "]" + rest;
    var end := |id| + 4;
    assert path[4..] == id + "]" + rest by {
      assert path == "[id=" + (id + "]" + rest);
    }
    FindBracket(id, rest);
    assert path[4..end] == id;
    assert path[end + 1..] == rest;
    assert path[..4] == "[id=";
  }

  lemma FindBracket(id: string, rest: string)
    requires ']' !in id
    ensures Find(id + "]" + rest, {']'}) == Some(|id|)
  {
    var inner := id + "]" + rest;
    assert forall j :: 0 <= j < |id| ==> inner[j] == id[j] && id[j] in id;
    assert inner[|id|] == ']' && inner[|id|] in inner;
  }

  lemma {:induction false} ParsedIsSafe(path: string)
    ensures Parse(path).Some? ==> SafeLocation(Parse(path).value)
    decreases |path|
  {
    if path != "" {
      if path[0] == '.' {
        ParsedIsSafe(path[1..]);
      } else if "[id=" <= path {
        var found := Find(path[4..], {']'});
        if found.Some? {
          ParsedIsSafe(path[4 + found.value + 1..]);
        }
      } else {
        var stop := Find(path, {'.', '['});
        if stop.Some? {
          if stop.value > 0 {
            ParsedIsSafe(path[stop.value..]);
          }
        }
      }
    }
  }

  /**
   * Printing then parsing gives the location back exactly when every key is
   * safe, every id is free of ']' and every index fits a usize.
   */
  lemma RoundTrip(at: Location)
    ensures Parse(Print(at)) == Some(at) <==> SafeLocation(at)
  {
    if SafeLocation(at) {
      PrintIsText(at);
      TextParses(at, true);
    } else {
      ParsedIsSafe(Print(at));
    }
  }

  /** Distinct safe locations are printed differently. */
  lemma PrintInjective(p: Location, q: Location)
    requires SafeLocation(p) && SafeLocation(q) && Print(p) == Print(q)
    ensures p == q
  {
    RoundTrip(p);
    RoundTrip(q);
  }

  // ------------------------------------------------- what an unsafe location reads as

  lemma {:induction false} TextStarts(at: Location)
    requires at != []
    ensures Text(at, false) != "" && Text(at, false)[0] in {'.', '['}
  {
    assert Text(at, false) == Piece(at[0], false) + Text(at[1..], false);
  }

  lemma ExtendBehind(parent: string, segment: Segment)
    requires parent != "" || !segment.Key?
    ensures Extend(parent, segment) == parent + Text([segment], false)
  {
    TextOne(segment, false);
  }

  lemma TextOne(segment: Segment, first: bool)
    ensures Text([segment], first) == Piece(segment, first)
  {
    assert [segment][1..] == [] && Piece(segment, first) + "" == Piece(segment, first);
  }

  // Behind something printed, or if no key comes first, what follows is printed as if by itself.
  lemma {:induction false} PrintTail(front: Location, rest: Location)
    requires rest != [] && (Print(front) != "" || !rest[0].Key?)
    ensures Print(front + rest) == Print(front) + Text(rest, false)
    decreases |rest|
  {
    var last := |rest| - 1;
    var less := rest[..last];
    assert front + rest == (front + less) + [rest[last]] && rest == less + [rest[last]];
    PrintExtend(front + less, rest[last]);
    PrintLess(front, less);
    if less == [] {
      assert front + less == front;
    } else {
      PrintTail(front, less);
    }
    ExtendBehind(Print(front + less), rest[last]);
    TextAppend(less, rest[last], false);
    JoinThree(Print(front), Text(less, false), Text([rest[last]], false));
  }

  lemma PrintLess(front: Location, less: Location)
    ensures less != [] ==> Text(less, false) != ""
    ensures less == [] ==> Text(less, false) == "" && front + less == front
  {
    if less != [] {
      TextStarts(less);
    }
  }

  lemma JoinThree(p: string, q: string, r: string)
    ensures p + (q + r) == p + q + r
  {
  }

  lemma {:induction false} SafeFrontParses(front: Location, rest: string, first: bool)
    requires SafeLocation(front) && (rest == "" || rest[0] in {'.', '['})
    ensures Parse(Text(front, first) + rest) == After(front, Parse(rest))
    decreases |front|
  {
    if front == [] {
      AfterNothing(Parse(rest));
      assert Text(front, first) + rest == rest;
    } else {
      var piece, text := Piece(front[0], first), Text(front[1..], false);
      assert front == [front[0]] + front[1..] && front[0] in front;
      SafeFrontParses(front[1..], rest, false);
      if front[1..] != [] {
        TextStarts(front[1..]);
      }
      assert text + rest == "" || (text + rest)[0] in {'.', '['};
      PieceParses(front[0], first, text + rest);
      JoinThree(piece, text, rest);
      AfterFirst(front[0], front[1..], Parse(rest));
    }
  }

  lemma AfterFirst(segment: Segment, done: Location, rest: Option<Location>)
    ensures Prepend(segment, After(done, rest)) == After([segment] + done, rest)
  {
    if rest.Some? {
      assert [segment] + (done + rest.value) == [segment] + done + rest.value;
    }
  }

  // Up to the first unsafe segment a location is read as it was meant.
  lemma FrontIsRead(front: Location, rest: Location)
    requires SafeLocation(front) && rest != [] && (front != [] || !rest[0].Key?)
    ensures Parse(Print(front + rest)) == After(front, Parse(Text(rest, false)))
  {
    PrintIsText(front);
    PrintTail(front, rest);
    TextStarts(rest);
    SafeFrontParses(front, Text(rest, false), true);
  }

  // An id reads as an id, if at all; an index beyond usize reads as a key.
  lemma KindIsRead(rest: Location)
    requires rest != [] && Parse(Text(rest, false)).Some?
    ensures rest[0].Id? ==> Parse(Text(rest, false)).value != [] && Parse(Text(rest, false)).value[0].Id?
    ensures rest[0].Index? && !Safe(rest[0]) ==>
      Parse(Text(rest, false)).value != [] && Parse(Text(rest, false)).value[0].Key?
  {
    var more := Text(rest[1..], false);
    if rest[1..] != [] {
      TextStarts(rest[1..]);
    }
    match rest[0]
    case Id(id) => IdIsRead(id, more);
    case Index(index) =>
      if index >= USIZE_LIMIT {
        IndexIsRead(index, more);
      }
    case Key(_) =>
  }

  lemma IdIsRead(id: string, more: string)
    ensures var read := Parse("[id=" + id + "]" + more);
            read.Some? ==> read.value != [] && read.value[0].Id?
  {
    var text := "[id=" + id + "]" + more;
    assert "[id=" <= text;
    ParseId(text);
  }

  lemma IndexIsRead(index: nat, more: string)
    requires index >= USIZE_LIMIT && (more == "" || more[0] in {'.', '['})
    ensures var read := Parse("." + Decimal(index) + more);
            read.Some? ==> read.value != [] && read.value[0].Key?
  {
    var digits := Decimal(index);
    DecimalParses(index);
    WordParses(digits, more);
    DotSkipped(digits + more);
    JoinThree(".", digits, more);
  }
}
