/** The language of conflict paths, said without the parser: how numbers, words and ids spell a location. */
module PathGrammar {
  import opened Json
  import opened Locations

  // ----------------------------------------------------------------- numbers

  ghost predicate Zeros(s: string) {
    forall i :: 0 <= i < |s| ==> s[i] == '0'
  }

  /** A spelling of a number: a plus sign or none, zeros, and its decimal digits. */
  ghost predicate Spells(s: string, n: nat) {
    exists zeros :: Zeros(zeros) && (s == zeros + Decimal(n) || s == "+" + zeros + Decimal(n))
  }

  lemma {:induction false} LeadingZeros(zeros: string, s: string)
    requires Zeros(zeros) && forall c :: c in s ==> IsDigit(c)
    ensures forall c :: c in zeros + s ==> IsDigit(c)
    ensures DigitsValue(zeros + s) == DigitsValue(s)
  {
    var all := zeros + s;
    if s != "" {
      var last := |s| - 1;
      assert all[|all| - 1] == s[last] && all[..|all| - 1] == zeros + s[..last];
      LeadingZeros(zeros, s[..last]);
    } else if zeros != "" {
      var last := |zeros| - 1;
      assert all == zeros && all[..last] == zeros[..last] + "";
      LeadingZeros(zeros[..last], "");
    }
  }

  /** A digit put behind a number is its last digit, unless the number was zero. */
  lemma DigitBehind(value: nat, c: char)
    requires IsDigit(c)
    ensures var more := 10 * value + (c as int - '0' as int);
            Decimal(more) == if value == 0 then [c] else Decimal(value) + [c]
  {
    var digit := c as int - '0' as int;
    assert (10 * value + digit) % 10 == digit && (10 * value + digit) / 10 == value;
  }

  lemma ValueBehind(front: string, c: char)
    requires IsDigit(c) && forall d :: d in front ==> IsDigit(d)
    ensures forall d :: d in front + [c] ==> IsDigit(d)
    ensures DigitsValue(front + [c]) == 10 * DigitsValue(front) + (c as int - '0' as int)
  {
    assert (front + [c])[..|front|] == front;
  }

  // One digit more, behind zeros and a number.
  lemma ZerosBehind(zeros: string, value: nat, c: char) returns (more: string)
    requires Zeros(zeros) && IsDigit(c)
    ensures Zeros(more) && zeros + Decimal(value) + [c] == more + Decimal(10 * value + (c as int - '0' as int))
  {
    DigitBehind(value, c);
    if value == 0 {
      assert Decimal(0) == "0";
      more := zeros + "0";
    } else {
      more := zeros;
      assert zeros + Decimal(value) + [c] == zeros + (Decimal(value) + [c]);
    }
  }

  // What zeros and a number spell, with one digit more.
  lemma OneDigitMore(front: string, c: char, zeros: string) returns (more: string)
    requires IsDigit(c) && forall d :: d in front ==> IsDigit(d)
    requires Zeros(zeros) && front == zeros + Decimal(DigitsValue(front))
    ensures forall d :: d in front + [c] ==> IsDigit(d)
    ensures Zeros(more) && front + [c] == more + Decimal(DigitsValue(front + [c]))
  {
    ValueBehind(front, c);
    more := ZerosBehind(zeros, DigitsValue(front), c);
  }

  lemma OneDigit(c: char)
    requires IsDigit(c)
    ensures DigitsValue([c]) == c as int - '0' as int && Decimal(DigitsValue([c])) == [c]
  {
    assert [c][..0] == "";
    DigitBehind(0, c);
  }

  lemma {:induction false} ZerosThenDecimal(s: string) returns (zeros: string)
    requires s != "" && forall c :: c in s ==> IsDigit(c)
    ensures Zeros(zeros) && s == zeros + Decimal(DigitsValue(s))
  {
    var front, c := s[..|s| - 1], s[|s| - 1];
    assert s == front + [c] && IsDigit(c) && forall d :: d in front ==> IsDigit(d);
    if front == "" {
      OneDigit(c);
      zeros := "";
      assert s == [c] && "" + [c] == [c];
    } else {
      var before := ZerosThenDecimal(front);
      zeros := OneDigitMore(front, c, before);
    }
  }

  lemma SpellingReads(s: string, zeros: string, n: nat)
    requires Zeros(zeros) && (s == zeros + Decimal(n) || s == "+" + zeros + Decimal(n))
    ensures ParseUsize(s) == if n < USIZE_LIMIT then Some(n) else None
  {
    var spelled := zeros + Decimal(n);
    LeadingZeros(zeros, Decimal(n));
    DecimalValue(n);
    assert spelled[0] in spelled;
    if s != spelled {
      assert "+" + zeros + Decimal(n) == "+" + spelled;
      assert s[1..] == spelled;
    }
  }

  lemma ReadingSpells(s: string)
    requires ParseUsize(s).Some?
    ensures Spells(s, ParseUsize(s).value)
  {
    var digits := if |s| > 1 && s[0] == '+' then s[1..] else s;
    var zeros := ZerosThenDecimal(digits);
    if digits != s {
      assert s == "+" + digits;
      assert "+" + (zeros + Decimal(ParseUsize(s).value)) == "+" + zeros + Decimal(ParseUsize(s).value);
    }
  }

  /** A word is read as a number if and only if it spells one that fits. */
  lemma NumberReads(s: string, n: nat)
    ensures ParseUsize(s) == Some(n) <==> n < USIZE_LIMIT && Spells(s, n)
  {
    if ParseUsize(s) == Some(n) {
      ReadingSpells(s);
    }
    if Spells(s, n) {
      var zeros :| Zeros(zeros) && (s == zeros + Decimal(n) || s == "+" + zeros + Decimal(n));
      SpellingReads(s, zeros, n);
    }
  }

  // ------------------------------------------------------------------- paths

  ghost predicate Dots(s: string) {
    forall i :: 0 <= i < |s| ==> s[i] == '.'
  }

  /** A piece of a path that stands for one segment. */
  ghost predicate Denotes(s: string, segment: Segment) {
    match segment
    case Id(id) => ']' !in id && s == "[id=" + id + "]"
    case Index(n) => n < USIZE_LIMIT && Spells(s, n)
    case Key(key) =>
      s == key && key != "" && '.' !in key && '[' !in key && forall n: nat | n < USIZE_LIMIT :: !Spells(key, n)
  }

  // Behind dots a piece that ends at `j`; a key or number reaches to the next dot or bracket.
  ghost predicate Front(path: string, i: nat, j: nat, segment: Segment) {
    && i < j <= |path| && Dots(path[..i]) && Denotes(path[i..j], segment)
    && (segment.Id? || j == |path| || path[j] in {'.', '['})
  }

  /** One piece after another, with dots before, between and behind them. */
  ghost predicate ReadsAs(path: string, at: Location)
    decreases |at|
  {
    if at == [] then Dots(path)
    else
      exists i: nat, j: nat :: Front(path, i, j, at[0]) && ReadsAs(path[j..], at[1..])
  }

  lemma {:induction false} DotsSkipped(dots: string, rest: string)
    requires Dots(dots)
    ensures Parse(dots + rest) == Parse(rest)
  {
    if dots == "" {
      assert dots + rest == rest;
    } else {
      assert dots == [dots[0]] + dots[1..] && (dots + rest)[1..] == dots[1..] + rest;
      DotsSkipped(dots[1..], rest);
    }
  }

  lemma {:induction false} SpelledPlainly(s: string, n: nat)
    requires Spells(s, n)
    ensures s != "" && '.' !in s && '[' !in s
  {
  }

  lemma PieceReads(s: string, segment: Segment, rest: string)
    requires Denotes(s, segment) && (segment.Id? || rest == "" || rest[0] in {'.', '['})
    ensures Parse(s + rest) == Prepend(segment, Parse(rest))
  {
    match segment
    case Id(id) => IdParses(id, rest);
    case Index(n) =>
      SpelledPlainly(s, n);
      NumberReads(s, n);
      WordParses(s, rest);
    case Key(key) =>
      WordParses(s, rest);
      if ParseUsize(key).Some? {
        NumberReads(key, ParseUsize(key).value);
      }
  }

  lemma FirstReads(path: string, i: nat, j: nat, segment: Segment)
    requires Front(path, i, j, segment)
    ensures Parse(path) == Prepend(segment, Parse(path[j..]))
  {
    var piece, rest := path[i..j], path[j..];
    assert path == path[..i] + (piece + rest);
    DotsSkipped(path[..i], piece + rest);
    PieceReads(piece, segment, rest);
  }

  lemma PrependRest(at: Location)
    requires at != []
    ensures Prepend(at[0], Some(at[1..])) == Some(at)
  {
    assert at == [at[0]] + at[1..];
  }

  lemma {:induction false} ReadingParses(path: string, at: Location)
    requires ReadsAs(path, at)
    ensures Parse(path) == Some(at)
    decreases |at|
  {
    if at == [] {
      assert path + "" == path;
      DotsSkipped(path, "");
    } else {
      var i: nat, j: nat :| Front(path, i, j, at[0]) && ReadsAs(path[j..], at[1..]);
      FirstReads(path, i, j, at[0]);
      ReadingParses(path[j..], at[1..]);
      PrependRest(at);
    }
  }

  lemma WordDenotes(word: string)
    requires word != "" && '.' !in word && '[' !in word
    ensures Denotes(word, Word(word))
  {
    if ParseUsize(word).Some? {
      NumberReads(word, ParseUsize(word).value);
    } else {
      forall n: nat | n < USIZE_LIMIT ensures !Spells(word, n) {
        NumberReads(word, n);
      }
    }
  }

  lemma ReadsFirst(path: string, j: nat, segment: Segment, at: Location)
    requires 0 < j <= |path| && Denotes(path[..j], segment) && ReadsAs(path[j..], at)
    requires segment.Id? || j == |path| || path[j] in {'.', '['}
    ensures ReadsAs(path, [segment] + at)
  {
    var all := [segment] + at;
    assert path[0..j] == path[..j] && all[1..] == at && all[0] == segment;
    assert Front(path, 0, j, all[0]) && ReadsAs(path[j..], all[1..]);
  }

  lemma FrontBehindDot(path: string, i: nat, j: nat, segment: Segment)
    requires path != "" && path[0] == '.' && Front(path[1..], i, j, segment)
    ensures Front(path, i + 1, j + 1, segment) && path[j + 1..] == path[1..][j..]
  {
    var less := path[1..];
    assert path[..i + 1] == ['.'] + less[..i] && path[i + 1..j + 1] == less[i..j];
    assert j < |less| ==> less[j] == path[j + 1];
  }

  lemma ReadsBehindDot(path: string, at: Location)
    requires path != "" && path[0] == '.' && ReadsAs(path[1..], at)
    ensures ReadsAs(path, at)
  {
    if at == [] {
      assert path == [path[0]] + path[1..];
    } else {
      var i: nat, j: nat :| Front(path[1..], i, j, at[0]) && ReadsAs(path[1..][j..], at[1..]);
      FrontBehindDot(path, i, j, at[0]);
      assert Front(path, i + 1, j + 1, at[0]) && ReadsAs(path[j + 1..], at[1..]);
    }
  }

  lemma IdDenotes(path: string)
    requires "[id=" <= path && Find(path[4..], {']'}).Some?
    ensures var offset := Find(path[4..], {']'}).value;
            Denotes(path[..4 + offset + 1], Id(path[4..4 + offset]))
  {
    var behind := path[4..];
    var offset := Find(behind, {']'}).value;
    var id := path[4..4 + offset];
    assert id == behind[..offset] && path[4 + offset] == behind[offset];
    assert path[..4 + offset + 1] == path[..4] + id + [path[4 + offset]];
  }

  lemma {:induction false} ParsedReads(path: string)
    ensures Parse(path).Some? ==> ReadsAs(path, Parse(path).value)
    decreases |path|
  {
    if path == "" || Parse(path).None? {
    } else if path[0] == '.' {
      ParsedReads(path[1..]);
      ReadsBehindDot(path, Parse(path).value);
    } else if "[id=" <= path {
      ParseId(path);
      IdDenotes(path);
      var offset := Find(path[4..], {']'}).value;
      var j := 4 + offset + 1;
      ParsedReads(path[j..]);
      ReadsFirst(path, j, Id(path[4..4 + offset]), Parse(path[j..]).value);
    } else {
      var end := WordEnds(path);
      ParsedReads(path[end..]);
      ReadsFirst(path, end, Word(path[..end]), Parse(path[end..]).value);
    }
  }

  lemma WordEnds(path: string) returns (end: nat)
    requires path != "" && path[0] != '.' && !("[id=" <= path) && Parse(path).Some?
    ensures 0 < end <= |path| && Denotes(path[..end], Word(path[..end]))
    ensures end == |path| || path[end] in {'.', '['}
    ensures Parse(path) == Prepend(Word(path[..end]), Parse(path[end..]))
  {
    var stop := Find(path, {'.', '['});
    end := if stop.Some? then stop.value else |path|;
    var word := path[..end];
    ParseWord(path);
    forall c | c in word ensures c !in {'.', '['} {
      var k :| 0 <= k < |word| && word[k] == c;
      assert path[k] == c && c in path;
    }
    WordDenotes(word);
  }

  /** The parser returns a location if and only if the path reads as it, and refuses what reads as none. */
  lemma PathReads(path: string, at: Location)
    ensures Parse(path) == Some(at) <==> ReadsAs(path, at)
    ensures Parse(path) == None <==> forall p :: !ReadsAs(path, p)
  {
    ParsedReads(path);
    if ReadsAs(path, at) {
      ReadingParses(path, at);
    }
    if Parse(path).Some? {
      var p := Parse(path).value;
      assert ReadsAs(path, p);
    } else {
      forall p ensures !ReadsAs(path, p) {
        if ReadsAs(path, p) {
          ReadingParses(path, p);
        }
      }
    }
  }
}
