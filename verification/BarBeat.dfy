/** Positions in a project as bar, beat and sixteenth-note subbeat. */
module BarBeat {

  // A bar of `numerator` beats, each a `denominator`-th note.
  datatype TimeSig = TimeSig(numerator: nat, denominator: nat)

  // Bars and beats count from one, subbeats from zero.
  datatype Place = Place(bar: int, beat: int, subbeat: int)

  // Positions and lengths are in quarter notes.
  function BeatUnit(sig: TimeSig): real
    requires sig.denominator > 0
  {
    4.0 / sig.denominator as real
  }

  function BarLength(sig: TimeSig): real
    requires sig.denominator > 0
  {
    var length := sig.numerator as real * BeatUnit(sig);
    if length <= 0.0 then 4.0 else length
  }

  // The part of a number after its point, towards zero.
  function Fraction(x: real): real {
    if x >= 0.0 then x - x.Floor as real else x + (-x).Floor as real
  }

  // To the nearest integer, halves away from zero.
  function Round(x: real): int {
    if x >= 0.0 then (x + 0.5).Floor else -(-x + 0.5).Floor
  }

  function Clamp(low: int, x: int, high: int): int {
    if x < low then low else if x > high then high else x
  }

  function BeatInBar(beats: real, sig: TimeSig): real
    requires sig.denominator > 0
  {
    var length := BarLength(sig);
    var bar := (beats / length).Floor + 1;
    (beats - (bar - 1) as real * length) / BeatUnit(sig)
  }

  function PlaceOf(beats: real, sig: TimeSig): Place
    requires sig.denominator > 0
  {
    var beatInBar := BeatInBar(beats, sig);
    Place((beats / BarLength(sig)).Floor + 1, beatInBar.Floor + 1, Clamp(0, Round(Fraction(beatInBar) * 4.0), 3))
  }

  /** A bar without beats is a whole note long. */
  function BeatsPerBar(sig: TimeSig): nat {
    if sig.numerator == 0 then sig.denominator else sig.numerator
  }

  // How many beat units a place lies after the start.
  function Units(place: Place, sig: TimeSig): real {
    ((place.bar - 1) * BeatsPerBar(sig) + place.beat - 1) as real + place.subbeat as real / 4.0
  }

  predicate NotAfter(p: Place, q: Place) {
    p.bar < q.bar || (p.bar == q.bar && (p.beat < q.beat || (p.beat == q.beat && p.subbeat <= q.subbeat)))
  }

  lemma FloorOfQuotient(x: real, y: real)
    requires y > 0.0
    ensures var q := (x / y).Floor as real; q * y <= x < (q + 1.0) * y
  {
    var quotient := x / y;
    var q := quotient.Floor as real;
    assert quotient * y == x;
    Scaled(q, quotient, y);
    var next := q + 1.0;
    Larger(quotient, next, y);
    assert x < next * y;
    assert x < (q + 1.0) * y;
  }

  lemma Larger(x: real, y: real, scale: real)
    requires x < y && scale > 0.0
    ensures x * scale < y * scale
  {
    var more := y - x;
    assert more * scale > 0.0;
    assert y * scale == x * scale + more * scale;
  }

  lemma Scaled(x: real, y: real, scale: real)
    requires x <= y && scale >= 0.0
    ensures x * scale <= y * scale
  {
    assert (y - x) * scale >= 0.0;
  }

  lemma LengthInUnits(sig: TimeSig)
    requires sig.denominator > 0
    ensures BeatUnit(sig) > 0.0 && BarLength(sig) == BeatsPerBar(sig) as real * BeatUnit(sig) && BarLength(sig) > 0.0
  {
    assert BeatUnit(sig) * sig.denominator as real == 4.0;
    if sig.numerator > 0 {
      assert sig.numerator as real * BeatUnit(sig) > 0.0;
    }
  }

  // In beat units a position is whole bars and what is left of one.
  lemma Decomposed(beats: real, sig: TimeSig)
    requires sig.denominator > 0
    ensures var bars := (beats / BarLength(sig)).Floor;
            && beats / BeatUnit(sig) == (bars * BeatsPerBar(sig)) as real + BeatInBar(beats, sig)
            && 0.0 <= BeatInBar(beats, sig) < BeatsPerBar(sig) as real
  {
    LengthInUnits(sig);
    BarsAndRest(beats, BeatUnit(sig), BarLength(sig), BeatsPerBar(sig));
  }

  lemma BarsAndRest(beats: real, unit: real, length: real, n: nat)
    requires unit > 0.0 && length > 0.0 && length == n as real * unit
    ensures var bars := (beats / length).Floor;
            var left := (beats - bars as real * length) / unit;
            beats / unit == (bars * n) as real + left && 0.0 <= left < n as real
  {
    var bars := (beats / length).Floor;
    FloorOfQuotient(beats, length);
    InUnits(beats - bars as real * length, n as real, unit);
    Together(beats, bars, n, unit);
  }

  lemma InUnits(left: real, n: real, unit: real)
    requires unit > 0.0 && 0.0 <= left < n * unit
    ensures 0.0 <= left / unit < n
  {
    var inBar := left / unit;
    assert inBar * unit == left;
    if inBar >= n {
      Scaled(n, inBar, unit);
      assert false;
    }
  }

  lemma Together(beats: real, bars: int, n: nat, unit: real)
    requires unit > 0.0
    ensures beats / unit == (bars * n) as real + (beats - bars as real * (n as real * unit)) / unit
  {
    var whole := (bars * n) as real;
    assert whole == bars as real * n as real;
    assert whole * unit == bars as real * (n as real * unit);
    assert whole * unit / unit == whole;
  }

  /**
   * The beat is one of the bar's and the subbeat one of the beat's four; put
   * together they are less than a subbeat away from the position.
   */
  lemma PlaceIsNear(beats: real, sig: TimeSig)
    requires sig.denominator > 0
    ensures var place := PlaceOf(beats, sig);
            && 1 <= place.beat <= BeatsPerBar(sig) && 0 <= place.subbeat <= 3
            && -0.25 < beats / BeatUnit(sig) - Units(place, sig) < 0.25
  {
    Decomposed(beats, sig);
  }

  /** A later position never reads as an earlier place. */
  lemma PlacesInOrder(earlier: real, later: real, sig: TimeSig)
    requires sig.denominator > 0 && earlier <= later
    ensures NotAfter(PlaceOf(earlier, sig), PlaceOf(later, sig))
  {
    LengthInUnits(sig);
    Decomposed(earlier, sig);
    Decomposed(later, sig);
    var (length, unit) := (BarLength(sig), BeatUnit(sig));
    Divided(earlier, later, length);
    Divided(earlier, later, unit);
  }

  lemma Divided(x: real, y: real, scale: real)
    requires x <= y && scale > 0.0
    ensures x / scale <= y / scale
  {
    assert x / scale * scale == x && y / scale * scale == y;
  }

  // ------------------------------------------------------------------- exactly where

  /**
   * The place of a position counted in beat units: the bars and beats that are
   * over by then, and the nearest of the beat's four quarters, the last one for
   * what is nearest to the next beat.
   */
  predicate IsPlace(place: Place, units: real, beats: nat) {
    var whole := (place.bar - 1) * beats + place.beat - 1;
    var quarters := 4.0 * (units - whole as real);
    && 1 <= place.beat <= beats && 0 <= place.subbeat <= 3
    && whole as real <= units < whole as real + 1.0
    && place.subbeat as real - 0.5 <= quarters
    && (quarters < place.subbeat as real + 0.5 || place.subbeat == 3)
  }

  lemma UnitsOf(beats: real, sig: TimeSig)
    requires sig.denominator > 0
    ensures beats / BeatUnit(sig) == beats * sig.denominator as real / 4.0
  {
    var (unit, d) := (BeatUnit(sig), sig.denominator as real);
    assert unit * d == 4.0;
    var units := beats / unit;
    assert units * unit == beats;
    assert units * (unit * d) == (units * unit) * d;
  }

  lemma PlaceIs(beats: real, sig: TimeSig)
    requires sig.denominator > 0
    ensures IsPlace(PlaceOf(beats, sig), beats / BeatUnit(sig), BeatsPerBar(sig))
  {
    Decomposed(beats, sig);
    var inBar := BeatInBar(beats, sig);
    assert Fraction(inBar) == inBar - inBar.Floor as real;
  }

  lemma OnePlace(p: Place, q: Place, units: real, beats: nat)
    requires IsPlace(p, units, beats) && IsPlace(q, units, beats)
    ensures p == q
  {
    var (x, y) := ((p.bar - 1) * beats + p.beat - 1, (q.bar - 1) * beats + q.beat - 1);
    assert x == y;
    SameBar(p.bar - 1, p.beat - 1, q.bar - 1, q.beat - 1, beats);
  }

  lemma BarsOn(a: int, more: nat, n: nat)
    ensures (a + 1 + more) * n == a * n + n + more * n && more * n >= 0
  {
  }

  lemma SameBar(a: int, i: int, b: int, j: int, n: nat)
    requires a * n + i == b * n + j && 0 <= i < n && 0 <= j < n
    ensures a == b && i == j
  {
    if a < b {
      BarsOn(a, b - a - 1, n);
    } else if b < a {
      BarsOn(b, a - b - 1, n);
    }
  }

  /** A bar without beats is as long as a whole note; the place is the one such place there is. */
  lemma PlaceExactly(beats: real, sig: TimeSig, place: Place)
    requires sig.denominator > 0
    ensures PlaceOf(beats, sig) == place <==>
            IsPlace(place, beats * sig.denominator as real / 4.0,
                    if sig.numerator == 0 then sig.denominator else sig.numerator)
  {
    UnitsOf(beats, sig);
    PlaceIs(beats, sig);
    if IsPlace(place, beats / BeatUnit(sig), BeatsPerBar(sig)) {
      OnePlace(place, PlaceOf(beats, sig), beats / BeatUnit(sig), BeatsPerBar(sig));
    }
  }
}
