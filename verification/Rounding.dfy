// Python's round(x, 3) on exact reals: to the nearest thousandth, halves to even.
module Rounding {

  function HalfEven(r: real): int {
    var f := r.Floor;
    var d := r - f as real;
    if d < 0.5 || (d == 0.5 && f % 2 == 0) then f else f + 1
  }

  function Round3(x: real): real { HalfEven(x * 1000.0) as real / 1000.0 }

  predicate WholeMillis(x: real) { (x * 1000.0).Floor as real == x * 1000.0 }

  lemma HalfEvenIsNearest(r: real)
    ensures -0.5 <= HalfEven(r) as real - r <= 0.5
  {
  }

  lemma HalfEvenMonotone(a: real, b: real)
    requires a <= b
    ensures HalfEven(a) <= HalfEven(b)
    ensures b - a > 1.0 ==> HalfEven(a) < HalfEven(b)
  {
    assert a.Floor <= b.Floor;
  }

  lemma Round3IsNearest(x: real)
    ensures -0.0005 <= Round3(x) - x <= 0.0005
  {
    HalfEvenIsNearest(x * 1000.0);
  }

  lemma Round3Monotone(a: real, b: real)
    requires a <= b
    ensures Round3(a) <= Round3(b)
    ensures b - a > 0.001 ==> Round3(a) < Round3(b)
  {
    HalfEvenMonotone(a * 1000.0, b * 1000.0);
    assert b - a > 0.001 ==> b * 1000.0 - a * 1000.0 > 1.0;
  }

  lemma HalfEvenOfInt(n: int)
    ensures HalfEven(n as real) == n && (n as real).Floor == n
  {
  }

  // Rounding leaves whole milliseconds alone, and yields nothing else.
  lemma Round3FixesMillis(x: real)
    ensures WholeMillis(x) <==> Round3(x) == x
    ensures WholeMillis(Round3(x))
  {
    hide HalfEven;
    var n, f := HalfEven(x * 1000.0), (x * 1000.0).Floor;
    HalfEvenOfInt(n);
    HalfEvenOfInt(f);
    assert Round3(x) * 1000.0 == n as real;
  }

  lemma IsMillis(x: real, n: int)
    requires x * 1000.0 == n as real
    ensures WholeMillis(x)
  {
  }

  lemma MillisAddUp(a: real, b: real)
    requires WholeMillis(a) && WholeMillis(b)
    ensures WholeMillis(a + b) && WholeMillis(a - b)
  {
    var m, n := (a * 1000.0).Floor, (b * 1000.0).Floor;
    assert m as real == a * 1000.0 && n as real == b * 1000.0;
    hide WholeMillis;
    IsMillis(a + b, m + n);
    IsMillis(a - b, m - n);
  }

  // Half a millisecond still rounds to nothing.
  lemma Round3Positive(x: real)
    ensures Round3(x) > 0.0 <==> x > 0.0005
  {
  }

  // ---- what rounding does to a pair of times ------------------------------

  // The times that round to millisecond n: halves go to the even side.
  predicate RoundsTo(x: real, n: int) {
    || n as real - 0.5 < x * 1000.0 < n as real + 0.5
    || (n % 2 == 0 && (x * 1000.0 == n as real - 0.5 || x * 1000.0 == n as real + 0.5))
  }

  lemma RoundsToIs(x: real, n: int)
    ensures RoundsTo(x, n) <==> HalfEven(x * 1000.0) == n
  {
  }

  // Both times round to the same millisecond.
  ghost predicate SameMilli(s: real, e: real) { exists n :: RoundsTo(s, n) && RoundsTo(e, n) }

  lemma SameMilliIff(s: real, e: real)
    ensures SameMilli(s, e) <==> Round3(s) == Round3(e)
    ensures s <= e && SameMilli(s, e) ==> e - s <= 0.001
  {
    var n := HalfEven(s * 1000.0);
    RoundsToIs(s, n);
    RoundsToIs(e, n);
    hide HalfEven, RoundsTo;
    forall m | RoundsTo(s, m) && RoundsTo(e, m)
      ensures m == n
    {
      RoundsToIs(s, m);
    }
    if s <= e { Round3Monotone(s, e); }
  }

  // What rounding adds to a time, in milliseconds.
  function Residue(x: real): real { HalfEven(x * 1000.0) as real - x * 1000.0 }

  // The two times are rounded by amounts that differ by less than half a
  // millisecond, or by exactly half with an even number of milliseconds between them.
  predicate RoundedAlike(s: real, e: real) {
    var d := Residue(e) - Residue(s);
    || -0.5 < d < 0.5
    || ((d == 0.5 || d == -0.5) && (HalfEven(e * 1000.0) - HalfEven(s * 1000.0)) % 2 == 0)
  }

  // Exactly then the rounded distance is the distance of the rounded times.
  lemma RoundedAlikeIff(s: real, e: real)
    ensures RoundedAlike(s, e) <==> Round3(e - s) == Round3(e) - Round3(s)
  {
    var n := HalfEven(e * 1000.0) - HalfEven(s * 1000.0);
    RoundsToIs(e - s, n);
    assert (e - s) * 1000.0 == n as real - (Residue(e) - Residue(s));
    hide HalfEven;
  }
}
