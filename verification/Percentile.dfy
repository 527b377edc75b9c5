// The interpolated percentile of the benchmark gate
// (scripts/dev-tools/benchmark_assert_slo.js, percentile).
module Percentile {

  // ---- sorting -----------------------------------------------------------

  ghost predicate Ascending(s: seq<real>) {
    forall i, j :: 0 <= i < j < |s| ==> s[i] <= s[j]
  }

  function Insert(x: real, s: seq<real>): seq<real> {
    if s == [] || x <= s[0] then [x] + s else [s[0]] + Insert(x, s[1..])
  }

  // A sorted copy.
  function Sorted(s: seq<real>): (r: seq<real>)
    ensures |r| == |s|
  {
    if s == [] then []
    else
      InsertLength(s[0], Sorted(s[1..]));
      Insert(s[0], Sorted(s[1..]))
  }

  lemma {:induction false} InsertLength(x: real, s: seq<real>)
    ensures |Insert(x, s)| == |s| + 1
  {
    if s != [] && s[0] < x { InsertLength(x, s[1..]); }
  }

  lemma {:induction false} InsertAdds(x: real, s: seq<real>)
    ensures multiset(Insert(x, s)) == multiset(s) + multiset{x}
  {
    if s != [] && s[0] < x {
      InsertAdds(x, s[1..]);
      assert s == [s[0]] + s[1..];
    }
  }

  lemma {:induction false} InsertSorts(x: real, s: seq<real>)
    requires Ascending(s)
    ensures Ascending(Insert(x, s))
    ensures forall k :: 0 <= k < |Insert(x, s)| ==> Insert(x, s)[k] == x || Insert(x, s)[k] in s
  {
    if s != [] && s[0] < x {
      var rest := Insert(x, s[1..]);
      InsertSorts(x, s[1..]);
      forall k | 0 <= k < |rest| ensures s[0] <= rest[k] {
        if rest[k] != x { var j :| 0 <= j < |s[1..]| && s[1..][j] == rest[k]; assert s[0] <= s[j + 1]; }
      }
      assert Insert(x, s) == [s[0]] + rest;
    }
  }

  lemma {:induction false} SortedSorts(s: seq<real>)
    ensures Ascending(Sorted(s)) && multiset(Sorted(s)) == multiset(s)
  {
    if s != [] {
      SortedSorts(s[1..]);
      InsertSorts(s[0], Sorted(s[1..]));
      InsertAdds(s[0], Sorted(s[1..]));
      assert s == [s[0]] + s[1..];
    }
  }

  lemma LeastIsFirst(a: seq<real>, b: seq<real>)
    requires Ascending(a) && a != [] && b != [] && multiset(a) == multiset(b)
    ensures a[0] <= b[0]
  {
    assert b[0] in multiset(b);
    assert b[0] in a;
    var k :| 0 <= k < |a| && a[k] == b[0];
  }

  lemma RestOf(a: seq<real>)
    requires a != []
    ensures multiset(a[1..]) == multiset(a) - multiset{a[0]}
    ensures Ascending(a) ==> Ascending(a[1..])
  {
    assert a == [a[0]] + a[1..];
  }

  // There is one ascending arrangement.
  lemma {:induction false} AscendingIsUnique(a: seq<real>, b: seq<real>)
    requires Ascending(a) && Ascending(b) && multiset(a) == multiset(b)
    ensures a == b
  {
    assert |a| == |multiset(a)| && |b| == |multiset(b)|;
    if a != [] {
      LeastIsFirst(a, b);
      LeastIsFirst(b, a);
      RestOf(a);
      RestOf(b);
      hide Ascending;
      AscendingIsUnique(a[1..], b[1..]);
      assert a == [a[0]] + a[1..] && b == [b[0]] + b[1..];
    }
  }

  // ---- the percentile ----------------------------------------------------

  // Linear interpolation at a fractional rank.
  function At(s: seq<real>, rank: real): real
    requires s != [] && 0.0 <= rank <= (|s| - 1) as real
  {
    var low := rank.Floor;
    if low as real == rank then s[low]
    else
      var weight := rank - low as real;
      s[low] * (1.0 - weight) + s[low + 1] * weight
  }

  function Rank(n: nat, p: real): (r: real)
    requires n >= 1 && 0.0 <= p <= 100.0
    ensures 0.0 <= r <= (n - 1) as real
  {
    RankInRange(n, p);
    p / 100.0 * (n - 1) as real
  }

  lemma RankInRange(n: nat, p: real)
    requires n >= 1 && 0.0 <= p <= 100.0
    ensures 0.0 <= p / 100.0 * (n - 1) as real <= (n - 1) as real
  {
    var q := p / 100.0;
    assert 0.0 <= q <= 1.0;
    ProductNotNegative(1.0 - q, (n - 1) as real);
  }

  function Percentile(values: seq<real>, p: real): real
    requires 0.0 <= p <= 100.0
  {
    if values == [] then 0.0
    else
      var sorted := Sorted(values);
      if |sorted| == 1 then sorted[0] else At(sorted, Rank(|sorted|, p))
  }

  // ---- what it guarantees ------------------------------------------------

  lemma ProductNotNegative(x: real, y: real)
    requires x >= 0.0 && y >= 0.0
    ensures x * y >= 0.0
  {
  }

  lemma Between(a: real, b: real, w: real)
    requires a <= b && 0.0 <= w <= 1.0
    ensures a <= a * (1.0 - w) + b * w <= b
  {
    assert a * (1.0 - w) + b * w == a + (b - a) * w;
    ProductNotNegative(b - a, w);
    ProductNotNegative(b - a, 1.0 - w);
    assert a * (1.0 - w) + b * w == b - (b - a) * (1.0 - w);
  }

  // The value at a rank lies between the entries on its two sides.
  lemma AtIsBetween(s: seq<real>, rank: real)
    requires Ascending(s) && s != [] && 0.0 <= rank <= (|s| - 1) as real
    ensures var low := rank.Floor;
            && 0 <= low < |s| && s[low] <= At(s, rank)
            && (low + 1 < |s| ==> At(s, rank) <= s[low + 1])
            && (low + 1 == |s| ==> At(s, rank) == s[low])
  {
    var low := rank.Floor;
    if low as real != rank { Between(s[low], s[low + 1], rank - low as real); }
  }

  lemma AtIsMonotone(s: seq<real>, r1: real, r2: real)
    requires Ascending(s) && s != [] && 0.0 <= r1 <= r2 <= (|s| - 1) as real
    ensures At(s, r1) <= At(s, r2)
  {
    AtIsBetween(s, r1);
    AtIsBetween(s, r2);
    var low := r1.Floor;
    if low == r2.Floor {
      if low + 1 < |s| {
        var w1, w2, gap := r1 - low as real, r2 - low as real, s[low + 1] - s[low];
        assert At(s, r1) == s[low] + gap * w1 && At(s, r2) == s[low] + gap * w2;
        ProductNotNegative(gap, w2 - w1);
        assert gap * w2 == gap * w1 + gap * (w2 - w1);
      }
    } else {
      assert s[low + 1] <= s[r2.Floor] || low + 1 == r2.Floor;
    }
  }

  // Between the smallest and the largest value.
  lemma PercentileIsBounded(values: seq<real>, p: real, min: real, max: real)
    requires values != [] && 0.0 <= p <= 100.0
    requires forall k :: 0 <= k < |values| ==> min <= values[k] <= max
    ensures min <= Percentile(values, p) <= max
  {
    var s := Sorted(values);
    SortedSorts(values);
    forall k | 0 <= k < |s| ensures min <= s[k] <= max {
      assert s[k] in multiset(s);
      assert s[k] in values;
    }
    if |s| > 1 { AtIsBetween(s, Rank(|s|, p)); }
  }

  // The ends of the scale are reached: the smallest value at 0, the largest at 100.
  lemma PercentileEnds(values: seq<real>)
    requires values != []
    ensures Percentile(values, 0.0) == Sorted(values)[0]
    ensures Percentile(values, 100.0) == Sorted(values)[|values| - 1]
  {
    var n := |values|;
    assert Rank(n, 0.0) == 0.0 && Rank(n, 100.0) == (n - 1) as real;
  }

  // The order of the input does not matter.
  lemma PercentileIgnoresOrder(a: seq<real>, b: seq<real>, p: real)
    requires multiset(a) == multiset(b) && 0.0 <= p <= 100.0
    ensures Percentile(a, p) == Percentile(b, p)
  {
    SortedSorts(a);
    SortedSorts(b);
    AscendingIsUnique(Sorted(a), Sorted(b));
  }

  // A higher percentile is never smaller, across rank boundaries too.
  lemma PercentileIsMonotone(values: seq<real>, p1: real, p2: real)
    requires 0.0 <= p1 <= p2 <= 100.0
    ensures Percentile(values, p1) <= Percentile(values, p2)
  {
    var n := |values|;
    if n > 1 {
      SortedSorts(values);
      var m := (n - 1) as real;
      ProductNotNegative(p2 / 100.0 - p1 / 100.0, m);
      assert Rank(n, p1) <= Rank(n, p2);
      AtIsMonotone(Sorted(values), Rank(n, p1), Rank(n, p2));
    }
  }

  // The point the share w along the way from a to b.
  function Line(a: real, b: real, w: real): real { a + w * (b - a) }

  // Where p falls the share w between the ranks k and k + 1, the percentile is on the
  // straight line between their values.
  lemma PercentileInterpolates(values: seq<real>, p: real, k: nat, w: real)
    requires 0.0 <= p <= 100.0 && k + 1 < |values| && 0.0 <= w <= 1.0
    requires p / 100.0 * (|values| - 1) as real == k as real + w
    ensures var s := Sorted(values);
            && Ascending(s) && multiset(s) == multiset(values)
            && Percentile(values, p) == Line(s[k], s[k + 1], w)
  {
    hide Line, Sorted, Ascending, At, Percentile;
    assert Rank(|values|, p) == k as real + w;
    hide *;
    SortedSorts(values);
    AtInterpolates(Sorted(values), k, w);
    PercentileIs(values, p);
  }

  lemma PercentileIs(values: seq<real>, p: real)
    requires |values| >= 2 && 0.0 <= p <= 100.0
    ensures Percentile(values, p) == At(Sorted(values), Rank(|values|, p))
  {
  }

  lemma AtInterpolates(s: seq<real>, k: nat, w: real)
    requires k + 1 < |s| && 0.0 <= w <= 1.0
    ensures 0.0 <= k as real + w <= (|s| - 1) as real
    ensures At(s, k as real + w) == Line(s[k], s[k + 1], w)
  {
    var x := k as real + w;
    if w == 1.0 {
      assert x.Floor == k + 1;
    } else {
      assert x.Floor == k && x - k as real == w;
      Weighted(s[k], s[k + 1], w);
      if w == 0.0 {
        assert At(s, x) == s[k];
      } else {
        assert At(s, x) == s[k] * (1.0 - w) + s[k + 1] * w;
      }
    }
  }

  lemma Weighted(a: real, b: real, w: real)
    ensures a * (1.0 - w) + b * w == a + w * (b - a)
  {
  }

  // No values give zero, and a single one is every percentile.
  lemma PercentileOfFew(x: real, p: real)
    requires 0.0 <= p <= 100.0
    ensures Percentile([], p) == 0.0 && Percentile([x], p) == x
  {
    assert Sorted([x]) == [x];
  }
}
