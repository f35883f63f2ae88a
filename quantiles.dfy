/**
 * Sorting of sample values and the linear-interpolation quantile rule shared
 * by the baseline script (pandas' default `Series.quantile`) and the Rust
 * accumulator (`NumericStats::get_quantile`). Values are exact reals: the
 * model has no rounding, no NaN and no infinities.
 */
module Quantiles {

  /** Ascending order, stated pairwise on neighbours; `SortedAt` gives any two positions. */
  ghost predicate Sorted(s: seq<real>) {
    |s| < 2 || (s[0] <= s[1] && Sorted(s[1..]))
  }

  lemma {:induction false} SortedAt(s: seq<real>, i: int, j: int)
    requires Sorted(s) && 0 <= i <= j < |s|
    ensures s[i] <= s[j]
  {
    if i < j {
      if i == 0 {
        SortedAt(s[1..], 0, j - 1);
      } else {
        SortedAt(s[1..], i - 1, j - 1);
      }
    }
  }

  function Insert(x: real, s: seq<real>): (r: seq<real>)
    ensures multiset(r) == multiset(s) + multiset{x}
    ensures forall y :: y in r ==> y == x || y in s
    ensures |r| == |s| + 1
  {
    if s == [] then [x]
    else if x <= s[0] then [x] + s
    else
      assert s == [s[0]] + s[1..];
      [s[0]] + Insert(x, s[1..])
  }

  lemma ConsSorted(a: real, t: seq<real>)
    requires Sorted(t) && (t == [] || a <= t[0])
    ensures Sorted([a] + t)
  {
    assert ([a] + t)[1..] == t;
  }

  /** Inserting into a sorted sequence keeps it sorted. */
  lemma {:induction false} InsertSorted(x: real, s: seq<real>)
    requires Sorted(s)
    ensures Sorted(Insert(x, s))
  {
    if s != [] && x > s[0] {
      InsertSorted(x, s[1..]);
      var t := Insert(x, s[1..]);
      assert t[0] in t;
      if t[0] != x {
        SortedAt(s, 0, 1);
      }
      ConsSorted(s[0], t);
    }
  }

  /** Ascending sort (the order `sort_by` with `partial_cmp` gives on finite values). */
  function Sort(s: seq<real>): (r: seq<real>)
    ensures Sorted(r)
    ensures multiset(r) == multiset(s)
    ensures |r| == |s|
  {
    if s == [] then []
    else
      assert s == [s[0]] + s[1..];
      var t := Sort(s[1..]);
      InsertSorted(s[0], t);
      Insert(s[0], t)
  }

  /**
   * Linear interpolation between closest ranks: with pos = q * (n - 1) and
   * idx = floor(pos), the value sorted[idx] * (1 - f) + sorted[idx + 1] * f
   * where f = pos - idx, or sorted[idx] when idx is the last index.
   */
  function Interpolate(sorted: seq<real>, q: real): real
    requires |sorted| > 0 && 0.0 <= q <= 1.0
  {
    RankBounds(q, |sorted|);
    InterpolateAt(sorted, Rank(q, |sorted|))
  }

  /** The fractional rank of quantile q among n samples. */
  function Rank(q: real, n: nat): real {
    q * (n - 1) as real
  }

  /** The interpolation at a fractional rank `pos`. */
  function InterpolateAt(sorted: seq<real>, pos: real): real
    requires |sorted| > 0 && 0.0 <= pos <= (|sorted| - 1) as real
  {
    var idx := pos.Floor;
    var frac := pos - idx as real;
    if idx + 1 < |sorted| then Lerp(sorted[idx], sorted[idx + 1], frac) else sorted[idx]
  }

  /** The point at fraction f of the way from a to b. */
  function Lerp(a: real, b: real, f: real): real {
    a * (1.0 - f) + b * f
  }

  lemma NonNegProduct(a: real, b: real)
    requires a >= 0.0 && b >= 0.0
    ensures a * b >= 0.0
  {}

  /** A fraction of a non-negative amount lies between zero and the amount. */
  lemma ScaleBelow(q: real, m: real)
    requires 0.0 <= q <= 1.0 && m >= 0.0
    ensures 0.0 <= q * m <= m
  {
    NonNegProduct(q, m);
    NonNegProduct(1.0 - q, m);
  }

  /** Every quantile in [0, 1] has a rank within the samples, and the rank grows with q. */
  lemma RankBounds(q: real, n: nat)
    requires 0.0 <= q <= 1.0 && n > 0
    ensures 0.0 <= Rank(q, n) <= (n - 1) as real
  {
    ScaleBelow(q, (n - 1) as real);
  }

  lemma RankMonotone(q1: real, q2: real, n: nat)
    requires 0.0 <= q1 <= q2 <= 1.0 && n > 0
    ensures 0.0 <= Rank(q1, n) <= Rank(q2, n) <= (n - 1) as real
  {
    var m := (n - 1) as real;
    ScaleBelow(q1, m);
    ScaleBelow(q2, m);
    NonNegProduct(q2 - q1, m);
    assert (q2 - q1) * m == q2 * m - q1 * m;
  }

  lemma ConvexBetween(a: real, b: real, f: real)
    requires a <= b && 0.0 <= f <= 1.0
    ensures a <= Lerp(a, b, f) <= b
  {
    assert Lerp(a, b, f) == a + (b - a) * f;
    ScaleBelow(f, b - a);
  }

  /** The interpolation at any rank lies between the smallest and the largest sample. */
  lemma InterpolateAtBounds(sorted: seq<real>, pos: real)
    requires |sorted| > 0 && 0.0 <= pos <= (|sorted| - 1) as real && Sorted(sorted)
    ensures sorted[0] <= InterpolateAt(sorted, pos) <= sorted[|sorted| - 1]
  {
    var n := |sorted|;
    var idx := pos.Floor;
    SortedAt(sorted, 0, idx);
    if idx + 1 < n {
      SortedAt(sorted, idx, idx + 1);
      SortedAt(sorted, idx + 1, n - 1);
      ConvexBetween(sorted[idx], sorted[idx + 1], pos - idx as real);
    } else {
      SortedAt(sorted, idx, n - 1);
    }
  }

  /** The interpolated value lies between the samples it interpolates, hence between the extremes. */
  lemma InterpolateBounds(sorted: seq<real>, q: real)
    requires |sorted| > 0 && 0.0 <= q <= 1.0 && Sorted(sorted)
    ensures sorted[0] <= Interpolate(sorted, q) <= sorted[|sorted| - 1]
  {
    RankBounds(q, |sorted|);
    InterpolateAtBounds(sorted, Rank(q, |sorted|));
  }

  /** q = 0 gives the smallest sample and q = 1 the largest. */
  lemma InterpolateEnds(sorted: seq<real>)
    requires |sorted| > 0
    ensures Interpolate(sorted, 0.0) == sorted[0]
    ensures Interpolate(sorted, 1.0) == sorted[|sorted| - 1]
  {
    var n := |sorted|;
    assert Rank(1.0, n).Floor == n - 1;
    assert Rank(0.0, n).Floor == 0;
  }

  /** Two ranks that fall between the same pair of samples. */
  lemma LerpMonotone(a: real, b: real, f1: real, f2: real)
    requires a <= b && f1 <= f2
    ensures Lerp(a, b, f1) <= Lerp(a, b, f2)
  {
    assert Lerp(a, b, f1) == a + (b - a) * f1;
    assert Lerp(a, b, f2) == a + (b - a) * f2;
    NonNegProduct(b - a, f2 - f1);
  }

  /** The interpolation is monotone in the rank. */
  lemma InterpolateAtMonotone(sorted: seq<real>, pos1: real, pos2: real)
    requires |sorted| > 0 && 0.0 <= pos1 <= pos2 <= (|sorted| - 1) as real && Sorted(sorted)
    ensures InterpolateAt(sorted, pos1) <= InterpolateAt(sorted, pos2)
  {
    var n := |sorted|;
    var i1, i2 := pos1.Floor, pos2.Floor;
    var f1, f2 := pos1 - i1 as real, pos2 - i2 as real;
    if i1 == i2 {
      if i1 + 1 < n {
        SortedAt(sorted, i1, i1 + 1);
        LerpMonotone(sorted[i1], sorted[i1 + 1], f1, f2);
      }
    } else {
      assert i1 + 1 < n;
      SortedAt(sorted, i1, i1 + 1);
      SortedAt(sorted, i1 + 1, i2);
      ConvexBetween(sorted[i1], sorted[i1 + 1], f1);
      assert InterpolateAt(sorted, pos1) <= sorted[i2];
      if i2 + 1 < n {
        SortedAt(sorted, i2, i2 + 1);
        ConvexBetween(sorted[i2], sorted[i2 + 1], f2);
      }
    }
  }

  /** The quantile is monotone in q. */
  lemma InterpolateMonotone(sorted: seq<real>, q1: real, q2: real)
    requires |sorted| > 0 && 0.0 <= q1 <= q2 <= 1.0 && Sorted(sorted)
    ensures Interpolate(sorted, q1) <= Interpolate(sorted, q2)
  {
    RankMonotone(q1, q2, |sorted|);
    InterpolateAtMonotone(sorted, Rank(q1, |sorted|), Rank(q2, |sorted|));
  }

  /** The median as pandas computes it: the middle sample, or the mean of the two middle samples. */
  function Median(sorted: seq<real>): real
    requires |sorted| > 0
  {
    var n := |sorted|;
    if n % 2 == 1 then sorted[n / 2] else (sorted[n / 2 - 1] + sorted[n / 2]) / 2.0
  }

  /** The median is the 0.5 quantile of the interpolation rule, so p50 == median. */
  lemma MedianIsHalfQuantile(sorted: seq<real>)
    requires |sorted| > 0
    ensures Median(sorted) == Interpolate(sorted, 0.5)
  {
    var n := |sorted|;
    var k := n / 2;
    var pos := Rank(0.5, n);
    if n % 2 == 1 {
      assert n == 2 * k + 1;
      assert pos == k as real;
      assert pos.Floor == k;
    } else {
      assert n == 2 * k;
      assert pos == (k - 1) as real + 0.5;
      assert pos.Floor == k - 1;
    }
  }

  /** The smallest value of a non-empty sequence, defined without sorting. */
  function Min(s: seq<real>): (m: real)
    requires |s| > 0
    ensures m in s && forall x :: x in s ==> m <= x
  {
    if |s| == 1 then s[0]
    else
      var m := Min(s[1..]);
      assert forall x :: x in s ==> x == s[0] || x in s[1..];
      if s[0] <= m then s[0] else m
  }

  /** The largest value of a non-empty sequence, defined without sorting. */
  function Max(s: seq<real>): (m: real)
    requires |s| > 0
    ensures m in s && forall x :: x in s ==> x <= m
  {
    if |s| == 1 then s[0]
    else
      var m := Max(s[1..]);
      assert forall x :: x in s ==> x == s[0] || x in s[1..];
      if s[0] >= m then s[0] else m
  }

  /** After sorting, the first value is the minimum and the last the maximum. */
  lemma SortedEnds(s: seq<real>)
    requires |s| > 0
    ensures Sort(s)[0] == Min(s)
    ensures Sort(s)[|s| - 1] == Max(s)
  {
    var r := Sort(s);
    var n := |s|;
    assert r[0] in multiset(r) && r[n - 1] in multiset(r);
    assert r[0] in s && r[n - 1] in s;
    assert Min(s) in multiset(r) && Max(s) in multiset(r);
    var i :| 0 <= i < n && r[i] == Min(s);
    var j :| 0 <= j < n && r[j] == Max(s);
    SortedAt(r, 0, i);
    SortedAt(r, j, n - 1);
  }

  function Sum(s: seq<real>): real {
    if s == [] then 0.0 else Sum(s[..|s| - 1]) + s[|s| - 1]
  }
}
