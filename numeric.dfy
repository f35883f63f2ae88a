/**
 * `NumericStats` of `src/wasm/src/stats/numeric.rs`: running count, sum,
 * minimum, maximum and mean, updated one value at a time, and the quantiles
 * computed at `finalize` from the sorted reservoir samples.
 *
 * Values are exact reals. The NaN/infinity guard of `update` and the
 * higher moments (m2, m3, m4, variance, std_dev, skewness, kurtosis) are not
 * part of this model.
 */
module Numeric {
  import opened Wrappers
  import opened Quantiles

  /** The quantile fields written by `finalize`. */
  datatype QuantileSet = QuantileSet(median: real, p25: real, p75: real, p90: real, p95: real, p99: real)

  /** The serialised fields of a `NumericStats` (what a clone carries over). */
  datatype NumericSummary = NumericSummary(
    count: nat, sum: real, min: Option<real>, max: Option<real>, mean: real, quantiles: QuantileSet)

  /** `get_quantile`: 0 for no samples, otherwise the linear interpolation. */
  function GetQuantile(sorted: seq<real>, q: real): real
    requires 0.0 <= q <= 1.0
  {
    if sorted == [] then 0.0 else Interpolate(sorted, q)
  }

  function QuantilesOf(sorted: seq<real>): QuantileSet {
    QuantileSet(
      GetQuantile(sorted, 0.5), GetQuantile(sorted, 0.25), GetQuantile(sorted, 0.75),
      GetQuantile(sorted, 0.9), GetQuantile(sorted, 0.95), GetQuantile(sorted, 0.99))
  }

  /** With no samples every quantile is 0. */
  lemma QuantilesOfEmpty()
    ensures QuantilesOf([]) == QuantileSet(0.0, 0.0, 0.0, 0.0, 0.0, 0.0)
  {}

  /**
   * Sorting first makes the quantiles ordered and bracketed by the extremes:
   * min <= p25 <= median <= p75 <= p90 <= p95 <= p99 <= max.
   */
  lemma QuantilesOrdered(samples: seq<real>)
    requires samples != []
    ensures var qs := QuantilesOf(Sort(samples));
      && Min(samples) <= qs.p25 <= qs.median <= qs.p75
      && qs.p75 <= qs.p90 <= qs.p95 <= qs.p99 <= Max(samples)
  {
    var sorted := Sort(samples);
    SortedEnds(samples);
    InterpolateBounds(sorted, 0.25);
    InterpolateBounds(sorted, 0.99);
    InterpolateMonotone(sorted, 0.25, 0.5);
    InterpolateMonotone(sorted, 0.5, 0.75);
    InterpolateMonotone(sorted, 0.75, 0.9);
    InterpolateMonotone(sorted, 0.9, 0.95);
    InterpolateMonotone(sorted, 0.95, 0.99);
  }

  /** The arithmetic mean, 0 for no values (the starting value of the field). */
  function MeanOf(values: seq<real>): real {
    if values == [] then 0.0 else Sum(values) / |values| as real
  }

  /** The incremental update `mean += (val - mean) / n`. */
  function NextMean(mean: real, val: real, n: nat): real
    requires n > 0
  {
    mean + (val - mean) / n as real
  }

  /** Over exact reals the incremental update keeps the mean equal to sum / count. */
  lemma IncrementalMean(values: seq<real>, val: real)
    ensures NextMean(MeanOf(values), val, |values| + 1) == MeanOf(values + [val])
  {
    var s := values + [val];
    assert s[..|s| - 1] == values;
    var n := |values| as real;
    var m := MeanOf(values);
    assert Sum(s) == Sum(values) + val;
    assert m * n == Sum(values) by {
      if values != [] {
        DivMul(Sum(values), n);
      }
    }
    calc {
      NextMean(m, val, |values| + 1);
      m + (val - m) / (n + 1.0);
      { DivAdd(m, val - m, n + 1.0); }
      (m * (n + 1.0) + (val - m)) / (n + 1.0);
      { assert m * (n + 1.0) + (val - m) == m * n + val; }
      (Sum(values) + val) / (n + 1.0);
    }
  }

  lemma DivMul(a: real, n: real)
    requires n != 0.0
    ensures (a / n) * n == a
  {}

  lemma DivAdd(m: real, d: real, k: real)
    requires k > 0.0
    ensures m + d / k == (m * k + d) / k
  {}

  lemma MinIs(s: seq<real>, m: real)
    requires m in s && forall y :: y in s ==> m <= y
    ensures Min(s) == m
  {}

  lemma MaxIs(s: seq<real>, m: real)
    requires m in s && forall y :: y in s ==> y <= m
    ensures Max(s) == m
  {}

  /** Appending a value: the new minimum is the smaller of the old one and the value. */
  lemma MinAppend(s: seq<real>, x: real)
    requires s != []
    ensures Min(s + [x]) == if x < Min(s) then x else Min(s)
    ensures Max(s + [x]) == if x > Max(s) then x else Max(s)
  {
    var t := s + [x];
    assert forall y :: y in t <==> y in s || y == x;
    MinIs(t, if x < Min(s) then x else Min(s));
    MaxIs(t, if x > Max(s) then x else Max(s));
  }

  /** The running statistics of `values`: count, sum, mean, and the extremes once there is a value. */
  ghost predicate Summarises(values: seq<real>, count: nat, sum: real, mean: real, min: Option<real>, max: Option<real>) {
    && count == |values|
    && sum == Sum(values)
    && mean == MeanOf(values)
    && (values == [] <==> min.None?)
    && (values == [] <==> max.None?)
    && (values != [] ==> min.value == Min(values) && max.value == Max(values))
  }

  class NumericStats {
    /** `None` stands for the infinite starting value (+inf for min, -inf for max). */
    var min: Option<real>
    var max: Option<real>
    var mean: real
    var sum: real
    var count: nat
    var median: real
    var p25: real
    var p75: real
    var p90: real
    var p95: real
    var p99: real
    /** Every value passed to `Update`, in order. */
    ghost var values: seq<real>

    ghost predicate Valid()
      reads this
    {
      Summarises(values, count, sum, mean, min, max)
    }

    /** The fields a clone copies. */
    function Summary(): (r: NumericSummary)
      reads this
      ensures r.count == count && r.sum == sum && r.min == min && r.max == max && r.mean == mean
    {
      NumericSummary(count, sum, min, max, mean, QuantileSet(median, p25, p75, p90, p95, p99))
    }

    constructor()
      ensures Valid() && values == []
      ensures count == 0 && sum == 0.0 && mean == 0.0 && min.None? && max.None?
      ensures median == p25 == p75 == p90 == p95 == p99 == 0.0
    {
      min, max := None, None;
      mean, sum, count := 0.0, 0.0, 0;
      median, p25, p75, p90, p95, p99 := 0.0, 0.0, 0.0, 0.0, 0.0, 0.0;
      values := [];
    }

    /** `update`: one more value; afterwards min <= val <= max. */
    method Update(val: real)
      requires Valid()
      modifies this
      ensures Valid() && values == old(values) + [val]
      ensures count == old(count) + 1 && sum == old(sum) + val
      ensures min.Some? && max.Some? && min.value <= val <= max.value
      ensures median == old(median) && p25 == old(p25) && p75 == old(p75)
      ensures p90 == old(p90) && p95 == old(p95) && p99 == old(p99)
    {
      IncrementalMean(values, val);
      if values != [] {
        MinAppend(values, val);
      }
      count := count + 1;
      sum := sum + val;
      if min.None? || val < min.value {
        min := Some(val);
      }
      if max.None? || val > max.value {
        max := Some(val);
      }
      mean := NextMean(mean, val, count);
      values := values + [val];
    }

    /**
     * `finalize`: sorts the samples ascending and, when there are any, stores
     * their quantiles. The running statistics are left as they are.
     */
    method Finalize(samples: seq<real>) returns (sorted: seq<real>)
      requires Valid()
      modifies this
      ensures Valid() && values == old(values)
      ensures count == old(count) && sum == old(sum) && mean == old(mean)
      ensures min == old(min) && max == old(max)
      ensures sorted == Sort(samples)
      ensures samples != [] ==>
        QuantileSet(median, p25, p75, p90, p95, p99) == QuantilesOf(sorted)
      ensures samples == [] ==>
        QuantileSet(median, p25, p75, p90, p95, p99) == old(QuantileSet(median, p25, p75, p90, p95, p99))
    {
      sorted := Sort(samples);
      if samples != [] {
        var qs := QuantilesOf(sorted);
        median, p25, p75, p90, p95, p99 := qs.median, qs.p25, qs.p75, qs.p90, qs.p95, qs.p99;
      }
    }
  }
}
