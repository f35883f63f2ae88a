/**
 * The reference statistics of `scripts/generate-baseline.py`: for every
 * column of a data frame, pandas' non-null count, null count and `nunique`,
 * then either the numeric summary (min, max, mean, median, five quantiles)
 * or, for any other dtype, the five most frequent values.
 *
 * A column is given with its dtype already decided (pandas' dtype detection
 * is not part of this model): a numeric column holds optional reals, any
 * other column optional strings (the `str(k)` of the script is then the
 * value itself). A missing cell is `None`.
 */
module Baseline {
  import opened Wrappers
  import opened Quantiles
  import opened Ranking

  datatype Column =
    | NumericColumn(name: string, numbers: seq<Option<real>>)
    | TextColumn(name: string, texts: seq<Option<string>>)

  /** A frame of `rows` rows; every column has one cell per row. */
  datatype DataFrame = DataFrame(rows: nat, columns: seq<Column>)

  function Height(c: Column): nat {
    if c.NumericColumn? then |c.numbers| else |c.texts|
  }

  ghost predicate WellFormed(df: DataFrame) {
    forall c :: c in df.columns ==> Height(c) == df.rows
  }

  ghost predicate NamesDistinct(df: DataFrame) {
    forall i, j :: 0 <= i < j < |df.columns| ==> df.columns[i].name != df.columns[j].name
  }

  /**
   * A statistic as written to the JSON file: `null` (Python's None), NaN, a
   * number, or the non-negative square root of a number (the standard
   * deviation, kept as the variance it is the root of).
   */
  datatype Stat = Null | NaN | Value(v: real) | Root(square: real)

  datatype Percentiles = Percentiles(p25: Stat, p50: Stat, p75: Stat, p90: Stat, p99: Stat)

  datatype NumericSummary = NumericSummary(
    min: Stat, max: Stat, mean: Stat, median: Stat, stdDev: Stat,
    quantiles: Option<Percentiles>)

  /** The two shapes a column entry can take: numeric statistics, or the top values. */
  datatype Shape = Numeric(summary: NumericSummary) | Text(topValues: seq<Entry>)

  datatype ColumnStats = ColumnStats(count: nat, missing: nat, distinct: nat, shape: Shape)

  /**
   * The output document: `total_rows` and the `columns` dictionary, given as
   * its (name, entry) pairs in insertion order.
   */
  datatype Stats = Stats(totalRows: nat, columns: seq<(string, ColumnStats)>)

  /** The entry a dictionary lookup of `name` finds. */
  function Lookup(entries: seq<(string, ColumnStats)>, name: string): Option<ColumnStats> {
    if entries == [] then None
    else if entries[0].0 == name then Some(entries[0].1)
    else Lookup(entries[1..], name)
  }

  ghost predicate KeysDistinct(entries: seq<(string, ColumnStats)>) {
    forall i, j :: 0 <= i < j < |entries| ==> entries[i].0 != entries[j].0
  }

  /** With distinct keys, looking up the key of any pair finds that pair's entry. */
  lemma {:induction false} LookupFinds(entries: seq<(string, ColumnStats)>, i: nat)
    requires KeysDistinct(entries) && i < |entries|
    ensures Lookup(entries, entries[i].0) == Some(entries[i].1)
  {
    if i > 0 {
      assert entries[0].0 != entries[i].0;
      assert entries[1..][i - 1] == entries[i];
      LookupFinds(entries[1..], i - 1);
    }
  }

  function TypeName(c: ColumnStats): string {
    if c.shape.Numeric? then "numeric" else "string"
  }

  // ---------------------------------------------------------------------
  // pandas building blocks

  /** The non-null values, in row order (what `count`, `min`, `value_counts` see). */
  function Present<T(!new)>(cells: seq<Option<T>>): (r: seq<T>)
    ensures |r| + Nulls(cells) == |cells|
    ensures forall x :: x in r <==> Some(x) in cells
  {
    if cells == [] then []
    else
      assert cells == [cells[0]] + cells[1..];
      if cells[0].Some? then [cells[0].value] + Present(cells[1..]) else Present(cells[1..])
  }

  /** `isnull().sum()`. */
  function Nulls<T>(cells: seq<Option<T>>): nat {
    if cells == [] then 0 else (if cells[0].None? then 1 else 0) + Nulls(cells[1..])
  }

  /** Number of occurrences of `v` in `s`. */
  function Occurrences<T(==)>(s: seq<T>, v: T): nat {
    if s == [] then 0
    else Occurrences(s[..|s| - 1], v) + (if s[|s| - 1] == v then 1 else 0)
  }

  ghost predicate NoDuplicates<T>(s: seq<T>) {
    forall i, j :: 0 <= i < j < |s| ==> s[i] != s[j]
  }

  /** The distinct values in order of first appearance (the order of `unique`). */
  function Distinct<T(==,!new)>(s: seq<T>): (r: seq<T>)
    ensures NoDuplicates(r)
    ensures forall x :: x in r <==> x in s
    ensures |r| <= |s|
  {
    if s == [] then []
    else
      var d := Distinct(s[..|s| - 1]);
      assert forall x :: x in s <==> x in s[..|s| - 1] || x == s[|s| - 1];
      if s[|s| - 1] in d then d else d + [s[|s| - 1]]
  }

  /** One (value, occurrences) entry per distinct value listed in `d`. */
  function Tally(d: seq<string>, s: seq<string>): (r: seq<Entry>)
    ensures |r| == |d|
    ensures forall i :: 0 <= i < |d| ==> r[i] == Entry(d[i], Occurrences(s, d[i]))
  {
    if d == [] then [] else [Entry(d[0], Occurrences(s, d[0]))] + Tally(d[1..], s)
  }

  /** `value_counts()`: descending counts; equal counts keep first-appearance order. */
  function ValueCounts(s: seq<string>): seq<Entry> {
    SortByCount(Tally(Distinct(s), s))
  }

  // ---------------------------------------------------------------------
  // One column

  /** `mean()`: the sum of the non-null values over their number. */
  function Average(vals: seq<real>): real
    requires vals != []
  {
    Sum(vals) / |vals| as real
  }

  /**
   * `std()`: pandas' sample standard deviation (one degree of freedom
   * removed), NaN for fewer than two values; written as the root of the
   * sample variance.
   */
  function StdDev(vals: seq<real>): (r: Stat)
    ensures |vals| < 2 <==> r.NaN?
    ensures r.Root? ==> r.square >= 0.0
  {
    if |vals| < 2 then NaN else Root(SampleVariance(vals))
  }

  /** The squared deviations of the values from `m`, summed. */
  function SquaredDeviations(vals: seq<real>, m: real): (r: real)
    ensures r >= 0.0
  {
    if vals == [] then 0.0
    else
      var d := vals[|vals| - 1] - m;
      SquaredDeviations(vals[..|vals| - 1], m) + d * d
  }

  function SampleVariance(vals: seq<real>): real
    requires |vals| >= 2
  {
    SquaredDeviations(vals, Average(vals)) / (|vals| - 1) as real
  }

  function NumericSummaryOf(numbers: seq<Option<real>>): (r: NumericSummary)
    ensures |numbers| == 0 <==> r.quantiles.None?
    ensures |numbers| == 0 ==> r.min == r.max == r.mean == r.median == r.stdDev == Null
    ensures |numbers| > 0 && Present(numbers) == [] ==> r.min == r.max == r.mean == r.median == r.stdDev == NaN
    ensures Present(numbers) != [] ==> r.min.Value? && r.max.Value? && r.mean.Value? && r.median.Value?
    ensures |Present(numbers)| == 1 ==> r.stdDev == NaN
    ensures |Present(numbers)| >= 2 ==> r.stdDev.Root? && r.stdDev.square >= 0.0
  {
    var vals := Present(numbers);
    if |numbers| == 0 then NumericSummary(Null, Null, Null, Null, Null, None)
    else if vals == [] then NumericSummary(NaN, NaN, NaN, NaN, NaN, Some(Percentiles(NaN, NaN, NaN, NaN, NaN)))
    else
      var sorted := Sort(vals);
      NumericSummary(
        Value(Min(vals)), Value(Max(vals)),
        Value(Average(vals)),
        Value(Median(sorted)),
        StdDev(vals),
        Some(Percentiles(
          Value(Interpolate(sorted, 0.25)), Value(Interpolate(sorted, 0.50)),
          Value(Interpolate(sorted, 0.75)), Value(Interpolate(sorted, 0.90)),
          Value(Interpolate(sorted, 0.99)))))
  }

  /** The entry `generate_stats` writes for one column. */
  function ColumnStatsOf(c: Column): (r: ColumnStats)
    ensures r.count + r.missing == Height(c)
    ensures r.distinct <= r.count
    ensures r.shape.Numeric? <==> c.NumericColumn?
    ensures TypeName(r) == (if c.NumericColumn? then "numeric" else "string")
  {
    match c
    case NumericColumn(_, numbers) =>
      var vals := Present(numbers);
      ColumnStats(|vals|, Nulls(numbers), |Distinct(vals)|, Numeric(NumericSummaryOf(numbers)))
    case TextColumn(_, texts) =>
      var vals := Present(texts);
      ColumnStats(|vals|, Nulls(texts), |Distinct(vals)|, Text(Top(ValueCounts(vals), 5)))
  }

  // ---------------------------------------------------------------------
  // The loop over the columns

  /**
   * The loop of `generate_stats`: one dictionary entry per column, keyed by the
   * column name and inserted in column order, holding `summarise(column)`.
   */
  method CollectColumns(df: DataFrame, summarise: Column -> ColumnStats) returns (stats: Stats)
    ensures stats.totalRows == df.rows && |stats.columns| == |df.columns|
    ensures forall i :: 0 <= i < |df.columns| ==> stats.columns[i] == (df.columns[i].name, summarise(df.columns[i]))
    ensures NamesDistinct(df) ==> KeysDistinct(stats.columns)
  {
    var columns: seq<(string, ColumnStats)> := [];
    var i := 0;
    while i < |df.columns|
      invariant 0 <= i <= |df.columns| && |columns| == i
      invariant forall j :: 0 <= j < i ==> columns[j] == (df.columns[j].name, summarise(df.columns[j]))
    {
      var col := df.columns[i];
      columns := columns + [(col.name, summarise(col))];
      i := i + 1;
    }
    stats := Stats(df.rows, columns);
  }

  /**
   * `generate_stats`: the column loop with the per-column statistics of
   * `ColumnStatsOf`; in a rectangular frame every entry accounts for every row.
   */
  method GenerateStats(df: DataFrame) returns (stats: Stats)
    ensures stats.totalRows == df.rows && |stats.columns| == |df.columns|
    ensures NamesDistinct(df) ==> forall i :: 0 <= i < |df.columns| ==>
      Lookup(stats.columns, df.columns[i].name) == Some(ColumnStatsOf(df.columns[i]))
    ensures WellFormed(df) ==> forall e :: e in stats.columns ==> e.1.count + e.1.missing == df.rows
  {
    stats := CollectColumns(df, ColumnStatsOf);
    if NamesDistinct(df) {
      forall i | 0 <= i < |df.columns|
        ensures Lookup(stats.columns, df.columns[i].name) == Some(ColumnStatsOf(df.columns[i]))
      {
        LookupFinds(stats.columns, i);
      }
    }
    if WellFormed(df) {
      forall e | e in stats.columns ensures e.1.count + e.1.missing == df.rows {
        var i :| 0 <= i < |stats.columns| && stats.columns[i] == e;
        assert df.columns[i] in df.columns;
      }
    }
  }

  // ---------------------------------------------------------------------
  // Properties of the numeric summary

  lemma {:induction false} SumAtLeast(s: seq<real>, lo: real)
    requires forall x :: x in s ==> lo <= x
    ensures |s| as real * lo <= Sum(s)
  {
    if s != [] {
      var init := s[..|s| - 1];
      assert forall x :: x in init ==> x in s;
      SumAtLeast(init, lo);
      assert s[|s| - 1] in s;
      assert |s| as real * lo == |init| as real * lo + lo;
    }
  }

  lemma {:induction false} SumAtMost(s: seq<real>, hi: real)
    requires forall x :: x in s ==> x <= hi
    ensures Sum(s) <= |s| as real * hi
  {
    if s != [] {
      var init := s[..|s| - 1];
      assert forall x :: x in init ==> x in s;
      SumAtMost(init, hi);
      assert s[|s| - 1] in s;
      assert |s| as real * hi == |init| as real * hi + hi;
    }
  }

  lemma DivideBounds(total: real, n: real, lo: real, hi: real)
    requires n > 0.0 && n * lo <= total <= n * hi
    ensures lo <= total / n <= hi
  {
    var m := total / n;
    assert total == n * m;
    assert n * (m - lo) >= 0.0;
    assert n * (hi - m) >= 0.0;
  }

  /** The mean lies between the smallest and the largest value. */
  lemma AverageBetween(vals: seq<real>)
    requires vals != []
    ensures Min(vals) <= Average(vals) <= Max(vals)
  {
    SumAtLeast(vals, Min(vals));
    SumAtMost(vals, Max(vals));
    DivideBounds(Sum(vals), |vals| as real, Min(vals), Max(vals));
  }

  lemma MeanBetween(numbers: seq<Option<real>>)
    requires Present(numbers) != []
    ensures var r := NumericSummaryOf(numbers); r.min.v <= r.mean.v <= r.max.v
  {
    AverageBetween(Present(numbers));
  }

  /** The squared deviations from `m` of values all equal to `m` vanish. */
  lemma {:induction false} SquaredDeviationsOfConstant(vals: seq<real>, m: real)
    requires forall i :: 0 <= i < |vals| ==> vals[i] == m
    ensures SquaredDeviations(vals, m) == 0.0
  {
    if vals != [] {
      SquaredDeviationsOfConstant(vals[..|vals| - 1], m);
    }
  }

  /** The mean of values all equal to `c` is `c`. */
  lemma AverageOfConstant(vals: seq<real>, c: real)
    requires vals != [] && forall i :: 0 <= i < |vals| ==> vals[i] == c
    ensures Average(vals) == c
  {
    assert forall x :: x in vals ==> x == c;
    SumAtLeast(vals, c);
    SumAtMost(vals, c);
    var n := |vals| as real;
    assert Sum(vals) == n * c;
    assert Sum(vals) / n == c;
  }

  /** Values that are all equal have standard deviation zero. */
  lemma StdDevOfConstant(vals: seq<real>)
    requires |vals| >= 2 && forall i :: 0 <= i < |vals| ==> vals[i] == vals[0]
    ensures StdDev(vals) == Root(0.0)
  {
    AverageOfConstant(vals, vals[0]);
    SquaredDeviationsOfConstant(vals, vals[0]);
  }

  /**
   * With at least one value: p50 is the median, and
   * min <= p25 <= p50 <= p75 <= p90 <= p99 <= max.
   */
  lemma QuantileChain(numbers: seq<Option<real>>)
    requires Present(numbers) != []
    ensures var r := NumericSummaryOf(numbers);
      && r.quantiles.Some?
      && r.quantiles.value.p50 == r.median
      && r.min.v <= r.quantiles.value.p25.v <= r.quantiles.value.p50.v <= r.quantiles.value.p75.v
      && r.quantiles.value.p75.v <= r.quantiles.value.p90.v <= r.quantiles.value.p99.v <= r.max.v
  {
    var vals := Present(numbers);
    var sorted := Sort(vals);
    MedianIsHalfQuantile(sorted);
    SortedEnds(vals);
    InterpolateBounds(sorted, 0.25);
    InterpolateBounds(sorted, 0.99);
    InterpolateMonotone(sorted, 0.25, 0.50);
    InterpolateMonotone(sorted, 0.50, 0.75);
    InterpolateMonotone(sorted, 0.75, 0.90);
    InterpolateMonotone(sorted, 0.90, 0.99);
  }

  // ---------------------------------------------------------------------
  // Properties of the top values

  lemma {:induction false} OccursWhenPresent<T>(s: seq<T>, v: T)
    requires v in s
    ensures Occurrences(s, v) >= 1
  {
    if s[|s| - 1] != v {
      assert v in s[..|s| - 1] by {
        var k :| 0 <= k < |s| && s[k] == v;
        assert s[..|s| - 1][k] == v;
      }
      OccursWhenPresent(s[..|s| - 1], v);
    }
  }

  lemma {:induction false} SumCountsAppend(a: seq<Entry>, b: seq<Entry>)
    ensures SumCounts(a + b) == SumCounts(a) + SumCounts(b)
  {
    if a == [] {
      assert a + b == b;
    } else {
      assert (a + b)[1..] == a[1..] + b;
      SumCountsAppend(a[1..], b);
    }
  }

  lemma {:induction false} TallyAppend(d: seq<string>, s: seq<string>, x: string)
    ensures SumCounts(Tally(d, s + [x])) == SumCounts(Tally(d, s)) + Occurrences(d, x)
  {
    if d != [] {
      assert (s + [x])[..|s|] == s;
      TallyAppend(d[1..], s, x);
      assert d == [d[0]] + d[1..];
      OccurrencesCons(d[0], d[1..], x);
    }
  }

  lemma {:induction false} OccurrencesCons<T>(a: T, s: seq<T>, v: T)
    ensures Occurrences([a] + s, v) == (if a == v then 1 else 0) + Occurrences(s, v)
  {
    if s != [] {
      assert ([a] + s)[..|s|] == [a] + s[..|s| - 1];
      OccurrencesCons(a, s[..|s| - 1], v);
    }
  }

  lemma {:induction false} OccursOnceInDistinct<T>(d: seq<T>, x: T)
    requires NoDuplicates(d)
    ensures Occurrences(d, x) == if x in d then 1 else 0
  {
    if d != [] {
      var init := d[..|d| - 1];
      assert x in d <==> x in init || x == d[|d| - 1];
      OccursOnceInDistinct(init, x);
    }
  }

  lemma {:induction false} TallyExtend(d: seq<string>, y: string, s: seq<string>)
    ensures SumCounts(Tally(d + [y], s)) == SumCounts(Tally(d, s)) + Occurrences(s, y)
  {
    assert Tally(d + [y], s) == Tally(d, s) + [Entry(y, Occurrences(s, y))];
    SumCountsAppend(Tally(d, s), [Entry(y, Occurrences(s, y))]);
  }

  lemma {:induction false} NotOccurring<T>(s: seq<T>, v: T)
    requires v !in s
    ensures Occurrences(s, v) == 0
  {
    if s != [] {
      assert forall x :: x in s[..|s| - 1] ==> x in s;
      NotOccurring(s[..|s| - 1], v);
    }
  }

  /** The counts of `value_counts` add up to the number of non-null values. */
  lemma {:induction false} TallyTotal(s: seq<string>)
    ensures SumCounts(Tally(Distinct(s), s)) == |s|
  {
    if s != [] {
      var init, x := s[..|s| - 1], s[|s| - 1];
      assert s == init + [x];
      var d := Distinct(init);
      TallyTotal(init);
      TallyAppend(d, init, x);
      OccursOnceInDistinct(d, x);
      if x !in d {
        TallyExtend(d, x, s);
        NotOccurring(init, x);
      }
    }
  }

  /** One ranked entry per distinct value, no value twice. */
  lemma TallyDistinct(vals: seq<string>)
    ensures |ValueCounts(vals)| == |Distinct(vals)|
    ensures DistinctKeys(ValueCounts(vals))
  {
    var d := Distinct(vals);
    var entries := Tally(d, vals);
    assert forall i, j :: 0 <= i < j < |entries| ==> entries[i].key == d[i] && entries[j].key == d[j];
    SortDistinct(entries);
    assert |multiset(ValueCounts(vals))| == |multiset(entries)|;
  }

  /** Every ranked entry is a value of the column with its number of occurrences. */
  lemma RankedEntriesCounted(vals: seq<string>)
    ensures forall e :: e in ValueCounts(vals) ==> e.key in vals && e.count == Occurrences(vals, e.key) >= 1
  {
    var d := Distinct(vals);
    var entries := Tally(d, vals);
    forall e | e in ValueCounts(vals)
      ensures e.key in vals && e.count == Occurrences(vals, e.key) >= 1
    {
      assert e in multiset(entries);
      var i :| 0 <= i < |entries| && entries[i] == e;
      assert d[i] in vals;
      OccursWhenPresent(vals, e.key);
    }
  }

  /** Every value of the column has its entry among the ranked entries. */
  lemma EveryValueRanked(vals: seq<string>, v: string)
    requires v in vals
    ensures Entry(v, Occurrences(vals, v)) in ValueCounts(vals)
  {
    var d := Distinct(vals);
    var i :| 0 <= i < |d| && d[i] == v;
    var entries := Tally(d, vals);
    assert entries[i] == Entry(v, Occurrences(vals, v));
    assert entries[i] in multiset(ValueCounts(vals));
  }

  /**
   * top_values: five entries, or `distinct` of them when there are fewer
   * distinct values, no value twice, counts non-increasing, each count the number of occurrences of its value (so at
   * least one), counts summing to at most `count`; a value left out occurs no
   * more often than any value listed.
   */
  lemma TopValuesFacts(texts: seq<Option<string>>, name: string)
    ensures var r := ColumnStatsOf(TextColumn(name, texts));
      && |r.shape.topValues| == (if r.distinct < 5 then r.distinct else 5)
      && DistinctKeys(r.shape.topValues)
      && NonIncreasing(r.shape.topValues)
      && SumCounts(r.shape.topValues) <= r.count
      && (forall e :: e in r.shape.topValues ==>
            Some(e.key) in texts && e.count == Occurrences(Present(texts), e.key) >= 1)
      && (forall v :: Some(v) in texts && v !in Keys(r.shape.topValues) ==>
            forall e :: e in r.shape.topValues ==> Occurrences(Present(texts), v) <= e.count)
  {
    var vals := Present(texts);
    var ranked := ValueCounts(vals);
    var top := Top(ranked, 5);
    TallyDistinct(vals);
    TallyTotal(vals);
    RankedEntriesCounted(vals);
    forall v | Some(v) in texts && v !in Keys(top)
      ensures forall e :: e in top ==> Occurrences(vals, v) <= e.count
    {
      EveryValueRanked(vals, v);
    }
  }
}
