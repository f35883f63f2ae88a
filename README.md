# datacert profiling core, modelled in Dafny

datacert profiles tabular data in the browser. A file is read chunk by chunk
as CSV, JSON (an array of objects or JSON Lines) or Avro. Each row goes to one
streaming profile per column and to a duplicate-row detector. When the input
ends, every column profile settles its inferred type, numeric summary,
quantiles, histogram and most frequent values. Quality rules then score
completeness, uniqueness, duplicate rows and likely personal data, and the
result is exported as JSON. A separate Python script computes the reference
("baseline") statistics with pandas.

This project models that core in Dafny and proves what it promises:

- the baseline statistics of `scripts/generate-baseline.py` (`baseline.dfy`,
  with the shared sorting and quantile rule in `quantiles.dfy` and the
  value-count ranking in `ranking.dfy`);
- the streaming accumulators of `src/wasm/src/stats`:
  - running numeric statistics and quantiles (`numeric.dfy`);
  - the bounded frequency map (`categorical.dfy`);
  - binning and the reservoir buffer (`histogram.dfy`);
  - the column profile and its type decision (`column.dfy`);
  - the profiler that routes rows (`profiler.dfy`);
  - the structure tree (`tree.dfy`);
- the quality rules of `src/wasm/src/quality`: `duplicates.dfy`,
  `completeness.dfy`, `uniqueness.dfy` and `patterns.dfy`;
- the JSON export (`export.dfy`, with its PII keyword test in `pii.dfy`);
- the input side of `src/wasm/src/parser`:
  - the CSV chunk parser (`csv.dfy`);
  - the row extractor (`extractor.dfy`);
  - the JSON / JSON Lines parser (`json.dfy`, on the JSON values of
    `json_value.dfy`);
  - Avro flattening (`avro.dfy`).

State that the source changes in place is modelled as classes with
`modifies` clauses:
- the accumulators, the column profile and the profiler;
- the duplicate detector;
- the CSV and JSON parsers and the row extractor;
- the tree nodes.

Each method is proved against a specification function, and that function's
properties are proved as lemmas. Pure code (the quality scores, the export,
the flatteners) is modelled as functions. Integers are unbounded and values
are exact reals.

Library calls are parameters of the model, not implementations:
- regular expressions;
- `serde_json` parsing and serialisation;
- the csv crate's record splitter;
- `str::parse::<f64>`;
- the clock.

## Model

| member | source | states |
|---|---|---|
| Baseline.LookupFinds | scripts/generate-baseline.py:45 | with distinct column names, looking up any column's name finds that column's entry |
| Baseline.Present | scripts/generate-baseline.py:20-21 | the non-null values and the null count together account for every cell, and the values are exactly the non-null cells |
| Baseline.Distinct | scripts/generate-baseline.py:22 | `nunique`: the distinct values, each once, no more than the values |
| Baseline.Tally | scripts/generate-baseline.py:42 | each listed value paired with its number of occurrences |
| Baseline.NumericSummaryOf | scripts/generate-baseline.py:25-38 | an empty series has null statistics and no quantiles; an all-null series has NaN statistics; a series with values has numeric min, max, mean and median; the standard deviation is NaN for a single value and the root of a non-negative sample variance for two or more |
| Baseline.StdDev | scripts/generate-baseline.py:31 | `std()` is NaN exactly when there are fewer than two values, otherwise the root of a non-negative sample variance (squared deviations over n - 1) |
| Baseline.SquaredDeviations | scripts/generate-baseline.py:31 | the summed squared deviations from a centre are never negative |
| Baseline.SquaredDeviationsOfConstant | scripts/generate-baseline.py:31 | values all equal to the centre have zero squared deviation |
| Baseline.AverageOfConstant | scripts/generate-baseline.py:29 | the mean of values all equal to `c` is `c` |
| Baseline.StdDevOfConstant | scripts/generate-baseline.py:31 | a constant series of two or more values has standard deviation 0 |
| Baseline.ColumnStatsOf | scripts/generate-baseline.py:16-45 | count + missing is the column height, distinct <= count, and the type is "numeric" exactly for a numeric column, "string" otherwise |
| Baseline.CollectColumns | scripts/generate-baseline.py:12-45 | `total_rows` is the row count and each column gets one entry, keyed by its name, in column order |
| Baseline.GenerateStats | scripts/generate-baseline.py:8-47 | each column's entry is found under its name, and in a rectangular frame every entry accounts for every row |
| Baseline.SumAtLeast | scripts/generate-baseline.py:29 | a sum of values at least `lo` is at least n * lo |
| Baseline.SumAtMost | scripts/generate-baseline.py:29 | a sum of values at most `hi` is at most n * hi |
| Baseline.DivideBounds | scripts/generate-baseline.py:29 | dividing bounds on a total by a positive count bounds the quotient |
| Baseline.AverageBetween | scripts/generate-baseline.py:27-29 | the mean lies between the smallest and the largest value |
| Baseline.MeanBetween | scripts/generate-baseline.py:27-29 | in a series with values, min <= mean <= max |
| Baseline.QuantileChain | scripts/generate-baseline.py:27-38 | with at least one value, p50 is the median and min <= p25 <= p50 <= p75 <= p90 <= p99 <= max |
| Baseline.OccursWhenPresent | scripts/generate-baseline.py:42 | a value of the series occurs at least once |
| Baseline.SumCountsAppend | scripts/generate-baseline.py:42 | counts of two lists of entries add up |
| Baseline.TallyAppend | scripts/generate-baseline.py:42 | one more value adds its multiplicity among the listed values to the total count |
| Baseline.OccurrencesCons | scripts/generate-baseline.py:42 | occurrences in a sequence with one more element in front |
| Baseline.OccursOnceInDistinct | scripts/generate-baseline.py:42 | in a duplicate-free list a value occurs once or not at all |
| Baseline.TallyExtend | scripts/generate-baseline.py:42 | listing one more value adds its occurrences to the total count |
| Baseline.NotOccurring | scripts/generate-baseline.py:42 | a value not in the series occurs zero times |
| Baseline.TallyTotal | scripts/generate-baseline.py:42 | the counts of `value_counts` add up to the number of non-null values |
| Baseline.TallyDistinct | scripts/generate-baseline.py:42 | `value_counts` has one entry per distinct value and no value twice |
| Baseline.RankedEntriesCounted | scripts/generate-baseline.py:42 | every ranked entry is a value of the column with its number of occurrences |
| Baseline.EveryValueRanked | scripts/generate-baseline.py:42 | every value of the column has its entry among the ranked entries |
| Baseline.TopValuesFacts | scripts/generate-baseline.py:40-43 | top_values: exactly min(5, distinct) entries, no value twice, counts non-increasing, each the occurrences of its value, summing to at most `count`; a value left out occurs no more often than any listed |
| Quantiles.SortedAt | src/wasm/src/stats/numeric.rs:94 | in a sorted sequence any earlier sample is at most any later one |
| Quantiles.Insert | src/wasm/src/stats/numeric.rs:94 | insertion adds exactly the one value to the samples |
| Quantiles.ConsSorted | src/wasm/src/stats/numeric.rs:94 | a value no larger than the head of a sorted sequence keeps it sorted in front |
| Quantiles.InsertSorted | src/wasm/src/stats/numeric.rs:94 | insertion into a sorted sequence keeps it sorted |
| Quantiles.Sort | src/wasm/src/stats/numeric.rs:94 | the sort yields a sorted permutation of the samples |
| Quantiles.Interpolate | src/wasm/src/stats/numeric.rs:106-118 | `get_quantile` on sorted samples: position q * (n - 1), linear interpolation between its neighbours; its properties are stated by InterpolateBounds, InterpolateEnds, InterpolateMonotone and MedianIsHalfQuantile |
| Quantiles.NonNegProduct | src/wasm/src/stats/numeric.rs:109 | the product of non-negative reals is non-negative |
| Quantiles.ScaleBelow | src/wasm/src/stats/numeric.rs:109 | `q * (n - 1)` with q in [0, 1] stays within [0, n - 1] |
| Quantiles.RankBounds | src/wasm/src/stats/numeric.rs:109-111 | the interpolation position lies within the sample indices |
| Quantiles.RankMonotone | src/wasm/src/stats/numeric.rs:109 | a larger q gives a position no smaller |
| Quantiles.ConvexBetween | src/wasm/src/stats/numeric.rs:114 | the interpolated value lies between its two neighbours |
| Quantiles.InterpolateAtBounds | src/wasm/src/stats/numeric.rs:106-118 | an interpolated quantile lies between the smallest and largest sample |
| Quantiles.InterpolateBounds | src/wasm/src/stats/numeric.rs:106-118 | every quantile of sorted samples lies between the first and last sample |
| Quantiles.InterpolateEnds | src/wasm/src/stats/numeric.rs:106-118 | the 0 quantile is the first sample and the 1 quantile the last |
| Quantiles.LerpMonotone | src/wasm/src/stats/numeric.rs:114 | interpolating further between ordered neighbours gives a value no smaller |
| Quantiles.InterpolateAtMonotone | src/wasm/src/stats/numeric.rs:106-118 | a later position gives a quantile no smaller, across sample boundaries |
| Quantiles.InterpolateMonotone | src/wasm/src/stats/numeric.rs:106-118 | quantiles are monotone in q |
| Quantiles.MedianIsHalfQuantile | scripts/generate-baseline.py:30-35 | the median (middle sample, or mean of the two middle ones) equals the 0.5 quantile, so the baseline's median and p50 agree |
| Quantiles.Median | scripts/generate-baseline.py:30 | `median()`: the middle sample, or the mean of the two middle ones; MedianIsHalfQuantile proves it is the 0.5 quantile |
| Quantiles.Min | scripts/generate-baseline.py:27 | the minimum is a sample no larger than any other |
| Quantiles.Max | scripts/generate-baseline.py:28 | the maximum is a sample no smaller than any other |
| Quantiles.SortedEnds | src/wasm/src/stats/numeric.rs:94 | after sorting the first sample is the minimum and the last the maximum |
| Categorical.WithPercentages | src/wasm/src/stats/categorical.rs:46-52 | each entry keeps its value and count and gets its share of the total count, times 100 |
| Categorical.Counted | src/wasm/src/stats/categorical.rs:36-43 | `update` on the map: a stored value is counted once more, a new one is stored with 1 while there is room and dropped otherwise; its effect is stated by CountedEffect, CountedSum and CountedBounded |
| Categorical.CountedEffect | src/wasm/src/stats/categorical.rs:36-43 | only the value's entry changes: it is counted once more when stored or when there was room, and the map never exceeds `max_unique` entries |
| Categorical.SumWithout | src/wasm/src/stats/categorical.rs:36-43 | the sum of the stored counts is any one count plus the sum of the others |
| Categorical.CountBelowSum | src/wasm/src/stats/categorical.rs:36-43 | a stored count is at most the sum of all stored counts |
| Categorical.CountedSum | src/wasm/src/stats/categorical.rs:36-43 | one update adds one to the sum of the stored counts when the value is stored, nothing when it is dropped |
| Categorical.SetCountSum | src/wasm/src/stats/categorical.rs:38-41 | setting one stored count changes the sum by that count in place of the old one |
| Categorical.CountedBounded | src/wasm/src/stats/categorical.rs:36-43 | an update keeps the invariant: at most `max_unique` values, counts between 1 and the total, the counts summing to at most the total |
| Categorical.CategoricalAccumulator.constructor | src/wasm/src/stats/categorical.rs:28-34 | an empty map, a zero total and the given capacity |
| Categorical.CategoricalAccumulator.Update | src/wasm/src/stats/categorical.rs:36-43 | the total rises by one and the map is updated as `Counted` says; the invariant holds: at most `max_unique` values, each stored count between 1 and the total, and the stored counts summing to at most the total |
| Categorical.CategoricalAccumulator.Finalize | src/wasm/src/stats/categorical.rs:45-60 | the unique count is the map's size; the top values are min(10, stored) distinct stored values, most frequent first, each with its count and share, and a value left out is no more frequent than any reported |
| Categorical.CategoricalAccumulator.CollectEntries | src/wasm/src/stats/categorical.rs:46-52 | one entry per stored value, no value twice, carrying its stored count |
| Categorical.CategoricalAccumulator.TopReported | src/wasm/src/stats/categorical.rs:54-57 | the first ten of the count-sorted, distinct entries, with their percentages, form the top report |
| Categorical.CategoricalAccumulator.PositiveTotal | src/wasm/src/stats/categorical.rs:50 | once a value is stored the total is positive, so the percentage division is defined |
| Ranking.Keys | scripts/generate-baseline.py:43 | the values of the ranked entries, in order |
| Ranking.InsertByCount | src/wasm/src/stats/categorical.rs:54 | inserting an entry into a ranking adds exactly that entry |
| Ranking.ConsNonIncreasing | src/wasm/src/stats/categorical.rs:54 | an entry with a count at least the head's keeps the ranking non-increasing |
| Ranking.InsertNonIncreasing | src/wasm/src/stats/categorical.rs:54 | insertion keeps a ranking non-increasing in count |
| Ranking.InsertDistinct | src/wasm/src/stats/categorical.rs:54 | inserting an entry with a new value keeps the values distinct |
| Ranking.ConsDistinct | src/wasm/src/stats/categorical.rs:54 | an entry with a new value in front keeps the values distinct |
| Ranking.InsertSum | src/wasm/src/stats/categorical.rs:54 | insertion adds the entry's count to the total count |
| Ranking.SortByCount | src/wasm/src/stats/categorical.rs:54 | the descending sort by count: non-increasing, a permutation, the same total count |
| Ranking.SortDistinct | src/wasm/src/stats/categorical.rs:54 | sorting keeps distinct values distinct |
| Ranking.PrefixSum | src/wasm/src/stats/categorical.rs:57 | the counts of a prefix add up to at most the total |
| Ranking.Top | src/wasm/src/stats/categorical.rs:54-57 | the first k of the ranking: min(k, n) entries, non-increasing, all from the input, distinct when the input is, none left out more frequent than one kept, and a total no larger than the input's |
| Ranking.TopOfSorted | src/wasm/src/stats/categorical.rs:54-57 | a prefix of a non-increasing permutation is non-increasing, holds entries of the input, keeps distinct values distinct, and anything left out is no more frequent than anything kept |
| Numeric.QuantilesOfEmpty | src/wasm/src/stats/numeric.rs:106-108 | with no samples every quantile is 0 |
| Numeric.GetQuantile | src/wasm/src/stats/numeric.rs:106-118 | 0 with no samples (QuantilesOfEmpty), otherwise the interpolated quantile, whose order is stated by QuantilesOrdered |
| Numeric.QuantilesOrdered | src/wasm/src/stats/numeric.rs:93-102 | after the sort, min <= p25 <= median <= p75 <= p90 <= p95 <= p99 <= max of the samples |
| Numeric.IncrementalMean | src/wasm/src/stats/numeric.rs:70-75 | the running update `mean += (val - mean) / n` gives the arithmetic mean of all values |
| Numeric.DivMul | src/wasm/src/stats/numeric.rs:70-75 | dividing and multiplying back by the count is the identity |
| Numeric.DivAdd | src/wasm/src/stats/numeric.rs:70-75 | adding a quotient equals the quotient of the scaled sum |
| Numeric.MinIs | src/wasm/src/stats/numeric.rs:67 | a member below every value is the minimum |
| Numeric.MaxIs | src/wasm/src/stats/numeric.rs:68 | a member above every value is the maximum |
| Numeric.MinAppend | src/wasm/src/stats/numeric.rs:67-68 | the minimum (maximum) after one more value is the value when it is smaller (larger), else unchanged |
| Numeric.NumericStats.Summary | src/wasm/src/stats/numeric.rs:121-144 | a clone carries the count, sum, extremes and mean |
| Numeric.NumericStats.constructor | src/wasm/src/stats/numeric.rs:36-57 | no values: count, sum, mean and every quantile 0, no extremes |
| Numeric.NumericStats.Update | src/wasm/src/stats/numeric.rs:59-79 | the value is counted and summed; min, max and mean remain the minimum, maximum and arithmetic mean of all values seen; the quantiles are untouched |
| Numeric.NumericStats.Finalize | src/wasm/src/stats/numeric.rs:81-104 | the running statistics are kept; with samples the quantile fields become the interpolated quantiles of the sorted samples, without samples they stay as they were |
| Histograms.BinIndex | src/wasm/src/stats/histogram.rs:28-31 | the bin of a value is always a valid bin index |
| Histograms.BinIndexInside | src/wasm/src/stats/histogram.rs:28-31 | a value inside bin b's interval [start, end) lands in bin b |
| Histograms.DivAtLeast | src/wasm/src/stats/histogram.rs:28 | a lower bound on a quotient by the bin width |
| Histograms.DivBelow | src/wasm/src/stats/histogram.rs:28 | an upper bound on a quotient by the bin width |
| Histograms.BinIndexOutside | src/wasm/src/stats/histogram.rs:28-31 | a value below the minimum lands in the first bin and one at or past the last edge in the last bin |
| Histograms.Counts | src/wasm/src/stats/histogram.rs:25-33 | one count per bin |
| Histograms.SumZeros | src/wasm/src/stats/histogram.rs:25 | the zeroed counts add up to 0 |
| Histograms.SumBump | src/wasm/src/stats/histogram.rs:32 | bumping one bin raises the total by one |
| Histograms.CountsTotal | src/wasm/src/stats/histogram.rs:25-33 | the bin counts add up to the number of values: each value is counted exactly once |
| Histograms.MakeBins | src/wasm/src/stats/histogram.rs:35-41 | one bin per count, carrying that count |
| Histograms.HistogramOf | src/wasm/src/stats/histogram.rs:19-49 | what `generate` returns; EmptyHistogram, HistogramCounts and HistogramEdges state its degenerate cases, its counts and its bin edges, and Generate is proved equal to it |
| Histograms.EmptyHistogram | src/wasm/src/stats/histogram.rs:20-22 | no bins exactly when there is no data, no bin, or min >= max, and then a zero bin width |
| Histograms.HistogramCounts | src/wasm/src/stats/histogram.rs:19-49 | otherwise there are `num_bins` bins of width (max - min) / num_bins whose counts add up to the number of values |
| Histograms.HistogramEdges | src/wasm/src/stats/histogram.rs:35-41 | the bins tile [min, max]: the first starts at min, the last ends at max, neighbours share an edge |
| Histograms.BinCounts | src/wasm/src/stats/histogram.rs:15 | the count of each bin, in order |
| Histograms.Generate | src/wasm/src/stats/histogram.rs:19-49 | the loop of `generate` builds the histogram `HistogramOf` specifies |
| Histograms.Pow2 | src/wasm/src/stats/histogram.rs:84 | powers of two are positive |
| Histograms.CeilLog2 | src/wasm/src/stats/histogram.rs:84 | `ceil(log2 n)`: the least k with 2^k >= n |
| Histograms.NumBins | src/wasm/src/stats/histogram.rs:82-87 | the bin count lies in 5..=50 and is 10 (then clamped) with no values |
| Histograms.NumBinsSturges | src/wasm/src/stats/histogram.rs:82-87 | between the clamps the bin count is Sturges' rule: 2^(n-2) < count <= 2^(n-1) |
| Histograms.ReservoirIndex | src/wasm/src/stats/histogram.rs:74 | the reservoir index, computed in wrapping 64-bit then `usize` arithmetic, is below the count |
| Histograms.LcgStep | src/wasm/src/stats/histogram.rs:74 | `count * 1103515245 + 12345` wrapped to 64 bits, so always below 2^64; ReservoirIndex and ModBelow bound the replacement index it yields |
| Histograms.ModBelow | src/wasm/src/stats/histogram.rs:74 | a remainder never exceeds the dividend |
| Histograms.HistogramAccumulator.constructor | src/wasm/src/stats/histogram.rs:60-66 | an empty buffer, a zero count and the given capacity |
| Histograms.HistogramAccumulator.Update | src/wasm/src/stats/histogram.rs:68-79 | the count rises by one; while there is room the value is appended, afterwards it replaces the sample at the reservoir index when that index is in range; the buffer holds only values seen, all of them while there is room |
| Histograms.HistogramAccumulator.Finalize | src/wasm/src/stats/histogram.rs:81-90 | the histogram of the buffer between the given extremes with the clamped Sturges bin count |
| ColumnProfiles.ParseI64 | src/wasm/src/stats/mod.rs:116 | `parse::<i64>`: an optional sign and at least one ASCII digit; a result lies in the signed 64-bit range and the text ends in a digit |
| ColumnProfiles.ParseI64Examples | src/wasm/src/stats/mod.rs:116 | "42", "-7" and "+5" parse; "", "-" and "4.5" do not |
| ColumnProfiles.IsMissingTrimmedMeaning | src/wasm/src/stats/mod.rs:98-102 | a cell is missing exactly when its trimmed text is empty or lower-cases to "null" or "n/a" |
| ColumnProfiles.IsMissing | src/wasm/src/stats/mod.rs:98-102 | a cell is missing when its trimmed text passes the test of IsMissingTrimmedMeaning; MissingPlusValid splits every column into missing and valid cells |
| ColumnProfiles.IsDate | src/wasm/src/stats/mod.rs:141-143 | `is_date`: contains '-' or '/', is at least 8 long and holds a digit; its place in the classification is stated by ClassifyRules |
| ColumnProfiles.IsBooleanWordMeaning | src/wasm/src/stats/mod.rs:129-133 | a boolean cell is one that lower-cases to "true", "false", "t" or "f" |
| ColumnProfiles.IsBooleanWord | src/wasm/src/stats/mod.rs:129-133 | the boolean word test, stated case-insensitively by IsBooleanWordMeaning |
| ColumnProfiles.ClassifyRules | src/wasm/src/stats/mod.rs:115-139 | integer, float, boolean, date: each kind is chosen exactly when the tests before it fail and its own test holds |
| ColumnProfiles.Classify | src/wasm/src/stats/mod.rs:115-139 | the kind `infer_and_update` gives a trimmed cell; ClassifyRules states when each kind is chosen |
| ColumnProfiles.InferTypeTable | src/wasm/src/stats/mod.rs:171-182 | each inferred type is chosen exactly when its counter reaches the valid count and no earlier row matched; String is left for mixed columns |
| ColumnProfiles.InferType | src/wasm/src/stats/mod.rs:171-182 | the decision table of `finalize`; InferTypeTable states each row as an if-and-only-if and InferredTypeOfKinds restates it in terms of the cells |
| ColumnProfiles.MostlyNumericIsMajority | src/wasm/src/stats/mod.rs:184 | the "potentially numeric" condition is a strict majority of numeric cells |
| ColumnProfiles.PositiveFactor | src/wasm/src/stats/mod.rs:184 | multiplying by a positive count keeps the sign of the share's excess over one half |
| ColumnProfiles.ValidCells | src/wasm/src/stats/mod.rs:98-104 | the trimmed non-missing cells, never more than the cells |
| ColumnProfiles.MissingPlusValid | src/wasm/src/stats/mod.rs:96-104 | every cell is either missing or valid: missing + valid = count |
| ColumnProfiles.KindsOf | src/wasm/src/stats/mod.rs:112 | one classification per valid cell |
| ColumnProfiles.KindsOfAt | src/wasm/src/stats/mod.rs:112 | the classification at position `i` is that of valid cell `i` |
| ColumnProfiles.TallyBounds | src/wasm/src/stats/mod.rs:115-139 | integers never exceed numbers, each valid cell bumps at most one of number, boolean and date, and one number is fed per numeric cell |
| ColumnProfiles.TallyAllNumbers | src/wasm/src/stats/mod.rs:115-127 | the integer (number) counter equals the cell count exactly when every cell is an integer (a number) |
| ColumnProfiles.TallyAllWords | src/wasm/src/stats/mod.rs:129-138 | the boolean (date) counter equals the cell count exactly when every cell is a boolean (a date) |
| ColumnProfiles.InferredTypeOfKinds | src/wasm/src/stats/mod.rs:171-182 | the inferred type in terms of the cells: Null for none, Integer/Boolean/Date when all cells are one, Numeric when all are numbers and some is a float, String otherwise |
| ColumnProfiles.FrequenciesStored | src/wasm/src/stats/mod.rs:106 | the frequency map holds only values that occurred and at most 1000 of them |
| ColumnProfiles.FrequenciesExact | src/wasm/src/stats/mod.rs:106 | a stored value's count is its number of occurrences; a value left out implies the map was full |
| ColumnProfiles.SetOf | src/wasm/src/stats/mod.rs:105 | the distinct-value sketch holds exactly the values seen |
| ColumnProfiles.LengthsExtend | src/wasm/src/stats/mod.rs:108-110 | after one more value the length bounds are the shortest and longest length of all values |
| ColumnProfiles.ProfileOfSnoc | src/wasm/src/stats/mod.rs:95-113 | the profile of one more cell is one `update` step on the profile of the earlier cells |
| ColumnProfiles.ProfileOfCounts | src/wasm/src/stats/mod.rs:95-104 | count is the number of cells, missing the missing ones, total_valid the others, and the frequency total equals total_valid |
| ColumnProfiles.ProfileOfValues | src/wasm/src/stats/mod.rs:105-106 | the sketch is exactly the set of valid values and the frequency map is theirs |
| ColumnProfiles.ProfileOfLengths | src/wasm/src/stats/mod.rs:108-110 | the length bounds are the shortest and longest valid value, or none |
| ColumnProfiles.ProfileOfKinds | src/wasm/src/stats/mod.rs:112-156 | the type counters and the numbers fed are those of the valid cells' classifications |
| ColumnProfiles.ProfileOfCounters | src/wasm/src/stats/mod.rs:115-139 | the counters never exceed what they count and one number is fed per numeric cell |
| ColumnProfiles.ColumnProfile.constructor | src/wasm/src/stats/mod.rs:67-93 | zero counts, type Null, no numeric, categorical or histogram result, no notes |
| ColumnProfiles.ColumnProfile.Update | src/wasm/src/stats/mod.rs:95-113 | the cell is appended and the tracked state is the one all cells so far produce; the finalized fields are untouched |
| ColumnProfiles.ColumnProfile.UpdateFields | src/wasm/src/stats/mod.rs:95-113 | one `update` moves the tracked state by one step |
| ColumnProfiles.ColumnProfile.UpdateValid | src/wasm/src/stats/mod.rs:104-112 | a valid trimmed cell is recorded and then classified |
| ColumnProfiles.ColumnProfile.RecordValid | src/wasm/src/stats/mod.rs:104-110 | the count and total_valid rise, the value reaches the sketch and the frequency map, and the length bounds widen |
| ColumnProfiles.ColumnProfile.InferAndUpdate | src/wasm/src/stats/mod.rs:115-139 | the counter of the cell's kind is bumped (an integer also as a number) and a number feeds the numeric accumulators |
| ColumnProfiles.ColumnProfile.UpdateNumeric | src/wasm/src/stats/mod.rs:145-156 | the accumulators are put in use on the first number and both receive the value |
| ColumnProfiles.ColumnProfile.Finalize | src/wasm/src/stats/mod.rs:158-188 | the distinct count is the sketch size, the categorical report ranks the stored values, a numeric column gets the quantiles and histogram of its sample buffer, the type follows the decision table, and the note is added exactly for a mostly numeric mixed column |
| ColumnProfiles.ColumnProfile.SettleSummary | src/wasm/src/stats/mod.rs:159-160 | the distinct count, the categorical report (at most ten distinct stored values, most frequent first, each with its count and share), the inferred type and the note |
| ColumnProfiles.ColumnProfile.FinalizeNumeric | src/wasm/src/stats/mod.rs:162-169 | with a number seen, the quantiles come from the sorted buffer and the histogram spans the minimum to the maximum |
| ColumnProfiles.ColumnProfile.Report | src/wasm/src/stats/mod.rs:43-64 | a clone carries the name, base statistics and notes, and numeric statistics exactly when a number was seen |
| Profiling.ColumnCells | src/wasm/src/stats/profiler.rs:36-43 | the cells one column receives: cell `i` of every row long enough to have one, at most one per row |
| Profiling.ColumnCellsSnoc | src/wasm/src/stats/profiler.rs:38-42 | one more row adds its cell `i` to column `i`, or nothing when the row is too short |
| Profiling.ColumnCellsSnocAll | src/wasm/src/stats/profiler.rs:38-42 | the same step for every column at once |
| Profiling.ColumnCellsFull | src/wasm/src/stats/profiler.rs:36-43 | when every row is wide enough, column `i` is exactly cell `i` of each row in row order |
| Profiling.UpdateSealed | src/wasm/src/stats/profiler.rs:40 | a profile's update appends the value to the cells it has seen and keeps it well formed |
| Profiling.SmallRemainder | src/wasm/src/stats/profiler.rs:40 | a row count below the `usize` range does not wrap to zero |
| Profiling.NewProfiles | src/wasm/src/stats/profiler.rs:20-22 | one empty profile per header, named after it, sharing no state with the others |
| Profiling.FinalizeSealed | src/wasm/src/stats/profiler.rs:47-49 | a finalized profile reports its name, cell count, missing count and distinct valid values |
| Profiling.Profiler.constructor | src/wasm/src/stats/profiler.rs:19-30 | profiles in header order, no rows, a fresh duplicate detector |
| Profiling.Profiler.Feed | src/wasm/src/stats/profiler.rs:40 | one cell reaches profile `i` only; other profiles and the detector are unchanged |
| Profiling.Profiler.FeedRow | src/wasm/src/stats/profiler.rs:38-42 | cell `i` of the row goes to profile `i`; cells beyond the last header are dropped |
| Profiling.Profiler.UpdateBatch | src/wasm/src/stats/profiler.rs:32-44 | the detector sees the whole batch, the row count rises by the batch size, and afterwards each profile has seen exactly its column of all rows so far |
| Profiling.Profiler.AddRow | src/wasm/src/stats/profiler.rs:36-43 | a row is counted and its cells routed, keeping every profile fed with its column |
| Profiling.Profiler.Finalize | src/wasm/src/stats/profiler.rs:46-62 | one report per header in header order whose counts are those of its column; the row count; duplicate issues from the detector's repeat count and share |
| Profiling.Profiler.FinalizeProfile | src/wasm/src/stats/profiler.rs:47-49 | finalizing one profile leaves the others as they were |
| Duplicates.RowSet | src/wasm/src/quality/duplicates.rs:6 | the seen set holds exactly the rows processed |
| Duplicates.RepeatsPlusDistinct | src/wasm/src/quality/duplicates.rs:21-30 | duplicates plus distinct rows equal the rows processed |
| Duplicates.NoRepeatsWhenDistinct | src/wasm/src/quality/duplicates.rs:25-28 | pairwise different rows give no duplicate |
| Duplicates.DuplicateDetector.constructor | src/wasm/src/quality/duplicates.rs:12-18 | no rows seen, zero counts |
| Duplicates.DuplicateDetector.ProcessBatch | src/wasm/src/quality/duplicates.rs:21-30 | every row is counted; a row already seen counts as a duplicate, so the duplicate count is the number of repeats among all rows so far and the seen set is their set |
| Duplicates.DuplicateDetector.DuplicatePercentage | src/wasm/src/quality/duplicates.rs:43-48 | 0 with no rows, otherwise the share of duplicates times 100, within [0, 100] |
| Duplicates.Percent | src/wasm/src/quality/duplicates.rs:47 | a part of a positive whole is between 0 and 100 percent of it |
| Duplicates.CheckDuplicateIssues | src/wasm/src/quality/duplicates.rs:52-77 | no issue exactly when there is no duplicate, otherwise one "duplicate_rows" issue with the severity of the percentage |
| Duplicates.DuplicateSeverity | src/wasm/src/quality/duplicates.rs:59-65 | Error above 10%, Warning above 1%, Info otherwise; DuplicateSeverityThresholds states the three bands |
| Duplicates.DuplicateSeverityThresholds | src/wasm/src/quality/duplicates.rs:59-65 | Error above 10 %, Warning above 1 % up to 10 %, Info otherwise, and severity never falls as the percentage rises |
| Duplicates.FiveRowExample | src/wasm/src/quality/duplicates.rs:84-100 | the five-row example has 2 duplicates of 5 rows, 40 % |
| Completeness.SaturatingSub | src/wasm/src/quality/completeness.rs:10 | `saturating_sub`: the difference when it is non-negative, otherwise 0 |
| Completeness.CalculateCompleteness | src/wasm/src/quality/completeness.rs:5-12 | 1 for an empty column, otherwise the present share of the rows (0 when every row is missing); always within [0, 1], and exactly 1 when nothing is missing |
| Completeness.ShareBounds | src/wasm/src/quality/completeness.rs:11 | a part of a positive whole is a share within [0, 1] |
| Completeness.CheckCompletenessIssues | src/wasm/src/quality/completeness.rs:15-39 | at most one issue, none exactly when the score is at least 1, its id starting with the column name |
| Completeness.CompletenessSeverity | src/wasm/src/quality/completeness.rs:18-36 | Error below 0.5, Warning below 0.9, Info below 1, none at 1; CompletenessIssueTable and IssueExactlyWhenMissing state the bands and that an issue is raised exactly when a value is missing |
| Completeness.CompletenessIssueTable | src/wasm/src/quality/completeness.rs:18-36 | below 0.5 "_completeness_critical" (Error), below 0.9 "_completeness_warning" (Warning), below 1 "_completeness_info" (Info); a lower score never has a milder severity |
| Completeness.IssueExactlyWhenMissing | src/wasm/src/quality/completeness.rs:5-39 | a column is reported exactly when it has rows and one of them is missing |
| Completeness.CompletenessExamples | src/wasm/src/quality/completeness.rs:46-51 | 100/15 gives 0.85, 100/0 gives 1, 100/100 gives 0, 0/0 gives 1 |
| Uniqueness.CalculateUniqueness | src/wasm/src/quality/uniqueness.rs:5-13 | 1 when no value is present, otherwise distinct over present values; non-negative, and within [0, 1] when distinct <= present |
| Uniqueness.CheckUniquenessIssues | src/wasm/src/quality/uniqueness.rs:16-45 | a "_constant_column" Warning exactly when 0 < score <= 0.02, a "_high_cardinality" Info exactly for a "String" column above 0.9, nothing otherwise |
| Uniqueness.LooksConstant | src/wasm/src/quality/uniqueness.rs:23 | the constant-column test, 0 < uniqueness <= 0.02; ConstantWarningExactly ties it to at least 50 present values per distinct value |
| Uniqueness.HighCardinality | src/wasm/src/quality/uniqueness.rs:33 | the high-cardinality test, a String column above 0.9; CheckUniquenessIssues raises an issue exactly when this or LooksConstant holds |
| Uniqueness.ConstantWarningExactly | src/wasm/src/quality/uniqueness.rs:5-30 | with values present, the constant warning fires exactly when there is a distinct value and at least 50 present values per distinct value |
| Uniqueness.QuotientCompare | src/wasm/src/quality/uniqueness.rs:12 | comparing a quotient with a bound is comparing the dividend with the scaled bound |
| Uniqueness.UniquenessExamples | src/wasm/src/quality/uniqueness.rs:51-79 | the scores of the unit tests, and no high-cardinality issue for an Integer column |
| Patterns.DigitCount | src/wasm/src/quality/patterns.rs:146 | the number of digits of a value never exceeds its length |
| Patterns.Hits | src/wasm/src/quality/patterns.rs:133-171 | what one trimmed value adds to the seven counters (SSN only at 11 characters with 9 digits, card only above 13); TallyBounded and CountMatches bound and accumulate it |
| Patterns.TallyBounded | src/wasm/src/quality/patterns.rs:133-171 | each of the seven counters counts values of the sample, so none exceeds the sample's length |
| Patterns.SampleSize | src/wasm/src/quality/patterns.rs:122 | at most the first 100 values are inspected: the sample is the whole input or exactly 100 values |
| Patterns.Threshold | src/wasm/src/quality/patterns.rs:175 | the threshold is 30 % of the sample rounded down, at least 1, and never above a non-empty sample's size |
| Patterns.DobThreshold | src/wasm/src/quality/patterns.rs:196-201 | the birth-date threshold is half the threshold (at least 1) when the name hints at a birth date and the threshold otherwise |
| Patterns.DecideIsFirstFiring | src/wasm/src/quality/patterns.rs:181-212 | the decision is the most sensitive type whose content test fires; when none fires it is the name hint |
| Patterns.Decide | src/wasm/src/quality/patterns.rs:181-212 | the decision after counting; DecideIsFirstFiring, PostalNeedsHint and NoHintNoFiringNone state that it is the first firing check in priority order, that postal codes need the name hint, and the fallback to the hint |
| Patterns.PostalNeedsHint | src/wasm/src/quality/patterns.rs:206-208 | postal codes are reported only under an address-like name hint, and such a hint always yields a type |
| Patterns.NoHintNoFiringNone | src/wasm/src/quality/patterns.rs:181-212 | without a name hint the result is none exactly when no content test fires |
| Patterns.NameHint | src/wasm/src/quality/patterns.rs:217-302 | the name heuristics never suggest a credit card (there is no keyword group for it) |
| Patterns.Hint | src/wasm/src/quality/patterns.rs:178 | no hint without a column name, otherwise the name's hint, whose case-insensitivity and per-name results are stated by NameHintIgnoresCase and the name lemmas |
| Patterns.LowerCharIdempotent | src/wasm/src/quality/patterns.rs:218 | lower-casing a character twice is lower-casing it once |
| Patterns.NameHintIgnoresCase | src/wasm/src/quality/patterns.rs:218 | the hint depends only on the lower-cased name |
| Patterns.NoWordContained | src/wasm/src/quality/patterns.rs:217-302 | a keyword group none of whose words can occur in the name does not fire |
| Patterns.WordContainedAt | src/wasm/src/quality/patterns.rs:217-302 | a keyword group with a word occurring in the name fires |
| Patterns.IpAddressBeforeAddress | src/wasm/src/quality/patterns.rs:470 | "ip_address" contains "address" yet hints at an IP address, because the IP group is tried before the address group |
| Patterns.IpGroupDecides | src/wasm/src/quality/patterns.rs:248-260 | a lower-case name matched by the IP group and none of the three groups before it hints at an IP address |
| Patterns.MobileHintsPhone | src/wasm/src/quality/patterns.rs:463 | the name "mobile" hints at a phone number |
| Patterns.SsnHintsSsn | src/wasm/src/quality/patterns.rs:464 | the name "ssn" hints at an SSN |
| Patterns.ZipCodeHintsPostal | src/wasm/src/quality/patterns.rs:467 | the name "zip_code" hints at a postal code |
| Patterns.DobHintsBirth | src/wasm/src/quality/patterns.rs:468 | the name "dob" hints at a date of birth |
| Patterns.AmountHintsNothing | src/wasm/src/quality/patterns.rs:476 | the name "amount" hints at nothing |
| Patterns.FilenameHintsNothing | src/wasm/src/quality/patterns.rs:474 | "filename" contains "name" but matches no earlier group, and hints at nothing |
| Patterns.PathnameHintsNothing | src/wasm/src/quality/patterns.rs:475 | "pathname" contains "name" but matches no earlier group, and hints at nothing |
| Patterns.EmailNotInFilename | src/wasm/src/quality/patterns.rs:221 | "email" does not occur in "filename", although every letter of it does |
| Patterns.TestNameIsLower | src/wasm/src/quality/patterns.rs:218 | the unit-test names are their own lower-case form |
| Patterns.MatchValue | src/wasm/src/quality/patterns.rs:134-170 | the counters one trimmed value adds: an SSN only at 11 characters with 9 digits, a card only above 13 characters, a postal code for either pattern |
| Patterns.TallyStep | src/wasm/src/quality/patterns.rs:133-171 | counting one more value adds that value's hits to the counters |
| Patterns.CountMatches | src/wasm/src/quality/patterns.rs:133-171 | the counting loop leaves the seven counters equal to the tally of the whole sample |
| Patterns.DetectPii | src/wasm/src/quality/patterns.rs:117-213 | an empty column is never PII; otherwise the result is the decision on the tally of the first 100 values, their threshold and the name hint |
| Patterns.CheckPiiIssues | src/wasm/src/quality/patterns.rs:305-317 | exactly one issue when a type was detected and none otherwise, with the type's severity and an id of the column name, "_pii_" and the label with underscores for spaces |
| Patterns.IssueSuffixes | src/wasm/src/quality/patterns.rs:310 | the id suffixes contain no space and differ between any two types |
| Patterns.DecideExamples | src/wasm/src/quality/patterns.rs:429-456 | the postal-code tests: four matches are reported under an address hint and not without one; a non-matching column takes the name hint; SSN wins over e-mail |
| Patterns.SeverityTable | src/wasm/src/quality/patterns.rs:30-40 | SSNs and cards are errors, postal codes information, every other type a warning |
| Patterns.ThresholdExamples | src/wasm/src/quality/patterns.rs:175-201 | thresholds of 1 for samples of 3 and 4 values, 3 for 10, 30 for 100; a halved birth-date threshold of 15 for 30 and 1 for 1 |
| Export.ExportCompleteness | src/wasm/src/export/json.rs:201-205 | 0 for an empty column, otherwise the present share of the rows; within [0, 1], and 1 exactly when the column has rows and none is missing |
| Export.ExportUniqueness | src/wasm/src/export/json.rs:207-212 | 0 when no value is present, otherwise distinct over present values capped at 1; always within [0, 1] |
| Export.ScoresAgainstQuality | src/wasm/src/export/json.rs:201-212 | the exported scores equal the quality module's for a column with values (uniqueness capped at 1), but an empty column exports 0 where the quality scores give 1 |
| Export.CancelFactor | src/wasm/src/export/json.rs:202 | equal products with a positive factor have equal other factors |
| Export.ConvertNumericStats | src/wasm/src/export/json.rs:137-154 | the exported min, max, mean, sum and quantiles are the statistics' own |
| Export.ConvertColumn | src/wasm/src/export/json.rs:195-236 | the counters, type name and length bounds are copied, each optional section is present exactly when the profile has it, and the quality block holds the two scores and the PII flag of the column name |
| Export.ConvertColumns | src/wasm/src/export/json.rs:259 | one exported column per profile, in profile order |
| Export.GenerateJsonExport | src/wasm/src/export/json.rs:239-261 | the meta block carries the version "0.1.0" and the given file data, the summary the row count and the column count, and the columns are the converted profiles |
| Export.SetOfSize | src/wasm/src/export/json.rs:207-209 | there are no more distinct values than values |
| Export.Share | src/wasm/src/export/json.rs:202 | `part / whole`, and 0 for an empty whole |
| Export.ScoresOfCounts | src/wasm/src/export/json.rs:201-212 | with distinct <= present, both scores are plain shares, never capped |
| Export.ProfiledColumnScores | src/wasm/src/export/json.rs:201-212 | for counts that come from a column's cells, both scores are exact shares of its cells |
| Export.ColumnCounts | src/wasm/src/export/json.rs:196-198 | every cell is missing or valid, and distinct valid values are no more than valid cells |
| Export.ExportOfProfiledRows | src/wasm/src/export/json.rs:239-261 | exporting what the profiler reports for some rows: counts are consistent, columns follow the headers, and the scores are the exact shares of present and of distinct present cells |
| Pii.AnyContained | src/wasm/src/export/json.rs:191 | `any(contains)`: true exactly when some keyword occurs in the text |
| Pii.IsPotentialPii | src/wasm/src/export/json.rs:183-192 | a name is flagged exactly when its lower-cased form contains one of the 21 keywords |
| Pii.ContainsOccurs | src/wasm/src/export/json.rs:191 | `contains` holds exactly when the keyword occurs at some position |
| Pii.ContainsTransitive | src/wasm/src/export/json.rs:185-191 | a text containing a keyword contains every keyword that one contains |
| Pii.ToLowerIdempotent | src/wasm/src/export/json.rs:184 | lower-casing twice is lower-casing once |
| Pii.PiiIgnoresCase | src/wasm/src/export/json.rs:183-192 | the flag does not depend on letter case |
| Pii.CoreCovers | src/wasm/src/export/json.rs:185-190 | every keyword contains one of fifteen core keywords at a known position |
| Pii.SameKeyword | src/wasm/src/export/json.rs:185-190 | the fifteen core keywords cover themselves |
| Pii.LongerKeyword | src/wasm/src/export/json.rs:187-189 | "first_name", "last_name", "firstname", "lastname", "date_of_birth" and "ip_address" contain "name", "birth" or "ip" |
| Pii.OccursBetween | src/wasm/src/export/json.rs:191 | a keyword occurs at the end of any text put in front of it |
| Pii.CoreListed | src/wasm/src/export/json.rs:185-190 | every core keyword is in the keyword list |
| Pii.CoreKeywordsDecide | src/wasm/src/export/json.rs:183-192 | the flag is decided by the fifteen core keywords alone: six keywords are redundant |
| Pii.MissingCharNotContained | src/wasm/src/export/json.rs:191 | a text lacking a letter of the keyword does not contain it |
| Pii.LowerFixed | src/wasm/src/export/json.rs:184 | lower-casing leaves a text without upper-case letters unchanged |
| Pii.FlaggedAt | src/wasm/src/export/json.rs:191 | one keyword occurrence in the lower-cased name flags it |
| Pii.EmailIsPii | src/wasm/src/export/json.rs:285 | "email" is flagged |
| Pii.UserEmailIsPii | src/wasm/src/export/json.rs:286 | "user_email" is flagged |
| Pii.FirstNameIsPii | src/wasm/src/export/json.rs:287 | "FirstName" is flagged, through lower-casing |
| Pii.KeyLetterOfKeywords | src/wasm/src/export/json.rs:185-190 | each keyword holds one of the letters b, c, d, e, f, l, p, s, z |
| Pii.NoKeyLetterNoPii | src/wasm/src/export/json.rs:183-192 | a name with none of those letters (in any case) is never flagged |
| Pii.AmountIsNotPii | src/wasm/src/export/json.rs:288 | "amount" is not flagged |
| Pii.QuantityIsNotPii | src/wasm/src/export/json.rs:289 | "quantity" is not flagged |
| Pii.DescriptionIsPii | src/wasm/src/export/json.rs:189 | "description" is flagged, through the keyword "ip" |
| JsonParsing.UpdateArrayStats | src/wasm/src/parser/json.rs:26-36 | one more array adds one to the count and its length to the total; the first sets both bounds, later ones widen them |
| JsonParsing.StatsOfSummary | src/wasm/src/parser/json.rs:26-36 | after any sequence of arrays the count is their number, the total their summed length, and the bounds are the shortest and longest length seen |
| JsonParsing.AvgLength | src/wasm/src/parser/json.rs:38-44 | the mean length is 0 before any array, and otherwise times the count gives the total |
| JsonParsing.AvgBetweenBounds | src/wasm/src/parser/json.rs:26-44 | the mean length lies between the shortest and the longest array |
| JsonParsing.TagsExample | src/wasm/src/parser/json.rs:26-36 | arrays of lengths 3 and 2 give bounds 2 and 3, total 5, count 2 |
| JsonParsing.AutoDetectFormat | src/wasm/src/parser/json.rs:102-128 | after leading white space, a '[' means a JSON array, a '{' JSON Lines, anything else (or nothing) unknown |
| JsonParsing.TrimStartSkipsSpace | src/wasm/src/parser/json.rs:103 | trimming the start of text with white space prepended gives the same as trimming the text |
| JsonParsing.DetectIgnoresLeadingSpace | src/wasm/src/parser/json.rs:102-128 | leading white space never changes the detected format |
| JsonParsing.Step | src/wasm/src/parser/json.rs:281-298 | one scanned character: an escaped character is skipped, a backslash inside a string escapes the next, a quote toggles the string, braces count only outside strings |
| JsonParsing.FirstCloseIsFirst | src/wasm/src/parser/json.rs:281-298 | the scan finds the first position where a counted '}' brings the depth back to 0, and none exactly when there is no such position |
| JsonParsing.FirstCloseAt | src/wasm/src/parser/json.rs:281-298 | a closing position with none before it is the one the scan finds |
| JsonParsing.CompleteObject | src/wasm/src/parser/json.rs:271-302 | a complete object is a non-empty prefix of the text, returned with its length |
| JsonParsing.FindCompleteObject | src/wasm/src/parser/json.rs:271-302 | nothing unless the text starts with '{'; otherwise the shortest prefix ending at the '}' that closes the first brace, and nothing when no brace closes it |
| JsonParsing.FoundObjectBalanced | src/wasm/src/parser/json.rs:271-302 | the object found ends in '}', its braces balance outside strings at its end, and the depth stays positive inside it |
| JsonParsing.DepthStaysPositive | src/wasm/src/parser/json.rs:290-296 | before the closing brace the brace depth never drops below 1 |
| JsonParsing.NatToDecimal | src/wasm/src/parser/json.rs:356 | an array length is written as a non-empty string of digits whose value is the length |
| JsonParsing.CellOf | src/wasm/src/parser/json.rs:349-378 | the cell of a leaf: "[array:N]" for an array of N elements, "" for null, "true"/"false", the string itself, a number's text, an object's JSON text at the depth limit |
| JsonParsing.EnsureHeaderRegisters | src/wasm/src/parser/json.rs:384-389 | registering a key keeps headers and positions consistent, appends at most the one key, leaves the key at its own position, and a repeat changes nothing |
| JsonParsing.EnsureHeaderSpec | src/wasm/src/parser/json.rs:384-389 | `ensure_header` on the registry; EnsureHeaderRegisters states that the key is then registered at its index, nothing else moves and a repeat is a no-op |
| JsonParsing.FlattenSpec | src/wasm/src/parser/json.rs:329-331 | an object beyond the depth limit adds no header and no cell |
| JsonParsing.FlattenSpecGrows | src/wasm/src/parser/json.rs:322-381 | flattening keeps headers and positions consistent, only appends headers, never past the key limit, keeps earlier cells and writes cells only under registered headers |
| JsonParsing.MembersSpecGrows | src/wasm/src/parser/json.rs:333-380 | the same for the remaining members of an object |
| JsonParsing.EntrySpecGrows | src/wasm/src/parser/json.rs:340-379 | the same for one member |
| JsonParsing.MembersSpec | src/wasm/src/parser/json.rs:333-380 | the members of an object in order; MembersSpecGrows states what they may do to the registry and the cells |
| JsonParsing.EntrySpec | src/wasm/src/parser/json.rs:340-379 | one member under its full key; EntrySpecGrows, LeafMember, NestedMember and FullRegistryDropsNewKeys state its growth, its leaf and nested cases and the key limit |
| JsonParsing.LeafMember | src/wasm/src/parser/json.rs:333-373 | with room for headers, a member that is not expanded becomes one cell under its dotted key, and its key a header if it was not one |
| JsonParsing.NestedMember | src/wasm/src/parser/json.rs:346-348 | below the depth limit a nested object is expanded under "prefix.key.inner" |
| JsonParsing.FullRegistryDropsNewKeys | src/wasm/src/parser/json.rs:340-343 | once the header list is full a new key adds neither a header nor a cell, even for a nested object |
| JsonParsing.DepthLimitExample | src/wasm/src/parser/json.rs:346-378 | with depth limit 2 a four-level object gives the single header "level1.level2.level3", whose cell is the JSON text of the innermost object |
| JsonParsing.RowCells | src/wasm/src/parser/json.rs:311-318 | one cell per header: the flattened value under that header, "" where there is none |
| JsonParsing.TakeSpecGrows | src/wasm/src/parser/json.rs:204-214 | parsing one candidate only adds headers, within the key limit, and an object's row has one cell per header |
| JsonParsing.IndexOf | src/wasm/src/parser/json.rs:238 | `find`: the first position of the character, or none when it does not occur |
| JsonParsing.AfterFirstLine | src/wasm/src/parser/json.rs:257 | taking off the first line always shortens the buffer |
| JsonParsing.AfterLinesNoNewline | src/wasm/src/parser/json.rs:238-258 | what stays buffered after the line loop holds no newline |
| JsonParsing.LinesCover | src/wasm/src/parser/json.rs:238-258 | the consumed lines, each with its newline, followed by what stays buffered give back the text |
| JsonParsing.SplitAround | src/wasm/src/parser/json.rs:239-257 | the buffer is its first line, a newline and the rest |
| JsonParsing.LinesHaveNoNewline | src/wasm/src/parser/json.rs:238-239 | no consumed line holds a newline |
| JsonParsing.LinesStep | src/wasm/src/parser/json.rs:238-257 | consuming the first line leaves the later lines and the same unfinished tail |
| JsonParsing.LinesAccounted | src/wasm/src/parser/json.rs:241-255 | every non-blank line counts exactly once, as a row or as malformed, and blank lines not at all |
| JsonParsing.LinesProgress | src/wasm/src/parser/json.rs:238-258 | each pass of the line loop advances the consumed lines by the first buffered line |
| JsonParsing.LinesDone | src/wasm/src/parser/json.rs:238-258 | once no newline is left every complete line has been consumed and the buffer is the unfinished tail |
| JsonParsing.CountsSnoc | src/wasm/src/parser/json.rs:241-255 | one more line adds one row if it holds an object, one malformed count if it is non-blank and not an object |
| JsonParsing.LinesRowsSnoc | src/wasm/src/parser/json.rs:241-255 | one more line leaves rows and registry as they were when blank and adds what parsing its trimmed text gives otherwise |
| JsonParsing.LinesRowsCount | src/wasm/src/parser/json.rs:241-255 | the lines give exactly one row per object line |
| JsonParsing.NextElement | src/wasm/src/parser/json.rs:170-194 | one pass of the scan: what is left after a closing ']' or a taken object is a suffix of the buffer, strictly shorter after an object |
| JsonParsing.ArrayRunElement | src/wasm/src/parser/json.rs:204-217 | a taken object puts its row, or one malformed count, in front of what the rest of the loop gives from the buffer after it |
| JsonParsing.ArrayRunHalt | src/wasm/src/parser/json.rs:196-202 | with nothing to take the loop ends at once, leaving the buffer after the ']' when it closes the array and as it was otherwise |
| JsonParsing.ArrayRunGrows | src/wasm/src/parser/json.rs:169-221 | the object loop only adds headers, within the key limit, and no row is wider than the headers it ends with |
| JsonParsing.AppendedTwice | src/wasm/src/parser/json.rs:208 | rows gathered in two steps are the rows of both in order, and the malformed counts add up |
| JsonParsing.ArrayRunSuffix | src/wasm/src/parser/json.rs:198-217 | the buffer the loop leaves is a suffix of the one it started from |
| JsonParsing.ArrayRunStops | src/wasm/src/parser/json.rs:169-221 | the loop stops at ']' or where the buffer holds nothing complete to take |
| JsonParsing.ArrayRunCounts | src/wasm/src/parser/json.rs:204-214 | every object taken is counted once, as a row or as malformed |
| JsonParsing.JsonParser.constructor | src/wasm/src/parser/json.rs:86-99 | the default configuration (depth 3, 500 keys) unless one is given; unknown format, no headers, no counts, empty buffer |
| JsonParsing.JsonParser.SetFormat | src/wasm/src/parser/json.rs:131-133 | the format becomes the given one |
| JsonParsing.JsonParser.EnsureHeader | src/wasm/src/parser/json.rs:384-389 | the headers and positions become those of registering the key |
| JsonParsing.JsonParser.FlattenRecursive | src/wasm/src/parser/json.rs:322-381 | headers, positions, array statistics and cells become those of the flattening specification |
| JsonParsing.JsonParser.FlattenObject | src/wasm/src/parser/json.rs:305-319 | one cell per header known after flattening: the object's value for that header, "" where it has none |
| JsonParsing.JsonParser.FillRow | src/wasm/src/parser/json.rs:311-318 | each flattened value lands at its header's column and the other columns stay empty |
| JsonParsing.JsonParser.TakeObject | src/wasm/src/parser/json.rs:204-214 | registry and row become those of `TakeSpec`: an object gives a row as wide as the headers and one more row counted; anything else one more malformed, no row and no change to headers |
| JsonParsing.JsonParser.ConsumeLine | src/wasm/src/parser/json.rs:239-257 | the first line leaves the buffer; a blank line changes nothing, any other line gives the registry and row of parsing its trimmed text: a row for an object, one malformed count otherwise |
| JsonParsing.JsonParser.ParseJsonlChunk | src/wasm/src/parser/json.rs:234-268 | every complete line is consumed; the rows and registry are those of the lines in order (`LinesRows`), the counts grow by the object and bad lines among them, and only the unfinished tail stays buffered |
| JsonParsing.JsonParser.LocateElement | src/wasm/src/parser/json.rs:170-194 | the scanning block computes exactly the move `NextElement` describes |
| JsonParsing.JsonParser.NextArrayElement | src/wasm/src/parser/json.rs:169-221 | one pass: with nothing to take the state stays and the loop stops; at ']' the array closes past it; a complete object is taken off the buffer and its registry, row and counts are those of `TakeSpec` |
| JsonParsing.JsonParser.ArrayStep | src/wasm/src/parser/json.rs:169-221 | one pass stated against the loop's run: continuing, the run from the old buffer is this pass's row or malformed count followed by the run from the new one; stopping, the run ends here |
| JsonParsing.JsonParser.TakeArrayObjects | src/wasm/src/parser/json.rs:169-221 | the loop in an open array: registry, rows, malformed count, buffer left and array flag are exactly those of `ArrayRun` on the old buffer and registry |
| JsonParsing.JsonParser.ParseJsonArrayChunk | src/wasm/src/parser/json.rs:153-231 | the new registry, rows, malformed and row counts, buffer and array flag are those of `ArrayChunk`: nothing when no array is open and no '[' is buffered, otherwise the object loop from the array's start; the depth becomes 1 when the '[' is found |
| JsonParsing.JsonParser.EmptyResult | src/wasm/src/parser/json.rs:392-401 | the current headers, counts, format and statistics with no rows |
| JsonParsing.JsonParser.ParseChunk | src/wasm/src/parser/json.rs:136-150 | the chunk is appended, the format detected if still unknown, and the buffer parsed in that format with the rows of `LinesRows` or `ArrayChunk`; an unknown format parses nothing |
| JsonParsing.JsonParser.ParseBuffer | src/wasm/src/parser/json.rs:144-149 | the buffer is parsed as the format says: rows and state of `LinesRows` for JSON Lines, of `ArrayChunk` for a JSON array, nothing for an unknown format |
| JsonParsing.JsonParser.Flush | src/wasm/src/parser/json.rs:404-455 | the buffer is emptied; JSON Lines gives the rows of `LinesRows` on the buffer as one last line; a JSON array gives the row or malformed count of `TakeSpec` on the complete object at the start of the trimmed buffer, and nothing when there is none; an unknown format changes nothing |
| JsonParsing.JsonParser.FlushLine | src/wasm/src/parser/json.rs:408-422 | the buffer parsed as one last line: registry and rows of `LinesRows` on it, a row for an object line, one malformed count for any other non-blank line |
| JsonParsing.JsonParser.FlushObject | src/wasm/src/parser/json.rs:424-439 | the complete object at the start of the trimmed buffer, if any, gives the registry, row and counts of `TakeSpec`; otherwise nothing changes |
| CsvParsing.LastNewline | src/wasm/src/parser/csv.rs:77 | `rposition` of the newline: absent exactly when the data holds no newline, otherwise the index of a newline after which none follows |
| CsvParsing.SplitAtLastNewline | src/wasm/src/parser/csv.rs:77-82 | the parsed head and kept tail concatenate back to the data, the tail holds no newline, and the head is empty or ends in a newline |
| CsvParsing.SplitHeadEmpty | src/wasm/src/parser/csv.rs:79-86 | nothing is handed to the reader exactly when the buffered data holds no newline |
| CsvParsing.SplitUnique | src/wasm/src/parser/csv.rs:77-82 | any newline-terminated head with a newline-free tail is this split (the split is the only one with those properties) |
| CsvParsing.OkRecords | src/wasm/src/parser/csv.rs:98-108 | the rows returned are at most as many as the records read |
| CsvParsing.Failures | src/wasm/src/parser/csv.rs:104-106 | the malformed records are at most as many as the records read |
| CsvParsing.RecordsAccounted | src/wasm/src/parser/csv.rs:98-108 | every record read is returned or counted as malformed, never both |
| CsvParsing.OkRecordsMembers | src/wasm/src/parser/csv.rs:101-103 | a row is returned if and only if the reader read it successfully |
| CsvParsing.BufferShift | src/wasm/src/parser/csv.rs:73-111 | moving the split of remainder plus chunk into the parsed bytes loses and repeats no byte |
| CsvParsing.CsvParser.constructor | src/wasm/src/parser/csv.rs:22-31 | the delimiter defaults to a comma; no header, zero counters, an empty remainder |
| CsvParsing.CsvParser.SetDelimiter | src/wasm/src/parser/csv.rs:33-35 | the delimiter becomes the one given and nothing else changes |
| CsvParsing.CsvParser.ConsumeRecords | src/wasm/src/parser/csv.rs:98-108 | every record raises the total, a failure raises the malformed count, and the good records are returned in order |
| CsvParsing.CsvParser.ParseChunk | src/wasm/src/parser/csv.rs:72-119 | remainder plus chunk is split at the last newline; the head is read (asking for a header only while none is captured), the tail is kept; no byte is lost or repeated, the kept bytes hold no newline, a captured header never changes, total = returned + malformed |
| CsvParsing.CsvParser.TakeComplete | src/wasm/src/parser/csv.rs:73-111 | the complete lines are taken for parsing and the newline-free rest is kept |
| CsvParsing.CsvParser.ReadHead | src/wasm/src/parser/csv.rs:86-108 | the header is captured from the reader only when headers are expected and none was captured yet; the counters follow the records read |
| CsvParsing.CsvParser.Flush | src/wasm/src/parser/csv.rs:121-149 | a non-empty remainder is read with no header and emptied, so every byte fed has been parsed; an empty one changes nothing |
| CsvParsing.Widths | src/wasm/src/parser/csv.rs:51-56 | the widths of the successful records, at most one per result |
| CsvParsing.FirstTen | src/wasm/src/parser/csv.rs:51 | `take(10)`: the first ten results, or all when there are fewer |
| CsvParsing.Score | src/wasm/src/parser/csv.rs:58-67 | positive exactly when more than one record was read, all of one width above one; then records times width, at least 4 |
| CsvParsing.ScoreDelimiter | src/wasm/src/parser/csv.rs:43-67 | the loop over the first ten results computes `Score` |
| CsvParsing.AutoDetectDelimiter | src/wasm/src/parser/csv.rs:37-70 | the result is one of comma, tab, semicolon, pipe with the highest score, the first such in that order, and a comma unless some candidate scores above zero |
| Extraction.Select | src/wasm/src/parser/extractor.rs:32-37 | each selected pair carries a row number in range, that number is a target, and the row is the one with that number |
| Extraction.SelectExactly | src/wasm/src/parser/extractor.rs:34-36 | a row is selected if and only if its number is a target |
| Extraction.SelectIncreasing | src/wasm/src/parser/extractor.rs:32-37 | selected rows come in strictly increasing row-number order |
| Extraction.SelectChunks | src/wasm/src/parser/extractor.rs:28-54 | numbering carried across chunks: selecting chunk by chunk equals selecting from all rows at once |
| Extraction.RowExtractor.constructor | src/wasm/src/parser/extractor.rs:15-26 | the target set holds exactly the given indices, the row counter starts at 0, and the parser is new with the given delimiter (comma by default) and header flag |
| Extraction.RowExtractor.Collect | src/wasm/src/parser/extractor.rs:32-37 | the counter advances by the number of rows, and the result is `Select` of those rows numbered from the old counter + 1 |
| Extraction.RowExtractor.ProcessChunk | src/wasm/src/parser/extractor.rs:28-40 | the rows the parser returns for the chunk are numbered on from the last row seen, the targeted ones are returned, and the row counter stays equal to the parser's returned-row count |
| Extraction.RowExtractor.Flush | src/wasm/src/parser/extractor.rs:42-54 | the rows of the parser's flush are numbered and selected the same way; the parser's buffer is then empty |
| AvroFlattening.SortStrings | src/wasm/src/parser/avro.rs:123 | `headers.sort()`: the result is in byte-wise order and holds the same strings, each as often |
| AvroFlattening.StrLeTotal | src/wasm/src/parser/avro.rs:123 | the string order used by the sort is total |
| AvroFlattening.ExtractHeaders | src/wasm/src/parser/avro.rs:102-125 | headers are sorted; an object yields the key paths of its non-object leaves (with nested objects expanded under `prefix.key`); any other value yields its prefix, or "value" for the empty prefix |
| AvroFlattening.HeadersOf | src/wasm/src/parser/avro.rs:105-113 | the unsorted headers of an object's members, nested objects expanded; FlattenKeysAreHeaders relates them to the flattened keys |
| AvroFlattening.LeafText | src/wasm/src/parser/avro.rs:145-159 | a null leaf becomes "", a string leaf its own text, an array, boolean or number its JSON text |
| AvroFlattening.FlattenInto | src/wasm/src/parser/avro.rs:137-159 | `flatten_recursive`; FlattenKeysAreHeaders states that every header of an object gets a flattened cell |
| AvroFlattening.FlattenMembers | src/wasm/src/parser/avro.rs:139-143 | the members in order; MembersKeysAreHeaders states which keys they write |
| AvroFlattening.Cells | src/wasm/src/parser/avro.rs:132-134 | one cell per header: the flattened value under that header, or the empty default |
| AvroFlattening.FlattenAvroValue | src/wasm/src/parser/avro.rs:128-135 | one cell per header, looked up in the map built from the empty prefix |
| AvroFlattening.FlattenKeysAreHeaders | src/wasm/src/parser/avro.rs:137-144 | flattening an object adds to the map exactly the keys that header extraction lists for it |
| AvroFlattening.MembersKeysAreHeaders | src/wasm/src/parser/avro.rs:139-143 | the member loop adds exactly the headers of the members it visits |
| AvroFlattening.ObjectRowComplete | src/wasm/src/parser/avro.rs:102-160 | for an object record, every header has a flattened value, every flattened key is a header, and no cell falls back to the default |
| AvroFlattening.ScalarRootLost | src/wasm/src/parser/avro.rs:116 | a non-object record gets the single header "value", and its single cell is always empty (the value is stored under "") |
| AvroFlattening.ScalarRootExample | src/wasm/src/parser/avro.rs:116 | the string record "x" comes out as the row [""] rather than ["x"] |
| AvroFlattening.FlattenAvroRow | src/wasm/src/parser/avro.rs:128-135 | corrected flattening: one cell per header, a non-object record stored under "value" |
| AvroFlattening.FlattenRoot | src/wasm/src/parser/avro.rs:116 | the corrected flattening that writes a non-object record under "value"; RowComplete states that every header then has its cell |
| AvroFlattening.RowComplete | src/wasm/src/parser/avro.rs:102-160 | with the correction every header of every record has a flattened value, and a scalar record's row is its own text |
| StructureTree.TreeNode.constructor | src/wasm/src/stats/tree.rs:46-56 | a node has the given path, depth and type, zero population and child count, and no examples or children |
| StructureTree.TreeNode.AddChild | src/wasm/src/stats/tree.rs:59-62 | the child is appended and the child count rises by one, so the count always equals the number of children |
| StructureTree.TreeNode.AddExample | src/wasm/src/stats/tree.rs:65-69 | a value is kept only while fewer than 3 examples are held; the examples are always the first (at most 3) values offered |
| StructureTree.FirstExamples | src/wasm/src/stats/tree.rs:65-69 | the kept examples are the first min(3, n) offered values |
| StructureTree.FirstExamplesSnoc | src/wasm/src/stats/tree.rs:65-69 | offering one more value keeps it exactly when fewer than 3 were kept |
| StructureTree.ModeFor | src/wasm/src/stats/tree.rs:110-116 | tree mode if and only if the maximum depth exceeds 5 or the path count exceeds 1000 |
| StructureTree.ModeMonotone | src/wasm/src/stats/tree.rs:110-116 | a deeper or wider structure never goes back from tree mode to tabular |
| StructureTree.StructureAnalysis.constructor | src/wasm/src/stats/tree.rs:99-107 | zero depth, paths and rows, tabular mode, and a root node "$" of type object at depth 0 |
| StructureTree.StructureAnalysis.DetermineMode | src/wasm/src/stats/tree.rs:110-116 | the recommended mode becomes the one `ModeFor` gives for the current depth and path count |
| Text.TrimStart | src/wasm/src/parser/json.rs:103 | `trim_start` never lengthens the text |
| Text.TrimEnd | src/wasm/src/stats/mod.rs:98 | trimming the end never lengthens the text |
| Text.Trim | src/wasm/src/stats/mod.rs:98 | `trim` never lengthens the text |
| Text.TrimStartSpec | src/wasm/src/parser/json.rs:103 | `trim_start` keeps a suffix that does not start with white space and drops only white space |
| Text.TrimEndSpec | src/wasm/src/stats/mod.rs:98 | trimming the end keeps a prefix that does not end with white space and drops only white space |
| Text.TrimSpec | src/wasm/src/stats/mod.rs:98 | a trimmed text is a slice of the input that neither starts nor ends with white space |
| Text.ToLower | src/wasm/src/stats/mod.rs:99 | `to_lowercase` maps every character through the ASCII lower-casing, keeping the length |
| Text.LowerEqualsToLower | src/wasm/src/stats/mod.rs:99 | comparing case-insensitively with a lower-case word is comparing the lower-cased text |
| Text.ReplaceChar | src/wasm/src/quality/patterns.rs:310 | `replace(" ", "_")`: each space becomes an underscore, every other character is kept |
| Text.JoinKey | src/wasm/src/parser/json.rs:334-338 | the dotted key path: the key itself at the top level, `prefix.key` below; the flatteners' header lemmas use it for every nested key |
| Types.DataTypeName | src/wasm/src/export/json.rs:214 | `format!("{:?}", ty)`: the variant's name; ConvertColumn exports it as the inferred type |
| Types.DataTypeNameInjective | src/wasm/src/quality/uniqueness.rs:33 | distinct types have distinct names, so the high-cardinality test on the name "String" holds for the String type only |

## Left out

Floating point and numerics:
- Floating point: every value is an exact real, so the model has no rounding, NaN or infinities. The NaN/infinity guard of `NumericStats::update` (`src/wasm/src/stats/numeric.rs:60`) is left out with it.
- The higher moments (m2, m3, m4, variance, std_dev, skewness, kurtosis) of the streaming `src/wasm/src/stats/numeric.rs:70-91` are left out: they need `sqrt` and `powf`.
- `round_to_precision` in `src/wasm/src/export/json.rs:131-134` is the identity on exact reals, and its unit test is not modelled.
- `src/wasm/src/stats/correlation.rs` is not part of this model: it is Welford co-moments and `sqrt` over floats.
- Numeric.GetQuantile: defined only for q in [0, 1], the only values the source passes.
- Numeric.NumericStats: the samples handed to `finalize` are plain reals. The source's `&mut [(f64, usize)]` signature does not match the `Vec<f64>` it is given. The buffer sorted there is a copy and is not written back.

Integer widths:
- Counters (`u32`, `u64`, `usize`) are unbounded naturals. Overflow of a counter is not modelled.
- The reservoir index in `src/wasm/src/stats/histogram.rs:74` is modelled exactly: a wrapping 64-bit LCG step, truncated to a `usize` of `usizeBits` bits.
- Histograms.HistogramAccumulator.Update requires the buffer to have room, or the truncated count not to be a multiple of 2^usizeBits. Otherwise the source takes a remainder by zero and panics.
- ColumnProfiles.ColumnProfile.Update requires the same, for the same reason.
- Profiling.Profiler.UpdateBatch requires fewer than 2^usizeBits rows in all. This is a sufficient condition for that panic never to happen; the source has no such guard.
- Export.ExportCompleteness requires missing <= count. The source's `u64` subtraction would underflow otherwise.

Libraries, modelled as parameters:
- HyperLogLog: idealised as the exact set of distinct trimmed values, so the distinct count is exact.
- `str::parse::<f64>`: the parameter `parseFloat`.
- `str::parse::<i64>`: modelled exactly.
- Regular expressions of `src/wasm/src/quality/patterns.rs:53-107`: opaque matchers.
- `serde_json::from_str`: the parameter `parse`.
- `Value::to_string`: the parameter `render`.
- The csv crate's record splitter: the `RecordReader` parameter, from a buffer, a delimiter and the has-headers flag to a header and one result per record.
- pandas dtype detection: a column arrives with its dtype already decided.

Text:
- Input text is ASCII. `trim` removes ASCII white space and `to_lowercase` maps only 'A'..'Z'.
- `is_numeric` in the SSN test is an ASCII digit test. Byte lengths equal character counts.
- `find_complete_object`'s char/byte index mix (`src/wasm/src/parser/json.rs:279, 294`) cannot arise under ASCII.
- `String::from_utf8_lossy`: chunks arrive as text already decoded.

I/O and glue:
- The apache_avro reader loop (`src/wasm/src/parser/avro.rs:31-98`) is left out. The model starts from a record already converted to a JSON value.
- `src/wasm/src/lib.rs` and `src/wasm/src/parser/parquet.rs` are not part of this model: they are wasm bindings and a parquet wrapper.
- `to_json_string` (`src/wasm/src/export/json.rs:264-270`) is left out.
- The export timestamp (chrono) is a parameter.
- `main` of `scripts/generate-baseline.py`: argument parsing, file input and output, and exit codes.
- File reading with pandas (`read_csv`, `read_parquet`) is left out.
- QualityIssue messages are left out: only ids and severities are modelled, because the messages are float formatting.

Modelling choices:
- `src/wasm/src/stats/profiler.rs:40` passes two arguments to the one-argument `ColumnProfile::update` (`src/wasm/src/stats/mod.rs:95`). The model calls `update(value)`.
- JsonParsing.AutoDetectFormat: the second-line loop of `auto_detect_format` (`src/wasm/src/parser/json.rs:110-122`) returns JSON Lines on every path, so it is not modelled.
- StructureTree.TreeNode: children are node references. The accessors that only read fields are not modelled.
- Categorical.CategoricalAccumulator.Finalize: entries with equal counts come out in an unspecified order, as the map's iteration order leaves them.
- The pandas guard `series.empty` is modelled as written: zero rows, not zero non-null values.
- For an all-null column the baseline's statistics are NaN, the standard deviation included; a single value also has a NaN standard deviation.
- Baseline.StdDev: exact reals have no square root, so the standard deviation is kept as `Root(v)` with `v` the sample variance. Only "a constant series has standard deviation 0" is proved, not the converse.
- Baseline.TopValuesFacts: when several values tie at the fifth place, which of them pandas' `value_counts` keeps is not stated. The model's sort is stable over the first-occurrence order of `Distinct`, but only "no value left out occurs more often than a value listed" is claimed.
- Patterns.NameHint: its own contract states only that no name ever suggests a credit card. The keyword groups are covered by the example lemmas beside it: "ip_address", "mobile", "ssn", "zip_code", "dob", "amount", "filename" and "pathname".
- Patterns.NameHint: "email", "user_email", "phone_number", "social_security_number", "street_address", "date_of_birth", "client_ip" and "shipping_cost" are not stated.

## Findings

| source | as written | input that shows it | evidently intended | confidence | as-written member | corrected member |
|---|---|---|---|---|---|---|
| src/wasm/src/parser/avro.rs:116 | a record that is not an object gets the header "value" but is flattened under the empty key (`avro.rs:137-160`), so its single cell is always empty | the string record "x" | the row ["x"]: the record's own text under "value" | not executed | AvroFlattening.ScalarRootExample | AvroFlattening.RowComplete |
