/**
 * The JSON export of a profiling run (`src/wasm/src/export/json.rs`): the
 * metadata, the summary, and one exported column per column profile with
 * its quality scores and the PII flag. Values are exact reals, so rounding
 * to six decimals is the identity here.
 */
module Export {
  import opened Wrappers
  import opened Types
  import Numeric
  import Categorical
  import Histograms
  import Completeness
  import Uniqueness
  import ColumnProfiles
  import Profiling
  import Pii

  /** `DATACERT_VERSION`. */
  const DatacertVersion: string := "0.1.0"

  datatype ExportMeta = ExportMeta(
    generatedAt: string, datacertVersion: string, fileName: string, fileSize: nat, processingTimeMs: nat)

  datatype ExportSummary = ExportSummary(totalRows: nat, totalColumns: nat)

  datatype ExportQuality = ExportQuality(completeness: real, uniqueness: real, isPotentialPii: bool)

  /** The exported numeric statistics (the moment-based ones are not part of this model). */
  datatype ExportNumericStats = ExportNumericStats(
    min: Option<real>, max: Option<real>, mean: real, median: real, sum: real,
    p25: real, p75: real, p90: real, p95: real, p99: real)

  /**
   * The exported column statistics. The exported histogram and categorical
   * statistics have the fields of the internal ones, so the internal types
   * are reused.
   */
  datatype ExportColumnStats = ExportColumnStats(
    count: nat, missing: nat, distinct: nat, inferredType: string,
    minLength: Option<nat>, maxLength: Option<nat>,
    numeric: Option<ExportNumericStats>,
    categorical: Option<Categorical.CategoricalStats>,
    histogram: Option<Histograms.Histogram>)

  datatype ExportColumn = ExportColumn(
    name: string, stats: ExportColumnStats, quality: ExportQuality, notes: seq<string>)

  datatype JsonExport = JsonExport(meta: ExportMeta, summary: ExportSummary, columns: seq<ExportColumn>)

  /**
   * The exported completeness: present values per value, 0 for an empty
   * column. `count - missing` is an unsigned subtraction, so the source
   * needs `missing <= count`.
   */
  function ExportCompleteness(count: nat, missing: nat): (r: real)
    requires missing <= count
    ensures count == 0 ==> r == 0.0
    ensures 0.0 <= r <= 1.0
    ensures count > 0 ==> r * (count as real) == (count - missing) as real
    ensures r == 1.0 <==> count > 0 && missing == 0
  {
    if count > 0 then
      Completeness.ShareBounds(count - missing, count);
      (count - missing) as real / count as real
    else 0.0
  }

  /**
   * The exported uniqueness: distinct per present value, capped at 1, and
   * 0 when no value is present.
   */
  function ExportUniqueness(count: nat, missing: nat, distinct: nat): (r: real)
    ensures 0.0 <= r <= 1.0
    ensures count <= missing ==> r == 0.0
    ensures count > missing && distinct >= count - missing ==> r == 1.0
    ensures count > missing && distinct <= count - missing ==> r * ((count - missing) as real) == distinct as real
  {
    if count > missing && count > 0 then
      var valid := count - missing;
      var q := distinct as real / valid as real;
      assert q * (valid as real) == distinct as real;
      if distinct <= valid then Completeness.ShareBounds(distinct, valid); q
      else
        assert (q - 1.0) * (valid as real) == (distinct - valid) as real;
        Min(q, 1.0)
    else 0.0
  }

  function Min(a: real, b: real): real {
    if a <= b then a else b
  }

  /**
   * The exported scores against the quality module's: equal for a column
   * with values (uniqueness capped at 1), but an empty column exports 0
   * where the quality scores give 1.
   */
  lemma ScoresAgainstQuality(count: nat, missing: nat, distinct: nat)
    requires missing <= count
    ensures count > 0 ==> ExportCompleteness(count, missing) == Completeness.CalculateCompleteness(count, missing)
    ensures count == 0 ==> ExportCompleteness(count, missing) == 0.0 && Completeness.CalculateCompleteness(count, missing) == 1.0
    ensures count > missing ==>
      ExportUniqueness(count, missing, distinct) == Min(Uniqueness.CalculateUniqueness(count, missing, distinct), 1.0)
    ensures count == missing ==>
      ExportUniqueness(count, missing, distinct) == 0.0 && Uniqueness.CalculateUniqueness(count, missing, distinct) == 1.0
  {
    if count > 0 {
      var c, q := ExportCompleteness(count, missing), Completeness.CalculateCompleteness(count, missing);
      assert c * (count as real) == q * (count as real);
      CancelFactor(c, q, count as real);
    }
    if count > missing {
      var valid := count - missing;
      var u := Uniqueness.CalculateUniqueness(count, missing, distinct);
      assert u * (valid as real) == distinct as real;
      var e := ExportUniqueness(count, missing, distinct);
      if distinct <= valid {
        assert e * (valid as real) == u * (valid as real);
        CancelFactor(e, u, valid as real);
        Completeness.ShareBounds(distinct, valid);
      } else {
        assert (u - 1.0) * (valid as real) == (distinct - valid) as real;
      }
    }
  }

  lemma CancelFactor(a: real, b: real, f: real)
    requires f > 0.0 && a * f == b * f
    ensures a == b
  {
    assert (a - b) * f == 0.0;
  }

  /** `convert_numeric_stats`: the exported fields of the numeric statistics. */
  function ConvertNumericStats(s: Numeric.NumericSummary): (e: ExportNumericStats)
    ensures e.min == s.min && e.max == s.max && e.mean == s.mean && e.sum == s.sum
    ensures e.median == s.quantiles.median && e.p25 == s.quantiles.p25 && e.p75 == s.quantiles.p75
    ensures e.p90 == s.quantiles.p90 && e.p95 == s.quantiles.p95 && e.p99 == s.quantiles.p99
  {
    var q := s.quantiles;
    ExportNumericStats(s.min, s.max, s.mean, q.median, s.sum, q.p25, q.p75, q.p90, q.p95, q.p99)
  }

  /**
   * `convert_column`: the counters, type name and length bounds are copied,
   * each optional section is present exactly when the profile has it, and
   * the quality block holds the two scores and the PII flag.
   */
  function ConvertColumn(p: ColumnProfiles.ColumnReport): (c: ExportColumn)
    requires p.baseStats.missing <= p.baseStats.count
    ensures c.name == p.name && c.notes == p.notes
    ensures c.stats.count == p.baseStats.count && c.stats.missing == p.baseStats.missing
    ensures c.stats.distinct == p.baseStats.distinctEstimate
    ensures c.stats.inferredType == DataTypeName(p.baseStats.inferredType)
    ensures c.stats.minLength == p.minLength && c.stats.maxLength == p.maxLength
    ensures c.stats.numeric.Some? <==> p.numericStats.Some?
    ensures p.numericStats.Some? ==> c.stats.numeric.value == ConvertNumericStats(p.numericStats.value)
    ensures c.stats.categorical == p.categoricalStats && c.stats.histogram == p.histogram
    ensures c.quality.completeness == ExportCompleteness(p.baseStats.count, p.baseStats.missing)
    ensures c.quality.uniqueness ==
      ExportUniqueness(p.baseStats.count, p.baseStats.missing, p.baseStats.distinctEstimate)
    ensures c.quality.isPotentialPii == Pii.IsPotentialPii(p.name)
  {
    var b := p.baseStats;
    ExportColumn(
      p.name,
      ExportColumnStats(
        b.count, b.missing, b.distinctEstimate, DataTypeName(b.inferredType),
        p.minLength, p.maxLength,
        if p.numericStats.Some? then Some(ConvertNumericStats(p.numericStats.value)) else None,
        p.categoricalStats, p.histogram),
      ExportQuality(
        ExportCompleteness(b.count, b.missing),
        ExportUniqueness(b.count, b.missing, b.distinctEstimate),
        Pii.IsPotentialPii(p.name)),
      p.notes)
  }

  /** Every report's missing count is within its count. */
  ghost predicate CountsConsistent(reports: seq<ColumnProfiles.ColumnReport>) {
    forall i :: 0 <= i < |reports| ==> reports[i].baseStats.missing <= reports[i].baseStats.count
  }

  /** The columns in profile order, one exported column per profile. */
  function ConvertColumns(reports: seq<ColumnProfiles.ColumnReport>): (cs: seq<ExportColumn>)
    requires CountsConsistent(reports)
    ensures |cs| == |reports|
    ensures forall i :: 0 <= i < |reports| ==> cs[i] == ConvertColumn(reports[i])
  {
    if reports == [] then []
    else ConvertColumns(reports[..|reports| - 1]) + [ConvertColumn(reports[|reports| - 1])]
  }

  /**
   * `generate_json_export`: the metadata with the version constant, the row
   * count and the number of columns, and the columns in profile order. The
   * time stamp is a parameter.
   */
  function GenerateJsonExport(
    result: Profiling.ProfilerResult, fileName: string, fileSize: nat, processingTimeMs: nat, generatedAt: string)
    : (e: JsonExport)
    requires CountsConsistent(result.columnProfiles)
    ensures e.meta == ExportMeta(generatedAt, DatacertVersion, fileName, fileSize, processingTimeMs)
    ensures e.summary.totalRows == result.totalRows
    ensures e.summary.totalColumns == |e.columns| == |result.columnProfiles|
    ensures forall i :: 0 <= i < |e.columns| ==> e.columns[i] == ConvertColumn(result.columnProfiles[i])
  {
    JsonExport(
      ExportMeta(generatedAt, DatacertVersion, fileName, fileSize, processingTimeMs),
      ExportSummary(result.totalRows, |result.columnProfiles|),
      ConvertColumns(result.columnProfiles))
  }

  /** A set of values has no more elements than the sequence they come from. */
  lemma {:induction false} SetOfSize(vs: seq<string>)
    ensures |ColumnProfiles.SetOf(vs)| <= |vs|
  {
    if vs != [] {
      SetOfSize(vs[..|vs| - 1]);
    }
  }

  /** `part / whole`, and 0 for an empty whole. */
  function Share(part: nat, whole: nat): (r: real)
    ensures whole == 0 ==> r == 0.0
    ensures whole > 0 ==> r * (whole as real) == part as real
  {
    if whole == 0 then 0.0 else part as real / whole as real
  }

  /** With `valid` present values out of `count` and `distinct <= valid`, both scores are plain shares. */
  lemma ScoresOfCounts(count: nat, missing: nat, valid: nat, distinct: nat)
    requires missing + valid == count && distinct <= valid
    ensures missing <= count
    ensures ExportCompleteness(count, missing) == Share(valid, count)
    ensures ExportUniqueness(count, missing, distinct) == Share(distinct, valid)
  {
    if count > 0 {
      CancelFactor(ExportCompleteness(count, missing), Share(valid, count), count as real);
    }
    if valid > 0 {
      CancelFactor(ExportUniqueness(count, missing, distinct), Share(distinct, valid), valid as real);
    }
  }

  /** The counters of a column's cells make both scores plain shares of its cells. */
  lemma ProfiledColumnScores(column: seq<string>, missing: nat, valid: nat, distinct: nat)
    requires missing == ColumnProfiles.MissingCount(column) && valid == |ColumnProfiles.ValidCells(column)|
    requires distinct == |ColumnProfiles.SetOf(ColumnProfiles.ValidCells(column))|
    ensures missing <= |column|
    ensures ExportCompleteness(|column|, missing) == Share(valid, |column|)
    ensures ExportUniqueness(|column|, missing, distinct) == Share(distinct, valid)
  {
    ColumnCounts(column, missing, valid, distinct);
    ScoresOfCounts(|column|, missing, valid, distinct);
  }

  /** Every cell is missing or valid, and there are no more distinct valid cells than valid cells. */
  lemma ColumnCounts(column: seq<string>, missing: nat, valid: nat, distinct: nat)
    requires missing == ColumnProfiles.MissingCount(column) && valid == |ColumnProfiles.ValidCells(column)|
    requires distinct == |ColumnProfiles.SetOf(ColumnProfiles.ValidCells(column))|
    ensures missing + valid == |column| && distinct <= valid
  {
    ColumnProfiles.MissingPlusValid(column);
    SetOfSize(ColumnProfiles.ValidCells(column));
  }

  /**
   * Exporting what the profiler reports for `rows`: the counts of a profiler
   * report are always consistent, the columns follow the headers, and the
   * scores are the exact shares of present and of distinct present cells,
   * never capped.
   */
  lemma ExportOfProfiledRows(
    result: Profiling.ProfilerResult, headers: seq<string>, rows: seq<seq<string>>,
    fileName: string, fileSize: nat, processingTimeMs: nat, generatedAt: string)
    requires |result.columnProfiles| == |headers|
    requires forall i :: 0 <= i < |headers| ==>
      var column := Profiling.ColumnCells(rows, i);
      var b := result.columnProfiles[i].baseStats;
      && result.columnProfiles[i].name == headers[i]
      && b.count == |column| && b.missing == ColumnProfiles.MissingCount(column)
      && b.distinctEstimate == |ColumnProfiles.SetOf(ColumnProfiles.ValidCells(column))|
    ensures CountsConsistent(result.columnProfiles)
    ensures CountsConsistent(result.columnProfiles) ==>
      var e := GenerateJsonExport(result, fileName, fileSize, processingTimeMs, generatedAt);
      && |e.columns| == |headers|
      && forall i :: 0 <= i < |headers| ==>
        var column := Profiling.ColumnCells(rows, i);
        var valid := |ColumnProfiles.ValidCells(column)|;
        var q := e.columns[i].quality;
        && e.columns[i].name == headers[i]
        && q.completeness == Share(valid, |column|)
        && q.uniqueness == Share(|ColumnProfiles.SetOf(ColumnProfiles.ValidCells(column))|, valid)
  {
    var reports := result.columnProfiles;
    forall i | 0 <= i < |headers|
      ensures reports[i].baseStats.missing <= reports[i].baseStats.count
      ensures var column := Profiling.ColumnCells(rows, i);
        var valid := |ColumnProfiles.ValidCells(column)|;
        var q := ConvertColumn(reports[i]).quality;
        && q.completeness == Share(valid, |column|)
        && q.uniqueness == Share(|ColumnProfiles.SetOf(ColumnProfiles.ValidCells(column))|, valid)
    {
      var column := Profiling.ColumnCells(rows, i);
      var b := reports[i].baseStats;
      ProfiledColumnScores(column, b.missing, |ColumnProfiles.ValidCells(column)|, b.distinctEstimate);
    }
  }
}
