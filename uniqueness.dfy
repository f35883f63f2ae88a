/**
 * The uniqueness score and its issues (`src/wasm/src/quality/uniqueness.rs`).
 * The distinct count is whatever the caller passes (an estimate in the
 * profiler), so the score may exceed 1.
 */
module Uniqueness {
  import opened Types
  import Completeness

  /** `calculate_uniqueness`: distinct values per present value; 1 when nothing is present. */
  function CalculateUniqueness(total: nat, missing: nat, distinct: nat): (r: real)
    ensures var present := Completeness.SaturatingSub(total, missing);
      && (present == 0 ==> r == 1.0)
      && (present > 0 ==> r * (present as real) == distinct as real)
      && (present > 0 && distinct <= present ==> 0.0 <= r <= 1.0)
      && 0.0 <= r
  {
    var present := Completeness.SaturatingSub(total, missing);
    if present == 0 then 1.0
    else
      var r := distinct as real / present as real;
      assert r * (present as real) == distinct as real;
      if distinct <= present then Completeness.ShareBounds(distinct, present); r
      else r
  }

  /** The constant-column test: a positive score of at most 2%. */
  predicate LooksConstant(uniqueness: real) {
    uniqueness > 0.0 && uniqueness <= 0.02
  }

  /** The high-cardinality test: a `String` column with over 90% distinct values. */
  predicate HighCardinality(uniqueness: real, inferredType: string) {
    inferredType == "String" && uniqueness > 0.9
  }

  /** `check_uniqueness_issues`: the two independent checks, in this order. */
  function CheckUniquenessIssues(uniqueness: real, columnName: string, inferredType: string): (r: seq<QualityIssue>)
    ensures |r| <= 1
    ensures r == [] <==> !LooksConstant(uniqueness) && !HighCardinality(uniqueness, inferredType)
    ensures LooksConstant(uniqueness) ==> r == [QualityIssue(columnName + "_constant_column", Warning)]
    ensures HighCardinality(uniqueness, inferredType) ==> r == [QualityIssue(columnName + "_high_cardinality", Info)]
  {
    (if LooksConstant(uniqueness) then [QualityIssue(columnName + "_constant_column", Warning)] else [])
    + (if HighCardinality(uniqueness, inferredType) then [QualityIssue(columnName + "_high_cardinality", Info)] else [])
  }

  /**
   * For a column with values present, the constant-column warning fires
   * exactly when there is a distinct value and at least 50 present values per
   * distinct value; a single-valued column of fewer than 50 values is not flagged.
   */
  lemma ConstantWarningExactly(total: nat, missing: nat, distinct: nat)
    requires Completeness.SaturatingSub(total, missing) > 0
    ensures var present := Completeness.SaturatingSub(total, missing);
      LooksConstant(CalculateUniqueness(total, missing, distinct)) <==> 0 < distinct && 50 * distinct <= present
  {
    var present := Completeness.SaturatingSub(total, missing);
    var u := CalculateUniqueness(total, missing, distinct);
    QuotientCompare(u, present as real, distinct as real, 0.02);
    QuotientCompare(u, present as real, distinct as real, 0.0);
  }

  /** A quotient `u` of `d` by a positive `p` is at most `c` exactly when `d` is at most `c * p`. */
  lemma QuotientCompare(u: real, p: real, d: real, c: real)
    requires p > 0.0 && u * p == d
    ensures u <= c <==> d <= c * p
  {
    assert (c - u) * p == c * p - d;
    if u <= c {
      assert (c - u) * p >= 0.0;
    } else {
      assert (u - c) * p > 0.0;
    }
  }

  /** The unit-test values: 80 of 85, all distinct, one value in 100, all null. */
  lemma UniquenessExamples()
    ensures CalculateUniqueness(100, 15, 80) == 80.0 / 85.0
    ensures CalculateUniqueness(100, 0, 100) == 1.0
    ensures CalculateUniqueness(100, 0, 1) == 0.01
    ensures CalculateUniqueness(100, 100, 0) == 1.0
    ensures CheckUniquenessIssues(0.95, "test_col", "Integer") == []
  {
  }
}
