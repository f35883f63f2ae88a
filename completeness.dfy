/**
 * The completeness score and its issues (`src/wasm/src/quality/completeness.rs`).
 * Scores are exact reals; the `u64` counters are naturals.
 */
module Completeness {
  import opened Wrappers
  import opened Types

  /** `a.saturating_sub(b)`. */
  function SaturatingSub(a: nat, b: nat): (r: nat)
    ensures r <= a
    ensures b <= a ==> r + b == a
    ensures b >= a ==> r == 0
  {
    if b <= a then a - b else 0
  }

  /** `calculate_completeness`: the share of present values; an empty column counts as complete. */
  function CalculateCompleteness(total: nat, missing: nat): (r: real)
    ensures total == 0 ==> r == 1.0
    ensures 0.0 <= r <= 1.0
    ensures total > 0 ==> r * (total as real) == SaturatingSub(total, missing) as real
    ensures total > 0 && missing >= total ==> r == 0.0
    ensures r == 1.0 <==> total == 0 || missing == 0
  {
    if total == 0 then 1.0
    else
      var present := SaturatingSub(total, missing);
      ShareBounds(present, total);
      present as real / total as real
  }

  /** `part / whole` lies in [0, 1], is 1 only for the whole, and multiplies back to `part`. */
  lemma ShareBounds(part: nat, whole: nat)
    requires 0 < whole && part <= whole
    ensures var q := part as real / whole as real;
      && 0.0 <= q <= 1.0 && q * (whole as real) == part as real
      && (q == 1.0 <==> part == whole)
  {
    var q := part as real / whole as real;
    assert q * (whole as real) == part as real;
    assert (1.0 - q) * (whole as real) == (whole - part) as real;
    if q == 1.0 {
      assert (whole - part) as real == 0.0 * (whole as real);
    }
  }

  /** Error below one half, Warning below 0.9, Info below 1, nothing for a complete column. */
  function CompletenessSeverity(completeness: real): Option<Severity> {
    if completeness < 0.5 then Some(Error)
    else if completeness < 0.9 then Some(Warning)
    else if completeness < 1.0 then Some(Info)
    else None
  }

  function Suffix(s: Severity): string {
    match s
    case Error => "_completeness_critical"
    case Warning => "_completeness_warning"
    case Info => "_completeness_info"
  }

  /** `check_completeness_issues`: at most one issue, named after the column. */
  function CheckCompletenessIssues(completeness: real, columnName: string): (r: seq<QualityIssue>)
    ensures |r| <= 1
    ensures r == [] <==> completeness >= 1.0
    ensures r != [] ==> columnName <= r[0].id
  {
    match CompletenessSeverity(completeness)
    case None => []
    case Some(s) => [QualityIssue(columnName + Suffix(s), s)]
  }

  function SeverityRank(s: Severity): nat {
    match s
    case Info => 0
    case Warning => 1
    case Error => 2
  }

  /** The issue table: each severity's band, and a less complete column never gets a milder issue. */
  lemma CompletenessIssueTable(c: real, d: real, columnName: string)
    ensures var r := CheckCompletenessIssues(c, columnName);
      && (c < 0.5 ==> r == [QualityIssue(columnName + "_completeness_critical", Error)])
      && (0.5 <= c < 0.9 ==> r == [QualityIssue(columnName + "_completeness_warning", Warning)])
      && (0.9 <= c < 1.0 ==> r == [QualityIssue(columnName + "_completeness_info", Info)])
    ensures c <= d < 1.0 ==>
      SeverityRank(CompletenessSeverity(d).value) <= SeverityRank(CompletenessSeverity(c).value)
  {
  }

  /** A column is reported exactly when it has rows and at least one of them is missing. */
  lemma IssueExactlyWhenMissing(total: nat, missing: nat, columnName: string)
    ensures CheckCompletenessIssues(CalculateCompleteness(total, missing), columnName) != []
        <==> total > 0 && missing > 0
  {
  }

  /** The unit-test values: 85 of 100, all, none, and the empty column. */
  lemma CompletenessExamples()
    ensures CalculateCompleteness(100, 15) == 0.85
    ensures CalculateCompleteness(100, 0) == 1.0
    ensures CalculateCompleteness(100, 100) == 0.0
    ensures CalculateCompleteness(0, 0) == 1.0
  {
  }
}
