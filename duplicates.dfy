/**
 * Exact duplicate-row detection (`src/wasm/src/quality/duplicates.rs`): a
 * row is a duplicate when an equal row was processed before it.
 */
module Duplicates {
  import opened Types

  type Row = seq<string>

  /** How many rows of `rows` repeat a row that came earlier. */
  function RepeatCount(rows: seq<Row>): nat {
    if rows == [] then 0
    else RepeatCount(rows[..|rows| - 1]) + (if rows[|rows| - 1] in rows[..|rows| - 1] then 1 else 0)
  }

  /** The distinct rows of `rows`. */
  function RowSet(rows: seq<Row>): (r: set<Row>)
    ensures forall x :: x in r <==> x in rows
  {
    set x | x in rows
  }

  /** Every row is either the first of its kind or a repeat: repeats + distinct rows = rows. */
  lemma {:induction false} RepeatsPlusDistinct(rows: seq<Row>)
    ensures RepeatCount(rows) + |RowSet(rows)| == |rows|
  {
    if rows != [] {
      var init, last := rows[..|rows| - 1], rows[|rows| - 1];
      RepeatsPlusDistinct(init);
      assert rows == init + [last];
      if last in init {
        assert RowSet(rows) == RowSet(init);
      } else {
        assert RowSet(rows) == RowSet(init) + {last};
      }
    }
  }

  /** A row that occurs only once never counts. */
  lemma {:induction false} NoRepeatsWhenDistinct(rows: seq<Row>)
    requires forall i, j :: 0 <= i < j < |rows| ==> rows[i] != rows[j]
    ensures RepeatCount(rows) == 0
  {
    if rows != [] {
      var init := rows[..|rows| - 1];
      NoRepeatsWhenDistinct(init);
      assert rows[|rows| - 1] !in init by {
        forall i | 0 <= i < |init| ensures init[i] != rows[|rows| - 1] {
          assert init[i] == rows[i];
        }
      }
    }
  }

  class DuplicateDetector {
    var seenRows: set<Row>
    var duplicateCount: nat
    var totalRows: nat
    /** Every row processed so far, in order. */
    ghost var rows: seq<Row>

    ghost predicate Valid()
      reads this
    {
      && seenRows == RowSet(rows)
      && totalRows == |rows|
      && duplicateCount == RepeatCount(rows)
    }

    constructor()
      ensures Valid() && rows == []
      ensures seenRows == {} && duplicateCount == 0 && totalRows == 0
    {
      seenRows, duplicateCount, totalRows := {}, 0, 0;
      rows := [];
    }

    /** `process_batch`: every row is counted, and counted again as a duplicate when it was seen. */
    method ProcessBatch(batch: seq<Row>)
      requires Valid()
      modifies this
      ensures Valid() && rows == old(rows) + batch
    {
      var i := 0;
      while i < |batch|
        invariant 0 <= i <= |batch|
        invariant Valid() && rows == old(rows) + batch[..i]
      {
        var row := batch[i];
        assert batch[..i + 1] == batch[..i] + [row];
        assert (rows + [row])[..|rows|] == rows;
        totalRows := totalRows + 1;
        if row in seenRows {
          duplicateCount := duplicateCount + 1;
        }
        seenRows := seenRows + {row};
        rows := rows + [row];
        i := i + 1;
      }
      assert batch[..i] == batch;
    }

    /** `duplicate_percentage`: the share of duplicate rows, in percent; 0 before any row. */
    function DuplicatePercentage(): (r: real)
      reads this
      requires Valid()
      ensures totalRows == 0 ==> r == 0.0
      ensures 0.0 <= r <= 100.0
      ensures totalRows > 0 ==> r * (totalRows as real) == 100.0 * (duplicateCount as real)
    {
      RepeatsPlusDistinct(rows);
      if totalRows == 0 then 0.0
      else
        var r := (duplicateCount as real / totalRows as real) * 100.0;
        assert duplicateCount as real <= totalRows as real;
        Percent(duplicateCount, totalRows);
        r
    }
  }

  /** Bounds of a share in percent, and the equation that defines it. */
  lemma Percent(part: nat, whole: nat)
    requires 0 < whole && part <= whole
    ensures var r := (part as real / whole as real) * 100.0;
      0.0 <= r <= 100.0 && r * (whole as real) == 100.0 * (part as real)
  {
    var q := part as real / whole as real;
    assert q * (whole as real) == part as real;
    assert (1.0 - q) * (whole as real) == (whole - part) as real;
  }

  function DuplicateSeverity(percentage: real): Severity {
    if percentage > 10.0 then Error
    else if percentage > 1.0 then Warning
    else Info
  }

  /** `check_duplicate_issues`: nothing without duplicates, otherwise one `duplicate_rows` issue. */
  function CheckDuplicateIssues(duplicateCount: nat, percentage: real): (r: seq<QualityIssue>)
    ensures duplicateCount == 0 <==> r == []
    ensures r != [] ==> |r| == 1 && r[0].id == "duplicate_rows" && r[0].severity == DuplicateSeverity(percentage)
  {
    if duplicateCount == 0 then []
    else [QualityIssue("duplicate_rows", DuplicateSeverity(percentage))]
  }

  function SeverityRank(s: Severity): nat {
    match s
    case Info => 0
    case Warning => 1
    case Error => 2
  }

  /**
   * Error above 10%, Warning above 1%, Info otherwise: a larger share never
   * gets a milder severity.
   */
  lemma DuplicateSeverityThresholds(p: real, q: real)
    ensures DuplicateSeverity(p) == Error <==> p > 10.0
    ensures DuplicateSeverity(p) == Warning <==> 1.0 < p <= 10.0
    ensures DuplicateSeverity(p) == Info <==> p <= 1.0
    ensures p <= q ==> SeverityRank(DuplicateSeverity(p)) <= SeverityRank(DuplicateSeverity(q))
  {
  }

  /** The five-row example: two rows repeat, so two duplicates out of five, 40%. */
  lemma FiveRowExample()
    ensures var rows := [["a", "b", "c"], ["d", "e", "f"], ["a", "b", "c"], ["g", "h", "i"], ["d", "e", "f"]];
      RepeatCount(rows) == 2 && |rows| == 5 && (2 as real / 5 as real) * 100.0 == 40.0
  {
    var rows: seq<Row> := [["a", "b", "c"], ["d", "e", "f"], ["a", "b", "c"], ["g", "h", "i"], ["d", "e", "f"]];
    assert rows[..4][..3] == rows[..3];
    assert rows[..3][..2] == rows[..2];
    assert rows[..2][..1] == rows[..1];
    assert rows[..4][1] == rows[4];
    assert rows[3] !in rows[..3];
    assert rows[..2][0] == rows[2];
    assert rows[1] !in rows[..1];
    assert rows[..1][..0] == [];
    assert RepeatCount(rows[..1]) == 0;
    assert RepeatCount(rows[..2]) == 0;
    assert RepeatCount(rows[..3]) == 1;
    assert RepeatCount(rows[..4]) == 1;
  }
}
