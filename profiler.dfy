/**
 * The profiler (`src/wasm/src/stats/profiler.rs`): one column profile per
 * header, fed row by row, and a duplicate detector that sees every row.
 */
module Profiling {
  import opened Wrappers
  import opened Types
  import opened ColumnProfiles
  import Duplicates
  import Histograms

  /** The cells a column receives: the `i`-th cell of every row long enough to have one. */
  function ColumnCells(rows: seq<seq<string>>, i: nat): (r: seq<string>)
    ensures |r| <= |rows|
  {
    if rows == [] then []
    else
      var last := rows[|rows| - 1];
      ColumnCells(rows[..|rows| - 1], i) + (if i < |last| then [last[i]] else [])
  }

  lemma ColumnCellsSnoc(rows: seq<seq<string>>, row: seq<string>, i: nat)
    ensures ColumnCells(rows + [row], i) == ColumnCells(rows, i) + (if i < |row| then [row[i]] else [])
  {
    assert (rows + [row])[..|rows|] == rows;
  }

  lemma ColumnCellsSnocAll(rows: seq<seq<string>>, row: seq<string>, n: nat)
    ensures forall i :: 0 <= i < n ==>
      ColumnCells(rows + [row], i) == ColumnCells(rows, i) + (if i < |row| then [row[i]] else [])
  {
    forall i | 0 <= i < n
      ensures ColumnCells(rows + [row], i) == ColumnCells(rows, i) + (if i < |row| then [row[i]] else [])
    {
      ColumnCellsSnoc(rows, row, i);
    }
  }

  /** A column of rows that all have a cell for it has one cell per row, in row order. */
  lemma {:induction false} ColumnCellsFull(rows: seq<seq<string>>, i: nat)
    requires forall r :: r in rows ==> i < |r|
    ensures |ColumnCells(rows, i)| == |rows|
    ensures forall k :: 0 <= k < |rows| ==> ColumnCells(rows, i)[k] == rows[k][i]
  {
    if rows != [] {
      var init := rows[..|rows| - 1];
      assert forall r :: r in init ==> r in rows;
      ColumnCellsFull(init, i);
    }
  }

  /** Always true: the trigger that unseals `Sealed`. */
  ghost function Key(k: nat): bool {
    true
  }

  /**
   * The profile is well formed, stated behind the `Key` trigger: reasoning
   * about which profile owns which objects then does not unfold the
   * profile's invariant, and `Key(0)` unfolds it where it is needed.
   */
  ghost predicate Sealed(p: ColumnProfile)
    reads p.Repr()
  {
    forall k: nat {:trigger Key(k)} :: Key(k) ==> p.Valid()
  }

  /** A profile none of whose objects changed stays sealed. */
  twostate lemma SealedFrame(q: ColumnProfile)
    requires unchanged(q.Repr())
    ensures Sealed(q) == old(Sealed(q))
  {
  }

  /** `update` on a sealed profile. */
  method UpdateSealed(p: ColumnProfile, value: string)
    requires Sealed(p) && |p.cells| + 1 < Histograms.Pow2(p.usizeBits)
    modifies p.Repr()
    ensures Sealed(p) && p.cells == old(p.cells) + [value]
  {
    assert Key(0);
    ProfileOfCounts(p.cells, p.parseFloat);
    ProfileOfCounters(p.cells, p.parseFloat);
    SmallRemainder(p.numericCount + 1, Histograms.Pow2(p.usizeBits));
    p.Update(value);
  }

  lemma SmallRemainder(a: nat, m: nat)
    requires 0 < a < m
    ensures a % m != 0
  {
  }

  /**
   * Two profiles share no object: they are different profiles with different
   * accumulators. Objects of different classes are distinct anyway.
   */
  predicate Apart(p: ColumnProfile, q: ColumnProfile) {
    p != q && p.catAcc != q.catAcc && p.numeric != q.numeric && p.histAcc != q.histAcc
  }

  /** The profiles of `Profiler::new`: empty, pairwise apart, one per header. */
  method NewProfiles(headers: seq<string>, parseFloat: string -> Option<real>, usizeBits: nat)
    returns (ps: seq<ColumnProfile>)
    ensures |ps| == |headers|
    ensures forall i, j :: 0 <= i < |ps| && 0 <= j < |ps| && i != j ==> Apart(ps[i], ps[j])
    ensures forall i :: 0 <= i < |ps| ==>
      && Sealed(ps[i]) && ps[i].name == headers[i] && ps[i].usizeBits == usizeBits
      && ps[i].cells == [] && ps[i].baseStats == BaseStats(0, 0, 0, Null) && ps[i].parseFloat == parseFloat
  {
    ps := [];
    var k := 0;
    while k < |headers|
      invariant 0 <= k <= |headers| && |ps| == k
      invariant forall i, j :: 0 <= i < k && 0 <= j < k && i != j ==> Apart(ps[i], ps[j])
      invariant forall i :: 0 <= i < k ==>
        && Sealed(ps[i]) && ps[i].name == headers[i] && ps[i].usizeBits == usizeBits
        && ps[i].cells == [] && ps[i].baseStats == BaseStats(0, 0, 0, Null) && ps[i].parseFloat == parseFloat
    {
      label before:
      var p := new ColumnProfile(headers[k], parseFloat, usizeBits);
      assert fresh@before(p.Repr());
      forall i | 0 <= i < k
        ensures Sealed(ps[i]) && Apart(ps[i], p) && Apart(p, ps[i])
      {
        SealedFrame@before(ps[i]);
      }
      ps := ps + [p];
      k := k + 1;
    }
  }

  /** `finalize` on a sealed profile: its report counts the cells it was fed. */
  method FinalizeSealed(p: ColumnProfile)
    requires Sealed(p)
    modifies p, p.numeric
    ensures ReportsColumn(p.Report(), p.name, p.cells) && p.cells == old(p.cells)
  {
    assert Key(0);
    ProfileOfCounts(p.cells, p.parseFloat);
    ProfileOfValues(p.cells, p.parseFloat);
    p.Finalize();
  }

  /** What `finalize` returns: the finalized profiles, the row count and the duplicate issues. */
  datatype ProfilerResult = ProfilerResult(
    columnProfiles: seq<ColumnReport>,
    totalRows: nat,
    duplicateIssues: seq<QualityIssue>)

  class Profiler {
    const profiles: seq<ColumnProfile>
    const headers: seq<string>
    const detector: Duplicates.DuplicateDetector
    /** The width of `usize`, shared by every profile's reservoir sampling. */
    const usizeBits: nat
    var totalRows: nat
    /** Every row passed to `UpdateBatch`, in order. */
    ghost var rows: seq<seq<string>>

    /** The profiler and everything it owns. */
    ghost function Repr(): set<object> {
      {this, detector} + Parts()
    }

    /** The objects of every profile. */
    ghost function Parts(): set<object> {
      (set i | 0 <= i < |profiles| :: profiles[i] as object)
      + (set i | 0 <= i < |profiles| :: profiles[i].catAcc as object)
      + (set i | 0 <= i < |profiles| :: profiles[i].numeric as object)
      + (set i | 0 <= i < |profiles| :: profiles[i].histAcc as object)
    }

    /** The profiles share no object, and each is named after its header. */
    predicate Owned() {
      && |profiles| == |headers|
      && (forall i :: 0 <= i < |profiles| ==>
            profiles[i].name == headers[i] && profiles[i].usizeBits == usizeBits)
      && (forall i, j :: 0 <= i < |profiles| && 0 <= j < |profiles| && i != j ==> Apart(profiles[i], profiles[j]))
    }

    /** Ownership holds and every profile and the detector are well formed. */
    ghost predicate Sound()
      reads detector, Parts()
    {
      && Owned() && this !in Parts() && detector !in Parts()
      && (forall i :: 0 <= i < |profiles| ==> Sealed(profiles[i]))
      && detector.Valid()
    }

    /** Every profile has seen its column of the rows, and the rows are counted. */
    ghost predicate Fed()
      reads this, profiles
    {
      && totalRows == |rows|
      && forall i :: 0 <= i < |profiles| ==> profiles[i].cells == ColumnCells(rows, i)
    }

    /** Well formed, every profile has seen its column of the rows, and the detector every row. */
    ghost predicate Valid()
      reads this, detector, Parts()
    {
      && Sound()
      && Fed()
      && detector.rows == rows
    }

    /** `Profiler::new`: one empty profile per header, in header order. */
    constructor(headers: seq<string>, parseFloat: string -> Option<real>, usizeBits: nat)
      ensures Valid()
      ensures this.headers == headers && this.usizeBits == usizeBits
      ensures totalRows == 0 && rows == []
      ensures forall i :: 0 <= i < |headers| ==>
        profiles[i].baseStats == BaseStats(0, 0, 0, Null) && profiles[i].parseFloat == parseFloat
    {
      var ps := NewProfiles(headers, parseFloat, usizeBits);
      var d := new Duplicates.DuplicateDetector();
      profiles, this.headers, detector, this.usizeBits := ps, headers, d, usizeBits;
      totalRows := 0;
      rows := [];
    }

    /** One cell to profile `i`: only that profile's objects change. */
    method Feed(i: nat, value: string)
      requires Sound() && i < |profiles|
      requires |profiles[i].cells| + 1 < Histograms.Pow2(usizeBits)
      modifies profiles[i].Repr()
      ensures Sound()
      ensures profiles[i].cells == old(profiles[i].cells) + [value]
      ensures forall j :: 0 <= j < |profiles| && j != i ==> profiles[j].cells == old(profiles[j].cells)
      ensures detector.rows == old(detector.rows)
    {
      var p := profiles[i];
      UpdateSealed(p, value);
      forall j | 0 <= j < |profiles| && j != i
        ensures Sealed(profiles[j]) && profiles[j].cells == old(profiles[j].cells)
      {
        assert Apart(p, profiles[j]);
        SealedFrame(profiles[j]);
      }
    }

    /** One row: cell `i` goes to profile `i`, cells beyond the last header are dropped. */
    method FeedRow(row: seq<string>)
      requires Sound()
      requires forall j :: 0 <= j < |profiles| ==> |profiles[j].cells| + 1 < Histograms.Pow2(usizeBits)
      modifies Parts()
      ensures Sound()
      ensures forall j :: 0 <= j < |profiles| ==>
        profiles[j].cells == old(profiles[j].cells) + (if j < |row| then [row[j]] else [])
      ensures detector.rows == old(detector.rows)
    {
      var c := 0;
      while c < |row| && c < |profiles|
        invariant 0 <= c <= |row| && c <= |profiles|
        invariant Sound()
        invariant forall j :: 0 <= j < c ==> profiles[j].cells == old(profiles[j].cells) + [row[j]]
        invariant forall j :: c <= j < |profiles| ==> profiles[j].cells == old(profiles[j].cells)
        invariant detector.rows == old(detector.rows)
      {
        Feed(c, row[c]);
        c := c + 1;
      }
    }

    /**
     * `update_batch`: the detector sees the whole batch, then every row is
     * counted and routed to the profiles. The row count must stay below the
     * `usize` range, as the reservoir sampling casts it.
     */
    method UpdateBatch(batch: seq<seq<string>>)
      requires Valid()
      requires |rows| + |batch| < Histograms.Pow2(usizeBits)
      modifies Repr()
      ensures Valid()
      ensures rows == old(rows) + batch
      ensures totalRows == old(totalRows) + |batch|
    {
      detector.ProcessBatch(batch);
      forall j | 0 <= j < |profiles|
        ensures Sealed(profiles[j])
      {
        SealedFrame(profiles[j]);
      }
      var k := 0;
      while k < |batch|
        invariant 0 <= k <= |batch|
        invariant Sound() && Fed()
        invariant rows == old(rows) + batch[..k]
        invariant detector.rows == old(rows) + batch
      {
        assert batch[..k + 1] == batch[..k] + [batch[k]];
        AddRow(batch[k]);
        k := k + 1;
      }
      assert batch[..k] == batch;
    }

    /** The body of the row loop of `update_batch`: count the row, then route its cells. */
    method AddRow(row: seq<string>)
      requires Sound() && Fed()
      requires |rows| + 1 < Histograms.Pow2(usizeBits)
      modifies Repr()
      ensures Sound() && Fed()
      ensures rows == old(rows) + [row] && detector.rows == old(detector.rows)
    {
      ColumnCellsSnocAll(rows, row, |profiles|);
      FeedRow(row);
      totalRows, rows := totalRows + 1, rows + [row];
    }

    /**
     * `finalize`: every profile is finalized and reported in header order
     * with the counts of its column; the duplicate issues come from the
     * detector's count and share.
     */
    method Finalize() returns (result: ProfilerResult)
      requires Valid()
      modifies Repr()
      ensures detector.Valid() && detector.rows == rows
      ensures result.totalRows == totalRows == |rows|
      ensures result.duplicateIssues ==
        Duplicates.CheckDuplicateIssues(Duplicates.RepeatCount(rows), detector.DuplicatePercentage())
      ensures |result.columnProfiles| == |headers|
      ensures forall i :: 0 <= i < |headers| ==>
        var column := ColumnCells(rows, i);
        var b := result.columnProfiles[i].baseStats;
        && result.columnProfiles[i].name == headers[i]
        && b.count == |column| && b.missing == MissingCount(column)
        && b.distinctEstimate == |SetOf(ValidCells(column))|
    {
      var reports: seq<ColumnReport> := [];
      var k := 0;
      while k < |profiles|
        invariant 0 <= k <= |profiles| && |reports| == k
        invariant Owned() && rows == old(rows) && totalRows == old(totalRows)
        invariant detector.Valid() && detector.rows == rows
        invariant forall j :: k <= j < |profiles| ==> Sealed(profiles[j])
        invariant forall j :: 0 <= j < |profiles| ==> profiles[j].cells == ColumnCells(rows, j)
        invariant forall j :: 0 <= j < k ==> ReportsColumn(reports[j], headers[j], ColumnCells(rows, j))
      {
        FinalizeProfile(k);
        reports := reports + [profiles[k].Report()];
        k := k + 1;
      }
      var issues := Duplicates.CheckDuplicateIssues(detector.duplicateCount, detector.DuplicatePercentage());
      result := ProfilerResult(reports, totalRows, issues);
    }

    /** Profile `k` is finalized; the others, and the detector, stay as they were. */
    method FinalizeProfile(k: nat)
      requires Owned() && k < |profiles| && Sealed(profiles[k])
      modifies profiles[k], profiles[k].numeric
      ensures ReportsColumn(profiles[k].Report(), headers[k], profiles[k].cells)
      ensures forall j :: 0 <= j < |profiles| ==> profiles[j].cells == old(profiles[j].cells)
      ensures forall j :: 0 <= j < |profiles| && j != k ==> Sealed(profiles[j]) == old(Sealed(profiles[j]))
    {
      var p := profiles[k];
      FinalizeSealed(p);
      forall j | 0 <= j < |profiles| && j != k
        ensures Sealed(profiles[j]) == old(Sealed(profiles[j]))
      {
        assert Apart(p, profiles[j]);
        SealedFrame(profiles[j]);
      }
    }
  }

  /** A report names the column and counts its cells, missing cells and distinct valid values. */
  ghost predicate ReportsColumn(r: ColumnReport, name: string, column: seq<string>) {
    && r.name == name
    && r.baseStats.count == |column|
    && r.baseStats.missing == MissingCount(column)
    && r.baseStats.distinctEstimate == |SetOf(ValidCells(column))|
  }
}
