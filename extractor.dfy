/**
 * The row extractor (`src/wasm/src/parser/extractor.rs`): a CSV parser fed
 * chunk by chunk, numbering the rows it returns from 1 across all chunks and
 * the final flush, and keeping the rows whose number was asked for.
 */
module Extraction {
  import opened Wrappers
  import opened CsvParsing

  /** The rows of `rows` whose number is a target, paired with that number; the first row is numbered `first`. */
  function Select(rows: seq<seq<string>>, first: nat, targets: set<nat>): (r: seq<(nat, seq<string>)>)
    ensures |r| <= |rows|
    ensures forall k :: 0 <= k < |r| ==>
      && first <= r[k].0 < first + |rows|
      && r[k].0 in targets
      && r[k].1 == rows[r[k].0 - first]
  {
    if rows == [] then []
    else
      var n := first + |rows| - 1;
      Select(rows[..|rows| - 1], first, targets) + (if n in targets then [(n, rows[|rows| - 1])] else [])
  }

  /** Exactly the targeted rows are selected. */
  lemma {:induction false} SelectExactly(rows: seq<seq<string>>, first: nat, targets: set<nat>, n: nat)
    requires first <= n < first + |rows|
    ensures (n, rows[n - first]) in Select(rows, first, targets) <==> n in targets
  {
    var init := rows[..|rows| - 1];
    if n < first + |rows| - 1 {
      SelectExactly(init, first, targets, n);
      assert init[n - first] == rows[n - first];
    }
  }

  predicate Increasing(r: seq<(nat, seq<string>)>) {
    forall i, j :: 0 <= i < j < |r| ==> r[i].0 < r[j].0
  }

  /** The selected rows come in strictly increasing order of their numbers. */
  lemma {:induction false} SelectIncreasing(rows: seq<seq<string>>, first: nat, targets: set<nat>)
    ensures Increasing(Select(rows, first, targets))
  {
    if rows != [] {
      var init := rows[..|rows| - 1];
      SelectIncreasing(init, first, targets);
      var r, s := Select(rows, first, targets), Select(init, first, targets);
      forall i, j | 0 <= i < j < |r|
        ensures r[i].0 < r[j].0
      {
        assert r[i] == s[i];
        if j < |s| {
          assert r[j] == s[j];
        }
      }
    }
  }

  /** Selecting chunk by chunk, with the numbering carried over, is selecting from all the rows at once. */
  lemma {:induction false} SelectChunks(a: seq<seq<string>>, b: seq<seq<string>>, first: nat, targets: set<nat>)
    ensures Select(a + b, first, targets) == Select(a, first, targets) + Select(b, first + |a|, targets)
  {
    if b == [] {
      assert a + b == a;
    } else {
      var bInit := b[..|b| - 1];
      SelectChunks(a, bInit, first, targets);
      assert (a + b)[..|a + b| - 1] == a + bInit;
    }
  }

  class RowExtractor {
    const parser: CsvParser
    const targetIndices: set<nat>
    var currentRowIndex: nat

    /** The row number is the count of rows the parser has returned. */
    ghost predicate Valid()
      reads this, parser
    {
      parser.Valid() && currentRowIndex == parser.rowsReturned
    }

    /** `RowExtractor::new`: the requested indices, duplicates collapsed, and a fresh parser. */
    constructor(indices: seq<nat>, delimiter: Option<byte>, hasHeaders: bool, reader: RecordReader)
      ensures Valid() && fresh(parser)
      ensures forall n :: n in targetIndices <==> n in indices
      ensures currentRowIndex == 0
      ensures parser.delimiter == (if delimiter.Some? then delimiter.value else Comma)
      ensures parser.hasHeaders == hasHeaders && parser.reader == reader
      ensures parser.headerData == None && parser.remainder == [] && parser.fed == []
    {
      var targetSet: set<nat> := {};
      var i := 0;
      while i < |indices|
        invariant 0 <= i <= |indices|
        invariant forall n :: n in targetSet <==> n in indices[..i]
      {
        assert indices[..i + 1] == indices[..i] + [indices[i]];
        targetSet := targetSet + {indices[i]};
        i := i + 1;
      }
      assert indices[..i] == indices;
      parser := new CsvParser(delimiter, hasHeaders, reader);
      targetIndices := targetSet;
      currentRowIndex := 0;
    }

    /** The loop of `process_chunk` and `flush`: number each row and keep the targeted ones. */
    method Collect(rows: seq<seq<string>>) returns (found: seq<(nat, seq<string>)>)
      modifies this`currentRowIndex
      ensures currentRowIndex == old(currentRowIndex) + |rows|
      ensures found == Select(rows, old(currentRowIndex) + 1, targetIndices)
    {
      found := [];
      var i := 0;
      while i < |rows|
        invariant 0 <= i <= |rows|
        invariant currentRowIndex == old(currentRowIndex) + i
        invariant found == Select(rows[..i], old(currentRowIndex) + 1, targetIndices)
      {
        assert rows[..i + 1][..i] == rows[..i];
        currentRowIndex := currentRowIndex + 1;
        if currentRowIndex in targetIndices {
          found := found + [(currentRowIndex, rows[i])];
        }
        i := i + 1;
      }
      assert rows[..i] == rows;
    }

    /**
     * `process_chunk`: the rows the parser returns for the chunk are numbered
     * on from the last row seen, and the targeted ones are returned.
     */
    method ProcessChunk(chunk: seq<byte>) returns (found: seq<(nat, seq<string>)>, ghost rows: seq<seq<string>>)
      requires Valid()
      modifies this`currentRowIndex
      modifies parser`headerData, parser`malformedCount, parser`totalRows, parser`remainder
      modifies parser`fed, parser`parsed, parser`rowsReturned
      ensures Valid() && parser.fed == old(parser.fed) + chunk
      ensures var split := SplitAtLastNewline(old(parser.remainder) + chunk);
        rows == (if split.0 == [] then []
                 else OkRecords(parser.reader(split.0, parser.delimiter, parser.hasHeaders && old(parser.headerData).None?).records))
      ensures currentRowIndex == old(currentRowIndex) + |rows|
      ensures found == Select(rows, old(currentRowIndex) + 1, targetIndices)
    {
      var result := parser.ParseChunk(chunk);
      rows := result.rows;
      found := Collect(result.rows);
    }

    /** `flush`: the rows left in the parser's buffer are numbered on and selected the same way. */
    method Flush() returns (found: seq<(nat, seq<string>)>, ghost rows: seq<seq<string>>)
      requires Valid()
      modifies this`currentRowIndex
      modifies parser`malformedCount, parser`totalRows, parser`remainder, parser`parsed, parser`rowsReturned
      ensures Valid() && parser.remainder == [] && parser.parsed == parser.fed
      ensures rows == (if old(parser.remainder) == [] then []
                       else OkRecords(parser.reader(old(parser.remainder), parser.delimiter, false).records))
      ensures currentRowIndex == old(currentRowIndex) + |rows|
      ensures found == Select(rows, old(currentRowIndex) + 1, targetIndices)
    {
      var result := parser.Flush();
      rows := result.rows;
      found := Collect(result.rows);
    }
  }
}
