/**
 * The chunked CSV parser (`src/wasm/src/parser/csv.rs`). Bytes arrive in
 * chunks; only the part up to the last newline is handed to the record
 * reader and the rest waits for the next chunk. The csv crate's record
 * splitter is a parameter: a function from a buffer, a delimiter and the
 * has-headers flag to the header it read and one result per record.
 */
module CsvParsing {
  import opened Wrappers

  newtype byte = x: int | 0 <= x < 256

  const Newline: byte := 10
  const Comma: byte := 44
  const Tab: byte := 9
  const Semicolon: byte := 59
  const Pipe: byte := 124

  /** What the record reader yields: the header row (when asked for and readable) and each record or a failure. */
  datatype CsvRead = CsvRead(header: Option<seq<string>>, records: seq<Option<seq<string>>>)

  type RecordReader = (seq<byte>, byte, bool) -> CsvRead

  datatype ParseResult = ParseResult(headers: seq<string>, rows: seq<seq<string>>, malformedCount: nat, totalRows: nat)

  /** `rposition` of the newline byte: the index of the last newline, if any. */
  function LastNewline(data: seq<byte>): (r: Option<nat>)
    ensures r.None? <==> Newline !in data
    ensures r.Some? ==> r.value < |data| && data[r.value] == Newline && Newline !in data[r.value + 1..]
  {
    if |data| == 0 then None
    else if data[|data| - 1] == Newline then Some(|data| - 1)
    else
      var r := LastNewline(data[..|data| - 1]);
      if r.Some? then
        assert data[r.value + 1..] == data[..|data| - 1][r.value + 1..] + [data[|data| - 1]];
        r
      else r
  }

  /**
   * The split of `parse_chunk`: everything up to and including the last
   * newline is parsed now, the rest is kept.
   */
  function SplitAtLastNewline(data: seq<byte>): (r: (seq<byte>, seq<byte>))
    ensures r.0 + r.1 == data
    ensures Newline !in r.1
    ensures r.0 == [] || r.0[|r.0| - 1] == Newline
  {
    match LastNewline(data)
    case Some(pos) =>
      assert data[..pos + 1] + data[pos + 1..] == data;
      (data[..pos + 1], data[pos + 1..])
    case None => ([], data)
  }

  /** Nothing is parsed exactly when the data holds no newline. */
  lemma SplitHeadEmpty(data: seq<byte>)
    ensures SplitAtLastNewline(data).0 == [] <==> Newline !in data
  {
    var r := LastNewline(data);
    if r.Some? {
      assert SplitAtLastNewline(data).0 == data[..r.value + 1];
      assert data[..r.value + 1][r.value] == Newline;
    }
  }

  /** Any split into a newline-terminated (or empty) head and a newline-free tail is the split above. */
  lemma SplitUnique(data: seq<byte>, head: seq<byte>, tail: seq<byte>)
    requires head + tail == data && Newline !in tail
    requires head == [] || head[|head| - 1] == Newline
    ensures (head, tail) == SplitAtLastNewline(data)
  {
    var (p, q) := SplitAtLastNewline(data);
    assert q == data[|p|..] && tail == data[|head|..];
    NoNewlineAfter(data, |p|, |head|);
    NoNewlineAfter(data, |head|, |p|);
    assert head == data[..|head|] && p == data[..|p|];
  }

  /** A newline-free suffix starting at `n` has no newline ending a prefix longer than `n`. */
  lemma NoNewlineAfter(data: seq<byte>, n: nat, k: nat)
    requires n <= |data| && Newline !in data[n..]
    ensures n < k <= |data| ==> data[k - 1] != Newline
  {
    if n < k <= |data| {
      assert data[k - 1] == data[n..][k - 1 - n];
    }
  }

  /** The records the reader returned successfully, in order. */
  function OkRecords(records: seq<Option<seq<string>>>): (rows: seq<seq<string>>)
    ensures |rows| <= |records|
  {
    if records == [] then []
    else
      var last := records[|records| - 1];
      OkRecords(records[..|records| - 1]) + (if last.Some? then [last.value] else [])
  }

  /** The number of records the reader failed on. */
  function Failures(records: seq<Option<seq<string>>>): (n: nat)
    ensures n <= |records|
  {
    if records == [] then 0
    else Failures(records[..|records| - 1]) + (if records[|records| - 1].None? then 1 else 0)
  }

  /** Every record is either returned or counted as malformed, never both. */
  lemma {:induction false} RecordsAccounted(records: seq<Option<seq<string>>>)
    ensures |OkRecords(records)| + Failures(records) == |records|
  {
    if records != [] {
      RecordsAccounted(records[..|records| - 1]);
    }
  }

  /** A returned row is one of the records read, and every successful record is returned. */
  lemma {:induction false} OkRecordsMembers(records: seq<Option<seq<string>>>, row: seq<string>)
    ensures row in OkRecords(records) <==> Some(row) in records
  {
    if records != [] {
      var init := records[..|records| - 1];
      OkRecordsMembers(init, row);
      assert records == init + [records[|records| - 1]];
    }
  }

  function HeadersOrEmpty(h: Option<seq<string>>): seq<string> {
    if h.Some? then h.value else []
  }

  /** Moving a split of the kept bytes and a chunk into the parsed bytes loses and repeats nothing. */
  lemma BufferShift(parsed: seq<byte>, kept: seq<byte>, chunk: seq<byte>, head: seq<byte>, tail: seq<byte>)
    requires head + tail == kept + chunk
    ensures (parsed + head) + tail == (parsed + kept) + chunk
  {
    calc {
      (parsed + head) + tail;
      parsed + (head + tail);
      parsed + (kept + chunk);
      (parsed + kept) + chunk;
    }
  }

  class CsvParser {
    var delimiter: byte
    const hasHeaders: bool
    var headerData: Option<seq<string>>
    var malformedCount: nat
    var totalRows: nat
    var remainder: seq<byte>
    const reader: RecordReader
    /** Every byte given to the parser, every byte handed to the reader, and the rows returned so far. */
    ghost var fed: seq<byte>
    ghost var parsed: seq<byte>
    ghost var rowsReturned: nat

    /** No byte is lost or repeated, the kept bytes hold no newline, and each record counted is returned or malformed. */
    ghost predicate Valid()
      reads this
    {
      && parsed + remainder == fed
      && Newline !in remainder
      && totalRows == rowsReturned + malformedCount
    }

    /** `CsvParser::new`: the delimiter defaults to a comma; no header, counters and remainder empty. */
    constructor(delimiter: Option<byte>, hasHeaders: bool, reader: RecordReader)
      ensures Valid()
      ensures this.delimiter == (if delimiter.Some? then delimiter.value else Comma)
      ensures this.hasHeaders == hasHeaders && this.reader == reader
      ensures headerData == None && malformedCount == 0 && totalRows == 0 && remainder == []
      ensures fed == [] && parsed == [] && rowsReturned == 0
    {
      this.delimiter := if delimiter.Some? then delimiter.value else Comma;
      this.hasHeaders, this.reader := hasHeaders, reader;
      headerData, malformedCount, totalRows, remainder := None, 0, 0, [];
      fed, parsed, rowsReturned := [], [], 0;
    }

    /** `set_delimiter`. */
    method SetDelimiter(delimiter: byte)
      modifies this`delimiter
      ensures this.delimiter == delimiter
    {
      this.delimiter := delimiter;
    }

    /** The record loop shared by `parse_chunk` and `flush`: count every record, keep the good ones. */
    method ConsumeRecords(records: seq<Option<seq<string>>>) returns (rows: seq<seq<string>>)
      requires totalRows == rowsReturned + malformedCount
      modifies this`totalRows, this`malformedCount, this`rowsReturned
      ensures rows == OkRecords(records)
      ensures totalRows == old(totalRows) + |records|
      ensures malformedCount == old(malformedCount) + Failures(records)
      ensures rowsReturned == old(rowsReturned) + |rows|
      ensures totalRows == rowsReturned + malformedCount
    {
      rows := [];
      var i := 0;
      while i < |records|
        invariant 0 <= i <= |records|
        invariant rows == OkRecords(records[..i])
        invariant totalRows == old(totalRows) + i
        invariant malformedCount == old(malformedCount) + Failures(records[..i])
        invariant rowsReturned == old(rowsReturned) + |rows|
        invariant totalRows == rowsReturned + malformedCount
      {
        assert records[..i + 1][..i] == records[..i];
        totalRows := totalRows + 1;
        match records[i] {
          case Some(record) =>
            rows := rows + [record];
            rowsReturned := rowsReturned + 1;
          case None =>
            malformedCount := malformedCount + 1;
        }
        i := i + 1;
      }
      assert records[..i] == records;
    }

    /**
     * `parse_chunk`: the kept bytes and the chunk are split at the last
     * newline; the head goes to the reader (reading a header only while
     * none has been captured), the tail is kept.
     */
    method ParseChunk(chunk: seq<byte>) returns (r: ParseResult)
      requires Valid()
      modifies this`headerData, this`malformedCount, this`totalRows, this`remainder
      modifies this`fed, this`parsed, this`rowsReturned
      ensures Valid() && fed == old(fed) + chunk
      ensures var split := SplitAtLastNewline(old(remainder) + chunk);
        && parsed == old(parsed) + split.0
        && remainder == split.1
        && (split.0 == [] ==>
              && headerData == old(headerData) && r.rows == []
              && totalRows == old(totalRows) && malformedCount == old(malformedCount))
        && (split.0 != [] ==>
              var askHeader := hasHeaders && old(headerData).None?;
              var read := reader(split.0, delimiter, askHeader);
              && headerData == (if askHeader && read.header.Some? then read.header else old(headerData))
              && r.rows == OkRecords(read.records)
              && totalRows == old(totalRows) + |read.records|
              && malformedCount == old(malformedCount) + Failures(read.records))
      ensures old(headerData).Some? ==> headerData == old(headerData)
      ensures rowsReturned == old(rowsReturned) + |r.rows|
      ensures r == ParseResult(HeadersOrEmpty(headerData), r.rows, malformedCount, totalRows)
    {
      var toParse := TakeComplete(chunk);
      var rows := [];
      if toParse != [] {
        rows := ReadHead(toParse);
      }
      r := ParseResult(HeadersOrEmpty(headerData), rows, malformedCount, totalRows);
    }

    /** The buffering step of `parse_chunk`: the complete lines are taken, the rest is kept. */
    method TakeComplete(chunk: seq<byte>) returns (toParse: seq<byte>)
      requires parsed + remainder == fed
      modifies this`remainder, this`parsed, this`fed
      ensures var split := SplitAtLastNewline(old(remainder) + chunk);
        && toParse == split.0 && remainder == split.1
        && parsed == old(parsed) + split.0 && fed == old(fed) + chunk
      ensures parsed + remainder == fed && Newline !in remainder
    {
      var split := SplitAtLastNewline(remainder + chunk);
      BufferShift(parsed, remainder, chunk, split.0, split.1);
      toParse, remainder := split.0, split.1;
      parsed := parsed + toParse;
      fed := fed + chunk;
    }

    /** The reading step of `parse_chunk`: a header is asked for only while none has been captured. */
    method ReadHead(toParse: seq<byte>) returns (rows: seq<seq<string>>)
      requires totalRows == rowsReturned + malformedCount
      modifies this`headerData, this`totalRows, this`malformedCount, this`rowsReturned
      ensures var askHeader := hasHeaders && old(headerData).None?;
        var read := reader(toParse, delimiter, askHeader);
        && headerData == (if askHeader && read.header.Some? then read.header else old(headerData))
        && rows == OkRecords(read.records)
        && totalRows == old(totalRows) + |read.records|
        && malformedCount == old(malformedCount) + Failures(read.records)
      ensures rowsReturned == old(rowsReturned) + |rows|
      ensures totalRows == rowsReturned + malformedCount
    {
      var askHeader := hasHeaders && headerData.None?;
      var read := reader(toParse, delimiter, askHeader);
      if askHeader {
        if read.header.Some? {
          headerData := read.header;
        }
      }
      rows := ConsumeRecords(read.records);
    }

    /** `flush`: the kept bytes are read with no header handling and the buffer is emptied. */
    method Flush() returns (r: ParseResult)
      requires Valid()
      modifies this`malformedCount, this`totalRows, this`remainder, this`parsed, this`rowsReturned
      ensures Valid() && remainder == [] && parsed == fed
      ensures old(remainder) == [] ==> r.rows == [] && totalRows == old(totalRows) && malformedCount == old(malformedCount)
      ensures old(remainder) != [] ==>
        var read := reader(old(remainder), delimiter, false);
        && r.rows == OkRecords(read.records)
        && totalRows == old(totalRows) + |read.records|
        && malformedCount == old(malformedCount) + Failures(read.records)
      ensures rowsReturned == old(rowsReturned) + |r.rows|
      ensures r == ParseResult(HeadersOrEmpty(headerData), r.rows, malformedCount, totalRows)
    {
      var rows := [];
      if remainder != [] {
        var read := reader(remainder, delimiter, false);
        rows := ConsumeRecords(read.records);
        parsed := parsed + remainder;
        remainder := [];
      }
      r := ParseResult(HeadersOrEmpty(headerData), rows, malformedCount, totalRows);
    }
  }

  /** The delimiters tried, in order. */
  const Candidates: seq<byte> := [Comma, Tab, Semicolon, Pipe]

  /** The widths of the successful records, in order. */
  function Widths(records: seq<Option<seq<string>>>): (ws: seq<nat>)
    ensures |ws| <= |records|
  {
    if records == [] then []
    else
      var last := records[|records| - 1];
      Widths(records[..|records| - 1]) + (if last.Some? then [|last.value|] else [])
  }

  /** The first ten results of the reader, or all of them when there are fewer. */
  function FirstTen(records: seq<Option<seq<string>>>): (r: seq<Option<seq<string>>>)
    ensures |r| <= 10 && |r| <= |records| && r == records[..|r|]
    ensures |records| <= 10 ==> r == records
  {
    if |records| <= 10 then records else records[..10]
  }

  /** A consistent shape: more than one record, all of the same width, and that width above one. */
  predicate Consistent(widths: seq<nat>) {
    |widths| > 1 && widths[0] > 1 && forall k :: 0 <= k < |widths| ==> widths[k] == widths[0]
  }

  /** The score of a delimiter: records times width when the first ten results are consistent, else 0. */
  function Score(data: seq<byte>, delim: byte, reader: RecordReader): (s: nat)
    ensures var widths := Widths(FirstTen(reader(data, delim, false).records));
      && (s > 0 <==> Consistent(widths))
      && (s > 0 ==> s == |widths| * widths[0] && s >= 4)
  {
    var widths := Widths(FirstTen(reader(data, delim, false).records));
    if Consistent(widths) then |widths| * widths[0] else 0
  }

  /** The score of one candidate, computed as the reader's first ten results come in. */
  method ScoreDelimiter(data: seq<byte>, delim: byte, reader: RecordReader) returns (score: nat)
    ensures score == Score(data, delim, reader)
  {
    var taken := FirstTen(reader(data, delim, false).records);
    var count := 0;
    var rowLengths: seq<nat> := [];
    var i := 0;
    while i < |taken|
      invariant 0 <= i <= |taken|
      invariant rowLengths == Widths(taken[..i]) && count == |rowLengths|
    {
      assert taken[..i + 1][..i] == taken[..i];
      if taken[i].Some? {
        rowLengths := rowLengths + [|taken[i].value|];
        count := count + 1;
      }
      i := i + 1;
    }
    assert taken[..i] == taken;
    score := 0;
    if count > 1 {
      var firstLen := rowLengths[0];
      if firstLen > 1 && forall k :: 0 <= k < |rowLengths| ==> rowLengths[k] == firstLen {
        score := count * firstLen;
      }
    }
  }

  /**
   * `auto_detect_delimiter`: the first candidate with the highest positive
   * score, and a comma when no candidate scores.
   */
  method AutoDetectDelimiter(data: seq<byte>, reader: RecordReader) returns (best: byte)
    ensures best in Candidates
    ensures forall j :: 0 <= j < |Candidates| ==> Score(data, Candidates[j], reader) <= Score(data, best, reader)
    ensures forall k :: 0 <= k < |Candidates| && Candidates[k] == best ==>
      forall j :: 0 <= j < k ==> Score(data, Candidates[j], reader) < Score(data, best, reader)
    ensures best != Comma ==> Score(data, best, reader) > 0
  {
    best := Comma;
    var bestIndex := 0;
    var maxScore := 0;
    var i := 0;
    while i < |Candidates|
      invariant 0 <= i <= |Candidates|
      invariant 0 <= bestIndex < |Candidates| && best == Candidates[bestIndex]
      invariant forall j :: 0 <= j < i ==> Score(data, Candidates[j], reader) <= maxScore
      invariant forall j :: 0 <= j < bestIndex ==> Score(data, Candidates[j], reader) < maxScore
      invariant maxScore == 0 ==> bestIndex == 0
      invariant maxScore > 0 ==> bestIndex < i && maxScore == Score(data, best, reader)
    {
      var delim := Candidates[i];
      var score := ScoreDelimiter(data, delim, reader);
      if score > maxScore {
        maxScore := score;
        best := delim;
        bestIndex := i;
      }
      i := i + 1;
    }
    assert Score(data, Candidates[0], reader) <= maxScore;
  }
}
