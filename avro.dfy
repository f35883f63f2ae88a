/**
 * Header extraction and row flattening for Avro records
 * (`src/wasm/src/parser/avro.rs`), working on a record already converted to
 * a JSON value. Headers are the dotted key paths of the non-object leaves,
 * sorted; a row holds one cell per header.
 */
module AvroFlattening {
  import opened Text
  import opened JsonValues

  // Byte-wise lexicographic order of strings (`Ord for String`).

  predicate StrLe(a: string, b: string) {
    a == [] || (b != [] && (a[0] < b[0] || (a[0] == b[0] && StrLe(a[1..], b[1..]))))
  }

  /** Any two strings are ordered one way or the other. */
  lemma {:induction false} StrLeTotal(a: string, b: string)
    ensures StrLe(a, b) || StrLe(b, a)
  {
    if a != [] && b != [] && a[0] == b[0] {
      StrLeTotal(a[1..], b[1..]);
    }
  }

  predicate Sorted(s: seq<string>) {
    forall i :: 0 <= i < |s| - 1 ==> StrLe(s[i], s[i + 1])
  }

  function Insert(x: string, s: seq<string>): (r: seq<string>)
    requires Sorted(s)
    ensures Sorted(r) && multiset(r) == multiset(s) + multiset{x}
    ensures r[0] == x || (s != [] && r[0] == s[0])
  {
    if s == [] || StrLe(x, s[0]) then [x] + s
    else
      StrLeTotal(x, s[0]);
      var rest := Insert(x, s[1..]);
      assert s == [s[0]] + s[1..];
      [s[0]] + rest
  }

  /** `sort`: the same strings, in order. */
  function SortStrings(s: seq<string>): (r: seq<string>)
    ensures Sorted(r) && multiset(r) == multiset(s)
  {
    if s == [] then []
    else
      assert s == [s[0]] + s[1..];
      Insert(s[0], SortStrings(s[1..]))
  }

  /**
   * `extract_headers_from_value`: for an object, the key path of every
   * non-object member and the headers of every object member; for anything
   * else, the prefix itself, or "value" when there is none. Sorted.
   */
  function ExtractHeaders(v: Value, prefix: string): (r: seq<string>)
    decreases v, 1
    ensures Sorted(r)
    ensures v.Object? ==> multiset(r) == multiset(HeadersOf(v, 0, prefix))
    ensures !v.Object? ==> r == [if prefix == [] then "value" else prefix]
  {
    if v.Object? then SortStrings(HeadersOf(v, 0, prefix))
    else [if prefix == [] then "value" else prefix]
  }

  /** The headers collected from the members of object `v` from index `i` on, before sorting. */
  function HeadersOf(v: Value, i: nat, prefix: string): seq<string>
    requires v.Object? && i <= |v.entries|
    decreases v, 0, |v.entries| - i
  {
    if i == |v.entries| then []
    else
      var (k, child) := v.entries[i];
      var fullKey := JoinKey(prefix, k);
      (if child.Object? then ExtractHeaders(child, fullKey) else [fullKey]) + HeadersOf(v, i + 1, prefix)
  }

  /** The cell text of a non-object value: empty for null, the string itself, JSON text otherwise. */
  function LeafText(v: Value, render: Renderer): (t: string)
    requires !v.Object?
    ensures v.Null? ==> t == ""
    ensures v.Str? ==> t == v.s
    ensures v.Array? || v.Bool? || v.Number? ==> t == render(v)
  {
    match v
    case Null => ""
    case Str(s) => s
    case _ => render(v)
  }

  /**
   * `flatten_recursive`: every non-object value is written under its key
   * path into the map being built; an object's members are visited in order.
   */
  function FlattenInto(v: Value, prefix: string, output: map<string, string>, render: Renderer): map<string, string>
    decreases v, 1
  {
    match v
    case Object(_) => FlattenMembers(v, 0, prefix, output, render)
    case _ => output[prefix := LeafText(v, render)]
  }

  function FlattenMembers(v: Value, i: nat, prefix: string, output: map<string, string>, render: Renderer): map<string, string>
    requires v.Object? && i <= |v.entries|
    decreases v, 0, |v.entries| - i
  {
    if i == |v.entries| then output
    else
      var (k, child) := v.entries[i];
      FlattenMembers(v, i + 1, prefix, FlattenInto(child, JoinKey(prefix, k), output, render), render)
  }

  /** The cell of each header in a flattened map, and "" when the map has none. */
  function Cells(flat: map<string, string>, headers: seq<string>): (r: seq<string>)
    ensures |r| == |headers|
    ensures forall i :: 0 <= i < |headers| ==> r[i] == if headers[i] in flat then flat[headers[i]] else ""
  {
    seq(|headers|, i requires 0 <= i < |headers| => if headers[i] in flat then flat[headers[i]] else "")
  }

  /** `flatten_avro_value` as written: the value is flattened from the empty prefix. */
  function FlattenAvroValue(v: Value, headers: seq<string>, render: Renderer): (r: seq<string>)
    ensures |r| == |headers|
  {
    Cells(FlattenInto(v, "", map[], render), headers)
  }

  /**
   * For an object, the keys written by the flattening are exactly its
   * headers: flattening adds the headers and nothing else to the map.
   */
  lemma {:induction false} FlattenKeysAreHeaders(v: Value, prefix: string, output: map<string, string>, render: Renderer)
    requires v.Object?
    decreases v, 1
    ensures forall x :: x in FlattenInto(v, prefix, output, render) <==> x in output || x in ExtractHeaders(v, prefix)
  {
    MembersKeysAreHeaders(v, 0, prefix, output, render);
    forall x
      ensures x in ExtractHeaders(v, prefix) <==> x in HeadersOf(v, 0, prefix)
    {
      assert x in ExtractHeaders(v, prefix) <==> x in multiset(ExtractHeaders(v, prefix));
    }
  }

  lemma {:induction false} MembersKeysAreHeaders(v: Value, i: nat, prefix: string, output: map<string, string>, render: Renderer)
    requires v.Object? && i <= |v.entries|
    decreases v, 0, |v.entries| - i
    ensures forall x :: x in FlattenMembers(v, i, prefix, output, render) <==> x in output || x in HeadersOf(v, i, prefix)
  {
    if i < |v.entries| {
      var (k, child) := v.entries[i];
      var fullKey := JoinKey(prefix, k);
      var next := FlattenInto(child, fullKey, output, render);
      if child.Object? {
        FlattenKeysAreHeaders(child, fullKey, output, render);
      }
      MembersKeysAreHeaders(v, i + 1, prefix, next, render);
    }
  }

  /** For an object record, no cell of the row is a default: every header has a flattened value. */
  lemma ObjectRowComplete(v: Value, render: Renderer)
    requires v.Object?
    ensures var headers := ExtractHeaders(v, "");
      var flat := FlattenInto(v, "", map[], render);
      && (forall i :: 0 <= i < |headers| ==> headers[i] in flat)
      && (forall x :: x in flat ==> x in headers)
      && FlattenAvroValue(v, headers, render) == seq(|headers|, i requires 0 <= i < |headers| => flat[headers[i]])
  {
    FlattenKeysAreHeaders(v, "", map[], render);
  }

  /**
   * As written, a record that is not an object gets the header "value" but
   * is flattened under the empty key, so its single cell is always empty,
   * whatever the value.
   */
  lemma ScalarRootLost(v: Value, render: Renderer)
    requires !v.Object?
    ensures ExtractHeaders(v, "") == ["value"]
    ensures FlattenAvroValue(v, ExtractHeaders(v, ""), render) == [""]
  {
  }

  /** A string record "x" comes out as an empty cell instead of "x". */
  lemma ScalarRootExample(v: Value, render: Renderer)
    requires v == Str("x")
    ensures FlattenAvroValue(v, ExtractHeaders(v, ""), render) == [""] != [v.s]
  {
    ScalarRootLost(v, render);
  }

  /** The flattening evidently intended: a record that is not an object is written under "value". */
  function FlattenRoot(v: Value, render: Renderer): map<string, string> {
    if v.Object? then FlattenInto(v, "", map[], render) else map["value" := LeafText(v, render)]
  }

  /** `flatten_avro_value` corrected: cells are looked up in `FlattenRoot`. */
  function FlattenAvroRow(v: Value, headers: seq<string>, render: Renderer): (r: seq<string>)
    ensures |r| == |headers|
  {
    Cells(FlattenRoot(v, render), headers)
  }

  /**
   * With the correction every record, object or not, has a flattened value
   * for each of its headers, and a scalar record's cell is its own text.
   */
  lemma RowComplete(v: Value, render: Renderer)
    ensures var headers := ExtractHeaders(v, "");
      forall i :: 0 <= i < |headers| ==> headers[i] in FlattenRoot(v, render)
    ensures !v.Object? ==> FlattenAvroRow(v, ExtractHeaders(v, ""), render) == [LeafText(v, render)]
  {
    if v.Object? {
      FlattenKeysAreHeaders(v, "", map[], render);
    }
  }
}
