/**
 * The streaming JSON / JSON Lines parser (`src/wasm/src/parser/json.rs`).
 * Text is buffered across chunks; complete lines (JSON Lines) or complete
 * objects (a JSON array) are parsed and flattened into rows of a growing
 * header list, with nested keys joined by ".", a nesting-depth limit and a
 * header-count limit. Array fields are summarised by their lengths.
 *
 * `serde_json::from_str` is the parameter `parse` (None for a parse error)
 * and `Value::to_string` the parameter `render`. Input is ASCII, so
 * character and byte positions agree.
 */
module JsonParsing {
  import opened Wrappers
  import opened Text
  import opened JsonValues
  import ColumnProfiles

  function Min(a: nat, b: nat): nat { if a <= b then a else b }
  function Max(a: nat, b: nat): nat { if a <= b then b else a }

  // ---------------------------------------------------------------------------
  // Array field statistics

  datatype ArrayFieldStats = ArrayFieldStats(minLength: nat, maxLength: nat, totalLength: nat, count: nat)

  /** `ArrayFieldStats::default`. */
  const NoArrayStats := ArrayFieldStats(0, 0, 0, 0)

  /** `ArrayFieldStats::update`: the first length sets both bounds, later ones widen them. */
  function UpdateArrayStats(s: ArrayFieldStats, length: nat): (r: ArrayFieldStats)
    ensures r.count == s.count + 1 && r.totalLength == s.totalLength + length
    ensures s.count == 0 ==> r.minLength == length == r.maxLength
    ensures s.count > 0 ==> r.minLength == Min(s.minLength, length) && r.maxLength == Max(s.maxLength, length)
  {
    if s.count == 0 then ArrayFieldStats(length, length, s.totalLength + length, s.count + 1)
    else ArrayFieldStats(Min(s.minLength, length), Max(s.maxLength, length), s.totalLength + length, s.count + 1)
  }

  /** The statistics after updating fresh statistics with each length in turn. */
  function StatsOf(lengths: seq<nat>): ArrayFieldStats {
    if lengths == [] then NoArrayStats
    else UpdateArrayStats(StatsOf(lengths[..|lengths| - 1]), lengths[|lengths| - 1])
  }

  function Sum(xs: seq<nat>): nat {
    if xs == [] then 0 else Sum(xs[..|xs| - 1]) + xs[|xs| - 1]
  }

  /**
   * After any sequence of updates the count is the number of arrays, the
   * total their summed length, and the bounds are the least and greatest
   * length seen.
   */
  lemma {:induction false} StatsOfSummary(lengths: seq<nat>)
    ensures var s := StatsOf(lengths);
      && s.count == |lengths| && s.totalLength == Sum(lengths)
      && (lengths == [] ==> s == NoArrayStats)
      && (lengths != [] ==>
            && s.minLength in lengths && s.maxLength in lengths
            && forall i :: 0 <= i < |lengths| ==> s.minLength <= lengths[i] <= s.maxLength)
  {
    if lengths != [] {
      var init := lengths[..|lengths| - 1];
      StatsOfSummary(init);
      assert lengths == init + [lengths[|lengths| - 1]];
    }
  }

  /** `avg_length`: the mean length, 0 before any array. */
  function AvgLength(s: ArrayFieldStats): (a: real)
    ensures s.count == 0 ==> a == 0.0
    ensures s.count > 0 ==> a * s.count as real == s.totalLength as real
  {
    if s.count == 0 then 0.0 else s.totalLength as real / s.count as real
  }

  lemma {:induction false} SumBounds(xs: seq<nat>, lo: nat, hi: nat)
    requires forall i :: 0 <= i < |xs| ==> lo <= xs[i] <= hi
    ensures |xs| * lo <= Sum(xs) <= |xs| * hi
  {
    if xs != [] {
      var n := |xs| - 1;
      SumBounds(xs[..n], lo, hi);
      assert Sum(xs) == Sum(xs[..n]) + xs[n];
      MulSucc(n, lo);
      MulSucc(n, hi);
    }
  }

  lemma MulSucc(n: nat, k: nat)
    ensures (n + 1) * k == n * k + k
  {
  }

  /** The mean length lies between the shortest and the longest array. */
  lemma AvgBetweenBounds(lengths: seq<nat>)
    requires lengths != []
    ensures var s := StatsOf(lengths);
      s.minLength as real <= AvgLength(s) <= s.maxLength as real
  {
    var s := StatsOf(lengths);
    StatsOfSummary(lengths);
    SumBounds(lengths, s.minLength, s.maxLength);
    RatioBetween(s.totalLength, s.count, s.minLength, s.maxLength);
  }

  lemma RatioBetween(total: nat, count: nat, lo: nat, hi: nat)
    requires count > 0 && count * lo <= total <= count * hi
    ensures lo as real <= total as real / count as real <= hi as real
  {
    var a, n := total as real / count as real, count as real;
    assert a * n == total as real;
    assert lo as real * n == (count * lo) as real;
    assert hi as real * n == (count * hi) as real;
    CancelFactorBelow(lo as real, a, n);
    CancelFactorBelow(a, hi as real, n);
  }

  lemma CancelFactorBelow(x: real, y: real, n: real)
    requires n > 0.0 && x * n <= y * n
    ensures x <= y
  {
    assert (y - x) * n >= 0.0;
  }

  /** The arrays of lengths 3 and 2 give bounds 2 and 3 over two arrays. */
  lemma TagsExample(lengths: seq<nat>)
    requires lengths == [3, 2]
    ensures StatsOf(lengths) == ArrayFieldStats(2, 3, 5, 2)
  {
    var first := lengths[..1];
    assert first[..0] == [];
    assert StatsOf(first) == ArrayFieldStats(3, 3, 3, 1);
  }

  // ---------------------------------------------------------------------------
  // Format detection and configuration

  datatype JsonFormat = JsonArray | JsonLines | Unknown

  /**
   * `auto_detect_format`: after leading white space, '[' means a JSON array
   * and '{' JSON Lines. The look at the second line cannot change the result
   * and is not modelled.
   */
  function AutoDetectFormat(data: string): (f: JsonFormat)
    ensures var t := TrimStart(data);
      && (f == JsonArray <==> t != [] && t[0] == '[')
      && (f == JsonLines <==> t != [] && t[0] == '{')
  {
    var t := TrimStart(data);
    if t != [] && t[0] == '[' then JsonArray
    else if t != [] && t[0] == '{' then JsonLines
    else Unknown
  }

  lemma {:induction false} TrimStartSkipsSpace(ws: string, data: string)
    requires forall i :: 0 <= i < |ws| ==> IsSpace(ws[i])
    ensures TrimStart(ws + data) == TrimStart(data)
  {
    if ws != [] {
      assert IsSpace((ws + data)[0]);
      assert TrimStart(ws + data) == TrimStart((ws + data)[1..]);
      assert (ws + data)[1..] == ws[1..] + data;
      TrimStartSkipsSpace(ws[1..], data);
    } else {
      assert ws + data == data;
    }
  }

  /** Leading white space never changes the detected format. */
  lemma DetectIgnoresLeadingSpace(ws: string, data: string)
    requires forall i :: 0 <= i < |ws| ==> IsSpace(ws[i])
    ensures AutoDetectFormat(ws + data) == AutoDetectFormat(data)
  {
    TrimStartSkipsSpace(ws, data);
  }

  datatype JsonParserConfig = JsonParserConfig(maxNestedDepth: nat, maxKeysPerObject: nat)

  /** `JsonParserConfig::default`: depth 3, 500 keys. */
  const DefaultJsonConfig := JsonParserConfig(3, 500)

  // ---------------------------------------------------------------------------
  // The object scanner

  /** The scanner's variables: brace depth, inside a string, and the next character escaped. */
  datatype ScanState = ScanState(depth: int, inString: bool, escapeNext: bool)

  /**
   * One character of `find_complete_object`: an escaped character is skipped,
   * a backslash in a string escapes the next one, a quote toggles the string,
   * and braces count only outside strings.
   */
  function Step(st: ScanState, c: char): (r: ScanState)
    ensures st.escapeNext ==> r == st.(escapeNext := false)
    ensures !st.escapeNext && st.inString && c != '"' && c != '\\' ==> r == st
    ensures !st.escapeNext && !st.inString ==>
      && !r.escapeNext && (r.inString <==> c == '"')
      && r.depth == st.depth + (if c == '{' then 1 else if c == '}' then -1 else 0)
  {
    if st.escapeNext then st.(escapeNext := false)
    else if c == '\\' && st.inString then st.(escapeNext := true)
    else if c == '"' then st.(inString := !st.inString)
    else if c == '{' && !st.inString then st.(depth := st.depth + 1)
    else if c == '}' && !st.inString then st.(depth := st.depth - 1)
    else st
  }

  /** The scanner's state after the first `n` characters. */
  function ScanTo(s: string, n: nat): ScanState
    requires n <= |s|
  {
    if n == 0 then ScanState(0, false, false) else Step(ScanTo(s, n - 1), s[n - 1])
  }

  /** Character `i` is a counted '}' that brings the depth back to 0. */
  predicate ClosesAt(s: string, i: nat)
    requires i < |s|
  {
    var st := ScanTo(s, i);
    !st.escapeNext && !st.inString && s[i] == '}' && st.depth == 1
  }

  /** The first position from `from` on where a counted '}' closes the first brace. */
  function FirstClose(s: string, from: nat): (r: Option<nat>)
    requires from <= |s|
    decreases |s| - from
    ensures r.Some? ==> from <= r.value < |s|
  {
    if from == |s| then None
    else if ClosesAt(s, from) then Some(from)
    else FirstClose(s, from + 1)
  }

  /** `FirstClose` finds the first closing position, and none when there is none. */
  lemma {:induction false} FirstCloseIsFirst(s: string, from: nat)
    requires from <= |s|
    decreases |s| - from
    ensures var r := FirstClose(s, from);
      && (r.Some? ==> ClosesAt(s, r.value) && forall j :: from <= j < r.value ==> !ClosesAt(s, j))
      && (r.None? ==> forall j :: from <= j < |s| ==> !ClosesAt(s, j))
  {
    if from < |s| && !ClosesAt(s, from) {
      FirstCloseIsFirst(s, from + 1);
    }
  }

  /** The complete object at the start of `s`, with its length: what `find_complete_object` returns. */
  function CompleteObject(s: string): (r: Option<(nat, string)>)
    ensures r.Some? ==> 0 < r.value.0 <= |s| && r.value.1 == s[..r.value.0]
  {
    if s == [] || s[0] != '{' then None
    else
      match FirstClose(s, 0)
      case None => None
      case Some(j) => Some((j + 1, s[..j + 1]))
  }

  /**
   * `find_complete_object`: for text starting with '{', the shortest prefix
   * ending at the '}' that closes the first brace, with its length.
   */
  method FindCompleteObject(s: string) returns (r: Option<(nat, string)>)
    ensures (s == [] || s[0] != '{') ==> r == None
    ensures r.Some? ==>
      && 0 < r.value.0 <= |s| && r.value.1 == s[..r.value.0]
      && ClosesAt(s, r.value.0 - 1)
      && forall j :: 0 <= j < r.value.0 - 1 ==> !ClosesAt(s, j)
    ensures r.None? && s != [] && s[0] == '{' ==> forall j :: 0 <= j < |s| ==> !ClosesAt(s, j)
    ensures r == CompleteObject(s)
  {
    if s == [] || s[0] != '{' {
      return None;
    }
    var depth := 0;
    var inString := false;
    var escapeNext := false;
    var i := 0;
    while i < |s|
      invariant 0 <= i <= |s|
      invariant ScanTo(s, i) == ScanState(depth, inString, escapeNext)
      invariant forall j :: 0 <= j < i ==> !ClosesAt(s, j)
    {
      var c := s[i];
      if escapeNext {
        escapeNext := false;
      } else if c == '\\' && inString {
        escapeNext := true;
      } else if c == '"' {
        inString := !inString;
      } else if c == '{' && !inString {
        depth := depth + 1;
      } else if c == '}' && !inString {
        depth := depth - 1;
        if depth == 0 {
          assert ClosesAt(s, i);
          FirstCloseAt(s, 0, i);
          return Some((i + 1, s[..i + 1]));
        }
      }
      i := i + 1;
    }
    FirstCloseIsFirst(s, 0);
    return None;
  }

  /** The first closing position from `from` on is the one the scan finds. */
  lemma {:induction false} FirstCloseAt(s: string, from: nat, i: nat)
    requires from <= i < |s| && ClosesAt(s, i)
    requires forall j :: from <= j < i ==> !ClosesAt(s, j)
    ensures FirstClose(s, from) == Some(i)
    decreases i - from
  {
    if from < i {
      FirstCloseAt(s, from + 1, i);
    }
  }

  /**
   * The object found is balanced: counted braces outside strings return to
   * depth 0 at its end and at no point inside it, and it ends in '}'.
   */
  lemma FoundObjectBalanced(s: string, end: nat)
    requires s != [] && s[0] == '{' && 0 < end <= |s|
    requires ClosesAt(s, end - 1)
    requires forall j :: 0 <= j < end - 1 ==> !ClosesAt(s, j)
    ensures s[end - 1] == '}'
    ensures ScanTo(s, end).depth == 0 && !ScanTo(s, end).inString
    ensures forall j :: 0 < j < end ==> ScanTo(s, j).depth >= 1
  {
    forall j | 0 < j < end
      ensures ScanTo(s, j).depth >= 1
    {
      DepthStaysPositive(s, end, j);
    }
  }

  lemma {:induction false} DepthStaysPositive(s: string, end: nat, j: nat)
    requires s != [] && s[0] == '{' && 0 < j < end <= |s|
    requires forall k :: 0 <= k < end - 1 ==> !ClosesAt(s, k)
    ensures ScanTo(s, j).depth >= 1
  {
    if j > 1 {
      DepthStaysPositive(s, end, j - 1);
      assert !ClosesAt(s, j - 1);
    }
  }

  // ---------------------------------------------------------------------------
  // Cell texts

  /** The decimal digits of `n`, as `usize`'s `Display` writes them. */
  function NatToDecimal(n: nat): (s: string)
    ensures s != [] && ColumnProfiles.AllDigits(s) && ColumnProfiles.DigitsValue(s) == n
  {
    var d := [('0' as int + n % 10) as char];
    if n < 10 then
      assert ColumnProfiles.AllDigits([] + d);
      d
    else
      var p := NatToDecimal(n / 10);
      assert (p + d)[..|p + d| - 1] == p;
      p + d
  }

  /**
   * The cell of a value that is not expanded: "[array:N]" for an array of N
   * elements, "" for null, "true"/"false", the number's text, the string
   * itself, and the JSON text of an object at the depth limit.
   */
  function CellOf(v: Value, render: Renderer): (t: string)
    ensures v.Array? ==> t == "[array:" + NatToDecimal(|v.items|) + "]"
    ensures v.Null? ==> t == ""
    ensures v.Bool? ==> t == (if v.b then "true" else "false")
    ensures v.Str? ==> t == v.s
    ensures v.Object? ==> t == render(v)
  {
    match v
    case Array(items) => "[array:" + NatToDecimal(|items|) + "]"
    case Null => ""
    case Bool(b) => if b then "true" else "false"
    case Number(text) => text
    case Str(s) => s
    case Object(_) => render(v)
  }

  // ---------------------------------------------------------------------------
  // The header registry and the flattening, as functions of the state

  /** The parser state flattening changes: headers, their positions, and array statistics. */
  datatype Registry = Registry(headers: seq<string>, order: map<string, nat>, stats: map<string, ArrayFieldStats>)

  const EmptyRegistry := Registry([], map[], map[])

  /** `header_order` maps each header, and nothing else, to its position; so headers are distinct. */
  ghost predicate RegistryValid(r: Registry) {
    && (forall k :: k in r.order ==> r.order[k] < |r.headers| && r.headers[r.order[k]] == k)
    && (forall i :: 0 <= i < |r.headers| ==> r.headers[i] in r.order && r.order[r.headers[i]] == i)
  }

  /** `ensure_header`: an unknown key is appended and given the next position. */
  function EnsureHeaderSpec(r: Registry, key: string): Registry {
    if key in r.order then r
    else r.(headers := r.headers + [key], order := r.order[key := |r.headers|])
  }

  /** A registered key stays registered, its position is its index, and a repeat call changes nothing. */
  lemma EnsureHeaderRegisters(r: Registry, key: string)
    requires RegistryValid(r)
    ensures var r' := EnsureHeaderSpec(r, key);
      && RegistryValid(r')
      && key in r'.order && r'.headers[r'.order[key]] == key
      && r.headers <= r'.headers && |r'.headers| <= |r.headers| + 1
      && EnsureHeaderSpec(r', key) == r'
  {
    var r' := EnsureHeaderSpec(r, key);
    if key !in r.order {
      forall i | 0 <= i < |r'.headers|
        ensures r'.headers[i] in r'.order && r'.order[r'.headers[i]] == i
      {
        if i < |r.headers| {
          assert r'.headers[i] == r.headers[i] != key;
        }
      }
    }
  }

  function StatsFor(stats: map<string, ArrayFieldStats>, key: string): ArrayFieldStats {
    if key in stats then stats[key] else NoArrayStats
  }

  /**
   * `flatten_recursive` on object `v`: nothing beyond the depth limit,
   * otherwise every member in turn.
   */
  function FlattenSpec(cfg: JsonParserConfig, v: Value, prefix: string, depth: nat,
                       reg: Registry, out: map<string, string>, render: Renderer): (r: (Registry, map<string, string>))
    requires v.Object?
    decreases v, 2
    ensures depth > cfg.maxNestedDepth ==> r == (reg, out)
  {
    if depth > cfg.maxNestedDepth then (reg, out)
    else MembersSpec(cfg, v, 0, prefix, depth, reg, out, render)
  }

  function MembersSpec(cfg: JsonParserConfig, v: Value, i: nat, prefix: string, depth: nat,
                       reg: Registry, out: map<string, string>, render: Renderer): (Registry, map<string, string>)
    requires v.Object? && i <= |v.entries|
    decreases v, 1, |v.entries| - i
  {
    if i == |v.entries| then (reg, out)
    else
      var (k, child) := v.entries[i];
      var (reg', out') := EntrySpec(cfg, JoinKey(prefix, k), child, depth, reg, out, render);
      MembersSpec(cfg, v, i + 1, prefix, depth, reg', out', render)
  }

  /**
   * One member under its full key: skipped when the header list is full and
   * the key is new; an object below the depth limit is expanded; anything
   * else gets a header and a cell, and an array also updates its statistics.
   */
  function EntrySpec(cfg: JsonParserConfig, fullKey: string, child: Value, depth: nat,
                     reg: Registry, out: map<string, string>, render: Renderer): (Registry, map<string, string>)
    decreases child, 3
  {
    if |reg.headers| >= cfg.maxKeysPerObject && fullKey !in reg.order then (reg, out)
    else if child.Object? && depth < cfg.maxNestedDepth then
      FlattenSpec(cfg, child, fullKey, depth + 1, reg, out, render)
    else
      var reg1 := if child.Array? then reg.(stats := reg.stats[fullKey := UpdateArrayStats(StatsFor(reg.stats, fullKey), |child.items|)])
                  else reg;
      (EnsureHeaderSpec(reg1, fullKey), out[fullKey := CellOf(child, render)])
  }

  /**
   * What flattening may do to the state: keep the registry valid, only
   * append headers, never append beyond the key limit, and write cells only
   * under registered headers.
   */
  ghost predicate Grows(cfg: JsonParserConfig, reg: Registry, out: map<string, string>,
                        reg': Registry, out': map<string, string>) {
    && RegistryValid(reg')
    && reg.headers <= reg'.headers
    && |reg'.headers| <= Max(|reg.headers|, cfg.maxKeysPerObject)
    && (|reg.headers| >= cfg.maxKeysPerObject ==> reg'.headers == reg.headers)
    && (forall k :: k in out ==> k in out')
    && (forall k :: k in out' ==> k in out || k in reg'.order)
  }

  lemma GrowsTrans(cfg: JsonParserConfig, r1: Registry, o1: map<string, string>, r2: Registry, o2: map<string, string>,
                   r3: Registry, o3: map<string, string>)
    requires RegistryValid(r2)
    requires Grows(cfg, r1, o1, r2, o2) && Grows(cfg, r2, o2, r3, o3)
    ensures Grows(cfg, r1, o1, r3, o3)
  {
    forall k | k in r2.order
      ensures k in r3.order
    {
      assert r3.headers[r2.order[k]] == r2.headers[r2.order[k]] == k;
    }
  }

  lemma {:induction false} FlattenSpecGrows(cfg: JsonParserConfig, v: Value, prefix: string, depth: nat,
                                            reg: Registry, out: map<string, string>, render: Renderer)
    requires v.Object? && RegistryValid(reg)
    decreases v, 2
    ensures var (reg', out') := FlattenSpec(cfg, v, prefix, depth, reg, out, render);
      Grows(cfg, reg, out, reg', out')
  {
    if depth <= cfg.maxNestedDepth {
      MembersSpecGrows(cfg, v, 0, prefix, depth, reg, out, render);
    }
  }

  lemma {:induction false} MembersSpecGrows(cfg: JsonParserConfig, v: Value, i: nat, prefix: string, depth: nat,
                                            reg: Registry, out: map<string, string>, render: Renderer)
    requires v.Object? && i <= |v.entries| && RegistryValid(reg)
    decreases v, 1, |v.entries| - i
    ensures var (reg', out') := MembersSpec(cfg, v, i, prefix, depth, reg, out, render);
      Grows(cfg, reg, out, reg', out')
  {
    if i < |v.entries| {
      var (k, child) := v.entries[i];
      var (reg1, out1) := EntrySpec(cfg, JoinKey(prefix, k), child, depth, reg, out, render);
      EntrySpecGrows(cfg, JoinKey(prefix, k), child, depth, reg, out, render);
      MembersSpecGrows(cfg, v, i + 1, prefix, depth, reg1, out1, render);
      var (reg2, out2) := MembersSpec(cfg, v, i + 1, prefix, depth, reg1, out1, render);
      GrowsTrans(cfg, reg, out, reg1, out1, reg2, out2);
    }
  }

  lemma {:induction false} EntrySpecGrows(cfg: JsonParserConfig, fullKey: string, child: Value, depth: nat,
                                          reg: Registry, out: map<string, string>, render: Renderer)
    requires RegistryValid(reg)
    decreases child, 3
    ensures var (reg', out') := EntrySpec(cfg, fullKey, child, depth, reg, out, render);
      Grows(cfg, reg, out, reg', out')
  {
    if |reg.headers| >= cfg.maxKeysPerObject && fullKey !in reg.order {
    } else if child.Object? && depth < cfg.maxNestedDepth {
      FlattenSpecGrows(cfg, child, fullKey, depth + 1, reg, out, render);
    } else {
      var reg1 := if child.Array? then reg.(stats := reg.stats[fullKey := UpdateArrayStats(StatsFor(reg.stats, fullKey), |child.items|)])
                  else reg;
      EnsureHeaderRegisters(reg1, fullKey);
    }
  }

  /** With room for headers, a member that is not expanded becomes one cell under its dotted key. */
  lemma LeafMember(cfg: JsonParserConfig, v: Value, prefix: string, depth: nat, k: string, leaf: Value,
                   reg: Registry, out: map<string, string>, render: Renderer)
    requires v == Object([(k, leaf)]) && depth <= cfg.maxNestedDepth
    requires !leaf.Object? || depth == cfg.maxNestedDepth
    requires |reg.headers| < cfg.maxKeysPerObject
    ensures var (reg', out') := FlattenSpec(cfg, v, prefix, depth, reg, out, render);
      && JoinKey(prefix, k) in reg'.order
      && reg'.headers == (if JoinKey(prefix, k) in reg.order then reg.headers else reg.headers + [JoinKey(prefix, k)])
      && out' == out[JoinKey(prefix, k) := CellOf(leaf, render)]
  {
    var fk := JoinKey(prefix, k);
    var step := EntrySpec(cfg, fk, leaf, depth, reg, out, render);
    assert FlattenSpec(cfg, v, prefix, depth, reg, out, render) == MembersSpec(cfg, v, 0, prefix, depth, reg, out, render);
    assert MembersSpec(cfg, v, 0, prefix, depth, reg, out, render) == MembersSpec(cfg, v, 1, prefix, depth, step.0, step.1, render);
    var reg1 := if leaf.Array? then reg.(stats := reg.stats[fk := UpdateArrayStats(StatsFor(reg.stats, fk), |leaf.items|)])
                else reg;
    assert step == (EnsureHeaderSpec(reg1, fk), out[fk := CellOf(leaf, render)]);
  }

  /** Below the depth limit, a nested member is expanded under "prefix.key.inner". */
  lemma NestedMember(cfg: JsonParserConfig, v: Value, prefix: string, depth: nat, k: string, k2: string, leaf: Value,
                     reg: Registry, out: map<string, string>, render: Renderer)
    requires v == Object([(k, Object([(k2, leaf)]))]) && !leaf.Object?
    requires depth < cfg.maxNestedDepth && |reg.headers| + 1 < cfg.maxKeysPerObject
    ensures var (reg', out') := FlattenSpec(cfg, v, prefix, depth, reg, out, render);
      && JoinKey(JoinKey(prefix, k), k2) in reg'.order
      && out' == out[JoinKey(JoinKey(prefix, k), k2) := CellOf(leaf, render)]
  {
    var inner := Object([(k2, leaf)]);
    var fk := JoinKey(prefix, k);
    var step := EntrySpec(cfg, fk, inner, depth, reg, out, render);
    assert step == FlattenSpec(cfg, inner, fk, depth + 1, reg, out, render);
    assert FlattenSpec(cfg, v, prefix, depth, reg, out, render) == MembersSpec(cfg, v, 0, prefix, depth, reg, out, render);
    assert MembersSpec(cfg, v, 0, prefix, depth, reg, out, render) == MembersSpec(cfg, v, 1, prefix, depth, step.0, step.1, render);
    LeafMember(cfg, inner, fk, depth + 1, k2, leaf, reg, out, render);
  }

  /** Once the header list is full, a new key adds neither a header nor a cell. */
  lemma FullRegistryDropsNewKeys(cfg: JsonParserConfig, v: Value, prefix: string, depth: nat, k: string, child: Value,
                                 reg: Registry, out: map<string, string>, render: Renderer)
    requires v == Object([(k, child)]) && depth <= cfg.maxNestedDepth
    requires |reg.headers| >= cfg.maxKeysPerObject && JoinKey(prefix, k) !in reg.order
    ensures FlattenSpec(cfg, v, prefix, depth, reg, out, render) == (reg, out)
  {
    assert EntrySpec(cfg, JoinKey(prefix, k), child, depth, reg, out, render) == (reg, out);
    assert FlattenSpec(cfg, v, prefix, depth, reg, out, render) == MembersSpec(cfg, v, 0, prefix, depth, reg, out, render);
    assert MembersSpec(cfg, v, 0, prefix, depth, reg, out, render) == MembersSpec(cfg, v, 1, prefix, depth, reg, out, render);
  }

  /**
   * With depth limit 2, `{"level1": {"level2": {"level3": {"level4": ...}}}}`
   * gives the single header "level1.level2.level3", whose cell is the JSON
   * text of the innermost object.
   */
  lemma DepthLimitExample(cfg: JsonParserConfig, v: Value, inner: Value, render: Renderer)
    requires cfg == JsonParserConfig(2, 500)
    requires inner == Object([("level4", Str("too deep"))])
    requires v == Object([("level1", Object([("level2", Object([("level3", inner)]))]))])
    ensures var (reg, out) := FlattenSpec(cfg, v, "", 0, EmptyRegistry, map[], render);
      && reg.headers == ["level1.level2.level3"]
      && out == map["level1.level2.level3" := render(inner)]
  {
    var l3 := Object([("level3", inner)]);
    var l2 := Object([("level2", l3)]);
    var k2 := JoinKey("level1", "level2");
    assert k2 == "level1.level2";
    assert JoinKey(k2, "level3") == "level1.level2.level3";
    var r := FlattenSpec(cfg, l3, k2, 2, EmptyRegistry, map[], render);
    LeafMember(cfg, l3, k2, 2, "level3", inner, EmptyRegistry, map[], render);
    assert r.0.headers == ["level1.level2.level3"];
    assert EntrySpec(cfg, k2, l3, 1, EmptyRegistry, map[], render) == r;
    assert MembersSpec(cfg, l2, 0, "level1", 1, EmptyRegistry, map[], render) == MembersSpec(cfg, l2, 1, "level1", 1, r.0, r.1, render);
    assert FlattenSpec(cfg, l2, "level1", 1, EmptyRegistry, map[], render) == r;
    assert EntrySpec(cfg, "level1", l2, 0, EmptyRegistry, map[], render) == r;
    assert MembersSpec(cfg, v, 0, "", 0, EmptyRegistry, map[], render) == MembersSpec(cfg, v, 1, "", 0, r.0, r.1, render);
  }

  /** The row of `flatten_object`: one cell per header, the flattened value or "". */
  function RowCells(headers: seq<string>, flat: map<string, string>): (row: seq<string>)
    ensures |row| == |headers|
    ensures forall i :: 0 <= i < |headers| ==> row[i] == if headers[i] in flat then flat[headers[i]] else ""
  {
    seq(|headers|, i requires 0 <= i < |headers| => if headers[i] in flat then flat[headers[i]] else "")
  }

  /** `flatten_object(&map, "", 0)` on registry `reg`: the new registry and the row. */
  function ObjectRow(cfg: JsonParserConfig, v: Value, reg: Registry, render: Renderer): (Registry, seq<string>)
    requires v.Object?
  {
    var flat := FlattenSpec(cfg, v, "", 0, reg, map[], render);
    (flat.0, RowCells(flat.0.headers, flat.1))
  }

  /**
   * One candidate text parsed: an object gives its row, anything else no
   * row (it is counted as malformed) and leaves the registry as it was.
   */
  function TakeSpec(cfg: JsonParserConfig, parse: string -> Option<Value>, render: Renderer,
                    text: string, reg: Registry): (Registry, Option<seq<string>>)
  {
    var v := parse(text);
    if v.Some? && v.value.Object? then
      var taken := ObjectRow(cfg, v.value, reg, render);
      (taken.0, Some(taken.1))
    else (reg, None)
  }

  /** A taken row as a list of rows. */
  function RowsOf(row: Option<seq<string>>): seq<seq<string>> {
    if row.Some? then [row.value] else []
  }

  // ---------------------------------------------------------------------------
  // Splitting text into lines

  /** `find`: the first position of `c`, if any. */
  function IndexOf(s: string, c: char): (r: Option<nat>)
    ensures r.None? ==> c !in s
    ensures r.Some? ==> r.value < |s| && s[r.value] == c && forall j :: 0 <= j < r.value ==> s[j] != c
  {
    if s == [] then None
    else if s[0] == c then Some(0)
    else
      var r := IndexOf(s[1..], c);
      if r.Some? then Some(r.value + 1) else None
  }

  /** The text before the first newline of `s`. */
  function FirstLine(s: string): (line: string)
    requires IndexOf(s, '\n').Some?
  {
    s[..IndexOf(s, '\n').value]
  }

  /** What follows the first newline of `s`. */
  function AfterFirstLine(s: string): (t: string)
    requires IndexOf(s, '\n').Some?
    ensures |t| < |s|
  {
    s[IndexOf(s, '\n').value + 1..]
  }

  /** The newline-terminated lines of `s`, without their newlines. */
  function CompleteLines(s: string): seq<string>
    decreases |s|
  {
    if IndexOf(s, '\n').None? then [] else [FirstLine(s)] + CompleteLines(AfterFirstLine(s))
  }

  /** What follows the last newline of `s`. */
  function AfterLines(s: string): string
    decreases |s|
  {
    if IndexOf(s, '\n').None? then s else AfterLines(AfterFirstLine(s))
  }

  /** What stays buffered holds no newline. */
  lemma {:induction false} AfterLinesNoNewline(s: string)
    decreases |s|
    ensures '\n' !in AfterLines(s)
  {
    if IndexOf(s, '\n').Some? {
      AfterLinesNoNewline(AfterFirstLine(s));
      AfterLinesStep(s);
    }
  }

  function JoinLines(lines: seq<string>): string {
    if lines == [] then [] else lines[0] + "\n" + JoinLines(lines[1..])
  }

  /** The lines, each followed by its newline, and then the rest, give back the text. */
  lemma {:induction false} LinesCover(s: string)
    decreases |s|
    ensures s == JoinLines(CompleteLines(s)) + AfterLines(s)
  {
    if IndexOf(s, '\n').Some? {
      var line, rest := FirstLine(s), AfterFirstLine(s);
      LinesCover(rest);
      LinesStep(s);
      JoinCons(line, CompleteLines(rest));
      SplitAround(s);
      ConcatAssoc(line + "\n", JoinLines(CompleteLines(rest)), AfterLines(rest));
    }
  }

  lemma JoinCons(line: string, lines: seq<string>)
    ensures JoinLines([line] + lines) == line + "\n" + JoinLines(lines)
  {
    assert ([line] + lines)[1..] == lines;
  }

  lemma ConcatAssoc(a: string, b: string, c: string)
    ensures (a + b) + c == a + (b + c)
  {
  }

  lemma SplitAround(s: string)
    requires IndexOf(s, '\n').Some?
    ensures s == FirstLine(s) + "\n" + AfterFirstLine(s)
  {
    var p := IndexOf(s, '\n').value;
    SplitAt(s, p);
    assert [s[p]] == "\n";
  }

  lemma SplitAt<T>(s: seq<T>, p: nat)
    requires p < |s|
    ensures s == s[..p] + [s[p]] + s[p + 1..]
  {
    assert s == s[..p] + s[p..];
    assert s[p..] == [s[p]] + s[p + 1..];
  }

  /** No line holds a newline. */
  lemma {:induction false} LinesHaveNoNewline(s: string)
    decreases |s|
    ensures forall i :: 0 <= i < |CompleteLines(s)| ==> '\n' !in CompleteLines(s)[i]
  {
    if IndexOf(s, '\n').Some? {
      LinesHaveNoNewline(AfterFirstLine(s));
      LinesStep(s);
    }
  }

  /** Taking the first line off the text. */
  lemma LinesStep(s: string)
    requires IndexOf(s, '\n').Some?
    ensures CompleteLines(s) == [FirstLine(s)] + CompleteLines(AfterFirstLine(s))
    ensures AfterLines(s) == AfterLines(AfterFirstLine(s))
  {
    FirstLineStep(s);
    AfterLinesStep(s);
  }

  lemma FirstLineStep(s: string)
    requires IndexOf(s, '\n').Some?
    ensures CompleteLines(s) == [FirstLine(s)] + CompleteLines(AfterFirstLine(s))
  {
  }

  lemma AfterLinesStep(s: string)
    requires IndexOf(s, '\n').Some?
    ensures AfterLines(s) == AfterLines(AfterFirstLine(s))
  {
  }

  /** A line that parses to an object, and so becomes a row. */
  predicate IsObjectLine(line: string, parse: string -> Option<Value>) {
    var t := Trim(line);
    t != [] && parse(t).Some? && parse(t).value.Object?
  }

  /** A non-blank line that does not parse to an object, and so is malformed. */
  predicate IsBadLine(line: string, parse: string -> Option<Value>) {
    Trim(line) != [] && !IsObjectLine(line, parse)
  }

  function CountObjectLines(lines: seq<string>, parse: string -> Option<Value>): nat {
    if lines == [] then 0
    else CountObjectLines(lines[..|lines| - 1], parse) + (if IsObjectLine(lines[|lines| - 1], parse) then 1 else 0)
  }

  function CountBadLines(lines: seq<string>, parse: string -> Option<Value>): nat {
    if lines == [] then 0
    else CountBadLines(lines[..|lines| - 1], parse) + (if IsBadLine(lines[|lines| - 1], parse) then 1 else 0)
  }

  function CountNonBlank(lines: seq<string>): nat {
    if lines == [] then 0
    else CountNonBlank(lines[..|lines| - 1]) + (if Trim(lines[|lines| - 1]) != [] then 1 else 0)
  }

  /** Every non-blank line is counted exactly once, as a row or as malformed; blank lines not at all. */
  lemma {:induction false} LinesAccounted(lines: seq<string>, parse: string -> Option<Value>)
    ensures CountObjectLines(lines, parse) + CountBadLines(lines, parse) == CountNonBlank(lines)
  {
    if lines != [] {
      LinesAccounted(lines[..|lines| - 1], parse);
    }
  }

  /** `consumed` are the first lines of `all`, and `rest` is what follows them. */
  ghost predicate LinesConsumed(all: string, consumed: seq<string>, rest: string) {
    CompleteLines(all) == consumed + CompleteLines(rest) && AfterLines(rest) == AfterLines(all)
  }

  /** Consuming one more line of `all`: the consumed lines advance by that line. */
  lemma LinesProgress(all: string, consumed: seq<string>, rest: string)
    requires IndexOf(rest, '\n').Some?
    requires LinesConsumed(all, consumed, rest)
    ensures LinesConsumed(all, consumed + [FirstLine(rest)], AfterFirstLine(rest))
  {
    LinesStep(rest);
  }

  /** Once no newline is left, every line has been consumed. */
  lemma LinesDone(all: string, consumed: seq<string>, rest: string)
    requires IndexOf(rest, '\n').None?
    requires LinesConsumed(all, consumed, rest)
    ensures consumed == CompleteLines(all) && rest == AfterLines(all)
  {
    assert consumed + [] == consumed;
  }

  /** Counting one more line. */
  lemma CountsSnoc(lines: seq<string>, line: string, parse: string -> Option<Value>)
    ensures CountObjectLines(lines + [line], parse) == CountObjectLines(lines, parse) + (if IsObjectLine(line, parse) then 1 else 0)
    ensures CountBadLines(lines + [line], parse) == CountBadLines(lines, parse) + (if IsBadLine(line, parse) then 1 else 0)
  {
    assert (lines + [line])[..|lines|] == lines;
  }

  /**
   * The registry and the rows after the lines, in order: a blank line is
   * skipped, any other line is parsed after trimming.
   */
  function LinesRows(cfg: JsonParserConfig, parse: string -> Option<Value>, render: Renderer,
                     lines: seq<string>, reg: Registry): (Registry, seq<seq<string>>)
  {
    if lines == [] then (reg, [])
    else
      var (reg1, rows1) := LinesRows(cfg, parse, render, lines[..|lines| - 1], reg);
      var t := Trim(lines[|lines| - 1]);
      if t == [] then (reg1, rows1)
      else
        var (reg2, row) := TakeSpec(cfg, parse, render, t, reg1);
        (reg2, rows1 + RowsOf(row))
  }

  /** One more line: it is skipped when blank, parsed otherwise. */
  lemma LinesRowsSnoc(cfg: JsonParserConfig, parse: string -> Option<Value>, render: Renderer,
                      lines: seq<string>, line: string, reg: Registry)
    ensures var (reg1, rows1) := LinesRows(cfg, parse, render, lines, reg);
      LinesRows(cfg, parse, render, lines + [line], reg) ==
        if Trim(line) == [] then (reg1, rows1)
        else
          var (reg2, row) := TakeSpec(cfg, parse, render, Trim(line), reg1);
          (reg2, rows1 + RowsOf(row))
  {
    assert (lines + [line])[..|lines|] == lines;
  }

  /** One row per object line, and nothing else. */
  lemma {:induction false} LinesRowsCount(cfg: JsonParserConfig, parse: string -> Option<Value>, render: Renderer,
                                           lines: seq<string>, reg: Registry)
    ensures |LinesRows(cfg, parse, render, lines, reg).1| == CountObjectLines(lines, parse)
  {
    if lines != [] {
      LinesRowsCount(cfg, parse, render, lines[..|lines| - 1], reg);
    }
  }

  /** `a` is a suffix of `b`. */
  predicate IsSuffix(a: string, b: string) {
    |a| <= |b| && a == b[|b| - |a|..]
  }

  lemma SuffixTrans(a: string, b: string, c: string)
    requires IsSuffix(a, b) && IsSuffix(b, c)
    ensures IsSuffix(a, c)
  {
    assert c[|c| - |a|..] == c[|c| - |b|..][|b| - |a|..];
  }

  /**
   * What one pass of the object loop of `parse_json_array_chunk` finds in
   * the buffer: nothing to take yet, the closing ']', or one complete
   * object (after an optional ',') with the buffer that follows it.
   */
  datatype ArrayMove = Wait | Close(next: string) | Element(text: string, next: string)

  function NextElement(rest: string): (m: ArrayMove)
    ensures !m.Wait? ==> IsSuffix(m.next, rest)
    ensures m.Element? ==> |m.next| < |rest|
  {
    var trimmed := TrimStart(rest);
    if trimmed == [] then Wait
    else
      var startIdx := |rest| - |trimmed|;
      if trimmed[0] == ']' then Close(rest[startIdx + 1..])
      else
        var actual := if trimmed[0] == ',' then TrimStart(trimmed[1..]) else trimmed;
        var skip := |trimmed| - |actual|;
        var found := CompleteObject(actual);
        if found.None? then Wait else Element(found.value.1, rest[startIdx + skip + found.value.0..])
  }

  /** The outcome of the object loop: registry, rows, malformed objects, buffer left, and whether ']' was met. */
  datatype ArrayOutcome = ArrayOutcome(reg: Registry, rows: seq<seq<string>>, bad: nat, rest: string, closed: bool)

  /**
   * The object loop run on buffer `rest`: objects are taken one after the
   * other until the buffer has nothing complete to take, or ']' closes the
   * array.
   */
  function ArrayRun(cfg: JsonParserConfig, parse: string -> Option<Value>, render: Renderer,
                    rest: string, reg: Registry): (o: ArrayOutcome)
    decreases |rest|
  {
    match NextElement(rest)
    case Wait => ArrayOutcome(reg, [], 0, rest, false)
    case Close(next) => ArrayOutcome(reg, [], 0, next, true)
    case Element(text, next) =>
      var taken := TakeSpec(cfg, parse, render, text, reg);
      var o := ArrayRun(cfg, parse, render, next, taken.0);
      Appended(RowsOf(taken.1), if taken.1.Some? then 0 else 1, o)
  }

  /** An outcome with earlier rows and malformed objects put in front. */
  function Appended(rows: seq<seq<string>>, bad: nat, o: ArrayOutcome): ArrayOutcome {
    o.(rows := rows + o.rows, bad := bad + o.bad)
  }

  /** Taking one object moves its row, or its malformed count, to the front. */
  lemma ArrayRunElement(cfg: JsonParserConfig, parse: string -> Option<Value>, render: Renderer, rest: string, reg: Registry)
    requires NextElement(rest).Element?
    ensures var taken := TakeSpec(cfg, parse, render, NextElement(rest).text, reg);
      ArrayRun(cfg, parse, render, rest, reg) ==
        Appended(RowsOf(taken.1), if taken.1.Some? then 0 else 1, ArrayRun(cfg, parse, render, NextElement(rest).next, taken.0))
  {
  }

  /** Where nothing can be taken the loop stops at once, past the ']' when it closes the array. */
  lemma ArrayRunHalt(cfg: JsonParserConfig, parse: string -> Option<Value>, render: Renderer, rest: string, reg: Registry)
    requires !NextElement(rest).Element?
    ensures var m := NextElement(rest);
      ArrayRun(cfg, parse, render, rest, reg) == ArrayOutcome(reg, [], 0, if m.Wait? then rest else m.next, m.Close?)
  {
  }

  /** Taking an object only adds headers, and its row has one cell per header. */
  lemma TakeSpecGrows(cfg: JsonParserConfig, parse: string -> Option<Value>, render: Renderer, text: string, reg: Registry)
    requires RegistryValid(reg)
    ensures var taken := TakeSpec(cfg, parse, render, text, reg);
      && Grows(cfg, reg, map[], taken.0, map[])
      && (taken.1.Some? ==> |taken.1.value| == |taken.0.headers|)
  {
    var v := parse(text);
    if v.Some? && v.value.Object? {
      FlattenSpecGrows(cfg, v.value, "", 0, reg, map[], render);
    }
  }

  /** The object loop only adds headers, and no row is wider than the headers it ends with. */
  lemma {:induction false} ArrayRunGrows(cfg: JsonParserConfig, parse: string -> Option<Value>, render: Renderer,
                                         rest: string, reg: Registry)
    requires RegistryValid(reg)
    ensures var o := ArrayRun(cfg, parse, render, rest, reg);
      && Grows(cfg, reg, map[], o.reg, map[])
      && forall k :: 0 <= k < |o.rows| ==> |o.rows[k]| <= |o.reg.headers|
    decreases |rest|
  {
    var m := NextElement(rest);
    if m.Element? {
      var taken := TakeSpec(cfg, parse, render, m.text, reg);
      TakeSpecGrows(cfg, parse, render, m.text, reg);
      ArrayRunGrows(cfg, parse, render, m.next, taken.0);
      GrowsTrans(cfg, reg, map[], taken.0, map[], ArrayRun(cfg, parse, render, m.next, taken.0).reg, map[]);
      ArrayRunElement(cfg, parse, render, rest, reg);
    } else {
      ArrayRunHalt(cfg, parse, render, rest, reg);
    }
  }

  /** Putting two batches in front is putting them in front together. */
  lemma AppendedTwice(rows: seq<seq<string>>, bad: nat, rows': seq<seq<string>>, bad': nat, o: ArrayOutcome)
    ensures Appended(rows, bad, Appended(rows', bad', o)) == Appended(rows + rows', bad + bad', o)
  {
    assert rows + (rows' + o.rows) == (rows + rows') + o.rows;
  }

  /** Where the object loop starts: after the first '[' unless the array is already open. */
  function ArrayStart(inArray: bool, buffer: string): Option<string> {
    if inArray then Some(buffer)
    else
      match IndexOf(buffer, '[')
      case None => None
      case Some(i) => Some(buffer[i + 1..])
  }

  /**
   * What `parse_json_array_chunk` does from the array flag, the buffer and
   * the registry given: nothing when no array is open and the buffer holds
   * no '['; otherwise the object loop runs from the array's start.
   */
  function ArrayChunk(cfg: JsonParserConfig, parse: string -> Option<Value>, render: Renderer,
                      inArray: bool, buffer: string, reg: Registry): (o: ArrayOutcome)
  {
    match ArrayStart(inArray, buffer)
    case None => ArrayOutcome(reg, [], 0, buffer, !inArray)
    case Some(start) => ArrayRun(cfg, parse, render, start, reg)
  }

  /** What the loop leaves of the buffer is a suffix of it. */
  lemma {:induction false} ArrayRunSuffix(cfg: JsonParserConfig, parse: string -> Option<Value>, render: Renderer,
                                          rest: string, reg: Registry)
    ensures IsSuffix(ArrayRun(cfg, parse, render, rest, reg).rest, rest)
    decreases |rest|
  {
    var m := NextElement(rest);
    if m.Element? {
      var next := TakeSpec(cfg, parse, render, m.text, reg).0;
      ArrayRunSuffix(cfg, parse, render, m.next, next);
      SuffixTrans(ArrayRun(cfg, parse, render, m.next, next).rest, m.next, rest);
    }
  }

  /** The loop stops only where it must: at ']' or where nothing complete follows. */
  lemma {:induction false} ArrayRunStops(cfg: JsonParserConfig, parse: string -> Option<Value>, render: Renderer,
                                         rest: string, reg: Registry)
    ensures var o := ArrayRun(cfg, parse, render, rest, reg);
      !o.closed ==> NextElement(o.rest).Wait?
    decreases |rest|
  {
    var m := NextElement(rest);
    if m.Element? {
      ArrayRunStops(cfg, parse, render, m.next, TakeSpec(cfg, parse, render, m.text, reg).0);
    }
  }

  /** Every object taken is a row or malformed; the loop stops only where it must. */
  lemma {:induction false} ArrayRunCounts(cfg: JsonParserConfig, parse: string -> Option<Value>, render: Renderer,
                                          rest: string, reg: Registry)
    ensures var o := ArrayRun(cfg, parse, render, rest, reg);
      |o.rows| + o.bad == ObjectsTaken(rest)
    decreases |rest|
  {
    match NextElement(rest)
    case Wait =>
    case Close(_) =>
    case Element(text, next) =>
      var (reg1, row) := TakeSpec(cfg, parse, render, text, reg);
      ArrayRunCounts(cfg, parse, render, next, reg1);
  }

  /** The number of objects the loop takes from `rest`. */
  function ObjectsTaken(rest: string): nat
    decreases |rest|
  {
    match NextElement(rest)
    case Element(_, next) => 1 + ObjectsTaken(next)
    case _ => 0
  }

  // ---------------------------------------------------------------------------
  // The parser

  datatype JsonParseResult = JsonParseResult(
    headers: seq<string>,
    rows: seq<seq<string>>,
    malformedCount: nat,
    totalRows: nat,
    format: JsonFormat,
    arrayStats: map<string, ArrayFieldStats>)

  class JsonParser {
    const config: JsonParserConfig
    var format: JsonFormat
    var headers: seq<string>
    var headerOrder: map<string, nat>
    var malformedCount: nat
    var totalRows: nat
    var remainder: string
    var arrayStats: map<string, ArrayFieldStats>
    var inArray: bool
    var arrayDepth: nat
    const parse: string -> Option<Value>
    const render: Renderer

    function Reg(): Registry
      reads this
    {
      Registry(headers, headerOrder, arrayStats)
    }

    ghost predicate Valid()
      reads this
    {
      RegistryValid(Reg())
    }

    /** `JsonParser::new`: the default configuration unless one is given; nothing seen yet. */
    constructor(config: Option<JsonParserConfig>, parse: string -> Option<Value>, render: Renderer)
      ensures Valid()
      ensures this.config == (if config.Some? then config.value else DefaultJsonConfig)
      ensures this.parse == parse && this.render == render
      ensures format == Unknown && Reg() == EmptyRegistry
      ensures malformedCount == 0 && totalRows == 0 && remainder == [] && !inArray && arrayDepth == 0
    {
      this.config := if config.Some? then config.value else DefaultJsonConfig;
      this.parse, this.render := parse, render;
      format := Unknown;
      headers, headerOrder, arrayStats := [], map[], map[];
      malformedCount, totalRows := 0, 0;
      remainder := [];
      inArray, arrayDepth := false, 0;
    }

    /** `set_format`. */
    method SetFormat(format: JsonFormat)
      modifies this`format
      ensures this.format == format
    {
      this.format := format;
    }

    /** `ensure_header`. */
    method EnsureHeader(key: string)
      modifies this`headers, this`headerOrder
      ensures Reg() == EnsureHeaderSpec(old(Reg()), key)
    {
      if key !in headerOrder {
        headerOrder := headerOrder[key := |headers|];
        headers := headers + [key];
      }
    }

    /** `flatten_recursive`: the cells of object `obj` are added to `output` and the registry updated. */
    method FlattenRecursive(obj: Value, prefix: string, depth: nat, output: map<string, string>)
      returns (out: map<string, string>)
      requires obj.Object?
      modifies this`headers, this`headerOrder, this`arrayStats
      decreases obj
      ensures (Reg(), out) == FlattenSpec(config, obj, prefix, depth, old(Reg()), output, render)
    {
      out := output;
      if depth > config.maxNestedDepth {
        return;
      }
      var entries := obj.entries;
      var i := 0;
      while i < |entries|
        invariant 0 <= i <= |entries|
        invariant MembersSpec(config, obj, i, prefix, depth, Reg(), out, render)
               == MembersSpec(config, obj, 0, prefix, depth, old(Reg()), output, render)
      {
        var (key, value) := entries[i];
        var fullKey := JoinKey(prefix, key);
        if |headers| >= config.maxKeysPerObject && fullKey !in headerOrder {
          // the header list is full: a new key is skipped
        } else if value.Object? && depth < config.maxNestedDepth {
          out := FlattenRecursive(value, fullKey, depth + 1, out);
        } else {
          if value.Array? {
            arrayStats := arrayStats[fullKey := UpdateArrayStats(StatsFor(arrayStats, fullKey), |value.items|)];
          }
          EnsureHeader(fullKey);
          out := out[fullKey := CellOf(value, render)];
        }
        i := i + 1;
      }
    }

    /**
     * `flatten_object`: one cell per header known after flattening, the
     * object's cell where it has one and "" elsewhere.
     */
    method FlattenObject(obj: Value, prefix: string, depth: nat) returns (row: seq<string>)
      requires obj.Object? && Valid()
      modifies this`headers, this`headerOrder, this`arrayStats
      ensures Valid()
      ensures var (reg, flat) := FlattenSpec(config, obj, prefix, depth, old(Reg()), map[], render);
        Reg() == reg && row == RowCells(headers, flat)
      ensures Grows(config, old(Reg()), map[], Reg(), map[])
    {
      ghost var before := Reg();
      var flat := FlattenRecursive(obj, prefix, depth, map[]);
      FlattenSpecGrows(config, obj, prefix, depth, before, map[], render);
      row := FillRow(flat);
    }

    /** The row of `flatten_object`: each flattened value is put at its header's column, other columns stay empty. */
    method FillRow(flat: map<string, string>) returns (row: seq<string>)
      requires Valid()
      ensures row == RowCells(headers, flat)
    {
      row := seq(|headers|, _ => "");
      var pending := flat.Keys;
      while pending != {}
        invariant pending <= flat.Keys
        invariant |row| == |headers|
        invariant forall i :: 0 <= i < |headers| ==>
          row[i] == if headers[i] in flat && headers[i] !in pending then flat[headers[i]] else ""
        decreases |pending|
      {
        var key :| key in pending;
        if key in headerOrder {
          var idx := headerOrder[key];
          row := row[idx := flat[key]];
        }
        pending := pending - {key};
      }
      assert row == RowCells(headers, flat);
    }

    /** The rows and counters as they stand. */
    function Result(rows: seq<seq<string>>): JsonParseResult
      reads this
    {
      JsonParseResult(headers, rows, malformedCount, totalRows, format, arrayStats)
    }

    /** Parse one candidate text: an object becomes a row, anything else is malformed. */
    method TakeObject(text: string) returns (row: Option<seq<string>>)
      requires Valid()
      modifies this`headers, this`headerOrder, this`arrayStats, this`totalRows, this`malformedCount
      ensures Valid() && Grows(config, old(Reg()), map[], Reg(), map[])
      ensures (Reg(), row) == TakeSpec(config, parse, render, text, old(Reg()))
      ensures row.Some? ==> |row.value| == |headers|
      ensures totalRows == old(totalRows) + |RowsOf(row)|
      ensures malformedCount == old(malformedCount) + (if row.Some? then 0 else 1)
    {
      match parse(text) {
        case Some(Object(entries)) =>
          var r := FlattenObject(Object(entries), "", 0);
          totalRows := totalRows + 1;
          row := Some(r);
        case _ =>
          malformedCount := malformedCount + 1;
          row := None;
      }
    }

    /** One pass of the line loop: the first line is taken off the buffer and parsed unless blank. */
    method ConsumeLine() returns (row: Option<seq<string>>, ghost line: string)
      requires Valid() && IndexOf(remainder, '\n').Some?
      modifies this`headers, this`headerOrder, this`arrayStats, this`totalRows, this`malformedCount, this`remainder
      ensures Valid() && Grows(config, old(Reg()), map[], Reg(), map[])
      ensures line == FirstLine(old(remainder)) && remainder == AfterFirstLine(old(remainder))
      ensures totalRows == old(totalRows) + (if IsObjectLine(line, parse) then 1 else 0)
      ensures malformedCount == old(malformedCount) + (if IsBadLine(line, parse) then 1 else 0)
      ensures row.Some? <==> IsObjectLine(line, parse)
      ensures row.Some? ==> |row.value| == |headers|
      ensures (Reg(), row) == (if Trim(line) == [] then (old(Reg()), None)
                               else TakeSpec(config, parse, render, Trim(line), old(Reg())))
    {
      var pos := IndexOf(remainder, '\n').value;
      var text := remainder[..pos];
      line := text;
      var trimmed := Trim(text);
      row := None;
      if trimmed != [] {
        row := TakeObject(trimmed);
      }
      remainder := remainder[pos + 1..];
    }

    /**
     * `parse_jsonl_chunk`: every complete line in the buffer is consumed; a
     * blank line is skipped, an object line becomes a row, any other line is
     * malformed. What follows the last newline stays buffered.
     */
    method ParseJsonlChunk() returns (r: JsonParseResult)
      requires Valid()
      modifies this`headers, this`headerOrder, this`arrayStats, this`totalRows, this`malformedCount, this`remainder
      ensures Valid() && Grows(config, old(Reg()), map[], Reg(), map[])
      ensures remainder == AfterLines(old(remainder)) && '\n' !in remainder
      ensures var lines := CompleteLines(old(remainder));
        && totalRows == old(totalRows) + CountObjectLines(lines, parse)
        && malformedCount == old(malformedCount) + CountBadLines(lines, parse)
      ensures (Reg(), r.rows) == LinesRows(config, parse, render, CompleteLines(old(remainder)), old(Reg()))
      ensures |r.rows| == totalRows - old(totalRows)
      ensures forall k :: 0 <= k < |r.rows| ==> |r.rows[k]| <= |headers|
      ensures r == Result(r.rows)
    {
      ghost var before, all, rows0, bad0 := Reg(), remainder, totalRows, malformedCount;
      ghost var consumed: seq<string> := [];
      var rows: seq<seq<string>> := [];
      while IndexOf(remainder, '\n').Some?
        invariant Valid() && Grows(config, before, map[], Reg(), map[])
        invariant LinesConsumed(all, consumed, remainder)
        invariant totalRows == rows0 + CountObjectLines(consumed, parse)
        invariant malformedCount == bad0 + CountBadLines(consumed, parse)
        invariant |rows| == totalRows - rows0
        invariant forall k :: 0 <= k < |rows| ==> |rows[k]| <= |headers|
        invariant (Reg(), rows) == LinesRows(config, parse, render, consumed, before)
        decreases |remainder|
      {
        ghost var rest, regBefore := remainder, Reg();
        LinesProgress(all, consumed, rest);
        CountsSnoc(consumed, FirstLine(rest), parse);
        var row;
        ghost var line;
        row, line := ConsumeLine();
        GrowsTrans(config, before, map[], regBefore, map[], Reg(), map[]);
        LinesRowsSnoc(config, parse, render, consumed, line, before);
        ghost var step := LinesRows(config, parse, render, consumed + [line], before);
        if Trim(line) == [] {
          assert row.None? && step == (Reg(), rows);
        } else {
          assert step == (Reg(), rows + RowsOf(row));
        }
        if row.Some? {
          rows := rows + [row.value];
        } else {
          assert rows + RowsOf(row) == rows;
        }
        consumed := consumed + [line];
      }
      LinesDone(all, consumed, remainder);
      r := Result(rows);
    }

    /**
     * The scanning block of one pass of the object loop of
     * `parse_json_array_chunk`: white space and a separating comma are
     * skipped; the pass must wait when the buffer is blank, does not continue
     * with '{', or holds no complete object; a ']' closes the array.
     */
    method LocateElement() returns (m: ArrayMove)
      ensures m == NextElement(remainder)
    {
      var trimmed := TrimStart(remainder);
      TrimStartSpec(remainder);
      if trimmed == [] {
        return Wait;
      }
      var startIdx := |remainder| - |trimmed|;
      if trimmed[0] == ']' {
        return Close(remainder[startIdx + 1..]);
      }
      var actual, skip := trimmed, 0;
      if trimmed[0] == ',' {
        var sub := TrimStart(trimmed[1..]);
        actual, skip := sub, |trimmed| - |sub|;
      }
      if actual == [] || actual[0] != '{' {
        return Wait;
      }
      var found := FindCompleteObject(actual);
      if found.None? {
        return Wait;
      }
      var (objEnd, objStr) := found.value;
      m := Element(objStr, remainder[startIdx + skip + objEnd..]);
    }

    /**
     * One pass of the object loop: the array is closed at ']', a complete
     * object is parsed and taken off the buffer, and otherwise the loop
     * stops with the buffer as it is.
     */
    method NextArrayElement() returns (stop: bool, row: Option<seq<string>>)
      requires Valid()
      modifies this`headers, this`headerOrder, this`arrayStats, this`totalRows, this`malformedCount
      modifies this`remainder, this`inArray
      ensures Valid() && Grows(config, old(Reg()), map[], Reg(), map[])
      ensures IsSuffix(remainder, old(remainder))
      ensures row.Some? ==> |row.value| == |headers|
      ensures var m := NextElement(old(remainder));
        && stop == !m.Element?
        && (m.Wait? ==> remainder == old(remainder) && inArray == old(inArray))
        && (m.Close? ==> remainder == m.next && !inArray)
        && (stop ==> row.None? && Reg() == old(Reg()) && totalRows == old(totalRows) && malformedCount == old(malformedCount))
        && (m.Element? ==>
              && remainder == m.next && inArray == old(inArray)
              && (Reg(), row) == TakeSpec(config, parse, render, m.text, old(Reg()))
              && totalRows == old(totalRows) + |RowsOf(row)|
              && malformedCount == old(malformedCount) + (if row.Some? then 0 else 1))
    {
      var m := LocateElement();
      match m {
        case Wait =>
          return true, None;
        case Close(next) =>
          remainder := next;
          inArray := false;
          return true, None;
        case Element(text, next) =>
          row := TakeObject(text);
          remainder := next;
          stop := false;
      }
    }

    /**
     * One pass of the object loop, stated against the run of the loop: the
     * rows and malformed objects gathered so far extend by what the pass took.
     */
    method ArrayStep() returns (stop: bool, row: Option<seq<string>>)
      requires Valid() && inArray
      modifies this`headers, this`headerOrder, this`arrayStats, this`totalRows, this`malformedCount
      modifies this`remainder, this`inArray
      ensures Valid() && Grows(config, old(Reg()), map[], Reg(), map[])
      ensures IsSuffix(remainder, old(remainder))
      ensures row.Some? ==> |row.value| == |headers|
      ensures !stop ==>
        && inArray && |remainder| < |old(remainder)|
        && totalRows == old(totalRows) + |RowsOf(row)|
        && malformedCount == old(malformedCount) + (if row.Some? then 0 else 1)
        && ArrayRun(config, parse, render, old(remainder), old(Reg())) ==
           Appended(RowsOf(row), if row.Some? then 0 else 1, ArrayRun(config, parse, render, remainder, Reg()))
      ensures stop ==>
        && row.None? && totalRows == old(totalRows) && malformedCount == old(malformedCount)
        && ArrayRun(config, parse, render, old(remainder), old(Reg())) == ArrayOutcome(Reg(), [], 0, remainder, !inArray)
    {
      ghost var m := NextElement(remainder);
      stop, row := NextArrayElement();
      if !stop {
        ArrayRunElement(config, parse, render, old(remainder), old(Reg()));
      } else {
        ArrayRunHalt(config, parse, render, old(remainder), old(Reg()));
      }
    }

    /**
     * `parse_json_array_chunk`: after the opening '[', complete objects are
     * taken one by one until the buffer has nothing complete to take, or the
     * closing ']' ends the array.
     */
    method ParseJsonArrayChunk() returns (r: JsonParseResult)
      requires Valid()
      modifies this`headers, this`headerOrder, this`arrayStats, this`totalRows, this`malformedCount
      modifies this`remainder, this`inArray, this`arrayDepth
      ensures Valid() && Grows(config, old(Reg()), map[], Reg(), map[])
      ensures IsSuffix(remainder, old(remainder))
      ensures var o := ArrayChunk(config, parse, render, old(inArray), old(remainder), old(Reg()));
        && Reg() == o.reg && r.rows == o.rows && remainder == o.rest && inArray == !o.closed
        && totalRows == old(totalRows) + |o.rows| && malformedCount == old(malformedCount) + o.bad
      ensures arrayDepth == if ArrayStart(old(inArray), old(remainder)).Some? && !old(inArray) then 1 else old(arrayDepth)
      ensures forall k :: 0 <= k < |r.rows| ==> |r.rows[k]| <= |headers|
      ensures r == Result(r.rows)
    {
      if !inArray {
        var start := IndexOf(remainder, '[');
        if start.None? {
          return Result([]);
        }
        remainder := remainder[start.value + 1..];
        inArray, arrayDepth := true, 1;
      }
      assert ArrayStart(old(inArray), old(remainder)) == Some(remainder);
      var rows := TakeArrayObjects();
      r := Result(rows);
    }

    /**
     * The object loop of `parse_json_array_chunk`, in an open array: it
     * runs as `ArrayRun` says, each object's row or malformed count added
     * to the parser's state.
     */
    method TakeArrayObjects() returns (rows: seq<seq<string>>)
      requires Valid() && inArray
      modifies this`headers, this`headerOrder, this`arrayStats, this`totalRows, this`malformedCount
      modifies this`remainder, this`inArray
      ensures Valid() && Grows(config, old(Reg()), map[], Reg(), map[])
      ensures IsSuffix(remainder, old(remainder))
      ensures var o := ArrayRun(config, parse, render, old(remainder), old(Reg()));
        && Reg() == o.reg && rows == o.rows && remainder == o.rest && inArray == !o.closed
        && totalRows == old(totalRows) + |o.rows| && malformedCount == old(malformedCount) + o.bad
      ensures forall k :: 0 <= k < |rows| ==> |rows[k]| <= |headers|
    {
      ghost var rest0, reg0 := remainder, Reg();
      rows := [];
      ghost var bad: nat := 0;
      var stop := false;
      while !stop
        invariant Valid() && Grows(config, old(Reg()), map[], Reg(), map[])
        invariant IsSuffix(remainder, old(remainder))
        invariant totalRows == old(totalRows) + |rows| && malformedCount == old(malformedCount) + bad
        invariant !stop ==> inArray && ArrayRun(config, parse, render, old(remainder), old(Reg())) == Appended(rows, bad, ArrayRun(config, parse, render, remainder, Reg()))
        invariant stop ==> ArrayRun(config, parse, render, old(remainder), old(Reg())) == ArrayOutcome(Reg(), rows, bad, remainder, !inArray)
        decreases !stop, |remainder|
      {
        ghost var regBefore := Reg();
        ghost var restBefore := remainder;
        var row;
        stop, row := ArrayStep();
        GrowsTrans(config, old(Reg()), map[], regBefore, map[], Reg(), map[]);
        SuffixTrans(remainder, restBefore, old(remainder));
        if !stop {
          AppendedTwice(rows, bad, RowsOf(row), if row.Some? then 0 else 1, ArrayRun(config, parse, render, remainder, Reg()));
          bad := bad + if row.Some? then 0 else 1;
          rows := rows + RowsOf(row);
        } else {
          assert rows + [] == rows;
        }
      }
      ArrayRunGrows(config, parse, render, rest0, reg0);
    }

    /** A result with no rows. */
    method EmptyResult() returns (r: JsonParseResult)
      ensures r == Result([])
    {
      r := JsonParseResult(headers, [], malformedCount, totalRows, format, arrayStats);
    }

    /**
     * `parse_chunk`: the chunk is appended to the buffer, the format detected
     * if still unknown, and the buffer parsed in that format.
     */
    method ParseChunk(chunk: string) returns (r: JsonParseResult)
      requires Valid()
      modifies this`headers, this`headerOrder, this`arrayStats, this`totalRows, this`malformedCount
      modifies this`remainder, this`inArray, this`arrayDepth, this`format
      ensures Valid() && Grows(config, old(Reg()), map[], Reg(), map[])
      ensures format == (if old(format) == Unknown then AutoDetectFormat(old(remainder) + chunk) else old(format))
      ensures format == Unknown ==>
        && remainder == old(remainder) + chunk && r.rows == []
        && Reg() == old(Reg()) && totalRows == old(totalRows) && malformedCount == old(malformedCount)
      ensures format == JsonLines ==>
        var lines := CompleteLines(old(remainder) + chunk);
        && remainder == AfterLines(old(remainder) + chunk) && '\n' !in remainder
        && totalRows == old(totalRows) + CountObjectLines(lines, parse)
        && malformedCount == old(malformedCount) + CountBadLines(lines, parse)
        && (Reg(), r.rows) == LinesRows(config, parse, render, lines, old(Reg()))
      ensures format == JsonArray ==>
        var o := ArrayChunk(config, parse, render, old(inArray), old(remainder) + chunk, old(Reg()));
        && Reg() == o.reg && r.rows == o.rows && remainder == o.rest && inArray == !o.closed
        && totalRows == old(totalRows) + |o.rows| && malformedCount == old(malformedCount) + o.bad
        && arrayDepth == (if ArrayStart(old(inArray), old(remainder) + chunk).Some? && !old(inArray) then 1 else old(arrayDepth))
      ensures |r.rows| == totalRows - old(totalRows)
      ensures forall k :: 0 <= k < |r.rows| ==> |r.rows[k]| <= |headers|
      ensures r == Result(r.rows)
    {
      remainder := remainder + chunk;
      if format == Unknown {
        format := AutoDetectFormat(remainder);
      }
      r := ParseBuffer();
    }

    /** The dispatch of `parse_chunk` on the format: the buffer is parsed as that format says. */
    method ParseBuffer() returns (r: JsonParseResult)
      requires Valid()
      modifies this`headers, this`headerOrder, this`arrayStats, this`totalRows, this`malformedCount
      modifies this`remainder, this`inArray, this`arrayDepth
      ensures Valid() && Grows(config, old(Reg()), map[], Reg(), map[])
      ensures format == Unknown ==>
        && remainder == old(remainder) && r.rows == []
        && Reg() == old(Reg()) && totalRows == old(totalRows) && malformedCount == old(malformedCount)
      ensures format == JsonLines ==>
        var lines := CompleteLines(old(remainder));
        && remainder == AfterLines(old(remainder)) && '\n' !in remainder
        && totalRows == old(totalRows) + CountObjectLines(lines, parse)
        && malformedCount == old(malformedCount) + CountBadLines(lines, parse)
        && (Reg(), r.rows) == LinesRows(config, parse, render, lines, old(Reg()))
      ensures format == JsonArray ==>
        var o := ArrayChunk(config, parse, render, old(inArray), old(remainder), old(Reg()));
        && Reg() == o.reg && r.rows == o.rows && remainder == o.rest && inArray == !o.closed
        && totalRows == old(totalRows) + |o.rows| && malformedCount == old(malformedCount) + o.bad
        && arrayDepth == (if ArrayStart(old(inArray), old(remainder)).Some? && !old(inArray) then 1 else old(arrayDepth))
      ensures |r.rows| == totalRows - old(totalRows)
      ensures forall k :: 0 <= k < |r.rows| ==> |r.rows[k]| <= |headers|
      ensures r == Result(r.rows)
    {
      match format {
        case JsonArray => r := ParseJsonArrayChunk();
        case JsonLines => r := ParseJsonlChunk();
        case Unknown => r := EmptyResult();
      }
    }

    /**
     * `flush`: what is left in the buffer is parsed as one last line (JSON
     * Lines) or one last object (JSON array), and the buffer is emptied.
     */
    method Flush() returns (r: JsonParseResult)
      requires Valid()
      modifies this`headers, this`headerOrder, this`arrayStats, this`totalRows, this`malformedCount, this`remainder
      ensures Valid() && Grows(config, old(Reg()), map[], Reg(), map[])
      ensures remainder == []
      ensures format == JsonLines ==>
        && totalRows == old(totalRows) + (if IsObjectLine(old(remainder), parse) then 1 else 0)
        && malformedCount == old(malformedCount) + (if IsBadLine(old(remainder), parse) then 1 else 0)
        && (Reg(), r.rows) == LinesRows(config, parse, render, [old(remainder)], old(Reg()))
      ensures format == JsonArray ==>
        var found := CompleteObject(Trim(old(remainder)));
        && (found.None? ==>
              Reg() == old(Reg()) && r.rows == [] && totalRows == old(totalRows) && malformedCount == old(malformedCount))
        && (found.Some? ==>
              var taken := TakeSpec(config, parse, render, found.value.1, old(Reg()));
              && Reg() == taken.0 && r.rows == RowsOf(taken.1)
              && totalRows == old(totalRows) + |RowsOf(taken.1)|
              && malformedCount == old(malformedCount) + (if taken.1.Some? then 0 else 1))
      ensures format == Unknown ==> Reg() == old(Reg()) && totalRows == old(totalRows) && malformedCount == old(malformedCount)
      ensures |r.rows| == totalRows - old(totalRows)
      ensures forall k :: 0 <= k < |r.rows| ==> |r.rows[k]| <= |headers|
      ensures r == Result(r.rows)
    {
      var rows: seq<seq<string>> := [];
      match format {
        case JsonLines => rows := FlushLine();
        case JsonArray => rows := FlushObject();
        case Unknown =>
      }
      remainder := [];
      r := Result(rows);
    }

    /** The JSON Lines part of `flush`: the buffer is parsed as one last line unless it is blank. */
    method FlushLine() returns (rows: seq<seq<string>>)
      requires Valid()
      modifies this`headers, this`headerOrder, this`arrayStats, this`totalRows, this`malformedCount
      ensures Valid() && Grows(config, old(Reg()), map[], Reg(), map[])
      ensures totalRows == old(totalRows) + (if IsObjectLine(remainder, parse) then 1 else 0)
      ensures malformedCount == old(malformedCount) + (if IsBadLine(remainder, parse) then 1 else 0)
      ensures (Reg(), rows) == LinesRows(config, parse, render, [remainder], old(Reg()))
      ensures |rows| == totalRows - old(totalRows)
      ensures forall k :: 0 <= k < |rows| ==> |rows[k]| <= |headers|
    {
      rows := [];
      LinesRowsSnoc(config, parse, render, [], remainder, Reg());
      assert [] + [remainder] == [remainder];
      var remaining := Trim(remainder);
      if remaining != [] {
        var row := TakeObject(remaining);
        if row.Some? {
          rows := [row.value];
        }
        assert rows == [] + RowsOf(row);
      }
    }

    /** The JSON array part of `flush`: the complete object at the start of the trimmed buffer, if any, is taken. */
    method FlushObject() returns (rows: seq<seq<string>>)
      requires Valid()
      modifies this`headers, this`headerOrder, this`arrayStats, this`totalRows, this`malformedCount
      ensures Valid() && Grows(config, old(Reg()), map[], Reg(), map[])
      ensures var found := CompleteObject(Trim(remainder));
        && (found.None? ==>
              Reg() == old(Reg()) && rows == [] && totalRows == old(totalRows) && malformedCount == old(malformedCount))
        && (found.Some? ==>
              var taken := TakeSpec(config, parse, render, found.value.1, old(Reg()));
              && Reg() == taken.0 && rows == RowsOf(taken.1)
              && totalRows == old(totalRows) + |RowsOf(taken.1)|
              && malformedCount == old(malformedCount) + (if taken.1.Some? then 0 else 1))
      ensures |rows| == totalRows - old(totalRows)
      ensures forall k :: 0 <= k < |rows| ==> |rows[k]| <= |headers|
    {
      rows := [];
      var remaining := Trim(remainder);
      if remaining != [] && remaining[0] == '{' {
        var found := FindCompleteObject(remaining);
        if found.Some? {
          var row := TakeObject(found.value.1);
          if row.Some? {
            rows := [row.value];
          }
        }
      }
    }
  }
}
