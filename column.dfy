/**
 * `ColumnProfile` of `src/wasm/src/stats/mod.rs`: one column's streaming
 * profile. Every cell bumps the count. A missing cell bumps `missing` and
 * nothing else. Any other cell is trimmed, counted towards distinctness,
 * frequency and length, and classified as integer, float, boolean, date or
 * text. Integer and float cells also feed the numeric statistics and the
 * histogram buffer. `Finalize` settles the distinct count, the top values,
 * the quantiles and histogram, and the inferred type.
 *
 * The HyperLogLog sketch is idealised as the exact set of trimmed values.
 * `str::parse::<f64>` is a parameter of the profile (`parseFloat`);
 * `str::parse::<i64>` is modelled exactly.
 */
module ColumnProfiles {
  import opened Wrappers
  import opened Text
  import opened Types
  import Numeric
  import Categorical
  import Histograms
  import Quantiles

  /** Capacity of the frequency map and of the histogram's sample buffer. */
  const MaxTracked: nat := 1000

  const I64Min: int := -0x8000_0000_0000_0000
  const I64Max: int := 0x7FFF_FFFF_FFFF_FFFF

  /** Every character is an ASCII digit. */
  predicate AllDigits(s: string) {
    s == [] || (AllDigits(s[..|s| - 1]) && IsDigit(s[|s| - 1]))
  }

  /** The value of a string of decimal digits. */
  function DigitsValue(s: string): (v: nat)
    requires AllDigits(s)
  {
    if s == [] then 0
    else DigitsValue(s[..|s| - 1]) * 10 + (s[|s| - 1] as int - '0' as int)
  }

  /**
   * `str::parse::<i64>`: an optional sign, then one or more ASCII digits, and a
   * value that fits in 64 bits.
   */
  function ParseI64(s: string): (r: Option<int>)
    ensures r.Some? ==> I64Min <= r.value <= I64Max
    ensures r.Some? ==> s != [] && IsDigit(s[|s| - 1])
  {
    var neg := |s| > 0 && s[0] == '-';
    var digits := if |s| > 0 && (s[0] == '-' || s[0] == '+') then s[1..] else s;
    if digits == [] || !AllDigits(digits) then None
    else
      var v: int := if neg then -(DigitsValue(digits) as int) else DigitsValue(digits);
      if I64Min <= v <= I64Max then Some(v) else None
  }

  /** A few inputs and what the integer parser makes of them. */
  lemma ParseI64Examples()
    ensures ParseI64("42") == Some(42)
    ensures ParseI64("-7") == Some(-7)
    ensures ParseI64("+5") == Some(5)
    ensures ParseI64("") == None
    ensures ParseI64("-") == None
    ensures ParseI64("4.5") == None
  {
    assert !AllDigits("4.5") by {
      assert !IsDigit("4.5"[1]);
    }
    assert DigitsValue("4") == 4 by {
      assert "4"[..0] == "";
    }
    assert DigitsValue("42") == 42 by {
      assert "42"[..1] == "4";
    }
    assert "-7"[1..] == "7" && DigitsValue("7") == 7 by {
      assert "7"[..0] == "";
    }
    assert "+5"[1..] == "5" && DigitsValue("5") == 5 by {
      assert "5"[..0] == "";
    }
    assert "-"[1..] == "";
  }

  /** A missing cell: empty after trimming, or "null" / "n/a" in any case. */
  predicate IsMissing(value: string) {
    IsMissingTrimmed(Trim(value))
  }

  /** The missing test on an already trimmed cell. */
  predicate IsMissingTrimmed(t: string) {
    t == [] || LowerEquals(t, "null") || LowerEquals(t, "n/a")
  }

  /** A trimmed cell is missing when it is empty or lower-cases to "null" or "n/a". */
  lemma IsMissingTrimmedMeaning(t: string)
    ensures IsMissingTrimmed(t) <==> t == [] || ToLower(t) == "null" || ToLower(t) == "n/a"
  {
    LowerEqualsToLower(t, "null");
    LowerEqualsToLower(t, "n/a");
  }

  /** `is_date`: contains '-' or '/', is at least 8 bytes long, and has a digit. */
  predicate IsDate(s: string) {
    ('-' in s || '/' in s) && |s| >= 8 && HasDigit(s)
  }

  predicate HasDigit(s: string) {
    s != [] && (IsDigit(s[0]) || HasDigit(s[1..]))
  }

  /** The boolean test of `infer_and_update`: lower-cases to "true", "false", "t" or "f". */
  predicate IsBooleanWord(s: string) {
    LowerEquals(s, "true") || LowerEquals(s, "false") || LowerEquals(s, "t") || LowerEquals(s, "f")
  }

  lemma IsBooleanWordMeaning(s: string)
    ensures IsBooleanWord(s) <==> var lower := ToLower(s);
      lower == "true" || lower == "false" || lower == "t" || lower == "f"
  {
    LowerEqualsToLower(s, "true");
    LowerEqualsToLower(s, "false");
    LowerEqualsToLower(s, "t");
    LowerEqualsToLower(s, "f");
  }

  /** What `infer_and_update` makes of a trimmed cell, in the order it tries. */
  datatype Kind = IntegerCell(i: int) | FloatCell(f: real) | BooleanCell | DateCell | TextCell {
    predicate IsNumber() { IntegerCell? || FloatCell? }
    function Number(): real
      requires IsNumber()
    {
      if IntegerCell? then i as real else f
    }
  }

  function Classify(t: string, parseFloat: string -> Option<real>): Kind {
    match ParseI64(t)
    case Some(i) => IntegerCell(i)
    case None =>
      match parseFloat(t)
      case Some(f) => FloatCell(f)
      case None =>
        if IsBooleanWord(t) then BooleanCell
        else if IsDate(t) then DateCell
        else TextCell
  }

  /** Each kind is chosen exactly when the rules before it do not apply and its own does. */
  lemma ClassifyRules(t: string, parseFloat: string -> Option<real>)
    ensures var k := Classify(t, parseFloat);
      && (k.IntegerCell? <==> ParseI64(t).Some?)
      && (k.FloatCell? <==> ParseI64(t).None? && parseFloat(t).Some?)
      && (k.BooleanCell? <==> ParseI64(t).None? && parseFloat(t).None? && IsBooleanWord(t))
      && (k.DateCell? <==> ParseI64(t).None? && parseFloat(t).None? && !IsBooleanWord(t) && IsDate(t))
  {
  }

  /** The decision table of `finalize`, first match wins. */
  function InferType(totalValid: nat, integers: nat, numerics: nat, booleans: nat, dates: nat): DataType {
    if totalValid == 0 then Null
    else if integers == totalValid then Integer
    else if numerics == totalValid then Numeric
    else if booleans == totalValid then Boolean
    else if dates == totalValid then Date
    else String
  }

  /** `numeric_count > 0 && numeric_count / total_valid > 0.5`. */
  predicate MostlyNumeric(numerics: nat, totalValid: nat)
    requires totalValid > 0
  {
    numerics > 0 && numerics as real / totalValid as real > 0.5
  }

  const NumericNote: string := "Potentially numeric with exceptions"

  /**
   * Under the counter invariants, each type is chosen exactly when every valid cell is of
   * that kind and no earlier row of the table matched; `String` is left for mixed columns.
   */
  lemma InferTypeTable(totalValid: nat, integers: nat, numerics: nat, booleans: nat, dates: nat)
    requires integers <= numerics && numerics + booleans + dates <= totalValid
    ensures var t := InferType(totalValid, integers, numerics, booleans, dates);
      && (t == Null <==> totalValid == 0)
      && (t == Integer <==> totalValid > 0 && integers == totalValid)
      && (t == Numeric <==> totalValid > 0 && integers < numerics == totalValid)
      && (t == Boolean <==> totalValid > 0 && booleans == totalValid)
      && (t == Date <==> totalValid > 0 && dates == totalValid)
      && (t == String <==> totalValid > 0 && numerics < totalValid && booleans < totalValid && dates < totalValid)
  {}

  /** The note's condition is a strict numeric majority among the valid cells. */
  lemma MostlyNumericIsMajority(numerics: nat, totalValid: nat)
    requires totalValid > 0
    ensures MostlyNumeric(numerics, totalValid) <==> 2 * numerics > totalValid
  {
    var n, t := numerics as real, totalValid as real;
    var q := n / t;
    assert q * t == n;
    assert (q - 0.5) * t == n - 0.5 * t;
    assert (2 * numerics > totalValid) <==> (n - 0.5 * t > 0.0);
    PositiveFactor(q - 0.5, t);
    assert q > 0.5 <==> 2 * numerics > totalValid;
    assert 2 * numerics > totalValid ==> numerics > 0;
  }

  /** Multiplying by a positive number keeps the sign. */
  lemma PositiveFactor(x: real, t: real)
    requires t > 0.0
    ensures x > 0.0 <==> x * t > 0.0
  {
    if x > 0.0 {
      assert x * t > 0.0;
    } else {
      assert -x * t >= 0.0;
    }
  }

  /** The trimmed cells that are not missing, in arrival order. */
  function ValidCells(cells: seq<string>): (r: seq<string>)
    ensures |r| <= |cells|
  {
    if cells == [] then []
    else
      var init := ValidCells(cells[..|cells| - 1]);
      if IsMissing(cells[|cells| - 1]) then init else init + [Trim(cells[|cells| - 1])]
  }

  /** How many of the cells are missing. */
  function MissingCount(cells: seq<string>): nat {
    if cells == [] then 0
    else MissingCount(cells[..|cells| - 1]) + (if IsMissing(cells[|cells| - 1]) then 1 else 0)
  }

  /** Every cell is either missing or valid. */
  lemma {:induction false} MissingPlusValid(cells: seq<string>)
    ensures MissingCount(cells) + |ValidCells(cells)| == |cells|
  {
    if cells != [] {
      MissingPlusValid(cells[..|cells| - 1]);
    }
  }

  /** The classification of each valid cell, in order. */
  function KindsOf(vs: seq<string>, parseFloat: string -> Option<real>): (ks: seq<Kind>)
    ensures |ks| == |vs|
  {
    if vs == [] then [] else KindsOf(vs[..|vs| - 1], parseFloat) + [Classify(vs[|vs| - 1], parseFloat)]
  }

  lemma {:induction false} KindsOfAt(vs: seq<string>, parseFloat: string -> Option<real>, i: nat)
    requires i < |vs|
    ensures KindsOf(vs, parseFloat)[i] == Classify(vs[i], parseFloat)
  {
    if i < |vs| - 1 {
      KindsOfAt(vs[..|vs| - 1], parseFloat, i);
    }
  }

  /** The four type counters of a column. */
  datatype KindTally = KindTally(integers: nat, numerics: nat, booleans: nat, dates: nat)

  /** The counters after one more cell of kind `k`: an integer is also counted as a number. */
  function Bump(c: KindTally, k: Kind): KindTally {
    match k
    case IntegerCell(_) => c.(integers := c.integers + 1, numerics := c.numerics + 1)
    case FloatCell(_) => c.(numerics := c.numerics + 1)
    case BooleanCell => c.(booleans := c.booleans + 1)
    case DateCell => c.(dates := c.dates + 1)
    case TextCell => c
  }

  function Tally(ks: seq<Kind>): KindTally {
    if ks == [] then KindTally(0, 0, 0, 0) else Bump(Tally(ks[..|ks| - 1]), ks[|ks| - 1])
  }

  /** The values the numeric cells parsed to, in order. */
  function NumbersOf(ks: seq<Kind>): seq<real> {
    if ks == [] then []
    else
      var k := ks[|ks| - 1];
      NumbersOf(ks[..|ks| - 1]) + (if k.IsNumber() then [k.Number()] else [])
  }

  /**
   * Each valid cell bumps at most one of integer-or-float, boolean and date;
   * an integer is also a number; one number is fed per numeric cell.
   */
  lemma {:induction false} TallyBounds(ks: seq<Kind>)
    ensures var c := Tally(ks);
      && c.integers <= c.numerics && c.numerics + c.booleans + c.dates <= |ks|
      && c.numerics == |NumbersOf(ks)|
  {
    if ks != [] {
      TallyBounds(ks[..|ks| - 1]);
    }
  }

  /** The integer and number counters reach the number of cells exactly when every cell is one. */
  lemma {:induction false} TallyAllNumbers(ks: seq<Kind>)
    ensures var c := Tally(ks);
      && (c.integers == |ks| <==> forall i :: 0 <= i < |ks| ==> ks[i].IntegerCell?)
      && (c.numerics == |ks| <==> forall i :: 0 <= i < |ks| ==> ks[i].IsNumber())
  {
    if ks != [] {
      var init := ks[..|ks| - 1];
      TallyAllNumbers(init);
      TallyBounds(init);
      assert forall i :: 0 <= i < |init| ==> init[i] == ks[i];
    }
  }

  /** The boolean and date counters reach the number of cells exactly when every cell is one. */
  lemma {:induction false} TallyAllWords(ks: seq<Kind>)
    ensures var c := Tally(ks);
      && (c.booleans == |ks| <==> forall i :: 0 <= i < |ks| ==> ks[i].BooleanCell?)
      && (c.dates == |ks| <==> forall i :: 0 <= i < |ks| ==> ks[i].DateCell?)
  {
    if ks != [] {
      var init := ks[..|ks| - 1];
      TallyAllWords(init);
      TallyBounds(init);
      assert forall i :: 0 <= i < |init| ==> init[i] == ks[i];
    }
  }

  /**
   * The inferred type in terms of the cells' kinds: `Null` for no valid cell;
   * `Integer`, `Boolean` or `Date` when every valid cell is one; `Numeric` when
   * every cell is a number and some is not an integer; `String` otherwise.
   */
  lemma InferredTypeOfKinds(ks: seq<Kind>)
    ensures var c := Tally(ks);
      var d := InferType(|ks|, c.integers, c.numerics, c.booleans, c.dates);
      && (d == Null <==> ks == [])
      && (d == Integer <==> ks != [] && forall i :: 0 <= i < |ks| ==> ks[i].IntegerCell?)
      && (d == Numeric <==> ks != [] && (forall i :: 0 <= i < |ks| ==> ks[i].IsNumber())
                                     && exists i :: 0 <= i < |ks| && ks[i].FloatCell?)
      && (d == Boolean <==> ks != [] && forall i :: 0 <= i < |ks| ==> ks[i].BooleanCell?)
      && (d == Date <==> ks != [] && forall i :: 0 <= i < |ks| ==> ks[i].DateCell?)
      && (d == String <==> ks != [] && (exists i :: 0 <= i < |ks| && !ks[i].IsNumber())
                                     && (exists i :: 0 <= i < |ks| && !ks[i].BooleanCell?)
                                     && (exists i :: 0 <= i < |ks| && !ks[i].DateCell?))
  {
    var c := Tally(ks);
    TallyBounds(ks);
    TallyAllNumbers(ks);
    TallyAllWords(ks);
    InferTypeTable(|ks|, c.integers, c.numerics, c.booleans, c.dates);
  }

  /** The frequency map after feeding `vs` in order to a fresh accumulator. */
  function Frequencies(vs: seq<string>): map<string, nat> {
    if vs == [] then map[] else Categorical.Counted(Frequencies(vs[..|vs| - 1]), vs[|vs| - 1], MaxTracked)
  }

  /** Only values that occurred are stored, and never more than `MaxTracked` of them. */
  lemma {:induction false} FrequenciesStored(vs: seq<string>)
    ensures |Frequencies(vs)| <= MaxTracked
    ensures forall v :: v in Frequencies(vs) ==> v in vs
  {
    if vs != [] {
      var init := vs[..|vs| - 1];
      FrequenciesStored(init);
      Categorical.CountedEffect(Frequencies(init), vs[|vs| - 1], MaxTracked);
      assert forall v :: v in init ==> v in vs;
    }
  }

  /**
   * A stored value is counted exactly as often as it occurs; a value that
   * occurred but is not stored was turned away because the map was full.
   */
  lemma {:induction false} FrequenciesExact(vs: seq<string>)
    ensures forall v :: v in Frequencies(vs) ==> Frequencies(vs)[v] == multiset(vs)[v]
    ensures forall v :: v in vs && v !in Frequencies(vs) ==> |Frequencies(vs)| == MaxTracked
  {
    if vs != [] {
      var init, x := vs[..|vs| - 1], vs[|vs| - 1];
      FrequenciesExact(init);
      FrequenciesStored(init);
      Categorical.CountedEffect(Frequencies(init), x, MaxTracked);
      assert vs == init + [x];
      assert multiset(vs) == multiset(init) + multiset{x};
      assert x !in init ==> multiset(init)[x] == 0;
    }
  }

  /** The values of `vs` as a set. */
  function SetOf(vs: seq<string>): (r: set<string>)
    ensures forall v :: v in r <==> v in vs
  {
    if vs == [] then {} else SetOf(vs[..|vs| - 1]) + {vs[|vs| - 1]}
  }

  /** `lo` and `hi` are the shortest and the longest length among `vs`. */
  ghost predicate LengthBounds(vs: seq<string>, lo: nat, hi: nat) {
    && (forall i :: 0 <= i < |vs| ==> lo <= |vs[i]| <= hi)
    && (exists i :: 0 <= i < |vs| && |vs[i]| == lo)
    && (exists i :: 0 <= i < |vs| && |vs[i]| == hi)
  }

  /** The length bounds are `None` with no values, and otherwise the shortest and longest length. */
  ghost predicate Lengths(vs: seq<string>, minLength: Option<nat>, maxLength: Option<nat>) {
    && (minLength.None? <==> vs == []) && (maxLength.None? <==> vs == [])
    && (vs != [] ==> LengthBounds(vs, minLength.value, maxLength.value))
  }

  /** The length bounds after one more value. */
  lemma LengthsExtend(vs: seq<string>, lo: Option<nat>, hi: Option<nat>, t: string)
    requires Lengths(vs, lo, hi)
    ensures Lengths(vs + [t], ShorterOf(lo, |t|), LongerOf(hi, |t|))
  {
    var ws := vs + [t];
    assert ws[|vs|] == t;
    assert forall i :: 0 <= i < |vs| ==> ws[i] == vs[i];
  }

  /** `min_length` after a value of length `len`. */
  function ShorterOf(lo: Option<nat>, len: nat): Option<nat> {
    if lo.None? || len < lo.value then Some(len) else lo
  }

  /** `max_length` after a value of length `len`. */
  function LongerOf(hi: Option<nat>, len: nat): Option<nat> {
    if hi.None? || len > hi.value then Some(len) else hi
  }

  /** What `update` maintains, as values: everything except the finalized fields. */
  datatype Tracked = Tracked(
    count: nat, missing: nat, totalValid: nat,
    sketch: set<string>, frequencies: map<string, nat>, frequencyTotal: nat,
    minLength: Option<nat>, maxLength: Option<nat>,
    tally: KindTally, numbers: seq<real>)

  const Initial: Tracked := Tracked(0, 0, 0, {}, map[], 0, None, None, KindTally(0, 0, 0, 0), [])

  /** The effect of one `update` call on the tracked state. */
  function Step(s: Tracked, cell: string, parseFloat: string -> Option<real>): Tracked {
    if IsMissing(cell) then Missed(s)
    else var t := Trim(cell); Accepted(s, t, Classify(t, parseFloat))
  }

  /** A missing cell is counted and nothing else changes. */
  function Missed(s: Tracked): Tracked {
    s.(count := s.count + 1, missing := s.missing + 1)
  }

  /** A valid trimmed cell `t` of kind `k`: first recorded, then classified. */
  function Accepted(s: Tracked, t: string, k: Kind): Tracked {
    Inferred(Recorded(s, t), k)
  }

  /** What `update` does with a valid trimmed cell before classifying it. */
  function Recorded(s: Tracked, t: string): Tracked {
    s.(count := s.count + 1, totalValid := s.totalValid + 1,
       sketch := s.sketch + {t},
       frequencies := Categorical.Counted(s.frequencies, t, MaxTracked),
       frequencyTotal := s.frequencyTotal + 1,
       minLength := ShorterOf(s.minLength, |t|), maxLength := LongerOf(s.maxLength, |t|))
  }

  /** What `infer_and_update` does with a cell of kind `k`. */
  function Inferred(s: Tracked, k: Kind): Tracked {
    s.(tally := Bump(s.tally, k), numbers := s.numbers + (if k.IsNumber() then [k.Number()] else []))
  }

  /** The tracked state after `update` on each of `cells` in turn. */
  function ProfileOf(cells: seq<string>, parseFloat: string -> Option<real>): Tracked {
    if cells == [] then Initial else Step(ProfileOf(cells[..|cells| - 1], parseFloat), cells[|cells| - 1], parseFloat)
  }

  lemma ProfileOfSnoc(cells: seq<string>, cell: string, parseFloat: string -> Option<real>)
    ensures ProfileOf(cells + [cell], parseFloat) == Step(ProfileOf(cells, parseFloat), cell, parseFloat)
  {
    assert (cells + [cell])[..|cells|] == cells;
  }

  /** `count`, `missing` and `total_valid` count all, the missing and the other cells. */
  lemma {:induction false} ProfileOfCounts(cells: seq<string>, parseFloat: string -> Option<real>)
    ensures var p := ProfileOf(cells, parseFloat);
      && p.count == |cells| && p.missing == MissingCount(cells)
      && p.totalValid == |ValidCells(cells)| && p.frequencyTotal == p.totalValid
      && p.missing + p.totalValid == p.count
  {
    if cells != [] {
      ProfileOfCounts(cells[..|cells| - 1], parseFloat);
    }
  }

  /** The sketch holds exactly the trimmed valid values, and the frequency map is theirs. */
  lemma {:induction false} ProfileOfValues(cells: seq<string>, parseFloat: string -> Option<real>)
    ensures var p := ProfileOf(cells, parseFloat);
      p.sketch == SetOf(ValidCells(cells)) && p.frequencies == Frequencies(ValidCells(cells))
  {
    if cells != [] {
      var init := cells[..|cells| - 1];
      ProfileOfValues(init, parseFloat);
      var vs := ValidCells(init);
      if !IsMissing(cells[|cells| - 1]) {
        assert (vs + [Trim(cells[|cells| - 1])])[..|vs|] == vs;
      }
    }
  }

  /** The length bounds are the shortest and longest trimmed valid value. */
  lemma {:induction false} ProfileOfLengths(cells: seq<string>, parseFloat: string -> Option<real>)
    ensures var p := ProfileOf(cells, parseFloat);
      Lengths(ValidCells(cells), p.minLength, p.maxLength)
  {
    if cells != [] {
      var init := cells[..|cells| - 1];
      ProfileOfLengths(init, parseFloat);
      if !IsMissing(cells[|cells| - 1]) {
        var p := ProfileOf(init, parseFloat);
        LengthsExtend(ValidCells(init), p.minLength, p.maxLength, Trim(cells[|cells| - 1]));
      }
    }
  }

  /** The type counters and the fed numbers are those of the valid cells' classifications. */
  lemma {:induction false} ProfileOfKinds(cells: seq<string>, parseFloat: string -> Option<real>)
    ensures var p := ProfileOf(cells, parseFloat);
      var ks := KindsOf(ValidCells(cells), parseFloat);
      p.tally == Tally(ks) && p.numbers == NumbersOf(ks)
  {
    if cells != [] {
      var init := cells[..|cells| - 1];
      ProfileOfKinds(init, parseFloat);
      if !IsMissing(cells[|cells| - 1]) {
        var vs := ValidCells(init);
        var t := Trim(cells[|cells| - 1]);
        assert (vs + [t])[..|vs|] == vs;
        var ks := KindsOf(vs, parseFloat);
        assert (ks + [Classify(t, parseFloat)])[..|ks|] == ks;
      }
    }
  }

  /** The counters never exceed what they count, and one number is fed per numeric cell. */
  lemma ProfileOfCounters(cells: seq<string>, parseFloat: string -> Option<real>)
    ensures var p := ProfileOf(cells, parseFloat);
      && p.tally.integers <= p.tally.numerics
      && p.tally.numerics + p.tally.booleans + p.tally.dates <= p.totalValid
      && p.tally.numerics == |p.numbers|
  {
    ProfileOfCounts(cells, parseFloat);
    ProfileOfKinds(cells, parseFloat);
    TallyBounds(KindsOf(ValidCells(cells), parseFloat));
  }

  /** A finalized column as the export sees it (the accumulators are not carried). */
  datatype ColumnReport = ColumnReport(
    name: string,
    baseStats: BaseStats,
    numericStats: Option<Numeric.NumericSummary>,
    categoricalStats: Option<Categorical.CategoricalStats>,
    histogram: Option<Histograms.Histogram>,
    minLength: Option<nat>,
    maxLength: Option<nat>,
    notes: seq<string>)

  class ColumnProfile {
    const name: string
    var baseStats: BaseStats
    /**
     * `numeric_stats.is_some()`: the numeric accumulators are in use. They
     * are allocated with the profile and stay untouched until the first number.
     */
    var hasNumeric: bool
    const numeric: Numeric.NumericStats
    var categoricalStats: Option<Categorical.CategoricalStats>
    var histogram: Option<Histograms.Histogram>
    var minLength: Option<nat>
    var maxLength: Option<nat>
    var notes: seq<string>
    /** The idealised distinct-value sketch: every trimmed valid value. */
    var sketch: set<string>
    const histAcc: Histograms.HistogramAccumulator
    const catAcc: Categorical.CategoricalAccumulator
    var integerCount: nat
    var numericCount: nat
    var booleanCount: nat
    var dateCount: nat
    var totalValid: nat
    const parseFloat: string -> Option<real>
    const usizeBits: nat

    /** Every cell passed to `Update`, in order. */
    ghost var cells: seq<string>
    /** The numbers the numeric cells parsed to, in order. */
    ghost var numbers: seq<real>

    /** The objects this profile owns. */
    ghost function Repr(): set<object> {
      {this, catAcc, numeric, histAcc}
    }

    /** The tracked state is the one the cells fed so far produce. */
    ghost predicate Valid()
      reads this, catAcc, numeric, histAcc
    {
      Inv() && Observed() == ProfileOf(cells, parseFloat)
    }

    /** The accumulators are well formed, whatever the cells were. */
    ghost predicate Inv()
      reads this`hasNumeric, this`numbers, this`numericCount, catAcc, numeric, histAcc
    {
      && NumericPartValid()
      && numericCount == |numbers|
      && catAcc.Valid() && catAcc.maxUnique == MaxTracked
    }

    /** The fields `update` maintains. */
    ghost function Observed(): Tracked
      reads this`baseStats, this`totalValid, this`sketch, this`minLength, this`maxLength
      reads this`integerCount, this`numericCount, this`booleanCount, this`dateCount, this`numbers, catAcc
    {
      Tracked(baseStats.count, baseStats.missing, totalValid, sketch, catAcc.counts, catAcc.totalCount,
        minLength, maxLength, KindTally(integerCount, numericCount, booleanCount, dateCount), numbers)
    }

    /** The numeric accumulators exist once a number arrived, and both have seen exactly `numbers`. */
    ghost predicate NumericPartValid()
      reads this`hasNumeric, this`numbers, numeric, histAcc
    {
      && (hasNumeric <==> numbers != [])
      && numeric.Valid() && histAcc.Valid()
      && numeric.values == numbers && histAcc.seen == numbers
      && histAcc.maxSamples == MaxTracked && histAcc.usizeBits == usizeBits
    }

    constructor(name: string, parseFloat: string -> Option<real>, usizeBits: nat)
      ensures Valid() && fresh(Repr())
      ensures this.name == name && this.parseFloat == parseFloat && this.usizeBits == usizeBits
      ensures baseStats == BaseStats(0, 0, 0, Null) && cells == []
      ensures !hasNumeric && categoricalStats.None? && histogram.None? && notes == []
    {
      this.name := name;
      this.parseFloat := parseFloat;
      this.usizeBits := usizeBits;
      baseStats := BaseStats(0, 0, 0, Null);
      hasNumeric, categoricalStats, histogram := false, None, None;
      minLength, maxLength, notes := None, None, [];
      sketch := {};
      numeric := new Numeric.NumericStats();
      histAcc := new Histograms.HistogramAccumulator(MaxTracked, usizeBits);
      catAcc := new Categorical.CategoricalAccumulator(MaxTracked);
      integerCount, numericCount, booleanCount, dateCount, totalValid := 0, 0, 0, 0, 0;
      cells, numbers := [], [];
    }

    /**
     * `update` on one more cell: the tracked state moves by `Step`, and what
     * `finalize` writes is left alone. Once the histogram buffer is full the
     * reservoir index divides by the count of numbers truncated to a `usize`,
     * which must not be 0.
     */
    method Update(value: string)
      requires Valid()
      requires numericCount < MaxTracked || (numericCount + 1) % Histograms.Pow2(usizeBits) != 0
      modifies this, catAcc, numeric, histAcc
      ensures Valid()
      ensures cells == old(cells) + [value]
      ensures baseStats == old(baseStats).(count := baseStats.count, missing := baseStats.missing)
      ensures (categoricalStats, histogram, notes) == old((categoricalStats, histogram, notes))
    {
      ProfileOfSnoc(cells, value, parseFloat);
      UpdateFields(value);
    }

    /** The body of `update`: trim, then count a missing cell or record and classify a valid one. */
    method UpdateFields(value: string)
      requires Inv()
      requires numericCount < MaxTracked || (numericCount + 1) % Histograms.Pow2(usizeBits) != 0
      modifies this`baseStats, this`totalValid, this`sketch, this`minLength, this`maxLength
      modifies this`integerCount, this`numericCount, this`booleanCount, this`dateCount
      modifies this`hasNumeric, this`numbers, this`cells, catAcc, numeric, histAcc
      ensures Inv() && cells == old(cells) + [value]
      ensures Observed() == Step(old(Observed()), value, parseFloat)
      ensures baseStats == old(baseStats).(count := baseStats.count, missing := baseStats.missing)
    {
      var trimmed := Trim(value);
      cells := cells + [value];
      if IsMissingTrimmed(trimmed) {
        baseStats := baseStats.(count := baseStats.count + 1, missing := baseStats.missing + 1);
        assert Inv() == old(Inv());
      } else {
        UpdateValid(trimmed);
      }
    }

    /** A cell that is not missing, already trimmed: recorded, then classified. */
    method UpdateValid(t: string)
      requires Inv()
      requires numericCount < MaxTracked || (numericCount + 1) % Histograms.Pow2(usizeBits) != 0
      modifies this`baseStats, this`totalValid, this`sketch, this`minLength, this`maxLength
      modifies this`integerCount, this`numericCount, this`booleanCount, this`dateCount
      modifies this`hasNumeric, this`numbers, catAcc, numeric, histAcc
      ensures Inv()
      ensures Observed() == Accepted(old(Observed()), t, Classify(t, parseFloat))
      ensures baseStats == old(baseStats).(count := baseStats.count)
    {
      RecordValid(t);
      assert NumericPartValid() == old(NumericPartValid());
      label recorded:
      InferAndUpdate(t);
      assert catAcc.Valid() == old@recorded(catAcc.Valid());
    }

    /** Counts a valid cell, feeds the sketch and the frequency map, and widens the length bounds. */
    method RecordValid(t: string)
      requires catAcc.Valid() && catAcc.maxUnique == MaxTracked
      modifies this`baseStats, this`totalValid, this`sketch, this`minLength, this`maxLength, catAcc
      ensures catAcc.Valid()
      ensures Observed() == Recorded(old(Observed()), t)
      ensures baseStats == old(baseStats).(count := old(baseStats.count) + 1)
    {
      catAcc.Update(t);
      var len := |t|;
      baseStats, totalValid, sketch, minLength, maxLength :=
        baseStats.(count := baseStats.count + 1), totalValid + 1, sketch + {t},
        ShorterOf(minLength, len), LongerOf(maxLength, len);
    }

    /**
     * `infer_and_update`: the first rule that matches bumps its counter, and a
     * number then also feeds the numeric accumulators.
     */
    method InferAndUpdate(t: string)
      requires NumericPartValid() && numericCount == |numbers|
      requires numericCount < MaxTracked || (numericCount + 1) % Histograms.Pow2(usizeBits) != 0
      modifies this`integerCount, this`numericCount, this`booleanCount, this`dateCount
      modifies this`hasNumeric, this`numbers, numeric, histAcc
      ensures NumericPartValid() && numericCount == |numbers|
      ensures Observed() == Inferred(old(Observed()), Classify(t, parseFloat))
    {
      var k := Classify(t, parseFloat);
      var c := Bump(KindTally(integerCount, numericCount, booleanCount, dateCount), k);
      integerCount, numericCount, booleanCount, dateCount := c.integers, c.numerics, c.booleans, c.dates;
      if k.IsNumber() {
        UpdateNumeric(k.Number());
      }
    }

    /** `update_numeric`: puts the numeric accumulators in use on the first number, then feeds both. */
    method UpdateNumeric(val: real)
      requires NumericPartValid()
      requires |numbers| < MaxTracked || (|numbers| + 1) % Histograms.Pow2(usizeBits) != 0
      modifies this`hasNumeric, this`numbers, numeric, histAcc
      ensures NumericPartValid() && hasNumeric
      ensures Observed() == old(Observed()).(numbers := old(numbers) + [val])
    {
      if !hasNumeric {
        hasNumeric := true;
      }
      numeric.Update(val);
      histAcc.Update(val);
      numbers := numbers + [val];
    }

    /** The type `finalize` infers from the counters. */
    function InferredType(): DataType
      reads this`totalValid, this`integerCount, this`numericCount, this`booleanCount, this`dateCount
    {
      InferType(totalValid, integerCount, numericCount, booleanCount, dateCount)
    }

    /** A mixed column whose valid cells are mostly numbers gets the note. */
    predicate NeedsNote()
      reads this`totalValid, this`integerCount, this`numericCount, this`booleanCount, this`dateCount
    {
      InferredType() == String && MostlyNumeric(numericCount, totalValid)
    }

    /**
     * `finalize`: settles the distinct count and the inferred type, ranks the
     * stored values, stores the quantiles of the sorted sample buffer and
     * builds the histogram of the buffer when a number was seen, and notes a
     * mostly numeric mixed column. The tracked state is left as it is.
     */
    method Finalize()
      requires Inv()
      modifies this`baseStats, this`categoricalStats, this`histogram, this`notes, numeric
      ensures Observed() == old(Observed())
      ensures baseStats == old(baseStats).(distinctEstimate := |sketch|, inferredType := InferredType())
      ensures categoricalStats.Some? && categoricalStats.value.uniqueCount == |catAcc.counts|
      ensures Categorical.TopReport(categoricalStats.value.topValues, catAcc.counts, catAcc.totalCount)
      ensures !hasNumeric ==> histogram == old(histogram)
      ensures hasNumeric ==> NumericSettled(histogram)
      ensures notes == old(notes) + (if NeedsNote() then [NumericNote] else [])
    {
      FinalizeNumeric();
      label numericDone:
      assert catAcc.Valid() == old(catAcc.Valid()) && Observed() == old(Observed());
      SettleSummary();
      assert Observed() == old@numericDone(Observed());
      assert hasNumeric ==> NumericSettled(histogram) == old@numericDone(NumericSettled(histogram));
    }

    /** The distinct count, the categorical report, the inferred type and the note. */
    method SettleSummary()
      requires catAcc.Valid()
      modifies this`baseStats, this`categoricalStats, this`notes
      ensures baseStats == old(baseStats).(distinctEstimate := |sketch|, inferredType := InferredType())
      ensures categoricalStats.Some? && categoricalStats.value.uniqueCount == |catAcc.counts|
      ensures Categorical.TopReport(categoricalStats.value.topValues, catAcc.counts, catAcc.totalCount)
      ensures notes == old(notes) + (if NeedsNote() then [NumericNote] else [])
    {
      var categorical := catAcc.Finalize();
      var newNotes := if NeedsNote() then notes + [NumericNote] else notes;
      baseStats, categoricalStats, notes :=
        baseStats.(distinctEstimate := |sketch|, inferredType := InferredType()), Some(categorical), newNotes;
    }

    /**
     * The numeric statistics hold the quantiles of the sorted sample buffer,
     * and `hist` is the histogram of the buffer between the extremes.
     */
    ghost predicate NumericSettled(hist: Option<Histograms.Histogram>)
      reads numeric, histAcc
    {
      && numeric.min.Some? && numeric.max.Some?
      && hist == Some(Histograms.HistogramOf(histAcc.samples, numeric.min.value, numeric.max.value,
                                             Histograms.NumBins(histAcc.count)))
      && Numeric.QuantileSet(numeric.median, numeric.p25, numeric.p75, numeric.p90, numeric.p95, numeric.p99)
         == Numeric.QuantilesOf(Quantiles.Sort(histAcc.samples))
    }

    /** The numeric half of `finalize`; the sorted copy of the buffer is not written back. */
    method FinalizeNumeric()
      requires NumericPartValid()
      modifies this`histogram, numeric
      ensures NumericPartValid()
      ensures !hasNumeric ==> histogram == old(histogram)
      ensures hasNumeric ==> NumericSettled(histogram)
    {
      if hasNumeric {
        var sorted := numeric.Finalize(histAcc.samples);
        var h := histAcc.Finalize(numeric.min.value, numeric.max.value);
        histogram := Some(h);
      }
    }

    /** What a clone carries: the reported fields, without the accumulators. */
    function Report(): (r: ColumnReport)
      reads this, numeric
      ensures r.name == name && r.baseStats == baseStats && r.notes == notes
      ensures r.numericStats.Some? <==> hasNumeric
    {
      ColumnReport(name, baseStats, if hasNumeric then Some(numeric.Summary()) else None,
                   categoricalStats, histogram, minLength, maxLength, notes)
    }
  }
}
