/**
 * `Histogram::generate` and `HistogramAccumulator` of
 * `src/wasm/src/stats/histogram.rs`: equal-width binning of the sampled
 * values, and the bounded sample buffer that feeds it.
 *
 * Values are exact reals. The bin index is the floor of the offset divided by
 * the bin width, cast to an unsigned index the way Rust casts a float (a
 * negative value becomes 0) and clamped to the last bin.
 */
module Histograms {
  datatype HistogramBin = HistogramBin(start: real, end: real, count: nat)

  datatype Histogram = Histogram(bins: seq<HistogramBin>, min: real, max: real, binWidth: real)

  /** The bin a value falls into: `floor((val - min) / width)`, saturated to `0 .. numBins - 1`. */
  function BinIndex(val: real, min: real, width: real, numBins: nat): (b: nat)
    requires width > 0.0 && numBins > 0
    ensures b < numBins
  {
    var f := ((val - min) / width).Floor;
    if f < 0 then 0 else if f >= numBins then numBins - 1 else f
  }

  /** A value inside `[min + b * width, min + (b + 1) * width)` lands in bin `b`. */
  lemma BinIndexInside(val: real, min: real, width: real, numBins: nat, b: nat)
    requires width > 0.0 && b < numBins
    requires min + b as real * width <= val < min + (b + 1) as real * width
    ensures BinIndex(val, min, width, numBins) == b
  {
    DivAtLeast(val - min, width, b as real);
    DivBelow(val - min, width, (b + 1) as real);
  }

  lemma DivAtLeast(y: real, w: real, c: real)
    requires w > 0.0 && c * w <= y
    ensures c <= y / w
  {
    assert (y / w) * w == y;
  }

  lemma DivBelow(y: real, w: real, c: real)
    requires w > 0.0 && y < c * w
    ensures y / w < c
  {
    assert (y / w) * w == y;
  }

  /** Values below `min` go to the first bin, values at or past the upper edge to the last. */
  lemma BinIndexOutside(val: real, min: real, width: real, numBins: nat)
    requires width > 0.0 && numBins > 0
    ensures val < min ==> BinIndex(val, min, width, numBins) == 0
    ensures val >= min + numBins as real * width ==> BinIndex(val, min, width, numBins) == numBins - 1
  {
    if val < min {
      DivBelow(val - min, width, 0.0);
    }
    if val >= min + numBins as real * width {
      DivAtLeast(val - min, width, numBins as real);
    }
  }

  /** The per-bin counts after binning `data` in order. */
  function Counts(data: seq<real>, min: real, width: real, numBins: nat): (r: seq<nat>)
    requires width > 0.0 && numBins > 0
    ensures |r| == numBins
  {
    if data == [] then seq(numBins, _ => 0)
    else
      var c := Counts(data[..|data| - 1], min, width, numBins);
      var b := BinIndex(data[|data| - 1], min, width, numBins);
      c[b := c[b] + 1]
  }

  function SumNat(s: seq<nat>): nat {
    if s == [] then 0 else s[0] + SumNat(s[1..])
  }

  lemma {:induction false} SumZeros(n: nat)
    ensures SumNat(seq(n, _ => 0)) == 0
  {
    if n > 0 {
      assert seq(n, _ => 0)[1..] == seq(n - 1, _ => 0);
      SumZeros(n - 1);
    }
  }

  lemma {:induction false} SumBump(s: seq<nat>, k: nat)
    requires k < |s|
    ensures SumNat(s[k := s[k] + 1]) == SumNat(s) + 1
  {
    if k > 0 {
      assert s[k := s[k] + 1][1..] == s[1..][k - 1 := s[k] + 1];
      SumBump(s[1..], k - 1);
    }
  }

  /** Every value lands in exactly one bin, so the counts add up to the number of values. */
  lemma {:induction false} CountsTotal(data: seq<real>, min: real, width: real, numBins: nat)
    requires width > 0.0 && numBins > 0
    ensures SumNat(Counts(data, min, width, numBins)) == |data|
  {
    if data == [] {
      SumZeros(numBins);
    } else {
      CountsTotal(data[..|data| - 1], min, width, numBins);
      SumBump(Counts(data[..|data| - 1], min, width, numBins), BinIndex(data[|data| - 1], min, width, numBins));
    }
  }

  /** Bin `i` spans `[min + i * width, min + (i + 1) * width]`. */
  function MakeBins(counts: seq<nat>, min: real, width: real): (r: seq<HistogramBin>)
    ensures |r| == |counts|
    ensures forall i :: 0 <= i < |r| ==> r[i].count == counts[i]
  {
    seq(|counts|, i requires 0 <= i < |counts| =>
      HistogramBin(min + i as real * width, min + (i + 1) as real * width, counts[i]))
  }

  /** What `generate` returns. */
  function HistogramOf(data: seq<real>, min: real, max: real, numBins: nat): Histogram {
    if data == [] || numBins == 0 || min >= max then Histogram([], min, max, 0.0)
    else
      var width := (max - min) / numBins as real;
      Histogram(MakeBins(Counts(data, min, width, numBins), min, width), min, max, width)
  }

  /** With no data, no bins or an empty range there are no bins and the width is 0. */
  lemma EmptyHistogram(data: seq<real>, min: real, max: real, numBins: nat)
    ensures HistogramOf(data, min, max, numBins).bins == [] <==> (data == [] || numBins == 0 || min >= max)
    ensures HistogramOf(data, min, max, numBins).bins == [] ==> HistogramOf(data, min, max, numBins).binWidth == 0.0
  {}

  /** Otherwise there are exactly `numBins` bins, and their counts add up to the number of values. */
  lemma HistogramCounts(data: seq<real>, min: real, max: real, numBins: nat)
    requires data != [] && numBins > 0 && min < max
    ensures var h := HistogramOf(data, min, max, numBins);
      && |h.bins| == numBins
      && h.binWidth == (max - min) / numBins as real
      && SumNat(BinCounts(h.bins)) == |data|
  {
    var width := (max - min) / numBins as real;
    var counts := Counts(data, min, width, numBins);
    CountsTotal(data, min, width, numBins);
    assert BinCounts(MakeBins(counts, min, width)) == counts;
  }

  /** The bins tile `[min, max]`: the first starts at `min`, the last ends at `max`, neighbours share an edge. */
  lemma HistogramEdges(data: seq<real>, min: real, max: real, numBins: nat)
    requires data != [] && numBins > 0 && min < max
    ensures var h := HistogramOf(data, min, max, numBins);
      && h.binWidth > 0.0
      && h.bins[0].start == min
      && h.bins[numBins - 1].end == max
      && (forall i :: 0 <= i < numBins - 1 ==> h.bins[i].end == h.bins[i + 1].start)
  {
    var width := (max - min) / numBins as real;
    DivAtLeast(max - min, numBins as real, width);
    assert numBins as real * width == max - min;
  }

  /** The counts of the bins, in order. */
  function BinCounts(bins: seq<HistogramBin>): (r: seq<nat>)
    ensures |r| == |bins| && forall i :: 0 <= i < |bins| ==> r[i] == bins[i].count
  {
    seq(|bins|, i requires 0 <= i < |bins| => bins[i].count)
  }

  /** `generate`: counts the values into a buffer of `numBins` counters, then lays out the bins. */
  method Generate(data: seq<real>, min: real, max: real, numBins: nat) returns (h: Histogram)
    ensures h == HistogramOf(data, min, max, numBins)
  {
    if data == [] || numBins == 0 || min >= max {
      return Histogram([], min, max, 0.0);
    }
    var width := (max - min) / numBins as real;
    var binCounts := new nat[numBins](_ => 0);
    for i := 0 to |data|
      invariant binCounts[..] == Counts(data[..i], min, width, numBins)
    {
      var b := BinIndex(data[i], min, width, numBins);
      assert data[..i + 1][..i] == data[..i];
      binCounts[b] := binCounts[b] + 1;
    }
    assert data[..|data|] == data;
    h := Histogram(MakeBins(binCounts[..], min, width), min, max, width);
  }

  /** 2 to the power `k`. */
  function Pow2(k: nat): (r: nat)
    ensures r >= 1
  {
    if k == 0 then 1 else 2 * Pow2(k - 1)
  }

  /** The least `k` with `2^k >= n`: `ceil(log2 n)` for `n >= 1`, computed on integers. */
  function CeilLog2(n: nat): (k: nat)
    requires n >= 1
    ensures Pow2(k) >= n
    ensures k > 0 ==> Pow2(k - 1) < n
  {
    if n == 1 then 0 else CeilLog2((n + 1) / 2) + 1
  }

  /** `(log2(count) + 1).ceil()`, or 10 with no values, clamped to `5 ..= 50`. */
  function NumBins(count: nat): (n: nat)
    ensures 5 <= n <= 50
    ensures count == 0 ==> n == 10
  {
    var raw := if count > 0 then CeilLog2(count) + 1 else 10;
    if raw < 5 then 5 else if raw > 50 then 50 else raw
  }

  /** Between the clamps the bin count is Sturges' rule: `2^(n-2) < count <= 2^(n-1)`. */
  lemma NumBinsSturges(count: nat)
    requires count > 0 && 5 < NumBins(count) < 50
    ensures Pow2(NumBins(count) - 2) < count <= Pow2(NumBins(count) - 1)
  {}

  /** Reservoir index of the `count`-th value: the LCG step, truncated to a `usize`, modulo the count. */
  function ReservoirIndex(count: nat, usizeBits: nat): (j: nat)
    requires count % Pow2(usizeBits) != 0
    ensures j < count
  {
    var m := Pow2(usizeBits);
    ModBelow(count, m);
    (LcgStep(count) % m) % (count % m)
  }

  /** `count * 1103515245 + 12345` in wrapping 64-bit arithmetic. */
  function LcgStep(count: nat): nat {
    (count * 1103515245 + 12345) % 0x1_0000_0000_0000_0000
  }

  lemma ModBelow(a: nat, m: nat)
    requires m > 0
    ensures a % m <= a
  {}

  /**
   * The buffer holds the first `maxSamples` of the `count` values seen, all of
   * them while there is room, and only values that were seen.
   */
  ghost predicate Buffered(seen: seq<real>, samples: seq<real>, count: nat, maxSamples: nat) {
    && count == |seen|
    && |samples| == (if count < maxSamples then count else maxSamples)
    && (count <= maxSamples ==> samples == seen)
    && (forall x :: x in samples ==> x in seen)
  }

  class HistogramAccumulator {
    var samples: seq<real>
    const maxSamples: nat
    var count: nat
    /** Width in bits of the target's `usize` (32 on wasm32, 64 on 64-bit hosts). */
    const usizeBits: nat
    /** Every value passed to `Update`, in order. */
    ghost var seen: seq<real>

    ghost predicate Valid()
      reads this
    {
      Buffered(seen, samples, count, maxSamples)
    }

    constructor(maxSamples: nat, usizeBits: nat)
      ensures Valid() && this.maxSamples == maxSamples && this.usizeBits == usizeBits
      ensures samples == [] && count == 0 && seen == []
    {
      this.maxSamples := maxSamples;
      this.usizeBits := usizeBits;
      samples, count := [], 0;
      seen := [];
    }

    /**
     * `update`: the first `maxSamples` values are kept in arrival order; after that
     * the value replaces the slot the reservoir index picks, when that index is within
     * the buffer. The source divides by the count truncated to a `usize`, which must
     * not be 0 once the buffer is full.
     */
    method Update(val: real)
      requires Valid()
      requires |samples| < maxSamples || (count + 1) % Pow2(usizeBits) != 0
      modifies this
      ensures Valid() && seen == old(seen) + [val] && count == old(count) + 1
      ensures |samples| <= maxSamples
      ensures old(|samples|) < maxSamples ==> samples == old(samples) + [val]
      ensures old(|samples|) >= maxSamples ==>
        var j := ReservoirIndex(count, usizeBits);
        samples == if j < maxSamples then old(samples)[j := val] else old(samples)
    {
      count := count + 1;
      seen := seen + [val];
      if |samples| < maxSamples {
        samples := samples + [val];
      } else {
        var j := ReservoirIndex(count, usizeBits);
        if j < maxSamples {
          samples := samples[j := val];
        }
      }
    }

    /** `finalize`: the histogram of the buffered samples with the clamped bin count. */
    method Finalize(min: real, max: real) returns (h: Histogram)
      ensures h == HistogramOf(samples, min, max, NumBins(count))
    {
      h := Generate(samples, min, max, NumBins(count));
    }
  }
}
