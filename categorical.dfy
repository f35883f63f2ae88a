/**
 * `CategoricalAccumulator` of `src/wasm/src/stats/categorical.rs`: a
 * frequency map bounded to `maxUnique` distinct values, and the top-10
 * ranking built from it at `finalize`.
 */
module Categorical {
  import opened Ranking

  /** One reported value, its count and its share of all updates in percent. */
  datatype FreqEntry = FreqEntry(value: string, count: nat, percentage: real)

  datatype CategoricalStats = CategoricalStats(topValues: seq<FreqEntry>, uniqueCount: nat)

  /** `count as f64 / total_count as f64 * 100.0`. */
  function Percentage(count: nat, total: nat): real
    requires total > 0
  {
    (count as real / total as real) * 100.0
  }

  /** Each ranked entry with its percentage of `total`. */
  function WithPercentages(top: seq<Entry>, total: nat): (r: seq<FreqEntry>)
    requires top != [] ==> total > 0
    ensures |r| == |top|
    ensures forall j :: 0 <= j < |top| ==> r[j] == FreqEntry(top[j].key, top[j].count, Percentage(top[j].count, total))
  {
    if top == [] then [] else [FreqEntry(top[0].key, top[0].count, Percentage(top[0].count, total))] + WithPercentages(top[1..], total)
  }

  /** The sum of the stored counts. */
  ghost function SumOfCounts(counts: map<string, nat>): nat
    decreases |counts|
  {
    if counts == map[] then 0
    else
      var k :| k in counts;
      counts[k] + SumOfCounts(counts - {k})
  }

  /** The sum does not depend on which key is taken out first. */
  lemma {:induction false} SumWithout(counts: map<string, nat>, k: string)
    requires k in counts
    ensures SumOfCounts(counts) == counts[k] + SumOfCounts(counts - {k})
    decreases |counts|
  {
    var j :| j in counts && SumOfCounts(counts) == counts[j] + SumOfCounts(counts - {j});
    if j != k {
      var rest := counts - {j};
      assert (counts - {j}).Keys == counts.Keys - {j};
      assert (counts - {k}).Keys == counts.Keys - {k};
      SumWithout(rest, k);
      SumWithout(counts - {k}, j);
      assert rest - {k} == (counts - {k}) - {j};
    }
  }

  /** A stored count is part of the sum. */
  lemma CountBelowSum(counts: map<string, nat>, k: string)
    requires k in counts
    ensures counts[k] <= SumOfCounts(counts)
  {
    SumWithout(counts, k);
  }

  /**
   * The accumulator's invariant: at most `maxUnique` values are stored, each
   * stored value was counted at least once, and the stored counts add up to
   * no more than the number of updates (a dropped value is counted in the
   * total only).
   */
  ghost predicate Bounded(counts: map<string, nat>, total: nat, maxUnique: nat) {
    && |counts| <= maxUnique
    && (forall k :: k in counts ==> 1 <= counts[k] <= total)
    && SumOfCounts(counts) <= total
  }

  /** The frequency map after one more occurrence of `value`. */
  function Counted(counts: map<string, nat>, value: string, maxUnique: nat): map<string, nat> {
    if value in counts then counts[value := counts[value] + 1]
    else if |counts| < maxUnique then counts[value := 1]
    else counts
  }

  /**
   * Only `value`'s entry changes: it is counted once more when it was stored or
   * there was room, and the map never grows past `maxUnique` entries.
   */
  lemma CountedEffect(counts: map<string, nat>, value: string, maxUnique: nat)
    requires |counts| <= maxUnique
    ensures var r := Counted(counts, value, maxUnique);
      && |r| <= maxUnique
      && (value in r <==> value in counts || |counts| < maxUnique)
      && (value in r ==> r[value] == (if value in counts then counts[value] else 0) + 1)
      && (forall v :: v != value ==> (v in r <==> v in counts) && (v in r ==> r[v] == counts[v]))
  {
    if value !in counts && |counts| < maxUnique {
      assert counts[value := 1].Keys == counts.Keys + {value};
    }
  }

  /** One update adds one to the sum of the stored counts, or nothing when the value is dropped. */
  lemma CountedSum(counts: map<string, nat>, value: string, maxUnique: nat)
    ensures var r := Counted(counts, value, maxUnique);
      SumOfCounts(r) == SumOfCounts(counts) + (if value in r then 1 else 0)
  {
    if value in counts {
      SetCountSum(counts, value, counts[value] + 1);
      SumWithout(counts, value);
    } else if |counts| < maxUnique {
      SetCountSum(counts, value, 1);
      assert counts - {value} == counts;
    }
  }

  /** Setting one count changes the sum by the difference. */
  lemma SetCountSum(counts: map<string, nat>, value: string, n: nat)
    ensures SumOfCounts(counts[value := n]) == n + SumOfCounts(counts - {value})
  {
    var r := counts[value := n];
    SumWithout(r, value);
    assert r - {value} == counts - {value};
  }

  /** `update` keeps the invariant. */
  lemma CountedBounded(counts: map<string, nat>, total: nat, value: string, maxUnique: nat)
    requires Bounded(counts, total, maxUnique)
    ensures Bounded(Counted(counts, value, maxUnique), total + 1, maxUnique)
  {
    var r := Counted(counts, value, maxUnique);
    CountedEffect(counts, value, maxUnique);
    CountedSum(counts, value, maxUnique);
    forall k | k in r ensures r[k] <= SumOfCounts(r) {
      CountBelowSum(r, k);
    }
  }

  /**
   * What `finalize` reports about a frequency map: at most ten values, most
   * frequent first, each with its stored count and its share of `total`; a
   * value left out is no more frequent than any value reported.
   */
  ghost predicate TopReport(r: seq<FreqEntry>, counts: map<string, nat>, total: nat) {
    && |r| == (if |counts| < 10 then |counts| else 10)
    && (forall i, j :: 0 <= i < j < |r| ==> r[i].value != r[j].value)
    && (forall i, j :: 0 <= i <= j < |r| ==> r[i].count >= r[j].count)
    && (forall e :: e in r ==>
          && e.value in counts && e.count == counts[e.value]
          && total > 0 && e.percentage == Percentage(e.count, total))
    && (forall v :: v in counts && (forall e :: e in r ==> e.value != v) ==>
          forall e :: e in r ==> counts[v] <= e.count)
  }

  class CategoricalAccumulator {
    var counts: map<string, nat>
    var totalCount: nat
    const maxUnique: nat

    ghost predicate Valid()
      reads this
    {
      Bounded(counts, totalCount, maxUnique)
    }

    constructor(maxUnique: nat)
      ensures Valid() && this.maxUnique == maxUnique
      ensures counts == map[] && totalCount == 0
    {
      this.maxUnique := maxUnique;
      counts, totalCount := map[], 0;
    }

    /**
     * `update`: every call counts towards the total; a known value's count
     * rises by one, a new value is stored with count 1 only while fewer than
     * `maxUnique` values are stored, and is dropped otherwise.
     */
    method Update(value: string)
      requires Valid()
      modifies this
      ensures Valid()
      ensures totalCount == old(totalCount) + 1
      ensures counts == Counted(old(counts), value, maxUnique)
    {
      CountedBounded(counts, totalCount, value, maxUnique);
      counts, totalCount := Counted(counts, value, maxUnique), totalCount + 1;
    }

    /**
     * `finalize`: the stored values ranked by descending count, at most ten
     * of them; values not reported are no more frequent than any reported
     * one. The order among equal counts follows the map's iteration order,
     * which is left unspecified. The accumulator is not changed.
     */
    method Finalize() returns (stats: CategoricalStats)
      requires Valid()
      ensures stats.uniqueCount == |counts|
      ensures TopReport(stats.topValues, counts, totalCount)
    {
      var entries := CollectEntries();
      var top := Top(entries, 10);
      assert DistinctKeys(top);
      if top != [] {
        PositiveTotal();
      }
      stats := CategoricalStats(WithPercentages(top, totalCount), |counts|);
      TopReported(entries, top);
    }

    /** The stored (value, count) pairs, each value once, in an unspecified order. */
    method CollectEntries() returns (entries: seq<Entry>)
      requires Valid()
      ensures |entries| == |counts| && DistinctKeys(entries)
      ensures forall e :: e in entries ==> e.key in counts && e.count == counts[e.key]
      ensures forall k :: k in counts ==> Entry(k, counts[k]) in entries
    {
      entries := [];
      var remaining := counts.Keys;
      while remaining != {}
        invariant remaining <= counts.Keys
        invariant forall e :: e in entries ==> e.key in counts && e.count == counts[e.key] && e.key !in remaining
        invariant DistinctKeys(entries)
        invariant forall k :: k in counts ==> k in remaining || Entry(k, counts[k]) in entries
        invariant |entries| + |remaining| == |counts|
        decreases |remaining|
      {
        var k :| k in remaining;
        entries := entries + [Entry(k, counts[k])];
        remaining := remaining - {k};
      }
    }

    /** What the ranked, percentage-annotated entries say about the stored counts. */
    lemma TopReported(entries: seq<Entry>, top: seq<Entry>)
      requires Valid()
      requires |entries| == |counts|
      requires forall k :: k in counts ==> Entry(k, counts[k]) in entries
      requires forall e :: e in entries ==> e.key in counts && e.count == counts[e.key]
      requires |top| == if |entries| < 10 then |entries| else 10
      requires NonIncreasing(top) && DistinctKeys(top)
      requires forall e :: e in top ==> e in entries
      requires forall e :: e in entries && e !in top ==> forall x :: x in top ==> e.count <= x.count
      requires top != [] ==> totalCount > 0
      ensures TopReport(WithPercentages(top, totalCount), counts, totalCount)
    {
    }

    /** A stored value means at least one update happened. */
    lemma PositiveTotal()
      requires Valid() && counts != map[]
      ensures totalCount > 0
    {
      var k :| k in counts;
    }
  }
}
