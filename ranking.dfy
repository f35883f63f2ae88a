/**
 * Ranking of value counts by descending frequency: pandas' `value_counts`
 * in the baseline script and the `sort_by(|a, b| b.1.cmp(a.1))` of the
 * categorical accumulator. Both sorts are stable, so entries with equal
 * counts keep the order in which they were handed over.
 */
module Ranking {

  /** A value together with the number of times it was seen. */
  datatype Entry = Entry(key: string, count: nat)

  ghost predicate NonIncreasing(s: seq<Entry>) {
    forall i, j :: 0 <= i <= j < |s| ==> s[i].count >= s[j].count
  }

  /** No key is ranked twice. */
  ghost predicate DistinctKeys(s: seq<Entry>) {
    forall i, j :: 0 <= i < j < |s| ==> s[i].key != s[j].key
  }

  function Keys(s: seq<Entry>): (r: seq<string>)
    ensures |r| == |s| && forall i :: 0 <= i < |s| ==> r[i] == s[i].key
  {
    if s == [] then [] else [s[0].key] + Keys(s[1..])
  }

  function SumCounts(s: seq<Entry>): nat {
    if s == [] then 0 else s[0].count + SumCounts(s[1..])
  }

  /** Places `e` in front of the first entry whose count does not exceed its own. */
  function InsertByCount(e: Entry, s: seq<Entry>): (r: seq<Entry>)
    ensures multiset(r) == multiset(s) + multiset{e}
    ensures |r| == |s| + 1
    ensures r[0] == e || (s != [] && r[0] == s[0])
  {
    if s == [] || e.count >= s[0].count then [e] + s
    else
      assert s == [s[0]] + s[1..];
      [s[0]] + InsertByCount(e, s[1..])
  }

  lemma ConsNonIncreasing(e: Entry, t: seq<Entry>)
    requires NonIncreasing(t) && (t == [] || e.count >= t[0].count)
    ensures NonIncreasing([e] + t)
  {
    var r := [e] + t;
    forall i, j | 0 <= i <= j < |r| ensures r[i].count >= r[j].count {
      if i > 0 {
        assert r[i] == t[i - 1] && r[j] == t[j - 1];
      } else if j > 0 {
        assert r[j] == t[j - 1];
      }
    }
  }

  lemma {:induction false} InsertNonIncreasing(e: Entry, s: seq<Entry>)
    requires NonIncreasing(s)
    ensures NonIncreasing(InsertByCount(e, s))
  {
    if s != [] && e.count < s[0].count {
      assert NonIncreasing(s[1..]) by {
        forall i, j | 0 <= i <= j < |s| - 1 ensures s[1..][i].count >= s[1..][j].count {
          assert s[1..][i] == s[i + 1] && s[1..][j] == s[j + 1];
        }
      }
      InsertNonIncreasing(e, s[1..]);
      ConsNonIncreasing(s[0], InsertByCount(e, s[1..]));
    }
  }

  /** Inserting an entry with a new key keeps the keys distinct. */
  lemma {:induction false} InsertDistinct(e: Entry, s: seq<Entry>)
    requires DistinctKeys(s) && forall x :: x in s ==> x.key != e.key
    ensures DistinctKeys(InsertByCount(e, s))
  {
    if s != [] && e.count < s[0].count {
      var t := InsertByCount(e, s[1..]);
      assert DistinctKeys(s[1..]) by {
        forall i, j | 0 <= i < j < |s| - 1 ensures s[1..][i].key != s[1..][j].key {
          assert s[1..][i] == s[i + 1] && s[1..][j] == s[j + 1];
        }
      }
      InsertDistinct(e, s[1..]);
      forall x | x in t ensures x.key != s[0].key {
        assert x in multiset(t);
        if x != e {
          assert x in s[1..];
          var j :| 0 <= j < |s[1..]| && s[1..][j] == x;
          assert s[j + 1] == x;
        }
      }
      ConsDistinct(s[0], t);
    } else {
      ConsDistinct(e, s);
    }
  }

  lemma ConsDistinct(e: Entry, t: seq<Entry>)
    requires DistinctKeys(t) && forall x :: x in t ==> x.key != e.key
    ensures DistinctKeys([e] + t)
  {
    var r := [e] + t;
    forall i, j | 0 <= i < j < |r| ensures r[i].key != r[j].key {
      assert r[j] == t[j - 1];
      if i > 0 {
        assert r[i] == t[i - 1];
      }
    }
  }

  lemma {:induction false} InsertSum(e: Entry, s: seq<Entry>)
    ensures SumCounts(InsertByCount(e, s)) == e.count + SumCounts(s)
  {
    if s != [] && e.count < s[0].count {
      InsertSum(e, s[1..]);
      assert ([s[0]] + InsertByCount(e, s[1..]))[1..] == InsertByCount(e, s[1..]);
    } else {
      assert ([e] + s)[1..] == s;
    }
  }

  /** Stable insertion sort by descending count; it keeps every entry and the total count. */
  function SortByCount(s: seq<Entry>): (r: seq<Entry>)
    ensures NonIncreasing(r)
    ensures multiset(r) == multiset(s) && |r| == |s|
    ensures SumCounts(r) == SumCounts(s)
  {
    if s == [] then []
    else
      assert s == [s[0]] + s[1..];
      var t := SortByCount(s[1..]);
      InsertNonIncreasing(s[0], t);
      InsertSum(s[0], t);
      InsertByCount(s[0], t)
  }

  /** Sorting keeps the keys distinct. */
  lemma {:induction false} SortDistinct(s: seq<Entry>)
    ensures DistinctKeys(s) ==> DistinctKeys(SortByCount(s))
  {
    if s != [] && DistinctKeys(s) {
      assert DistinctKeys(s[1..]) by {
        forall i, j | 0 <= i < j < |s| - 1 ensures s[1..][i].key != s[1..][j].key {
          assert s[1..][i] == s[i + 1] && s[1..][j] == s[j + 1];
        }
      }
      var t := SortByCount(s[1..]);
      SortDistinct(s[1..]);
      forall x | x in t ensures x.key != s[0].key {
        assert x in multiset(s[1..]);
        var j :| 0 <= j < |s[1..]| && s[1..][j] == x;
        assert s[j + 1] == x;
      }
      InsertDistinct(s[0], t);
    }
  }

  lemma {:induction false} PrefixSum(s: seq<Entry>, k: nat)
    requires k <= |s|
    ensures SumCounts(s[..k]) <= SumCounts(s)
  {
    if k > 0 {
      assert s[..k][1..] == s[1..][..k - 1];
      PrefixSum(s[1..], k - 1);
    }
  }

  /**
   * The `k` most frequent entries, most frequent first. Every entry left out
   * is no more frequent than any entry kept, and nothing is left out when
   * there are at most `k` entries.
   */
  function Top(s: seq<Entry>, k: nat): (r: seq<Entry>)
    ensures |r| == if |s| < k then |s| else k
    ensures NonIncreasing(r)
    ensures forall e :: e in r ==> e in s
    ensures forall e :: e in s && e !in r ==> forall x :: x in r ==> e.count <= x.count
    ensures SumCounts(r) <= SumCounts(s)
    ensures DistinctKeys(s) ==> DistinctKeys(r)
  {
    var sorted := SortByCount(s);
    var n := if |s| < k then |s| else k;
    PrefixSum(sorted, n);
    SortDistinct(s);
    TopOfSorted(s, sorted, n);
    sorted[..n]
  }

  lemma TopOfSorted(s: seq<Entry>, sorted: seq<Entry>, n: nat)
    requires NonIncreasing(sorted) && multiset(sorted) == multiset(s) && n <= |sorted|
    ensures forall e :: e in sorted[..n] ==> e in s
    ensures forall e :: e in s && e !in sorted[..n] ==> forall x :: x in sorted[..n] ==> e.count <= x.count
    ensures NonIncreasing(sorted[..n])
    ensures DistinctKeys(sorted) ==> DistinctKeys(sorted[..n])
  {
    forall i, j | 0 <= i <= j < n ensures sorted[..n][i].count >= sorted[..n][j].count {
      assert sorted[..n][i] == sorted[i] && sorted[..n][j] == sorted[j];
    }
    if DistinctKeys(sorted) {
      forall i, j | 0 <= i < j < n ensures sorted[..n][i].key != sorted[..n][j].key {
        assert sorted[..n][i] == sorted[i] && sorted[..n][j] == sorted[j];
      }
    }
    forall e | e in sorted[..n] ensures e in s {
      assert e in multiset(sorted);
    }
    forall e, x | e in s && e !in sorted[..n] && x in sorted[..n] ensures e.count <= x.count {
      assert e in multiset(sorted);
      var j :| 0 <= j < |sorted| && sorted[j] == e;
      var i :| 0 <= i < n && sorted[..n][i] == x;
    }
  }
}
