/**
 * Counting by key, as the summaries do with `stats[k] = stats.get(k, 0) + 1`
 * followed by `sorted(stats.items())`.
 */
module Tally {
  import opened Order

  /** The dict filled by `m[k] = m.get(k, 0) + 1` for each key in order. */
  method CountBy<K(==,!new)>(ks: seq<K>) returns (m: map<K, nat>)
    ensures forall x :: x in m <==> x in ks
    ensures forall x | x in m :: m[x] == multiset(ks)[x]
  {
    m := map[];
    for i := 0 to |ks|
      invariant forall x :: x in m <==> x in ks[..i]
      invariant forall x | x in m :: m[x] == multiset(ks[..i])[x]
    {
      var k := ks[i];
      assert ks[..i + 1] == ks[..i] + [k];
      m := m[k := (if k in m then m[k] else 0) + 1];
    }
    assert ks[..|ks|] == ks;
  }

  /** sorted(m.items()) for the dict CountBy builds: (key, count) in ascending key order. */
  function Histogram<K(==,!new)>(ks: seq<K>, lt: (K, K) -> bool): (items: seq<(K, nat)>)
    requires StrictTotalOrder(lt)
    ensures forall i, j | 0 <= i < j < |items| :: lt(items[i].0, items[j].0)
    ensures forall x, c :: (x, c) in items <==> x in ks && c == multiset(ks)[x]
  {
    var keys := SortedSet(ks, lt);
    var items := seq(|keys|, i requires 0 <= i < |keys| => (keys[i], multiset(ks)[keys[i]]));
    assert forall x, c :: (x, c) in items <==> x in ks && c == multiset(ks)[x] by {
      forall x, c ensures (x, c) in items <==> x in ks && c == multiset(ks)[x] {
        if x in ks && c == multiset(ks)[x] {
          var i :| 0 <= i < |keys| && keys[i] == x;
          assert items[i] == (x, c);
        }
      }
    }
    items
  }

  /** print_summary's counting loop followed by the sorted enumeration of its dict. */
  method Summarize<K(==,!new)>(ks: seq<K>, lt: (K, K) -> bool) returns (items: seq<(K, nat)>)
    requires StrictTotalOrder(lt)
    ensures items == Histogram(ks, lt)
  {
    var m := CountBy(ks);
    var keys := SortedSet(ks, lt);
    items := [];
    for i := 0 to |keys|
      invariant items == seq(i, n requires 0 <= n < i => (keys[n], multiset(ks)[keys[n]]))
    {
      items := items + [(keys[i], m[keys[i]])];
    }
  }

  function SumCounts<K>(items: seq<(K, nat)>): nat
    decreases |items|
  {
    if items == [] then 0 else SumCounts(items[..|items| - 1]) + items[|items| - 1].1
  }

  /** The occurrences in ks of the keys listed in ds, added up. */
  ghost function SumOver<K>(ds: seq<K>, ks: seq<K>): nat
    decreases |ds|
  {
    if ds == [] then 0 else SumOver(ds[..|ds| - 1], ks) + multiset(ks)[ds[|ds| - 1]]
  }

  lemma {:induction false} SumOverSnoc<K>(ds: seq<K>, ks: seq<K>, x: K)
    ensures SumOver(ds, ks + [x]) == SumOver(ds, ks) + multiset(ds)[x]
    decreases |ds|
  {
    if ds != [] {
      var init := ds[..|ds| - 1];
      SumOverSnoc(init, ks, x);
      assert ds == init + [ds[|ds| - 1]];
    }
  }

  /** Listing every key once and adding up its occurrences counts every element once. */
  lemma {:induction false} SumOverAll<K>(ds: seq<K>, ks: seq<K>)
    requires Distinct(ds)
    requires forall x | x in ks :: x in ds
    ensures SumOver(ds, ks) == |ks|
    decreases |ks|
  {
    if ks == [] {
      SumOverEmpty(ds, ks);
    } else {
      var init, last := ks[..|ks| - 1], ks[|ks| - 1];
      assert ks == init + [last];
      SumOverAll(ds, init);
      SumOverSnoc(ds, init, last);
      DistinctMultiset(ds, last);
    }
  }

  lemma {:induction false} SumOverEmpty<K>(ds: seq<K>, ks: seq<K>)
    requires ks == []
    ensures SumOver(ds, ks) == 0
    decreases |ds|
  {
    if ds != [] {
      SumOverEmpty(ds[..|ds| - 1], ks);
    }
  }

  /** The counts of a histogram add up to the number of keys counted. */
  lemma HistogramTotal<K(!new)>(ks: seq<K>, lt: (K, K) -> bool)
    requires StrictTotalOrder(lt)
    ensures SumCounts(Histogram(ks, lt)) == |ks|
  {
    var keys := SortedSet(ks, lt);
    var items := Histogram(ks, lt);
    assert items == seq(|keys|, i requires 0 <= i < |keys| => (keys[i], multiset(ks)[keys[i]]));
    SumCountsIsSumOver(keys, ks, items);
    SumOverAll(keys, ks);
  }

  lemma {:induction false} SumCountsIsSumOver<K>(keys: seq<K>, ks: seq<K>, items: seq<(K, nat)>)
    requires items == seq(|keys|, i requires 0 <= i < |keys| => (keys[i], multiset(ks)[keys[i]]))
    ensures SumCounts(items) == SumOver(keys, ks)
    decreases |keys|
  {
    if keys != [] {
      var init := keys[..|keys| - 1];
      SumCountsIsSumOver(init, ks, items[..|items| - 1]);
    }
  }

  /** The number of positions of ks that hold x. */
  ghost function Occurrences<K>(ks: seq<K>, x: K): nat {
    |set i | 0 <= i < |ks| && ks[i] == x|
  }

  lemma {:induction false} CountIsOccurrences<K>(ks: seq<K>, x: K)
    ensures multiset(ks)[x] == Occurrences(ks, x)
    decreases |ks|
  {
    if ks != [] {
      var n := |ks| - 1;
      var init := ks[..n];
      CountIsOccurrences(init, x);
      assert ks == init + [ks[n]];
      var here := set i | 0 <= i < |ks| && ks[i] == x;
      var before := set i | 0 <= i < n && init[i] == x;
      if ks[n] == x {
        assert here == before + {n};
      } else {
        assert here == before;
      }
    }
  }

  /** A key is listed with count c exactly when it occurs, and c times. */
  lemma HistogramOccurrences<K(!new)>(ks: seq<K>, lt: (K, K) -> bool)
    requires StrictTotalOrder(lt)
    ensures forall x, c :: (x, c) in Histogram(ks, lt) <==> 0 < c == Occurrences(ks, x)
  {
    forall x, c ensures (x, c) in Histogram(ks, lt) <==> 0 < c == Occurrences(ks, x) {
      CountIsOccurrences(ks, x);
    }
  }

  /** When every count is positive, there are no more items than the counts add up to. */
  lemma {:induction false} SumCountsBound<K>(items: seq<(K, nat)>)
    requires forall i | 0 <= i < |items| :: items[i].1 > 0
    ensures |items| <= SumCounts(items)
    decreases |items|
  {
    if items != [] {
      SumCountsBound(items[..|items| - 1]);
    }
  }
}
