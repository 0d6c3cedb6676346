/**
 * Orders and Python's sorted(): string comparison by code point, a stable
 * insertion sort for keys that are pairwise comparable, and the
 * remove-duplicates step that set(...) and dict keys perform.
 */
module Order {

  ghost predicate Irreflexive<T(!new)>(lt: (T, T) -> bool) {
    forall a :: !lt(a, a)
  }

  ghost predicate Transitive<T(!new)>(lt: (T, T) -> bool) {
    forall a, b, c :: lt(a, b) && lt(b, c) ==> lt(a, c)
  }

  ghost predicate Connected<T(!new)>(lt: (T, T) -> bool) {
    forall a, b :: a != b ==> lt(a, b) || lt(b, a)
  }

  ghost predicate StrictOrder<T(!new)>(lt: (T, T) -> bool) {
    Irreflexive(lt) && Transitive(lt)
  }

  ghost predicate StrictTotalOrder<T(!new)>(lt: (T, T) -> bool) {
    StrictOrder(lt) && Connected(lt)
  }

  /** Every two elements at different positions are ordered one way or the other. */
  ghost predicate ComparableOn<T>(lt: (T, T) -> bool, s: seq<T>) {
    forall i, j | 0 <= i < |s| && 0 <= j < |s| && i != j :: lt(s[i], s[j]) || lt(s[j], s[i])
  }

  ghost predicate StrictlySorted<T>(lt: (T, T) -> bool, s: seq<T>) {
    forall i, j | 0 <= i < j < |s| :: lt(s[i], s[j])
  }

  ghost predicate Distinct<T>(s: seq<T>) {
    forall i, j | 0 <= i < j < |s| :: s[i] != s[j]
  }

  /** A strictly sorted sequence holds no element twice. */
  lemma SortedIsDistinct<T(!new)>(lt: (T, T) -> bool, s: seq<T>)
    requires Irreflexive(lt) && StrictlySorted(lt, s)
    ensures Distinct(s)
  {
    forall i, j | 0 <= i < j < |s| ensures s[i] != s[j] {
      assert lt(s[i], s[j]);
    }
  }

  // ---------------------------------------------------------------------
  // Python's comparison of two str values

  /** a < b for Python strings: lexicographic by code point, a proper prefix first. */
  predicate StrLess(a: string, b: string)
    decreases |a|
  {
    if a == [] then b != []
    else if b == [] then false
    else if a[0] == b[0] then StrLess(a[1..], b[1..])
    else a[0] < b[0]
  }

  lemma {:induction false} StrLessIrreflexive(a: string)
    ensures !StrLess(a, a)
    decreases |a|
  {
    if a != [] {
      StrLessIrreflexive(a[1..]);
    }
  }

  lemma {:induction false} StrLessTransitive(a: string, b: string, c: string)
    requires StrLess(a, b) && StrLess(b, c)
    ensures StrLess(a, c)
    decreases |a|
  {
    if a != [] && a[0] == b[0] && b[0] == c[0] {
      StrLessTransitive(a[1..], b[1..], c[1..]);
    }
  }

  lemma {:induction false} StrLessConnected(a: string, b: string)
    requires a != b
    ensures StrLess(a, b) || StrLess(b, a)
    decreases |a|
  {
    if a != [] && b != [] && a[0] == b[0] {
      assert a == [a[0]] + a[1..] && b == [b[0]] + b[1..];
      StrLessConnected(a[1..], b[1..]);
    }
  }

  lemma StrLessIsStrictTotalOrder()
    ensures StrictTotalOrder(StrLess)
  {
    forall a ensures !StrLess(a, a) {
      StrLessIrreflexive(a);
    }
    forall a, b, c | StrLess(a, b) && StrLess(b, c) ensures StrLess(a, c) {
      StrLessTransitive(a, b, c);
    }
    forall a, b | a != b ensures StrLess(a, b) || StrLess(b, a) {
      StrLessConnected(a, b);
    }
  }

  /** a < b for Python ints. */
  predicate NatLess(a: nat, b: nat) { a < b }

  lemma NatLessIsStrictTotalOrder()
    ensures StrictTotalOrder(NatLess)
  {
  }

  /** a < b for Python (str, int) tuples: by the string, then by the number. */
  predicate PairLess(a: (string, nat), b: (string, nat)) {
    StrLess(a.0, b.0) || (a.0 == b.0 && a.1 < b.1)
  }

  lemma PairLessIsStrictTotalOrder()
    ensures StrictTotalOrder(PairLess)
  {
    StrLessIsStrictTotalOrder();
    forall a, b | a != b ensures PairLess(a, b) || PairLess(b, a) {
      if a.0 != b.0 {
        StrLessConnected(a.0, b.0);
      }
    }
  }

  /** Under a total order the elements of a sequence without repetitions are pairwise comparable. */
  lemma DistinctIsComparable<T(!new)>(lt: (T, T) -> bool, s: seq<T>)
    requires StrictTotalOrder(lt) && Distinct(s)
    ensures ComparableOn(lt, s)
  {
    forall i, j | 0 <= i < |s| && 0 <= j < |s| && i != j ensures lt(s[i], s[j]) || lt(s[j], s[i]) {
      if i < j {
        assert s[i] != s[j];
      } else {
        assert s[j] != s[i];
      }
    }
  }

  // ---------------------------------------------------------------------
  // sorted(...)

  /** Puts x in front of the first element it is below (at the end when there is none). */
  function Insert<T>(x: T, s: seq<T>, lt: (T, T) -> bool): seq<T>
    decreases |s|
  {
    if s == [] then [x]
    else if lt(x, s[0]) then [x] + s
    else [s[0]] + Insert(x, s[1..], lt)
  }

  /** sorted(s), as an insertion sort; it sorts wherever the elements compare pairwise (see SortSorted). */
  function Sort<T>(s: seq<T>, lt: (T, T) -> bool): seq<T>
    decreases |s|
  {
    if s == [] then [] else Insert(s[|s| - 1], Sort(s[..|s| - 1], lt), lt)
  }

  lemma {:induction false} InsertPermutation<T>(x: T, s: seq<T>, lt: (T, T) -> bool)
    ensures multiset(Insert(x, s, lt)) == multiset(s) + multiset{x}
    decreases |s|
  {
    if s != [] && !lt(x, s[0]) {
      InsertPermutation(x, s[1..], lt);
      assert s == [s[0]] + s[1..];
    }
  }

  /** Inserting an element that compares with all of a sorted sequence keeps it sorted. */
  lemma {:induction false} InsertSorted<T(!new)>(x: T, s: seq<T>, lt: (T, T) -> bool)
    requires StrictOrder(lt) && StrictlySorted(lt, s)
    requires forall y | y in s :: lt(x, y) || lt(y, x)
    ensures StrictlySorted(lt, Insert(x, s, lt))
    decreases |s|
  {
    if s != [] {
      if lt(x, s[0]) {
        assert forall j | 0 < j < |s| :: lt(s[0], s[j]);
      } else {
        var rest := s[1..];
        assert StrictlySorted(lt, rest) by {
          forall i, j | 0 <= i < j < |rest| ensures lt(rest[i], rest[j]) {
            assert rest[i] == s[i + 1] && rest[j] == s[j + 1];
          }
        }
        assert forall y | y in rest :: y in s;
        InsertSorted(x, rest, lt);
        InsertPermutation(x, rest, lt);
        var tail := Insert(x, rest, lt);
        assert s[0] in s;
        forall j | 0 <= j < |tail| ensures lt(s[0], tail[j]) {
          assert tail[j] in multiset(tail);
          if tail[j] != x {
            assert tail[j] in rest;
            var k :| 0 <= k < |rest| && rest[k] == tail[j];
            assert s[k + 1] == tail[j];
          }
        }
      }
    }
  }

  /** sorted() returns a permutation of its input. */
  lemma {:induction false} SortPermutation<T>(s: seq<T>, lt: (T, T) -> bool)
    ensures multiset(Sort(s, lt)) == multiset(s)
    decreases |s|
  {
    if s != [] {
      var init, last := s[..|s| - 1], s[|s| - 1];
      SortPermutation(init, lt);
      InsertPermutation(last, Sort(init, lt), lt);
      assert s == init + [last];
    }
  }

  /** sorted() keeps the elements, each as often as it occurs, so also the length and membership. */
  lemma SortMembers<T>(s: seq<T>, lt: (T, T) -> bool)
    ensures |Sort(s, lt)| == |s|
    ensures forall y :: y in Sort(s, lt) <==> y in s
  {
    SortPermutation(s, lt);
    var r := Sort(s, lt);
    assert |r| == |multiset(r)| == |multiset(s)| == |s|;
    forall y ensures y in r <==> y in s {
      assert y in r <==> y in multiset(r);
      assert y in s <==> y in multiset(s);
    }
  }

  /** sorted() sorts elements that compare pairwise. */
  lemma {:induction false} SortSorted<T(!new)>(s: seq<T>, lt: (T, T) -> bool)
    requires StrictOrder(lt) && ComparableOn(lt, s)
    ensures StrictlySorted(lt, Sort(s, lt))
    decreases |s|
  {
    if s != [] {
      var init, last := s[..|s| - 1], s[|s| - 1];
      assert ComparableOn(lt, init) by {
        forall i, j | 0 <= i < |init| && 0 <= j < |init| && i != j
          ensures lt(init[i], init[j]) || lt(init[j], init[i])
        {
          assert init[i] == s[i] && init[j] == s[j];
        }
      }
      SortSorted(init, lt);
      SortMembers(init, lt);
      var sorted := Sort(init, lt);
      forall y | y in sorted ensures lt(last, y) || lt(y, last) {
        var k :| 0 <= k < |init| && init[k] == y;
        assert s[k] == y;
      }
      InsertSorted(last, sorted, lt);
    }
  }

  /** The distinct elements of s in first-occurrence order: the keys of a dict filled from s. */
  function Dedup<T(==,!new)>(s: seq<T>): (r: seq<T>)
    ensures Distinct(r)
    ensures forall x :: x in r <==> x in s
    decreases |s|
  {
    if s == [] then []
    else
      var d := Dedup(s[..|s| - 1]);
      assert s == s[..|s| - 1] + [s[|s| - 1]];
      if s[|s| - 1] in d then d else d + [s[|s| - 1]]
  }

  lemma DistinctMultiset<T>(s: seq<T>, x: T)
    requires Distinct(s) && x in s
    ensures multiset(s)[x] == 1
  {
    if |s| > 0 {
      var init := s[..|s| - 1];
      assert s == init + [s[|s| - 1]];
      assert Distinct(init);
      if x == s[|s| - 1] {
        assert x !in init;
      } else {
        DistinctMultiset(init, x);
      }
    }
  }

  /** sorted(set(s)): the distinct elements of s in ascending order. */
  function SortedSet<T(==,!new)>(s: seq<T>, lt: (T, T) -> bool): (r: seq<T>)
    requires StrictTotalOrder(lt)
    ensures StrictlySorted(lt, r) && Distinct(r)
    ensures forall x :: x in r <==> x in s
  {
    var d := Dedup(s);
    DistinctIsComparable(lt, d);
    SortSorted(d, lt);
    SortMembers(d, lt);
    var r := Sort(d, lt);
    SortedIsDistinct(lt, r);
    r
  }

  /** The elements of a sequence, as `set(s)` collects them. */
  function Elements<T>(s: seq<T>): set<T> {
    set x | x in s
  }

  /** A sequence without repetitions has as many distinct elements as positions. */
  lemma {:induction false} DistinctCard<T>(s: seq<T>)
    requires Distinct(s)
    ensures |Elements(s)| == |s|
    decreases |s|
  {
    if s != [] {
      var n := |s| - 1;
      var init := s[..n];
      assert Distinct(init) by {
        forall i, j | 0 <= i < j < |init| ensures init[i] != init[j] {
          assert init[i] == s[i] && init[j] == s[j];
        }
      }
      DistinctCard(init);
      assert s == init + [s[n]];
      assert s[n] !in init by {
        forall i | 0 <= i < n ensures init[i] != s[n] {
          assert init[i] == s[i];
        }
      }
      assert Elements(s) == Elements(init) + {s[n]};
    }
  }
}
