/**
 * Python's `collections.Counter` and `Counter.most_common(k)`: the distinct
 * elements in first-seen order with their number of occurrences, and the
 * `k` most frequent of them, by count descending, ties in first-seen order.
 */
module Counting {
  import opened Seqs

  /** One `(element, count)` pair of a counter. */
  datatype Tally<T> = Tally(key: T, count: nat)

  function Keys<T>(ts: seq<Tally<T>>): seq<T> {
    Map((t: Tally<T>) => t.key, ts)
  }

  function Min(a: int, b: int): int {
    if a <= b then a else b
  }

  /** `Counter(s)` in its iteration order: one tally per distinct element of `s`, in first-seen order. */
  function Counter<T(==,!new)>(s: seq<T>): (c: seq<Tally<T>>)
    ensures |c| == |Dedup(s)|
    ensures forall i :: 0 <= i < |c| ==> c[i].key in s && c[i].count == multiset(s)[c[i].key]
    ensures forall x :: x in s ==> Tally(x, multiset(s)[x]) in c
    ensures forall i, j :: 0 <= i < j < |c| ==> FirstIndex(s, c[i].key) < FirstIndex(s, c[j].key)
  {
    var d := Dedup(s);
    DedupFirstSeenOrder(s);
    var c := seq(|d|, i requires 0 <= i < |d| => Tally(d[i], multiset(s)[d[i]]));
    assert forall x :: x in s ==> c[FirstIndex(d, x)] == Tally(x, multiset(s)[x]);
    c
  }

  /**
   * The order of `most_common`: a higher count first, and between equal
   * counts the element seen first in `s`.
   */
  ghost predicate Precedes<T>(s: seq<T>, a: Tally<T>, b: Tally<T>)
    requires a.key in s && b.key in s
  {
    a.count > b.count || (a.count == b.count && FirstIndex(s, a.key) < FirstIndex(s, b.key))
  }

  /** `r` lists tallies of elements of `s`, strictly in the order of `Precedes`. */
  ghost predicate SortedByCount<T>(s: seq<T>, r: seq<Tally<T>>) {
    && (forall i :: 0 <= i < |r| ==> r[i].key in s)
    && (forall i, j :: 0 <= i < j < |r| ==> Precedes(s, r[i], r[j]))
  }

  /**
   * `r == Counter(s).most_common(k)`: `min(k, number of distinct elements)`
   * tallies with exact counts, in `Precedes` order, and every element left
   * out comes after every element kept.
   */
  ghost predicate IsMostCommon<T(!new)>(s: seq<T>, k: nat, r: seq<Tally<T>>) {
    && |r| == Min(k, |Dedup(s)|)
    && (forall i :: 0 <= i < |r| ==> r[i].key in s && r[i].count == multiset(s)[r[i].key])
    && (forall i, j :: 0 <= i < j < |r| ==> Precedes(s, r[i], r[j]))
    && (forall i, x :: 0 <= i < |r| && x in s && x !in Keys(r) ==> Precedes(s, r[i], Tally(x, multiset(s)[x])))
  }

  /** Inserts `x` before the first tally whose count is not larger than its own. */
  function InsertByCount<T(==)>(sorted: seq<Tally<T>>, x: Tally<T>): (r: seq<Tally<T>>)
    ensures multiset(r) == multiset(sorted) + multiset{x}
  {
    if sorted == [] || x.count >= sorted[0].count then [x] + sorted
    else
      assert sorted == [sorted[0]] + sorted[1..];
      [sorted[0]] + InsertByCount(sorted[1..], x)
  }

  /** A stable sort by count, descending (what `heapq.nlargest` with a count key yields). */
  function SortByCount<T(==)>(c: seq<Tally<T>>): (r: seq<Tally<T>>)
    ensures multiset(r) == multiset(c)
  {
    if c == [] then []
    else
      assert c == [c[0]] + c[1..];
      InsertByCount(SortByCount(c[1..]), c[0])
  }

  /** A tally that beats the head of a sorted list, and was seen before all of it, can go in front. */
  lemma PrependKeepsSorted<T>(s: seq<T>, sorted: seq<Tally<T>>, x: Tally<T>)
    requires SortedByCount(s, sorted) && x.key in s
    requires sorted != [] ==> x.count >= sorted[0].count
    requires forall y :: y in sorted ==> FirstIndex(s, x.key) < FirstIndex(s, y.key)
    ensures SortedByCount(s, [x] + sorted)
  {
    forall j | 0 < j < |sorted| ensures sorted[j].count <= sorted[0].count {
      assert Precedes(s, sorted[0], sorted[j]);
    }
    forall j | 0 <= j < |sorted| ensures Precedes(s, x, sorted[j]) {
      assert sorted[j] in sorted;
    }
  }

  /** A head with a larger count than `x` precedes everything `x` is inserted among behind it. */
  lemma HeadPrecedesInsertion<T>(s: seq<T>, sorted: seq<Tally<T>>, x: Tally<T>)
    requires SortedByCount(s, sorted) && x.key in s && sorted != [] && x.count < sorted[0].count
    ensures forall t :: t in InsertByCount(sorted[1..], x) ==> t.key in s && Precedes(s, sorted[0], t)
  {
    var rest := InsertByCount(sorted[1..], x);
    forall t | t in rest ensures t.key in s && Precedes(s, sorted[0], t) {
      assert t in multiset(rest);
      if t != x {
        assert t in multiset(sorted[1..]);
        var m :| 0 <= m < |sorted[1..]| && sorted[1..][m] == t;
        assert Precedes(s, sorted[0], sorted[m + 1]);
      }
    }
  }

  lemma {:induction false} InsertKeepsSorted<T>(s: seq<T>, sorted: seq<Tally<T>>, x: Tally<T>)
    requires SortedByCount(s, sorted) && x.key in s
    requires forall y :: y in sorted ==> FirstIndex(s, x.key) < FirstIndex(s, y.key)
    ensures SortedByCount(s, InsertByCount(sorted, x))
    decreases |sorted|
  {
    if sorted == [] || x.count >= sorted[0].count {
      PrependKeepsSorted(s, sorted, x);
    } else {
      var rest := InsertByCount(sorted[1..], x);
      forall y | y in sorted[1..] ensures y in sorted { }
      InsertKeepsSorted(s, sorted[1..], x);
      HeadPrecedesInsertion(s, sorted, x);
      assert forall j :: 0 <= j < |rest| ==> rest[j] in rest;
      assert InsertByCount(sorted, x) == [sorted[0]] + rest;
    }
  }

  lemma {:induction false} SortIsSorted<T>(s: seq<T>, c: seq<Tally<T>>)
    requires forall i :: 0 <= i < |c| ==> c[i].key in s
    requires forall i, j :: 0 <= i < j < |c| ==> FirstIndex(s, c[i].key) < FirstIndex(s, c[j].key)
    ensures SortedByCount(s, SortByCount(c))
    decreases |c|
  {
    if c != [] {
      var rest := SortByCount(c[1..]);
      SortIsSorted(s, c[1..]);
      forall y | y in rest ensures FirstIndex(s, c[0].key) < FirstIndex(s, y.key) {
        assert y in multiset(c[1..]);
        var m :| 0 <= m < |c[1..]| && c[1..][m] == y;
        assert c[m + 1] == y;
      }
      InsertKeepsSorted(s, rest, c[0]);
    }
  }

  /** An element missing from a prefix of the sorted counter sits after every element of the prefix. */
  lemma LeftOutComesLater<T(!new)>(s: seq<T>, sorted: seq<Tally<T>>, n: nat, i: nat, x: T)
    requires SortedByCount(s, sorted)
    requires multiset(sorted) == multiset(Counter(s))
    requires i < n <= |sorted| && x in s && x !in Keys(sorted[..n])
    ensures Precedes(s, sorted[i], Tally(x, multiset(s)[x]))
  {
    var t := Tally(x, multiset(s)[x]);
    assert t in Counter(s);
    assert t in multiset(sorted);
    var p :| 0 <= p < |sorted| && sorted[p] == t;
    assert forall q :: 0 <= q < n ==> Keys(sorted[..n])[q] == sorted[q].key;
    assert p >= n;
  }

  /** A prefix of the sorted counter is what `most_common` promises. */
  lemma TopOfSorted<T(!new)>(s: seq<T>, k: nat, sorted: seq<Tally<T>>)
    requires SortedByCount(s, sorted)
    requires multiset(sorted) == multiset(Counter(s))
    ensures IsMostCommon(s, k, sorted[..Min(k, |sorted|)])
  {
    var c := Counter(s);
    var n := Min(k, |sorted|);
    var r := sorted[..n];
    assert |sorted| == |multiset(sorted)| == |multiset(c)| == |c|;
    forall i | 0 <= i < |r| ensures r[i].key in s && r[i].count == multiset(s)[r[i].key] {
      assert r[i] == sorted[i] && sorted[i] in multiset(c);
      var m :| 0 <= m < |c| && c[m] == r[i];
    }
    forall i, x | 0 <= i < |r| && x in s && x !in Keys(r)
      ensures Precedes(s, r[i], Tally(x, multiset(s)[x]))
    {
      LeftOutComesLater(s, sorted, n, i, x);
    }
  }

  /** `Counter(s).most_common(k)` */
  function MostCommon<T(==,!new)>(s: seq<T>, k: nat): (r: seq<Tally<T>>)
    ensures IsMostCommon(s, k, r)
  {
    var c := Counter(s);
    var sorted := SortByCount(c);
    SortIsSorted(s, c);
    TopOfSorted(s, k, sorted);
    sorted[..Min(k, |sorted|)]
  }

  lemma PrecedesAsymmetric<T>(s: seq<T>, a: Tally<T>, b: Tally<T>)
    requires a.key in s && b.key in s
    ensures !(Precedes(s, a, b) && Precedes(s, b, a))
  {
  }

  /** A `most_common` answer names each element at most once. */
  lemma DistinctKeys<T(!new)>(s: seq<T>, k: nat, r: seq<Tally<T>>)
    requires IsMostCommon(s, k, r)
    ensures Distinct(Keys(r))
  {
    forall i, j | 0 <= i < j < |r| ensures r[i].key != r[j].key {
      assert Precedes(s, r[i], r[j]);
    }
  }

  /** Entries before position `n` that two answers share name elements other than the second answer's entry at `n`. */
  lemma PrefixKeysDiffer<T(!new)>(s: seq<T>, k: nat, r1: seq<Tally<T>>, r2: seq<Tally<T>>, n: nat)
    requires IsMostCommon(s, k, r2)
    requires n < |r2| && n <= |r1| && r1[..n] == r2[..n]
    ensures forall q :: 0 <= q < n ==> r1[q].key != r2[n].key
  {
    DistinctKeys(s, k, r2);
    forall q | 0 <= q < n ensures r1[q].key != r2[n].key {
      assert r1[q] == r1[..n][q] == r2[..n][q] == r2[q];
      assert Keys(r2)[q] == r2[q].key && Keys(r2)[n] == r2[n].key;
    }
  }

  /**
   * Where a `most_common` answer first differs from another list of exact
   * tallies with a new key at that position, the answer's entry precedes
   * the other one.
   */
  lemma PrecedesAtFirstDifference<T(!new)>(s: seq<T>, k: nat, r1: seq<Tally<T>>, r2: seq<Tally<T>>, n: nat)
    requires IsMostCommon(s, k, r1)
    requires n < |r1| && n < |r2| && r1[..n] == r2[..n] && r1[n].key != r2[n].key
    requires r2[n].key in s && r2[n].count == multiset(s)[r2[n].key]
    requires forall q :: 0 <= q < n ==> r1[q].key != r2[n].key
    ensures Precedes(s, r1[n], r2[n])
  {
    var b := r2[n];
    if b.key in Keys(r1) {
      var m :| 0 <= m < |r1| && Keys(r1)[m] == b.key;
      assert r1[m] == b;
      assert Precedes(s, r1[n], r1[m]);
    } else {
      assert Precedes(s, r1[n], Tally(b.key, multiset(s)[b.key]));
    }
  }

  /** `IsMostCommon` determines the answer: the tie-breaking rule leaves no choice. */
  lemma {:induction false} MostCommonIsUnique<T(!new)>(s: seq<T>, k: nat, r1: seq<Tally<T>>, r2: seq<Tally<T>>)
    requires IsMostCommon(s, k, r1) && IsMostCommon(s, k, r2)
    ensures r1 == r2
  {
    var n := 0;
    while n < |r1|
      invariant 0 <= n <= |r1| == |r2|
      invariant r1[..n] == r2[..n]
    {
      if r1[n].key != r2[n].key {
        PrefixKeysDiffer(s, k, r1, r2, n);
        PrefixKeysDiffer(s, k, r2, r1, n);
        PrecedesAtFirstDifference(s, k, r1, r2, n);
        PrecedesAtFirstDifference(s, k, r2, r1, n);
        PrecedesAsymmetric(s, r1[n], r2[n]);
        assert false;
      }
      assert r1[..n + 1] == r1[..n] + [r1[n]];
      assert r2[..n + 1] == r2[..n] + [r2[n]];
      n := n + 1;
    }
    assert r1 == r1[..n] && r2 == r2[..n];
  }
}
