/**
 * Ordering by a numeric key, as the dashboards do with
 * `.sort((a, b) => key(b) - key(a))` (largest first) and `.slice(0, n)`.
 * JavaScript's sort is stable; the insertion sort below is stable as well,
 * and the in-place sort is proved to give exactly its result.
 */
module Sorting {
  import opened Common

  /** Keys never increase from left to right. */
  ghost predicate SortedDesc<T>(s: seq<T>, key: T -> real) {
    forall i, j :: 0 <= i < j < |s| ==> key(s[i]) >= key(s[j])
  }

  /** No two elements share a key. */
  ghost predicate DistinctKeys<T>(s: seq<T>, key: T -> real) {
    forall i, j :: 0 <= i < j < |s| ==> key(s[i]) != key(s[j])
  }

  /** Two sequences with the same elements, counted with multiplicity, have the same members. */
  lemma SameMembers<T>(a: seq<T>, b: seq<T>)
    requires multiset(a) == multiset(b)
    ensures forall x :: x in a <==> x in b
  {
    forall x ensures x in a <==> x in b {
      assert x in a <==> x in multiset(a);
      assert x in b <==> x in multiset(b);
    }
  }

  /**
   * Puts `x` in front of the first element whose key is smaller than its own,
   * so after every element with an equal key: where a stable sort places the
   * later of two equal keys.
   */
  function Insert<T>(x: T, s: seq<T>, key: T -> real): (r: seq<T>)
    ensures multiset(r) == multiset(s) + multiset{x}
    ensures |r| == |s| + 1
    decreases |s|
  {
    if s == [] || key(x) > key(s[0]) then [x] + s
    else
      assert s == [s[0]] + s[1..];
      [s[0]] + Insert(x, s[1..], key)
  }

  lemma {:induction false} InsertSorted<T>(x: T, s: seq<T>, key: T -> real)
    requires SortedDesc(s, key)
    ensures SortedDesc(Insert(x, s, key), key)
    decreases |s|
  {
    if s != [] && key(x) <= key(s[0]) {
      var t := s[1..];
      InsertSorted(x, t, key);
      var r' := Insert(x, t, key);
      forall j | 0 <= j < |r'| ensures key(s[0]) >= key(r'[j]) {
        assert r'[j] in multiset(t) + multiset{x};
        if r'[j] != x {
          assert r'[j] in t;
        }
      }
    }
  }

  /**
   * Stable insertion sort, largest key first: each element in turn is
   * inserted into the sorted list of the ones before it, after those whose
   * key is at least its own, so equal keys keep their original order.
   */
  function SortDesc<T>(s: seq<T>, key: T -> real): (r: seq<T>)
    ensures multiset(r) == multiset(s)
    ensures |r| == |s|
    decreases |s|
  {
    if s == [] then []
    else
      assert s == s[..|s| - 1] + [s[|s| - 1]];
      Insert(s[|s| - 1], SortDesc(s[..|s| - 1], key), key)
  }

  lemma {:induction false} SortDescSorted<T>(s: seq<T>, key: T -> real)
    ensures SortedDesc(SortDesc(s, key), key)
    decreases |s|
  {
    if s != [] {
      SortDescSorted(s[..|s| - 1], key);
      InsertSorted(s[|s| - 1], SortDesc(s[..|s| - 1], key), key);
    }
  }

  /** An element whose key is at most every key of `s` goes at the end. */
  lemma {:induction false} InsertAtEnd<T>(x: T, s: seq<T>, key: T -> real)
    requires forall k :: 0 <= k < |s| ==> key(s[k]) >= key(x)
    ensures Insert(x, s, key) == s + [x]
    decreases |s|
  {
    if s != [] {
      InsertAtEnd(x, s[1..], key);
      assert [s[0]] + (s[1..] + [x]) == s + [x];
    }
  }

  /** The first `n` elements of a sorted list are in order, with keys at least the key at `n`. */
  lemma SortedPrefix<T>(s: seq<T>, n: nat, key: T -> real)
    requires SortedDesc(s, key) && n < |s|
    ensures SortedDesc(s[..n], key)
    ensures forall k :: 0 <= k < n ==> key(s[..n][k]) >= key(s[n])
  {
  }

  /** Sorting a list that is already in order changes nothing: the sort is stable. */
  lemma {:induction false} SortDescOfSorted<T>(s: seq<T>, key: T -> real)
    requires SortedDesc(s, key)
    ensures SortDesc(s, key) == s
    decreases |s|
  {
    if s != [] {
      var n := |s| - 1;
      var p := s[..n];
      SortedPrefix(s, n, key);
      SortDescOfSorted(p, key);
      InsertAtEnd(s[n], p, key);
      assert p + [s[n]] == s;
    }
  }

  lemma TailOfAppend<T>(p: seq<T>, q: seq<T>)
    requires p != []
    ensures (p + q)[0] == p[0] && (p + q)[1..] == p[1..] + q
  {
  }

  lemma ConsTail<T>(p: seq<T>, r: seq<T>)
    requires p != []
    ensures [p[0]] + (p[1..] + r) == p + r
  {
  }

  /**
   * Where `x` goes: after every element of `p`, whose keys are at least its
   * own, and before `q` when `q` starts with a smaller key.
   */
  lemma {:induction false} InsertSplit<T>(x: T, p: seq<T>, q: seq<T>, key: T -> real)
    requires forall k :: 0 <= k < |p| ==> key(p[k]) >= key(x)
    requires q == [] || key(q[0]) < key(x)
    ensures Insert(x, p + q, key) == p + ([x] + q)
    decreases |p|
  {
    if p == [] {
      assert p + q == q;
    } else {
      TailOfAppend(p, q);
      InsertSplit(x, p[1..], q, key);
      ConsTail(p, [x] + q);
    }
  }

  lemma {:induction false} InsertDistinct<T>(x: T, s: seq<T>, key: T -> real)
    requires DistinctKeys(s, key)
    requires forall i :: 0 <= i < |s| ==> key(s[i]) != key(x)
    ensures DistinctKeys(Insert(x, s, key), key)
    decreases |s|
  {
    if s != [] && key(x) <= key(s[0]) {
      var t := s[1..];
      InsertDistinct(x, t, key);
      var r' := Insert(x, t, key);
      forall j | 0 <= j < |r'| ensures key(s[0]) != key(r'[j]) {
        assert r'[j] in multiset(t) + multiset{x};
        if r'[j] != x {
          assert r'[j] in t;
        }
      }
    }
  }

  /** The first `n` elements of a list with distinct keys have distinct keys, all unlike the key at `n`. */
  lemma DistinctPrefix<T>(s: seq<T>, n: nat, key: T -> real)
    requires DistinctKeys(s, key) && n < |s|
    ensures DistinctKeys(s[..n], key)
    ensures forall k :: 0 <= k < n ==> key(s[..n][k]) != key(s[n])
  {
  }

  /** A key that no element of `a` has, no rearrangement of `a` has either. */
  lemma KeyAbsent<T>(a: seq<T>, b: seq<T>, key: T -> real, v: real)
    requires multiset(a) == multiset(b)
    requires forall k :: 0 <= k < |a| ==> key(a[k]) != v
    ensures forall k :: 0 <= k < |b| ==> key(b[k]) != v
  {
    forall k | 0 <= k < |b| ensures key(b[k]) != v {
      assert b[k] in multiset(a);
      var j :| 0 <= j < |a| && a[j] == b[k];
    }
  }

  /** Sorting a sequence whose keys are distinct keeps them distinct. */
  lemma {:induction false} SortDescDistinct<T>(s: seq<T>, key: T -> real)
    requires DistinctKeys(s, key)
    ensures DistinctKeys(SortDesc(s, key), key)
    decreases |s|
  {
    if s != [] {
      var n := |s| - 1;
      var p := s[..n];
      var t := SortDesc(p, key);
      DistinctPrefix(s, n, key);
      SortDescDistinct(p, key);
      KeyAbsent(p, t, key, key(s[n]));
      InsertDistinct(s[n], t, key);
    }
  }

  /** `sort(...).slice(0, n)`: the `n` elements with the largest keys, largest first. */
  function TopN<T>(s: seq<T>, n: nat, key: T -> real): (r: seq<T>)
    ensures |r| == Min(n, |s|)
    ensures multiset(r) <= multiset(s)
  {
    var sorted := SortDesc(s, key);
    assert sorted == sorted[..Min(n, |s|)] + sorted[Min(n, |s|)..];
    sorted[..Min(n, |s|)]
  }

  /**
   * What the top-n list promises: it is ordered largest first, and every
   * element left out ranks no higher than any element shown.
   */
  lemma SplitRanks<T>(sorted: seq<T>, k: nat, key: T -> real)
    requires SortedDesc(sorted, key) && k <= |sorted|
    ensures forall x, y :: x in sorted[..k] && y in sorted[k..] ==> key(x) >= key(y)
  {
    forall x, y | x in sorted[..k] && y in sorted[k..] ensures key(x) >= key(y) {
      var i :| 0 <= i < k && sorted[..k][i] == x;
      var j :| 0 <= j < |sorted| - k && sorted[k..][j] == y;
      assert sorted[i] == x && sorted[k + j] == y;
    }
  }

  lemma MultisetSplit<T>(s: seq<T>, k: nat)
    requires k <= |s|
    ensures multiset(s) - multiset(s[..k]) == multiset(s[k..])
  {
    assert s == s[..k] + s[k..];
  }

  lemma TopNRanks<T>(s: seq<T>, n: nat, key: T -> real)
    ensures SortedDesc(TopN(s, n, key), key)
    ensures forall x, y :: x in TopN(s, n, key) && y in multiset(s) - multiset(TopN(s, n, key)) ==> key(x) >= key(y)
  {
    var sorted := SortDesc(s, key);
    var k := Min(n, |s|);
    assert TopN(s, n, key) == sorted[..k];
    SortDescSorted(s, key);
    SplitRanks(sorted, k, key);
    MultisetSplit(sorted, k);
  }

  /** An element of the input that the top-n list leaves out ranks no higher than any element it shows. */
  lemma TopNOutranks<T>(s: seq<T>, n: nat, key: T -> real)
    ensures forall x, y :: x in TopN(s, n, key) && y in s && y !in TopN(s, n, key) ==> key(x) >= key(y)
  {
    TopNRanks(s, n, key);
    forall x, y | x in TopN(s, n, key) && y in s && y !in TopN(s, n, key) ensures key(x) >= key(y) {
      assert y in multiset(s) && y !in multiset(TopN(s, n, key));
      assert y in multiset(s) - multiset(TopN(s, n, key));
    }
  }

  /** Every element of the top-n list comes from the input. */
  lemma TopNFromInput<T>(s: seq<T>, n: nat, key: T -> real, x: T)
    requires x in TopN(s, n, key)
    ensures x in s
  {
    assert x in multiset(TopN(s, n, key));
  }

  method Swap<T>(a: array<T>, i: nat, j: nat)
    requires i < a.Length && j < a.Length
    modifies a
    ensures a[..] == old(a[..])[i := old(a[j])][j := old(a[i])]
  {
    a[i], a[j] := a[j], a[i];
  }

  /** `s` with `s[i]` moved back to position `j`, the elements `s[j..i]` shifted one place right. */
  ghost function Shifted<T>(s: seq<T>, i: nat, j: nat): (r: seq<T>)
    requires j <= i < |s|
    ensures |r| == |s|
  {
    seq(|s|, k requires 0 <= k < |s| => if k < j then s[k] else if k == j then s[i] else if k <= i then s[k - 1] else s[k])
  }

  /** Swapping the moved element with its left neighbour moves it one place further back. */
  lemma ShiftStep<T>(s: seq<T>, i: nat, j: nat)
    requires 0 < j <= i < |s|
    ensures Shifted(s, i, j)[j - 1 := s[i]][j := s[j - 1]] == Shifted(s, i, j - 1)
  {
  }

  /** Cut after position `i`, the shifted sequence is `s[i]` placed after `s[..j]` in `s[..i]`, then the untouched rest. */
  lemma ShiftedSplit<T>(s: seq<T>, i: nat, j: nat)
    requires j <= i < |s|
    ensures Shifted(s, i, j) == s[..i][..j] + ([s[i]] + s[..i][j..]) + s[i + 1..]
  {
  }

  /**
   * One insertion step: moves `a[i]` left by adjacent swaps past every
   * element of the sorted prefix `a[..i]` with a smaller key, which inserts
   * it into that prefix; the rest of the array is untouched.
   */
  method InsertInPlace<T>(a: array<T>, i: nat, key: T -> real)
    requires i < a.Length && SortedDesc(a[..i], key)
    modifies a
    ensures a[..] == Insert(old(a[i]), old(a[..i]), key) + old(a[i + 1..])
  {
    ghost var s := a[..];
    var j := i;
    assert s == Shifted(s, i, i);
    while j > 0 && key(a[j - 1]) < key(a[j])
      invariant 0 <= j <= i
      invariant a[..] == Shifted(s, i, j)
      invariant j < i ==> key(s[j]) < key(s[i])
    {
      assert a[j - 1] == s[j - 1] && a[j] == s[i];
      Swap(a, j - 1, j);
      ShiftStep(s, i, j);
      j := j - 1;
    }
    assert j > 0 ==> a[j - 1] == s[j - 1] && a[j] == s[i];
    InsertedAt(s, i, j, key);
  }

  /**
   * Where the swaps stop, `s[i]` has been moved back to the place `Insert`
   * gives it in the sorted prefix `s[..i]`.
   */
  lemma InsertedAt<T>(s: seq<T>, i: nat, j: nat, key: T -> real)
    requires j <= i < |s| && SortedDesc(s[..i], key)
    requires j == 0 || key(s[j - 1]) >= key(s[i])
    requires j < i ==> key(s[j]) < key(s[i])
    ensures Shifted(s, i, j) == Insert(s[i], s[..i], key) + s[i + 1..]
  {
    var p, q := s[..i][..j], s[..i][j..];
    assert forall k :: 0 <= k < |p| ==> key(p[k]) >= key(s[i]) by {
      assert forall k :: 0 <= k < j ==> key(s[..i][k]) >= key(s[..i][j - 1]);
    }
    assert q == [] || q[0] == s[j];
    assert p + q == s[..i];
    InsertSplit(s[i], p, q, key);
    ShiftedSplit(s, i, j);
  }

  /** Sorting one more element is inserting it into the sorted list of the ones before. */
  lemma SortDescStep<T>(s: seq<T>, i: nat, key: T -> real)
    requires i < |s|
    ensures SortDesc(s[..i + 1], key) == Insert(s[i], SortDesc(s[..i], key), key)
  {
    assert s[..i + 1][..i] == s[..i];
  }

  /** After sorting the first `i` elements, inserting the next leaves the first `i + 1` sorted and the rest untouched. */
  lemma SortPrefixStep<T>(s: seq<T>, b: seq<T>, i: nat, key: T -> real)
    requires i < |s| && b == SortDesc(s[..i], key) + s[i..]
    ensures b[..i] == SortDesc(s[..i], key) && SortedDesc(b[..i], key)
    ensures Insert(b[i], b[..i], key) + b[i + 1..] == SortDesc(s[..i + 1], key) + s[i + 1..]
  {
    var t := SortDesc(s[..i], key);
    SortDescSorted(s[..i], key);
    assert b[..i] == t;
    assert b[i] == s[i];
    assert b[i + 1..] == s[i + 1..];
    SortDescStep(s, i, key);
  }

  /**
   * `a.sort((x, y) => key(y) - key(x))`: reorders the array itself into
   * exactly the stable sort of its old contents, by insertion with adjacent
   * swaps; so it is in order, holds the same elements, and an array that is
   * already in order is left exactly as it was.
   */
  method SortInPlace<T>(a: array<T>, key: T -> real)
    modifies a
    ensures a[..] == SortDesc(old(a[..]), key)
    ensures SortedDesc(a[..], key)
    ensures multiset(a[..]) == multiset(old(a[..]))
    ensures SortedDesc(old(a[..]), key) ==> a[..] == old(a[..])
  {
    ghost var s := a[..];
    var i := 0;
    assert a[..] == SortDesc(s[..0], key) + s[0..];
    while i < a.Length
      invariant 0 <= i <= a.Length
      invariant a[..] == SortDesc(s[..i], key) + s[i..]
    {
      SortPrefixStep(s, a[..], i, key);
      InsertInPlace(a, i, key);
      i := i + 1;
    }
    assert s[..a.Length] == s;
    SortDescFacts(s, key);
  }

  /** The stable sort's result is in order, and it is the input itself when that is already in order. */
  lemma SortDescFacts<T>(s: seq<T>, key: T -> real)
    ensures SortedDesc(SortDesc(s, key), key)
    ensures SortedDesc(s, key) ==> SortDesc(s, key) == s
  {
    SortDescSorted(s, key);
    if SortedDesc(s, key) {
      SortDescOfSorted(s, key);
    }
  }
}
