/**
 * A stable descending sort by a numeric key, as used for "sort by total,
 * descending" (the report aggregation's `$sort` and the `Array.prototype.sort`
 * with comparator `b - a` in the fallback insights).
 */
module Sorting {

  predicate SortedDesc<T>(s: seq<T>, key: T -> real) {
    forall i, j :: 0 <= i < j < |s| ==> key(s[i]) >= key(s[j])
  }

  /** Inserts `x` before the first element whose key is not larger, so earlier equal keys stay first. */
  function Insert<T(==)>(x: T, s: seq<T>, key: T -> real): (r: seq<T>)
    requires SortedDesc(s, key)
    ensures SortedDesc(r, key)
    ensures multiset(r) == multiset(s) + multiset{x}
    ensures |r| == |s| + 1
    ensures r[0] == x || (|s| > 0 && r[0] == s[0])
  {
    if s == [] || key(x) >= key(s[0]) then [x] + s
    else
      var rest := Insert(x, s[1..], key);
      assert s == [s[0]] + s[1..];
      assert key(rest[0]) <= key(s[0]);
      [s[0]] + rest
  }

  /** Insertion sort from the back: the result is a descending permutation of `s`. */
  function SortDesc<T(==)>(s: seq<T>, key: T -> real): (r: seq<T>)
    ensures SortedDesc(r, key)
    ensures multiset(r) == multiset(s)
    ensures |r| == |s|
  {
    if s == [] then []
    else
      assert s == [s[0]] + s[1..];
      Insert(s[0], SortDesc(s[1..], key), key)
  }

  /** Sorting an already descending sequence leaves it as it is. */
  lemma {:induction false} SortDescOfSorted<T>(s: seq<T>, key: T -> real)
    requires SortedDesc(s, key)
    ensures SortDesc(s, key) == s
  {
    if s != [] {
      assert SortedDesc(s[1..], key);
      SortDescOfSorted(s[1..], key);
    }
  }

  /** The first `k` elements, or all of them when there are fewer (`slice(0, k)`, `$limit: k`). */
  function Take<T>(s: seq<T>, k: nat): (r: seq<T>)
    ensures |r| == if |s| < k then |s| else k
    ensures r == s[..|r|]
  {
    if |s| <= k then s else s[..k]
  }

  /** A prefix of a descending sequence holds its largest keys: nothing left out is larger than what was kept. */
  lemma TakeKeepsLargest<T>(s: seq<T>, key: T -> real, k: nat, j: nat)
    requires SortedDesc(s, key) && k <= j < |s|
    ensures forall i :: 0 <= i < |Take(s, k)| ==> key(Take(s, k)[i]) >= key(s[j])
  {
  }

  /** A prefix of a descending sequence is descending and drawn from it. */
  lemma TakeIsSortedPart<T>(s: seq<T>, key: T -> real, k: nat)
    requires SortedDesc(s, key)
    ensures SortedDesc(Take(s, k), key) && multiset(Take(s, k)) <= multiset(s)
  {
    var r := Take(s, k);
    assert s == r + s[|r|..];
    assert multiset(s) == multiset(r) + multiset(s[|r|..]);
  }

  /** What a prefix of a descending sequence leaves out is no larger than anything it keeps. */
  lemma TakeLeavesSmaller<T>(s: seq<T>, key: T -> real, k: nat)
    requires SortedDesc(s, key)
    ensures forall x :: x in multiset(s) - multiset(Take(s, k)) ==>
              forall i :: 0 <= i < |Take(s, k)| ==> key(Take(s, k)[i]) >= key(x)
  {
    forall x | x in multiset(s) - multiset(Take(s, k))
      ensures forall i :: 0 <= i < |Take(s, k)| ==> key(Take(s, k)[i]) >= key(x)
    {
      LeftOutIsAfter(s, key, k, x);
    }
  }

  /** An element a prefix leaves out sits after the prefix. */
  lemma LeftOutIsAfter<T>(s: seq<T>, key: T -> real, k: nat, x: T)
    requires SortedDesc(s, key) && x in multiset(s) - multiset(Take(s, k))
    ensures forall i :: 0 <= i < |Take(s, k)| ==> key(Take(s, k)[i]) >= key(x)
  {
    var r := Take(s, k);
    assert s == r + s[|r|..];
    assert multiset(s) == multiset(r) + multiset(s[|r|..]);
    assert x in multiset(s[|r|..]);
    var j :| |r| <= j < |s| && s[j] == x;
    TakeKeepsLargest(s, key, k, j);
  }

  /** The elements on which `keep` gives `want`, in their order (`Array.prototype.filter`). */
  function Filter<T(==)>(s: seq<T>, keep: T -> bool, want: bool): (r: seq<T>)
    ensures forall i :: 0 <= i < |r| ==> keep(r[i]) == want
    ensures multiset(r) <= multiset(s)
  {
    if s == [] then []
    else
      assert s == [s[0]] + s[1..];
      (if keep(s[0]) == want then [s[0]] else []) + Filter(s[1..], keep, want)
  }

  /** Filtering two elements keeps each of them exactly when `keep` gives `want` on it. */
  lemma FilterPair<T>(x: T, y: T, keep: T -> bool, want: bool)
    ensures Filter([x, y], keep, want) == (if keep(x) == want then [x] else []) + (if keep(y) == want then [y] else [])
  {
    assert [x, y][1..] == [y] && [y][1..] == [];
  }

  /** The kept and the dropped elements together are the whole sequence. */
  lemma {:induction false} FilterSplits<T>(s: seq<T>, keep: T -> bool)
    ensures multiset(Filter(s, keep, true)) + multiset(Filter(s, keep, false)) == multiset(s)
  {
    if s != [] {
      FilterSplits(s[1..], keep);
      assert s == [s[0]] + s[1..];
    }
  }

  /** Filtering a descending sequence leaves it descending. */
  lemma {:induction false} FilterKeepsSorted<T>(s: seq<T>, keep: T -> bool, want: bool, key: T -> real)
    requires SortedDesc(s, key)
    ensures SortedDesc(Filter(s, keep, want), key)
  {
    if s != [] {
      var rest := Filter(s[1..], keep, want);
      var r := Filter(s, keep, want);
      assert SortedDesc(s[1..], key);
      FilterKeepsSorted(s[1..], keep, want, key);
      if keep(s[0]) == want {
        assert r == [s[0]] + rest;
        forall j | 0 <= j < |rest| ensures key(s[0]) >= key(rest[j]) {
          assert rest[j] in multiset(s[1..]);
          var k :| 0 <= k < |s[1..]| && s[1..][k] == rest[j];
          assert s[k + 1] == rest[j];
        }
        forall i, j | 0 <= i < j < |r| ensures key(r[i]) >= key(r[j]) {
          assert r[j] == rest[j - 1];
          if i > 0 { assert r[i] == rest[i - 1]; }
        }
      }
    }
  }
}
