/** The stable sort by a key that the memory manager and the disk cache use. */
module Sorting {

  predicate SortedBy<T>(s: seq<T>, key: T -> nat) {
    forall i, j :: 0 <= i < j < |s| ==> key(s[i]) <= key(s[j])
  }

  /** Puts `x` after everything with a key no larger. */
  function InsertBy<T>(s: seq<T>, x: T, key: T -> nat): (r: seq<T>)
    ensures |r| == |s| + 1
  {
    if s == [] then [x]
    else
      var n := |s| - 1;
      if key(s[n]) <= key(x) then s + [x] else InsertBy(s[..n], x, key) + [s[n]]
  }

  function SortBy<T>(s: seq<T>, key: T -> nat): (r: seq<T>)
    ensures |r| == |s|
  {
    if s == [] then [] else InsertBy(SortBy(s[..|s| - 1], key), s[|s| - 1], key)
  }

  lemma {:induction false} InsertIsPermutation<T>(s: seq<T>, x: T, key: T -> nat)
    ensures multiset(InsertBy(s, x, key)) == multiset(s) + multiset{x}
  {
    if s != [] {
      var n := |s| - 1;
      assert s == s[..n] + [s[n]];
      InsertIsPermutation(s[..n], x, key);
    }
  }

  lemma {:induction false} InsertIsSorted<T>(s: seq<T>, x: T, key: T -> nat)
    requires SortedBy(s, key)
    ensures SortedBy(InsertBy(s, x, key), key)
    ensures forall k :: 0 <= k <= |s| ==> InsertBy(s, x, key)[k] == x || InsertBy(s, x, key)[k] in s
  {
    if s != [] && key(s[|s| - 1]) > key(x) {
      var n := |s| - 1;
      InsertIsSorted(s[..n], x, key);
      var front := InsertBy(s[..n], x, key);
      forall k | 0 <= k < |front|
        ensures key(front[k]) <= key(s[n])
      {
        if front[k] != x {
          var m :| 0 <= m < n && s[..n][m] == front[k];
        }
      }
    }
  }

  lemma {:induction false} SortSorts<T>(s: seq<T>, key: T -> nat)
    ensures SortedBy(SortBy(s, key), key) && multiset(SortBy(s, key)) == multiset(s)
  {
    if s != [] {
      var n := |s| - 1;
      assert s == s[..n] + [s[n]];
      SortSorts(s[..n], key);
      InsertIsSorted(SortBy(s[..n], key), s[n], key);
      InsertIsPermutation(SortBy(s[..n], key), s[n], key);
    }
  }

  /** The elements with a given key, in order. */
  function WithKey<T>(s: seq<T>, key: T -> nat, v: nat): seq<T> {
    if s == [] then []
    else
      var n := |s| - 1;
      WithKey(s[..n], key, v) + if key(s[n]) == v then [s[n]] else []
  }

  lemma {:induction false} InsertIsStable<T>(s: seq<T>, x: T, key: T -> nat, v: nat)
    ensures WithKey(InsertBy(s, x, key), key, v) == WithKey(s, key, v) + if key(x) == v then [x] else []
  {
    if s == [] {
      assert [x][..0] == [];
    } else {
      var n := |s| - 1;
      if key(s[n]) <= key(x) {
        assert (s + [x])[..|s|] == s;
      } else {
        InsertIsStable(s[..n], x, key, v);
        var front := InsertBy(s[..n], x, key);
        assert (front + [s[n]])[..|front|] == front;
      }
    }
  }

  /** Sorting keeps elements with one key in the order they came in; with being sorted, that
      leaves one possible result. */
  lemma {:induction false} SortIsStable<T>(s: seq<T>, key: T -> nat, v: nat)
    ensures WithKey(SortBy(s, key), key, v) == WithKey(s, key, v)
  {
    if s != [] {
      var n := |s| - 1;
      SortIsStable(s[..n], key, v);
      InsertIsStable(SortBy(s[..n], key), s[n], key, v);
    }
  }
}
