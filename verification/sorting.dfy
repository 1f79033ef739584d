/**
 * Stable sorting by an integer key. `Array.prototype.sort` is stable, and a
 * comparator of the form `key(a) - key(b)` orders by that key, so every sort
 * in the planner is "ascending by key, equal keys in input order". This
 * module gives that one sort a definition (insertion sort) and proves it
 * sorted, a permutation and stable.
 */
module Sorting {

  ghost predicate SortedBy<T>(s: seq<T>, key: T -> int) {
    forall i, j :: 0 <= i < j < |s| ==> key(s[i]) <= key(s[j])
  }

  ghost predicate KeysDistinct<T>(s: seq<T>, key: T -> int) {
    forall i, j :: 0 <= i < j < |s| ==> key(s[i]) != key(s[j])
  }

  /** The elements of `s` whose key is `k`, in their order in `s`. */
  function WithKey<T>(s: seq<T>, key: T -> int, k: int): (r: seq<T>)
    ensures |r| <= |s|
  {
    if |s| == 0 then []
    else (if key(s[0]) == k then [s[0]] else []) + WithKey(s[1..], key, k)
  }

  /** Puts `x` in front of the first element whose key is not smaller. */
  function Insert<T>(x: T, s: seq<T>, key: T -> int): (r: seq<T>)
    ensures |r| == |s| + 1
  {
    if |s| == 0 then [x]
    else if key(s[0]) >= key(x) then [x] + s
    else [s[0]] + Insert(x, s[1..], key)
  }

  /** Inserting adds exactly `x` to the elements. */
  lemma {:induction false} InsertIsPermutation<T>(x: T, s: seq<T>, key: T -> int)
    ensures multiset(Insert(x, s, key)) == multiset(s) + multiset{x}
  {
    if |s| > 0 && key(s[0]) < key(x) {
      InsertIsPermutation(x, s[1..], key);
      assert s == [s[0]] + s[1..];
    }
  }

  /** A lower bound on every key of `s` and on `x` bounds every key after inserting. */
  lemma {:induction false} InsertLowerBound<T>(x: T, s: seq<T>, key: T -> int, lo: int)
    requires forall i :: 0 <= i < |s| ==> lo <= key(s[i])
    requires lo <= key(x)
    ensures forall i :: 0 <= i < |Insert(x, s, key)| ==> lo <= key(Insert(x, s, key)[i])
  {
    var r := Insert(x, s, key);
    if |s| > 0 && key(s[0]) < key(x) {
      var t := Insert(x, s[1..], key);
      InsertLowerBound(x, s[1..], key, lo);
      forall i | 0 <= i < |r| ensures lo <= key(r[i]) {
        if i > 0 {
          assert r[i] == t[i - 1];
        }
      }
    } else if |s| > 0 {
      forall i | 0 <= i < |r| ensures lo <= key(r[i]) {
        if i > 0 {
          assert r[i] == s[i - 1];
        }
      }
    }
  }

  lemma {:induction false} InsertKeepsSorted<T>(x: T, s: seq<T>, key: T -> int)
    requires SortedBy(s, key)
    ensures SortedBy(Insert(x, s, key), key)
  {
    if |s| > 0 && key(s[0]) < key(x) {
      var rest := Insert(x, s[1..], key);
      InsertKeepsSorted(x, s[1..], key);
      InsertLowerBound(x, s[1..], key, key(s[0]));
      var r := [s[0]] + rest;
      forall i, j | 0 <= i < j < |r| ensures key(r[i]) <= key(r[j]) {
        assert r[j] == rest[j - 1];
        if i > 0 {
          assert r[i] == rest[i - 1];
        }
      }
    }
  }

  /** Stable insertion sort, ascending by `key`. */
  function SortBy<T>(s: seq<T>, key: T -> int): (r: seq<T>)
    ensures |r| == |s|
    ensures multiset(r) == multiset(s)
    ensures SortedBy(r, key)
  {
    if |s| == 0 then []
    else
      assert s == [s[0]] + s[1..];
      var sorted := SortBy(s[1..], key);
      InsertKeepsSorted(s[0], sorted, key);
      InsertIsPermutation(s[0], sorted, key);
      Insert(s[0], sorted, key)
  }

  /** Sorting neither adds nor drops elements. */
  lemma SortByMembers<T>(s: seq<T>, key: T -> int)
    ensures forall x :: x in SortBy(s, key) <==> x in s
  {
    var r := SortBy(s, key);
    forall x ensures x in r <==> x in s {
      assert x in r <==> x in multiset(r);
      assert x in s <==> x in multiset(s);
    }
  }

  lemma {:induction false} InsertWithKey<T>(x: T, s: seq<T>, key: T -> int, k: int)
    ensures WithKey(Insert(x, s, key), key, k) ==
      (if key(x) == k then [x] else []) + WithKey(s, key, k)
  {
    if |s| == 0 {
    } else if key(s[0]) >= key(x) {
      WithKeyCons(x, s, key, k);
    } else {
      var t := Insert(x, s[1..], key);
      InsertWithKey(x, s[1..], key, k);
      WithKeyCons(s[0], t, key, k);
      WithKeyCons(s[0], s[1..], key, k);
      assert [s[0]] + s[1..] == s;
      if key(x) == k {
        assert key(s[0]) != k;
      }
    }
  }

  lemma WithKeyCons<T>(y: T, t: seq<T>, key: T -> int, k: int)
    ensures WithKey([y] + t, key, k) == (if key(y) == k then [y] else []) + WithKey(t, key, k)
  {
    assert ([y] + t)[1..] == t;
  }

  /** Sorting keeps, for every key, the elements with that key in input order. */
  lemma {:induction false} SortByIsStable<T>(s: seq<T>, key: T -> int, k: int)
    ensures WithKey(SortBy(s, key), key, k) == WithKey(s, key, k)
  {
    if |s| > 0 {
      SortByIsStable(s[1..], key, k);
      InsertWithKey(s[0], SortBy(s[1..], key), key, k);
    }
  }

  lemma {:induction false} WithKeyHasPair<T>(s: seq<T>, key: T -> int, i: int, j: int)
    requires 0 <= i < j < |s| && key(s[i]) == key(s[j])
    ensures |WithKey(s, key, key(s[i]))| >= 2
  {
    if i > 0 {
      WithKeyHasPair(s[1..], key, i - 1, j - 1);
    } else {
      WithKeyHasOne(s[1..], key, j - 1);
    }
  }

  lemma {:induction false} WithKeyHasOne<T>(s: seq<T>, key: T -> int, j: int)
    requires 0 <= j < |s|
    ensures |WithKey(s, key, key(s[j]))| >= 1
  {
    if j > 0 {
      WithKeyHasOne(s[1..], key, j - 1);
    }
  }

  lemma {:induction false} DistinctWithKeyAtMostOne<T>(s: seq<T>, key: T -> int, k: int)
    requires KeysDistinct(s, key)
    ensures |WithKey(s, key, k)| <= 1
  {
    if |s| > 0 {
      DistinctWithKeyAtMostOne(s[1..], key, k);
      if key(s[0]) == k && |WithKey(s[1..], key, k)| > 0 {
        var j := WithKeyWitness(s[1..], key, k);
      }
    }
  }

  lemma {:induction false} WithKeyWitness<T>(s: seq<T>, key: T -> int, k: int) returns (j: int)
    requires |WithKey(s, key, k)| > 0
    ensures 0 <= j < |s| && key(s[j]) == k
  {
    if key(s[0]) == k {
      j := 0;
    } else {
      j := WithKeyWitness(s[1..], key, k);
      j := j + 1;
    }
  }

  /** Sorting a sequence with distinct keys leaves the keys distinct, hence strictly ascending. */
  lemma SortByKeepsKeysDistinct<T>(s: seq<T>, key: T -> int)
    requires KeysDistinct(s, key)
    ensures KeysDistinct(SortBy(s, key), key)
    ensures forall i, j :: 0 <= i < j < |s| ==> key(SortBy(s, key)[i]) < key(SortBy(s, key)[j])
  {
    var r := SortBy(s, key);
    forall i, j | 0 <= i < j < |r| ensures key(r[i]) != key(r[j]) {
      if key(r[i]) == key(r[j]) {
        WithKeyHasPair(r, key, i, j);
        SortByIsStable(s, key, key(r[i]));
        DistinctWithKeyAtMostOne(s, key, key(r[i]));
      }
    }
  }
}
