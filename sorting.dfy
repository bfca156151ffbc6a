/**
 * Python's `list.sort(key=...)`: a stable sort by an integer key.
 * The model is an insertion sort whose result is proved ordered, a permutation
 * of its input, and stable (elements with equal keys keep their relative order).
 */
module Sorting {

  /** Non-decreasing by `key`. */
  predicate SortedBy<T>(s: seq<T>, key: T -> int) {
    forall i, j :: 0 <= i < j < |s| ==> key(s[i]) <= key(s[j])
  }

  /** Inserts `x` before the first element whose key is not smaller than `key(x)`. */
  function InsertByKey<T>(x: T, s: seq<T>, key: T -> int): (r: seq<T>)
    ensures multiset(r) == multiset(s) + multiset{x}
    ensures |r| == |s| + 1
    ensures r[0] == x || (s != [] && r[0] == s[0])
  {
    if s == [] || key(x) <= key(s[0]) then [x] + s
    else
      assert s == [s[0]] + s[1..];
      [s[0]] + InsertByKey(x, s[1..], key)
  }

  lemma SortedTail<T>(s: seq<T>, key: T -> int)
    requires SortedBy(s, key) && s != []
    ensures SortedBy(s[1..], key)
  {
    var t := s[1..];
    forall i, j | 0 <= i < j < |t| ensures key(t[i]) <= key(t[j]) {
      assert t[i] == s[i + 1] && t[j] == s[j + 1];
    }
  }

  lemma SortedCons<T>(a: T, rest: seq<T>, key: T -> int)
    requires SortedBy(rest, key)
    requires rest != [] ==> key(a) <= key(rest[0])
    ensures SortedBy([a] + rest, key)
  {
    var r := [a] + rest;
    forall i, j | 0 <= i < j < |r| ensures key(r[i]) <= key(r[j]) {
      if i == 0 {
        if j > 1 {
          assert key(rest[0]) <= key(rest[j - 1]);
        }
      } else {
        assert r[i] == rest[i - 1] && r[j] == rest[j - 1];
      }
    }
  }

  lemma {:induction false} InsertByKeySorted<T>(x: T, s: seq<T>, key: T -> int)
    requires SortedBy(s, key)
    ensures SortedBy(InsertByKey(x, s, key), key)
  {
    if s == [] || key(x) <= key(s[0]) {
      SortedCons(x, s, key);
    } else {
      var t := s[1..];
      SortedTail(s, key);
      InsertByKeySorted(x, t, key);
      var rest := InsertByKey(x, t, key);
      assert InsertByKey(x, s, key) == [s[0]] + rest;
      if rest[0] != x {
        assert rest[0] == s[1];
      }
      SortedCons(s[0], rest, key);
    }
  }

  /** The stable sort `list.sort(key=key)` returns. */
  function SortByKey<T>(s: seq<T>, key: T -> int): (r: seq<T>)
    ensures SortedBy(r, key)
    ensures multiset(r) == multiset(s)
    ensures |r| == |s|
  {
    if s == [] then []
    else
      assert s == [s[0]] + s[1..];
      var sorted := SortByKey(s[1..], key);
      InsertByKeySorted(s[0], sorted, key);
      InsertByKey(s[0], sorted, key)
  }

  /** Splitting the first element off a subsequence by key. */
  lemma WithKeyCons<T>(x: T, s: seq<T>, key: T -> int, k: int)
    ensures WithKey([x] + s, key, k) == (if key(x) == k then [x] else []) + WithKey(s, key, k)
  {
    assert ([x] + s)[0] == x && ([x] + s)[1..] == s;
  }

  /** The elements of `s` whose key is `k`, in order. */
  function WithKey<T>(s: seq<T>, key: T -> int, k: int): seq<T> {
    if s == [] then []
    else (if key(s[0]) == k then [s[0]] else []) + WithKey(s[1..], key, k)
  }

  lemma {:induction false} InsertByKeyWithKey<T>(x: T, s: seq<T>, key: T -> int, k: int)
    ensures WithKey(InsertByKey(x, s, key), key, k) == (if key(x) == k then [x] else []) + WithKey(s, key, k)
  {
    if s == [] || key(x) <= key(s[0]) {
      WithKeyCons(x, s, key, k);
    } else {
      var t := s[1..];
      assert s == [s[0]] + t;
      InsertByKeyWithKey(x, t, key, k);
      WithKeyCons(s[0], InsertByKey(x, t, key), key, k);
      WithKeyCons(s[0], t, key, k);
      var a: seq<T> := if key(s[0]) == k then [s[0]] else [];
      var b: seq<T> := if key(x) == k then [x] else [];
      assert a == [] || b == [];
      assert a + (b + WithKey(t, key, k)) == b + (a + WithKey(t, key, k));
    }
  }

  /** Stability: sorting keeps the relative order of the elements of every key. */
  lemma {:induction false} SortByKeyIsStable<T>(s: seq<T>, key: T -> int, k: int)
    ensures WithKey(SortByKey(s, key), key, k) == WithKey(s, key, k)
  {
    if s != [] {
      SortByKeyIsStable(s[1..], key, k);
      InsertByKeyWithKey(s[0], SortByKey(s[1..], key), key, k);
    }
  }
}
