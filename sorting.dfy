/**
  Ordering elements by a real-valued key, as `Enumerable.OrderBy` and `List<T>.Sort` with a
  key-comparing comparer do. The key of each element is given as a function.
 */
module Sorting {
  import opened Collections

  /** Keys never decrease from left to right. */
  predicate SortedBy<T>(s: seq<T>, key: T -> real) {
    forall i, j :: 0 <= i < j < |s| ==> key(s[i]) <= key(s[j])
  }

  /** The elements of `s` whose key is `k`, in their order in `s`. */
  function WithKey<T>(s: seq<T>, key: T -> real, k: real): seq<T> {
    if |s| == 0 then []
    else (if key(s[0]) == k then [s[0]] else []) + WithKey(s[1..], key, k)
  }

  /** `x` placed into the sorted `s` after every element whose key is not larger than its own. */
  function Insert<T>(x: T, s: seq<T>, key: T -> real): (r: seq<T>)
    ensures multiset(r) == multiset(s) + multiset{x}
    ensures SortedBy(s, key) ==> SortedBy(r, key)
  {
    if |s| == 0 then [x]
    else if key(x) < key(s[0]) then
      SmallerFirst(x, s, key);
      [x] + s
    else
      var rest := Insert(x, s[1..], key);
      assert s == [s[0]] + s[1..];
      HeadBeforeInserted(x, s, rest, key);
      [s[0]] + rest
  }

  /** An element whose key is at most every key of a sorted sequence can go in front of it. */
  lemma ConsSorted<T>(h: T, t: seq<T>, key: T -> real)
    requires SortedBy(t, key) && forall e :: e in t ==> key(h) <= key(e)
    ensures SortedBy([h] + t, key)
  {
    var r := [h] + t;
    forall i, j | 0 <= i < j < |r| ensures key(r[i]) <= key(r[j]) {
      assert r[j] == t[j - 1];
      if i > 0 {
        assert r[i] == t[i - 1];
      } else {
        assert t[j - 1] in t;
      }
    }
  }

  lemma SmallerFirst<T>(x: T, s: seq<T>, key: T -> real)
    requires |s| > 0 && key(x) < key(s[0])
    ensures SortedBy(s, key) ==> SortedBy([x] + s, key)
  {
    if SortedBy(s, key) {
      forall e | e in s ensures key(x) <= key(e) {
        var i :| 0 <= i < |s| && s[i] == e;
      }
      ConsSorted(x, s, key);
    }
  }

  lemma HeadBeforeInserted<T>(x: T, s: seq<T>, rest: seq<T>, key: T -> real)
    requires |s| > 0 && key(s[0]) <= key(x)
    requires multiset(rest) == multiset(s[1..]) + multiset{x}
    requires SortedBy(s[1..], key) ==> SortedBy(rest, key)
    ensures SortedBy(s, key) ==> SortedBy([s[0]] + rest, key)
  {
    if SortedBy(s, key) {
      assert SortedBy(s[1..], key);
      forall e | e in rest ensures key(s[0]) <= key(e) {
        assert e in multiset(rest);
        if e != x {
          assert e in multiset(s[1..]);
          var i :| 0 <= i < |s[1..]| && s[1..][i] == e;
          assert s[i + 1] == e;
        }
      }
      ConsSorted(s[0], rest, key);
    }
  }

  /** Insertion sort that takes the elements in order, so equal keys keep their original order. */
  function StableSort<T>(s: seq<T>, key: T -> real): (r: seq<T>)
    ensures multiset(r) == multiset(s)
    ensures SortedBy(r, key)
  {
    if |s| == 0 then []
    else
      SplitLast(s);
      Insert(s[|s| - 1], StableSort(s[..|s| - 1], key), key)
  }

  lemma {:induction false} WithKeyAppend<T>(a: seq<T>, b: seq<T>, key: T -> real, k: real)
    ensures WithKey(a + b, key, k) == WithKey(a, key, k) + WithKey(b, key, k)
    decreases |a|
  {
    if |a| == 0 {
      assert a + b == b;
    } else {
      ConcatFirst(a, b);
      WithKeyAppend(a[1..], b, key, k);
    }
  }

  lemma {:induction false} WithKeyNone<T>(s: seq<T>, key: T -> real, k: real)
    requires forall i :: 0 <= i < |s| ==> key(s[i]) != k
    ensures WithKey(s, key, k) == []
    decreases |s|
  {
    if |s| > 0 {
      WithKeyNone(s[1..], key, k);
    }
  }

  lemma {:induction false} InsertWithKey<T>(x: T, s: seq<T>, key: T -> real, k: real)
    requires SortedBy(s, key)
    ensures WithKey(Insert(x, s, key), key, k) == WithKey(s, key, k) + (if key(x) == k then [x] else [])
    decreases |s|
  {
    if |s| == 0 {
      assert Insert(x, s, key) == [x];
      WithKeySingle(x, key, k);
    } else if key(x) < key(s[0]) {
      InsertInFrontWithKey(x, s, key, k);
    } else {
      assert SortedBy(s[1..], key);
      InsertWithKey(x, s[1..], key, k);
      InsertAfterHeadWithKey(x, s, key, k);
    }
  }

  lemma InsertInFrontWithKey<T>(x: T, s: seq<T>, key: T -> real, k: real)
    requires SortedBy(s, key) && |s| > 0 && key(x) < key(s[0])
    ensures WithKey(Insert(x, s, key), key, k) == WithKey(s, key, k) + (if key(x) == k then [x] else [])
  {
    var own := if key(x) == k then [x] else [];
    assert Insert(x, s, key) == [x] + s;
    assert ([x] + s)[1..] == s;
    assert WithKey([x] + s, key, k) == own + WithKey(s, key, k);
    if key(x) == k {
      assert forall i :: 0 <= i < |s| ==> key(s[0]) <= key(s[i]);
      WithKeyNone(s, key, k);
      assert own + WithKey(s, key, k) == WithKey(s, key, k) + own;
    }
  }

  lemma InsertAfterHeadWithKey<T>(x: T, s: seq<T>, key: T -> real, k: real)
    requires |s| > 0 && !(key(x) < key(s[0]))
    requires WithKey(Insert(x, s[1..], key), key, k) == WithKey(s[1..], key, k) + (if key(x) == k then [x] else [])
    ensures WithKey(Insert(x, s, key), key, k) == WithKey(s, key, k) + (if key(x) == k then [x] else [])
  {
    var own := if key(x) == k then [x] else [];
    var head := if key(s[0]) == k then [s[0]] else [];
    var rest := Insert(x, s[1..], key);
    assert Insert(x, s, key) == [s[0]] + rest;
    assert ([s[0]] + rest)[1..] == rest;
    WithKeyFirst([s[0]] + rest, key, k);
    WithKeyFirst(s, key, k);
    ConcatAssociative(head, WithKey(s[1..], key, k), own);
  }

  lemma WithKeyFirst<T>(s: seq<T>, key: T -> real, k: real)
    requires |s| > 0
    ensures WithKey(s, key, k) == (if key(s[0]) == k then [s[0]] else []) + WithKey(s[1..], key, k)
  {
  }

  lemma WithKeySingle<T>(x: T, key: T -> real, k: real)
    ensures WithKey([x], key, k) == if key(x) == k then [x] else []
  {
    assert [x][1..] == [];
  }

  /** Elements with equal keys come out in the order they went in. */
  lemma {:induction false} StableSortIsStable<T>(s: seq<T>, key: T -> real, k: real)
    ensures WithKey(StableSort(s, key), key, k) == WithKey(s, key, k)
    decreases |s|
  {
    if |s| > 0 {
      var init, last := s[..|s| - 1], s[|s| - 1];
      var tail := if key(last) == k then [last] else [];
      StableSortIsStable(init, key, k);
      InsertWithKey(last, StableSort(init, key), key, k);
      assert StableSort(s, key) == Insert(last, StableSort(init, key), key);
      WithKeyAppend(init, [last], key, k);
      WithKeySingle(last, key, k);
      SplitLast(s);
    }
  }
}
