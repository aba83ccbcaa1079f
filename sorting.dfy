/**
 * JavaScript's Array.prototype.sort is stable (ECMAScript 2019 and later). Every
 * sort in the system orders records newest-first by a timestamp, through a
 * comparator of the shape `(a, b) => key(b) - key(a)`. This module gives that
 * sort a stable insertion-sort definition and proves what callers rely on: the
 * result is ordered, it is a permutation of the input, and records with equal
 * keys keep their input order.
 */
module Sorting {
  import opened Seqs

  /** Ordered by `key`, largest first. */
  ghost predicate SortedDesc<T>(s: seq<T>, key: T -> int) {
    forall i, j :: 0 <= i < j < |s| ==> key(s[j]) <= key(s[i])
  }

  /** Places `x` before the first element whose key does not exceed its own. */
  function Insert<T>(x: T, s: seq<T>, key: T -> int): (r: seq<T>)
    ensures |r| == |s| + 1
    ensures multiset(r) == multiset(s) + multiset{x}
  {
    if s == [] || key(s[0]) <= key(x) then [x] + s
    else
      assert s == [s[0]] + s[1..];
      [s[0]] + Insert(x, s[1..], key)
  }

  /** The array sorted newest-first; equal keys keep their input order. */
  function SortDesc<T>(s: seq<T>, key: T -> int): (r: seq<T>)
    ensures |r| == |s|
    ensures multiset(r) == multiset(s)
  {
    if s == [] then []
    else
      assert s == [s[0]] + s[1..];
      Insert(s[0], SortDesc(s[1..], key), key)
  }

  lemma {:induction false} InsertSorted<T>(x: T, s: seq<T>, key: T -> int)
    requires SortedDesc(s, key)
    ensures SortedDesc(Insert(x, s, key), key)
    ensures Insert(x, s, key) != [] && (Insert(x, s, key)[0] == x || (s != [] && Insert(x, s, key)[0] == s[0]))
  {
    if s == [] || key(s[0]) <= key(x) {
    } else {
      InsertSorted(x, s[1..], key);
      var t := Insert(x, s[1..], key);
      var r := [s[0]] + t;
      assert r == Insert(x, s, key);
      forall i, j | 0 <= i < j < |r| ensures key(r[j]) <= key(r[i]) {
        if i == 0 {
          if t[0] == x {
            assert key(x) < key(s[0]);
          } else {
            assert key(s[1]) <= key(s[0]);
          }
          assert key(r[j]) <= key(t[0]) by {
            if j > 1 { assert key(t[j - 1]) <= key(t[0]); }
          }
        } else {
          assert key(t[j - 1]) <= key(t[i - 1]);
        }
      }
    }
  }

  /** The sort yields a newest-first order. */
  lemma {:induction false} SortDescSorted<T>(s: seq<T>, key: T -> int)
    ensures SortedDesc(SortDesc(s, key), key)
  {
    if s != [] {
      SortDescSorted(s[1..], key);
      InsertSorted(s[0], SortDesc(s[1..], key), key);
    }
  }

  /** Exactly the elements of `s` whose key is `k`, in their order in `s`. */
  function WithKey<T>(s: seq<T>, key: T -> int, k: int): (r: seq<T>)
    ensures forall x :: x in r ==> x in s && key(x) == k
  {
    Filter(s, HasKey(key, k))
  }

  function HasKey<T>(key: T -> int, k: int): T -> bool {
    (x: T) => key(x) == k
  }

  lemma {:induction false} InsertStable<T>(x: T, s: seq<T>, key: T -> int, k: int)
    ensures WithKey(Insert(x, s, key), key, k) == Filter([x], HasKey(key, k)) + WithKey(s, key, k)
  {
    var p := HasKey(key, k);
    if s == [] || key(s[0]) <= key(x) {
      FilterAppend([x], s, p);
    } else {
      var t := Insert(x, s[1..], key);
      InsertStable(x, s[1..], key, k);
      assert Insert(x, s, key) == [s[0]] + t;
      assert s == [s[0]] + s[1..];
      FilterSingle(x, p);
      FilterSingle(s[0], p);
      MoveKept(s[0], x, t, s[1..], p);
    }
  }

  /**
   * The inductive step of stability: `a` goes in front of a list that gained
   * `x` somewhere, and at most one of `a` and `x` is kept.
   */
  lemma MoveKept<T>(a: T, x: T, t: seq<T>, rest: seq<T>, p: T -> bool)
    requires Filter(t, p) == Filter([x], p) + Filter(rest, p)
    requires Filter([a], p) == [] || Filter([x], p) == []
    ensures Filter([a] + t, p) == Filter([x], p) + Filter([a] + rest, p)
  {
    FilterAppend([a], t, p);
    FilterAppend([a], rest, p);
    SwapEmpty(Filter([a], p), Filter([x], p), Filter(rest, p));
  }

  /** Of two pieces at least one of which is empty, either may come first. */
  lemma SwapEmpty<T>(a: seq<T>, b: seq<T>, rest: seq<T>)
    requires a == [] || b == []
    ensures a + (b + rest) == b + (a + rest)
  {
    if a == [] {
      assert a + (b + rest) == b + rest;
      assert a + rest == rest;
    } else {
      assert b + (a + rest) == a + rest;
      assert b + rest == rest;
    }
  }

  lemma FilterSingle<T>(x: T, p: T -> bool)
    ensures Filter([x], p) == if p(x) then [x] else []
  {
    assert [x][1..] == [];
  }

  /** Stability: among records with equal keys the sort keeps input order. */
  lemma {:induction false} SortDescStable<T>(s: seq<T>, key: T -> int, k: int)
    ensures WithKey(SortDesc(s, key), key, k) == WithKey(s, key, k)
  {
    if s != [] {
      SortDescStable(s[1..], key, k);
      InsertStable(s[0], SortDesc(s[1..], key), key, k);
    }
  }
}
