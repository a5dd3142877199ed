/**
 * A stable sort of a sequence by an integer key, the behaviour the scheduler
 * relies on from the host's array sort (stable since ECMAScript 2019): the
 * result is ordered by key, is a permutation of the input, and elements with
 * equal keys keep their input order.
 */
module Sorting {

  /** Elements of s appear in non-decreasing order of key. */
  predicate SortedBy<T>(s: seq<T>, key: T -> int) {
    forall i, j :: 0 <= i < j < |s| ==> key(s[i]) <= key(s[j])
  }

  /** No two positions of s have the same f-value. */
  predicate KeysDistinct<T>(s: seq<T>, f: T -> int) {
    forall i, j :: 0 <= i < j < |s| ==> f(s[i]) != f(s[j])
  }

  /** No two positions of s hold the same element. */
  predicate Distinct<T(==)>(s: seq<T>) {
    forall a, b :: 0 <= a < b < |s| ==> s[a] != s[b]
  }

  /** The subsequence of s made of the elements whose key is k. */
  function WithKey<T>(s: seq<T>, key: T -> int, k: int): seq<T> {
    if s == [] then [] else (if key(s[0]) == k then [s[0]] else []) + WithKey(s[1..], key, k)
  }

  /** f applied to every element of s, in order. */
  function Map<T, U>(s: seq<T>, f: T -> U): (r: seq<U>)
    ensures |r| == |s|
    ensures forall i :: 0 <= i < |s| ==> r[i] == f(s[i])
  {
    if s == [] then [] else [f(s[0])] + Map(s[1..], f)
  }

  /**
   * Inserts x in front of the first element of s whose key is not smaller,
   * so x precedes every element with the same key.
   */
  function Insert<T>(x: T, s: seq<T>, key: T -> int): seq<T> {
    if s == [] || key(x) <= key(s[0]) then [x] + s else [s[0]] + Insert(x, s[1..], key)
  }

  lemma {:induction false} InsertPermutes<T>(x: T, s: seq<T>, key: T -> int)
    ensures multiset(Insert(x, s, key)) == multiset(s) + multiset{x}
  {
    if s != [] && key(x) > key(s[0]) {
      InsertPermutes(x, s[1..], key);
      assert s == [s[0]] + s[1..];
    }
  }

  /** Prepending a to a sorted sequence whose keys are all at least key(a) keeps it sorted. */
  lemma PrependSorted<T>(a: T, s: seq<T>, key: T -> int)
    requires SortedBy(s, key)
    requires forall y :: y in s ==> key(a) <= key(y)
    ensures SortedBy([a] + s, key)
  {
    var r := [a] + s;
    forall i, j | 0 <= i < j < |r| ensures key(r[i]) <= key(r[j]) {
      assert r[j] == s[j - 1];
      if i > 0 {
        assert r[i] == s[i - 1];
      }
    }
  }

  lemma {:induction false} InsertSorted<T>(x: T, s: seq<T>, key: T -> int)
    requires SortedBy(s, key)
    ensures SortedBy(Insert(x, s, key), key)
  {
    if s == [] || key(x) <= key(s[0]) {
      forall y | y in s ensures key(x) <= key(y) {
        var m :| 0 <= m < |s| && s[m] == y;
        assert key(s[0]) <= key(s[m]) || m == 0;
      }
      PrependSorted(x, s, key);
    } else {
      var tail := s[1..];
      assert SortedBy(tail, key) by {
        forall i, j | 0 <= i < j < |tail| ensures key(tail[i]) <= key(tail[j]) {
          assert tail[i] == s[i + 1] && tail[j] == s[j + 1];
        }
      }
      InsertSorted(x, tail, key);
      InsertPermutes(x, tail, key);
      var rest := Insert(x, tail, key);
      forall y | y in rest ensures key(s[0]) <= key(y) {
        assert y in multiset(rest);
        if y != x {
          var m :| 0 <= m < |tail| && tail[m] == y;
          assert s[m + 1] == y;
        }
      }
      PrependSorted(s[0], rest, key);
    }
  }

  /** Insertion sort by key; the earlier of two equal-key elements is inserted last and so stays in front. */
  function SortBy<T>(s: seq<T>, key: T -> int): (r: seq<T>)
    ensures SortedBy(r, key)
    ensures multiset(r) == multiset(s)
  {
    if s == [] then []
    else
      var sorted := SortBy(s[1..], key);
      InsertSorted(s[0], sorted, key);
      InsertPermutes(s[0], sorted, key);
      assert s == [s[0]] + s[1..];
      Insert(s[0], sorted, key)
  }

  lemma {:induction false} InsertStable<T>(x: T, s: seq<T>, key: T -> int, k: int)
    ensures WithKey(Insert(x, s, key), key, k) == (if key(x) == k then [x] else []) + WithKey(s, key, k)
  {
    var mine := if key(x) == k then [x] else [];
    if s == [] || key(x) <= key(s[0]) {
      assert ([x] + s)[1..] == s;
    } else {
      var rest := Insert(x, s[1..], key);
      InsertStable(x, s[1..], key, k);
      var head := if key(s[0]) == k then [s[0]] else [];
      // s[0] has a smaller key than x, so at most one of head and mine is non-empty
      assert head + mine == mine + head;
      assert ([s[0]] + rest)[1..] == rest;
      calc {
        WithKey(Insert(x, s, key), key, k);
        head + WithKey(rest, key, k);
        head + (mine + WithKey(s[1..], key, k));
        mine + (head + WithKey(s[1..], key, k));
      }
    }
  }

  /** Sorting keeps the relative order of the elements that share a key. */
  lemma {:induction false} SortByStable<T>(s: seq<T>, key: T -> int, k: int)
    ensures WithKey(SortBy(s, key), key, k) == WithKey(s, key, k)
  {
    if s != [] {
      SortByStable(s[1..], key, k);
      InsertStable(s[0], SortBy(s[1..], key), key, k);
    }
  }

  lemma {:induction false} InsertMap<T, U>(x: T, s: seq<T>, key: T -> int, f: T -> U)
    ensures multiset(Map(Insert(x, s, key), f)) == multiset(Map(s, f)) + multiset{f(x)}
  {
    if s == [] || key(x) <= key(s[0]) {
      assert Map([x] + s, f) == [f(x)] + Map(s, f);
    } else {
      var rest := Insert(x, s[1..], key);
      InsertMap(x, s[1..], key, f);
      assert Insert(x, s, key) == [s[0]] + rest;
      assert Map([s[0]] + rest, f) == [f(s[0])] + Map(rest, f) by {
        assert ([s[0]] + rest)[1..] == rest;
      }
      assert Map(s, f) == [f(s[0])] + Map(s[1..], f);
    }
  }

  /** Sorting permutes any projection of the elements along with them. */
  lemma {:induction false} SortByMap<T, U>(s: seq<T>, key: T -> int, f: T -> U)
    ensures multiset(Map(SortBy(s, key), f)) == multiset(Map(s, f))
  {
    if s != [] {
      SortByMap(s[1..], key, f);
      InsertMap(s[0], SortBy(s[1..], key), key, f);
      assert Map(s, f) == [f(s[0])] + Map(s[1..], f);
    }
  }

  lemma {:induction false} InsertDistinct<T>(x: T, s: seq<T>, key: T -> int, f: T -> int)
    requires KeysDistinct([x] + s, f)
    ensures KeysDistinct(Insert(x, s, key), f)
  {
    if s == [] || key(x) <= key(s[0]) {
    } else {
      var tail := s[1..];
      assert KeysDistinct([x] + tail, f) by {
        forall i, j | 0 <= i < j < |[x] + tail| ensures f(([x] + tail)[i]) != f(([x] + tail)[j]) {
          assert ([x] + tail)[i] == ([x] + s)[if i == 0 then 0 else i + 1];
          assert ([x] + tail)[j] == ([x] + s)[j + 1];
        }
      }
      InsertDistinct(x, tail, key, f);
      InsertPermutes(x, tail, key);
      var rest := Insert(x, tail, key);
      forall y | y in rest ensures f(y) != f(s[0]) {
        assert y in multiset(rest);
        if y != x {
          assert y in tail;
          var m :| 0 <= m < |tail| && tail[m] == y;
          assert ([x] + s)[1] == s[0] && ([x] + s)[m + 2] == y;
        } else {
          assert ([x] + s)[0] == x && ([x] + s)[1] == s[0];
        }
      }
      var r := [s[0]] + rest;
      forall i, j | 0 <= i < j < |r| ensures f(r[i]) != f(r[j]) {
        if i > 0 {
          assert r[i] == rest[i - 1] && r[j] == rest[j - 1];
        } else {
          assert r[j] in rest;
        }
      }
    }
  }

  /** Sorting by one key keeps any other key distinct when it was distinct before. */
  lemma {:induction false} SortByDistinct<T>(s: seq<T>, key: T -> int, f: T -> int)
    requires KeysDistinct(s, f)
    ensures KeysDistinct(SortBy(s, key), f)
  {
    if s != [] {
      var tail := s[1..];
      assert KeysDistinct(tail, f) by {
        forall i, j | 0 <= i < j < |tail| ensures f(tail[i]) != f(tail[j]) {
          assert tail[i] == s[i + 1] && tail[j] == s[j + 1];
        }
      }
      SortByDistinct(tail, key, f);
      var sorted := SortBy(tail, key);
      var r := [s[0]] + sorted;
      forall i, j | 0 <= i < j < |r| ensures f(r[i]) != f(r[j]) {
        if i > 0 {
          assert r[i] == sorted[i - 1] && r[j] == sorted[j - 1];
        } else {
          assert r[j] in multiset(sorted);
          assert r[j] in tail;
          var m :| 0 <= m < |tail| && tail[m] == r[j];
          assert s[m + 1] == r[j];
        }
      }
      InsertDistinct(s[0], sorted, key, f);
    }
  }
}
