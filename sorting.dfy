/** Python's `sorted(xs, key=...)` on an integer key: a stable sort, written as insertion sort. */
module Sorting {

  ghost predicate SortedBy<T>(s: seq<T>, key: T -> int)
  {
    forall i, j :: 0 <= i < j < |s| ==> key(s[i]) <= key(s[j])
  }

  /** Inserts `x` after every leading element whose key is at most `key(x)`, which keeps the sort stable. */
  function InsertBy<T>(s: seq<T>, x: T, key: T -> int): (r: seq<T>)
    ensures multiset(r) == multiset(s) + multiset{x}
    ensures |r| == |s| + 1
  {
    if s == [] then [x]
    else if key(x) < key(s[0]) then [x] + s
    else
      assert s == [s[0]] + s[1..];
      [s[0]] + InsertBy(s[1..], x, key)
  }

  /** Every key in `s` is at least `lo`. */
  ghost predicate KeysAtLeast<T>(s: seq<T>, key: T -> int, lo: int)
  {
    forall i :: 0 <= i < |s| ==> lo <= key(s[i])
  }

  /** Every key in `s` is at most `hi`. */
  ghost predicate KeysAtMost<T>(s: seq<T>, key: T -> int, hi: int)
  {
    forall i :: 0 <= i < |s| ==> key(s[i]) <= hi
  }

  /** Inserting an element no smaller than a lower bound keeps the bound. */
  lemma {:induction false} InsertByAtLeast<T>(s: seq<T>, x: T, key: T -> int, lo: int)
    requires KeysAtLeast(s, key, lo) && lo <= key(x)
    ensures KeysAtLeast(InsertBy(s, x, key), key, lo)
  {
    if s != [] && key(x) >= key(s[0]) {
      var tail := s[1..];
      assert forall i :: 0 <= i < |tail| ==> tail[i] == s[i + 1];
      InsertByAtLeast(tail, x, key, lo);
      var r := [s[0]] + InsertBy(tail, x, key);
      assert forall i :: 0 < i < |r| ==> r[i] == InsertBy(tail, x, key)[i - 1];
    }
  }

  /** Inserting into a sorted sequence keeps it sorted. */
  lemma {:induction false} InsertBySorted<T>(s: seq<T>, x: T, key: T -> int)
    requires SortedBy(s, key)
    ensures SortedBy(InsertBy(s, x, key), key)
  {
    if s == [] {
    } else if key(x) < key(s[0]) {
      var r := [x] + s;
      forall i, j | 0 <= i < j < |r|
        ensures key(r[i]) <= key(r[j])
      {
        assert r[j] == s[j - 1];
        if i > 0 {
          assert r[i] == s[i - 1];
        } else {
          assert j - 1 == 0 || key(s[0]) <= key(s[j - 1]);
        }
      }
    } else {
      var tail := s[1..];
      var rest := InsertBy(tail, x, key);
      InsertBySorted(tail, x, key);
      assert KeysAtLeast(tail, key, key(s[0])) by {
        forall i | 0 <= i < |tail|
          ensures key(s[0]) <= key(tail[i])
        {
          assert tail[i] == s[i + 1];
        }
      }
      InsertByAtLeast(tail, x, key, key(s[0]));
      var r := [s[0]] + rest;
      forall i, j | 0 <= i < j < |r|
        ensures key(r[i]) <= key(r[j])
      {
        assert r[j] == rest[j - 1];
        if i > 0 {
          assert r[i] == rest[i - 1];
        }
      }
    }
  }

  /** Insertion sort: each element in turn is inserted into the sorted elements before it. */
  function SortBy<T>(s: seq<T>, key: T -> int): (r: seq<T>)
    ensures multiset(r) == multiset(s)
    ensures |r| == |s|
  {
    if s == [] then []
    else
      assert s == s[..|s| - 1] + [s[|s| - 1]];
      InsertBy(SortBy(s[..|s| - 1], key), s[|s| - 1], key)
  }

  /** The result of sorting is sorted by the key. */
  lemma {:induction false} SortBySorted<T>(s: seq<T>, key: T -> int)
    ensures SortedBy(SortBy(s, key), key)
  {
    if s != [] {
      SortBySorted(s[..|s| - 1], key);
      InsertBySorted(SortBy(s[..|s| - 1], key), s[|s| - 1], key);
    }
  }

  /** An element whose key is at least every other key goes to the end. */
  lemma {:induction false} InsertLast<T>(s: seq<T>, x: T, key: T -> int)
    requires KeysAtMost(s, key, key(x))
    ensures InsertBy(s, x, key) == s + [x]
  {
    if s != [] {
      var tail := s[1..];
      assert forall i :: 0 <= i < |tail| ==> tail[i] == s[i + 1];
      InsertLast(tail, x, key);
      assert s == [s[0]] + tail;
    }
  }

  /** Sorting an already sorted sequence leaves it as it is. */
  lemma {:induction false} SortSorted<T>(s: seq<T>, key: T -> int)
    requires SortedBy(s, key)
    ensures SortBy(s, key) == s
  {
    if s != [] {
      var init, last := s[..|s| - 1], s[|s| - 1];
      SortedSplit(s, key);
      calc {
        SortBy(s, key);
        InsertBy(SortBy(init, key), last, key);
        { SortSorted(init, key); }
        InsertBy(init, last, key);
        { InsertLast(init, last, key); }
        init + [last];
        s;
      }
    }
  }

  /** A sorted sequence without its last element is sorted, and that element has the largest key. */
  lemma SortedSplit<T>(s: seq<T>, key: T -> int)
    requires SortedBy(s, key) && s != []
    ensures SortedBy(s[..|s| - 1], key)
    ensures KeysAtMost(s[..|s| - 1], key, key(s[|s| - 1]))
  {
    var init := s[..|s| - 1];
    assert forall i :: 0 <= i < |init| ==> init[i] == s[i];
  }
}
