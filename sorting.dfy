/**
 * `[...xs].sort(cmp)` where `cmp(a, b)` is `key(a) - key(b)` for an integer key.
 * Every comparator in the client sorts has that shape: a difference of timestamps or
 * sizes, its negation for descending order (`-(key(a) - key(b))` is the difference of
 * the negated keys), or `localeCompare`, modelled as comparing collation keys.
 */
module Sorting {

  ghost predicate SortedByKey<T>(s: seq<T>, key: T -> int) {
    forall i, j :: 0 <= i < j < |s| ==> key(s[i]) <= key(s[j])
  }

  /** Inserts `x` before the first element whose key is not smaller. */
  function Insert<T>(x: T, s: seq<T>, key: T -> int): (r: seq<T>)
    requires SortedByKey(s, key)
    ensures SortedByKey(r, key)
    ensures multiset(r) == multiset(s) + multiset{x}
    ensures |r| == |s| + 1
    ensures forall k :: 0 <= k < |r| ==> r[k] == x || r[k] in s
  {
    if s == [] then [x]
    else if key(x) <= key(s[0]) then
      SmallestFirst(x, s, key);
      [x] + s
    else
      var rest := Insert(x, s[1..], key);
      HeadBeforeRest(s, rest, x, key);
      [s[0]] + rest
  }

  /** An element no larger than the head of a sorted list may go in front of it. */
  lemma SmallestFirst<T>(x: T, s: seq<T>, key: T -> int)
    requires |s| > 0 && SortedByKey(s, key) && key(x) <= key(s[0])
    ensures SortedByKey([x] + s, key)
    ensures forall k :: 0 <= k < |[x] + s| ==> ([x] + s)[k] == x || ([x] + s)[k] in s
  {
    var r := [x] + s;
    forall i, j | 0 <= i < j < |r| ensures key(r[i]) <= key(r[j]) {
      assert r[j] == s[j - 1];
      if i > 0 {
        assert r[i] == s[i - 1];
      }
    }
  }

  /** The head of a sorted list stays sorted in front of what the rest became after an insertion. */
  lemma HeadBeforeRest<T>(s: seq<T>, rest: seq<T>, x: T, key: T -> int)
    requires |s| > 0 && SortedByKey(s, key) && SortedByKey(rest, key) && key(s[0]) < key(x)
    requires forall k :: 0 <= k < |rest| ==> rest[k] == x || rest[k] in s[1..]
    ensures SortedByKey([s[0]] + rest, key)
    ensures forall k :: 0 <= k < |rest| ==> rest[k] == x || rest[k] in s
    ensures multiset([s[0]] + rest) == multiset{s[0]} + multiset(rest)
    ensures multiset(s) == multiset{s[0]} + multiset(s[1..])
  {
    assert s == [s[0]] + s[1..];
    forall k | 0 <= k < |rest| ensures key(s[0]) <= key(rest[k]) && (rest[k] == x || rest[k] in s) {
      if rest[k] != x {
        var j :| 0 <= j < |s[1..]| && s[1..][j] == rest[k];
        assert s[j + 1] == rest[k];
      }
    }
    var r := [s[0]] + rest;
    forall i, j | 0 <= i < j < |r| ensures key(r[i]) <= key(r[j]) {
      assert r[j] == rest[j - 1];
      if i > 0 {
        assert r[i] == rest[i - 1];
      }
    }
  }

  /** A stable insertion sort: the order JavaScript's sort produces. */
  function SortByKey<T>(s: seq<T>, key: T -> int): (r: seq<T>)
    ensures SortedByKey(r, key)
    ensures multiset(r) == multiset(s)
    ensures |r| == |s|
  {
    if s == [] then []
    else
      assert s == [s[0]] + s[1..];
      Insert(s[0], SortByKey(s[1..], key), key)
  }

  /** Sorting neither adds nor loses an element: a value is in the result iff it is in the input. */
  lemma SortKeepsElements<T>(s: seq<T>, key: T -> int)
    ensures forall x :: x in SortByKey(s, key) <==> x in s
  {
    var r := SortByKey(s, key);
    forall x ensures x in r <==> x in s {
      assert x in r <==> x in multiset(r);
      assert x in s <==> x in multiset(s);
    }
  }
}
