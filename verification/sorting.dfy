/**
 * The ordering step that std::sort performs for the layering and the
 * population: a stable insertion sort by a real-valued key, specified as a
 * permutation that is non-decreasing in the key.
 */
module Sorting {

  ghost predicate SortedBy<T>(s: seq<T>, key: T -> real)
  {
    forall i, j :: 0 <= i < j < |s| ==> key(s[i]) <= key(s[j])
  }

  /** Inserts x before the first element whose key is not smaller. */
  function InsertBy<T>(x: T, s: seq<T>, key: T -> real): (r: seq<T>)
    requires SortedBy(s, key)
    ensures multiset(r) == multiset(s) + multiset{x}
    ensures SortedBy(r, key)
    decreases |s|
  {
    if s == [] || key(x) <= key(s[0]) then
      [x] + s
    else
      var rest := InsertBy(x, s[1..], key);
      assert s == [s[0]] + s[1..];
      ConsSorted(s[0], s[1..], x, rest, key);
      [s[0]] + rest
  }

  /** Putting h in front keeps order when h's key is at most every key that follows. */
  lemma ConsSorted<T>(h: T, t: seq<T>, x: T, rest: seq<T>, key: T -> real)
    requires SortedBy([h] + t, key) && key(h) <= key(x)
    requires SortedBy(rest, key) && multiset(rest) == multiset(t) + multiset{x}
    ensures SortedBy([h] + rest, key)
  {
    forall k | 0 <= k < |rest|
      ensures key(h) <= key(rest[k])
    {
      assert rest[k] in multiset(rest);
      if rest[k] != x {
        assert rest[k] in multiset(t);
        var m :| 0 <= m < |t| && t[m] == rest[k];
        var ht := [h] + t;
        assert ht[0] == h && ht[m + 1] == t[m];
        assert key(ht[0]) <= key(ht[m + 1]);
      }
    }
    var r := [h] + rest;
    forall i, j | 0 <= i < j < |r|
      ensures key(r[i]) <= key(r[j])
    {
      if i > 0 {
        assert r[i] == rest[i - 1] && r[j] == rest[j - 1];
      } else {
        assert r[j] == rest[j - 1];
      }
    }
  }

  /** A permutation of s in non-decreasing key order. */
  function SortBy<T>(s: seq<T>, key: T -> real): (r: seq<T>)
    ensures multiset(r) == multiset(s)
    ensures SortedBy(r, key)
    decreases |s|
  {
    if s == [] then
      []
    else
      assert s == [s[0]] + s[1..];
      InsertBy(s[0], SortBy(s[1..], key), key)
  }

  lemma SortedLength<T>(s: seq<T>, key: T -> real)
    ensures |SortBy(s, key)| == |s|
  {
    calc {
      |SortBy(s, key)|;
      |multiset(SortBy(s, key))|;
      |multiset(s)|;
      |s|;
    }
  }
}
