/**
 * Ordering of result sets. Every `ORDER BY` of the endpoints and the
 * JavaScript `sort` calls are modelled as a stable insertion sort under a
 * total preorder; the contracts promise only what an SQL engine promises
 * (sorted, a permutation), never which of two equal rows comes first.
 */
module Sorting {

  ghost predicate TotalPreorder<T(!new)>(le: (T, T) -> bool) {
    (forall a, b :: le(a, b) || le(b, a))
    && (forall a, b, c :: le(a, b) && le(b, c) ==> le(a, c))
  }

  predicate SortedBy<T>(s: seq<T>, le: (T, T) -> bool) {
    forall i, j :: 0 <= i < j < |s| ==> le(s[i], s[j])
  }

  /** Puts `x` after the leading elements that come strictly before it. */
  function Insert<T(!new)>(x: T, s: seq<T>, le: (T, T) -> bool): (r: seq<T>)
    requires TotalPreorder(le) && SortedBy(s, le)
    ensures SortedBy(r, le)
    ensures multiset(r) == multiset(s) + multiset{x}
    ensures |r| == |s| + 1
    decreases |s|
  {
    if |s| == 0 then [x]
    else if le(x, s[0]) then [x] + s
    else
      var tail := Insert(x, s[1..], le);
      HeadBeforeAll(x, s, tail, le);
      ConsSorted(s[0], tail, le);
      assert s == [s[0]] + s[1..];
      [s[0]] + tail
  }

  /** The head of a sorted `s` comes before every element of `s[1..]` and before any `x` it does not follow. */
  lemma HeadBeforeAll<T(!new)>(x: T, s: seq<T>, tail: seq<T>, le: (T, T) -> bool)
    requires TotalPreorder(le) && SortedBy(s, le) && |s| > 0 && !le(x, s[0])
    requires multiset(tail) == multiset(s[1..]) + multiset{x}
    ensures forall k :: 0 <= k < |tail| ==> le(s[0], tail[k])
  {
    forall k | 0 <= k < |tail| ensures le(s[0], tail[k]) {
      assert tail[k] in multiset(tail);
      if tail[k] in multiset(s[1..]) {
        var m :| 0 <= m < |s[1..]| && s[1..][m] == tail[k];
        assert s[m + 1] == tail[k];
      }
    }
  }

  lemma ConsSorted<T>(h: T, tail: seq<T>, le: (T, T) -> bool)
    requires SortedBy(tail, le) && forall k :: 0 <= k < |tail| ==> le(h, tail[k])
    ensures SortedBy([h] + tail, le)
  {
    var r := [h] + tail;
    forall i, j | 0 <= i < j < |r| ensures le(r[i], r[j]) {
      assert r[j] == tail[j - 1];
      if i > 0 {
        assert r[i] == tail[i - 1];
      }
    }
  }

  /** Insertion sort: a sorted permutation of `s`. */
  function SortBy<T(!new)>(s: seq<T>, le: (T, T) -> bool): (r: seq<T>)
    requires TotalPreorder(le)
    ensures SortedBy(r, le)
    ensures multiset(r) == multiset(s)
    ensures |r| == |s|
    decreases |s|
  {
    if |s| == 0 then []
    else
      assert s == s[..|s| - 1] + [s[|s| - 1]];
      Insert(s[|s| - 1], SortBy(s[..|s| - 1], le), le)
  }

  /** Sorting keeps exactly the elements it was given. */
  lemma SortByMembers<T(!new)>(s: seq<T>, le: (T, T) -> bool, x: T)
    requires TotalPreorder(le)
    ensures x in SortBy(s, le) <==> x in s
  {
    var r := SortBy(s, le);
    assert x in r <==> x in multiset(r);
    assert x in s <==> x in multiset(s);
  }
}
