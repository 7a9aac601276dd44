/**
 * `GROUP BY key` with `SUM(amount)`, as every aggregate query of the
 * endpoints uses it. A group is an `Entry`; the items fed to the grouping are
 * entries too (one per matched row, holding that row's key and amount).
 */
module Grouping {
  import opened Wrappers
  import Collections

  datatype Entry<K> = Entry(key: K, amount: int)

  predicate HasKey<K(==,!new)>(es: seq<Entry<K>>, k: K) {
    exists i :: 0 <= i < |es| && es[i].key == k
  }

  predicate DistinctKeys<K(==,!new)>(es: seq<Entry<K>>) {
    forall i, j :: 0 <= i < j < |es| ==> es[i].key != es[j].key
  }

  /** The condition "the key is `k`". */
  function Is<K(==)>(k: K): K -> bool {
    x => x == k
  }

  /** Sum of the amounts whose key satisfies `p`. */
  function SumWhere<K>(es: seq<Entry<K>>, p: K -> bool): int
    decreases |es|
  {
    if |es| == 0 then 0 else (if p(es[0].key) then es[0].amount else 0) + SumWhere(es[1..], p)
  }

  /** Sum of all amounts. */
  function Total<K>(es: seq<Entry<K>>): int
    decreases |es|
  {
    if |es| == 0 then 0 else es[0].amount + Total(es[1..])
  }

  lemma HasKeyCons<K(!new)>(e: Entry<K>, es: seq<Entry<K>>)
    ensures forall k :: HasKey([e] + es, k) <==> e.key == k || HasKey(es, k)
  {
    forall k ensures HasKey([e] + es, k) ==> e.key == k || HasKey(es, k) {
      if HasKey([e] + es, k) && e.key != k {
        var i :| 0 <= i < |[e] + es| && ([e] + es)[i].key == k;
        assert es[i - 1].key == k;
      }
    }
    assert ([e] + es)[0].key == e.key;
    forall k | HasKey(es, k) ensures HasKey([e] + es, k) {
      var i :| 0 <= i < |es| && es[i].key == k;
      assert ([e] + es)[i + 1].key == k;
    }
  }

  /** Adds `amount` to the group of `key`, opening the group at the end when it is new. */
  function Add<K(==,!new)>(es: seq<Entry<K>>, key: K, amount: int): (r: seq<Entry<K>>)
    ensures |r| == if HasKey(es, key) then |es| else |es| + 1
    ensures DistinctKeys(es) ==> DistinctKeys(r)
    ensures forall k :: HasKey(r, k) <==> HasKey(es, k) || k == key
    decreases |es|
  {
    if |es| == 0 then
      assert [Entry(key, amount)][0].key == key;
      [Entry(key, amount)]
    else
      assert es == [es[0]] + es[1..];
      HasKeyCons(es[0], es[1..]);
      if es[0].key == key then
        HasKeyCons(Entry(key, es[0].amount + amount), es[1..]);
        [Entry(key, es[0].amount + amount)] + es[1..]
      else
        var tail := Add(es[1..], key, amount);
        HasKeyCons(es[0], tail);
        assert DistinctKeys(es) ==> !HasKey(es[1..], es[0].key);
        assert DistinctKeys(es) ==> !HasKey(tail, es[0].key);
        [es[0]] + tail
  }

  /** Adding to a group changes exactly the sums whose predicate holds of that group's key. */
  lemma {:induction false} AddSumWhere<K(!new)>(es: seq<Entry<K>>, key: K, amount: int, p: K -> bool)
    ensures SumWhere(Add(es, key, amount), p) == SumWhere(es, p) + (if p(key) then amount else 0)
    decreases |es|
  {
    if |es| > 0 && es[0].key != key {
      AddSumWhere(es[1..], key, amount, p);
      assert ([es[0]] + Add(es[1..], key, amount))[1..] == Add(es[1..], key, amount);
    } else if |es| > 0 {
      assert ([Entry(key, es[0].amount + amount)] + es[1..])[1..] == es[1..];
    }
  }

  /** `GROUP BY` with `SUM`: every item is folded into its group, left to right. */
  function GroupAll<K(==,!new)>(items: seq<Entry<K>>): (r: seq<Entry<K>>)
    ensures DistinctKeys(r)
    ensures forall k :: HasKey(r, k) <==> HasKey(items, k)
    decreases |items|
  {
    if |items| == 0 then []
    else
      var init := items[..|items| - 1];
      var last := items[|items| - 1];
      assert forall k :: HasKey(items, k) <==> HasKey(init, k) || last.key == k by {
        forall k | HasKey(init, k) ensures HasKey(items, k) {
          var i :| 0 <= i < |init| && init[i].key == k;
          assert items[i].key == k;
        }
      }
      Add(GroupAll(init), last.key, last.amount)
  }

  lemma {:induction false} SumWhereSnoc<K>(es: seq<Entry<K>>, e: Entry<K>, p: K -> bool)
    ensures SumWhere(es + [e], p) == SumWhere(es, p) + (if p(e.key) then e.amount else 0)
    decreases |es|
  {
    if |es| == 0 {
      assert [e][1..] == [];
    } else {
      assert (es + [e])[1..] == es[1..] + [e];
      SumWhereSnoc(es[1..], e, p);
    }
  }

  /** Grouping loses and invents nothing: any conditional sum is the same before and after. */
  lemma {:induction false} GroupAllSumWhere<K(!new)>(items: seq<Entry<K>>, p: K -> bool)
    ensures SumWhere(GroupAll(items), p) == SumWhere(items, p)
    decreases |items|
  {
    if |items| > 0 {
      var init := items[..|items| - 1];
      var last := items[|items| - 1];
      GroupAllSumWhere(init, p);
      assert GroupAll(items) == Add(GroupAll(init), last.key, last.amount);
      AddSumWhere(GroupAll(init), last.key, last.amount, p);
      Collections.LastSplit(items);
      SumWhereSnoc(init, last, p);
    }
  }

  /** With distinct keys, the sum over one key is that key's amount. */
  lemma {:induction false} SumWhereOneKey<K(!new)>(es: seq<Entry<K>>, i: nat)
    requires DistinctKeys(es) && i < |es|
    ensures SumWhere(es, Is(es[i].key)) == es[i].amount
    decreases |es|
  {
    var key := es[i].key;
    if i == 0 {
      SumWhereNone(es[1..], key);
    } else {
      assert es[0].key != key;
      assert es[1..][i - 1] == es[i];
      SumWhereOneKey(es[1..], i - 1);
    }
  }

  lemma {:induction false} SumWhereNone<K(!new)>(es: seq<Entry<K>>, key: K)
    requires forall j :: 0 <= j < |es| ==> es[j].key != key
    ensures SumWhere(es, Is(key)) == 0
    decreases |es|
  {
    if |es| > 0 {
      SumWhereNone(es[1..], key);
    }
  }

  /** Each group's amount is the sum of the items carrying its key. */
  lemma GroupAllAmount<K(!new)>(items: seq<Entry<K>>, i: nat)
    requires i < |GroupAll(items)|
    ensures GroupAll(items)[i].amount == SumWhere(items, Is(GroupAll(items)[i].key))
  {
    SumWhereOneKey(GroupAll(items), i);
    GroupAllSumWhere(items, Is(GroupAll(items)[i].key));
  }

  /** Taking one entry out of a sequence takes its amount out of every sum it counts in. */
  lemma SumWhereRemove<K>(b: seq<Entry<K>>, m: nat, p: K -> bool)
    requires m < |b|
    ensures SumWhere(b, p) == (if p(b[m].key) then b[m].amount else 0) + SumWhere(b[..m] + b[m + 1..], p)
  {
    var x, y := b[..m], b[m + 1..];
    Collections.SplitAt(b, m);
    SumWhereSplit(x, b[m], y, p);
    SumWhereConcat(x, y, p);
  }

  /** A conditional sum does not depend on the order of the entries. */
  lemma {:induction false} SumWherePermutation<K>(a: seq<Entry<K>>, b: seq<Entry<K>>, p: K -> bool)
    requires multiset(a) == multiset(b)
    ensures SumWhere(a, p) == SumWhere(b, p)
    decreases |a|
  {
    if |a| == 0 {
      assert |b| == |multiset(b)| == 0;
    } else {
      RemoveMatching(b, a);
      var m :| 0 <= m < |b| && b[m] == a[0] && multiset(b[..m] + b[m + 1..]) == multiset(a[1..]);
      var rest := b[..m] + b[m + 1..];
      SumWherePermutation(a[1..], rest, p);
      SumWhereRemove(b, m, p);
    }
  }

  lemma {:induction false} SumWhereConcat<K>(a: seq<Entry<K>>, b: seq<Entry<K>>, p: K -> bool)
    ensures SumWhere(a + b, p) == SumWhere(a, p) + SumWhere(b, p)
    decreases |a|
  {
    if |a| == 0 {
      assert a + b == b;
    } else {
      assert (a + b)[1..] == a[1..] + b;
      SumWhereConcat(a[1..], b, p);
    }
  }

  lemma SumWhereSplit<K>(a: seq<Entry<K>>, e: Entry<K>, b: seq<Entry<K>>, p: K -> bool)
    ensures SumWhere(a + [e] + b, p) == SumWhere(a, p) + (if p(e.key) then e.amount else 0) + SumWhere(b, p)
  {
    SumWhereConcat(a + [e], b, p);
    SumWhereSnoc(a, e, p);
  }

  /** Keeps the groups whose amount is positive (`HAVING amount > 0`). */
  function Positive<K(!new)>(es: seq<Entry<K>>): (r: seq<Entry<K>>)
    ensures forall i :: 0 <= i < |r| ==> r[i].amount > 0
    ensures forall e :: e in r <==> e in es && e.amount > 0
    ensures multiset(r) <= multiset(es)
    decreases |es|
  {
    if |es| == 0 then []
    else
      assert es == [es[0]] + es[1..];
      (if es[0].amount > 0 then [es[0]] else []) + Positive(es[1..])
  }

  lemma DistinctKeysCons<K(!new)>(e: Entry<K>, es: seq<Entry<K>>)
    requires DistinctKeys(es)
    requires forall x :: x in es ==> x.key != e.key
    ensures DistinctKeys([e] + es)
  {
    var r := [e] + es;
    forall i, j | 0 <= i < j < |r| ensures r[i].key != r[j].key {
      assert r[j] == es[j - 1];
      if i > 0 {
        assert r[i] == es[i - 1];
      }
    }
  }

  /** Dropping groups keeps the others' keys distinct. */
  lemma {:induction false} PositiveDistinct<K(!new)>(es: seq<Entry<K>>)
    requires DistinctKeys(es)
    ensures DistinctKeys(Positive(es))
    decreases |es|
  {
    if |es| > 0 {
      var tail := Positive(es[1..]);
      assert DistinctKeys(es[1..]) by {
        assert forall i :: 1 <= i < |es| ==> es[1..][i - 1] == es[i];
      }
      PositiveDistinct(es[1..]);
      if es[0].amount > 0 {
        forall x | x in tail ensures x.key != es[0].key {
          assert x in es[1..];
          var m :| 0 <= m < |es[1..]| && es[1..][m] == x;
          assert es[m + 1] == x;
        }
        DistinctKeysCons(es[0], tail);
      } else {
        assert Positive(es) == tail;
      }
    }
  }

  /** Dropping non-positive groups loses nothing when no amount is negative. */
  lemma {:induction false} PositiveSumWhere<K(!new)>(es: seq<Entry<K>>, p: K -> bool)
    requires forall i :: 0 <= i < |es| ==> es[i].amount >= 0
    ensures SumWhere(Positive(es), p) == SumWhere(es, p)
    decreases |es|
  {
    if |es| > 0 {
      PositiveSumWhere(es[1..], p);
      SumWhereConcat(if es[0].amount > 0 then [es[0]] else [], Positive(es[1..]), p);
    }
  }

  /** Non-negative items give non-negative conditional sums. */
  lemma {:induction false} SumWhereNonNegative<K>(es: seq<Entry<K>>, p: K -> bool)
    requires forall i :: 0 <= i < |es| ==> es[i].amount >= 0
    ensures SumWhere(es, p) >= 0
    decreases |es|
  {
    if |es| > 0 {
      SumWhereNonNegative(es[1..], p);
    }
  }

  /** Non-negative items give non-negative groups. */
  lemma GroupAllNonNegative<K(!new)>(items: seq<Entry<K>>)
    requires forall i :: 0 <= i < |items| ==> items[i].amount >= 0
    ensures forall i :: 0 <= i < |GroupAll(items)| ==> GroupAll(items)[i].amount >= 0
  {
    forall i | 0 <= i < |GroupAll(items)| ensures GroupAll(items)[i].amount >= 0 {
      GroupAllAmount(items, i);
      SumWhereNonNegative(items, Is(GroupAll(items)[i].key));
    }
  }

  /** Reordering keeps every amount positive when all were. */
  lemma PermutationPositive<K>(a: seq<Entry<K>>, b: seq<Entry<K>>)
    requires multiset(a) == multiset(b)
    requires forall i :: 0 <= i < |a| ==> a[i].amount > 0
    ensures forall i :: 0 <= i < |b| ==> b[i].amount > 0
  {
    forall i | 0 <= i < |b| ensures b[i].amount > 0 {
      assert b[i] in multiset(a);
    }
  }

  lemma MultisetRemove<T>(a: seq<T>, m: nat)
    requires m < |a|
    ensures multiset(a[..m] + a[m + 1..]) == multiset(a) - multiset{a[m]}
  {
    Collections.SplitAt(a, m);
  }

  /** The first element of `b` sits somewhere in its permutation `a`; the rests are permutations too. */
  lemma RemoveMatching<T>(a: seq<T>, b: seq<T>)
    requires multiset(a) == multiset(b) && |b| > 0
    ensures exists m :: 0 <= m < |a| && a[m] == b[0] && multiset(a[..m] + a[m + 1..]) == multiset(b[1..])
  {
    assert b[0] in multiset(a);
    var m :| 0 <= m < |a| && a[m] == b[0];
    MultisetRemove(a, m);
    assert b == [b[0]] + b[1..];
    assert multiset(b[1..]) == multiset(b) - multiset{b[0]};
    assert multiset(a[..m] + a[m + 1..]) == multiset(b[1..]);
  }

  /** Removing one group keeps the others distinct, and none of them has the removed key. */
  lemma DistinctKeysRemove<K(!new)>(a: seq<Entry<K>>, m: nat)
    requires DistinctKeys(a) && m < |a|
    ensures DistinctKeys(a[..m] + a[m + 1..])
    ensures forall x :: x in multiset(a[..m] + a[m + 1..]) ==> x.key != a[m].key
  {
    var rest := a[..m] + a[m + 1..];
    assert forall t :: 0 <= t < |rest| ==> rest[t] == (if t < m then a[t] else a[t + 1]);
    forall x | x in multiset(rest) ensures x.key != a[m].key {
      var t :| 0 <= t < |rest| && rest[t] == x;
    }
  }

  /** Reordering a sequence of groups keeps their keys distinct. */
  lemma {:induction false} DistinctKeysPermutation<K(!new)>(a: seq<Entry<K>>, b: seq<Entry<K>>)
    requires multiset(a) == multiset(b) && DistinctKeys(a)
    ensures DistinctKeys(b)
    decreases |a|
  {
    if |b| > 0 {
      RemoveMatching(a, b);
      var m :| 0 <= m < |a| && a[m] == b[0] && multiset(a[..m] + a[m + 1..]) == multiset(b[1..]);
      var rest := a[..m] + a[m + 1..];
      DistinctKeysRemove(a, m);
      DistinctKeysPermutation(rest, b[1..]);
      HeadKeyFresh(b, rest);
      DistinctKeysFromTail(b);
    }
  }

  lemma DistinctKeysFromTail<K(!new)>(b: seq<Entry<K>>)
    requires |b| > 0 && DistinctKeys(b[1..])
    requires forall j :: 1 <= j < |b| ==> b[0].key != b[j].key
    ensures DistinctKeys(b)
  {
    forall i, j | 0 < i < j < |b| ensures b[i].key != b[j].key {
      assert b[i] == b[1..][i - 1] && b[j] == b[1..][j - 1];
    }
  }

  lemma HeadKeyFresh<K>(b: seq<Entry<K>>, rest: seq<Entry<K>>)
    requires |b| > 0 && multiset(rest) == multiset(b[1..])
    requires forall x :: x in multiset(rest) ==> x.key != b[0].key
    ensures forall j :: 1 <= j < |b| ==> b[0].key != b[j].key
  {
    forall j | 1 <= j < |b| ensures b[0].key != b[j].key {
      assert b[j] == b[1..][j - 1];
      assert b[j] in multiset(b[1..]);
    }
  }

  /** The amount of the group of `k`, or `None` when there is none: a `LEFT JOIN` on the key. */
  function Lookup<K(==)>(es: seq<Entry<K>>, k: K): (r: Option<int>)
    ensures r.None? <==> forall i :: 0 <= i < |es| ==> es[i].key != k
    ensures r.Some? ==> exists i :: 0 <= i < |es| && es[i].key == k && es[i].amount == r.value
    decreases |es|
  {
    if |es| == 0 then None
    else if es[0].key == k then Some(es[0].amount)
    else
      var r := Lookup(es[1..], k);
      assert forall i :: 1 <= i < |es| ==> es[i] == es[1..][i - 1];
      r
  }

  /** Joining a grouped table on a key yields the sum of that key's items, or `None` when no item has it. */
  lemma LookupGroupAll<K(!new)>(items: seq<Entry<K>>, k: K)
    ensures Lookup(GroupAll(items), k) == if HasKey(items, k) then Some(SumWhere(items, Is(k))) else None
  {
    var g := GroupAll(items);
    if Lookup(g, k).Some? {
      var i :| 0 <= i < |g| && g[i].key == k && g[i].amount == Lookup(g, k).value;
      GroupAllAmount(items, i);
      assert HasKey(g, k);
    } else {
      assert !HasKey(g, k);
    }
  }

  /** A group of largest amount, the first one among equals; `None` for no groups. */
  function Best<K>(es: seq<Entry<K>>): (r: Option<Entry<K>>)
    ensures r.None? <==> |es| == 0
    ensures r.Some? ==> r.value in es
    ensures r.Some? ==> forall i :: 0 <= i < |es| ==> es[i].amount <= r.value.amount
    decreases |es|
  {
    if |es| == 0 then None
    else
      match Best(es[1..])
      case None => Some(es[0])
      case Some(b) =>
        assert forall i :: 1 <= i < |es| ==> es[i] == es[1..][i - 1];
        if es[0].amount >= b.amount then Some(es[0]) else Some(b)
  }

  /** A reordering keeps every entry's key. */
  lemma PermutationHasKey<K(!new)>(a: seq<Entry<K>>, b: seq<Entry<K>>, e: Entry<K>)
    requires multiset(a) == multiset(b) && e in a
    ensures HasKey(b, e.key)
  {
    assert e in multiset(b);
    var i :| 0 <= i < |b| && b[i] == e;
  }

  /** In any reordering of the groups, each entry still holds the sum of its key's items. */
  lemma ReorderedGroupAmount<K(!new)>(items: seq<Entry<K>>, a: seq<Entry<K>>, i: nat)
    requires multiset(a) == multiset(GroupAll(items)) && i < |a|
    ensures a[i].amount == SumWhere(items, Is(a[i].key))
  {
    var g := GroupAll(items);
    assert a[i] in multiset(g);
    var j :| 0 <= j < |g| && g[j] == a[i];
    GroupAllAmount(items, j);
  }

  /** A reordering keeps the set of keys. */
  lemma PermutationKeys<K(!new)>(a: seq<Entry<K>>, b: seq<Entry<K>>, k: K)
    requires multiset(a) == multiset(b)
    ensures HasKey(a, k) <==> HasKey(b, k)
  {
    if HasKey(a, k) {
      var i :| 0 <= i < |a| && a[i].key == k;
      PermutationHasKey(a, b, a[i]);
    }
    if HasKey(b, k) {
      var i :| 0 <= i < |b| && b[i].key == k;
      PermutationHasKey(b, a, b[i]);
    }
  }

  /** The group of an item key whose sum is positive survives `HAVING amount > 0`. */
  lemma PositiveGroupKept<K(!new)>(items: seq<Entry<K>>, k: K)
    requires HasKey(items, k) && SumWhere(items, Is(k)) > 0
    ensures exists e :: e in Positive(GroupAll(items)) && e.key == k
  {
    var g := GroupAll(items);
    var j :| 0 <= j < |g| && g[j].key == k;
    GroupAllAmount(items, j);
    assert g[j] in Positive(g);
  }
}
