/** Generic sequence and map helpers the catalogue is stated with. */
module Collections {
  import opened Wrappers

  /** The position of the first element satisfying `p`. */
  function FirstWhere<T>(xs: seq<T>, p: T -> bool): (r: Option<nat>)
    ensures r.Some? ==> (r.value < |xs| && p(xs[r.value]) && forall j :: 0 <= j < r.value ==> !p(xs[j]))
    ensures r.None? ==> forall j :: 0 <= j < |xs| ==> !p(xs[j])
    decreases |xs|
  {
    if |xs| == 0 then None
    else if p(xs[0]) then Some(0)
    else
      match FirstWhere(xs[1..], p)
      case None => None
      case Some(k) => Some(k + 1)
  }

  /** The first position satisfying `p` is the one before which nothing does. */
  lemma FirstWhereAt<T>(xs: seq<T>, p: T -> bool, k: nat)
    requires k < |xs| && p(xs[k]) && forall j :: 0 <= j < k ==> !p(xs[j])
    ensures FirstWhere(xs, p) == Some(k)
  {
  }

  lemma FirstWhereNone<T>(xs: seq<T>, p: T -> bool)
    requires forall j :: 0 <= j < |xs| ==> !p(xs[j])
    ensures FirstWhere(xs, p) == None
  {
  }

  /** The elements satisfying `p`, in order. */
  function Filter<T(!new)>(xs: seq<T>, p: T -> bool): (r: seq<T>)
    ensures forall x :: x in r <==> x in xs && p(x)
    decreases |xs|
  {
    if |xs| == 0 then []
    else (if p(xs[0]) then [xs[0]] else []) + Filter(xs[1..], p)
  }

  /** Nothing is dropped when every element satisfies `p`. */
  lemma {:induction false} FilterAll<T(!new)>(xs: seq<T>, p: T -> bool)
    requires forall i :: 0 <= i < |xs| ==> p(xs[i])
    ensures Filter(xs, p) == xs
    decreases |xs|
  {
    if |xs| > 0 {
      assert forall i :: 0 <= i < |xs| - 1 ==> xs[1..][i] == xs[i + 1];
      FilterAll(xs[1..], p);
      assert xs == [xs[0]] + xs[1..];
    }
  }

  /** Filtering a concatenation filters each part, in order. */
  lemma {:induction false} FilterAppend<T(!new)>(a: seq<T>, b: seq<T>, p: T -> bool)
    ensures Filter(a + b, p) == Filter(a, p) + Filter(b, p)
    decreases |a|
  {
    if |a| > 0 {
      assert (a + b)[1..] == a[1..] + b;
      FilterAppend(a[1..], b, p);
    } else {
      assert a + b == b;
    }
  }

  /** An element failing `p` drops out without disturbing its neighbours. */
  lemma FilterSkip<T(!new)>(a: seq<T>, x: T, b: seq<T>, p: T -> bool)
    requires !p(x)
    ensures Filter(a + [x] + b, p) == Filter(a, p) + Filter(b, p)
  {
    FilterAppend(a + [x], b, p);
    FilterAppend(a, [x], p);
    assert Filter([x], p) == [] by {
      assert [x][1..] == [];
    }
  }

  /** The concatenation of `f(x)` over the elements, in order. */
  function ConcatMap<T, U>(xs: seq<T>, f: T -> seq<U>): seq<U>
    decreases |xs|
  {
    if |xs| == 0 then [] else ConcatMap(xs[..|xs| - 1], f) + f(xs[|xs| - 1])
  }

  /** Two maps that agree on every element give the same concatenation. */
  lemma {:induction false} ConcatMapAgree<T, U>(xs: seq<T>, f: T -> seq<U>, g: T -> seq<U>)
    requires forall i :: 0 <= i < |xs| ==> f(xs[i]) == g(xs[i])
    ensures ConcatMap(xs, f) == ConcatMap(xs, g)
    decreases |xs|
  {
    if |xs| > 0 {
      ConcatMapAgree(xs[..|xs| - 1], f, g);
    }
  }

  /** A map never shorter than another, and longer on some element, gives a longer concatenation. */
  lemma {:induction false} ConcatMapLonger<T, U>(xs: seq<T>, f: T -> seq<U>, g: T -> seq<U>, k: nat)
    requires forall i :: 0 <= i < |xs| ==> |f(xs[i])| >= |g(xs[i])|
    requires k < |xs| && |f(xs[k])| > |g(xs[k])|
    ensures |ConcatMap(xs, f)| > |ConcatMap(xs, g)|
    decreases |xs|
  {
    var n := |xs| - 1;
    if k == n {
      ConcatMapNoShorter(xs[..n], f, g);
    } else {
      ConcatMapLonger(xs[..n], f, g, k);
    }
  }

  /** A map never shorter than another gives a concatenation no shorter. */
  lemma {:induction false} ConcatMapNoShorter<T, U>(xs: seq<T>, f: T -> seq<U>, g: T -> seq<U>)
    requires forall i :: 0 <= i < |xs| ==> |f(xs[i])| >= |g(xs[i])|
    ensures |ConcatMap(xs, f)| >= |ConcatMap(xs, g)|
    decreases |xs|
  {
    if |xs| > 0 {
      ConcatMapNoShorter(xs[..|xs| - 1], f, g);
    }
  }

  /** A nonempty sequence is its front followed by its last element. */
  lemma LastSplit<T>(xs: seq<T>)
    requires |xs| > 0
    ensures xs == xs[..|xs| - 1] + [xs[|xs| - 1]]
  {
  }

  /** A nonempty sequence is its first element followed by the rest. */
  lemma HeadSplit<T>(xs: seq<T>)
    requires |xs| > 0
    ensures xs == [xs[0]] + xs[1..]
  {
  }

  /** A sequence is what precedes position `m`, the element at `m`, and what follows it. */
  lemma SplitAt<T>(xs: seq<T>, m: nat)
    requires m < |xs|
    ensures xs == xs[..m] + [xs[m]] + xs[m + 1..]
  {
  }

  lemma AppendAssoc<T>(a: seq<T>, b: seq<T>, c: seq<T>)
    ensures a + b + c == a + (b + c)
  {
  }

  /** When only `x` contributes and occurs at most once, the concatenation is its contribution. */
  lemma {:induction false} ConcatMapSingle<T, U>(xs: seq<T>, f: T -> seq<U>, x: T)
    requires Distinct(xs)
    requires forall y :: y != x ==> f(y) == []
    ensures ConcatMap(xs, f) == if x in xs then f(x) else []
    decreases |xs|
  {
    if |xs| > 0 {
      var n := |xs| - 1;
      var init := xs[..n];
      assert Distinct(init) by {
        forall i, j | 0 <= i < j < |init| ensures init[i] != init[j] {
          assert init[i] == xs[i] && init[j] == xs[j];
        }
      }
      ConcatMapSingle(init, f, x);
      assert xs == init + [xs[n]];
      if xs[n] == x {
        assert x !in init by {
          forall i | 0 <= i < n ensures init[i] != x {
            assert init[i] == xs[i];
          }
        }
      }
    }
  }

  predicate Distinct<T(==)>(xs: seq<T>) {
    forall i, j :: 0 <= i < j < |xs| ==> xs[i] != xs[j]
  }

  lemma DistinctCons<T>(x: T, xs: seq<T>)
    requires x !in xs && Distinct(xs)
    ensures Distinct([x] + xs)
  {
    var s := [x] + xs;
    forall i, j | 0 <= i < j < |s| ensures s[i] != s[j] {
      assert s[j] == xs[j - 1];
      if i > 0 { assert s[i] == xs[i - 1]; }
    }
  }

  /** Two repetition-free sequences with no element in common concatenate to one. */
  lemma DistinctAppend<T>(a: seq<T>, b: seq<T>)
    requires Distinct(a) && Distinct(b)
    requires forall x :: x in a ==> x !in b
    ensures Distinct(a + b)
  {
    var s := a + b;
    forall i, j | 0 <= i < j < |s| ensures s[i] != s[j] {
      if j < |a| {
        assert s[i] == a[i] && s[j] == a[j];
      } else if i >= |a| {
        assert s[i] == b[i - |a|] && s[j] == b[j - |a|];
      } else {
        assert s[i] == a[i] && a[i] in a;
        assert s[j] == b[j - |a|] && b[j - |a|] in b;
      }
    }
  }

  /**
   * An element of `u` followed by a repetition-free part drawn from `u` and
   * one drawn from outside `u` repeats nothing.
   */
  lemma DistinctAround<T>(x: T, a: seq<T>, b: seq<T>, u: seq<T>)
    requires Distinct(a) && Distinct(b) && x !in a && x in u
    requires forall y :: y in a ==> y in u
    requires forall y :: y in b ==> y !in u
    ensures Distinct([x] + (a + b))
  {
    DistinctAppend(a, b);
    DistinctCons(x, a + b);
  }

  /** Filtering keeps a sequence free of repetitions. */
  lemma {:induction false} FilterDistinct<T(!new)>(xs: seq<T>, p: T -> bool)
    requires Distinct(xs)
    ensures Distinct(Filter(xs, p))
    decreases |xs|
  {
    if |xs| > 0 {
      var t := xs[1..];
      assert Distinct(t) by {
        forall i, j | 0 <= i < j < |t| ensures t[i] != t[j] {
          assert t[i] == xs[i + 1] && t[j] == xs[j + 1];
        }
      }
      FilterDistinct(t, p);
      if p(xs[0]) {
        assert xs[0] !in t by {
          forall i | 0 <= i < |t| ensures t[i] != xs[0] {
            assert t[i] == xs[i + 1];
          }
        }
        DistinctCons(xs[0], Filter(t, p));
      } else {
        assert [] + Filter(t, p) == Filter(t, p);
      }
    }
  }

  /** A map built by storing every pair in turn, a later pair overwriting an earlier one under the same key. */
  function Overwrite<K, V>(kvs: seq<(K, V)>): map<K, V>
    decreases |kvs|
  {
    if |kvs| == 0 then map[]
    else Overwrite(kvs[..|kvs| - 1])[kvs[|kvs| - 1].0 := kvs[|kvs| - 1].1]
  }

  predicate HasFirst<K(==), V>(kvs: seq<(K, V)>, k: K) {
    exists i :: 0 <= i < |kvs| && kvs[i].0 == k
  }

  /** A key is stored exactly when some pair carries it. */
  lemma {:induction false} OverwriteKeys<K, V>(kvs: seq<(K, V)>, k: K)
    ensures k in Overwrite(kvs) <==> HasFirst(kvs, k)
    decreases |kvs|
  {
    if |kvs| > 0 {
      var n := |kvs| - 1;
      OverwriteKeys(kvs[..n], k);
      if HasFirst(kvs[..n], k) {
        var i :| 0 <= i < n && kvs[..n][i].0 == k;
        assert kvs[i].0 == k;
      }
      if HasFirst(kvs, k) && kvs[n].0 != k {
        var i :| 0 <= i < |kvs| && kvs[i].0 == k;
        assert kvs[..n][i] == kvs[i];
      }
    }
  }

  /** The value stored under a key is that of the last pair carrying it. */
  lemma {:induction false} OverwriteLastWins<K, V>(kvs: seq<(K, V)>, i: nat)
    requires i < |kvs|
    requires forall j :: i < j < |kvs| ==> kvs[j].0 != kvs[i].0
    ensures kvs[i].0 in Overwrite(kvs) && Overwrite(kvs)[kvs[i].0] == kvs[i].1
    decreases |kvs|
  {
    var n := |kvs| - 1;
    if i < n {
      var init := kvs[..n];
      assert init[i] == kvs[i];
      assert forall j :: i < j < |init| ==> init[j] == kvs[j];
      OverwriteLastWins(init, i);
    }
  }
}
