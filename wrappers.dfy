/** Option and Result: SQL NULL, missing dictionary entries and error returns. */
module Wrappers {

  datatype Option<+T> = None | Some(value: T) {
    /** The value, or `default` when absent (SQL COALESCE). */
    function GetOr(default: T): T {
      match this
      case Some(v) => v
      case None => default
    }
  }

  datatype Result<+T, +E> = Ok(value: T) | Err(error: E)

  /** The present values, in order. */
  function Somes<T>(xs: seq<Option<T>>): (r: seq<T>)
    ensures |r| <= |xs|
    decreases |xs|
  {
    if |xs| == 0 then []
    else if xs[0].Some? then [xs[0].value] + Somes(xs[1..])
    else Somes(xs[1..])
  }

  lemma {:induction false} SomesMembers<T>(xs: seq<Option<T>>, x: T)
    ensures x in Somes(xs) <==> Some(x) in xs
    decreases |xs|
  {
    if |xs| > 0 {
      SomesMembers(xs[1..], x);
      assert xs == [xs[0]] + xs[1..];
    }
  }

  lemma {:induction false} SomesAllNone<T>(xs: seq<Option<T>>)
    requires forall i :: 0 <= i < |xs| ==> xs[i].None?
    ensures Somes(xs) == []
    decreases |xs|
  {
    if |xs| > 0 {
      SomesAllNone(xs[1..]);
    }
  }

  /** With no value absent, the present values are all of them, position by position. */
  lemma {:induction false} SomesAllSome<T>(xs: seq<Option<T>>)
    requires forall i :: 0 <= i < |xs| ==> xs[i].Some?
    ensures |Somes(xs)| == |xs|
    ensures forall i :: 0 <= i < |xs| ==> Somes(xs)[i] == xs[i].value
    decreases |xs|
  {
    if |xs| > 0 {
      SomesAllSome(xs[1..]);
      assert forall i :: 1 <= i < |xs| ==> xs[1..][i - 1] == xs[i];
    }
  }

  /** The values `f` finds in the elements that have one, in order. */
  function SomesOf<T, U>(xs: seq<T>, f: T -> Option<U>): (r: seq<U>)
    ensures |r| <= |xs|
    decreases |xs|
  {
    if |xs| == 0 then []
    else
      var o := f(xs[|xs| - 1]);
      SomesOf(xs[..|xs| - 1], f) + (if o.Some? then [o.value] else [])
  }

  /** Reading one element more adds its value, if it has one. */
  lemma SomesOfStep<T, U>(xs: seq<T>, f: T -> Option<U>, i: nat)
    requires i < |xs|
    ensures SomesOf(xs[..i + 1], f) == SomesOf(xs[..i], f) + (if f(xs[i]).Some? then [f(xs[i]).value] else [])
  {
    assert xs[..i + 1][..i] == xs[..i];
  }

  /** A value is found exactly when some element has it. */
  lemma SomesOfMembers<T, U>(xs: seq<T>, f: T -> Option<U>, u: U)
    ensures u in SomesOf(xs, f) <==> exists i :: 0 <= i < |xs| && f(xs[i]) == Some(u)
  {
    if exists i :: 0 <= i < |xs| && f(xs[i]) == Some(u) {
      var i :| 0 <= i < |xs| && f(xs[i]) == Some(u);
      SomesOfHas(xs, f, i, u);
    }
    if u in SomesOf(xs, f) {
      SomesOfFrom(xs, f, u);
    }
  }

  lemma {:induction false} SomesOfHas<T, U>(xs: seq<T>, f: T -> Option<U>, i: nat, u: U)
    requires i < |xs| && f(xs[i]) == Some(u)
    ensures u in SomesOf(xs, f)
    decreases |xs|
  {
    var n := |xs| - 1;
    if i < n {
      assert xs[..n][i] == xs[i];
      SomesOfHas(xs[..n], f, i, u);
    }
  }

  lemma {:induction false} SomesOfFrom<T, U>(xs: seq<T>, f: T -> Option<U>, u: U)
    requires u in SomesOf(xs, f)
    ensures exists i :: 0 <= i < |xs| && f(xs[i]) == Some(u)
    decreases |xs|
  {
    var n := |xs| - 1;
    if f(xs[n]) != Some(u) {
      SomesOfFrom(xs[..n], f, u);
      var i :| 0 <= i < n && f(xs[..n][i]) == Some(u);
      assert xs[..n][i] == xs[i];
    }
  }

  /** Nothing is found when no element has a value. */
  lemma {:induction false} SomesOfNone<T, U>(xs: seq<T>, f: T -> Option<U>)
    requires forall i :: 0 <= i < |xs| ==> f(xs[i]).None?
    ensures SomesOf(xs, f) == []
    decreases |xs|
  {
    if |xs| > 0 {
      var n := |xs| - 1;
      assert forall i :: 0 <= i < n ==> xs[..n][i] == xs[i];
      SomesOfNone(xs[..n], f);
    }
  }
}
