/** Integer sums and extrema over lists of values, as PHP's `array_sum`, `max` and `min` compute them. */
module Numbers {
  function IntSum(xs: seq<int>): int
    decreases |xs|
  {
    if |xs| == 0 then 0 else xs[0] + IntSum(xs[1..])
  }

  /** PHP `max` over a non-empty list. */
  function MaxOf(xs: seq<int>): (m: int)
    requires |xs| > 0
    ensures m in xs
    ensures forall i :: 0 <= i < |xs| ==> xs[i] <= m
    decreases |xs|
  {
    if |xs| == 1 then xs[0]
    else
      var rest := MaxOf(xs[1..]);
      assert forall i :: 1 <= i < |xs| ==> xs[i] == xs[1..][i - 1];
      if xs[0] >= rest then xs[0] else rest
  }

  /** PHP `min` over a non-empty list. */
  function MinOf(xs: seq<int>): (m: int)
    requires |xs| > 0
    ensures m in xs
    ensures forall i :: 0 <= i < |xs| ==> m <= xs[i]
    decreases |xs|
  {
    if |xs| == 1 then xs[0]
    else
      var rest := MinOf(xs[1..]);
      assert forall i :: 1 <= i < |xs| ==> xs[i] == xs[1..][i - 1];
      if xs[0] <= rest then xs[0] else rest
  }

  /** `array_sum($xs) / count($xs)`. */
  function IntMean(xs: seq<int>): real
    requires |xs| > 0
  {
    (IntSum(xs) as real) / (|xs| as real)
  }

  lemma {:induction false} IntSumBounds(xs: seq<int>, lo: int, hi: int)
    requires forall i :: 0 <= i < |xs| ==> lo <= xs[i] <= hi
    ensures |xs| * lo <= IntSum(xs) <= |xs| * hi
    decreases |xs|
  {
    if |xs| > 0 {
      assert forall i :: 1 <= i < |xs| ==> xs[1..][i - 1] == xs[i];
      IntSumBounds(xs[1..], lo, hi);
      assert |xs| * lo == (|xs| - 1) * lo + lo;
      assert |xs| * hi == (|xs| - 1) * hi + hi;
    }
  }
}
