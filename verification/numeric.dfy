/** Sequence arithmetic shared by the series operations: sums, prefix sums
    (numpy's cumsum), reversal and every-other-element slicing, the order
    predicate the repairs promise, and elementwise scaling. */
module Numeric {

  /** Sum of a finite sequence; peels the last element so that prefix sums
      unfold one step at a time. */
  function Sum(s: seq<real>): real
  {
    if |s| == 0 then 0.0 else Sum(s[..|s| - 1]) + s[|s| - 1]
  }

  /** numpy.cumsum: element i is the sum of the first i + 1 elements. */
  function CumSum(s: seq<real>): (r: seq<real>)
    ensures |r| == |s|
  {
    seq(|s|, i requires 0 <= i < |s| => Sum(s[..i + 1]))
  }

  /** Python's s[::-1]. */
  function Reversed(s: seq<real>): (r: seq<real>)
    ensures |r| == |s|
  {
    seq(|s|, i requires 0 <= i < |s| => s[|s| - 1 - i])
  }

  /** Python's s[::2]: the elements at even positions. */
  function Stride2(s: seq<real>): (r: seq<real>)
    ensures |r| == (|s| + 1) / 2
  {
    seq((|s| + 1) / 2, i requires 0 <= i < (|s| + 1) / 2 => s[2 * i])
  }

  /** Every element divided by the same non-zero divisor (a pandas or numpy
      division of a whole column by a scalar). */
  function DivideEach(s: seq<real>, d: real): (r: seq<real>)
    requires d != 0.0
    ensures |r| == |s|
  {
    seq(|s|, i requires 0 <= i < |s| => s[i] / d)
  }

  /** Every element multiplied by the same factor. */
  function ScaleEach(s: seq<real>, f: real): (r: seq<real>)
    ensures |r| == |s|
  {
    seq(|s|, i requires 0 <= i < |s| => s[i] * f)
  }

  /** A cumulative series: no element is smaller than an earlier one. */
  predicate NonDecreasing(s: seq<real>)
  {
    forall j, k :: 0 <= j <= k < |s| ==> s[j] <= s[k]
  }

  /** The product of two non-negative reals is non-negative. */
  lemma ProductNonNegative(x: real, y: real)
    requires x >= 0.0 && y >= 0.0
    ensures x * y >= 0.0
  {
  }

  /** Summing distributes over concatenation. */
  lemma {:induction false} SumConcat(a: seq<real>, b: seq<real>)
    ensures Sum(a + b) == Sum(a) + Sum(b)
    decreases |b|
  {
    if |b| == 0 {
      assert a + b == a;
    } else {
      var b' := b[..|b| - 1];
      assert (a + b)[..|a + b| - 1] == a + b';
      SumConcat(a, b');
    }
  }

  /** Reversing a sequence does not change its sum. */
  lemma {:induction false} SumReversed(s: seq<real>)
    ensures Sum(Reversed(s)) == Sum(s)
    decreases |s|
  {
    if |s| > 0 {
      var t := s[..|s| - 1];
      assert Reversed(s) == [s[|s| - 1]] + Reversed(t);
      SumConcat([s[|s| - 1]], Reversed(t));
      assert [s[|s| - 1]][..0] == [];
      SumReversed(t);
    }
  }

  /** A prefix sum extends the previous one by the next element. */
  lemma SumPrefixStep(s: seq<real>, i: nat)
    requires i < |s|
    ensures Sum(s[..i + 1]) == Sum(s[..i]) + s[i]
  {
    assert s[..i + 1][..i] == s[..i];
  }
}
