/** The moving average of preprocess/preprocess.py (smooth): a full-window
    mean wherever the window fits, and shrinking odd windows at both ends so
    that the output keeps the input's length.

    `smooth` is a composition of numpy operations with no loop, so it is a
    function here. The start segment as written divides prefix sums of the
    even-position elements; `SmoothAsWritten` models that and
    `SmoothAsWrittenHeadIsNotCentred` exhibits the difference, while `Smooth`
    takes the prefix sums first (as the end segment does) and is proved to be
    a centred mean at every index. */
module Smoothing {
  import opened Numeric

  /** The windows for which smooth returns one value per input value: odd,
      at least 1 and at most the length of the series. With an even window
      the two edge segments do not have (size - 1) / 2 values each, so the
      result has the wrong length or the division fails on mismatched
      shapes. */
  predicate ValidWindow(size: nat, n: nat)
  {
    size % 2 == 1 && 1 <= size <= n
  }

  /** Element k divided by 2k + 1: numpy's division by
      np.arange(1, size - 1, 2). */
  function DivideByOdds(s: seq<real>): (r: seq<real>)
    ensures |r| == |s|
  {
    seq(|s|, k requires 0 <= k < |s| => s[k] / (2 * k + 1) as real)
  }

  /** np.convolve(a, np.ones(size), 'valid') / size: the mean of every full
      window. */
  function FullWindows(a: seq<real>, size: nat): (r: seq<real>)
    requires ValidWindow(size, |a|)
    ensures |r| == |a| - size + 1
  {
    seq(|a| - size + 1, t requires 0 <= t < |a| - size + 1 => Sum(a[t..t + size]) / size as real)
  }

  /** The start segment as written: np.cumsum(a[:size - 1][::2]) / r. */
  function StartAsWritten(a: seq<real>, size: nat): (r: seq<real>)
    requires ValidWindow(size, |a|)
    ensures |r| == (size - 1) / 2
  {
    DivideByOdds(CumSum(Stride2(a[..size - 1])))
  }

  /** The start segment with the prefix sums taken before the stride, the
      order the end segment uses. */
  function Start(a: seq<real>, size: nat): (r: seq<real>)
    requires ValidWindow(size, |a|)
    ensures |r| == (size - 1) / 2
  {
    DivideByOdds(Stride2(CumSum(a[..size - 1])))
  }

  /** The end segment: (np.cumsum(a[:-size:-1])[::2] / r)[::-1]. */
  function Stop(a: seq<real>, size: nat): (r: seq<real>)
    requires ValidWindow(size, |a|)
    ensures |r| == (size - 1) / 2
  {
    Reversed(DivideByOdds(Stride2(CumSum(Reversed(a[|a| - size + 1..])))))
  }

  /** smooth(a, size) exactly as written. */
  function SmoothAsWritten(a: seq<real>, size: nat): (r: seq<real>)
    requires ValidWindow(size, |a|)
    ensures |r| == |a|
  {
    StartAsWritten(a, size) + FullWindows(a, size) + Stop(a, size)
  }

  /** smooth(a, size) with the start segment corrected. */
  function Smooth(a: seq<real>, size: nat): (r: seq<real>)
    requires ValidWindow(size, |a|)
    ensures |r| == |a|
  {
    Start(a, size) + FullWindows(a, size) + Stop(a, size)
  }

  /** Arithmetic mean of a non-empty stretch. */
  function Mean(s: seq<real>): real
    requires |s| > 0
  {
    Sum(s) / |s| as real
  }

  /** Half the width of the window centred on index i: (size - 1) / 2, cut
      down to the number of neighbours index i has on its shorter side. */
  function HalfWidth(n: nat, i: nat, size: nat): (w: nat)
    requires i < n && size >= 1
    ensures w <= i && i + w < n && w <= (size - 1) / 2
  {
    var h := (size - 1) / 2;
    if i < h && i <= n - 1 - i then i
    else if n - 1 - i < h then n - 1 - i
    else h
  }

  /** The mean of the window of half-width w centred on index i. */
  function CentredMean(a: seq<real>, i: nat, w: nat): real
    requires w <= i && i + w < |a|
  {
    Mean(a[i - w..i + w + 1])
  }

  // ---------------------------------------------------------------------
  // The three segments, index by index
  // ---------------------------------------------------------------------

  lemma StartIsCentred(a: seq<real>, size: nat, k: nat)
    requires ValidWindow(size, |a|) && k < (size - 1) / 2
    ensures Start(a, size)[k] == CentredMean(a, k, k)
  {
    var p := a[..size - 1];
    assert CumSum(p)[2 * k] == Sum(p[..2 * k + 1]);
    assert p[..2 * k + 1] == a[k - k..k + k + 1];
  }

  lemma StopIsCentred(a: seq<real>, size: nat, k: nat)
    requires ValidWindow(size, |a|) && k < (size - 1) / 2
    ensures Stop(a, size)[(size - 1) / 2 - 1 - k] == CentredMean(a, |a| - 1 - k, k)
  {
    var n := |a|;
    var tail := Reversed(a[n - size + 1..]);
    var part := tail[..2 * k + 1];
    assert Stride2(CumSum(tail))[k] == Sum(part);
    assert part == Reversed(a[n - 1 - 2 * k..]);
    SumReversed(a[n - 1 - 2 * k..]);
    assert a[n - 1 - 2 * k..] == a[(n - 1 - k) - k..(n - 1 - k) + k + 1];
  }

  lemma FullWindowIsCentred(a: seq<real>, size: nat, t: nat)
    requires ValidWindow(size, |a|) && t < |a| - size + 1
    ensures FullWindows(a, size)[t] == CentredMean(a, t + (size - 1) / 2, (size - 1) / 2)
  {
    var h := (size - 1) / 2;
    assert a[t..t + size] == a[(t + h) - h..(t + h) + h + 1];
  }

  // ---------------------------------------------------------------------
  // Properties
  // ---------------------------------------------------------------------

  /** Every output value is the mean of the widest window centred on its
      index that fits both the series and the requested size: the full
      window inside, windows of 1, 3, 5, ... elements towards either end. */
  lemma SmoothIsCentredMean(a: seq<real>, size: nat)
    requires ValidWindow(size, |a|)
    ensures forall i :: 0 <= i < |a| ==>
      Smooth(a, size)[i] == CentredMean(a, i, HalfWidth(|a|, i, size))
  {
    forall i | 0 <= i < |a|
      ensures Smooth(a, size)[i] == CentredMean(a, i, HalfWidth(|a|, i, size))
    {
      SmoothIsCentredAt(a, size, i);
    }
  }

  /** SmoothIsCentredMean at one index. */
  lemma SmoothIsCentredAt(a: seq<real>, size: nat, i: nat)
    requires ValidWindow(size, |a|) && i < |a|
    ensures Smooth(a, size)[i] == CentredMean(a, i, HalfWidth(|a|, i, size))
  {
    var n := |a|;
    var h := (size - 1) / 2;
    var r := Smooth(a, size);
    if i < h {
      StartIsCentred(a, size, i);
      assert r[i] == Start(a, size)[i];
    } else if i < n - h {
      FullWindowIsCentred(a, size, i - h);
      assert r[i] == FullWindows(a, size)[i - h];
    } else {
      var k := n - 1 - i;
      StopIsCentred(a, size, k);
      assert r[i] == Stop(a, size)[h - 1 - k];
    }
  }

  /** A sum of values inside [lo, hi] lies between |s| * lo and |s| * hi. */
  lemma {:induction false} SumBetween(s: seq<real>, lo: real, hi: real)
    requires forall k :: 0 <= k < |s| ==> lo <= s[k] <= hi
    ensures |s| as real * lo <= Sum(s) <= |s| as real * hi
    decreases |s|
  {
    if |s| > 0 {
      var p := s[..|s| - 1];
      assert forall k :: 0 <= k < |p| ==> p[k] == s[k];
      SumBetween(p, lo, hi);
      var m := |p| as real;
      assert Sum(s) == Sum(p) + s[|s| - 1];
      assert |s| as real * lo == m * lo + lo;
      assert |s| as real * hi == m * hi + hi;
    }
  }

  /** The mean of values inside [lo, hi] is inside [lo, hi]. */
  lemma MeanBetween(s: seq<real>, lo: real, hi: real)
    requires |s| > 0
    requires forall k :: 0 <= k < |s| ==> lo <= s[k] <= hi
    ensures lo <= Mean(s) <= hi
  {
    SumBetween(s, lo, hi);
    var m := |s| as real;
    assert m * lo <= Sum(s) <= m * hi;
  }

  /** The corrected smoothing never leaves the range of its input: every
      output value lies between the smallest and the largest input value.
      (As written, the start segment can fall outside; see
      SmoothAsWrittenKeepsBounds.) */
  lemma SmoothKeepsBounds(a: seq<real>, size: nat, lo: real, hi: real)
    requires ValidWindow(size, |a|)
    requires forall k :: 0 <= k < |a| ==> lo <= a[k] <= hi
    ensures forall i :: 0 <= i < |a| ==> lo <= Smooth(a, size)[i] <= hi
  {
    forall i | 0 <= i < |a|
      ensures lo <= Smooth(a, size)[i] <= hi
    {
      SmoothIsCentredAt(a, size, i);
      var s := Window(a, i, HalfWidth(|a|, i, size));
      MeanBetween(s, lo, hi);
    }
  }

  /** The window of half-width w centred on index i, element by element. */
  function Window(a: seq<real>, i: nat, w: nat): (s: seq<real>)
    requires w <= i && i + w < |a|
    ensures |s| == 2 * w + 1 && s == a[i - w..i + w + 1]
    ensures forall k :: 0 <= k < |s| ==> s[k] == a[i - w + k]
  {
    a[i - w..i + w + 1]
  }

  /** A sum of non-negative values is non-negative. */
  lemma {:induction false} SumNonNegative(s: seq<real>)
    requires forall k :: 0 <= k < |s| ==> s[k] >= 0.0
    ensures Sum(s) >= 0.0
    decreases |s|
  {
    if |s| > 0 {
      var p := s[..|s| - 1];
      assert forall k :: 0 <= k < |p| ==> p[k] == s[k];
      SumNonNegative(p);
    }
  }

  /** Smoothing a series with no negative value gives no negative value. */
  lemma SmoothKeepsNonNegative(a: seq<real>, size: nat)
    requires ValidWindow(size, |a|)
    requires forall k :: 0 <= k < |a| ==> a[k] >= 0.0
    ensures forall i :: 0 <= i < |a| ==> Smooth(a, size)[i] >= 0.0
  {
    forall i | 0 <= i < |a|
      ensures Smooth(a, size)[i] >= 0.0
    {
      SmoothIsCentredAt(a, size, i);
      MeanNonNegative(Window(a, i, HalfWidth(|a|, i, size)));
    }
  }

  /** The mean of non-negative values is non-negative. */
  lemma MeanNonNegative(s: seq<real>)
    requires |s| > 0
    requires forall k :: 0 <= k < |s| ==> s[k] >= 0.0
    ensures Mean(s) >= 0.0
  {
    SumNonNegative(s);
  }

  /** A window of one element leaves the series unchanged, both as written
      and corrected: with size 1 there is no start segment, so the two
      agree everywhere. */
  lemma SmoothWidthOne(a: seq<real>)
    requires |a| > 0
    ensures Smooth(a, 1) == a
    ensures SmoothAsWritten(a, 1) == a
  {
    SmoothAsWrittenAfterHead(a, 1);
    SmoothIsCentredMean(a, 1);
    forall i | 0 <= i < |a|
      ensures Smooth(a, 1)[i] == a[i]
    {
      assert HalfWidth(|a|, i, 1) == 0;
      assert a[i - 0..i + 0 + 1] == [a[i]];
      assert [a[i]][..0] == [];
      assert Sum([a[i]]) == a[i];
    }
  }

  /** As written, the start segment averages only the even-position
      elements: value k is the sum of a[0], a[2], ..., a[2k] divided by
      2k + 1. */
  lemma SmoothAsWrittenHead(a: seq<real>, size: nat, k: nat)
    requires ValidWindow(size, |a|) && k < (size - 1) / 2
    ensures SmoothAsWritten(a, size)[k] == Sum(Stride2(a[..2 * k + 1])) / (2 * k + 1) as real
  {
    var p := a[..size - 1];
    assert SmoothAsWritten(a, size)[k] == StartAsWritten(a, size)[k];
    assert Stride2(p)[..k + 1] == Stride2(a[..2 * k + 1]);
  }

  /** Past the start segment the two versions agree. */
  lemma SmoothAsWrittenAfterHead(a: seq<real>, size: nat)
    requires ValidWindow(size, |a|)
    ensures forall i :: (size - 1) / 2 <= i < |a| ==> SmoothAsWritten(a, size)[i] == Smooth(a, size)[i]
  {
    var h := (size - 1) / 2;
    assert SmoothAsWritten(a, size)[h..] == (FullWindows(a, size) + Stop(a, size));
    assert Smooth(a, size)[h..] == (FullWindows(a, size) + Stop(a, size));
    forall i | h <= i < |a|
      ensures SmoothAsWritten(a, size)[i] == Smooth(a, size)[i]
    {
      assert SmoothAsWritten(a, size)[h..][i - h] == Smooth(a, size)[h..][i - h];
    }
  }

  /** Smoothing as written gives no negative value on a series with none:
      the start segment divides a sum of input values by a positive count,
      and the rest agrees with the corrected version. */
  lemma SmoothAsWrittenKeepsNonNegative(a: seq<real>, size: nat)
    requires ValidWindow(size, |a|)
    requires forall k :: 0 <= k < |a| ==> a[k] >= 0.0
    ensures forall i :: 0 <= i < |a| ==> SmoothAsWritten(a, size)[i] >= 0.0
  {
    SmoothKeepsNonNegative(a, size);
    SmoothAsWrittenAfterHead(a, size);
    forall i | 0 <= i < (size - 1) / 2
      ensures SmoothAsWritten(a, size)[i] >= 0.0
    {
      SmoothAsWrittenHead(a, size, i);
      SumNonNegative(Stride2(a[..2 * i + 1]));
    }
  }

  /** Smoothing as written keeps every value between the lower bound of its
      input (or 0, if that is higher) and the upper bound (or 0, if that is
      lower). The start segment divides a sum of k + 1 input values by
      2k + 1, which pulls it towards 0, so it can leave [lo, hi] itself. */
  lemma SmoothAsWrittenKeepsBounds(a: seq<real>, size: nat, lo: real, hi: real)
    requires ValidWindow(size, |a|)
    requires forall k :: 0 <= k < |a| ==> lo <= a[k] <= hi
    ensures forall i :: 0 <= i < |a| ==>
      (if lo < 0.0 then lo else 0.0) <= SmoothAsWritten(a, size)[i] <= (if hi > 0.0 then hi else 0.0)
  {
    SmoothKeepsBounds(a, size, lo, hi);
    SmoothAsWrittenAfterHead(a, size);
    forall i | 0 <= i < (size - 1) / 2
      ensures (if lo < 0.0 then lo else 0.0) <= SmoothAsWritten(a, size)[i] <= (if hi > 0.0 then hi else 0.0)
    {
      HeadAsWrittenBounds(a, size, lo, hi, i);
    }
  }

  /** SmoothAsWrittenKeepsBounds for one value of the start segment. */
  lemma HeadAsWrittenBounds(a: seq<real>, size: nat, lo: real, hi: real, i: nat)
    requires ValidWindow(size, |a|) && i < (size - 1) / 2
    requires forall k :: 0 <= k < |a| ==> lo <= a[k] <= hi
    ensures (if lo < 0.0 then lo else 0.0) <= SmoothAsWritten(a, size)[i] <= (if hi > 0.0 then hi else 0.0)
  {
    SmoothAsWrittenHead(a, size, i);
    var x := Sum(Stride2(a[..2 * i + 1]));
    StrideSumBetween(a, lo, hi, i);
    ShrinkTowardsZero(x, lo, hi, (i + 1) as real, (2 * i + 1) as real);
  }

  /** The sum of a[0], a[2], ..., a[2i] lies between (i + 1) * lo and
      (i + 1) * hi. */
  lemma StrideSumBetween(a: seq<real>, lo: real, hi: real, i: nat)
    requires 2 * i < |a|
    requires forall k :: 0 <= k < |a| ==> lo <= a[k] <= hi
    ensures (i + 1) as real * lo <= Sum(Stride2(a[..2 * i + 1])) <= (i + 1) as real * hi
  {
    var t := Stride2(a[..2 * i + 1]);
    assert forall k :: 0 <= k < |t| ==> t[k] == a[2 * k];
    SumBetween(t, lo, hi);
  }

  /** A value between m * lo and m * hi, divided by d >= m, lies between
      min(lo, 0) and max(hi, 0). */
  lemma ShrinkTowardsZero(x: real, lo: real, hi: real, m: real, d: real)
    requires 0.0 < m <= d && m * lo <= x <= m * hi
    ensures (if lo < 0.0 then lo else 0.0) <= x / d <= (if hi > 0.0 then hi else 0.0)
  {
    assert (x / d) * d == x;
    if lo < 0.0 {
      assert d * lo == m * lo + (d - m) * lo;
      assert (d - m) * lo <= 0.0;
    } else {
      ProductNonNegative(m, lo);
    }
    if hi > 0.0 {
      assert d * hi == m * hi + (d - m) * hi;
      ProductNonNegative(d - m, hi);
    } else {
      assert m * hi <= 0.0 by { ProductNonNegative(m, -hi); }
    }
  }

  /** With the series [0, 1, 0, 0, 0] and a window of 5, the second output
      value as written is 0, although the window of three centred on it holds
      a 1. */
  lemma SmoothAsWrittenHeadIsNotCentred()
    ensures var a := [0.0, 1.0, 0.0, 0.0, 0.0];
      SmoothAsWritten(a, 5)[1] == 0.0 && CentredMean(a, 1, HalfWidth(5, 1, 5)) == 1.0 / 3.0
  {
    var a := [0.0, 1.0, 0.0, 0.0, 0.0];
    SmoothAsWrittenHead(a, 5, 1);
    assert Stride2(a[..3]) == [0.0, 0.0];
    assert Sum([0.0, 0.0]) == 0.0 by {
      assert [0.0, 0.0][..1] == [0.0];
      assert [0.0][..0] == [];
    }
    assert a[0..3] == [0.0, 1.0, 0.0];
    assert Sum([0.0, 1.0, 0.0]) == 1.0 by {
      assert [0.0, 1.0, 0.0][..2] == [0.0, 1.0];
      assert [0.0, 1.0][..1] == [0.0];
      assert [0.0][..0] == [];
    }
  }
}
