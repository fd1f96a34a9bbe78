/** The series-repair primitives of preprocess/preprocess.py: linear
    interpolation of a broken stretch, the forward searches for an anchor,
    monotonicity repair, the two zero-run repairs and first differencing.

    Every Python function here rebinds or copies its list, so each is a
    method on a sequence value with a loop, proved equal to a specification
    function that follows the same scan; what the scans promise is proved
    about those functions by the lemmas at the end. */
module Repair {
  import opened Numeric

  // ---------------------------------------------------------------------
  // interpolate
  // ---------------------------------------------------------------------

  /** The valid calls of interpolate: a start inside the list and either the
      end marker -1 or an end after the start. */
  predicate InterpolationBounds(n: nat, s: nat, e: int)
  {
    s < n && (e == -1 || s < e < n)
  }

  /** Per-step increase (theta) between the two anchors. */
  function Slope(v: seq<real>, s: nat, e: nat): real
    requires s < e < |v|
  {
    (v[e] - v[s]) / (e - s) as real
  }

  /** interpolate(v, s, e): with e = -1 every index from s on takes v[s];
      otherwise index s + k, for 0 < k <= e - s, takes v[s] + k * theta. */
  function Interpolated(v: seq<real>, s: nat, e: int): (r: seq<real>)
    requires InterpolationBounds(|v|, s, e)
    ensures |r| == |v|
  {
    if e == -1 then v[..s] + seq(|v| - s, _ => v[s])
    else
      seq(|v|, k requires 0 <= k < |v| =>
        if s < k <= e then v[s] + Slope(v, s, e) * (k - s) as real else v[k])
  }

  /** interpolate copies its argument, then either slice-assigns a flat tail
      or writes the interpolated values one index at a time. */
  method Interpolate(values: seq<real>, s: nat, e: int) returns (r: seq<real>)
    requires InterpolationBounds(|values|, s, e)
    ensures r == Interpolated(values, s, e)
  {
    r := values;
    if e == -1 {
      r := r[..s] + seq(|values| - s, _ => values[s]);
      assert forall k :: 0 <= k < |r| ==> r[k] == Interpolated(values, s, e)[k];
      return;
    }
    var theta := (r[e] - r[s]) / (e - s) as real;
    var step := 1;
    for i := s + 1 to e + 1
      invariant step == i - s
      invariant |r| == |values|
      invariant forall k :: 0 <= k < |r| && !(s < k < i) ==> r[k] == values[k]
      invariant forall k :: s < k < i ==> r[k] == values[s] + theta * (k - s) as real
    {
      r := r[i := r[s] + theta * step as real];
      step := step + 1;
    }
    assert theta == Slope(values, s, e);
    assert forall k :: 0 <= k < |r| ==> r[k] == Interpolated(values, s, e)[k];
  }

  // ---------------------------------------------------------------------
  // Forward searches for an anchor
  // ---------------------------------------------------------------------

  /** First index at or after lo whose value is at least x, or -1. */
  function FirstAtLeast(v: seq<real>, lo: nat, x: real): (r: int)
    ensures r == -1 || (lo <= r < |v| && x <= v[r])
    ensures forall k :: lo <= k < |v| && (r == -1 || k < r) ==> v[k] < x
    decreases |v| - lo
  {
    if lo >= |v| then -1
    else if x <= v[lo] then lo
    else FirstAtLeast(v, lo + 1, x)
  }

  /** First index in [lo, hi) whose value is positive, or -1. */
  function FirstPositive(v: seq<real>, lo: nat, hi: nat): (r: int)
    requires hi <= |v|
    ensures r == -1 || (lo <= r < hi && v[r] > 0.0)
    ensures forall k :: lo <= k < hi && (r == -1 || k < r) ==> v[k] <= 0.0
    decreases hi - lo
  {
    if lo >= hi then -1
    else if v[lo] > 0.0 then lo
    else FirstPositive(v, lo + 1, hi)
  }

  /** get_max_index: the first index after `broken` whose value is at least
      the value just before `broken`, or -1. */
  method GetMaxIndex(values: seq<real>, broken: nat) returns (index: int)
    requires 1 <= broken < |values|
    ensures index == FirstAtLeast(values, broken + 1, values[broken - 1])
    ensures index == -1 || (broken < index < |values| && values[broken - 1] <= values[index])
    ensures forall k :: broken < k < |values| && (index == -1 || k < index) ==> values[k] < values[broken - 1]
  {
    var startValue := values[broken - 1];
    index := broken + 1;
    while index < |values|
      invariant broken + 1 <= index <= |values|
      invariant FirstAtLeast(values, index, startValue) == FirstAtLeast(values, broken + 1, startValue)
      decreases |values| - index
    {
      if startValue <= values[index] {
        return;
      }
      index := index + 1;
    }
    index := -1;
  }

  /** get_nonzero_index: the first index after `broken` with a positive
      value, or -1. */
  method GetNonzeroIndex(values: seq<real>, broken: nat) returns (index: int)
    requires broken < |values|
    ensures index == FirstPositive(values, broken + 1, |values|)
    ensures index == -1 || (broken < index < |values| && values[index] > 0.0)
    ensures forall k :: broken < k < |values| && (index == -1 || k < index) ==> values[k] <= 0.0
  {
    index := broken + 1;
    while index < |values|
      invariant broken + 1 <= index <= |values|
      invariant FirstPositive(values, index, |values|) == FirstPositive(values, broken + 1, |values|)
      decreases |values| - index
    {
      if values[index] > 0.0 {
        return;
      }
      index := index + 1;
    }
    index := -1;
  }

  // ---------------------------------------------------------------------
  // target_to_increased
  // ---------------------------------------------------------------------

  /** The scan of target_to_increased from index i on: a drop below the
      previous value is bridged to the next value that reaches it again, or
      the rest is flattened when none does. */
  function IncreaseFrom(v: seq<real>, i: nat): (r: seq<real>)
    requires 1 <= i
    ensures |r| == |v|
    decreases |v| - i
  {
    if i >= |v| then v
    else if v[i] - v[i - 1] < 0.0 then
      IncreaseFrom(Interpolated(v, i - 1, FirstAtLeast(v, i + 1, v[i - 1])), i + 1)
    else IncreaseFrom(v, i + 1)
  }

  /** target_to_increased(v). */
  function Increased(v: seq<real>): (r: seq<real>)
    ensures |r| == |v|
  {
    IncreaseFrom(v, 1)
  }

  method TargetToIncreased(values: seq<real>) returns (r: seq<real>)
    ensures r == Increased(values)
    ensures |r| == |values| && NonDecreasing(r)
    ensures NonDecreasing(values) ==> r == values
  {
    r := values;
    var i := 1;
    while i < |values|
      invariant 1 <= i
      invariant |r| == |values|
      invariant IncreaseFrom(r, i) == Increased(values)
    {
      if r[i] - r[i - 1] < 0.0 {
        var maxIndex := GetMaxIndex(r, i);
        r := Interpolate(r, i - 1, maxIndex);
      }
      i := i + 1;
    }
    IncreasedIsNonDecreasing(values);
    if NonDecreasing(values) {
      IncreasedOfNonDecreasing(values);
    }
  }

  // ---------------------------------------------------------------------
  // remove_target_zeros
  // ---------------------------------------------------------------------

  /** The scan of remove_target_zeros from index i on: wherever a non-zero
      value (of either sign) is followed by a zero, the stretch is bridged to
      the next positive value, or flattened to the end when there is none. */
  function RemoveZerosFrom(v: seq<real>, i: nat): (r: seq<real>)
    requires 1 <= i
    ensures |r| == |v|
    decreases |v| - i
  {
    if i >= |v| then v
    else if v[i - 1] == 0.0 || v[i] != 0.0 then RemoveZerosFrom(v, i + 1)
    else RemoveZerosFrom(Interpolated(v, i - 1, FirstPositive(v, i + 1, |v|)), i + 1)
  }

  /** remove_target_zeros(v). */
  function ZerosRemoved(v: seq<real>): (r: seq<real>)
    ensures |r| == |v|
  {
    RemoveZerosFrom(v, 1)
  }

  method RemoveTargetZeros(values: seq<real>) returns (r: seq<real>)
    ensures r == ZerosRemoved(values)
    ensures |r| == |values|
    ensures forall k :: 0 <= k < |values| && LeadingZeros(values, k) ==> r[k] == values[k]
  {
    r := values;
    var i := 1;
    while i < |values|
      invariant 1 <= i
      invariant |r| == |values|
      invariant RemoveZerosFrom(r, i) == ZerosRemoved(values)
    {
      if r[i - 1] == 0.0 || r[i] != 0.0 {
        i := i + 1;
        continue;
      }
      var maxIndex := GetNonzeroIndex(r, i);
      r := Interpolate(r, i - 1, maxIndex);
      i := i + 1;
    }
    ZerosRemovedKeepsLeadingPart(values);
  }

  /** Every element before index k is zero, so index k is at or before the
      first non-zero element. */
  predicate LeadingZeros(v: seq<real>, k: nat)
    requires k <= |v|
  {
    forall j :: 0 <= j < k ==> v[j] == 0.0
  }

  // ---------------------------------------------------------------------
  // make_zero_and_negative_removed
  // ---------------------------------------------------------------------

  /** The scan of make_zero_and_negative_removed from index i on. `orig` is
      the list `enumerate` walks (the copy made on entry, which the rebinding
      to interpolate's results never touches), `cur` the current list. A
      positive current value followed by a non-positive original one is
      bridged to the next positive value strictly before the last index; when
      there is none the rest is flattened and the scan stops. */
  function ZeroNegFrom(orig: seq<real>, cur: seq<real>, i: nat): (r: seq<real>)
    requires |orig| == |cur|
    ensures |r| == |cur|
    decreases |cur| - i
  {
    if i >= |cur| then cur
    else if i == 0 || cur[i - 1] <= 0.0 || orig[i] > 0.0 then ZeroNegFrom(orig, cur, i + 1)
    else
      var j := FirstPositive(cur, i + 1, |cur| - 1);
      if j == -1 then cur[..i] + seq(|cur| - i, _ => cur[i - 1])
      else ZeroNegFrom(orig, Interpolated(cur, i - 1, j), i + 1)
  }

  /** make_zero_and_negative_removed(v). */
  function ZeroNegRemoved(v: seq<real>): (r: seq<real>)
    ensures |r| == |v|
  {
    ZeroNegFrom(v, v, 0)
  }

  method MakeZeroAndNegativeRemoved(values: seq<real>) returns (r: seq<real>)
    ensures r == ZeroNegRemoved(values)
    ensures |r| == |values|
    ensures forall k :: 0 <= k < |values| && NoPositiveBefore(values, k) ==> r[k] == values[k]
    ensures forall j, k :: 0 <= j <= k < |values| && values[j] > 0.0 ==> r[k] > 0.0
  {
    r := values;
    var i := 0;
    while i < |values|
      invariant |r| == |values|
      invariant ZeroNegFrom(values, r, i) == ZeroNegRemoved(values)
    {
      var value := values[i];
      if i == 0 || r[i - 1] <= 0.0 || value > 0.0 {
        i := i + 1;
        continue;
      }
      var maxIndex := -1;
      var j := i + 1;
      while j < |r| - 1
        invariant i + 1 <= j
        invariant maxIndex == -1
        invariant FirstPositive(r, j, |r| - 1) == FirstPositive(r, i + 1, |r| - 1)
        decreases |r| - j
      {
        if r[j] > 0.0 {
          maxIndex := j;
          break;
        }
        j := j + 1;
      }
      if maxIndex != -1 {
        r := Interpolate(r, i - 1, maxIndex);
      } else {
        r := r[..i] + seq(|r| - i, _ => r[i - 1]);
        break;
      }
      i := i + 1;
    }
    ZeroNegRemovedProperties(values);
  }

  /** No element before index k is positive. */
  predicate NoPositiveBefore(v: seq<real>, k: nat)
    requires k <= |v|
  {
    forall j :: 0 <= j < k ==> v[j] <= 0.0
  }

  // ---------------------------------------------------------------------
  // target_to_daily
  // ---------------------------------------------------------------------

  /** target_to_daily(v): the first value, then the first differences. */
  function Daily(v: seq<real>): (d: seq<real>)
    requires |v| > 0
    ensures |d| == |v|
  {
    [v[0]] + seq(|v| - 1, i requires 0 <= i < |v| - 1 => v[i + 1] - v[i])
  }

  method TargetToDaily(values: seq<real>) returns (daily: seq<real>)
    requires |values| > 0
    ensures daily == Daily(values)
    ensures |daily| == |values| && daily[0] == values[0]
    ensures forall i :: 1 <= i < |values| ==> daily[i] == values[i] - values[i - 1]
    ensures CumSum(daily) == values
  {
    daily := [];
    daily := daily + [values[0]];
    for i := 0 to |values| - 1
      invariant |daily| == i + 1 && daily[0] == values[0]
      invariant forall k :: 1 <= k <= i ==> daily[k] == values[k] - values[k - 1]
    {
      daily := daily + [values[i + 1] - values[i]];
    }
    DailyDetermined(values, daily);
    DailyThenCumSum(values);
  }

  /** The first value followed by the first differences is Daily. */
  lemma DailyDetermined(v: seq<real>, d: seq<real>)
    requires |v| > 0 && |d| == |v| && d[0] == v[0]
    requires forall k :: 1 <= k < |v| ==> d[k] == v[k] - v[k - 1]
    ensures d == Daily(v)
  {
    var r := Daily(v);
    forall k | 0 <= k < |v|
      ensures d[k] == r[k]
    {
      if k > 0 {
        assert r[k] == v[k] - v[k - 1];
      }
    }
  }

  // ---------------------------------------------------------------------
  // Properties of the specification functions
  // ---------------------------------------------------------------------

  /** What interpolate does to each index: with e = -1 the tail from s is
      flat at v[s]; otherwise nothing outside (s, e] moves, the end anchor
      keeps its value, and consecutive values in [s, e] differ by the same
      step. */
  lemma InterpolatedShape(v: seq<real>, s: nat, e: int)
    requires InterpolationBounds(|v|, s, e)
    ensures var r := Interpolated(v, s, e);
      && (e == -1 ==> forall k :: 0 <= k < |v| ==> r[k] == if k < s then v[k] else v[s])
      && (e != -1 ==> forall k :: 0 <= k < |v| && (k <= s || e < k) ==> r[k] == v[k])
      && (e != -1 ==> r[e] == v[e])
      && (e != -1 ==> forall k :: s <= k < e ==> r[k + 1] - r[k] == Slope(v, s, e))
  {
    if e != -1 {
      InterpolatedAnchor(v, s, e);
      forall k | s <= k < e
        ensures Interpolated(v, s, e)[k + 1] - Interpolated(v, s, e)[k] == Slope(v, s, e)
      {
        InterpolatedStep(v, s, e, k);
      }
    }
  }

  /** theta times the distance between the anchors is their difference, so
      theta has the sign of that difference. */
  lemma SlopeSpansAnchors(v: seq<real>, s: nat, e: nat)
    requires s < e < |v|
    ensures Slope(v, s, e) * (e - s) as real == v[e] - v[s]
    ensures v[s] <= v[e] ==> Slope(v, s, e) >= 0.0
    ensures v[e] <= v[s] ==> Slope(v, s, e) <= 0.0
  {
  }

  /** The interpolated stretch ends exactly on the end anchor. */
  lemma InterpolatedAnchor(v: seq<real>, s: nat, e: nat)
    requires s < e < |v|
    ensures Interpolated(v, s, e)[e] == v[e]
  {
    SlopeSpansAnchors(v, s, e);
    assert Interpolated(v, s, e)[e] == v[s] + Slope(v, s, e) * (e - s) as real;
  }

  /** Consecutive values of the interpolated stretch differ by theta. */
  lemma InterpolatedStep(v: seq<real>, s: nat, e: nat, k: nat)
    requires s < e < |v| && s <= k < e
    ensures Interpolated(v, s, e)[k + 1] - Interpolated(v, s, e)[k] == Slope(v, s, e)
  {
    var t := Slope(v, s, e);
    var r := Interpolated(v, s, e);
    assert r[k + 1] == v[s] + t * (k + 1 - s) as real;
    assert t * (k + 1 - s) as real == t * (k - s) as real + t;
    if k == s {
      assert r[k] == v[s];
    } else {
      assert r[k] == v[s] + t * (k - s) as real;
    }
  }

  /** a + t * j for 0 < j <= L lies strictly inside the range spanned by a
      and a + t * L, or on its upper end. */
  lemma LerpBetween(a: real, t: real, j: real, L: real)
    requires 0.0 < j <= L
    ensures t >= 0.0 ==> a <= a + t * j <= a + t * L
    ensures t <= 0.0 ==> a + t * L <= a + t * j <= a
  {
    if t >= 0.0 {
      assert t * (L - j) >= 0.0;
      assert t * j >= 0.0;
    } else {
      assert t * (L - j) <= 0.0;
      assert t * j <= 0.0;
    }
  }

  /** An interpolated value lies between the two anchors it joins. */
  lemma InterpolatedBetween(v: seq<real>, s: nat, e: nat, k: nat)
    requires s < e < |v| && s < k <= e
    ensures var r := Interpolated(v, s, e)[k];
      (v[s] <= v[e] ==> v[s] <= r <= v[e]) && (v[e] <= v[s] ==> v[e] <= r <= v[s])
  {
    var t := Slope(v, s, e);
    assert Interpolated(v, s, e)[k] == v[s] + t * (k - s) as real;
    SlopeSpansAnchors(v, s, e);
    LerpBetween(v[s], t, (k - s) as real, (e - s) as real);
  }

  /** Inside a rising interpolated stretch, later values are not smaller. */
  lemma InterpolatedRises(v: seq<real>, s: nat, e: nat, j: nat, k: nat)
    requires s < j <= k <= e < |v| && v[s] <= v[e]
    ensures Interpolated(v, s, e)[j] <= Interpolated(v, s, e)[k]
  {
    var t := Slope(v, s, e);
    var J := (j - s) as real;
    var K := (k - s) as real;
    SlopeSpansAnchors(v, s, e);
    assert Interpolated(v, s, e)[j] == v[s] + t * J;
    assert Interpolated(v, s, e)[k] == v[s] + t * K;
    ProductNonNegative(t, K - J);
    assert t * K == t * J + t * (K - J);
  }

  /** InterpolatedNonDecreasing for one pair of indices. */
  lemma InterpolatedOrderedAt(v: seq<real>, s: nat, e: int, j: nat, k: nat)
    requires InterpolationBounds(|v|, s, e)
    requires NonDecreasing(v[..s + 1])
    requires e != -1 ==> v[s] <= v[e]
    requires j <= k < (if e == -1 then |v| else e + 1)
    ensures Interpolated(v, s, e)[j] <= Interpolated(v, s, e)[k]
  {
    var r := Interpolated(v, s, e);
    var pre := v[..s + 1];
    if e == -1 {
      if k < s {
        assert pre[j] <= pre[k];
      } else if j < s {
        assert pre[j] <= pre[s];
      }
    } else if k <= s {
      assert pre[j] <= pre[k];
    } else if j <= s {
      assert pre[j] <= pre[s];
      InterpolatedBetween(v, s, e, k);
    } else {
      InterpolatedRises(v, s, e, j, k);
    }
  }

  /** Interpolating up to an anchor at least as large as the start keeps the
      list non-decreasing up to that anchor, given it was up to the start;
      flattening the tail makes the whole list non-decreasing. */
  lemma InterpolatedNonDecreasing(v: seq<real>, s: nat, e: int)
    requires InterpolationBounds(|v|, s, e)
    requires NonDecreasing(v[..s + 1])
    requires e != -1 ==> v[s] <= v[e]
    ensures NonDecreasing(Interpolated(v, s, e)[..if e == -1 then |v| else e + 1])
  {
    var top := if e == -1 then |v| else e + 1;
    var p := Interpolated(v, s, e)[..top];
    forall j, k | 0 <= j <= k < |p|
      ensures p[j] <= p[k]
    {
      InterpolatedOrderedAt(v, s, e, j, k);
    }
  }

  /** The monotonicity scan ends non-decreasing whenever the part before its
      current index already is. */
  lemma {:induction false} IncreaseFromNonDecreasing(v: seq<real>, i: nat)
    requires 1 <= i <= |v|
    requires NonDecreasing(v[..i])
    ensures NonDecreasing(IncreaseFrom(v, i))
    decreases |v| - i
  {
    if i == |v| {
      assert v[..i] == v;
    } else {
      IncreaseFromStep(v, i);
      IncreaseVisitSorted(v, i);
      IncreaseFromNonDecreasing(IncreaseVisit(v, i), i + 1);
    }
  }

  /** A visit of the monotonicity scan extends the non-decreasing prefix by
      one index. */
  lemma IncreaseVisitSorted(v: seq<real>, i: nat)
    requires 1 <= i < |v|
    requires NonDecreasing(v[..i])
    ensures NonDecreasing(IncreaseVisit(v, i)[..i + 1])
  {
    if v[i] - v[i - 1] < 0.0 {
      var m := FirstAtLeast(v, i + 1, v[i - 1]);
      assert v[..i] == v[..(i - 1) + 1];
      InterpolatedNonDecreasing(v, i - 1, m);
      var w := Interpolated(v, i - 1, m);
      var top := if m == -1 then |v| else m + 1;
      assert w[..i + 1] == w[..top][..i + 1];
    } else {
      var u := v[..i + 1];
      var pre := v[..i];
      forall j, k | 0 <= j <= k < i + 1
        ensures u[j] <= u[k]
      {
        if k < i {
          assert pre[j] <= pre[k];
        } else if j < i {
          assert pre[j] <= pre[i - 1];
        }
      }
    }
  }

  /** target_to_increased always returns a non-decreasing list. */
  lemma IncreasedIsNonDecreasing(v: seq<real>)
    ensures NonDecreasing(Increased(v))
  {
    if |v| > 0 {
      assert NonDecreasing(v[..1]);
      IncreaseFromNonDecreasing(v, 1);
    }
  }

  /** The list after the monotonicity scan has visited index i. */
  function IncreaseVisit(v: seq<real>, i: nat): (r: seq<real>)
    requires 1 <= i < |v|
    ensures |r| == |v|
  {
    if v[i] - v[i - 1] < 0.0 then Interpolated(v, i - 1, FirstAtLeast(v, i + 1, v[i - 1])) else v
  }

  /** One step of the monotonicity scan, which leaves the indices before i
      alone. */
  lemma IncreaseFromStep(v: seq<real>, i: nat)
    requires 1 <= i < |v|
    ensures IncreaseFrom(v, i) == IncreaseFrom(IncreaseVisit(v, i), i + 1)
    ensures IncreaseVisit(v, i)[..i] == v[..i]
  {
    if v[i] - v[i - 1] < 0.0 {
      InterpolatedShape(v, i - 1, FirstAtLeast(v, i + 1, v[i - 1]));
    }
  }

  /** The monotonicity scan never touches the indices before its current
      one. */
  lemma {:induction false} IncreaseFromKeepsPrefix(v: seq<real>, i: nat)
    requires 1 <= i <= |v|
    ensures IncreaseFrom(v, i)[..i] == v[..i]
    decreases |v| - i
  {
    if i < |v| {
      var w := IncreaseVisit(v, i);
      IncreaseFromStep(v, i);
      IncreaseFromKeepsPrefix(w, i + 1);
      var r := IncreaseFrom(w, i + 1);
      assert r[..i] == r[..i + 1][..i];
    }
  }

  /** While the list is non-decreasing up to p, the scan passes indices below
      p without repairing anything. */
  lemma {:induction false} IncreaseFromSkipsSortedPart(v: seq<real>, i: nat, p: nat)
    requires 1 <= i <= p <= |v|
    requires NonDecreasing(v[..p])
    ensures IncreaseFrom(v, i) == IncreaseFrom(v, p)
    decreases p - i
  {
    if i < p {
      assert v[..p][i - 1] == v[i - 1] && v[..p][i] == v[i];
      IncreaseFromSkipsSortedPart(v, i + 1, p);
    }
  }

  /** target_to_increased leaves a non-decreasing prefix exactly as it was. */
  lemma IncreasedKeepsSortedPrefix(v: seq<real>, p: nat)
    requires 1 <= p <= |v|
    requires NonDecreasing(v[..p])
    ensures Increased(v)[..p] == v[..p]
  {
    IncreaseFromSkipsSortedPart(v, 1, p);
    IncreaseFromKeepsPrefix(v, p);
  }

  /** A list that is already non-decreasing comes back unchanged. */
  lemma IncreasedOfNonDecreasing(v: seq<real>)
    requires NonDecreasing(v)
    ensures Increased(v) == v
  {
    if |v| > 0 {
      assert v[..|v|] == v;
      IncreasedKeepsSortedPrefix(v, |v|);
      assert Increased(v)[..|v|] == Increased(v);
    }
  }

  /** The list after the zero-run scan has visited index i. */
  function RemoveZerosVisit(v: seq<real>, i: nat): (r: seq<real>)
    requires 1 <= i < |v|
    ensures |r| == |v|
  {
    if v[i - 1] == 0.0 || v[i] != 0.0 then v else Interpolated(v, i - 1, FirstPositive(v, i + 1, |v|))
  }

  /** One step of the zero-run scan, which leaves the indices before i
      alone. */
  lemma RemoveZerosFromStep(v: seq<real>, i: nat)
    requires 1 <= i < |v|
    ensures RemoveZerosFrom(v, i) == RemoveZerosFrom(RemoveZerosVisit(v, i), i + 1)
    ensures RemoveZerosVisit(v, i)[..i] == v[..i]
  {
    if !(v[i - 1] == 0.0 || v[i] != 0.0) {
      InterpolatedShape(v, i - 1, FirstPositive(v, i + 1, |v|));
    }
  }

  /** The zero-run scan never touches the indices before its current one. */
  lemma {:induction false} RemoveZerosFromKeepsPrefix(v: seq<real>, i: nat)
    requires 1 <= i <= |v|
    ensures RemoveZerosFrom(v, i)[..i] == v[..i]
    decreases |v| - i
  {
    if i < |v| {
      var w := RemoveZerosVisit(v, i);
      RemoveZerosFromStep(v, i);
      RemoveZerosFromKeepsPrefix(w, i + 1);
      var r := RemoveZerosFrom(w, i + 1);
      assert r[..i] == r[..i + 1][..i];
    }
  }

  /** Over a run of leading zeros the zero-run scan finds nothing to do. */
  lemma {:induction false} RemoveZerosFromSkipsLeadingZeros(v: seq<real>, i: nat, p: nat)
    requires 1 <= i <= p <= |v|
    requires LeadingZeros(v, p - 1)
    ensures RemoveZerosFrom(v, i) == RemoveZerosFrom(v, p)
    decreases p - i
  {
    if i < p {
      RemoveZerosFromSkipsLeadingZeros(v, i + 1, p);
    }
  }

  /** remove_target_zeros leaves every element up to and including the first
      non-zero one unchanged. */
  lemma ZerosRemovedKeepsLeadingPart(v: seq<real>)
    ensures forall k :: 0 <= k < |v| && LeadingZeros(v, k) ==> ZerosRemoved(v)[k] == v[k]
  {
    forall k | 0 <= k < |v| && LeadingZeros(v, k)
      ensures ZerosRemoved(v)[k] == v[k]
    {
      RemoveZerosFromSkipsLeadingZeros(v, 1, k + 1);
      RemoveZerosFromKeepsPrefix(v, k + 1);
      assert ZerosRemoved(v)[..k + 1][k] == ZerosRemoved(v)[k];
    }
  }

  /** The zero-run scan leaves a positive tail alone: any zero it bridges
      lies before the tail, and the bridge ends at the tail's first value at
      the latest, which keeps its value. */
  lemma {:induction false} RemoveZerosFromKeepsPositiveTail(v: seq<real>, i: nat, p: nat)
    requires 1 <= i && p <= |v|
    requires forall k :: p <= k < |v| ==> v[k] > 0.0
    ensures forall k :: p <= k < |v| ==> RemoveZerosFrom(v, i)[k] == v[k]
    decreases |v| - i
  {
    if i >= |v| {
    } else if v[i - 1] == 0.0 || v[i] != 0.0 {
      RemoveZerosFromKeepsPositiveTail(v, i + 1, p);
    } else {
      var j := FirstPositive(v, i + 1, |v|);
      if p < |v| {
        assert i < p && v[p] > 0.0;
        assert j != -1 && j <= p;
      }
      InterpolatedShape(v, i - 1, j);
      var w := Interpolated(v, i - 1, j);
      assert forall k :: p <= k < |v| ==> w[k] == v[k];
      RemoveZerosFromKeepsPositiveTail(w, i + 1, p);
    }
  }

  /** remove_target_zeros leaves a positive tail of the list unchanged. */
  lemma ZerosRemovedKeepsPositiveTail(v: seq<real>, p: nat)
    requires p <= |v|
    requires forall k :: p <= k < |v| ==> v[k] > 0.0
    ensures forall k :: p <= k < |v| ==> ZerosRemoved(v)[k] == v[k]
  {
    RemoveZerosFromKeepsPositiveTail(v, 1, p);
  }

  /** No element is negative. */
  predicate NonNegative(s: seq<real>)
  {
    forall k :: 0 <= k < |s| ==> s[k] >= 0.0
  }

  /** What bridging from a positive value at s to the next positive value in
      [s + 2, hi) does at index k: indices up to s and from the anchor on
      keep their value; those strictly between become positive, and all of
      them but s + 1 held a non-positive value before. */
  lemma BridgeAt(v: seq<real>, s: nat, hi: nat, k: nat)
    requires s < hi <= |v| && k < |v|
    requires v[s] > 0.0
    ensures var m := FirstPositive(v, s + 2, hi);
      var w := Interpolated(v, s, m);
      && (k <= s || (m != -1 && m <= k) ==> w[k] == v[k])
      && (s < k && (m == -1 || k < m) ==> w[k] > 0.0)
      && (s + 1 < k < hi && (m == -1 || k < m) ==> v[k] <= 0.0)
  {
    var m := FirstPositive(v, s + 2, hi);
    InterpolatedShape(v, s, m);
    if m != -1 && s < k < m {
      InterpolatedBetween(v, s, m, k);
    }
  }

  /** The state the zero-run scan keeps on a non-negative list: still
      non-negative, every positive original value in place, and up to index
      i nothing drops back to zero after a positive value. */
  predicate ZeroScanInvariant(orig: seq<real>, cur: seq<real>, i: nat)
  {
    && |cur| == |orig|
    && NonNegative(cur)
    && (forall k :: 0 <= k < |orig| && orig[k] > 0.0 ==> cur[k] == orig[k])
    && (forall j, k :: 0 <= j <= k < i && k < |cur| && cur[j] > 0.0 ==> cur[k] > 0.0)
  }

  /** An index the zero-run scan passes over keeps its invariant. */
  lemma ZeroScanSkip(orig: seq<real>, cur: seq<real>, i: nat)
    requires 1 <= i < |cur|
    requires ZeroScanInvariant(orig, cur, i)
    requires cur[i - 1] == 0.0 || cur[i] != 0.0
    ensures ZeroScanInvariant(orig, cur, i + 1)
  {
    forall j | 0 <= j < i && cur[j] > 0.0
      ensures cur[i] > 0.0
    {
      assert cur[i - 1] > 0.0;
    }
  }

  /** A bridged zero run keeps the invariant of the zero-run scan. */
  lemma ZeroScanRepair(orig: seq<real>, cur: seq<real>, i: nat)
    requires 1 <= i < |cur|
    requires ZeroScanInvariant(orig, cur, i)
    requires cur[i - 1] != 0.0 && cur[i] == 0.0
    ensures ZeroScanInvariant(orig, Interpolated(cur, i - 1, FirstPositive(cur, i + 1, |cur|)), i + 1)
  {
    var w := Interpolated(cur, i - 1, FirstPositive(cur, i + 1, |cur|));
    forall k | 0 <= k < |cur|
      ensures w[k] >= 0.0
      ensures orig[k] > 0.0 ==> w[k] == orig[k]
      ensures k < i ==> w[k] == cur[k]
    {
      ZeroScanRepairAt(orig, cur, i, k);
    }
    ZeroScanRepairAt(orig, cur, i, i);
    forall j, k | 0 <= j <= k < i + 1 && k < |w| && w[j] > 0.0
      ensures w[k] > 0.0
    {
      if k < i {
        assert cur[j] > 0.0;
      }
    }
  }

  /** ZeroScanRepair at one index. */
  lemma ZeroScanRepairAt(orig: seq<real>, cur: seq<real>, i: nat, k: nat)
    requires 1 <= i < |cur| && k < |cur|
    requires ZeroScanInvariant(orig, cur, i)
    requires cur[i - 1] != 0.0 && cur[i] == 0.0
    ensures var w := Interpolated(cur, i - 1, FirstPositive(cur, i + 1, |cur|));
      && w[k] >= 0.0
      && (orig[k] > 0.0 ==> w[k] == orig[k])
      && (k < i ==> w[k] == cur[k])
      && (k == i ==> w[k] > 0.0)
  {
    assert cur[k] >= 0.0;
    BridgeAt(cur, i - 1, |cur|, k);
  }

  lemma {:induction false} RemoveZerosFromNonNegative(orig: seq<real>, cur: seq<real>, i: nat)
    requires 1 <= i
    requires ZeroScanInvariant(orig, cur, i)
    ensures ZeroScanInvariant(orig, RemoveZerosFrom(cur, i), |cur|)
    decreases |cur| - i
  {
    if i >= |cur| {
    } else if cur[i - 1] == 0.0 || cur[i] != 0.0 {
      ZeroScanSkip(orig, cur, i);
      RemoveZerosFromNonNegative(orig, cur, i + 1);
    } else {
      ZeroScanRepair(orig, cur, i);
      RemoveZerosFromNonNegative(orig, Interpolated(cur, i - 1, FirstPositive(cur, i + 1, |cur|)), i + 1);
    }
  }

  /** On a non-negative list remove_target_zeros keeps every positive value,
      stays non-negative, and once a value is non-zero no later value is
      zero. */
  lemma ZerosRemovedOnNonNegative(v: seq<real>)
    requires NonNegative(v)
    ensures var r := ZerosRemoved(v);
      && NonNegative(r)
      && (forall k :: 0 <= k < |v| && v[k] > 0.0 ==> r[k] == v[k])
      && (forall j, k :: 0 <= j <= k < |r| && r[j] != 0.0 ==> r[k] != 0.0)
  {
    assert ZeroScanInvariant(v, v, 1);
    RemoveZerosFromNonNegative(v, v, 1);
  }

  /** The state the zero-and-negative scan keeps: changed positions hold
      positive values, nothing moves before the first positive original
      value, and up to index i everything from the first positive original
      value on is positive. */
  predicate ZeroNegInvariant(orig: seq<real>, cur: seq<real>, i: nat)
  {
    && |cur| == |orig|
    && (forall k :: 0 <= k < |cur| && cur[k] != orig[k] ==> cur[k] > 0.0)
    && (forall k :: 0 <= k < |cur| && NoPositiveBefore(orig, k) ==> cur[k] == orig[k])
    && (forall j, k :: 0 <= j <= k < i && k < |cur| && orig[j] > 0.0 ==> cur[k] > 0.0)
  }

  /** A positive current value sits at or after the first positive original
      value. */
  lemma PositiveHasOrigin(orig: seq<real>, cur: seq<real>, i: nat, k: nat)
    requires ZeroNegInvariant(orig, cur, i)
    requires k < |cur| && cur[k] > 0.0
    ensures exists j :: 0 <= j <= k && orig[j] > 0.0
  {
    if cur[k] == orig[k] {
      assert orig[k] > 0.0;
    } else {
      assert !NoPositiveBefore(orig, k);
    }
  }

  /** An index the zero-and-negative scan passes over keeps its invariant. */
  lemma ZeroNegSkip(orig: seq<real>, cur: seq<real>, i: nat)
    requires i < |cur|
    requires ZeroNegInvariant(orig, cur, i)
    requires i == 0 || cur[i - 1] <= 0.0 || orig[i] > 0.0
    ensures ZeroNegInvariant(orig, cur, i + 1)
  {
    forall j | 0 <= j <= i && orig[j] > 0.0
      ensures cur[i] > 0.0
    {
      if j < i {
        assert cur[i - 1] > 0.0;
      }
      assert orig[i] > 0.0;
    }
  }

  /** One index of a bridged stretch, for the zero-and-negative scan. */
  lemma ZeroNegRepairAt(orig: seq<real>, cur: seq<real>, i: nat, j0: nat, k: nat)
    requires 1 <= i < |cur| == |orig| && k < |cur|
    requires cur[i - 1] > 0.0 && FirstPositive(cur, i + 1, |cur| - 1) != -1
    requires j0 < i && orig[j0] > 0.0
    requires cur[k] != orig[k] ==> cur[k] > 0.0
    requires NoPositiveBefore(orig, k) ==> cur[k] == orig[k]
    ensures var w := Interpolated(cur, i - 1, FirstPositive(cur, i + 1, |cur| - 1));
      && (w[k] != orig[k] ==> w[k] > 0.0)
      && (NoPositiveBefore(orig, k) ==> w[k] == orig[k])
      && (k < i ==> w[k] == cur[k])
      && (k == i ==> w[k] > 0.0)
  {
    BridgeAt(cur, i - 1, |cur| - 1, k);
    if k >= i {
      assert j0 < k && orig[j0] > 0.0;
    }
  }

  /** A bridged stretch keeps the invariant of the zero-and-negative scan. */
  lemma ZeroNegRepair(orig: seq<real>, cur: seq<real>, i: nat)
    requires 1 <= i < |cur|
    requires ZeroNegInvariant(orig, cur, i)
    requires cur[i - 1] > 0.0 && FirstPositive(cur, i + 1, |cur| - 1) != -1
    ensures ZeroNegInvariant(orig, Interpolated(cur, i - 1, FirstPositive(cur, i + 1, |cur| - 1)), i + 1)
  {
    PositiveHasOrigin(orig, cur, i, i - 1);
    var j0 :| 0 <= j0 <= i - 1 && orig[j0] > 0.0;
    var w := Interpolated(cur, i - 1, FirstPositive(cur, i + 1, |cur| - 1));
    forall k | 0 <= k < |cur|
      ensures w[k] != orig[k] ==> w[k] > 0.0
      ensures NoPositiveBefore(orig, k) ==> w[k] == orig[k]
      ensures k < i ==> w[k] == cur[k]
      ensures k == i ==> w[k] > 0.0
    {
      ZeroNegRepairAt(orig, cur, i, j0, k);
    }
    forall j, k | 0 <= j <= k < i + 1 && orig[j] > 0.0
      ensures w[k] > 0.0
    {
      if k < i {
        assert cur[k] > 0.0;
      }
    }
  }

  /** Flattening the rest keeps the invariant of the zero-and-negative scan,
      up to the end of the list. */
  lemma ZeroNegFlatten(orig: seq<real>, cur: seq<real>, i: nat)
    requires 1 <= i < |cur|
    requires ZeroNegInvariant(orig, cur, i)
    requires cur[i - 1] > 0.0
    ensures ZeroNegInvariant(orig, cur[..i] + seq(|cur| - i, _ => cur[i - 1]), |cur|)
  {
    PositiveHasOrigin(orig, cur, i, i - 1);
    var j0 :| 0 <= j0 <= i - 1 && orig[j0] > 0.0;
    var r := cur[..i] + seq(|cur| - i, _ => cur[i - 1]);
    forall k | 0 <= k < |cur|
      ensures r[k] == if k < i then cur[k] else cur[i - 1]
      ensures k >= i ==> !NoPositiveBefore(orig, k)
    {
      if k >= i {
        assert j0 < k && orig[j0] > 0.0;
      }
    }
  }

  /** The zero-and-negative scan has nothing left to visit at index i: it is
      past the end, or it flattens the rest. */
  predicate ZeroNegStops(orig: seq<real>, cur: seq<real>, i: nat)
    requires |orig| == |cur|
  {
    i >= |cur| || (i != 0 && cur[i - 1] > 0.0 && orig[i] <= 0.0 && FirstPositive(cur, i + 1, |cur| - 1) == -1)
  }

  /** The list after the zero-and-negative scan has visited index i and
      goes on. */
  function ZeroNegVisit(orig: seq<real>, cur: seq<real>, i: nat): (r: seq<real>)
    requires |orig| == |cur| && i < |cur| && !ZeroNegStops(orig, cur, i)
    ensures |r| == |cur|
  {
    if i == 0 || cur[i - 1] <= 0.0 || orig[i] > 0.0 then cur
    else Interpolated(cur, i - 1, FirstPositive(cur, i + 1, |cur| - 1))
  }

  /** The scan past its last index, or after flattening the rest, leaves
      a list that satisfies the invariant up to the end. */
  lemma ZeroNegFromStops(orig: seq<real>, cur: seq<real>, i: nat)
    requires ZeroNegInvariant(orig, cur, i) && ZeroNegStops(orig, cur, i)
    ensures ZeroNegInvariant(orig, ZeroNegFrom(orig, cur, i), |orig|)
  {
    if i < |cur| {
      assert ZeroNegFrom(orig, cur, i) == cur[..i] + seq(|cur| - i, _ => cur[i - 1]);
      ZeroNegFlatten(orig, cur, i);
    }
  }

  /** One step of the scan that goes on: the invariant moves one index on. */
  lemma ZeroNegAdvance(orig: seq<real>, cur: seq<real>, i: nat)
    requires ZeroNegInvariant(orig, cur, i) && i < |cur| && !ZeroNegStops(orig, cur, i)
    ensures ZeroNegFrom(orig, cur, i) == ZeroNegFrom(orig, ZeroNegVisit(orig, cur, i), i + 1)
    ensures ZeroNegInvariant(orig, ZeroNegVisit(orig, cur, i), i + 1)
  {
    if i == 0 || cur[i - 1] <= 0.0 || orig[i] > 0.0 {
      ZeroNegSkip(orig, cur, i);
    } else {
      ZeroNegRepair(orig, cur, i);
    }
  }

  lemma {:induction false} ZeroNegFromProperties(orig: seq<real>, cur: seq<real>, i: nat)
    requires ZeroNegInvariant(orig, cur, i)
    ensures ZeroNegInvariant(orig, ZeroNegFrom(orig, cur, i), |orig|)
    decreases |cur| - i
  {
    if ZeroNegStops(orig, cur, i) {
      ZeroNegFromStops(orig, cur, i);
    } else {
      ZeroNegAdvance(orig, cur, i);
      ZeroNegFromProperties(orig, ZeroNegVisit(orig, cur, i), i + 1);
    }
  }

  /** make_zero_and_negative_removed leaves everything up to and including
      the first positive value unchanged, and from there on every value is
      positive. */
  lemma ZeroNegRemovedProperties(v: seq<real>)
    ensures var r := ZeroNegRemoved(v);
      && (forall k :: 0 <= k < |v| && NoPositiveBefore(v, k) ==> r[k] == v[k])
      && (forall j, k :: 0 <= j <= k < |v| && v[j] > 0.0 ==> r[k] > 0.0)
  {
    ZeroNegFromProperties(v, v, 0);
  }

  /** Before the first drop (a positive value followed by a non-positive
      one) the scan only moves on. */
  lemma {:induction false} ZeroNegSkipsToFirstDrop(v: seq<real>, k: nat, i: nat)
    requires k <= i < |v|
    requires forall j :: 1 <= j < i ==> v[j - 1] <= 0.0 || v[j] > 0.0
    ensures ZeroNegFrom(v, v, k) == ZeroNegFrom(v, v, i)
    decreases i - k
  {
    if k < i {
      assert k == 0 || v[k - 1] <= 0.0 || v[k] > 0.0;
      ZeroNegSkipsToFirstDrop(v, k + 1, i);
    }
  }

  /** make_zero_and_negative_removed at its first drop, when no positive
      value follows before the last index: the value before the drop is
      copied over the whole rest of the series, the last value included,
      and the scan stops. */
  lemma ZeroNegFlattensAtFirstDrop(v: seq<real>, i: nat)
    requires 1 <= i < |v|
    requires v[i - 1] > 0.0 && v[i] <= 0.0
    requires forall j :: 1 <= j < i ==> v[j - 1] <= 0.0 || v[j] > 0.0
    requires forall j :: i < j < |v| - 1 ==> v[j] <= 0.0
    ensures ZeroNegRemoved(v) == v[..i] + seq(|v| - i, _ => v[i - 1])
  {
    ZeroNegSkipsToFirstDrop(v, 0, i);
    assert FirstPositive(v, i + 1, |v| - 1) == -1;
  }

  /** The anchor search stops before the last index, so in [1, 0, 5] the
      final 5 is overwritten: the result is [1, 1, 1]. */
  lemma ZeroNegFlattenOverwritesLast()
    ensures ZeroNegRemoved([1.0, 0.0, 5.0]) == [1.0, 1.0, 1.0]
  {
    var v := [1.0, 0.0, 5.0];
    ZeroNegFlattensAtFirstDrop(v, 1);
    assert v[..1] + seq(2, _ => v[0]) == [1.0, 1.0, 1.0];
  }

  /** Prefix sums of the daily series give back the cumulative one. */
  lemma DailyThenCumSum(v: seq<real>)
    requires |v| > 0
    ensures CumSum(Daily(v)) == v
  {
    var d := Daily(v);
    forall i | 0 <= i < |v|
      ensures CumSum(d)[i] == v[i]
    {
      DailyPrefixSum(v, i);
    }
  }

  lemma {:induction false} DailyPrefixSum(v: seq<real>, i: nat)
    requires i < |v|
    ensures Sum(Daily(v)[..i + 1]) == v[i]
  {
    var d := Daily(v);
    SumPrefixStep(d, i);
    if i == 0 {
      assert d[..0] == [];
    } else {
      DailyPrefixSum(v, i - 1);
    }
  }

  /** Differencing the prefix sums gives back the daily series. */
  lemma CumSumThenDaily(d: seq<real>)
    requires |d| > 0
    ensures Daily(CumSum(d)) == d
  {
    var c := CumSum(d);
    forall i | 0 <= i < |d|
      ensures Daily(c)[i] == d[i]
    {
      if i == 0 {
        SumPrefixStep(d, 0);
        assert d[..0] == [];
      } else {
        SumPrefixStep(d, i);
        assert Daily(c)[i] == c[i] - c[i - 1];
        assert c[i - 1] == Sum(d[..i]);
      }
    }
  }

  /** A non-decreasing cumulative series has no negative daily count after
      the first day. */
  lemma DailyOfNonDecreasing(v: seq<real>)
    requires |v| > 0 && NonDecreasing(v)
    ensures forall i :: 1 <= i < |v| ==> Daily(v)[i] >= 0.0
  {
  }
}
