/** loader.py: I_Loader, which cuts a table of infection values (one row per
    region, one column per date) into consecutive pairs of an input window
    of x_frames dates and the y_frames dates that follow it.

    Dates are day ordinals. The date labels are strings formatted with
    '%Y-%m-%d', which sort in the same order as the days, so label slicing
    is modelled on the days directly. A table is stored column by
    column. */
module Loader {

  /** The infection table: region labels, date labels (sorted, as the
      loaded table's columns are) and one column of values per date. */
  datatype Frame = Frame(regions: seq<string>, dates: seq<int>, columns: seq<seq<real>>)
  {
    /** One column per date, one value per region in every column. */
    predicate WellFormed()
    {
      |columns| == |dates| && forall j :: 0 <= j < |columns| ==> |columns[j]| == |regions|
    }
  }

  /** The dates strictly increase. */
  predicate Sorted(dates: seq<int>)
  {
    forall i, j :: 0 <= i < j < |dates| ==> dates[i] < dates[j]
  }

  /** Python's slice bound: a position clamped to the length. */
  function Clamp(k: nat, n: nat): (r: nat)
    ensures r <= n && (k <= n ==> r == k)
  {
    if k <= n then k else n
  }

  /** iloc[:, a:b]: the columns at positions a up to b, both clamped to the
      table's width; nothing when the clamped end is not after the start. */
  function ColumnSlice(f: Frame, a: nat, b: nat): (r: Frame)
    requires f.WellFormed()
    ensures r.WellFormed() && r.regions == f.regions
    ensures |r.dates| == if Clamp(a, |f.dates|) <= Clamp(b, |f.dates|) then Clamp(b, |f.dates|) - Clamp(a, |f.dates|) else 0
    ensures forall k :: 0 <= k < |r.dates| ==> r.dates[k] == f.dates[a + k] && r.columns[k] == f.columns[a + k]
  {
    var lo := Clamp(a, |f.dates|);
    var hi := Clamp(b, |f.dates|);
    if lo <= hi then Frame(f.regions, f.dates[lo..hi], f.columns[lo..hi])
    else Frame(f.regions, [], [])
  }

  /** The first position from i on whose date is at least lo, or the end. */
  function FirstAtLeast(dates: seq<int>, i: nat, lo: int): (r: nat)
    requires i <= |dates|
    ensures i <= r <= |dates| && (r < |dates| ==> dates[r] >= lo)
    ensures forall k :: i <= k < r ==> dates[k] < lo
    decreases |dates| - i
  {
    if i == |dates| || dates[i] >= lo then i else FirstAtLeast(dates, i + 1, lo)
  }

  /** loc[:, lo:hi] on a sorted date axis: from the first date at least lo to
      just before the first date after hi (searchsorted left and right). */
  function LabelSlice(f: Frame, lo: int, hi: int): (r: Frame)
    requires f.WellFormed()
    ensures r.WellFormed() && r.regions == f.regions
  {
    var a := FirstAtLeast(f.dates, 0, lo);
    var b := FirstAtLeast(f.dates, 0, hi + 1);
    ColumnSlice(f, a, b)
  }

  class ILoader {
    var testStart: int
    var testEnd: int
    var xFrames: nat
    var yFrames: nat
    var start: int
    var end: int
    var frame: Frame
    var len: int

    /** len counts the columns of the stored table. */
    predicate Valid()
      reads this
    {
      frame.WellFormed() && len == |frame.dates|
    }

    /** __init__: stores the test period and window sizes, then initiate. */
    constructor (df: Frame, testStart: int, testEnd: int, xFrames: nat, yFrames: nat)
      requires df.WellFormed()
      ensures Valid()
      ensures this.testStart == testStart && this.testEnd == testEnd
      ensures this.xFrames == xFrames && this.yFrames == yFrames
      ensures start == testStart - xFrames && end == testEnd + yFrames - 1
      ensures frame == LabelSlice(df, start, end)
    {
      this.testStart := testStart;
      this.testEnd := testEnd;
      this.xFrames := xFrames;
      this.yFrames := yFrames;
      start := testStart - xFrames;
      end := testEnd + yFrames - 1;
      var sliced := LabelSlice(df, testStart - xFrames, testEnd + yFrames - 1);
      frame := sliced;
      len := |sliced.dates|;
    }

    /** initiate(I_df): the table is cut to the dates from x_frames days
        before the test start to y_frames - 1 days after the test end. */
    method Initiate(df: Frame)
      requires df.WellFormed()
      modifies this`start, this`end, this`frame, this`len
      ensures Valid()
      ensures start == testStart - xFrames && end == testEnd + yFrames - 1
      ensures frame == LabelSlice(df, start, end) && len == |frame.dates|
    {
      start := testStart - xFrames;
      end := testEnd + yFrames - 1;
      frame := LabelSlice(df, start, end);
      len := |frame.dates|;
    }

    /** __len__: the number of positions at which a full pair of windows
        starts. */
    function Length(): (n: int)
      reads this
      requires Valid()
      ensures n > 0 <==> |frame.dates| >= xFrames + yFrames
      ensures n >= 0 ==> n == |frame.dates| - (xFrames + yFrames) + 1
    {
      len - (xFrames + yFrames) + 1
    }

    /** __getitem__(idx): the x_frames columns from position idx, and the
        columns after them up to y_frames of them. */
    function GetItem(idx: nat): (r: (Frame, Frame))
      reads this
      requires Valid()
      ensures r.0.WellFormed() && r.1.WellFormed()
      ensures r.0.regions == frame.regions && r.1.regions == frame.regions
      ensures |r.0.dates| <= xFrames && |r.1.dates| <= yFrames
      ensures forall k :: 0 <= k < |r.0.dates| ==>
        idx + k < |frame.dates| && r.0.dates[k] == frame.dates[idx + k]
      ensures forall k :: 0 <= k < |r.1.dates| ==>
        idx + xFrames + k < |frame.dates| && r.1.dates[k] == frame.dates[idx + xFrames + k]
      ensures idx < Length() ==> |r.0.dates| == xFrames && |r.1.dates| == yFrames
    {
      var i := idx + xFrames;
      var data := ColumnSlice(frame, i - xFrames, i + yFrames);
      (ColumnSlice(data, 0, xFrames), ColumnSlice(data, xFrames, |data.dates|))
    }
  }

  // ---------------------------------------------------------------------
  // Properties
  // ---------------------------------------------------------------------

  /** On a sorted date axis, the dates at least lo are exactly those from
      FirstAtLeast(dates, 0, lo) on. */
  lemma FirstAtLeastSplits(dates: seq<int>, lo: int)
    requires Sorted(dates)
    ensures forall k :: 0 <= k < |dates| ==> (dates[k] >= lo <==> FirstAtLeast(dates, 0, lo) <= k)
  {
    var a := FirstAtLeast(dates, 0, lo);
    forall k | 0 <= k < |dates|
      ensures dates[k] >= lo <==> a <= k
    {
      if a <= k {
        assert dates[a] <= dates[k];
      }
    }
  }

  /** On a sorted date axis, a date is kept by loc[:, lo:hi] exactly when
      it is in the table and lies between lo and hi, both included. */
  lemma LabelSliceMembership(f: Frame, lo: int, hi: int, d: int)
    requires f.WellFormed() && Sorted(f.dates)
    ensures d in LabelSlice(f, lo, hi).dates <==> d in f.dates && lo <= d <= hi
  {
    FirstAtLeastSplits(f.dates, lo);
    FirstAtLeastSplits(f.dates, hi + 1);
    SplitSliceMembership(f, lo, hi, d);
  }

  /** LabelSliceMembership, given where the two searches split the axis. */
  lemma SplitSliceMembership(f: Frame, lo: int, hi: int, d: int)
    requires f.WellFormed()
    requires forall k :: 0 <= k < |f.dates| ==> (f.dates[k] >= lo <==> FirstAtLeast(f.dates, 0, lo) <= k)
    requires forall k :: 0 <= k < |f.dates| ==> (f.dates[k] >= hi + 1 <==> FirstAtLeast(f.dates, 0, hi + 1) <= k)
    ensures d in LabelSlice(f, lo, hi).dates <==> d in f.dates && lo <= d <= hi
  {
    var a := FirstAtLeast(f.dates, 0, lo);
    var b := FirstAtLeast(f.dates, 0, hi + 1);
    InSlice(f.dates, 0, |f.dates|, d);
    assert f.dates[0..|f.dates|] == f.dates;
    if a <= b {
      assert LabelSlice(f, lo, hi).dates == f.dates[a..b];
      InSlice(f.dates, a, b, d);
    } else {
      assert LabelSlice(f, lo, hi).dates == [];
    }
  }

  /** A value is in a slice exactly when some position inside the slice
      holds it. */
  lemma InSlice(s: seq<int>, a: nat, b: nat, d: int)
    requires a <= b <= |s|
    ensures d in s[a..b] <==> exists k :: a <= k < b && s[k] == d
  {
    if d in s[a..b] {
      var j :| 0 <= j < b - a && s[a..b][j] == d;
      assert s[a + j] == d;
    }
    if exists k :: a <= k < b && s[k] == d {
      var k :| a <= k < b && s[k] == d;
      assert s[a..b][k - a] == d;
    }
  }

  /** Cutting a table at position p into iloc[:, :p] and iloc[:, p:] loses
      and repeats nothing. */
  lemma SplitColumns(f: Frame, p: nat)
    requires f.WellFormed()
    ensures ColumnSlice(f, 0, p).dates + ColumnSlice(f, p, |f.dates|).dates == f.dates
    ensures ColumnSlice(f, 0, p).columns + ColumnSlice(f, p, |f.dates|).columns == f.columns
  {
    if p <= |f.dates| {
      assert f.dates[..p] + f.dates[p..] == f.dates;
      assert f.columns[..p] + f.columns[p..] == f.columns;
    } else {
      assert f.dates[..|f.dates|] == f.dates;
      assert f.columns[..|f.columns|] == f.columns;
    }
  }

  /** The x and y windows of one item are adjacent and together are the
      columns from idx on, x_frames + y_frames of them when idx is below
      __len__. */
  lemma GetItemContiguous(loader: ILoader, idx: nat)
    requires loader.Valid()
    ensures loader.GetItem(idx).0.dates + loader.GetItem(idx).1.dates ==
      ColumnSlice(loader.frame, idx, idx + loader.xFrames + loader.yFrames).dates
    ensures idx < loader.Length() ==>
      && loader.GetItem(idx).0.dates + loader.GetItem(idx).1.dates ==
        loader.frame.dates[idx..idx + loader.xFrames + loader.yFrames]
      && loader.GetItem(idx).0.columns + loader.GetItem(idx).1.columns ==
        loader.frame.columns[idx..idx + loader.xFrames + loader.yFrames]
  {
    var data := ColumnSlice(loader.frame, idx, idx + loader.xFrames + loader.yFrames);
    assert loader.GetItem(idx) == (ColumnSlice(data, 0, loader.xFrames), ColumnSlice(data, loader.xFrames, |data.dates|));
    SplitColumns(data, loader.xFrames);
  }
}
