/** preprocess_test_number of preprocess/test_number.py: a table of test
    counts with one row per region and one column per date. Every row goes
    through daily conversion, the two zero repairs and smoothing, each when
    its flag is set, and is written back into the same table; with
    smoothing on, the first `window` date columns are then dropped, which
    gives a new table. */
module TestNumber {
  import opened Numeric
  import opened Repair
  import opened Smoothing
  import opened Pipeline

  /** The test-number DataFrame: region labels (the index), date labels
      (the columns) and one row of counts per region. */
  class TestTable {
    var regions: seq<string>
    var dates: seq<int>
    var rows: seq<seq<real>>

    /** One row per region, one value per date in every row. */
    predicate Valid()
      reads this
    {
      |rows| == |regions| && forall i :: 0 <= i < |rows| ==> |rows[i]| == |dates|
    }

    constructor (regions: seq<string>, dates: seq<int>, rows: seq<seq<real>>)
      requires |rows| == |regions| && forall i :: 0 <= i < |rows| ==> |rows[i]| == |dates|
      ensures Valid()
      ensures this.regions == regions && this.dates == dates && this.rows == rows
    {
      this.regions := regions;
      this.dates := dates;
      this.rows := rows;
    }
  }

  /** First step on a row: first differences when the daily flag is set. */
  function DailyRow(v: seq<real>, s: Settings): (r: seq<real>)
    requires s.daily ==> |v| > 0
    ensures |r| == |v|
  {
    if s.daily then Daily(v) else v
  }

  /** Second step on a row: make_zero_and_negative_removed followed by
      remove_target_zeros when the zero-removal flag is set, whether or not
      the row was converted to daily values. */
  function ZeroRow(v: seq<real>, s: Settings): (r: seq<real>)
    ensures |r| == |v|
  {
    if s.removeZero then ZerosRemoved(ZeroNegRemoved(v)) else v
  }

  /** What the loop body of preprocess_test_number makes of one row. */
  function TestRow(v: seq<real>, s: Settings): (r: seq<real>)
    requires s.daily ==> |v| > 0
    requires s.smoothing ==> ValidWindow(s.window, |v|)
    ensures |r| == |v|
  {
    SmoothingColumn(ZeroRow(DailyRow(v, s), s), s)
  }

  /** The rows a table can have for the given flags: none at all, or rows
      of a length every enabled step accepts. */
  predicate RowsAccepted(rowCount: nat, n: nat, s: Settings)
  {
    rowCount > 0 ==> (s.daily ==> n > 0) && (s.smoothing ==> ValidWindow(s.window, n))
  }

  /** iloc[:, k:] on a sequence of labels or values: everything from
      position k on, or nothing when k is past the end. */
  function DropFirst<T>(xs: seq<T>, k: nat): (r: seq<T>)
    ensures |r| == if k < |xs| then |xs| - k else 0
    ensures forall i :: 0 <= i < |r| ==> r[i] == xs[k + i]
  {
    if k < |xs| then xs[k..] else []
  }

  /** preprocess_test_number(test_num_df, pre_info). The rows of `table`
      are overwritten in place; the result is `table` itself, or with
      smoothing on a new table without the first `window` columns. */
  method PreprocessTestNumber(table: TestTable, s: Settings) returns (result: TestTable)
    requires table.Valid()
    requires RowsAccepted(|table.rows|, |table.dates|, s)
    modifies table
    ensures table.Valid()
    ensures table.regions == old(table.regions) && table.dates == old(table.dates)
    ensures |table.rows| == |old(table.rows)|
    ensures forall i :: 0 <= i < |table.rows| ==> table.rows[i] == TestRow(old(table.rows)[i], s)
    ensures !s.smoothing ==> result == table
    ensures !s.daily && !s.removeZero && !s.smoothing ==> table.rows == old(table.rows)
    ensures s.smoothing ==> fresh(result) && result.Valid() && result.regions == table.regions
    ensures s.smoothing ==> result.dates == DropFirst(table.dates, s.window)
    ensures s.smoothing ==> |result.rows| == |table.rows|
    ensures s.smoothing ==> forall i :: 0 <= i < |result.rows| ==> result.rows[i] == DropFirst(table.rows[i], s.window)
  {
    ghost var original := table.rows;
    for i := 0 to |table.rows|
      invariant table.regions == old(table.regions) && table.dates == old(table.dates)
      invariant |table.rows| == |original| && table.Valid()
      invariant forall k :: 0 <= k < i ==> table.rows[k] == TestRow(original[k], s)
      invariant forall k :: i <= k < |table.rows| ==> table.rows[k] == original[k]
    {
      var value := table.rows[i];
      if s.daily {
        value := TargetToDaily(value);
      }
      if s.removeZero {
        value := MakeZeroAndNegativeRemoved(value);
        value := RemoveTargetZeros(value);
      }
      if s.smoothing {
        value := SmoothAsWritten(value, s.window);
      }
      table.rows := table.rows[i := value];
    }
    result := table;
    if s.smoothing {
      var rows := table.rows;
      var kept := seq(|rows|, i requires 0 <= i < |rows| => DropFirst(rows[i], s.window));
      result := new TestTable(table.regions, DropFirst(table.dates, s.window), kept);
    }
  }

  // ---------------------------------------------------------------------
  // Properties
  // ---------------------------------------------------------------------

  /** With only daily conversion on, the prefix sums of a row give back the
      cumulative counts. */
  lemma TestRowDailyAddsUp(v: seq<real>, s: Settings)
    requires s.daily && !s.removeZero && !s.smoothing && |v| > 0
    ensures CumSum(TestRow(v, s)) == v
  {
    DailyThenCumSum(v);
  }

  /** With zero removal on and smoothing off, a row is positive from its
      first positive (daily) value on: the zero-and-negative repair makes
      that tail positive and the zero-run repair then leaves it alone. */
  lemma TestRowPositiveAfterFirstPositive(v: seq<real>, s: Settings, j: nat)
    requires s.removeZero && !s.smoothing
    requires s.daily ==> |v| > 0
    requires j < |v| && DailyRow(v, s)[j] > 0.0
    ensures forall k :: j <= k < |v| ==> TestRow(v, s)[k] > 0.0
  {
    var d := DailyRow(v, s);
    var z := ZeroNegRemoved(d);
    ZeroNegRemovedProperties(d);
    assert forall k :: j <= k < |z| ==> z[k] > 0.0;
    ZerosRemovedKeepsPositiveTail(z, j);
  }
}
