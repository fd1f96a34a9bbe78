/** The per-region pipeline of preprocess/preprocess.py: the column-wise
    wrappers around the series repairs, the fixed-order `preprocess`, the
    division by population and its inverse, and the conversion of a
    preprocessed table into the four SIRD compartments.

    A region's DataFrame is a `RegionTable` value: the date index and the
    four numeric columns. Every wrapper copies the table and reassigns
    target columns in a loop, so each is a method whose contract says, for
    every column, what it holds afterwards; `ColumnPipeline` states what
    `preprocess` does to one column, and the lemmas at the end state what
    that guarantees. */
module Pipeline {
  import opened Numeric
  import opened Repair
  import opened Smoothing

  datatype Column = Confirmed | Deaths | Recovered | Active

  /** The cumulative count columns that increase and daily convert. */
  const CountColumns: seq<Column> := [Confirmed, Deaths, Recovered]
  /** Every numeric column, the targets of smoothing. */
  const AllColumns: seq<Column> := [Confirmed, Deaths, Recovered, Active]

  /** One region's table: dates (day ordinals, the index) and four numeric
      columns. */
  datatype RegionTable = RegionTable(
    dates: seq<int>,
    confirmed: seq<real>,
    deaths: seq<real>,
    recovered: seq<real>,
    active: seq<real>)
  {
    /** Every column has one value per date. */
    predicate WellFormed()
    {
      |confirmed| == |dates| && |deaths| == |dates| && |recovered| == |dates| && |active| == |dates|
    }

    /** table[column]. */
    function Get(c: Column): seq<real>
    {
      match c
      case Confirmed => confirmed
      case Deaths => deaths
      case Recovered => recovered
      case Active => active
    }

    /** table[column] = values, on a copy. */
    function With(c: Column, v: seq<real>): (t: RegionTable)
      ensures t.dates == dates && t.Get(c) == v
      ensures forall d :: d != c ==> t.Get(d) == Get(d)
    {
      match c
      case Confirmed => this.(confirmed := v)
      case Deaths => this.(deaths := v)
      case Recovered => this.(recovered := v)
      case Active => this.(active := v)
    }
  }

  /** r is v with every element multiplied by f. */
  predicate Scaled(r: seq<real>, v: seq<real>, f: real)
  {
    |r| == |v| && forall i :: 0 <= i < |v| ==> r[i] == v[i] * f
  }

  /** No column is named twice in a target list. */
  predicate Distinct(targets: seq<Column>)
  {
    forall i, j :: 0 <= i < j < |targets| ==> targets[i] != targets[j]
  }

  /** The flags and window `preprocess` reads from its settings object;
      `removeZero` is the extra flag that step three reads. */
  datatype Settings = Settings(
    increase: bool,
    daily: bool,
    removeZero: bool,
    smoothing: bool,
    window: nat,
    divide: bool)

  // ---------------------------------------------------------------------
  // Column-wise wrappers
  // ---------------------------------------------------------------------

  /** dataset_to_increased: each target column of the copy becomes the
      monotonicity repair of the same column of the input table. */
  method DatasetToIncreased(t: RegionTable, targets: seq<Column>) returns (r: RegionTable)
    ensures r.dates == t.dates
    ensures forall c :: r.Get(c) == if c in targets then Increased(t.Get(c)) else t.Get(c)
  {
    r := t;
    for k := 0 to |targets|
      invariant r.dates == t.dates
      invariant forall c :: r.Get(c) == if c in targets[..k] then Increased(t.Get(c)) else t.Get(c)
    {
      var repaired := TargetToIncreased(t.Get(targets[k]));
      r := r.With(targets[k], repaired);
      assert targets[..k + 1] == targets[..k] + [targets[k]];
    }
    assert targets[..|targets|] == targets;
  }

  /** cumulated_to_daily: each target column of the copy is replaced by its
      first differences. */
  method CumulatedToDaily(t: RegionTable, targets: seq<Column>) returns (r: RegionTable)
    requires Distinct(targets)
    requires forall c :: c in targets ==> |t.Get(c)| > 0
    ensures r.dates == t.dates
    ensures forall c :: r.Get(c) == if c in targets then Daily(t.Get(c)) else t.Get(c)
  {
    r := t;
    for k := 0 to |targets|
      invariant r.dates == t.dates
      invariant forall c :: r.Get(c) == if c in targets[..k] then Daily(t.Get(c)) else t.Get(c)
    {
      assert targets[k] !in targets[..k];
      var daily := TargetToDaily(r.Get(targets[k]));
      r := r.With(targets[k], daily);
      assert targets[..k + 1] == targets[..k] + [targets[k]];
    }
    assert targets[..|targets|] == targets;
  }

  /** remove_zero_period: each target column of the copy goes through the
      zero-run repair. */
  method RemoveZeroPeriod(t: RegionTable, targets: seq<Column>) returns (r: RegionTable)
    requires Distinct(targets)
    ensures r.dates == t.dates
    ensures forall c :: r.Get(c) == if c in targets then ZerosRemoved(t.Get(c)) else t.Get(c)
  {
    r := t;
    for k := 0 to |targets|
      invariant r.dates == t.dates
      invariant forall c :: r.Get(c) == if c in targets[..k] then ZerosRemoved(t.Get(c)) else t.Get(c)
    {
      assert targets[k] !in targets[..k];
      var repaired := RemoveTargetZeros(r.Get(targets[k]));
      r := r.With(targets[k], repaired);
      assert targets[..k + 1] == targets[..k] + [targets[k]];
    }
    assert targets[..|targets|] == targets;
  }

  /** apply_moving_average: each target column of the copy is smoothed with
      the given window by smooth as written, start segment included. */
  method ApplyMovingAverage(t: RegionTable, targets: seq<Column>, window: nat) returns (r: RegionTable)
    requires Distinct(targets)
    requires forall c :: c in targets ==> ValidWindow(window, |t.Get(c)|)
    ensures r.dates == t.dates
    ensures forall c :: r.Get(c) == if c in targets then SmoothAsWritten(t.Get(c), window) else t.Get(c)
  {
    r := t;
    for k := 0 to |targets|
      invariant r.dates == t.dates
      invariant forall c :: r.Get(c) == if c in targets[..k] then SmoothAsWritten(t.Get(c), window) else t.Get(c)
    {
      assert targets[k] !in targets[..k];
      r := r.With(targets[k], SmoothAsWritten(r.Get(targets[k]), window));
      assert targets[..k + 1] == targets[..k] + [targets[k]];
    }
    assert targets[..|targets|] == targets;
  }

  /** divide_by_population: every cell divided by the population. */
  function DivideByPopulation(t: RegionTable, population: real): (r: RegionTable)
    requires population != 0.0
    ensures r.dates == t.dates
    ensures forall c :: Scaled(t.Get(c), r.Get(c), population)
  {
    RegionTable(t.dates, DivideEach(t.confirmed, population), DivideEach(t.deaths, population),
      DivideEach(t.recovered, population), DivideEach(t.active, population))
  }

  // ---------------------------------------------------------------------
  // preprocess
  // ---------------------------------------------------------------------

  /** Step one on one column: the monotonicity repair, on count columns
      only. */
  function IncreaseColumn(v: seq<real>, c: Column, s: Settings): (r: seq<real>)
    ensures |r| == |v|
  {
    if s.increase && c != Active then Increased(v) else v
  }

  /** Step two on one column: daily conversion, on count columns only. */
  function DailyColumn(v: seq<real>, c: Column, s: Settings): (r: seq<real>)
    requires s.daily && c != Active ==> |v| > 0
    ensures |r| == |v|
  {
    if s.daily && c != Active then Daily(v) else v
  }

  /** Step three on one column: the zero-run repair, on recovered only. */
  function RemoveZeroColumn(v: seq<real>, c: Column, s: Settings): (r: seq<real>)
    ensures |r| == |v|
  {
    if s.removeZero && c == Recovered then ZerosRemoved(v) else v
  }

  /** Step four on one column: smooth as written, on every column. */
  function SmoothingColumn(v: seq<real>, s: Settings): (r: seq<real>)
    requires s.smoothing ==> ValidWindow(s.window, |v|)
    ensures |r| == |v|
  {
    if s.smoothing then SmoothAsWritten(v, s.window) else v
  }

  /** Step five on one column: division by the population, on every
      column. */
  function DivideColumn(v: seq<real>, population: real, s: Settings): (r: seq<real>)
    requires s.divide ==> population != 0.0
    ensures |r| == |v|
  {
    if s.divide then DivideEach(v, population) else v
  }

  /** What preprocess does to one column: the five steps in order. */
  function ColumnPipeline(v: seq<real>, c: Column, population: real, s: Settings): (r: seq<real>)
    requires s.daily && c != Active ==> |v| > 0
    requires s.smoothing ==> ValidWindow(s.window, |v|)
    requires s.divide ==> population != 0.0
    ensures |r| == |v|
  {
    DivideColumn(SmoothingColumn(RemoveZeroColumn(DailyColumn(IncreaseColumn(v, c, s), c, s), c, s), s), population, s)
  }

  /** The tables preprocess can handle: daily conversion needs a first row,
      smoothing a valid window and division a non-zero population. */
  predicate PreprocessAccepts(t: RegionTable, population: real, s: Settings)
  {
    && t.WellFormed()
    && (s.daily ==> |t.dates| > 0)
    && (s.smoothing ==> ValidWindow(s.window, |t.dates|))
    && (s.divide ==> population != 0.0)
  }

  /** r is what preprocess makes of t: same dates, every column through
      ColumnPipeline. */
  predicate Preprocessed(t: RegionTable, population: real, s: Settings, r: RegionTable)
    requires PreprocessAccepts(t, population, s)
  {
    r.WellFormed() && r.dates == t.dates &&
    forall c :: r.Get(c) == ColumnPipeline(t.Get(c), c, population, s)
  }

  /** The first step of preprocess: dataset_to_increased on the count
      columns when the increase flag is set. */
  method IncreaseStep(t: RegionTable, s: Settings) returns (r: RegionTable)
    ensures r.dates == t.dates
    ensures forall c :: r.Get(c) == IncreaseColumn(t.Get(c), c, s)
  {
    r := t;
    if s.increase {
      r := DatasetToIncreased(t, CountColumns);
    }
  }

  /** The second step: cumulated_to_daily on the count columns when the
      daily flag is set. */
  method DailyStep(t: RegionTable, s: Settings) returns (r: RegionTable)
    requires s.daily ==> forall c :: |t.Get(c)| > 0
    ensures r.dates == t.dates
    ensures forall c :: r.Get(c) == DailyColumn(t.Get(c), c, s)
  {
    r := t;
    if s.daily {
      r := CumulatedToDaily(t, CountColumns);
    }
  }

  /** The third step: remove_zero_period on the recovered column when the
      zero-removal flag is set. */
  method RemoveZeroStep(t: RegionTable, s: Settings) returns (r: RegionTable)
    ensures r.dates == t.dates
    ensures forall c :: r.Get(c) == RemoveZeroColumn(t.Get(c), c, s)
  {
    r := t;
    if s.removeZero {
      r := RemoveZeroPeriod(t, [Recovered]);
    }
  }

  /** The fourth step: apply_moving_average on every column when the
      smoothing flag is set. */
  method SmoothingStep(t: RegionTable, s: Settings) returns (r: RegionTable)
    requires s.smoothing ==> forall c :: ValidWindow(s.window, |t.Get(c)|)
    ensures r.dates == t.dates
    ensures forall c :: r.Get(c) == SmoothingColumn(t.Get(c), s)
  {
    r := t;
    if s.smoothing {
      r := ApplyMovingAverage(t, AllColumns, s.window);
    }
  }

  /** The fifth step: divide_by_population when the divide flag is set. */
  method DivideStep(t: RegionTable, population: real, s: Settings) returns (r: RegionTable)
    requires s.divide ==> population != 0.0
    ensures r.dates == t.dates
    ensures forall c :: r.Get(c) == DivideColumn(t.Get(c), population, s)
  {
    r := t;
    if s.divide {
      r := DivideByPopulation(t, population);
      assert forall c :: r.Get(c) == DivideEach(t.Get(c), population) by {
        forall c ensures r.Get(c) == DivideEach(t.Get(c), population) {
          assert Scaled(t.Get(c), r.Get(c), population);
        }
      }
    }
  }

  /** preprocess(parsed_df, population, pre_info): the steps in their fixed
      order, each only when its flag is set. */
  method Preprocess(t: RegionTable, population: real, s: Settings) returns (r: RegionTable)
    requires PreprocessAccepts(t, population, s)
    ensures Preprocessed(t, population, s, r)
  {
    assert forall c :: |t.Get(c)| == |t.dates| by {
      assert t.Get(Confirmed) == t.confirmed && t.Get(Deaths) == t.deaths;
      assert t.Get(Recovered) == t.recovered && t.Get(Active) == t.active;
    }
    var v1 := IncreaseStep(t, s);
    var v2 := DailyStep(v1, s);
    var v3 := RemoveZeroStep(v2, s);
    var v4 := SmoothingStep(v3, s);
    r := DivideStep(v4, population, s);
    forall c
      ensures r.Get(c) == ColumnPipeline(t.Get(c), c, population, s)
    {
      PreprocessSteps(t, v1, v2, v3, v4, r, population, s, c);
    }
    assert r.Get(Confirmed) == r.confirmed && r.Get(Deaths) == r.deaths;
    assert r.Get(Recovered) == r.recovered && r.Get(Active) == r.active;
  }

  /** The five wrapper calls of preprocess, chained, give ColumnPipeline on
      one column. */
  lemma PreprocessSteps(t: RegionTable, v1: RegionTable, v2: RegionTable, v3: RegionTable,
                        v4: RegionTable, r: RegionTable, population: real, s: Settings, c: Column)
    requires PreprocessAccepts(t, population, s) && |t.Get(c)| == |t.dates|
    requires v1.Get(c) == IncreaseColumn(t.Get(c), c, s)
    requires v2.Get(c) == DailyColumn(v1.Get(c), c, s)
    requires v3.Get(c) == RemoveZeroColumn(v2.Get(c), c, s)
    requires v4.Get(c) == SmoothingColumn(v3.Get(c), s)
    requires r.Get(c) == DivideColumn(v4.Get(c), population, s)
    ensures r.Get(c) == ColumnPipeline(t.Get(c), c, population, s)
  {
  }

  /** Regions of a dataset, each with its population: the loop of
      preprocess_origin_dict and preprocess_data_dict. */
  method PreprocessAll(data: map<string, RegionTable>, population: map<string, real>, s: Settings)
    returns (result: map<string, RegionTable>)
    requires data.Keys <= population.Keys
    requires forall region :: region in data ==> PreprocessAccepts(data[region], population[region], s)
    ensures result.Keys == data.Keys
    ensures forall region :: region in data ==> Preprocessed(data[region], population[region], s, result[region])
  {
    result := map[];
    var todo := data.Keys;
    while todo != {}
      invariant todo <= data.Keys
      invariant result.Keys == data.Keys - todo
      invariant forall region :: region in result ==> Preprocessed(data[region], population[region], s, result[region])
      decreases todo
    {
      var region :| region in todo;
      var table := Preprocess(data[region], population[region], s);
      result := result[region := table];
      todo := todo - {region};
    }
  }

  // ---------------------------------------------------------------------
  // Population division on a table with one row per region
  // ---------------------------------------------------------------------

  /** A table with one row per region and one column per date. */
  datatype RegionFrame = RegionFrame(regions: seq<string>, rows: seq<seq<real>>)

  /** Every row divided by its region's population: the frame that
      inverse_divide_by_population expects to undo. */
  function DivideRows(f: RegionFrame, population: map<string, real>): (r: RegionFrame)
    requires |f.rows| == |f.regions|
    requires forall region :: region in f.regions ==> region in population && population[region] != 0.0
    ensures r.regions == f.regions && |r.rows| == |f.rows|
    ensures forall i :: 0 <= i < |f.rows| ==> Scaled(f.rows[i], r.rows[i], population[f.regions[i]])
  {
    RegionFrame(f.regions, seq(|f.rows|, i requires 0 <= i < |f.rows| =>
      DivideEach(f.rows[i], population[f.regions[i]])))
  }

  /** The outcome of an operation that can raise: a value, or the error. */
  datatype Result<T> = Ok(value: T) | Err(message: string)

  /** v multiplied by f, j times over. */
  function ScaledTimes(v: seq<real>, f: real, j: nat): (r: seq<real>)
    ensures |r| == |v|
  {
    if j == 0 then v else ScaleEach(ScaledTimes(v, f, j - 1), f)
  }

  /** How many rows carry a region label. */
  function Occurrences(regions: seq<string>, region: string): nat
  {
    multiset(regions)[region]
  }

  /** The population a row is multiplied by once its label has been seen;
      a label not yet seen has not been multiplied, so any factor will do. */
  function FactorOf(population: map<string, real>, region: string): real
  {
    if region in population then population[region] else 1.0
  }

  /** The rows after one iteration for `region`: `new_df.loc[region, :] *= p`
      multiplies every row carrying the label, and no other. */
  function LabelScaled(rows: seq<seq<real>>, regions: seq<string>, region: string, p: real): (r: seq<seq<real>>)
    requires |rows| == |regions|
    ensures |r| == |rows|
  {
    seq(|rows|, m requires 0 <= m < |rows| => if regions[m] == region then ScaleEach(rows[m], p) else rows[m])
  }

  /** The rows after the first i iterations of inverse_divide_by_population. */
  function InvertedRows(f: RegionFrame, population: map<string, real>, i: nat): (r: seq<seq<real>>)
    requires |f.rows| == |f.regions| && i <= |f.regions|
    ensures |r| == |f.rows|
  {
    if i == 0 then f.rows
    else LabelScaled(InvertedRows(f, population, i - 1), f.regions, f.regions[i - 1], FactorOf(population, f.regions[i - 1]))
  }

  /** One iteration as a loop over the rows. */
  method ScaleLabel(rows: seq<seq<real>>, regions: seq<string>, region: string, p: real)
    returns (scaled: seq<seq<real>>)
    requires |rows| == |regions|
    ensures scaled == LabelScaled(rows, regions, region, p)
  {
    scaled := rows;
    for k := 0 to |rows|
      invariant |scaled| == |rows|
      invariant forall m :: 0 <= m < k ==>
        scaled[m] == if regions[m] == region then ScaleEach(rows[m], p) else rows[m]
      invariant forall m :: k <= m < |rows| ==> scaled[m] == rows[m]
    {
      if regions[k] == region {
        scaled := scaled[k := ScaleEach(scaled[k], p)];
      }
    }
  }

  /** inverse_divide_by_population: on a copy, for each row label in order,
      every row carrying that label is multiplied by the label's population.
      A label that occurs j times therefore has its rows multiplied j times,
      and a label missing from the population table raises KeyError. */
  method InverseDivideByPopulation(f: RegionFrame, population: map<string, real>) returns (r: Result<RegionFrame>)
    requires |f.rows| == |f.regions|
    ensures r.Err? <==> exists region :: region in f.regions && region !in population
    ensures r.Ok? ==> forall k :: 0 <= k < |f.regions| ==> f.regions[k] in population
    ensures r.Ok? ==> r.value.regions == f.regions && |r.value.rows| == |f.rows|
    ensures r.Ok? ==> forall k :: 0 <= k < |f.rows| ==>
      r.value.rows[k] == ScaledTimes(f.rows[k], population[f.regions[k]], Occurrences(f.regions, f.regions[k]))
    ensures r.Ok? ==> forall k :: 0 <= k < |f.rows| && Occurrences(f.regions, f.regions[k]) == 1 ==>
      Scaled(r.value.rows[k], f.rows[k], population[f.regions[k]])
  {
    var rows := f.rows;
    for i := 0 to |f.rows|
      invariant forall j :: 0 <= j < i ==> f.regions[j] in population
      invariant rows == InvertedRows(f, population, i)
    {
      var region := f.regions[i];
      if region !in population {
        return Err("KeyError");
      }
      rows := ScaleLabel(rows, f.regions, region, population[region]);
    }
    InvertedRowsCount(f, population, |f.rows|);
    assert f.regions[..|f.rows|] == f.regions;
    forall k | 0 <= k < |f.rows| && Occurrences(f.regions, f.regions[k]) == 1
      ensures Scaled(rows[k], f.rows[k], population[f.regions[k]])
    {
      ScaledOnce(f.rows[k], population[f.regions[k]]);
    }
    r := Ok(RegionFrame(f.regions, rows));
  }

  /** After i iterations, a row has been multiplied once for each of the
      first i labels equal to its own. */
  lemma {:induction false} InvertedRowsCount(f: RegionFrame, population: map<string, real>, i: nat)
    requires |f.rows| == |f.regions| && i <= |f.regions|
    ensures forall k :: 0 <= k < |f.rows| ==>
      InvertedRows(f, population, i)[k] ==
        ScaledTimes(f.rows[k], FactorOf(population, f.regions[k]), Occurrences(f.regions[..i], f.regions[k]))
  {
    if i > 0 {
      InvertedRowsCount(f, population, i - 1);
      forall k | 0 <= k < |f.rows|
        ensures InvertedRows(f, population, i)[k] ==
          ScaledTimes(f.rows[k], FactorOf(population, f.regions[k]), Occurrences(f.regions[..i], f.regions[k]))
      {
        InvertedRowStep(f, population, i, k);
      }
    }
  }

  /** The inductive step of InvertedRowsCount for one row. */
  lemma InvertedRowStep(f: RegionFrame, population: map<string, real>, i: nat, k: nat)
    requires |f.rows| == |f.regions| && 0 < i <= |f.regions| && k < |f.rows|
    requires InvertedRows(f, population, i - 1)[k] ==
      ScaledTimes(f.rows[k], FactorOf(population, f.regions[k]), Occurrences(f.regions[..i - 1], f.regions[k]))
    ensures InvertedRows(f, population, i)[k] ==
      ScaledTimes(f.rows[k], FactorOf(population, f.regions[k]), Occurrences(f.regions[..i], f.regions[k]))
  {
    var prev := InvertedRows(f, population, i - 1);
    var region := f.regions[i - 1];
    var before := Occurrences(f.regions[..i - 1], f.regions[k]);
    assert InvertedRows(f, population, i)[k] ==
      if f.regions[k] == region then ScaleEach(prev[k], FactorOf(population, region)) else prev[k];
    OccurrencesStep(f.regions, i - 1, f.regions[k]);
    RowAfterLabel(prev[k], f.rows[k], population, f.regions[k], region, before);
  }

  /** One iteration's effect on one row: a row carrying the label gains one
      more multiplication, any other row is left as it is. */
  lemma RowAfterLabel(row: seq<real>, orig: seq<real>, population: map<string, real>,
                      name: string, region: string, before: nat)
    requires row == ScaledTimes(orig, FactorOf(population, name), before)
    ensures (if name == region then ScaleEach(row, FactorOf(population, region)) else row) ==
      ScaledTimes(orig, FactorOf(population, name), before + (if name == region then 1 else 0))
  {
  }

  /** Multiplying once is scaling. */
  lemma ScaledOnce(v: seq<real>, f: real)
    ensures Scaled(ScaledTimes(v, f, 1), v, f)
  {
  }

  /** Taking one more label into the prefix counts it once more. */
  lemma OccurrencesStep(regions: seq<string>, i: nat, x: string)
    requires i < |regions|
    ensures Occurrences(regions[..i + 1], x) == Occurrences(regions[..i], x) + (if x == regions[i] then 1 else 0)
  {
    assert regions[..i + 1] == regions[..i] + [regions[i]];
  }

  /** A label that occurs twice has its rows multiplied by the population
      twice: rows ["a", "a"] of [1] with population 2 both become [4]. */
  lemma RepeatedLabelScalesTwice()
    ensures Occurrences(["a", "a"], "a") == 2
    ensures ScaledTimes([1.0], 2.0, Occurrences(["a", "a"], "a")) == [4.0]
  {
    assert multiset(["a", "a"]) == multiset{"a", "a"};
    assert ScaledTimes([1.0], 2.0, 1) == [2.0];
  }

  // ---------------------------------------------------------------------
  // convert_columns_to_sird
  // ---------------------------------------------------------------------

  /** A region's SIRD table, indexed by the same dates. */
  datatype SirdTable = SirdTable(
    dates: seq<int>,
    susceptible: seq<real>,
    infected: seq<real>,
    recovered: seq<real>,
    deceased: seq<real>)

  /** The total the four compartments add up to: 1 for per-capita values,
      the region's population otherwise. */
  function Baseline(divide: bool, population: real): real
  {
    if divide then 1.0 else population
  }

  /** One region's conversion: infected is the active column, deceased the
      deaths column, and susceptible the rest of the baseline. */
  function ConvertRegionToSird(t: RegionTable, baseline: real): (r: SirdTable)
    requires t.WellFormed()
    ensures r.dates == t.dates && r.infected == t.active
    ensures r.recovered == t.recovered && r.deceased == t.deaths
    ensures |r.susceptible| == |t.dates|
    ensures forall i :: 0 <= i < |t.dates| ==>
      r.susceptible[i] + r.infected[i] + r.recovered[i] + r.deceased[i] == baseline
  {
    SirdTable(t.dates,
      seq(|t.dates|, i requires 0 <= i < |t.dates| => baseline - t.active[i] - t.recovered[i] - t.deaths[i]),
      t.active, t.recovered, t.deaths)
  }

  /** convert_columns_to_sird: every region converted; the population of a
      region is looked up only when the values are not per-capita. */
  method ConvertColumnsToSird(tables: map<string, RegionTable>, divide: bool, population: map<string, real>)
    returns (sird: map<string, SirdTable>)
    requires forall region :: region in tables ==> tables[region].WellFormed()
    requires !divide ==> tables.Keys <= population.Keys
    ensures sird.Keys == tables.Keys
    ensures forall region :: region in tables ==>
      sird[region] == ConvertRegionToSird(tables[region], if divide then 1.0 else population[region])
  {
    sird := map[];
    var todo := tables.Keys;
    while todo != {}
      invariant todo <= tables.Keys
      invariant sird.Keys == tables.Keys - todo
      invariant forall region :: region in sird ==>
        sird[region] == ConvertRegionToSird(tables[region], if divide then 1.0 else population[region])
      decreases todo
    {
      var region :| region in todo;
      var baseline := if divide then 1.0 else population[region];
      sird := sird[region := ConvertRegionToSird(tables[region], baseline)];
      todo := todo - {region};
    }
  }

  // ---------------------------------------------------------------------
  // Properties
  // ---------------------------------------------------------------------

  /** Which steps reach which column: active is changed only by smoothing
      and division, confirmed and deaths go through the same steps, and
      recovered differs from them only by the zero-run repair. */
  lemma StepsTouchTheirColumns(v: seq<real>, population: real, s: Settings)
    requires s.daily ==> |v| > 0
    requires s.smoothing ==> ValidWindow(s.window, |v|)
    requires s.divide ==> population != 0.0
    ensures ColumnPipeline(v, Active, population, s) == DivideColumn(SmoothingColumn(v, s), population, s)
    ensures ColumnPipeline(v, Deaths, population, s) == ColumnPipeline(v, Confirmed, population, s)
    ensures !s.removeZero ==> ColumnPipeline(v, Recovered, population, s) == ColumnPipeline(v, Confirmed, population, s)
  {
  }

  /** Division by a non-zero population is undone by multiplying back. */
  lemma DivideThenScale(v: seq<real>, population: real)
    requires population != 0.0
    ensures ScaleEach(DivideEach(v, population), population) == v
  {
    forall i | 0 <= i < |v|
      ensures ScaleEach(DivideEach(v, population), population)[i] == v[i]
    {
      assert (v[i] / population) * population == v[i];
    }
  }

  /** When every region label occurs once, inverse_divide_by_population
      undoes a division of every row by its region's non-zero population.
      The hypothesis is what InverseDivideByPopulation ensures of its result
      on the divided frame. */
  lemma InverseUndoesDivide(f: RegionFrame, population: map<string, real>, r: RegionFrame)
    requires |f.rows| == |f.regions|
    requires forall region :: region in f.regions ==> region in population && population[region] != 0.0
    requires forall i, j :: 0 <= i < j < |f.regions| ==> f.regions[i] != f.regions[j]
    requires r.regions == f.regions && |r.rows| == |f.rows|
    requires forall k :: 0 <= k < |f.rows| ==>
      r.rows[k] == ScaledTimes(DivideRows(f, population).rows[k], population[f.regions[k]], Occurrences(f.regions, f.regions[k]))
    ensures r == f
  {
    var d := DivideRows(f, population);
    forall k | 0 <= k < |f.rows|
      ensures r.rows[k] == f.rows[k]
    {
      DistinctOccursOnce(f.regions, k);
      ScaledOnce(d.rows[k], population[f.regions[k]]);
      assert Scaled(f.rows[k], d.rows[k], population[f.regions[k]]);
    }
  }

  /** In a list without repeats, each label occurs once. */
  lemma DistinctOccursOnce(regions: seq<string>, k: nat)
    requires k < |regions|
    requires forall i, j :: 0 <= i < j < |regions| ==> regions[i] != regions[j]
    ensures Occurrences(regions, regions[k]) == 1
  {
    var x := regions[k];
    var head, tail := regions[..k], regions[k + 1..];
    assert regions == head + [x] + tail;
    assert x !in head;
    assert x !in tail by {
      forall j | 0 <= j < |tail| ensures tail[j] != x {
        assert tail[j] == regions[k + 1 + j];
      }
    }
    assert multiset(regions) == multiset(head) + multiset{x} + multiset(tail);
  }

  /** With a repeated label the round trip fails: two rows [2] labelled "a",
      population 2, are divided to [1] and multiplied back to [4]. */
  lemma RepeatedLabelBreaksRoundTrip()
    ensures var f := RegionFrame(["a", "a"], [[2.0], [2.0]]);
      var d := DivideRows(f, map["a" := 2.0]);
      ScaledTimes(d.rows[0], 2.0, Occurrences(f.regions, "a")) == [4.0] != f.rows[0]
  {
    var f := RegionFrame(["a", "a"], [[2.0], [2.0]]);
    var d := DivideRows(f, map["a" := 2.0]);
    assert d.rows[0] == [1.0];
    RepeatedLabelScalesTwice();
  }

  /** The first value survives the monotonicity repair. */
  lemma IncreasedKeepsFirst(v: seq<real>)
    requires |v| > 0
    ensures Increased(v)[0] == v[0]
  {
    assert NonDecreasing(v[..1]);
    IncreasedKeepsSortedPrefix(v, 1);
    assert Increased(v)[..1][0] == Increased(v)[0];
  }

  /** Dividing non-negative values by a positive population keeps them
      non-negative. */
  lemma DivideKeepsNonNegative(v: seq<real>, population: real)
    requires population > 0.0 && NonNegative(v)
    ensures NonNegative(DivideEach(v, population))
  {
    forall i | 0 <= i < |v|
      ensures DivideEach(v, population)[i] >= 0.0
    {
      assert v[i] / population >= 0.0;
    }
  }

  /** With the monotonicity repair and daily conversion on, a count column
      that does not start negative comes out non-negative everywhere, through
      zero-run repair, smoothing and division by a positive population. */
  lemma CountColumnsNonNegative(v: seq<real>, c: Column, population: real, s: Settings)
    requires c in CountColumns && s.increase && s.daily
    requires |v| > 0 && v[0] >= 0.0
    requires s.smoothing ==> ValidWindow(s.window, |v|)
    requires s.divide ==> population > 0.0
    ensures NonNegative(ColumnPipeline(v, c, population, s))
  {
    var v1 := Increased(v);
    IncreasedIsNonDecreasing(v);
    IncreasedKeepsFirst(v);
    var v2 := Daily(v1);
    DailyOfNonDecreasing(v1);
    assert NonNegative(v2);
    var v3 := if s.removeZero && c == Recovered then ZerosRemoved(v2) else v2;
    if s.removeZero && c == Recovered {
      ZerosRemovedOnNonNegative(v2);
    }
    var v4 := if s.smoothing then SmoothAsWritten(v3, s.window) else v3;
    if s.smoothing {
      SmoothAsWrittenKeepsNonNegative(v3, s.window);
    }
    if s.divide {
      DivideKeepsNonNegative(v4, population);
    }
  }

  /** With only the monotonicity repair and daily conversion on, the prefix
      sums of a count column give back its repaired cumulative series. */
  lemma DailyCountsAddUpToRepaired(v: seq<real>, c: Column, population: real, s: Settings)
    requires c in CountColumns && s.increase && s.daily
    requires !s.removeZero && !s.smoothing && !s.divide
    requires |v| > 0
    ensures CumSum(ColumnPipeline(v, c, population, s)) == Increased(v)
    ensures NonDecreasing(CumSum(ColumnPipeline(v, c, population, s)))
  {
    DailyThenCumSum(Increased(v));
    IncreasedIsNonDecreasing(v);
  }
}
