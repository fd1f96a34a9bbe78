/** The earlier pipeline of preprocessing.py. It shares smoothing and the
    division by population and its inverse with preprocess/preprocess.py.
    Its SIRD conversion computes the same values but reads the population
    from a table it is given; Pipeline.ConvertColumnsToSird takes the
    population as a map either way. It differs in three places:
    - interpolate writes into the list it is given (here an array) instead
      of a copy, so target_to_increased repairs its argument in place;
    - cumulated_to_daily differences each target column in an inline loop
      bounded by the number of dates;
    - preprocess has no zero-removal step. */
module Draft {
  import opened Numeric
  import opened Repair
  import opened Smoothing
  import opened Pipeline

  /** interpolate(region_values, s, e) on the caller's list: the flat tail
      or the interpolated stretch is written into `a` itself. */
  method InterpolateInPlace(a: array<real>, s: nat, e: int)
    requires InterpolationBounds(a.Length, s, e)
    modifies a
    ensures a[..] == Interpolated(old(a[..]), s, e)
  {
    if e == -1 {
      FlattenInPlace(a, s);
    } else {
      BridgeInPlace(a, s, e);
    }
  }

  /** The slice assignment region_values[s:] = [region_values[s]] * n. */
  method FlattenInPlace(a: array<real>, s: nat)
    requires s < a.Length
    modifies a
    ensures a[..] == Interpolated(old(a[..]), s, -1)
  {
    ghost var values := a[..];
    var start := a[s];
    for k := s to a.Length
      invariant forall j :: 0 <= j < s ==> a[j] == values[j]
      invariant forall j :: s <= j < k ==> a[j] == start
      invariant forall j :: k <= j < a.Length ==> a[j] == values[j]
    {
      a[k] := start;
    }
    ghost var target := Interpolated(values, s, -1);
    assert forall j :: 0 <= j < a.Length ==> a[j] == target[j];
  }

  /** The loop writing region_values[s] + theta * step at each index after s
      up to e. */
  method BridgeInPlace(a: array<real>, s: nat, e: nat)
    requires s < e < a.Length
    modifies a
    ensures a[..] == Interpolated(old(a[..]), s, e)
  {
    ghost var values := a[..];
    var theta := (a[e] - a[s]) / (e - s) as real;
    var step := 1;
    for i := s + 1 to e + 1
      invariant step == i - s
      invariant forall k :: 0 <= k < a.Length && !(s < k < i) ==> a[k] == values[k]
      invariant forall k :: s < k < i ==> a[k] == values[s] + theta * (k - s) as real
    {
      a[i] := a[s] + theta * step as real;
      step := step + 1;
    }
    assert theta == Slope(values, s, e);
    ghost var target := Interpolated(values, s, e);
    assert forall k :: 0 <= k < a.Length ==> a[k] == target[k];
  }

  /** target_to_increased(target_values) of the draft: the same scan as the
      later version, repairing the caller's list in place. */
  method TargetToIncreasedInPlace(a: array<real>)
    modifies a
    ensures a[..] == Increased(old(a[..]))
  {
    ghost var values := a[..];
    var i := 1;
    while i < a.Length
      invariant 1 <= i
      invariant IncreaseFrom(a[..], i) == Increased(values)
    {
      if a[i] - a[i - 1] < 0.0 {
        var maxIndex := GetMaxIndex(a[..], i);
        InterpolateInPlace(a, i - 1, maxIndex);
      }
      i := i + 1;
    }
  }

  /** dataset_to_increased of the draft: each target column is copied out
      into a fresh list, repaired in place and written into the copy of the
      table, so the input table and the other columns are left as they
      were. */
  method DatasetToIncreased(t: RegionTable, targets: seq<Column>) returns (r: RegionTable)
    ensures r.dates == t.dates
    ensures forall c :: r.Get(c) == if c in targets then Increased(t.Get(c)) else t.Get(c)
    ensures forall c :: c in targets ==> NonDecreasing(r.Get(c))
  {
    r := t;
    for k := 0 to |targets|
      invariant r.dates == t.dates
      invariant forall c :: r.Get(c) == if c in targets[..k] then Increased(t.Get(c)) else t.Get(c)
    {
      var column := t.Get(targets[k]);
      var values := new real[|column|](i requires 0 <= i < |column| => column[i]);
      assert values[..] == column;
      TargetToIncreasedInPlace(values);
      r := r.With(targets[k], values[..]);
      assert targets[..k + 1] == targets[..k] + [targets[k]];
    }
    assert targets[..|targets|] == targets;
    forall c | c in targets
      ensures NonDecreasing(r.Get(c))
    {
      IncreasedIsNonDecreasing(t.Get(c));
    }
  }

  /** cumulated_to_daily of the draft: each target column of the copy
      becomes its first value followed by one difference per later date. */
  method CumulatedToDaily(t: RegionTable, targets: seq<Column>) returns (r: RegionTable)
    requires t.WellFormed() && Distinct(targets)
    requires |targets| > 0 ==> |t.dates| > 0
    ensures r.dates == t.dates
    ensures forall c :: r.Get(c) == if c in targets then Daily(t.Get(c)) else t.Get(c)
  {
    assert forall c :: |t.Get(c)| == |t.dates| by {
      assert t.Get(Confirmed) == t.confirmed && t.Get(Deaths) == t.deaths;
      assert t.Get(Recovered) == t.recovered && t.Get(Active) == t.active;
    }
    r := t;
    for k := 0 to |targets|
      invariant r.dates == t.dates
      invariant forall c :: r.Get(c) == if c in targets[..k] then Daily(t.Get(c)) else t.Get(c)
    {
      assert targets[k] !in targets[..k];
      var values := r.Get(targets[k]);
      var daily := [values[0]];
      for i := 0 to |t.dates| - 1
        invariant daily == Daily(values)[..i + 1]
      {
        daily := daily + [values[i + 1] - values[i]];
      }
      assert daily == Daily(values);
      r := r.With(targets[k], daily);
      assert targets[..k + 1] == targets[..k] + [targets[k]];
    }
    assert targets[..|targets|] == targets;
  }

  /** preprocess of the draft: increase, daily, smoothing and divide, each
      when its flag is set; the zero-removal flag is never read. */
  method Preprocess(t: RegionTable, population: real, s: Settings) returns (r: RegionTable)
    requires PreprocessAccepts(t, population, s)
    ensures Preprocessed(t, population, s.(removeZero := false), r)
  {
    var v1 := IncreaseStep(t, s);
    var v2 := DailyStep(v1, s);
    var v3 := SmoothingStep(v2, s);
    r := DivideStep(v3, population, s);
    forall c
      ensures r.Get(c) == ColumnPipeline(t.Get(c), c, population, s.(removeZero := false))
    {
      DraftSteps(t, v1, v2, v3, r, population, s, c);
    }
    assert r.Get(Confirmed) == r.confirmed && r.Get(Deaths) == r.deaths;
    assert r.Get(Recovered) == r.recovered && r.Get(Active) == r.active;
  }

  /** The draft's first step: its own dataset_to_increased on the count
      columns when the increase flag is set. */
  method IncreaseStep(t: RegionTable, s: Settings) returns (r: RegionTable)
    ensures r.dates == t.dates
    ensures forall c :: r.Get(c) == IncreaseColumn(t.Get(c), c, s)
    ensures t.WellFormed() ==> r.WellFormed()
  {
    r := t;
    if s.increase {
      r := DatasetToIncreased(t, CountColumns);
      assert r.Get(Confirmed) == r.confirmed && r.Get(Deaths) == r.deaths;
      assert r.Get(Recovered) == r.recovered && r.Get(Active) == r.active;
      assert t.Get(Confirmed) == t.confirmed && t.Get(Deaths) == t.deaths;
      assert t.Get(Recovered) == t.recovered && t.Get(Active) == t.active;
    }
  }

  /** The draft's second step: its own cumulated_to_daily on the count
      columns when the daily flag is set. */
  method DailyStep(t: RegionTable, s: Settings) returns (r: RegionTable)
    requires t.WellFormed() && (s.daily ==> |t.dates| > 0)
    ensures r.dates == t.dates
    ensures forall c :: r.Get(c) == DailyColumn(t.Get(c), c, s)
  {
    r := t;
    if s.daily {
      r := CumulatedToDaily(t, CountColumns);
    }
  }

  /** Four calls of the draft's preprocess, chained, give ColumnPipeline
      without zero removal on one column. */
  lemma DraftSteps(t: RegionTable, v1: RegionTable, v2: RegionTable, v3: RegionTable,
                   r: RegionTable, population: real, s: Settings, c: Column)
    requires PreprocessAccepts(t, population, s) && |t.Get(c)| == |t.dates|
    requires v1.Get(c) == IncreaseColumn(t.Get(c), c, s)
    requires v2.Get(c) == DailyColumn(v1.Get(c), c, s)
    requires v3.Get(c) == SmoothingColumn(v2.Get(c), s)
    requires r.Get(c) == DivideColumn(v3.Get(c), population, s)
    ensures r.Get(c) == ColumnPipeline(t.Get(c), c, population, s.(removeZero := false))
  {
  }

  /** preprocess_data_dict: the draft's preprocess on every region, with
      that region's population. */
  method PreprocessDataDict(data: map<string, RegionTable>, population: map<string, real>, s: Settings)
    returns (result: map<string, RegionTable>)
    requires data.Keys <= population.Keys
    requires forall region :: region in data ==>
      PreprocessAccepts(data[region], population[region], s.(removeZero := false))
    ensures result.Keys == data.Keys
    ensures forall region :: region in data ==>
      Preprocessed(data[region], population[region], s.(removeZero := false), result[region])
  {
    result := map[];
    var todo := data.Keys;
    while todo != {}
      invariant todo <= data.Keys
      invariant result.Keys == data.Keys - todo
      invariant forall region :: region in result ==>
        Preprocessed(data[region], population[region], s.(removeZero := false), result[region])
      decreases todo
    {
      var region :| region in todo;
      var table := Preprocess(data[region], population[region], s);
      result := result[region := table];
      todo := todo - {region};
    }
  }
}
