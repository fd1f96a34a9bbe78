# COVID_DataProcessor: the series repair and preprocessing core in Dafny

This project models the deterministic core of COVID_DataProcessor: the code
that turns raw cumulative per-region case counts into repaired, daily,
smoothed, per-capita and SIRD (susceptible, infected, recovered, deceased)
series. It also models the settings object whose hash names a preprocessing
run, the inclusive date-range helper and the sliding-window loader.

One module per source file, each in the form of its source:

- `numeric.dfy` (module `Numeric`): sums, prefix sums (`np.cumsum`),
  reversal, `[::2]`, element-wise division and multiplication, and the
  `NonDecreasing` predicate, which the other modules share.
- `repair.dfy` (module `Repair`): the list scans of
  `preprocess/preprocess.py`. These are `interpolate`, `get_max_index`,
  `get_nonzero_index`, `target_to_increased`, `remove_target_zeros`,
  `make_zero_and_negative_removed` and `target_to_daily`.
  - Each is a method with a loop.
  - Each is proved equal to a recursive function that follows the same
    scan.
  - Lemmas about those functions state what each repair guarantees.
- `smoothing.dfy` (module `Smoothing`): `smooth`. It is a numpy expression
  with no loop, so it is a function. `SmoothAsWritten` is the code as
  written, and the pipeline uses it. `Smooth` has the start segment
  corrected; it is the reference for the Findings row.
- `pipeline.dfy` (module `Pipeline`):
  - a region's table is a record of a date index and four equal-length
    columns;
  - the column-wise wrappers are methods that copy the table and reassign
    target columns in a loop;
  - also modelled: `preprocess` with its five flag-gated steps,
    `preprocess_origin_dict`, `divide_by_population`,
    `inverse_divide_by_population` and `convert_columns_to_sird`.
- `draft.dfy` (module `Draft`): where `preprocessing.py` differs from
  `preprocess/preprocess.py`:
  - `interpolate` writes into the caller's list, modelled as an `array`;
  - `target_to_increased` repairs that array in place;
  - `cumulated_to_daily` has an inline differencing loop bounded by the
    number of dates;
  - `preprocess` has no zero-removal step;
  - also `preprocess_data_dict`.

  The two files share `smooth`, `divide_by_population`,
  `inverse_divide_by_population`, `apply_moving_average` and
  `get_max_index`, whose text is identical. Those are modelled once, in
  `Smoothing`, `Pipeline` and `Repair`, and the rows below cite the
  `preprocess/preprocess.py` copy.

  `convert_columns_to_sird` differs between the two files in three ways.
  - `preprocess/preprocess.py:46` takes the country and reads a region's
    population with `load_population(country, region)`.
  - `preprocessing.py:31` takes a population table and reads
    `population_df.loc[region][0]`.
  - Only the first calls `save_sird_dict` at its end.

  Both population sources are modelled as one map from region to
  population (`Pipeline.ConvertColumnsToSird`), and the save is I/O.
- `testnumber.dfy` (module `TestNumber`): `preprocess_test_number`. It runs
  on a `TestTable` class whose rows it overwrites in place, then builds a
  new table without the first `window` date columns.
- `datatype.dfy` (module `DataType`):
  - the `Country` enumeration;
  - `PreprocessInfo` as a class whose setters assign its seven fields;
  - `__repr__`, `get_hash`, `start_tostring` and `end_tostring`.
- `util.dfy` (module `Util`): `get_period`, with dates and datetimes
  kept apart as Python keeps them.
- `loader.dfy` (module `Loader`): `I_Loader` as a class with `initiate`,
  `__len__` and `__getitem__`.

Modelling choices:

- Values are `real`, so the equalities the repairs promise hold exactly.
  Dates are integer day ordinals. In `Util`, a datetime also holds its
  seconds since midnight.
- A DataFrame is a record of columns (`RegionTable`, `Loader.Frame`) or a
  sequence of rows (`RegionFrame`, `TestTable`).
- The library calls the source makes become function-typed parameters:
  - `datetime.strptime` with the format `get_date_format` picks;
  - `strftime`;
  - `str(date)`;
  - `datetime.now().date()`;
  - the SHA-1 hex digest.

  Nothing is assumed about them beyond what each lemma's `requires` says.
- `pre_info.remove_zero`, which `preprocess` and `preprocess_test_number`
  read, is not an attribute of `PreprocessInfo`. The pipeline therefore
  takes a `Settings` value: the five flags and the window, plus
  `removeZero` as an extra input.

## Model

| member | source | states |
|---|---|---|
| Repair.Interpolate | COVID_DataProcessor/preprocess/preprocess.py:195-212 | The copy it returns is `Interpolated(values, s, e)`: the flat tail from s when e is -1, otherwise v[s] + k·theta at s + k for 0 < k ≤ e − s, and everything else unchanged. |
| Repair.InterpolatedShape | COVID_DataProcessor/preprocess/preprocess.py:198-212 | With e = -1, indices before s keep their values and every index from s on holds v[s]. Otherwise indices ≤ s and > e are unchanged, v[e] keeps its value, and consecutive values in [s, e] differ by the same slope. |
| Repair.InterpolatedBetween | COVID_DataProcessor/preprocess/preprocess.py:204-212 | Every interpolated value lies between the two anchor values, for a rising and for a falling stretch. |
| Repair.InterpolatedNonDecreasing | COVID_DataProcessor/preprocess/preprocess.py:195-212 | If the prefix up to s is non-decreasing and the end anchor is not below v[s], the result is non-decreasing up to e, or up to the end when e is -1. |
| Repair.GetMaxIndex | COVID_DataProcessor/preprocess/preprocess.py:183-192 | Returns the smallest index after `broken` whose value is at least the value just before `broken`, or -1 when every later value is below it. |
| Repair.GetNonzeroIndex | COVID_DataProcessor/preprocess/preprocess.py:132-139 | Returns the smallest index after `broken` with a positive value, or -1 when no later value is positive. |
| Repair.TargetToIncreased | COVID_DataProcessor/preprocess/preprocess.py:164-170 | The result is the scan's specification `Increased(values)`. It has the same length, is non-decreasing, and equals the input when the input is already non-decreasing. |
| Repair.IncreasedIsNonDecreasing | COVID_DataProcessor/preprocess/preprocess.py:164-170 | The monotonicity repair of any series is non-decreasing. |
| Repair.IncreasedKeepsSortedPrefix | COVID_DataProcessor/preprocess/preprocess.py:165-168 | A non-decreasing prefix is left unchanged by the repair. |
| Repair.IncreasedOfNonDecreasing | COVID_DataProcessor/preprocess/preprocess.py:164-170 | A non-decreasing series is its own repair, so the repair is idempotent on its own output. |
| Repair.RemoveTargetZeros | COVID_DataProcessor/preprocess/preprocess.py:121-129 | The result is `ZerosRemoved(values)`. It has the same length, and every element up to the first non-zero one is unchanged. |
| Repair.ZerosRemovedKeepsLeadingPart | COVID_DataProcessor/preprocess/preprocess.py:122-124 | An index with only zeros before it keeps its value: the repair triggers only after a non-zero value. |
| Repair.ZerosRemovedKeepsPositiveTail | COVID_DataProcessor/preprocess/preprocess.py:121-129 | A tail of positive values is left unchanged. |
| Repair.ZerosRemovedOnNonNegative | COVID_DataProcessor/preprocess/preprocess.py:121-139 | On a non-negative series: the result is non-negative, positive entries are untouched, and no zero follows a non-zero value. |
| Repair.MakeZeroAndNegativeRemoved | COVID_DataProcessor/preprocess/preprocess.py:215-234 | The result is `ZeroNegRemoved(values)`. It has the same length, leaves everything up to the first positive value unchanged, and is positive at every index from the first positive value on. |
| Repair.ZeroNegRemovedProperties | COVID_DataProcessor/preprocess/preprocess.py:218-232 | About the specification function: every value before the first positive one is unchanged, and every value from the first positive one on is positive. |
| Repair.ZeroNegFlattensAtFirstDrop | COVID_DataProcessor/preprocess/preprocess.py:218-232 | At the first drop i (v[i−1] > 0 ≥ v[i]), when no value at i+1 … n−2 is positive, the result is v[..i] followed by v[i−1] repeated to the end, the last value included. |
| Repair.ZeroNegSkipsToFirstDrop | COVID_DataProcessor/preprocess/preprocess.py:218-220 | Before the first drop the scan changes nothing: the result from index k equals the result from index i. |
| Repair.ZeroNegFlattenOverwritesLast | COVID_DataProcessor/preprocess/preprocess.py:222-232 | [1, 0, 5] becomes [1, 1, 1]: the anchor search stops before the last index, so the positive last value is overwritten. |
| Repair.TargetToDaily | COVID_DataProcessor/preprocess/preprocess.py:173-180 | The output has the same length, out[0] = v[0] and out[i] = v[i] − v[i−1], and its prefix sums give back the input. |
| Repair.DailyThenCumSum | COVID_DataProcessor/preprocess/preprocess.py:173-180 | Prefix sums of the daily series reconstruct the cumulative series. |
| Repair.CumSumThenDaily | COVID_DataProcessor/preprocess/preprocess.py:173-180 | Differencing the prefix sums of a series gives the series back, so the two are inverses. |
| Repair.DailyOfNonDecreasing | COVID_DataProcessor/preprocess/preprocess.py:177-178 | A non-decreasing cumulative series has no negative daily value after the first day. |
| Smoothing.SmoothIsCentredMean | COVID_DataProcessor/preprocess/preprocess.py:156-161 | With the start segment corrected, every output value is the mean of the widest window centred on its index that fits in the series and in the window size. |
| Smoothing.FullWindowIsCentred | COVID_DataProcessor/preprocess/preprocess.py:157 | Output h + t (h = (size−1)/2) is the mean of a[t..t+size−1]. |
| Smoothing.StopIsCentred | COVID_DataProcessor/preprocess/preprocess.py:160 | Output n−1−k of the end segment is the mean of a[n−1−2k..n−1]. |
| Smoothing.StartIsCentred | COVID_DataProcessor/preprocess/preprocess.py:159 | In the corrected start segment, output k is the mean of a[0..2k]. |
| Smoothing.SmoothKeepsBounds | COVID_DataProcessor/preprocess/preprocess.py:156-161 | For the corrected smoothing: if every input value lies in [lo, hi], every smoothed value does too. |
| Smoothing.SmoothKeepsNonNegative | COVID_DataProcessor/preprocess/preprocess.py:156-161 | For the corrected smoothing: a series with no negative value smooths to a series with no negative value. |
| Smoothing.SmoothAsWrittenKeepsBounds | COVID_DataProcessor/preprocess/preprocess.py:156-161 | For the code as written: if every input value lies in [lo, hi], every smoothed value lies in [min(lo, 0), max(hi, 0)]. The start segment divides a sum of k+1 values by 2k+1, which pulls it towards 0. |
| Smoothing.SmoothAsWrittenKeepsNonNegative | COVID_DataProcessor/preprocess/preprocess.py:156-161 | For the code as written: a series with no negative value smooths to a series with no negative value. |
| Smoothing.SmoothWidthOne | COVID_DataProcessor/preprocess/preprocess.py:156-161 | A window of one leaves the series unchanged, for the code as written and for the corrected smoothing. |
| Smoothing.SmoothAsWrittenHead | COVID_DataProcessor/preprocess/preprocess.py:158-159 | As written, start output k is (a0 + a2 + … + a2k)/(2k+1). |
| Smoothing.SmoothAsWrittenAfterHead | COVID_DataProcessor/preprocess/preprocess.py:157-161 | Past the start segment, the code as written and the corrected version agree. |
| Smoothing.SmoothAsWrittenHeadIsNotCentred | COVID_DataProcessor/preprocess/preprocess.py:159 | On [0, 1, 0, 0, 0] with size 5, output 1 as written is 0, while the centred mean there is 1/3. |
| Pipeline.DatasetToIncreased | COVID_DataProcessor/preprocess/preprocess.py:77-85 | The copy keeps the dates. Every target column is the monotonicity repair of the input's column, and every other column is unchanged. |
| Pipeline.CumulatedToDaily | COVID_DataProcessor/preprocess/preprocess.py:88-96 | The dates are kept. Every target column becomes its daily series, and every other column is unchanged. |
| Pipeline.RemoveZeroPeriod | COVID_DataProcessor/preprocess/preprocess.py:110-118 | The dates are kept. Every target column goes through the zero-run repair, and every other column is unchanged. |
| Pipeline.ApplyMovingAverage | COVID_DataProcessor/preprocess/preprocess.py:99-107 | The dates are kept. Every target column is smoothed with the window by `smooth` as written, and every other column is unchanged. |
| Pipeline.DivideByPopulation | COVID_DataProcessor/preprocess/preprocess.py:142-145 | The dates are kept, and every column times the population gives back the input column. |
| Pipeline.IncreaseStep | COVID_DataProcessor/preprocess/preprocess.py:32-33 | When the increase flag is set, the repair reaches confirmed, deaths and recovered only. |
| Pipeline.DailyStep | COVID_DataProcessor/preprocess/preprocess.py:34-35 | When the daily flag is set, daily conversion reaches confirmed, deaths and recovered only. |
| Pipeline.RemoveZeroStep | COVID_DataProcessor/preprocess/preprocess.py:36-37 | When the zero-removal flag is set, the zero-run repair reaches recovered only. |
| Pipeline.SmoothingStep | COVID_DataProcessor/preprocess/preprocess.py:38-39 | When the smoothing flag is set, every column is smoothed with the configured window by `smooth` as written. |
| Pipeline.DivideStep | COVID_DataProcessor/preprocess/preprocess.py:40-41 | When the divide flag is set, every column is divided by the population. |
| Pipeline.Preprocess | COVID_DataProcessor/preprocess/preprocess.py:31-43 | The result keeps the dates. Every column is the five steps in the fixed order increase, daily, remove-zero, smoothing (by `smooth` as written), divide, each only when its flag is set. |
| Pipeline.StepsTouchTheirColumns | COVID_DataProcessor/preprocess/preprocess.py:31-43 | Active is changed only by smoothing and division. Confirmed and deaths go through the same steps, and recovered differs from them only by the zero-run repair. |
| Pipeline.PreprocessAll | COVID_DataProcessor/preprocess/preprocess.py:21-28 | Every region is preprocessed (smoothing by `smooth` as written) with its own population, and the result has exactly the input's regions. |
| Pipeline.CountColumnsNonNegative | COVID_DataProcessor/preprocess/preprocess.py:31-43 | With increase and daily on, a count column whose first value is not negative comes out non-negative through every later step, `smooth` as written included, given a positive population. |
| Pipeline.DailyCountsAddUpToRepaired | COVID_DataProcessor/preprocess/preprocess.py:31-35 | With only increase and daily on, the prefix sums of a count column are its repaired cumulative series, which is non-decreasing. |
| Pipeline.InverseDivideByPopulation | COVID_DataProcessor/preprocess/preprocess.py:148-153 | A region missing from the population table raises KeyError, and only then. Otherwise the copy keeps the regions, and each row is multiplied by its region's population once per row carrying that label: exactly once when the label is unique. |
| Pipeline.RepeatedLabelScalesTwice | COVID_DataProcessor/preprocess/preprocess.py:150-151 | Rows ["a", "a"] of [1] with population 2 both become [4]: each iteration multiplies every row with the label. |
| Pipeline.InverseUndoesDivide | COVID_DataProcessor/preprocess/preprocess.py:142-153 | When every region label occurs once and populations are non-zero, the inverse's result on the divided frame is the original frame. |
| Pipeline.RepeatedLabelBreaksRoundTrip | COVID_DataProcessor/preprocess/preprocess.py:142-153 | With a repeated label the round trip fails: rows [2] labelled "a" twice, population 2, divide to [1] and come back as [4]. |
| Pipeline.DivideThenScale | COVID_DataProcessor/preprocess/preprocess.py:142-145 | Dividing a column by a non-zero population and multiplying back gives the column. |
| Pipeline.DivideKeepsNonNegative | COVID_DataProcessor/preprocess/preprocess.py:142-145 | Division by a positive population keeps non-negative values non-negative. |
| Pipeline.IncreasedKeepsFirst | COVID_DataProcessor/preprocess/preprocess.py:164-170 | The first value of a column survives the monotonicity repair. |
| Pipeline.ConvertRegionToSird | COVID_DataProcessor/preprocess/preprocess.py:52-67 | The dates are kept, with infected = active, recovered = recovered and deceased = deaths. At every date S + I + R + D equals the baseline. |
| Pipeline.ConvertColumnsToSird | COVID_DataProcessor/preprocess/preprocess.py:46-74 | Every region is converted. The baseline is 1 when divide is set, otherwise the region's population (`load_population` here, `population_df.loc[region][0]` in `preprocessing.py:43`; both a map lookup). |
| Draft.InterpolateInPlace | COVID_DataProcessor/preprocessing.py:144-159 | The caller's array itself now holds `Interpolated` of its old contents. |
| Draft.FlattenInPlace | COVID_DataProcessor/preprocessing.py:145-149 | The slice assignment turns every element from s on into a[s] and leaves the rest. |
| Draft.BridgeInPlace | COVID_DataProcessor/preprocessing.py:151-159 | The element writes put the interpolated stretch into (s, e] of the caller's array and leave the rest. |
| Draft.TargetToIncreasedInPlace | COVID_DataProcessor/preprocessing.py:123-129 | The array is repaired in place into `Increased` of its old contents, which is non-decreasing. |
| Draft.DatasetToIncreased | COVID_DataProcessor/preprocessing.py:61-69 | Target columns are repaired and non-decreasing, the other columns and the dates are unchanged, and the input table is a value that nothing writes into. |
| Draft.CumulatedToDaily | COVID_DataProcessor/preprocessing.py:72-87 | The inline loop gives out[0] = v[0] followed by first differences for every target column. The other columns and the dates are unchanged. |
| Draft.IncreaseStep | COVID_DataProcessor/preprocessing.py:10-11 | The draft's increase step reaches the three count columns only, and keeps the table well formed. |
| Draft.DailyStep | COVID_DataProcessor/preprocessing.py:12-13 | The draft's daily step reaches the three count columns only. |
| Draft.Preprocess | COVID_DataProcessor/preprocessing.py:9-19 | The result is the later pipeline with the zero-removal flag forced off: increase, daily, smoothing (by `smooth` as written), divide. |
| Draft.PreprocessDataDict | COVID_DataProcessor/preprocessing.py:22-28 | Every region goes through the draft's preprocess, `smooth` as written included, with its own population. |
| TestNumber.PreprocessTestNumber | COVID_DataProcessor/preprocess/test_number.py:26-44 | Every row is overwritten with daily, zero-and-negative repair then zero-run repair (gated only by remove_zero), and smoothing by `smooth` as written, in that order, applied to that row alone. The regions and dates are kept. With smoothing on, a new table without the first `window` columns is returned; otherwise the table itself, unchanged when no flag is set. |
| TestNumber.DropFirst | COVID_DataProcessor/preprocess/test_number.py:41-42 | `iloc[:, k:]` keeps n − k entries, entry i being the original entry k + i, or none when k ≥ n. |
| TestNumber.TestRowDailyAddsUp | COVID_DataProcessor/preprocess/test_number.py:31-32 | With only daily on, the prefix sums of a processed row give back the cumulative row. |
| TestNumber.TestRowPositiveAfterFirstPositive | COVID_DataProcessor/preprocess/test_number.py:33-35 | With zero removal on and smoothing off, a processed row is positive from its first positive value on. |
| Util.ToStamp | COVID_DataProcessor/util.py:5-9 | A value is used as is. A string is parsed with the input format into a datetime, and fails when there is no format or the parse fails. |
| Util.Shift | COVID_DataProcessor/util.py:12 | `+ timedelta(days=i)` keeps the kind and the time of day and moves i · 86400 seconds later. |
| Util.ElapsedDays | COVID_DataProcessor/util.py:11 | A date with a datetime raises TypeError. Otherwise the result is the q with q · 86400 ≤ seconds from start to end < (q + 1) · 86400, i.e. rounded down. |
| Util.GetPeriod | COVID_DataProcessor/util.py:4-17 | It succeeds exactly when both arguments become points in time of the same kind, and returns the points in time exactly when there is no output format. |
| Util.ElapsedDates | COVID_DataProcessor/util.py:11 | Between two dates, the day count is the difference of their days. |
| Util.ElapsedDateTimes | COVID_DataProcessor/util.py:11 | Between two datetimes, the day count is the difference of their days, one less when the end's time of day is earlier than the start's. |
| Util.TextWithDateRaises | COVID_DataProcessor/util.py:5-11 | A string parses to a datetime, so a string with a date value fails, in either position. |
| Util.GetPeriodStamps | COVID_DataProcessor/util.py:11-15 | Without an output format, entry i is start shifted by i days, and shifted by i days is an entry exactly when it is not later than the end. |
| Util.DatePeriodMembership | COVID_DataProcessor/util.py:11-15 | Between two dates, a date is an entry exactly when start ≤ date ≤ end. |
| Util.EarlierEndTimeDropsLastDay | COVID_DataProcessor/util.py:11-12 | From 12:00 on day 0 to 06:00 on day 4 there are 4 entries; from date 0 to date 4 there are 5. |
| Util.GetPeriodFormatted | COVID_DataProcessor/util.py:14-17 | With an output format, the result is one formatted string per entry of the period, in order. |
| DataType.CountryOf | COVID_DataProcessor/datatype.py:9-13 | `Country(v)` exists exactly for the values 0 to 3. |
| DataType.CountryRoundTrip | COVID_DataProcessor/datatype.py:9-13 | `Country(c.value)` is c, and a value names at most one country. |
| DataType.StoredDate | COVID_DataProcessor/datatype.py:61-72 | None stores today, a string its parse, and a datetime or a date its day. Any other argument leaves the stored value as it was. |
| DataType.StoredDateDropsTime | COVID_DataProcessor/datatype.py:69-72 | A datetime stores only its date, the same as the date itself. |
| DataType.PreprocessInfo.constructor | COVID_DataProcessor/datatype.py:33-40 | Every setter runs once on a fresh object. A date argument of another type leaves that date unset. |
| DataType.PreprocessInfo.SetStart | COVID_DataProcessor/datatype.py:61-72 | The start field becomes `StoredDate` of the argument and the old value. |
| DataType.PreprocessInfo.SetEnd | COVID_DataProcessor/datatype.py:87-98 | The end field becomes `StoredDate` of the argument and the old value. |
| DataType.PreprocessInfo.SetIncrease | COVID_DataProcessor/datatype.py:104-106 | Stores exactly the given flag and changes no other field. |
| DataType.PreprocessInfo.SetDaily | COVID_DataProcessor/datatype.py:112-114 | Stores exactly the given flag and changes no other field. |
| DataType.PreprocessInfo.SetSmoothing | COVID_DataProcessor/datatype.py:120-122 | Stores exactly the given flag and changes no other field. |
| DataType.PreprocessInfo.SetWindow | COVID_DataProcessor/datatype.py:128-130 | Stores exactly the given window and changes no other field. |
| DataType.PreprocessInfo.SetDivide | COVID_DataProcessor/datatype.py:136-138 | Stores exactly the given flag and changes no other field. |
| DataType.PreprocessInfo.StartToString | COVID_DataProcessor/datatype.py:55-59 | The start formatted with the given format, "%y%m%d" when none is given, or "" when the start was never set. |
| DataType.PreprocessInfo.EndToString | COVID_DataProcessor/datatype.py:81-85 | The end formatted with the given format, "%y%m%d" when none is given, or "" when the end was never set. |
| DataType.DefaultFormatIsShortDate | COVID_DataProcessor/datatype.py:55-59 | Called without a format, start_tostring and end_tostring format a set date with "%y%m%d", and an unset start gives "". |
| DataType.PreprocessInfo.Repr | COVID_DataProcessor/datatype.py:42-46 | The repr exists exactly when both dates are set; otherwise reading the unset field raises. |
| DataType.ReprInjective | COVID_DataProcessor/datatype.py:42-46 | Dates print as ten distinct characters, so two states with the same repr have the same seven fields. |
| DataType.ReprFlagsInjective | COVID_DataProcessor/datatype.py:44-45 | The flags-and-window part of the repr determines increase, daily, smoothing, window and divide. |
| DataType.PreprocessInfo.GetHash | COVID_DataProcessor/datatype.py:140-142 | When both dates are set, the hash is six hexadecimal digits. |
| DataType.HashDependsOnFields | COVID_DataProcessor/datatype.py:140-142 | Two objects holding the same field values have the same hash. |
| Loader.ILoader.constructor | COVID_DataProcessor/loader.py:8-14 | Stores the test period and the window sizes, then cuts the table as `initiate` does. |
| Loader.ILoader.Initiate | COVID_DataProcessor/loader.py:19-23 | The table is cut to the dates from x_frames days before the test start to y_frames − 1 days after the test end, and len is its column count. |
| Loader.LabelSliceMembership | COVID_DataProcessor/loader.py:22 | On a sorted date axis, a date is kept exactly when it is in the table and lies between the two bounds, both included. |
| Loader.ILoader.Length | COVID_DataProcessor/loader.py:16-17 | `__len__` is positive exactly when the table holds x_frames + y_frames columns. When it is not negative, it is the number of starting positions len − (x_frames + y_frames) + 1. |
| Loader.ILoader.GetItem | COVID_DataProcessor/loader.py:25-32 | x holds the columns from idx and y the ones after them, at most x_frames and y_frames of each. Below `__len__` there are exactly that many. It reads the loader and changes nothing. |
| Loader.GetItemContiguous | COVID_DataProcessor/loader.py:26-30 | x followed by y is one contiguous slice of the table, columns idx to idx + x_frames + y_frames when idx is below `__len__`. |

## Left out

- Loading, downloading, saving, plotting and the `__main__` blocks are I/O and are not modelled. This covers `io.py`, `download.py`, `plotting.py`, `sird.py` and `model/`. `get_sird_dict`, `get_preprocessed_dict` and `get_test_number` with its per-country builders are load/save glue around the modelled functions.
- `save_sird_dict`, which `convert_columns_to_sird` calls at its end, writes files and is not modelled.
- Floating point: values are reals, so rounding in interpolation, division and the moving average is not modelled.
- Smoothing.SmoothAsWritten, Smoothing.Smooth: only odd windows with 1 ≤ size ≤ n are modelled. With an even window the edge segments have the wrong lengths. Size 2 gives n − 1 values and size 4 gives n + 1, and the assignment back into the DataFrame column then fails. From size 6 on, the division of the start segment fails on mismatched shapes. A window larger than the series is not modelled either.
- Repair.TargetToDaily: the list must not be empty. An empty list makes `target_to_daily` raise IndexError at `preprocess/preprocess.py:175`; that error is not modelled.
- Draft.CumulatedToDaily, Draft.DailyStep: a table with no dates is required to have no targets (daily off). With targets, `cumulated_to_daily` raises IndexError at `preprocessing.py:80`; that error is not modelled.
- Pipeline.DivideByPopulation: a zero population is excluded. numpy turns it into infinities and NaNs, which reals cannot represent.
- Pipeline.CumulatedToDaily, Pipeline.RemoveZeroPeriod, Pipeline.ApplyMovingAverage, Draft.CumulatedToDaily: the target list is required to name each column once. `preprocess` always passes distinct targets. The wrappers read back the copy (`preprocessing.py:77` in the draft), so a repeated target would be processed twice; that is not modelled.
- Util.GetPeriod: a datetime's time of day is kept to the second. Microseconds and time zones are not modelled.
- DataType.PreprocessInfo.SetStart, DataType.PreprocessInfo.SetEnd: a string that `get_date_format`/`strptime` cannot read makes the source raise. Here it is excluded by `Parsable` instead of modelled as an error. `get_date_format` is not part of this model.
- DataType.PreprocessInfo.Repr: `str(date)` is a parameter. Injectivity is proved under the assumption that it prints every day as ten distinct characters.
- DataType.PreprocessInfo.GetHash: SHA-1 is a parameter assumed to return forty lower-case hexadecimal digits. Collisions are not modelled.
- `DatasetInfo` is not part of this model. `I_Loader` takes its four values directly.
- Loader.ILoader.GetItem: idx is a natural number. A negative idx, which Python slicing would wrap around, is not modelled. Dates are day ordinals, and `loc` on the '%Y-%m-%d' labels is modelled as a slice of a sorted day axis.
- Pipeline.InverseUndoesDivide: the round trip is promised only when every region label occurs once. With a repeated label the inverse multiplies each row once per occurrence, so the frame does not come back (Pipeline.RepeatedLabelBreaksRoundTrip).
- Pipeline.InverseDivideByPopulation: the population table is a map from region to population, so a population table that itself repeats a label is not modelled. Repeated labels in the frame are modelled.
- TestNumber.PreprocessTestNumber: `.loc[region, :]` assignment is modelled as replacing row i of the row sequence. Regions are addressed by position, so duplicate region labels are not modelled.
- The `remove_zero` flag is read by `preprocess` and `preprocess_test_number` but is not a `PreprocessInfo` attribute. It is an extra `Settings` field here.

## Findings

| source | as written | input that shows it | evidently intended | confidence | as-written member | corrected member |
|---|---|---|---|---|---|---|
| COVID_DataProcessor/preprocess/preprocess.py:159 | `np.cumsum(array[:size - 1][::2]) / r` takes every other element before the prefix sums, so start output k is (a0 + a2 + … + a2k)/(2k+1) | a = [0, 1, 0, 0, 0], size 5: output 1 is 0 | the mean of a[0..2k], the shrinking centred window the end segment already uses (`np.cumsum(...)[::2]`) | high, not executed | Smoothing.SmoothAsWrittenHeadIsNotCentred | Smoothing.SmoothIsCentredMean |

The same expression is at `COVID_DataProcessor/preprocessing.py:118`. The pipeline, the draft and the test-number model use `Smoothing.SmoothAsWritten`, the code as written. `Smoothing.Smooth` is the corrected version that `Smoothing.SmoothIsCentredMean` is proved about.
