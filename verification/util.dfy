/** util.py: get_period, the list of days from a start to an end.

    A point in time is a date (a day ordinal) or a datetime (a day ordinal
    and the seconds since midnight). Python's subtraction is modelled
    exactly for these: two dates or two datetimes give a whole number of
    days, rounded down, and a date with a datetime raises TypeError.
    Parsing a string with a format (datetime.strptime) and formatting a
    point in time (strftime) are library calls whose internals are not
    modelled; they are parameters, and a failed parse is `None`. */
module Util {

  datatype Option<T> = None | Some(value: T)

  datatype Result<T> = Ok(value: T) | Err(message: string)

  const SecondsPerDay: int := 86400

  /** Seconds since midnight. */
  type Second = s: nat | s < 86400

  /** A date, or a datetime, which also holds a time of day. */
  datatype Stamp = Date(day: int) | DateTime(day: int, second: Second)

  /** A date argument: a date or datetime value, or a string still to be
      parsed. */
  datatype DateInput = Value(stamp: Stamp) | Text(text: string)

  /** The two shapes get_period can return: the points in time themselves,
      or their formatted strings. */
  datatype Period = Stamps(stamps: seq<Stamp>) | Texts(texts: seq<string>)

  /** Turning one argument into a point in time: strptime turns a string
      into a datetime, and raises when there is no format or the string
      does not match it; any other argument is kept as it is. */
  function ToStamp(x: DateInput, inFormat: Option<string>, parse: (string, string) -> Option<(int, Second)>): (r: Result<Stamp>)
    ensures x.Value? ==> r == Ok(x.stamp)
    ensures x.Text? && inFormat.None? ==> r.Err?
    ensures x.Text? && inFormat.Some? ==> (r.Ok? <==> parse(x.text, inFormat.value).Some?)
    ensures x.Text? && r.Ok? ==>
      r.value.DateTime? && inFormat.Some? && parse(x.text, inFormat.value) == Some((r.value.day, r.value.second))
  {
    match x
    case Value(stamp) => Ok(stamp)
    case Text(text) =>
      if inFormat.None? then Err("strptime() argument 2 must be str, not None")
      else
        match parse(text, inFormat.value)
        case None => Err("time data does not match format")
        case Some(p) => Ok(DateTime(p.0, p.1))
  }

  /** Seconds from midnight of day 0; a date stands at its midnight. */
  function Seconds(s: Stamp): int
  {
    match s
    case Date(day) => day * SecondsPerDay
    case DateTime(day, second) => day * SecondsPerDay + second
  }

  /** `s + timedelta(days=i)`: the same kind, i days later, same time of day. */
  function Shift(s: Stamp, i: int): (r: Stamp)
    ensures r.Date? == s.Date?
    ensures Seconds(r) == Seconds(s) + i * SecondsPerDay
  {
    match s
    case Date(day) => Date(day + i)
    case DateTime(day, second) => DateTime(day + i, second)
  }

  /** `(end - start).days`: the whole days from start to end, rounded down
      (timedelta keeps its seconds non-negative), or TypeError when one is
      a date and the other a datetime. */
  function ElapsedDays(start: Stamp, end: Stamp): (r: Result<int>)
    ensures r.Ok? <==> start.Date? == end.Date?
    ensures r.Ok? ==> r.value * SecondsPerDay <= Seconds(end) - Seconds(start) < (r.value + 1) * SecondsPerDay
  {
    if start.Date? != end.Date? then Err("unsupported operand type(s) for -")
    else
      var d := Seconds(end) - Seconds(start);
      FloorBounds(d, SecondsPerDay);
      Ok(d / SecondsPerDay)
  }

  /** The duration + 1 points start, start + 1 day, ...; none when the
      duration is not positive (range of a negative number is empty). */
  function Shifts(start: Stamp, duration: int): (r: seq<Stamp>)
    ensures |r| == if duration > 0 then duration else 0
  {
    seq(if duration > 0 then duration else 0, i => Shift(start, i))
  }

  /** get_period(start_date, end_date, in_date_format, out_date_format). */
  function GetPeriod(startDate: DateInput, endDate: DateInput, inFormat: Option<string>,
                     outFormat: Option<string>, parse: (string, string) -> Option<(int, Second)>,
                     format: (Stamp, string) -> string): (r: Result<Period>)
    ensures r.Ok? <==>
      ToStamp(startDate, inFormat, parse).Ok? && ToStamp(endDate, inFormat, parse).Ok? &&
      ToStamp(startDate, inFormat, parse).value.Date? == ToStamp(endDate, inFormat, parse).value.Date?
    ensures r.Ok? ==> (r.value.Stamps? <==> outFormat.None?)
  {
    match ToStamp(startDate, inFormat, parse)
    case Err(m) => Err(m)
    case Ok(start) =>
      match ToStamp(endDate, inFormat, parse)
      case Err(m) => Err(m)
      case Ok(end) =>
        match ElapsedDays(start, end)
        case Err(m) => Err(m)
        case Ok(days) =>
          var period := Shifts(start, days + 1);
          if outFormat.None? then Ok(Stamps(period))
          else Ok(Texts(seq(|period|, i requires 0 <= i < |period| => format(period[i], outFormat.value))))
  }

  // ---------------------------------------------------------------------
  // Arithmetic helpers
  // ---------------------------------------------------------------------

  /** Division by a positive number rounds down. */
  lemma FloorBounds(x: int, d: int)
    requires d > 0
    ensures (x / d) * d <= x < (x / d + 1) * d
  {
    assert x == (x / d) * d + x % d;
  }

  /** Rounding down has one answer: the q with q * d <= x < (q + 1) * d. */
  lemma FloorUnique(x: int, d: int, q: int)
    requires d > 0
    requires q * d <= x < (q + 1) * d
    ensures x / d == q
  {
    FloorBounds(x, d);
    var p := x / d;
    if p < q {
      assert (p + 1) * d <= q * d by { MulMono(p + 1, q, d); }
    } else if p > q {
      assert (q + 1) * d <= p * d by { MulMono(q + 1, p, d); }
    }
  }

  lemma MulMono(a: int, b: int, d: int)
    requires a <= b && d > 0
    ensures a * d <= b * d
  {
    assert b * d - a * d == (b - a) * d;
  }

  // ---------------------------------------------------------------------
  // Properties
  // ---------------------------------------------------------------------

  /** Two dates: the number of days between them. */
  lemma ElapsedDates(a: int, b: int)
    ensures ElapsedDays(Date(a), Date(b)) == Ok(b - a)
  {
    var x := Seconds(Date(b)) - Seconds(Date(a));
    assert x == (b - a) * SecondsPerDay;
    FloorUnique(x, SecondsPerDay, b - a);
  }

  /** Two datetimes: the difference of the days, one less when the end's
      time of day is earlier than the start's. */
  lemma ElapsedDateTimes(a: int, sa: Second, b: int, sb: Second)
    ensures ElapsedDays(DateTime(a, sa), DateTime(b, sb)) ==
      Ok(if sb >= sa then b - a else b - a - 1)
  {
    var x := Seconds(DateTime(b, sb)) - Seconds(DateTime(a, sa));
    assert x == (b - a) * SecondsPerDay + (sb - sa);
    if sb >= sa {
      assert (b - a + 1) * SecondsPerDay == (b - a) * SecondsPerDay + SecondsPerDay;
      FloorUnique(x, SecondsPerDay, b - a);
    } else {
      assert (b - a - 1) * SecondsPerDay == (b - a) * SecondsPerDay - SecondsPerDay;
      FloorUnique(x, SecondsPerDay, b - a - 1);
    }
  }

  /** A string parses to a datetime, so a string together with a date
      value raises TypeError, in either position. */
  lemma TextWithDateRaises(day: int, text: string, inFormat: Option<string>, outFormat: Option<string>,
                           parse: (string, string) -> Option<(int, Second)>, format: (Stamp, string) -> string)
    ensures GetPeriod(Value(Date(day)), Text(text), inFormat, outFormat, parse, format).Err?
    ensures GetPeriod(Text(text), Value(Date(day)), inFormat, outFormat, parse, format).Err?
  {
  }

  /** Without an output format, the period holds start shifted by 0, 1, 2,
      ... days, and shifted by i days is in it exactly when that is not
      later than the end. */
  lemma GetPeriodStamps(start: Stamp, end: Stamp, parse: (string, string) -> Option<(int, Second)>,
                          format: (Stamp, string) -> string)
    requires start.Date? == end.Date?
    ensures GetPeriod(Value(start), Value(end), None, None, parse, format).Ok?
    ensures var ps := GetPeriod(Value(start), Value(end), None, None, parse, format).value.stamps;
      (forall i :: 0 <= i < |ps| ==> ps[i] == Shift(start, i)) &&
      (forall i: nat :: i < |ps| <==> Seconds(Shift(start, i)) <= Seconds(end))
  {
    var days := ElapsedDays(start, end).value;
    var ps := GetPeriod(Value(start), Value(end), None, None, parse, format).value.stamps;
    assert ps == Shifts(start, days + 1);
    forall i: nat ensures i < |ps| <==> Seconds(Shift(start, i)) <= Seconds(end) {
      if i <= days {
        MulMono(i, days, SecondsPerDay);
      } else {
        MulMono(days + 1, i, SecondsPerDay);
      }
    }
  }

  /** Between two dates, a date is in the period exactly when it lies
      between them, both included. */
  lemma DatePeriodMembership(a: int, b: int, d: int, parse: (string, string) -> Option<(int, Second)>,
                             format: (Stamp, string) -> string)
    ensures GetPeriod(Value(Date(a)), Value(Date(b)), None, None, parse, format).Ok?
    ensures Date(d) in GetPeriod(Value(Date(a)), Value(Date(b)), None, None, parse, format).value.stamps <==> a <= d <= b
  {
    ElapsedDates(a, b);
    var ps := GetPeriod(Value(Date(a)), Value(Date(b)), None, None, parse, format).value.stamps;
    assert ps == Shifts(Date(a), b - a + 1);
    if a <= d <= b {
      assert ps[d - a] == Date(d);
    }
  }

  /** From noon on one day to six in the morning four days later there are
      only three whole days, so the period has four entries, not five. */
  lemma EarlierEndTimeDropsLastDay(parse: (string, string) -> Option<(int, Second)>, format: (Stamp, string) -> string)
    ensures |GetPeriod(Value(DateTime(0, 43200)), Value(DateTime(4, 21600)), None, None, parse, format).value.stamps| == 4
    ensures |GetPeriod(Value(Date(0)), Value(Date(4)), None, None, parse, format).value.stamps| == 5
  {
    ElapsedDateTimes(0, 43200, 4, 21600);
    ElapsedDates(0, 4);
  }

  /** With an output format, get_period returns, in the same order, one
      formatted string per entry of the period. */
  lemma GetPeriodFormatted(startDate: DateInput, endDate: DateInput, inFormat: Option<string>,
                           outFormat: Option<string>, parse: (string, string) -> Option<(int, Second)>,
                           format: (Stamp, string) -> string)
    requires GetPeriod(startDate, endDate, inFormat, outFormat, parse, format).Ok?
    requires outFormat.Some?
    ensures var ps := GetPeriod(startDate, endDate, inFormat, None, parse, format).value.stamps;
      var texts := GetPeriod(startDate, endDate, inFormat, outFormat, parse, format).value.texts;
      |texts| == |ps| && forall i :: 0 <= i < |ps| ==> texts[i] == format(ps[i], outFormat.value)
  {
  }
}
