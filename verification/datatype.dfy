/** datatype.py: the Country enumeration and PreprocessInfo, the settings
    object whose repr names the cache directory of a preprocessing run.

    Dates are day ordinals. The pieces of the standard library the class
    calls are parameters: `today` for datetime.now().date(), `parse` for
    strptime with the format get_date_format picks, `iso` for str(date),
    `strftime` for date.strftime, and `sha1Hex` for the hexadecimal SHA-1
    digest. */
module DataType {
  import opened Util

  // ---------------------------------------------------------------------
  // Country
  // ---------------------------------------------------------------------

  datatype Country = China | India | Italy | Us

  /** The enumeration value of a country. */
  function CountryValue(c: Country): (v: int)
    ensures 0 <= v < 4
  {
    match c
    case China => 0
    case India => 1
    case Italy => 2
    case Us => 3
  }

  /** Country(v): the member with that value, if there is one. */
  function CountryOf(v: int): (c: Option<Country>)
    ensures c.Some? <==> 0 <= v < 4
  {
    if v == 0 then Some(China)
    else if v == 1 then Some(India)
    else if v == 2 then Some(Italy)
    else if v == 3 then Some(Us)
    else None
  }

  /** Country(c.value) is c, and a value names at most one country. */
  lemma CountryRoundTrip(c: Country, v: int)
    ensures CountryOf(CountryValue(c)) == Some(c)
    ensures CountryOf(v) == Some(c) ==> CountryValue(c) == v
  {
    match c
    case China =>
    case India =>
    case Italy =>
    case Us =>
  }

  // ---------------------------------------------------------------------
  // PreprocessInfo
  // ---------------------------------------------------------------------

  /** What the start and end setters may be given: None, a string, a
      datetime (a day and a time of day), a date, or anything else. */
  datatype DateArg =
    | NoneArg
    | TextArg(text: string)
    | DateTimeArg(day: int, secondOfDay: nat)
    | DateOnlyArg(day: int)
    | OtherArg

  /** The setters raise on a string the date parser cannot read. */
  predicate Parsable(arg: DateArg, parse: string -> Option<int>)
  {
    arg.TextArg? ==> parse(arg.text).Some?
  }

  /** What the start and end setters store, given the value already stored
      (None when the attribute was never set). */
  function StoredDate(arg: DateArg, current: Option<int>, today: int, parse: string -> Option<int>): (r: Option<int>)
    requires Parsable(arg, parse)
    ensures arg.OtherArg? ==> r == current
    ensures !arg.OtherArg? ==> r.Some?
  {
    match arg
    case NoneArg => Some(today)
    case TextArg(text) => parse(text)
    case DateTimeArg(day, _) => Some(day)
    case DateOnlyArg(day) => Some(day)
    case OtherArg => current
  }

  /** The seven private fields, with an unset date as None. */
  datatype InfoState = InfoState(
    start: Option<int>,
    end: Option<int>,
    increase: bool,
    daily: bool,
    smoothing: bool,
    window: int,
    divide: bool)

  /** The default format of start_tostring and end_tostring. */
  const DefaultDateFormat: string := "%y%m%d"

  class PreprocessInfo {
    var start: Option<int>
    var end: Option<int>
    var increase: bool
    var daily: bool
    var smoothing: bool
    var window: int
    var divide: bool

    /** __init__ runs every setter once on a fresh object. */
    constructor (startArg: DateArg, endArg: DateArg, increase: bool, daily: bool, smoothing: bool,
                 window: int, divide: bool, today: int, parse: string -> Option<int>)
      requires Parsable(startArg, parse) && Parsable(endArg, parse)
      ensures start == StoredDate(startArg, None, today, parse)
      ensures end == StoredDate(endArg, None, today, parse)
      ensures this.increase == increase && this.daily == daily && this.smoothing == smoothing
      ensures this.window == window && this.divide == divide
    {
      start := StoredDate(startArg, None, today, parse);
      end := StoredDate(endArg, None, today, parse);
      this.increase := increase;
      this.daily := daily;
      this.smoothing := smoothing;
      this.window := window;
      this.divide := divide;
    }

    /** The fields as one value. */
    function State(): (st: InfoState)
      reads this
      ensures st.start == start && st.end == end && st.window == window
      ensures st.increase == increase && st.daily == daily && st.smoothing == smoothing && st.divide == divide
    {
      InfoState(start, end, increase, daily, smoothing, window, divide)
    }

    /** The start setter. */
    method SetStart(arg: DateArg, today: int, parse: string -> Option<int>)
      requires Parsable(arg, parse)
      modifies this`start
      ensures start == StoredDate(arg, old(start), today, parse)
    {
      start := StoredDate(arg, start, today, parse);
    }

    /** The end setter. */
    method SetEnd(arg: DateArg, today: int, parse: string -> Option<int>)
      requires Parsable(arg, parse)
      modifies this`end
      ensures end == StoredDate(arg, old(end), today, parse)
    {
      end := StoredDate(arg, end, today, parse);
    }

    method SetIncrease(increase: bool)
      modifies this`increase
      ensures this.increase == increase
    {
      this.increase := increase;
    }

    method SetDaily(daily: bool)
      modifies this`daily
      ensures this.daily == daily
    {
      this.daily := daily;
    }

    method SetSmoothing(smoothing: bool)
      modifies this`smoothing
      ensures this.smoothing == smoothing
    {
      this.smoothing := smoothing;
    }

    method SetWindow(window: int)
      modifies this`window
      ensures this.window == window
    {
      this.window := window;
    }

    method SetDivide(divide: bool)
      modifies this`divide
      ensures this.divide == divide
    {
      this.divide := divide;
    }

    /** start_tostring(format): the formatted start date, or the empty string
        when the start was never set; the format defaults to "%y%m%d". */
    function StartToString(strftime: (int, string) -> string, format: string := DefaultDateFormat): (r: string)
      reads this
      ensures start.None? ==> r == ""
      ensures start.Some? ==> r == strftime(start.value, format)
    {
      match start
      case None => ""
      case Some(day) => strftime(day, format)
    }

    /** end_tostring(format): the formatted end date, or the empty string
        when the end was never set; the format defaults to "%y%m%d". */
    function EndToString(strftime: (int, string) -> string, format: string := DefaultDateFormat): (r: string)
      reads this
      ensures end.None? ==> r == ""
      ensures end.Some? ==> r == strftime(end.value, format)
    {
      match end
      case None => ""
      case Some(day) => strftime(day, format)
    }

    /** __repr__: None where reading an unset date raises. */
    function Repr(iso: int -> string): (r: Option<string>)
      reads this
      ensures r.Some? <==> start.Some? && end.Some?
    {
      ReprOf(State(), iso)
    }

    /** get_hash: the first six hexadecimal digits of the SHA-1 digest of the
        repr. */
    function GetHash(iso: int -> string, sha1Hex: string -> string): (r: Option<string>)
      reads this
      requires HexDigest(sha1Hex)
      ensures r.Some? <==> start.Some? && end.Some?
      ensures r.Some? ==> |r.value| == 6 && forall i :: 0 <= i < 6 ==> IsHexDigit(r.value[i])
    {
      HashOf(State(), iso, sha1Hex)
    }
  }

  // ---------------------------------------------------------------------
  // repr and hash
  // ---------------------------------------------------------------------

  /** str(b) of a Python bool. */
  function BoolText(b: bool): (r: string)
  {
    if b then "True" else "False"
  }

  /** The character of a decimal digit. */
  function DigitChar(d: nat): (c: char)
    requires d < 10
    ensures '0' <= c <= '9' && c as int - '0' as int == d
  {
    ('0' as int + d) as char
  }

  /** The decimal digits of a natural number, most significant first. */
  function NatText(n: nat): (r: string)
    decreases n
  {
    if n < 10 then [DigitChar(n)] else NatText(n / 10) + [DigitChar(n % 10)]
  }

  /** str(i) of a Python int. */
  function IntText(i: int): (r: string)
  {
    if i < 0 then "-" + NatText(-i) else NatText(i)
  }

  /** The number a string of decimal digits spells. */
  function DigitsValue(s: string): int
  {
    if |s| == 0 then 0 else DigitsValue(s[..|s| - 1]) * 10 + (s[|s| - 1] as int - '0' as int)
  }

  /** The repr text of an object whose dates are set, built from the back:
      each part is a field's label and text followed by the rest. */
  function ReprText(st: InfoState, iso: int -> string): string
    requires st.start.Some? && st.end.Some?
  {
    "PreprocessInfo(start: " + (iso(st.start.value) + EndPart(st, iso))
  }

  function EndPart(st: InfoState, iso: int -> string): string
    requires st.end.Some?
  {
    ", end: " + (iso(st.end.value) + IncreasePart(st))
  }

  function IncreasePart(st: InfoState): string
  {
    ", increase: " + (BoolText(st.increase) + DailyPart(st))
  }

  function DailyPart(st: InfoState): string
  {
    ", daily: " + (BoolText(st.daily) + SmoothingPart(st))
  }

  function SmoothingPart(st: InfoState): string
  {
    ", smoothing: " + (BoolText(st.smoothing) + WindowPart(st))
  }

  function WindowPart(st: InfoState): string
  {
    ", window: " + (IntText(st.window) + DividePart(st.divide))
  }

  function DividePart(divide: bool): string
  {
    ", divide: " + (BoolText(divide) + ")")
  }

  /** __repr__ of a state: None when a date is unset, where Python raises
      AttributeError. */
  function ReprOf(st: InfoState, iso: int -> string): (r: Option<string>)
    ensures r.Some? <==> st.start.Some? && st.end.Some?
  {
    if st.start.Some? && st.end.Some? then Some(ReprText(st, iso)) else None
  }

  predicate IsHexDigit(c: char)
  {
    '0' <= c <= '9' || 'a' <= c <= 'f'
  }

  /** hashlib.sha1(...).hexdigest(): forty lower-case hexadecimal digits. */
  ghost predicate HexDigest(sha1Hex: string -> string)
  {
    forall s :: |sha1Hex(s)| == 40 && forall i :: 0 <= i < 40 ==> IsHexDigit(sha1Hex(s)[i])
  }

  /** get_hash of a state. */
  function HashOf(st: InfoState, iso: int -> string, sha1Hex: string -> string): (r: Option<string>)
    requires HexDigest(sha1Hex)
    ensures r.Some? <==> st.start.Some? && st.end.Some?
    ensures r.Some? ==> |r.value| == 6 && forall i :: 0 <= i < 6 ==> IsHexDigit(r.value[i])
  {
    match ReprOf(st, iso)
    case None => None
    case Some(text) => Some(sha1Hex(text)[..6])
  }


  // ---------------------------------------------------------------------
  // Properties
  // ---------------------------------------------------------------------

  /** A datetime is stored as its date: two datetimes on the same day store
      the same value, the same as the date itself. */
  lemma StoredDateDropsTime(d: int, s1: nat, s2: nat, current: Option<int>, today: int, parse: string -> Option<int>)
    ensures StoredDate(DateTimeArg(d, s1), current, today, parse) == StoredDate(DateTimeArg(d, s2), current, today, parse)
    ensures StoredDate(DateTimeArg(d, s1), current, today, parse) == StoredDate(DateOnlyArg(d), current, today, parse)
  {
  }

  /** Reading the digits of a number back gives the number. */
  lemma {:induction false} NatTextValue(n: nat)
    ensures |NatText(n)| > 0 && '0' <= NatText(n)[0] <= '9'
    ensures DigitsValue(NatText(n)) == n
    decreases n
  {
    if n >= 10 {
      NatTextValue(n / 10);
      var t := NatText(n / 10) + [DigitChar(n % 10)];
      assert t[..|t| - 1] == NatText(n / 10);
    }
  }

  /** Different integers have different decimal texts. */
  lemma IntTextInjective(a: int, b: int)
    requires IntText(a) == IntText(b)
    ensures a == b
  {
    NatTextValue(if a < 0 then -a else a);
    NatTextValue(if b < 0 then -b else b);
    if a < 0 && b < 0 {
      assert NatText(-a) == IntText(a)[1..];
    }
  }

  /** Two texts of the same length that begin two equal strings are equal,
      and so are the rests. */
  lemma CancelPrefix(a1: string, r1: string, a2: string, r2: string)
    requires |a1| == |a2| && a1 + r1 == a2 + r2
    ensures a1 == a2 && r1 == r2
  {
    assert a1 == (a1 + r1)[..|a1|];
    assert a2 == (a2 + r2)[..|a2|];
    assert r1 == (a1 + r1)[|a1|..];
    assert r2 == (a2 + r2)[|a2|..];
  }

  /** A boolean text at the front of a string can be read off. */
  lemma CancelBool(b1: bool, r1: string, b2: bool, r2: string)
    requires BoolText(b1) + r1 == BoolText(b2) + r2
    ensures b1 == b2 && r1 == r2
  {
    assert (BoolText(b1) + r1)[0] == BoolText(b1)[0];
    assert (BoolText(b2) + r2)[0] == BoolText(b2)[0];
    CancelPrefix(BoolText(b1), r1, BoolText(b2), r2);
  }

  /** The window and the divide flag at the end of a repr can be read off. */
  lemma CancelWindowTail(w1: int, d1: bool, w2: int, d2: bool)
    requires IntText(w1) + DividePart(d1) == IntText(w2) + DividePart(d2)
    ensures w1 == w2 && d1 == d2
  {
    var q1 := DividePart(d1);
    var q2 := DividePart(d2);
    var x := IntText(w1) + q1;
    assert x == IntText(w2) + q2;
    assert q1[|q1| - 5] == (if d1 then 'T' else 'a');
    assert q2[|q2| - 5] == (if d2 then 'T' else 'a');
    assert x[|x| - 5] == q1[|q1| - 5] && x[|x| - 5] == q2[|q2| - 5];
    assert IntText(w1) == x[..|x| - |q1|];
    assert IntText(w2) == x[..|x| - |q2|];
    IntTextInjective(w1, w2);
  }

  /** Different field values give different repr strings: the repr can be
      read back field by field. It relies on what str(date) does for the
      days an object can hold: ten characters (YYYY-MM-DD), different days
      giving different strings. */
  lemma ReprInjective(a: InfoState, b: InfoState, iso: int -> string)
    requires forall d :: |iso(d)| == 10
    requires forall d1, d2 :: iso(d1) == iso(d2) ==> d1 == d2
    requires ReprOf(a, iso).Some? && ReprOf(a, iso) == ReprOf(b, iso)
    ensures a == b
  {
    var p0 := "PreprocessInfo(start: ";
    var sa, sb, ea, eb := a.start.value, b.start.value, a.end.value, b.end.value;
    assert |iso(sa)| == 10 && |iso(sb)| == 10 && |iso(ea)| == 10 && |iso(eb)| == 10;
    CancelPrefix(p0, iso(a.start.value) + EndPart(a, iso), p0, iso(b.start.value) + EndPart(b, iso));
    CancelPrefix(iso(a.start.value), EndPart(a, iso), iso(b.start.value), EndPart(b, iso));
    CancelPrefix(", end: ", iso(a.end.value) + IncreasePart(a), ", end: ", iso(b.end.value) + IncreasePart(b));
    CancelPrefix(iso(a.end.value), IncreasePart(a), iso(b.end.value), IncreasePart(b));
    ReprFlagsInjective(a, b);
    assert a.start.value == b.start.value && a.end.value == b.end.value;
  }

  /** The flags and window part of a repr can be read back. */
  lemma ReprFlagsInjective(a: InfoState, b: InfoState)
    requires IncreasePart(a) == IncreasePart(b)
    ensures a.increase == b.increase && a.daily == b.daily && a.smoothing == b.smoothing
    ensures a.window == b.window && a.divide == b.divide
  {
    CancelPrefix(", increase: ", BoolText(a.increase) + DailyPart(a), ", increase: ", BoolText(b.increase) + DailyPart(b));
    CancelBool(a.increase, DailyPart(a), b.increase, DailyPart(b));
    CancelPrefix(", daily: ", BoolText(a.daily) + SmoothingPart(a), ", daily: ", BoolText(b.daily) + SmoothingPart(b));
    CancelBool(a.daily, SmoothingPart(a), b.daily, SmoothingPart(b));
    CancelPrefix(", smoothing: ", BoolText(a.smoothing) + WindowPart(a), ", smoothing: ", BoolText(b.smoothing) + WindowPart(b));
    CancelBool(a.smoothing, WindowPart(a), b.smoothing, WindowPart(b));
    CancelPrefix(", window: ", IntText(a.window) + DividePart(a.divide), ", window: ", IntText(b.window) + DividePart(b.divide));
    CancelWindowTail(a.window, a.divide, b.window, b.divide);
  }

  /** The hash depends on the fields alone: two objects holding the same
      values have the same hash, and an object whose dates were never set
      has none (get_hash raises). */
  lemma HashDependsOnFields(a: PreprocessInfo, b: PreprocessInfo, iso: int -> string, sha1Hex: string -> string)
    requires HexDigest(sha1Hex)
    requires a.State() == b.State()
    ensures a.GetHash(iso, sha1Hex) == b.GetHash(iso, sha1Hex)
  {
  }

  /** Called without a format, start_tostring and end_tostring write the
      dates as "%y%m%d". */
  lemma DefaultFormatIsShortDate(p: PreprocessInfo, strftime: (int, string) -> string)
    ensures p.start.Some? ==> p.StartToString(strftime) == strftime(p.start.value, "%y%m%d")
    ensures p.end.Some? ==> p.EndToString(strftime) == strftime(p.end.value, "%y%m%d")
    ensures p.start.None? ==> p.StartToString(strftime) == ""
  {
  }
}
