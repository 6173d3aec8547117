/** The integer and text logic of the date/time helpers in
    `senaite.core.api.dtime`: timedelta <-> dict conversion, the mapping of
    GMT offsets to POSIX "Etc/GMT" zone names, the ANSI X3.30
    `YYYYMMDD[HHMMSS]` layout, and the fallback formatter of
    `date_to_string` for dates `strftime` refuses. Library date objects are
    records of their integer fields; foreign calls are left out. */
module Dtime {
  import opened Decimal
  import opened Wrappers

  /** The Python exceptions these helpers raise. */
  datatype PyError = TypeError | ValueError | OverflowError

  datatype Result<T> = Ok(value: T) | Raised(error: PyError)

  /** The outcome of a conversion that takes a `default` argument: a value,
      the caller's default, or an exception. */
  datatype Converted<T, D> = Converted(value: T) | Defaulted(default: D) | Failed(error: PyError)

  // ---------------------------------------------------------------------
  // timedelta <-> dict
  // ---------------------------------------------------------------------

  const SecondsPerDay: int := 86400
  /** `timedelta.max.days`: a larger magnitude raises OverflowError. */
  const MaxDays: int := 999999999

  /** `datetime.timedelta` as Python stores it: whole days, the seconds and
      microseconds within the day. */
  datatype TimeDelta = TimeDelta(days: int, seconds: int, microseconds: int)

  /** Python keeps every timedelta normalised: seconds in [0, 86400),
      microseconds in [0, 10^6), days within +-999999999. */
  predicate ValidDelta(td: TimeDelta) {
    -MaxDays <= td.days <= MaxDays
    && 0 <= td.seconds < SecondsPerDay
    && 0 <= td.microseconds < 1000000
  }

  /** The whole seconds a timedelta spans (microseconds aside). */
  function TotalSeconds(td: TimeDelta): int {
    td.days * SecondsPerDay + td.seconds
  }

  /** The kinds of argument the conversions distinguish with `isinstance`. */
  datatype PyObject = TimeDeltaObject(td: TimeDelta) | DictObject(dict: map<string, int>) | OtherObject

  /** `dict.get(key, 0)`. */
  function GetOrZero(d: map<string, int>, key: string): int {
    if key in d then d[key] else 0
  }

  /** `timedelta_to_dict(value, default)`: the days as stored and the seconds
      of the day split into hours, minutes and seconds; anything that is not a
      timedelta raises TypeError, or gives `default` when one is passed. */
  function TimedeltaToDict<D>(value: PyObject, default: Option<D>): (r: Converted<map<string, int>, D>)
    requires value.TimeDeltaObject? ==> ValidDelta(value.td)
    ensures !value.TimeDeltaObject? && default.None? ==> r == Failed(TypeError)
    ensures !value.TimeDeltaObject? && default.Some? ==> r == Defaulted(default.value)
    ensures value.TimeDeltaObject? ==>
      && r.Converted?
      && r.value.Keys == {"days", "hours", "minutes", "seconds"}
      && r.value["days"] == value.td.days
      && 0 <= r.value["hours"] < 24
      && 0 <= r.value["minutes"] < 60
      && 0 <= r.value["seconds"] < 60
      && r.value["hours"] * 3600 + r.value["minutes"] * 60 + r.value["seconds"] == value.td.seconds
  {
    match value
    case TimeDeltaObject(td) =>
      Converted(map[
        "days" := td.days,
        "hours" := td.seconds / 3600,
        "minutes" := (td.seconds % 3600) / 60,
        "seconds" := td.seconds % 60])
    case _ =>
      if default.None? then Failed(TypeError) else Defaulted(default.value)
  }

  /** The seconds a timedelta can hold: from `timedelta.min`, -999999999
      days, up to but excluding 1000000000 days. */
  predicate InDeltaRange(total: int) {
    -MaxDays * SecondsPerDay <= total < (MaxDays + 1) * SecondsPerDay
  }

  /** `timedelta(days=.., hours=.., minutes=.., seconds=..)`: Python adds the
      parts up and normalises them, raising OverflowError when the days leave
      the supported range. */
  function MakeDelta(days: int, hours: int, minutes: int, seconds: int): (r: Result<TimeDelta>)
    ensures r.Ok? <==> InDeltaRange(days * 86400 + hours * 3600 + minutes * 60 + seconds)
    ensures r.Ok? ==>
      && ValidDelta(r.value) && r.value.microseconds == 0
      && TotalSeconds(r.value) == days * 86400 + hours * 3600 + minutes * 60 + seconds
    ensures r.Raised? ==> r.error == OverflowError
  {
    var total := days * 86400 + hours * 3600 + minutes * 60 + seconds;
    var d := total / SecondsPerDay;
    assert d * SecondsPerDay <= total < (d + 1) * SecondsPerDay;
    if -MaxDays <= d <= MaxDays then Ok(TimeDelta(d, total % SecondsPerDay, 0))
    else Raised(OverflowError)
  }

  /** `to_timedelta(value, default)`: a timedelta is returned as it is; a
      dict is read through `.get(key, 0)` for each of the four keys; anything
      else raises TypeError, or gives `default` when one is passed. */
  function ToTimedelta<D>(value: PyObject, default: Option<D>): (r: Converted<TimeDelta, D>)
    ensures value.TimeDeltaObject? ==> r == Converted(value.td)
    ensures value.OtherObject? && default.None? ==> r == Failed(TypeError)
    ensures value.OtherObject? && default.Some? ==> r == Defaulted(default.value)
    ensures value.DictObject? ==> (r.Converted? || r == Failed(OverflowError))
    ensures value.DictObject? ==> (r.Converted? <==> InDeltaRange(DictSeconds(value.dict)))
    ensures value.DictObject? && r.Converted? ==>
      && ValidDelta(r.value) && r.value.microseconds == 0
      && TotalSeconds(r.value) == DictSeconds(value.dict)
  {
    match value
    case TimeDeltaObject(td) => Converted(td)
    case DictObject(d) =>
      var made := MakeDelta(GetOrZero(d, "days"), GetOrZero(d, "hours"), GetOrZero(d, "minutes"), GetOrZero(d, "seconds"));
      if made.Ok? then Converted(made.value) else Failed(made.error)
    case OtherObject =>
      if default.None? then Failed(TypeError) else Defaulted(default.value)
  }

  /** The seconds a dict stands for, a missing key counting as 0. */
  function DictSeconds(d: map<string, int>): int {
    GetOrZero(d, "days") * 86400 + GetOrZero(d, "hours") * 3600
    + GetOrZero(d, "minutes") * 60 + GetOrZero(d, "seconds")
  }

  /** Floor division by the length of a day has one answer. */
  lemma DayDivision(q: int, r: int)
    requires 0 <= r < SecondsPerDay
    ensures (q * SecondsPerDay + r) / SecondsPerDay == q && (q * SecondsPerDay + r) % SecondsPerDay == r
  {
    var a := q * SecondsPerDay + r;
    var q', r' := a / SecondsPerDay, a % SecondsPerDay;
    assert a == q' * SecondsPerDay + r';
    assert (q - q') * SecondsPerDay == r' - r;
  }

  /** A timedelta without microseconds survives the trip through a dict,
      negative days included. */
  lemma DeltaDictRoundTrip<D>(td: TimeDelta, default: Option<D>)
    requires ValidDelta(td) && td.microseconds == 0
    ensures TimedeltaToDict(TimeDeltaObject(td), default).Converted?
    ensures ToTimedelta(DictObject(TimedeltaToDict(TimeDeltaObject(td), default).value), default)
            == Converted(td)
  {
    var d := TimedeltaToDict(TimeDeltaObject(td), default).value;
    assert DictSeconds(d) == td.days * 86400 + td.seconds;
    DayDivision(td.days, td.seconds);
  }

  /** Microseconds do not survive: the dict has no key for them. */
  lemma DeltaDictDropsMicroseconds<D>(td: TimeDelta, default: Option<D>)
    requires ValidDelta(td) && td.microseconds != 0
    ensures ToTimedelta(DictObject(TimedeltaToDict(TimeDeltaObject(td), default).value), default)
            == Converted(td.(microseconds := 0))
  {
    DayDivision(td.days, td.seconds);
  }

  /** A dict of 10^9 days is past `timedelta.max`; one second short of
      10^9 days is the largest that fits. */
  lemma DeltaOverflowExample<D>(default: Option<D>)
    ensures ToTimedelta(DictObject(map["days" := 1000000000]), default) == Failed(OverflowError)
    ensures ToTimedelta(DictObject(map["days" := 999999999, "seconds" := 86399]), default)
            == Converted(TimeDelta(999999999, 86399, 0))
  {
    DayDivision(999999999, 86399);
  }

  // ---------------------------------------------------------------------
  // get_timezone: zone names of GMT offsets become "Etc/GMT" names
  // ---------------------------------------------------------------------

  predicate IsSign(c: char) {
    c == '+' || c == '-'
  }

  /** `\w` of a regular expression over ASCII text. */
  predicate IsWordChar(c: char) {
    'a' <= c <= 'z' || 'A' <= c <= 'Z' || IsDigit(c) || c == '_'
  }

  /** Groups 2 and 3 of a match of RX_GMT: the sign ("" when there is none)
      and the one or two digits of the hours. */
  datatype OffsetMatch = OffsetMatch(sign: string, digits: string)

  /** `\d{1,2}` at position i: two digits when there are two, else one. */
  function DigitsAt(s: string, i: nat): (d: string)
    requires i < |s| && IsDigit(s[i])
    ensures 1 <= |d| <= 2 && AllDigits(d) && i + |d| <= |s| && d == s[i..i + |d|]
    ensures |d| == 1 ==> i + 1 == |s| || !IsDigit(s[i + 1])
  {
    if i + 1 < |s| && IsDigit(s[i + 1]) then s[i..i + 2] else s[i..i + 1]
  }

  /** `([+-]?)(\d{1,2})` at position i. When a sign is not followed by a
      digit, the engine retries without the sign, and then the sign itself
      is not a digit either. */
  function SignedDigitsAt(s: string, i: nat): (r: Option<OffsetMatch>)
    ensures r.Some? ==>
      && (r.value.sign == "" || r.value.sign == "+" || r.value.sign == "-")
      && 1 <= |r.value.digits| <= 2 && AllDigits(r.value.digits)
  {
    if i + 1 < |s| && IsSign(s[i]) && IsDigit(s[i + 1]) then Some(OffsetMatch([s[i]], DigitsAt(s, i + 1)))
    else if i < |s| && IsDigit(s[i]) then Some(OffsetMatch("", DigitsAt(s, i)))
    else None
  }

  /** `re.match(RX_GMT, tz)` with RX_GMT = `^(\bGMT\b|)([+-]?)(\d{1,2})`. The
      alternative "GMT" is tried first (the `\b` before it always holds at the
      start, the one after it needs a non-word character next); when the rest
      of the pattern fails after it, the engine falls back to the empty
      alternative at position 0. */
  function MatchRxGmt(tz: string): (r: Option<OffsetMatch>)
    ensures r.Some? ==>
      && (r.value.sign == "" || r.value.sign == "+" || r.value.sign == "-")
      && 1 <= |r.value.digits| <= 2 && AllDigits(r.value.digits)
  {
    var afterGmt := AfterGmt(tz);
    if afterGmt.Some? then afterGmt else SignedDigitsAt(tz, 0)
  }

  /** The first alternative: "GMT" at a word boundary, then the rest of the
      pattern. */
  function AfterGmt(tz: string): (r: Option<OffsetMatch>)
    ensures r.Some? ==> |tz| >= 5 && tz[..3] == "GMT" && IsSign(tz[3]) && IsDigit(tz[4])
    ensures r.Some? ==> r.value.sign == [tz[3]]
  {
    if |tz| >= 3 && tz[..3] == "GMT" && (|tz| == 3 || !IsWordChar(tz[3])) then SignedDigitsAt(tz, 3)
    else None
  }

  /** tz starts with prefix followed by a digit. */
  predicate DigitAfter(tz: string, prefix: string) {
    |prefix| < |tz| && tz[..|prefix|] == prefix && IsDigit(tz[|prefix|])
  }

  /** The names RX_GMT accepts, stated on their own: "GMT" and a sign, a sign
      alone, or nothing, before a digit. ("GMT" directly before a digit is
      refused, since the `\b` after "GMT" needs a non-word character.) */
  predicate StartsWithOffset(tz: string) {
    DigitAfter(tz, "GMT+") || DigitAfter(tz, "GMT-") || DigitAfter(tz, "+") || DigitAfter(tz, "-")
    || DigitAfter(tz, "")
  }

  /** The "GMT" alternative succeeds exactly on "GMT+d" and "GMT-d". */
  lemma AfterGmtIff(tz: string)
    ensures AfterGmt(tz).Some? <==> DigitAfter(tz, "GMT+") || DigitAfter(tz, "GMT-")
  {
    if |tz| >= 4 && tz[..3] == "GMT" {
      assert tz[..4] == tz[..3] + [tz[3]];
    }
  }

  /** The empty alternative succeeds exactly on "+d", "-d" and "d". */
  lemma AtStartIff(tz: string)
    ensures SignedDigitsAt(tz, 0).Some? <==> DigitAfter(tz, "+") || DigitAfter(tz, "-") || DigitAfter(tz, "")
  {
    if |tz| >= 1 {
      assert tz[..1] == [tz[0]];
    }
  }

  /** The matcher accepts exactly the names of StartsWithOffset. */
  lemma MatchRxGmtSpec(tz: string)
    ensures MatchRxGmt(tz).Some? <==> StartsWithOffset(tz)
  {
    AfterGmtIff(tz);
    AtStartIff(tz);
  }

  /** What `([+-]?)(\d{1,2})` at i captures is written at i: a sign or
      nothing, then one or two digits, one only when no digit follows. */
  lemma SignedDigitsAtCaptures(s: string, i: nat)
    requires SignedDigitsAt(s, i).Some?
    ensures var m := SignedDigitsAt(s, i).value;
      && (m.sign == "" || m.sign == "+" || m.sign == "-")
      && 1 <= |m.digits| <= 2 && AllDigits(m.digits)
      && i + |m.sign| + |m.digits| <= |s|
      && s[i..i + |m.sign| + |m.digits|] == m.sign + m.digits
      && (|m.digits| == 1 ==> i + |m.sign| + 1 == |s| || !IsDigit(s[i + |m.sign| + 1]))
  {
    if i + 1 < |s| && IsSign(s[i]) && IsDigit(s[i + 1]) {
      SignAndDigitsAt(s, i);
    } else {
      var d := DigitsAt(s, i);
      assert SignedDigitsAt(s, i).value == OffsetMatch("", d);
      assert "" + d == d;
    }
  }

  /** The signed alternative: the sign at i, the digits right after it. */
  lemma SignAndDigitsAt(s: string, i: nat)
    requires i + 1 < |s| && IsSign(s[i]) && IsDigit(s[i + 1])
    ensures var d := DigitsAt(s, i + 1);
      && SignedDigitsAt(s, i) == Some(OffsetMatch([s[i]], d))
      && s[i..i + 1 + |d|] == [s[i]] + d
  {
    var d := DigitsAt(s, i + 1);
    assert s[i..i + 1 + |d|] == [s[i]] + s[i + 1..i + 1 + |d|];
  }

  /** What the matcher captures: the sign and the one or two digits written
      right after "GMT" when that alternative matched, else at the start. */
  lemma MatchRxGmtCaptures(tz: string)
    requires MatchRxGmt(tz).Some?
    ensures var m := MatchRxGmt(tz).value;
      var i := if AfterGmt(tz).Some? then 3 else 0;
      && (i == 3 ==> tz[..3] == "GMT")
      && (m.sign == "" || m.sign == "+" || m.sign == "-")
      && 1 <= |m.digits| <= 2 && AllDigits(m.digits)
      && i + |m.sign| + |m.digits| <= |tz|
      && tz[i..i + |m.sign| + |m.digits|] == m.sign + m.digits
      && (|m.digits| == 1 ==> i + |m.sign| + 1 == |tz| || !IsDigit(tz[i + |m.sign| + 1]))
  {
    var i := if AfterGmt(tz).Some? then 3 else 0;
    assert MatchRxGmt(tz) == SignedDigitsAt(tz, i);
    SignedDigitsAtCaptures(tz, i);
  }

  /** The objects `get_timezone` tells apart, each with the zone name its
      library reports (`tzname()` of a datetime, `timezone()` of a Zope
      DateTime); None is Python's None. */
  datatype DateObject =
    | PlainDate
    | PyDateTime(tzname: Option<string>)
    | ZopeDateTime(timezone: Option<string>)
    | NotADate

  /** The name `get_timezone` starts from: a plain date has the default. */
  function ReportedZone(dt: DateObject, default: string): (r: Option<string>)
    ensures dt.PlainDate? ==> r == Some(default)
    ensures dt.PyDateTime? ==> r == dt.tzname
    ensures dt.ZopeDateTime? ==> r == dt.timezone
    ensures dt.NotADate? ==> r.None?
  {
    match dt
    case PlainDate => Some(default)
    case PyDateTime(name) => name
    case ZopeDateTime(name) => name
    case NotADate => None
  }

  /** The "Etc/GMT" name of a matched offset, its sign reversed as POSIX
      has it ("Etc/GMT-1" is one hour ahead of GMT); zero hours give "Etc/GMT". */
  function EtcName(m: OffsetMatch): (r: string)
    requires AllDigits(m.digits)
    ensures "Etc/GMT" <= r
    ensures r == "Etc/GMT" <==> ParseDigits(m.digits) == 0
    ensures r != "Etc/GMT" ==>
      && |r| > 8 && r[7] == (if m.sign == "+" then '-' else '+')
      && AllDigits(r[8..]) && ParseDigits(r[8..]) == ParseDigits(m.digits) && r[8] != '0'
  {
    var hours := ParseDigits(m.digits);
    if hours == 0 then "Etc/GMT"
    else "Etc/GMT" + (if m.sign == "+" then "-" else "+") + NatToString(hours)
  }

  /** `get_timezone(dt, default)`: an absent or empty zone name gives the
      default, a name RX_GMT does not match is returned as it is, and a
      matched offset becomes its "Etc/GMT" name. */
  function GetTimezone(dt: DateObject, default: string): (tz: string)
    ensures ReportedZone(dt, default) in {None, Some("")} ==> tz == default
    ensures ReportedZone(dt, default).Some? && ReportedZone(dt, default).value != ""
            && !StartsWithOffset(ReportedZone(dt, default).value)
            ==> tz == ReportedZone(dt, default).value
  {
    var reported := ReportedZone(dt, default);
    if reported.Some? && reported.value != "" then
      MatchRxGmtSpec(reported.value);
      match MatchRxGmt(reported.value)
      case Some(m) => EtcName(m)
      case None => reported.value
    else default
  }

  /** A slice of a slice is a slice of the whole. */
  lemma SliceOfSlice(s: string, i: nat, j: nat, lo: nat, hi: nat)
    requires i <= j <= |s| && lo <= hi <= j - i
    ensures s[i..j][lo..hi] == s[i + lo..i + hi]
  {
    assert forall k :: 0 <= k < hi - lo ==> s[i..j][lo..hi][k] == s[i + lo + k];
  }

  /** `\d{1,2}` at k takes one or two digits written there, one only when
      no digit follows it. */
  lemma DigitsAtShape(s: string, k: nat, digits: string)
    requires 1 <= |digits| <= 2 && AllDigits(digits)
    requires k + |digits| <= |s| && s[k..k + |digits|] == digits
    requires |digits| == 1 ==> k + 1 == |s| || !IsDigit(s[k + 1])
    ensures IsDigit(s[k]) && DigitsAt(s, k) == digits
  {
    assert s[k] == digits[0];
    if |digits| == 2 {
      assert s[k + 1] == digits[1] && IsDigit(s[k + 1]);
      assert DigitsAt(s, k) == s[k..k + 2];
    } else {
      assert DigitsAt(s, k) == s[k..k + 1];
    }
  }

  /** `([+-]?)(\d{1,2})` at i captures a sign and one or two digits written there. */
  lemma SignedDigitsAtShape(s: string, i: nat, sign: string, digits: string)
    requires sign == "" || sign == "+" || sign == "-"
    requires 1 <= |digits| <= 2 && AllDigits(digits)
    requires i + |sign| + |digits| <= |s|
    requires s[i..i + |sign| + |digits|] == sign + digits
    requires |digits| == 1 ==> i + |sign| + 1 == |s| || !IsDigit(s[i + |sign| + 1])
    ensures SignedDigitsAt(s, i) == Some(OffsetMatch(sign, digits))
  {
    var k := i + |sign|;
    var t := s[i..k + |digits|];
    assert t[|sign|..] == digits;
    SliceOfSlice(s, i, k + |digits|, |sign|, |sign| + |digits|);
    DigitsAtShape(s, k, digits);
    if sign == "" {
      UnsignedDigitsAt(s, i, digits);
    } else {
      assert s[i] == t[0] == (sign + digits)[0] == sign[0];
      SignedDigitsAtSign(s, i, sign, digits);
    }
  }

  lemma UnsignedDigitsAt(s: string, i: nat, digits: string)
    requires i < |s| && IsDigit(s[i]) && DigitsAt(s, i) == digits
    ensures SignedDigitsAt(s, i) == Some(OffsetMatch("", digits))
  {
    assert !IsSign(s[i]);
  }

  lemma SignedDigitsAtSign(s: string, i: nat, sign: string, digits: string)
    requires |sign| == 1 && i + 1 < |s| && s[i] == sign[0] && IsSign(s[i])
    requires IsDigit(s[i + 1]) && DigitsAt(s, i + 1) == digits
    ensures SignedDigitsAt(s, i) == Some(OffsetMatch(sign, digits))
  {
    assert [s[i]] == sign;
  }

  /** The "GMT" alternative on "GMT<sign>...": the rest of the pattern from position 3. */
  lemma AfterGmtOfSign(tz: string)
    requires |tz| >= 4 && tz[..3] == "GMT" && IsSign(tz[3])
    ensures AfterGmt(tz) == SignedDigitsAt(tz, 3)
  {
  }

  /** The "GMT" alternative fails on a name that does not start with 'G'. */
  lemma AfterGmtOfOther(tz: string)
    requires tz != [] && tz[0] != 'G'
    ensures AfterGmt(tz) == None
  {
    if |tz| >= 3 {
      assert tz[..3][0] == tz[0];
    }
  }

  /** RX_GMT on "[GMT]<sign><digits><rest>" captures that sign and those digits. */
  lemma MatchRxGmtShape(marker: string, sign: string, digits: string, rest: string)
    requires marker == "" || marker == "GMT"
    requires sign == "+" || sign == "-" || (sign == "" && marker == "")
    requires 1 <= |digits| <= 2 && AllDigits(digits)
    requires |digits| == 1 ==> rest == [] || !IsDigit(rest[0])
    ensures MatchRxGmt(marker + sign + digits + rest) == Some(OffsetMatch(sign, digits))
  {
    var tz := marker + sign + digits + rest;
    var i := |marker|;
    var n := i + |sign| + |digits|;
    assert tz[i..n] == sign + digits;
    if |digits| == 1 && rest != [] {
      assert tz[n] == rest[0];
    }
    SignedDigitsAtShape(tz, i, sign, digits);
    if marker == "GMT" {
      assert tz[..3] == "GMT" && tz[3] == sign[0];
      AfterGmtOfSign(tz);
    } else {
      assert tz[0] == (sign + digits)[0];
      AfterGmtOfOther(tz);
    }
  }

  /** The Etc name of "[GMT]<sign><digits><rest>": the sign reversed as
      POSIX has it ("+" gives "Etc/GMT-h", "-" or no sign gives "Etc/GMT+h"),
      zero hours giving "Etc/GMT". */
  lemma OffsetNameFlipsSign(dt: DateObject, default: string, marker: string, sign: string, digits: string, rest: string)
    requires marker == "" || marker == "GMT"
    requires sign == "+" || sign == "-" || (sign == "" && marker == "")
    requires 1 <= |digits| <= 2 && AllDigits(digits)
    requires |digits| == 1 ==> rest == [] || !IsDigit(rest[0])
    requires ReportedZone(dt, default) == Some(marker + sign + digits + rest)
    ensures GetTimezone(dt, default) ==
      if ParseDigits(digits) == 0 then "Etc/GMT"
      else "Etc/GMT" + (if sign == "+" then "-" else "+") + NatToString(ParseDigits(digits))
  {
    MatchRxGmtShape(marker, sign, digits, rest);
  }

  // ---------------------------------------------------------------------
  // ANSI X3.30 dates: YYYYMMDD[HHMMSS]
  // ---------------------------------------------------------------------

  /** A Python `datetime` by its integer fields (microseconds and zone aside). */
  datatype DateTime = DateTime(year: int, month: int, day: int, hour: int, minute: int, second: int)

  predicate IsLeapYear(year: int) {
    year % 4 == 0 && (year % 100 != 0 || year % 400 == 0)
  }

  function DaysInMonth(year: int, month: int): int
    requires 1 <= month <= 12
  {
    if month == 2 then (if IsLeapYear(year) then 29 else 28)
    else if month in {4, 6, 9, 11} then 30
    else 31
  }

  /** The field ranges `datetime` enforces (years 1 to 9999). */
  predicate ValidDateTime(dt: DateTime): (r: bool)
    ensures r ==> dt.day <= 31 && (dt.month == 2 ==> dt.day <= 29)
    ensures r && dt.month == 2 && dt.day == 29 ==> IsLeapYear(dt.year)
  {
    && 1 <= dt.year <= 9999
    && 1 <= dt.month <= 12
    && 1 <= dt.day <= DaysInMonth(dt.year, dt.month)
    && 0 <= dt.hour < 24
    && 0 <= dt.minute < 60
    && 0 <= dt.second < 60
  }

  /** The two layouts of `ansi_to_dt`: "%Y%m%d" and "%Y%m%d%H%M%S". */
  datatype AnsiLayout = DateOnly | DateAndTime

  /** The argument of `ansi_to_dt`: a string, or anything else. */
  datatype TextArg = Text(s: string) | NotText

  /** The length rule of `ansi_to_dt`: a non-string raises TypeError, 8
      characters select the date layout, 14 the date-and-time layout, and any
      other length raises ValueError. */
  function AnsiLayoutOf(dt: TextArg): (r: Result<AnsiLayout>)
    ensures dt.NotText? ==> r == Raised(TypeError)
    ensures dt.Text? ==> (r.Ok? <==> |dt.s| == 8 || |dt.s| == 14)
    ensures dt.Text? && r.Raised? ==> r.error == ValueError
    ensures r.Ok? ==> |dt.s| == LayoutLength(r.value)
  {
    match dt
    case NotText => Raised(TypeError)
    case Text(s) =>
      if |s| == 8 then Ok(DateOnly)
      else if |s| == 14 then Ok(DateAndTime)
      else Raised(ValueError)
  }

  function LayoutLength(layout: AnsiLayout): nat {
    if layout == DateOnly then 8 else 14
  }

  /** The number a field's text denotes, or None when one of its characters
      is not a digit. */
  function Digits(t: string): (r: Option<nat>)
    ensures r.Some? <==> AllDigits(t)
  {
    if AllDigits(t) then Some(ParseDigits(t)) else None
  }

  /** The field of width w at position i. */
  function Field(s: string, i: nat, w: nat): Option<nat>
    requires i + w <= |s|
  {
    Digits(s[i..i + w])
  }

  /** The `%d` field at position 6: two digits, or a space and a digit 1-9
      (strptime accepts a space-padded day). */
  function DayField(s: string): (r: Option<nat>)
    requires 8 <= |s|
    ensures IsDigit(s[6]) ==> r == Field(s, 6, 2)
    ensures !IsDigit(s[6]) && s[6] != ' ' ==> r.None?
    ensures s[6] == ' ' ==> (r.Some? <==> '1' <= s[7] <= '9')
  {
    if s[6] == ' ' then (if '1' <= s[7] <= '9' then Some(DigitValue(s[7])) else None)
    else
      assert IsDigit(s[6]) ==> s[6..8][0] == s[6];
      Field(s, 6, 2)
  }

  /** `datetime.strptime(s, layout)` on the fields of the layout: year,
      month, hours, minutes and seconds are digits of their width, the day is
      two digits or a space-padded digit, and the date must exist (ValueError
      otherwise); the date layout sets the time to midnight. Over strings of
      length 8 or 14 this is what strptime's field patterns accept, since the
      fields can only fill the length at their full width. */
  function StrptimeAnsi(s: string, layout: AnsiLayout): (r: Result<DateTime>)
    requires |s| == LayoutLength(layout)
    ensures r.Ok? ==> ValidDateTime(r.value)
    ensures r.Raised? ==> r.error == ValueError
    ensures r.Ok? && layout == DateOnly ==> r.value.hour == 0 && r.value.minute == 0 && r.value.second == 0
  {
    var year, month, day := Field(s, 0, 4), Field(s, 4, 2), DayField(s);
    var hour, minute, second :=
      if layout == DateOnly then Some(0) else Field(s, 8, 2),
      if layout == DateOnly then Some(0) else Field(s, 10, 2),
      if layout == DateOnly then Some(0) else Field(s, 12, 2);
    if year.None? || month.None? || day.None? || hour.None? || minute.None? || second.None? then
      Raised(ValueError)
    else
      var dt := DateTime(year.value, month.value, day.value, hour.value, minute.value, second.value);
      if ValidDateTime(dt) then Ok(dt) else Raised(ValueError)
  }

  /** `ansi_to_dt(dt)`: the length rule, then the layout it selects. */
  function AnsiToDt(dt: TextArg): (r: Result<DateTime>)
    ensures dt.NotText? ==> r == Raised(TypeError)
    ensures dt.Text? && |dt.s| != 8 && |dt.s| != 14 ==> r == Raised(ValueError)
    ensures r.Ok? ==> ValidDateTime(r.value) && dt.Text? && (|dt.s| == 8 || |dt.s| == 14)
    ensures r.Ok? && |dt.s| == 8 ==> r.value.hour == 0 && r.value.minute == 0 && r.value.second == 0
  {
    var layout := AnsiLayoutOf(dt);
    if layout.Raised? then Raised(layout.error) else StrptimeAnsi(dt.s, layout.value)
  }

  /** The format specification `0wd` (at least w digits) of a non-negative n. */
  function FormatPadded(n: nat, width: nat): string {
    ZeroPad(NatToString(n), width)
  }

  /** A field of a valid datetime fits its ANSI width: four digits for the
      year, two for the others, which read back as the field. */
  lemma PaddedField(n: nat, width: nat)
    requires (width == 4 && n < 10000) || (width == 2 && n < 100)
    ensures |FormatPadded(n, width)| == width && AllDigits(FormatPadded(n, width))
    ensures ParseDigits(FormatPadded(n, width)) == n
  {
    assert Pow10(2) == 100 && Pow10(4) == 10000;
    PaddedRoundTrip(n, width);
  }

  lemma AllDigitsConcat(a: string, b: string)
    requires AllDigits(a) && AllDigits(b)
    ensures AllDigits(a + b)
  {
    assert forall i :: |a| <= i < |a + b| ==> (a + b)[i] == b[i - |a|];
  }

  /** The formatting at the end of `to_ansi`: the date as year, month and day
      with the specifications `04d`, `02d`, `02d`,
      followed by hour, minute and second, each `02d`, when the time is shown. */
  function ToAnsi(dt: DateTime, showTime: bool): (r: string)
    requires ValidDateTime(dt)
    ensures |r| == if showTime then 14 else 8
    ensures AllDigits(r)
  {
    var ansi := AnsiDate(dt);
    if !showTime then ansi
    else
      var time := AnsiTime(dt);
      AllDigitsConcat(ansi, time);
      ansi + time
  }

  /** The date part of the ANSI text: 8 digits. */
  function AnsiDate(dt: DateTime): (r: string)
    requires ValidDateTime(dt)
    ensures |r| == 8 && AllDigits(r)
  {
    var y, mo, d := FormatPadded(dt.year, 4), FormatPadded(dt.month, 2), FormatPadded(dt.day, 2);
    PaddedField(dt.year, 4); PaddedField(dt.month, 2); PaddedField(dt.day, 2);
    AllDigitsConcat(y, mo);
    AllDigitsConcat(y + mo, d);
    y + mo + d
  }

  /** The time part of the ANSI text: 6 digits. */
  function AnsiTime(dt: DateTime): (r: string)
    requires ValidDateTime(dt)
    ensures |r| == 6 && AllDigits(r)
  {
    var h, mi, se := FormatPadded(dt.hour, 2), FormatPadded(dt.minute, 2), FormatPadded(dt.second, 2);
    PaddedField(dt.hour, 2); PaddedField(dt.minute, 2); PaddedField(dt.second, 2);
    AllDigitsConcat(h, mi);
    AllDigitsConcat(h + mi, se);
    h + mi + se
  }

  /** Three fields written one after the other are read at their offsets. */
  lemma FieldsAt(s: string, pre: string, a: string, b: string, c: string, post: string)
    requires s == pre + a + b + c + post
    ensures Field(s, |pre|, |a|) == Digits(a)
    ensures Field(s, |pre| + |a|, |b|) == Digits(b)
    ensures Field(s, |pre| + |a| + |b|, |c|) == Digits(c)
  {
    assert s == pre + a + (b + c + post) == (pre + a) + b + (c + post) == (pre + a + b) + c + post;
    PartAt(s, pre, a, b + c + post);
    PartAt(s, pre + a, b, c + post);
    PartAt(s, pre + a + b, c, post);
  }

  /** The field of x, written between pre and post, reads x. */
  lemma PartAt(s: string, pre: string, x: string, post: string)
    requires s == pre + x + post
    ensures Field(s, |pre|, |x|) == Digits(x)
  {
    assert s[|pre|..|pre| + |x|] == x;
  }

  /** The date fields of `ToAnsi(dt, _)` sit at the offsets of the layout. */
  lemma AnsiDateFields(dt: DateTime, showTime: bool)
    requires ValidDateTime(dt)
    ensures Field(ToAnsi(dt, showTime), 0, 4) == Some(dt.year)
    ensures Field(ToAnsi(dt, showTime), 4, 2) == Some(dt.month)
    ensures Field(ToAnsi(dt, showTime), 6, 2) == Some(dt.day)
  {
    var post := if showTime then AnsiTime(dt) else [];
    assert ToAnsi(dt, showTime) == AnsiDate(dt) + post;
    DateFieldsBefore(dt, post);
  }

  /** The date text followed by anything: its fields read the date. */
  lemma DateFieldsBefore(dt: DateTime, post: string)
    requires ValidDateTime(dt)
    ensures Field(AnsiDate(dt) + post, 0, 4) == Some(dt.year)
    ensures Field(AnsiDate(dt) + post, 4, 2) == Some(dt.month)
    ensures Field(AnsiDate(dt) + post, 6, 2) == Some(dt.day)
  {
    var y, mo, d := FormatPadded(dt.year, 4), FormatPadded(dt.month, 2), FormatPadded(dt.day, 2);
    var s := AnsiDate(dt) + post;
    assert s == [] + y + mo + d + post by {
      assert AnsiDate(dt) == y + mo + d;
      assert [] + y == y;
    }
    FieldsAt(s, [], y, mo, d, post);
    PaddedField(dt.year, 4); PaddedField(dt.month, 2); PaddedField(dt.day, 2);
    assert Digits(y) == Some(dt.year) && Digits(mo) == Some(dt.month) && Digits(d) == Some(dt.day);
  }

  /** With the time shown, its fields follow the date. */
  lemma AnsiTimeFields(dt: DateTime)
    requires ValidDateTime(dt)
    ensures Field(ToAnsi(dt, true), 8, 2) == Some(dt.hour)
    ensures Field(ToAnsi(dt, true), 10, 2) == Some(dt.minute)
    ensures Field(ToAnsi(dt, true), 12, 2) == Some(dt.second)
  {
    assert ToAnsi(dt, true) == AnsiDate(dt) + AnsiTime(dt);
    TimeFieldsAfter(dt, AnsiDate(dt));
  }

  /** The time text after anything: its fields read the time. */
  lemma TimeFieldsAfter(dt: DateTime, pre: string)
    requires ValidDateTime(dt)
    ensures Field(pre + AnsiTime(dt), |pre|, 2) == Some(dt.hour)
    ensures Field(pre + AnsiTime(dt), |pre| + 2, 2) == Some(dt.minute)
    ensures Field(pre + AnsiTime(dt), |pre| + 4, 2) == Some(dt.second)
  {
    var h, mi, se := FormatPadded(dt.hour, 2), FormatPadded(dt.minute, 2), FormatPadded(dt.second, 2);
    var s := pre + AnsiTime(dt);
    assert s == pre + h + mi + se + [] by {
      assert AnsiTime(dt) == h + mi + se;
    }
    FieldsAt(s, pre, h, mi, se, []);
    PaddedField(dt.hour, 2); PaddedField(dt.minute, 2); PaddedField(dt.second, 2);
    assert Digits(h) == Some(dt.hour) && Digits(mi) == Some(dt.minute) && Digits(se) == Some(dt.second);
  }

  /** The fields of the layout in s spell out dt: year, month and day
      always, the time when the layout has one and midnight when it does not. */
  predicate AnsiFieldsHold(s: string, layout: AnsiLayout, dt: DateTime)
    requires |s| == LayoutLength(layout)
  {
    && Field(s, 0, 4) == Some(dt.year) && Field(s, 4, 2) == Some(dt.month) && DayField(s) == Some(dt.day)
    && (layout == DateAndTime ==>
          Field(s, 8, 2) == Some(dt.hour) && Field(s, 10, 2) == Some(dt.minute) && Field(s, 12, 2) == Some(dt.second))
    && (layout == DateOnly ==> dt.hour == 0 && dt.minute == 0 && dt.second == 0)
  }

  /** strptime yields dt exactly when the fields spell out dt and dt is a
      valid datetime (otherwise it raises ValueError, by its contract). */
  lemma StrptimeAnsiIff(s: string, layout: AnsiLayout, dt: DateTime)
    requires |s| == LayoutLength(layout)
    ensures StrptimeAnsi(s, layout) == Ok(dt) <==> AnsiFieldsHold(s, layout, dt) && ValidDateTime(dt)
  {
  }

  /** `ansi_to_dt` yields dt exactly when the argument is a string of 8 or
      14 characters whose layout fields spell out the valid datetime dt. */
  lemma AnsiToDtIff(arg: TextArg, dt: DateTime)
    ensures AnsiToDt(arg) == Ok(dt) <==>
      && arg.Text?
      && ((|arg.s| == 8 && AnsiFieldsHold(arg.s, DateOnly, dt)) || (|arg.s| == 14 && AnsiFieldsHold(arg.s, DateAndTime, dt)))
      && ValidDateTime(dt)
  {
    if arg.Text? && |arg.s| == 8 {
      StrptimeAnsiIff(arg.s, DateOnly, dt);
    } else if arg.Text? && |arg.s| == 14 {
      StrptimeAnsiIff(arg.s, DateAndTime, dt);
    }
  }

  /** A two-digit day field is read by the day's own rule too. */
  lemma DayFieldOfDigits(s: string, day: nat)
    requires 8 <= |s| && Field(s, 6, 2) == Some(day)
    ensures DayField(s) == Some(day)
  {
    assert s[6..8][0] == s[6];
  }

  /** What `to_ansi` writes, `ansi_to_dt` reads back: all six fields with the
      time shown, the date at midnight without it. */
  lemma AnsiRoundTrip(dt: DateTime)
    requires ValidDateTime(dt)
    ensures AnsiToDt(Text(ToAnsi(dt, true))) == Ok(dt)
    ensures AnsiToDt(Text(ToAnsi(dt, false))) == Ok(dt.(hour := 0, minute := 0, second := 0))
  {
    AnsiRoundTripWithTime(dt);
    AnsiRoundTripDateOnly(dt);
  }

  lemma AnsiRoundTripWithTime(dt: DateTime)
    requires ValidDateTime(dt)
    ensures AnsiToDt(Text(ToAnsi(dt, true))) == Ok(dt)
  {
    var long := ToAnsi(dt, true);
    assert |long| == 14;
    AnsiDateFields(dt, true);
    AnsiTimeFields(dt);
    DayFieldOfDigits(long, dt.day);
    StrptimeAnsiIff(long, DateAndTime, dt);
  }

  lemma AnsiRoundTripDateOnly(dt: DateTime)
    requires ValidDateTime(dt)
    ensures AnsiToDt(Text(ToAnsi(dt, false))) == Ok(dt.(hour := 0, minute := 0, second := 0))
  {
    var short := ToAnsi(dt, false);
    assert |short| == 8;
    AnsiDateFields(dt, false);
    DayFieldOfDigits(short, dt.day);
    StrptimeAnsiIff(short, DateOnly, dt.(hour := 0, minute := 0, second := 0));
  }

  /** The value of two and of four digits, written out. */
  lemma ParseDigitsShort(s: string)
    requires AllDigits(s) && (|s| == 2 || |s| == 4)
    ensures |s| == 2 ==> ParseDigits(s) == 10 * DigitValue(s[0]) + DigitValue(s[1])
    ensures |s| == 4 ==>
      ParseDigits(s) == 1000 * DigitValue(s[0]) + 100 * DigitValue(s[1]) + 10 * DigitValue(s[2]) + DigitValue(s[3])
  {
    var n := |s|;
    assert s[..n - 1][..n - 2] == s[..n - 2];
    if n == 2 {
      assert s[..0] == [];
    } else {
      assert s[..2][..1] == s[..1] && s[..1][..0] == [];
    }
  }

  /** The example of the `ansi_to_dt` documentation. */
  lemma AnsiExampleWithTime()
    ensures AnsiToDt(Text("19891201131405")) == Ok(DateTime(1989, 12, 1, 13, 14, 5))
  {
    var long := "19891201131405";
    ExampleDateFields(long);
    ExampleTimeFields(long);
    DayFieldOfDigits(long, 1);
    StrptimeAnsiIff(long, DateAndTime, DateTime(1989, 12, 1, 13, 14, 5));
  }

  lemma ExampleDateFields(s: string)
    requires |s| >= 8 && s[..8] == "19891201"
    ensures Field(s, 0, 4) == Some(1989) && Field(s, 4, 2) == Some(12) && Field(s, 6, 2) == Some(1)
  {
    assert s == [] + "1989" + "12" + "01" + s[8..];
    FieldsAt(s, [], "1989", "12", "01", s[8..]);
    ExampleDateDigits();
  }

  lemma ExampleDateDigits()
    ensures Digits("1989") == Some(1989) && Digits("12") == Some(12) && Digits("01") == Some(1)
  {
    ParseDigitsShort("1989"); ParseDigitsShort("12"); ParseDigitsShort("01");
  }

  lemma ExampleTimeFields(s: string)
    requires |s| == 14 && s[8..] == "131405"
    ensures Field(s, 8, 2) == Some(13) && Field(s, 10, 2) == Some(14) && Field(s, 12, 2) == Some(5)
  {
    ParseDigitsShort("13"); ParseDigitsShort("14"); ParseDigitsShort("05");
    assert s == s[..8] + "13" + "14" + "05" + [];
    FieldsAt(s, s[..8], "13", "14", "05", []);
  }

  /** The same date without the time reads as midnight. */
  lemma AnsiExampleDateOnly()
    ensures AnsiToDt(Text("19891201")) == Ok(DateTime(1989, 12, 1, 0, 0, 0))
  {
    ExampleDateFields("19891201");
    DayFieldOfDigits("19891201", 1);
    StrptimeAnsiIff("19891201", DateOnly, DateTime(1989, 12, 1, 0, 0, 0));
  }

  /** A space-padded day is read. */
  lemma AnsiExampleSpacePaddedDay()
    ensures AnsiToDt(Text("198912 1")) == Ok(DateTime(1989, 12, 1, 0, 0, 0))
  {
    ParseDigitsShort("1989"); ParseDigitsShort("12");
    var padded := "198912 1";
    assert padded[0..4] == "1989" && padded[4..6] == "12";
  }

  /** A day the month does not have is refused. */
  lemma AnsiExampleNoSuchDay()
    ensures AnsiToDt(Text("19890230")) == Raised(ValueError)
  {
    var s := "19890230";
    ParseDigitsShort("1989"); ParseDigitsShort("02"); ParseDigitsShort("30");
    assert s == [] + "1989" + "02" + "30" + [];
    FieldsAt(s, [], "1989", "02", "30", []);
  }

  // ---------------------------------------------------------------------
  // date_to_string: the fallback for dates strftime refuses
  // ---------------------------------------------------------------------

  /** No character of s is c. */
  predicate Lacks(s: string, c: char) {
    forall i :: 0 <= i < |s| ==> s[i] != c
  }

  /** The format string the fallback loop builds: every '%' becomes "${" and
      the character after it is closed with '}'; `pending` says that the
      previous character was a '%'. A '%' is recognised before the pending
      state is looked at, so "%%" gives "${${". */
  function Rewritten(fmt: string, pending: bool): (r: string)
    ensures Lacks(r, '%')
    ensures |r| >= |fmt|
  {
    if fmt == [] then []
    else if fmt[0] == '%' then "${" + Rewritten(fmt[1..], true)
    else if pending then [fmt[0], '}'] + Rewritten(fmt[1..], false)
    else [fmt[0]] + Rewritten(fmt[1..], false)
  }

  /** One step of the loop below: the text built so far followed by the
      rewriting of the rest of the format, before and after character i. */
  lemma RewriteStepAt(acc: string, fmt: string, i: nat, pending: bool)
    requires i < |fmt|
    ensures fmt[i] == '%' ==>
      acc + Rewritten(fmt[i..], pending) == (acc + "${") + Rewritten(fmt[i + 1..], true)
    ensures fmt[i] != '%' && pending ==>
      acc + Rewritten(fmt[i..], pending) == (acc + [fmt[i]] + "}") + Rewritten(fmt[i + 1..], false)
    ensures fmt[i] != '%' && !pending ==>
      acc + Rewritten(fmt[i..], pending) == (acc + [fmt[i]]) + Rewritten(fmt[i + 1..], false)
  {
    var t := fmt[i..];
    assert t[0] == fmt[i] && t[1..] == fmt[i + 1..];
    var rest := Rewritten(fmt[i + 1..], fmt[i] == '%');
    if fmt[i] == '%' {
      assert acc + ("${" + rest) == (acc + "${") + rest;
    } else if pending {
      assert acc + ([fmt[i], '}'] + rest) == (acc + [fmt[i]] + "}") + rest;
    } else {
      assert acc + ([fmt[i]] + rest) == (acc + [fmt[i]]) + rest;
    }
  }

  /** The loop of `date_to_string` that turns a strftime format into a
      `string.Template`, "%Y-%m-%d" into "${Y}-${m}-${d}". */
  method RewriteFormat(fmt: string) returns (newFmt: string)
    ensures newFmt == Rewritten(fmt, false)
  {
    newFmt := "";
    var pending := false;
    var i := 0;
    assert fmt[0..] == fmt;
    while i < |fmt|
      invariant 0 <= i <= |fmt|
      invariant newFmt + Rewritten(fmt[i..], pending) == Rewritten(fmt, false)
    {
      var x := fmt[i];
      RewriteStepAt(newFmt, fmt, i, pending);
      if x == '%' {
        pending := true;
        newFmt := newFmt + "${";
      } else if pending {
        newFmt := newFmt + [x] + "}";
        pending := false;
      } else {
        newFmt := newFmt + [x];
      }
      i := i + 1;
    }
    assert fmt[i..] == [];
  }

  /** "%%" is not an escape here: "%%Y" becomes "${${Y}", whose first '$'
      starts no placeholder, so the fallback writes "${" before the value
      where strftime would write "%Y"; likewise for any directive letter. */
  lemma DoublePercentNotEscaped(c: char, data: map<string, string>)
    requires IsIdStart(c) && [c] in data
    ensures Rewritten("%%" + [c], false) == "${${" + [c] + "}"
    ensures SafeSubstitute(Rewritten("%%" + [c], false), data) == "${" + data[[c]]
  {
    RewrittenDoublePercent(c);
    SubstituteDollarBrace(c, data);
  }

  lemma RewrittenDoublePercent(c: char)
    requires c != '%'
    ensures Rewritten("%%" + [c], false) == "${${" + [c] + "}"
  {
    var fmt := "%%" + [c];
    assert fmt[1..] == "%" + [c] && fmt[1..][1..] == [c] && [c][1..] == [];
    assert Rewritten([c], true) == [c, '}'];
    assert Rewritten(fmt[1..], true) == "${" + [c, '}'];
    assert Rewritten(fmt, false) == "${" + ("${" + [c, '}']) == "${${" + [c] + "}";
  }

  /** "${${c}": the first '$' stays with the '{' after it, the placeholder is replaced. */
  lemma SubstituteDollarBrace(c: char, data: map<string, string>)
    requires IsIdStart(c) && [c] in data
    ensures SafeSubstitute("${${" + [c] + "}", data) == "${" + data[[c]]
  {
    var s := "${${" + [c] + "}";
    var t, u := s[1..], s[2..];
    assert s[0] == '$' && s[1] == '{' && s[2] == '$';
    assert t[0] == '{' && t[1..] == u;
    assert u == "${" + [c] + "}" + [];
    SubstituteLoneDollar(s, data);
    SubstituteLiteral(t, data);
    SubstituteBraced(c, [], data);
    assert SafeSubstitute(u, data) == data[[c]];
  }

  /** A format without '%' is returned as it is. */
  lemma {:induction false} RewrittenPlain(fmt: string)
    requires Lacks(fmt, '%')
    ensures Rewritten(fmt, false) == fmt
  {
    if fmt != [] {
      RewrittenPlain(fmt[1..]);
    }
  }

  /** `pad(val)`: the value's text under the specification `0>2`, so one character gets a
      leading '0' and longer text is left intact. */
  function Pad(val: string): (r: string)
    ensures |val| < 2 ==> |r| == 2 && r == Zeros(2 - |val|) + val
    ensures |val| >= 2 ==> r == val
  {
    ZeroPad(val, 2)
  }

  /** `str.upper()` on ASCII letters. */
  function Upper(s: string): (r: string)
    ensures |r| == |s|
    ensures forall i :: 0 <= i < |s| ==> r[i] == (if 'a' <= s[i] <= 'z' then (s[i] as int - 32) as char else s[i])
  {
    if s == [] then []
    else [if 'a' <= s[0] <= 'z' then (s[0] as int - 32) as char else s[0]] + Upper(s[1..])
  }

  /** The first character of a Template placeholder name: `[_a-z]`, any case. */
  predicate IsIdStart(c: char) {
    'a' <= c <= 'z' || 'A' <= c <= 'Z' || c == '_'
  }

  /** The other characters of a placeholder name: `[_a-z0-9]`, any case. */
  predicate IsIdChar(c: char) {
    IsIdStart(c) || IsDigit(c)
  }

  /** Length of the longest run of name characters at the start of s. */
  function IdentLength(s: string): (n: nat)
    ensures n <= |s|
    ensures forall i :: 0 <= i < n ==> IsIdChar(s[i])
    ensures n < |s| ==> !IsIdChar(s[n])
  {
    if s == [] || !IsIdChar(s[0]) then 0 else 1 + IdentLength(s[1..])
  }

  /** `Template(s).safe_substitute(data)`: "$$" gives "$"; "$name" and
      "${name}" give data[name] when the name is a key and stay as written
      otherwise; any other '$' stays. Substituted text is not scanned again. */
  function SafeSubstitute(s: string, data: map<string, string>): (r: string)
    decreases |s|
  {
    if s == [] then []
    else if s[0] != '$' then [s[0]] + SafeSubstitute(s[1..], data)
    else if |s| >= 2 && s[1] == '$' then "$" + SafeSubstitute(s[2..], data)
    else if |s| >= 2 && IsIdStart(s[1]) then
      var n := IdentLength(s[1..]);
      var name := s[1..1 + n];
      (if name in data then data[name] else s[..1 + n]) + SafeSubstitute(s[1 + n..], data)
    else if |s| >= 3 && s[1] == '{' && IsIdStart(s[2])
            && 2 + IdentLength(s[2..]) < |s| && s[2 + IdentLength(s[2..])] == '}' then
      var n := IdentLength(s[2..]);
      var name := s[2..2 + n];
      (if name in data then data[name] else s[..3 + n]) + SafeSubstitute(s[3 + n..], data)
    else "$" + SafeSubstitute(s[1..], data)
  }

  /** The values of a Zope DateTime that `date_to_string` reads, as its
      accessors return them: year(), yy(), mm(), dd(), h_24(), h_12(),
      minute(), ampm(), and the text Python prints for the float second(). */
  datatype ZopeDate = ZopeDate(
    year: int, yy: string, mm: string, dd: string,
    h24: int, h12: int, minute: int, ampm: string, secondText: string)

  /** The substitution table of the fallback. */
  function FallbackData(dt: ZopeDate): (data: map<string, string>)
    ensures NamesAreIdentifiers(data)
  {
    FallbackKeys();
    map[
      "Y" := IntToString(dt.year),
      "y" := dt.yy,
      "m" := dt.mm,
      "d" := dt.dd,
      "H" := Pad(IntToString(dt.h24)),
      "I" := Pad(IntToString(dt.h12)),
      "M" := Pad(IntToString(dt.minute)),
      "p" := Upper(dt.ampm),
      "S" := dt.secondText]
  }

  /** The keys of the fallback table are one-letter placeholder names. */
  lemma FallbackKeys()
    ensures forall name :: name in FallbackKeySet() ==> |name| == 1 && IsIdStart(name[0]) && IdentLength(name) == 1
  {
    forall name | name in FallbackKeySet()
      ensures |name| == 1 && IsIdStart(name[0]) && IdentLength(name) == 1
    {
      assert IdentLength(name[1..]) == 0;
    }
  }

  function FallbackKeySet(): set<string> {
    {"Y", "y", "m", "d", "H", "I", "M", "p", "S"}
  }

  /** The formats the fallback expands cleanly: no literal '$', and every
      '%' followed by a character other than '%'. */
  predicate PlainFormat(fmt: string) {
    && Lacks(fmt, '$')
    && (forall i :: 0 <= i < |fmt| && fmt[i] == '%' ==> i + 1 < |fmt| && fmt[i + 1] != '%')
  }

  /** The independent reading of a format: each "%c" is the table's value for
      c, or "${c}" when c is not in the table; other characters stay. */
  function Expand(fmt: string, data: map<string, string>): string {
    if fmt == [] then []
    else if fmt[0] == '%' && |fmt| >= 2 then
      (if [fmt[1]] in data then data[[fmt[1]]] else "${" + [fmt[1]] + "}") + Expand(fmt[2..], data)
    else [fmt[0]] + Expand(fmt[1..], data)
  }

  /** Every key of the table is a valid placeholder name. */
  predicate NamesAreIdentifiers(data: map<string, string>) {
    forall name :: name in data ==> |name| >= 1 && IsIdStart(name[0]) && IdentLength(name) == |name|
  }

  lemma SubstituteLiteral(s: string, data: map<string, string>)
    requires s != [] && s[0] != '$'
    ensures SafeSubstitute(s, data) == [s[0]] + SafeSubstitute(s[1..], data)
  {
  }

  /** A text without '$' holds no placeholder and is returned unchanged. */
  lemma {:induction false} SubstituteNoPlaceholder(s: string, data: map<string, string>)
    requires Lacks(s, '$')
    ensures SafeSubstitute(s, data) == s
  {
    if s != [] {
      assert Lacks(s[1..], '$') by {
        forall i | 0 <= i < |s[1..]| ensures s[1..][i] != '$' {
          assert s[1..][i] == s[i + 1];
        }
      }
      SubstituteNoPlaceholder(s[1..], data);
      SubstituteLiteral(s, data);
      assert [s[0]] + s[1..] == s;
    }
  }

  /** A '$' that starts no placeholder (here: one before '{' and a non-name
      character, or before '}') is kept. */
  lemma SubstituteLoneDollar(s: string, data: map<string, string>)
    requires |s| >= 2 && s[0] == '$' && (s[1] == '}' || (|s| >= 3 && s[1] == '{' && !IsIdStart(s[2])))
    ensures SafeSubstitute(s, data) == "$" + SafeSubstitute(s[1..], data)
  {
  }

  /** "${c}" with a name character c: replaced when c is a key. */
  lemma SubstituteBraced(c: char, rest: string, data: map<string, string>)
    requires IsIdStart(c)
    ensures SafeSubstitute("${" + [c] + "}" + rest, data)
            == (if [c] in data then data[[c]] else "${" + [c] + "}") + SafeSubstitute(rest, data)
  {
    var s := "${" + [c] + "}" + rest;
    assert s[1] == '{' && s[2] == c && s[3] == '}';
    assert s[2..][1] == '}';
    assert IdentLength(s[2..]) == 1;
    assert s[2..3] == [c];
    assert s[..4] == "${" + [c] + "}";
    assert s[4..] == rest;
  }

  /** "${c}" with a character c that cannot start a name stays as written. */
  lemma SubstituteNonName(c: char, rest: string, data: map<string, string>)
    requires !IsIdStart(c)
    ensures SafeSubstitute("${" + [c] + "}" + rest, data) == "${" + [c] + "}" + SafeSubstitute(rest, data)
  {
    var s := "${" + [c] + "}" + rest;
    var t := [c] + "}" + rest;
    assert s[1..] == "{" + t && s[2] == c;
    SubstituteLoneDollar(s, data);
    SubstituteLiteral(s[1..], data);
    assert s[1..][1..] == t && t[1..] == "}" + rest && t[1..][1..] == rest;
    SubstituteLiteral(t[1..], data);
    if c == '$' {
      SubstituteLoneDollar(t, data);
    } else {
      SubstituteLiteral(t, data);
    }
  }

  /** One "${c}" placeholder: replaced when c is a key, kept as written otherwise. */
  lemma SubstitutePlaceholder(c: char, rest: string, data: map<string, string>)
    requires NamesAreIdentifiers(data)
    ensures SafeSubstitute("${" + [c] + "}" + rest, data)
            == (if [c] in data then data[[c]] else "${" + [c] + "}") + SafeSubstitute(rest, data)
  {
    if IsIdStart(c) {
      SubstituteBraced(c, rest, data);
    } else {
      assert [c] !in data by {
        assert [c][0] == c;
      }
      SubstituteNonName(c, rest, data);
    }
  }

  /** What follows a position of a plain format is plain too. */
  lemma PlainSuffix(fmt: string, k: nat)
    requires PlainFormat(fmt) && k <= |fmt|
    ensures PlainFormat(fmt[k..])
  {
    var rest := fmt[k..];
    forall i | 0 <= i < |rest| && rest[i] == '%' ensures i + 1 < |rest| && rest[i + 1] != '%' {
      assert fmt[k + i] == '%';
    }
  }

  /** The fallback agrees with the direct reading of the format: for a plain
      format, rewriting to a Template and substituting the table gives Expand. */
  lemma {:induction false} FallbackExpands(fmt: string, data: map<string, string>)
    requires PlainFormat(fmt) && NamesAreIdentifiers(data)
    ensures SafeSubstitute(Rewritten(fmt, false), data) == Expand(fmt, data)
    decreases |fmt|
  {
    if fmt == [] {
    } else if fmt[0] == '%' {
      PlainSuffix(fmt, 2);
      FallbackExpands(fmt[2..], data);
      FallbackDirective(fmt, data);
    } else {
      PlainSuffix(fmt, 1);
      FallbackExpands(fmt[1..], data);
      FallbackLiteral(fmt, data);
    }
  }

  /** The step of FallbackExpands over a leading "%c". */
  lemma FallbackDirective(fmt: string, data: map<string, string>)
    requires PlainFormat(fmt) && NamesAreIdentifiers(data) && fmt != [] && fmt[0] == '%'
    requires SafeSubstitute(Rewritten(fmt[2..], false), data) == Expand(fmt[2..], data)
    ensures SafeSubstitute(Rewritten(fmt, false), data) == Expand(fmt, data)
  {
    assert 1 < |fmt| && fmt[1] != '%';
    RewrittenDirective(fmt);
    SubstitutePlaceholder(fmt[1], Rewritten(fmt[2..], false), data);
  }

  /** A directive "%c" with c not '%' is rewritten to the placeholder "${c}". */
  lemma RewrittenDirective(fmt: string)
    requires 2 <= |fmt| && fmt[0] == '%' && fmt[1] != '%'
    ensures Rewritten(fmt, false) == "${" + [fmt[1]] + "}" + Rewritten(fmt[2..], false)
  {
    var c, r := fmt[1], Rewritten(fmt[2..], false);
    assert fmt[1..][0] == c && fmt[1..][1..] == fmt[2..];
    assert Rewritten(fmt[1..], true) == [c, '}'] + r;
    assert "${" + ([c, '}'] + r) == "${" + [c] + "}" + r;
  }

  /** The step of FallbackExpands over a leading character other than '%'. */
  lemma FallbackLiteral(fmt: string, data: map<string, string>)
    requires PlainFormat(fmt) && fmt != [] && fmt[0] != '%'
    requires SafeSubstitute(Rewritten(fmt[1..], false), data) == Expand(fmt[1..], data)
    ensures SafeSubstitute(Rewritten(fmt, false), data) == Expand(fmt, data)
  {
    var t := [fmt[0]] + Rewritten(fmt[1..], false);
    assert Rewritten(fmt, false) == t;
    assert t[0] != '$' && t[1..] == Rewritten(fmt[1..], false);
    SubstituteLiteral(t, data);
  }

  /** The fallback of `date_to_string(dt, fmt)`: rewrite the format, then
      substitute the parts of the date; for a plain format this is the direct
      expansion of every "%c" by the table. */
  method DateToStringFallback(fmt: string, dt: ZopeDate) returns (s: string)
    ensures s == SafeSubstitute(Rewritten(fmt, false), FallbackData(dt))
    ensures PlainFormat(fmt) ==> s == Expand(fmt, FallbackData(dt))
  {
    var newFmt := RewriteFormat(fmt);
    s := SafeSubstitute(newFmt, FallbackData(dt));
    if PlainFormat(fmt) {
      FallbackExpands(fmt, FallbackData(dt));
    }
  }
}
