/** The publication timestamp of a document (src/content/time.rs): six
    calendar fields in UTC, formatted as `Y-M-DTh:m:sZ`, ordered field by
    field, and turned into a Unix timestamp by parsing that string back as
    RFC 3339. */
module Times {
  import opened Wrappers
  import opened Text

  datatype Time = Time(year: int, month: nat, day: nat, hour: nat, minute: nat, second: nat)

  /** The error chrono reports when a string is not an RFC 3339 date-time. */
  datatype ParseError = ParseError

  /** `impl Display for Time`: the six fields in decimal, unpadded. */
  function Display(t: Time): string {
    IntToString(t.year) + "-" + NatToString(t.month) + "-" + NatToString(t.day) + "T"
      + NatToString(t.hour) + ":" + NatToString(t.minute) + ":" + NatToString(t.second) + "Z"
  }

  /** `Time::to_rfc_3339`, written with its own format string; it agrees with
      `Display`. */
  function ToRfc3339(t: Time): (r: string)
    ensures r == Display(t)
  {
    var date := IntToString(t.year) + "-" + NatToString(t.month) + "-" + NatToString(t.day);
    var time := NatToString(t.hour) + ":" + NatToString(t.minute) + ":" + NatToString(t.second);
    date + "T" + time + "Z"
  }

  /** The derived `PartialOrd`: fields compared in declaration order. */
  predicate Less(a: Time, b: Time) {
    || a.year < b.year
    || (a.year == b.year && a.month < b.month)
    || (a.year == b.year && a.month == b.month && a.day < b.day)
    || (a.year == b.year && a.month == b.month && a.day == b.day && a.hour < b.hour)
    || (a.year == b.year && a.month == b.month && a.day == b.day && a.hour == b.hour
        && a.minute < b.minute)
    || (a.year == b.year && a.month == b.month && a.day == b.day && a.hour == b.hour
        && a.minute == b.minute && a.second < b.second)
  }

  /** The derived order is a strict total order. */
  lemma LessIsStrictTotalOrder(a: Time, b: Time, c: Time)
    ensures !Less(a, a)
    ensures Less(a, b) && Less(b, c) ==> Less(a, c)
    ensures a != b ==> Less(a, b) || Less(b, a)
    ensures !(Less(a, b) && Less(b, a))
  {
  }

  // ---- Calendar arithmetic ----

  predicate IsLeap(y: int) {
    y % 4 == 0 && (y % 100 != 0 || y % 400 == 0)
  }

  function YearLength(y: int): nat {
    if IsLeap(y) then 366 else 365
  }

  function DaysInMonth(y: int, m: nat): nat
    requires 1 <= m <= 12
  {
    if m == 2 then (if IsLeap(y) then 29 else 28)
    else if m == 4 || m == 6 || m == 9 || m == 11 then 30
    else 31
  }

  /** Days of year `y` before the first of month `m`. */
  function DaysBeforeMonth(y: int, m: nat): nat
    requires 1 <= m <= 12
  {
    var table := [0, 31, 59, 90, 120, 151, 181, 212, 243, 273, 304, 334];
    table[m - 1] + (if IsLeap(y) && m > 2 then 1 else 0)
  }

  /** Days from 1970-01-01 to the first of January of year `y` (negative
      before 1970). */
  function DaysBeforeYear(y: int): int
    decreases if y >= 1970 then y - 1970 else 1970 - y
  {
    if y == 1970 then 0
    else if y > 1970 then DaysBeforeYear(y - 1) + YearLength(y - 1)
    else DaysBeforeYear(y + 1) - YearLength(y)
  }

  lemma DaysBeforeYearStep(y: int)
    ensures DaysBeforeYear(y + 1) == DaysBeforeYear(y) + YearLength(y)
  {
  }

  lemma {:induction false} DaysBeforeYearMonotone(y1: int, y2: int)
    requires y1 < y2
    ensures DaysBeforeYear(y1) + YearLength(y1) <= DaysBeforeYear(y2)
    decreases y2 - y1
  {
    DaysBeforeYearStep(y1);
    if y1 + 1 < y2 {
      DaysBeforeYearMonotone(y1 + 1, y2);
    }
  }

  /** The fields chrono accepts in an RFC 3339 date-time: a four-digit year,
      a day within its month, an hour below 24, a minute below 60 and a second
      up to 60 (a leap second). */
  predicate InCalendar(t: Time) {
    && 0 <= t.year <= 9999
    && 1 <= t.month <= 12
    && 1 <= t.day <= DaysInMonth(t.year, t.month)
    && t.hour < 24 && t.minute < 60 && t.second <= 60
  }

  /** A calendar time without a leap second: what `Time::now` records. */
  predicate Valid(t: Time) {
    InCalendar(t) && t.second < 60
  }

  function DayNumber(t: Time): int
    requires InCalendar(t)
  {
    DaysBeforeYear(t.year) + DaysBeforeMonth(t.year, t.month) + t.day - 1
  }

  /** Seconds since 1970-01-01T00:00:00Z; chrono counts a leap second as the
      second before it. */
  function UnixSeconds(t: Time): int
    requires InCalendar(t)
  {
    DayNumber(t) * 86400 + t.hour * 3600 + t.minute * 60 + (if t.second == 60 then 59 else t.second)
  }

  lemma DayWithinYear(t: Time)
    requires InCalendar(t)
    ensures DaysBeforeMonth(t.year, t.month) + t.day - 1 < YearLength(t.year)
  {
  }

  lemma MonthsOrdered(y: int, m1: nat, d1: nat, m2: nat)
    requires 1 <= m1 < m2 <= 12 && 1 <= d1 <= DaysInMonth(y, m1)
    ensures DaysBeforeMonth(y, m1) + d1 - 1 < DaysBeforeMonth(y, m2)
  {
  }

  /** Day numbers follow the field order on valid dates. */
  lemma DayNumberMonotone(a: Time, b: Time)
    requires InCalendar(a) && InCalendar(b)
    requires a.year < b.year || (a.year == b.year && a.month < b.month)
             || (a.year == b.year && a.month == b.month && a.day < b.day)
    ensures DayNumber(a) < DayNumber(b)
  {
    if a.year < b.year {
      DayWithinYear(a);
      DaysBeforeYearMonotone(a.year, b.year);
    } else if a.month < b.month {
      MonthsOrdered(a.year, a.month, a.day, b.month);
    }
  }

  /** Comparing times field by field is comparing their Unix timestamps: what
      keying the gemlog posts by timestamp relies on. */
  lemma {:induction false} LessIffEarlierTimestamp(a: Time, b: Time)
    requires Valid(a) && Valid(b)
    ensures Less(a, b) <==> UnixSeconds(a) < UnixSeconds(b)
    ensures a == b <==> UnixSeconds(a) == UnixSeconds(b)
  {
    if a.year != b.year || a.month != b.month || a.day != b.day {
      if Less(a, b) {
        DayNumberMonotone(a, b);
      } else {
        DayNumberMonotone(b, a);
      }
    }
  }

  /** The time with a leap second read as the second before it. */
  function NoLeap(t: Time): (r: Time)
    requires InCalendar(t)
    ensures Valid(r) && UnixSeconds(r) == UnixSeconds(t)
  {
    if t.second == 60 then t.(second := 59) else t
  }

  /** With leap seconds the two orders still agree one way round: a smaller
      timestamp is an earlier time, and an earlier time has no larger
      timestamp. */
  lemma UnixSecondsOrder(a: Time, b: Time)
    requires InCalendar(a) && InCalendar(b)
    ensures UnixSeconds(a) < UnixSeconds(b) ==> Less(a, b)
    ensures Less(a, b) ==> UnixSeconds(a) <= UnixSeconds(b)
  {
    LessIffEarlierTimestamp(NoLeap(a), NoLeap(b));
  }

  // ---- Parsing the formatted string back, as chrono's RFC 3339 reader does ----

  /** Exactly `n` digits followed by `sep`: their value and what follows them
      (chrono reads each field with `scan::number(s, n, n)` and then expects
      the separator). */
  function Fixed(s: string, n: nat, sep: char): Option<(nat, string)> {
    if n < |s| && AllDigits(s[..n]) && s[n] == sep then Some((DigitsValue(s[..n]), s[n + 1..])) else None
  }

  /** A field of digits followed by its separator is read exactly when it has
      the expected width. */
  lemma FixedOfDigits(d: string, n: nat, sep: char, rest: string)
    requires AllDigits(d) && !IsDigit(sep)
    ensures Fixed(d + [sep] + rest, n, sep) == if |d| == n then Some((DigitsValue(d), rest)) else None
  {
    var s := d + [sep] + rest;
    if |d| == n {
      assert s[..n] == d;
      assert s[n + 1..] == rest;
    } else if |d| < n && n < |s| {
      assert s[|d|] == sep;
      assert s[..n][|d|] == sep;
    } else if |d| > n {
      assert s[n] == d[n];
    }
  }

  /** The date-time fields of a `YYYY-MM-DDThh:mm:ssZ` string, read one
      field at a time; the text must end after the `Z`. */
  function ParseFields(s: string): Option<Time> {
    match Fixed(s, 4, '-')
    case Some((y, r)) => ParseMonth(y, r)
    case None => None
  }

  function ParseMonth(y: nat, s: string): Option<Time> {
    match Fixed(s, 2, '-')
    case Some((mo, r)) => ParseDay(y, mo, r)
    case None => None
  }

  function ParseDay(y: nat, mo: nat, s: string): Option<Time> {
    match Fixed(s, 2, 'T')
    case Some((d, r)) => ParseHour(y, mo, d, r)
    case None => None
  }

  function ParseHour(y: nat, mo: nat, d: nat, s: string): Option<Time> {
    match Fixed(s, 2, ':')
    case Some((h, r)) => ParseMinute(y, mo, d, h, r)
    case None => None
  }

  function ParseMinute(y: nat, mo: nat, d: nat, h: nat, s: string): Option<Time> {
    match Fixed(s, 2, ':')
    case Some((mi, r)) => ParseSecond(y, mo, d, h, mi, r)
    case None => None
  }

  function ParseSecond(y: nat, mo: nat, d: nat, h: nat, mi: nat, s: string): Option<Time> {
    match Fixed(s, 2, 'Z')
    case Some((sec, r)) => if r == "" then Some(Time(y, mo, d, h, mi, sec)) else None
    case None => None
  }

  /** The text `Display` and the padded formatter both write, from the digit
      strings of the six fields. */
  function Layout(y: string, mo: string, d: string, h: string, mi: string, se: string): string {
    y + "-" + mo + "-" + d + "T" + h + ":" + mi + ":" + se + "Z"
  }

  /** The layout regrouped after the year's separator. */
  lemma Regroup(y: string, mo: string, d: string, h: string, mi: string, se: string)
    ensures Layout(y, mo, d, h, mi, se)
         == y + ['-'] + (mo + ['-'] + (d + ['T'] + (h + [':'] + (mi + [':'] + (se + ['Z'] + "")))))
  {
    var p4 := y + "-" + mo + "-" + d + "T" + h + ":";
    assert p4 + mi + ":" + se + "Z" == p4 + (mi + [':'] + (se + ['Z'] + ""));
    var p3 := y + "-" + mo + "-" + d + "T";
    assert p3 + h + ":" + (mi + [':'] + (se + ['Z'] + "")) == p3 + (h + [':'] + (mi + [':'] + (se + ['Z'] + "")));
    var p2 := y + "-" + mo + "-";
    assert p2 + d + "T" + (h + [':'] + (mi + [':'] + (se + ['Z'] + "")))
        == p2 + (d + ['T'] + (h + [':'] + (mi + [':'] + (se + ['Z'] + ""))));
    assert y + "-" + mo + "-" + (d + ['T'] + (h + [':'] + (mi + [':'] + (se + ['Z'] + ""))))
        == y + ['-'] + (mo + ['-'] + (d + ['T'] + (h + [':'] + (mi + [':'] + (se + ['Z'] + "")))));
  }

  /** Six digit strings in the layout read back as their values exactly when
      the year has four digits and every other field two. */
  lemma ParseLayout(y: string, mo: string, d: string, h: string, mi: string, se: string)
    requires AllDigits(y) && AllDigits(mo) && AllDigits(d) && AllDigits(h) && AllDigits(mi) && AllDigits(se)
    ensures ParseFields(Layout(y, mo, d, h, mi, se)) ==
      if |y| == 4 && |mo| == 2 && |d| == 2 && |h| == 2 && |mi| == 2 && |se| == 2
      then Some(Time(DigitsValue(y), DigitsValue(mo), DigitsValue(d), DigitsValue(h), DigitsValue(mi), DigitsValue(se)))
      else None
  {
    Regroup(y, mo, d, h, mi, se);
    var r5 := se + ['Z'] + "";
    var r4 := mi + [':'] + r5;
    var r3 := h + [':'] + r4;
    var r2 := d + ['T'] + r3;
    var r1 := mo + ['-'] + r2;
    FixedOfDigits(y, 4, '-', r1);
    FixedOfDigits(mo, 2, '-', r2);
    FixedOfDigits(d, 2, 'T', r3);
    FixedOfDigits(h, 2, ':', r4);
    FixedOfDigits(mi, 2, ':', r5);
    FixedOfDigits(se, 2, 'Z', "");
  }

  /** `DateTime::parse_from_rfc3339`: the fields, when chrono accepts them. */
  function ParseRfc3339(s: string): Result<Time, ParseError> {
    match ParseFields(s)
    case Some(t) => if InCalendar(t) then Ok(t) else Err(ParseError)
    case None => Err(ParseError)
  }

  /** The display text of a time with a non-negative year is its layout. */
  lemma DisplayLayout(t: Time)
    requires t.year >= 0
    ensures Display(t) == Layout(NatToString(t.year), NatToString(t.month), NatToString(t.day),
                                 NatToString(t.hour), NatToString(t.minute), NatToString(t.second))
  {
  }

  /** `Time::to_date_time` as written: chrono reads back the unpadded text, so
      only a time whose year has four digits and whose other fields have two
      has a date-time. */
  function ToDateTime(t: Time): (r: Result<Time, ParseError>)
    ensures r.Ok? <==> InCalendar(t) && 1000 <= t.year && t.month >= 10 && t.day >= 10
                       && t.hour >= 10 && t.minute >= 10 && t.second >= 10
    ensures r.Ok? ==> r.value == t
  {
    ReadUnpadded(t);
    ParseRfc3339(ToRfc3339(t))
  }

  lemma ReadUnpadded(t: Time)
    ensures ParseFields(Display(t)) ==
      if 1000 <= t.year <= 9999 && 10 <= t.month < 100 && 10 <= t.day < 100
         && 10 <= t.hour < 100 && 10 <= t.minute < 100 && 10 <= t.second < 100
      then Some(t) else None
  {
    if t.year >= 0 {
      DisplayLayout(t);
      ParseLayout(NatToString(t.year), NatToString(t.month), NatToString(t.day),
                  NatToString(t.hour), NatToString(t.minute), NatToString(t.second));
      NatToStringLength(t.year);
      NatToStringLength(t.month);
      NatToStringLength(t.day);
      NatToStringLength(t.hour);
      NatToStringLength(t.minute);
      NatToStringLength(t.second);
      DigitsValueOfNatToString(t.year);
      DigitsValueOfNatToString(t.month);
      DigitsValueOfNatToString(t.day);
      DigitsValueOfNatToString(t.hour);
      DigitsValueOfNatToString(t.minute);
      DigitsValueOfNatToString(t.second);
    } else {
      var s := Display(t);
      assert s[0] == '-';
      assert !IsDigit(s[..4][0]);
    }
  }

  /** `Time::timestamp`: the Unix timestamp of the parsed date-time, or the
      parse error. */
  function Timestamp(t: Time): (r: Result<int, ParseError>)
    ensures r.Ok? <==> ToDateTime(t).Ok?
    ensures r.Ok? ==> InCalendar(t) && r.value == UnixSeconds(t)
  {
    match ToDateTime(t)
    case Ok(dt) => Ok(UnixSeconds(dt))
    case Err(e) => Err(e)
  }

  /** Where both timestamps exist a smaller one is an earlier time; without
      leap seconds the two orders agree, and equal keys are equal times. */
  lemma TimestampOrder(a: Time, b: Time)
    requires Timestamp(a).Ok? && Timestamp(b).Ok?
    ensures Timestamp(a).value < Timestamp(b).value ==> Less(a, b)
    ensures Less(a, b) ==> Timestamp(a).value <= Timestamp(b).value
    ensures a.second < 60 && b.second < 60 ==>
      && (Less(a, b) <==> Timestamp(a).value < Timestamp(b).value)
      && (a == b <==> Timestamp(a).value == Timestamp(b).value)
  {
    UnixSecondsOrder(a, b);
    if a.second < 60 && b.second < 60 {
      LessIffEarlierTimestamp(a, b);
    }
  }

  /** The first second of 2024 has no timestamp: its text `2024-1-1T0:0:0Z`
      is not RFC 3339, so a post published then aborts the build. The padded
      text reads back. */
  lemma UnpaddedTimeIsRejected()
    ensures Display(Time(2024, 1, 1, 0, 0, 0)) == "2024-1-1T0:0:0Z"
    ensures Timestamp(Time(2024, 1, 1, 0, 0, 0)).Err?
    ensures PaddedRfc3339(Time(2024, 1, 1, 0, 0, 0)) == "2024-01-01T00:00:00Z"
    ensures PaddedTimestamp(Time(2024, 1, 1, 0, 0, 0)).Ok?
  {
    NewYearText();
    NewYearPaddedText();
    assert InCalendar(Time(2024, 1, 1, 0, 0, 0));
  }

  lemma NewYearText()
    ensures Display(Time(2024, 1, 1, 0, 0, 0)) == "2024-1-1T0:0:0Z"
  {
    Year2024();
  }

  lemma NewYearPaddedText()
    ensures PaddedRfc3339(Time(2024, 1, 1, 0, 0, 0)) == "2024-01-01T00:00:00Z"
  {
    Year2024();
  }

  lemma Year2024()
    ensures NatToString(2024) == "2024" && Pad(2024, 4) == "2024"
    ensures Pad(1, 2) == "01" && Pad(0, 2) == "00"
  {
    assert NatToString(20) == NatToString(2) + ['0'];
    assert NatToString(202) == NatToString(20) + ['2'];
    assert NatToString(2024) == NatToString(202) + ['4'];
  }

  /** A leap second shares its timestamp with the second before it, so two
      posts published then collide as keys although their times differ. */
  lemma LeapSecondSharesTimestamp()
    ensures var a := Time(2016, 12, 31, 23, 59, 59);
      var b := Time(2016, 12, 31, 23, 59, 60);
      && Less(a, b)
      && Timestamp(a).Ok? && Timestamp(b).Ok?
      && Timestamp(a).value == Timestamp(b).value
  {
    assert InCalendar(Time(2016, 12, 31, 23, 59, 59));
    assert InCalendar(Time(2016, 12, 31, 23, 59, 60));
  }

  // ---- The formatting chrono can read: zero-padded fields ----

  /** A signed number padded to `w` characters, the sign counted in the
      width, as `{:0w}` formats an `i32`. */
  function PadInt(i: int, w: nat): string {
    if i < 0 then "-" + Pad(-i, if w > 0 then w - 1 else 0) else Pad(i, w)
  }

  /** `to_rfc_3339` with `{:04}` for the year and `{:02}` for the other
      fields: RFC 3339 text. */
  function PaddedRfc3339(t: Time): string {
    PadInt(t.year, 4) + "-" + Pad(t.month, 2) + "-" + Pad(t.day, 2) + "T"
      + Pad(t.hour, 2) + ":" + Pad(t.minute, 2) + ":" + Pad(t.second, 2) + "Z"
  }

  lemma ReadPadded(t: Time)
    ensures ParseFields(PaddedRfc3339(t)) ==
      if 0 <= t.year < 10000 && t.month < 100 && t.day < 100
         && t.hour < 100 && t.minute < 100 && t.second < 100
      then Some(t) else None
  {
    if t.year >= 0 {
      assert PaddedRfc3339(t) == Layout(Pad(t.year, 4), Pad(t.month, 2), Pad(t.day, 2),
                                        Pad(t.hour, 2), Pad(t.minute, 2), Pad(t.second, 2));
      ParseLayout(Pad(t.year, 4), Pad(t.month, 2), Pad(t.day, 2),
                  Pad(t.hour, 2), Pad(t.minute, 2), Pad(t.second, 2));
      NatToStringLength(t.year);
      NatToStringLength(t.month);
      NatToStringLength(t.day);
      NatToStringLength(t.hour);
      NatToStringLength(t.minute);
      NatToStringLength(t.second);
      PadValue(t.year, 4);
      PadValue(t.month, 2);
      PadValue(t.day, 2);
      PadValue(t.hour, 2);
      PadValue(t.minute, 2);
      PadValue(t.second, 2);
    } else {
      var s := PaddedRfc3339(t);
      assert s[0] == '-';
      assert !IsDigit(s[..4][0]);
    }
  }

  /** `to_date_time` over the padded text: every time chrono accepts reads
      back as itself. */
  function PaddedToDateTime(t: Time): (r: Result<Time, ParseError>)
    ensures r.Ok? <==> InCalendar(t)
    ensures r.Ok? ==> r.value == t
  {
    ReadPadded(t);
    ParseRfc3339(PaddedRfc3339(t))
  }

  /** `timestamp` over the padded text. */
  function PaddedTimestamp(t: Time): (r: Result<int, ParseError>)
    ensures r.Ok? <==> InCalendar(t)
    ensures r.Ok? ==> r.value == UnixSeconds(t)
  {
    match PaddedToDateTime(t)
    case Ok(dt) => Ok(UnixSeconds(dt))
    case Err(e) => Err(e)
  }

  /** Wherever the unpadded reading succeeds, the padded one gives the same
      timestamp; it succeeds on more times. */
  lemma PaddedTimestampExtends(t: Time)
    ensures Timestamp(t).Ok? ==> PaddedTimestamp(t) == Timestamp(t)
    ensures Timestamp(t).Ok? ==> PaddedTimestamp(t).Ok?
  {
  }

  /** Over the padded text every time the clock gives has a timestamp, and
      timestamp order is field order. */
  lemma PaddedTimestampOrder(a: Time, b: Time)
    requires Valid(a) && Valid(b)
    ensures PaddedTimestamp(a).Ok? && PaddedTimestamp(b).Ok?
    ensures Less(a, b) <==> PaddedTimestamp(a).value < PaddedTimestamp(b).value
    ensures a == b <==> PaddedTimestamp(a).value == PaddedTimestamp(b).value
  {
    LessIffEarlierTimestamp(a, b);
  }

  // ---- Accessors used by the renderers but not defined in time.rs ----

  /** `date_string()`: called on `Time` by the renderers; rendered here as
      `YYYY-MM-DD` (it is not defined in time.rs). */
  function DateString(t: Time): string {
    IntToString(t.year) + "-" + Pad(t.month, 2) + "-" + Pad(t.day, 2)
  }

  /** `year()`: the year field. */
  function Year(t: Time): int {
    t.year
  }
}
