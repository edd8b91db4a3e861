/** The proleptic Gregorian calendar as an ECMAScript `Date` uses it.
    A time value is an integer number of milliseconds since 1970-01-01T00:00:00Z;
    `Fields` splits one into calendar fields, `TimeValue` is MakeDate(MakeDay, MakeTime),
    `ToISOString` is `Date.prototype.toISOString` and `ParseDate` is `new Date(s)`
    for the two string shapes the bot hands to it. */
module Calendar {
  import opened Util

  const MsPerDay := 86400000
  const MsPerHour := 3600000
  /** A Date holds a time value only when its magnitude is at most 8.64e15 (TimeClip). */
  const MaxTimeValue := 8640000000000000

  predicate IsLeap(y: int) { y % 4 == 0 && (y % 100 != 0 || y % 400 == 0) }

  function DaysInYear(y: int): int { if IsLeap(y) then 366 else 365 }

  function DaysInMonth(y: int, m: int): int
    requires 1 <= m <= 12
  {
    if m == 2 then (if IsLeap(y) then 29 else 28)
    else if m == 4 || m == 6 || m == 9 || m == 11 then 30
    else 31
  }

  /** Days of year `y` before the first of month `m` (13 stands for the next year). */
  function DaysBeforeMonth(y: int, m: int): int
    requires 1 <= m <= 13
  {
    var leap := if IsLeap(y) then 1 else 0;
    if m == 1 then 0 else if m == 2 then 31 else if m == 3 then 59 + leap
    else if m == 4 then 90 + leap else if m == 5 then 120 + leap
    else if m == 6 then 151 + leap else if m == 7 then 181 + leap
    else if m == 8 then 212 + leap else if m == 9 then 243 + leap
    else if m == 10 then 273 + leap else if m == 11 then 304 + leap
    else if m == 12 then 334 + leap else 365 + leap
  }

  lemma MonthStep(y: int, m: int)
    requires 1 <= m <= 12
    ensures DaysBeforeMonth(y, m + 1) == DaysBeforeMonth(y, m) + DaysInMonth(y, m)
    ensures DaysBeforeMonth(y, 13) == DaysInYear(y)
  {
  }

  /** Day number (days since 1970-01-01) of the first of January of year `y`. */
  function YearStart(y: int): int
    decreases if y >= 1970 then y - 1970 else 1970 - y
  {
    if y == 1970 then 0
    else if y > 1970 then YearStart(y - 1) + DaysInYear(y - 1)
    else YearStart(y + 1) - DaysInYear(y)
  }

  lemma YearStartStep(y: int)
    ensures YearStart(y + 1) == YearStart(y) + DaysInYear(y)
  {
  }

  lemma {:induction false} YearStartMonotone(y: int, z: int)
    requires y < z
    ensures YearStart(y) + DaysInYear(y) <= YearStart(z)
    decreases z - y
  {
    YearStartStep(y);
    if y + 1 < z {
      YearStartMonotone(y + 1, z);
    }
  }

  lemma {:induction false} YearStartAfterEpoch(y: int)
    requires y >= 1970
    ensures YearStart(y) >= 365 * (y - 1970)
    decreases y - 1970
  {
    if y > 1970 {
      YearStartAfterEpoch(y - 1);
    }
  }

  lemma {:induction false} YearStartBeforeEpoch(y: int)
    requires y <= 1970
    ensures YearStart(y) <= -365 * (1970 - y)
    decreases 1970 - y
  {
    if y < 1970 {
      YearStartBeforeEpoch(y + 1);
    }
  }

  lemma {:induction false} YearStartAfterEpochAtMost(y: int)
    requires y >= 1970
    ensures YearStart(y) <= 366 * (y - 1970)
    decreases y - 1970
  {
    if y > 1970 {
      YearStartAfterEpochAtMost(y - 1);
    }
  }

  lemma {:induction false} YearStartBeforeEpochAtLeast(y: int)
    requires y <= 1970
    ensures YearStart(y) >= -366 * (1970 - y)
    decreases 1970 - y
  {
    if y < 1970 {
      YearStartBeforeEpochAtLeast(y + 1);
    }
  }

  /** The year holding day `YearStart(y) + rem`, searching forwards. */
  function YearUp(y: int, rem: int): (r: (int, int))
    requires rem >= 0
    ensures 0 <= r.1 < DaysInYear(r.0) && YearStart(r.0) + r.1 == YearStart(y) + rem
    decreases rem
  {
    YearStartStep(y);
    if rem < DaysInYear(y) then (y, rem) else YearUp(y + 1, rem - DaysInYear(y))
  }

  /** The year holding day `YearStart(y) + rem`, searching backwards. */
  function YearDown(y: int, rem: int): (r: (int, int))
    requires rem < 0
    ensures 0 <= r.1 < DaysInYear(r.0) && YearStart(r.0) + r.1 == YearStart(y) + rem
    decreases -rem
  {
    YearStartStep(y - 1);
    var rem' := rem + DaysInYear(y - 1);
    if rem' >= 0 then (y - 1, rem') else YearDown(y - 1, rem')
  }

  /** The month and day of the `doy`-th day (from 0) of year `y`, searching from month `m`. */
  function MonthOf(y: int, doy: int, m: int): (r: (int, int))
    requires 1 <= m <= 12 && DaysBeforeMonth(y, m) <= doy < DaysInYear(y)
    ensures 1 <= r.0 <= 12 && 1 <= r.1 <= DaysInMonth(y, r.0)
    ensures DaysBeforeMonth(y, r.0) + r.1 - 1 == doy
    decreases 12 - m
  {
    MonthStep(y, m);
    if doy < DaysBeforeMonth(y, m + 1) then (m, doy - DaysBeforeMonth(y, m) + 1)
    else MonthOf(y, doy, m + 1)
  }

  datatype DateTime = DateTime(year: int, month: int, day: int,
                               hour: int, minute: int, second: int, millis: int)

  predicate ValidDate(y: int, m: int, d: int)
  {
    1 <= m <= 12 && 1 <= d <= DaysInMonth(y, m)
  }

  predicate ValidFields(f: DateTime)
  {
    && ValidDate(f.year, f.month, f.day)
    && 0 <= f.hour < 24 && 0 <= f.minute < 60 && 0 <= f.second < 60 && 0 <= f.millis < 1000
  }

  /** MakeDay: a day past the end of its month rolls over into the next month. */
  function DayNumber(y: int, m: int, d: int): int
    requires 1 <= m <= 12
  {
    YearStart(y) + DaysBeforeMonth(y, m) + d - 1
  }

  function TimeOfDay(f: DateTime): int
  {
    ((f.hour * 60 + f.minute) * 60 + f.second) * 1000 + f.millis
  }

  /** MakeDate(MakeDay(year, month, day), MakeTime(hour, minute, second, millis)). */
  function TimeValue(f: DateTime): int
    requires 1 <= f.month <= 12
  {
    DayNumber(f.year, f.month, f.day) * MsPerDay + TimeOfDay(f)
  }

  lemma {:induction false} MulAtLeast(d: int, b: int)
    requires d >= 1 && b > 0
    ensures d * b >= b
    decreases d
  {
    if d > 1 {
      MulAtLeast(d - 1, b);
      assert d * b == (d - 1) * b + b;
    }
  }

  /** Euclidean division pinned down by its quotient and remainder. */
  lemma DivModUnique(a: int, b: int, q: int, r: int)
    requires b > 0 && a == q * b + r && 0 <= r < b
    ensures a / b == q && a % b == r
  {
    var q', r' := a / b, a % b;
    assert a == q' * b + r' && 0 <= r' < b;
    assert (q - q') * b == r' - r;
    if q > q' {
      MulAtLeast(q - q', b);
    } else if q < q' {
      MulAtLeast(q' - q, b);
    }
  }

  /** The calendar fields of time value `t` (YearFromTime, MonthFromTime, DateFromTime, ...). */
  function Fields(t: int): (f: DateTime)
    ensures ValidFields(f) && TimeValue(f) == t
  {
    var days := t / MsPerDay;
    var inDay := t % MsPerDay;
    var yd := if days >= 0 then YearUp(1970, days) else YearDown(1970, days);
    var md := MonthOf(yd.0, yd.1, 1);
    var secs := inDay / 1000;
    var mins := secs / 60;
    TimeOfDaySplit(inDay);
    DateTime(yd.0, md.0, md.1, mins / 60, mins % 60, secs % 60, inDay % 1000)
  }

  lemma TimeOfDaySplit(inDay: int)
    requires 0 <= inDay < MsPerDay
    ensures var secs := inDay / 1000; var mins := secs / 60;
            0 <= mins / 60 < 24
            && ((mins / 60 * 60 + mins % 60) * 60 + secs % 60) * 1000 + inDay % 1000 == inDay
  {
    var secs := inDay / 1000;
    var mins := secs / 60;
    assert inDay == secs * 1000 + inDay % 1000;
    assert secs == mins * 60 + secs % 60;
    assert mins == mins / 60 * 60 + mins % 60;
    assert secs < 86400;
    assert mins < 1440;
  }

  /** Time-of-day components are recovered from their combination. */
  lemma TimeOfDayUnique(f: DateTime)
    requires ValidFields(f)
    ensures var inDay := TimeOfDay(f); var secs := inDay / 1000; var mins := secs / 60;
            0 <= inDay < MsPerDay
            && mins / 60 == f.hour && mins % 60 == f.minute
            && secs % 60 == f.second && inDay % 1000 == f.millis
  {
    var inDay := TimeOfDay(f);
    var m := f.hour * 60 + f.minute;
    var s := m * 60 + f.second;
    DivModUnique(inDay, 1000, s, f.millis);
    DivModUnique(s, 60, m, f.second);
    DivModUnique(m, 60, f.hour, f.minute);
  }

  /** Two (year, day-of-year) pairs naming the same day are the same pair. */
  lemma YearUnique(y: int, doy: int, z: int, doz: int)
    requires 0 <= doy < DaysInYear(y) && 0 <= doz < DaysInYear(z)
    requires YearStart(y) + doy == YearStart(z) + doz
    ensures y == z && doy == doz
  {
    if y < z {
      YearStartMonotone(y, z);
    } else if z < y {
      YearStartMonotone(z, y);
    }
  }

  lemma MonthUnique(y: int, m: int, d: int, n: int, e: int)
    requires ValidDate(y, m, d) && ValidDate(y, n, e)
    requires DaysBeforeMonth(y, m) + d == DaysBeforeMonth(y, n) + e
    ensures m == n && d == e
  {
  }

  /** Splitting the time value of valid fields gives those fields back. */
  lemma {:induction false} FieldsOfTimeValue(f: DateTime)
    requires ValidFields(f)
    ensures Fields(TimeValue(f)) == f
  {
    var t := TimeValue(f);
    var day := DayNumber(f.year, f.month, f.day);
    TimeOfDayUnique(f);
    DivModUnique(t, MsPerDay, day, TimeOfDay(f));
    var doy := DaysBeforeMonth(f.year, f.month) + f.day - 1;
    MonthStep(f.year, f.month);
    assert 0 <= doy < DaysInYear(f.year);
    var yd := if day >= 0 then YearUp(1970, day) else YearDown(1970, day);
    YearUnique(yd.0, yd.1, f.year, doy);
    var md := MonthOf(yd.0, yd.1, 1);
    MonthUnique(f.year, md.0, md.1, f.month, f.day);
  }

  /** Days since the epoch of time values a Date can hold stay within 10^8. */
  lemma YearInRange(t: int)
    requires -MaxTimeValue <= t <= MaxTimeValue
    ensures -1000000 < Fields(t).year < 1000000
  {
    var f := Fields(t);
    var days := t / MsPerDay;
    assert -100000000 <= days <= 100000000;
    var doy := DaysBeforeMonth(f.year, f.month) + f.day - 1;
    MonthStep(f.year, f.month);
    assert YearStart(f.year) + doy == days;
    if f.year >= 1970 {
      YearStartAfterEpoch(f.year);
    } else {
      YearStartBeforeEpoch(f.year + 1);
      YearStartStep(f.year);
    }
  }

  /** Every valid date of a four-digit year lies in the Date range. */
  lemma FourDigitYearInRange(f: DateTime)
    requires ValidFields(f) && 0 <= f.year <= 9999
    ensures -MaxTimeValue <= TimeValue(f) <= MaxTimeValue
  {
    MonthStep(f.year, f.month);
    if f.year >= 1970 {
      YearStartAfterEpochAtMost(f.year);
      YearStartAfterEpoch(f.year);
    } else {
      YearStartBeforeEpochAtLeast(f.year);
      YearStartBeforeEpoch(f.year);
    }
    var day := DayNumber(f.year, f.month, f.day);
    assert 1 <= f.day <= 31 && 0 <= DaysBeforeMonth(f.year, f.month) <= 366;
    assert -1000000 <= YearStart(f.year) <= 3000000;
    assert -1000000 <= day <= 4000000;
    assert 0 <= TimeOfDay(f) < MsPerDay by { TimeOfDayUnique(f); }
    assert TimeValue(f) == day * MsPerDay + TimeOfDay(f);
  }

  // ---------------------------------------------------------------------
  // Text forms

  /** Four digits for years 0..9999, otherwise a sign and six digits. */
  function YearText(y: int): (r: string)
    ensures 0 <= y <= 9999 ==> |r| == 4 && AllDigits(r)
    ensures !(0 <= y <= 9999) ==> |r| == 7 && (r[0] == '+' || r[0] == '-') && AllDigits(r[1..])
  {
    if 0 <= y <= 9999 then ZeroPad(y, 4)
    else (if y < 0 then "-" else "+") + ZeroPad(if y < 0 then -y else y, 6)
  }

  /** "-MM-DDTHH:mm:ss.sssZ", the part after the year. */
  function TailText(f: DateTime): (r: string)
    requires ValidFields(f)
    ensures |r| == 20
  {
    DateTail(f) + ClockText(f)
  }

  /** "-MM-DD" */
  function DateTail(f: DateTime): (r: string)
    requires ValidFields(f)
    ensures |r| == 6
  {
    "-" + ZeroPad(f.month, 2) + "-" + ZeroPad(f.day, 2)
  }

  /** "THH:mm:ss.sssZ" */
  function ClockText(f: DateTime): (r: string)
    requires ValidFields(f)
    ensures |r| == 14
  {
    "T" + ZeroPad(f.hour, 2) + ":" + ZeroPad(f.minute, 2) + ":" + ZeroPad(f.second, 2)
    + "." + ZeroPad(f.millis, 3) + "Z"
  }

  function Render(f: DateTime): string
    requires ValidFields(f)
  {
    YearText(f.year) + TailText(f)
  }

  /** `Date.prototype.toISOString`; None stands for the RangeError of an invalid Date. */
  function ToISOString(t: int): Option<string>
  {
    if -MaxTimeValue <= t <= MaxTimeValue then Some(Render(Fields(t))) else None
  }

  predicate TwoDigitsIn(s: string, i: nat, lo: int, hi: int)
    requires i + 2 <= |s|
  {
    AllDigits(s[i..i + 2]) && lo <= DigitsValue(s[i..i + 2]) <= hi
  }

  /** "-MM-DDTHH:mm:ss" at offset `o`, each field within the ranges of the source's regular expression. */
  predicate TailAt(s: string, o: nat)
    requires o + 15 <= |s|
  {
    && s[o] == '-' && TwoDigitsIn(s, o + 1, 1, 12) && s[o + 3] == '-' && TwoDigitsIn(s, o + 4, 1, 31)
    && s[o + 6] == 'T' && TwoDigitsIn(s, o + 7, 0, 23) && s[o + 9] == ':' && TwoDigitsIn(s, o + 10, 0, 59)
    && s[o + 12] == ':' && TwoDigitsIn(s, o + 13, 0, 59)
  }

  /** ^\d{4}-(0[1-9]|1[0-2])-(0[1-9]|[12]\d|3[01])T([01]\d|2[0-3]):([0-5]\d):([0-5]\d)(\.\d{1,3})?Z$ */
  predicate MatchesIsoPattern(s: string)
  {
    && (|s| == 20 || 22 <= |s| <= 24)
    && AllDigits(s[..4]) && TailAt(s, 4) && s[|s| - 1] == 'Z'
    && (|s| > 20 ==> s[19] == '.' && AllDigits(s[20..|s| - 1]))
  }

  /** ±YYYYYY-MM-DDTHH:mm:ss.sssZ, the form toISOString writes outside years 0..9999. */
  predicate MatchesExtendedPattern(s: string)
  {
    && |s| == 27 && (s[0] == '+' || s[0] == '-') && AllDigits(s[1..7])
    && TailAt(s, 7) && s[22] == '.' && AllDigits(s[23..26]) && s[26] == 'Z'
  }

  function FieldsAt(s: string, o: nat, year: int, millis: int): (f: DateTime)
    requires o + 15 <= |s| && TailAt(s, o)
    ensures 1 <= f.month <= 12
  {
    DateTime(year, DigitsValue(s[o + 1..o + 3]), DigitsValue(s[o + 4..o + 6]),
             DigitsValue(s[o + 7..o + 9]), DigitsValue(s[o + 10..o + 12]), DigitsValue(s[o + 13..o + 15]),
             millis)
  }

  /** The fields a string of the strict pattern names; one to three fraction digits are milliseconds. */
  function IsoFields(s: string): (f: DateTime)
    requires MatchesIsoPattern(s)
    ensures 1 <= f.month <= 12
  {
    var millis := if |s| == 20 then 0 else DigitsValue(s[20..|s| - 1]) * Pow10(3 - (|s| - 21));
    FieldsAt(s, 4, DigitsValue(s[..4]), millis)
  }

  function ExtendedFields(s: string): (f: DateTime)
    requires MatchesExtendedPattern(s)
    ensures 1 <= f.month <= 12
  {
    var mag: int := DigitsValue(s[1..7]);
    var year: int := if s[0] == '-' then -mag else mag;
    FieldsAt(s, 7, year, DigitsValue(s[23..26]))
  }

  /** TimeClip: outside the Date range the value is NaN (None). */
  function TimeClip(t: int): Option<int>
  {
    if -MaxTimeValue <= t <= MaxTimeValue then Some(t) else None
  }

  /** `new Date(s).getTime()` for the ISO shapes; None stands for NaN. */
  function ParseDate(s: string): Option<int>
  {
    if MatchesIsoPattern(s) then TimeClip(TimeValue(IsoFields(s)))
    else if MatchesExtendedPattern(s) then TimeClip(TimeValue(ExtendedFields(s)))
    else None
  }

  // ---------------------------------------------------------------------
  // Round trips between fields and text

  lemma {:induction false} ZeroPadOfDigits(x: string)
    requires AllDigits(x)
    ensures ZeroPad(DigitsValue(x), |x|) == x
  {
    if x != [] {
      var init := x[..|x| - 1];
      var v := DigitsValue(x);
      DivModUnique(v, 10, DigitsValue(init), DigitValue(x[|x| - 1]));
      ZeroPadOfDigits(init);
      assert x == init + [x[|x| - 1]];
    }
  }

  lemma TailTextParts(f: DateTime, s: string, o: nat)
    requires ValidFields(f) && o + 20 == |s| && s[o..] == TailText(f)
    ensures s[o] == '-' && s[o + 1..o + 3] == ZeroPad(f.month, 2) && s[o + 3] == '-'
    ensures s[o + 4..o + 6] == ZeroPad(f.day, 2) && s[o + 6] == 'T'
    ensures s[o + 7..o + 9] == ZeroPad(f.hour, 2) && s[o + 9] == ':'
    ensures s[o + 10..o + 12] == ZeroPad(f.minute, 2) && s[o + 12] == ':'
    ensures s[o + 13..o + 15] == ZeroPad(f.second, 2) && s[o + 15] == '.'
    ensures s[o + 16..o + 19] == ZeroPad(f.millis, 3) && s[o + 19] == 'Z'
  {
    var t := s[o..];
    assert s[o + 1..o + 3] == t[1..3];
    assert s[o + 4..o + 6] == t[4..6];
    assert s[o + 7..o + 9] == t[7..9];
    assert s[o + 10..o + 12] == t[10..12];
    assert s[o + 13..o + 15] == t[13..15];
    assert s[o + 16..o + 19] == t[16..19];
  }

  /** The tail written for valid fields is read back as those fields. */
  lemma TailRoundTrip(f: DateTime, s: string, o: nat)
    requires ValidFields(f) && o + 20 == |s| && s[o..] == TailText(f)
    ensures TailAt(s, o) && s[o + 15] == '.' && AllDigits(s[o + 16..o + 19]) && s[o + 19] == 'Z'
    ensures FieldsAt(s, o, f.year, DigitsValue(s[o + 16..o + 19])) == f
  {
    TailTextParts(f, s, o);
    ZeroPadValue(f.month, 2);
    ZeroPadValue(f.day, 2);
    ZeroPadValue(f.hour, 2);
    ZeroPadValue(f.minute, 2);
    ZeroPadValue(f.second, 2);
    ZeroPadValue(f.millis, 3);
  }

  /** Written text of a year 0..9999 is read back by the strict pattern. */
  lemma IsoRoundTrip(f: DateTime)
    requires ValidFields(f) && 0 <= f.year <= 9999
    ensures MatchesIsoPattern(Render(f)) && |Render(f)| == 24 && IsoFields(Render(f)) == f
  {
    var s := Render(f);
    assert s[..4] == YearText(f.year) && s[4..] == TailText(f);
    TailRoundTrip(f, s, 4);
    ZeroPadValue(f.year, 4);
    assert s[20..|s| - 1] == s[20..23];
  }

  /** Written text of any other year is read back by the extended pattern. */
  lemma ExtendedRoundTrip(f: DateTime)
    requires ValidFields(f) && !(0 <= f.year <= 9999) && -1000000 < f.year < 1000000
    ensures !MatchesIsoPattern(Render(f))
    ensures MatchesExtendedPattern(Render(f)) && ExtendedFields(Render(f)) == f
  {
    var s := Render(f);
    assert s[..7] == YearText(f.year) && s[7..] == TailText(f);
    ExtendedYearRoundTrip(f.year, s);
    assert s[..4][0] == s[0];
    TailRoundTrip(f, s, 7);
  }

  /** A signed six-digit year reads back as itself. */
  lemma ExtendedYearRoundTrip(y: int, s: string)
    requires !(0 <= y <= 9999) && -1000000 < y < 1000000
    requires |s| >= 7 && s[..7] == YearText(y)
    ensures (s[0] == '+' || s[0] == '-') && !IsDigit(s[0]) && AllDigits(s[1..7])
    ensures var mag: int := DigitsValue(s[1..7]); (if s[0] == '-' then -mag else mag) == y
  {
    var m := if y < 0 then -y else y;
    assert s[0] == YearText(y)[0] && s[1..7] == YearText(y)[1..];
    assert YearText(y)[1..] == ZeroPad(m, 6);
    ZeroPadValue(m, 6);
  }

  /** Parsing what toISOString wrote gives the time value back. */
  lemma ParseOfToISOString(t: int)
    requires -MaxTimeValue <= t <= MaxTimeValue
    ensures ToISOString(t).Some? && ParseDate(ToISOString(t).value) == Some(t)
  {
    var f := Fields(t);
    if 0 <= f.year <= 9999 {
      IsoRoundTrip(f);
    } else {
      YearInRange(t);
      ExtendedRoundTrip(f);
    }
  }
}
