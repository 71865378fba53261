/** UTC calendar arithmetic behind `datetime.fromtimestamp(t, tz=timezone.utc)`:
    POSIX time counts 86400 seconds per day from 1970-01-01 (POSIX.1-2017 Base
    Definitions, section 4.16, "Seconds Since the Epoch"), and days map onto
    the proleptic Gregorian calendar. Python's `datetime` only represents the
    years 1 to 9999 and raises outside them. */
module Calendar {
  import opened Text

  predicate IsLeap(y: int) {
    y % 4 == 0 && (y % 100 != 0 || y % 400 == 0)
  }

  function DaysInYear(y: int): nat {
    if IsLeap(y) then 366 else 365
  }

  function DaysInMonth(y: int, m: int): nat
    requires 1 <= m <= 12
  {
    if m == 2 then (if IsLeap(y) then 29 else 28)
    else if m == 4 || m == 6 || m == 9 || m == 11 then 30
    else 31
  }

  /** Days from 1970-01-01 to the first of January of year `y`; negative
      for years before 1970. Closed form: 365 days a year plus one for every
      leap year in between. */
  function DaysBeforeYear(y: int): int {
    var p := y - 1;
    365 * (y - 1970) + (p / 4 - p / 100 + p / 400) - 477
  }

  /** Days from the first of January to the first day of month `m`. */
  function DaysBeforeMonth(y: int, m: int): nat
    requires 1 <= m <= 12
  {
    var common := [0, 31, 59, 90, 120, 151, 181, 212, 243, 273, 304, 334][m - 1];
    common + (if m > 2 && IsLeap(y) then 1 else 0)
  }

  lemma DivStep4(y: int)
    ensures y / 4 - (y - 1) / 4 == if y % 4 == 0 then 1 else 0
  {
  }

  lemma DivStep100(y: int)
    ensures y / 100 - (y - 1) / 100 == if y % 100 == 0 then 1 else 0
  {
  }

  lemma DivStep400(y: int)
    ensures y / 400 - (y - 1) / 400 == if y % 400 == 0 then 1 else 0
  {
  }

  /** Consecutive years abut: year `y` occupies exactly `DaysInYear(y)` days. */
  lemma NextYear(y: int)
    ensures DaysBeforeYear(y + 1) == DaysBeforeYear(y) + DaysInYear(y)
  {
    var p := y - 1;
    DivStep4(y);
    DivStep100(y);
    DivStep400(y);
    assert DaysBeforeYear(y + 1) - DaysBeforeYear(y)
      == 365 + (y / 4 - p / 4) - (y / 100 - p / 100) + (y / 400 - p / 400) by {
    }
  }

  lemma {:induction false} YearsMonotone(a: int, b: int)
    requires a <= b
    ensures DaysBeforeYear(a) <= DaysBeforeYear(b)
    decreases b - a
  {
    if a < b {
      NextYear(a);
      YearsMonotone(a + 1, b);
    }
  }

  lemma NextMonth(y: int, m: int)
    requires 1 <= m <= 12
    ensures m < 12 ==> DaysBeforeMonth(y, m + 1) == DaysBeforeMonth(y, m) + DaysInMonth(y, m)
    ensures m == 12 ==> DaysBeforeMonth(y, m) + DaysInMonth(y, m) == DaysInYear(y)
  {
  }

  datatype Date = Date(year: int, month: int, day: int)

  predicate ValidDate(d: Date) {
    1 <= d.month <= 12 && 1 <= d.day <= DaysInMonth(d.year, d.month)
  }

  /** Day number (days since 1970-01-01) of a calendar date. */
  function DaysFromCivil(d: Date): int
    requires ValidDate(d)
  {
    DaysBeforeYear(d.year) + DaysBeforeMonth(d.year, d.month) + d.day - 1
  }

  function YearUp(y: int, n: int): (r: int)
    requires DaysBeforeYear(y) <= n
    ensures DaysBeforeYear(r) <= n < DaysBeforeYear(r + 1)
    decreases n - DaysBeforeYear(y)
  {
    NextYear(y);
    if n < DaysBeforeYear(y + 1) then y else YearUp(y + 1, n)
  }

  function YearDown(y: int, n: int): (r: int)
    requires n < DaysBeforeYear(y + 1)
    ensures DaysBeforeYear(r) <= n < DaysBeforeYear(r + 1)
    decreases DaysBeforeYear(y + 1) - n
  {
    NextYear(y);
    if DaysBeforeYear(y) <= n then y else YearDown(y - 1, n)
  }

  /** The year whose days include day number `n`. */
  function YearOfDay(n: int): (y: int)
    ensures DaysBeforeYear(y) <= n < DaysBeforeYear(y + 1)
  {
    if n >= 0 then YearUp(1970, n) else YearDown(1969, n)
  }

  function MonthFrom(y: int, d: int, m: int): (r: int)
    requires 1 <= m <= 12 && DaysBeforeMonth(y, m) <= d < DaysInYear(y)
    ensures m <= r <= 12
    ensures DaysBeforeMonth(y, r) <= d < DaysBeforeMonth(y, r) + DaysInMonth(y, r)
    decreases 12 - m
  {
    NextMonth(y, m);
    if d < DaysBeforeMonth(y, m) + DaysInMonth(y, m) then m else MonthFrom(y, d, m + 1)
  }

  /** The calendar date of day number `n`: a valid date whose day number is
      `n`. */
  function CivilFromDays(n: int): (d: Date)
    ensures ValidDate(d) && DaysFromCivil(d) == n
  {
    var y := YearOfDay(n);
    NextYear(y);
    var doy := n - DaysBeforeYear(y);
    var m := MonthFrom(y, doy, 1);
    Date(y, m, doy - DaysBeforeMonth(y, m) + 1)
  }

  lemma YearUnique(y1: int, y2: int, n: int)
    requires DaysBeforeYear(y1) <= n < DaysBeforeYear(y1 + 1)
    requires DaysBeforeYear(y2) <= n < DaysBeforeYear(y2 + 1)
    ensures y1 == y2
  {
    if y1 < y2 {
      YearsMonotone(y1 + 1, y2);
    } else if y2 < y1 {
      YearsMonotone(y2 + 1, y1);
    }
  }

  lemma MonthUnique(y: int, m1: int, m2: int, d: int)
    requires 1 <= m1 <= 12 && 1 <= m2 <= 12
    requires DaysBeforeMonth(y, m1) <= d < DaysBeforeMonth(y, m1) + DaysInMonth(y, m1)
    requires DaysBeforeMonth(y, m2) <= d < DaysBeforeMonth(y, m2) + DaysInMonth(y, m2)
    ensures m1 == m2
  {
  }

  /** Converting a valid date to its day number and back gives the date. */
  lemma {:induction false} CivilRoundTrip(d: Date)
    requires ValidDate(d)
    ensures CivilFromDays(DaysFromCivil(d)) == d
  {
    var n := DaysFromCivil(d);
    var c := CivilFromDays(n);
    DayInItsYear(d);
    DayInItsYear(c);
    YearUnique(c.year, d.year, n);
    MonthUnique(d.year, c.month, d.month, n - DaysBeforeYear(d.year));
  }

  /** A valid date's day number lies within the days of its year. */
  lemma DayInItsYear(d: Date)
    requires ValidDate(d)
    ensures DaysBeforeYear(d.year) <= DaysFromCivil(d) < DaysBeforeYear(d.year + 1)
  {
    MonthsWithinYear(d.year, d.month);
    NextYear(d.year);
  }

  lemma MonthsWithinYear(y: int, m: int)
    requires 1 <= m <= 12
    ensures DaysBeforeMonth(y, m) + DaysInMonth(y, m) <= DaysInYear(y)
  {
  }

  /** Day numbers and valid dates are in one-to-one correspondence. */
  lemma DaysFromCivilInjective(a: Date, b: Date)
    requires ValidDate(a) && ValidDate(b) && DaysFromCivil(a) == DaysFromCivil(b)
    ensures a == b
  {
    CivilRoundTrip(a);
    CivilRoundTrip(b);
  }

  /** Years `datetime.date` can represent (`MINYEAR` to `MAXYEAR`). */
  predicate InPythonRange(d: Date) {
    1 <= d.year <= 9999
  }

  const SecondsPerDay: nat := 86400

  /** `datetime.fromtimestamp(t, tz=timezone.utc).date()`; `None` where the
      year falls outside 1..9999 and Python raises. Division rounds down, so
      instants before 1970 land on the day they belong to. */
  function UtcDateOfSeconds(t: int): (r: Option<Date>)
    ensures r.Some? ==> ValidDate(r.value) && InPythonRange(r.value)
    ensures r.Some? ==> DaysFromCivil(r.value) * SecondsPerDay <= t < (DaysFromCivil(r.value) + 1) * SecondsPerDay
  {
    var d := CivilFromDays(t / SecondsPerDay);
    if InPythonRange(d) then Some(d) else None
  }

  /** `date.isoformat()`: four-digit year, two-digit month and day. The
      result has the shape of an RFC 3339 `full-date`. */
  function IsoDate(d: Date): (s: string)
    requires ValidDate(d) && InPythonRange(d)
    ensures |s| == 10 && IsIsoDateShape(s)
    ensures DigitsValue(s[..4]) == d.year && DigitsValue(s[5..7]) == d.month && DigitsValue(s[8..10]) == d.day
  {
    var y, m, dd := PadNat(d.year, 4), PadNat(d.month, 2), PadNat(d.day, 2);
    var s := y + "-" + m + "-" + dd;
    assert s[..4] == y && s[5..7] == m && s[8..10] == dd;
    s
  }

  /** `DDDD-DD-DD`, the text `^(\d{4})-(\d{2})-(\d{2})` matches. */
  predicate IsIsoDateShape(s: string) {
    |s| >= 10
    && AllDigits(s[..4]) && s[4] == '-' && AllDigits(s[5..7]) && s[7] == '-' && AllDigits(s[8..10])
  }

  /** `datetime.fromtimestamp(t, tz=timezone.utc).isoformat()` for a whole
      number of seconds: `YYYY-MM-DDTHH:MM:SS+00:00`. */
  function IsoDateTime(t: int): (r: Option<string>)
    ensures r.Some? <==> UtcDateOfSeconds(t).Some?
    ensures r.Some? ==> |r.value| == 25 && r.value[..10] == IsoDate(UtcDateOfSeconds(t).value)
    ensures r.Some? ==> r.value[10] == 'T' && r.value[19..] == "+00:00"
    ensures r.Some? ==> ClockReads(r.value[11..19], t - DaysFromCivil(UtcDateOfSeconds(t).value) * SecondsPerDay)
  {
    match UtcDateOfSeconds(t)
    case None => None
    case Some(d) =>
      var clock := ClockText(t % SecondsPerDay);
      var s := IsoDate(d) + "T" + clock + "+00:00";
      assert s[..10] == IsoDate(d) && s[11..19] == clock && s[19..] == "+00:00";
      assert t / SecondsPerDay == DaysFromCivil(d);
      Some(s)
  }

  /** The `HH:MM:SS` part of `isoformat()` for `secs` seconds after midnight. */
  function ClockText(secs: int): (s: string)
    requires 0 <= secs < SecondsPerDay
    ensures ClockReads(s, secs)
  {
    var hh, mm, ss := PadNat(secs / 3600, 2), PadNat(secs % 3600 / 60, 2), PadNat(secs % 60, 2);
    var s := hh + ":" + mm + ":" + ss;
    assert s[..2] == hh && s[3..5] == mm && s[6..] == ss;
    s
  }

  /** `HH:MM:SS` on a 24-hour clock reading `secs` seconds after midnight. */
  predicate ClockReads(s: string, secs: int) {
    |s| == 8 && s[2] == ':' && s[5] == ':'
    && AllDigits(s[..2]) && AllDigits(s[3..5]) && AllDigits(s[6..])
    && DigitsValue(s[..2]) < 24 && DigitsValue(s[3..5]) < 60 && DigitsValue(s[6..]) < 60
    && DigitsValue(s[..2]) * 3600 + DigitsValue(s[3..5]) * 60 + DigitsValue(s[6..]) == secs
  }

  /** First instant (in seconds) whose year Python can no longer represent:
      0001-01-01 is day -719162 and 10000-01-01 is day 2932897. */
  const FirstSecondAfterMaxYear: int := 253402300800
  const FirstSecondOfMinYear: int := -62135596800

  lemma YearBounds(lo: int, hi: int, n: int)
    requires DaysBeforeYear(lo) <= n < DaysBeforeYear(hi)
    ensures lo <= YearOfDay(n) < hi
  {
    var y := YearOfDay(n);
    if y < lo {
      YearsMonotone(y + 1, lo);
    }
    if y >= hi {
      YearsMonotone(hi, y);
    }
  }

  /** `datetime.fromtimestamp` succeeds exactly on the instants of the
      years 1 to 9999. */
  lemma {:induction false} UtcDateInRange(t: int)
    ensures UtcDateOfSeconds(t).Some? <==> FirstSecondOfMinYear <= t < FirstSecondAfterMaxYear
  {
    var n := t / SecondsPerDay;
    assert DaysBeforeYear(1) == -719162;
    assert DaysBeforeYear(10000) == 2932897;
    if FirstSecondOfMinYear <= t < FirstSecondAfterMaxYear {
      YearBounds(1, 10000, n);
    } else if t < FirstSecondOfMinYear {
      YearBounds(YearOfDay(n), 1, n);
    } else {
      YearBounds(10000, YearOfDay(n) + 1, n);
    }
  }

  /** 1731398400 seconds after the epoch fall on 2024-11-12 (UTC). */
  lemma DateOf1731398400(t: int)
    requires t == 1731398400
    ensures UtcDateOfSeconds(t) == Some(Date(2024, 11, 12))
  {
    var d := Date(2024, 11, 12);
    assert DaysFromCivil(d) == 20039;
    CivilRoundTrip(d);
  }
}
