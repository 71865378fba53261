/** Turning the timestamp cells of an export row into calendar text. The
    sync script accepts ISO dates, Unix seconds and Unix milliseconds; the
    revision reads only whole seconds and falls back to a given "today"; the
    sheet export writes a full UTC datetime or passes the cell through. */
module Timestamps {
  import opened Text
  import opened Calendar
  import opened Scores

  /** Values above this are read as milliseconds. */
  const SecondsThreshold: int := 10_000_000_000
  /** Values at or below this are rejected as too small. */
  const MinimumSeconds: int := 1_000_000_000

  /** What `parse_timestamp_to_date` comes to: a date text or none, or an
      `OverflowError` from `datetime.fromtimestamp`, which its
      `except (ValueError, TypeError, OSError)` does not catch. */
  datatype DateOutcome = Raised | Parsed(date: Option<string>)

  /** A C `time_t` has 64 bits: `datetime.fromtimestamp` raises
      `OverflowError` for a whole second outside [-2^63, 2^63). */
  const TimeTLimit: int := 0x8000_0000_0000_0000

  /** The whole second `datetime.fromtimestamp` takes from `x` seconds. The
      fraction is rounded to microseconds, ties to even, and a fraction that
      rounds up to a full million microseconds carries into the next second. */
  function InstantSecond(x: real): (s: int)
    ensures x.Floor <= s <= x.Floor + 1
    ensures s == x.Floor + 1 <==> x - x.Floor as real >= 0.9999995
    ensures s as real - 0.0000005 <= x < s as real + 0.9999995
  {
    var n := RoundHalfEven(x * 1000000.0);
    MicrosecondBounds(x, n);
    var s := n / 1000000;
    assert s == if n == (x.Floor + 1) * 1000000 then x.Floor + 1 else x.Floor by {
      DivideWithin(n, x.Floor);
    }
    s
  }

  /** The instant rounded to microseconds stays within the second `x` falls
      in, or reaches the next exactly when the fraction is 0.9999995 or more
      (a tie there goes up, to the even count). */
  lemma MicrosecondBounds(x: real, n: int)
    requires -0.5 <= n as real - x * 1000000.0 <= 0.5
    requires n as real - x * 1000000.0 == 0.5 || x * 1000000.0 - n as real == 0.5 ==> n % 2 == 0
    ensures x.Floor * 1000000 <= n <= (x.Floor + 1) * 1000000
    ensures n == (x.Floor + 1) * 1000000 <==> x - x.Floor as real >= 0.9999995
  {
    var f := x.Floor;
    var lo := f * 1000000;
    var d := (x - f as real) * 1000000.0;
    var k := n - lo;
    assert n as real - x * 1000000.0 == k as real - d by {
    }
    assert n % 2 == k % 2 by {
      assert lo == 2 * (f * 500000);
    }
    RoundWithinSecond(k, d);
    assert n == (f + 1) * 1000000 <==> k == 1000000;
    assert d >= 999999.5 <==> x - f as real >= 0.9999995;
  }

  /** The microsecond count `k` rounded from a fraction of `d` microseconds. */
  lemma RoundWithinSecond(k: int, d: real)
    requires 0.0 <= d < 1000000.0
    requires -0.5 <= k as real - d <= 0.5
    requires k as real - d == 0.5 || d - k as real == 0.5 ==> k % 2 == 0
    ensures 0 <= k <= 1000000
    ensures k == 1000000 <==> d >= 999999.5
  {
  }

  lemma DivideWithin(n: int, f: int)
    requires f * 1000000 <= n <= (f + 1) * 1000000
    ensures n / 1000000 == if n == (f + 1) * 1000000 then f + 1 else f
  {
  }

  /** The UTC date of an instant given as a real number of seconds, `None`
      where Python's `ValueError` or `OSError` says the year leaves
      1..9999. The day is the one the instant falls on once rounded to
      microseconds. */
  function UtcDateOfInstant(x: real): (r: Option<Date>)
    ensures r.Some? ==> ValidDate(r.value) && InPythonRange(r.value)
    ensures r.Some? ==>
      (DaysFromCivil(r.value) * SecondsPerDay) as real - 0.0000005 <= x < ((DaysFromCivil(r.value) + 1) * SecondsPerDay) as real - 0.0000005
  {
    UtcDateOfSeconds(InstantSecond(x))
  }

  /** `datetime.fromtimestamp(x, tz=timezone.utc).date().isoformat()` inside
      the `try`: an out-of-range `time_t` raises out of the function, a year
      outside 1..9999 is caught and `fallback` (the `fromisoformat` attempt)
      decides. */
  function InstantDate(x: real, fallback: Option<string>): (r: DateOutcome)
    ensures r.Raised? <==> !(-TimeTLimit <= InstantSecond(x) < TimeTLimit)
    ensures r.Parsed? && UtcDateOfInstant(x).Some? ==> r.date == Some(IsoDate(UtcDateOfInstant(x).value))
    ensures r.Parsed? && UtcDateOfInstant(x).None? ==> r.date == fallback
  {
    if !(-TimeTLimit <= InstantSecond(x) < TimeTLimit) then Raised
    else
      match UtcDateOfInstant(x)
      case Some(d) => Parsed(Some(IsoDate(d)))
      case None => Parsed(fallback)
  }

  /** `parse_timestamp_to_date` of the sync script. `ts` is the cell (`None`
      for a missing value); `fromIso` stands for the final
      `datetime.fromisoformat` attempt on the stripped text, which this model
      leaves abstract. */
  function ParseTimestampToDate(ts: Option<string>, fromIso: string -> Option<string>): (r: DateOutcome)
    ensures ts.None? ==> r == Parsed(None)
    ensures ts.Some? && (Strip(ts.value) == "" || Strip(ts.value) == "0") ==> r == Parsed(None)
    ensures ts.Some? && Contains(Strip(ts.value), "-") && IsIsoDateShape(Strip(ts.value)) ==>
      r == Parsed(Some(Strip(ts.value)[..10]))
  {
    if ts.None? then Parsed(None)
    else
      var t := Strip(ts.value);
      if t == "" || t == "0" then Parsed(None)
      else if Contains(t, "-") && |t| >= 10 && IsIsoDateShape(t) then Parsed(Some(t[..10]))
      else
        match ParseDecimal(t)
        case None => Parsed(fromIso(t))
        case Some(v) => NumericTimestampDate(v, fromIso(t))
  }

  /** The numeric branch: milliseconds above ten billion, seconds above one
      billion, and nothing for smaller values. A value read as seconds is
      too small to overflow. */
  function NumericTimestampDate(v: real, fallback: Option<string>): (r: DateOutcome)
    ensures v <= MinimumSeconds as real ==> r == Parsed(None)
    ensures v > SecondsThreshold as real ==> r == InstantDate(v / 1000.0, fallback)
    ensures MinimumSeconds as real < v <= SecondsThreshold as real ==>
      r == InstantDate(v, fallback) && r.Parsed?
  {
    if v <= 0.0 then Parsed(None)
    else if v > SecondsThreshold as real then InstantDate(v / 1000.0, fallback)
    else if v > MinimumSeconds as real then InstantDate(v, fallback)
    else Parsed(None)
  }

  /** Only a number read as milliseconds can raise: one read as seconds is
      too small to overflow `time_t`. */
  lemma OnlyMillisecondsRaise(ts: Option<string>, fromIso: string -> Option<string>)
    ensures ParseTimestampToDate(ts, fromIso).Raised? ==>
      ts.Some? && ParseDecimal(Strip(ts.value)).Some? && ParseDecimal(Strip(ts.value)).value > SecondsThreshold as real
  {
  }

  /** A millisecond count at or beyond 2^63 seconds overflows `time_t`: the
      error leaves `parse_timestamp_to_date`. */
  lemma {:induction false} HugeMillisecondsRaise(v: nat, fromIso: string -> Option<string>)
    requires v >= 1000 * TimeTLimit
    ensures ParseTimestampToDate(Some(NatToString(v)), fromIso) == Raised
  {
    NumericPath(v, fromIso);
    FloorOfThousandth(v);
  }

  /** 0.4 microseconds before midnight rounds up to midnight: 1731484799.9999996
      seconds is dated 2024-11-13, the day after the second it falls in. */
  lemma CarryIntoNextDay(fallback: Option<string>)
    ensures NumericTimestampDate(1731484799.9999996, fallback) == Parsed(Some(IsoDate(Date(2024, 11, 13))))
  {
    var x := 1731484799.9999996;
    assert x.Floor == 1731484799;
    assert InstantSecond(x) == 1731484800;
    DateOf1731484800(1731484800);
  }

  /** 1731484800 seconds after the epoch begin 2024-11-13 (UTC). */
  lemma DateOf1731484800(t: int)
    requires t == 1731484800
    ensures UtcDateOfSeconds(t) == Some(Date(2024, 11, 13))
  {
    var d := Date(2024, 11, 13);
    assert DaysFromCivil(d) == 20040;
    CivilRoundTrip(d);
  }

  /** Plain decimal text of a natural number takes the numeric path. */
  lemma NumericText(v: nat)
    ensures Strip(NatToString(v)) == NatToString(v)
    ensures !Contains(NatToString(v), "-")
    ensures ParseDecimal(NatToString(v)) == Some(v as real)
    ensures !IsIsoDateShape(NatToString(v))
  {
    var s := NatToString(v);
    assert |s| >= 10 ==> IsDigit(s[4]);
    assert TrimLeft(s) == s;
    assert TrimRight(s) == s;
    assert '-' !in s;
    NotContainsByChar(s, "-", '-');
    ParseIntOfNatToString(v);
    ParseDecimalOfInteger(s);
  }

  /** Decimal text of a natural number goes to the numeric branch. */
  lemma NumericPath(v: nat, fromIso: string -> Option<string>)
    ensures ParseTimestampToDate(Some(NatToString(v)), fromIso) == NumericTimestampDate(v as real, fromIso(NatToString(v)))
  {
    NumericText(v);
  }

  /** A number of seconds above one billion and at most ten billion gives
      its UTC date. */
  lemma {:induction false} SecondsGiveTheirDate(v: nat, fromIso: string -> Option<string>)
    requires MinimumSeconds < v <= SecondsThreshold
    ensures UtcDateOfSeconds(v).Some?
    ensures ParseTimestampToDate(Some(NatToString(v)), fromIso) == Parsed(Some(IsoDate(UtcDateOfSeconds(v).value)))
  {
    NumericPath(v, fromIso);
    UtcDateInRange(v);
    assert (v as real).Floor == v;
  }

  /** A number above ten billion is read as milliseconds: it gives the date
      of `v div 1000` seconds. */
  lemma {:induction false} MillisecondsGiveTheirDate(v: nat, fromIso: string -> Option<string>)
    requires v > SecondsThreshold && UtcDateOfSeconds(v / 1000).Some?
    ensures ParseTimestampToDate(Some(NatToString(v)), fromIso) == Parsed(Some(IsoDate(UtcDateOfSeconds(v / 1000).value)))
  {
    NumericPath(v, fromIso);
    FloorOfThousandth(v);
    UtcDateInRange(v / 1000);
  }

  /** A whole number of milliseconds is a whole second plus at most 0.999:
      no carry. */
  lemma FloorOfThousandth(v: nat)
    ensures InstantSecond(v as real / 1000.0) == v / 1000
  {
    var q := v / 1000;
    var x := v as real / 1000.0;
    assert q as real * 1000.0 <= v as real <= q as real * 1000.0 + 999.0;
    assert x.Floor == q;
    assert x - q as real <= 0.999;
  }

  /** Positive numbers up to one billion are rejected. */
  lemma {:induction false} SmallNumbersRejected(v: nat, fromIso: string -> Option<string>)
    requires v <= MinimumSeconds
    ensures ParseTimestampToDate(Some(NatToString(v)), fromIso) == Parsed(None)
  {
    NumericText(v);
  }

  /** The same instant in seconds and in milliseconds gives the same day:
      2024-11-12. */
  lemma SecondsAndMillisecondsAgree(fromIso: string -> Option<string>)
    ensures ParseTimestampToDate(Some(NatToString(1731398400)), fromIso) == Parsed(Some(IsoDate(Date(2024, 11, 12))))
    ensures ParseTimestampToDate(Some(NatToString(1731398400000)), fromIso) == Parsed(Some(IsoDate(Date(2024, 11, 12))))
  {
    DateOf1731398400(1731398400);
    SecondsGiveTheirDate(1731398400, fromIso);
    assert 1731398400000 / 1000 == 1731398400;
    MillisecondsGiveTheirDate(1731398400000, fromIso);
  }

  /** `metric_date` of the revision: `int(ts)` read as Unix seconds, and the
      supplied `today` whenever that raises: text that is no integer, or a
      year outside 1..9999. */
  function RevisionMetricDate(ts: string, today: string): (r: string)
    ensures ParseInt(ts).None? ==> r == today
    ensures ParseInt(ts).Some? && UtcDateOfSeconds(ParseInt(ts).value).Some? ==>
      r == IsoDate(UtcDateOfSeconds(ParseInt(ts).value).value)
    ensures ParseInt(ts).Some? && UtcDateOfSeconds(ParseInt(ts).value).None? ==> r == today
  {
    match ParseInt(ts)
    case None => today
    case Some(i) =>
      match UtcDateOfSeconds(i)
      case Some(d) => IsoDate(d)
      case None => today
  }

  /** The revision has no millisecond detection: a millisecond timestamp of
      today's era is read as seconds beyond the year 9999, so the row gets
      `today`. */
  lemma {:induction false} RevisionMillisecondsGiveToday(v: nat, today: string)
    requires v >= FirstSecondAfterMaxYear
    ensures RevisionMetricDate(NatToString(v), today) == today
  {
    ParseIntOfNatToString(v);
    UtcDateInRange(v);
  }

  /** `datetime.fromtimestamp(int(ts), tz=timezone.utc).isoformat()` in
      `map_row_to_canonical`, or the cell itself when that raises. */
  function CanonicalTimestamp(ts: string): (r: string)
    ensures ParseInt(ts).None? ==> r == ts
    ensures ParseInt(ts).Some? && UtcDateOfSeconds(ParseInt(ts).value).Some? ==>
      |r| == 25 && r[..10] == IsoDate(UtcDateOfSeconds(ParseInt(ts).value).value)
      && r[10] == 'T' && r[19..] == "+00:00"
      && ClockReads(r[11..19], ParseInt(ts).value
                               - DaysFromCivil(UtcDateOfSeconds(ParseInt(ts).value).value) * SecondsPerDay)
    ensures ParseInt(ts).Some? && UtcDateOfSeconds(ParseInt(ts).value).None? ==> r == ts
  {
    match ParseInt(ts)
    case None => ts
    case Some(i) =>
      match IsoDateTime(i)
      case Some(s) => s
      case None => ts
  }
}
