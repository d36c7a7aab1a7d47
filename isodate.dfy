/**
 * JavaScript `Date` time values and their ISO 8601 text form
 * (`Date.prototype.toISOString`, `YYYY-MM-DDTHH:mm:ss.sssZ`, with the
 * six-digit signed year outside 0000..9999), in the proleptic Gregorian
 * calendar, UTC.
 *
 * Day numbers are days since 1970-01-01. Years are split into 400-year
 * cycles of 146097 days each, which start on 1 January of a year divisible
 * by 400; within a cycle the year and the day of the year are found by
 * walking forward one year at a time.
 */
module IsoDate {
  import opened Optional
  import opened JsString

  const MsPerDay: int := 86_400_000
  const MaxTime: int := 8_640_000_000_000_000
  const DaysPerCycle: int := 146097
  /** Days from 0000-01-01 to 1970-01-01. */
  const EpochDay: int := 719528

  /** A time value a JavaScript `Date` can hold: milliseconds since 1970-01-01T00:00:00Z. */
  type Instant = t: int | -MaxTime <= t <= MaxTime

  predicate IsLeap(y: int)
  {
    y % 4 == 0 && (y % 100 != 0 || y % 400 == 0)
  }

  function DaysInYear(y: int): int
  {
    if IsLeap(y) then 366 else 365
  }

  function DaysInMonth(y: int, m: int): int
    requires 1 <= m <= 12
  {
    if m == 2 then (if IsLeap(y) then 29 else 28)
    else if m == 4 || m == 6 || m == 9 || m == 11 then 30
    else 31
  }

  /** Days in year `y` before the first of month `m`. */
  function DaysBeforeMonth(y: int, m: int): int
    requires 1 <= m <= 12
  {
    [0, 31, 59, 90, 120, 151, 181, 212, 243, 273, 304, 334][m - 1]
      + (if m > 2 && IsLeap(y) then 1 else 0)
  }

  lemma DaysBeforeMonthStep(y: int, m: int)
    requires 1 <= m < 12
    ensures DaysBeforeMonth(y, m + 1) == DaysBeforeMonth(y, m) + DaysInMonth(y, m)
  {
  }

  lemma DaysBeforeMonthLast(y: int)
    ensures DaysBeforeMonth(y, 12) + DaysInMonth(y, 12) == DaysInYear(y)
  {
  }

  /** Days from the start of a 400-year cycle to 1 January of its year `y`. */
  function DaysBeforeYear(y: nat): nat
  {
    365 * y + (y + 3) / 4 - (y + 99) / 100 + (y + 399) / 400
  }

  lemma {:induction false} DaysBeforeYearStep(y: nat)
    ensures DaysBeforeYear(y + 1) == DaysBeforeYear(y) + DaysInYear(y)
  {
    LeapCount(y);
  }

  /** Year `y` adds one to the count of leap years before it exactly when it is a leap year. */
  lemma {:induction false} LeapCount(y: nat)
    ensures (y + 4) / 4 - (y + 100) / 100 + (y + 400) / 400
      == (y + 3) / 4 - (y + 99) / 100 + (y + 399) / 400 + (if IsLeap(y) then 1 else 0)
  {
    CeilStep(y);
    DivisorChain(y);
  }

  /** Multiples of 400 are multiples of 100, and multiples of 100 are multiples of 4. */
  lemma DivisorChain(y: int)
    ensures y % 400 == 0 ==> y % 100 == 0
    ensures y % 100 == 0 ==> y % 4 == 0
  {
    if y % 100 == 0 {
      assert y == 4 * (25 * (y / 100));
    }
    if y % 400 == 0 {
      assert y == 100 * (4 * (y / 400));
    }
  }



  /** Rounding `y / d` up gains one exactly when `y` is a multiple of `d`, for `d` = 4, 100, 400. */
  lemma {:induction false} CeilStep(y: nat)
    ensures (y + 4) / 4 - (y + 3) / 4 == if y % 4 == 0 then 1 else 0
    ensures (y + 100) / 100 - (y + 99) / 100 == if y % 100 == 0 then 1 else 0
    ensures (y + 400) / 400 - (y + 399) / 400 == if y % 400 == 0 then 1 else 0
  {
    assert y + 4 == 4 * (y / 4 + 1) + y % 4;
    assert y + 100 == 100 * (y / 100 + 1) + y % 100;
    assert y + 400 == 400 * (y / 400 + 1) + y % 400;
  }



  /** Years repeat their leap pattern every 400 years. */
  lemma LeapCycle(era: int, y: int)
    ensures IsLeap(400 * era + y) == IsLeap(y)
    ensures DaysInYear(400 * era + y) == DaysInYear(y)
  {
    Shift4(100 * era, y);
    Shift100(4 * era, y);
    Shift400(era, y);
  }

  /** Adding a multiple of 4, 100 or 400 keeps the remainder by that divisor. */
  lemma Shift4(m: int, y: int)
    ensures (4 * m + y) % 4 == y % 4
  {
    assert 4 * m + y == 4 * (m + y / 4) + y % 4;
  }

  lemma Shift100(m: int, y: int)
    ensures (100 * m + y) % 100 == y % 100
  {
    assert 100 * m + y == 100 * (m + y / 100) + y % 100;
  }

  lemma Shift400(m: int, y: int)
    ensures (400 * m + y) % 400 == y % 400
  {
    assert 400 * m + y == 400 * (m + y / 400) + y % 400;
  }





  /**
   * The year of the cycle and the day of that year for `day` days after
   * 1 January of year `y` of the cycle.
   */
  function YearOfCycle(day: int, y: nat): (r: (nat, nat))
    requires y <= 399 && 0 <= day && DaysBeforeYear(y) + day < DaysPerCycle
    ensures y <= r.0 <= 399 && r.1 < DaysInYear(r.0)
    ensures DaysBeforeYear(r.0) + r.1 == DaysBeforeYear(y) + day
    decreases 400 - y
  {
    DaysBeforeYearStep(y);
    if day < DaysInYear(y) then
      (y, day)
    else
      assert y < 399;
      YearOfCycle(day - DaysInYear(y), y + 1)
  }

  /** The month and day of the month for `day` days after the first of month `m`. */
  function MonthOfYear(y: int, day: int, m: int): (r: (int, int))
    requires 1 <= m <= 12 && 0 <= day && DaysBeforeMonth(y, m) + day < DaysInYear(y)
    ensures m <= r.0 <= 12 && 1 <= r.1 <= DaysInMonth(y, r.0)
    ensures DaysBeforeMonth(y, r.0) + r.1 - 1 == DaysBeforeMonth(y, m) + day
    decreases 12 - m
  {
    if day < DaysInMonth(y, m) then
      (m, day + 1)
    else
      assert m < 12 by {
        if m == 12 { DaysBeforeMonthLast(y); }
      }
      DaysBeforeMonthStep(y, m);
      MonthOfYear(y, day - DaysInMonth(y, m), m + 1)
  }

  datatype Date = Date(year: int, month: int, day: int)

  /** A calendar date that exists in the proleptic Gregorian calendar. */
  predicate ValidDate(d: Date)
  {
    1 <= d.month <= 12 && 1 <= d.day <= DaysInMonth(d.year, d.month)
  }

  /**
   * The day number of a date (the `MakeDay` of ECMAScript); a day past the
   * end of its month carries into the next month.
   */
  function DayOfDate(d: Date): int
    requires 1 <= d.month <= 12
  {
    DaysPerCycle * (d.year / 400) + DaysBeforeYear(d.year % 400)
      + DaysBeforeMonth(d.year, d.month) + d.day - 1 - EpochDay
  }

  /** The date on day `yd.1` of year `yd.0` of cycle `era`. */
  function DateInCycle(era: int, yd: (nat, nat)): (d: Date)
    requires yd.0 <= 399 && yd.1 < DaysInYear(yd.0)
    ensures ValidDate(d) && d.year == 400 * era + yd.0
    ensures DayOfDate(d) == DaysPerCycle * era + DaysBeforeYear(yd.0) + yd.1 - EpochDay
  {
    var y := 400 * era + yd.0;
    LeapCycle(era, yd.0);
    var md := MonthOfYear(y, yd.1, 1);
    assert y / 400 == era && y % 400 == yd.0;
    Date(y, md.0, md.1)
  }

  /** The calendar date of day number `n` (days since 1970-01-01). */
  function DateOfDay(n: int): (d: Date)
    ensures ValidDate(d)
  {
    DateInCycle((n + EpochDay) / DaysPerCycle, YearOfCycle((n + EpochDay) % DaysPerCycle, 0))
  }

  /** Every day number is the day number of its calendar date. */
  lemma DayOfDateOfDay(n: int)
    ensures DayOfDate(DateOfDay(n)) == n
  {
    var era := (n + EpochDay) / DaysPerCycle;
    var doc := (n + EpochDay) % DaysPerCycle;
    assert n + EpochDay == DaysPerCycle * era + doc;
    var yd := YearOfCycle(doc, 0);
    assert DaysBeforeYear(yd.0) + yd.1 == doc;
  }

  /** The UTC date of instant `t`. */
  function UtcDate(t: Instant): (d: Date)
    ensures ValidDate(d)
  {
    DateOfDay(t / MsPerDay)
  }

  /** The year of a day lies in the 400-year cycle the day falls in. */
  lemma YearOfDay(n: int)
    ensures var era := (n + EpochDay) / DaysPerCycle;
      400 * era <= DateOfDay(n).year <= 400 * era + 399
  {
  }

  lemma YearBounds(t: Instant)
    ensures -300000 < UtcDate(t).year < 300000
  {
    var n := t / MsPerDay;
    assert -100_000_001 <= n <= 100_000_000;
    var era := (n + EpochDay) / DaysPerCycle;
    assert -700 <= era <= 700;
    YearOfDay(n);
  }

  /** The year as `toISOString` writes it. */
  function YearText(y: int): string
  {
    if 0 <= y <= 9999 then PadDigits(y, 4)
    else if y < 0 then "-" + PadDigits(-y, 6)
    else "+" + PadDigits(y, 6)
  }

  /** The part of the ISO string after the year: `-MM-DDTHH:mm:ss.sssZ`. */
  function TailText(month: nat, day: nat, h: nat, mi: nat, sec: nat, ms: nat): (r: string)
    ensures |r| == 20
  {
    DayText(month, day) + ClockText(h, mi, sec, ms)
  }

  /** `-MM-DD` */
  function DayText(month: nat, day: nat): (r: string)
    ensures |r| == 6
  {
    "-" + PadDigits(month, 2) + "-" + PadDigits(day, 2)
  }

  /** `THH:mm:ss.sssZ` */
  function ClockText(h: nat, mi: nat, sec: nat, ms: nat): (r: string)
    ensures |r| == 14
  {
    "T" + PadDigits(h, 2) + ":" + PadDigits(mi, 2) + ":" + PadDigits(sec, 2) + "." + PadDigits(ms, 3) + "Z"
  }

  /** `new Date(t).toISOString()` */
  function IsoString(t: Instant): string
  {
    var d := UtcDate(t);
    var rem := t % MsPerDay;
    var secs := rem / 1000;
    var mins := secs / 60;
    YearText(d.year) + TailText(d.month, d.day, mins / 60, mins % 60, secs % 60, rem % 1000)
  }

  /** The ISO string has at least four year characters before its 20-character tail. */
  lemma IsoLength(t: Instant)
    ensures |IsoString(t)| >= 24
  {
    var d := UtcDate(t);
    assert |YearText(d.year)| >= 4;
  }

  /** The instant of a date and time of day, if a `Date` can hold it. */
  function MakeTime(d: Date, h: int, mi: int, sec: int, ms: int): Option<int>
    requires 1 <= d.month <= 12
  {
    var t := DayOfDate(d) * MsPerDay + ((h * 60 + mi) * 60 + sec) * 1000 + ms;
    if -MaxTime <= t <= MaxTime then Some(t) else None
  }

  predicate DigitsAt(s: string, i: int, j: int)
    requires 0 <= i <= j <= |s|
  {
    AllDigits(s[i..j], 10)
  }

  /** Reads `-MM-DDTHH:mm:ss.sssZ` after a year. */
  function ParseTail(year: int, r: string): Option<int>
    requires |r| == 20
  {
    if r[0] == '-' && r[3] == '-' && r[6] == 'T' && r[9] == ':' && r[12] == ':' && r[15] == '.' && r[19] == 'Z'
       && DigitsAt(r, 1, 3) && DigitsAt(r, 4, 6) && DigitsAt(r, 7, 9) && DigitsAt(r, 10, 12)
       && DigitsAt(r, 13, 15) && DigitsAt(r, 16, 19)
    then
      var month := DigitsValue(r[1..3], 10);
      var day := DigitsValue(r[4..6], 10);
      var h := DigitsValue(r[7..9], 10);
      var mi := DigitsValue(r[10..12], 10);
      var sec := DigitsValue(r[13..15], 10);
      var ms := DigitsValue(r[16..19], 10);
      if 1 <= month <= 12 && 1 <= day <= 31 && h <= 23 && mi <= 59 && sec <= 59 then
        MakeTime(Date(year, month, day), h, mi, sec, ms)
      else
        None
    else
      None
  }

  /**
   * `new Date(s)` for a string in the form `toISOString` produces; `None`
   * stands for an invalid date (`NaN`).
   */
  function ParseIso(s: string): Option<int>
  {
    if |s| == 24 && DigitsAt(s, 0, 4) then
      ParseTail(DigitsValue(s[..4], 10), s[4..])
    else if |s| == 27 && (s[0] == '+' || s[0] == '-') && DigitsAt(s, 1, 7) then
      var v: int := DigitsValue(s[1..7], 10);
      if s[0] == '-' && v == 0 then None
      else ParseTail(if s[0] == '-' then -v else v, s[7..])
    else
      None
  }

  /** A field printed by `PadDigits` inside a text reads back as its value. */
  lemma FieldReadsBack(r: string, i: nat, v: nat, width: nat)
    requires i + width <= |r| && r[i..i + width] == PadDigits(v, width) && v < Pow10(width)
    ensures DigitsAt(r, i, i + width) && DigitsValue(r[i..i + width], 10) == v
  {
    PadDigitsRoundTrip(v, width);
  }

  lemma DayFields(month: nat, day: nat)
    requires month <= 99 && day <= 99
    ensures var r := DayText(month, day);
      && r[0] == '-' && r[3] == '-'
      && DigitsAt(r, 1, 3) && DigitsValue(r[1..3], 10) == month
      && DigitsAt(r, 4, 6) && DigitsValue(r[4..6], 10) == day
  {
    var r := DayText(month, day);
    assert Pow10(2) == 100;
    assert r[1..3] == PadDigits(month, 2);
    FieldReadsBack(r, 1, month, 2);
    assert r[4..6] == PadDigits(day, 2);
    FieldReadsBack(r, 4, day, 2);
  }

  lemma ClockFields(h: nat, mi: nat, sec: nat, ms: nat)
    requires h <= 99 && mi <= 99 && sec <= 99 && ms <= 999
    ensures var r := ClockText(h, mi, sec, ms);
      && r[0] == 'T' && r[3] == ':' && r[6] == ':' && r[9] == '.' && r[13] == 'Z'
      && DigitsAt(r, 1, 3) && DigitsValue(r[1..3], 10) == h
      && DigitsAt(r, 4, 6) && DigitsValue(r[4..6], 10) == mi
      && DigitsAt(r, 7, 9) && DigitsValue(r[7..9], 10) == sec
      && DigitsAt(r, 10, 13) && DigitsValue(r[10..13], 10) == ms
  {
    var r := ClockText(h, mi, sec, ms);
    var a, b, c, d := PadDigits(h, 2), PadDigits(mi, 2), PadDigits(sec, 2), PadDigits(ms, 3);
    assert r == "T" + a + ":" + b + ":" + c + "." + d + "Z";
    assert Pow10(2) == 100 && Pow10(3) == 1000;
    assert r[1..3] == PadDigits(h, 2);
    FieldReadsBack(r, 1, h, 2);
    assert r[4..6] == PadDigits(mi, 2);
    FieldReadsBack(r, 4, mi, 2);
    assert r[7..9] == PadDigits(sec, 2);
    FieldReadsBack(r, 7, sec, 2);
    assert r[10..13] == PadDigits(ms, 3);
    FieldReadsBack(r, 10, ms, 3);
  }

  /** The separators and the six fields of a printed tail. */
  lemma TailFields(month: nat, day: nat, h: nat, mi: nat, sec: nat, ms: nat)
    requires month <= 99 && day <= 99 && h <= 99 && mi <= 99 && sec <= 99 && ms <= 999
    ensures var r := TailText(month, day, h, mi, sec, ms);
      && r[0] == '-' && r[3] == '-' && r[6] == 'T' && r[9] == ':' && r[12] == ':' && r[15] == '.' && r[19] == 'Z'
      && DigitsAt(r, 1, 3) && DigitsValue(r[1..3], 10) == month
      && DigitsAt(r, 4, 6) && DigitsValue(r[4..6], 10) == day
      && DigitsAt(r, 7, 9) && DigitsValue(r[7..9], 10) == h
      && DigitsAt(r, 10, 12) && DigitsValue(r[10..12], 10) == mi
      && DigitsAt(r, 13, 15) && DigitsValue(r[13..15], 10) == sec
      && DigitsAt(r, 16, 19) && DigitsValue(r[16..19], 10) == ms
  {
    var a, b := DayText(month, day), ClockText(h, mi, sec, ms);
    DayFields(month, day);
    ClockFields(h, mi, sec, ms);
    var r := a + b;
    assert r[1..3] == a[1..3] && r[4..6] == a[4..6];
    assert r[7..9] == b[1..3] && r[10..12] == b[4..6] && r[13..15] == b[7..9] && r[16..19] == b[10..13];
  }

  lemma TailRoundTrip(year: int, month: nat, day: nat, h: nat, mi: nat, sec: nat, ms: nat)
    requires 1 <= month <= 12 && 1 <= day <= 31 && h <= 23 && mi <= 59 && sec <= 59 && ms <= 999
    ensures ParseTail(year, TailText(month, day, h, mi, sec, ms))
         == MakeTime(Date(year, month, day), h, mi, sec, ms)
  {
    TailFields(month, day, h, mi, sec, ms);
  }

  lemma YearRoundTrip(y: int, tail: string)
    requires -1_000_000 < y < 1_000_000 && |tail| == 20
    ensures ParseIso(YearText(y) + tail) == ParseTail(y, tail)
  {
    if 0 <= y <= 9999 {
      ShortYearRoundTrip(y, tail);
    } else {
      LongYearRoundTrip(y, tail);
    }
  }

  lemma ShortYearRoundTrip(y: nat, tail: string)
    requires y <= 9999 && |tail| == 20
    ensures ParseIso(PadDigits(y, 4) + tail) == ParseTail(y, tail)
  {
    var s := PadDigits(y, 4) + tail;
    assert s[..4] == PadDigits(y, 4);
    assert s[4..] == tail;
    assert Pow10(4) == 10000;
    PadDigitsRoundTrip(y, 4);
  }

  lemma LongYearRoundTrip(y: int, tail: string)
    requires -1_000_000 < y < 1_000_000 && !(0 <= y <= 9999) && |tail| == 20
    ensures ParseIso(YearText(y) + tail) == ParseTail(y, tail)
  {
    var a := if y < 0 then -y else y;
    var sign := if y < 0 then "-" else "+";
    var s := sign + PadDigits(a, 6) + tail;
    assert YearText(y) + tail == s;
    assert s[1..7] == PadDigits(a, 6);
    assert s[7..] == tail;
    assert Pow10(6) == 1_000_000;
    PadDigitsRoundTrip(a, 6);
  }

  /** The clock fields `toISOString` prints recombine into the millisecond of the day. */
  lemma ClockSplit(rem: int)
    requires 0 <= rem < MsPerDay
    ensures var secs := rem / 1000; var mins := secs / 60;
      && mins / 60 <= 23
      && ((mins / 60 * 60 + mins % 60) * 60 + secs % 60) * 1000 + rem % 1000 == rem
  {
  }

  /** A date and clock reading taken apart from `t` make `t` again. */
  lemma MakeTimeOfInstant(t: Instant, h: int, mi: int, sec: int, ms: int)
    requires ((h * 60 + mi) * 60 + sec) * 1000 + ms == t % MsPerDay
    ensures MakeTime(UtcDate(t), h, mi, sec, ms) == Some(t)
  {
    DayOfDateOfDay(t / MsPerDay);
    assert DayOfDate(UtcDate(t)) == t / MsPerDay;
  }

  /** Reading back the ISO string of an instant gives that instant. */
  lemma IsoRoundTrip(t: Instant)
    ensures ParseIso(IsoString(t)) == Some(t)
  {
    var d := UtcDate(t);
    var rem := t % MsPerDay;
    var secs := rem / 1000;
    var mins := secs / 60;
    var h, mi, sec, ms := mins / 60, mins % 60, secs % 60, rem % 1000;
    var tail := TailText(d.month, d.day, h, mi, sec, ms);
    assert IsoString(t) == YearText(d.year) + tail;
    YearBounds(t);
    YearRoundTrip(d.year, tail);
    ClockSplit(rem);
    TailRoundTrip(d.year, d.month, d.day, h, mi, sec, ms);
    assert Date(d.year, d.month, d.day) == d;
    MakeTimeOfInstant(t, h, mi, sec, ms);
  }

  /**
   * A `full-date` of section 5.6 of RFC 3339: `YYYY-MM-DD` naming a date
   * that exists.
   */
  predicate IsFullDate(s: string)
  {
    |s| == 10 && DigitsAt(s, 0, 4) && s[4] == '-' && DigitsAt(s, 5, 7) && s[7] == '-' && DigitsAt(s, 8, 10)
    && ValidDate(Date(DigitsValue(s[..4], 10), DigitsValue(s[5..7], 10), DigitsValue(s[8..10], 10)))
  }

  /** `YYYY-MM-DD` for a date whose year has four digits. */
  function DateText(d: Date): string
    requires 0 <= d.year <= 9999 && 1 <= d.month <= 12 && 1 <= d.day <= 31
  {
    PadDigits(d.year, 4) + "-" + PadDigits(d.month, 2) + "-" + PadDigits(d.day, 2)
  }

  lemma DateTextIsFullDate(d: Date)
    requires 0 <= d.year <= 9999 && ValidDate(d)
    ensures IsFullDate(DateText(d))
    ensures var s := DateText(d);
      Date(DigitsValue(s[..4], 10), DigitsValue(s[5..7], 10), DigitsValue(s[8..10], 10)) == d
  {
    var s := DateText(d);
    assert s[..4] == PadDigits(d.year, 4);
    assert s[5..7] == PadDigits(d.month, 2);
    assert s[8..10] == PadDigits(d.day, 2);
    assert Pow10(2) == 100 && Pow10(4) == 10000;
    PadDigitsRoundTrip(d.year, 4);
    PadDigitsRoundTrip(d.month, 2);
    PadDigitsRoundTrip(d.day, 2);
  }

  lemma FourDigitYears(t: Instant)
    requires -62_167_219_200_000 <= t < 253_402_300_800_000
    ensures 0 <= UtcDate(t).year <= 9999
  {
    var n := t / MsPerDay;
    assert -719528 <= n <= 2932896;
    var era := (n + EpochDay) / DaysPerCycle;
    assert 0 <= era <= 24;
    YearOfDay(n);
  }

  /**
   * For years 0000..9999 the first ten characters of the ISO string are a
   * `full-date`, and it writes the UTC date of the instant.
   */
  lemma IsoDatePrefix(t: Instant)
    requires -62_167_219_200_000 <= t < 253_402_300_800_000
    ensures IsFullDate(IsoString(t)[..10])
    ensures var s := IsoString(t)[..10];
      Date(DigitsValue(s[..4], 10), DigitsValue(s[5..7], 10), DigitsValue(s[8..10], 10)) == UtcDate(t)
  {
    FourDigitYears(t);
    IsoDateText(t);
    DateTextIsFullDate(UtcDate(t));
  }

  /** For years 0000..9999 the ISO string starts with the `YYYY-MM-DD` text of the UTC date. */
  lemma IsoDateText(t: Instant)
    requires 0 <= UtcDate(t).year <= 9999
    ensures |IsoString(t)| >= 10 && IsoString(t)[..10] == DateText(UtcDate(t))
  {
    var d := UtcDate(t);
    var rem := t % MsPerDay;
    var secs := rem / 1000;
    var mins := secs / 60;
    DatePrefix(d, mins / 60, mins % 60, secs % 60, rem % 1000);
  }

  /** The first ten characters of a four-digit year followed by the tail are the `YYYY-MM-DD` text. */
  lemma DatePrefix(d: Date, h: nat, mi: nat, sec: nat, ms: nat)
    requires 0 <= d.year <= 9999 && 1 <= d.month <= 12 && 1 <= d.day <= 31
    ensures (YearText(d.year) + TailText(d.month, d.day, h, mi, sec, ms))[..10] == DateText(d)
  {
    var y, day := PadDigits(d.year, 4), DayText(d.month, d.day);
    var clock := ClockText(h, mi, sec, ms);
    assert YearText(d.year) + TailText(d.month, d.day, h, mi, sec, ms) == (y + day) + clock;
    assert y + day == DateText(d);
  }


}
