/**
 * Wall-clock timestamps as the scheduler reads and writes them: a naive
 * (time-zone free) date and time of the proleptic Gregorian calendar, the
 * fixed text form "YYYY-MM-DD HH:MM:SS" used for both strftime and strptime,
 * and the elapsed time between two timestamps in microseconds, the
 * resolution of Python's timedelta.
 */
module Timestamp {
  import opened Wrappers

  datatype DateTime = DateTime(year: nat, month: nat, day: nat,
                               hour: nat, minute: nat, second: nat,
                               microsecond: nat)

  predicate IsLeapYear(y: nat) {
    y % 4 == 0 && (y % 100 != 0 || y % 400 == 0)
  }

  function DaysInMonth(y: nat, m: nat): (n: nat)
    ensures 28 <= n <= 31
  {
    if m == 2 then (if IsLeapYear(y) then 29 else 28)
    else if m == 4 || m == 6 || m == 9 || m == 11 then 30
    else 31
  }

  /** The ranges Python's datetime accepts (it has no leap seconds). */
  predicate Valid(d: DateTime) {
    && 1 <= d.year <= 9999
    && 1 <= d.month <= 12
    && 1 <= d.day <= DaysInMonth(d.year, d.month)
    && d.hour < 24 && d.minute < 60 && d.second < 60
    && d.microsecond < 1000000
  }

  /** The timestamp with its sub-second part dropped, which is what a text round trip keeps. */
  function Truncate(d: DateTime): DateTime {
    d.(microsecond := 0)
  }

  // ---------------------------------------------------------------------
  // Elapsed time

  /** Days in the years 1 .. y-1. */
  function DaysBeforeYear(y: nat): nat {
    if y <= 1 then 0 else DaysBeforeYear(y - 1) + (if IsLeapYear(y - 1) then 366 else 365)
  }

  /** Days in the months 1 .. m-1 of year y. */
  function DaysBeforeMonth(y: nat, m: nat): nat {
    if m <= 1 then 0 else DaysBeforeMonth(y, m - 1) + DaysInMonth(y, m - 1)
  }

  /** Day number with 0001-01-01 as day 1, as Python's date.toordinal. */
  function Ordinal(d: DateTime): nat {
    DaysBeforeYear(d.year) + DaysBeforeMonth(d.year, d.month) + d.day
  }

  /** Whole seconds elapsed since midnight of the day before day 1 of Ordinal. */
  function WholeSeconds(d: DateTime): nat {
    ((Ordinal(d) * 24 + d.hour) * 60 + d.minute) * 60 + d.second
  }

  function Micros(d: DateTime): nat {
    WholeSeconds(d) * 1000000 + d.microsecond
  }

  const MICROS_PER_DAY: int := 86400 * 1000000

  /** now - stamp, as a signed number of microseconds (negative when stamp lies in the future). */
  function Age(now: DateTime, stamp: DateTime): (r: int)
    ensures stamp == Truncate(now) ==> r == now.microsecond
  {
    Micros(now) - Micros(stamp)
  }


  /** Python's datetime order: lexicographic on the fields, most significant first. */
  predicate Before(a: DateTime, b: DateTime) {
    || a.year < b.year
    || (a.year == b.year && a.month < b.month)
    || (a.year == b.year && a.month == b.month && a.day < b.day)
    || (a.year == b.year && a.month == b.month && a.day == b.day && a.hour < b.hour)
    || (a.year == b.year && a.month == b.month && a.day == b.day && a.hour == b.hour && a.minute < b.minute)
    || (a.year == b.year && a.month == b.month && a.day == b.day && a.hour == b.hour && a.minute == b.minute
        && a.second < b.second)
    || (a.year == b.year && a.month == b.month && a.day == b.day && a.hour == b.hour && a.minute == b.minute
        && a.second == b.second && a.microsecond < b.microsecond)
  }

  function YearLength(y: nat): nat {
    if IsLeapYear(y) then 366 else 365
  }

  /** The twelve months of a year add up to its length. */
  lemma MonthsMakeYear(y: nat)
    ensures DaysBeforeMonth(y, 12) + DaysInMonth(y, 12) == YearLength(y)
  {
    assert DaysBeforeMonth(y, 2) == 31;
    assert DaysBeforeMonth(y, 3) == 31 + DaysInMonth(y, 2);
    assert DaysBeforeMonth(y, 4) == DaysBeforeMonth(y, 3) + 31;
    assert DaysBeforeMonth(y, 5) == DaysBeforeMonth(y, 4) + 30;
    assert DaysBeforeMonth(y, 6) == DaysBeforeMonth(y, 5) + 31;
    assert DaysBeforeMonth(y, 7) == DaysBeforeMonth(y, 6) + 30;
    assert DaysBeforeMonth(y, 8) == DaysBeforeMonth(y, 7) + 31;
    assert DaysBeforeMonth(y, 9) == DaysBeforeMonth(y, 8) + 31;
    assert DaysBeforeMonth(y, 10) == DaysBeforeMonth(y, 9) + 30;
    assert DaysBeforeMonth(y, 11) == DaysBeforeMonth(y, 10) + 31;
    assert DaysBeforeMonth(y, 12) == DaysBeforeMonth(y, 11) + 30;
  }

  /** A month ends no later than any later month begins. */
  lemma {:induction false} MonthsBefore(y: nat, m1: nat, m2: nat)
    requires 1 <= m1 < m2
    ensures DaysBeforeMonth(y, m1) + DaysInMonth(y, m1) <= DaysBeforeMonth(y, m2)
    decreases m2
  {
    if m2 > m1 + 1 {
      MonthsBefore(y, m1, m2 - 1);
    }
  }

  /** A year ends no later than any later year begins. */
  lemma {:induction false} YearsBefore(y1: nat, y2: nat)
    requires 1 <= y1 < y2
    ensures DaysBeforeYear(y1) + YearLength(y1) <= DaysBeforeYear(y2)
    decreases y2
  {
    if y2 > y1 + 1 {
      YearsBefore(y1, y2 - 1);
    }
  }

  /** An earlier calendar date has a smaller day number. */
  lemma OrdinalOrder(a: DateTime, b: DateTime)
    requires Valid(a) && Valid(b)
    requires a.year < b.year || (a.year == b.year && (a.month < b.month || (a.month == b.month && a.day < b.day)))
    ensures Ordinal(a) < Ordinal(b)
  {
    if a.year < b.year {
      if a.month < 12 {
        MonthsBefore(a.year, a.month, 12);
      }
      MonthsMakeYear(a.year);
      YearsBefore(a.year, b.year);
    } else if a.month < b.month {
      MonthsBefore(a.year, a.month, b.month);
    }
  }

  lemma MicrosOfEarlier(a: DateTime, b: DateTime)
    requires Valid(a) && Valid(b) && Before(a, b)
    ensures Micros(a) < Micros(b)
  {
    if a.year != b.year || a.month != b.month || a.day != b.day {
      OrdinalOrder(a, b);
      assert WholeSeconds(a) < (Ordinal(a) + 1) * 86400 <= WholeSeconds(b);
    }
  }

  /**
   * Elapsed time agrees with datetime's order: on valid date-times, now - stamp
   * is positive exactly when stamp is earlier, and zero exactly when they are equal.
   */
  lemma AgeOrder(now: DateTime, stamp: DateTime)
    requires Valid(now) && Valid(stamp)
    ensures Age(now, stamp) > 0 <==> Before(stamp, now)
    ensures Age(now, stamp) == 0 <==> now == stamp
  {
    if Before(stamp, now) {
      MicrosOfEarlier(stamp, now);
    } else if Before(now, stamp) {
      MicrosOfEarlier(now, stamp);
    }
  }

  /** The calendar day after d, at the same time of day. */
  function NextDay(d: DateTime): DateTime {
    if d.day < DaysInMonth(d.year, d.month) then d.(day := d.day + 1)
    else if d.month < 12 then d.(month := d.month + 1, day := 1)
    else d.(year := d.year + 1, month := 1, day := 1)
  }

  /**
   * Day numbers step by one across month ends, leap days and year ends, so the
   * same time on the next calendar day is exactly one day later.
   */
  lemma NextDayAge(d: DateTime)
    requires Valid(d)
    ensures Ordinal(NextDay(d)) == Ordinal(d) + 1
    ensures Age(NextDay(d), d) == MICROS_PER_DAY
  {
    if d.day == DaysInMonth(d.year, d.month) && d.month == 12 {
      MonthsMakeYear(d.year);
    }
  }

  // ---------------------------------------------------------------------
  // Text form

  predicate IsDigit(c: char) {
    '0' <= c <= '9'
  }

  predicate AllDigits(s: string) {
    s == [] || (AllDigits(s[..|s| - 1]) && IsDigit(s[|s| - 1]))
  }

  function Pow10(k: nat): (r: nat)
    ensures r >= 1
  {
    if k == 0 then 1 else 10 * Pow10(k - 1)
  }

  function DigitChar(n: nat): (c: char)
    requires n < 10
    ensures IsDigit(c)
  {
    (48 + n) as char
  }

  function DigitValue(c: char): (n: nat)
    requires IsDigit(c)
    ensures n < 10 && DigitChar(n) == c
  {
    c as int - 48
  }

  /** The last width decimal digits of n, most significant first, zero-padded. */
  function Pad(n: nat, width: nat): (s: string)
    ensures |s| == width
  {
    if width == 0 then [] else Pad(n / 10, width - 1) + [DigitChar(n % 10)]
  }

  /** The number a string of decimal digits denotes. */
  function DigitsValue(s: string): nat
    requires AllDigits(s)
  {
    if s == [] then 0 else 10 * DigitsValue(s[..|s| - 1]) + DigitValue(s[|s| - 1])
  }

  lemma {:induction false} PadValue(n: nat, width: nat)
    requires n < Pow10(width)
    ensures AllDigits(Pad(n, width)) && DigitsValue(Pad(n, width)) == n
  {
    if width > 0 {
      var s := Pad(n, width);
      assert s[..|s| - 1] == Pad(n / 10, width - 1);
      assert n / 10 < Pow10(width - 1);
      PadValue(n / 10, width - 1);
    }
  }

  lemma {:induction false} ValuePad(s: string)
    requires AllDigits(s)
    ensures DigitsValue(s) < Pow10(|s|)
    ensures Pad(DigitsValue(s), |s|) == s
  {
    if s != [] {
      var init, last := s[..|s| - 1], s[|s| - 1];
      ValuePad(init);
      var v := DigitsValue(s);
      assert v / 10 == DigitsValue(init) && v % 10 == DigitValue(last);
      assert s == init + [last];
    }
  }

  /** Six digit groups of widths 4,2,2,2,2,2 joined by the separators of the text form. */
  function Join(y: string, mo: string, d: string, h: string, mi: string, se: string): string {
    y + "-" + mo + "-" + d + " " + h + ":" + mi + ":" + se
  }

  /** strftime("%Y-%m-%d %H:%M:%S"): the sub-second part is not written. */
  function Format(d: DateTime): (s: string)
    ensures |s| == 19
  {
    Join(Pad(d.year, 4), Pad(d.month, 2), Pad(d.day, 2), Pad(d.hour, 2), Pad(d.minute, 2), Pad(d.second, 2))
  }

  predicate WellShaped(s: string) {
    && |s| == 19
    && s[4] == '-' && s[7] == '-' && s[10] == ' ' && s[13] == ':' && s[16] == ':'
    && AllDigits(s[0..4]) && AllDigits(s[5..7]) && AllDigits(s[8..10])
    && AllDigits(s[11..13]) && AllDigits(s[14..16]) && AllDigits(s[17..19])
  }

  /**
   * strptime(s, "%Y-%m-%d %H:%M:%S") on the zero-padded form: None where
   * Python raises ValueError (wrong shape, or a field out of range such as
   * day 30 of February).
   */
  function Parse(s: string): (r: Option<DateTime>)
    ensures r.Some? ==> Valid(r.value) && r.value.microsecond == 0
  {
    if !WellShaped(s) then None
    else
      var d := DateTime(DigitsValue(s[0..4]), DigitsValue(s[5..7]), DigitsValue(s[8..10]),
                        DigitsValue(s[11..13]), DigitsValue(s[14..16]), DigitsValue(s[17..19]), 0);
      if Valid(d) then Some(d) else None
  }

  /** Every field fits its zero-padded width, so Format loses no digit. */
  predicate FitsFormat(d: DateTime) {
    d.year < 10000 && d.month < 100 && d.day < 100 && d.hour < 100 && d.minute < 100 && d.second < 100
  }

  lemma JoinShape(y: string, mo: string, d: string, h: string, mi: string, se: string)
    requires |y| == 4 && |mo| == 2 && |d| == 2 && |h| == 2 && |mi| == 2 && |se| == 2
    ensures var s := Join(y, mo, d, h, mi, se);
      && |s| == 19
      && s[4] == '-' && s[7] == '-' && s[10] == ' ' && s[13] == ':' && s[16] == ':'
      && s[0..4] == y && s[5..7] == mo && s[8..10] == d
      && s[11..13] == h && s[14..16] == mi && s[17..19] == se
  {
  }

  /** The written form has the fixed shape, and each field reads back as the number written. */
  lemma FormatFields(d: DateTime)
    requires FitsFormat(d)
    ensures var s := Format(d);
      && WellShaped(s)
      && DigitsValue(s[0..4]) == d.year && DigitsValue(s[5..7]) == d.month
      && DigitsValue(s[8..10]) == d.day && DigitsValue(s[11..13]) == d.hour
      && DigitsValue(s[14..16]) == d.minute && DigitsValue(s[17..19]) == d.second
  {
    JoinShape(Pad(d.year, 4), Pad(d.month, 2), Pad(d.day, 2), Pad(d.hour, 2), Pad(d.minute, 2), Pad(d.second, 2));
    assert Pow10(2) == 100 && Pow10(4) == 10000;
    PadValue(d.year, 4);
    PadValue(d.month, 2);
    PadValue(d.day, 2);
    PadValue(d.hour, 2);
    PadValue(d.minute, 2);
    PadValue(d.second, 2);
  }

  /**
   * Reading back a written timestamp yields it, minus the sub-second part;
   * text whose fields are out of range (a 30 February) is rejected.
   */
  lemma ParseFormat(d: DateTime)
    requires FitsFormat(d)
    ensures Parse(Format(d)) == if Valid(Truncate(d)) then Some(Truncate(d)) else None
  {
    FormatFields(d);
  }

  /** Every text that parses is the written form of what it parses to. */
  lemma FormatParse(s: string)
    requires Parse(s).Some?
    ensures Format(Parse(s).value) == s
  {
    var d := Parse(s).value;
    ValuePad(s[0..4]);
    ValuePad(s[5..7]);
    ValuePad(s[8..10]);
    ValuePad(s[11..13]);
    ValuePad(s[14..16]);
    ValuePad(s[17..19]);
    assert s == Join(s[0..4], s[5..7], s[8..10], s[11..13], s[14..16], s[17..19]);
  }

  /** Formatting is injective up to the sub-second part. */
  lemma FormatInjective(d1: DateTime, d2: DateTime)
    requires Valid(d1) && Valid(d2)
    requires Format(d1) == Format(d2)
    ensures Truncate(d1) == Truncate(d2)
  {
    ParseFormat(d1);
    ParseFormat(d2);
  }
}
