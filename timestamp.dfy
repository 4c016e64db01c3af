/**
 * The timestamp of a log row: `pd.to_datetime(Date + ' ' + Time,
 * format='%m/%d/%Y %I:%M:%S %p', errors='coerce')`, as Python's `strptime`
 * reads that format, and the proleptic Gregorian calendar that turns the
 * parsed fields into an instant (whole seconds since 0001-01-01 00:00:00).
 */
module Timestamp {
  import opened Options
  import opened Text

  datatype DateTime = DateTime(year: int, month: int, day: int, hour: int, minute: int, second: int)

  predicate IsLeapYear(y: int) {
    y % 4 == 0 && (y % 100 != 0 || y % 400 == 0)
  }

  function DaysInYear(y: int): int {
    if IsLeapYear(y) then 366 else 365
  }

  /** The length of month `m` of year `y`. */
  function DaysInMonth(y: int, m: int): int
    requires 1 <= m <= 12
  {
    if m == 2 then (if IsLeapYear(y) then 29 else 28)
    else if m == 4 || m == 6 || m == 9 || m == 11 then 30
    else 31
  }

  /** Days in the months before `m` of year `y`; `m == 13` gives the whole year. */
  function DaysBeforeMonth(y: int, m: int): (d: int)
    requires 1 <= m <= 13
    ensures d >= 0
  {
    if m == 1 then 0 else DaysBeforeMonth(y, m - 1) + DaysInMonth(y, m - 1)
  }

  /** The fields `datetime.datetime` accepts (years 1 through 9999). */
  predicate Valid(dt: DateTime) {
    && 1 <= dt.year <= 9999
    && 1 <= dt.month <= 12
    && 1 <= dt.day <= DaysInMonth(dt.year, dt.month)
    && 0 <= dt.hour <= 23
    && 0 <= dt.minute <= 59
    && 0 <= dt.second <= 59
  }

  /** Chronological order of two calendar readings: lexicographic on the fields. */
  predicate Before(a: DateTime, b: DateTime) {
    || a.year < b.year
    || (a.year == b.year && a.month < b.month)
    || (a.year == b.year && a.month == b.month && a.day < b.day)
    || (a.year == b.year && a.month == b.month && a.day == b.day && a.hour < b.hour)
    || (a.year == b.year && a.month == b.month && a.day == b.day && a.hour == b.hour && a.minute < b.minute)
    || (a.year == b.year && a.month == b.month && a.day == b.day && a.hour == b.hour && a.minute == b.minute
        && a.second < b.second)
  }

  /** Days in the years before year `y`. */
  function DaysBeforeYear(y: int): (d: int)
    requires y >= 1
    ensures d >= 0
  {
    if y == 1 then 0 else DaysBeforeYear(y - 1) + DaysInYear(y - 1)
  }

  /** Days from 0001-01-01 to the date of `dt`. */
  function DayNumber(dt: DateTime): int
    requires Valid(dt)
  {
    DaysBeforeYear(dt.year) + DaysBeforeMonth(dt.year, dt.month) + dt.day - 1
  }

  /** The instant `dt` names, in seconds since 0001-01-01 00:00:00. */
  function ToSeconds(dt: DateTime): int
    requires Valid(dt)
  {
    DayNumber(dt) * 86400 + dt.hour * 3600 + dt.minute * 60 + dt.second
  }

  /** `%I` with `%p`: 12 AM is hour 0, 12 PM is hour 12, other PM hours add 12. */
  function To24(hour12: int, pm: bool): (h: int)
    requires 1 <= hour12 <= 12
    ensures 0 <= h <= 23
  {
    if pm then (if hour12 == 12 then 12 else hour12 + 12)
    else (if hour12 == 12 then 0 else hour12)
  }

  /** The `%I %p` spelling of an hour of the day. */
  function To12(hour: int): (r: (int, bool))
    requires 0 <= hour <= 23
    ensures 1 <= r.0 <= 12
  {
    var h := hour % 12;
    (if h == 0 then 12 else h, hour >= 12)
  }

  /** The 12-hour clock and the 24-hour clock name the same hours, one to one. */
  lemma ClockConversion(hour12: int, pm: bool, hour: int)
    requires 1 <= hour12 <= 12 && 0 <= hour <= 23
    ensures To24(hour12, pm) == hour <==> To12(hour) == (hour12, pm)
    ensures To24(12, false) == 0 && To24(12, true) == 12
  {
  }

  // ---------------------------------------------------------------------------
  // Reading the format "%m/%d/%Y %I:%M:%S %p", one directive at a time; each
  // reader returns what it read and the text that follows it.

  /** The length of the run of whitespace that starts `s`. */
  function SpaceRun(s: string): (n: nat)
    ensures n <= |s|
    ensures forall k :: 0 <= k < n ==> IsSpace(s[k])
    ensures n == |s| || !IsSpace(s[n])
  {
    if |s| > 0 && IsSpace(s[0]) then 1 + SpaceRun(s[1..]) else 0
  }

  /**
   * A numeric directive: between `minLen` and `maxLen` leading digits, with
   * their value. Every directive of the format is followed by a non-digit, so
   * the regular expression of `strptime` matches exactly the whole digit run.
   */
  function Field(s: string, minLen: nat, maxLen: nat): (r: Option<(int, string)>)
    ensures r.Some? ==> |r.value.1| < |s| || minLen == 0
  {
    var n := DigitRun(s);
    if minLen <= n <= maxLen then Some((DigitsValue(s[..n]), s[n..])) else None
  }

  function Literal(s: string, c: char): Option<string> {
    if |s| > 0 && s[0] == c then Some(s[1..]) else None
  }

  /** A space of the format, which `strptime` reads as `\s+`. */
  function Spaces(s: string): Option<string> {
    var n := SpaceRun(s);
    if n >= 1 then Some(s[n..]) else None
  }

  function LowerAscii(c: char): char {
    if 'A' <= c <= 'Z' then (c as int + 32) as char else c
  }

  /** `%p`: "am" or "pm" in any letter case; true for PM. */
  function Meridiem(s: string): Option<(bool, string)> {
    if |s| >= 2 && LowerAscii(s[1]) == 'm' && LowerAscii(s[0]) in {'a', 'p'} then
      Some((LowerAscii(s[0]) == 'p', s[2..]))
    else
      None
  }

  /**
   * `strptime(s, "%m/%d/%Y %I:%M:%S %p")`: the whole string must match, and
   * the fields must name a real date and time.
   */
  function ParseDateTime(s: string): (r: Option<DateTime>)
    ensures r.Some? ==> Valid(r.value)
  {
    var date :- ParseDate(s);
    var s3 :- Spaces(date.3);
    var clock :- ParseClock(s3);
    var s6 :- Spaces(clock.3);
    var meridiem :- Meridiem(s6);
    if meridiem.1 == [] && 1 <= clock.0 <= 12 then
      var dt := DateTime(date.2, date.0, date.1, To24(clock.0, meridiem.0), clock.1, clock.2);
      if Valid(dt) then Some(dt) else None
    else
      None
  }

  /** `%m/%d/%Y`: month, day, year and the text after them. */
  function ParseDate(s: string): Option<(int, int, int, string)> {
    var month :- Field(s, 1, 2);
    var s1 :- Literal(month.1, '/');
    var day :- Field(s1, 1, 2);
    var s2 :- Literal(day.1, '/');
    var year :- Field(s2, 4, 4);
    Some((month.0, day.0, year.0, year.1))
  }

  /** `%I:%M:%S`: hour on the 12-hour clock, minute, second and the text after them. */
  function ParseClock(s: string): Option<(int, int, int, string)> {
    var hour :- Field(s, 1, 2);
    var s4 :- Literal(hour.1, ':');
    var minute :- Field(s4, 1, 2);
    var s5 :- Literal(minute.1, ':');
    var second :- Field(s5, 1, 2);
    Some((hour.0, minute.0, second.0, second.1))
  }

  /** The row's index value: an instant, or None (NaT) when the text does not parse. */
  function ParseTimestamp(s: string): Option<int> {
    match ParseDateTime(s)
    case Some(dt) => Some(ToSeconds(dt))
    case None => None
  }

  /**
   * A date field with no `/` never matches `%m/`, whatever follows it: the
   * Date and Time of a row joined by a space then read as NaT.
   */
  lemma NoSlashNoDate(date: string, rest: string)
    requires '/' !in date
    ensures ParseDateTime(date + " " + rest) == None
  {
    var s := date + " " + rest;
    var n := DigitRun(s);
    assert s[|date|] == ' ';
    DigitRunStops(s, |date|);
    assert n < |s| && s[n] != '/' by {
      if n < |date| {
        assert s[n] == date[n];
      }
    }
  }

  // ---------------------------------------------------------------------------
  // Round trip with the zero-padded spelling of the same format

  /** `dt.strftime("%m/%d/%Y")`. */
  function FormatDate(dt: DateTime): string
    requires Valid(dt)
  {
    PadNat(dt.month, 2) + ("/" + (PadNat(dt.day, 2) + ("/" + PadNat(dt.year, 4))))
  }

  /** `dt.strftime("%I:%M:%S %p")`. */
  function FormatClock(dt: DateTime): string
    requires Valid(dt)
  {
    var (h12, pm) := To12(dt.hour);
    PadNat(h12, 2) + (":" + (PadNat(dt.minute, 2) + (":" + (PadNat(dt.second, 2)
      + (" " + (if pm then "PM" else "AM"))))))
  }

  /** `dt.strftime("%m/%d/%Y %I:%M:%S %p")`: the Date and Time fields of a log row, joined by a space. */
  function FormatDateTime(dt: DateTime): string
    requires Valid(dt)
  {
    FormatDate(dt) + " " + FormatClock(dt)
  }

  /** A field of digits `d` followed by a non-digit reads as the value of `d`. */
  lemma FieldPrefix(d: string, r: string, minLen: nat, maxLen: nat)
    requires AllDigits(d) && minLen <= |d| <= maxLen
    requires r == [] || !IsDigit(r[0])
    ensures Field(d + r, minLen, maxLen) == Some((DigitsValue(d), r))
  {
    DigitRunPrefix(d, r);
    assert (d + r)[..|d|] == d && (d + r)[|d|..] == r;
  }

  /** A padded field of `width` digits holding `v`. */
  lemma PaddedField(v: nat, width: nat, r: string)
    requires 1 <= width && v < Pow10(width)
    requires r == [] || !IsDigit(r[0])
    ensures Field(PadNat(v, width) + r, width, width) == Some((v, r))
    ensures width <= 2 ==> Field(PadNat(v, width) + r, 1, 2) == Some((v, r))
  {
    PadNatValue(v, width);
    FieldPrefix(PadNat(v, width), r, width, width);
    if width <= 2 {
      FieldPrefix(PadNat(v, width), r, 1, 2);
    }
  }

  lemma OneSpace(r: string)
    requires |r| > 0 && (IsDigit(r[0]) || r[0] in "AP")
    ensures Spaces(" " + r) == Some(r)
  {
    assert (" " + r)[1..] == r;
    assert SpaceRun(r) == 0;
  }

  /** `%p` reads back the half of the day it was written from. */
  lemma MeridiemFormatted(pm: bool)
    ensures Meridiem(if pm then "PM" else "AM") == Some((pm, []))
  {
    var s := if pm then "PM" else "AM";
    assert LowerAscii(s[1]) == 'm';
    assert LowerAscii(s[0]) == (if pm then 'p' else 'a');
    assert s[2..] == [];
  }

  /** The date part of a formatted instant reads back. */
  lemma DateFormatted(month: nat, day: nat, year: nat, r: string)
    requires 1 <= month <= 12 && 1 <= day <= 31 && 1 <= year <= 9999
    requires r == [] || !IsDigit(r[0])
    ensures ParseDate(PadNat(month, 2) + ("/" + (PadNat(day, 2) + ("/" + (PadNat(year, 4) + r)))))
         == Some((month, day, year, r))
  {
    var r2 := PadNat(year, 4) + r;
    var r1 := PadNat(day, 2) + ("/" + r2);
    PaddedField(month, 2, "/" + r1);
    PaddedField(day, 2, "/" + r2);
    PaddedField(year, 4, r);
    assert ("/" + r1)[1..] == r1 && ("/" + r2)[1..] == r2;
  }

  /** The clock part of a formatted instant reads back. */
  lemma ClockFormatted(hour12: nat, minute: nat, second: nat, r: string)
    requires 1 <= hour12 <= 12 && minute <= 59 && second <= 59
    requires r == [] || !IsDigit(r[0])
    ensures ParseClock(PadNat(hour12, 2) + (":" + (PadNat(minute, 2) + (":" + (PadNat(second, 2) + r)))))
         == Some((hour12, minute, second, r))
  {
    var r5 := PadNat(second, 2) + r;
    var r4 := PadNat(minute, 2) + (":" + r5);
    PaddedField(hour12, 2, ":" + r4);
    PaddedField(minute, 2, ":" + r5);
    PaddedField(second, 2, r);
    assert (":" + r4)[1..] == r4 && (":" + r5)[1..] == r5;
  }

  /** Reading back a formatted instant gives the same date and time. */
  lemma ParseFormatted(dt: DateTime)
    requires Valid(dt)
    ensures ParseDateTime(FormatDateTime(dt)) == Some(dt)
  {
    var (h12, pm) := To12(dt.hour);
    var ap := if pm then "PM" else "AM";
    var time := PadNat(h12, 2) + (":" + (PadNat(dt.minute, 2) + (":" + (PadNat(dt.second, 2) + (" " + ap)))));
    assert FormatClock(dt) == time;
    assert FormatDateTime(dt) == PadNat(dt.month, 2) + ("/" + (PadNat(dt.day, 2) + ("/" + (PadNat(dt.year, 4) + (" " + time)))));
    DateFormatted(dt.month, dt.day, dt.year, " " + time);
    assert Spaces(" " + time) == Some(time) by {
      PadNatValue(h12, 2);
      OneSpace(time);
    }
    ClockFormatted(h12, dt.minute, dt.second, " " + ap);
    assert Spaces(" " + ap) == Some(ap) by { OneSpace(ap); }
    MeridiemFormatted(pm);
    ClockConversion(h12, pm, dt.hour);
  }

  // ---------------------------------------------------------------------------
  // The instant keeps the chronological order

  lemma DivStep(x: int)
    requires x >= 0
    ensures (x + 1) / 4 == x / 4 + (if (x + 1) % 4 == 0 then 1 else 0)
    ensures (x + 1) / 100 == x / 100 + (if (x + 1) % 100 == 0 then 1 else 0)
    ensures (x + 1) / 400 == x / 400 + (if (x + 1) % 400 == 0 then 1 else 0)
  {
  }

  /** Python's `datetime._days_before_year`. */
  function ClosedDaysBeforeYear(y: int): int {
    var x := y - 1;
    365 * x + x / 4 - x / 100 + x / 400
  }

  /** A multiple of 400 is one of 100, and a multiple of 100 is one of 4. */
  lemma Multiples(y: int)
    ensures y % 400 == 0 ==> y % 100 == 0
    ensures y % 100 == 0 ==> y % 4 == 0
  {
    if y % 100 == 0 {
      var k := y / 100;
      assert y == 4 * (25 * k);
    }
    if y % 400 == 0 {
      var k := y / 400;
      assert y == 100 * (4 * k);
    }
  }

  lemma ClosedYearStep(y: int)
    requires y >= 1
    ensures ClosedDaysBeforeYear(y + 1) == ClosedDaysBeforeYear(y) + DaysInYear(y)
  {
    DivStep(y - 1);
    Multiples(y);
    var x := y - 1;
    assert ClosedDaysBeforeYear(y + 1) == 365 * x + 365 + (x + 1) / 4 - (x + 1) / 100 + (x + 1) / 400;
  }

  /** The year-by-year count agrees with the closed form `datetime` uses. */
  lemma {:induction false} DaysBeforeYearClosedForm(y: int)
    requires y >= 1
    ensures DaysBeforeYear(y) == ClosedDaysBeforeYear(y)
  {
    if y > 1 {
      DaysBeforeYearClosedForm(y - 1);
      ClosedYearStep(y - 1);
    }
  }

  lemma {:induction false} YearsOrdered(y1: int, y2: int)
    requires 1 <= y1 < y2
    ensures DaysBeforeYear(y1) + DaysInYear(y1) <= DaysBeforeYear(y2)
    decreases y2 - y1
  {
    if y1 + 1 < y2 {
      YearsOrdered(y1 + 1, y2);
    }
  }

  lemma {:induction false} MonthsOrdered(y: int, m1: int, m2: int)
    requires 1 <= m1 < m2 <= 13
    ensures DaysBeforeMonth(y, m1) + DaysInMonth(y, m1) <= DaysBeforeMonth(y, m2)
    decreases m2 - m1
  {
    if m1 + 1 < m2 {
      MonthsOrdered(y, m1 + 1, m2);
    }
  }

  lemma YearLength(y: int)
    ensures DaysBeforeMonth(y, 13) == DaysInYear(y)
  {
    var leap := if IsLeapYear(y) then 1 else 0;
    assert DaysBeforeMonth(y, 2) == 31;
    assert DaysBeforeMonth(y, 3) == 59 + leap;
    assert DaysBeforeMonth(y, 4) == 90 + leap;
    assert DaysBeforeMonth(y, 5) == 120 + leap;
    assert DaysBeforeMonth(y, 6) == 151 + leap;
    assert DaysBeforeMonth(y, 7) == 181 + leap;
    assert DaysBeforeMonth(y, 8) == 212 + leap;
    assert DaysBeforeMonth(y, 9) == 243 + leap;
    assert DaysBeforeMonth(y, 10) == 273 + leap;
    assert DaysBeforeMonth(y, 11) == 304 + leap;
    assert DaysBeforeMonth(y, 12) == 334 + leap;
  }

  lemma DayNumberOrdered(a: DateTime, b: DateTime)
    requires Valid(a) && Valid(b)
    requires a.year < b.year || (a.year == b.year && (a.month < b.month || (a.month == b.month && a.day < b.day)))
    ensures DayNumber(a) < DayNumber(b)
  {
    MonthsOrdered(a.year, a.month, 13);
    YearLength(a.year);
    if a.year < b.year {
      YearsOrdered(a.year, b.year);
    } else if a.month < b.month {
      MonthsOrdered(a.year, a.month, b.month);
    }
  }

  /** The instant orders calendar readings chronologically and tells them apart. */
  lemma ChronologicalOrder(a: DateTime, b: DateTime)
    requires Valid(a) && Valid(b)
    ensures Before(a, b) <==> ToSeconds(a) < ToSeconds(b)
    ensures ToSeconds(a) == ToSeconds(b) <==> a == b
  {
    if Before(a, b) {
      StrictlyLater(a, b);
    } else if Before(b, a) {
      StrictlyLater(b, a);
    }
  }

  lemma StrictlyLater(a: DateTime, b: DateTime)
    requires Valid(a) && Valid(b) && Before(a, b)
    ensures ToSeconds(a) < ToSeconds(b)
  {
    if a.year < b.year || (a.year == b.year && (a.month < b.month || (a.month == b.month && a.day < b.day))) {
      DayNumberOrdered(a, b);
    }
  }
}
