/** Calendar arithmetic of the reader: Go's truncating integer division, the
    Gregorian calendar, the Visual FoxPro datetime conversion (Julian Day
    Number and milliseconds since midnight to calendar fields) and the
    Gregorian-to-Julian-Day formula it inverts. Timestamps are kept as the
    integer fields handed to time.Date, before any normalisation. */
module Calendar {

  /** Go's `/` on ints: the quotient truncated toward zero. */
  function Quot(a: int, b: int): (q: int)
    requires b > 0
    ensures a >= 0 ==> b * q <= a < b * (q + 1)
    ensures a < 0 ==> b * (q - 1) < a <= b * q
  {
    if a >= 0 then a / b else -((-a) / b)
  }

  /** Go's `%` on ints: the remainder takes the sign of the dividend. */
  function Rem(a: int, b: int): (r: int)
    requires b > 0
    ensures a == b * Quot(a, b) + r
    ensures a >= 0 ==> 0 <= r < b
    ensures a < 0 ==> -b < r <= 0
  {
    if a >= 0 then a % b else -((-a) % b)
  }

  datatype Date = Date(year: int, month: int, day: int)
  datatype Clock = Clock(hour: int, minute: int, second: int)
  datatype DateTime = DateTime(date: Date, clock: Clock)

  const Midnight: Clock := Clock(0, 0, 0)

  /** Go's isLeap: the Gregorian leap-year rule. */
  predicate IsLeap(y: int) {
    y % 4 == 0 && (y % 100 != 0 || y % 400 == 0)
  }

  function DaysIn(y: int, m: int): int
    requires 1 <= m <= 12
  {
    if m == 2 then (if IsLeap(y) then 29 else 28)
    else if m == 4 || m == 6 || m == 9 || m == 11 then 30
    else 31
  }

  predicate ValidDate(t: Date) {
    1 <= t.month <= 12 && 1 <= t.day <= DaysIn(t.year, t.month)
  }

  predicate ValidClock(c: Clock) {
    0 <= c.hour < 24 && 0 <= c.minute < 60 && 0 <= c.second < 60
  }

  /** The calendar half of vfpDateTimeToUTC: the Fliegel-Van Flandern
      conversion of a Julian Day Number to a Gregorian date. */
  function JdnToDate(jd: int): Date {
    var s1 := jd + 68569;
    var n := Quot(4 * s1, 146097);
    var s2 := s1 - Quot(146097 * n + 3, 4);
    var i := Quot(4000 * (s2 + 1), 1461001);
    var s3 := s2 - Quot(1461 * i, 4) + 31;
    var q := Quot(80 * s3, 2447);
    var s4 := Quot(q, 11);
    Date(100 * (n - 49) + i + s4, q + 2 - 12 * s4, s3 - Quot(2447 * q, 80))
  }

  /** The time-of-day half of vfpDateTimeToUTC. Whole seconds are split into
      hours, minutes and seconds; the sub-second remainder is dropped. */
  function ClockOf(ms: int): (c: Clock)
    ensures c.hour * 3600 + c.minute * 60 + c.second == Quot(ms, 1000)
    ensures ms >= 0 ==> 0 <= c.hour && 0 <= c.minute < 60 && 0 <= c.second < 60
    ensures ms < 0 ==> c.hour <= 0 && -60 < c.minute <= 0 && -60 < c.second <= 0
  {
    var sec := Quot(ms, 1000);
    var min := Quot(sec, 60);
    var hour := Quot(min, 60);
    Clock(hour, Rem(min, 60), Rem(sec, 60))
  }

  /** vfpDateTimeToUTC, up to the normalisation time.Date would apply. */
  function VfpDateTime(jd: int, ms: int): DateTime {
    DateTime(JdnToDate(jd), ClockOf(ms))
  }

  /** julianDay of the test suite: Gregorian date to Julian Day Number. */
  function JulianDay(y: int, m: int, d: int): int {
    var a := Quot(14 - m, 12);
    var yy := y + 4800 - a;
    var mm := m + 12 * a - 3;
    d + Quot(153 * mm + 2, 5) + 365 * yy + Quot(yy, 4) - Quot(yy, 100) + Quot(yy, 400) - 32045
  }

  // ---------------------------------------------------------------------------
  // Time of day

  /** A time of day written as milliseconds, with any sub-second part, is read
      back as the same hours, minutes and seconds. */
  lemma ClockRoundTrip(h: int, m: int, s: int, f: int)
    requires 0 <= h && 0 <= m < 60 && 0 <= s < 60 && 0 <= f < 1000
    ensures ClockOf(1000 * (3600 * h + 60 * m + s) + f) == Clock(h, m, s)
  {
    var t := 3600 * h + 60 * m + s;
    var ms := 1000 * t + f;
    assert Quot(ms, 1000) == t;
    var c := ClockOf(ms);
    assert 60 * (60 * c.hour + c.minute) + c.second == 60 * (60 * h + m) + s;
    assert c.second == s;
    assert 60 * c.hour + c.minute == 60 * h + m;
  }

  /** Milliseconds within one day give a valid time of day on that same day:
      the largest value, 86 399 999, reads as 23:59:59 and never rolls over. */
  lemma ClockWithinDay(ms: int)
    requires 0 <= ms < 86_400_000
    ensures ValidClock(ClockOf(ms))
    ensures VfpDateTime(0, ms).clock.hour <= 23
  {
  }

  /** The sub-second part of the milliseconds never changes the result. */
  lemma ClockIgnoresSubSecond(ms: int)
    requires ms >= 0
    ensures ClockOf(ms) == ClockOf(1000 * (ms / 1000))
  {
  }

  // ---------------------------------------------------------------------------
  // Julian Day Number round trip

  /** Length of month M of a year counted from March (M = 0 is March,
      M = 11 is February), allowing February 29. */
  function MarchMonthLength(M: int): int
    requires 0 <= M <= 11
  {
    if M == 11 then 29 else if M == 1 || M == 3 || M == 6 || M == 8 then 30 else 31
  }

  /** The century step of JdnToDate recovers the century number n and the day
      w within that century. */
  lemma CenturyStep(s1: int, n: int, w: int)
    requires n >= 1 && 0 <= w
    requires w <= 36523 || (w == 36524 && (n - 1) % 4 == 3)
    requires s1 == 36524 * n + (n - 1) / 4 + w + 1
    ensures Quot(4 * s1, 146097) == n && s1 - Quot(146097 * n + 3, 4) == w
  {
    var c := n - 1;
    assert c == 4 * (c / 4) + c % 4;
    assert 4 * s1 == 146097 * n + (4 * w + 3 - c % 4);
    assert 4 * s1 / 146097 == n;
    assert 146097 * n + 3 == 4 * (36524 * n + c / 4 + 1) + c % 4;
    assert (146097 * n + 3) / 4 == 36524 * n + c / 4 + 1;
  }

  /** The year step of JdnToDate recovers the year i within the century and
      the day within that year (plus the offset 31). */
  lemma YearStep(w: int, i: int, doy: int)
    requires 0 <= i <= 99 && 0 <= doy <= 365
    requires doy == 365 ==> i % 4 == 3
    requires w == 365 * i + i / 4 + doy
    ensures Quot(4000 * (w + 1), 1461001) == i && w - Quot(1461 * i, 4) + 31 == doy + 31
  {
    assert i == 4 * (i / 4) + i % 4;
    assert 4000 * (w + 1) == 1460000 * i + 4000 * (i / 4) + 4000 * (doy + 1);
    assert 1461001 * i <= 4000 * (w + 1) < 1461001 * (i + 1);
    assert 4000 * (w + 1) / 1461001 == i;
    assert 1461 * i == 4 * (365 * i + i / 4) + i % 4;
    assert 1461 * i / 4 == 365 * i + i / 4;
  }

  /** The month step of JdnToDate recovers the month (counted from March,
      plus one) and the day of the month. */
  lemma MonthStep(s3: int, q: int, M: int, d: int)
    requires 0 <= M <= 11 && 1 <= d <= MarchMonthLength(M)
    requires s3 == (153 * M + 2) / 5 + d + 30 && q == M + 1
    ensures Quot(80 * s3, 2447) == q && s3 - Quot(2447 * q, 80) == d
  {
    if M == 0 { assert s3 == d + 30; }
    else if M == 1 { assert s3 == d + 61; }
    else if M == 2 { assert s3 == d + 91; }
    else if M == 3 { assert s3 == d + 122; }
    else if M == 4 { assert s3 == d + 152; }
    else if M == 5 { assert s3 == d + 183; }
    else if M == 6 { assert s3 == d + 214; }
    else if M == 7 { assert s3 == d + 244; }
    else if M == 8 { assert s3 == d + 275; }
    else if M == 9 { assert s3 == d + 305; }
    else if M == 10 { assert s3 == d + 336; }
    else { assert s3 == d + 367; }
  }

  /** Divisions of a non-negative year count by 4, 100 and 400, written in
      terms of its century c and year-in-century i. */
  lemma YearDivisions(Y: int)
    requires Y >= 0
    ensures var c, i := Y / 100, Y % 100;
      Y / 4 == 25 * c + i / 4 && Y / 400 == c / 4
  {
    var c, i := Y / 100, Y % 100;
    assert Y == 100 * c + i;
    assert Y == 4 * (25 * c + i / 4) + i % 4;
    assert Y == 400 * (c / 4) + (100 * (c % 4) + i);
  }

  /** JdnToDate evaluated from the values of its intermediate steps. */
  lemma JdnToDateFromSteps(jd: int, s1: int, n: int, w: int, i: int, s3: int, q: int)
    requires s1 == jd + 68569
    requires Quot(4 * s1, 146097) == n
    requires s1 - Quot(146097 * n + 3, 4) == w
    requires Quot(4000 * (w + 1), 1461001) == i
    requires w - Quot(1461 * i, 4) + 31 == s3
    requires Quot(80 * s3, 2447) == q
    ensures JdnToDate(jd) == Date(100 * (n - 49) + i + Quot(q, 11), q + 2 - 12 * Quot(q, 11), s3 - Quot(2447 * q, 80))
  {
  }

  /** Where February 29 falls: in a leap year y, counted as year i of
      century c of the March-based count (y + 4800 = 100 c + i + 1), the year
      i is the last of a four-year cycle, and a century's last year is a leap
      year only in the last century of a 400-year cycle. */
  lemma LeapDayPosition(y: int, c: int, i: int)
    requires IsLeap(y) && 0 <= i <= 99 && y + 4800 == 100 * c + i + 1
    ensures i % 4 == 3 && (i == 99 ==> c % 4 == 3)
  {
    if i == 99 {
      var k := y / 400;
      assert y == 400 * k;
      assert c == 4 * k + 47;
    }
  }

  /** julianDay written in terms of the March-based year count Y (century
      Y / 100, year in century Y % 100), month M counted from March, and day. */
  lemma JulianDayExpanded(y: int, m: int, d: int, a: int, Y: int, M: int)
    requires 1 <= m <= 12 && a == (if m <= 2 then 1 else 0)
    requires Y == y + 4800 - a && Y >= 0 && M == m + 12 * a - 3
    ensures JulianDay(y, m, d) + 68569
      == 36524 * (Y / 100 + 1) + (Y / 100) / 4 + 365 * (Y % 100) + (Y % 100) / 4 + (153 * M + 2) / 5 + d
  {
    assert Quot(14 - m, 12) == a;
    YearDivisions(Y);
  }

  /** A valid date in March-based terms: a = 1 for January and February
      (counted with the previous year), Y the year count from 4800 BC, M the
      month from March, c and i the century and year in century of Y, and doy
      the day of the March-based year. */
  lemma MarchCount(y: int, m: int, d: int) returns (a: int, Y: int, M: int, c: int, i: int, doy: int)
    requires ValidDate(Date(y, m, d)) && y >= -4799
    ensures a == (if m <= 2 then 1 else 0) && Y == y + 4800 - a && Y >= 0 && M == m + 12 * a - 3
    ensures 0 <= M <= 11 && 1 <= d <= MarchMonthLength(M)
    ensures c == Y / 100 && i == Y % 100 && 0 <= i <= 99 && c >= 0
    ensures doy == (153 * M + 2) / 5 + d - 1 && 0 <= doy <= 365
    ensures doy == 365 ==> i % 4 == 3 && (i == 99 ==> c % 4 == 3)
  {
    a := if m <= 2 then 1 else 0;
    Y := y + 4800 - a;
    M := m + 12 * a - 3;
    c, i := Y / 100, Y % 100;
    doy := (153 * M + 2) / 5 + d - 1;
    assert doy == 365 ==> M == 11 && d == 29;
    if doy == 365 {
      LeapDayPosition(y, c, i);
    }
  }

  /** The day w within its century never passes the century's length. */
  lemma DayInCenturyBound(i: int, doy: int)
    requires 0 <= i <= 99 && 0 <= doy <= 365
    ensures var w := 365 * i + i / 4 + doy;
      0 <= w <= 36524 && (w == 36524 ==> i == 99 && doy == 365)
  {
  }

  /** The first two steps of JdnToDate on a date's day number: the shifted
      day number s1, the century n and the day w within it. */
  lemma CenturySteps(y: int, m: int, d: int, a: int, Y: int, M: int, c: int, i: int, doy: int) returns (s1: int, n: int, w: int)
    requires 1 <= m <= 12 && a == (if m <= 2 then 1 else 0) && Y == y + 4800 - a && Y >= 0 && M == m + 12 * a - 3
    requires c == Y / 100 && i == Y % 100 && 0 <= i <= 99 && c >= 0
    requires doy == (153 * M + 2) / 5 + d - 1 && 0 <= doy <= 365
    requires doy == 365 ==> i % 4 == 3 && (i == 99 ==> c % 4 == 3)
    ensures s1 == JulianDay(y, m, d) + 68569 && n == c + 1 && w == 365 * i + i / 4 + doy
    ensures Quot(4 * s1, 146097) == n && s1 - Quot(146097 * n + 3, 4) == w
  {
    s1, n, w := JulianDay(y, m, d) + 68569, c + 1, 365 * i + i / 4 + doy;
    DayInCenturyBound(i, doy);
    JulianDayExpanded(y, m, d, a, Y, M);
    CenturyStep(s1, n, w);
  }

  /** julianDay followed by the calendar half of vfpDateTimeToUTC gives back
      the date, for every valid Gregorian date from year -4799 on (which
      includes every date whose day number is non-negative). */
  lemma {:induction false} JdnToDateInvertsJulianDay(y: int, m: int, d: int)
    requires ValidDate(Date(y, m, d)) && y >= -4799
    ensures JdnToDate(JulianDay(y, m, d)) == Date(y, m, d)
  {
    var a, Y, M, c, i, doy := MarchCount(y, m, d);
    var s1, n, w := CenturySteps(y, m, d, a, Y, M, c, i, doy);
    YearStep(w, i, doy);
    var s3, q := doy + 31, M + 1;
    MonthStep(s3, q, M, d);
    assert Quot(q, 11) == a;
    JdnToDateFromSteps(JulianDay(y, m, d), s1, n, w, i, s3, q);
  }

  /** A valid date with a non-negative day number lies in the range of the
      round trip. */
  lemma NonNegativeDayNumberInRange(y: int, m: int, d: int)
    requires ValidDate(Date(y, m, d)) && JulianDay(y, m, d) >= 0
    ensures y >= -4799
  {
  }

  /** The round trip the VFP datetime test relies on: a date's day number at
      midnight converts back to that date at 00:00:00. */
  lemma VfpDateTimeRoundTrip(y: int, m: int, d: int)
    requires ValidDate(Date(y, m, d)) && JulianDay(y, m, d) >= 0
    ensures VfpDateTime(JulianDay(y, m, d), 0) == DateTime(Date(y, m, d), Midnight)
  {
    NonNegativeDayNumberInRange(y, m, d);
    JdnToDateInvertsJulianDay(y, m, d);
  }

  /** A stored day number and a time within that day convert to the date the
      number was computed from and to a valid time of day whose whole seconds
      are those of the milliseconds. */
  lemma VfpDateTimeOfDay(y: int, m: int, d: int, ms: int)
    requires ValidDate(Date(y, m, d)) && JulianDay(y, m, d) >= 0
    requires 0 <= ms < 86_400_000
    ensures var t := VfpDateTime(JulianDay(y, m, d), ms);
      && t.date == Date(y, m, d)
      && ValidClock(t.clock)
      && 3600 * t.clock.hour + 60 * t.clock.minute + t.clock.second == ms / 1000
  {
    VfpDateTimeRoundTrip(y, m, d);
    ClockWithinDay(ms);
  }

  /** julianDay gives distinct valid dates distinct day numbers, so a day
      number names at most one date. */
  lemma JulianDayInjective(a: Date, b: Date)
    requires ValidDate(a) && a.year >= -4799
    requires ValidDate(b) && b.year >= -4799
    requires JulianDay(a.year, a.month, a.day) == JulianDay(b.year, b.month, b.day)
    ensures a == b
  {
    JdnToDateInvertsJulianDay(a.year, a.month, a.day);
    JdnToDateInvertsJulianDay(b.year, b.month, b.day);
  }
}
