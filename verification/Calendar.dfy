/** The proleptic Gregorian calendar and POSIX seconds since the Epoch, as the conversions should
    have them. */
module Calendar {
  const SECS_PER_DAY: int := 86400
  const INT_MAX: int := 0x7FFF_FFFF
  const INT_MIN: int := -0x8000_0000

  /** `kernel_tm`; years count from 1900, months from 0, days of the month from 1. */
  datatype Tm = Tm(year: int, mon: int, mday: int, hour: int, min: int, sec: int, wday: int, yday: int)

  predicate Leap(y: int) {
    y % 4 == 0 && (y % 100 != 0 || y % 400 == 0)
  }

  function YearDays(y: int): int {
    if Leap(y) then 366 else 365
  }

  /** Days from the start of year 0 to the start of year y. */
  function DaysTo(y: int): int {
    365 * y + (y + 3) / 4 - (y + 99) / 100 + (y + 399) / 400
  }

  function MonthDays(m: int, leap: bool): int {
    if m == 1 then (if leap then 29 else 28) else if m == 3 || m == 5 || m == 8 || m == 10 then 30 else 31
  }

  /** Days of the year before month m. */
  function DaysBefore(m: nat, leap: bool): int {
    if m == 0 then 0 else DaysBefore(m - 1, leap) + MonthDays(m - 1, leap)
  }

  /** DaysTo counts the days of the years. */
  lemma DaysToStep(y: int)
    ensures DaysTo(y + 1) == DaysTo(y) + YearDays(y)
  {
    FloorStep(y + 3, 4);
    FloorStep(y + 99, 100);
    FloorStep(y + 399, 400);
    Multiples(y);
  }

  lemma FloorStep(x: int, d: int)
    requires d == 4 || d == 100 || d == 400
    ensures (x + 1) / d == x / d + (if (x + 1) % d == 0 then 1 else 0)
  {
  }

  lemma Multiples(y: int)
    ensures y % 400 == 0 ==> y % 100 == 0
    ensures y % 100 == 0 ==> y % 4 == 0
    ensures (y + 4) % 4 == y % 4 && (y + 100) % 100 == y % 100 && (y + 400) % 400 == y % 400
  {
    var a, b := y / 400, y / 100;
    assert y % 400 == 0 ==> y == 100 * (4 * a);
    assert y % 100 == 0 ==> y == 4 * (25 * b);
  }

  lemma {:induction false} YearsApart(y: int, z: int)
    requires y <= z
    ensures DaysTo(y) + 365 * (z - y) <= DaysTo(z)
    decreases z - y
  {
    if y < z {
      YearsApart(y, z - 1);
      DaysToStep(z - 1);
    }
  }

  /** Days from the Epoch to a date. */
  function DayNumber(year: int, mon: nat, mday: int): int {
    DaysTo(1900 + year) - DaysTo(1970) + DaysBefore(mon, Leap(1900 + year)) + mday - 1
  }

  /** Seconds from the Epoch; months outside a year are carried into it. */
  function SecsOf(tm: Tm): int {
    SECS_PER_DAY * DayNumber(tm.year + tm.mon / 12, tm.mon % 12, tm.mday) + 3600 * tm.hour + 60 * tm.min + tm.sec
  }

  predicate ValidDate(tm: Tm) {
    && 0 <= tm.mon < 12 && 1 <= tm.mday <= MonthDays(tm.mon, Leap(1900 + tm.year))
    && tm.yday == DaysBefore(tm.mon, Leap(1900 + tm.year)) + tm.mday - 1
    && tm.wday == (4 + DayNumber(tm.year, tm.mon, tm.mday)) % 7
  }

  predicate ValidTime(tm: Tm) {
    0 <= tm.hour < 24 && 0 <= tm.min < 60 && 0 <= tm.sec < 60
  }

  predicate ValidTm(tm: Tm) {
    ValidDate(tm) && ValidTime(tm)
  }

  lemma MonthSums(leap: bool)
    ensures DaysBefore(0, leap) == 0 && DaysBefore(1, leap) == 31
    ensures var f := if leap then 29 else 28;
            && DaysBefore(2, leap) == 31 + f && DaysBefore(3, leap) == 62 + f && DaysBefore(4, leap) == 92 + f
            && DaysBefore(5, leap) == 123 + f && DaysBefore(6, leap) == 153 + f && DaysBefore(7, leap) == 184 + f
            && DaysBefore(8, leap) == 215 + f && DaysBefore(9, leap) == 245 + f && DaysBefore(10, leap) == 276 + f
            && DaysBefore(11, leap) == 306 + f && DaysBefore(12, leap) == 337 + f
  {
    assert DaysBefore(2, leap) == DaysBefore(1, leap) + MonthDays(1, leap);
    assert DaysBefore(3, leap) == DaysBefore(2, leap) + MonthDays(2, leap);
    assert DaysBefore(4, leap) == DaysBefore(3, leap) + MonthDays(3, leap);
    assert DaysBefore(5, leap) == DaysBefore(4, leap) + MonthDays(4, leap);
    assert DaysBefore(6, leap) == DaysBefore(5, leap) + MonthDays(5, leap);
    assert DaysBefore(7, leap) == DaysBefore(6, leap) + MonthDays(6, leap);
    assert DaysBefore(8, leap) == DaysBefore(7, leap) + MonthDays(7, leap);
    assert DaysBefore(9, leap) == DaysBefore(8, leap) + MonthDays(8, leap);
    assert DaysBefore(10, leap) == DaysBefore(9, leap) + MonthDays(9, leap);
    assert DaysBefore(11, leap) == DaysBefore(10, leap) + MonthDays(10, leap);
    assert DaysBefore(12, leap) == DaysBefore(11, leap) + MonthDays(11, leap);
  }

  lemma {:induction false} MonthsApart(m: nat, n: nat, leap: bool)
    requires m < n
    ensures DaysBefore(m, leap) + MonthDays(m, leap) <= DaysBefore(n, leap)
  {
    if m < n - 1 { MonthsApart(m, n - 1, leap); }
  }

  lemma YdayInYear(tm: Tm)
    requires ValidDate(tm)
    ensures 0 <= tm.yday < YearDays(1900 + tm.year)
    ensures DayNumber(tm.year, tm.mon, tm.mday) == DaysTo(1900 + tm.year) - DaysTo(1970) + tm.yday
    ensures tm.wday == (4 + DayNumber(tm.year, tm.mon, tm.mday)) % 7
  {
    var l := Leap(1900 + tm.year);
    MonthSums(l);
    MonthsApart(tm.mon, 12, l);
    if tm.mon > 0 { MonthsApart(0, tm.mon, l); }
  }

  /** One date for one day: valid broken-down times with the same seconds are the same. */
  lemma OneTm(a: Tm, b: Tm)
    requires ValidTm(a) && ValidTm(b) && SecsOf(a) == SecsOf(b)
    ensures a == b
  {
    hide DaysTo, DayNumber, ValidDate, DaysBefore;
    SecsSplit(a);
    SecsSplit(b);
    var da, db := DayNumber(a.year, a.mon, a.mday), DayNumber(b.year, b.mon, b.mday);
    SameDay(da, 3600 * a.hour + 60 * a.min + a.sec, db, 3600 * b.hour + 60 * b.min + b.sec);
    OneYear(a, b);
    OneMonth(a, b);
  }

  lemma SecsSplit(a: Tm)
    requires ValidTm(a)
    ensures 0 <= a.mon < 12
    ensures SecsOf(a) == SECS_PER_DAY * DayNumber(a.year, a.mon, a.mday) + (3600 * a.hour + 60 * a.min + a.sec)
    ensures 0 <= 3600 * a.hour + 60 * a.min + a.sec < SECS_PER_DAY
  {
    hide DayNumber, DaysBefore;
  }

  lemma OneYear(a: Tm, b: Tm)
    requires ValidDate(a) && ValidDate(b) && DayNumber(a.year, a.mon, a.mday) == DayNumber(b.year, b.mon, b.mday)
    ensures a.year == b.year && a.yday == b.yday && a.wday == b.wday
  {
    hide DaysTo, DayNumber, DaysBefore, MonthDays, Leap, ValidDate;
    YdayInYear(a);
    YdayInYear(b);
    if a.year < b.year { YearsApart(1900 + a.year + 1, 1900 + b.year); DaysToStep(1900 + a.year); }
    if b.year < a.year { YearsApart(1900 + b.year + 1, 1900 + a.year); DaysToStep(1900 + b.year); }
  }

  lemma OneMonth(a: Tm, b: Tm)
    requires ValidDate(a) && ValidDate(b) && a.year == b.year && a.yday == b.yday
    ensures a.mon == b.mon && a.mday == b.mday
  {
    hide DaysTo, DayNumber, DaysBefore, MonthDays, Leap;
    var l := Leap(1900 + a.year);
    if a.mon < b.mon { MonthsApart(a.mon, b.mon, l); }
    if b.mon < a.mon { MonthsApart(b.mon, a.mon, l); }
  }

  lemma SameDay(d: int, s: int, e: int, r: int)
    requires 0 <= s < SECS_PER_DAY && 0 <= r < SECS_PER_DAY && SECS_PER_DAY * d + s == SECS_PER_DAY * e + r
    ensures d == e && s == r
  {
  }

  /** The formula of "Seconds Since the Epoch", section 4.16 of IEEE Std 1003.1-2017. */
  function PosixSecs(tm: Tm): int {
    tm.sec + tm.min * 60 + tm.hour * 3600 + tm.yday * 86400 + (tm.year - 70) * 31536000 + ((tm.year - 69) / 4) * 86400
    - ((tm.year - 1) / 100) * 86400 + ((tm.year + 299) / 400) * 86400
  }

  lemma PosixFormula(tm: Tm)
    requires ValidTm(tm) && tm.year >= 70
    ensures SecsOf(tm) == PosixSecs(tm)
  {
    hide DaysTo, DayNumber, ValidDate, DaysBefore;
    SecsSplit(tm);
    YdayInYear(tm);
    PosixLeaps(tm.year);
  }

  lemma PosixLeaps(y: int)
    ensures DaysTo(1900 + y) - DaysTo(1970) == 365 * (y - 70) + (y - 69) / 4 - (y - 1) / 100 + (y + 299) / 400
  {
    Shift(y - 69, 493, 4);
    Shift(y - 1, 20, 100);
    Shift(y + 299, 5, 400);
  }

  lemma Shift(x: int, k: int, d: int)
    requires d == 4 || d == 100 || d == 400
    ensures (x + d * k) / d == x / d + k
  {
  }

  // ---- Broken-down times that are not in their normal form ----

  /** Days before month m of a year. */
  function DaysInto(m: int, leap: bool): int {
    if 0 <= m < 12 then [0, 31, 59, 90, 120, 151, 181, 212, 243, 273, 304, 334][m] + (if leap && m >= 2 then 1 else 0)
    else 0
  }

  /** The year and the day of the year that a broken-down time means: twelve months make a year, before
      and after. */
  function Carried(tm: Tm): Tm {
    var y := tm.year + tm.mon / 12;
    tm.(year := y, mon := tm.mon % 12, yday := DaysInto(tm.mon % 12, Leap(1900 + y)) + tm.mday - 1)
  }

  /** The formula of the standard holds of every broken-down time, whatever its fields, once months are
      carried. */
  lemma SecsFormula(tm: Tm)
    ensures SecsOf(tm) == PosixSecs(Carried(tm))
  {
    var y := tm.year + tm.mon / 12;
    MonthSums(Leap(1900 + y));
    PosixLeaps(y);
    hide DaysTo, Leap, DaysBefore;
    assert DaysBefore(tm.mon % 12, Leap(1900 + y)) == DaysInto(tm.mon % 12, Leap(1900 + y));
    assert DayNumber(y, tm.mon % 12, tm.mday) == DaysTo(1900 + y) - DaysTo(1970) + Carried(tm).yday;
    hide DayNumber, DaysInto;
  }

  /** Twelve months are a year, and each other field counts its unit. */
  lemma CarryLaws(tm: Tm)
    ensures SecsOf(tm.(mon := tm.mon + 12)) == SecsOf(tm.(year := tm.year + 1))
    ensures SecsOf(tm.(mon := tm.mon - 12)) == SecsOf(tm.(year := tm.year - 1))
    ensures SecsOf(tm.(mday := tm.mday + 1)) == SecsOf(tm) + 86400
    ensures SecsOf(tm.(hour := tm.hour + 1)) == SecsOf(tm) + 3600
    ensures SecsOf(tm.(min := tm.min + 1)) == SecsOf(tm) + 60
    ensures SecsOf(tm.(sec := tm.sec + 1)) == SecsOf(tm) + 1
  {
    Twelve(tm.mon);
    hide DaysTo, Leap, DaysBefore;
  }

  lemma Twelve(m: int)
    ensures (m + 12) / 12 == m / 12 + 1 && (m + 12) % 12 == m % 12
    ensures (m - 12) / 12 == m / 12 - 1 && (m - 12) % 12 == m % 12
  {
  }

  /** The month after a month starts after its days. */
  lemma NextMonth(tm: Tm)
    requires 0 <= tm.mon < 11
    ensures SecsOf(tm.(mon := tm.mon + 1)) == SecsOf(tm) + 86400 * MonthDays(tm.mon, Leap(1900 + tm.year))
  {
    hide DaysTo, Leap;
    assert (tm.mon + 1) / 12 == 0 && (tm.mon + 1) % 12 == tm.mon + 1 && tm.mon / 12 == 0 && tm.mon % 12 == tm.mon;
    var l := Leap(1900 + tm.year);
    assert DaysBefore(tm.mon + 1, l) == DaysBefore(tm.mon, l) + MonthDays(tm.mon, l);
    hide DaysBefore, MonthDays;
  }

  /** A day later is the next day of the week. */
  lemma WeekDays(a: Tm, b: Tm)
    requires ValidTm(a) && ValidTm(b) && SecsOf(b) == SecsOf(a) + 86400
    ensures b.wday == (a.wday + 1) % 7
  {
    hide DaysTo, DayNumber, DaysBefore, MonthDays, Leap, SecsOf;
    SecsSplit(a);
    SecsSplit(b);
    var da, db := DayNumber(a.year, a.mon, a.mday), DayNumber(b.year, b.mon, b.mday);
    SameDay(da + 1, 3600 * a.hour + 60 * a.min + a.sec, db, 3600 * b.hour + 60 * b.min + b.sec);
    NextWeekDay(da);
  }

  lemma NextWeekDay(d: int)
    ensures (4 + d + 1) % 7 == ((4 + d) % 7 + 1) % 7
  {
  }

  /** The Epoch was the first of January, a Thursday. */
  lemma EpochIs(a: Tm)
    requires ValidTm(a) && SecsOf(a) == 0
    ensures a == Tm(70, 0, 1, 0, 0, 0, 4, 0)
  {
    hide SecsOf, ValidDate;
    var e := Tm(70, 0, 1, 0, 0, 0, 4, 0);
    EpochDate(e);
    EpochSecs(e);
    OneTm(a, e);
  }

  lemma EpochDay()
    ensures DayNumber(70, 0, 1) == 0 && DaysBefore(0, Leap(1970)) == 0 && MonthDays(0, Leap(1970)) == 31
  {
    hide DaysTo, Leap;
  }

  lemma EpochDate(e: Tm)
    requires e == Tm(70, 0, 1, 0, 0, 0, 4, 0)
    ensures ValidDate(e)
  {
    EpochDay();
    hide DayNumber, DaysBefore, Leap;
  }

  lemma EpochSecs(e: Tm)
    requires e == Tm(70, 0, 1, 0, 0, 0, 4, 0)
    ensures SecsOf(e) == 0
  {
    EpochDay();
    hide DayNumber;
  }
}
