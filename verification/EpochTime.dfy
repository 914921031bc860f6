/** Conversion between seconds and broken-down time, step by step as the code reduces them. */
module EpochTime {
  import opened Calendar

  const MILLENNIUM_SECS: int := 946684800
  const LEAPOCH: int := MILLENNIUM_SECS + SECS_PER_DAY * (31 + 29)
  const LEAPOCH_WDAY: int := 3
  const DAYS_PER_400Y: int := 146097
  const DAYS_PER_100Y: int := 36524
  const DAYS_PER_4Y: int := 1461

  datatype Converted = Done(tm: Tm) | Erange | Einval

  /** Division and remainder as C has them: towards zero. */
  function Quot(a: int, b: int): int
    requires b > 0
  {
    if a >= 0 then a / b else -((-a) / b)
  }

  function Rem(a: int, b: int): int
    requires b > 0
  {
    a - b * Quot(a, b)
  }

  /** A negative remainder is carried over to the period before. */
  lemma CarryOver(a: int, b: int)
    requires b > 0
    ensures Rem(a, b) < 0 ==> Quot(a, b) - 1 == a / b && Rem(a, b) + b == a % b
    ensures Rem(a, b) >= 0 ==> Quot(a, b) == a / b && Rem(a, b) == a % b
  {
    var q, r := Quot(a, b), Rem(a, b);
    hide Quot, Rem;
    assert a == b * q + r && -b < r < b by { TowardsZero(a, b); }
    if r < 0 {
      assert b * (q - 1) == b * q - b;
      Unique(a, b, q - 1, r + b);
    } else {
      Unique(a, b, q, r);
    }
  }

  lemma TowardsZero(a: int, b: int)
    requires b > 0
    ensures a == b * Quot(a, b) + Rem(a, b) && -b < Rem(a, b) < b
  {
    var n := if a < 0 then -a else a;
    var q, r := n / b, n % b;
    assert n == b * q + r && 0 <= r < b;
    assert b * -q == -(b * q);
  }

  lemma Unique(a: int, b: int, q: int, r: int)
    requires b > 0 && a == b * q + r && 0 <= r < b
    ensures a / b == q && a % b == r
  {
    assert a == b * (a / b) + a % b && 0 <= a % b < b;
    SameQuotient(b, q, r, a / b, a % b);
  }

  lemma SameQuotient(b: int, q: int, r: int, p: int, m: int)
    requires b * q + r == b * p + m && 0 <= r < b && 0 <= m < b
    ensures q == p && r == m
  {
    if q > p {
      Times(b, q, p);
    } else if p > q {
      Times(b, p, q);
    }
  }

  lemma Times(b: int, q: int, p: int)
    requires b > 0 && q > p
    ensures b * q >= b * p + b
    decreases q - p
  {
    assert b * q == b * (q - 1) + b;
    if q - 1 > p { Times(b, q - 1, p); }
  }

  // ---- Seconds to broken-down time ----

  /** Years that begin in March: number y is the one that begins in the year 2000 + y. */
  function MarchDays(y: int): int {
    365 * y + y / 4 - y / 100 + y / 400
  }

  /** The months from March on, the days of each and the days before. */
  function MarchMonth(m: nat): int {
    if m == 11 then 29 else if m == 1 || m == 3 || m == 6 || m == 8 then 30 else 31
  }

  function BeforeMarchMonth(m: nat): int {
    if m == 0 then 0 else BeforeMarchMonth(m - 1) + MarchMonth(m - 1)
  }

  /** A count of days from 2000-03-01 taken apart into cycles of 400, 100 and 4 years, years and
      days. */
  ghost predicate Cycles(days: int, qc: int, c: int, q: int, y: int, rest: int) {
    && days == DAYS_PER_400Y * qc + DAYS_PER_100Y * c + DAYS_PER_4Y * q + 365 * y + rest
    && 0 <= c < 4 && 0 <= q < 25 && 0 <= y < 4 && 0 <= rest <= 365
    && (rest == 365 ==> y == 3 && (q != 24 || c == 3))
  }

  /** The cycles of `__secs_to_tm`. */
  method SplitDays(days: int) returns (qc: int, c: int, q: int, y: int, rest: int)
    ensures Cycles(days, qc, c, q, y, rest)
  {
    CarryOver(days, DAYS_PER_400Y);
    qc := Quot(days, DAYS_PER_400Y);
    rest := Rem(days, DAYS_PER_400Y);
    if rest < 0 {
      rest := rest + DAYS_PER_400Y;
      qc := qc - 1;
    }
    hide Quot, Rem;
    c := rest / DAYS_PER_100Y;
    if c == 4 { c := c - 1; }
    rest := rest - c * DAYS_PER_100Y;
    q := rest / DAYS_PER_4Y;
    if q == 25 { q := q - 1; }
    rest := rest - q * DAYS_PER_4Y;
    y := rest / 365;
    if y == 4 { y := y - 1; }
    rest := rest - y * 365;
  }

  function YearsOf(qc: int, c: int, q: int, y: int): int {
    y + 4 * q + 100 * c + 400 * qc
  }

  /** The cycles count the days of the years, and tell the leap years. */
  lemma CycleYears(days: int, qc: int, c: int, q: int, y: int, rest: int)
    requires Cycles(days, qc, c, q, y, rest)
    ensures var n := YearsOf(qc, c, q, y);
            && days == MarchDays(n) + rest && (Leap(2000 + n) <==> y == 0 && (q != 0 || c == 0))
            && (Leap(2001 + n) <==> y == 3 && (q != 24 || c == 3))
  {
    var n := YearsOf(qc, c, q, y);
    Digits(n, y, q + 25 * c + 100 * qc, 4);
    Digits(n, y + 4 * q, c + 4 * qc, 100);
    Digits(n, y + 4 * q + 100 * c, qc, 400);
    ShiftYear(n);
    if y < 3 {
      Digits(n + 1, y + 1, q + 25 * c + 100 * qc, 4);
    } else {
      Digits(n + 1, 0, q + 1 + 25 * c + 100 * qc, 4);
      if q < 24 { Digits(n + 1, 4 * q + 4, c + 4 * qc, 100); } else { Digits(n + 1, 0, c + 1 + 4 * qc, 100); }
      if q < 24 || c < 3 { Digits(n + 1, 4 * q + 4 + 100 * c, qc, 400); } else { Digits(n + 1, 0, qc + 1, 400); }
    }
    ShiftYear(n + 1);
    hide Cycles;
  }

  lemma Digits(n: int, low: int, high: int, d: int)
    requires d == 4 || d == 100 || d == 400
    requires n == low + d * high && 0 <= low < d
    ensures n / d == high && n % d == low
  {
    Unique(n, d, high, low);
  }

  lemma ShiftYear(n: int)
    ensures (2000 + n) % 4 == n % 4 && (2000 + n) % 100 == n % 100 && (2000 + n) % 400 == n % 400
  {
    Same(n, 500, 4);
    Same(n, 20, 100);
    Same(n, 5, 400);
  }

  lemma Same(n: int, k: int, d: int)
    requires d == 4 || d == 100 || d == 400
    ensures (d * k + n) % d == n % d
  {
    Unique(d * k + n, d, k + n / d, n % d);
  }

  /** March 1 in terms of whole years. */
  lemma MarchStart(n: int)
    ensures DaysTo(2000 + n) + 59 + (if Leap(2000 + n) then 1 else 0) == DaysTo(2000) + 60 + MarchDays(n)
    ensures DaysTo(2001 + n) == DaysTo(2000 + n) + YearDays(2000 + n)
  {
    hide Leap, DaysTo, MarchDays;
    DaysToStep(2000 + n);
    Whole(n);
  }

  lemma Whole(n: int)
    ensures DaysTo(2001 + n) == DaysTo(2000) + 366 + MarchDays(n)
  {
    Shift(n + 4, 500, 4);
    Shift(n + 100, 20, 100);
    Shift(n + 400, 5, 400);
    Shift(n, 1, 4);
    Shift(n, 1, 100);
    Shift(n, 1, 400);
  }

  /** The calendar months as months from March on. */
  lemma MarchMonths(m: nat, leap: bool)
    requires m < 12
    ensures BeforeMarchMonth(m) + MarchMonth(m) <= 366 && (m == 11 ==> BeforeMarchMonth(m) == 337)
    ensures m < 10 ==> DaysBefore(m + 2, leap) == 59 + (if leap then 1 else 0) + BeforeMarchMonth(m)
    ensures m < 10 ==> MonthDays(m + 2, leap) == MarchMonth(m) && BeforeMarchMonth(m) + MarchMonth(m) <= 306
    ensures m >= 10 ==> DaysBefore(m - 10, leap) == BeforeMarchMonth(m) - 306 && BeforeMarchMonth(m) >= 306
    ensures m >= 10 ==> MonthDays(m - 10, leap) == MarchMonth(m) - (if m == 11 && !leap then 1 else 0)
  {
    MonthSums(leap);
    MarchSums();
    hide DaysBefore, BeforeMarchMonth;
  }

  lemma MarchSums()
    ensures BeforeMarchMonth(0) == 0 && BeforeMarchMonth(1) == 31 && BeforeMarchMonth(2) == 61
    ensures BeforeMarchMonth(3) == 92 && BeforeMarchMonth(4) == 122 && BeforeMarchMonth(5) == 153
    ensures BeforeMarchMonth(6) == 184 && BeforeMarchMonth(7) == 214 && BeforeMarchMonth(8) == 245
    ensures BeforeMarchMonth(9) == 275 && BeforeMarchMonth(10) == 306 && BeforeMarchMonth(11) == 337
  {
    assert BeforeMarchMonth(2) == BeforeMarchMonth(1) + MarchMonth(1);
    assert BeforeMarchMonth(3) == BeforeMarchMonth(2) + MarchMonth(2);
    assert BeforeMarchMonth(4) == BeforeMarchMonth(3) + MarchMonth(3);
    assert BeforeMarchMonth(5) == BeforeMarchMonth(4) + MarchMonth(4);
    assert BeforeMarchMonth(6) == BeforeMarchMonth(5) + MarchMonth(5);
    assert BeforeMarchMonth(7) == BeforeMarchMonth(6) + MarchMonth(6);
    assert BeforeMarchMonth(8) == BeforeMarchMonth(7) + MarchMonth(7);
    assert BeforeMarchMonth(9) == BeforeMarchMonth(8) + MarchMonth(8);
    assert BeforeMarchMonth(10) == BeforeMarchMonth(9) + MarchMonth(9);
    assert BeforeMarchMonth(11) == BeforeMarchMonth(10) + MarchMonth(10);
  }

  /** The month loop of `__secs_to_tm`. */
  method FindMonth(rest0: int) returns (months: nat, rest: int)
    requires 0 <= rest0 <= 365
    ensures months < 12 && 0 <= rest < MarchMonth(months) && rest0 == BeforeMarchMonth(months) + rest
  {
    months, rest := 0, rest0;
    while rest >= MarchMonth(months)
      invariant months < 12 && 0 <= rest && rest0 == BeforeMarchMonth(months) + rest
      decreases 12 - months
    {
      MarchMonths(months, true);
      rest := rest - MarchMonth(months);
      months := months + 1;
    }
  }

  /** The date that the pieces make is the one of the day. */
  lemma DateOfPieces(days: int, qc: int, c: int, q: int, y: int, rest0: int, months: nat, rest: int, tm: Tm)
    requires Cycles(days, qc, c, q, y, rest0)
    requires months < 12 && 0 <= rest < MarchMonth(months) && rest0 == BeforeMarchMonth(months) + rest
    requires tm.mday == rest + 1 && tm.wday == (3 + days) % 7
    requires tm.year == YearsOf(qc, c, q, y) + (if months >= 10 then 101 else 100)
    requires tm.mon == (if months >= 10 then months - 10 else months + 2)
    requires var leap := if y == 0 && (q != 0 || c == 0) then 1 else 0; var d := rest0 + 59 + leap;
             tm.yday == if d >= 365 + leap then d - (365 + leap) else d
    ensures ValidDate(tm) && DayNumber(tm.year, tm.mon, tm.mday) == days + 11017
  {
    hide DaysTo, MarchDays, DaysBefore, BeforeMarchMonth, Leap, MonthDays;
    var n := YearsOf(qc, c, q, y);
    CycleYears(days, qc, c, q, y, rest0);
    MarchStart(n);
    MarchMonths(months, Leap(1900 + tm.year));
    assert DaysTo(2000) - DaysTo(1970) == 10957 by { Anchor(); }
    WeekDay(days);
  }

  lemma Anchor()
    ensures DaysTo(2000) - DaysTo(1970) == 10957
  {
  }

  lemma WeekDay(days: int)
    ensures (4 + (days + 11017)) % 7 == (3 + days) % 7
  {
    assert 4 + (days + 11017) == (3 + days) + 7 * 1574;
  }

  ghost predicate InRange(t: int) {
    INT_MIN * 31622400 <= t <= INT_MAX * 31622400
  }

  /** `__secs_to_tm`: the broken-down time that stands for t. */
  method SecsToTm(t: int) returns (r: Converted)
    ensures r == Einval <==> !InRange(t)
    ensures r.Done? ==> ValidTm(r.tm) && SecsOf(r.tm) == t && INT_MIN <= r.tm.year <= INT_MAX
    ensures r == Erange ==> forall tm | ValidTm(tm) && SecsOf(tm) == t :: !(INT_MIN <= tm.year <= INT_MAX)
  {
    hide ValidTm, SecsOf, ValidDate, DayNumber, Quot, Rem, Leap, MarchMonth, BeforeMarchMonth;
    if t < INT_MIN * 31622400 || t > INT_MAX * 31622400 { return Einval; }
    var secs := t - LEAPOCH;
    var days, remsecs := Quot(secs, SECS_PER_DAY), Rem(secs, SECS_PER_DAY);
    TowardsZero(secs, SECS_PER_DAY);
    if remsecs < 0 {
      remsecs := remsecs + SECS_PER_DAY;
      days := days - 1;
    }
    assert secs == SECS_PER_DAY * days + remsecs && 0 <= remsecs < SECS_PER_DAY;
    var wday := Rem(LEAPOCH_WDAY + days, 7);
    CarryOver(LEAPOCH_WDAY + days, 7);
    if wday < 0 { wday := wday + 7; }
    var qc, c, q, y, rest0 := SplitDays(days);
    var leap := if y == 0 && (q != 0 || c == 0) then 1 else 0;
    var yday := rest0 + 31 + 28 + leap;
    if yday >= 365 + leap { yday := yday - (365 + leap); }
    var years := y + 4 * q + 100 * c + 4 * 100 * qc;
    var months0, rest := FindMonth(rest0);
    var months: int := months0;
    if months >= 10 {
      months := months - 12;
      years := years + 1;
    }
    ghost var want :=
      Tm(years + 100, months + 2, rest + 1, remsecs / 3600, remsecs / 60 % 60, remsecs % 60, wday, yday);
    DateOfPieces(days, qc, c, q, y, rest0, months0, rest, want);
    TimeOfDay(remsecs);
    FullTm(want, t, days, remsecs);
    if years + 100 > INT_MAX || years + 100 < INT_MIN {
      forall tm | ValidTm(tm) && SecsOf(tm) == t ensures tm.year == want.year { OneTm(tm, want); }
      return Erange;
    }
    return Done(Tm(years + 100, months + 2, rest + 1, remsecs / 3600, remsecs / 60 % 60, remsecs % 60, wday, yday));
  }

  lemma TimeOfDay(s: int)
    requires 0 <= s < SECS_PER_DAY
    ensures 0 <= s / 3600 < 24 && 0 <= s / 60 % 60 < 60 && 0 <= s % 60 < 60
    ensures 3600 * (s / 3600) + 60 * (s / 60 % 60) + s % 60 == s
  {
    var m := s / 60;
    assert s / 3600 == m / 60 by { Sixties(s); }
  }

  lemma Sixties(s: nat)
    ensures s / 3600 == s / 60 / 60
  {
  }

  lemma FullTm(tm: Tm, t: int, days: int, remsecs: int)
    requires ValidDate(tm) && ValidTime(tm) && DayNumber(tm.year, tm.mon, tm.mday) == days + 11017
    requires t - LEAPOCH == SECS_PER_DAY * days + remsecs && 3600 * tm.hour + 60 * tm.min + tm.sec == remsecs
    ensures ValidTm(tm) && SecsOf(tm) == t
  {
    hide DayNumber, ValidDate;
    SecsSplit(tm);
  }

  // ---- Broken-down time to seconds ----

  /** The years for which the count of leap days is rounded the wrong way: those before 1968 in
      the short cut, unless they are leap years. */
  predicate Misrounded(year: int) {
    2 <= year <= 67 && year % 4 != 0
  }

  /** `__year_to_secs`: the seconds to the start of the year, a day too many for some years. */
  method YearToSecs(year: int) returns (secs: int, leap: bool)
    ensures leap == Leap(1900 + year)
    ensures secs == SECS_PER_DAY * (DaysTo(1900 + year) - DaysTo(1970) + if Misrounded(year) then 1 else 0)
  {
    if 0 <= year - 2 <= 136 {
      var y := year - 68;
      var leaps := Quot(y, 4);
      leap := false;
      if Rem(y, 4) == 0 {
        leaps := leaps - 1;
        leap := true;
      }
      ShortCut(year);
      hide DaysTo, Leap, Quot, Rem;
      return SECS_PER_DAY * 365 * (year - 70) + SECS_PER_DAY * leaps, leap;
    }
    var cycles, rem := Quot(year - 100, 400), Rem(year - 100, 400);
    CarryOver(year - 100, 400);
    if rem < 0 {
      cycles := cycles - 1;
      rem := rem + 400;
    }
    hide Quot, Rem, DaysTo, Leap, CycleLeaps;
    CycleStart(year, cycles, rem);
    var centuries, leaps;
    centuries, leaps, leap := WithinCycle(rem);
    leaps := leaps + 97 * cycles + 24 * centuries - (if leap then 1 else 0);
    secs := (year - 100) * 365 * SECS_PER_DAY + leaps * SECS_PER_DAY + MILLENNIUM_SECS + SECS_PER_DAY;
  }

  /** The leap days of the years of a cycle of 400 before year rem0 of the cycle. */
  function CycleLeaps(rem: int): int {
    (rem + 3) / 4 - (rem + 99) / 100 + (rem + 399) / 400
  }

  /** The centuries and leap days of `__year_to_secs` for year rem0 of a cycle. */
  method WithinCycle(rem0: int) returns (centuries: int, leaps: int, leap: bool)
    requires 0 <= rem0 < 400
    ensures leap <==> rem0 % 4 == 0 && (rem0 % 100 != 0 || rem0 == 0)
    ensures leaps + 24 * centuries + 1 - (if leap then 1 else 0) == CycleLeaps(rem0)
  {
    var rem := rem0;
    if rem == 0 { return 0, 0, true; }
    if rem >= 200 {
      if rem >= 300 { centuries, rem := 3, rem - 300; } else { centuries, rem := 2, rem - 200; }
    } else {
      if rem >= 100 { centuries, rem := 1, rem - 100; } else { centuries := 0; }
    }
    Century(rem0, centuries, rem);
    if rem == 0 {
      leap := false;
      leaps := 0;
    } else {
      leaps := rem / 4;
      rem := rem % 4;
      leap := rem == 0;
    }
  }

  lemma Century(rem0: int, centuries: int, rem: int)
    requires rem0 == 100 * centuries + rem && 0 <= rem < 100 && 0 <= centuries < 4 && rem0 > 0
    ensures rem0 % 100 == rem && rem0 % 4 == rem % 4
    ensures CycleLeaps(rem0) == 24 * centuries + (if rem == 0 then 1 else (rem + 3) / 4)
  {
    Digits(rem0, rem, centuries, 100);
    Same(rem, 25 * centuries, 4);
    Shift(rem + 3, 25 * centuries, 4);
    Shift(rem + 99, centuries, 100);
  }

  /** The short cut, from 1902 to 2038. */
  lemma ShortCut(year: int)
    requires 2 <= year <= 138
    ensures Leap(1900 + year) <==> Rem(year - 68, 4) == 0
    ensures DaysTo(1900 + year) - DaysTo(1970) + (if Misrounded(year) then 1 else 0) ==
            365 * (year - 70) + Quot(year - 68, 4) - (if Rem(year - 68, 4) == 0 then 1 else 0)
  {
    hide Quot, Rem, Leap, DaysTo;
    NoCentury(year);
    FourthYears(year);
  }

  /** The century in the short cut is a leap year like any fourth one. */
  lemma NoCentury(year: int)
    requires 2 <= year <= 138
    ensures Leap(1900 + year) <==> year % 4 == 0
    ensures DaysTo(1900 + year) - DaysTo(1970) == 365 * (year - 70) + (year + 3) / 4 - 18
  {
    Shift(year + 3, 475, 4);
    Same(year, 475, 4);
    Unique(1900 + year + 99, 100, if year <= 100 then 20 else 21, if year <= 100 then year - 1 else year - 101);
    Unique(1900 + year + 399, 400, if year <= 100 then 5 else 6, if year <= 100 then year + 299 else year - 101);
    LeapIn(year);
  }

  lemma LeapIn(year: int)
    requires 2 <= year <= 138
    ensures Leap(1900 + year) <==> year % 4 == 0
  {
    Same(year, 475, 4);
    if year < 100 {
      Unique(1900 + year, 100, 19, year);
    } else {
      Unique(1900 + year, 100, 20, year - 100);
      Unique(1900 + year, 400, 5, year - 100);
    }
  }

  lemma FourthYears(year: int)
    ensures Rem(year - 68, 4) == 0 <==> year % 4 == 0
    ensures 2 <= year ==> Quot(year - 68, 4) - (if year % 4 == 0 then 1 else 0) ==
                          (year + 3) / 4 - 18 + (if Misrounded(year) then 1 else 0)
  {
    CarryOver(year - 68, 4);
    Shift(year - 68, 17, 4);
    Same(year - 68, 17, 4);
    assert (year + 3) / 4 == year / 4 + (if year % 4 == 0 then 0 else 1);
  }

  /** Years and leap days in cycles of 400. */
  lemma CycleStart(year: int, cycles: int, rem: int)
    requires year - 100 == 400 * cycles + rem && 0 <= rem < 400
    ensures Leap(1900 + year) <==> rem % 4 == 0 && (rem % 100 != 0 || rem == 0)
    ensures DaysTo(1900 + year) - DaysTo(1970) ==
            365 * (year - 100) + 97 * cycles + CycleLeaps(rem) + 10957
  {
    Shift(rem + 3, 500 + 100 * cycles, 4);
    Shift(rem + 99, 20 + 4 * cycles, 100);
    Shift(rem + 399, 5 + cycles, 400);
    Same(rem, 500 + 100 * cycles, 4);
    Same(rem, 20 + 4 * cycles, 100);
    Same(rem, 5 + cycles, 400);
    Anchor();
  }

  /** `__month_to_secs` */
  function MonthToSecs(month: nat, leap: bool): int
    requires month < 12
  {
    var days := [0, 31, 59, 90, 120, 151, 181, 212, 243, 273, 304, 334];
    SECS_PER_DAY * days[month] + if leap && month >= 2 then SECS_PER_DAY else 0
  }

  /** `__tm_to_secs`: exact for every year but the misrounded ones. */
  method TmToSecs(tm: Tm) returns (t: int)
    ensures t == SecsOf(tm) + if Misrounded(tm.year + tm.mon / 12) then SECS_PER_DAY else 0
    ensures t == PosixSecs(Carried(tm)) + if Misrounded(tm.year + tm.mon / 12) then 86400 else 0
  {
    SecsFormula(tm);
    hide PosixSecs, Carried;
    var year, month := tm.year, tm.mon;
    if month >= 12 || month < 0 {
      var adj := Quot(month, 12);
      month := Rem(month, 12);
      CarryOver(tm.mon, 12);
      if month < 0 {
        adj := adj - 1;
        month := month + 12;
      }
      year := year + adj;
    }
    hide Quot, Rem, DaysTo, Leap;
    assert year == tm.year + tm.mon / 12 && month == tm.mon % 12;
    var leap;
    t, leap := YearToSecs(year);
    MonthStart(month, leap);
    hide MonthToSecs, DaysBefore;
    t := t + MonthToSecs(month, leap);
    t := t + SECS_PER_DAY * (tm.mday - 1);
    t := t + 3600 * tm.hour;
    t := t + 60 * tm.min;
    t := t + tm.sec;
  }

  lemma MonthStart(month: nat, leap: bool)
    requires month < 12
    ensures MonthToSecs(month, leap) == SECS_PER_DAY * DaysBefore(month, leap)
  {
    MonthSums(leap);
    hide DaysBefore;
  }

  /** Round trip: broken-down time and back is the identity, exactly outside the misrounded
      years. */
  method SecsRoundTrip(t: int) returns (r: Converted, u: int)
    ensures r.Done? ==> (u == t <==> !Misrounded(r.tm.year)) && (Misrounded(r.tm.year) ==> u == t + SECS_PER_DAY)
    ensures r == Einval <==> !InRange(t)
  {
    hide SecsOf, PosixSecs, Carried;
    r := SecsToTm(t);
    u := t;
    if r.Done? { u := TmToSecs(r.tm); }
  }

  /** The first second of 1967, converted to a broken-down time and back, is a day late. */
  method MisroundedForExample() returns (r: Converted, u: int)
    ensures r == Done(Tm(67, 0, 1, 0, 0, 0, 0, 0)) && SecsOf(r.tm) == -94694400 && u == -94694400 + SECS_PER_DAY
  {
    hide SecsOf, ValidDate, PosixSecs, Carried;
    var tm := Tm(67, 0, 1, 0, 0, 0, 0, 0);
    DateOf1967(tm);
    SecsOf1967(tm);
    r := SecsToTm(-94694400);
    if r.Done? { OneTm(r.tm, tm); }
    u := TmToSecs(tm);
  }

  lemma NewYear1967()
    ensures DayNumber(67, 0, 1) == -1096
    ensures DaysBefore(0, Leap(1967)) == 0 && MonthDays(0, Leap(1967)) == 31
  {
    assert DaysTo(1967) - DaysTo(1970) == -1096;
    hide DaysTo, Leap;
  }

  lemma DateOf1967(tm: Tm)
    requires tm == Tm(67, 0, 1, 0, 0, 0, 0, 0)
    ensures ValidDate(tm)
  {
    NewYear1967();
    hide DayNumber, DaysBefore, Leap;
  }

  lemma SecsOf1967(tm: Tm)
    requires tm == Tm(67, 0, 1, 0, 0, 0, 0, 0)
    ensures SecsOf(tm) == -94694400
  {
    NewYear1967();
    hide DayNumber;
  }

  /** ... and the other way round, for valid broken-down times. */
  method TmRoundTrip(tm: Tm) returns (t: int, r: Converted)
    requires ValidTm(tm) && INT_MIN <= tm.year <= INT_MAX && InRange(SecsOf(tm)) && !Misrounded(tm.year)
    ensures r == Done(tm) && t == SecsOf(tm)
  {
    hide SecsOf, PosixSecs, Carried;
    assert tm.year + tm.mon / 12 == tm.year;
    t := TmToSecs(tm);
    r := SecsToTm(t);
    if r.Done? { OneTm(r.tm, tm); }
  }

  /** `clock_mk_epoch_time`: the seconds of any broken-down time, and its normal form. It reports ERANGE
      for both failures of the conversion, and they mean the same. */
  method MkEpochTime(tm: Tm) returns (r: Converted, t: int)
    ensures t == SecsOf(tm) + if Misrounded(tm.year + tm.mon / 12) then SECS_PER_DAY else 0
    ensures r.Done? || r == Erange
    ensures r == Erange <==> forall u | ValidTm(u) && SecsOf(u) == t :: !(INT_MIN <= u.year <= INT_MAX)
    ensures r.Done? ==> ValidTm(r.tm) && SecsOf(r.tm) == t
    ensures r.Done? && ValidTm(tm) && !Misrounded(tm.year) ==> r.tm == tm
  {
    hide SecsOf, InRange, ValidDate, PosixSecs, Carried;
    t := TmToSecs(tm);
    r := SecsToTm(t);
    if r == Einval {
      forall u | ValidTm(u) && SecsOf(u) == t ensures !(INT_MIN <= u.year <= INT_MAX) { YearInRange(u); }
      return Erange, t;
    }
    if r.Done? && ValidTm(tm) && !Misrounded(tm.year) { SameMonth(tm); OneTm(r.tm, tm); }
  }

  lemma SameMonth(tm: Tm)
    requires ValidTm(tm)
    ensures tm.mon / 12 == 0
  {
  }

  /** Times of all years that can be represented pass the first test of the conversion. */
  lemma YearInRange(u: Tm)
    requires ValidTm(u)
    ensures INT_MIN <= u.year <= INT_MAX ==> InRange(SecsOf(u))
  {
    if !(INT_MIN <= u.year <= INT_MAX) { return; }
    var n := DayNumber(u.year, u.mon, u.mday);
    assert u.year + u.mon / 12 == u.year && u.mon % 12 == u.mon;
    DayBounds(u.year, u.mon, u.mday);
    hide DayNumber, ValidDate;
    assert SecsOf(u) == 86400 * n + 3600 * u.hour + 60 * u.min + u.sec;
  }

  lemma DayBounds(year: int, mon: nat, mday: int)
    requires INT_MIN <= year <= INT_MAX && mon < 12 && 1 <= mday <= MonthDays(mon, Leap(1900 + year))
    ensures 366 * INT_MIN <= DayNumber(year, mon, mday) < 366 * INT_MAX
  {
    MonthSums(Leap(1900 + year));
    hide Leap;
    YearBounds(year);
    hide DaysTo;
    assert 0 <= DaysBefore(mon, Leap(1900 + year)) <= 337;
  }

  lemma YearBounds(year: int)
    requires INT_MIN <= year <= INT_MAX
    ensures 366 * INT_MIN <= DaysTo(1900 + year) - DaysTo(1970) <= 366 * INT_MAX - 400
  {
  }
}
