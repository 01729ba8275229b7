/** The two conversions as the formatter computes them, by cycles of fixed length. */
module JalaliDatetime {
  import opened Calendars

  const MonthOffsets: seq<int> := [0, 31, 59, 90, 120, 151, 181, 212, 243, 273, 304, 334]

  // ---- Gregorian to Jalali ----

  /** Leap days from year 0 up to a date. */
  function LeapDaysBefore(year: int, month: int): int {
    var adjusted := if month > 2 then year + 1 else year;
    (adjusted + 3) / 4 - (adjusted + 99) / 100 + (adjusted + 399) / 400
  }

  /** Days from the base year to the date; the base depends on the century rule the code applies. */
  function ElapsedDays(year: int, month: int, day: int): int
    requires 1 <= month <= 12
  {
    365 * year + LeapDaysBefore(year, month) - 80 + day + MonthOffsets[month - 1]
  }

  function GregorianToJalali(g: Date): Date
    requires 1 <= g.month <= 12
  {
    if g.year > 1600 then SplitJalali(979, ElapsedDays(g.year - 1600, g.month, g.day))
    else SplitJalali(0, ElapsedDays(g.year - 621, g.month, g.day))
  }

  /** Split elapsed days into 33-year cycles, 4-year cycles, years, months and days. */
  function SplitJalali(baseYear: int, days: int): Date {
    var inCycle := days % 12053;
    var inFour := inCycle % 1461;
    var year := baseYear + 33 * (days / 12053) + 4 * (inCycle / 1461);
    if inFour > 365 then JalaliDayOfYear(year + (inFour - 1) / 365, (inFour - 1) % 365)
    else JalaliDayOfYear(year, inFour)
  }

  function JalaliDayOfYear(year: int, n: int): Date {
    if n < 186 then Date(year, 1 + n / 31, 1 + n % 31)
    else Date(year, 7 + (n - 186) / 30, 1 + (n - 186) % 30)
  }

  /** The conversion as it runs, rewriting year and days step by step. */
  method ConvertGregorianToJalali(y: int, m: int, d: int) returns (jalaliYear: int, jalaliMonth: int, jalaliDay: int)
    requires 1 <= m <= 12
    ensures Date(jalaliYear, jalaliMonth, jalaliDay) == GregorianToJalali(Date(y, m, d))
    ensures y > 1600 && ValidGregorian(Date(y, m, d)) ==>
      var j := Date(jalaliYear, jalaliMonth, jalaliDay);
      ValidJalali(j) && JalaliDay(j) == GregorianDay(Date(y, m, d))
  {
    var days;
    jalaliYear, days := ElapsedSinceBase(y, m, d);
    jalaliYear, jalaliMonth, jalaliDay := TakeCycles(jalaliYear, days);
    if y > 1600 && ValidGregorian(Date(y, m, d)) {
      GregorianToJalaliKeepsDay(Date(y, m, d));
    }
  }

  /** First half: the base year and the days elapsed since it. */
  method ElapsedSinceBase(y: int, m: int, d: int) returns (jalaliYear: int, days: int)
    requires 1 <= m <= 12
    ensures if y > 1600 then jalaliYear == 979 && days == ElapsedDays(y - 1600, m, d)
      else jalaliYear == 0 && days == ElapsedDays(y - 621, m, d)
  {
    var year := y;
    if year > 1600 {
      jalaliYear := 979;
      year := year - 1600;
    } else {
      jalaliYear := 0;
      year := year - 621;
    }
    var adjusted := if m > 2 then year + 1 else year;
    days := 365 * year + (adjusted + 3) / 4 - (adjusted + 99) / 100 + (adjusted + 399) / 400 - 80 + d
      + MonthOffsets[m - 1];
  }

  /** Second half: take 33-year cycles, 4-year cycles, years and months off the elapsed days. */
  method TakeCycles(baseYear: int, elapsed: int) returns (year: int, month: int, day: int)
    ensures Date(year, month, day) == SplitJalali(baseYear, elapsed)
  {
    var days := elapsed;
    year := baseYear + 33 * (days / 12053);
    days := days % 12053;
    year := year + 4 * (days / 1461);
    days := days % 1461;
    if days > 365 {
      year := year + (days - 1) / 365;
      days := (days - 1) % 365;
    }
    if days < 186 {
      month := 1 + days / 31;
      day := 1 + days % 31;
    } else {
      month := 7 + (days - 186) / 30;
      day := 1 + (days - 186) % 30;
    }
  }

  /** Days before a Gregorian year, without the recursion. */
  lemma {:induction false} GregorianYearStart(year: int)
    requires 1 <= year
    ensures GregorianDaysBeforeYear(year) == 365 * (year - 1) + (year - 1) / 4 - (year - 1) / 100 + (year - 1) / 400
    decreases year
  {
    if year > 1 {
      GregorianYearStart(year - 1);
      LeapQuotients(year - 1);
    }
  }

  lemma QuotientSteps(year: int)
    ensures year / 4 - (year - 1) / 4 == if year % 4 == 0 then 1 else 0
    ensures year / 100 - (year - 1) / 100 == if year % 100 == 0 then 1 else 0
    ensures year / 400 - (year - 1) / 400 == if year % 400 == 0 then 1 else 0
  {
  }

  /** How the three century quotients move at a year. */
  lemma LeapQuotients(year: int)
    ensures year / 4 - (year - 1) / 4 == if year % 4 == 0 then 1 else 0
    ensures year / 100 - (year - 1) / 100 == if year % 100 == 0 then 1 else 0
    ensures year / 400 - (year - 1) / 400 == if year % 400 == 0 then 1 else 0
    ensures year % 400 == 0 ==> year % 100 == 0
    ensures year % 100 == 0 ==> year % 4 == 0
  {
    QuotientSteps(year);
    CenturyIsFourth(year);
    EraIsCentury(year);
  }

  lemma CenturyIsFourth(year: int)
    ensures year % 100 == 0 ==> year % 4 == 0
  {
    if year % 100 == 0 {
      assert year == 4 * (25 * (year / 100));
    }
  }

  lemma EraIsCentury(year: int)
    ensures year % 400 == 0 ==> year % 100 == 0
  {
    if year % 400 == 0 {
      assert year == 100 * (4 * (year / 400));
    }
  }

  lemma GregorianMonthOffset(leap: bool, month: int)
    requires 1 <= month <= 12
    ensures GregorianDaysBeforeMonth(leap, month) == MonthOffsets[month - 1] + if leap && month > 2 then 1 else 0
  {
    assert GregorianDaysBeforeMonth(leap, 3) == if leap then 60 else 59;
    assert GregorianDaysBeforeMonth(leap, 5) == if leap then 121 else 120;
    assert GregorianDaysBeforeMonth(leap, 7) == if leap then 182 else 181;
    assert GregorianDaysBeforeMonth(leap, 9) == if leap then 244 else 243;
    assert GregorianDaysBeforeMonth(leap, 11) == if leap then 305 else 304;
  }

  /** Leap days among the Jalali years up to a year, counted from a year divisible by 33. */
  function JalaliLeapDays(y: int): int {
    (y / 33) * 8 + (y % 33 + 3) / 4
  }

  lemma JalaliLeapStep(year: int)
    ensures JalaliLeapDays(year + 1596) - JalaliLeapDays(year + 1595) == if JalaliLeap(year) then 1 else 0
  {
    var q, r := year / 33, year % 33;
    assert year == 33 * q + r;
    if r + 11 < 33 {
      assert (year + 1595) / 33 == q + 48 && (year + 1595) % 33 == r + 11;
    } else {
      assert (year + 1595) / 33 == q + 49 && (year + 1595) % 33 == r - 22;
    }
    if r + 12 < 33 {
      assert (year + 1596) / 33 == q + 48 && (year + 1596) % 33 == r + 12;
    } else {
      assert (year + 1596) / 33 == q + 49 && (year + 1596) % 33 == r - 21;
    }
  }

  /** Days before a Jalali year, without the recursion. */
  lemma {:induction false} JalaliYearStart(year: int)
    requires 1 <= year
    ensures JalaliDaysBeforeYear(year) == 365 * (year - 1) + JalaliLeapDays(year + 1595) - 387
    decreases year
  {
    if year > 1 {
      JalaliYearStart(year - 1);
      JalaliLeapStep(year - 1);
    }
  }

  /** Days before a Gregorian year counted from year 0, which is a leap year. */
  function YearStart(year: int): int {
    365 * year + (year + 3) / 4 - (year + 99) / 100 + (year + 399) / 400
  }

  lemma YearStartIsDayNumber(year: int)
    requires 1 <= year
    ensures YearStart(year) == GregorianDaysBeforeYear(year) + 366
  {
    GregorianYearStart(year);
    assert (year + 3) / 4 == (year - 1) / 4 + 1;
    assert (year + 99) / 100 == (year - 1) / 100 + 1;
    assert (year + 399) / 400 == (year - 1) / 400 + 1;
  }

  /** A Gregorian day number, without the recursion. */
  lemma GregorianDayCounted(g: Date)
    requires ValidGregorian(g)
    ensures GregorianDay(g) == 365 * g.year + LeapDaysBefore(g.year, g.month) + MonthOffsets[g.month - 1] + g.day - 366
  {
    hide GregorianLeap;
    hide MonthOffsets;
    GregorianMonthOffset(GregorianLeap(g.year), g.month);
    YearStartIsDayNumber(g.year);
    YearStartIsDayNumber(g.year + 1);
  }

  /** The elapsed days count from 979-01-01 of the Jalali calendar. */
  lemma ElapsedIsDayNumber(g: Date)
    requires g.year > 1600 && ValidGregorian(g)
    ensures ElapsedDays(g.year - 1600, g.month, g.day) == GregorianDay(g) - JalaliDay(Date(979, 1, 1))
    ensures ElapsedDays(g.year - 1600, g.month, g.day) >= 0
  {
    BaseShift(g.year, g.month);
    assert JalaliDay(Date(979, 1, 1)) == 584102 by {
      JalaliYearStart(979);
    }
    GregorianDayCounted(g);
    LeapDaysCounted(g.year - 1600, g.month);
    hide GregorianDay;
    hide LeapDaysBefore;
  }

  lemma Fourths(n: int)
    ensures (n - 1600) / 4 == n / 4 - 400
  {
  }

  lemma Centuries(n: int)
    ensures (n - 1600) / 100 == n / 100 - 16
  {
  }

  lemma Eras(n: int)
    ensures (n - 1600) / 400 == n / 400 - 4
  {
  }

  /** 1600 is a whole number of each leap period away. */
  lemma BaseShift(year: int, month: int)
    ensures LeapDaysBefore(year - 1600, month) == LeapDaysBefore(year, month) - 388
  {
    var adjusted := if month > 2 then year + 1 else year;
    Fourths(adjusted + 3);
    Centuries(adjusted + 99);
    Eras(adjusted + 399);
  }

  lemma LeapDaysCounted(year: int, month: int)
    requires 1 <= year
    ensures 0 < LeapDaysBefore(year, month)
  {
  }

  /** The cycles, groups of four, years and days that elapsed days are split into. */
  lemma CycleParts(baseYear: int, days: int) returns (a: int, b: int, c: int, n: int)
    ensures 0 <= b <= 8 && 0 <= c <= 3 && 4 * b + c <= 32 && (0 <= days ==> 0 <= a)
    ensures 0 <= n < if c == 0 && b < 8 then 366 else 365
    ensures days == 12053 * a + 1461 * b + 365 * c + (if c == 0 then 0 else 1) + n
    ensures SplitJalali(baseYear, days) == JalaliDayOfYear(baseYear + 33 * a + 4 * b + c, n)
  {
    hide JalaliDayOfYear;
    var inCycle := days % 12053;
    var inFour := inCycle % 1461;
    a, b := days / 12053, inCycle / 1461;
    if inFour > 365 {
      c, n := (inFour - 1) / 365, (inFour - 1) % 365;
    } else {
      c, n := 0, inFour;
    }
  }

  /** Splitting elapsed days lands on the Jalali date of that day. */
  lemma SplitKeepsDay(days: int)
    requires days >= 0
    ensures var j := SplitJalali(979, days);
      ValidJalali(j) && j.year >= 979 && JalaliDay(j) == JalaliDay(Date(979, 1, 1)) + days
  {
    hide JalaliDayOfYear;
    hide SplitJalali;
    hide JalaliLeap;
    var a, b, c, n := CycleParts(979, days);
    CycleYearStart(a, b, c);
    DayOfYearInMonths(979 + 33 * a + 4 * b + c, c == 0 && b < 8, n);
    assert JalaliDaysBeforeMonth(1) == 0;
  }

  /** Year 979 starts a cycle: the b-th group of four in it starts with a leap year. */
  lemma CycleYearStart(a: int, b: int, c: int)
    requires 0 <= a && 0 <= b <= 8 && 0 <= c <= 3 && 4 * b + c <= 32
    ensures var year := 979 + 33 * a + 4 * b + c;
      && JalaliDaysBeforeYear(year) - JalaliDaysBeforeYear(979) == 12053 * a + 1461 * b + 365 * c
           + (if c == 0 then 0 else 1)
      && (JalaliLeap(year) <==> c == 0 && b < 8)
  {
    hide JalaliLeapDays;
    hide JalaliLeap;
    CycleLeapDays(a, b, c);
    CycleLeapDays(0, 0, 0);
    CycleLeapYears(a, 4 * b + c);
    JalaliYearStart(979);
    JalaliYearStart(979 + 33 * a + 4 * b + c);
  }

  lemma CycleLeapDays(a: int, b: int, c: int)
    requires 0 <= b && 0 <= c <= 3 && 4 * b + c <= 32
    ensures JalaliLeapDays(2574 + 33 * a + 4 * b + c) == 624 + 8 * a + b + (if c == 0 then 0 else 1)
  {
    var y := 33 * (78 + a) + (4 * b + c);
    assert y / 33 == 78 + a && y % 33 == 4 * b + c;
    assert (4 * b + c + 3) / 4 == b + (c + 3) / 4;
  }

  lemma CycleLeapYears(a: int, k: int)
    requires 0 <= k <= 32
    ensures JalaliLeap(979 + 33 * a + k) <==> k in {0, 4, 8, 12, 16, 20, 24, 28}
  {
    var year := 33 * (29 + a) + (22 + k);
    assert year % 33 == if k < 11 then 22 + k else k - 11;
  }

  lemma DayOfYearInMonths(year: int, leap: bool, n: int)
    requires 0 <= n < if leap then 366 else 365
    ensures var j := JalaliDayOfYear(year, n);
      && j.year == year && 1 <= j.month <= 12 && 1 <= j.day <= JalaliMonthLength(leap, j.month)
      && JalaliDaysBeforeMonth(j.month) + j.day == n + 1
  {
    var j := JalaliDayOfYear(year, n);
    JalaliMonthOffsets(j.month);
  }

  /** After 1600 the conversion gives the Jalali date of the same day. */
  lemma GregorianToJalaliKeepsDay(g: Date)
    requires g.year > 1600 && ValidGregorian(g)
    ensures var j := GregorianToJalali(g); ValidJalali(j) && j.year >= 979 && JalaliDay(j) == GregorianDay(g)
  {
    ElapsedIsDayNumber(g);
    SplitKeepsDay(ElapsedDays(g.year - 1600, g.month, g.day));
  }

  // ---- Jalali to Gregorian ----

  /** Days from the proleptic Gregorian 0000-01-01 to a Jalali date. */
  function DaysFromYearZero(j: Date): int {
    var year := j.year + 1595;
    -355668 + 365 * year + (year / 33) * 8 + (year % 33 + 3) / 4 + j.day
      + if j.month <= 6 then (j.month - 1) * 31 else (j.month - 7) * 30 + 186
  }

  /** A year, a day counted from 0 within it, and whether the code takes the year for a leap year. */
  datatype YearDay = YearDay(year: int, n: int, leap: bool)

  function SplitGregorian(days: int): YearDay {
    var inEra := days % 146097;
    var era := 400 * (days / 146097);
    if inEra < 36525 then SplitFour(era, inEra, true)
    else
      var inCentury := (inEra - 1) % 36524;
      var century := era + 100 * ((inEra - 1) / 36524);
      if inCentury >= 365 then SplitFour(century, inCentury + 1, true) else SplitFour(century, inCentury, false)
  }

  function SplitFour(base: int, days: int, leap: bool): YearDay {
    var inFour := days % 1461;
    var year := base + 4 * (days / 1461);
    if inFour >= 366 then YearDay(year + (inFour - 1) / 365, (inFour - 1) % 365, false)
    else YearDay(year, inFour, leap)
  }

  /** Take whole months off a day counted from 1, from the given month on. */
  function MonthWalk(leap: bool, month: int, day: int): (int, int)
    requires 1 <= month <= 13
    decreases 13 - month
  {
    if month <= 12 && day > GregorianMonthLength(leap, month)
    then MonthWalk(leap, month + 1, day - GregorianMonthLength(leap, month))
    else (month, day)
  }

  function JalaliToGregorian(j: Date): Date {
    var s := SplitGregorian(DaysFromYearZero(j));
    var md := MonthWalk(s.leap, 1, s.n + 1);
    Date(s.year, md.0, md.1)
  }

  lemma DaysFromYearZeroIsDayNumber(j: Date)
    requires 1 <= j.year && 1 <= j.month <= 12
    ensures DaysFromYearZero(j) == JalaliDay(j) + 365
  {
    JalaliYearStart(j.year);
    JalaliMonthOffsets(j.month);
  }

  lemma QuotientParts(a: int, b: int, c: int, e: int)
    requires 0 <= b <= 3 && 0 <= c <= 24 && 0 <= e <= 3
    ensures var y := 400 * a + 100 * b + 4 * c + e;
      && (y + 3) / 4 == 100 * a + 25 * b + c + (if e > 0 then 1 else 0)
      && (y + 99) / 100 == 4 * a + b + (if 4 * c + e > 0 then 1 else 0)
      && (y + 399) / 400 == a + (if 100 * b + 4 * c + e > 0 then 1 else 0)
  {
  }

  lemma RestOfFour(q: int, r: int)
    requires 0 <= r < 4
    ensures (4 * q + r) % 4 == r
  {
  }

  lemma RestOfCentury(q: int, r: int)
    requires 0 <= r < 100
    ensures (100 * q + r) % 100 == r
  {
  }

  lemma RestOfEra(q: int, r: int)
    requires 0 <= r < 400
    ensures (400 * q + r) % 400 == r
  {
  }

  lemma LeapParts(a: int, b: int, c: int, e: int)
    requires 0 <= b <= 3 && 0 <= c <= 24 && 0 <= e <= 3
    ensures GregorianLeap(400 * a + 100 * b + 4 * c + e) <==> e == 0 && (c > 0 || b == 0)
  {
    var y := 400 * a + 100 * b + 4 * c + e;
    assert y % 4 == e by {
      RestOfFour(100 * a + 25 * b + c, e);
    }
    assert y % 100 == 4 * c + e by {
      RestOfCentury(4 * a + b, 4 * c + e);
    }
    assert y % 400 == 100 * b + 4 * c + e by {
      RestOfEra(a, 100 * b + 4 * c + e);
    }
  }

  /** The start of year 400 a + 100 b + 4 c + e, within an era, a century and a group of four. */
  lemma YearStartParts(a: int, b: int, c: int, e: int)
    requires 0 <= b <= 3 && 0 <= c <= 24 && 0 <= e <= 3
    ensures YearStart(400 * a + 100 * b + 4 * c + e) == 146097 * a + 36524 * b + 1461 * c + 365 * e
      + (if b > 0 then 1 else 0) + (if e > 0 then 1 else 0) - (if b > 0 && (c > 0 || e > 0) then 1 else 0)
  {
    QuotientParts(a, b, c, e);
  }

  /** The split names a year, the day's place in it, and the right leap flag. */
  lemma SplitGregorianCorrect(days: int)
    ensures var s := SplitGregorian(days);
      && s.leap == GregorianLeap(s.year) && 0 <= s.n < (if s.leap then 366 else 365)
      && YearStart(s.year) + s.n == days
  {
    hide SplitFour;
    hide GregorianLeap;
    hide YearStart;
    var a, inEra := days / 146097, days % 146097;
    if inEra < 36525 {
      SplitFourCorrect(a, 0, inEra, true);
    } else {
      var b, inCentury := (inEra - 1) / 36524, (inEra - 1) % 36524;
      assert 1 <= b <= 3;
      if inCentury >= 365 {
        SplitFourCorrect(a, b, inCentury + 1, true);
      } else {
        SplitFourCorrect(a, b, inCentury, false);
      }
    }
  }

  /**
   Within a century: the first century of an era starts with a leap year; in the others the
   first year is short, and the code's shifted count makes up for it from the second year on.
   */
  lemma SplitFourCorrect(a: int, b: int, days: int, leap: bool)
    requires 0 <= b <= 3 && 0 <= days < 36525
    requires if leap then b == 0 || days >= 366 else b > 0 && days < 365
    ensures var s := SplitFour(400 * a + 100 * b, days, leap);
      && s.leap == GregorianLeap(s.year) && 0 <= s.n < (if s.leap then 366 else 365)
      && YearStart(s.year) + s.n == 146097 * a + 36524 * b + days + (if b > 0 && !leap then 1 else 0)
  {
    var c, inFour := days / 1461, days % 1461;
    var e := if inFour >= 366 then (inFour - 1) / 365 else 0;
    assert 0 <= c <= 24 && 0 <= e <= 3;
    YearStartParts(a, b, c, e);
    LeapParts(a, b, c, e);
    assert SplitFour(400 * a + 100 * b, days, leap).year == 400 * a + 100 * b + 4 * c + e;
  }

  /** Walking off months keeps the day number and ends inside a month of the year. */
  lemma {:induction false} MonthWalkCorrect(leap: bool, month: int, day: int)
    requires 1 <= month <= 13 && 1 <= day
    requires GregorianDaysBeforeMonth(leap, month) + day <= if leap then 366 else 365
    ensures var r := MonthWalk(leap, month, day);
      && month <= r.0 <= 12 && 1 <= r.1 <= GregorianMonthLength(leap, r.0)
      && GregorianDaysBeforeMonth(leap, r.0) + r.1 == GregorianDaysBeforeMonth(leap, month) + day
    decreases 13 - month
  {
    GregorianYearLength(leap);
    hide GregorianMonthLength;
    if month == 13 {
    } else if day > GregorianMonthLength(leap, month) {
      MonthWalkCorrect(leap, month + 1, day - GregorianMonthLength(leap, month));
    }
  }

  /** The year before year 1 and all before it start no later than the count does. */
  lemma EarlyYearStart(year: int)
    requires year <= 0
    ensures YearStart(year) <= 0
  {
  }

  /** The conversion lands on a day of a month of some year, and keeps the count from year 0. */
  lemma ConvertedCount(j: Date)
    ensures var r := JalaliToGregorian(j); var leap := GregorianLeap(r.year);
      && 1 <= r.month <= 12 && 1 <= r.day <= GregorianMonthLength(leap, r.month)
      && YearStart(r.year) + GregorianDaysBeforeMonth(leap, r.month) + r.day - 1 == DaysFromYearZero(j)
      && GregorianDaysBeforeMonth(leap, r.month) + r.day <= 366
  {
    var s := SplitGregorian(DaysFromYearZero(j));
    SplitGregorianCorrect(DaysFromYearZero(j));
    MonthWalkCorrect(s.leap, 1, s.n + 1);
    hide SplitGregorian;
    hide DaysFromYearZero;
    hide MonthWalk;
    hide GregorianLeap;
    hide GregorianMonthLength;
    hide YearStart;
  }

  /** A Jalali date converts to a Gregorian date exactly when the two names count the same day. */
  lemma ConvertsToSameDay(j: Date, g: Date)
    requires ValidGregorian(g)
    ensures JalaliToGregorian(j) == g <==> DaysFromYearZero(j) == GregorianDay(g) + 365
  {
    var r := JalaliToGregorian(j);
    ConvertedCount(j);
    hide JalaliToGregorian;
    hide DaysFromYearZero;
    hide GregorianLeap;
    hide GregorianMonthLength;
    if r.year >= 1 {
      YearStartIsDayNumber(r.year);
      if GregorianDay(r) == GregorianDay(g) {
        GregorianUnique(r, g);
      }
    } else {
      EarlyYearStart(r.year);
      GregorianDayPositive(g);
    }
  }

  lemma GregorianDayPositive(g: Date)
    requires ValidGregorian(g)
    ensures 1 <= GregorianDay(g)
  {
    GregorianFromZero(GregorianLeap(g.year), g.month);
    GregorianYearStart(g.year);
  }

  /** A count of days from year 1 on converts to the Gregorian date of that day. */
  lemma CountConverts(j: Date)
    requires 366 <= DaysFromYearZero(j)
    ensures var g := JalaliToGregorian(j); ValidGregorian(g) && GregorianDay(g) == DaysFromYearZero(j) - 365
  {
    var r := JalaliToGregorian(j);
    ConvertedCount(j);
    hide JalaliToGregorian;
    hide DaysFromYearZero;
    hide GregorianLeap;
    hide GregorianMonthLength;
    if r.year <= 0 {
      EarlyYearStart(r.year);
    }
    YearStartIsDayNumber(r.year);
  }

  /**
   For every Jalali year from 1 on, any month and any day number from 1, the conversion gives the
   Gregorian date of that day; a day past the month's end counts on into the next month.
   */
  lemma JalaliToGregorianKeepsDay(j: Date)
    requires 1 <= j.year && 1 <= j.month <= 12 && 1 <= j.day
    ensures var g := JalaliToGregorian(j); ValidGregorian(g) && GregorianDay(g) == JalaliDay(j)
  {
    hide JalaliToGregorian;
    DaysFromYearZeroIsDayNumber(j);
    JalaliDayPositive(j);
    CountConverts(j);
  }

  lemma {:induction false} JalaliYearsPositive(year: int)
    requires 1 <= year
    ensures 0 <= JalaliDaysBeforeYear(year)
    decreases year
  {
    if year > 1 {
      JalaliYearsPositive(year - 1);
    }
  }

  lemma JalaliDayPositive(j: Date)
    requires 1 <= j.year && 1 <= j.month <= 12 && 1 <= j.day
    ensures JalaliDay(j) > 366
  {
    JalaliYearsPositive(j.year);
    JalaliMonthOffsets(j.month);
  }

  /** The conversion as it runs: eras, centuries, fours and years off the days, then months in a loop. */
  method ConvertJalaliToGregorian(y: int, m: int, d: int)
    returns (gregorianYear: int, gregorianMonth: int, gregorianDay: int)
    ensures Date(gregorianYear, gregorianMonth, gregorianDay) == JalaliToGregorian(Date(y, m, d))
    ensures 1 <= y && 1 <= m <= 12 && 1 <= d ==>
      var g := Date(gregorianYear, gregorianMonth, gregorianDay);
      ValidGregorian(g) && GregorianDay(g) == JalaliDay(Date(y, m, d))
  {
    var year := y + 1595;
    var days := -355668 + 365 * year + (year / 33) * 8 + (year % 33 + 3) / 4 + d;
    if m <= 6 {
      days := days + (m - 1) * 31;
    } else {
      days := days + (m - 7) * 30 + 186;
    }
    assert days == DaysFromYearZero(Date(y, m, d));
    hide DaysFromYearZero;
    var leap;
    gregorianYear, days, leap := TakeGregorianYears(days);
    gregorianDay := days + 1;
    gregorianMonth := 1;
    while gregorianMonth <= 12 && gregorianDay > GregorianMonthLength(leap, gregorianMonth)
      invariant 1 <= gregorianMonth <= 13
      invariant MonthWalk(leap, 1, days + 1) == MonthWalk(leap, gregorianMonth, gregorianDay)
      decreases 13 - gregorianMonth
    {
      gregorianDay := gregorianDay - GregorianMonthLength(leap, gregorianMonth);
      gregorianMonth := gregorianMonth + 1;
    }
    if 1 <= y && 1 <= m <= 12 && 1 <= d {
      JalaliToGregorianKeepsDay(Date(y, m, d));
    }
  }

  method TakeGregorianYears(elapsed: int) returns (year: int, days: int, leap: bool)
    ensures YearDay(year, days, leap) == SplitGregorian(elapsed)
  {
    days := elapsed;
    year := 400 * (days / 146097);
    days := days % 146097;
    leap := true;
    if days >= 36525 {
      days := days - 1;
      year := year + 100 * (days / 36524);
      days := days % 36524;
      if days >= 365 {
        days := days + 1;
      } else {
        leap := false;
      }
    }
    year, days, leap := TakeFours(year, days, leap);
  }

  method TakeFours(base: int, rest: int, leapSoFar: bool) returns (year: int, days: int, leap: bool)
    ensures YearDay(year, days, leap) == SplitFour(base, rest, leapSoFar)
  {
    year, days, leap := base + 4 * (rest / 1461), rest % 1461, leapSoFar;
    if days >= 366 {
      leap := false;
      days := days - 1;
      year := year + days / 365;
      days := days % 365;
    }
  }

  // ---- The conversions are inverse ----

  /** After 1600, Gregorian to Jalali and back is the identity. */
  lemma GregorianRoundTrip(g: Date)
    requires g.year > 1600 && ValidGregorian(g)
    ensures JalaliToGregorian(GregorianToJalali(g)) == g
  {
    GregorianToJalaliKeepsDay(g);
    var j := GregorianToJalali(g);
    JalaliToGregorianKeepsDay(j);
    GregorianUnique(JalaliToGregorian(j), g);
  }

  /** The Jalali name of 1601-01-01. */
  const FirstAfter1600 := Date(979, 10, 12)

  /** Exactly the Jalali dates from 979-10-12 on lie after 1600. */
  lemma After1600(j: Date)
    requires 1 <= j.year && 1 <= j.month <= 12 && 1 <= j.day <= 31
    ensures JalaliToGregorian(j).year > 1600 <==> !Earlier(j, FirstAfter1600)
  {
    JalaliToGregorianKeepsDay(j);
    var g := JalaliToGregorian(j);
    assert GregorianDay(Date(1601, 1, 1)) == 584389 by {
      GregorianYearStart(1601);
    }
    if g.year <= 1600 {
      GregorianOrder(g, Date(1601, 1, 1));
    } else if g != Date(1601, 1, 1) {
      GregorianOrder(Date(1601, 1, 1), g);
    }
    DayOfFirstAfter1600(j);
  }

  lemma DayOfFirstAfter1600(j: Date)
    requires 1 <= j.year && 1 <= j.month <= 12 && 1 <= j.day <= 31
    ensures JalaliDay(j) < 584389 <==> Earlier(j, FirstAfter1600)
  {
    JalaliYearStart(979);
    JalaliYearStart(j.year);
    JalaliMonthOffsets(j.month);
    if j.year < 979 {
      JalaliLeapDaysGrow(j.year + 1, 979);
      JalaliLeapStep(j.year);
    } else if j.year > 979 {
      JalaliLeapDaysGrow(980, j.year);
    }
  }

  lemma {:induction false} JalaliLeapDaysGrow(y: int, z: int)
    requires y <= z
    ensures JalaliLeapDays(y + 1595) <= JalaliLeapDays(z + 1595)
    decreases z - y
  {
    if y < z {
      JalaliLeapStep(z - 1);
      JalaliLeapDaysGrow(y, z - 1);
    }
  }

  /** From 979-10-12 on, Jalali to Gregorian and back is the identity. */
  lemma JalaliRoundTrip(j: Date)
    requires ValidJalali(j) && !Earlier(j, FirstAfter1600)
    ensures var g := JalaliToGregorian(j); ValidGregorian(g) && GregorianToJalali(g) == j
  {
    JalaliToGregorianKeepsDay(j);
    After1600(j);
    var g := JalaliToGregorian(j);
    GregorianToJalaliKeepsDay(g);
    JalaliUnique(GregorianToJalali(g), j);
  }
}
