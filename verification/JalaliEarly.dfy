/**
 Dates up to Gregorian year 1600, where the formatter counts leap years by other rules. There the
 round trip depends on two counts of leap days; here is exactly when it holds, for every date.
 */
module JalaliEarly {
  import opened Prelude
  import opened Calendars
  import opened JalaliDatetime
  import opened JalaliText
  import opened Strings

  // ---- The calendar the conversion uses up to 1600 ----

  /** The 33-year cycle starts at year 0 instead of year 979, so other years are leap years. */
  predicate CycleLeap(year: int) {
    year % 33 in {0, 4, 8, 12, 16, 20, 24, 28}
  }

  predicate ValidInCycle(j: Date) {
    1 <= j.month <= 12 && 1 <= j.day <= JalaliMonthLength(CycleLeap(j.year), j.month)
  }

  /** Days before a year of that calendar. */
  function CycleYearStart(year: int): int {
    365 * year + JalaliLeapDays(year)
  }

  function CycleDay(j: Date): int
    requires 1 <= j.month <= 12
  {
    CycleYearStart(j.year) + JalaliDaysBeforeMonth(j.month) + j.day - 1
  }

  lemma Of33(a: int, k: int)
    requires 0 <= k < 33
    ensures (33 * a + k) / 33 == a && (33 * a + k) % 33 == k
  {
  }

  lemma CycleYear(a: int, b: int, c: int)
    requires 0 <= b <= 8 && 0 <= c <= 3 && 4 * b + c <= 32
    ensures var year := 33 * a + 4 * b + c;
      && CycleYearStart(year) == 12053 * a + 1461 * b + 365 * c + (if c == 0 then 0 else 1)
      && (CycleLeap(year) <==> c == 0 && b < 8)
  {
    var k := 4 * b + c;
    Of33(a, k);
    assert (k + 3) / 4 == b + (c + 3) / 4;
  }

  /** Splitting days gives a date of that calendar, and its day. */
  lemma SplitInCycle(days: int)
    ensures var j := SplitJalali(0, days); ValidInCycle(j) && CycleDay(j) == days
  {
    hide SplitJalali;
    hide JalaliDayOfYear;
    hide CycleLeap;
    hide CycleYearStart;
    var a, b, c, n := CycleParts(0, days);
    CycleYear(a, b, c);
    DayOfYearInMonths(33 * a + 4 * b + c, c == 0 && b < 8, n);
  }

  lemma NextCycleYear(year: int)
    ensures CycleYearStart(year + 1) == CycleYearStart(year) + if CycleLeap(year) then 366 else 365
  {
    var a, k := year / 33, year % 33;
    assert year == 33 * a + k;
    if k < 32 {
      assert (year + 1) / 33 == a && (year + 1) % 33 == k + 1;
    } else {
      assert (year + 1) / 33 == a + 1 && (year + 1) % 33 == 0;
    }
  }

  lemma {:induction false} CycleYearsAdd(y: int, z: int)
    requires y < z
    ensures CycleYearStart(y) + (if CycleLeap(y) then 366 else 365) <= CycleYearStart(z)
    decreases z - y
  {
    NextCycleYear(z - 1);
    if z > y + 1 {
      CycleYearsAdd(y, z - 1);
    }
  }

  lemma CycleOrder(a: Date, b: Date)
    requires ValidInCycle(a) && ValidInCycle(b) && Earlier(a, b)
    ensures CycleDay(a) < CycleDay(b)
  {
    JalaliMonthOffsets(a.month);
    JalaliMonthOffsets(b.month);
    if a.year < b.year {
      CycleYearsAdd(a.year, b.year);
    }
  }

  lemma CycleUnique(a: Date, b: Date)
    requires ValidInCycle(a) && ValidInCycle(b) && CycleDay(a) == CycleDay(b)
    ensures a == b
  {
    if Earlier(a, b) {
      CycleOrder(a, b);
    } else if Earlier(b, a) {
      CycleOrder(b, a);
    }
  }

  // ---- Two counts of leap days ----

  /** Leap days the conversion leaves uncounted because it counts as if year 621 were year 0. */
  function LeapDaysIn621Years(g: Date): int {
    LeapDaysBefore(g.year, g.month) - LeapDaysBefore(g.year - 621, g.month)
  }

  /** The two calendars' leap days up to the date are off by the same number. */
  predicate LeapCountsAgree(g: Date, jalaliYear: int) {
    LeapDaysIn621Years(g) == if jalaliYear % 33 in {1, 5, 9, 13, 17, 21, 22, 25, 26, 29, 30} then 150 else 151
  }

  lemma ShiftedLeapDays(year: int)
    ensures JalaliLeapDays(year + 1595) - JalaliLeapDays(year)
      == if year % 33 in {1, 5, 9, 13, 17, 21, 22, 25, 26, 29, 30} then 386 else 387
  {
    var a, k := year / 33, year % 33;
    assert year == 33 * a + k;
    if k < 22 {
      assert (year + 1595) / 33 == a + 48 && (year + 1595) % 33 == k + 11;
    } else {
      assert (year + 1595) / 33 == a + 49 && (year + 1595) % 33 == k - 22;
    }
  }

  lemma JalaliShift(j: Date)
    requires 1 <= j.month <= 12
    ensures DaysFromYearZero(j) - CycleDay(j) == 226508 + JalaliLeapDays(j.year + 1595) - JalaliLeapDays(j.year)
  {
    JalaliMonthOffsets(j.month);
  }

  lemma GregorianShift(g: Date)
    requires ValidGregorian(g)
    ensures GregorianDay(g) + 365 - ElapsedDays(g.year - 621, g.month, g.day) == 226744 + LeapDaysIn621Years(g)
  {
    hide GregorianDay;
    GregorianDayCounted(g);
  }

  /** The days by which the two conversions name dates differ by the two counts of leap days. */
  lemma CountsCompared(g: Date, j: Date)
    requires ValidGregorian(g) && 1 <= j.month <= 12
    ensures var offBy := CycleDay(j) - ElapsedDays(g.year - 621, g.month, g.day);
      && (offBy == 0 ==> (DaysFromYearZero(j) == GregorianDay(g) + 365 <==> LeapCountsAgree(g, j.year)))
      && (LeapCountsAgree(g, j.year) && DaysFromYearZero(j) == GregorianDay(g) + 365 ==> offBy == 0)
  {
    hide GregorianDay;
    hide ElapsedDays;
    hide LeapDaysIn621Years;
    hide DaysFromYearZero;
    hide CycleDay;
    hide JalaliLeapDays;
    GregorianShift(g);
    JalaliShift(j);
    ShiftedLeapDays(j.year);
  }

  // ---- The year on the other side, read off the date itself ----

  /** The leap days counted by the Gregorian rule and by the cycle drift apart by a few days only. */
  lemma Drift(year: int, month: int)
    requires -700 <= year <= 1700
    ensures -5 <= LeapDaysBefore(year, month) - JalaliLeapDays(year) <= 5
  {
    var adjusted := if month > 2 then year + 1 else year;
    assert year == 33 * (year / 33) + year % 33;
  }

  /** The year of the cycle calendar that a Gregorian date falls in: 621 less, or 622 before the new year. */
  function CycleYearOf(g: Date): int
    requires 1 <= g.month <= 12
  {
    var year := g.year - 621;
    if ElapsedDays(year, g.month, g.day) >= CycleYearStart(year) then year else year - 1
  }

  lemma DayOfYearBounds(g: Date)
    requires ValidGregorian(g)
    ensures 1 <= MonthOffsets[g.month - 1] + g.day <= 365
  {
  }

  lemma ElapsedBounds(g: Date)
    requires ValidGregorian(g) && g.year <= 1600
    ensures var year := g.year - 621;
      CycleYearStart(year - 1) <= ElapsedDays(year, g.month, g.day) < CycleYearStart(year + 1)
  {
    var year := g.year - 621;
    DayOfYearBounds(g);
    Drift(year, g.month);
    NextCycleYear(year);
    NextCycleYear(year - 1);
    hide LeapDaysBefore;
    hide JalaliLeapDays;
    hide CycleLeap;
    hide MonthOffsets;
  }

  /** A day lies in the one year whose start is the last before it. */
  lemma YearOfDay(j: Date, year: int)
    requires ValidInCycle(j) && CycleYearStart(year) <= CycleDay(j) < CycleYearStart(year + 1)
    ensures j.year == year
  {
    WithinYear(j);
    NextCycleYear(j.year);
    hide CycleDay;
    hide CycleLeap;
    hide CycleYearStart;
    if j.year < year {
      CycleYearsAdd(j.year, year);
    } else if j.year > year + 1 {
      CycleYearsAdd(year + 1, j.year);
    }
  }

  lemma CycleYearIsYear(g: Date)
    requires ValidGregorian(g) && g.year <= 1600
    ensures GregorianToJalali(g).year == CycleYearOf(g)
  {
    hide SplitJalali;
    hide CycleDay;
    hide CycleYearStart;
    hide ElapsedDays;
    hide ValidInCycle;
    hide GregorianMonthLength;
    hide GregorianLeap;
    var days := ElapsedDays(g.year - 621, g.month, g.day);
    ElapsedBounds(g);
    SplitInCycle(days);
    YearOfDay(SplitJalali(0, days), CycleYearOf(g));
  }

  /** The Gregorian year that a Jalali date up to 1600 falls in: 622 more, or 621 before the new year. */
  function YearNamed(j: Date): int {
    if DaysFromYearZero(j) >= YearStart(j.year + 622) then j.year + 622 else j.year + 621
  }

  /** A month on the same side of the leap day as the Gregorian date that a Jalali date up to 1600 names. */
  function MonthNamed(j: Date): int {
    var year := YearNamed(j);
    if DaysFromYearZero(j) - YearStart(year) < if GregorianLeap(year) then 60 else 59 then 1 else 3
  }

  /** The first day counted after 1600. */
  const DaysTo1601 := 584754

  lemma JalaliBounds(j: Date)
    requires 1 <= j.month <= 12 && 1 <= j.day <= 31 && 366 <= DaysFromYearZero(j) < DaysTo1601
    ensures YearStart(j.year + 621) <= DaysFromYearZero(j) < YearStart(j.year + 623)
  {
    assert -640 <= j.year <= 1000;
  }

  lemma YearStartNext(year: int)
    ensures YearStart(year + 1) == YearStart(year) + if GregorianLeap(year) then 366 else 365
  {
    LeapQuotients(year);
    assert (year + 3) / 4 == (year - 1) / 4 + 1;
    assert (year + 4) / 4 == year / 4 + 1;
    assert (year + 99) / 100 == (year - 1) / 100 + 1;
    assert (year + 100) / 100 == year / 100 + 1;
    assert (year + 399) / 400 == (year - 1) / 400 + 1;
    assert (year + 400) / 400 == year / 400 + 1;
  }

  lemma {:induction false} YearStartsAdd(y: int, z: int)
    requires y <= z
    ensures YearStart(y) <= YearStart(z)
    decreases z - y
  {
    if y < z {
      YearStartNext(z - 1);
      YearStartsAdd(y, z - 1);
    }
  }

  lemma DayInYear(leap: bool, month: int, day: int)
    requires 1 <= month <= 12 && 1 <= day <= GregorianMonthLength(leap, month)
    ensures 1 <= GregorianDaysBeforeMonth(leap, month) + day <= if leap then 366 else 365
    ensures month > 2 <==> GregorianDaysBeforeMonth(leap, month) + day > if leap then 60 else 59
  {
    GregorianYearLength(leap);
    GregorianFromZero(leap, month);
    assert GregorianDaysBeforeMonth(leap, 3) == if leap then 60 else 59;
    if month < 12 {
      GregorianMonthsAdd(leap, month, 13);
    }
    if month < 3 {
      GregorianMonthsAdd(leap, month, 3);
    } else if month > 3 {
      GregorianMonthsAdd(leap, 3, month);
    }
  }

  lemma OneYearStart(y: int, z: int, days: int)
    requires YearStart(y) <= days < YearStart(y + 1) && YearStart(z) <= days < YearStart(z + 1)
    ensures y == z
  {
    hide YearStart;
    if y < z {
      YearStartsAdd(y + 1, z);
    } else if z < y {
      YearStartsAdd(z + 1, y);
    }
  }

  /** The year a date converts to, and the side of its leap day, as the count of days places them. */
  lemma ConvertedYear(j: Date)
    ensures var g, days := JalaliToGregorian(j), DaysFromYearZero(j);
      && 1 <= g.month <= 12 && YearStart(g.year) <= days < YearStart(g.year + 1)
      && (g.month > 2 <==> days - YearStart(g.year) >= if GregorianLeap(g.year) then 60 else 59)
  {
    var g := JalaliToGregorian(j);
    ConvertedCount(j);
    hide JalaliToGregorian;
    hide DaysFromYearZero;
    hide YearStart;
    hide GregorianLeap;
    DayInYear(GregorianLeap(g.year), g.month, g.day);
    YearStartNext(g.year);
  }

  /** Whether a Jalali date names a Gregorian date, and on which side of 1600, by the count of its days. */
  lemma SideOf1600(j: Date)
    ensures var g := JalaliToGregorian(j);
      && (ValidGregorian(g) <==> 366 <= DaysFromYearZero(j))
      && (ValidGregorian(g) ==> (g.year > 1600 <==> DaysFromYearZero(j) >= DaysTo1601))
  {
    var g := JalaliToGregorian(j);
    ConvertedCount(j);
    ConvertedYear(j);
    hide JalaliToGregorian;
    hide DaysFromYearZero;
    hide GregorianLeap;
    hide GregorianMonthLength;
    assert YearStart(1) == 366 && YearStart(1601) == DaysTo1601;
    hide YearStart;
    if g.year >= 1 {
      YearStartsAdd(1, g.year);
    } else {
      YearStartsAdd(g.year + 1, 1);
    }
    if g.year > 1600 {
      YearStartsAdd(1601, g.year);
    } else {
      YearStartsAdd(g.year + 1, 1601);
    }
  }

  lemma NamedYearIsYear(j: Date)
    requires 1 <= j.month <= 12 && 1 <= j.day <= 31 && 366 <= DaysFromYearZero(j) < DaysTo1601
    ensures var g := JalaliToGregorian(j); g.year == YearNamed(j) && (g.month > 2 <==> MonthNamed(j) > 2)
  {
    hide JalaliToGregorian;
    hide DaysFromYearZero;
    hide YearStart;
    hide GregorianLeap;
    JalaliBounds(j);
    ConvertedYear(j);
    OneYearStart(JalaliToGregorian(j).year, YearNamed(j), DaysFromYearZero(j));
  }

  lemma WithinYear(j: Date)
    requires ValidInCycle(j)
    ensures CycleYearStart(j.year) <= CycleDay(j) < CycleYearStart(j.year) + if CycleLeap(j.year) then 366 else 365
  {
    JalaliMonthOffsets(j.month);
  }

  // ---- Exactly when the conversions are inverse ----

  /** Gregorian to Jalali and back, for every Gregorian date. */
  lemma GregorianRoundTripIff(g: Date)
    requires ValidGregorian(g)
    ensures JalaliToGregorian(GregorianToJalali(g)) == g <==> g.year > 1600 || LeapCountsAgree(g, CycleYearOf(g))
  {
    hide JalaliToGregorian;
    if g.year > 1600 {
      GregorianRoundTrip(g);
    } else {
      var j := GregorianToJalali(g);
      CycleYearIsYear(g);
      hide SplitJalali;
      hide CycleYearOf;
      SplitInCycle(ElapsedDays(g.year - 621, g.month, g.day));
      ConvertsToSameDay(j, g);
      CountsCompared(g, j);
    }
  }

  /** The leap counts agree at the Gregorian date that the Jalali date names. */
  predicate NamedCountsAgree(j: Date) {
    LeapCountsAgree(Date(YearNamed(j), MonthNamed(j), 1), j.year)
  }

  /** Jalali to Gregorian and back gives the date back. */
  predicate ComesBack(j: Date) {
    var g := JalaliToGregorian(j);
    ValidGregorian(g) && GregorianToJalali(g) == j
  }

  /** Jalali to Gregorian and back, for every Jalali date: the rule depends on the side of 1600 it converts to. */
  lemma JalaliRoundTripIff(j: Date)
    requires 1 <= j.month <= 12 && 1 <= j.day <= 31
    ensures ComesBack(j) <==>
      && 366 <= DaysFromYearZero(j)
      && if DaysFromYearZero(j) >= DaysTo1601 then ValidJalali(j) else ValidInCycle(j) && NamedCountsAgree(j)
  {
    var g := JalaliToGregorian(j);
    SideOf1600(j);
    hide JalaliToGregorian;
    hide DaysFromYearZero;
    hide ValidGregorian;
    hide ValidJalali;
    hide ValidInCycle;
    hide NamedCountsAgree;
    if ValidGregorian(g) {
      if g.year > 1600 {
        LateReturn(j, g);
      } else {
        EarlyReturn(j, g);
        NamedCounts(j, g);
      }
    }
  }

  /** After 1600 a date comes back exactly when it is a date of the calendar rule. */
  lemma LateReturn(j: Date, g: Date)
    requires JalaliToGregorian(j) == g && ValidGregorian(g) && g.year > 1600
    ensures GregorianToJalali(g) == j <==> ValidJalali(j)
  {
    hide JalaliToGregorian;
    hide GregorianToJalali;
    GregorianToJalaliKeepsDay(g);
    if ValidJalali(j) {
      JalaliToGregorianKeepsDay(j);
      JalaliUnique(GregorianToJalali(g), j);
    }
  }

  lemma NamedCounts(j: Date, g: Date)
    requires 1 <= j.month <= 12 && 1 <= j.day <= 31 && 366 <= DaysFromYearZero(j) < DaysTo1601
    requires JalaliToGregorian(j) == g
    ensures NamedCountsAgree(j) <==> LeapCountsAgree(g, j.year)
  {
    hide JalaliToGregorian;
    hide DaysFromYearZero;
    hide YearNamed;
    hide MonthNamed;
    NamedYearIsYear(j);
  }

  /** Up to 1600 a date comes back exactly when it is a date of the cycle calendar and the counts agree. */
  lemma EarlyReturn(j: Date, g: Date)
    requires 1 <= j.month <= 12 && JalaliToGregorian(j) == g && ValidGregorian(g) && g.year <= 1600
    ensures GregorianToJalali(g) == j <==> ValidInCycle(j) && LeapCountsAgree(g, j.year)
  {
    hide JalaliToGregorian;
    hide SplitJalali;
    hide ElapsedDays;
    hide CycleDay;
    hide GregorianDay;
    hide DaysFromYearZero;
    hide LeapCountsAgree;
    hide ValidInCycle;
    SplitInCycle(ElapsedDays(g.year - 621, g.month, g.day));
    ConvertsToSameDay(j, g);
    CountsCompared(g, j);
    if ValidInCycle(j) && LeapCountsAgree(g, j.year) {
      CycleUnique(j, GregorianToJalali(g));
    }
  }

  // ---- The years from which the simple rules hold ----

  /** From a year on the Gregorian round trip always holds exactly when that year is after 1600. */
  lemma GregorianThreshold(year: int)
    ensures (forall g :: ValidGregorian(g) && g.year >= year ==> JalaliToGregorian(GregorianToJalali(g)) == g)
      <==> year > 1600
  {
    if year > 1600 {
      forall g | ValidGregorian(g) && g.year >= year ensures JalaliToGregorian(GregorianToJalali(g)) == g {
        GregorianRoundTrip(g);
      }
    } else {
      NotOneToOneIn1600();
    }
  }

  /** The day after the leap day of 1600 falls on the leap day's Jalali date. */
  lemma NotOneToOneIn1600()
    ensures ValidGregorian(Date(1600, 2, 29)) && ValidGregorian(Date(1600, 3, 1))
    ensures GregorianToJalali(Date(1600, 2, 29)) == GregorianToJalali(Date(1600, 3, 1))
  {
    assert ElapsedDays(979, 2, 29) == ElapsedDays(979, 3, 1);
  }

  /** 979-10-11 is a date of the calendar rule, names 1600-12-31, and does not come back. */
  lemma LastDayOf1600()
    ensures var j := Date(979, 10, 11); ValidJalali(j) && JalaliToGregorian(j) == Date(1600, 12, 31) && !ComesBack(j)
  {
    var j, g := Date(979, 10, 11), Date(1600, 12, 31);
    hide JalaliToGregorian;
    assert JalaliLeap(979);
    assert DaysFromYearZero(j) == 584753;
    assert GregorianDay(g) == 584388 by {
      hide GregorianDay;
      GregorianDayCounted(g);
    }
    ConvertsToSameDay(j, g);
    assert LeapDaysIn621Years(g) == 151;
    JalaliRoundTripIff(j);
  }

  /** From a date on the Jalali round trip always holds exactly when that date is 979-10-12 or later. */
  lemma JalaliThreshold(d: Date)
    requires ValidJalali(d)
    ensures (forall j :: ValidJalali(j) && !Earlier(j, d) ==> ComesBack(j)) <==> !Earlier(d, FirstAfter1600)
  {
    hide JalaliToGregorian;
    hide ComesBack;
    hide ValidJalali;
    if Earlier(d, FirstAfter1600) {
      LastDayOf1600();
      assert !Earlier(Date(979, 10, 11), d);
    } else {
      forall j | ValidJalali(j) && !Earlier(j, d) ensures ComesBack(j) {
        JalaliReturns(j);
      }
    }
  }

  lemma JalaliReturns(j: Date)
    requires ValidJalali(j) && !Earlier(j, FirstAfter1600)
    ensures ComesBack(j)
  {
    JalaliRoundTrip(j);
  }

  // ---- What the validator accepts, for every text ----

  /** The fields of an accepted date text: a rule for each side of 1600, and Python's last day. */
  predicate AcceptedFields(j: Date) {
    && 1 <= j.month <= 12 && 1 <= j.day <= 31
    && if Earlier(j, FirstAfter1600) then ValidInCycle(j) && NamedCountsAgree(j)
       else ValidJalali(j) && JalaliDay(j) <= LastDay
  }

  /** The validator accepts exactly the date texts whose fields follow the rule; every year counts, 0000 included. */
  lemma ValidatorAccepts(s: string)
    ensures ValidateJalaliDate(s).Ok? <==> DateShaped(Strip(s)) && AcceptedFields(Fields(Strip(s)))
  {
    if DateShaped(Strip(s)) {
      var j := Fields(Strip(s));
      FieldsNonNegative(Strip(s));
      if 1 <= j.month <= 12 && 1 <= j.day <= 31 {
        RoundTripAccepts(j);
      }
    }
  }

  lemma RoundTripAccepts(j: Date)
    requires 0 <= j.year && 1 <= j.month <= 12 && 1 <= j.day <= 31
    ensures RoundTrips(j) <==> AcceptedFields(j)
  {
    hide JalaliToGregorian;
    if Earlier(j, FirstAfter1600) {
      EarlyDate(j);
      JalaliRoundTripIff(j);
    } else {
      RoundTripIsCalendarRule(j);
    }
  }

  /** Jalali dates before 979-10-12, year 0 included, name Gregorian dates up to 1600. */
  lemma EarlyDate(j: Date)
    requires 0 <= j.year && 1 <= j.month <= 12 && 1 <= j.day <= 31 && Earlier(j, FirstAfter1600)
    ensures var g := JalaliToGregorian(j); ValidGregorian(g) && g.year <= 1600
  {
    if j.year >= 1 {
      JalaliToGregorianKeepsDay(j);
      After1600(j);
    } else {
      YearZero(j);
    }
  }

  lemma YearZero(j: Date)
    requires j.year == 0 && 1 <= j.month <= 12 && 1 <= j.day <= 31
    ensures var g := JalaliToGregorian(j); ValidGregorian(g) && g.year <= 1600
  {
    assert 366 <= DaysFromYearZero(j) <= 227500;
    CountConverts(j);
    var g := JalaliToGregorian(j);
    hide JalaliToGregorian;
    hide DaysFromYearZero;
    if g.year > 1600 {
      GregorianDayCounted(g);
      LeapDaysCounted(g.year, g.month);
      hide GregorianDay;
      hide LeapDaysBefore;
    }
  }
}
