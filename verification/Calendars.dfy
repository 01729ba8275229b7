/**
 The two calendars by their rules: a date's day number counts the days of all earlier
 years and months. Gregorian dates follow section 3.2.1 of ISO 8601:2004; day 1 is
 0001-01-01. The Jalali rule has eight leap years in every 33.
 */
module Calendars {

  datatype Date = Date(year: int, month: int, day: int)

  // ---- Gregorian ----

  predicate GregorianLeap(year: int) {
    year % 4 == 0 && (year % 100 != 0 || year % 400 == 0)
  }

  function GregorianMonthLength(leap: bool, month: int): int
    requires 1 <= month <= 12
  {
    if month == 2 then (if leap then 29 else 28)
    else if month == 4 || month == 6 || month == 9 || month == 11 then 30
    else 31
  }

  predicate ValidGregorian(d: Date) {
    1 <= d.year && 1 <= d.month <= 12 && 1 <= d.day <= GregorianMonthLength(GregorianLeap(d.year), d.month)
  }

  function GregorianDaysBeforeYear(year: int): int
    requires 1 <= year
    decreases year
  {
    if year == 1 then 0
    else GregorianDaysBeforeYear(year - 1) + if GregorianLeap(year - 1) then 366 else 365
  }

  function GregorianDaysBeforeMonth(leap: bool, month: int): int
    requires 1 <= month <= 13
    decreases month
  {
    if month == 1 then 0 else GregorianDaysBeforeMonth(leap, month - 1) + GregorianMonthLength(leap, month - 1)
  }

  function GregorianDay(d: Date): int
    requires 1 <= d.year && 1 <= d.month <= 12
  {
    GregorianDaysBeforeYear(d.year) + GregorianDaysBeforeMonth(GregorianLeap(d.year), d.month) + d.day
  }

  // ---- Jalali ----

  predicate JalaliLeap(year: int) {
    year % 33 in {1, 5, 9, 13, 17, 22, 26, 30}
  }

  function JalaliMonthLength(leap: bool, month: int): int
    requires 1 <= month <= 12
  {
    if month <= 6 then 31 else if month <= 11 || leap then 30 else 29
  }

  predicate ValidJalali(d: Date) {
    1 <= d.year && 1 <= d.month <= 12 && 1 <= d.day <= JalaliMonthLength(JalaliLeap(d.year), d.month)
  }

  function JalaliDaysBeforeYear(year: int): int
    requires 1 <= year
    decreases year
  {
    if year == 1 then 0
    else JalaliDaysBeforeYear(year - 1) + if JalaliLeap(year - 1) then 366 else 365
  }

  function JalaliDaysBeforeMonth(month: int): int
    requires 1 <= month <= 12
    decreases month
  {
    if month == 1 then 0 else JalaliDaysBeforeMonth(month - 1) + JalaliMonthLength(false, month - 1)
  }

  /** 0001-01-01 of the Jalali calendar is Gregorian day 226895. */
  const JalaliEpoch := 226894

  /** The Gregorian day number of a Jalali date; it also counts through a month's end. */
  function JalaliDay(d: Date): int
    requires 1 <= d.year && 1 <= d.month <= 12
  {
    JalaliEpoch + JalaliDaysBeforeYear(d.year) + JalaliDaysBeforeMonth(d.month) + d.day
  }

  // ---- Order: a day number names one date ----

  /** Chronological order, field by field. */
  predicate Earlier(a: Date, b: Date) {
    a.year < b.year || (a.year == b.year && (a.month < b.month || (a.month == b.month && a.day < b.day)))
  }

  lemma {:induction false} GregorianYearsAdd(y: int, z: int)
    requires 1 <= y < z
    ensures GregorianDaysBeforeYear(y) + (if GregorianLeap(y) then 366 else 365) <= GregorianDaysBeforeYear(z)
    decreases z
  {
    if z > y + 1 {
      GregorianYearsAdd(y, z - 1);
    }
  }

  lemma {:induction false} GregorianMonthsAdd(leap: bool, m: int, n: int)
    requires 1 <= m < n <= 13
    ensures GregorianDaysBeforeMonth(leap, m) + GregorianMonthLength(leap, m) <= GregorianDaysBeforeMonth(leap, n)
    decreases n
  {
    if n > m + 1 {
      GregorianMonthsAdd(leap, m, n - 1);
    }
  }

  lemma GregorianYearLength(leap: bool)
    ensures GregorianDaysBeforeMonth(leap, 13) == if leap then 366 else 365
  {
    assert GregorianDaysBeforeMonth(leap, 4) == if leap then 91 else 90;
    assert GregorianDaysBeforeMonth(leap, 7) == if leap then 182 else 181;
    assert GregorianDaysBeforeMonth(leap, 10) == if leap then 274 else 273;
  }

  lemma GregorianOrder(a: Date, b: Date)
    requires ValidGregorian(a) && ValidGregorian(b) && Earlier(a, b)
    ensures GregorianDay(a) < GregorianDay(b)
  {
    var leap := GregorianLeap(a.year);
    if a.year < b.year {
      GregorianYearsAdd(a.year, b.year);
      GregorianYearLength(leap);
      GregorianMonthsAdd(leap, a.month, 13);
      GregorianFromZero(GregorianLeap(b.year), b.month);
    } else if a.month < b.month {
      GregorianMonthsAdd(leap, a.month, b.month);
    }
  }

  lemma {:induction false} GregorianFromZero(leap: bool, m: int)
    requires 1 <= m <= 13
    ensures 0 <= GregorianDaysBeforeMonth(leap, m)
    decreases m
  {
    if m > 1 {
      GregorianFromZero(leap, m - 1);
    }
  }

  /** A day number belongs to one Gregorian date. */
  lemma GregorianUnique(a: Date, b: Date)
    requires ValidGregorian(a) && ValidGregorian(b) && GregorianDay(a) == GregorianDay(b)
    ensures a == b
  {
    if Earlier(a, b) {
      GregorianOrder(a, b);
    } else if Earlier(b, a) {
      GregorianOrder(b, a);
    }
  }

  lemma {:induction false} JalaliYearsAdd(y: int, z: int)
    requires 1 <= y < z
    ensures JalaliDaysBeforeYear(y) + (if JalaliLeap(y) then 366 else 365) <= JalaliDaysBeforeYear(z)
    decreases z
  {
    if z > y + 1 {
      JalaliYearsAdd(y, z - 1);
    }
  }

  lemma {:induction false} JalaliMonthOffsets(month: int)
    requires 1 <= month <= 12
    ensures JalaliDaysBeforeMonth(month) == if month <= 7 then 31 * (month - 1) else 186 + 30 * (month - 7)
    decreases month
  {
    if month > 1 {
      JalaliMonthOffsets(month - 1);
    }
  }

  lemma JalaliOrder(a: Date, b: Date)
    requires ValidJalali(a) && ValidJalali(b) && Earlier(a, b)
    ensures JalaliDay(a) < JalaliDay(b)
  {
    JalaliMonthOffsets(a.month);
    JalaliMonthOffsets(b.month);
    if a.year < b.year {
      JalaliYearsAdd(a.year, b.year);
    }
  }

  /** A day number belongs to one Jalali date. */
  lemma JalaliUnique(a: Date, b: Date)
    requires ValidJalali(a) && ValidJalali(b) && JalaliDay(a) == JalaliDay(b)
    ensures a == b
  {
    if Earlier(a, b) {
      JalaliOrder(a, b);
    } else if Earlier(b, a) {
      JalaliOrder(b, a);
    }
  }
}
