/** Jalali dates as text: the printers, the validators and what they agree on. */
module JalaliText {
  import opened Prelude
  import opened Calendars
  import opened JalaliDatetime
  import opened Strings

  /** Python's date type holds Gregorian years 1 to 9999. */
  predicate IsPythonDate(g: Date) {
    ValidGregorian(g) && g.year <= 9999
  }

  datatype ValueError = ValueError

  // ---- Printing ----

  function PrintDate(d: Date): string
    requires 0 <= d.year && 0 <= d.month && 0 <= d.day
  {
    Padded(d.year, 4) + "-" + Padded(d.month, 2) + "-" + Padded(d.day, 2)
  }

  /** gregorian_date_to_jalali_date_string. */
  function JalaliString(g: Date): string
    requires IsPythonDate(g) && g.year > 1600
  {
    GregorianToJalaliKeepsDay(g);
    PrintDate(GregorianToJalali(g))
  }

  // ---- Parsing ----

  /** Four digits, two digits and two digits between dashes, in digits of any script. */
  predicate DateShaped(s: string) {
    |s| == 10 && AllDigits(s[..4]) && s[4] == '-' && AllDigits(s[5..7]) && s[7] == '-' && AllDigits(s[8..])
  }

  function Fields(s: string): Date
    requires DateShaped(s)
  {
    Date(Number(s[..4]), Number(s[5..7]), Number(s[8..]))
  }

  /** The round trip through the Gregorian calendar gives the fields back. */
  predicate RoundTrips(j: Date)
    requires 1 <= j.month <= 12
  {
    var g := JalaliToGregorian(j);
    IsPythonDate(g) && GregorianToJalali(g) == j
  }

  function ParseJalaliDate(s: string): Result<Date, ValueError> {
    if !DateShaped(s) then Err(ValueError) else
      var j := Fields(s);
      if !(1 <= j.month <= 12) || !(1 <= j.day <= 31) then Err(ValueError)
      else if !RoundTrips(j) then Err(ValueError)
      else Ok(j)
  }

  function ValidateJalaliDate(s: string): Result<string, ValueError> {
    var r := ParseJalaliDate(Strip(s));
    if r.Err? then Err(r.error) else
      FieldsNonNegative(Strip(s));
      Ok(PrintDate(r.value))
  }

  lemma FieldsNonNegative(s: string)
    requires DateShaped(s)
    ensures Fields(s).year >= 0 && Fields(s).month >= 0 && Fields(s).day >= 0
  {
  }

  /** jalali_date_string_to_gregorian_date. */
  function ToGregorianDate(s: string): Result<Date, ValueError> {
    var v := ValidateJalaliDate(s);
    if v.Err? then Err(v.error) else
      var r := ParseJalaliDate(v.value);
      if r.Err? then Err(r.error) else Ok(JalaliToGregorian(r.value))
  }

  // ---- What the validator accepts ----

  const LastDay: int := GregorianDay(Date(9999, 12, 31))

  /** From 979-10-12 on the round trip holds exactly for the dates of the calendar rule that Python can represent. */
  lemma RoundTripIsCalendarRule(j: Date)
    requires !Earlier(j, FirstAfter1600) && 1 <= j.month <= 12 && 1 <= j.day <= 31
    ensures RoundTrips(j) <==> ValidJalali(j) && JalaliDay(j) <= LastDay
  {
    JalaliToGregorianKeepsDay(j);
    After1600(j);
    var g := JalaliToGregorian(j);
    GregorianToJalaliKeepsDay(g);
    if ValidJalali(j) {
      JalaliUnique(GregorianToJalali(g), j);
    }
    var last := Date(9999, 12, 31);
    if g.year <= 9999 && g != last {
      GregorianOrder(g, last);
    } else if g.year > 9999 {
      GregorianOrder(last, g);
    }
  }

  /** The validator against the explicit calendar, for every text. */
  lemma ValidatorIsCalendarRule(s: string)
    requires DateShaped(Strip(s)) && !Earlier(Fields(Strip(s)), FirstAfter1600)
    ensures var j := Fields(Strip(s));
      ValidateJalaliDate(s).Ok? <==> ValidJalali(j) && JalaliDay(j) <= LastDay
  {
    var j := Fields(Strip(s));
    hide Fields;
    hide RoundTrips;
    hide JalaliDay;
    hide JalaliToGregorian;
    hide Padded;
    hide Number;
    if 1 <= j.month <= 12 && 1 <= j.day <= 31 {
      RoundTripIsCalendarRule(j);
    }
  }

  // ---- Printing and parsing ----

  predicate Printable(d: Date) {
    0 <= d.year <= 9999 && 0 <= d.month <= 99 && 0 <= d.day <= 99
  }

  lemma Widths()
    ensures Power10(2) == 100 && Power10(4) == 10000
  {
    assert Power10(1) == 10 * Power10(0);
    assert Power10(2) == 10 * Power10(1);
    assert Power10(3) == 10 * Power10(2);
    assert Power10(4) == 10 * Power10(3);
  }

  lemma PrintParts(d: Date)
    requires Printable(d)
    ensures var s := PrintDate(d);
      && |s| == 10 && s[..4] == Padded(d.year, 4) && s[5..7] == Padded(d.month, 2) && s[8..] == Padded(d.day, 2)
      && s[4] == '-' && s[7] == '-'
    ensures |Padded(d.year, 4)| == 4 && |Padded(d.month, 2)| == 2 && |Padded(d.day, 2)| == 2
  {
    Widths();
    PaddedReads(d.year, 4);
    PaddedReads(d.month, 2);
    PaddedReads(d.day, 2);
  }

  /** Printed dates have the date shape, solid ends, and read back as themselves. */
  lemma PrintReads(d: Date)
    requires Printable(d)
    ensures DateShaped(PrintDate(d)) && Fields(PrintDate(d)) == d && Strip(PrintDate(d)) == PrintDate(d)
  {
    var s := PrintDate(d);
    PrintParts(d);
    Widths();
    PaddedReads(d.year, 4);
    PaddedReads(d.month, 2);
    PaddedReads(d.day, 2);
    assert s[0] == s[..4][0] && s[9] == s[8..][1];
    StripSolid(s);
  }

  lemma {:induction false} NumberBound(s: string)
    requires AllDigits(s)
    ensures Number(s) < Power10(|s|)
  {
    if s != [] {
      NumberBound(s[..|s| - 1]);
    }
  }

  lemma FieldsPrintable(s: string)
    requires DateShaped(s)
    ensures Printable(Fields(s))
  {
    Widths();
    NumberBound(s[..4]);
    NumberBound(s[5..7]);
    NumberBound(s[8..]);
  }

  /** Whatever text the validator accepts, its output is a fixed point and names the same date. */
  lemma ValidatorOutputIsFixed(s: string)
    requires ValidateJalaliDate(s).Ok?
    ensures var t := ValidateJalaliDate(s).value;
      ValidateJalaliDate(t) == Ok(t) && ParseJalaliDate(t) == ParseJalaliDate(Strip(s))
  {
    FieldsPrintable(Strip(s));
    PrintReads(Fields(Strip(s)));
  }

  /** An accepted text is the printed form of the Gregorian date it converts to. */
  lemma AcceptedTextPrintsBack(s: string)
    requires ToGregorianDate(s).Ok? && ToGregorianDate(s).value.year > 1600
    ensures ValidateJalaliDate(s) == Ok(JalaliString(ToGregorianDate(s).value))
  {
    ValidatorOutputIsFixed(s);
  }

  /** Every accepted text converts: validation and conversion fail together. */
  lemma ConvertsWhenAccepted(s: string)
    ensures ToGregorianDate(s).Ok? <==> ValidateJalaliDate(s).Ok?
    ensures ToGregorianDate(s).Ok? ==>
      IsPythonDate(ToGregorianDate(s).value) && ToGregorianDate(s).value == JalaliToGregorian(Fields(Strip(s)))
  {
    if ValidateJalaliDate(s).Ok? {
      ValidatorOutputIsFixed(s);
    }
  }

  lemma JalaliStringPrintable(g: Date)
    requires IsPythonDate(g) && g.year > 1600
    ensures Printable(GregorianToJalali(g)) && RoundTrips(GregorianToJalali(g))
  {
    var j, last := GregorianToJalali(g), Date(9999, 12, 31);
    GregorianToJalaliKeepsDay(g);
    GregorianToJalaliKeepsDay(last);
    GregorianRoundTrip(g);
    LastConverted();
    hide GregorianToJalali;
    hide JalaliToGregorian;
    hide ValidGregorian;
    hide ValidJalali;
    OrdersAgree(last, GregorianToJalali(last), g, j);
    JalaliMonthLengths(j);
  }

  lemma JalaliMonthLengths(j: Date)
    requires ValidJalali(j)
    ensures 1 <= j.year && 1 <= j.month <= 12 && 1 <= j.day <= 31
  {
  }

  lemma LastElapsed()
    ensures ElapsedDays(8399, 12, 31) == 3067957
  {
  }

  lemma LastSplit()
    ensures SplitJalali(979, 3067957) == Date(9378, 10, 10)
  {
    assert 3067957 / 12053 == 254 && 3067957 % 12053 == 6495;
    assert 6495 / 1461 == 4 && 6495 % 1461 == 651;
  }

  /** The last day Python represents is 9378-10-10. */
  lemma LastConverted()
    ensures GregorianToJalali(Date(9999, 12, 31)) == Date(9378, 10, 10)
    ensures JalaliToGregorian(Date(9378, 10, 10)) == Date(9999, 12, 31)
  {
    hide JalaliToGregorian;
    hide SplitJalali;
    hide ElapsedDays;
    LastElapsed();
    LastSplit();
    GregorianRoundTrip(Date(9999, 12, 31));
  }

  /** From 1601 to 9999 a printed date passes the validator unchanged and parses back to the date. */
  lemma PrintedDateParsesBack(g: Date)
    requires IsPythonDate(g) && g.year > 1600
    ensures ValidateJalaliDate(JalaliString(g)) == Ok(JalaliString(g))
    ensures ToGregorianDate(JalaliString(g)) == Ok(g)
  {
    JalaliStringPrintable(g);
    GregorianToJalaliKeepsDay(g);
    PrintReads(GregorianToJalali(g));
    GregorianRoundTrip(g);
  }

  // ---- Text order is date order ----

  lemma PrintOrder(a: Date, b: Date)
    requires Printable(a) && Printable(b)
    ensures Less(PrintDate(a), PrintDate(b)) <==> Earlier(a, b)
  {
    Widths();
    PrintParts(a);
    PrintParts(b);
    PaddedOrder(a.year, b.year, 4);
    PaddedOrder(a.month, b.month, 2);
    PaddedOrder(a.day, b.day, 2);
    var ya, yb := Padded(a.year, 4), Padded(b.year, 4);
    var ma, mb := Padded(a.month, 2), Padded(b.month, 2);
    var da, db := Padded(a.day, 2), Padded(b.day, 2);
    hide Less;
    hide Padded;
    assert PrintDate(a) == ya + ("-" + (ma + ("-" + da)));
    assert PrintDate(b) == yb + ("-" + (mb + ("-" + db)));
    LessConcat(ya, yb, "-" + (ma + ("-" + da)), "-" + (mb + ("-" + db)));
    DashFirst(ma + ("-" + da), mb + ("-" + db));
    LessConcat(ma, mb, "-" + da, "-" + db);
    DashFirst(da, db);
  }

  lemma DashFirst(a: string, b: string)
    ensures Less("-" + a, "-" + b) <==> Less(a, b)
  {
    LessTotal("-", "-");
    LessConcat("-", "-", a, b);
  }

  /** Printed Jalali dates sort as text in chronological order. */
  lemma TextOrderIsDateOrder(a: Date, b: Date)
    requires IsPythonDate(a) && a.year > 1600 && IsPythonDate(b) && b.year > 1600
    ensures Less(JalaliString(a), JalaliString(b)) <==> Earlier(a, b)
  {
    JalaliStringPrintable(a);
    JalaliStringPrintable(b);
    PrintOrder(GregorianToJalali(a), GregorianToJalali(b));
    GregorianToJalaliKeepsDay(a);
    GregorianToJalaliKeepsDay(b);
    OrdersAgree(a, GregorianToJalali(a), b, GregorianToJalali(b));
  }

  lemma OrdersAgree(a: Date, ja: Date, b: Date, jb: Date)
    requires ValidGregorian(a) && ValidGregorian(b) && ValidJalali(ja) && ValidJalali(jb)
    requires GregorianDay(a) == JalaliDay(ja) && GregorianDay(b) == JalaliDay(jb)
    ensures Earlier(ja, jb) <==> Earlier(a, b)
  {
    if Earlier(a, b) {
      GregorianOrder(a, b);
      if Earlier(jb, ja) {
        JalaliOrder(jb, ja);
      }
    } else if Earlier(b, a) {
      GregorianOrder(b, a);
      if Earlier(ja, jb) {
        JalaliOrder(ja, jb);
      }
    } else {
      JalaliUnique(ja, jb);
    }
  }
}
