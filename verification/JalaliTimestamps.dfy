/** Jalali timestamps as text, and the date-range filter of the snapshot list. */
module JalaliTimestamps {
  import opened Prelude
  import opened Calendars
  import opened JalaliDatetime
  import opened Strings
  import opened JalaliText

  datatype Time = Time(hour: int, minute: int, second: int)

  /** A datetime without microseconds, as the snapshots store it. */
  datatype Timestamp = Timestamp(date: Date, time: Time)

  predicate ValidTime(t: Time) {
    0 <= t.hour <= 23 && 0 <= t.minute <= 59 && 0 <= t.second <= 59
  }

  function SecondOfDay(t: Time): int {
    3600 * t.hour + 60 * t.minute + t.second
  }

  predicate Before(a: Timestamp, b: Timestamp) {
    Earlier(a.date, b.date) || (a.date == b.date && SecondOfDay(a.time) < SecondOfDay(b.time))
  }

  // ---- Printing ----

  function PrintTime(t: Time): string
    requires 0 <= t.hour && 0 <= t.minute && 0 <= t.second
  {
    Padded(t.hour, 2) + ":" + Padded(t.minute, 2) + ":" + Padded(t.second, 2)
  }

  /** gregorian_datetime_to_jalali_datetime_string. */
  function JalaliTimestamp(t: Timestamp): string
    requires IsPythonDate(t.date) && t.date.year > 1600 && ValidTime(t.time)
  {
    JalaliString(t.date) + " " + PrintTime(t.time)
  }

  // ---- Parsing ----

  predicate TimeShaped(s: string) {
    |s| == 8 && AllDigits(s[..2]) && s[2] == ':' && AllDigits(s[3..5]) && s[5] == ':' && AllDigits(s[6..])
  }

  predicate ZoneShaped(s: string) {
    || s == "" || s == "Z"
    || (|s| == 5 && s[0] in "+-" && AllDigits(s[1..]))
    || (|s| == 6 && s[0] in "+-" && AllDigits(s[1..3]) && s[3] == ':' && AllDigits(s[4..]))
  }

  /** An optional fraction, then an optional zone. */
  predicate TailShaped(s: string) {
    ZoneShaped(s) || exists k :: 2 <= k <= |s| && s[0] == '.' && AllDigits(s[1..k]) && ZoneShaped(s[k..])
  }

  predicate TimestampShaped(s: string) {
    && |s| >= 19 && DateShaped(s[..10]) && s[10] in " T"
    && TimeShaped(s[11..19]) && TailShaped(s[19..])
  }

  function TimeFields(s: string): (t: Time)
    requires TimeShaped(s)
    ensures 0 <= t.hour && 0 <= t.minute && 0 <= t.second
  {
    Time(Number(s[..2]), Number(s[3..5]), Number(s[6..]))
  }

  /** validate_jalali_datetime_string. */
  function ValidateJalaliTimestamp(value: string): Result<string, ValueError> {
    var s := Strip(value);
    if !TimestampShaped(s) then Err(ValueError) else
      var r := ParseJalaliDate(s[..10]);
      var t := TimeFields(s[11..19]);
      if r.Err? then Err(r.error)
      else if !ValidTime(t) then Err(ValueError)
      else
        FieldsNonNegative(s[..10]);
        Ok(PrintDate(r.value) + " " + PrintTime(t))
  }

  /** jalali_datetime_string_to_gregorian_date. */
  function TimestampToGregorianDate(value: string): Result<Date, ValueError> {
    var v := ValidateJalaliTimestamp(value);
    if v.Err? then Err(v.error) else
      TimestampLength(value);
      ToGregorianDate(v.value[..10])
  }

  lemma TimestampLength(value: string)
    requires ValidateJalaliTimestamp(value).Ok?
    ensures |ValidateJalaliTimestamp(value).value| == 19
    ensures ValidateJalaliTimestamp(value).value[..10] == PrintDate(Fields(Strip(value)[..10]))
    ensures ValidateJalaliTimestamp(value).value[11..] == PrintTime(TimeFields(Strip(value)[11..19]))
    ensures ValidateJalaliTimestamp(value).value[10] == ' '
  {
    var s := Strip(value);
    FieldsPrintable(s[..10]);
    PrintParts(Fields(s[..10]));
    PrintTimeParts(TimeFields(s[11..19]));
  }

  lemma PrintTimeParts(t: Time)
    requires ValidTime(t)
    ensures var s := PrintTime(t);
      |s| == 8 && s[..2] == Padded(t.hour, 2) && s[3..5] == Padded(t.minute, 2) && s[6..] == Padded(t.second, 2)
      && s[2] == ':' && s[5] == ':'
    ensures |Padded(t.hour, 2)| == 2 && |Padded(t.minute, 2)| == 2 && |Padded(t.second, 2)| == 2
  {
    hide Padded;
    hide AllDigits;
    hide Number;
    Widths();
    PaddedReads(t.hour, 2);
    PaddedReads(t.minute, 2);
    PaddedReads(t.second, 2);
  }

  lemma PrintTimeReads(t: Time)
    requires ValidTime(t)
    ensures TimeShaped(PrintTime(t)) && TimeFields(PrintTime(t)) == t && !IsSpace(PrintTime(t)[7])
  {
    Widths();
    PrintTimeParts(t);
    PaddedReads(t.hour, 2);
    PaddedReads(t.minute, 2);
    PaddedReads(t.second, 2);
    assert PrintTime(t)[7] == PrintTime(t)[6..][1];
  }

  /** Text put together from a printed date and time passes the validator as it is. */
  lemma PrintedPassesValidator(j: Date, t: Time)
    requires Printable(j) && 1 <= j.month <= 12 && 1 <= j.day <= 31 && RoundTrips(j) && ValidTime(t)
    ensures ValidateJalaliTimestamp(PrintDate(j) + " " + PrintTime(t)) == Ok(PrintDate(j) + " " + PrintTime(t))
  {
    hide Padded;
    hide AllDigits;
    hide Number;
    hide DigitValue;
    hide JalaliToGregorian;
    hide GregorianToJalali;
    hide IsSpace;
    var s := PrintDate(j) + " " + PrintTime(t);
    PrintReads(j);
    PrintParts(j);
    PrintTimeReads(t);
    PrintTimeParts(t);
    assert s[..10] == PrintDate(j) && s[11..19] == PrintTime(t) && s[19..] == "";
    assert s[18] == PrintTime(t)[7];
    Widths();
    PaddedReads(j.year, 4);
    assert s[0] == PrintDate(j)[..4][0];
    StripSolid(s);
  }

  // ---- What the printers and validators agree on ----

  /** Whatever timestamp text is accepted, the output is a fixed point: zone and fraction are gone for good. */
  lemma TimestampOutputIsFixed(value: string)
    requires ValidateJalaliTimestamp(value).Ok?
    ensures var v := ValidateJalaliTimestamp(value).value;
      ValidateJalaliTimestamp(v) == Ok(v)
  {
    var s := Strip(value);
    FieldsPrintable(s[..10]);
    PrintedPassesValidator(Fields(s[..10]), TimeFields(s[11..19]));
  }

  /** A timestamp converts to the date that its first ten characters convert to alone. */
  lemma TimestampDateIsItsDate(value: string)
    ensures TimestampToGregorianDate(value).Ok? <==> ValidateJalaliTimestamp(value).Ok?
    ensures TimestampToGregorianDate(value).Ok? ==>
      TimestampToGregorianDate(value) == Ok(JalaliToGregorian(Fields(Strip(value)[..10])))
  {
    if ValidateJalaliTimestamp(value).Ok? {
      var j := Fields(Strip(value)[..10]);
      TimestampLength(value);
      FieldsPrintable(Strip(value)[..10]);
      PrintReads(j);
      ConvertsWhenAccepted(PrintDate(j));
    }
  }

  /** From 1601 to 9999 a printed timestamp passes the validator unchanged and converts back to its date. */
  lemma PrintedTimestampParsesBack(t: Timestamp)
    requires IsPythonDate(t.date) && t.date.year > 1600 && ValidTime(t.time)
    ensures ValidateJalaliTimestamp(JalaliTimestamp(t)) == Ok(JalaliTimestamp(t))
    ensures TimestampToGregorianDate(JalaliTimestamp(t)) == Ok(t.date)
  {
    hide Padded;
    hide PrintTime;
    hide GregorianToJalali;
    hide JalaliToGregorian;
    JalaliStringPrintable(t.date);
    GregorianToJalaliKeepsDay(t.date);
    PrintedPassesValidator(GregorianToJalali(t.date), t.time);
    PrintParts(GregorianToJalali(t.date));
    assert JalaliTimestamp(t)[..10] == JalaliString(t.date);
    PrintedDateParsesBack(t.date);
  }

  lemma TimeTextOrder(a: Time, b: Time)
    requires ValidTime(a) && ValidTime(b)
    ensures Less(PrintTime(a), PrintTime(b)) <==> SecondOfDay(a) < SecondOfDay(b)
    ensures a == b <==> SecondOfDay(a) == SecondOfDay(b)
  {
    Widths();
    PrintTimeParts(a);
    PrintTimeParts(b);
    PaddedOrder(a.hour, b.hour, 2);
    PaddedOrder(a.minute, b.minute, 2);
    PaddedOrder(a.second, b.second, 2);
    var ha, hb := Padded(a.hour, 2), Padded(b.hour, 2);
    var ma, mb := Padded(a.minute, 2), Padded(b.minute, 2);
    var sa, sb := Padded(a.second, 2), Padded(b.second, 2);
    hide Less;
    hide Padded;
    assert PrintTime(a) == ha + (":" + (ma + (":" + sa)));
    assert PrintTime(b) == hb + (":" + (mb + (":" + sb)));
    LessConcat(ha, hb, ":" + (ma + (":" + sa)), ":" + (mb + (":" + sb)));
    SameHead(":", ma + (":" + sa), mb + (":" + sb));
    LessConcat(ma, mb, ":" + sa, ":" + sb);
    SameHead(":", sa, sb);
  }

  lemma SameHead(h: string, a: string, b: string)
    ensures Less(h + a, h + b) <==> Less(a, b)
  {
    LessTotal(h, h);
    LessConcat(h, h, a, b);
  }

  /** Printed timestamps sort as text in chronological order. */
  lemma TimestampTextOrder(a: Timestamp, b: Timestamp)
    requires IsPythonDate(a.date) && a.date.year > 1600 && ValidTime(a.time)
    requires IsPythonDate(b.date) && b.date.year > 1600 && ValidTime(b.time)
    ensures Less(JalaliTimestamp(a), JalaliTimestamp(b)) <==> Before(a, b)
  {
    hide Less;
    hide JalaliString;
    hide PrintTime;
    TextOrderIsDateOrder(a.date, b.date);
    TimeTextOrder(a.time, b.time);
    JalaliStringNamesDate(a.date, b.date);
    JoinedOrder(JalaliString(a.date), PrintTime(a.time), JalaliString(b.date), PrintTime(b.time));
  }

  lemma JalaliStringNamesDate(a: Date, b: Date)
    requires IsPythonDate(a) && a.year > 1600 && IsPythonDate(b) && b.year > 1600
    ensures |JalaliString(a)| == |JalaliString(b)| == 10
    ensures JalaliString(a) == JalaliString(b) <==> a == b
  {
    hide *;
    PrintedDateParsesBack(a);
    PrintedDateParsesBack(b);
    JalaliStringLength(a);
    JalaliStringLength(b);
  }

  lemma JalaliStringLength(a: Date)
    requires IsPythonDate(a) && a.year > 1600
    ensures |JalaliString(a)| == 10
  {
    JalaliStringPrintable(a);
    GregorianToJalaliKeepsDay(a);
    PrintParts(GregorianToJalali(a));
  }

  lemma JoinedOrder(da: string, ta: string, db: string, tb: string)
    requires |da| == |db|
    ensures Less(da + " " + ta, db + " " + tb) <==> Less(da, db) || (da == db && Less(ta, tb))
  {
    hide Less;
    assert da + " " + ta == da + (" " + ta) && db + " " + tb == db + (" " + tb);
    LessConcat(da, db, " " + ta, " " + tb);
    SameHead(" ", ta, tb);
  }

  // ---- The snapshot list's date range ----

  /** date + timedelta(days=1); the last representable date has no next day. */
  function NextDay(d: Date): Date
    requires ValidGregorian(d)
  {
    if d.day < GregorianMonthLength(GregorianLeap(d.year), d.month) then d.(day := d.day + 1)
    else if d.month < 12 then Date(d.year, d.month + 1, 1)
    else Date(d.year + 1, 1, 1)
  }

  lemma NextDayIsNext(d: Date)
    requires ValidGregorian(d)
    ensures ValidGregorian(NextDay(d)) && GregorianDay(NextDay(d)) == GregorianDay(d) + 1
  {
    if d.month == 12 {
      GregorianYearLength(GregorianLeap(d.year));
    }
  }

  const Midnight := Time(0, 0, 0)

  datatype RangeError = Unprocessable | DateOverflow

  /** The date a filter text means: a date, or else the date of a timestamp, both after stripping. */
  function FilterDate(value: string): Result<Date, RangeError> {
    var s := Strip(value);
    var d := ToGregorianDate(s);
    if ValidateJalaliDate(s).Ok? && d.Ok? then Ok(d.value) else
      var t := TimestampToGregorianDate(s);
      if t.Ok? then Ok(t.value) else Err(Unprocessable)
  }

  /** The where clauses of the list query: from the start of the first day to before the day after the last. */
  predicate InRange(selectedAt: Timestamp, from: Option<Date>, to: Option<Date>)
    requires to.Some? ==> ValidGregorian(to.value)
  {
    && (from.Some? ==> !Before(selectedAt, Timestamp(from.value, Midnight)))
    && (to.Some? ==> Before(selectedAt, Timestamp(NextDay(to.value), Midnight)))
  }

  /** The row filter of the snapshot list, from the two filter texts of the request. */
  function SelectSnapshots(from: Option<string>, to: Option<string>): Result<Timestamp -> bool, RangeError> {
    var f := if from.None? then Ok(None) else FilterDateOption(from.value);
    var t := if to.None? then Ok(None) else FilterDateOption(to.value);
    if f.Err? then Err(f.error)
    else if t.Err? then Err(t.error)
    else if t.value == Some(Date(9999, 12, 31)) then Err(DateOverflow)
    else Ok((row: Timestamp) => InRange(row, f.value, t.value))
  }

  function FilterDateOption(value: string): (r: Result<Option<Date>, RangeError>)
    ensures r.Ok? ==> r.value.Some? && IsPythonDate(r.value.value)
  {
    FilterDateIsDate(value);
    var r := FilterDate(value);
    if r.Err? then Err(r.error) else Ok(Some(r.value))
  }

  lemma FilterDateIsDate(value: string)
    ensures FilterDate(value).Ok? ==> IsPythonDate(FilterDate(value).value)
  {
    ConvertsWhenAccepted(Strip(value));
    TimestampDateIsItsDate(Strip(value));
    if ValidateJalaliTimestamp(Strip(value)).Ok? {
      TimestampLength(Strip(value));
      ConvertsWhenAccepted(ValidateJalaliTimestamp(Strip(value)).value[..10]);
    }
  }

  /** The Jalali date a filter text names, in normal form: the ten characters the validators print. */
  function FilterText(value: string): string
    requires FilterDate(value).Ok?
  {
    if ValidateJalaliDate(Strip(value)).Ok? then ValidateJalaliDate(Strip(value)).value
    else
      TimestampLength(Strip(value));
      ValidateJalaliTimestamp(Strip(value)).value[..10]
  }

  /** The filter text is the printed form of a Jalali date that comes back, and names the filter's date. */
  lemma FilterTextNamesDate(value: string)
    requires FilterDate(value).Ok?
    ensures var s := FilterText(value);
      && DateShaped(s) && Printable(Fields(s)) && s == PrintDate(Fields(s))
      && 1 <= Fields(s).month <= 12 && 1 <= Fields(s).day <= 31 && RoundTrips(Fields(s))
      && FilterDate(value).value == JalaliToGregorian(Fields(s))
  {
    var s := Strip(value);
    hide JalaliToGregorian;
    if ValidateJalaliDate(s).Ok? {
      ConvertsWhenAccepted(s);
      FieldsPrintable(Strip(s));
      PrintReads(Fields(Strip(s)));
    } else {
      TimestampDateIsItsDate(s);
      TimestampLength(s);
      FieldsPrintable(Strip(s)[..10]);
      PrintReads(Fields(Strip(s)[..10]));
    }
  }

  /** The half-open range selects whole days. */
  lemma RangeIsWholeDays(row: Timestamp, from: Option<Date>, to: Option<Date>)
    requires ValidGregorian(row.date) && ValidTime(row.time)
    requires (from.Some? ==> ValidGregorian(from.value)) && (to.Some? ==> ValidGregorian(to.value))
    ensures InRange(row, from, to) <==>
      (from.Some? ==> !Earlier(row.date, from.value)) && (to.Some? ==> !Earlier(to.value, row.date))
  {
    if to.Some? {
      NextDayIsNext(to.value);
      var next := NextDay(to.value);
      if Earlier(row.date, next) {
        GregorianOrder(row.date, next);
        if Earlier(to.value, row.date) {
          GregorianOrder(to.value, row.date);
        }
      } else {
        if Earlier(next, row.date) {
          GregorianOrder(next, row.date);
        }
        if !Earlier(to.value, row.date) {
          if Earlier(row.date, to.value) {
            GregorianOrder(row.date, to.value);
          }
        }
      }
    }
  }

  /** A printed row against a filter text, whichever side of 1600 the filter's date lies on. */
  lemma RowAgainstFilter(row: Date, value: string)
    requires FilterDate(value).Ok? && IsPythonDate(row) && row.year > 1600
    ensures var g := FilterDate(value).value;
      && (Less(JalaliString(row), FilterText(value)) <==> Earlier(row, g))
      && (Less(FilterText(value), JalaliString(row)) <==> Earlier(g, row))
  {
    hide Less;
    hide FilterDate;
    hide FilterText;
    FilterTextNamesDate(value);
    var j, jr := Fields(FilterText(value)), GregorianToJalali(row);
    var g := FilterDate(value).value;
    hide JalaliToGregorian;
    hide Fields;
    if g.year > 1600 {
      TextOrderIsDateOrder(row, g);
      TextOrderIsDateOrder(g, row);
    } else {
      JalaliStringPrintable(row);
      RowAfter1600(row);
      if j.year >= 1 {
        After1600(j);
      }
      PrintOrder(j, jr);
      PrintOrder(jr, j);
    }
  }

  lemma RowAfter1600(row: Date)
    requires ValidGregorian(row) && row.year > 1600
    ensures !Earlier(GregorianToJalali(row), FirstAfter1600)
  {
    GregorianToJalaliKeepsDay(row);
    GregorianRoundTrip(row);
    After1600(GregorianToJalali(row));
  }

  /** The rows selected are exactly those whose printed Jalali date lies between the two filter texts, ends included. */
  lemma SnapshotFilterIsTextRange(from: Option<string>, to: Option<string>, row: Timestamp)
    requires SelectSnapshots(from, to).Ok?
    requires IsPythonDate(row.date) && row.date.year > 1600 && ValidTime(row.time)
    ensures SelectSnapshots(from, to).value(row) <==>
      && (from.Some? ==> !Less(JalaliString(row.date), FilterText(from.value)))
      && (to.Some? ==> !Less(FilterText(to.value), JalaliString(row.date)))
  {
    hide Less;
    hide FilterDate;
    hide FilterText;
    var f := if from.None? then None else Some(FilterDate(from.value).value);
    var t := if to.None? then None else Some(FilterDate(to.value).value);
    if from.Some? {
      FilterDateIsDate(from.value);
      RowAgainstFilter(row.date, from.value);
    }
    if to.Some? {
      FilterDateIsDate(to.value);
      RowAgainstFilter(row.date, to.value);
    }
    RangeIsWholeDays(row, f, t);
  }

  /** Neither validator accepts the stripped text. */
  predicate NamesNoDate(value: string) {
    ValidateJalaliDate(Strip(value)).Err? && ValidateJalaliTimestamp(Strip(value)).Err?
  }

  lemma FilterDateFails(value: string)
    ensures FilterDate(value).Err? <==> NamesNoDate(value)
  {
    ConvertsWhenAccepted(Strip(value));
    TimestampDateIsItsDate(Strip(value));
  }

  /** The text ends the range on 9378-10-10, the Jalali name of the last day Python represents. */
  predicate NamesLastDay(value: string) {
    FilterDate(value).Ok? && FilterText(value) == "9378-10-10"
  }

  lemma LastPrinted()
    ensures PrintDate(Date(9378, 10, 10)) == "9378-10-10"
  {
    assert Padded(10, 2) == "10" by {
      assert Padded(1, 1) == "1";
    }
    assert Padded(9378, 4) == "9378" by {
      assert Padded(9, 1) == "9";
      assert Padded(93, 2) == "93";
      assert Padded(937, 3) == "937";
    }
  }

  lemma LastFilterText(value: string)
    requires FilterDate(value).Ok?
    ensures FilterDate(value).value == Date(9999, 12, 31) <==> NamesLastDay(value)
  {
    hide FilterDate;
    hide FilterText;
    hide JalaliToGregorian;
    hide GregorianToJalali;
    hide Fields;
    hide PrintDate;
    hide DateShaped;
    FilterTextNamesDate(value);
    LastConverted();
    LastPrinted();
    PrintReads(Date(9378, 10, 10));
  }

  /**
   The filter fails exactly when one of the texts is accepted by neither validator, or the range ends on the
   last day Python represents.
   */
  lemma SnapshotFilterFails(from: Option<string>, to: Option<string>)
    ensures SelectSnapshots(from, to).Err? <==>
      || (from.Some? && NamesNoDate(from.value))
      || (to.Some? && (NamesNoDate(to.value) || NamesLastDay(to.value)))
  {
    hide FilterDate;
    hide NamesLastDay;
    hide NamesNoDate;
    if from.Some? {
      FilterDateFails(from.value);
    }
    if to.Some? {
      FilterDateFails(to.value);
      if FilterDate(to.value).Ok? {
        LastFilterText(to.value);
      } else {
        NoLastDay(to.value);
      }
    }
  }

  lemma NoLastDay(value: string)
    requires FilterDate(value).Err?
    ensures !NamesLastDay(value)
  {
  }
}
