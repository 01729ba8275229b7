/** Which timestamp texts are accepted, by how they are written: separator, fraction, zone, digits of any script. */
module JalaliShapes {
  import opened Prelude
  import opened Calendars
  import opened Strings
  import opened JalaliText
  import opened JalaliEarly
  import opened JalaliTimestamps

  /** A timestamp text in its pieces. */
  datatype Parts = Parts(
    year: string, month: string, day: string, separator: string, hour: string, minute: string, second: string,
    fraction: string, zone: string)
  {
    function DateText(): string { year + "-" + month + "-" + day }

    function TimeText(): string { hour + ":" + minute + ":" + second }

    function Text(): string { DateText() + separator + TimeText() + (fraction + zone) }
  }

  predicate Digits(s: string, n: nat) {
    |s| == n && AllDigits(s)
  }

  /** No zone, Z, or a signed offset of hours and minutes, with or without a colon. */
  ghost predicate ZoneText(s: string) {
    || s == "" || s == "Z"
    || exists sign, hh, mm :: OffsetText(s, sign, hh, mm)
  }

  predicate OffsetText(s: string, sign: string, hh: string, mm: string) {
    (sign == "+" || sign == "-") && Digits(hh, 2) && Digits(mm, 2) && (s == sign + hh + mm || s == sign + hh + ":" + mm)
  }

  /** No fraction, or a point and at least one digit. */
  predicate FractionText(s: string) {
    s == "" || (|s| >= 2 && s[0] == '.' && AllDigits(s[1..]))
  }

  /** A space or a T stands between the date and the time. */
  ghost predicate Written(p: Parts) {
    && Digits(p.year, 4) && Digits(p.month, 2) && Digits(p.day, 2) && (p.separator == " " || p.separator == "T")
    && Digits(p.hour, 2) && Digits(p.minute, 2) && Digits(p.second, 2) && FractionText(p.fraction) && ZoneText(p.zone)
  }

  // ---- Pieces and slices ----

  lemma Joined(a: string, b: string)
    ensures (a + b)[..|a|] == a && (a + b)[|a|..] == b
  {
  }

  lemma DateSlices(p: Parts)
    requires Digits(p.year, 4) && Digits(p.month, 2) && Digits(p.day, 2)
    ensures DateShaped(p.DateText())
    ensures Fields(p.DateText()) == Date(Number(p.year), Number(p.month), Number(p.day))
  {
    hide AllDigits;
    hide Number;
    var s := p.DateText();
    assert s[..4] == p.year && s[5..7] == p.month && s[8..] == p.day;
  }

  lemma TimeSlices(p: Parts)
    requires Digits(p.hour, 2) && Digits(p.minute, 2) && Digits(p.second, 2)
    ensures TimeShaped(p.TimeText())
    ensures TimeFields(p.TimeText()) == Time(Number(p.hour), Number(p.minute), Number(p.second))
  {
    hide AllDigits;
    hide Number;
    var s := p.TimeText();
    assert s[..2] == p.hour && s[3..5] == p.minute && s[6..] == p.second;
  }

  lemma ZoneIff(s: string)
    ensures ZoneShaped(s) <==> ZoneText(s)
  {
    hide AllDigits;
    if sign, hh, mm :| OffsetText(s, sign, hh, mm) {
      OffsetShaped(s, sign, hh, mm);
    }
    if ZoneShaped(s) && s != "" && s != "Z" {
      var sign, hh, mm := ZoneSplit(s);
    }
  }

  lemma ZoneSplit(s: string) returns (sign: string, hh: string, mm: string)
    requires ZoneShaped(s) && s != "" && s != "Z"
    ensures OffsetText(s, sign, hh, mm)
  {
    sign := [s[0]];
    assert s[0] == '+' || s[0] == '-';
    if |s| == 5 {
      hh, mm := s[1..3], s[3..];
      DigitSlices(s[1..], 2);
      assert hh == s[1..][..2] && mm == s[1..][2..];
    } else {
      hh, mm := s[1..3], s[4..];
    }
  }

  lemma DigitSlices(s: string, n: nat)
    requires AllDigits(s) && n <= |s|
    ensures AllDigits(s[..n]) && AllDigits(s[n..])
  {
  }

  lemma OffsetShaped(s: string, sign: string, hh: string, mm: string)
    requires OffsetText(s, sign, hh, mm)
    ensures ZoneShaped(s)
  {
    if s == sign + hh + mm {
      assert s[1..] == hh + mm;
      JoinedDigits(hh, mm);
    } else {
      assert s[1..3] == hh && s[4..] == mm;
    }
  }

  lemma JoinedDigits(a: string, b: string)
    requires AllDigits(a) && AllDigits(b)
    ensures AllDigits(a + b)
  {
  }

  lemma TailIff(s: string)
    ensures TailShaped(s) <==> exists fraction, zone :: FractionText(fraction) && ZoneText(zone) && s == fraction + zone
  {
    hide AllDigits;
    hide ZoneText;
    hide ZoneShaped;
    if TailShaped(s) {
      if ZoneShaped(s) {
        ZoneIff(s);
        assert FractionText("") && s == "" + s;
      } else {
        var k :| 2 <= k <= |s| && s[0] == '.' && AllDigits(s[1..k]) && ZoneShaped(s[k..]);
        ZoneIff(s[k..]);
        assert s[..k][1..] == s[1..k];
        assert FractionText(s[..k]) && s == s[..k] + s[k..];
      }
    }
    if fraction, zone :| FractionText(fraction) && ZoneText(zone) && s == fraction + zone {
      TailBuilt(s, fraction, zone);
    }
  }

  lemma TailBuilt(s: string, fraction: string, zone: string)
    requires FractionText(fraction) && ZoneText(zone) && s == fraction + zone
    ensures TailShaped(s)
  {
    hide ZoneText;
    hide ZoneShaped;
    hide AllDigits;
    ZoneIff(zone);
    if fraction == "" {
      assert s == zone;
    } else {
      var k := |fraction|;
      Joined(fraction, zone);
      assert s[1..k] == fraction[1..];
    }
  }

  lemma TextSlices(p: Parts)
    requires |p.DateText()| == 10 && |p.separator| == 1 && |p.TimeText()| == 8
    ensures var s := p.Text();
      |s| >= 19 && s[..10] == p.DateText() && s[10] == p.separator[0] && s[11..19] == p.TimeText()
      && s[19..] == p.fraction + p.zone
  {
  }

  lemma WrittenShaped(p: Parts)
    requires Written(p)
    ensures TimestampShaped(p.Text())
    ensures Fields(p.Text()[..10]) == Date(Number(p.year), Number(p.month), Number(p.day))
    ensures TimeFields(p.Text()[11..19]) == Time(Number(p.hour), Number(p.minute), Number(p.second))
  {
    hide AllDigits;
    hide Number;
    hide TailShaped;
    hide ZoneText;
    hide FractionText;
    DateSlices(p);
    TimeSlices(p);
    TextSlices(p);
    TailBuilt(p.fraction + p.zone, p.fraction, p.zone);
  }

  /** Every text of timestamp shape is written in pieces. */
  lemma ShapedWritten(s: string) returns (p: Parts)
    requires TimestampShaped(s)
    ensures Written(p) && p.Text() == s
  {
    hide AllDigits;
    hide TailShaped;
    hide ZoneText;
    hide FractionText;
    var d, t := s[..10], s[11..19];
    TailIff(s[19..]);
    var fraction, zone :| FractionText(fraction) && ZoneText(zone) && s[19..] == fraction + zone;
    p := Parts(d[..4], d[5..7], d[8..], [s[10]], t[..2], t[3..5], t[6..], fraction, zone);
    assert p.DateText() == d && p.TimeText() == t;
    assert s == d + [s[10]] + t + s[19..];
  }

  // ---- What is accepted ----

  /** The fields are a date the calendar has and a time of day. */
  predicate AcceptedParts(date: Date, time: Time) {
    AcceptedFields(date) && 0 <= time.hour <= 23 && 0 <= time.minute <= 59 && 0 <= time.second <= 59
  }

  /**
   A text is accepted exactly when, stripped, it is a date and a time with a space or a T between them, an optional
   fraction and an optional zone, the date is one the date validator accepts, and the time is one of the day. The
   output is the date and the time; fraction and zone are dropped.
   */
  lemma TimestampAccepts(value: string)
    ensures ValidateJalaliTimestamp(value).Ok? <==> exists p :: Accepted(value, p)
    ensures forall p :: Accepted(value, p) ==>
      ValidateJalaliTimestamp(value) ==
        Ok(PrintDate(Date(Number(p.year), Number(p.month), Number(p.day))) + " "
          + PrintTime(Time(Number(p.hour), Number(p.minute), Number(p.second))))
  {
    hide PrintDate;
    hide PrintTime;
    hide Number;
    hide AllDigits;
    hide TimestampShaped;
    hide ZoneText;
    hide FractionText;
    hide AcceptedFields;
    var s := Strip(value);
    if ValidateJalaliTimestamp(value).Ok? {
      var p := ShapedWritten(s);
      ShapedAccepts(value);
      WrittenShaped(p);
      WrittenDigits(p);
      assert Accepted(value, p);
    }
    forall p | Accepted(value, p)
      ensures ValidateJalaliTimestamp(value) ==
        Ok(PrintDate(Date(Number(p.year), Number(p.month), Number(p.day))) + " "
          + PrintTime(Time(Number(p.hour), Number(p.minute), Number(p.second))))
    {
      WrittenShaped(p);
      ShapedAccepts(value);
    }
  }

  ghost predicate Accepted(value: string, p: Parts) {
    && Written(p) && p.Text() == Strip(value)
    && AcceptedParts(Date(Number(p.year), Number(p.month), Number(p.day)),
         Time(Number(p.hour), Number(p.minute), Number(p.second)))
  }

  lemma WrittenDigits(p: Parts)
    requires Written(p)
    ensures AllDigits(p.year) && AllDigits(p.month) && AllDigits(p.day)
    ensures AllDigits(p.hour) && AllDigits(p.minute) && AllDigits(p.second)
  {
  }

  lemma ShapedAccepts(value: string)
    requires TimestampShaped(Strip(value))
    ensures var s := Strip(value); var d, t := Fields(s[..10]), TimeFields(s[11..19]);
      && 0 <= d.year && 0 <= d.month && 0 <= d.day
      && (ValidateJalaliTimestamp(value).Ok? <==> AcceptedParts(d, t))
      && (ValidateJalaliTimestamp(value).Ok? ==>
            ValidateJalaliTimestamp(value) == Ok(PrintDate(d) + " " + PrintTime(t)))
  {
    hide PrintDate;
    hide PrintTime;
    hide Number;
    hide AllDigits;
    hide RoundTrips;
    hide AcceptedFields;
    var s := Strip(value);
    var j := Fields(s[..10]);
    FieldsNonNegative(s[..10]);
    if 1 <= j.month <= 12 && 1 <= j.day <= 31 {
      RoundTripAccepts(j);
    } else {
      AcceptedRange(j);
    }
  }

  lemma AcceptedRange(j: Date)
    ensures AcceptedFields(j) ==> 1 <= j.month <= 12 && 1 <= j.day <= 31
  {
  }

  // ---- Digits of other scripts ----

  /** Persian and Arabic digits count as digits, with their values. */
  lemma PersianDigits(v: int)
    requires 0 <= v <= 9
    ensures DigitValue((0x06F0 + v) as char) == Some(v) && DigitValue((0x0660 + v) as char) == Some(v)
  {
    hide OtherDigitZeros;
    var persian, arabic := (0x06F0 + v) as char, (0x0660 + v) as char;
    var fromArabic := DigitZeros[1..];
    var fromPersian := fromArabic[1..];
    assert DigitZeros[0] == 0x30 && fromArabic[0] == 0x0660 && fromPersian[0] == 0x06F0;
    assert DigitFrom(fromPersian, persian) == Some(v) && DigitFrom(fromArabic, arabic) == Some(v);
    assert DigitFrom(fromArabic, persian) == DigitFrom(fromPersian, persian);
  }
}
