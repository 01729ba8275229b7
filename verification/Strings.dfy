/** Text as Python sees it: order by code point, whitespace, decimal digits, zero padding. */
module Strings {
  import opened Prelude

  /** Lexicographic order by code point. */
  predicate Less(a: string, b: string) {
    b != [] && (a == [] || a[0] < b[0] || (a[0] == b[0] && Less(a[1..], b[1..])))
  }

  /** With a common length in front, the fronts decide unless they are equal. */
  lemma {:induction false} LessConcat(a: string, b: string, c: string, d: string)
    requires |a| == |b|
    ensures Less(a + c, b + d) <==> Less(a, b) || (a == b && Less(c, d))
  {
    if a == [] {
      assert a + c == c && b + d == d;
    } else {
      assert (a + c)[1..] == a[1..] + c && (b + d)[1..] == b[1..] + d;
      assert a == [a[0]] + a[1..] && b == [b[0]] + b[1..];
      LessConcat(a[1..], b[1..], c, d);
    }
  }

  lemma {:induction false} LessTotal(a: string, b: string)
    ensures a == b || Less(a, b) || Less(b, a)
    ensures !(Less(a, b) && Less(b, a))
    ensures !Less(a, a)
  {
    if a != [] {
      LessTotal(a[1..], a[1..]);
      if b != [] {
        LessTotal(a[1..], b[1..]);
        assert a == [a[0]] + a[1..] && b == [b[0]] + b[1..];
      }
    }
  }

  lemma {:induction false} LessTransitive(a: string, b: string, c: string)
    requires Less(a, b) && Less(b, c)
    ensures Less(a, c)
  {
    if a != [] && a[0] == b[0] && b[0] == c[0] {
      LessTransitive(a[1..], b[1..], c[1..]);
    }
  }

  // ---- Whitespace ----

  /** str.isspace. */
  predicate IsSpace(c: char) {
    var n := c as int;
    || 0x09 <= n <= 0x0D || 0x1C <= n <= 0x20 || n == 0x85 || n == 0xA0 || n == 0x1680
    || 0x2000 <= n <= 0x200A || n == 0x2028 || n == 0x2029 || n == 0x202F || n == 0x205F || n == 0x3000
  }

  /** The 29 characters that count as white space. */
  lemma WhiteSpace(c: char)
    ensures IsSpace(c) <==> c as int in {
      0x0009, 0x000A, 0x000B, 0x000C, 0x000D, 0x001C, 0x001D, 0x001E, 0x001F, 0x0020, 0x0085, 0x00A0, 0x1680, 0x2000,
      0x2001, 0x2002, 0x2003, 0x2004, 0x2005, 0x2006, 0x2007, 0x2008, 0x2009, 0x200A, 0x2028, 0x2029, 0x202F, 0x205F,
      0x3000}
  {
  }

  function StripLeft(s: string): string {
    if s != [] && IsSpace(s[0]) then StripLeft(s[1..]) else s
  }

  function StripRight(s: string): string {
    if s != [] && IsSpace(s[|s| - 1]) then StripRight(s[..|s| - 1]) else s
  }

  function Strip(s: string): string {
    StripRight(StripLeft(s))
  }

  /** Text with solid ends is its own stripped form. */
  lemma StripSolid(s: string)
    requires s != [] && !IsSpace(s[0]) && !IsSpace(s[|s| - 1])
    ensures Strip(s) == s
  {
  }

  predicate AllSpace(s: string) {
    forall i :: 0 <= i < |s| ==> IsSpace(s[i])
  }

  /** Neither end is white space, and the text is not empty. */
  predicate SolidEnds(s: string) {
    s != [] && !IsSpace(s[0]) && !IsSpace(s[|s| - 1])
  }

  /** Stripping cuts white space off both ends, and all of it. */
  lemma StripParts(s: string) returns (a: string, b: string)
    ensures s == a + Strip(s) + b && AllSpace(a) && AllSpace(b)
    ensures Strip(s) == [] || SolidEnds(Strip(s))
  {
    a := StripLeftParts(s);
    b := StripRightParts(StripLeft(s));
  }

  lemma {:induction false} StripLeftParts(s: string) returns (a: string)
    ensures s == a + StripLeft(s) && AllSpace(a) && (StripLeft(s) == [] || !IsSpace(StripLeft(s)[0]))
  {
    if s != [] && IsSpace(s[0]) {
      var rest := StripLeftParts(s[1..]);
      a := [s[0]] + rest;
    } else {
      a := [];
    }
  }

  lemma {:induction false} StripRightParts(s: string) returns (b: string)
    ensures s == StripRight(s) + b && AllSpace(b)
    ensures StripRight(s) == [] || !IsSpace(StripRight(s)[|StripRight(s)| - 1])
    ensures StripRight(s) != [] ==> StripRight(s)[0] == s[0]
  {
    if s != [] && IsSpace(s[|s| - 1]) {
      var rest := StripRightParts(s[..|s| - 1]);
      b := rest + [s[|s| - 1]];
    } else {
      b := [];
    }
  }

  /** Text with solid ends is what stripping leaves of it with any white space around it. */
  lemma {:induction false} StripPadded(a: string, t: string, b: string)
    requires AllSpace(a) && AllSpace(b) && SolidEnds(t)
    ensures Strip(a + t + b) == t
    decreases |a| + |b|
  {
    var s := a + t + b;
    if a != [] {
      assert s[1..] == a[1..] + t + b;
      StripPadded(a[1..], t, b);
    } else if b != [] {
      assert StripLeft(s) == s;
      assert s[..|s| - 1] == a + t + b[..|b| - 1];
      StripPadded(a, t, b[..|b| - 1]);
      assert StripLeft(s[..|s| - 1]) == s[..|s| - 1];
    } else {
      assert s == t;
      StripSolid(t);
    }
  }

  lemma {:induction false} StripSpace(s: string)
    requires AllSpace(s)
    ensures Strip(s) == []
  {
    if s != [] {
      StripSpace(s[1..]);
    }
  }

  // ---- Digits ----

  /** Where each run of ten decimal digits starts: ASCII, Arabic, Persian, others (category Nd of Unicode 15.0). */
  const DigitZeros: seq<int> := [0x0030, 0x0660, 0x06F0] + OtherDigitZeros

  const OtherDigitZeros: seq<int> := [
    0x07C0, 0x0966, 0x09E6, 0x0A66, 0x0AE6, 0x0B66, 0x0BE6, 0x0C66, 0x0CE6, 0x0D66,
    0x0DE6, 0x0E50, 0x0ED0, 0x0F20, 0x1040, 0x1090, 0x17E0, 0x1810, 0x1946, 0x19D0, 0x1A80, 0x1A90, 0x1B50,
    0x1BB0, 0x1C40, 0x1C50, 0xA620, 0xA8D0, 0xA900, 0xA9D0, 0xA9F0, 0xAA50, 0xABF0, 0xFF10, 0x104A0, 0x10D30,
    0x11066, 0x110F0, 0x11136, 0x111D0, 0x112F0, 0x11450, 0x114D0, 0x11650, 0x116C0, 0x11730, 0x118E0, 0x11950,
    0x11C50, 0x11D50, 0x11DA0, 0x11F50, 0x16A60, 0x16AC0, 0x16B50, 0x1D7CE, 0x1D7D8, 0x1D7E2, 0x1D7EC, 0x1D7F6,
    0x1E140, 0x1E2F0, 0x1E4F0, 0x1E950, 0x1FBF0]

  function DigitFrom(zeros: seq<int>, c: char): (v: Option<int>)
    ensures v.Some? ==> 0 <= v.value <= 9
  {
    if zeros == [] then None
    else if 0 <= c as int - zeros[0] <= 9 then Some(c as int - zeros[0])
    else DigitFrom(zeros[1..], c)
  }

  /** The value of a decimal digit in any script. */
  function DigitValue(c: char): (v: Option<int>)
    ensures v.Some? ==> 0 <= v.value <= 9
  {
    DigitFrom(DigitZeros, c)
  }

  predicate AllDigits(s: string) {
    forall i :: 0 <= i < |s| ==> DigitValue(s[i]).Some?
  }

  /** int(s) for a string of digits. */
  function Number(s: string): (n: nat)
    requires AllDigits(s)
  {
    if s == [] then 0 else 10 * Number(s[..|s| - 1]) + DigitValue(s[|s| - 1]).value
  }

  function Digit(v: int): char
    requires 0 <= v <= 9
  {
    '0' + v as char
  }

  lemma DigitOfValue(v: int)
    requires 0 <= v <= 9
    ensures DigitValue(Digit(v)) == Some(v) && !IsSpace(Digit(v)) && Digit(v) != '-'
  {
    assert DigitZeros[0] == 0x30;
  }

  function Power10(w: nat): nat {
    if w == 0 then 1 else 10 * Power10(w - 1)
  }

  /** Decimal notation, padded with zeros to at least w digits. */
  function Padded(n: nat, w: nat): string
    decreases n, w
  {
    if n < 10 && w <= 1 then [Digit(n)]
    else Padded(n / 10, if w == 0 then 0 else w - 1) + [Digit(n % 10)]
  }

  /** Padding fits, is all digits, and reads back as the number. */
  lemma {:induction false} PaddedReads(n: nat, w: nat)
    requires 1 <= w && n < Power10(w)
    ensures |Padded(n, w)| == w && AllDigits(Padded(n, w)) && Number(Padded(n, w)) == n
    ensures forall i :: 0 <= i < w ==> !IsSpace(Padded(n, w)[i]) && Padded(n, w)[i] != '-'
    decreases w
  {
    DigitOfValue(n % 10);
    if w == 1 {
      assert Power10(1) == 10 * Power10(0);
      assert Padded(n, 1) == [Digit(n)];
      assert Padded(n, 1)[..0] == [];
    } else {
      assert n / 10 < Power10(w - 1);
      PaddedReads(n / 10, w - 1);
      var front := Padded(n / 10, w - 1);
      assert Padded(n, w) == front + [Digit(n % 10)];
      assert Padded(n, w)[..w - 1] == front;
    }
  }

  lemma AppendOne(a: string, x: char, b: string, y: char)
    requires |a| == |b|
    ensures a + [x] == b + [y] <==> a == b && x == y
    ensures Less(a + [x], b + [y]) <==> Less(a, b) || (a == b && x < y)
  {
    LessConcat(a, b, [x], [y]);
    assert Less([x], [y]) <==> x < y;
    if a + [x] == b + [y] {
      assert (a + [x])[..|a|] == a && (b + [y])[..|a|] == b;
      assert (a + [x])[|a|] == x && (b + [y])[|a|] == y;
    }
  }

  /** Padded numbers of one width compare as text the way they compare as numbers. */
  lemma {:induction false} PaddedOrder(n: nat, m: nat, w: nat)
    requires 1 <= w && n < Power10(w) && m < Power10(w)
    ensures Less(Padded(n, w), Padded(m, w)) <==> n < m
    ensures Padded(n, w) == Padded(m, w) <==> n == m
    decreases w
  {
    hide Less;
    if w == 1 {
      assert Power10(1) == 10 * Power10(0);
      AppendOne([], Digit(n), [], Digit(m));
      assert [] + [Digit(n)] == [Digit(n)] && [] + [Digit(m)] == [Digit(m)];
      NothingLess();
    } else {
      PaddedLast(n, w);
      PaddedLast(m, w);
      hide Padded;
      hide Power10;
      PaddedOrder(n / 10, m / 10, w - 1);
      PaddedReads(n / 10, w - 1);
      PaddedReads(m / 10, w - 1);
      AppendOne(Padded(n / 10, w - 1), Digit(n % 10), Padded(m / 10, w - 1), Digit(m % 10));
    }
  }

  lemma PaddedLast(n: nat, w: nat)
    requires 2 <= w && n < Power10(w)
    ensures Padded(n, w) == Padded(n / 10, w - 1) + [Digit(n % 10)] && n / 10 < Power10(w - 1)
  {
    assert Power10(w) == 10 * Power10(w - 1);
  }

  lemma NothingLess()
    ensures !Less([], [])
  {
  }
}
