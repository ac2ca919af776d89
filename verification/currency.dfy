/** The currency rendering `"${:,.0f}"` applied to non-negative whole amounts:
    a dollar sign followed by the decimal digits of the amount, with a comma
    before every complete group of three digits counted from the right
    (the thousands separator of the format-specification mini-language,
    PEP 378). Also the plain decimal representation it is built on, and a
    parser that undoes both. */
module Currency {
  import opened Wrappers

  predicate IsDigit(c: char) {
    '0' <= c <= '9'
  }

  predicate AllDigits(s: string) {
    forall i :: 0 <= i < |s| ==> IsDigit(s[i])
  }

  /** The numeric value of one decimal digit character. */
  function DigitValue(c: char): (d: nat)
    requires IsDigit(c)
    ensures d < 10
  {
    c as int - '0' as int
  }

  /** The character of one decimal digit. */
  function DigitChar(d: nat): (c: char)
    requires d < 10
    ensures IsDigit(c)
    ensures DigitValue(c) == d
  {
    ('0' as int + d) as char
  }

  lemma DigitCharOfValue(c: char)
    requires IsDigit(c)
    ensures DigitChar(DigitValue(c)) == c
  {
  }

  function Pow10(k: nat): (p: nat)
    ensures p >= 1
  {
    if k == 0 then 1 else 10 * Pow10(k - 1)
  }

  /** A canonical decimal numeral: digits only, no leading zero except "0" itself. */
  predicate IsNumeral(s: string) {
    |s| >= 1 && AllDigits(s) && (s[0] == '0' ==> |s| == 1)
  }

  /** The plain decimal representation of n, as `str(n)` produces it. */
  function Decimal(n: nat): (s: string)
    ensures IsNumeral(s)
    ensures s[0] == '0' <==> n == 0
    decreases n
  {
    if n < 10 then [DigitChar(n)] else Decimal(n / 10) + [DigitChar(n % 10)]
  }

  /** The value of a string of decimal digits (the empty string reads as 0). */
  function ValueOf(s: string): nat
    requires AllDigits(s)
  {
    if |s| == 0 then 0 else ValueOf(s[..|s| - 1]) * 10 + DigitValue(s[|s| - 1])
  }

  /** The last k decimal digits of n, padded on the left with zeros: one
      three-digit group of the thousands-separated format when k is 3. */
  function Pad(n: nat, k: nat): (s: string)
    ensures |s| == k && AllDigits(s)
  {
    if k == 0 then [] else Pad(n / 10, k - 1) + [DigitChar(n % 10)]
  }

  /** The digits of n with a comma before every complete group of three
      digits counted from the right: the `{:,}` part of the format. */
  function Group(n: nat): (s: string)
    ensures |s| >= 1 && IsDigit(s[0])
    decreases n
  {
    if n < 1000 then Decimal(n) else Group(n / 1000) + "," + Pad(n % 1000, 3)
  }

  /** `"${:,.0f}".format(n)` for a non-negative whole amount n up to 2^53.
      Python first converts n to a double, so larger amounts that a double
      cannot hold exactly would print differently. */
  function FormatUsd(n: nat): string {
    "$" + Group(n)
  }

  /** The string with every comma removed. */
  function StripCommas(s: string): (r: string)
    ensures |r| <= |s|
    ensures forall i :: 0 <= i < |r| ==> r[i] != ','
  {
    if |s| == 0 then [] else (if s[0] == ',' then [] else [s[0]]) + StripCommas(s[1..])
  }

  /** Reads back a currency string: a dollar sign, then digits with any commas
      among them. Fails on anything else. */
  function ParseUsd(s: string): (r: Option<nat>)
    ensures r.Some? ==> |s| >= 2 && s[0] == '$'
  {
    if |s| == 0 || s[0] != '$' then None
    else
      var digits := StripCommas(s[1..]);
      if |digits| == 0 || !AllDigits(digits) then None else Some(ValueOf(digits))
  }

  // ---------------------------------------------------------------------------
  // The decimal representation and its reader are mutually inverse.

  /** Reading the decimal representation of n gives back n. */
  lemma {:induction false} DecimalRoundTrip(n: nat)
    ensures ValueOf(Decimal(n)) == n
    decreases n
  {
    if n >= 10 {
      var s := Decimal(n);
      assert s[..|s| - 1] == Decimal(n / 10);
      DecimalRoundTrip(n / 10);
    }
  }

  /** A string of digits that starts with a non-zero digit has a positive value. */
  lemma {:induction false} LeadingDigitPositive(s: string)
    requires |s| >= 1 && AllDigits(s) && s[0] != '0'
    ensures ValueOf(s) >= 1
    decreases |s|
  {
    if |s| > 1 {
      LeadingDigitPositive(s[..|s| - 1]);
    }
  }

  /** Every canonical numeral is the decimal representation of its value, so
      `Decimal` and `ValueOf` are inverse on canonical numerals. */
  lemma {:induction false} NumeralRoundTrip(s: string)
    requires IsNumeral(s)
    ensures Decimal(ValueOf(s)) == s
    decreases |s|
  {
    var c := s[|s| - 1];
    if |s| == 1 {
      DigitCharOfValue(c);
      assert s == [c];
    } else {
      var t := s[..|s| - 1];
      LeadingDigitPositive(t);
      NumeralRoundTrip(t);
      var n := ValueOf(s);
      assert n == ValueOf(t) * 10 + DigitValue(c);
      assert n / 10 == ValueOf(t) && n % 10 == DigitValue(c);
      DigitCharOfValue(c);
      assert s == t + [c];
    }
  }

  // ---------------------------------------------------------------------------
  // Splitting a numeral into a leading part and a zero-padded trailing part.

  lemma DivModShift(a: nat, b: nat, k: nat)
    requires a >= 1 && k >= 1 && b < Pow10(k)
    ensures a * Pow10(k) + b >= 10
    ensures (a * Pow10(k) + b) / 10 == a * Pow10(k - 1) + b / 10
    ensures (a * Pow10(k) + b) % 10 == b % 10
    ensures b / 10 < Pow10(k - 1)
  {
    var q := a * Pow10(k - 1) + b / 10;
    assert a * Pow10(k) + b == 10 * q + b % 10;
    assert a * Pow10(k) >= Pow10(k) >= 10;
  }

  lemma DecimalUnfold(n: nat)
    requires n >= 10
    ensures Decimal(n) == Decimal(n / 10) + [DigitChar(n % 10)]
  {
  }

  /** The decimal representation of a·10^k + b, with a positive and b below
      10^k, is that of a followed by b padded to k digits. */
  lemma {:induction false} DecimalShift(a: nat, b: nat, k: nat)
    requires a >= 1 && b < Pow10(k)
    ensures Decimal(a * Pow10(k) + b) == Decimal(a) + Pad(b, k)
    decreases k
  {
    if k >= 1 {
      DivModShift(a, b, k);
      DecimalShift(a, b / 10, k - 1);
      DecimalUnfold(a * Pow10(k) + b);
    }
  }

  /** A number below 10^k has at most k decimal digits. */
  lemma {:induction false} DecimalLength(n: nat, k: nat)
    requires k >= 1 && n < Pow10(k)
    ensures |Decimal(n)| <= k
    decreases k
  {
    if n >= 10 {
      assert k >= 2;
      assert n / 10 < Pow10(k - 1);
      DecimalLength(n / 10, k - 1);
    }
  }

  // ---------------------------------------------------------------------------
  // Removing the commas.

  lemma {:induction false} StripCommasAppend(a: string, b: string)
    ensures StripCommas(a + b) == StripCommas(a) + StripCommas(b)
    decreases |a|
  {
    if |a| > 0 {
      assert (a + b)[1..] == a[1..] + b;
      StripCommasAppend(a[1..], b);
    } else {
      assert a + b == b;
    }
  }

  lemma {:induction false} StripCommasNoComma(s: string)
    requires forall i :: 0 <= i < |s| ==> s[i] != ','
    ensures StripCommas(s) == s
    decreases |s|
  {
    if |s| > 0 {
      StripCommasNoComma(s[1..]);
    }
  }

  lemma GroupUnfold(n: nat)
    requires n >= 1000
    ensures Group(n) == Group(n / 1000) + "," + Pad(n % 1000, 3)
    ensures n / 1000 >= 1 && n % 1000 < Pow10(3)
    ensures n == (n / 1000) * Pow10(3) + n % 1000
  {
    assert Pow10(3) == 1000;
  }

  lemma StripCommasComma()
    ensures StripCommas(",") == []
  {
    assert ","[1..] == [];
  }

  lemma StripCommasJoin(g: string, p: string)
    requires AllDigits(p)
    ensures StripCommas(g + "," + p) == StripCommas(g) + p
  {
    StripCommasComma();
    StripCommasAppend(g, ",");
    StripCommasAppend(g + ",", p);
    StripCommasNoComma(p);
  }

  /** Removing the commas from the grouped digits gives back the plain
      decimal representation. */
  lemma {:induction false} GroupStripsToDecimal(n: nat)
    ensures StripCommas(Group(n)) == Decimal(n)
    decreases n
  {
    if n < 1000 {
      StripCommasNoComma(Decimal(n));
    } else {
      GroupUnfold(n);
      GroupStripsToDecimal(n / 1000);
      StripCommasJoin(Group(n / 1000), Pad(n % 1000, 3));
      DecimalShift(n / 1000, n % 1000, 3);
    }
  }

  // ---------------------------------------------------------------------------
  // Where the commas are.

  /** A comma at the positions 4, 8, 12, … counted from the right end and a
      digit everywhere else, with a length that is not a multiple of four (so
      the string never starts with a comma): every comma is followed by
      exactly three digits, and the leading group has one to three digits. */
  predicate ThousandsShaped(s: string) {
    && |s| % 4 != 0
    && forall i :: 0 <= i < |s| ==> if (|s| - i) % 4 == 0 then s[i] == ',' else IsDigit(s[i])
  }

  lemma ThousandsShapedShort(s: string)
    requires 1 <= |s| <= 3 && AllDigits(s)
    ensures ThousandsShaped(s)
  {
    forall i | 0 <= i < |s|
      ensures if (|s| - i) % 4 == 0 then s[i] == ',' else IsDigit(s[i])
    {
      assert 1 <= |s| - i <= 3;
    }
  }

  lemma ThousandsShapedAppend(g: string, p: string)
    requires ThousandsShaped(g) && |p| == 3 && AllDigits(p)
    ensures ThousandsShaped(g + "," + p)
  {
    var s := g + "," + p;
    forall i | 0 <= i < |s|
      ensures if (|s| - i) % 4 == 0 then s[i] == ',' else IsDigit(s[i])
    {
      if i < |g| {
        assert s[i] == g[i];
        assert |s| - i == (|g| - i) + 4;
      } else if i == |g| {
        assert |s| - i == 4;
      } else {
        assert s[i] == p[i - |g| - 1];
        assert 1 <= |s| - i <= 3;
      }
    }
  }

  /** The grouped digits have the thousands shape. */
  lemma {:induction false} GroupShape(n: nat)
    ensures ThousandsShaped(Group(n))
    decreases n
  {
    if n < 1000 {
      assert Pow10(3) == 1000;
      DecimalLength(n, 3);
      ThousandsShapedShort(Decimal(n));
    } else {
      GroupUnfold(n);
      GroupShape(n / 1000);
      ThousandsShapedAppend(Group(n / 1000), Pad(n % 1000, 3));
    }
  }

  // ---------------------------------------------------------------------------
  // The currency string.

  /** The currency string is a dollar sign followed by the grouped digits:
      removing the dollar sign and the commas gives the plain decimal
      representation, the rest has the thousands shape, and the reader
      recovers the amount. */
  lemma FormatUsdSound(n: nat)
    ensures var s := FormatUsd(n);
      && |s| >= 2 && s[0] == '$'
      && ThousandsShaped(s[1..])
      && StripCommas(s[1..]) == Decimal(n)
      && ParseUsd(s) == Some(n)
  {
    var s := FormatUsd(n);
    assert s[1..] == Group(n);
    GroupStripsToDecimal(n);
    GroupShape(n);
    DecimalRoundTrip(n);
  }

  /** Different amounts are rendered differently. */
  lemma FormatUsdInjective(m: nat, n: nat)
    requires FormatUsd(m) == FormatUsd(n)
    ensures m == n
  {
    FormatUsdSound(m);
    FormatUsdSound(n);
  }
}
