/**
 * Decimal digits and the two number renderings the planner's time helpers use:
 * the plain decimal text of a natural number, and the two-digit text,
 * padded with a leading zero, of a number below one hundred.
 */
module Digits {
  import opened Wrappers

  predicate IsDigit(c: char) {
    '0' <= c <= '9'
  }

  predicate AllDigits(s: string) {
    forall i :: 0 <= i < |s| ==> IsDigit(s[i])
  }

  function DigitValue(c: char): (d: nat)
    requires IsDigit(c)
    ensures d < 10
  {
    c as int - '0' as int
  }

  function DigitChar(d: nat): (c: char)
    requires d < 10
    ensures IsDigit(c) && DigitValue(c) == d
  {
    ('0' as int + d) as char
  }

  lemma DigitCharOfValue(c: char)
    requires IsDigit(c)
    ensures DigitChar(DigitValue(c)) == c
  {
  }

  /** The two-digit text of `n`, with a leading zero below ten. */
  function Pad2(n: nat): (s: string)
    requires n < 100
    ensures |s| == 2 && AllDigits(s)
    ensures DigitValue(s[0]) * 10 + DigitValue(s[1]) == n
  {
    [DigitChar(n / 10), DigitChar(n % 10)]
  }

  /** The decimal text of `n`: shortest form, no leading zero. */
  function DecimalText(n: nat): (s: string)
    ensures |s| >= 1 && AllDigits(s)
    ensures |s| > 1 ==> s[0] != '0'
    decreases n
  {
    if n < 10 then [DigitChar(n)] else DecimalText(n / 10) + [DigitChar(n % 10)]
  }

  /** The value of a string of decimal digits, read most significant first. */
  function DigitsValue(s: string): (v: nat)
    requires AllDigits(s)
    decreases |s|
  {
    if |s| == 0 then 0 else DigitsValue(s[..|s| - 1]) * 10 + DigitValue(s[|s| - 1])
  }

  /** Reads a non-empty run of decimal digits; `None` for anything else. */
  function ParseDecimal(s: string): (r: Option<nat>)
    ensures r.Some? <==> |s| > 0 && AllDigits(s)
  {
    if |s| > 0 && AllDigits(s) then Some(DigitsValue(s)) else None
  }

  lemma {:induction false} DecimalTextRoundTrip(n: nat)
    ensures ParseDecimal(DecimalText(n)) == Some(n)
    decreases n
  {
    var s := DecimalText(n);
    if n < 10 {
      assert s[..|s| - 1] == [];
    } else {
      DecimalTextRoundTrip(n / 10);
      assert s[..|s| - 1] == DecimalText(n / 10);
      assert DigitsValue(s) == DigitsValue(DecimalText(n / 10)) * 10 + n % 10;
    }
  }

  /** Canonical decimal text: non-empty digits with no leading zero unless it is "0" itself. */
  predicate Canonical(s: string) {
    |s| >= 1 && AllDigits(s) && (|s| > 1 ==> s[0] != '0')
  }

  lemma {:induction false} LeadingDigitPositive(s: string)
    requires |s| >= 1 && AllDigits(s) && s[0] != '0'
    ensures DigitsValue(s) >= 1
    decreases |s|
  {
    if |s| > 1 {
      LeadingDigitPositive(s[..|s| - 1]);
    }
  }

  /** A canonical text is the decimal text of its value: the canonical form of a number is unique. */
  lemma {:induction false} CanonicalIsDecimalText(s: string)
    requires Canonical(s)
    ensures s == DecimalText(DigitsValue(s))
    decreases |s|
  {
    var v := DigitsValue(s);
    var last := s[|s| - 1];
    DigitCharOfValue(last);
    if |s| == 1 {
      assert s[..0] == [];
      assert v == DigitValue(s[0]);
    } else {
      var p := s[..|s| - 1];
      assert p[0] == s[0];
      LeadingDigitPositive(p);
      CanonicalIsDecimalText(p);
      assert v / 10 == DigitsValue(p) && v % 10 == DigitValue(last);
      assert s == p + [last];
    }
  }

  /** Two digits are the padded text of their value. */
  lemma TwoDigitsArePad2(s: string)
    requires |s| == 2 && AllDigits(s)
    ensures DigitsValue(s) < 100 && s == Pad2(DigitsValue(s))
  {
    assert s[..1][..0] == [];
    assert DigitsValue(s[..1]) == DigitValue(s[0]);
    assert s[..|s| - 1] == s[..1];
    DigitCharOfValue(s[0]);
    DigitCharOfValue(s[1]);
  }

  lemma Pad2RoundTrip(n: nat)
    requires n < 100
    ensures ParseDecimal(Pad2(n)) == Some(n)
  {
    var s := Pad2(n);
    assert s[..1][..0] == [];
    assert DigitsValue(s[..1]) == DigitValue(s[0]);
    assert s[..|s| - 1] == s[..1];
  }
}
