/** `String::toInt`, which returns `atol` of the string: skip leading white
    space, take an optional sign, then the longest run of decimal digits;
    no digits give 0 (section 7.22.1.2 and 7.22.1.4 of ISO C11). The value is
    the mathematical one: the model does not bound it to `long`. */
module Atol {
  import opened ArduinoString

  predicate IsDigit(c: char) {
    '0' <= c <= '9'
  }

  predicate AllDigits(s: string) {
    forall i :: 0 <= i < |s| ==> IsDigit(s[i])
  }

  function DigitValue(c: char): (d: nat)
    requires IsDigit(c)
    ensures d <= 9
  {
    c as int - '0' as int
  }

  function DigitChar(d: nat): (c: char)
    requires d <= 9
    ensures IsDigit(c) && DigitValue(c) == d
  {
    ('0' as int + d) as char
  }

  /** The longest prefix made of decimal digits. */
  function LeadingDigits(s: string): (r: string)
    ensures |r| <= |s| && r == s[..|r|]
    ensures AllDigits(r)
    ensures |r| < |s| ==> !IsDigit(s[|r|])
  {
    if |s| > 0 && IsDigit(s[0]) then [s[0]] + LeadingDigits(s[1..]) else []
  }

  /** The value of a decimal numeral, most significant digit first. */
  function DecimalValue(d: string): nat
    requires AllDigits(d)
  {
    if d == [] then 0 else 10 * DecimalValue(d[..|d| - 1]) + DigitValue(d[|d| - 1])
  }

  /** The number at the front of `t`: an optional '+' or '-', then digits. */
  function SignedValue(t: string): int {
    var signed := |t| > 0 && (t[0] == '-' || t[0] == '+');
    var magnitude: int := DecimalValue(LeadingDigits(if signed then t[1..] else t));
    if signed && t[0] == '-' then -magnitude else magnitude
  }

  /** `atol`: white space, then the signed number. */
  function AtoL(s: string): int {
    SignedValue(s[SkipSpace(s, 0)..])
  }

  /** The shortest decimal numeral of a natural number. */
  function ShowNat(n: nat): (r: string)
    ensures |r| >= 1 && AllDigits(r)
    decreases n
  {
    if n < 10 then [DigitChar(n)] else ShowNat(n / 10) + [DigitChar(n % 10)]
  }

  /** The decimal numeral of an integer, with '-' for negative numbers. */
  function ShowInt(n: int): (r: string)
    ensures |r| >= 1 && !IsSpace(r[0]) && !IsSpace(r[|r| - 1])
    ensures IsDigit(r[|r| - 1])
  {
    if n < 0 then "-" + ShowNat(-n) else ShowNat(n)
  }

  lemma {:induction false} DecimalValueOfShowNat(n: nat)
    ensures DecimalValue(ShowNat(n)) == n
    decreases n
  {
    if n >= 10 {
      var s := ShowNat(n);
      assert s[..|s| - 1] == ShowNat(n / 10);
      DecimalValueOfShowNat(n / 10);
    }
  }

  /** The digit scan stops exactly at the end of a numeral followed by a non-digit. */
  lemma {:induction false} LeadingDigitsOfNumeral(d: string, tail: string)
    requires AllDigits(d)
    requires tail == [] || !IsDigit(tail[0])
    ensures LeadingDigits(d + tail) == d
    decreases |d|
  {
    if d != [] {
      assert (d + tail)[1..] == d[1..] + tail;
      LeadingDigitsOfNumeral(d[1..], tail);
    }
  }

  lemma NumeralValue(n: nat, tail: string)
    requires tail == [] || !IsDigit(tail[0])
    ensures DecimalValue(LeadingDigits(ShowNat(n) + tail)) == n
  {
    LeadingDigitsOfNumeral(ShowNat(n), tail);
    DecimalValueOfShowNat(n);
  }

  lemma SignedValueNegative(n: int, tail: string)
    requires n < 0
    requires tail == [] || !IsDigit(tail[0])
    ensures SignedValue(ShowInt(n) + tail) == n
  {
    var u := ShowNat(-n) + tail;
    assert ShowInt(n) + tail == "-" + u;
    SignedValueMinus(u);
    NumeralValue(-n, tail);
  }

  lemma SignedValueMinus(u: string)
    ensures SignedValue("-" + u) == 0 - DecimalValue(LeadingDigits(u)) as int
  {
    var t := "-" + u;
    assert t[0] == '-' && t[1..] == u;
  }

  lemma SignedValueNonNegative(n: int, tail: string)
    requires n >= 0
    requires tail == [] || !IsDigit(tail[0])
    ensures SignedValue(ShowInt(n) + tail) == n
  {
    var t := ShowInt(n) + tail;
    assert t == ShowNat(n) + tail;
    assert IsDigit(t[0]);
    NumeralValue(n, tail);
  }

  lemma SignedValueShowInt(n: int, tail: string)
    requires tail == [] || !IsDigit(tail[0])
    ensures SignedValue(ShowInt(n) + tail) == n
  {
    if n < 0 {
      SignedValueNegative(n, tail);
    } else {
      SignedValueNonNegative(n, tail);
    }
  }

  /** `toInt` reads back the value of a decimal numeral, whatever non-digit
      text follows it: the parse inverts `ShowInt`. */
  lemma AtoLShowInt(n: int, tail: string)
    requires tail == [] || !IsDigit(tail[0])
    ensures AtoL(ShowInt(n) + tail) == n
  {
    var s := ShowInt(n) + tail;
    assert s[0] == ShowInt(n)[0];
    assert SkipSpace(s, 0) == 0;
    assert s[0..] == s;
    SignedValueShowInt(n, tail);
  }

  /** White space before the number does not change its value. */
  lemma AtoLSkipsSpace(a: string, s: string)
    requires AllSpace(a)
    ensures AtoL(a + s) == AtoL(s)
  {
    var k := SkipSpace(s, 0);
    var u := a + s;
    forall j | 0 <= j < |a| + k
      ensures IsSpace(u[j])
    {
      if j >= |a| {
        assert u[j] == s[j - |a|];
      }
    }
    if |a| + k < |u| {
      assert u[|a| + k] == s[k];
    }
    SkipSpaceStops(u, 0, |a| + k);
    assert u[|a| + k..] == s[k..];
  }

  /** Text that, after white space and an optional sign, does not start with a digit. */
  predicate NonNumeric(s: string) {
    var t := s[SkipSpace(s, 0)..];
    var u := if |t| > 0 && (t[0] == '-' || t[0] == '+') then t[1..] else t;
    u == [] || !IsDigit(u[0])
  }

  /** Non-numeric text reads as 0. */
  lemma AtoLNonNumeric(s: string)
    requires NonNumeric(s)
    ensures AtoL(s) == 0
  {
  }
}
