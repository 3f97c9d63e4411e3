/** Base-10 text for the engine's arbitrary-precision integers: the digit-string
    test that gates a deposit, the parse of such a string (BigInt of a digit
    string) and the rendering of a natural number (BigInt toString). */
module Decimal {

  predicate IsDigit(c: char) {
    '0' <= c <= '9'
  }

  predicate AllDigits(s: string) {
    forall i :: 0 <= i < |s| ==> IsDigit(s[i])
  }

  /** The deposit value test: one or more decimal digits and nothing else. */
  predicate IsDigitString(s: string) {
    |s| > 0 && AllDigits(s)
  }

  /** A digit string without redundant leading zeros, the form toString produces. */
  predicate IsCanonical(s: string) {
    IsDigitString(s) && (|s| == 1 || s[0] != '0')
  }

  function DigitValue(c: char): (d: nat)
    requires IsDigit(c)
    ensures d < 10
  {
    (c as int) - ('0' as int)
  }

  function DigitChar(d: nat): (c: char)
    requires d < 10
    ensures IsDigit(c) && DigitValue(c) == d
  {
    (('0' as int) + d) as char
  }

  function Pow10(n: nat): (p: nat)
    ensures p > 0
  {
    if n == 0 then 1 else 10 * Pow10(n - 1)
  }

  /** The value of a string of digits, leading zeros allowed; the empty string is 0. */
  function ParseDecimal(s: string): nat
    requires AllDigits(s)
  {
    if s == [] then 0
    else ParseDecimal(s[..|s| - 1]) * 10 + DigitValue(s[|s| - 1])
  }

  /** A string of n digits is worth less than 10^n, and a string of zeros is worth 0. */
  lemma {:induction false} ParseDecimalBounds(s: string)
    requires AllDigits(s)
    ensures ParseDecimal(s) < Pow10(|s|)
    ensures (forall i :: 0 <= i < |s| ==> s[i] == '0') ==> ParseDecimal(s) == 0
  {
    if s != [] {
      ParseDecimalBounds(s[..|s| - 1]);
    }
  }

  /** Appending a digit shifts the value one decimal place. */
  lemma ParseAppendDigit(p: string, c: char)
    requires AllDigits(p) && IsDigit(c)
    ensures AllDigits(p + [c]) && ParseDecimal(p + [c]) == ParseDecimal(p) * 10 + DigitValue(c)
  {
    assert (p + [c])[..|p|] == p;
  }

  /** The value of a concatenation: the first part shifted past the digits of the second. */
  lemma {:induction false} ParseSplit(p: string, q: string)
    requires AllDigits(p) && AllDigits(q)
    ensures AllDigits(p + q) && ParseDecimal(p + q) == ParseDecimal(p) * Pow10(|q|) + ParseDecimal(q)
    decreases |q|
  {
    if q == [] {
      assert p + q == p;
    } else {
      var q' := q[..|q| - 1];
      var c := q[|q| - 1];
      assert (p + q)[..|p + q| - 1] == p + q';
      assert q[..|q| - 1] == q';
      ParseSplit(p, q');
      ShiftArith(ParseDecimal(p), ParseDecimal(q'), Pow10(|q'|), DigitValue(c));
    }
  }

  lemma ShiftArith(x: nat, y: nat, pw: nat, d: nat)
    ensures (x * pw + y) * 10 + d == x * (10 * pw) + (y * 10 + d)
  {
  }

  /** Leading zeros are worth nothing: BigInt("00100000") is BigInt("100000"). */
  lemma ParseLeadingZeros(z: string, s: string)
    requires forall i :: 0 <= i < |z| ==> z[i] == '0'
    requires AllDigits(s)
    ensures AllDigits(z + s) && ParseDecimal(z + s) == ParseDecimal(s)
  {
    ParseDecimalBounds(z);
    ParseSplit(z, s);
  }

  /** A digit string with a non-zero digit anywhere has a positive value. */
  lemma {:induction false} ParsePositive(s: string, i: nat)
    requires AllDigits(s) && i < |s| && s[i] != '0'
    ensures ParseDecimal(s) > 0
  {
    if i < |s| - 1 {
      var p := s[..|s| - 1];
      assert p[i] == s[i];
      ParsePositive(p, i);
    }
  }

  lemma {:induction false} Pow10Monotone(i: nat, j: nat)
    requires i <= j
    ensures Pow10(i) <= Pow10(j)
  {
    if i < j {
      Pow10Monotone(i, j - 1);
    }
  }

  /** Decimal rendering of a natural number: canonical, so "0" for zero and no leading zero otherwise. */
  function FormatDecimal(n: nat): (s: string)
    ensures IsCanonical(s)
    ensures |s| == 1 <==> n < 10
  {
    if n < 10 then [DigitChar(n)]
    else FormatDecimal(n / 10) + [DigitChar(n % 10)]
  }

  /** Parsing what was rendered gives the number back. */
  lemma {:induction false} ParseFormat(n: nat)
    ensures ParseDecimal(FormatDecimal(n)) == n
  {
    if n >= 10 {
      var s := FormatDecimal(n);
      assert s[..|s| - 1] == FormatDecimal(n / 10);
      ParseFormat(n / 10);
    }
  }

  lemma {:induction false} ParseCanonicalPositive(s: string)
    requires IsCanonical(s) && s[0] != '0'
    ensures ParseDecimal(s) > 0
  {
    if |s| > 1 {
      var p := s[..|s| - 1];
      assert p[0] == s[0];
      ParseCanonicalPositive(p);
    }
  }

  /** Rendering the value of a canonical digit string gives the string back. */
  lemma {:induction false} FormatParse(s: string)
    requires IsCanonical(s)
    ensures FormatDecimal(ParseDecimal(s)) == s
  {
    var p := s[..|s| - 1];
    var c := s[|s| - 1];
    if |s| == 1 {
      assert ParseDecimal(s) == DigitValue(c);
      assert [DigitChar(DigitValue(c))] == [c];
    } else {
      assert p[0] == s[0];
      ParseCanonicalPositive(p);
      FormatParse(p);
      var n := ParseDecimal(s);
      assert n == ParseDecimal(p) * 10 + DigitValue(c);
      assert n / 10 == ParseDecimal(p) && n % 10 == DigitValue(c);
      assert DigitChar(DigitValue(c)) == c;
      assert s == p + [c];
    }
  }

  /** A sign or a fraction makes a value text fail the digit-string test. */
  lemma SignedOrFractionalRejected()
    ensures !IsDigitString("-100000")
    ensures !IsDigitString("1.5")
    ensures !IsDigitString("")
    ensures IsDigitString("0") && ParseDecimal("0") == 0
  {
    assert !IsDigit("-100000"[0]);
    assert !IsDigit("1.5"[1]);
  }
}
