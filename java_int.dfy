/**
 * Java `int` arithmetic and `Integer.toString`, which the circuit code relies on:
 * 32-bit two's-complement wrap-around for `+`, and the decimal text that string
 * concatenation (`"I" + pin`) produces for an `int`.
 */
module JavaInt {

  const TwoTo32: int := 0x1_0000_0000
  const MinValue: int := -0x8000_0000
  const MaxValue: int := 0x7fff_ffff

  /** A Java `int`. */
  type Int32 = x: int | MinValue <= x <= MaxValue

  /** The Java `int` whose low 32 bits agree with those of `x`. */
  function Wrap(x: int): (r: Int32)
    ensures (r - x) % TwoTo32 == 0
    ensures MinValue <= x <= MaxValue ==> r == x
  {
    (x - MinValue) % TwoTo32 + MinValue
  }

  /** Only one Java `int` is congruent to `x` modulo 2^32, so `Wrap` is the wrap-around. */
  lemma WrapUnique(x: int, r: Int32)
    requires (r - x) % TwoTo32 == 0
    ensures r == Wrap(x)
  {
    var w := Wrap(x);
    assert (r - w) % TwoTo32 == 0 by {
      assert r - w == (r - x) - (w - x);
    }
    assert -TwoTo32 < r - w < TwoTo32;
  }

  /** Java's `a + b` on two `int`s. */
  function Add(a: Int32, b: Int32): (r: Int32)
    ensures (r - (a as int + b as int)) % TwoTo32 == 0
  {
    Wrap(a as int + b as int)
  }

  predicate IsDigit(c: char) {
    '0' <= c <= '9'
  }

  predicate AllDigits(s: string) {
    forall i :: 0 <= i < |s| ==> IsDigit(s[i])
  }

  function DigitChar(d: nat): (c: char)
    requires d < 10
    ensures IsDigit(c) && c as int - '0' as int == d
  {
    ('0' as int + d) as char
  }

  /** The decimal digits of `n`, most significant first, with no leading zero. */
  function NatToString(n: nat): (s: string)
    ensures 1 <= |s| && AllDigits(s)
    ensures s == "0" <==> n == 0
    ensures s[0] == '0' ==> s == "0"
    decreases n
  {
    if n < 10 then [DigitChar(n)] else NatToString(n / 10) + [DigitChar(n % 10)]
  }

  /** The number a string of decimal digits denotes. */
  function DigitsValue(s: string): nat
    requires AllDigits(s)
  {
    if |s| == 0 then 0
    else DigitsValue(s[..|s| - 1]) * 10 + (s[|s| - 1] as int - '0' as int)
  }

  lemma {:induction false} DigitsValueOfNatToString(n: nat)
    ensures DigitsValue(NatToString(n)) == n
    decreases n
  {
    if n >= 10 {
      var s := NatToString(n);
      assert s[..|s| - 1] == NatToString(n / 10);
      DigitsValueOfNatToString(n / 10);
    }
  }

  /** A canonical decimal: digits only, and no leading zero unless the text is `"0"`. */
  predicate IsNatText(s: string) {
    1 <= |s| && AllDigits(s) && (s[0] == '0' ==> s == "0")
  }

  /** A text of digits with a non-zero first digit denotes a positive number. */
  lemma {:induction false} DigitsValuePositive(s: string)
    requires 1 <= |s| && AllDigits(s) && s[0] != '0'
    ensures DigitsValue(s) >= 1
    decreases |s|
  {
    if |s| > 1 {
      var t := s[..|s| - 1];
      assert t[0] == s[0];
      DigitsValuePositive(t);
    }
  }

  /** Every canonical decimal is the text of the number it denotes. */
  lemma {:induction false} NatToStringOfDigitsValue(s: string)
    requires IsNatText(s)
    ensures NatToString(DigitsValue(s)) == s
    decreases |s|
  {
    if |s| > 1 {
      var t := s[..|s| - 1];
      assert t[0] == s[0] && s[0] != '0';
      assert IsNatText(t);
      DigitsValuePositive(t);
      NatToStringOfDigitsValue(t);
      var n := DigitsValue(s);
      var d := s[|s| - 1] as int - '0' as int;
      assert n / 10 == DigitsValue(t) && n % 10 == d;
      assert s == t + [s[|s| - 1]];
    }
  }

  /** `Integer.toString(n)`: a minus sign exactly for negative `n`, then the canonical digits of `|n|`. */
  function IntToString(n: int): (s: string)
    ensures 1 <= |s|
    ensures s[0] == '-' <==> n < 0
    ensures n < 0 ==> IsNatText(s[1..]) && s[1] != '0'
    ensures 0 <= n ==> IsNatText(s)
  {
    if n < 0 then "-" + NatToString(-n) else NatToString(n)
  }

  /** The text `Integer.toString` yields: a canonical decimal, optionally after a minus sign, never `-0`. */
  predicate IsIntText(s: string) {
    if 0 < |s| && s[0] == '-' then IsNatText(s[1..]) && s[1] != '0' else IsNatText(s)
  }

  /** The number an `IsIntText` text denotes (the inverse of `IntToString`). */
  function ParseInt(s: string): int
    requires IsIntText(s)
  {
    if s[0] == '-' then -(DigitsValue(s[1..]) as int) else DigitsValue(s)
  }

  lemma IntToStringRoundTrip(n: int)
    ensures IsIntText(IntToString(n))
    ensures ParseInt(IntToString(n)) == n
  {
    if n < 0 {
      assert IntToString(n)[1..] == NatToString(-n);
      DigitsValueOfNatToString(-n);
    } else {
      DigitsValueOfNatToString(n);
    }
  }

  /** Distinct numbers have distinct decimal texts. */
  lemma IntToStringInjective(m: int, n: int)
    requires IntToString(m) == IntToString(n)
    ensures m == n
  {
    IntToStringRoundTrip(m);
    IntToStringRoundTrip(n);
  }

  /** Every `IsIntText` text is what `Integer.toString` writes for its value. */
  lemma ParseIntRoundTrip(s: string)
    requires IsIntText(s)
    ensures IntToString(ParseInt(s)) == s
  {
    if s[0] == '-' {
      NatToStringOfDigitsValue(s[1..]);
      DigitsValuePositive(s[1..]);
      assert s == "-" + s[1..];
    } else {
      NatToStringOfDigitsValue(s);
    }
  }
}
