/**
 Decimal rendering of occurrence numbers: `Integer.toString` on a
 non-negative int and Guava's `Strings.padStart`, which together make the
 zero-padded answer values "01", "02", ... of study-burst events.
 */
module Numerals {

  predicate IsDigit(c: char) {
    '0' <= c <= '9'
  }

  predicate AllDigits(s: string) {
    forall i :: 0 <= i < |s| ==> IsDigit(s[i])
  }

  function Digit(d: nat): (c: char)
    requires d < 10
    ensures IsDigit(c)
    ensures DigitValue(c) == d
  {
    (('0' as int) + d) as char
  }

  function DigitValue(c: char): nat
    requires IsDigit(c)
  {
    (c as int) - ('0' as int)
  }

  /** `Integer.toString(n)` for n >= 0: decimal digits, no leading zero. */
  function NatToString(n: nat): (r: string)
    ensures 1 <= |r|
    ensures AllDigits(r)
    ensures r[0] == '0' <==> n == 0
    ensures n < 10 <==> |r| == 1
    ensures 10 <= n < 100 ==> |r| == 2
  {
    if n < 10 then [Digit(n)] else NatToString(n / 10) + [Digit(n % 10)]
  }

  /** The value of a string of decimal digits (leading zeros allowed); the
      inverse of `NatToString`. */
  function ParseDecimal(s: string): nat
    requires AllDigits(s)
  {
    if |s| == 0 then 0
    else ParseDecimal(s[..|s| - 1]) * 10 + DigitValue(s[|s| - 1])
  }

  lemma {:induction false} ParseNatToString(n: nat)
    ensures ParseDecimal(NatToString(n)) == n
  {
    if n >= 10 {
      var s := NatToString(n);
      assert s[..|s| - 1] == NatToString(n / 10);
      ParseNatToString(n / 10);
    }
  }

  /** Leading zeros do not change the value of a digit string. */
  lemma {:induction false} ParseLeadingZero(s: string)
    requires AllDigits(s)
    ensures AllDigits("0" + s)
    ensures ParseDecimal("0" + s) == ParseDecimal(s)
  {
    if |s| > 0 {
      var t := "0" + s;
      assert t[..|t| - 1] == "0" + s[..|s| - 1];
      ParseLeadingZero(s[..|s| - 1]);
    }
  }

  function Repeat(c: char, n: nat): (r: string)
    ensures |r| == n
    ensures forall i :: 0 <= i < n ==> r[i] == c
  {
    if n == 0 then [] else [c] + Repeat(c, n - 1)
  }

  /** Guava `Strings.padStart`: prefix `padChar` until `s` is `minLength` long. */
  function PadStart(s: string, minLength: int, padChar: char): (r: string)
    ensures |r| == if |s| >= minLength then |s| else minLength
    ensures r[|r| - |s|..] == s
    ensures forall i :: 0 <= i < |r| - |s| ==> r[i] == padChar
  {
    if |s| >= minLength then s else Repeat(padChar, minLength - |s|) + s
  }

  /** The answer value of the k-th occurrence of a study burst. */
  function Pad2(k: nat): (r: string)
    ensures AllDigits(r)
    ensures 2 <= |r|
    ensures k < 100 ==> |r| == 2
    ensures k < 10 ==> r == ['0', Digit(k)]
  {
    PadStart(NatToString(k), 2, '0')
  }

  /** Reading a padded occurrence number back gives the number: padding
      loses nothing. */
  lemma Pad2RoundTrip(k: nat)
    ensures ParseDecimal(Pad2(k)) == k
  {
    var s := NatToString(k);
    ParseNatToString(k);
    if |s| < 2 {
      assert Pad2(k) == "0" + s;
      ParseLeadingZero(s);
    }
  }

  /** Distinct occurrences get distinct answer values. */
  lemma Pad2Injective(j: nat, k: nat)
    ensures Pad2(j) == Pad2(k) <==> j == k
  {
    Pad2RoundTrip(j);
    Pad2RoundTrip(k);
  }
}
