/**
 Decimal numerals of integers, as JavaScript writes them (`toFixed(0)` of a
 number below 1e21 writes an optional minus sign and the decimal digits of an
 integer) and reads them back (unary `+` on a string).  `dateToUnix` in
 index.js goes through such a string, so its result is the integer it started
 from only because the two directions below are inverse.
 */
module Decimal {
  import opened JsValues

  predicate IsDigit(c: char)
  {
    '0' <= c <= '9'
  }

  predicate AllDigits(s: string)
  {
    forall i :: 0 <= i < |s| ==> IsDigit(s[i])
  }

  /** A numeral as Number::toString writes a non-negative integer: at least
      one digit, and no leading zero unless the numeral is "0". */
  predicate Canonical(s: string)
  {
    |s| >= 1 && AllDigits(s) && (s[0] == '0' ==> |s| == 1)
  }

  function DigitChar(d: nat): (c: char)
    requires d < 10
    ensures IsDigit(c)
  {
    (48 + d) as char
  }

  function DigitValue(c: char): (d: nat)
    requires IsDigit(c)
    ensures d < 10 && DigitChar(d) == c
  {
    c as int - 48
  }

  /** The decimal numeral of `n`. */
  function DecimalDigits(n: nat): (s: string)
    ensures Canonical(s)
    ensures s[0] == '0' <==> n == 0
  {
    if n < 10 then [DigitChar(n)] else DecimalDigits(n / 10) + [DigitChar(n % 10)]
  }

  /** The value of a string of decimal digits, most significant first. */
  function DigitsValue(s: string): (v: nat)
    requires AllDigits(s)
  {
    if s == [] then 0 else DigitsValue(s[..|s| - 1]) * 10 + DigitValue(s[|s| - 1])
  }

  /** Reading back a written numeral gives the number written. */
  lemma {:induction false} DigitsValueOfDecimalDigits(n: nat)
    ensures DigitsValue(DecimalDigits(n)) == n
  {
    if n >= 10 {
      var s := DecimalDigits(n);
      assert s[..|s| - 1] == DecimalDigits(n / 10);
      DigitsValueOfDecimalDigits(n / 10);
    }
  }

  /** A numeral without a leading zero stands for a positive number. */
  lemma {:induction false} LeadingNonZeroIsPositive(s: string)
    requires |s| >= 1 && AllDigits(s) && s[0] != '0'
    ensures DigitsValue(s) >= 1
  {
    if |s| > 1 {
      var p := s[..|s| - 1];
      assert p[0] == s[0];
      LeadingNonZeroIsPositive(p);
    }
  }

  /** Writing the value of a canonical numeral gives that numeral back, so
      every canonical numeral is written for exactly one number. */
  lemma {:induction false} DecimalDigitsOfDigitsValue(s: string)
    requires Canonical(s)
    ensures DecimalDigits(DigitsValue(s)) == s
  {
    if |s| > 1 {
      var p := s[..|s| - 1];
      assert p[0] == s[0];
      LeadingNonZeroIsPositive(p);
      DecimalDigitsOfDigitsValue(p);
      var v := DigitsValue(s);
      assert v / 10 == DigitsValue(p) && v % 10 == DigitValue(s[|s| - 1]);
      assert s == p + [s[|s| - 1]];
    }
  }

  /** JavaScript unary `+` on a string (StringToNumber), for the literals
      `toFixed(0)` can write: the empty string reads as 0, an optional minus
      sign followed by decimal digits as that integer (so "-0" is zero), and
      anything else, "NaN" among it, as NaN. */
  function StringToNumber(s: string): (n: Number)
    ensures n.Whole? ==> s == "" || AllDigits(s) || (s[0] == '-' && AllDigits(s[1..]))
    ensures (n.Whole? && AllDigits(s)) ==> n.v >= 0
    ensures s == "NaN" ==> n == NaN
  {
    if s == "" then Whole(0)
    else if s[0] == '-' && |s| > 1 && AllDigits(s[1..]) then Whole(-(DigitsValue(s[1..]) as int))
    else if AllDigits(s) then Whole(DigitsValue(s))
    else NaN
  }

  /** Unary `+` reads a written numeral, with or without a minus sign, as the
      integer it was written for. */
  lemma {:induction false} StringToNumberOfNumeral(k: nat)
    ensures StringToNumber(DecimalDigits(k)) == Whole(k)
    ensures StringToNumber("-" + DecimalDigits(k)) == Whole(-(k as int))
  {
    var d := DecimalDigits(k);
    DigitsValueOfDecimalDigits(k);
    var s := "-" + d;
    assert s[1..] == d;
  }
}
