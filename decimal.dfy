/**
 * Decimal rendering of integers, as Python's `str(int)` produces it, and a
 * reference parser that inverts it. The client uses the rendering to put the
 * response code into its error text.
 */
module Decimal {
  import opened Wrappers

  predicate IsDigit(c: char) {
    '0' <= c <= '9'
  }

  predicate IsDigits(s: string) {
    forall i :: 0 <= i < |s| ==> IsDigit(s[i])
  }

  /** A numeral as `str` writes a natural number: digits, with no leading zero unless it is "0". */
  predicate IsNumeral(s: string) {
    |s| > 0 && IsDigits(s) && (s[0] == '0' ==> |s| == 1)
  }

  /** True when `c` does not occur in `s`. */
  predicate Avoids(s: string, c: char) {
    forall i :: 0 <= i < |s| ==> s[i] != c
  }

  function DigitChar(d: nat): (c: char)
    requires d < 10
    ensures IsDigit(c)
  {
    (48 + d) as char
  }

  function DigitValue(c: char): (d: nat)
    requires IsDigit(c)
    ensures d < 10 && DigitChar(d) == c
  {
    c as int - 48
  }

  /** The shortest decimal numeral of `n`: digits only, no leading zero. */
  function NatToDecimal(n: nat): (s: string)
    ensures IsNumeral(s)
    ensures s[0] == '0' ==> n == 0
  {
    if n < 10 then [DigitChar(n)] else NatToDecimal(n / 10) + [DigitChar(n % 10)]
  }

  /** Python's `str(n)` for an int: a minus sign before the magnitude when negative. */
  function IntToDecimal(n: int): (s: string)
    ensures |s| > 0
    ensures s[0] == '-' <==> n < 0
    ensures var mag := if n < 0 then s[1..] else s; IsNumeral(mag) && (mag[0] == '0' ==> n == 0)
    ensures Avoids(s, ',')
  {
    if n < 0 then "-" + NatToDecimal(-n) else NatToDecimal(n)
  }

  /** The value of a numeral read most significant digit first. */
  function DecimalValue(s: string): nat
    requires IsDigits(s)
  {
    if |s| == 0 then 0 else 10 * DecimalValue(s[..|s| - 1]) + DigitValue(s[|s| - 1])
  }

  /**
   * Reads a numeral in the form `str` writes, with a minus sign before a
   * non-zero magnitude; anything else (a leading zero, "-0", a stray
   * character) is None.
   */
  function ParseInt(s: string): Option<int> {
    if |s| > 1 && s[0] == '-' && IsNumeral(s[1..]) && s[1] != '0' then Some(-(DecimalValue(s[1..]) as int))
    else if IsNumeral(s) then Some(DecimalValue(s))
    else None
  }

  lemma {:induction false} NatToDecimalValue(n: nat)
    ensures DecimalValue(NatToDecimal(n)) == n
  {
    if n >= 10 {
      var s, c := NatToDecimal(n / 10), DigitChar(n % 10);
      NatToDecimalValue(n / 10);
      assert (s + [c])[..|s + [c]| - 1] == s;
    }
  }

  /** Rendering then reading gives the integer back. */
  lemma IntToDecimalRoundTrip(n: int)
    ensures ParseInt(IntToDecimal(n)) == Some(n)
  {
    if n < 0 {
      var s := NatToDecimal(-n);
      assert ("-" + s)[1..] == s;
      NatToDecimalValue(-n);
    } else {
      NatToDecimalValue(n);
    }
  }

  /** Distinct integers have distinct renderings. */
  lemma IntToDecimalInjective(m: int, n: int)
    ensures IntToDecimal(m) == IntToDecimal(n) <==> m == n
  {
    IntToDecimalRoundTrip(m);
    IntToDecimalRoundTrip(n);
  }

  /** A numeral that does not start with "0" stands for a positive number. */
  lemma {:induction false} DecimalValuePositive(s: string)
    requires |s| > 0 && IsDigits(s) && s[0] != '0'
    ensures DecimalValue(s) > 0
  {
    if |s| > 1 {
      DecimalValuePositive(s[..|s| - 1]);
    } else {
      assert DigitChar(DigitValue(s[0])) == s[0];
    }
  }

  /** Every numeral is the rendering of the number it stands for. */
  lemma {:induction false} NumeralValueRoundTrip(s: string)
    requires IsNumeral(s)
    ensures NatToDecimal(DecimalValue(s)) == s
  {
    var v := DecimalValue(s);
    if |s| > 1 {
      var front := s[..|s| - 1];
      DecimalValuePositive(front);
      NumeralValueRoundTrip(front);
      assert v / 10 == DecimalValue(front) && v % 10 == DigitValue(s[|s| - 1]);
      assert s == front + [s[|s| - 1]];
    }
  }

  /** Whatever ParseInt accepts is exactly the rendering of the integer it reads. */
  lemma ParseIntSound(s: string, n: int)
    requires ParseInt(s) == Some(n)
    ensures IntToDecimal(n) == s
  {
    if |s| > 1 && s[0] == '-' && IsNumeral(s[1..]) && s[1] != '0' {
      NumeralValueRoundTrip(s[1..]);
      DecimalValuePositive(s[1..]);
      assert s == "-" + s[1..];
    } else {
      NumeralValueRoundTrip(s);
    }
  }

  /** Spellings that `str` never produces are not read as numbers. */
  lemma ParseIntRejectsNonCanonical()
    ensures ParseInt("0400") == None
    ensures ParseInt("-0") == None
    ensures ParseInt("") == None
  {
    assert !IsNumeral("0400");
  }
}
