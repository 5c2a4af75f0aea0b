/** Decimal text of integers, as Rust's `Display` writes an `i64`: an
    optional '-' followed by the digits of the magnitude, without leading
    zeros and without a '+' sign. */
module Decimal {

  import opened Wrappers

  predicate IsDigit(c: char) {
    '0' <= c <= '9'
  }

  predicate AllDigits(s: string) {
    forall i :: 0 <= i < |s| ==> IsDigit(s[i])
  }

  function DigitChar(d: nat): (c: char)
    requires d < 10
    ensures IsDigit(c)
  {
    ('0' as int + d) as char
  }

  function DigitValue(c: char): (d: nat)
    requires IsDigit(c)
    ensures d < 10 && DigitChar(d) == c
  {
    c as int - '0' as int
  }

  /** The digits of `n`, most significant first. */
  function NatText(n: nat): (s: string)
    ensures |s| >= 1 && AllDigits(s)
    ensures |s| > 1 ==> s[0] != '0'
  {
    if n < 10 then [DigitChar(n)] else NatText(n / 10) + [DigitChar(n % 10)]
  }

  /** The value of a string of decimal digits, read most significant first. */
  function DigitsValue(s: string): (n: nat)
    requires AllDigits(s)
  {
    if s == [] then 0 else DigitsValue(s[..|s| - 1]) * 10 + DigitValue(s[|s| - 1])
  }

  /** `format!("{n}")` for an integer. */
  function IntText(n: int): (s: string)
    ensures |s| >= 1
    ensures forall i :: 0 <= i < |s| ==> IsDigit(s[i]) || (i == 0 && s[i] == '-')
  {
    if n < 0 then "-" + NatText(-n) else NatText(n)
  }

  /** Reads back what `IntText` writes; `None` for any other text. */
  function ParseInt(s: string): (r: Option<int>) {
    if |s| >= 2 && s[0] == '-' && AllDigits(s[1..]) then Some(-(DigitsValue(s[1..]) as int))
    else if |s| >= 1 && AllDigits(s) then Some(DigitsValue(s))
    else None
  }

  /** Reading the digits of `n` back gives `n`. */
  lemma {:induction false} NatTextValue(n: nat)
    ensures DigitsValue(NatText(n)) == n
    decreases n
  {
    if n >= 10 {
      var s := NatText(n);
      NatTextValue(n / 10);
      assert s[..|s| - 1] == NatText(n / 10);
    }
  }

  /** The text of every integer reads back as that integer. */
  lemma IntTextRoundTrip(n: int)
    ensures ParseInt(IntText(n)) == Some(n)
  {
    if n < 0 {
      assert IntText(n)[1..] == NatText(-n);
      NatTextValue(-n);
    } else {
      NatTextValue(n);
    }
  }

  /** Two integers with the same text are equal: the integer rendering loses nothing. */
  lemma IntTextInjective(m: int, n: int)
    ensures IntText(m) == IntText(n) ==> m == n
  {
    IntTextRoundTrip(m);
    IntTextRoundTrip(n);
  }
}
