/** Decimal text of an unsigned number, as `operator<<` writes a `size_t`
    into a stream, and the reading back of such text. */
module Decimal {

  predicate IsDigit(ch: char)
  {
    '0' <= ch <= '9'
  }

  predicate AllDigits(s: string)
  {
    forall i :: 0 <= i < |s| ==> IsDigit(s[i])
  }

  function DigitChar(d: nat): (ch: char)
    requires d < 10
    ensures IsDigit(ch)
  {
    (48 + d) as char
  }

  function DigitValue(ch: char): (d: nat)
    requires IsDigit(ch)
    ensures d < 10
  {
    ch as int - 48
  }

  function Pow10(k: nat): (p: nat)
    ensures 1 <= p
  {
    if k == 0 then 1 else 10 * Pow10(k - 1)
  }

  /** The decimal text of `n`: a non-empty run of digits, "0" for zero. */
  function ToDecimal(n: nat): (s: string)
    ensures 0 < |s| && AllDigits(s)
    ensures n == 0 ==> s == "0"
    decreases n
  {
    if n < 10 then [DigitChar(n)] else ToDecimal(n / 10) + [DigitChar(n % 10)]
  }

  /** The value of a string of digits, most significant first. */
  function ParseDecimal(s: string): nat
    requires AllDigits(s)
    decreases |s|
  {
    if |s| == 0 then 0 else 10 * ParseDecimal(s[..|s| - 1]) + DigitValue(s[|s| - 1])
  }

  /** Reading back the text of `n` gives `n`. */
  lemma {:induction false} DecimalRoundTrip(n: nat)
    ensures ParseDecimal(ToDecimal(n)) == n
    decreases n
  {
    var s := ToDecimal(n);
    if n >= 10 {
      DecimalRoundTrip(n / 10);
      assert s[..|s| - 1] == ToDecimal(n / 10);
    }
  }

  /** The text is the shortest one: a positive `n` with a text of `len`
      digits lies between 10^(len-1) and 10^len. */
  lemma {:induction false} ToDecimalMagnitude(n: nat)
    requires 0 < n
    ensures Pow10(|ToDecimal(n)| - 1) <= n < Pow10(|ToDecimal(n)|)
    decreases n
  {
    if n >= 10 {
      var len := |ToDecimal(n / 10)|;
      ToDecimalMagnitude(n / 10);
      assert |ToDecimal(n)| == len + 1;
      assert Pow10(len) == 10 * Pow10(len - 1) by {
        assert 1 <= len;
      }
    }
  }

  lemma {:induction false} Pow10Monotone(a: nat, b: nat)
    requires a <= b
    ensures Pow10(a) <= Pow10(b)
    decreases b - a
  {
    if a < b {
      Pow10Monotone(a, b - 1);
    }
  }

  /** A larger number never has a shorter text. */
  lemma DecimalLengthMonotone(a: nat, b: nat)
    requires a <= b
    ensures |ToDecimal(a)| <= |ToDecimal(b)|
  {
    if 0 < a && |ToDecimal(b)| < |ToDecimal(a)| {
      ToDecimalMagnitude(a);
      ToDecimalMagnitude(b);
      Pow10Monotone(|ToDecimal(b)|, |ToDecimal(a)| - 1);
    }
  }
}
