/** Decimal digits: the digit conversion used by the number parser and the
    textual form of integers used by the printer. */
module Decimal {

  predicate IsDigit(c: char) {
    '0' <= c <= '9'
  }

  predicate AllDigits(s: string) {
    forall i :: 0 <= i < |s| ==> IsDigit(s[i])
  }

  predicate StartsWithDigit(s: string) {
    |s| > 0 && IsDigit(s[0])
  }

  /** `digitToInt`: the code of `c` minus the code of '0'. */
  function DigitToInt(c: char): int {
    c as int - '0' as int
  }

  /** The digit character whose value is `d`. */
  function DigitChar(d: nat): (c: char)
    requires d < 10
    ensures IsDigit(c) && DigitToInt(c) == d
  {
    ('0' as int + d) as char
  }

  lemma DigitCharOfDigit(c: char)
    requires IsDigit(c)
    ensures DigitToInt(c) < 10 && DigitChar(DigitToInt(c)) == c
  {
  }

  /** The value of a digit string read most significant digit first. */
  function DecimalValue(ds: string): (v: int)
    ensures AllDigits(ds) ==> v >= 0
    ensures AllDigits(ds) && |ds| > 0 && ds[0] != '0' ==> v >= 1
    decreases |ds|
  {
    if ds == [] then 0
    else
      var init := ds[..|ds| - 1];
      assert AllDigits(ds) ==> AllDigits(init);
      assert |init| > 0 ==> init[0] == ds[0];
      10 * DecimalValue(init) + DigitToInt(ds[|ds| - 1])
  }

  /** The decimal text of a natural number, without leading zeros. */
  function NatToString(n: nat): (r: string)
    ensures |r| >= 1 && AllDigits(r)
    ensures n > 0 <==> r[0] != '0'
    ensures n == 0 ==> r == "0"
    decreases n
  {
    if n < 10 then [DigitChar(n)] else NatToString(n / 10) + [DigitChar(n % 10)]
  }

  /** Kotlin's `Int.toString`: a minus sign before the digits of a negative number. */
  function IntToString(i: int): string {
    if i < 0 then "-" + NatToString(-i) else NatToString(i)
  }

  /** Reading back the decimal text of `n` gives `n`. */
  lemma {:induction false} DecimalValueOfNatToString(n: nat)
    ensures DecimalValue(NatToString(n)) == n
  {
    if n >= 10 {
      var r := NatToString(n);
      assert r[..|r| - 1] == NatToString(n / 10);
      DecimalValueOfNatToString(n / 10);
    }
  }

  /** Conversely, a digit string without a leading zero is the decimal text of its value. */
  lemma {:induction false} NatToStringOfDecimalValue(ds: string)
    requires |ds| > 0 && AllDigits(ds) && ds[0] != '0'
    ensures DecimalValue(ds) >= 1 && NatToString(DecimalValue(ds)) == ds
  {
    var last := ds[|ds| - 1];
    DigitCharOfDigit(last);
    if |ds| > 1 {
      var init := ds[..|ds| - 1];
      assert init[0] == ds[0];
      assert AllDigits(init);
      var v := DecimalValue(init);
      NatToStringOfDecimalValue(init);
      var d := DigitToInt(last);
      assert (10 * v + d) / 10 == v && (10 * v + d) % 10 == d;
      assert ds == init + [last];
    }
  }
}
