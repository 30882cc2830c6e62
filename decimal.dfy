/**
 * Decimal notation of integers, shared by the Java programs (Integer.toString,
 * Integer.parseInt) and the C game ("%d").
 */
module Decimal {
  /** An ASCII decimal digit. */
  predicate IsDigit(c: char) { '0' <= c <= '9' }

  /** Every character is an ASCII digit (checked from the last one back). */
  predicate AllDigits(ds: string)
  {
    ds == [] || (AllDigits(ds[..|ds| - 1]) && IsDigit(ds[|ds| - 1]))
  }

  /** The recursive definition agrees with the character-by-character one. */
  lemma {:induction false} AllDigitsEach(ds: string)
    ensures AllDigits(ds) <==> forall i :: 0 <= i < |ds| ==> IsDigit(ds[i])
  {
    if ds != [] {
      var init := ds[..|ds| - 1];
      AllDigitsEach(init);
      assert forall i :: 0 <= i < |init| ==> init[i] == ds[i];
    }
  }

  /** The character of digit d. */
  function DigitChar(d: int): (c: char)
    requires 0 <= d < 10
    ensures IsDigit(c) && c as int - '0' as int == d
  {
    ('0' as int + d) as char
  }

  /** The decimal digits of n, most significant first, without leading zeros. */
  function DigitsOf(n: nat): (ds: string)
    ensures ds != [] && AllDigits(ds)
    decreases n
  {
    if n < 10 then
      assert [DigitChar(n)][..0] == [];
      [DigitChar(n)]
    else
      var init := DigitsOf(n / 10);
      assert (init + [DigitChar(n % 10)])[..|init|] == init;
      init + [DigitChar(n % 10)]
  }

  /** A number in decimal: what Java's Integer.toString, string concatenation and C's "%d" print. */
  function IntToString(n: int): string
  {
    if n < 0 then "-" + DigitsOf(-n) else DigitsOf(n)
  }

  /** The value of a string of decimal digits. */
  function DigitsValue(ds: string): nat
    requires AllDigits(ds)
  {
    if ds == [] then 0
    else DigitsValue(ds[..|ds| - 1]) * 10 + (ds[|ds| - 1] as int - '0' as int)
  }

  /** Reading the digits of n back gives n. */
  lemma {:induction false} DigitsRoundTrip(n: nat)
    ensures DigitsValue(DigitsOf(n)) == n
    decreases n
  {
    if n >= 10 {
      DigitsRoundTrip(n / 10);
      var ds := DigitsOf(n);
      assert ds[..|ds| - 1] == DigitsOf(n / 10);
    }
  }
}
