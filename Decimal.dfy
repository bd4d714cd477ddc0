/** Kotlin's `Int.toString()`: the canonical decimal spelling of an integer.
    The DAO compares the integer `count` column with a string parameter, and
    the model takes that comparison to be equality with this spelling. */
module Decimal {

  function Digit(d: nat): (c: char)
    requires d < 10
    ensures '0' <= c <= '9'
  {
    "0123456789"[d]
  }

  /** The number a string of decimal digits spells, most significant first. */
  function DecimalValue(s: string): int
  {
    if s == [] then 0 else DecimalValue(s[..|s| - 1]) * 10 + (s[|s| - 1] as int - '0' as int)
  }

  /** Decimal digits of a natural number, most significant first, no leading zeros. */
  function DigitsOf(n: nat): (s: string)
    ensures |s| >= 1
    ensures forall i :: 0 <= i < |s| ==> '0' <= s[i] <= '9'
    ensures (|s| == 1) == (n < 10)
    ensures (s[0] == '0') == (n == 0)
    ensures DecimalValue(s) == n
  {
    if n < 10 then
      DigitValue(n);
      DecimalValueSnoc([], Digit(n));
      [Digit(n)]
    else
      var init := DigitsOf(n / 10);
      DigitValue(n % 10);
      DecimalValueSnoc(init, Digit(n % 10));
      init + [Digit(n % 10)]
  }

  lemma DigitValue(d: nat)
    requires d < 10
    ensures Digit(d) as int - '0' as int == d
  {
  }

  lemma DecimalValueSnoc(t: string, c: char)
    ensures DecimalValue(t + [c]) == DecimalValue(t) * 10 + (c as int - '0' as int)
  {
    assert (t + [c])[..|t|] == t;
  }

  /** `Int.toString()`: a minus sign exactly for negative numbers, then the
      digits of the magnitude with no leading zero (zero itself is "0"). */
  function IntToString(i: int): (s: string)
    ensures |s| >= 1 && (s[0] == '-') == (i < 0)
    ensures i < 0 ==> |s| >= 2 && '1' <= s[1] <= '9'
    ensures forall k :: (if i < 0 then 1 else 0) <= k < |s| ==> '0' <= s[k] <= '9'
    ensures (s == "0") == (i == 0)
    ensures 0 < i ==> '1' <= s[0] <= '9'
    ensures i >= 0 ==> DecimalValue(s) == i
    ensures i < 0 ==> DecimalValue(s[1..]) == -i
  {
    if i < 0 then "-" + DigitsOf(-i) else DigitsOf(i)
  }

  /** Distinct integers are spelled differently, so matching a `count` column
      against `n.toString()` selects exactly the rows whose count is `n`. */
  lemma IntToStringInjective(a: int, b: int)
    ensures IntToString(a) == IntToString(b) <==> a == b
  {
    if IntToString(a) == IntToString(b) {
      var s := IntToString(a);
      assert (s[0] == '-') == (a < 0) == (b < 0);
    }
  }
}
