/** Decimal numerals, printed and read back. */
module Decimal {
  function DigitChar(d: nat): char
    requires d < 10
  {
    (d + '0' as int) as char
  }

  predicate IsDigit(c: char) {
    '0' <= c <= '9'
  }

  function DigitValue(c: char): nat
    requires IsDigit(c)
  {
    c as int - '0' as int
  }

  /** Number of digits of the shortest numeral. */
  function Length(n: nat): (r: nat)
    ensures 1 <= r <= 1 + n / 10
  {
    if n < 10 then 1 else 1 + Length(n / 10)
  }

  function Numeral(n: nat): (s: string)
    ensures |s| == Length(n)
    ensures forall c :: c in s ==> IsDigit(c)
  {
    if n < 10 then [DigitChar(n)] else Numeral(n / 10) + [DigitChar(n % 10)]
  }

  /** Exactly `w` digits, the lowest `w` of `n`. */
  function Padded(n: nat, w: nat): (s: string)
    ensures |s| == w
    ensures forall c :: c in s ==> IsDigit(c)
    decreases w
  {
    if w == 0 then "" else Padded(n / 10, w - 1) + [DigitChar(n % 10)]
  }

  function Value(s: string): nat
    requires forall c :: c in s ==> IsDigit(c)
  {
    if s == "" then 0 else 10 * Value(s[..|s| - 1]) + DigitValue(s[|s| - 1])
  }

  function Pow10(w: nat): (r: nat)
    ensures r >= 1
  {
    if w == 0 then 1 else 10 * Pow10(w - 1)
  }

  lemma {:induction false} PaddedValue(n: nat, w: nat)
    requires n < Pow10(w)
    ensures Value(Padded(n, w)) == n
    decreases w
  {
    if w > 0 {
      PaddedValue(n / 10, w - 1);
      assert Padded(n, w)[..w - 1] == Padded(n / 10, w - 1);
    }
  }
}
