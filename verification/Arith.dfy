/**
 * Products and quotients of two variables, by recursion. A client sees only
 * the facts proved here, so no proof elsewhere meets nonlinear arithmetic.
 */
module Arith {
  function Times(a: nat, b: nat): nat {
    if b == 0 then 0 else a + Times(a, b - 1)
  }

  function Quotient(a: nat, d: nat): nat
    requires d > 0
  {
    if a < d then 0 else 1 + Quotient(a - d, d)
  }

  lemma {:induction false} TimesIsProduct(a: nat, b: nat)
    ensures Times(a, b) == a * b
    decreases b
  {
    if b > 0 {
      TimesIsProduct(a, b - 1);
      assert a * b == a + a * (b - 1);
    }
  }

  lemma MulMonotone(d: nat, x: nat, y: nat)
    requires x <= y
    ensures d * x <= d * y
  {
  }

  lemma {:induction false} QuotientBrackets(a: nat, d: nat)
    requires d > 0
    ensures d * Quotient(a, d) <= a < d * Quotient(a, d) + d
    decreases a
  {
    if a >= d {
      QuotientBrackets(a - d, d);
      assert d * (1 + Quotient(a - d, d)) == d + d * Quotient(a - d, d);
    }
  }

  lemma QuotientIsFloor(a: nat, d: nat)
    requires d > 0
    ensures Quotient(a, d) == a / d
  {
    var q, r := Quotient(a, d), a / d;
    QuotientBrackets(a, d);
    assert d * r <= a < d * r + d;
    if q < r {
      MulMonotone(d, q + 1, r);
    } else if r < q {
      MulMonotone(d, r + 1, q);
    }
  }

  lemma {:induction false} QuotientBound(a: nat, d: nat, q: nat)
    requires d > 0 && a <= Times(d, q)
    ensures Quotient(a, d) <= q
    decreases a
  {
    if a >= d {
      QuotientBound(a - d, d, q - 1);
    }
  }

  lemma {:induction false} TimesMonotone(a: nat, b: nat, c: nat)
    requires a <= b
    ensures Times(a, c) <= Times(b, c)
    decreases c
  {
    if c > 0 {
      TimesMonotone(a, b, c - 1);
    }
  }

  lemma {:induction false} TimesSplits(a: nat, b: nat, c: nat)
    ensures Times(a + b, c) == Times(a, c) + Times(b, c)
    decreases c
  {
    if c > 0 {
      TimesSplits(a, b, c - 1);
    }
  }

  lemma {:induction false} TimesCommutes(a: nat, b: nat)
    ensures Times(a, b) == Times(b, a)
  {
    TimesIsProduct(a, b);
    TimesIsProduct(b, a);
  }
}
