/**
 * Ratios reported to two decimals. `Math.round(x / y * 100) / 100` is kept as
 * an exact count of hundredths.
 */
module Ratios {

  /** How many times `d` fits in `n`: `n / d`, counted by subtraction. */
  function Quotient(n: nat, d: nat): nat
    requires 0 < d
    decreases n
  {
    if n < d then 0 else 1 + Quotient(n - d, d)
  }

  lemma {:induction false} QuotientBounds(n: nat, d: nat)
    requires 0 < d
    ensures d * Quotient(n, d) <= n < d * Quotient(n, d) + d
    decreases n
  {
    if n >= d {
      QuotientBounds(n - d, d);
      assert d * Quotient(n, d) == d + d * Quotient(n - d, d);
    }
  }

  /** `Math.round(100 * num / den)`, rounding halves up. */
  function Hundredths(num: nat, den: nat): (h: nat)
    requires 0 < den
  {
    Quotient(200 * num + den, 2 * den)
  }

  /** The result is the share `num / den` in hundredths, rounded to the
      nearest hundredth, halves upwards. */
  lemma HundredthsRounds(num: nat, den: nat)
    requires 0 < den
    ensures var h := Hundredths(num, den);
      2 * den * h <= 200 * num + den < 2 * den * h + 2 * den
  {
    QuotientBounds(200 * num + den, 2 * den);
  }

  /** A share of at most the whole is at most 100 hundredths. */
  lemma HundredthsAtMost100(num: nat, den: nat)
    requires 0 < den && num <= den
    ensures Hundredths(num, den) <= 100
  {
    var h := Hundredths(num, den);
    HundredthsRounds(num, den);
    if h > 100 {
      MulMonotone(2 * den, 101, h);
      assert false;
    }
  }

  lemma MulMonotone(a: nat, b: nat, c: nat)
    requires b <= c
    ensures a * b <= a * c
  {
    assert a * c == a * b + a * (c - b);
  }

  /** A share above 0.3 rounds to at least 30 hundredths. */
  lemma HundredthsAbove30(num: nat, den: nat)
    requires 0 < den && 10 * num > 3 * den
    ensures Hundredths(num, den) >= 30
  {
    var h := Hundredths(num, den);
    HundredthsRounds(num, den);
    if h <= 29 {
      MulMonotone(2 * den, h, 29);
      assert false;
    }
  }

  /** A share of at most 0.3 rounds to at most 30 hundredths. */
  lemma HundredthsAtMost30(num: nat, den: nat)
    requires 0 < den && 10 * num <= 3 * den
    ensures Hundredths(num, den) <= 30
  {
    var h := Hundredths(num, den);
    HundredthsRounds(num, den);
    if h >= 31 {
      MulMonotone(2 * den, 31, h);
      assert false;
    }
  }
  /** One more of the counted kind, out of one more in all, never lowers the
      rounded share. */
  lemma HundredthsGrow(num: nat, den: nat)
    requires 0 < den && num <= den
    ensures Hundredths(num + 1, den + 1) >= Hundredths(num, den)
  {
    var h := Hundredths(num, den);
    var g := Hundredths(num + 1, den + 1);
    HundredthsRounds(num, den);
    HundredthsRounds(num + 1, den + 1);
    HundredthsAtMost100(num, den);
    var a := 2 * den;
    AddOnce(a, h);
    AddOnce(2 * (den + 1), g);
    assert (a + 2) * h <= 200 * (num + 1) + den;
    assert 2 * (den + 1) * (g + 1) > 200 * (num + 1) + den + 1;
    MulStrict(2 * (den + 1), h, g + 1);
  }

  lemma AddOnce(a: nat, b: nat)
    ensures (a + 2) * b == a * b + 2 * b
    ensures a * (b + 1) == a * b + a
  {
  }

  lemma MulStrict(a: nat, b: nat, c: nat)
    requires a * b < a * c
    ensures b < c
  {
    if b >= c {
      MulMonotone(a, c, b);
    }
  }
}
