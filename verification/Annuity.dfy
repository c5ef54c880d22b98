/** Powers of 1 + r and the annuity factor, the arithmetic under every installment. */
module Annuity {

  function Pow(q: real, n: nat): real {
    if n == 0 then 1.0 else q * Pow(q, n - 1)
  }

  /** 1 + q + ... + q^(n-1): what n installments of 1 grow to. */
  function Geometric(q: real, n: nat): real {
    if n == 0 then 0.0 else 1.0 + q * Geometric(q, n - 1)
  }

  /** What n installments of 1, the first a month away, are worth today at monthly rate r. */
  function Factor(r: real, n: nat): real
    requires r >= 0.0
  {
    if n == 0 then 0.0 else (1.0 + Factor(r, n - 1)) / (1.0 + r)
  }

  lemma {:induction false} PowAtLeastOne(q: real, n: nat)
    requires q >= 1.0
    ensures Pow(q, n) >= 1.0
    ensures q > 1.0 && n >= 1 ==> Pow(q, n) > 1.0
  {
    if n == 0 {
    } else {
      PowAtLeastOne(q, n - 1);
      var p := Pow(q, n - 1);
      assert q * p >= q * 1.0;
    }
  }

  lemma {:induction false} GeometricNonNegative(q: real, n: nat)
    requires q >= 0.0
    ensures Geometric(q, n) >= 0.0
    ensures n >= 1 ==> Geometric(q, n) >= 1.0
  {
    if n == 0 {
    } else {
      GeometricNonNegative(q, n - 1);
      var g := Geometric(q, n - 1);
      assert q * g >= 0.0;
    }
  }

  lemma {:induction false} FactorPositive(r: real, n: nat)
    requires r >= 0.0
    ensures Factor(r, n) >= 0.0
    ensures n >= 1 ==> Factor(r, n) > 0.0
  {
    if n == 0 {
    } else {
      FactorPositive(r, n - 1);
    }
  }

  /** r a(n) q^n = q^n - 1: the factor in closed form. */
  lemma {:induction false} FactorClosed(r: real, n: nat, f: real, p: real)
    requires r >= 0.0 && f == Factor(r, n) && p == Pow(1.0 + r, n)
    ensures f * r * p == p - 1.0
    ensures r == 0.0 ==> f == n as real
    decreases n
  {
    if n == 0 {
    } else {
      var f0, p0 := Factor(r, n - 1), Pow(1.0 + r, n - 1);
      FactorClosed(r, n - 1, f0, p0);
      FactorClosedStep(r, 1.0 + r, f0, p0, f);
    }
  }

  lemma {:induction false} FactorClosedStep(r: real, q: real, f: real, p: real, g: real)
    requires q == 1.0 + r && r >= 0.0
    requires f * r * p == p - 1.0
    requires g == (1.0 + f) / q
    ensures g * r * (q * p) == q * p - 1.0
  {
    assert g * q == 1.0 + f;
    calc {
      g * r * (q * p);
      (g * q) * (r * p);
      (1.0 + f) * (r * p);
      r * p + f * r * p;
      r * p + p - 1.0;
    }
  }

  lemma {:induction false} FactorGrows(r: real, m: nat, n: nat)
    requires r >= 0.0 && m <= n
    ensures Factor(r, m) <= Factor(r, n)
    ensures m < n ==> Factor(r, m) < Factor(r, n)
  {
    if m == 0 {
      FactorPositive(r, n);
    } else {
      FactorGrows(r, m - 1, n - 1);
      var q := 1.0 + r;
      var a, b := 1.0 + Factor(r, m - 1), 1.0 + Factor(r, n - 1);
      assert (b - a) / q >= 0.0;
      assert b / q - a / q == (b - a) / q;
    }
  }

  /** However many the installments, they are worth less than paying 1 for ever: r a(n) < 1. */
  lemma {:induction false} FactorBounded(r: real, n: nat, f: real)
    requires r >= 0.0 && f == Factor(r, n)
    ensures f * r < 1.0
  {
    var p := Pow(1.0 + r, n);
    FactorClosed(r, n, f, p);
    PowAtLeastOne(1.0 + r, n);
    BelowOne(f * r, p);
  }

  lemma {:induction false} BelowOne(x: real, p: real)
    requires p >= 1.0 && x * p == p - 1.0
    ensures x < 1.0
  {
    assert (1.0 - x) * p == 1.0;
  }
}
