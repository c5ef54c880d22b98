/**
 * What every month of every schedule keeps: a balance carried over a month end is 0 or more than
 * half a cent, and its end month is still ahead.
 */
module LoanInvariants {
  import opened Annuity
  import opened LoanSchedule

  ghost predicate Carried(p: Position, month: int) {
    && p.balance >= 0.0 && p.plan.installment >= 0.0
    && (p.balance > 0.0 ==> p.balance > HALF_CENT && !p.plan.endMonth.Within(month))
  }

  /** A month about to be paid: its end month has not gone by. */
  ghost predicate Payable(p: Position, month: int) {
    p.balance > 0.0 && p.plan.installment >= 0.0 && !p.plan.endMonth.Within(month - 1)
  }

  ghost predicate CarriedState(t: Terms, s: State, k: nat) {
    && s.balance >= 0.0
    && (k == 0 ==> s.plan.None? && s.outOfReachSince.None? && s.balance == t.principal && s.rows == [])
    && (k > 0 ==> s.plan.Some? && Carried(Position(s.balance, s.plan.value, s.outOfReachSince), k))
  }

  /** Terms a loan can have: something to repay, over 1 to MAX_TERM_MONTHS months. */
  ghost predicate SoundTerms(t: Terms) {
    t.principal > 0.0 && 1 <= t.term <= MAX_TERM_MONTHS
  }

  lemma {:induction false} AnnuityNonNegative(principal: real, rate: Rate, months: Months)
    requires principal >= 0.0
    ensures AnnuityPayment(principal, rate, months) >= 0.0
  {
    var r := MonthlyRate(rate);
    if !months.Within(0) && months.Months? && r != 0.0 {
      PowAtLeastOne(1.0 + r, months.n);
      var p := Pow(1.0 + r, months.n);
      assert 1.0 / p < 1.0;
      DivideNonNegative(principal * r, 1.0 - 1.0 / p);
    }
  }

  lemma {:induction false} DivideNonNegative(x: real, d: real)
    requires x >= 0.0 && d > 0.0
    ensures x / d >= 0.0
  {
  }

  /** The annuity installment repays its principal: A a(n) = P. */
  lemma {:induction false} AnnuityRepays(principal: real, rate: Rate, n: nat, f: real, a: real)
    requires n >= 1 && f == Factor(MonthlyRate(rate), n)
    requires a == AnnuityPayment(principal, rate, Months(n))
    ensures a * f == principal
  {
    hide Pow, Factor;
    var r := MonthlyRate(rate);
    var p := Pow(1.0 + r, n);
    FactorClosed(r, n, f, p);
    PowAtLeastOne(1.0 + r, n);
    if r == 0.0 {
      AnnuityAtZero(principal, rate, n);
      hide *;
      DividedBack(principal, n as real);
    } else {
      AnnuityAtRate(principal, rate, n, r, p);
      hide *;
      AnnuityCancels(principal, r, p, f);
    }
  }

  lemma {:induction false} AnnuityAtZero(principal: real, rate: Rate, n: nat)
    requires n >= 1 && MonthlyRate(rate) == 0.0
    ensures AnnuityPayment(principal, rate, Months(n)) == principal / n as real
  {
    hide Pow, MonthlyRate;
  }

  lemma {:induction false} AnnuityAtRate(principal: real, rate: Rate, n: nat, r: real, p: real)
    requires n >= 1 && r == MonthlyRate(rate) && r != 0.0 && p == Pow(1.0 + r, n) && p > 1.0
    ensures AnnuityPayment(principal, rate, Months(n)) == Discounted(principal, r, p)
  {
    hide Pow, MonthlyRate, Discounted;
  }

  lemma {:induction false} DividedBack(x: real, d: real)
    requires d != 0.0
    ensures x / d * d == x
  {
  }

  lemma {:induction false} AnnuityCancels(principal: real, r: real, p: real, f: real)
    requires r > 0.0 && p > 1.0 && f * r * p == p - 1.0
    ensures Discounted(principal, r, p) * f == principal
  {
    var d := 1.0 - 1.0 / p;
    assert d * p == p - 1.0;
    Cancel(f * r, d, p);
    var a := principal * r / d;
    assert a * d == principal * r;
    assert a * f * r == a * (f * r);
    Cancel(a * f, principal, r);
  }

  lemma {:induction false} StartPayable(t: Terms, s: State, month: int)
    requires month >= 1 && SoundTerms(t) && CarriedState(t, s, month - 1) && s.balance > 0.0
    ensures Payable(MonthStart(t, s, month), month)
    ensures MonthStart(t, s, month).balance == s.balance
    ensures MonthStart(t, s, month).plan.rate == t.rateIn(month)
  {
    var rate := t.rateIn(month);
    if s.plan.None? {
      AnnuityNonNegative(s.balance, rate, Months(t.term).Plus(1 - month));
    } else {
      AnnuityNonNegative(s.balance, rate, s.plan.value.endMonth.Plus(1 - month));
    }
  }

  lemma {:induction false} InstallmentCarries(p: Position, month: int)
    requires Payable(p, month)
    ensures Carried(AfterInstallment(p, month), month)
  {
  }

  lemma {:induction false} ExtraCarries(p: Position, amount: real, mode: ExtraMode, month: int)
    requires Carried(p, month)
    ensures Carried(AfterExtra(p, amount, mode, month), month)
    ensures AfterExtra(p, amount, mode, month).plan.rate == p.plan.rate
    ensures AfterExtra(p, amount, mode, month).balance == p.balance - ExtraPaid(p, amount)
  {
    if amount > 0.0 && p.balance > 0.0 && p.balance - ExtraPaid(p, amount) > 0.0 {
      AnnuityNonNegative(p.balance - ExtraPaid(p, amount), p.plan.rate, p.plan.endMonth.Plus(-month));
    }
  }

  /** Every month leaves nothing, or more than half a cent under an end month still ahead. */
  lemma {:induction false} StepCarries(t: Terms, s: State, month: int)
    requires month >= 1 && SoundTerms(t) && CarriedState(t, s, month - 1) && s.balance > 0.0
    ensures CarriedState(t, MonthStep(t, s, month), month)
    ensures MonthStep(t, s, month).plan.value.rate == t.rateIn(month)
  {
    StartPayable(t, s, month);
    var due := MonthStart(t, s, month);
    InstallmentCarries(due, month);
    var paid := AfterInstallment(due, month);
    var x := t.extrasIn(month).GetOr(NO_EXTRAS);
    ExtraCarries(paid, x.shorten, Shorten, month);
    ExtraCarries(AfterExtra(paid, x.shorten, Shorten, month), x.lower, Lower, month);
  }

  lemma {:induction false} RunCarries(t: Terms, k: nat)
    requires SoundTerms(t) && k <= MAX_TERM_MONTHS
    ensures CarriedState(t, Run(t, k), k)
    ensures Run(t, k).balance > 0.0 && k < MAX_TERM_MONTHS ==> Continues(Run(t, k), k + 1, t.term)
    ensures k > 0 && Run(t, k).balance > 0.0 ==> Run(t, k - 1).balance > 0.0
    ensures k > 0 && Run(t, k).balance > 0.0 ==> Run(t, k).plan.value.rate == t.rateIn(k)
  {
    if k == 0 {
    } else {
      RunCarries(t, k - 1);
      var s := Run(t, k - 1);
      if Continues(s, k, t.term) {
        StepCarries(t, s, k);
      }
    }
  }
}
