/** A loan at one rate with no extra payments: the textbook schedule, row by row. */
module LoanClosedForm {
  import opened Basics
  import opened Annuity
  import opened LoanSchedule
  import opened LoanInvariants
  import opened LoanRepayment

  /** What n installments of A repay: A (1 - (1+r)^-n) / r, and A n at rate 0. */
  function PresentValue(installment: real, r: real, n: nat): real
    requires r >= 0.0
  {
    if r == 0.0 then installment * n as real
    else
      PowAtLeastOne(1.0 + r, n);
      installment * (1.0 - 1.0 / Pow(1.0 + r, n)) / r
  }

  lemma {:induction false} PresentValueIsFactor(installment: real, r: real, n: nat, f: real)
    requires r >= 0.0 && f == Factor(r, n)
    ensures PresentValue(installment, r, n) == installment * f
  {
    var p := Pow(1.0 + r, n);
    FactorClosed(r, n, f, p);
    if r != 0.0 {
      PowAtLeastOne(1.0 + r, n);
      DivideOut(installment, r, p, f);
    }
  }

  lemma {:induction false} DivideOut(a: real, r: real, p: real, f: real)
    requires r > 0.0 && p >= 1.0 && f * r * p == p - 1.0
    ensures a * (1.0 - 1.0 / p) / r == a * f
  {
    var d := 1.0 - 1.0 / p;
    assert d * p == p - 1.0;
    Cancel(f * r, d, p);
    var x := a * d / r;
    assert x * r == a * d;
    assert a * (f * r) == (a * f) * r;
    Cancel(x, a * f, r);
  }

  /** One rate for every month and no extra payments. */
  ghost predicate Plain(t: Terms, rate: Rate) {
    && SoundTerms(t)
    && (forall m: int :: t.rateIn(m) == rate)
    && (forall m: int :: t.extrasIn(m) == None)
  }

  ghost predicate OnSchedule(t: Terms, rate: Rate, installment: real, k: nat)
    requires k <= t.term
  {
    var s := Run(t, k);
    s.balance > 0.0 ==>
      && s.balance == PresentValue(installment, MonthlyRate(rate), t.term - k)
      && (k > 0 ==> s.plan == Some(Plan(installment, rate, Months(t.term))))
  }

  /** A month paid in full takes A f(n) to A f(n - 1); the last takes A f(1) to nothing. */
  lemma {:induction false} PlainMonth(due: Position, a: real, r: Rate, n: nat, month: int, f: real, f0: real)
    requires n >= 1 && f == Factor(r, n) && f0 == Factor(r, n - 1)
    requires r == MonthlyRate(due.plan.rate) && a == due.plan.installment && due.balance == a * f
    requires due.plan.endMonth == Months(month + n - 1)
    ensures IsLast(due, month) <==> n == 1 || a * f0 <= HALF_CENT
    ensures n == 1 || !IsLast(due, month) ==> PaymentDue(due, month) == a
    ensures AfterInstallment(due, month).balance == if IsLast(due, month) then 0.0 else a * f0
  {
    assert f * (1.0 + r) == 1.0 + f0;
    assert due.balance * r == a * f * r;
    assert a * f * (1.0 + r) == a * (f * (1.0 + r));
    assert due.balance + due.balance * r == a + a * f0;
  }

  lemma {:induction false} PlainStart(t: Terms, rate: Rate, installment: real, k: nat)
    requires Plain(t, rate) && k < t.term && OnSchedule(t, rate, installment, k) && Run(t, k).balance > 0.0
    requires installment == AnnuityPayment(t.principal, rate, Months(t.term))
    ensures MonthStart(t, Run(t, k), k + 1).plan == Plan(installment, rate, Months(t.term))
    ensures MonthStart(t, Run(t, k), k + 1).balance == Run(t, k).balance
  {
    hide AnnuityPayment, PresentValue;
    assert t.rateIn(k + 1) == rate;
    RunCarries(t, k);
  }

  lemma {:induction false} PlainStep(t: Terms, rate: Rate, installment: real, k: nat)
    requires Plain(t, rate) && k < t.term && OnSchedule(t, rate, installment, k) && Run(t, k).balance > 0.0
    requires installment == AnnuityPayment(t.principal, rate, Months(t.term))
    ensures var after := PresentValue(installment, MonthlyRate(rate), t.term - k - 1);
            && OnSchedule(t, rate, installment, k + 1)
            && (Run(t, k + 1).balance > 0.0 <==> k + 1 < t.term && after > HALF_CENT)
            && (k + 1 == t.term || after > HALF_CENT ==> RowFor(t, k + 1).payment == installment)
  {
    hide AnnuityPayment, PresentValue, AtRate, Factor, MonthStep, IsLast, PaymentDue, AfterInstallment, RowFor, Run;
    var r, n := MonthlyRate(rate), t.term - k;
    var f, f0 := Factor(r, n), Factor(r, n - 1);
    PresentValueIsFactor(installment, r, n, f);
    PresentValueIsFactor(installment, r, n - 1, f0);
    RunCarries(t, k);
    PlainStart(t, rate, installment, k);
    var due := MonthStart(t, Run(t, k), k + 1);
    PlainMonth(due, installment, r, n, k + 1, f, f0);
    assert t.extrasIn(k + 1) == None;
    PlainAfter(t, k, due);
  }

  /** Without extra payments a month ends where its installment leaves it. */
  lemma {:induction false} PlainAfter(t: Terms, k: nat, due: Position)
    requires SoundTerms(t) && k < t.term && due == MonthStart(t, Run(t, k), k + 1)
    requires t.extrasIn(k + 1) == None && Run(t, k).balance > 0.0
    ensures Run(t, k + 1).balance == AfterInstallment(due, k + 1).balance
    ensures Run(t, k + 1).plan == Some(due.plan)
    ensures RowFor(t, k + 1).payment == PaymentDue(due, k + 1)
  {
    hide AtRate, PaymentDue, IsLast, PrincipalPaid;
    RunCarries(t, k);
    InstallmentKeepsPlan(due, k + 1);
  }

  lemma {:induction false} PlainRun(t: Terms, rate: Rate, installment: real, k: nat)
    requires Plain(t, rate) && k <= t.term
    requires installment == AnnuityPayment(t.principal, rate, Months(t.term))
    ensures OnSchedule(t, rate, installment, k)
    ensures k < t.term && PresentValue(installment, MonthlyRate(rate), 1) > HALF_CENT ==> Run(t, k).balance > 0.0
  {
    hide AnnuityPayment, PresentValue, MonthStep;
    var r := MonthlyRate(rate);
    if k == 0 {
      var f := Factor(r, t.term);
      AnnuityRepays(t.principal, rate, t.term, f, installment);
      PresentValueIsFactor(installment, r, t.term, f);
    } else {
      PlainRun(t, rate, installment, k - 1);
      RunCarries(t, k - 1);
      if Run(t, k - 1).balance > 0.0 {
        PlainStep(t, rate, installment, k - 1);
        if k < t.term {
          AnnuityNonNegative(t.principal, rate, Months(t.term));
          PresentValueGrows(installment, r, 1, t.term - k);
        }
      }
    }
  }

  lemma {:induction false} PresentValueGrows(installment: real, r: real, m: nat, n: nat)
    requires r >= 0.0 && installment >= 0.0 && m <= n
    ensures PresentValue(installment, r, m) <= PresentValue(installment, r, n)
  {
    hide PresentValue;
    var f, g := Factor(r, m), Factor(r, n);
    PresentValueIsFactor(installment, r, m, f);
    PresentValueIsFactor(installment, r, n, g);
    FactorGrows(r, m, n);
    assert installment * f <= installment * g;
  }

  /**
   * At one rate and without extra payments, a loan whose discounted installment is more than half a
   * cent has one row for each month of its term, each paying exactly the annuity installment, the
   * last one included, and after k rows owing what the remaining installments repay. A loan of
   * more than one month whose discounted installment is half a cent or less ends sooner.
   */
  lemma {:induction false} FixedRateSchedule(loan: LoanInput, rate: Rate)
    requires Usable(loan) && RatesUsable(loan)
    requires forall m: int :: RateAt(loan, m) == rate && ExtrasAt(loan, m) == None
    ensures var n, rows := TermOf(loan), Amortization(loan).rows;
            var a, r := AnnuityPayment(loan.principal.value, rate, Months(n)), MonthlyRate(rate);
            && (|rows| == n <==> n == 1 || PresentValue(a, r, 1) > HALF_CENT)
            && (|rows| == n ==>
                  && (forall k :: 0 <= k < n ==> rows[k].payment == a)
                  && (forall k :: 0 <= k <= n ==> OwedAfter(loan, rows, k) == PresentValue(a, r, n - k)))
            && Amortization(loan).neverPaysOffFrom == None
  {
    hide AnnuityPayment, PresentValue, MonthStep, RowFor, RateAt, ExtrasAt;
    var t, n, rows := TermsOf(loan), TermOf(loan), Amortization(loan).rows;
    assert Plain(t, rate);
    var a, r := AnnuityPayment(loan.principal.value, rate, Months(n)), MonthlyRate(rate);
    PlainRun(t, rate, a, n);
    PlainEnds(t, rate, a);
    RowsAtEnd(loan);
    if n == 1 || PresentValue(a, r, 1) > HALF_CENT {
      PlainFullTerm(t, rate, a);
      forall k | 0 <= k < n
        ensures rows[k].payment == a
        ensures OwedAfter(loan, rows, k) == PresentValue(a, r, n - k)
      {
        AnswerRows(loan, k);
        PlainRowPays(t, rate, a, k);
        PlainRun(t, rate, a, k);
        RowsOfRun(t, n);
        assert Run(t, k).balance > 0.0;
      }
      AnswerRows(loan, n);
      PresentValueNothing(a, r);
    } else {
      PlainEndsEarly(t, rate, a);
    }
  }

  lemma {:induction false} PresentValueNothing(installment: real, r: real)
    requires r >= 0.0
    ensures PresentValue(installment, r, 0) == 0.0
  {
    PresentValueIsFactor(installment, r, 0, 0.0);
  }

  lemma {:induction false} PlainEnds(t: Terms, rate: Rate, installment: real)
    requires Plain(t, rate) && installment == AnnuityPayment(t.principal, rate, Months(t.term))
    ensures Run(t, t.term).balance == 0.0
  {
    hide AnnuityPayment, PresentValue;
    PlainRun(t, rate, installment, t.term);
    RunCarries(t, t.term);
  }

  lemma {:induction false} PlainFullTerm(t: Terms, rate: Rate, installment: real)
    requires Plain(t, rate) && installment == AnnuityPayment(t.principal, rate, Months(t.term))
    requires t.term == 1 || PresentValue(installment, MonthlyRate(rate), 1) > HALF_CENT
    ensures |Run(t, t.term).rows| == t.term
  {
    hide AnnuityPayment, PresentValue, MonthStep;
    PlainRun(t, rate, installment, t.term - 1);
    RunCarries(t, t.term - 1);
    RowsOfRun(t, t.term - 1);
    StepAddsRow(t, t.term);
  }

  lemma {:induction false} PlainEndsEarly(t: Terms, rate: Rate, installment: real)
    requires Plain(t, rate) && installment == AnnuityPayment(t.principal, rate, Months(t.term))
    requires t.term > 1 && PresentValue(installment, MonthlyRate(rate), 1) <= HALF_CENT
    ensures |Run(t, t.term).rows| < t.term
  {
    hide AnnuityPayment, PresentValue, MonthStep;
    PlainRun(t, rate, installment, t.term - 1);
    RunCarries(t, t.term - 1);
    RowsOfRun(t, t.term - 1);
  }

  lemma {:induction false} PlainRowPays(t: Terms, rate: Rate, installment: real, k: nat)
    requires Plain(t, rate) && installment == AnnuityPayment(t.principal, rate, Months(t.term)) && k < t.term
    requires t.term == 1 || PresentValue(installment, MonthlyRate(rate), 1) > HALF_CENT
    ensures Run(t, k).balance > 0.0 && RowFor(t, k + 1).payment == installment
  {
    hide AnnuityPayment, PresentValue, MonthStep, RowFor;
    PlainRun(t, rate, installment, k);
    PlainStep(t, rate, installment, k);
    if k + 1 < t.term {
      AnnuityNonNegative(t.principal, rate, Months(t.term));
      PresentValueGrows(installment, MonthlyRate(rate), 1, t.term - k - 1);
    }
  }
}
