/**
 * Extra payments of both modes under keep-term (shared/loanSchedule.ts): none hurts a loan that
 * never finishes sooner, whose installment is always the annuity installment for what is owed; and
 * a loan that one added pay-less payment costs interest.
 */
module LoanPayLess {
  import opened Basics
  import opened Annuity
  import opened LoanSchedule
  import opened LoanInvariants
  import opened LoanRepayment
  import opened LoanMonotonicity
  import LoanExtras

  // ---- Keep-term loans that never finish sooner: the installment is always full ----

  /** The installment in force is exactly the one that repays the balance by the end month. */
  ghost predicate Spread(balance: real, plan: Plan, month: int) {
    && plan.endMonth.Months? && plan.endMonth.n > month
    && plan.installment == AnnuityPayment(balance, plan.rate, Months(plan.endMonth.n - month))
  }

  ghost predicate SpreadState(s: State, k: nat) {
    s.balance > 0.0 && k > 0 ==> s.plan.Some? && Spread(s.balance, s.plan.value, k)
  }

  ghost predicate NeverFinishesSooner(t: Terms) {
    && SoundTerms(t) && !t.keepInstallment
    && forall m: int :: t.extrasIn(m).GetOr(NO_EXTRAS).shorten == 0.0
  }

  lemma {:induction false} StartSpread(t: Terms, s: State, month: int)
    requires 1 <= month && NeverFinishesSooner(t)
    requires CarriedState(t, s, month - 1) && SpreadState(s, month - 1) && s.balance > 0.0
    ensures Spread(s.balance, MonthStart(t, s, month).plan, month - 1)
  {
    hide AnnuityPayment;
  }

  lemma {:induction false} InstallmentKeepsSpread(p: Position, month: int)
    requires Payable(p, month) && Spread(p.balance, p.plan, month - 1)
    ensures var paid := AfterInstallment(p, month);
            paid.balance > 0.0 ==> Spread(paid.balance, paid.plan, month)
  {
    hide AnnuityPayment;
    if !IsLast(p, month) {
      var n := p.plan.endMonth.n - month;
      var r, a := MonthlyRate(p.plan.rate), p.plan.installment;
      var f, f0 := Factor(r, n + 1), Factor(r, n);
      AnnuityRepays(p.balance, p.plan.rate, n + 1, f, a);
      var next := AfterInstallment(p, month).balance;
      var a2 := AnnuityPayment(next, p.plan.rate, Months(n));
      AnnuityRepays(next, p.plan.rate, n, f0, a2);
      FactorPositive(r, n);
      assert f * (1.0 + r) == 1.0 + f0;
      assert a * f * (1.0 + r) == a * (f * (1.0 + r));
      Cancel(a2, a, f0);
    }
  }

  lemma {:induction false} LowerKeepsSpread(p: Position, amount: real, month: int)
    requires Carried(p, month) && (p.balance > 0.0 ==> Spread(p.balance, p.plan, month))
    ensures var next := AfterExtra(p, amount, Lower, month);
            next.balance > 0.0 ==> Spread(next.balance, next.plan, month)
  {
    hide AnnuityPayment;
    ExtraCarries(p, amount, Lower, month);
  }

  lemma {:induction false} StepKeepsSpread(t: Terms, s: State, month: int)
    requires 1 <= month && NeverFinishesSooner(t)
    requires CarriedState(t, s, month - 1) && SpreadState(s, month - 1) && s.balance > 0.0
    ensures SpreadState(MonthStep(t, s, month), month)
    ensures var paid := AfterInstallment(MonthStart(t, s, month), month);
            paid.balance > 0.0 ==> Spread(paid.balance, paid.plan, month)
  {
    hide AnnuityPayment, AtRate, AfterInstallment, Spread, RowOf, InstallmentsToRepay;
    StartPayable(t, s, month);
    StartSpread(t, s, month);
    var due := MonthStart(t, s, month);
    InstallmentKeepsSpread(due, month);
    InstallmentCarries(due, month);
    var x := t.extrasIn(month).GetOr(NO_EXTRAS);
    assert x.shorten == 0.0;
    LowerKeepsSpread(AfterInstallment(due, month), x.lower, month);
  }

  lemma {:induction false} RunKeepsSpread(t: Terms, k: nat)
    requires NeverFinishesSooner(t) && k <= MAX_TERM_MONTHS
    ensures SpreadState(Run(t, k), k)
  {
    hide MonthStep, Spread;
    if k == 0 {
    } else {
      RunKeepsSpread(t, k - 1);
      RunCarries(t, k - 1);
      if Run(t, k - 1).balance > 0.0 {
        StepKeepsSpread(t, Run(t, k - 1), k);
      }
    }
  }

  lemma {:induction false} SpreadIsFull(t: Terms, month: int)
    requires 1 <= month <= MAX_TERM_MONTHS && NeverFinishesSooner(t) && Run(t, month - 1).balance > 0.0
    ensures Full(AfterShorten(t, month), month)
  {
    hide AnnuityPayment, AtRate, AfterInstallment, Run, InstallmentsToRepay;
    RunKeepsSpread(t, month - 1);
    RunCarries(t, month - 1);
    StepKeepsSpread(t, Run(t, month - 1), month);
    assert t.extrasIn(month).GetOr(NO_EXTRAS).shorten == 0.0;
  }

  ghost predicate OnlyPaysLess(loan: LoanInput) {
    && (forall i :: 0 <= i < |loan.prepayments| ==> loan.prepayments[i].mode == Lower)
    && (forall i :: 0 <= i < |loan.extraRules| ==> loan.extraRules[i].mode == Lower)
  }

  lemma {:induction false} DatedPayLess(list: seq<LoanPrepayment>, month: int)
    requires forall i :: 0 <= i < |list| ==> list[i].mode == Lower
    ensures DatedIn(list, month).GetOr(NO_EXTRAS).shorten == 0.0
  {
    if list == [] {
    } else {
      DatedPayLess(list[..|list| - 1], month);
    }
  }

  lemma {:induction false} DuePayLess(own: Option<MonthExtras>, list: seq<LoanExtraRule>, month: int)
    requires own.GetOr(NO_EXTRAS).shorten == 0.0
    requires forall i :: 0 <= i < |list| ==> list[i].mode == Lower
    ensures DueIn(own, UsableRules(list), month).GetOr(NO_EXTRAS).shorten == 0.0
  {
    hide DueIn, UsableRules;
    if list == [] {
      NoRules(own, month);
    } else {
      DuePayLess(own, list[..|list| - 1], month);
      DueStep(own, list, month);
    }
  }

  /**
   * Under keep-term an extra payment of either mode never hurts a loan that has no finish-sooner
   * payments of its own: adding any, dated or repeating, or enlarging its own leaves it no worse.
   */
  lemma {:induction false} PayLessNeverHurts(more: LoanInput, less: LoanInput)
    requires Usable(less) && RatesUsable(less) && AddsExtras(more, less, true)
    requires less.onRateChange == KeepTerm && OnlyPaysLess(less)
    ensures Usable(more) && RatesUsable(more)
    ensures NoWorse(more, less)
  {
    hide AddsExtras, NoWorse, ExtrasAt, RateAt, Run, Full, SameLoan, Shortened, SpreadMakesNoOdds;
    SameTerms(more, less, true);
    var t := TermsOf(less);
    assert NeverFinishesSooner(t) by {
      forall m: int
        ensures ExtrasAt(less, m).GetOr(NO_EXTRAS).shorten == 0.0
      {
        PayLessExtras(less, m);
      }
    }
    forall m: int | 1 <= m <= MAX_TERM_MONTHS
      ensures MonthPaysMore(TermsOf(more), t, m)
    {
      ExtrasAtLeast(more, less, m, true);
      if Run(t, m - 1).balance > 0.0 {
        SpreadIsFull(t, m);
      }
    }
    PaysMoreNoWorse(more, less);
  }

  lemma {:induction false} PayLessExtras(loan: LoanInput, month: int)
    requires OnlyPaysLess(loan)
    ensures ExtrasAt(loan, month).GetOr(NO_EXTRAS).shorten == 0.0
  {
    DatedPayLess(loan.prepayments, month);
    DuePayLess(DatedIn(loan.prepayments, month), loan.extraRules, month);
    hide DatedIn, DueIn, UsableRules;
  }

  // ---- A loan an added pay-less payment costs interest ----

  const FINISH_SOONER := LoanPrepayment(Finite(1.0), Finite(51249.0), "", Shorten)
  const PAY_LESS := LoanPrepayment(Finite(1.0), Finite(1.0), "", Lower)

  /** 157,625 at 5 % a month over three months, with a finish-sooner payment that leaves a part-full last one. */
  const PART_FULL := LoanInput(Finite(157625.0), Finite(60.0), None, Finite(3.0), [], [FINISH_SOONER], [], KeepTerm)
  const RESPREAD := PART_FULL.(prepayments := [FINISH_SOONER, PAY_LESS])

  lemma {:induction false} ExampleInstallments()
    ensures MonthlyRate(60.0) == 0.05
    ensures AnnuityPayment(157625.0, 60.0, Months(3)) == 57881.25
    ensures AnnuityPayment(56375.0, 60.0, Months(2)) == 30318.75
  {
    assert Pow(1.05, 1) == 1.05;
    assert Pow(1.05, 2) == 1.1025;
    assert Pow(1.05, 3) == 1.157625;
  }

  lemma {:induction false} ExampleStillThree()
    ensures Months(3).Min(InstallmentsToRepay(56376.0, 60.0, 57881.25).Plus(1)) == Months(3)
  {
    var n := InstallmentCount(56376.0, 0.05, 57881.25);
    assert Owing(56376.0, 0.05, 57881.25, 0) == 56376.0;
    OneInstallment(56376.0, 0.05, 57881.25);
  }

  lemma {:induction false} ExampleExtras()
    ensures ExtrasAt(PART_FULL, 1) == Some(MonthExtras(51249.0, 0.0, []))
    ensures ExtrasAt(RESPREAD, 1) == Some(MonthExtras(51249.0, 1.0, []))
    ensures ExtrasAt(PART_FULL, 2) == None && ExtrasAt(RESPREAD, 2) == None
  {
    var none: seq<LoanPrepayment> := [];
    assert [FINISH_SOONER] == none + [FINISH_SOONER];
    assert [FINISH_SOONER, PAY_LESS] == [FINISH_SOONER] + [PAY_LESS];
    LoanExtras.OneMoreListed(none, FINISH_SOONER, 1);
    LoanExtras.OneMoreListed(none, FINISH_SOONER, 2);
    LoanExtras.OneMoreListed([FINISH_SOONER], PAY_LESS, 1);
    LoanExtras.OneMoreListed([FINISH_SOONER], PAY_LESS, 2);
    assert UsableRules([]) == [];
  }

  lemma {:induction false} ExampleRates(loan: LoanInput)
    requires loan == PART_FULL || loan == RESPREAD
    ensures Usable(loan) && RatesUsable(loan)
    ensures forall m: int :: RateAt(loan, m) == 60.0
  {
  }

  /** After the first month: the balance and the terms of a loan that paid `lower` less-each-month. */
  lemma {:induction false} ExampleFirstMonth(t: Terms, lower: real)
    requires SoundTerms(t) && t.principal == 157625.0 && t.term == 3 && !t.keepInstallment
    requires t.rateIn(1) == 60.0 && t.extrasIn(1) == Some(MonthExtras(51249.0, lower, []))
    requires lower == 0.0 || lower == 1.0
    ensures Run(t, 1).balance == 56376.0 - lower
    ensures Run(t, 1).plan == Some(Plan(if lower == 0.0 then 57881.25 else 30318.75, 60.0, Months(3)))
  {
    ExampleInstallments();
    ExampleStillThree();
    hide AnnuityPayment, InstallmentsToRepay, MonthlyRate, RowOf;
    var s := Run(t, 0);
    var due := MonthStart(t, s, 1);
    assert due == Position(157625.0, Plan(57881.25, 60.0, Months(3)), None);
    var paid := AfterInstallment(due, 1);
    assert InterestDue(due) == 7881.25;
    assert paid == Position(107625.0, Plan(57881.25, 60.0, Months(3)), None);
    var shortened := AfterExtra(paid, 51249.0, Shorten, 1);
    assert shortened == Position(56376.0, Plan(57881.25, 60.0, Months(3)), None);
    assert Run(t, 1) == MonthStep(t, s, 1);
  }

  lemma {:induction false} ExampleSecondMonth(t: Terms, b: real, a: real)
    requires SoundTerms(t) && t.rateIn(2) == 60.0 && t.extrasIn(2) == None
    requires Run(t, 1).balance == b > 0.0 && Run(t, 1).plan == Some(Plan(a, 60.0, Months(3)))
    requires b * 1.05 > a + HALF_CENT
    ensures Run(t, 2).balance == b * 1.05 - a
  {
    ExampleInstallments();
    hide AnnuityPayment, InstallmentsToRepay, MonthlyRate, RowOf;
    var due := MonthStart(t, Run(t, 1), 2);
    assert InterestDue(due) == b * 0.05;
    assert Run(t, 2) == MonthStep(t, Run(t, 1), 2);
  }

  /** Three months' interest is a twentieth of what was owed before each. */
  lemma {:induction false} ThreeMonthsInterest(t: Terms, b1: real, b2: real)
    requires SoundTerms(t) && t.rateIn(1) == 60.0 && t.rateIn(2) == 60.0 && t.rateIn(3) == 60.0
    requires Run(t, 1).balance == b1 && Run(t, 2).balance == b2
    ensures Interests(Run(t, 3).rows) == (t.principal + b1 + b2) * 0.05
  {
    hide Interests, Run, MonthlyRate;
    ExampleInstallments();
    StartsOwing(t);
    NoInterestYet(t);
    MonthInterest(t, 1, t.principal, 0.05);
    MonthInterest(t, 2, b1, 0.05);
    MonthInterest(t, 3, b2, 0.05);
  }

  lemma {:induction false} ExampleTerms(loan: LoanInput, t: Terms, lower: real)
    requires (loan == PART_FULL && lower == 0.0) || (loan == RESPREAD && lower == 1.0)
    requires Usable(loan) && RatesUsable(loan) && t == TermsOf(loan)
    ensures SoundTerms(t) && t.principal == 157625.0 && t.term == 3 && !t.keepInstallment
    ensures t.extrasIn(1) == Some(MonthExtras(51249.0, lower, [])) && t.extrasIn(2) == None
    ensures t.rateIn(1) == 60.0 && t.rateIn(2) == 60.0 && t.rateIn(3) == 60.0
  {
    ExampleRates(loan);
    ExampleExtras();
    hide RateAt, ExtrasAt;
  }

  lemma {:induction false} ExampleInterest(loan: LoanInput, lower: real, b: real)
    requires (loan == PART_FULL && lower == 0.0 && b == 1313.55) || (loan == RESPREAD && lower == 1.0 && b == 28875.0)
    ensures Usable(loan) && RatesUsable(loan)
    ensures Interests(Amortization(loan).rows) == (157625.0 + (56376.0 - lower) + b) * 0.05
  {
    ExampleRates(loan);
    var t := TermsOf(loan);
    ExampleTerms(loan, t, lower);
    RowsOfThree(loan, t);
    hide *;
    var b1 := 56376.0 - lower;
    ExampleFirstMonth(t, lower);
    ExampleSecondMonth(t, b1, if lower == 0.0 then 57881.25 else 30318.75);
    ThreeMonthsInterest(t, b1, b);
  }

  lemma {:induction false} RowsOfThree(loan: LoanInput, t: Terms)
    requires Usable(loan) && RatesUsable(loan) && t == TermsOf(loan) && t.term == 3 && SoundTerms(t)
    requires !t.keepInstallment
    ensures Amortization(loan).rows == Run(t, 3).rows
  {
    hide Run, Amortization;
    KeepTermEnds(t);
    RowsAtEnd(loan);
  }

  lemma {:induction false} NoInterestYet(t: Terms)
    ensures Interests(Run(t, 0).rows) == 0.0
  {
  }

  /**
   * Under keep-term an added pay-less payment can cost interest: here one unit, added in the month
   * of a finish-sooner payment, spreads a part-full last installment over both months left.
   */
  lemma {:induction false} PayLessCanHurt()
    ensures Usable(RESPREAD) && RatesUsable(RESPREAD) && Usable(PART_FULL) && RatesUsable(PART_FULL)
    ensures AddsExtras(RESPREAD, PART_FULL, true) && PART_FULL.onRateChange == KeepTerm
    ensures Interests(Amortization(RESPREAD).rows) > Interests(Amortization(PART_FULL).rows)
  {
    ExampleInterest(PART_FULL, 0.0, 1313.55);
    ExampleInterest(RESPREAD, 1.0, 28875.0);
    hide Amortization, Interests;
  }
}
