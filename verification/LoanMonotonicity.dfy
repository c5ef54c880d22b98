/**
 * Extra payments never hurt: of two runs of one loan, the one that pays at least as much extra in
 * every month owes no more at any time. What is kept month by month is that it owes no more, that
 * its balance is no larger a multiple of its installment, and that its end month is no later.
 */
module LoanMonotonicity {
  import opened Basics
  import opened Annuity
  import opened LoanSchedule
  import opened LoanInvariants
  import opened LoanRepayment

  ghost predicate NoLater(a: Months, b: Months) {
    b.Forever? || (a.Months? && a.n <= b.n)
  }

  ghost predicate Ahead(more: Position, less: Position) {
    && more.balance <= less.balance
    && (more.balance > 0.0 ==>
          && more.plan.rate == less.plan.rate
          && more.balance * less.plan.installment <= less.balance * more.plan.installment
          && NoLater(more.plan.endMonth, less.plan.endMonth))
  }

  lemma {:induction false} OwingStep(balance: real, r: real, installment: real, n: nat)
    requires n >= 1
    ensures Owing(balance, r, installment, n) == Owing(balance, r, installment, n - 1) * (1.0 + r) - installment
    decreases n
  {
    if n == 1 {
      OneInstallment(balance, r, installment);
      assert Owing(balance, r, installment, 0) == balance;
      assert balance * (1.0 + r) == balance + balance * r;
      hide Owing;
    } else {
      var next := balance * (1.0 + r) - installment;
      OwingStep(next, r, installment, n - 1);
      assert Owing(balance, r, installment, n) == Owing(next, r, installment, n - 1);
      assert Owing(balance, r, installment, n - 1) == Owing(next, r, installment, n - 2);
      hide Owing;
    }
  }

  /** B_n = B q^n - A (1 + q + ... + q^(n-1)). */
  lemma {:induction false} OwingClosed(balance: real, r: real, installment: real, n: nat)
    ensures Owing(balance, r, installment, n)
            == balance * Pow(1.0 + r, n) - installment * Geometric(1.0 + r, n)
  {
    if n == 0 {
    } else {
      var q := 1.0 + r;
      OwingClosed(balance, r, installment, n - 1);
      OwingStep(balance, r, installment, n);
      hide Owing;
      Regroup(balance, installment, q, Pow(q, n - 1), Geometric(q, n - 1));
    }
  }

  lemma {:induction false} Regroup(balance: real, installment: real, q: real, p: real, g: real)
    ensures (balance * p - installment * g) * q - installment == balance * (q * p) - installment * (1.0 + q * g)
  {
  }

  /** Scaled comparison: from B' A <= B A' and B' <= B, what is still owed later compares the same way. */
  lemma {:induction false} ScaledAhead(b1: real, a1: real, b: real, a: real, p: real, g: real)
    requires 0.0 <= b1 <= b && a1 >= 0.0 && a >= 0.0 && b1 * a <= b * a1
    requires p >= 0.0 && g >= 0.0
    ensures b1 * p - a1 * g <= b * p - a * g || b1 * p - a1 * g <= 0.0
  {
    if a1 >= a {
      assert b1 * p <= b * p;
      assert a1 * g >= a * g;
    } else {
      var x, y := b1 * p - a1 * g, b * p - a * g;
      ScaleUp(b1 * a, b * a1, p);
      assert a * x == b1 * a * p - a * a1 * g;
      assert a1 * y == b * a1 * p - a1 * a * g;
      assert a * x <= a1 * y;
      ScaledOrder(a, a1, x, y);
    }
  }

  lemma {:induction false} ScaleUp(x: real, y: real, p: real)
    requires x <= y && p >= 0.0
    ensures x * p <= y * p
  {
    assert (y - x) * p >= 0.0;
  }

  lemma {:induction false} ScaledOrder(a: real, a1: real, x: real, y: real)
    requires 0.0 <= a1 < a && a * x <= a1 * y
    ensures x <= y || x <= 0.0
  {
    if x > 0.0 {
      assert a * x > 0.0;
      assert y > 0.0;
      assert (a - a1) * y >= 0.0;
      assert a * (y - x) >= 0.0;
    }
  }

  lemma {:induction false} OwingAhead(b1: real, a1: real, b: real, a: real, r: real, n: nat)
    requires r >= 0.0 && 0.0 <= b1 <= b && a1 >= 0.0 && a >= 0.0 && b1 * a <= b * a1
    ensures Owing(b1, r, a1, n) <= Owing(b, r, a, n) || Owing(b1, r, a1, n) <= 0.0
  {
    OwingClosed(b1, r, a1, n);
    OwingClosed(b, r, a, n);
    hide Owing, Pow, Geometric;
    PowAtLeastOne(1.0 + r, n);
    GeometricNonNegative(1.0 + r, n);
    ScaledAhead(b1, a1, b, a, Pow(1.0 + r, n), Geometric(1.0 + r, n));
  }

  lemma {:induction false} InterestCovered(b1: real, a1: real, b: real, a: real, r: real)
    requires 0.0 < b1 <= b && b1 * a <= b * a1
    requires a > b * r
    ensures a1 > b1 * r
  {
    assert b1 * a > b1 * (b * r);
    assert b * (a1 - b1 * r) > 0.0;
  }

  /** Further ahead never takes more installments. */
  lemma {:induction false} ToRepayAhead(b1: real, a1: real, b: real, a: real, rate: Rate)
    requires HALF_CENT < b1 <= b && a1 >= 0.0 && a >= 0.0 && b1 * a <= b * a1
    ensures NoLater(InstallmentsToRepay(b1, rate, a1), InstallmentsToRepay(b, rate, a))
  {
    var r := MonthlyRate(rate);
    if a > b * r {
      InterestCovered(b1, a1, b, a, r);
      var n := InstallmentCount(b, r, a);
      OwingAhead(b1, a1, b, a, r, n);
      assert Owing(b1, r, a1, n) <= HALF_CENT;
    }
  }

  lemma {:induction false} AnnuityForever(principal: real, rate: Rate)
    ensures AnnuityPayment(principal, rate, Forever) == principal * MonthlyRate(rate)
  {
  }

  /** Spread over no more months, a balance is no larger a multiple of its installment. */
  lemma {:induction false} AnnuityAhead(b1: real, b: real, rate: Rate, n1: Months, n: Months)
    requires 0.0 <= b1 <= b && NoLater(n1, n) && !n1.Within(0)
    ensures b1 * AnnuityPayment(b, rate, n) <= b * AnnuityPayment(b1, rate, n1)
  {
    hide AnnuityPayment;
    AnnuityForever(b1, rate);
    AnnuityForever(b, rate);
    if n1.Forever? {
      assert b1 * (b * MonthlyRate(rate)) == b * (b1 * MonthlyRate(rate));
    } else {
      AnnuityNonNegative(b1, rate, n1);
      AnnuityNonNegative(b, rate, n);
      FiniteAhead(b1, b, rate, n1.n, n, Factor(MonthlyRate(rate), n1.n),
                  AnnuityPayment(b1, rate, n1), AnnuityPayment(b, rate, n));
    }
  }

  lemma {:induction false} FiniteAhead(b1: real, b: real, rate: Rate, n1: nat, n: Months, f1: real, a1: real, a: real)
    requires 0.0 <= b1 <= b && NoLater(Months(n1), n) && n1 >= 1 && f1 == Factor(MonthlyRate(rate), n1)
    requires a1 == AnnuityPayment(b1, rate, Months(n1)) >= 0.0 && a == AnnuityPayment(b, rate, n) >= 0.0
    ensures b1 * a <= b * a1
  {
    hide AnnuityPayment, Factor;
    var r := MonthlyRate(rate);
    AnnuityRepays(b1, rate, n1, f1, a1);
    if n.Forever? {
      AnnuityForever(b, rate);
      FactorBounded(r, n1, f1);
      ShorterThanForever(b1, b, a1, r, f1);
    } else {
      var f := Factor(r, n.n);
      AnnuityRepays(b, rate, n.n, f, a);
      FactorGrows(r, n1, n.n);
      ShorterIsSmaller(a1, a, f1, f);
    }
  }

  lemma {:induction false} ShorterThanForever(b1: real, b: real, a1: real, r: real, f1: real)
    requires a1 * f1 == b1 && f1 * r < 1.0 && a1 >= 0.0 && b >= 0.0
    ensures b1 * (b * r) <= b * a1
  {
    ScaleUp(f1 * r, 1.0, a1);
    assert b1 * r == (f1 * r) * a1;
    ScaleUp(b1 * r, a1, b);
  }

  lemma {:induction false} ShorterIsSmaller(a1: real, a: real, f1: real, f: real)
    requires a1 >= 0.0 && a >= 0.0 && f1 <= f
    ensures (a1 * f1) * a <= (a * f) * a1
  {
    assert a1 * a >= 0.0;
    ScaleUp(f1, f, a1 * a);
  }

  // ---- One month ----

  lemma {:induction false} RateKeepsAhead(t: Terms, more: State, less: State, month: int)
    requires month >= 1 && SoundTerms(t)
    requires CarriedState(t, more, month - 1) && CarriedState(t, less, month - 1)
    requires 0.0 < more.balance <= less.balance
    requires month > 1 ==>
               Ahead(Position(more.balance, more.plan.value, None), Position(less.balance, less.plan.value, None))
    ensures Ahead(MonthStart(t, more, month), MonthStart(t, less, month))
  {
    var rate := t.rateIn(month);
    hide AnnuityPayment, InstallmentsToRepay, MonthlyRate;
    if month == 1 {
      AnnuityAhead(more.balance, less.balance, rate, Months(t.term), Months(t.term));
    } else {
      var p1, p := more.plan.value, less.plan.value;
      if p.rate != rate {
        if t.keepInstallment {
          ToRepayAhead(more.balance, p1.installment, less.balance, p.installment, rate);
        } else {
          AnnuityAhead(more.balance, less.balance, rate, p1.endMonth.Plus(1 - month), p.endMonth.Plus(1 - month));
        }
      }
    }
  }

  lemma {:induction false} OneInstallment(balance: real, r: real, installment: real)
    ensures Owing(balance, r, installment, 1) == balance + balance * r - installment
  {
    assert Owing(balance, r, installment, 1) == Owing(balance * (1.0 + r) - installment, r, installment, 0);
  }

  lemma {:induction false} InstallmentKeepsAhead(more: Position, less: Position, month: int)
    requires Payable(more, month) && Payable(less, month) && Ahead(more, less)
    ensures Ahead(AfterInstallment(more, month), AfterInstallment(less, month))
  {
    var r := MonthlyRate(more.plan.rate);
    var b1, a1, b, a := more.balance, more.plan.installment, less.balance, less.plan.installment;
    OwingAhead(b1, a1, b, a, r, 1);
    OneInstallment(b1, r, a1);
    OneInstallment(b, r, a);
    if !IsLast(more, month) {
      assert !IsLast(less, month);
      CrossScaled(b1, a1, b, a, r);
    }
    hide Owing, AnnuityPayment;
  }

  lemma {:induction false} CrossScaled(b1: real, a1: real, b: real, a: real, r: real)
    requires r >= 0.0 && b1 * a <= b * a1
    ensures (b1 + b1 * r - a1) * a <= (b + b * r - a) * a1
  {
    ScaleUp(b1 * a, b * a1, 1.0 + r);
    assert (b1 + b1 * r - a1) * a == (b1 * a) * (1.0 + r) - a1 * a;
    assert (b + b * r - a) * a1 == (b * a1) * (1.0 + r) - a1 * a;
  }

  lemma {:induction false} SmallerStaysAhead(b1: real, x1: real, a1: real, b: real, x: real, a: real)
    requires 0.0 <= x <= x1 && 0.0 < b1 - x1 && b1 <= b && a1 >= 0.0 && a >= 0.0 && b1 * a <= b * a1
    ensures (b1 - x1) * a <= (b - x) * a1
  {
    if a1 >= a {
      assert (b1 - x1) * a <= (b - x) * a;
      assert (b - x) * a <= (b - x) * a1;
    } else {
      assert x1 * a >= x * a;
      assert x * a >= x * a1;
    }
  }

  /** The installment in force is no more than would repay the balance by the end month. */
  ghost predicate Full(p: Position, month: int) {
    p.balance > 0.0 ==> p.plan.installment <= AnnuityPayment(p.balance, p.plan.rate, p.plan.endMonth.Plus(-month))
  }

  /**
   * An extra payment at least as large keeps a run ahead. A pay-less one spreads the balance again:
   * it does so where the other run pays one too, or where that run's installment is full.
   */
  lemma {:induction false} ExtraKeepsAhead(more: Position, less: Position, x1: real, x: real, mode: ExtraMode,
                                           month: int)
    requires Carried(more, month) && Carried(less, month) && Ahead(more, less)
    requires 0.0 <= x <= x1
    requires mode == Lower && x1 > 0.0 && x == 0.0 ==> Full(less, month)
    ensures Ahead(AfterExtra(more, x1, mode, month), AfterExtra(less, x, mode, month))
  {
    hide AnnuityPayment, InstallmentsToRepay;
    var next1, next := AfterExtra(more, x1, mode, month), AfterExtra(less, x, mode, month);
    ExtraCarries(more, x1, mode, month);
    ExtraCarries(less, x, mode, month);
    if next1.balance > 0.0 && x1 > 0.0 {
      assert next1.balance == more.balance - x1 && next.balance == less.balance - x;
      SmallerStaysAhead(more.balance, x1, more.plan.installment, less.balance, x, less.plan.installment);
      if mode == Lower {
        AnnuityAhead(next1.balance, next.balance, more.plan.rate,
                     more.plan.endMonth.Plus(-month), less.plan.endMonth.Plus(-month));
        if x == 0.0 {
          ScaleUp(less.plan.installment,
                  AnnuityPayment(less.balance, less.plan.rate, less.plan.endMonth.Plus(-month)), next1.balance);
        }
      } else if x > 0.0 {
        ToRepayAhead(next1.balance, more.plan.installment, next.balance, less.plan.installment, more.plan.rate);
      }
    }
  }

  // ---- Spreading the balance anew ----

  /** The balance spread anew over the months left, as a pay-less payment of nothing would. */
  function Respread(p: Position, month: int): Position {
    p.(plan := AfterExtraPayment(p.plan, p.balance, month, Lower))
  }

  function StateAt(p: Position): State {
    State(p.balance, Some(p.plan), p.outOfReachSince, [])
  }

  ghost predicate RepaidNext(t: Terms, p: Position, month: int) {
    MonthStep(t, StateAt(p), month + 1).balance <= 0.0
  }

  /** Under keep-term the installment left after a month may not matter: the next one changes it, or ends the loan. */
  ghost predicate SpreadMakesNoOdds(t: Terms, p: Position, month: int) {
    && !t.keepInstallment
    && (t.rateIn(month + 1) != p.plan.rate || RepaidNext(t, Respread(p, month), month))
  }

  /** Spreading the balance anew leaves no more owed in any later month. */
  ghost predicate SpreadsSafely(t: Terms, p: Position, month: int) {
    Full(p, month) || SpreadMakesNoOdds(t, p, month)
  }

  /** Ahead, or ahead of the other spread anew where that makes no odds. */
  ghost predicate Near(t: Terms, more: Position, less: Position, month: int) {
    && more.balance <= less.balance
    && (more.balance > 0.0 ==>
          || Ahead(more, less)
          || (Ahead(more, Respread(less, month)) && SpreadMakesNoOdds(t, less, month)))
  }

  /** A run that pays less each month is ahead of the other spread anew. */
  lemma {:induction false} SpreadAhead(more: Position, less: Position, x: real, month: int)
    requires Carried(more, month) && Carried(less, month) && Ahead(more, less) && x > 0.0
    ensures Ahead(AfterExtra(more, x, Lower, month), Respread(less, month))
  {
    hide AnnuityPayment;
    ExtraCarries(more, x, Lower, month);
    var next := AfterExtra(more, x, Lower, month);
    if next.balance > 0.0 {
      AnnuityAhead(next.balance, less.balance, more.plan.rate,
                   more.plan.endMonth.Plus(-month), less.plan.endMonth.Plus(-month));
    }
  }

  lemma {:induction false} LowerKeepsNear(t: Terms, more: Position, less: Position, x1: real, x: real, month: int)
    requires Carried(more, month) && Carried(less, month) && Ahead(more, less)
    requires 0.0 <= x <= x1
    requires x1 > 0.0 && x == 0.0 ==> SpreadsSafely(t, less, month)
    ensures Near(t, AfterExtra(more, x1, Lower, month), AfterExtra(less, x, Lower, month), month)
  {
    if x1 > 0.0 && x == 0.0 && !Full(less, month) {
      SpreadAhead(more, less, x1, month);
      ExtraCarries(more, x1, Lower, month);
      hide Full, RepaidNext, AfterExtraPayment;
    } else {
      ExtraKeepsAhead(more, less, x1, x, Lower, month);
      hide AfterExtra, Full;
    }
  }

  // ---- Whole runs ----

  /**
   * `more` pays at least as much extra of either mode, and pays less each month only where `less`
   * does, unless any mode will do.
   */
  ghost predicate PaysAtLeast(more: Option<MonthExtras>, less: Option<MonthExtras>, anyMode: bool) {
    var m, l := more.GetOr(NO_EXTRAS), less.GetOr(NO_EXTRAS);
    && 0.0 <= l.shorten <= m.shorten && 0.0 <= l.lower <= m.lower
    && (anyMode || m.lower <= 0.0 || l.lower > 0.0)
  }

  ghost predicate SameLoan(more: Terms, less: Terms) {
    && SoundTerms(less)
    && more.principal == less.principal && more.term == less.term
    && more.keepInstallment == less.keepInstallment
    && forall m: int :: more.rateIn(m) == less.rateIn(m)
  }

  /** Where a month stands once its finish-sooner extra payments are in. */
  ghost function Shortened(t: Terms, s: State, month: int): Position {
    var extra := t.extrasIn(month).GetOr(NO_EXTRAS);
    AfterExtra(AfterInstallment(MonthStart(t, s, month), month), extra.shorten, Shorten, month)
  }

  ghost function AfterShorten(t: Terms, month: int): Position
    requires month >= 1
  {
    Shortened(t, Run(t, month - 1), month)
  }

  /** A month pays at least as much, and spreads the balance anew only where `less` does or safely can. */
  ghost predicate PaysMoreFrom(more: Terms, less: Terms, s: State, month: int) {
    var m, l := more.extrasIn(month).GetOr(NO_EXTRAS), less.extrasIn(month).GetOr(NO_EXTRAS);
    && 0.0 <= l.shorten <= m.shorten && 0.0 <= l.lower <= m.lower
    && (m.lower > 0.0 && l.lower == 0.0 && s.balance > 0.0 ==> SpreadsSafely(less, Shortened(less, s, month), month))
  }

  ghost predicate MonthPaysMore(more: Terms, less: Terms, month: int)
    requires month >= 1
  {
    PaysMoreFrom(more, less, Run(less, month - 1), month)
  }

  ghost predicate PaysMore(more: Terms, less: Terms) {
    SameLoan(more, less) && forall m: int :: 1 <= m <= MAX_TERM_MONTHS ==> MonthPaysMore(more, less, m)
  }

  function PositionOf(s: State): Position
    requires s.plan.Some?
  {
    Position(s.balance, s.plan.value, s.outOfReachSince)
  }

  ghost predicate AheadStates(t: Terms, more: State, less: State, month: int) {
    && more.balance <= less.balance
    && (more.balance > 0.0 && more.plan.Some? ==>
          less.plan.Some? && Near(t, PositionOf(more), PositionOf(less), month))
  }

  /** From positions ahead at its start, a month stays ahead up to its pay-less payments. */
  lemma {:induction false} MonthKeepsAhead(more: Terms, less: Terms, s1: State, s: State, month: int)
    requires 1 <= month && SameLoan(more, less) && PaysMoreFrom(more, less, s, month)
    requires CarriedState(more, s1, month - 1) && CarriedState(less, s, month - 1)
    requires 0.0 < s1.balance <= s.balance && Ahead(MonthStart(less, s1, month), MonthStart(less, s, month))
    ensures Ahead(Shortened(more, s1, month), Shortened(less, s, month))
    ensures Carried(Shortened(more, s1, month), month) && Carried(Shortened(less, s, month), month)
  {
    hide AtRate, AfterInstallment, AfterExtra, RowOf, ExtraPaid, SpreadsSafely, Ahead, Carried;
    assert more.rateIn(month) == less.rateIn(month);
    StartPayable(more, s1, month);
    StartPayable(less, s, month);
    var due1, due := MonthStart(more, s1, month), MonthStart(less, s, month);
    InstallmentKeepsAhead(due1, due, month);
    InstallmentCarries(due1, month);
    InstallmentCarries(due, month);
    var paid1, paid := AfterInstallment(due1, month), AfterInstallment(due, month);
    var x1, x := more.extrasIn(month).GetOr(NO_EXTRAS), less.extrasIn(month).GetOr(NO_EXTRAS);
    ExtraKeepsAhead(paid1, paid, x1.shorten, x.shorten, Shorten, month);
    ExtraCarries(paid1, x1.shorten, Shorten, month);
    ExtraCarries(paid, x.shorten, Shorten, month);
  }

  /** A month is its start, its finish-sooner payments, its pay-less ones. */
  lemma {:induction false} StepIsLowered(t: Terms, s: State, month: int)
    ensures var next := MonthStep(t, s, month);
            var x := t.extrasIn(month).GetOr(NO_EXTRAS);
            next.plan.Some? && PositionOf(next) == AfterExtra(Shortened(t, s, month), x.lower, Lower, month)
  {
    hide AtRate, AfterInstallment, AfterExtra, RowOf;
  }

  lemma {:induction false} StepFromAhead(more: Terms, less: Terms, s1: State, s: State, month: int)
    requires 1 <= month && SameLoan(more, less) && PaysMoreFrom(more, less, s, month)
    requires CarriedState(more, s1, month - 1) && CarriedState(less, s, month - 1)
    requires 0.0 < s1.balance <= s.balance && Ahead(MonthStart(less, s1, month), MonthStart(less, s, month))
    ensures AheadStates(less, MonthStep(more, s1, month), MonthStep(less, s, month), month)
  {
    MonthKeepsAhead(more, less, s1, s, month);
    StepIsLowered(more, s1, month);
    StepIsLowered(less, s, month);
    var x1, x := more.extrasIn(month).GetOr(NO_EXTRAS), less.extrasIn(month).GetOr(NO_EXTRAS);
    LowerKeepsNear(less, Shortened(more, s1, month), Shortened(less, s, month), x1.lower, x.lower, month);
    hide MonthStep, Shortened, Near, Ahead, Carried, AfterExtra, SpreadsSafely, CarriedState;
  }

  /** Spread anew or not, a balance at a new rate is spread at that rate. */
  lemma {:induction false} NewRateForgets(t: Terms, s: State, month: int)
    requires s.plan.Some? && !t.keepInstallment && t.rateIn(month) != s.plan.value.rate
    ensures MonthStart(t, StateAt(Respread(PositionOf(s), month - 1)), month) == MonthStart(t, s, month)
  {
    hide AnnuityPayment;
  }

  lemma {:induction false} RespreadCarries(t: Terms, s: State, k: int)
    requires k > 0 && CarriedState(t, s, k) && s.balance > 0.0
    ensures CarriedState(t, StateAt(Respread(PositionOf(s), k)), k)
  {
    hide AnnuityPayment;
    AnnuityNonNegative(s.balance, s.plan.value.rate, s.plan.value.endMonth.Plus(-k));
  }

  lemma {:induction false} StepKeepsAhead(more: Terms, less: Terms, s1: State, s: State, month: int)
    requires 1 <= month && SameLoan(more, less) && PaysMoreFrom(more, less, s, month)
    requires CarriedState(more, s1, month - 1) && CarriedState(less, s, month - 1)
    requires s1.balance > 0.0 && AheadStates(less, s1, s, month - 1)
    ensures AheadStates(less, MonthStep(more, s1, month), MonthStep(less, s, month), month)
  {
    hide MonthStep, PaysMoreFrom, Carried, AtRate, AfterExtraPayment, Full;
    if month == 1 || Ahead(PositionOf(s1), PositionOf(s)) {
      RateKeepsAhead(less, s1, s, month);
      StepFromAhead(more, less, s1, s, month);
    } else {
      var spread := StateAt(Respread(PositionOf(s), month - 1));
      RespreadCarries(less, s, month - 1);
      RateKeepsAhead(less, s1, spread, month);
      if less.rateIn(month) != s.plan.value.rate {
        NewRateForgets(less, s, month);
        StepFromAhead(more, less, s1, s, month);
      } else {
        StepWhenRepaid(more, less, s1, s, spread, month);
      }
    }
    hide MonthStep, PaysMoreFrom, Near, Carried;
  }

  /** Where the loan spread anew is repaid in the month, so is a run ahead of it. */
  lemma {:induction false} StepWhenRepaid(more: Terms, less: Terms, s1: State, s: State, spread: State, month: int)
    requires 1 <= month && SameLoan(more, less) && PaysMoreFrom(more, less, s, month)
    requires CarriedState(more, s1, month - 1) && CarriedState(less, spread, month - 1)
    requires CarriedState(less, s, month - 1) && s.balance > 0.0
    requires 0.0 < s1.balance <= spread.balance && Ahead(MonthStart(less, s1, month), MonthStart(less, spread, month))
    requires MonthStep(less, spread, month).balance <= 0.0
    ensures AheadStates(less, MonthStep(more, s1, month), MonthStep(less, s, month), month)
  {
    StepCarries(less, s, month);
    var x := less.extrasIn(month).GetOr(NO_EXTRAS);
    if x.lower == 0.0 {
      StepIsLowered(less, spread, month);
      assert Full(Shortened(less, spread, month), month) by {
        assert AfterExtra(Shortened(less, spread, month), 0.0, Lower, month) == Shortened(less, spread, month);
      }
    }
    assert PaysMoreFrom(more, less, spread, month);
    StepFromAhead(more, less, s1, spread, month);
    hide MonthStep, PaysMoreFrom, Near, Carried;
  }

  /** The run that pays more is ahead after every month. */
  lemma {:induction false} RunAhead(more: Terms, less: Terms, k: nat)
    requires PaysMore(more, less) && k <= MAX_TERM_MONTHS
    ensures AheadStates(less, Run(more, k), Run(less, k), k)
  {
    hide MonthStep;
    if k == 0 {
    } else {
      RunAhead(more, less, k - 1);
      RunCarries(more, k - 1);
      RunCarries(less, k - 1);
      RunCarries(more, k);
      RunCarries(less, k);
      var s1, s := Run(more, k - 1), Run(less, k - 1);
      if s1.balance > 0.0 {
        assert MonthPaysMore(more, less, k);
        StepKeepsAhead(more, less, s1, s, k);
      }
    }
  }

  /** The run that pays more has been charged no more interest after any number of months. */
  lemma {:induction false} InterestAhead(more: Terms, less: Terms, k: nat)
    requires PaysMore(more, less) && k <= MAX_TERM_MONTHS
    ensures Interests(Run(more, k).rows) <= Interests(Run(less, k).rows)
  {
    if k == 0 {
    } else {
      hide *;
      InterestAhead(more, less, k - 1);
      MonthInterestAhead(more, less, k);
    }
  }

  lemma {:induction false} MonthInterestAhead(more: Terms, less: Terms, k: nat)
    requires PaysMore(more, less) && 1 <= k <= MAX_TERM_MONTHS
    ensures Interests(Run(more, k).rows) - Interests(Run(more, k - 1).rows)
            <= Interests(Run(less, k).rows) - Interests(Run(less, k - 1).rows)
  {
    hide Run, Interests, AheadStates;
    RunAhead(more, less, k - 1);
    NoMoreOwed(less, Run(more, k - 1), Run(less, k - 1), k - 1);
    assert more.rateIn(k) == less.rateIn(k);
    NoMoreCharged(more, less, k);
  }

  /** At one rate, a month that begins with no more owed charges no more. */
  lemma {:induction false} NoMoreCharged(more: Terms, less: Terms, k: nat)
    requires SoundTerms(more) && SoundTerms(less) && 1 <= k <= MAX_TERM_MONTHS
    requires more.rateIn(k) == less.rateIn(k) && Run(more, k - 1).balance <= Run(less, k - 1).balance
    ensures Interests(Run(more, k).rows) - Interests(Run(more, k - 1).rows)
            <= Interests(Run(less, k).rows) - Interests(Run(less, k - 1).rows)
  {
    hide *;
    var r := MonthlyRate(less.rateIn(k));
    var b1, b := Run(more, k - 1).balance, Run(less, k - 1).balance;
    MonthInterest(more, k, b1, r);
    MonthInterest(less, k, b, r);
    ScaleUp(b1, b, r);
  }

  lemma {:induction false} NoMoreOwed(t: Terms, more: State, less: State, month: int)
    requires AheadStates(t, more, less, month)
    ensures more.balance <= less.balance
  {
  }

  /** A month charges its rate on what was owed before it, and nothing once the loan is repaid. */
  lemma {:induction false} MonthInterest(t: Terms, k: nat, before: real, r: Rate)
    requires SoundTerms(t) && 1 <= k <= MAX_TERM_MONTHS
    requires before == Run(t, k - 1).balance && r == MonthlyRate(t.rateIn(k))
    ensures before >= 0.0
    ensures Interests(Run(t, k).rows)
            == Interests(Run(t, k - 1).rows) + before * r
  {
    hide *;
    RunCarries(t, k - 1);
    NotNegativeState(t, Run(t, k - 1), k - 1);
    RunStep(t, k);
    NothingOwedStops(Run(t, k - 1), k, t.term);
    if before > 0.0 {
      StepAddsRow(t, k);
      RowMeaning(t, k);
      InterestsWith(Run(t, k - 1).rows, RowFor(t, k));
    } else {
      assert before * r == 0.0;
    }
  }

  lemma {:induction false} InterestsWith(rows: seq<ScheduleRow>, row: ScheduleRow)
    ensures Interests(rows + [row]) == Interests(rows) + row.interest
  {
    assert (rows + [row])[..|rows|] == rows;
  }

  lemma {:induction false} NotNegativeState(t: Terms, s: State, k: nat)
    requires CarriedState(t, s, k)
    ensures s.balance >= 0.0
  {
  }

  lemma {:induction false} NothingOwedStops(s: State, month: int, term: int)
    ensures s.balance <= 0.0 ==> !Continues(s, month, term)
  {
  }

  lemma {:induction false} OutOfReachAhead(more: Terms, less: Terms, k: nat)
    requires PaysMore(more, less) && k <= MAX_TERM_MONTHS
    requires Run(more, k).balance > 0.0 && OutOfReach(more, k)
    ensures OutOfReach(less, k)
  {
    hide MonthStep;
    RunAhead(more, less, k);
    RunCarries(more, k);
    RunCarries(less, k);
  }

  // ---- Loans as they are stored ----

  /** The same payment, or the same month and mode with at least the amount. */
  ghost predicate Enlarges(more: LoanPrepayment, less: LoanPrepayment) {
    || more == less
    || (more.month == less.month && more.mode == less.mode
        && more.amount.Payable() && less.amount.Payable() && less.amount.value <= more.amount.value)
  }

  ghost predicate EnlargesRule(more: LoanExtraRule, less: LoanExtraRule) {
    || more == less
    || (more.everyMonths == less.everyMonths && more.fromMonth == less.fromMonth
        && more.toMonth == less.toMonth && more.mode == less.mode
        && more.amount.Payable() && less.amount.Payable() && less.amount.value <= more.amount.value)
  }

  /**
   * `more` is `less` with extra payments enlarged, dated or repeating and of either mode, and
   * finish-sooner ones, or any, added.
   */
  ghost predicate AddsExtras(more: LoanInput, less: LoanInput, anyMode: bool) {
    && more == less.(prepayments := more.prepayments, extraRules := more.extraRules)
    && |less.prepayments| <= |more.prepayments|
    && (forall i :: 0 <= i < |less.prepayments| ==> Enlarges(more.prepayments[i], less.prepayments[i]))
    && (forall i :: |less.prepayments| <= i < |more.prepayments| ==> anyMode || more.prepayments[i].mode == Shorten)
    && |less.extraRules| <= |more.extraRules|
    && (forall i :: 0 <= i < |less.extraRules| ==> EnlargesRule(more.extraRules[i], less.extraRules[i]))
    && (forall i :: |less.extraRules| <= i < |more.extraRules| ==> anyMode || more.extraRules[i].mode == Shorten)
  }

  lemma {:induction false} DatedAtLeast(more: seq<LoanPrepayment>, less: seq<LoanPrepayment>, month: int, anyMode: bool)
    requires |less| <= |more|
    requires forall i :: 0 <= i < |less| ==> Enlarges(more[i], less[i])
    requires forall i :: |less| <= i < |more| ==> anyMode || more[i].mode == Shorten
    ensures PaysAtLeast(DatedIn(more, month), DatedIn(less, month), anyMode)
    decreases |more|
  {
    if more == [] {
    } else {
      var front := more[..|more| - 1];
      if |less| == |more| {
        DatedAtLeast(front, less[..|less| - 1], month, anyMode);
      } else {
        DatedAtLeast(front, less, month, anyMode);
      }
    }
  }

  /** A month's extra payments with one more stored rule listed. */
  function WithRule(rest: Option<MonthExtras>, rule: LoanExtraRule, month: int): Option<MonthExtras> {
    if UsableRule(rule) && RuleOf(rule).Due(month)
    then Some(rest.GetOr(NO_EXTRAS).Add(rule.mode, rule.amount.value, rule.note))
    else rest
  }

  lemma {:induction false} DueStep(own: Option<MonthExtras>, list: seq<LoanExtraRule>, month: int)
    requires list != []
    ensures DueIn(own, UsableRules(list), month)
            == WithRule(DueIn(own, UsableRules(list[..|list| - 1]), month), list[|list| - 1], month)
  {
    var all, front := UsableRules(list), UsableRules(list[..|list| - 1]);
    if UsableRule(list[|list| - 1]) {
      assert all[..|all| - 1] == front;
    } else {
      assert all == front;
    }
  }

  lemma {:induction false} WithRuleAtLeast(more: Option<MonthExtras>, less: Option<MonthExtras>, rule1: LoanExtraRule,
                        rule: LoanExtraRule, month: int, anyMode: bool)
    requires PaysAtLeast(more, less, anyMode)
    ensures EnlargesRule(rule1, rule) ==>
              PaysAtLeast(WithRule(more, rule1, month), WithRule(less, rule, month), anyMode)
    ensures anyMode || rule1.mode == Shorten ==> PaysAtLeast(WithRule(more, rule1, month), less, anyMode)
  {
    if EnlargesRule(rule1, rule) {
      SameTiming(rule1, rule, month);
      if UsableRule(rule1) {
        AddAtLeast(more, less, rule1.mode, rule1.amount.value, rule.amount.value, rule1.note, rule.note, anyMode);
      }
    }
    if UsableRule(rule1) {
      AddAtLeast(more, less, rule1.mode, rule1.amount.value, rule1.amount.value, rule1.note, rule1.note, anyMode);
    }
  }

  lemma {:induction false} SameTiming(more: LoanExtraRule, less: LoanExtraRule, month: int)
    requires EnlargesRule(more, less)
    ensures UsableRule(more) == UsableRule(less)
    ensures UsableRule(more) ==>
              && RuleOf(more).Due(month) == RuleOf(less).Due(month)
              && 0.0 < less.amount.value <= more.amount.value
  {
  }

  lemma {:induction false} AddAtLeast(more: Option<MonthExtras>, less: Option<MonthExtras>, mode: ExtraMode, x1: real,
                                      x: real, note1: string, note: string, anyMode: bool)
    requires PaysAtLeast(more, less, anyMode) && 0.0 < x <= x1
    ensures PaysAtLeast(Some(more.GetOr(NO_EXTRAS).Add(mode, x1, note1)),
                        Some(less.GetOr(NO_EXTRAS).Add(mode, x, note)), anyMode)
    ensures anyMode || mode == Shorten ==>
              PaysAtLeast(Some(more.GetOr(NO_EXTRAS).Add(mode, x1, note1)), less, anyMode)
  {
  }

  lemma {:induction false} DueAtLeast(own1: Option<MonthExtras>, own: Option<MonthExtras>,
                                      more: seq<LoanExtraRule>, less: seq<LoanExtraRule>, month: int,
                                      anyMode: bool)
    requires PaysAtLeast(own1, own, anyMode)
    requires |less| <= |more|
    requires forall i :: 0 <= i < |less| ==> EnlargesRule(more[i], less[i])
    requires forall i :: |less| <= i < |more| ==> anyMode || more[i].mode == Shorten
    ensures PaysAtLeast(DueIn(own1, UsableRules(more), month), DueIn(own, UsableRules(less), month), anyMode)
    decreases |more|
  {
    hide DueIn, UsableRules, WithRule, PaysAtLeast, EnlargesRule;
    if more == [] {
      NoRules(own1, month);
      NoRules(own, month);
    } else {
      var n := |more| - 1;
      DueStep(own1, more, month);
      if |less| == |more| {
        DueStep(own, less, month);
        DueAtLeast(own1, own, more[..n], less[..n], month, anyMode);
        WithRuleAtLeast(DueIn(own1, UsableRules(more[..n]), month), DueIn(own, UsableRules(less[..n]), month),
                        more[n], less[n], month, anyMode);
      } else {
        DueAtLeast(own1, own, more[..n], less, month, anyMode);
        WithRuleAtLeast(DueIn(own1, UsableRules(more[..n]), month), DueIn(own, UsableRules(less), month),
                        more[n], more[n], month, anyMode);
      }
    }
  }

  lemma {:induction false} ExtrasAtLeast(more: LoanInput, less: LoanInput, month: int, anyMode: bool)
    requires AddsExtras(more, less, anyMode)
    ensures PaysAtLeast(ExtrasAt(more, month), ExtrasAt(less, month), anyMode)
  {
    hide DatedIn, DueIn, UsableRules, PaysAtLeast;
    DatedAtLeast(more.prepayments, less.prepayments, month, anyMode);
    DueAtLeast(DatedIn(more.prepayments, month), DatedIn(less.prepayments, month),
               more.extraRules, less.extraRules, month, anyMode);
  }

  lemma {:induction false} SameTerms(more: LoanInput, less: LoanInput, anyMode: bool)
    requires Usable(less) && RatesUsable(less) && AddsExtras(more, less, anyMode)
    ensures Usable(more) && RatesUsable(more)
    ensures SameLoan(TermsOf(more), TermsOf(less))
  {
    hide RateAt;
    RatesReadAlone(less, more);
  }

  lemma {:induction false} TermsPayMore(more: LoanInput, less: LoanInput)
    requires Usable(less) && RatesUsable(less) && AddsExtras(more, less, false)
    ensures Usable(more) && RatesUsable(more)
    ensures PaysMore(TermsOf(more), TermsOf(less))
  {
    hide AddsExtras, SameLoan, ExtrasAt, Run, RateAt;
    SameTerms(more, less, false);
    forall m: int | 1 <= m <= MAX_TERM_MONTHS
      ensures MonthPaysMore(TermsOf(more), TermsOf(less), m)
    {
      ExtrasAtLeast(more, less, m, false);
    }
  }

  /**
   * `more` owes no more than `less` after every month, ends no later and is charged no more
   * interest; and its never-repaid verdict, if it has one, comes no sooner.
   */
  ghost predicate NoWorse(more: LoanInput, less: LoanInput)
    requires Usable(more) && RatesUsable(more) && Usable(less) && RatesUsable(less)
  {
    var a1, a := Amortization(more), Amortization(less);
    && (forall k :: 0 <= k <= |a1.rows| && k <= |a.rows| ==>
          OwedAfter(more, a1.rows, k) <= OwedAfter(less, a.rows, k))
    && (a.neverPaysOffFrom.None? ==>
          && a1.neverPaysOffFrom.None?
          && |a1.rows| <= |a.rows|
          && Interests(a1.rows) <= Interests(a.rows))
    && (a1.neverPaysOffFrom.Some? ==>
          a.neverPaysOffFrom.Some? && a.neverPaysOffFrom.value <= a1.neverPaysOffFrom.value)
  }

  /** Paying more, month by month, leaves a loan no worse. */
  lemma {:induction false} PaysMoreNoWorse(more: LoanInput, less: LoanInput)
    requires Usable(less) && RatesUsable(less) && Usable(more) && RatesUsable(more)
    requires PaysMore(TermsOf(more), TermsOf(less))
    ensures NoWorse(more, less)
  {
    hide MonthStep, AheadStates, PaysMore, Amortization, OutOfReach, TermsOf;
    forall k | 0 <= k <= |Amortization(more).rows| && k <= |Amortization(less).rows|
      ensures OwedAfter(more, Amortization(more).rows, k) <= OwedAfter(less, Amortization(less).rows, k)
    {
      AnswerRows(more, k);
      AnswerRows(less, k);
      RunAhead(TermsOf(more), TermsOf(less), k);
      NoMoreOwed(TermsOf(less), Run(TermsOf(more), k), Run(TermsOf(less), k), k);
    }
    VerdictAhead(more, less);
    if Amortization(less).neverPaysOffFrom.None? {
      RepaidAhead(more, less);
    }
  }

  /**
   * An extra payment never hurts. Whatever the rates, the rate-change option and the extra payments
   * a loan already has, adding finish-sooner payments to it, or enlarging any of its own, leaves it
   * no worse.
   */
  lemma {:induction false} ExtraNeverHurts(more: LoanInput, less: LoanInput)
    requires Usable(less) && RatesUsable(less) && AddsExtras(more, less, false)
    ensures Usable(more) && RatesUsable(more)
    ensures NoWorse(more, less)
  {
    hide AddsExtras, PaysMore, NoWorse, TermsOf;
    TermsPayMore(more, less);
    PaysMoreNoWorse(more, less);
  }

  lemma {:induction false} VerdictAhead(more: LoanInput, less: LoanInput)
    requires Usable(less) && RatesUsable(less) && Usable(more) && RatesUsable(more)
    requires PaysMore(TermsOf(more), TermsOf(less))
    ensures var from1, from := Amortization(more).neverPaysOffFrom, Amortization(less).neverPaysOffFrom;
            from1.Some? ==> from.Some? && from.value <= from1.value
  {
    hide MonthStep, AheadStates, PaysMore, Amortization, OutOfReach, TermsOf;
    var t1, t := TermsOf(more), TermsOf(less);
    VerdictExact(more);
    VerdictExact(less);
    RunAhead(t1, t, MAX_TERM_MONTHS);
    NoMoreOwed(t, Run(t1, MAX_TERM_MONTHS), Run(t, MAX_TERM_MONTHS), MAX_TERM_MONTHS);
    var from1, from := Amortization(more).neverPaysOffFrom, Amortization(less).neverPaysOffFrom;
    if from1.Some? && from.value > from1.value {
      var k := from.value - 1;
      StillOwes(t1, k, MAX_TERM_MONTHS);
      assert OutOfReach(t1, k);
      OutOfReachAhead(t1, t, k);
      assert false;
    }
  }

  lemma {:induction false} StillOwes(t: Terms, j: nat, k: nat)
    requires j <= k && Run(t, k).balance > 0.0
    ensures Run(t, j).balance > 0.0
  {
    if Run(t, j).balance <= 0.0 {
      StaysRepaid(t, j, k);
    }
  }

  lemma {:induction false} RepaidAhead(more: LoanInput, less: LoanInput)
    requires Usable(less) && RatesUsable(less) && Usable(more) && RatesUsable(more)
    requires PaysMore(TermsOf(more), TermsOf(less))
    requires Amortization(less).neverPaysOffFrom.None? && Amortization(more).neverPaysOffFrom.None?
    ensures |Amortization(more).rows| <= |Amortization(less).rows|
    ensures Interests(Amortization(more).rows) <= Interests(Amortization(less).rows)
  {
    var t1, t := TermsOf(more), TermsOf(less);
    assert SoundTerms(t1) && SoundTerms(t);
    hide MonthStep, AheadStates, PaysMore, OutOfReach, TermsOf, RowFor;
    SinceInRange(t1, MAX_TERM_MONTHS);
    SinceInRange(t, MAX_TERM_MONTHS);
    InterestAhead(t1, t, MAX_TERM_MONTHS);
    var n := |Amortization(less).rows|;
    RowsOfRun(t, MAX_TERM_MONTHS);
    RowsOfRun(t1, MAX_TERM_MONTHS);
    assert Run(t, n) == Run(t, MAX_TERM_MONTHS);
    RunAhead(t1, t, n);
    NoMoreOwed(t, Run(t1, n), Run(t, n), n);
  }
}
