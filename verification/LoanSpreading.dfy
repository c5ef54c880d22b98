/**
 * Exactly when an added pay-less payment can cost interest under keep-term
 * (shared/loanSchedule.ts). Spreading the balance anew over the months left lowers an installment
 * that is above the annuity installment by more than a small payment is worth.
 */
module LoanSpreading {
  import opened Basics
  import opened Annuity
  import opened LoanSchedule
  import opened LoanInvariants
  import opened LoanRepayment
  import opened LoanMonotonicity
  import opened LoanOnward

  /** The loan with one more pay-less payment, listed last. */
  function WithPayLess(loan: LoanInput, month: int, amount: real): (more: LoanInput)
    ensures Usable(loan) == Usable(more) && (RatesUsable(loan) ==> RatesUsable(more))
  {
    loan.(prepayments := loan.prepayments + [LoanPrepayment(Finite(month as real), Finite(amount), "", Lower)])
  }

  // ---- The same loan, one pay-less payment apart ----

  function LowerIn(t: Terms, month: int): real {
    t.extrasIn(month).GetOr(NO_EXTRAS).lower
  }

  ghost predicate ExtrasNotNegative(t: Terms) {
    forall k: int :: ExtrasNotNegativeIn(t, k)
  }

  /** `more` is `less` with `x` more paid in the month, to pay less each month. */
  ghost predicate PaysLowerMore(more: Terms, less: Terms, month: int, x: real) {
    && SameLoan(more, less) && more.start == less.start && ExtrasNotNegative(less)
    && 1 <= month && x > 0.0
    && (forall k: int :: k != month ==> more.extrasIn(k) == less.extrasIn(k))
    && more.extrasIn(month).GetOr(NO_EXTRAS).shorten == less.extrasIn(month).GetOr(NO_EXTRAS).shorten
    && LowerIn(more, month) == LowerIn(less, month) + x
  }

  lemma {:induction false} DueWithLower(own1: Option<MonthExtras>, own: Option<MonthExtras>, rules: seq<Rule>,
                                        month: int, x: real)
    requires WellFormedRules(rules)
    requires own1.GetOr(NO_EXTRAS).shorten == own.GetOr(NO_EXTRAS).shorten
    requires own1.GetOr(NO_EXTRAS).lower == own.GetOr(NO_EXTRAS).lower + x
    ensures var all1, all := DueIn(own1, rules, month).GetOr(NO_EXTRAS), DueIn(own, rules, month).GetOr(NO_EXTRAS);
            all1.shorten == all.shorten && all1.lower == all.lower + x
  {
    if rules == [] {
    } else {
      DueWithLower(own1, own, rules[..|rules| - 1], month, x);
      hide DueIn;
      LoanExtras.OneMoreRule(own1, rules, month);
      LoanExtras.OneMoreRule(own, rules, month);
    }
  }

  lemma {:induction false} ExtrasWithPayLess(loan: LoanInput, month: int, x: real, k: int)
    requires 1 <= month && x > 0.0
    ensures k != month ==> ExtrasAt(WithPayLess(loan, month, x), k) == ExtrasAt(loan, k)
    ensures k == month ==>
              var all1 := ExtrasAt(WithPayLess(loan, month, x), k).GetOr(NO_EXTRAS);
              var all := ExtrasAt(loan, k).GetOr(NO_EXTRAS);
              all1.shorten == all.shorten && all1.lower == all.lower + x
  {
    var p := LoanPrepayment(Finite(month as real), Finite(x), "", Lower);
    LoanExtras.OneMoreListed(loan.prepayments, p, k);
    assert UsablePrepayment(p);
    hide DatedIn, DueIn, UsableRules;
    if k == month {
      DueWithLower(DatedIn(loan.prepayments + [p], k), DatedIn(loan.prepayments, k), UsableRules(loan.extraRules), k,
                   x);
    }
  }

  lemma {:induction false} PayLessTerms(loan: LoanInput, month: int, x: real)
    requires Usable(loan) && RatesUsable(loan) && 1 <= month && x > 0.0
    ensures Usable(WithPayLess(loan, month, x)) && RatesUsable(WithPayLess(loan, month, x))
    ensures PaysLowerMore(TermsOf(WithPayLess(loan, month, x)), TermsOf(loan), month, x)
  {
    hide RateAt, ExtrasAt;
    var more := WithPayLess(loan, month, x);
    RatesReadAlone(loan, more);
    forall k: int
      ensures ExtrasNotNegativeIn(TermsOf(loan), k)
    {
      ExtrasAtLeast(loan, loan, k, true);
    }
    forall k: int
      ensures k != month ==> ExtrasAt(more, k) == ExtrasAt(loan, k)
    {
      ExtrasWithPayLess(loan, month, x, k);
    }
    ExtrasWithPayLess(loan, month, x, month);
  }

  /** Up to the month's pay-less payments the two runs are one. */
  lemma {:induction false} SameBefore(more: Terms, less: Terms, month: int, x: real)
    requires PaysLowerMore(more, less, month, x)
    ensures Run(more, month - 1) == Run(less, month - 1)
    ensures AfterShorten(more, month) == AfterShorten(less, month)
  {
    hide Run, AtRate, AfterInstallment, AfterExtra, ExtrasNotNegative;
    LoanExtras.SameRun(more, less, month - 1);
    assert more.rateIn(month) == less.rateIn(month);
  }

  // ---- Where it never hurts ----

  lemma {:induction false} SafeNeverHurts(more: Terms, less: Terms, month: int, x: real)
    requires PaysLowerMore(more, less, month, x)
    requires LowerIn(less, month) > 0.0 || SpreadsSafely(less, AfterShorten(less, month), month)
    ensures PaysMore(more, less)
  {
    hide Run, SpreadsSafely, Shortened;
    forall k: int | 1 <= k <= MAX_TERM_MONTHS
      ensures MonthPaysMore(more, less, k)
    {
      assert ExtrasNotNegativeIn(less, k);
      assert k != month ==> more.extrasIn(k) == less.extrasIn(k);
    }
  }

  /** After the month the two runs stand where its pay-less payments leave them. */
  lemma {:induction false} AfterMonth(t: Terms, month: int)
    requires SoundTerms(t) && 1 <= month <= MAX_TERM_MONTHS && Run(t, month - 1).balance > 0.0
    ensures var s := Run(t, month);
            && s.plan.Some?
            && PositionOf(s) == AfterExtra(AfterShorten(t, month), LowerIn(t, month), Lower, month)
  {
    hide MonthStep, AfterExtra, Shortened;
    RunCarries(t, month - 1);
    RunStep(t, month);
    StepIsLowered(t, Run(t, month - 1), month);
  }

  lemma {:induction false} ShortenedOwes(t: Terms, month: int)
    requires SoundTerms(t) && 1 <= month <= MAX_TERM_MONTHS && Run(t, month - 1).balance > 0.0
    ensures Carried(AfterShorten(t, month), month)
    ensures AfterShorten(t, month).plan.rate == t.rateIn(month)
  {
    hide Run, AtRate, AfterInstallment, AfterExtra;
    RunCarries(t, month - 1);
    var s := Run(t, month - 1);
    StartPayable(t, s, month);
    InstallmentCarries(MonthStart(t, s, month), month);
    InstallmentKeepsPlan(MonthStart(t, s, month), month);
    var x := t.extrasIn(month).GetOr(NO_EXTRAS);
    ExtraCarries(AfterInstallment(MonthStart(t, s, month), month), x.shorten, Shorten, month);
  }

  /** The month itself charges both runs the same. */
  lemma {:induction false} InterestsAtMonth(more: Terms, less: Terms, month: int)
    requires SoundTerms(more) && SoundTerms(less) && 1 <= month <= MAX_TERM_MONTHS
    requires Run(more, month - 1) == Run(less, month - 1) && more.rateIn(month) == less.rateIn(month)
    ensures Interests(Run(more, month).rows) == Interests(Run(less, month).rows)
  {
    hide Run, Interests;
    var b, r := Run(less, month - 1).balance, MonthlyRate(less.rateIn(month));
    MonthInterest(more, month, b, r);
    MonthInterest(less, month, b, r);
  }

  /** Something is owed after the month's installment and its finish-sooner payments. */
  ghost predicate StillOwing(t: Terms, month: int) {
    1 <= month <= MAX_TERM_MONTHS && Run(t, month - 1).balance > 0.0 && AfterShorten(t, month).balance > 0.0
  }

  /** The loan after month k, had its balance been spread anew in the month with nothing paid for it. */
  ghost function SpreadAnew(t: Terms, month: int, k: int): State
    requires 1 <= month <= k
  {
    Onward(t, StateAt(Respread(AfterShorten(t, month), month)), month, k)
  }

  /** Spread anew, the loan owes nothing before any month that charges interest, from two months on. */
  ghost predicate NothingCharged(t: Terms, month: int)
    requires 1 <= month
  {
    forall j: int :: j >= month + 2 && t.rateIn(j) > 0.0 ==> SpreadAnew(t, month, j - 1).balance <= 0.0
  }

  lemma {:induction false} SpreadUnderway(t: Terms, month: int)
    requires SoundTerms(t) && !t.keepInstallment && StillOwing(t, month)
    ensures var s := StateAt(Respread(AfterShorten(t, month), month));
            Underway(t, s, month) && s.balance > 0.0
  {
    hide Run, Shortened, AnnuityPayment, Owing;
    ShortenedOwes(t, month);
    OwesWithinTerm(t, month);
    var p := AfterShorten(t, month);
    AnnuityNonNegative(p.balance, p.plan.rate, p.plan.endMonth.Plus(-month));
    SpreadOnCourse(p.balance, p.plan.rate, p.plan.endMonth, month);
  }

  /** The loan with the payment is ahead of it spread anew for nothing. */
  lemma {:induction false} PaidIsAhead(more: Terms, less: Terms, month: int, x: real)
    requires PaysLowerMore(more, less, month, x) && StillOwing(less, month) && LowerIn(less, month) == 0.0
    ensures var s1, s := Run(more, month), StateAt(Respread(AfterShorten(less, month), month));
            && s1.plan.Some? && PositionOf(s1) == AfterExtra(AfterShorten(less, month), x, Lower, month)
            && s1.balance <= s.balance && Ahead(PositionOf(s1), PositionOf(s))
  {
    hide Run, AfterExtra, Shortened, Ahead, AfterExtraPayment;
    SameBefore(more, less, month, x);
    AfterMonth(more, month);
    ShortenedOwes(less, month);
    var p := AfterShorten(less, month);
    AheadOfItself(p);
    SpreadAhead(p, p, x, month);
    ExtraOwesNoMore(p, x, Lower, month);
  }

  lemma {:induction false} AheadOfItself(p: Position)
    ensures Ahead(p, p)
  {
  }

  /** In every later month the loan with the payment owes no more than it would spread anew. */
  lemma {:induction false} PaidOwesNoMore(more: Terms, less: Terms, month: int, x: real, k: int)
    requires PaysLowerMore(more, less, month, x) && StillOwing(less, month) && LowerIn(less, month) == 0.0
    requires !less.keepInstallment && month <= k
    ensures Run(more, k).balance <= SpreadAnew(less, month, k).balance
  {
    hide Run, Onward, AfterExtra, Shortened, Ahead, Respread, Underway;
    PaidIsAhead(more, less, month, x);
    SpreadUnderway(less, month);
    RunUnderway(more, month);
    SameUnderway(more, less, Run(more, month), month);
    OnwardIsRun(less, more, month, k);
    StaysNoMore(less, Run(more, month), StateAt(Respread(AfterShorten(less, month), month)), month, k);
  }

  lemma {:induction false} SameUnderway(more: Terms, less: Terms, s: State, k: int)
    requires SameLoan(more, less) && Underway(more, s, k)
    ensures Underway(less, s, k)
  {
    hide OnCourse;
  }

  /** So where nothing is charged on that, the payment saves interest in the next month and costs none after it. */
  lemma {:induction false} NothingChargedNoMore(more: Terms, less: Terms, month: int, x: real, k: int)
    requires PaysLowerMore(more, less, month, x) && StillOwing(less, month) && LowerIn(less, month) == 0.0
    requires !less.keepInstallment && NothingCharged(less, month) && month <= k <= MAX_TERM_MONTHS
    ensures Interests(Run(more, k).rows) <= Interests(Run(less, k).rows)
    decreases k
  {
    hide Run, Interests, AfterExtra, Shortened, SpreadAnew, AfterShorten;
    assert forall i: int :: more.rateIn(i) == less.rateIn(i);
    if k == month {
      SameBefore(more, less, month, x);
      InterestsAtMonth(more, less, month);
    } else {
      NothingChargedNoMore(more, less, month, x, k - 1);
      var b1, b, r := Run(more, k - 1).balance, Run(less, k - 1).balance, MonthlyRate(less.rateIn(k));
      MonthInterest(more, k, b1, r);
      MonthInterest(less, k, b, r);
      if k == month + 1 {
        PaidOwesLess(more, less, month, x);
      } else {
        PaidOwesNoMore(more, less, month, x, k - 1);
        assert less.rateIn(k) > 0.0 ==> SpreadAnew(less, month, k - 1).balance <= 0.0;
      }
      hide *;
      NoMoreCharge(b1, b, less.rateIn(k), r);
    }
  }

  lemma {:induction false} NoMoreCharge(owed1: real, owed: real, rate: Rate, r: real)
    requires r == MonthlyRate(rate) && owed1 >= 0.0 && owed >= 0.0
    requires owed1 <= owed || (rate > 0.0 ==> owed1 <= 0.0)
    ensures owed1 * r <= owed * r
  {
    NoCharge(0.0, rate);
    if owed1 <= owed {
      hide MonthlyRate;
      ScaleUp(owed1, owed, r);
    } else {
      NoCharge(owed1, rate);
      hide MonthlyRate;
      ScaleUp(0.0, owed, r);
    }
  }

  lemma {:induction false} NoCharge(owed: real, rate: Rate)
    requires owed >= 0.0 && (rate > 0.0 ==> owed <= 0.0)
    ensures owed * MonthlyRate(rate) == 0.0
  {
    if rate > 0.0 {
      assert owed == 0.0;
    } else {
      assert MonthlyRate(rate) == 0.0;
    }
    hide MonthlyRate;
  }

  lemma {:induction false} PaidOwesLess(more: Terms, less: Terms, month: int, x: real)
    requires PaysLowerMore(more, less, month, x) && StillOwing(less, month) && LowerIn(less, month) == 0.0
    ensures Run(more, month).balance <= Run(less, month).balance
  {
    hide Run, Shortened, AfterExtraPayment;
    AfterMonth(less, month);
    PaidIsAhead(more, less, month, x);
  }

  // ---- Where a small payment hurts ----

  /** The installment is more than full and stays in force, and month j charges interest on the loan spread anew. */
  ghost predicate Costly(t: Terms, month: int, j: int) {
    && SoundTerms(t) && !t.keepInstallment && ExtrasNotNegative(t) && StillOwing(t, month)
    && LowerIn(t, month) == 0.0 && !Full(AfterShorten(t, month), month)
    && t.rateIn(month + 1) == AfterShorten(t, month).plan.rate
    && month + 2 <= j && t.rateIn(j) > 0.0 && SpreadAnew(t, month, j - 1).balance > 0.0
  }

  /** What a month leaves of a position, given its extra payments. */
  function AfterMonthAt(p: Position, extra: MonthExtras, month: int): Position {
    AfterExtras(AfterInstallment(p, month), extra, month)
  }

  /** Each unit paid takes 1 + r off what is owed a month later, and puts 1 / a(n) back. */
  function Gain(rate: Rate, n: nat): real
    requires n >= 1
  {
    FactorPositive(MonthlyRate(rate), n);
    1.0 + MonthlyRate(rate) - 1.0 / Factor(MonthlyRate(rate), n)
  }

  lemma {:induction false} GainNotNegative(r: Rate, n: nat, f: real, f0: real)
    requires n >= 1 && f == Factor(r, n) && f0 == Factor(r, n - 1) && f > 0.0
    ensures 1.0 + r - 1.0 / f >= 0.0
  {
    FactorPositive(r, n - 1);
    assert f * (1.0 + r) == 1.0 + f0;
    var q, i := 1.0 + r, 1.0 / f;
    assert i * f == 1.0;
    assert (q - i) * f >= 0.0;
  }

  lemma {:induction false} SpreadDifference(balance: real, paid: real, r: real, f: real, full: real, a: real)
    requires f > 0.0 && full * f == balance && a * f == balance - paid
    ensures (balance - paid) + (balance - paid) * r - a == balance + balance * r - full - paid * (1.0 + r - 1.0 / f)
    ensures paid >= 0.0 ==> a <= full
  {
    var i := 1.0 / f;
    assert i * f == 1.0;
    assert (full - a) * f == paid == (paid * i) * f;
    Cancel(full - a, paid * i, f);
    assert paid * (1.0 + r - i) == paid + paid * r - paid * i;
  }

  /** The installment of a balance less `x`, against that of the whole. */
  lemma {:induction false} SpreadOwes(balance: real, rate: Rate, n: nat, x: real)
    requires n >= 1 && x >= 0.0
    ensures var full, r := AnnuityPayment(balance, rate, Months(n)), MonthlyRate(rate);
            var a := AnnuityPayment(balance - x, rate, Months(n));
            && (balance - x) + (balance - x) * r - a == balance + balance * r - full - x * Gain(rate, n)
            && a <= full
    ensures Gain(rate, n) >= 0.0
  {
    var r := MonthlyRate(rate);
    var f := Factor(r, n);
    FactorPositive(r, n);
    GainNotNegative(r, n, f, Factor(r, n - 1));
    var full, a := AnnuityPayment(balance, rate, Months(n)), AnnuityPayment(balance - x, rate, Months(n));
    AnnuityRepays(balance, rate, n, f, full);
    AnnuityRepays(balance - x, rate, n, f, a);
    hide AnnuityPayment, Factor, MonthlyRate;
    SpreadDifference(balance, x, r, f, full, a);
  }

  /** The next installment: paid by the loan as it is, spread anew, and spread anew after `x` is paid. */
  lemma {:induction false} NextInstallments(p: Position, x: real, month: int)
    requires Carried(p, month) && 0.0 < x < p.balance - HALF_CENT && p.plan.endMonth.Months? && !Full(p, month)
    requires AfterInstallment(Respread(p, month), month + 1).balance > 0.0
    requires x * Gain(p.plan.rate, p.plan.endMonth.n - month)
             < AfterInstallment(Respread(p, month), month + 1).balance - HALF_CENT
    ensures var n := p.plan.endMonth.n - month;
            var full := AnnuityPayment(p.balance, p.plan.rate, Months(n));
            var asIs := AfterInstallment(p, month + 1);
            var spread := AfterInstallment(Respread(p, month), month + 1);
            var paid := AfterInstallment(AfterExtra(p, x, Lower, month), month + 1);
            && paid.balance == spread.balance - x * Gain(p.plan.rate, n)
            && (asIs.balance > 0.0 ==> asIs.balance == spread.balance - (p.plan.installment - full))
            && paid.plan.installment <= full < p.plan.installment
            && paid.plan.endMonth == p.plan.endMonth && paid.plan.rate == p.plan.rate
  {
    hide *;
    var n, r := p.plan.endMonth.n - month, MonthlyRate(p.plan.rate);
    NotFull(p, month);
    SmallLeavesOwed(p, x, month);
    RespreadIs(p, month);
    SpreadOwes(p.balance, p.plan.rate, n, x);
    InstallmentLeaves(p, month + 1, p.balance * r);
    InstallmentLeaves(Respread(p, month), month + 1, p.balance * r);
    InstallmentLeaves(AfterExtra(p, x, Lower, month), month + 1, (p.balance - x) * r);
  }

  lemma {:induction false} NotFull(p: Position, month: int)
    requires p.plan.endMonth.Months? && Carried(p, month) && !Full(p, month)
    ensures p.plan.endMonth.n > month && p.plan.endMonth.Plus(-month) == Months(p.plan.endMonth.n - month)
    ensures p.plan.installment > AnnuityPayment(p.balance, p.plan.rate, Months(p.plan.endMonth.n - month))
  {
    hide AnnuityPayment;
  }

  lemma {:induction false} RespreadIs(p: Position, month: int)
    requires p.plan.endMonth.Months?
    ensures var full := AnnuityPayment(p.balance, p.plan.rate, Months(p.plan.endMonth.n - month));
            Respread(p, month) == p.(plan := p.plan.(installment := full))
  {
    hide AnnuityPayment;
  }

  lemma {:induction false} SmallLeavesOwed(p: Position, x: real, month: int)
    requires 0.0 < x < p.balance - HALF_CENT && p.plan.endMonth.Months?
    ensures var n, small := p.plan.endMonth.n - month, AfterExtra(p, x, Lower, month);
            && small.balance == p.balance - x
            && small.plan == p.plan.(installment := AnnuityPayment(p.balance - x, p.plan.rate, Months(n)))
  {
    hide AnnuityPayment;
  }

  /** What is paid less, and what that leaves owed: room for a payment small enough to hurt. */
  ghost predicate Room(p: Position, extra: MonthExtras, month: int, x: real, d: real) {
    && Carried(p, month) && p.plan.endMonth.Months? && p.plan.endMonth.n > month
    && 0.0 < x < p.balance - HALF_CENT
    && extra.shorten >= 0.0 && extra.lower >= 0.0
    && d == x * Gain(p.plan.rate, p.plan.endMonth.n - month)
    && d < AfterMonthAt(Respread(p, month), extra, month + 1).balance - HALF_CENT
    && d < p.plan.installment - Respread(p, month).plan.installment
  }

  lemma {:induction false} RoomAfterInstallment(p: Position, extra: MonthExtras, month: int, x: real, d: real)
    requires Room(p, extra, month, x, d)
    ensures d >= 0.0 && !Full(p, month)
    ensures var spread := AfterInstallment(Respread(p, month), month + 1);
            && d < spread.balance - HALF_CENT
            && d < AfterExtra(spread, extra.shorten, Shorten, month + 1).balance - HALF_CENT
  {
    hide AnnuityPayment, AfterExtra, Gain, AfterInstallment;
    var n := p.plan.endMonth.n - month;
    SpreadOwes(p.balance, p.plan.rate, n, x);
    RespreadIs(p, month);
    var spread := AfterInstallment(Respread(p, month), month + 1);
    InstallmentLeaves(Respread(p, month), month + 1, p.balance * MonthlyRate(p.plan.rate));
    ExtraOwesNoMore(spread, extra.shorten, Shorten, month + 1);
    ExtraOwesNoMore(AfterExtra(spread, extra.shorten, Shorten, month + 1), extra.lower, Lower, month + 1);
    assert x * Gain(p.plan.rate, n) >= 0.0;
  }

  lemma {:induction false} NotNegative(p: Position, month: int)
    requires Carried(p, month)
    ensures AfterInstallment(p, month + 1).balance >= 0.0
  {
  }

  lemma {:induction false} CrossSmaller(low: real, mid: real, a1: real, a: real)
    requires 0.0 <= low <= mid && 0.0 <= a1 <= a
    ensures low * a1 <= mid * a
  {
    ScaleUp(low, mid, a1);
    ScaleUp(a1, a, mid);
  }

  lemma {:induction false} AheadAfterInstallment(p: Position, extra: MonthExtras, month: int, x: real, d: real)
    requires Room(p, extra, month, x, d)
    ensures var low := AfterInstallment(p, month + 1);
            var mid := AfterInstallment(AfterExtra(p, x, Lower, month), month + 1);
            Carried(low, month + 1) && Carried(mid, month + 1) && Ahead(low, mid)
  {
    hide AnnuityPayment, AfterExtra, Gain, AfterInstallment, Full, Respread, MonthlyRate, AfterMonthAt;
    RoomAfterInstallment(p, extra, month, x, d);
    RespreadIs(p, month);
    NextInstallments(p, x, month);
    SmallLeavesOwed(p, x, month);
    var small := AfterExtra(p, x, Lower, month);
    ExtraCarries(p, x, Lower, month);
    var low, mid := AfterInstallment(p, month + 1), AfterInstallment(small, month + 1);
    InstallmentKeepsPlan(p, month + 1);
    InstallmentKeepsPlan(small, month + 1);
    InstallmentCarries(p, month + 1);
    InstallmentCarries(small, month + 1);
    CrossSmaller(low.balance, mid.balance, mid.plan.installment, low.plan.installment);
  }

  /** From the next month on the loan without the payment is ahead of the one with it. */
  lemma {:induction false} AheadNext(t: Terms, p: Position, extra: MonthExtras, month: int, x: real, d: real)
    requires Room(p, extra, month, x, d)
    ensures Near(t, AfterMonthAt(p, extra, month + 1),
                 AfterMonthAt(AfterExtra(p, x, Lower, month), extra, month + 1), month + 1)
  {
    AheadAfterInstallment(p, extra, month, x, d);
    hide AfterExtra, AfterInstallment, SpreadsSafely, Near, Ahead, Carried;
    var low, mid := AfterInstallment(p, month + 1), AfterInstallment(AfterExtra(p, x, Lower, month), month + 1);
    ExtraKeepsAhead(low, mid, extra.shorten, extra.shorten, Shorten, month + 1);
    ExtraCarries(low, extra.shorten, Shorten, month + 1);
    ExtraCarries(mid, extra.shorten, Shorten, month + 1);
    var low1 := AfterExtra(low, extra.shorten, Shorten, month + 1);
    var mid1 := AfterExtra(mid, extra.shorten, Shorten, month + 1);
    LowerKeepsNear(t, low1, mid1, extra.lower, extra.lower, month + 1);
  }

  // ---- The two runs ----

  /** A month at the rate in force is its installment and its extra payments. */
  lemma {:induction false} RunNext(t: Terms, k: int)
    requires SoundTerms(t) && 1 <= k < MAX_TERM_MONTHS && Run(t, k).balance > 0.0
    requires Run(t, k).plan.Some? && t.rateIn(k + 1) == Run(t, k).plan.value.rate
    ensures Run(t, k + 1).plan.Some?
    ensures PositionOf(Run(t, k + 1))
            == AfterMonthAt(PositionOf(Run(t, k)), t.extrasIn(k + 1).GetOr(NO_EXTRAS), k + 1)
  {
    hide AfterExtras, AfterInstallment, RowOf, Run, TermsFrom;
    RunCarries(t, k);
    RunStep(t, k + 1);
  }

  lemma {:induction false} StepAtRate(t: Terms, s: State, k: int)
    requires s.plan.Some? && t.rateIn(k) == s.plan.value.rate
    ensures MonthStep(t, s, k).plan.Some?
    ensures PositionOf(MonthStep(t, s, k)) == AfterMonthAt(PositionOf(s), t.extrasIn(k).GetOr(NO_EXTRAS), k)
  {
    hide AfterExtras, AfterInstallment, RowOf, TermsFrom;
  }

  /** From where it is ahead, a run with the same extra payments stays ahead, and the gap in interest grows. */
  lemma {:induction false} StaysAhead(more: Terms, less: Terms, j: nat, k: nat)
    requires SameLoan(more, less) && SoundTerms(more) && 1 <= j <= k <= MAX_TERM_MONTHS
    requires forall i: int :: j < i <= k ==> more.extrasIn(i) == less.extrasIn(i)
    requires ExtrasNotNegative(less)
    requires AheadStates(less, Run(more, j), Run(less, j), j)
    ensures AheadStates(less, Run(more, k), Run(less, k), k)
    ensures Interests(Run(less, j).rows) - Interests(Run(more, j).rows)
            <= Interests(Run(less, k).rows) - Interests(Run(more, k).rows)
    decreases k
  {
    hide Run, Interests, MonthStep, AheadStates, SpreadsSafely, Shortened;
    if j < k {
      StaysAhead(more, less, j, k - 1);
      assert ExtrasNotNegativeIn(less, k) && more.extrasIn(k) == less.extrasIn(k);
      assert more.rateIn(k) == less.rateIn(k);
      StepStaysAhead(more, less, k);
      NoMoreOwed(less, Run(more, k - 1), Run(less, k - 1), k - 1);
      NoMoreCharged(more, less, k);
    }
  }

  lemma {:induction false} StepStaysAhead(more: Terms, less: Terms, k: nat)
    requires SameLoan(more, less) && SoundTerms(more) && 1 <= k <= MAX_TERM_MONTHS
    requires PaysMoreFrom(more, less, Run(less, k - 1), k)
    requires AheadStates(less, Run(more, k - 1), Run(less, k - 1), k - 1)
    ensures AheadStates(less, Run(more, k), Run(less, k), k)
  {
    hide MonthStep, PaysMoreFrom;
    RunCarries(more, k - 1);
    RunCarries(less, k - 1);
    RunCarries(more, k);
    RunCarries(less, k);
    if Run(more, k - 1).balance > 0.0 {
      StepKeepsAhead(more, less, Run(more, k - 1), Run(less, k - 1), k);
    }
  }

  lemma {:induction false} StillNotNegative(more: Terms, less: Terms, month: int, x: real)
    requires PaysLowerMore(more, less, month, x)
    ensures ExtrasNotNegative(more)
  {
    forall k: int
      ensures ExtrasNotNegativeIn(more, k)
    {
      assert ExtrasNotNegativeIn(less, k);
      assert k != month ==> more.extrasIn(k) == less.extrasIn(k);
    }
  }

  /** Under keep-term a month that still owes ends within the term. */
  lemma {:induction false} OwesWithinTerm(t: Terms, month: int)
    requires SoundTerms(t) && !t.keepInstallment && 1 <= month <= MAX_TERM_MONTHS
    requires Run(t, month - 1).balance > 0.0 && AfterShorten(t, month).balance > 0.0
    ensures var end := AfterShorten(t, month).plan.endMonth;
            end.Months? && month < end.n <= t.term
  {
    hide AtRate, AfterInstallment, AfterExtra, RowOf, OnCourse, Run;
    RunCarries(t, month - 1);
    RunKeepsTerm(t, month - 1);
    var s := Run(t, month - 1);
    StartPayable(t, s, month);
    StartOnCourse(t, s, month);
    var due := MonthStart(t, s, month);
    InstallmentCarries(due, month);
    InstallmentOnCourse(due, month);
    InstallmentKeepsPlan(due, month);
    var paid, x := AfterInstallment(due, month), t.extrasIn(month).GetOr(NO_EXTRAS);
    ExtraOwesNoMore(paid, x.shorten, Shorten, month);
    ExtraOnCourse(paid, x.shorten, Shorten, month);
    ExtraCarries(paid, x.shorten, Shorten, month);
    OnCourseEnds(paid, month);
  }

  /** Where spreading is not safe, this much is missing: of the installment, and of what is owed a month on. */
  ghost predicate Missing(t: Terms, p: Position, month: int, gap: real) {
    var extra := t.extrasIn(month + 1).GetOr(NO_EXTRAS);
    && 0.0 < gap <= p.plan.installment - Respread(p, month).plan.installment
    && gap <= AfterMonthAt(Respread(p, month), extra, month + 1).balance - HALF_CENT
  }

  /** Spread anew, the loan stands after the next month where its installment and extra payments leave it. */
  lemma {:induction false} NextSpread(t: Terms, month: int, j: int)
    requires Costly(t, month, j)
    ensures j <= t.term
    ensures var p, extra := AfterShorten(t, month), t.extrasIn(month + 1).GetOr(NO_EXTRAS);
            var next := SpreadAnew(t, month, month + 1);
            && next.plan.Some? && next.balance > 0.0 && Underway(t, next, month + 1)
            && PositionOf(next) == AfterMonthAt(Respread(p, month), extra, month + 1)
  {
    hide Run, Onward, Shortened, AfterMonthAt, MonthStep, Respread, Underway, Full;
    var s := StateAt(Respread(AfterShorten(t, month), month));
    SpreadUnderway(t, month);
    OnwardUnderway(t, s, month, j - 1);
    OnwardOwed(t, s, month, month + 1, j - 1);
    OnwardUnderway(t, s, month, month + 1);
    AtStart(t, s, month);
    StepAtRate(t, s, month + 1) by {
      SpreadRate(AfterShorten(t, month), month);
    }
    SpreadPosition(t, month);
  }

  lemma {:induction false} SpreadRate(p: Position, month: int)
    ensures Respread(p, month).plan.rate == p.plan.rate && Respread(p, month).balance == p.balance
  {
  }

  lemma {:induction false} SpreadPosition(t: Terms, month: int)
    requires month >= 1
    ensures var s := StateAt(Respread(AfterShorten(t, month), month));
            s.plan.Some? && PositionOf(s) == Respread(AfterShorten(t, month), month)
  {
    hide Shortened, Respread, Run;
  }

  lemma {:induction false} WhatIsMissing(t: Terms, month: int, j: int) returns (gap: real)
    requires Costly(t, month, j)
    ensures gap > 0.0 && Missing(t, AfterShorten(t, month), month, gap)
  {
    hide AnnuityPayment, Run, Shortened, AfterMonthAt, MonthStep, SpreadAnew, Onward, Respread;
    var p := AfterShorten(t, month);
    OwesWithinTerm(t, month);
    ShortenedOwes(t, month);
    NextSpread(t, month, j);
    OwesOverHalf(t, SpreadAnew(t, month, month + 1), month + 1);
    var extra := t.extrasIn(month + 1).GetOr(NO_EXTRAS);
    NotFull(p, month);
    RespreadIs(p, month);
    var short := p.plan.installment - Respread(p, month).plan.installment;
    var left := AfterMonthAt(Respread(p, month), extra, month + 1).balance - HALF_CENT;
    gap := if short < left then short else left;
  }

  // ---- As it is, the loan owes less than spread anew ----

  /** The larger installment leaves less owed after it. */
  lemma {:induction false} LargerLeavesLess(p: Position, month: int)
    requires Carried(p, month) && p.balance > 0.0 && p.plan.endMonth.Months? && !Full(p, month)
    requires AfterInstallment(Respread(p, month), month + 1).balance > 0.0
    ensures 0.0 <= AfterInstallment(p, month + 1).balance < AfterInstallment(Respread(p, month), month + 1).balance
  {
    hide AfterInstallment, AnnuityPayment, Full, Carried, MonthlyRate;
    var interest := p.balance * MonthlyRate(p.plan.rate);
    NotFull(p, month);
    RespreadIs(p, month);
    NotNegative(p, month);
    LoanOnward.InstallmentLeaves(p, month + 1, interest);
    LoanOnward.InstallmentLeaves(Respread(p, month), month + 1, interest);
  }

  lemma {:induction false} NextBelow(p: Position, extra: MonthExtras, month: int)
    requires Carried(p, month) && p.balance > 0.0 && p.plan.endMonth.Months? && !Full(p, month)
    requires extra.shorten >= 0.0 && extra.lower >= 0.0
    requires AfterMonthAt(Respread(p, month), extra, month + 1).balance > 0.0
    ensures AfterMonthAt(p, extra, month + 1).balance < AfterMonthAt(Respread(p, month), extra, month + 1).balance
  {
    hide AfterInstallment, AfterExtras, Full, Carried, Respread;
    var high := AfterInstallment(Respread(p, month), month + 1);
    if high.balance <= 0.0 {
      NothingLeft(high, extra, month + 1);
      assert false;
    }
    LargerLeavesLess(p, month);
    ExtrasBelow(AfterInstallment(p, month + 1), high, extra, month + 1);
  }

  /** The installment in force is ahead of the one spread anew. */
  lemma {:induction false} LargerIsAhead(p: Position, month: int)
    requires Carried(p, month) && p.balance > 0.0 && p.plan.endMonth.Months? && !Full(p, month)
    ensures Ahead(p, Respread(p, month))
  {
    hide AnnuityPayment, Full;
    NotFull(p, month);
    RespreadIs(p, month);
    AnnuityNonNegative(p.balance, p.plan.rate, p.plan.endMonth.Plus(-month));
    ScaleUp(Respread(p, month).plan.installment, p.plan.installment, p.balance);
  }

  /** The month's own state: nothing is paid to pay less. */
  lemma {:induction false} MonthAsIs(t: Terms, month: int)
    requires SoundTerms(t) && !t.keepInstallment && StillOwing(t, month) && LowerIn(t, month) == 0.0
    ensures var s := Run(t, month);
            && s.plan.Some? && PositionOf(s) == AfterShorten(t, month) && s.balance > 0.0 && Underway(t, s, month)
  {
    hide Run, Shortened, AfterExtraPayment;
    AfterMonth(t, month);
    RunUnderway(t, month);
  }

  /** From the next month on, while the loan spread anew owes something, the loan as it is owes less. */
  lemma {:induction false} AsIsBelow(t: Terms, month: int, j: int)
    requires Costly(t, month, j)
    ensures Run(t, j - 1).balance < SpreadAnew(t, month, j - 1).balance
  {
    hide *;
    CostlyMeans(t, month, j);
    var p, extra := AfterShorten(t, month), t.extrasIn(month + 1).GetOr(NO_EXTRAS);
    ShortenedOwes(t, month);
    OwesWithinTerm(t, month);
    SpreadUnderway(t, month);
    SpreadPosition(t, month);
    MonthAsIs(t, month);
    AtPosition(Run(t, month), p);
    NextSpread(t, month, j);
    AtPosition(SpreadAnew(t, month, month + 1), AfterMonthAt(Respread(p, month), extra, month + 1));
    RunNext(t, month);
    AtPosition(Run(t, month + 1), AfterMonthAt(p, extra, month + 1));
    ExtrasGiven(t, month + 1);
    NextBelow(p, extra, month);
    LargerIsAhead(p, month);
    RunUnderway(t, month + 1);
    NextAhead(t, month);
    var low, high := Run(t, month + 1), SpreadAnew(t, month, month + 1);
    OnwardIsRun(t, t, month + 1, j - 1);
    SpreadOn(t, month, j - 1);
    StaysBelow(t, low, high, month + 1, j - 1);
  }

  lemma {:induction false} CostlyMeans(t: Terms, month: int, j: int)
    requires Costly(t, month, j)
    ensures SoundTerms(t) && !t.keepInstallment && KeepTermTerms(t) && StillOwing(t, month) && LowerIn(t, month) == 0.0
    ensures 1 <= month < MAX_TERM_MONTHS && month + 2 <= j <= MAX_TERM_MONTHS
    ensures Run(t, month - 1).balance > 0.0 && AfterShorten(t, month).balance > 0.0
            && !Full(AfterShorten(t, month), month)
    ensures t.rateIn(month + 1) == AfterShorten(t, month).plan.rate && t.rateIn(j) > 0.0
    ensures SpreadAnew(t, month, j - 1).balance > 0.0
  {
    NextSpread(t, month, j);
    hide Run, Shortened, SpreadAnew, Full;
  }

  lemma {:induction false} AtPosition(s: State, p: Position)
    requires s.plan.Some? && PositionOf(s) == p
    ensures s.balance == p.balance && s.plan.value.rate == p.plan.rate
  {
  }

  lemma {:induction false} OwingMeans(t: Terms, month: int)
    requires StillOwing(t, month)
    ensures 1 <= month <= MAX_TERM_MONTHS && Run(t, month - 1).balance > 0.0 && AfterShorten(t, month).balance > 0.0
  {
    hide Run, Shortened;
  }

  lemma {:induction false} SpreadOn(t: Terms, month: int, k: int)
    requires 1 <= month < k
    ensures Onward(t, SpreadAnew(t, month, month + 1), month + 1, k) == SpreadAnew(t, month, k)
  {
    OnwardOn(t, StateAt(Respread(AfterShorten(t, month), month)), month, month + 1, k);
    hide Onward, Shortened, Respread, Run;
  }

  lemma {:induction false} NextAhead(t: Terms, month: int)
    requires KeepTermTerms(t) && 1 <= month < MAX_TERM_MONTHS && Underway(t, Run(t, month), month)
    requires var s := StateAt(Respread(AfterShorten(t, month), month));
             && Underway(t, s, month) && Run(t, month).plan.Some? && s.plan.Some? && s.balance > 0.0
             && Run(t, month).balance > 0.0 && Ahead(PositionOf(Run(t, month)), PositionOf(s))
    requires SpreadAnew(t, month, month + 1).balance > 0.0
    ensures var low, high := Run(t, month + 1), SpreadAnew(t, month, month + 1);
            low.plan.Some? && high.plan.Some? && Ahead(PositionOf(low), PositionOf(high))
  {
    hide MonthStep, Ahead, Run, Shortened, Respread, Underway;
    var s := StateAt(Respread(AfterShorten(t, month), month));
    OnwardUnderway(t, s, month, month + 1);
    AtStart(t, s, month);
    UnderwayStep(t, Run(t, month), month + 1);
    RunStep(t, month + 1);
    SameExtrasAhead(t, Run(t, month), s, month + 1);
  }

  // ---- A payment small enough ----

  lemma {:induction false} SmallEnough(room: real, gap: real, gain: real) returns (paid: real)
    requires room > 0.0 && gap > 0.0 && gain >= 0.0
    ensures 0.0 < paid < room && paid * gain < gap
  {
    var x := gap / (gain + 1.0);
    assert x * (gain + 1.0) == gap;
    PositiveQuotient(gap, gain + 1.0);
    paid := if x < room then x else room / 2.0;
    assert paid * gain <= x * gain;
  }

  /** An amount within `room` and `near`, costing under `gap`, and saving under `cost`. */
  lemma {:induction false} SmallAmount(room: real, near: real, gap: real, g: real, r: real, cost: real)
    returns (x: real)
    requires room > 0.0 && near > 0.0 && gap > 0.0 && g >= 0.0 && r >= 0.0 && cost > 0.0
    ensures 0.0 < x < room && x <= near && 0.0 <= x * g < gap && x * r < cost
  {
    var least := if room < near then room else near;
    var x1 := SmallEnough(least, gap, g);
    var x2 := SmallEnough(least, cost, r);
    x := if x1 < x2 then x1 else x2;
    ScaleUp(x, x1, g);
    ScaleUp(x, x2, r);
    ScaleUp(0.0, x, g);
  }

  /** A small enough payment leaves the loan as near to it spread anew as wanted. */
  lemma {:induction false} PaidIsNear(more: Terms, less: Terms, month: int, x: real, k: int, d: real)
    requires PaysLowerMore(more, less, month, x) && StillOwing(less, month) && LowerIn(less, month) == 0.0
    requires KeepTermTerms(less) && month <= k && d > 0.0 && SpreadAnew(less, month, k).balance > 0.0
    requires x < AfterShorten(less, month).balance - HALF_CENT
    requires x <= Tolerance(less, StateAt(Respread(AfterShorten(less, month), month)), month, k, d)
    ensures Run(more, k).balance >= SpreadAnew(less, month, k).balance - d
  {
    hide *;
    KeepTermMeans(less);
    OwingMeans(less, month);
    var p, s := AfterShorten(less, month), StateAt(Respread(AfterShorten(less, month), month));
    PaysMeans(more, less, month, x);
    PaidIsAhead(more, less, month, x);
    SpreadUnderway(less, month);
    SpreadPosition(less, month);
    RunUnderway(more, month);
    SameUnderway(more, less, Run(more, month), month);
    OwesWithinTerm(less, month);
    StartsClose(p, month, x, Tolerance(less, s, month, k, d));
    OnwardIsRun(less, more, month, k);
    SpreadIs(less, month, k);
    PaidOwes(more, less, month, x);
    StaysClose(less, Run(more, month), s, month, k, d);
    CloseOwes(Onward(less, Run(more, month), month, k), Onward(less, s, month, k), d);
  }

  lemma {:induction false} KeepTermMeans(t: Terms)
    requires KeepTermTerms(t)
    ensures SoundTerms(t) && !t.keepInstallment
  {
  }

  lemma {:induction false} PaysMeans(more: Terms, less: Terms, month: int, x: real)
    requires PaysLowerMore(more, less, month, x)
    ensures SameLoan(more, less) && SoundTerms(more) && SoundTerms(less) && x > 0.0 && 1 <= month
    ensures more.keepInstallment == less.keepInstallment && more.term == less.term && more.start == less.start
    ensures forall i: int :: less.rateIn(i) == more.rateIn(i)
    ensures forall i: int :: month < i ==> less.extrasIn(i) == more.extrasIn(i)
  {
  }

  lemma {:induction false} SpreadIs(t: Terms, month: int, k: int)
    requires 1 <= month <= k
    ensures SpreadAnew(t, month, k) == Onward(t, StateAt(Respread(AfterShorten(t, month), month)), month, k)
  {
  }

  lemma {:induction false} PaidOwes(more: Terms, less: Terms, month: int, x: real)
    requires month >= 1 && Run(more, month).plan.Some? && 0.0 < x < AfterShorten(less, month).balance - HALF_CENT
    requires PositionOf(Run(more, month)) == AfterExtra(AfterShorten(less, month), x, Lower, month)
    ensures Run(more, month).balance == AfterShorten(less, month).balance - x > 0.0
  {
    hide Run, Shortened, AfterExtraPayment;
  }

  lemma {:induction false} CloseOwes(more: State, less: State, d: real)
    requires more.plan.Some? && less.plan.Some? && Close(PositionOf(more), PositionOf(less), d)
    ensures more.balance >= less.balance - d
  {
  }

  lemma {:induction false} StartsClose(p: Position, month: int, x: real, near: real)
    requires 0.0 < x < p.balance - HALF_CENT && x <= near && p.plan.endMonth.Months? && p.plan.endMonth.n > month
    ensures Close(AfterExtra(p, x, Lower, month), Respread(p, month), near)
  {
    SmallLeavesOwed(p, x, month);
    RespreadIs(p, month);
    AnnuityGrows(p.balance - x, p.balance, p.plan.rate, p.plan.endMonth.n - month);
    hide AfterExtra, Respread, AnnuityPayment;
  }

  /** A small enough payment costs interest. */
  lemma {:induction false} SmallCosts(more: Terms, less: Terms, month: int, j: int, x: real, d: real, gap: real)
    requires Costly(less, month, j) && PaysLowerMore(more, less, month, x)
    requires Room(AfterShorten(less, month), less.extrasIn(month + 1).GetOr(NO_EXTRAS), month, x, d)
    requires gap > 0.0 && Run(less, j - 1).balance + gap <= Run(more, j - 1).balance
    requires x * MonthlyRate(less.rateIn(month + 1)) < gap * MonthlyRate(less.rateIn(j))
    ensures Interests(Run(more, MAX_TERM_MONTHS).rows) > Interests(Run(less, MAX_TERM_MONTHS).rows)
  {
    hide *;
    CostlyMeans(less, month, j);
    PaysMeans(more, less, month, x);
    NextMonths(more, less, month, j, x, d);
    StillNotNegative(more, less, month, x);
    SameLoanBack(more, less, month, x);
    SameBefore(more, less, month, x);
    InterestsAtMonth(more, less, month);
    var r, rj := MonthlyRate(less.rateIn(month + 1)), MonthlyRate(less.rateIn(j));
    var b, c := Run(less, month).balance, Run(more, month).balance;
    MonthInterest(less, month + 1, b, r);
    MonthInterest(more, month + 1, c, r);
    StaysAhead(less, more, month + 1, j - 1);
    var bj, cj := Run(less, j - 1).balance, Run(more, j - 1).balance;
    MonthInterest(less, j, bj, rj);
    MonthInterest(more, j, cj, rj);
    StaysAhead(less, more, month + 1, j);
    StaysAhead(less, more, j, MAX_TERM_MONTHS);
    CostsMore(b, c, x, r, bj, cj, gap, rj);
  }

  /** The payment less is owed after the month, and from the next one on the loan without it is ahead. */
  lemma {:induction false} NextMonths(more: Terms, less: Terms, month: int, j: int, x: real, d: real)
    requires Costly(less, month, j) && PaysLowerMore(more, less, month, x)
    requires Room(AfterShorten(less, month), less.extrasIn(month + 1).GetOr(NO_EXTRAS), month, x, d)
    ensures Run(less, month).balance - Run(more, month).balance == x
    ensures AheadStates(more, Run(less, month + 1), Run(more, month + 1), month + 1)
  {
    hide *;
    CostlyMeans(less, month, j);
    PaysMeans(more, less, month, x);
    var p, extra := AfterShorten(less, month), less.extrasIn(month + 1).GetOr(NO_EXTRAS);
    RoomMeans(p, extra, month, x, d);
    MonthAsIs(less, month);
    AtPosition(Run(less, month), p);
    PaidIsAhead(more, less, month, x);
    PaidOwes(more, less, month, x);
    ShortenedOwes(less, month);
    PaidRate(p, x, month);
    AtPosition(Run(more, month), AfterExtra(p, x, Lower, month));
    RunNext(less, month);
    RunNext(more, month);
    AheadNext(more, p, extra, month, x, d);
    NearOwes(more, Run(less, month + 1), Run(more, month + 1), month + 1);
  }

  lemma {:induction false} RoomMeans(p: Position, extra: MonthExtras, month: int, x: real, d: real)
    requires Room(p, extra, month, x, d)
    ensures 0.0 < x < p.balance - HALF_CENT
  {
    hide AfterMonthAt, Gain, Respread;
  }

  lemma {:induction false} PaidRate(p: Position, x: real, month: int)
    ensures AfterExtra(p, x, Lower, month).plan.rate == p.plan.rate
  {
  }

  lemma {:induction false} SameLoanBack(more: Terms, less: Terms, month: int, x: real)
    requires PaysLowerMore(more, less, month, x)
    ensures SameLoan(less, more)
  {
  }

  lemma {:induction false} CostsMore(b: real, c: real, x: real, r: real, bj: real, cj: real, gap: real, rj: real)
    requires b - c == x && cj - bj >= gap && rj >= 0.0 && x * r < gap * rj
    ensures b * r - c * r < cj * rj - bj * rj
  {
    assert b * r - c * r == x * r;
    ScaleUp(gap, cj - bj, rj);
    assert cj * rj - bj * rj == (cj - bj) * rj;
  }

  lemma {:induction false} NearOwes(t: Terms, more: State, less: State, month: int)
    requires more.plan.Some? && less.plan.Some? && Near(t, PositionOf(more), PositionOf(less), month)
    ensures AheadStates(t, more, less, month)
  {
    hide Ahead, SpreadMakesNoOdds;
  }

  // ---- The loan as it is stored ----

  ghost function InterestOf(loan: LoanInput): real
    requires Usable(loan) && RatesUsable(loan)
  {
    Interests(Amortization(loan).rows)
  }

  /** No pay-less payment of any size, added in the month, costs interest. */
  ghost predicate NeverCosts(loan: LoanInput, month: int)
    requires Usable(loan) && RatesUsable(loan)
  {
    forall x: real :: x > 0.0 ==> InterestOf(WithPayLess(loan, month, x)) <= InterestOf(loan)
  }

  lemma {:induction false} InterestIs(loan: LoanInput)
    requires Usable(loan) && RatesUsable(loan) && loan.onRateChange == KeepTerm
    ensures InterestOf(loan) == Interests(Run(TermsOf(loan), MAX_TERM_MONTHS).rows)
  {
    hide Run, Amortization, Interests;
    var t := TermsOf(loan);
    KeepTermEnds(t);
    RowsAtEnd(loan);
    StaysRepaid(t, t.term, MAX_TERM_MONTHS);
  }

  lemma {:induction false} SafePayment(loan: LoanInput, month: int, x: real)
    requires Usable(loan) && RatesUsable(loan) && loan.onRateChange == KeepTerm && x > 0.0
    requires StillOwing(TermsOf(loan), month)
    requires var t := TermsOf(loan);
             || LowerIn(t, month) > 0.0 || SpreadsSafely(t, AfterShorten(t, month), month)
             || (LowerIn(t, month) == 0.0 && NothingCharged(t, month))
    ensures InterestOf(WithPayLess(loan, month, x)) <= InterestOf(loan)
  {
    hide Run, Interests, Amortization, SpreadsSafely, AfterShorten, LowerIn, ChargedAt, ExtrasAt, NothingCharged;
    var t, more := TermsOf(loan), WithPayLess(loan, month, x);
    PayLessTerms(loan, month, x);
    InterestIs(loan);
    InterestIs(more);
    if LowerIn(t, month) > 0.0 || SpreadsSafely(t, AfterShorten(t, month), month) {
      SafeNeverHurts(TermsOf(more), t, month, x);
      InterestAhead(TermsOf(more), t, MAX_TERM_MONTHS);
    } else {
      NothingChargedNoMore(TermsOf(more), t, month, x, MAX_TERM_MONTHS);
    }
  }

  lemma {:induction false} CostlyPayment(loan: LoanInput, month: int, j: int) returns (x: real)
    requires Usable(loan) && RatesUsable(loan) && loan.onRateChange == KeepTerm
    requires Costly(TermsOf(loan), month, j)
    ensures x > 0.0 && InterestOf(WithPayLess(loan, month, x)) > InterestOf(loan)
  {
    hide *;
    var t := TermsOf(loan);
    CostlyMeans(t, month, j);
    var p, extra := AfterShorten(t, month), t.extrasIn(month + 1).GetOr(NO_EXTRAS);
    var s := StateAt(Respread(p, month));
    var missing := WhatIsMissing(t, month, j);
    OwesWithinTerm(t, month);
    ShortenedOwes(t, month);
    CarriedOverHalf(p, month);
    var n := p.plan.endMonth.n - month;
    SpreadOwes(p.balance, p.plan.rate, n, 0.0);
    AsIsBelow(t, month, j);
    SpreadUnderway(t, month);
    SpreadIs(t, month, j - 1);
    var gap := (SpreadAnew(t, month, j - 1).balance - Run(t, j - 1).balance) / 2.0;
    TolerancePositive(t, s, month, j - 1, gap);
    var g, r, rj := Gain(p.plan.rate, n), MonthlyRate(t.rateIn(month + 1)), MonthlyRate(t.rateIn(j));
    PositiveRate(t.rateIn(j));
    PositiveProduct(gap, rj);
    x := SmallAmount(p.balance - HALF_CENT, Tolerance(t, s, month, j - 1, gap), missing, g, r, gap * rj);
    ExtrasGiven(t, month + 1);
    var d := x * g;
    HasRoom(t, p, month, x, missing, g, d);
    CostsIn(loan, month, j, x, gap, d);
  }

  lemma {:induction false} CarriedOverHalf(p: Position, month: int)
    requires Carried(p, month) && p.balance > 0.0
    ensures p.balance > HALF_CENT
  {
  }

  lemma {:induction false} PositiveProduct(a: real, b: real)
    requires a > 0.0 && b > 0.0
    ensures a * b > 0.0
  {
  }

  lemma {:induction false} HasRoom(t: Terms, p: Position, month: int, x: real, missing: real, g: real, d: real)
    requires Carried(p, month) && p.plan.endMonth.Months? && p.plan.endMonth.n > month
    requires 0.0 < x < p.balance - HALF_CENT && Missing(t, p, month, missing)
    requires var extra := t.extrasIn(month + 1).GetOr(NO_EXTRAS); extra.shorten >= 0.0 && extra.lower >= 0.0
    requires g == Gain(p.plan.rate, p.plan.endMonth.n - month) && d == x * g < missing
    ensures Room(p, t.extrasIn(month + 1).GetOr(NO_EXTRAS), month, x, d)
  {
    hide AfterMonthAt, Respread, Gain;
  }

  /** The payment costs the stored loan interest. */
  lemma {:induction false} CostsIn(loan: LoanInput, month: int, j: int, x: real, gap: real, d: real)
    requires Usable(loan) && RatesUsable(loan) && loan.onRateChange == KeepTerm && x > 0.0 && gap > 0.0
    requires 1 <= month && month + 2 <= j && Costly(TermsOf(loan), month, j)
    requires Room(AfterShorten(TermsOf(loan), month), TermsOf(loan).extrasIn(month + 1).GetOr(NO_EXTRAS), month, x, d)
    requires var t := TermsOf(loan);
             && gap + gap == SpreadAnew(t, month, j - 1).balance - Run(t, j - 1).balance
             && x <= Tolerance(t, StateAt(Respread(AfterShorten(t, month), month)), month, j - 1, gap)
             && x * MonthlyRate(t.rateIn(month + 1)) < gap * MonthlyRate(t.rateIn(j))
    ensures InterestOf(WithPayLess(loan, month, x)) > InterestOf(loan)
  {
    hide *;
    var t, more := TermsOf(loan), WithPayLess(loan, month, x);
    CostlyMeans(t, month, j);
    PayLessTerms(loan, month, x);
    RoomMeans(AfterShorten(t, month), t.extrasIn(month + 1).GetOr(NO_EXTRAS), month, x, d);
    PaidIsNear(TermsOf(more), t, month, x, j - 1, gap);
    SmallCosts(TermsOf(more), t, month, j, x, d, gap);
    InterestIs(loan);
    SameOption(loan, month, x);
    InterestIs(more);
  }

  lemma {:induction false} SameOption(loan: LoanInput, month: int, x: real)
    ensures WithPayLess(loan, month, x).onRateChange == loan.onRateChange
  {
  }

  lemma {:induction false} PositiveRate(rate: Rate)
    requires rate > 0.0
    ensures MonthlyRate(rate) > 0.0
  {
  }

  /**
   * Exactly when an added pay-less payment can cost interest, for every keep-term loan, whatever
   * its rates and its other extra payments: unless the month has a pay-less payment already; or the
   * installment in force is full, no more than the annuity installment for the balance; or the next
   * month charges another rate; or, spread anew in the month with nothing paid for it, the loan
   * would owe nothing before any month that charges interest from two months on. Each of these is
   * read off the loan before the payment.
   */
  lemma {:induction false} SpreadingExact(loan: LoanInput, month: int)
    requires Usable(loan) && RatesUsable(loan) && loan.onRateChange == KeepTerm
    requires StillOwing(TermsOf(loan), month)
    ensures var t := TermsOf(loan);
            var p := AfterShorten(t, month);
            NeverCosts(loan, month) <==>
            || LowerIn(t, month) > 0.0
            || Full(p, month)
            || t.rateIn(month + 1) != p.plan.rate
            || NothingCharged(t, month)
  {
    hide Run, Interests, Amortization, Shortened, RateAt, ExtrasAt, Full, Respread, RepaidNext, InterestOf, SpreadAnew;
    var t := TermsOf(loan);
    var p := AfterShorten(t, month);
    forall k: int
      ensures ExtrasNotNegativeIn(t, k)
    {
      ExtrasAtLeast(loan, loan, k, true);
    }
    assert ExtrasNotNegativeIn(t, month);
    if LowerIn(t, month) > 0.0 || Full(p, month) || t.rateIn(month + 1) != p.plan.rate || NothingCharged(t, month) {
      forall x: real | x > 0.0
        ensures InterestOf(WithPayLess(loan, month, x)) <= InterestOf(loan)
      {
        SafePayment(loan, month, x);
      }
    } else {
      var j: int :| j >= month + 2 && t.rateIn(j) > 0.0 && SpreadAnew(t, month, j - 1).balance > 0.0;
      assert SoundTerms(t) && LowerIn(t, month) == 0.0;
      var x := CostlyPayment(loan, month, j);
    }
  }

  /** A loan the next month would repay spread anew owes nothing after it. */
  lemma {:induction false} RepaidNextIsFree(t: Terms, month: int)
    requires KeepTermTerms(t) && StillOwing(t, month) && t.rateIn(month + 1) == AfterShorten(t, month).plan.rate
    requires RepaidNext(t, Respread(AfterShorten(t, month), month), month)
    ensures NothingCharged(t, month)
  {
    hide Run, MonthStep, Shortened, Respread, Onward, Underway;
    var s := StateAt(Respread(AfterShorten(t, month), month));
    SpreadUnderway(t, month);
    forall j: int | j >= month + 2 && t.rateIn(j) > 0.0
      ensures SpreadAnew(t, month, j - 1).balance <= 0.0
    {
      if SpreadAnew(t, month, j - 1).balance > 0.0 {
        OnwardOwed(t, s, month, month + 1, j - 1);
        OnwardUnderway(t, s, month, month + 1);
        AtStart(t, s, month);
        assert false;
      }
    }
  }
}
