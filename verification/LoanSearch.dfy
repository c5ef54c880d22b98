/** The smallest monthly extra payment that repays a loan in time (shared/loanScenarios.ts). */
module LoanSearch {
  import opened Basics
  import opened LoanSchedule
  import opened LoanInvariants
  import opened LoanRepayment
  import opened LoanMonotonicity
  import opened LoanEngine
  import opened LoanScenarios
  import opened LoanMeaning

  const SEARCH_LIMIT := 1000000000000000.0

  /** Rounded to the cent. */
  function Cents(amount: real): real {
    (amount * 100.0 + 0.5).Floor as real / 100.0
  }

  predicate AtMost(ends: Months, deadline: Number) {
    deadline.Infinity? || (ends.Months? && deadline.Finite? && ends.n as real <= deadline.value)
  }

  /** The loan with `steps` steps more each month from `from` on. */
  function WithMonthly(loan: LoanInput, from: int, step: real, steps: nat): LoanInput {
    if steps == 0 then loan
    else
      loan.(extraRules := loan.extraRules
        + [LoanExtraRule(Finite(steps as real * step), Finite(1.0), Finite(from as real), None, Shorten, "")])
  }

  /** The month the loan then ends in; Forever when it never does. */
  ghost function EndsWith(loan: LoanInput, from: int, step: real, steps: nat): Months
    requires RatesUsable(loan)
  {
    RatesReadAlone(loan, WithMonthly(loan, from, step, steps));
    var run := Amortization(WithMonthly(loan, from, step, steps));
    if run.neverPaysOffFrom.None? then Months(|run.rows|) else Forever
  }

  ghost predicate InTime(loan: LoanInput, from: int, step: real, deadline: Number, steps: nat)
    requires RatesUsable(loan)
  {
    AtMost(EndsWith(loan, from, step, steps), deadline)
  }

  lemma {:induction false} MoreStepsAdd(loan: LoanInput, from: int, step: real, fewer: nat, more: nat)
    requires step > 0.0 && fewer <= more
    ensures AddsExtras(WithMonthly(loan, from, step, more), WithMonthly(loan, from, step, fewer), false)
  {
    if fewer > 0 {
      assert fewer as real * step <= more as real * step;
      assert fewer as real * step > 0.0;
    }
  }

  /** More each month never ends a loan later. */
  lemma {:induction false} MoreEndsNoLater(loan: LoanInput, from: int, step: real, fewer: nat, more: nat)
    requires Usable(loan) && RatesUsable(loan) && step > 0.0 && fewer <= more
    ensures NoLater(EndsWith(loan, from, step, more), EndsWith(loan, from, step, fewer))
  {
    var l, m := WithMonthly(loan, from, step, fewer), WithMonthly(loan, from, step, more);
    RatesReadAlone(loan, l);
    RatesReadAlone(loan, m);
    MoreStepsAdd(loan, from, step, fewer, more);
    ExtraNeverHurts(m, l);
    hide Amortization, AddsExtras, WithMonthly;
  }

  lemma {:induction false} InTimeUpwards(loan: LoanInput, from: int, step: real, deadline: Number, fewer: nat,
                                         more: nat)
    requires Usable(loan) && RatesUsable(loan) && step > 0.0 && fewer <= more
    requires InTime(loan, from, step, deadline, fewer)
    ensures InTime(loan, from, step, deadline, more)
  {
    hide EndsWith;
    MoreEndsNoLater(loan, from, step, fewer, more);
  }

  method FindEnd(loan: LoanInput, from: int, step: real, steps: nat) returns (ends: Months)
    requires RatesUsable(loan)
    ensures ends == EndsWith(loan, from, step, steps)
  {
    hide Amortization;
    RatesReadAlone(loan, WithMonthly(loan, from, step, steps));
    var run := AmortizeLoan(WithMonthly(loan, from, step, steps));
    ends := if run.neverPaysOffFrom.None? then Months(|run.rows|) else Forever;
  }

  /** The least number of steps that is enough, every smaller one falling short and every larger one enough. */
  ghost predicate Least(loan: LoanInput, from: int, step: real, deadline: Number, n: nat)
    requires RatesUsable(loan)
  {
    forall k: nat :: InTime(loan, from, step, deadline, k) <==> n <= k
  }

  predicate FromReached(deadline: Number, from: int) {
    deadline.Infinity? || (deadline.Finite? && deadline.value >= from as real)
  }

  predicate WholeCents(amount: real) {
    amount * 100.0 == (amount * 100.0).Floor as real
  }

  /** The answer of a search: the least number of steps, rounded to the cent. */
  ghost predicate IsLeastAmount(loan: LoanInput, from: int, step: real, deadline: Number, amount: real)
    requires RatesUsable(loan)
  {
    exists n: nat :: IsLeastOf(loan, from, step, deadline, amount, n)
  }

  function Times(n: nat, step: real): real {
    n as real * step
  }

  ghost predicate IsLeastOf(loan: LoanInput, from: int, step: real, deadline: Number, amount: real, n: nat)
    requires RatesUsable(loan)
  {
    && n >= 1 && Least(loan, from, step, deadline, n)
    && amount == Cents(Times(n, step))
    && (WholeCents(step) ==> amount == Times(n, step))
  }

  /** Steps past half the search limit fall short, and with them all fewer. */
  ghost predicate AllTriedFallShort(loan: LoanInput, from: int, step: real, deadline: Number)
    requires RatesUsable(loan)
  {
    exists low: nat :: FallShortTo(loan, from, step, deadline, low)
  }

  ghost predicate FallShortTo(loan: LoanInput, from: int, step: real, deadline: Number, low: nat)
    requires RatesUsable(loan)
  {
    && low as real * step > SEARCH_LIMIT / 2.0
    && forall k: nat :: k <= low ==> !InTime(loan, from, step, deadline, k)
  }

  /** What is owed once the installment of month `from` is paid. */
  ghost function OwedIn(loan: LoanInput, from: int): real
    requires Usable(loan) && RatesUsable(loan) && 1 <= from
  {
    var t := TermsOf(loan);
    AfterInstallment(MonthStart(t, Run(t, from - 1), from), from).balance
  }

  /**
   * What is answered. None when there is nothing to ask; 0 when the loan already ends in time;
   * otherwise the least multiple of the step that ends it in time, to the cent. One is found
   * whenever half the search limit would repay what is owed in the first month, and none when that
   * month is past those the engine amortises; without one, all tried fall short.
   */
  ghost predicate Answered(loan: LoanInput, from: int, byMonth: Number, step: Number, answer: Option<real>)
    requires RatesUsable(loan)
  {
    if !FromReached(byMonth, from) || !step.Payable() || EndsWith(loan, from, step.value, 0) == Months(0)
    then answer == None
    else if InTime(loan, from, step.value, byMonth, 0) then answer == Some(0.0)
    else
      && Usable(loan) && 1 <= from
      && (answer.Some? ==> IsLeastAmount(loan, from, step.value, byMonth, answer.value))
      && (answer.None? ==> AllTriedFallShort(loan, from, step.value, byMonth))
      && (from <= MAX_TERM_MONTHS && OwedIn(loan, from) <= SEARCH_LIMIT / 2.0 ==> answer.Some?)
      && (from > MAX_TERM_MONTHS ==> answer.None?)
  }

  method MonthlyExtraToFinishBy(loan: LoanInput, fromMonth: Number, byMonth: Number, step: Number)
    returns (answer: Option<real>)
    requires RatesUsable(loan)
    ensures Answered(loan, MonthOf(fromMonth), byMonth, step, answer)
  {
    var from := MonthOf(fromMonth);
    BadQuestion(loan, fromMonth, byMonth, step);
    hide *;
    if !FromReached(byMonth, from) || !step.Payable() {
      return None;
    }
    NothingToRepay(loan, from, byMonth, step);
    var ends := FindEnd(loan, from, step.value, 0);
    if ends == Months(0) {
      return None;
    }
    EndIsInTime(loan, from, step.value, byMonth, 0);
    AlreadyInTime(loan, from, byMonth, step);
    if AtMost(ends, byMonth) {
      return Some(0.0);
    }
    var found := FindLeast(loan, from, step.value, byMonth);
    answer := AmountOf(found, step.value);
    Found(loan, from, step.value, byMonth, found);
    FoundAnswers(loan, from, byMonth, step, answer);
  }

  function AmountOf(steps: Option<nat>, step: real): Option<real> {
    if steps.Some? then Some(Cents(Times(steps.value, step))) else None
  }

  lemma {:induction false} BadQuestion(loan: LoanInput, fromMonth: Number, byMonth: Number, step: Number)
    requires RatesUsable(loan)
    ensures MonthOf(fromMonth) >= 1
    ensures step.Payable() ==> step.Finite? && step.value > 0.0
    ensures !FromReached(byMonth, MonthOf(fromMonth)) || !step.Payable() ==>
              Answered(loan, MonthOf(fromMonth), byMonth, step, None)
  {
  }

  lemma {:induction false} NothingToRepay(loan: LoanInput, from: int, byMonth: Number, step: Number)
    requires RatesUsable(loan) && step.Payable()
    ensures !Usable(loan) ==> EndsWith(loan, from, step.value, 0) == Months(0)
    ensures EndsWith(loan, from, step.value, 0) == Months(0) ==> Answered(loan, from, byMonth, step, None)
  {
  }

  lemma {:induction false} AlreadyInTime(loan: LoanInput, from: int, byMonth: Number, step: Number)
    requires RatesUsable(loan) && FromReached(byMonth, from) && step.Payable()
    requires EndsWith(loan, from, step.value, 0) != Months(0)
    ensures InTime(loan, from, step.value, byMonth, 0) ==> Answered(loan, from, byMonth, step, Some(0.0))
  {
    hide EndsWith;
  }

  lemma {:induction false} FoundAnswers(loan: LoanInput, from: int, byMonth: Number, step: Number, answer: Option<real>)
    requires RatesUsable(loan) && Usable(loan) && 1 <= from && FromReached(byMonth, from) && step.Payable()
    requires !InTime(loan, from, step.value, byMonth, 0)
    requires answer.Some? ==> IsLeastAmount(loan, from, step.value, byMonth, answer.value)
    requires answer.None? ==> AllTriedFallShort(loan, from, step.value, byMonth)
    requires from <= MAX_TERM_MONTHS && OwedIn(loan, from) <= SEARCH_LIMIT / 2.0 ==> answer.Some?
    requires from > MAX_TERM_MONTHS ==> answer.None?
    ensures EndsWith(loan, from, step.value, 0) != Months(0) ==> Answered(loan, from, byMonth, step, answer)
  {
    hide EndsWith, InTime, IsLeastAmount, AllTriedFallShort, OwedIn;
  }

  /** What a search that ended says of the loan. */
  lemma {:induction false} Found(loan: LoanInput, from: int, step: real, deadline: Number, found: Option<nat>)
    requires Usable(loan) && RatesUsable(loan) && step > 0.0 && 1 <= from && FromReached(deadline, from)
    requires !InTime(loan, from, step, deadline, 0)
    requires found.Some? ==> found.value >= 1 && Least(loan, from, step, deadline, found.value)
    requires found.None? ==> AllTriedFallShort(loan, from, step, deadline)
    ensures var answer := AmountOf(found, step);
            && (answer.Some? <==> found.Some?)
            && (answer.Some? ==> IsLeastAmount(loan, from, step, deadline, answer.value))
    ensures from <= MAX_TERM_MONTHS && OwedIn(loan, from) <= SEARCH_LIMIT / 2.0 ==> found.Some?
    ensures from > MAX_TERM_MONTHS ==> found.None?
  {
    hide InTime, OwedIn, IsLeastAmount;
    SomeAmount(found, step);
    hide AmountOf;
    if found.Some? {
      FoundIsLeast(loan, from, step, deadline, found.value);
      assert InTime(loan, from, step, deadline, found.value) <==> found.value <= found.value;
      if from > MAX_TERM_MONTHS {
        LateChangesNothing(loan, from, step, deadline, found.value);
      }
    } else {
      var low: nat :| FallShortTo(loan, from, step, deadline, low);
      if from <= MAX_TERM_MONTHS && OwedIn(loan, from) <= SEARCH_LIMIT / 2.0 {
        EnoughAtOnce(loan, from, step, deadline, low);
      }
    }
  }

  lemma {:induction false} SomeAmount(found: Option<nat>, step: real)
    ensures AmountOf(found, step).Some? <==> found.Some?
    ensures found.Some? ==> AmountOf(Some(found.value), step) == AmountOf(found, step)
  {
  }

  lemma {:induction false} FoundIsLeast(loan: LoanInput, from: int, step: real, deadline: Number, n: nat)
    requires RatesUsable(loan) && n >= 1 && Least(loan, from, step, deadline, n)
    ensures IsLeastAmount(loan, from, step, deadline, AmountOf(Some(n), step).value)
  {
    if WholeCents(step) {
      CentsOfSteps(n, step);
    }
    hide Least, Cents, WholeCents, Times;
    assert IsLeastOf(loan, from, step, deadline, AmountOf(Some(n), step).value, n);
  }

  lemma {:induction false} CentsOfSteps(n: nat, step: real)
    requires WholeCents(step)
    ensures Cents(Times(n, step)) == Times(n, step)
  {
    var c := (step * 100.0).Floor;
    assert n as real * step * 100.0 == n as real * c as real == (n * c) as real;
    WholeCentsExact(n as real * step, n * c);
    hide Cents;
  }

  // ---- When the search finds an amount ----

  lemma {:induction false} MonthlyExtras(loan: LoanInput, from: int, step: real, steps: nat, month: int)
    requires step > 0.0 && 1 <= from && 1 <= steps
    ensures month < from ==> ExtrasAt(WithMonthly(loan, from, step, steps), month) == ExtrasAt(loan, month)
    ensures month >= from ==>
              ExtrasAt(WithMonthly(loan, from, step, steps), month).GetOr(NO_EXTRAS).shorten
              == ExtrasAt(loan, month).GetOr(NO_EXTRAS).shorten + steps as real * step
  {
    hide DatedIn, DueIn, UsableRules;
    var rule := LoanExtraRule(Finite(steps as real * step), Finite(1.0), Finite(from as real), None, Shorten, "");
    var list := loan.extraRules + [rule];
    assert steps as real * step > 0.0;
    assert list[..|list| - 1] == loan.extraRules;
    DueStep(DatedIn(loan.prepayments, month), list, month);
    assert UsableRule(rule) && (RuleOf(rule).Due(month) <==> from <= month);
  }

  lemma {:induction false} MonthlyAgrees(loan: LoanInput, from: int, step: real, steps: nat, k: nat)
    requires Usable(loan) && RatesUsable(loan) && step > 0.0 && 1 <= from && 1 <= steps && k < from
    ensures var more := WithMonthly(loan, from, step, steps);
            && Usable(more) && RatesUsable(more)
            && Run(TermsOf(more), k) == Run(TermsOf(loan), k)
            && TermsOf(more) == TermsOf(loan).(extrasIn := TermsOf(more).extrasIn, rateIn := TermsOf(more).rateIn)
            && forall m: int :: TermsOf(more).rateIn(m) == TermsOf(loan).rateIn(m)
  {
    hide RateAt, ExtrasAt, Run;
    var more := WithMonthly(loan, from, step, steps);
    RatesReadAlone(loan, more);
    forall m: int | 1 <= m <= k
      ensures ExtrasAt(more, m) == ExtrasAt(loan, m)
    {
      MonthlyExtras(loan, from, step, steps, m);
    }
    assert LoanExtras.Agree(TermsOf(more), TermsOf(loan), k);
    LoanExtras.SameRun(TermsOf(more), TermsOf(loan), k);
  }

  /** A loan repaid after k months has at most k rows and no verdict. */
  lemma {:induction false} RepaidBy(loan: LoanInput, k: nat)
    requires Usable(loan) && RatesUsable(loan) && k <= MAX_TERM_MONTHS && Run(TermsOf(loan), k).balance == 0.0
    ensures Amortization(loan).neverPaysOffFrom.None? && |Amortization(loan).rows| <= k
  {
    hide MonthStep, RowFor;
    var t := TermsOf(loan);
    StaysRepaid(t, k, MAX_TERM_MONTHS);
    RowsOfRun(t, k);
    SinceInRange(t, MAX_TERM_MONTHS);
  }

  lemma {:induction false} RepaidInTime(loan: LoanInput, from: int, step: real, deadline: Number, steps: nat)
    requires Usable(loan) && RatesUsable(loan) && 1 <= from <= MAX_TERM_MONTHS && FromReached(deadline, from)
    requires var more := WithMonthly(loan, from, step, steps);
             Usable(more) && RatesUsable(more) && Run(TermsOf(more), from).balance == 0.0
    ensures InTime(loan, from, step, deadline, steps)
  {
    hide Run, Amortization, TermsOf;
    RepaidBy(WithMonthly(loan, from, step, steps), from);
  }

  /** One extra payment of all that is owed repays the loan in its month. */
  lemma {:induction false} EnoughAtOnce(loan: LoanInput, from: int, step: real, deadline: Number, steps: nat)
    requires Usable(loan) && RatesUsable(loan) && step > 0.0
    requires 1 <= from <= MAX_TERM_MONTHS && 1 <= steps && FromReached(deadline, from)
    requires OwedIn(loan, from) <= steps as real * step
    ensures InTime(loan, from, step, deadline, steps)
  {
    hide Run, RateAt, ExtrasAt, MonthStep, InTime, WithMonthly, FromReached, AfterInstallment, AtRate;
    var more := WithMonthly(loan, from, step, steps);
    MonthlyAgrees(loan, from, step, steps, from - 1);
    var t, t1 := TermsOf(loan), TermsOf(more);
    RunCarries(t1, from - 1);
    RunCarries(t1, from);
    RunStep(t1, from);
    if Run(t1, from - 1).balance > 0.0 {
      ExtrasAtLeast(loan, loan, from, true);
      MonthlyExtras(loan, from, step, steps, from);
      assert MonthStart(t1, Run(t1, from - 1), from) == MonthStart(t, Run(t, from - 1), from);
      StepIsLowered(t1, Run(t1, from - 1), from);
      PaidOff(t1, Run(t1, from - 1), from);
    }
    RepaidInTime(loan, from, step, deadline, steps);
  }

  lemma {:induction false} PaidOff(t: Terms, s: State, month: int)
    requires AfterInstallment(MonthStart(t, s, month), month).balance <= t.extrasIn(month).GetOr(NO_EXTRAS).shorten
    ensures AfterExtra(Shortened(t, s, month), t.extrasIn(month).GetOr(NO_EXTRAS).lower, Lower, month).balance <= 0.0
  {
    hide AfterInstallment, AtRate, AfterExtraPayment;
  }

  /** Extra payments past the last month the engine amortises change nothing. */
  lemma {:induction false} LateChangesNothing(loan: LoanInput, from: int, step: real, deadline: Number, steps: nat)
    requires Usable(loan) && RatesUsable(loan) && step > 0.0 && from > MAX_TERM_MONTHS && steps >= 1
    ensures InTime(loan, from, step, deadline, steps) <==> InTime(loan, from, step, deadline, 0)
  {
    MonthlyAgrees(loan, from, step, steps, MAX_TERM_MONTHS);
    hide Run, TermsOf;
  }

  /** The search itself: doubling until an amount is enough, then halving the gap. */
  method FindLeast(loan: LoanInput, from: int, step: real, deadline: Number) returns (steps: Option<nat>)
    requires Usable(loan) && RatesUsable(loan) && step > 0.0 && !InTime(loan, from, step, deadline, 0)
    ensures steps.Some? ==> steps.value >= 1 && Least(loan, from, step, deadline, steps.value)
    ensures steps.None? ==> AllTriedFallShort(loan, from, step, deadline)
  {
    hide *;
    var low, high := 0, 1;
    var ends := FindEnd(loan, from, step, high);
    EndIsInTime(loan, from, step, deadline, high);
    while !AtMost(ends, deadline)
      invariant 0 <= low < high
      invariant !InTime(loan, from, step, deadline, low)
      invariant AtMost(ends, deadline) <==> InTime(loan, from, step, deadline, high)
      invariant high <= SearchSteps(step)
      decreases SearchSteps(step) + 1 - high
    {
      low := high;
      high := high * 2;
      if high as real * step > SEARCH_LIMIT {
        AllFallShort(loan, from, step, deadline, low);
        return None;
      }
      WithinLimit(high, step);
      ends := FindEnd(loan, from, step, high);
      EndIsInTime(loan, from, step, deadline, high);
    }
    while high - low > 1
      invariant 0 <= low < high
      invariant !InTime(loan, from, step, deadline, low) && InTime(loan, from, step, deadline, high)
    {
      var mid := (low + high) / 2;
      ends := FindEnd(loan, from, step, mid);
      EndIsInTime(loan, from, step, deadline, mid);
      if AtMost(ends, deadline) {
        high := mid;
      } else {
        low := mid;
      }
    }
    GapIsLeast(loan, from, step, deadline, low);
    steps := Some(high);
  }

  lemma {:induction false} EndIsInTime(loan: LoanInput, from: int, step: real, deadline: Number, steps: nat)
    requires RatesUsable(loan)
    ensures InTime(loan, from, step, deadline, steps) <==> AtMost(EndsWith(loan, from, step, steps), deadline)
  {
  }

  /** As many steps as the search can try, and one at least. */
  ghost function SearchSteps(step: real): (n: int)
    requires step > 0.0
    ensures n >= 1
  {
    MaxInt(1, (SEARCH_LIMIT / step).Floor)
  }

  lemma {:induction false} WithinLimit(high: int, step: real)
    requires step > 0.0 && high as real * step <= SEARCH_LIMIT
    ensures high <= SearchSteps(step)
  {
    var q := SEARCH_LIMIT / step;
    assert q * step == SEARCH_LIMIT;
    assert (q - high as real) * step >= 0.0;
  }

  lemma {:induction false} AllFallShort(loan: LoanInput, from: int, step: real, deadline: Number, low: nat)
    requires Usable(loan) && RatesUsable(loan) && step > 0.0 && !InTime(loan, from, step, deadline, low)
    requires (low * 2) as real * step > SEARCH_LIMIT
    ensures AllTriedFallShort(loan, from, step, deadline)
  {
    hide InTime;
    assert (low * 2) as real * step == 2.0 * (low as real * step);
    forall k: nat | k <= low
      ensures !InTime(loan, from, step, deadline, k)
    {
      if InTime(loan, from, step, deadline, k) {
        InTimeUpwards(loan, from, step, deadline, k, low);
      }
    }
    assert FallShortTo(loan, from, step, deadline, low);
  }

  lemma {:induction false} GapIsLeast(loan: LoanInput, from: int, step: real, deadline: Number, low: nat)
    requires Usable(loan) && RatesUsable(loan) && step > 0.0
    requires !InTime(loan, from, step, deadline, low) && InTime(loan, from, step, deadline, low + 1)
    ensures Least(loan, from, step, deadline, low + 1)
  {
    hide InTime;
    forall k: nat
      ensures InTime(loan, from, step, deadline, k) <==> low + 1 <= k
    {
      if k <= low {
        if InTime(loan, from, step, deadline, k) {
          InTimeUpwards(loan, from, step, deadline, k, low);
        }
      } else {
        InTimeUpwards(loan, from, step, deadline, low + 1, k);
      }
    }
  }

  /** An amount of whole cents is answered as it is. */
  lemma {:induction false} WholeCentsExact(amount: real, cents: int)
    requires amount == cents as real / 100.0
    ensures Cents(amount) == amount
  {
    assert amount * 100.0 + 0.5 == cents as real + 0.5;
    assert (cents as real + 0.5).Floor == cents;
  }

  // ---- The answer, in figures ----

  /** The loan with this much more paid every month from `from` on. */
  ghost predicate PaysMonthly(more: LoanInput, loan: LoanInput, from: int, amount: real) {
    && more == loan.(extraRules := more.extraRules)
    && forall month: int {:trigger ExtraIn(more, month, Shorten)} :: month >= 1 ==>
         && ExtraIn(more, month, Shorten) == ExtraIn(loan, month, Shorten) + (if month >= from then amount else 0.0)
         && ExtraIn(more, month, Lower) == ExtraIn(loan, month, Lower)
         && NotesIn(more, month) == NotesIn(loan, month)
  }

  /** The schedule ends, and by the month asked for; any schedule does by no month at all. */
  ghost predicate EndsBy(loan: LoanInput, byMonth: Number)
    requires RatesUsable(loan)
  {
    || byMonth.Infinity?
    || (byMonth.Finite? && Amortization(loan).neverPaysOffFrom.None?
        && |Amortization(loan).rows| as real <= byMonth.value)
  }

  lemma {:induction false} MonthlyRule(from: int, amount: real, month: int)
    requires from >= 1 && amount > 0.0
    ensures PaysIn(LoanExtraRule(Finite(amount), Finite(1.0), Finite(from as real), None, Shorten, ""), month)
            <==> month >= from
  {
    var r := LoanExtraRule(Finite(amount), Finite(1.0), Finite(from as real), None, Shorten, "");
    if month >= from {
      assert PaysAfter(r, month, 1, from, month - from);
    }
  }

  /** The loan tried with n steps pays n times the step more every month. */
  lemma {:induction false} TriedPays(loan: LoanInput, from: int, step: real, n: nat)
    requires from >= 1 && step > 0.0
    ensures PaysMonthly(WithMonthly(loan, from, step, n), loan, from, n as real * step)
  {
    if n == 0 {
      NothingMore(loan, from);
    } else {
      MorePays(loan, from, n as real * step);
    }
  }

  lemma {:induction false} NothingMore(loan: LoanInput, from: int)
    ensures PaysMonthly(loan, loan, from, 0.0)
  {
    hide ExtraIn, NotesIn;
  }

  lemma {:induction false} MorePays(loan: LoanInput, from: int, amount: real)
    requires from >= 1 && amount > 0.0
    ensures var rule := LoanExtraRule(Finite(amount), Finite(1.0), Finite(from as real), None, Shorten, "");
            PaysMonthly(loan.(extraRules := loan.extraRules + [rule]), loan, from, amount)
  {
    var rule := LoanExtraRule(Finite(amount), Finite(1.0), Finite(from as real), None, Shorten, "");
    var more := loan.(extraRules := loan.extraRules + [rule]);
    hide ExtraIn, NotesIn;
    forall month: int | month >= 1
      ensures ExtraIn(more, month, Shorten) == ExtraIn(loan, month, Shorten) + (if month >= from then amount else 0.0)
      ensures ExtraIn(more, month, Lower) == ExtraIn(loan, month, Lower)
      ensures NotesIn(more, month) == NotesIn(loan, month)
    {
      MonthPays(loan, from, amount, rule, month);
    }
  }

  lemma {:induction false} MonthPays(loan: LoanInput, from: int, amount: real, rule: LoanExtraRule, month: int)
    requires from >= 1 && amount > 0.0
    requires rule == LoanExtraRule(Finite(amount), Finite(1.0), Finite(from as real), None, Shorten, "")
    ensures var more := loan.(extraRules := loan.extraRules + [rule]);
            && ExtraIn(more, month, Shorten) == ExtraIn(loan, month, Shorten) + (if month >= from then amount else 0.0)
            && ExtraIn(more, month, Lower) == ExtraIn(loan, month, Lower)
            && NotesIn(more, month) == NotesIn(loan, month)
  {
    hide Repeats, RepeatNotes, Dates, DateNotes, PaysIn;
    OneMoreRepeat(loan.extraRules, rule, month, Shorten);
    OneMoreRepeat(loan.extraRules, rule, month, Lower);
    MonthlyRule(from, amount, month);
    assert RepeatNote(rule, month) == [];
    assert RepeatNotes(loan.extraRules, month) + [] == RepeatNotes(loan.extraRules, month);
  }

  /** Whether the loan ends in time with n steps more every month. */
  ghost predicate EndsWithSteps(loan: LoanInput, from: int, step: real, byMonth: Number, n: nat)
    requires RatesUsable(loan)
  {
    RatesReadAlone(loan, WithMonthly(loan, from, step, n));
    EndsBy(WithMonthly(loan, from, step, n), byMonth)
  }

  lemma {:induction false} InTimeSays(loan: LoanInput, from: int, step: real, byMonth: Number, n: nat)
    requires RatesUsable(loan)
    ensures InTime(loan, from, step, byMonth, n) <==> EndsWithSteps(loan, from, step, byMonth, n)
    ensures EndsWithSteps(loan, from, step, byMonth, 0) <==> EndsBy(loan, byMonth)
    ensures EndsWith(loan, from, step, 0) == Months(0) <==> Amortization(loan) == LoanAmortization([], None)
  {
    RatesReadAlone(loan, WithMonthly(loan, from, step, n));
    hide Amortization, RateAt;
  }

  /** What is owed after the installment of a month: that of its row. */
  lemma {:induction false} OwedInSays(loan: LoanInput, from: int)
    requires Usable(loan) && RatesUsable(loan) && 1 <= from <= |Amortization(loan).rows|
    ensures var rows := Amortization(loan).rows;
            OwedIn(loan, from) == OwedAfter(loan, rows, from - 1) - rows[from - 1].principal
  {
    hide *;
    var t := TermsOf(loan);
    AnswerRows(loan, from - 1);
    AnswerRows(loan, from);
    AnswerIsPrefix(loan);
    RunCarries(t, from - 1);
    RunStep(t, from);
    StepAddsRow(t, from);
    RowOwes(t, from);
    OwedInIs(loan, from);
    assert Run(t, from).rows[from - 1] == Amortization(loan).rows[from - 1];
  }

  lemma {:induction false} OwedInIs(loan: LoanInput, from: int)
    requires Usable(loan) && RatesUsable(loan) && 1 <= from
    ensures var t := TermsOf(loan);
            OwedIn(loan, from) == AfterInstallment(MonthStart(t, Run(t, from - 1), from), from).balance
  {
    hide Run, TermsOf, MonthStart, AfterInstallment;
  }

  lemma {:induction false} RowOwes(t: Terms, month: nat)
    requires month >= 1 && SoundTerms(t) && CarriedState(t, Run(t, month - 1), month - 1)
    requires Run(t, month - 1).balance > 0.0
    ensures var before := Run(t, month - 1);
            AfterInstallment(MonthStart(t, before, month), month).balance
            == before.balance - RowFor(t, month).principal
  {
    var due := MonthStart(t, Run(t, month - 1), month);
    StartPayable(t, Run(t, month - 1), month);
    InstallmentSays(due, month);
    hide Run, MonthStart, AfterInstallment, PrincipalPaid, AfterExtras, LeftOwed, CarriedState;
  }

  /** With n steps more every month it ends in time, and with fewer it does not. */
  ghost predicate IsLeastCount(loan: LoanInput, from: int, step: real, byMonth: Number, n: nat)
    requires RatesUsable(loan)
  {
    n >= 1 && forall k: nat :: EndsWithSteps(loan, from, step, byMonth, k) <==> n <= k
  }

  ghost predicate NoneUpTo(loan: LoanInput, from: int, step: real, byMonth: Number, n: nat)
    requires RatesUsable(loan)
  {
    n as real * step > 500000000000000.0 && forall k: nat :: k <= n ==> !EndsWithSteps(loan, from, step, byMonth, k)
  }

  /** The amount found: the least multiple of the step, rounded to the cent. */
  ghost predicate IsFound(loan: LoanInput, from: int, step: real, byMonth: Number, amount: real)
    requires RatesUsable(loan)
  {
    exists n: nat :: IsLeastCount(loan, from, step, byMonth, n) && InCents(n as real * step, amount)
  }

  predicate InCents(x: real, amount: real) {
    amount == (x * 100.0 + 0.5).Floor as real / 100.0
  }

  lemma {:induction false} LeastCount(loan: LoanInput, from: int, step: real, byMonth: Number, amount: real)
    requires RatesUsable(loan) && IsLeastAmount(loan, from, step, byMonth, amount)
    ensures IsFound(loan, from, step, byMonth, amount)
  {
    var n: nat :| IsLeastOf(loan, from, step, byMonth, amount, n);
    forall k: nat
      ensures EndsWithSteps(loan, from, step, byMonth, k) <==> n <= k
    {
      InTimeSays(loan, from, step, byMonth, k);
    }
    hide InTime, EndsWithSteps;
    assert IsLeastCount(loan, from, step, byMonth, n) && InCents(n as real * step, amount);
  }

  lemma {:induction false} NoneTried(loan: LoanInput, from: int, step: real, byMonth: Number) returns (n: nat)
    requires RatesUsable(loan) && AllTriedFallShort(loan, from, step, byMonth)
    ensures NoneUpTo(loan, from, step, byMonth, n)
  {
    n :| FallShortTo(loan, from, step, byMonth, n);
    forall k: nat | k <= n
      ensures !EndsWithSteps(loan, from, step, byMonth, k)
    {
      InTimeSays(loan, from, step, byMonth, k);
    }
    hide InTime, EndsWithSteps;
  }

  /**
   * The answer in figures. None for a step that is not positive, a month asked for before the first
   * one, or no schedule; 0 when the loan already ends in time. Otherwise an amount found is the
   * least that does it, and one is found whenever at most 500 million million is owed after the
   * first month's installment.
   */
  lemma {:induction false} AnswerSays(loan: LoanInput, fromMonth: Number, byMonth: Number, step: Number,
                                      answer: Option<real>)
    requires RatesUsable(loan) && Answered(loan, MonthOf(fromMonth), byMonth, step, answer)
    ensures var from := if fromMonth.Finite? && fromMonth.value >= 1.0 then fromMonth.value.Floor else 1;
            if !(step.Finite? && step.value > 0.0)
               || !(byMonth.Infinity? || (byMonth.Finite? && byMonth.value >= from as real))
               || Amortization(loan) == LoanAmortization([], None)
            then answer == None
            else if EndsBy(loan, byMonth) then answer == Some(0.0)
            else
              && Usable(loan)
              && (answer.Some? ==> IsFound(loan, from, step.value, byMonth, answer.value))
              && (answer.None? ==> exists n: nat :: NoneUpTo(loan, from, step.value, byMonth, n))
              && (from <= 1200 && OwedIn(loan, from) <= 500000000000000.0 ==> answer.Some?)
              && (from > 1200 ==> answer.None?)
  {
    var from := MonthOf(fromMonth);
    assert from == if fromMonth.Finite? && fromMonth.value >= 1.0 then fromMonth.value.Floor else 1;
    if step.Payable() {
      InTimeSays(loan, from, step.value, byMonth, 0);
      if answer.Some? && IsLeastAmount(loan, from, step.value, byMonth, answer.value) {
        LeastCount(loan, from, step.value, byMonth, answer.value);
      }
      if AllTriedFallShort(loan, from, step.value, byMonth) {
        var n := NoneTried(loan, from, step.value, byMonth);
      }
    }
    hide Amortization, InTime, EndsWith, EndsWithSteps, EndsBy, IsLeastAmount, AllTriedFallShort, OwedIn, IsFound;
    hide NoneUpTo, RatesUsable;
  }
}
