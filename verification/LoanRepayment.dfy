/**
 * What a schedule comes to: its rows add up to what was borrowed, a keep-term loan is repaid within
 * its term, and the never-repaid verdict is exact.
 */
module LoanRepayment {
  import opened Basics
  import opened Annuity
  import opened LoanSchedule
  import opened LoanInvariants

  // ---- The rows of a run ----

  ghost function RowFor(t: Terms, month: int): ScheduleRow
    requires month >= 1
  {
    RowOf(MonthStart(t, Run(t, month - 1), month), t.extrasIn(month), month, t.start)
  }

  /** One row for every month something was owed in, and none after the loan is repaid. */
  lemma {:induction false} RowsOfRun(t: Terms, k: nat)
    requires SoundTerms(t) && k <= MAX_TERM_MONTHS
    ensures |Run(t, k).rows| <= k
    ensures |Run(t, k).rows| < k ==> Run(t, k).balance == 0.0
    ensures Run(t, k).balance > 0.0 ==> |Run(t, k).rows| == k
    ensures forall j {:trigger Run(t, j)} :: 0 <= j < |Run(t, k).rows| ==>
              Run(t, j).balance > 0.0 && Run(t, k).rows[j] == RowFor(t, j + 1)
    ensures forall j {:trigger Run(t, j)} :: |Run(t, k).rows| <= j <= k ==> Run(t, j) == Run(t, k)
  {
    hide MonthStep, RowFor;
    RunCarries(t, k);
    if k == 0 {
    } else {
      RowsOfRun(t, k - 1);
      RunCarries(t, k - 1);
      var s := Run(t, k - 1);
      if s.balance > 0.0 {
        StepAddsRow(t, k);
        forall j {:trigger Run(t, j)} | 0 <= j < k
          ensures Run(t, j).balance > 0.0 && Run(t, k).rows[j] == RowFor(t, j + 1)
        {
        }
      }
    }
  }

  lemma {:induction false} StepAddsRow(t: Terms, month: nat)
    requires month >= 1
    ensures MonthStep(t, Run(t, month - 1), month).rows == Run(t, month - 1).rows + [RowFor(t, month)]
    ensures MonthStep(t, Run(t, month - 1), month).balance == RowFor(t, month).balance
  {
    hide AtRate, AfterExtra, AfterInstallment, ExtraPaid, Run;
  }

  /** What a row says of its month: it starts from the balance before and ends at the one after. */
  lemma {:induction false} RowMeaning(t: Terms, month: nat)
    requires SoundTerms(t) && 1 <= month <= MAX_TERM_MONTHS && Run(t, month - 1).balance > 0.0
    ensures var row, before := RowFor(t, month), Run(t, month - 1).balance;
            && row.month == month && row.rate == t.rateIn(month)
            && row.interest == before * MonthlyRate(t.rateIn(month))
            && row.payment == row.principal + row.interest
            && row.balance == before - row.principal - row.prepayment
            && row.balance == Run(t, month).balance
            && row.balance >= 0.0 && row.prepayment >= 0.0
  {
    hide MonthStep, AtRate, AfterInstallment, AfterExtra, RowOf, ExtraPaid;
    RunCarries(t, month - 1);
    var s := Run(t, month - 1);
    StartPayable(t, s, month);
    StepAddsRow(t, month);
    StepCarries(t, s, month);
    PartsOfRow(MonthStart(t, s, month), t.extrasIn(month), month, t.start);
  }

  lemma {:induction false} PartsOfRow(due: Position, extra: Option<MonthExtras>, month: int,
                                      start: Option<CalendarMonths.CivilDate>)
    requires Payable(due, month)
    ensures var row := RowOf(due, extra, month, start);
            && row.month == month && row.rate == due.plan.rate
            && row.interest == due.balance * MonthlyRate(due.plan.rate)
            && row.payment == row.principal + row.interest
            && row.balance == due.balance - row.principal - row.prepayment
            && row.prepayment >= 0.0
  {
    InstallmentCarries(due, month);
    var paid, x := AfterInstallment(due, month), extra.GetOr(NO_EXTRAS);
    ExtraCarries(paid, x.shorten, Shorten, month);
    ExtraCarries(AfterExtra(paid, x.shorten, Shorten, month), x.lower, Lower, month);
  }

  // ---- Conservation ----

  ghost function Principals(rows: seq<ScheduleRow>): real {
    if rows == [] then 0.0 else Principals(rows[..|rows| - 1]) + rows[|rows| - 1].principal
  }

  ghost function Interests(rows: seq<ScheduleRow>): real {
    if rows == [] then 0.0 else Interests(rows[..|rows| - 1]) + rows[|rows| - 1].interest
  }

  ghost function Payments(rows: seq<ScheduleRow>): real {
    if rows == [] then 0.0 else Payments(rows[..|rows| - 1]) + rows[|rows| - 1].payment
  }

  ghost function Prepayments(rows: seq<ScheduleRow>): real {
    if rows == [] then 0.0 else Prepayments(rows[..|rows| - 1]) + rows[|rows| - 1].prepayment
  }

  lemma {:induction false} RunConserves(t: Terms, k: nat)
    requires SoundTerms(t) && k <= MAX_TERM_MONTHS
    ensures var s := Run(t, k);
            && Principals(s.rows) + Prepayments(s.rows) + s.balance == t.principal
            && Payments(s.rows) == Principals(s.rows) + Interests(s.rows)
  {
    hide MonthStep, RowFor;
    if k == 0 {
    } else {
      RunConserves(t, k - 1);
      RunCarries(t, k - 1);
      var s := Run(t, k - 1);
      if s.balance > 0.0 {
        StepAddsRow(t, k);
        RowMeaning(t, k);
        var row, rows := RowFor(t, k), Run(t, k).rows;
        assert rows == s.rows + [row];
        assert rows[..|rows| - 1] == s.rows;
      }
    }
  }

  // ---- Keep-term: every month repays something, and the end month never moves out ----

  /** At the plan's installment, at most half a cent is left once its end month is paid. */
  ghost predicate OnCourse(balance: real, plan: Plan, month: int) {
    && plan.endMonth.Months? && plan.endMonth.n >= month
    && Owing(balance, MonthlyRate(plan.rate), plan.installment, plan.endMonth.n - month) <= HALF_CENT
  }

  lemma {:induction false} AnnuityOwing(balance: real, r: Rate, installment: real, n: nat, f: real)
    requires f == Factor(r, n) && balance == installment * f
    ensures Owing(balance, r, installment, n) == 0.0
    decreases n
  {
    if n == 0 {
    } else {
      var f0 := Factor(r, n - 1);
      assert f * (1.0 + r) == 1.0 + f0;
      var next := balance * (1.0 + r) - installment;
      assert next == installment * (f * (1.0 + r)) - installment;
      AnnuityOwing(next, r, installment, n - 1, f0);
    }
  }

  lemma {:induction false} SpreadOnCourse(balance: real, rate: Rate, endMonth: Months, month: int)
    requires endMonth.Months? && endMonth.n > month
    ensures OnCourse(balance, Plan(AnnuityPayment(balance, rate, endMonth.Plus(-month)), rate, endMonth), month)
  {
    var n := endMonth.n - month;
    var r := MonthlyRate(rate);
    var a, f := AnnuityPayment(balance, rate, Months(n)), Factor(r, n);
    AnnuityRepays(balance, rate, n, f, a);
    AnnuityOwing(balance, r, a, n, f);
    hide AnnuityPayment, Owing, Factor;
  }

  /** An installment that does not cover the interest never brings the balance down. */
  lemma {:induction false} StuckOwes(balance: real, r: Rate, installment: real, n: nat)
    requires installment <= balance * r
    ensures Owing(balance, r, installment, n) >= balance
    decreases n
  {
    if n == 0 {
    } else {
      var next := balance * (1.0 + r) - installment;
      assert next >= balance;
      assert next * r >= balance * r;
      StuckOwes(next, r, installment, n - 1);
    }
  }

  lemma {:induction false} LessOwed(b1: real, b: real, r: Rate, installment: real, n: nat)
    requires b1 <= b
    ensures Owing(b1, r, installment, n) <= Owing(b, r, installment, n)
    decreases n
  {
    if n == 0 {
    } else {
      assert b1 * (1.0 + r) <= b * (1.0 + r);
      LessOwed(b1 * (1.0 + r) - installment, b * (1.0 + r) - installment, r, installment, n - 1);
    }
  }

  ghost predicate KeepTermState(t: Terms, s: State, k: nat) {
    s.balance > 0.0 && k > 0 ==>
      && s.plan.Some? && s.plan.value.endMonth.Within(t.term)
      && OnCourse(s.balance, s.plan.value, k)
  }

  lemma {:induction false} StartOnCourse(t: Terms, s: State, month: int)
    requires 1 <= month && SoundTerms(t) && !t.keepInstallment
    requires CarriedState(t, s, month - 1) && KeepTermState(t, s, month - 1) && s.balance > 0.0
    ensures var due := MonthStart(t, s, month);
            due.plan.endMonth.Within(t.term) && OnCourse(s.balance, due.plan, month - 1)
  {
    hide AnnuityPayment, Owing;
    var endMonth := if s.plan.Some? then s.plan.value.endMonth else Months(t.term);
    SpreadOnCourse(s.balance, t.rateIn(month), endMonth, month - 1);
  }

  lemma {:induction false} OwingNext(balance: real, r: Rate, installment: real, n: nat, next: real)
    requires n >= 1 && next == balance * (1.0 + r) - installment
    ensures Owing(balance, r, installment, n) == Owing(next, r, installment, n - 1)
  {
  }

  lemma {:induction false} InstallmentOnCourse(due: Position, month: int)
    requires Payable(due, month) && OnCourse(due.balance, due.plan, month - 1)
    ensures var paid := AfterInstallment(due, month);
            && paid.balance < due.balance
            && (paid.balance > 0.0 ==> OnCourse(paid.balance, due.plan, month))
  {
    if !IsLast(due, month) {
      var r, a, n := MonthlyRate(due.plan.rate), due.plan.installment, due.plan.endMonth.n - (month - 1);
      var next := due.balance * (1.0 + r) - a;
      assert next == AfterInstallment(due, month).balance;
      OwingNext(due.balance, r, a, n, next);
      if a <= due.balance * r {
        assert next * r >= due.balance * r;
        StuckOwes(next, r, a, n - 1);
      }
    }
  }

  lemma {:induction false} ExtraOnCourse(p: Position, amount: real, mode: ExtraMode, month: int)
    requires Carried(p, month) && (p.balance > 0.0 ==> OnCourse(p.balance, p.plan, month))
    ensures var next := AfterExtra(p, amount, mode, month);
            && (next.balance > 0.0 ==> OnCourse(next.balance, next.plan, month))
            && (p.plan.endMonth.Months? ==> next.plan.endMonth.Within(p.plan.endMonth.n))
  {
    hide AnnuityPayment, Owing;
    ExtraCarries(p, amount, mode, month);
    var next := AfterExtra(p, amount, mode, month);
    if amount > 0.0 && next.balance > 0.0 {
      if mode == Lower {
        SpreadOnCourse(next.balance, p.plan.rate, p.plan.endMonth, month);
      } else {
        LessOwed(next.balance, p.balance, MonthlyRate(p.plan.rate), p.plan.installment, p.plan.endMonth.n - month);
      }
    }
  }

  lemma {:induction false} StepKeepsTerm(t: Terms, s: State, month: int)
    requires 1 <= month && SoundTerms(t) && !t.keepInstallment
    requires CarriedState(t, s, month - 1) && KeepTermState(t, s, month - 1) && s.balance > 0.0
    ensures KeepTermState(t, MonthStep(t, s, month), month)
    ensures MonthStep(t, s, month).balance < s.balance
  {
    hide AtRate, AfterInstallment, AfterExtra, RowOf, ExtraPaid, OnCourse;
    StartPayable(t, s, month);
    StartOnCourse(t, s, month);
    var due := MonthStart(t, s, month);
    InstallmentCarries(due, month);
    InstallmentOnCourse(due, month);
    var paid, x := AfterInstallment(due, month), t.extrasIn(month).GetOr(NO_EXTRAS);
    InstallmentKeepsPlan(due, month);
    ExtraCarries(paid, x.shorten, Shorten, month);
    ExtraPaidBounds(paid, x.shorten);
    ExtraOnCourse(paid, x.shorten, Shorten, month);
    var shortened := AfterExtra(paid, x.shorten, Shorten, month);
    ExtraCarries(shortened, x.lower, Lower, month);
    ExtraPaidBounds(shortened, x.lower);
    ExtraOnCourse(shortened, x.lower, Lower, month);
  }

  lemma {:induction false} InstallmentKeepsPlan(p: Position, month: int)
    ensures AfterInstallment(p, month).plan == p.plan
    ensures AfterInstallment(p, month).outOfReachSince == p.outOfReachSince
  {
  }

  /** An extra payment pays no more than is owed, and its own amount give or take half a cent. */
  lemma {:induction false} ExtraPaidBounds(p: Position, amount: real)
    requires p.balance >= 0.0
    ensures 0.0 <= ExtraPaid(p, amount) <= p.balance
    ensures amount >= 0.0 ==> ExtraPaid(p, amount) <= amount + HALF_CENT
  {
  }

  lemma {:induction false} RunKeepsTerm(t: Terms, k: nat)
    requires SoundTerms(t) && !t.keepInstallment && k <= MAX_TERM_MONTHS
    ensures KeepTermState(t, Run(t, k), k)
    ensures k > 0 && Run(t, k - 1).balance > 0.0 ==> Run(t, k).balance < Run(t, k - 1).balance
  {
    hide MonthStep, OnCourse;
    if k == 0 {
    } else {
      RunKeepsTerm(t, k - 1);
      RunCarries(t, k - 1);
      if Run(t, k - 1).balance > 0.0 {
        StepKeepsTerm(t, Run(t, k - 1), k);
      }
    }
  }

  // ---- The schedule as it is answered ----

  /** Owed once the first `k` rows are paid. */
  ghost function OwedAfter(loan: LoanInput, rows: seq<ScheduleRow>, k: nat): real
    requires Usable(loan) && k <= |rows|
  {
    if k == 0 then loan.principal.value else rows[k - 1].balance
  }

  lemma {:induction false} AnswerIsPrefix(loan: LoanInput)
    requires Usable(loan) && RatesUsable(loan)
    ensures Amortization(loan).rows <= Run(TermsOf(loan), MAX_TERM_MONTHS).rows
    ensures SoundTerms(TermsOf(loan)) && TermsOf(loan).principal == loan.principal.value
  {
    hide Run;
    SinceInRange(TermsOf(loan), MAX_TERM_MONTHS);
  }

  lemma {:induction false} RunPrefix(t: Terms, k: nat)
    requires SoundTerms(t) && k <= |Run(t, MAX_TERM_MONTHS).rows|
    ensures k <= MAX_TERM_MONTHS
    ensures Run(t, k).rows == Run(t, MAX_TERM_MONTHS).rows[..k]
    ensures k > 0 ==> Run(t, k).rows[k - 1].balance == Run(t, k).balance
    ensures k < |Run(t, MAX_TERM_MONTHS).rows| ==> Run(t, k).balance > 0.0
  {
    hide MonthStep, RowFor;
    RowsOfRun(t, MAX_TERM_MONTHS);
    RowsOfRun(t, k);
    if k > 0 {
      var j := k - 1;
      assert Run(t, j).balance > 0.0;
      StepAddsRow(t, k);
      RunCarries(t, j);
    }
    forall j | 0 <= j < k
      ensures Run(t, k).rows[j] == Run(t, MAX_TERM_MONTHS).rows[j]
    {
      assert Run(t, j).balance > 0.0;
    }
  }

  /** The rows an answer keeps, k of them, are those of the run after k months. */
  lemma {:induction false} AnswerRows(loan: LoanInput, k: nat)
    requires Usable(loan) && RatesUsable(loan)
    requires k <= |Amortization(loan).rows|
    ensures k <= MAX_TERM_MONTHS
    ensures Run(TermsOf(loan), k).rows == Amortization(loan).rows[..k]
    ensures Run(TermsOf(loan), k).balance == OwedAfter(loan, Amortization(loan).rows, k)
    ensures k < |Amortization(loan).rows| ==> Run(TermsOf(loan), k).balance > 0.0
  {
    hide MonthStep, Amortization, TermsOf;
    AnswerIsPrefix(loan);
    RunPrefix(TermsOf(loan), k);
  }

  /**
   * Nothing is lost: after any number of rows what was repaid and what is owed add up to the
   * principal, the installments are principal and interest, each month charges its rate on what was
   * owed before it, and no extra payment is more than was still owed.
   */
  lemma {:induction false} ScheduleConserves(loan: LoanInput, k: nat)
    requires Usable(loan) && RatesUsable(loan)
    requires k <= |Amortization(loan).rows|
    ensures var rows := Amortization(loan).rows;
            && Principals(rows[..k]) + Prepayments(rows[..k]) + OwedAfter(loan, rows, k) == loan.principal.value
            && Payments(rows[..k]) == Principals(rows[..k]) + Interests(rows[..k])
            && (k < |rows| ==>
                  && rows[k].month == k + 1
                  && rows[k].interest == OwedAfter(loan, rows, k) * MonthlyRate(ChargedAt(loan, k + 1))
                  && 0.0 <= rows[k].prepayment <= OwedAfter(loan, rows, k) - rows[k].principal)
  {
    AnswerIsPrefix(loan);
    AnswerRows(loan, k);
    RunConserves(TermsOf(loan), k);
    if k < |Amortization(loan).rows| {
      RowConserves(loan, k);
    }
    hide *;
  }

  lemma {:induction false} RowConserves(loan: LoanInput, k: nat)
    requires Usable(loan) && RatesUsable(loan)
    requires k < |Amortization(loan).rows|
    ensures var row, owed := Amortization(loan).rows[k], OwedAfter(loan, Amortization(loan).rows, k);
            && row.month == k + 1
            && row.interest == owed * MonthlyRate(ChargedAt(loan, k + 1))
            && 0.0 <= row.prepayment <= owed - row.principal
  {
    hide MonthStep, RowFor, RateAt, Amortization, SoundTerms;
    var t := TermsOf(loan);
    AnswerIsPrefix(loan);
    AnswerRows(loan, k);
    AnswerRows(loan, k + 1);
    RowMeaning(t, k + 1);
    StepAddsRow(t, k + 1);
  }

  /** A keep-term loan is always repaid, within its term, owing less after every month. */
  lemma {:induction false} KeepTermRepaid(loan: LoanInput)
    requires Usable(loan) && RatesUsable(loan) && loan.onRateChange == KeepTerm
    ensures var a := Amortization(loan);
            && a.neverPaysOffFrom == None
            && 1 <= |a.rows| <= TermOf(loan)
            && a.rows[|a.rows| - 1].balance == 0.0
            && (forall k :: 0 <= k < |a.rows| ==> OwedAfter(loan, a.rows, k + 1) < OwedAfter(loan, a.rows, k))
            && Principals(a.rows) + Prepayments(a.rows) == loan.principal.value
            && Payments(a.rows) + Prepayments(a.rows) == loan.principal.value + Interests(a.rows)
  {
    hide MonthStep, RowFor, RateAt, OnCourse, Run, Amortization, Principals, Prepayments, Interests, Payments;
    var t, a := TermsOf(loan), Amortization(loan);
    KeepTermEnds(t);
    RowsAtEnd(loan);
    AnswerRows(loan, |a.rows|);
    StartsOwing(t);
    RowsOfRun(t, t.term);
    RunConserves(t, |a.rows|);
    assert a.rows[..|a.rows|] == a.rows;
    forall k | 0 <= k < |a.rows|
      ensures OwedAfter(loan, a.rows, k + 1) < OwedAfter(loan, a.rows, k)
    {
      AnswerRows(loan, k);
      AnswerRows(loan, k + 1);
      RunKeepsTerm(t, k + 1);
    }
  }

  lemma {:induction false} StartsOwing(t: Terms)
    ensures Run(t, 0).balance == t.principal
  {
  }

  lemma {:induction false} KeepTermEnds(t: Terms)
    requires SoundTerms(t) && !t.keepInstallment
    ensures Run(t, t.term).balance == 0.0
  {
    hide Run;
    RunKeepsTerm(t, t.term);
    RunCarries(t, t.term);
  }

  lemma {:induction false} RowsAtEnd(loan: LoanInput)
    requires Usable(loan) && RatesUsable(loan) && Run(TermsOf(loan), TermOf(loan)).balance == 0.0
    ensures Amortization(loan) == LoanAmortization(Run(TermsOf(loan), TermOf(loan)).rows, None)
  {
    hide Run;
    StaysRepaid(TermsOf(loan), TermOf(loan), MAX_TERM_MONTHS);
    SinceInRange(TermsOf(loan), MAX_TERM_MONTHS);
  }

  lemma {:induction false} StaysRepaid(t: Terms, j: nat, k: nat)
    requires j <= k && Run(t, j).balance <= 0.0
    ensures Run(t, k) == Run(t, j)
  {
    hide MonthStep;
    if j < k {
      StaysRepaid(t, j, k - 1);
    }
  }

  // ---- The never-repaid verdict ----

  /** After month k the end month is past what the engine amortises. */
  ghost predicate OutOfReach(t: Terms, k: nat) {
    var s := Run(t, k);
    s.plan.Some? && !WithinReach(s.plan.value)
  }

  /** The watch holds exactly while the end month is out of reach. */
  ghost predicate Watched(p: Position) {
    p.outOfReachSince.Some? <==> !WithinReach(p.plan)
  }

  lemma {:induction false} ExtraReach(p: Position, amount: real, mode: ExtraMode, month: int)
    requires Watched(p)
    ensures var next := AfterExtra(p, amount, mode, month);
            && Watched(next)
            && (!WithinReach(next.plan) ==> !WithinReach(p.plan) && next.outOfReachSince == p.outOfReachSince)
  {
    hide AnnuityPayment, InstallmentsToRepay, ExtraPaid;
  }

  /** Only a rate change moves an end month out of reach, and the watch starts in that month. */
  lemma {:induction false} StepReach(t: Terms, s: State, month: int)
    requires s.outOfReachSince.Some? <==> s.plan.Some? && !WithinReach(s.plan.value)
    ensures var next := MonthStep(t, s, month);
            && next.plan.Some?
            && (next.outOfReachSince.Some? <==> !WithinReach(next.plan.value))
            && (next.outOfReachSince.Some? ==>
                  next.outOfReachSince == if s.outOfReachSince.Some? then s.outOfReachSince else Some(month))
  {
    hide TermsFrom, AfterInstallment, AfterExtra, RowOf;
    var due := MonthStart(t, s, month);
    var paid, x := AfterInstallment(due, month), t.extrasIn(month).GetOr(NO_EXTRAS);
    InstallmentKeepsPlan(due, month);
    ExtraReach(paid, x.shorten, Shorten, month);
    ExtraReach(AfterExtra(paid, x.shorten, Shorten, month), x.lower, Lower, month);
  }

  /** The watch names the first month of the out-of-reach stretch that month k is in. */
  ghost predicate WatchExact(t: Terms, k: nat) {
    var since := Run(t, k).outOfReachSince;
    && (since.Some? <==> OutOfReach(t, k))
    && (since.Some? ==>
          && 1 <= since.value <= k
          && (forall j: nat :: since.value <= j <= k ==> OutOfReach(t, j))
          && !OutOfReach(t, since.value - 1))
  }

  lemma {:induction false} WatchIsExact(t: Terms, k: nat)
    requires SoundTerms(t) && k <= MAX_TERM_MONTHS && Run(t, k).balance > 0.0
    ensures WatchExact(t, k)
  {
    hide MonthStep;
    RunCarries(t, k);
    if k == 0 {
    } else {
      WatchIsExact(t, k - 1);
      RunCarries(t, k - 1);
      StepReach(t, Run(t, k - 1), k);
    }
  }

  /**
   * The verdict is exact: a loan is never repaid when it still owes after the last month the engine
   * amortises, its end month is then out of reach, and the verdict's month is the first of the
   * unbroken run of out-of-reach months that lasts to the end. The rows are the months before it.
   */
  lemma {:induction false} VerdictExact(loan: LoanInput)
    requires Usable(loan) && RatesUsable(loan)
    ensures var t, a := TermsOf(loan), Amortization(loan);
            && (a.neverPaysOffFrom.Some? <==> Run(t, MAX_TERM_MONTHS).balance > 0.0)
            && (a.neverPaysOffFrom.Some? ==>
                  var from := a.neverPaysOffFrom.value;
                  && 1 <= from <= MAX_TERM_MONTHS && |a.rows| == from - 1
                  && !OutOfReach(t, from - 1)
                  && forall j :: from <= j <= MAX_TERM_MONTHS ==> OutOfReach(t, j))
            && (a.neverPaysOffFrom.None? ==> 1 <= |a.rows| && a.rows[|a.rows| - 1].balance == 0.0)
            && (loan.onRateChange == KeepTerm ==> a.neverPaysOffFrom.None?)
  {
    hide MonthStep, RowFor, RateAt, OutOfReach;
    var t, a := TermsOf(loan), Amortization(loan);
    SinceInRange(t, MAX_TERM_MONTHS);
    RowsOfRun(t, MAX_TERM_MONTHS);
    RunCarries(t, MAX_TERM_MONTHS);
    var s := Run(t, MAX_TERM_MONTHS);
    if s.balance > 0.0 {
      WatchIsExact(t, MAX_TERM_MONTHS);
      OutAtTheEnd(t);
    } else {
      assert Run(t, 0).balance > 0.0;
      AnswerRows(loan, |a.rows|);
    }
    if loan.onRateChange == KeepTerm {
      KeepTermRepaid(loan);
    }
  }

  lemma {:induction false} OutAtTheEnd(t: Terms)
    requires SoundTerms(t) && Run(t, MAX_TERM_MONTHS).balance > 0.0
    ensures OutOfReach(t, MAX_TERM_MONTHS)
  {
    hide MonthStep;
    RunCarries(t, MAX_TERM_MONTHS);
  }
}
