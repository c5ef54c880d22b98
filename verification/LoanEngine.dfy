/** The engine's own loops (shared/loanSchedule.ts), each proved to compute what LoanSchedule says. */
module LoanEngine {
  import opened Basics
  import opened CalendarMonths
  import opened LoanSchedule
  import opened LoanRates
  import opened LoanRepayment

  function LookUp(byMonth: map<int, MonthExtras>, month: int): Option<MonthExtras> {
    if month in byMonth then Some(byMonth[month]) else None
  }

  ghost predicate Lists(byMonth: map<int, MonthExtras>, list: seq<LoanPrepayment>) {
    forall m: int :: LookUp(byMonth, m) == DatedIn(list, m)
  }

  method ExtrasOf(list: seq<LoanPrepayment>) returns (byMonth: map<int, MonthExtras>)
    ensures Lists(byMonth, list)
  {
    byMonth := map[];
    for i := 0 to |list|
      invariant Lists(byMonth, list[..i])
    {
      assert list[..i + 1][..i] == list[..i];
      var p := list[i];
      if UsablePrepayment(p) {
        var month := p.month.value.Floor;
        var entry := if month in byMonth then byMonth[month] else NO_EXTRAS;
        byMonth := byMonth[month := entry.Add(p.mode, p.amount.value, p.note)];
      }
    }
    assert list[..|list|] == list;
  }

  method RulesOf(list: seq<LoanExtraRule>) returns (rules: seq<Rule>)
    ensures rules == UsableRules(list)
  {
    rules := [];
    for i := 0 to |list|
      invariant rules == UsableRules(list[..i])
    {
      assert list[..i + 1][..i] == list[..i];
      if UsableRule(list[i]) {
        rules := rules + [RuleOf(list[i])];
      }
    }
    assert list[..|list|] == list;
  }

  method ExtrasIn(month: int, dated: map<int, MonthExtras>, rules: seq<Rule>) returns (extra: Option<MonthExtras>)
    requires WellFormedRules(rules)
    ensures extra == DueIn(LookUp(dated, month), rules, month)
  {
    var own := LookUp(dated, month);
    var entry: Option<MonthExtras> := None;
    for i := 0 to |rules|
      invariant (if entry.Some? then entry else own) == DueIn(own, rules[..i], month)
    {
      assert rules[..i + 1][..i] == rules[..i];
      var rule := rules[i];
      if !rule.Due(month) {
        continue;
      }
      if entry.None? {
        entry := Some(own.GetOr(NO_EXTRAS));
      }
      entry := Some(entry.value.Add(rule.mode, rule.amount, rule.note));
    }
    assert rules[..|rules|] == rules;
    extra := if entry.Some? then entry else own;
  }

  /** Once a loan no longer continues, nothing changes any more. */
  lemma {:induction false} StoppedStays(t: Terms, j: nat, k: nat)
    requires j <= k && !Continues(Run(t, j), j + 1, t.term)
    ensures Run(t, k) == Run(t, j)
  {
    hide MonthStep;
    if j < k {
      StoppedStays(t, j, k - 1);
      assert !Continues(Run(t, j), k, t.term);
    }
  }

  lemma {:induction false} LoopStarts(loan: LoanInput)
    requires RatesUsable(loan)
    ensures !Usable(loan) ==> Amortization(loan) == LoanAmortization([], None)
    ensures 1 <= MAX_TERM_MONTHS
    ensures Usable(loan) ==>
              && loan.principal.Finite?
              && var t := TermsOf(loan);
                 && t.term == TermOf(loan) && t.keepInstallment == Keeps(loan) && t.start == loan.startDate
                 && Run(t, 0) == State(loan.principal.value, None, None, [])
  {
  }

  method AmortizeLoan(loan: LoanInput) returns (result: LoanAmortization)
    requires RatesUsable(loan)
    ensures result == Amortization(loan)
  {
    LoopStarts(loan);
    hide *;
    if !Usable(loan) {
      result := LoanAmortization([], None);
    } else {
      var state := PayMonths(loan);
      result := AnswerOf(state);
    }
  }

  /** The loop's body. */
  method ReadAndPay(loan: LoanInput, before: State, month: int, baseRate: real, periods: seq<Period>,
                    dated: map<int, MonthExtras>, rules: seq<Rule>)
    returns (after: State)
    requires RatesUsable(loan) && Usable(loan) && baseRate == BaseRateOf(loan)
    requires periods == Sorting.StableSort(UsablePeriods(loan.ratePeriods), StartsNoLater())
    requires Lists(dated, loan.prepayments) && rules == UsableRules(loan.extraRules)
    ensures after == MonthStep(TermsOf(loan), before, month)
  {
    LoopStarts(loan);
    hide *;
    var rate, extra := MonthInputs(loan, month, baseRate, periods, dated, rules);
    after := PayMonth(before, month, rate, extra, TermOf(loan), Keeps(loan), loan.startDate, TermsOf(loan));
  }

  /** The engine's loop: one month after another until the loan ends or is given up. */
  method PayMonths(loan: LoanInput) returns (state: State)
    requires RatesUsable(loan) && Usable(loan)
    ensures state.outOfReachSince.Some? ==> 1 <= state.outOfReachSince.value <= |state.rows| + 1
    ensures Amortization(loan) == Verdict(state)
  {
    LoopStarts(loan);
    hide *;
    var term := TermOf(loan);
    var baseRate := BaseRateOf(loan);
    var periods := PeriodsOf(loan.ratePeriods);
    var dated := ExtrasOf(loan.prepayments);
    var rules := RulesOf(loan.extraRules);

    state := State(loan.principal.value, None, None, []);
    var month := 1;
    ghost var t := TermsOf(loan);
    while Continues(state, month, term)
      invariant 1 <= month <= MAX_TERM_MONTHS + 1
      invariant state == Run(t, month - 1)
      decreases MAX_TERM_MONTHS + 1 - month
    {
      MonthsLeft(state, month, term);
      RunContinues(t, month);
      state := ReadAndPay(loan, state, month, baseRate, periods, dated, rules);
      month := month + 1;
    }
    LoopDone(loan, state, month);
  }

  /** A balance still owed means the loan never ends: the rows stop where its last stretch out of reach began. */
  method AnswerOf(state: State) returns (result: LoanAmortization)
    requires state.outOfReachSince.Some? ==> 1 <= state.outOfReachSince.value <= |state.rows| + 1
    ensures result == Verdict(state)
  {
    if state.balance > 0.0 {
      var from := state.outOfReachSince.GetOr(|state.rows| + 1);
      result := LoanAmortization(state.rows[..from - 1], Some(from));
    } else {
      result := LoanAmortization(state.rows, None);
    }
  }

  lemma {:induction false} MonthsLeft(s: State, month: int, term: int)
    requires Continues(s, month, term)
    ensures month <= MAX_TERM_MONTHS
  {
  }

  lemma {:induction false} RunContinues(t: Terms, month: nat)
    requires month >= 1 && Continues(Run(t, month - 1), month, t.term)
    ensures Run(t, month) == MonthStep(t, Run(t, month - 1), month)
  {
    hide MonthStep;
  }

  /** The month's rate and extra payments, read off the lists the loop was set up with. */
  method MonthInputs(loan: LoanInput, month: int, baseRate: real, periods: seq<Period>,
                     dated: map<int, MonthExtras>, rules: seq<Rule>)
    returns (rate: Rate, extra: Option<MonthExtras>)
    requires RatesUsable(loan) && Usable(loan) && baseRate == BaseRateOf(loan)
    requires periods == Sorting.StableSort(UsablePeriods(loan.ratePeriods), StartsNoLater())
    requires Lists(dated, loan.prepayments)
    requires rules == UsableRules(loan.extraRules)
    ensures rate == TermsOf(loan).rateIn(month) && extra == TermsOf(loan).extrasIn(month)
  {
    hide TermsOf;
    var charged := RateIn(month, baseRate, periods);
    SortedCovering(UsablePeriods(loan.ratePeriods), month);
    ChargedRate(loan, month, charged);
    rate := charged;
    extra := ExtrasIn(month, dated, rules);
    ListedExtras(loan, month, extra);
  }

  /** Where the loop stops is where the run ends. */
  lemma {:induction false} LoopDone(loan: LoanInput, s: State, month: int)
    requires RatesUsable(loan) && Usable(loan) && 1 <= month <= MAX_TERM_MONTHS + 1
    requires s == Run(TermsOf(loan), month - 1) && !Continues(s, month, TermsOf(loan).term)
    ensures s.outOfReachSince.Some? ==> 1 <= s.outOfReachSince.value <= |s.rows| + 1
    ensures Amortization(loan) == Verdict(s)
  {
    hide MonthStep;
    StoppedStays(TermsOf(loan), month - 1, MAX_TERM_MONTHS);
    SinceInRange(TermsOf(loan), MAX_TERM_MONTHS);
  }

  lemma {:induction false} ListedExtras(loan: LoanInput, month: int, extra: Option<MonthExtras>)
    requires RatesUsable(loan) && Usable(loan)
    requires extra == DueIn(DatedIn(loan.prepayments, month), UsableRules(loan.extraRules), month)
    ensures extra == TermsOf(loan).extrasIn(month)
  {
  }

  /** One month: its rate, its installment, its extra payments, its row. */
  method PayMonth(before: State, month: int, rate: Rate, extra: Option<MonthExtras>, term: int,
                  keepInstallment: bool, start: Option<CivilDate>, ghost t: Terms)
    returns (after: State)
    requires t.rateIn(month) == rate && t.extrasIn(month) == extra
    requires t.term == term && t.keepInstallment == keepInstallment && t.start == start
    ensures after == MonthStep(t, before, month)
  {
    hide TermsFrom, AfterExtraPayment, InterestDue, ExtraPaid;
    var State(balance, plan, outOfReachSince, schedule) := before;
    if plan.None? || rate != plan.value.rate {
      plan := Some(TermsFrom(plan, rate, balance, month, term, keepInstallment));
      outOfReachSince := if WithinReach(plan.value) then None
                         else if outOfReachSince.None? then Some(month) else outOfReachSince;
    }
    ghost var due := MonthStart(t, before, month);
    assert Position(balance, plan.value, outOfReachSince) == due;
    assert plan.value.rate == rate by {
      RateInForce(before.plan, rate, before.balance, month, term, keepInstallment);
    }
    hide AtRate;

    var payment, principalPaid, interest;
    payment, principalPaid, interest, balance := PayInstallment(balance, plan.value, month, outOfReachSince);

    var prepayment, note := 0.0, "";
    ghost var paid := AfterInstallment(due, month);
    InstallmentKeepsPlan(due, month);
    if extra.Some? && balance > 0.0 {
      note := Join(extra.value.notes, "; ");
      balance, plan, outOfReachSince, prepayment := PayExtras(balance, plan.value, outOfReachSince, extra.value, month);
    } else {
      NothingExtra(paid, extra.GetOr(NO_EXTRAS), month);
    }
    var date := if start.Some? then Some(AddMonthsOnDay(start.value, month - 1, start.value.day)) else None;
    hide AfterInstallment, AfterExtras, ExtrasPaid;
    after := State(
      balance, plan, outOfReachSince,
      schedule + [ScheduleRow(month, date, payment, principalPaid, interest, balance, prepayment, rate, note)]);
  }

  lemma {:induction false} RateInForce(plan: Option<Plan>, rate: Rate, balance: real, month: int, term: int,
                                       keepInstallment: bool)
    ensures TermsFrom(plan, rate, balance, month, term, keepInstallment).rate == rate
  {
  }

  lemma {:induction false} ChargedRate(loan: LoanInput, month: int, rate: real)
    requires RatesUsable(loan) && Usable(loan)
    requires rate == RateOf(Covering(UsablePeriods(loan.ratePeriods), month), BaseRateOf(loan))
    ensures rate >= 0.0 && rate == TermsOf(loan).rateIn(month)
  {
    RateUsable(loan, month);
  }

  /** With no extra payment, or nothing owed, a month's extra payments change nothing. */
  lemma {:induction false} NothingExtra(p: Position, extra: MonthExtras, month: int)
    requires extra == NO_EXTRAS || p.balance <= 0.0
    ensures AfterExtras(p, extra, month) == p && ExtrasPaid(p, extra, month) == 0.0
  {
  }

  /** The month's installment: the full one, or what is owed in the last month. */
  method PayInstallment(owedBefore: real, plan: Plan, month: int, ghost since: Option<int>)
    returns (payment: real, principalPaid: real, interest: real, balance: real)
    ensures var due := Position(owedBefore, plan, since);
            && payment == PaymentDue(due, month) && principalPaid == PrincipalPaid(due, month)
            && interest == InterestDue(due) && balance == AfterInstallment(due, month).balance
  {
    interest := owedBefore * MonthlyRate(plan.rate);
    var owed := owedBefore + interest;
    var last := plan.endMonth.Within(month) || owed <= plan.installment + HALF_CENT;
    payment := if last then owed else plan.installment;
    principalPaid := if last then owedBefore else payment - interest;
    balance := if last then 0.0 else owedBefore - principalPaid;
  }

  /** The month's extra payments of both modes, finish-sooner ones first. */
  method PayExtras(owed: real, terms: Plan, since: Option<int>, extra: MonthExtras, month: int)
    returns (balance: real, plan: Option<Plan>, outOfReachSince: Option<int>, prepayment: real)
    ensures plan.Some?
    ensures var p := Position(owed, terms, since);
            && Position(balance, plan.value, outOfReachSince) == AfterExtras(p, extra, month)
            && prepayment == ExtrasPaid(p, extra, month)
  {
    hide AfterExtraPayment;
    var paid: real;
    balance, plan, outOfReachSince, prepayment := PayExtra(owed, terms, since, extra.shorten, Shorten, month);
    balance, plan, outOfReachSince, paid :=
      PayExtra(balance, plan.value, outOfReachSince, extra.lower, Lower, month);
    prepayment := prepayment + paid;
  }

  /** One mode's extra payment of a month: the body of the loop over the two modes. */
  method PayExtra(owed: real, terms: Plan, since: Option<int>, amount: real, mode: ExtraMode, month: int)
    returns (balance: real, plan: Option<Plan>, outOfReachSince: Option<int>, paid: real)
    ensures plan.Some?
    ensures Position(balance, plan.value, outOfReachSince)
            == AfterExtra(Position(owed, terms, since), amount, mode, month)
    ensures paid == ExtraPaid(Position(owed, terms, since), amount)
  {
    balance, plan, outOfReachSince, paid := owed, Some(terms), since, 0.0;
    if !(amount > 0.0) || !(balance > 0.0) {
      return;
    }
    var paysOff := amount >= balance - HALF_CENT;
    paid := if paysOff then balance else amount;
    balance := if paysOff then 0.0 else balance - amount;
    if balance > 0.0 {
      plan := Some(AfterExtraPayment(plan.value, balance, month, mode));
      if plan.value.endMonth.Within(MAX_TERM_MONTHS) {
        outOfReachSince := None;
      } else if outOfReachSince.None? {
        outOfReachSince := Some(month);
      }
    }
  }
}
