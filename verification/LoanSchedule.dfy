/**
 * The amortisation engine (shared/loanSchedule.ts): what a loan holds, what one month does to it,
 * and the loop over its months. Amounts and rates are exact reals.
 */
module LoanSchedule {
  import opened Basics
  import opened Annuity
  import opened Sorting
  import opened CalendarMonths

  const MAX_TERM_MONTHS := 1200
  const HALF_CENT := 0.005

  // ---- What a loan holds, as it is stored ----

  datatype ExtraMode = Shorten | Lower

  datatype RateChangeOption = KeepTerm | KeepInstallment

  datatype LoanRatePeriod = LoanRatePeriod(rate: Number, startMonth: Number, endMonth: Option<Number>)

  datatype LoanPrepayment = LoanPrepayment(month: Number, amount: Number, note: string, mode: ExtraMode)

  datatype LoanExtraRule = LoanExtraRule(
    amount: Number, everyMonths: Number, fromMonth: Number, toMonth: Option<Number>,
    mode: ExtraMode, note: string)

  datatype LoanInput = LoanInput(
    principal: Number, interestRate: Number, startDate: Option<CivilDate>, termMonths: Number,
    ratePeriods: seq<LoanRatePeriod>, prepayments: seq<LoanPrepayment>,
    extraRules: seq<LoanExtraRule>, onRateChange: RateChangeOption)

  // ---- What a schedule holds ----

  datatype ScheduleRow = ScheduleRow(
    month: int, date: Option<CivilDate>, payment: real, principal: real, interest: real,
    balance: real, prepayment: real, rate: real, note: string)

  datatype LoanAmortization = LoanAmortization(rows: seq<ScheduleRow>, neverPaysOffFrom: Option<int>)

  // ---- Rates ----

  type Rate = r: real | r >= 0.0

  datatype Period = Period(rate: real, start: real, end: Option<real>) {
    predicate Covers(month: int) {
      start <= month as real && (end.None? || month as real <= end.value)
    }
  }

  predicate UsablePeriod(p: LoanRatePeriod) {
    p.rate.Finite? && p.startMonth.Finite?
  }

  /** An empty end month, 0 included, runs to the end of the loan. */
  function LastMonthOf(end: Option<Number>): Option<real> {
    if end.Some? && end.value.Finite? && end.value.value != 0.0 then Some(end.value.value) else None
  }

  function UsablePeriods(list: seq<LoanRatePeriod>): seq<Period> {
    if list == [] then []
    else
      var p := list[|list| - 1];
      UsablePeriods(list[..|list| - 1])
      + (if UsablePeriod(p) then [Period(p.rate.value, p.startMonth.value, LastMonthOf(p.endMonth))] else [])
  }

  function StartsNoLater(): (Period, Period) -> bool {
    (a: Period, b: Period) => a.start <= b.start
  }

  function CoversMonth(month: int): Period -> bool {
    (p: Period) => p.Covers(month)
  }

  /** The covering period that starts latest, the one listed last among equal starts. */
  function Covering(periods: seq<Period>, month: int): Option<Period> {
    BestWhere(periods, CoversMonth(month), StartsNoLater())
  }

  /** The last period in the list that covers the month, whatever it starts. */
  function LastCovering(periods: seq<Period>, month: int): Option<Period> {
    LastWhere(periods, CoversMonth(month))
  }

  function RateOf(cover: Option<Period>, baseRate: real): real {
    if cover.Some? then cover.value.rate else baseRate
  }

  /** 0 when the loan's own rate is not a number. */
  function BaseRateOf(loan: LoanInput): real {
    if loan.interestRate.Finite? then loan.interestRate.value else 0.0
  }

  function RateAt(loan: LoanInput, month: int): real {
    RateOf(Covering(UsablePeriods(loan.ratePeriods), month), BaseRateOf(loan))
  }

  /** Every rate the loan can be charged is 0 or more, as shared/loanSchema.ts:133-138 asks of every rate sent. */
  ghost predicate RatesUsable(loan: LoanInput) {
    BaseRateOf(loan) >= 0.0 && forall i :: 0 <= i < |loan.ratePeriods| ==> RateNotNegative(loan.ratePeriods[i])
  }

  predicate RateNotNegative(p: LoanRatePeriod) {
    p.rate.Finite? ==> p.rate.value >= 0.0
  }

  function MonthlyRate(rate: Rate): Rate {
    rate / 100.0 / 12.0
  }

  // ---- Extra payments ----

  datatype MonthExtras = MonthExtras(shorten: real, lower: real, notes: seq<string>) {
    function Add(mode: ExtraMode, amount: real, note: string): MonthExtras {
      var added := if note != "" then notes + [note] else notes;
      match mode
      case Shorten => MonthExtras(shorten + amount, lower, added)
      case Lower => MonthExtras(shorten, lower + amount, added)
    }
  }

  const NO_EXTRAS := MonthExtras(0.0, 0.0, [])

  predicate UsablePrepayment(p: LoanPrepayment) {
    p.month.WholeMonth() && p.amount.Payable()
  }

  /** The extra payments dated `month`, added together in the order listed. */
  function DatedIn(list: seq<LoanPrepayment>, month: int): Option<MonthExtras> {
    if list == [] then None
    else
      var p := list[|list| - 1];
      var rest := DatedIn(list[..|list| - 1], month);
      if UsablePrepayment(p) && p.month.value == month as real
      then Some(rest.GetOr(NO_EXTRAS).Add(p.mode, p.amount.value, p.note))
      else rest
  }

  datatype Rule = Rule(amount: real, every: int, from: int, to: Option<int>, mode: ExtraMode, note: string) {
    predicate Due(month: int)
      requires every >= 1
    {
      from <= month && (to.None? || month <= to.value) && (month - from) % every == 0
    }
  }

  /** Infinity, like no last month at all, runs until the loan is repaid. */
  predicate OpenEnded(to: Option<Number>) {
    to.None? || to.value.Infinity?
  }

  predicate UsableRule(r: LoanExtraRule) {
    && r.amount.Payable() && r.everyMonths.WholeMonth() && r.fromMonth.WholeMonth()
    && (OpenEnded(r.toMonth) || r.toMonth.value.WholeMonth())
  }

  function RuleOf(r: LoanExtraRule): (rule: Rule)
    requires UsableRule(r)
    ensures rule.every >= 1 && rule.from >= 1 && rule.amount > 0.0
  {
    Rule(r.amount.value, r.everyMonths.value.Floor, r.fromMonth.value.Floor,
         if OpenEnded(r.toMonth) then None else Some(r.toMonth.value.value.Floor), r.mode, r.note)
  }

  function UsableRules(list: seq<LoanExtraRule>): (rules: seq<Rule>)
    ensures forall i :: 0 <= i < |rules| ==> rules[i].every >= 1 && rules[i].from >= 1 && rules[i].amount > 0.0
  {
    if list == [] then []
    else
      var r := list[|list| - 1];
      UsableRules(list[..|list| - 1]) + (if UsableRule(r) then [RuleOf(r)] else [])
  }

  predicate WellFormedRules(rules: seq<Rule>) {
    forall i :: 0 <= i < |rules| ==> rules[i].every >= 1
  }

  /** `own` with every rule due in the month added, in the order listed. */
  function DueIn(own: Option<MonthExtras>, rules: seq<Rule>, month: int): Option<MonthExtras>
    requires WellFormedRules(rules)
  {
    if rules == [] then own
    else
      var r := rules[|rules| - 1];
      var rest := DueIn(own, rules[..|rules| - 1], month);
      if r.Due(month) then Some(rest.GetOr(NO_EXTRAS).Add(r.mode, r.amount, r.note)) else rest
  }

  function ExtrasAt(loan: LoanInput, month: int): Option<MonthExtras> {
    DueIn(DatedIn(loan.prepayments, month), UsableRules(loan.extraRules), month)
  }

  function Join(parts: seq<string>, separator: string): string {
    if parts == [] then ""
    else if |parts| == 1 then parts[0]
    else Join(parts[..|parts| - 1], separator) + separator + parts[|parts| - 1]
  }

  // ---- Installments ----

  /** A count of months, or a month number, that may be without end. */
  datatype Months = Months(n: int) | Forever {
    /** At most `n` months. */
    predicate Within(n: int) {
      Months? && this.n <= n
    }

    function Plus(months: int): Months {
      if Forever? then Forever else Months(n + months)
    }

    function Min(other: Months): Months {
      if Forever? then other else if other.Forever? || n <= other.n then this else other
    }
  }

  /** The installment that repays `principal` in `months` equal payments; 0 with no months to pay in. */
  function AnnuityPayment(principal: real, rate: Rate, months: Months): real {
    var r := MonthlyRate(rate);
    if months.Within(0) then 0.0
    else if months.Forever? then principal * r
    else if r == 0.0 then principal / months.n as real
    else
      PowAtLeastOne(1.0 + r, months.n);
      Discounted(principal, r, Pow(1.0 + r, months.n))
  }

  /** The installment at rate r over months that make 1 grow to `growth`. */
  function Discounted(principal: real, r: real, growth: real): real
    requires growth > 1.0
  {
    assert 1.0 / growth < 1.0;
    principal * r / (1.0 - 1.0 / growth)
  }

  /** What is owed after n full installments, nothing else being paid. */
  function Owing(balance: real, r: real, installment: real, n: nat): real
    decreases n
  {
    if n == 0 then balance else Owing(balance * (1.0 + r) - installment, r, installment, n - 1)
  }

  /** Whole payments of `d` it takes to bring a balance within half a cent. */
  ghost function StepsOf(balance: real, d: real): nat
    requires d > 0.0
  {
    if balance <= HALF_CENT then 0
    else
      PositiveQuotient(balance - HALF_CENT, d);
      ((balance - HALF_CENT) / d).Floor + 1
  }

  /** Installments it takes at most, each repaying at least as much as the first. */
  ghost function PayDownSteps(balance: real, r: real, installment: real): nat
    requires r >= 0.0 && installment > balance * r
  {
    StepsOf(balance, installment - balance * r)
  }

  lemma {:induction false} PositiveQuotient(x: real, y: real)
    requires x > 0.0 && y > 0.0
    ensures x / y > 0.0
  {
  }

  lemma {:induction false} PayDownDecreases(balance: real, r: real, installment: real)
    requires r >= 0.0 && installment > balance * r && balance > HALF_CENT
    ensures installment > (balance * (1.0 + r) - installment) * r
    ensures PayDownSteps(balance * (1.0 + r) - installment, r, installment)
            < PayDownSteps(balance, r, installment)
  {
    hide StepsOf;
    var d, next := installment - balance * r, balance * (1.0 + r) - installment;
    NextInstallment(balance, r, installment, d, next);
    assert PayDownSteps(next, r, installment) == StepsOf(balance - d, installment - next * r);
    assert PayDownSteps(balance, r, installment) == StepsOf(balance, d);
    hide PayDownSteps;
    OneStepLess(balance, d, installment - next * r);
  }

  lemma {:induction false} OneStepLess(balance: real, d: real, d2: real)
    requires balance > HALF_CENT && 0.0 < d <= d2
    ensures StepsOf(balance - d, d2) < StepsOf(balance, d)
  {
    if balance - d > HALF_CENT {
      var x := balance - d - HALF_CENT;
      StepsFall(x, d, d2);
      assert x + d == balance - HALF_CENT;
    }
  }

  lemma {:induction false} NextInstallment(balance: real, r: real, installment: real, d: real, next: real)
    requires r >= 0.0 && d == installment - balance * r > 0.0 && next == balance * (1.0 + r) - installment
    ensures next == balance - d && installment - next * r >= d
  {
    assert next * r == balance * r - d * r;
  }

  lemma {:induction false} StepsFall(x: real, d: real, d2: real)
    requires x > 0.0 && 0.0 < d <= d2
    ensures (x / d2).Floor + 1 < ((x + d) / d).Floor + 1
  {
    QuotientFalls(x, d, d2);
    OneMoreFits(x, d);
    FloorFalls(x / d2, x / d);
  }

  lemma {:induction false} FloorFalls(x: real, y: real)
    requires x <= y
    ensures x.Floor + 1 < (y + 1.0).Floor + 1
  {
  }

  lemma {:induction false} QuotientFalls(x: real, d: real, d2: real)
    requires x > 0.0 && 0.0 < d <= d2
    ensures x / d2 <= x / d
  {
    var a, b := x / d, x / d2;
    assert a * d == x && b * d2 == x;
    PositiveQuotient(x, d2);
    assert b * (d2 - d) >= 0.0;
    assert (a - b) * d >= 0.0;
  }

  lemma {:induction false} OneMoreFits(x: real, d: real)
    requires d > 0.0
    ensures (x + d) / d == x / d + 1.0
  {
    var a, b := (x + d) / d, x / d;
    assert a * d == x + d && b * d == x;
    Cancel(a, b + 1.0, d);
  }

  lemma {:induction false} Cancel(x: real, y: real, d: real)
    requires d != 0.0 && x * d == y * d
    ensures x == y
  {
  }

  /** The least number of installments after which at most half a cent is owed. */
  function InstallmentCount(balance: real, r: real, installment: real): (n: nat)
    requires r >= 0.0 && installment > balance * r
    ensures Owing(balance, r, installment, n) <= HALF_CENT
    ensures forall k: nat :: k < n ==> Owing(balance, r, installment, k) > HALF_CENT
    decreases PayDownSteps(balance, r, installment)
  {
    if balance <= HALF_CENT then 0
    else
      PayDownDecreases(balance, r, installment);
      1 + InstallmentCount(balance * (1.0 + r) - installment, r, installment)
  }

  /**
   * Installments needed to repay `balance`, the last one possibly partial. Forever when the
   * installment does not cover the interest. The logarithms the count is computed with have no
   * finite positive value for a balance within half a cent either.
   */
  function InstallmentsToRepay(balance: real, rate: Rate, installment: real): (left: Months)
    ensures left.Months? ==> left.n >= 1
  {
    var r := MonthlyRate(rate);
    if balance > HALF_CENT && installment > balance * r
    then Months(InstallmentCount(balance, r, installment))
    else Forever
  }

  // ---- The terms in force ----

  datatype Plan = Plan(installment: real, rate: Rate, endMonth: Months)

  predicate WithinReach(plan: Plan) {
    plan.endMonth.Within(MAX_TERM_MONTHS)
  }

  function TermsFrom(plan: Option<Plan>, rate: Rate, balance: real, month: int, term: int,
                     keepInstallment: bool): Plan {
    if plan.None? || !keepInstallment then
      var endMonth := if plan.Some? then plan.value.endMonth else Months(term);
      Plan(AnnuityPayment(balance, rate, endMonth.Plus(1 - month)), rate, endMonth)
    else
      var left := InstallmentsToRepay(balance, rate, plan.value.installment);
      Plan(plan.value.installment, rate, left.Plus(month - 1))
  }

  function AfterExtraPayment(plan: Plan, balance: real, month: int, mode: ExtraMode): Plan {
    match mode
    case Lower =>
      plan.(installment := AnnuityPayment(balance, plan.rate, plan.endMonth.Plus(-month)))
    case Shorten =>
      var left := InstallmentsToRepay(balance, plan.rate, plan.installment);
      plan.(endMonth := plan.endMonth.Min(left.Plus(month)))
  }

  // ---- One month ----

  /** Where a month stands between two of its steps: what is owed, the terms, and since when the end is out of reach. */
  datatype Position = Position(balance: real, plan: Plan, outOfReachSince: Option<int>)

  function Watch(since: Option<int>, plan: Plan, month: int): Option<int> {
    if WithinReach(plan) then None else if since.None? then Some(month) else since
  }

  function AtRate(balance: real, plan: Option<Plan>, since: Option<int>, rate: Rate, month: int,
                  term: int, keepInstallment: bool): Position {
    if plan.None? || plan.value.rate != rate then
      var next := TermsFrom(plan, rate, balance, month, term, keepInstallment);
      Position(balance, next, Watch(since, next, month))
    else Position(balance, plan.value, since)
  }

  function InterestDue(p: Position): real {
    p.balance * MonthlyRate(p.plan.rate)
  }

  predicate IsLast(p: Position, month: int) {
    || p.plan.endMonth.Within(month)
    || p.balance + InterestDue(p) <= p.plan.installment + HALF_CENT
  }

  function PaymentDue(p: Position, month: int): real {
    if IsLast(p, month) then p.balance + InterestDue(p) else p.plan.installment
  }

  function PrincipalPaid(p: Position, month: int): real {
    if IsLast(p, month) then p.balance else PaymentDue(p, month) - InterestDue(p)
  }

  function AfterInstallment(p: Position, month: int): Position {
    p.(balance := if IsLast(p, month) then 0.0 else p.balance - PrincipalPaid(p, month))
  }

  /** What an extra payment of `amount` pays: within half a cent of the balance it pays it off. */
  function ExtraPaid(p: Position, amount: real): real {
    if !(amount > 0.0) || !(p.balance > 0.0) then 0.0
    else if amount >= p.balance - HALF_CENT then p.balance
    else amount
  }

  function AfterExtra(p: Position, amount: real, mode: ExtraMode, month: int): Position {
    if !(amount > 0.0) || !(p.balance > 0.0) then p
    else
      var balance := p.balance - ExtraPaid(p, amount);
      if balance > 0.0 then
        var plan := AfterExtraPayment(p.plan, balance, month, mode);
        Position(balance, plan, Watch(p.outOfReachSince, plan, month))
      else p.(balance := balance)
  }

  /** The month's extra payments: finish-sooner ones first, then pay-less ones. */
  function AfterExtras(p: Position, extra: MonthExtras, month: int): Position {
    AfterExtra(AfterExtra(p, extra.shorten, Shorten, month), extra.lower, Lower, month)
  }

  function ExtrasPaid(p: Position, extra: MonthExtras, month: int): real {
    ExtraPaid(p, extra.shorten) + ExtraPaid(AfterExtra(p, extra.shorten, Shorten, month), extra.lower)
  }

  /** The note is kept only when something was owed for the extra payments to pay. */
  function NoteOf(p: Position, extra: Option<MonthExtras>): string {
    if extra.Some? && p.balance > 0.0 then Join(extra.value.notes, "; ") else ""
  }

  function RowOf(due: Position, extra: Option<MonthExtras>, month: int, start: Option<CivilDate>): ScheduleRow {
    var paid := AfterInstallment(due, month);
    var extras := extra.GetOr(NO_EXTRAS);
    ScheduleRow(
      month,
      if start.Some? then Some(AddMonthsOnDay(start.value, month - 1, start.value.day)) else None,
      PaymentDue(due, month), PrincipalPaid(due, month), InterestDue(due),
      AfterExtras(paid, extras, month).balance, ExtrasPaid(paid, extras, month),
      due.plan.rate, NoteOf(paid, extra))
  }

  // ---- The whole run ----

  datatype State = State(balance: real, plan: Option<Plan>, outOfReachSince: Option<int>, rows: seq<ScheduleRow>)

  predicate Usable(loan: LoanInput) {
    && loan.principal.Payable()
    && loan.termMonths.Finite? && 1 <= loan.termMonths.value.Floor <= MAX_TERM_MONTHS
  }

  function TermOf(loan: LoanInput): int
    requires Usable(loan)
  {
    loan.termMonths.value.Floor
  }

  function Keeps(loan: LoanInput): bool {
    loan.onRateChange.KeepInstallment?
  }

  /** What the engine reads of a loan, month by month. */
  datatype Terms = Terms(
    principal: real, term: int, keepInstallment: bool, start: Option<CivilDate>,
    rateIn: int -> Rate, extrasIn: int -> Option<MonthExtras>)

  ghost function ChargedAt(loan: LoanInput, month: int): (rate: Rate)
    requires RatesUsable(loan)
    ensures rate == RateAt(loan, month)
  {
    RateUsable(loan, month);
    RateAt(loan, month)
  }

  ghost function TermsOf(loan: LoanInput): Terms
    requires Usable(loan) && RatesUsable(loan)
  {
    Terms(loan.principal.value, TermOf(loan), Keeps(loan), loan.startDate,
          (month: int) => ChargedAt(loan, month),
          (month: int) => ExtrasAt(loan, month))
  }

  predicate Continues(s: State, month: int, term: int) {
    && s.balance > 0.0
    && month <= MAX_TERM_MONTHS
    && (if s.plan.Some? then !s.plan.value.endMonth.Within(month - 1) else month <= term)
  }

  ghost function MonthStart(t: Terms, s: State, month: int): Position {
    AtRate(s.balance, s.plan, s.outOfReachSince, t.rateIn(month), month, t.term, t.keepInstallment)
  }

  ghost function MonthStep(t: Terms, s: State, month: int): State {
    var due := MonthStart(t, s, month);
    var extra := t.extrasIn(month);
    var done := AfterExtras(AfterInstallment(due, month), extra.GetOr(NO_EXTRAS), month);
    State(done.balance, Some(done.plan), done.outOfReachSince, s.rows + [RowOf(due, extra, month, t.start)])
  }

  /** The loan after `k` months. One that is repaid, or whose end month is past, stays as it is. */
  ghost function Run(t: Terms, k: nat): State {
    if k == 0 then State(t.principal, None, None, [])
    else
      var s := Run(t, k - 1);
      if Continues(s, k, t.term) then MonthStep(t, s, k) else s
  }

  ghost function Verdict(s: State): LoanAmortization
    requires s.outOfReachSince.Some? ==> 1 <= s.outOfReachSince.value <= |s.rows| + 1
  {
    if s.balance > 0.0 then
      var from := s.outOfReachSince.GetOr(|s.rows| + 1);
      LoanAmortization(s.rows[..from - 1], Some(from))
    else LoanAmortization(s.rows, None)
  }

  ghost function Amortization(loan: LoanInput): LoanAmortization
    requires RatesUsable(loan)
  {
    if Usable(loan) then
      SinceInRange(TermsOf(loan), MAX_TERM_MONTHS);
      Verdict(Run(TermsOf(loan), MAX_TERM_MONTHS))
    else LoanAmortization([], None)
  }

  lemma {:induction false} RateUsable(loan: LoanInput, month: int)
    requires RatesUsable(loan)
    ensures RateAt(loan, month) >= 0.0
  {
    CoveringUsable(loan.ratePeriods, month);
  }

  lemma {:induction false} CoveringUsable(list: seq<LoanRatePeriod>, month: int)
    requires forall i :: 0 <= i < |list| ==> RateNotNegative(list[i])
    ensures Covering(UsablePeriods(list), month).Some? ==> Covering(UsablePeriods(list), month).value.rate >= 0.0
  {
    if list == [] {
    } else {
      var front := list[..|list| - 1];
      CoveringUsable(front, month);
      var p := list[|list| - 1];
      if UsablePeriod(p) {
        var all := UsablePeriods(list);
        assert all[..|all| - 1] == UsablePeriods(front);
      } else {
        assert UsablePeriods(list) == UsablePeriods(front);
      }
    }
  }

  lemma {:induction false} NoRules(own: Option<MonthExtras>, month: int)
    ensures DueIn(own, UsableRules([]), month) == own
  {
    assert UsableRules([]) == [];
  }

  /** The rates charged are read from the base rate and the rate periods alone. */
  lemma {:induction false} RatesReadAlone(a: LoanInput, b: LoanInput)
    requires a.ratePeriods == b.ratePeriods && a.interestRate == b.interestRate
    ensures RatesUsable(a) <==> RatesUsable(b)
    ensures forall m: int :: RateAt(b, m) == RateAt(a, m)
  {
  }

  /** A run that still goes on has one row for every month. */
  lemma {:induction false} RowPerMonth(t: Terms, k: nat)
    ensures |Run(t, k).rows| <= k
    ensures Continues(Run(t, k), k + 1, t.term) ==> |Run(t, k).rows| == k
  {
    if k == 0 {
    } else {
      RowPerMonth(t, k - 1);
      StepWatches(t, Run(t, k - 1), k);
      hide MonthStep;
    }
  }

  lemma {:induction false} SinceInRange(t: Terms, k: nat)
    ensures var s := Run(t, k);
            s.outOfReachSince.Some? ==> 1 <= s.outOfReachSince.value <= |s.rows| + 1
  {
    hide *;
    if k == 0 {
      NothingSince(t);
    } else {
      SinceInRange(t, k - 1);
      RowPerMonth(t, k - 1);
      StepWatches(t, Run(t, k - 1), k);
      RunStep(t, k);
    }
  }

  lemma {:induction false} NothingSince(t: Terms)
    ensures Run(t, 0).outOfReachSince == None
  {
  }

  lemma {:induction false} RunStep(t: Terms, k: nat)
    requires k > 0
    ensures Run(t, k) == if Continues(Run(t, k - 1), k, t.term) then MonthStep(t, Run(t, k - 1), k) else Run(t, k - 1)
  {
    hide MonthStep, Continues;
  }

  /** A month leaves the watch as it was, clears it, or starts it in that month. */
  lemma {:induction false} StepWatches(t: Terms, s: State, month: int)
    ensures var next := MonthStep(t, s, month);
            && |next.rows| == |s.rows| + 1
            && (next.outOfReachSince == s.outOfReachSince || next.outOfReachSince == None
                || next.outOfReachSince == Some(month))
  {
    var paid := AfterInstallment(MonthStart(t, s, month), month);
    var x := t.extrasIn(month).GetOr(NO_EXTRAS);
    ExtraWatches(paid, x.shorten, Shorten, month);
    ExtraWatches(AfterExtra(paid, x.shorten, Shorten, month), x.lower, Lower, month);
  }

  lemma {:induction false} ExtraWatches(p: Position, amount: real, mode: ExtraMode, month: int)
    ensures var since := AfterExtra(p, amount, mode, month).outOfReachSince;
            since == p.outOfReachSince || since == None || since == Some(month)
  {
  }
}
