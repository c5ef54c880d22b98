/**
 * What a schedule says (shared/loanSchedule.ts), told by what was stored and by what its figures
 * mean, without the engine's own steps: which rate a month charges, what is paid extra in it, which
 * day it is, what installment is due, and how the rows of a whole answer follow one another.
 */
module LoanMeaning {
  import opened Basics
  import opened CalendarMonths
  import opened LoanSchedule
  import opened LoanInvariants
  import opened LoanRepayment
  import LoanMonotonicity
  import LoanExtras

  // ---- Rates ----

  /** The listed period holds for the month; one that ends in no month, or in month 0, is open. */
  predicate InForce(p: LoanRatePeriod, month: int) {
    && p.rate.Finite? && p.startMonth.Finite? && p.startMonth.value <= month as real
    && (p.endMonth.None? || !p.endMonth.value.Finite? || p.endMonth.value.value == 0.0
        || month as real <= p.endMonth.value.value)
  }

  /** The k-th period is in force, and none in force starts later, or as late and is listed after it. */
  ghost predicate Prevails(list: seq<LoanRatePeriod>, month: int, k: nat) {
    && k < |list| && InForce(list[k], month)
    && forall i :: 0 <= i < |list| && InForce(list[i], month) ==>
         || list[i].startMonth.value < list[k].startMonth.value
         || (list[i].startMonth.value == list[k].startMonth.value && i <= k)
  }

  /** The rate of the period that prevails, else the loan's own, which is 0 when it is not a number. */
  ghost predicate Charges(loan: LoanInput, month: int, rate: real) {
    || (exists k: nat :: Prevails(loan.ratePeriods, month, k) && rate == loan.ratePeriods[k].rate.value)
    || ((forall i :: 0 <= i < |loan.ratePeriods| ==> !InForce(loan.ratePeriods[i], month))
        && rate == if loan.interestRate.Finite? then loan.interestRate.value else 0.0)
  }

  // ---- Extra payments ----

  predicate Dated(p: LoanPrepayment, month: int) {
    p.month == Finite(month as real) && p.amount.Finite? && p.amount.value > 0.0
  }

  /** The rule pays in the month: its first, or whole steps after it, and not past its last. */
  predicate PaysAfter(r: LoanExtraRule, month: int, every: int, from: int, steps: nat) {
    && r.amount.Finite? && r.amount.value > 0.0
    && r.everyMonths == Finite(every as real) && every >= 1
    && r.fromMonth == Finite(from as real) && from >= 1
    && month == from + steps * every
    && (r.toMonth.None? || r.toMonth.value.Infinity?
        || (r.toMonth.value.Finite? && r.toMonth.value.value == r.toMonth.value.value.Floor as real
            && month as real <= r.toMonth.value.value))
  }

  ghost predicate PaysIn(r: LoanExtraRule, month: int) {
    exists every, from, steps: nat :: PaysAfter(r, month, every, from, steps)
  }

  ghost function Dates(list: seq<LoanPrepayment>, month: int, mode: ExtraMode): real {
    if list == [] then 0.0
    else
      var p := list[|list| - 1];
      Dates(list[..|list| - 1], month, mode) + (if Dated(p, month) && p.mode == mode then p.amount.value else 0.0)
  }

  ghost function Repeats(list: seq<LoanExtraRule>, month: int, mode: ExtraMode): real {
    if list == [] then 0.0
    else
      var r := list[|list| - 1];
      Repeats(list[..|list| - 1], month, mode) + (if PaysIn(r, month) && r.mode == mode then r.amount.value else 0.0)
  }

  /** All that is paid extra in the month in one mode. */
  ghost function ExtraIn(loan: LoanInput, month: int, mode: ExtraMode): real {
    Dates(loan.prepayments, month, mode) + Repeats(loan.extraRules, month, mode)
  }

  function DateNote(p: LoanPrepayment, month: int): seq<string> {
    if Dated(p, month) && p.note != "" then [p.note] else []
  }

  ghost function RepeatNote(r: LoanExtraRule, month: int): seq<string> {
    if PaysIn(r, month) && r.note != "" then [r.note] else []
  }

  ghost function DateNotes(list: seq<LoanPrepayment>, month: int): seq<string> {
    if list == [] then []
    else
      DateNotes(list[..|list| - 1], month) + DateNote(list[|list| - 1], month)
  }

  ghost function RepeatNotes(list: seq<LoanExtraRule>, month: int): seq<string> {
    if list == [] then []
    else
      RepeatNotes(list[..|list| - 1], month) + RepeatNote(list[|list| - 1], month)
  }

  ghost function NotesIn(loan: LoanInput, month: int): seq<string> {
    DateNotes(loan.prepayments, month) + RepeatNotes(loan.extraRules, month)
  }

  /** The notes with a semicolon and a space between them. */
  function Spaced(notes: seq<string>): string {
    if notes == [] then "" else if |notes| == 1 then notes[0] else notes[0] + "; " + Spaced(notes[1..])
  }

  /** What a payment of `amount` repays of what is owed: all of it from half a cent below. */
  function Repaid(amount: real, owed: real): real {
    if amount <= 0.0 || owed <= 0.0 then 0.0 else if amount >= owed - 0.005 then owed else amount
  }

  // ---- Installments ----

  /** Paid every month after `from` up to the end month, the installment repays the balance exactly. */
  ghost predicate RepaysBy(balance: real, rate: real, installment: real, from: int, end: Months) {
    match end
    case Forever => installment == balance * (rate / 1200.0)
    case Months(n) => n > from && Owing(balance, rate / 1200.0, installment, n - from) == 0.0
  }

  /** More than half a cent is owed after k installments. */
  predicate OverHalf(balance: real, r: real, installment: real, k: nat) {
    Owing(balance, r, installment, k) > 0.005
  }

  /** The month in which the balance is down to half a cent, paid the installment every month after `from`. */
  ghost predicate RunsOutIn(balance: real, rate: real, installment: real, from: int, end: Months) {
    match end
    case Forever => balance <= 0.005 || installment <= balance * (rate / 1200.0)
    case Months(n) =>
      && n > from && balance > 0.005 && installment > balance * (rate / 1200.0)
      && !OverHalf(balance, rate / 1200.0, installment, n - from)
      && var r := rate / 1200.0; forall k: nat :: k < n - from ==> OverHalf(balance, r, installment, k)
  }

  function SoonerOf(a: Months, b: Months): Months {
    if a.Forever? || (b.Months? && b.n < a.n) then b else a
  }

  /** A finish-sooner payment: the installment stays, and the loan ends where the balance runs out. */
  ghost predicate Finishes(plan: Plan, next: Plan, balance: real, month: int) {
    && next.installment == plan.installment && next.rate == plan.rate
    && exists out :: RunsOutIn(balance, plan.rate, plan.installment, month, out)
                     && next.endMonth == SoonerOf(plan.endMonth, out)
  }

  /** A pay-less payment: the end month stays, and the installment repays the balance by it. */
  ghost predicate PaysLess(plan: Plan, next: Plan, balance: real, month: int) {
    && next.endMonth == plan.endMonth && next.rate == plan.rate
    && RepaysBy(balance, plan.rate, next.installment, month, plan.endMonth)
  }

  /** The terms a month is paid under: set in the first month, kept, or set anew for another rate. */
  ghost predicate SetsTerms(loan: LoanInput, month: int, before: State, due: Plan) {
    if before.plan.None? then
      && loan.termMonths.Finite? && due.endMonth == Months(loan.termMonths.value.Floor)
      && RepaysBy(before.balance, due.rate, due.installment, month - 1, due.endMonth)
    else
      var plan := before.plan.value;
      if plan.rate == due.rate then due == plan
      else if loan.onRateChange.KeepInstallment? then
        && due.installment == plan.installment
        && RunsOutIn(before.balance, due.rate, due.installment, month - 1, due.endMonth)
      else
        && due.endMonth == plan.endMonth
        && RepaysBy(before.balance, due.rate, due.installment, month - 1, due.endMonth)
  }

  // ---- Months ----

  /** The day of the month's payment: `start` moved by whole months, on its day or a shorter month's last. */
  ghost predicate DatedFrom(start: Option<CivilDate>, months: int, date: Option<CivilDate>) {
    if start.None? then date.None?
    else
      && date.Some? && 1 <= date.value.month <= 12
      && date.value.year * 12 + date.value.month == start.value.year * 12 + start.value.month + months
      && date.value.day == MinInt(start.value.day, DaysInMonth(date.value.year, date.value.month))
  }

  /** The last installment: in the end month, or when no more than one and half a cent is owed. */
  predicate PaysAll(due: Plan, owed: real, month: int) {
    due.endMonth.Within(month) || owed + owed * (due.rate / 1200.0) <= due.installment + 0.005
  }

  /** Owed once the month's installment is paid. */
  function LeftOwed(due: Plan, owed: real, month: int): real {
    if PaysAll(due, owed, month) then 0.0 else owed + owed * (due.rate / 1200.0) - due.installment
  }

  /**
   * What the month's extra payments make of what is owed after its installment and of the terms:
   * finish-sooner ones first, `mid` the terms they leave, then pay-less ones.
   */
  ghost predicate PaysExtra(loan: LoanInput, month: int, left: real, due: Plan, mid: Plan, next: Plan, balance: real) {
    var sooner := Repaid(ExtraIn(loan, month, Shorten), left);
    var less := Repaid(ExtraIn(loan, month, Lower), left - sooner);
    && balance == left - sooner - less
    && (if sooner > 0.0 && left - sooner > 0.0 then Finishes(due, mid, left - sooner, month) else mid == due)
    && (if less > 0.0 && balance > 0.0 then PaysLess(mid, next, balance, month) else next == mid)
  }

  /** The row of a month that began with `owed` and is paid under the terms `due`. */
  ghost predicate RowTells(loan: LoanInput, month: int, owed: real, due: Plan, balance: real, row: ScheduleRow) {
    var left := LeftOwed(due, owed, month);
    && row.month == month && row.rate == due.rate && row.interest == owed * (due.rate / 1200.0)
    && row.payment == (if PaysAll(due, owed, month) then owed + row.interest else due.installment)
    && row.principal == owed - left && row.prepayment == left - balance && row.balance == balance
    && DatedFrom(loan.startDate, month - 1, row.date)
    && row.note == if left > 0.0 then Spaced(NotesIn(loan, month)) else ""
  }

  /** One month, from what stood before it to what stands after it, paid under the terms `due`. */
  ghost predicate FollowsMonth(loan: LoanInput, month: int, before: State, after: State, due: Plan, mid: Plan) {
    && Charges(loan, month, due.rate) && SetsTerms(loan, month, before, due)
    && after.plan.Some?
    && PaysExtra(loan, month, LeftOwed(due, before.balance, month), due, mid, after.plan.value, after.balance)
    && |after.rows| == |before.rows| + 1 && after.rows[..|before.rows|] == before.rows
    && RowTells(loan, month, before.balance, due, after.balance, after.rows[|before.rows|])
  }

  /** The states a loan goes through, month after month, until nothing is owed or 1,200 months are over. */
  ghost predicate Follows(loan: LoanInput, states: seq<State>) {
    && 1 <= |states| <= 1201
    && loan.principal.Finite? && states[0].balance == loan.principal.value
    && states[0].plan.None? && states[0].rows == []
    && (forall k :: 0 <= k < |states| - 1 ==>
        states[k].balance > 0.0 && NextMonth(loan, k + 1, states[k], states[k + 1]))
    && (states[|states| - 1].balance == 0.0 || |states| == 1201)
  }

  ghost predicate NextMonth(loan: LoanInput, month: int, before: State, after: State) {
    exists due, mid :: FollowsMonth(loan, month, before, after, due, mid)
  }

  /** The end month is past the last month amortised. */
  predicate Unreachable(s: State) {
    s.plan.Some? && (s.plan.value.endMonth.Forever? || s.plan.value.endMonth.n > 1200)
  }

  /**
   * The answer of those states: every row once nothing is owed; else that the loan is never repaid,
   * from the month since which the end has been out of reach, and the rows before it.
   */
  ghost predicate AnsweredFrom(states: seq<State>, a: LoanAmortization)
    requires states != []
  {
    var last := states[|states| - 1];
    if last.balance == 0.0 then a == LoanAmortization(last.rows, None)
    else
      && a.neverPaysOffFrom.Some?
      && var from := a.neverPaysOffFrom.value;
         && 1 <= from <= |last.rows| && from < |states|
         && a.rows == last.rows[..from - 1]
         && !Unreachable(states[from - 1])
         && forall j :: from <= j < |states| ==> Unreachable(states[j])
  }

  // ---- The engine's rates and extra payments ----

  lemma {:induction false} ListedRate(list: seq<LoanRatePeriod>, month: int) returns (k: int)
    ensures var c := Covering(UsablePeriods(list), month);
            if k < 0 then c.None? && forall i :: 0 <= i < |list| ==> !InForce(list[i], month)
            else Prevails(list, month, k) && c.Some? && c.value.rate == list[k].rate.value
                 && c.value.start == list[k].startMonth.value
  {
    if list == [] {
      k := -1;
    } else {
      var n := |list| - 1;
      var front, p := list[..n], list[n];
      k := ListedRate(front, month);
      var usable, all := UsablePeriods(front), UsablePeriods(list);
      hide UsablePeriods;
      CoveringOneMore(list, month);
      hide Covering, CoversMonth, StartsNoLater;
      assert forall i :: 0 <= i < n ==> front[i] == list[i];
      if InForce(p, month) && (k < 0 || front[k].startMonth.value <= p.startMonth.value) {
        k := n;
      }
    }
  }

  lemma {:induction false} CoveringOneMore(list: seq<LoanRatePeriod>, month: int)
    requires list != []
    ensures var p, rest := list[|list| - 1], Covering(UsablePeriods(list[..|list| - 1]), month);
            Covering(UsablePeriods(list), month)
            == if InForce(p, month) && (rest.None? || rest.value.start <= p.startMonth.value)
               then Some(Period(p.rate.value, p.startMonth.value, LastMonthOf(p.endMonth)))
               else rest
  {
    var p, front, all := list[|list| - 1], UsablePeriods(list[..|list| - 1]), UsablePeriods(list);
    if UsablePeriod(p) {
      assert all[..|all| - 1] == front;
    } else {
      assert all == front;
    }
  }

  /** The rate a month is charged is that of the period that prevails in it, or the loan's own. */
  lemma {:induction false} RateSays(loan: LoanInput, month: int)
    ensures Charges(loan, month, RateAt(loan, month))
  {
    var k := ListedRate(loan.ratePeriods, month);
    hide Covering, UsablePeriods, Prevails, InForce;
  }

  lemma {:induction false} RuleSays(r: LoanExtraRule, month: int)
    ensures PaysIn(r, month) <==> UsableRule(r) && RuleOf(r).Due(month)
  {
    if UsableRule(r) && RuleOf(r).Due(month) {
      var rule := RuleOf(r);
      assert PaysAfter(r, month, rule.every, rule.from, (month - rule.from) / rule.every);
    }
    if PaysIn(r, month) {
      var every, from, steps: nat :| PaysAfter(r, month, every, from, steps);
      LoanExtras.MultipleOf(steps, every);
    }
  }

  lemma {:induction false} DatesSay(list: seq<LoanPrepayment>, month: int)
    requires month >= 1
    ensures DatedIn(list, month).GetOr(NO_EXTRAS)
            == MonthExtras(Dates(list, month, Shorten), Dates(list, month, Lower), DateNotes(list, month))
  {
    if list == [] {
    } else {
      var p := list[|list| - 1];
      DatesSay(list[..|list| - 1], month);
      assert UsablePrepayment(p) && p.month.value == month as real <==> Dated(p, month);
    }
  }

  lemma {:induction false} RepeatsSay(own: Option<MonthExtras>, list: seq<LoanExtraRule>, month: int)
    ensures var own1, all := own.GetOr(NO_EXTRAS), DueIn(own, UsableRules(list), month).GetOr(NO_EXTRAS);
            && all.shorten == own1.shorten + Repeats(list, month, Shorten)
            && all.lower == own1.lower + Repeats(list, month, Lower)
            && all.notes == own1.notes + RepeatNotes(list, month)
  {
    if list == [] {
      NoRules(own, month);
    } else {
      var front, last := list[..|list| - 1], list[|list| - 1];
      RepeatsSay(own, front, month);
      LoanMonotonicity.DueStep(own, list, month);
      RuleSays(last, month);
      hide *;
      RepeatsMore(own, list, month, DueIn(own, UsableRules(front), month));
    }
  }

  lemma {:induction false} RepeatsMore(own: Option<MonthExtras>, list: seq<LoanExtraRule>, month: int,
                                       rest: Option<MonthExtras>)
    requires list != []
    requires PaysIn(list[|list| - 1], month)
             <==> UsableRule(list[|list| - 1]) && RuleOf(list[|list| - 1]).Due(month)
    requires var front := list[..|list| - 1];
             && rest.GetOr(NO_EXTRAS).shorten == own.GetOr(NO_EXTRAS).shorten + Repeats(front, month, Shorten)
             && rest.GetOr(NO_EXTRAS).lower == own.GetOr(NO_EXTRAS).lower + Repeats(front, month, Lower)
             && rest.GetOr(NO_EXTRAS).notes == own.GetOr(NO_EXTRAS).notes + RepeatNotes(front, month)
    ensures var all := LoanMonotonicity.WithRule(rest, list[|list| - 1], month).GetOr(NO_EXTRAS);
            && all.shorten == own.GetOr(NO_EXTRAS).shorten + Repeats(list, month, Shorten)
            && all.lower == own.GetOr(NO_EXTRAS).lower + Repeats(list, month, Lower)
            && all.notes == own.GetOr(NO_EXTRAS).notes + RepeatNotes(list, month)
  {
    hide PaysIn, UsableRule, RuleOf;
  }

  /** A month's extra payments are all that are dated in it and all the rules pay in it, with their notes. */
  lemma {:induction false} ExtrasSay(loan: LoanInput, month: int)
    requires month >= 1
    ensures ExtrasAt(loan, month).GetOr(NO_EXTRAS)
            == MonthExtras(ExtraIn(loan, month, Shorten), ExtraIn(loan, month, Lower), NotesIn(loan, month))
  {
    DatesSay(loan.prepayments, month);
    RepeatsSay(DatedIn(loan.prepayments, month), loan.extraRules, month);
    hide DatedIn, DueIn, UsableRules, Dates, Repeats, DateNotes, RepeatNotes;
  }

  lemma {:induction false} NotesSay(notes: seq<string>)
    ensures Join(notes, "; ") == Spaced(notes)
  {
    if |notes| > 1 {
      NotesSay(notes[1..]);
      NotesSay(notes[..|notes| - 1]);
      JoinFirst(notes);
    }
  }

  lemma {:induction false} JoinFirst(notes: seq<string>)
    requires |notes| > 1
    ensures Join(notes, "; ") == notes[0] + "; " + Join(notes[1..], "; ")
  {
    var n := |notes| - 1;
    if n > 1 {
      JoinFirst(notes[..n]);
      assert notes[..n][1..] == notes[1..][..n - 1];
    }
  }

  lemma {:induction false} OneMoreDate(list: seq<LoanPrepayment>, p: LoanPrepayment, month: int, mode: ExtraMode)
    ensures Dates(list + [p], month, mode)
            == Dates(list, month, mode) + (if Dated(p, month) && p.mode == mode then p.amount.value else 0.0)
    ensures DateNotes(list + [p], month)
            == DateNotes(list, month) + DateNote(p, month)
  {
    assert (list + [p])[..|list|] == list;
  }

  lemma {:induction false} OneMoreRepeat(list: seq<LoanExtraRule>, r: LoanExtraRule, month: int, mode: ExtraMode)
    ensures Repeats(list + [r], month, mode)
            == Repeats(list, month, mode) + (if PaysIn(r, month) && r.mode == mode then r.amount.value else 0.0)
    ensures RepeatNotes(list + [r], month)
            == RepeatNotes(list, month) + RepeatNote(r, month)
  {
    hide PaysIn;
    assert (list + [r])[..|list|] == list;
  }

  lemma {:induction false} DatesTogether(a: seq<LoanPrepayment>, b: seq<LoanPrepayment>, month: int, mode: ExtraMode)
    ensures Dates(a + b, month, mode) == Dates(a, month, mode) + Dates(b, month, mode)
    ensures DateNotes(a + b, month) == DateNotes(a, month) + DateNotes(b, month)
    decreases |b|
  {
    if b == [] {
      assert a + b == a;
    } else {
      hide *;
      var front, last := b[..|b| - 1], b[|b| - 1];
      DatesTogether(a, front, month, mode);
      LastTaken(a, b);
      OneMoreDate(front, last, month, mode);
      OneMoreDate(a + front, last, month, mode);
      Regrouped(DateNotes(a, month), DateNotes(front, month), DateNote(last, month));
    }
  }

  lemma {:induction false} RepeatsTogether(a: seq<LoanExtraRule>, b: seq<LoanExtraRule>, month: int, mode: ExtraMode)
    ensures Repeats(a + b, month, mode) == Repeats(a, month, mode) + Repeats(b, month, mode)
    ensures RepeatNotes(a + b, month) == RepeatNotes(a, month) + RepeatNotes(b, month)
    decreases |b|
  {
    if b == [] {
      assert a + b == a;
    } else {
      hide *;
      var front, last := b[..|b| - 1], b[|b| - 1];
      RepeatsTogether(a, front, month, mode);
      LastTaken(a, b);
      OneMoreRepeat(front, last, month, mode);
      OneMoreRepeat(a + front, last, month, mode);
      Regrouped(RepeatNotes(a, month), RepeatNotes(front, month), RepeatNote(last, month));
    }
  }

  // ---- The engine's months ----

  lemma {:induction false} MonthlyRateSays(rate: Rate)
    ensures MonthlyRate(rate) == rate / 1200.0
  {
  }

  lemma {:induction false} SpreadRepays(balance: real, rate: Rate, from: int, end: Months)
    requires end.Months? ==> end.n > from
    ensures RepaysBy(balance, rate, AnnuityPayment(balance, rate, end.Plus(-from)), from, end)
  {
    MonthlyRateSays(rate);
    match end {
      case Forever =>
        LoanMonotonicity.AnnuityForever(balance, rate);
      case Months(n) =>
        var f, a := Annuity.Factor(MonthlyRate(rate), n - from), AnnuityPayment(balance, rate, Months(n - from));
        hide AnnuityPayment, MonthlyRate, Owing, Annuity.Factor;
        AnnuityRepays(balance, rate, n - from, f, a);
        AnnuityOwing(balance, MonthlyRate(rate), a, n - from, f);
    }
  }

  lemma {:induction false} CountRunsOut(balance: real, rate: Rate, installment: real, from: int)
    ensures RunsOutIn(balance, rate, installment, from, InstallmentsToRepay(balance, rate, installment).Plus(from))
  {
    MonthlyRateSays(rate);
    hide MonthlyRate, Owing;
    var r := MonthlyRate(rate);
    if balance > HALF_CENT && installment > balance * r {
      var n := InstallmentCount(balance, r, installment);
      hide InstallmentCount;
      assert forall k: nat :: k < n ==> OverHalf(balance, r, installment, k);
    }
  }

  lemma {:induction false} TermsSay(loan: LoanInput, t: Terms, month: int, before: State)
    requires Usable(loan) && RatesUsable(loan) && t == TermsOf(loan) && month >= 1
    requires before.plan.None? ==> month == 1
    requires before.plan.Some? && before.plan.value.endMonth.Months? ==> before.plan.value.endMonth.n >= month
    ensures var due := MonthStart(t, before, month);
            && due.balance == before.balance && due.plan.rate == RateAt(loan, month)
            && SetsTerms(loan, month, before, due.plan)
  {
    var rate := t.rateIn(month);
    var end := if before.plan.Some? then before.plan.value.endMonth else Months(t.term);
    SpreadRepays(before.balance, rate, month - 1, end);
    if before.plan.Some? {
      CountRunsOut(before.balance, rate, before.plan.value.installment, month - 1);
    }
    hide AnnuityPayment, InstallmentsToRepay, RepaysBy, RunsOutIn, RateAt;
  }

  lemma {:induction false} ExtraSays(p: Position, amount: real, mode: ExtraMode, month: int)
    requires p.balance >= 0.0 && (p.balance > 0.0 && p.plan.endMonth.Months? ==> p.plan.endMonth.n > month)
    ensures var next, paid := AfterExtra(p, amount, mode, month), Repaid(amount, p.balance);
            && ExtraPaid(p, amount) == paid && next.balance == p.balance - paid
            && (if paid > 0.0 && next.balance > 0.0
                then if mode.Shorten? then Finishes(p.plan, next.plan, next.balance, month)
                     else PaysLess(p.plan, next.plan, next.balance, month)
                else next.plan == p.plan)
  {
    var paid := Repaid(amount, p.balance);
    var left := p.balance - paid;
    if paid > 0.0 && left > 0.0 {
      CountRunsOut(left, p.plan.rate, p.plan.installment, month);
      SpreadRepays(left, p.plan.rate, month, p.plan.endMonth);
      var out := InstallmentsToRepay(left, p.plan.rate, p.plan.installment).Plus(month);
      assert p.plan.endMonth.Min(out) == SoonerOf(p.plan.endMonth, out);
    }
    hide AnnuityPayment, InstallmentsToRepay, RepaysBy, RunsOutIn;
  }

  lemma {:induction false} InterestSays(due: Position)
    ensures InterestDue(due) == due.balance * (due.plan.rate / 1200.0)
  {
    MonthlyRateSays(due.plan.rate);
    hide MonthlyRate;
  }

  lemma {:induction false} InstallmentSays(due: Position, month: int)
    ensures var left := LeftOwed(due.plan, due.balance, month);
            && InterestDue(due) == due.balance * (due.plan.rate / 1200.0)
            && PaymentDue(due, month)
               == (if PaysAll(due.plan, due.balance, month) then due.balance + InterestDue(due)
                   else due.plan.installment)
            && PrincipalPaid(due, month) == due.balance - left
            && AfterInstallment(due, month) == due.(balance := left)
  {
    InterestSays(due);
    hide InterestDue;
    assert IsLast(due, month) == PaysAll(due.plan, due.balance, month);
    hide PaysAll, IsLast;
  }

  lemma {:induction false} DateSays(start: CivilDate, months: int)
    ensures DatedFrom(Some(start), months, Some(AddMonthsOnDay(start, months, start.day)))
  {
  }

  lemma {:induction false} ExtrasPay(loan: LoanInput, month: int, paid: Position)
    requires 1 <= month && Carried(paid, month)
    ensures var x := ExtrasAt(loan, month).GetOr(NO_EXTRAS);
            var mid, done := AfterExtra(paid, x.shorten, Shorten, month), AfterExtras(paid, x, month);
            && PaysExtra(loan, month, paid.balance, paid.plan, mid.plan, done.plan, done.balance)
            && ExtrasPaid(paid, x, month) == paid.balance - done.balance
  {
    ExtrasSay(loan, month);
    var x := ExtrasAt(loan, month).GetOr(NO_EXTRAS);
    ExtraSays(paid, x.shorten, Shorten, month);
    ExtraCarries(paid, x.shorten, Shorten, month);
    ExtraSays(AfterExtra(paid, x.shorten, Shorten, month), x.lower, Lower, month);
    hide Finishes, PaysLess, ExtrasAt, ExtraIn, NotesIn, AfterExtra, ExtraPaid, Repaid;
  }

  lemma {:induction false} RowSays(loan: LoanInput, month: int, due: Position)
    requires 1 <= month && Payable(due, month)
    ensures var x, paid := ExtrasAt(loan, month), AfterInstallment(due, month);
            var balance := AfterExtras(paid, x.GetOr(NO_EXTRAS), month).balance;
            RowTells(loan, month, due.balance, due.plan, balance, RowOf(due, x, month, loan.startDate))
  {
    hide *;
    var x, row := ExtrasAt(loan, month), RowOf(due, ExtrasAt(loan, month), month, loan.startDate);
    var paid := AfterInstallment(due, month);
    InstallmentCarries(due, month);
    InstallmentSays(due, month);
    ExtrasPay(loan, month, paid);
    NoteSays(loan, month, paid);
    RowFields(due, x, month, loan.startDate);
    Tells(loan, month, due.balance, due.plan, AfterExtras(paid, x.GetOr(NO_EXTRAS), month).balance, row);
  }

  lemma {:induction false} RowFields(due: Position, extra: Option<MonthExtras>, month: int, start: Option<CivilDate>)
    ensures var row, paid := RowOf(due, extra, month, start), AfterInstallment(due, month);
            && row.month == month && row.rate == due.plan.rate && row.interest == InterestDue(due)
            && row.payment == PaymentDue(due, month) && row.principal == PrincipalPaid(due, month)
            && row.balance == AfterExtras(paid, extra.GetOr(NO_EXTRAS), month).balance
            && row.prepayment == ExtrasPaid(paid, extra.GetOr(NO_EXTRAS), month)
            && DatedFrom(start, month - 1, row.date) && row.note == NoteOf(paid, extra)
  {
    if start.Some? {
      DateSays(start.value, month - 1);
    }
    hide AfterExtras, ExtrasPaid, AfterInstallment, InterestDue, PaymentDue, PrincipalPaid, AddMonthsOnDay, NoteOf;
  }

  lemma {:induction false} NoteSays(loan: LoanInput, month: int, paid: Position)
    requires 1 <= month
    ensures NoteOf(paid, ExtrasAt(loan, month)) == if paid.balance > 0.0 then Spaced(NotesIn(loan, month)) else ""
  {
    ExtrasSay(loan, month);
    NotesSay(ExtrasAt(loan, month).GetOr(NO_EXTRAS).notes);
    NoNotes(ExtrasAt(loan, month));
    hide ExtrasAt, ExtraIn, NotesIn, Join, Spaced;
  }

  lemma {:induction false} Tells(loan: LoanInput, month: int, owed: real, due: Plan, balance: real, row: ScheduleRow)
    requires row.month == month && row.rate == due.rate && row.interest == owed * (due.rate / 1200.0)
    requires row.payment == if PaysAll(due, owed, month) then owed + row.interest else due.installment
    requires row.principal == owed - LeftOwed(due, owed, month)
    requires row.prepayment == LeftOwed(due, owed, month) - balance && row.balance == balance
    requires DatedFrom(loan.startDate, month - 1, row.date)
    requires row.note == if LeftOwed(due, owed, month) > 0.0 then Spaced(NotesIn(loan, month)) else ""
    ensures RowTells(loan, month, owed, due, balance, row)
  {
    hide PaysAll, LeftOwed, DatedFrom, Spaced, NotesIn;
  }

  /** A month of the engine is the month described. */
  lemma {:induction false} MonthSays(loan: LoanInput, month: int, before: State)
    requires Usable(loan) && RatesUsable(loan) && 1 <= month
    requires CarriedState(TermsOf(loan), before, month - 1) && before.balance > 0.0
    ensures NextMonth(loan, month, before, MonthStep(TermsOf(loan), before, month))
  {
    var t := TermsOf(loan);
    var due := MonthStart(t, before, month);
    TermsSay(loan, t, month, before);
    RateSays(loan, month);
    StartPayable(t, before, month);
    InstallmentCarries(due, month);
    InstallmentSays(due, month);
    var paid := AfterInstallment(due, month);
    ExtrasPay(loan, month, paid);
    RowSays(loan, month, due);
    var mid := AfterExtra(paid, ExtrasAt(loan, month).GetOr(NO_EXTRAS).shorten, Shorten, month);
    hide MonthStart, SetsTerms, Charges, PaysExtra, RowTells, RateAt, ExtrasAt, AfterExtra, AfterExtras;
    hide AfterInstallment, InterestDue, PaymentDue, PrincipalPaid, LeftOwed, PaysAll, RowOf, Carried, Payable;
    var after := MonthStep(t, before, month);
    assert after.rows[..|before.rows|] == before.rows;
    assert FollowsMonth(loan, month, before, after, due.plan, mid.plan);
  }

  lemma {:induction false} NoNotes(extra: Option<MonthExtras>)
    ensures extra.None? ==> Spaced(extra.GetOr(NO_EXTRAS).notes) == ""
  {
  }

  // ---- The whole answer ----

  lemma {:induction false} RunFollows(loan: LoanInput, k: nat)
    requires Usable(loan) && RatesUsable(loan) && k < MAX_TERM_MONTHS && Run(TermsOf(loan), k).balance > 0.0
    ensures NextMonth(loan, k + 1, Run(TermsOf(loan), k), Run(TermsOf(loan), k + 1))
  {
    hide *;
    var t := TermsOf(loan);
    SoundTermsOf(loan);
    RunCarries(t, k);
    RunStep(t, k + 1);
    MonthSays(loan, k + 1, Run(t, k));
  }

  lemma {:induction false} UsableSays(loan: LoanInput)
    ensures Usable(loan) <==>
            && loan.principal.Finite? && loan.principal.value > 0.0
            && loan.termMonths.Finite? && 1.0 <= loan.termMonths.value < 1201.0
  {
  }

  /** Where the run stops: with nothing owed, or after the last month amortised. */
  lemma {:induction false} RunStops(t: Terms) returns (n: nat)
    requires SoundTerms(t)
    ensures n <= 1200 && forall k: nat :: k < n ==> Run(t, k).balance > 0.0
    ensures Run(t, n).balance == 0.0 || n == 1200
    ensures Run(t, n) == Run(t, MAX_TERM_MONTHS)
  {
    RowsOfRun(t, MAX_TERM_MONTHS);
    RunCarries(t, MAX_TERM_MONTHS);
    n := |Run(t, MAX_TERM_MONTHS).rows|;
    hide Run;
    assert Run(t, n) == Run(t, MAX_TERM_MONTHS);
    forall k: nat | k < n
      ensures Run(t, k).balance > 0.0
    {
    }
  }

  /**
   * The whole answer of the engine. A principal that is not positive or a term outside 1 to 1,200
   * months has no schedule. Any other loan goes through months each of which follows the one
   * before, and the answer is theirs.
   */
  lemma {:induction false} ScheduleFollows(loan: LoanInput) returns (states: seq<State>)
    requires RatesUsable(loan)
    ensures if loan.principal.Finite? && loan.principal.value > 0.0
               && loan.termMonths.Finite? && 1.0 <= loan.termMonths.value < 1201.0
            then Follows(loan, states) && AnsweredFrom(states, Amortization(loan))
            else Amortization(loan) == LoanAmortization([], None)
  {
    UsableSays(loan);
    states := [];
    if Usable(loan) {
      var t := TermsOf(loan);
      SoundTermsOf(loan);
      var n := RunStops(t);
      states := seq(n + 1, k requires 0 <= k <= n => Run(t, k));
      StatesFollow(loan, states, n);
      StatesAnswer(loan, states, n);
    }
  }

  lemma {:induction false} SoundTermsOf(loan: LoanInput)
    requires Usable(loan) && RatesUsable(loan)
    ensures SoundTerms(TermsOf(loan))
  {
  }

  lemma {:induction false} StatesFollow(loan: LoanInput, states: seq<State>, n: nat)
    requires Usable(loan) && RatesUsable(loan) && n <= 1200 && |states| == n + 1
    requires forall k :: 0 <= k <= n ==> states[k] == Run(TermsOf(loan), k)
    requires forall k: nat :: k < n ==> Run(TermsOf(loan), k).balance > 0.0
    requires states[n].balance == 0.0 || n == 1200
    ensures Follows(loan, states)
  {
    var t := TermsOf(loan);
    assert Run(t, 0) == State(loan.principal.value, None, None, []);
    hide Run, NextMonth, TermsOf;
    forall k | 0 <= k < n
      ensures NextMonth(loan, k + 1, states[k], states[k + 1])
    {
      RunFollows(loan, k);
    }
  }

  lemma {:induction false} StatesAnswer(loan: LoanInput, states: seq<State>, n: nat)
    requires Usable(loan) && RatesUsable(loan) && n <= 1200 && |states| == n + 1
    requires forall k :: 0 <= k <= n ==> states[k] == Run(TermsOf(loan), k)
    requires states[n].balance == 0.0 || n == 1200
    requires states[n] == Run(TermsOf(loan), MAX_TERM_MONTHS)
    ensures AnsweredFrom(states, Amortization(loan))
  {
    hide *;
    var t, a, last := TermsOf(loan), Amortization(loan), states[n];
    LastMonth();
    SoundTermsOf(loan);
    RunCarries(t, MAX_TERM_MONTHS);
    NotNegative(t, last);
    AnswerIsPrefix(loan);
    if last.balance == 0.0 {
      RepaidAnswer(loan);
      IsAnswer(states, a);
    } else {
      VerdictExact(loan);
      var from := a.neverPaysOffFrom.value;
      forall j | 0 <= j <= n
        ensures OutOfReach(t, j) <==> Unreachable(states[j])
      {
        ReachSays(t, j);
      }
      assert a.rows == last.rows[..from - 1];
      RowsOfRun(t, MAX_TERM_MONTHS);
      NeverRepaid(states, a, from);
    }
  }

  lemma {:induction false} LastMonth()
    ensures MAX_TERM_MONTHS == 1200
  {
  }

  lemma {:induction false} NotNegative(t: Terms, s: State)
    requires CarriedState(t, s, MAX_TERM_MONTHS)
    ensures s.balance >= 0.0
  {
  }

  lemma {:induction false} ReachSays(t: Terms, j: nat)
    ensures OutOfReach(t, j) <==> Unreachable(Run(t, j))
  {
    hide Run;
  }

  lemma {:induction false} RepaidAnswer(loan: LoanInput)
    requires Usable(loan) && RatesUsable(loan) && Run(TermsOf(loan), MAX_TERM_MONTHS).balance == 0.0
    ensures Amortization(loan) == LoanAmortization(Run(TermsOf(loan), MAX_TERM_MONTHS).rows, None)
  {
    hide Run, TermsOf;
    SinceInRange(TermsOf(loan), MAX_TERM_MONTHS);
  }

  lemma {:induction false} IsAnswer(states: seq<State>, a: LoanAmortization)
    requires states != [] && states[|states| - 1].balance == 0.0
    requires a == LoanAmortization(states[|states| - 1].rows, None)
    ensures AnsweredFrom(states, a)
  {
  }

  lemma {:induction false} NeverRepaid(states: seq<State>, a: LoanAmortization, from: int)
    requires |states| == 1201 && states[1200].balance != 0.0
    requires a.neverPaysOffFrom == Some(from) && 1 <= from <= |states[1200].rows| && from <= 1200
    requires a.rows == states[1200].rows[..from - 1]
    requires !Unreachable(states[from - 1]) && forall j :: from <= j <= 1200 ==> Unreachable(states[j])
    ensures AnsweredFrom(states, a)
  {
  }

  /** The first month's payment is dated the start date, when the calendar has it. */
  lemma {:induction false} FirstDay(start: CivilDate, date: Option<CivilDate>)
    requires IsDate(start) && DatedFrom(Some(start), 0, date)
    ensures date == Some(start)
  {
  }

  /**
   * What the k-th row of an answer says of its month: its number, its day, the rate charged on what
   * was owed, what its extra payments repaid of what its installment left, and their notes.
   */
  lemma {:induction false} RowOfAnswer(loan: LoanInput, k: nat)
    requires Usable(loan) && RatesUsable(loan) && k < |Amortization(loan).rows|
    ensures var row, owed := Amortization(loan).rows[k], OwedAfter(loan, Amortization(loan).rows, k);
            var left := owed - row.principal;
            var sooner := Repaid(ExtraIn(loan, k + 1, Shorten), left);
            && row.month == k + 1 && DatedFrom(loan.startDate, k, row.date)
            && Charges(loan, k + 1, row.rate) && row.interest == owed * (row.rate / 1200.0)
            && row.prepayment == sooner + Repaid(ExtraIn(loan, k + 1, Lower), left - sooner)
            && row.note == if left > 0.0 then Spaced(NotesIn(loan, k + 1)) else ""
  {
    hide *;
    var t := TermsOf(loan);
    AnswerRows(loan, k);
    AnswerRows(loan, k + 1);
    AtMost(loan, k + 1);
    RunFollows(loan, k);
    var due, mid := Followed(loan, k + 1, Run(t, k), Run(t, k + 1));
    RowFollows(loan, k, Run(t, k), Run(t, k + 1), due, mid);
    assert Amortization(loan).rows[..k + 1][k] == Amortization(loan).rows[k];
  }

  lemma {:induction false} AtMost(loan: LoanInput, k: nat)
    requires k <= MAX_TERM_MONTHS
    ensures k - 1 < MAX_TERM_MONTHS
  {
  }

  lemma {:induction false} Followed(loan: LoanInput, month: int, before: State, after: State)
    returns (due: Plan, mid: Plan)
    requires NextMonth(loan, month, before, after)
    ensures FollowsMonth(loan, month, before, after, due, mid)
  {
    hide FollowsMonth;
    due, mid :| FollowsMonth(loan, month, before, after, due, mid);
  }

  lemma {:induction false} RowFollows(loan: LoanInput, k: nat, before: State, after: State, due: Plan, mid: Plan)
    requires FollowsMonth(loan, k + 1, before, after, due, mid) && |before.rows| == k
    ensures |after.rows| == k + 1
    ensures var row, owed := after.rows[k], before.balance;
            var left := owed - row.principal;
            var sooner := Repaid(ExtraIn(loan, k + 1, Shorten), left);
            && row.month == k + 1 && DatedFrom(loan.startDate, k, row.date)
            && Charges(loan, k + 1, row.rate) && row.interest == owed * (row.rate / 1200.0)
            && row.prepayment == sooner + Repaid(ExtraIn(loan, k + 1, Lower), left - sooner)
            && row.note == if left > 0.0 then Spaced(NotesIn(loan, k + 1)) else ""
  {
    hide ExtraIn, Repaid, DatedFrom, Charges, Spaced, NotesIn, SetsTerms, Finishes, PaysLess, LeftOwed;
  }
}
