/** When a bill is paid up, and when it falls due next (shared/billSchedule.ts). */
module BillSchedule {
  import opened Basics
  import opened CalendarMonths

  /** What the rules read of a bill; what they cannot read is missing, and an unknown frequency monthly. */
  datatype Bill = Bill(frequency: Frequency, dayOfMonth: Option<int>, dueDate: Option<Date>, lastPaid: Option<Date>)

  function BillDay(bill: Bill): (day: int)
    ensures 1 <= day <= 31
  {
    if bill.dueDate.Some? then bill.dueDate.value.day
    else if bill.dayOfMonth.Some? && 1 <= bill.dayOfMonth.value <= 31 then bill.dayOfMonth.value
    else 1
  }

  /** Where a stepped bill's dates count from: its first due date, else its last payment, else today. */
  function AnchorOf(bill: Bill, today: Date): Date {
    if bill.dueDate.Some? then bill.dueDate.value
    else if bill.lastPaid.Some? then bill.lastPaid.value
    else today
  }

  /** `anchor` plus whole steps, on or before `date`. */
  function StepOnOrBefore(anchor: Date, step: int, date: Date): Date
    requires step >= 1
  {
    AddDays(anchor, DaysFrom(anchor, date) / step * step)
  }

  function FirstOfMonth(date: Date): Date {
    CivilDate(date.year, date.month, 1)
  }

  function FirstOfYear(date: Date): Date {
    CivilDate(date.year, 1, 1)
  }

  /** The first day of the period `today` is in: a payment on or after it has paid the bill up. */
  function PaidFrom(bill: Bill, today: Date): Date {
    var step := StepDays(bill.frequency);
    if step.Some? then
      var anchor := AnchorOf(bill, today);
      var early := AddDays(anchor, -step.value);
      if NotAfter(early, today) && Before(today, AddDays(anchor, step.value)) then early
      else StepOnOrBefore(anchor, step.value, today)
    else if bill.frequency.Yearly? then FirstOfYear(today)
    else FirstOfMonth(today)
  }

  predicate IsPaidUp(bill: Bill, today: Date) {
    bill.lastPaid.Some? && NotAfter(PaidFrom(bill, today), bill.lastPaid.value)
  }

  /** The date a payment leaves a stepped bill due on next: one step after the date it paid. */
  function DueAfterPayment(anchor: Date, step: int, paid: Date): Date
    requires step >= 1
  {
    if NotAfter(anchor, paid) then AddDays(StepOnOrBefore(anchor, step, paid), step)
    else if NotAfter(AddDays(anchor, -step), paid) then AddDays(anchor, step)
    else anchor
  }

  /** The next date the rule alone gives, before the bill's own first due date is minded. */
  function RuleDate(bill: Bill, today: Date): Date {
    var step := StepDays(bill.frequency);
    if step.Some? then
      var anchor := AnchorOf(bill, today);
      if IsPaidUp(bill, today) then DueAfterPayment(anchor, step.value, bill.lastPaid.value)
      else if NotAfter(anchor, today) then StepOnOrBefore(anchor, step.value, today)
      else anchor
    else if bill.frequency.Yearly? then
      var month := if bill.dueDate.Some? then bill.dueDate.value.month else 1;
      var first: Date := CivilDate(today.year, month, 1);
      var thisYear := AddCalendarMonths(first, 0, Some(BillDay(bill)));
      if IsPaidUp(bill, today) then AddCalendarMonths(thisYear, 12, Some(BillDay(bill))) else thisYear
    else
      var thisMonth := AddCalendarMonths(FirstOfMonth(today), 0, Some(BillDay(bill)));
      if IsPaidUp(bill, today) then AddCalendarMonths(thisMonth, 1, Some(BillDay(bill))) else thisMonth
  }

  function NextDueDate(bill: Bill, today: Date): Date {
    var next := RuleDate(bill, today);
    if bill.dueDate.Some? && Before(next, bill.dueDate.value) then bill.dueDate.value else next
  }

  ghost predicate PaidInThePast(bill: Bill, today: Date) {
    bill.lastPaid.Some? ==> NotAfter(bill.lastPaid.value, today)
  }

  // ---- Stepped bills, as day numbers ----

  /** The last of a, a + step, a - step, ... on or before t. */
  function Floor(a: int, step: int, t: int): int
    requires step >= 1
  {
    a + (t - a) / step * step
  }

  ghost predicate PaidUpNumber(a: int, step: int, t: int, p: int)
    requires step >= 1
  {
    p >= if a - step <= t < a + step then a - step else Floor(a, step, t)
  }

  function AfterPaymentNumber(a: int, step: int, p: int): int
    requires step >= 1
  {
    if a <= p then Floor(a, step, p) + step else if a - step <= p then a + step else a
  }

  ghost function StepNext(a: int, step: int, t: int, paid: Option<int>): int
    requires step >= 1
  {
    if paid.Some? && PaidUpNumber(a, step, t, paid.value) then AfterPaymentNumber(a, step, paid.value)
    else if a <= t then Floor(a, step, t)
    else a
  }

  lemma {:induction false} FloorBounds(a: int, step: int, t: int)
    requires step == 1 || step == 7 || step == 14
    ensures Floor(a, step, t) <= t < Floor(a, step, t) + step
    ensures (Floor(a, step, t) - a) % step == 0
    ensures a <= t ==> a <= Floor(a, step, t)
    ensures a + step <= t ==> a + step <= Floor(a, step, t)
    ensures t < a ==> Floor(a, step, t) <= a - step
  {
  }

  lemma {:induction false} FloorGrows(a: int, step: int, s: int, t: int)
    requires (step == 1 || step == 7 || step == 14) && s <= t
    ensures Floor(a, step, s) == Floor(a, step, t) || Floor(a, step, s) + step <= Floor(a, step, t)
  {
  }

  /** The next date of a stepped bill never moves back as the day advances. */
  lemma {:induction false} StepNextGrows(a: int, step: int, s: int, t: int, paid: Option<int>)
    requires (step == 1 || step == 7 || step == 14) && s <= t && (paid.Some? ==> paid.value <= s)
    ensures StepNext(a, step, s, paid) <= StepNext(a, step, t, paid)
  {
    FloorBounds(a, step, s);
    FloorBounds(a, step, t);
    FloorGrows(a, step, s, t);
    if paid.Some? {
      FloorBounds(a, step, paid.value);
      FloorGrows(a, step, paid.value, s);
      FloorGrows(a, step, paid.value, t);
    }
    hide Floor;
  }

  /** Paid up, a stepped bill is due after today; otherwise on its date on or before today, or its first. */
  lemma {:induction false} StepNextPlace(a: int, step: int, t: int, paid: Option<int>)
    requires (step == 1 || step == 7 || step == 14) && (paid.Some? ==> paid.value <= t)
    ensures var next := StepNext(a, step, t, paid);
            && (if paid.Some? && PaidUpNumber(a, step, t, paid.value) then t < next
                else (next == a && t < a) || (a <= next <= t < next + step))
  {
    FloorBounds(a, step, t);
    if paid.Some? {
      FloorBounds(a, step, paid.value);
      FloorGrows(a, step, paid.value, t);
    }
    hide Floor;
  }

  /** A stepped bill is due whole steps from its anchor, and never before it. */
  lemma {:induction false} StepNextCongruent(a: int, step: int, t: int, paid: Option<int>)
    requires step == 1 || step == 7 || step == 14
    ensures a <= StepNext(a, step, t, paid) && (StepNext(a, step, t, paid) - a) % step == 0
  {
    FloorBounds(a, step, t);
    if paid.Some? {
      FloorBounds(a, step, paid.value);
      StepUp(Floor(a, step, paid.value) - a, step);
    }
    StepUp(0, step);
    hide Floor;
  }

  lemma {:induction false} StepUp(x: int, step: int)
    requires (step == 1 || step == 7 || step == 14) && x % step == 0
    ensures (x + step) % step == 0
  {
  }

  /** A payment today pays the bill up and never brings its next date forward. */
  lemma {:induction false} StepPaidToday(a: int, step: int, t: int, paid: Option<int>)
    requires (step == 1 || step == 7 || step == 14) && (paid.Some? ==> paid.value <= t)
    ensures PaidUpNumber(a, step, t, t)
    ensures StepNext(a, step, t, paid) <= StepNext(a, step, t, Some(t))
  {
    FloorBounds(a, step, t);
    if paid.Some? {
      FloorBounds(a, step, paid.value);
      FloorGrows(a, step, paid.value, t);
    }
    hide Floor;
  }

  // ---- From dates to day numbers ----

  function Number(date: Option<Date>): Option<int> {
    if date.Some? then Some(DayNumber(date.value)) else None
  }

  lemma {:induction false} StepDate(anchor: Date, step: int, date: Date)
    requires step >= 1
    ensures DayNumber(StepOnOrBefore(anchor, step, date)) == Floor(DayNumber(anchor), step, DayNumber(date))
  {
    hide DayNumber;
    AddDaysNumber(anchor, DaysFrom(anchor, date) / step * step);
  }

  lemma {:induction false} NotAfterNumber(a: Date, b: Date)
    ensures NotAfter(a, b) <==> DayNumber(a) <= DayNumber(b)
  {
    hide DayNumber, Before;
    DateOrder(a, b);
  }

  /** A stepped bill's date is what its day numbers say. */
  lemma {:induction false} SteppedNumbers(bill: Bill, today: Date)
    requires StepDays(bill.frequency).Some?
    ensures var a, step, t := DayNumber(AnchorOf(bill, today)), StepDays(bill.frequency).value, DayNumber(today);
            && (IsPaidUp(bill, today)
                <==> bill.lastPaid.Some? && PaidUpNumber(a, step, t, DayNumber(bill.lastPaid.value)))
            && DayNumber(RuleDate(bill, today)) == StepNext(a, step, t, Number(bill.lastPaid))
  {
    hide DayNumber, Before, NotAfter, Floor, StepOnOrBefore;
    var anchor, step := AnchorOf(bill, today), StepDays(bill.frequency).value;
    AddDaysNumber(anchor, -step);
    AddDaysNumber(anchor, step);
    NotAfterNumber(AddDays(anchor, -step), today);
    DateOrder(today, AddDays(anchor, step));
    StepDate(anchor, step, today);
    NotAfterNumber(anchor, today);
    if bill.lastPaid.Some? {
      var paid := bill.lastPaid.value;
      NotAfterNumber(PaidFrom(bill, today), paid);
      NotAfterNumber(anchor, paid);
      NotAfterNumber(AddDays(anchor, -step), paid);
      StepDate(anchor, step, paid);
      AddDaysNumber(StepOnOrBefore(anchor, step, paid), step);
    }
  }

  lemma {:induction false} StepsAreThree(frequency: Frequency)
    ensures StepDays(frequency).Some? ==>
              StepDays(frequency).value == 1 || StepDays(frequency).value == 7 || StepDays(frequency).value == 14
  {
  }

  // ---- What the rules promise ----

  lemma {:induction false} SteppedNeverMovesBack(bill: Bill, s: Date, t: Date)
    requires StepDays(bill.frequency).Some? && NotAfter(s, t) && PaidInThePast(bill, s)
    ensures NotAfter(RuleDate(bill, s), RuleDate(bill, t))
  {
    var step := StepDays(bill.frequency).value;
    SteppedNumbers(bill, s);
    SteppedNumbers(bill, t);
    StepsAreThree(bill.frequency);
    hide RuleDate, DayNumber, NotAfter, StepNext, IsPaidUp, StepDays;
    NotAfterNumber(s, t);
    NotAfterNumber(RuleDate(bill, s), RuleDate(bill, t));
    if bill.dueDate.None? && bill.lastPaid.None? {
      StepNextPlace(DayNumber(s), step, DayNumber(s), None);
      StepNextPlace(DayNumber(t), step, DayNumber(t), None);
    } else {
      if bill.lastPaid.Some? {
        NotAfterNumber(bill.lastPaid.value, s);
      }
      StepNextGrows(DayNumber(AnchorOf(bill, s)), step, DayNumber(s), DayNumber(t), Number(bill.lastPaid));
    }
  }

  function MonthIndex(d: CivilDate): int {
    d.year * 12 + d.month - 1
  }

  lemma {:induction false} MonthOrder(a: Date, b: Date, day: int)
    requires a.day == MinInt(day, DaysInMonth(a.year, a.month)) && b.day == MinInt(day, DaysInMonth(b.year, b.month))
    requires MonthIndex(a) <= MonthIndex(b)
    ensures NotAfter(a, b)
  {
  }

  /** A monthly or yearly bill's date, told by its month and the bill's day. */
  lemma {:induction false} RuleDateMonth(bill: Bill, today: Date)
    requires StepDays(bill.frequency).None?
    ensures var next := RuleDate(bill, today);
            && next.day == MinInt(BillDay(bill), DaysInMonth(next.year, next.month))
            && MonthIndex(next) == DueMonth(bill, today)
  {
    hide IsPaidUp, BillDay;
  }

  /** Exactly when a monthly or yearly bill is paid up: a payment in this month or year, or a later one. */
  lemma {:induction false} ByCalendarPaidUp(bill: Bill, today: Date)
    requires bill.frequency.Monthly? || bill.frequency.Yearly?
    ensures IsPaidUp(bill, today) <==>
            && bill.lastPaid.Some?
            && var paid := bill.lastPaid.value;
               || paid.year > today.year
               || (paid.year == today.year && (bill.frequency.Yearly? || paid.month >= today.month))
  {
  }

  /** The month a bill falls due in: this period's, or the next one's once it is paid up. */
  function DueMonth(bill: Bill, today: Date): int {
    if bill.frequency.Yearly?
    then (if IsPaidUp(bill, today) then today.year + 1 else today.year) * 12
         + (if bill.dueDate.Some? then bill.dueDate.value.month else 1) - 1
    else MonthIndex(today) + (if IsPaidUp(bill, today) then 1 else 0)
  }

  /**
   * A monthly or yearly bill is next due on its own day, or on a short month's last, in the month
   * its period gives, or in the month of its first due date when that is later. Its day is its due
   * date's, else its day of the month, else the 1st.
   */
  lemma {:induction false} ByCalendarDate(bill: Bill, today: Date)
    requires bill.frequency.Monthly? || bill.frequency.Yearly?
    ensures var next, on := NextDueDate(bill, today), if IsPaidUp(bill, today) then 1 else 0;
            var month :=
              if bill.frequency.Monthly? then today.year * 12 + today.month + on
              else (today.year + on) * 12 + (if bill.dueDate.Some? then bill.dueDate.value.month else 1);
            var day :=
              if bill.dueDate.Some? then bill.dueDate.value.day
              else if bill.dayOfMonth.Some? && 1 <= bill.dayOfMonth.value <= 31 then bill.dayOfMonth.value
              else 1;
            && next.day == MinInt(day, DaysInMonth(next.year, next.month))
            && next.year * 12 + next.month
               == if bill.dueDate.Some? then MaxInt(month, bill.dueDate.value.year * 12 + bill.dueDate.value.month)
                  else month
  {
    RuleDateMonth(bill, today);
    hide RuleDate, IsPaidUp;
    if bill.dueDate.Some? {
      var next, first := RuleDate(bill, today), bill.dueDate.value;
      if MonthIndex(first) <= MonthIndex(next) {
        MonthOrder(first, next, BillDay(bill));
      } else {
        MonthOrder(next, first, BillDay(bill));
      }
    }
  }

  /** A payment pays for its own month or year and no later one. */
  lemma {:induction false} PaidForOnePeriod(bill: Bill, s: Date, t: Date)
    requires StepDays(bill.frequency).None? && NotAfter(s, t) && PaidInThePast(bill, s)
    ensures bill.frequency.Yearly? && s.year < t.year ==> !IsPaidUp(bill, t)
    ensures !bill.frequency.Yearly? && MonthIndex(s) < MonthIndex(t) ==> !IsPaidUp(bill, t)
    ensures bill.frequency.Yearly? && s.year == t.year ==> IsPaidUp(bill, s) == IsPaidUp(bill, t)
    ensures !bill.frequency.Yearly? && MonthIndex(s) == MonthIndex(t) ==> IsPaidUp(bill, s) == IsPaidUp(bill, t)
    ensures s.year <= t.year && MonthIndex(s) <= MonthIndex(t)
  {
  }

  lemma {:induction false} ByCalendarNeverMovesBack(bill: Bill, s: Date, t: Date)
    requires StepDays(bill.frequency).None? && NotAfter(s, t) && PaidInThePast(bill, s)
    ensures NotAfter(RuleDate(bill, s), RuleDate(bill, t))
  {
    RuleDateMonth(bill, s);
    RuleDateMonth(bill, t);
    PaidForOnePeriod(bill, s, t);
    hide RuleDate, IsPaidUp, NotAfter, Before, DaysInMonth;
    MonthOrder(RuleDate(bill, s), RuleDate(bill, t), BillDay(bill));
  }

  lemma {:induction false} LaterOfGrows(bill: Bill, a: Date, b: Date)
    requires NotAfter(a, b)
    ensures var first := bill.dueDate;
            NotAfter(if first.Some? && Before(a, first.value) then first.value else a,
                     if first.Some? && Before(b, first.value) then first.value else b)
  {
  }

  /** As the days go by and nothing is paid, a bill's next due date never moves back. */
  lemma {:induction false} DueDateNeverMovesBack(bill: Bill, s: Date, t: Date)
    requires NotAfter(s, t) && PaidInThePast(bill, s)
    ensures NotAfter(NextDueDate(bill, s), NextDueDate(bill, t))
  {
    hide RuleDate, NotAfter, Before;
    if StepDays(bill.frequency).Some? {
      SteppedNeverMovesBack(bill, s, t);
    } else {
      ByCalendarNeverMovesBack(bill, s, t);
    }
    LaterOfGrows(bill, RuleDate(bill, s), RuleDate(bill, t));
  }

  /** `next` is the date of the period `today` is in. */
  ghost predicate InCurrentPeriod(bill: Bill, today: Date, next: Date) {
    var step := StepDays(bill.frequency);
    if step.Some? then NotAfter(next, today) && DaysFrom(next, today) < step.value
    else if bill.frequency.Yearly? then next.year == today.year
    else next.year == today.year && next.month == today.month
  }

  lemma {:induction false} SteppedPlace(bill: Bill, today: Date)
    requires StepDays(bill.frequency).Some? && PaidInThePast(bill, today)
    ensures if IsPaidUp(bill, today) then Before(today, RuleDate(bill, today))
            else bill.dueDate == Some(RuleDate(bill, today)) || InCurrentPeriod(bill, today, RuleDate(bill, today))
  {
    var a, step, t := DayNumber(AnchorOf(bill, today)), StepDays(bill.frequency).value, DayNumber(today);
    SteppedNumbers(bill, today);
    StepsAreThree(bill.frequency);
    hide RuleDate, DayNumber, NotAfter, StepNext, IsPaidUp, StepDays, Before;
    if bill.lastPaid.Some? {
      NotAfterNumber(bill.lastPaid.value, today);
    }
    StepNextPlace(a, step, t, Number(bill.lastPaid));
    DateOrder(today, RuleDate(bill, today));
    DateOrder(RuleDate(bill, today), AnchorOf(bill, today));
    NotAfterNumber(RuleDate(bill, today), today);
    NotAfterNumber(AnchorOf(bill, today), today);
  }

  lemma {:induction false} ByCalendarPlace(bill: Bill, today: Date)
    requires StepDays(bill.frequency).None? && PaidInThePast(bill, today)
    ensures if IsPaidUp(bill, today) then Before(today, RuleDate(bill, today))
            else InCurrentPeriod(bill, today, RuleDate(bill, today))
  {
  }

  /**
   * A bill that is paid up is next due after today. One that is not is due in the period today is
   * in, or on its first due date; and no bill is due before that.
   */
  lemma {:induction false} DueDatePlace(bill: Bill, today: Date)
    requires PaidInThePast(bill, today)
    ensures var next := NextDueDate(bill, today);
            && (if IsPaidUp(bill, today) then Before(today, next)
                else bill.dueDate == Some(next) || InCurrentPeriod(bill, today, next))
            && (bill.dueDate.Some? ==> NotAfter(bill.dueDate.value, next))
  {
    hide RuleDate, IsPaidUp, InCurrentPeriod;
    if StepDays(bill.frequency).Some? {
      SteppedPlace(bill, today);
    } else {
      ByCalendarPlace(bill, today);
    }
  }

  /** The bill with a payment recorded on `today`. */
  function Paid(bill: Bill, today: Date): Bill {
    bill.(lastPaid := Some(today))
  }

  lemma {:induction false} SteppedPaidToday(bill: Bill, today: Date)
    requires StepDays(bill.frequency).Some? && PaidInThePast(bill, today)
    ensures IsPaidUp(Paid(bill, today), today)
    ensures NotAfter(RuleDate(bill, today), RuleDate(Paid(bill, today), today))
  {
    var step, t := StepDays(bill.frequency).value, DayNumber(today);
    SteppedNumbers(bill, today);
    SteppedNumbers(Paid(bill, today), today);
    StepsAreThree(bill.frequency);
    hide RuleDate, DayNumber, NotAfter, StepNext, IsPaidUp, StepDays, Before;
    NotAfterNumber(RuleDate(bill, today), RuleDate(Paid(bill, today), today));
    if bill.lastPaid.Some? {
      NotAfterNumber(bill.lastPaid.value, today);
    }
    if bill.dueDate.Some? {
      StepPaidToday(DayNumber(bill.dueDate.value), step, t, Number(bill.lastPaid));
    } else {
      StepPaidToday(t, step, t, None);
      AnchoredAtPayment(t, step, t);
      if bill.lastPaid.Some? {
        AnchoredAtPayment(DayNumber(bill.lastPaid.value), step, t);
      } else {
        StepNextPlace(t, step, t, None);
      }
    }
  }

  /** Without a due date a stepped bill counts from its last payment. */
  lemma {:induction false} AnchoredAtPayment(p: int, step: int, t: int)
    requires (step == 1 || step == 7 || step == 14) && p <= t
    ensures StepNext(p, step, t, Some(p)) <= t + step
    ensures p == t ==> StepNext(p, step, t, Some(p)) == t + step
  {
    FloorBounds(p, step, t);
    FloorBounds(p, step, p);
  }

  lemma {:induction false} ByCalendarPaidToday(bill: Bill, today: Date)
    requires StepDays(bill.frequency).None? && PaidInThePast(bill, today)
    ensures IsPaidUp(Paid(bill, today), today)
    ensures NotAfter(RuleDate(bill, today), RuleDate(Paid(bill, today), today))
  {
  }

  /** Recording a payment today pays the bill up, and never moves its next due date earlier. */
  lemma {:induction false} PayingToday(bill: Bill, today: Date)
    requires PaidInThePast(bill, today)
    ensures IsPaidUp(Paid(bill, today), today)
    ensures NotAfter(NextDueDate(bill, today), NextDueDate(Paid(bill, today), today))
  {
    hide RuleDate, IsPaidUp, NotAfter, Before;
    if StepDays(bill.frequency).Some? {
      SteppedPaidToday(bill, today);
    } else {
      ByCalendarPaidToday(bill, today);
    }
    LaterOfGrows(bill, RuleDate(bill, today), RuleDate(Paid(bill, today), today));
  }

  /** The days between the dates of a bill that does not go by the calendar. */
  ghost predicate StepsBy(bill: Bill, step: int) {
    || (bill.frequency == Daily && step == 1)
    || (bill.frequency == Weekly && step == 7)
    || (bill.frequency == Biweekly && step == 14)
  }

  /** A stepped bill with a due date, as its day numbers say. */
  lemma {:induction false} NextNumber(bill: Bill, today: Date, step: int, due: int, t: int)
    requires StepsBy(bill, step) && bill.dueDate.Some?
    requires due == DayNumber(bill.dueDate.value) && t == DayNumber(today)
    ensures DayNumber(NextDueDate(bill, today)) == StepNext(due, step, t, Number(bill.lastPaid))
    ensures IsPaidUp(bill, today) <==>
            bill.lastPaid.Some? && PaidUpNumber(due, step, t, DayNumber(bill.lastPaid.value))
  {
    SteppedNumbers(bill, today);
    hide RuleDate, DayNumber, NotAfter, StepNext, IsPaidUp, Before, PaidUpNumber;
    StepNextNotBefore(due, step, t, Number(bill.lastPaid));
    DateOrder(RuleDate(bill, today), bill.dueDate.value);
  }

  lemma {:induction false} StepNextNotBefore(a: int, step: int, t: int, paid: Option<int>)
    requires step == 1 || step == 7 || step == 14
    ensures a <= StepNext(a, step, t, paid)
  {
    hide StepNext;
    StepNextCongruent(a, step, t, paid);
  }

  /** However it is paid, a stepped bill stays on its own days: whole steps from its first due date. */
  lemma {:induction false} SteppedKeepsItsDays(bill: Bill, today: Date, step: int)
    requires StepsBy(bill, step) && bill.dueDate.Some?
    ensures var days := DaysFrom(bill.dueDate.value, NextDueDate(bill, today));
            days >= 0 && days % step == 0
  {
    var due, t := DayNumber(bill.dueDate.value), DayNumber(today);
    NextNumber(bill, today, step, due, t);
    hide DayNumber, NextDueDate, StepNext;
    StepNextCongruent(due, step, t, Number(bill.lastPaid));
  }

  /** The last of a, a + step, a - step, ... on or before t, told by what it is and not how it is reached. */
  ghost predicate LastOnOrBefore(day: int, a: int, step: int, t: int)
    requires step > 0
  {
    t - step < day <= t && (day - a) % step == 0
  }

  /**
   * A stepped bill with a first due date, in day numbers: when it is paid up, and the date it is
   * next due on. Up to its second date any payment since a step before the first pays it up.
   */
  lemma {:induction false} SteppedDueDate(bill: Bill, today: Date, step: int, due: int, t: int)
    requires StepsBy(bill, step) && bill.dueDate.Some?
    requires due == DayNumber(bill.dueDate.value) && t == DayNumber(today)
    ensures var next := DayNumber(NextDueDate(bill, today));
            if bill.lastPaid.None? || !IsPaidUp(bill, today) then
              if due <= t then LastOnOrBefore(next, due, step, t) else next == due
            else
              var paid := DayNumber(bill.lastPaid.value);
              if due <= paid then LastOnOrBefore(next - step, due, step, paid)
              else next == if due - step <= paid then due + step else due
    ensures bill.lastPaid.None? ==> !IsPaidUp(bill, today)
    ensures bill.lastPaid.Some? ==>
              var paid := DayNumber(bill.lastPaid.value);
              if due - step <= t < due + step then IsPaidUp(bill, today) <==> due - step <= paid
              else forall day :: LastOnOrBefore(day, due, step, t) ==> (IsPaidUp(bill, today) <==> day <= paid)
  {
    hide *;
    StepIsOne(bill, step);
    NextNumber(bill, today, step, due, t);
    NumberIs(bill.lastPaid);
    StepNextSays(due, step, t, Number(bill.lastPaid));
    if bill.lastPaid.Some? {
      PaidUpSays(due, step, t, DayNumber(bill.lastPaid.value));
    }
  }

  lemma {:induction false} StepIsOne(bill: Bill, step: int)
    requires StepsBy(bill, step)
    ensures step == 1 || step == 7 || step == 14
  {
  }

  lemma {:induction false} NumberIs(date: Option<Date>)
    ensures Number(date) == if date.Some? then Some(DayNumber(date.value)) else None
  {
    hide DayNumber;
  }

  lemma {:induction false} StepNextSays(a: int, step: int, t: int, paid: Option<int>)
    requires step == 1 || step == 7 || step == 14
    ensures var next := StepNext(a, step, t, paid);
            if paid.None? || !PaidUpNumber(a, step, t, paid.value) then
              if a <= t then LastOnOrBefore(next, a, step, t) else next == a
            else if a <= paid.value then LastOnOrBefore(next - step, a, step, paid.value)
            else next == if a - step <= paid.value then a + step else a
  {
    FloorIsLast(a, step, t);
    if paid.Some? {
      FloorIsLast(a, step, paid.value);
    }
    hide Floor, LastOnOrBefore, PaidUpNumber;
  }

  lemma {:induction false} PaidUpSays(a: int, step: int, t: int, paid: int)
    requires step == 1 || step == 7 || step == 14
    ensures if a - step <= t < a + step then PaidUpNumber(a, step, t, paid) <==> a - step <= paid
            else forall day :: LastOnOrBefore(day, a, step, t) ==> (PaidUpNumber(a, step, t, paid) <==> day <= paid)
  {
    FloorIsLast(a, step, t);
    hide Floor, LastOnOrBefore;
  }

  lemma {:induction false} FloorIsLast(a: int, step: int, t: int)
    requires step == 1 || step == 7 || step == 14
    ensures LastOnOrBefore(Floor(a, step, t), a, step, t)
    ensures forall day :: LastOnOrBefore(day, a, step, t) ==> day == Floor(a, step, t)
  {
    FloorBounds(a, step, t);
  }

  /** One without a due date counts from its last payment, and is due every day while it has none. */
  lemma {:induction false} SteppedWithoutDate(bill: Bill, today: Date, step: int, t: int)
    requires StepsBy(bill, step) && bill.dueDate.None? && t == DayNumber(today)
    ensures var next := DayNumber(NextDueDate(bill, today));
            if bill.lastPaid.None? then !IsPaidUp(bill, today) && next == t
            else
              var paid := DayNumber(bill.lastPaid.value);
              && (IsPaidUp(bill, today) <==> t < paid + step)
              && (if t < paid + step then next == paid + step else LastOnOrBefore(next, paid, step, t))
  {
    SteppedNumbers(bill, today);
    FloorIsLast(DayNumber(AnchorOf(bill, today)), step, t);
    if bill.lastPaid.Some? {
      FloorIsLast(DayNumber(bill.lastPaid.value), step, DayNumber(bill.lastPaid.value));
    }
    hide RuleDate, DayNumber, NotAfter, IsPaidUp, Before, Floor;
  }
}
