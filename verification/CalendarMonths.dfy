/** Whole calendar months and days on civil dates (shared/calendarMonths.ts). */
module CalendarMonths {
  import opened Basics

  /** A year, month and day as a YYYY-MM-DD text holds them. */
  datatype CivilDate = CivilDate(year: int, month: int, day: int)

  predicate IsLeap(year: int) {
    (year % 4 == 0 && year % 100 != 0) || year % 400 == 0
  }

  function DaysInMonth(year: int, month: int): int {
    if month == 2 then (if IsLeap(year) then 29 else 28)
    else if month == 4 || month == 6 || month == 9 || month == 11 then 30
    else 31
  }

  /** The months' lengths, written out, and that of their years. */
  lemma {:induction false} MonthLengths(year: int, month: int)
    requires 1 <= month <= 12
    ensures var february := if year % 4 == 0 && (year % 100 != 0 || year % 400 == 0) then 29 else 28;
            && DaysInMonth(year, month) == [31, february, 31, 30, 31, 30, 31, 31, 30, 31, 30, 31][month - 1]
            && DaysBeforeYear(year + 1) - DaysBeforeYear(year) == 337 + february
  {
    YearLength(year);
    hide DaysBeforeYear, DaysBeforeMonth;
  }

  predicate IsDate(d: CivilDate) {
    1 <= d.month <= 12 && 1 <= d.day <= DaysInMonth(d.year, d.month)
  }

  /** A date the calendar has. */
  type Date = d: CivilDate | IsDate(d) witness CivilDate(2000, 1, 1)

  /** As the texts compare: by year, then month, then day. */
  predicate Before(a: CivilDate, b: CivilDate) {
    || a.year < b.year
    || (a.year == b.year && (a.month < b.month || (a.month == b.month && a.day < b.day)))
  }

  predicate NotAfter(a: CivilDate, b: CivilDate) {
    a == b || Before(a, b)
  }

  // ---- Months ----

  /** `date` moved by `months` calendar months, on `day` or on the last day of a shorter month. */
  function AddMonthsOnDay(date: CivilDate, months: int, day: int): CivilDate {
    var index := date.year * 12 + date.month - 1 + months;
    var year := index / 12;
    var month := index - year * 12 + 1;
    CivilDate(year, month, MinInt(day, DaysInMonth(year, month)))
  }

  lemma {:induction false} MonthsLand(date: CivilDate, months: int, day: int)
    requires day >= 1
    ensures IsDate(AddMonthsOnDay(date, months, day))
  {
  }

  /** `date` moved by `months` months, on `day` when it is one, else on its own day. */
  function AddCalendarMonths(date: Date, months: int, day: Option<int>): Date {
    var wanted := if day.Some? && day.value >= 1 then day.value else date.day;
    MonthsLand(date, months, wanted);
    AddMonthsOnDay(date, months, wanted)
  }

  /** The next date of a monthly rule: a date a short month moved goes back to the rule's own day. */
  function NextMonthlyDate(date: Date, dayOfMonth: Option<int>): Date {
    var clamped :=
      if dayOfMonth.Some? && dayOfMonth.value > date.day && date.day == DaysInMonth(date.year, date.month)
      then dayOfMonth.value else date.day;
    AddCalendarMonths(date, 1, Some(clamped))
  }

  // ---- Days ----

  function NextDay(d: Date): Date {
    if d.day < DaysInMonth(d.year, d.month) then CivilDate(d.year, d.month, d.day + 1)
    else if d.month < 12 then CivilDate(d.year, d.month + 1, 1)
    else CivilDate(d.year + 1, 1, 1)
  }

  function PreviousDay(d: Date): Date {
    if d.day > 1 then CivilDate(d.year, d.month, d.day - 1)
    else if d.month > 1 then CivilDate(d.year, d.month - 1, DaysInMonth(d.year, d.month - 1))
    else CivilDate(d.year - 1, 12, 31)
  }

  /** `date` moved by `days` days. */
  function AddDays(date: Date, days: int): Date
    decreases if days < 0 then -days else days
  {
    if days == 0 then date
    else if days > 0 then AddDays(NextDay(date), days - 1)
    else AddDays(PreviousDay(date), days + 1)
  }

  /** Days from 1 January of year 0 to 1 January of `year`. */
  function DaysBeforeYear(year: int): int {
    365 * year + (year + 3) / 4 - (year + 99) / 100 + (year + 399) / 400
  }

  function DaysBeforeMonth(year: int, month: int): int
    decreases month
  {
    if month <= 1 then 0 else DaysBeforeMonth(year, month - 1) + DaysInMonth(year, month - 1)
  }

  /** The date's place on the line of days. */
  function DayNumber(d: CivilDate): int {
    DaysBeforeYear(d.year) + DaysBeforeMonth(d.year, d.month) + d.day
  }

  /** Whole days from `a` to `b`, negative when `b` is earlier. */
  function DaysFrom(a: CivilDate, b: CivilDate): int {
    DayNumber(b) - DayNumber(a)
  }

  lemma {:induction false} YearLength(year: int)
    ensures DaysBeforeYear(year + 1) == DaysBeforeYear(year) + 365 + (if IsLeap(year) then 1 else 0)
    ensures DaysBeforeMonth(year, 12) + 31 == 365 + (if IsLeap(year) then 1 else 0)
  {
    LeapStep(year);
    assert DaysBeforeMonth(year, 2) == 31;
    assert DaysBeforeMonth(year, 4) == 31 + DaysInMonth(year, 2) + 31;
    assert DaysBeforeMonth(year, 6) == DaysBeforeMonth(year, 4) + 61;
    assert DaysBeforeMonth(year, 8) == DaysBeforeMonth(year, 6) + 61;
    assert DaysBeforeMonth(year, 10) == DaysBeforeMonth(year, 8) + 61;
  }

  lemma {:induction false} LeapStep(year: int)
    ensures (year + 4) / 4 - (year + 3) / 4 == if year % 4 == 0 then 1 else 0
    ensures (year + 100) / 100 - (year + 99) / 100 == if year % 100 == 0 then 1 else 0
    ensures (year + 400) / 400 - (year + 399) / 400 == if year % 400 == 0 then 1 else 0
    ensures year % 100 == 0 ==> year % 4 == 0
    ensures year % 400 == 0 ==> year % 100 == 0
  {
    EveryFourth(year);
    HundredthIsFourth(year);
    EveryHundredth(year);
    EveryFourHundredth(year);
  }

  lemma {:induction false} EveryFourth(year: int)
    ensures (year + 4) / 4 - (year + 3) / 4 == if year % 4 == 0 then 1 else 0
  {
  }

  lemma {:induction false} HundredthIsFourth(year: int)
    ensures year % 100 == 0 ==> year % 4 == 0
  {
    var k := year / 100;
    assert year == 4 * (25 * k) + year % 100;
  }

  lemma {:induction false} EveryHundredth(year: int)
    ensures (year + 100) / 100 - (year + 99) / 100 == if year % 100 == 0 then 1 else 0
    ensures year % 400 == 0 ==> year % 100 == 0
  {
  }

  lemma {:induction false} EveryFourHundredth(year: int)
    ensures (year + 400) / 400 - (year + 399) / 400 == if year % 400 == 0 then 1 else 0
  {
  }

  lemma {:induction false} NextDayNumber(d: Date)
    ensures DayNumber(NextDay(d)) == DayNumber(d) + 1
  {
    hide DaysBeforeYear;
    YearLength(d.year);
  }

  lemma {:induction false} PreviousDayNumber(d: Date)
    ensures DayNumber(PreviousDay(d)) == DayNumber(d) - 1
  {
    hide DaysBeforeYear;
    YearLength(d.year - 1);
  }

  lemma {:induction false} AddDaysNumber(d: Date, days: int)
    ensures DayNumber(AddDays(d, days)) == DayNumber(d) + days
    decreases if days < 0 then -days else days
  {
    hide DayNumber, NextDay, PreviousDay;
    if days > 0 {
      NextDayNumber(d);
      AddDaysNumber(NextDay(d), days - 1);
    } else if days < 0 {
      PreviousDayNumber(d);
      AddDaysNumber(PreviousDay(d), days + 1);
    }
  }

  lemma {:induction false} MonthsGrow(year: int, m: int, n: int)
    requires 1 <= m < n <= 13
    ensures DaysBeforeMonth(year, m) + DaysInMonth(year, m) <= DaysBeforeMonth(year, n)
    decreases n
  {
    if m < n - 1 {
      MonthsGrow(year, m, n - 1);
    }
  }

  lemma {:induction false} YearsGrow(a: int, b: int)
    requires a < b
    ensures DaysBeforeYear(a + 1) <= DaysBeforeYear(b)
    decreases b - a
  {
    if a + 1 < b {
      YearsGrow(a, b - 1);
      YearLength(b - 1);
      hide DaysBeforeYear;
    }
  }

  lemma {:induction false} WithinYear(d: Date)
    ensures DaysBeforeYear(d.year) < DayNumber(d) <= DaysBeforeYear(d.year + 1)
  {
    hide DaysBeforeYear;
    YearLength(d.year);
    if d.month > 1 {
      MonthsGrow(d.year, 1, d.month);
    }
    if d.month < 12 {
      MonthsGrow(d.year, d.month, 12);
    }
  }

  lemma {:induction false} BeforeIsEarlier(a: Date, b: Date)
    requires Before(a, b)
    ensures DayNumber(a) < DayNumber(b)
  {
    hide DaysBeforeYear;
    if a.year < b.year {
      YearsGrow(a.year, b.year);
      WithinYear(a);
      WithinYear(b);
    } else if a.month < b.month {
      MonthsGrow(a.year, a.month, b.month);
    }
  }

  /** The order of the texts is the order of the days, and two dates are never the same day. */
  lemma {:induction false} DateOrder(a: Date, b: Date)
    ensures Before(a, b) <==> DayNumber(a) < DayNumber(b)
    ensures a == b <==> DayNumber(a) == DayNumber(b)
  {
    hide DayNumber;
    if Before(a, b) {
      BeforeIsEarlier(a, b);
    } else if Before(b, a) {
      BeforeIsEarlier(b, a);
    }
  }

  // ---- Repeating rules ----

  datatype Frequency = Daily | Weekly | Biweekly | Monthly | Yearly

  function StepDays(frequency: Frequency): Option<int> {
    match frequency
    case Daily => Some(1)
    case Weekly => Some(7)
    case Biweekly => Some(14)
    case _ => None
  }

  /** The date after `date` for a rule: some days on, the same day next year, or the next month. */
  function NextOccurrence(date: Date, frequency: Frequency, dayOfMonth: Option<int>): Date {
    var days := StepDays(frequency);
    if days.Some? then AddDays(date, days.value)
    else if frequency.Yearly? then AddCalendarMonths(date, 12, None)
    else NextMonthlyDate(date, dayOfMonth)
  }

  /** What a rule's next date is, by its frequency. */
  lemma {:induction false} NextOccurrenceSays(date: Date, frequency: Frequency, dayOfMonth: Option<int>)
    ensures var next := NextOccurrence(date, frequency, dayOfMonth);
            match frequency
            case Daily => DayNumber(next) == DayNumber(date) + 1
            case Weekly => DayNumber(next) == DayNumber(date) + 7
            case Biweekly => DayNumber(next) == DayNumber(date) + 14
            case Yearly =>
              && next.year == date.year + 1 && next.month == date.month
              && next.day == if date.month == 2 && date.day == 29 then 28 else date.day
            case Monthly =>
              && next.year * 12 + next.month == date.year * 12 + date.month + 1
              && var last := DaysInMonth(next.year, next.month);
                 if dayOfMonth.Some? && dayOfMonth.value > date.day == DaysInMonth(date.year, date.month)
                 then next.day == MinInt(dayOfMonth.value, last)
                 else next.day == MinInt(date.day, last)
  {
    hide DayNumber;
    if frequency.Daily? || frequency.Weekly? || frequency.Biweekly? {
      AddDaysNumber(date, StepDays(frequency).value);
      hide AddDays;
    } else {
      hide AddDays;
    }
  }

  /** A rule always moves forward. */
  lemma {:induction false} NextOccurrenceLater(date: Date, frequency: Frequency, dayOfMonth: Option<int>)
    ensures Before(date, NextOccurrence(date, frequency, dayOfMonth))
    ensures DayNumber(date) < DayNumber(NextOccurrence(date, frequency, dayOfMonth))
  {
    hide DayNumber;
    var next := NextOccurrence(date, frequency, dayOfMonth);
    if StepDays(frequency).Some? {
      AddDaysNumber(date, StepDays(frequency).value);
    }
    DateOrder(date, next);
  }

  /** `date` stepped `k` months, one month at a time. */
  function StepMonthly(date: Date, k: nat, dayOfMonth: int): Date {
    if k == 0 then date else NextMonthlyDate(StepMonthly(date, k - 1, dayOfMonth), Some(dayOfMonth))
  }

  lemma {:induction false} StepsAreOneJump(date: Date, k: nat, dayOfMonth: int)
    requires dayOfMonth >= 1 && date.day == MinInt(dayOfMonth, DaysInMonth(date.year, date.month))
    ensures StepMonthly(date, k, dayOfMonth) == AddCalendarMonths(date, k, Some(dayOfMonth))
  {
    hide NextMonthlyDate, AddCalendarMonths, DaysInMonth;
    if k == 0 {
      OwnDay(date, dayOfMonth);
    } else {
      StepsAreOneJump(date, k - 1, dayOfMonth);
      JumpThenStep(date, k - 1, dayOfMonth);
    }
  }

  /** Short months never make a monthly rule drift: k steps are one jump of k months, on its own day. */
  lemma {:induction false} MonthlyNeverDrifts(date: Date, k: nat, dayOfMonth: int)
    requires dayOfMonth >= 1 && date.day == MinInt(dayOfMonth, DaysInMonth(date.year, date.month))
    ensures StepMonthly(date, k, dayOfMonth) == AddCalendarMonths(date, k, Some(dayOfMonth))
    ensures var landed := StepMonthly(date, k, dayOfMonth);
            && landed.year * 12 + landed.month == date.year * 12 + date.month + k
            && landed.day == MinInt(dayOfMonth, DaysInMonth(landed.year, landed.month))
  {
    hide *;
    StepsAreOneJump(date, k, dayOfMonth);
    JumpLands(date, k, dayOfMonth);
  }

  lemma {:induction false} JumpLands(date: Date, k: int, dayOfMonth: int)
    requires dayOfMonth >= 1
    ensures var landed := AddCalendarMonths(date, k, Some(dayOfMonth));
            && landed.year * 12 + landed.month == date.year * 12 + date.month + k
            && landed.day == MinInt(dayOfMonth, DaysInMonth(landed.year, landed.month))
  {
  }

  lemma {:induction false} OwnDay(date: Date, dayOfMonth: int)
    requires dayOfMonth >= 1 && date.day == MinInt(dayOfMonth, DaysInMonth(date.year, date.month))
    ensures AddCalendarMonths(date, 0, Some(dayOfMonth)) == date
  {
  }

  lemma {:induction false} JumpThenStep(date: Date, k: nat, dayOfMonth: int)
    requires dayOfMonth >= 1
    ensures NextMonthlyDate(AddCalendarMonths(date, k, Some(dayOfMonth)), Some(dayOfMonth))
            == AddCalendarMonths(date, k + 1, Some(dayOfMonth))
  {
    var landed := AddCalendarMonths(date, k, Some(dayOfMonth));
    assert landed.year * 12 + landed.month - 1 == date.year * 12 + date.month - 1 + k;
  }
}
