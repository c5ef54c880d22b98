/** A what-if on top of a loan, and the search for the extra payment that ends it in time (shared/loanScenarios.ts). */
module LoanScenarios {
  import opened Basics
  import opened LoanSchedule
  import opened LoanRepayment
  import opened LoanRates
  import opened LoanExtras
  import opened LoanMeaning

  // ---- What-ifs ----

  datatype OnceExtra = OnceExtra(month: Number, amount: Number)

  datatype EveryExtra = EveryExtra(amount: Number, everyMonths: Number, fromMonth: Number, toMonth: Option<Number>)

  datatype RateMove = RateMove(fromMonth: Number, points: Number)

  datatype WhatIf = WhatIf(mode: ExtraMode, once: seq<OnceExtra>, every: seq<EveryExtra>, rate: Option<RateMove>)

  /** A month number the schedule can use: a whole number of at least 1. */
  function MonthOf(n: Number): int {
    if n.Finite? then MaxInt(1, n.value.Floor) else 1
  }

  predicate StartsBefore(start: Number, from: int) {
    start.NegativeInfinity? || (start.Finite? && start.value < from as real)
  }

  /** The last month a period keeps when the rates from `from` on are said anew. */
  function LastKept(p: LoanRatePeriod, from: int): real {
    var end := LastMonthOf(p.endMonth);
    if end.Some? && end.value < from as real then end.value else (from - 1) as real
  }

  predicate KeepsMonths(p: LoanRatePeriod, from: int) {
    && StartsBefore(p.startMonth, from)
    && LastKept(p, from) >= 1.0
    && (p.startMonth.NegativeInfinity? || p.startMonth.value <= LastKept(p, from))
  }

  function EndedBefore(list: seq<LoanRatePeriod>, from: int): seq<LoanRatePeriod> {
    if list == [] then []
    else
      var p := list[|list| - 1];
      EndedBefore(list[..|list| - 1], from)
      + (if KeepsMonths(p, from) then [p.(endMonth := Some(Finite(LastKept(p, from))))] else [])
  }

  function Moved(s: RateStretch, points: real): LoanRatePeriod {
    LoanRatePeriod(Finite(MaxReal(0.0, s.rate + points)), Finite(s.start as real),
                   if s.end.Some? then Some(Finite(s.end.value as real)) else None)
  }

  /** Every rate from `from` on moved by `points`, never below zero; the rates before it as they were. */
  ghost predicate MovesRates(changed: LoanInput, loan: LoanInput, from: int, points: real) {
    forall m: int :: 1 <= m ==>
      RateAt(changed, m) == if m < from then RateAt(loan, m) else MaxReal(0.0, RateAt(loan, m) + points)
  }

  method RatesMoved(loan: LoanInput, fromMonth: Number, points: real) returns (list: seq<LoanRatePeriod>)
    ensures MovesRates(loan.(ratePeriods := list), loan, MonthOf(fromMonth), points)
    ensures RatesUsable(loan) ==> RatesUsable(loan.(ratePeriods := list))
  {
    var from := MonthOf(fromMonth);
    var before: seq<LoanRatePeriod> := [];
    for i := 0 to |loan.ratePeriods|
      invariant before == EndedBefore(loan.ratePeriods[..i], from)
    {
      assert loan.ratePeriods[..i + 1][..i] == loan.ratePeriods[..i];
      var p := loan.ratePeriods[i];
      if KeepsMonths(p, from) {
        before := before + [p.(endMonth := Some(Finite(LastKept(p, from))))];
      }
    }
    assert loan.ratePeriods[..|loan.ratePeriods|] == loan.ratePeriods;
    var stretches := RateStretches(loan, Finite(from as real));
    WholeFirst(from);
    var after := seq(|stretches|, i requires 0 <= i < |stretches| => Moved(stretches[i], points));
    list := before + after;
    MovedListSays(loan, from, points, stretches, after);
    MovedListUsable(loan, from, points, before, after);
  }

  lemma {:induction false} WholeFirst(from: int)
    requires from >= 1
    ensures FirstMonth(Finite(from as real)) == from
  {
  }

  lemma {:induction false} MovedListUsable(loan: LoanInput, from: int, points: real, before: seq<LoanRatePeriod>,
                                           after: seq<LoanRatePeriod>)
    requires before == EndedBefore(loan.ratePeriods, from)
    requires forall i :: 0 <= i < |after| ==> RateNotNegative(after[i])
    ensures RatesUsable(loan) ==> RatesUsable(loan.(ratePeriods := before + after))
  {
    if RatesUsable(loan) {
      EndedBeforeUsable(loan.ratePeriods, from);
    }
  }

  lemma {:induction false} EndedBeforeUsable(list: seq<LoanRatePeriod>, from: int)
    requires forall i :: 0 <= i < |list| ==> RateNotNegative(list[i])
    ensures forall p :: p in EndedBefore(list, from) ==> RateNotNegative(p)
  {
    if list == [] {
    } else {
      EndedBeforeUsable(list[..|list| - 1], from);
      assert RateNotNegative(list[|list| - 1]);
    }
  }

  // ---- The moved list says the moved rates ----

  lemma {:induction false} UsableTogether(a: seq<LoanRatePeriod>, b: seq<LoanRatePeriod>)
    ensures UsablePeriods(a + b) == UsablePeriods(a) + UsablePeriods(b)
    decreases |b|
  {
    if b == [] {
      assert a + b == a;
    } else {
      var n := |b| - 1;
      UsableTogether(a, b[..n]);
      assert (a + b)[..|a + b| - 1] == a + b[..n];
    }
  }

  lemma {:induction false} CoveringTogether(a: seq<Period>, b: seq<Period>, month: int)
    ensures Covering(a, month).None? ==> Covering(a + b, month) == Covering(b, month)
    ensures Covering(b, month).None? ==> Covering(a + b, month) == Covering(a, month)
    decreases |b|
  {
    if b == [] {
      assert a + b == a;
    } else {
      var n := |b| - 1;
      CoveringTogether(a, b[..n], month);
      assert (a + b)[..|a + b| - 1] == a + b[..n];
    }
  }

  ghost predicate SameSay(a: Option<Period>, b: Option<Period>) {
    a.Some? == b.Some? && (a.Some? ==> a.value.rate == b.value.rate && a.value.start == b.value.start)
  }

  lemma {:induction false} OnePeriod(front: seq<LoanRatePeriod>, p: LoanRatePeriod, month: int)
    ensures Covering(UsablePeriods(front + [p]), month)
            == if !UsablePeriod(p) then Covering(UsablePeriods(front), month)
               else
                 var q := Period(p.rate.value, p.startMonth.value, LastMonthOf(p.endMonth));
                 var rest := Covering(UsablePeriods(front), month);
                 if q.Covers(month) && (rest.None? || rest.value.start <= q.start) then Some(q) else rest
  {
    assert (front + [p])[..|front|] == front;
    var all, usable := UsablePeriods(front + [p]), UsablePeriods(front);
    if UsablePeriod(p) {
      assert all[..|all| - 1] == usable;
    } else {
      assert all == usable;
    }
  }

  /** Ended by the month before `from`, the periods say the same rates before it. */
  lemma {:induction false} EndedBeforeSays(list: seq<LoanRatePeriod>, from: int, month: int)
    requires 1 <= month < from
    ensures SameSay(Covering(UsablePeriods(EndedBefore(list, from)), month), Covering(UsablePeriods(list), month))
  {
    hide Covering, UsablePeriods;
    if list == [] {
    } else {
      var n := |list| - 1;
      var p, front := list[n], list[..n];
      EndedBeforeSays(front, from, month);
      assert list == front + [p];
      OnePeriod(front, p, month);
      if KeepsMonths(p, from) {
        OnePeriod(EndedBefore(front, from), p.(endMonth := Some(Finite(LastKept(p, from)))), month);
      } else {
        assert EndedBefore(list, from) == EndedBefore(front, from);
      }
    }
  }

  lemma {:induction false} NothingCovers(month: int)
    ensures Covering(UsablePeriods([]), month).None?
  {
  }

  /** And none of them covers `from` or later. */
  lemma {:induction false} EndedBeforeEnds(list: seq<LoanRatePeriod>, from: int, month: int)
    requires from <= month
    ensures Covering(UsablePeriods(EndedBefore(list, from)), month).None?
  {
    hide Covering, UsablePeriods;
    if list == [] {
      NothingCovers(month);
    } else {
      var n := |list| - 1;
      var p, front := list[n], list[..n];
      EndedBeforeEnds(front, from, month);
      if KeepsMonths(p, from) {
        OnePeriod(EndedBefore(front, from), p.(endMonth := Some(Finite(LastKept(p, from)))), month);
      } else {
        assert EndedBefore(list, from) == EndedBefore(front, from);
      }
    }
  }

  /** Every month from the first on is in exactly one stretch. */
  lemma {:induction false} StretchOf(stretches: seq<RateStretch>, loan: LoanInput, first: int, month: int, n: nat)
    returns (k: nat)
    requires Compresses(stretches, loan, first) && first <= month
    requires n < |stretches| && stretches[n].start <= month
    ensures k < |stretches| && stretches[k].Holds(month)
    decreases |stretches| - n
  {
    if stretches[n].end.None? || month <= stretches[n].end.value {
      k := n;
    } else {
      k := StretchOf(stretches, loan, first, month, n + 1);
    }
  }

  lemma {:induction false} OnlyStretch(stretches: seq<RateStretch>, loan: LoanInput, first: int, month: int, j: nat,
                                       k: nat)
    requires Compresses(stretches, loan, first)
    requires j < k < |stretches|
    ensures !(stretches[j].Holds(month) && stretches[k].Holds(month))
  {
    assert stretches[j].end == Some(stretches[j + 1].start - 1);
    assert stretches[j + 1].start <= stretches[k].start;
  }

  ghost function MovedPeriod(s: RateStretch, points: real): Period {
    Period(MaxReal(0.0, s.rate + points), s.start as real, if s.end.Some? then Some(s.end.value as real) else None)
  }

  lemma {:induction false} MovedUsable(after: seq<LoanRatePeriod>, stretches: seq<RateStretch>, points: real)
    requires |after| == |stretches| && forall i :: 0 <= i < |after| ==> after[i] == Moved(stretches[i], points)
    requires forall i :: 0 <= i < |stretches| && stretches[i].end.Some? ==> stretches[i].end.value != 0
    ensures |UsablePeriods(after)| == |stretches|
    ensures forall i :: 0 <= i < |stretches| ==> UsablePeriods(after)[i] == MovedPeriod(stretches[i], points)
    decreases |after|
  {
    if after == [] {
    } else {
      var n := |after| - 1;
      MovedUsable(after[..n], stretches[..n], points);
      assert after[n] == Moved(stretches[n], points);
    }
  }

  lemma {:induction false} MovedSays(loan: LoanInput, from: int, points: real, stretches: seq<RateStretch>,
                                     after: seq<LoanRatePeriod>, month: int)
    requires from >= 1 && Compresses(stretches, loan, from)
    requires |after| == |stretches| && forall i :: 0 <= i < |after| ==> after[i] == Moved(stretches[i], points)
    ensures var c := Covering(UsablePeriods(after), month);
            && (month < from ==> c.None?)
            && (from <= month ==> c.Some? && c.value.rate == MaxReal(0.0, RateAt(loan, month) + points))
  {
    hide RateAt, Covering, UsablePeriods;
    forall i | 0 <= i < |stretches|
      ensures stretches[i].start >= from && (stretches[i].end.Some? ==> stretches[i].end.value >= from)
    {
      assert i > 0 ==> stretches[0].start < stretches[i].start;
      assert i < |stretches| - 1 ==> stretches[i].start < stretches[i + 1].start;
    }
    MovedUsable(after, stretches, points);
    var periods := UsablePeriods(after);
    CoveringIsLatest(periods, month);
    if from <= month {
      var k := StretchOf(stretches, loan, from, month, 0);
      assert periods[k].Covers(month);
      forall j | 0 <= j < |periods| && periods[j].Covers(month)
        ensures j == k
      {
        assert stretches[j].Holds(month);
        if j < k {
          OnlyStretch(stretches, loan, from, month, j, k);
        } else if k < j {
          OnlyStretch(stretches, loan, from, month, k, j);
        }
      }
    }
  }

  lemma {:induction false} MovedListSays(loan: LoanInput, from: int, points: real, stretches: seq<RateStretch>,
                                         after: seq<LoanRatePeriod>)
    requires from >= 1 && Compresses(stretches, loan, from)
    requires |after| == |stretches| && forall i :: 0 <= i < |after| ==> after[i] == Moved(stretches[i], points)
    ensures MovesRates(loan.(ratePeriods := EndedBefore(loan.ratePeriods, from) + after), loan, from, points)
  {
    hide RateAt, EndedBefore, Compresses;
    var before := EndedBefore(loan.ratePeriods, from);
    var changed := loan.(ratePeriods := before + after);
    forall m: int | 1 <= m
      ensures RateAt(changed, m) == if m < from then RateAt(loan, m) else MaxReal(0.0, RateAt(loan, m) + points)
    {
      MovedMonthSays(loan, from, points, stretches, before, after, m);
    }
  }

  lemma {:induction false} MovedMonthSays(loan: LoanInput, from: int, points: real, stretches: seq<RateStretch>,
                       before: seq<LoanRatePeriod>, after: seq<LoanRatePeriod>, month: int)
    requires 1 <= month && from >= 1 && Compresses(stretches, loan, from)
    requires before == EndedBefore(loan.ratePeriods, from)
    requires |after| == |stretches| && forall i :: 0 <= i < |after| ==> after[i] == Moved(stretches[i], points)
    ensures RateAt(loan.(ratePeriods := before + after), month)
            == if month < from then RateAt(loan, month) else MaxReal(0.0, RateAt(loan, month) + points)
  {
    hide Covering, UsablePeriods, EndedBefore, Compresses;
    UsableTogether(before, after);
    CoveringTogether(UsablePeriods(before), UsablePeriods(after), month);
    MovedSays(loan, from, points, stretches, after, month);
    if month < from {
      EndedBeforeSays(loan.ratePeriods, from, month);
    } else {
      EndedBeforeEnds(loan.ratePeriods, from, month);
    }
  }

  // ---- The what-if added to a loan ----

  predicate MovesTheRate(whatIf: WhatIf) {
    whatIf.rate.Some? && whatIf.rate.value.points.Finite? && whatIf.rate.value.points.value != 0.0
  }

  function OncePayments(whatIf: WhatIf): seq<LoanPrepayment> {
    seq(|whatIf.once|, i requires 0 <= i < |whatIf.once| =>
      LoanPrepayment(whatIf.once[i].month, whatIf.once[i].amount, "", whatIf.mode))
  }

  function EveryRules(whatIf: WhatIf): seq<LoanExtraRule> {
    seq(|whatIf.every|, i requires 0 <= i < |whatIf.every| =>
      var r := whatIf.every[i];
      LoanExtraRule(r.amount, r.everyMonths, r.fromMonth, r.toMonth, whatIf.mode, ""))
  }

  /** `changed` is the loan with the what-if's extra payments after its own, and its rate change. */
  ghost predicate Applies(changed: LoanInput, loan: LoanInput, whatIf: WhatIf) {
    && changed == loan.(prepayments := loan.prepayments + OncePayments(whatIf),
                        extraRules := loan.extraRules + EveryRules(whatIf),
                        ratePeriods := changed.ratePeriods)
    && (if MovesTheRate(whatIf)
        then MovesRates(changed, loan, MonthOf(whatIf.rate.value.fromMonth), whatIf.rate.value.points.value)
        else changed.ratePeriods == loan.ratePeriods)
  }

  method ApplyWhatIf(loan: LoanInput, whatIf: WhatIf) returns (changed: LoanInput)
    ensures Applies(changed, loan, whatIf)
    ensures RatesUsable(loan) ==> RatesUsable(changed)
  {
    var periods := loan.ratePeriods;
    if MovesTheRate(whatIf) {
      periods := RatesMoved(loan, whatIf.rate.value.fromMonth, whatIf.rate.value.points.value);
    }
    changed := loan.(prepayments := loan.prepayments + OncePayments(whatIf),
                     extraRules := loan.extraRules + EveryRules(whatIf),
                     ratePeriods := periods);
    RatesReadAlone(loan.(ratePeriods := periods), changed);
  }

  // ---- What a what-if changes ----

  /** What the what-if pays in the month: its payments dated in it and its rules that pay in it. */
  ghost function PaidOnce(list: seq<OnceExtra>, month: int): real {
    if list == [] then 0.0
    else
      var p := list[|list| - 1];
      PaidOnce(list[..|list| - 1], month)
      + (if p.month == Finite(month as real) && p.amount.Finite? && p.amount.value > 0.0 then p.amount.value else 0.0)
  }

  ghost predicate RulePaysIn(r: EveryExtra, month: int) {
    PaysIn(LoanExtraRule(r.amount, r.everyMonths, r.fromMonth, r.toMonth, Shorten, ""), month)
  }

  ghost function PaidEvery(list: seq<EveryExtra>, month: int): real {
    if list == [] then 0.0
    else
      var r := list[|list| - 1];
      PaidEvery(list[..|list| - 1], month) + (if RulePaysIn(r, month) then r.amount.value else 0.0)
  }

  lemma {:induction false} PaymentsSay(whatIf: WhatIf, month: int, mode: ExtraMode)
    ensures Dates(OncePayments(whatIf), month, mode)
            == if mode == whatIf.mode then PaidOnce(whatIf.once, month) else 0.0
    ensures DateNotes(OncePayments(whatIf), month) == []
    decreases |whatIf.once|
  {
    if whatIf.once == [] {
    } else {
      var n := |whatIf.once| - 1;
      PaymentsSay(whatIf.(once := whatIf.once[..n]), month, mode);
      assert OncePayments(whatIf)[..n] == OncePayments(whatIf.(once := whatIf.once[..n]));
    }
  }

  lemma {:induction false} SamePays(r: EveryExtra, mode: ExtraMode, month: int)
    ensures PaysIn(LoanExtraRule(r.amount, r.everyMonths, r.fromMonth, r.toMonth, mode, ""), month) <==>
            RulePaysIn(r, month)
  {
    var a := LoanExtraRule(r.amount, r.everyMonths, r.fromMonth, r.toMonth, mode, "");
    var b := LoanExtraRule(r.amount, r.everyMonths, r.fromMonth, r.toMonth, Shorten, "");
    forall every, from, steps: nat
      ensures PaysAfter(a, month, every, from, steps) <==> PaysAfter(b, month, every, from, steps)
    {
    }
  }

  lemma {:induction false} RulesSay(whatIf: WhatIf, month: int, mode: ExtraMode)
    ensures Repeats(EveryRules(whatIf), month, mode)
            == if mode == whatIf.mode then PaidEvery(whatIf.every, month) else 0.0
    ensures RepeatNotes(EveryRules(whatIf), month) == []
    decreases |whatIf.every|
  {
    if whatIf.every == [] {
    } else {
      var n := |whatIf.every| - 1;
      RulesSay(whatIf.(every := whatIf.every[..n]), month, mode);
      assert EveryRules(whatIf)[..n] == EveryRules(whatIf.(every := whatIf.every[..n]));
      SamePays(whatIf.every[n], whatIf.mode, month);
      hide PaysIn, RulePaysIn;
    }
  }

  /**
   * What the changed loan pays and is charged in a month: in the what-if's mode its own extra
   * payments and the what-if's, in the other mode its own, no note more; and its own rate, moved by
   * the points from the month on they are given for, never below 0. Nothing else is changed.
   */
  lemma {:induction false} WhatIfSays(changed: LoanInput, loan: LoanInput, whatIf: WhatIf, month: int, mode: ExtraMode)
    requires Applies(changed, loan, whatIf) && month >= 1
    ensures ExtraIn(changed, month, mode)
            == ExtraIn(loan, month, mode)
               + (if mode == whatIf.mode then PaidOnce(whatIf.once, month) + PaidEvery(whatIf.every, month) else 0.0)
    ensures NotesIn(changed, month) == NotesIn(loan, month)
    ensures var move := whatIf.rate;
            RateAt(changed, month)
            == if move.Some? && move.value.points.Finite? && move.value.points.value != 0.0
                  && (!move.value.fromMonth.Finite? || move.value.fromMonth.value < (month + 1) as real)
               then MaxReal(0.0, RateAt(loan, month) + move.value.points.value)
               else RateAt(loan, month)
    ensures changed == loan.(prepayments := changed.prepayments, extraRules := changed.extraRules,
                             ratePeriods := changed.ratePeriods)
  {
    hide *;
    AppliesSays(changed, loan, whatIf);
    WhatIfPays(changed, loan, whatIf, month, mode);
    WhatIfCharges(changed, loan, whatIf, month);
  }

  lemma {:induction false} AppliesSays(changed: LoanInput, loan: LoanInput, whatIf: WhatIf)
    requires Applies(changed, loan, whatIf)
    ensures changed.prepayments == loan.prepayments + OncePayments(whatIf)
    ensures changed.extraRules == loan.extraRules + EveryRules(whatIf)
    ensures changed == loan.(prepayments := changed.prepayments, extraRules := changed.extraRules,
                             ratePeriods := changed.ratePeriods)
  {
    hide OncePayments, EveryRules, MovesRates, MovesTheRate;
  }

  lemma {:induction false} WhatIfPays(changed: LoanInput, loan: LoanInput, whatIf: WhatIf, month: int, mode: ExtraMode)
    requires changed.prepayments == loan.prepayments + OncePayments(whatIf)
    requires changed.extraRules == loan.extraRules + EveryRules(whatIf)
    ensures ExtraIn(changed, month, mode)
            == ExtraIn(loan, month, mode)
               + (if mode == whatIf.mode then PaidOnce(whatIf.once, month) + PaidEvery(whatIf.every, month) else 0.0)
    ensures NotesIn(changed, month) == NotesIn(loan, month)
  {
    hide Dates, Repeats, DateNotes, RepeatNotes, PaidOnce, PaidEvery, OncePayments, EveryRules;
    PaymentsSay(whatIf, month, mode);
    RulesSay(whatIf, month, mode);
    DatesTogether(loan.prepayments, OncePayments(whatIf), month, mode);
    RepeatsTogether(loan.extraRules, EveryRules(whatIf), month, mode);
    assert DateNotes(changed.prepayments, month) == DateNotes(loan.prepayments, month);
    assert RepeatNotes(changed.extraRules, month) == RepeatNotes(loan.extraRules, month);
  }

  lemma {:induction false} WhatIfCharges(changed: LoanInput, loan: LoanInput, whatIf: WhatIf, month: int)
    requires Applies(changed, loan, whatIf) && month >= 1
    ensures var move := whatIf.rate;
            RateAt(changed, month)
            == if move.Some? && move.value.points.Finite? && move.value.points.value != 0.0
                  && (!move.value.fromMonth.Finite? || move.value.fromMonth.value < (month + 1) as real)
               then MaxReal(0.0, RateAt(loan, month) + move.value.points.value)
               else RateAt(loan, month)
  {
    hide OncePayments, EveryRules, RateAt;
    if !MovesTheRate(whatIf) {
      RatesReadAlone(loan, changed);
    }
  }

  // ---- History ----

  /** Nothing in the what-if is dated before `from`; what has no usable month changes nothing. */
  ghost predicate StartsFrom(whatIf: WhatIf, from: int) {
    && (forall i :: 0 <= i < |whatIf.once| && whatIf.once[i].month.WholeMonth() ==>
          whatIf.once[i].month.value >= from as real)
    && (forall i :: 0 <= i < |whatIf.every| && whatIf.every[i].fromMonth.WholeMonth() ==>
          whatIf.every[i].fromMonth.value >= from as real)
    && (MovesTheRate(whatIf) ==> MonthOf(whatIf.rate.value.fromMonth) >= from)
  }

  lemma {:induction false} LaterPaymentsUnread(list: seq<LoanPrepayment>, more: seq<LoanPrepayment>, from: int,
                                               month: int)
    requires 1 <= month < from
    requires forall i :: 0 <= i < |more| && more[i].month.WholeMonth() ==> more[i].month.value >= from as real
    ensures DatedIn(list + more, month) == DatedIn(list, month)
    decreases |more|
  {
    if more == [] {
      assert list + more == list;
    } else {
      var n := |more| - 1;
      hide DatedIn;
      LaterPaymentsUnread(list, more[..n], from, month);
      assert more == more[..n] + [more[n]];
      assert list + more == (list + more[..n]) + [more[n]];
      OneMoreListed(list + more[..n], more[n], month);
    }
  }

  lemma {:induction false} OneMoreRule(own: Option<MonthExtras>, list: seq<LoanExtraRule>, rule: LoanExtraRule,
                                       month: int)
    requires UsableRule(rule) ==> !RuleOf(rule).Due(month)
    ensures DueIn(own, UsableRules(list + [rule]), month) == DueIn(own, UsableRules(list), month)
  {
    assert (list + [rule])[..|list|] == list;
    var all, usable := UsableRules(list + [rule]), UsableRules(list);
    if UsableRule(rule) {
      assert all[..|all| - 1] == usable;
    } else {
      assert all == usable;
    }
  }

  lemma {:induction false} LaterRulesUnread(own: Option<MonthExtras>, list: seq<LoanExtraRule>,
                                            more: seq<LoanExtraRule>, from: int, month: int)
    requires 1 <= month < from
    requires forall i :: 0 <= i < |more| && more[i].fromMonth.WholeMonth() ==> more[i].fromMonth.value >= from as real
    ensures DueIn(own, UsableRules(list + more), month) == DueIn(own, UsableRules(list), month)
    decreases |more|
  {
    hide DueIn, UsableRules;
    if more == [] {
      assert list + more == list;
    } else {
      var n := |more| - 1;
      LaterRulesUnread(own, list, more[..n], from, month);
      assert list + more == (list + more[..n]) + [more[n]];
      OneMoreRule(own, list + more[..n], more[n], month);
    }
  }

  lemma {:induction false} HistoryAgrees(loan: LoanInput, whatIf: WhatIf, changed: LoanInput, from: int)
    requires Usable(loan) && RatesUsable(loan) && RatesUsable(changed)
    requires Applies(changed, loan, whatIf) && StartsFrom(whatIf, from)
    ensures Usable(changed)
    ensures Agree(TermsOf(changed), TermsOf(loan), from - 1)
  {
    hide DatedIn, DueIn, UsableRules, RateAt, Covering, UsablePeriods, RatesUsable;
    forall m: int | 1 <= m < from
      ensures ExtrasAt(changed, m) == ExtrasAt(loan, m)
      ensures RateAt(changed, m) == RateAt(loan, m)
    {
      LaterPaymentsUnread(loan.prepayments, OncePayments(whatIf), from, m);
      LaterRulesUnread(DatedIn(loan.prepayments, m), loan.extraRules, EveryRules(whatIf), from, m);
      if !MovesTheRate(whatIf) {
        RatesReadAlone(loan, changed);
      }
    }
  }

  /**
   * A what-if cannot change history: when nothing in it is dated before `from`, every row before
   * `from` that both schedules have is the same row, and as much is owed before it.
   */
  lemma {:induction false} WhatIfKeepsHistory(loan: LoanInput, whatIf: WhatIf, changed: LoanInput, from: int, k: nat)
    requires Usable(loan) && RatesUsable(loan) && RatesUsable(changed)
    requires Applies(changed, loan, whatIf) && StartsFrom(whatIf, from)
    requires k < from && k <= |Amortization(loan).rows| && Usable(changed) && k <= |Amortization(changed).rows|
    ensures Amortization(changed).rows[..k] == Amortization(loan).rows[..k]
    ensures OwedAfter(changed, Amortization(changed).rows, k) == OwedAfter(loan, Amortization(loan).rows, k)
  {
    hide Applies, StartsFrom, Amortization, TermsOf, RatesUsable, Usable, Run;
    HistoryAgrees(loan, whatIf, changed, from);
    AgreeShorter(TermsOf(changed), TermsOf(loan), from - 1, k);
    SameRun(TermsOf(changed), TermsOf(loan), k);
    AnswerRows(loan, k);
    AnswerRows(changed, k);
  }

  lemma {:induction false} AgreeShorter(a: Terms, b: Terms, n: int, k: int)
    requires Agree(a, b, n) && k <= n
    ensures Agree(a, b, k)
  {
  }
}
