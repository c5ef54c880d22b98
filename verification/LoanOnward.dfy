/**
 * Runs carried on from any state (shared/loanSchedule.ts), two at a time, under keep-term and with
 * the same extra payments: one strictly below another stays so while the other still owes, and one
 * that starts near enough to another stays as near to it as wanted.
 */
module LoanOnward {
  import opened Annuity
  import opened LoanSchedule
  import opened LoanInvariants
  import opened LoanRepayment
  import opened LoanMonotonicity
  import LoanExtras

  /** The state after month k of a loan that stands at `s` after month m. */
  ghost function Onward(t: Terms, s: State, m: int, k: int): State
    requires m <= k
    decreases k - m
  {
    if k == m then s
    else
      var before := Onward(t, s, m, k - 1);
      if Continues(before, k, t.term) then MonthStep(t, before, k) else before
  }

  /** A state a keep-term run can be in: carried, and on course for an end within the term. */
  ghost predicate Underway(t: Terms, s: State, k: int) {
    && k >= 1 && s.plan.Some? && CarriedState(t, s, k) && KeepTermState(t, s, k)
  }

  ghost predicate KeepTermTerms(t: Terms) {
    SoundTerms(t) && !t.keepInstallment && forall k: int :: ExtrasNotNegativeIn(t, k)
  }

  ghost predicate ExtrasNotNegativeIn(t: Terms, k: int) {
    var x := t.extrasIn(k).GetOr(NO_EXTRAS);
    0.0 <= x.shorten && 0.0 <= x.lower
  }

  lemma {:induction false} UnderwayStep(t: Terms, s: State, k: int)
    requires KeepTermTerms(t) && Underway(t, s, k - 1) && s.balance > 0.0
    ensures Underway(t, MonthStep(t, s, k), k)
    ensures k <= t.term && Continues(s, k, t.term)
  {
    hide MonthStep, OnCourse;
    StepCarries(t, s, k);
    StepKeepsTerm(t, s, k);
    StepIsLowered(t, s, k);
  }

  lemma {:induction false} OnwardUnderway(t: Terms, s: State, m: int, k: int)
    requires KeepTermTerms(t) && m <= k && Underway(t, s, m)
    ensures var now := Onward(t, s, m, k);
            now.balance > 0.0 ==> Underway(t, now, k) && now.plan.Some? && k < t.term
    ensures m < k && Onward(t, s, m, k).balance > 0.0 ==>
              && Onward(t, s, m, k - 1).balance > 0.0
              && Onward(t, s, m, k) == MonthStep(t, Onward(t, s, m, k - 1), k)
    ensures Onward(t, s, m, k).balance >= 0.0
    decreases k - m
  {
    hide MonthStep, OnCourse;
    if m == k {
    } else {
      OnwardUnderway(t, s, m, k - 1);
      var before := Onward(t, s, m, k - 1);
      if before.balance > 0.0 {
        UnderwayStep(t, before, k);
      }
    }
  }

  /** What is repaid stays repaid. */
  lemma {:induction false} OnwardOwed(t: Terms, s: State, m: int, j: int, k: int)
    requires m <= j <= k && Onward(t, s, m, k).balance > 0.0
    ensures Onward(t, s, m, j).balance > 0.0
    decreases k - j
  {
    hide MonthStep;
    if j < k {
      OnwardOwed(t, s, m, j + 1, k);
    }
  }

  // ---- Ahead stays ahead, below stays below ----

  /** Two runs with the same extra payments: the month's start, its installment and its finish-sooner payments. */
  lemma {:induction false} SameExtrasStart(t: Terms, s1: State, s: State, k: int)
    requires KeepTermTerms(t) && Underway(t, s1, k - 1) && Underway(t, s, k - 1)
    requires 0.0 < s1.balance && Ahead(PositionOf(s1), PositionOf(s))
    ensures Ahead(MonthStart(t, s1, k), MonthStart(t, s, k))
    ensures Ahead(Shortened(t, s1, k), Shortened(t, s, k))
    ensures Carried(Shortened(t, s1, k), k) && Carried(Shortened(t, s, k), k)
  {
    RateKeepsAhead(t, s1, s, k);
    assert ExtrasNotNegativeIn(t, k);
    MonthKeepsAhead(t, t, s1, s, k);
    hide Ahead, Carried, Shortened, AtRate;
  }

  lemma {:induction false} SameExtrasAhead(t: Terms, s1: State, s: State, k: int)
    requires KeepTermTerms(t) && Underway(t, s1, k - 1) && Underway(t, s, k - 1)
    requires 0.0 < s1.balance && Ahead(PositionOf(s1), PositionOf(s))
    ensures MonthStep(t, s1, k).plan.Some? && MonthStep(t, s, k).plan.Some?
    ensures Ahead(PositionOf(MonthStep(t, s1, k)), PositionOf(MonthStep(t, s, k)))
  {
    SameExtrasStart(t, s1, s, k);
    StepIsLowered(t, s1, k);
    StepIsLowered(t, s, k);
    assert ExtrasNotNegativeIn(t, k);
    var x := t.extrasIn(k).GetOr(NO_EXTRAS).lower;
    ExtraKeepsAhead(Shortened(t, s1, k), Shortened(t, s, k), x, x, Lower, k);
    hide MonthStep, Ahead, Shortened, Carried, AfterExtra;
  }

  lemma {:induction false} BelowAfter(l: real, al: real, s: real, a: real, q: real)
    requires 0.0 <= l < s && l * a <= s * al && s * q - a > 0.0
    ensures l * q - al < s * q - a
  {
    var next := s * q - a;
    assert s * (l * q - al) == l * (s * q) - s * al;
    assert s * (l * q - al) <= l * next;
    assert l * next < s * next;
    Scaled(s, l * q - al, next);
  }

  lemma {:induction false} Scaled(s: real, x: real, y: real)
    requires s > 0.0 && s * x < s * y
    ensures x < y
  {
  }

  lemma {:induction false} InstallmentBelow(low: Position, high: Position, month: int, r: Rate, b: real, b1: real)
    requires Payable(low, month) && Payable(high, month) && Ahead(low, high) && low.balance < high.balance
    requires r == MonthlyRate(high.plan.rate)
    requires b1 == AfterInstallment(low, month).balance && b == AfterInstallment(high, month).balance > 0.0
    ensures b1 < b
  {
    InstallmentLeaves(low, month, low.balance * r);
    InstallmentLeaves(high, month, high.balance * r);
    var l, al, s, a := low.balance, low.plan.installment, high.balance, high.plan.installment;
    assert l * (1.0 + r) - al == l + l * r - al && s * (1.0 + r) - a == s + s * r - a;
    BelowAfter(l, al, s, a, 1.0 + r);
    hide *;
  }

  lemma {:induction false} InstallmentLeaves(p: Position, month: int, interest: real)
    requires interest == p.balance * MonthlyRate(p.plan.rate)
    ensures var left := p.balance + interest - p.plan.installment;
            AfterInstallment(p, month)
            == p.(balance := if p.plan.endMonth.Within(month) || left <= HALF_CENT then 0.0 else left)
  {
    hide MonthlyRate;
  }

  lemma {:induction false} ExtraBelow(low: Position, high: Position, amount: real, mode: ExtraMode, month: int)
    requires 0.0 <= low.balance < high.balance && amount >= 0.0
    requires AfterExtra(high, amount, mode, month).balance > 0.0
    ensures AfterExtra(low, amount, mode, month).balance < AfterExtra(high, amount, mode, month).balance
  {
    hide AfterExtraPayment;
  }

  /** Every extra payment leaves less owed than before it. */
  lemma {:induction false} ExtraOwesNoMore(p: Position, amount: real, mode: ExtraMode, month: int)
    requires p.balance >= 0.0
    ensures 0.0 <= AfterExtra(p, amount, mode, month).balance <= p.balance
  {
    hide AfterExtraPayment;
  }

  /** The extra payments of a month keep what is below another below it. */
  lemma {:induction false} ExtrasBelow(low: Position, high: Position, extra: MonthExtras, month: int)
    requires 0.0 <= low.balance < high.balance && extra.shorten >= 0.0 && extra.lower >= 0.0
    requires AfterExtras(high, extra, month).balance > 0.0
    ensures AfterExtras(low, extra, month).balance < AfterExtras(high, extra, month).balance
  {
    hide AfterExtra;
    var low1, high1 := AfterExtra(low, extra.shorten, Shorten, month), AfterExtra(high, extra.shorten, Shorten, month);
    ExtraOwesNoMore(low, extra.shorten, Shorten, month);
    ExtraOwesNoMore(high, extra.shorten, Shorten, month);
    ExtraOwesNoMore(high1, extra.lower, Lower, month);
    ExtraBelow(low, high, extra.shorten, Shorten, month);
    ExtraBelow(low1, high1, extra.lower, Lower, month);
  }

  /** What a month makes of what is owed at its start. */
  lemma {:induction false} StepOwes(t: Terms, s: State, k: int)
    ensures MonthStep(t, s, k).balance
            == AfterExtras(AfterInstallment(MonthStart(t, s, k), k), t.extrasIn(k).GetOr(NO_EXTRAS), k).balance
  {
    hide AfterExtras, AfterInstallment, AtRate, RowOf;
  }

  lemma {:induction false} StepBelow(t: Terms, low: State, high: State, k: int)
    requires KeepTermTerms(t) && Underway(t, low, k - 1) && Underway(t, high, k - 1)
    requires 0.0 < low.balance < high.balance && Ahead(PositionOf(low), PositionOf(high))
    requires MonthStep(t, high, k).balance > 0.0
    ensures MonthStep(t, low, k).balance < MonthStep(t, high, k).balance
  {
    hide MonthStep, AfterInstallment, AfterExtras, AtRate, MonthlyRate, Shortened;
    SameExtrasStart(t, low, high, k);
    StepOwes(t, low, k);
    StepOwes(t, high, k);
    StartPayable(t, low, k);
    StartPayable(t, high, k);
    InstallmentCarries(MonthStart(t, low, k), k);
    InstallmentCarries(MonthStart(t, high, k), k);
    assert ExtrasNotNegativeIn(t, k);
    var due1, due, extra := MonthStart(t, low, k), MonthStart(t, high, k), t.extrasIn(k).GetOr(NO_EXTRAS);
    var paid1, paid := AfterInstallment(due1, k), AfterInstallment(due, k);
    if paid.balance > 0.0 {
      InstallmentBelow(due1, due, k, MonthlyRate(due.plan.rate), paid.balance, paid1.balance);
      ExtrasBelow(paid1, paid, extra, k);
    } else {
      NothingLeft(paid, extra, k);
    }
  }

  lemma {:induction false} NothingLeft(p: Position, extra: MonthExtras, month: int)
    requires p.balance <= 0.0
    ensures AfterExtras(p, extra, month).balance <= 0.0
  {
  }

  /** Owing less in one month, a run ahead owes less in every later month the other still owes in. */
  lemma {:induction false} StaysBelow(t: Terms, low: State, high: State, m: int, k: int)
    requires KeepTermTerms(t) && m <= k && Underway(t, low, m) && Underway(t, high, m)
    requires low.balance < high.balance && (low.balance > 0.0 ==> Ahead(PositionOf(low), PositionOf(high)))
    requires Onward(t, high, m, k).balance > 0.0
    ensures var low1, high1 := Onward(t, low, m, k), Onward(t, high, m, k);
            && low1.balance < high1.balance
            && (low1.balance > 0.0 ==>
                  low1.plan.Some? && high1.plan.Some? && Ahead(PositionOf(low1), PositionOf(high1)))
    decreases k - m
  {
    hide *;
    OnwardUnderway(t, low, m, k);
    OnwardUnderway(t, high, m, k);
    if m == k {
      AtStart(t, low, m);
      AtStart(t, high, m);
    } else {
      StaysBelow(t, low, high, m, k - 1);
      OnwardUnderway(t, low, m, k - 1);
      OnwardUnderway(t, high, m, k - 1);
      if Onward(t, low, m, k).balance > 0.0 {
        StepBelow(t, Onward(t, low, m, k - 1), Onward(t, high, m, k - 1), k);
        SameExtrasAhead(t, Onward(t, low, m, k - 1), Onward(t, high, m, k - 1), k);
      }
    }
  }

  lemma {:induction false} AtStart(t: Terms, s: State, m: int)
    requires Underway(t, s, m)
    ensures Onward(t, s, m, m) == s && s.plan.Some?
  {
  }

  // ---- Near stays near ----

  /** At most `d` less is owed, at no larger installment and with no earlier end. */
  ghost predicate Close(more: Position, less: Position, d: real) {
    && less.balance - d <= more.balance
    && more.plan.installment <= less.plan.installment
    && NoLater(less.plan.endMonth, more.plan.endMonth)
  }

  /** Of two balances spread over as many months, the smaller has the smaller installment. */
  lemma {:induction false} AnnuityGrows(b1: real, b: real, rate: Rate, n: int)
    requires b1 <= b && n >= 1
    ensures AnnuityPayment(b1, rate, Months(n)) <= AnnuityPayment(b, rate, Months(n))
  {
    hide *;
    var f := Factor(MonthlyRate(rate), n);
    FactorPositive(MonthlyRate(rate), n);
    var a1, a := AnnuityPayment(b1, rate, Months(n)), AnnuityPayment(b, rate, Months(n));
    AnnuityRepays(b1, rate, n, f, a1);
    AnnuityRepays(b, rate, n, f, a);
    SmallerFactor(a1, a, f);
  }

  lemma {:induction false} SmallerFactor(a1: real, a: real, f: real)
    requires f > 0.0 && a1 * f <= a * f
    ensures a1 <= a
  {
    assert (a - a1) * f >= 0.0;
  }

  lemma {:induction false} StartClose(t: Terms, s1: State, s: State, k: int, d: real)
    requires KeepTermTerms(t) && Underway(t, s1, k - 1) && Underway(t, s, k - 1) && s1.balance > 0.0
    requires Ahead(PositionOf(s1), PositionOf(s)) && Close(PositionOf(s1), PositionOf(s), d)
    ensures Close(MonthStart(t, s1, k), MonthStart(t, s, k), d)
  {
    hide AnnuityPayment, Owing;
    if s.plan.value.rate != t.rateIn(k) {
      AnnuityGrows(s1.balance, s.balance, t.rateIn(k), s.plan.value.endMonth.n - (k - 1));
    }
  }

  /** The rate's growth carries the distance over the installment. */
  lemma {:induction false} InstallmentClose(more: Position, less: Position, k: int, r: Rate, d: real)
    requires Payable(more, k) && Payable(less, k) && Ahead(more, less) && Close(more, less, d)
    requires r == MonthlyRate(less.plan.rate) && d >= 0.0
    requires d * (1.0 + r) < AfterInstallment(less, k).balance - HALF_CENT
    ensures Close(AfterInstallment(more, k), AfterInstallment(less, k), d * (1.0 + r))
    ensures AfterInstallment(more, k).balance > 0.0
  {
    hide AfterInstallment, MonthlyRate;
    GrowsBy(more.balance, less.balance, r, d);
    var e, i1, i := d * (1.0 + r), more.balance * r, less.balance * r;
    InstallmentLeaves(more, k, i1);
    InstallmentLeaves(less, k, i);
    LeavesClose(more, less, k, d, e, i1, i);
  }

  lemma {:induction false} LeavesClose(more: Position, less: Position, k: int, d: real, e: real, i1: real, i: real)
    requires Payable(more, k) && Payable(less, k) && Ahead(more, less) && Close(more, less, d) && e >= 0.0
    requires less.balance + i - e <= more.balance + i1
    requires var left := more.balance + i1 - more.plan.installment;
             AfterInstallment(more, k)
             == more.(balance := if more.plan.endMonth.Within(k) || left <= HALF_CENT then 0.0 else left)
    requires var left := less.balance + i - less.plan.installment;
             AfterInstallment(less, k)
             == less.(balance := if less.plan.endMonth.Within(k) || left <= HALF_CENT then 0.0 else left)
    requires e < AfterInstallment(less, k).balance - HALF_CENT
    ensures Close(AfterInstallment(more, k), AfterInstallment(less, k), e)
    ensures AfterInstallment(more, k).balance > 0.0
  {
    hide AfterInstallment;
  }

  lemma {:induction false} GrowsBy(x: real, s: real, r: real, d: real)
    requires s - d <= x && r >= 0.0
    ensures s + s * r - d * (1.0 + r) <= x + x * r
    ensures d >= 0.0 ==> d * (1.0 + r) >= 0.0
  {
    assert (x - (s - d)) * (1.0 + r) >= 0.0;
  }

  /** The installment brings the balance down. */
  ghost predicate Covers(p: Position) {
    p.balance > HALF_CENT && p.plan.installment > p.balance * MonthlyRate(p.plan.rate)
  }

  /** Owing `d` less, the balance still takes as many installments: before the last, more than half a cent is left. */
  ghost predicate KeepsCount(p: Position, d: real)
    requires Covers(p)
  {
    var r := MonthlyRate(p.plan.rate);
    var n := InstallmentCount(p.balance, r, p.plan.installment);
    n >= 1 && d * Pow(1.0 + r, n - 1) < Owing(p.balance, r, p.plan.installment, n - 1) - HALF_CENT
  }

  lemma {:induction false} OnCourseCovers(p: Position, month: int)
    requires p.balance > HALF_CENT && OnCourse(p.balance, p.plan, month)
    ensures Covers(p)
  {
    var r := MonthlyRate(p.plan.rate);
    if p.plan.installment <= p.balance * r {
      StuckOwes(p.balance, r, p.plan.installment, p.plan.endMonth.n - month);
    }
  }

  /** An installment that covers the interest never lets the balance grow. */
  lemma {:induction false} OwingFalls(balance: real, r: Rate, installment: real, i: nat, j: nat)
    requires installment >= balance * r && i <= j
    ensures Owing(balance, r, installment, j) <= Owing(balance, r, installment, i)
    ensures Owing(balance, r, installment, j) <= balance
    decreases j
  {
    if j == 0 {
      assert Owing(balance, r, installment, j) == balance;
    } else {
      OwingFalls(balance, r, installment, if i < j then i else j - 1, j - 1);
      OwingStep(balance, r, installment, j);
      var before := Owing(balance, r, installment, j - 1);
      hide Owing;
      ScaleUp(before, balance, r);
      assert before * (1.0 + r) == before + before * r;
    }
    hide Owing;
  }

  lemma {:induction false} OwingNear(x: real, ax: real, s: real, a: real, r: Rate, d: real, n: nat)
    requires s - d <= x && ax <= a
    ensures Owing(x, r, ax, n) >= Owing(s, r, a, n) - d * Pow(1.0 + r, n)
  {
    OwingClosed(x, r, ax, n);
    OwingClosed(s, r, a, n);
    PowAtLeastOne(1.0 + r, n);
    GeometricNonNegative(1.0 + r, n);
    NearClosed(x, ax, s, a, d, Pow(1.0 + r, n), Geometric(1.0 + r, n));
    hide *;
  }

  lemma {:induction false} NearClosed(x: real, ax: real, s: real, a: real, d: real, p: real, g: real)
    requires s - d <= x && ax <= a && p >= 0.0 && g >= 0.0
    ensures x * p - ax * g >= s * p - a * g - d * p
  {
    assert (x - (s - d)) * p >= 0.0;
    assert (a - ax) * g >= 0.0;
  }

  /** A balance near enough takes no fewer installments. */
  lemma {:induction false} CountNoLess(more: Position, less: Position, d: real)
    requires Covers(less) && KeepsCount(less, d) && more.plan.rate == less.plan.rate
    requires less.balance - d <= more.balance && more.plan.installment <= less.plan.installment
    ensures NoLater(InstallmentsToRepay(less.balance, less.plan.rate, less.plan.installment),
                    InstallmentsToRepay(more.balance, more.plan.rate, more.plan.installment))
  {
    hide Owing, Pow, MonthlyRate;
    var x, ax, r := more.balance, more.plan.installment, MonthlyRate(less.plan.rate);
    var n := InstallmentCount(less.balance, r, less.plan.installment);
    OwingNear(x, ax, less.balance, less.plan.installment, r, d, n - 1);
    if x > HALF_CENT && ax > x * r {
      var n1 := InstallmentCount(x, r, ax);
      if n1 <= n - 1 {
        OwingFalls(x, r, ax, n1, n - 1);
        assert false;
      }
    }
  }

  lemma {:induction false} ShortenClose(more: Position, less: Position, amount: real, month: int, d: real)
    requires Ahead(more, less) && Close(more, less, d) && more.balance > 0.0 && amount >= 0.0 && d >= 0.0
    requires var next := AfterExtra(less, amount, Shorten, month);
             d < next.balance - HALF_CENT && Covers(next) && KeepsCount(next, d)
    ensures Close(AfterExtra(more, amount, Shorten, month), AfterExtra(less, amount, Shorten, month), d)
    ensures AfterExtra(more, amount, Shorten, month).balance > 0.0
  {
    var next1, next := AfterExtra(more, amount, Shorten, month), AfterExtra(less, amount, Shorten, month);
    hide InstallmentsToRepay, Covers, KeepsCount;
    assert next.plan.installment == less.plan.installment && next.plan.rate == less.plan.rate;
    if amount > 0.0 {
      assert next.balance == less.balance - amount && next1.balance == more.balance - amount;
      CountNoLess(next1, next, d);
    }
  }

  lemma {:induction false} LowerClose(more: Position, less: Position, amount: real, month: int, d: real)
    requires Ahead(more, less) && Close(more, less, d) && more.balance > 0.0 && amount >= 0.0 && d >= 0.0
    requires less.plan.endMonth.Months? && less.plan.endMonth.n > month
    requires d < AfterExtra(less, amount, Lower, month).balance - HALF_CENT
    ensures Close(AfterExtra(more, amount, Lower, month), AfterExtra(less, amount, Lower, month), d)
    ensures AfterExtra(more, amount, Lower, month).balance > 0.0
  {
    var next1, next := AfterExtra(more, amount, Lower, month), AfterExtra(less, amount, Lower, month);
    hide AnnuityPayment;
    if amount > 0.0 {
      assert next.balance == less.balance - amount && next1.balance == more.balance - amount;
      AnnuityGrows(next1.balance, next.balance, less.plan.rate, less.plan.endMonth.n - month);
    }
  }

  // ---- How near is near enough ----

  /** Starting a month this near to `s`, a run ends it within `d` of it. */
  ghost predicate NearEnough(t: Terms, s: State, k: int, d: real, near: real) {
    var e := near * (1.0 + MonthlyRate(t.rateIn(k)));
    && near > 0.0 && e >= 0.0 && e <= d && e < MonthStep(t, s, k).balance - HALF_CENT
    && (Covers(Shortened(t, s, k)) ==> KeepsCount(Shortened(t, s, k), e))
  }

  lemma {:induction false} SmallFor(q: real, d: real, g1: real, w: real, g2: real) returns (near: real)
    requires q >= 1.0 && d > 0.0 && g1 > 0.0 && w >= 1.0 && g2 > 0.0
    ensures near > 0.0 && near * q >= 0.0 && near * q <= d && near * q < g1 && near * q * w < g2
  {
    var e1 := if d < g1 / 2.0 then d else g1 / 2.0;
    var h := g2 / (2.0 * w);
    assert h * (2.0 * w) == g2;
    PositiveQuotient(g2, 2.0 * w);
    var e := if e1 < h then e1 else h;
    ScaleUp(e, h, w);
    near := e / q;
    assert near * q == e;
    PositiveQuotient(e, q);
  }

  lemma {:induction false} NearEnoughExists(t: Terms, s: State, k: int, d: real) returns (near: real)
    requires d > 0.0 && MonthStep(t, s, k).balance > HALF_CENT
    ensures NearEnough(t, s, k, d, near)
  {
    hide MonthStep, Shortened, Covers, Owing, Pow, InstallmentCount, MonthlyRate;
    var p, q := Shortened(t, s, k), 1.0 + MonthlyRate(t.rateIn(k));
    var left := MonthStep(t, s, k).balance - HALF_CENT;
    if Covers(p) {
      var w, g := CountMargin(p);
      near := SmallFor(q, d, left, w, g);
      MarginKeeps(p, w, g, near * q);
    } else {
      near := SmallFor(q, d, left, 1.0, 1.0);
    }
    hide *;
    IsNearEnough(t, s, k, d, near, near * q);
  }

  lemma {:induction false} IsNearEnough(t: Terms, s: State, k: int, d: real, near: real, e: real)
    requires e == near * (1.0 + MonthlyRate(t.rateIn(k)))
    requires near > 0.0 && 0.0 <= e <= d && e < MonthStep(t, s, k).balance - HALF_CENT
    requires Covers(Shortened(t, s, k)) ==> KeepsCount(Shortened(t, s, k), e)
    ensures NearEnough(t, s, k, d, near)
  {
    hide MonthStep, Shortened, Covers, KeepsCount, MonthlyRate;
  }

  /** How a distance grows before the last installment, and what must be left then. */
  ghost predicate IsMargin(p: Position, w: real, g: real)
    requires Covers(p)
  {
    var r := MonthlyRate(p.plan.rate);
    var n := InstallmentCount(p.balance, r, p.plan.installment);
    n >= 1 && w == Pow(1.0 + r, n - 1) && g == Owing(p.balance, r, p.plan.installment, n - 1) - HALF_CENT
  }

  lemma {:induction false} CountMargin(p: Position) returns (w: real, g: real)
    requires Covers(p)
    ensures IsMargin(p, w, g) && w >= 1.0 && g > 0.0
  {
    CountAtLeastOne(p);
    var r := MonthlyRate(p.plan.rate);
    var n := InstallmentCount(p.balance, r, p.plan.installment);
    hide Owing, Pow, MonthlyRate;
    PowAtLeastOne(1.0 + r, n - 1);
    w, g := Pow(1.0 + r, n - 1), Owing(p.balance, r, p.plan.installment, n - 1) - HALF_CENT;
  }

  lemma {:induction false} MarginKeeps(p: Position, w: real, g: real, d: real)
    requires Covers(p) && IsMargin(p, w, g) && d * w < g
    ensures KeepsCount(p, d)
  {
    hide Owing, Pow, MonthlyRate, InstallmentCount;
  }

  lemma {:induction false} CountAtLeastOne(p: Position)
    requires Covers(p)
    ensures var r := MonthlyRate(p.plan.rate);
            var n := InstallmentCount(p.balance, r, p.plan.installment);
            n >= 1 && Owing(p.balance, r, p.plan.installment, n - 1) > HALF_CENT
  {
    var r := MonthlyRate(p.plan.rate);
    assert Owing(p.balance, r, p.plan.installment, 0) == p.balance;
  }

  lemma {:induction false} ShortenedCovers(t: Terms, s: State, k: int)
    requires KeepTermTerms(t) && Underway(t, s, k - 1) && MonthStep(t, s, k).balance > 0.0 && s.balance > 0.0
    ensures var p := Shortened(t, s, k);
            && p.balance >= MonthStep(t, s, k).balance
            && Covers(p) && p.plan.endMonth.Months? && p.plan.endMonth.n > k
    ensures AfterInstallment(MonthStart(t, s, k), k).balance >= Shortened(t, s, k).balance
  {
    hide AtRate, AfterInstallment, AfterExtra, OnCourse, MonthStep, Covers;
    assert ExtrasNotNegativeIn(t, k);
    StartPayable(t, s, k);
    StartOnCourse(t, s, k);
    StepIsLowered(t, s, k);
    var due, x := MonthStart(t, s, k), t.extrasIn(k).GetOr(NO_EXTRAS);
    var paid := AfterInstallment(due, k);
    InstallmentCarries(due, k);
    InstallmentOnCourse(due, k);
    InstallmentKeepsPlan(due, k);
    ExtraOwesNoMore(paid, x.shorten, Shorten, k);
    ExtraOnCourse(paid, x.shorten, Shorten, k);
    ExtraCarries(paid, x.shorten, Shorten, k);
    var p := Shortened(t, s, k);
    ExtraOwesNoMore(p, x.lower, Lower, k);
    OnCourseCovers(p, k);
    OnCourseEnds(p, k);
  }

  lemma {:induction false} OnCourseEnds(p: Position, month: int)
    requires p.balance > 0.0 ==> OnCourse(p.balance, p.plan, month)
    ensures p.balance > 0.0 ==> p.plan.endMonth.Months?
  {
  }

  /** A month started near enough ends near. */
  lemma {:induction false} StepClose(t: Terms, s1: State, s: State, k: int, d: real, near: real)
    requires KeepTermTerms(t) && Underway(t, s1, k - 1) && Underway(t, s, k - 1)
    requires s1.balance > 0.0 && s.balance > 0.0 && Ahead(PositionOf(s1), PositionOf(s))
    requires MonthStep(t, s, k).balance > 0.0 && NearEnough(t, s, k, d, near)
    requires Close(PositionOf(s1), PositionOf(s), near)
    ensures var n1, n := MonthStep(t, s1, k), MonthStep(t, s, k);
            n1.balance > 0.0 && n1.plan.Some? && n.plan.Some? && Close(PositionOf(n1), PositionOf(n), d)
  {
    hide *;
    ExtrasGiven(t, k);
    SameExtrasStart(t, s1, s, k);
    ShortenedCovers(t, s, k);
    UnderwayPays(t, s1, k);
    UnderwayPays(t, s, k);
    StartClose(t, s1, s, k, near);
    StepIsLowered(t, s1, k);
    StepIsLowered(t, s, k);
    var due1, due, x := MonthStart(t, s1, k), MonthStart(t, s, k), t.extrasIn(k).GetOr(NO_EXTRAS);
    var r := MonthlyRate(t.rateIn(k));
    var e := near * (1.0 + r);
    NearEnoughMeans(t, s, k, d, near, e);
    InstallmentClose(due1, due, k, r, near);
    InstallmentKeepsAhead(due1, due, k);
    ShortenedIs(t, s1, k);
    ShortenedIs(t, s, k);
    ShortenClose(AfterInstallment(due1, k), AfterInstallment(due, k), x.shorten, k, e);
    ShortenedEnd(t, s, k);
    ShortenedEnd(t, s1, k);
    LowerClose(Shortened(t, s1, k), Shortened(t, s, k), x.lower, k, e);
    CloserToo(PositionOf(MonthStep(t, s1, k)), PositionOf(MonthStep(t, s, k)), e, d);
  }

  lemma {:induction false} ExtrasGiven(t: Terms, k: int)
    requires KeepTermTerms(t)
    ensures t.extrasIn(k).GetOr(NO_EXTRAS).shorten >= 0.0 && t.extrasIn(k).GetOr(NO_EXTRAS).lower >= 0.0
  {
    assert ExtrasNotNegativeIn(t, k);
  }

  lemma {:induction false} UnderwayPays(t: Terms, s: State, k: int)
    requires KeepTermTerms(t) && Underway(t, s, k - 1) && s.balance > 0.0
    ensures Payable(MonthStart(t, s, k), k) && MonthStart(t, s, k).plan.rate == t.rateIn(k)
  {
    hide AtRate, OnCourse;
    StartPayable(t, s, k);
  }

  lemma {:induction false} NearEnoughMeans(t: Terms, s: State, k: int, d: real, near: real, e: real)
    requires NearEnough(t, s, k, d, near) && e == near * (1.0 + MonthlyRate(t.rateIn(k)))
    ensures near > 0.0 && 0.0 <= e <= d && e < MonthStep(t, s, k).balance - HALF_CENT
    ensures Covers(Shortened(t, s, k)) ==> KeepsCount(Shortened(t, s, k), e)
  {
    hide MonthStep, Shortened, Covers, KeepsCount, MonthlyRate;
  }

  lemma {:induction false} ShortenedIs(t: Terms, s: State, k: int)
    ensures Shortened(t, s, k)
            == AfterExtra(AfterInstallment(MonthStart(t, s, k), k), t.extrasIn(k).GetOr(NO_EXTRAS).shorten, Shorten, k)
  {
    hide AfterExtra, AfterInstallment, AtRate;
  }

  lemma {:induction false} ShortenedEnd(t: Terms, s: State, k: int)
    ensures MonthStep(t, s, k).plan.Some?
    ensures MonthStep(t, s, k).balance
            == AfterExtra(Shortened(t, s, k), t.extrasIn(k).GetOr(NO_EXTRAS).lower, Lower, k).balance
  {
    StepIsLowered(t, s, k);
    hide MonthStep, AfterExtra, Shortened;
  }

  lemma {:induction false} CloserToo(more: Position, less: Position, e: real, d: real)
    requires Close(more, less, e) && e <= d
    ensures Close(more, less, d)
  {
  }

  ghost function StepTolerance(t: Terms, s: State, k: int, d: real): (near: real)
    ensures d > 0.0 && MonthStep(t, s, k).balance > HALF_CENT ==> NearEnough(t, s, k, d, near)
  {
    if d > 0.0 && MonthStep(t, s, k).balance > HALF_CENT then
      SomeNearEnough(t, s, k, d);
      var near :| NearEnough(t, s, k, d, near);
      near
    else d
  }

  lemma {:induction false} SomeNearEnough(t: Terms, s: State, k: int, d: real)
    requires d > 0.0 && MonthStep(t, s, k).balance > HALF_CENT
    ensures exists near :: NearEnough(t, s, k, d, near)
  {
    hide NearEnough, MonthStep;
    var near := NearEnoughExists(t, s, k, d);
  }

  /** How near to `s` after month m a run must be to be within `d` of it after month k. */
  ghost function Tolerance(t: Terms, s: State, m: int, k: int, d: real): real
    requires m <= k
    decreases k - m
  {
    if k == m then d else Tolerance(t, s, m, k - 1, StepTolerance(t, Onward(t, s, m, k - 1), k, d))
  }

  lemma {:induction false} TolerancePositive(t: Terms, s: State, m: int, k: int, d: real)
    requires KeepTermTerms(t) && m <= k && Underway(t, s, m) && Onward(t, s, m, k).balance > 0.0 && d > 0.0
    ensures Tolerance(t, s, m, k, d) > 0.0
    decreases k - m
  {
    hide MonthStep, NearEnough, Underway, Onward, StepTolerance, KeepTermTerms;
    if m < k {
      LastTolerance(t, s, m, k, d);
      TolerancePositive(t, s, m, k - 1, StepTolerance(t, Onward(t, s, m, k - 1), k, d));
    }
  }

  lemma {:induction false} LastTolerance(t: Terms, s: State, m: int, k: int, d: real)
    requires KeepTermTerms(t) && m < k && Underway(t, s, m) && Onward(t, s, m, k).balance > 0.0 && d > 0.0
    ensures var last := StepTolerance(t, Onward(t, s, m, k - 1), k, d);
            last > 0.0 && NearEnough(t, Onward(t, s, m, k - 1), k, d, last)
    ensures Onward(t, s, m, k - 1).balance > 0.0
  {
    hide *;
    OnwardUnderway(t, s, m, k);
    OwesOverHalf(t, Onward(t, s, m, k), k);
    NearIsPositive(t, Onward(t, s, m, k - 1), k, d, StepTolerance(t, Onward(t, s, m, k - 1), k, d));
  }

  lemma {:induction false} OwesOverHalf(t: Terms, s: State, k: int)
    requires Underway(t, s, k) && s.balance > 0.0
    ensures s.balance > HALF_CENT
  {
  }

  lemma {:induction false} NearIsPositive(t: Terms, s: State, k: int, d: real, near: real)
    requires NearEnough(t, s, k, d, near)
    ensures near > 0.0
  {
  }

  /** A run that starts near enough is near at the end, and ahead all along. */
  lemma {:induction false} StaysClose(t: Terms, s1: State, s: State, m: int, k: int, d: real)
    requires KeepTermTerms(t) && m <= k && Underway(t, s1, m) && Underway(t, s, m) && d > 0.0
    requires s1.balance > 0.0 && Ahead(PositionOf(s1), PositionOf(s))
    requires Onward(t, s, m, k).balance > 0.0 && Close(PositionOf(s1), PositionOf(s), Tolerance(t, s, m, k, d))
    ensures var n1, n := Onward(t, s1, m, k), Onward(t, s, m, k);
            && n1.balance > 0.0 && n1.plan.Some? && n.plan.Some?
            && Ahead(PositionOf(n1), PositionOf(n)) && Close(PositionOf(n1), PositionOf(n), d)
    ensures Tolerance(t, s, m, k, d) > 0.0
    decreases k - m
  {
    hide *;
    TolerancePositive(t, s, m, k, d);
    ToleranceBack(t, s, m, k, d);
    if k == m {
      AtStart(t, s1, m);
      AtStart(t, s, m);
    } else {
      var last := StepTolerance(t, Onward(t, s, m, k - 1), k, d);
      LastTolerance(t, s, m, k, d);
      StaysClose(t, s1, s, m, k - 1, last);
      NextClose(t, s1, s, m, k, d, last);
    }
  }

  lemma {:induction false} NextClose(t: Terms, s1: State, s: State, m: int, k: int, d: real, near: real)
    requires KeepTermTerms(t) && m < k && Underway(t, s1, m) && Underway(t, s, m)
    requires Onward(t, s, m, k).balance > 0.0 && NearEnough(t, Onward(t, s, m, k - 1), k, d, near)
    requires var n1, n := Onward(t, s1, m, k - 1), Onward(t, s, m, k - 1);
             && n1.balance > 0.0 && n1.plan.Some? && n.plan.Some?
             && Ahead(PositionOf(n1), PositionOf(n)) && Close(PositionOf(n1), PositionOf(n), near)
    ensures var n1, n := Onward(t, s1, m, k), Onward(t, s, m, k);
            && n1.balance > 0.0 && n1.plan.Some? && n.plan.Some?
            && Ahead(PositionOf(n1), PositionOf(n)) && Close(PositionOf(n1), PositionOf(n), d)
  {
    hide *;
    OnwardUnderway(t, s, m, k);
    OnwardUnderway(t, s, m, k - 1);
    OnwardUnderway(t, s1, m, k - 1);
    StepClose(t, Onward(t, s1, m, k - 1), Onward(t, s, m, k - 1), k, d, near);
    SameExtrasAhead(t, Onward(t, s1, m, k - 1), Onward(t, s, m, k - 1), k);
    OnwardGoesOn(t, s1, m, k);
  }

  lemma {:induction false} ToleranceBack(t: Terms, s: State, m: int, k: int, d: real)
    requires m <= k
    ensures Tolerance(t, s, m, k, d)
            == if k == m then d else Tolerance(t, s, m, k - 1, StepTolerance(t, Onward(t, s, m, k - 1), k, d))
  {
  }

  lemma {:induction false} OnwardGoesOn(t: Terms, s: State, m: int, k: int)
    requires KeepTermTerms(t) && m < k && Underway(t, s, m) && Onward(t, s, m, k - 1).balance > 0.0
    ensures Onward(t, s, m, k) == MonthStep(t, Onward(t, s, m, k - 1), k)
  {
    hide MonthStep, OnCourse;
    OnwardUnderway(t, s, m, k - 1);
    UnderwayStep(t, Onward(t, s, m, k - 1), k);
  }

  /** A run ahead at the start owes no more in any later month. */
  lemma {:induction false} StaysNoMore(t: Terms, low: State, high: State, m: int, k: int)
    requires KeepTermTerms(t) && m <= k && Underway(t, low, m) && Underway(t, high, m)
    requires low.balance <= high.balance && (low.balance > 0.0 ==> Ahead(PositionOf(low), PositionOf(high)))
    ensures var low1, high1 := Onward(t, low, m, k), Onward(t, high, m, k);
            && low1.balance <= high1.balance
            && (low1.balance > 0.0 ==>
                  low1.plan.Some? && high1.plan.Some? && Ahead(PositionOf(low1), PositionOf(high1)))
    decreases k - m
  {
    hide *;
    OnwardUnderway(t, low, m, k);
    OnwardUnderway(t, high, m, k);
    if m == k {
      AtStart(t, low, m);
      AtStart(t, high, m);
    } else if Onward(t, low, m, k).balance > 0.0 {
      StaysNoMore(t, low, high, m, k - 1);
      OnwardUnderway(t, low, m, k - 1);
      OnwardUnderway(t, high, m, k - 1);
      SameExtrasAhead(t, Onward(t, low, m, k - 1), Onward(t, high, m, k - 1), k);
      OnwardGoesOn(t, high, m, k);
      AheadOwes(Onward(t, low, m, k), Onward(t, high, m, k));
    }
  }

  lemma {:induction false} AheadOwes(low: State, high: State)
    requires low.plan.Some? && high.plan.Some? && Ahead(PositionOf(low), PositionOf(high))
    ensures low.balance <= high.balance
  {
  }

  // ---- Runs from a middle month ----

  lemma {:induction false} OnwardOn(t: Terms, s: State, m: int, j: int, k: int)
    requires m <= j <= k
    ensures Onward(t, Onward(t, s, m, j), j, k) == Onward(t, s, m, k)
    decreases k - j
  {
    hide MonthStep;
    if j < k {
      OnwardOn(t, s, m, j, k - 1);
    }
  }

  /** A loan's own run, carried on from month m at terms that agree with its own after it. */
  lemma {:induction false} OnwardIsRun(t: Terms, own: Terms, m: nat, k: nat)
    requires m <= k && t.term == own.term && t.keepInstallment == own.keepInstallment && t.start == own.start
    requires forall i: int :: t.rateIn(i) == own.rateIn(i)
    requires forall i: int :: m < i ==> t.extrasIn(i) == own.extrasIn(i)
    ensures Onward(t, Run(own, m), m, k) == Run(own, k)
    decreases k
  {
    hide MonthStep;
    if m < k {
      OnwardIsRun(t, own, m, k - 1);
      assert t.rateIn(k) == own.rateIn(k) && t.extrasIn(k) == own.extrasIn(k);
      LoanExtras.SameStep(t, own, Run(own, k - 1), k);
      RunStep(own, k);
    }
  }

  lemma {:induction false} RunUnderway(t: Terms, k: nat)
    requires SoundTerms(t) && !t.keepInstallment && 1 <= k <= MAX_TERM_MONTHS
    ensures Underway(t, Run(t, k), k) && Run(t, k).plan.Some?
  {
    hide Run, OnCourse;
    RunCarries(t, k);
    RunKeepsTerm(t, k);
  }
}
