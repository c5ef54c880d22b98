/** A repeating extra payment is the same as its payments listed one by one (shared/loanSchedule.ts). */
module LoanExtras {
  import opened Basics
  import opened LoanSchedule

  // ---- Runs that read the same months ----

  /** The two agree on everything the first k months read. */
  ghost predicate Agree(a: Terms, b: Terms, k: int) {
    && a.principal == b.principal && a.term == b.term && a.keepInstallment == b.keepInstallment
    && a.start == b.start
    && forall m: int :: 1 <= m <= k ==> a.rateIn(m) == b.rateIn(m) && a.extrasIn(m) == b.extrasIn(m)
  }

  lemma {:induction false} SameRun(a: Terms, b: Terms, k: nat)
    requires Agree(a, b, k)
    ensures Run(a, k) == Run(b, k)
  {
    if k == 0 {
    } else {
      SameRun(a, b, k - 1);
      SameStep(a, b, Run(a, k - 1), k);
      hide MonthStep;
    }
  }

  lemma {:induction false} SameStep(a: Terms, b: Terms, s: State, month: int)
    requires a.term == b.term && a.keepInstallment == b.keepInstallment && a.start == b.start
    requires a.rateIn(month) == b.rateIn(month) && a.extrasIn(month) == b.extrasIn(month)
    ensures MonthStep(a, s, month) == MonthStep(b, s, month)
  {
    hide AtRate, AfterInstallment, AfterExtras, RowOf;
  }

  // ---- Rules told as payments ----

  /** The rule's payments from `month` on, every `every` months, as far as the engine amortises. */
  function PaymentsFrom(rule: Rule, month: int): seq<LoanPrepayment>
    requires rule.every >= 1
    decreases MAX_TERM_MONTHS - month
  {
    if month > MAX_TERM_MONTHS || (rule.to.Some? && month > rule.to.value) then []
    else
      [LoanPrepayment(Finite(month as real), Finite(rule.amount), rule.note, rule.mode)]
      + PaymentsFrom(rule, month + rule.every)
  }

  function Listed(rules: seq<Rule>): seq<LoanPrepayment>
    requires WellFormedRules(rules)
  {
    if rules == [] then []
    else
      var last := rules[|rules| - 1];
      Listed(rules[..|rules| - 1]) + PaymentsFrom(last, last.from)
  }

  /** The loan with its repeating extra payments listed after its dated ones, rule by rule. */
  function WithRulesListed(loan: LoanInput): LoanInput {
    loan.(prepayments := loan.prepayments + Listed(UsableRules(loan.extraRules)), extraRules := [])
  }

  /** Two months of one rule are at least a step apart. */
  lemma {:induction false} NextDue(from: int, every: int, start: int, month: int)
    requires every >= 1 && (start - from) % every == 0 && start < month
    ensures (month - from) % every == 0 ==> start + every <= month
    ensures (start + every - from) % every == 0
  {
    var a, b := (start - from) / every, (month - from) / every;
    assert start - from == a * every;
    MultipleOf(a + 1, every);
    assert start + every - from == (a + 1) * every;
    if (month - from) % every == 0 {
      assert month - from == b * every;
      assert (b - a) * every == month - start;
      AtLeastOne(b - a, every);
    }
  }

  lemma {:induction false} MultipleOf(n: int, every: int)
    requires every >= 1
    ensures (n * every) % every == 0
  {
    var q, rest := (n * every) / every, (n * every) % every;
    assert n * every == q * every + rest;
    NoMultipleBetween(n - q, every, rest);
  }

  lemma {:induction false} NoMultipleBetween(n: int, every: int, rest: int)
    requires 0 <= rest < every && n * every == rest
    ensures rest == 0
  {
    assert (n - 1) * every == rest - every;
    assert n - 1 < 0;
  }

  lemma {:induction false} AtLeastOne(n: int, every: int)
    requires every >= 1 && n * every > 0
    ensures n * every >= every
  {
    assert n >= 1;
  }

  lemma {:induction false} OneMoreListed(list: seq<LoanPrepayment>, p: LoanPrepayment, month: int)
    ensures DatedIn(list + [p], month)
            == if UsablePrepayment(p) && p.month.value == month as real
               then Some(DatedIn(list, month).GetOr(NO_EXTRAS).Add(p.mode, p.amount.value, p.note))
               else DatedIn(list, month)
  {
    assert (list + [p])[..|list|] == list;
  }

  lemma {:induction false} PaymentsListed(list: seq<LoanPrepayment>, rule: Rule, start: int, month: int)
    requires rule.every >= 1 && rule.amount > 0.0 && 1 <= rule.from <= start && (start - rule.from) % rule.every == 0
    requires 1 <= month <= MAX_TERM_MONTHS
    ensures DatedIn(list + PaymentsFrom(rule, start), month)
            == if start <= month && rule.Due(month)
               then Some(DatedIn(list, month).GetOr(NO_EXTRAS).Add(rule.mode, rule.amount, rule.note))
               else DatedIn(list, month)
    decreases MAX_TERM_MONTHS - start
  {
    hide DatedIn;
    if start > MAX_TERM_MONTHS || (rule.to.Some? && start > rule.to.value) {
      assert list + PaymentsFrom(rule, start) == list;
    } else {
      var p := LoanPrepayment(Finite(start as real), Finite(rule.amount), rule.note, rule.mode);
      var rest := PaymentsFrom(rule, start + rule.every);
      assert list + PaymentsFrom(rule, start) == (list + [p]) + rest;
      NextDue(rule.from, rule.every, start, start + rule.every);
      if start < month {
        NextDue(rule.from, rule.every, start, month);
      }
      PaymentsListed(list + [p], rule, start + rule.every, month);
      OneMoreListed(list, p, month);
      assert p.month.WholeMonth();
    }
  }

  lemma {:induction false} OneMoreRule(own: Option<MonthExtras>, rules: seq<Rule>, month: int)
    requires WellFormedRules(rules) && rules != []
    ensures var last, rest := rules[|rules| - 1], DueIn(own, rules[..|rules| - 1], month);
            DueIn(own, rules, month)
            == if last.Due(month) then Some(rest.GetOr(NO_EXTRAS).Add(last.mode, last.amount, last.note)) else rest
  {
  }

  lemma {:induction false} OneMoreListing(list: seq<LoanPrepayment>, rules: seq<Rule>)
    requires WellFormedRules(rules) && rules != []
    ensures var front, last := rules[..|rules| - 1], rules[|rules| - 1];
            list + Listed(rules) == (list + Listed(front)) + PaymentsFrom(last, last.from)
  {
    hide PaymentsFrom;
  }

  /** Rules as the engine keeps them: each step a month or more, each amount positive. */
  ghost predicate Payable(rules: seq<Rule>) {
    forall i :: 0 <= i < |rules| ==> rules[i].every >= 1 && rules[i].from >= 1 && rules[i].amount > 0.0
  }

  lemma {:induction false} LastPayable(rules: seq<Rule>)
    requires Payable(rules)
    ensures WellFormedRules(rules)
    ensures rules != [] ==>
              && Payable(rules[..|rules| - 1]) && WellFormedRules(rules[..|rules| - 1])
              && var last := rules[|rules| - 1];
                 last.every >= 1 && last.from >= 1 && last.amount > 0.0 && (last.from - last.from) % last.every == 0
  {
  }

  lemma {:induction false} DueFrom(rule: Rule, month: int)
    requires rule.every >= 1 && rule.Due(month)
    ensures rule.from <= month
  {
  }

  lemma {:induction false} NoRulesListed(list: seq<LoanPrepayment>, own: Option<MonthExtras>, month: int)
    ensures list + Listed([]) == list && DueIn(own, [], month) == own
  {
  }

  lemma {:induction false} RulesListed(list: seq<LoanPrepayment>, rules: seq<Rule>, month: int)
    requires Payable(rules) && WellFormedRules(rules)
    requires 1 <= month <= MAX_TERM_MONTHS
    ensures DatedIn(list + Listed(rules), month) == DueIn(DatedIn(list, month), rules, month)
  {
    hide *;
    LastPayable(rules);
    if rules == [] {
      NoRulesListed(list, DatedIn(list, month), month);
    } else {
      var front, last := rules[..|rules| - 1], rules[|rules| - 1];
      RulesListed(list, front, month);
      PaymentsListed(list + Listed(front), last, last.from, month);
      OneMoreListing(list, rules);
      OneMoreRule(DatedIn(list, month), rules, month);
      if last.Due(month) {
        DueFrom(last, month);
      }
    }
  }

  /**
   * A loan with repeating extra payments has exactly the schedule, and the verdict, of the loan
   * with each of their payments listed as an extra payment of its own.
   */
  lemma {:induction false} RulesAreTheirPayments(loan: LoanInput)
    requires RatesUsable(loan)
    ensures RatesUsable(WithRulesListed(loan))
    ensures Amortization(WithRulesListed(loan)) == Amortization(loan)
  {
    var listed := WithRulesListed(loan);
    RatesReadAlone(loan, listed);
    if Usable(loan) {
      hide RateAt, RatesUsable, Listed, DueIn, DatedIn, UsableRules;
      forall m: int | 1 <= m <= MAX_TERM_MONTHS
        ensures ExtrasAt(listed, m) == ExtrasAt(loan, m)
      {
        ListedExtrasAt(loan, m);
      }
      assert Agree(TermsOf(listed), TermsOf(loan), MAX_TERM_MONTHS);
      SameRun(TermsOf(listed), TermsOf(loan), MAX_TERM_MONTHS);
    }
  }

  lemma {:induction false} ListedExtrasAt(loan: LoanInput, month: int)
    requires 1 <= month <= MAX_TERM_MONTHS
    ensures ExtrasAt(WithRulesListed(loan), month) == ExtrasAt(loan, month)
  {
    hide DatedIn, Listed, UsableRules, DueIn;
    RulesListed(loan.prepayments, UsableRules(loan.extraRules), month);
    NoRules(DatedIn(WithRulesListed(loan).prepayments, month), month);
  }
}
