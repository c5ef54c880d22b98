/** What the active recurring rules add in the next 30 days (shared/recurringUpcoming.ts). Amounts are whole cents. */
module RecurringUpcoming {
  import opened Basics
  import opened Sorting
  import opened CalendarMonths

  const UPCOMING_DAYS := 30

  datatype Rule = Rule(id: int, amount: int, frequency: Frequency, dayOfMonth: Option<int>,
                       nextDate: Option<Date>, category: Option<string>)

  datatype Item = Item(rule: Rule, date: Date)

  datatype Category = Category(name: string, total: int, items: seq<Item>)

  datatype Answer = Answer(transactions: seq<Item>, byCategory: seq<Category>, total: int)

  function CategoryOf(item: Item): string {
    if item.rule.category.Some? && item.rule.category.value != "" then item.rule.category.value else "Uncategorized"
  }

  function StartOf(rule: Rule, today: Date): Date {
    if rule.nextDate.Some? then rule.nextDate.value else today
  }

  /** The rule's own dates: its next date, and each one stepped from the one before. */
  ghost function Occurrence(rule: Rule, start: Date, i: nat): Date {
    if i == 0 then start else NextOccurrence(Occurrence(rule, start, i - 1), rule.frequency, rule.dayOfMonth)
  }

  lemma {:induction false} OccurrencesGrow(rule: Rule, start: Date, i: nat, j: nat)
    requires i < j
    ensures DayNumber(Occurrence(rule, start, i)) < DayNumber(Occurrence(rule, start, j))
    decreases j
  {
    hide DayNumber, NextOccurrence;
    NextOccurrenceLater(Occurrence(rule, start, j - 1), rule.frequency, rule.dayOfMonth);
    if i < j - 1 {
      OccurrencesGrow(rule, start, i, j - 1);
    }
  }

  /** One of the rule's first k dates. */
  ghost predicate AmongFirst(rule: Rule, start: Date, k: nat, d: Date) {
    exists j: nat :: j < k && Occurrence(rule, start, j) == d
  }

  /** One of the rule's dates. */
  ghost predicate OwnDate(rule: Rule, start: Date, d: Date) {
    exists j: nat :: Occurrence(rule, start, j) == d
  }

  /** Once on today for a date due today or missed, and after today the rule's own dates up to `end`. */
  ghost predicate Upcoming(rule: Rule, today: Date, end: Date, d: Date) {
    var start := if rule.nextDate.Some? then rule.nextDate.value else today;
    || (d == today && NotAfter(start, today))
    || (Before(today, d) && NotAfter(d, end) && OwnDate(rule, start, d))
  }

  ghost predicate UpcomingSoFar(rule: Rule, today: Date, end: Date, k: nat, d: Date) {
    var start := StartOf(rule, today);
    || (d == today && NotAfter(start, today))
    || (Before(today, d) && NotAfter(d, end) && AmongFirst(rule, start, k, d))
  }

  /** Exactly the upcoming dates, each once, in order. */
  ghost predicate ListsDates(dates: seq<Date>, rule: Rule, today: Date, end: Date) {
    && (forall i, j :: 0 <= i < j < |dates| ==> Before(dates[i], dates[j]))
    && (forall d: Date :: d in dates <==> Upcoming(rule, today, end, d))
  }

  /** The dates the loop has listed with its cursor on the rule's k-th date. */
  ghost predicate ListedSoFar(dates: seq<Date>, rule: Rule, today: Date, end: Date, k: nat) {
    var cursor := Occurrence(rule, StartOf(rule, today), k);
    && Before(today, cursor)
    && (forall i :: 0 <= i < |dates| ==> Before(dates[i], cursor))
    && (forall i, j :: 0 <= i < j < |dates| ==> Before(dates[i], dates[j]))
    && (forall d: Date :: d in dates <==> UpcomingSoFar(rule, today, end, k, d))
  }

  lemma {:induction false} OneMoreDate(rule: Rule, start: Date, k: nat, d: Date)
    ensures AmongFirst(rule, start, k + 1, d) <==> AmongFirst(rule, start, k, d) || d == Occurrence(rule, start, k)
  {
    hide Occurrence;
    if AmongFirst(rule, start, k + 1, d) {
      var j: nat :| j < k + 1 && Occurrence(rule, start, j) == d;
      assert j < k || j == k;
    }
  }

  lemma {:induction false} CursorListed(dates: seq<Date>, rule: Rule, today: Date, end: Date, k: nat, cursor: Date,
                                        next: Date)
    requires ListedSoFar(dates, rule, today, end, k)
    requires cursor == Occurrence(rule, StartOf(rule, today), k) && NotAfter(cursor, end)
    requires next == Occurrence(rule, StartOf(rule, today), k + 1) && Before(cursor, next)
    ensures ListedSoFar(dates + [cursor], rule, today, end, k + 1)
  {
    hide Occurrence, AmongFirst, StartOf;
    var more := dates + [cursor];
    forall d: Date
      ensures d in more <==> UpcomingSoFar(rule, today, end, k + 1, d)
    {
      assert d in more <==> d in dates || d == cursor;
      OneMoreDate(rule, StartOf(rule, today), k, d);
    }
  }

  lemma {:induction false} AllListed(dates: seq<Date>, rule: Rule, today: Date, end: Date, k: nat)
    requires ListedSoFar(dates, rule, today, end, k)
    requires Before(end, Occurrence(rule, StartOf(rule, today), k))
    ensures ListsDates(dates, rule, today, end)
  {
    hide Occurrence, AmongFirst, OwnDate;
    forall d: Date
      ensures Upcoming(rule, today, end, d) <==> UpcomingSoFar(rule, today, end, k, d)
    {
      if NotAfter(d, end) {
        OwnDateBefore(rule, StartOf(rule, today), end, k, d);
      }
    }
  }

  /** Past `end` the rule has no more dates to list. */
  lemma {:induction false} OwnDateBefore(rule: Rule, start: Date, end: Date, k: nat, d: Date)
    requires Before(end, Occurrence(rule, start, k)) && NotAfter(d, end)
    ensures OwnDate(rule, start, d) <==> AmongFirst(rule, start, k, d)
  {
    hide Occurrence, Before, NotAfter, DayNumber;
    if OwnDate(rule, start, d) {
      var j: nat :| Occurrence(rule, start, j) == d;
      OccurrenceBeyond(rule, start, end, k, j);
    }
  }

  lemma {:induction false} OccurrenceBeyond(rule: Rule, start: Date, end: Date, k: nat, j: nat)
    requires Before(end, Occurrence(rule, start, k)) && NotAfter(Occurrence(rule, start, j), end)
    ensures j < k
  {
    hide DayNumber, Occurrence;
    DateOrder(end, Occurrence(rule, start, k));
    DateOrder(Occurrence(rule, start, j), end);
    DateOrder(Occurrence(rule, start, j), Occurrence(rule, start, k));
    if k < j {
      OccurrencesGrow(rule, start, k, j);
    }
  }

  lemma {:induction false} NothingBeforeToday(rule: Rule, today: Date, end: Date, k: nat)
    requires NotAfter(StartOf(rule, today), today)
    requires Before(today, Occurrence(rule, StartOf(rule, today), k))
    requires NoneAfter(rule, StartOf(rule, today), k, today)
    ensures ListedSoFar([today], rule, today, end, k)
  {
    hide Occurrence, StartOf;
  }

  /** None of the rule's first k dates is after today. */
  ghost predicate NoneAfter(rule: Rule, start: Date, k: nat, today: Date) {
    forall j: nat :: j < k ==> NotAfter(Occurrence(rule, start, j), today)
  }

  lemma {:induction false} NoDateYet(rule: Rule, start: Date, today: Date)
    ensures NoneAfter(rule, start, 0, today)
  {
  }

  lemma {:induction false} OneMoreNotAfter(rule: Rule, start: Date, k: nat, today: Date)
    requires NoneAfter(rule, start, k, today) && NotAfter(Occurrence(rule, start, k), today)
    ensures NoneAfter(rule, start, k + 1, today)
  {
    hide Occurrence, NotAfter;
  }

  /** The rule's first date after today: the k-th, none before it being after today. */
  method SkipPast(rule: Rule, ghost start: Date, today: Date) returns (cursor: Date, ghost k: nat)
    requires start == StartOf(rule, today)
    ensures cursor == Occurrence(rule, start, k) && !NotAfter(cursor, today)
    ensures NoneAfter(rule, start, k, today)
  {
    hide *;
    cursor := if rule.nextDate.Some? then rule.nextDate.value else today;
    k := 0;
    FirstDate(rule, today);
    NoDateYet(rule, start, today);
    while NotAfter(cursor, today)
      invariant cursor == Occurrence(rule, start, k)
      invariant NoneAfter(rule, start, k, today)
      decreases DaysLeft(cursor, today)
    {
      OneMoreNotAfter(rule, start, k, today);
      cursor := StepOn(rule, start, cursor, today, k);
      k := k + 1;
    }
  }

  method DatesOf(rule: Rule, today: Date, end: Date) returns (dates: seq<Date>)
    ensures ListsDates(dates, rule, today, end)
  {
    hide *;
    ghost var start := StartOf(rule, today);
    ghost var k: nat := 0;
    var cursor := if rule.nextDate.Some? then rule.nextDate.value else today;
    FirstDate(rule, today);
    if NotAfter(cursor, today) {
      dates := [today];
      cursor, k := SkipPast(rule, start, today);
      NotBefore(cursor, today);
      NothingBeforeToday(rule, today, end, k);
    } else {
      dates := [];
      NothingYet(rule, today, end);
    }
    while NotAfter(cursor, end)
      invariant cursor == Occurrence(rule, start, k) && ListedSoFar(dates, rule, today, end, k)
      decreases DaysLeft(cursor, end)
    {
      var next := StepOn(rule, start, cursor, end, k);
      CursorListed(dates, rule, today, end, k, cursor, next);
      dates := dates + [cursor];
      cursor := next;
      k := k + 1;
    }
    NotBefore(cursor, end);
    AllListed(dates, rule, today, end, k);
  }

  lemma {:induction false} FirstDate(rule: Rule, today: Date)
    ensures Occurrence(rule, StartOf(rule, today), 0) == if rule.nextDate.Some? then rule.nextDate.value else today
    ensures StartOf(rule, today) == if rule.nextDate.Some? then rule.nextDate.value else today
  {
  }

  ghost function DaysLeft(cursor: Date, limit: Date): int {
    DayNumber(limit) - DayNumber(cursor)
  }

  /** One step of the cursor: the rule's next date, later and so nearer the limit. */
  method StepOn(rule: Rule, ghost start: Date, cursor: Date, ghost limit: Date, ghost k: nat) returns (next: Date)
    requires cursor == Occurrence(rule, start, k) && NotAfter(cursor, limit)
    ensures next == Occurrence(rule, start, k + 1) && Before(cursor, next)
    ensures 0 <= DaysLeft(cursor, limit) && DaysLeft(next, limit) < DaysLeft(cursor, limit)
  {
    hide DayNumber, NextOccurrence;
    next := NextOccurrence(cursor, rule.frequency, rule.dayOfMonth);
    NextOccurrenceLater(cursor, rule.frequency, rule.dayOfMonth);
    DateOrder(cursor, next);
    DateOrder(cursor, limit);
  }

  lemma {:induction false} NotBefore(a: Date, b: Date)
    ensures NotAfter(a, b) || Before(b, a)
  {
  }

  lemma {:induction false} NothingYet(rule: Rule, today: Date, end: Date)
    requires !NotAfter(StartOf(rule, today), today)
    ensures ListedSoFar([], rule, today, end, 0)
  {
  }

  // ---- The answer ----

  function Sooner(): (Item, Item) -> bool {
    (a: Item, b: Item) => NotAfter(a.date, b.date)
  }

  function Amounts(items: seq<Item>): int {
    if items == [] then 0 else Amounts(items[..|items| - 1]) + items[|items| - 1].rule.amount
  }

  function InCategory(items: seq<Item>, name: string): seq<Item> {
    if items == [] then []
    else
      var n := |items| - 1;
      InCategory(items[..n], name) + (if CategoryOf(items[n]) == name then [items[n]] else [])
  }

  function Totals(categories: seq<Category>): int {
    if categories == [] then 0 else Totals(categories[..|categories| - 1]) + categories[|categories| - 1].total
  }

  predicate DistinctNames(categories: seq<Category>) {
    forall i, j :: 0 <= i < j < |categories| ==> categories[i].name != categories[j].name
  }

  /** One category for every name among the items, holding that name's items and what they add up to. */
  ghost predicate Groups(categories: seq<Category>, items: seq<Item>) {
    && DistinctNames(categories)
    && (forall i :: 0 <= i < |categories| ==>
          && categories[i].items == InCategory(items, categories[i].name)
          && categories[i].total == Amounts(categories[i].items))
    && (forall i :: 0 <= i < |items| ==> exists c :: c in categories && c.name == CategoryOf(items[i]))
  }

  function IndexOf(categories: seq<Category>, name: string): (i: nat)
    ensures i <= |categories|
    ensures i < |categories| ==> categories[i].name == name
    ensures forall j :: 0 <= j < i ==> categories[j].name != name
  {
    if categories == [] then 0 else if categories[0].name == name then 0 else 1 + IndexOf(categories[1..], name)
  }

  lemma {:induction false} TotalsUpdate(categories: seq<Category>, i: nat, c: Category)
    requires i < |categories|
    ensures Totals(categories[i := c]) == Totals(categories) - categories[i].total + c.total
  {
    var n := |categories| - 1;
    if i < n {
      TotalsUpdate(categories[..n], i, c);
      assert categories[i := c][..n] == categories[..n][i := c];
    } else {
      assert categories[i := c][..n] == categories[..n];
    }
  }

  lemma {:induction false} NoneInCategory(items: seq<Item>, name: string)
    requires forall i :: 0 <= i < |items| ==> CategoryOf(items[i]) != name
    ensures InCategory(items, name) == []
  {
    if items == [] {
    } else {
      NoneInCategory(items[..|items| - 1], name);
    }
  }

  lemma {:induction false} OneMoreItem(items: seq<Item>, item: Item, name: string)
    ensures InCategory(items + [item], name)
            == InCategory(items, name) + (if CategoryOf(item) == name then [item] else [])
    ensures Amounts(items + [item]) == Amounts(items) + item.rule.amount
  {
    assert (items + [item])[..|items|] == items;
  }

  /** The categories with one more item put in its own, a new one at the end when it is the first. */
  function Grouped(categories: seq<Category>, item: Item): seq<Category> {
    var i := IndexOf(categories, CategoryOf(item));
    if i < |categories| then
      var c := categories[i];
      categories[i := Category(c.name, c.total + item.rule.amount, c.items + [item])]
    else categories + [Category(CategoryOf(item), item.rule.amount, [item])]
  }

  lemma {:induction false} GroupedGroups(categories: seq<Category>, items: seq<Item>, item: Item)
    requires Groups(categories, items)
    ensures Groups(Grouped(categories, item), items + [item])
    ensures Totals(Grouped(categories, item)) == Totals(categories) + item.rule.amount
  {
    var name := CategoryOf(item);
    var k, after := IndexOf(categories, name), Grouped(categories, item);
    hide CategoryOf, InCategory, Amounts;
    OneMoreItem([], item, name);
    NoItems(name);
    if k < |categories| {
      OneMoreItem(categories[k].items, item, name);
      TotalsUpdate(categories, k, after[k]);
    } else {
      assert after[..|categories|] == categories;
      forall i | 0 <= i < |items|
        ensures CategoryOf(items[i]) != name
      {
        var c :| c in categories && c.name == CategoryOf(items[i]);
      }
      NoneInCategory(items, name);
      assert [] + [item] == [item];
    }
    forall i | 0 <= i < |after|
      ensures after[i].items == InCategory(items + [item], after[i].name) && after[i].total == Amounts(after[i].items)
    {
      OneMoreItem(items, item, after[i].name);
    }
    forall i | 0 <= i < |items + [item]|
      ensures exists c :: c in after && c.name == CategoryOf((items + [item])[i])
    {
      if i < |items| {
        var c :| c in categories && c.name == CategoryOf(items[i]);
        var j :| 0 <= j < |categories| && categories[j] == c;
        assert after[j] in after && after[j].name == c.name;
      } else {
        assert after[k] in after && after[k].name == name;
      }
    }
  }

  lemma {:induction false} NoItems(name: string)
    ensures InCategory([], name) == [] && Amounts([]) == 0
  {
  }

  function LargestFirst(): (Category, Category) -> bool {
    (a: Category, b: Category) => a.total >= b.total
  }

  lemma {:induction false} InsertTotals(categories: seq<Category>, c: Category)
    ensures Totals(Insert(categories, c, LargestFirst())) == Totals(categories) + c.total
  {
    var n := |categories| - 1;
    if categories == [] || categories[n].total >= c.total {
      assert (categories + [c])[..|categories|] == categories;
    } else {
      InsertTotals(categories[..n], c);
      var front := Insert(categories[..n], c, LargestFirst());
      assert (front + [categories[n]])[..|front|] == front;
    }
  }

  lemma {:induction false} SortTotals(categories: seq<Category>)
    ensures Totals(StableSort(categories, LargestFirst())) == Totals(categories)
  {
    if categories == [] {
    } else {
      var n := |categories| - 1;
      SortTotals(categories[..n]);
      InsertTotals(StableSort(categories[..n], LargestFirst()), categories[n]);
    }
  }

  lemma {:induction false} InsertMembers(categories: seq<Category>, c: Category)
    ensures forall x :: x in Insert(categories, c, LargestFirst()) <==> x in categories || x == c
  {
    InsertKeeps(categories, c, LargestFirst());
    var after := Insert(categories, c, LargestFirst());
    forall x
      ensures x in after <==> x in categories || x == c
    {
      assert x in multiset(after) <==> x in multiset(categories) || x == c;
    }
  }

  lemma {:induction false} InsertNames(categories: seq<Category>, c: Category)
    requires DistinctNames(categories) && forall x :: x in categories ==> x.name != c.name
    ensures DistinctNames(Insert(categories, c, LargestFirst()))
  {
    var n := |categories| - 1;
    if categories == [] || categories[n].total >= c.total {
    } else {
      InsertNames(categories[..n], c);
      InsertMembers(categories[..n], c);
      var front := Insert(categories[..n], c, LargestFirst());
      forall i | 0 <= i < |front|
        ensures front[i].name != categories[n].name
      {
        assert front[i] in front;
      }
    }
  }

  lemma {:induction false} SortNames(categories: seq<Category>)
    requires DistinctNames(categories)
    ensures DistinctNames(StableSort(categories, LargestFirst()))
    ensures forall x :: x in StableSort(categories, LargestFirst()) <==> x in categories
  {
    if categories == [] {
    } else {
      var n := |categories| - 1;
      SortNames(categories[..n]);
      InsertMembers(StableSort(categories[..n], LargestFirst()), categories[n]);
      InsertNames(StableSort(categories[..n], LargestFirst()), categories[n]);
      assert categories == categories[..n] + [categories[n]];
    }
  }

  lemma {:induction false} SortKeepsGroups(categories: seq<Category>, items: seq<Item>)
    requires Groups(categories, items)
    ensures Groups(StableSort(categories, LargestFirst()), items)
    ensures Totals(StableSort(categories, LargestFirst())) == Totals(categories)
    ensures Sorted(StableSort(categories, LargestFirst()), LargestFirst())
  {
    SortCorrect(categories, LargestFirst());
    SortTotals(categories);
    SortNames(categories);
    hide InCategory, Amounts, CategoryOf, StableSort, Sorted, Totals;
    var sorted := StableSort(categories, LargestFirst());
    forall i | 0 <= i < |sorted|
      ensures sorted[i].items == InCategory(items, sorted[i].name) && sorted[i].total == Amounts(sorted[i].items)
    {
      assert sorted[i] in categories;
    }
  }

  /** The items of a rule's dates, in order. */
  function ItemsOf(rule: Rule, dates: seq<Date>): (items: seq<Item>)
    ensures |items| == |dates|
  {
    seq(|dates|, i requires 0 <= i < |dates| => Item(rule, dates[i]))
  }

  /** Each rule's items, in the order of the rules. */
  ghost predicate ListsRules(items: seq<Item>, rules: seq<Rule>, today: Date, end: Date)
    decreases |rules|
  {
    if rules == [] then items == []
    else
      var n := |rules| - 1;
      exists k, dates ::
        && 0 <= k <= |items| && ListsDates(dates, rules[n], today, end)
        && items[k..] == ItemsOf(rules[n], dates) && ListsRules(items[..k], rules[..n], today, end)
  }

  lemma {:induction false} OneMoreRule(items: seq<Item>, rules: seq<Rule>, today: Date, end: Date, dates: seq<Date>,
                                       i: nat)
    requires i < |rules| && ListsRules(items, rules[..i], today, end) && ListsDates(dates, rules[i], today, end)
    ensures ListsRules(items + ItemsOf(rules[i], dates), rules[..i + 1], today, end)
  {
    hide ListsDates;
    var more := items + ItemsOf(rules[i], dates);
    assert rules[..i + 1][..i] == rules[..i];
    assert more[..|items|] == items && more[|items|..] == ItemsOf(rules[i], dates);
  }

  /** The names a plain object inherits: looked up by one, the dictionary finds what it never stored. */
  predicate Inherited(name: string) {
    || name == "constructor" || name == "hasOwnProperty" || name == "isPrototypeOf"
    || name == "propertyIsEnumerable" || name == "toLocaleString" || name == "toString" || name == "valueOf"
    || name == "__proto__" || name == "__defineGetter__" || name == "__defineSetter__"
    || name == "__lookupGetter__" || name == "__lookupSetter__"
  }

  ghost predicate NoneInherited(items: seq<Item>) {
    forall i :: 0 <= i < |items| ==> !Inherited(CategoryOf(items[i]))
  }

  function OnDay(day: Date): Item -> bool {
    (item: Item) => item.date == day
  }

  /** The same items, soonest first, those of one day in the order they came. */
  ghost predicate ByDay(sorted: seq<Item>, items: seq<Item>) {
    && multiset(sorted) == multiset(items)
    && (forall i, j :: 0 <= i < j < |sorted| ==> DayNumber(sorted[i].date) <= DayNumber(sorted[j].date))
    && (forall day: Date :: Where(sorted, OnDay(day)) == Where(items, OnDay(day)))
  }

  /** Every item is under its category's name, one without a category under "Uncategorized". */
  ghost predicate UnderItsName(categories: seq<Category>) {
    forall i, item :: 0 <= i < |categories| && item in categories[i].items ==>
      categories[i].name
      == if item.rule.category.Some? && item.rule.category.value != "" then item.rule.category.value
         else "Uncategorized"
  }

  ghost predicate LargestTotalFirst(categories: seq<Category>) {
    forall i, j :: 0 <= i < j < |categories| ==> categories[i].total >= categories[j].total
  }

  ghost predicate Answers(answer: Answer, sorted: seq<Item>) {
    && answer.transactions == (if |sorted| <= 20 then sorted else sorted[..20])
    && Groups(answer.byCategory, sorted)
    && UnderItsName(answer.byCategory)
    && LargestTotalFirst(answer.byCategory)
    && answer.total == Amounts(sorted) == Totals(answer.byCategory)
  }

  lemma {:induction false} SortedByDay(items: seq<Item>)
    ensures ByDay(StableSort(items, Sooner()), items)
  {
    SoonerIsTotal();
    SortCorrect(items, Sooner());
    var sorted := StableSort(items, Sooner());
    hide StableSort;
    forall i, j | 0 <= i < j < |sorted|
      ensures DayNumber(sorted[i].date) <= DayNumber(sorted[j].date)
    {
      assert Sooner()(sorted[i], sorted[j]);
      DateOrder(sorted[i].date, sorted[j].date);
      hide *;
    }
    forall day: Date
      ensures Where(sorted, OnDay(day)) == Where(items, OnDay(day))
    {
      SortStable(items, OnDay(day), Sooner());
    }
  }

  lemma {:induction false} InCategoryNamed(items: seq<Item>, name: string, item: Item)
    requires item in InCategory(items, name)
    ensures CategoryOf(item) == name
  {
    var n := |items| - 1;
    if item in InCategory(items[..n], name) {
      InCategoryNamed(items[..n], name, item);
    }
  }

  lemma {:induction false} GroupsNamed(categories: seq<Category>, items: seq<Item>)
    requires Groups(categories, items)
    ensures UnderItsName(categories)
  {
    hide InCategory, Amounts;
    forall i, item | 0 <= i < |categories| && item in categories[i].items
      ensures categories[i].name
              == if item.rule.category.Some? && item.rule.category.value != "" then item.rule.category.value
                 else "Uncategorized"
    {
      InCategoryNamed(items, categories[i].name, item);
    }
  }

  lemma {:induction false} SortedInherit(items: seq<Item>, sorted: seq<Item>)
    requires multiset(items) == multiset(sorted)
    ensures NoneInherited(items) <==> NoneInherited(sorted)
  {
    hide Inherited, CategoryOf;
    forall i | 0 <= i < |items|
      ensures items[i] in sorted
    {
      assert items[i] in multiset(sorted);
    }
    forall i | 0 <= i < |sorted|
      ensures sorted[i] in items
    {
      assert sorted[i] in multiset(items);
    }
  }

  lemma {:induction false} SoonerIsTotal()
    ensures TotalPreorder(Sooner())
  {
  }

  /** The dates listed are sorted by day, and the sort only reorders. */
  lemma {:induction false} SoonestFirst(items: seq<Item>)
    ensures multiset(StableSort(items, Sooner())) == multiset(items)
    ensures NoneInherited(items) <==> NoneInherited(StableSort(items, Sooner()))
  {
    SoonerIsTotal();
    SortCorrect(items, Sooner());
    SortedInherit(items, StableSort(items, Sooner()));
  }

  /**
   * Every rule's dates in the window, soonest first, the first twenty of them; grouped by category,
   * the largest total first, each category holding exactly its items and their sum; and the
   * categories' totals adding up to the grand total. There is no answer exactly when an item's
   * category is named like something every object inherits: the grouping then breaks off.
   */
  method UpcomingRecurring(rules: seq<Rule>, today: Date)
    returns (answer: Option<Answer>, ghost items: seq<Item>, ghost sorted: seq<Item>)
    ensures ListsRules(items, rules, today, AddDays(today, 30)) && ByDay(sorted, items)
    ensures answer.Some? <==> NoneInherited(items)
    ensures answer.Some? ==> Answers(answer.value, sorted)
  {
    LooksAhead();
    hide *;
    var end := AddDays(today, UPCOMING_DAYS);
    var upcoming: seq<Item> := [];
    NoRulesYet(today, end);
    for i := 0 to |rules|
      invariant ListsRules(upcoming, rules[..i], today, end)
    {
      var dates := DatesOf(rules[i], today, end);
      OneMoreRule(upcoming, rules, today, end, dates, i);
      upcoming := upcoming + ItemsOf(rules[i], dates);
    }
    assert rules[..|rules|] == rules;
    items := upcoming;
    SoonestFirst(upcoming);
    SortedByDay(upcoming);
    upcoming := StableSort(upcoming, Sooner());
    sorted := upcoming;
    var byCategory: seq<Category> := [];
    var total := 0;
    NothingGrouped();
    for i := 0 to |upcoming|
      invariant Groups(byCategory, upcoming[..i]) && NoneInherited(upcoming[..i])
      invariant total == Amounts(upcoming[..i]) == Totals(byCategory)
    {
      assert upcoming[..i + 1] == upcoming[..i] + [upcoming[i]];
      OneMoreInherits(upcoming, i);
      if Inherited(CategoryOf(upcoming[i])) {
        return None, items, sorted;
      }
      GroupedGroups(byCategory, upcoming[..i], upcoming[i]);
      OneMoreItem(upcoming[..i], upcoming[i], "");
      byCategory := Grouped(byCategory, upcoming[i]);
      total := total + upcoming[i].rule.amount;
    }
    assert upcoming[..|upcoming|] == upcoming;
    SortKeepsGroups(byCategory, upcoming);
    var first := if |upcoming| <= 20 then upcoming else upcoming[..20];
    answer := Some(Answer(first, StableSort(byCategory, LargestFirst()), total));
    IsAnswer(answer.value, upcoming);
  }

  lemma {:induction false} IsAnswer(answer: Answer, sorted: seq<Item>)
    requires answer.transactions == if |sorted| <= 20 then sorted else sorted[..20]
    requires Groups(answer.byCategory, sorted) && Sorted(answer.byCategory, LargestFirst())
    requires answer.total == Amounts(sorted) == Totals(answer.byCategory)
    ensures Answers(answer, sorted)
  {
    GroupsNamed(answer.byCategory, sorted);
    hide Groups, UnderItsName, Amounts, Totals;
    forall i, j | 0 <= i < j < |answer.byCategory|
      ensures answer.byCategory[i].total >= answer.byCategory[j].total
    {
      assert LargestFirst()(answer.byCategory[i], answer.byCategory[j]);
    }
  }

  lemma {:induction false} LooksAhead()
    ensures UPCOMING_DAYS == 30
  {
  }

  lemma {:induction false} OneMoreInherits(items: seq<Item>, i: nat)
    requires i < |items| && NoneInherited(items[..i])
    ensures NoneInherited(items[..i + 1]) <==> !Inherited(CategoryOf(items[i]))
    ensures Inherited(CategoryOf(items[i])) ==> !NoneInherited(items)
  {
    hide Inherited, CategoryOf;
    assert items[..i + 1] == items[..i] + [items[i]];
    assert items[..i + 1][i] == items[i];
  }

  const OBJECT_NAMES :=
    ["constructor", "hasOwnProperty", "isPrototypeOf", "propertyIsEnumerable", "toLocaleString", "toString", "valueOf",
     "__proto__", "__defineGetter__", "__defineSetter__", "__lookupGetter__", "__lookupSetter__"]

  /** Which names the grouping breaks off at: those of what every object inherits. */
  lemma {:induction false} InheritedNames(items: seq<Item>)
    ensures NoneInherited(items) <==>
            forall i :: 0 <= i < |items| && items[i].rule.category.Some? ==>
              items[i].rule.category.value !in OBJECT_NAMES
  {
    forall i | 0 <= i < |items|
      ensures Inherited(CategoryOf(items[i])) <==>
              items[i].rule.category.Some? && items[i].rule.category.value in OBJECT_NAMES
    {
      NameInherited(items[i]);
    }
    hide Inherited, CategoryOf;
  }

  lemma {:induction false} NameInherited(item: Item)
    ensures Inherited(CategoryOf(item)) <==>
            item.rule.category.Some? && item.rule.category.value in OBJECT_NAMES
  {
    var u := "Uncategorized";
    assert u[0] == 'U';
  }

  /** A rule due today in a category named "constructor" leaves the whole list without an answer. */
  lemma {:induction false} ConstructorBreaksOff(rule: Rule, today: Date, items: seq<Item>)
    requires rule.nextDate == Some(today) && rule.category == Some("constructor")
    requires ListsRules(items, [rule], today, AddDays(today, 30))
    ensures !NoneInherited(items)
  {
    var end := AddDays(today, 30);
    var k, dates :| 0 <= k <= |items| && ListsDates(dates, rule, today, end)
                    && items[k..] == ItemsOf(rule, dates) && ListsRules(items[..k], [], today, end);
    assert Upcoming(rule, today, end, today);
    var j :| 0 <= j < |dates| && dates[j] == today;
    assert items[k..][j] == Item(rule, today);
    assert Inherited(CategoryOf(items[k + j]));
  }

  lemma {:induction false} NoRulesYet(today: Date, end: Date)
    ensures ListsRules([], [], today, end)
  {
  }

  lemma {:induction false} NothingGrouped()
    ensures NoneInherited([]) && Groups([], []) && Amounts([]) == 0 && Totals([]) == 0
  {
  }
}
