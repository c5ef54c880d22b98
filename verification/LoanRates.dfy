/**
 * Which rate a month is charged at (shared/loanSchedule.ts): the sorted list the engine reads, and
 * the same rates told as stretches of months.
 */
module LoanRates {
  import opened Basics
  import opened Sorting
  import opened LoanSchedule

  // ---- Reading the sorted list ----

  /** Reading the sorted list to its end finds the covering period that starts latest. */
  lemma {:induction false} SortedCovering(periods: seq<Period>, month: int)
    ensures LastCovering(StableSort(periods, StartsNoLater()), month) == Covering(periods, month)
  {
    SortedLastIsBest(periods, CoversMonth(month), StartsNoLater());
  }

  /** The rate's period covers the month, none covering starts later, and of equal starts it is listed last. */
  lemma {:induction false} CoveringIsLatest(periods: seq<Period>, month: int)
    ensures var c := Covering(periods, month);
            && (c.None? <==> forall i :: 0 <= i < |periods| ==> !periods[i].Covers(month))
            && (c.Some? ==> exists k ::
                  && 0 <= k < |periods| && periods[k] == c.value && periods[k].Covers(month)
                  && forall i :: 0 <= i < |periods| && periods[i].Covers(month) ==>
                       periods[i].start < periods[k].start || (periods[i].start == periods[k].start && i <= k))
  {
    if periods == [] {
    } else {
      var n := |periods| - 1;
      var front := periods[..n];
      CoveringIsLatest(front, month);
      var rest := Covering(front, month);
      if rest.Some? {
        var k :| 0 <= k < n && front[k] == rest.value && front[k].Covers(month)
                 && forall i :: 0 <= i < n && front[i].Covers(month) ==>
                      front[i].start < front[k].start || (front[i].start == front[k].start && i <= k);
        assert periods[k] == front[k];
        forall i | 0 <= i < n && periods[i].Covers(month)
          ensures periods[i].start < periods[k].start || (periods[i].start == periods[k].start && i <= k)
        {
          assert periods[i] == front[i];
        }
      } else {
        forall i | 0 <= i < n
          ensures !periods[i].Covers(month)
        {
          assert periods[i] == front[i];
        }
      }
      assert periods[n].Covers(month) || !periods[n].Covers(month);
    }
  }

  method PeriodsOf(list: seq<LoanRatePeriod>) returns (periods: seq<Period>)
    ensures periods == StableSort(UsablePeriods(list), StartsNoLater())
  {
    var usable: seq<Period> := [];
    for i := 0 to |list|
      invariant usable == UsablePeriods(list[..i])
    {
      var p := list[i];
      assert list[..i + 1][..i] == list[..i];
      if UsablePeriod(p) {
        usable := usable + [Period(p.rate.value, p.startMonth.value, LastMonthOf(p.endMonth))];
      }
    }
    assert list[..|list|] == list;
    periods := StableSort(usable, StartsNoLater());
  }

  method RateIn(month: int, baseRate: real, periods: seq<Period>) returns (rate: real)
    ensures rate == RateOf(LastCovering(periods, month), baseRate)
  {
    rate := baseRate;
    for i := 0 to |periods|
      invariant rate == RateOf(LastCovering(periods[..i], month), baseRate)
    {
      assert periods[..i + 1][..i] == periods[..i];
      if periods[i].Covers(month) {
        rate := periods[i].rate;
      }
    }
    assert periods[..|periods|] == periods;
  }

  // ---- Stretches ----

  datatype RateStretch = RateStretch(start: int, end: Option<int>, rate: real) {
    predicate Holds(month: int) {
      start <= month && (end.None? || month <= end.value)
    }
  }

  /** The first whole month from `from` on, and month 1 at the earliest. */
  predicate StartsFrom(stretches: seq<RateStretch>, from: Number) {
    && stretches != []
    && var first := stretches[0].start;
       if from.Finite? && from.value > 1.0 then (first - 1) as real < from.value <= first as real else first == 1
  }

  /** A month counted from: below 1, or not a number, it is month 1. */
  function FirstMonth(from: Number): int {
    if from.Finite? then MaxInt(1, Ceil(from.value)) else 1
  }

  lemma {:induction false} FirstMonthSays(from: Number)
    ensures var first := FirstMonth(from);
            if from.Finite? && from.value > 1.0 then (first - 1) as real < from.value <= first as real else first == 1
  {
  }

  /**
   * Stretches that say the same rates from `first` on, as shortly as they can: one after another
   * without a gap, the last without end, neighbours at different rates.
   */
  ghost predicate Compresses(stretches: seq<RateStretch>, loan: LoanInput, first: int) {
    && |stretches| >= 1 && stretches[0].start == first
    && stretches[|stretches| - 1].end == None
    && (forall i, j :: 0 <= i < j < |stretches| ==> stretches[i].start < stretches[j].start)
    && (forall i :: 0 <= i < |stretches| - 1 ==>
          && stretches[i].end == Some(stretches[i + 1].start - 1)
          && stretches[i].rate != stretches[i + 1].rate)
    && (forall i, m :: 0 <= i < |stretches| && stretches[i].Holds(m) ==> stretches[i].rate == RateAt(loan, m))
  }

  /** The first month a period covers, and the month after its last, from `first` on. */
  predicate IsEdge(p: Period, first: int, month: int) {
    || month == MaxInt(first, Ceil(p.start))
    || (p.end.Some? && month == MaxInt(first, p.end.value.Floor + 1))
  }

  predicate AnyEdge(periods: seq<Period>, first: int, month: int) {
    month == first || exists p :: p in periods && IsEdge(p, first, month)
  }

  lemma {:induction false} CoverageSteady(p: Period, first: int, month: int)
    requires first < month && !IsEdge(p, first, month)
    ensures p.Covers(month) == p.Covers(month - 1)
  {
  }

  lemma {:induction false} CoveringSteady(periods: seq<Period>, first: int, month: int)
    requires first < month && !AnyEdge(periods, first, month)
    ensures Covering(periods, month) == Covering(periods, month - 1)
  {
    if periods == [] {
    } else {
      var front := periods[..|periods| - 1];
      forall p | p in front
        ensures !IsEdge(p, first, month)
      {
        assert p in periods;
      }
      CoveringSteady(front, first, month);
      assert periods[|periods| - 1] in periods;
      CoverageSteady(periods[|periods| - 1], first, month);
    }
  }

  /** Between two edges the rate does not change. */
  lemma {:induction false} RateSteady(loan: LoanInput, first: int, edge: int, month: int)
    requires first <= edge <= month
    requires forall m :: edge < m <= month ==> !AnyEdge(UsablePeriods(loan.ratePeriods), first, m)
    ensures RateAt(loan, month) == RateAt(loan, edge)
    decreases month - edge
  {
    if edge < month {
      RateSteady(loan, first, edge, month - 1);
      CoveringSteady(UsablePeriods(loan.ratePeriods), first, month);
    }
  }

  /** A number added to a set that remembers the order its members came in. */
  function AddOnce(members: seq<int>, x: int): (r: seq<int>)
    requires Distinct(members)
    ensures Distinct(r) && forall y :: y in r <==> y in members || y == x
  {
    if x in members then members else members + [x]
  }

  predicate Distinct(xs: seq<int>) {
    forall i, j :: 0 <= i < j < |xs| ==> xs[i] != xs[j]
  }

  function Ascending(): (int, int) -> bool {
    (a: int, b: int) => a <= b
  }

  lemma {:induction false} DistinctCounts(xs: seq<int>)
    ensures Distinct(xs) <==> forall x :: x in xs ==> multiset(xs)[x] == 1
  {
    if xs == [] {
    } else {
      var n := |xs| - 1;
      assert xs == xs[..n] + [xs[n]];
      DistinctCounts(xs[..n]);
      if Distinct(xs) {
        assert xs[n] !in xs[..n];
      } else {
        var i, j :| 0 <= i < j < |xs| && xs[i] == xs[j];
        if j < n {
          assert xs[..n][i] == xs[..n][j];
          var y :| y in xs[..n] && multiset(xs[..n])[y] != 1;
          assert y in xs && multiset(xs)[y] != 1;
        } else {
          assert xs[i] in xs[..n];
          assert multiset(xs)[xs[n]] != 1;
        }
      }
    }
  }

  /** A sorted list of distinct numbers goes up at every step. */
  lemma {:induction false} SortedDistinct(xs: seq<int>, sorted: seq<int>)
    requires Distinct(xs) && sorted == StableSort(xs, Ascending())
    ensures forall i, j :: 0 <= i < j < |sorted| ==> sorted[i] < sorted[j]
    ensures forall x :: x in sorted <==> x in xs
  {
    SortCorrect(xs, Ascending());
    DistinctCounts(xs);
    DistinctCounts(sorted);
    forall x
      ensures x in sorted <==> x in xs
    {
      assert x in multiset(sorted) <==> x in multiset(xs);
    }
    assert forall x :: x in sorted ==> multiset(sorted)[x] == 1;
  }

  method EdgesOf(periods: seq<Period>, first: int) returns (edges: seq<int>)
    ensures forall i, j :: 0 <= i < j < |edges| ==> edges[i] < edges[j]
    ensures forall m :: m in edges <==> AnyEdge(periods, first, m)
    ensures |edges| >= 1 && edges[0] == first
  {
    var members := [first];
    for i := 0 to |periods|
      invariant Distinct(members)
      invariant forall m :: m in members <==> AnyEdge(periods[..i], first, m)
    {
      var p := periods[i];
      members := AddOnce(members, MaxInt(first, Ceil(p.start)));
      if p.end.Some? {
        members := AddOnce(members, MaxInt(first, p.end.value.Floor + 1));
      }
      assert periods[..i + 1] == periods[..i] + [p];
      forall m
        ensures AnyEdge(periods[..i + 1], first, m) <==> AnyEdge(periods[..i], first, m) || IsEdge(p, first, m)
      {
        assert forall q :: q in periods[..i + 1] <==> q in periods[..i] || q == p;
      }
    }
    assert periods[..|periods|] == periods;
    edges := StableSort(members, Ascending());
    SortedDistinct(members, edges);
    assert first in edges;
    assert edges[0] in edges;
  }

  lemma {:induction false} SortKeepsPeriods(periods: seq<Period>, first: int, month: int)
    ensures AnyEdge(StableSort(periods, StartsNoLater()), first, month) <==> AnyEdge(periods, first, month)
  {
    SortCorrect(periods, StartsNoLater());
    var sorted := StableSort(periods, StartsNoLater());
    forall p
      ensures p in sorted <==> p in periods
    {
      assert p in multiset(sorted) <==> p in multiset(periods);
    }
  }

  /** The stretches built from the first `i` edges: right for every month before the next edge. */
  ghost predicate CompressesTo(stretches: seq<RateStretch>, loan: LoanInput, edges: seq<int>, i: nat)
    requires i <= |edges|
  {
    && (i == 0 ==> stretches == [])
    && (i > 0 ==>
          && |stretches| >= 1 && stretches[0].start == edges[0]
          && stretches[|stretches| - 1].end == None
          && stretches[|stretches| - 1].start <= edges[i - 1]
          && stretches[|stretches| - 1].rate == RateAt(loan, edges[i - 1]))
    && (forall j, k :: 0 <= j < k < |stretches| ==> stretches[j].start < stretches[k].start)
    && (forall k :: 0 <= k < |stretches| - 1 ==>
          && stretches[k].end == Some(stretches[k + 1].start - 1)
          && stretches[k].rate != stretches[k + 1].rate)
    && (forall k, m :: 0 <= k < |stretches| && stretches[k].Holds(m) && (i < |edges| ==> m < edges[i]) ==>
          stretches[k].rate == RateAt(loan, m))
  }

  lemma {:induction false} SteadyFrom(loan: LoanInput, edges: seq<int>, i: nat, month: int)
    requires i < |edges| && (forall a, b :: 0 <= a < b < |edges| ==> edges[a] < edges[b])
    requires forall m :: m in edges <==> AnyEdge(UsablePeriods(loan.ratePeriods), edges[0], m)
    requires edges[i] <= month && (i + 1 < |edges| ==> month < edges[i + 1])
    ensures RateAt(loan, month) == RateAt(loan, edges[i])
  {
    forall m | edges[i] < m <= month
      ensures m !in edges
    {
      assert forall k :: 0 <= k <= i ==> edges[k] <= edges[i];
      assert forall k :: i + 1 <= k < |edges| ==> edges[i + 1] <= edges[k];
    }
    RateSteady(loan, edges[0], edges[i], month);
  }

  function CloseLast(stretches: seq<RateStretch>, end: int): (closed: seq<RateStretch>)
    ensures |closed| == |stretches|
    ensures forall k :: 0 <= k < |stretches| - 1 ==> closed[k] == stretches[k]
    ensures stretches != [] ==> closed[|stretches| - 1] == stretches[|stretches| - 1].(end := Some(end))
  {
    if stretches == [] then []
    else
      var last := |stretches| - 1;
      stretches[last := stretches[last].(end := Some(end))]
  }

  lemma {:induction false} SameRateAdvances(stretches: seq<RateStretch>, loan: LoanInput, edges: seq<int>, i: nat)
    requires i < |edges| && (forall a, b :: 0 <= a < b < |edges| ==> edges[a] < edges[b])
    requires forall m :: m in edges <==> AnyEdge(UsablePeriods(loan.ratePeriods), edges[0], m)
    requires CompressesTo(stretches, loan, edges, i)
    requires |stretches| > 0 && stretches[|stretches| - 1].rate == RateAt(loan, edges[i])
    ensures CompressesTo(stretches, loan, edges, i + 1)
  {
    hide RateAt, AnyEdge;
    forall k, m | 0 <= k < |stretches| && stretches[k].Holds(m) && (i + 1 < |edges| ==> m < edges[i + 1])
      ensures stretches[k].rate == RateAt(loan, m)
    {
      if m >= edges[i] {
        SteadyFrom(loan, edges, i, m);
      }
    }
  }

  /** Closed at the month before an edge, the stretches so far hold the months they held before it. */
  lemma {:induction false} ClosedHolds(stretches: seq<RateStretch>, loan: LoanInput, edges: seq<int>, i: nat, k: nat,
                                       month: int)
    requires i < |edges| && (forall a, b :: 0 <= a < b < |edges| ==> edges[a] < edges[b])
    requires CompressesTo(stretches, loan, edges, i)
    requires k < |stretches| && CloseLast(stretches, edges[i] - 1)[k].Holds(month)
    ensures month < edges[i] && stretches[k].Holds(month)
    ensures CloseLast(stretches, edges[i] - 1)[k].rate == RateAt(loan, month)
  {
    hide RateAt, CloseLast;
    if k < |stretches| - 1 {
      assert stretches[k + 1].start <= stretches[|stretches| - 1].start;
    }
  }

  lemma {:induction false} NewRateAdvances(stretches: seq<RateStretch>, loan: LoanInput, edges: seq<int>, i: nat,
                                           next: seq<RateStretch>)
    requires i < |edges| && (forall a, b :: 0 <= a < b < |edges| ==> edges[a] < edges[b])
    requires forall m :: m in edges <==> AnyEdge(UsablePeriods(loan.ratePeriods), edges[0], m)
    requires CompressesTo(stretches, loan, edges, i)
    requires stretches == [] || stretches[|stretches| - 1].rate != RateAt(loan, edges[i])
    requires next == CloseLast(stretches, edges[i] - 1) + [RateStretch(edges[i], None, RateAt(loan, edges[i]))]
    ensures CompressesTo(next, loan, edges, i + 1)
  {
    hide RateAt, AnyEdge, CloseLast;
    forall k, m | 0 <= k < |next| && next[k].Holds(m) && (i + 1 < |edges| ==> m < edges[i + 1])
      ensures next[k].rate == RateAt(loan, m)
    {
      if k == |next| - 1 {
        SteadyFrom(loan, edges, i, m);
      } else {
        ClosedHolds(stretches, loan, edges, i, k, m);
      }
    }
  }

  lemma {:induction false} NothingYet(loan: LoanInput, edges: seq<int>)
    ensures CompressesTo([], loan, edges, 0)
  {
  }

  lemma {:induction false} AllEdgesDone(stretches: seq<RateStretch>, loan: LoanInput, edges: seq<int>)
    requires |edges| >= 1 && CompressesTo(stretches, loan, edges, |edges|)
    ensures Compresses(stretches, loan, edges[0])
  {
    hide RateAt;
  }

  method RateStretches(loan: LoanInput, from: Number) returns (stretches: seq<RateStretch>)
    ensures Compresses(stretches, loan, FirstMonth(from))
    ensures StartsFrom(stretches, from)
  {
    hide AnyEdge, CompressesTo;
    var first := FirstMonth(from);
    FirstMonthSays(from);
    var baseRate := BaseRateOf(loan);
    var periods := PeriodsOf(loan.ratePeriods);
    var edges := EdgesOf(periods, first);
    forall m
      ensures m in edges <==> AnyEdge(UsablePeriods(loan.ratePeriods), first, m)
    {
      SortKeepsPeriods(UsablePeriods(loan.ratePeriods), first, m);
    }
    stretches := [];
    NothingYet(loan, edges);
    for i := 0 to |edges|
      invariant CompressesTo(stretches, loan, edges, i)
    {
      ghost var before := stretches;
      var start := edges[i];
      var rate := RateIn(start, baseRate, periods);
      SortedCovering(UsablePeriods(loan.ratePeriods), start);
      if |stretches| > 0 && stretches[|stretches| - 1].rate == rate {
        SameRateAdvances(before, loan, edges, i);
        continue;
      }
      stretches := CloseLast(stretches, start - 1) + [RateStretch(start, None, rate)];
      NewRateAdvances(before, loan, edges, i, stretches);
    }
    AllEdgesDone(stretches, loan, edges);
  }
}
