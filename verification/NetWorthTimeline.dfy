/**
 * The net worth timeline (shared/netWorthTimeline.ts): one sweep over the balances recorded.
 * Balances are whole cents.
 */
module NetWorthTimeline {
  import opened Basics
  import opened Sorting
  import opened CalendarMonths

  /** A recorded balance. One without a day, or whose balance is not a finite number, counts for nothing. */
  datatype BalanceSnapshot = BalanceSnapshot(account: int, day: Option<Date>, id: int, balance: Option<int>)

  datatype NetWorthPoint = NetWorthPoint(date: Date, netWorth: int)

  predicate Usable(s: BalanceSnapshot) {
    s.day.Some? && s.balance.Some?
  }

  type Snapshot = s: BalanceSnapshot | Usable(s) witness BalanceSnapshot(0, Some(CivilDate(2000, 1, 1)), 0, Some(0))

  function UsableOnly(snapshots: seq<BalanceSnapshot>): seq<Snapshot> {
    if snapshots == [] then []
    else
      var s := snapshots[|snapshots| - 1];
      UsableOnly(snapshots[..|snapshots| - 1]) + (if Usable(s) then [s] else [])
  }

  predicate DayThenId(a: Snapshot, b: Snapshot) {
    Before(a.day.value, b.day.value) || (a.day.value == b.day.value && a.id <= b.id)
  }

  function ByDayThenId(): (Snapshot, Snapshot) -> bool {
    (a: Snapshot, b: Snapshot) => DayThenId(a, b)
  }

  // ---- The figure of a day, without any sweep ----

  function OfAccountBy(account: int, day: Date): Snapshot -> bool {
    (s: Snapshot) => s.account == account && NotAfter(s.day.value, day)
  }

  /** The account's latest snapshot by (day, id) on or before the day. */
  function Latest(snapshots: seq<Snapshot>, account: int, day: Date): Option<Snapshot> {
    BestWhere(snapshots, OfAccountBy(account, day), ByDayThenId())
  }

  ghost predicate Distinct(accounts: seq<int>) {
    forall i, j :: 0 <= i < j < |accounts| ==> accounts[i] != accounts[j]
  }

  ghost function SumLatest(snapshots: seq<Snapshot>, accounts: seq<int>, day: Date): int {
    if accounts == [] then 0
    else
      var n := |accounts| - 1;
      var latest := Latest(snapshots, accounts[n], day);
      SumLatest(snapshots, accounts[..n], day) + (if latest.Some? then latest.value.balance.value else 0)
  }

  /** The sum, over every account seen by the day and no other, of its latest balance. */
  ghost predicate IsNetWorth(snapshots: seq<Snapshot>, point: NetWorthPoint) {
    exists accounts: seq<int> ::
      && Distinct(accounts)
      && (forall a :: a in accounts <==> Latest(snapshots, a, point.date).Some?)
      && point.netWorth == SumLatest(snapshots, accounts, point.date)
  }

  function DaysOf(snapshots: seq<Snapshot>): set<Date> {
    set s | s in snapshots :: s.day.value
  }

  function DatesOf(timeline: seq<NetWorthPoint>): set<Date> {
    set p | p in timeline :: p.date
  }

  ghost predicate OldestFirst(timeline: seq<NetWorthPoint>) {
    forall i, j :: 0 <= i < j < |timeline| ==> Before(timeline[i].date, timeline[j].date)
  }

  ghost predicate AllNetWorth(timeline: seq<NetWorthPoint>, snapshots: seq<Snapshot>) {
    forall i :: 0 <= i < |timeline| ==> IsNetWorth(snapshots, timeline[i])
  }

  /** One point for each day with a snapshot and no other, oldest first, each the day's net worth. */
  ghost predicate IsTimeline(timeline: seq<NetWorthPoint>, snapshots: seq<Snapshot>) {
    && OldestFirst(timeline)
    && AllNetWorth(timeline, snapshots)
    && DatesOf(timeline) == DaysOf(snapshots)
  }

  // ---- The sweep ----

  function OfAccount(account: int): Snapshot -> bool {
    (s: Snapshot) => s.account == account
  }

  /** What the sweep carries after some snapshots: each account met, and its last balance. */
  ghost predicate Carries(latest: map<int, int>, accounts: seq<int>, seen: seq<Snapshot>) {
    && Distinct(accounts)
    && (forall a :: a in accounts <==> a in latest)
    && (forall a :: a in latest <==> LastWhere(seen, OfAccount(a)).Some?)
    && (forall a :: a in latest ==> latest[a] == LastWhere(seen, OfAccount(a)).value.balance.value)
  }

  lemma {:induction false} OneMoreSeen(seen: seq<Snapshot>, s: Snapshot, account: int)
    ensures LastWhere(seen + [s], OfAccount(account))
            == if s.account == account then Some(s) else LastWhere(seen, OfAccount(account))
  {
    assert (seen + [s])[..|seen|] == seen;
  }

  lemma {:induction false} SetCarries(latest: map<int, int>, accounts: seq<int>, seen: seq<Snapshot>, s: Snapshot)
    requires Carries(latest, accounts, seen)
    ensures Carries(latest[s.account := s.balance.value],
                    if s.account in latest then accounts else accounts + [s.account], seen + [s])
  {
    var more := if s.account in latest then accounts else accounts + [s.account];
    assert Distinct(more);
    assert forall a :: a in more <==> a in accounts || a == s.account;
    hide Distinct, LastWhere, OfAccount;
    forall a
      ensures LastWhere(seen + [s], OfAccount(a)) == if s.account == a then Some(s) else LastWhere(seen, OfAccount(a))
    {
      OneMoreSeen(seen, s, a);
    }
  }

  /** All snapshots up to a boundary are on or before the day, and all after it later. */
  ghost predicate DayEnds(sorted: seq<Snapshot>, k: nat, day: Date)
    requires k <= |sorted|
  {
    && (forall i :: 0 <= i < k ==> NotAfter(sorted[i].day.value, day))
    && (forall i :: k <= i < |sorted| ==> Before(day, sorted[i].day.value))
  }

  lemma {:induction false} LastByDay(sorted: seq<Snapshot>, k: nat, day: Date, account: int)
    requires k <= |sorted| && DayEnds(sorted, k, day)
    ensures LastWhere(sorted, OfAccountBy(account, day)) == LastWhere(sorted[..k], OfAccount(account))
    decreases |sorted|
  {
    if sorted == [] {
    } else {
      var n := |sorted| - 1;
      if k <= n {
        LastByDay(sorted[..n], k, day, account);
        assert sorted[..n][..k] == sorted[..k];
      } else {
        assert sorted[..k] == sorted;
        LastByDay(sorted[..n], n, day, account);
        assert sorted[..n][..n] == sorted[..n];
      }
    }
  }

  lemma {:induction false} OrderIsTotal()
    ensures TotalPreorder(ByDayThenId())
  {
  }

  /** Every snapshot with a day and a balance counts, and no other. */
  lemma {:induction false} UsableExactly(snapshots: seq<BalanceSnapshot>, s: BalanceSnapshot)
    ensures s in UsableOnly(snapshots) <==> s in snapshots && s.day.Some? && s.balance.Some?
  {
    if snapshots == [] {
    } else {
      var n := |snapshots| - 1;
      UsableExactly(snapshots[..n], s);
      assert snapshots == snapshots[..n] + [snapshots[n]];
    }
  }

  /** What counts on a day is one of the account's snapshots by then, and none of them is later by day and id. */
  lemma {:induction false} LatestIsLatest(snapshots: seq<BalanceSnapshot>, account: int, day: Date)
    ensures var latest := Latest(UsableOnly(snapshots), account, day);
            latest.Some? ==>
              && latest.value in snapshots && latest.value.account == account && NotAfter(latest.value.day.value, day)
              && forall s :: s in snapshots && s.account == account && s.day.Some? && s.balance.Some?
                             && NotAfter(s.day.value, day) ==>
                   || Before(s.day.value, latest.value.day.value)
                   || (s.day == latest.value.day && s.id <= latest.value.id)
    ensures Latest(UsableOnly(snapshots), account, day).None? ==>
              forall s :: s in snapshots && s.account == account && s.day.Some? && s.balance.Some? ==>
                Before(day, s.day.value)
  {
    OrderIsTotal();
    BestIsBest(UsableOnly(snapshots), OfAccountBy(account, day), ByDayThenId());
    forall s: BalanceSnapshot
      ensures s in UsableOnly(snapshots) <==> s in snapshots && s.day.Some? && s.balance.Some?
    {
      UsableExactly(snapshots, s);
    }
    hide BestWhere, UsableOnly;
  }

  /** No account comes to nothing, and one more adds its latest balance, or nothing before its first. */
  lemma {:induction false} OneMoreAccount(snapshots: seq<BalanceSnapshot>, accounts: seq<int>, account: int, day: Date)
    ensures SumLatest(UsableOnly(snapshots), [], day) == 0
    ensures var latest := Latest(UsableOnly(snapshots), account, day);
            SumLatest(UsableOnly(snapshots), accounts + [account], day)
            == SumLatest(UsableOnly(snapshots), accounts, day)
               + (if latest.Some? then latest.value.balance.value else 0)
  {
    hide UsableOnly, Latest;
    assert (accounts + [account])[..|accounts|] == accounts;
  }

  /** At the end of a day the sweep carries exactly that day's latest balances. */
  lemma {:induction false} CarriesLatest(snapshots: seq<Snapshot>, sorted: seq<Snapshot>, k: nat, day: Date,
                                         account: int)
    requires sorted == StableSort(snapshots, ByDayThenId()) && k <= |sorted| && DayEnds(sorted, k, day)
    ensures LastWhere(sorted[..k], OfAccount(account)) == Latest(snapshots, account, day)
  {
    OrderIsTotal();
    LastByDay(sorted, k, day, account);
    SortedLastIsBest(snapshots, OfAccountBy(account, day), ByDayThenId());
  }

  function SumOf(latest: map<int, int>, accounts: seq<int>): int
    requires forall a :: a in accounts ==> a in latest
  {
    if accounts == [] then 0
    else
      assert forall a :: a in accounts[..|accounts| - 1] ==> a in accounts;
      var account := accounts[|accounts| - 1];
      assert account in accounts;
      SumOf(latest, accounts[..|accounts| - 1]) + latest[account]
  }

  lemma {:induction false} SumsAgree(latest: map<int, int>, accounts: seq<int>, snapshots: seq<Snapshot>, day: Date)
    requires forall a :: a in accounts ==>
               && a in latest && Latest(snapshots, a, day).Some?
               && latest[a] == Latest(snapshots, a, day).value.balance.value
    ensures SumOf(latest, accounts) == SumLatest(snapshots, accounts, day)
  {
    hide Latest;
    if accounts == [] {
    } else {
      SumsAgree(latest, accounts[..|accounts| - 1], snapshots, day);
    }
  }

  lemma {:induction false} PointIsNetWorth(snapshots: seq<Snapshot>, sorted: seq<Snapshot>, k: nat,
                                           latest: map<int, int>, accounts: seq<int>, point: NetWorthPoint)
    requires sorted == StableSort(snapshots, ByDayThenId()) && k <= |sorted| && DayEnds(sorted, k, point.date)
    requires Carries(latest, accounts, sorted[..k]) && point.netWorth == SumOf(latest, accounts)
    ensures IsNetWorth(snapshots, point)
  {
    forall a
      ensures LastWhere(sorted[..k], OfAccount(a)) == Latest(snapshots, a, point.date)
    {
      CarriesLatest(snapshots, sorted, k, point.date, a);
    }
    hide LastWhere, Latest;
    SumsAgree(latest, accounts, snapshots, point.date);
  }

  method TotalOf(latest: map<int, int>, accounts: seq<int>) returns (total: int)
    requires forall a :: a in accounts ==> a in latest
    ensures total == SumOf(latest, accounts)
  {
    total := 0;
    for i := 0 to |accounts|
      invariant total == SumOf(latest, accounts[..i])
    {
      var account := accounts[i];
      assert account in accounts && accounts[..i + 1][..i] == accounts[..i];
      total := total + latest[account];
    }
    assert accounts[..|accounts|] == accounts;
  }

  /** The days whose snapshots are all among the first `k`. */
  function DaysOver(sorted: seq<Snapshot>, k: nat): set<Date>
    requires k <= |sorted|
  {
    DaysOf(sorted[..k]) - (if k < |sorted| then {sorted[k].day.value} else {})
  }

  lemma {:induction false} DayOver(sorted: seq<Snapshot>, k: nat)
    requires k < |sorted| && Sorted(sorted, ByDayThenId())
    requires k + 1 == |sorted| || sorted[k + 1].day != sorted[k].day
    ensures DayEnds(sorted, k + 1, sorted[k].day.value)
  {
    assert forall i :: 0 <= i < k ==> ByDayThenId()(sorted[i], sorted[k]);
    if k + 1 < |sorted| {
      assert ByDayThenId()(sorted[k], sorted[k + 1]);
      assert forall i :: k + 1 < i < |sorted| ==> ByDayThenId()(sorted[k + 1], sorted[i]);
    }
  }

  lemma {:induction false} DaySeen(sorted: seq<Snapshot>, k: nat)
    requires k < |sorted|
    ensures DaysOf(sorted[..k + 1]) == DaysOf(sorted[..k]) + {sorted[k].day.value}
  {
    assert sorted[..k + 1] == sorted[..k] + [sorted[k]];
  }

  lemma {:induction false} EarlierDays(sorted: seq<Snapshot>, k: nat, d: Date)
    requires k < |sorted| && Sorted(sorted, ByDayThenId()) && d in DaysOf(sorted[..k])
    ensures NotAfter(d, sorted[k].day.value)
  {
    var s :| s in sorted[..k] && s.day.value == d;
    var i :| 0 <= i < k && sorted[i] == s;
    assert ByDayThenId()(sorted[i], sorted[k]);
  }

  /** When a day's last snapshot is in, that day is over too, and no day yet to come is among those seen. */
  lemma {:induction false} DayJoins(sorted: seq<Snapshot>, k: nat)
    requires k < |sorted| && Sorted(sorted, ByDayThenId())
    requires k + 1 == |sorted| || sorted[k + 1].day != sorted[k].day
    ensures DaysOver(sorted, k + 1) == DaysOver(sorted, k) + {sorted[k].day.value}
  {
    DaySeen(sorted, k);
    if k + 1 < |sorted| {
      var next := sorted[k + 1].day.value;
      if next in DaysOf(sorted[..k + 1]) {
        assert ByDayThenId()(sorted[k], sorted[k + 1]);
        EarlierDays(sorted, k, next);
        assert false;
      }
    }
  }

  lemma {:induction false} DayGoesOn(sorted: seq<Snapshot>, k: nat)
    requires k + 1 < |sorted| && sorted[k + 1].day == sorted[k].day
    ensures DaysOver(sorted, k + 1) == DaysOver(sorted, k)
  {
    DaySeen(sorted, k);
  }

  lemma {:induction false} DatesWith(timeline: seq<NetWorthPoint>, point: NetWorthPoint)
    ensures DatesOf(timeline + [point]) == DatesOf(timeline) + {point.date}
  {
  }

  lemma {:induction false} LaterPoint(timeline: seq<NetWorthPoint>, sorted: seq<Snapshot>, k: nat, point: NetWorthPoint)
    requires k < |sorted| && Sorted(sorted, ByDayThenId()) && point.date == sorted[k].day.value
    requires OldestFirst(timeline) && DatesOf(timeline) == DaysOver(sorted, k)
    ensures OldestFirst(timeline + [point])
  {
    forall i | 0 <= i < |timeline|
      ensures Before(timeline[i].date, point.date)
    {
      var d := timeline[i].date;
      assert d in DatesOf(timeline);
      EarlierDays(sorted, k, d);
    }
  }

  lemma {:induction false} SameDays(snapshots: seq<Snapshot>, sorted: seq<Snapshot>)
    requires multiset(sorted) == multiset(snapshots)
    ensures DaysOver(sorted, |sorted|) == DaysOf(snapshots)
  {
    assert sorted[..|sorted|] == sorted;
    assert forall s :: s in sorted <==> s in multiset(sorted);
    assert forall s :: s in snapshots <==> s in multiset(snapshots);
  }

  lemma {:induction false} NoPoints(snapshots: seq<Snapshot>, sorted: seq<Snapshot>)
    ensures OldestFirst([]) && AllNetWorth([], snapshots) && DatesOf([]) == DaysOver(sorted, 0)
  {
  }

  lemma {:induction false} WorthWith(timeline: seq<NetWorthPoint>, snapshots: seq<Snapshot>, point: NetWorthPoint)
    requires AllNetWorth(timeline, snapshots) && IsNetWorth(snapshots, point)
    ensures AllNetWorth(timeline + [point], snapshots)
  {
    hide IsNetWorth;
  }

  lemma {:induction false} TimelineIs(timeline: seq<NetWorthPoint>, snapshots: seq<Snapshot>)
    requires OldestFirst(timeline) && AllNetWorth(timeline, snapshots) && DatesOf(timeline) == DaysOf(snapshots)
    ensures IsTimeline(timeline, snapshots)
  {
    hide OldestFirst, AllNetWorth, DatesOf, DaysOf;
  }

  lemma {:induction false} NothingCarried()
    ensures Carries(map[], [], [])
  {
  }

  lemma {:induction false} AllKnown(latest: map<int, int>, accounts: seq<int>, seen: seq<Snapshot>)
    requires Carries(latest, accounts, seen)
    ensures forall a :: a in accounts ==> a in latest
  {
  }

  lemma {:induction false} KeptInOrder(kept: seq<Snapshot>, ordered: seq<Snapshot>)
    requires ordered == StableSort(kept, ByDayThenId())
    ensures Sorted(ordered, ByDayThenId()) && multiset(ordered) == multiset(kept)
  {
    OrderIsTotal();
    SortCorrect(kept, ByDayThenId());
  }

  ghost predicate HasPoint(timeline: seq<NetWorthPoint>, day: Date) {
    exists p :: p in timeline && p.date == day
  }

  ghost predicate Recorded(snapshots: seq<BalanceSnapshot>, day: Date) {
    exists s :: s in snapshots && s.day == Some(day) && s.balance.Some?
  }

  /** There is a point for every day some balance was recorded on, and for no other. */
  ghost predicate OnRecordedDays(timeline: seq<NetWorthPoint>, snapshots: seq<BalanceSnapshot>) {
    forall day: Date :: HasPoint(timeline, day) <==> Recorded(snapshots, day)
  }

  lemma {:induction false} RecordedDays(timeline: seq<NetWorthPoint>, snapshots: seq<BalanceSnapshot>)
    requires DatesOf(timeline) == DaysOf(UsableOnly(snapshots))
    ensures OnRecordedDays(timeline, snapshots)
  {
    hide UsableOnly;
    forall day: Date
      ensures HasPoint(timeline, day) <==> Recorded(snapshots, day)
    {
      assert HasPoint(timeline, day) <==> day in DatesOf(timeline);
      if day in DaysOf(UsableOnly(snapshots)) {
        var s: Snapshot :| s in UsableOnly(snapshots) && s.day.value == day;
        UsableExactly(snapshots, s);
      }
      if s: BalanceSnapshot :| s in snapshots && s.day == Some(day) && s.balance.Some? {
        UsableExactly(snapshots, s);
        assert s in UsableOnly(snapshots);
      }
    }
  }


  method NetWorthTimeline(snapshots: seq<BalanceSnapshot>) returns (timeline: seq<NetWorthPoint>)
    ensures IsTimeline(timeline, UsableOnly(snapshots))
    ensures OnRecordedDays(timeline, snapshots)
  {
    hide UsableOnly, StableSort, Sorted, Carries, OldestFirst, AllNetWorth, IsTimeline, DatesOf, DaysOver, DaysOf;
    hide OnRecordedDays, DayEnds, IsNetWorth, SumOf, LastWhere, ByDayThenId, DayThenId, NotAfter, Before;
    var kept := UsableOnly(snapshots);
    var ordered := StableSort(kept, ByDayThenId());
    KeptInOrder(kept, ordered);
    var latest: map<int, int> := map[];
    var accounts: seq<int> := [];
    timeline := [];
    NothingCarried();
    NoPoints(kept, ordered);
    assert ordered[..0] == [];
    for i := 0 to |ordered|
      invariant Carries(latest, accounts, ordered[..i])
      invariant OldestFirst(timeline) && AllNetWorth(timeline, kept)
      invariant DatesOf(timeline) == DaysOver(ordered, i)
    {
      var snapshot := ordered[i];
      SetCarries(latest, accounts, ordered[..i], snapshot);
      assert ordered[..i + 1] == ordered[..i] + [snapshot];
      accounts := if snapshot.account in latest then accounts else accounts + [snapshot.account];
      latest := latest[snapshot.account := snapshot.balance.value];
      if i + 1 < |ordered| && ordered[i + 1].day == snapshot.day {
        DayGoesOn(ordered, i);
        continue;
      }
      AllKnown(latest, accounts, ordered[..i + 1]);
      var total := TotalOf(latest, accounts);
      var point := NetWorthPoint(snapshot.day.value, total);
      DayOver(ordered, i);
      PointIsNetWorth(kept, ordered, i + 1, latest, accounts, point);
      LaterPoint(timeline, ordered, i, point);
      WorthWith(timeline, kept, point);
      DatesWith(timeline, point);
      DayJoins(ordered, i);
      timeline := timeline + [point];
    }
    SameDays(kept, ordered);
    TimelineIs(timeline, kept);
    RecordedDays(timeline, snapshots);
  }
}
