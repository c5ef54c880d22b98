/**
 * Writes to one key of an account's state by any number of tabs and devices at once
 * (shared/accountState.ts, worker/src/routes/account-state.ts): each request reads the row, merges,
 * and stores only over the row it read.
 */
module AccountStateWrites {
  import opened Basics
  import opened AccountState
  import opened AccountStateRules

  const WRITE_ATTEMPTS := 3

  // ---- One write ----

  /** What no later value undoes. */
  ghost predicate Ahead(a: Record, b: Record) {
    match a
    case Onboarding(step, startedAt, finishedAt, _) =>
      && b.Onboarding?
      && b.startedAt == startedAt
      && Rank(step) <= Rank(b.step)
      && (finishedAt.Some? ==> b == a)
    case Tours(seen) => b.Tours? && seen <= b.seen
    case GettingStarted(hidden) => b.GettingStarted? && (hidden ==> b.hidden)
  }

  predicate Resets(body: Json) {
    body.Object? && Field(body.fields, "reset") == Some(Bool(true))
  }

  /** A request that takes nothing away: any but a reset of the tours. */
  predicate Adds(key: Key, body: Json) {
    key.ToursKey? ==> !Resets(body)
  }

  predicate SendsTour(body: Json, id: string) {
    && body.Object?
    && "seen" in body.fields && body.fields["seen"].List?
    && Text(id) in body.fields["seen"].items
  }

  predicate SendsHidden(body: Json) {
    body.Object? && Field(body.fields, "hidden") == Some(Bool(true))
  }

  function StepSent(body: Json): Option<Step> {
    if body.Object? then ReadStep(Field(body.fields, "step")) else None
  }

  function OutcomeSent(body: Json): Option<Outcome> {
    if body.Object? then ReadOutcome(Field(body.fields, "outcome")) else None
  }

  /** The value holds what the body sent. */
  ghost predicate Holds(record: Record, body: Json) {
    && body.Object?
    && match record
       case Onboarding(step, _, finishedAt, _) =>
         || finishedAt.Some?
         || ("outcome" !in body.fields && Rank(StepSent(body)) <= Rank(step))
       case Tours(seen) => forall id :: SendsTour(body, id) ==> id in seen
       case GettingStarted(hidden) =>
         SendsHidden(body) ==> hidden
  }

  /** A record is started by the server's time of its first write, and finished by that of the write that decides. */
  ghost predicate Stamped(record: Record, current: Option<Record>, now: Time) {
    record.Onboarding? ==>
      && (current.None? ==> record.startedAt == Some(now))
      && (record.finishedAt.Some? && !(current.Some? && Finished(current.value)) ==> record.finishedAt == Some(now))
  }

  lemma {:induction false} TourIdsAll(items: seq<Json>, id: string)
    requires OnlyTourIds(items) && Text(id) in items
    ensures id in TourIds(items)
  {
    hide IsTourId;
    var n := |items| - 1;
    if items[n] != Text(id) {
      assert items == items[..n] + [items[n]];
      TourIdsAll(items[..n], id);
    }
  }

  lemma {:induction false} ToursMerged(body: map<string, Json>, current: Option<Record>)
    requires current.Some? ==> current.value.Tours? && Readable(current.value)
    requires MergeTours(body, current).Accepted?
    ensures Readable(MergeTours(body, current).value) && Holds(MergeTours(body, current).value, Object(body))
    ensures current.Some? && !Resets(Object(body)) ==> Ahead(current.value, MergeTours(body, current).value)
  {
    hide IsTourId;
    var items := body["seen"].items;
    var sent := Unique(TourIds(items));
    TourIdsAreIds(items);
    UniqueOnce(TourIds(items));
    AllTourIds(TourIds(items));
    var kept := if Field(body, "reset") == Some(Bool(true)) || current.None? then [] else current.value.seen;
    UniqueOnce(kept + sent);
    AllTourIds(kept + sent);
    UniqueOfOnce(kept);
    UniqueGrows(kept, sent);
    hide Unique;
    forall id | Text(id) in items
      ensures id in Unique(kept + sent)
    {
      TourIdsAll(items, id);
      assert id in sent;
    }
  }

  /** A merge gives a readable value that holds what was sent and undoes nothing. */
  lemma {:induction false} Merged(key: Key, body: map<string, Json>, current: Option<Record>, now: Time)
    requires current.Some? ==> IsOf(current.value, key) && Readable(current.value)
    requires Merge(key, body, current, now).Accepted?
    ensures var value := Merge(key, body, current, now).value;
            && IsOf(value, key) && Readable(value) && Holds(value, Object(body)) && Stamped(value, current, now)
            && (current.Some? && Adds(key, Object(body)) ==> Ahead(current.value, value))
  {
    if key.ToursKey? {
      ToursMerged(body, current);
    }
  }

  /** What one row may become: nothing that was read is undone, and what cannot be read stays as it is. */
  ghost predicate RowAhead(codec: Codec, key: Key, before: Option<string>, after: Option<string>) {
    before.Some? ==>
      var a, b := Read(codec, key, before), Read(codec, key, after);
      if a.None? then after == before
      else
        && b.Some? && Ahead(a.value, b.value)
        && (Finished(a.value) ==> after == before)
  }

  lemma {:induction false} RowAheadOnwards(codec: Codec, key: Key, a: Option<string>, b: Option<string>,
                                           c: Option<string>)
    requires RowAhead(codec, key, a, b) && RowAhead(codec, key, b, c)
    ensures RowAhead(codec, key, a, c)
  {
    hide ReadJson;
  }

  lemma {:induction false} RowStays(codec: Codec, key: Key, row: Option<string>)
    ensures RowAhead(codec, key, row, row)
  {
    hide Read;
  }

  /** What a write answers is what the row then holds. */
  lemma {:induction false} WriteHolds(codec: Codec, key: Key, body: Json, row: Option<string>, now: Time)
    requires ReadsBack(codec) && ApplyWrite(codec, key, body, row, now).Stored?
    ensures var write := ApplyWrite(codec, key, body, row, now);
            var after := RowAfter(codec, write, row);
            && after.Some? && Read(codec, key, after) == Some(write.value)
            && Holds(write.value, body) && Stamped(write.value, Read(codec, key, row), now)
            && (write.changed ==> codec.bytes(after.value) <= MAX_BYTES)
            && (Adds(key, body) ==> RowAhead(codec, key, row, after))
  {
    var current := Read(codec, key, row);
    var value := ApplyWrite(codec, key, body, row, now).value;
    ReadIsReadable(codec, key, row);
    Merged(key, body.fields, current, now);
    PrintedReads(codec, key, value);
    if current.Some? {
      PrintedReads(codec, key, current.value);
    }
    hide ReadsBack, Readable, Merge, Read, Printed, Holds, IsOf, Stamped;
  }

  // ---- Requests at once ----

  datatype Phase =
    | Reading(attempt: nat)
    | Writing(attempt: nat, read: Option<string>, next: Record)
    | Answered(record: Record)
    | BadRequest(fields: set<string>)
    | Conflict
    | Unavailable

  datatype Request = Request(body: Json, phase: Phase)

  datatype State = State(row: Option<string>, requests: seq<Request>)

  /** One request takes its next step, at a time of the server. */
  datatype Turn = Turn(request: nat, now: Time)

  /** The row as read, merged with the body. */
  function AfterReading(codec: Codec, key: Key, body: Json, attempt: nat, row: Option<string>, now: Time): Phase {
    var write := ApplyWrite(codec, key, body, row, now);
    match write
    case Unreadable => Conflict
    case Rejected(fields) => BadRequest(fields)
    case Stored(value, changed) => if changed then Writing(attempt, row, value) else Answered(value)
  }

  function Next(codec: Codec, key: Key, state: State, turn: Turn): State {
    if turn.request >= |state.requests| then state
    else
      var request := state.requests[turn.request];
      match request.phase
      case Reading(attempt) =>
        var phase := AfterReading(codec, key, request.body, attempt, state.row, turn.now);
        state.(requests := state.requests[turn.request := request.(phase := phase)])
      case Writing(attempt, read, next) =>
        if state.row == read then
          State(Some(Printed(codec, next)), state.requests[turn.request := request.(phase := Answered(next))])
        else
          var phase := if attempt + 1 < WRITE_ATTEMPTS then Reading(attempt + 1) else Unavailable;
          state.(requests := state.requests[turn.request := request.(phase := phase)])
      case _ => state
  }

  function Run(codec: Codec, key: Key, state: State, turns: seq<Turn>): State {
    if turns == [] then state
    else Next(codec, key, Run(codec, key, state, turns[..|turns| - 1]), turns[|turns| - 1])
  }

  /** Requests that have all just come in. */
  ghost predicate Starts(state: State) {
    forall k :: 0 <= k < |state.requests| ==> state.requests[k].phase == Reading(0)
  }

  ghost predicate AllAdd(key: Key, state: State) {
    forall k :: 0 <= k < |state.requests| ==> Adds(key, state.requests[k].body)
  }

  /** The write a request is about to make is one an undisturbed request would make over the row it read. */
  ghost predicate Prepared(codec: Codec, key: Key, body: Json, read: Option<string>, next: Record) {
    exists now: Time :: ApplyWrite(codec, key, body, read, now) == Stored(next, true)
  }

  /** An answered value holds what was sent, and the row has not gone back on it. */
  ghost predicate Kept(codec: Codec, key: Key, body: Json, record: Record, row: Option<string>) {
    && row.Some?
    && Read(codec, key, row).Some?
    && Holds(record, body)
    && Ahead(record, Read(codec, key, row).value)
  }

  ghost predicate AllPrepared(codec: Codec, key: Key, state: State) {
    forall k :: 0 <= k < |state.requests| && state.requests[k].phase.Writing? ==>
      Prepared(codec, key, state.requests[k].body, state.requests[k].phase.read, state.requests[k].phase.next)
  }

  ghost predicate AllKept(codec: Codec, key: Key, state: State) {
    forall k :: 0 <= k < |state.requests| && state.requests[k].phase.Answered? ==>
      Kept(codec, key, state.requests[k].body, state.requests[k].phase.record, state.row)
  }

  lemma {:induction false} AheadOnwards(a: Record, b: Record, c: Record)
    requires Ahead(a, b) && Ahead(b, c)
    ensures Ahead(a, c)
  {
  }

  lemma {:induction false} AheadOfItself(a: Record)
    ensures Ahead(a, a)
  {
  }

  lemma {:induction false} KeptOnwards(codec: Codec, key: Key, body: Json, record: Record,
                                      row: Option<string>, after: Option<string>)
    requires Kept(codec, key, body, record, row) && RowAhead(codec, key, row, after)
    ensures Kept(codec, key, body, record, after)
  {
    AheadOnwards(record, Read(codec, key, row).value, Read(codec, key, after).value);
    hide Ahead, Holds, ReadJson;
  }

  // ---- What every interleaving keeps ----

  lemma {:induction false} SameBodies(codec: Codec, key: Key, state: State, turn: Turn)
    ensures |Next(codec, key, state, turn).requests| == |state.requests|
    ensures forall k :: 0 <= k < |state.requests| ==>
              Next(codec, key, state, turn).requests[k].body == state.requests[k].body
    ensures forall k :: 0 <= k < |state.requests| && k != turn.request ==>
              Next(codec, key, state, turn).requests[k] == state.requests[k]
  {
    hide AfterReading, Printed;
  }

  lemma {:induction false} TurnPrepared(codec: Codec, key: Key, state: State, turn: Turn)
    requires AllPrepared(codec, key, state)
    ensures AllPrepared(codec, key, Next(codec, key, state, turn))
  {
    hide ApplyWrite, Printed;
  }

  /** The turn stores: the row still holds what its request read. */
  ghost predicate Stores(state: State, turn: Turn) {
    && turn.request < |state.requests|
    && state.requests[turn.request].phase.Writing?
    && state.row == state.requests[turn.request].phase.read
  }

  /** A request that stores makes of the row what its write alone would have made of it. */
  lemma {:induction false} StoresAlone(codec: Codec, key: Key, state: State, turn: Turn) returns (now: Time)
    requires AllPrepared(codec, key, state) && Stores(state, turn)
    ensures var request := state.requests[turn.request];
            var write := ApplyWrite(codec, key, request.body, state.row, now);
            && write == Stored(request.phase.next, true)
            && Next(codec, key, state, turn).row == RowAfter(codec, write, state.row)
            && Next(codec, key, state, turn).requests[turn.request].phase == Answered(write.value)
  {
    hide AfterReading, ApplyWrite, Printed;
    var request := state.requests[turn.request];
    now :| ApplyWrite(codec, key, request.body, request.phase.read, now) == Stored(request.phase.next, true);
  }

  /** The request whose turn it is: an answer it gets holds what it sent, and the row undoes nothing. */
  lemma {:induction false} TurnAnswers(codec: Codec, key: Key, state: State, turn: Turn)
    requires ReadsBack(codec) && AllPrepared(codec, key, state) && turn.request < |state.requests|
    requires Adds(key, state.requests[turn.request].body)
    ensures var next := Next(codec, key, state, turn);
            var before, after := state.requests[turn.request], next.requests[turn.request];
            && RowAhead(codec, key, state.row, next.row)
            && (after.phase.Answered? && !before.phase.Answered? ==>
                  Kept(codec, key, after.body, after.phase.record, next.row))
  {
    var request := state.requests[turn.request];
    if Stores(state, turn) {
      var now := StoresAlone(codec, key, state, turn);
      WriteHolds(codec, key, request.body, state.row, now);
      AheadOfItself(request.phase.next);
      hide ApplyWrite, AfterReading, Ahead, Holds, Read, Printed, Adds, ReadsBack;
    } else {
      RowStays(codec, key, state.row);
      if request.phase.Reading? {
        var write := ApplyWrite(codec, key, request.body, state.row, turn.now);
        if write.Stored? {
          WriteHolds(codec, key, request.body, state.row, turn.now);
          AheadOfItself(write.value);
        }
      }
      hide ApplyWrite, Ahead, Holds, Read, Printed, Adds, ReadsBack;
    }
  }

  lemma {:induction false} TurnKeeps(codec: Codec, key: Key, state: State, turn: Turn)
    requires ReadsBack(codec) && AllAdd(key, state) && AllPrepared(codec, key, state) && AllKept(codec, key, state)
    ensures var next := Next(codec, key, state, turn);
            && AllAdd(key, next) && AllPrepared(codec, key, next) && AllKept(codec, key, next)
            && RowAhead(codec, key, state.row, next.row)
  {
    TurnPrepared(codec, key, state, turn);
    SameBodies(codec, key, state, turn);
    if turn.request < |state.requests| {
      TurnAnswers(codec, key, state, turn);
      OthersKept(codec, key, state, turn);
    } else {
      RowStays(codec, key, state.row);
    }
    hide *;
  }

  lemma {:induction false} OthersKept(codec: Codec, key: Key, state: State, turn: Turn)
    requires AllKept(codec, key, state) && turn.request < |state.requests|
    requires RowAhead(codec, key, state.row, Next(codec, key, state, turn).row)
    requires var after := Next(codec, key, state, turn).requests;
             |after| == |state.requests| &&
             (after[turn.request].phase.Answered? && !state.requests[turn.request].phase.Answered? ==>
                Kept(codec, key, after[turn.request].body, after[turn.request].phase.record,
                     Next(codec, key, state, turn).row))
    ensures AllKept(codec, key, Next(codec, key, state, turn))
  {
    var next := Next(codec, key, state, turn);
    SameBodies(codec, key, state, turn);
    forall k | 0 <= k < |next.requests| && next.requests[k].phase.Answered?
      ensures Kept(codec, key, next.requests[k].body, next.requests[k].phase.record, next.row)
    {
      if k != turn.request || state.requests[k].phase.Answered? {
        assert next.requests[k] == state.requests[k];
        KeptOnwards(codec, key, state.requests[k].body, state.requests[k].phase.record, state.row, next.row);
      }
    }
  }

  /**
   * However the requests' steps fall between one another, the row never goes back on a value it
   * held, and every value a request was answered holds what it sent and stays held to the end.
   */
  lemma {:induction false} NothingIsUndone(codec: Codec, key: Key, state: State, turns: seq<Turn>)
    requires ReadsBack(codec) && Starts(state) && AllAdd(key, state)
    ensures var end := Run(codec, key, state, turns);
            && RowAhead(codec, key, state.row, end.row)
            && AllAdd(key, end) && AllPrepared(codec, key, end) && AllKept(codec, key, end)
  {
    if turns == [] {
      RowStays(codec, key, state.row);
    } else {
      var n := |turns| - 1;
      NothingIsUndone(codec, key, state, turns[..n]);
      var last := Run(codec, key, state, turns[..n]);
      TurnKeeps(codec, key, last, turns[n]);
      RowAheadOnwards(codec, key, state.row, last.row, Next(codec, key, last, turns[n]).row);
      hide AllAdd, AllPrepared, AllKept, RowAhead, Next, ReadsBack;
    }
  }

  /** From any point of a run to any later one, too. */
  lemma {:induction false} NeverGoesBack(codec: Codec, key: Key, state: State, turns: seq<Turn>, n: nat)
    requires ReadsBack(codec) && Starts(state) && AllAdd(key, state) && n <= |turns|
    ensures RowAhead(codec, key, Run(codec, key, state, turns[..n]).row, Run(codec, key, state, turns).row)
    decreases |turns|
  {
    if n == |turns| {
      assert turns[..n] == turns;
      RowStays(codec, key, Run(codec, key, state, turns).row);
    } else {
      var m := |turns| - 1;
      assert turns[..m][..n] == turns[..n];
      NeverGoesBack(codec, key, state, turns[..m], n);
      NothingIsUndone(codec, key, state, turns[..m]);
      var last := Run(codec, key, state, turns[..m]);
      TurnKeeps(codec, key, last, turns[m]);
      RowAheadOnwards(codec, key, Run(codec, key, state, turns[..n]).row, last.row,
                      Next(codec, key, last, turns[m]).row);
      hide AllAdd, AllPrepared, AllKept, RowAhead, Next, ReadsBack;
    }
  }

  // ---- A run is its writes one after another ----

  datatype Submission = Submission(body: Json, now: Time)

  /** The row after writes made one at a time. */
  function Alone(codec: Codec, key: Key, row: Option<string>, submissions: seq<Submission>): Option<string> {
    if submissions == [] then row
    else
      var n := |submissions| - 1;
      var before := Alone(codec, key, row, submissions[..n]);
      RowAfter(codec, ApplyWrite(codec, key, submissions[n].body, before, submissions[n].now), before)
  }

  function Submitted(requests: seq<Request>, writes: seq<Turn>): seq<Submission>
    requires forall i :: 0 <= i < |writes| ==> writes[i].request < |requests|
  {
    seq(|writes|, i requires 0 <= i < |writes| => Submission(requests[writes[i].request].body, writes[i].now))
  }

  /** The writes of some requests, all answered, no request twice. */
  ghost predicate WritesOf(writes: seq<Turn>, state: State) {
    && (forall i :: 0 <= i < |writes| ==>
          writes[i].request < |state.requests| && state.requests[writes[i].request].phase.Answered?)
    && (forall i, j :: 0 <= i < j < |writes| ==> writes[i].request != writes[j].request)
  }

  ghost predicate SameRequests(a: State, b: State) {
    && |a.requests| == |b.requests|
    && forall k :: 0 <= k < |a.requests| ==> a.requests[k].body == b.requests[k].body
  }

  lemma {:induction false} WritesStay(codec: Codec, key: Key, state: State, turn: Turn, writes: seq<Turn>)
    requires WritesOf(writes, state)
    ensures WritesOf(writes, Next(codec, key, state, turn))
  {
    SameBodies(codec, key, state, turn);
    hide AfterReading, Printed;
  }

  lemma {:induction false} OneMoreAlone(codec: Codec, key: Key, row: Option<string>, submissions: seq<Submission>,
                                        last: Submission)
    ensures var before := Alone(codec, key, row, submissions);
            Alone(codec, key, row, submissions + [last])
            == RowAfter(codec, ApplyWrite(codec, key, last.body, before, last.now), before)
  {
    assert (submissions + [last])[..|submissions|] == submissions;
    hide ApplyWrite, RowAfter;
  }

  /** The run so far, told as writes one after another. */
  ghost predicate Serial(codec: Codec, key: Key, start: State, end: State, writes: seq<Turn>) {
    && AllPrepared(codec, key, end)
    && SameRequests(start, end)
    && WritesOf(writes, end)
    && end.row == Alone(codec, key, start.row, Submitted(start.requests, writes))
  }

  lemma {:induction false} WriteAdded(state: State, turn: Turn, writes: seq<Turn>, next: State, now: Time)
    requires WritesOf(writes, state) && WritesOf(writes, next) && Stores(state, turn) && turn.request < |next.requests|
    requires next.requests[turn.request].phase.Answered?
    ensures WritesOf(writes + [Turn(turn.request, now)], next)
  {
  }

  lemma {:induction false} SubmittedWith(requests: seq<Request>, writes: seq<Turn>, last: Turn)
    requires forall i :: 0 <= i < |writes| ==> writes[i].request < |requests|
    requires last.request < |requests|
    ensures Submitted(requests, writes + [last])
            == Submitted(requests, writes) + [Submission(requests[last.request].body, last.now)]
  {
  }

  lemma {:induction false} TurnIsSerial(codec: Codec, key: Key, start: State, state: State, turn: Turn,
                                        before: seq<Turn>)
    returns (writes: seq<Turn>)
    requires Serial(codec, key, start, state, before)
    ensures Serial(codec, key, start, Next(codec, key, state, turn), writes)
  {
    TurnPrepared(codec, key, state, turn);
    SameBodies(codec, key, state, turn);
    WritesStay(codec, key, state, turn, before);
    if Stores(state, turn) {
      var now := StoresAlone(codec, key, state, turn);
      var body := state.requests[turn.request].body;
      writes := before + [Turn(turn.request, now)];
      WriteAdded(state, turn, before, Next(codec, key, state, turn), now);
      SubmittedWith(start.requests, before, Turn(turn.request, now));
      OneMoreAlone(codec, key, start.row, Submitted(start.requests, before), Submission(body, now));
      hide ApplyWrite, AfterReading, RowAfter, Alone, AllPrepared, Submitted, Printed, Next;
    } else {
      writes := before;
      hide ApplyWrite, AfterReading, RowAfter, Alone, AllPrepared, Submitted, Printed;
    }
  }

  /**
   * However the steps interleave, the row ends as if some of the requests, each at most once and
   * each of them answered, had written one after another undisturbed.
   */
  lemma {:induction false} RunIsSerial(codec: Codec, key: Key, state: State, turns: seq<Turn>)
    returns (writes: seq<Turn>)
    requires Starts(state)
    ensures Serial(codec, key, state, Run(codec, key, state, turns), writes)
  {
    if turns == [] {
      writes := [];
    } else {
      var n := |turns| - 1;
      writes := RunIsSerial(codec, key, state, turns[..n]);
      writes := TurnIsSerial(codec, key, state, Run(codec, key, state, turns[..n]), turns[n], writes);
      hide Serial, Next, Starts;
    }
  }

  // ---- What the row holds ----

  /**
   * What this build stores: within the cap, reading back as it was printed, an onboarding record
   * finished with its outcome.
   */
  ghost predicate Fits(codec: Codec, key: Key, row: Option<string>) {
    row.Some? ==>
      var record := Read(codec, key, row);
      && record.Some?
      && row.value == Printed(codec, record.value)
      && codec.bytes(row.value) <= MAX_BYTES
      && (record.value.Onboarding? ==>
            && record.value.startedAt.Some?
            && (record.value.finishedAt.Some? <==> record.value.outcome.Some?)
            && record.value.outcome != Some(Existing))
  }

  lemma {:induction false} WriteFits(codec: Codec, key: Key, body: Json, row: Option<string>, now: Time)
    requires ReadsBack(codec) && Fits(codec, key, row)
    ensures Fits(codec, key, RowAfter(codec, ApplyWrite(codec, key, body, row, now), row))
  {
    var write := ApplyWrite(codec, key, body, row, now);
    if write.Stored? {
      WriteHolds(codec, key, body, row, now);
      hide Read, Printed, Ahead, Holds, Adds, ReadsBack, ReadTours, MergeTours, MergeGettingStarted;
    }
  }

  /** Everything a row from nothing ever holds fits. */
  lemma {:induction false} AloneFits(codec: Codec, key: Key, submissions: seq<Submission>)
    requires ReadsBack(codec)
    ensures Fits(codec, key, Alone(codec, key, None, submissions))
  {
    if submissions == [] {
    } else {
      hide ReadsBack, Fits;
      var n := |submissions| - 1;
      AloneFits(codec, key, submissions[..n]);
      WriteFits(codec, key, submissions[n].body, Alone(codec, key, None, submissions[..n]), submissions[n].now);
    }
  }

  lemma {:induction false} StoredFits(codec: Codec, key: Key, state: State, turns: seq<Turn>)
    requires ReadsBack(codec) && Starts(state) && state.row.None?
    ensures Fits(codec, key, Run(codec, key, state, turns).row)
  {
    var writes := RunIsSerial(codec, key, state, turns);
    AloneFits(codec, key, Submitted(state.requests, writes));
    hide Fits, ReadsBack, Run, Alone, AllPrepared;
  }

  // ---- Where the row's values come from ----

  /** A record's parts were there at first or were sent by one of the bodies. */
  ghost predicate From(record: Record, first: Option<Record>, bodies: set<Json>) {
    match record
    case Onboarding(step, _, _, outcome) =>
      && (step.None? || (first.Some? && first.value.Onboarding? && first.value.step == step)
          || exists b :: b in bodies && StepSent(b) == step)
      && (outcome.None? || (first.Some? && first.value.Onboarding? && first.value.outcome == outcome)
          || exists b :: b in bodies && OutcomeSent(b) == outcome)
    case Tours(seen) =>
      forall id :: id in seen ==>
        (first.Some? && first.value.Tours? && id in first.value.seen) || exists b :: b in bodies && SendsTour(b, id)
    case GettingStarted(hidden) =>
      hidden ==>
        (first.Some? && first.value.GettingStarted? && first.value.hidden) || exists b :: b in bodies && SendsHidden(b)
  }

  lemma {:induction false} TourIdsOnly(items: seq<Json>, id: string)
    requires id in TourIds(items)
    ensures Text(id) in items
  {
    hide IsTourId;
    var n := |items| - 1;
    if items[n] != Text(id) {
      TourIdsOnly(items[..n], id);
    }
  }

  lemma {:induction false} MergedFrom(key: Key, body: Json, current: Option<Record>, now: Time)
    requires current.Some? ==> IsOf(current.value, key) && Readable(current.value)
    requires body.Object? && Merge(key, body.fields, current, now).Accepted?
    ensures From(Merge(key, body.fields, current, now).value, current, {body})
  {
    assert body in {body};
    if key.ToursKey? {
      var items := body.fields["seen"].items;
      var sent := Unique(TourIds(items));
      var kept := if Resets(body) || current.None? then [] else current.value.seen;
      UniqueOnce(TourIds(items));
      UniqueOnce(kept + sent);
      forall id | id in Unique(kept + sent)
        ensures id in kept || SendsTour(body, id)
      {
        if id !in kept {
          TourIdsOnly(items, id);
        }
      }
    }
  }

  /** A reset with a list of tour ids, empty or not, leaves exactly the tours sent with it. */
  lemma {:induction false} ResetReplaces(codec: Codec, fields: map<string, Json>, row: Option<string>, now: Time)
    requires row.Some? ==> Read(codec, ToursKey, row).Some?
    requires SendsTours(fields) && Resets(Object(fields))
    ensures var write := ApplyWrite(codec, ToursKey, Object(fields), row, now);
            || write == Rejected({"value"})
            || (write.Stored? && write.value.Tours? && codec.bytes(Printed(codec, write.value)) <= 1024
                && forall id :: id in write.value.seen <==> SendsTour(Object(fields), id))
  {
    ToursWritten(codec, fields, row, now);
    var current := Read(codec, ToursKey, row);
    hide Read, ApplyWrite, Printed, Once;
    var value :|
      ToursMerge(value, fields, current)
      && ApplyWrite(codec, ToursKey, Object(fields), row, now) == Settled(codec, current, value);
    var items := fields["seen"].items;
    assert Texts([]) + items == items;
    hide IsTourIdText, Texts;
    forall id | Text(id) in items
      ensures IsTourIdText(id)
    {
      var i :| 0 <= i < |items| && items[i] == Text(id);
    }
  }

  lemma {:induction false} FromItself(record: Record)
    ensures From(record, Some(record), {})
  {
  }

  lemma {:induction false} FromOnwards(a: Option<Record>, b: Option<Record>, c: Record, some: set<Json>,
                                       more: set<Json>)
    requires b.Some? ==> From(b.value, a, some)
    requires From(c, b, more)
    ensures From(c, a, some + more)
  {
  }

  lemma {:induction false} WriteFrom(codec: Codec, key: Key, body: Json, row: Option<string>, now: Time)
    requires ReadsBack(codec)
    ensures var after := Read(codec, key, RowAfter(codec, ApplyWrite(codec, key, body, row, now), row));
            after.Some? ==> From(after.value, Read(codec, key, row), {body})
  {
    var current := Read(codec, key, row);
    var write := ApplyWrite(codec, key, body, row, now);
    ReadIsReadable(codec, key, row);
    if write.Stored? {
      WriteHolds(codec, key, body, row, now);
      MergedFrom(key, body, current, now);
    } else if current.Some? {
      FromItself(current.value);
      FromMore(current.value, current, {}, {body});
    }
    hide Read, Printed, Ahead, Holds, Adds, ReadsBack, Merge, From;
  }

  lemma {:induction false} FromMore(record: Record, first: Option<Record>, some: set<Json>, all: set<Json>)
    requires From(record, first, some) && some <= all
    ensures From(record, first, all)
  {
  }

  function Bodies(submissions: seq<Submission>): set<Json> {
    set s | s in submissions :: s.body
  }

  lemma {:induction false} AloneFrom(codec: Codec, key: Key, row: Option<string>, submissions: seq<Submission>)
    requires ReadsBack(codec)
    ensures var after := Read(codec, key, Alone(codec, key, row, submissions));
            after.Some? ==> From(after.value, Read(codec, key, row), Bodies(submissions))
  {
    if submissions == [] {
      if Read(codec, key, row).Some? {
        FromItself(Read(codec, key, row).value);
      }
    } else {
      var n := |submissions| - 1;
      var before := Alone(codec, key, row, submissions[..n]);
      AloneFrom(codec, key, row, submissions[..n]);
      WriteFrom(codec, key, submissions[n].body, before, submissions[n].now);
      var after := Read(codec, key, Alone(codec, key, row, submissions));
      if after.Some? {
        FromOnwards(Read(codec, key, row), Read(codec, key, before), after.value,
                    Bodies(submissions[..n]), {submissions[n].body});
        FromMore(after.value, Read(codec, key, row), Bodies(submissions[..n]) + {submissions[n].body},
                 Bodies(submissions));
      }
      hide From, Read, ApplyWrite, ReadsBack;
    }
  }

  // ---- The end of a run, exactly ----

  /** The bodies of the requests that were answered with a value. */
  ghost function Heard(state: State): set<Json> {
    set k | 0 <= k < |state.requests| && state.requests[k].phase.Answered? :: state.requests[k].body
  }

  ghost predicate AllHeldIn(record: Record, heard: set<Json>) {
    match record
    case Onboarding(step, _, finishedAt, _) =>
      finishedAt.None? ==> forall b :: b in heard ==> OutcomeSent(b).None? && Rank(StepSent(b)) <= Rank(step)
    case Tours(seen) => forall b, id :: b in heard && SendsTour(b, id) ==> id in seen
    case GettingStarted(hidden) => forall b :: b in heard && SendsHidden(b) ==> hidden
  }

  /** The row's record is what was there and what was heard, and nothing else. */
  ghost predicate SumsUp(record: Record, first: Option<Record>, heard: set<Json>) {
    && From(record, first, heard)
    && (first.Some? ==> Ahead(first.value, record))
    && AllHeldIn(record, heard)
  }

  lemma {:induction false} SubmittedHeard(start: State, end: State, writes: seq<Turn>)
    requires SameRequests(start, end) && WritesOf(writes, end)
    ensures Bodies(Submitted(start.requests, writes)) <= Heard(end)
  {
    var submissions := Submitted(start.requests, writes);
    forall b | b in Bodies(submissions)
      ensures b in Heard(end)
    {
      var i :| 0 <= i < |submissions| && submissions[i].body == b;
      assert end.requests[writes[i].request].body == b;
    }
  }

  lemma {:induction false} KeptHeard(codec: Codec, key: Key, state: State, b: Json)
    requires AllKept(codec, key, state) && b in Heard(state)
    ensures exists record :: Kept(codec, key, b, record, state.row)
  {
    hide Kept;
    var k :| 0 <= k < |state.requests| && state.requests[k].phase.Answered? && state.requests[k].body == b;
  }

  lemma {:induction false} HeardHeld(codec: Codec, key: Key, b: Json, record: Record, row: Option<string>)
    requires Kept(codec, key, b, record, row)
    ensures var now := Read(codec, key, row).value;
            && (now.Onboarding? && now.finishedAt.None? ==> OutcomeSent(b).None? && Rank(StepSent(b)) <= Rank(now.step))
            && (now.Tours? ==> forall id :: SendsTour(b, id) ==> id in now.seen)
            && (now.GettingStarted? && SendsHidden(b) ==> now.hidden)
  {
    hide Read, SendsTour, SendsHidden, StepSent;
  }

  lemma {:induction false} FirstAhead(codec: Codec, key: Key, before: Option<string>, after: Option<string>)
    requires RowAhead(codec, key, before, after) && Read(codec, key, before).Some?
    ensures Read(codec, key, after).Some? && Ahead(Read(codec, key, before).value, Read(codec, key, after).value)
  {
  }

  lemma {:induction false} AllHeld(codec: Codec, key: Key, row: Option<string>, heard: set<Json>)
    requires Read(codec, key, row).Some?
    requires forall b :: b in heard ==> exists was :: Kept(codec, key, b, was, row)
    ensures AllHeldIn(Read(codec, key, row).value, heard)
  {
    hide Read;
    forall b | b in heard
      ensures AllHeldIn(Read(codec, key, row).value, {b})
    {
      var was :| Kept(codec, key, b, was, row);
      HeardHeld(codec, key, b, was, row);
      hide SendsTour, SendsHidden, StepSent, OutcomeSent, Kept;
    }
    hide SendsTour, SendsHidden, StepSent, OutcomeSent, Kept;
    var record := Read(codec, key, row).value;
    forall b | b in heard
      ensures record.Onboarding? && record.finishedAt.None? ==>
                OutcomeSent(b).None? && Rank(StepSent(b)) <= Rank(record.step)
      ensures record.Tours? ==> forall id :: SendsTour(b, id) ==> id in record.seen
      ensures record.GettingStarted? && SendsHidden(b) ==> record.hidden
    {
      assert AllHeldIn(record, {b}) && b in {b};
    }
  }

  lemma {:induction false} EndFrom(codec: Codec, key: Key, state: State, turns: seq<Turn>)
    requires ReadsBack(codec) && Starts(state) && Read(codec, key, Run(codec, key, state, turns).row).Some?
    ensures var end := Run(codec, key, state, turns);
            From(Read(codec, key, end.row).value, Read(codec, key, state.row), Heard(end))
  {
    var end := Run(codec, key, state, turns);
    var writes := RunIsSerial(codec, key, state, turns);
    AloneFrom(codec, key, state.row, Submitted(state.requests, writes));
    SubmittedHeard(state, end, writes);
    FromMore(Read(codec, key, end.row).value, Read(codec, key, state.row), Bodies(Submitted(state.requests, writes)),
             Heard(end));
    hide From, Read, Run, Alone, Heard, ReadsBack, Bodies, AllPrepared, Starts;
  }

  lemma {:induction false} EndHeld(codec: Codec, key: Key, end: State)
    requires AllKept(codec, key, end) && Read(codec, key, end.row).Some?
    ensures AllHeldIn(Read(codec, key, end.row).value, Heard(end))
  {
    forall b | b in Heard(end)
      ensures exists was :: Kept(codec, key, b, was, end.row)
    {
      KeptHeard(codec, key, end, b);
    }
    AllHeld(codec, key, end.row, Heard(end));
    hide *;
  }

  /**
   * After any interleaving of requests that reset nothing, the row's tours are those it held and
   * those of every answered request, the card is hidden if and only if it was or an answered
   * request hid it, and an unfinished wizard's step is the furthest of those held and heard.
   */
  lemma {:induction false} RowSumsUp(codec: Codec, key: Key, state: State, turns: seq<Turn>)
    requires ReadsBack(codec) && Starts(state) && AllAdd(key, state)
    ensures var end := Run(codec, key, state, turns);
            var record := Read(codec, key, end.row);
            record.Some? ==> SumsUp(record.value, Read(codec, key, state.row), Heard(end))
  {
    NothingIsUndone(codec, key, state, turns);
    var end := Run(codec, key, state, turns);
    if Read(codec, key, end.row).Some? {
      EndFrom(codec, key, state, turns);
      EndHeld(codec, key, end);
      if Read(codec, key, state.row).Some? {
        FirstAhead(codec, key, state.row, end.row);
      }
    }
    hide From, Read, Run, AllHeldIn, Ahead, Heard, ReadsBack, AllKept, AllPrepared, AllAdd, Starts, RowAhead;
  }

  // ---- A request ends ----

  /** The turns a request may still need. */
  function TurnsLeft(phase: Phase): int {
    match phase
    case Reading(attempt) => 2 * (WRITE_ATTEMPTS - attempt)
    case Writing(attempt, _, _) => 2 * (WRITE_ATTEMPTS - attempt) - 1
    case _ => 0
  }

  predicate Over(phase: Phase) {
    !phase.Reading? && !phase.Writing?
  }

  function TurnsOf(turns: seq<Turn>, k: nat): nat {
    if turns == [] then 0
    else TurnsOf(turns[..|turns| - 1], k) + (if turns[|turns| - 1].request == k then 1 else 0)
  }

  lemma {:induction false} TurnShortens(codec: Codec, key: Key, state: State, turn: Turn)
    requires turn.request < |state.requests| && !Over(state.requests[turn.request].phase)
    requires TurnsLeft(state.requests[turn.request].phase) > 0
    ensures var phase := Next(codec, key, state, turn).requests[turn.request].phase;
            Over(phase) || 0 < TurnsLeft(phase) < TurnsLeft(state.requests[turn.request].phase)
  {
    hide ApplyWrite, Printed;
  }

  lemma {:induction false} OverStays(codec: Codec, key: Key, state: State, turn: Turn)
    requires turn.request < |state.requests| && Over(state.requests[turn.request].phase)
    ensures Next(codec, key, state, turn) == state
  {
  }

  /** Whatever the other requests do, six turns of its own end a request. */
  lemma {:induction false} RequestEnds(codec: Codec, key: Key, state: State, turns: seq<Turn>, k: nat)
    requires Starts(state) && k < |state.requests|
    ensures var end := Run(codec, key, state, turns);
            && |end.requests| == |state.requests|
            && (Over(end.requests[k].phase) || 0 < TurnsLeft(end.requests[k].phase) <= 6 - TurnsOf(turns, k))
  {
    if turns == [] {
    } else {
      var n := |turns| - 1;
      var last, turn := Run(codec, key, state, turns[..n]), turns[n];
      RequestEnds(codec, key, state, turns[..n], k);
      SameBodies(codec, key, last, turn);
      if turn.request == k {
        if Over(last.requests[k].phase) {
          OverStays(codec, key, last, turn);
        } else {
          TurnShortens(codec, key, last, turn);
        }
      }
      hide Next, Over, TurnsLeft, Starts;
    }
  }

  // ---- When a request gives up ----

  /** Another request stored in the first m turns, after the last of them that was request k's own. */
  ghost predicate StoredSince(codec: Codec, key: Key, state: State, turns: seq<Turn>, k: nat, m: nat)
    requires m <= |turns|
  {
    exists l: nat :: StoredAt(codec, key, state, turns, k, l, m)
  }

  ghost predicate StoredAt(codec: Codec, key: Key, state: State, turns: seq<Turn>, k: nat, l: nat, m: nat)
    requires m <= |turns|
  {
    && l < m && turns[l].request != k
    && Stores(Run(codec, key, state, turns[..l]), turns[l])
    && forall i :: l < i < m ==> turns[i].request != k
  }

  /** At turn j request k comes to write, and another request has stored since it read. */
  ghost predicate Overtaken(codec: Codec, key: Key, state: State, turns: seq<Turn>, k: nat, j: nat) {
    && j < |turns| && turns[j].request == k
    && StoredSince(codec, key, state, turns, k, j)
    && var before := Run(codec, key, state, turns[..j]);
       k < |before.requests| && before.requests[k].phase.Writing?
  }

  ghost predicate AllOvertaken(codec: Codec, key: Key, state: State, turns: seq<Turn>, k: nat, lost: seq<nat>) {
    && (forall i, j :: 0 <= i < j < |lost| ==> lost[i] < lost[j])
    && (forall i :: 0 <= i < |lost| ==> Overtaken(codec, key, state, turns, k, lost[i]))
  }

  lemma {:induction false} StoredLonger(codec: Codec, key: Key, state: State, turns: seq<Turn>, k: nat, n: nat, m: nat)
    requires m <= n <= |turns|
    ensures StoredSince(codec, key, state, turns[..n], k, m) ==> StoredSince(codec, key, state, turns, k, m)
  {
    hide Run, Stores;
    if StoredSince(codec, key, state, turns[..n], k, m) {
      var l: nat :| StoredAt(codec, key, state, turns[..n], k, l, m);
      assert turns[..n][..l] == turns[..l];
      assert StoredAt(codec, key, state, turns, k, l, m);
    }
  }

  lemma {:induction false} OvertakenLonger(codec: Codec, key: Key, state: State, turns: seq<Turn>, k: nat, n: nat,
                                           lost: seq<nat>)
    requires n <= |turns| && AllOvertaken(codec, key, state, turns[..n], k, lost)
    ensures AllOvertaken(codec, key, state, turns, k, lost)
  {
    hide Run, StoredSince;
    forall i | 0 <= i < |lost|
      ensures Overtaken(codec, key, state, turns, k, lost[i])
    {
      assert Overtaken(codec, key, state, turns[..n], k, lost[i]);
      StoredLonger(codec, key, state, turns, k, n, lost[i]);
      assert turns[..n][..lost[i]] == turns[..lost[i]];
    }
  }

  /** What a request's phase says of the attempts it has lost. */
  ghost predicate Counted(codec: Codec, key: Key, state: State, turns: seq<Turn>, k: nat, phase: Phase,
                          row: Option<string>, lost: nat)
  {
    match phase
    case Reading(attempt) => lost == attempt < WRITE_ATTEMPTS
    case Writing(attempt, read, _) =>
      lost == attempt < WRITE_ATTEMPTS && (row == read || StoredSince(codec, key, state, turns, k, |turns|))
    case Unavailable => lost == WRITE_ATTEMPTS
    case _ => true
  }

  /**
   * A request is given up as unavailable only after three attempts, in each of which another
   * request stored between its read and its write.
   */
  lemma {:induction false} LosesToOthers(codec: Codec, key: Key, state: State, turns: seq<Turn>, k: nat)
    returns (lost: seq<nat>)
    requires Starts(state) && k < |state.requests|
    ensures var end := Run(codec, key, state, turns);
            && |end.requests| == |state.requests|
            && AllOvertaken(codec, key, state, turns, k, lost)
            && (forall i :: 0 <= i < |lost| ==> lost[i] < |turns|)
            && Counted(codec, key, state, turns, k, end.requests[k].phase, end.row, |lost|)
            && (end.requests[k].phase.Unavailable? ==> |lost| == WRITE_ATTEMPTS)
  {
    if turns == [] {
      lost := [];
    } else {
      var n := |turns| - 1;
      var last, turn := Run(codec, key, state, turns[..n]), turns[n];
      lost := LosesToOthers(codec, key, state, turns[..n], k);
      OvertakenLonger(codec, key, state, turns, k, n, lost);
      StoredLonger(codec, key, state, turns, k, n, n);
      SameBodies(codec, key, last, turn);
      if turn.request == k {
        lost := OwnTurn(codec, key, state, turns, k, lost);
      } else {
        OthersTurn(codec, key, state, turns, k, |lost|);
      }
      hide Run, AllOvertaken, StoredSince;
    }
  }

  lemma {:induction false} OwnTurn(codec: Codec, key: Key, state: State, turns: seq<Turn>, k: nat, before: seq<nat>)
    returns (lost: seq<nat>)
    requires turns != [] && turns[|turns| - 1].request == k
    requires AllOvertaken(codec, key, state, turns, k, before)
    requires forall i :: 0 <= i < |before| ==> before[i] < |turns| - 1
    requires var last := Run(codec, key, state, turns[..|turns| - 1]);
             && k < |last.requests|
             && Counted(codec, key, state, turns[..|turns| - 1], k, last.requests[k].phase, last.row, |before|)
    ensures var end := Run(codec, key, state, turns);
            && |end.requests| == |Run(codec, key, state, turns[..|turns| - 1]).requests|
            && AllOvertaken(codec, key, state, turns, k, lost)
            && (forall i :: 0 <= i < |lost| ==> lost[i] < |turns|)
            && Counted(codec, key, state, turns, k, end.requests[k].phase, end.row, |lost|)
  {
    hide ApplyWrite, Printed, StoredSince, Run, Next, AfterReading;
    var n := |turns| - 1;
    var last := Run(codec, key, state, turns[..n]);
    StoredLonger(codec, key, state, turns, k, n, n);
    assert |turns[..n]| == n;
    var phase := last.requests[k].phase;
    lost := if phase.Writing? && last.row != phase.read then before + [n] else before;
    if phase.Writing? && last.row != phase.read {
      assert Overtaken(codec, key, state, turns, k, n);
    }
    OwnPhase(codec, key, state, turns, k, |before|);
  }

  lemma {:induction false} LastTurn(codec: Codec, key: Key, state: State, turns: seq<Turn>)
    requires turns != []
    ensures var n := |turns| - 1;
            Run(codec, key, state, turns) == Next(codec, key, Run(codec, key, state, turns[..n]), turns[n])
  {
    hide Next;
  }

  lemma {:induction false} OwnPhase(codec: Codec, key: Key, state: State, turns: seq<Turn>, k: nat, before: nat)
    requires turns != [] && turns[|turns| - 1].request == k
    requires var last := Run(codec, key, state, turns[..|turns| - 1]);
             && k < |last.requests|
             && Counted(codec, key, state, turns[..|turns| - 1], k, last.requests[k].phase, last.row, before)
    ensures var last, end := Run(codec, key, state, turns[..|turns| - 1]), Run(codec, key, state, turns);
            var phase := last.requests[k].phase;
            && |end.requests| == |last.requests|
            && Counted(codec, key, state, turns, k, end.requests[k].phase, end.row,
                       if phase.Writing? && last.row != phase.read then before + 1 else before)
  {
    hide ApplyWrite, Printed, StoredSince;
  }

  lemma {:induction false} OthersTurn(codec: Codec, key: Key, state: State, turns: seq<Turn>, k: nat, lost: nat)
    requires turns != [] && turns[|turns| - 1].request != k
    requires var last := Run(codec, key, state, turns[..|turns| - 1]);
             && k < |last.requests|
             && Counted(codec, key, state, turns[..|turns| - 1], k, last.requests[k].phase, last.row, lost)
    ensures var end := Run(codec, key, state, turns);
            && k < |end.requests|
            && Counted(codec, key, state, turns, k, end.requests[k].phase, end.row, lost)
  {
    hide ApplyWrite, Printed, Run, AfterReading;
    var n := |turns| - 1;
    var last := Run(codec, key, state, turns[..n]);
    LastTurn(codec, key, state, turns);
    SameBodies(codec, key, last, turns[n]);
    if Stores(last, turns[n]) {
      assert StoredAt(codec, key, state, turns, k, n, n + 1);
    } else if StoredSince(codec, key, state, turns[..n], k, n) {
      var l: nat :| StoredAt(codec, key, state, turns[..n], k, l, n);
      assert turns[..n][..l] == turns[..l];
      assert StoredAt(codec, key, state, turns, k, l, n + 1);
    }
  }

  // ---- Why a request is refused ----

  /** At the j-th turn request k reads the row, and its write over what it reads is this one. */
  ghost predicate ReadAt(codec: Codec, key: Key, state: State, turns: seq<Turn>, k: nat, j: nat, write: Write) {
    && j < |turns| && turns[j].request == k < |state.requests|
    && ApplyWrite(codec, key, state.requests[k].body, Run(codec, key, state, turns[..j]).row, turns[j].now) == write
  }

  ghost predicate HasRead(codec: Codec, key: Key, state: State, turns: seq<Turn>, k: nat, write: Write) {
    exists j: nat :: ReadAt(codec, key, state, turns, k, j, write)
  }

  lemma {:induction false} HasReadOnwards(codec: Codec, key: Key, state: State, turns: seq<Turn>, k: nat, n: nat,
                                          write: Write)
    requires n <= |turns| && HasRead(codec, key, state, turns[..n], k, write)
    ensures HasRead(codec, key, state, turns, k, write)
  {
    hide ApplyWrite, Run;
    var j: nat :| ReadAt(codec, key, state, turns[..n], k, j, write);
    assert turns[..n][..j] == turns[..j];
    assert ReadAt(codec, key, state, turns, k, j, write);
  }

  lemma {:induction false} RefusedTurn(codec: Codec, key: Key, state: State, turn: Turn, k: nat)
    requires k < |state.requests| && turn.request == k
    ensures var before, after := state.requests[k], Next(codec, key, state, turn).requests[k].phase;
            var write := ApplyWrite(codec, key, before.body, state.row, turn.now);
            && (after.BadRequest? && after != before.phase ==> write == Rejected(after.fields))
            && (after.Conflict? && after != before.phase ==> write == Unreadable)
  {
    hide ApplyWrite, Printed;
  }

  lemma {:induction false} BodiesStay(codec: Codec, key: Key, state: State, turns: seq<Turn>)
    ensures SameRequests(state, Run(codec, key, state, turns))
  {
    hide Next;
    if turns != [] {
      var n := |turns| - 1;
      BodiesStay(codec, key, state, turns[..n]);
      SameBodies(codec, key, Run(codec, key, state, turns[..n]), turns[n]);
    }
  }

  /**
   * A request is refused for its fields only when its write over a row it read was, naming those;
   * and as unreadable only when a row it read was.
   */
  lemma {:induction false} RefusalHasCause(codec: Codec, key: Key, state: State, turns: seq<Turn>, k: nat)
    requires Starts(state) && k < |state.requests|
    ensures |Run(codec, key, state, turns).requests| == |state.requests|
    ensures var phase := Run(codec, key, state, turns).requests[k].phase;
            && (phase.BadRequest? ==> HasRead(codec, key, state, turns, k, Rejected(phase.fields)))
            && (phase.Conflict? ==> HasRead(codec, key, state, turns, k, Unreadable))
  {
    hide ApplyWrite, Next, HasRead;
    if turns != [] {
      var n := |turns| - 1;
      var last, turn := Run(codec, key, state, turns[..n]), turns[n];
      RefusalHasCause(codec, key, state, turns[..n], k);
      BodiesStay(codec, key, state, turns[..n]);
      SameBodies(codec, key, last, turn);
      var before, after := last.requests[k].phase, Next(codec, key, last, turn).requests[k].phase;
      hide Run;
      if after == before {
        CauseStays(codec, key, state, turns, k, after);
      } else {
        RefusedTurn(codec, key, last, turn, k);
        ReadNow(codec, key, state, turns, k);
      }
    }
  }

  lemma {:induction false} CauseStays(codec: Codec, key: Key, state: State, turns: seq<Turn>, k: nat, phase: Phase)
    requires turns != []
    requires phase.BadRequest? ==> HasRead(codec, key, state, turns[..|turns| - 1], k, Rejected(phase.fields))
    requires phase.Conflict? ==> HasRead(codec, key, state, turns[..|turns| - 1], k, Unreadable)
    ensures phase.BadRequest? ==> HasRead(codec, key, state, turns, k, Rejected(phase.fields))
    ensures phase.Conflict? ==> HasRead(codec, key, state, turns, k, Unreadable)
  {
    hide HasRead;
    if phase.BadRequest? {
      HasReadOnwards(codec, key, state, turns, k, |turns| - 1, Rejected(phase.fields));
    } else if phase.Conflict? {
      HasReadOnwards(codec, key, state, turns, k, |turns| - 1, Unreadable);
    }
  }

  lemma {:induction false} ReadNow(codec: Codec, key: Key, state: State, turns: seq<Turn>, k: nat)
    requires turns != [] && turns[|turns| - 1].request == k < |state.requests|
    ensures var n := |turns| - 1;
            var row := Run(codec, key, state, turns[..n]).row;
            HasRead(codec, key, state, turns, k,
                    ApplyWrite(codec, key, state.requests[k].body, row, turns[n].now))
  {
    hide ApplyWrite, Run;
    var n := |turns| - 1;
    var write := ApplyWrite(codec, key, state.requests[k].body, Run(codec, key, state, turns[..n]).row, turns[n].now);
    assert ReadAt(codec, key, state, turns, k, n, write);
  }
}
