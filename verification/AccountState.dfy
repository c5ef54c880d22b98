/** What a write to a key of an account's state stores, and how a stored value is read (shared/accountState.ts). */
module AccountState {
  import opened Basics

  /** What a JSON text holds, as far as the readers look. A field that is not in the map is undefined. */
  datatype Json = Null | Bool(value: bool) | Other | Text(text: string) | List(items: seq<Json>)
                | Object(fields: map<string, Json>)

  /** The JSON library: a text it prints reads back as what was printed. `bytes` is a text's length in UTF-8. */
  datatype Codec = Codec(stringify: Json -> string, parse: string -> Option<Json>, bytes: string -> nat)

  ghost predicate ReadsBack(codec: Codec) {
    forall json :: codec.parse(codec.stringify(json)) == Some(json)
  }

  const MAX_BYTES := 1024

  datatype Key = OnboardingKey | ToursKey | GettingStartedKey

  datatype Step = Welcome | Space | Account | Import | Subscriptions | Done

  datatype Outcome = Completed | Skipped | Existing

  /** YYYY-MM-DD HH:MM:SS. */
  predicate IsTime(s: string) {
    && |s| == 19
    && forall i :: 0 <= i < 19 ==>
         if i == 4 || i == 7 then s[i] == '-'
         else if i == 10 then s[i] == ' '
         else if i == 13 || i == 16 then s[i] == ':'
         else '0' <= s[i] <= '9'
  }

  type Time = s: string | IsTime(s) witness "2000-01-01 00:00:00"

  predicate IsTourId(s: string) {
    && 1 <= |s| <= 40
    && 'a' <= s[0] <= 'z'
    && forall i :: 0 < i < |s| ==> 'a' <= s[i] <= 'z' || '0' <= s[i] <= '9' || s[i] == '-'
  }

  /** The value stored under a key. */
  datatype Record =
    | Onboarding(step: Option<Step>, startedAt: Option<Time>, finishedAt: Option<Time>, outcome: Option<Outcome>)
    | Tours(seen: seq<string>)
    | GettingStarted(hidden: bool)

  predicate IsOf(record: Record, key: Key) {
    match key
    case OnboardingKey => record.Onboarding?
    case ToursKey => record.Tours?
    case GettingStartedKey => record.GettingStarted?
  }

  function StepName(step: Step): string {
    match step
    case Welcome => "welcome"
    case Space => "space"
    case Account => "account"
    case Import => "import"
    case Subscriptions => "subscriptions"
    case Done => "done"
  }

  function StepNamed(name: string): Option<Step> {
    if name == "welcome" then Some(Welcome)
    else if name == "space" then Some(Space)
    else if name == "account" then Some(Account)
    else if name == "import" then Some(Import)
    else if name == "subscriptions" then Some(Subscriptions)
    else if name == "done" then Some(Done)
    else None
  }

  function OutcomeName(outcome: Outcome): string {
    match outcome
    case Completed => "completed"
    case Skipped => "skipped"
    case Existing => "existing"
  }

  function OutcomeNamed(name: string): Option<Outcome> {
    if name == "completed" then Some(Completed)
    else if name == "skipped" then Some(Skipped)
    else if name == "existing" then Some(Existing)
    else None
  }

  /** A step's place in the wizard; before all of them when there is none. */
  function Rank(step: Option<Step>): int {
    match step
    case None => -1
    case Some(Welcome) => 0
    case Some(Space) => 1
    case Some(Account) => 2
    case Some(Import) => 3
    case Some(Subscriptions) => 4
    case Some(Done) => 5
  }

  function FurthestStep(a: Option<Step>, b: Option<Step>): Option<Step> {
    if a.None? then b
    else if b.None? then a
    else if Rank(b) > Rank(a) then b
    else a
  }

  // ---- Lenient reading ----

  function Field(fields: map<string, Json>, name: string): Option<Json> {
    if name in fields then Some(fields[name]) else None
  }

  function ReadStep(raw: Option<Json>): Option<Step> {
    if raw.Some? && raw.value.Text? then StepNamed(raw.value.text) else None
  }

  function ReadOutcome(raw: Option<Json>): Option<Outcome> {
    if raw.Some? && raw.value.Text? then OutcomeNamed(raw.value.text) else None
  }

  /** A time or null; None when the field is neither. */
  function ReadTime(raw: Option<Json>): Option<Option<Time>> {
    if raw == Some(Null) then Some(None)
    else if raw.Some? && raw.value.Text? && IsTime(raw.value.text) then Some(Some(raw.value.text))
    else None
  }

  function ReadOnboarding(raw: Json): Option<Record> {
    if !raw.Object? then None
    else
      var startedAt := ReadTime(Field(raw.fields, "started_at"));
      var finishedAt := ReadTime(Field(raw.fields, "finished_at"));
      var outcome := Field(raw.fields, "outcome");
      if startedAt.None? || finishedAt.None? then None
      else if finishedAt.value.None? && outcome != Some(Null) then None
      else
        var step := ReadStep(Field(raw.fields, "step"));
        Some(Onboarding(step, startedAt.value, finishedAt.value, ReadOutcome(outcome)))
  }

  function TourIds(items: seq<Json>): seq<string> {
    if items == [] then []
    else
      var item := items[|items| - 1];
      TourIds(items[..|items| - 1]) + (if item.Text? && IsTourId(item.text) then [item.text] else [])
  }

  /** Each text once, where it first stands. */
  function Unique(texts: seq<string>): seq<string> {
    if texts == [] then []
    else
      var front, last := texts[..|texts| - 1], texts[|texts| - 1];
      Unique(front) + (if last in front then [] else [last])
  }

  function ReadTours(raw: Json): Option<Record> {
    if !raw.Object? then None
    else
      var seen := Field(raw.fields, "seen");
      if seen.None? || !seen.value.List? then None
      else Some(Tours(Unique(TourIds(seen.value.items))))
  }

  function ReadGettingStarted(raw: Json): Option<Record> {
    if !raw.Object? then None
    else
      var hidden := Field(raw.fields, "hidden");
      if hidden.None? || !hidden.value.Bool? then None else Some(GettingStarted(hidden.value.value))
  }

  function ReadJson(key: Key, raw: Json): (record: Option<Record>)
    ensures record.Some? ==> IsOf(record.value, key)
  {
    match key
    case OnboardingKey => ReadOnboarding(raw)
    case ToursKey => ReadTours(raw)
    case GettingStartedKey => ReadGettingStarted(raw)
  }

  /** The value a row holds: None when there is no row, or none this build can read. */
  function Read(codec: Codec, key: Key, row: Option<string>): (record: Option<Record>)
    ensures record.Some? ==> IsOf(record.value, key)
  {
    if row.None? then None
    else
      var parsed := codec.parse(row.value);
      if parsed.None? then None else ReadJson(key, parsed.value)
  }

  // ---- Printing ----

  function TextOrNull(text: Option<string>): Json {
    if text.Some? then Text(text.value) else Null
  }

  function ToJson(record: Record): Json {
    match record
    case Onboarding(step, startedAt, finishedAt, outcome) =>
      Object(map[
               "step" := if step.Some? then Text(StepName(step.value)) else Null,
               "started_at" := TextOrNull(startedAt),
               "finished_at" := TextOrNull(finishedAt),
               "outcome" := if outcome.Some? then Text(OutcomeName(outcome.value)) else Null])
    case Tours(seen) => Object(map["seen" := List(seq(|seen|, i requires 0 <= i < |seen| => Text(seen[i])))])
    case GettingStarted(hidden) => Object(map["hidden" := Bool(hidden)])
  }

  function Printed(codec: Codec, record: Record): string {
    codec.stringify(ToJson(record))
  }

  // ---- Writing ----

  /** A refusal names the fields at fault. */
  datatype Checked = Accepted(value: Record) | Refused(fields: set<string>)

  predicate Finished(record: Record) {
    record.Onboarding? && record.finishedAt.Some?
  }

  function MergeOnboarding(body: map<string, Json>, current: Option<Record>, now: Time): Checked
    requires current.Some? ==> current.value.Onboarding?
  {
    var hasStep, hasOutcome := "step" in body, "outcome" in body;
    var step, outcome := ReadStep(Field(body, "step")), ReadOutcome(Field(body, "outcome"));
    if !hasStep && !hasOutcome then Refused({"onboarding"})
    else
      var badStep := hasStep && step.None?;
      var badOutcome := hasOutcome && (outcome.None? || outcome == Some(Existing));
      if badStep || badOutcome then
        Refused((if badStep then {"step"} else {}) + (if badOutcome then {"outcome"} else {}))
      else if current.Some? && Finished(current.value) then Accepted(current.value)
      else
        Accepted(Onboarding(
                   FurthestStep(if current.Some? then current.value.step else None, step),
                   if current.Some? then current.value.startedAt else Some(now),
                   if outcome.Some? then Some(now) else None,
                   outcome))
  }

  predicate OnlyTourIds(items: seq<Json>) {
    forall i :: 0 <= i < |items| ==> items[i].Text? && IsTourId(items[i].text)
  }

  function MergeTours(body: map<string, Json>, current: Option<Record>): Checked
    requires current.Some? ==> current.value.Tours?
  {
    var seen, reset := Field(body, "seen"), Field(body, "reset");
    var badSeen := !(seen.Some? && seen.value.List? && OnlyTourIds(seen.value.items));
    var badReset := reset.Some? && !reset.value.Bool?;
    if badSeen || badReset then
      Refused((if badSeen then {"seen"} else {}) + (if badReset then {"reset"} else {}))
    else
      var sent := Unique(TourIds(seen.value.items));
      var kept := if reset == Some(Bool(true)) || current.None? then [] else current.value.seen;
      Accepted(Tours(Unique(kept + sent)))
  }

  function MergeGettingStarted(body: map<string, Json>, current: Option<Record>): Checked
    requires current.Some? ==> current.value.GettingStarted?
  {
    var card := ReadGettingStarted(Object(body));
    if card.None? then Refused({"hidden"})
    else Accepted(GettingStarted(card.value.hidden || (current.Some? && current.value.hidden)))
  }

  function Merge(key: Key, body: map<string, Json>, current: Option<Record>, now: Time): Checked
    requires current.Some? ==> IsOf(current.value, key)
  {
    match key
    case OnboardingKey => MergeOnboarding(body, current, now)
    case ToursKey => MergeTours(body, current)
    case GettingStartedKey => MergeGettingStarted(body, current)
  }

  /** The value to store, or why not. */
  function CheckWrite(codec: Codec, key: Key, body: Json, current: Option<Record>, now: Time): Checked
    requires current.Some? ==> IsOf(current.value, key)
  {
    if !body.Object? then Refused({"body"})
    else
      var checked := Merge(key, body.fields, current, now);
      if checked.Accepted? && codec.bytes(Printed(codec, checked.value)) > MAX_BYTES then Refused({"value"})
      else checked
  }

  datatype Write = Stored(value: Record, changed: bool) | Rejected(fields: set<string>) | Unreadable

  /** What a write does to the row, given its stored text. */
  function ApplyWrite(codec: Codec, key: Key, body: Json, row: Option<string>, now: Time): Write {
    var current := Read(codec, key, row);
    if row.Some? && current.None? then Unreadable
    else
      var checked := CheckWrite(codec, key, body, current, now);
      if checked.Refused? then Rejected(checked.fields)
      else
        var changed := current.None? || Printed(codec, checked.value) != Printed(codec, current.value);
        Stored(checked.value, changed)
  }

  /** The row after the write. */
  function RowAfter(codec: Codec, write: Write, row: Option<string>): Option<string> {
    if write.Stored? && write.changed then Some(Printed(codec, write.value)) else row
  }

  // ---- What a reader can give, and what reads back ----

  ghost predicate Once(texts: seq<string>) {
    forall i, j :: 0 <= i < j < |texts| ==> texts[i] != texts[j]
  }

  ghost predicate Readable(record: Record) {
    match record
    case Onboarding(_, _, finishedAt, outcome) => outcome.Some? ==> finishedAt.Some?
    case Tours(seen) => Once(seen) && forall i :: 0 <= i < |seen| ==> IsTourId(seen[i])
    case GettingStarted(_) => true
  }

  lemma {:induction false} UniqueOnce(texts: seq<string>)
    ensures Once(Unique(texts))
    ensures forall t :: t in Unique(texts) <==> t in texts
  {
    if texts == [] {
    } else {
      var front := texts[..|texts| - 1];
      UniqueOnce(front);
      assert texts == front + [texts[|texts| - 1]];
    }
  }

  lemma {:induction false} UniqueOfOnce(texts: seq<string>)
    requires Once(texts)
    ensures Unique(texts) == texts
  {
    if texts == [] {
    } else {
      UniqueOfOnce(texts[..|texts| - 1]);
      assert texts[|texts| - 1] !in texts[..|texts| - 1];
      assert texts == texts[..|texts| - 1] + [texts[|texts| - 1]];
      assert Unique(texts) == Unique(texts[..|texts| - 1]) + [texts[|texts| - 1]];
    }
  }

  /** What is already listed keeps its place. */
  lemma {:induction false} UniqueGrows(a: seq<string>, b: seq<string>)
    ensures Unique(a) <= Unique(a + b)
    decreases |b|
  {
    if b == [] {
      assert a + b == a;
    } else {
      var n := |b| - 1;
      UniqueGrows(a, b[..n]);
      assert (a + b)[..|a + b| - 1] == a + b[..n];
    }
  }

  lemma {:induction false} TourIdsAreIds(items: seq<Json>)
    ensures forall i :: 0 <= i < |TourIds(items)| ==> IsTourId(TourIds(items)[i])
  {
    hide IsTourId;
    if items == [] {
    } else {
      TourIdsAreIds(items[..|items| - 1]);
    }
  }

  lemma {:induction false} TourIdsBack(seen: seq<string>, items: seq<Json>)
    requires forall i :: 0 <= i < |seen| ==> IsTourId(seen[i])
    requires |items| == |seen| && forall i :: 0 <= i < |seen| ==> items[i] == Text(seen[i])
    ensures TourIds(items) == seen
  {
    hide IsTourId;
    if seen == [] {
    } else {
      var n := |seen| - 1;
      TourIdsBack(seen[..n], items[..n]);
      assert seen == seen[..n] + [seen[n]];
    }
  }

  lemma {:induction false} AllTourIds(texts: seq<string>)
    requires forall i :: 0 <= i < |texts| ==> IsTourId(texts[i])
    ensures forall i :: 0 <= i < |Unique(texts)| ==> IsTourId(Unique(texts)[i])
  {
    hide IsTourId;
    UniqueOnce(texts);
    hide Unique;
    forall i | 0 <= i < |Unique(texts)|
      ensures IsTourId(Unique(texts)[i])
    {
      assert Unique(texts)[i] in texts;
    }
  }

  lemma {:induction false} ReadIsReadable(codec: Codec, key: Key, row: Option<string>)
    ensures Read(codec, key, row).Some? ==> Readable(Read(codec, key, row).value)
  {
    var record := Read(codec, key, row);
    if record.Some? && key.ToursKey? {
      var items := codec.parse(row.value).value.fields["seen"].items;
      TourIdsAreIds(items);
      UniqueOnce(TourIds(items));
      AllTourIds(TourIds(items));
    }
  }

  lemma {:induction false} NamesRead(step: Step, outcome: Outcome)
    ensures StepNamed(StepName(step)) == Some(step) && OutcomeNamed(OutcomeName(outcome)) == Some(outcome)
  {
  }

  lemma {:induction false} OnboardingReads(record: Record)
    requires record.Onboarding? && Readable(record)
    ensures ReadOnboarding(ToJson(record)) == Some(record)
  {
    NamesRead(record.step.GetOr(Welcome), record.outcome.GetOr(Skipped));
    hide StepNamed, StepName, OutcomeNamed, OutcomeName, IsTime;
  }

  lemma {:induction false} ToursRead(record: Record)
    requires record.Tours? && Readable(record)
    ensures ReadTours(ToJson(record)) == Some(record)
  {
    hide IsTourId;
    TourIdsBack(record.seen, ToJson(record).fields["seen"].items);
    UniqueOfOnce(record.seen);
  }

  /** A readable value printed and read again is that value. */
  lemma {:induction false} PrintedReads(codec: Codec, key: Key, record: Record)
    requires ReadsBack(codec) && IsOf(record, key) && Readable(record)
    ensures Read(codec, key, Some(Printed(codec, record))) == Some(record)
  {
    assert codec.parse(codec.stringify(ToJson(record))) == Some(ToJson(record));
    match record {
      case Onboarding(_, _, _, _) => OnboardingReads(record);
      case Tours(_) => ToursRead(record);
      case GettingStarted(_) =>
    }
    hide ReadOnboarding, ReadTours, Readable;
  }
}
