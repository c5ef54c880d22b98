/**
 * Exactly what each key of an account's state accepts, what it makes of it, and what it reads from
 * a stored text (shared/accountState.ts), told by the fields of the JSON.
 */
module AccountStateRules {
  import opened Basics
  import opened AccountState

  /** The setup steps, in the wizard's order. */
  const STEPS := ["welcome", "space", "account", "import", "subscriptions", "done"]

  predicate IsTourIdText(id: string) {
    1 <= |id| <= 40 && Letter(id[0]) && forall c :: c in id ==> LetterDigitOrHyphen(c)
  }

  predicate Letter(c: char) {
    c in "abcdefghijklmnopqrstuvwxyz"
  }

  predicate LetterDigitOrHyphen(c: char) {
    Letter(c) || c in "0123456789-"
  }

  lemma {:induction false} LetterSays(c: char)
    ensures Letter(c) <==> 'a' <= c <= 'z'
  {
  }

  lemma {:induction false} CharSays(c: char)
    ensures LetterDigitOrHyphen(c) <==> 'a' <= c <= 'z' || '0' <= c <= '9' || c == '-'
  {
    LetterSays(c);
    hide Letter;
  }

  lemma {:induction false} TourIdSays(id: string)
    ensures IsTourId(id) <==> IsTourIdText(id)
  {
    hide Letter, LetterDigitOrHyphen;
    if id != "" {
      LetterSays(id[0]);
    }
    forall i | 0 <= i < |id|
      ensures id[i] in id
      ensures LetterDigitOrHyphen(id[i]) <==> 'a' <= id[i] <= 'z' || '0' <= id[i] <= '9' || id[i] == '-'
    {
      CharSays(id[i]);
    }
  }

  lemma {:induction false} StepSays(name: string)
    ensures StepNamed(name).Some? <==> name in STEPS
    ensures forall step :: StepNamed(name) == Some(step) <==> name == STEPS[Rank(Some(step))]
  {
    forall step
      ensures StepNamed(name) == Some(step) <==> name == STEPS[Rank(Some(step))]
    {
      StepIs(name, step);
    }
  }

  lemma {:induction false} StepIs(name: string, step: Step)
    ensures StepNamed(name) == Some(step) <==> name == STEPS[Rank(Some(step))]
  {
  }

  // ---- Lists of tours ----

  /** The tour ids of the list, each once, in the order they first come. */
  ghost predicate FirstMentions(seen: seq<string>, items: seq<Json>) {
    && Once(seen)
    && (forall id :: id in seen <==> IsTourIdText(id) && Text(id) in items)
    && forall i, j, k :: 0 <= i < j < |seen| && 0 <= k < |items| && items[k] == Text(seen[j]) ==>
         Text(seen[i]) in items[..k]
  }

  function Texts(ids: seq<string>): (items: seq<Json>)
    ensures |items| == |ids|
  {
    seq(|ids|, i requires 0 <= i < |ids| => Text(ids[i]))
  }

  lemma {:induction false} OneMoreTour(items: seq<Json>, item: Json)
    ensures TourIds(items + [item])
            == TourIds(items) + (if item.Text? && IsTourId(item.text) then [item.text] else [])
  {
    assert (items + [item])[..|items|] == items;
  }

  lemma {:induction false} OneMoreUnique(texts: seq<string>, last: string)
    ensures Unique(texts + [last]) == Unique(texts) + (if last in texts then [] else [last])
  {
    assert (texts + [last])[..|texts|] == texts;
  }

  lemma {:induction false} MentionsMore(seen: seq<string>, items: seq<Json>, item: Json)
    requires FirstMentions(seen, items)
    ensures var isNew := item.Text? && IsTourIdText(item.text) && item.text !in seen;
            FirstMentions(seen + (if isNew then [item.text] else []), items + [item])
  {
    hide IsTourIdText;
    var all := items + [item];
    var more := seen + (if item.Text? && IsTourIdText(item.text) && item.text !in seen then [item.text] else []);
    forall id
      ensures id in more <==> IsTourIdText(id) && Text(id) in all
    {
      assert Text(id) in all <==> Text(id) in items || item == Text(id);
    }
    forall i, j, k | 0 <= i < j < |more| && 0 <= k < |all| && all[k] == Text(more[j])
      ensures Text(more[i]) in all[..k]
    {
      if k < |items| {
        assert items[k] == Text(more[j]) && Text(more[j]) in items && IsTourIdText(more[j]);
        assert j < |seen|;
        assert all[..k] == items[..k];
      } else {
        assert all[..k] == items;
        assert more[i] in seen;
      }
    }
  }

  lemma {:induction false} KeptMentions(kept: seq<string>)
    requires Once(kept) && forall i :: 0 <= i < |kept| ==> IsTourId(kept[i])
    ensures FirstMentions(Unique(kept), Texts(kept))
  {
    hide IsTourId, IsTourIdText, Unique;
    UniqueOfOnce(kept);
    forall i | 0 <= i < |kept|
      ensures IsTourIdText(kept[i])
    {
      TourIdSays(kept[i]);
    }
    forall id
      ensures id in kept <==> IsTourIdText(id) && Text(id) in Texts(kept)
    {
      if id in kept {
        var i :| 0 <= i < |kept| && kept[i] == id;
        assert Texts(kept)[i] == Text(id);
      }
    }
    forall i, j, k | 0 <= i < j < |kept| && 0 <= k < |kept| && Texts(kept)[k] == Text(kept[j])
      ensures Text(kept[i]) in Texts(kept)[..k]
    {
      assert k == j && Texts(kept)[..k][i] == Text(kept[i]);
    }
  }

  /** The list of all that was kept and then all that comes. */
  lemma {:induction false} MentionsOn(kept: seq<string>, items: seq<Json>)
    requires Once(kept) && forall i :: 0 <= i < |kept| ==> IsTourId(kept[i])
    ensures FirstMentions(Unique(kept + TourIds(items)), Texts(kept) + items)
    decreases |items|
  {
    hide *;
    if items == [] {
      KeptMentions(kept);
      NoTours();
      assert kept + [] == kept && Texts(kept) + [] == Texts(kept);
    } else {
      var n := |items| - 1;
      var front, item := items[..n], items[n];
      var ids := TourIds(front);
      MentionsOn(kept, front);
      MentionsMore(Unique(kept + ids), Texts(kept) + front, item);
      assert items == front + [item] && Texts(kept) + items == Texts(kept) + front + [item];
      OneMoreTour(front, item);
      UniqueOnce(kept + ids);
      if item.Text? && IsTourId(item.text) {
        TourIdSays(item.text);
        OneMoreUnique(kept + ids, item.text);
        assert kept + (ids + [item.text]) == kept + ids + [item.text];
      } else {
        if item.Text? {
          TourIdSays(item.text);
        }
        assert ids + [] == ids;
        assert Unique(kept + ids) + [] == Unique(kept + ids);
      }
    }
  }

  lemma {:induction false} NoTours()
    ensures TourIds([]) == []
  {
  }

  lemma {:induction false} UniqueMentions(items: seq<Json>)
    ensures FirstMentions(Unique(TourIds(items)), items)
  {
    hide FirstMentions, TourIds, Unique;
    MentionsOn([], items);
    assert [] + TourIds(items) == TourIds(items) && Texts([]) + items == items;
  }

  lemma {:induction false} UniqueTwice(a: seq<string>, b: seq<string>)
    ensures Unique(a + Unique(b)) == Unique(a + b)
    decreases |b|
  {
    if b == [] {
    } else {
      var front, last := b[..|b| - 1], b[|b| - 1];
      UniqueTwice(a, front);
      hide *;
      assert b == front + [last] && a + b == a + front + [last];
      OneMoreUnique(front, last);
      UniqueWith(a, front, last, Unique(front));
    }
  }

  lemma {:induction false} UniqueWith(a: seq<string>, front: seq<string>, last: string, once: seq<string>)
    requires Unique(a + once) == Unique(a + front) && once == Unique(front)
    ensures Unique(a + (once + (if last in front then [] else [last]))) == Unique(a + front + [last])
  {
    UniqueOnce(front);
    hide *;
    OneMoreUnique(a + front, last);
    if last in front {
      assert a + (once + []) == a + once;
      assert Unique(a + front) + [] == Unique(a + front);
    } else {
      OneMoreUnique(a + once, last);
      assert a + (once + [last]) == a + once + [last];
    }
  }

  /** A merged list is the one of all that was stored and then all that was sent. */
  lemma {:induction false} MergedMentions(kept: seq<string>, items: seq<Json>)
    requires Once(kept) && forall i :: 0 <= i < |kept| ==> IsTourId(kept[i])
    ensures FirstMentions(Unique(kept + Unique(TourIds(items))), Texts(kept) + items)
  {
    hide *;
    UniqueTwice(kept, TourIds(items));
    MentionsOn(kept, items);
  }

  // ---- What is read ----

  predicate TwoDigits(text: string) {
    |text| == 2 && text[0] in "0123456789" && text[1] in "0123456789"
  }

  predicate TimeParts(text: string, century: string, year: string, month: string, day: string, hour: string,
                      minute: string, second: string)
  {
    && text == century + year + "-" + month + "-" + day + " " + hour + ":" + minute + ":" + second
    && TwoDigits(century) && TwoDigits(year) && TwoDigits(month) && TwoDigits(day)
    && TwoDigits(hour) && TwoDigits(minute) && TwoDigits(second)
  }

  /** Digits where YYYY-MM-DD HH:MM:SS has letters. */
  ghost predicate TimeText(text: string) {
    exists century, year, month, day, hour, minute, second ::
      TimeParts(text, century, year, month, day, hour, minute, second)
  }

  lemma {:induction false} PairSays(text: string, i: nat)
    requires i + 2 <= |text|
    ensures TwoDigits(text[i..i + 2]) <==> '0' <= text[i] <= '9' && '0' <= text[i + 1] <= '9'
  {
    assert text[i..i + 2][0] == text[i] && text[i..i + 2][1] == text[i + 1];
  }

  lemma {:induction false} TimeSays(text: string)
    ensures IsTime(text) <==> TimeText(text)
  {
    hide TwoDigits;
    if IsTime(text) {
      PairSays(text, 0);
      PairSays(text, 2);
      PairSays(text, 5);
      PairSays(text, 8);
      PairSays(text, 11);
      PairSays(text, 14);
      PairSays(text, 17);
      assert TimeParts(text, text[0..2], text[2..4], text[5..7], text[8..10], text[11..13], text[14..16], text[17..19]);
    }
    if TimeText(text) {
      var century, year, month, day, hour, minute, second :|
        TimeParts(text, century, year, month, day, hour, minute, second);
      PartsAreTime(text, century, year, month, day, hour, minute, second);
    }
  }

  lemma {:induction false} PairDigits(pair: string)
    ensures TwoDigits(pair) ==> |pair| == 2 && '0' <= pair[0] <= '9' && '0' <= pair[1] <= '9'
  {
  }

  lemma {:induction false} PartsAreTime(text: string, century: string, year: string, month: string, day: string,
                                        hour: string, minute: string, second: string)
    requires TimeParts(text, century, year, month, day, hour, minute, second)
    ensures IsTime(text)
  {
    PairDigits(century);
    PairDigits(year);
    PairDigits(month);
    PairDigits(day);
    PairDigits(hour);
    PairDigits(minute);
    PairDigits(second);
    hide TwoDigits;
  }

  ghost predicate IsTimeOrNull(json: Json) {
    json.Null? || (json.Text? && TimeText(json.text))
  }

  lemma {:induction false} TimeOrNullSays(json: Json)
    ensures IsTimeOrNull(json) <==> json.Null? || (json.Text? && IsTime(json.text))
  {
    if json.Text? {
      TimeSays(json.text);
    }
  }

  function TimeIn(json: Json): Option<string> {
    if json.Text? then Some(json.text) else None
  }

  /**
   * A tours row is read when it holds a list, and gives its well-formed ids. A card's row is read
   * when it says true or false.
   */
  lemma {:induction false} ListAndCardRead(codec: Codec, row: string)
    ensures var parsed := codec.parse(row);
            && var record := Read(codec, ToursKey, Some(row));
               if parsed.Some? && parsed.value.Object? && "seen" in parsed.value.fields
                  && parsed.value.fields["seen"].List?
               then record.Some? && record.value.Tours?
                    && FirstMentions(record.value.seen, parsed.value.fields["seen"].items)
               else record == None
    ensures var parsed := codec.parse(row);
            && var record := Read(codec, GettingStartedKey, Some(row));
               if parsed.Some? && parsed.value.Object? && "hidden" in parsed.value.fields
                  && parsed.value.fields["hidden"].Bool?
               then record == Some(GettingStarted(parsed.value.fields["hidden"].value))
               else record == None
  {
    var parsed := codec.parse(row);
    if parsed.Some? && parsed.value.Object? && "seen" in parsed.value.fields && parsed.value.fields["seen"].List? {
      UniqueMentions(parsed.value.fields["seen"].items);
    }
    hide FirstMentions, Unique, TourIds;
  }

  lemma {:induction false} TimeRead(fields: map<string, Json>, name: string)
    ensures ReadTime(Field(fields, name))
            == if name in fields && IsTimeOrNull(fields[name]) then Some(TimeIn(fields[name])) else None
  {
    if name in fields {
      TimeOrNullSays(fields[name]);
    }
    hide IsTime, IsTimeOrNull;
  }

  lemma {:induction false} StepRead(fields: map<string, Json>)
    ensures var step := ReadStep(Field(fields, "step"));
            && (step.Some? <==> "step" in fields && fields["step"].Text? && fields["step"].text in STEPS)
            && (step.Some? ==> fields["step"] == Text(STEPS[Rank(step)]))
  {
    if "step" in fields && fields["step"].Text? {
      StepSays(fields["step"].text);
    }
    hide StepNamed, Rank;
  }

  /** The outcome a field names, one a client cannot send included. */
  function OutcomeIn(fields: map<string, Json>): Option<Outcome> {
    if "outcome" !in fields then None
    else if fields["outcome"] == Text("completed") then Some(Completed)
    else if fields["outcome"] == Text("skipped") then Some(Skipped)
    else if fields["outcome"] == Text("existing") then Some(Existing)
    else None
  }

  lemma {:induction false} OutcomeRead(fields: map<string, Json>)
    ensures ReadOutcome(Field(fields, "outcome")) == OutcomeIn(fields)
  {
  }

  lemma {:induction false} FieldsRead(codec: Codec, row: string)
    ensures var parsed := codec.parse(row);
            Read(codec, OnboardingKey, Some(row))
            == if parsed.None? || !parsed.value.Object? then None
               else
                 var fields := parsed.value.fields;
                 var started, finished := ReadTime(Field(fields, "started_at")), ReadTime(Field(fields, "finished_at"));
                 if started.None? || finished.None?
                    || (finished.value.None? && Field(fields, "outcome") != Some(Null)) then None
                 else Some(Onboarding(ReadStep(Field(fields, "step")), started.value, finished.value,
                                      ReadOutcome(Field(fields, "outcome"))))
  {
    hide ReadTime, ReadStep, ReadOutcome, Field;
  }

  /**
   * A wizard's row is read when both its times are times or null, and without a finish time its
   * outcome is null too. A step or an outcome this build does not know reads as none.
   */
  lemma {:induction false} WizardRead(codec: Codec, row: string)
    ensures var parsed, record := codec.parse(row), Read(codec, OnboardingKey, Some(row));
            if parsed.Some? && parsed.value.Object?
               && var fields := parsed.value.fields;
                  && "started_at" in fields && IsTimeOrNull(fields["started_at"])
                  && "finished_at" in fields && IsTimeOrNull(fields["finished_at"])
                  && (fields["finished_at"].Null? ==> "outcome" in fields && fields["outcome"].Null?)
            then
              var fields := parsed.value.fields;
              && record.Some? && record.value.Onboarding?
              && record.value.startedAt == TimeIn(fields["started_at"])
              && record.value.finishedAt == TimeIn(fields["finished_at"])
              && (record.value.step.Some? <==> "step" in fields && fields["step"].Text? && fields["step"].text in STEPS)
              && (record.value.step.Some? ==> fields["step"] == Text(STEPS[Rank(record.value.step)]))
              && record.value.outcome == OutcomeIn(fields)
            else record == None
  {
    var parsed := codec.parse(row);
    FieldsRead(codec, row);
    if parsed.Some? && parsed.value.Object? {
      TimeRead(parsed.value.fields, "started_at");
      TimeRead(parsed.value.fields, "finished_at");
      StepRead(parsed.value.fields);
      OutcomeRead(parsed.value.fields);
    }
    hide Read, ReadTime, ReadStep, ReadOutcome, OutcomeIn, Rank, IsTimeOrNull;
  }

  // ---- What is written ----

  /** A merged value is stored when it fits, and changes the row unless it prints as what is read. */
  function Settled(codec: Codec, current: Option<Record>, value: Record): Write {
    if codec.bytes(Printed(codec, value)) > 1024 then Rejected({"value"})
    else Stored(value, current.None? || Printed(codec, value) != Printed(codec, current.value))
  }

  /** A row that is there and cannot be read refuses every write; any other row takes an object only. */
  lemma {:induction false} WritesNeed(codec: Codec, key: Key, body: Json, row: Option<string>, now: Time)
    ensures var write, current := ApplyWrite(codec, key, body, row, now), Read(codec, key, row);
            && (write.Unreadable? <==> row.Some? && current.None?)
            && (!write.Unreadable? && !body.Object? ==> write == Rejected({"body"}))
  {
    hide Read, Merge;
  }

  predicate SendsTours(fields: map<string, Json>) {
    && "seen" in fields && fields["seen"].List?
    && forall i :: 0 <= i < |fields["seen"].items| ==>
         fields["seen"].items[i].Text? && IsTourIdText(fields["seen"].items[i].text)
  }

  lemma {:induction false} SendsToursSays(fields: map<string, Json>)
    ensures SendsTours(fields) <==> "seen" in fields && fields["seen"].List? && OnlyTourIds(fields["seen"].items)
  {
    hide IsTourId, IsTourIdText;
    if "seen" in fields && fields["seen"].List? {
      forall i | 0 <= i < |fields["seen"].items| && fields["seen"].items[i].Text?
        ensures IsTourId(fields["seen"].items[i].text) <==> IsTourIdText(fields["seen"].items[i].text)
      {
        TourIdSays(fields["seen"].items[i].text);
      }
    }
  }

  /** The tours kept, and after them those sent; a reset keeps none. */
  ghost predicate ToursMerge(value: Record, fields: map<string, Json>, current: Option<Record>)
    requires "seen" in fields && fields["seen"].List? && (current.Some? ==> current.value.Tours?)
  {
    var resets := "reset" in fields && fields["reset"] == Bool(true);
    var kept := if resets || current.None? then [] else current.value.seen;
    value.Tours? && FirstMentions(value.seen, Texts(kept) + fields["seen"].items)
  }

  /**
   * Tours are written when `seen` is a list of tour ids, empty or not, and `reset` is true, false
   * or left out; the refusal names each of the two that is not so.
   */
  lemma {:induction false} ToursWritten(codec: Codec, fields: map<string, Json>, row: Option<string>, now: Time)
    ensures var write, current := ApplyWrite(codec, ToursKey, Object(fields), row, now), Read(codec, ToursKey, row);
            var badReset := "reset" in fields && !fields["reset"].Bool?;
            if row.Some? && current.None? then write == Unreadable
            else if !SendsTours(fields) || badReset
            then write == Rejected((if SendsTours(fields) then {} else {"seen"}) + (if badReset then {"reset"} else {}))
            else exists value ::
                   ToursMerge(value, fields, current) && write == Settled(codec, current, value)
  {
    var current := Read(codec, ToursKey, row);
    ReadIsReadable(codec, ToursKey, row);
    SendsToursSays(fields);
    hide Read, FirstMentions, Unique, TourIds, IsTourId, OnlyTourIds, SendsTours, Printed;
    if SendsTours(fields) && !("reset" in fields && !fields["reset"].Bool?) {
      var resets := "reset" in fields && fields["reset"] == Bool(true);
      var kept := if resets || current.None? then [] else current.value.seen;
      var value := Tours(Unique(kept + Unique(TourIds(fields["seen"].items))));
      MergedMentions(kept, fields["seen"].items);
      assert MergeTours(fields, current) == Accepted(value);
      assert ToursMerge(value, fields, current);
    }
  }

  /** The card is written when `hidden` is true or false, and once hidden stays hidden. */
  lemma {:induction false} CardWritten(codec: Codec, fields: map<string, Json>, row: Option<string>, now: Time)
    ensures var write := ApplyWrite(codec, GettingStartedKey, Object(fields), row, now);
            var current := Read(codec, GettingStartedKey, row);
            if row.Some? && current.None? then write == Unreadable
            else if !("hidden" in fields && fields["hidden"].Bool?) then write == Rejected({"hidden"})
            else
              var was := current.Some? && current.value.hidden;
              write == Settled(codec, current, GettingStarted(fields["hidden"].value || was))
  {
    hide Read, Printed;
  }

  function SentRank(fields: map<string, Json>): int {
    if "step" in fields && fields["step"].Text? then RankIn(fields["step"].text, STEPS) else -1
  }

  /** Where the name stands in the list, -1 when it does not. */
  function RankIn(name: string, names: seq<string>): int {
    if names == [] then -1
    else if names[|names| - 1] == name then |names| - 1
    else RankIn(name, names[..|names| - 1])
  }

  /** A finished record as it was; else the furthest step, stamped at its first and its deciding write. */
  ghost predicate WizardMerge(value: Record, fields: map<string, Json>, current: Option<Record>, now: Time)
    requires current.Some? ==> current.value.Onboarding?
  {
    if current.Some? && current.value.finishedAt.Some? then value == current.value
    else
      && value.Onboarding?
      && Rank(value.step) == MaxInt(if current.Some? then Rank(current.value.step) else -1, SentRank(fields))
      && value.startedAt == (if current.Some? then current.value.startedAt else Some(now))
      && value.finishedAt == (if "outcome" in fields then Some(now) else None)
      && value.outcome == (if "outcome" !in fields then None
                           else if fields["outcome"] == Text("completed") then Some(Completed) else Some(Skipped))
  }

  lemma {:induction false} RankSays(name: string, step: Step)
    requires name == STEPS[Rank(Some(step))]
    ensures RankIn(name, STEPS) == Rank(Some(step))
  {
    RankUnfolds(name);
  }

  lemma {:induction false} RankUnfolds(name: string)
    ensures RankIn(name, STEPS)
            == if name == "done" then 5 else if name == "subscriptions" then 4 else if name == "import" then 3
               else if name == "account" then 2 else if name == "space" then 1 else if name == "welcome" then 0 else -1
  {
    var five, four, three, two, one := STEPS[..5], STEPS[..4], STEPS[..3], STEPS[..2], STEPS[..1];
    assert five[..4] == four && four[..3] == three && three[..2] == two && two[..1] == one && one[..0] == [];
    assert RankIn(name, one) == if name == "welcome" then 0 else -1;
    assert RankIn(name, two) == if name == "space" then 1 else RankIn(name, one);
    assert RankIn(name, three) == if name == "account" then 2 else RankIn(name, two);
    assert RankIn(name, four) == if name == "import" then 3 else RankIn(name, three);
    assert RankIn(name, five) == if name == "subscriptions" then 4 else RankIn(name, four);
  }

  lemma {:induction false} FurthestRank(a: Option<Step>, b: Option<Step>)
    ensures Rank(FurthestStep(a, b)) == MaxInt(Rank(a), Rank(b))
  {
  }

  /**
   * The wizard's record is written when it is sent a step it knows, or `completed` or `skipped`, or
   * both; the refusal names each that is sent and is not so.
   */
  lemma {:induction false} WizardWritten(codec: Codec, fields: map<string, Json>, row: Option<string>, now: Time)
    ensures var write := ApplyWrite(codec, OnboardingKey, Object(fields), row, now);
            var current := Read(codec, OnboardingKey, row);
            var badStep := "step" in fields && !(fields["step"].Text? && fields["step"].text in STEPS);
            var badOutcome := "outcome" in fields && fields["outcome"] !in [Text("completed"), Text("skipped")];
            if row.Some? && current.None? then write == Unreadable
            else if "step" !in fields && "outcome" !in fields then write == Rejected({"onboarding"})
            else if badStep || badOutcome
            then write == Rejected((if badStep then {"step"} else {}) + (if badOutcome then {"outcome"} else {}))
            else exists value :: WizardMerge(value, fields, current, now) && write == Settled(codec, current, value)
  {
    var current := Read(codec, OnboardingKey, row);
    StepRead(fields);
    OutcomeRead(fields);
    WizardMerges(fields, current, now);
    hide Read, Printed, Rank, ReadStep, ReadOutcome, RankIn, WizardMerge, FurthestStep;
  }

  lemma {:induction false} WizardMerges(fields: map<string, Json>, current: Option<Record>, now: Time)
    requires current.Some? ==> current.value.Onboarding?
    ensures var merged := MergeOnboarding(fields, current, now);
            merged.Accepted? ==> WizardMerge(merged.value, fields, current, now)
  {
    var sent := ReadStep(Field(fields, "step"));
    StepRead(fields);
    OutcomeRead(fields);
    if sent.Some? {
      RankSays(fields["step"].text, sent.value);
    }
    FurthestRank(if current.Some? then current.value.step else None, sent);
    NoRank();
    hide Rank, ReadStep, ReadOutcome, RankIn, FurthestStep;
  }

  lemma {:induction false} NoRank()
    ensures Rank(None) == -1
  {
  }
}
