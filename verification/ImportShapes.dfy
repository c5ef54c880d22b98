/**
 * Which money texts read as an amount, and as which (shared/importNumber.ts), told by the
 * characters of the text.
 */
module ImportShapes {
  import opened Basics
  import opened Sorting
  import opened Text
  import opened ImportNumber

  // ---- Whole parts ----

  /** One to three digits, then groups of a separator and three digits: counted from the end. */
  predicate InGroups(text: string, separators: set<char>) {
    && |text| % 4 != 0
    && forall i :: 0 <= i < |text| ==> if (|text| - i) % 4 == 0 then text[i] in separators else IsDigit(text[i])
  }

  predicate WholeText(text: string, separators: set<char>) {
    AllDigits(text) || InGroups(text, separators)
  }

  function Digits(text: string): string {
    Where(text, IsDigit)
  }

  lemma {:induction false} LastGroup(text: string, separators: set<char>)
    requires |text| >= 4
    ensures InGroups(text, separators) <==>
            && InGroups(text[..|text| - 4], separators)
            && text[|text| - 4] in separators && AllDigits(text[|text| - 3..])
  {
    var front, n := text[..|text| - 4], |text|;
    forall i | 0 <= i < |front|
      ensures front[i] == text[i] && (|front| - i) % 4 == (n - i) % 4
    {
    }
    if InGroups(text, separators) {
      var last := text[n - 3..];
      forall i | 0 <= i < |last|
        ensures IsDigit(last[i])
      {
        assert last[i] == text[n - 3 + i];
      }
    }
    if InGroups(front, separators) && text[n - 4] in separators && AllDigits(text[n - 3..]) {
      forall i | 0 <= i < n
        ensures if (n - i) % 4 == 0 then text[i] in separators else IsDigit(text[i])
      {
        if i >= n - 3 {
          assert text[n - 3..][i - (n - 3)] == text[i];
        } else if i < n - 4 {
          assert front[i] == text[i];
        }
      }
    }
  }

  lemma {:induction false} SeparatorPlace(text: string, separators: set<char>, k: nat)
    requires k < |text| && InGroups(text, separators)
    ensures if (|text| - k) % 4 == 0 then text[k] in separators else IsDigit(text[k])
  {
  }

  lemma {:induction false} FourthFromEnd(text: string, separators: set<char>)
    requires |text| >= 4 && InGroups(text, separators)
    ensures text[|text| - 4] in separators
  {
    SeparatorPlace(text, separators, |text| - 4);
  }

  lemma {:induction false} FewInGroups(text: string, separators: set<char>)
    requires |text| < 4
    ensures InGroups(text, separators) <==> AllDigits(text)
  {
  }

  /** The text is one group, or its last group is after the separator at k. */
  ghost predicate SplitsAt(text: string, separators: set<char>, k: int) {
    && -1 <= k < |text|
    && (forall i :: k < i < |text| ==> text[i] !in separators)
    && (k == -1 ==> Split(text, separators) == [text])
    && (k >= 0 ==>
          && text[k] in separators
          && Split(text, separators) == Split(text[..k], separators) + [text[k + 1..]])
  }

  lemma {:induction false} SplitEnds(text: string, separators: set<char>) returns (k: int)
    ensures SplitsAt(text, separators, k)
  {
    if text == "" {
      k := -1;
    } else {
      var n := |text| - 1;
      assert text == text[..n] + [text[n]];
      if text[n] in separators {
        k := n;
        assert text[n + 1..] == "";
      } else {
        k := SplitEnds(text[..n], separators);
        hide *;
        SplitMore(text[..n], text[n], separators, k);
      }
    }
  }

  lemma {:induction false} SplitMore(text: string, c: char, separators: set<char>, k: int)
    requires SplitsAt(text, separators, k) && c !in separators
    ensures SplitsAt(text + [c], separators, k)
  {
    SplitOne(text, c, separators);
    hide Split;
    var all := text + [c];
    if k == -1 {
      assert Lengthened([text], [c]) == [all];
    } else {
      var front, last := Split(text[..k], separators), text[k + 1..];
      assert all[..k] == text[..k] && last + [c] == all[k + 1..];
      assert Lengthened(front + [last], [c]) == front + [last + [c]];
    }
  }

  lemma {:induction false} GroupsApart(groups: seq<string>, last: string)
    requires groups != []
    ensures WellGrouped(groups + [last]) <==> WellGrouped(groups) && |last| == 3 && AllDigits(last)
    ensures Joined(groups + [last]) == Joined(groups) + last
  {
    hide AllDigits;
    var all := groups + [last];
    assert all[..|groups|] == groups;
    if WellGrouped(all) {
      forall i | 1 <= i < |groups|
        ensures |groups[i]| == 3 && AllDigits(groups[i])
      {
        assert all[i] == groups[i];
      }
      assert all[|groups|] == last;
    }
  }

  lemma {:induction false} DigitsOfDigits(text: string)
    requires forall i :: 0 <= i < |text| ==> IsDigit(text[i])
    ensures Digits(text) == text
  {
    if text != "" {
      var n := |text| - 1;
      DigitsOfDigits(text[..n]);
      assert text == text[..n] + [text[n]];
    }
  }

  lemma {:induction false} OneMoreDigit(text: string, c: char)
    ensures Digits(text + [c]) == Digits(text) + (if IsDigit(c) then [c] else "")
  {
    WhereOneMore(text, c, IsDigit);
    hide Where, IsDigit;
  }

  lemma {:induction false} DigitsTogether(a: string, b: string)
    ensures Digits(a + b) == Digits(a) + Digits(b)
    decreases |b|
  {
    if b == "" {
      assert a + b == a;
    } else {
      hide *;
      var front, last := b[..|b| - 1], b[|b| - 1];
      DigitsTogether(a, front);
      LastTaken(a, b);
      OneMoreDigit(front, last);
      OneMoreDigit(a + front, last);
      Regrouped(Digits(a), Digits(front), if IsDigit(last) then [last] else "");
    }
  }

  lemma {:induction false} SplitWellGrouped(text: string, separators: set<char>)
    requires NoDigits(separators)
    ensures WellGrouped(Split(text, separators)) <==> InGroups(text, separators)
    ensures InGroups(text, separators) ==> Joined(Split(text, separators)) == Digits(text)
    decreases |text|
  {
    var k := SplitEnds(text, separators);
    hide *;
    if k == -1 {
      NotSplit(text, separators);
      OneGroup(text, separators);
    } else {
      var front, last := SplitLast(text, separators, k);
      GroupsApart(Split(front, separators), last);
      if |last| == 3 {
        LastThree(front, text[k], last, separators);
        SplitWellGrouped(front, separators);
        GroupAndDigits(front, text[k], last, separators);
      } else {
        OddGroup(text, separators, k);
      }
    }
  }

  lemma {:induction false} NotSplit(text: string, separators: set<char>)
    requires SplitsAt(text, separators, -1)
    ensures Split(text, separators) == [text] && forall i :: 0 <= i < |text| ==> text[i] !in separators
  {
    hide Split;
  }

  lemma {:induction false} SplitLast(text: string, separators: set<char>, k: int) returns (front: string, last: string)
    requires SplitsAt(text, separators, k) && k != -1
    ensures 0 <= k < |text| && text[k] in separators && forall i :: k < i < |text| ==> text[i] !in separators
    ensures text == front + [text[k]] + last && |front| == k
    ensures Split(text, separators) == Split(front, separators) + [last]
  {
    hide Split;
    front, last := text[..k], text[k + 1..];
  }

  lemma {:induction false} LastThree(front: string, separator: char, last: string, separators: set<char>)
    requires |last| == 3 && separator in separators
    ensures var text := front + [separator] + last;
            InGroups(text, separators) <==> InGroups(front, separators) && AllDigits(last)
  {
    var text := front + [separator] + last;
    LastGroup(text, separators);
    assert text[..|text| - 4] == front && text[|text| - 3..] == last;
    hide InGroups, AllDigits;
  }

  lemma {:induction false} OneGroup(text: string, separators: set<char>)
    requires forall i :: 0 <= i < |text| ==> text[i] !in separators
    ensures WellGrouped([text]) <==> InGroups(text, separators)
    ensures InGroups(text, separators) ==> Joined([text]) == Digits(text)
  {
    if |text| >= 4 {
      if InGroups(text, separators) {
        FourthFromEnd(text, separators);
        assert false;
      }
    } else {
      FewInGroups(text, separators);
      if AllDigits(text) {
        DigitsOfDigits(text);
        assert [text][..0] == [];
      }
    }
  }

  /** A last group of another length is no group. */
  lemma {:induction false} OddGroup(text: string, separators: set<char>, k: nat)
    requires NoDigits(separators) && k < |text| && text[k] in separators && |text| - k != 4
    requires forall i :: k < i < |text| ==> text[i] !in separators
    ensures !InGroups(text, separators)
  {
    if InGroups(text, separators) {
      SeparatorPlace(text, separators, k);
      if |text| - k > 4 {
        FourthFromEnd(text, separators);
      }
      assert false;
    }
  }

  lemma {:induction false} GroupAndDigits(front: string, separator: char, last: string, separators: set<char>)
    requires NoDigits(separators) && separator in separators
    ensures AllDigits(last) ==> Digits(front + [separator] + last) == Digits(front) + last
  {
    DigitsTogether(front + [separator], last);
    OneMoreDigit(front, separator);
    if AllDigits(last) {
      DigitsOfDigits(last);
    }
  }

  /** A whole part is all digits, or groups of three: and its digits are what it is read as. */
  lemma {:induction false} UngroupSays(text: string, separators: set<char>)
    requires NoDigits(separators)
    ensures Ungroup(text, separators) == if WholeText(text, separators) then Some(Digits(text)) else None
  {
    SplitWellGrouped(text, separators);
    hide Split, WellGrouped, Joined, Digits;
    if AllDigits(text) {
      DigitsOfDigits(text);
    }
    if !HasAny(text, separators) && InGroups(text, separators) {
      if |text| >= 4 {
        FourthFromEnd(text, separators);
        assert false;
      }
      FewInGroups(text, separators);
    }
  }

  // ---- The decimal mark ----

  function OtherMark(mark: char): char {
    if mark == '.' then ',' else '.'
  }

  /**
   * A number: a whole part grouped by the other mark or a space (plain, no-break or narrow), and the
   * decimal mark with digits after it or none. Without the decimal mark the other one must not stand
   * alone: it would be it.
   */
  predicate ReadsAs(body: string, mark: char, whole: string, fraction: string) {
    && (mark == '.' || mark == ',')
    && WholeText(whole, {' ', 0xa0 as char, 0x202f as char, OtherMark(mark)})
    && (fraction == "" || AllDigits(fraction))
    && (|| (body == whole && fraction == "" && Count(body, OtherMark(mark)) != 1)
        || body == whole + [mark] + fraction)
  }

  lemma {:induction false} WholeHolds(whole: string, separators: set<char>, c: char)
    requires WholeText(whole, separators) && c in whole
    ensures IsDigit(c) || c in separators
  {
  }

  lemma {:induction false} WholeStarts(whole: string, separators: set<char>)
    requires WholeText(whole, separators)
    ensures whole != "" && IsDigit(whole[0])
  {
    if |whole| >= 4 && InGroups(whole, separators) {
      assert (|whole| - 0) % 4 != 0;
    }
  }

  lemma {:induction false} SameGroups(whole: string, separators: set<char>, c: char)
    requires c !in whole
    ensures WholeText(whole, separators + {c}) <==> WholeText(whole, separators)
  {
    assert forall i :: 0 <= i < |whole| ==> (whole[i] in separators + {c} <==> whole[i] in separators);
  }

  lemma {:induction false} LastIndexSays(text: string, c: char)
    ensures var k := LastIndexOf(text, c);
            if k < 0 then c !in text else text[k] == c && c !in text[k + 1..]
  {
    if text != "" && text[|text| - 1] != c {
      var n := |text| - 1;
      LastIndexSays(text[..n], c);
      var k := LastIndexOf(text, c);
      assert text == text[..n] + [text[n]];
      assert k >= 0 ==> text[k + 1..] == text[..n][k + 1..] + [text[n]];
    }
  }

  lemma {:induction false} CountAround(text: string, c: char, k: nat)
    requires k < |text| && text[k] == c && c !in text[k + 1..]
    ensures Count(text, c) == Count(text[..k], c) + 1
    ensures LastIndexOf(text, c) == k
  {
    assert text == text[..k] + [c] + text[k + 1..];
    CountTogether(text[..k] + [c], text[k + 1..], c);
    CountTogether(text[..k], [c], c);
    CountNone(text[k + 1..], c);
    assert [c][..0] == "";
    LastIndexBefore(text[..k] + [c], text[k + 1..], c);
    hide Count;
  }

  lemma {:induction false} MarkNowhereElse(mark: char, whole: string, fraction: string)
    requires mark == '.' || mark == ','
    requires WholeText(whole, SPACES + {OtherMark(mark)}) && (fraction == "" || AllDigits(fraction))
    ensures mark !in whole && mark !in fraction && OtherMark(mark) !in fraction
  {
    if mark in whole {
      WholeHolds(whole, SPACES + {OtherMark(mark)}, mark);
    }
  }

  /** Without its decimal mark. */
  lemma {:induction false} WholeParts(body: string, mark: char)
    requires ReadsAs(body, mark, body, "")
    ensures var parts := PartsOf(body);
            && parts.Some? && parts.value.integerPart == body && parts.value.fraction == "" && !parts.value.ambiguous
            && Ungroup(body, parts.value.grouping) == Some(Digits(body))
  {
    var other := OtherMark(mark);
    MarkNowhereElse(mark, body, "");
    CountNone(body, mark);
    CountNone(body, other);
    hide Ungroup, Digits, WholeText, Count, LastIndexOf, AllDigits;
    UngroupSays(body, SPACES + {other});
    UngroupSays(body, SPACES);
    if other !in body {
      SameGroups(body, SPACES, other);
    }
    assert |body + [mark]| != |body|;
  }

  /** With it. */
  lemma {:induction false} DecimalParts(mark: char, whole: string, fraction: string)
    requires ReadsAs(whole + [mark] + fraction, mark, whole, fraction)
    ensures var parts := PartsOf(whole + [mark] + fraction);
            && parts.Some? && parts.value.integerPart == whole && parts.value.fraction == fraction
            && parts.value.ambiguous == (OtherMark(mark) !in whole && |fraction| == 3)
            && Ungroup(whole, parts.value.grouping) == Some(Digits(whole))
  {
    var body, k, other := whole + [mark] + fraction, |whole|, OtherMark(mark);
    MarkNowhereElse(mark, whole, fraction);
    assert body[..k] == whole && body[k + 1..] == fraction && body[k] == mark;
    CountAround(body, mark, k);
    CountNone(whole, mark);
    UngroupSays(whole, SPACES + {other});
    UngroupSays(whole, SPACES);
    LastIndexSays(body, other);
    CountNone(body, other);
    hide Ungroup, Digits, WholeText, Count, LastIndexOf, AllDigits, PartsOf;
    assert other in body <==> other in whole by {
      assert forall c :: c in body <==> c in whole || c == mark || c in fraction;
    }
    if other in whole {
      NotInTail(body, other, k);
      PartsByTwo(body, k);
    } else {
      SameGroups(whole, SPACES, other);
      PartsByOne(body, k);
    }
  }

  lemma {:induction false} NotInTail(body: string, c: char, k: nat)
    requires k < |body| && c !in body[k + 1..]
    ensures LastIndexOf(body, c) <= k
  {
    assert body == body[..k + 1] + body[k + 1..];
    LastIndexBefore(body[..k + 1], body[k + 1..], c);
  }

  // ---- Signs ----

  /** What the text is without its sign: a plus, a minus or accounting brackets. */
  predicate SignedAs(text: string, negative: bool, body: string) {
    || (text == body && !negative)
    || (text == "+" + body && !negative)
    || (text == "-" + body && negative)
    || (|text| >= 2 && text == "(" + text[1..|text| - 1] + ")" && Trim(text[1..|text| - 1]) == body && negative)
  }

  lemma {:induction false} PlainBody(body: string, mark: char, whole: string, fraction: string)
    requires ReadsAs(body, mark, whole, fraction)
    ensures body != "" && IsDigit(body[0]) && !HasAny(body, {'(', ')', '+', '-'})
  {
    var separators := SPACES + {OtherMark(mark)};
    WholeStarts(whole, separators);
    forall i | 0 <= i < |body|
      ensures body[i] !in {'(', ')', '+', '-'}
    {
      assert body[i] in whole || body[i] == mark || body[i] in fraction;
      if body[i] in whole {
        WholeHolds(whole, separators, body[i]);
      }
    }
    assert body[0] == whole[0];
  }

  lemma {:induction false} SignGoes(text: string, negative: bool, body: string)
    requires SignedAs(text, negative, body)
    requires body != "" && IsDigit(body[0]) && !HasAny(body, {'(', ')', '+', '-'})
    ensures SignOff(text) == Some((negative, body))
  {
    hide HasAny, Trim;
    if text == body {
      SignOffNone(text);
    } else if text == "+" + body {
      SignOffFirst('+', body);
    } else if text == "-" + body {
      SignOffFirst('-', body);
    }
  }

  lemma {:induction false} SignWas(text: string, negative: bool, body: string)
    requires SignOff(text) == Some((negative, body))
    ensures SignedAs(text, negative, body)
  {
    hide HasAny, Trim;
    if Bracketed(text) {
      assert text == "(" + text[1..|text| - 1] + ")";
    } else if Signed(text) {
      assert text == [text[0]] + text[1..];
    }
  }

  // ---- What reads ----

  lemma {:induction false} ReadsWhole(body: string, mark: char)
    requires mark == '.' || mark == ','
    requires WholeText(body, SPACES + {OtherMark(mark)}) && Count(body, OtherMark(mark)) != 1
    ensures ReadsAs(body, mark, body, "")
  {
    assert SPACES + {OtherMark(mark)} == {' ', 0xa0 as char, 0x202f as char, OtherMark(mark)};
    hide WholeText, Count;
  }

  lemma {:induction false} ReadsDecimal(body: string, mark: char, k: nat)
    requires (mark == '.' || mark == ',') && k < |body| && body[k] == mark
    requires WholeText(body[..k], SPACES + {OtherMark(mark)}) && (body[k + 1..] == "" || AllDigits(body[k + 1..]))
    ensures ReadsAs(body, mark, body[..k], body[k + 1..])
  {
    assert SPACES + {OtherMark(mark)} == {' ', 0xa0 as char, 0x202f as char, OtherMark(mark)};
    hide WholeText, Count, AllDigits;
    assert body == body[..k] + [mark] + body[k + 1..];
  }

  lemma {:induction false} TwoMarksRead(source: string, parts: Parts)
    requires Count(source, '.') > 0 && Count(source, ',') > 0
    requires PartsOf(source) == Some(parts)
    requires Ungroup(parts.integerPart, parts.grouping).Some? && (parts.fraction == "" || AllDigits(parts.fraction))
    ensures exists mark :: ReadsAs(source, mark, parts.integerPart, parts.fraction)
  {
    LastIndexSays(source, '.');
    LastIndexSays(source, ',');
    hide Count, LastIndexOf, Ungroup, WholeText, AllDigits, ReadsAs;
    UngroupSays(parts.integerPart, parts.grouping);
    var k := MaxInt(LastIndexOf(source, '.'), LastIndexOf(source, ','));
    ReadsDecimal(source, source[k], k);
  }

  lemma {:induction false} ManyMarksRead(source: string, parts: Parts)
    requires Count(source, '.') == 0 || Count(source, ',') == 0
    requires Count(source, '.') > 1 || Count(source, ',') > 1
    requires PartsOf(source) == Some(parts)
    requires Ungroup(parts.integerPart, parts.grouping).Some? && (parts.fraction == "" || AllDigits(parts.fraction))
    ensures exists mark :: ReadsAs(source, mark, parts.integerPart, parts.fraction)
  {
    LastIndexSays(source, '.');
    LastIndexSays(source, ',');
    hide Count, LastIndexOf, Ungroup, WholeText, AllDigits, ReadsAs;
    UngroupSays(parts.integerPart, parts.grouping);
    ReadsWhole(source, if Count(source, '.') > 1 then ',' else '.');
  }

  lemma {:induction false} OneMarkParts(source: string, mark: char)
    requires mark == '.' || mark == ','
    requires Count(source, mark) == 1 && Count(source, OtherMark(mark)) == 0
    ensures var k := LastIndexOf(source, mark);
            PartsOf(source).Some? ==>
              k >= 0 && PartsOf(source).value == Parts(source[..k], source[k + 1..], SPACES, |source| - k - 1 == 3)
  {
    hide Count, LastIndexOf;
  }

  lemma {:induction false} NoMarkParts(source: string)
    requires Count(source, '.') == 0 && Count(source, ',') == 0
    ensures PartsOf(source) == Some(Parts(source, "", SPACES, false))
  {
    hide Count, LastIndexOf;
  }

  lemma {:induction false} OneMarkReads(source: string, parts: Parts, mark: char)
    requires mark == '.' || mark == ','
    requires Count(source, mark) == 1 && Count(source, OtherMark(mark)) == 0 && PartsOf(source) == Some(parts)
    requires Ungroup(parts.integerPart, parts.grouping).Some? && (parts.fraction == "" || AllDigits(parts.fraction))
    ensures ReadsAs(source, mark, parts.integerPart, parts.fraction)
  {
    OneMarkParts(source, mark);
    MarksNoDigits(mark);
    hide *;
    LastIndexSays(source, mark);
    UngroupSays(parts.integerPart, SPACES);
    MoreSeparators(parts.integerPart, OtherMark(mark));
    ReadsDecimal(source, mark, LastIndexOf(source, mark));
  }

  lemma {:induction false} NoMarkReads(source: string, parts: Parts)
    requires Count(source, '.') == 0 && Count(source, ',') == 0 && PartsOf(source) == Some(parts)
    requires Ungroup(parts.integerPart, parts.grouping).Some?
    ensures ReadsAs(source, '.', parts.integerPart, parts.fraction)
  {
    NoMarkParts(source);
    MarksNoDigits('.');
    hide *;
    UngroupSays(source, SPACES);
    MoreSeparators(source, ',');
    ReadsWhole(source, '.');
  }

  lemma {:induction false} MarksNoDigits(mark: char)
    ensures NoDigits(SPACES) && !IsDigit(OtherMark(mark)) && OtherMark('.') == ','
  {
  }

  lemma {:induction false} ReadsAsParts(source: string, parts: Parts)
    requires PartsOf(source) == Some(parts)
    requires Ungroup(parts.integerPart, parts.grouping).Some? && (parts.fraction == "" || AllDigits(parts.fraction))
    ensures exists mark :: ReadsAs(source, mark, parts.integerPart, parts.fraction)
  {
    hide *;
    if Count(source, '.') > 0 && Count(source, ',') > 0 {
      TwoMarksRead(source, parts);
    } else if Count(source, '.') > 1 || Count(source, ',') > 1 {
      ManyMarksRead(source, parts);
    } else if Count(source, '.') == 1 {
      OtherMarks();
      OneMarkReads(source, parts, '.');
    } else if Count(source, ',') == 1 {
      OtherMarks();
      OneMarkReads(source, parts, ',');
    } else {
      NoMarkReads(source, parts);
    }
  }

  lemma {:induction false} OtherMarks()
    ensures OtherMark('.') == ',' && OtherMark(',') == '.'
  {
  }

  lemma {:induction false} MoreSeparators(whole: string, c: char)
    requires !IsDigit(c)
    ensures WholeText(whole, SPACES) ==> WholeText(whole, SPACES + {c})
  {
  }

  /** White space around a text changes nothing. */
  lemma {:induction false} SpaceIsIgnored(value: string)
    ensures Parse(Trim(value)) == Parse(value)
  {
    TrimTwice(value);
    hide Trim, SignOff;
  }

  /** The minus sign of typography reads as a hyphen. */
  lemma {:induction false} TrueMinusReads(value: string, i: nat)
    requires i < |value| && value[i] == 0x2212 as char && Trim(value) == value
    ensures Parse(value[i := '-']) == Parse(value)
  {
    var before, after := TrimSays(value);
    var hyphened := value[i := '-'];
    hide Trim, SignOff, PartsOf, ReadParts;
    TrimKeeps(hyphened);
    assert PlainMinus(hyphened) == PlainMinus(value);
  }

  /** Some sign, body, decimal mark, whole part and fraction the text reads as. */
  ghost predicate ReadsAsSome(text: string) {
    exists negative, body, mark, whole, fraction :: ReadsSo(text, negative, body, mark, whole, fraction)
  }

  predicate ReadsSo(text: string, negative: bool, body: string, mark: char, whole: string, fraction: string) {
    SignedAs(text, negative, body) && ReadsAs(body, mark, whole, fraction)
  }

  /** The amount rounded half up to cents; of a long one it is said when it moved by a twentieth of a cent or more. */
  function Rounded(x: real, negative: bool, ambiguous: bool, long: bool): Reading {
    var cents := (100.0 * x + 0.5).Floor;
    var off := x - cents as real / 100.0;
    Amount(if negative then -cents else cents, ambiguous, long && (off >= 0.0005 || off <= -0.0005))
  }

  /**
   * What a text that is a number reads as: the digits of its whole part and fraction rounded half
   * up to cents, with its sign; ambiguous when its only dot or comma has three digits after it;
   * rounded when it has more than two decimals and moved by a twentieth of a cent or more.
   */
  lemma {:induction false} ReadsExactly(value: string, negative: bool, body: string, mark: char, whole: string,
                                        fraction: string)
    requires ReadsSo(PlainMinus(Trim(value)), negative, body, mark, whole, fraction)
    ensures Parse(value)
            == Rounded(Exact(Digits(whole), fraction), negative,
                       body != whole && OtherMark(mark) !in whole && |fraction| == 3, |fraction| > 2)
  {
    SoIsBoth(PlainMinus(Trim(value)), negative, body, mark, whole, fraction);
    hide *;
    PlainBody(body, mark, whole, fraction);
    SignGoes(PlainMinus(Trim(value)), negative, body);
    UnsignedIs(value);
    BodyReads(body, mark, whole, fraction);
    var parts := PartsOf(body).value;
    FractionDigits(body, mark, whole, fraction);
    ParseSteps(value, negative, body, parts);
    PartsSay(parts, negative, Digits(whole));
  }

  lemma {:induction false} SoIsBoth(text: string, negative: bool, body: string, mark: char, whole: string,
                                    fraction: string)
    requires ReadsSo(text, negative, body, mark, whole, fraction)
    ensures SignedAs(text, negative, body) && ReadsAs(body, mark, whole, fraction)
  {
    hide SignedAs, ReadsAs;
  }

  lemma {:induction false} FractionDigits(body: string, mark: char, whole: string, fraction: string)
    requires ReadsAs(body, mark, whole, fraction)
    ensures fraction == "" || AllDigits(fraction)
  {
    hide WholeText;
  }

  lemma {:induction false} BodyReads(body: string, mark: char, whole: string, fraction: string)
    requires ReadsAs(body, mark, whole, fraction)
    ensures var parts := PartsOf(body);
            && parts.Some? && parts.value.fraction == fraction
            && parts.value.ambiguous == (body != whole && OtherMark(mark) !in whole && |fraction| == 3)
            && Ungroup(parts.value.integerPart, parts.value.grouping) == Some(Digits(whole))
  {
    hide WholeText, PartsOf, Ungroup, Digits, AllDigits, Count;
    assert body == whole + [mark] + fraction ==> |body| > |whole|;
    if body == whole {
      WholeParts(body, mark);
    } else {
      DecimalParts(mark, whole, fraction);
    }
  }

  lemma {:induction false} PartsSay(parts: Parts, negative: bool, digits: string)
    requires Ungroup(parts.integerPart, parts.grouping) == Some(digits)
    requires parts.fraction == "" || AllDigits(parts.fraction)
    ensures ReadParts(parts, negative)
            == Rounded(Exact(digits, parts.fraction), negative, parts.ambiguous, |parts.fraction| > 2)
  {
    UngroupedDigits(parts.integerPart, parts.grouping);
    RoundsHalfUp(digits, parts.fraction);
    hide Ungroup, RoundToCents, Exact, AllDigits;
  }

  /** And no other text reads as an amount. */
  lemma {:induction false} ReadsIfNumber(value: string)
    ensures Parse(value).Amount? <==> ReadsAsSome(PlainMinus(Trim(value)))
  {
    hide ReadsSo, Trim;
    if Parse(value).Amount? {
      ParsedReadsSo(value);
    }
    if ReadsAsSome(PlainMinus(Trim(value))) {
      var negative, body, mark, whole, fraction :|
        ReadsSo(PlainMinus(Trim(value)), negative, body, mark, whole, fraction);
      ReadsExactly(value, negative, body, mark, whole, fraction);
    }
  }

  lemma {:induction false} ParsedReadsSo(value: string)
    requires Parse(value).Amount?
    ensures ReadsAsSome(PlainMinus(Trim(value)))
  {
    hide Trim, SignOff, PartsOf, Ungroup, SignedAs, ReadsAs, AllDigits, RoundToCents, Exact;
    var (negative, body) := Unsigned(value).value;
    var parts := PartsOf(body).value;
    SignWas(PlainMinus(Trim(value)), negative, body);
    ReadsAsParts(body, parts);
    var mark :| ReadsAs(body, mark, parts.integerPart, parts.fraction);
    assert ReadsSo(PlainMinus(Trim(value)), negative, body, mark, parts.integerPart, parts.fraction);
  }
}
