/**
 * Money texts read on import (shared/importNumber.ts), and the grouped texts they come from.
 * Amounts are whole cents.
 */
module ImportNumber {
  import opened Basics
  import opened Text

  const MINUS_SIGN := 0x2212 as char
  const SPACES: set<char> := {' ', 0xa0 as char, 0x202f as char}

  /** What a text parses to: cents, and what the user should look at. */
  datatype Reading = NotANumber | Amount(cents: int, ambiguousSeparator: bool, rounded: bool)

  // ---- Digits ----

  function PowerOfTen(n: nat): (p: int)
    ensures p >= 1
  {
    if n == 0 then 1 else 10 * PowerOfTen(n - 1)
  }

  /** The number `whole`.`fraction`, every digit counted. */
  function Exact(whole: string, fraction: string): real {
    DigitsValue(whole) as real + DigitsValue(fraction) as real / PowerOfTen(|fraction|) as real
  }

  // ---- The parser ----

  /** `text` cut at every separator. */
  function Split(text: string, separators: set<char>): (groups: seq<string>)
    ensures groups != []
  {
    if text == "" then [""]
    else
      var n := |text| - 1;
      var rest := Split(text[..n], separators);
      var last := |rest| - 1;
      if text[n] in separators then rest + [""] else rest[last := rest[last] + [text[n]]]
  }

  function Joined(groups: seq<string>): string {
    if groups == [] then "" else Joined(groups[..|groups| - 1]) + groups[|groups| - 1]
  }

  /** Up to three digits, then groups of exactly three. */
  predicate WellGrouped(groups: seq<string>)
    requires groups != []
  {
    && AllDigits(groups[0]) && |groups[0]| <= 3
    && forall i :: 1 <= i < |groups| ==> |groups[i]| == 3 && AllDigits(groups[i])
  }

  predicate HasAny(text: string, chars: set<char>) {
    exists i :: 0 <= i < |text| && text[i] in chars
  }

  /** The digits alone, or None when the grouping is malformed. */
  function Ungroup(text: string, separators: set<char>): Option<string> {
    if !HasAny(text, separators) then (if AllDigits(text) then Some(text) else None)
    else
      var groups := Split(text, separators);
      if WellGrouped(groups) then Some(Joined(groups)) else None
  }

  /** Cents, the third fraction digit deciding whether to round up. */
  function RoundToCents(whole: string, fraction: string): int {
    if |fraction| == 0 then DigitsValue(whole) * 100
    else if |fraction| == 1 then DigitsValue(whole) * 100 + DigitsValue(fraction) * 10
    else DigitsValue(whole + fraction[..2]) + (if |fraction| > 2 && DigitValue(fraction[2]) >= 5 then 1 else 0)
  }

  function Abs(x: real): real {
    if x < 0.0 then -x else x
  }

  /** Whether rounding moved the amount by a twentieth of a cent or more. */
  predicate MovedACent(value: real, cents: int) {
    Abs(value - cents as real / 100.0) >= 0.0005
  }

  function Count(text: string, c: char): nat {
    if text == "" then 0 else Count(text[..|text| - 1], c) + (if text[|text| - 1] == c then 1 else 0)
  }

  /** The place of the last `c`, or -1. */
  function LastIndexOf(text: string, c: char): (k: int)
    ensures -1 <= k < |text|
  {
    if text == "" then -1
    else if text[|text| - 1] == c then |text| - 1
    else LastIndexOf(text[..|text| - 1], c)
  }

  datatype Parts = Parts(integerPart: string, fraction: string, grouping: set<char>, ambiguous: bool)

  /** Which separator is the decimal mark, and which group; None when the mark comes up twice. */
  function PartsOf(source: string): Option<Parts> {
    var dots, commas := Count(source, '.'), Count(source, ',');
    if dots > 0 && commas > 0 then
      var k := MaxInt(LastIndexOf(source, '.'), LastIndexOf(source, ','));
      if k < 0 then None
      else
        var mark := source[k];
        if mark in source[..k] then None
        else Some(Parts(source[..k], source[k + 1..], SPACES + {if mark == '.' then ',' else '.'}, false))
    else if dots > 1 || commas > 1 then
      Some(Parts(source, "", SPACES + {if dots > 1 then '.' else ','}, false))
    else if dots == 1 || commas == 1 then
      var k := LastIndexOf(source, if dots == 1 then '.' else ',');
      if k < 0 then None
      else Some(Parts(source[..k], source[k + 1..], SPACES, |source| - k - 1 == 3))
    else Some(Parts(source, "", SPACES, false))
  }

  function SignedCents(negative: bool, cents: int): int {
    if negative then -cents else cents
  }

  function ReadParts(parts: Parts, negative: bool): Reading {
    var whole := Ungroup(parts.integerPart, parts.grouping);
    if whole.None? || (parts.fraction != "" && !AllDigits(parts.fraction)) then NotANumber
    else
      var cents := RoundToCents(whole.value, parts.fraction);
      Amount(SignedCents(negative, cents), parts.ambiguous,
             |parts.fraction| > 2 && MovedACent(Exact(whole.value, parts.fraction), cents))
  }

  function PlainMinus(text: string): string {
    seq(|text|, i requires 0 <= i < |text| => if text[i] == MINUS_SIGN then '-' else text[i])
  }

  predicate Bracketed(source: string) {
    |source| >= 2 && source[0] == '(' && source[|source| - 1] == ')'
  }

  predicate Signed(source: string) {
    source != "" && (source[0] == '+' || source[0] == '-')
  }

  /** The sign taken off: whether the amount is negative, and the text left; None when that is no number. */
  function Unsigned(value: string): Option<(bool, string)> {
    SignOff(PlainMinus(Trim(value)))
  }

  function SignOff(trimmed: string): Option<(bool, string)> {
    var accounting := Bracketed(trimmed);
    var inner := if accounting then Trim(trimmed[1..|trimmed| - 1]) else trimmed;
    if Signed(inner) && accounting then None
    else
      var negative := if Signed(inner) then inner[0] == '-' else accounting;
      var source := if Signed(inner) then inner[1..] else inner;
      if source == "" || HasAny(source, {'(', ')', '+', '-'}) then None else Some((negative, source))
  }

  function Parse(value: string): Reading {
    var unsigned := Unsigned(value);
    if unsigned.None? then NotANumber
    else
      var parts := PartsOf(unsigned.value.1);
      if parts.None? then NotANumber else ReadParts(parts.value, unsigned.value.0)
  }

  /** The parser as it runs: one text, cut down step by step. */
  method ParseImportNumberDetailed(value: string) returns (reading: Reading)
    ensures reading == Parse(value)
  {
    var source := PlainMinus(Trim(value));
    if source == "" {
      return NotANumber;
    }
    var negative, accountingNegative := false, false;
    if Bracketed(source) {
      accountingNegative := true;
      negative := true;
      source := Trim(source[1..|source| - 1]);
    }
    if Signed(source) {
      if accountingNegative {
        return NotANumber;
      }
      negative := source[0] == '-';
      source := source[1..];
    }
    if source == "" || HasAny(source, {'(', ')', '+', '-'}) {
      return NotANumber;
    }
    assert Unsigned(value) == Some((negative, source));
    hide Unsigned;
    var parts := PartsOf(source);
    if parts.None? {
      return NotANumber;
    }
    reading := ReadParts(parts.value, negative);
  }

  // ---- The printer ----

  /** Digits in groups of three from the right, or ungrouped. */
  function Grouped(digits: string, group: Option<char>): string {
    if group.None? || |digits| <= 3 then digits
    else Grouped(digits[..|digits| - 3], group) + [group.value] + digits[|digits| - 3..]
  }

  function TwoDigits(n: nat): string
    requires n < 100
  {
    [('0' as int + n / 10) as char, ('0' as int + n % 10) as char]
  }

  datatype SignStyle = Unmarked | Plus | Hyphen | TrueMinus | Accounting {
    predicate Negative() {
      Hyphen? || TrueMinus? || Accounting?
    }

    function Around(text: string): string {
      match this
      case Unmarked => text
      case Plus => "+" + text
      case Hyphen => "-" + text
      case TrueMinus => [MINUS_SIGN] + text
      case Accounting => "(" + text + ")"
    }
  }

  /** A group separator a sheet may use with this decimal mark: the other of dot and comma, or a space. */
  predicate Separates(group: Option<char>, mark: char) {
    && (mark == '.' || mark == ',')
    && (group.Some? ==> group.value in SPACES || (group.value in {'.', ','} && group.value != mark))
  }

  function Body(whole: nat, fraction: string, group: Option<char>, mark: char): string {
    Grouped(Decimal(whole), group) + [mark] + fraction
  }

  /** An amount in cents, to two decimals. */
  function Printed(cents: nat, sign: SignStyle, group: Option<char>, mark: char): string {
    sign.Around(Body(cents / 100, TwoDigits(cents % 100), group, mark))
  }

  // ---- Rounding ----

  lemma {:induction false} DigitsTogether(a: string, b: string)
    ensures DigitsValue(a + b) == DigitsValue(a) * PowerOfTen(|b|) + DigitsValue(b)
    decreases |b|
  {
    if b == "" {
      assert a + b == a;
    } else {
      var n := |b| - 1;
      DigitsTogether(a, b[..n]);
      var ab := a + b;
      assert ab[..|ab| - 1] == a + b[..n] && ab[|ab| - 1] == b[n];
      assert DigitsValue(ab) == 10 * DigitsValue(a + b[..n]) + DigitValue(b[n]);
      assert DigitsValue(b) == 10 * DigitsValue(b[..n]) + DigitValue(b[n]);
      OneMoreDigit(DigitsValue(a), PowerOfTen(n), DigitsValue(b[..n]), DigitValue(b[n]));
      assert PowerOfTen(|b|) == 10 * PowerOfTen(n);
      hide DigitsValue, PowerOfTen;
    }
  }

  lemma {:induction false} OneMoreDigit(x: int, p: int, y: int, digit: int)
    ensures 10 * (x * p + y) + digit == x * (10 * p) + (10 * y + digit)
  {
  }

  lemma {:induction false} DigitsBelow(s: string)
    requires forall i :: 0 <= i < |s| ==> IsDigit(s[i])
    ensures 0 <= DigitsValue(s) < PowerOfTen(|s|)
  {
    if s == "" {
    } else {
      DigitsBelow(s[..|s| - 1]);
    }
  }

  lemma {:induction false} PowersMultiply(n: nat)
    ensures PowerOfTen(n + 1) == 10 * PowerOfTen(n) && PowerOfTen(n + 2) == 100 * PowerOfTen(n)
  {
  }

  /** Rounding is half up on the exact amount: floor(100 x + 1/2) cents, whatever the digits. */
  lemma {:induction false} RoundsHalfUp(whole: string, fraction: string)
    requires AllDigits(whole) && (fraction == "" || AllDigits(fraction))
    ensures RoundToCents(whole, fraction) == (100.0 * Exact(whole, fraction) + 0.5).Floor
  {
    if |fraction| > 2 {
      LongFraction(whole, fraction);
    } else {
      DigitsTogether(whole, fraction);
      assert PowerOfTen(1) == 10 && PowerOfTen(2) == 100;
      assert fraction[..|fraction|] == fraction;
    }
  }

  lemma {:induction false} LongFraction(whole: string, fraction: string)
    requires AllDigits(whole) && AllDigits(fraction) && |fraction| > 2
    ensures RoundToCents(whole, fraction) == (100.0 * Exact(whole, fraction) + 0.5).Floor
  {
    var keep, rest := fraction[..2], fraction[2..];
    var next, tail := fraction[2], fraction[3..];
    assert fraction == keep + rest && rest == [next] + tail;
    DigitsTogether(whole, keep);
    DigitsTogether(keep, rest);
    DigitsTogether([next], tail);
    DigitsBelow(tail);
    OneDigit(next);
    PowersMultiply(|tail|);
    PowersMultiply(|rest|);
    TwoPlaces();
    hide DigitsValue, PowerOfTen;
    LongFractionRounds(DigitsValue(whole), DigitsValue(keep), DigitValue(next), DigitsValue(tail), PowerOfTen(|tail|),
                       Exact(whole, fraction));
  }

  lemma {:induction false} TwoPlaces()
    ensures PowerOfTen(2) == 100
  {
  }

  lemma {:induction false} LongFractionRounds(w: int, keep: int, next: int, tail: int, p: int, x: real)
    requires p >= 1 && 0 <= tail < p && 0 <= next <= 9
    requires x == w as real + (keep * (10 * p) + (next * p + tail)) as real / (1000 * p) as real
    ensures (100.0 * x + 0.5).Floor == w * 100 + keep + (if next >= 5 then 1 else 0)
  {
    var q := p as real;
    var y := (keep * (10 * p) + (next * p + tail)) as real / (1000 * p) as real;
    assert (1000 * p) as real == 1000.0 * q;
    assert (keep * (10 * p) + (next * p + tail)) as real == 10.0 * keep as real * q + next as real * q + tail as real;
    assert y * (1000.0 * q) == 10.0 * keep as real * q + next as real * q + tail as real;
    var z := 1000.0 * y - 10.0 * keep as real - next as real;
    assert z * q == tail as real;
    FractionBelowOne(z, q, tail as real);
  }

  lemma {:induction false} FractionBelowOne(z: real, q: real, t: real)
    requires q >= 1.0 && 0.0 <= t < q && z * q == t
    ensures 0.0 <= z < 1.0
  {
  }

  // ---- What is printed ----

  lemma {:induction false} TwoDigitsRead(n: nat)
    requires n < 100
    ensures AllDigits(TwoDigits(n)) && |TwoDigits(n)| == 2 && DigitsValue(TwoDigits(n)) == n
  {
    assert TwoDigits(n)[..1] == [('0' as int + n / 10) as char];
    OneDigit(('0' as int + n / 10) as char);
  }

  predicate DigitsOrGroup(text: string, group: Option<char>) {
    forall i :: 0 <= i < |text| ==> IsDigit(text[i]) || (group.Some? && text[i] == group.value)
  }

  lemma {:induction false} GroupedShape(digits: string, group: Option<char>)
    requires AllDigits(digits)
    ensures var text := Grouped(digits, group);
            && text != "" && IsDigit(text[0]) && DigitsOrGroup(text, group)
            && (|digits| <= 3 ==> text == digits)
            && (group.Some? && |digits| > 3 ==> group.value in text)
    decreases |digits|
  {
    if group.None? || |digits| <= 3 {
    } else {
      GroupedShape(digits[..|digits| - 3], group);
    }
  }

  /** The groups with `more` put at the end of the last one. */
  function Lengthened(groups: seq<string>, more: string): seq<string>
    requires groups != []
  {
    groups[..|groups| - 1] + [groups[|groups| - 1] + more]
  }

  lemma {:induction false} SplitOne(text: string, c: char, separators: set<char>)
    ensures Split(text + [c], separators)
            == if c in separators then Split(text, separators) + [""] else Lengthened(Split(text, separators), [c])
  {
    assert (text + [c])[..|text|] == text;
    var groups := Split(text, separators);
    var last := |groups| - 1;
    assert groups[last := groups[last] + [c]] == Lengthened(groups, [c]);
  }

  lemma {:induction false} LengthenedTwice(groups: seq<string>, a: string, b: string)
    requires groups != []
    ensures Lengthened(groups, a) != [] && Lengthened(Lengthened(groups, a), b) == Lengthened(groups, a + b)
    ensures Lengthened(groups, "") == groups
  {
    var last := groups[|groups| - 1];
    assert last + a + b == last + (a + b);
    assert last + "" == last;
    assert Lengthened(groups, a)[..|groups| - 1] == groups[..|groups| - 1];
  }

  /** Characters that separate nothing are added to the last group. */
  lemma {:induction false} SplitOn(text: string, more: string, separators: set<char>)
    requires forall i :: 0 <= i < |more| ==> more[i] !in separators
    ensures Split(text + more, separators) == Lengthened(Split(text, separators), more)
    decreases |more|
  {
    hide Split, Lengthened;
    var groups := Split(text, separators);
    if more == "" {
      assert text + more == text;
      LengthenedTwice(groups, "", "");
    } else {
      var n := |more| - 1;
      SplitOn(text, more[..n], separators);
      assert text + more == (text + more[..n]) + [more[n]];
      assert more == more[..n] + [more[n]];
      SplitOne(text + more[..n], more[n], separators);
      LengthenedTwice(groups, more[..n], [more[n]]);
    }
  }

  lemma {:induction false} SplitGroup(text: string, separator: char, group: string, separators: set<char>)
    requires separator in separators && forall i :: 0 <= i < |group| ==> group[i] !in separators
    ensures Split(text + [separator] + group, separators) == Split(text, separators) + [group]
  {
    SplitOne(text, separator, separators);
    SplitOn(text + [separator], group, separators);
    hide Split;
    assert "" + group == group;
  }

  lemma {:induction false} SplitDigits(digits: string, separators: set<char>)
    requires AllDigits(digits) && NoDigits(separators)
    ensures Split(digits, separators) == [digits] && Joined([digits]) == digits
  {
    SplitOn("", digits, separators);
    assert "" + digits == digits;
    assert [digits][..0] == [];
  }

  predicate NoDigits(separators: set<char>) {
    forall c :: c in separators ==> !IsDigit(c)
  }

  /** Cut at its group separator, a grouped text gives well-formed groups that join to its digits. */
  lemma {:induction false} GroupedSplits(digits: string, group: char, separators: set<char>)
    requires AllDigits(digits) && NoDigits(separators) && group in separators
    ensures var groups := Split(Grouped(digits, Some(group)), separators);
            Joined(groups) == digits && WellGrouped(groups)
    decreases |digits|
  {
    hide Split;
    if |digits| <= 3 {
      SplitDigits(digits, separators);
    } else {
      var n := |digits| - 3;
      var front, last := digits[..n], digits[n..];
      GroupedSplits(front, group, separators);
      SplitGroup(Grouped(front, Some(group)), group, last, separators);
      GroupAdded(Split(Grouped(front, Some(group)), separators), last);
      assert digits == front + last;
    }
  }

  lemma {:induction false} GroupAdded(groups: seq<string>, last: string)
    requires groups != [] && WellGrouped(groups) && |last| == 3 && AllDigits(last)
    ensures WellGrouped(groups + [last]) && Joined(groups + [last]) == Joined(groups) + last
  {
    assert (groups + [last])[..|groups|] == groups;
  }

  lemma {:induction false} GroupedUngroups(digits: string, group: Option<char>, separators: set<char>)
    requires AllDigits(digits) && NoDigits(separators)
    requires group.Some? && |digits| > 3 ==> group.value in separators
    ensures Ungroup(Grouped(digits, group), separators) == Some(digits)
  {
    GroupedShape(digits, group);
    if group.Some? && |digits| > 3 {
      GroupedSplits(digits, group.value, separators);
      var text := Grouped(digits, group);
      var i :| 0 <= i < |text| && text[i] == group.value;
      assert HasAny(text, separators);
    }
  }

  // ---- Finding the decimal mark ----

  lemma {:induction false} CountNone(text: string, c: char)
    ensures Count(text, c) == 0 <==> c !in text
  {
    if text == "" {
    } else {
      var n := |text| - 1;
      CountNone(text[..n], c);
      assert text == text[..n] + [text[n]];
    }
  }

  lemma {:induction false} CountTogether(a: string, b: string, c: char)
    ensures Count(a + b, c) == Count(a, c) + Count(b, c)
    decreases |b|
  {
    if b == "" {
      assert a + b == a;
    } else {
      var n := |b| - 1;
      CountTogether(a, b[..n], c);
      assert (a + b)[..|a + b| - 1] == a + b[..n];
    }
  }

  lemma {:induction false} LastIndexBefore(a: string, b: string, c: char)
    requires c !in b
    ensures LastIndexOf(a + b, c) == LastIndexOf(a, c)
    decreases |b|
  {
    if b == "" {
      assert a + b == a;
    } else {
      var n := |b| - 1;
      assert b[n] in b && c !in b[..n];
      LastIndexBefore(a, b[..n], c);
      assert (a + b)[..|a + b| - 1] == a + b[..n];
    }
  }

  lemma {:induction false} CountMark(text: string, mark: char, digits: string, c: char)
    requires AllDigits(digits) && !IsDigit(c)
    ensures Count(text + [mark] + digits, c) == Count(text, c) + (if c == mark then 1 else 0)
    ensures LastIndexOf(text + [mark] + digits, mark) == |text| || IsDigit(mark)
    ensures LastIndexOf(text + [mark] + digits, c) <= |text|
  {
    CountTogether(text + [mark], digits, c);
    CountTogether(text, [mark], c);
    CountNone(digits, c);
    assert [mark][..0] == "";
    LastIndexBefore(text + [mark], digits, c);
    if !IsDigit(mark) {
      LastIndexBefore(text + [mark], digits, mark);
    }
  }

  /** With both separators in the text, the last of them is the decimal mark. */
  lemma {:induction false} PartsByTwo(source: string, k: nat)
    requires k < |source| && source[k] in {'.', ','} && source[k] !in source[..k]
    requires Count(source, '.') > 0 && Count(source, ',') > 0
    requires LastIndexOf(source, '.') <= k && LastIndexOf(source, ',') <= k && LastIndexOf(source, source[k]) == k
    ensures PartsOf(source)
            == Some(Parts(source[..k], source[k + 1..], SPACES + {if source[k] == '.' then ',' else '.'}, false))
  {
    hide Count, LastIndexOf;
  }

  /** With one separator in the text, it is the decimal mark. */
  lemma {:induction false} PartsByOne(source: string, k: nat)
    requires k < |source| && source[k] in {'.', ','}
    requires Count(source, source[k]) == 1 && Count(source, if source[k] == '.' then ',' else '.') == 0
    requires LastIndexOf(source, source[k]) == k
    ensures PartsOf(source) == Some(Parts(source[..k], source[k + 1..], SPACES, |source| - k - 1 == 3))
  {
    hide Count, LastIndexOf;
  }

  lemma {:induction false} SourceAt(text: string, mark: char, fraction: string)
    ensures var source := text + [mark] + fraction;
            source[..|text|] == text && source[|text|] == mark && source[|text| + 1..] == fraction
  {
  }

  lemma {:induction false} BodyByTwo(text: string, mark: char, other: char, fraction: string)
    requires (mark == '.' && other == ',') || (mark == ',' && other == '.')
    requires mark !in text && other in text && AllDigits(fraction)
    ensures PartsOf(text + [mark] + fraction) == Some(Parts(text, fraction, SPACES + {other}, false))
  {
    hide Count, LastIndexOf, PartsOf;
    var source := text + [mark] + fraction;
    SourceAt(text, mark, fraction);
    CountMark(text, mark, fraction, mark);
    CountMark(text, mark, fraction, other);
    CountNone(text, other);
    PartsByTwo(source, |text|);
  }

  lemma {:induction false} BodyByOne(text: string, mark: char, other: char, fraction: string)
    requires (mark == '.' && other == ',') || (mark == ',' && other == '.')
    requires mark !in text && other !in text && AllDigits(fraction)
    ensures PartsOf(text + [mark] + fraction) == Some(Parts(text, fraction, SPACES, |fraction| == 3))
  {
    hide Count, LastIndexOf, PartsOf;
    var source := text + [mark] + fraction;
    SourceAt(text, mark, fraction);
    CountMark(text, mark, fraction, mark);
    CountMark(text, mark, fraction, other);
    CountNone(text, mark);
    CountNone(text, other);
    PartsByOne(source, |text|);
  }

  /** The decimal mark is the only dot or comma of the text, and three digits follow it. */
  predicate LoneMark(wholeDigits: nat, fraction: string, group: Option<char>) {
    |fraction| == 3 && (group.None? || wholeDigits <= 3 || group.value in SPACES)
  }

  /** The printed body is taken apart where it was put together. */
  lemma {:induction false} BodyParts(digits: string, group: Option<char>, mark: char, fraction: string)
    requires AllDigits(digits) && Separates(group, mark) && AllDigits(fraction)
    ensures var parts := PartsOf(Grouped(digits, group) + [mark] + fraction);
            && parts.Some? && parts.value.integerPart == Grouped(digits, group) && parts.value.fraction == fraction
            && NoDigits(parts.value.grouping)
            && (group.Some? && |digits| > 3 ==> group.value in parts.value.grouping)
            && parts.value.ambiguous == LoneMark(|digits|, fraction, group)
  {
    hide Grouped, PartsOf, AllDigits;
    var text, other := Grouped(digits, group), if mark == '.' then ',' else '.';
    GroupedShape(digits, group);
    MarkNotInGrouped(digits, group, mark, text);
    if group.Some? && |digits| > 3 && group.value !in SPACES {
      BodyByTwo(text, mark, other, fraction);
    } else {
      BodyByOne(text, mark, other, fraction);
    }
  }

  /** A grouped text has its group separator, if it is long enough, and no other. */
  lemma {:induction false} MarkNotInGrouped(digits: string, group: Option<char>, mark: char, text: string)
    requires Separates(group, mark) && DigitsOrGroup(text, group)
    requires (|digits| <= 3 ==> text == digits) && AllDigits(digits)
    ensures mark !in text
    ensures group.None? || |digits| <= 3 || group.value in SPACES ==> '.' !in text && ',' !in text
  {
  }

  // ---- Taking the sign off ----

  /** What a printed body is made of: none of it white space at an end, a sign or a bracket. */
  ghost predicate BodyLike(text: string) {
    && text != "" && IsDigit(text[0]) && IsDigit(text[|text| - 1])
    && forall i :: 0 <= i < |text| ==> IsDigit(text[i]) || text[i] in {'.', ','} || text[i] in SPACES
  }

  lemma {:induction false} BodyIsBodyLike(whole: nat, fraction: string, group: Option<char>, mark: char)
    requires Separates(group, mark) && AllDigits(fraction)
    ensures BodyLike(Body(whole, fraction, group, mark))
  {
    DecimalReads(whole);
    GroupedShape(Decimal(whole), group);
    hide Decimal, Grouped;
  }

  lemma {:induction false} NothingToTakeOff(text: string)
    requires BodyLike(text)
    ensures PlainMinus(text) == text && !Signed(text) && !Bracketed(text)
    ensures !HasAny(text, {'(', ')', '+', '-'}) && Trim(text) == text
  {
    TrimKeeps(text);
  }

  lemma {:induction false} SignTakenOff(sign: SignStyle, text: string)
    requires BodyLike(text)
    ensures Unsigned(sign.Around(text)) == Some((sign.Negative(), text))
  {
    var value := sign.Around(text);
    NothingToTakeOff(text);
    EndsPlain(text);
    AroundTrimmed(sign, text);
    hide *;
    AroundPlain(sign, text);
    match sign {
      case Unmarked => SignOffNone(text);
      case Plus => SignOffFirst('+', text);
      case Hyphen => SignOffFirst('-', text);
      case TrueMinus => SignOffFirst('-', text);
      case Accounting => SignOffBrackets(text);
    }
    UnsignedIs(value);
    NegativeIs(sign);
  }

  lemma {:induction false} UnsignedIs(value: string)
    ensures Unsigned(value) == SignOff(PlainMinus(Trim(value)))
  {
    hide SignOff, PlainMinus, Trim;
  }

  lemma {:induction false} NegativeIs(sign: SignStyle)
    ensures sign.Negative() <==> !sign.Unmarked? && !sign.Plus?
  {
  }

  lemma {:induction false} AroundTrimmed(sign: SignStyle, text: string)
    requires text != "" && !IsSpace(text[0]) && !IsSpace(text[|text| - 1])
    ensures Trim(sign.Around(text)) == sign.Around(text)
  {
    TrimKeeps(sign.Around(text));
    hide Trim;
  }

  /** With a plain minus sign, only the true minus changes. */
  lemma {:induction false} AroundPlain(sign: SignStyle, text: string)
    requires PlainMinus(text) == text && text != ""
    ensures PlainMinus(sign.Around(text))
            == match sign
               case Unmarked => text
               case Plus => "+" + text
               case Hyphen => "-" + text
               case TrueMinus => "-" + text
               case Accounting => "(" + text + ")"
  {
    match sign {
      case Unmarked =>
      case Plus => PlainMinusAfter('+', text, "");
      case Hyphen => PlainMinusAfter('-', text, "");
      case TrueMinus => PlainMinusAfter(MINUS_SIGN, text, "");
      case Accounting => PlainMinusAfter('(', text, ")");
    }
    hide PlainMinus;
    assert text + "" == text;
    assert forall c: char :: [c] + text + "" == [c] + text;
  }

  lemma {:induction false} SignOffNone(text: string)
    requires text != "" && !Signed(text) && !Bracketed(text) && !HasAny(text, {'(', ')', '+', '-'})
    ensures SignOff(text) == Some((false, text))
  {
    hide HasAny, Trim;
  }

  lemma {:induction false} SignOffFirst(sign: char, text: string)
    requires sign == '+' || sign == '-'
    requires text != "" && !HasAny(text, {'(', ')', '+', '-'})
    ensures SignOff([sign] + text) == Some((sign == '-', text))
  {
    hide HasAny, Trim;
    assert ([sign] + text)[1..] == text;
  }

  lemma {:induction false} SignOffBrackets(text: string)
    requires text != "" && !Signed(text) && !HasAny(text, {'(', ')', '+', '-'}) && Trim(text) == text
    ensures SignOff("(" + text + ")") == Some((true, text))
  {
    hide HasAny, Trim;
    var source := "(" + text + ")";
    assert source[1..|source| - 1] == text;
  }

  lemma {:induction false} EndsPlain(text: string)
    requires BodyLike(text)
    ensures text != "" && !IsSpace(text[0]) && !IsSpace(text[|text| - 1])
  {
  }

  /** Only the sign put before a text changes. */
  lemma {:induction false} PlainMinusAfter(first: char, text: string, last: string)
    requires PlainMinus(text) == text && (last == "" || last == ")")
    ensures PlainMinus([first] + text + last) == [if first == MINUS_SIGN then '-' else first] + text + last
  {
    assert forall i :: 0 <= i < |text| ==> PlainMinus(text)[i] == text[i];
  }

  // ---- The round trip ----

  /** The amount a text with this whole part and fraction stands for. */
  function AmountOf(whole: nat, fraction: string): real {
    whole as real + DigitsValue(fraction) as real / PowerOfTen(|fraction|) as real
  }

  lemma {:induction false} PartsRead(whole: nat, parts: Parts, negative: bool)
    requires AllDigits(parts.fraction) && Ungroup(parts.integerPart, parts.grouping) == Some(Decimal(whole))
    ensures var x := AmountOf(whole, parts.fraction);
            var cents := (100.0 * x + 0.5).Floor;
            ReadParts(parts, negative)
            == Amount(SignedCents(negative, cents), parts.ambiguous, |parts.fraction| > 2 && MovedACent(x, cents))
  {
    DecimalReads(whole);
    RoundsHalfUp(Decimal(whole), parts.fraction);
    assert AmountOf(whole, parts.fraction) == Exact(Decimal(whole), parts.fraction);
    hide Ungroup, DigitsValue, MovedACent, Decimal, RoundToCents, Exact, AmountOf;
  }

  /**
   * Any amount printed with any number of decimals, grouped in threes or not, with a sign or in
   * accounting brackets, parses to floor(100 x + 1/2) cents. It is flagged as ambiguous exactly when
   * its mark is the only dot or comma and three digits follow it, and as rounded exactly when more
   * than two digits do and rounding moved it by a twentieth of a cent.
   */
  lemma {:induction false} PrintedRoundsHalfUp(whole: nat, fraction: string, sign: SignStyle, group: Option<char>,
                                               mark: char)
    requires Separates(group, mark) && AllDigits(fraction)
    ensures var x := AmountOf(whole, fraction);
            var cents := (100.0 * x + 0.5).Floor;
            Parse(sign.Around(Body(whole, fraction, group, mark)))
            == Amount(SignedCents(sign.Negative(), cents), LoneMark(|Decimal(whole)|, fraction, group),
                      |fraction| > 2 && MovedACent(x, cents))
  {
    hide Decimal, Grouped, BodyLike, PartsOf, Unsigned, Ungroup, ReadParts, Parse, SignStyle.Around;
    hide AmountOf, MovedACent;
    var digits, body := Decimal(whole), Body(whole, fraction, group, mark);
    DecimalReads(whole);
    BodyIsBodyLike(whole, fraction, group, mark);
    SignTakenOff(sign, body);
    BodyParts(digits, group, mark, fraction);
    var parts := PartsOf(body).value;
    GroupedUngroups(digits, group, parts.grouping);
    PartsRead(whole, parts, sign.Negative());
    ParseSteps(sign.Around(body), sign.Negative(), body, parts);
  }

  /**
   * Any amount printed with two decimals, grouped in threes or not, with a sign or in accounting
   * brackets, reads back as exactly that amount with nothing flagged.
   */
  lemma {:induction false} PrintedReadsBack(cents: nat, sign: SignStyle, group: Option<char>, mark: char)
    requires Separates(group, mark)
    ensures Parse(Printed(cents, sign, group, mark))
            == Amount(SignedCents(sign.Negative(), cents), false, false)
  {
    hide Decimal, Body, Parse, SignStyle.Around, MovedACent, DigitsValue;
    TwoDigitsRead(cents % 100);
    PrintedRoundsHalfUp(cents / 100, TwoDigits(cents % 100), sign, group, mark);
    TwoPlaces();
    WholeCentsStay(cents, AmountOf(cents / 100, TwoDigits(cents % 100)));
  }

  lemma {:induction false} WholeCentsStay(cents: nat, x: real)
    requires x == (cents / 100) as real + (cents % 100) as real / 100.0
    ensures (100.0 * x + 0.5).Floor == cents
  {
    assert 100.0 * x == (100 * (cents / 100) + cents % 100) as real;
  }

  lemma {:induction false} ParseSteps(value: string, negative: bool, source: string, parts: Parts)
    requires Unsigned(value) == Some((negative, source)) && PartsOf(source) == Some(parts)
    ensures Parse(value) == ReadParts(parts, negative)
  {
    hide Unsigned, PartsOf, ReadParts;
  }

  /** Whatever text parses, its cents are its exact amount rounded half up, the sign put back on. */
  lemma {:induction false} ParsedIsRounded(value: string)
    requires Parse(value).Amount?
    ensures exists negative, source, parts: Parts, whole: string ::
              && Unsigned(value) == Some((negative, source)) && PartsOf(source) == Some(parts)
              && Ungroup(parts.integerPart, parts.grouping) == Some(whole) && AllDigits(whole)
              && var x := (100.0 * Exact(whole, parts.fraction) + 0.5).Floor;
                 Parse(value).cents == SignedCents(negative, x)
  {
    var (negative, source) := Unsigned(value).value;
    var parts := PartsOf(source).value;
    var whole := Ungroup(parts.integerPart, parts.grouping).value;
    UngroupedDigits(parts.integerPart, parts.grouping);
    RoundsHalfUp(whole, parts.fraction);
    hide Unsigned, PartsOf, Ungroup, RoundToCents, Exact, DigitsValue;
  }

  lemma {:induction false} UngroupedDigits(text: string, separators: set<char>)
    requires Ungroup(text, separators).Some?
    ensures AllDigits(Ungroup(text, separators).value)
  {
    if HasAny(text, separators) {
      JoinedDigits(Split(text, separators));
    }
  }

  lemma {:induction false} JoinedDigits(groups: seq<string>)
    requires groups != [] && WellGrouped(groups)
    ensures AllDigits(Joined(groups))
  {
    var n := |groups| - 1;
    if n == 0 {
      assert groups[..0] == [];
    } else {
      JoinedDigits(groups[..n]);
    }
  }

  // ---- Whole amounts printed in groups: what the flag is for ----

  lemma {:induction false} SmallLengths(n: nat)
    ensures |Decimal(n)| <= 2 <==> n < 100
    ensures |Decimal(n)| <= 3 <==> n < 1000
    ensures |Decimal(n)| <= 4 <==> n < 10000
    ensures |Decimal(n)| <= 5 <==> n < 100000
    ensures |Decimal(n)| <= 6 <==> n < 1000000
  {
    AtMostDigits(n, 2);
    AtMostDigits(n, 3);
    AtMostDigits(n, 4);
    AtMostDigits(n, 5);
    AtMostDigits(n, 6);
    assert PowerOfTen(2) == 100 && PowerOfTen(3) == 1000 && PowerOfTen(4) == 10000;
    assert PowerOfTen(5) == 100000 && PowerOfTen(6) == 1000000;
  }

  lemma {:induction false} AtMostDigits(n: nat, k: nat)
    requires k >= 1
    ensures |Decimal(n)| <= k <==> n < PowerOfTen(k)
  {
    if n < 10 {
      assert PowerOfTen(k) >= 10;
    } else if k == 1 {
      AtMostDigits(n / 10, 1);
      assert PowerOfTen(1) == 10;
    } else {
      AtMostDigits(n / 10, k - 1);
    }
  }

  lemma {:induction false} GroupCount(digits: string, group: char)
    requires AllDigits(digits) && !IsDigit(group)
    ensures |digits| <= 3 ==> Count(Grouped(digits, Some(group)), group) == 0
    ensures |digits| > 3 ==> Count(Grouped(digits, Some(group)), group) >= 1
    ensures |digits| > 6 ==> Count(Grouped(digits, Some(group)), group) >= 2
    decreases |digits|
  {
    if |digits| <= 3 {
      CountNone(digits, group);
    } else {
      var n := |digits| - 3;
      GroupCount(digits[..n], group);
      CountMark(Grouped(digits[..n], Some(group)), group, digits[n..], group);
    }
  }

  lemma {:induction false} GroupedBodyLike(digits: string, group: char)
    requires AllDigits(digits) && (group == '.' || group == ',')
    ensures BodyLike(Grouped(digits, Some(group)))
  {
    GroupedShape(digits, Some(group));
  }

  /** No separator at all, or one used again and again: grouping, and no decimals. */
  lemma {:induction false} NoDecimals(digits: string, group: char, other: char)
    requires AllDigits(digits)
    requires (group == '.' && other == ',') || (group == ',' && other == '.')
    requires |digits| <= 3 || |digits| > 6
    ensures var parts := PartsOf(Grouped(digits, Some(group)));
            && parts.Some? && parts.value.fraction == "" && !parts.value.ambiguous
            && Ungroup(parts.value.integerPart, parts.value.grouping) == Some(digits)
  {
    hide Grouped, Count;
    var text := Grouped(digits, Some(group));
    GroupedShape(digits, Some(group));
    GroupCount(digits, group);
    CountNone(text, other);
    assert other !in text;
    if |digits| <= 3 {
      GroupedUngroups(digits, Some(group), SPACES);
    } else {
      GroupedUngroups(digits, Some(group), SPACES + {group});
    }
  }

  lemma {:induction false} WholeReads(digits: string, n: nat, parts: Parts)
    requires Ungroup(parts.integerPart, parts.grouping) == Some(digits) && parts.fraction == "" && !parts.ambiguous
    requires DigitsValue(digits) == n
    ensures ReadParts(parts, false) == Amount(100 * n, false, false)
  {
  }

  lemma {:induction false} OneGroupCents(front: string, last: string, n: nat)
    requires AllDigits(front) && AllDigits(last) && |last| == 3 && DigitsValue(front + last) == n >= 1000
    ensures RoundToCents(front, last) < 100 * n
  {
    DigitsTogether(front + last[..2], last[2..]);
    OneDigit(last[2]);
    assert (front + last[..2]) + last[2..] == front + last && last[2..] == [last[2]];
    var cents := DigitsValue(front + last[..2]);
    assert PowerOfTen(1) == 10;
    assert RoundToCents(front, last) <= cents + 1;
    hide *;
    assert n == 10 * cents + DigitValue(last[2]);
    TenTimesMore(n, cents, DigitValue(last[2]));
  }

  lemma {:induction false} TenTimesMore(n: int, cents: int, digit: int)
    requires n == 10 * cents + digit && digit >= 0 && n >= 1000
    ensures cents + 1 < 100 * n
  {
  }

  lemma {:induction false} MisreadParts(front: string, last: string, n: nat)
    requires AllDigits(front) && AllDigits(last) && |last| == 3 && DigitsValue(front + last) == n >= 1000
    ensures var reading := ReadParts(Parts(front, last, SPACES, true), false);
            reading.Amount? && reading.ambiguousSeparator && reading.cents < 100 * n
  {
    OneGroupCents(front, last, n);
    GroupedUngroups(front, None, SPACES);
    hide Ungroup, DigitsValue, RoundToCents, MovedACent, Exact;
  }

  /** One group of three after the only separator reads as decimals, and is flagged. */
  lemma {:induction false} OneGroupMisreads(digits: string, n: nat, group: char, other: char)
    requires AllDigits(digits) && DigitsValue(digits) == n >= 1000
    requires (group == '.' && other == ',') || (group == ',' && other == '.')
    requires 3 < |digits| <= 6 && !IsDigit(group) && !IsDigit(other)
    ensures var parts := PartsOf(Grouped(digits, Some(group)));
            && parts.Some? && ReadParts(parts.value, false).Amount?
            && ReadParts(parts.value, false).ambiguousSeparator
            && ReadParts(parts.value, false).cents < 100 * n
  {
    hide *;
    var front, last := GroupedOnce(digits, group, other);
    BodyByOne(front, group, other, last);
    MisreadParts(front, last, n);
  }

  lemma {:induction false} GroupedOnce(digits: string, group: char, other: char) returns (front: string, last: string)
    requires AllDigits(digits) && 3 < |digits| <= 6 && !IsDigit(group) && !IsDigit(other)
    ensures Grouped(digits, Some(group)) == front + [group] + last && digits == front + last
    ensures AllDigits(front) && AllDigits(last) && |last| == 3
    ensures group !in front && other !in front
  {
    var k := |digits| - 3;
    front, last := digits[..k], digits[k..];
  }

  /**
   * A whole amount printed in groups with a dot or a comma and no decimals reads back exactly,
   * unless it has just one group separator; then, and only then, it is flagged.
   */
  lemma {:induction false} FlagMarksMisreading(n: nat, group: char)
    requires group == '.' || group == ','
    ensures var reading := Parse(Grouped(Decimal(n), Some(group)));
            && reading.Amount?
            && (reading.ambiguousSeparator <==> 1000 <= n < 1000000)
            && (reading.ambiguousSeparator <==> reading.cents != 100 * n)
  {
    var digits, other := Decimal(n), if group == '.' then ',' else '.';
    var text := Grouped(digits, Some(group));
    DecimalReads(n);
    SmallLengths(n);
    GroupedBodyLike(digits, group);
    SignTakenOff(Unmarked, text);
    hide Decimal, Grouped, PartsOf, Unsigned, Ungroup, ReadParts, Parse, BodyLike;
    if |digits| <= 3 || |digits| > 6 {
      NoDecimals(digits, group, other);
      WholeReads(digits, n, PartsOf(text).value);
    } else {
      OneGroupMisreads(digits, n, group, other);
    }
    ParseSteps(text, false, text, PartsOf(text).value);
  }
}
