/** The names a restore gives the profiles of a backup (shared/profileSchema.ts). */
module ProfileNames {
  import opened Text

  /** How a character is put in lower case: it may become any text, but a number in brackets keeps its own. */
  type Lowering = char -> string

  ghost predicate KeepsNumbers(lower: Lowering) {
    forall c :: IsDigit(c) || c == ' ' || c == '(' || c == ')' ==> lower(c) == [c]
  }

  function Lowered(lower: Lowering, s: string): string {
    if s == "" then "" else Lowered(lower, s[..|s| - 1]) + lower(s[|s| - 1])
  }

  /** What makes two names the same profile name. */
  function Key(lower: Lowering, name: string): string {
    Lowered(lower, Trim(name))
  }

  predicate Blank(name: string) {
    Trim(name) == ""
  }

  function InBrackets(n: nat): string {
    " (" + Decimal(n) + ")"
  }

  function Numbered(name: string, n: nat): string {
    Trim(name) + InBrackets(n)
  }

  // ---- What a name must come back as ----

  /** The keys of the names that are not blank. */
  function KeysOf(lower: Lowering, names: seq<string>): set<string> {
    set name | name in names && !Blank(name) :: Key(lower, name)
  }

  /** The keys no numbered name may take: those of the file, and those of the names given so far. */
  function Taken(lower: Lowering, names: seq<string>, given: seq<string>): set<string> {
    (set name | name in names :: Key(lower, name)) + KeysOf(lower, given)
  }

  /** The first number, from 2, whose name is not taken. */
  ghost predicate FirstFree(lower: Lowering, name: string, taken: set<string>, n: nat) {
    && n >= 2
    && Key(lower, Numbered(name, n)) !in taken
    && forall m :: 2 <= m < n ==> Key(lower, Numbered(name, m)) in taken
  }

  /** A name as it came, unless one before it in the file is the same: then its first free number. */
  ghost predicate Settled(lower: Lowering, names: seq<string>, given: seq<string>, result: string)
    requires |given| < |names|
  {
    var name := names[|given|];
    if Blank(name) || Key(lower, name) !in KeysOf(lower, names[..|given|]) then result == name
    else exists n :: FirstFree(lower, name, Taken(lower, names, given), n) && result == Numbered(name, n)
  }

  ghost predicate AllSettled(lower: Lowering, names: seq<string>, given: seq<string>) {
    && |given| <= |names|
    && forall i :: 0 <= i < |given| ==> Settled(lower, names, given[..i], given[i])
  }

  // ---- Numbered names ----

  lemma {:induction false} LoweredTogether(lower: Lowering, a: string, b: string)
    ensures Lowered(lower, a + b) == Lowered(lower, a) + Lowered(lower, b)
    decreases |b|
  {
    if b == "" {
      assert a + b == a;
    } else {
      var n := |b| - 1;
      var ab := a + b;
      assert ab[..|ab| - 1] == a + b[..n] && ab[|ab| - 1] == b[n];
      LoweredTogether(lower, a, b[..n]);
      assert Lowered(lower, ab) == Lowered(lower, a + b[..n]) + lower(b[n]);
      assert Lowered(lower, b) == Lowered(lower, b[..n]) + lower(b[n]);
      hide Lowered;
    }
  }

  predicate NumberText(s: string) {
    forall i :: 0 <= i < |s| ==> IsDigit(s[i]) || s[i] == ' ' || s[i] == '(' || s[i] == ')'
  }

  lemma {:induction false} NumberIsText(n: nat)
    ensures NumberText(InBrackets(n))
  {
    DecimalReads(n);
    hide Decimal, DigitsValue;
  }

  lemma {:induction false} LoweredNumber(lower: Lowering, s: string)
    requires KeepsNumbers(lower) && NumberText(s)
    ensures Lowered(lower, s) == s
  {
    if s == "" {
    } else {
      var n := |s| - 1;
      LoweredNumber(lower, s[..n]);
      assert lower(s[n]) == [s[n]] && s == s[..n] + [s[n]];
      hide NumberText, KeepsNumbers;
    }
  }

  lemma {:induction false} NumberedTrimmed(name: string, n: nat)
    requires !Blank(name)
    ensures Trim(Numbered(name, n)) == Numbered(name, n) != ""
  {
    var before, after := TrimSays(name);
    var text := Numbered(name, n);
    assert text[0] == Trim(name)[0] && text[|text| - 1] == ')';
    TrimKeeps(text) by {
      hide TrimStart, TrimEnd, Decimal;
    }
  }

  lemma {:induction false} NumberedKey(lower: Lowering, name: string, n: nat)
    requires KeepsNumbers(lower) && !Blank(name)
    ensures Key(lower, Numbered(name, n)) == Key(lower, name) + InBrackets(n)
    ensures !Blank(Numbered(name, n))
  {
    NumberedTrimmed(name, n);
    NumberIsText(n);
    hide TrimStart, TrimEnd, Trim, InBrackets, Lowered, KeepsNumbers, NumberText;
    LoweredTogether(lower, Trim(name), InBrackets(n));
    LoweredNumber(lower, InBrackets(n));
  }

  lemma {:induction false} SameEnd(start: string, a: string, b: string)
    requires start + a == start + b
    ensures a == b
  {
    assert (start + a)[|start|..] == a && (start + b)[|start|..] == b;
  }

  lemma {:induction false} BracketsHold(n: nat)
    ensures |InBrackets(n)| >= 3 && InBrackets(n)[2..|InBrackets(n)| - 1] == Decimal(n)
  {
    hide Decimal;
  }

  /** Different numbers make different names. */
  lemma {:induction false} NumbersApart(lower: Lowering, name: string, m: nat, n: nat)
    requires KeepsNumbers(lower) && !Blank(name)
    requires Key(lower, Numbered(name, m)) == Key(lower, Numbered(name, n))
    ensures m == n
  {
    NumberedKey(lower, name, m);
    NumberedKey(lower, name, n);
    DecimalReads(m);
    DecimalReads(n);
    hide *;
    SameEnd(Key(lower, name), InBrackets(m), InBrackets(n));
    BracketsHold(m);
    BracketsHold(n);
  }

  // ---- A free number exists ----

  /** The keys of the numbers from 2 up to `n`. */
  ghost function Tried(lower: Lowering, name: string, n: nat): set<string>
    requires n >= 2
  {
    if n == 2 then {} else Tried(lower, name, n - 1) + {Key(lower, Numbered(name, n - 1))}
  }

  lemma {:induction false} TriedAre(lower: Lowering, name: string, n: nat, key: string)
    requires n >= 2 && key in Tried(lower, name, n)
    ensures exists m :: 2 <= m < n && key == Key(lower, Numbered(name, m))
  {
    if key == Key(lower, Numbered(name, n - 1)) {
    } else {
      TriedAre(lower, name, n - 1, key);
    }
  }

  lemma {:induction false} TriedCount(lower: Lowering, name: string, n: nat)
    requires n >= 2 && KeepsNumbers(lower) && !Blank(name)
    ensures |Tried(lower, name, n)| == n - 2
  {
    hide Key, Numbered, KeepsNumbers, Blank;
    if n > 2 {
      TriedCount(lower, name, n - 1);
      var last := Key(lower, Numbered(name, n - 1));
      if last in Tried(lower, name, n - 1) {
        TriedAre(lower, name, n - 1, last);
        var m :| 2 <= m < n - 1 && last == Key(lower, Numbered(name, m));
        NumbersApart(lower, name, m, n - 1);
        assert false;
      }
    }
  }

  lemma {:induction false} SubsetNoLarger(a: set<string>, b: set<string>)
    requires a <= b
    ensures |a| <= |b|
  {
    if a == {} {
    } else {
      var x :| x in a;
      SubsetNoLarger(a - {x}, b - {x});
    }
  }

  /** As many tries as there are taken keys always find a free one. */
  lemma {:induction false} TriesEnd(lower: Lowering, name: string, n: nat, taken: set<string>)
    requires n >= 2 && KeepsNumbers(lower) && !Blank(name) && Tried(lower, name, n) <= taken
    ensures n - 2 <= |taken|
  {
    TriedCount(lower, name, n);
    SubsetNoLarger(Tried(lower, name, n), taken);
  }

  /** The numbering loop of one name. */
  method FreeNumber(lower: Lowering, name: string, inFile: set<string>, given: set<string>) returns (n: nat)
    requires KeepsNumbers(lower) && !Blank(name)
    ensures FirstFree(lower, name, inFile + given, n)
  {
    hide Key, Numbered, KeepsNumbers, Blank;
    n := 2;
    while Key(lower, Numbered(name, n)) in inFile || Key(lower, Numbered(name, n)) in given
      invariant n >= 2 && Tried(lower, name, n) <= inFile + given
      invariant forall m :: 2 <= m < n ==> Key(lower, Numbered(name, m)) in inFile + given
      decreases |inFile + given| + 2 - n
    {
      n := n + 1;
      TriesEnd(lower, name, n, inFile + given);
    }
  }

  // ---- What the names given so far hold ----

  lemma {:induction false} NumberedIsFresh(lower: Lowering, names: seq<string>, given: seq<string>, result: string)
    requires KeepsNumbers(lower) && |given| < |names| && Settled(lower, names, given, result)
    requires result != names[|given|]
    ensures Key(lower, result) !in Taken(lower, names, given) && !Blank(result) && !Blank(names[|given|])
    ensures Key(lower, names[|given|]) in KeysOf(lower, names[..|given|])
  {
    hide Key, Numbered, KeepsNumbers, Blank, KeysOf, Taken;
    var n :| FirstFree(lower, names[|given|], Taken(lower, names, given), n) && result == Numbered(names[|given|], n);
    NumberedKey(lower, names[|given|], n);
  }

  lemma {:induction false} SettledAt(lower: Lowering, names: seq<string>, given: seq<string>, i: nat)
    requires AllSettled(lower, names, given) && i < |given|
    ensures AllSettled(lower, names, given[..i]) && Settled(lower, names, given[..i], given[i])
  {
    hide Settled;
    forall j | 0 <= j < i
      ensures Settled(lower, names, given[..i][..j], given[..i][j])
    {
      assert given[..i][..j] == given[..j];
    }
  }

  /** Of the file's own keys, the names given so far hold exactly those of the names read so far. */
  lemma {:induction false} GivenBefore(lower: Lowering, names: seq<string>, given: seq<string>, name: string)
    requires KeepsNumbers(lower) && AllSettled(lower, names, given) && name in names
    ensures Key(lower, name) in KeysOf(lower, given) <==> Key(lower, name) in KeysOf(lower, names[..|given|])
    decreases |given|
  {
    hide Key, KeepsNumbers, Blank, Settled, Taken;
    var key := Key(lower, name);
    if given == [] {
    } else {
      hide KeysOf;
      var i := |given| - 1;
      var result := given[i];
      SettledAt(lower, names, given, i);
      GivenBefore(lower, names, given[..i], name);
      KeysWith(lower, given[..i], result);
      KeysWith(lower, names[..i], names[i]);
      assert given == given[..i] + [result] && names[..|given|] == names[..i] + [names[i]];
      if result != names[i] {
        NumberedIsFresh(lower, names, given[..i], result);
        InFileTaken(lower, names, given[..i], name);
      }
    }
  }

  lemma {:induction false} InFileTaken(lower: Lowering, names: seq<string>, given: seq<string>, name: string)
    requires name in names
    ensures Key(lower, name) in Taken(lower, names, given)
  {
    hide Key;
  }

  lemma {:induction false} KeysWith(lower: Lowering, names: seq<string>, name: string)
    ensures KeysOf(lower, names + [name])
            == KeysOf(lower, names) + (if Blank(name) then {} else {Key(lower, name)})
  {
    hide Key, Blank;
  }

  lemma {:induction false} SettledNext(lower: Lowering, names: seq<string>, given: seq<string>, result: string)
    requires AllSettled(lower, names, given) && |given| < |names| && Settled(lower, names, given, result)
    ensures AllSettled(lower, names, given + [result])
  {
    hide Settled;
    forall i | 0 <= i < |given| + 1
      ensures Settled(lower, names, (given + [result])[..i], (given + [result])[i])
    {
      if i < |given| {
        assert (given + [result])[..i] == given[..i];
      } else {
        assert (given + [result])[..i] == given;
      }
    }
  }

  method DistinctProfileNames(lower: Lowering, names: seq<string>) returns (results: seq<string>)
    requires KeepsNumbers(lower)
    ensures |results| == |names| && AllSettled(lower, names, results)
  {
    var inFile := set name | name in names :: Key(lower, name);
    var given: set<string> := {};
    results := [];
    hide Key, Blank, AllSettled, FirstFree, Numbered, KeepsNumbers, KeysOf;
    NothingSettled(lower, names);
    for i := 0 to |names|
      invariant |results| == i && AllSettled(lower, names, results) && given == KeysOf(lower, results)
    {
      var name := names[i];
      var result := name;
      GivenBefore(lower, names, results, name);
      if !Blank(name) {
        if Key(lower, name) in given {
          var n := FreeNumber(lower, name, inFile, given);
          result := Numbered(name, n);
          NumberedKey(lower, name, n);
        }
        given := given + {Key(lower, result)};
      }
      KeysWith(lower, results, result);
      SettledNext(lower, names, results, result);
      results := results + [result];
    }
  }

  lemma {:induction false} NothingSettled(lower: Lowering, names: seq<string>)
    ensures AllSettled(lower, names, []) && KeysOf(lower, []) == {}
  {
  }

  // ---- What a restore may rely on ----

  /** The same but for case and the white space around. */
  ghost predicate SameName(lower: Lowering, a: string, b: string) {
    Lowered(lower, Trim(a)) == Lowered(lower, Trim(b))
  }

  /** Held by the file, or given before the i-th name. */
  ghost predicate InUse(lower: Lowering, names: seq<string>, results: seq<string>, i: nat, name: string)
    requires i <= |results|
  {
    || (exists j :: 0 <= j < |names| && SameName(lower, names[j], name))
    || (exists j :: 0 <= j < i && SameName(lower, results[j], name))
  }

  lemma {:induction false} UsedIsTaken(lower: Lowering, names: seq<string>, results: seq<string>, i: nat,
                                       name: string)
    requires i <= |results| && Key(lower, name) != ""
    ensures InUse(lower, names, results, i, name) <==> Key(lower, name) in Taken(lower, names, results[..i])
  {
    var key := Key(lower, name);
    assert Lowered(lower, "") == "";
    hide Trim, Lowered;
    forall j | 0 <= j < |names| && Key(lower, names[j]) == key
      ensures key in Taken(lower, names, results[..i])
    {
      assert names[j] in names;
    }
    forall j | 0 <= j < i && Key(lower, results[j]) == key
      ensures key in Taken(lower, names, results[..i])
    {
      assert results[j] in results[..i] && !Blank(results[j]);
    }
  }

  lemma {:induction false} EarlierSame(lower: Lowering, names: seq<string>, i: nat)
    requires i < |names|
    ensures Key(lower, names[i]) in KeysOf(lower, names[..i])
            <==> exists j :: 0 <= j < i && Trim(names[j]) != "" && SameName(lower, names[j], names[i])
  {
    hide Trim, Lowered;
    forall j | 0 <= j < i && Trim(names[j]) != "" && SameName(lower, names[j], names[i])
      ensures Key(lower, names[i]) in KeysOf(lower, names[..i])
    {
      assert names[j] in names[..i];
    }
  }

  /** The name with the number in brackets after it. */
  function WithNumber(name: string, n: nat): string {
    Trim(name) + " (" + Decimal(n) + ")"
  }

  /** n is the first number from 2 whose name is not in use, and the i-th name comes back with it. */
  ghost predicate ComesNumbered(lower: Lowering, names: seq<string>, results: seq<string>, i: nat, n: nat)
    requires i < |results| && i < |names|
  {
    && n >= 2 && results[i] == WithNumber(names[i], n)
    && !InUse(lower, names, results, i, results[i])
    && forall m: nat :: 2 <= m < n ==> InUse(lower, names, results, i, WithNumber(names[i], m))
  }

  lemma {:induction false} IsNumbered(name: string, n: nat)
    ensures Numbered(name, n) == WithNumber(name, n)
  {
    hide Trim, Decimal;
  }

  lemma {:induction false} FirstFreeComes(lower: Lowering, names: seq<string>, results: seq<string>, i: nat, n: nat)
    requires KeepsNumbers(lower) && i < |results| && i < |names| && !Blank(names[i])
    requires FirstFree(lower, names[i], Taken(lower, names, results[..i]), n) && results[i] == Numbered(names[i], n)
    ensures ComesNumbered(lower, names, results, i, n)
  {
    hide Trim, Lowered, KeysOf, Taken, InUse, Key, WithNumber, Numbered, KeepsNumbers, Decimal;
    forall m: nat | 2 <= m <= n
      ensures Numbered(names[i], m) == WithNumber(names[i], m)
      ensures InUse(lower, names, results, i, Numbered(names[i], m))
              <==> Key(lower, Numbered(names[i], m)) in Taken(lower, names, results[..i])
    {
      IsNumbered(names[i], m);
      NumberedKey(lower, names[i], m);
      BracketsHold(m);
      UsedIsTaken(lower, names, results, i, Numbered(names[i], m));
    }
  }

  /**
   * A name comes back as it was when it is blank or none before it is the same. Otherwise it comes
   * back with a number from 2 in brackets after it, the first whose name is not in use.
   */
  lemma {:induction false} NamesSay(lower: Lowering, names: seq<string>, results: seq<string>, i: nat)
    requires KeepsNumbers(lower) && AllSettled(lower, names, results) && i < |results|
    ensures if Trim(names[i]) == "" || forall j :: 0 <= j < i && Trim(names[j]) != "" ==>
                                         !SameName(lower, names[j], names[i])
            then results[i] == names[i]
            else exists n: nat :: ComesNumbered(lower, names, results, i, n)
  {
    SettledAt(lower, names, results, i);
    EarlierSame(lower, names, i);
    hide Trim, KeysOf, Taken, Key, Numbered, KeepsNumbers, ComesNumbered, SameName, FirstFree;
    if !Blank(names[i]) && Key(lower, names[i]) in KeysOf(lower, names[..i]) {
      var n :| FirstFree(lower, names[i], Taken(lower, names, results[..i]), n) && results[i] == Numbered(names[i], n);
      FirstFreeComes(lower, names, results, i, n);
    }
  }

  /** No two names of the result that are not blank are the same name. */
  lemma {:induction false} NamesApart(lower: Lowering, names: seq<string>, results: seq<string>, i: nat, j: nat)
    requires KeepsNumbers(lower) && AllSettled(lower, names, results)
    requires i < j < |results| && !Blank(results[i]) && !Blank(results[j])
    ensures Key(lower, results[i]) != Key(lower, results[j])
  {
    SettledAt(lower, names, results, j);
    assert results[i] in results[..j];
    assert Key(lower, results[i]) in KeysOf(lower, results[..j]);
    if results[j] == names[j] {
      GivenBefore(lower, names, results[..j], names[j]);
      InFileTaken(lower, names, results[..j], names[j]);
    } else {
      NumberedIsFresh(lower, names, results[..j], results[j]);
    }
  }

  /** A new name is no name the file holds, and a blank name stays blank. */
  lemma {:induction false} NewNamesAreNew(lower: Lowering, names: seq<string>, results: seq<string>, i: nat)
    requires KeepsNumbers(lower) && AllSettled(lower, names, results) && i < |results|
    ensures Blank(results[i]) <==> Blank(names[i])
    ensures results[i] != names[i] ==> forall name :: name in names ==> Key(lower, results[i]) != Key(lower, name)
    ensures results[i] != names[i] ==>
              exists j :: 0 <= j < i && results[j] == names[j] && Key(lower, names[j]) == Key(lower, names[i])
  {
    SettledAt(lower, names, results, i);
    if results[i] != names[i] {
      NumberedIsFresh(lower, names, results[..i], results[i]);
      var first := FirstNamed(lower, names, results, i);
    }
  }

  /** A repeated name's first holder keeps it as it came. */
  lemma {:induction false} FirstNamed(lower: Lowering, names: seq<string>, results: seq<string>, i: nat)
    returns (j: nat)
    requires AllSettled(lower, names, results) && i < |results|
    requires Key(lower, names[i]) in KeysOf(lower, names[..i])
    ensures j < i && results[j] == names[j] && Key(lower, names[j]) == Key(lower, names[i])
  {
    var name :| name in names[..i] && !Blank(name) && Key(lower, name) == Key(lower, names[i]);
    j :| 0 <= j < i && names[j] == name;
    if Key(lower, names[j]) in KeysOf(lower, names[..j]) {
      j := FirstNamed(lower, names, results, j);
    } else {
      SettledAt(lower, names, results, j);
    }
  }

  /** Restoring what was restored changes no name. */
  lemma {:induction false} RestoredAgain(lower: Lowering, names: seq<string>, results: seq<string>, again: seq<string>)
    requires KeepsNumbers(lower) && |names| == |results| == |again|
    requires AllSettled(lower, names, results) && AllSettled(lower, results, again)
    ensures again == results
  {
    forall i | 0 <= i < |again|
      ensures again[i] == results[i]
    {
      SettledAt(lower, results, again, i);
      if !Blank(results[i]) && Key(lower, results[i]) in KeysOf(lower, results[..i]) {
        var name :| name in results[..i] && !Blank(name) && Key(lower, name) == Key(lower, results[i]);
        var j :| 0 <= j < i && results[j] == name;
        NamesApart(lower, names, results, j, i);
        assert false;
      }
    }
  }
}
