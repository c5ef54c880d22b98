/** What an export writes, an import reads back: exactly which tables survive the trip. */
module CsvRoundTrip {
  import opened Sorting
  import opened Text
  import opened Csv
  import opened CsvFiles

  /** A cell that reaches the reader whole: quoted, or without a carriage return. */
  predicate Whole(text: string) {
    '"' in text || ',' in text || '\n' in text || '\r' !in text
  }

  /** What the reader makes of a whole cell: unquoted ones lose the white space around them. */
  function ReadBack(text: string): string {
    if NeedsQuotes(text) then text else Trim(text)
  }

  function ReadRow(cells: seq<string>): (row: seq<string>)
    ensures |row| == |cells|
  {
    seq(|cells|, i requires 0 <= i < |cells| => ReadBack(cells[i]))
  }

  function ReadTable(table: seq<seq<string>>): (rows: seq<seq<string>>)
    ensures |rows| == |table|
  {
    seq(|table|, i requires 0 <= i < |table| => ReadRow(table[i]))
  }

  predicate WholeRow(cells: seq<string>) {
    forall i :: 0 <= i < |cells| ==> Whole(cells[i])
  }

  predicate WholeTable(table: seq<seq<string>>) {
    forall i :: 0 <= i < |table| ==> WholeRow(table[i])
  }

  /** Every row of a table has a cell. */
  predicate HasCells(table: seq<seq<string>>) {
    forall i :: 0 <= i < |table| ==> table[i] != []
  }

  // ---- The cells of an export, as a file holds them ----

  function CellOf(text: string): RawCell {
    if NeedsQuotes(text) then Quoted("", text, "") else Bare(text)
  }

  function CellsOf(cells: seq<string>): (raw: seq<RawCell>)
    ensures |raw| == |cells|
  {
    seq(|cells|, i requires 0 <= i < |cells| => CellOf(cells[i]))
  }

  function TableOf(table: seq<seq<string>>): (raw: seq<seq<RawCell>>)
    ensures |raw| == |table|
  {
    seq(|table|, i requires 0 <= i < |table| => CellsOf(table[i]))
  }

  lemma {:induction false} CellIsRaw(text: string)
    ensures CellOf(text).Raw() == Written(text) && CellOf(text).Value() == ReadBack(text)
    ensures Whole(text) ==> CellOf(text).WellFormed()
  {
    if NeedsQuotes(text) {
      assert text + "" == text;
      assert "" + "\"" + DoubleQuotes(text) + "\"" + "" == "\"" + DoubleQuotes(text) + "\"";
    } else {
      var before := TrimStartSays(text);
      assert TrimStart(text) != "" ==> TrimStart(text)[0] in text;
    }
  }

  lemma {:induction false} LineIsRaw(cells: seq<string>)
    ensures RawLine(CellsOf(cells)) == JoinCells(cells) && Values(CellsOf(cells)) == ReadRow(cells)
    ensures cells != [] && WholeRow(cells) ==> WellFormedLine(CellsOf(cells))
  {
    hide CellOf, ReadBack, Written, Whole, RawCell.Raw, RawCell.Value, RawCell.WellFormed;
    forall i | 0 <= i < |cells|
      ensures CellOf(cells[i]).Value() == ReadBack(cells[i])
      ensures Whole(cells[i]) ==> CellOf(cells[i]).WellFormed()
    {
      CellIsRaw(cells[i]);
    }
    if cells != [] {
      CellIsRaw(cells[0]);
      LineIsRaw(cells[1..]);
      assert CellsOf(cells)[1..] == CellsOf(cells[1..]);
    }
  }

  lemma {:induction false} TableIsRaw(table: seq<seq<string>>, separator: string)
    ensures RawLines(TableOf(table), separator) == JoinLines(table, separator)
    ensures TableValues(TableOf(table)) == ReadTable(table)
    ensures HasCells(table) && WholeTable(table) ==> WellFormedTable(TableOf(table))
  {
    hide CellsOf, ReadRow, WholeRow, WellFormedLine, RawLine, JoinCells, Values;
    forall i | 0 <= i < |table|
      ensures Values(CellsOf(table[i])) == ReadRow(table[i])
      ensures table[i] != [] && WholeRow(table[i]) ==> WellFormedLine(CellsOf(table[i]))
    {
      LineIsRaw(table[i]);
    }
    if table != [] {
      LineIsRaw(table[0]);
      TableIsRaw(table[1..], separator);
      assert TableOf(table)[1..] == TableOf(table[1..]);
    }
  }

  lemma {:induction false} WholeCellAndComma(records: seq<seq<string>>, row: seq<string>, text: string, rest: string)
    requires Whole(text)
    ensures ScanAll(Fresh(records, row), Written(text) + ("," + rest))
            == ScanAll(Fresh(records, row + [ReadBack(text)]), rest)
  {
    hide ScanAll, Written, ReadBack, Whole, RawCell.Raw, RawCell.Value, RawCell.WellFormed;
    CellIsRaw(text);
    CellAndComma(records, row, CellOf(text), rest);
  }

  lemma {:induction false} WholeLineAndBreak(records: seq<seq<string>>, cells: seq<string>, rest: string)
    requires cells != [] && WholeRow(cells)
    ensures ScanAll(Fresh(records, []), JoinCells(cells) + ("\n" + rest))
            == ScanAll(Fresh(records + [ReadRow(cells)], []), rest)
  {
    hide ScanAll, JoinCells, ReadRow, WholeRow, WellFormedLine, RawLine, Values;
    LineIsRaw(cells);
    LineAndSeparator(records, CellsOf(cells), "\n", rest);
  }


  function Returns(text: string): nat {
    if text == "" then 0 else Returns(text[..|text| - 1]) + (if text[|text| - 1] == '\r' then 1 else 0)
  }

  function RowReturns(row: seq<string>): nat {
    if row == [] then 0 else RowReturns(row[..|row| - 1]) + Returns(row[|row| - 1])
  }

  function TableReturns(table: seq<seq<string>>): nat {
    if table == [] then 0 else TableReturns(table[..|table| - 1]) + RowReturns(table[|table| - 1])
  }

  function ScanReturns(s: Scan): nat {
    TableReturns(s.records) + RowReturns(s.row) + Returns(s.cell)
  }

  lemma {:induction false} ReturnsTogether(a: string, b: string)
    ensures Returns(a + b) == Returns(a) + Returns(b)
    decreases |b|
  {
    if b == "" {
      assert a + b == a;
    } else {
      var n := |b| - 1;
      ReturnsTogether(a, b[..n]);
      assert (a + b)[..|a + b| - 1] == a + b[..n];
    }
  }

  lemma {:induction false} RowReturnsTogether(a: seq<string>, b: seq<string>)
    ensures RowReturns(a + b) == RowReturns(a) + RowReturns(b)
    decreases |b|
  {
    if b == [] {
      assert a + b == a;
    } else {
      var n := |b| - 1;
      RowReturnsTogether(a, b[..n]);
      assert (a + b)[..|a + b| - 1] == a + b[..n];
    }
  }

  lemma {:induction false} OneReturn(c: char)
    ensures Returns([c]) == if c == '\r' then 1 else 0
  {
    assert [c][..0] == "";
  }

  lemma {:induction false} TrimStartReturns(s: string)
    ensures Returns(TrimStart(s)) <= Returns(s)
    decreases |s|
  {
    if s != "" && IsSpace(s[0]) {
      TrimStartReturns(s[1..]);
      assert s == [s[0]] + s[1..];
      ReturnsTogether([s[0]], s[1..]);
    }
  }

  lemma {:induction false} TrimEndReturns(s: string)
    ensures Returns(TrimEnd(s)) <= Returns(s)
    decreases |s|
  {
    if s != "" && IsSpace(s[|s| - 1]) {
      TrimEndReturns(s[..|s| - 1]);
    }
  }

  lemma {:induction false} EndCellReturns(s: Scan)
    ensures ScanReturns(s.EndCell()) <= ScanReturns(s)
    ensures s.EndCell().cell == ""
  {
    TrimStartReturns(s.cell);
    TrimEndReturns(TrimStart(s.cell));
    var last := if s.quoted then s.cell else Trim(s.cell);
    assert (s.row + [last])[..|s.row|] == s.row;
  }

  lemma {:induction false} EndRowReturns(s: Scan)
    ensures ScanReturns(s.EndRow()) <= ScanReturns(s)
  {
    EndCellReturns(s);
    var ended := s.EndCell();
    assert (s.records + [ended.row])[..|s.records|] == s.records;
  }

  /** The characters a step takes, and what it may keep of them. */
  lemma {:induction false} TakenReturns(s: Scan, text: string)
    requires text != ""
    ensures Returns(text[Taken(s, text)..]) <= Returns(text) - Returns([text[0]])
  {
    hide Returns;
    assert text == [text[0]] + text[1..];
    ReturnsTogether([text[0]], text[1..]);
    if Taken(s, text) == 2 {
      assert text[1..] == [text[1]] + text[2..];
      ReturnsTogether([text[1]], text[2..]);
    }
  }

  /** What is carried after a step: at most the carriage return it reads, and outside quotes not that one. */
  lemma {:induction false} AfterReturns(s: Scan, text: string)
    requires text != ""
    ensures ScanReturns(After(s, text)) <= ScanReturns(s) + Returns([text[0]])
    ensures !s.inQuotes && text[0] == '\r' ==> ScanReturns(After(s, text)) <= ScanReturns(s)
  {
    hide Returns, RowReturns, TableReturns, Scan.EndCell, Scan.EndRow;
    EndCellReturns(s);
    EndRowReturns(s);
    ReturnsTogether(s.cell, [text[0]]);
    NoReturns();
  }

  /** A step keeps at most the carriage return it reads, and none outside quotes. */
  lemma {:induction false} StepReturns(s: Scan, text: string)
    requires text != ""
    ensures ScanReturns(After(s, text)) + Returns(text[Taken(s, text)..]) <= ScanReturns(s) + Returns(text)
    ensures !s.inQuotes && text[0] == '\r' ==>
              ScanReturns(After(s, text)) + Returns(text[Taken(s, text)..]) < ScanReturns(s) + Returns(text)
  {
    hide Returns, ScanReturns, After;
    TakenReturns(s, text);
    OneReturn(text[0]);
    AfterReturns(s, text);
  }

  lemma {:induction false} NoReturns()
    ensures Returns("") == 0
  {
  }

  lemma {:induction false} ScanKeepsReturns(s: Scan, text: string)
    ensures ScanReturns(ScanAll(s, text)) <= ScanReturns(s) + Returns(text)
    decreases |text|
  {
    if text == "" {
    } else {
      StepReturns(s, text);
      ScanKeepsReturns(After(s, text), text[Taken(s, text)..]);
      hide ScanReturns, Returns, After, Taken;
    }
  }

  lemma {:induction false} KeptReturns(records: seq<seq<string>>)
    ensures TableReturns(Kept(records)) <= TableReturns(records)
  {
    if records == [] {
    } else {
      var n := |records| - 1;
      KeptReturns(records[..n]);
      var kept := Kept(records);
      if Blank(records[n]) {
        assert kept == Kept(records[..n]);
      } else {
        assert kept[..|kept| - 1] == Kept(records[..n]);
      }
    }
  }

  lemma {:induction false} FinishReturns(s: Scan)
    ensures TableReturns(Kept(s.Finish())) <= ScanReturns(s)
  {
    EndRowReturns(s);
    KeptReturns(s.Finish());
  }

  /** Read on from here, the answer keeps no more carriage returns than are carried and still to come. */
  lemma {:induction false} AnswerReturns(s: Scan, text: string)
    ensures TableReturns(Kept(ScanAll(s, text).Finish())) <= ScanReturns(s) + Returns(text)
  {
    ScanKeepsReturns(s, text);
    FinishReturns(ScanAll(s, text));
  }

  /** A cell that is not whole costs a carriage return: nothing read on from it can hold them all. */
  lemma {:induction false} BrokenCell(records: seq<seq<string>>, row: seq<string>, text: string, rest: string)
    requires !Whole(text)
    ensures TableReturns(Kept(ScanAll(Fresh(records, row), Written(text) + rest).Finish()))
            < TableReturns(records) + RowReturns(row) + Returns(text) + Returns(rest)
  {
    var k := FirstReturn(text);
    var before, after := text[..k], text[k..] + rest;
    assert text + rest == before + after;
    StartUnbroken(records, row, text, k);
    PlainRead(Fresh(records, row), before, after);
    assert "" + before == before;
    ReturnsTogether(before, after);
    ReturnsTogether(text, rest);
    hide Returns, RowReturns, TableReturns, Kept, Scan.Finish;
    var s := Scan(records, row, before, false, false);
    NoReturns();
    StepReturns(s, after);
    AnswerReturns(After(s, after), after[Taken(s, after)..]);
  }

  lemma {:induction false} StartUnbroken(records: seq<seq<string>>, row: seq<string>, text: string, k: nat)
    requires !NeedsQuotes(text) && k <= |text| && '\r' !in text[..k]
    ensures Unbroken(text[..k]) && NoneOpens(Fresh(records, row), text[..k])
  {
    forall c: char | c in text[..k]
      ensures c in text
    {
    }
  }

  lemma {:induction false} FirstReturn(text: string) returns (k: nat)
    requires '\r' in text
    ensures k < |text| && text[k] == '\r' && '\r' !in text[..k]
  {
    k := 0;
    while text[k] != '\r'
      invariant k < |text| && '\r' !in text[..k] && '\r' in text[k..]
      decreases |text| - k
    {
      assert text[k..] == [text[k]] + text[k + 1..];
      assert text[..k + 1] == text[..k] + [text[k]];
      k := k + 1;
    }
  }

  lemma {:induction false} DoubledReturns(text: string)
    ensures Returns(DoubleQuotes(text)) == Returns(text)
    decreases |text|
  {
    if text == "" {
    } else {
      DoubledReturns(text[1..]);
      assert text == [text[0]] + text[1..];
      ReturnsTogether([text[0]], text[1..]);
      var start := if text[0] == '"' then "\"\"" else [text[0]];
      ReturnsTogether(start, DoubleQuotes(text[1..]));
      OneReturn(text[0]);
      if text[0] == '"' {
        assert start == ['"'] + ['"'];
        ReturnsTogether(['"'], ['"']);
      }
    }
  }

  lemma {:induction false} WrittenReturns(text: string)
    ensures Returns(Written(text)) == Returns(text)
  {
    if NeedsQuotes(text) {
      DoubledReturns(text);
      OneReturn('"');
      ReturnsTogether("\"" + DoubleQuotes(text), "\"");
      ReturnsTogether("\"", DoubleQuotes(text));
    }
  }

  lemma {:induction false} CellsReturns(cells: seq<string>)
    ensures Returns(JoinCells(cells)) == RowReturns(cells)
    decreases |cells|
  {
    if cells == [] {
    } else {
      WrittenReturns(cells[0]);
      RowReturnsTogether([cells[0]], cells[1..]);
      assert cells == [cells[0]] + cells[1..];
      assert RowReturns([cells[0]]) == Returns(cells[0]);
      if |cells| > 1 {
        CellsReturns(cells[1..]);
        ReturnsTogether(Written(cells[0]) + ",", JoinCells(cells[1..]));
        ReturnsTogether(Written(cells[0]), ",");
        OneReturn(',');
      }
    }
  }

  lemma {:induction false} TableReturnsTogether(a: seq<seq<string>>, b: seq<seq<string>>)
    ensures TableReturns(a + b) == TableReturns(a) + TableReturns(b)
    decreases |b|
  {
    if b == [] {
      assert a + b == a;
    } else {
      var n := |b| - 1;
      TableReturnsTogether(a, b[..n]);
      assert (a + b)[..|a + b| - 1] == a + b[..n];
    }
  }

  lemma {:induction false} LinesReturns(table: seq<seq<string>>)
    ensures Returns(JoinLines(table, "\n")) == TableReturns(table)
    decreases |table|
  {
    if table == [] {
    } else {
      CellsReturns(table[0]);
      TableReturnsTogether([table[0]], table[1..]);
      assert table == [table[0]] + table[1..];
      assert TableReturns([table[0]]) == RowReturns(table[0]);
      if |table| > 1 {
        LinesReturns(table[1..]);
        ReturnsTogether(JoinCells(table[0]) + "\n", JoinLines(table[1..], "\n"));
        ReturnsTogether(JoinCells(table[0]), "\n");
        OneReturn('\n');
      }
    }
  }

  lemma {:induction false} ReadBackReturns(text: string)
    ensures Returns(ReadBack(text)) <= Returns(text)
  {
    TrimStartReturns(text);
    TrimEndReturns(TrimStart(text));
  }

  lemma {:induction false} HeadCell(cells: seq<string>)
    requires cells != []
    ensures RowReturns(cells) == Returns(cells[0]) + RowReturns(cells[1..])
  {
    RowReturnsTogether([cells[0]], cells[1..]);
    assert cells == [cells[0]] + cells[1..];
    assert RowReturns([cells[0]]) == Returns(cells[0]);
    hide RowReturns, Returns;
  }

  /** A row's text: its first cell, and after a comma the others. */
  lemma {:induction false} FirstCell(cells: seq<string>, rest: string)
    requires |cells| > 1
    ensures var tail := JoinCells(cells[1..]) + rest;
            && JoinCells(cells) + rest == Written(cells[0]) + ("," + tail)
            && Returns("," + tail) == RowReturns(cells[1..]) + Returns(rest)
            && Returns(tail) == RowReturns(cells[1..]) + Returns(rest)
  {
    var first, others := Written(cells[0]), JoinCells(cells[1..]);
    assert JoinCells(cells) == first + "," + others;
    hide Written, JoinCells;
    CellsReturns(cells[1..]);
    ReturnsTogether(others, rest);
    ReturnsTogether(",", others + rest);
    OneReturn(',');
    hide *;
    RestTogether(first, others, rest);
  }

  lemma {:induction false} RestTogether(first: string, others: string, rest: string)
    ensures first + "," + others + rest == first + ("," + (others + rest))
  {
  }

  lemma {:induction false} BrokenRow(records: seq<seq<string>>, row: seq<string>, cells: seq<string>, rest: string)
    requires cells != [] && !WholeRow(cells)
    ensures TableReturns(Kept(ScanAll(Fresh(records, row), JoinCells(cells) + rest).Finish()))
            < TableReturns(records) + RowReturns(row) + RowReturns(cells) + Returns(rest)
    decreases |cells|
  {
    HeadCell(cells);
    NoCells();
    hide ScanAll, Kept, Scan.Finish, Fresh, Whole, Returns, RowReturns, TableReturns, Written, ReadBack;
    if |cells| == 1 {
      BrokenCell(records, row, cells[0], rest);
    } else {
      var tail := JoinCells(cells[1..]) + rest;
      FirstCell(cells, rest);
      hide JoinCells;
      if Whole(cells[0]) {
        WholeCellAndComma(records, row, cells[0], tail);
        BrokenRow(records, row + [ReadBack(cells[0])], cells[1..], rest);
        OneMoreCell(row, cells[0]);
      } else {
        BrokenCell(records, row, cells[0], "," + tail);
      }
    }
  }

  lemma {:induction false} NoCells()
    ensures RowReturns([]) == 0
  {
  }

  lemma {:induction false} OneMoreCell(row: seq<string>, text: string)
    ensures RowReturns(row + [ReadBack(text)]) <= RowReturns(row) + Returns(text)
  {
    ReadBackReturns(text);
    assert (row + [ReadBack(text)])[..|row|] == row;
  }

  lemma {:induction false} ReadRowReturns(cells: seq<string>)
    ensures RowReturns(ReadRow(cells)) <= RowReturns(cells)
  {
    if cells == [] {
    } else {
      var n := |cells| - 1;
      ReadRowReturns(cells[..n]);
      ReadBackReturns(cells[n]);
      assert ReadRow(cells)[..n] == ReadRow(cells[..n]);
    }
  }

  lemma {:induction false} HeadReturns(table: seq<seq<string>>)
    requires table != []
    ensures TableReturns(table) == RowReturns(table[0]) + TableReturns(table[1..])
  {
    TableReturnsTogether([table[0]], table[1..]);
    assert table == [table[0]] + table[1..];
    assert TableReturns([table[0]]) == RowReturns(table[0]);
    hide TableReturns, RowReturns;
  }

  /** A table's text: its first row, and after a line feed the others. */
  lemma {:induction false} FirstLine(table: seq<seq<string>>)
    requires table != []
    ensures var rest := if |table| == 1 then "" else "\n" + JoinLines(table[1..], "\n");
            JoinLines(table, "\n") == JoinCells(table[0]) + rest && Returns(rest) == TableReturns(table[1..])
  {
    hide JoinCells;
    var cells := JoinCells(table[0]);
    if |table| == 1 {
      assert table[1..] == [] && cells + "" == cells;
    } else {
      var tail := JoinLines(table[1..], "\n");
      LinesReturns(table[1..]);
      ReturnsTogether("\n", tail);
      OneReturn('\n');
      assert JoinLines(table, "\n") == cells + ("\n" + tail);
      hide JoinLines, TableReturns, Returns;
    }
  }

  lemma {:induction false} BrokenTable(records: seq<seq<string>>, table: seq<seq<string>>)
    requires table != [] && HasCells(table) && !WholeTable(table)
    ensures TableReturns(Kept(ScanAll(Fresh(records, []), JoinLines(table, "\n")).Finish()))
            < TableReturns(records) + TableReturns(table)
    decreases |table|
  {
    HeadReturns(table);
    FirstLine(table);
    NoCells();
    hide ScanAll, Kept, Scan.Finish, Fresh, WholeRow, Returns, RowReturns, TableReturns, JoinLines, JoinCells, ReadRow;
    var cells := table[0];
    assert cells != [];
    if WholeRow(cells) {
      assert |table| > 1;
      WholeLineAndBreak(records, cells, JoinLines(table[1..], "\n"));
      BrokenTable(records + [ReadRow(cells)], table[1..]);
      OneMoreRow(records, cells);
    } else {
      BrokenRow(records, [], cells, if |table| == 1 then "" else "\n" + JoinLines(table[1..], "\n"));
    }
  }

  lemma {:induction false} OneMoreRow(records: seq<seq<string>>, cells: seq<string>)
    ensures TableReturns(records + [ReadRow(cells)]) <= TableReturns(records) + RowReturns(cells)
  {
    ReadRowReturns(cells);
    assert (records + [ReadRow(cells)])[..|records|] == records;
  }

  // ---- The exported file ----

  /** Lower-case letters and underscores, as every column name is. */
  predicate Slug(name: string) {
    name != "" && forall i :: 0 <= i < |name| ==> 'a' <= name[i] <= 'z' || name[i] == '_'
  }

  lemma {:induction false} TransactionsAreSlugs()
    ensures forall i :: 0 <= i < |Columns(Transactions)| ==> Slug(Columns(Transactions)[i])
  {
    assert Slug("date");
    assert Slug("description");
    assert Slug("amount");
    assert Slug("type");
    assert Slug("currency");
    assert Slug("means_of_payment");
    assert Slug("beneficiary");
    assert Slug("payor");
    assert Slug("notes");
    assert Slug("category");
    hide Slug;
  }

  lemma {:induction false} CategoriesAreSlugs()
    ensures forall i :: 0 <= i < |Columns(Categories)| ==> Slug(Columns(Categories)[i])
  {
    assert Slug("name");
    assert Slug("color");
    assert Slug("icon");
    assert Slug("type");
    assert Slug("parent_id");
    hide Slug;
  }

  lemma {:induction false} BudgetsAreSlugs()
    ensures forall i :: 0 <= i < |Columns(Budgets)| ==> Slug(Columns(Budgets)[i])
  {
    assert Slug("id");
    assert Slug("category_id");
    assert Slug("amount");
    assert Slug("period");
    assert Slug("start_date");
    assert Slug("end_date");
    assert Slug("rollover_enabled");
    assert Slug("rollover_amount");
    assert Slug("rollover_used");
    assert Slug("created_at");
    assert Slug("profile_id");
    assert Slug("category_name");
    hide Slug;
  }

  lemma {:induction false} AccountsAreSlugs()
    ensures forall i :: 0 <= i < |Columns(Accounts)| ==> Slug(Columns(Accounts)[i])
  {
    assert Slug("name");
    assert Slug("type");
    assert Slug("currency");
    assert Slug("balance");
    assert Slug("notes");
    hide Slug;
  }

  lemma {:induction false} LoansAreSlugs()
    ensures forall i :: 0 <= i < |Columns(Loans)| ==> Slug(Columns(Loans)[i])
  {
    assert Slug("name");
    assert Slug("principal");
    assert Slug("interest_rate");
    assert Slug("start_date");
    assert Slug("term_months");
    assert Slug("total_prepaid");
    hide Slug;
  }

  lemma {:induction false} RecurringAreSlugs()
    ensures forall i :: 0 <= i < |Columns(Recurring)| ==> Slug(Columns(Recurring)[i])
  {
    assert Slug("description");
    assert Slug("amount");
    assert Slug("type");
    assert Slug("frequency");
    assert Slug("day_of_month");
    assert Slug("next_date");
    assert Slug("notes");
    assert Slug("active");
    hide Slug;
  }

  lemma {:induction false} ColumnsAreSlugs(kind: ExportKind)
    ensures Columns(kind) != [] && forall i :: 0 <= i < |Columns(kind)| ==> Slug(Columns(kind)[i])
  {
    hide Slug;
    match kind
    case Transactions => TransactionsAreSlugs();
    case Categories => CategoriesAreSlugs();
    case Budgets => BudgetsAreSlugs();
    case Accounts => AccountsAreSlugs();
    case Loans => LoansAreSlugs();
    case Recurring => RecurringAreSlugs();
  }

  lemma {:induction false} SlugReads(name: string)
    requires Slug(name)
    ensures !NeedsQuotes(name) && Whole(name) && ReadBack(name) == name && Written(name) == name
  {
  }

  /** The cells a reader gives back as they were: quoted, or with no carriage return and no white space around. */
  predicate Survives(text: string) {
    '"' in text || ',' in text || '\n' in text || ('\r' !in text && Trim(text) == text)
  }

  ghost predicate RoundTrips(kind: ExportKind, rows: seq<Record>) {
    Parse(ExportCsv(kind, rows)) == ParsedCsv(Columns(kind), Table(kind, rows)[1..])
  }

  lemma {:induction false} TableHasCells(kind: ExportKind, rows: seq<Record>)
    ensures HasCells(Table(kind, rows)) && Table(kind, rows)[0] == Columns(kind)
  {
    ColumnsAreSlugs(kind);
  }

  lemma {:induction false} NoMark(kind: ExportKind, rows: seq<Record>, separator: string)
    requires IsSeparator(separator)
    ensures Unmarked(JoinLines(Table(kind, rows), separator)) == JoinLines(Table(kind, rows), separator)
  {
    TableHasCells(kind, rows);
    ColumnsAreSlugs(kind);
    SlugReads(Columns(kind)[0]);
    var text := JoinLines(Table(kind, rows), separator);
    assert text[0] == Columns(kind)[0][0];
  }

  lemma {:induction false} TableReadBack(table: seq<seq<string>>, separator: string)
    requires table != [] && HasCells(table) && WholeTable(table) && IsSeparator(separator)
    ensures Kept(ScanAll(Fresh([], []), JoinLines(table, separator)).Finish()) == Kept(ReadTable(table))
  {
    hide *;
    TableIsRaw(table, separator);
    TableOfSize(table);
    TableRead([], TableOf(table), separator, "");
    assert RawLines(TableOf(table), separator) + "" == RawLines(TableOf(table), separator);
    assert [] + TableValues(TableOf(table)) == TableValues(TableOf(table));
  }

  lemma {:induction false} TableOfSize(table: seq<seq<string>>)
    ensures |TableOf(table)| == |table|
  {
  }

  /** Whatever the whole cells hold, both line endings read the same: the kept rows, trimmed where unquoted. */
  lemma {:induction false} WholeFileReads(kind: ExportKind, rows: seq<Record>, separator: string)
    requires IsSeparator(separator) && WholeTable(Table(kind, rows)[1..])
    ensures Parse(JoinLines(Table(kind, rows), separator))
            == ParsedCsv(Columns(kind), Where(ReadTable(Table(kind, rows)[1..]), HasText))
  {
    var table := Table(kind, rows);
    hide ScanAll, Kept, Scan.Finish, JoinLines, Whole, Written, Where, HasText, NeedsQuotes;
    TableHasCells(kind, rows);
    ColumnsAreSlugs(kind);
    forall i | 0 <= i < |Columns(kind)|
      ensures Whole(Columns(kind)[i]) && ReadBack(Columns(kind)[i]) == Columns(kind)[i]
    {
      SlugReads(Columns(kind)[i]);
    }
    assert WholeTable(table) by {
      forall i | 0 <= i < |table|
        ensures WholeRow(table[i])
      {
        assert i > 0 ==> table[i] == table[1..][i - 1];
      }
    }
    NoMark(kind, rows, separator);
    TableReadBack(table, separator);
    assert ReadRow(Columns(kind)) == Columns(kind);
    assert ReadTable(table) == [Columns(kind)] + ReadTable(table[1..]);
    KeptTogether([Columns(kind)], ReadTable(table[1..]));
    KeptOne(Columns(kind));
    KeptHaveText(ReadTable(table[1..]));
  }

  lemma {:induction false} KeptOne(row: seq<string>)
    requires row != [] && row[0] != ""
    ensures Kept([row]) == [row]
  {
    assert [row][..0] == [];
  }

  lemma {:induction false} KeptLast(records: seq<seq<string>>)
    requires records != []
    ensures var n := |records| - 1;
            && Kept(records) == Kept(records[..n]) + (if Blank(records[n]) then [] else [records[n]])
            && records == records[..n] + [records[n]]
  {
    hide Blank;
  }

  lemma {:induction false} KeptAll(records: seq<seq<string>>)
    ensures |Kept(records)| <= |records|
    ensures |Kept(records)| == |records| <==> forall i :: 0 <= i < |records| ==> !Blank(records[i])
    ensures |Kept(records)| == |records| ==> Kept(records) == records
  {
    if records == [] {
    } else {
      hide Kept, Blank;
      var n := |records| - 1;
      KeptAll(records[..n]);
      KeptLast(records);
      assert forall i :: 0 <= i < n ==> records[..n][i] == records[i];
    }
  }

  /** An unquoted carriage return never comes back. */
  lemma {:induction false} BrokenFileLoses(kind: ExportKind, rows: seq<Record>)
    requires !WholeTable(Table(kind, rows)[1..])
    ensures !RoundTrips(kind, rows)
  {
    var table := Table(kind, rows);
    hide ScanAll, Kept, Scan.Finish, JoinLines, WholeRow, TableReturns;
    TableHasCells(kind, rows);
    ColumnsAreSlugs(kind);
    NoMark(kind, rows, "\n");
    assert !WholeTable(table) by {
      var i :| 0 <= i < |table[1..]| && !WholeRow(table[1..][i]);
      assert table[i + 1] == table[1..][i];
    }
    BrokenTable([], table);
    NoTableReturns();
    var all := Kept(ScanAll(Fresh([], []), ExportCsv(kind, rows)).Finish());
    hide RoundTrips, Parse, Table;
    if RoundTrips(kind, rows) {
      AnswerIsTable(kind, rows);
      assert false;
    }
  }

  lemma {:induction false} AnswerIsTable(kind: ExportKind, rows: seq<Record>)
    requires RoundTrips(kind, rows)
    ensures Kept(ScanAll(Fresh([], []), ExportCsv(kind, rows)).Finish()) == Table(kind, rows)
  {
    hide ScanAll, Kept, Scan.Finish, JoinLines;
    TableHasCells(kind, rows);
    NoMark(kind, rows, "\n");
    var all := Kept(ScanAll(Fresh([], []), ExportCsv(kind, rows)).Finish());
    assert all == [all[0]] + all[1..];
  }

  lemma {:induction false} NoTableReturns()
    ensures TableReturns([]) == 0
  {
  }

  lemma {:induction false} WholeFileSurvives(kind: ExportKind, rows: seq<Record>)
    requires WholeTable(Table(kind, rows)[1..])
    ensures var table := Table(kind, rows)[1..];
            RoundTrips(kind, rows) <==>
            forall i :: 0 <= i < |table| ==> !Blank(table[i]) && ReadRow(table[i]) == table[i]
  {
    hide ReadRow, Parse, JoinLines, Kept, WholeTable, Blank;
    var table := Table(kind, rows)[1..];
    WholeFileReads(kind, rows, "\n");
    KeptHaveText(ReadTable(table));
    KeptAll(ReadTable(table));
    if RoundTrips(kind, rows) {
      forall i | 0 <= i < |table|
        ensures !Blank(table[i]) && ReadRow(table[i]) == table[i]
      {
        assert ReadTable(table)[i] == table[i];
      }
    }
    if forall i :: 0 <= i < |table| ==> !Blank(table[i]) && ReadRow(table[i]) == table[i] {
      assert ReadTable(table) == table;
    }
  }

  /**
   * An exported file read back as an import gives exactly its columns and the guarded text of every
   * cell, in order, if and only if every row has some text and every cell that is not quoted has
   * no carriage return and no white space around it. Commas, quotes and line feeds always survive.
   */
  lemma {:induction false} ExportReadsBack(kind: ExportKind, rows: seq<Record>)
    ensures var table := Table(kind, rows)[1..];
            RoundTrips(kind, rows) <==>
            forall i :: 0 <= i < |table| ==>
              HasText(table[i]) && forall j :: 0 <= j < |table[i]| ==> Survives(table[i][j])
  {
    var table := Table(kind, rows)[1..];
    hide RoundTrips, Table;
    if WholeTable(table) {
      WholeFileSurvives(kind, rows);
      forall i | 0 <= i < |table|
        ensures ReadRow(table[i]) == table[i] <==> forall j :: 0 <= j < |table[i]| ==> Survives(table[i][j])
      {
        assert WholeRow(table[i]);
        RowSurvives(table[i]);
      }
    } else {
      BrokenFileLoses(kind, rows);
      var i :| 0 <= i < |table| && !WholeRow(table[i]);
      var j :| 0 <= j < |table[i]| && !Whole(table[i][j]);
      assert !Survives(table[i][j]);
    }
  }

  lemma {:induction false} RowSurvives(cells: seq<string>)
    requires WholeRow(cells)
    ensures ReadRow(cells) == cells <==> forall j :: 0 <= j < |cells| ==> Survives(cells[j])
  {
    hide NeedsQuotes, Trim;
    forall j | 0 <= j < |cells|
      ensures ReadRow(cells)[j] == cells[j] <==> Survives(cells[j])
    {
      assert Whole(cells[j]);
      QuotedSurvives(cells[j]);
    }
  }

  lemma {:induction false} QuotedSurvives(text: string)
    requires Whole(text)
    ensures ReadBack(text) == text <==> Survives(text)
  {
  }
}
