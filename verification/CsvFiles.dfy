/**
 * What the reader makes of any file of cells (shared/importCsv.ts), whoever wrote it: bare cells,
 * quotes in them or not, quoted cells with anything before and after their quotes, and lines ended
 * in any of the three ways.
 */
module CsvFiles {
  import opened Basics
  import opened Sorting
  import opened Text
  import opened Csv

  /** Nothing that ends a cell outside quotes. */
  predicate Unbroken(text: string) {
    ',' !in text && '\n' !in text && '\r' !in text
  }

  /** A cell as a file holds it. */
  datatype RawCell = Bare(text: string) | Quoted(before: string, inside: string, after: string) {
    /** A bare cell does not start with a quote, and only white space stands before a quoted one's. */
    predicate WellFormed() {
      match this
      case Bare(text) => Unbroken(text) && (TrimStart(text) == "" || TrimStart(text)[0] != '"')
      case Quoted(before, inside, after) =>
        Unbroken(before) && AllSpace(before) && Unbroken(after) && (after == "" || after[0] != '"')
    }

    function Raw(): string {
      match this
      case Bare(text) => text
      case Quoted(before, inside, after) => before + "\"" + DoubleQuotes(inside) + "\"" + after
    }

    /** What is read before trimming. */
    function Held(): string {
      match this
      case Bare(text) => text
      case Quoted(_, inside, after) => inside + after
    }

    function Value(): string {
      match this
      case Bare(text) => Trim(text)
      case Quoted(_, inside, after) => inside + after
    }
  }

  function Values(cells: seq<RawCell>): (row: seq<string>)
    ensures |row| == |cells|
  {
    seq(|cells|, i requires 0 <= i < |cells| => cells[i].Value())
  }

  function TableValues(table: seq<seq<RawCell>>): (rows: seq<seq<string>>)
    ensures |rows| == |table|
  {
    seq(|table|, i requires 0 <= i < |table| => Values(table[i]))
  }

  function RawLine(cells: seq<RawCell>): string {
    if cells == [] then ""
    else if |cells| == 1 then cells[0].Raw()
    else cells[0].Raw() + "," + RawLine(cells[1..])
  }

  function RawLines(table: seq<seq<RawCell>>, separator: string): string {
    if table == [] then ""
    else if |table| == 1 then RawLine(table[0])
    else RawLine(table[0]) + separator + RawLines(table[1..], separator)
  }

  predicate WellFormedLine(cells: seq<RawCell>) {
    cells != [] && forall i :: 0 <= i < |cells| ==> cells[i].WellFormed()
  }

  predicate WellFormedTable(table: seq<seq<RawCell>>) {
    forall i :: 0 <= i < |table| ==> WellFormedLine(table[i])
  }

  predicate IsSeparator(separator: string) {
    separator == "\n" || separator == "\r\n" || separator == "\r"
  }

  /** Between two cells, between two records, or at the end. */
  predicate AtBreak(rest: string) {
    rest == "" || rest[0] in ",\n\r"
  }

  // ---- One cell ----

  lemma {:induction false} QuotedRead(s: Scan, text: string, rest: string)
    requires s.inQuotes && (rest == "" || rest[0] != '"')
    ensures ScanAll(s, DoubleQuotes(text) + "\"" + rest) == ScanAll(s.(cell := s.cell + text, inQuotes := false), rest)
    decreases |text|
  {
    var all := DoubleQuotes(text) + "\"" + rest;
    if text == "" {
      assert all == "\"" + rest;
      assert !Doubled(all);
      assert s.cell + text == s.cell;
    } else {
      var tail := DoubleQuotes(text[1..]) + "\"" + rest;
      var next := s.(cell := s.cell + [text[0]]);
      assert all == (if text[0] == '"' then "\"\"" else [text[0]]) + tail;
      assert After(s, all) == next && all[Taken(s, all)..] == tail;
      QuotedRead(next, text[1..], rest);
      assert next.cell + text[1..] == s.cell + text;
    }
  }

  /** No quote of the text opens a quoted cell. */
  predicate NoneOpens(s: Scan, text: string) {
    s.quoted || forall k :: 0 <= k < |text| && text[k] == '"' ==> Trim(s.cell + text[..k]) != ""
  }

  lemma {:induction false} FirstStays(s: Scan, text: string)
    requires text != "" && NoneOpens(s, text)
    ensures !OpensQuotes(s, text[0])
    ensures NoneOpens(s.(cell := s.cell + [text[0]]), text[1..])
  {
    hide Trim;
    assert s.cell + text[..0] == s.cell;
    var tail := text[1..];
    forall k | 0 <= k < |tail| && tail[k] == '"'
      ensures s.cell + [text[0]] + tail[..k] == s.cell + text[..k + 1]
    {
    }
  }

  lemma {:induction false} PlainRead(s: Scan, text: string, rest: string)
    requires !s.inQuotes && Unbroken(text) && NoneOpens(s, text)
    ensures ScanAll(s, text + rest) == ScanAll(s.(cell := s.cell + text), rest)
    decreases |text|
  {
    hide Trim;
    if text == "" {
      assert text + rest == rest && s.cell + text == s.cell;
    } else {
      var next := s.(cell := s.cell + [text[0]]);
      var all := text + rest;
      assert text[0] in text && all[0] == text[0];
      FirstStays(s, text);
      hide OpensQuotes, NoneOpens;
      assert After(s, all) == next && all[Taken(s, all)..] == text[1..] + rest;
      PlainRead(next, text[1..], rest);
      assert next.cell + text[1..] == s.cell + text;
    }
  }

  /** The scanner once a cell is read, at the break after it. */
  function AtCellEnd(records: seq<seq<string>>, row: seq<string>, cell: RawCell): Scan {
    Scan(records, row, cell.Held(), cell.Quoted?, false)
  }

  lemma {:induction false} SpaceTrimmed(text: string)
    ensures AllSpace(text) <==> Trim(text) == ""
  {
    var before, after := TrimSays(text);
    if Trim(text) != "" {
      assert text[|before|] == Trim(text)[0];
    }
  }

  lemma {:induction false} BareOpensNothing(records: seq<seq<string>>, row: seq<string>, text: string)
    requires Bare(text).WellFormed()
    ensures NoneOpens(Fresh(records, row), text)
  {
    var before := TrimStartSays(text);
    forall k | 0 <= k < |text| && text[k] == '"'
      ensures Trim("" + text[..k]) != ""
    {
      assert "" + text[..k] == text[..k];
      assert k > |before| && text[..k][|before|] == TrimStart(text)[0];
      SpaceTrimmed(text[..k]);
    }
  }

  lemma {:induction false} SpaceOpensNothing(records: seq<seq<string>>, row: seq<string>, before: string)
    requires AllSpace(before)
    ensures NoneOpens(Fresh(records, row), before)
  {
    assert forall k :: 0 <= k < |before| ==> before[k] != '"';
  }

  /** The opening quote drops the white space before it. */
  lemma {:induction false} QuoteOpens(s: Scan, rest: string)
    requires !s.inQuotes && !s.quoted && AllSpace(s.cell)
    ensures ScanAll(s, "\"" + rest) == ScanAll(s.(inQuotes := true, quoted := true, cell := ""), rest)
  {
    SpaceTrimmed(s.cell);
    assert ("\"" + rest)[1..] == rest;
  }

  lemma {:induction false} CellRead(records: seq<seq<string>>, row: seq<string>, cell: RawCell, rest: string)
    requires cell.WellFormed() && AtBreak(rest)
    ensures ScanAll(Fresh(records, row), cell.Raw() + rest) == ScanAll(AtCellEnd(records, row, cell), rest)
  {
    var s := Fresh(records, row);
    match cell {
      case Bare(text) =>
        BareOpensNothing(records, row, text);
        assert "" + text == text;
        hide ScanAll, NoneOpens, Trim;
        PlainRead(s, text, rest);
      case Quoted(before, inside, after) =>
        hide *;
        QuotedCellRead(records, row, before, inside, after, rest);
    }
  }

  lemma {:induction false} QuotedCellRead(records: seq<seq<string>>, row: seq<string>, before: string, inside: string,
                                          after: string, rest: string)
    requires Quoted(before, inside, after).WellFormed() && AtBreak(rest)
    ensures ScanAll(Fresh(records, row), Quoted(before, inside, after).Raw() + rest)
            == ScanAll(AtCellEnd(records, row, Quoted(before, inside, after)), rest)
  {
    var s := Fresh(records, row);
    var tail := DoubleQuotes(inside) + "\"" + (after + rest);
    hide ScanAll, Trim, DoubleQuotes;
    RawQuoted(before, inside, after, rest);
    OpeningRead(records, row, before, tail);
    ClosingRead(s.(inQuotes := true, quoted := true), inside, after, rest);
  }

  lemma {:induction false} RawQuoted(before: string, inside: string, after: string, rest: string)
    ensures Quoted(before, inside, after).Raw() + rest
            == before + ("\"" + (DoubleQuotes(inside) + "\"" + (after + rest)))
  {
    hide DoubleQuotes;
  }

  lemma {:induction false} OpeningRead(records: seq<seq<string>>, row: seq<string>, before: string, tail: string)
    requires Unbroken(before) && AllSpace(before)
    ensures var s := Fresh(records, row);
            ScanAll(s, before + ("\"" + tail)) == ScanAll(s.(inQuotes := true, quoted := true), tail)
  {
    var s := Fresh(records, row);
    SpaceOpensNothing(records, row, before);
    hide ScanAll, Trim, NoneOpens, Unbroken;
    PlainRead(s, before, "\"" + tail);
    assert "" + before == before;
    QuoteOpens(s.(cell := before), tail);
  }

  lemma {:induction false} ClosingRead(open: Scan, inside: string, after: string, rest: string)
    requires open.inQuotes && open.quoted && open.cell == ""
    requires Unbroken(after) && (after == "" || after[0] != '"') && AtBreak(rest)
    ensures ScanAll(open, DoubleQuotes(inside) + "\"" + (after + rest))
            == ScanAll(open.(cell := inside + after, inQuotes := false), rest)
  {
    hide ScanAll, Trim, DoubleQuotes, Unbroken;
    QuotedRead(open, inside, after + rest);
    assert "" + inside == inside;
    PlainRead(open.(cell := inside, inQuotes := false), after, rest);
  }

  lemma {:induction false} CommaRead(s: Scan, rest: string)
    requires !s.inQuotes
    ensures ScanAll(s, "," + rest) == ScanAll(s.EndCell(), rest)
  {
    assert ("," + rest)[1..] == rest;
  }

  lemma {:induction false} SeparatorRead(s: Scan, separator: string, rest: string)
    requires !s.inQuotes && IsSeparator(separator)
    requires separator == "\r" ==> rest == "" || rest[0] != '\n'
    ensures ScanAll(s, separator + rest) == ScanAll(s.EndRow(), rest)
  {
    var text := separator + rest;
    assert text[|separator|..] == rest;
    assert Taken(s, text) == |separator|;
  }

  // ---- Rows and tables ----

  /** The scanner at the end of a row's last cell. */
  function AtRowEnd(records: seq<seq<string>>, row: seq<string>, cells: seq<RawCell>): Scan
    requires cells != []
  {
    var n := |cells| - 1;
    AtCellEnd(records, row + Values(cells[..n]), cells[n])
  }

  lemma {:induction false} CellAndComma(records: seq<seq<string>>, row: seq<string>, cell: RawCell, rest: string)
    requires cell.WellFormed()
    ensures ScanAll(Fresh(records, row), cell.Raw() + ("," + rest))
            == ScanAll(Fresh(records, row + [cell.Value()]), rest)
  {
    hide ScanAll;
    CellRead(records, row, cell, "," + rest);
    CommaRead(AtCellEnd(records, row, cell), rest);
  }

  lemma {:induction false} FirstThenRest(row: seq<string>, cells: seq<RawCell>)
    requires |cells| > 1
    ensures var n := |cells| - 1;
            row + [cells[0].Value()] + Values(cells[1..][..n - 1]) == row + Values(cells[..n])
  {
  }

  lemma {:induction false} RowRead(records: seq<seq<string>>, row: seq<string>, cells: seq<RawCell>, rest: string)
    requires WellFormedLine(cells) && AtBreak(rest)
    ensures ScanAll(Fresh(records, row), RawLine(cells) + rest) == ScanAll(AtRowEnd(records, row, cells), rest)
    decreases |cells|
  {
    hide ScanAll, AtBreak, Fresh, AtCellEnd, RawCell.WellFormed, RawCell.Raw, RawCell.Value;
    if |cells| == 1 {
      CellRead(records, row, cells[0], rest);
      assert row + Values(cells[..0]) == row;
    } else {
      var tail := RawLine(cells[1..]) + rest;
      assert RawLine(cells) + rest == cells[0].Raw() + ("," + tail);
      CellAndComma(records, row, cells[0], tail);
      RowRead(records, row + [cells[0].Value()], cells[1..], rest);
      FirstThenRest(row, cells);
    }
  }

  lemma {:induction false} RowEnds(records: seq<seq<string>>, cells: seq<RawCell>)
    requires cells != []
    ensures AtRowEnd(records, [], cells).EndRow() == Fresh(records + [Values(cells)], [])
  {
    var n := |cells| - 1;
    assert [] + Values(cells[..n]) + [cells[n].Value()] == Values(cells);
  }

  lemma {:induction false} OneMoreKept(records: seq<seq<string>>, row: seq<string>)
    ensures Kept(records + [row]) == Kept(records) + (if Blank(row) then [] else [row])
  {
    hide Blank;
    assert (records + [row])[..|records|] == records;
  }

  lemma {:induction false} KeptTogether(a: seq<seq<string>>, b: seq<seq<string>>)
    ensures Kept(a + b) == Kept(a) + Kept(b)
    decreases |b|
  {
    if b == [] {
      assert a + b == a;
    } else {
      hide *;
      var front, last := b[..|b| - 1], b[|b| - 1];
      KeptTogether(a, front);
      LastTaken(a, b);
      OneMoreKept(front, last);
      OneMoreKept(a + front, last);
      Regrouped(Kept(a), Kept(front), if Blank(last) then [] else [last]);
    }
  }

  /** At the end of the text the last row is a record, or is blank and makes no difference. */
  lemma {:induction false} LastRowFinishes(records: seq<seq<string>>, cells: seq<RawCell>)
    requires cells != []
    ensures Kept(AtRowEnd(records, [], cells).Finish()) == Kept(records + [Values(cells)])
  {
    var s := AtRowEnd(records, [], cells);
    RowEnds(records, cells);
    if s.cell == "" && |s.row| == 0 && !s.quoted {
      var n := |cells| - 1;
      assert Values(cells)[n] == "";
      KeptTogether(records, [Values(cells)]);
      assert Blank(Values(cells));
      assert Kept([Values(cells)]) == [];
    }
  }

  lemma {:induction false} LineAndSeparator(records: seq<seq<string>>, cells: seq<RawCell>, separator: string,
                                            rest: string)
    requires WellFormedLine(cells) && IsSeparator(separator)
    requires separator == "\r" ==> rest == "" || rest[0] != '\n'
    ensures ScanAll(Fresh(records, []), RawLine(cells) + (separator + rest))
            == ScanAll(Fresh(records + [Values(cells)], []), rest)
  {
    hide ScanAll, RawLine, Values, RawCell.WellFormed;
    RowRead(records, [], cells, separator + rest);
    SeparatorRead(AtRowEnd(records, [], cells), separator, rest);
    RowEnds(records, cells);
  }

  /** No line starts with a line feed. */
  lemma {:induction false} LineStarts(cells: seq<RawCell>)
    requires WellFormedLine(cells)
    ensures RawLine(cells) == "" || RawLine(cells)[0] != '\n'
  {
    var first := cells[0].Raw();
    assert cells[0].WellFormed();
    if first != "" {
      match cells[0] {
        case Bare(text) => assert text[0] in text;
        case Quoted(before, _, _) => assert before != "" ==> before[0] in before;
      }
      assert RawLine(cells)[0] == first[0];
    }
  }

  lemma {:induction false} LinesStart(table: seq<seq<RawCell>>, ending: string)
    requires WellFormedTable(table) && (ending == "" || ending == "\r")
    ensures RawLines(table, "\r") + ending == "" || (RawLines(table, "\r") + ending)[0] != '\n'
  {
    if table != [] {
      assert WellFormedLine(table[0]);
      LineStarts(table[0]);
      hide RawLine;
    }
  }

  lemma {:induction false} TableRead(records: seq<seq<string>>, table: seq<seq<RawCell>>, separator: string,
                                     ending: string)
    requires table != [] && WellFormedTable(table) && IsSeparator(separator) && (ending == "" || ending == separator)
    ensures Kept(ScanAll(Fresh(records, []), RawLines(table, separator) + ending).Finish())
            == Kept(records + TableValues(table))
    decreases |table|
  {
    hide ScanAll, RawLine, Values, WellFormedLine, Fresh, IsSeparator, Kept, Scan.Finish;
    var cells := table[0];
    assert WellFormedLine(cells);
    if |table| == 1 {
      LastLineRead(records, cells, separator, ending);
      assert TableValues(table) == [Values(cells)];
    } else {
      var tail := RawLines(table[1..], separator) + ending;
      assert RawLines(table, separator) + ending == RawLine(cells) + (separator + tail);
      if separator == "\r" {
        LinesStart(table[1..], ending);
      }
      LineAndSeparator(records, cells, separator, tail);
      TableRead(records + [Values(cells)], table[1..], separator, ending);
      assert records + [Values(cells)] + TableValues(table[1..]) == records + TableValues(table);
    }
  }

  lemma {:induction false} LastLineRead(records: seq<seq<string>>, cells: seq<RawCell>, separator: string,
                                        ending: string)
    requires WellFormedLine(cells) && IsSeparator(separator) && (ending == "" || ending == separator)
    ensures Kept(ScanAll(Fresh(records, []), RawLine(cells) + ending).Finish()) == Kept(records + [Values(cells)])
  {
    NothingLeft(AtRowEnd(records, [], cells));
    NothingLeft(Fresh(records + [Values(cells)], []));
    hide ScanAll, RawLine, Values, Kept, RawCell.WellFormed;
    if ending == "" {
      RowRead(records, [], cells, "");
      LastRowFinishes(records, cells);
    } else {
      assert ending == separator + "";
      LineAndSeparator(records, cells, separator, "");
    }
  }

  lemma {:induction false} NothingLeft(s: Scan)
    ensures ScanAll(s, "") == s
  {
  }

  // ---- The whole file ----

  predicate HasText(row: seq<string>) {
    exists i :: 0 <= i < |row| && row[i] != ""
  }

  lemma {:induction false} KeptHaveText(records: seq<seq<string>>)
    ensures Kept(records) == Where(records, HasText)
  {
    if records == [] {
    } else {
      KeptHaveText(records[..|records| - 1]);
    }
  }

  /** A byte-order mark before a text changes nothing. */
  lemma {:induction false} MarkIsNoText(text: string)
    requires text == "" || text[0] != 0xfeff as char
    ensures Parse([0xfeff as char] + text) == Parse(text)
  {
    assert ([0xfeff as char] + text)[1..] == text;
  }

  /**
   * Any file of well-formed cells, its lines ended in any of the three ways, the last one or not,
   * reads as the rows that hold some text, the first of them the headers: bare cells trimmed, and
   * of quoted ones what stands inside and after the quotes.
   */
  lemma {:induction false} FileReads(table: seq<seq<RawCell>>, separator: string, ending: string)
    requires WellFormedTable(table) && IsSeparator(separator) && (ending == "" || (table != [] && ending == separator))
    requires var text := RawLines(table, separator) + ending; text == "" || text[0] != 0xfeff as char
    ensures var rows := Where(TableValues(table), HasText);
            Parse(RawLines(table, separator) + ending)
            == if rows == [] then ParsedCsv([], []) else ParsedCsv(rows[0], rows[1..])
  {
    hide RawLines, WellFormedTable, ScanAll, Kept, Where, Scan.Finish;
    KeptHaveText(TableValues(table));
    if table == [] {
      NoFile(separator);
    } else {
      TableRead([], table, separator, ending);
      assert [] + TableValues(table) == TableValues(table);
    }
  }

  lemma {:induction false} NoFile(separator: string)
    ensures RawLines([], separator) + "" == "" && Kept(ScanAll(Fresh([], []), "").Finish()) == []
    ensures Where(TableValues([]), HasText) == []
  {
  }
}
