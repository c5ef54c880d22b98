/** What an exported file holds (shared/exportColumns.ts), told by its characters. */
module CsvExport {
  import opened Basics
  import opened Text
  import opened Csv
  import opened CsvRoundTrip

  // ---- Guarded cells ----

  predicate OnlyDigits(text: string) {
    text != "" && forall c :: c in text ==> c in "0123456789"
  }

  predicate DecimalParts(text: string, whole: string, part: string) {
    && text == whole + part && OnlyDigits(whole)
    && (part == "" || (part[0] == '.' && OnlyDigits(part[1..])))
  }

  /** Digits, and a dot with digits after it or none. */
  ghost predicate UnsignedNumber(text: string) {
    exists whole, part :: DecimalParts(text, whole, part)
  }

  /** The same after a minus, or after none. */
  ghost predicate NumberText(text: string) {
    UnsignedNumber(text) || (text != "" && text[0] == '-' && UnsignedNumber(text[1..]))
  }

  lemma {:induction false} DigitsOnly(text: string)
    ensures AllDigits(text) <==> OnlyDigits(text)
  {
    if OnlyDigits(text) {
      forall i | 0 <= i < |text|
        ensures IsDigit(text[i])
      {
        assert text[i] in text;
      }
    }
  }

  lemma {:induction false} IsNumber(text: string, whole: string, part: string)
    requires DecimalParts(text, whole, part)
    ensures UnsignedNumber(text)
  {
    hide DecimalParts;
  }

  lemma {:induction false} DigitsAreNumber(text: string)
    requires DecimalDigits(text)
    ensures UnsignedNumber(text)
  {
    hide AllDigits, OnlyDigits, UnsignedNumber;
    if AllDigits(text) {
      DigitsOnly(text);
      assert text + "" == text;
      IsNumber(text, text, "");
    } else {
      var k :| 0 <= k < |text| && text[k] == '.' && AllDigits(text[..k]) && AllDigits(text[k + 1..]);
      var part := text[k..];
      assert part[1..] == text[k + 1..] && text == text[..k] + part;
      DigitsOnly(text[..k]);
      DigitsOnly(part[1..]);
      IsNumber(text, text[..k], part);
    }
  }

  lemma {:induction false} NumberIsDigits(text: string)
    requires UnsignedNumber(text)
    ensures DecimalDigits(text) && text != "" && text[0] != '-'
  {
    var whole, part :| DecimalParts(text, whole, part);
    assert whole[0] in whole;
    DigitsOnly(whole);
    hide AllDigits, OnlyDigits;
    if part == "" {
      assert text == whole;
    } else {
      DigitsOnly(part[1..]);
      var k := |whole|;
      assert text[..k] == whole && text[k + 1..] == part[1..] && text[k] == '.';
    }
  }

  lemma {:induction false} PlainIsNumber(text: string)
    ensures PlainNumber(text) <==> NumberText(text)
  {
    hide DecimalDigits, UnsignedNumber;
    var unsigned := if text != "" && text[0] == '-' then text[1..] else text;
    if DecimalDigits(unsigned) {
      DigitsAreNumber(unsigned);
    }
    if UnsignedNumber(unsigned) {
      NumberIsDigits(unsigned);
    }
    if UnsignedNumber(text) {
      NumberIsDigits(text);
    }
  }

  lemma {:induction false} GuardSays(text: string)
    ensures Guarded(Words(text))
            == if text == "" || text[0] !in "=+-@\t\r" || NumberText(text) then text else "'" + text
  {
    PlainIsNumber(text);
    hide PlainNumber, UnsignedNumber;
    if UnsignedNumber(text) {
      NumberIsDigits(text);
    }
  }

  lemma {:induction false} OwnTexts(value: Value)
    ensures value.Missing? ==> Guarded(value) == ""
    ensures value.Bool? ==> Guarded(value) == if value.b then "1" else "0"
    ensures value.Numeral? ==> Guarded(value) == value.numeral
  {
    hide PlainNumber;
  }

  lemma {:induction false} CellIsGuarded(kind: ExportKind, rows: seq<Record>, i: nat, j: nat)
    requires i < |rows| && j < |Columns(kind)|
    ensures var name := Columns(kind)[j];
            Table(kind, rows)[i + 1][j] == Guarded(if name in rows[i] then rows[i][name] else Missing)
  {
    hide Columns, Guarded;
  }

  /**
   * A cell is the value's own text, but for texts that start like a formula and are no numbers:
   * those stand after a single quote. So no cell starts like a formula unless it is a number.
   */
  lemma {:induction false} CellSays(kind: ExportKind, rows: seq<Record>, i: nat, j: nat)
    requires i < |rows| && j < |Columns(kind)|
    ensures var name, cell := Columns(kind)[j], Table(kind, rows)[i + 1][j];
            var value := if name in rows[i] then rows[i][name] else Missing;
            && cell == (match value
                        case Missing => ""
                        case Bool(b) => if b then "1" else "0"
                        case Numeral(number) => number
                        case Words(text) =>
                          if text == "" || text[0] !in "=+-@\t\r" || NumberText(text) then text else "'" + text)
            && (cell != "" && cell[0] in "=+-@\t\r" ==> NumberText(cell) || value == Numeral(cell))
  {
    hide *;
    CellIsGuarded(kind, rows, i, j);
    var name := Columns(kind)[j];
    var value := if name in rows[i] then rows[i][name] else Missing;
    OwnTexts(value);
    if value.Words? {
      GuardSays(value.text);
    }
  }

  // ---- The file ----

  /** The first line, by kind. */
  lemma {:induction false} HeadersAre(kind: ExportKind)
    ensures Parse(ExportCsv(kind, []))
            == ParsedCsv(
                 match kind
                 case Transactions =>
                   ["date", "description", "amount", "type", "currency", "means_of_payment", "beneficiary", "payor",
                    "notes", "category"]
                 case Categories => ["name", "color", "icon", "type", "parent_id"]
                 case Budgets =>
                   ["id", "category_id", "amount", "period", "start_date", "end_date", "rollover_enabled",
                    "rollover_amount", "rollover_used", "created_at", "profile_id", "category_name"]
                 case Accounts => ["name", "type", "currency", "balance", "notes"]
                 case Loans => ["name", "principal", "interest_rate", "start_date", "term_months", "total_prepaid"]
                 case Recurring =>
                   ["description", "amount", "type", "frequency", "day_of_month", "next_date", "notes", "active"],
                 [])
  {
    NoRows(kind);
    WholeFileReads(kind, [], "\n");
    hide Parse, ExportCsv, JoinLines, Table;
  }

  lemma {:induction false} NoRows(kind: ExportKind)
    ensures WholeTable(Table(kind, [])[1..])
    ensures Sorting.Where(ReadTable(Table(kind, [])[1..]), CsvFiles.HasText) == []
    ensures ExportCsv(kind, []) == JoinLines(Table(kind, []), "\n")
  {
    assert ReadTable(Table(kind, [])[1..]) == [];
  }

  lemma {:induction false} LinesGrow(table: seq<seq<string>>, cells: seq<string>)
    requires table != []
    ensures JoinLines(table + [cells], "\n") == JoinLines(table, "\n") + "\n" + JoinCells(cells)
  {
    hide JoinCells;
    var all := table + [cells];
    if |table| == 1 {
      assert all[1..] == [cells];
    } else {
      LinesGrow(table[1..], cells);
      assert all[1..] == table[1..] + [cells];
    }
  }

  /** Every row is a line of its own after a line feed, and the last line has none after it. */
  lemma {:induction false} ExportGrows(kind: ExportKind, rows: seq<Record>, row: Record)
    ensures ExportCsv(kind, rows + [row])
            == ExportCsv(kind, rows) + "\n" + JoinCells(Table(kind, rows + [row])[|rows| + 1])
  {
    hide JoinCells, JoinLines, TextsOf;
    assert Table(kind, rows + [row]) == Table(kind, rows) + [Table(kind, rows + [row])[|rows| + 1]];
    LinesGrow(Table(kind, rows), Table(kind, rows + [row])[|rows| + 1]);
  }

  /** Every cell comes after a comma, between quotes when it holds a quote, a comma or a line feed. */
  lemma {:induction false} LineGrows(cells: seq<string>, cell: string)
    ensures JoinCells(cells + [cell])
            == JoinCells(cells) + (if cells == [] then "" else ",")
               + (if '"' in cell || ',' in cell || '\n' in cell then "\"" + DoubleQuotes(cell) + "\"" else cell)
  {
    var all, written := cells + [cell], Written(cell);
    hide DoubleQuotes;
    if cells == [] {
      assert all == [cell];
    } else {
      LineGrows(cells[1..], cell);
      assert all[1..] == cells[1..] + [cell] && all[0] == cells[0];
      assert written
          == if '"' in cell || ',' in cell || '\n' in cell then "\"" + DoubleQuotes(cell) + "\"" else cell;
      hide Written;
      if |cells| > 1 {
        var first, rest := Written(cells[0]) + ",", JoinCells(cells[1..]);
        Regrouped(first, rest, ",");
        Regrouped(first, rest + ",", written);
      }
    }
  }

  lemma {:induction false} FirstDoubled(first: char, rest: string)
    ensures DoubleQuotes([first] + rest) == (if first == '"' then "\"\"" else [first]) + DoubleQuotes(rest)
  {
    assert ([first] + rest)[1..] == rest;
  }

  lemma {:induction false} DoubledTogether(a: string, b: string)
    ensures DoubleQuotes(a + b) == DoubleQuotes(a) + DoubleQuotes(b)
  {
    if a == "" {
      assert a + b == b;
    } else {
      hide DoubleQuotes;
      var tail, first := a[1..], if a[0] == '"' then "\"\"" else [a[0]];
      DoubledTogether(tail, b);
      FirstDoubled(a[0], tail);
      FirstDoubled(a[0], tail + b);
      assert a == [a[0]] + tail && a + b == [a[0]] + (tail + b);
      Regrouped(first, DoubleQuotes(tail), DoubleQuotes(b));
    }
  }

  /** Every quote is doubled, and nothing else is changed. */
  lemma {:induction false} QuotesDoubled(text: string, rest: string)
    ensures DoubleQuotes(text + "\"" + rest) == DoubleQuotes(text) + "\"\"" + DoubleQuotes(rest)
  {
    hide DoubleQuotes;
    FirstDoubled('"', rest);
    DoubledTogether(text, ['"'] + rest);
    assert text + "\"" + rest == text + (['"'] + rest);
  }

  lemma {:induction false} NothingDoubled(text: string)
    requires '"' !in text
    ensures DoubleQuotes(text) == text
  {
    if text != "" {
      assert forall c :: c in text[1..] ==> c in text;
      NothingDoubled(text[1..]);
    }
  }
}
