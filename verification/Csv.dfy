/**
 * The CSV an import reads (shared/importCsv.ts) and the CSV an export writes
 * (shared/exportColumns.ts), after section 2 of RFC 4180.
 */
module Csv {
  import opened Text

  const BYTE_ORDER_MARK := 0xfeff as char

  // ---- Reading ----

  datatype ParsedCsv = ParsedCsv(headers: seq<string>, rows: seq<seq<string>>)

  /** What the scanner carries: the records done, the row and the cell it is in, and its quotes. */
  datatype Scan = Scan(records: seq<seq<string>>, row: seq<string>, cell: string, quoted: bool, inQuotes: bool) {
    function EndCell(): Scan {
      Scan(records, row + [if quoted then cell else Trim(cell)], "", false, inQuotes)
    }

    function EndRow(): Scan {
      var ended := EndCell();
      Scan(records + [ended.row], [], "", false, inQuotes)
    }

    /** The records, with the trailing one unless the text ended on a separator. */
    function Finish(): seq<seq<string>> {
      if cell != "" || |row| > 0 || quoted then EndRow().records else records
    }
  }

  /** At the start of a cell. */
  function Fresh(records: seq<seq<string>>, row: seq<string>): Scan {
    Scan(records, row, "", false, false)
  }

  /** Whether the scanner reads a doubled quote, a quote and its escape, next. */
  predicate Doubled(text: string) {
    |text| >= 2 && text[0] == '"' && text[1] == '"'
  }

  predicate OpensQuotes(s: Scan, c: char) {
    c == '"' && !s.quoted && Trim(s.cell) == ""
  }

  /** One step of the scanner over a text that is not empty. */
  function After(s: Scan, text: string): Scan
    requires text != ""
  {
    var c := text[0];
    if s.inQuotes then
      if Doubled(text) then s.(cell := s.cell + ['"'])
      else if c == '"' then s.(inQuotes := false)
      else s.(cell := s.cell + [c])
    else if OpensQuotes(s, c) then s.(inQuotes := true, quoted := true, cell := "")
    else if c == ',' then s.EndCell()
    else if c == '\r' || c == '\n' then s.EndRow()
    else s.(cell := s.cell + [c])
  }

  /** How many characters that step takes: a doubled quote and a CR LF are two. */
  function Taken(s: Scan, text: string): nat
    requires text != ""
  {
    if s.inQuotes then (if Doubled(text) then 2 else 1)
    else if !OpensQuotes(s, text[0]) && text[0] == '\r' && |text| >= 2 && text[1] == '\n' then 2
    else 1
  }

  function ScanAll(s: Scan, text: string): Scan
    decreases |text|
  {
    if text == "" then s else ScanAll(After(s, text), text[Taken(s, text)..])
  }

  predicate Blank(row: seq<string>) {
    forall i :: 0 <= i < |row| ==> row[i] == ""
  }

  /** The records with some cell that is not empty. */
  function Kept(records: seq<seq<string>>): seq<seq<string>> {
    if records == [] then []
    else
      var n := |records| - 1;
      Kept(records[..n]) + (if Blank(records[n]) then [] else [records[n]])
  }

  function Unmarked(input: string): string {
    if input != "" && input[0] == BYTE_ORDER_MARK then input[1..] else input
  }

  function Parse(input: string): ParsedCsv {
    var all := Kept(ScanAll(Fresh([], []), Unmarked(input)).Finish());
    if all == [] then ParsedCsv([], []) else ParsedCsv(all[0], all[1..])
  }

  method ParseImportCsv(input: string) returns (parsed: ParsedCsv)
    ensures parsed == Parse(input)
  {
    var text := Unmarked(input);
    var state := Fresh([], []);
    var i := 0;
    while i < |text|
      invariant 0 <= i <= |text|
      invariant ScanAll(state, text[i..]) == ScanAll(Fresh([], []), text)
    {
      var c := text[i];
      ghost var rest := text[i..];
      ghost var before := state;
      var next := i + 1;
      if state.inQuotes {
        if c == '"' {
          if i + 1 < |text| && text[i + 1] == '"' {
            state := state.(cell := state.cell + ['"']);
            next := i + 2;
          } else {
            state := state.(inQuotes := false);
          }
        } else {
          state := state.(cell := state.cell + [c]);
        }
      } else if c == '"' && !state.quoted && Trim(state.cell) == "" {
        state := state.(inQuotes := true, quoted := true, cell := "");
      } else if c == ',' {
        state := state.EndCell();
      } else if c == '\r' {
        if i + 1 < |text| && text[i + 1] == '\n' {
          next := i + 2;
        }
        state := state.EndRow();
      } else if c == '\n' {
        state := state.EndRow();
      } else {
        state := state.(cell := state.cell + [c]);
      }
      assert state == After(before, rest) && next == i + Taken(before, rest);
      assert rest[Taken(before, rest)..] == text[next..];
      i := next;
    }
    assert text[|text|..] == "";
    var records := state.Finish();
    var all: seq<seq<string>> := [];
    for k := 0 to |records|
      invariant all == Kept(records[..k])
    {
      assert records[..k + 1][..k] == records[..k];
      if !Blank(records[k]) {
        all := all + [records[k]];
      }
    }
    assert records[..|records|] == records;
    parsed := if all == [] then ParsedCsv([], []) else ParsedCsv(all[0], all[1..]);
  }

  // ---- Writing ----

  datatype Value = Missing | Bool(b: bool) | Numeral(numeral: string) | Words(text: string)

  /** Digits, with a sign and a decimal part or without: what is data and never a formula. */
  predicate PlainNumber(text: string) {
    DecimalDigits(if text != "" && text[0] == '-' then text[1..] else text)
  }

  predicate DecimalDigits(text: string) {
    || AllDigits(text)
    || exists k :: 0 <= k < |text| && text[k] == '.' && AllDigits(text[..k]) && AllDigits(text[k + 1..])
  }

  predicate FormulaLike(text: string) {
    text != "" && text[0] in "=+-@\t\r"
  }

  function TextOf(value: Value): string {
    match value
    case Missing => ""
    case Bool(b) => if b then "1" else "0"
    case Numeral(n) => n
    case Words(t) => t
  }

  /** The text a cell carries: after a single quote when it would be read as a formula. */
  function Guarded(value: Value): string {
    var text := TextOf(value);
    var isPlainNumber := value.Numeral? || value.Bool? || PlainNumber(text);
    if !isPlainNumber && FormulaLike(text) then "'" + text else text
  }

  predicate NeedsQuotes(text: string) {
    '"' in text || ',' in text || '\n' in text
  }

  function DoubleQuotes(text: string): string {
    if text == "" then ""
    else (if text[0] == '"' then "\"\"" else [text[0]]) + DoubleQuotes(text[1..])
  }

  /** A text as it is written: quoted, its quotes doubled, when it holds a comma, a quote or a line feed. */
  function Written(text: string): string {
    if NeedsQuotes(text) then "\"" + DoubleQuotes(text) + "\"" else text
  }

  function JoinCells(cells: seq<string>): string {
    if cells == [] then ""
    else if |cells| == 1 then Written(cells[0])
    else Written(cells[0]) + "," + JoinCells(cells[1..])
  }

  function JoinLines(table: seq<seq<string>>, separator: string): string {
    if table == [] then ""
    else if |table| == 1 then JoinCells(table[0])
    else JoinCells(table[0]) + separator + JoinLines(table[1..], separator)
  }

  datatype ExportKind = Transactions | Categories | Budgets | Accounts | Loans | Recurring

  function Columns(kind: ExportKind): seq<string> {
    match kind
    case Transactions =>
      ["date", "description", "amount", "type", "currency", "means_of_payment", "beneficiary", "payor", "notes",
       "category"]
    case Categories => ["name", "color", "icon", "type", "parent_id"]
    case Budgets =>
      ["id", "category_id", "amount", "period", "start_date", "end_date", "rollover_enabled", "rollover_amount",
       "rollover_used", "created_at", "profile_id", "category_name"]
    case Accounts => ["name", "type", "currency", "balance", "notes"]
    case Loans => ["name", "principal", "interest_rate", "start_date", "term_months", "total_prepaid"]
    case Recurring =>
      ["description", "amount", "type", "frequency", "day_of_month", "next_date", "notes", "active"]
  }

  type Record = map<string, Value>

  /** The texts of one row: the kind's columns in order, one the row does not have left empty. */
  function TextsOf(columns: seq<string>, row: Record): (texts: seq<string>)
    ensures |texts| == |columns|
  {
    seq(|columns|, i requires 0 <= i < |columns| => Guarded(if columns[i] in row then row[columns[i]] else Missing))
  }

  function Table(kind: ExportKind, rows: seq<Record>): (table: seq<seq<string>>)
    ensures |table| == |rows| + 1
  {
    [Columns(kind)] + seq(|rows|, i requires 0 <= i < |rows| => TextsOf(Columns(kind), rows[i]))
  }

  function ExportCsv(kind: ExportKind, rows: seq<Record>): string {
    JoinLines(Table(kind, rows), "\n")
  }
}
