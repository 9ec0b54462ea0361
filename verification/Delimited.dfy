/**
 The delimited-text printer (`spreadsheet-text.ts`) and the quote-aware parser
 (`spreadsheet-grid.ts`): the parser's loop against a specification on the
 remaining text, and the round trip between the two (section 2 of RFC 4180 with
 `;` as the delimiter).
 */
module Delimited {
  import opened Text

  type Row = seq<string>

  // ------------------------------------------------------------ the printer

  /** Cells are quoted around the delimiter, quotes and line ends; the code prints with `;` only. */
  predicate NeedsQuotes(cell: string, delimiter: char := ';') {
    exists c | c in cell :: c == delimiter || c == '"' || c == '\n' || c == '\r'
  }

  function EscapeCell(cell: string, delimiter: char := ';'): string {
    if NeedsQuotes(cell, delimiter) then "\"" + ReplaceAll(cell, "\"", "\"\"") + "\"" else cell
  }

  function EscapeCells(cells: Row, delimiter: char := ';'): (r: seq<string>)
    ensures |r| == |cells|
  {
    if cells == [] then [] else [EscapeCell(cells[0], delimiter)] + EscapeCells(cells[1..], delimiter)
  }

  function PrintRow(cells: Row, delimiter: char := ';'): string {
    Join(EscapeCells(cells, delimiter), [delimiter])
  }

  function PrintRows(rows: seq<Row>, delimiter: char := ';'): (r: seq<string>)
    ensures |r| == |rows|
  {
    if rows == [] then [] else [PrintRow(rows[0], delimiter)] + PrintRows(rows[1..], delimiter)
  }

  /** The rows as delimited text, one line ending between two rows. */
  function Print(rows: seq<Row>, eol: string, delimiter: char := ';'): string {
    Join(PrintRows(rows, delimiter), eol)
  }

  /** A character that can stand between cells. */
  predicate CanDelimit(d: char) {
    d != '"' && d != '\n' && d != '\r'
  }

  // ------------------------------------------------------------- the parser

  /** What the parser holds between two characters. */
  datatype Reader = Reader(rows: seq<Row>, row: Row, cell: string, quoted: bool) {
    function PushCell(): Reader {
      this.(row := row + [cell], cell := "")
    }

    function PushRow(): Reader {
      Reader(rows + [row + [cell]], [], "", quoted)
    }

    function Finish(): seq<Row> {
      if cell != "" || |row| > 0 then PushRow().rows else rows
    }
  }

  const Start := Reader([], [], "", false)

  /** The reader after the whole of `text`. */
  function Scan(text: string, delimiter: char, st: Reader): Reader
    decreases |text|
  {
    if text == "" then st
    else
      var c := text[0];
      if st.quoted then
        if c == '"' && |text| > 1 && text[1] == '"' then
          Scan(text[2..], delimiter, st.(cell := st.cell + "\""))
        else if c == '"' then Scan(text[1..], delimiter, st.(quoted := false))
        else Scan(text[1..], delimiter, st.(cell := st.cell + [c]))
      else if c == '"' && st.cell == "" then Scan(text[1..], delimiter, st.(quoted := true))
      else if c == delimiter then Scan(text[1..], delimiter, st.PushCell())
      else if c == '\n' then Scan(text[1..], delimiter, st.PushRow())
      else if c != '\r' then Scan(text[1..], delimiter, st.(cell := st.cell + [c]))
      else Scan(text[1..], delimiter, st)
  }

  predicate HasVisible(row: Row) {
    exists cell | cell in row :: Trim(cell) != ""
  }

  /** The rows with some non-blank cell, in order. */
  function Visible(rows: seq<Row>): seq<Row> {
    if rows == [] then []
    else (if HasVisible(rows[0]) then [rows[0]] else []) + Visible(rows[1..])
  }

  function Parsed(text: string, delimiter: char): seq<Row> {
    Visible(Scan(text, delimiter, Start).Finish())
  }

  method ParseDelimited(text: string, delimiter: char) returns (result: seq<Row>)
    ensures result == Parsed(text, delimiter)
  {
    var rows: seq<Row>, row: Row, cell, quoted := [], [], "", false;
    var index := 0;
    while index < |text|
      invariant 0 <= index <= |text|
      invariant Scan(text[index..], delimiter, Reader(rows, row, cell, quoted))
             == Scan(text, delimiter, Start)
    {
      ghost var rest := text[index..];
      assert rest[1..] == text[index + 1..];
      assert |rest| > 1 ==> rest[1] == text[index + 1] && rest[2..] == text[index + 2..];
      var c := text[index];
      if quoted {
        if c == '"' && index + 1 < |text| && text[index + 1] == '"' {
          cell := cell + "\"";
          index := index + 1;
        } else if c == '"' {
          quoted := false;
        } else {
          cell := cell + [c];
        }
      } else if c == '"' && cell == "" {
        quoted := true;
      } else if c == delimiter {
        row, cell := row + [cell], "";
      } else if c == '\n' {
        rows, row, cell := rows + [row + [cell]], [], "";
      } else if c != '\r' {
        cell := cell + [c];
      }
      index := index + 1;
    }
    assert text[index..] == "";
    if cell != "" || |row| > 0 {
      rows := rows + [row + [cell]];
    }
    result := KeepVisible(rows);
  }

  method KeepVisible(rows: seq<Row>) returns (kept: seq<Row>)
    ensures kept == Visible(rows)
  {
    kept := [];
    for i := 0 to |rows|
      invariant kept + Visible(rows[i..]) == Visible(rows)
    {
      assert rows[i..][1..] == rows[i + 1..];
      if HasVisible(rows[i]) {
        kept := kept + [rows[i]];
      }
    }
  }

  // ------------------------------------------------------------- round trip

  /** What may follow a printed cell. */
  predicate AfterCell(rest: string, d: char) {
    rest == "" || rest[0] == d || rest[0] == '\n' || rest[0] == '\r'
  }

  lemma {:induction false} ScanPlain(cell: string, rest: string, st: Reader, d: char)
    requires CanDelimit(d)
    requires !NeedsQuotes(cell, d) && !st.quoted
    ensures Scan(cell + rest, d, st) == Scan(rest, d, st.(cell := st.cell + cell))
  {
    if cell == "" {
      assert cell + rest == rest && st.cell + cell == st.cell;
    } else {
      assert cell[0] in cell && forall c | c in cell[1..] :: c in cell;
      assert (cell + rest)[1..] == cell[1..] + rest;
      assert st.cell + cell == st.cell + [cell[0]] + cell[1..];
      ScanPlain(cell[1..], rest, st.(cell := st.cell + [cell[0]]), d);
    }
  }

  lemma {:induction false} ScanQuoted(cell: string, rest: string, st: Reader, d: char)
    requires st.quoted && (rest == "" || rest[0] != '"')
    ensures Scan(ReplaceAll(cell, "\"", "\"\"") + "\"" + rest, d, st)
         == Scan(rest, d, st.(cell := st.cell + cell, quoted := false))
    decreases |cell|
  {
    var doubled := ReplaceAll(cell, "\"", "\"\"");
    var tail := "\"" + rest;
    assert doubled + "\"" + rest == doubled + tail;
    if cell == "" {
      assert doubled + tail == tail && tail[1..] == rest && st.cell + cell == st.cell;
    } else {
      var next := ReplaceAll(cell[1..], "\"", "\"\"");
      assert next + "\"" + rest == next + tail;
      assert st.cell + cell == st.cell + [cell[0]] + cell[1..];
      if cell[0] == '"' {
        assert "\"" <= cell;
        assert doubled + tail == "\"\"" + (next + tail);
      } else {
        assert !("\"" <= cell);
        assert doubled + tail == [cell[0]] + (next + tail);
      }
      ScanQuoted(cell[1..], rest, st.(cell := st.cell + [cell[0]]), d);
    }
  }

  /** The parser reads one printed cell back, whatever it holds. */
  lemma ScanCell(cell: string, rest: string, rows: seq<Row>, row: Row, d: char)
    requires CanDelimit(d)
    requires AfterCell(rest, d)
    ensures Scan(EscapeCell(cell, d) + rest, d, Reader(rows, row, "", false))
         == Scan(rest, d, Reader(rows, row, cell, false))
  {
    if NeedsQuotes(cell, d) {
      var inner := ReplaceAll(cell, "\"", "\"\"") + "\"" + rest;
      assert EscapeCell(cell, d) + rest == "\"" + inner;
      ScanQuoted(cell, rest, Reader(rows, row, "", true), d);
      assert "" + cell == cell;
    } else {
      ScanPlain(cell, rest, Reader(rows, row, "", false), d);
      assert "" + cell == cell;
    }
  }

  predicate AfterRow(rest: string) {
    rest == "" || rest[0] == '\n' || rest[0] == '\r'
  }

  lemma ScanDelimiter(next: string, rows: seq<Row>, row: Row, cell: string, d: char)
    requires CanDelimit(d)
    ensures Scan([d] + next, d, Reader(rows, row, cell, false))
         == Scan(next, d, Reader(rows, row + [cell], "", false))
  {
    assert ([d] + next)[1..] == next;
  }

  lemma PrintRowTwo(cells: Row, d: char)
    requires |cells| >= 2
    ensures PrintRow(cells, d) == EscapeCell(cells[0], d) + ([d] + PrintRow(cells[1..], d))
  {
    assert EscapeCells(cells, d)[1..] == EscapeCells(cells[1..], d);
  }

  lemma {:induction false} ScanRow(cells: Row, rest: string, rows: seq<Row>, row: Row, d: char)
    requires CanDelimit(d)
    requires cells != [] && AfterRow(rest)
    ensures Scan(PrintRow(cells, d) + rest, d, Reader(rows, row, "", false))
         == Scan(rest, d, Reader(rows, row + cells[..|cells| - 1], cells[|cells| - 1], false))
    decreases |cells|
  {
    hide Scan, EscapeCell;
    if |cells| == 1 {
      assert PrintRow(cells, d) == EscapeCell(cells[0], d);
      assert row + cells[..0] == row;
      ScanCell(cells[0], rest, rows, row, d);
    } else {
      var next := PrintRow(cells[1..], d) + rest;
      PrintRowTwo(cells, d);
      assert PrintRow(cells, d) + rest == EscapeCell(cells[0], d) + ([d] + next);
      ScanCell(cells[0], [d] + next, rows, row, d);
      ScanDelimiter(next, rows, row, cells[0], d);
      ScanRow(cells[1..], rest, rows, row + [cells[0]], d);
      assert row + [cells[0]] + cells[1..][..|cells| - 2] == row + cells[..|cells| - 1];
    }
  }

  /** A row with no cell is printed like a row with one empty cell. */
  function Shown(cells: Row): (r: Row)
    ensures r != []
  {
    if cells == [] then [""] else cells
  }

  function ShownRows(rows: seq<Row>): (r: seq<Row>)
    ensures |r| == |rows|
  {
    if rows == [] then [] else [Shown(rows[0])] + ShownRows(rows[1..])
  }

  predicate LineEnding(eol: string) {
    eol == "\n" || eol == "\r\n"
  }

  lemma ScanEnding(eol: string, rest: string, st: Reader, d: char)
    requires CanDelimit(d)
    requires LineEnding(eol) && !st.quoted
    ensures Scan(eol + rest, d, st) == Scan(rest, d, st.PushRow())
  {
    assert ("\n" + rest)[1..] == rest;
    if eol == "\r\n" {
      assert (eol + rest)[1..] == "\n" + rest;
    }
  }

  /** The reader that has read all of `row` but what ends it. */
  function AtRowEnd(rows: seq<Row>, row: Row): Reader
    requires row != []
  {
    Reader(rows, row[..|row| - 1], row[|row| - 1], false)
  }

  lemma ScanShownRow(cells: Row, rest: string, rows: seq<Row>, d: char)
    requires CanDelimit(d)
    requires AfterRow(rest)
    ensures Scan(PrintRow(cells, d) + rest, d, Reader(rows, [], "", false))
         == Scan(rest, d, AtRowEnd(rows, Shown(cells)))
  {
    if cells == [] {
      assert PrintRow(cells, d) + rest == rest;
    } else {
      ScanRow(cells, rest, rows, [], d);
      assert [] + cells[..|cells| - 1] == cells[..|cells| - 1];
    }
  }

  /** One printed line, its ending included, adds its row. */
  lemma ScanLine(cells: Row, eol: string, next: string, rows: seq<Row>, d: char)
    requires CanDelimit(d)
    requires LineEnding(eol)
    ensures Scan(PrintRow(cells, d) + (eol + next), d, Reader(rows, [], "", false))
         == Scan(next, d, Reader(rows + [Shown(cells)], [], "", false))
  {
    var shown := Shown(cells);
    ScanShownRow(cells, eol + next, rows, d);
    ScanEnding(eol, next, AtRowEnd(rows, shown), d);
    assert shown[..|shown| - 1] + [shown[|shown| - 1]] == shown;
  }

  /** The last line adds its row too, unless it is a lone empty cell. */
  lemma ScanLastLine(cells: Row, rows: seq<Row>, d: char)
    requires CanDelimit(d)
    ensures var read := Scan(PrintRow(cells, d), d, Reader(rows, [], "", false)).Finish();
            (read == rows + [Shown(cells)] || (Shown(cells) == [""] && read == rows))
  {
    var shown := Shown(cells);
    assert PrintRow(cells, d) + "" == PrintRow(cells, d);
    ScanShownRow(cells, "", rows, d);
    assert shown[..|shown| - 1] + [shown[|shown| - 1]] == shown;
  }

  predicate ReadAs(read: seq<Row>, all: seq<Row>) {
    read == all || (all != [] && all[|all| - 1] == [""] && read == all[..|all| - 1])
  }

  lemma PrintTwo(table: seq<Row>, eol: string, d: char)
    requires |table| >= 2
    ensures Print(table, eol, d) == PrintRow(table[0], d) + (eol + Print(table[1..], eol, d))
  {
    assert PrintRows(table, d)[1..] == PrintRows(table[1..], d);
  }

  /** The whole text: the rows printed, but for a last one that is a lone empty cell. */
  lemma {:induction false} ScanTable(table: seq<Row>, eol: string, rows: seq<Row>, d: char)
    requires CanDelimit(d)
    requires table != [] && LineEnding(eol)
    ensures ReadAs(Scan(Print(table, eol, d), d, Reader(rows, [], "", false)).Finish(),
                   rows + ShownRows(table))
    decreases |table|
  {
    hide Scan, Print, PrintRow, ReadAs, Shown;
    var shown := Shown(table[0]);
    if |table| == 1 {
      ScanLastTable(table, eol, rows, d);
    } else {
      PrintTwo(table, eol, d);
      ScanLine(table[0], eol, Print(table[1..], eol, d), rows, d);
      ScanTable(table[1..], eol, rows + [shown], d);
      assert rows + [shown] + ShownRows(table[1..]) == rows + ShownRows(table);
    }
  }

  lemma ScanLastTable(table: seq<Row>, eol: string, rows: seq<Row>, d: char)
    requires CanDelimit(d)
    requires |table| == 1
    ensures ReadAs(Scan(Print(table, eol, d), d, Reader(rows, [], "", false)).Finish(),
                   rows + ShownRows(table))
  {
    hide Scan, PrintRow, Print, ShownRows, Shown;
    PrintOne(table, eol, d);
    ScanLastLine(table[0], rows, d);
    var all := rows + [Shown(table[0])];
    assert all[|all| - 1] == Shown(table[0]) && all[..|all| - 1] == rows;
  }

  lemma PrintOne(table: seq<Row>, eol: string, d: char)
    requires |table| == 1
    ensures Print(table, eol, d) == PrintRow(table[0], d) && ShownRows(table) == [Shown(table[0])]
  {
    hide PrintRow, Shown;
  }

  lemma {:induction false} VisibleConcat(a: seq<Row>, b: seq<Row>)
    ensures Visible(a + b) == Visible(a) + Visible(b)
  {
    if a == [] {
      assert a + b == b;
    } else {
      assert (a + b)[1..] == a[1..] + b;
      VisibleConcat(a[1..], b);
    }
  }

  lemma {:induction false} VisibleShown(rows: seq<Row>)
    ensures Visible(ShownRows(rows)) == Visible(rows)
  {
    if rows != [] {
      TrimEmpty("");
      assert !HasVisible([""]);
      assert ShownRows(rows)[1..] == ShownRows(rows[1..]);
      VisibleShown(rows[1..]);
    }
  }

  lemma VisibleButLast(all: seq<Row>)
    requires all != [] && all[|all| - 1] == [""]
    ensures Visible(all[..|all| - 1]) == Visible(all)
  {
    var k := |all| - 1;
    TrimEmpty("");
    assert all == all[..k] + [all[k]];
    VisibleConcat(all[..k], [all[k]]);
    assert !HasVisible([""]);
    assert Visible([all[k]]) == [];
  }

  /** Read with or without its last blank row, a table shows the same. */
  lemma ReadAsShows(read: seq<Row>, all: seq<Row>)
    requires ReadAs(read, all)
    ensures Visible(read) == Visible(all)
  {
    hide Visible;
    if read != all {
      VisibleButLast(all);
    }
  }

  /** With `VisibleConcat`: a row is kept, where it stands, exactly when some cell has a character that is not blank. */
  lemma VisibleOne(row: Row)
    ensures Visible([row])
      == if exists i, k :: 0 <= i < |row| && 0 <= k < |row[i]| && !IsBlank(row[i][k]) then [row] else []
  {
    if HasVisible(row) {
      var cell :| cell in row && Trim(cell) != "";
      TrimEmpty(cell);
      var i :| 0 <= i < |row| && row[i] == cell;
      var k :| 0 <= k < |cell| && !IsBlank(cell[k]);
      assert !IsBlank(row[i][k]);
    } else if i, k :| 0 <= i < |row| && 0 <= k < |row[i]| && !IsBlank(row[i][k]) {
      TrimEmpty(row[i]);
    }
  }

  /** Every table survives: what was printed is read back cell for cell, minus its blank rows. */
  lemma RoundTrip(table: seq<Row>, eol: string, d: char := ';')
    requires LineEnding(eol) && CanDelimit(d)
    ensures Parsed(Print(table, eol, d), d) == Visible(table)
  {
    if table == [] {
      NothingPrinted(table, eol, d);
    } else {
      hide Scan, Print, Visible, ReadAs, ShownRows;
      var all := ShownRows(table);
      ScanTable(table, eol, [], d);
      assert [] + all == all;
      VisibleShown(table);
      ReadAsShows(Scan(Print(table, eol, d), d, Start).Finish(), all);
    }
  }

  lemma NothingPrinted(table: seq<Row>, eol: string, d: char)
    requires table == []
    ensures Parsed(Print(table, eol, d), d) == Visible(table)
  {
  }

  // ----------------------------------------------------- delimiter detection

  function Width(rows: seq<Row>): nat {
    if rows == [] then 0 else |rows[0]|
  }

  const Delimiters: seq<char> := [';', ',', '\t']

  /** The text read with each delimiter, in the order they are tried. */
  function Readings(text: string): (r: seq<seq<Row>>)
    ensures |r| == 3
  {
    [Parsed(text, ';'), Parsed(text, ','), Parsed(text, '\t')]
  }

  function Widest(readings: seq<seq<Row>>): seq<Row> {
    if readings == [] then []
    else
      var n := |readings| - 1;
      var best := Widest(readings[..n]);
      if Width(readings[n]) > Width(best) then readings[n] else best
  }

  function Detected(text: string): Option<seq<Row>> {
    var best := Widest(Readings(text));
    if |best| > 0 then Some(best) else None
  }

  /** A UTF-8 decoding that failed reads as nothing; otherwise the widest reading wins. */
  method CsvToRows(decoded: Option<string>) returns (grid: Option<seq<Row>>)
    ensures grid == if decoded.None? then None else Detected(decoded.value)
  {
    if decoded.None? {
      return None;
    }
    hide Parsed;
    var best: seq<Row> := [];
    ghost var readings := Readings(decoded.value);
    for i := 0 to |Delimiters|
      invariant best == Widest(readings[..i])
    {
      var rows := ParseDelimited(decoded.value, Delimiters[i]);
      assert rows == readings[i];
      if Width(rows) > Width(best) {
        best := rows;
      }
      assert readings[..i + 1][..i] == readings[..i];
    }
    assert readings[..|Delimiters|] == readings;
    grid := if |best| > 0 then Some(best) else None;
  }

  /** The winner is as wide as any reading, and wider than every earlier one. */
  ghost predicate FirstWidest(readings: seq<seq<Row>>, k: nat)
    requires k < |readings|
  {
    && (forall j :: 0 <= j < |readings| ==> Width(readings[j]) <= Width(readings[k]))
    && (forall j :: 0 <= j < k ==> Width(readings[j]) < Width(readings[k]))
  }

  lemma {:induction false} WidestIsFirstWidest(readings: seq<seq<Row>>)
    ensures Width(Widest(readings)) == 0 ==>
              Widest(readings) == [] && forall j :: 0 <= j < |readings| ==> Width(readings[j]) == 0
    ensures Width(Widest(readings)) > 0 ==>
              exists k :: 0 <= k < |readings| && Widest(readings) == readings[k] && FirstWidest(readings, k)
  {
    if readings != [] {
      var n := |readings| - 1;
      var before := readings[..n];
      WidestIsFirstWidest(before);
      if Width(readings[n]) > Width(Widest(before)) {
        assert forall j :: 0 <= j < n ==> readings[j] == before[j];
        assert FirstWidest(readings, n);
      } else if Width(Widest(before)) > 0 {
        var k :| 0 <= k < |before| && Widest(before) == before[k] && FirstWidest(before, k);
        assert forall j :: 0 <= j < n ==> readings[j] == before[j];
        assert FirstWidest(readings, k);
      } else {
        assert forall j :: 0 <= j < n ==> readings[j] == before[j];
      }
    }
  }

  lemma {:induction false} VisibleRows(rows: seq<Row>)
    ensures forall row | row in Visible(rows) :: HasVisible(row) && row in rows
    ensures Width(Visible(rows)) == 0 <==> Visible(rows) == []
  {
    if rows != [] {
      VisibleRows(rows[1..]);
    }
    if Visible(rows) != [] {
      assert HasVisible(Visible(rows)[0]);
    }
  }

  /** Nothing is detected exactly when no delimiter reads a row with visible text. */
  lemma NothingDetected(text: string)
    ensures Detected(text).None? <==> forall j :: 0 <= j < 3 ==> Readings(text)[j] == []
  {
    var readings := Readings(text);
    WidestIsFirstWidest(readings);
    ReadingsVisible(text);
    if Width(Widest(readings)) > 0 {
      var k :| 0 <= k < |readings| && Widest(readings) == readings[k] && FirstWidest(readings, k);
    }
  }

  lemma ReadingsVisible(text: string)
    ensures forall j :: 0 <= j < 3 ==> (Width(Readings(text)[j]) == 0 <==> Readings(text)[j] == [])
  {
    VisibleRows(Scan(text, ';', Start).Finish());
    VisibleRows(Scan(text, ',', Start).Finish());
    VisibleRows(Scan(text, '\t', Start).Finish());
  }

  /** What detection should give back of a table: its visible rows, or nothing when it has none. */
  function Expected(table: seq<Row>): Option<seq<Row>> {
    if Visible(table) == [] then None else Some(Visible(table))
  }

  /**
   The whole CSV path on a printed table, visible rows or none: the rows come back
   exactly when neither the comma nor the tab reads a wider first row than the
   table's own.
   */
  lemma DetectionRoundTrip(table: seq<Row>, eol: string)
    requires LineEnding(eol)
    ensures Detected(Print(table, eol)) == Expected(table) <==>
              && Width(Parsed(Print(table, eol), ',')) <= Width(Visible(table))
              && Width(Parsed(Print(table, eol), '\t')) <= Width(Visible(table))
  {
    hide Parsed, Print, Visible;
    var text := Print(table, eol);
    var readings := Readings(text);
    RoundTrip(table, eol);
    assert readings[0] == Visible(table);
    VisibleRows(table);
    ReadingsVisible(text);
    NothingDetected(text);
    WidestIsFirstWidest(readings);
    if Width(Widest(readings)) > 0 {
      var k :| 0 <= k < |readings| && Widest(readings) == readings[k] && FirstWidest(readings, k);
      if Width(readings[1]) <= Width(readings[0]) && Width(readings[2]) <= Width(readings[0]) {
        assert k == 0;
      }
    }
  }

  /**
   A table written with any of the three delimiters: that reading is its visible
   rows, it is what comes out when it is the first widest, and it is not when
   another is wider.
   */
  lemma DetectedWith(table: seq<Row>, eol: string, k: nat)
    requires LineEnding(eol) && k < |Delimiters|
    ensures var readings := Readings(Print(table, eol, Delimiters[k]));
      && readings[k] == Visible(table)
      && (FirstWidest(readings, k) ==> Detected(Print(table, eol, Delimiters[k])) == Expected(table))
      && ((exists j :: 0 <= j < 3 && Width(readings[j]) > Width(Visible(table))) ==>
            Detected(Print(table, eol, Delimiters[k])) != Expected(table))
  {
    hide Parsed, Print, Visible;
    var text := Print(table, eol, Delimiters[k]);
    var readings := Readings(text);
    RoundTrip(table, eol, Delimiters[k]);
    assert readings[k] == Parsed(text, Delimiters[k]);
    VisibleRows(table);
    ReadingsVisible(text);
    NothingDetected(text);
    WidestIsFirstWidest(readings);
    if Width(Widest(readings)) > 0 {
      var first :| 0 <= first < |readings| && Widest(readings) == readings[first] && FirstWidest(readings, first);
      if FirstWidest(readings, k) {
        assert first == k;
      }
    }
  }

  /** A table of two columns or more, written with one delimiter and free of the others, always comes back. */
  lemma ColumnsDetected(table: seq<Row>, eol: string, k: nat)
    requires LineEnding(eol) && k < |Delimiters| && Width(Visible(table)) >= 2
    requires forall j :: 0 <= j < 3 && j != k ==> Delimiters[j] !in Print(table, eol, Delimiters[k])
    ensures Detected(Print(table, eol, Delimiters[k])) == Some(Visible(table))
  {
    hide Parsed, Print, Visible;
    var text := Print(table, eol, Delimiters[k]);
    DetectedWith(table, eol, k);
    forall j | 0 <= j < 3 && j != k ensures Width(Readings(text)[j]) <= 1 {
      NoDelimiterNarrow(text, Delimiters[j]);
    }
  }

  /** Text the printer never writes: a quote inside a cell is itself, what follows a closing quote goes on in the cell, and a lone carriage return outside quotes is nothing. */
  lemma LooseText(rest: string, d: char, st: Reader)
    requires CanDelimit(d) && !st.quoted
    ensures st.cell != "" ==> Scan("\"" + rest, d, st) == Scan(rest, d, st.(cell := st.cell + "\""))
    ensures st.cell == "" ==> Scan("\"" + rest, d, st) == Scan(rest, d, st.(quoted := true))
    ensures (rest == "" || rest[0] != '"') ==> Scan("\"" + rest, d, st.(quoted := true)) == Scan(rest, d, st)
    ensures Scan("\r" + rest, d, st) == Scan(rest, d, st)
    ensures Scan("\r" + rest, d, st.(quoted := true)) == Scan(rest, d, st.(cell := st.cell + "\r", quoted := true))
  {
    assert ("\"" + rest)[1..] == rest && ("\r" + rest)[1..] == rest;
    assert st.cell + ['"'] == st.cell + "\"";
  }

  /** A quote left open takes the rest of the text into its cell, line ends and delimiters too. */
  lemma {:induction false} OpenQuoteTakesAll(text: string, d: char, st: Reader)
    requires st.quoted && '"' !in text
    ensures Scan(text, d, st) == st.(cell := st.cell + text)
    decreases |text|
  {
    if text == "" {
      assert st.cell + text == st.cell;
    } else {
      assert st.cell + [text[0]] + text[1..] == st.cell + text;
      OpenQuoteTakesAll(text[1..], d, st.(cell := st.cell + [text[0]]));
    }
  }

  lemma {:induction false} NoDelimiterScan(text: string, d: char, st: Reader)
    requires d !in text && st.row == [] && forall row | row in st.rows :: |row| == 1
    ensures var end := Scan(text, d, st);
            end.row == [] && forall row | row in end.rows :: |row| == 1
    decreases |text|
  {
    if text != "" {
      assert text[0] in text && forall c | c in text[1..] :: c in text;
      var c := text[0];
      if st.quoted {
        if c == '"' && |text| > 1 && text[1] == '"' {
          assert forall c | c in text[2..] :: c in text;
          NoDelimiterScan(text[2..], d, st.(cell := st.cell + "\""));
        } else if c == '"' {
          NoDelimiterScan(text[1..], d, st.(quoted := false));
        } else {
          NoDelimiterScan(text[1..], d, st.(cell := st.cell + [c]));
        }
      } else if c == '"' && st.cell == "" {
        NoDelimiterScan(text[1..], d, st.(quoted := true));
      } else if c == '\n' {
        NoDelimiterScan(text[1..], d, st.PushRow());
      } else if c != '\r' {
        NoDelimiterScan(text[1..], d, st.(cell := st.cell + [c]));
      } else {
        NoDelimiterScan(text[1..], d, st);
      }
    }
  }

  lemma NoDelimiterNarrow(text: string, d: char)
    requires d !in text
    ensures Width(Parsed(text, d)) <= 1
  {
    NoDelimiterScan(text, d, Start);
    var rows := Scan(text, d, Start).Finish();
    VisibleRows(rows);
    if Parsed(text, d) != [] {
      assert Parsed(text, d)[0] in rows;
    }
  }

  /** Two delimiters that a text lacks read it alike. */
  lemma {:induction false} AbsentDelimiters(text: string, a: char, b: char, st: Reader)
    requires a !in text && b !in text
    ensures Scan(text, a, st) == Scan(text, b, st)
    decreases |text|
  {
    if text != "" {
      assert text[0] in text && forall c | c in text[1..] :: c in text;
      var c := text[0];
      if st.quoted {
        if c == '"' && |text| > 1 && text[1] == '"' {
          assert forall c | c in text[2..] :: c in text;
          AbsentDelimiters(text[2..], a, b, st.(cell := st.cell + "\""));
        } else if c == '"' {
          AbsentDelimiters(text[1..], a, b, st.(quoted := false));
        } else {
          AbsentDelimiters(text[1..], a, b, st.(cell := st.cell + [c]));
        }
      } else if c == '"' && st.cell == "" {
        AbsentDelimiters(text[1..], a, b, st.(quoted := true));
      } else if c == '\n' {
        AbsentDelimiters(text[1..], a, b, st.PushRow());
      } else if c != '\r' {
        AbsentDelimiters(text[1..], a, b, st.(cell := st.cell + [c]));
      } else {
        AbsentDelimiters(text[1..], a, b, st);
      }
    }
  }

  predicate RowHolds(row: Row, c: char) {
    exists cell | cell in row :: c in cell
  }

  /** The reader has the character in some cell, closed or not. */
  predicate Holds(st: Reader, c: char) {
    (exists row | row in st.rows :: RowHolds(row, c)) || RowHolds(st.row, c) || c in st.cell
  }

  lemma PushHolds(st: Reader, c: char)
    requires Holds(st, c)
    ensures Holds(st.PushCell(), c) && Holds(st.PushRow(), c)
    ensures exists row | row in st.Finish() :: RowHolds(row, c)
  {
    var row := st.row + [st.cell];
    assert st.cell in row && forall cell | cell in st.row :: cell in row;
    assert RowHolds(st.row, c) || c in st.cell ==> RowHolds(row, c);
    var pushed := st.rows + [row];
    assert row in pushed && forall r | r in st.rows :: r in pushed;
    assert RowHolds(st.row, c) ==> st.row != [];
    assert c in st.cell ==> st.cell != "";
  }

  /** A `;` that does not delimit stays in some cell. */
  lemma {:induction false} SemicolonStays(text: string, d: char, st: Reader)
    requires d != ';' && (Holds(st, ';') || ';' in text)
    ensures Holds(Scan(text, d, st), ';')
    decreases |text|
  {
    hide Holds;
    if text != "" {
      var c := text[0];
      assert text == [c] + text[1..];
      if st.quoted && c == '"' && |text| > 1 && text[1] == '"' {
        assert text == [c, text[1]] + text[2..];
        SemicolonStep(st, "\"", true, ';' in text[2..]);
        SemicolonStays(text[2..], d, st.(cell := st.cell + "\""));
      } else if st.quoted && c == '"' {
        SemicolonStep(st, "", false, ';' in text[1..]);
        assert st.cell + "" == st.cell;
        SemicolonStays(text[1..], d, st.(quoted := false));
      } else if !st.quoted && c == '"' && st.cell == "" {
        SemicolonStep(st, "", true, ';' in text[1..]);
        assert st.cell + "" == st.cell;
        SemicolonStays(text[1..], d, st.(quoted := true));
      } else if !st.quoted && c == d {
        if Holds(st, ';') {
          PushHolds(st, ';');
        }
        SemicolonStays(text[1..], d, st.PushCell());
      } else if !st.quoted && c == '\n' {
        if Holds(st, ';') {
          PushHolds(st, ';');
        }
        SemicolonStays(text[1..], d, st.PushRow());
      } else if st.quoted || c != '\r' {
        SemicolonStep(st, [c], st.quoted, ';' in text[1..]);
        SemicolonStays(text[1..], d, st.(cell := st.cell + [c]));
      } else {
        SemicolonStays(text[1..], d, st);
      }
    }
  }

  /** A step that adds to the open cell. */
  lemma SemicolonStep(st: Reader, added: string, quoted: bool, more: bool)
    requires Holds(st, ';') || ';' in added || more
    ensures Holds(st.(cell := st.cell + added, quoted := quoted), ';') || more
  {
  }

  lemma SemicolonShows(text: string, d: char)
    requires d != ';' && ';' in text
    ensures Parsed(text, d) != []
  {
    hide Trim, Scan;
    SemicolonStays(text, d, Start);
    var st := Scan(text, d, Start);
    PushHolds(st, ';');
    var rows := st.Finish();
    var row :| row in rows && RowHolds(row, ';');
    var cell :| cell in row && ';' in cell;
    TrimEmpty(cell);
    assert HasVisible(row);
    VisibleHas(rows, row);
  }

  lemma {:induction false} VisibleHas(rows: seq<Row>, row: Row)
    requires row in rows && HasVisible(row)
    ensures row in Visible(rows)
  {
    if row != rows[0] {
      VisibleHas(rows[1..], row);
    }
  }

  /**
   A printed table whose text holds no comma and no tab comes back exactly when it
   has a visible row or its text no `;`: a table of blanks in more than one column
   is read, with the comma, as a cell of semicolons.
   */
  lemma PlainTableDetected(table: seq<Row>, eol: string)
    requires LineEnding(eol)
    requires ',' !in Print(table, eol) && '\t' !in Print(table, eol)
    ensures Detected(Print(table, eol)) == Expected(table) <==> Visible(table) != [] || ';' !in Print(table, eol)
  {
    hide Scan, Print;
    var text := Print(table, eol);
    DetectionRoundTrip(table, eol);
    RoundTrip(table, eol);
    VisibleRows(table);
    NoDelimiterNarrow(text, ',');
    NoDelimiterNarrow(text, '\t');
    if Visible(table) == [] {
      ReadingsVisible(text);
      if ';' in text {
        SemicolonShows(text, ',');
        assert Readings(text)[1] == Parsed(text, ',');
      } else {
        AbsentDelimiters(text, ';', ',', Start);
        AbsentDelimiters(text, ';', '\t', Start);
      }
    }
  }

  /** A row of two blank cells is nothing to see, and is detected as the cell `;`. */
  lemma BlanksReadAsSemicolon()
    ensures Expected([["", ""]]) == None && Print([["", ""]], "\n") == ";"
    ensures Detected(";") == Some([[";"]])
  {
    hide Parsed, Visible, Print;
    BlanksPrinted();
    RoundTrip([["", ""]], "\n");
    LoneSemicolon(',');
    LoneSemicolon('\t');
    assert Readings(";") == [[], [[";"]], [[";"]]];
    SecondOfThree([[], [[";"]], [[";"]]]);
  }

  lemma SecondOfThree(readings: seq<seq<Row>>)
    requires |readings| == 3 && readings[0] == [] && Width(readings[1]) > 0 && Width(readings[2]) <= Width(readings[1])
    ensures Widest(readings) == readings[1]
  {
    var two, one := readings[..2], readings[..1];
    assert two[..1] == one && one[..0] == [];
    assert Widest(one) == [];
    assert Widest(two) == readings[1];
  }

  lemma BlanksPrinted()
    ensures Visible([["", ""]]) == [] && Print([["", ""]], "\n") == ";"
  {
    hide Trim;
    var row := ["", ""];
    TrimEmpty("");
    assert !NeedsQuotes("");
    assert row[1..] == [""] && row[1..][1..] == [];
    assert EscapeCells(row) == ["", ""];
    assert PrintRow(row) == ";";
    assert PrintRows([row]) == [";"];
  }

  lemma LoneSemicolon(d: char)
    requires d != ';'
    ensures Parsed(";", d) == [[";"]]
  {
    hide Trim;
    assert ";"[1..] == "" && "" + ";" == ";";
    assert Scan(";", d, Start) == Reader([], [], ";", false);
    var cells: Row, rows: seq<Row> := [], [];
    assert cells + [";"] == [";"] && rows + [[";"]] == [[";"]];
    TrimEmpty(";");
    assert HasVisible([";"]) by {
      assert ";" in [";"] && ';' in ";";
    }
    assert [[";"]][1..] == [];
  }

  /** One cell holding commas is enough to lose the round trip through detection. */
  lemma DetectionCanSplitCells()
    ensures Detected(Print([["a,b"]], "\n")) != Expected([["a,b"]])
  {
    hide Scan, Trim;
    var text := "a,b";
    assert !NeedsQuotes(text);
    assert PrintRow([text]) == text;
    assert Print([[text]], "\n") == text;
    CommaReading();
    TrimIdentity("a");
    TrimIdentity(text);
    assert HasVisible(["a", "b"]) by { assert "a" in ["a", "b"]; }
    assert HasVisible([text]) by { assert text in [text]; }
    assert Visible([["a", "b"]]) == [["a", "b"]];
    assert Visible([[text]]) == [[text]];
    DetectionRoundTrip([[text]], "\n");
  }

  lemma CommaReading()
    ensures Scan("a,b", ',', Start) == Reader([], ["a"], "b", false)
  {
    var text := "a,b";
    assert text[1..] == ",b" && ",b"[1..] == "b" && "b"[1..] == "";
    assert "" + "a" == "a" && "" + "b" == "b";
    assert Scan("b", ',', Reader([], ["a"], "", false)) == Reader([], ["a"], "b", false);
    assert Scan(",b", ',', Reader([], [], "a", false)) == Reader([], ["a"], "b", false);
  }
}
