/**
 Worksheet rows (`spreadsheet-text.ts`): column letters as numbers, and a row
 rebuilt from the cells the sheet lists, gaps filled.
 */
module SheetCells {
  import opened Text

  // --------------------------------------------------------- column letters

  predicate IsLetter(c: char) {
    'A' <= c <= 'Z'
  }

  predicate Letters(s: string) {
    forall c | c in s :: IsLetter(c)
  }

  /** `A` is 1, `Z` 26, `AA` 27; no letter is 0. */
  function ColumnNumber(letters: string): nat
    requires Letters(letters)
  {
    if letters == "" then 0
    else assert letters[|letters| - 1] in letters; 26 * ColumnNumber(letters[..|letters| - 1]) + (letters[|letters| - 1] as int - 64)
  }

  /** The letters a sheet writes for a column number. */
  function ColumnName(number: nat): (letters: string)
    ensures Letters(letters)
    ensures letters == "" <==> number == 0
  {
    if number == 0 then "" else ColumnName((number - 1) / 26) + [(65 + (number - 1) % 26) as char]
  }

  lemma {:induction false} NumberOfName(number: nat)
    ensures ColumnNumber(ColumnName(number)) == number
  {
    if number > 0 {
      NumberOfName((number - 1) / 26);
      var name := ColumnName(number);
      assert name[..|name| - 1] == ColumnName((number - 1) / 26);
    }
  }

  lemma {:induction false} NameOfNumber(letters: string)
    requires Letters(letters)
    ensures ColumnName(ColumnNumber(letters)) == letters
  {
    if letters != "" {
      var head, last := letters[..|letters| - 1], letters[|letters| - 1];
      assert last in letters && Letters(head);
      hide ColumnName;
      NameOfNumber(head);
      NameStep(ColumnNumber(head), last as int - 65);
      assert letters == head + [last];
    }
  }

  lemma NameStep(q: nat, digit: nat)
    requires digit < 26
    ensures ColumnName(26 * q + digit + 1) == ColumnName(q) + [(65 + digit) as char]
  {
    Quotient(q, digit);
  }

  lemma Quotient(q: nat, r: nat)
    requires r < 26
    ensures (26 * q + r) / 26 == q && (26 * q + r) % 26 == r
  {
  }

  /** A cell of the sheet: the letters of its reference, if it has one, and its text. */
  datatype Cell = Cell(ref: Option<string>, text: string) {
    predicate WellFormed() {
      ref.Some? ==> ref.value != "" && Letters(ref.value)
    }

    function Column(): nat
      requires WellFormed()
    {
      if ref.None? then 0 else ColumnNumberPositive(ref.value); ColumnNumber(ref.value) - 1
    }
  }

  lemma ColumnNumberPositive(letters: string)
    requires letters != "" && Letters(letters)
    ensures ColumnNumber(letters) > 0
  {
    assert letters[|letters| - 1] in letters;
  }

  method ColumnIndexOf(cell: Cell) returns (column: nat)
    requires cell.WellFormed()
    ensures column == cell.Column()
  {
    if cell.ref.None? {
      return 0;
    }
    var letters := cell.ref.value;
    var index := 0;
    for i := 0 to |letters|
      invariant index == ColumnNumber(letters[..i])
    {
      assert letters[i] in letters;
      assert letters[..i + 1][..i] == letters[..i];
      index := index * 26 + (letters[i] as int - 64);
    }
    assert letters[..|letters|] == letters;
    ColumnNumberPositive(letters);
    column := index - 1;
  }

  // ------------------------------------------------------------- gap filling

  predicate WellFormed(cells: seq<Cell>) {
    forall c | c in cells :: c.WellFormed()
  }

  /** One past the farthest column listed. */
  function RowLength(cells: seq<Cell>): nat
    requires WellFormed(cells)
  {
    if cells == [] then 0
    else
      var before := RowLength(cells[..|cells| - 1]);
      var end := cells[|cells| - 1].Column() + 1;
      if end > before then end else before
  }

  /** The text of the last cell listed for a column, empty when there is none. */
  function TextAt(cells: seq<Cell>, column: nat): string
    requires WellFormed(cells)
  {
    if cells == [] then ""
    else if cells[|cells| - 1].Column() == column then cells[|cells| - 1].text
    else TextAt(cells[..|cells| - 1], column)
  }

  /** The row of a sheet: every column up to the farthest one, gaps empty, the last cell winning. */
  method SheetRow(listed: seq<Cell>) returns (cells: seq<string>)
    requires WellFormed(listed)
    ensures |cells| == RowLength(listed)
    ensures forall k :: 0 <= k < |cells| ==> cells[k] == TextAt(listed, k)
  {
    cells := [];
    for i := 0 to |listed|
      invariant |cells| == RowLength(listed[..i])
      invariant forall k :: 0 <= k < |cells| ==> cells[k] == TextAt(listed[..i], k)
    {
      ghost var before := cells;
      assert listed[..i + 1][..i] == listed[..i];
      var at := ColumnIndexOf(listed[i]);
      while |cells| < at
        invariant |before| <= |cells|
        invariant |cells| <= at || cells == before
        invariant forall k :: 0 <= k < |cells| ==> cells[k] == if k < |before| then before[k] else ""
      {
        cells := cells + [""];
      }
      BeyondRow(listed[..i]);
      cells := if at == |cells| then cells + [listed[i].text] else cells[at := listed[i].text];
    }
    assert listed[..|listed|] == listed;
  }

  lemma {:induction false} BeyondRow(cells: seq<Cell>)
    requires WellFormed(cells)
    ensures forall k :: k >= RowLength(cells) ==> TextAt(cells, k) == ""
  {
    if cells != [] {
      BeyondRow(cells[..|cells| - 1]);
    }
  }

  /** Some cell lists the column. */
  predicate Lists(cells: seq<Cell>, column: nat)
    requires WellFormed(cells)
  {
    exists i :: 0 <= i < |cells| && cells[i].Column() == column
  }

  /** `cells` list nothing but texts of `row` at their columns, and every non-empty one. */
  predicate Describes(cells: seq<Cell>, row: seq<string>) {
    && WellFormed(cells)
    && (forall i :: 0 <= i < |cells| ==> cells[i].Column() < |row| && cells[i].text == row[cells[i].Column()])
    && (forall k :: 0 <= k < |row| && row[k] != "" ==> Lists(cells, k))
  }

  lemma {:induction false} TextAtDescribed(cells: seq<Cell>, row: seq<string>, k: nat)
    requires WellFormed(cells) && k < |row|
    requires forall i :: 0 <= i < |cells| ==> cells[i].Column() < |row| && cells[i].text == row[cells[i].Column()]
    ensures Lists(cells, k) ==> TextAt(cells, k) == row[k] && k < RowLength(cells)
    ensures !Lists(cells, k) ==> TextAt(cells, k) == ""
  {
    if cells != [] {
      var n := |cells| - 1;
      TextAtDescribed(cells[..n], row, k);
      if Lists(cells, k) && cells[n].Column() != k {
        var i :| 0 <= i < |cells| && cells[i].Column() == k;
        assert cells[..n][i].Column() == k;
      }
      if !Lists(cells, k) {
        assert !Lists(cells[..n], k);
      }
    }
  }

  lemma {:induction false} RowLengthDescribed(cells: seq<Cell>, length: nat)
    requires WellFormed(cells)
    requires forall i :: 0 <= i < |cells| ==> cells[i].Column() < length
    ensures RowLength(cells) <= length
  {
    if cells != [] {
      RowLengthDescribed(cells[..|cells| - 1], length);
    }
  }

  /**
   A row survives the sheet however its cells are listed, in any order and with
   its empty cells written or not: what is rebuilt is the row, and all it may lack
   are empty cells at its end.
   */
  lemma RowSurvives(cells: seq<Cell>, row: seq<string>, rebuilt: seq<string>)
    requires Describes(cells, row)
    requires |rebuilt| == RowLength(cells)
    requires forall k :: 0 <= k < |rebuilt| ==> rebuilt[k] == TextAt(cells, k)
    ensures |rebuilt| <= |row| && rebuilt == row[..|rebuilt|]
    ensures forall k :: |rebuilt| <= k < |row| ==> row[k] == ""
  {
    RowLengthDescribed(cells, |row|);
    forall k | 0 <= k < |row|
      ensures k < |rebuilt| ==> rebuilt[k] == row[k]
      ensures k >= |rebuilt| ==> row[k] == ""
    {
      TextAtDescribed(cells, row, k);
    }
  }

  /** Columns count from zero: the first has the first name, and a cell without a reference is in the first. */
  lemma ColumnOfName(column: nat, text: string)
    ensures Cell(Some(ColumnName(column + 1)), text).WellFormed()
    ensures Cell(Some(ColumnName(column + 1)), text).Column() == column
    ensures Cell(None, text).Column() == 0
    ensures ColumnName(1) == "A" && ColumnName(26) == "Z" && ColumnName(27) == "AA"
  {
    NumberOfName(column + 1);
    assert ColumnName(0) == "" && ColumnName(1) == "A";
  }
}
