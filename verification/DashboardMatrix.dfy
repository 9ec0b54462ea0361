/**
 The composition matrix (`dashboard-matrix.ts`): cell keys, the cross of a cell,
 and the route's reading of a list of cells.
 */
module DashboardMatrix {
  import opened Text

  datatype Mode = Chart | Liquid | Rest | Housing | Debts

  datatype Range = OneYear | ThreeYears | FiveYears | All

  datatype Coord = Coord(mode: Mode, range: Range)

  const Modes: seq<Mode> := [Chart, Liquid, Rest, Housing, Debts]

  const Ranges: seq<Range> := [OneYear, ThreeYears, FiveYears, All]

  function ModeName(mode: Mode): string {
    match mode
    case Chart => "chart"
    case Liquid => "liquid"
    case Rest => "rest"
    case Housing => "housing"
    case Debts => "debts"
  }

  function RangeName(range: Range): string {
    match range
    case OneYear => "1y"
    case ThreeYears => "3y"
    case FiveYears => "5y"
    case All => "all"
  }

  function ModeOf(name: string): Option<Mode> {
    if name == "chart" then Some(Chart)
    else if name == "liquid" then Some(Liquid)
    else if name == "rest" then Some(Rest)
    else if name == "housing" then Some(Housing)
    else if name == "debts" then Some(Debts)
    else None
  }

  function RangeOf(name: string): Option<Range> {
    if name == "1y" then Some(OneYear)
    else if name == "3y" then Some(ThreeYears)
    else if name == "5y" then Some(FiveYears)
    else if name == "all" then Some(All)
    else None
  }

  /** `mode:range`. */
  function CellKey(coord: Coord): string {
    ModeName(coord.mode) + ":" + RangeName(coord.range)
  }

  /** A name with none of the characters that separate or pad names. */
  predicate IsName(s: string) {
    s != "" && forall c | c in s :: 'a' <= c <= 'z' || '0' <= c <= '9'
  }

  lemma ModeNames(mode: Mode)
    ensures ModeOf(ModeName(mode)) == Some(mode) && IsName(ModeName(mode))
  {
    match mode
    case Chart =>
    case Liquid =>
    case Rest =>
    case Housing =>
    case Debts =>
  }

  lemma RangeNames(range: Range)
    ensures RangeOf(RangeName(range)) == Some(range) && IsName(RangeName(range))
  {
    match range
    case OneYear =>
    case ThreeYears =>
    case FiveYears =>
    case All =>
  }

  // --------------------------------------------------------------- the cross

  predicate Distinct(coords: seq<Coord>) {
    forall i, j :: 0 <= i < j < |coords| ==> coords[i] != coords[j]
  }

  /** The cells one click away from `coord`, itself among them. */
  predicate InCross(coord: Coord, offered: seq<Range>, cell: Coord) {
    cell.range == coord.range || (cell.mode == coord.mode && cell.range in offered)
  }

  /** The cells added so far, and the keys seen, say the same. */
  ghost predicate Collected(cross: seq<Coord>, seen: set<string>) {
    seen == KeysOf(cross)
  }

  function AddOne(cross: seq<Coord>, cell: Coord): seq<Coord> {
    if cell in cross then cross else cross + [cell]
  }

  /** Appends a cell whose key was not seen yet. */
  method AddCell(cross: seq<Coord>, seen: set<string>, cell: Coord) returns (cross': seq<Coord>, seen': set<string>)
    requires Collected(cross, seen)
    ensures Collected(cross', seen')
    ensures cross' == AddOne(cross, cell)
  {
    hide CellKey;
    KeysInjective(cross, cell);
    if CellKey(cell) !in seen {
      cross', seen' := cross + [cell], seen + {CellKey(cell)};
      KeysGrow(cross, cell);
    } else {
      cross', seen' := cross, seen;
    }
  }

  function KeysOf(coords: seq<Coord>): set<string> {
    set c | c in coords :: CellKey(c)
  }

  lemma KeysGrow(coords: seq<Coord>, cell: Coord)
    ensures KeysOf(coords + [cell]) == KeysOf(coords) + {CellKey(cell)}
  {
    hide CellKey;
  }

  lemma KeysInjective(coords: seq<Coord>, cell: Coord)
    ensures CellKey(cell) in KeysOf(coords) <==> cell in coords
  {
    hide CellKey;
    if CellKey(cell) in KeysOf(coords) {
      var c :| c in coords && CellKey(c) == CellKey(cell);
      KeyNamesCell(c);
      KeyNamesCell(cell);
    }
  }

  /** The cross, in the order it is asked for: the column, then the row. */
  method CrossOf(coord: Coord, offered: seq<Range>) returns (cross: seq<Coord>)
    ensures cross == Cross(coord, offered)
    ensures Distinct(cross)
    ensures forall cell :: cell in cross <==> InCross(coord, offered, cell)
  {
    hide Collected, AddOne, Dedup, Distinct, InCross;
    var seen: set<string> := {};
    cross := [];
    NothingCollected();
    for i := 0 to |Modes|
      invariant Collected(cross, seen)
      invariant cross == Dedup(Column(coord, i))
    {
      cross, seen := AddCell(cross, seen, Coord(Modes[i], coord.range));
      DedupLast(Column(coord, i), Coord(Modes[i], coord.range));
    }
    ghost var column := Column(coord, |Modes|);
    assert column + RowCells(coord, offered[..0]) == column;
    for i := 0 to |offered|
      invariant Collected(cross, seen)
      invariant cross == Dedup(column + RowCells(coord, offered[..i]))
    {
      cross, seen := AddCell(cross, seen, Coord(coord.mode, offered[i]));
      RowGrows(coord, offered, i);
      DedupLast(column + RowCells(coord, offered[..i]), Coord(coord.mode, offered[i]));
      assert column + (RowCells(coord, offered[..i]) + [Coord(coord.mode, offered[i])])
          == column + RowCells(coord, offered[..i]) + [Coord(coord.mode, offered[i])];
    }
    assert offered[..|offered|] == offered;
    cross, seen := AddCell(cross, seen, coord);
    DedupLast(column + RowCells(coord, offered), coord);
    CrossHolds(coord, offered);
  }

  lemma NothingCollected()
    ensures Collected([], {}) && Dedup([]) == []
  {
  }

  function Column(coord: Coord, n: nat): (cells: seq<Coord>)
    requires n <= |Modes|
    ensures |cells| == n
    ensures forall i :: 0 <= i < n ==> cells[i] == Coord(Modes[i], coord.range)
    ensures n > 0 ==> cells == Column(coord, n - 1) + [Coord(Modes[n - 1], coord.range)]
  {
    if n == 0 then [] else Column(coord, n - 1) + [Coord(Modes[n - 1], coord.range)]
  }

  function RowCells(coord: Coord, offered: seq<Range>): (cells: seq<Coord>)
    ensures |cells| == |offered|
    ensures forall i :: 0 <= i < |cells| ==> cells[i] == Coord(coord.mode, offered[i])
  {
    seq(|offered|, i requires 0 <= i < |offered| => Coord(coord.mode, offered[i]))
  }

  lemma RowGrows(coord: Coord, offered: seq<Range>, i: nat)
    requires i < |offered|
    ensures RowCells(coord, offered[..i + 1]) == RowCells(coord, offered[..i]) + [Coord(coord.mode, offered[i])]
  {
  }

  function Wanted(coord: Coord, offered: seq<Range>): seq<Coord> {
    Column(coord, |Modes|) + RowCells(coord, offered) + [coord]
  }

  /** Each cell once, where it first stands. */
  function Dedup(coords: seq<Coord>): seq<Coord> {
    if coords == [] then []
    else AddOne(Dedup(coords[..|coords| - 1]), coords[|coords| - 1])
  }

  lemma DedupLast(coords: seq<Coord>, last: Coord)
    ensures Dedup(coords + [last]) == AddOne(Dedup(coords), last)
  {
    assert (coords + [last])[..|coords|] == coords;
  }

  lemma {:induction false} DedupHolds(coords: seq<Coord>)
    ensures Distinct(Dedup(coords)) && |Dedup(coords)| <= |coords|
    ensures forall c :: c in Dedup(coords) <==> c in coords
    ensures Distinct(coords) ==> Dedup(coords) == coords
  {
    if coords != [] {
      var n := |coords| - 1;
      var before := coords[..n];
      DedupHolds(before);
      assert coords == before + [coords[n]];
      assert forall c :: c in coords <==> c in before || c == coords[n];
      if Distinct(coords) {
        assert forall i :: 0 <= i < n ==> before[i] == coords[i];
        assert coords[n] !in before;
      }
    }
  }

  function Cross(coord: Coord, offered: seq<Range>): seq<Coord> {
    Dedup(Wanted(coord, offered))
  }

  function ModeAt(mode: Mode): nat {
    match mode
    case Chart => 0
    case Liquid => 1
    case Rest => 2
    case Housing => 3
    case Debts => 4
  }

  lemma ModeIndex(mode: Mode)
    ensures ModeAt(mode) < |Modes| && Modes[ModeAt(mode)] == mode
  {
  }

  lemma WantedIsCross(coord: Coord, offered: seq<Range>)
    ensures forall cell :: cell in Wanted(coord, offered) <==> InCross(coord, offered, cell)
  {
    var column, row := Column(coord, |Modes|), RowCells(coord, offered);
    forall cell ensures cell in column <==> cell.range == coord.range {
      ModeIndex(cell.mode);
      assert cell.range == coord.range ==> column[ModeAt(cell.mode)] == cell;
    }
    forall cell ensures cell in row <==> cell.mode == coord.mode && cell.range in offered {
      if cell.mode == coord.mode && cell.range in offered {
        var i :| 0 <= i < |offered| && offered[i] == cell.range;
        assert row[i] == cell;
      }
    }
  }

  lemma CrossHolds(coord: Coord, offered: seq<Range>)
    ensures Distinct(Cross(coord, offered))
    ensures forall cell :: cell in Cross(coord, offered) <==> InCross(coord, offered, cell)
  {
    DedupHolds(Wanted(coord, offered));
    WantedIsCross(coord, offered);
  }

  /** The most cells a request may ask for: the whole matrix. */
  const MaxRequested := |Modes| * |Ranges|

  /** The place of a cell in the matrix, read row by row. */
  function PlaceOf(c: Coord): (n: nat)
    ensures n < MaxRequested
  {
    var r := match c.range case OneYear => 0 case ThreeYears => 1 case FiveYears => 2 case All => 3;
    4 * ModeAt(c.mode) + r
  }

  lemma PlaceInjective(a: Coord, b: Coord)
    ensures PlaceOf(a) == PlaceOf(b) <==> a == b
  {
  }

  lemma {:induction false} DistinctFits(coords: seq<Coord>, places: set<nat>)
    requires Distinct(coords) && forall c | c in coords :: PlaceOf(c) in places
    ensures |coords| <= |places|
  {
    hide PlaceOf;
    if coords != [] {
      var n := |coords| - 1;
      assert forall i :: 0 <= i < n ==> coords[..n][i] == coords[i];
      forall c | c in coords[..n] ensures PlaceOf(c) in places - {PlaceOf(coords[n])} {
        PlaceInjective(c, coords[n]);
      }
      DistinctFits(coords[..n], places - {PlaceOf(coords[n])});
    }
  }

  function Below(n: nat): (places: set<nat>)
    ensures forall i: nat :: i in places <==> i < n
    ensures |places| == n
  {
    if n == 0 then {} else Below(n - 1) + {n - 1}
  }

  /** No list of different cells is longer than the matrix. */
  lemma NoMoreThanTheMatrix(coords: seq<Coord>)
    requires Distinct(coords)
    ensures |coords| <= MaxRequested
  {
    hide PlaceOf, Below;
    DistinctFits(coords, Below(MaxRequested));
  }

  // -------------------------------------------------------- the route's query

  datatype Parsed = Cells(coords: seq<Coord>) | Refused(error: string)

  /** The tokens of a list: trimmed, blank ones dropped. */
  function Tokens(parts: seq<string>): seq<string> {
    if parts == [] then []
    else (if Trim(parts[0]) == "" then [] else [Trim(parts[0])]) + Tokens(parts[1..])
  }

  function TokenCoord(token: string): Option<Coord> {
    var parts := Split(token, ':');
    if |parts| != 2 then None
    else
      var mode, range := ModeOf(parts[0]), RangeOf(parts[1]);
      if mode.Some? && range.Some? then Some(Coord(mode.value, range.value)) else None
  }

  /** The cells of some tokens, or the first token that names none. */
  function Coords(tokens: seq<string>): Parsed {
    if tokens == [] then Cells([])
    else
      match Coords(tokens[..|tokens| - 1])
      case Refused(error) => Refused(error)
      case Cells(coords) =>
        var token := tokens[|tokens| - 1];
        match TokenCoord(token)
        case None => Refused("invalid cell: " + token)
        case Some(coord) => Cells(AddOne(coords, coord))
  }

  function ParsedCells(raw: Option<string>): Parsed {
    var tokens := Tokens(Split(if raw.Some? then raw.value else "", ','));
    if |tokens| == 0 then Refused("no cells requested")
    else if |tokens| > MaxRequested then Refused("too many cells requested")
    else Coords(tokens)
  }

  method ParseCellsParam(raw: Option<string>) returns (parsed: Parsed)
    ensures parsed == ParsedCells(raw)
  {
    var tokens := Tokens(Split(if raw.Some? then raw.value else "", ','));
    if |tokens| == 0 {
      return Refused("no cells requested");
    }
    if |tokens| > MaxRequested {
      return Refused("too many cells requested");
    }
    hide TokenCoord, Collected, AddOne;
    var seen: set<string> := {};
    var coords: seq<Coord> := [];
    NothingCollected();
    for i := 0 to |tokens|
      invariant Collected(coords, seen)
      invariant Coords(tokens[..i]) == Cells(coords)
    {
      assert tokens[..i + 1][..i] == tokens[..i];
      var cell := TokenCoord(tokens[i]);
      if cell.None? {
        RefusedStays(tokens, i + 1);
        return Refused("invalid cell: " + tokens[i]);
      }
      coords, seen := AddCell(coords, seen, cell.value);
    }
    assert tokens[..|tokens|] == tokens;
    parsed := Cells(coords);
  }

  lemma {:induction false} RefusedStays(tokens: seq<string>, i: nat)
    requires i <= |tokens| && Coords(tokens[..i]).Refused?
    ensures Coords(tokens) == Coords(tokens[..i])
    decreases |tokens| - i
  {
    if i < |tokens| {
      assert tokens[..i + 1][..i] == tokens[..i];
      RefusedStays(tokens, i + 1);
    } else {
      assert tokens[..i] == tokens;
    }
  }

  function Keys(coords: seq<Coord>): (keys: seq<string>)
    ensures |keys| == |coords|
  {
    if coords == [] then [] else Keys(coords[..|coords| - 1]) + [CellKey(coords[|coords| - 1])]
  }

  /** `missing.map(cellKey).join(",")`. */
  function Query(coords: seq<Coord>): string {
    Join(Keys(coords), ",")
  }

  lemma KeyShape(coord: Coord)
    ensures var key := CellKey(coord);
            key != "" && Trim(key) == key && ',' !in key && Split(key, ':') == [ModeName(coord.mode), RangeName(coord.range)]
  {
    hide Trim;
    ModeNames(coord.mode);
    RangeNames(coord.range);
    var mode, range := ModeName(coord.mode), RangeName(coord.range);
    var key := CellKey(coord);
    assert key[0] == mode[0] && key[|key| - 1] == range[|range| - 1];
    assert mode[0] in mode && range[|range| - 1] in range;
    TrimIdentity(key);
    SplitPrefix(mode, range, ':');
    SplitWhole(range, ':');
  }

  /** A key names its cell. */
  lemma KeyNamesCell(coord: Coord)
    ensures TokenCoord(CellKey(coord)) == Some(coord)
  {
    hide CellKey, Split, ModeName, RangeName, ModeOf, RangeOf;
    KeyShape(coord);
    ModeNames(coord.mode);
    RangeNames(coord.range);
  }

  lemma {:induction false} KeysHold(coords: seq<Coord>)
    ensures forall i :: 0 <= i < |coords| ==> Keys(coords)[i] == CellKey(coords[i])
  {
    hide CellKey;
    if coords != [] {
      KeysHold(coords[..|coords| - 1]);
    }
  }

  lemma {:induction false} TokensOfKeys(keys: seq<string>)
    requires forall k | k in keys :: k != "" && Trim(k) == k
    ensures Tokens(keys) == keys
  {
    if keys != [] {
      assert keys[0] in keys && forall k | k in keys[1..] :: k in keys;
      TokensOfKeys(keys[1..]);
      assert keys == [keys[0]] + keys[1..];
    }
  }

  lemma {:induction false} CoordsOfKeys(coords: seq<Coord>)
    ensures Coords(Keys(coords)) == Cells(Dedup(coords))
  {
    hide CellKey, TokenCoord;
    if coords != [] {
      var n := |coords| - 1;
      CoordsOfKeys(coords[..n]);
      KeyNamesCell(coords[n]);
      assert Keys(coords)[..n] == Keys(coords[..n]);
    }
  }

  /** The route reads back exactly the cells the panel printed, each once. */
  lemma QueryRoundTrip(coords: seq<Coord>)
    requires 1 <= |coords| <= MaxRequested
    ensures ParsedCells(Some(Query(coords))) == Cells(Dedup(coords))
  {
    hide CellKey, Split, Tokens, Coords, Dedup, Trim, Keys;
    var keys := Keys(coords);
    KeysHold(coords);
    forall k | k in keys ensures k != "" && Trim(k) == k && ',' !in k {
      var i :| 0 <= i < |keys| && keys[i] == k;
      KeyShape(coords[i]);
    }
    SplitJoin(keys, ',');
    TokensOfKeys(keys);
    CoordsOfKeys(coords);
  }

  /** Whatever the route is asked, what it accepts is never more than the matrix, and never a cell twice. */
  lemma {:induction false} AcceptedCells(tokens: seq<string>)
    ensures Coords(tokens).Cells? ==>
              Distinct(Coords(tokens).coords)
              && (forall c | c in Coords(tokens).coords :: exists t :: t in tokens && TokenCoord(t) == Some(c))
              && (forall t | t in tokens :: TokenCoord(t).Some? && TokenCoord(t).value in Coords(tokens).coords)
    ensures Coords(tokens).Refused? ==> exists t :: t in tokens && TokenCoord(t).None?
  {
    hide TokenCoord;
    if tokens != [] {
      var n := |tokens| - 1;
      AcceptedCells(tokens[..n]);
      assert tokens == tokens[..n] + [tokens[n]];
      assert forall t :: t in tokens <==> t in tokens[..n] || t == tokens[n];
    }
  }

  // ------------------------------------------------------------- the refusals

  /** The tokens are the parts that are not blank, trimmed, in order. */
  lemma {:induction false} TokensAre(parts: seq<string>, more: seq<string>)
    ensures Tokens(parts + more) == Tokens(parts) + Tokens(more)
    ensures |parts| == 1 ==> Tokens(parts) == if AllBlank(parts[0]) then [] else [Trim(parts[0])]
  {
    if parts == [] {
      assert parts + more == more;
    } else {
      TrimEmpty(parts[0]);
      assert (parts + more)[1..] == parts[1..] + more;
      TokensAre(parts[1..], more);
      if |parts| == 1 {
        assert parts[1..] == [];
      }
    }
  }

  /** A token is refused by name, the first that names no cell; a list of none, or of more than twenty, is refused as such. */
  lemma {:induction false} RefusedFor(tokens: seq<string>)
    ensures Coords(tokens).Refused? ==>
      exists k :: 0 <= k < |tokens| && TokenCoord(tokens[k]).None? && Coords(tokens).error == "invalid cell: " + tokens[k]
        && forall j :: 0 <= j < k ==> TokenCoord(tokens[j]).Some?
    ensures Coords(tokens).Cells? <==> forall j :: 0 <= j < |tokens| ==> TokenCoord(tokens[j]).Some?
  {
    hide TokenCoord, AddOne;
    if tokens != [] {
      var n := |tokens| - 1;
      RefusedFor(tokens[..n]);
      assert forall j :: 0 <= j < n ==> tokens[..n][j] == tokens[j];
    }
  }

  lemma ListRefused(raw: Option<string>)
    ensures var tokens := Tokens(Split(if raw.Some? then raw.value else "", ','));
      && (tokens == [] ==> ParsedCells(raw) == Refused("no cells requested"))
      && (|tokens| > 20 ==> ParsedCells(raw) == Refused("too many cells requested"))
      && (1 <= |tokens| <= 20 ==> ParsedCells(raw) == Coords(tokens))
  {
    assert MaxRequested == 20;
  }

  /** A token names a cell exactly when it is a mode and a range with one colon between. */
  lemma TokenNames(token: string, coord: Coord)
    ensures TokenCoord(token) == Some(coord) <==> token == CellKey(coord)
  {
    hide Split;
    KeyNamesCell(coord);
    if TokenCoord(token) == Some(coord) {
      JoinSplit(token, ':');
      var parts := Split(token, ':');
      ModeRead(parts[0], coord.mode);
      RangeRead(parts[1], coord.range);
      assert parts == [parts[0], parts[1]];
      JoinTwo(parts[0], parts[1]);
    }
  }

  lemma JoinTwo(a: string, b: string)
    ensures Join([a, b], ":") == a + ":" + b
  {
    assert [a, b][1..] == [b];
  }

  lemma ModeRead(name: string, mode: Mode)
    requires ModeOf(name) == Some(mode)
    ensures name == ModeName(mode)
  {
  }

  lemma RangeRead(name: string, range: Range)
    requires RangeOf(name) == Some(range)
    ensures name == RangeName(range)
  {
  }
}
