/**
 The cells of the composition matrix: the page builds the first ones from a read
 bounded to the eager ranges (`load-dashboard.ts`), the route builds any from the
 whole history (`dashboard-cells.ts`).
 */
module DashboardCells {
  import opened Text
  import opened Calendar
  import opened DateKeys
  import opened Sorting
  import opened DashboardMatrix
  import opened CompositionChart

  // ---------------------------------------------------------------- one cell

  datatype HoldingIds = HoldingIds(current: seq<string>, trashed: seq<string>)

  const NoIds := HoldingIds([], [])

  datatype Inputs = Inputs(snapshots: seq<KeyedSnapshot>, rows: seq<KeyedRow>, ids: HoldingIds)

  datatype Payload<B, D> = ChartCell(series: seq<Point<B>>) | DrillCell(drilldown: D)

  /** What a drilldown is built from: its mode, the ids and the windowed rows. */
  type Drill<!D> = (Mode, HoldingIds, seq<KeyedRow>) -> D

  /** The test a range puts to a row: on the month part of its key. */
  function Windowed(today: Date, range: Range): KeyedRow -> bool
    requires Recent(today)
  {
    (r: KeyedRow) =>
      match RangeStartMonthKey(today, range)
      case None => true
      case Some(cutoff) => KeyOfMonth(r.date); AtMost(cutoff, KeyText(r.date)[..7])
  }

  function WindowRows(rows: seq<KeyedRow>, range: Range, today: Date): seq<KeyedRow>
    requires Recent(today)
  {
    Filter(rows, Windowed(today, range))
  }

  function BuildMatrixCell<B, D>(
    coord: Coord, inputs: Inputs, today: Date, bands: seq<KeyedRow> -> B, drill: Drill<D>): Payload<B, D>
    requires Recent(today)
  {
    if coord.mode == Chart then
      ChartCell(BuildSeries(inputs.snapshots, inputs.rows, today, coord.range, bands))
    else
      DrillCell(drill(coord.mode, inputs.ids, WindowRows(inputs.rows, coord.range, today)))
  }

  /** Exactly the asked cells, each under its key. */
  ghost predicate Built<B, D>(
    cells: map<string, Payload<B, D>>, coords: seq<Coord>, inputs: Inputs, today: Date, bands: seq<KeyedRow> -> B,
    drill: Drill<D>)
    requires Recent(today)
  {
    && cells.Keys == KeysOf(coords)
    && forall c | c in coords :: CellKey(c) in cells && cells[CellKey(c)] == BuildMatrixCell(c, inputs, today, bands, drill)
  }

  method BuildMatrixCells<B, D>(
    coords: seq<Coord>, inputs: Inputs, today: Date, bands: seq<KeyedRow> -> B, drill: Drill<D>)
    returns (cells: map<string, Payload<B, D>>)
    requires Recent(today)
    ensures Built(cells, coords, inputs, today, bands, drill)
  {
    hide CellKey, BuildMatrixCell;
    cells := map[];
    for i := 0 to |coords|
      invariant Built(cells, coords[..i], inputs, today, bands, drill)
    {
      KeysInjective(coords[..i], coords[i]);
      KeysGrow(coords[..i], coords[i]);
      assert coords[..i + 1] == coords[..i] + [coords[i]];
      forall c | c in coords[..i] && CellKey(c) == CellKey(coords[i]) ensures c == coords[i] {
        KeyNamesCell(c);
        KeyNamesCell(coords[i]);
      }
      cells := cells[CellKey(coords[i]) := BuildMatrixCell(coords[i], inputs, today, bands, drill)];
    }
    assert coords[..|coords|] == coords;
  }

  // ------------------------------------------------------------ the two reads

  /** A holding of today's captured point, before it is dated. */
  datatype Holding = Holding(holdingId: string, valueMinor: int)

  /** What a scope has stored, and what a capture of today would give. */
  datatype Stored = Stored(
    snapshots: seq<KeyedSnapshot>, rows: seq<KeyedRow>, ids: HoldingIds, capture: Option<seq<Holding>>)

  predicate TodayIsStored(stored: Stored, today: Date) {
    exists s | s in stored.snapshots :: s.date == today
  }

  /** Today's point is synthesized only while nothing was stored for today. */
  function TodayPoint(stored: Stored, today: Date): Option<seq<Holding>> {
    if TodayIsStored(stored, today) then None else stored.capture
  }

  function SnapshotsOf(stored: Stored, today: Date): seq<KeyedSnapshot>
    requires FourDigit(today)
  {
    stored.snapshots + if TodayPoint(stored, today).None? then [] else [Snapshot(today)]
  }

  function TodayRows(stored: Stored, today: Date): seq<KeyedRow>
    requires FourDigit(today)
  {
    match TodayPoint(stored, today)
    case None => []
    case Some(holdings) =>
      seq(|holdings|, i requires 0 <= i < |holdings| => Row(today, holdings[i].holdingId, holdings[i].valueMinor))
  }

  /** The store's own test: the whole date key against the first day of a month. */
  predicate ReadsDay(date: Date, today: Date, range: Range)
    requires Recent(today) && FourDigit(date)
  {
    match RangeStartMonthKey(today, range)
    case None => true
    case Some(cutoff) => AtMost(cutoff + "-01", KeyText(date))
  }

  function ReadFrom(today: Date, range: Range): KeyedRow -> bool
    requires Recent(today)
  {
    (r: KeyedRow) => ReadsDay(r.date, today, range)
  }

  /** The route reads everything; the ids only when some cell is a drilldown. */
  function RouteInputs(stored: Stored, coords: seq<Coord>, today: Date): Inputs
    requires Recent(today)
  {
    Inputs(
      SnapshotsOf(stored, today),
      stored.rows + TodayRows(stored, today),
      if exists c | c in coords :: c.mode != Chart then stored.ids else NoIds)
  }

  function ActiveRange(asked: Option<Range>, offered: seq<Range>): Range {
    if asked.Some? then asked.value else if offered != [] then offered[0] else All
  }

  predicate Bounded(range: Range) {
    range != All
  }

  function Eager(active: Range, offered: seq<Range>): seq<Range> {
    if |offered| == 1 || active == All then offered else Filter(offered, Bounded)
  }

  function LongestEager(active: Range, offered: seq<Range>): Range {
    if active == All then All
    else
      var bounded := Filter(Eager(active, offered), Bounded);
      if bounded == [] then active else bounded[|bounded| - 1]
  }

  /** The page reads from the start of the longest eager range. */
  function PageInputs(stored: Stored, active: Range, offered: seq<Range>, today: Date): Inputs
    requires Recent(today)
  {
    Inputs(
      SnapshotsOf(stored, today),
      Filter(stored.rows, ReadFrom(today, LongestEager(active, offered))) + TodayRows(stored, today),
      stored.ids)
  }

  /** The ranges the page offers: those the history, from its first snapshot, exceeds. */
  function Offered(stored: Stored, today: Date): seq<Range>
    requires FourDigit(today)
  {
    var snapshots := SnapshotsOf(stored, today);
    AvailableRanges(if snapshots == [] then 0 else MonthOf(today) - MinMonth(snapshots))
  }

  /** The ranges of the cells the page ships. */
  function ShippedRanges(active: Range, offered: seq<Range>): seq<Range> {
    Eager(active, offered) + [active]
  }

  function ChartRow(ranges: seq<Range>): (cells: seq<Coord>)
    ensures |cells| == |ranges|
    ensures forall i :: 0 <= i < |cells| ==> cells[i] == Coord(Chart, ranges[i])
  {
    seq(|ranges|, i requires 0 <= i < |ranges| => Coord(Chart, ranges[i]))
  }

  function Shipped(mode: Mode, active: Range, offered: seq<Range>): seq<Coord> {
    var eager := Eager(active, offered);
    Dedup(Cross(Coord(mode, active), eager) + ChartRow(eager))
  }

  /** The cells the page ships: those one click away and the whole chart row. */
  method ShippedCells(mode: Mode, active: Range, offered: seq<Range>) returns (coords: seq<Coord>)
    ensures coords == Shipped(mode, active, offered)
    ensures forall c :: (c in coords
      <==> InCross(Coord(mode, active), Eager(active, offered), c) || (c.mode == Chart && c.range in Eager(active, offered)))
  {
    hide AddOne, Dedup, InCross, Collected, Eager;
    var eager := Eager(active, offered);
    var cross := CrossOf(Coord(mode, active), eager);
    var wanted := cross + ChartRow(eager);
    coords := [];
    var seen: set<string> := {};
    NothingCollected();
    for i := 0 to |wanted|
      invariant Collected(coords, seen)
      invariant coords == Dedup(wanted[..i])
    {
      coords, seen := AddCell(coords, seen, wanted[i]);
      DedupLast(wanted[..i], wanted[i]);
      assert wanted[..i + 1] == wanted[..i] + [wanted[i]];
    }
    assert wanted[..|wanted|] == wanted;
    DedupHolds(wanted);
    ChartRowHolds(eager);
  }

  lemma ChartRowHolds(ranges: seq<Range>)
    ensures forall c: Coord :: c in ChartRow(ranges) <==> c.mode == Chart && c.range in ranges
  {
    forall c: Coord | c.mode == Chart && c.range in ranges ensures c in ChartRow(ranges) {
      var i :| 0 <= i < |ranges| && ranges[i] == c.range;
      assert ChartRow(ranges)[i] == c;
    }
  }

  // -------------------------------------------------- when the two reads agree

  lemma ReadsDayIsInWindow(date: Date, today: Date, range: Range)
    requires Recent(today) && FourDigit(date)
    ensures ReadsDay(date, today, range) <==> InWindow(date, today, range)
  {
    hide RangeStartMonthKey, KeyText, AtMost;
    if range == All {
      AllStarts(today);
    } else {
      RangeStartIsMonthKey(today, range);
      WindowByKeys(date, today, range);
    }
  }

  lemma WindowedIsInWindow(r: KeyedRow, today: Date, range: Range)
    requires Recent(today)
    ensures Windowed(today, range)(r) <==> InWindow(r.date, today, range)
    ensures ReadFrom(today, range)(r) <==> InWindow(r.date, today, range)
  {
    hide RangeStartMonthKey, KeyText, AtMost;
    KeyOfMonth(r.date);
    if range == All {
      AllStarts(today);
    } else {
      RangeStartIsMonthKey(today, range);
      WindowByKeys(r.date, today, range);
    }
  }

  lemma SameTail<T>(a: seq<T>, b: seq<T>, tail: seq<T>)
    ensures a + tail == b + tail <==> a == b
  {
    if a + tail == b + tail {
      assert |a| == |b|;
      assert (a + tail)[..|a|] == a && (b + tail)[..|b|] == b;
    }
  }

  /** No stored row is in the window of `range` and before the start of the read. */
  ghost predicate NothingBetween(rows: seq<KeyedRow>, today: Date, range: Range, read: Range) {
    forall r | r in rows :: InWindow(r.date, today, range) ==> InWindow(r.date, today, read)
  }

  /** A range's rows are the same from both reads exactly when nothing lies between. */
  lemma WindowsAgree(stored: Stored, active: Range, offered: seq<Range>, coords: seq<Coord>, range: Range, today: Date)
    requires Recent(today)
    ensures WindowRows(PageInputs(stored, active, offered, today).rows, range, today)
      == WindowRows(RouteInputs(stored, coords, today).rows, range, today)
      <==> NothingBetween(stored.rows, today, range, LongestEager(active, offered))
  {
    hide Windowed, ReadFrom, LongestEager, InWindow, TodayRows, SnapshotsOf, Filter;
    var read := LongestEager(active, offered);
    var kept, first, tail := Windowed(today, range), ReadFrom(today, read), TodayRows(stored, today);
    FilterAppend(Filter(stored.rows, first), tail, kept);
    FilterAppend(stored.rows, tail, kept);
    SameTail(Filter(Filter(stored.rows, first), kept), Filter(stored.rows, kept), Filter(tail, kept));
    FilterWithin(stored.rows, first, kept);
    forall r: KeyedRow
      ensures kept(r) <==> InWindow(r.date, today, range)
      ensures first(r) <==> InWindow(r.date, today, read)
    {
      WindowedIsInWindow(r, today, range);
      WindowedIsInWindow(r, today, read);
    }
  }

  /** Today's rows are the capture's holdings one for one, dated today; with today stored, or nothing to capture, nothing is added. */
  lemma TodayRowsAre(stored: Stored, today: Date)
    requires FourDigit(today)
    ensures var rows := TodayRows(stored, today);
      if (exists s | s in stored.snapshots :: s.date == today) || stored.capture.None? then
        rows == [] && SnapshotsOf(stored, today) == stored.snapshots
      else
        && SnapshotsOf(stored, today) == stored.snapshots + [Snapshot(today)]
        && |rows| == |stored.capture.value|
        && forall i :: 0 <= i < |rows| ==>
             && rows[i].date == today && rows[i].holdingId == stored.capture.value[i].holdingId
             && rows[i].valueMinor == stored.capture.value[i].valueMinor
  {
    assert stored.snapshots + [] == stored.snapshots;
  }

  /** Both reads have, of today, the stored rows and then the capture's. */
  lemma TodayRead(stored: Stored, active: Range, offered: seq<Range>, coords: seq<Coord>, today: Date)
    requires Recent(today)
    ensures RowsOn(PageInputs(stored, active, offered, today).rows, today) == RowsOn(stored.rows, today) + TodayRows(stored, today)
    ensures RowsOn(RouteInputs(stored, coords, today).rows, today) == RowsOn(stored.rows, today) + TodayRows(stored, today)
  {
    hide ReadsDay, LongestEager, InWindow, SnapshotsOf, Filter, TodayRows;
    var read := LongestEager(active, offered);
    var first, tail := ReadFrom(today, read), TodayRows(stored, today);
    FilterAppend(Filter(stored.rows, first), tail, OnDate(today));
    FilterAppend(stored.rows, tail, OnDate(today));
    AllOfToday(stored, today);
    FilterAllOrNone(tail, OnDate(today));
    forall r: KeyedRow | r in stored.rows && OnDate(today)(r) ensures first(r) {
      ReadsDayIsInWindow(r.date, today, read);
      TodayIsInWindow(today, read);
    }
    NarrowedSame(stored.rows, first, OnDate(today));
  }

  lemma AllOfToday(stored: Stored, today: Date)
    requires FourDigit(today)
    ensures forall r | r in TodayRows(stored, today) :: OnDate(today)(r)
  {
  }

  /**
   While today is not stored, the chart of any range, on the page and on the route,
   has an open point at today with exactly the capture's rows.
   */
  lemma TodayPlotted(stored: Stored, active: Range, offered: seq<Range>, coords: seq<Coord>, range: Range, today: Date)
    requires Recent(today) && !TodayIsStored(stored, today) && stored.capture.Some? && stored.capture.value != []
    requires forall s | s in stored.snapshots :: !Before(today, s.date)
    requires forall r | r in stored.rows :: r.date != today
    ensures var page := PageInputs(stored, active, offered, today);
      exists p :: p in BuildSeries(page.snapshots, page.rows, today, range, AllRows())
        && p.date == today && p.isOpenPeriod && p.bands == TodayRows(stored, today)
    ensures var route := RouteInputs(stored, coords, today);
      exists p :: p in BuildSeries(route.snapshots, route.rows, today, range, AllRows())
        && p.date == today && p.isOpenPeriod && p.bands == TodayRows(stored, today)
  {
    hide TodayIsStored, RowsOn, TodayRows, BuildSeries;
    TodayRead(stored, active, offered, coords, today);
    TodayRowsAre(stored, today);
    NoRowsOf(stored.rows, today);
    assert [] + TodayRows(stored, today) == TodayRows(stored, today);
    TodayCaptured(stored, today);
    PlottedToday(SnapshotsOf(stored, today), PageInputs(stored, active, offered, today).rows, today, range);
    PlottedToday(SnapshotsOf(stored, today), RouteInputs(stored, coords, today).rows, today, range);
  }

  lemma TodayCaptured(stored: Stored, today: Date)
    requires FourDigit(today) && !TodayIsStored(stored, today) && stored.capture.Some?
    requires forall s | s in stored.snapshots :: !Before(today, s.date)
    ensures Snapshot(today) in SnapshotsOf(stored, today)
    ensures forall s | s in SnapshotsOf(stored, today) :: !Before(today, s.date)
    ensures |TodayRows(stored, today)| == |stored.capture.value|
  {
    var all := SnapshotsOf(stored, today);
    assert all[|all| - 1] == Snapshot(today);
  }

  lemma NoRowsOf(rows: seq<KeyedRow>, day: Date)
    requires forall r | r in rows :: r.date != day
    ensures RowsOn(rows, day) == []
  {
    FilterAllOrNone(rows, OnDate(day));
  }

  lemma PlottedToday(snapshots: seq<KeyedSnapshot>, rows: seq<KeyedRow>, today: Date, range: Range)
    requires Recent(today) && Snapshot(today) in snapshots && RowsOn(rows, today) != []
    requires forall s | s in snapshots :: !Before(today, s.date)
    ensures exists p :: (p in BuildSeries(snapshots, rows, today, range, AllRows())
      && p.date == today && p.isOpenPeriod && p.bands == RowsOn(rows, today))
  {
    hide RowsOn, Points, BasePoints, PeriodKey, Density, AllRows, PeriodOf, Before;
    TodayIsPoint(snapshots, today, range);
    var openPeriod := PeriodKey(today, Density(snapshots, today, range));
    PointsShow(BasePoints(snapshots, today, range), rows, openPeriod);
    OpenExactly(snapshots, rows, today, range, AllRows());
    var e :| e in BasePoints(snapshots, today, range) && e.date == today;
    var p :| p in Points(BasePoints(snapshots, today, range), rows, openPeriod, AllRows()) && p.date == today;
  }

  function Inside(today: Date, range: Range): KeyedRow -> bool {
    (r: KeyedRow) => InWindow(r.date, today, range)
  }

  /** What a drilldown cell of the route is built from: all stored ids, and every row of its window, today's too. */
  lemma DrillCellIs<B, D>(
    stored: Stored, coords: seq<Coord>, c: Coord, today: Date, bands: seq<KeyedRow> -> B, drill: Drill<D>)
    requires Recent(today) && c in coords && c.mode != Chart
    ensures BuildMatrixCell(c, RouteInputs(stored, coords, today), today, bands, drill)
      == DrillCell(drill(c.mode, stored.ids, Filter(stored.rows, Inside(today, c.range)) + TodayRows(stored, today)))
  {
    hide Windowed, InWindow, Filter, TodayRows, SnapshotsOf;
    var inside := Inside(today, c.range);
    var all := stored.rows + TodayRows(stored, today);
    forall r: KeyedRow ensures Windowed(today, c.range)(r) <==> inside(r) {
      WindowedIsInWindow(r, today, c.range);
    }
    SameFilter(stored.rows, Windowed(today, c.range), inside);
    FilterAppend(stored.rows, TodayRows(stored, today), Windowed(today, c.range));
    TodayInEveryWindow(stored, c.range, today);
    assert WindowRows(all, c.range, today) == Filter(stored.rows, inside) + TodayRows(stored, today);
  }

  lemma {:induction false} SameFilter<T>(s: seq<T>, a: T -> bool, b: T -> bool)
    requires forall x | x in s :: a(x) <==> b(x)
    ensures Filter(s, a) == Filter(s, b)
  {
    if s != [] {
      assert s[0] in s && forall x | x in s[1..] :: x in s;
      SameFilter(s[1..], a, b);
    }
  }

  /** The range a page opens on: the one asked for, else the shortest on offer. */
  lemma ActiveIs(asked: Option<Range>, spanMonths: int)
    ensures asked.Some? ==> ActiveRange(asked, AvailableRanges(spanMonths)) == asked.value
    ensures asked.None? ==>
      && ActiveRange(asked, AvailableRanges(spanMonths)) in AvailableRanges(spanMonths)
      && forall r | r in AvailableRanges(spanMonths) :: Rank(ActiveRange(asked, AvailableRanges(spanMonths))) <= Rank(r)
  {
  }

  /** The history a page offers ranges for goes back to its first snapshot, today's included. */
  lemma OfferedBySnapshots(stored: Stored, today: Date, range: Range, months: nat)
    requires FourDigit(today)
    requires (range, months) in {(OneYear, 12), (ThreeYears, 36), (FiveYears, 60)}
    ensures range in Offered(stored, today)
      <==> exists s :: s in SnapshotsOf(stored, today) && MonthOf(today) - MonthOf(s.date) > months
  {
    hide AvailableRanges, MinMonth, SnapshotsOf;
    var snapshots := SnapshotsOf(stored, today);
    if snapshots == [] {
      OfferedExactly(0);
    } else {
      OfferedExactly(MonthOf(today) - MinMonth(snapshots));
      var first := MinMonthIs(snapshots);
      assert first in snapshots;
    }
  }

  /** Today's synthesized point is in every window. */
  lemma TodayInEveryWindow(stored: Stored, range: Range, today: Date)
    requires Recent(today)
    ensures WindowRows(TodayRows(stored, today), range, today) == TodayRows(stored, today)
  {
    hide InWindow, Windowed;
    var rows := TodayRows(stored, today);
    forall r: KeyedRow | r in rows ensures Windowed(today, range)(r) {
      WindowedIsInWindow(r, today, range);
      TodayIsInWindow(today, range);
    }
    FilterAllOrNone(rows, Windowed(today, range));
  }

  lemma TodayIsInWindow(today: Date, range: Range)
    ensures InWindow(today, today, range)
  {
  }

  /** No day is plotted twice: the point is added only to a history without today. */
  lemma TodayOnce(stored: Stored, today: Date)
    requires FourDigit(today)
    requires forall i, j :: 0 <= i < j < |stored.snapshots| ==> stored.snapshots[i].date != stored.snapshots[j].date
    ensures var all := SnapshotsOf(stored, today);
      && (forall i, j :: 0 <= i < j < |all| ==> all[i].date != all[j].date)
      && (stored.capture.Some? ==> exists i :: 0 <= i < |all| && all[i].date == today)
      && stored.snapshots <= all
  {
    var all := SnapshotsOf(stored, today);
    if TodayIsStored(stored, today) {
      var s: KeyedSnapshot :| s in stored.snapshots && s.date == today;
      var i :| 0 <= i < |stored.snapshots| && stored.snapshots[i] == s;
      assert all[i].date == today;
    } else if stored.capture.Some? {
      assert all[|all| - 1].date == today;
      assert forall i :: 0 <= i < |stored.snapshots| ==> stored.snapshots[i] in stored.snapshots;
    }
  }

  lemma WindowKeepsDays(rows: seq<KeyedRow>, range: Range, today: Date, date: Date)
    requires Recent(today) && InWindow(date, today, range)
    ensures RowsOn(WindowRows(rows, range, today), date) == RowsOn(rows, date)
  {
    hide Windowed, InWindow, Filter;
    forall r: KeyedRow | r in rows && OnDate(date)(r) ensures Windowed(today, range)(r) {
      WindowedIsInWindow(r, today, range);
    }
    NarrowedSame(rows, Windowed(today, range), OnDate(date));
  }

  /** The series of a range needs only the rows the range's window keeps. */
  lemma SeriesOfWindow<B>(
    snapshots: seq<KeyedSnapshot>, rows: seq<KeyedRow>, others: seq<KeyedRow>, range: Range, today: Date,
    bands: seq<KeyedRow> -> B)
    requires Recent(today) && WindowRows(rows, range, today) == WindowRows(others, range, today)
    ensures BuildSeries(snapshots, rows, today, range, bands) == BuildSeries(snapshots, others, today, range, bands)
  {
    hide WindowRows, RowsOn, InWindow, BuildSeries, FourDigit;
    forall date | FourDigit(date) && InWindow(date, today, range) ensures RowsOn(rows, date) == RowsOn(others, date) {
      WindowKeepsDays(rows, range, today, date);
      WindowKeepsDays(others, range, today, date);
    }
    SeriesReadsItsWindow(snapshots, rows, others, today, range, bands);
  }

  /** The page's own chart, built from the windowed rows, is the one built from all it read. */
  lemma ActiveSeriesIsItsCell<B>(
    snapshots: seq<KeyedSnapshot>, rows: seq<KeyedRow>, range: Range, today: Date, bands: seq<KeyedRow> -> B)
    requires Recent(today)
    ensures BuildSeries(snapshots, WindowRows(rows, range, today), today, range, bands)
      == BuildSeries(snapshots, rows, today, range, bands)
  {
    hide BuildSeries, Windowed;
    NarrowedSame(rows, Windowed(today, range), Windowed(today, range));
    SeriesOfWindow(snapshots, WindowRows(rows, range, today), rows, range, today, bands);
  }

  lemma CellsAgree<B, D>(
    stored: Stored, active: Range, offered: seq<Range>, coords: seq<Coord>, coord: Coord, today: Date,
    bands: seq<KeyedRow> -> B, drill: Drill<D>)
    requires Recent(today) && coord in coords
    requires NothingBetween(stored.rows, today, coord.range, LongestEager(active, offered))
    ensures BuildMatrixCell(coord, PageInputs(stored, active, offered, today), today, bands, drill)
      == BuildMatrixCell(coord, RouteInputs(stored, coords, today), today, bands, drill)
  {
    hide WindowRows, BuildSeries, NothingBetween, LongestEager, SnapshotsOf, TodayRows;
    WindowsAgree(stored, active, offered, coords, coord.range, today);
    if coord.mode == Chart {
      var page, route := PageInputs(stored, active, offered, today), RouteInputs(stored, coords, today);
      SeriesOfWindow(page.snapshots, page.rows, route.rows, coord.range, today, bands);
    }
  }

  // ---------------------------------------------------- offered active ranges

  /** Whatever the span, a range on offer is eager or all, and none eager is longer than the longest. */
  lemma LongestCovers(spanMonths: int, active: Range, range: Range)
    requires active in AvailableRanges(spanMonths)
    requires range in ShippedRanges(active, AvailableRanges(spanMonths))
    ensures Rank(range) <= Rank(LongestEager(active, AvailableRanges(spanMonths)))
  {
    hide Filter, AvailableRanges;
    var offered := AvailableRanges(spanMonths);
    if active != All {
      var bounded := Filter(offered, Bounded);
      BoundedOffered(spanMonths);
      FilterMembers(offered, Bounded);
      FilterAllOrNone(bounded, Bounded);
      assert active in bounded && range in bounded;
      var i :| 0 <= i < |bounded| && bounded[i] == range;
      assert offered[i] == range && offered[|bounded| - 1] == bounded[|bounded| - 1];
    }
  }

  lemma BoundedOffered(spanMonths: int)
    ensures AvailableRanges(spanMonths) == Filter(AvailableRanges(spanMonths), Bounded) + [All]
    ensures Ascending(AvailableRanges(spanMonths))
  {
    hide Filter;
    var offered := AvailableRanges(spanMonths);
    var n := |offered| - 1;
    assert offered == offered[..n] + [All];
    FilterAppend(offered[..n], [All], Bounded);
    FilterAllOrNone(offered[..n], Bounded);
    FilterAllOrNone([All], Bounded);
  }

  predicate Ascending(ranges: seq<Range>) {
    forall i, j :: 0 <= i < j < |ranges| ==> Rank(ranges[i]) < Rank(ranges[j])
  }

  /** With an active range on offer, nothing a shipped range shows is left unread. */
  lemma OfferedReadsEnough(stored: Stored, active: Range, range: Range, today: Date)
    requires Recent(today) && active in Offered(stored, today)
    requires range in ShippedRanges(active, Offered(stored, today))
    ensures NothingBetween(stored.rows, today, range, LongestEager(active, Offered(stored, today)))
  {
    hide InWindow, ShippedRanges, LongestEager, AvailableRanges, SnapshotsOf, MinMonth, Rank;
    var snapshots := SnapshotsOf(stored, today);
    var span := if snapshots == [] then 0 else MonthOf(today) - MinMonth(snapshots);
    var read := LongestEager(active, Offered(stored, today));
    LongestCovers(span, active, range);
    forall r | r in stored.rows && InWindow(r.date, today, range) ensures InWindow(r.date, today, read) {
      LongerRangeKeepsMore(r.date, today, range, read);
    }
  }

  lemma ShippedHaveShippedRanges(mode: Mode, active: Range, offered: seq<Range>)
    ensures forall c | c in Shipped(mode, active, offered) :: c.range in ShippedRanges(active, offered)
  {
    hide Dedup, Cross, Eager;
    var eager := Eager(active, offered);
    DedupHolds(Cross(Coord(mode, active), eager) + ChartRow(eager));
    CrossHolds(Coord(mode, active), eager);
    ChartRowHolds(eager);
  }

  /** Every cell the page ships is the cell the route would answer with. */
  lemma PageEqualsRoute<B, D>(
    stored: Stored, mode: Mode, asked: Option<Range>, today: Date, bands: seq<KeyedRow> -> B, drill: Drill<D>,
    page: map<string, Payload<B, D>>, coords: seq<Coord>, route: map<string, Payload<B, D>>)
    requires Recent(today) && (asked.None? || asked.value in Offered(stored, today))
    requires var active := ActiveRange(asked, Offered(stored, today));
      Built(page, Shipped(mode, active, Offered(stored, today)),
        PageInputs(stored, active, Offered(stored, today), today), today, bands, drill)
    requires Built(route, coords, RouteInputs(stored, coords, today), today, bands, drill)
    ensures forall c | c in Shipped(mode, ActiveRange(asked, Offered(stored, today)), Offered(stored, today)) && c in coords ::
      CellKey(c) in page && CellKey(c) in route && page[CellKey(c)] == route[CellKey(c)]
  {
    hide Shipped, PageInputs, RouteInputs, BuildMatrixCell, NothingBetween, CellKey, KeysOf, ShippedRanges;
    var offered := Offered(stored, today);
    var active := ActiveRange(asked, offered);
    ShippedHaveShippedRanges(mode, active, offered);
    forall c | c in Shipped(mode, active, offered) && c in coords
      ensures CellKey(c) in page && CellKey(c) in route && page[CellKey(c)] == route[CellKey(c)]
    {
      OfferedReadsEnough(stored, active, c.range, today);
      CellsAgree(stored, active, offered, coords, c, today, bands, drill);
    }
  }

  // ------------------------------------------------------- ranges not offered

  /** Whatever draws the bands and the drilldown, the page's cell is the route's. */
  ghost predicate AlwaysAgree(
    stored: Stored, active: Range, offered: seq<Range>, coords: seq<Coord>, c: Coord, today: Date)
    requires Recent(today)
  {
    forall bands: seq<KeyedRow> -> seq<KeyedRow>, drill: Drill<seq<KeyedRow>> ::
      BuildMatrixCell(c, PageInputs(stored, active, offered, today), today, bands, drill)
      == BuildMatrixCell(c, RouteInputs(stored, coords, today), today, bands, drill)
  }

  /** No day the range plots is before the read and has stored rows. */
  ghost predicate NoPlottedBetween(stored: Stored, today: Date, range: Range, read: Range)
    requires Recent(today)
  {
    forall e | e in BasePoints(SnapshotsOf(stored, today), today, range) ::
      InWindow(e.date, today, read) || forall r | r in stored.rows :: r.date != e.date
  }

  /** A drilldown that shows the rows it is made from. */
  function RowsShown(): Drill<seq<KeyedRow>> {
    (mode: Mode, ids: HoldingIds, rows: seq<KeyedRow>) => rows
  }

  /** A day's rows are the same from both reads exactly when it was read or has none stored. */
  lemma DayReadExactly(stored: Stored, active: Range, offered: seq<Range>, coords: seq<Coord>, today: Date, day: Date)
    requires Recent(today) && FourDigit(day)
    ensures RowsOn(PageInputs(stored, active, offered, today).rows, day) == RowsOn(RouteInputs(stored, coords, today).rows, day)
      <==> InWindow(day, today, LongestEager(active, offered)) || forall r | r in stored.rows :: r.date != day
  {
    hide ReadsDay, LongestEager, InWindow, TodayRows, SnapshotsOf, Filter;
    var read := LongestEager(active, offered);
    var first, tail := ReadFrom(today, read), TodayRows(stored, today);
    FilterAppend(Filter(stored.rows, first), tail, OnDate(day));
    FilterAppend(stored.rows, tail, OnDate(day));
    SameTail(Filter(Filter(stored.rows, first), OnDate(day)), Filter(stored.rows, OnDate(day)), Filter(tail, OnDate(day)));
    FilterWithin(stored.rows, first, OnDate(day));
    forall r: KeyedRow ensures first(r) <==> InWindow(r.date, today, read) {
      ReadsDayIsInWindow(r.date, today, read);
    }
    if !InWindow(day, today, read) && !(forall r | r in stored.rows :: r.date != day) {
      var r: KeyedRow :| r in stored.rows && r.date == day;
      assert OnDate(day)(r) && !first(r);
    }
  }

  /**
   When a cell of the page is the route's, whatever draws it: a drilldown exactly
   when no stored row of its range is before the read, a chart exactly when no
   such row is on a day it plots.
   */
  lemma CellAgreesExactly(
    stored: Stored, active: Range, offered: seq<Range>, coords: seq<Coord>, c: Coord, today: Date)
    requires Recent(today) && c in coords
    ensures AlwaysAgree(stored, active, offered, coords, c, today)
      <==> if c.mode == Chart then NoPlottedBetween(stored, today, c.range, LongestEager(active, offered))
           else NothingBetween(stored.rows, today, c.range, LongestEager(active, offered))
  {
    hide WindowRows, BuildSeries, NothingBetween, NoPlottedBetween, LongestEager, SnapshotsOf, TodayRows, AllRows, RowsShown;
    if c.mode == Chart {
      ChartAgreesExactly(stored, active, offered, coords, c, today);
    } else {
      WindowsAgree(stored, active, offered, coords, c.range, today);
      DrillShows(stored, active, offered, coords, c, today);
      if NothingBetween(stored.rows, today, c.range, LongestEager(active, offered)) {
        forall bands: seq<KeyedRow> -> seq<KeyedRow>, drill: Drill<seq<KeyedRow>>
          ensures BuildMatrixCell(c, PageInputs(stored, active, offered, today), today, bands, drill)
            == BuildMatrixCell(c, RouteInputs(stored, coords, today), today, bands, drill)
        {
          CellsAgree(stored, active, offered, coords, c, today, bands, drill);
        }
      }
    }
  }

  lemma DrillShows(stored: Stored, active: Range, offered: seq<Range>, coords: seq<Coord>, c: Coord, today: Date)
    requires Recent(today) && c.mode != Chart
    ensures AlwaysAgree(stored, active, offered, coords, c, today) ==>
      WindowRows(PageInputs(stored, active, offered, today).rows, c.range, today)
      == WindowRows(RouteInputs(stored, coords, today).rows, c.range, today)
  {
    hide WindowRows, PageInputs, RouteInputs;
    var page, route := PageInputs(stored, active, offered, today), RouteInputs(stored, coords, today);
    if AlwaysAgree(stored, active, offered, coords, c, today) {
      assert BuildMatrixCell(c, page, today, AllRows(), RowsShown()) == BuildMatrixCell(c, route, today, AllRows(), RowsShown());
    }
  }

  lemma ChartAgreesExactly(
    stored: Stored, active: Range, offered: seq<Range>, coords: seq<Coord>, c: Coord, today: Date)
    requires Recent(today) && c.mode == Chart
    ensures AlwaysAgree(stored, active, offered, coords, c, today)
      <==> NoPlottedBetween(stored, today, c.range, LongestEager(active, offered))
  {
    hide BasePoints, RowsOn, Points, InWindow, LongestEager, SnapshotsOf, TodayRows, AllRows, Filter, FourDigit;
    var page, route := PageInputs(stored, active, offered, today), RouteInputs(stored, coords, today);
    var entries := BasePoints(page.snapshots, today, c.range);
    BasePointsInWindow(page.snapshots, today, c.range);
    forall e | e in entries
      ensures RowsOn(page.rows, e.date) == RowsOn(route.rows, e.date)
        <==> InWindow(e.date, today, LongestEager(active, offered)) || forall r | r in stored.rows :: r.date != e.date
    {
      DayReadExactly(stored, active, offered, coords, today, e.date);
    }
    SeriesExactly(page.snapshots, page.rows, route.rows, today, c.range);
    ChartsAgree(stored, active, offered, coords, c, today);
  }

  /** Charts agree for every bands exactly when they agree on their rows. */
  lemma ChartsAgree(stored: Stored, active: Range, offered: seq<Range>, coords: seq<Coord>, c: Coord, today: Date)
    requires Recent(today) && c.mode == Chart
    ensures AlwaysAgree(stored, active, offered, coords, c, today)
      <==> (BuildSeries(SnapshotsOf(stored, today), PageInputs(stored, active, offered, today).rows, today, c.range, AllRows())
            == BuildSeries(SnapshotsOf(stored, today), RouteInputs(stored, coords, today).rows, today, c.range, AllRows()))
  {
    hide BasePoints, Points, SnapshotsOf, TodayRows, LongestEager, RowsOn, PeriodKey, Density;
    var page, route := PageInputs(stored, active, offered, today), RouteInputs(stored, coords, today);
    SeriesExactly(page.snapshots, page.rows, route.rows, today, c.range);
    if AlwaysAgree(stored, active, offered, coords, c, today) {
      assert BuildMatrixCell(c, page, today, AllRows(), RowsShown()) == BuildMatrixCell(c, route, today, AllRows(), RowsShown());
    } else {
      var bands: seq<KeyedRow> -> seq<KeyedRow>, drill: Drill<seq<KeyedRow>> :|
        BuildMatrixCell(c, page, today, bands, drill) != BuildMatrixCell(c, route, today, bands, drill);
      if forall e | e in BasePoints(page.snapshots, today, c.range) :: RowsOn(page.rows, e.date) == RowsOn(route.rows, e.date) {
        PointsSame(BasePoints(page.snapshots, today, c.range), page.rows, route.rows,
          PeriodKey(today, Density(page.snapshots, today, c.range)), bands);
      }
    }
  }

  /** Nothing of a range unread, nothing it plots unread. */
  lemma NothingBetweenPlots(stored: Stored, today: Date, range: Range, read: Range)
    requires Recent(today) && NothingBetween(stored.rows, today, range, read)
    ensures NoPlottedBetween(stored, today, range, read)
  {
    hide BasePoints, InWindow, FourDigit;
    BasePointsInWindow(SnapshotsOf(stored, today), today, range);
  }

  /** What is read and what is shown furthest back, for a range not on offer. */
  lemma ReadOfUnoffered(spanMonths: int, active: Range)
    requires active !in AvailableRanges(spanMonths)
    ensures var offered := AvailableRanges(spanMonths); var n := |offered|;
      && active != All && n >= 1
      && LongestEager(active, offered) == (if n == 1 then active else offered[n - 2])
      && (n == 1 ==> Eager(active, offered) == [All])
      && (n > 1 ==> forall range | range in Eager(active, offered) :: range != All && Rank(range) <= Rank(offered[n - 2]))
  {
    hide AvailableRanges, Filter;
    var offered := AvailableRanges(spanMonths);
    var bounded := Filter(offered, Bounded);
    BoundedOffered(spanMonths);
    FilterMembers(offered, Bounded);
    FilterAllOrNone(bounded, Bounded);
    assert offered[|offered| - 1] == All && |bounded| == |offered| - 1;
    forall range | range in bounded ensures Rank(range) <= Rank(bounded[|bounded| - 1]) {
      var i :| 0 <= i < |bounded| && bounded[i] == range;
      assert offered[i] == range && offered[|bounded| - 1] == bounded[|bounded| - 1];
    }
  }

  lemma ShorterIsRead(stored: Stored, today: Date, range: Range, read: Range)
    requires Rank(range) <= Rank(read)
    ensures NothingBetween(stored.rows, today, range, read)
  {
    hide InWindow;
    forall r | r in stored.rows && InWindow(r.date, today, range) ensures InWindow(r.date, today, read) {
      LongerRangeKeepsMore(r.date, today, range, read);
    }
  }

  /**
   A link may name a range that is not on offer. With only `all` on offer the page
   reads the named range and ships `all`; otherwise it reads the longest bounded
   range on offer and ships the named one. Every cell it ships is the route's,
   whatever draws it, exactly when no stored row lies between the two; for a lone
   chart, when no day it plots has one.
   */
  lemma DeepLink(stored: Stored, spanMonths: int, mode: Mode, active: Range, today: Date)
    requires Recent(today) && active !in AvailableRanges(spanMonths)
    ensures var offered := AvailableRanges(spanMonths); var n := |offered|;
      var shipped := Shipped(mode, active, offered);
      (forall c | c in shipped :: AlwaysAgree(stored, active, offered, shipped, c, today))
      <==> if n == 1 then
             if mode == Chart then NoPlottedBetween(stored, today, All, active)
             else NothingBetween(stored.rows, today, All, active)
           else NothingBetween(stored.rows, today, active, offered[n - 2])
  {
    hide AvailableRanges, Shipped, LongestEager, AlwaysAgree, NothingBetween, NoPlottedBetween, Eager;
    var offered := AvailableRanges(spanMonths);
    var n := |offered|;
    var shipped, read := Shipped(mode, active, offered), LongestEager(active, offered);
    ReadOfUnoffered(spanMonths, active);
    ShippedAre(mode, active, offered);
    forall c | c in shipped
      ensures AlwaysAgree(stored, active, offered, shipped, c, today)
        <==> if c.mode == Chart then NoPlottedBetween(stored, today, c.range, read)
             else NothingBetween(stored.rows, today, c.range, read)
      ensures c.range == All || c.range == active || Rank(c.range) <= Rank(read)
      ensures Rank(c.range) <= Rank(read) || NothingBetween(stored.rows, today, c.range, read) ==>
        AlwaysAgree(stored, active, offered, shipped, c, today)
    {
      CellAgreesExactly(stored, active, offered, shipped, c, today);
      if Rank(c.range) <= Rank(read) {
        ShorterIsRead(stored, today, c.range, read);
      }
      if NothingBetween(stored.rows, today, c.range, read) {
        NothingBetweenPlots(stored, today, c.range, read);
      }
    }
    var furthest := Coord(if n == 1 && mode != Chart then mode else if n == 1 then Chart else Liquid, if n == 1 then All else active);
    assert furthest in shipped;
  }

  lemma ShippedAre(mode: Mode, active: Range, offered: seq<Range>)
    ensures forall c :: (c in Shipped(mode, active, offered)
      <==> InCross(Coord(mode, active), Eager(active, offered), c) || (c.mode == Chart && c.range in Eager(active, offered)))
  {
    hide Dedup, Cross, Eager, InCross;
    var eager := Eager(active, offered);
    DedupHolds(Cross(Coord(mode, active), eager) + ChartRow(eager));
    CrossHolds(Coord(mode, active), eager);
    ChartRowHolds(eager);
  }

  const SomeDay := Date(2026, 3, 15)

  /** A scope whose whole history is one close, and a row of that day. */
  function OneClose(day: KeyedSnapshot): Stored {
    Stored([day], [RowOfClose(day)], NoIds, None)
  }

  function RowOfClose(day: KeyedSnapshot): KeyedRow {
    Row(day.date, "h", 1)
  }

  /** The route's chart of a range that holds the close plots it; the page's, when the read does not, plots nothing. */
  lemma CloseLost(day: KeyedSnapshot, active: Range, offered: seq<Range>, coords: seq<Coord>, range: Range)
    requires Recent(SomeDay) && InWindow(day.date, SomeDay, range)
    requires !InWindow(day.date, SomeDay, LongestEager(active, offered))
    ensures var page := PageInputs(OneClose(day), active, offered, SomeDay);
      var route := RouteInputs(OneClose(day), coords, SomeDay);
      && BuildSeries(page.snapshots, page.rows, SomeDay, range, AllRows()) == []
      && var plotted := BuildSeries(route.snapshots, route.rows, SomeDay, range, AllRows());
         |plotted| == 1 && plotted[0].date == day.date && plotted[0].bands == [RowOfClose(day)]
  {
    hide InWindow, LongestEager, BasePoints, PageInputs, RouteInputs, OneClose, Points, PeriodKey, Density;
    OneCloseInputs(day, active, offered, coords);
    OneBasePoint(day, SomeDay, range);
    var openPeriod := PeriodKey(SomeDay, Density([day], SomeDay, range));
    OnePoint(BasePoints([day], SomeDay, range), [], openPeriod);
    OnePoint(BasePoints([day], SomeDay, range), [RowOfClose(day)], openPeriod);
    FilterNone(OnDate(day.date));
    FilterOneRow(RowOfClose(day), OnDate(day.date));
  }

  lemma OneCloseInputs(day: KeyedSnapshot, active: Range, offered: seq<Range>, coords: seq<Coord>)
    requires Recent(SomeDay) && !InWindow(day.date, SomeDay, LongestEager(active, offered))
    ensures var page := PageInputs(OneClose(day), active, offered, SomeDay);
      var route := RouteInputs(OneClose(day), coords, SomeDay);
      page.snapshots == route.snapshots == [day] && page.rows == [] && route.rows == [RowOfClose(day)]
  {
    hide InWindow, LongestEager, ReadsDay, Filter;
    var read := LongestEager(active, offered);
    ReadsDayIsInWindow(day.date, SomeDay, read);
    FilterOneRow(RowOfClose(day), ReadFrom(SomeDay, read));
    assert [day] + [] == [day] && [RowOfClose(day)] + [] == [RowOfClose(day)];
  }

  lemma OnePoint(entries: seq<Entry>, rows: seq<KeyedRow>, openPeriod: string)
    requires |entries| == 1
    ensures var points := Points(entries, rows, openPeriod, AllRows());
      var day := RowsOn(rows, entries[0].date);
      if day == [] then points == []
      else |points| == 1 && points[0].date == entries[0].date && points[0].bands == day
  {
    hide RowsOn, AtMost;
    assert entries[..0] == [];
  }

  lemma FilterOneRow(row: KeyedRow, keep: KeyedRow -> bool)
    ensures Filter([row], keep) == if keep(row) then [row] else []
  {
    assert [row][1..] == [];
  }

  lemma FilterNone(keep: KeyedRow -> bool)
    ensures Filter<KeyedRow>([], keep) == []
  {
  }

  /** A lone snapshot in the window is its only base point. */
  lemma OneBasePoint(day: KeyedSnapshot, today: Date, range: Range)
    requires Recent(today) && InWindow(day.date, today, range)
    ensures |BasePoints([day], today, range)| == 1 && BasePoints([day], today, range)[0].date == day.date
  {
    hide InWindow, PeriodKey, RangeStartMonthKey, MonthKey, AtMost, KeyText;
    SnapshotInWindow(day, today, range);
    assert [day][1..] == [] && [day][..0] == [];
    assert Filter([day], SnapshotIn(today, range)) == [day];
    assert Sort([day], SnapshotOrder()) == [day];
    var entry := Entry(PeriodKey(day.date, Density([day], today, range)), day.date);
    assert LastByPeriod([day], Density([day], today, range)) == [entry];
    assert [entry][1..] == [] && Sort([entry], PeriodOrder()) == [entry];
  }

  lemma SnapshotInWindow(day: KeyedSnapshot, today: Date, range: Range)
    requires Recent(today) && InWindow(day.date, today, range)
    ensures SnapshotIn(today, range)(day)
  {
    hide RangeStartMonthKey, MonthKey, AtMost, KeyText, InWindow;
    if range == All {
      AllStarts(today);
    } else {
      RangeStartIsMonthKey(today, range);
      KeyOfMonth(day.date);
      WindowByKeys(day.date, today, range);
    }
  }

  /** Two years of history offer one year and all; asked for five, the page ships a chart without the close of two years ago. */
  lemma FiveYearsOfTwo()
    ensures Recent(SomeDay) && Offered(OneClose(Snapshot(Date(2024, 3, 10))), SomeDay) == [OneYear, All]
    ensures var stored := OneClose(Snapshot(Date(2024, 3, 10)));
      var c := Coord(Chart, FiveYears);
      && c in Shipped(Chart, FiveYears, [OneYear, All])
      && BuildMatrixCell(c, PageInputs(stored, FiveYears, [OneYear, All], SomeDay), SomeDay, AllRows(), RowsShown())
        != BuildMatrixCell(c, RouteInputs(stored, [c], SomeDay), SomeDay, AllRows(), RowsShown())
  {
    hide PageInputs, RouteInputs, BuildSeries, Shipped, LongestEager;
    assert AvailableRanges(24) == [OneYear, All];
    ReadOfUnoffered(24, FiveYears);
    ShippedAre(Chart, FiveYears, [OneYear, All]);
    CloseLost(Snapshot(Date(2024, 3, 10)), FiveYears, [OneYear, All], [Coord(Chart, FiveYears)], FiveYears);
  }

  /** A history of exactly a year is offered whole only; asked for its last year, the page ships a chart of `all` without its first month. */
  lemma OneYearOfOne()
    ensures Recent(SomeDay) && Offered(OneClose(Snapshot(Date(2025, 3, 10))), SomeDay) == [All]
    ensures var stored := OneClose(Snapshot(Date(2025, 3, 10)));
      var c := Coord(Chart, All);
      && c in Shipped(Chart, OneYear, [All])
      && BuildMatrixCell(c, PageInputs(stored, OneYear, [All], SomeDay), SomeDay, AllRows(), RowsShown())
        != BuildMatrixCell(c, RouteInputs(stored, [c], SomeDay), SomeDay, AllRows(), RowsShown())
  {
    hide PageInputs, RouteInputs, BuildSeries, Shipped, LongestEager, Eager;
    assert AvailableRanges(12) == [All];
    ReadOfUnoffered(12, OneYear);
    ShippedAre(Chart, OneYear, [All]);
    CloseLost(Snapshot(Date(2025, 3, 10)), OneYear, [All], [Coord(Chart, All)], All);
  }

  // -------------------------------------------------------------- both sides

  /** The page's first cells. */
  method PageCells<B, D>(
    stored: Stored, mode: Mode, asked: Option<Range>, today: Date, bands: seq<KeyedRow> -> B, drill: Drill<D>)
    returns (cells: map<string, Payload<B, D>>)
    requires Recent(today)
    ensures var active := ActiveRange(asked, Offered(stored, today));
      Built(cells, Shipped(mode, active, Offered(stored, today)),
        PageInputs(stored, active, Offered(stored, today), today), today, bands, drill)
  {
    hide Shipped, PageInputs, Built, Offered;
    var offered := Offered(stored, today);
    var active := ActiveRange(asked, offered);
    var coords := ShippedCells(mode, active, offered);
    cells := BuildMatrixCells(coords, PageInputs(stored, active, offered, today), today, bands, drill);
  }

  /** The route's answer to a list of cells. */
  method RouteCells<B, D>(
    stored: Stored, coords: seq<Coord>, today: Date, bands: seq<KeyedRow> -> B, drill: Drill<D>)
    returns (cells: map<string, Payload<B, D>>)
    requires Recent(today)
    ensures Built(cells, coords, RouteInputs(stored, coords, today), today, bands, drill)
  {
    if coords == [] {
      cells := map[];
    } else {
      hide RouteInputs, Built;
      cells := BuildMatrixCells(coords, RouteInputs(stored, coords, today), today, bands, drill);
    }
  }
}
