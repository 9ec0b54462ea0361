/**
 The composition panel on the page's own cells: what the server shipped
 (`load-dashboard.ts`) and what the route adds to it (`composition-panel.tsx`).
 */
module PanelOfPage {
  import opened Text
  import opened Calendar
  import opened DashboardMatrix
  import opened CompositionChart
  import opened DashboardCells
  import CompositionPanel

  /** The route's cell, asked for alone. */
  function RouteCell<B, D>(
    stored: Stored, today: Date, bands: seq<KeyedRow> -> B, drill: Drill<D>): CompositionPanel.Builder<Payload<B, D>>
    requires Recent(today)
  {
    (c: Coord) => BuildMatrixCell(c, RouteInputs(stored, [c], today), today, bands, drill)
  }

  /** A cell asked for with others is the one asked for alone. */
  lemma AskedTogether<B, D>(
    stored: Stored, coords: seq<Coord>, c: Coord, today: Date, bands: seq<KeyedRow> -> B, drill: Drill<D>)
    requires Recent(today) && c in coords
    ensures BuildMatrixCell(c, RouteInputs(stored, coords, today), today, bands, drill)
      == RouteCell(stored, today, bands, drill)(c)
  {
    hide BuildSeries, WindowRows, SnapshotsOf, TodayRows;
    assert c in [c];
  }

  /** The route's answer to a request is what the panel takes it for. */
  lemma RouteIsBuilder<B(!new), D(!new)>(
    stored: Stored, coords: seq<Coord>, today: Date, bands: seq<KeyedRow> -> B, drill: Drill<D>,
    cells: map<string, Payload<B, D>>)
    requires Recent(today) && Built(cells, coords, RouteInputs(stored, coords, today), today, bands, drill)
    ensures cells == CompositionPanel.BuildCells(coords, RouteCell(stored, today, bands, drill))
  {
    hide BuildMatrixCell, CellKey, RouteInputs, RouteCell;
    var build := RouteCell(stored, today, bands, drill);
    CompositionPanel.BuildCellsHold(coords, build);
    forall key | key in cells ensures cells[key] == CompositionPanel.BuildCells(coords, build)[key] {
      var c :| c in coords && CellKey(c) == key;
      AskedTogether(stored, coords, c, today, bands, drill);
    }
  }

  /** The page's cells are the route's exactly when each shipped one is. */
  lemma ShippedAreTheRoutes<B(!new), D(!new)>(
    stored: Stored, mode: Mode, active: Range, offered: seq<Range>, today: Date, bands: seq<KeyedRow> -> B,
    drill: Drill<D>, page: map<string, Payload<B, D>>)
    requires Recent(today)
    requires Built(page, Shipped(mode, active, offered), PageInputs(stored, active, offered, today), today, bands, drill)
    ensures CompositionPanel.CellKeys(page)
    ensures CompositionPanel.BuiltCells(page, RouteCell(stored, today, bands, drill))
      <==> forall c | c in Shipped(mode, active, offered) ::
             BuildMatrixCell(c, PageInputs(stored, active, offered, today), today, bands, drill)
             == RouteCell(stored, today, bands, drill)(c)
  {
    hide BuildMatrixCell, CellKey, RouteInputs, PageInputs, Shipped, RouteCell;
    var build := RouteCell(stored, today, bands, drill);
    var inputs := PageInputs(stored, active, offered, today);
    forall key | key in page ensures exists c :: CellKey(c) == key {
      var c :| c in Shipped(mode, active, offered) && CellKey(c) == key;
    }
    if CompositionPanel.BuiltCells(page, build) {
      forall c | c in Shipped(mode, active, offered) ensures BuildMatrixCell(c, inputs, today, bands, drill) == build(c) {
        CompositionPanel.PayloadOf(page, build, c);
      }
    }
    if forall c | c in Shipped(mode, active, offered) :: BuildMatrixCell(c, inputs, today, bands, drill) == build(c) {
      forall key | key in page ensures exists c :: CellKey(c) == key && page[key] == build(c) {
        var c :| c in Shipped(mode, active, offered) && CellKey(c) == key;
        assert page[CellKey(c)] == build(c);
      }
    }
  }

  /**
   Over every run of the panel, whatever moves, answers and failures: all it has
   cached is the route's exactly when every cell the page shipped was. A wrong
   first cell is never asked for again.
   */
  lemma CachedAreTheRoutesExactly<B(!new), D(!new)>(
    stored: Stored, mode: Mode, active: Range, offered: seq<Range>, today: Date, bands: seq<KeyedRow> -> B,
    drill: Drill<D>, page: map<string, Payload<B, D>>, first: Coord, events: seq<CompositionPanel.Event>, eager: seq<Range>)
    requires Recent(today)
    requires Built(page, Shipped(mode, active, offered), PageInputs(stored, active, offered, today), today, bands, drill)
    ensures var build := RouteCell(stored, today, bands, drill);
      CompositionPanel.BuiltCells(
        CompositionPanel.Run(CompositionPanel.Mount(page, first, eager), events, eager, build).cache, build)
      <==> forall c | c in Shipped(mode, active, offered) ::
             BuildMatrixCell(c, PageInputs(stored, active, offered, today), today, bands, drill) == build(c)
  {
    hide BuildMatrixCell, CellKey, RouteInputs, PageInputs, Shipped, RouteCell, CompositionPanel.Run, CompositionPanel.Mount;
    ShippedAreTheRoutes(stored, mode, active, offered, today, bands, drill, page);
    CompositionPanel.ShippedStays(page, first, events, eager, RouteCell(stored, today, bands, drill));
  }

  /** With a range on offer, or none asked for, that is always so. */
  lemma OfferedCacheIsTheRoutes<B(!new), D(!new)>(
    stored: Stored, mode: Mode, asked: Option<Range>, today: Date, bands: seq<KeyedRow> -> B, drill: Drill<D>,
    page: map<string, Payload<B, D>>, first: Coord, events: seq<CompositionPanel.Event>, eager: seq<Range>)
    requires Recent(today) && (asked.None? || asked.value in Offered(stored, today))
    requires var active := ActiveRange(asked, Offered(stored, today));
      Built(page, Shipped(mode, active, Offered(stored, today)),
        PageInputs(stored, active, Offered(stored, today), today), today, bands, drill)
    ensures var build := RouteCell(stored, today, bands, drill);
      CompositionPanel.BuiltCells(
        CompositionPanel.Run(CompositionPanel.Mount(page, first, eager), events, eager, build).cache, build)
  {
    hide Shipped, PageInputs, RouteInputs, BuildMatrixCell, NothingBetween, CellKey, ShippedRanges;
    hide CompositionPanel.Run, CompositionPanel.Mount;
    var offered := Offered(stored, today);
    var active := ActiveRange(asked, offered);
    CachedAreTheRoutesExactly(stored, mode, active, offered, today, bands, drill, page, first, events, eager);
    ShippedHaveShippedRanges(mode, active, offered);
    forall c | c in Shipped(mode, active, offered)
      ensures BuildMatrixCell(c, PageInputs(stored, active, offered, today), today, bands, drill)
        == RouteCell(stored, today, bands, drill)(c)
    {
      OfferedReadsEnough(stored, active, c.range, today);
      CellsAgree(stored, active, offered, [c], c, today, bands, drill);
    }
  }
}
