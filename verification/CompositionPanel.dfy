/**
 The composition panel's cell cache (`composition-panel.tsx`): moves, prefetches
 in flight and their answers in any order, with a mirror of the cache that may lag
 behind it.
 */
module CompositionPanel {
  import opened Text
  import opened DashboardMatrix

  /** How the server draws a cell. The panel never looks inside a payload. */
  type Builder<!P> = Coord -> P

  type CellMap<P> = map<string, P>

  /**
   What the island holds: the cache, the mirror the prefetch reads, the cell on
   screen and the requests not answered yet; and, to speak of what went wrong, the
   cells some answer failed to bring.
   */
  datatype Panel<P> = Panel(
    cache: CellMap<P>, mirror: set<string>, current: Coord, inFlight: seq<seq<Coord>>, failed: set<Coord>)

  /** How a request ends: an answer, for a workspace with a scope or without one, or none that can be read. */
  datatype Outcome = Answered(scoped: bool) | NotOk | NoBody | Thrown

  datatype Event =
    | Commit
    | Move(next: Coord)
    | Miss
    | Answer(request: nat, outcome: Outcome)

  // ------------------------------------------------------------------ the route

  /** The cells a scope's builder draws, keyed. */
  function BuildCells<P>(coords: seq<Coord>, build: Builder<P>): CellMap<P> {
    if coords == [] then map[]
    else BuildCells(coords[..|coords| - 1], build)[CellKey(coords[|coords| - 1]) := build(coords[|coords| - 1])]
  }

  /** The body of the route's answer, absent when it refuses the query. */
  function Route<P>(query: string, scoped: bool, build: Builder<P>): Option<CellMap<P>> {
    match ParsedCells(Some(query))
    case Refused(_) => None
    case Cells(coords) => Some(if scoped then BuildCells(coords, build) else map[])
  }

  function Response<P>(coords: seq<Coord>, outcome: Outcome, build: Builder<P>): Option<CellMap<P>> {
    if outcome.Answered? then Route(Query(coords), outcome.scoped, build) else None
  }

  // ------------------------------------------------------------------ the steps

  function Missing(coords: seq<Coord>, have: set<string>): seq<Coord> {
    if coords == [] then []
    else (if CellKey(coords[0]) in have then [] else [coords[0]]) + Missing(coords[1..], have)
  }

  /** Asks for the wanted cells the mirror does not list, if there are any. */
  function Fetch<P>(panel: Panel<P>, coords: seq<Coord>): Panel<P> {
    var missing := Missing(coords, panel.mirror);
    if missing == [] then panel else panel.(inFlight := panel.inFlight + [missing])
  }

  /** The ranges asked for ahead: all of them only when the page opened on `all`. */
  function EagerRanges(initial: Range, offered: seq<Range>): seq<Range> {
    if initial == All then offered else WithoutAll(offered)
  }

  function WithoutAll(ranges: seq<Range>): seq<Range> {
    if ranges == [] then [] else (if ranges[0] == All then [] else [ranges[0]]) + WithoutAll(ranges[1..])
  }

  function Prefetch<P>(panel: Panel<P>, centre: Coord, eager: seq<Range>): Panel<P> {
    Fetch(panel, Cross(centre, eager))
  }

  function Removed<T>(s: seq<T>, k: nat): seq<T>
    requires k < |s|
  {
    s[..k] + s[k + 1..]
  }

  function Step<P>(panel: Panel<P>, event: Event, eager: seq<Range>, build: Builder<P>): Panel<P> {
    match event
    case Commit => panel.(mirror := panel.cache.Keys)
    case Move(next) => Prefetch(panel.(current := next), next, eager)
    case Miss => if CellKey(panel.current) in panel.cache then panel else Fetch(panel, [panel.current])
    case Answer(k, outcome) =>
      if k >= |panel.inFlight| then panel
      else
        var coords := panel.inFlight[k];
        var rest := panel.(inFlight := Removed(panel.inFlight, k));
        match Response(coords, outcome, build)
        case None => rest.(failed := rest.failed + Asked(coords))
        case Some(cells) =>
          rest.(cache := rest.cache + cells, failed := rest.failed + Lacking(coords, cells.Keys))
  }

  function Asked(coords: seq<Coord>): set<Coord> {
    set c | c in coords
  }

  /** The cells asked for that an answer left out. */
  function Lacking(coords: seq<Coord>, keys: set<string>): set<Coord> {
    set c | c in coords && CellKey(c) !in keys
  }

  function Run<P>(panel: Panel<P>, events: seq<Event>, eager: seq<Range>, build: Builder<P>): Panel<P> {
    if events == [] then panel
    else Step(Run(panel, events[..|events| - 1], eager, build), events[|events| - 1], eager, build)
  }

  /** On mount: the shipped cells, mirrored, and the cross of the first cell asked for. */
  function Mount<P>(shipped: CellMap<P>, first: Coord, eager: seq<Range>): Panel<P> {
    Prefetch(Panel(shipped, shipped.Keys, first, [], {}), first, eager)
  }

  // ------------------------------------------------------------------ the island

  class Island<P(!new)> {
    const eager: seq<Range>
    var cache: CellMap<P>
    var cacheRef: CellMap<P>
    var current: Coord
    var inFlight: seq<seq<Coord>>
    ghost var failed: set<Coord>

    ghost function Now(): Panel<P>
      reads this
    {
      Panel(cache, cacheRef.Keys, current, inFlight, failed)
    }

    constructor (shipped: CellMap<P>, first: Coord, initial: Range, offered: seq<Range>)
      ensures eager == EagerRanges(initial, offered)
      ensures Now() == Mount(shipped, first, eager)
    {
      eager := EagerRanges(initial, offered);
      cache, cacheRef, current, inFlight, failed := shipped, shipped, first, [], {};
      new;
      PrefetchCross(first);
    }

    /** The cache effect: the mirror catches up. */
    method CommitCache()
      modifies this`cacheRef
      ensures forall build :: Now() == Step(old(Now()), Commit, eager, build)
    {
      cacheRef := cache;
    }

    method FetchCells(coords: seq<Coord>)
      modifies this`inFlight
      ensures Now() == Fetch(old(Now()), coords)
    {
      var missing := Missing(coords, cacheRef.Keys);
      if |missing| == 0 {
        return;
      }
      inFlight := inFlight + [missing];
    }

    method PrefetchCross(centre: Coord)
      modifies this`inFlight
      ensures Now() == Prefetch(old(Now()), centre, eager)
    {
      var cross := CrossOf(centre, eager);
      FetchCells(cross);
    }

    method GoTo(next: Coord)
      modifies this`current, this`inFlight
      ensures forall build :: Now() == Step(old(Now()), Move(next), eager, build)
    {
      current := next;
      PrefetchCross(next);
    }

    method OnMiss()
      modifies this`inFlight
      ensures forall build :: Now() == Step(old(Now()), Miss, eager, build)
    {
      if CellKey(current) !in cache {
        FetchCells([current]);
      }
    }

    /** A request ends: the answer's cells are merged over the cache held by then. */
    method OnAnswer(k: nat, outcome: Outcome, body: Option<CellMap<P>>, ghost build: Builder<P>)
      requires k < |inFlight| && body == Response(inFlight[k], outcome, build)
      modifies this`cache, this`inFlight, this`failed
      ensures Now() == Step(old(Now()), Answer(k, outcome), eager, build)
    {
      var coords := inFlight[k];
      inFlight := Removed(inFlight, k);
      if body.None? {
        failed := failed + Asked(coords);
        return;
      }
      cache := cache + body.value;
      failed := failed + Lacking(coords, body.value.Keys);
    }
  }

  // -------------------------------------------------------------- what is kept

  /** Every payload is the builder's for the cell its key names. */
  ghost predicate BuiltCells<P(!new)>(cells: CellMap<P>, build: Builder<P>) {
    forall key | key in cells :: exists c :: CellKey(c) == key && cells[key] == build(c)
  }

  /** A request the route accepts: a few different cells. */
  predicate FairRequest(coords: seq<Coord>) {
    Distinct(coords) && 1 <= |coords| <= MaxRequested
  }

  /** The cell is cached, on its way, or was lost to a failure. */
  predicate Accounted<P>(panel: Panel<P>, cell: Coord) {
    CellKey(cell) in panel.cache || cell in panel.failed
    || exists k :: 0 <= k < |panel.inFlight| && cell in panel.inFlight[k]
  }

  ghost predicate Kept<P(!new)>(panel: Panel<P>, eager: seq<Range>, build: Builder<P>) {
    && panel.mirror <= panel.cache.Keys
    && BuiltCells(panel.cache, build)
    && (forall k :: 0 <= k < |panel.inFlight| ==> FairRequest(panel.inFlight[k]))
    && (forall cell | InCross(panel.current, eager, cell) :: Accounted(panel, cell))
  }

  lemma {:induction false} MissingHolds(coords: seq<Coord>, have: set<string>)
    ensures forall c :: c in Missing(coords, have) <==> c in coords && CellKey(c) !in have
    ensures Distinct(coords) ==> Distinct(Missing(coords, have))
  {
    hide CellKey;
    if coords != [] {
      var rest := Missing(coords[1..], have);
      MissingHolds(coords[1..], have);
      assert forall c :: c in coords <==> c == coords[0] || c in coords[1..];
      if Distinct(coords) {
        assert forall i :: 0 <= i < |coords[1..]| ==> coords[1..][i] == coords[i + 1];
        assert coords[0] !in rest;
      }
    }
  }

  lemma {:induction false} BuildCellsHold<P(!new)>(coords: seq<Coord>, build: Builder<P>)
    ensures BuildCells(coords, build).Keys == KeysOf(coords)
    ensures forall c | c in coords :: BuildCells(coords, build)[CellKey(c)] == build(c)
  {
    hide CellKey;
    if coords != [] {
      var n := |coords| - 1;
      var before, last := coords[..n], coords[n];
      BuildCellsHold(before, build);
      assert coords == before + [last];
      KeysGrow(before, last);
      forall c | c in coords ensures BuildCells(coords, build)[CellKey(c)] == build(c) {
        KeyNamesCell(c);
        KeyNamesCell(last);
        assert c in before || c == last;
      }
    }
  }

  /** The route answers a fair request with exactly its cells, each as the builder draws it. */
  lemma RouteAnswers<P(!new)>(coords: seq<Coord>, scoped: bool, build: Builder<P>)
    requires FairRequest(coords)
    ensures Route(Query(coords), scoped, build) == Some(if scoped then BuildCells(coords, build) else map[])
  {
    hide Query, ParsedCells, BuildCells, Dedup;
    QueryRoundTrip(coords);
    DedupHolds(coords);
  }

  /** Asking for cells loses none and accounts for every one wanted, however stale the mirror is. */
  lemma FetchKeeps<P(!new)>(panel: Panel<P>, coords: seq<Coord>, eager: seq<Range>, build: Builder<P>)
    requires Distinct(coords)
    requires panel.mirror <= panel.cache.Keys && BuiltCells(panel.cache, build)
    requires forall k :: 0 <= k < |panel.inFlight| ==> FairRequest(panel.inFlight[k])
    ensures var after := Fetch(panel, coords);
            && after.mirror <= after.cache.Keys && after.cache == panel.cache
            && (forall k :: 0 <= k < |after.inFlight| ==> FairRequest(after.inFlight[k]))
            && (forall cell | cell in coords :: Accounted(after, cell))
            && (forall cell | Accounted(panel, cell) :: Accounted(after, cell))
  {
    hide CellKey, Missing;
    var missing := Missing(coords, panel.mirror);
    MissingHolds(coords, panel.mirror);
    var after := Fetch(panel, coords);
    if missing != [] {
      NoMoreThanTheMatrix(missing);
      assert after.inFlight[|panel.inFlight|] == missing;
    }
    forall cell | Accounted(panel, cell) ensures Accounted(after, cell) {
      if k :| 0 <= k < |panel.inFlight| && cell in panel.inFlight[k] {
        assert after.inFlight[k] == panel.inFlight[k];
      }
    }
  }

  /** An answer keeps what it brings: its cells are cached or known to have failed, and no other request is touched. */
  lemma AnswerKeeps<P(!new)>(panel: Panel<P>, k: nat, outcome: Outcome, eager: seq<Range>, build: Builder<P>)
    requires Kept(panel, eager, build) && k < |panel.inFlight|
    ensures var after := Step(panel, Answer(k, outcome), eager, build);
            && Kept(after, eager, build)
            && panel.cache.Keys <= after.cache.Keys
  {
    hide CellKey, Route, BuiltCells, FairRequest, InCross;
    var coords := panel.inFlight[k];
    var after := Step(panel, Answer(k, outcome), eager, build);
    var rest := Removed(panel.inFlight, k);
    assert forall j :: 0 <= j < |rest| ==> rest[j] == panel.inFlight[if j < k then j else j + 1];
    if outcome.Answered? {
      RouteAnswers(coords, outcome.scoped, build);
      MergeBuilt(panel.cache, coords, build);
    }
    forall cell | Accounted(panel, cell) ensures Accounted(after, cell) {
      if j :| 0 <= j < |panel.inFlight| && cell in panel.inFlight[j] {
        if j != k {
          assert rest[if j < k then j else j - 1] == panel.inFlight[j];
        }
      }
    }
  }

  lemma MergeBuilt<P(!new)>(cache: CellMap<P>, coords: seq<Coord>, build: Builder<P>)
    requires BuiltCells(cache, build)
    ensures BuiltCells(cache + BuildCells(coords, build), build) && BuiltCells(cache + map[], build)
  {
    hide CellKey, BuildCells;
    var more := BuildCells(coords, build);
    BuildCellsHold(coords, build);
    forall key | key in cache + more ensures exists c :: CellKey(c) == key && (cache + more)[key] == build(c) {
      if key in more {
        var c :| c in coords && CellKey(c) == key;
        assert (cache + more)[key] == build(c);
      }
    }
    assert cache + map[] == cache;
  }

  lemma StepKeeps<P(!new)>(panel: Panel<P>, event: Event, eager: seq<Range>, build: Builder<P>)
    requires Kept(panel, eager, build)
    ensures Kept(Step(panel, event, eager, build), eager, build)
    ensures panel.cache.Keys <= Step(panel, event, eager, build).cache.Keys
  {
    hide CellKey, BuiltCells, FairRequest, InCross, Cross, Fetch;
    match event
    case Commit =>
    case Move(next) =>
      CrossHolds(next, eager);
      FetchKeeps(panel.(current := next), Cross(next, eager), eager, build);
      FetchCurrent(panel.(current := next), Cross(next, eager));
    case Miss =>
      if CellKey(panel.current) !in panel.cache {
        FetchKeeps(panel, [panel.current], eager, build);
        FetchCurrent(panel, [panel.current]);
      }
    case Answer(k, outcome) => if k < |panel.inFlight| { AnswerKeeps(panel, k, outcome, eager, build); }
  }

  lemma FetchCurrent<P>(panel: Panel<P>, coords: seq<Coord>)
    ensures Fetch(panel, coords).current == panel.current && Fetch(panel, coords).cache == panel.cache
  {
  }

  lemma {:induction false} RunKeeps<P(!new)>(panel: Panel<P>, events: seq<Event>, eager: seq<Range>, build: Builder<P>)
    requires Kept(panel, eager, build)
    ensures Kept(Run(panel, events, eager, build), eager, build)
  {
    hide Kept, Step;
    if events != [] {
      var n := |events| - 1;
      RunKeeps(panel, events[..n], eager, build);
      StepKeeps(Run(panel, events[..n], eager, build), events[n], eager, build);
    }
  }

  lemma MountKept<P(!new)>(shipped: CellMap<P>, first: Coord, eager: seq<Range>, build: Builder<P>)
    requires BuiltCells(shipped, build)
    ensures Kept(Mount(shipped, first, eager), eager, build)
  {
    hide CellKey, BuiltCells, FairRequest, InCross, Cross, Fetch;
    var bare := Panel(shipped, shipped.Keys, first, [], {});
    CrossHolds(first, eager);
    FetchKeeps(bare, Cross(first, eager), eager, build);
    FetchCurrent(bare, Cross(first, eager));
  }

  /** Over every run, every payload in the cache is the builder's, and every request is one the route accepts. */
  lemma CacheOverRuns<P(!new)>(
    shipped: CellMap<P>, first: Coord, events: seq<Event>, eager: seq<Range>, build: Builder<P>)
    requires BuiltCells(shipped, build)
    ensures var panel := Run(Mount(shipped, first, eager), events, eager, build);
            && BuiltCells(panel.cache, build)
            && forall k :: 0 <= k < |panel.inFlight| ==>
                 ParsedCells(Some(Query(panel.inFlight[k]))) == Cells(panel.inFlight[k])
  {
    hide Run, Mount, Query, ParsedCells, BuiltCells, InCross, Dedup;
    MountKept(shipped, first, eager, build);
    RunKeeps(Mount(shipped, first, eager), events, eager, build);
    var panel := Run(Mount(shipped, first, eager), events, eager, build);
    forall k | 0 <= k < |panel.inFlight|
      ensures ParsedCells(Some(Query(panel.inFlight[k]))) == Cells(panel.inFlight[k])
    {
      QueryRoundTrip(panel.inFlight[k]);
      DedupHolds(panel.inFlight[k]);
    }
  }

  /** A cell once cached stays cached, with the same payload, however the run goes on. */
  lemma {:induction false} NothingCachedIsLost<P(!new)>(
    shipped: CellMap<P>, first: Coord, events: seq<Event>, more: seq<Event>, eager: seq<Range>, build: Builder<P>)
    requires BuiltCells(shipped, build)
    ensures var before := Run(Mount(shipped, first, eager), events, eager, build).cache;
            var after := Run(Mount(shipped, first, eager), events + more, eager, build).cache;
            forall key | key in before :: key in after && after[key] == before[key]
    decreases |more|
  {
    hide Run, Mount, Step, Kept;
    var start := Mount(shipped, first, eager);
    MountKept(shipped, first, eager, build);
    RunKeeps(start, events, eager, build);
    if more == [] {
      assert events + more == events;
    } else {
      var n := |more| - 1;
      NothingCachedIsLost(shipped, first, events, more[..n], eager, build);
      RunLast(start, events, more, eager, build);
      RunKeeps(start, events + more[..n], eager, build);
      RunKeeps(start, events + more, eager, build);
      StepKeeps(Run(start, events + more[..n], eager, build), more[n], eager, build);
    }
    SamePayloads(Run(start, events, eager, build), Run(start, events + more, eager, build), eager, build);
  }

  lemma RunLast<P>(start: Panel<P>, events: seq<Event>, more: seq<Event>, eager: seq<Range>, build: Builder<P>)
    requires more != []
    ensures Run(start, events + more, eager, build)
         == Step(Run(start, events + more[..|more| - 1], eager, build), more[|more| - 1], eager, build)
  {
    hide Step;
    assert (events + more)[..|events + more| - 1] == events + more[..|more| - 1];
  }

  /** Two caches of built cells agree wherever both hold a key. */
  lemma SamePayloads<P(!new)>(a: Panel<P>, b: Panel<P>, eager: seq<Range>, build: Builder<P>)
    requires Kept(a, eager, build) && Kept(b, eager, build)
    ensures forall key | key in a.cache && key in b.cache :: a.cache[key] == b.cache[key]
  {
    hide CellKey, FairRequest, InCross;
    forall key | key in a.cache && key in b.cache ensures a.cache[key] == b.cache[key] {
      var c :| CellKey(c) == key && a.cache[key] == build(c);
      var d :| CellKey(d) == key && b.cache[key] == build(d);
      KeyNamesCell(c);
      KeyNamesCell(d);
    }
  }

  /**
   Once every request has been answered, whatever the order and however stale the
   mirror was: each cell one click away over the eager ranges is cached, unless an
   answer failed to bring it.
   */
  lemma OneClickAway<P(!new)>(
    shipped: CellMap<P>, first: Coord, events: seq<Event>, eager: seq<Range>, build: Builder<P>, next: Coord)
    requires BuiltCells(shipped, build)
    requires Run(Mount(shipped, first, eager), events, eager, build).inFlight == []
    requires InCross(Run(Mount(shipped, first, eager), events, eager, build).current, eager, next)
    ensures var panel := Run(Mount(shipped, first, eager), events, eager, build);
            || next in panel.failed
            || (CellKey(next) in panel.cache && panel.cache[CellKey(next)] == build(next))
  {
    hide Run, Mount, BuiltCells;
    MountKept(shipped, first, eager, build);
    RunKeeps(Mount(shipped, first, eager), events, eager, build);
    var panel := Run(Mount(shipped, first, eager), events, eager, build);
    assert Accounted(panel, next);
    if CellKey(next) in panel.cache {
      PayloadOf(panel.cache, build, next);
    }
  }

  lemma PayloadOf<P(!new)>(cache: CellMap<P>, build: Builder<P>, cell: Coord)
    requires BuiltCells(cache, build) && CellKey(cell) in cache
    ensures cache[CellKey(cell)] == build(cell)
  {
    hide CellKey;
    var c :| CellKey(c) == CellKey(cell) && cache[CellKey(cell)] == build(c);
    KeyNamesCell(c);
    KeyNamesCell(cell);
  }

  /** A run in which every request that ended was answered for a scope. */
  predicate NoFailure(events: seq<Event>) {
    forall e | e in events :: e.Answer? ==> e.outcome == Answered(true)
  }

  lemma {:induction false} NothingFailed<P(!new)>(
    shipped: CellMap<P>, first: Coord, events: seq<Event>, eager: seq<Range>, build: Builder<P>)
    requires BuiltCells(shipped, build) && NoFailure(events)
    ensures Run(Mount(shipped, first, eager), events, eager, build).failed == {}
  {
    hide Kept, Mount, Fetch, BuiltCells, Route, CellKey, Query;
    var start := Mount(shipped, first, eager);
    MountKept(shipped, first, eager, build);
    if events == [] {
      MountFailed(shipped, first, eager);
    } else {
      var n := |events| - 1;
      NothingFailed(shipped, first, events[..n], eager, build);
      RunKeeps(start, events[..n], eager, build);
      StepFailsNothing(Run(start, events[..n], eager, build), events[n], eager, build);
    }
  }

  lemma MountFailed<P>(shipped: CellMap<P>, first: Coord, eager: seq<Range>)
    ensures Mount(shipped, first, eager).failed == {}
  {
    hide Cross, Missing;
  }

  lemma StepFailsNothing<P(!new)>(panel: Panel<P>, event: Event, eager: seq<Range>, build: Builder<P>)
    requires Kept(panel, eager, build) && panel.failed == {}
    requires event.Answer? ==> event.outcome == Answered(true)
    ensures Step(panel, event, eager, build).failed == {}
  {
    hide CellKey, BuiltCells, InCross, Cross, Missing, Route, Query, BuildCells;
    if event.Answer? && event.request < |panel.inFlight| {
      var coords := panel.inFlight[event.request];
      RouteAnswers(coords, true, build);
      BuildCellsHold(coords, build);
    }
  }

  /** With no failure, once every request has been answered every cell one click away is cached. */
  lemma AlwaysOneClickAway<P(!new)>(
    shipped: CellMap<P>, first: Coord, events: seq<Event>, eager: seq<Range>, build: Builder<P>, next: Coord)
    requires BuiltCells(shipped, build) && NoFailure(events)
    requires Run(Mount(shipped, first, eager), events, eager, build).inFlight == []
    requires InCross(Run(Mount(shipped, first, eager), events, eager, build).current, eager, next)
    ensures var panel := Run(Mount(shipped, first, eager), events, eager, build);
            CellKey(next) in panel.cache && panel.cache[CellKey(next)] == build(next)
  {
    hide Run, Mount, BuiltCells, NoFailure;
    NothingFailed(shipped, first, events, eager, build);
    OneClickAway(shipped, first, events, eager, build, next);
  }

  // ------------------------------------------------------------- what was shipped

  /** Each key is some cell's. */
  ghost predicate CellKeys<P(!new)>(cells: CellMap<P>) {
    forall key | key in cells :: exists c :: CellKey(c) == key
  }

  /** The shipped payload where there is one, else the builder's. */
  function FirstShipped<P>(shipped: CellMap<P>, build: Builder<P>): Builder<P> {
    (c: Coord) => if CellKey(c) in shipped then shipped[CellKey(c)] else build(c)
  }

  /** No shipped cell was ever asked for. */
  ghost predicate Unasked<P(!new)>(panel: Panel<P>, shipped: CellMap<P>) {
    && shipped.Keys <= panel.mirror <= panel.cache.Keys
    && forall k :: 0 <= k < |panel.inFlight| ==>
         FairRequest(panel.inFlight[k]) && forall c | c in panel.inFlight[k] :: CellKey(c) !in shipped
  }

  lemma FetchUnasked<P(!new)>(panel: Panel<P>, coords: seq<Coord>, shipped: CellMap<P>)
    requires Unasked(panel, shipped) && Distinct(coords)
    ensures Unasked(Fetch(panel, coords), shipped)
  {
    hide CellKey, Missing;
    var missing := Missing(coords, panel.mirror);
    MissingHolds(coords, panel.mirror);
    if missing != [] {
      NoMoreThanTheMatrix(missing);
    }
  }

  lemma {:induction false} BuildCellsSame<P(!new)>(coords: seq<Coord>, a: Builder<P>, b: Builder<P>)
    requires forall c | c in coords :: a(c) == b(c)
    ensures BuildCells(coords, a) == BuildCells(coords, b)
  {
    if coords != [] {
      var n := |coords| - 1;
      assert coords[n] in coords && forall c | c in coords[..n] :: c in coords;
      BuildCellsSame(coords[..n], a, b);
    }
  }

  /** One event does the same with either builder, as no shipped cell is asked for. */
  lemma StepShipped<P(!new)>(panel: Panel<P>, event: Event, eager: seq<Range>, shipped: CellMap<P>, build: Builder<P>)
    requires Unasked(panel, shipped)
    ensures Step(panel, event, eager, build) == Step(panel, event, eager, FirstShipped(shipped, build))
    ensures Unasked(Step(panel, event, eager, build), shipped)
  {
    hide CellKey, FairRequest, Cross, Fetch, Route, Query, BuildCells;
    match event
    case Commit =>
    case Move(next) =>
      CrossHolds(next, eager);
      FetchUnasked(panel.(current := next), Cross(next, eager), shipped);
    case Miss => FetchUnasked(panel, [panel.current], shipped);
    case Answer(k, outcome) =>
      if k < |panel.inFlight| {
        var coords := panel.inFlight[k];
        var rest := Removed(panel.inFlight, k);
        assert forall j :: 0 <= j < |rest| ==> rest[j] == panel.inFlight[if j < k then j else j + 1];
        if outcome.Answered? {
          RouteAnswers(coords, outcome.scoped, build);
          RouteAnswers(coords, outcome.scoped, FirstShipped(shipped, build));
          BuildCellsSame(coords, build, FirstShipped(shipped, build));
        }
      }
  }

  lemma MountUnasked<P(!new)>(shipped: CellMap<P>, first: Coord, eager: seq<Range>)
    ensures Unasked(Mount(shipped, first, eager), shipped)
  {
    hide CellKey, FairRequest, Cross, Fetch;
    CrossHolds(first, eager);
    FetchUnasked(Panel(shipped, shipped.Keys, first, [], {}), Cross(first, eager), shipped);
  }

  lemma {:induction false} RunShipped<P(!new)>(
    shipped: CellMap<P>, first: Coord, events: seq<Event>, eager: seq<Range>, build: Builder<P>)
    ensures var start := Mount(shipped, first, eager);
      && Run(start, events, eager, build) == Run(start, events, eager, FirstShipped(shipped, build))
      && Unasked(Run(start, events, eager, build), shipped)
  {
    hide Step, Mount, Unasked;
    MountUnasked(shipped, first, eager);
    if events != [] {
      var n := |events| - 1;
      RunShipped(shipped, first, events[..n], eager, build);
      StepShipped(Run(Mount(shipped, first, eager), events[..n], eager, build), events[n], eager, shipped, build);
    }
  }

  lemma ShippedBuilt<P(!new)>(shipped: CellMap<P>, build: Builder<P>)
    requires CellKeys(shipped)
    ensures BuiltCells(shipped, FirstShipped(shipped, build))
  {
    hide CellKey;
    forall key | key in shipped ensures exists c :: CellKey(c) == key && shipped[key] == FirstShipped(shipped, build)(c) {
      var c :| CellKey(c) == key;
      assert shipped[key] == FirstShipped(shipped, build)(c);
    }
  }

  /**
   Whatever the page shipped, right or wrong, stays as it is over every run, and
   every other cached payload is the builder's: so the whole cache is the
   builder's exactly when what was shipped was.
   */
  lemma ShippedStays<P(!new)>(
    shipped: CellMap<P>, first: Coord, events: seq<Event>, eager: seq<Range>, build: Builder<P>)
    requires CellKeys(shipped)
    ensures var cache := Run(Mount(shipped, first, eager), events, eager, build).cache;
      && (forall key | key in shipped :: key in cache && cache[key] == shipped[key])
      && (forall c | CellKey(c) in cache && CellKey(c) !in shipped :: cache[CellKey(c)] == build(c))
      && (BuiltCells(cache, build) <==> BuiltCells(shipped, build))
  {
    hide Run, Mount, CellKey;
    var mixed := FirstShipped(shipped, build);
    var cache := Run(Mount(shipped, first, eager), events, eager, build).cache;
    ShippedBuilt(shipped, build);
    RunShipped(shipped, first, events, eager, build);
    CacheOverRuns(shipped, first, events, eager, mixed);
    forall key | key in cache ensures exists c :: CellKey(c) == key && cache[key] == mixed(c) {
    }
    forall key | key in shipped ensures key in cache && cache[key] == shipped[key] {
      var c :| CellKey(c) == key;
      PayloadOf(cache, mixed, c);
    }
    forall c | CellKey(c) in cache && CellKey(c) !in shipped ensures cache[CellKey(c)] == build(c) {
      PayloadOf(cache, mixed, c);
    }
    if BuiltCells(cache, build) {
      forall key | key in shipped ensures exists c :: CellKey(c) == key && shipped[key] == build(c) {
        var c :| CellKey(c) == key && cache[key] == build(c);
      }
    }
    if BuiltCells(shipped, build) {
      forall key | key in cache ensures exists c :: CellKey(c) == key && cache[key] == build(c) {
        if key in shipped {
          var c :| CellKey(c) == key && shipped[key] == build(c);
        } else {
          var c :| CellKey(c) == key && cache[key] == mixed(c);
        }
      }
    }
  }

  /** The ranges asked for ahead: the offered ones, all of them only when the page opened on `all`. */
  lemma {:induction false} EagerExactly(initial: Range, offered: seq<Range>, range: Range)
    ensures range in EagerRanges(initial, offered) <==> range in offered && (range != All || initial == All)
  {
    WithoutAllExactly(offered, range);
  }

  lemma {:induction false} WithoutAllExactly(ranges: seq<Range>, range: Range)
    ensures range in WithoutAll(ranges) <==> range in ranges && range != All
  {
    if ranges != [] {
      WithoutAllExactly(ranges[1..], range);
      assert ranges == [ranges[0]] + ranges[1..];
    }
  }
}
