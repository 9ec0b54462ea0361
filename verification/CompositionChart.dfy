/**
 The windows and the base points of the composition chart (`composition-chart.ts`
 of the domain): range cutoffs, the ranges worth offering and the series builder.
 */
module CompositionChart {
  import opened Text
  import opened Calendar
  import opened DateKeys
  import opened Sorting
  import opened DashboardMatrix

  // ------------------------------------------------------------- month keys

  /** `YYYY-MM`. */
  function MonthKey(date: Date): string
    requires Valid(date) && date.year >= 0
  {
    Padded(date.year, 4) + "-" + Padded(date.month, 2)
  }

  function MonthOf(date: Date): int {
    12 * date.year + date.month - 1
  }

  lemma MonthOrder(a: Date, b: Date)
    requires FourDigit(a) && FourDigit(b)
    ensures AtMost(MonthKey(a), MonthKey(b)) <==> MonthOf(a) <= MonthOf(b)
    ensures |MonthKey(a)| == 7
  {
    hide Padded, Less, MonthLength;
    SmallPowers();
    FieldOrder(a.year, b.year, 4);
    FieldOrder(a.month, b.month, 2);
    var ya, yb, ma, mb := Padded(a.year, 4), Padded(b.year, 4), Padded(a.month, 2), Padded(b.month, 2);
    FieldsOrder(ya, ma, yb, mb);
    KeyFields(ya, ma, "", yb, mb, "");
  }

  /** A date key starts with its month key. */
  lemma KeyOfMonth(date: Date)
    requires FourDigit(date)
    ensures |KeyText(date)| == 10 && KeyText(date)[..7] == MonthKey(date)
    ensures KeyText(date) == MonthKey(date) + "-" + Padded(date.day, 2)
  {
    hide Padded, MonthLength;
    FieldWidths(date);
  }

  // ----------------------------------------------------------------- ranges

  function RangeMonths(range: Range): nat
    requires range != All
  {
    match range
    case OneYear => 12
    case ThreeYears => 36
    case FiveYears => 60
  }

  /** The first day of the month a month number stands for. */
  function MonthDate(month: int): (date: Date)
    ensures Valid(date) && MonthOf(date) == month
  {
    Date(month / 12, month % 12 + 1, 1)
  }

  /** Today, in years whose ranges all start in a four-digit year. */
  predicate Recent(today: Date) {
    FourDigit(today) && today.year >= 1005
  }

  /** The month number a range starts at. */
  function StartMonth(today: Date, range: Range): int
    requires range != All
  {
    MonthOf(today) - (RangeMonths(range) - 1)
  }

  /** The inclusive earliest month key of a range, none for the whole history. */
  function RangeStartMonthKey(today: Date, range: Range): Option<string>
    requires Recent(today)
  {
    if range == All then None
    else
      var start := StartMonth(today, range);
      Some(Dec(start / 12) + "-" + Padded(start % 12 + 1, 2))
  }

  lemma RangeStartIsMonthKey(today: Date, range: Range)
    requires Recent(today) && range != All
    ensures FourDigit(MonthDate(StartMonth(today, range)))
    ensures RangeStartMonthKey(today, range) == Some(MonthKey(MonthDate(StartMonth(today, range))))
  {
    hide Padded, Dec, MonthLength;
    var year := StartMonth(today, range) / 12;
    assert Pow10(3) == 1000;
    SmallPowers();
    DecLength(year, 3);
    DecLength(year, 4);
    PaddedReads(year, 4);
    FourDigitsPlain(year);
  }

  lemma FourDigitsPlain(n: nat)
    requires |Dec(n)| == 4
    ensures Padded(n, 4) == Dec(n)
  {
    assert Zeros(0) + Dec(n) == Dec(n);
  }

  /** The date is inside the range's window. */
  predicate InWindow(date: Date, today: Date, range: Range) {
    range == All || MonthOf(date) >= StartMonth(today, range)
  }

  /** The cutoff test on keys is the window test on months. */
  lemma WindowByKeys(date: Date, today: Date, range: Range)
    requires Recent(today) && FourDigit(date) && range != All
    ensures AtMost(RangeStartMonthKey(today, range).value, KeyText(date)[..7]) <==> InWindow(date, today, range)
    ensures AtMost(RangeStartMonthKey(today, range).value + "-01", KeyText(date)) <==> InWindow(date, today, range)
  {
    hide KeyText, MonthKey, Less, RangeStartMonthKey, MonthLength, Padded;
    RangeStartIsMonthKey(today, range);
    var start := MonthDate(StartMonth(today, range));
    KeyOfMonth(date);
    KeyOfMonth(start);
    MonthOrder(start, date);
    FirstDay(start);
    KeyOrder(start, date);
    FromMonthStart(start, date);
  }

  lemma FirstDay(start: Date)
    requires FourDigit(start) && start.day == 1
    ensures KeyText(start) == MonthKey(start) + "-01"
  {
    assert Padded(1, 2) == "01" by {
      assert Dec(1) == "1";
      assert Zeros(1) == "0";
    }
    assert MonthKey(start) + "-" + "01" == MonthKey(start) + "-01";
  }

  /** A day is no earlier than the first of a month exactly when its month is no earlier. */
  lemma FromMonthStart(start: Date, date: Date)
    requires Valid(start) && Valid(date) && start.day == 1
    ensures DaysOf(start) <= DaysOf(date) <==> MonthOf(start) <= MonthOf(date)
  {
    hide YearStart, MonthStart, MonthLength, DaysOf;
    DaysOfOrder(date, start);
  }

  /** A longer range starts no later: whatever a shorter window keeps, a longer one keeps. */
  lemma LongerRangeKeepsMore(date: Date, today: Date, shorter: Range, longer: Range)
    requires Rank(shorter) <= Rank(longer) && InWindow(date, today, shorter)
    ensures InWindow(date, today, longer)
  {
  }

  function Rank(range: Range): nat {
    match range
    case OneYear => 0
    case ThreeYears => 1
    case FiveYears => 2
    case All => 3
  }

  /** The ranges worth offering: the bounded ones the history exceeds, and always all of it. */
  function AvailableRanges(spanMonths: int): seq<Range> {
    (if 12 < spanMonths then [OneYear] else [])
      + (if 36 < spanMonths then [ThreeYears] else [])
      + (if 60 < spanMonths then [FiveYears] else [])
      + [All]
  }

  // ----------------------------------------------------------- series builder

  datatype Snapshot = Snapshot(date: Date)

  /** A frozen holding row, with what the bands are derived from. */
  datatype Row = Row(date: Date, holdingId: string, valueMinor: int)

  type KeyedSnapshot = s: Snapshot | FourDigit(s.date) witness Snapshot(Date(1970, 1, 1))
  type KeyedRow = r: Row | FourDigit(r.date) witness Row(Date(1970, 1, 1), "", 0)

  datatype Granularity = ByMonth | ByQuarter | ByYear

  function GranularityFor(spanMonths: int): Granularity {
    if spanMonths <= 36 then ByMonth else if spanMonths <= 84 then ByQuarter else ByYear
  }

  function PeriodKey(date: Date, granularity: Granularity): string
    requires FourDigit(date)
  {
    var key := KeyText(date);
    KeyOfMonth(date);
    match granularity
    case ByYear => key[..4]
    case ByQuarter => key[..4] + "-Q" + Dec((date.month + 2) / 3)
    case ByMonth => key[..7]
  }

  /** A base point chosen for a period. */
  datatype Entry = Entry(period: string, date: Date)

  /** `map.set`: a period met again keeps its place and takes the later date. */
  function PutPeriod(entries: seq<Entry>, entry: Entry): seq<Entry> {
    if entries == [] then [entry]
    else if entries[0].period == entry.period then [entry] + entries[1..]
    else [entries[0]] + PutPeriod(entries[1..], entry)
  }

  function LastByPeriod(ordered: seq<KeyedSnapshot>, granularity: Granularity): seq<Entry> {
    if ordered == [] then []
    else
      var last := ordered[|ordered| - 1];
      PutPeriod(LastByPeriod(ordered[..|ordered| - 1], granularity), Entry(PeriodKey(last.date, granularity), last.date))
  }

  function SnapshotOrder(): (KeyedSnapshot, KeyedSnapshot) -> bool {
    (a: KeyedSnapshot, b: KeyedSnapshot) => AtMost(KeyText(a.date), KeyText(b.date))
  }

  function PeriodOrder(): (Entry, Entry) -> bool {
    (a: Entry, b: Entry) => AtMost(a.period, b.period)
  }

  function PeriodicSeries(snapshots: seq<KeyedSnapshot>, granularity: Granularity): seq<Entry> {
    Sort(LastByPeriod(Sort(snapshots, SnapshotOrder()), granularity), PeriodOrder())
  }

  function SnapshotIn(today: Date, range: Range): KeyedSnapshot -> bool
    requires Recent(today)
  {
    (s: KeyedSnapshot) =>
      match RangeStartMonthKey(today, range)
      case None => true
      case Some(cutoff) => AtMost(cutoff, MonthKey(s.date))
  }

  /** The widest distance in months among the snapshots. */
  function MaxMonth(snapshots: seq<KeyedSnapshot>): int
    requires snapshots != []
  {
    var first := MonthOf(snapshots[0].date);
    if |snapshots| == 1 then first
    else var rest := MaxMonth(snapshots[1..]); if first > rest then first else rest
  }

  function MinMonth(snapshots: seq<KeyedSnapshot>): int
    requires snapshots != []
  {
    var first := MonthOf(snapshots[0].date);
    if |snapshots| == 1 then first
    else var rest := MinMonth(snapshots[1..]); if first < rest then first else rest
  }

  function SpanMonths(snapshots: seq<KeyedSnapshot>): int {
    if snapshots == [] then 0 else MaxMonth(snapshots) - MinMonth(snapshots)
  }

  function OnDate(date: Date): KeyedRow -> bool {
    (r: KeyedRow) => r.date == date
  }

  /** The rows of a day, in the order they were read. */
  function RowsOn(rows: seq<KeyedRow>, date: Date): seq<KeyedRow> {
    Filter(rows, OnDate(date))
  }

  datatype Point<B> = Point(date: Date, isOpenPeriod: bool, bands: B)

  /** The entries with rows, each with the bands of exactly its day's rows. */
  function Points<B>(
    entries: seq<Entry>, rows: seq<KeyedRow>, openPeriod: string, bands: seq<KeyedRow> -> B): seq<Point<B>>
  {
    if entries == [] then []
    else
      var n := |entries| - 1;
      var day := RowsOn(rows, entries[n].date);
      Points(entries[..n], rows, openPeriod, bands)
        + if day == [] then []
          else [Point(entries[n].date, AtMost(openPeriod, entries[n].period), bands(day))]
  }

  /** The density a range is drawn at: that of the span of the snapshots it keeps. */
  function Density(snapshots: seq<KeyedSnapshot>, today: Date, range: Range): Granularity
    requires Recent(today)
  {
    GranularityFor(SpanMonths(Filter(snapshots, SnapshotIn(today, range))))
  }

  /** The days a range may plot, rows or no rows. */
  function BasePoints(snapshots: seq<KeyedSnapshot>, today: Date, range: Range): seq<Entry>
    requires Recent(today)
  {
    PeriodicSeries(Filter(snapshots, SnapshotIn(today, range)), Density(snapshots, today, range))
  }

  function BuildSeries<B>(
    snapshots: seq<KeyedSnapshot>, rows: seq<KeyedRow>, today: Date, range: Range, bands: seq<KeyedRow> -> B): seq<Point<B>>
    requires Recent(today)
  {
    Points(BasePoints(snapshots, today, range), rows, PeriodKey(today, Density(snapshots, today, range)), bands)
  }

  lemma {:induction false} PutPeriodHolds(entries: seq<Entry>, entry: Entry)
    ensures forall e | e in PutPeriod(entries, entry) :: e == entry || e in entries
  {
    if entries != [] {
      PutPeriodHolds(entries[1..], entry);
    }
  }

  /** Every base point is the day of some snapshot. */
  lemma {:induction false} EntriesAreSnapshots(ordered: seq<KeyedSnapshot>, granularity: Granularity)
    ensures forall e | e in LastByPeriod(ordered, granularity) :: exists s :: s in ordered && s.date == e.date
  {
    hide PeriodKey;
    if ordered != [] {
      var n := |ordered| - 1;
      var before := LastByPeriod(ordered[..n], granularity);
      EntriesAreSnapshots(ordered[..n], granularity);
      PutPeriodHolds(before, Entry(PeriodKey(ordered[n].date, granularity), ordered[n].date));
      assert forall s | s in ordered[..n] :: s in ordered;
    }
  }

  lemma SeriesAreSnapshots(snapshots: seq<KeyedSnapshot>, granularity: Granularity)
    ensures forall e | e in PeriodicSeries(snapshots, granularity) :: exists s :: s in snapshots && s.date == e.date
  {
    hide Sort, LastByPeriod;
    var ordered := Sort(snapshots, SnapshotOrder());
    var last := LastByPeriod(ordered, granularity);
    EntriesAreSnapshots(ordered, granularity);
    SortPermutes(snapshots, SnapshotOrder());
    SameElements(ordered, snapshots);
    SortPermutes(last, PeriodOrder());
    SameElements(Sort(last, PeriodOrder()), last);
  }

  lemma {:induction false} PointsSame<B>(
    entries: seq<Entry>, rows: seq<KeyedRow>, others: seq<KeyedRow>, openPeriod: string, bands: seq<KeyedRow> -> B)
    requires forall e | e in entries :: RowsOn(rows, e.date) == RowsOn(others, e.date)
    ensures Points(entries, rows, openPeriod, bands) == Points(entries, others, openPeriod, bands)
  {
    hide RowsOn;
    if entries != [] {
      var n := |entries| - 1;
      assert entries[n] in entries && forall e | e in entries[..n] :: e in entries;
      PointsSame(entries[..n], rows, others, openPeriod, bands);
    }
  }

  /** Every base point is a day of its range's window. */
  lemma BasePointsInWindow(snapshots: seq<KeyedSnapshot>, today: Date, range: Range)
    requires Recent(today)
    ensures forall e | e in BasePoints(snapshots, today, range) :: FourDigit(e.date) && InWindow(e.date, today, range)
  {
    hide PeriodicSeries, Filter, RangeStartMonthKey, MonthKey, AtMost, Density;
    var windowed := Filter(snapshots, SnapshotIn(today, range));
    SeriesAreSnapshots(windowed, Density(snapshots, today, range));
    FilterMembers(snapshots, SnapshotIn(today, range));
    forall e | e in BasePoints(snapshots, today, range) ensures FourDigit(e.date) && InWindow(e.date, today, range) {
      var s: KeyedSnapshot :| s in windowed && s.date == e.date;
      WindowedSnapshot(s, today, range);
    }
  }

  /** The series reads only the rows of days in its window. */
  lemma SeriesReadsItsWindow<B>(
    snapshots: seq<KeyedSnapshot>, rows: seq<KeyedRow>, others: seq<KeyedRow>, today: Date, range: Range,
    bands: seq<KeyedRow> -> B)
    requires Recent(today)
    requires forall date | FourDigit(date) && InWindow(date, today, range) :: RowsOn(rows, date) == RowsOn(others, date)
    ensures BuildSeries(snapshots, rows, today, range, bands) == BuildSeries(snapshots, others, today, range, bands)
  {
    hide RowsOn, Points, BasePoints, PeriodKey, InWindow, FourDigit;
    BasePointsInWindow(snapshots, today, range);
    PointsSame(BasePoints(snapshots, today, range), rows, others, PeriodKey(today, Density(snapshots, today, range)), bands);
  }

  /** Bands that show the rows they are made from. */
  function AllRows(): seq<KeyedRow> -> seq<KeyedRow> {
    (rows: seq<KeyedRow>) => rows
  }

  /** Exactly the days with rows are plotted, each with its rows. */
  lemma {:induction false} PointsShow(entries: seq<Entry>, rows: seq<KeyedRow>, openPeriod: string)
    ensures forall p | p in Points(entries, rows, openPeriod, AllRows()) :: p.bands == RowsOn(rows, p.date) && p.bands != []
    ensures forall e | e in entries && RowsOn(rows, e.date) != [] ::
      exists p :: p in Points(entries, rows, openPeriod, AllRows()) && p.date == e.date
  {
    hide RowsOn, AtMost;
    if entries != [] {
      var n := |entries| - 1;
      var before := Points(entries[..n], rows, openPeriod, AllRows());
      PointsShow(entries[..n], rows, openPeriod);
      assert forall e | e in entries :: e in entries[..n] || e == entries[n];
      var day := RowsOn(rows, entries[n].date);
      if day != [] {
        var point := Point(entries[n].date, AtMost(openPeriod, entries[n].period), day);
        assert Points(entries, rows, openPeriod, AllRows()) == before + [point];
        assert point in before + [point];
        assert forall p | p in before :: p in before + [point];
      }
    }
  }

  lemma PointsDiffer(entries: seq<Entry>, rows: seq<KeyedRow>, others: seq<KeyedRow>, openPeriod: string, e: Entry)
    requires e in entries && RowsOn(rows, e.date) != [] && RowsOn(rows, e.date) != RowsOn(others, e.date)
    ensures Points(entries, rows, openPeriod, AllRows()) != Points(entries, others, openPeriod, AllRows())
  {
    hide RowsOn, Points;
    PointsShow(entries, rows, openPeriod);
    PointsShow(entries, others, openPeriod);
    var p :| p in Points(entries, rows, openPeriod, AllRows()) && p.date == e.date;
  }

  /** Two sets of rows give the same series, rows shown, exactly when they agree on every day it may plot. */
  lemma SeriesExactly(
    snapshots: seq<KeyedSnapshot>, rows: seq<KeyedRow>, others: seq<KeyedRow>, today: Date, range: Range)
    requires Recent(today)
    ensures BuildSeries(snapshots, rows, today, range, AllRows()) == BuildSeries(snapshots, others, today, range, AllRows())
      <==> forall e | e in BasePoints(snapshots, today, range) :: RowsOn(rows, e.date) == RowsOn(others, e.date)
  {
    hide RowsOn, Points, BasePoints, PeriodKey, AllRows, Density;
    var entries := BasePoints(snapshots, today, range);
    var openPeriod := PeriodKey(today, Density(snapshots, today, range));
    if e :| e in entries && RowsOn(rows, e.date) != RowsOn(others, e.date) {
      if RowsOn(rows, e.date) != [] {
        PointsDiffer(entries, rows, others, openPeriod, e);
      } else {
        PointsDiffer(entries, others, rows, openPeriod, e);
      }
    } else {
      PointsSame(entries, rows, others, openPeriod, AllRows());
    }
  }

  lemma WindowedSnapshot(s: KeyedSnapshot, today: Date, range: Range)
    requires Recent(today) && SnapshotIn(today, range)(s)
    ensures InWindow(s.date, today, range)
  {
    hide RangeStartMonthKey, MonthKey, AtMost, KeyText;
    if range != All {
      RangeStartIsMonthKey(today, range);
      KeyOfMonth(s.date);
      WindowByKeys(s.date, today, range);
    } else {
      AllStarts(today);
    }
  }

  lemma AllStarts(today: Date)
    requires Recent(today)
    ensures RangeStartMonthKey(today, All) == None
  {
  }

  // ---------------------------------------------------------- what it all says

  /** A bounded range holds the months it is named for, today's the last: twelve, thirty-six, sixty. */
  lemma RangeHoldsItsMonths(date: Date, today: Date)
    ensures InWindow(date, today, OneYear) <==> MonthOf(today) - MonthOf(date) < 12
    ensures InWindow(date, today, ThreeYears) <==> MonthOf(today) - MonthOf(date) < 36
    ensures InWindow(date, today, FiveYears) <==> MonthOf(today) - MonthOf(date) < 60
    ensures InWindow(date, today, All)
  {
  }

  /** A bounded range is on offer exactly when the history spans more months than it holds; all of it always is. */
  lemma OfferedExactly(spanMonths: int)
    ensures OneYear in AvailableRanges(spanMonths) <==> spanMonths > 12
    ensures ThreeYears in AvailableRanges(spanMonths) <==> spanMonths > 36
    ensures FiveYears in AvailableRanges(spanMonths) <==> spanMonths > 60
    ensures All in AvailableRanges(spanMonths)
  {
    var offered := AvailableRanges(spanMonths);
    assert offered[|offered| - 1] == All;
    assert spanMonths > 12 ==> offered[0] == OneYear;
    assert spanMonths > 36 ==> offered[1] == ThreeYears;
    assert spanMonths > 60 ==> offered[2] == FiveYears;
  }

  /** The widest distance between two snapshots, and no wider. */
  lemma SpanIsWidest(snapshots: seq<KeyedSnapshot>)
    requires snapshots != []
    ensures forall a, b | a in snapshots && b in snapshots :: MonthOf(a.date) - MonthOf(b.date) <= SpanMonths(snapshots)
    ensures exists a, b :: a in snapshots && b in snapshots && MonthOf(a.date) - MonthOf(b.date) == SpanMonths(snapshots)
  {
    var a := MaxMonthIs(snapshots);
    var b := MinMonthIs(snapshots);
    assert MonthOf(a.date) - MonthOf(b.date) == SpanMonths(snapshots);
  }

  lemma {:induction false} MaxMonthIs(snapshots: seq<KeyedSnapshot>) returns (a: KeyedSnapshot)
    requires snapshots != []
    ensures a in snapshots && MonthOf(a.date) == MaxMonth(snapshots)
    ensures forall s | s in snapshots :: MonthOf(s.date) <= MaxMonth(snapshots)
  {
    a := snapshots[0];
    assert snapshots == [snapshots[0]] + snapshots[1..];
    if |snapshots| > 1 {
      var rest := MaxMonthIs(snapshots[1..]);
      if MonthOf(a.date) <= MaxMonth(snapshots[1..]) {
        a := rest;
      }
    }
  }

  lemma {:induction false} MinMonthIs(snapshots: seq<KeyedSnapshot>) returns (b: KeyedSnapshot)
    requires snapshots != []
    ensures b in snapshots && MonthOf(b.date) == MinMonth(snapshots)
    ensures forall s | s in snapshots :: MonthOf(s.date) >= MinMonth(snapshots)
  {
    b := snapshots[0];
    assert snapshots == [snapshots[0]] + snapshots[1..];
    if |snapshots| > 1 {
      var rest := MinMonthIs(snapshots[1..]);
      if MonthOf(b.date) >= MinMonth(snapshots[1..]) {
        b := rest;
      }
    }
  }

  /** Up to three years by month, up to seven by quarter, beyond by year. */
  lemma DensityBySpan(spanMonths: int)
    ensures GranularityFor(spanMonths) == ByMonth <==> spanMonths <= 3 * 12
    ensures GranularityFor(spanMonths) == ByQuarter <==> 3 * 12 < spanMonths <= 7 * 12
    ensures GranularityFor(spanMonths) == ByYear <==> 7 * 12 < spanMonths
  {
  }

  /** The number of a date's period. */
  function PeriodOf(date: Date, granularity: Granularity): int {
    match granularity
    case ByMonth => 12 * date.year + date.month - 1
    case ByQuarter => 4 * date.year + (date.month - 1) / 3
    case ByYear => date.year
  }

  /** Period keys order as the periods they stand for. */
  lemma PeriodKeysOrder(a: Date, b: Date, granularity: Granularity)
    requires FourDigit(a) && FourDigit(b)
    ensures AtMost(PeriodKey(a, granularity), PeriodKey(b, granularity)) <==> PeriodOf(a, granularity) <= PeriodOf(b, granularity)
    ensures PeriodKey(a, granularity) == PeriodKey(b, granularity) <==> PeriodOf(a, granularity) == PeriodOf(b, granularity)
  {
    hide KeyText, MonthKey, Less, Padded, Dec;
    KeyOfMonth(a);
    KeyOfMonth(b);
    match granularity
    case ByMonth =>
      MonthOrder(a, b);
      MonthOrder(b, a);
      SameMonthKey(a, b);
    case ByQuarter =>
      QuarterKeysOrder(a, b);
    case ByYear =>
      YearPart(a);
      YearPart(b);
      SmallPowers();
      FieldOrder(a.year, b.year, 4);
  }

  lemma SameMonthKey(a: Date, b: Date)
    requires FourDigit(a) && FourDigit(b)
    ensures MonthKey(a) == MonthKey(b) <==> MonthOf(a) == MonthOf(b)
  {
    hide Padded;
    SmallPowers();
    FieldOrder(a.year, b.year, 4);
    FieldOrder(a.month, b.month, 2);
    KeyFields(Padded(a.year, 4), Padded(a.month, 2), "", Padded(b.year, 4), Padded(b.month, 2), "");
  }

  lemma YearPart(date: Date)
    requires FourDigit(date)
    ensures |KeyText(date)| == 10 && KeyText(date)[..4] == Padded(date.year, 4) && |Padded(date.year, 4)| == 4
  {
    hide Padded;
    FieldWidths(date);
  }

  lemma QuarterKeysOrder(a: Date, b: Date)
    requires FourDigit(a) && FourDigit(b)
    ensures AtMost(PeriodKey(a, ByQuarter), PeriodKey(b, ByQuarter)) <==> PeriodOf(a, ByQuarter) <= PeriodOf(b, ByQuarter)
    ensures PeriodKey(a, ByQuarter) == PeriodKey(b, ByQuarter) <==> PeriodOf(a, ByQuarter) == PeriodOf(b, ByQuarter)
  {
    hide KeyText, Padded, Dec, Less;
    YearPart(a);
    YearPart(b);
    SmallPowers();
    FieldOrder(a.year, b.year, 4);
    var ya, yb := Padded(a.year, 4), Padded(b.year, 4);
    var qa, qb := (a.month + 2) / 3, (b.month + 2) / 3;
    QuarterDigits(qa, qb);
    assert PeriodKey(a, ByQuarter) == ya + "-Q" + Dec(qa) && PeriodKey(b, ByQuarter) == yb + "-Q" + Dec(qb);
    assert ya + "-Q" + Dec(qa) == ya + "-" + ("Q" + Dec(qa)) && yb + "-Q" + Dec(qb) == yb + "-" + ("Q" + Dec(qb));
    FieldsOrder(ya, "Q" + Dec(qa), yb, "Q" + Dec(qb));
    KeyFields(ya, "Q" + Dec(qa), "", yb, "Q" + Dec(qb), "");
    assert qa == (a.month - 1) / 3 + 1 && qb == (b.month - 1) / 3 + 1;
  }

  lemma QuarterDigits(a: nat, b: nat)
    requires 1 <= a <= 4 && 1 <= b <= 4
    ensures |Dec(a)| == 1 == |Dec(b)|
    ensures Less("Q" + Dec(a), "Q" + Dec(b)) <==> a < b
    ensures "Q" + Dec(a) == "Q" + Dec(b) <==> a == b
  {
    assert Dec(1) == "1" && Dec(2) == "2" && Dec(3) == "3" && Dec(4) == "4";
    LessSamePrefix("Q", Dec(a), Dec(b));
    assert ("Q" + Dec(a))[1..] == Dec(a) && ("Q" + Dec(b))[1..] == Dec(b);
    OneCharLess(Dec(a), Dec(b));
  }

  lemma OneCharLess(a: string, b: string)
    requires |a| == 1 == |b|
    ensures Less(a, b) <==> a[0] < b[0]
  {
    assert a[1..] == "" && b[1..] == "";
  }

  // ---- the closes

  /** The entry is the snapshot's. */
  predicate IsOf(e: Entry, s: KeyedSnapshot, granularity: Granularity) {
    s.date == e.date && PeriodKey(s.date, granularity) == e.period
  }

  /** The entry is of the snapshot's period, and no earlier. */
  predicate Closes(e: Entry, s: KeyedSnapshot, granularity: Granularity) {
    e.period == PeriodKey(s.date, granularity) && !Before(e.date, s.date)
  }

  predicate OfDifferentPeriods(entries: seq<Entry>) {
    forall i, j :: 0 <= i < j < |entries| ==> entries[i].period != entries[j].period
  }

  /** Every entry is some snapshot's. */
  ghost predicate FromSnapshots(entries: seq<Entry>, snapshots: set<KeyedSnapshot>, granularity: Granularity) {
    forall e | e in entries :: exists s: KeyedSnapshot :: s in snapshots && IsOf(e, s, granularity)
  }

  /** Every snapshot's period has an entry no earlier. */
  ghost predicate AllClosed(entries: seq<Entry>, snapshots: set<KeyedSnapshot>, granularity: Granularity) {
    forall s: KeyedSnapshot | s in snapshots :: exists e :: e in entries && Closes(e, s, granularity)
  }

  function Among(snapshots: seq<KeyedSnapshot>): set<KeyedSnapshot> {
    set s | s in snapshots
  }

  lemma DifferentTail(entries: seq<Entry>)
    requires entries != []
    ensures OfDifferentPeriods(entries) <==> OfDifferentPeriods(entries[1..]) && forall e | e in entries[1..] :: e.period != entries[0].period
  {
    var rest := entries[1..];
    assert forall i :: 0 <= i < |rest| ==> rest[i] == entries[i + 1];
    assert OfDifferentPeriods(entries) ==> forall e | e in rest :: e.period != entries[0].period;
  }

  lemma {:induction false} PutPeriodPuts(entries: seq<Entry>, entry: Entry)
    requires OfDifferentPeriods(entries)
    ensures OfDifferentPeriods(PutPeriod(entries, entry))
    ensures forall e :: e in PutPeriod(entries, entry) <==> e == entry || (e in entries && e.period != entry.period)
  {
    hide OfDifferentPeriods;
    if entries == [] {
      OneEntry(entry);
    } else {
      DifferentTail(entries);
      PutPeriodPuts(entries[1..], entry);
      assert entries == [entries[0]] + entries[1..];
      var put := PutPeriod(entries, entry);
      assert put[1..] == if entries[0].period == entry.period then entries[1..] else PutPeriod(entries[1..], entry);
      DifferentTail(put);
    }
  }

  lemma OneEntry(entry: Entry)
    ensures OfDifferentPeriods([entry])
  {
  }

  lemma ClosesItsPeriod(e: Entry, s: KeyedSnapshot, granularity: Granularity)
    requires Closes(e, s, granularity)
    ensures e.period == PeriodKey(s.date, granularity)
  {
  }

  lemma PutClose(entries: seq<Entry>, entry: Entry, s: KeyedSnapshot, granularity: Granularity)
    requires OfDifferentPeriods(entries)
    requires PeriodKey(s.date, granularity) == entry.period ==> Closes(entry, s, granularity)
    requires PeriodKey(s.date, granularity) != entry.period ==> exists e :: e in entries && Closes(e, s, granularity)
    ensures exists e :: e in PutPeriod(entries, entry) && Closes(e, s, granularity)
  {
    hide PeriodKey, OfDifferentPeriods, PutPeriod, Closes;
    PutPeriodPuts(entries, entry);
    if PeriodKey(s.date, granularity) == entry.period {
      assert entry in PutPeriod(entries, entry);
    } else {
      var e :| e in entries && Closes(e, s, granularity);
      ClosesItsPeriod(e, s, granularity);
      assert e in PutPeriod(entries, entry);
    }
  }

  /** A later snapshot's entry takes its period's place. */
  lemma PutLast(entries: seq<Entry>, entry: Entry, snapshots: set<KeyedSnapshot>, last: KeyedSnapshot, granularity: Granularity)
    requires FromSnapshots(entries, snapshots, granularity) && AllClosed(entries, snapshots, granularity)
    requires OfDifferentPeriods(entries) && IsOf(entry, last, granularity) && Closes(entry, last, granularity)
    requires forall s: KeyedSnapshot | s in snapshots && PeriodKey(s.date, granularity) == entry.period ::
      Closes(entry, s, granularity)
    ensures FromSnapshots(PutPeriod(entries, entry), snapshots + {last}, granularity)
    ensures AllClosed(PutPeriod(entries, entry), snapshots + {last}, granularity)
    ensures OfDifferentPeriods(PutPeriod(entries, entry))
  {
    hide FromSnapshots, AllClosed, OfDifferentPeriods, PutPeriod, PeriodKey, Closes, IsOf;
    PutPeriodPuts(entries, entry);
    PutFrom(entries, entry, snapshots, last, granularity);
    PutCloses(entries, entry, snapshots, last, granularity);
  }

  lemma PutFrom(entries: seq<Entry>, entry: Entry, snapshots: set<KeyedSnapshot>, last: KeyedSnapshot, granularity: Granularity)
    requires FromSnapshots(entries, snapshots, granularity) && OfDifferentPeriods(entries) && IsOf(entry, last, granularity)
    ensures FromSnapshots(PutPeriod(entries, entry), snapshots + {last}, granularity)
  {
    hide PeriodKey, OfDifferentPeriods, PutPeriod, IsOf;
    PutPeriodPuts(entries, entry);
    forall e | e in PutPeriod(entries, entry) ensures exists s: KeyedSnapshot :: s in snapshots + {last} && IsOf(e, s, granularity) {
      if e == entry {
        assert last in snapshots + {last};
      } else {
        var s: KeyedSnapshot :| s in snapshots && IsOf(e, s, granularity);
        assert s in snapshots + {last};
      }
    }
  }

  lemma PutCloses(entries: seq<Entry>, entry: Entry, snapshots: set<KeyedSnapshot>, last: KeyedSnapshot, granularity: Granularity)
    requires AllClosed(entries, snapshots, granularity) && OfDifferentPeriods(entries) && Closes(entry, last, granularity)
    requires forall s: KeyedSnapshot | s in snapshots && PeriodKey(s.date, granularity) == entry.period ::
      Closes(entry, s, granularity)
    ensures AllClosed(PutPeriod(entries, entry), snapshots + {last}, granularity)
  {
    hide PeriodKey, OfDifferentPeriods, PutPeriod, Closes;
    PutPeriodPuts(entries, entry);
    forall s: KeyedSnapshot | s in snapshots + {last}
      ensures exists e :: e in PutPeriod(entries, entry) && Closes(e, s, granularity)
    {
      if s == last {
        assert entry in PutPeriod(entries, entry);
      } else {
        PutClose(entries, entry, s, granularity);
      }
    }
  }

  ghost predicate DayOrdered(ordered: seq<KeyedSnapshot>) {
    forall i, j :: 0 <= i < j < |ordered| ==> !Before(ordered[j].date, ordered[i].date)
  }

  /** The last snapshot of each period, by date, wins. */
  lemma {:induction false} LastWins(ordered: seq<KeyedSnapshot>, granularity: Granularity)
    requires DayOrdered(ordered)
    ensures FromSnapshots(LastByPeriod(ordered, granularity), Among(ordered), granularity)
    ensures AllClosed(LastByPeriod(ordered, granularity), Among(ordered), granularity)
    ensures OfDifferentPeriods(LastByPeriod(ordered, granularity))
  {
    hide PeriodKey, Before, OfDifferentPeriods, FromSnapshots, AllClosed, PutPeriod;
    if ordered == [] {
      NoEntries(granularity);
    } else {
      var n := |ordered| - 1;
      var last := ordered[n];
      var entry := Entry(PeriodKey(last.date, granularity), last.date);
      LastWins(ordered[..n], granularity);
      assert ordered == ordered[..n] + [last];
      assert Among(ordered) == Among(ordered[..n]) + {last};
      EntryCloses(ordered, entry, granularity);
      PutLast(LastByPeriod(ordered[..n], granularity), entry, Among(ordered[..n]), last, granularity);
    }
  }

  lemma NoEntries(granularity: Granularity)
    ensures FromSnapshots([], Among([]), granularity) && AllClosed([], Among([]), granularity) && OfDifferentPeriods([])
  {
  }

  /** The last of some ordered snapshots closes its period for all of them. */
  lemma EntryCloses(ordered: seq<KeyedSnapshot>, entry: Entry, granularity: Granularity)
    requires ordered != [] && DayOrdered(ordered) && IsOf(entry, ordered[|ordered| - 1], granularity)
    ensures forall s: KeyedSnapshot | s in ordered && PeriodKey(s.date, granularity) == entry.period :: Closes(entry, s, granularity)
  {
    hide PeriodKey;
    forall s: KeyedSnapshot | s in ordered && PeriodKey(s.date, granularity) == entry.period ensures Closes(entry, s, granularity) {
      var i :| 0 <= i < |ordered| && ordered[i] == s;
      assert i < |ordered| - 1 || s == ordered[|ordered| - 1];
    }
  }

  lemma SortedDays(snapshots: seq<KeyedSnapshot>)
    ensures DayOrdered(Sort(snapshots, SnapshotOrder()))
    ensures Among(Sort(snapshots, SnapshotOrder())) == Among(snapshots)
  {
    hide Sort, KeyText, AtMost, DaysOf, Before;
    forall a: KeyedSnapshot, b: KeyedSnapshot
      ensures SnapshotOrder()(a, b) <==> DaysOf(a.date) <= DaysOf(b.date)
      ensures SnapshotOrder()(a, b) <==> !Before(b.date, a.date)
    {
      KeyOrder(a.date, b.date);
      DaysOfOrder(b.date, a.date);
    }
    SortSorts(snapshots, SnapshotOrder());
    SortPermutes(snapshots, SnapshotOrder());
    SameElements(Sort(snapshots, SnapshotOrder()), snapshots);
  }

  /** The snapshots a range keeps. */
  function KeptSnapshots(snapshots: seq<KeyedSnapshot>, today: Date, range: Range): set<KeyedSnapshot> {
    set s | s in snapshots && InWindow(s.date, today, range)
  }

  /**
   The base points of a range are the closes of its periods: each is the latest
   snapshot of its period among those the range keeps, and each period kept has
   exactly one.
   */
  lemma BasePointsAreCloses(snapshots: seq<KeyedSnapshot>, today: Date, range: Range)
    requires Recent(today)
    ensures FromSnapshots(BasePoints(snapshots, today, range), KeptSnapshots(snapshots, today, range), Density(snapshots, today, range))
    ensures AllClosed(BasePoints(snapshots, today, range), KeptSnapshots(snapshots, today, range), Density(snapshots, today, range))
    ensures OfDifferentPeriods(BasePoints(snapshots, today, range))
  {
    hide Sort, LastByPeriod, PeriodKey, Filter, SnapshotIn, Density, InWindow, IsOf, Closes, OfDifferentPeriods, PeriodOrder;
    var g := Density(snapshots, today, range);
    var windowed := Filter(snapshots, SnapshotIn(today, range));
    var ordered := Sort(windowed, SnapshotOrder());
    var last := LastByPeriod(ordered, g);
    FilterMembers(snapshots, SnapshotIn(today, range));
    forall s: KeyedSnapshot ensures SnapshotIn(today, range)(s) <==> InWindow(s.date, today, range) {
      SnapshotInExactly(s, today, range);
    }
    SortedDays(windowed);
    assert Among(ordered) == KeptSnapshots(snapshots, today, range);
    LastWins(ordered, g);
    SortPermutes(last, PeriodOrder());
    SameElements(Sort(last, PeriodOrder()), last);
    StillDistinct(last, Sort(last, PeriodOrder()));
  }

  lemma {:induction false} CountsOnce(entries: seq<Entry>, e: Entry)
    requires OfDifferentPeriods(entries)
    ensures multiset(entries)[e] <= 1
  {
    if entries != [] {
      assert entries == [entries[0]] + entries[1..];
      assert forall i :: 0 <= i < |entries[1..]| ==> entries[1..][i] == entries[i + 1];
      CountsOnce(entries[1..], e);
    }
  }

  lemma CountsTwice(entries: seq<Entry>, i: nat, j: nat)
    requires i < j < |entries| && entries[i] == entries[j]
    ensures multiset(entries)[entries[i]] >= 2
  {
    assert entries == entries[..i] + [entries[i]] + entries[i + 1..j] + [entries[j]] + entries[j + 1..];
  }

  /** Sorting entries of different periods leaves them of different periods. */
  lemma StillDistinct(entries: seq<Entry>, others: seq<Entry>)
    requires multiset(entries) == multiset(others) && OfDifferentPeriods(entries)
    ensures OfDifferentPeriods(others)
  {
    SameElements(entries, others);
    forall i, j | 0 <= i < j < |others| ensures others[i].period != others[j].period {
      assert others[i] in others && others[j] in others;
      var a :| 0 <= a < |entries| && entries[a] == others[i];
      var b :| 0 <= b < |entries| && entries[b] == others[j];
      assert others[i] != others[j] by {
        CountsOnce(entries, others[i]);
        if others[i] == others[j] {
          CountsTwice(others, i, j);
        }
      }
    }
  }

  lemma SnapshotInExactly(s: KeyedSnapshot, today: Date, range: Range)
    requires Recent(today)
    ensures SnapshotIn(today, range)(s) <==> InWindow(s.date, today, range)
  {
    hide RangeStartMonthKey, MonthKey, AtMost, KeyText, InWindow;
    if range == All {
      AllStarts(today);
      RangeHoldsItsMonths(s.date, today);
    } else {
      RangeStartIsMonthKey(today, range);
      KeyOfMonth(s.date);
      WindowByKeys(s.date, today, range);
    }
  }

  predicate PeriodsAscend(entries: seq<Entry>, granularity: Granularity) {
    forall i, j :: 0 <= i < j < |entries| ==> PeriodOf(entries[i].date, granularity) < PeriodOf(entries[j].date, granularity)
  }

  predicate KeysAscend(entries: seq<Entry>) {
    forall i, j :: 0 <= i < j < |entries| ==> AtMost(entries[i].period, entries[j].period)
  }

  /** The points come in period order. */
  lemma BasePointsAscend(snapshots: seq<KeyedSnapshot>, today: Date, range: Range)
    requires Recent(today)
    ensures PeriodsAscend(BasePoints(snapshots, today, range), Density(snapshots, today, range))
  {
    hide BasePoints, Density, KeptSnapshots, PeriodsAscend, KeysAscend, FromSnapshots, AllClosed, OfDifferentPeriods;
    BasePointsAreCloses(snapshots, today, range);
    BasePointsSorted(snapshots, today, range);
    EntriesAscend(BasePoints(snapshots, today, range), KeptSnapshots(snapshots, today, range), Density(snapshots, today, range));
  }

  lemma EntriesAscend(entries: seq<Entry>, snapshots: set<KeyedSnapshot>, granularity: Granularity)
    requires FromSnapshots(entries, snapshots, granularity) && OfDifferentPeriods(entries) && KeysAscend(entries)
    ensures PeriodsAscend(entries, granularity)
  {
    hide AtMost, PeriodOf, PeriodKey, IsOf, Closes;
    forall i, j | 0 <= i < j < |entries|
      ensures PeriodOf(entries[i].date, granularity) < PeriodOf(entries[j].date, granularity)
    {
      assert entries[i] in entries && entries[j] in entries;
      var a: KeyedSnapshot :| a in snapshots && IsOf(entries[i], a, granularity);
      var b: KeyedSnapshot :| b in snapshots && IsOf(entries[j], b, granularity);
      PairAscends(entries[i], entries[j], a, b, granularity);
    }
  }

  lemma PairAscends(first: Entry, second: Entry, a: KeyedSnapshot, b: KeyedSnapshot, granularity: Granularity)
    requires IsOf(first, a, granularity) && IsOf(second, b, granularity)
    requires AtMost(first.period, second.period) && first.period != second.period
    ensures PeriodOf(first.date, granularity) < PeriodOf(second.date, granularity)
  {
    hide PeriodKey, PeriodOf, AtMost;
    PeriodKeysOrder(a.date, b.date, granularity);
  }

  lemma BasePointsSorted(snapshots: seq<KeyedSnapshot>, today: Date, range: Range)
    requires Recent(today)
    ensures KeysAscend(BasePoints(snapshots, today, range))
  {
    hide Sort, LastByPeriod, AtMost, Filter, SnapshotIn, Density;
    PeriodOrderTotal();
    SortSorts(LastByPeriod(Sort(Filter(snapshots, SnapshotIn(today, range)), SnapshotOrder()), Density(snapshots, today, range)), PeriodOrder());
  }

  lemma PeriodOrderTotal()
    ensures TotalPreorder(PeriodOrder())
  {
    forall a: Entry, b: Entry ensures PeriodOrder()(a, b) || PeriodOrder()(b, a) {
      LessTotal(a.period, b.period);
    }
    forall a: Entry, b: Entry, c: Entry | PeriodOrder()(a, b) && PeriodOrder()(b, c) ensures PeriodOrder()(a, c) {
      if a.period != b.period && b.period != c.period {
        LessTransitive(a.period, b.period, c.period);
      }
    }
  }

  lemma {:induction false} PointsOpen<B>(entries: seq<Entry>, rows: seq<KeyedRow>, openPeriod: string, bands: seq<KeyedRow> -> B)
    ensures forall p | p in Points(entries, rows, openPeriod, bands) ::
      exists e :: e in entries && e.date == p.date && (p.isOpenPeriod <==> AtMost(openPeriod, e.period))
  {
    hide RowsOn, AtMost;
    if entries != [] {
      var n := |entries| - 1;
      PointsOpen(entries[..n], rows, openPeriod, bands);
      assert entries[n] in entries && forall e | e in entries[..n] :: e in entries;
    }
  }

  /** A point is open exactly when its period is today's, or a later one. */
  lemma OpenExactly<B>(snapshots: seq<KeyedSnapshot>, rows: seq<KeyedRow>, today: Date, range: Range, bands: seq<KeyedRow> -> B)
    requires Recent(today)
    ensures forall p | p in BuildSeries(snapshots, rows, today, range, bands) ::
      p.isOpenPeriod <==> PeriodOf(today, Density(snapshots, today, range)) <= PeriodOf(p.date, Density(snapshots, today, range))
  {
    hide Points, BasePoints, Density, KeptSnapshots, AtMost, PeriodOf, PeriodKey, IsOf, OfDifferentPeriods, AllClosed;
    var g := Density(snapshots, today, range);
    var points := BasePoints(snapshots, today, range);
    BasePointsAreCloses(snapshots, today, range);
    PointsOpen(points, rows, PeriodKey(today, g), bands);
    forall p | p in BuildSeries(snapshots, rows, today, range, bands)
      ensures p.isOpenPeriod <==> PeriodOf(today, g) <= PeriodOf(p.date, g)
    {
      var e :| e in points && e.date == p.date && (p.isOpenPeriod <==> AtMost(PeriodKey(today, g), e.period));
      var s: KeyedSnapshot :| s in KeptSnapshots(snapshots, today, range) && IsOf(e, s, g);
      EntryOrder(e, s, today, g);
    }
  }

  lemma EntryOrder(e: Entry, s: KeyedSnapshot, today: Date, granularity: Granularity)
    requires FourDigit(today) && IsOf(e, s, granularity)
    ensures AtMost(PeriodKey(today, granularity), e.period) <==> PeriodOf(today, granularity) <= PeriodOf(e.date, granularity)
  {
    hide PeriodKey, PeriodOf, AtMost;
    PeriodKeysOrder(today, s.date, granularity);
  }

  /** With no snapshot after today, today's is the point of its period. */
  lemma TodayIsPoint(snapshots: seq<KeyedSnapshot>, today: Date, range: Range)
    requires Recent(today) && Snapshot(today) in snapshots
    requires forall s | s in snapshots :: !Before(today, s.date)
    ensures exists e :: e in BasePoints(snapshots, today, range) && e.date == today
  {
    hide BasePoints, Density, PeriodKey, OfDifferentPeriods, InWindow, AllClosed, FromSnapshots;
    var g := Density(snapshots, today, range);
    RangeHoldsItsMonths(today, today);
    BasePointsAreCloses(snapshots, today, range);
    TodayKept(snapshots, today, range);
    var e := CloseOf(BasePoints(snapshots, today, range), KeptSnapshots(snapshots, today, range), g, Snapshot(today));
    var s := SourceOf(BasePoints(snapshots, today, range), KeptSnapshots(snapshots, today, range), g, e);
    assert s in snapshots;
  }

  lemma TodayKept(snapshots: seq<KeyedSnapshot>, today: Date, range: Range)
    requires FourDigit(today) && Snapshot(today) in snapshots
    ensures Snapshot(today) in KeptSnapshots(snapshots, today, range)
  {
    RangeHoldsItsMonths(today, today);
  }

  lemma CloseOf(entries: seq<Entry>, snapshots: set<KeyedSnapshot>, granularity: Granularity, s: KeyedSnapshot) returns (e: Entry)
    requires AllClosed(entries, snapshots, granularity) && s in snapshots
    ensures e in entries && Closes(e, s, granularity)
  {
    hide Closes;
    e :| e in entries && Closes(e, s, granularity);
  }

  lemma SourceOf(entries: seq<Entry>, snapshots: set<KeyedSnapshot>, granularity: Granularity, e: Entry) returns (s: KeyedSnapshot)
    requires FromSnapshots(entries, snapshots, granularity) && e in entries
    ensures s in snapshots && IsOf(e, s, granularity)
  {
    hide IsOf;
    s :| s in snapshots && IsOf(e, s, granularity);
  }
}
