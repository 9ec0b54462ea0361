/**
 The hero's movers (`movers-data.ts`): the base snapshot of a period, the
 aggregation of two days' rows by holding, and the two ranked columns.
 */
module Movers {
  import opened Text
  import opened Calendar
  import opened DateKeys
  import opened Sorting
  import opened CompositionChart
  import DashboardMatrix
  import DashboardCells

  datatype Period = Month | Year

  datatype Kind = Asset | Liability

  datatype Tier = Cash | Market | TermLocked | Illiquid | Housing

  datatype View = Total | Liquid

  datatype AnyRow = HoldingRow(
    date: Date, holdingId: string, kind: Kind, caption: string, valueMinor: int, tier: Option<Tier>, securesHousing: bool)

  type HoldingRow = r: AnyRow | FourDigit(r.date)
    witness HoldingRow(Date(1970, 1, 1), "", Asset, "", 0, None, false)

  // ----------------------------------------------------------- base snapshot

  /** Years whose last year still has four digits. */
  predicate Modern(snapshots: seq<KeyedSnapshot>) {
    forall s | s in snapshots :: s.date.year >= 1001
  }

  function LastOf(snapshots: seq<KeyedSnapshot>): Option<KeyedSnapshot> {
    if snapshots == [] then None else Some(snapshots[|snapshots| - 1])
  }

  /** The month the base may be of at the latest, as the period's test on month keys. */
  function BaseTest(latest: KeyedSnapshot, period: Period): KeyedSnapshot -> bool
    requires latest.date.year >= 1001
  {
    match period
    case Year =>
      var target := Dec(latest.date.year - 1) + "-" + Padded(latest.date.month, 2);
      (s: KeyedSnapshot) => AtMost(MonthKey(s.date), target)
    case Month => (s: KeyedSnapshot) => !AtMost(MonthKey(latest.date), MonthKey(s.date))
  }

  function BaseSnapshot(snapshots: seq<KeyedSnapshot>, period: Period): Option<KeyedSnapshot>
    requires Modern(snapshots)
  {
    if snapshots == [] then None else LastOf(Filter(snapshots, BaseTest(snapshots[|snapshots| - 1], period)))
  }

  /** How many months back the base is at least. */
  function MonthsBack(period: Period): nat {
    match period case Month => 1 case Year => 12
  }

  lemma BaseTestByMonths(latest: KeyedSnapshot, s: KeyedSnapshot, period: Period)
    requires latest.date.year >= 1001
    ensures BaseTest(latest, period)(s) <==> MonthOf(s.date) <= MonthOf(latest.date) - MonthsBack(period)
  {
    hide AtMost, MonthKey, Padded, Dec;
    MonthOrder(latest.date, s.date);
    if period == Year {
      var year := latest.date.year - 1;
      var target := Date(year, latest.date.month, 1);
      assert Valid(target) && MonthOf(target) == MonthOf(latest.date) - 12;
      YearText(year);
      MonthOfTarget(target);
      MonthOrder(s.date, target);
    }
  }

  lemma YearText(year: nat)
    requires 1000 <= year <= 9999
    ensures Padded(year, 4) == Dec(year)
  {
    hide Padded, Dec;
    assert Pow10(3) == 1000;
    SmallPowers();
    DecLength(year, 3);
    DecLength(year, 4);
    FourDigitsPlain(year);
  }

  lemma MonthOfTarget(target: Date)
    requires FourDigit(target)
    ensures MonthKey(target) == Padded(target.year, 4) + "-" + Padded(target.month, 2)
  {
  }

  predicate Ascending(snapshots: seq<KeyedSnapshot>) {
    forall i, j :: 0 <= i < j < |snapshots| ==> DaysOf(snapshots[i].date) < DaysOf(snapshots[j].date)
  }

  lemma {:induction false} FilterAscends(snapshots: seq<KeyedSnapshot>, keep: KeyedSnapshot -> bool)
    requires Ascending(snapshots)
    ensures Ascending(Filter(snapshots, keep))
  {
    hide DaysOf, Ascending;
    if snapshots == [] {
      AscendsEmpty();
    } else {
      FirstIsLeast(snapshots);
      FilterAscends(snapshots[1..], keep);
      FilterMembers(snapshots[1..], keep);
      AscendsFrom(snapshots[0], Filter(snapshots[1..], keep));
      assert [] + Filter(snapshots[1..], keep) == Filter(snapshots[1..], keep);
    }
  }

  lemma AscendsEmpty()
    ensures Ascending([])
  {
  }

  lemma FirstIsLeast(snapshots: seq<KeyedSnapshot>)
    requires snapshots != [] && Ascending(snapshots)
    ensures Ascending(snapshots[1..])
    ensures forall s: KeyedSnapshot | s in snapshots[1..] :: DaysOf(snapshots[0].date) < DaysOf(s.date)
  {
    hide DaysOf;
    var rest := snapshots[1..];
    assert forall i :: 0 <= i < |rest| ==> rest[i] == snapshots[i + 1];
  }

  lemma AscendsFrom(first: KeyedSnapshot, rest: seq<KeyedSnapshot>)
    requires Ascending(rest) && forall s: KeyedSnapshot | s in rest :: DaysOf(first.date) < DaysOf(s.date)
    ensures Ascending([first] + rest)
  {
    hide DaysOf;
    var all := [first] + rest;
    forall i, j | 0 <= i < j < |all| ensures DaysOf(all[i].date) < DaysOf(all[j].date) {
      assert all[j] == rest[j - 1];
    }
  }

  /** The base is the newest snapshot at least the period's months before the latest, found whenever there is one. */
  lemma BaseIsNewest(snapshots: seq<KeyedSnapshot>, period: Period)
    requires Modern(snapshots) && Ascending(snapshots) && snapshots != []
    ensures var base := BaseSnapshot(snapshots, period); var bound := MonthOf(LastOf(snapshots).value.date) - MonthsBack(period);
      && (base.None? <==> forall s | s in snapshots :: MonthOf(s.date) > bound)
      && (base.Some? ==>
            && base.value in snapshots && MonthOf(base.value.date) <= bound
            && forall s | s in snapshots && MonthOf(s.date) <= bound :: DaysOf(s.date) <= DaysOf(base.value.date))
  {
    hide BaseTest, Filter, DaysOf;
    var latest := snapshots[|snapshots| - 1];
    var keep := BaseTest(latest, period);
    var found := Filter(snapshots, keep);
    FilterMembers(snapshots, keep);
    FilterAscends(snapshots, keep);
    forall s: KeyedSnapshot ensures keep(s) <==> MonthOf(s.date) <= MonthOf(latest.date) - MonthsBack(period) {
      BaseTestByMonths(latest, s, period);
    }
    if found == [] {
      assert forall s | s in snapshots :: s !in found;
    } else {
      assert found[|found| - 1] in found;
    }
  }

  lemma BaseIsEarlier(snapshots: seq<KeyedSnapshot>, period: Period)
    requires Modern(snapshots) && BaseSnapshot(snapshots, period).Some?
    ensures snapshots != []
    ensures var base := BaseSnapshot(snapshots, period).value; var latest := snapshots[|snapshots| - 1];
      MonthOf(base.date) <= MonthOf(latest.date) - MonthsBack(period) && DaysOf(base.date) < DaysOf(latest.date)
  {
    hide BaseTest, Filter, DaysOf;
    var base := BaseSnapshot(snapshots, period).value;
    var latest := snapshots[|snapshots| - 1];
    var keep := BaseTest(latest, period);
    FilterMembers(snapshots, keep);
    assert base in Filter(snapshots, keep);
    BaseTestByMonths(latest, base, period);
    MonthsApart(base.date, latest.date);
  }

  lemma MonthsApart(a: Date, b: Date)
    requires Valid(a) && Valid(b) && MonthOf(a) < MonthOf(b)
    ensures DaysOf(a) < DaysOf(b)
  {
    hide DaysOf, MonthLength;
    DaysOfOrder(a, b);
    DaysOfOrder(b, a);
  }

  // -------------------------------------------------------------- aggregation

  function Contribution(row: HoldingRow): int {
    if row.kind == Liability then -row.valueMinor else row.valueMinor
  }

  function KindName(kind: Kind): string {
    match kind case Asset => "asset" case Liability => "liability"
  }

  function HoldingKey(row: HoldingRow): string {
    KindName(row.kind) + ":" + row.holdingId
  }

  /** A key stands for one holding of one kind. */
  lemma KeyNamesHolding(a: HoldingRow, b: HoldingRow)
    ensures HoldingKey(a) == HoldingKey(b) <==> a.kind == b.kind && a.holdingId == b.holdingId
  {
    var ka, kb := KindName(a.kind) + ":", KindName(b.kind) + ":";
    if HoldingKey(a) == HoldingKey(b) {
      assert HoldingKey(a)[0] == KindName(a.kind)[0] && HoldingKey(b)[0] == KindName(b.kind)[0];
      assert a.kind == b.kind;
      assert HoldingKey(a)[|ka|..] == a.holdingId && HoldingKey(b)[|kb|..] == b.holdingId;
    }
  }

  datatype Agg = Agg(
    caption: string, kind: Kind, base: int, cur: int, tier: Option<Tier>, securesHousing: bool, latestSeen: bool)

  /** The two days compared. */
  datatype Days = Days(base: Date, latest: Date)

  predicate Relevant(row: HoldingRow, days: Days) {
    row.date == days.latest || row.date == days.base
  }

  function Fresh(row: HoldingRow): Agg {
    Agg(row.caption, row.kind, 0, 0, row.tier, row.securesHousing, false)
  }

  function AddTo(entry: Agg, row: HoldingRow, days: Days): Agg {
    var isLatest := row.date == days.latest;
    var summed :=
      if isLatest then entry.(caption := row.caption, cur := entry.cur + Contribution(row))
      else entry.(caption := row.caption, base := entry.base + Contribution(row));
    if isLatest || !entry.latestSeen then
      summed.(tier := row.tier, securesHousing := row.securesHousing, latestSeen := isLatest)
    else summed
  }

  /** A map that remembers the order its keys came in. */
  datatype Table = Table(order: seq<string>, entries: map<string, Agg>)

  const NoEntries := Table([], map[])

  function Put(table: Table, row: HoldingRow, days: Days): Table {
    var key := HoldingKey(row);
    if key in table.entries then
      table.(entries := table.entries[key := AddTo(table.entries[key], row, days)])
    else
      Table(table.order + [key], table.entries[key := AddTo(Fresh(row), row, days)])
  }

  function Aggregated(rows: seq<HoldingRow>, days: Days): Table {
    if rows == [] then NoEntries
    else
      var n := |rows| - 1;
      var before := Aggregated(rows[..n], days);
      if Relevant(rows[n], days) then Put(before, rows[n], days) else before
  }

  // ---- what an entry is, without running the loop

  function Is(key: string): HoldingRow -> bool {
    (r: HoldingRow) => HoldingKey(r) == key
  }

  function On(date: Date): HoldingRow -> bool {
    (r: HoldingRow) => r.date == date
  }

  function OfDays(days: Days): HoldingRow -> bool {
    (r: HoldingRow) => Relevant(r, days)
  }

  function Sum(rows: seq<HoldingRow>): int {
    if rows == [] then 0 else Sum(rows[..|rows| - 1]) + Contribution(rows[|rows| - 1])
  }

  /** What a holding's entry should be, from its own rows and those of the latest day. */
  function EntryFrom(rows: seq<HoldingRow>, current: seq<HoldingRow>): Agg
    requires rows != []
  {
    var telling := if current != [] then current[|current| - 1] else rows[|rows| - 1];
    Agg(rows[|rows| - 1].caption, rows[0].kind, Sum(rows) - Sum(current), Sum(current), telling.tier, telling.securesHousing,
      current != [])
  }

  function EntryOf(rows: seq<HoldingRow>, days: Days): Agg
    requires rows != []
  {
    EntryFrom(rows, Filter(rows, On(days.latest)))
  }

  /** A holding's rows of the two days. */
  function RowsOf(rows: seq<HoldingRow>, days: Days, key: string): seq<HoldingRow> {
    Filter(Filter(rows, OfDays(days)), Is(key))
  }

  /** The order lists each key of the map once. */
  ghost predicate Ordered(table: Table) {
    && (forall key :: key in table.order <==> key in table.entries)
    && (forall i, j :: 0 <= i < j < |table.order| ==> table.order[i] != table.order[j])
  }

  /** A key is listed exactly when it has rows, with the entry those rows make. */
  predicate EntryHolds(table: Table, rows: seq<HoldingRow>, days: Days, key: string) {
    var mine := RowsOf(rows, days, key);
    if mine == [] then key !in table.entries else key in table.entries && table.entries[key] == EntryOf(mine, days)
  }

  ghost predicate TableHolds(table: Table, rows: seq<HoldingRow>, days: Days) {
    Ordered(table) && forall key :: EntryHolds(table, rows, days, key)
  }

  lemma RowsOfLast(rows: seq<HoldingRow>, row: HoldingRow, days: Days, key: string)
    ensures RowsOf(rows + [row], days, key)
      == if Relevant(row, days) && HoldingKey(row) == key then RowsOf(rows, days, key) + [row] else RowsOf(rows, days, key)
  {
    hide HoldingKey;
    FilterAppend(rows, [row], OfDays(days));
    FilterAppend(Filter(rows, OfDays(days)), Filter([row], OfDays(days)), Is(key));
    FilterOne(row, OfDays(days));
    FilterOne(row, Is(key));
    assert RowsOf(rows, days, key) + [] == RowsOf(rows, days, key);
    assert Filter(rows, OfDays(days)) + [] == Filter(rows, OfDays(days));
  }

  lemma EntryOfFirst(row: HoldingRow, days: Days)
    ensures EntryOf([row], days) == AddTo(Fresh(row), row, days)
  {
    assert [row][1..] == [] && [row][..0] == [];
    assert Filter([row], On(days.latest)) == if row.date == days.latest then [row] else [];
    assert Sum([]) == 0 && Sum([row]) == Contribution(row);
  }

  lemma SumLast(rows: seq<HoldingRow>, row: HoldingRow)
    ensures Sum(rows + [row]) == Sum(rows) + Contribution(row)
  {
    assert (rows + [row])[..|rows|] == rows;
  }

  lemma EntryOfNext(rows: seq<HoldingRow>, row: HoldingRow, days: Days)
    requires rows != []
    ensures EntryOf(rows + [row], days) == AddTo(EntryOf(rows, days), row, days)
  {
    hide Contribution, Filter, Sum;
    var current := Filter(rows, On(days.latest));
    FilterAppend(rows, [row], On(days.latest));
    FilterOne(row, On(days.latest));
    SumLast(rows, row);
    if row.date == days.latest {
      SumLast(current, row);
    } else {
      assert current + [] == current;
    }
  }

  lemma FilterOne(row: HoldingRow, keep: HoldingRow -> bool)
    ensures Filter([row], keep) == if keep(row) then [row] else []
  {
    assert [row][1..] == [];
  }

  lemma {:induction false} AggregatedHolds(rows: seq<HoldingRow>, days: Days)
    ensures TableHolds(Aggregated(rows, days), rows, days)
  {
    if rows != [] {
      var n := |rows| - 1;
      var before, row := rows[..n], rows[n];
      assert rows == before + [row];
      AggregatedHolds(before, days);
      PutHolds(Aggregated(before, days), before, row, days);
    }
  }

  lemma PutHolds(table: Table, rows: seq<HoldingRow>, row: HoldingRow, days: Days)
    requires TableHolds(table, rows, days)
    ensures TableHolds(if Relevant(row, days) then Put(table, row, days) else table, rows + [row], days)
  {
    hide EntryHolds, Relevant, Put;
    var next := if Relevant(row, days) then Put(table, row, days) else table;
    forall key ensures EntryHolds(next, rows + [row], days, key) {
      PutEntry(table, rows, row, days, key);
    }
    PutOrdered(table, row, days);
  }

  lemma PutOrdered(table: Table, row: HoldingRow, days: Days)
    requires Ordered(table)
    ensures Ordered(Put(table, row, days))
  {
    hide AddTo, HoldingKey;
  }

  lemma PutEntry(table: Table, rows: seq<HoldingRow>, row: HoldingRow, days: Days, key: string)
    requires EntryHolds(table, rows, days, key) && EntryHolds(table, rows, days, HoldingKey(row))
    ensures EntryHolds(if Relevant(row, days) then Put(table, row, days) else table, rows + [row], days, key)
  {
    hide RowsOf, EntryOf, AddTo, HoldingKey, Relevant;
    var mine := RowsOf(rows, days, key);
    RowsOfLast(rows, row, days, key);
    if Relevant(row, days) && HoldingKey(row) == key {
      if mine == [] {
        EntryOfFirst(row, days);
        assert mine + [row] == [row];
      } else {
        EntryOfNext(mine, row, days);
      }
    }
  }

  /** Where a key is first met among some rows. */
  function FirstRow(rows: seq<HoldingRow>, key: string): (k: nat)
    ensures k <= |rows| && (k < |rows| <==> exists r :: r in rows && HoldingKey(r) == key)
    ensures k < |rows| ==> HoldingKey(rows[k]) == key
  {
    if rows == [] then 0
    else if HoldingKey(rows[0]) == key then 0
    else assert rows == [rows[0]] + rows[1..]; 1 + FirstRow(rows[1..], key)
  }

  lemma {:induction false} FirstRowOfLast(rows: seq<HoldingRow>, row: HoldingRow, key: string)
    ensures FirstRow(rows + [row], key)
      == if FirstRow(rows, key) < |rows| || HoldingKey(row) == key then FirstRow(rows, key) else |rows| + 1
  {
    if rows == [] {
      assert rows + [row] == [row] && [row][1..] == [];
    } else {
      assert (rows + [row])[1..] == rows[1..] + [row] && (rows + [row])[0] == rows[0];
      FirstRowOfLast(rows[1..], row, key);
    }
  }

  ghost predicate AsMet(order: seq<string>, met: seq<HoldingRow>) {
    && (forall i :: 0 <= i < |order| ==> FirstRow(met, order[i]) < |met|)
    && (forall i, j :: 0 <= i < j < |order| ==> FirstRow(met, order[i]) < FirstRow(met, order[j]))
  }

  lemma AsMetStays(order: seq<string>, met: seq<HoldingRow>, row: HoldingRow)
    requires AsMet(order, met)
    ensures AsMet(order, met + [row])
  {
    hide FirstRow, HoldingKey;
    forall i | 0 <= i < |order| ensures FirstRow(met + [row], order[i]) == FirstRow(met, order[i]) {
      FirstRowOfLast(met, row, order[i]);
    }
  }

  lemma AsMetNext(order: seq<string>, met: seq<HoldingRow>, row: HoldingRow)
    requires AsMet(order, met) && FirstRow(met, HoldingKey(row)) == |met|
    ensures AsMet(order + [HoldingKey(row)], met + [row])
  {
    hide FirstRow, HoldingKey;
    AsMetStays(order, met, row);
    FirstRowOfLast(met, row, HoldingKey(row));
    forall i | 0 <= i < |order| ensures FirstRow(met + [row], order[i]) == FirstRow(met, order[i]) {
      FirstRowOfLast(met, row, order[i]);
    }
  }

  /** Holdings are listed in the order their first rows of the two days came. */
  lemma {:induction false} ListedAsMet(rows: seq<HoldingRow>, days: Days)
    ensures AsMet(Aggregated(rows, days).order, Filter(rows, OfDays(days)))
  {
    hide AsMet, HoldingKey, AddTo, Fresh, Filter;
    if rows == [] {
      NothingMet(days);
    } else {
      var n := |rows| - 1;
      var before, row := rows[..n], rows[n];
      assert rows == before + [row];
      ListedAsMet(before, days);
      FilterAppend(before, [row], OfDays(days));
      FilterOne(row, OfDays(days));
      var met, table := Filter(before, OfDays(days)), Aggregated(before, days);
      assert met + [] == met;
      if HoldingKey(row) in table.entries {
        AsMetStays(table.order, met, row);
      } else {
        NotYetMet(before, row, days);
        AsMetNext(table.order, met, row);
      }
    }
  }

  lemma NothingMet(days: Days)
    ensures AsMet([], Filter([], OfDays(days)))
  {
  }

  lemma NotYetMet(rows: seq<HoldingRow>, row: HoldingRow, days: Days)
    requires HoldingKey(row) !in Aggregated(rows, days).entries
    ensures var met := Filter(rows, OfDays(days)); FirstRow(met, HoldingKey(row)) == |met|
  {
    hide Filter, HoldingKey;
    AggregatedHolds(rows, days);
    var key := HoldingKey(row);
    assert EntryHolds(Aggregated(rows, days), rows, days, key);
    FilterMembers(Filter(rows, OfDays(days)), Is(key));
  }

  // ------------------------------------------------------------ total framing

  function Impact(entry: Agg): int {
    entry.cur - entry.base
  }

  function ImpactSum(order: seq<string>, entries: map<string, Agg>): int {
    if order == [] then 0
    else
      var n := |order| - 1;
      ImpactSum(order[..n], entries) + if order[n] in entries then Impact(entries[order[n]]) else 0
  }

  lemma {:induction false} ImpactUpdate(order: seq<string>, entries: map<string, Agg>, key: string, entry: Agg)
    requires key in entries
    requires forall i, j :: 0 <= i < j < |order| ==> order[i] != order[j]
    ensures ImpactSum(order, entries[key := entry])
      == ImpactSum(order, entries) + if key in order then Impact(entry) - Impact(entries[key]) else 0
  {
    hide Impact;
    if order != [] {
      var n := |order| - 1;
      assert order == order[..n] + [order[n]];
      assert forall i :: 0 <= i < n ==> order[..n][i] == order[i];
      ImpactUpdate(order[..n], entries, key, entry);
    }
  }

  lemma {:induction false} ImpactUnlisted(order: seq<string>, entries: map<string, Agg>, key: string, entry: Agg)
    requires key !in order
    ensures ImpactSum(order, entries[key := entry]) == ImpactSum(order, entries)
  {
    if order != [] {
      ImpactUnlisted(order[..|order| - 1], entries, key, entry);
    }
  }

  /** What a row adds to the movement between the days. */
  function Signed(row: HoldingRow, days: Days): int {
    if row.date == days.latest then Contribution(row) else if row.date == days.base then -Contribution(row) else 0
  }

  function SumOn(rows: seq<HoldingRow>, date: Date): int {
    Sum(Filter(rows, On(date)))
  }

  lemma PutImpact(table: Table, row: HoldingRow, days: Days)
    requires Ordered(table) && Relevant(row, days)
    ensures ImpactSum(Put(table, row, days).order, Put(table, row, days).entries)
      == ImpactSum(table.order, table.entries) + Signed(row, days)
  {
    hide HoldingKey, Contribution, ImpactSum;
    var key := HoldingKey(row);
    if key in table.entries {
      ImpactUpdate(table.order, table.entries, key, AddTo(table.entries[key], row, days));
    } else {
      ImpactUnlisted(table.order, table.entries, key, AddTo(Fresh(row), row, days));
      ImpactLast(table.order, table.entries, key, AddTo(Fresh(row), row, days));
    }
  }

  lemma ImpactLast(order: seq<string>, entries: map<string, Agg>, key: string, entry: Agg)
    ensures ImpactSum(order + [key], entries[key := entry]) == ImpactSum(order, entries[key := entry]) + Impact(entry)
  {
    assert (order + [key])[..|order|] == order;
  }

  lemma SumOnLast(rows: seq<HoldingRow>, row: HoldingRow, date: Date)
    ensures SumOn(rows + [row], date) == SumOn(rows, date) + if row.date == date then Contribution(row) else 0
  {
    hide Sum, Filter, Contribution;
    FilterAppend(rows, [row], On(date));
    FilterOne(row, On(date));
    SumLast(Filter(rows, On(date)), row);
    assert Filter(rows, On(date)) + [] == Filter(rows, On(date));
  }

  /** The impacts of all holdings add up to the rows of the latest day less those of the base day. */
  lemma {:induction false} ImpactsAddUp(rows: seq<HoldingRow>, days: Days)
    requires days.base != days.latest
    ensures var table := Aggregated(rows, days);
      ImpactSum(table.order, table.entries) == SumOn(rows, days.latest) - SumOn(rows, days.base)
  {
    hide Put, SumOn, Contribution, ImpactSum;
    if rows == [] {
      NothingMoves(days);
    } else {
      var n := |rows| - 1;
      var before, row := rows[..n], rows[n];
      assert rows == before + [row];
      ImpactsAddUp(before, days);
      SumOnLast(before, row, days.latest);
      SumOnLast(before, row, days.base);
      AggregatedHolds(before, days);
      if Relevant(row, days) {
        PutImpact(Aggregated(before, days), row, days);
      }
    }
  }

  lemma NothingMoves(days: Days)
    ensures ImpactSum([], map[]) == 0 && SumOn([], days.latest) == 0 && SumOn([], days.base) == 0
  {
  }

  // ------------------------------------------------------------------ columns

  datatype Tag = New | Sold

  datatype Mover = Mover(caption: string, impactMinor: int, isDebt: bool, pct: Option<real>, tag: Option<Tag>)

  predicate IsLiquid(tier: Tier) {
    tier == Cash || tier == Market
  }

  predicate IsLiquidHolding(entry: Agg) {
    if entry.kind == Asset then entry.tier.Some? && IsLiquid(entry.tier.value)
    else !entry.securesHousing && (entry.tier.None? || IsLiquid(entry.tier.value))
  }

  function MagnitudeOf(n: int): int {
    if n < 0 then -n else n
  }

  function MoverOf(entry: Agg): Mover {
    Mover(
      entry.caption, Impact(entry), entry.kind == Liability,
      if entry.base != 0 then Some((Impact(entry) as real / MagnitudeOf(entry.base) as real) * 100.0) else None,
      if entry.base == 0 then Some(New) else if entry.cur == 0 then Some(Sold) else None)
  }

  predicate Shown(entry: Agg, view: View) {
    !(view == Liquid && !IsLiquidHolding(entry)) && Impact(entry) != 0
  }

  function RawOf(order: seq<string>, entries: map<string, Agg>, view: View): seq<Mover> {
    if order == [] then []
    else
      var n := |order| - 1;
      RawOf(order[..n], entries, view)
        + if order[n] in entries && Shown(entries[order[n]], view) then [MoverOf(entries[order[n]])] else []
  }

  function MoverSum(raw: seq<Mover>): int {
    if raw == [] then 0 else MoverSum(raw[..|raw| - 1]) + raw[|raw| - 1].impactMinor
  }

  /** In the total framing no movement is lost by leaving out the holdings that did not move. */
  lemma {:induction false} RawAddsUp(order: seq<string>, entries: map<string, Agg>)
    ensures MoverSum(RawOf(order, entries, Total)) == ImpactSum(order, entries)
  {
    hide Shown, MoverOf, Impact, MoverSum;
    if order == [] {
      assert MoverSum([]) == 0 by {
        MoverSumEmpty();
      }
    } else {
      var n := |order| - 1;
      RawAddsUp(order[..n], entries);
      var before := RawOf(order[..n], entries, Total);
      assert before + [] == before;
      if order[n] in entries {
        MoverSumLast(before, MoverOf(entries[order[n]]));
        ShownInTotal(entries[order[n]]);
      }
    }
  }

  lemma MoverSumEmpty()
    ensures MoverSum([]) == 0
  {
  }

  lemma MoverSumLast(raw: seq<Mover>, m: Mover)
    ensures MoverSum(raw + [m]) == MoverSum(raw) + m.impactMinor
  {
    assert (raw + [m])[..|raw|] == raw;
  }

  lemma ShownInTotal(entry: Agg)
    ensures MoverOf(entry).impactMinor == Impact(entry)
    ensures Shown(entry, Total) <==> Impact(entry) != 0
  {
  }

  // -------------------------------------------------------- what is in the list

  /** What holdings of one kind were worth on a day. */
  function WorthOf(rows: seq<HoldingRow>, date: Date, kind: Kind): int {
    if rows == [] then 0
    else
      var n := |rows| - 1;
      WorthOf(rows[..n], date, kind) + if rows[n].date == date && rows[n].kind == kind then rows[n].valueMinor else 0
  }

  /** A day's sum is what is owned less what is owed. */
  lemma {:induction false} SumIsNet(rows: seq<HoldingRow>, date: Date)
    ensures SumOn(rows, date) == WorthOf(rows, date, Asset) - WorthOf(rows, date, Liability)
  {
    hide SumOn;
    if rows == [] {
      NoSum(date);
    } else {
      var n := |rows| - 1;
      assert rows == rows[..n] + [rows[n]];
      SumIsNet(rows[..n], date);
      SumOnLast(rows[..n], rows[n], date);
    }
  }

  lemma NoSum(date: Date)
    ensures SumOn([], date) == 0
  {
  }

  /** The holdings the liquid framing takes: cash and the market, and debts on neither a home nor what is not liquid. */
  predicate TakenBy(view: View, entry: Agg) {
    match view
    case Total => true
    case Liquid =>
      match entry.tier
      case None => entry.kind == Liability && !entry.securesHousing
      case Some(tier) =>
        (tier == Cash || tier == Market) && (entry.kind == Liability ==> !entry.securesHousing)
  }

  /** What a mover says of its holding: its change, the change in parts of a hundred of the base, new or sold. */
  predicate Tells(m: Mover, entry: Agg) {
    && m.caption == entry.caption
    && m.impactMinor == entry.cur - entry.base
    && (m.isDebt <==> entry.kind == Liability)
    && (m.tag == Some(New) <==> entry.base == 0)
    && (m.tag == Some(Sold) <==> entry.base != 0 && entry.cur == 0)
    && (m.pct.None? <==> entry.base == 0)
    && (m.pct.Some? ==> entry.base as real * m.pct.value
                        == (if entry.base > 0 then 100.0 else -100.0) * m.impactMinor as real)
  }

  lemma MoverTells(entry: Agg)
    ensures Tells(MoverOf(entry), entry)
  {
    if entry.base != 0 {
      Percent(Impact(entry) as real, entry.base as real, MagnitudeOf(entry.base) as real);
    }
  }

  lemma Percent(impact: real, base: real, magnitude: real)
    requires base != 0.0 && magnitude == if base < 0.0 then -base else base
    ensures base * ((impact / magnitude) * 100.0) == (if base > 0.0 then 100.0 else -100.0) * impact
  {
    var part := impact / magnitude;
    assert part * magnitude == impact;
  }

  /** The holding counts in the framing, and changed. */
  predicate Counts(view: View, order: seq<string>, entries: map<string, Agg>, k: nat) {
    && k < |order| && order[k] in entries
    && TakenBy(view, entries[order[k]]) && entries[order[k]].cur != entries[order[k]].base
  }

  /** `raw` tells, in order, of the holdings at the places `at`, which are the ones that count. */
  ghost predicate Lists(raw: seq<Mover>, at: seq<nat>, view: View, order: seq<string>, entries: map<string, Agg>) {
    && |at| == |raw|
    && (forall i, j :: 0 <= i < j < |at| ==> at[i] < at[j])
    && (forall i :: 0 <= i < |at| ==> Counts(view, order, entries, at[i]) && Tells(raw[i], entries[order[at[i]]]))
    && (forall k: nat :: Counts(view, order, entries, k) ==> k in at)
  }

  /** The movers listed are those of the holdings the framing takes that changed, in their order. */
  lemma {:induction false} ListedExactly(order: seq<string>, entries: map<string, Agg>, view: View) returns (at: seq<nat>)
    ensures Lists(RawOf(order, entries, view), at, view, order, entries)
  {
    if order == [] {
      at := [];
    } else {
      hide Tells, MoverOf, Lists, Shown;
      var n := |order| - 1;
      at := ListedExactly(order[..n], entries, view);
      var raw := RawOf(order[..n], entries, view);
      if order[n] in entries && Shown(entries[order[n]], view) {
        TakenExactly(view, entries[order[n]]);
        MoverTells(entries[order[n]]);
        ListsOneMore(raw, at, view, order, entries, MoverOf(entries[order[n]]));
        at := at + [n];
      } else {
        if order[n] in entries {
          TakenExactly(view, entries[order[n]]);
        }
        ListsNoMore(raw, at, view, order, entries);
        assert raw + [] == raw;
      }
    }
  }

  lemma ListsOneMore(
    raw: seq<Mover>, at: seq<nat>, view: View, order: seq<string>, entries: map<string, Agg>, m: Mover)
    requires order != [] && Lists(raw, at, view, order[..|order| - 1], entries)
    requires Counts(view, order, entries, |order| - 1) && Tells(m, entries[order[|order| - 1]])
    ensures Lists(raw + [m], at + [|order| - 1], view, order, entries)
  {
    hide Tells, TakenBy;
    var n := |order| - 1;
    assert forall k: nat :: k < n ==> (Counts(view, order[..n], entries, k) <==> Counts(view, order, entries, k));
    assert (at + [n])[|at|] == n;
    assert forall i :: 0 <= i < |at| ==> at[i] == (at + [n])[i];
  }

  lemma ListsNoMore(raw: seq<Mover>, at: seq<nat>, view: View, order: seq<string>, entries: map<string, Agg>)
    requires order != [] && Lists(raw, at, view, order[..|order| - 1], entries)
    requires !Counts(view, order, entries, |order| - 1)
    ensures Lists(raw, at, view, order, entries)
  {
    hide Tells, TakenBy;
    var n := |order| - 1;
    assert forall k: nat :: k < n ==> (Counts(view, order[..n], entries, k) <==> Counts(view, order, entries, k));
  }

  lemma TakenExactly(view: View, entry: Agg)
    ensures Shown(entry, view) <==> TakenBy(view, entry) && entry.cur != entry.base
  {
  }

  function MostFirst(): (Mover, Mover) -> bool {
    (a: Mover, b: Mover) => a.impactMinor >= b.impactMinor
  }

  function LeastFirst(): (Mover, Mover) -> bool {
    (a: Mover, b: Mover) => a.impactMinor <= b.impactMinor
  }

  function Gains(): Mover -> bool {
    (m: Mover) => m.impactMinor > 0
  }

  function Losses(): Mover -> bool {
    (m: Mover) => m.impactMinor < 0
  }

  const MaxPerColumn: nat := 4

  function FirstOnes(movers: seq<Mover>): seq<Mover> {
    if |movers| <= MaxPerColumn then movers else movers[..MaxPerColumn]
  }

  function Reversed(movers: seq<Mover>): (r: seq<Mover>)
    ensures |r| == |movers| && forall i :: 0 <= i < |r| ==> r[i] == movers[|movers| - 1 - i]
  {
    if movers == [] then [] else Reversed(movers[1..]) + [movers[0]]
  }

  function UpColumn(raw: seq<Mover>): seq<Mover> {
    FirstOnes(Filter(Sort(raw, MostFirst()), Gains()))
  }

  function DownColumn(raw: seq<Mover>): seq<Mover> {
    FirstOnes(Reversed(Filter(Sort(raw, MostFirst()), Losses())))
  }

  /** The first of `pool` in the given order: in order, as many as fit, and none left out goes before one kept. */
  ghost predicate IsTop(column: seq<Mover>, pool: seq<Mover>, before: (Mover, Mover) -> bool) {
    && |column| == (if |pool| <= 4 then |pool| else 4)
    && Sorted(column, before)
    && multiset(column) <= multiset(pool)
    && forall x, y | x in multiset(pool) - multiset(column) && y in column :: before(y, x)
  }

  lemma TopOfSorted(all: seq<Mover>, pool: seq<Mover>, before: (Mover, Mover) -> bool)
    requires Sorted(all, before) && multiset(all) == multiset(pool)
    ensures IsTop(FirstOnes(all), pool, before)
  {
    assert |multiset(all)| == |all| && |multiset(pool)| == |pool|;
    var m := |FirstOnes(all)|;
    assert all == all[..m] + all[m..];
    assert multiset(pool) - multiset(all[..m]) == multiset(all[m..]);
    forall x, y | x in all[m..] && y in all[..m] ensures before(y, x) {
      var i :| 0 <= i < m && all[i] == y;
      var j :| m <= j < |all| && all[j] == x;
    }
  }

  lemma {:induction false} FilterCounts(s: seq<Mover>, keep: Mover -> bool, x: Mover)
    ensures multiset(Filter(s, keep))[x] == if keep(x) then multiset(s)[x] else 0
  {
    if s != [] {
      FilterCounts(s[1..], keep, x);
      assert s == [s[0]] + s[1..];
      if keep(s[0]) {
        assert multiset([s[0]] + Filter(s[1..], keep)) == multiset{s[0]} + multiset(Filter(s[1..], keep));
      } else {
        assert [] + Filter(s[1..], keep) == Filter(s[1..], keep);
      }
    }
  }

  lemma FilterOfPermutation(a: seq<Mover>, b: seq<Mover>, keep: Mover -> bool)
    requires multiset(a) == multiset(b)
    ensures multiset(Filter(a, keep)) == multiset(Filter(b, keep))
  {
    forall x ensures multiset(Filter(a, keep))[x] == multiset(Filter(b, keep))[x] {
      FilterCounts(a, keep, x);
      FilterCounts(b, keep, x);
    }
  }

  lemma {:induction false} FilterSorted(s: seq<Mover>, keep: Mover -> bool, before: (Mover, Mover) -> bool)
    requires Sorted(s, before)
    ensures Sorted(Filter(s, keep), before)
  {
    if s != [] {
      var rest := s[1..];
      assert forall i :: 0 <= i < |rest| ==> rest[i] == s[i + 1];
      FilterSorted(rest, keep, before);
      FilterMembers(rest, keep);
      var kept := Filter(rest, keep);
      forall j | 0 <= j < |kept| ensures before(s[0], kept[j]) {
        assert kept[j] in rest;
      }
    }
  }

  lemma {:induction false} ReversedPermutes(s: seq<Mover>)
    ensures multiset(Reversed(s)) == multiset(s)
  {
    if s != [] {
      ReversedPermutes(s[1..]);
      assert s == [s[0]] + s[1..];
    }
  }

  /** Each column lists the most extreme movers of its sign, most extreme first. */
  lemma ColumnsAreExtremes(raw: seq<Mover>)
    ensures IsTop(UpColumn(raw), Filter(raw, Gains()), MostFirst())
    ensures IsTop(DownColumn(raw), Filter(raw, Losses()), LeastFirst())
  {
    hide Sort, Filter, FirstOnes, IsTop, Reversed;
    var ranked := Sort(raw, MostFirst());
    SortSorts(raw, MostFirst());
    SortPermutes(raw, MostFirst());
    FilterOfPermutation(ranked, raw, Gains());
    FilterSorted(ranked, Gains(), MostFirst());
    TopOfSorted(Filter(ranked, Gains()), Filter(raw, Gains()), MostFirst());
    var losers := Filter(ranked, Losses());
    FilterOfPermutation(ranked, raw, Losses());
    FilterSorted(ranked, Losses(), MostFirst());
    ReversedPermutes(losers);
    ReversedAscends(losers);
    TopOfSorted(Reversed(losers), Filter(raw, Losses()), LeastFirst());
  }

  /** Movers of the same impact keep the order their holdings came in. */
  lemma TiesKeepOrder(raw: seq<Mover>, impactMinor: int)
    ensures var same := (m: Mover) => m.impactMinor == impactMinor;
      Filter(Sort(raw, MostFirst()), same) == Filter(raw, same)
  {
    SortStable(raw, MostFirst(), (m: Mover) => m.impactMinor == impactMinor);
  }

  /** The losing column is turned round after the sort, so its ties come in the opposite order. */
  lemma LosingTiesReverse(raw: seq<Mover>, impactMinor: int)
    requires impactMinor < 0
    ensures var same := (m: Mover) => m.impactMinor == impactMinor;
      var losers := Reversed(Filter(Sort(raw, MostFirst()), Losses()));
      DownColumn(raw) == FirstOnes(losers) && Filter(losers, same) == Reversed(Filter(raw, same))
  {
    hide Sort, Filter, Reversed;
    var same := (m: Mover) => m.impactMinor == impactMinor;
    var ranked := Sort(raw, MostFirst());
    TiesKeepOrder(raw, impactMinor);
    NarrowedSame(ranked, Losses(), same);
    FilterReversed(Filter(ranked, Losses()), same);
  }

  lemma {:induction false} FilterReversed(movers: seq<Mover>, keep: Mover -> bool)
    ensures Filter(Reversed(movers), keep) == Reversed(Filter(movers, keep))
  {
    if movers != [] {
      FilterReversed(movers[1..], keep);
      FilterAppend(Reversed(movers[1..]), [movers[0]], keep);
      assert [movers[0]][1..] == [];
      var kept := Filter(movers[1..], keep);
      assert [movers[0]] + kept != [] && ([movers[0]] + kept)[1..] == kept && [] + kept == kept;
      assert Reversed(kept) + [] == Reversed(kept);
    }
  }

  lemma ReversedAscends(movers: seq<Mover>)
    requires Sorted(movers, MostFirst())
    ensures Sorted(Reversed(movers), LeastFirst())
  {
  }

  // ------------------------------------------------------------- whole result

  datatype Data = Data(hasBase: bool, up: seq<Mover>, down: seq<Mover>)

  function BuildMovers(snapshots: seq<KeyedSnapshot>, view: View, period: Period, rows: seq<HoldingRow>): Option<Data>
    requires Modern(snapshots)
  {
    if snapshots == [] then None
    else
      match BaseSnapshot(snapshots, period)
      case None => Some(Data(false, [], []))
      case Some(base) =>
        var table := Aggregated(rows, Days(base.date, snapshots[|snapshots| - 1].date));
        var raw := RawOf(table.order, table.entries, view);
        Some(Data(true, UpColumn(raw), DownColumn(raw)))
  }

  method Aggregate(rows: seq<HoldingRow>, days: Days) returns (table: Table)
    ensures table == Aggregated(rows, days)
  {
    hide Relevant, HoldingKey, AddTo, Fresh;
    var order: seq<string>, byHolding: map<string, Agg> := [], map[];
    for i := 0 to |rows|
      invariant Table(order, byHolding) == Aggregated(rows[..i], days)
    {
      assert rows[..i + 1][..i] == rows[..i];
      if !Relevant(rows[i], days) {
        continue;
      }
      var key := HoldingKey(rows[i]);
      var entry := if key in byHolding then byHolding[key] else Fresh(rows[i]);
      if key !in byHolding {
        order := order + [key];
      }
      byHolding := byHolding[key := AddTo(entry, rows[i], days)];
    }
    assert rows[..|rows|] == rows;
    table := Table(order, byHolding);
  }

  method BuildMoversData(snapshots: seq<KeyedSnapshot>, view: View, period: Period, rows: seq<HoldingRow>)
    returns (data: Option<Data>)
    requires Modern(snapshots)
    ensures data == BuildMovers(snapshots, view, period, rows)
  {
    hide Filter, Sort, Shown, MoverOf, Modern, UpColumn, DownColumn;
    if snapshots == [] {
      return None;
    }
    var base := BaseSnapshot(snapshots, period);
    if base.None? {
      return Some(Data(false, [], []));
    }
    var table := Aggregate(rows, Days(base.value.date, snapshots[|snapshots| - 1].date));
    var raw: seq<Mover> := [];
    for i := 0 to |table.order|
      invariant raw == RawOf(table.order[..i], table.entries, view)
    {
      assert table.order[..i + 1][..i] == table.order[..i];
      var key := table.order[i];
      if key in table.entries && Shown(table.entries[key], view) {
        raw := raw + [MoverOf(table.entries[key])];
      }
    }
    assert table.order[..|table.order|] == table.order;
    data := Some(Data(true, UpColumn(raw), DownColumn(raw)));
  }

  // ------------------------------------------------------------ narrowed rows

  /** Only the rows of the two days matter. */
  lemma {:induction false} AggregatedRelevant(rows: seq<HoldingRow>, days: Days)
    ensures Aggregated(Filter(rows, OfDays(days)), days) == Aggregated(rows, days)
  {
    if rows != [] {
      var n := |rows| - 1;
      assert rows == rows[..n] + [rows[n]];
      AggregatedRelevant(rows[..n], days);
      KeptLast(rows[..n], rows[n], days);
    }
  }

  lemma KeptLast(rows: seq<HoldingRow>, row: HoldingRow, days: Days)
    ensures Aggregated(Filter(rows + [row], OfDays(days)), days)
      == if Relevant(row, days) then Put(Aggregated(Filter(rows, OfDays(days)), days), row, days)
         else Aggregated(Filter(rows, OfDays(days)), days)
  {
    hide Put, Filter;
    var kept := Filter(rows, OfDays(days));
    FilterAppend(rows, [row], OfDays(days));
    FilterOne(row, OfDays(days));
    assert (kept + [row])[..|kept|] == kept && kept + [] == kept;
  }

  /** The rows from the base's day on. */
  function SelectHoldingRows(rows: seq<HoldingRow>, snapshots: seq<KeyedSnapshot>, period: Period): seq<HoldingRow>
    requires Modern(snapshots)
  {
    match BaseSnapshot(snapshots, period)
    case None => []
    case Some(base) => Filter(rows, (r: HoldingRow) => AtMost(KeyText(base.date), KeyText(r.date)))
  }

  /** Two sets of rows that agree on the two days give the same movers. */
  lemma SameDaysSameMovers(
    snapshots: seq<KeyedSnapshot>, view: View, period: Period, rows: seq<HoldingRow>, others: seq<HoldingRow>)
    requires Modern(snapshots) && BaseSnapshot(snapshots, period).Some?
    requires snapshots != []
    requires var days := Days(BaseSnapshot(snapshots, period).value.date, snapshots[|snapshots| - 1].date);
      Filter(rows, OfDays(days)) == Filter(others, OfDays(days))
    ensures BuildMovers(snapshots, view, period, rows) == BuildMovers(snapshots, view, period, others)
  {
    hide Filter, Aggregated, UpColumn, DownColumn, RawOf;
    var days := Days(BaseSnapshot(snapshots, period).value.date, snapshots[|snapshots| - 1].date);
    AggregatedRelevant(rows, days);
    AggregatedRelevant(others, days);
  }

  /** Running on the selected rows gives what running on all of them gives. */
  lemma SelectedRowsSuffice(snapshots: seq<KeyedSnapshot>, view: View, period: Period, rows: seq<HoldingRow>)
    requires Modern(snapshots)
    ensures BuildMovers(snapshots, view, period, SelectHoldingRows(rows, snapshots, period))
      == BuildMovers(snapshots, view, period, rows)
  {
    hide Filter, DaysOf, AtMost, KeyText, BaseSnapshot, BuildMovers;
    if BaseSnapshot(snapshots, period).Some? {
      var base := BaseSnapshot(snapshots, period).value;
      BaseIsEarlier(snapshots, period);
      var latest := snapshots[|snapshots| - 1];
      var days := Days(base.date, latest.date);
      var keep := (r: HoldingRow) => AtMost(KeyText(base.date), KeyText(r.date));
      forall r: HoldingRow | r in rows && OfDays(days)(r) ensures keep(r) {
        KeyOrder(base.date, r.date);
      }
      NarrowedSame(rows, keep, OfDays(days));
      SameDaysSameMovers(snapshots, view, period, SelectHoldingRows(rows, snapshots, period), rows);
    } else {
      NoBaseNoRows(snapshots, view, period, rows);
    }
  }

  lemma NoBaseNoRows(snapshots: seq<KeyedSnapshot>, view: View, period: Period, rows: seq<HoldingRow>)
    requires Modern(snapshots) && BaseSnapshot(snapshots, period).None?
    ensures BuildMovers(snapshots, view, period, [])  == BuildMovers(snapshots, view, period, rows)
  {
  }

  /** In the total framing the movers, shown or not, add up to the change between the two days. */
  lemma MoversAddUp(snapshots: seq<KeyedSnapshot>, period: Period, rows: seq<HoldingRow>)
    requires Modern(snapshots) && BaseSnapshot(snapshots, period).Some? && snapshots != []
    ensures var days := Days(BaseSnapshot(snapshots, period).value.date, snapshots[|snapshots| - 1].date);
      var table := Aggregated(rows, days);
      MoverSum(RawOf(table.order, table.entries, Total)) == SumOn(rows, days.latest) - SumOn(rows, days.base)
  {
    hide BaseSnapshot, DaysOf, Aggregated, RawOf;
    BaseIsEarlier(snapshots, period);
    var days := Days(BaseSnapshot(snapshots, period).value.date, snapshots[|snapshots| - 1].date);
    var table := Aggregated(rows, days);
    ImpactsAddUp(rows, days);
    RawAddsUp(table.order, table.entries);
  }

  /** Both periods, each on its own selection; nothing without snapshots. */
  method BuildMoversByPeriod(snapshots: seq<KeyedSnapshot>, view: View, rows: seq<HoldingRow>)
    returns (data: Option<(Data, Data)>)
    requires Modern(snapshots)
    ensures data.None? <==> snapshots == []
    ensures data.Some? ==> BuildMovers(snapshots, view, Month, rows) == Some(data.value.0)
    ensures data.Some? ==> BuildMovers(snapshots, view, Year, rows) == Some(data.value.1)
  {
    hide BaseSnapshot, SelectHoldingRows;
    var month := BuildMoversData(snapshots, view, Month, SelectHoldingRows(rows, snapshots, Month));
    var year := BuildMoversData(snapshots, view, Year, SelectHoldingRows(rows, snapshots, Year));
    SelectedRowsSuffice(snapshots, view, Month, rows);
    SelectedRowsSuffice(snapshots, view, Year, rows);
    if month.None? || year.None? {
      return None;
    }
    data := Some((month.value, year.value));
  }

  // ------------------------------------------------- rows of a bounded read

  /** The rows the page reads when its longest eager range is `read`. */
  function ReadRows(rows: seq<HoldingRow>, today: Date, read: DashboardMatrix.Range): seq<HoldingRow>
    requires Recent(today)
  {
    Filter(rows, (r: HoldingRow) => DashboardCells.ReadsDay(r.date, today, read))
  }

  /** The two days keep their rows exactly when the base is inside the read, or had none. */
  lemma DaysReadExactly(rows: seq<HoldingRow>, today: Date, read: DashboardMatrix.Range, days: Days)
    requires Recent(today) && FourDigit(days.base) && InWindow(days.latest, today, read)
    ensures Filter(ReadRows(rows, today, read), OfDays(days)) == Filter(rows, OfDays(days))
      <==> InWindow(days.base, today, read) || forall r | r in rows :: r.date != days.base
  {
    hide Filter, InWindow, DashboardCells.ReadsDay;
    var keep := (r: HoldingRow) => DashboardCells.ReadsDay(r.date, today, read);
    FilterWithin(rows, keep, OfDays(days));
    forall r: HoldingRow ensures keep(r) <==> InWindow(r.date, today, read) {
      DashboardCells.ReadsDayIsInWindow(r.date, today, read);
    }
    if !InWindow(days.base, today, read) && !(forall r | r in rows :: r.date != days.base) {
      var r: HoldingRow :| r in rows && r.date == days.base;
      assert OfDays(days)(r) && !keep(r);
    }
  }

  /** What a holding's rows of a day add up to. */
  function Figure(rows: seq<HoldingRow>, date: Date, key: string): int {
    if rows == [] then 0
    else (if rows[0].date == date && HoldingKey(rows[0]) == key then Contribution(rows[0]) else 0) + Figure(rows[1..], date, key)
  }

  lemma {:induction false} FigureLast(rows: seq<HoldingRow>, row: HoldingRow, date: Date, key: string)
    ensures Figure(rows + [row], date, key)
      == Figure(rows, date, key) + if row.date == date && HoldingKey(row) == key then Contribution(row) else 0
  {
    hide HoldingKey, Contribution;
    if rows == [] {
      assert rows + [row] == [row] && [row][1..] == [];
    } else {
      assert (rows + [row])[1..] == rows[1..] + [row] && (rows + [row])[0] == rows[0];
      FigureLast(rows[1..], row, date, key);
    }
  }

  /** What an entry says of a holding on either day; a holding without an entry is nothing on both. */
  function EntryFigures(table: Table, key: string): (int, int) {
    if key in table.entries then (table.entries[key].base, table.entries[key].cur) else (0, 0)
  }

  lemma {:induction false} EntriesAreFigures(rows: seq<HoldingRow>, days: Days, key: string)
    requires days.base != days.latest
    ensures EntryFigures(Aggregated(rows, days), key) == (Figure(rows, days.base, key), Figure(rows, days.latest, key))
  {
    hide HoldingKey, Contribution, Figure;
    if rows == [] {
      NoFigures(days, key);
    } else {
      var n := |rows| - 1;
      assert rows == rows[..n] + [rows[n]];
      EntriesAreFigures(rows[..n], days, key);
      FigureLast(rows[..n], rows[n], days.base, key);
      FigureLast(rows[..n], rows[n], days.latest, key);
    }
  }

  lemma NoFigures(days: Days, key: string)
    ensures Figure([], days.base, key) == 0 && Figure([], days.latest, key) == 0
  {
  }

  /** A read keeps a day's figures whole or drops them whole. */
  lemma {:induction false} FigureOfRead(rows: seq<HoldingRow>, today: Date, read: DashboardMatrix.Range, date: Date, key: string)
    requires Recent(today) && FourDigit(date)
    ensures Figure(ReadRows(rows, today, read), date, key)
      == if InWindow(date, today, read) then Figure(rows, date, key) else 0
  {
    hide HoldingKey, Contribution, InWindow, DashboardCells.ReadsDay;
    if rows != [] {
      var keep := (r: HoldingRow) => DashboardCells.ReadsDay(r.date, today, read);
      DashboardCells.ReadsDayIsInWindow(rows[0].date, today, read);
      FigureOfRead(rows[1..], today, read, date, key);
      var rest := ReadRows(rows[1..], today, read);
      assert ([rows[0]] + rest)[1..] == rest && [] + rest == rest;
      assert ReadRows(rows, today, read) == if keep(rows[0]) then [rows[0]] + rest else rest;
    }
  }

  /**
   A holding moves from the bounded read as it does from all rows exactly when the
   base is inside the read or the holding was worth nothing that day.
   */
  lemma ImpactReadExactly(rows: seq<HoldingRow>, today: Date, read: DashboardMatrix.Range, days: Days, key: string)
    requires Recent(today) && FourDigit(days.base) && FourDigit(days.latest) && days.base != days.latest
    requires InWindow(days.latest, today, read)
    ensures var part := EntryFigures(Aggregated(ReadRows(rows, today, read), days), key);
      var whole := EntryFigures(Aggregated(rows, days), key);
      && (part == whole <==> InWindow(days.base, today, read) || Figure(rows, days.base, key) == 0)
      && (part.1 - part.0 == whole.1 - whole.0 <==> InWindow(days.base, today, read) || Figure(rows, days.base, key) == 0)
  {
    hide Figure, ReadRows, InWindow, Aggregated;
    EntriesAreFigures(ReadRows(rows, today, read), days, key);
    EntriesAreFigures(rows, days, key);
    FigureOfRead(rows, today, read, days.base, key);
    FigureOfRead(rows, today, read, days.latest, key);
  }

  const BaseDay := Date(2024, 9, 10)

  const LatestDay := Date(2026, 3, 15)

  function WorthOn(date: Date, valueMinor: int): HoldingRow
    requires FourDigit(date)
  {
    HoldingRow(date, "h", Asset, "h", valueMinor, Some(Cash), false)
  }

  const TwoCloses: seq<KeyedSnapshot> := [Snapshot(BaseDay), Snapshot(LatestDay)]

  const Grown := Mover("h", 50, false, Some(50.0), None)

  const Appeared := Mover("h", 150, false, None, Some(New))

  /** One holding worth 100 at the year's base and 150 now: opened without a range, the page says it is new and gained 150. */
  lemma YearOfOneHolding()
    ensures Modern(TwoCloses) && Recent(LatestDay) && MonthOf(LatestDay) - MonthOf(BaseDay) == 18
    ensures var rows := [WorthOn(BaseDay, 100), WorthOn(LatestDay, 150)];
      var offered := AvailableRanges(18);
      var read := DashboardCells.LongestEager(DashboardCells.ActiveRange(None, offered), offered);
      && BuildMovers(TwoCloses, Total, Year, rows) == Some(Data(true, [Grown], []))
      && BuildMovers(TwoCloses, Total, Year, ReadRows(rows, LatestDay, read)) == Some(Data(true, [Appeared], []))
  {
    hide Aggregated, RawOf, UpColumn, DownColumn, ReadRows, BaseSnapshot;
    var rows := [WorthOn(BaseDay, 100), WorthOn(LatestDay, 150)];
    var days := Days(BaseDay, LatestDay);
    EagerOfOneYear();
    BaseOfTwo();
    ReadOfTwo();
    BothDays(days);
    LatestOnly(days);
    OneColumn(Grown);
    OneColumn(Appeared);
  }

  lemma EagerOfOneYear()
    ensures var offered := AvailableRanges(18);
      DashboardCells.LongestEager(DashboardCells.ActiveRange(None, offered), offered) == DashboardMatrix.OneYear
  {
    hide Filter;
    var offered := AvailableRanges(18);
    assert offered == [DashboardMatrix.OneYear, DashboardMatrix.All];
    FilterOfTwo();
  }

  lemma BaseOfTwo()
    ensures Modern(TwoCloses) && BaseSnapshot(TwoCloses, Year) == Some(Snapshot(BaseDay))
  {
    hide BaseTest, BaseSnapshot, DaysOf;
    MonthsApart(BaseDay, LatestDay);
    BaseIsNewest(TwoCloses, Year);
    assert TwoCloses[0] in TwoCloses && TwoCloses[1] in TwoCloses;
  }

  lemma ReadOfTwo()
    requires Recent(LatestDay)
    ensures ReadRows([WorthOn(BaseDay, 100), WorthOn(LatestDay, 150)], LatestDay, DashboardMatrix.OneYear) == [WorthOn(LatestDay, 150)]
  {
    hide DashboardCells.ReadsDay, Filter;
    DashboardCells.ReadsDayIsInWindow(BaseDay, LatestDay, DashboardMatrix.OneYear);
    DashboardCells.ReadsDayIsInWindow(LatestDay, LatestDay, DashboardMatrix.OneYear);
    var keep := (r: HoldingRow) => DashboardCells.ReadsDay(r.date, LatestDay, DashboardMatrix.OneYear);
    var first, last := WorthOn(BaseDay, 100), WorthOn(LatestDay, 150);
    assert [first] + [last] == [first, last];
    FilterCons(first, [last], keep);
    FilterOne(last, keep);
  }

  lemma AggregatedLast(rows: seq<HoldingRow>, row: HoldingRow, days: Days)
    ensures Aggregated(rows + [row], days)
      == if Relevant(row, days) then Put(Aggregated(rows, days), row, days) else Aggregated(rows, days)
  {
    hide Put;
    assert (rows + [row])[..|rows|] == rows;
  }

  lemma OneRaw(key: string, entry: Agg)
    requires Impact(entry) != 0
    ensures RawOf([key], map[key := entry], Total) == [MoverOf(entry)]
  {
    assert [key][..0] == [];
  }

  lemma BothDays(days: Days)
    requires days == Days(BaseDay, LatestDay)
    ensures var table := Aggregated([WorthOn(BaseDay, 100), WorthOn(LatestDay, 150)], days);
      RawOf(table.order, table.entries, Total) == [Grown]
  {
    hide Aggregated, RawOf, HoldingKey;
    var first, last := WorthOn(BaseDay, 100), WorthOn(LatestDay, 150);
    var key := HoldingKey(first);
    KeyNamesHolding(first, last);
    AggregatedLast([], first, days);
    AggregatedLast([first], last, days);
    NothingAggregated(days);
    assert [] + [first] == [first] && [first] + [last] == [first, last];
    var entry := Agg("h", Asset, 100, 150, Some(Cash), false, true);
    assert Aggregated([first, last], days) == Table([key], map[key := entry]);
    OneRaw(key, entry);
  }

  lemma LatestOnly(days: Days)
    requires days == Days(BaseDay, LatestDay)
    ensures var table := Aggregated([WorthOn(LatestDay, 150)], days);
      RawOf(table.order, table.entries, Total) == [Appeared]
  {
    hide Aggregated, RawOf, HoldingKey;
    var last := WorthOn(LatestDay, 150);
    var key := HoldingKey(last);
    AggregatedLast([], last, days);
    NothingAggregated(days);
    assert [] + [last] == [last];
    var entry := Agg("h", Asset, 0, 150, Some(Cash), false, true);
    assert Aggregated([last], days) == Table([key], map[key := entry]);
    OneRaw(key, entry);
  }

  lemma NothingAggregated(days: Days)
    ensures Aggregated([], days) == NoEntries
  {
  }

  lemma OneColumn(m: Mover)
    requires m.impactMinor > 0
    ensures UpColumn([m]) == [m] && DownColumn([m]) == []
  {
    assert [m][1..] == [];
    assert Sort([m], MostFirst()) == [m];
    assert Filter([m], Gains()) == [m] && Filter([m], Losses()) == [];
  }

  /** A base inside the read leaves the movers as they are. */
  lemma BaseReadSuffices(
    snapshots: seq<KeyedSnapshot>, view: View, period: Period, rows: seq<HoldingRow>, today: Date,
    read: DashboardMatrix.Range)
    requires Modern(snapshots) && Recent(today) && BaseSnapshot(snapshots, period).Some?
    requires InWindow(BaseSnapshot(snapshots, period).value.date, today, read)
    ensures BuildMovers(snapshots, view, period, ReadRows(rows, today, read)) == BuildMovers(snapshots, view, period, rows)
  {
    hide Filter, DaysOf, BaseSnapshot, BuildMovers, DashboardCells.ReadsDay;
    var base := BaseSnapshot(snapshots, period).value;
    BaseIsEarlier(snapshots, period);
    var days := Days(base.date, snapshots[|snapshots| - 1].date);
    var keep := (r: HoldingRow) => DashboardCells.ReadsDay(r.date, today, read);
    forall r: HoldingRow | r in rows && OfDays(days)(r) ensures keep(r) {
      DashboardCells.ReadsDayIsInWindow(r.date, today, read);
    }
    NarrowedSame(rows, keep, OfDays(days));
    SameDaysSameMovers(snapshots, view, period, ReadRows(rows, today, read), rows);
  }

  /** A base outside the read has no rows, so every holding passes for a new one. */
  lemma UnreadBaseMakesAllNew(rows: seq<HoldingRow>, today: Date, read: DashboardMatrix.Range, days: Days, view: View)
    requires Recent(today) && FourDigit(days.base) && !InWindow(days.base, today, read)
    ensures var table := Aggregated(ReadRows(rows, today, read), days);
      forall m | m in RawOf(table.order, table.entries, view) :: m.tag == Some(New) && m.pct == None
  {
    hide Filter, EntryOf, InWindow, DashboardCells.ReadsDay;
    var kept := ReadRows(rows, today, read);
    var table := Aggregated(kept, days);
    FilterMembers(rows, (r: HoldingRow) => DashboardCells.ReadsDay(r.date, today, read));
    AggregatedHolds(kept, days);
    DashboardCells.ReadsDayIsInWindow(days.base, today, read);
    forall key | key in table.entries ensures table.entries[key].base == 0 {
      var mine := RowsOf(kept, days, key);
      assert EntryHolds(table, kept, days, key);
      FilterMembers(kept, OfDays(days));
      FilterMembers(Filter(kept, OfDays(days)), Is(key));
      NoBaseRows(mine, days);
    }
    RawOfNew(table.order, table.entries, view);
  }

  lemma NoBaseRows(rows: seq<HoldingRow>, days: Days)
    requires rows != [] && forall r | r in rows :: r.date == days.latest
    ensures EntryOf(rows, days).base == 0
  {
    FilterAllOrNone(rows, On(days.latest));
  }

  lemma {:induction false} RawOfNew(order: seq<string>, entries: map<string, Agg>, view: View)
    requires forall key | key in entries :: entries[key].base == 0
    ensures forall m | m in RawOf(order, entries, view) :: m.tag == Some(New) && m.pct == None
  {
    if order != [] {
      RawOfNew(order[..|order| - 1], entries, view);
    }
  }

  /**
   A history of more than a year and up to three, opened without naming a range,
   reads one year back: the year's base always lies before it.
   */
  lemma YearBaseIsUnread(snapshots: seq<KeyedSnapshot>, spanMonths: int, today: Date)
    requires Modern(snapshots) && Recent(today) && BaseSnapshot(snapshots, Year).Some?
    requires snapshots != [] && MonthOf(snapshots[|snapshots| - 1].date) <= MonthOf(today)
    requires 12 < spanMonths <= 36
    ensures var offered := AvailableRanges(spanMonths);
      var read := DashboardCells.LongestEager(DashboardCells.ActiveRange(None, offered), offered);
      !InWindow(BaseSnapshot(snapshots, Year).value.date, today, read)
  {
    hide BaseSnapshot, DaysOf;
    BaseIsEarlier(snapshots, Year);
    var offered := AvailableRanges(spanMonths);
    assert offered == [DashboardMatrix.OneYear, DashboardMatrix.All];
    assert offered[1..] == [DashboardMatrix.All];
    FilterOfTwo();
  }

  lemma FilterOfTwo()
    ensures Filter([DashboardMatrix.OneYear, DashboardMatrix.All], DashboardCells.Bounded) == [DashboardMatrix.OneYear]
    ensures Filter([DashboardMatrix.OneYear], DashboardCells.Bounded) == [DashboardMatrix.OneYear]
  {
    assert [DashboardMatrix.OneYear, DashboardMatrix.All][1..] == [DashboardMatrix.All];
    assert [DashboardMatrix.All][1..] == [];
  }
}
