/**
 The weekly window and the bands of the home hero (`hero-breakdown-data.ts`).
 */
module HeroBreakdown {
  import opened Text
  import opened Calendar
  import opened DateKeys
  import opened Sorting
  import CompositionChart
  import DashboardCells
  import DashboardMatrix

  // -------------------------------------------------------------- date shift

  /** `new Date(…).toISOString().slice(0, 10)` of a day number. */
  function IsoSlice(day: int): string {
    var date := DateOf(day);
    if FourDigit(date) then KeyText(date)
    else ((if date.year < 0 then "-" else "+") + Padded(if date.year < 0 then -date.year else date.year, 6)
          + "-" + Padded(date.month, 2) + "-" + Padded(date.day, 2))[..10]
  }

  /** The numbers of a key: year, month and day. */
  function KeyDate(dateKey: string): Option<Date> {
    var parts := Split(dateKey, '-');
    if |parts| == 3 && AllDigits(parts[0]) && AllDigits(parts[1]) && AllDigits(parts[2]) then
      Some(Date(Value(parts[0]), Value(parts[1]), Value(parts[2])))
    else None
  }

  function ShiftDaysUTC(dateKey: string, days: int): string {
    match KeyDate(dateKey)
    case Some(date) => IsoSlice(UtcDay(date.year, date.month - 1, date.day + days))
    case None => "Invalid Date"
  }

  lemma KeyDateOfKey(date: Date)
    requires FourDigit(date)
    ensures KeyDate(KeyText(date)) == Some(date)
  {
    hide Split, Value, Padded, KeyText;
    SplitKey(date);
    FieldWidths(date);
  }

  /**
   Shifting a key lands exactly that many days away, as long as the landing year
   has a four-digit key; years 0000 to 0099 are moved to the twentieth century
   first, and always miss.
   */
  lemma ShiftLands(date: Date, days: int)
    requires FourDigit(date) && FourDigit(DateOf(DaysOf(date) + days))
    ensures ShiftDaysUTC(KeyText(date), days) == KeyText(DateOf(DaysOf(date) + days)) <==> date.year >= 100
  {
    hide DateOf, YearStart, MonthStart, MonthLength, KeyText, KeyDate;
    KeyDateOfKey(date);
    var there := DaysOf(date) + days;
    if date.year >= 100 {
      assert UtcDay(date.year, date.month - 1, date.day + days) == there;
    } else {
      var moved := UtcDay(date.year, date.month - 1, date.day + days);
      MovedShift(date, days);
      DaysOfDateOf(moved);
      DaysOfDateOf(there);
      if FourDigit(DateOf(moved)) {
        KeyOrder(DateOf(moved), DateOf(there));
      } else {
        SignedKey(moved, DateOf(there));
      }
    }
  }

  lemma MovedShift(date: Date, days: int)
    requires Valid(date) && 0 <= date.year <= 99
    ensures UtcDay(date.year, date.month - 1, date.day + days) > DaysOf(date) + days
  {
    hide YearStart, MonthStart, MonthLength;
    var moved := date.(year := 1900 + date.year);
    assert UtcDay(date.year, date.month - 1, date.day + days)
        == YearStart(moved.year) + MonthStart(moved.year, date.month) + date.day + days - 1;
    DateSpan(date);
    YearStartStep(date.year);
    YearStartMonotone(date.year + 1, moved.year);
  }

  /** A year outside four digits is printed with a sign, so it is never a key. */
  lemma SignedKey(day: int, date: Date)
    requires FourDigit(date) && !FourDigit(DateOf(day))
    ensures IsoSlice(day) != KeyText(date)
  {
    hide DateOf, Padded, MonthLength;
    FieldWidths(date);
    assert KeyText(date)[0] == Padded(date.year, 4)[0];
    assert Padded(date.year, 4)[0] in Padded(date.year, 4);
    var year := DateOf(day).year;
    var sign := if year < 0 then "-" else "+";
    var rest := Padded(if year < 0 then -year else year, 6)
      + "-" + Padded(DateOf(day).month, 2) + "-" + Padded(DateOf(day).day, 2);
    IsoSliceFar(day, sign, rest);
  }

  lemma IsoSliceFar(day: int, sign: string, rest: string)
    requires !FourDigit(DateOf(day))
    requires sign == if DateOf(day).year < 0 then "-" else "+"
    requires rest == Padded(if DateOf(day).year < 0 then -DateOf(day).year else DateOf(day).year, 6)
                     + "-" + Padded(DateOf(day).month, 2) + "-" + Padded(DateOf(day).day, 2)
    ensures IsoSlice(day) != "" && IsoSlice(day)[0] == sign[0]
  {
    hide DateOf, MonthLength, Dec;
    var date := DateOf(day);
    var text := (if date.year < 0 then "-" else "+") + Padded(if date.year < 0 then -date.year else date.year, 6)
          + "-" + Padded(date.month, 2) + "-" + Padded(date.day, 2);
    assert text == sign + rest;
    assert IsoSlice(day) == text[..10];
  }

  // ------------------------------------------------------------ weekly base

  datatype Snapshot = Snapshot(id: string, date: Date, totalMinor: int) {
    function DateKey(): string
      requires FourDigit(date)
    {
      KeyText(date)
    }
  }

  /** Keys the application writes: four-digit years that `Date.UTC` leaves alone. */
  predicate Keyed(snapshot: Snapshot) {
    FourDigit(snapshot.date) && snapshot.date.year >= 100
  }

  type KeyedSnapshot = s: Snapshot | Keyed(s) witness Snapshot("", Date(1970, 1, 1), 0)

  function KeyLeq(): (KeyedSnapshot, KeyedSnapshot) -> bool {
    (a: KeyedSnapshot, b: KeyedSnapshot) => AtMost(a.DateKey(), b.DateKey())
  }

  /** The last element `a <= target` holds of, looking from the end. */
  function LastAtMost(ordered: seq<KeyedSnapshot>, target: string): Option<KeyedSnapshot> {
    if ordered == [] then None
    else
      var last := ordered[|ordered| - 1];
      if AtMost(last.DateKey(), target) then Some(last)
      else LastAtMost(ordered[..|ordered| - 1], target)
  }

  const WeeklyWindowDays := 7

  datatype Window = Window(base: KeyedSnapshot, latest: KeyedSnapshot)

  function WeeklyWindow(snapshots: seq<KeyedSnapshot>): Option<Window> {
    var ordered := Sort(snapshots, KeyLeq());
    if |ordered| < 2 then None
    else
      var latest := ordered[|ordered| - 1];
      match LastAtMost(ordered, ShiftDaysUTC(latest.DateKey(), -WeeklyWindowDays))
      case Some(base) => Some(Window(base, latest))
      case None => None
  }

  function Day(s: KeyedSnapshot): int {
    DaysOf(s.date)
  }

  lemma KeyLeqIsDayOrder(a: KeyedSnapshot, b: KeyedSnapshot)
    ensures KeyLeq()(a, b) <==> Day(a) <= Day(b)
  {
    hide KeyText, Less, DaysOf;
    KeyOrder(a.date, b.date);
  }

  lemma KeyLeqTotal()
    ensures TotalPreorder(KeyLeq())
  {
    hide KeyLeq, Day;
    forall a: KeyedSnapshot, b: KeyedSnapshot ensures KeyLeq()(a, b) <==> Day(a) <= Day(b) {
      KeyLeqIsDayOrder(a, b);
    }
  }

  /** `found` is a newest snapshot dated `bound` or before, absent only when there is none. */
  ghost predicate NewestUpTo(snapshots: seq<KeyedSnapshot>, bound: int, found: Option<KeyedSnapshot>) {
    match found
    case None => forall s | s in snapshots :: Day(s) > bound
    case Some(base) =>
      && base in snapshots && Day(base) <= bound
      && forall s | s in snapshots && Day(s) <= bound :: Day(s) <= Day(base)
  }

  ghost predicate DaySorted(ordered: seq<KeyedSnapshot>) {
    forall i, j :: 0 <= i < j < |ordered| ==> Day(ordered[i]) <= Day(ordered[j])
  }

  lemma {:induction false} LastAtMostFinds(ordered: seq<KeyedSnapshot>, target: Date)
    requires FourDigit(target) && DaySorted(ordered)
    ensures NewestUpTo(ordered, DaysOf(target), LastAtMost(ordered, KeyText(target)))
  {
    hide KeyText, Less, DaysOf, AtMost;
    if ordered != [] {
      var last := ordered[|ordered| - 1];
      var before := ordered[..|ordered| - 1];
      KeyOrder(last.date, target);
      assert forall s :: s in ordered <==> s in before || s == last by {
        assert ordered == before + [last];
      }
      if Day(last) > DaysOf(target) {
        LastAtMostFinds(before, target);
      }
    }
  }

  /** The newest snapshot, in chronological order. */
  ghost predicate Newest(snapshots: seq<KeyedSnapshot>, latest: KeyedSnapshot) {
    latest in snapshots && forall s | s in snapshots :: Day(s) <= Day(latest)
  }

  lemma WeekBefore(latest: KeyedSnapshot)
    ensures var target := DateOf(Day(latest) - WeeklyWindowDays);
            && FourDigit(target) && DaysOf(target) == Day(latest) - WeeklyWindowDays
            && ShiftDaysUTC(latest.DateKey(), -WeeklyWindowDays) == KeyText(target)
  {
    hide DateOf, YearStart, MonthStart, MonthLength, KeyText, ShiftDaysUTC;
    var day := Day(latest) - WeeklyWindowDays;
    var target := DateOf(day);
    DaysOfDateOf(day);
    DateSpan(latest.date);
    DateSpan(target);
    YearStartMonotone(100, latest.date.year);
    YearStartStep(99);
    if target.year < 99 {
      YearStartMonotone(target.year + 1, 99);
    }
    if target.year > latest.date.year {
      YearStartMonotone(latest.date.year + 1, target.year);
    }
    ShiftLands(latest.date, -WeeklyWindowDays);
  }

  lemma SortedByDay(snapshots: seq<KeyedSnapshot>)
    ensures DaySorted(Sort(snapshots, KeyLeq()))
    ensures forall s :: s in Sort(snapshots, KeyLeq()) <==> s in snapshots
    ensures |Sort(snapshots, KeyLeq())| == |snapshots|
  {
    hide Sort, KeyLeq, Day;
    var ordered := Sort(snapshots, KeyLeq());
    SortPermutes(snapshots, KeyLeq());
    SameElements(ordered, snapshots);
    KeyLeqTotal();
    SortSorts(snapshots, KeyLeq());
    forall i, j | 0 <= i < j < |ordered| ensures Day(ordered[i]) <= Day(ordered[j]) {
      KeyLeqIsDayOrder(ordered[i], ordered[j]);
    }
  }

  /**
   The weekly base is the newest snapshot at least seven days before the latest,
   and it is missing exactly when no snapshot is that old.
   */
  lemma WeeklyBase(snapshots: seq<KeyedSnapshot>, latest: KeyedSnapshot)
    requires Newest(snapshots, latest)
    ensures WeeklyWindow(snapshots).Some? ==>
              Newest(snapshots, WeeklyWindow(snapshots).value.latest)
    ensures NewestUpTo(snapshots, Day(latest) - WeeklyWindowDays,
                       if WeeklyWindow(snapshots).Some? then Some(WeeklyWindow(snapshots).value.base) else None)
  {
    hide Sort, LastAtMost, ShiftDaysUTC, DateOf, KeyText, KeyLeq, Day;
    var ordered := Sort(snapshots, KeyLeq());
    SortedByDay(snapshots);
    var last := ordered[|ordered| - 1];
    assert Day(last) == Day(latest);
    if |ordered| < 2 {
      assert ordered == [last];
    } else {
      WeekBefore(last);
      LastAtMostFinds(ordered, DateOf(Day(last) - WeeklyWindowDays));
    }
  }

  // ------------------------------------------------- rows of a bounded read

  /** A snapshot's id is listed with rows when some snapshot of that id is of a day with rows. */
  predicate HasRows(snapshots: seq<KeyedSnapshot>, rowDays: seq<Date>, id: string) {
    exists s :: s in snapshots && s.id == id && s.date in rowDays
  }

  /** The window is shown only when rows of both its days were read. */
  function WeeklyShown(snapshots: seq<KeyedSnapshot>, rowDays: seq<Date>): Option<Window> {
    match WeeklyWindow(snapshots)
    case None => None
    case Some(window) =>
      if HasRows(snapshots, rowDays, window.base.id) && HasRows(snapshots, rowDays, window.latest.id) then Some(window)
      else None
  }

  predicate DistinctIds(snapshots: seq<KeyedSnapshot>) {
    forall a, b | a in snapshots && b in snapshots && a.id == b.id :: a == b
  }

  type KeyedDay = d: Date | FourDigit(d) witness Date(1970, 1, 1)

  /** The days of the rows the page reads when its longest eager range is `read`. */
  function ReadDays(rowDays: seq<KeyedDay>, today: Date, read: DashboardMatrix.Range): seq<KeyedDay>
    requires CompositionChart.Recent(today)
  {
    Filter(rowDays, (d: KeyedDay) => DashboardCells.ReadsDay(d, today, read))
  }

  lemma WindowIsOfSnapshots(snapshots: seq<KeyedSnapshot>)
    requires WeeklyWindow(snapshots).Some?
    ensures var window := WeeklyWindow(snapshots).value;
      window.base in snapshots && window.latest in snapshots && Day(window.base) <= Day(window.latest) - WeeklyWindowDays
  {
    hide Sort, LastAtMost, ShiftDaysUTC, DateOf, KeyText, KeyLeq, Day;
    var ordered := Sort(snapshots, KeyLeq());
    SortedByDay(snapshots);
    var last := ordered[|ordered| - 1];
    assert last in ordered;
    WeekBefore(last);
    LastAtMostFinds(ordered, DateOf(Day(last) - WeeklyWindowDays));
  }

  lemma RowsOfOwnDay(snapshots: seq<KeyedSnapshot>, rowDays: seq<Date>, s: KeyedSnapshot)
    requires DistinctIds(snapshots) && s in snapshots
    ensures HasRows(snapshots, rowDays, s.id) <==> s.date in rowDays
  {
  }

  /**
   From the bounded read the weekly window is shown exactly when it exists, both
   its days have stored rows and its base lies inside the read; so it is the window
   of all rows exactly when the base is inside, or either day had no rows anyway.
   */
  lemma WeeklyReadExactly(snapshots: seq<KeyedSnapshot>, rowDays: seq<KeyedDay>, today: Date, read: DashboardMatrix.Range)
    requires CompositionChart.Recent(today) && DistinctIds(snapshots)
    requires forall s | s in snapshots && Newest(snapshots, s) :: CompositionChart.InWindow(s.date, today, read)
    ensures var window := WeeklyWindow(snapshots);
      var stored := window.Some? && window.value.base.date in rowDays && window.value.latest.date in rowDays;
      && (WeeklyShown(snapshots, ReadDays(rowDays, today, read)).Some?
          <==> stored && CompositionChart.InWindow(window.value.base.date, today, read))
      && (WeeklyShown(snapshots, ReadDays(rowDays, today, read)) == WeeklyShown(snapshots, rowDays)
          <==> (stored ==> CompositionChart.InWindow(window.value.base.date, today, read)))
  {
    hide WeeklyWindow, DashboardCells.ReadsDay, CompositionChart.InWindow, HasRows, Filter, Day, KeyText, Newest;
    var keep := (d: KeyedDay) => DashboardCells.ReadsDay(d, today, read);
    if WeeklyWindow(snapshots).Some? {
      var window := WeeklyWindow(snapshots).value;
      WindowIsOfSnapshots(snapshots);
      LatestIsNewest(snapshots);
      FilterMembers(rowDays, keep);
      DashboardCells.ReadsDayIsInWindow(window.base.date, today, read);
      DashboardCells.ReadsDayIsInWindow(window.latest.date, today, read);
      RowsOfOwnDay(snapshots, rowDays, window.base);
      RowsOfOwnDay(snapshots, rowDays, window.latest);
      RowsOfOwnDay(snapshots, ReadDays(rowDays, today, read), window.base);
      RowsOfOwnDay(snapshots, ReadDays(rowDays, today, read), window.latest);
    }
  }

  lemma LatestIsNewest(snapshots: seq<KeyedSnapshot>)
    requires WeeklyWindow(snapshots).Some?
    ensures Newest(snapshots, WeeklyWindow(snapshots).value.latest)
  {
    hide Sort, LastAtMost, ShiftDaysUTC, DateOf, KeyText, KeyLeq, Day;
    var ordered := Sort(snapshots, KeyLeq());
    SortedByDay(snapshots);
    var last := ordered[|ordered| - 1];
    assert last in ordered;
  }

  // ------------------------------------------------------------------- bands

  datatype BandId = Market | Payouts | NetSavings
  datatype Sign = Pos | Neg | Zero
  datatype Band = Band(id: BandId, amountMinor: int, sign: Sign, weight: real)

  function SignOf(amountMinor: int): Sign {
    if amountMinor > 0 then Pos else if amountMinor < 0 then Neg else Zero
  }

  function Abs(n: int): nat {
    if n < 0 then -n else n
  }

  function Magnitude(amounts: seq<(BandId, int)>): nat {
    if amounts == [] then 0 else Magnitude(amounts[..|amounts| - 1]) + Abs(amounts[|amounts| - 1].1)
  }

  function WeightSum(bands: seq<Band>): real {
    if bands == [] then 0.0 else WeightSum(bands[..|bands| - 1]) + bands[|bands| - 1].weight
  }

  method TotalMagnitude(amounts: seq<(BandId, int)>) returns (total: nat)
    ensures total == Magnitude(amounts)
  {
    total := 0;
    for i := 0 to |amounts|
      invariant total == Magnitude(amounts[..i])
    {
      assert amounts[..i + 1][..i] == amounts[..i];
      total := total + Abs(amounts[i].1);
    }
    assert amounts[..|amounts|] == amounts;
  }

  /** The weight is the part of the total the amount moves; a total that moves nothing has no parts. */
  predicate IsShare(weight: real, amountMinor: int, total: nat) {
    && 0.0 <= weight <= 1.0
    && (if total == 0 then weight == 0.0
        else weight * total as real == if amountMinor < 0 then -(amountMinor as real) else amountMinor as real)
  }

  predicate Weighed(amount: (BandId, int), band: Band, total: nat) {
    && band.id == amount.0 && band.amountMinor == amount.1
    && (band.sign == Pos <==> amount.1 > 0) && (band.sign == Neg <==> amount.1 < 0)
    && IsShare(band.weight, amount.1, total)
  }

  predicate EachWeighed(amounts: seq<(BandId, int)>, bands: seq<Band>, total: nat) {
    |bands| == |amounts| && forall j :: 0 <= j < |bands| ==> Weighed(amounts[j], bands[j], total)
  }

  /** Each band weighs its share of the whole movement; together they weigh one, if anything moved. */
  method WeighBands(amounts: seq<(BandId, int)>) returns (weighed: seq<Band>)
    ensures EachWeighed(amounts, weighed, Magnitude(amounts))
    ensures WeightSum(weighed) == if Magnitude(amounts) == 0 then 0.0 else 1.0
  {
    hide Ratio, Magnitude, WeightSum, Abs, IsShare;
    var total := TotalMagnitude(amounts);
    WholeRatio(total);
    EmptySums(amounts);
    weighed := [];
    for i := 0 to |amounts|
      invariant EachWeighed(amounts[..i], weighed, total)
      invariant WeightSum(weighed) == Ratio(Magnitude(amounts[..i]), total)
    {
      var amount := Abs(amounts[i].1);
      var band := Band(amounts[i].0, amounts[i].1, SignOf(amounts[i].1), Ratio(amount, total));
      WeightStep(weighed, band);
      MagnitudeStep(amounts, i);
      PartOfMagnitude(amounts, i);
      RatioAdd(Magnitude(amounts[..i]), amount, total);
      RatioIsShare(amounts[i].1, total);
      weighed := weighed + [band];
    }
    assert amounts[..|amounts|] == amounts;
  }

  /** The bands in their fixed order, the payouts one only when there are payouts. */
  method ToHeroBands(marketMinor: int, payoutsMinor: int, netSavingsMinor: int) returns (bands: seq<Band>)
    ensures |bands| == if payoutsMinor == 0 then 2 else 3
    ensures var total :=
        (if marketMinor < 0 then -marketMinor else marketMinor) + (if payoutsMinor < 0 then -payoutsMinor else payoutsMinor)
        + (if netSavingsMinor < 0 then -netSavingsMinor else netSavingsMinor);
      && Weighed((Market, marketMinor), bands[0], total)
      && (payoutsMinor != 0 ==> Weighed((Payouts, payoutsMinor), bands[1], total))
      && Weighed((NetSavings, netSavingsMinor), bands[|bands| - 1], total)
    ensures WeightSum(bands) == if marketMinor == payoutsMinor == netSavingsMinor == 0 then 0.0 else 1.0
  {
    var ordered: seq<(BandId, int)> := [(Market, marketMinor)];
    if payoutsMinor != 0 {
      ordered := ordered + [(Payouts, payoutsMinor)];
    }
    ordered := ordered + [(NetSavings, netSavingsMinor)];
    assert ordered[0].1 == marketMinor && ordered[|ordered| - 1].1 == netSavingsMinor;
    MagnitudeOfOrdered(ordered, marketMinor, payoutsMinor, netSavingsMinor);
    bands := WeighBands(ordered);
  }

  function Ratio(a: nat, total: nat): real {
    if total == 0 then 0.0 else a as real / total as real
  }

  lemma RatioAdd(a: nat, b: nat, total: nat)
    ensures Ratio(a, total) + Ratio(b, total) == Ratio(a + b, total)
  {
    if total != 0 {
      var t := total as real;
      var p, q := Ratio(a, total), Ratio(b, total);
      QuotientTimes(a as real, t);
      QuotientTimes(b as real, t);
      assert (p + q) * t == p * t + q * t;
      TimesQuotient(p + q, t);
    }
  }

  lemma EmptySums(amounts: seq<(BandId, int)>)
    ensures Magnitude(amounts[..0]) == 0 && WeightSum([]) == 0.0
  {
  }

  lemma WeightStep(bands: seq<Band>, band: Band)
    ensures WeightSum(bands + [band]) == WeightSum(bands) + band.weight
  {
    assert (bands + [band])[..|bands|] == bands;
  }

  lemma MagnitudeStep(amounts: seq<(BandId, int)>, i: nat)
    requires i < |amounts|
    ensures Magnitude(amounts[..i + 1]) == Magnitude(amounts[..i]) + Abs(amounts[i].1)
  {
    assert amounts[..i + 1][..i] == amounts[..i];
  }

  lemma WholeRatio(total: nat)
    ensures Ratio(total, total) == if total == 0 then 0.0 else 1.0
    ensures Ratio(0, total) == 0.0
  {
  }

  lemma QuotientTimes(x: real, t: real)
    requires t > 0.0
    ensures (x / t) * t == x
  {
  }

  lemma TimesQuotient(x: real, t: real)
    requires t > 0.0
    ensures (x * t) / t == x
  {
  }

  lemma RatioRange(a: nat, total: nat)
    requires a <= total
    ensures 0.0 <= Ratio(a, total) <= 1.0
  {
    if total != 0 {
      var t := total as real;
      QuotientTimes(a as real, t);
      var p := a as real / t;
      assert p * t <= 1.0 * t;
    }
  }

  lemma RatioIsShare(amountMinor: int, total: nat)
    requires Abs(amountMinor) <= total
    ensures IsShare(Ratio(Abs(amountMinor), total), amountMinor, total)
  {
    RatioRange(Abs(amountMinor), total);
    if total != 0 {
      QuotientTimes(Abs(amountMinor) as real, total as real);
    }
  }

  lemma {:induction false} PartOfMagnitude(amounts: seq<(BandId, int)>, i: nat)
    requires i < |amounts|
    ensures Abs(amounts[i].1) <= Magnitude(amounts)
  {
    var n := |amounts| - 1;
    if i < n {
      PartOfMagnitude(amounts[..n], i);
    }
  }

  lemma MagnitudeLast(amounts: seq<(BandId, int)>, last: (BandId, int))
    ensures Magnitude(amounts + [last]) == Magnitude(amounts) + Abs(last.1)
  {
    assert (amounts + [last])[..|amounts|] == amounts;
  }

  lemma MagnitudeOfOrdered(ordered: seq<(BandId, int)>, market: int, payouts: int, savings: int)
    requires ordered == [(Market, market)] + (if payouts != 0 then [(Payouts, payouts)] else []) + [(NetSavings, savings)]
    ensures Magnitude(ordered) == Abs(market) + Abs(payouts) + Abs(savings)
  {
    var first := [(Market, market)];
    MagnitudeLast([], (Market, market));
    assert [] + first == first;
    MagnitudeLast(first, (Payouts, payouts));
    var head := first + if payouts != 0 then [(Payouts, payouts)] else [];
    MagnitudeLast(head, (NetSavings, savings));
    assert payouts == 0 ==> head == first;
  }
}
