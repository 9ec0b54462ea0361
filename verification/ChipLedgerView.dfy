/**
 The holding ledger's decisions (`chip-ledger-view.ts`): the groups, the reducer,
 the basket and the view of a state.
 */
module ChipLedgerView {
  import opened Text
  import opened Sorting

  type Id = string

  datatype Rung = Cash | Market | TermLocked | Illiquid | Housing

  const Ladder: seq<Rung> := [Cash, Market, TermLocked, Illiquid, Housing]

  datatype Asset = Asset(id: Id, name: string, rung: Rung, valueMinor: int, searchText: string)

  datatype Row = Row(id: Id, name: string, searchText: string, checked: bool)

  datatype Group = Group(rung: Rung, rows: seq<Row>)

  // ------------------------------------------------------------------ groups

  /** An option with its place in the catalogue. */
  datatype Placed = Placed(asset: Asset, index: nat)

  function ValueOrder(): (Placed, Placed) -> bool {
    (a: Placed, b: Placed) =>
      a.asset.valueMinor > b.asset.valueMinor
      || (a.asset.valueMinor == b.asset.valueMinor && a.index <= b.index)
  }

  function Place(options: seq<Asset>): (placed: seq<Placed>)
    ensures |placed| == |options|
    ensures forall i :: 0 <= i < |placed| ==> placed[i] == Placed(options[i], i)
  {
    seq(|options|, i requires 0 <= i < |options| => Placed(options[i], i))
  }

  function OnRung(rung: Rung): Placed -> bool {
    (p: Placed) => p.asset.rung == rung
  }

  function RungOptions(options: seq<Asset>, rung: Rung): seq<Placed> {
    Sort(Filter(Place(options), OnRung(rung)), ValueOrder())
  }

  function ToRows(placed: seq<Placed>, selectedIds: set<Id>): (rows: seq<Row>)
    ensures |rows| == |placed|
    ensures forall i :: 0 <= i < |rows| ==> var a := placed[i].asset; rows[i] == Row(a.id, a.name, a.searchText, a.id in selectedIds)
  {
    seq(|placed|, i requires 0 <= i < |placed| =>
      var a := placed[i].asset; Row(a.id, a.name, a.searchText, a.id in selectedIds))
  }

  function GroupsOn(rungs: seq<Rung>, options: seq<Asset>, selectedIds: set<Id>): seq<Group> {
    if rungs == [] then []
    else
      var rows := ToRows(RungOptions(options, rungs[0]), selectedIds);
      (if rows == [] then [] else [Group(rungs[0], rows)]) + GroupsOn(rungs[1..], options, selectedIds)
  }

  /** The ladder's rungs in order, empty ones dropped, the largest value first. */
  function Groups(options: seq<Asset>, selectedIds: set<Id>): seq<Group> {
    GroupsOn(Ladder, options, selectedIds)
  }

  lemma ValueOrderTotal()
    ensures TotalPreorder(ValueOrder())
  {
  }

  lemma {:induction false} FilterHolds<T>(s: seq<T>, keep: T -> bool)
    ensures forall x :: multiset(Filter(s, keep))[x] == if keep(x) then multiset(s)[x] else 0
  {
    if s != [] {
      FilterHolds(s[1..], keep);
      assert s == [s[0]] + s[1..];
    }
  }

  /** Largest value first, and the catalogue's order among equals. */
  ghost predicate ByValue(placed: seq<Placed>) {
    forall i, j :: 0 <= i < j < |placed| ==>
      placed[i].asset.valueMinor > placed[j].asset.valueMinor
      || (placed[i].asset.valueMinor == placed[j].asset.valueMinor && placed[i].index <= placed[j].index)
  }

  /** A group holds every option of its rung exactly as often as the catalogue does, by value. */
  lemma RungHoldsItsOptions(options: seq<Asset>, rung: Rung)
    ensures ByValue(RungOptions(options, rung))
    ensures forall p ::
      multiset(RungOptions(options, rung))[p] == if p.asset.rung == rung then multiset(Place(options))[p] else 0
  {
    hide Sort, Filter;
    var of := Filter(Place(options), OnRung(rung));
    ValueOrderTotal();
    SortSorts(of, ValueOrder());
    SortPermutes(of, ValueOrder());
    FilterHolds(Place(options), OnRung(rung));
  }

  /** The groups stand in ladder order, none empty, each with the rows of its rung. */
  lemma {:induction false} GroupsOfRungs(rungs: seq<Rung>, options: seq<Asset>, selectedIds: set<Id>)
    requires forall i, j :: 0 <= i < j < |rungs| ==> rungs[i] != rungs[j]
    ensures var groups := GroupsOn(rungs, options, selectedIds);
            && (forall i, j :: 0 <= i < j < |groups| ==> groups[i].rung != groups[j].rung)
            && (forall g | g in groups :: g.rung in rungs && g.rows != []
                  && g.rows == ToRows(RungOptions(options, g.rung), selectedIds))
            && (forall r | r in rungs && RungOptions(options, r) != [] :: exists g :: g in groups && g.rung == r)
  {
    hide RungOptions;
    if rungs != [] {
      GroupsOfRungs(rungs[1..], options, selectedIds);
      var first := ToRows(RungOptions(options, rungs[0]), selectedIds);
      var rest := GroupsOn(rungs[1..], options, selectedIds);
      forall r | r in rungs && RungOptions(options, r) != []
        ensures exists g :: g in GroupsOn(rungs, options, selectedIds) && g.rung == r
      {
        if r == rungs[0] {
          assert Group(r, first) in GroupsOn(rungs, options, selectedIds);
        } else {
          assert r in rungs[1..];
          var g :| g in rest && g.rung == r;
          assert g in GroupsOn(rungs, options, selectedIds);
        }
      }
    }
  }

  /** Every option of the catalogue is a row of exactly one group, its own rung's. */
  lemma EveryOptionGrouped(options: seq<Asset>, selectedIds: set<Id>, k: nat)
    requires k < |options|
    ensures exists g ::
      && g in Groups(options, selectedIds) && g.rung == options[k].rung
      && Row(options[k].id, options[k].name, options[k].searchText, options[k].id in selectedIds) in g.rows
      && forall other :: other in Groups(options, selectedIds) && other.rung == g.rung ==> other == g
  {
    hide RungOptions, GroupsOn;
    var rung := options[k].rung;
    GroupsOfRungs(Ladder, options, selectedIds);
    RungHoldsItsOptions(options, rung);
    var placed := RungOptions(options, rung);
    assert Place(options)[k] in multiset(Place(options));
    assert Place(options)[k] in multiset(placed);
    var i :| 0 <= i < |placed| && placed[i] == Place(options)[k];
    assert rung in Ladder by {
      assert Ladder[0] == Cash && Ladder[1] == Market && Ladder[2] == TermLocked
          && Ladder[3] == Illiquid && Ladder[4] == Housing;
    }
    var groups := Groups(options, selectedIds);
    var g :| g in groups && g.rung == rung;
    assert g.rows == ToRows(placed, selectedIds);
    assert g.rows[i] == Row(options[k].id, options[k].name, options[k].searchText, options[k].id in selectedIds);
  }

  // ------------------------------------------------------------------- state

  /** A JavaScript `Set` kept in insertion order: no element twice. */
  predicate Distinct<T(==)>(s: seq<T>) {
    forall i, j :: 0 <= i < j < |s| ==> s[i] != s[j]
  }

  datatype State = State(
    query: string,
    selected: seq<Id>,
    touched: set<Id>,
    unfolded: set<Rung>,
    expanded: set<Rung>)

  datatype Action =
    | Search(query: string)
    | Toggle(id: Id, checked: bool)
    | Add(id: Id, rung: Rung)
    | Fold(rung: Rung)
    | Window(rung: Rung)
    | Sync(checkedIds: seq<Id>)

  function AllRows(groups: seq<Group>): seq<Row> {
    if groups == [] then [] else groups[0].rows + AllRows(groups[1..])
  }

  function RowIds(rows: seq<Row>): (ids: seq<Id>)
    ensures |ids| == |rows|
    ensures forall i :: 0 <= i < |ids| ==> ids[i] == rows[i].id
  {
    seq(|rows|, i requires 0 <= i < |rows| => rows[i].id)
  }

  function CheckedIds(rows: seq<Row>): seq<Id> {
    if rows == [] then [] else (if rows[0].checked then [rows[0].id] else []) + CheckedIds(rows[1..])
  }

  function InitialState(groups: seq<Group>): State {
    State("", CheckedIds(AllRows(groups)), {}, {}, {})
  }

  function Flip<T(==)>(s: set<T>, item: T): set<T> {
    if item in s then s - {item} else s + {item}
  }

  function Without(ids: seq<Id>, id: Id): seq<Id> {
    if ids == [] then [] else (if ids[0] == id then [] else [ids[0]]) + Without(ids[1..], id)
  }

  /** `add` on a set leaves a present element where it is; `delete` takes it out. */
  function WithMark(selected: seq<Id>, id: Id, checked: bool): seq<Id> {
    if checked then (if id in selected then selected else selected + [id]) else Without(selected, id)
  }

  function Elements(ids: seq<Id>): set<Id> {
    set id | id in ids
  }

  function Reduce(state: State, action: Action): State {
    match action
    case Search(query) => state.(query := query)
    case Toggle(id, checked) =>
      state.(selected := WithMark(state.selected, id, checked), touched := state.touched + {id})
    case Add(id, rung) =>
      state.(unfolded := state.unfolded + {rung}, query := "",
             selected := WithMark(state.selected, id, true), touched := state.touched + {id})
    case Fold(rung) => state.(unfolded := Flip(state.unfolded, rung))
    case Window(rung) => state.(expanded := Flip(state.expanded, rung))
    case Sync(checkedIds) =>
      var checked, selected := Elements(checkedIds), Elements(state.selected);
      var flipped := (checked - selected) + (selected - checked);
      if flipped == {} then state
      else state.(selected := checkedIds, touched := state.touched + flipped)
  }

  lemma {:induction false} WithoutHolds(ids: seq<Id>, id: Id)
    ensures forall x :: x in Without(ids, id) <==> x in ids && x != id
    ensures Distinct(ids) ==> Distinct(Without(ids, id))
    ensures id !in ids ==> Without(ids, id) == ids
  {
    if ids != [] {
      WithoutHolds(ids[1..], id);
      assert forall x :: x in ids <==> x == ids[0] || x in ids[1..];
      if Distinct(ids) {
        assert forall i :: 0 <= i < |ids[1..]| ==> ids[1..][i] == ids[i + 1];
        assert ids[0] !in Without(ids[1..], id);
        ConsDistinct(ids[0], Without(ids[1..], id));
      }
    }
  }

  lemma ConsDistinct<T>(x: T, s: seq<T>)
    requires Distinct(s) && x !in s
    ensures Distinct([x] + s)
  {
  }

  // -------------------------------------------------------------------- view

  /** What the search reads: a query folded and trimmed, looked for in the row's own text. */
  function Normalize(query: string, fold: char -> string): string {
    Trim(FoldText(query, fold))
  }

  function FoldText(text: string, fold: char -> string): string {
    if text == "" then "" else fold(text[0]) + FoldText(text[1..], fold)
  }

  predicate Includes(text: string, part: string) {
    exists k :: 0 <= k <= |text| && part <= text[k..]
  }

  predicate Matches(row: Row, needle: string) {
    Includes(row.searchText, needle)
  }

  const Preview := 5

  const FoldedRungs: set<Rung> := {Illiquid, Housing}

  datatype More = NoMore | ShowMore(count: nat) | ShowLess

  datatype RowView = RowView(row: Row, visible: bool, target: bool)

  datatype GroupView = GroupView(rung: Rung, rows: seq<RowView>, more: More, chosenCount: nat, open: bool, shown: bool)

  datatype Target = Target(row: Row, rung: Rung)

  datatype View = View(groups: seq<GroupView>, searching: bool, matchCount: nat, target: Option<Target>)

  function FirstTarget(groups: seq<Group>, selected: seq<Id>, needle: string): Option<Target> {
    if groups == [] then None
    else
      match FirstInGroup(groups[0].rows, groups[0].rung, selected, needle)
      case Some(t) => Some(t)
      case None => FirstTarget(groups[1..], selected, needle)
  }

  function FirstInGroup(rows: seq<Row>, rung: Rung, selected: seq<Id>, needle: string): Option<Target> {
    if rows == [] then None
    else if Matches(rows[0], needle) && rows[0].id !in selected then Some(Target(rows[0], rung))
    else FirstInGroup(rows[1..], rung, selected, needle)
  }

  /** A row in sight when nothing is searched. */
  predicate VisibleAtRest(state: State, rung: Rung, row: Row, index: nat) {
    rung in state.expanded || index < Preview || row.checked || row.id in state.touched
  }

  function ViewRows(group: Group, state: State, needle: string, target: Option<Target>): (rows: seq<RowView>)
    ensures |rows| == |group.rows|
    ensures forall i :: 0 <= i < |rows| ==>
      && rows[i].row == group.rows[i]
      && rows[i].visible == (if needle != "" then Matches(group.rows[i], needle)
                             else VisibleAtRest(state, group.rung, group.rows[i], i))
      && rows[i].target == (target.Some? && target.value.row.id == group.rows[i].id)
  {
    seq(|group.rows|, i requires 0 <= i < |group.rows| =>
      RowView(group.rows[i],
              if needle != "" then Matches(group.rows[i], needle) else VisibleAtRest(state, group.rung, group.rows[i], i),
              target.Some? && target.value.row.id == group.rows[i].id))
  }

  function CountVisible(rows: seq<RowView>): (n: nat)
    ensures n <= |rows|
  {
    if rows == [] then 0 else CountVisible(rows[..|rows| - 1]) + if rows[|rows| - 1].visible then 1 else 0
  }

  function CountChosen(rows: seq<Row>, selected: seq<Id>): nat {
    if rows == [] then 0 else (if rows[0].id in selected then 1 else 0) + CountChosen(rows[1..], selected)
  }

  function ViewGroup(group: Group, state: State, needle: string, target: Option<Target>): GroupView {
    var searching := needle != "";
    var rows := ViewRows(group, state, needle, target);
    var visible := CountVisible(rows);
    var folded := group.rung in FoldedRungs;
    var more :=
      if searching || |rows| <= Preview then NoMore
      else if group.rung in state.expanded then ShowLess
      else if |rows| - visible > 0 then ShowMore(|rows| - visible)
      else NoMore;
    GroupView(group.rung, rows, more, CountChosen(group.rows, state.selected),
              searching || !folded || group.rung in state.unfolded, !searching || visible > 0)
  }

  function ViewGroups(groups: seq<Group>, state: State, needle: string, target: Option<Target>): (views: seq<GroupView>)
    ensures |views| == |groups|
    ensures forall i :: 0 <= i < |views| ==> views[i] == ViewGroup(groups[i], state, needle, target)
  {
    seq(|groups|, i requires 0 <= i < |groups| => ViewGroup(groups[i], state, needle, target))
  }

  function CountMatches(views: seq<GroupView>): nat {
    if views == [] then 0 else CountVisible(views[0].rows) + CountMatches(views[1..])
  }

  function ViewOf(groups: seq<Group>, state: State, fold: char -> string): View {
    var needle := Normalize(state.query, fold);
    var searching := needle != "";
    var target := if searching then FirstTarget(groups, state.selected, needle) else None;
    var views := ViewGroups(groups, state, needle, target);
    View(views, searching, if searching then CountMatches(views) else 0, target)
  }

  lemma {:induction false} AllVisible(rows: seq<RowView>)
    ensures CountVisible(rows) == |rows| <==> forall i :: 0 <= i < |rows| ==> rows[i].visible
  {
    if rows != [] {
      var n := |rows| - 1;
      AllVisible(rows[..n]);
    }
  }

  /**
   No row is ever dropped, and none hides unannounced: at rest, a group with rows
   out of sight says under «Ver N más» exactly how many, and a group that says
   nothing, or offers to show less, shows them all.
   */
  lemma NothingHidesUnannounced(groups: seq<Group>, state: State, fold: char -> string, i: nat)
    requires i < |groups|
    ensures var view := ViewOf(groups, state, fold);
            var g := view.groups[i];
            && |view.groups| == |groups| && g.rung == groups[i].rung
            && |g.rows| == |groups[i].rows| && (forall k :: 0 <= k < |g.rows| ==> g.rows[k].row == groups[i].rows[k])
            && (view.searching ==> g.more == NoMore)
            && (!view.searching ==>
                  && (g.more == ShowLess <==> |g.rows| > 5 && g.rung in state.expanded)
                  && (g.more.ShowMore? ==> g.more.count > 0 && CountVisible(g.rows) + g.more.count == |g.rows|)
                  && (!g.more.ShowMore? ==> forall k :: 0 <= k < |g.rows| ==> g.rows[k].visible))
  {
    var needle := Normalize(state.query, fold);
    hide Matches, Normalize, FirstTarget;
    var view := ViewOf(groups, state, fold);
    AllVisible(view.groups[i].rows);
  }

  /** A row the search flags: it matches and is not chosen yet. */
  predicate Flagged(row: Row, selected: seq<Id>, needle: string) {
    Matches(row, needle) && row.id !in selected
  }

  /** Nothing is flagged before row `r` of group `g`, in ledger order. */
  ghost predicate NoneBefore(groups: seq<Group>, selected: seq<Id>, needle: string, g: nat, r: nat)
    requires g < |groups| && r <= |groups[g].rows|
  {
    && (forall i, k :: 0 <= i < g && 0 <= k < |groups[i].rows| ==> !Flagged(groups[i].rows[k], selected, needle))
    && (forall k :: 0 <= k < r ==> !Flagged(groups[g].rows[k], selected, needle))
  }

  lemma {:induction false} FirstInGroupIsFirst(rows: seq<Row>, rung: Rung, selected: seq<Id>, needle: string)
    returns (r: nat)
    ensures forall k :: 0 <= k < r && k < |rows| ==> !Flagged(rows[k], selected, needle)
    ensures r <= |rows| && (r < |rows| ==> Flagged(rows[r], selected, needle))
    ensures FirstInGroup(rows, rung, selected, needle) == if r < |rows| then Some(Target(rows[r], rung)) else None
  {
    hide Matches;
    if rows == [] || Flagged(rows[0], selected, needle) {
      r := 0;
    } else {
      r := FirstInGroupIsFirst(rows[1..], rung, selected, needle);
      assert forall k :: 0 < k < |rows| ==> rows[k] == rows[1..][k - 1];
      r := r + 1;
    }
  }

  /** The target is the row at `g`, `r`, flagged and with none before it. */
  ghost predicate IsTarget(groups: seq<Group>, selected: seq<Id>, needle: string, target: Target, g: nat, r: nat) {
    && g < |groups| && r < |groups[g].rows|
    && target == Target(groups[g].rows[r], groups[g].rung)
    && Flagged(groups[g].rows[r], selected, needle)
    && NoneBefore(groups, selected, needle, g, r)
  }

  ghost predicate NoneFlagged(groups: seq<Group>, selected: seq<Id>, needle: string) {
    forall i, k :: 0 <= i < |groups| && 0 <= k < |groups[i].rows| ==> !Flagged(groups[i].rows[k], selected, needle)
  }

  /** What Enter would add: the first unchosen match in ledger order, and nothing only when there is none. */
  lemma {:induction false} TargetIsFirst(groups: seq<Group>, selected: seq<Id>, needle: string)
    ensures FirstTarget(groups, selected, needle).None? <==> NoneFlagged(groups, selected, needle)
    ensures FirstTarget(groups, selected, needle).Some? ==>
              exists g: nat, r: nat :: IsTarget(groups, selected, needle, FirstTarget(groups, selected, needle).value, g, r)
  {
    hide Flagged, FirstInGroup;
    if groups != [] {
      var r := FirstInGroupIsFirst(groups[0].rows, groups[0].rung, selected, needle);
      if r < |groups[0].rows| {
        assert IsTarget(groups, selected, needle, FirstTarget(groups, selected, needle).value, 0, r);
      } else {
        var rest := groups[1..];
        TargetIsFirst(rest, selected, needle);
        assert forall i :: 0 < i < |groups| ==> groups[i] == rest[i - 1];
        assert NoneFlagged(rest, selected, needle) <==> NoneFlagged(groups, selected, needle) by {
          if NoneFlagged(groups, selected, needle) {
            assert forall i :: 0 <= i < |rest| ==> rest[i] == groups[i + 1];
          }
        }
        var target := FirstTarget(rest, selected, needle);
        if target.Some? {
          var g: nat, k: nat :| IsTarget(rest, selected, needle, target.value, g, k);
          assert groups[g + 1] == rest[g];
          assert IsTarget(groups, selected, needle, target.value, g + 1, k);
        }
      }
    }
  }

  /** Nothing shown at rest goes out of sight under the finger: only the window's own control hides rows. */
  lemma RestVisibleGrows(state: State, action: Action, rung: Rung, row: Row, index: nat)
    requires VisibleAtRest(state, rung, row, index)
    requires action != Window(rung)
    ensures VisibleAtRest(Reduce(state, action), rung, row, index)
  {
  }

  /** A row Enter adds is in sight, its search cleared and its group open. */
  lemma AddedRowShows(groups: seq<Group>, state: State, fold: char -> string, g: nat, r: nat)
    requires g < |groups| && r < |groups[g].rows|
    ensures var after := Reduce(state, Add(groups[g].rows[r].id, groups[g].rung));
            var view := ViewOf(groups, after, fold);
            !view.searching && view.groups[g].open && view.groups[g].rows[r].visible
              && groups[g].rows[r].id in after.selected
  {
    hide Matches, FirstTarget;
    var after := Reduce(state, Add(groups[g].rows[r].id, groups[g].rung));
    assert FoldText("", fold) == "";
    assert Normalize(after.query, fold) == "";
  }

  // ------------------------------------------------------------------ basket

  function FindRow(rows: seq<Row>, id: Id): Option<Row> {
    if rows == [] then None else if rows[0].id == id then Some(rows[0]) else FindRow(rows[1..], id)
  }

  function BasketOf(rows: seq<Row>, ids: seq<Id>): seq<Row> {
    if ids == [] then []
    else
      (match FindRow(rows, ids[0])
       case Some(row) => [row]
       case None => []) + BasketOf(rows, ids[1..])
  }

  /** The chosen rows in the order they were chosen. */
  function Basket(groups: seq<Group>, state: State): seq<Row> {
    BasketOf(AllRows(groups), state.selected)
  }

  lemma {:induction false} FindRowFinds(rows: seq<Row>, id: Id)
    ensures id in RowIds(rows) ==> FindRow(rows, id).Some? && FindRow(rows, id).value.id == id && FindRow(rows, id).value in rows
    ensures id !in RowIds(rows) ==> FindRow(rows, id).None?
  {
    if rows != [] {
      FindRowFinds(rows[1..], id);
      assert RowIds(rows) == [rows[0].id] + RowIds(rows[1..]);
    }
  }

  /** The basket lists the chosen ids one by one, in their order, when each is a row. */
  lemma {:induction false} BasketInOrder(rows: seq<Row>, ids: seq<Id>)
    requires forall id | id in ids :: id in RowIds(rows)
    ensures RowIds(BasketOf(rows, ids)) == ids
  {
    hide FindRow;
    if ids != [] {
      FindRowFinds(rows, ids[0]);
      BasketInOrder(rows, ids[1..]);
      assert RowIds(BasketOf(rows, ids)) == [ids[0]] + RowIds(BasketOf(rows, ids[1..]));
    }
  }

  // ------------------------------------------------ what a state shows, literally

  /** Where a rung stands on the ladder. */
  function Height(rung: Rung): nat {
    match rung
    case Cash => 0
    case Market => 1
    case TermLocked => 2
    case Illiquid => 3
    case Housing => 4
  }

  lemma {:induction false} GroupsAscend(rungs: seq<Rung>, options: seq<Asset>, selectedIds: set<Id>)
    requires forall i, j :: 0 <= i < j < |rungs| ==> Height(rungs[i]) < Height(rungs[j])
    ensures var groups := GroupsOn(rungs, options, selectedIds);
      && (forall g | g in groups :: g.rung in rungs)
      && forall i, j :: 0 <= i < j < |groups| ==> Height(groups[i].rung) < Height(groups[j].rung)
  {
    hide RungOptions, Height;
    if rungs != [] {
      var rest := GroupsOn(rungs[1..], options, selectedIds);
      GroupsAscend(rungs[1..], options, selectedIds);
      forall j | 0 <= j < |rest| ensures Height(rungs[0]) < Height(rest[j].rung) {
        assert rest[j] in rest;
        var k :| 0 <= k < |rungs[1..]| && rungs[1..][k] == rest[j].rung;
        assert rungs[k + 1] == rest[j].rung;
      }
    }
  }

  lemma LadderAscends()
    ensures forall i, j :: 0 <= i < j < |Ladder| ==> Height(Ladder[i]) < Height(Ladder[j])
  {
  }

  /** The groups climb the ladder: cash, market, locked terms, illiquid, housing. */
  lemma LadderOrder(options: seq<Asset>, selectedIds: set<Id>)
    ensures var groups := Groups(options, selectedIds);
      forall i, j :: 0 <= i < j < |groups| ==> Height(groups[i].rung) < Height(groups[j].rung)
  {
    hide GroupsOn, Height;
    assert Groups(options, selectedIds) == GroupsOn(Ladder, options, selectedIds);
    LadderAscends();
    GroupsAscend(Ladder, options, selectedIds);
  }

  /** How many rows stand before a group. */
  function RowsBefore(groups: seq<Group>, g: nat): nat
    requires g <= |groups|
  {
    if g == 0 then 0 else RowsBefore(groups, g - 1) + |groups[g - 1].rows|
  }

  lemma {:induction false} RowsBeforeTail(groups: seq<Group>, g: nat)
    requires 0 < g <= |groups|
    ensures RowsBefore(groups, g) == |groups[0].rows| + RowsBefore(groups[1..], g - 1)
  {
    if g > 1 {
      RowsBeforeTail(groups, g - 1);
    } else {
      assert RowsBefore(groups, 0) == 0;
    }
  }

  /** The rows of the document are those of the groups, group after group. */
  lemma {:induction false} DocumentOrder(groups: seq<Group>, g: nat, r: nat)
    requires g < |groups| && r < |groups[g].rows|
    ensures |AllRows(groups)| == RowsBefore(groups, |groups|)
    ensures RowsBefore(groups, g) + r < |AllRows(groups)|
    ensures AllRows(groups)[RowsBefore(groups, g) + r] == groups[g].rows[r]
    decreases groups
  {
    AllRowsCount(groups);
    if g > 0 {
      RowsBeforeTail(groups, g);
      RowsBeforeTail(groups, |groups|);
      DocumentOrder(groups[1..], g - 1, r);
    } else {
      RowsBeforeTail(groups, |groups|);
    }
  }

  lemma {:induction false} AllRowsCount(groups: seq<Group>)
    ensures |AllRows(groups)| == RowsBefore(groups, |groups|)
  {
    if groups != [] {
      AllRowsCount(groups[1..]);
      RowsBeforeTail(groups, |groups|);
    }
  }

  predicate Ascends(at: seq<nat>) {
    forall i, j :: 0 <= i < j < |at| ==> at[i] < at[j]
  }

  /** `at` are the places of the marked rows, and `ids` their ids, in order. */
  ghost predicate MarkedAt(rows: seq<Row>, at: seq<nat>, ids: seq<Id>) {
    && Ascends(at) && |at| == |ids|
    && (forall i :: 0 <= i < |at| ==> at[i] < |rows| && rows[at[i]].checked && rows[at[i]].id == ids[i])
    && forall k :: 0 <= k < |rows| && rows[k].checked ==> k in at
  }

  /** The ids of the marked rows are listed in the order of the rows. */
  lemma {:induction false} MarkedInOrder(rows: seq<Row>) returns (at: seq<nat>)
    ensures MarkedAt(rows, at, CheckedIds(rows))
  {
    if rows == [] {
      at := [];
    } else {
      var n := |rows| - 1;
      at := MarkedInOrder(rows[..n]);
      assert rows == rows[..n] + [rows[n]];
      CheckedLast(rows[..n], rows[n]);
      if rows[n].checked {
        at := at + [n];
      }
    }
  }

  lemma {:induction false} CheckedLast(rows: seq<Row>, row: Row)
    ensures CheckedIds(rows + [row]) == CheckedIds(rows) + if row.checked then [row.id] else []
  {
    if rows == [] {
      assert rows + [row] == [row] && [row][1..] == [];
    } else {
      assert (rows + [row])[1..] == rows[1..] + [row] && (rows + [row])[0] == rows[0];
      CheckedLast(rows[1..], row);
    }
  }

  /** An island opens with nothing searched, touched or unfolded, and chosen what was marked. */
  lemma OpensAsMarked(groups: seq<Group>) returns (at: seq<nat>)
    ensures var state := InitialState(groups); var rows := AllRows(groups);
      && state.query == "" && state.touched == {} && state.unfolded == {} && state.expanded == {}
      && MarkedAt(rows, at, state.selected)
  {
    at := MarkedInOrder(AllRows(groups));
  }

  /** A folded text is its characters folded one after another. */
  lemma {:induction false} FoldJoins(a: string, b: string, fold: char -> string)
    ensures FoldText(a + b, fold) == FoldText(a, fold) + FoldText(b, fold)
    ensures forall c :: FoldText([c], fold) == fold(c)
  {
    if a == "" {
      assert a + b == b;
      OneFolded(fold);
    } else {
      assert (a + b)[1..] == a[1..] + b;
      FoldJoins(a[1..], b, fold);
    }
  }

  lemma OneFolded(fold: char -> string)
    ensures forall c :: FoldText([c], fold) == fold(c)
  {
    forall c ensures FoldText([c], fold) == fold(c) {
      assert [c][1..] == "";
      assert fold(c) + "" == fold(c);
    }
  }

  /** Where a text holds another. */
  predicate HoldsAt(text: string, part: string, k: nat) {
    k + |part| <= |text| && text[k..k + |part|] == part
  }

  lemma IncludesHolds(text: string, part: string)
    ensures Includes(text, part) <==> exists k: nat :: HoldsAt(text, part, k)
  {
    if Includes(text, part) {
      var k :| 0 <= k <= |text| && part <= text[k..];
      assert text[k..][..|part|] == text[k..k + |part|];
      assert HoldsAt(text, part, k);
    }
    if k: nat :| HoldsAt(text, part, k) {
      assert part <= text[k..];
    }
  }

  /**
   Searching for a query that folds to a needle between blanks shows exactly the
   rows whose text holds the needle, opens every group, and puts aside the groups
   without a match; a query that folds to blanks searches for nothing.
   */
  lemma SearchShows(
    groups: seq<Group>, state: State, query: string, fold: char -> string,
    before: string, needle: string, after: string, g: nat)
    requires FoldText(query, fold) == before + needle + after && AllBlank(before) && AllBlank(after)
    requires needle != "" ==> !IsBlank(needle[0]) && !IsBlank(needle[|needle| - 1])
    requires g < |groups|
    ensures var view := ViewOf(groups, Reduce(state, Search(query)), fold); var shown := view.groups[g];
      && (view.searching <==> needle != "")
      && |shown.rows| == |groups[g].rows|
      && (needle == "" ==> view.matchCount == 0 && view.target.None? && shown.shown)
      && (needle != "" ==>
            && shown.open && view.matchCount == CountMatches(view.groups)
            && (forall r :: 0 <= r < |shown.rows| ==>
                  (shown.rows[r].visible <==> exists k: nat :: HoldsAt(groups[g].rows[r].searchText, needle, k)))
            && (shown.shown <==> exists r :: 0 <= r < |shown.rows| && shown.rows[r].visible))
  {
    hide Includes, FirstTarget, Trim, HoldsAt;
    TrimBetween(before, needle, after);
    var view := ViewOf(groups, Reduce(state, Search(query)), fold);
    SomeVisible(view.groups[g].rows);
    forall r | 0 <= r < |groups[g].rows| && needle != ""
      ensures Matches(groups[g].rows[r], needle) <==> exists k: nat :: HoldsAt(groups[g].rows[r].searchText, needle, k)
    {
      IncludesHolds(groups[g].rows[r].searchText, needle);
    }
  }

  lemma {:induction false} SomeVisible(rows: seq<RowView>)
    ensures CountVisible(rows) > 0 <==> exists r :: 0 <= r < |rows| && rows[r].visible
  {
    if rows != [] {
      var n := |rows| - 1;
      SomeVisible(rows[..n]);
      assert forall r :: 0 <= r < n ==> rows[..n][r] == rows[r];
    }
  }

  lemma {:induction false} MatchesOfRows(views: seq<GroupView>, others: seq<GroupView>)
    requires |views| == |others| && forall i :: 0 <= i < |views| ==> views[i].rows == others[i].rows
    ensures CountMatches(views) == CountMatches(others)
  {
    if views != [] {
      MatchesOfRows(views[1..], others[1..]);
    }
  }

  /** Folding or unfolding a rung changes what is open, of that rung, at rest, and only if it starts folded. */
  lemma FoldOpens(groups: seq<Group>, state: State, rung: Rung, fold: char -> string)
    ensures var was, view := ViewOf(groups, state, fold), ViewOf(groups, Reduce(state, Fold(rung)), fold);
      && view.searching == was.searching && view.matchCount == was.matchCount && view.target == was.target
      && |view.groups| == |was.groups| == |groups|
      && forall g :: 0 <= g < |groups| ==>
           view.groups[g]
           == was.groups[g].(open := if !was.searching && groups[g].rung == rung && (rung == Illiquid || rung == Housing)
                                     then !was.groups[g].open else was.groups[g].open)
  {
    hide CountMatches, FirstTarget, Normalize, Matches;
    var after := Reduce(state, Fold(rung));
    var was, view := ViewOf(groups, state, fold), ViewOf(groups, after, fold);
    forall g | 0 <= g < |groups|
      ensures view.groups[g].rows == was.groups[g].rows
    {
      FoldKeepsRows(groups[g], state, rung, Normalize(state.query, fold), was.target);
    }
    MatchesOfRows(view.groups, was.groups);
  }

  lemma FoldKeepsRows(group: Group, state: State, rung: Rung, needle: string, target: Option<Target>)
    ensures ViewRows(group, Reduce(state, Fold(rung)), needle, target) == ViewRows(group, state, needle, target)
  {
  }

  /** A group opened for the first time shows itself unless it holds what rarely funds a goal. */
  lemma StartsFolded(groups: seq<Group>, fold: char -> string, g: nat)
    requires g < |groups|
    ensures var view := ViewOf(groups, InitialState(groups), fold);
      !view.searching && view.groups[g].shown
      && (view.groups[g].open <==> groups[g].rung != Illiquid && groups[g].rung != Housing)
  {
  }

  /** Lifting a window at rest shows all rows of its rung, closing it the five first, the marked and the touched. */
  lemma WindowShows(groups: seq<Group>, state: State, rung: Rung, fold: char -> string, g: nat)
    requires g < |groups|
    ensures var was, view := ViewOf(groups, state, fold), ViewOf(groups, Reduce(state, Window(rung)), fold);
      && view.searching == was.searching && |view.groups| == |was.groups|
      && (groups[g].rung != rung || was.searching ==> view.groups[g] == was.groups[g])
      && (groups[g].rung == rung && !was.searching ==>
            && view.groups[g].open == was.groups[g].open
            && forall r :: 0 <= r < |groups[g].rows| ==>
                 (view.groups[g].rows[r].visible
                  <==> rung !in state.expanded || r < 5 || groups[g].rows[r].checked
                       || groups[g].rows[r].id in state.touched))
  {
    hide CountMatches, FirstTarget, Normalize, Matches, CountVisible, CountChosen;
    var needle := Normalize(state.query, fold);
    var was := ViewOf(groups, state, fold);
    if groups[g].rung != rung || needle != "" {
      WindowKeepsRows(groups[g], state, rung, needle, was.target);
    }
  }

  lemma WindowKeepsRows(group: Group, state: State, rung: Rung, needle: string, target: Option<Target>)
    requires group.rung != rung || needle != ""
    ensures ViewRows(group, Reduce(state, Window(rung)), needle, target) == ViewRows(group, state, needle, target)
  {
  }

  /** A group counts as chosen the rows the state has chosen. */
  lemma {:induction false} ChosenAre(rows: seq<Row>, selected: seq<Id>) returns (at: seq<nat>)
    ensures Ascends(at) && |at| == CountChosen(rows, selected)
    ensures forall k: nat :: k in at <==> k < |rows| && rows[k].id in selected
  {
    if rows == [] {
      at := [];
    } else {
      var n := |rows| - 1;
      at := ChosenAre(rows[..n], selected);
      assert rows == rows[..n] + [rows[n]];
      ChosenLast(rows[..n], rows[n], selected);
      if rows[n].id in selected {
        assert forall i :: 0 <= i < |at| ==> at[i] in at;
        at := at + [n];
      }
    }
  }

  lemma {:induction false} ChosenLast(rows: seq<Row>, row: Row, selected: seq<Id>)
    ensures CountChosen(rows + [row], selected) == CountChosen(rows, selected) + if row.id in selected then 1 else 0
  {
    if rows == [] {
      assert rows + [row] == [row] && [row][1..] == [];
    } else {
      assert (rows + [row])[1..] == rows[1..] + [row] && (rows + [row])[0] == rows[0];
      ChosenLast(rows[1..], row, selected);
    }
  }

  /** A group counts as visible its visible rows. */
  lemma {:induction false} VisibleAre(rows: seq<RowView>) returns (at: seq<nat>)
    ensures Ascends(at) && |at| == CountVisible(rows)
    ensures forall k: nat :: k in at <==> k < |rows| && rows[k].visible
  {
    if rows == [] {
      at := [];
    } else {
      var n := |rows| - 1;
      at := VisibleAre(rows[..n]);
      if rows[n].visible {
        assert forall i :: 0 <= i < |at| ==> at[i] in at;
        at := at + [n];
      }
    }
  }

  /** The matches are counted group by group: those of the groups before, and those of the last. */
  lemma {:induction false} MatchesAdd(views: seq<GroupView>, last: GroupView)
    ensures CountMatches(views + [last]) == CountMatches(views) + CountVisible(last.rows)
    ensures CountMatches([]) == 0
  {
    if views == [] {
      assert views + [last] == [last] && [last][1..] == [];
    } else {
      assert (views + [last])[1..] == views[1..] + [last] && (views + [last])[0] == views[0];
      MatchesAdd(views[1..], last);
    }
  }
}
