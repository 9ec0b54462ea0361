/**
 The holding ledger's island (`chip-ledger.tsx`): native boxes, the reducer's
 mirror of them, and every handler as a step over both.
 */
module ChipLedger {
  import opened Text
  import opened ChipLedgerView

  /** The browser's boxes, the reducer's state, and the syncs a form reset has put off. */
  datatype Page = Page(boxes: map<Id, bool>, state: State, pending: nat)

  datatype Event =
    | Click(id: Id)
    | Enter
    | Remove(id: Id)
    | Type(query: string)
    | Escape
    | FoldGroup(rung: Rung)
    | MoreOrLess(rung: Rung)
    | Reset
    | Timer

  /** The ids of the boxes, in document order. */
  function BoxIds(groups: seq<Group>): seq<Id> {
    RowIds(AllRows(groups))
  }

  /** A ledger prints one box for each option. */
  predicate Ledger(groups: seq<Group>) {
    Distinct(BoxIds(groups))
  }

  predicate Boxed(groups: seq<Group>, boxes: map<Id, bool>) {
    boxes.Keys == Elements(BoxIds(groups))
  }

  function CheckedAmong(ids: seq<Id>, boxes: map<Id, bool>): seq<Id> {
    if ids == [] then []
    else (if ids[0] in boxes && boxes[ids[0]] then [ids[0]] else []) + CheckedAmong(ids[1..], boxes)
  }

  /** The checked boxes, in document order: what the form posts. */
  function Posted(groups: seq<Group>, boxes: map<Id, bool>): seq<Id> {
    CheckedAmong(BoxIds(groups), boxes)
  }

  /** `defaultChecked` of every box. */
  function Defaults(rows: seq<Row>): map<Id, bool> {
    if rows == [] then map[] else Defaults(rows[..|rows| - 1])[rows[|rows| - 1].id := rows[|rows| - 1].checked]
  }

  function DoSync(groups: seq<Group>, page: Page): Page {
    page.(state := Reduce(page.state, Sync(Posted(groups, page.boxes))))
  }

  /** After hydration: whatever boxes the browser held, read once. */
  function Mount(groups: seq<Group>, boxes: map<Id, bool>): Page {
    DoSync(groups, Page(boxes, InitialState(groups), 0))
  }

  function Step(groups: seq<Group>, fold: char -> string, page: Page, event: Event): Page {
    match event
    case Click(id) =>
      if id in page.boxes then
        var checked := !page.boxes[id];
        page.(boxes := page.boxes[id := checked], state := Reduce(page.state, Toggle(id, checked)))
      else page
    case Enter =>
      (match ViewOf(groups, page.state, fold).target
       case None => page
       case Some(t) =>
         if t.row.id !in page.boxes then page else
         page.(boxes := page.boxes[t.row.id := true], state := Reduce(page.state, Add(t.row.id, t.rung))))
    case Remove(id) =>
      if id in page.boxes && id in page.state.selected then
        page.(boxes := page.boxes[id := false], state := Reduce(page.state, Toggle(id, false)))
      else page
    case Type(query) => page.(state := Reduce(page.state, Search(query)))
    case Escape =>
      if ViewOf(groups, page.state, fold).searching then page.(state := Reduce(page.state, Search(""))) else page
    case FoldGroup(rung) => page.(state := Reduce(page.state, Fold(rung)))
    case MoreOrLess(rung) => page.(state := Reduce(page.state, Window(rung)))
    case Reset => page.(boxes := Defaults(AllRows(groups)), pending := page.pending + 1)
    case Timer => if page.pending > 0 then DoSync(groups, page).(pending := page.pending - 1) else page
  }

  function Run(groups: seq<Group>, fold: char -> string, page: Page, events: seq<Event>): Page {
    if events == [] then page
    else Step(groups, fold, Run(groups, fold, page, events[..|events| - 1]), events[|events| - 1])
  }

  // -------------------------------------------------------------- the island

  class Island {
    const groups: seq<Group>
    const fold: char -> string
    var boxes: map<Id, bool>
    var state: State
    var pending: nat

    function Now(): Page
      reads this
    {
      Page(boxes, state, pending)
    }

    constructor (groups: seq<Group>, fold: char -> string, boxes: map<Id, bool>)
      ensures this.groups == groups && this.fold == fold
      ensures Now() == Mount(groups, boxes)
    {
      this.groups := groups;
      this.fold := fold;
      this.boxes := boxes;
      this.state := InitialState(groups);
      this.pending := 0;
      new;
      SyncNow();
    }

    method Dispatch(action: Action)
      modifies this`state
      ensures state == Reduce(old(state), action)
    {
      state := Reduce(state, action);
    }

    method SyncNow()
      modifies this`state
      ensures Now() == DoSync(groups, old(Now()))
    {
      var ids := BoxIds(groups);
      var checked: seq<Id> := [];
      for i := 0 to |ids|
        invariant checked + CheckedAmong(ids[i..], boxes) == CheckedAmong(ids, boxes)
      {
        assert ids[i..][1..] == ids[i + 1..];
        if ids[i] in boxes && boxes[ids[i]] {
          checked := checked + [ids[i]];
        }
      }
      Dispatch(Sync(checked));
    }

    method OnChange(id: Id)
      modifies this`boxes, this`state
      ensures Now() == Step(groups, fold, old(Now()), Click(id))
    {
      if id in boxes {
        boxes := boxes[id := !boxes[id]];
        Dispatch(Toggle(id, boxes[id]));
      }
    }

    method OnEnter()
      modifies this`boxes, this`state
      ensures Now() == Step(groups, fold, old(Now()), Enter)
    {
      var view := ViewOf(groups, state, fold);
      if view.target.Some? && view.target.value.row.id in boxes {
        var target := view.target.value;
        boxes := boxes[target.row.id := true];
        Dispatch(Add(target.row.id, target.rung));
      }
    }

    method RemoveFromBasket(id: Id)
      modifies this`boxes, this`state
      ensures Now() == Step(groups, fold, old(Now()), Remove(id))
    {
      if id in boxes && id in state.selected {
        boxes := boxes[id := false];
        Dispatch(Toggle(id, false));
      }
    }

    method OnEscape()
      modifies this`state
      ensures Now() == Step(groups, fold, old(Now()), Escape)
    {
      if ViewOf(groups, state, fold).searching {
        Dispatch(Search(""));
      }
    }

    /** The form resets: the listener puts a sync off, then the boxes go back to their defaults. */
    method OnReset()
      modifies this`boxes, this`pending
      ensures Now() == Step(groups, fold, old(Now()), Reset)
    {
      pending := pending + 1;
      boxes := Defaults(AllRows(groups));
    }

    method OnTimer()
      modifies this`state, this`pending
      ensures Now() == Step(groups, fold, old(Now()), Timer)
    {
      if pending > 0 {
        SyncNow();
        pending := pending - 1;
      }
    }
  }

  // ------------------------------------------------------------------ mirror

  /** The reducer's chosen ids are exactly the checked boxes. */
  predicate Mirror(page: Page) {
    && (forall id | id in page.boxes :: page.boxes[id] <==> id in page.state.selected)
    && (forall id | id in page.state.selected :: id in page.boxes)
  }

  /** A row was marked when the page loaded. */
  predicate CheckedOnLoad(groups: seq<Group>, id: Id) {
    exists row :: row in AllRows(groups) && row.id == id && row.checked
  }

  /** What every reachable page keeps, syncs put off or not. */
  predicate Kept(groups: seq<Group>, page: Page) {
    && Boxed(groups, page.boxes)
    && Distinct(page.state.selected)
    && (forall id | id in page.state.selected :: id in page.boxes)
    && (forall id | id in page.state.selected :: CheckedOnLoad(groups, id) || id in page.state.touched)
  }

  lemma {:induction false} CheckedAmongHolds(ids: seq<Id>, boxes: map<Id, bool>)
    ensures forall id :: id in CheckedAmong(ids, boxes) <==> id in ids && id in boxes && boxes[id]
    ensures Distinct(ids) ==> Distinct(CheckedAmong(ids, boxes))
  {
    if ids != [] {
      CheckedAmongHolds(ids[1..], boxes);
      assert forall x :: x in ids <==> x == ids[0] || x in ids[1..];
      if Distinct(ids) {
        assert forall i :: 0 <= i < |ids[1..]| ==> ids[1..][i] == ids[i + 1];
        ConsDistinct(ids[0], CheckedAmong(ids[1..], boxes));
      }
    }
  }

  lemma {:induction false} DefaultsKeys(rows: seq<Row>)
    ensures Defaults(rows).Keys == Elements(RowIds(rows))
  {
    if rows != [] {
      var n := |rows| - 1;
      DefaultsKeys(rows[..n]);
      assert RowIds(rows) == RowIds(rows[..n]) + [rows[n].id];
    }
  }

  lemma {:induction false} CheckedIdsHold(rows: seq<Row>)
    ensures forall id :: id in CheckedIds(rows) <==> exists row :: row in rows && row.id == id && row.checked
  {
    if rows != [] {
      CheckedIdsHold(rows[1..]);
      assert forall row :: row in rows <==> row == rows[0] || row in rows[1..];
    }
  }

  lemma {:induction false} CheckedIdsDistinct(rows: seq<Row>)
    ensures forall id | id in CheckedIds(rows) :: id in RowIds(rows)
    ensures Distinct(RowIds(rows)) ==> Distinct(CheckedIds(rows))
  {
    if rows != [] {
      CheckedIdsDistinct(rows[1..]);
      var rest := RowIds(rows[1..]);
      assert RowIds(rows) == [rows[0].id] + rest;
      if Distinct(RowIds(rows)) {
        assert forall i :: 0 <= i < |rest| ==> rest[i] == RowIds(rows)[i + 1];
        if rows[0].checked {
          ConsDistinct(rows[0].id, CheckedIds(rows[1..]));
        }
      }
    }
  }

  /** A sync leaves the reducer mirroring the boxes, whatever it held before. */
  lemma SyncMirrors(groups: seq<Group>, page: Page)
    requires Ledger(groups) && Kept(groups, page)
    ensures Kept(groups, DoSync(groups, page)) && Mirror(DoSync(groups, page))
  {
    CheckedAmongHolds(BoxIds(groups), page.boxes);
    assert forall id :: id in Elements(BoxIds(groups)) <==> id in BoxIds(groups);
    var checked, selected := Elements(Posted(groups, page.boxes)), Elements(page.state.selected);
    var flipped := (checked - selected) + (selected - checked);
    SameSetMirrors(groups, page);
    if flipped != {} {
      forall id | id in checked
        ensures CheckedOnLoad(groups, id) || id in page.state.touched + flipped
      {
        if id !in selected {
          assert id in flipped;
        }
      }
    }
  }

  lemma InitialKept(groups: seq<Group>, boxes: map<Id, bool>)
    requires Ledger(groups) && Boxed(groups, boxes)
    ensures Kept(groups, Page(boxes, InitialState(groups), 0))
  {
    CheckedIdsHold(AllRows(groups));
    CheckedIdsDistinct(AllRows(groups));
    var page := Page(boxes, InitialState(groups), 0);
    forall id | id in page.state.selected ensures id in page.boxes && CheckedOnLoad(groups, id) {
      assert id in Elements(BoxIds(groups));
    }
  }

  /** Enter never misses its box: what it would add is one of the boxes. */
  lemma TargetIsABox(groups: seq<Group>, fold: char -> string, state: State)
    requires ViewOf(groups, state, fold).target.Some?
    ensures ViewOf(groups, state, fold).target.value.row.id in BoxIds(groups)
  {
    hide Normalize, Matches, FirstTarget, ViewGroups, CountMatches;
    var needle := Normalize(state.query, fold);
    TargetIsFirst(groups, state.selected, needle);
    var target := FirstTarget(groups, state.selected, needle).value;
    var g: nat, r: nat :| IsTarget(groups, state.selected, needle, target, g, r);
    RowIsABox(groups, g, r);
  }

  lemma {:induction false} RowIsABox(groups: seq<Group>, g: nat, r: nat)
    requires g < |groups| && r < |groups[g].rows|
    ensures groups[g].rows[r] in AllRows(groups) && groups[g].rows[r].id in BoxIds(groups)
  {
    if g > 0 {
      RowIsABox(groups[1..], g - 1, r);
      assert groups[g] == groups[1..][g - 1];
    }
    var row := groups[g].rows[r];
    assert row in AllRows(groups);
    var k :| 0 <= k < |AllRows(groups)| && AllRows(groups)[k] == row;
    assert BoxIds(groups)[k] == row.id;
  }

  /** A box set and its id marked the same way: the mirror holds as it did. */
  lemma MarkMirrors(groups: seq<Group>, page: Page, id: Id, checked: bool, state: State)
    requires Kept(groups, page) && id in page.boxes
    requires state.selected == WithMark(page.state.selected, id, checked)
    requires state.touched == page.state.touched + {id}
    ensures Kept(groups, page.(boxes := page.boxes[id := checked], state := state))
    ensures Mirror(page) ==> Mirror(page.(boxes := page.boxes[id := checked], state := state))
  {
    WithoutHolds(page.state.selected, id);
    assert page.boxes[id := checked].Keys == page.boxes.Keys;
  }

  /** Every handler keeps what a page keeps, and every one but a reset keeps the mirror. */
  lemma StepKeeps(groups: seq<Group>, fold: char -> string, page: Page, event: Event)
    requires Ledger(groups) && Kept(groups, page)
    ensures Kept(groups, Step(groups, fold, page, event))
    ensures Mirror(page) && event != Reset ==> Mirror(Step(groups, fold, page, event))
    ensures event == Timer && page.pending > 0 ==> Mirror(Step(groups, fold, page, event))
  {
    hide ViewOf, Defaults, CheckedOnLoad, Distinct;
    var next := Step(groups, fold, page, event);
    match event
    case Click(id) => if id in page.boxes { MarkMirrors(groups, page, id, !page.boxes[id], next.state); }
    case Enter =>
      var target := ViewOf(groups, page.state, fold).target;
      if target.Some? && target.value.row.id in page.boxes {
        var id := target.value.row.id;
        MarkMirrors(groups, page, id, true, next.state);
      }
    case Remove(id) =>
      if id in page.boxes && id in page.state.selected { MarkMirrors(groups, page, id, false, next.state); }
    case Reset =>
      DefaultsKeys(AllRows(groups));
      assert next.boxes.Keys == page.boxes.Keys;
    case Timer => if page.pending > 0 { SyncMirrors(groups, page); }
    case _ =>
  }

  lemma {:induction false} RunKeeps(groups: seq<Group>, fold: char -> string, start: Page, events: seq<Event>)
    requires Ledger(groups) && Kept(groups, start) && (start.pending == 0 ==> Mirror(start))
    ensures var page := Run(groups, fold, start, events);
            Kept(groups, page) && (page.pending == 0 ==> Mirror(page))
  {
    hide Kept, Mirror, Step;
    if events != [] {
      var n := |events| - 1;
      var before := Run(groups, fold, start, events[..n]);
      RunKeeps(groups, fold, start, events[..n]);
      StepKeeps(groups, fold, before, events[n]);
      StepPending(groups, fold, before, events[n]);
    }
  }

  lemma StepPending(groups: seq<Group>, fold: char -> string, page: Page, event: Event)
    ensures Step(groups, fold, page, event).pending
         == match event
            case Reset => page.pending + 1
            case Timer => if page.pending > 0 then page.pending - 1 else 0
            case _ => page.pending
  {
    hide ViewOf;
  }

  /**
   Over every run from every boxes the browser may hold on hydration, whenever no
   reset's sync is still due the chosen ids are exactly the checked boxes, and so
   the basket lists exactly what the form posts.
   */
  lemma MirrorOverRuns(groups: seq<Group>, fold: char -> string, boxes: map<Id, bool>, events: seq<Event>)
    requires Ledger(groups) && Boxed(groups, boxes)
    ensures var page := Run(groups, fold, Mount(groups, boxes), events);
            page.pending == 0 ==>
              Mirror(page)
              && (forall id :: id in RowIds(Basket(groups, page.state)) <==> id in Posted(groups, page.boxes))
              && RowIds(Basket(groups, page.state)) == page.state.selected
  {
    hide Run, Basket, DoSync;
    InitialKept(groups, boxes);
    SyncMirrors(groups, Page(boxes, InitialState(groups), 0));
    RunKeeps(groups, fold, Mount(groups, boxes), events);
    var page := Run(groups, fold, Mount(groups, boxes), events);
    if page.pending == 0 {
      CheckedAmongHolds(BoxIds(groups), page.boxes);
      assert forall id :: id in Elements(BoxIds(groups)) <==> id in BoxIds(groups);
      BasketOfSelected(groups, page);
    }
  }

  lemma BasketOfSelected(groups: seq<Group>, page: Page)
    requires forall id | id in page.state.selected :: id in RowIds(AllRows(groups))
    ensures RowIds(Basket(groups, page.state)) == page.state.selected
  {
    BasketInOrder(AllRows(groups), page.state.selected);
  }

  /** How the order of the chosen may change: not at all, one more at the foot, or one less. */
  predicate FootOnly(before: seq<Id>, after: seq<Id>) {
    || after == before
    || (|after| == |before| + 1 && after[..|before|] == before && after[|before|] !in before)
    || (exists id :: id in before && after == Without(before, id))
  }

  /**
   The basket only grows at its foot and loses rows in place; only a sync that
   finds a difference rebuilds it, in document order.
   */
  lemma BasketOrder(groups: seq<Group>, fold: char -> string, page: Page, event: Event)
    requires Ledger(groups) && Kept(groups, page)
    ensures var after := Step(groups, fold, page, event).state.selected;
            && (event != Timer ==> FootOnly(page.state.selected, after))
            && (event == Timer && Mirror(page) ==> after == page.state.selected)
            && (event == Timer && !Mirror(page) && page.pending > 0 ==> after == Posted(groups, page.boxes))
  {
    hide ViewOf, Defaults;
    var before := page.state.selected;
    match event
    case Click(id) => if id in page.boxes { MarkFoot(before, id, !page.boxes[id]); }
    case Enter =>
      var target := ViewOf(groups, page.state, fold).target;
      if target.Some? { MarkFoot(before, target.value.row.id, true); }
    case Remove(id) => MarkFoot(before, id, false);
    case Timer =>
      CheckedAmongHolds(BoxIds(groups), page.boxes);
      assert forall id :: id in Elements(BoxIds(groups)) <==> id in BoxIds(groups);
      SameSetMirrors(groups, page);
    case _ =>
  }

  lemma MarkFoot(before: seq<Id>, id: Id, checked: bool)
    ensures FootOnly(before, WithMark(before, id, checked))
  {
    WithoutHolds(before, id);
  }

  lemma SameSetMirrors(groups: seq<Group>, page: Page)
    requires Kept(groups, page)
    ensures Elements(Posted(groups, page.boxes)) == Elements(page.state.selected) <==> Mirror(page)
    ensures var checked, selected := Elements(Posted(groups, page.boxes)), Elements(page.state.selected);
            (checked - selected) + (selected - checked) == {} <==> checked == selected
  {
    CheckedAmongHolds(BoxIds(groups), page.boxes);
    assert forall id :: id in Elements(BoxIds(groups)) <==> id in BoxIds(groups);
    var checked, selected := Elements(Posted(groups, page.boxes)), Elements(page.state.selected);
    if checked == selected {
      forall id | id in page.boxes ensures page.boxes[id] <==> id in page.state.selected {
        assert page.boxes[id] <==> id in checked;
      }
    }
    if (checked - selected) + (selected - checked) == {} {
      forall id ensures id in checked <==> id in selected {
        assert id !in (checked - selected) + (selected - checked);
      }
    }
  }

  /**
   Nothing chosen hides: in every reachable page a chosen row is in sight at rest,
   and while nothing is searched its group's view shows it.
   */
  lemma NothingChosenHides(
    groups: seq<Group>, fold: char -> string, boxes: map<Id, bool>, events: seq<Event>, g: nat, r: nat)
    requires Ledger(groups) && Boxed(groups, boxes)
    requires g < |groups| && r < |groups[g].rows|
    requires groups[g].rows[r].id in Run(groups, fold, Mount(groups, boxes), events).state.selected
    ensures var state := Run(groups, fold, Mount(groups, boxes), events).state;
      var view := ViewOf(groups, state, fold);
      && VisibleAtRest(state, groups[g].rung, groups[g].rows[r], r)
      && (!view.searching ==> view.groups[g].rows[r].row == groups[g].rows[r] && view.groups[g].rows[r].visible)
  {
    hide Run, DoSync;
    InitialKept(groups, boxes);
    SyncMirrors(groups, Page(boxes, InitialState(groups), 0));
    RunKeeps(groups, fold, Mount(groups, boxes), events);
    var row := groups[g].rows[r];
    RowIsABox(groups, g, r);
    if CheckedOnLoad(groups, row.id) {
      var other :| other in AllRows(groups) && other.id == row.id && other.checked;
      SameIdSameRow(AllRows(groups), row, other);
    }
  }

  lemma SameIdSameRow(rows: seq<Row>, a: Row, b: Row)
    requires Distinct(RowIds(rows)) && a in rows && b in rows && a.id == b.id
    ensures a == b
  {
    var i :| 0 <= i < |rows| && rows[i] == a;
    var j :| 0 <= j < |rows| && rows[j] == b;
    assert RowIds(rows)[i] == RowIds(rows)[j];
  }
}
