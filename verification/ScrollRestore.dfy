/**
 The scroll keeper: what a frame decides (`form-submit-scroll.ts`) and the loop,
 its clocks and the saved record (`form-submit-scroll-keeper.tsx`).
 */
module ScrollRestore {
  import opened Text

  const RecordTtlMs := 10000.0

  const TolerancePx := 2.0

  const RestoreWindowMs := 1000.0

  const PaintBudgetMs := 8000.0

  datatype SavedScroll = SavedScroll(pathname: string, x: real, y: real, savedAt: real)

  datatype Geometry = Geometry(scrollY: real, maxScrollY: real)

  datatype RestoreStep = Write(x: real, y: real) | Wait | Stop

  function Abs(r: real): real {
    if r < 0.0 then -r else r
  }

  predicate IsStaleRecord(savedAt: real, now: real) {
    var age := now - savedAt;
    age < 0.0 || age > RecordTtlMs
  }

  predicate CanHoldOffset(target: SavedScroll, geometry: Geometry) {
    geometry.maxScrollY >= target.y - TolerancePx
  }

  const ScrollingKeys: set<string> :=
    {" ", "ArrowDown", "ArrowLeft", "ArrowRight", "ArrowUp", "End", "Home", "PageDown", "PageUp", "Spacebar"}

  predicate IsUserScrollKey(key: string, targetIsEditable: bool) {
    !targetIsEditable && key in ScrollingKeys
  }

  predicate ShouldSaveScroll(isDialog: bool, ownLanding: bool, x: real, y: real) {
    !isDialog && !ownLanding && (x != 0.0 || y != 0.0)
  }

  function DecideRestoreStep(
    target: SavedScroll, geometry: Geometry, elapsed: real, reachableElapsed: Option<real>, interrupted: bool): RestoreStep
  {
    if interrupted then Stop
    else if !CanHoldOffset(target, geometry) then
      if elapsed >= PaintBudgetMs then Stop else Wait
    else if reachableElapsed.Some? && reachableElapsed.value >= RestoreWindowMs then Stop
    else if Abs(geometry.scrollY - target.y) <= TolerancePx then Wait
    else Write(target.x, target.y)
  }

  // ------------------------------------------------------------------ steps

  datatype Loop = Loop(saved: SavedScroll, startedAt: real, interrupted: bool, reachableAt: Option<real>)

  /** The stored record, the running loop and the offsets written so far. */
  datatype Page = Page(record: Option<SavedScroll>, loop: Option<Loop>, writes: seq<(real, real)>)

  datatype Event =
    | Frame(now: real, geometry: Geometry)
    | Gesture
    | KeyDown(key: string, targetIsEditable: bool)
    | Submit(isDialog: bool, ownLanding: bool, scroll: SavedScroll)
    | Navigate(pathname: string, clock: real, now: real)
    | Unmount

  /** The first frame whose document can hold the offset opens the window. */
  function Reached(loop: Loop, now: real, geometry: Geometry): Option<real> {
    if loop.reachableAt.None? && CanHoldOffset(loop.saved, geometry) then Some(now) else loop.reachableAt
  }

  function Decided(loop: Loop, now: real, geometry: Geometry): RestoreStep {
    var reachableAt := Reached(loop, now, geometry);
    DecideRestoreStep(
      loop.saved, geometry, now - loop.startedAt,
      if reachableAt.None? then None else Some(now - reachableAt.value), loop.interrupted)
  }

  function Tick(page: Page, now: real, geometry: Geometry): Page
    requires page.loop.Some?
  {
    var loop := page.loop.value;
    var next := page.(loop := Some(loop.(reachableAt := Reached(loop, now, geometry))));
    match Decided(loop, now, geometry)
    case Stop => page.(record := None, loop := None)
    case Write(x, y) => next.(writes := page.writes + [(x, y)])
    case Wait => next
  }

  function Interrupt(page: Page): Page {
    if page.loop.None? then page else page.(loop := Some(page.loop.value.(interrupted := true)))
  }

  /** A new URL tears the old loop down, keeps the record, and acts on it once more. */
  function Arrive(page: Page, pathname: string, clock: real, now: real): Page {
    match page.record
    case None => page.(loop := None)
    case Some(saved) =>
      if saved.pathname != pathname || IsStaleRecord(saved.savedAt, clock) then page.(record := None, loop := None)
      else page.(loop := Some(Loop(saved, now, false, None)))
  }

  function Step(page: Page, event: Event): Page {
    match event
    case Frame(now, geometry) => if page.loop.None? then page else Tick(page, now, geometry)
    case Gesture => Interrupt(page)
    case KeyDown(key, editable) => if IsUserScrollKey(key, editable) then Interrupt(page) else page
    case Submit(isDialog, ownLanding, scroll) =>
      if ShouldSaveScroll(isDialog, ownLanding, scroll.x, scroll.y) then page.(record := Some(scroll)) else page
    case Navigate(pathname, clock, now) => Arrive(page, pathname, clock, now)
    case Unmount => page.(loop := None)
  }

  function Run(page: Page, events: seq<Event>): Page
    decreases events
  {
    if events == [] then page else Run(Step(page, events[0]), events[1..])
  }

  // ----------------------------------------------------------- the component

  class Keeper {
    var record: Option<SavedScroll>
    var running: bool
    var saved: SavedScroll
    var startedAt: real
    var interrupted: bool
    var reachableAt: Option<real>
    var writes: seq<(real, real)>

    function Now(): Page
      reads this
    {
      Page(record, if running then Some(Loop(saved, startedAt, interrupted, reachableAt)) else None, writes)
    }

    constructor (record: Option<SavedScroll>)
      ensures Now() == Page(record, None, [])
    {
      this.record, running, writes := record, false, [];
      saved, startedAt, interrupted, reachableAt := SavedScroll("", 0.0, 0.0, 0.0), 0.0, false, None;
    }

    /** A wheel, a touch move: the listeners are there only while the loop runs. */
    method OnInterrupt()
      modifies this`interrupted
      ensures Now() == Step(old(Now()), Gesture)
    {
      if running {
        interrupted := true;
      }
    }

    method OnKeyDown(key: string, targetIsEditable: bool)
      modifies this`interrupted
      ensures Now() == Step(old(Now()), KeyDown(key, targetIsEditable))
    {
      if running && IsUserScrollKey(key, targetIsEditable) {
        interrupted := true;
      }
    }

    method OnSubmit(isDialog: bool, ownLanding: bool, scroll: SavedScroll)
      modifies this`record
      ensures Now() == Step(old(Now()), Submit(isDialog, ownLanding, scroll))
    {
      if !ShouldSaveScroll(isDialog, ownLanding, scroll.x, scroll.y) {
        return;
      }
      record := Some(scroll);
    }

    /** Cancels the frame and the listeners; the record stays. */
    method TearDown()
      modifies this`running
      ensures Now() == Step(old(Now()), Unmount)
    {
      running := false;
    }

    method OnNavigate(pathname: string, clock: real, now: real)
      modifies this
      ensures Now() == Step(old(Now()), Navigate(pathname, clock, now))
    {
      TearDown();
      if record.None? {
        return;
      }
      var found := record.value;
      if found.pathname != pathname || IsStaleRecord(found.savedAt, clock) {
        record := None;
        return;
      }
      running, saved, startedAt, interrupted, reachableAt := true, found, now, false, None;
    }

    method OnFrame(now: real, geometry: Geometry)
      modifies this
      ensures Now() == Step(old(Now()), Frame(now, geometry))
    {
      if !running {
        return;
      }
      if reachableAt.None? && CanHoldOffset(saved, geometry) {
        reachableAt := Some(now);
      }
      var reachableElapsed := if reachableAt.None? then None else Some(now - reachableAt.value);
      var step := DecideRestoreStep(saved, geometry, now - startedAt, reachableElapsed, interrupted);
      if step.Stop? {
        record := None;
        TearDown();
        return;
      }
      if step.Write? {
        writes := writes + [(step.x, step.y)];
      }
    }
  }

  // ------------------------------------------------------------ any run at all

  /** While the loop runs there is a record; only a loop that stops by itself, or a record that does not belong, clears it. */
  lemma {:induction false} RecordOutlivesLoop(page: Page, events: seq<Event>)
    requires page.loop.Some? ==> page.record.Some?
    ensures Run(page, events).loop.Some? ==> Run(page, events).record.Some?
    decreases events
  {
    if events != [] {
      RecordOutlivesLoop(Step(page, events[0]), events[1..]);
    }
  }

  /** The record goes exactly when a frame stops the loop or an arrival finds it elsewhere or stale. */
  lemma RecordCleared(page: Page, event: Event)
    requires page.record.Some?
    ensures Step(page, event).record.None?
      <==> (match event
            case Frame(now, geometry) => page.loop.Some? && Decided(page.loop.value, now, geometry) == Stop
            case Navigate(pathname, clock, _) =>
              page.record.value.pathname != pathname || IsStaleRecord(page.record.value.savedAt, clock)
            case _ => false)
  {
  }

  /** Mounting twice, as strict development does, is mounting once. */
  lemma MountedTwice(page: Page, pathname: string, clock: real, first: real, second: real)
    ensures Run(page, [Navigate(pathname, clock, first), Unmount, Navigate(pathname, clock, second)])
      == Run(page, [Navigate(pathname, clock, second)])
  {
    var events := [Navigate(pathname, clock, first), Unmount, Navigate(pathname, clock, second)];
    var mounted := Step(page, events[0]);
    assert events[1..][1..] == [events[2]];
    assert Run(page, events) == Run(mounted, events[1..]) == Run(Step(mounted, Unmount), [events[2]]);
  }

  // ------------------------------------------------------- one loop, any events

  /** What may happen to a loop before the next arrival. */
  predicate Within(event: Event) {
    !event.Navigate? && !event.Unmount?
  }

  predicate AllWithin(events: seq<Event>) {
    forall e | e in events :: Within(e)
  }

  predicate Interrupts(event: Event) {
    event.Gesture? || (event.KeyDown? && IsUserScrollKey(event.key, event.targetIsEditable))
  }

  /** When the document was first tall enough. */
  function FirstHolding(saved: SavedScroll, events: seq<Event>): Option<real>
    decreases events
  {
    if events == [] then None
    else if events[0].Frame? && CanHoldOffset(saved, events[0].geometry) then Some(events[0].now)
    else FirstHolding(saved, events[1..])
  }

  function OrElse<T>(first: Option<T>, second: Option<T>): Option<T> {
    if first.Some? then first else second
  }

  /** A loop remembers whether anything interrupted it and when the offset was first reachable. */
  lemma {:induction false} LoopRemembers(page: Page, events: seq<Event>)
    requires page.loop.Some? && AllWithin(events)
    ensures var after := Run(page, events);
      after.loop.Some? ==>
        && after.loop.value.saved == page.loop.value.saved
        && after.loop.value.startedAt == page.loop.value.startedAt
        && (after.loop.value.interrupted <==> page.loop.value.interrupted || exists e :: e in events && Interrupts(e))
        && after.loop.value.reachableAt == OrElse(page.loop.value.reachableAt, FirstHolding(page.loop.value.saved, events))
    decreases events
  {
    if events != [] {
      var next := Step(page, events[0]);
      var rest := events[1..];
      assert events[0] in events && forall e | e in rest :: e in events;
      assert events == [events[0]] + rest;
      StepRemembers(page, events[0]);
      if next.loop.Some? {
        hide Step, CanHoldOffset, Interrupts;
        LoopRemembers(next, rest);
      } else {
        StoppedStays(next, rest);
      }
    }
  }

  lemma StepRemembers(page: Page, event: Event)
    requires page.loop.Some? && Within(event)
    ensures var after := Step(page, event);
      after.loop.Some? ==>
        && after.loop.value.saved == page.loop.value.saved
        && after.loop.value.startedAt == page.loop.value.startedAt
        && (after.loop.value.interrupted <==> page.loop.value.interrupted || Interrupts(event))
        && after.loop.value.reachableAt
          == OrElse(page.loop.value.reachableAt,
               if event.Frame? && CanHoldOffset(page.loop.value.saved, event.geometry) then Some(event.now) else None)
  {
  }

  /** A loop that stopped writes no more and does not come back by itself. */
  lemma {:induction false} StoppedStays(page: Page, events: seq<Event>)
    requires page.loop.None? && AllWithin(events)
    ensures Run(page, events).loop.None? && Run(page, events).writes == page.writes
    decreases events
  {
    if events != [] {
      assert events[0] in events && forall e | e in events[1..] :: e in events;
      StoppedStays(Step(page, events[0]), events[1..]);
    }
  }

  /**
   Exactly when a frame writes: nothing interrupted the loop, the document can
   hold the offset now, less than the window has passed since it first could, and
   the page is off target. It then writes the saved offset.
   */
  lemma FrameWritesExactly(
    saved: SavedScroll, startedAt: real, record: Option<SavedScroll>, events: seq<Event>, now: real, geometry: Geometry)
    requires AllWithin(events)
    ensures var page := Run(Page(record, Some(Loop(saved, startedAt, false, None)), []), events);
      var after := Step(page, Frame(now, geometry));
      page.loop.Some? ==>
        && after.writes == page.writes + (if after.writes == page.writes then [] else [(saved.x, saved.y)])
        && (after.writes != page.writes
            <==> && !(exists e :: e in events && Interrupts(e))
                 && geometry.maxScrollY >= saved.y - 2.0
                 && FirstHolding(saved, events + [Frame(now, geometry)]).Some?
                 && now - FirstHolding(saved, events + [Frame(now, geometry)]).value < 1000.0
                 && Abs(geometry.scrollY - saved.y) > 2.0)
  {
    var start := Page(record, Some(Loop(saved, startedAt, false, None)), []);
    LoopRemembers(start, events);
    FirstOfLast(saved, events, Frame(now, geometry));
  }

  /**
   Exactly when a frame stops the loop: something interrupted it, or the document
   cannot hold the offset eight seconds after the start, or it can and first could a
   second ago or more. A frame that neither stops nor writes leaves the page as it
   is but for the window.
   */
  lemma FrameStopsExactly(
    saved: SavedScroll, startedAt: real, record: Option<SavedScroll>, events: seq<Event>, now: real, geometry: Geometry)
    requires AllWithin(events)
    ensures var page := Run(Page(record, Some(Loop(saved, startedAt, false, None)), []), events);
      var after := Step(page, Frame(now, geometry));
      page.loop.Some? ==>
        && (after.loop.None?
            <==> || (exists e :: e in events && Interrupts(e))
                 || (geometry.maxScrollY < saved.y - 2.0 && now - startedAt >= 8000.0)
                 || (geometry.maxScrollY >= saved.y - 2.0
                     && FirstHolding(saved, events + [Frame(now, geometry)]).Some?
                     && now - FirstHolding(saved, events + [Frame(now, geometry)]).value >= 1000.0))
        && (after.loop.None? ==> after.record.None? && after.writes == page.writes)
        && (after.loop.Some? ==> after.record == page.record)
  {
    var start := Page(record, Some(Loop(saved, startedAt, false, None)), []);
    LoopRemembers(start, events);
    FirstOfLast(saved, events, Frame(now, geometry));
  }

  lemma {:induction false} FirstOfLast(saved: SavedScroll, events: seq<Event>, last: Event)
    ensures FirstHolding(saved, events + [last]) == OrElse(FirstHolding(saved, events), FirstHolding(saved, [last]))
    decreases events
  {
    if events == [] {
      assert events + [last] == [last];
    } else {
      assert (events + [last])[1..] == events[1..] + [last] && (events + [last])[0] == events[0];
      FirstOfLast(saved, events[1..], last);
    }
  }

  /** After an interruption the next frame stops, and nothing is written again. */
  lemma {:induction false} InterruptedWritesNothing(page: Page, events: seq<Event>)
    requires AllWithin(events) && (page.loop.Some? ==> page.loop.value.interrupted)
    ensures Run(page, events).writes == page.writes
    ensures (exists e :: e in events && e.Frame?) ==> Run(page, events).loop.None?
    decreases events
  {
    if events != [] {
      var rest := events[1..];
      assert events[0] in events && forall e | e in rest :: e in events;
      assert events == [events[0]] + rest;
      var next := Step(page, events[0]);
      InterruptedWritesNothing(next, rest);
      if next.loop.None? {
        StoppedStays(next, rest);
      }
    }
  }

  // ------------------------------------------------------------------- timing

  /** Frames come in order, at most `gap` apart, the first within `gap` of `last`. */
  predicate Paced(last: real, events: seq<Event>, gap: real)
    decreases events
  {
    events == []
    || (if events[0].Frame? then last <= events[0].now <= last + gap && Paced(events[0].now, events[1..], gap)
        else Paced(last, events[1..], gap))
  }

  function LastFrame(last: real, events: seq<Event>): real
    decreases events
  {
    if events == [] then last
    else LastFrame(if events[0].Frame? then events[0].now else last, events[1..])
  }

  /** The frame that stops the loop. */
  function StoppedAt(page: Page, events: seq<Event>): Option<real>
    decreases events
  {
    if events == [] || page.loop.None? then None
    else if events[0].Frame? && Decided(page.loop.value, events[0].now, events[0].geometry) == Stop then Some(events[0].now)
    else StoppedAt(Step(page, events[0]), events[1..])
  }

  /** How late a loop that is still running may be. */
  predicate InBudget(loop: Loop, last: real, gap: real) {
    && loop.startedAt <= last
    && match loop.reachableAt
       case None => last == loop.startedAt || last < loop.startedAt + PaintBudgetMs
       case Some(reached) =>
         && reached < loop.startedAt + PaintBudgetMs + gap
         && last < loop.startedAt + PaintBudgetMs + RestoreWindowMs + gap
  }

  lemma FrameInBudget(page: Page, last: real, now: real, geometry: Geometry, gap: real)
    requires page.loop.Some? && gap > 0.0 && InBudget(page.loop.value, last, gap) && last <= now <= last + gap
    ensures Tick(page, now, geometry).loop.Some? ==> InBudget(Tick(page, now, geometry).loop.value, now, gap)
    ensures now < page.loop.value.startedAt + PaintBudgetMs + RestoreWindowMs + 2.0 * gap
  {
  }

  /** The loop of an arrival stops in time: before the paint budget, the window and two frames are over. */
  lemma {:induction false} StopsInTime(page: Page, last: real, events: seq<Event>, gap: real)
    requires page.loop.Some? && AllWithin(events) && gap > 0.0
    requires Paced(last, events, gap) && InBudget(page.loop.value, last, gap)
    ensures StoppedAt(page, events).Some? ==> StoppedAt(page, events).value < page.loop.value.startedAt + 9000.0 + 2.0 * gap
    ensures LastFrame(last, events) >= page.loop.value.startedAt + 9000.0 + gap ==> StoppedAt(page, events).Some?
    ensures StoppedAt(page, events).Some? <==> Run(page, events).loop.None?
    decreases events
  {
    if events != [] {
      var event, rest := events[0], events[1..];
      assert event in events && forall e | e in rest :: e in events;
      var next := Step(page, event);
      StepRemembers(page, event);
      if event.Frame? {
        FrameInBudget(page, last, event.now, event.geometry, gap);
        if next.loop.Some? {
          hide Tick, Decided, InBudget;
          StopsInTime(next, event.now, rest, gap);
        } else {
          StoppedStays(next, rest);
        }
      } else {
        assert next.loop.Some? && InBudget(next.loop.value, last, gap);
        hide InBudget, Step;
        StopsInTime(next, last, rest, gap);
      }
    }
  }

  /** An arrival's loop, frames at most `gap` apart, stops before 9000 ms and two frames. */
  lemma ArrivalStopsInTime(page: Page, pathname: string, clock: real, now: real, events: seq<Event>, gap: real)
    requires Step(page, Navigate(pathname, clock, now)).loop.Some?
    requires AllWithin(events) && gap > 0.0 && Paced(now, events, gap)
    ensures var stopped := StoppedAt(Step(page, Navigate(pathname, clock, now)), events);
      && (stopped.Some? ==> stopped.value < now + 9000.0 + 2.0 * gap)
      && (LastFrame(now, events) >= now + 9000.0 + gap ==> stopped.Some?)
  {
    StopsInTime(Step(page, Navigate(pathname, clock, now)), now, events, gap);
  }

  // ------------------------------------------------- from a save to its arrival

  predicate Saves(event: Event) {
    event.Submit? && ShouldSaveScroll(event.isDialog, event.ownLanding, event.scroll.x, event.scroll.y)
  }

  predicate NothingSaved(events: seq<Event>) {
    forall e | e in events :: !Saves(e)
  }

  /** A record lasts until the loop that runs beside it, were it an older record's, stops. */
  lemma {:induction false} RecordLasts(page: Page, events: seq<Event>)
    requires AllWithin(events) && NothingSaved(events)
    ensures Run(page, events).record == if StoppedAt(page, events).Some? then None else page.record
    decreases events
  {
    if events != [] {
      assert events[0] in events && forall e | e in events[1..] :: e in events;
      var next := Step(page, events[0]);
      RecordLasts(next, events[1..]);
      if next.loop.None? {
        assert StoppedAt(next, events[1..]).None?;
      }
    }
  }

  /**
   An offset saved by a submit is acted on by the arrival that follows exactly when
   no frame in between stopped a loop still running from before, the arrival is of
   the same page and the record is not stale.
   */
  lemma SavedReachesArrival(
    page: Page, submit: Event, events: seq<Event>, pathname: string, clock: real, now: real)
    requires Saves(submit) && AllWithin(events) && NothingSaved(events)
    ensures var saved := Step(page, submit);
      var arrived := Step(Run(saved, events), Navigate(pathname, clock, now));
      arrived.loop == Some(Loop(submit.scroll, now, false, None))
      <==> StoppedAt(saved, events).None? && submit.scroll.pathname == pathname
           && submit.scroll.savedAt <= clock <= submit.scroll.savedAt + 10_000.0
  {
    hide Run, StoppedAt, Tick;
    RecordLasts(Step(page, submit), events);
  }

  /** A submit is saved unless it closes a dialog, lands by its own means, or leaves from the very top. */
  lemma SavedExactly(page: Page, isDialog: bool, ownLanding: bool, scroll: SavedScroll)
    ensures var after := Step(page, Submit(isDialog, ownLanding, scroll));
      && (isDialog || ownLanding || (scroll.x == 0.0 && scroll.y == 0.0) ==> after == page)
      && (!isDialog && !ownLanding && (scroll.x != 0.0 || scroll.y != 0.0) ==> after == page.(record := Some(scroll)))
  {
  }

  /** A key counts as scrolling exactly when it moves the viewport and is not typed into a field. */
  lemma KeysThatScroll(key: string, targetIsEditable: bool)
    ensures Interrupts(KeyDown(key, targetIsEditable))
      <==> !targetIsEditable
           && (|| key == " " || key == "Spacebar"
               || key == "ArrowUp" || key == "ArrowDown" || key == "ArrowLeft" || key == "ArrowRight"
               || key == "PageUp" || key == "PageDown" || key == "Home" || key == "End")
  {
  }

  /** Saved while a loop runs, an offset goes with that loop: its own arrival finds nothing. */
  lemma SavedBesideALoopIsLost(page: Page, submit: Event, now: real, geometry: Geometry, pathname: string, clock: real, later: real)
    requires Saves(submit) && page.loop.Some? && Decided(page.loop.value, now, geometry) == Stop
    ensures var arrived := Step(Step(Step(page, submit), Frame(now, geometry)), Navigate(pathname, clock, later));
      arrived.loop.None? && arrived.record.None?
  {
  }

  // -------------------------------------------------- an undisturbed document

  /** The page moves only when the loop writes, and then as far as its document goes. */
  predicate Undisturbed(page: Page, scrollY: real, events: seq<Event>)
    decreases events
  {
    events == []
    || (var next := Step(page, events[0]);
        if events[0].Frame? then
          && events[0].geometry.scrollY == scrollY
          && Undisturbed(next, if next.writes == page.writes then scrollY else Landing(page, events[0].geometry), events[1..])
        else Undisturbed(next, scrollY, events[1..]))
  }

  /** Where a written offset ends up: inside the document. */
  function Landing(page: Page, geometry: Geometry): real {
    if page.loop.None? then geometry.scrollY
    else
      var y := page.loop.value.saved.y;
      if y > geometry.maxScrollY then geometry.maxScrollY else if y < 0.0 then 0.0 else y
  }

  predicate OnTarget(page: Page, scrollY: real) {
    page.loop.Some? ==> Abs(scrollY - page.loop.value.saved.y) <= TolerancePx
  }

  /** On target, nothing more is written. */
  lemma {:induction false} OnTargetStays(page: Page, scrollY: real, events: seq<Event>)
    requires AllWithin(events) && Undisturbed(page, scrollY, events) && OnTarget(page, scrollY)
    ensures Run(page, events).writes == page.writes
    decreases events
  {
    if events != [] {
      assert events[0] in events && forall e | e in events[1..] :: e in events;
      OnTargetStays(Step(page, events[0]), scrollY, events[1..]);
    }
  }

  /** An undisturbed document is written at most once, unless the offset was saved more than the tolerance above the top. */
  lemma {:induction false} WrittenAtMostOnce(page: Page, scrollY: real, events: seq<Event>)
    requires page.loop.Some? ==> page.loop.value.saved.y >= -TolerancePx
    requires AllWithin(events) && Undisturbed(page, scrollY, events)
    ensures |Run(page, events).writes| <= |page.writes| + 1
    decreases events
  {
    if events != [] {
      assert events[0] in events && forall e | e in events[1..] :: e in events;
      var next := Step(page, events[0]);
      if next.writes == page.writes {
        WrittenAtMostOnce(next, scrollY, events[1..]);
      } else {
        OnTargetStays(next, Landing(page, events[0].geometry), events[1..]);
      }
    }
  }

  /**
   The first frame whose document can hold the offset leaves the page on target
   exactly when it was there already or the offset is at most the tolerance above
   the top: an overscrolled one is brought back to the top and stays off target.
   */
  lemma ReachableIsRestored(page: Page, scrollY: real, now: real, geometry: Geometry)
    requires page.loop.Some? && !page.loop.value.interrupted && page.loop.value.reachableAt.None?
    requires CanHoldOffset(page.loop.value.saved, geometry) && geometry.scrollY == scrollY && geometry.maxScrollY >= 0.0
    ensures var next := Step(page, Frame(now, geometry));
      && next.loop.Some?
      && (OnTarget(next, if next.writes == page.writes then scrollY else Landing(page, geometry))
          <==> OnTarget(page, scrollY) || page.loop.value.saved.y >= -TolerancePx)
  {
  }

  /** Such an offset is written again at every frame of the window. */
  lemma OverscrolledWrittenAgain(page: Page, first: Geometry, now: real, later: real)
    requires page.loop.Some? && !page.loop.value.interrupted && page.loop.value.reachableAt.None?
    requires page.loop.value.saved.y < -TolerancePx && first.maxScrollY >= 0.0 && !OnTarget(page, first.scrollY)
    requires now <= later < now + RestoreWindowMs
    ensures var next := Step(page, Frame(now, first));
      var again := Step(next, Frame(later, Geometry(Landing(page, first), first.maxScrollY)));
      |again.writes| == |next.writes| + 1 == |page.writes| + 2
  {
  }

  // ------------------------------------------------------- both coordinates

  /** Where a write leaves the page across: inside the document. */
  function Clamp(x: real, most: real): real {
    if x > most then most else if x < 0.0 then 0.0 else x
  }

  /** Where the page ends across, when only the loop moves it. */
  function XAfter(page: Page, scrollX: real, most: real, events: seq<Event>): real
    decreases events
  {
    if events == [] then scrollX
    else
      var next := Step(page, events[0]);
      var x := if next.writes == page.writes || page.loop.None? then scrollX else Clamp(page.loop.value.saved.x, most);
      XAfter(next, x, most, events[1..])
  }

  lemma {:induction false} WritesOnlyGrow(page: Page, events: seq<Event>)
    ensures |page.writes| <= |Run(page, events).writes|
    decreases events
  {
    if events != [] {
      WritesOnlyGrow(Step(page, events[0]), events[1..]);
    }
  }

  /** Nothing written, nothing moved across; and while the loop runs a write goes to its offset. */
  lemma {:induction false} UnwrittenX(page: Page, scrollX: real, most: real, events: seq<Event>)
    requires Run(page, events).writes == page.writes
    ensures XAfter(page, scrollX, most, events) == scrollX
    decreases events
  {
    if events != [] {
      var next := Step(page, events[0]);
      WritesOnlyGrow(next, events[1..]);
      assert next.writes == page.writes;
      UnwrittenX(next, scrollX, most, events[1..]);
    }
  }

  /**
   From the first frame that can hold the offset on, an undisturbed page ends at
   both saved coordinates exactly when that frame found it off target down the
   page, or already at the saved place across: only the vertical offset is looked
   at, so a page on target down and off across is never written.
   */
  lemma BothRestoredExactly(
    page: Page, scrollX: real, most: real, now: real, geometry: Geometry, rest: seq<Event>)
    requires page.loop.Some? && !page.loop.value.interrupted && page.loop.value.reachableAt.None?
    requires CanHoldOffset(page.loop.value.saved, geometry) && geometry.maxScrollY >= 0.0
    requires page.loop.value.saved.y >= -TolerancePx && 0.0 <= page.loop.value.saved.x <= most
    requires AllWithin(rest) && Undisturbed(page, geometry.scrollY, [Frame(now, geometry)] + rest)
    ensures Run(page, [Frame(now, geometry)] + rest).writes
      == page.writes + if OnTarget(page, geometry.scrollY) then [] else [(page.loop.value.saved.x, page.loop.value.saved.y)]
    ensures XAfter(page, scrollX, most, [Frame(now, geometry)] + rest) == page.loop.value.saved.x
      <==> !OnTarget(page, geometry.scrollY) || scrollX == page.loop.value.saved.x
  {
    var events := [Frame(now, geometry)] + rest;
    var next := Step(page, events[0]);
    assert events[1..] == rest;
    ReachableIsRestored(page, geometry.scrollY, now, geometry);
    var y := if next.writes == page.writes then geometry.scrollY else Landing(page, geometry);
    OnTargetStays(next, y, rest);
    var x := if next.writes == page.writes then scrollX else page.loop.value.saved.x;
    UnwrittenX(next, x, most, rest);
    assert page.writes + [] == page.writes;
  }

  /** Saved 300 px across and reached on target down, a page stays where it is across. */
  lemma AcrossIsLost()
    ensures ShouldSaveScroll(false, false, 300.0, 0.0)
    ensures var page := Page(None, Some(Loop(SavedScroll("/", 300.0, 0.0, 0.0), 0.0, false, None)), []);
      var events := [Frame(16.0, Geometry(0.0, 500.0))];
      Run(page, events).writes == [] && XAfter(page, 0.0, 1000.0, events) == 0.0
  {
    var page := Page(None, Some(Loop(SavedScroll("/", 300.0, 0.0, 0.0), 0.0, false, None)), []);
    var events := [Frame(16.0, Geometry(0.0, 500.0))];
    assert events[1..] == [];
  }
}
