/**
 The callers that write the billing row: webhook deliveries
 (`process-billing-event.ts`) and the admin's re-sync (`entitlement-actions.ts`).
 Each is several statements, with other callers' statements in between.
 */
module BillingDeliveries {
  import opened Text
  import opened Billing

  // ----------------------------------------------------- one row, many callers

  /** A caller reads the row, and later writes what an event makes of what it read. */
  datatype RowStep = Reads(task: nat) | Writes(task: nat, event: Event)

  /** Something stored, and what each caller that read it still holds. */
  datatype Shared<T> = Shared(now: T, held: map<nat, T>)

  /** The upsert: the state comes from the row held, the columns it leaves alone from the row stored. */
  function ReplayOne(at: Shared<Option<Entitlement>>, step: RowStep): Shared<Option<Entitlement>> {
    match step
    case Reads(t) => at.(held := at.held[t := at.now])
    case Writes(t, event) =>
      if t !in at.held then at
      else Shared(Some(Written(at.now, ApplyBillingEvent(at.held[t], event))), at.held - {t})
  }

  function Replay(start: Option<Entitlement>, steps: seq<RowStep>): Shared<Option<Entitlement>> {
    if steps == [] then Shared(start, map[])
    else ReplayOne(Replay(start, steps[..|steps| - 1]), steps[|steps| - 1])
  }

  /** The same run, keeping of each value the writes it was made by. */
  function ChainOne(at: Shared<seq<RowStep>>, step: RowStep): Shared<seq<RowStep>> {
    match step
    case Reads(t) => at.(held := at.held[t := at.now])
    case Writes(t, _) => if t !in at.held then at else Shared(at.held[t] + [step], at.held - {t})
  }

  function Chain(steps: seq<RowStep>): Shared<seq<RowStep>> {
    if steps == [] then Shared([], map[]) else ChainOne(Chain(steps[..|steps| - 1]), steps[|steps| - 1])
  }

  /** The writes among some steps, in the order they were made. */
  function WritesOf(steps: seq<RowStep>): seq<RowStep> {
    if steps == [] then []
    else
      var last := steps[|steps| - 1];
      WritesOf(steps[..|steps| - 1]) + if last.Writes? then [last] else []
  }

  /** The events those writes carry. */
  function EventsOf(steps: seq<RowStep>): seq<Event> {
    if steps == [] then []
    else
      var last := steps[|steps| - 1];
      EventsOf(steps[..|steps| - 1]) + if last.Writes? then [last.event] else []
  }

  /** A caller reads once, and writes at most once, after its read. */
  predicate Follows(before: seq<RowStep>, step: RowStep) {
    match step
    case Reads(t) => forall s | s in before :: s.task != t
    case Writes(t, _) => Reads(t) in before && forall s | s in before && s.Writes? :: s.task != t
  }

  predicate WellFormed(steps: seq<RowStep>) {
    forall j :: 0 <= j < |steps| ==> Follows(steps[..j], steps[j])
  }

  /** No write of the row falls between a caller's read and its write. */
  predicate Undisturbed(steps: seq<RowStep>) {
    forall i, k, j :: 0 <= i < k < j < |steps| && steps[i].Reads? && steps[j].Writes? && steps[i].task == steps[j].task ==>
      !steps[k].Writes?
  }

  // ---- the row is the run of the writes it descends from

  function TrialOf(row: Option<Entitlement>): Option<int> {
    if row.Some? then row.value.trialEndsAt else None
  }

  lemma RunLast(start: Option<Entitlement>, events: seq<Event>, last: Event)
    ensures Run(start, events + [last]) == Some(Apply(Run(start, events), last))
  {
    assert (events + [last])[..|events|] == events;
  }

  lemma EventsOfLast(steps: seq<RowStep>, last: RowStep)
    ensures EventsOf(steps + [last]) == EventsOf(steps) + if last.Writes? then [last.event] else []
  {
    assert (steps + [last])[..|steps|] == steps;
  }

  /** Columns no event touches are the same in every row of a run, so it does not matter which row they come from. */
  lemma SameTrialSameWrite(stored: Option<Entitlement>, read: Option<Entitlement>, event: Event)
    requires TrialOf(stored) == TrialOf(read)
    ensures Written(stored, ApplyBillingEvent(read, event)) == Apply(read, event)
    ensures TrialOf(Some(Apply(read, event))) == TrialOf(read)
  {
  }

  ghost predicate ReplayIsChain(start: Option<Entitlement>, steps: seq<RowStep>) {
    var row, chain := Replay(start, steps), Chain(steps);
    && row.held.Keys == chain.held.Keys
    && row.now == Run(start, EventsOf(chain.now)) && TrialOf(row.now) == TrialOf(start)
    && forall t | t in row.held ::
         row.held[t] == Run(start, EventsOf(chain.held[t])) && TrialOf(row.held[t]) == TrialOf(start)
  }

  /** Over every interleaving the stored row is the run of exactly the writes it descends from. */
  lemma {:induction false} RowIsItsChain(start: Option<Entitlement>, steps: seq<RowStep>)
    ensures ReplayIsChain(start, steps)
  {
    hide Apply, ApplyBillingEvent, Written;
    if steps != [] {
      var n := |steps| - 1;
      RowIsItsChain(start, steps[..n]);
      var row, chain := Replay(start, steps[..n]), Chain(steps[..n]);
      if steps[n].Writes? && steps[n].task in row.held {
        var t, event := steps[n].task, steps[n].event;
        SameTrialSameWrite(row.now, row.held[t], event);
        EventsOfLast(chain.held[t], steps[n]);
        RunLast(start, EventsOf(chain.held[t]), event);
      }
    }
  }

  // ---- the chain is all the writes exactly when no read was overtaken

  /** What a caller holds is what was stored when it read. */
  lemma {:induction false} HeldSinceRead(steps: seq<RowStep>, i: nat, t: nat)
    requires WellFormed(steps) && i < |steps| && steps[i] == Reads(t)
    requires forall s | s in steps && s.Writes? :: s.task != t
    ensures t in Chain(steps).held && Chain(steps).held[t] == Chain(steps[..i]).now
  {
    hide WellFormed;
    var n := |steps| - 1;
    if i < n {
      WellFormedBefore(steps, n);
      assert steps[..n][..i] == steps[..i] && steps[..n][i] == steps[i];
      assert steps[n] in steps && forall s | s in steps[..n] :: s in steps;
      HeldSinceRead(steps[..n], i, t);
      OtherTask(steps, i);
    }
  }

  /** After a caller's read the next step of any kind but its write is another caller's. */
  lemma OtherTask(steps: seq<RowStep>, i: nat)
    requires WellFormed(steps) && i < |steps| - 1 && steps[i].Reads?
    requires steps[|steps| - 1].Writes? ==> steps[|steps| - 1].task != steps[i].task
    ensures steps[|steps| - 1].task != steps[i].task
  {
    var n := |steps| - 1;
    assert Follows(steps[..n], steps[n]);
    assert steps[..n][i] in steps[..n];
  }

  lemma WellFormedBefore(steps: seq<RowStep>, n: nat)
    requires n <= |steps| && WellFormed(steps)
    ensures WellFormed(steps[..n])
  {
    forall j | 0 <= j < n ensures Follows(steps[..n][..j], steps[..n][j]) {
      assert steps[..n][..j] == steps[..j];
    }
  }

  /** Writes only add up, and a stretch without writes adds none. */
  lemma {:induction false} WritesGrow(steps: seq<RowStep>, i: nat, n: nat)
    requires i <= n <= |steps|
    ensures |WritesOf(steps[..i])| <= |WritesOf(steps[..n])|
    ensures |WritesOf(steps[..i])| == |WritesOf(steps[..n])| <==> forall k :: i <= k < n ==> !steps[k].Writes?
    ensures (forall k :: i <= k < n ==> !steps[k].Writes?) ==> WritesOf(steps[..i]) == WritesOf(steps[..n])
    decreases n
  {
    if i < n {
      assert steps[..n][..n - 1] == steps[..n - 1];
      WritesGrow(steps, i, n - 1);
    }
  }

  /** No write from `i` up to `n`. */
  predicate Quiet(steps: seq<RowStep>, i: nat, n: nat)
    requires n <= |steps|
  {
    forall k :: i <= k < n ==> !steps[k].Writes?
  }

  /** The last write of a run, and whether another fell between its read and it. */
  lemma LastUndisturbed(steps: seq<RowStep>, i: nat)
    requires WellFormed(steps) && i < |steps| - 1
    requires var n := |steps| - 1; steps[n].Writes? && steps[i] == Reads(steps[n].task)
    ensures Undisturbed(steps) <==> Undisturbed(steps[..i]) && Quiet(steps, i, |steps| - 1)
  {
    var n := |steps| - 1;
    if Undisturbed(steps) {
      UndisturbedBefore(steps, i);
      forall k | i <= k < n ensures !steps[k].Writes? {
      }
    }
    if Undisturbed(steps[..i]) && Quiet(steps, i, n) {
      QuietKeeps(steps, i);
    }
  }

  lemma UndisturbedBefore(steps: seq<RowStep>, i: nat)
    requires i <= |steps| && Undisturbed(steps)
    ensures Undisturbed(steps[..i])
  {
    var before := steps[..i];
    assert forall k :: 0 <= k < i ==> before[k] == steps[k];
  }

  lemma QuietKeeps(steps: seq<RowStep>, i: nat)
    requires WellFormed(steps) && i < |steps| - 1
    requires var n := |steps| - 1; steps[n].Writes? && steps[i] == Reads(steps[n].task)
    requires Undisturbed(steps[..i]) && Quiet(steps, i, |steps| - 1)
    ensures Undisturbed(steps)
  {
    hide WellFormed;
    var n := |steps| - 1;
    var before := steps[..i];
    forall a, k, j | 0 <= a < k < j <= n && steps[a].Reads? && steps[j].Writes? && steps[a].task == steps[j].task
      ensures !steps[k].Writes?
    {
      if j == n {
        if a < i {
          OneRead(steps, a, i);
        } else if i < a {
          OneRead(steps, i, a);
        }
      } else {
        assert j < i;
        assert before[a] == steps[a] && before[k] == steps[k] && before[j] == steps[j];
      }
    }
  }

  lemma OneRead(steps: seq<RowStep>, a: nat, b: nat)
    requires WellFormed(steps) && a < b < |steps| && steps[a].Reads? && steps[b].Reads?
    ensures steps[a].task != steps[b].task
  {
    assert Follows(steps[..b], steps[b]);
    assert steps[..b][a] == steps[a];
  }

  /** The chain never holds more than the writes made, and all of them exactly in an undisturbed run, in their order. */
  lemma {:induction false} ChainIsAllWrites(steps: seq<RowStep>)
    requires WellFormed(steps)
    ensures |Chain(steps).now| <= |WritesOf(steps)|
    ensures |Chain(steps).now| == |WritesOf(steps)| <==> Undisturbed(steps)
    ensures Undisturbed(steps) ==> Chain(steps).now == WritesOf(steps)
    decreases |steps|
  {
    if steps != [] {
      var n := |steps| - 1;
      WellFormedBefore(steps, n);
      if steps[n].Reads? {
        ChainIsAllWrites(steps[..n]);
        UndisturbedByRead(steps);
      } else {
        hide Undisturbed, WellFormed, Follows;
        var i := ReadOf(steps);
        WellFormedBefore(steps, i);
        ChainIsAllWrites(steps[..i]);
        HeldSinceRead(steps[..n], i, steps[n].task);
        assert steps[..n][..i] == steps[..i];
        WritesGrow(steps, i, n);
        LastUndisturbed(steps, i);
      }
    }
  }

  lemma UndisturbedByRead(steps: seq<RowStep>)
    requires steps != [] && steps[|steps| - 1].Reads?
    ensures Undisturbed(steps) <==> Undisturbed(steps[..|steps| - 1])
  {
    var before := steps[..|steps| - 1];
    assert forall k :: 0 <= k < |before| ==> before[k] == steps[k];
  }

  /** The read of the last write. */
  lemma ReadOf(steps: seq<RowStep>) returns (i: nat)
    requires steps != [] && WellFormed(steps) && steps[|steps| - 1].Writes?
    ensures i < |steps| - 1 && steps[i] == Reads(steps[|steps| - 1].task)
    ensures forall s | s in steps[..|steps| - 1] && s.Writes? :: s.task != steps[|steps| - 1].task
    ensures steps[..|steps| - 1][i] == steps[i]
  {
    var n := |steps| - 1;
    assert Follows(steps[..n], steps[n]);
    i :| 0 <= i < n && steps[..n][i] == Reads(steps[n].task);
  }

  // ---- losing a write loses what only that write carried

  /** The same step, its event naming another customer. */
  function NamedEvent(event: Event, customerId: Option<string>): Event {
    event.(customerId := customerId)
  }

  function NamedStep(step: RowStep, name: nat -> Option<string>): RowStep {
    match step
    case Reads(_) => step
    case Writes(t, event) => Writes(t, NamedEvent(event, name(t)))
  }

  function Named(steps: seq<RowStep>, name: nat -> Option<string>): (named: seq<RowStep>)
    ensures |named| == |steps|
    ensures forall i :: 0 <= i < |steps| ==> named[i] == NamedStep(steps[i], name)
  {
    seq(|steps|, i requires 0 <= i < |steps| => NamedStep(steps[i], name))
  }

  lemma NamedBefore(steps: seq<RowStep>, name: nat -> Option<string>, n: nat)
    requires n <= |steps|
    ensures Named(steps, name)[..n] == Named(steps[..n], name)
  {
  }

  lemma NamedLast(steps: seq<RowStep>, last: RowStep, name: nat -> Option<string>)
    ensures Named(steps + [last], name) == Named(steps, name) + [NamedStep(last, name)]
  {
  }

  /** The names play no part in who reads, who writes and in which order. */
  lemma NamedShape(steps: seq<RowStep>, name: nat -> Option<string>)
    requires WellFormed(steps)
    ensures WellFormed(Named(steps, name))
    ensures Undisturbed(Named(steps, name)) <==> Undisturbed(steps)
  {
    var named := Named(steps, name);
    forall j | 0 <= j < |named| ensures Follows(named[..j], named[j]) {
      var before := steps[..j];
      assert Follows(before, steps[j]);
      assert forall i :: 0 <= i < j ==> named[..j][i] == NamedStep(before[i], name);
      if steps[j].Writes? {
        var i :| 0 <= i < j && before[i] == Reads(steps[j].task);
        assert named[..j][i] == Reads(steps[j].task);
      }
    }
  }

  ghost predicate NamedChain(steps: seq<RowStep>, name: nat -> Option<string>) {
    var chain, named := Chain(steps), Chain(Named(steps, name));
    && named.held.Keys == chain.held.Keys && named.now == Named(chain.now, name)
    && forall t | t in chain.held :: named.held[t] == Named(chain.held[t], name)
  }

  lemma {:induction false} ChainNamed(steps: seq<RowStep>, name: nat -> Option<string>)
    ensures NamedChain(steps, name)
    ensures WritesOf(Named(steps, name)) == Named(WritesOf(steps), name)
  {
    if steps != [] {
      var n := |steps| - 1;
      ChainNamed(steps[..n], name);
      NamedBefore(steps, name, n);
      NamedLast(WritesOf(steps[..n]), steps[n], name);
      var chain := Chain(steps[..n]);
      if steps[n].Writes? && steps[n].task in chain.held {
        NamedLast(chain.held[steps[n].task], steps[n], name);
      }
    }
  }

  predicate AllWrites(steps: seq<RowStep>) {
    forall s | s in steps :: s.Writes?
  }

  lemma {:induction false} WritesAreWrites(steps: seq<RowStep>)
    ensures AllWrites(WritesOf(steps)) && EventsOf(WritesOf(steps)) == EventsOf(steps)
    ensures forall s :: s in WritesOf(steps) <==> s in steps && s.Writes?
  {
    if steps != [] {
      var n := |steps| - 1;
      var before := WritesOf(steps[..n]);
      WritesAreWrites(steps[..n]);
      assert steps == steps[..n] + [steps[n]];
      EventsOfLast(before, steps[n]);
      assert before + [] == before && EventsOf(before) + [] == EventsOf(before);
    }
  }

  /** Whatever is in a chain is a write of the run. */
  lemma {:induction false} ChainHoldsWrites(steps: seq<RowStep>)
    ensures forall s | s in Chain(steps).now :: s in steps && s.Writes?
    ensures forall t, s | t in Chain(steps).held && s in Chain(steps).held[t] :: s in steps && s.Writes?
  {
    if steps != [] {
      var n := |steps| - 1;
      ChainHoldsWrites(steps[..n]);
      assert steps[n] in steps && forall s | s in steps[..n] :: s in steps;
    }
  }

  /** More writes made than the chain holds: one of them is not in it. */
  lemma {:induction false} SomeWriteLost(chain: seq<RowStep>, writes: seq<RowStep>) returns (lost: RowStep)
    requires |chain| < |writes|
    requires forall i, j :: 0 <= i < j < |writes| ==> writes[i] != writes[j]
    ensures lost in writes && lost !in chain
  {
    if forall s | s in writes :: s in chain {
      DistinctCount(writes);
      CountAtMost(chain);
      ghost var all, held := set s | s in writes, set s | s in chain;
      assert all <= held;
      Fewer(all, held);
    }
    lost :| lost in writes && lost !in chain;
  }

  lemma Fewer<T>(a: set<T>, b: set<T>)
    requires a <= b
    ensures |a| <= |b|
  {
    assert b == a + (b - a);
  }

  lemma {:induction false} DistinctCount(steps: seq<RowStep>)
    requires forall i, j :: 0 <= i < j < |steps| ==> steps[i] != steps[j]
    ensures |set s | s in steps| == |steps|
  {
    if steps != [] {
      var n := |steps| - 1;
      DistinctCount(steps[..n]);
      assert (set s | s in steps) == (set s | s in steps[..n]) + {steps[n]};
    }
  }

  lemma {:induction false} CountAtMost(steps: seq<RowStep>)
    ensures |set s | s in steps| <= |steps|
  {
    if steps != [] {
      var n := |steps| - 1;
      CountAtMost(steps[..n]);
      assert (set s | s in steps) == (set s | s in steps[..n]) + {steps[n]};
    }
  }

  /** A well-formed run writes each task once, so no write stands twice. */
  lemma {:induction false} WritesDiffer(steps: seq<RowStep>)
    requires WellFormed(steps)
    ensures forall i, j :: 0 <= i < j < |WritesOf(steps)| ==> WritesOf(steps)[i].task != WritesOf(steps)[j].task
    ensures AllWrites(WritesOf(steps))
  {
    if steps != [] {
      var n := |steps| - 1;
      WellFormedBefore(steps, n);
      WritesDiffer(steps[..n]);
      WritesAreWrites(steps[..n]);
      WritesAreWrites(steps);
      assert Follows(steps[..n], steps[n]);
    }
  }

  function CustomerOf(row: Option<Entitlement>): Option<string> {
    if row.Some? then row.value.customerId else None
  }

  lemma CustomerOfRun(start: Option<Entitlement>, events: seq<Event>)
    ensures CustomerOf(Run(start, events)) == LastCustomer(CustomerOf(start), events)
  {
    if events != [] {
      ReferencesOverRuns(start, events);
      var n := |events| - 1;
      assert Run(start, events) == Some(Apply(Run(start, events[..n]), events[n]));
    }
  }

  function OneName(task: nat, customer: string): nat -> Option<string> {
    (t: nat) => if t == task then Some(customer) else None
  }

  lemma LastCustomerLast(start: Option<string>, events: seq<Event>, last: Event)
    ensures LastCustomer(start, events + [last])
      == if last.customerId.Some? then last.customerId else LastCustomer(start, events)
  {
    assert (events + [last])[..|events|] == events;
  }

  predicate HasTask(steps: seq<RowStep>, task: nat) {
    exists s :: s in steps && s.task == task
  }

  lemma HasTaskLast(steps: seq<RowStep>, last: RowStep, task: nat)
    ensures HasTask(steps + [last], task) <==> HasTask(steps, task) || last.task == task
  {
    assert last in steps + [last];
    assert forall s | s in steps :: s in steps + [last];
  }

  /** With one task alone naming a customer, the customer is its name exactly when its write is there. */
  lemma {:induction false} OnlyNamed(steps: seq<RowStep>, start: Option<string>, task: nat, customer: string)
    requires AllWrites(steps)
    ensures LastCustomer(start, EventsOf(Named(steps, OneName(task, customer))))
      == if HasTask(steps, task) then Some(customer) else start
  {
    hide LastCustomer, EventsOf, Named, HasTask;
    var name := OneName(task, customer);
    if steps == [] {
      NothingNamed(start, name, task);
    } else {
      var n := |steps| - 1;
      var before, last := steps[..n], steps[n];
      assert steps == before + [last] && last in steps;
      assert forall s | s in before :: s in steps;
      OnlyNamed(before, start, task, customer);
      HasTaskLast(before, last, task);
      NamedLast(before, last, name);
      EventsOfLast(Named(before, name), NamedStep(last, name));
      LastCustomerLast(start, EventsOf(Named(before, name)), NamedStep(last, name).event);
    }
  }

  lemma NothingNamed(start: Option<string>, name: nat -> Option<string>, task: nat)
    ensures LastCustomer(start, EventsOf(Named([], name))) == start && !HasTask([], task)
  {
  }

  /** The row ends as its events, in the order they were written, would have left it. */
  ghost predicate Ordered(start: Option<Entitlement>, steps: seq<RowStep>) {
    Replay(start, steps).now == Run(start, EventsOf(steps))
  }

  lemma UndisturbedIsOrdered(start: Option<Entitlement>, steps: seq<RowStep>)
    requires WellFormed(steps) && Undisturbed(steps)
    ensures Ordered(start, steps)
  {
    hide WellFormed, Undisturbed, Run, Replay, Chain;
    RowIsItsChain(start, steps);
    ChainIsAllWrites(steps);
    WritesAreWrites(steps);
  }

  /** A customer no row has yet. */
  function NewName(taken: Option<string>): (name: string)
    ensures Some(name) != taken
  {
    if taken.Some? then
      assert |taken.value + "+"| == |taken.value| + 1;
      taken.value + "+"
    else ""
  }

  /** An overtaken read loses a write: with that write alone naming a customer, the row has not got it. */
  lemma OvertakenLoses(start: Option<Entitlement>, steps: seq<RowStep>) returns (name: nat -> Option<string>)
    requires WellFormed(steps) && !Undisturbed(steps)
    ensures !Ordered(start, Named(steps, name))
  {
    hide WellFormed, Undisturbed, Run, Replay, Chain, Follows, Named, LastCustomer;
    var chain, writes := Chain(steps).now, WritesOf(steps);
    ChainIsAllWrites(steps);
    WritesDiffer(steps);
    WritesAreWrites(steps);
    ChainHoldsWrites(steps);
    var lost := SomeWriteLost(chain, writes);
    var customer := NewName(CustomerOf(start));
    name := OneName(lost.task, customer);
    LostTask(chain, writes, lost);
    RowIsItsChain(start, Named(steps, name));
    ChainNamed(steps, name);
    WritesAreWrites(Named(steps, name));
    CustomerOfRun(start, EventsOf(Named(chain, name)));
    CustomerOfRun(start, EventsOf(Named(writes, name)));
    OnlyNamed(chain, CustomerOf(start), lost.task, customer);
    OnlyNamed(writes, CustomerOf(start), lost.task, customer);
  }

  lemma LostTask(chain: seq<RowStep>, writes: seq<RowStep>, lost: RowStep)
    requires lost in writes && lost !in chain && forall s | s in chain :: s in writes
    requires forall i, j :: 0 <= i < j < |writes| ==> writes[i].task != writes[j].task
    ensures forall s | s in chain :: s.task != lost.task
  {
  }

  /**
   A row is the run of its events in write order, whatever customers they name,
   exactly when no other write of the row falls between a caller's read and its
   write.
   */
  lemma OrderedExactly(start: Option<Entitlement>, steps: seq<RowStep>)
    requires WellFormed(steps)
    ensures Undisturbed(steps) <==> forall name: nat -> Option<string> :: Ordered(start, Named(steps, name))
  {
    hide Ordered, Undisturbed, WellFormed, Named;
    if Undisturbed(steps) {
      forall name: nat -> Option<string> ensures Ordered(start, Named(steps, name)) {
        NamedShape(steps, name);
        UndisturbedIsOrdered(start, Named(steps, name));
      }
    } else {
      var name := OvertakenLoses(start, steps);
    }
  }

  // --------------------------------------------------------- the control plane

  type EventKey = (string, string)

  function KeyOf(e: Event): EventKey {
    (e.provider, e.eventId)
  }

  /** A caller between two of its statements. One that dies takes no further step. */
  datatype Task =
    | Recorded(event: Event)
    | Holding(workspaceId: string, row: Option<Entitlement>, event: Event)

  /** A step of the history: which row, and what was done to it. */
  datatype Entry = Entry(workspaceId: string, step: RowStep)

  datatype Plane = Plane(
    seen: set<EventKey>, rows: map<string, Entitlement>, tasks: map<nat, Task>, used: set<nat>, history: seq<Entry>)

  /** The statements callers interleave: the insert, the two reads, and the upsert. */
  datatype Action =
    | Record(task: nat, event: Event)
    | ReadForEvent(task: nat)
    | ReadForResync(task: nat, workspaceId: string, adapter: Option<string>, api: Option<ApiState>, now: int)
    | Upsert(task: nat)

  function RowOf(rows: map<string, Entitlement>, workspaceId: string): Option<Entitlement> {
    if workspaceId in rows then Some(rows[workspaceId]) else None
  }

  datatype ResyncOutcome = NoSubscription | NoAdapter | UnknownSubscription | Synced

  predicate HasSubscription(row: Option<Entitlement>) {
    && row.Some?
    && row.value.subscriptionId.Some? && row.value.subscriptionId.value != ""
    && row.value.billingProvider.Some? && row.value.billingProvider.value != ""
  }

  function ResyncAnswer(row: Option<Entitlement>, adapter: Option<string>, api: Option<ApiState>): ResyncOutcome {
    if !HasSubscription(row) then NoSubscription
    else if adapter != row.value.billingProvider then NoAdapter
    else if api.None? then UnknownSubscription
    else Synced
  }

  /** A read, kept by its caller and in the history. */
  function Take(plane: Plane, task: nat, workspaceId: string, event: Event): Plane {
    plane.(tasks := plane.tasks[task := Holding(workspaceId, RowOf(plane.rows, workspaceId), event)],
           history := plane.history + [Entry(workspaceId, Reads(task))])
  }

  function Act(plane: Plane, known: set<string>, action: Action): Plane {
    match action
    case Record(t, event) =>
      if t in plane.used then plane
      else
        var begun := plane.(used := plane.used + {t}, seen := plane.seen + {KeyOf(event)});
        if KeyOf(event) in plane.seen || event.workspaceId !in known then begun
        else begun.(tasks := plane.tasks[t := Recorded(event)])
    case ReadForEvent(t) =>
      if t in plane.tasks && plane.tasks[t].Recorded? then
        var event := plane.tasks[t].event;
        Take(plane, t, event.workspaceId, event)
      else plane
    case ReadForResync(t, w, adapter, api, now) =>
      if t in plane.used then plane
      else
        var row := RowOf(plane.rows, w);
        var begun := plane.(used := plane.used + {t});
        if ResyncAnswer(row, adapter, api) != Synced then begun
        else Take(begun, t, w, EventOfResync(row, row.value.billingProvider.value, row.value.subscriptionId.value, api.value, now))
    case Upsert(t) =>
      if t in plane.tasks && plane.tasks[t].Holding? then
        var task := plane.tasks[t];
        var w := task.workspaceId;
        plane.(rows := plane.rows[w := Written(RowOf(plane.rows, w), ApplyBillingEvent(task.row, task.event))],
               tasks := plane.tasks - {t},
               history := plane.history + [Entry(w, Writes(t, task.event))])
      else plane
  }

  function RunActions(plane: Plane, known: set<string>, actions: seq<Action>): Plane {
    if actions == [] then plane
    else Act(RunActions(plane, known, actions[..|actions| - 1]), known, actions[|actions| - 1])
  }

  /** A row's part of the history. */
  function StepsOf(history: seq<Entry>, w: string): seq<RowStep> {
    if history == [] then []
    else
      var last := history[|history| - 1];
      StepsOf(history[..|history| - 1], w) + if last.workspaceId == w then [last.step] else []
  }

  /** Nobody is under way. */
  predicate Idle(plane: Plane) {
    plane.tasks == map[] && plane.used == {} && plane.history == []
  }

  class ControlPlane {
    var seen: set<EventKey>
    var rows: map<string, Entitlement>
    var tasks: map<nat, Task>
    var used: set<nat>
    ghost var history: seq<Entry>
    const known: set<string>

    ghost function Now(): Plane
      reads this
    {
      Plane(seen, rows, tasks, used, history)
    }

    constructor (known: set<string>)
      ensures Now() == Plane({}, map[], map[], {}, []) && Idle(Now()) && this.known == known
    {
      seen, rows, tasks, used, history, this.known := {}, map[], map[], {}, [], known;
    }

    /** The insert that decides who processes an event, and the check that its workspace is known. */
    method RecordBillingWebhookEvent(task: nat, event: Event) returns (goesOn: bool)
      requires task !in used
      modifies this`seen, this`tasks, this`used
      ensures Now() == Act(old(Now()), known, Record(task, event))
      ensures goesOn <==> KeyOf(event) !in old(seen) && event.workspaceId in known
    {
      var won := KeyOf(event) !in seen;
      seen, used := seen + {KeyOf(event)}, used + {task};
      goesOn := won && event.workspaceId in known;
      if goesOn {
        tasks := tasks[task := Recorded(event)];
      }
    }

    method ReadWorkspaceEntitlement(task: nat)
      requires task in tasks && tasks[task].Recorded?
      modifies this`tasks, this`history
      ensures Now() == Act(old(Now()), known, ReadForEvent(task))
    {
      var event := tasks[task].event;
      tasks := tasks[task := Holding(event.workspaceId, RowOf(rows, event.workspaceId), event)];
      history := history + [Entry(event.workspaceId, Reads(task))];
    }

    /** The re-sync's read and the provider's answer: only a row that knows its subscription goes on. */
    method ReadForResyncing(task: nat, workspaceId: string, adapter: Option<string>, api: Option<ApiState>, now: int)
      returns (outcome: ResyncOutcome)
      requires task !in used
      modifies this`tasks, this`used, this`history
      ensures Now() == Act(old(Now()), known, ReadForResync(task, workspaceId, adapter, api, now))
      ensures outcome == ResyncAnswer(RowOf(rows, workspaceId), adapter, api)
    {
      used := used + {task};
      var row := RowOf(rows, workspaceId);
      if !HasSubscription(row) {
        return NoSubscription;
      }
      if adapter != row.value.billingProvider {
        return NoAdapter;
      }
      if api.None? {
        return UnknownSubscription;
      }
      var event := EventOfResync(row, row.value.billingProvider.value, row.value.subscriptionId.value, api.value, now);
      tasks := tasks[task := Holding(workspaceId, row, event)];
      history := history + [Entry(workspaceId, Reads(task))];
      return Synced;
    }

    method UpdateWorkspaceBilling(task: nat)
      requires task in tasks && tasks[task].Holding?
      modifies this`rows, this`tasks, this`history
      ensures Now() == Act(old(Now()), known, Upsert(task))
    {
      var held := tasks[task];
      var state := ApplyBillingEvent(held.row, held.event);
      rows := rows[held.workspaceId := Written(RowOf(rows, held.workspaceId), state)];
      tasks := tasks - {task};
      history := history + [Entry(held.workspaceId, Writes(task, held.event))];
    }

    /** A delivery nobody interrupts. */
    method ProcessBillingEvent(task: nat, event: Event) returns (applied: bool)
      requires task !in used && task !in tasks
      modifies this
      ensures Now() == RunActions(old(Now()), known, [Record(task, event), ReadForEvent(task), Upsert(task)])
      ensures applied <==> KeyOf(event) !in old(seen) && event.workspaceId in known
    {
      ghost var start := Now();
      applied := RecordBillingWebhookEvent(task, event);
      if applied {
        ReadWorkspaceEntitlement(task);
        UpdateWorkspaceBilling(task);
      }
      ThreeActions(start, known, Record(task, event), ReadForEvent(task), Upsert(task));
    }
  }

  lemma ThreeActions(plane: Plane, known: set<string>, a: Action, b: Action, c: Action)
    ensures RunActions(plane, known, [a, b, c]) == Act(Act(Act(plane, known, a), known, b), known, c)
    ensures RunActions(plane, known, [a, b]) == Act(Act(plane, known, a), known, b)
  {
    hide RunActions, Act;
    RunActionsLast(plane, known, [], a);
    RunActionsLast(plane, known, [a], b);
    RunActionsLast(plane, known, [a, b], c);
    assert [] + [a] == [a] && [a] + [b] == [a, b] && [a, b] + [c] == [a, b, c];
    NoActions(plane, known);
  }

  /**
   What a delivery nobody interrupts does: an event of a new key and a known
   workspace is applied to that workspace's row, any other changes no row; either
   way its key, the provider's name for it, is never new again.
   */
  lemma DeliveredAlone(plane: Plane, known: set<string>, t: nat, event: Event, other: Event)
    requires t !in plane.used && t !in plane.tasks
    ensures var after := RunActions(plane, known, [Record(t, event), ReadForEvent(t), Upsert(t)]);
      var w := event.workspaceId;
      && after.rows == (if KeyOf(event) in plane.seen || w !in known then plane.rows
                        else plane.rows[w := Run(RowOf(plane.rows, w), [event]).value])
      && after.tasks == plane.tasks
      && (KeyOf(other) in after.seen
          <==> KeyOf(other) in plane.seen || (other.provider == event.provider && other.eventId == event.eventId))
  {
    hide ApplyBillingEvent;
    ThreeActions(plane, known, Record(t, event), ReadForEvent(t), Upsert(t));
    RunOne(RowOf(plane.rows, event.workspaceId), event);
    var begun := Act(plane, known, Record(t, event));
    if KeyOf(event) !in plane.seen && event.workspaceId in known {
      var read := Act(begun, known, ReadForEvent(t));
      assert read.tasks[t] == Holding(event.workspaceId, RowOf(plane.rows, event.workspaceId), event);
      assert Act(read, known, Upsert(t)).tasks == plane.tasks;
    }
  }

  lemma RunOne(start: Option<Entitlement>, event: Event)
    ensures Run(start, [event]) == Some(Apply(start, event))
  {
    hide Apply;
    assert [event][..0] == [];
    assert Run(start, [event][..0]) == start;
  }

  /**
   What a re-sync nobody interrupts does: it writes the row of a workspace with a
   subscription and a provider, if that provider is the one configured and answers;
   otherwise it says which of these failed first, and no row changes.
   */
  lemma ResyncedAlone(
    plane: Plane, known: set<string>, t: nat, w: string, adapter: Option<string>, api: Option<ApiState>, now: int)
    requires t !in plane.used && t !in plane.tasks
    ensures var row := RowOf(plane.rows, w);
      var outcome := ResyncAnswer(row, adapter, api);
      && (outcome == NoSubscription
          <==> row.None? || row.value.subscriptionId in {None, Some("")} || row.value.billingProvider in {None, Some("")})
      && (outcome == NoAdapter <==> outcome != NoSubscription && adapter != row.value.billingProvider)
      && (outcome == UnknownSubscription
          <==> outcome != NoSubscription && outcome != NoAdapter && api == None)
      && RunActions(plane, known, [ReadForResync(t, w, adapter, api, now), Upsert(t)]).rows
         == if outcome != Synced then plane.rows
            else plane.rows[w := Resync(row, row.value.billingProvider.value, row.value.subscriptionId.value, api.value, now)]
  {
    hide ApplyBillingEvent, EventOfResync;
    ThreeActions(plane, known, ReadForResync(t, w, adapter, api, now), Upsert(t), Upsert(t));
  }

  lemma RunActionsLast(plane: Plane, known: set<string>, actions: seq<Action>, last: Action)
    ensures RunActions(plane, known, actions + [last]) == Act(RunActions(plane, known, actions), known, last)
  {
    hide Act;
    assert (actions + [last])[..|actions|] == actions;
  }

  lemma NoActions(plane: Plane, known: set<string>)
    ensures RunActions(plane, known, []) == plane
  {
  }

  // ---- the rows are replays of their history

  lemma StepsOfLast(history: seq<Entry>, last: Entry, w: string)
    ensures StepsOf(history + [last], w) == if last.workspaceId == w then StepsOf(history, w) + [last.step] else StepsOf(history, w)
  {
    assert (history + [last])[..|history|] == history;
    assert StepsOf(history, w) + [] == StepsOf(history, w);
  }

  lemma ReplayLast(start: Option<Entitlement>, steps: seq<RowStep>, last: RowStep)
    ensures Replay(start, steps + [last]) == ReplayOne(Replay(start, steps), last)
  {
    assert (steps + [last])[..|steps|] == steps;
  }

  lemma WellFormedLast(steps: seq<RowStep>, last: RowStep)
    requires WellFormed(steps) && Follows(steps, last)
    ensures WellFormed(steps + [last])
  {
    var all := steps + [last];
    forall j | 0 <= j < |all| ensures Follows(all[..j], all[j]) {
      assert all[..j] == if j < |steps| then steps[..j] else steps;
    }
  }

  /** A row is the replay of its steps, which only callers that began took. */
  ghost predicate RowStands(start: Plane, plane: Plane, w: string) {
    var steps := StepsOf(plane.history, w);
    && WellFormed(steps)
    && RowOf(plane.rows, w) == Replay(RowOf(start.rows, w), steps).now
    && forall s | s in steps :: s.task in plane.used
  }

  predicate NoStep(steps: seq<RowStep>, t: nat) {
    forall s | s in steps :: s.task != t
  }

  predicate OnlyRead(steps: seq<RowStep>, t: nat) {
    Reads(t) in steps && forall s | s in steps && s.Writes? :: s.task != t
  }

  /** A caller that holds a row read it once and has not written. */
  ghost predicate TaskStands(start: Plane, plane: Plane, t: nat) {
    t in plane.tasks ==>
      && t in plane.used
      && match plane.tasks[t]
         case Recorded(_) => forall w :: NoStep(StepsOf(plane.history, w), t)
         case Holding(w, row, _) =>
           && OnlyRead(StepsOf(plane.history, w), t)
           && t in Replay(RowOf(start.rows, w), StepsOf(plane.history, w)).held
           && Replay(RowOf(start.rows, w), StepsOf(plane.history, w)).held[t] == row
  }

  ghost predicate Stands(start: Plane, plane: Plane) {
    (forall w :: RowStands(start, plane, w)) && (forall t :: TaskStands(start, plane, t))
  }

  /** One more step of a caller, in a history that stands, where the step may follow. */
  lemma EntryStands(start: Plane, plane: Plane, next: Plane, w: string, step: RowStep)
    requires Stands(start, plane) && next.history == plane.history + [Entry(w, step)]
    requires Follows(StepsOf(plane.history, w), step) && step.task in next.used && plane.used <= next.used
    requires next.rows - {w} == plane.rows - {w}
    requires RowOf(next.rows, w) == ReplayOne(Replay(RowOf(start.rows, w), StepsOf(plane.history, w)), step).now
    requires next.tasks - {step.task} == plane.tasks - {step.task}
    requires TaskStands(start, next, step.task)
    ensures Stands(start, next)
  {
    hide WellFormed, Follows, Replay, StepsOf, Written, ApplyBillingEvent;
    var steps := StepsOf(plane.history, w);
    forall v ensures RowStands(start, next, v) {
      assert RowStands(start, plane, v);
      StepsOfLast(plane.history, Entry(w, step), v);
      if v == w {
        WellFormedLast(steps, step);
        ReplayLast(RowOf(start.rows, w), steps, step);
      } else {
        assert RowOf(next.rows, v) == RowOf(next.rows - {w}, v) && RowOf(plane.rows, v) == RowOf(plane.rows - {w}, v);
      }
    }
    forall t ensures TaskStands(start, next, t) {
      if t != step.task {
        OtherTaskStands(start, plane, next, w, step, t);
      }
    }
  }

  lemma OtherTaskStands(start: Plane, plane: Plane, next: Plane, w: string, step: RowStep, t: nat)
    requires TaskStands(start, plane, t) && next.history == plane.history + [Entry(w, step)] && t != step.task
    requires plane.used <= next.used
    requires next.tasks - {step.task} == plane.tasks - {step.task}
    ensures TaskStands(start, next, t)
  {
    hide Replay, StepsOf, Written, ApplyBillingEvent;
    assert t in next.tasks <==> t in next.tasks - {step.task};
    assert t in plane.tasks <==> t in plane.tasks - {step.task};
    if t in next.tasks {
      assert next.tasks[t] == (next.tasks - {step.task})[t] == plane.tasks[t];
      forall v ensures NoStep(StepsOf(plane.history, v), t) ==> NoStep(StepsOf(next.history, v), t) {
        StepsOfLast(plane.history, Entry(w, step), v);
      }
      if plane.tasks[t].Holding? {
        var v := plane.tasks[t].workspaceId;
        StepsOfLast(plane.history, Entry(w, step), v);
        ReplayLast(RowOf(start.rows, v), StepsOf(plane.history, v), step);
        assert Reads(t) in StepsOf(plane.history, v) + [step];
      }
    }
  }

  lemma TakeStands(start: Plane, plane: Plane, t: nat, w: string, event: Event)
    requires Stands(start, plane) && t in plane.used
    requires NoStep(StepsOf(plane.history, w), t)
    ensures Stands(start, Take(plane, t, w, event))
  {
    hide WellFormed, Replay, StepsOf;
    var next := Take(plane, t, w, event);
    var steps := StepsOf(plane.history, w);
    assert RowStands(start, plane, w);
    StepsOfLast(plane.history, Entry(w, Reads(t)), w);
    ReplayLast(RowOf(start.rows, w), steps, Reads(t));
    assert TaskStands(start, next, t);
    assert next.tasks - {t} == plane.tasks - {t} && next.rows - {w} == plane.rows - {w};
    EntryStands(start, plane, next, w, Reads(t));
  }

  lemma UpsertStands(start: Plane, plane: Plane, known: set<string>, t: nat)
    requires Stands(start, plane) && t in plane.tasks && plane.tasks[t].Holding?
    ensures Stands(start, Act(plane, known, Upsert(t)))
  {
    hide WellFormed, Replay, StepsOf, Written, ApplyBillingEvent;
    var task := plane.tasks[t];
    var next := Act(plane, known, Upsert(t));
    assert TaskStands(start, plane, t) && RowStands(start, plane, task.workspaceId);
    assert next.tasks - {t} == plane.tasks - {t};
    assert next.rows - {task.workspaceId} == plane.rows - {task.workspaceId};
    EntryStands(start, plane, next, task.workspaceId, Writes(t, task.event));
  }

  /** A caller that begins, without a row in hand yet. */
  lemma BeginStands(start: Plane, plane: Plane, next: Plane, t: nat)
    requires Stands(start, plane) && t !in plane.used && next.used == plane.used + {t}
    requires next.rows == plane.rows && next.history == plane.history
    requires next.tasks == plane.tasks || exists event :: next.tasks == plane.tasks[t := Recorded(event)]
    ensures Stands(start, next)
    ensures forall w :: NoStep(StepsOf(plane.history, w), t)
  {
    hide WellFormed, Replay, StepsOf;
    forall w ensures RowStands(start, next, w) && NoStep(StepsOf(plane.history, w), t) {
      assert RowStands(start, plane, w);
    }
    forall u ensures TaskStands(start, next, u) {
      assert TaskStands(start, plane, u);
    }
  }

  lemma ActStands(start: Plane, plane: Plane, known: set<string>, action: Action)
    requires Stands(start, plane)
    ensures Stands(start, Act(plane, known, action))
  {
    hide Stands, Written, ApplyBillingEvent, EventOfResync, Take;
    var t := action.task;
    match action
    case Record(_, event) =>
      if t !in plane.used {
        var begun := plane.(used := plane.used + {t}, seen := plane.seen + {KeyOf(event)});
        BeginStands(start, plane, Act(plane, known, action), t);
      }
    case ReadForEvent(_) =>
      if t in plane.tasks && plane.tasks[t].Recorded? {
        RecordedStands(start, plane, t);
        TakeStands(start, plane, t, plane.tasks[t].event.workspaceId, plane.tasks[t].event);
      }
    case ReadForResync(_, w, adapter, api, now) =>
      if t !in plane.used {
        var begun := plane.(used := plane.used + {t});
        BeginStands(start, plane, begun, t);
        var row := RowOf(plane.rows, w);
        if ResyncAnswer(row, adapter, api) == Synced {
          TakeStands(start, begun, t, w,
            EventOfResync(row, row.value.billingProvider.value, row.value.subscriptionId.value, api.value, now));
        }
      }
    case Upsert(_) =>
      if t in plane.tasks && plane.tasks[t].Holding? {
        UpsertStands(start, plane, known, t);
      }
  }

  lemma RecordedStands(start: Plane, plane: Plane, t: nat)
    requires Stands(start, plane) && t in plane.tasks && plane.tasks[t].Recorded?
    ensures t in plane.used && forall w :: NoStep(StepsOf(plane.history, w), t)
  {
    assert TaskStands(start, plane, t);
  }

  lemma {:induction false} RunStands(start: Plane, known: set<string>, actions: seq<Action>)
    requires Idle(start)
    ensures Stands(start, RunActions(start, known, actions))
  {
    hide Act, Stands;
    if actions == [] {
      IdleStands(start);
    } else {
      var n := |actions| - 1;
      RunStands(start, known, actions[..n]);
      ActStands(start, RunActions(start, known, actions[..n]), known, actions[n]);
    }
  }

  lemma IdleStands(start: Plane)
    requires Idle(start)
    ensures Stands(start, start)
  {
    forall w ensures RowStands(start, start, w) {
    }
  }

  // ---- the same callers, naming other customers

  function NamedApi(api: Option<ApiState>, customerId: Option<string>): Option<ApiState> {
    if api.None? then None else Some(api.value.(customerId := customerId))
  }

  function NamedAction(action: Action, name: nat -> Option<string>): Action {
    match action
    case Record(t, event) => Record(t, NamedEvent(event, name(t)))
    case ReadForResync(t, w, adapter, api, now) => ReadForResync(t, w, adapter, NamedApi(api, name(t)), now)
    case _ => action
  }

  function NamedActions(actions: seq<Action>, name: nat -> Option<string>): (named: seq<Action>)
    ensures |named| == |actions|
    ensures forall i :: 0 <= i < |actions| ==> named[i] == NamedAction(actions[i], name)
  {
    seq(|actions|, i requires 0 <= i < |actions| => NamedAction(actions[i], name))
  }

  function NamedEntries(history: seq<Entry>, name: nat -> Option<string>): (named: seq<Entry>)
    ensures |named| == |history|
    ensures forall i :: 0 <= i < |history| ==> named[i] == Entry(history[i].workspaceId, NamedStep(history[i].step, name))
  {
    seq(|history|, i requires 0 <= i < |history| => Entry(history[i].workspaceId, NamedStep(history[i].step, name)))
  }

  /** Two rows that differ in their customer at most. */
  predicate AlikeRow(a: Option<Entitlement>, b: Option<Entitlement>) {
    if a.None? then b.None? else b.Some? && b.value == a.value.(customerId := b.value.customerId)
  }

  predicate AlikeTask(a: Task, b: Task, customerId: Option<string>) {
    match a
    case Recorded(event) => b == Recorded(NamedEvent(event, customerId))
    case Holding(w, row, event) =>
      b.Holding? && b.workspaceId == w && AlikeRow(row, b.row) && b.event == NamedEvent(event, customerId)
  }

  ghost predicate Alike(a: Plane, b: Plane, name: nat -> Option<string>) {
    && b.seen == a.seen && b.used == a.used && b.history == NamedEntries(a.history, name)
    && (forall w :: AlikeRow(RowOf(a.rows, w), RowOf(b.rows, w)))
    && b.tasks.Keys == a.tasks.Keys
    && forall t | t in a.tasks :: AlikeTask(a.tasks[t], b.tasks[t], name(t))
  }

  lemma AlikeWritten(
    stored: Option<Entitlement>, stored': Option<Entitlement>, held: Option<Entitlement>, held': Option<Entitlement>,
    event: Event, customerId: Option<string>)
    requires AlikeRow(stored, stored') && AlikeRow(held, held')
    ensures AlikeRow(
      Some(Written(stored, ApplyBillingEvent(held, event))),
      Some(Written(stored', ApplyBillingEvent(held', NamedEvent(event, customerId)))))
  {
  }

  lemma AlikeResync(row: Option<Entitlement>, row': Option<Entitlement>, api: ApiState, now: int, customerId: Option<string>)
    requires AlikeRow(row, row') && HasSubscription(row)
    ensures HasSubscription(row')
    ensures EventOfResync(row', row'.value.billingProvider.value, row'.value.subscriptionId.value,
        api.(customerId := customerId), now)
      == NamedEvent(
        EventOfResync(row, row.value.billingProvider.value, row.value.subscriptionId.value, api, now), customerId)
  {
  }

  lemma NamedEntriesLast(history: seq<Entry>, last: Entry, name: nat -> Option<string>)
    ensures NamedEntries(history + [last], name)
      == NamedEntries(history, name) + [Entry(last.workspaceId, NamedStep(last.step, name))]
  {
  }

  lemma TakeAlike(a: Plane, b: Plane, t: nat, w: string, event: Event, name: nat -> Option<string>)
    requires Alike(a, b, name)
    ensures Alike(Take(a, t, w, event), Take(b, t, w, NamedEvent(event, name(t))), name)
  {
    hide NamedEntries;
    NamedEntriesLast(a.history, Entry(w, Reads(t)), name);
  }

  lemma UpsertAlike(a: Plane, b: Plane, known: set<string>, t: nat, name: nat -> Option<string>)
    requires Alike(a, b, name) && t in a.tasks && a.tasks[t].Holding?
    ensures Alike(Act(a, known, Upsert(t)), Act(b, known, Upsert(t)), name)
  {
    hide NamedEntries, Written, ApplyBillingEvent;
    var task, task' := a.tasks[t], b.tasks[t];
    assert AlikeTask(task, task', name(t));
    var w := task.workspaceId;
    NamedEntriesLast(a.history, Entry(w, Writes(t, task.event)), name);
    AlikeWritten(RowOf(a.rows, w), RowOf(b.rows, w), task.row, task'.row, task.event, name(t));
    var next, next' := Act(a, known, Upsert(t)), Act(b, known, Upsert(t));
    forall v ensures AlikeRow(RowOf(next.rows, v), RowOf(next'.rows, v)) {
      assert AlikeRow(RowOf(a.rows, v), RowOf(b.rows, v));
    }
  }

  lemma ActAlike(a: Plane, b: Plane, known: set<string>, action: Action, name: nat -> Option<string>)
    requires Alike(a, b, name)
    ensures Alike(Act(a, known, action), Act(b, known, NamedAction(action, name)), name)
  {
    hide NamedEntries, EventOfResync, Take;
    var t := action.task;
    match action
    case Record(_, event) =>
    case ReadForEvent(_) =>
      if t in a.tasks && a.tasks[t].Recorded? {
        TakeAlike(a, b, t, a.tasks[t].event.workspaceId, a.tasks[t].event, name);
      }
    case ReadForResync(_, w, adapter, api, now) =>
      if t !in a.used {
        var row, row' := RowOf(a.rows, w), RowOf(b.rows, w);
        assert AlikeRow(row, row');
        assert ResyncAnswer(row, adapter, api) == ResyncAnswer(row', adapter, NamedApi(api, name(t)));
        if ResyncAnswer(row, adapter, api) == Synced {
          AlikeResync(row, row', api.value, now, name(t));
          TakeAlike(a.(used := a.used + {t}), b.(used := b.used + {t}), t, w,
            EventOfResync(row, row.value.billingProvider.value, row.value.subscriptionId.value, api.value, now), name);
        }
      }
    case Upsert(_) =>
      if t in a.tasks && a.tasks[t].Holding? {
        UpsertAlike(a, b, known, t, name);
      }
  }

  /** Whatever customers they name, the same callers take the same steps. */
  lemma {:induction false} RunAlike(start: Plane, known: set<string>, actions: seq<Action>, name: nat -> Option<string>)
    requires Idle(start)
    ensures Alike(RunActions(start, known, actions), RunActions(start, known, NamedActions(actions, name)), name)
  {
    hide Act;
    if actions != [] {
      hide Alike;
      var n := |actions| - 1;
      assert NamedActions(actions, name)[..n] == NamedActions(actions[..n], name);
      RunAlike(start, known, actions[..n], name);
      ActAlike(RunActions(start, known, actions[..n]), RunActions(start, known, NamedActions(actions[..n], name)),
        known, actions[n], name);
    }
  }

  lemma {:induction false} StepsNamed(history: seq<Entry>, name: nat -> Option<string>, w: string)
    ensures StepsOf(NamedEntries(history, name), w) == Named(StepsOf(history, w), name)
  {
    if history != [] {
      var n := |history| - 1;
      assert NamedEntries(history, name)[..n] == NamedEntries(history[..n], name);
      StepsNamed(history[..n], name, w);
      NamedLast(StepsOf(history[..n], w), history[n].step, name);
      assert StepsOf(history[..n], w) + [] == StepsOf(history[..n], w);
      assert Named(StepsOf(history[..n], w), name) + [] == Named(StepsOf(history[..n], w), name);
    }
  }

  // ---- every interleaving

  /** A row's steps in a run of all the callers. */
  function RowSteps(start: Plane, known: set<string>, actions: seq<Action>, w: string): seq<RowStep> {
    StepsOf(RunActions(start, known, actions).history, w)
  }

  /** The row ends as the run, in write order, of the events written to it. */
  ghost predicate RowIsRun(start: Plane, known: set<string>, actions: seq<Action>, w: string) {
    RowOf(RunActions(start, known, actions).rows, w)
      == Run(RowOf(start.rows, w), EventsOf(RowSteps(start, known, actions, w)))
  }

  /** Over every interleaving, deaths included, a row is the run of exactly the writes it descends from. */
  lemma RowsAreChains(start: Plane, known: set<string>, actions: seq<Action>, w: string)
    requires Idle(start)
    ensures RowOf(RunActions(start, known, actions).rows, w)
      == Run(RowOf(start.rows, w), EventsOf(Chain(RowSteps(start, known, actions, w)).now))
  {
    hide RunActions, Replay, Chain, Run, StepsOf;
    RunStands(start, known, actions);
    assert RowStands(start, RunActions(start, known, actions), w);
    RowIsItsChain(RowOf(start.rows, w), RowSteps(start, known, actions, w));
  }

  lemma RowIsRunMeans(start: Plane, known: set<string>, actions: seq<Action>, name: nat -> Option<string>, w: string)
    requires Idle(start)
    ensures WellFormed(RowSteps(start, known, actions, w))
    ensures RowIsRun(start, known, NamedActions(actions, name), w)
      <==> Ordered(RowOf(start.rows, w), Named(RowSteps(start, known, actions, w), name))
  {
    hide RunActions, Replay, Run, StepsOf, NamedActions, Named, NamedEntries;
    RunStands(start, known, actions);
    RunStands(start, known, NamedActions(actions, name));
    assert RowStands(start, RunActions(start, known, actions), w);
    assert RowStands(start, RunActions(start, known, NamedActions(actions, name)), w);
    RunAlike(start, known, actions, name);
    StepsNamed(RunActions(start, known, actions).history, name, w);
  }

  /**
   For any callers in any order of statements: a row is the run of its events in
   write order, whatever customers they name, exactly when no other write of that
   row falls between a caller's read and its write.
   */
  lemma RowsAreRunsExactly(start: Plane, known: set<string>, actions: seq<Action>, w: string)
    requires Idle(start)
    ensures Undisturbed(RowSteps(start, known, actions, w))
      <==> forall name: nat -> Option<string> :: RowIsRun(start, known, NamedActions(actions, name), w)
  {
    hide RowIsRun, RowSteps, Ordered, Named, Undisturbed, WellFormed, NamedActions;
    RowIsRunMeans(start, known, actions, OneName(0, ""), w);
    OrderedExactly(RowOf(start.rows, w), RowSteps(start, known, actions, w));
    OrderedSame(start, known, actions, w);
  }

  lemma OrderedSame(start: Plane, known: set<string>, actions: seq<Action>, w: string)
    requires Idle(start)
    ensures (forall name: nat -> Option<string> :: RowIsRun(start, known, NamedActions(actions, name), w))
      <==> forall name: nat -> Option<string> :: Ordered(RowOf(start.rows, w), Named(RowSteps(start, known, actions, w), name))
  {
    hide RowIsRun, RowSteps, Ordered, Named, NamedActions;
    forall name: nat -> Option<string>
      ensures RowIsRun(start, known, NamedActions(actions, name), w)
        <==> Ordered(RowOf(start.rows, w), Named(RowSteps(start, known, actions, w), name))
    {
      RowIsRunMeans(start, known, actions, name, w);
    }
  }

  /** The row itself, when no read was overtaken. */
  lemma UndisturbedRows(start: Plane, known: set<string>, actions: seq<Action>, w: string)
    requires Idle(start) && Undisturbed(RowSteps(start, known, actions, w))
    ensures RowIsRun(start, known, actions, w)
  {
    hide RunActions, Replay, Run, StepsOf, Undisturbed;
    RunStands(start, known, actions);
    assert RowStands(start, RunActions(start, known, actions), w);
    UndisturbedIsOrdered(RowOf(start.rows, w), RowSteps(start, known, actions, w));
  }

  const Paid := Event("paid", "mor", "w", 0, None, SubscriptionActivated("s", 100 * DayMs))

  const Unpaid := Event("unpaid", "mor", "w", 0, None, PaymentFailed("s"))

  /** Both deliveries read before either writes. */
  const Racing: seq<Action> :=
    [Record(0, Paid), Record(1, Unpaid), ReadForEvent(0), ReadForEvent(1), Upsert(0), Upsert(1)]

  /** An activation paid to day 100 and a payment failure, delivered at once: the row keeps the seven days only, which no order of the two gives. */
  lemma LostUpdate()
    ensures var start := Plane({}, map[], map[], {}, []);
      WindowOf(RowOf(RunActions(start, {"w"}, Racing).rows, "w")) == Some(GraceMs)
    ensures WindowOf(Run(None, [Paid, Unpaid])) == Some(100 * DayMs) == WindowOf(Run(None, [Unpaid, Paid]))
  {
    hide Apply, ApplyBillingEvent, Written, Act;
    RacingReads();
    RacingWrites();
    SixActions(Plane({}, map[], map[], {}, []), {"w"}, Racing);
    RunTwo(Paid, Unpaid);
    RunTwo(Unpaid, Paid);
    EitherOrder();
  }

  /** Both hold the missing row. */
  const BothHold := map[0 := Holding("w", None, Paid), 1 := Holding("w", None, Unpaid)]

  lemma RacingReads()
    ensures var start := Plane({}, map[], map[], {}, []);
      var read := Act(Act(Act(Act(start, {"w"}, Racing[0]), {"w"}, Racing[1]), {"w"}, Racing[2]), {"w"}, Racing[3]);
      read.tasks == BothHold && read.rows == map[]
  {
    var start := Plane({}, map[], map[], {}, []);
    var both := Act(Act(start, {"w"}, Racing[0]), {"w"}, Racing[1]);
    assert KeyOf(Paid) != KeyOf(Unpaid);
    assert both.tasks == map[0 := Recorded(Paid), 1 := Recorded(Unpaid)] && both.rows == map[];
  }

  lemma RacingWrites()
    ensures forall read: Plane | read.tasks == BothHold && read.rows == map[] ::
      WindowOf(RowOf(Act(Act(read, {"w"}, Upsert(0)), {"w"}, Upsert(1)).rows, "w")) == Some(GraceMs)
  {
  }

  lemma RunTwo(a: Event, b: Event)
    ensures Run(None, [a, b]) == Some(Apply(Some(Apply(None, a)), b))
  {
    hide Apply;
    RunLast(None, [], a);
    RunLast(None, [a], b);
    assert [] + [a] == [a] && [a] + [b] == [a, b];
  }

  lemma EitherOrder()
    ensures WindowOf(Some(Apply(Some(Apply(None, Paid)), Unpaid))) == Some(100 * DayMs)
    ensures WindowOf(Some(Apply(Some(Apply(None, Unpaid)), Paid))) == Some(100 * DayMs)
  {
  }

  lemma SixActions(plane: Plane, known: set<string>, actions: seq<Action>)
    requires |actions| == 6
    ensures RunActions(plane, known, actions)
      == Act(Act(Act(Act(Act(Act(plane, known, actions[0]), known, actions[1]), known, actions[2]), known, actions[3]),
          known, actions[4]), known, actions[5])
  {
    hide Act, RunActions;
    ThreeActions(plane, known, actions[0], actions[1], actions[2]);
    assert actions[..3] == [actions[0], actions[1], actions[2]];
    forall n | 3 <= n < 6 ensures RunActions(plane, known, actions[..n + 1]) == Act(RunActions(plane, known, actions[..n]), known, actions[n]) {
      assert actions[..n + 1] == actions[..n] + [actions[n]];
      RunActionsLast(plane, known, actions[..n], actions[n]);
    }
    assert actions[..6] == actions;
  }

  // ---- each event once

  lemma {:induction false} SeenStays(plane: Plane, known: set<string>, actions: seq<Action>, i: nat)
    requires i <= |actions|
    ensures RunActions(plane, known, actions[..i]).seen <= RunActions(plane, known, actions).seen
    decreases |actions|
  {
    hide EventOfResync, ApplyBillingEvent, Written;
    if i < |actions| {
      var n := |actions| - 1;
      SeenStays(plane, known, actions[..n], i);
      assert actions[..n][..i] == actions[..i];
    } else {
      assert actions[..i] == actions;
    }
  }

  /** Once an event was recorded, delivering it again, at any later point of any run, reads and writes nothing. */
  lemma RedeliveryChangesNothing(plane: Plane, known: set<string>, actions: seq<Action>, i: nat, t: nat, event: Event)
    requires i < |actions| && actions[i].Record? && KeyOf(actions[i].event) == KeyOf(event)
    requires actions[i].task !in RunActions(plane, known, actions[..i]).used
    ensures var before := RunActions(plane, known, actions);
      Act(before, known, Record(t, event)) == before.(used := before.used + {t})
  {
    SeenStays(plane, known, actions, i + 1);
    assert actions[..i + 1] == actions[..i] + [actions[i]];
    RunActionsLast(plane, known, actions[..i], actions[i]);
    var before := RunActions(plane, known, actions);
    if t in before.used {
      assert before.used + {t} == before.used;
    }
    assert before.seen + {KeyOf(event)} == before.seen;
  }

  /**
   A renewal whose caller died after recording it is never taken again, and a
   re-sync nobody interrupts writes what the renewal would have.
   */
  lemma LostRenewalIsRepaired(plane: Plane, known: set<string>, event: Event, t: nat, again: nat, sync: nat, now: int)
    requires KeyOf(event) !in plane.seen && event.kind.SubscriptionActivated? && event.workspaceId in known
    requires t !in plane.used && again !in plane.used && sync !in plane.used && t != again && again != sync && t != sync
    requires plane.tasks.Keys <= plane.used
    requires HasSubscription(RowOf(plane.rows, event.workspaceId))
    requires var row := RowOf(plane.rows, event.workspaceId).value;
      row.billingProvider == Some(event.provider) && row.subscriptionId == Some(event.kind.subscriptionId)
    ensures var w := event.workspaceId;
      var lost := Act(plane, known, Record(t, event));
      var redelivered := Act(lost, known, Record(again, event));
      var api := Some(ApiState(Active, event.customerId, Some(event.kind.paidUntil)));
      var repaired := Act(Act(redelivered, known, ReadForResync(sync, w, Some(event.provider), api, now)), known, Upsert(sync));
      && redelivered.rows == plane.rows && again !in redelivered.tasks
      && repaired.rows
        == RunActions(plane, known, [Record(t, event), ReadForEvent(t), Upsert(t)]).rows
  {
    hide ApplyBillingEvent;
    var w := event.workspaceId;
    var row := RowOf(plane.rows, w);
    ThreeActions(plane, known, Record(t, event), ReadForEvent(t), Upsert(t));
    var read := Act(Act(plane, known, Record(t, event)), known, ReadForEvent(t));
    assert read.tasks[t] == Holding(w, row, event) && read.rows == plane.rows;
    var api := ApiState(Active, event.customerId, Some(event.kind.paidUntil));
    ResyncSameState(row, event, api, now);
    var lost := Act(plane, known, Record(t, event));
    var redelivered := Act(lost, known, Record(again, event));
    var held := Act(redelivered, known, ReadForResync(sync, w, Some(event.provider), Some(api), now));
    assert held.tasks[sync]
      == Holding(w, row, EventOfResync(row, event.provider, event.kind.subscriptionId, api, now));
  }

  lemma ResyncSameState(row: Option<Entitlement>, event: Event, api: ApiState, now: int)
    requires event.kind.SubscriptionActivated?
    requires api == ApiState(Active, event.customerId, Some(event.kind.paidUntil))
    ensures ApplyBillingEvent(row, EventOfResync(row, event.provider, event.kind.subscriptionId, api, now))
      == ApplyBillingEvent(row, event)
  {
  }

  // ---- when an indefinite grant survives

  /** A caller that holds the row as it was before it became indefinite, and will date it. */
  predicate Stale(plane: Plane, w: string, t: nat) {
    && t in plane.tasks && plane.tasks[t].Holding? && plane.tasks[t].workspaceId == w
    && !Indefinite(plane.tasks[t].row) && plane.tasks[t].event.kind != LifetimePurchased
  }

  predicate WithinUsed(plane: Plane) {
    plane.tasks.Keys <= plane.used
  }

  /** One step from an indefinite row: it stays so unless the step is a stale caller's upsert. */
  lemma ActKeepsIndefinite(plane: Plane, known: set<string>, action: Action, w: string)
    requires WithinUsed(plane) && Indefinite(RowOf(plane.rows, w))
    ensures WithinUsed(Act(plane, known, action))
    ensures Indefinite(RowOf(Act(plane, known, action).rows, w)) <==> !(action.Upsert? && Stale(plane, w, action.task))
    ensures !(action.Upsert? && Stale(plane, w, action.task)) ==>
      forall t :: Stale(Act(plane, known, action), w, t) <==> Stale(plane, w, t)
  {
    hide EventOfResync;
  }

  lemma RunActionsFirst(plane: Plane, known: set<string>, first: Action, rest: seq<Action>)
    ensures RunActions(plane, known, [first] + rest) == RunActions(Act(plane, known, first), known, rest)
    decreases |rest|
  {
    hide Act;
    if rest == [] {
      assert [first] + rest == [first] && [first][..0] == [];
    } else {
      var n := |rest| - 1;
      assert ([first] + rest)[..n + 1] == [first] + rest[..n];
      RunActionsFirst(plane, known, first, rest[..n]);
    }
  }

  ghost predicate IndefiniteThroughout(plane: Plane, known: set<string>, actions: seq<Action>, w: string) {
    forall n :: 0 <= n <= |actions| ==> Indefinite(RowOf(RunActions(plane, known, actions[..n]).rows, w))
  }

  /**
   From where a row is indefinite, whatever callers follow, it stays indefinite
   throughout exactly when no caller that had read it before writes it, but with a
   lifetime purchase of its own.
   */
  lemma {:induction false} IndefiniteSurvivesExactly(plane: Plane, known: set<string>, actions: seq<Action>, w: string)
    requires WithinUsed(plane) && Indefinite(RowOf(plane.rows, w))
    ensures IndefiniteThroughout(plane, known, actions, w)
      <==> forall t :: Stale(plane, w, t) ==> Upsert(t) !in actions
    decreases |actions|
  {
    hide Act, Stale, RunActions;
    if actions == [] {
      NoActions(plane, known);
      assert actions[..0] == [];
    } else {
      var first, rest := actions[0], actions[1..];
      var next := Act(plane, known, first);
      assert actions == [first] + rest;
      ActKeepsIndefinite(plane, known, first, w);
      ThroughoutFirst(plane, known, first, rest, w);
      if Indefinite(RowOf(next.rows, w)) {
        IndefiniteSurvivesExactly(next, known, rest, w);
        assert forall t :: Upsert(t) in actions <==> Upsert(t) == first || Upsert(t) in rest;
      } else {
        assert first in actions && first == Upsert(first.task);
      }
    }
  }

  lemma ThroughoutFirst(plane: Plane, known: set<string>, first: Action, rest: seq<Action>, w: string)
    requires Indefinite(RowOf(plane.rows, w))
    ensures IndefiniteThroughout(plane, known, [first] + rest, w)
      <==> Indefinite(RowOf(Act(plane, known, first).rows, w)) && IndefiniteThroughout(Act(plane, known, first), known, rest, w)
  {
    hide Act, RunActions, Indefinite;
    var actions, next := [first] + rest, Act(plane, known, first);
    NoActions(plane, known);
    NoActions(next, known);
    assert actions[..0] == [] && rest[..0] == [];
    forall n | 0 <= n <= |rest| ensures RunActions(plane, known, actions[..n + 1]) == RunActions(next, known, rest[..n]) {
      assert actions[..n + 1] == [first] + rest[..n];
      RunActionsFirst(plane, known, first, rest[..n]);
    }
    if IndefiniteThroughout(plane, known, actions, w) {
      assert RunActions(plane, known, actions[..1]) == next;
      forall n | 0 <= n <= |rest| ensures Indefinite(RowOf(RunActions(next, known, rest[..n]).rows, w)) {
        assert Indefinite(RowOf(RunActions(plane, known, actions[..n + 1]).rows, w));
      }
    }
    if IndefiniteThroughout(next, known, rest, w) {
      forall n | 0 <= n <= |actions| ensures Indefinite(RowOf(RunActions(plane, known, actions[..n]).rows, w)) {
        if n > 0 {
          assert Indefinite(RowOf(RunActions(next, known, rest[..n - 1]).rows, w));
        }
      }
    }
  }

  const ForLife := Event("life", "mor", "w", 0, None, LifetimePurchased)

  const RacingForLife: seq<Action> :=
    [Record(0, ForLife), Record(1, Unpaid), ReadForEvent(0), ReadForEvent(1), Upsert(0), Upsert(1)]

  /** A lifetime purchase written between a payment failure's read and its write is overwritten by seven days. */
  lemma LifetimeOverwritten()
    ensures var start := Plane({}, map[], map[], {}, []);
      && Indefinite(RowOf(RunActions(start, {"w"}, RacingForLife[..5]).rows, "w"))
      && WindowOf(RowOf(RunActions(start, {"w"}, RacingForLife).rows, "w")) == Some(GraceMs)
  {
    hide Act, RunActions, Apply, ApplyBillingEvent, Written;
    var start := Plane({}, map[], map[], {}, []);
    SixActions(start, {"w"}, RacingForLife);
    RunActionsLast(start, {"w"}, RacingForLife[..5], RacingForLife[5]);
    assert RacingForLife[..5] + [RacingForLife[5]] == RacingForLife;
    FiveActions(start, {"w"}, RacingForLife);
    LifeReads();
    LifeWrites();
  }

  const BothHoldForLife := map[0 := Holding("w", None, ForLife), 1 := Holding("w", None, Unpaid)]

  lemma FiveActions(plane: Plane, known: set<string>, actions: seq<Action>)
    requires |actions| == 6
    ensures RunActions(plane, known, actions[..5])
      == Act(Act(Act(Act(Act(plane, known, actions[0]), known, actions[1]), known, actions[2]), known, actions[3]),
          known, actions[4])
  {
    hide Act, RunActions;
    ThreeActions(plane, known, actions[0], actions[1], actions[2]);
    assert actions[..3] == [actions[0], actions[1], actions[2]];
    forall n | 3 <= n < 5 ensures RunActions(plane, known, actions[..n + 1]) == Act(RunActions(plane, known, actions[..n]), known, actions[n]) {
      assert actions[..n + 1] == actions[..n] + [actions[n]];
      RunActionsLast(plane, known, actions[..n], actions[n]);
    }
  }

  lemma LifeReads()
    ensures var start := Plane({}, map[], map[], {}, []);
      var a := RacingForLife;
      var read := Act(Act(Act(Act(start, {"w"}, a[0]), {"w"}, a[1]), {"w"}, a[2]), {"w"}, a[3]);
      read.tasks == BothHoldForLife && read.rows == map[]
  {
    var start := Plane({}, map[], map[], {}, []);
    var both := Act(Act(start, {"w"}, RacingForLife[0]), {"w"}, RacingForLife[1]);
    assert KeyOf(ForLife) != KeyOf(Unpaid);
    assert both.tasks == map[0 := Recorded(ForLife), 1 := Recorded(Unpaid)] && both.rows == map[];
  }

  lemma LifeWrites()
    ensures forall read: Plane | read.tasks == BothHoldForLife && read.rows == map[] ::
      && Indefinite(RowOf(Act(read, {"w"}, Upsert(0)).rows, "w"))
      && WindowOf(RowOf(Act(Act(read, {"w"}, Upsert(0)), {"w"}, Upsert(1)).rows, "w")) == Some(GraceMs)
  {
  }
}
