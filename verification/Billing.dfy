/**
 The billing state machine (`billing.ts`), the row it feeds (`entitlements.ts`)
 and the webhook that applies each event once (`process-billing-event.ts`).
 Instants are milliseconds.
 */
module Billing {
  import opened Text

  const DayMs: int := 24 * 60 * 60 * 1000

  const GraceMs: int := 7 * DayMs

  // ------------------------------------------------------------------- data

  datatype Plan = Free | Trial | Premium

  datatype Status = Active | CanceledStatus | PastDue

  datatype Entitlement = Entitlement(
    plan: Plan, trialEndsAt: Option<int>, premiumUntil: Option<int>, billingProvider: Option<string>,
    customerId: Option<string>, subscriptionId: Option<string>, subscriptionStatus: Option<Status>)

  datatype Kind =
    | SubscriptionActivated(subscriptionId: string, paidUntil: int)
    | SubscriptionCanceled(subscriptionId: string, endsAt: Option<int>)
    | PaymentFailed(subscriptionId: string)
    | LifetimePurchased

  datatype Event = Event(
    eventId: string, provider: string, workspaceId: string, occurredAt: int, customerId: Option<string>, kind: Kind)

  datatype BillingState = BillingState(
    premiumUntil: Option<int>, provider: string, customerId: Option<string>, subscriptionId: Option<string>,
    status: Option<Status>)

  function OrElse<T>(first: Option<T>, second: Option<T>): Option<T> {
    if first.Some? then first else second
  }

  function WindowOf(current: Option<Entitlement>): Option<int> {
    if current.Some? then current.value.premiumUntil else None
  }

  // ------------------------------------------------------------- transitions

  predicate Indefinite(current: Option<Entitlement>) {
    current.Some? && current.value.plan == Premium && current.value.premiumUntil.None?
  }

  function LaterOf(a: Option<int>, b: int): int {
    if a.Some? && a.value > b then a.value else b
  }

  function StatusAfter(kind: Kind): Status
    requires kind != LifetimePurchased
  {
    match kind
    case SubscriptionActivated(_, _) => Active
    case SubscriptionCanceled(_, _) => CanceledStatus
    case PaymentFailed(_) => PastDue
  }

  function ApplyBillingEvent(current: Option<Entitlement>, event: Event): BillingState {
    var customerId := OrElse(event.customerId, if current.Some? then current.value.customerId else None);
    if event.kind == LifetimePurchased then
      BillingState(None, event.provider, customerId, if current.Some? then current.value.subscriptionId else None, None)
    else
      var premiumUntil :=
        if Indefinite(current) then None
        else
          match event.kind
          case SubscriptionActivated(_, paidUntil) => Some(LaterOf(WindowOf(current), paidUntil))
          case SubscriptionCanceled(_, endsAt) =>
            OrElse(OrElse(endsAt, WindowOf(current)), Some(event.occurredAt))
          case PaymentFailed(_) => Some(LaterOf(WindowOf(current), event.occurredAt + GraceMs));
      BillingState(
        premiumUntil, event.provider, customerId, Some(event.kind.subscriptionId), Some(StatusAfter(event.kind)))
  }

  /** The upsert: the plan is always asserted premium, a trial is left alone. */
  function Written(current: Option<Entitlement>, state: BillingState): Entitlement {
    Entitlement(
      Premium, if current.Some? then current.value.trialEndsAt else None, state.premiumUntil, Some(state.provider),
      state.customerId, state.subscriptionId, state.status)
  }

  function Apply(current: Option<Entitlement>, event: Event): Entitlement {
    Written(current, ApplyBillingEvent(current, event))
  }

  function Run(start: Option<Entitlement>, events: seq<Event>): Option<Entitlement> {
    if events == [] then start
    else Some(Apply(Run(start, events[..|events| - 1]), events[|events| - 1]))
  }

  function DeriveEffectivePlan(row: Option<Entitlement>, now: int): Plan {
    match row
    case None => Free
    case Some(r) =>
      if r.plan == Premium && r.premiumUntil.None? then Premium
      else if r.premiumUntil.Some? && r.premiumUntil.value > now then Premium
      else if r.trialEndsAt.Some? && r.trialEndsAt.value > now then Trial
      else Free
  }

  function Worth(plan: Plan): nat {
    match plan
    case Free => 0
    case Trial => 1
    case Premium => 2
  }

  // ------------------------------------------------------------ over any run

  /** Applying an event again changes nothing on the whole row. */
  lemma EventIdempotent(current: Option<Entitlement>, event: Event)
    ensures Apply(Some(Apply(current, event)), event) == Apply(current, event)
  {
  }

  /** An indefinite grant stays indefinite whatever follows, and a lifetime purchase makes one. */
  lemma {:induction false} IndefiniteStays(start: Option<Entitlement>, events: seq<Event>)
    requires Indefinite(start) || exists e :: e in events && e.kind == LifetimePurchased
    ensures Indefinite(Run(start, events))
    ensures forall now :: DeriveEffectivePlan(Run(start, events), now) == Premium
  {
    if events != [] {
      var n := |events| - 1;
      var e := events[n];
      if e.kind != LifetimePurchased {
        assert Indefinite(start) || exists x :: x in events[..n] && x.kind == LifetimePurchased by {
          if !Indefinite(start) {
            var x :| x in events && x.kind == LifetimePurchased;
            assert x in events[..n];
          }
        }
        IndefiniteStays(start, events[..n]);
      }
    }
  }

  predicate NoCancellation(events: seq<Event>) {
    forall e | e in events :: !e.kind.SubscriptionCanceled?
  }

  /** Without a cancellation access never shrinks, at any instant: neither the window nor the effective plan. */
  lemma {:induction false} AccessOnlyGrows(start: Option<Entitlement>, events: seq<Event>, now: int)
    requires NoCancellation(events)
    ensures Worth(DeriveEffectivePlan(start, now)) <= Worth(DeriveEffectivePlan(Run(start, events), now))
    ensures Indefinite(Run(start, events)) || WindowOf(start).None?
      || (WindowOf(Run(start, events)).Some? && WindowOf(start).value <= WindowOf(Run(start, events)).value)
  {
    if events != [] {
      var n := |events| - 1;
      assert events[n] in events && forall e | e in events[..n] :: e in events;
      AccessOnlyGrows(start, events[..n], now);
    }
  }

  /** Exactly what a cancellation does to a dated row: what was paid, else what was stored, else now. */
  lemma CancellationCloses(current: Option<Entitlement>, event: Event, now: int)
    requires event.kind.SubscriptionCanceled? && !Indefinite(current)
    ensures var end := if event.kind.endsAt.Some? then event.kind.endsAt.value
                       else if WindowOf(current).Some? then WindowOf(current).value else event.occurredAt;
      DeriveEffectivePlan(Some(Apply(current, event)), now) == Premium <==> now < end
  {
  }

  // --------------------------------------------------- order does not matter

  /** Activations and payment failures only. */
  predicate PaysOrFails(events: seq<Event>) {
    forall e | e in events :: e.kind.SubscriptionActivated? || e.kind.PaymentFailed?
  }

  /** How far an event pushes the window. */
  function Reach(e: Event): int
    requires e.kind.SubscriptionActivated? || e.kind.PaymentFailed?
  {
    if e.kind.SubscriptionActivated? then e.kind.paidUntil else e.occurredAt + GraceMs
  }

  /** `end` is the furthest of the stored window and everything the events reach. */
  ghost predicate IsFurthest(start: Option<int>, events: seq<Event>, end: int)
    requires PaysOrFails(events)
  {
    && (start.Some? ==> start.value <= end)
    && (forall e | e in events :: Reach(e) <= end)
    && (start == Some(end) || exists e :: e in events && Reach(e) == end)
  }

  lemma {:induction false} WindowIsFurthest(start: Option<Entitlement>, events: seq<Event>)
    requires PaysOrFails(events) && events != [] && !Indefinite(start)
    ensures !Indefinite(Run(start, events))
    ensures WindowOf(Run(start, events)).Some?
    ensures IsFurthest(WindowOf(start), events, WindowOf(Run(start, events)).value)
  {
    hide Apply, Reach;
    var n := |events| - 1;
    var before := events[..n];
    var e := events[n];
    assert e in events && forall x | x in before :: x in events;
    assert forall x | x in events :: x in before || x == e;
    if n > 0 {
      WindowIsFurthest(start, before);
    }
    StepReaches(Run(start, before), e);
    if n > 0 {
      var end := WindowOf(Run(start, before)).value;
      assert WindowOf(start) == Some(end) || exists x :: x in before && Reach(x) == end;
    }
  }

  lemma StepReaches(row: Option<Entitlement>, e: Event)
    requires PaysOrFails([e]) && !Indefinite(row)
    ensures WindowOf(Some(Apply(row, e))) == Some(LaterOf(WindowOf(row), Reach(e)))
    ensures !Indefinite(Some(Apply(row, e)))
  {
    assert e in [e];
  }

  /** The event reaches past the instant: a paid period, or seven days from a failed payment. */
  predicate ReachesPast(e: Event, now: int) {
    match e.kind
    case SubscriptionActivated(_, paidUntil) => now < paidUntil
    case PaymentFailed(_) => now < e.occurredAt + 604_800_000
    case _ => false
  }

  /**
   After payments and failures the plan at an instant is premium if the stored
   window or some event reaches past it; once all have lapsed, a trial still
   running comes back, and then nothing is left.
   */
  lemma PlanOverRuns(start: Option<Entitlement>, events: seq<Event>, now: int)
    requires PaysOrFails(events) && !Indefinite(start)
    ensures var plan := DeriveEffectivePlan(Run(start, events), now);
      && (plan == Premium
          <==> (start.Some? && start.value.premiumUntil.Some? && now < start.value.premiumUntil.value)
               || exists e :: e in events && ReachesPast(e, now))
      && (plan == Trial
          <==> plan != Premium && start.Some? && start.value.trialEndsAt.Some? && now < start.value.trialEndsAt.value)
  {
    if events == [] {
      assert Run(start, events) == start;
      return;
    }
    hide Run, Indefinite;
    WindowIsFurthest(start, events);
    TrialStays(start, events);
    RunIsDated(start, events);
    var end := WindowOf(Run(start, events)).value;
    forall e | e in events ensures ReachesPast(e, now) <==> now < Reach(e) {
    }
  }

  lemma RunIsDated(start: Option<Entitlement>, events: seq<Event>)
    requires Run(start, events).Some? && !Indefinite(Run(start, events))
    ensures Run(start, events).value.plan != Premium || Run(start, events).value.premiumUntil.Some?
  {
  }

  /** Deliveries reordered or repeated at will end in the same window. */
  lemma OrderDoesNotMatter(start: Option<Entitlement>, events: seq<Event>, others: seq<Event>)
    requires PaysOrFails(events) && !Indefinite(start)
    requires forall e :: e in events <==> e in others
    ensures WindowOf(Run(start, events)) == WindowOf(Run(start, others))
    ensures forall now :: DeriveEffectivePlan(Run(start, events), now) == DeriveEffectivePlan(Run(start, others), now)
  {
    if events == [] {
      EmptyOrHasOne(others);
    } else {
      assert events[0] in others;
      WindowIsFurthest(start, events);
      WindowIsFurthest(start, others);
      TrialStays(start, events);
      TrialStays(start, others);
    }
  }

  lemma EmptyOrHasOne(events: seq<Event>)
    ensures events == [] || exists e :: e in events
  {
    assert events == [] || events[0] in events;
  }

  /** No event touches a trial, and the plan is premium from the first one on. */
  lemma {:induction false} TrialStays(start: Option<Entitlement>, events: seq<Event>)
    requires events != []
    ensures Run(start, events).Some? && Run(start, events).value.plan == Premium
    ensures Run(start, events).value.trialEndsAt == if start.Some? then start.value.trialEndsAt else None
  {
    if |events| > 1 {
      TrialStays(start, events[..|events| - 1]);
    }
  }

  /** The customer the last event to name one named. */
  function LastCustomer(start: Option<string>, events: seq<Event>): Option<string> {
    if events == [] then start
    else
      var last := events[|events| - 1];
      if last.customerId.Some? then last.customerId else LastCustomer(start, events[..|events| - 1])
  }

  /** The subscription the last event to belong to one named: a lifetime purchase belongs to none. */
  function LastSubscription(start: Option<string>, events: seq<Event>): Option<string> {
    if events == [] then start
    else
      match events[|events| - 1].kind
      case LifetimePurchased => LastSubscription(start, events[..|events| - 1])
      case SubscriptionActivated(id, _) => Some(id)
      case SubscriptionCanceled(id, _) => Some(id)
      case PaymentFailed(id) => Some(id)
  }

  /** The references follow the provider: the last event's own, the last customer anyone named, the last subscription. */
  lemma {:induction false} ReferencesOverRuns(start: Option<Entitlement>, events: seq<Event>)
    requires events != []
    ensures var row := Run(start, events).value; var last := events[|events| - 1];
      && row.billingProvider == Some(last.provider)
      && row.customerId == LastCustomer(if start.Some? then start.value.customerId else None, events)
      && row.subscriptionId == LastSubscription(if start.Some? then start.value.subscriptionId else None, events)
      && row.subscriptionStatus
         == match last.kind
            case SubscriptionActivated(_, _) => Some(Active)
            case SubscriptionCanceled(_, _) => Some(CanceledStatus)
            case PaymentFailed(_) => Some(PastDue)
            case LifetimePurchased => None
  {
    if |events| > 1 {
      ReferencesOverRuns(start, events[..|events| - 1]);
    } else {
      assert events[..0] == [];
    }
  }

  // ------------------------------------------------------ access is paid for

  /** Some event, or the row it started from, holds premium past `now`. */
  ghost predicate Covered(start: Option<Entitlement>, events: seq<Event>, now: int) {
    || DeriveEffectivePlan(start, now) == Premium
    || (exists e :: e in events && Covers(e, now))
  }

  predicate Covers(e: Event, now: int) {
    match e.kind
    case SubscriptionActivated(_, paidUntil) => now < paidUntil
    case SubscriptionCanceled(_, endsAt) => now < (if endsAt.Some? then endsAt.value else e.occurredAt)
    case PaymentFailed(_) => now < e.occurredAt + GraceMs
    case LifetimePurchased => true
  }

  /** Premium at an instant always traces back to something that reaches past it. */
  lemma {:induction false} AccessIsCovered(start: Option<Entitlement>, events: seq<Event>, now: int)
    requires DeriveEffectivePlan(Run(start, events), now) == Premium
    ensures Covered(start, events, now)
  {
    if events != [] {
      var n := |events| - 1;
      assert events[n] in events && forall e | e in events[..n] :: e in events;
      if DeriveEffectivePlan(Run(start, events[..n]), now) == Premium {
        AccessIsCovered(start, events[..n], now);
      } else {
        assert Covers(events[n], now);
      }
    }
  }

  // ----------------------------------------------------------------- re-sync

  datatype ApiState = ApiState(status: Status, customerId: Option<string>, paidUntil: Option<int>)

  function EventOfResync(current: Option<Entitlement>, provider: string, subscriptionId: string, api: ApiState, now: int): Event {
    var kind :=
      match api.status
      case Active =>
        SubscriptionActivated(subscriptionId, OrElse(OrElse(api.paidUntil, WindowOf(current)), Some(now)).value)
      case CanceledStatus => SubscriptionCanceled(subscriptionId, api.paidUntil)
      case PastDue => PaymentFailed(subscriptionId);
    Event("resync", provider, "", now, api.customerId, kind)
  }

  function Resync(current: Option<Entitlement>, provider: string, subscriptionId: string, api: ApiState, now: int): Entitlement {
    Apply(current, EventOfResync(current, provider, subscriptionId, api, now))
  }

  /** The event the state would have announced: same customer, same end, the state's own kind. */
  predicate Announces(api: ApiState, event: Event, now: int) {
    && api.customerId == event.customerId
    && match event.kind
       case SubscriptionActivated(_, paidUntil) => api.status == Active && api.paidUntil == Some(paidUntil)
       case SubscriptionCanceled(_, endsAt) => api.status == CanceledStatus && endsAt.Some? && api.paidUntil == endsAt
       case PaymentFailed(_) => api.status == PastDue && event.occurredAt == now
       case LifetimePurchased => false
  }

  /**
   The re-sync, told what an event announced, writes that event's row, and keeps
   the stored window when an active subscription has no end. Repeated later with
   the same answer it changes nothing exactly when the state is not past due, the
   grant is indefinite, or the stored window already outlasts the new grace.
   */
  lemma ResyncExactly(
    current: Option<Entitlement>, event: Event, provider: string, id: string, api: ApiState, first: int, second: int)
    requires first <= second
    ensures event.kind != LifetimePurchased && Announces(api, event, first) ==>
      Resync(current, event.provider, event.kind.subscriptionId, api, first) == Apply(current, event)
    ensures api.status == Active && api.paidUntil == None ==>
      Resync(current, provider, id, api, first).premiumUntil
      == if Indefinite(current) || WindowOf(current).Some? then WindowOf(current) else Some(first)
    ensures var once := Resync(current, provider, id, api, first);
      Resync(Some(once), provider, id, api, second) == once
      <==> api.status != PastDue || Indefinite(current)
           || second + GraceMs <= LaterOf(WindowOf(current), first + GraceMs)
  {
  }

  /**
   The row a re-sync writes: the subscription asked about and the answer's status,
   its customer or else the stored one, and a window that an active subscription
   only lengthens, a cancelled one closes and a failed payment extends by seven days.
   */
  lemma ResyncWrites(current: Option<Entitlement>, provider: string, id: string, api: ApiState, now: int)
    ensures var row := Resync(current, provider, id, api, now);
      var stored := if current.Some? then current.value.premiumUntil else None;
      && row.plan == Premium && row.billingProvider == Some(provider) && row.subscriptionId == Some(id)
      && row.subscriptionStatus == Some(api.status)
      && row.customerId == (if api.customerId == None && current.Some? then current.value.customerId else api.customerId)
      && (Indefinite(current) ==> row.premiumUntil == None)
      && (!Indefinite(current) ==>
            && row.premiumUntil.Some?
            && (api.status != CanceledStatus && stored.Some? ==> stored.value <= row.premiumUntil.value)
            && (api.status == CanceledStatus && api.paidUntil.Some? ==> row.premiumUntil == api.paidUntil)
            && (api.status != PastDue && api.paidUntil == None ==>
                  row.premiumUntil.value == if stored.Some? then stored.value else now)
            && (api.status == Active && api.paidUntil.Some? ==>
                  row.premiumUntil == api.paidUntil || (row.premiumUntil == stored && api.paidUntil.value < stored.value))
            && (api.status == PastDue ==>
                  || row.premiumUntil.value == now + 604_800_000
                  || (row.premiumUntil == stored && now + 604_800_000 < stored.value)))
  {
  }
}
