/**
 The coin revaluation pass (`refresh-coin-valuations.ts`) and its freshness gate
 (`prices.ts`): tranches banked mid-pass, failures of the revaluation and of the
 store, and a process that may die at any write.
 */
module CoinRefresh {
  import opened Text

  type SourceId = string
  type CoinId = string
  type Stamp = int

  datatype Word = Fresh | Stale | Failed | Manual

  /** A source's valuation row: when it was fetched, in milliseconds, and what it says. */
  datatype Freshness = Freshness(fetchedAt: int, word: Word)

  const TtlMs := 86_400_000

  /** Whether a source is due: never valued, marked stale, or past its time to live. */
  predicate IsPriceStale(freshness: Option<Freshness>, now: int) {
    match freshness
    case None => true
    case Some(f) => f.word == Stale || (f.word != Manual && now - f.fetchedAt >= TtlMs)
  }

  type Coins = map<CoinId, Stamp>

  // ------------------------------------------------------------------ the world

  /** The store, and how many more writes the process lives to attempt. */
  datatype World = World(coins: map<(SourceId, CoinId), Stamp>, rows: map<SourceId, Freshness>, life: nat)

  function RowOf(w: World, source: SourceId): Option<Freshness> {
    if source in w.rows then Some(w.rows[source]) else None
  }

  function Banked(coins: map<(SourceId, CoinId), Stamp>, source: SourceId, updates: Coins): map<(SourceId, CoinId), Stamp> {
    coins + map k | k in (set c | c in updates :: (source, c)) :: updates[k.1]
  }

  /** One atomic write, which a dead process never makes and a failing store does not keep. */
  function Written(w: World, source: SourceId, updates: Coins, row: Option<Freshness>, works: bool): World {
    if w.life == 0 then w
    else if !works then w.(life := w.life - 1)
    else World(Banked(w.coins, source, updates),
               if row.Some? then w.rows[source := row.value] else w.rows,
               w.life - 1)
  }

  /** A tranche banked mid-pass, and whether its write succeeds. */
  datatype Tranche = Tranche(updates: Coins, works: bool)

  /** How a revaluation ends: what it resolved and what cut it short, or a throw before resolving anything. */
  datatype Ending = Returned(updates: Coins, error: Option<string>) | Threw(message: string)

  /** Everything the outside may do to one source's pass. */
  datatype Visit = Visit(tranches: seq<Tranche>, ending: Ending, freshWorks: bool, staleWorks: bool)

  /** A source to consider, with the row it had when the pass started. */
  datatype SourceRef = SourceRef(id: SourceId, row: Option<Freshness>)

  const StoreDown := "store write failed"

  // ------------------------------------------------------------ one source's pass

  function BankTranches(w: World, source: SourceId, tranches: seq<Tranche>): World {
    if tranches == [] then w
    else
      var last := tranches[|tranches| - 1];
      Written(BankTranches(w, source, tranches[..|tranches| - 1]), source, last.updates, None, last.works)
  }

  /** The pass ended, and the row it may stamp is written. */
  predicate EndsClean(visit: Visit) {
    visit.ending.Returned? && visit.ending.error.None? && visit.freshWorks
  }

  function StaleRow(source: SourceRef, now: int): Freshness {
    Freshness(if source.row.Some? then source.row.value.fetchedAt else now, Stale)
  }

  /** What stopped the pass: its own error, a throw, or the write that should have ended it. */
  function FailureOf(visit: Visit): string {
    match visit.ending
    case Threw(message) => message
    case Returned(_, error) => if error.Some? then error.value else StoreDown
  }

  /** What the pass resolved, still to be kept when it fails. */
  function Resolved(visit: Visit): Coins {
    if visit.ending.Returned? then visit.ending.updates else map[]
  }

  function VisitDue(w: World, source: SourceRef, visit: Visit, now: int): World {
    var banked := BankTranches(w, source.id, visit.tranches);
    var tried :=
      if visit.ending.Returned? && visit.ending.error.None? then
        Written(banked, source.id, visit.ending.updates, Some(Freshness(now, Fresh)), visit.freshWorks)
      else banked;
    if EndsClean(visit) then tried
    else Written(tried, source.id, Resolved(visit), Some(StaleRow(source, now)), visit.staleWorks)
  }

  function VisitErrors(visit: Visit): seq<string> {
    if EndsClean(visit) then []
    else [FailureOf(visit)] + if visit.staleWorks then [] else [StoreDown]
  }

  /** The pass over the sources in order, the ones not due skipped. */
  function Pass(w: World, sources: seq<SourceRef>, visits: seq<Visit>, now: int): World
    requires |visits| == |sources|
  {
    if sources == [] then w
    else
      var n := |sources| - 1;
      var before := Pass(w, sources[..n], visits[..n], now);
      if IsPriceStale(sources[n].row, now) then VisitDue(before, sources[n], visits[n], now) else before
  }

  function PassErrors(sources: seq<SourceRef>, visits: seq<Visit>, now: int): seq<string>
    requires |visits| == |sources|
  {
    if sources == [] then []
    else
      var n := |sources| - 1;
      PassErrors(sources[..n], visits[..n], now)
        + if IsPriceStale(sources[n].row, now) then VisitErrors(visits[n]) else []
  }

  // ----------------------------------------------------------- the pass as written

  class Store {
    var coins: map<(SourceId, CoinId), Stamp>
    var rows: map<SourceId, Freshness>
    /** Writes left before the process dies. */
    var life: nat

    function Now(): World
      reads this
    {
      World(coins, rows, life)
    }

    constructor (w: World)
      ensures Now() == w
    {
      coins, rows, life := w.coins, w.rows, w.life;
    }

    /** One atomic write; `works` says whether the store keeps it or throws. */
    method Persist(source: SourceId, updates: Coins, row: Option<Freshness>, works: bool) returns (kept: bool)
      modifies this
      ensures Now() == Written(old(Now()), source, updates, row, works)
      ensures kept == works
    {
      if life > 0 {
        life := life - 1;
        if works {
          coins := Banked(coins, source, updates);
          if row.Some? {
            rows := rows[source := row.value];
          }
        }
      }
      kept := works;
    }
  }

  /** The revaluation of one source, banking tranches as it goes. */
  method Revalue(store: Store, source: SourceId, tranches: seq<Tranche>)
    modifies store
    ensures store.Now() == BankTranches(old(store.Now()), source, tranches)
  {
    for i := 0 to |tranches|
      invariant store.Now() == BankTranches(old(store.Now()), source, tranches[..i])
    {
      assert tranches[..i + 1][..i] == tranches[..i];
      var _ := store.Persist(source, tranches[i].updates, None, tranches[i].works);
    }
    assert tranches[..|tranches|] == tranches;
  }

  method RefreshSource(store: Store, source: SourceRef, visit: Visit, now: int) returns (errors: seq<string>)
    modifies store
    ensures store.Now() == VisitDue(old(store.Now()), source, visit, now)
    ensures errors == VisitErrors(visit)
  {
    errors := [];
    var updates: Coins := map[];
    var failure := "";
    Revalue(store, source.id, visit.tranches);
    match visit.ending {
      case Threw(message) => failure := message;
      case Returned(resolved, error) =>
        updates := resolved;
        match error {
          case Some(message) => failure := message;
          case None =>
            var kept := store.Persist(source.id, updates, Some(Freshness(now, Fresh)), visit.freshWorks);
            if kept {
              return;
            }
            failure := StoreDown;
        }
    }
    errors := errors + [failure];
    var kept := store.Persist(source.id, updates, Some(StaleRow(source, now)), visit.staleWorks);
    if !kept {
      errors := errors + [StoreDown];
    }
  }

  method RefreshStaleCoinValuations(store: Store, sources: seq<SourceRef>, visits: seq<Visit>, now: int)
    returns (errors: seq<string>)
    requires |visits| == |sources|
    modifies store
    ensures store.Now() == Pass(old(store.Now()), sources, visits, now)
    ensures errors == PassErrors(sources, visits, now)
  {
    errors := [];
    for i := 0 to |sources|
      invariant store.Now() == Pass(old(store.Now()), sources[..i], visits[..i], now)
      invariant errors == PassErrors(sources[..i], visits[..i], now)
    {
      assert sources[..i + 1][..i] == sources[..i] && visits[..i + 1][..i] == visits[..i];
      if !IsPriceStale(sources[i].row, now) {
        continue;
      }
      var more := RefreshSource(store, sources[i], visits[i], now);
      errors := errors + more;
    }
    assert sources[..|sources|] == sources && visits[..|visits|] == visits;
  }

  // ----------------------------------------------------------------- one source

  /** A mid-pass tranche never touches a freshness row. */
  lemma {:induction false} TranchesLeaveRows(w: World, source: SourceId, tranches: seq<Tranche>)
    ensures BankTranches(w, source, tranches).rows == w.rows
    ensures w.coins.Keys <= BankTranches(w, source, tranches).coins.Keys
    ensures BankTranches(w, source, tranches).life <= w.life
  {
    hide Banked;
    if tranches != [] {
      var n := |tranches| - 1;
      TranchesLeaveRows(w, source, tranches[..n]);
      BankedKeys(BankTranches(w, source, tranches[..n]).coins, source, tranches[n].updates);
    }
  }

  lemma BankedKeys(coins: map<(SourceId, CoinId), Stamp>, source: SourceId, updates: Coins)
    ensures coins.Keys <= Banked(coins, source, updates).Keys
    ensures forall c | c in updates :: (source, c) in Banked(coins, source, updates)
              && Banked(coins, source, updates)[(source, c)] == updates[c]
    ensures forall k | k in coins && k.0 != source :: Banked(coins, source, updates)[k] == coins[k]
    ensures forall k | k in Banked(coins, source, updates) && k !in coins :: k.0 == source
  {
    forall c | c in updates ensures (source, c) in (set c | c in updates :: (source, c)) {
    }
  }

  /**
   What a visit may do to a world: rows of other sources stay, its own is left
   alone, stamped fresh only on a clean end with every coin it resolved stored, or
   marked stale; and no stored coin goes.
   */
  lemma VisitOutcome(w: World, source: SourceRef, visit: Visit, now: int)
    ensures var after := VisitDue(w, source, visit, now);
            && w.coins.Keys <= after.coins.Keys
            && after.life <= w.life
            && (forall other | other != source.id :: RowOf(after, other) == RowOf(w, other))
            && (|| RowOf(after, source.id) == RowOf(w, source.id)
                || RowOf(after, source.id) == Some(StaleRow(source, now))
                || (EndsClean(visit) && RowOf(after, source.id) == Some(Freshness(now, Fresh))
                    && forall c | c in visit.ending.updates ::
                         (source.id, c) in after.coins && after.coins[(source.id, c)] == visit.ending.updates[c]))
  {
    hide Banked, BankTranches, Written;
    var banked := BankTranches(w, source.id, visit.tranches);
    TranchesLeaveRows(w, source.id, visit.tranches);
    var updates := Resolved(visit);
    WrittenOutcome(banked, source.id, updates, Freshness(now, Fresh), visit.freshWorks);
    var tried :=
      if visit.ending.Returned? && visit.ending.error.None? then
        Written(banked, source.id, updates, Some(Freshness(now, Fresh)), visit.freshWorks)
      else banked;
    WrittenOutcome(tried, source.id, updates, StaleRow(source, now), visit.staleWorks);
  }

  /** One write keeps every coin and every other row, and stamps the row only with the coins stored. */
  lemma WrittenOutcome(w: World, source: SourceId, updates: Coins, row: Freshness, works: bool)
    ensures var after := Written(w, source, updates, Some(row), works);
            && w.coins.Keys <= after.coins.Keys
            && after.life <= w.life
            && (forall other | other != source :: RowOf(after, other) == RowOf(w, other))
            && (|| after.rows == w.rows
                || (works && RowOf(after, source) == Some(row)
                    && forall c | c in updates :: (source, c) in after.coins && after.coins[(source, c)] == updates[c]))
  {
    hide Banked;
    BankedKeys(w.coins, source, updates);
  }

  /** A living process settles a due source: fresh on a clean end, otherwise stale if the store takes it. */
  lemma VisitSettles(w: World, source: SourceRef, visit: Visit, now: int)
    requires w.life >= |visit.tranches| + 2
    ensures var after := VisitDue(w, source, visit, now);
            && after.life + |visit.tranches| + 2 >= w.life
            && RowOf(after, source.id)
               == (if EndsClean(visit) then Some(Freshness(now, Fresh))
                   else if visit.staleWorks then Some(StaleRow(source, now))
                   else RowOf(w, source.id))
            && (EndsClean(visit) || visit.staleWorks ==>
                  forall c | c in Resolved(visit) ::
                    (source.id, c) in after.coins && after.coins[(source.id, c)] == Resolved(visit)[c])
  {
    hide Banked, BankTranches;
    var banked := BankTranches(w, source.id, visit.tranches);
    TranchesLeaveRows(w, source.id, visit.tranches);
    TranchesSpend(w, source.id, visit.tranches);
    var updates := Resolved(visit);
    BankedKeys(banked.coins, source.id, updates);
    BankedKeys(Banked(banked.coins, source.id, updates), source.id, updates);
  }

  lemma {:induction false} TranchesSpend(w: World, source: SourceId, tranches: seq<Tranche>)
    ensures BankTranches(w, source, tranches).life + |tranches| >= w.life
  {
    hide Banked;
    if tranches != [] {
      TranchesSpend(w, source, tranches[..|tranches| - 1]);
    }
  }

  /** The store kept the tranche: its write works, and the process lived to make it. */
  predicate KeptAt(w: World, source: SourceId, tranches: seq<Tranche>, k: nat)
    requires k < |tranches|
  {
    tranches[k].works && BankTranches(w, source, tranches[..k]).life > 0
  }

  /** The last tranche the store kept with a stamp for the coin. */
  predicate LastFor(w: World, source: SourceId, tranches: seq<Tranche>, coin: CoinId, j: nat)
    requires j < |tranches|
  {
    && KeptAt(w, source, tranches, j) && coin in tranches[j].updates
    && forall i :: j < i < |tranches| && KeptAt(w, source, tranches, i) ==> coin !in tranches[i].updates
  }

  /** A coin of a kept tranche is stored at the end of the visit, with the stamp of the last kept tranche that had it. */
  lemma {:induction false} TrancheKept(w: World, source: SourceId, tranches: seq<Tranche>, k: nat, coin: CoinId) returns (j: nat)
    requires k < |tranches| && KeptAt(w, source, tranches, k) && coin in tranches[k].updates
    ensures k <= j < |tranches| && LastFor(w, source, tranches, coin, j)
    ensures StampOf(BankTranches(w, source, tranches).coins, (source, coin)) == Some(tranches[j].updates[coin])
    decreases |tranches|
  {
    hide Banked, BankTranches;
    var n := |tranches| - 1;
    var before := BankTranches(w, source, tranches[..n]);
    BankedStamp(before.coins, source, tranches[n].updates, (source, coin));
    BankLast(w, source, tranches);
    if KeptAt(w, source, tranches, n) && coin in tranches[n].updates {
      j := n;
    } else {
      assert forall i :: 0 <= i < n ==> tranches[..n][i] == tranches[i] && tranches[..n][..i] == tranches[..i];
      j := TrancheKept(w, source, tranches[..n], k, coin);
      assert forall i :: 0 <= i < n ==> (KeptAt(w, source, tranches[..n], i) <==> KeptAt(w, source, tranches, i));
    }
  }

  lemma BankLast(w: World, source: SourceId, tranches: seq<Tranche>)
    requires tranches != []
    ensures var n := |tranches| - 1;
      BankTranches(w, source, tranches)
      == Written(BankTranches(w, source, tranches[..n]), source, tranches[n].updates, None, tranches[n].works)
  {
  }

  // ------------------------------------------------------------- what is stored

  function StampOf(coins: map<(SourceId, CoinId), Stamp>, key: (SourceId, CoinId)): Option<Stamp> {
    if key in coins then Some(coins[key]) else None
  }

  lemma BankedStamp(coins: map<(SourceId, CoinId), Stamp>, source: SourceId, updates: Coins, key: (SourceId, CoinId))
    ensures StampOf(Banked(coins, source, updates), key)
      == if key.0 == source && key.1 in updates then Some(updates[key.1]) else StampOf(coins, key)
  {
    BankedKeys(coins, source, updates);
    var stamped := set c | c in updates :: (source, c);
    assert key in stamped <==> key.0 == source && key.1 in updates;
  }

  /** A write the store kept. */
  datatype Kept = Kept(source: SourceId, updates: Coins)

  function KeptOf(w: World, source: SourceId, updates: Coins, works: bool): seq<Kept> {
    if w.life > 0 && works then [Kept(source, updates)] else []
  }

  function KeptTranches(w: World, source: SourceId, tranches: seq<Tranche>): seq<Kept> {
    if tranches == [] then []
    else
      var n := |tranches| - 1;
      KeptTranches(w, source, tranches[..n])
        + KeptOf(BankTranches(w, source, tranches[..n]), source, tranches[n].updates, tranches[n].works)
  }

  /** The kept writes of a visit: its tranches, then either closing write. */
  function KeptVisit(w: World, source: SourceRef, visit: Visit, now: int): seq<Kept> {
    var banked := BankTranches(w, source.id, visit.tranches);
    var trying := visit.ending.Returned? && visit.ending.error.None?;
    var tried :=
      if trying then Written(banked, source.id, visit.ending.updates, Some(Freshness(now, Fresh)), visit.freshWorks)
      else banked;
    KeptTranches(w, source.id, visit.tranches)
      + (if trying then KeptOf(banked, source.id, visit.ending.updates, visit.freshWorks) else [])
      + (if EndsClean(visit) then [] else KeptOf(tried, source.id, Resolved(visit), visit.staleWorks))
  }

  function KeptPass(w: World, sources: seq<SourceRef>, visits: seq<Visit>, now: int): seq<Kept>
    requires |visits| == |sources|
  {
    if sources == [] then []
    else
      var n := |sources| - 1;
      KeptPass(w, sources[..n], visits[..n], now)
        + if IsPriceStale(sources[n].row, now) then KeptVisit(Pass(w, sources[..n], visits[..n], now), sources[n], visits[n], now)
          else []
  }

  /** The stamp of the last kept write that has the coin; without one, what was stored before. */
  function LastStamp(first: Option<Stamp>, kept: seq<Kept>, key: (SourceId, CoinId)): Option<Stamp> {
    if kept == [] then first
    else
      var last := kept[|kept| - 1];
      if last.source == key.0 && key.1 in last.updates then Some(last.updates[key.1])
      else LastStamp(first, kept[..|kept| - 1], key)
  }

  lemma {:induction false} LastStampAppend(first: Option<Stamp>, a: seq<Kept>, b: seq<Kept>, key: (SourceId, CoinId))
    ensures LastStamp(first, a + b, key) == LastStamp(LastStamp(first, a, key), b, key)
  {
    if b == [] {
      assert a + b == a;
    } else {
      assert (a + b)[..|a + b| - 1] == a + b[..|b| - 1];
      LastStampAppend(first, a, b[..|b| - 1], key);
    }
  }

  lemma WrittenStamp(w: World, source: SourceId, updates: Coins, row: Option<Freshness>, works: bool, key: (SourceId, CoinId))
    ensures StampOf(Written(w, source, updates, row, works).coins, key)
      == LastStamp(StampOf(w.coins, key), KeptOf(w, source, updates, works), key)
  {
    hide Banked;
    BankedStamp(w.coins, source, updates, key);
  }

  lemma {:induction false} TranchesStamp(w: World, source: SourceId, tranches: seq<Tranche>, key: (SourceId, CoinId))
    ensures StampOf(BankTranches(w, source, tranches).coins, key)
      == LastStamp(StampOf(w.coins, key), KeptTranches(w, source, tranches), key)
  {
    hide Written, LastStamp, KeptOf;
    if tranches == [] {
      NothingKept(StampOf(w.coins, key), key);
    } else {
      var n := |tranches| - 1;
      var before := BankTranches(w, source, tranches[..n]);
      TranchesStamp(w, source, tranches[..n], key);
      WrittenStamp(before, source, tranches[n].updates, None, tranches[n].works, key);
      LastStampAppend(StampOf(w.coins, key), KeptTranches(w, source, tranches[..n]),
        KeptOf(before, source, tranches[n].updates, tranches[n].works), key);
    }
  }

  lemma NothingKept(first: Option<Stamp>, key: (SourceId, CoinId))
    ensures LastStamp(first, [], key) == first
  {
  }

  lemma VisitStamp(w: World, source: SourceRef, visit: Visit, now: int, key: (SourceId, CoinId))
    ensures StampOf(VisitDue(w, source, visit, now).coins, key)
      == LastStamp(StampOf(w.coins, key), KeptVisit(w, source, visit, now), key)
  {
    hide Written, LastStamp, KeptOf, BankTranches, KeptTranches;
    var first := StampOf(w.coins, key);
    var banked := BankTranches(w, source.id, visit.tranches);
    var kept := KeptTranches(w, source.id, visit.tranches);
    TranchesStamp(w, source.id, visit.tranches, key);
    var trying := visit.ending.Returned? && visit.ending.error.None?;
    var tried, stamped := banked, [];
    if trying {
      tried := Written(banked, source.id, visit.ending.updates, Some(Freshness(now, Fresh)), visit.freshWorks);
      stamped := KeptOf(banked, source.id, visit.ending.updates, visit.freshWorks);
      WrittenStamp(banked, source.id, visit.ending.updates, Some(Freshness(now, Fresh)), visit.freshWorks, key);
    } else {
      NothingKept(LastStamp(first, kept, key), key);
    }
    LastStampAppend(first, kept, stamped, key);
    var closing := if EndsClean(visit) then [] else KeptOf(tried, source.id, Resolved(visit), visit.staleWorks);
    WrittenStamp(tried, source.id, Resolved(visit), Some(StaleRow(source, now)), visit.staleWorks, key);
    NothingKept(LastStamp(first, kept + stamped, key), key);
    LastStampAppend(first, kept + stamped, closing, key);
  }

  lemma {:induction false} PassStamp(w: World, sources: seq<SourceRef>, visits: seq<Visit>, now: int, key: (SourceId, CoinId))
    requires |visits| == |sources|
    ensures StampOf(Pass(w, sources, visits, now).coins, key)
      == LastStamp(StampOf(w.coins, key), KeptPass(w, sources, visits, now), key)
  {
    hide VisitDue, KeptVisit, LastStamp, IsPriceStale;
    if sources == [] {
      NothingKept(StampOf(w.coins, key), key);
    } else {
      var n := |sources| - 1;
      var before, kept := Pass(w, sources[..n], visits[..n], now), KeptPass(w, sources[..n], visits[..n], now);
      PassStamp(w, sources[..n], visits[..n], now, key);
      VisitStamp(before, sources[n], visits[n], now, key);
      LastStampAppend(StampOf(w.coins, key), kept, KeptVisit(before, sources[n], visits[n], now), key);
      assert kept + [] == kept;
    }
  }

  // ------------------------------------------------------------------ a whole pass

  predicate DistinctSources(sources: seq<SourceRef>) {
    forall i, j :: 0 <= i < j < |sources| ==> sources[i].id != sources[j].id
  }

  /** The sources are as the store has them when the pass starts. */
  predicate ReadFrom(w: World, sources: seq<SourceRef>) {
    forall s | s in sources :: s.row == RowOf(w, s.id)
  }

  /** The row of a source its visit did not stamp fresh: as it was, or stale. */
  predicate NotStamped(w: World, after: World, source: SourceRef, now: int) {
    RowOf(after, source.id) == RowOf(w, source.id) || RowOf(after, source.id) == Some(StaleRow(source, now))
  }

  /** A coin never leaves the store, and rows of sources the pass does not list never change. */
  lemma {:induction false} PassKeepsCoins(w: World, sources: seq<SourceRef>, visits: seq<Visit>, now: int)
    requires |visits| == |sources|
    ensures w.coins.Keys <= Pass(w, sources, visits, now).coins.Keys
    ensures forall s | (forall i :: 0 <= i < |sources| ==> sources[i].id != s) ::
              RowOf(Pass(w, sources, visits, now), s) == RowOf(w, s)
  {
    hide VisitDue, IsPriceStale;
    if sources != [] {
      var n := |sources| - 1;
      PassKeepsCoins(w, sources[..n], visits[..n], now);
      VisitOutcome(Pass(w, sources[..n], visits[..n], now), sources[n], visits[n], now);
    }
  }

  /** The source was due, and its pass ended without an error. */
  predicate EndedClean(source: SourceRef, visit: Visit, now: int) {
    IsPriceStale(source.row, now) && EndsClean(visit)
  }

  /**
   Wherever the process dies: a source's row changes only to stale, or, when its
   pass ended without an error, to fresh, and then every coin that pass resolved is
   in the store.
   */
  lemma {:induction false} FreshOnlyAfterCleanEnd(
    w: World, sources: seq<SourceRef>, visits: seq<Visit>, now: int, i: nat)
    requires |visits| == |sources| && DistinctSources(sources) && i < |sources|
    ensures var after := Pass(w, sources, visits, now);
            || NotStamped(w, after, sources[i], now)
            || (EndedClean(sources[i], visits[i], now)
                && RowOf(after, sources[i].id) == Some(Freshness(now, Fresh))
                && forall c | c in visits[i].ending.updates :: (sources[i].id, c) in after.coins)
    decreases |sources|
  {
    hide VisitDue, IsPriceStale;
    var n := |sources| - 1;
    var before := Pass(w, sources[..n], visits[..n], now);
    VisitOutcome(before, sources[n], visits[n], now);
    if i < n {
      assert forall a, b :: 0 <= a < b < n ==> sources[..n][a] == sources[a] && sources[..n][b] == sources[b];
      FreshOnlyAfterCleanEnd(w, sources[..n], visits[..n], now, i);
    } else {
      PassKeepsCoins(w, sources[..n], visits[..n], now);
      assert forall a :: 0 <= a < n ==> sources[..n][a].id != sources[n].id;
    }
  }

  function TotalWrites(visits: seq<Visit>): nat {
    if visits == [] then 0 else TotalWrites(visits[..|visits| - 1]) + |visits[|visits| - 1].tranches| + 2
  }

  /** The row a due source ends with when the process lives. */
  function SettledRow(source: SourceRef, visit: Visit, now: int): Option<Freshness> {
    if EndsClean(visit) then Some(Freshness(now, Fresh))
    else if visit.staleWorks then Some(StaleRow(source, now))
    else source.row
  }

  lemma {:induction false} PassSpends(w: World, sources: seq<SourceRef>, visits: seq<Visit>, now: int)
    requires |visits| == |sources| && w.life >= TotalWrites(visits)
    ensures Pass(w, sources, visits, now).life >= w.life - TotalWrites(visits)
  {
    hide VisitDue, IsPriceStale;
    if sources != [] {
      var n := |sources| - 1;
      PassSpends(w, sources[..n], visits[..n], now);
      VisitSettles(Pass(w, sources[..n], visits[..n], now), sources[n], visits[n], now);
    }
  }

  /**
   In a process that lives, every due source is visited whatever became of the ones
   before it: its row ends as its own visit left it, and the coins it resolved are
   stored if the store took either closing write.
   */
  lemma {:induction false} EveryDueSourceVisited(
    w: World, sources: seq<SourceRef>, visits: seq<Visit>, now: int, i: nat)
    requires |visits| == |sources| && DistinctSources(sources) && ReadFrom(w, sources) && i < |sources|
    requires w.life >= TotalWrites(visits)
    ensures var after := Pass(w, sources, visits, now);
            && RowOf(after, sources[i].id)
               == (if IsPriceStale(sources[i].row, now) then SettledRow(sources[i], visits[i], now) else sources[i].row)
            && (IsPriceStale(sources[i].row, now) && (EndsClean(visits[i]) || visits[i].staleWorks) ==>
                  forall c | c in Resolved(visits[i]) :: (sources[i].id, c) in after.coins)
    decreases |sources|
  {
    hide VisitDue, IsPriceStale;
    var n := |sources| - 1;
    var before := Pass(w, sources[..n], visits[..n], now);
    PassSpends(w, sources[..n], visits[..n], now);
    VisitOutcome(before, sources[n], visits[n], now);
    assert sources[i] in sources;
    if i < n {
      assert forall a :: 0 <= a < n ==> sources[..n][a] == sources[a];
      EveryDueSourceVisited(w, sources[..n], visits[..n], now, i);
    } else {
      PassKeepsCoins(w, sources[..n], visits[..n], now);
      assert forall a :: 0 <= a < n ==> sources[..n][a].id != sources[n].id;
      VisitSettles(before, sources[n], visits[n], now);
    }
  }

  // ------------------------------------------------------- what the pass reports

  /** What a source's visit has to say: what stopped it, and then a failed write of its row. */
  predicate Tells(visit: Visit, errors: seq<string>) {
    match visit.ending
    case Threw(message) => errors == [message] + Unwritten(visit)
    case Returned(_, Some(message)) => errors == [message] + Unwritten(visit)
    case Returned(_, None) =>
      if visit.freshWorks then errors == [] else errors == ["store write failed"] + Unwritten(visit)
  }

  function Unwritten(visit: Visit): seq<string> {
    if visit.staleWorks then [] else ["store write failed"]
  }

  /**
   Each source's messages stand in the report after those of the sources before it,
   and a source that is not due has none.
   */
  lemma {:induction false} ToldInOrder(sources: seq<SourceRef>, visits: seq<Visit>, now: int, i: nat)
    returns (told: seq<string>, after: seq<string>)
    requires |visits| == |sources| && i < |sources|
    ensures PassErrors(sources, visits, now) == PassErrors(sources[..i], visits[..i], now) + told + after
    ensures if IsPriceStale(sources[i].row, now) then Tells(visits[i], told) else told == []
    decreases |sources|
  {
    hide IsPriceStale;
    var n := |sources| - 1;
    if i == n {
      told, after := if IsPriceStale(sources[n].row, now) then VisitErrors(visits[n]) else [], [];
    } else {
      told, after := ToldInOrder(sources[..n], visits[..n], now, i);
      assert sources[..n][..i] == sources[..i] && visits[..n][..i] == visits[..i];
      var more := if IsPriceStale(sources[n].row, now) then VisitErrors(visits[n]) else [];
      assert PassErrors(sources[..i], visits[..i], now) + told + after + more
          == PassErrors(sources[..i], visits[..i], now) + told + (after + more);
      after := after + more;
    }
  }

  /** The pass reports nothing exactly when every due source ended without an error. */
  lemma {:induction false} SilentExactly(sources: seq<SourceRef>, visits: seq<Visit>, now: int)
    requires |visits| == |sources|
    ensures PassErrors(sources, visits, now) == []
      <==> forall i :: 0 <= i < |sources| && IsPriceStale(sources[i].row, now) ==>
             visits[i].ending.Returned? && visits[i].ending.error == None && visits[i].freshWorks
  {
    hide IsPriceStale;
    if sources != [] {
      SilentExactly(sources[..|sources| - 1], visits[..|sources| - 1], now);
    }
  }

  /** A row is due when it is missing or says stale, or a day after it was fetched unless it was entered by hand. */
  lemma DueExactly(row: Option<Freshness>, now: int)
    ensures IsPriceStale(None, now)
    ensures row.Some? ==>
      match row.value.word
      case Stale => IsPriceStale(row, now)
      case Manual => !IsPriceStale(row, now)
      case _ => IsPriceStale(row, now) <==> row.value.fetchedAt + 86_400_000 <= now
  {
  }

  /**
   In a process that lives and with a store that takes the stale rows, the pass
   leaves each due source dated now and fresh, or stale under the date it had, and
   under now only if it had none.
   */
  lemma RowsAfterPass(w: World, sources: seq<SourceRef>, visits: seq<Visit>, now: int, i: nat)
    requires |visits| == |sources| && DistinctSources(sources) && ReadFrom(w, sources) && i < |sources|
    requires w.life >= TotalWrites(visits) && IsPriceStale(sources[i].row, now) && visits[i].staleWorks
    ensures var row := RowOf(Pass(w, sources, visits, now), sources[i].id);
      && row.Some?
      && (row.value.word == Fresh
          <==> visits[i].ending.Returned? && visits[i].ending.error == None && visits[i].freshWorks)
      && (row.value.word == Fresh || row.value.word == Stale)
      && row.value.fetchedAt
         == if row.value.word == Stale && RowOf(w, sources[i].id).Some? then RowOf(w, sources[i].id).value.fetchedAt else now
  {
    hide Pass, IsPriceStale;
    assert sources[i] in sources;
    EveryDueSourceVisited(w, sources, visits, now, i);
  }

  // ------------------------------------------------------------- pass after pass

  /** A pass of a run: its time, what the outside does to each source, and how long the process lives. */
  datatype Round = Round(now: int, visits: seq<Visit>, life: nat)

  function Refs(w: World, ids: seq<SourceId>): (refs: seq<SourceRef>)
    ensures |refs| == |ids|
    ensures forall i :: 0 <= i < |refs| ==> refs[i] == SourceRef(ids[i], RowOf(w, ids[i]))
  {
    seq(|ids|, i requires 0 <= i < |ids| => SourceRef(ids[i], RowOf(w, ids[i])))
  }

  predicate Rounds(rounds: seq<Round>, sources: nat) {
    && (forall r | r in rounds :: |r.visits| == sources)
    && forall i, j :: 0 <= i < j < |rounds| ==> rounds[i].now <= rounds[j].now
  }

  function RunRounds(w: World, ids: seq<SourceId>, rounds: seq<Round>): World
    requires forall r | r in rounds :: |r.visits| == |ids|
  {
    if rounds == [] then w
    else
      var n := |rounds| - 1;
      var r := rounds[n];
      assert r in rounds;
      var before := RunRounds(w, ids, rounds[..n]);
      Pass(before.(life := r.life), Refs(before, ids), r.visits, r.now)
  }

  /** The kept writes of all the passes, in order. */
  function KeptRounds(w: World, ids: seq<SourceId>, rounds: seq<Round>): seq<Kept>
    requires forall r | r in rounds :: |r.visits| == |ids|
  {
    if rounds == [] then []
    else
      var n := |rounds| - 1;
      var r := rounds[n];
      assert r in rounds;
      var before := RunRounds(w, ids, rounds[..n]);
      KeptRounds(w, ids, rounds[..n]) + KeptPass(before.(life := r.life), Refs(before, ids), r.visits, r.now)
  }

  /**
   Over any passes, each dying where it may, no stored coin is ever lost, and what
   is stored for a coin is the last write the store kept for it, or what it was.
   */
  lemma {:induction false} NoCoinLost(w: World, ids: seq<SourceId>, rounds: seq<Round>, key: (SourceId, CoinId))
    requires forall r | r in rounds :: |r.visits| == |ids|
    ensures w.coins.Keys <= RunRounds(w, ids, rounds).coins.Keys
    ensures StampOf(RunRounds(w, ids, rounds).coins, key)
      == LastStamp(StampOf(w.coins, key), KeptRounds(w, ids, rounds), key)
  {
    hide Pass, KeptPass, LastStamp;
    if rounds == [] {
      NothingKept(StampOf(w.coins, key), key);
    } else {
      var n := |rounds| - 1;
      var r := rounds[n];
      assert r in rounds;
      NoCoinLost(w, ids, rounds[..n], key);
      var before := RunRounds(w, ids, rounds[..n]);
      PassKeepsCoins(before.(life := r.life), Refs(before, ids), r.visits, r.now);
      PassStamp(before.(life := r.life), Refs(before, ids), r.visits, r.now, key);
      LastStampAppend(StampOf(w.coins, key), KeptRounds(w, ids, rounds[..n]),
        KeptPass(before.(life := r.life), Refs(before, ids), r.visits, r.now), key);
    }
  }

  /** The source's pass has not ended clean in any round. */
  predicate NeverClean(rounds: seq<Round>, i: nat) {
    forall r | r in rounds :: i < |r.visits| && !EndsClean(r.visits[i])
  }

  /**
   A source due when the passes begin stays due, whenever it is asked again, until
   one of its passes ends without an error: neither a failure, nor a throw, nor a
   death mid-pass with tranches banked makes an unfinished collection read as
   valued.
   */
  lemma {:induction false} DueUntilCleanEnd(w: World, ids: seq<SourceId>, rounds: seq<Round>, i: nat, start: int, later: int)
    requires Rounds(rounds, |ids|) && i < |ids|
    requires forall a, b :: 0 <= a < b < |ids| ==> ids[a] != ids[b]
    requires IsPriceStale(RowOf(w, ids[i]), start) && NeverClean(rounds, i)
    requires forall r | r in rounds :: start <= r.now <= later
    requires start <= later
    ensures IsPriceStale(RowOf(RunRounds(w, ids, rounds), ids[i]), later)
    decreases |rounds|
  {
    hide Pass, IsPriceStale, EndsClean;
    if rounds == [] {
      StaysDue(RowOf(w, ids[i]), start, later);
    } else {
      var n := |rounds| - 1;
      var r := rounds[n];
      assert r in rounds && forall q | q in rounds[..n] :: q in rounds;
      DueUntilCleanEnd(w, ids, rounds[..n], i, start, later);
      var before := RunRounds(w, ids, rounds[..n]);
      var living, refs := before.(life := r.life), Refs(before, ids);
      FreshOnlyAfterCleanEnd(living, refs, r.visits, r.now, i);
      StaleIsDue(refs[i], r.now, later);
    }
  }

  /** Time only makes a row more due. */
  lemma StaysDue(row: Option<Freshness>, start: int, later: int)
    requires IsPriceStale(row, start) && start <= later
    ensures IsPriceStale(row, later)
  {
  }

  lemma StaleIsDue(source: SourceRef, now: int, later: int)
    ensures IsPriceStale(Some(StaleRow(source, now)), later)
  {
  }
}
