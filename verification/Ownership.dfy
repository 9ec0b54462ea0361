/** The ownership split of the intake form (`intake-primitives.ts`), in basis points. */
module Ownership {
  import opened Text

  const Whole: nat := 10000

  datatype Preset = Scope | Even | Custom

  datatype Shortfall = CompleteToFullOwnership | LeaveAsEntered

  datatype Share = Share(memberId: string, shareBps: nat)

  // ------------------------------------------------------------ even parts

  /** The `k`th of `n` parts of an amount: the first ones take one more until it adds up. */
  function Part(amount: nat, n: nat, k: nat): nat
    requires n > 0
  {
    amount / n + if k < amount % n then 1 else 0
  }

  function PartsUpTo(amount: nat, n: nat, k: nat): nat
    requires n > 0
  {
    if k == 0 then 0 else PartsUpTo(amount, n, k - 1) + Part(amount, n, k - 1)
  }

  lemma NextMultiple(q: nat, k: nat)
    requires k > 0
    ensures q * k == q * (k - 1) + q
  {
  }

  lemma {:induction false} PartsSoFar(amount: nat, n: nat, k: nat, base: nat, remainder: nat)
    requires 0 < n && k <= n && base == amount / n && remainder == amount % n
    ensures PartsUpTo(amount, n, k) == base * k + if k < remainder then k else remainder
  {
    if k > 0 {
      PartsSoFar(amount, n, k - 1, base, remainder);
      NextMultiple(base, k);
      assert Part(amount, n, k - 1) == base + if k - 1 < remainder then 1 else 0;
    }
  }

  /** The parts add up to the amount, and no two differ by more than one. */
  lemma PartsAddUp(amount: nat, n: nat)
    requires n > 0
    ensures PartsUpTo(amount, n, n) == amount
    ensures forall i: nat, j: nat :: Part(amount, n, i) <= Part(amount, n, j) + 1
  {
    PartsSoFar(amount, n, n, amount / n, amount % n);
  }

  // ---------------------------------------------------------------- entries

  function Sum(shares: seq<nat>): nat {
    if shares == [] then 0 else Sum(shares[..|shares| - 1]) + shares[|shares| - 1]
  }

  function Total(shares: seq<Share>): nat {
    if shares == [] then 0 else Total(shares[..|shares| - 1]) + shares[|shares| - 1].shareBps
  }

  function Zeros(shares: seq<nat>): (n: nat)
    ensures n <= |shares|
  {
    if shares == [] then 0
    else Zeros(shares[..|shares| - 1]) + if shares[|shares| - 1] == 0 then 1 else 0
  }

  /** `Math.round`: halves go up. */
  function Round(x: real): int {
    (x + 0.5).Floor
  }

  function Entered(customBps: map<string, real>, memberId: string): nat {
    var rounded := Round(if memberId in customBps then customBps[memberId] else 0.0);
    if rounded < 0 then 0 else rounded
  }

  function EnteredShares(members: seq<string>, customBps: map<string, real>): (shares: seq<nat>)
    ensures |shares| == |members|
  {
    seq(|members|, i requires 0 <= i < |members| => Entered(customBps, members[i]))
  }

  /** The unset shares, in order, take the parts of what is missing. */
  function Completed(shares: seq<nat>): (completed: seq<nat>)
    requires Sum(shares) < Whole && Zeros(shares) > 0
    ensures |completed| == |shares|
  {
    seq(|shares|, i requires 0 <= i < |shares| =>
      if shares[i] != 0 then shares[i] else Part(Whole - Sum(shares), Zeros(shares), Zeros(shares[..i])))
  }

  predicate Completes(shares: seq<nat>, shortfall: Shortfall) {
    shortfall == CompleteToFullOwnership && Sum(shares) < Whole && Zeros(shares) > 0
  }

  /** The members with a share, in order. */
  function Held(members: seq<string>, shares: seq<nat>): seq<Share>
    requires |members| == |shares|
  {
    if members == [] then []
    else
      var n := |members| - 1;
      Held(members[..n], shares[..n]) + if shares[n] > 0 then [Share(members[n], shares[n])] else []
  }

  function ScopeMember(members: seq<string>, scopeMemberId: Option<string>): string
    requires members != []
  {
    if scopeMemberId.Some? && scopeMemberId.value in members then scopeMemberId.value else members[0]
  }

  function EvenShares(n: nat): (shares: seq<nat>)
    requires n > 0
    ensures |shares| == n
  {
    seq(n, i requires 0 <= i < n => Part(Whole, n, i))
  }

  function Listed(members: seq<string>, shares: seq<nat>): (listed: seq<Share>)
    requires |members| == |shares|
    ensures |listed| == |members|
  {
    seq(|members|, i requires 0 <= i < |members| => Share(members[i], shares[i]))
  }

  function Resolved(
    members: seq<string>, scopeMemberId: Option<string>, preset: Preset, customBps: map<string, real>,
    shortfall: Shortfall): seq<Share>
  {
    if members == [] then []
    else if preset == Scope || (|members| == 1 && preset != Custom) then [Share(ScopeMember(members, scopeMemberId), Whole)]
    else if preset == Even then Listed(members, EvenShares(|members|))
    else
      var shares := EnteredShares(members, customBps);
      if Sum(shares) == 0 then [Share(ScopeMember(members, scopeMemberId), Whole)]
      else Held(members, if Completes(shares, shortfall) then Completed(shares) else shares)
  }

  // -------------------------------------------------------------- the program

  class Entry {
    const memberId: string
    var shareBps: nat

    constructor (memberId: string, shareBps: nat)
      ensures this.memberId == memberId && this.shareBps == shareBps
    {
      this.memberId, this.shareBps := memberId, shareBps;
    }
  }

  predicate Different(entries: seq<Entry>) {
    forall i, j :: 0 <= i < j < |entries| ==> entries[i] != entries[j]
  }

  /** Deals an amount out to the entries themselves, in place. */
  method DistributeRemainder(entries: seq<Entry>, amount: nat)
    requires entries != [] && Different(entries)
    modifies set e | e in entries
    ensures forall k :: 0 <= k < |entries| ==> entries[k].shareBps == Part(amount, |entries|, k)
  {
    var base := amount / |entries|;
    var remainder := amount - base * |entries|;
    assert remainder == amount % |entries|;
    for k := 0 to |entries|
      invariant remainder == if k < amount % |entries| then amount % |entries| - k else 0
      invariant forall j :: 0 <= j < k ==> entries[j].shareBps == Part(amount, |entries|, j)
    {
      var extra := if remainder > 0 then 1 else 0;
      remainder := remainder - extra;
      entries[k].shareBps := base + extra;
    }
  }

  method EvenSplit(members: seq<string>) returns (shares: seq<Share>)
    requires members != []
    ensures shares == Listed(members, EvenShares(|members|))
  {
    var base := Whole / |members|;
    var remainder := Whole - base * |members|;
    assert remainder == Whole % |members|;
    shares := [];
    for k := 0 to |members|
      invariant remainder == if k < Whole % |members| then Whole % |members| - k else 0
      invariant shares == Listed(members, EvenShares(|members|))[..k]
    {
      var extra := if remainder > 0 then 1 else 0;
      remainder := remainder - extra;
      shares := shares + [Share(members[k], base + extra)];
    }
  }

  /** The shares of the entries as they stand. */
  ghost function Now(entries: seq<Entry>): (shares: seq<nat>)
    reads entries
    ensures |shares| == |entries|
  {
    seq(|entries|, i requires 0 <= i < |entries| reads entries => entries[i].shareBps)
  }

  predicate Names(entries: seq<Entry>, members: seq<string>) {
    |entries| == |members| && forall i :: 0 <= i < |entries| ==> entries[i].memberId == members[i]
  }

  method EntriesOf(members: seq<string>, customBps: map<string, real>) returns (entries: seq<Entry>, provided: nat)
    ensures Names(entries, members) && Different(entries) && forall e | e in entries :: fresh(e)
    ensures Now(entries) == EnteredShares(members, customBps) && provided == Sum(Now(entries))
  {
    ghost var shares := EnteredShares(members, customBps);
    entries, provided := [], 0;
    for i := 0 to |members|
      invariant Names(entries, members[..i]) && Different(entries)
      invariant forall e | e in entries :: fresh(e)
      invariant forall k :: 0 <= k < i ==> entries[k].shareBps == shares[k]
    {
      var entry := new Entry(members[i], Entered(customBps, members[i]));
      entries := entries + [entry];
    }
    for i := 0 to |entries|
      invariant provided == Sum(shares[..i])
    {
      assert shares[..i + 1][..i] == shares[..i];
      provided := provided + entries[i].shareBps;
    }
    assert shares[..|shares|] == shares && Now(entries) == shares;
  }

  /** The entries whose share is zero, in order. */
  function UnsetOf(entries: seq<Entry>, shares: seq<nat>): (unset: seq<Entry>)
    requires |entries| == |shares|
    ensures forall e | e in unset :: e in entries
  {
    if entries == [] then []
    else
      var n := |entries| - 1;
      UnsetOf(entries[..n], shares[..n]) + if shares[n] == 0 then [entries[n]] else []
  }

  /** The same objects, those still at zero. */
  method Unset(entries: seq<Entry>) returns (unset: seq<Entry>)
    ensures unset == UnsetOf(entries, Now(entries))
  {
    ghost var shares := Now(entries);
    unset := [];
    for i := 0 to |entries|
      invariant unset == UnsetOf(entries[..i], shares[..i])
    {
      assert shares[..i + 1][..i] == shares[..i] && entries[..i + 1][..i] == entries[..i];
      if entries[i].shareBps == 0 {
        unset := unset + [entries[i]];
      }
    }
    assert shares[..|shares|] == shares && entries[..|entries|] == entries;
  }

  lemma DifferentNext(entries: seq<Entry>, e: Entry)
    requires Different(entries) && e !in entries
    ensures Different(entries + [e])
  {
  }

  lemma {:induction false} UnsetDifferent(entries: seq<Entry>, shares: seq<nat>)
    requires |entries| == |shares| && Different(entries)
    ensures |UnsetOf(entries, shares)| == Zeros(shares) && Different(UnsetOf(entries, shares))
  {
    if entries != [] {
      var n := |entries| - 1;
      var before := UnsetOf(entries[..n], shares[..n]);
      assert forall i :: 0 <= i < n ==> entries[..n][i] == entries[i];
      UnsetDifferent(entries[..n], shares[..n]);
      assert entries[n] !in entries[..n];
      DifferentNext(before, entries[n]);
      assert before + [] == before;
    }
  }

  /** An unset entry is the one its place among the zeros says; the others are left out. */
  lemma {:induction false} UnsetHolds(entries: seq<Entry>, shares: seq<nat>, i: nat)
    requires |entries| == |shares| && Different(entries) && i < |entries|
    ensures shares[i] != 0 ==> entries[i] !in UnsetOf(entries, shares)
    ensures shares[i] == 0 ==>
      Zeros(shares[..i]) < |UnsetOf(entries, shares)| && UnsetOf(entries, shares)[Zeros(shares[..i])] == entries[i]
  {
    hide Different, Zeros;
    var n := |entries| - 1;
    DifferentBefore(entries);
    if i < n {
      UnsetHolds(entries[..n], shares[..n], i);
      assert shares[..n][..i] == shares[..i] && entries[..n][i] == entries[i];
      assert entries[i] in entries[..n];
    } else {
      UnsetDifferent(entries[..n], shares[..n]);
    }
  }

  lemma DifferentBefore(entries: seq<Entry>)
    requires Different(entries) && entries != []
    ensures var n := |entries| - 1; Different(entries[..n]) && entries[n] !in entries[..n]
  {
    var n := |entries| - 1;
    assert forall i :: 0 <= i < n ==> entries[..n][i] == entries[i];
  }

  method ResolveOwnershipSplit(
    members: seq<string>, scopeMemberId: Option<string>, preset: Preset, customBps: map<string, real>,
    shortfall: Shortfall) returns (resolved: seq<Share>)
    ensures resolved == Resolved(members, scopeMemberId, preset, customBps, shortfall)
  {
    hide Sum, Zeros, Part, Entered, Held, Completed, Completes;
    if members == [] {
      return [];
    }
    var scopeMember := ScopeMember(members, scopeMemberId);
    if |members| == 1 && preset != Custom {
      return [Share(scopeMember, Whole)];
    }
    if preset == Scope {
      return [Share(scopeMember, Whole)];
    }
    if preset == Even {
      resolved := EvenSplit(members);
      return;
    }
    var entries, provided := EntriesOf(members, customBps);
    if provided == 0 {
      return [Share(scopeMember, Whole)];
    }
    CompleteShortfall(entries, provided, shortfall);
    resolved := HeldBy(entries, members);
  }

  /** Tops up the unset entries, which are the same objects as the listed ones. */
  method CompleteShortfall(entries: seq<Entry>, provided: nat, shortfall: Shortfall)
    requires Different(entries) && provided == Sum(Now(entries))
    modifies set e | e in entries
    ensures Now(entries)
      == if Completes(old(Now(entries)), shortfall) then Completed(old(Now(entries))) else old(Now(entries))
  {
    hide Sum, Part, UnsetOf, Zeros;
    ghost var shares := Now(entries);
    if shortfall == CompleteToFullOwnership && provided < Whole {
      var unset := Unset(entries);
      UnsetDifferent(entries, shares);
      if |unset| > 0 {
        DistributeRemainder(unset, Whole - provided);
        forall i | 0 <= i < |entries| ensures entries[i].shareBps == Completed(shares)[i] {
          UnsetHolds(entries, shares, i);
        }
        assert Now(entries) == Completed(shares);
      }
    }
  }

  method HeldBy(entries: seq<Entry>, members: seq<string>) returns (held: seq<Share>)
    requires Names(entries, members)
    ensures held == Held(members, Now(entries))
  {
    ghost var shares := Now(entries);
    held := [];
    for i := 0 to |entries|
      invariant held == Held(members[..i], shares[..i])
    {
      assert members[..i + 1][..i] == members[..i] && shares[..i + 1][..i] == shares[..i];
      if entries[i].shareBps > 0 {
        held := held + [Share(entries[i].memberId, entries[i].shareBps)];
      }
    }
    assert members[..|entries|] == members && shares[..|entries|] == shares;
  }

  // --------------------------------------------------------------- exactness

  lemma {:induction false} HeldTotal(members: seq<string>, shares: seq<nat>)
    requires |members| == |shares|
    ensures Total(Held(members, shares)) == Sum(shares)
  {
    if members != [] {
      var n := |members| - 1;
      HeldTotal(members[..n], shares[..n]);
      var before := Held(members[..n], shares[..n]);
      if shares[n] > 0 {
        assert (before + [Share(members[n], shares[n])])[..|before|] == before;
      } else {
        assert before + [] == before;
      }
    }
  }

  lemma {:induction false} EvenTotal(members: seq<string>, n: nat, k: nat)
    requires 0 < n == |members| && k <= n
    ensures Total(Listed(members, EvenShares(n))[..k]) == PartsUpTo(Whole, n, k)
  {
    hide Part;
    if k > 0 {
      var all := Listed(members, EvenShares(n));
      EvenTotal(members, n, k - 1);
      assert all[..k][..k - 1] == all[..k - 1];
    }
  }

  /** Up to any point the completed shares are the entered ones and the parts dealt so far. */
  lemma {:induction false} CompletedSoFar(shares: seq<nat>, k: nat)
    requires Sum(shares) < Whole && Zeros(shares) > 0 && k <= |shares|
    ensures Sum(Completed(shares)[..k])
      == Sum(shares[..k]) + PartsUpTo(Whole - Sum(shares), Zeros(shares), Zeros(shares[..k]))
  {
    hide Part;
    if k > 0 {
      var all := Completed(shares);
      CompletedSoFar(shares, k - 1);
      assert all[..k][..k - 1] == all[..k - 1] && shares[..k][..k - 1] == shares[..k - 1];
    }
  }

  lemma CompletedAddsUp(shares: seq<nat>)
    requires Sum(shares) < Whole && Zeros(shares) > 0
    ensures Sum(Completed(shares)) == Whole
    ensures forall i :: 0 <= i < |shares| && shares[i] > 0 ==> Completed(shares)[i] == shares[i]
    ensures forall i, j :: 0 <= i < |shares| && 0 <= j < |shares| && shares[i] == 0 && shares[j] == 0 ==>
      Completed(shares)[i] <= Completed(shares)[j] + 1
  {
    hide Part, Sum, Zeros, PartsUpTo;
    CompletedSoFar(shares, |shares|);
    PartsAddUp(Whole - Sum(shares), Zeros(shares));
    assert Completed(shares)[..|shares|] == Completed(shares) && shares[..|shares|] == shares;
  }

  /** What a split adds up to, whatever the members and the entered shares. */
  lemma SplitTotal(
    members: seq<string>, scopeMemberId: Option<string>, preset: Preset, customBps: map<string, real>, shortfall: Shortfall)
    requires members != []
    ensures var entered := Sum(EnteredShares(members, customBps));
      Total(Resolved(members, scopeMemberId, preset, customBps, shortfall))
      == if preset != Custom || entered == 0 || Completes(EnteredShares(members, customBps), shortfall) then Whole else entered
  {
    hide Part, Sum, Zeros, Entered, Held, Completed, Listed, PartsUpTo;
    var shares := EnteredShares(members, customBps);
    OneHolds(ScopeMember(members, scopeMemberId));
    if preset == Even {
      var n := |members|;
      EvenTotal(members, n, n);
      PartsAddUp(Whole, n);
      assert Listed(members, EvenShares(n))[..n] == Listed(members, EvenShares(n));
    }
    if Completes(shares, shortfall) {
      CompletedAddsUp(shares);
      HeldTotal(members, Completed(shares));
    }
    HeldTotal(members, shares);
  }

  lemma OneHolds(member: string)
    ensures Total([Share(member, Whole)]) == Whole
  {
    assert [Share(member, Whole)][..0] == [];
  }

  /** A share is unset exactly when nothing above half a basis point was entered for the member. */
  lemma UnsetExactly(members: seq<string>, customBps: map<string, real>, i: nat)
    requires i < |members|
    ensures EnteredShares(members, customBps)[i] == 0
      <==> members[i] !in customBps || customBps[members[i]] < 0.5
  {
  }

  /** Every listed share is positive and goes to a member, in the members' order. */
  lemma {:induction false} HeldArePositive(members: seq<string>, shares: seq<nat>)
    requires |members| == |shares|
    ensures forall s | s in Held(members, shares) :: s.shareBps > 0 && s.memberId in members
    ensures |Held(members, shares)| == |members| - Zeros(shares)
  {
    if members != [] {
      var n := |members| - 1;
      assert members == members[..n] + [members[n]];
      HeldArePositive(members[..n], shares[..n]);
    }
  }

  // -------------------------------------------------- in the form's own numbers

  /** What the form holds for a member: nothing entered is nothing. */
  function InForm(customBps: map<string, real>, memberId: string): real {
    if memberId in customBps then customBps[memberId] else 0.0
  }

  /** The nearest whole number of basis points, halves up, and nothing for what is below half of one. */
  predicate Nearest(entered: real, share: nat) {
    if entered < 0.5 then share == 0 else share as real - 0.5 <= entered < share as real + 0.5
  }

  /** The share taken is the nearest to the number entered, and no other is; a whole number is itself. */
  lemma EnteredIsNearest(customBps: map<string, real>, memberId: string, share: nat)
    ensures Nearest(InForm(customBps, memberId), share) <==> share == Entered(customBps, memberId)
    ensures InForm(customBps, memberId) == share as real ==> Entered(customBps, memberId) == share
  {
    var x := InForm(customBps, memberId);
    var n := (x + 0.5).Floor;
    assert n as real <= x + 0.5 < n as real + 1.0;
    if Nearest(x, share) && x >= 0.5 {
      assert share as real < n as real + 1.0 && n as real < share as real + 1.0;
    }
  }

  /** The shares the form's numbers come to, member by member. */
  predicate NearestAll(members: seq<string>, customBps: map<string, real>, shares: seq<nat>) {
    |shares| == |members| && forall i :: 0 <= i < |members| ==> Nearest(InForm(customBps, members[i]), shares[i])
  }

  lemma SharesAreNearest(members: seq<string>, customBps: map<string, real>, shares: seq<nat>)
    requires NearestAll(members, customBps, shares)
    ensures shares == EnteredShares(members, customBps)
  {
    forall i | 0 <= i < |members| ensures shares[i] == EnteredShares(members, customBps)[i] {
      EnteredIsNearest(customBps, members[i], shares[i]);
    }
  }

  /** Where a share that is not zero is listed: after the members listed before it. */
  lemma {:induction false} HeldInOrder(members: seq<string>, shares: seq<nat>, i: nat)
    requires |members| == |shares| && i < |shares| && shares[i] > 0
    ensures var held := Held(members, shares); var place := i - Zeros(shares[..i]);
      0 <= place < |held| && held[place] == Share(members[i], shares[i])
  {
    var n := |shares| - 1;
    HeldCount(members[..n], shares[..n]);
    if i < n {
      HeldInOrder(members[..n], shares[..n], i);
      assert shares[..n][..i] == shares[..i];
    }
  }

  lemma HeldCount(members: seq<string>, shares: seq<nat>)
    requires |members| == |shares|
    ensures |Held(members, shares)| == |members| - Zeros(shares)
  {
    HeldArePositive(members, shares);
  }

  /** Every share that is not zero is listed with its own member. */
  predicate Lists(split: seq<Share>, members: seq<string>, shares: seq<nat>)
    requires |members| == |shares|
  {
    forall i :: 0 <= i < |members| && shares[i] > 0 ==> Share(members[i], shares[i]) in split
  }

  /** Exactly those shares, in the members' order. */
  predicate ListsInOrder(split: seq<Share>, members: seq<string>, shares: seq<nat>)
    requires |members| == |shares|
  {
    && |split| == |members| - Zeros(shares)
    && forall i :: 0 <= i < |members| && shares[i] > 0 ==>
         0 <= i - Zeros(shares[..i]) < |split| && split[i - Zeros(shares[..i])] == Share(members[i], shares[i])
  }

  lemma HeldLists(members: seq<string>, shares: seq<nat>)
    requires |members| == |shares|
    ensures Lists(Held(members, shares), members, shares) && ListsInOrder(Held(members, shares), members, shares)
  {
    hide Zeros, Held;
    HeldCount(members, shares);
    forall i | 0 <= i < |members| && shares[i] > 0
      ensures var held := Held(members, shares); var place := i - Zeros(shares[..i]);
        0 <= place < |held| && held[place] == Share(members[i], shares[i])
    {
      HeldInOrder(members, shares, i);
    }
  }

  /** The form's numbers fall short of the whole, somebody is unset, and the split is to be completed. */
  predicate ToppedUp(shares: seq<nat>, shortfall: Shortfall) {
    shortfall == CompleteToFullOwnership && Sum(shares) < 10000 && exists i :: 0 <= i < |shares| && shares[i] == 0
  }

  /**
   A custom split, in the numbers of the form: its total, and every entered share
   listed with its own member; when nothing is topped up, those and no others, in
   the members' order.
   */
  lemma CustomSplitIs(
    members: seq<string>, scopeMemberId: Option<string>, customBps: map<string, real>, shortfall: Shortfall, shares: seq<nat>)
    requires members != [] && NearestAll(members, customBps, shares) && Sum(shares) > 0
    ensures var split := Resolved(members, scopeMemberId, Custom, customBps, shortfall);
      && Total(split) == (if ToppedUp(shares, shortfall) then 10000 else Sum(shares))
      && Lists(split, members, shares)
      && (ToppedUp(shares, shortfall) || ListsInOrder(split, members, shares))
  {
    hide Sum, Zeros, Entered, Held, Total, Part, Nearest, InForm, Lists, ListsInOrder, Completed, Completes, ToppedUp;
    SharesAreNearest(members, customBps, shares);
    SplitTotal(members, scopeMemberId, Custom, customBps, shortfall);
    ToppedUpCompletes(shares, shortfall);
    HeldLists(members, shares);
    if Completes(shares, shortfall) {
      CompletedLists(members, shares, shortfall);
    }
  }

  lemma ToppedUpCompletes(shares: seq<nat>, shortfall: Shortfall)
    ensures ToppedUp(shares, shortfall) <==> Completes(shares, shortfall)
  {
    hide Sum, Zeros;
    ZerosExactly(shares);
  }

  lemma CompletedLists(members: seq<string>, shares: seq<nat>, shortfall: Shortfall)
    requires |members| == |shares| && Completes(shares, shortfall)
    ensures Lists(Held(members, Completed(shares)), members, shares)
  {
    hide Sum, Zeros, Held, Completed, Part;
    CompletedAddsUp(shares);
    HeldLists(members, Completed(shares));
  }

  lemma {:induction false} ZerosExactly(shares: seq<nat>)
    ensures Zeros(shares) > 0 <==> exists i :: 0 <= i < |shares| && shares[i] == 0
  {
    if shares != [] {
      ZerosExactly(shares[..|shares| - 1]);
    }
  }

  /** Two members, 6000 and 4000: the split is 6000 and 4000. */
  lemma TwoShares()
    ensures Resolved(["a", "b"], None, Custom, map["a" := 6000.0, "b" := 4000.0], LeaveAsEntered)
      == [Share("a", 6000), Share("b", 4000)]
  {
    hide Held, Sum;
    var members, shares := ["a", "b"], [6000 as nat, 4000 as nat];
    var entered := map["a" := 6000.0, "b" := 4000.0];
    SharesAreNearest(members, entered, shares);
    HeldOfTwo();
  }

  lemma HeldOfTwo()
    ensures Held(["a", "b"], [6000, 4000]) == [Share("a", 6000), Share("b", 4000)] && Sum([6000, 4000]) == 10000
  {
    var shares: seq<nat> := [6000, 4000];
    assert ["a", "b"][..1] == ["a"] && shares[..1] == [6000] && ["a"][..0] == [] && shares[..1][..0] == [];
  }

  /** Who owns it all when nobody is said to: the scope's member if it is one, else the first. */
  lemma ScopeMemberIs(members: seq<string>, id: string)
    requires members != []
    ensures id in members ==> ScopeMember(members, Some(id)) == id
    ensures id !in members ==> ScopeMember(members, Some(id)) == members[0]
    ensures ScopeMember(members, None) == members[0]
  {
  }

  /** The presets, and a custom split of nothing. */
  lemma PresetsAre(
    members: seq<string>, scopeMemberId: Option<string>, customBps: map<string, real>, shortfall: Shortfall, shares: seq<nat>)
    requires members != [] && NearestAll(members, customBps, shares)
    ensures var owner := if scopeMemberId.Some? && scopeMemberId.value in members then scopeMemberId.value else members[0];
      && Resolved(members, scopeMemberId, Scope, customBps, shortfall) == [Share(owner, 10000)]
      && (Sum(shares) == 0 ==> Resolved(members, scopeMemberId, Custom, customBps, shortfall) == [Share(owner, 10000)])
      && (|members| == 1 ==> Resolved(members, scopeMemberId, Even, customBps, shortfall) == [Share(owner, 10000)])
    ensures var even := Resolved(members, scopeMemberId, Even, customBps, shortfall);
      |members| > 1 ==>
        (|even| == |members|
         && forall i, j :: 0 <= i < j < |members| ==>
              even[i].memberId == members[i] && even[j].memberId == members[j]
              && even[j].shareBps <= even[i].shareBps <= even[j].shareBps + 1)
  {
    SharesAreNearest(members, customBps, shares);
  }
}
