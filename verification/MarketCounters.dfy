/** The market's two running figures: how many bids an auction has, and the average block-time sample. */
module MarketCounters {
  import opened Prelude
  import opened MarketState
  import opened MarketTransactions
  import opened MarketInvariant
  import opened MarketPreservation
  import opened MarketLifecycle
  import Examples = MarketExamples
  import Vaults = ShieldedEscrowVault
  import Registries = ShieldedIdentityRegistry

  // ---- bids ----

  /** By how much the bid counter runs ahead of the two bidder lists. */
  function Excess(a: Auction): int {
    a.bidCount - |a.bidders| - |a.commitments|
  }

  /** The bid this call places replaces a handle that is the zero word, which the counter reads as no bid. */
  predicate ReplacesZero(a: Auction, c: Call) {
    || (c.Bid? && c.sender in a.bids && a.bids[c.sender] == 0)
    || (c.ShieldedBid? && c.commitment in a.shieldedBids && a.shieldedBids[c.commitment] == 0)
  }

  /** The counter runs ahead by one exactly when a bid replaces a zero handle, and no other call moves it. */
  lemma StepExcess(w: World, c: Call, id: nat)
    requires Inv(w) && Step(w, c).Committed? && w.Exists(id)
    ensures Step(w, c).value.Exists(id)
    ensures Excess(Step(w, c).value.At(id)) ==
            Excess(w.At(id)) + if Bids(c, id) && ReplacesZero(w.At(id), c) then 1 else 0
  {
    hide Inv;
    StepEvolves(w, c);
    if Bids(c, id) { BidExcess(w, c); }
  }

  lemma BidExcess(w: World, c: Call)
    requires (c.Bid? || c.ShieldedBid?) && Step(w, c).Committed? && w.Exists(c.id)
    ensures Step(w, c).value.Exists(c.id)
    ensures Excess(Step(w, c).value.At(c.id)) == Excess(w.At(c.id)) + if ReplacesZero(w.At(c.id), c) then 1 else 0
  {
    hide MeetsOpeningBid, Covers, Vaults.Spendable;
  }

  /** No stored handle is the zero word. */
  ghost predicate NoZeroHandles(a: Auction) {
    && (forall b :: b in a.bids ==> a.bids[b] != 0)
    && (forall c :: c in a.shieldedBids ==> a.shieldedBids[c] != 0)
  }

  ghost predicate Counted(w: World) {
    forall id :: w.Exists(id) ==> Excess(w.At(id)) == 0 && NoZeroHandles(w.At(id))
  }

  predicate ZeroBid(c: Call) {
    (c.Bid? || c.ShieldedBid?) && c.handle == 0
  }

  lemma StepKeepsCount(w: World, c: Call)
    requires Inv(w) && Counted(w) && Step(w, c).Committed? && !ZeroBid(c)
    ensures Counted(Step(w, c).value)
  {
    hide Inv, Step;
    var w' := Step(w, c).value;
    StepEvolves(w, c);
    forall id | w'.Exists(id) ensures Excess(w'.At(id)) == 0 && NoZeroHandles(w'.At(id)) {
      if w.Exists(id) {
        StepExcess(w, c, id);
        if Bids(c, id) { BidStored(w, c); }
      } else {
        CreatedEmpty(w, c, id);
      }
    }
  }

  lemma BidStored(w: World, c: Call)
    requires (c.Bid? || c.ShieldedBid?) && Step(w, c).Committed? && w.Exists(c.id)
    ensures var a, a' := w.At(c.id), Step(w, c).value.At(c.id);
            && a'.bids == (if c.Bid? then a.bids[c.sender := c.handle] else a.bids)
            && a'.shieldedBids == (if c.ShieldedBid? then a.shieldedBids[c.commitment := c.handle] else a.shieldedBids)
  {
    hide MeetsOpeningBid, Covers, Vaults.Spendable;
  }

  lemma CreatedEmpty(w: World, c: Call, id: nat)
    requires Inv(w) && Step(w, c).Committed? && !w.Exists(id) && Step(w, c).value.Exists(id)
    ensures Step(w, c).value.At(id).bidCount == 0
    ensures Step(w, c).value.At(id) == NewAuction(Step(w, c).value.At(id).terms)
  {
    hide Inv, Observe;
    if !c.Create? { StepEvolves(w, c); }
  }

  /** In a run whose bids all carry a handle other than zero, the counter is the number of listed bidders. */
  lemma {:induction false} RunCountsBids(w: World, calls: seq<Call>, id: nat)
    requires Inv(w) && Counted(w)
    requires forall c :: c in calls ==> !ZeroBid(c)
    ensures Counted(Run(w, calls))
    ensures Run(w, calls).Exists(id) ==>
              var a := Run(w, calls).At(id);
              && a.bidCount == |a.bidders| + |a.commitments|
              && |a.bidders| == |a.bids| && |a.commitments| == |a.shieldedBids|
    decreases |calls|
  {
    hide Inv, Step;
    RunKeepsInv(w, calls);
    if calls != [] {
      var n := |calls| - 1;
      RunKeepsInv(w, calls[..n]);
      RunCountsBids(w, calls[..n], id);
      if Step(Run(w, calls[..n]), calls[n]).Committed? { StepKeepsCount(Run(w, calls[..n]), calls[n]); }
    }
    if Run(w, calls).Exists(id) {
      ListsAreMaps(Run(w, calls), id);
    }
  }

  /** The k-th call of the run is committed and places a bid on the auction over a handle that is the zero word. */
  ghost predicate ReplacedAt(w: World, calls: seq<Call>, id: nat, k: nat)
    requires k < |calls|
  {
    var before := Run(w, calls[..k]);
    && before.Exists(id) && Bids(calls[k], id) && ReplacesZero(before.At(id), calls[k])
    && Step(before, calls[k]).Committed?
  }

  ghost function Replacements(w: World, calls: seq<Call>, id: nat): nat
    decreases |calls|
  {
    if calls == [] then 0 else
    var n := |calls| - 1;
    Replacements(w, calls[..n], id) + if ReplacedAt(w, calls, id, n) then 1 else 0
  }

  /** Over any run the counter runs ahead by the number of zero handles that were replaced. */
  lemma {:induction false} RunExcess(w: World, calls: seq<Call>, id: nat)
    requires Inv(w)
    ensures w.Exists(id) ==> Run(w, calls).Exists(id)
    ensures Run(w, calls).Exists(id) ==>
              Excess(Run(w, calls).At(id)) == (if w.Exists(id) then Excess(w.At(id)) else 0) + Replacements(w, calls, id)
    ensures !Run(w, calls).Exists(id) ==> Replacements(w, calls, id) == 0
    decreases |calls|
  {
    hide Inv, Step, Excess, ReplacesZero;
    if calls != [] {
      var n := |calls| - 1;
      var before := Run(w, calls[..n]);
      RunKeepsInv(w, calls[..n]);
      RunExcess(w, calls[..n], id);
      if Step(before, calls[n]).Committed? {
        StepEvolves(before, calls[n]);
        if before.Exists(id) { StepExcess(before, calls[n], id); }
        else if Step(before, calls[n]).value.Exists(id) { CreatedUncounted(before, calls[n], id); }
      }
    }
  }

  lemma CreatedUncounted(w: World, c: Call, id: nat)
    requires Inv(w) && Step(w, c).Committed? && !w.Exists(id) && Step(w, c).value.Exists(id)
    ensures Excess(Step(w, c).value.At(id)) == 0
  {
    hide Inv, Step;
    CreatedEmpty(w, c, id);
  }

  lemma {:induction false} NoneReplacedIff(w: World, calls: seq<Call>, id: nat)
    ensures Replacements(w, calls, id) == 0 <==> forall k: nat :: k < |calls| ==> !ReplacedAt(w, calls, id, k)
    decreases |calls|
  {
    hide ReplacedAt;
    if calls != [] {
      var n := |calls| - 1;
      NoneReplacedIff(w, calls[..n], id);
      forall k: nat | k < n ensures ReplacedAt(w, calls[..n], id, k) == ReplacedAt(w, calls, id, k) {
        SamePrefix(w, calls, id, k, n);
      }
    }
  }

  lemma SamePrefix(w: World, calls: seq<Call>, id: nat, k: nat, n: nat)
    requires k < n <= |calls|
    ensures ReplacedAt(w, calls[..n], id, k) == ReplacedAt(w, calls, id, k)
  {
    hide Step, Run, ReplacesZero;
    assert calls[..n][..k] == calls[..k];
  }

  /** In any run since deployment the counter of an auction is the number of its bidders, public and shielded,
      exactly when no committed bid replaced a zero handle. */
  lemma CountsBiddersIff(now: nat, adapter: Adapter, pot: Address, calls: seq<Call>, id: nat)
    requires pot != ZERO && Run(Genesis(now, adapter, pot), calls).Exists(id)
    ensures var a := Run(Genesis(now, adapter, pot), calls).At(id);
            a.bidCount == |a.bids| + |a.shieldedBids| <==>
            forall k: nat :: k < |calls| ==> !ReplacedAt(Genesis(now, adapter, pot), calls, id, k)
  {
    var g := Genesis(now, adapter, pot);
    GenesisInv(now, adapter, pot);
    hide Inv, Run, ReplacedAt;
    RunKeepsInv(g, calls);
    RunExcess(g, calls, id);
    NoneReplacedIff(g, calls, id);
    ListsAreMaps(Run(g, calls), id);
  }

  lemma ListsAreMaps(w: World, id: nat)
    requires Inv(w) && w.Exists(id)
    ensures var a := w.At(id); |a.bidders| == |a.bids| && |a.commitments| == |a.shieldedBids|
  {
    hide Custody, Platform, Clocked, DepsOk, Lifecycle, EscrowOk, SideOk;
    var a := w.At(id);
    assert AuctionOk(a, SideOf(w, id));
    DistinctCount(a.bidders);
    DistinctCount(a.commitments);
    assert |a.bids| == |a.bids.Keys| && |a.shieldedBids| == |a.shieldedBids.Keys|;
  }

  /** A shielded zero bid that the market takes once, it takes twice, and counts twice. */
  lemma ZeroBidCountsAgain(w: World, id: nat, commitment: Word, deadline: nat, covered: bool)
    requires PlaceShieldedBid(w, id, commitment, 0, deadline, covered).Committed?
    ensures var w1 := PlaceShieldedBid(w, id, commitment, 0, deadline, covered).value;
            var again := PlaceShieldedBid(w1, id, commitment, 0, deadline, covered);
            && w1.Exists(id) && again.Committed? && again.value.Exists(id)
            && again.value.At(id).commitments == w1.At(id).commitments
            && again.value.At(id).bidCount == w1.At(id).bidCount + 1
  {}

  /** It does happen: one shielded bidder locks five wei in an auction without an opening price and bids the zero word
      twice; the verifier takes the zero word for an amount of zero. */
  lemma ZeroHandleCountsTwice()
    ensures var zero := ShieldedBid(1, Examples.COMMITMENT, 0, Examples.START, true);
            var w := Run(Examples.Genesis0(), Examples.LockedCalls() + [zero] + [zero]);
            && w.Exists(1) && w.At(1).bidCount == 2
            && w.At(1).commitments == [Examples.COMMITMENT] && w.At(1).bidders == []
  {
    var zero := ShieldedBid(1, Examples.COMMITMENT, 0, Examples.START, true);
    var w0 := Examples.Locked();
    FirstZeroBid(zero);
    var w1 := Step(w0, zero).value;
    ZeroBidCountsAgain(w0, 1, Examples.COMMITMENT, Examples.START, true);
    SameStep(w0, zero);
    SameStep(w1, zero);
    hide Step, PlaceShieldedBid, Examples.Locked;
    Examples.LockedRuns();
    Examples.Then(Examples.LockedCalls(), w0, zero);
    Examples.Then(Examples.LockedCalls() + [zero], w1, zero);
    SameBidders(w1, zero);
  }

  lemma FirstZeroBid(zero: Call)
    requires zero == ShieldedBid(1, Examples.COMMITMENT, 0, Examples.START, true)
    ensures Step(Examples.Locked(), zero).Committed?
    ensures var w := Step(Examples.Locked(), zero).value;
            w.Exists(1) && w.At(1).bidCount == 1 && w.At(1).commitments == [Examples.COMMITMENT] && w.At(1).bidders == []
  {}

  lemma SameStep(w: World, c: Call)
    requires c.ShieldedBid?
    ensures Step(w, c) == PlaceShieldedBid(w, c.id, c.commitment, c.handle, c.deadline, c.covered)
  {}

  lemma SameBidders(w: World, c: Call)
    requires c.ShieldedBid? && Step(w, c).Committed?
    ensures w.Exists(c.id) && Step(w, c).value.Exists(c.id) && Step(w, c).value.At(c.id).bidders == w.At(c.id).bidders
  {
    hide MeetsOpeningBid, Vaults.Spendable;
  }

  // ---- the moving average ----

  /** The block-time sample an observation accepts. */
  function Sample(n: Network, now: nat): Option<nat> {
    if n.lastObservation < 1 || now <= n.lastObservation || now - n.lastObservation > NETWORK_SAMPLE_CEILING then None
    else Some(now - n.lastObservation)
  }

  /** One observation: a sample from 1 to 600 seconds since the last one moves the average one eighth of the way, rounded
      down, so it rises only by a sample at least 8 seconds above it and falls with any sample below it. Anything else
      leaves the average, and the clock is noted unless it stood still. */
  lemma AverageMoves(n: Network, now: nat)
    ensures var s := now - n.lastObservation;
            var after := Observe(n, now);
            var sampled := n.lastObservation > 0 && 1 <= s <= 600;
            && (sampled ==> after.lastObservation == now)
            && (sampled && n.movingAverage == 0 ==> after.movingAverage == s)
            && (sampled && n.movingAverage > 0 ==>
                  && 8 * after.movingAverage <= 7 * n.movingAverage + s < 8 * after.movingAverage + 8
                  && (after.movingAverage > n.movingAverage <==> s >= n.movingAverage + 8)
                  && (after.movingAverage < n.movingAverage <==> s < n.movingAverage))
            && (!sampled ==> after.movingAverage == n.movingAverage)
            && (!sampled && (n.lastObservation == 0 || s > 600) ==> after.lastObservation == now)
            && (n.lastObservation > 0 && s <= 0 ==> after == n)
  {}

  function ObserveAll(n: Network, times: seq<nat>): Network {
    if times == [] then n else Observe(ObserveAll(n, times[..|times| - 1]), times[|times| - 1])
  }

  function Samples(n: Network, times: seq<nat>): seq<nat> {
    if times == [] then [] else
    var before := times[..|times| - 1];
    match Sample(ObserveAll(n, before), times[|times| - 1])
    case None => Samples(n, before)
    case Some(s) => Samples(n, before) + [s]
  }

  /** Once a sample has been accepted the average stays between the smallest and the largest of them,
      whatever happens in between, and every sample is from 1 to 600 seconds. */
  lemma {:induction false} AverageWithinSamples(n: Network, times: seq<nat>, low: nat, high: nat)
    requires n.movingAverage == 0
    requires forall s :: s in Samples(n, times) ==> low <= s <= high
    ensures forall s :: s in Samples(n, times) ==> 1 <= s <= NETWORK_SAMPLE_CEILING
    ensures ObserveAll(n, times).movingAverage == 0 <==> Samples(n, times) == []
    ensures Samples(n, times) != [] ==> low <= ObserveAll(n, times).movingAverage <= high
    decreases |times|
  {
    if times != [] {
      var before := times[..|times| - 1];
      forall s | s in Samples(n, before) ensures s in Samples(n, times) {}
      AverageWithinSamples(n, before, low, high);
      var seen := ObserveAll(n, before);
      var s := Sample(seen, times[|times| - 1]);
      if s.Some? {
        assert Samples(n, times)[|Samples(n, before)|] == s.value;
        assert s.value in Samples(n, times);
        assert ObserveAll(n, times).movingAverage ==
               if seen.movingAverage < 1 then s.value else (seen.movingAverage * 7 + s.value) / 8;
      }
    }
  }

  /** When the committed calls of a run observed the clock. */
  ghost function Times(w: World, calls: seq<Call>): seq<nat>
    decreases |calls|
  {
    if calls == [] then [] else
    var n := |calls| - 1;
    var before, after := Run(w, calls[..n]), Run(w, calls);
    Times(w, calls[..n]) + if after.network == before.network then [] else [before.now]
  }

  lemma StepObserves(w: World, c: Call)
    requires Inv(w) && Step(w, c).Committed?
    ensures Step(w, c).value.network in {w.network, Observe(w.network, w.now)}
  {
    hide Inv, Step, Observe;
    StepEvolves(w, c);
  }

  /** The average of any run of the market is the average of the times it observed. */
  lemma {:induction false} RunAverages(w: World, calls: seq<Call>)
    requires Inv(w)
    ensures Run(w, calls).network == ObserveAll(w.network, Times(w, calls))
    decreases |calls|
  {
    hide Inv, Step, Observe;
    if calls != [] {
      var n := |calls| - 1;
      RunKeepsInv(w, calls[..n]);
      RunAverages(w, calls[..n]);
      var before := Run(w, calls[..n]);
      if Step(before, calls[n]).Committed? { StepObserves(before, calls[n]); }
      var times := Times(w, calls);
      if Run(w, calls).network != before.network {
        assert Run(w, calls).network == Observe(before.network, before.now);
        assert times == Times(w, calls[..n]) + [before.now];
        assert times[..|times| - 1] == Times(w, calls[..n]);
        assert ObserveAll(w.network, times) == Observe(before.network, before.now);
      } else {
        assert times == Times(w, calls[..n]);
      }
    }
  }
}
