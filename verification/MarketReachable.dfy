/** What the invariants say of the market as anyone can find it: after any calls, by anyone, since its deployment. */
module MarketReachable {
  import opened Prelude
  import opened MarketState
  import opened MarketTransactions
  import opened MarketInvariant
  import opened MarketPreservation
  import opened MarketLifecycle

  ghost function Reached(now: nat, adapter: Adapter, pot: Address, calls: seq<Call>): (w: World)
    requires pot != ZERO
    ensures Inv(w)
  {
    GenesisInv(now, adapter, pot);
    RunKeepsInv(Genesis(now, adapter, pot), calls);
    Run(Genesis(now, adapter, pot), calls)
  }

  /** Every stored public bid of a live auction decodes to an amount between the starting price and its bidder's
      present escrow, across top-ups, rebids and changes of the global adapter. */
  lemma BidsStayCovered(now: nat, adapter: Adapter, pot: Address, calls: seq<Call>, id: nat, bidder: Address)
    requires pot != ZERO
    ensures var w := Reached(now, adapter, pot, calls);
            w.Exists(id) && w.At(id).Live() && bidder in w.At(id).bids ==>
              var bid := w.At(id).terms.deps.adapter.Decode(w.At(id).bids[bidder]);
              bid.Some? && w.At(id).terms.startingPrice <= bid.value <= Get(w.At(id).escrow, bidder)
  {
    var w := Reached(now, adapter, pot, calls);
    if w.Exists(id) && w.At(id).Live() && bidder in w.At(id).bids {
      assert AuctionOk(w.At(id), SideOf(w, id));
      assert BidCovered(w.At(id), bidder);
    }
  }

  /** The market owns the token of every auction that has not given it away, and no two of them share one. */
  lemma TokensAreInCustody(now: nat, adapter: Adapter, pot: Address, calls: seq<Call>, i: nat, j: nat)
    requires pot != ZERO
    ensures var w := Reached(now, adapter, pot, calls);
            && (w.Exists(i) && w.At(i).HoldsToken() ==> w.At(i).Token() in w.owners && w.owners[w.At(i).Token()] == MARKET)
            && (w.Exists(i) && w.Exists(j) && w.At(i).HoldsToken() && w.At(j).HoldsToken() && w.At(i).Token() == w.At(j).Token() ==>
                  i == j)
  {
    var w := Reached(now, adapter, pot, calls);
    assert Custody(w);
  }

  /** A request is pending exactly while the auction resolves; a keeper is on record exactly from then on, unless the
      auction was cancelled; before it is over nobody has been paid and no outcome is recorded. */
  lemma RecordsFollowState(now: nat, adapter: Adapter, pot: Address, calls: seq<Call>, id: nat)
    requires pot != ZERO
    ensures var w := Reached(now, adapter, pot, calls);
            w.Exists(id) ==>
              var a := w.At(id);
              && (a.request.Some? <==> a.state == Resolving)
              && (a.keeper.Some? <==> a.state == Resolving || a.state == Finalized || a.state == Voided)
              && (a.outcome != NO_OUTCOME ==> a.state == Finalized)
              && (a.sellerClaimed || a.withdrawn != {} || a.settledRefunds != {} ==> a.Terminal())
              && (a.assetClaimed ==> a.state == Finalized)
  {
    var w := Reached(now, adapter, pot, calls);
    if w.Exists(id) { assert AuctionOk(w.At(id), SideOf(w, id)); }
  }

  /** A token leaves at most once: an auction that has given its token away never holds it again. */
  lemma {:induction false} TokenLeavesOnce(w: World, calls: seq<Call>, id: nat)
    requires Inv(w) && w.Exists(id) && !w.At(id).HoldsToken()
    ensures Run(w, calls).Exists(id) && !Run(w, calls).At(id).HoldsToken()
    decreases |calls|
  {
    hide Inv, Step;
    CreatedNever(w, id);
    if calls != [] {
      var n := |calls| - 1;
      var before := Run(w, calls[..n]);
      RunKeepsInv(w, calls[..n]);
      TokenLeavesOnce(w, calls[..n], id);
      CreatedNever(before, id);
      if Step(before, calls[n]).Committed? {
        StepEvolves(before, calls[n]);
        assert Evolves(before.At(id), Step(before, calls[n]).value.At(id));
      }
    }
  }
}
