/** What bids and requests write, and what they stand for over whole runs. */
module BidEffects {
  import opened Prelude
  import opened CiphertextEncoding
  import opened MarketState
  import opened MarketTransactions
  import opened MarketInvariant
  import opened MarketPreservation
  import opened MarketLifecycle
  import opened MarketEffects
  import Counters = MarketCounters
  import Vaults = ShieldedEscrowVault
  import Avss = EigenLayerAvs
  import Registries = ShieldedIdentityRegistry

  // ---- when a bid is taken ----

  lemma BidCommitsIff(w: World, c: Call)
    requires c.Bid?
    ensures Step(w, c).Committed? <==>
            && w.Exists(c.id) && w.At(c.id).state == Active && w.now < w.At(c.id).terms.endTime
            && var v := w.At(c.id).terms.deps.adapter.Decode(c.handle);
               var escrow := Get(w.At(c.id).escrow, c.sender);
               escrow > 0 && v.Some? && w.At(c.id).terms.startingPrice <= v.value <= escrow
  {
    hide DecodeNumeric;
  }

  /** A shielded bid is taken exactly for an unspent commitment of the auction, covered by the external verifier, in time,
      and reaching the opening price when there is one. */
  lemma ShieldedBidCommitsIff(w: World, c: Call)
    requires Inv(w) && c.ShieldedBid?
    ensures Step(w, c).Committed? <==>
            && w.Exists(c.id) && w.At(c.id).state == Active && w.now < w.At(c.id).terms.endTime && w.now <= c.deadline
            && c.covered && c.commitment != 0 && w.At(c.id).terms.deps.vault in w.vaults
            && var d := w.vaults[w.At(c.id).terms.deps.vault].DepositAt(c.commitment);
               var v := w.At(c.id).terms.deps.adapter.Decode(c.handle);
               && d.auctionId == c.id && d.amount > 0 && !d.claimed
               && (w.At(c.id).terms.startingPrice == 0 || (v.Some? && v.value >= w.At(c.id).terms.startingPrice))
  {
    hide DecodeNumeric, Inv;
    if w.Exists(c.id) && w.At(c.id).state == Active && w.At(c.id).terms.deps.vault in w.vaults { ActiveIsLocked(w, c.id); }
  }

  lemma ActiveIsLocked(w: World, id: nat)
    requires Inv(w) && w.Exists(id) && w.At(id).state == Active && w.At(id).terms.deps.vault in w.vaults
    ensures !w.vaults[w.At(id).terms.deps.vault].BookAt(id).unlocked
  {
    assert AuctionOk(w.At(id), SideOf(w, id));
  }

  /** A commitment is locked exactly in an open auction with both contracts, with value and an authority, when the vault
      holds nothing under it that was not claimed, and when neither it nor the identity has another partner there. */
  lemma LockCommitsIff(w: World, c: Call)
    requires c.ShieldedLock?
    ensures Step(w, c).Committed? <==>
            && w.Exists(c.id) && w.At(c.id).state == Active && w.now < w.At(c.id).terms.endTime
            && c.value > 0 && c.identity != 0 && c.commitment != 0 && c.authority != ZERO
            && w.At(c.id).terms.deps.vault in w.vaults && w.At(c.id).terms.deps.registry in w.registries
            && var d := w.vaults[w.At(c.id).terms.deps.vault].DepositAt(c.commitment);
               var r := w.registries[w.At(c.id).terms.deps.registry];
               && d.amount == 0 && !d.claimed
               && r.CommitmentFor(c.id, c.identity) in {0, c.commitment}
               && r.IdentityFor(c.id, c.commitment) in {0, c.identity}
  {}

  // ---- stored bids are last bids ----

  /** Where a bid is stored: under an account, or under a commitment. */
  datatype Slot = Account(account: Address) | Commitment(commitment: Word)

  function StoredIn(a: Auction, slot: Slot): Option<Word> {
    match slot
    case Account(b) => if b in a.bids then Some(a.bids[b]) else None
    case Commitment(c) => if c in a.shieldedBids then Some(a.shieldedBids[c]) else None
  }

  predicate Fills(c: Call, id: nat, slot: Slot) {
    match slot
    case Account(b) => c.Bid? && c.id == id && c.sender == b
    case Commitment(h) => c.ShieldedBid? && c.id == id && c.commitment == h
  }

  /** The handle of the last committed bid of a run for this slot. */
  ghost function LastHandle(w: World, calls: seq<Call>, id: nat, slot: Slot): Option<Word>
    decreases |calls|
  {
    if calls == [] then None else
    var n := |calls| - 1;
    if Fills(calls[n], id, slot) && Step(Run(w, calls[..n]), calls[n]).Committed? then Some(calls[n].handle)
    else LastHandle(w, calls[..n], id, slot)
  }

  lemma StepStores(w: World, c: Call, id: nat, slot: Slot)
    requires Inv(w) && w.Exists(id) && Step(w, c).Committed?
    ensures Step(w, c).value.Exists(id)
    ensures StoredIn(Step(w, c).value.At(id), slot) == if Fills(c, id, slot) then Some(c.handle) else StoredIn(w.At(id), slot)
  {
    hide Inv, Step, Evolves;
    StepEvolves(w, c);
    if Bids(c, id) { Counters.BidStored(w, c); }
  }

  /** Over any run the handle stored for an account or a commitment is that of its last committed bid, and there is none
      exactly when it never had a bid committed. */
  lemma {:induction false} StoredIsLast(w: World, calls: seq<Call>, id: nat, slot: Slot)
    requires Inv(w) && !w.Exists(id)
    ensures if Run(w, calls).Exists(id) then StoredIn(Run(w, calls).At(id), slot) == LastHandle(w, calls, id, slot)
            else LastHandle(w, calls, id, slot) == None
    decreases |calls|
  {
    hide Inv, Step, StoredIn, Fills, Opens;
    if calls != [] {
      var n := |calls| - 1;
      var before, c := Run(w, calls[..n]), calls[n];
      RunKeepsInv(w, calls[..n]);
      StoredIsLast(w, calls[..n], id, slot);
      if Step(before, c).Committed? {
        StepEvolves(before, c);
        if before.Exists(id) {
          StepStores(before, c, id, slot);
        } else {
          FillsExisting(before, c, id, slot);
          if Step(before, c).value.Exists(id) { NothingStored(before, c, id, slot); }
        }
      }
    }
  }

  lemma FillsExisting(w: World, c: Call, id: nat, slot: Slot)
    requires Step(w, c).Committed? && !w.Exists(id)
    ensures !Fills(c, id, slot)
  {
    hide MeetsOpeningBid, Covers, Vaults.Spendable;
  }

  lemma NothingStored(w: World, c: Call, id: nat, slot: Slot)
    requires Inv(w) && Step(w, c).Committed? && !w.Exists(id) && Step(w, c).value.Exists(id)
    ensures StoredIn(Step(w, c).value.At(id), slot) == None
  {
    hide Inv, Step;
    NewIsCreated(w, c, id);
  }

  /** The two lists are in the order of first bids: a bidder joins at the end, with its first bid only. */
  lemma ListsGrow(w: World, c: Call, id: nat)
    requires Inv(w) && w.Exists(id) && Step(w, c).Committed?
    ensures Step(w, c).value.Exists(id)
    ensures var a, a' := w.At(id), Step(w, c).value.At(id);
            && a'.bidders == (if c.Bid? && c.id == id && c.sender !in a.bids then a.bidders + [c.sender] else a.bidders)
            && a'.commitments ==
               (if c.ShieldedBid? && c.id == id && c.commitment !in a.shieldedBids then a.commitments + [c.commitment] else a.commitments)
  {
    hide Inv, Evolves;
    StepEvolves(w, c);
    if Bids(c, id) { BidLists(w, c); }
  }

  lemma BidLists(w: World, c: Call)
    requires (c.Bid? || c.ShieldedBid?) && Step(w, c).Committed?
    ensures w.Exists(c.id) && Step(w, c).value.Exists(c.id)
    ensures var a, a' := w.At(c.id), Step(w, c).value.At(c.id);
            && a'.bidders == (if c.Bid? && c.sender !in a.bids then a.bidders + [c.sender] else a.bidders)
            && a'.commitments == (if c.ShieldedBid? && c.commitment !in a.shieldedBids then a.commitments + [c.commitment] else a.commitments)
  {
    hide MeetsOpeningBid, Covers, Vaults.Spendable;
  }

  // ---- requests ----

  /** A pending request is about this auction of this market, with its final bid count and end, made when it was
      triggered; its reward is 20 basis points of the deposit, reserved for whoever triggered it. */
  ghost predicate Named(a: Auction, id: nat) {
    a.request.Some? ==>
      && a.keeper.Some? && a.keeper.value.nonce == 1
      && a.keeper.value.reward == a.terms.deposit * 20 / 10_000
      && a.request.value.requestedAt == a.resolvingSince
      && match a.request.value.requestId {
           case EngineRequest(engine, market, auctionId, bidCount, endTime, nonce, salt) =>
             && engine == a.terms.deps.engine != ZERO && market == MARKET && auctionId == id
             && bidCount == a.bidCount && endTime == a.terms.endTime && nonce == 1 && salt == a.keeper.value.salt
           case LocalRequest(market, auctionId, bidCount, endTime, nonce, salt) =>
             && a.terms.deps.engine == ZERO && market == MARKET && auctionId == id
             && bidCount == a.bidCount && endTime == a.terms.endTime && nonce == 1 && salt == a.keeper.value.salt
         }
  }

  lemma TriggerNames(w: World, c: Call)
    requires Inv(w) && c.Trigger? && Step(w, c).Committed?
    ensures w.Exists(c.id) && Step(w, c).value.Exists(c.id) && Named(Step(w, c).value.At(c.id), c.id)
  {
    assert AuctionOk(w.At(c.id), SideOf(w, c.id));
  }

  lemma StepKeepsNames(w: World, c: Call, id: nat)
    requires Inv(w) && w.Exists(id) && Named(w.At(id), id) && Step(w, c).Committed?
    ensures Step(w, c).value.Exists(id) && Named(Step(w, c).value.At(id), id)
  {
    hide Inv, Step, Named;
    StepEvolves(w, c);
    StepKeepsInv(w, c);
    var a, a' := w.At(id), Step(w, c).value.At(id);
    assert Evolves(a, a');
    RequestIsPending(w, id);
    RequestIsPending(Step(w, c).value, id);
    if a'.request.Some? {
      if a.state != Resolving { TriggerNames(w, c); }
    } else {
      NoRequestNamed(a', id);
    }
  }

  lemma NoRequestNamed(a: Auction, id: nat)
    requires a.request.None?
    ensures Named(a, id)
  {}

  lemma RequestIsPending(w: World, id: nat)
    requires Inv(w) && w.Exists(id)
    ensures w.At(id).request.Some? <==> w.At(id).state == Resolving
  {
    assert AuctionOk(w.At(id), SideOf(w, id));
  }

  predicate SharesRequest(w: World, i: nat, j: nat) {
    && w.Exists(i) && w.Exists(j) && w.At(i).request.Some? && w.At(j).request.Some?
    && w.At(i).request.value.requestId == w.At(j).request.value.requestId
  }

  /** In every reachable state pending requests name their own auctions; so no two auctions share one, and no proof for
      one auction's request is about another. */
  lemma {:induction false} RequestsNameAuctions(now: nat, adapter: Adapter, pot: Address, calls: seq<Call>)
    requires pot != ZERO
    ensures var w := Run(Genesis(now, adapter, pot), calls);
            && (forall id: nat :: w.Exists(id) ==> Named(w.At(id), id))
            && (forall i: nat, j: nat :: SharesRequest(w, i, j) ==> i == j)
    decreases |calls|
  {
    hide Inv, Step;
    var g := Genesis(now, adapter, pot);
    GenesisInv(now, adapter, pot);
    if calls != [] {
      hide Named, Genesis;
      var n := |calls| - 1;
      var before, c := Run(g, calls[..n]), calls[n];
      RequestsNameAuctions(now, adapter, pot, calls[..n]);
      RunKeepsInv(g, calls[..n]);
      if Step(before, c).Committed? {
        forall id: nat | Step(before, c).value.Exists(id) ensures Named(Step(before, c).value.At(id), id) {
          if before.Exists(id) { StepKeepsNames(before, c, id); } else { NewIsNamed(before, c, id); }
        }
      }
    }
    DifferentNames(Run(g, calls));
  }

  lemma NewIsNamed(w: World, c: Call, id: nat)
    requires Inv(w) && Step(w, c).Committed? && !w.Exists(id) && Step(w, c).value.Exists(id)
    ensures Named(Step(w, c).value.At(id), id)
  {
    hide Inv, Step;
    NewIsCreated(w, c, id);
  }

  lemma DifferentNames(w: World)
    requires forall id: nat :: w.Exists(id) ==> Named(w.At(id), id)
    ensures forall i: nat, j: nat :: SharesRequest(w, i, j) ==> i == j
  {
    forall i: nat, j: nat | SharesRequest(w, i, j) ensures i == j {
      assert Named(w.At(i), i) && Named(w.At(j), j);
    }
  }
}
