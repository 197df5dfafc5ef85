/** How one auction may change: along the state diagram only, with everything fixed that is supposed to be. */
module MarketLifecycle {
  import opened Prelude
  import opened MarketState
  import opened MarketTransactions
  import opened MarketInvariant
  import opened MarketPreservation
  import opened MarketSolvency
  import Vaults = ShieldedEscrowVault
  import Avss = EigenLayerAvs
  import Registries = ShieldedIdentityRegistry

  /** The five edges of the state diagram. */
  predicate Edge(s: AuctionState, t: AuctionState) {
    || (s == Created && t == Active)
    || (s == Active && (t == Resolving || t == Cancelled))
    || (s == Resolving && (t == Finalized || t == Voided))
  }

  /** One committed call: the terms and the dependency snapshot never change; bids and escrow change only while
      the auction is active, and not at all while it is resolving; a terminal auction keeps its outcome, its
      slash and its keeper, and only claims flags and claimed escrow rows move. */
  ghost predicate Evolves(a: Auction, a': Auction) {
    && a'.terms == a.terms
    && (a'.state == a.state || Edge(a.state, a'.state))
    && (a'.state == a.state == Resolving ==> a' == a)
    && (a.state != Active ==>
          SameBids(a, a') && a'.totalEscrow == a.totalEscrow && a'.resolvingSince == a.resolvingSince)
    && (a.Terminal() ==> a'.outcome == a.outcome && a'.slash == a.slash && a'.request == a.request)
    && (a.keeper.Some? ==> a'.keeper.Some? && a'.keeper.value == a.keeper.value.(claimed := a'.keeper.value.claimed))
    && (a.sellerClaimed ==> a'.sellerClaimed) && (a.assetClaimed ==> a'.assetClaimed) && a.withdrawn <= a'.withdrawn
  }

  /** The call that takes an auction from one state to the next. */
  predicate Moves(c: Call, id: nat, t: AuctionState) {
    match t
    case Resolving => c.Trigger? && c.id == id
    case Cancelled => c.Cancel? && c.id == id
    case Voided => c.Void? && c.id == id
    case Finalized => (c.Resolve? && c.id == id) || (c.ResolveShielded? && c.id == id)
    case _ => false
  }

  /** The bids of an auction and everything that counts them. */
  ghost predicate SameBids(a: Auction, a': Auction) {
    && a'.bids == a.bids && a'.bidders == a.bidders && a'.shieldedBids == a.shieldedBids
    && a'.commitments == a.commitments && a'.bidCount == a.bidCount
  }

  predicate Bids(c: Call, id: nat) {
    (c.Bid? || c.ShieldedBid?) && c.id == id
  }

  /** Only a creation adds an auction, and a call observes the clock or leaves the network figures alone. */
  ghost predicate Surroundings(w: World, w': World, c: Call) {
    && |w.auctions| <= |w'.auctions| && (c.Create? || |w'.auctions| == |w.auctions|)
    && (w'.network == w.network || w'.network == Observe(w.network, w.now))
  }

  ghost predicate Evolution(w: World, w': World, c: Call) {
    && Surroundings(w, w', c)
    && (forall id :: w.Exists(id) ==>
          && Evolves(w.At(id), w'.At(id))
          && (Bids(c, id) || SameBids(w.At(id), w'.At(id)))
          && (w'.At(id).state == w.At(id).state || Moves(c, id, w'.At(id).state)))
  }

  /** A change of one auction, seen from all of them. */
  lemma OneEvolves(w: World, w': World, c: Call, id: nat)
    requires w.Exists(id) && |w'.auctions| == |w.auctions| && Surroundings(w, w', c) && Evolves(w.At(id), w'.At(id))
    requires w'.At(id).state == w.At(id).state || Moves(c, id, w'.At(id).state)
    requires Bids(c, id) || SameBids(w.At(id), w'.At(id))
    requires forall j :: w.Exists(j) && j != id ==> w'.At(j) == w.At(j)
    ensures Evolution(w, w', c)
  {
    forall j | w.Exists(j) && j != id ensures Evolves(w.At(j), w'.At(j)) {
      SameEvolves(w.At(j));
    }
  }

  lemma SameEvolves(a: Auction)
    ensures Evolves(a, a)
  {}

  lemma UntouchedEvolves(w: World, w': World, c: Call)
    requires Surroundings(w, w', c) && w'.auctions[..|w.auctions|] == w.auctions
    ensures Evolution(w, w', c)
  {
    forall id | w.Exists(id) ensures Evolves(w.At(id), w'.At(id)) && w'.At(id) == w.At(id) {
      assert w'.auctions[..|w.auctions|][id - 1] == w'.At(id);
      SameEvolves(w.At(id));
    }
  }

  lemma LiveCallEvolves(w: World, c: Call)
    requires Inv(w) && Step(w, c).Committed?
    requires c.Escrow? || c.Bid? || c.ShieldedBid? || c.Trigger?
    ensures Evolution(w, Step(w, c).value, c)
  {
    hide Custody, Platform, Clocked, DepsOk, EscrowOk, BidsOk, SideOk, MeetsOpeningBid, Covers, NextRequestId,
      Vaults.Spendable, Observe, Evolution, SideOf;
    assert AuctionOk(w.At(c.id), SideOf(w, c.id));
    OneEvolves(w, Step(w, c).value, c, c.id);
  }

  lemma RefundEvolves(w: World, c: Call)
    requires c.Refund? && Step(w, c).Committed?
    ensures Evolution(w, Step(w, c).value, c)
  {
    hide ClaimRefund, VaultRow, PotRow, PotClaims, Evolution;
    RefundRows(w, c.sender, c.id, c.accepts);
    OneEvolves(w, Step(w, c).value, c, c.id);
  }

  lemma ClaimCallEvolves(w: World, c: Call)
    requires Step(w, c).Committed?
    requires c.Proceeds? || c.Reward? || c.Asset? || c.ShieldedAsset?
    ensures Evolution(w, Step(w, c).value, c)
  {
    hide Vaults.AuthorizeAsset, ResolveCommitment, Evolution;
    OneEvolves(w, Step(w, c).value, c, c.id);
  }

  lemma ResolveEvolves(w: World, c: Call)
    requires (c.Resolve? || c.ResolveShielded?) && Step(w, c).Committed?
    ensures Evolution(w, Step(w, c).value, c)
  {
    hide Observe, SubmitResolution, SubmitShieldedResolution, Evolution;
    if c.Resolve? {
      ResolutionShape(w, c.id, c.winner, c.ciphertext, c.amount, c.proof);
    } else {
      ShieldedResolutionShape(w, c.id, c.identity, c.ciphertext, c.amount, c.proof);
    }
    OneEvolves(w, Step(w, c).value, c, c.id);
  }

  lemma CloseObserves(w: World, id: nat, next: AuctionState, slash: nat, takes: bool)
    requires w.Exists(id) && Close(w, id, next, slash, takes).Committed?
    ensures Close(w, id, next, slash, takes).value.network == Observe(w.network, w.now)
  {
    hide Observe, RegisterSlash, OpenRefunds;
    var closing := Closing(w, id, next, slash);
    SlashLeavesNetwork(closing, id, slash);
    OpenRefundsLeavesNetwork(RegisterSlash(closing, id, slash).value, id);
  }

  lemma SlashLeavesNetwork(w: World, id: nat, slash: nat)
    requires w.Exists(id) && RegisterSlash(w, id, slash).Committed?
    ensures RegisterSlash(w, id, slash).value.network == w.network
    ensures RegisterSlash(w, id, slash).value.auctions == w.auctions
  {
    hide Vaults.AllocateSlash;
  }

  lemma OpenRefundsLeavesNetwork(w: World, id: nat)
    requires w.Exists(id)
    ensures OpenRefunds(w, id).network == w.network
  {}

  lemma CloseEvolves(w: World, c: Call, next: AuctionState, slash: nat, takes: bool)
    requires Inv(w) && ((c.Cancel? && next == Cancelled) || (c.Void? && next == Voided))
    requires w.Exists(c.id) && ClosingSlash(w.At(c.id), SideOf(w, c.id), next, slash)
    requires Close(w, c.id, next, slash, takes).Committed?
    ensures Evolution(w, Close(w, c.id, next, slash, takes).value, c)
  {
    hide Inv, Close, SlashedSide, VaultRow, PotRow, PotClaims, Evolution;
    CloseKeepsInv(w, c.id, next, slash, takes);
    CloseObserves(w, c.id, next, slash, takes);
    OneEvolves(w, Close(w, c.id, next, slash, takes).value, c, c.id);
  }

  lemma ClosingCallEvolves(w: World, c: Call)
    requires Inv(w) && (c.Cancel? || c.Void?) && Step(w, c).Committed?
    ensures Evolution(w, Step(w, c).value, c)
  {
    hide Inv, Close, ComputeCancellationSlash, VoidSlash, Evolution, SideOf;
    if c.Cancel? {
      CancellationSlashFits(w, c.id);
      CloseEvolves(w, c, Cancelled, ComputeCancellationSlash(w, c.id), c.takes);
    } else {
      VoidSlashCloses(w, c.id);
      CloseEvolves(w, c, Voided, VoidSlash(w, c.id), c.takes);
    }
  }

  lemma CreateEvolves(w: World, c: Call)
    requires (c.Create? || c.ShieldedLock?) && Step(w, c).Committed?
    ensures Evolution(w, Step(w, c).value, c)
  {
    hide Registries.Bind, Vaults.Lock, Evolution;
    UntouchedEvolves(w, Step(w, c).value, c);
  }

  lemma ShieldedRefundEvolves(w: World, c: Call)
    requires c.ShieldedRefund? && Step(w, c).Committed?
    ensures Evolution(w, Step(w, c).value, c)
  {
    hide Vaults.Release, Evolution;
    OneEvolves(w, Step(w, c).value, c, w.vaults[c.vault].DepositAt(c.commitment).auctionId);
  }

  lemma BackgroundEvolves(w: World, c: Call)
    requires Inv(w) && Background(c) && Step(w, c).Committed?
    ensures Evolution(w, Step(w, c).value, c)
  {
    hide Step, Evolution, AuctionOk, TermsOk, Custody, QuietContracts;
    BackgroundIsQuiet(w, c);
    UntouchedEvolves(w, Step(w, c).value, c);
  }

  /** Every call, on every auction. */
  lemma StepEvolves(w: World, c: Call)
    requires Inv(w) && Step(w, c).Committed?
    ensures Evolution(w, Step(w, c).value, c)
  {
    hide Inv, Step, Evolution;
    if c.Escrow? || c.Bid? || c.ShieldedBid? || c.Trigger? { LiveCallEvolves(w, c); }
    else if c.Resolve? || c.ResolveShielded? { ResolveEvolves(w, c); }
    else if c.Cancel? || c.Void? { ClosingCallEvolves(w, c); }
    else if c.Refund? { RefundEvolves(w, c); }
    else if c.Proceeds? || c.Reward? || c.Asset? || c.ShieldedAsset? { ClaimCallEvolves(w, c); }
    else if c.ShieldedRefund? { ShieldedRefundEvolves(w, c); }
    else if c.Create? || c.ShieldedLock? { CreateEvolves(w, c); }
    else { BackgroundEvolves(w, c); }
  }

  // ---- whole runs ----

  /** What survives any number of calls. */
  ghost predicate Endures(a: Auction, a': Auction) {
    && a'.terms == a.terms
    && (a.Terminal() ==> a'.state == a.state && a'.outcome == a.outcome && a'.slash == a.slash)
    && (a.state != Active ==> a'.bids == a.bids && a'.shieldedBids == a.shieldedBids && a'.totalEscrow == a.totalEscrow)
    && (a.keeper.Some? ==> a'.keeper.Some? && a'.keeper.value == a.keeper.value.(claimed := a'.keeper.value.claimed))
    && Rank(a') <= Rank(a)
    && (Rank(a') == Rank(a) <==> a'.state == a.state)
  }

  /** How far an auction is from being over. */
  ghost function Rank(a: Auction): nat {
    match a.state
    case Created => 3
    case Active => 2
    case Resolving => 1
    case _ => 0
  }

  lemma EnduresOneMore(a: Auction, a1: Auction, a2: Auction)
    requires a.state != Created && Endures(a, a1) && Evolves(a1, a2)
    ensures Endures(a, a2)
  {}

  /** Whatever happens, an auction keeps its terms and snapshot, moves only towards its end, and once over keeps
      its outcome, its slash and its keeper for good. */
  lemma {:induction false} RunEndures(w: World, calls: seq<Call>, id: nat)
    requires Inv(w) && w.Exists(id)
    ensures Run(w, calls).Exists(id) && Endures(w.At(id), Run(w, calls).At(id))
    decreases |calls|
  {
    hide Inv, Step, Evolves, Endures;
    CreatedNever(w, id);
    if calls == [] {
      EnduresSelf(w.At(id));
    } else {
      var n := |calls| - 1;
      var before := Run(w, calls[..n]);
      RunKeepsInv(w, calls[..n]);
      RunEndures(w, calls[..n], id);
      if Step(before, calls[n]).Committed? {
        StepEvolves(before, calls[n]);
        EnduresOneMore(w.At(id), before.At(id), Step(before, calls[n]).value.At(id));
      }
    }
  }

  lemma EnduresSelf(a: Auction)
    ensures Endures(a, a)
  {}

  lemma CreatedNever(w: World, id: nat)
    requires Inv(w) && w.Exists(id)
    ensures w.At(id).state != Created
  {
    assert AuctionOk(w.At(id), SideOf(w, id));
  }
}
