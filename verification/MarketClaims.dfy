/** Pull payments: who is entitled to what in a terminal auction, and why the order of claims does not matter. */
module MarketClaims {
  import opened Prelude
  import opened Sums
  import opened SettlementEngine
  import opened MarketState
  import opened MarketTransactions
  import opened MarketInvariant
  import opened MarketPreservation
  import opened MarketSolvency
  import opened PotSolvency
  import opened MarketLifecycle
  import Vaults = ShieldedEscrowVault
  import Pots = SlashedPot
  import Avss = EigenLayerAvs
  import Registries = ShieldedIdentityRegistry

  /** The parties the market pays in one auction. */
  datatype Party = Bidder(account: Address) | Seller | Keeper

  /** What the market still owes a party of a terminal auction. */
  ghost function Due(a: Auction, p: Party): nat {
    match p
    case Bidder(b) => RefundDue(a, b)
    case Seller => SellerDue(a)
    case Keeper => RewardDue(a)
  }

  /** The call is this party's claim in this auction. */
  ghost predicate Claims(c: Call, id: nat, p: Party) {
    match p
    case Bidder(b) => c.Refund? && c.id == id && c.sender == b
    case Seller => c.Proceeds? && c.id == id
    case Keeper => c.Reward? && c.id == id
  }

  // ---- no enabled claim ever lacks funds ----

  lemma DueIsCovered(w: World, id: nat)
    requires Sound(w) && w.Exists(id)
    ensures Liability(w.At(id)) <= w.balance
    ensures w.At(id).Terminal() ==> forall b :: RefundDue(w.At(id), b) <= w.balance
  {
    hide Inv, PotsSolvent, Liability;
    TotalHas(Liabilities(w), id - 1);
    assert Liabilities(w)[id - 1] == Liability(w.At(id));
    if w.At(id).Terminal() {
      forall b ensures RefundDue(w.At(id), b) <= w.balance { BidderDueWithin(w, w.At(id), b); }
    }
  }

  lemma BidderDueWithin(w: World, a: Auction, b: Address)
    requires a.Terminal()
    ensures RefundDue(a, b) <= Liability(a)
  {
    SumHas(Refunds(a), b);
  }

  /** A bidder's claim commits exactly when there is something to refund that was not claimed before and the
      bidder takes the transfer; the pot never turns the compensation away. */
  lemma RefundCommitsIff(w: World, sender: Caller, id: nat, accepts: bool)
    requires Sound(w) && w.Exists(id)
    ensures ClaimRefund(w, sender, id, accepts).Committed? <==>
            sender !in w.At(id).withdrawn && EscrowRefund(w.At(id), sender) != 0 && accepts
  {
    hide PotsSolvent, Inv, TotalOwed;
    var a := w.At(id);
    if sender !in a.withdrawn && EscrowRefund(a, sender) != 0 {
      DueIsCovered(w, id);
      RefundIsWhole(w, id, sender);
      assert RefundDue(a, sender) == EscrowRefund(a, sender) <= w.balance;
      if PreviewCompensation(w, id, sender) != 0 { CompensationCovered(w, id, sender); }
    }
    RefundIsWhole(w, id, sender);
  }

  lemma CompensationCovered(w: World, id: nat, b: Address)
    requires Sound(w) && w.Exists(id) && b !in w.At(id).withdrawn && PreviewCompensation(w, id, b) != 0
    ensures var a := w.At(id);
            && a.terms.deps.pot in w.pots && EscrowRefund(a, b) == Get(a.escrow, b)
            && b !in w.pots[a.terms.deps.pot].Claimed(id)
            && Pots.PreviewClaim(w.pots[a.terms.deps.pot], id, Get(a.escrow, b)) <= w.pots[a.terms.deps.pot].balance
  {
    hide Custody, Platform, Clocked, BidsOk, EscrowOk, Vaults.Sound, TotalOwed, PotsSolvent;
    var a := w.At(id);
    var pot := a.terms.deps.pot;
    assert AuctionOk(a, SideOf(w, id));
    var entry := PotRow(w, pot, id);
    assert entry.Some?;
    SumHas(Shares(a.escrow, entry.value.totalEscrow, entry.value.totalSlash), b);
    SolventAt(w, pot);
    TotalHas(PotDues(w, pot), id - 1);
    assert PotDues(w, pot)[id - 1] == PotDue(w, pot, id);
  }

  lemma ProceedsCommitIff(w: World, sender: Caller, id: nat, accepts: bool)
    requires Sound(w) && w.Exists(id)
    ensures ClaimSellerProceeds(w, sender, id, accepts).Committed? <==>
            sender == w.At(id).terms.seller && SellerDue(w.At(id)) != 0 && accepts
  {
    hide PotsSolvent, Inv, TotalOwed, SellerPayout;
    DueIsCovered(w, id);
    if !w.At(id).sellerClaimed { PayoutIsDue(w, id); }
  }

  lemma RewardCommitsIff(w: World, sender: Caller, id: nat, accepts: bool)
    requires Sound(w) && w.Exists(id)
    ensures ClaimFinalizeReward(w, sender, id, accepts).Committed? <==>
            var k := w.At(id).keeper;
            && k.Some? && k.value.executor == sender && !k.value.claimed
            && (w.At(id).state == Finalized || w.At(id).state == Voided)
            && (k.value.reward == 0 || accepts)
  {
    hide PotsSolvent, Inv, TotalOwed;
    DueIsCovered(w, id);
  }

  /** Who a token without a shielded winner is for: the public winner, or the seller when nobody won. */
  function Recipient(a: Auction): Address {
    if a.outcome.winner == ZERO then a.terms.seller else a.outcome.winner
  }

  /** The token of a finalized auction without a shielded winner can be claimed exactly by its recipient, exactly once,
      as long as the recipient takes it; the market always has it. */
  lemma AssetCommitsIff(w: World, sender: Caller, id: nat, takes: bool)
    requires Inv(w) && w.Exists(id)
    ensures ClaimAsset(w, sender, id, takes).Committed? <==>
            var a := w.At(id);
            a.state == Finalized && !a.assetClaimed && a.outcome.identity == 0 && sender == Recipient(a) && takes
  {
    hide AuctionOk, Platform, Clocked, DepsOk;
    assert w.At(id).HoldsToken() ==> w.At(id).Token() in w.owners && w.owners[w.At(id).Token()] == MARKET;
  }

  // ---- a terminal auction, call by call ----

  /** What any committed call does to a terminal auction: a claim settles its own row, everything else
      leaves all rows that carry money alone. */
  ghost predicate SettlesOnly(a: Auction, c: Call, id: nat, a': Auction) {
    if c.Refund? && c.id == id then
      && c.sender !in a.withdrawn && EscrowRefund(a, c.sender) != 0
      && a' == a.(withdrawn := a.withdrawn + {c.sender}, escrow := a.escrow[c.sender := 0])
    else if c.Proceeds? && c.id == id then !a.sellerClaimed && a' == a.(sellerClaimed := true)
    else if c.Reward? && c.id == id then
      a.keeper.Some? && !a.keeper.value.claimed && a' == a.(keeper := Some(a.keeper.value.(claimed := true)))
    else
      && a' == a.(assetClaimed := a'.assetClaimed, settledRefunds := a'.settledRefunds)
      && (a'.assetClaimed != a.assetClaimed ==> (c.Asset? && c.id == id) || (c.ShieldedAsset? && c.id == id))
  }

  lemma TerminalStep(w: World, c: Call, id: nat)
    requires Inv(w) && w.Exists(id) && w.At(id).Terminal() && Step(w, c).Committed?
    ensures Step(w, c).value.Exists(id) && SettlesOnly(w.At(id), c, id, Step(w, c).value.At(id))
  {
    hide Inv, CreateAuction, LockEscrow, LockShieldedEscrow, PlaceBid, PlaceShieldedBid, TriggerFinalize, SubmitResolution,
      SubmitShieldedResolution, CancelAuction, TriggerFallbackVoid, ClaimRefund, ClaimSellerProceeds, ClaimFinalizeReward,
      ClaimAsset, ClaimShieldedAsset, ClaimShieldedRefund, Ambient, SettlesOnly;
    var w' := Step(w, c).value;
    match c
    case Resolve(n, winner, ciphertext, amount, proof) => ResolveElsewhere(w, c, id);
    case ResolveShielded(n, identity, ciphertext, amount, proof) => ResolveElsewhere(w, c, id);
    case Cancel(sender, n, takes) => CloseElsewhere(w, c, id);
    case Void(n, takes) => CloseElsewhere(w, c, id);
    case Refund(sender, n, accepts) => RefundSettles(w, c, id);
    case _ =>
      if c.Escrow? || c.Bid? || c.ShieldedBid? || c.Trigger? { LiveElsewhere(w, c, id); }
      else if c.Proceeds? || c.Reward? || c.Asset? { ClaimSettles(w, c, id); }
      else if c.ShieldedAsset? || c.ShieldedRefund? { ShieldedClaimSettles(w, c, id); }
      else { OthersElsewhere(w, c, id); }
  }

  lemma ResolveElsewhere(w: World, c: Call, id: nat)
    requires (c.Resolve? || c.ResolveShielded?) && Step(w, c).Committed? && w.Exists(id) && w.At(id).Terminal()
    ensures Step(w, c).value.Exists(id) && Step(w, c).value.At(id) == w.At(id)
    ensures SettlesOnly(w.At(id), c, id, w.At(id))
  {
    hide SubmitResolution, SubmitShieldedResolution;
    if c.Resolve? {
      ResolutionShape(w, c.id, c.winner, c.ciphertext, c.amount, c.proof);
    } else {
      ShieldedResolutionShape(w, c.id, c.identity, c.ciphertext, c.amount, c.proof);
    }
  }

  lemma CloseElsewhere(w: World, c: Call, id: nat)
    requires Inv(w) && (c.Cancel? || c.Void?) && Step(w, c).Committed? && w.Exists(id) && w.At(id).Terminal()
    ensures Step(w, c).value.Exists(id) && Step(w, c).value.At(id) == w.At(id)
    ensures SettlesOnly(w.At(id), c, id, w.At(id))
  {
    hide Inv, Close, ComputeCancellationSlash, VoidSlash, VaultRow, PotRow, PotClaims, SlashedSide;
    if c.Cancel? {
      CancellationSlashFits(w, c.id);
      CloseKeepsInv(w, c.id, Cancelled, ComputeCancellationSlash(w, c.id), c.takes);
    } else {
      VoidSlashCloses(w, c.id);
      CloseKeepsInv(w, c.id, Voided, VoidSlash(w, c.id), c.takes);
    }
  }

  lemma RefundSettles(w: World, c: Call, id: nat)
    requires c.Refund? && Step(w, c).Committed? && w.Exists(id)
    ensures Step(w, c).value.Exists(id) && SettlesOnly(w.At(id), c, id, Step(w, c).value.At(id))
  {
    hide ClaimRefund, VaultRow, PotRow, PotClaims, EscrowRefund;
    RefundRows(w, c.sender, c.id, c.accepts);
  }

  lemma LiveElsewhere(w: World, c: Call, id: nat)
    requires (c.Escrow? || c.Bid? || c.ShieldedBid? || c.Trigger?) && Step(w, c).Committed? && w.Exists(id) && w.At(id).Terminal()
    ensures Step(w, c).value.Exists(id) && Step(w, c).value.At(id) == w.At(id)
    ensures SettlesOnly(w.At(id), c, id, w.At(id))
  {
    hide MeetsOpeningBid, Covers, NextRequestId, Vaults.Spendable;
  }

  lemma ClaimSettles(w: World, c: Call, id: nat)
    requires c.Proceeds? || c.Reward? || c.Asset?
    requires Step(w, c).Committed? && w.Exists(id)
    ensures Step(w, c).value.Exists(id) && SettlesOnly(w.At(id), c, id, Step(w, c).value.At(id))
  {
    hide SellerPayout, EscrowRefund;
  }

  lemma ShieldedClaimSettles(w: World, c: Call, id: nat)
    requires c.ShieldedAsset? || c.ShieldedRefund?
    requires Step(w, c).Committed? && w.Exists(id)
    ensures Step(w, c).value.Exists(id) && SettlesOnly(w.At(id), c, id, Step(w, c).value.At(id))
  {
    hide Vaults.Release, Vaults.AuthorizeAsset, ResolveCommitment, EscrowRefund;
  }

  lemma OthersElsewhere(w: World, c: Call, id: nat)
    requires Inv(w) && (c.Create? || c.ShieldedLock? || Background(c)) && Step(w, c).Committed? && w.Exists(id)
    ensures Step(w, c).value.Exists(id) && Step(w, c).value.At(id) == w.At(id)
    ensures SettlesOnly(w.At(id), c, id, w.At(id))
  {
    hide Inv, Step;
    if Background(c) { BackgroundKeepsAuctions(w, c); } else { OnlyAdds(w, c, id); }
  }

  lemma OnlyAdds(w: World, c: Call, id: nat)
    requires (c.Create? || c.ShieldedLock?) && Step(w, c).Committed? && w.Exists(id)
    ensures Step(w, c).value.Exists(id) && Step(w, c).value.At(id) == w.At(id)
  {
    hide Registries.Bind, Vaults.Lock;
  }

  lemma BackgroundKeepsAuctions(w: World, c: Call)
    requires Inv(w) && Background(c) && Step(w, c).Committed?
    ensures Step(w, c).value.auctions == w.auctions
  {
    hide Step, AuctionOk, TermsOk, Custody, QuietContracts;
    BackgroundIsQuiet(w, c);
  }

  /** A settled row is worth nothing to its party and changes nothing for any other. */
  lemma SettlingOne(a: Auction, c: Call, id: nat, a': Auction, p: Party)
    requires a.Terminal() && SettlesOnly(a, c, id, a')
    ensures Due(a', p) == if Claims(c, id, p) then 0 else Due(a, p)
  {
    match p
    case Bidder(b) => SettlingBidder(a, c, id, a', b);
    case Seller =>
    case Keeper =>
  }

  lemma SettlingBidder(a: Auction, c: Call, id: nat, a': Auction, b: Address)
    requires a.Terminal() && SettlesOnly(a, c, id, a')
    ensures RefundDue(a', b) == if Claims(c, id, Bidder(b)) then 0 else RefundDue(a, b)
  {
    hide SellerDue, RewardDue;
    if c.Refund? && c.id == id && b != c.sender { assert Get(a'.escrow, b) == Get(a.escrow, b); }
  }

  /** A committed claim pays exactly what was due. */
  lemma ClaimPaysDue(w: World, c: Call, id: nat, p: Party)
    requires Inv(w) && w.Exists(id) && w.At(id).Terminal() && Claims(c, id, p) && Step(w, c).Committed?
    ensures Step(w, c).value.balance + Due(w.At(id), p) == w.balance
  {
    match p
    case Bidder(b) => RefundPays(w, c.sender, id, c.accepts);
    case Seller => PayoutIsDue(w, id);
    case Keeper => assert AuctionOk(w.At(id), SideOf(w, id));
  }

  // ---- whole runs of claims ----

  /** What a run pays a party through its claims in one auction. */
  ghost function PaidTo(w: World, calls: seq<Call>, id: nat, p: Party): int
    decreases |calls|
  {
    if calls == [] then 0 else
    var before := calls[..|calls| - 1];
    var c := calls[|calls| - 1];
    PaidTo(w, before, id, p) +
    if Claims(c, id, p) && Step(Run(w, before), c).Committed?
    then Run(w, before).balance - Run(w, calls).balance else 0
  }

  /** Claims in any order, interleaved with any other calls: each party of a terminal auction is paid its whole
      entitlement or has it still standing, never part of it, never twice, whatever anybody else claims. */
  lemma {:induction false} ClaimOrderIrrelevant(w: World, calls: seq<Call>, id: nat, p: Party)
    requires Inv(w) && w.Exists(id) && w.At(id).Terminal()
    ensures Run(w, calls).Exists(id)
    ensures PaidTo(w, calls, id, p) + Due(Run(w, calls).At(id), p) == Due(w.At(id), p)
    ensures Due(Run(w, calls).At(id), p) == 0 || Due(Run(w, calls).At(id), p) == Due(w.At(id), p)
    decreases |calls|
  {
    hide Inv, Step, Due, Claims, SettlesOnly;
    RunEndures(w, calls, id);
    if calls != [] {
      var n := |calls| - 1;
      var before := Run(w, calls[..n]);
      RunKeepsInv(w, calls[..n]);
      RunEndures(w, calls[..n], id);
      ClaimOrderIrrelevant(w, calls[..n], id, p);
      if Step(before, calls[n]).Committed? {
        TerminalStep(before, calls[n], id);
        SettlingOne(before.At(id), calls[n], id, Step(before, calls[n]).value.At(id), p);
        if Claims(calls[n], id, p) { ClaimPaysDue(before, calls[n], id, p); }
      }
    }
  }

  /** Once nobody is owed anything the auction's liability is zero, and only then. */
  lemma LiabilityIsDues(a: Auction)
    requires a.Terminal()
    ensures Liability(a) == 0 <==> forall p :: Due(a, p) == 0
  {
    SumZero(Refunds(a));
    if Liability(a) == 0 {
      forall p ensures Due(a, p) == 0 {
        if p.Bidder? {
          assert Refunds(a).Keys == a.escrow.Keys;
          if p.account in a.escrow { assert Refunds(a)[p.account] == 0; }
        }
      }
    } else if forall p :: Due(a, p) == 0 {
      assert Due(a, Seller) == 0 && Due(a, Keeper) == 0;
      forall b | b in Refunds(a) ensures Refunds(a)[b] == 0 { assert Due(a, Bidder(b)) == 0; }
    }
  }

  /** Whoever's claim has committed is owed nothing more. */
  lemma {:induction false} ClaimedIsSettled(w: World, calls: seq<Call>, k: nat, id: nat, p: Party)
    requires Inv(w) && w.Exists(id) && w.At(id).Terminal() && k < |calls|
    requires Claims(calls[k], id, p) && Step(Run(w, calls[..k]), calls[k]).Committed?
    ensures Run(w, calls).Exists(id) && Due(Run(w, calls).At(id), p) == 0
    decreases |calls|
  {
    hide Inv, Step, Due, Claims, SettlesOnly;
    var n := |calls| - 1;
    var before := Run(w, calls[..n]);
    RunKeepsInv(w, calls[..n]);
    RunEndures(w, calls[..n], id);
    RunEndures(w, calls, id);
    if k < n {
      assert calls[..n][..k] == calls[..k];
      ClaimedIsSettled(w, calls[..n], k, id, p);
    }
    if Step(before, calls[n]).Committed? {
      TerminalStep(before, calls[n], id);
      SettlingOne(before.At(id), calls[n], id, Step(before, calls[n]).value.At(id), p);
    }
  }

  /** Every entitled party claims, in any order, among any other calls: nothing is left owing. */
  lemma AllClaimedLeavesNothing(w: World, calls: seq<Call>, id: nat)
    requires Inv(w) && w.Exists(id) && w.At(id).Terminal()
    requires forall p :: Due(w.At(id), p) != 0 ==>
               exists k: nat :: k < |calls| && Claims(calls[k], id, p) && Step(Run(w, calls[..k]), calls[k]).Committed?
    ensures Run(w, calls).Exists(id) && Liability(Run(w, calls).At(id)) == 0
  {
    hide Inv, Step, Claims, Liability, Due;
    RunEndures(w, calls, id);
    forall p ensures Due(Run(w, calls).At(id), p) == 0 {
      ClaimOrderIrrelevant(w, calls, id, p);
      if Due(w.At(id), p) != 0 {
        var k: nat :| k < |calls| && Claims(calls[k], id, p) && Step(Run(w, calls[..k]), calls[k]).Committed?;
        ClaimedIsSettled(w, calls, k, id, p);
      }
    }
    LiabilityIsDues(Run(w, calls).At(id));
  }
}
