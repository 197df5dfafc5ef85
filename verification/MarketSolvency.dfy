/** What the market and the pots owe, and that their ETH always covers it. */
module MarketSolvency {
  import opened Prelude
  import opened Sums
  import opened SettlementEngine
  import opened MarketState
  import opened MarketTransactions
  import opened MarketInvariant
  import opened MarketPreservation
  import Vaults = ShieldedEscrowVault
  import Pots = SlashedPot
  import Avss = EigenLayerAvs
  import Registries = ShieldedIdentityRegistry

  // ---- what one auction is owed ----

  ghost function RefundDue(a: Auction, b: Address): nat {
    if b in a.withdrawn then 0 else EscrowRefund(a, b)
  }

  ghost function Refunds(a: Auction): map<Address, nat> {
    map b | b in a.escrow :: RefundDue(a, b)
  }

  ghost function KeeperReward(a: Auction): nat {
    if a.keeper.Some? then a.keeper.value.reward else 0
  }

  ghost function SellerDue(a: Auction): nat {
    if a.sellerClaimed then 0 else
    match a.state
    case Finalized => Less(a.terms.deposit + a.outcome.amount, KeeperReward(a))
    case Cancelled => Less(a.terms.deposit, a.slash)
    case Voided => if a.slash != 0 then 0 else Less(a.terms.deposit, KeeperReward(a))
    case _ => 0
  }

  ghost function Less(gross: nat, cut: nat): nat {
    if cut >= gross then 0 else gross - cut
  }

  ghost function RewardDue(a: Auction): nat {
    if a.Terminal() && a.keeper.Some? && !a.keeper.value.claimed then a.keeper.value.reward else 0
  }

  /** The deposit and the escrow while the auction is live; every unclaimed entitlement once it is over. */
  ghost function Liability(a: Auction): nat {
    if a.Live() then a.terms.deposit + Sum(a.escrow) else Sum(Refunds(a)) + SellerDue(a) + RewardDue(a)
  }

  ghost function Liabilities(w: World): seq<nat> {
    seq(|w.auctions|, i requires 0 <= i < |w.auctions| => Liability(w.auctions[i]))
  }

  /** What all auctions together are owed by the market. */
  ghost function TotalOwed(w: World): nat {
    Total(Liabilities(w))
  }

  // ---- the entitlements of an auction that just closed ----

  lemma RefundsAreEscrow(a: Auction)
    requires a.Terminal() && a.withdrawn == {} && a.outcome.winner !in a.escrow
    ensures Sum(Refunds(a)) == Sum(a.escrow)
  {
    assert Refunds(a) == a.escrow;
  }

  /** A public winner's refund is short of exactly the winning amount. */
  lemma RefundsLessWinningAmount(a: Auction)
    requires a.state == Finalized && a.withdrawn == {} && a.outcome.amount <= Get(a.escrow, a.outcome.winner)
    ensures Sum(Refunds(a)) + a.outcome.amount == Sum(a.escrow)
  {
    var b := a.outcome.winner;
    if b in a.escrow {
      assert Refunds(a) == a.escrow[b := a.escrow[b] - a.outcome.amount];
      SumPut(a.escrow, b, a.escrow[b] - a.outcome.amount);
    } else {
      assert Refunds(a) == a.escrow;
    }
  }

  /** A finalized auction owes exactly the deposit, the public escrow and what the vault paid for a shielded winner. */
  lemma FinalizedConservation(a: Auction)
    requires a.state == Finalized && Lifecycle(a) && EscrowOk(a)
    requires a.terms.deposit > 0 && a.withdrawn == {} && !a.sellerClaimed && !a.keeper.value.claimed
    ensures Liability(a) == a.terms.deposit + Sum(a.escrow) + if a.outcome.identity != 0 then a.outcome.amount else 0
  {
    RewardBelowDeposit(a.terms.deposit);
    if a.outcome.winner == ZERO { RefundsAreEscrow(a); } else { RefundsLessWinningAmount(a); }
  }

  /** A cancelled or voided auction owes exactly the deposit and the public escrow, less the slash sent out. */
  lemma ClosedConservation(a: Auction)
    requires (a.state == Cancelled || a.state == Voided) && Lifecycle(a) && EscrowOk(a)
    requires a.terms.deposit > 0 && a.withdrawn == {} && !a.sellerClaimed
    requires a.keeper.Some? ==> !a.keeper.value.claimed
    ensures Liability(a) + a.slash == a.terms.deposit + Sum(a.escrow)
  {
    RewardBelowDeposit(a.terms.deposit);
    RefundsAreEscrow(a);
  }

  // ---- the market's books, call by call ----

  /** The market's balance moves by exactly as much as what it owes, plus what was donated. */
  ghost predicate Balanced(w: World, w': World, donated: nat) {
    w'.balance + TotalOwed(w) == w.balance + TotalOwed(w') + donated
  }

  lemma RowBalances(w: World, w': World, id: nat)
    requires w.Exists(id) && |w'.auctions| == |w.auctions|
    requires forall j :: w.Exists(j) && j != id ==> w'.At(j) == w.At(j)
    requires w'.balance + Liability(w.At(id)) == w.balance + Liability(w'.At(id))
    ensures Balanced(w, w', 0)
  {
    hide Liability;
    forall j: nat | j < |w.auctions| && j != id - 1 ensures w'.auctions[j] == w.auctions[j] {
      assert w'.At(j + 1) == w.At(j + 1);
    }
    TotalPut(Liabilities(w), id - 1, Liability(w'.At(id)));
    assert Liabilities(w') == Liabilities(w)[id - 1 := Liability(w'.At(id))];
  }

  lemma SameAuctionsBalance(w: World, w': World, donated: nat)
    requires w'.auctions == w.auctions && w'.balance == w.balance + donated
    ensures Balanced(w, w', donated)
  {
    assert Liabilities(w') == Liabilities(w);
  }

  lemma CreateBalances(w: World, sender: Caller, value: nat, nft: Address, tokenId: nat, duration: nat,
                       startingPrice: nat, deposit: nat, approved: bool)
    requires CreateAuction(w, sender, value, nft, tokenId, duration, startingPrice, deposit, approved).Committed?
    ensures Balanced(w, CreateAuction(w, sender, value, nft, tokenId, duration, startingPrice, deposit, approved).value, 0)
  {
    var w' := CreateAuction(w, sender, value, nft, tokenId, duration, startingPrice, deposit, approved).value;
    var a := w'.auctions[|w.auctions|];
    assert Liability(a) == value;
    assert Liabilities(w') == Liabilities(w) + [value];
    TotalAppend(Liabilities(w), value);
  }

  lemma EscrowBalances(w: World, sender: Caller, value: nat, id: nat)
    requires LockEscrow(w, sender, value, id).Committed?
    ensures Balanced(w, LockEscrow(w, sender, value, id).value, 0)
  {
    var w' := LockEscrow(w, sender, value, id).value;
    SumPut(w.At(id).escrow, sender, Get(w.At(id).escrow, sender) + value);
    RowBalances(w, w', id);
  }

  /** Bids and the finalization trigger move no ETH and change no entitlement. */
  lemma LiveRowBalances(w: World, w': World, id: nat)
    requires w.Exists(id) && |w'.auctions| == |w.auctions| && w'.balance == w.balance
    requires forall j :: w.Exists(j) && j != id ==> w'.At(j) == w.At(j)
    requires w.At(id).Live() && w'.At(id).Live() && w'.At(id).terms == w.At(id).terms && w'.At(id).escrow == w.At(id).escrow
    ensures Balanced(w, w', 0)
  {
    RowBalances(w, w', id);
  }

  /** What an accepted public resolution writes in the market. */
  lemma ResolutionShape(w: World, id: nat, winner: Address, ciphertext: Word, amount: nat, proof: Avss.Envelope)
    requires SubmitResolution(w, id, winner, ciphertext, amount, proof).Committed?
    ensures w.Exists(id) && w.At(id).state == Resolving
    ensures var (w', accepted) := SubmitResolution(w, id, winner, ciphertext, amount, proof).value;
            if !accepted then w' == w.(avss := w'.avss) else
            && |w'.auctions| == |w.auctions|
            && (forall j :: w.Exists(j) && j != id ==> w'.At(j) == w.At(j))
            && w'.At(id) == w.At(id).(state := Finalized, outcome := Outcome(winner, ciphertext, amount, 0),
                                      request := None, refundsUnlocked := w'.At(id).refundsUnlocked)
            && w'.balance == w.balance && w'.pots == w.pots && w'.network == Observe(w.network, w.now)
  {
    hide Observe, Avss.Verify, Vaults.Unlock;
  }

  lemma ResolveBalances(w: World, id: nat, winner: Address, ciphertext: Word, amount: nat, proof: Avss.Envelope)
    requires Inv(w) && SubmitResolution(w, id, winner, ciphertext, amount, proof).Committed?
    ensures Balanced(w, SubmitResolution(w, id, winner, ciphertext, amount, proof).value.0, 0)
  {
    hide Inv, Balanced, SubmitResolution;
    ResolutionShape(w, id, winner, ciphertext, amount, proof);
    ResolveKeepsInv(w, id, winner, ciphertext, amount, proof);
    var (w', accepted) := SubmitResolution(w, id, winner, ciphertext, amount, proof).value;
    if accepted { SettledBalances(w, w', id); } else { SameAuctionsBalance(w, w', 0); }
  }

  /** Any acceptance of an outcome, the vault's payment included. */
  lemma SettledBalances(w: World, w': World, id: nat)
    requires Inv(w) && Inv(w') && w.Exists(id) && |w'.auctions| == |w.auctions|
    requires forall j :: w.Exists(j) && j != id ==> w'.At(j) == w.At(j)
    requires w.At(id).state == Resolving && w'.At(id).state == Finalized
    requires w'.At(id) == w.At(id).(state := Finalized, outcome := w'.At(id).outcome, request := None,
                                    refundsUnlocked := w'.At(id).refundsUnlocked)
    requires w'.balance == w.balance + if w'.At(id).outcome.identity != 0 then w'.At(id).outcome.amount else 0
    ensures Balanced(w, w', 0)
  {
    hide Custody, Platform, SideOk, BidsOk;
    assert AuctionOk(w.At(id), SideOf(w, id)) && AuctionOk(w'.At(id), SideOf(w', id));
    assert TermsOk(w.At(id).terms, w.now);
    FinalizedConservation(w'.At(id));
    RowBalances(w, w', id);
  }

  /** What an accepted shielded resolution writes in the market. */
  lemma ShieldedResolutionShape(w: World, id: nat, identity: Word, ciphertext: Word, amount: nat, proof: Avss.Envelope)
    requires SubmitShieldedResolution(w, id, identity, ciphertext, amount, proof).Committed?
    ensures w.Exists(id) && w.At(id).state == Resolving && identity != 0
    ensures var (w', accepted) := SubmitShieldedResolution(w, id, identity, ciphertext, amount, proof).value;
            if !accepted then w' == w.(avss := w'.avss) else
            && |w'.auctions| == |w.auctions|
            && (forall j :: w.Exists(j) && j != id ==> w'.At(j) == w.At(j))
            && w'.At(id) == w.At(id).(state := Finalized, outcome := Outcome(ZERO, ciphertext, amount, identity),
                                      request := None, refundsUnlocked := w'.At(id).refundsUnlocked)
            && w'.balance == w.balance + amount && w'.pots == w.pots && w'.network == Observe(w.network, w.now)
  {
    hide Observe, Avss.Verify, Vaults.SettleWinning, Registries.MarkWinner, Vaults.Unlock;
  }

  lemma ResolveShieldedBalances(w: World, id: nat, identity: Word, ciphertext: Word, amount: nat, proof: Avss.Envelope)
    requires Inv(w) && SubmitShieldedResolution(w, id, identity, ciphertext, amount, proof).Committed?
    ensures Balanced(w, SubmitShieldedResolution(w, id, identity, ciphertext, amount, proof).value.0, 0)
  {
    hide Inv, Balanced, SubmitShieldedResolution;
    ShieldedResolutionShape(w, id, identity, ciphertext, amount, proof);
    ResolveShieldedKeepsInv(w, id, identity, ciphertext, amount, proof);
    var (w', accepted) := SubmitShieldedResolution(w, id, identity, ciphertext, amount, proof).value;
    if accepted { SettledBalances(w, w', id); } else { SameAuctionsBalance(w, w', 0); }
  }

  lemma CloseBalances(w: World, id: nat, next: AuctionState, slash: nat, takes: bool)
    requires Inv(w) && w.Exists(id) && ClosingSlash(w.At(id), SideOf(w, id), next, slash)
    requires Close(w, id, next, slash, takes).Committed?
    ensures Balanced(w, Close(w, id, next, slash, takes).value, 0)
  {
    hide Inv, Close, SlashedSide, VaultRow, PotRow, PotClaims;
    var w' := Close(w, id, next, slash, takes).value;
    CloseKeepsInv(w, id, next, slash, takes);
    AuctionAt(w, id);
    AuctionAt(w', id);
    ClosedConservation(w'.At(id));
    RowBalances(w, w', id);
  }

  lemma AuctionAt(w: World, id: nat)
    requires Inv(w) && w.Exists(id)
    ensures AuctionOk(w.At(id), SideOf(w, id)) && TermsOk(w.At(id).terms, w.now) && DepsOk(w, w.At(id).terms.deps)
  {}

  // ---- claims ----

  /** A paid refund leaves every other refund of the auction as it was. */
  lemma PaidRefund(a: Auction, b: Address, a': Auction)
    requires a.Terminal() && b !in a.withdrawn && EscrowRefund(a, b) != 0
    requires a' == a.(withdrawn := a.withdrawn + {b}, escrow := a.escrow[b := 0])
    ensures Sum(Refunds(a')) + EscrowRefund(a, b) == Sum(Refunds(a))
    ensures forall c :: c != b ==> RefundDue(a', c) == RefundDue(a, c)
  {
    SumPut(Refunds(a), b, 0);
    assert Refunds(a') == Refunds(a)[b := 0];
  }

  lemma RefundBalances(w: World, sender: Caller, id: nat, accepts: bool)
    requires ClaimRefund(w, sender, id, accepts).Committed?
    ensures Balanced(w, ClaimRefund(w, sender, id, accepts).value, 0)
  {
    hide Liability, ClaimRefund;
    RefundRows(w, sender, id, accepts);
    RefundPays(w, sender, id, accepts);
    var a, w' := w.At(id), ClaimRefund(w, sender, id, accepts).value;
    PaidRefund(a, sender, w'.At(id));
    PaidLiability(a, w'.At(id), EscrowRefund(a, sender));
    RowBalances(w, w', id);
  }

  lemma RefundPays(w: World, sender: Caller, id: nat, accepts: bool)
    requires ClaimRefund(w, sender, id, accepts).Committed?
    ensures w.Exists(id)
    ensures ClaimRefund(w, sender, id, accepts).value.balance + EscrowRefund(w.At(id), sender) == w.balance
  {}

  lemma PaidLiability(a: Auction, a': Auction, paid: nat)
    requires a.Terminal() && a' == a.(withdrawn := a'.withdrawn, escrow := a'.escrow)
    requires Sum(Refunds(a')) + paid == Sum(Refunds(a))
    ensures Liability(a') + paid == Liability(a)
  {}

  /** What the contract previews for the seller is what it owes the seller. */
  lemma PayoutIsDue(w: World, id: nat)
    requires Inv(w) && w.Exists(id) && !w.At(id).sellerClaimed
    ensures SellerPayout(w, id) == SellerDue(w.At(id))
  {
    hide Custody, Platform, TermsOk, BidsOk, Vaults.Sound;
    assert AuctionOk(w.At(id), SideOf(w, id));
  }

  lemma ProceedsBalances(w: World, sender: Caller, id: nat, accepts: bool)
    requires Inv(w) && ClaimSellerProceeds(w, sender, id, accepts).Committed?
    ensures Balanced(w, ClaimSellerProceeds(w, sender, id, accepts).value, 0)
  {
    hide Inv;
    var a, w' := w.At(id), ClaimSellerProceeds(w, sender, id, accepts).value;
    PayoutIsDue(w, id);
    assert Refunds(w'.At(id)) == Refunds(a);
    RowBalances(w, w', id);
  }

  lemma RewardBalances(w: World, sender: Caller, id: nat, accepts: bool)
    requires ClaimFinalizeReward(w, sender, id, accepts).Committed?
    ensures Balanced(w, ClaimFinalizeReward(w, sender, id, accepts).value, 0)
  {
    var a, w' := w.At(id), ClaimFinalizeReward(w, sender, id, accepts).value;
    assert Refunds(w'.At(id)) == Refunds(a);
    RowBalances(w, w', id);
  }

  /** Claiming the token, settling a shielded refund, and anything else that leaves the money fields alone. */
  lemma MoneylessBalances(w: World, w': World, id: nat)
    requires w.Exists(id) && |w'.auctions| == |w.auctions| && w'.balance == w.balance
    requires forall j :: w.Exists(j) && j != id ==> w'.At(j) == w.At(j)
    requires w'.At(id) == w.At(id).(assetClaimed := w'.At(id).assetClaimed, settledRefunds := w'.At(id).settledRefunds)
    ensures Balanced(w, w', 0)
  {
    assert Refunds(w'.At(id)) == Refunds(w.At(id));
    RowBalances(w, w', id);
  }

  // ---- every call, every run ----

  function Donation(c: Call): nat {
    if c.Donate? then c.value else 0
  }

  /** Every call moves the market's balance and what it owes by the same amount; only a donation adds to the gap. */
  lemma StepBalances(w: World, c: Call)
    requires Inv(w) && Step(w, c).Committed?
    ensures Balanced(w, Step(w, c).value, Donation(c))
  {
    hide Inv, CreateAuction, LockEscrow, LockShieldedEscrow, PlaceBid, PlaceShieldedBid, TriggerFinalize, SubmitResolution,
      SubmitShieldedResolution, CancelAuction, TriggerFallbackVoid, ClaimRefund, ClaimSellerProceeds, ClaimFinalizeReward,
      ClaimAsset, ClaimShieldedAsset, ClaimShieldedRefund, Balanced, Ambient;
    match c
    case Create(sender, value, nft, tokenId, duration, startingPrice, deposit, approved) =>
      CreateBalances(w, sender, value, nft, tokenId, duration, startingPrice, deposit, approved);
    case Escrow(sender, value, id) => EscrowBalances(w, sender, value, id);
    case ShieldedLock(_, _, _, _, _) => MoneylessCalls(w, c);
    case Bid(_, _, _) => MoneylessCalls(w, c);
    case ShieldedBid(_, _, _, _, _) => MoneylessCalls(w, c);
    case Trigger(_, _, _) => MoneylessCalls(w, c);
    case Resolve(id, winner, ciphertext, amount, proof) => ResolveBalances(w, id, winner, ciphertext, amount, proof);
    case ResolveShielded(id, identity, ciphertext, amount, proof) =>
      ResolveShieldedBalances(w, id, identity, ciphertext, amount, proof);
    case Cancel(sender, id, takes) => CancelBalances(w, sender, id, takes);
    case Void(id, takes) => VoidBalances(w, id, takes);
    case Refund(sender, id, accepts) => RefundBalances(w, sender, id, accepts);
    case Proceeds(sender, id, accepts) => ProceedsBalances(w, sender, id, accepts);
    case Reward(sender, id, accepts) => RewardBalances(w, sender, id, accepts);
    case Asset(_, _, _) => AssetCalls(w, c);
    case ShieldedAsset(_, _, _, _, _, _) => AssetCalls(w, c);
    case ShieldedRefund(_, _, _, _, _, _) => AssetCalls(w, c);
    case _ => BackgroundBalances(w, c);
  }

  lemma MoneylessCalls(w: World, c: Call)
    requires c.ShieldedLock? || c.Bid? || c.ShieldedBid? || c.Trigger?
    requires Step(w, c).Committed?
    ensures Balanced(w, Step(w, c).value, 0)
  {
    hide Balanced, Liability, PlaceBid, PlaceShieldedBid, TriggerFinalize, Registries.Bind, Vaults.Lock;
    if c.ShieldedLock? {
      SameAuctionsBalance(w, Step(w, c).value, 0);
    } else {
      LiveCallShape(w, c);
      LiveRowBalances(w, Step(w, c).value, c.id);
    }
  }

  lemma LiveCallShape(w: World, c: Call)
    requires c.Bid? || c.ShieldedBid? || c.Trigger?
    requires Step(w, c).Committed?
    ensures var w' := Step(w, c).value;
            && w.Exists(c.id) && |w'.auctions| == |w.auctions| && w'.balance == w.balance
            && (forall j :: w.Exists(j) && j != c.id ==> w'.At(j) == w.At(j))
            && w.At(c.id).Live() && w'.At(c.id).Live()
            && w'.At(c.id).terms == w.At(c.id).terms && w'.At(c.id).escrow == w.At(c.id).escrow
  {
    hide MeetsOpeningBid, Covers, NextRequestId, Vaults.Spendable;
  }

  lemma AssetCalls(w: World, c: Call)
    requires c.Asset? || c.ShieldedAsset? || c.ShieldedRefund?
    requires Step(w, c).Committed?
    ensures Balanced(w, Step(w, c).value, 0)
  {
    hide Balanced, Liability, Vaults.Release, Vaults.AuthorizeAsset, ResolveCommitment;
    var id := if c.ShieldedRefund? then w.vaults[c.vault].DepositAt(c.commitment).auctionId else c.id;
    MoneylessBalances(w, Step(w, c).value, id);
  }

  lemma CancelBalances(w: World, sender: Caller, id: nat, takes: bool)
    requires Inv(w) && CancelAuction(w, sender, id, takes).Committed?
    ensures Balanced(w, CancelAuction(w, sender, id, takes).value, 0)
  {
    hide Inv, Close, ComputeCancellationSlash, Balanced;
    CancellationSlashFits(w, id);
    CloseBalances(w, id, Cancelled, ComputeCancellationSlash(w, id), takes);
  }

  lemma VoidBalances(w: World, id: nat, takes: bool)
    requires Inv(w) && TriggerFallbackVoid(w, id, takes).Committed?
    ensures Balanced(w, TriggerFallbackVoid(w, id, takes).value, 0)
  {
    hide Inv, Close, VoidSlash, Balanced;
    VoidSlashCloses(w, id);
    CloseBalances(w, id, Voided, VoidSlash(w, id), takes);
  }

  lemma BackgroundBalances(w: World, c: Call)
    requires Background(c) && Step(w, c).Committed?
    ensures Balanced(w, Step(w, c).value, Donation(c))
  {
    hide CreateAuction, LockEscrow, LockShieldedEscrow, PlaceBid, PlaceShieldedBid, TriggerFinalize, SubmitResolution,
      SubmitShieldedResolution, CancelAuction, TriggerFallbackVoid, ClaimRefund, ClaimSellerProceeds, ClaimFinalizeReward,
      ClaimAsset, ClaimShieldedAsset, ClaimShieldedRefund, Balanced;
    SameAuctionsBalance(w, Step(w, c).value, Donation(c));
  }

  /** What was donated in a run: the donations of the calls that committed. */
  ghost function Donated(w: World, calls: seq<Call>): nat
    decreases |calls|
  {
    if calls == [] then 0 else
    var before := calls[..|calls| - 1];
    var c := calls[|calls| - 1];
    Donated(w, before) + if Step(Run(w, before), c).Committed? then Donation(c) else 0
  }

  lemma {:induction false} RunBalances(w: World, calls: seq<Call>)
    requires Inv(w)
    ensures Balanced(w, Run(w, calls), Donated(w, calls))
    decreases |calls|
  {
    hide Inv, Step, TotalOwed;
    if calls != [] {
      var n := |calls| - 1;
      RunKeepsInv(w, calls[..n]);
      RunBalances(w, calls[..n]);
      if Step(Run(w, calls[..n]), calls[n]).Committed? { StepBalances(Run(w, calls[..n]), calls[n]); }
    }
  }

  /** Global solvency: after any run from deployment, with any number of auctions, bidders and interleaved calls,
      the market holds exactly what it owes over all auctions plus what was donated. */
  lemma MarketIsSolvent(now: nat, adapter: Adapter, pot: Address, calls: seq<Call>)
    requires pot != ZERO
    ensures var w := Run(Genesis(now, adapter, pot), calls);
            w.balance == TotalOwed(w) + Donated(Genesis(now, adapter, pot), calls)
  {
    var g := Genesis(now, adapter, pot);
    GenesisInv(now, adapter, pot);
    RunBalances(g, calls);
    assert Liabilities(g) == [];
  }
}
