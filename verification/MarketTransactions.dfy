/** Every transaction of the market, as a function from the state before to the state after or to a revert. */
module MarketTransactions {
  import opened Prelude
  import opened SettlementEngine
  import opened CiphertextEncoding
  import opened MarketState
  import Vaults = ShieldedEscrowVault
  import Pots = SlashedPot
  import Avss = EigenLayerAvs
  import Registries = ShieldedIdentityRegistry

  const MIN_AUCTION_DURATION: nat := 60
  const MAX_AUCTION_DURATION: nat := 7_776_000
  const DEFAULT_DYNAMIC_TIMEOUT: nat := 1_800
  const NETWORK_SAMPLE_CEILING: nat := 600

  // ---- network observation ----

  /** One observation; block timestamps never go back. */
  function Observe(n: Network, now: nat): Network {
    if n.lastObservation < 1 then n.(lastObservation := now)
    else if now <= n.lastObservation then n
    else
      var delta := now - n.lastObservation;
      if delta > NETWORK_SAMPLE_CEILING then n.(lastObservation := now)
      else Network(now, if n.movingAverage < 1 then delta else (n.movingAverage * 7 + delta) / 8)
  }

  function Observed(w: World): World {
    w.(network := Observe(w.network, w.now))
  }

  // ---- creation, escrow and bids ----

  function NewAuction(terms: Terms): Auction {
    Auction(terms, Active, 0, map[], {}, map[], [], map[], [], 0, 0, None, None, NO_OUTCOME, 0, false, false, false, {})
  }

  function CreateAuction(w: World, sender: Caller, value: nat, nft: Address, tokenId: nat, duration: nat,
                         startingPrice: nat, deposit: nat, approved: bool): Tx<World>
  {
    if nft == ZERO then Reverted(ZeroAddress) else
    :- Need(MIN_AUCTION_DURATION <= duration <= MAX_AUCTION_DURATION, InvalidDuration);
    :- Need(startingPrice <= MAX_EUINT96, InvalidStartingPrice);
    :- Need(value != 0 && value == deposit, IncorrectSellerDeposit);
    :- Need((nft, tokenId) in w.owners && w.owners[(nft, tokenId)] == sender, NotNftOwner);
    :- Need(approved, NftNotApproved);
    var terms := Terms(nft, tokenId, sender, w.now, w.now + duration, deposit, startingPrice, w.config);
    Committed(Observed(w).(auctions := w.auctions + [NewAuction(terms)],
                           balance := w.balance + value,
                           owners := w.owners[(nft, tokenId) := MARKET]))
  }

  function LockEscrow(w: World, sender: Caller, value: nat, id: nat): Tx<World> {
    if !w.Exists(id) then Reverted(AuctionDoesNotExist) else
    var a := w.At(id);
    :- Need(a.state == Active, UnexpectedAuctionState);
    :- Need(value != 0, ZeroValue);
    :- Need(w.now < a.terms.endTime, AuctionAlreadyEnded);
    var a' := a.(escrow := a.escrow[sender := Get(a.escrow, sender) + value], totalEscrow := a.totalEscrow + value);
    Committed(Observed(w).Put(id, a').(balance := w.balance + value))
  }

  function LockShieldedEscrow(w: World, value: nat, id: nat, identity: Word, commitment: Word, authority: Address): Tx<World> {
    if !w.Exists(id) then Reverted(AuctionDoesNotExist) else
    var a := w.At(id);
    var deps := a.terms.deps;
    :- Need(a.state == Active, UnexpectedAuctionState);
    :- Need(value != 0, ZeroValue);
    :- Need(identity != 0, InvalidIdentityHash);
    :- Need(commitment != 0, InvalidCommitmentHash);
    :- Need(w.now < a.terms.endTime, AuctionAlreadyEnded);
    :- Need(deps.vault in w.vaults, ShieldedEscrowVaultNotConfigured);
    :- Need(deps.registry in w.registries, ShieldedIdentityRegistryNotConfigured);
    var registry :- Registries.Bind(w.registries[deps.registry], id, identity, commitment);
    var vault :- Vaults.Lock(w.vaults[deps.vault], id, commitment, value, authority);
    Committed(Observed(w).(registries := w.registries[deps.registry := registry],
                           vaults := w.vaults[deps.vault := vault]))
  }

  /** The adapter's opening-bid check; it only decodes when there is an opening bid. */
  function MeetsOpeningBid(a: Auction, handle: Word): Check {
    if a.terms.startingPrice == 0 then Passed
    else match a.terms.deps.adapter.Decode(handle)
      case None => Failed(InvalidNumericCiphertextKind)
      case Some(v) => Need(v > a.terms.startingPrice - 1, BidBelowStartingPrice)
  }

  function Covers(a: Auction, handle: Word, available: nat): Check {
    match a.terms.deps.adapter.Decode(handle)
    case None => Failed(InvalidNumericCiphertextKind)
    case Some(v) => Need(v <= available, BidExceedsEscrow)
  }

  function PlaceBid(w: World, sender: Caller, id: nat, handle: Word): Tx<World> {
    if !w.Exists(id) then Reverted(AuctionDoesNotExist) else
    var a := w.At(id);
    :- Need(a.state == Active, UnexpectedAuctionState);
    :- Need(w.now < a.terms.endTime, AuctionAlreadyEnded);
    :- Need(Get(a.escrow, sender) != 0, NoEscrowLocked);
    :- MeetsOpeningBid(a, handle);
    :- Covers(a, handle, Get(a.escrow, sender));
    var a' := a.(bidCount := if Get(a.bids, sender) == 0 then a.bidCount + 1 else a.bidCount,
                 bidders := if sender in a.bids then a.bidders else a.bidders + [sender],
                 bids := a.bids[sender := handle]);
    Committed(Observed(w).Put(id, a'))
  }

  /** The external verifier's answer is the parameter covered. */
  function PlaceShieldedBid(w: World, id: nat, commitment: Word, handle: Word, deadline: nat, covered: bool): Tx<World> {
    if !w.Exists(id) then Reverted(AuctionDoesNotExist) else
    var a := w.At(id);
    :- Need(a.state == Active, UnexpectedAuctionState);
    :- Need(w.now < a.terms.endTime, AuctionAlreadyEnded);
    :- Need(commitment != 0, InvalidCommitmentHash);
    :- Need(a.terms.deps.vault in w.vaults, ShieldedEscrowVaultNotConfigured);
    var vault := w.vaults[a.terms.deps.vault];
    var deposit := vault.DepositAt(commitment);
    :- Need(deposit.auctionId == id && !deposit.claimed, MissingShieldedEncryptedBid);
    :- Need(!vault.BookAt(id).unlocked, AuctionAlreadyEnded);
    :- MeetsOpeningBid(a, handle);
    :- Vaults.Spendable(deposit);
    :- Need(w.now <= deadline, ClaimAuthorizationExpired);
    :- Need(covered, InvalidShieldedBidProof);
    var a' := a.(bidCount := if Get(a.shieldedBids, commitment) == 0 then a.bidCount + 1 else a.bidCount,
                 commitments := if commitment in a.shieldedBids then a.commitments else a.commitments + [commitment],
                 shieldedBids := a.shieldedBids[commitment := handle]);
    Committed(Observed(w).Put(id, a'))
  }

  // ---- resolution ----

  function NextRequestId(a: Auction, id: nat, nonce: nat, salt: Word): Avss.RequestId {
    if a.terms.deps.engine == ZERO
    then Avss.LocalRequest(MARKET, id, a.bidCount, a.terms.endTime, nonce, salt)
    else Avss.EngineRequest(a.terms.deps.engine, MARKET, id, a.bidCount, a.terms.endTime, nonce, salt)
  }

  function TriggerFinalize(w: World, sender: Caller, id: nat, salt: Word): Tx<World> {
    if !w.Exists(id) then Reverted(AuctionDoesNotExist) else
    var a := w.At(id);
    :- Need(a.state == Active, UnexpectedAuctionState);
    :- Need(w.now >= a.terms.endTime, AuctionStillRunning);
    :- Need(a.request.None?, ResolutionAlreadyRequested);
    var nonce := (if a.keeper.Some? then a.keeper.value.nonce else 0) + 1;
    var a' := a.(state := Resolving, resolvingSince := w.now,
                 keeper := Some(Finalization(sender, FinalizeReward(a.terms.deposit), nonce, salt, false)),
                 request := Some(Request(NextRequestId(a, id, nonce, salt), w.now)));
    Committed(Observed(w).Put(id, a'))
  }

  /** The engine forwards the proof to the attestation verifier it is configured with. */
  function VerifyProof(w: World, engine: Address, s: Avss.Statement, proof: Avss.Envelope): Tx<(World, bool)> {
    if engine !in w.engines then Reverted(CallToMissingContract) else
    var avs := w.engines[engine];
    :- Need(avs != ZERO, ZeroAddress);
    :- Need(avs in w.avss, CallToMissingContract);
    var checked :- Avss.Verify(w.avss[avs], avs, MARKET, s, proof);
    Committed((w.(avss := w.avss[avs := checked.0]), checked.1))
  }

  /** Everything submitResolution demands before it looks at the proof. */
  function CheckResolution(w: World, id: nat, winner: Address, ciphertext: Word, amount: nat): Check {
    if !w.Exists(id) then Failed(AuctionDoesNotExist) else
    var a := w.At(id);
    if a.state != Resolving then Failed(UnexpectedAuctionState)
    else if a.request.None? then Failed(MissingResolutionRequest)
    else if a.terms.deps.engine == ZERO then Failed(InvalidAvsProof)
    else if winner == ZERO then Need(amount == 0, WinnerRequiredForWinningAmount)
    else if amount == 0 then Failed(ZeroWinningAmount)
    else if amount < a.terms.startingPrice then Failed(WinningAmountBelowStartingPrice)
    else if Get(a.bids, winner) == 0 then Failed(MissingEncryptedBid)
    else if Covers(a, ciphertext, Get(a.escrow, winner)).Failed? then Covers(a, ciphertext, Get(a.escrow, winner))
    else Need(amount <= Get(a.escrow, winner), InvalidWinningAmount)
  }

  /** Commits with true when the proof is accepted, with false (auction untouched) when it is rejected. */
  function SubmitResolution(w: World, id: nat, winner: Address, ciphertext: Word, amount: nat,
                            proof: Avss.Envelope): Tx<(World, bool)>
  {
    var check := CheckResolution(w, id, winner, ciphertext, amount);
    if check.Failed? then Reverted(check.error) else
    var a := w.At(id);
    var statement := Avss.Statement(id, a.request.value.requestId, winner, ciphertext, amount);
    var checked :- VerifyProof(w, a.terms.deps.engine, statement, proof);
    if !checked.1 then Committed(checked) else
    var a' := a.(state := Finalized, outcome := Outcome(winner, ciphertext, amount, 0), request := None);
    Committed((OpenRefunds(Observed(checked.0).Put(id, a'), id), true))
  }

  /** The commitment a winning identity stands for, once the registry knows it. */
  function ResolveCommitment(w: World, id: nat, identity: Word): Tx<Word>
    requires w.Exists(id)
  {
    if identity == 0 then Reverted(InvalidIdentityHash) else
    var registry := w.At(id).terms.deps.registry;
    :- Need(registry in w.registries, ShieldedIdentityRegistryNotConfigured);
    var commitment := w.registries[registry].CommitmentFor(id, identity);
    :- Need(commitment != 0, MissingShieldedEncryptedBid);
    Committed(commitment)
  }

  /** Everything submitShieldedResolution demands before it looks at the proof; commits the winner's commitment. */
  function CheckShieldedResolution(w: World, id: nat, identity: Word, ciphertext: Word, amount: nat): Tx<Word> {
    if !w.Exists(id) then Reverted(AuctionDoesNotExist) else
    var a := w.At(id);
    :- Need(a.state == Resolving, UnexpectedAuctionState);
    :- Need(a.request.Some?, MissingResolutionRequest);
    :- Need(a.terms.deps.engine != ZERO, InvalidAvsProof);
    :- Need(identity != 0, InvalidIdentityHash);
    :- Need(amount != 0, ZeroWinningAmount);
    :- Need(amount >= a.terms.startingPrice, WinningAmountBelowStartingPrice);
    var commitment :- ResolveCommitment(w, id, identity);
    :- Need(Get(a.shieldedBids, commitment) != 0, MissingShieldedEncryptedBid);
    :- Need(Get(a.shieldedBids, commitment) == ciphertext, UnexpectedShieldedWinningCiphertext);
    :- Need(a.terms.deps.vault in w.vaults, ShieldedEscrowVaultNotConfigured);
    var deposit := w.vaults[a.terms.deps.vault].DepositAt(commitment);
    :- Need(deposit.auctionId == id && !deposit.claimed, MissingShieldedEncryptedBid);
    Committed(commitment)
  }

  function SubmitShieldedResolution(w: World, id: nat, identity: Word, ciphertext: Word, amount: nat,
                                    proof: Avss.Envelope): Tx<(World, bool)>
  {
    var commitment :- CheckShieldedResolution(w, id, identity, ciphertext, amount);
    var a := w.At(id);
    var deps := a.terms.deps;
    var statement := Avss.Statement(id, a.request.value.requestId, identity, ciphertext, amount);
    var checked :- VerifyProof(w, deps.engine, statement, proof);
    if !checked.1 then Committed(checked) else
    var a' := a.(state := Finalized, outcome := Outcome(ZERO, ciphertext, amount, identity), request := None);
    var vault :- Vaults.SettleWinning(w.vaults[deps.vault], id, commitment, amount);
    var paid := Observed(checked.0).Put(id, a').(vaults := w.vaults[deps.vault := vault], balance := w.balance + amount);
    var registry :- Registries.MarkWinner(w.registries[deps.registry], id, identity);
    Committed((OpenRefunds(paid, id).(registries := w.registries[deps.registry := registry]), true))
  }

  /** Unlocks the shielded refunds of an auction that has a vault. */
  function OpenRefunds(w: World, id: nat): World
    requires w.Exists(id)
  {
    var a := w.At(id);
    var vault := a.terms.deps.vault;
    if a.refundsUnlocked || vault !in w.vaults then w else
    w.Put(id, a.(refundsUnlocked := true)).(vaults := w.vaults[vault := Vaults.Unlock(w.vaults[vault], id)])
  }

  // ---- cancellation and fallback ----

  function EscrowIncludingShielded(w: World, id: nat): nat
    requires w.Exists(id)
  {
    w.At(id).totalEscrow + w.ShieldedEscrow(w.At(id).terms.deps.vault, id)
  }

  function ComputeCancellationSlash(w: World, id: nat): nat
    requires w.Exists(id)
  {
    var t := w.At(id).terms;
    var total := EscrowIncludingShielded(w, id);
    if total == 0 then 0
    else if t.deps.engine == ZERO then t.deposit / 2
    else CancellationSlash(t.deposit, if w.now >= t.createdAt then w.now - t.createdAt else 0,
                           if t.endTime >= t.createdAt then t.endTime - t.createdAt else 0, total)
  }

  /** Sends a slash out: the vault keeps the shielded slice and returns the rest, which goes to the pot. */
  function RegisterSlash(w: World, id: nat, slash: nat): Tx<World>
    requires w.Exists(id)
  {
    var a := w.At(id);
    var deps := a.terms.deps;
    if slash == 0 then Committed(w) else
    :- Need(slash <= w.balance, NativeTransferFailed);
    var split :- Allocate(w, id, slash);
    if split.1 == 0 then Committed(split.0) else
    :- Need(deps.pot in w.pots, SlashedPotNotConfigured);
    :- Need(split.1 <= split.0.balance, NativeTransferFailed);
    Committed(split.0.(balance := split.0.balance - split.1,
                           pots := w.pots[deps.pot := Pots.RegisterSlash(w.pots[deps.pot], id, a.totalEscrow, split.1)]))
  }

  function Allocate(w: World, id: nat, slash: nat): Tx<(World, nat)>
    requires w.Exists(id) && slash <= w.balance
  {
    var a := w.At(id);
    var vault := a.terms.deps.vault;
    if vault !in w.vaults then Committed((w, slash)) else
    var kept :- Vaults.AllocateSlash(w.vaults[vault], id, a.totalEscrow, slash);
    Committed((w.(vaults := w.vaults[vault := kept.0], balance := w.balance - slash + kept.1), kept.1))
  }

  /** safeTransferFrom the market: it must own the token and a contract recipient must take it. */
  function ReleaseToken(w: World, token: (Address, nat), recipient: Address, takes: bool): Tx<World> {
    if token !in w.owners || w.owners[token] != MARKET || recipient == ZERO || !takes then Reverted(TokenTransferFailed) else
    Committed(w.(owners := w.owners[token := recipient]))
  }

  /** The market with its auction closed, before anything leaves it; a void drops the pending request. */
  function Closing(w: World, id: nat, next: AuctionState, slash: nat): World
    requires w.Exists(id)
  {
    var a := w.At(id);
    Observed(w).Put(id, a.(state := next, slash := slash, request := if next == Voided then None else a.request))
  }

  /** What cancelling and voiding share: slash, unlock the refunds, give the token back to the seller. */
  function Close(w: World, id: nat, next: AuctionState, slash: nat, takes: bool): Tx<World>
    requires w.Exists(id)
  {
    var slashed :- RegisterSlash(Closing(w, id, next, slash), id, slash);
    ReleaseToken(OpenRefunds(slashed, id), w.At(id).Token(), w.At(id).terms.seller, takes)
  }

  function CancelAuction(w: World, sender: Caller, id: nat, takes: bool): Tx<World> {
    if !w.Exists(id) then Reverted(AuctionDoesNotExist) else
    var a := w.At(id);
    :- Need(a.terms.seller == sender, NotAuctionSeller);
    :- Need(a.state == Active, UnexpectedAuctionState);
    :- Need(w.now < a.terms.endTime, AuctionAlreadyEnded);
    Close(w, id, Cancelled, ComputeCancellationSlash(w, id), takes)
  }

  function Timeout(w: World, id: nat): nat
    requires w.Exists(id)
  {
    if w.At(id).terms.deps.engine == ZERO then DEFAULT_DYNAMIC_TIMEOUT else DynamicTimeout(w.network.movingAverage)
  }

  function VoidSlash(w: World, id: nat): nat
    requires w.Exists(id)
  {
    var a := w.At(id);
    var reward := if a.keeper.Some? then a.keeper.value.reward else 0;
    if EscrowIncludingShielded(w, id) == 0 || reward >= a.terms.deposit then 0 else a.terms.deposit - reward
  }

  function TriggerFallbackVoid(w: World, id: nat, takes: bool): Tx<World> {
    if !w.Exists(id) then Reverted(AuctionDoesNotExist) else
    var a := w.At(id);
    :- Need(a.state == Resolving, UnexpectedAuctionState);
    :- Need(w.now >= a.resolvingSince + Timeout(w, id), FallbackThresholdNotReached);
    Close(w, id, Voided, VoidSlash(w, id), takes)
  }

  // ---- claims ----

  /** The escrow a claimant gets back in a terminal auction. */
  function EscrowRefund(a: Auction, claimant: Address): nat {
    if a.state == Finalized && claimant == a.outcome.winner then WinningRefund(Get(a.escrow, claimant), a.outcome.amount)
    else if a.Terminal() then Get(a.escrow, claimant)
    else 0
  }

  /** The slash compensation a claimant gets from the pot. */
  function PreviewCompensation(w: World, id: nat, claimant: Address): nat
    requires w.Exists(id)
  {
    var a := w.At(id);
    var contribution := Get(a.escrow, claimant);
    if (a.state == Cancelled || a.state == Voided) && contribution != 0 && a.slash != 0 && a.terms.deps.pot in w.pots
    then Pots.PreviewClaim(w.pots[a.terms.deps.pot], id, contribution) else 0
  }

  function ClaimRefund(w: World, sender: Caller, id: nat, accepts: bool): Tx<World> {
    if !w.Exists(id) then Reverted(AuctionDoesNotExist) else
    var a := w.At(id);
    :- Need(sender !in a.withdrawn, NoClaimableBalance);
    var refund := EscrowRefund(a, sender);
    var compensation := PreviewCompensation(w, id, sender);
    :- Need(refund != 0 || compensation != 0, NoClaimableBalance);
    :- Need(refund == 0 || (accepts && refund <= w.balance), NativeTransferFailed);
    var a' := a.(withdrawn := a.withdrawn + {sender},
                 escrow := if refund != 0 then a.escrow[sender := 0] else a.escrow);
    var paid := w.Put(id, a').(balance := w.balance - refund);
    if compensation == 0 then Committed(paid) else
    var claimed :- Pots.ClaimFor(w.pots[a.terms.deps.pot], id, sender, refund, accepts);
    Committed(paid.(pots := w.pots[a.terms.deps.pot := claimed.0]))
  }

  function SellerPayout(w: World, id: nat): nat
    requires w.Exists(id)
  {
    var a := w.At(id);
    var reward := if a.keeper.Some? then a.keeper.value.reward else 0;
    match a.state
    case Finalized => var gross := a.terms.deposit + a.outcome.amount; if reward >= gross then 0 else gross - reward
    case Cancelled => CancellationPayout(a.terms.deposit, a.slash)
    case Voided =>
      if a.slash != 0 || EscrowIncludingShielded(w, id) != 0 || reward >= a.terms.deposit then 0 else a.terms.deposit - reward
    case _ => 0
  }

  function ClaimSellerProceeds(w: World, sender: Caller, id: nat, accepts: bool): Tx<World> {
    if !w.Exists(id) then Reverted(AuctionDoesNotExist) else
    var a := w.At(id);
    :- Need(a.terms.seller == sender, NotAuctionSeller);
    :- Need(!a.sellerClaimed, SellerProceedsAlreadyClaimed);
    var payout := SellerPayout(w, id);
    :- Need(payout != 0, NoClaimableBalance);
    :- Need(accepts && payout <= w.balance, NativeTransferFailed);
    Committed(w.Put(id, a.(sellerClaimed := true)).(balance := w.balance - payout))
  }

  function ClaimFinalizeReward(w: World, sender: Caller, id: nat, accepts: bool): Tx<World> {
    if !w.Exists(id) then Reverted(AuctionDoesNotExist) else
    var a := w.At(id);
    :- Need(a.keeper.Some? && a.keeper.value.executor == sender, UnauthorizedFinalizeRewardClaim);
    var k := a.keeper.value;
    :- Need(!k.claimed, FinalizeRewardAlreadyClaimed);
    :- Need(a.state == Finalized || a.state == Voided, FinalizeRewardNotReady);
    :- Need(k.reward == 0 || (accepts && k.reward <= w.balance), NativeTransferFailed);
    Committed(w.Put(id, a.(keeper := Some(k.(claimed := true)))).(balance := w.balance - k.reward))
  }

  function ClaimAsset(w: World, sender: Caller, id: nat, takes: bool): Tx<World> {
    if !w.Exists(id) then Reverted(AuctionDoesNotExist) else
    var a := w.At(id);
    :- Need(a.state == Finalized, UnexpectedAuctionState);
    :- Need(!a.assetClaimed, AssetAlreadyClaimed);
    :- Need(a.outcome.identity == 0, ShieldedWinnerMustClaimPrivately);
    var recipient := if a.outcome.winner == ZERO then a.terms.seller else a.outcome.winner;
    :- Need(sender == recipient, UnauthorizedAssetClaim);
    ReleaseToken(w.Put(id, a.(assetClaimed := true)), a.Token(), recipient, takes)
  }

  function ClaimShieldedAsset(w: World, id: nat, identity: Word, recipient: Address, deadline: nat,
                              signer: Option<Address>, takes: bool): Tx<World>
  {
    if !w.Exists(id) then Reverted(AuctionDoesNotExist) else
    var a := w.At(id);
    var vault := a.terms.deps.vault;
    :- Need(a.state == Finalized, UnexpectedAuctionState);
    :- Need(!a.assetClaimed, AssetAlreadyClaimed);
    :- Need(recipient != ZERO, ZeroAddress);
    :- Need(vault in w.vaults, ShieldedEscrowVaultNotConfigured);
    :- Need(a.outcome.identity != 0 && identity == a.outcome.identity, UnauthorizedShieldedIdentityClaim);
    var commitment :- ResolveCommitment(w, id, identity);
    var authorized :- Vaults.AuthorizeAsset(w.vaults[vault], w.now, id, commitment, recipient, deadline, signer);
    ReleaseToken(w.Put(id, a.(assetClaimed := true)).(vaults := w.vaults[vault := authorized]), a.Token(), recipient, takes)
  }

  /** A vault's refund, with its callback into the market. */
  function ClaimShieldedRefund(w: World, vault: Address, commitment: Word, recipient: Address, deadline: nat,
                               signer: Option<Address>, accepts: bool): Tx<World>
  {
    if vault !in w.vaults then Reverted(CallToMissingContract) else
    var id := w.vaults[vault].DepositAt(commitment).auctionId;
    var released :- Vaults.Release(w.vaults[vault], w.now, commitment, recipient, deadline, signer);
    var settled :- SettleShieldedRefund(w, vault, id, commitment);
    :- Need(accepts, NativeTransferFailed);
    Committed(settled.(vaults := w.vaults[vault := released.0]))
  }

  /** The market's side of a shielded refund; the nullifier is derived from the commitment. */
  function SettleShieldedRefund(w: World, source: Address, id: nat, nullifier: Word): Tx<World> {
    if !w.Exists(id) then Reverted(AuctionDoesNotExist) else
    var a := w.At(id);
    :- Need(source == a.terms.deps.vault, UnauthorizedShieldedRefundSource);
    :- Need(nullifier !in a.settledRefunds, ShieldedRefundAlreadyClaimed);
    :- Need(a.Terminal() && a.refundsUnlocked, ShieldedRefundsNotReady);
    Committed(w.Put(id, a.(settledRefunds := a.settledRefunds + {nullifier})))
  }

  // ---- calls ----

  /** Anything that can happen to the chain. The first group is open to any account, the second to the
      market's owner, the third is the environment: time, other people's tokens, deployments, attestation
      services under their own administration. */
  datatype Call =
    | Create(sender: Caller, value: nat, nft: Address, tokenId: nat, duration: nat, startingPrice: nat, deposit: nat, approved: bool)
    | Escrow(sender: Caller, value: nat, id: nat)
    | ShieldedLock(value: nat, id: nat, identity: Word, commitment: Word, authority: Address)
    | Bid(sender: Caller, id: nat, handle: Word)
    | ShieldedBid(id: nat, commitment: Word, handle: Word, deadline: nat, covered: bool)
    | Trigger(sender: Caller, id: nat, salt: Word)
    | Resolve(id: nat, winner: Address, ciphertext: Word, amount: nat, proof: Avss.Envelope)
    | ResolveShielded(id: nat, identity: Word, ciphertext: Word, amount: nat, proof: Avss.Envelope)
    | Cancel(sender: Caller, id: nat, takes: bool)
    | Void(id: nat, takes: bool)
    | Refund(sender: Caller, id: nat, accepts: bool)
    | Proceeds(sender: Caller, id: nat, accepts: bool)
    | Reward(sender: Caller, id: nat, accepts: bool)
    | Asset(sender: Caller, id: nat, takes: bool)
    | ShieldedAsset(id: nat, identity: Word, recipient: Address, deadline: nat, signer: Option<Address>, takes: bool)
    | ShieldedRefund(vault: Address, commitment: Word, recipient: Address, deadline: nat, signer: Option<Address>, accepts: bool)
    | Donate(value: nat)
    | SetAdapter(adapter: Adapter)
    | SetEngine(engine: Address)
    | SetPot(pot: Address)
    | SetVault(vault: Address)
    | SetRegistry(registry: Address)
    | Advance(seconds: nat)
    | MoveToken(token: (Address, nat), to: Address)
    | DeployPot(at: Address)
    | DeployVault(at: Address)
    | DeployRegistry(at: Address)
    | ConfigureEngine(at: Address, avs: Address)
    | ConfigureAvs(at: Address, service: Avss.Avs)

  function Step(w: World, c: Call): Tx<World> {
    match c
    case Create(sender, value, nft, tokenId, duration, startingPrice, deposit, approved) =>
      CreateAuction(w, sender, value, nft, tokenId, duration, startingPrice, deposit, approved)
    case Escrow(sender, value, id) => LockEscrow(w, sender, value, id)
    case ShieldedLock(value, id, identity, commitment, authority) =>
      LockShieldedEscrow(w, value, id, identity, commitment, authority)
    case Bid(sender, id, handle) => PlaceBid(w, sender, id, handle)
    case ShieldedBid(id, commitment, handle, deadline, covered) =>
      PlaceShieldedBid(w, id, commitment, handle, deadline, covered)
    case Trigger(sender, id, salt) => TriggerFinalize(w, sender, id, salt)
    case Resolve(id, winner, ciphertext, amount, proof) =>
      var r :- SubmitResolution(w, id, winner, ciphertext, amount, proof); Committed(r.0)
    case ResolveShielded(id, identity, ciphertext, amount, proof) =>
      var r :- SubmitShieldedResolution(w, id, identity, ciphertext, amount, proof); Committed(r.0)
    case Cancel(sender, id, takes) => CancelAuction(w, sender, id, takes)
    case Void(id, takes) => TriggerFallbackVoid(w, id, takes)
    case Refund(sender, id, accepts) => ClaimRefund(w, sender, id, accepts)
    case Proceeds(sender, id, accepts) => ClaimSellerProceeds(w, sender, id, accepts)
    case Reward(sender, id, accepts) => ClaimFinalizeReward(w, sender, id, accepts)
    case Asset(sender, id, takes) => ClaimAsset(w, sender, id, takes)
    case ShieldedAsset(id, identity, recipient, deadline, signer, takes) =>
      ClaimShieldedAsset(w, id, identity, recipient, deadline, signer, takes)
    case ShieldedRefund(vault, commitment, recipient, deadline, signer, accepts) =>
      ClaimShieldedRefund(w, vault, commitment, recipient, deadline, signer, accepts)
    case _ => Ambient(w, c)
  }

  /** A plain transfer to the market, and its owner's dependency changes, which reach future auctions only. */
  function Ambient(w: World, c: Call): Tx<World> {
    match c
    case Donate(value) => Committed(w.(balance := w.balance + value))
    case SetAdapter(adapter) => Committed(w.(config := w.config.(adapter := adapter)))
    case SetEngine(engine) => :- Need(engine in w.engines, InvalidDependency); Committed(w.(config := w.config.(engine := engine)))
    case SetPot(pot) => :- Need(pot in w.pots, InvalidDependency); Committed(w.(config := w.config.(pot := pot)))
    case SetVault(vault) => :- Need(vault in w.vaults, InvalidDependency); Committed(w.(config := w.config.(vault := vault)))
    case SetRegistry(registry) =>
      :- Need(registry in w.registries, InvalidDependency); Committed(w.(config := w.config.(registry := registry)))
    case _ => Environment(w, c)
  }

  /** Steps nobody sends to the market; tokens the market owns move only when the market sends them. */
  function Environment(w: World, c: Call): Tx<World> {
    match c
    case Advance(seconds) => Committed(w.(now := w.now + seconds))
    case MoveToken(token, to) =>
      :- Need(token !in w.owners || w.owners[token] != MARKET, NotNftOwner); Committed(w.(owners := w.owners[token := to]))
    case DeployPot(at) =>
      :- Need(at != ZERO && at !in w.pots, InvalidDependency); Committed(w.(pots := w.pots[at := Pots.EMPTY_POT]))
    case DeployVault(at) =>
      :- Need(at != ZERO && at !in w.vaults, InvalidDependency); Committed(w.(vaults := w.vaults[at := Vaults.EMPTY_VAULT]))
    case DeployRegistry(at) =>
      :- Need(at != ZERO && at !in w.registries, InvalidDependency);
      Committed(w.(registries := w.registries[at := Registries.EMPTY_REGISTRY]))
    case ConfigureEngine(at, avs) => :- Need(at != ZERO, InvalidDependency); Committed(w.(engines := w.engines[at := avs]))
    case ConfigureAvs(at, service) => Committed(w.(avss := w.avss[at := service]))
    case _ => Reverted(CallToMissingContract)
  }

  /** A whole run: a reverted call leaves everything as it was. */
  function Run(w: World, calls: seq<Call>): World
    decreases |calls|
  {
    if calls == [] then w else
    var before := Run(w, calls[..|calls| - 1]);
    var r := Step(before, calls[|calls| - 1]);
    if r.Committed? then r.value else before
  }

  /** The market just initialised with its adapter and its pot; nothing else is configured. */
  function Genesis(now: nat, adapter: Adapter, pot: Address): World
    requires pot != ZERO
  {
    World(now, [], 0, Dependencies(adapter, ZERO, pot, ZERO, ZERO), Network(0, 0), map[], map[],
          map[pot := Pots.EMPTY_POT], map[], map[], map[])
  }
}
