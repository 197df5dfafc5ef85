/** The market contract itself: its storage, and its transactions as methods that update it in place. */
module FairMarket {
  import opened Prelude
  import opened MarketState
  import opened CiphertextEncoding
  import opened SettlementEngine
  import opened PotSolvency
  import opened MarketLifecycle
  import Spec = MarketTransactions
  import Vaults = ShieldedEscrowVault
  import Pots = SlashedPot
  import Avss = EigenLayerAvs
  import Registries = ShieldedIdentityRegistry

  /** What a transaction did: it committed exactly what the specification commits, or it reverted for the
      specification's reason and left every field as it was. */
  ghost predicate Does(spec: Tx<World>, before: World, after: World, r: Tx<()>) {
    if r.Committed? then spec == Committed(after) else spec == Reverted(r.error) && after == before
  }

  ghost predicate Answers(spec: Tx<(World, bool)>, before: World, after: World, r: Tx<bool>) {
    if r.Committed? then spec == Committed((after, r.value)) else spec == Reverted(r.error) && after == before
  }

  /** What a shielded resolution does once its outcome is recorded. */
  function SettledWinner(w: World, id: nat, identity: Word, commitment: Word, amount: nat): Tx<World>
    requires w.Exists(id)
    requires w.At(id).terms.deps.vault in w.vaults && w.At(id).terms.deps.registry in w.registries
  {
    var deps := w.At(id).terms.deps;
    var vault :- Vaults.SettleWinning(w.vaults[deps.vault], id, commitment, amount);
    var paid := w.(vaults := w.vaults[deps.vault := vault], balance := w.balance + amount);
    var registry :- Registries.MarkWinner(w.registries[deps.registry], id, identity);
    Committed(Spec.OpenRefunds(paid, id).(registries := w.registries[deps.registry := registry]))
  }

  lemma ShieldedCheckFinds(w: World, id: nat, identity: Word, ciphertext: Word, amount: nat)
    requires Spec.CheckShieldedResolution(w, id, identity, ciphertext, amount).Committed?
    ensures w.Exists(id) && w.At(id).state == Resolving && w.At(id).request.Some?
    ensures w.At(id).terms.deps.vault in w.vaults && w.At(id).terms.deps.registry in w.registries
  {}

  lemma AroundTheMarket(w: World, c: Spec.Call)
    ensures Configures(c) || Deploys(c) || Happens(c) ==> Spec.Step(w, c) == Spec.Ambient(w, c)
    ensures Deploys(c) || Happens(c) ==> Spec.Step(w, c) == Spec.Environment(w, c)
  {}

  lemma CompensatedHasPot(w: World, id: nat, claimant: Address)
    requires w.Exists(id) && Spec.PreviewCompensation(w, id, claimant) != 0
    ensures w.At(id).terms.deps.pot in w.pots
  {}

  /** The clock and the storage of every contract other than the market. */
  class Chain {
    var now: nat
    var engines: map<Address, Address>
    var avss: map<Address, Avss.Avs>
    var pots: map<Address, Pots.Pot>
    var vaults: map<Address, Vaults.Vault>
    var registries: map<Address, Registries.Registry>
    var owners: map<(Address, nat), Address>

    constructor (now: nat, pot: Address)
      ensures this.now == now && pots == map[pot := Pots.EMPTY_POT]
      ensures engines == map[] && avss == map[] && vaults == map[] && registries == map[] && owners == map[]
    {
      this.now := now;
      engines, avss, pots := map[], map[], map[pot := Pots.EMPTY_POT];
      vaults, registries, owners := map[], map[], map[];
    }
  }

  class FairMarket {
    const chain: Chain
    var auctions: seq<Auction>
    var balance: nat
    var config: Dependencies
    var network: Network

    function View(): World
      reads this, chain
    {
      World(chain.now, auctions, balance, config, network, chain.engines, chain.avss,
            chain.pots, chain.vaults, chain.registries, chain.owners)
    }

    predicate Exists(id: nat)
      reads this
    {
      1 <= id <= |auctions|
    }

    constructor (now: nat, adapter: Adapter, pot: Address)
      requires pot != ZERO
      ensures fresh(chain)
      ensures View() == Spec.Genesis(now, adapter, pot) && Sound(View())
    {
      chain := new Chain(now, pot);
      auctions, balance := [], 0;
      config, network := Dependencies(adapter, ZERO, pot, ZERO, ZERO), Network(0, 0);
      new;
      ReachableIsSound(now, adapter, pot, []);
    }

    // ---- steps shared by several transactions ----

    /** A revert undoes every write of the transaction, here and in the contracts it called. */
    method Rollback(saved: World)
      modifies this, chain
      ensures View() == saved
    {
      auctions, balance, config, network := saved.auctions, saved.balance, saved.config, saved.network;
      chain.now, chain.engines, chain.avss := saved.now, saved.engines, saved.avss;
      chain.pots, chain.vaults := saved.pots, saved.vaults;
      chain.registries, chain.owners := saved.registries, saved.owners;
    }

    method ObserveNetwork()
      modifies this`network
      ensures network == Spec.Observe(old(network), chain.now)
    {
      if network.lastObservation < 1 {
        network := network.(lastObservation := chain.now);
        return;
      }
      if chain.now <= network.lastObservation { return; }
      var delta := chain.now - network.lastObservation;
      if delta > Spec.NETWORK_SAMPLE_CEILING {
        network := network.(lastObservation := chain.now);
        return;
      }
      if network.movingAverage < 1 {
        network := network.(movingAverage := delta);
      } else {
        network := network.(movingAverage := (network.movingAverage * 7 + delta) / 8);
      }
      network := network.(lastObservation := chain.now);
    }

    /** Every caller is shown to take one of the five edges, so the contract's own guard never fires. */
    method TransitionState(id: nat, next: AuctionState)
      requires Exists(id) && Edge(auctions[id - 1].state, next)
      modifies this`auctions
      ensures auctions == old(auctions)[id - 1 := old(auctions)[id - 1].(state := next)]
    {
      auctions := auctions[id - 1 := auctions[id - 1].(state := next)];
    }

    method OpenShieldedRefundPath(id: nat)
      requires Exists(id)
      modifies this`auctions, chain`vaults
      ensures View() == Spec.OpenRefunds(old(View()), id)
    {
      var auction := auctions[id - 1];
      var vault := auction.terms.deps.vault;
      if auction.refundsUnlocked || vault !in chain.vaults { return; }
      auctions := auctions[id - 1 := auction.(refundsUnlocked := true)];
      chain.vaults := chain.vaults[vault := Vaults.Unlock(chain.vaults[vault], id)];
    }

    /** May stop half-way; its caller then reverts. */
    method RegisterSlash(id: nat, slash: nat) returns (r: Tx<()>)
      requires Exists(id)
      modifies this`balance, chain`vaults, chain`pots
      ensures r.Committed? ==> Spec.RegisterSlash(old(View()), id, slash) == Committed(View())
      ensures r.Reverted? ==> Spec.RegisterSlash(old(View()), id, slash) == Reverted(r.error)
    {
      var auction := auctions[id - 1];
      var deps := auction.terms.deps;
      if slash < 1 { return Committed(()); }
      if slash > balance { return Reverted(NativeTransferFailed); }
      var publicSlash := slash;
      if deps.vault in chain.vaults {
        var kept := Vaults.AllocateSlash(chain.vaults[deps.vault], id, auction.totalEscrow, slash);
        if kept.Reverted? { return Reverted(kept.error); }
        publicSlash := kept.value.1;
        chain.vaults := chain.vaults[deps.vault := kept.value.0];
        balance := balance - slash + publicSlash;
      }
      if publicSlash < 1 { return Committed(()); }
      if deps.pot !in chain.pots { return Reverted(SlashedPotNotConfigured); }
      if publicSlash > balance { return Reverted(NativeTransferFailed); }
      balance := balance - publicSlash;
      chain.pots := chain.pots[deps.pot := Pots.RegisterSlash(chain.pots[deps.pot], id, auction.totalEscrow, publicSlash)];
      return Committed(());
    }

    method ReleaseFromEscrow(token: (Address, nat), recipient: Address, takes: bool) returns (r: Tx<()>)
      modifies chain`owners
      ensures Does(Spec.ReleaseToken(old(View()), token, recipient, takes), old(View()), View(), r)
    {
      if token !in chain.owners || chain.owners[token] != MARKET || recipient == ZERO || !takes {
        return Reverted(TokenTransferFailed);
      }
      chain.owners := chain.owners[token := recipient];
      return Committed(());
    }

    method SendValue(amount: nat, accepts: bool) returns (ok: bool)
      modifies this`balance
      ensures ok == (accepts && amount <= old(balance))
      ensures balance == if ok then old(balance) - amount else old(balance)
    {
      ok := accepts && amount <= balance;
      if ok { balance := balance - amount; }
    }

    /** The engine forwards the proof to its verifier, whose slash counts may change. */
    method VerifyProof(engine: Address, s: Avss.Statement, proof: Avss.Envelope) returns (r: Tx<bool>)
      modifies chain`avss
      ensures Answers(Spec.VerifyProof(old(View()), engine, s, proof), old(View()), View(), r)
    {
      if engine !in chain.engines { return Reverted(CallToMissingContract); }
      var avs := chain.engines[engine];
      if avs == ZERO { return Reverted(ZeroAddress); }
      if avs !in chain.avss { return Reverted(CallToMissingContract); }
      var checked := Avss.Verify(chain.avss[avs], avs, MARKET, s, proof);
      if checked.Reverted? { return Reverted(checked.error); }
      chain.avss := chain.avss[avs := checked.value.0];
      return Committed(checked.value.1);
    }

    // ---- creation, escrow and bids ----

    method CreateAuction(sender: Caller, value: nat, nft: Address, tokenId: nat, duration: nat, startingPrice: nat,
                         deposit: nat, approved: bool) returns (r: Tx<()>)
      modifies this, chain
      ensures Does(Spec.CreateAuction(old(View()), sender, value, nft, tokenId, duration, startingPrice, deposit, approved),
                   old(View()), View(), r)
    {
      if nft == ZERO { return Reverted(ZeroAddress); }
      if duration < Spec.MIN_AUCTION_DURATION || duration > Spec.MAX_AUCTION_DURATION { return Reverted(InvalidDuration); }
      if startingPrice > MAX_EUINT96 { return Reverted(InvalidStartingPrice); }
      if value == 0 || value != deposit { return Reverted(IncorrectSellerDeposit); }
      if (nft, tokenId) !in chain.owners || chain.owners[(nft, tokenId)] != sender { return Reverted(NotNftOwner); }
      if !approved { return Reverted(NftNotApproved); }
      balance := balance + value;
      var terms := Terms(nft, tokenId, sender, chain.now, chain.now + duration, deposit, startingPrice, config);
      auctions := auctions + [Spec.NewAuction(terms).(state := Created)];
      ObserveNetwork();
      TransitionState(|auctions|, Active);
      chain.owners := chain.owners[(nft, tokenId) := MARKET];
      assert auctions == old(auctions) + [Spec.NewAuction(terms)];
      return Committed(());
    }

    method LockEscrow(sender: Caller, value: nat, id: nat) returns (r: Tx<()>)
      modifies this
      ensures Does(Spec.LockEscrow(old(View()), sender, value, id), old(View()), View(), r)
    {
      if !Exists(id) { return Reverted(AuctionDoesNotExist); }
      var auction := auctions[id - 1];
      if auction.state != Active { return Reverted(UnexpectedAuctionState); }
      if value == 0 { return Reverted(ZeroValue); }
      if chain.now >= auction.terms.endTime { return Reverted(AuctionAlreadyEnded); }
      balance := balance + value;
      auction := auction.(escrow := auction.escrow[sender := Get(auction.escrow, sender) + value]);
      auction := auction.(totalEscrow := auction.totalEscrow + value);
      auctions := auctions[id - 1 := auction];
      ObserveNetwork();
      return Committed(());
    }

    method LockShieldedEscrow(value: nat, id: nat, identity: Word, commitment: Word, authority: Address) returns (r: Tx<()>)
      modifies this, chain
      ensures Does(Spec.LockShieldedEscrow(old(View()), value, id, identity, commitment, authority), old(View()), View(), r)
    {
      var saved := View();
      if !Exists(id) { return Reverted(AuctionDoesNotExist); }
      var auction := auctions[id - 1];
      var deps := auction.terms.deps;
      if auction.state != Active { return Reverted(UnexpectedAuctionState); }
      if value == 0 { return Reverted(ZeroValue); }
      if identity == 0 { return Reverted(InvalidIdentityHash); }
      if commitment == 0 { return Reverted(InvalidCommitmentHash); }
      if chain.now >= auction.terms.endTime { return Reverted(AuctionAlreadyEnded); }
      if deps.vault !in chain.vaults { return Reverted(ShieldedEscrowVaultNotConfigured); }
      if deps.registry !in chain.registries { return Reverted(ShieldedIdentityRegistryNotConfigured); }
      ObserveNetwork();
      var bound := Registries.Bind(chain.registries[deps.registry], id, identity, commitment);
      if bound.Reverted? { Rollback(saved); return Reverted(bound.error); }
      chain.registries := chain.registries[deps.registry := bound.value];
      var locked := Vaults.Lock(chain.vaults[deps.vault], id, commitment, value, authority);
      if locked.Reverted? { Rollback(saved); return Reverted(locked.error); }
      chain.vaults := chain.vaults[deps.vault := locked.value];
      return Committed(());
    }

    method PlaceBid(sender: Caller, id: nat, handle: Word) returns (r: Tx<()>)
      modifies this
      ensures Does(Spec.PlaceBid(old(View()), sender, id, handle), old(View()), View(), r)
    {
      if !Exists(id) { return Reverted(AuctionDoesNotExist); }
      var auction := auctions[id - 1];
      if auction.state != Active { return Reverted(UnexpectedAuctionState); }
      if chain.now >= auction.terms.endTime { return Reverted(AuctionAlreadyEnded); }
      var available := Get(auction.escrow, sender);
      if available == 0 { return Reverted(NoEscrowLocked); }
      var opening := Spec.MeetsOpeningBid(auction, handle);
      if opening.Failed? { return Reverted(opening.error); }
      var cover := Spec.Covers(auction, handle, available);
      if cover.Failed? { return Reverted(cover.error); }
      if Get(auction.bids, sender) == 0 { auction := auction.(bidCount := auction.bidCount + 1); }
      if sender !in auction.bids { auction := auction.(bidders := auction.bidders + [sender]); }
      auction := auction.(bids := auction.bids[sender := handle]);
      auctions := auctions[id - 1 := auction];
      ObserveNetwork();
      return Committed(());
    }

    method PlaceShieldedBid(id: nat, commitment: Word, handle: Word, deadline: nat, covered: bool) returns (r: Tx<()>)
      modifies this
      ensures Does(Spec.PlaceShieldedBid(old(View()), id, commitment, handle, deadline, covered), old(View()), View(), r)
    {
      if !Exists(id) { return Reverted(AuctionDoesNotExist); }
      var auction := auctions[id - 1];
      if auction.state != Active { return Reverted(UnexpectedAuctionState); }
      if chain.now >= auction.terms.endTime { return Reverted(AuctionAlreadyEnded); }
      if commitment == 0 { return Reverted(InvalidCommitmentHash); }
      if auction.terms.deps.vault !in chain.vaults { return Reverted(ShieldedEscrowVaultNotConfigured); }
      var vault := chain.vaults[auction.terms.deps.vault];
      var deposit := vault.DepositAt(commitment);
      if deposit.auctionId != id || deposit.claimed { return Reverted(MissingShieldedEncryptedBid); }
      if vault.BookAt(id).unlocked { return Reverted(AuctionAlreadyEnded); }
      var opening := Spec.MeetsOpeningBid(auction, handle);
      if opening.Failed? { return Reverted(opening.error); }
      var spendable := Vaults.Spendable(deposit);
      if spendable.Failed? { return Reverted(spendable.error); }
      if chain.now > deadline { return Reverted(ClaimAuthorizationExpired); }
      if !covered { return Reverted(InvalidShieldedBidProof); }
      if Get(auction.shieldedBids, commitment) == 0 { auction := auction.(bidCount := auction.bidCount + 1); }
      if commitment !in auction.shieldedBids { auction := auction.(commitments := auction.commitments + [commitment]); }
      auction := auction.(shieldedBids := auction.shieldedBids[commitment := handle]);
      auctions := auctions[id - 1 := auction];
      ObserveNetwork();
      return Committed(());
    }

    // ---- resolution ----

    method TriggerFinalize(sender: Caller, id: nat, salt: Word) returns (r: Tx<()>)
      modifies this
      ensures Does(Spec.TriggerFinalize(old(View()), sender, id, salt), old(View()), View(), r)
    {
      if !Exists(id) { return Reverted(AuctionDoesNotExist); }
      if auctions[id - 1].state != Active { return Reverted(UnexpectedAuctionState); }
      if chain.now < auctions[id - 1].terms.endTime { return Reverted(AuctionStillRunning); }
      if auctions[id - 1].request.Some? { return Reverted(ResolutionAlreadyRequested); }
      ObserveNetwork();
      TransitionState(id, Resolving);
      var auction := auctions[id - 1];
      auction := auction.(resolvingSince := chain.now);
      var nonce := 1;
      if auction.keeper.Some? { nonce := auction.keeper.value.nonce + 1; }
      auction := auction.(keeper := Some(Finalization(sender, FinalizeReward(auction.terms.deposit), nonce, salt, false)));
      auction := auction.(request := Some(Request(Spec.NextRequestId(auction, id, nonce, salt), chain.now)));
      auctions := auctions[id - 1 := auction];
      assert auctions == old(auctions)[id - 1 := auction];
      return Committed(());
    }

    method SubmitResolution(id: nat, winner: Address, ciphertext: Word, amount: nat, proof: Avss.Envelope) returns (r: Tx<bool>)
      modifies this, chain
      ensures Answers(Spec.SubmitResolution(old(View()), id, winner, ciphertext, amount, proof), old(View()), View(), r)
    {
      hide Spec.VerifyProof, Spec.OpenRefunds, Spec.Observe;
      if !Exists(id) { return Reverted(AuctionDoesNotExist); }
      var auction := auctions[id - 1];
      if auction.state != Resolving { return Reverted(UnexpectedAuctionState); }
      if auction.request.None? { return Reverted(MissingResolutionRequest); }
      if auction.terms.deps.engine == ZERO { return Reverted(InvalidAvsProof); }
      if winner == ZERO {
        if amount != 0 { return Reverted(WinnerRequiredForWinningAmount); }
      } else {
        if amount == 0 { return Reverted(ZeroWinningAmount); }
        if amount < auction.terms.startingPrice { return Reverted(WinningAmountBelowStartingPrice); }
        if Get(auction.bids, winner) == 0 { return Reverted(MissingEncryptedBid); }
        var escrow := Get(auction.escrow, winner);
        var cover := Spec.Covers(auction, ciphertext, escrow);
        if cover.Failed? { return Reverted(cover.error); }
        if amount > escrow { return Reverted(InvalidWinningAmount); }
      }
      var statement := Avss.Statement(id, auction.request.value.requestId, winner, ciphertext, amount);
      r := VerifyProof(auction.terms.deps.engine, statement, proof);
      if r.Reverted? || !r.value { return; }
      RecordOutcome(id, Outcome(winner, ciphertext, amount, 0));
      OpenShieldedRefundPath(id);
    }

    method SubmitShieldedResolution(id: nat, identity: Word, ciphertext: Word, amount: nat, proof: Avss.Envelope)
      returns (r: Tx<bool>)
      modifies this, chain
      ensures Answers(Spec.SubmitShieldedResolution(old(View()), id, identity, ciphertext, amount, proof),
                      old(View()), View(), r)
    {
      hide Vaults.SettleWinning, Registries.MarkWinner, Spec.OpenRefunds, Spec.Observe;
      hide Spec.VerifyProof, Spec.CheckShieldedResolution;
      var saved := View();
      var check := Spec.CheckShieldedResolution(saved, id, identity, ciphertext, amount);
      if check.Reverted? { return Reverted(check.error); }
      ShieldedCheckFinds(saved, id, identity, ciphertext, amount);
      var auction := auctions[id - 1];
      var deps := auction.terms.deps;
      var statement := Avss.Statement(id, auction.request.value.requestId, identity, ciphertext, amount);
      r := VerifyProof(deps.engine, statement, proof);
      if r.Reverted? || !r.value { return; }
      RecordOutcome(id, Outcome(ZERO, ciphertext, amount, identity));
      var settled := SettleWinner(id, identity, check.value, amount);
      if settled.Reverted? {
        Rollback(saved);
        r := Reverted(settled.error);
      }
    }

    /** The outcome is written, the request dropped and the auction finalized. */
    method RecordOutcome(id: nat, outcome: Outcome)
      requires Exists(id) && auctions[id - 1].state == Resolving
      modifies this`auctions, this`network
      ensures var was := old(View());
              View() == Spec.Observed(was).Put(id, was.At(id).(state := Finalized, outcome := outcome, request := None))
    {
      hide Spec.Observe;
      auctions := auctions[id - 1 := auctions[id - 1].(outcome := outcome, request := None)];
      TransitionState(id, Finalized);
      ObserveNetwork();
      assert auctions == old(auctions)[id - 1 := auctions[id - 1]];
    }

    /** The vault pays the winning amount in, the refunds open and the registry marks the winner; may stop half-way. */
    method SettleWinner(id: nat, identity: Word, commitment: Word, amount: nat) returns (r: Tx<()>)
      requires Exists(id)
      requires auctions[id - 1].terms.deps.vault in chain.vaults && auctions[id - 1].terms.deps.registry in chain.registries
      modifies this`auctions, this`balance, chain`vaults, chain`registries
      ensures var settled := SettledWinner(old(View()), id, identity, commitment, amount);
              if r.Committed? then settled == Committed(View()) else settled == Reverted(r.error)
    {
      hide Vaults.SettleWinning, Registries.MarkWinner, Vaults.Unlock;
      var deps := auctions[id - 1].terms.deps;
      var settled := Vaults.SettleWinning(chain.vaults[deps.vault], id, commitment, amount);
      if settled.Reverted? { return Reverted(settled.error); }
      chain.vaults := chain.vaults[deps.vault := settled.value];
      balance := balance + amount;
      OpenShieldedRefundPath(id);
      var marked := Registries.MarkWinner(chain.registries[deps.registry], id, identity);
      if marked.Reverted? { return Reverted(marked.error); }
      chain.registries := chain.registries[deps.registry := marked.value];
      return Committed(());
    }

    // ---- cancellation and fallback ----

    method CancelAuction(sender: Caller, id: nat, takes: bool) returns (r: Tx<()>)
      modifies this, chain
      ensures Does(Spec.CancelAuction(old(View()), sender, id, takes), old(View()), View(), r)
    {
      var saved := View();
      if !Exists(id) { return Reverted(AuctionDoesNotExist); }
      var auction := auctions[id - 1];
      if auction.terms.seller != sender { return Reverted(NotAuctionSeller); }
      if auction.state != Active { return Reverted(UnexpectedAuctionState); }
      if chain.now >= auction.terms.endTime { return Reverted(AuctionAlreadyEnded); }
      var slash := Spec.ComputeCancellationSlash(saved, id);
      auctions := auctions[id - 1 := auction.(slash := slash)];
      ObserveNetwork();
      TransitionState(id, Cancelled);
      assert View() == Spec.Closing(saved, id, Cancelled, slash);
      r := RegisterSlash(id, slash);
      if r.Reverted? { Rollback(saved); return; }
      OpenShieldedRefundPath(id);
      r := ReleaseFromEscrow(auction.Token(), auction.terms.seller, takes);
      if r.Reverted? { Rollback(saved); }
    }

    method TriggerFallbackVoid(id: nat, takes: bool) returns (r: Tx<()>)
      modifies this, chain
      ensures Does(Spec.TriggerFallbackVoid(old(View()), id, takes), old(View()), View(), r)
    {
      var saved := View();
      if !Exists(id) { return Reverted(AuctionDoesNotExist); }
      var auction := auctions[id - 1];
      if auction.state != Resolving { return Reverted(UnexpectedAuctionState); }
      if chain.now < auction.resolvingSince + Spec.Timeout(saved, id) { return Reverted(FallbackThresholdNotReached); }
      var slash := Spec.VoidSlash(saved, id);
      auctions := auctions[id - 1 := auction.(slash := slash, request := None)];
      ObserveNetwork();
      TransitionState(id, Voided);
      assert View() == Spec.Closing(saved, id, Voided, slash);
      r := RegisterSlash(id, slash);
      if r.Reverted? { Rollback(saved); return; }
      OpenShieldedRefundPath(id);
      r := ReleaseFromEscrow(auction.Token(), auction.terms.seller, takes);
      if r.Reverted? { Rollback(saved); }
    }

    // ---- claims ----

    method ClaimRefund(sender: Caller, id: nat, accepts: bool) returns (r: Tx<()>)
      modifies this, chain
      ensures Does(Spec.ClaimRefund(old(View()), sender, id, accepts), old(View()), View(), r)
    {
      hide Spec.EscrowRefund, Pots.ClaimFor, Spec.PreviewCompensation;
      var saved := View();
      if !Exists(id) { return Reverted(AuctionDoesNotExist); }
      var auction := auctions[id - 1];
      if sender in auction.withdrawn { return Reverted(NoClaimableBalance); }
      var refund, compensation := Spec.EscrowRefund(auction, sender), Spec.PreviewCompensation(saved, id, sender);
      if refund == 0 && compensation == 0 { return Reverted(NoClaimableBalance); }
      r := ReturnEscrow(id, sender, refund, accepts);
      if r.Reverted? { return; }
      if compensation != 0 {
        CompensatedHasPot(saved, id, sender);
        r := ClaimCompensation(auction.terms.deps.pot, id, sender, refund, accepts);
        if r.Reverted? { Rollback(saved); }
      }
    }

    /** Marks the claimant as paid before its escrow leaves. */
    method ReturnEscrow(id: nat, sender: Caller, refund: nat, accepts: bool) returns (r: Tx<()>)
      requires Exists(id)
      modifies this`auctions, this`balance
      ensures r == if refund == 0 || (accepts && refund <= old(balance)) then Committed(()) else Reverted(NativeTransferFailed)
      ensures r.Reverted? ==> auctions == old(auctions) && balance == old(balance)
      ensures r.Committed? ==> balance == old(balance) - refund
      ensures var a := old(auctions)[id - 1];
              r.Committed? ==> auctions == old(auctions)[id - 1 := a.(
                withdrawn := a.withdrawn + {sender}, escrow := if refund != 0 then a.escrow[sender := 0] else a.escrow)]
    {
      var auction := auctions[id - 1];
      auction := auction.(withdrawn := auction.withdrawn + {sender});
      if refund != 0 {
        auction := auction.(escrow := auction.escrow[sender := 0]);
        var sent := SendValue(refund, accepts);
        if !sent { return Reverted(NativeTransferFailed); }
      }
      auctions := auctions[id - 1 := auction];
      return Committed(());
    }

    method ClaimCompensation(pot: Address, id: nat, sender: Caller, refund: nat, accepts: bool) returns (r: Tx<()>)
      requires pot in chain.pots
      modifies chain`pots
      ensures var claimed := Pots.ClaimFor(old(chain.pots[pot]), id, sender, refund, accepts);
              if r.Committed?
              then claimed.Committed? && chain.pots == old(chain.pots)[pot := claimed.value.0]
              else claimed == Reverted(r.error) && chain.pots == old(chain.pots)
    {
      var claimed := Pots.ClaimFor(chain.pots[pot], id, sender, refund, accepts);
      if claimed.Reverted? { return Reverted(claimed.error); }
      chain.pots := chain.pots[pot := claimed.value.0];
      return Committed(());
    }

    method ClaimSellerProceeds(sender: Caller, id: nat, accepts: bool) returns (r: Tx<()>)
      modifies this
      ensures Does(Spec.ClaimSellerProceeds(old(View()), sender, id, accepts), old(View()), View(), r)
    {
      if !Exists(id) { return Reverted(AuctionDoesNotExist); }
      var auction := auctions[id - 1];
      if auction.terms.seller != sender { return Reverted(NotAuctionSeller); }
      if auction.sellerClaimed { return Reverted(SellerProceedsAlreadyClaimed); }
      var payout := Spec.SellerPayout(View(), id);
      if payout == 0 { return Reverted(NoClaimableBalance); }
      var sent := SendValue(payout, accepts);
      if !sent { return Reverted(NativeTransferFailed); }
      auctions := auctions[id - 1 := auction.(sellerClaimed := true)];
      return Committed(());
    }

    method ClaimFinalizeReward(sender: Caller, id: nat, accepts: bool) returns (r: Tx<()>)
      modifies this
      ensures Does(Spec.ClaimFinalizeReward(old(View()), sender, id, accepts), old(View()), View(), r)
    {
      if !Exists(id) { return Reverted(AuctionDoesNotExist); }
      var auction := auctions[id - 1];
      if auction.keeper.None? || auction.keeper.value.executor != sender { return Reverted(UnauthorizedFinalizeRewardClaim); }
      var keeper := auction.keeper.value;
      if keeper.claimed { return Reverted(FinalizeRewardAlreadyClaimed); }
      if auction.state != Finalized && auction.state != Voided { return Reverted(FinalizeRewardNotReady); }
      if keeper.reward != 0 {
        var sent := SendValue(keeper.reward, accepts);
        if !sent { return Reverted(NativeTransferFailed); }
      }
      auctions := auctions[id - 1 := auction.(keeper := Some(keeper.(claimed := true)))];
      return Committed(());
    }

    method ClaimAsset(sender: Caller, id: nat, takes: bool) returns (r: Tx<()>)
      modifies this, chain
      ensures Does(Spec.ClaimAsset(old(View()), sender, id, takes), old(View()), View(), r)
    {
      hide Spec.ReleaseToken, Auction.Token;
      var saved := View();
      if !Exists(id) { return Reverted(AuctionDoesNotExist); }
      var auction := auctions[id - 1];
      if auction.state != Finalized { return Reverted(UnexpectedAuctionState); }
      if auction.assetClaimed { return Reverted(AssetAlreadyClaimed); }
      if auction.outcome.identity != 0 { return Reverted(ShieldedWinnerMustClaimPrivately); }
      var recipient := auction.outcome.winner;
      if recipient == ZERO { recipient := auction.terms.seller; }
      if sender != recipient { return Reverted(UnauthorizedAssetClaim); }
      auctions := auctions[id - 1 := auction.(assetClaimed := true)];
      assert View() == saved.Put(id, auction.(assetClaimed := true));
      assert Spec.ClaimAsset(saved, sender, id, takes) == Spec.ReleaseToken(View(), auction.Token(), recipient, takes);
      r := ReleaseFromEscrow(auction.Token(), recipient, takes);
      if r.Reverted? { Rollback(saved); }
    }

    method ClaimShieldedAsset(id: nat, identity: Word, recipient: Address, deadline: nat, signer: Option<Address>,
                              takes: bool) returns (r: Tx<()>)
      modifies this, chain
      ensures Does(Spec.ClaimShieldedAsset(old(View()), id, identity, recipient, deadline, signer, takes),
                   old(View()), View(), r)
    {
      hide Spec.ReleaseToken, Vaults.AuthorizeAsset, Spec.ResolveCommitment, Auction.Token;
      var saved := View();
      if !Exists(id) { return Reverted(AuctionDoesNotExist); }
      var auction := auctions[id - 1];
      var vault := auction.terms.deps.vault;
      if auction.state != Finalized { return Reverted(UnexpectedAuctionState); }
      if auction.assetClaimed { return Reverted(AssetAlreadyClaimed); }
      if recipient == ZERO { return Reverted(ZeroAddress); }
      if vault !in chain.vaults { return Reverted(ShieldedEscrowVaultNotConfigured); }
      if auction.outcome.identity == 0 || identity != auction.outcome.identity {
        return Reverted(UnauthorizedShieldedIdentityClaim);
      }
      var commitment := Spec.ResolveCommitment(saved, id, identity);
      if commitment.Reverted? { return Reverted(commitment.error); }
      auctions := auctions[id - 1 := auction.(assetClaimed := true)];
      var used := Vaults.AuthorizeAsset(chain.vaults[vault], chain.now, id, commitment.value, recipient, deadline, signer);
      if used.Reverted? { Rollback(saved); return Reverted(used.error); }
      chain.vaults := chain.vaults[vault := used.value];
      assert View() == saved.Put(id, auction.(assetClaimed := true)).(vaults := saved.vaults[vault := used.value]);
      r := ReleaseFromEscrow(auction.Token(), recipient, takes);
      if r.Reverted? { Rollback(saved); }
    }

    /** The vault's callback, which marks one nullifier. */
    method SettleShieldedRefund(source: Address, id: nat, nullifier: Word) returns (r: Tx<()>)
      modifies this`auctions
      ensures Does(Spec.SettleShieldedRefund(old(View()), source, id, nullifier), old(View()), View(), r)
    {
      if !Exists(id) { return Reverted(AuctionDoesNotExist); }
      var auction := auctions[id - 1];
      if source != auction.terms.deps.vault { return Reverted(UnauthorizedShieldedRefundSource); }
      if nullifier in auction.settledRefunds { return Reverted(ShieldedRefundAlreadyClaimed); }
      if !auction.Terminal() || !auction.refundsUnlocked { return Reverted(ShieldedRefundsNotReady); }
      auctions := auctions[id - 1 := auction.(settledRefunds := auction.settledRefunds + {nullifier})];
      return Committed(());
    }

    /** A refund starts at the vault, which writes its own rows before it calls back and pays. */
    method ClaimShieldedRefund(vault: Address, commitment: Word, recipient: Address, deadline: nat,
                               signer: Option<Address>, accepts: bool) returns (r: Tx<()>)
      modifies this, chain
      ensures Does(Spec.ClaimShieldedRefund(old(View()), vault, commitment, recipient, deadline, signer, accepts),
                   old(View()), View(), r)
    {
      var saved := View();
      if vault !in chain.vaults { return Reverted(CallToMissingContract); }
      var id := chain.vaults[vault].DepositAt(commitment).auctionId;
      var released := Vaults.Release(chain.vaults[vault], chain.now, commitment, recipient, deadline, signer);
      if released.Reverted? { return Reverted(released.error); }
      r := SettleShieldedRefund(vault, id, commitment);
      if r.Reverted? { return; }
      if !accepts { Rollback(saved); return Reverted(NativeTransferFailed); }
      chain.vaults := chain.vaults[vault := released.value.0];
    }

    // ---- runs ----

    /** Donations and the owner's dependency changes. */
    method Configure(c: Spec.Call) returns (r: Tx<()>)
      requires Configures(c)
      modifies this, chain
      ensures Does(Spec.Ambient(old(View()), c), old(View()), View(), r)
    {
      hide Spec.Environment;
      r := Committed(());
      match c
      case Donate(value) => balance := balance + value;
      case SetAdapter(adapter) => config := config.(adapter := adapter);
      case SetEngine(engine) =>
        if engine !in chain.engines { return Reverted(InvalidDependency); }
        config := config.(engine := engine);
      case SetPot(pot) =>
        if pot !in chain.pots { return Reverted(InvalidDependency); }
        config := config.(pot := pot);
      case SetVault(vault) =>
        if vault !in chain.vaults { return Reverted(InvalidDependency); }
        config := config.(vault := vault);
      case SetRegistry(registry) =>
        if registry !in chain.registries { return Reverted(InvalidDependency); }
        config := config.(registry := registry);
    }

    /** Whatever happens around the market. */
    method Happen(c: Spec.Call) returns (r: Tx<()>)
      requires Happens(c)
      modifies chain
      ensures Does(Spec.Environment(old(View()), c), old(View()), View(), r)
    {
      r := Committed(());
      match c
      case Advance(seconds) => chain.now := chain.now + seconds;
      case MoveToken(token, to) =>
        if token in chain.owners && chain.owners[token] == MARKET { return Reverted(NotNftOwner); }
        chain.owners := chain.owners[token := to];
      case ConfigureEngine(at, avs) =>
        if at == ZERO { return Reverted(InvalidDependency); }
        chain.engines := chain.engines[at := avs];
      case ConfigureAvs(at, service) => chain.avss := chain.avss[at := service];
    }

    method Deploy(c: Spec.Call) returns (r: Tx<()>)
      requires Deploys(c)
      modifies chain
      ensures Does(Spec.Environment(old(View()), c), old(View()), View(), r)
    {
      r := Committed(());
      match c
      case DeployPot(at) =>
        if at == ZERO || at in chain.pots { return Reverted(InvalidDependency); }
        chain.pots := chain.pots[at := Pots.EMPTY_POT];
      case DeployVault(at) =>
        if at == ZERO || at in chain.vaults { return Reverted(InvalidDependency); }
        chain.vaults := chain.vaults[at := Vaults.EMPTY_VAULT];
      case DeployRegistry(at) =>
        if at == ZERO || at in chain.registries { return Reverted(InvalidDependency); }
        chain.registries := chain.registries[at := Registries.EMPTY_REGISTRY];
    }

    method Surround(c: Spec.Call) returns (r: Tx<()>)
      requires Configures(c) || Deploys(c) || Happens(c)
      modifies this, chain
      ensures Does(Spec.Step(old(View()), c), old(View()), View(), r)
    {
      hide Does, Spec.Environment, Spec.Ambient, Spec.Step;
      AroundTheMarket(View(), c);
      if Configures(c) {
        r := Configure(c);
      } else if Deploys(c) {
        r := Deploy(c);
      } else {
        r := Happen(c);
      }
    }

    /** Any call in any sound state: the contract does what the specification says, and stays solvent. */
    method Execute(c: Spec.Call) returns (r: Tx<()>)
      requires Sound(View())
      modifies this, chain
      ensures Does(Spec.Step(old(View()), c), old(View()), View(), r)
      ensures Sound(View())
    {
      ghost var before := View();
      if OnAuction(c) {
        r := ExecuteOnAuction(c);
      } else if Claims(c) {
        r := ExecuteClaim(c);
      } else {
        r := Surround(c);
      }
      if r.Committed? { StepKeepsSound(before, c); }
    }

    method ExecuteOnAuction(c: Spec.Call) returns (r: Tx<()>)
      requires OnAuction(c)
      modifies this, chain
      ensures Does(Spec.Step(old(View()), c), old(View()), View(), r)
    {
      hide Does, Spec.CreateAuction, Spec.LockEscrow, Spec.LockShieldedEscrow, Spec.PlaceBid, Spec.PlaceShieldedBid;
      hide Spec.TriggerFinalize, Spec.CancelAuction, Spec.TriggerFallbackVoid;
      match c
      case Create(sender, value, nft, tokenId, duration, startingPrice, deposit, approved) =>
        r := CreateAuction(sender, value, nft, tokenId, duration, startingPrice, deposit, approved);
      case Escrow(sender, value, id) => r := LockEscrow(sender, value, id);
      case ShieldedLock(value, id, identity, commitment, authority) =>
        r := LockShieldedEscrow(value, id, identity, commitment, authority);
      case Bid(sender, id, handle) => r := PlaceBid(sender, id, handle);
      case ShieldedBid(id, commitment, handle, deadline, covered) =>
        r := PlaceShieldedBid(id, commitment, handle, deadline, covered);
      case Trigger(sender, id, salt) => r := TriggerFinalize(sender, id, salt);
      case Cancel(sender, id, takes) => r := CancelAuction(sender, id, takes);
      case Void(id, takes) => r := TriggerFallbackVoid(id, takes);
      case Resolve(_, _, _, _, _) => r := Resolve(c);
      case ResolveShielded(_, _, _, _, _) => r := Resolve(c);
    }

    /** A rejected proof commits too: the transaction answers false. */
    method Resolve(c: Spec.Call) returns (r: Tx<()>)
      requires c.Resolve? || c.ResolveShielded?
      modifies this, chain
      ensures Does(Spec.Step(old(View()), c), old(View()), View(), r)
    {
      hide Spec.SubmitResolution, Spec.SubmitShieldedResolution;
      var answer: Tx<bool>;
      if c.Resolve? {
        answer := SubmitResolution(c.id, c.winner, c.ciphertext, c.amount, c.proof);
      } else {
        answer := SubmitShieldedResolution(c.id, c.identity, c.ciphertext, c.amount, c.proof);
      }
      r := if answer.Committed? then Committed(()) else Reverted(answer.error);
    }

    method ExecuteClaim(c: Spec.Call) returns (r: Tx<()>)
      requires Claims(c)
      modifies this, chain
      ensures Does(Spec.Step(old(View()), c), old(View()), View(), r)
    {
      hide Does, Spec.ClaimRefund, Spec.ClaimSellerProceeds, Spec.ClaimFinalizeReward;
      hide Spec.ClaimAsset, Spec.ClaimShieldedAsset, Spec.ClaimShieldedRefund;
      match c
      case Refund(sender, id, accepts) => r := ClaimRefund(sender, id, accepts);
      case Proceeds(sender, id, accepts) => r := ClaimSellerProceeds(sender, id, accepts);
      case Reward(sender, id, accepts) => r := ClaimFinalizeReward(sender, id, accepts);
      case Asset(sender, id, takes) => r := ClaimAsset(sender, id, takes);
      case ShieldedAsset(id, identity, recipient, deadline, signer, takes) =>
        r := ClaimShieldedAsset(id, identity, recipient, deadline, signer, takes);
      case ShieldedRefund(vault, commitment, recipient, deadline, signer, accepts) =>
        r := ClaimShieldedRefund(vault, commitment, recipient, deadline, signer, accepts);
    }

    /** A whole run of calls by anyone, from any sound state. */
    method Replay(calls: seq<Spec.Call>)
      requires Sound(View())
      modifies this, chain
      ensures View() == Spec.Run(old(View()), calls) && Sound(View())
    {
      hide Sound, Spec.Step;
      var i := 0;
      while i < |calls|
        invariant 0 <= i <= |calls|
        invariant View() == Spec.Run(old(View()), calls[..i]) && Sound(View())
      {
        assert calls[..i + 1][..i] == calls[..i];
        var _ := Execute(calls[i]);
        i := i + 1;
      }
      assert calls[..i] == calls;
    }
  }

  predicate OnAuction(c: Spec.Call) {
    || c.Create? || c.Escrow? || c.ShieldedLock? || c.Bid? || c.ShieldedBid? || c.Trigger?
    || c.Resolve? || c.ResolveShielded? || c.Cancel? || c.Void?
  }

  predicate Configures(c: Spec.Call) {
    c.Donate? || c.SetAdapter? || c.SetEngine? || c.SetPot? || c.SetVault? || c.SetRegistry?
  }

  predicate Deploys(c: Spec.Call) {
    c.DeployPot? || c.DeployVault? || c.DeployRegistry?
  }

  predicate Happens(c: Spec.Call) {
    c.Advance? || c.MoveToken? || c.ConfigureEngine? || c.ConfigureAvs?
  }

  predicate Claims(c: Spec.Call) {
    c.Refund? || c.Proceeds? || c.Reward? || c.Asset? || c.ShieldedAsset? || c.ShieldedRefund?
  }
}
