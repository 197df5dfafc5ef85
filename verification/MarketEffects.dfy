/** What a call writes, account by account, and what a whole run of calls adds up to: terms, escrow rows and bids. */
module MarketEffects {
  import opened Prelude
  import opened CiphertextEncoding
  import opened SettlementEngine
  import opened MarketState
  import opened MarketTransactions
  import opened MarketInvariant
  import opened MarketPreservation
  import opened MarketSolvency
  import opened MarketLifecycle
  import opened MarketClaims
  import Counters = MarketCounters
  import Vaults = ShieldedEscrowVault
  import Registries = ShieldedIdentityRegistry

  // ---- creation ----

  /** The call creates an auction on these terms: its own figures, the time it was sent and what was configured then. */
  predicate Opens(w: World, c: Call, t: Terms) {
    && c.Create?
    && t.nft == c.nft && t.tokenId == c.tokenId && t.seller == c.sender
    && t.createdAt == w.now && t.endTime == w.now + c.duration
    && t.deposit == c.value && t.startingPrice == c.startingPrice && t.deps == w.config
  }

  /** Nothing has happened in it yet. */
  predicate Untouched(a: Auction) {
    && a.state == Active && a.totalEscrow == 0 && a.escrow == map[] && a.withdrawn == {}
    && a.bids == map[] && a.bidders == [] && a.shieldedBids == map[] && a.commitments == [] && a.bidCount == 0
    && a.request.None? && a.keeper.None? && a.outcome == NO_OUTCOME && a.slash == 0
    && !a.sellerClaimed && !a.assetClaimed && !a.refundsUnlocked && a.settledRefunds == {}
  }

  lemma CreateCommitsIff(w: World, c: Call)
    requires c.Create?
    ensures Step(w, c).Committed? <==>
            && c.nft != ZERO && 60 <= c.duration <= 90 * 86_400 && c.startingPrice < 0x1_0000_0000_0000_0000_0000_0000
            && c.value == c.deposit > 0
            && (c.nft, c.tokenId) in w.owners && w.owners[(c.nft, c.tokenId)] == c.sender && c.approved
  {}

  /** A creation adds exactly one auction, active and empty, on the terms of the call; the market takes the deposit and
      the token, and nothing else moves but the observation of the clock. */
  lemma CreateAdds(w: World, c: Call)
    requires c.Create? && Step(w, c).Committed?
    ensures var w' := Step(w, c).value;
            && |w'.auctions| == |w.auctions| + 1 && w'.auctions[..|w.auctions|] == w.auctions
            && Opens(w, c, w'.At(|w'.auctions|).terms) && Untouched(w'.At(|w'.auctions|))
            && w'.balance == w.balance + c.value
            && w'.owners == w.owners[(c.nft, c.tokenId) := MARKET]
            && w' == w.(auctions := w'.auctions, balance := w'.balance, owners := w'.owners, network := w'.network)
  {
    hide Observe;
  }

  /** The k-th call of the run is committed and creates this auction. */
  ghost predicate CreatedAt(w: World, calls: seq<Call>, id: nat, k: nat, t: Terms)
    requires k < |calls|
  {
    var before := Run(w, calls[..k]);
    |before.auctions| + 1 == id && Step(before, calls[k]).Committed? && Opens(before, calls[k], t)
  }

  /** Every auction of any run was opened by one call of it, on exactly that call's terms, which it still has. */
  lemma {:induction false} TermsAreOfCreation(w: World, calls: seq<Call>, id: nat)
    requires Inv(w) && !w.Exists(id) && Run(w, calls).Exists(id)
    ensures exists k: nat :: k < |calls| && CreatedAt(w, calls, id, k, Run(w, calls).At(id).terms)
    decreases |calls|
  {
    hide Inv, Step, Opens, Evolves;
    if calls != [] {
      var n := |calls| - 1;
      var before := Run(w, calls[..n]);
      RunKeepsInv(w, calls[..n]);
      if before.Exists(id) {
        TermsAreOfCreation(w, calls[..n], id);
        var k: nat :| k < n && CreatedAt(w, calls[..n], id, k, before.At(id).terms);
        assert calls[..n][..k] == calls[..k];
        KeepsTerms(before, calls[n], id);
        assert CreatedAt(w, calls, id, k, Run(w, calls).At(id).terms);
      } else {
        NewIsCreated(before, calls[n], id);
        assert CreatedAt(w, calls, id, n, Run(w, calls).At(id).terms);
      }
    }
  }

  lemma KeepsTerms(w: World, c: Call, id: nat)
    requires Inv(w) && w.Exists(id)
    ensures Step(w, c).Committed? ==> Step(w, c).value.Exists(id) && Step(w, c).value.At(id).terms == w.At(id).terms
  {
    hide Inv, Step;
    if Step(w, c).Committed? {
      StepEvolves(w, c);
      assert Evolves(w.At(id), Step(w, c).value.At(id));
    }
  }

  lemma NewIsCreated(w: World, c: Call, id: nat)
    requires Inv(w) && Step(w, c).Committed? && !w.Exists(id) && Step(w, c).value.Exists(id)
    ensures |w.auctions| + 1 == id && Opens(w, c, Step(w, c).value.At(id).terms)
    ensures Untouched(Step(w, c).value.At(id))
  {
    hide Inv, Step;
    StepEvolves(w, c);
    CreateAdds(w, c);
  }

  // ---- public escrow ----

  lemma EscrowCommitsIff(w: World, c: Call)
    requires c.Escrow?
    ensures Step(w, c).Committed? <==>
            w.Exists(c.id) && w.At(c.id).state == Active && c.value > 0 && w.now < w.At(c.id).terms.endTime
  {}

  /** A top-up credits its sender and nobody else. */
  lemma EscrowCredits(w: World, c: Call)
    requires c.Escrow? && Step(w, c).Committed?
    ensures var w' := Step(w, c).value;
            && w.Exists(c.id) && |w'.auctions| == |w.auctions| && w'.balance == w.balance + c.value
            && (forall j: nat :: w.Exists(j) && j != c.id ==> w'.At(j) == w.At(j))
            && w' == w.(auctions := w'.auctions, balance := w'.balance, network := w'.network)
    ensures var a, a' := w.At(c.id), Step(w, c).value.At(c.id);
            && a' == a.(escrow := a'.escrow, totalEscrow := a'.totalEscrow)
            && a'.totalEscrow == a.totalEscrow + c.value
            && (forall b: Address :: Get(a'.escrow, b) == Get(a.escrow, b) + if b == c.sender then c.value else 0)
  {
    hide Observe;
  }

  /** What this call, once committed, brings into this account's row. */
  function Credit(c: Call, id: nat, b: Address): nat {
    if c.Escrow? && c.id == id && c.sender == b then c.value else 0
  }

  /** What the committed top-ups of a run bring into this account's row. */
  ghost function PaidIn(w: World, calls: seq<Call>, id: nat, b: Address): nat
    decreases |calls|
  {
    if calls == [] then 0 else
    var n := |calls| - 1;
    var c := calls[n];
    PaidIn(w, calls[..n], id, b) + if Step(Run(w, calls[..n]), c).Committed? then Credit(c, id, b) else 0
  }

  /** An account's row moves only by its own top-ups and its own refund. */
  lemma StepEscrowRow(w: World, c: Call, id: nat, b: Address)
    requires Inv(w) && w.Exists(id) && Step(w, c).Committed?
    ensures Step(w, c).value.Exists(id)
    ensures c.Escrow? && c.id == id ==> w.At(id).state == Active
    ensures var a, a' := w.At(id), Step(w, c).value.At(id);
            var refunded := c.Refund? && c.id == id && c.sender == b;
            && (b in a'.withdrawn <==> b in a.withdrawn || refunded)
            && (refunded ==> Get(a'.escrow, b) == 0)
            && (!refunded ==> Get(a'.escrow, b) == Get(a.escrow, b) + Credit(c, id, b))
  {
    hide Inv, Step, EscrowRefund, Evolves;
    StepEvolves(w, c);
    if c.Escrow? {
      EscrowCredits(w, c);
      EscrowCommitsIff(w, c);
    } else if w.At(id).Terminal() {
      TerminalStep(w, c, id);
    } else {
      CreatedNever(w, id);
      LiveEscrowStays(w, c, id);
    }
  }

  lemma LiveEscrowStays(w: World, c: Call, id: nat)
    requires Inv(w) && w.Exists(id) && w.At(id).Live() && Step(w, c).Committed? && !c.Escrow?
    ensures Step(w, c).value.Exists(id)
    ensures Step(w, c).value.At(id).escrow == w.At(id).escrow && Step(w, c).value.At(id).withdrawn == w.At(id).withdrawn
    ensures !(c.Refund? && c.id == id)
  {
    hide Inv, Step;
    if c.Bid? || c.ShieldedBid? || c.Trigger? { BiddingKeepsEscrow(w, c, id); }
    else if c.Resolve? || c.ResolveShielded? { ResolvingKeepsEscrow(w, c, id); }
    else if c.Cancel? || c.Void? { ClosingKeepsEscrow(w, c, id); }
    else if c.Refund? { RefundNeedsTerminal(w, c, id); }
    else if c.Proceeds? || c.Reward? || c.Asset? { ClaimKeepsEscrow(w, c, id); }
    else if c.ShieldedAsset? || c.ShieldedRefund? { ShieldedClaimKeepsEscrow(w, c, id); }
    else { OthersKeepEscrow(w, c, id); }
  }

  lemma BiddingKeepsEscrow(w: World, c: Call, id: nat)
    requires (c.Bid? || c.ShieldedBid? || c.Trigger?) && Step(w, c).Committed? && w.Exists(id)
    ensures Step(w, c).value.Exists(id)
    ensures Step(w, c).value.At(id).escrow == w.At(id).escrow && Step(w, c).value.At(id).withdrawn == w.At(id).withdrawn
    ensures Step(w, c).value.At(id).settledRefunds == w.At(id).settledRefunds
  {
    hide MeetsOpeningBid, Covers, NextRequestId, Vaults.Spendable, Observe;
  }

  lemma ResolvingKeepsEscrow(w: World, c: Call, id: nat)
    requires (c.Resolve? || c.ResolveShielded?) && Step(w, c).Committed? && w.Exists(id)
    ensures Step(w, c).value.Exists(id)
    ensures Step(w, c).value.At(id).escrow == w.At(id).escrow && Step(w, c).value.At(id).withdrawn == w.At(id).withdrawn
    ensures Step(w, c).value.At(id).settledRefunds == w.At(id).settledRefunds
  {
    hide SubmitResolution, SubmitShieldedResolution, Observe;
    if c.Resolve? {
      ResolutionShape(w, c.id, c.winner, c.ciphertext, c.amount, c.proof);
    } else {
      ShieldedResolutionShape(w, c.id, c.identity, c.ciphertext, c.amount, c.proof);
    }
  }

  lemma ClosingKeepsEscrow(w: World, c: Call, id: nat)
    requires Inv(w) && (c.Cancel? || c.Void?) && Step(w, c).Committed? && w.Exists(id)
    ensures Step(w, c).value.Exists(id)
    ensures Step(w, c).value.At(id).escrow == w.At(id).escrow && Step(w, c).value.At(id).withdrawn == w.At(id).withdrawn
    ensures Step(w, c).value.At(id).settledRefunds == w.At(id).settledRefunds
  {
    hide Inv, Close, ComputeCancellationSlash, VoidSlash, VaultRow, PotRow, PotClaims, SlashedSide;
    if c.Cancel? {
      CancellationSlashFits(w, c.id);
      CloseKeepsInv(w, c.id, Cancelled, ComputeCancellationSlash(w, c.id), c.takes);
    } else {
      VoidSlashCloses(w, c.id);
      CloseKeepsInv(w, c.id, Voided, VoidSlash(w, c.id), c.takes);
    }
  }

  lemma RefundNeedsTerminal(w: World, c: Call, id: nat)
    requires c.Refund? && Step(w, c).Committed? && w.Exists(id) && w.At(id).Live()
    ensures c.id != id && Step(w, c).value.Exists(id) && Step(w, c).value.At(id) == w.At(id)
  {
    hide ClaimRefund, VaultRow, PotRow, PotClaims, EscrowRefund;
    RefundRows(w, c.sender, c.id, c.accepts);
  }

  lemma ClaimKeepsEscrow(w: World, c: Call, id: nat)
    requires (c.Proceeds? || c.Reward? || c.Asset?) && Step(w, c).Committed? && w.Exists(id)
    ensures Step(w, c).value.Exists(id)
    ensures Step(w, c).value.At(id).escrow == w.At(id).escrow && Step(w, c).value.At(id).withdrawn == w.At(id).withdrawn
    ensures Step(w, c).value.At(id).settledRefunds == w.At(id).settledRefunds
  {
    hide SellerPayout;
  }

  lemma ShieldedClaimKeepsEscrow(w: World, c: Call, id: nat)
    requires (c.ShieldedAsset? || c.ShieldedRefund?) && Step(w, c).Committed? && w.Exists(id)
    ensures Step(w, c).value.Exists(id)
    ensures Step(w, c).value.At(id).escrow == w.At(id).escrow && Step(w, c).value.At(id).withdrawn == w.At(id).withdrawn
    ensures c.ShieldedAsset? ==> Step(w, c).value.At(id).settledRefunds == w.At(id).settledRefunds
  {
    hide Vaults.Release, Vaults.AuthorizeAsset, ResolveCommitment;
  }

  lemma OthersKeepEscrow(w: World, c: Call, id: nat)
    requires Inv(w) && (c.Create? || c.ShieldedLock? || Background(c)) && Step(w, c).Committed? && w.Exists(id)
    ensures Step(w, c).value.Exists(id) && Step(w, c).value.At(id) == w.At(id)
  {
    hide Inv, Step;
    if Background(c) { BackgroundKeepsAuctions(w, c); } else { OnlyAdds(w, c, id); }
  }

  /** Over any run, whoever else bids, resolves or claims: what an account has in an auction's escrow is exactly what its
      own committed top-ups brought in, until its own refund, and nothing after it. */
  lemma {:induction false} EscrowIsPaidIn(w: World, calls: seq<Call>, id: nat, b: Address)
    requires Inv(w)
    ensures w.Exists(id) ==> Run(w, calls).Exists(id)
    ensures Run(w, calls).Exists(id) ==>
              var a := Run(w, calls).At(id);
              Get(a.escrow, b) == if b in a.withdrawn then 0
                                  else (if w.Exists(id) then Get(w.At(id).escrow, b) else 0) + PaidIn(w, calls, id, b)
    ensures !Run(w, calls).Exists(id) ==> PaidIn(w, calls, id, b) == 0
    decreases |calls|
  {
    hide Inv, Step, EscrowOk, Opens;
    if calls == [] {
      if w.Exists(id) { WithdrawnIsEmpty(w, id, b); }
    } else {
      var n := |calls| - 1;
      var before, c := Run(w, calls[..n]), calls[n];
      RunKeepsInv(w, calls[..n]);
      EscrowIsPaidIn(w, calls[..n], id, b);
      if Step(before, c).Committed? {
        StepEvolves(before, c);
        if before.Exists(id) {
          StepEscrowRow(before, c, id, b);
          NobodyWithdrewWhileActive(before, id);
        } else {
          if Step(before, c).value.Exists(id) { NewIsCreated(before, c, id); }
          if c.Escrow? { EscrowCommitsIff(before, c); }
        }
      }
    }
  }

  lemma WithdrawnIsEmpty(w: World, id: nat, b: Address)
    requires Inv(w) && w.Exists(id)
    ensures b in w.At(id).withdrawn ==> Get(w.At(id).escrow, b) == 0
  {
    assert AuctionOk(w.At(id), SideOf(w, id));
  }

  lemma NobodyWithdrewWhileActive(w: World, id: nat)
    requires Inv(w) && w.Exists(id)
    ensures w.At(id).state == Active ==> w.At(id).withdrawn == {}
  {
    assert AuctionOk(w.At(id), SideOf(w, id));
  }

  // ---- resolutions before their proof ----

  /** A public resolution gets as far as the verifier exactly for a resolving auction with an engine, and for nobody at
      price zero, or for a bidder and a positive amount from the starting price up to the bidder's escrow, with a
      ciphertext that decodes to no more than that escrow. */
  lemma ResolutionCheckIff(w: World, id: nat, winner: Address, ciphertext: Word, amount: nat)
    requires Inv(w)
    ensures CheckResolution(w, id, winner, ciphertext, amount).Passed? <==>
            && w.Exists(id) && w.At(id).state == Resolving && w.At(id).terms.deps.engine != ZERO
            && var v := w.At(id).terms.deps.adapter.Decode(ciphertext);
               var escrow := Get(w.At(id).escrow, winner);
               if winner == ZERO then amount == 0
               else
                 && amount > 0 && w.At(id).terms.startingPrice <= amount <= escrow && Get(w.At(id).bids, winner) != 0
                 && v.Some? && v.value <= escrow
  {
    hide Inv, DecodeNumeric;
    if w.Exists(id) { PendingWhileResolving(w, id); }
  }

  lemma PendingWhileResolving(w: World, id: nat)
    requires Inv(w) && w.Exists(id)
    ensures w.At(id).request.Some? <==> w.At(id).state == Resolving
  {
    assert AuctionOk(w.At(id), SideOf(w, id));
  }

  /** A shielded resolution gets as far as the verifier exactly for a resolving auction with an engine, a positive amount
      from the starting price on, and an identity whose commitment has exactly this ciphertext stored and is not spent. */
  lemma ShieldedCheckIff(w: World, id: nat, identity: Word, ciphertext: Word, amount: nat)
    requires Inv(w)
    ensures CheckShieldedResolution(w, id, identity, ciphertext, amount).Committed? <==>
            && w.Exists(id) && w.At(id).state == Resolving && w.At(id).terms.deps.engine != ZERO
            && identity != 0 && amount > 0 && amount >= w.At(id).terms.startingPrice
            && w.At(id).terms.deps.registry in w.registries && w.At(id).terms.deps.vault in w.vaults
            && var c := w.registries[w.At(id).terms.deps.registry].CommitmentFor(id, identity);
               var d := w.vaults[w.At(id).terms.deps.vault].DepositAt(c);
               && c != 0 && ciphertext != 0 && Get(w.At(id).shieldedBids, c) == ciphertext
               && d.auctionId == id && !d.claimed
    ensures CheckShieldedResolution(w, id, identity, ciphertext, amount).Committed? ==>
              CheckShieldedResolution(w, id, identity, ciphertext, amount).value ==
              w.registries[w.At(id).terms.deps.registry].CommitmentFor(id, identity)
  {
    hide Inv;
    if w.Exists(id) { PendingWhileResolving(w, id); }
  }

  // ---- shielded refunds on record ----

  /** Only the vault's callback records a shielded refund. */
  lemma SettledRefundsStay(w: World, c: Call, id: nat)
    requires Inv(w) && w.Exists(id) && Step(w, c).Committed? && !c.ShieldedRefund?
    ensures Step(w, c).value.Exists(id) && Step(w, c).value.At(id).settledRefunds == w.At(id).settledRefunds
  {
    hide Inv, Step;
    if c.Escrow? { EscrowCredits(w, c); }
    else if c.Bid? || c.ShieldedBid? || c.Trigger? { BiddingKeepsEscrow(w, c, id); }
    else if c.Resolve? || c.ResolveShielded? { ResolvingKeepsEscrow(w, c, id); }
    else if c.Cancel? || c.Void? { ClosingKeepsEscrow(w, c, id); }
    else if c.Refund? { RefundKeepsRecord(w, c, id); }
    else if c.Proceeds? || c.Reward? || c.Asset? { ClaimKeepsEscrow(w, c, id); }
    else if c.ShieldedAsset? { ShieldedClaimKeepsEscrow(w, c, id); }
    else { OthersKeepEscrow(w, c, id); }
  }

  lemma RefundKeepsRecord(w: World, c: Call, id: nat)
    requires c.Refund? && Step(w, c).Committed? && w.Exists(id)
    ensures Step(w, c).value.Exists(id) && Step(w, c).value.At(id).settledRefunds == w.At(id).settledRefunds
  {
    hide ClaimRefund, VaultRow, PotRow, PotClaims, EscrowRefund;
    RefundRows(w, c.sender, c.id, c.accepts);
  }

  // ---- observations of the clock ----

  /** The calls that observe the clock: everything that moves an auction before it is over, and what ends it. */
  predicate Observes(w: World, w': World, c: Call) {
    || c.Create? || c.Escrow? || c.ShieldedLock? || c.Bid? || c.ShieldedBid? || c.Trigger? || c.Cancel? || c.Void?
    || ((c.Resolve? || c.ResolveShielded?) && w.Exists(c.id) && w'.Exists(c.id) && w'.At(c.id).state == Finalized)
  }

  /** Every committed call observes the clock once or not at all, and which of the two is fixed by its kind; a rejected
      resolution, a claim and everything around the market leave the network figures alone. */
  lemma ObservesExactly(w: World, c: Call)
    requires Inv(w) && Step(w, c).Committed?
    ensures var w' := Step(w, c).value; w'.network == if Observes(w, w', c) then Observe(w.network, w.now) else w.network
  {
    hide Inv, Step, Observe;
    if c.Resolve? || c.ResolveShielded? { ResolvingObserves(w, c); }
    else if c.Cancel? || c.Void? { ClosingObserves(w, c); }
    else if Background(c) { BackgroundObserves(w, c); }
    else if c.Create? || c.Escrow? || c.ShieldedLock? || c.Bid? || c.ShieldedBid? || c.Trigger? { LiveObserves(w, c); }
    else { ClaimObserves(w, c); }
  }

  lemma LiveObserves(w: World, c: Call)
    requires Step(w, c).Committed?
    requires c.Create? || c.Escrow? || c.ShieldedLock? || c.Bid? || c.ShieldedBid? || c.Trigger?
    ensures Step(w, c).value.network == Observe(w.network, w.now)
  {
    hide MeetsOpeningBid, Covers, NextRequestId, Vaults.Spendable, Vaults.Lock, Registries.Bind, Observe;
  }

  lemma ResolvingObserves(w: World, c: Call)
    requires (c.Resolve? || c.ResolveShielded?) && Step(w, c).Committed?
    ensures var w' := Step(w, c).value; w'.network == if Observes(w, w', c) then Observe(w.network, w.now) else w.network
  {
    hide SubmitResolution, SubmitShieldedResolution, Observe;
    if c.Resolve? {
      ResolutionShape(w, c.id, c.winner, c.ciphertext, c.amount, c.proof);
    } else {
      ShieldedResolutionShape(w, c.id, c.identity, c.ciphertext, c.amount, c.proof);
    }
  }

  lemma ClosingObserves(w: World, c: Call)
    requires (c.Cancel? || c.Void?) && Step(w, c).Committed?
    ensures Step(w, c).value.network == Observe(w.network, w.now)
  {
    hide Close, ComputeCancellationSlash, VoidSlash, Timeout, Observe;
    if c.Cancel? {
      CloseObserves(w, c.id, Cancelled, ComputeCancellationSlash(w, c.id), c.takes);
    } else {
      CloseObserves(w, c.id, Voided, VoidSlash(w, c.id), c.takes);
    }
  }

  lemma ClaimObserves(w: World, c: Call)
    requires Step(w, c).Committed?
    requires c.Refund? || c.Proceeds? || c.Reward? || c.Asset? || c.ShieldedAsset? || c.ShieldedRefund?
    ensures Step(w, c).value.network == w.network
  {
    hide Vaults.Release, Vaults.AuthorizeAsset, SellerPayout, EscrowRefund, PreviewCompensation, ResolveCommitment;
  }

  lemma BackgroundObserves(w: World, c: Call)
    requires Background(c) && Step(w, c).Committed?
    ensures Step(w, c).value.network == w.network
  {}

  /** The owner sets one dependency, one that has a contract behind it, for auctions to come; the adapter needs none. */
  lemma ConfigurationCommitsIff(w: World, c: Call)
    requires c.SetAdapter? || c.SetEngine? || c.SetPot? || c.SetVault? || c.SetRegistry?
    ensures Step(w, c).Committed? <==>
            && (c.SetEngine? ==> c.engine in w.engines) && (c.SetPot? ==> c.pot in w.pots)
            && (c.SetVault? ==> c.vault in w.vaults) && (c.SetRegistry? ==> c.registry in w.registries)
    ensures Step(w, c).Committed? ==>
              var d, d' := w.config, Step(w, c).value.config;
              && Step(w, c).value == w.(config := d')
              && d'.adapter == (if c.SetAdapter? then c.adapter else d.adapter)
              && d'.engine == (if c.SetEngine? then c.engine else d.engine)
              && d'.pot == (if c.SetPot? then c.pot else d.pot)
              && d'.vault == (if c.SetVault? then c.vault else d.vault)
              && d'.registry == (if c.SetRegistry? then c.registry else d.registry)
  {}
}
