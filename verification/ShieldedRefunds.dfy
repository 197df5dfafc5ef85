/** A shielded bidder's refund, from the vault through the market's callback: exactly when it commits, in any reachable state. */
module ShieldedRefunds {
  import opened Prelude
  import opened MarketState
  import opened MarketTransactions
  import opened MarketInvariant
  import opened MarketPreservation
  import opened MarketEffects
  import opened ShieldedBacking
  import opened ShieldedWinners
  import Vaults = ShieldedEscrowVault

  /** A refund on record belongs to a commitment that was claimed. */
  ghost predicate RefundsClaimed(w: World) {
    forall id: nat, c: Word :: w.Exists(id) && c in w.At(id).settledRefunds ==> IsClaimed(w, w.At(id).terms.deps.vault, c)
  }

  predicate IsClaimed(w: World, vault: Address, c: Word) {
    c in Deposits(w, vault) && Deposits(w, vault)[c].claimed
  }

  /** A claimed commitment is claimed for good. */
  lemma ClaimedStays(w: World, c: Call, vault: Address, commitment: Word)
    requires Step(w, c).Committed? && IsClaimed(w, vault, commitment)
    ensures IsClaimed(Step(w, c).value, vault, commitment)
  {
    hide Step;
    if c.ShieldedLock? {
      LockAddsCommitment(w, c);
    } else if c.ResolveShielded? {
      ResolutionKeepsClaimed(w, c, vault, commitment);
    } else if c.ShieldedRefund? {
      RefundSpends(w, c);
    } else if c.ShieldedBid? || c.Create? {
      NoShieldedContracts(w, c);
    } else {
      CalmCall(w, c);
    }
  }

  lemma ResolutionKeepsClaimed(w: World, c: Call, vault: Address, commitment: Word)
    requires c.ResolveShielded? && Step(w, c).Committed? && IsClaimed(w, vault, commitment)
    ensures IsClaimed(Step(w, c).value, vault, commitment)
  {
    hide SubmitShieldedResolution, CheckShieldedResolution;
    ResolutionSpends(w, c.id, c.identity, c.ciphertext, c.amount, c.proof);
  }

  lemma RefundRecords(w: World, c: Call)
    requires c.ShieldedRefund? && Step(w, c).Committed?
    ensures c.vault in w.vaults
    ensures var w' := Step(w, c).value;
            var id := w.vaults[c.vault].DepositAt(c.commitment).auctionId;
            && w.Exists(id) && |w'.auctions| == |w.auctions| && w.At(id).terms.deps.vault == c.vault
            && w'.At(id) == w.At(id).(settledRefunds := w.At(id).settledRefunds + {c.commitment})
            && (forall j: nat :: w.Exists(j) && j != id ==> w'.At(j) == w.At(j))
            && var released := Vaults.Release(w.vaults[c.vault], w.now, c.commitment, c.recipient, c.deadline, c.signer);
               && released.Committed?
               && w' == w.(auctions := w'.auctions, vaults := w.vaults[c.vault := released.value.0])
  {
    hide Vaults.Release;
  }

  lemma StepKeepsRefunds(w: World, c: Call)
    requires Inv(w) && RefundsClaimed(w) && Step(w, c).Committed?
    ensures RefundsClaimed(Step(w, c).value)
  {
    hide Inv, Step, IsClaimed;
    var w' := Step(w, c).value;
    forall id: nat, x: Word | w'.Exists(id) && x in w'.At(id).settledRefunds ensures IsClaimed(w', w'.At(id).terms.deps.vault, x) {
      if w.Exists(id) { KeepsTerms(w, c, id); }
      if c.ShieldedRefund? {
        RefundRecords(w, c);
        RefundClaims(w, c);
      } else if w.Exists(id) {
        SettledRefundsStay(w, c, id);
      } else {
        NewIsCreated(w, c, id);
      }
      if w.Exists(id) && x in w.At(id).settledRefunds { ClaimedStays(w, c, w.At(id).terms.deps.vault, x); }
    }
  }

  lemma RefundClaims(w: World, c: Call)
    requires c.ShieldedRefund? && Step(w, c).Committed?
    ensures IsClaimed(Step(w, c).value, c.vault, c.commitment)
  {
    hide Step;
    RefundSpends(w, c);
  }

  lemma {:induction false} ReachableRefundsAreClaimed(now: nat, adapter: Adapter, pot: Address, calls: seq<Call>)
    requires pot != ZERO
    ensures Settled(Run(Genesis(now, adapter, pot), calls)) && RefundsClaimed(Run(Genesis(now, adapter, pot), calls))
    decreases |calls|
  {
    hide Step, RefundsClaimed, Settled, Inv;
    ReachableIsSettled(now, adapter, pot, calls);
    if calls == [] {
      NothingRefunded(now, adapter, pot);
    } else {
      var n := |calls| - 1;
      var before := Run(Genesis(now, adapter, pot), calls[..n]);
      ReachableRefundsAreClaimed(now, adapter, pot, calls[..n]);
      SettledIsInvariant(before);
      if Step(before, calls[n]).Committed? { StepKeepsRefunds(before, calls[n]); }
    }
  }

  lemma SettledIsInvariant(w: World)
    requires Settled(w)
    ensures Inv(w)
  {
    hide Inv, Backed, WinnersKnown, Signable;
  }

  lemma NothingRefunded(now: nat, adapter: Adapter, pot: Address)
    requires pot != ZERO
    ensures RefundsClaimed(Genesis(now, adapter, pot))
  {}

  /** In any reachable state a shielded bidder's refund commits exactly when the commitment still holds something, its
      auction is over, its authority signed a fresh message in time for a recipient, and the recipient takes the ETH. The
      vault's ETH, the lock on its refunds and the market's callback never stand in the way. */
  lemma ShieldedRefundCommitsIff(w: World, c: Call)
    requires Settled(w) && RefundsClaimed(w) && c.ShieldedRefund?
    ensures Step(w, c).Committed? <==>
            && c.vault in w.vaults && c.commitment in w.vaults[c.vault].deposits
            && var d := w.vaults[c.vault].deposits[c.commitment];
               && d.amount > 0 && w.Exists(d.auctionId) && w.At(d.auctionId).Terminal()
               && c.recipient != ZERO && c.accepts && w.now <= c.deadline && c.signer == Some(d.authority)
               && Vaults.Authorization(Vaults.RefundClaim, d.auctionId, c.commitment, c.recipient, c.deadline) !in w.vaults[c.vault].used
  {
    hide Settled, RefundsClaimed, Vaults.Release;
    if c.vault in w.vaults {
      VaultIsSound(w, c.vault);
      Vaults.ReleaseNeverShort(w.vaults[c.vault], w.now, c.commitment, c.recipient, c.deadline, c.signer);
      if c.commitment in w.vaults[c.vault].deposits { Behind(w, c.vault, c.commitment); }
    }
  }

  lemma VaultIsSound(w: World, vault: Address)
    requires Settled(w) && vault in w.vaults
    ensures Vaults.Sound(w.vaults[vault])
  {
    hide Backed, WinnersKnown, Signable, AuctionOk, Custody, Clocked, Vaults.Sound;
  }

  lemma Behind(w: World, vault: Address, commitment: Word)
    requires Settled(w) && RefundsClaimed(w) && vault in w.vaults && commitment in w.vaults[vault].deposits
    ensures var d := w.vaults[vault].deposits[commitment];
            && w.Exists(d.auctionId) && w.At(d.auctionId).terms.deps.vault == vault && d.authority != ZERO
            && (d.amount > 0 ==> commitment !in w.At(d.auctionId).settledRefunds)
            && (w.At(d.auctionId).Terminal() ==> w.At(d.auctionId).refundsUnlocked)
            && w.vaults[vault].BookAt(d.auctionId).unlocked == w.At(d.auctionId).refundsUnlocked
            && (w.At(d.auctionId).refundsUnlocked ==> w.At(d.auctionId).Terminal())
  {
    hide Custody, Clocked, WinnersKnown, RegistriesOk, NoEarlyWinners, AllBack, Vaults.Sound;
    assert commitment in Deposits(w, vault);
    var d := Deposits(w, vault)[commitment];
    assert IsVaultOf(w, d.auctionId, vault);
    assert AuctionOk(w.At(d.auctionId), SideOf(w, d.auctionId));
    if commitment in w.At(d.auctionId).settledRefunds {
      assert IsClaimed(w, vault, commitment);
      ClaimedIsEmpty(w, vault, commitment);
    }
  }

  lemma ClaimedIsEmpty(w: World, vault: Address, commitment: Word)
    requires Settled(w) && IsClaimed(w, vault, commitment)
    ensures Deposits(w, vault)[commitment].amount == 0
  {
    hide Settled;
    VaultIsSound(w, vault);
  }

  /** The vault alone pays, the principal and its floor share of the auction's reserve; the commitment is spent and the
      authorization used up, and the market only records it. */
  ghost predicate PaysFrom(w: World, w': World, c: Call, principal: nat, compensation: nat)
    requires c.ShieldedRefund? && c.vault in w.vaults && c.vault in w'.vaults
  {
    var v, v' := w.vaults[c.vault], w'.vaults[c.vault];
    var d, d' := v.DepositAt(c.commitment), v'.DepositAt(c.commitment);
    var book := v.BookAt(d.auctionId);
    && principal == d.amount > 0 && principal <= book.total && compensation <= book.reserve
    && compensation * book.total <= principal * book.reserve < (compensation + 1) * book.total
    && v.balance == v'.balance + principal + compensation
    && d' == d.(amount := 0, claimed := true)
    && v'.BookAt(d.auctionId) == book.(total := book.total - principal, reserve := book.reserve - compensation)
    && v'.used == v.used + {Vaults.Authorization(Vaults.RefundClaim, d.auctionId, c.commitment, c.recipient, c.deadline)}
    && w'.balance == w.balance && w'.pots == w.pots && w'.owners == w.owners
    && (forall other: Address :: other in w.vaults && other != c.vault ==>
          other in w'.vaults && w'.vaults[other] == w.vaults[other])
  }

  lemma ShieldedRefundPays(w: World, c: Call, w': World) returns (principal: nat, compensation: nat)
    requires Settled(w) && c.ShieldedRefund? && Step(w, c) == Committed(w')
    ensures c.vault in w.vaults && c.vault in w'.vaults && PaysFrom(w, w', c, principal, compensation)
  {
    hide Settled, Step, Vaults.Release;
    RefundRecords(w, c);
    VaultIsSound(w, c.vault);
    var v := w.vaults[c.vault];
    Vaults.ReleasePays(v, w.now, c.commitment, c.recipient, c.deadline, c.signer);
    Vaults.ReleaseNeverShort(v, w.now, c.commitment, c.recipient, c.deadline, c.signer);
    var released := Vaults.Release(v, w.now, c.commitment, c.recipient, c.deadline, c.signer).value;
    principal, compensation := released.1, released.2;
  }
}
