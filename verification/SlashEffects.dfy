/** What a cancellation and a void take from the seller, where it goes, and how it grows with time. */
module SlashEffects {
  import opened Prelude
  import opened Sums
  import opened SettlementEngine
  import opened MarketState
  import opened MarketTransactions
  import opened MarketInvariant
  import opened MarketPreservation
  import opened MarketSolvency
  import opened MarketLifecycle
  import opened PotSolvency
  import opened MarketEffects
  import opened ShieldedBacking
  import Quorum = MarketQuorum
  import Liveness = MarketLiveness
  import Vaults = ShieldedEscrowVault
  import Pots = SlashedPot
  import Avss = EigenLayerAvs
  import Registries = ShieldedIdentityRegistry

  /** Somebody has put escrow into the auction, publicly or behind the shield. */
  predicate HasEscrow(w: World, id: nat)
    requires w.Exists(id)
  {
    var vault := w.At(id).terms.deps.vault;
    w.At(id).totalEscrow > 0 || (vault in w.vaults && w.vaults[vault].BookAt(id).total > 0)
  }

  // ---- how much ----

  /** What a cancellation costs: nothing without escrow, half of the deposit without an engine, and otherwise a quarter
      of the deposit and the elapsed part of the other three, rounded down. The token goes back to the seller. */
  lemma CancelSlashes(w: World, c: Call)
    requires Inv(w) && c.Cancel? && Step(w, c).Committed?
    ensures w.Exists(c.id) && Step(w, c).value.Exists(c.id) && w.At(c.id).terms.createdAt < w.At(c.id).terms.endTime
    ensures w.At(c.id).terms.createdAt <= w.now < w.At(c.id).terms.endTime
    ensures var w' := Step(w, c).value;
            var a, t := w.At(c.id), w.At(c.id).terms;
            var slash := w'.At(c.id).slash;
            && w'.At(c.id) == a.(state := Cancelled, slash := slash, refundsUnlocked := t.deps.vault in w.vaults)
            && w'.balance + slash == w.balance
            && (!HasEscrow(w, c.id) ==> slash == 0)
            && (HasEscrow(w, c.id) && t.deps.engine == ZERO ==> slash == t.deposit / 2)
            && (HasEscrow(w, c.id) && t.deps.engine != ZERO ==>
                  slash == t.deposit * (2_500 + 7_500 * (w.now - t.createdAt) / (t.endTime - t.createdAt)) / 10_000)
    ensures w.At(c.id).Token() in Step(w, c).value.owners
    ensures Step(w, c).value.owners[w.At(c.id).Token()] == w.At(c.id).terms.seller
  {
    hide Inv, Close, ComputeCancellationSlash, VaultRow, PotRow, PotClaims, SlashedSide;
    TermsAreOk(w, c.id);
    CancellationSlashFits(w, c.id);
    CloseKeepsInv(w, c.id, Cancelled, ComputeCancellationSlash(w, c.id), c.takes);
    Quorum.CloseGivesBack(w, c.id, Cancelled, ComputeCancellationSlash(w, c.id), c.takes);
    CancelSlashIs(w, c.id);
    ActiveHasNoRequest(w, c.id);
  }

  lemma ActiveHasNoRequest(w: World, id: nat)
    requires Inv(w) && w.Exists(id)
    ensures w.At(id).state == Active ==> w.At(id).request.None?
  {
    assert AuctionOk(w.At(id), SideOf(w, id));
  }

  lemma TermsAreOk(w: World, id: nat)
    requires Inv(w) && w.Exists(id)
    ensures TermsOk(w.At(id).terms, w.now)
  {
    hide Custody, Platform, AuctionOk, DepsOk, TermsOk;
  }

  lemma CancelSlashIs(w: World, id: nat)
    requires w.Exists(id) && TermsOk(w.At(id).terms, w.now) && w.now < w.At(id).terms.endTime
    ensures var t, slash := w.At(id).terms, ComputeCancellationSlash(w, id);
            && (!HasEscrow(w, id) ==> slash == 0)
            && (HasEscrow(w, id) && t.deps.engine == ZERO ==> slash == t.deposit / 2)
            && (HasEscrow(w, id) && t.deps.engine != ZERO ==>
                  slash == t.deposit * (2_500 + 7_500 * (w.now - t.createdAt) / (t.endTime - t.createdAt)) / 10_000)
  {
    hide CancellationSlash;
    var t := w.At(id).terms;
    if HasEscrow(w, id) {
      CancellationSlashIs(t.deposit, w.now - t.createdAt, t.endTime - t.createdAt, EscrowIncludingShielded(w, id));
    }
  }

  /** What a void costs: the whole deposit but the keeper's reward when there is escrow, nothing otherwise. */
  lemma VoidSlashes(w: World, c: Call)
    requires Inv(w) && c.Void? && Step(w, c).Committed?
    ensures w.Exists(c.id) && Step(w, c).value.Exists(c.id)
    ensures var w' := Step(w, c).value;
            var a, t := w.At(c.id), w.At(c.id).terms;
            var slash := w'.At(c.id).slash;
            && w'.At(c.id) == a.(state := Voided, slash := slash, request := None, refundsUnlocked := t.deps.vault in w.vaults)
            && w'.balance + slash == w.balance
            && slash == if HasEscrow(w, c.id) then t.deposit - t.deposit * 20 / 10_000 else 0
    ensures w.At(c.id).Token() in Step(w, c).value.owners
    ensures Step(w, c).value.owners[w.At(c.id).Token()] == w.At(c.id).terms.seller
  {
    hide Inv, Close, VoidSlash, VaultRow, PotRow, PotClaims, SlashedSide;
    VoidSlashCloses(w, c.id);
    CloseKeepsInv(w, c.id, Voided, VoidSlash(w, c.id), c.takes);
    Quorum.CloseGivesBack(w, c.id, Voided, VoidSlash(w, c.id), c.takes);
    VoidSlashIs(w, c.id);
  }

  lemma VoidSlashIs(w: World, id: nat)
    requires Inv(w) && w.Exists(id) && w.At(id).state == Resolving
    ensures var t := w.At(id).terms;
            VoidSlash(w, id) == if HasEscrow(w, id) then t.deposit - t.deposit * 20 / 10_000 else 0
  {
    hide Custody, Platform, DepsOk, EscrowOk, BidsOk, SideOk;
    TermsAreOk(w, id);
    RewardBelowDeposit(w.At(id).terms.deposit);
    assert AuctionOk(w.At(id), SideOf(w, id));
  }

  // ---- when a void opens ----

  /** The fallback opens for anybody once the dynamic window has passed since the trigger: 90 times the average sample,
      from 900 to 7200 seconds, or half an hour for an auction without an engine. */
  lemma VoidOpensIff(w: World, id: nat, takes: bool)
    requires Sound(w) && w.Exists(id)
    ensures TriggerFallbackVoid(w, id, takes).Committed? <==>
            && w.At(id).state == Resolving && takes
            && var average := w.network.movingAverage;
               w.now >= w.At(id).resolvingSince +
                 (if w.At(id).terms.deps.engine == ZERO then 1_800
                  else if average <= 10 then 900 else if average >= 80 then 7_200 else 90 * average)
  {
    hide Inv, PotsSolvent, TotalOwed, TriggerFallbackVoid, DynamicTimeout;
    Liveness.VoidCommitsIff(w, id, takes);
    TimeoutIsClamped(w.network.movingAverage, w.network.movingAverage);
  }

  // ---- where it goes ----

  function VaultBalance(w: World, vault: Address): nat {
    if vault in w.vaults then w.vaults[vault].balance else 0
  }

  function PotBalance(w: World, pot: Address): nat {
    if pot in w.pots then w.pots[pot].balance else 0
  }

  /** The slash of an auction is split: this much went to the pot, this much stays in the vault. */
  ghost predicate Splits(w: World, w': World, id: nat, slash: nat, public: nat, kept: nat)
    requires w.Exists(id)
  {
    var a, deps := w.At(id), w.At(id).terms.deps;
    var shielded := VaultRow(w, deps.vault, id).total;
    && public + kept == slash
    && (slash > 0 ==>
          public * (a.totalEscrow + shielded) <= slash * a.totalEscrow < (public + 1) * (a.totalEscrow + shielded))
    && VaultRow(w', deps.vault, id).reserve == VaultRow(w, deps.vault, id).reserve + kept
    && VaultBalance(w', deps.vault) == VaultBalance(w, deps.vault) + kept
    && PotBalance(w', deps.pot) == PotBalance(w, deps.pot) + public
    && PotRow(w', deps.pot, id) == if public == 0 then PotRow(w, deps.pot, id) else Some(Pots.Entry(a.totalEscrow, public))
  }

  lemma RegisterSplits(w: World, id: nat, slash: nat) returns (public: nat, kept: nat)
    requires w.Exists(id) && RegisterSlash(w, id, slash).Committed? && PotRow(w, w.At(id).terms.deps.pot, id) == None
    requires slash > 0 ==> HasEscrow(w, id)
    ensures Splits(w, RegisterSlash(w, id, slash).value, id, slash, public, kept)
  {
    hide Vaults.PublicSlash;
    var a, deps := w.At(id), w.At(id).terms.deps;
    var shielded := VaultRow(w, deps.vault, id).total;
    if slash == 0 {
      public, kept := 0, 0;
    } else {
      public := if deps.vault in w.vaults then Vaults.PublicSlash(slash, a.totalEscrow, shielded) else slash;
      kept := slash - public;
      if deps.vault in w.vaults {
        Vaults.PublicSlashIsFloor(slash, a.totalEscrow, shielded);
      } else {
        Distribute(slash, 1, a.totalEscrow);
      }
    }
  }

  lemma OpenRefundsMovesNothing(w: World, w1: World, id: nat, slash: nat, public: nat, kept: nat)
    requires w.Exists(id) && w1.Exists(id) && w1.At(id).terms == w.At(id).terms && Splits(w, w1, id, slash, public, kept)
    ensures Splits(w, OpenRefunds(w1, id), id, slash, public, kept)
  {}

  lemma ClosingStartsThere(w: World, w1: World, w2: World, id: nat, slash: nat, public: nat, kept: nat)
    requires w.Exists(id) && w1.Exists(id) && Splits(w1, w2, id, slash, public, kept)
    requires w1.vaults == w.vaults && w1.pots == w.pots
    requires w1.At(id).terms == w.At(id).terms && w1.At(id).totalEscrow == w.At(id).totalEscrow
    ensures Splits(w, w2, id, slash, public, kept)
  {}

  /** A slash is split exactly between the pot and the vault: the pot gets the pro-rata share of the public escrow,
      rounded down, under the auction's escrow total, and the vault keeps the rest for the shielded bidders. */
  lemma CloseSplits(w: World, id: nat, next: AuctionState, slash: nat, takes: bool) returns (public: nat, kept: nat)
    requires w.Exists(id) && Close(w, id, next, slash, takes).Committed? && PotRow(w, w.At(id).terms.deps.pot, id) == None
    requires slash > 0 ==> HasEscrow(w, id)
    ensures Splits(w, Close(w, id, next, slash, takes).value, id, slash, public, kept)
  {
    hide RegisterSlash, OpenRefunds, Splits, Observe, PotRow, VaultRow;
    var w1 := Closing(w, id, next, slash);
    SamePotRow(w, w1, w.At(id).terms.deps.pot, id);
    public, kept := RegisterSplits(w1, id, slash);
    var w2 := RegisterSlash(w1, id, slash).value;
    SlashKeepsTerms(w1, id, slash);
    OpenRefundsMovesNothing(w1, w2, id, slash, public, kept);
    ClosingStartsThere(w, w1, OpenRefunds(w2, id), id, slash, public, kept);
    TokenMovesNothing(w, OpenRefunds(w2, id), Close(w, id, next, slash, takes).value, id, slash, public, kept);
  }

  lemma SamePotRow(w: World, w1: World, pot: Address, id: nat)
    requires w1.pots == w.pots
    ensures PotRow(w1, pot, id) == PotRow(w, pot, id)
  {}

  lemma SlashKeepsTerms(w: World, id: nat, slash: nat)
    requires w.Exists(id) && RegisterSlash(w, id, slash).Committed?
    ensures RegisterSlash(w, id, slash).value.auctions == w.auctions && RegisterSlash(w, id, slash).value.now == w.now
  {
    hide Vaults.AllocateSlash, Pots.RegisterSlash;
  }

  lemma TokenMovesNothing(w: World, w1: World, w2: World, id: nat, slash: nat, public: nat, kept: nat)
    requires w.Exists(id) && Splits(w, w1, id, slash, public, kept) && w2 == w1.(owners := w2.owners)
    ensures Splits(w, w2, id, slash, public, kept)
  {}

  /** So it is for every cancellation and every void. */
  lemma ClosingCallSplits(w: World, c: Call) returns (public: nat, kept: nat)
    requires Inv(w) && (c.Cancel? || c.Void?) && Step(w, c).Committed?
    ensures w.Exists(c.id) && Step(w, c).value.Exists(c.id)
    ensures Splits(w, Step(w, c).value, c.id, Step(w, c).value.At(c.id).slash, public, kept)
  {
    hide Inv, Close, ComputeCancellationSlash, VoidSlash, Splits, HasEscrow, PotRow;
    NothingRegistered(w, c.id);
    if c.Cancel? {
      CancelSlashIs(w, c.id) by { TermsAreOk(w, c.id); }
      CancelSlashes(w, c);
      CancelledSlash(w, c);
      public, kept := CloseSplits(w, c.id, Cancelled, ComputeCancellationSlash(w, c.id), c.takes);
    } else {
      VoidSlashIs(w, c.id);
      VoidSlashes(w, c);
      CancelledSlash(w, c);
      public, kept := CloseSplits(w, c.id, Voided, VoidSlash(w, c.id), c.takes);
    }
  }

  lemma CancelledSlash(w: World, c: Call)
    requires Inv(w) && (c.Cancel? || c.Void?) && Step(w, c).Committed?
    ensures w.Exists(c.id) && Step(w, c).value.Exists(c.id)
    ensures Step(w, c).value.At(c.id).slash == if c.Cancel? then ComputeCancellationSlash(w, c.id) else VoidSlash(w, c.id)
  {
    hide Inv, Close, ComputeCancellationSlash, VoidSlash, VaultRow, PotRow, PotClaims, SlashedSide;
    if c.Cancel? {
      CancellationSlashFits(w, c.id);
      CloseKeepsInv(w, c.id, Cancelled, ComputeCancellationSlash(w, c.id), c.takes);
    } else {
      VoidSlashCloses(w, c.id);
      CloseKeepsInv(w, c.id, Voided, VoidSlash(w, c.id), c.takes);
    }
  }

  lemma NothingRegistered(w: World, id: nat)
    requires Inv(w) && w.Exists(id) && w.At(id).Live()
    ensures PotRow(w, w.At(id).terms.deps.pot, id) == None
  {
    assert AuctionOk(w.At(id), SideOf(w, id));
  }

  // ---- what a refund brings ----

  /** A refund pays the claimant's whole escrow, less the price for the winner, out of the market, and out of the pot its
      pro-rata share of a public slash, rounded down; no other pot pays, and nobody else's row moves. */
  lemma RefundPaysOut(w: World, sender: Caller, id: nat, accepts: bool)
    requires Inv(w) && ClaimRefund(w, sender, id, accepts).Committed?
    ensures w.Exists(id)
    ensures var w' := ClaimRefund(w, sender, id, accepts).value;
            var a := w.At(id);
            var contribution, pot := Get(a.escrow, sender), a.terms.deps.pot;
            && contribution > 0 && |w'.auctions| == |w.auctions|
            && w.balance == w'.balance + contribution -
                            (if a.state == Finalized && sender == a.outcome.winner then a.outcome.amount else 0)
            && w'.At(id) == a.(withdrawn := a.withdrawn + {sender}, escrow := a.escrow[sender := 0])
            && (forall p: Address :: p != pot ==> PotBalance(w', p) == PotBalance(w, p))
            && PotBalance(w', pot) <= PotBalance(w, pot)
            && var share := PotBalance(w, pot) - PotBalance(w', pot);
               match PotRow(w, pot, id)
               case None => share == 0
               case Some(entry) =>
                 share * entry.totalEscrow <= contribution * entry.totalSlash < (share + 1) * entry.totalEscrow
  {
    hide Inv, ProRataShare, ClaimRefund;
    RefundRows(w, sender, id, accepts);
    RefundDraws(w, sender, id, accepts);
    RowsBehind(w, id, sender);
    var a := w.At(id);
    var entry := PotRow(w, a.terms.deps.pot, id);
    if entry.Some? {
      ShareIsFloor(Get(a.escrow, sender), entry.value.totalEscrow, entry.value.totalSlash);
    }
  }

  lemma ShareIsFloor(contribution: nat, totalEscrow: nat, totalPot: nat)
    requires totalEscrow > 0
    ensures var share := ProRataShare(contribution, totalEscrow, totalPot);
            share * totalEscrow <= contribution * totalPot < (share + 1) * totalEscrow
  {
    ShareBounds(contribution, totalEscrow, totalPot);
    Distribute(ProRataShare(contribution, totalEscrow, totalPot), 1, totalEscrow);
  }

  /** What the market and the pots pay in a refund. */
  lemma RefundDraws(w: World, sender: Caller, id: nat, accepts: bool)
    requires ClaimRefund(w, sender, id, accepts).Committed?
    ensures w.Exists(id)
    ensures var w' := ClaimRefund(w, sender, id, accepts).value;
            var a := w.At(id);
            && w.balance == w'.balance + EscrowRefund(a, sender)
            && (forall p: Address :: p != a.terms.deps.pot ==> PotBalance(w', p) == PotBalance(w, p))
            && PotBalance(w, a.terms.deps.pot) == PotBalance(w', a.terms.deps.pot) + PreviewCompensation(w, id, sender)
  {
    hide ProRataShare, WinningRefund;
  }

  lemma RowsBehind(w: World, id: nat, b: Address)
    requires Inv(w) && w.Exists(id) && EscrowRefund(w.At(id), b) != 0 && b !in w.At(id).withdrawn
    ensures var a := w.At(id);
            var contribution, entry := Get(a.escrow, b), PotRow(w, a.terms.deps.pot, id);
            && contribution > 0
            && EscrowRefund(a, b) + (if a.state == Finalized && b == a.outcome.winner then a.outcome.amount else 0) == contribution
            && (entry.Some? ==> entry.value.totalEscrow > 0)
            && PreviewCompensation(w, id, b) ==
               if entry.Some? then ProRataShare(contribution, entry.value.totalEscrow, entry.value.totalSlash) else 0
  {
    hide Inv, PreviewCompensation, ProRataShare, PotRow;
    var a, entry := w.At(id), PotRow(w, w.At(id).terms.deps.pot, id);
    RowInRefund(w, id, b);
    SlashInRefund(w, id, b);
    if entry.Some? {
      PreviewFromEntry(w, id, b, entry.value);
    } else {
      PreviewWithoutEntry(w, id, b);
    }
  }

  lemma RowInRefund(w: World, id: nat, b: Address)
    requires Inv(w) && w.Exists(id) && EscrowRefund(w.At(id), b) != 0 && b !in w.At(id).withdrawn
    ensures var a := w.At(id);
            && 0 < Get(a.escrow, b) <= a.totalEscrow
            && EscrowRefund(a, b) + (if a.state == Finalized && b == a.outcome.winner then a.outcome.amount else 0) == Get(a.escrow, b)
  {
    hide Custody, Platform, Clocked, BidsOk, DepsOk, SideOk;
    assert AuctionOk(w.At(id), SideOf(w, id));
    SumHas(w.At(id).escrow, b);
  }

  lemma SlashInRefund(w: World, id: nat, b: Address)
    requires Inv(w) && w.Exists(id)
    ensures var a, entry := w.At(id), PotRow(w, w.At(id).terms.deps.pot, id);
            entry.Some? ==>
              && (a.state == Cancelled || a.state == Voided)
              && entry.value.totalEscrow == a.totalEscrow && entry.value.totalSlash <= a.slash
  {
    hide Custody, Platform, Clocked, BidsOk, DepsOk, EscrowOk;
    assert AuctionOk(w.At(id), SideOf(w, id));
  }

  lemma PreviewFromEntry(w: World, id: nat, b: Address, entry: Pots.Entry)
    requires w.Exists(id) && (w.At(id).state == Cancelled || w.At(id).state == Voided)
    requires PotRow(w, w.At(id).terms.deps.pot, id) == Some(entry) && entry.totalSlash <= w.At(id).slash
    ensures PreviewCompensation(w, id, b) == ProRataShare(Get(w.At(id).escrow, b), entry.totalEscrow, entry.totalSlash)
  {
    assert w.pots[w.At(id).terms.deps.pot].EntryAt(id) == entry;
  }

  lemma PreviewWithoutEntry(w: World, id: nat, b: Address)
    requires w.Exists(id) && PotRow(w, w.At(id).terms.deps.pot, id) == None
    ensures PreviewCompensation(w, id, b) == 0
  {}

  // ---- waiting never makes a cancellation cheaper ----

  /** Only the passing of time moves the clock. */
  lemma StepClock(w: World, c: Call)
    requires Inv(w) && Step(w, c).Committed?
    ensures Step(w, c).value.now == w.now + if c.Advance? then c.seconds else 0
  {
    hide Inv, Step;
    if c.Escrow? || c.Bid? || c.ShieldedBid? || c.Trigger? || c.Create? || c.ShieldedLock? { LiveClock(w, c); }
    else if c.Resolve? || c.ResolveShielded? { ResolvingClock(w, c); }
    else if c.Cancel? || c.Void? { ClosingClock(w, c); }
    else if Background(c) { BackgroundClock(w, c); }
    else { ClaimClock(w, c); }
  }

  lemma LiveClock(w: World, c: Call)
    requires Step(w, c).Committed?
    requires c.Escrow? || c.Bid? || c.ShieldedBid? || c.Trigger? || c.Create? || c.ShieldedLock?
    ensures Step(w, c).value.now == w.now
  {
    hide MeetsOpeningBid, Covers, NextRequestId, Vaults.Spendable, Vaults.Lock, Registries.Bind, Observe;
  }

  lemma ResolvingClock(w: World, c: Call)
    requires (c.Resolve? || c.ResolveShielded?) && Step(w, c).Committed?
    ensures Step(w, c).value.now == w.now
  {
    hide Avss.Verify, Vaults.SettleWinning, Registries.MarkWinner, Vaults.Unlock, Observe, CheckResolution, CheckShieldedResolution;
    if c.Resolve? { CheckFinds(w, c.id, c.winner, c.ciphertext, c.amount); } else { ShieldedCheckFinds(w, c); }
  }

  lemma ShieldedCheckFinds(w: World, c: Call)
    requires c.ResolveShielded? && CheckShieldedResolution(w, c.id, c.identity, c.ciphertext, c.amount).Committed?
    ensures w.Exists(c.id) && w.At(c.id).request.Some?
  {
    hide ResolveCommitment;
  }

  lemma ClosingClock(w: World, c: Call)
    requires (c.Cancel? || c.Void?) && Step(w, c).Committed?
    ensures Step(w, c).value.now == w.now
  {
    hide Close, ComputeCancellationSlash, VoidSlash, Timeout;
    if c.Cancel? {
      CloseClock(w, c.id, Cancelled, ComputeCancellationSlash(w, c.id), c.takes);
    } else {
      CloseClock(w, c.id, Voided, VoidSlash(w, c.id), c.takes);
    }
  }

  lemma CloseClock(w: World, id: nat, next: AuctionState, slash: nat, takes: bool)
    requires w.Exists(id) && Close(w, id, next, slash, takes).Committed?
    ensures Close(w, id, next, slash, takes).value.now == w.now
  {
    hide RegisterSlash, OpenRefunds, Observe;
    SlashKeepsTerms(Closing(w, id, next, slash), id, slash);
    OpenRefundsClock(RegisterSlash(Closing(w, id, next, slash), id, slash).value, id);
  }

  lemma OpenRefundsClock(w: World, id: nat)
    requires w.Exists(id)
    ensures OpenRefunds(w, id).now == w.now
  {}

  lemma ClaimClock(w: World, c: Call)
    requires Step(w, c).Committed?
    requires c.Refund? || c.Proceeds? || c.Reward? || c.Asset? || c.ShieldedAsset? || c.ShieldedRefund?
    ensures Step(w, c).value.now == w.now
  {
    hide Vaults.Release, Vaults.AuthorizeAsset, Pots.ClaimFor, SellerPayout, EscrowRefund, PreviewCompensation, ResolveCommitment;
  }

  lemma BackgroundClock(w: World, c: Call)
    requires Background(c) && Step(w, c).Committed?
    ensures Step(w, c).value.now == w.now + if c.Advance? then c.seconds else 0
  {}

  lemma {:induction false} RunClock(w: World, calls: seq<Call>)
    requires Inv(w)
    ensures w.now <= Run(w, calls).now
    decreases |calls|
  {
    hide Inv, Step;
    if calls != [] {
      var n := |calls| - 1;
      RunKeepsInv(w, calls[..n]);
      RunClock(w, calls[..n]);
      if Step(Run(w, calls[..n]), calls[n]).Committed? { StepClock(Run(w, calls[..n]), calls[n]); }
    }
  }

  /** An auction that has escrow keeps having some as long as it is active. */
  lemma EscrowStays(w: World, calls: seq<Call>, id: nat)
    requires Inv(w) && Backed(w) && w.Exists(id) && w.At(id).state == Active && HasEscrow(w, id)
    requires Run(w, calls).Exists(id) && Run(w, calls).At(id).state == Active
    ensures HasEscrow(Run(w, calls), id)
  {
    hide Inv, Backed, HasEscrow, Run;
    RunKeepsInv(w, calls);
    RunEndures(w, calls, id);
    if w.At(id).totalEscrow > 0 {
      var b := SomeRow(w, id);
      EscrowIsPaidIn(w, calls, id, b);
      RowIsEscrow(w, id, b);
      RowIsEscrow(Run(w, calls), id, b);
    } else {
      var c, d, identity := SomeCommitment(w, id);
      RunKeepsStanding(w, calls, id, c, d, identity);
      StandingIsEscrow(Run(w, calls), id, c, d, identity);
    }
  }

  lemma SomeRow(w: World, id: nat) returns (b: Address)
    requires Inv(w) && w.Exists(id) && w.At(id).state == Active && w.At(id).totalEscrow > 0
    ensures Get(w.At(id).escrow, b) > 0
  {
    assert AuctionOk(w.At(id), SideOf(w, id));
    SumZero(w.At(id).escrow);
    b :| b in w.At(id).escrow && w.At(id).escrow[b] > 0;
  }

  lemma RowIsEscrow(w: World, id: nat, b: Address)
    requires Inv(w) && w.Exists(id) && w.At(id).state == Active
    ensures Get(w.At(id).escrow, b) > 0 ==> HasEscrow(w, id)
    ensures b !in w.At(id).withdrawn
  {
    hide Custody, Platform, DepsOk, BidsOk, SideOk;
    assert AuctionOk(w.At(id), SideOf(w, id));
    SumHas(w.At(id).escrow, b);
  }

  lemma SomeCommitment(w: World, id: nat) returns (c: Word, d: Vaults.Deposit, identity: Word)
    requires Inv(w) && Backed(w) && w.Exists(id) && HasEscrow(w, id) && w.At(id).totalEscrow == 0
    ensures Stands(w, id, c, d, identity)
  {
    hide AuctionOk, Custody, DepsOk, RegistriesOk, NoEarlyWinners, DepositsNamed, Vaults.Sound;
    var deps := w.At(id).terms.deps;
    assert Backs(w, id);
    assert Vaults.Sound(w.vaults[deps.vault]);
    c := Vaults.SomeHolder(w.vaults[deps.vault], id);
    d := w.vaults[deps.vault].deposits[c];
    identity := RegistryAt(w, deps.registry).IdentityFor(id, c);
  }

  lemma StandingIsEscrow(w: World, id: nat, c: Word, d: Vaults.Deposit, identity: Word)
    requires Inv(w) && w.Exists(id) && Stands(w, id, c, d, identity)
    ensures HasEscrow(w, id)
  {
    hide AuctionOk, Custody, DepsOk;
    var vault := w.At(id).terms.deps.vault;
    assert Vaults.Sound(w.vaults[vault]);
    Vaults.DepositCovered(w.vaults[vault], c);
  }

  /** Of two times at which the seller could cancel the same auction, whatever happens in between, the later one never
      costs less. */
  lemma LaterCancelCostsMore(w: World, calls: seq<Call>, c: Call)
    requires Inv(w) && Backed(w) && c.Cancel? && Step(w, c).Committed? && Step(Run(w, calls), c).Committed?
    ensures var now, later := Step(w, c).value, Step(Run(w, calls), c).value;
            now.Exists(c.id) && later.Exists(c.id) && now.At(c.id).slash <= later.At(c.id).slash
  {
    hide Inv, Backed, Step, Run, HasEscrow;
    RunKeepsInv(w, calls);
    CancelSlashes(w, c);
    CancelSlashes(Run(w, calls), c);
    CancelNeedsActive(w, c);
    CancelNeedsActive(Run(w, calls), c);
    RunEndures(w, calls, c.id);
    RunClock(w, calls);
    if HasEscrow(w, c.id) {
      EscrowStays(w, calls, c.id);
      var t := w.At(c.id).terms;
      FormulaGrows(t.deposit, w.now - t.createdAt, Run(w, calls).now - t.createdAt, t.endTime - t.createdAt);
    }
  }

  lemma CancelNeedsActive(w: World, c: Call)
    requires c.Cancel? && Step(w, c).Committed?
    ensures w.Exists(c.id) && w.At(c.id).state == Active
  {
    hide Close;
  }

  lemma FormulaGrows(deposit: nat, earlier: nat, later: nat, duration: nat)
    requires earlier <= later && duration > 0
    ensures deposit * (2_500 + 7_500 * earlier / duration) / 10_000 <= deposit * (2_500 + 7_500 * later / duration) / 10_000
  {
    MulMono(earlier, later, 7_500);
    DivMono(7_500 * earlier, 7_500 * later, duration);
    MulMono(2_500 + 7_500 * earlier / duration, 2_500 + 7_500 * later / duration, deposit);
    DivMono(deposit * (2_500 + 7_500 * earlier / duration), deposit * (2_500 + 7_500 * later / duration), 10_000);
  }
}
