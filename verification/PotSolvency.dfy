/** The pots: every compensation that is still due fits in the ETH of the pot it is due from. */
module PotSolvency {
  import opened Prelude
  import opened Sums
  import opened SettlementEngine
  import opened MarketState
  import opened MarketTransactions
  import opened MarketInvariant
  import opened MarketPreservation
  import opened MarketSolvency
  import Vaults = ShieldedEscrowVault
  import Pots = SlashedPot
  import Avss = EigenLayerAvs
  import Registries = ShieldedIdentityRegistry

  /** What one auction's bidders can still claim from a pot; a paid bidder's escrow row is zero. */
  ghost function PotDue(w: World, pot: Address, id: nat): nat
    requires w.Exists(id)
  {
    var entry := PotRow(w, pot, id);
    if w.At(id).terms.deps.pot == pot && entry.Some?
    then Sum(Shares(w.At(id).escrow, entry.value.totalEscrow, entry.value.totalSlash)) else 0
  }

  ghost function PotDues(w: World, pot: Address): seq<nat> {
    seq(|w.auctions|, i requires 0 <= i < |w.auctions| => PotDue(w, pot, i + 1))
  }

  ghost predicate PotsSolvent(w: World) {
    forall p :: p in w.pots ==> Total(PotDues(w, p)) <= w.pots[p].balance
  }

  /** One auction's dues may rise only by what its pot received. */
  lemma PotMoves(w: World, w': World, id: nat, pot: Address)
    requires w.Exists(id) && |w'.auctions| == |w.auctions| && pot in w.pots && pot in w'.pots
    requires forall j :: w.Exists(j) && j != id ==> PotDue(w', pot, j) == PotDue(w, pot, j)
    requires w.pots[pot].balance + PotDue(w', pot, id) <= w'.pots[pot].balance + PotDue(w, pot, id)
    requires Total(PotDues(w, pot)) <= w.pots[pot].balance
    ensures Total(PotDues(w', pot)) <= w'.pots[pot].balance
  {
    hide PotDue;
    TotalPut(PotDues(w, pot), id - 1, PotDue(w', pot, id));
    assert PotDues(w', pot) == PotDues(w, pot)[id - 1 := PotDue(w', pot, id)];
  }

  lemma SamePotsSolvent(w: World, w': World)
    requires PotsSolvent(w) && w'.pots == w.pots && |w'.auctions| == |w.auctions|
    requires forall p, j: nat :: w.Exists(j) ==> PotDue(w', p, j) == PotDue(w, p, j)
    ensures PotsSolvent(w')
  {
    hide PotDue;
    forall p | p in w'.pots ensures PotDues(w', p) == PotDues(w, p) {}
  }

  // ---- calls that do not reach a pot ----

  /** No pot is touched, and escrow rows change only where no slash has been registered. */
  ghost predicate Potless(w: World, w': World) {
    && w'.pots == w.pots && |w'.auctions| == |w.auctions|
    && (forall j :: w.Exists(j) ==>
          && w'.At(j).terms == w.At(j).terms
          && (w'.At(j).escrow == w.At(j).escrow || w.At(j).Live()))
  }

  lemma PotlessKeepsPots(w: World, w': World)
    requires Inv(w) && PotsSolvent(w) && Potless(w, w')
    ensures PotsSolvent(w')
  {
    hide Custody, Platform, Clocked, DepsOk, Lifecycle, EscrowOk, BidsOk, PotsSolvent;
    forall p, j: nat | w.Exists(j) ensures PotDue(w', p, j) == PotDue(w, p, j) {
      assert AuctionOk(w.At(j), SideOf(w, j));
    }
    SamePotsSolvent(w, w');
  }

  lemma PotlessCall(w: World, c: Call)
    requires Step(w, c).Committed?
    requires c.Escrow? || c.ShieldedLock? || c.Bid? || c.ShieldedBid? || c.Trigger? || c.Resolve? || c.ResolveShielded?
             || c.Proceeds? || c.Reward? || c.Asset? || c.ShieldedAsset? || c.ShieldedRefund?
    ensures Potless(w, Step(w, c).value)
  {
    hide CreateAuction, LockEscrow, LockShieldedEscrow, PlaceBid, PlaceShieldedBid, TriggerFinalize, SubmitResolution,
      SubmitShieldedResolution, CancelAuction, TriggerFallbackVoid, ClaimRefund, ClaimSellerProceeds, ClaimFinalizeReward,
      ClaimAsset, ClaimShieldedAsset, ClaimShieldedRefund, Potless, Environment;
    match c
    case Escrow(_, _, _) => LivePotless(w, c);
    case ShieldedLock(_, _, _, _, _) => LivePotless(w, c);
    case Bid(_, _, _) => LivePotless(w, c);
    case ShieldedBid(_, _, _, _, _) => LivePotless(w, c);
    case Trigger(_, _, _) => LivePotless(w, c);
    case Resolve(id, winner, ciphertext, amount, proof) => ResolvePotless(w, id, winner, ciphertext, amount, proof);
    case ResolveShielded(id, identity, ciphertext, amount, proof) =>
      ResolveShieldedPotless(w, id, identity, ciphertext, amount, proof);
    case _ => ClaimPotless(w, c);
  }

  lemma LivePotless(w: World, c: Call)
    requires c.Escrow? || c.ShieldedLock? || c.Bid? || c.ShieldedBid? || c.Trigger?
    requires Step(w, c).Committed?
    ensures Potless(w, Step(w, c).value)
  {
    hide Step;
    if c.Escrow? || c.ShieldedLock? { LockPotless(w, c); } else { LiveCallShape(w, c); BidPotless(w, c); }
  }

  lemma LockPotless(w: World, c: Call)
    requires (c.Escrow? || c.ShieldedLock?) && Step(w, c).Committed?
    ensures Potless(w, Step(w, c).value)
  {
    hide Registries.Bind, Vaults.Lock;
  }

  lemma BidPotless(w: World, c: Call)
    requires (c.Bid? || c.ShieldedBid? || c.Trigger?) && Step(w, c).Committed?
    ensures Step(w, c).value.pots == w.pots
  {
    hide MeetsOpeningBid, Covers, NextRequestId, Vaults.Spendable;
  }

  lemma ResolvePotless(w: World, id: nat, winner: Address, ciphertext: Word, amount: nat, proof: Avss.Envelope)
    requires SubmitResolution(w, id, winner, ciphertext, amount, proof).Committed?
    ensures Potless(w, SubmitResolution(w, id, winner, ciphertext, amount, proof).value.0)
  {
    hide SubmitResolution;
    ResolutionShape(w, id, winner, ciphertext, amount, proof);
  }

  lemma ResolveShieldedPotless(w: World, id: nat, identity: Word, ciphertext: Word, amount: nat, proof: Avss.Envelope)
    requires SubmitShieldedResolution(w, id, identity, ciphertext, amount, proof).Committed?
    ensures Potless(w, SubmitShieldedResolution(w, id, identity, ciphertext, amount, proof).value.0)
  {
    hide SubmitShieldedResolution;
    ShieldedResolutionShape(w, id, identity, ciphertext, amount, proof);
  }

  lemma ClaimPotless(w: World, c: Call)
    requires c.Proceeds? || c.Reward? || c.Asset? || c.ShieldedAsset? || c.ShieldedRefund?
    requires Step(w, c).Committed?
    ensures Potless(w, Step(w, c).value)
  {
    hide Step, Potless;
    if c.ShieldedAsset? || c.ShieldedRefund? { ShieldedClaimPotless(w, c); } else { PublicClaimPotless(w, c); }
  }

  lemma PublicClaimPotless(w: World, c: Call)
    requires (c.Proceeds? || c.Reward? || c.Asset?) && Step(w, c).Committed?
    ensures Potless(w, Step(w, c).value)
  {
    hide SellerPayout;
  }

  lemma ShieldedClaimPotless(w: World, c: Call)
    requires (c.ShieldedAsset? || c.ShieldedRefund?) && Step(w, c).Committed?
    ensures Potless(w, Step(w, c).value)
  {
    hide Vaults.Release, Vaults.AuthorizeAsset, ResolveCommitment;
  }

  // ---- calls that do ----

  lemma CreateKeepsPots(w: World, w': World)
    requires Inv(w) && PotsSolvent(w) && Creates(w, w')
    ensures PotsSolvent(w')
  {
    hide Custody, Clocked, AuctionOk;
    var n := |w.auctions|;
    forall p | p in w'.pots ensures Total(PotDues(w', p)) <= w'.pots[p].balance {
      assert !w.Exists(n + 1) && n + 1 !in w.pots[p].entries;
      assert PotDue(w', p, n + 1) == 0;
      forall i: nat | i < n ensures w'.auctions[i] == w.auctions[i] { assert w'.auctions[..n][i] == w.auctions[i]; }
      assert PotDues(w', p) == PotDues(w, p) + [0];
      TotalAppend(PotDues(w, p), 0);
    }
  }

  lemma QuietKeepsPots(w: World, w': World)
    requires Inv(w) && PotsSolvent(w) && Quiet(w, w')
    ensures PotsSolvent(w')
  {
    hide Custody, Clocked, AuctionOk;
    forall p | p in w'.pots ensures Total(PotDues(w', p)) <= w'.pots[p].balance {
      if p in w.pots {
        assert PotDues(w', p) == PotDues(w, p);
      } else {
        NothingDue(w', p);
      }
    }
  }

  lemma {:induction false} AllZero(s: seq<nat>)
    requires forall i :: 0 <= i < |s| ==> s[i] == 0
    ensures Total(s) == 0
  {
    if s != [] { AllZero(s[..|s| - 1]); }
  }

  lemma NothingDue(w: World, p: Address)
    requires p in w.pots && w.pots[p].entries == map[]
    ensures Total(PotDues(w, p)) == 0
  {
    AllZero(PotDues(w, p));
  }

  /** A slash brings the pot at least as much as its bidders' shares of it. */
  lemma CloseKeepsPots(w: World, id: nat, next: AuctionState, slash: nat, takes: bool)
    requires Inv(w) && PotsSolvent(w) && w.Exists(id) && ClosingSlash(w.At(id), SideOf(w, id), next, slash)
    requires Close(w, id, next, slash, takes).Committed?
    ensures PotsSolvent(Close(w, id, next, slash, takes).value)
  {
    hide Inv, Close, VaultRow, PotClaims, PotsSolvent, PotRow, PotDue, Registers;
    var w' := Close(w, id, next, slash, takes).value;
    CloseKeepsInv(w, id, next, slash, takes);
    ClosePots(w, id, next, slash, takes);
    AuctionAt(w, id);
    forall p | p in w'.pots ensures Total(PotDues(w', p)) <= w'.pots[p].balance {
      assert p in w.pots.Keys && Total(PotDues(w, p)) <= w.pots[p].balance by { SolventAt(w, p); }
      forall j | w.Exists(j) && j != id ensures PotDue(w', p, j) == PotDue(w, p, j) {
        assert w'.At(j) == w.At(j) && PotRow(w', p, j) == PotRow(w, p, j);
        SameDue(w, w', p, j);
      }
      CloseMovesPot(w, w', id, p);
      PotMoves(w, w', id, p);
    }
    SolventIntro(w');
  }

  lemma SolventAt(w: World, p: Address)
    requires PotsSolvent(w) && p in w.pots
    ensures Total(PotDues(w, p)) <= w.pots[p].balance
  {}

  lemma SolventIntro(w: World)
    requires forall p :: p in w.pots ==> Total(PotDues(w, p)) <= w.pots[p].balance
    ensures PotsSolvent(w)
  {}

  /** What closing does to the pots: nothing, or one registration with the auction's own pot. */
  ghost predicate Registers(w: World, w': World, id: nat)
    requires w.Exists(id)
  {
    var a := w.At(id);
    w'.pots == w.pots ||
    (a.terms.deps.pot in w.pots && exists public: nat ::
       w'.pots == w.pots[a.terms.deps.pot := Pots.RegisterSlash(w.pots[a.terms.deps.pot], id, a.totalEscrow, public)])
  }

  lemma ClosePots(w: World, id: nat, next: AuctionState, slash: nat, takes: bool)
    requires w.Exists(id) && Close(w, id, next, slash, takes).Committed?
    ensures Registers(w, Close(w, id, next, slash, takes).value, id)
    ensures Close(w, id, next, slash, takes).value.pots.Keys == w.pots.Keys
  {
    hide RegisterSlash, Pots.RegisterSlash, Vaults.Unlock;
    SlashPots(Closing(w, id, next, slash), id, slash);
  }

  lemma SlashPots(w: World, id: nat, slash: nat)
    requires w.Exists(id) && RegisterSlash(w, id, slash).Committed?
    ensures Registers(w, RegisterSlash(w, id, slash).value, id)
    ensures RegisterSlash(w, id, slash).value.pots.Keys == w.pots.Keys
    ensures RegisterSlash(w, id, slash).value.auctions == w.auctions
  {
    hide Vaults.AllocateSlash, Pots.RegisterSlash;
  }

  lemma CloseMovesPot(w: World, w': World, id: nat, p: Address)
    requires w.Exists(id) && w'.Exists(id) && Registers(w, w', id) && p in w.pots && p in w'.pots
    requires w'.At(id).terms == w.At(id).terms && w'.At(id).escrow == w.At(id).escrow
    requires Sum(w.At(id).escrow) <= w.At(id).totalEscrow && PotRow(w, w.At(id).terms.deps.pot, id) == None
    ensures w.pots[p].balance + PotDue(w', p, id) <= w'.pots[p].balance + PotDue(w, p, id)
  {
    var a := w.At(id);
    var pot := a.terms.deps.pot;
    if w'.pots != w.pots && p == pot {
      var public: nat :|
        w'.pots == w.pots[pot := Pots.RegisterSlash(w.pots[pot], id, a.totalEscrow, public)];
      SharesFitPot(a.escrow, a.totalEscrow, public);
    }
  }

  /** A claim takes exactly the claimant's share out of the pot and off what is due. */
  lemma RefundKeepsPots(w: World, sender: Caller, id: nat, accepts: bool)
    requires Inv(w) && PotsSolvent(w) && ClaimRefund(w, sender, id, accepts).Committed?
    ensures PotsSolvent(ClaimRefund(w, sender, id, accepts).value)
  {
    hide Inv, ClaimRefund, PotsSolvent, PotDue, VaultRow, PotClaims;
    RefundRows(w, sender, id, accepts);
    var w' := ClaimRefund(w, sender, id, accepts).value;
    forall p | p in w'.pots ensures Total(PotDues(w', p)) <= w'.pots[p].balance {
      assert p in w.pots.Keys && Total(PotDues(w, p)) <= w.pots[p].balance by { SolventAt(w, p); }
      forall j | w.Exists(j) && j != id ensures PotDue(w', p, j) == PotDue(w, p, j) {
        assert w'.At(j) == w.At(j) && PotRow(w', p, j) == PotRow(w, p, j);
        SameDue(w, w', p, j);
      }
      RefundMovesPot(w, sender, id, accepts, p);
      PotMoves(w, w', id, p);
    }
    SolventIntro(w');
  }

  lemma SameDue(w: World, w': World, p: Address, j: nat)
    requires w.Exists(j) && w'.Exists(j) && w'.At(j) == w.At(j) && PotRow(w', p, j) == PotRow(w, p, j)
    ensures PotDue(w', p, j) == PotDue(w, p, j)
  {}

  lemma RefundMovesPot(w: World, sender: Caller, id: nat, accepts: bool, p: Address)
    requires Inv(w) && ClaimRefund(w, sender, id, accepts).Committed? && p in w.pots
    ensures w.Exists(id)
    ensures var w' := ClaimRefund(w, sender, id, accepts).value;
            && w'.Exists(id) && p in w'.pots
            && w.pots[p].balance + PotDue(w', p, id) == w'.pots[p].balance + PotDue(w, p, id)
  {
    hide Custody, Platform, Clocked, BidsOk, EscrowOk, Vaults.Sound;
    RefundIsWhole(w, id, sender);
    var a, w' := w.At(id), ClaimRefund(w, sender, id, accepts).value;
    assert AuctionOk(a, SideOf(w, id)) && DepsOk(w, a.terms.deps);
    var entry := PotRow(w, a.terms.deps.pot, id);
    if p == a.terms.deps.pot && entry.Some? {
      var (e, t) := (entry.value.totalEscrow, entry.value.totalSlash);
      ShareLeaves(a.escrow, sender, e, t);
    }
  }

  /** Emptying one row takes exactly that row's share off the sum. */
  lemma ShareLeaves(escrow: map<Address, nat>, b: Address, totalEscrow: nat, totalSlash: nat)
    ensures Sum(Shares(escrow[b := 0], totalEscrow, totalSlash)) + ProRataShare(Get(escrow, b), totalEscrow, totalSlash)
            == Sum(Shares(escrow, totalEscrow, totalSlash))
  {
    var s := Shares(escrow, totalEscrow, totalSlash);
    SumPut(s, b, 0);
    assert Shares(escrow[b := 0], totalEscrow, totalSlash) == s[b := 0];
  }

  // ---- every call, every run ----

  lemma StepKeepsPots(w: World, c: Call)
    requires Inv(w) && PotsSolvent(w) && Step(w, c).Committed?
    ensures PotsSolvent(Step(w, c).value)
  {
    hide Inv, PotsSolvent, CreateAuction, LockEscrow, LockShieldedEscrow, PlaceBid, PlaceShieldedBid, TriggerFinalize,
      SubmitResolution, SubmitShieldedResolution, CancelAuction, TriggerFallbackVoid, ClaimRefund, ClaimSellerProceeds,
      ClaimFinalizeReward, ClaimAsset, ClaimShieldedAsset, ClaimShieldedRefund, Ambient, Potless;
    match c
    case Create(_, _, _, _, _, _, _, _) => CreateShape(w, c); CreateKeepsPots(w, Step(w, c).value);
    case Cancel(sender, id, takes) => CancelKeepsPots(w, sender, id, takes);
    case Void(id, takes) => VoidKeepsPots(w, id, takes);
    case Refund(sender, id, accepts) => RefundKeepsPots(w, sender, id, accepts);
    case _ =>
      if Background(c) {
        BackgroundKeepsPots(w, c);
      } else {
        PotlessCall(w, c);
        PotlessKeepsPots(w, Step(w, c).value);
      }
  }

  lemma CreateShape(w: World, c: Call)
    requires c.Create? && Step(w, c).Committed?
    ensures Creates(w, Step(w, c).value)
  {}

  lemma BackgroundKeepsPots(w: World, c: Call)
    requires Inv(w) && PotsSolvent(w) && Background(c) && Step(w, c).Committed?
    ensures PotsSolvent(Step(w, c).value)
  {
    hide Step, AuctionOk, TermsOk, Custody, Quiet, PotsSolvent;
    BackgroundIsQuiet(w, c);
    QuietKeepsPots(w, Step(w, c).value);
  }

  lemma CancelKeepsPots(w: World, sender: Caller, id: nat, takes: bool)
    requires Inv(w) && PotsSolvent(w) && CancelAuction(w, sender, id, takes).Committed?
    ensures PotsSolvent(CancelAuction(w, sender, id, takes).value)
  {
    hide Inv, Close, ComputeCancellationSlash, PotsSolvent;
    CancellationSlashFits(w, id);
    CloseKeepsPots(w, id, Cancelled, ComputeCancellationSlash(w, id), takes);
  }

  lemma VoidKeepsPots(w: World, id: nat, takes: bool)
    requires Inv(w) && PotsSolvent(w) && TriggerFallbackVoid(w, id, takes).Committed?
    ensures PotsSolvent(TriggerFallbackVoid(w, id, takes).value)
  {
    hide Inv, Close, VoidSlash, PotsSolvent;
    VoidSlashCloses(w, id);
    CloseKeepsPots(w, id, Voided, VoidSlash(w, id), takes);
  }

  /** What every reachable state satisfies: the invariant, solvent pots, and a market holding what it owes. */
  ghost predicate Sound(w: World) {
    Inv(w) && PotsSolvent(w) && TotalOwed(w) <= w.balance
  }

  lemma StepKeepsSound(w: World, c: Call)
    requires Sound(w) && Step(w, c).Committed?
    ensures Sound(Step(w, c).value)
  {
    hide Inv, PotsSolvent, Step, TotalOwed;
    StepKeepsInv(w, c);
    StepKeepsPots(w, c);
    StepBalances(w, c);
  }

  lemma {:induction false} RunKeepsSound(w: World, calls: seq<Call>)
    requires Sound(w)
    ensures Sound(Run(w, calls))
    decreases |calls|
  {
    hide Sound, Step;
    if calls != [] {
      var n := |calls| - 1;
      RunKeepsSound(w, calls[..n]);
      if Step(Run(w, calls[..n]), calls[n]).Committed? { StepKeepsSound(Run(w, calls[..n]), calls[n]); }
    }
  }

  /** From deployment on, the market, every pot and every vault can pay everything they owe. */
  lemma ReachableIsSound(now: nat, adapter: Adapter, pot: Address, calls: seq<Call>)
    requires pot != ZERO
    ensures Sound(Run(Genesis(now, adapter, pot), calls))
  {
    var g := Genesis(now, adapter, pot);
    GenesisInv(now, adapter, pot);
    assert Liabilities(g) == [];
    forall p | p in g.pots ensures Total(PotDues(g, p)) <= g.pots[p].balance { NothingDue(g, p); }
    RunKeepsSound(g, calls);
  }
}
