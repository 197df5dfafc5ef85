/** What stands behind every shielded bid of a live auction: a commitment of its own in the vault and an identity. */
module ShieldedBacking {
  import opened Prelude
  import opened MarketState
  import opened MarketTransactions
  import opened MarketInvariant
  import opened MarketPreservation
  import opened MarketLifecycle
  import Vaults = ShieldedEscrowVault
  import Avss = EigenLayerAvs
  import Registries = ShieldedIdentityRegistry

  function Deposits(w: World, vault: Address): map<Word, Vaults.Deposit> {
    if vault in w.vaults then w.vaults[vault].deposits else map[]
  }

  function RegistryAt(w: World, registry: Address): Registries.Registry {
    if registry in w.registries then w.registries[registry] else Registries.EMPTY_REGISTRY
  }

  /** Every commitment locked for the auction has an identity; while the auction is live every shielded bid has an
      unspent commitment of this auction; no winner is marked before the auction is finalized. */
  ghost predicate BackedBy(a: Auction, id: nat, deposits: map<Word, Vaults.Deposit>, registry: Registries.Registry) {
    && (forall c :: c in deposits && deposits[c].auctionId == id ==> registry.IdentityFor(id, c) != 0)
    && (a.Live() ==> forall c :: c in a.shieldedBids ==>
          c in deposits && deposits[c].auctionId == id && deposits[c].amount > 0 && !deposits[c].claimed)
    && (a.state != Finalized ==> registry.Winner(id) == 0)
  }

  ghost predicate Backs(w: World, id: nat)
    requires w.Exists(id)
  {
    var deps := w.At(id).terms.deps;
    BackedBy(w.At(id), id, Deposits(w, deps.vault), RegistryAt(w, deps.registry))
  }

  ghost predicate RegistriesOk(w: World) {
    forall r: Address :: Registries.Inverse(RegistryAt(w, r))
  }

  ghost predicate NoEarlyWinners(w: World) {
    forall r: Address, id: nat :: !w.Exists(id) ==> RegistryAt(w, r).Winner(id) == 0
  }

  /** A vault only holds commitments of auctions whose vault it is. */
  ghost predicate DepositsNamed(w: World) {
    forall v: Address, c: Word :: c in Deposits(w, v) ==> IsVaultOf(w, Deposits(w, v)[c].auctionId, v)
  }

  ghost predicate IsVaultOf(w: World, id: nat, vault: Address) {
    w.Exists(id) && w.At(id).terms.deps.vault == vault
  }

  ghost predicate SameTerms(w: World, w': World) {
    |w.auctions| <= |w'.auctions| && forall id: nat :: w.Exists(id) ==> w'.At(id).terms == w.At(id).terms
  }

  ghost predicate AllBack(w: World) {
    forall id: nat :: w.Exists(id) ==> Backs(w, id)
  }

  ghost predicate Backed(w: World) {
    RegistriesOk(w) && NoEarlyWinners(w) && DepositsNamed(w) && AllBack(w)
  }

  /** Commitments and bindings are as they were. */
  ghost predicate SameBacking(w: World, w': World) {
    && (forall v: Address :: Deposits(w', v) == Deposits(w, v))
    && (forall r: Address :: RegistryAt(w', r) == RegistryAt(w, r))
  }

  lemma SameBackingKeeps(w: World, w': World)
    requires Backed(w) && SameBacking(w, w') && SameTerms(w, w')
    ensures RegistriesOk(w') && NoEarlyWinners(w') && DepositsNamed(w')
  {
    hide Registries.Inverse, AllBack;
    forall r: Address ensures Registries.Inverse(RegistryAt(w', r)) { assert RegistryAt(w', r) == RegistryAt(w, r); }
    forall r: Address, id: nat | !w'.Exists(id) ensures RegistryAt(w', r).Winner(id) == 0 {
      assert !w.Exists(id) && RegistryAt(w', r) == RegistryAt(w, r);
    }
    forall v: Address, c: Word | c in Deposits(w', v) ensures IsVaultOf(w', Deposits(w', v)[c].auctionId, v) {
      assert c in Deposits(w, v) && IsVaultOf(w, Deposits(w, v)[c].auctionId, v);
    }
  }

  /** Once an auction is not live it never is again, and once finalized it stays so. */
  lemma LifeEnds(w: World, w': World, c: Call, id: nat)
    requires Inv(w) && Evolution(w, w', c) && w.Exists(id)
    ensures w'.Exists(id) && w'.At(id).terms == w.At(id).terms
    ensures w'.At(id).Live() ==> w.At(id).Live()
    ensures w.At(id).state == Finalized ==> w'.At(id).state == Finalized
  {
    hide Inv;
    CreatedNever(w, id);
    assert Evolves(w.At(id), w'.At(id));
  }

  lemma CalmKeepsBacked(w: World, c: Call)
    requires Inv(w) && Backed(w) && Step(w, c).Committed? && !c.Create? && !c.ShieldedBid?
    requires SameBacking(w, Step(w, c).value)
    ensures Backed(Step(w, c).value)
  {
    hide Inv, Step, RegistriesOk, NoEarlyWinners, DepositsNamed, Observe;
    var w' := Step(w, c).value;
    StepEvolves(w, c);
    forall id: nat | w.Exists(id) ensures w'.At(id).terms == w.At(id).terms { LifeEnds(w, w', c, id); }
    SameBackingKeeps(w, w');
    forall id: nat | w'.Exists(id) ensures Backs(w', id) {
      assert Backs(w, id);
      LifeEnds(w, w', c, id);
      if Bids(c, id) { PublicBidOnly(w, c); }
    }
  }

  lemma PublicBidOnly(w: World, c: Call)
    requires c.Bid? && Step(w, c).Committed?
    ensures Step(w, c).value.Exists(c.id) && Step(w, c).value.At(c.id).shieldedBids == w.At(c.id).shieldedBids
  {
    hide MeetsOpeningBid, Covers;
  }

  lemma CreateShape(w: World, c: Call)
    requires c.Create? && Step(w, c).Committed?
    ensures var w' := Step(w, c).value;
            && w'.vaults == w.vaults && w'.registries == w.registries && |w'.auctions| == |w.auctions| + 1
            && (forall id: nat :: w.Exists(id) ==> w'.At(id) == w.At(id))
            && w'.At(|w'.auctions|).shieldedBids == map[]
  {
    hide Observe;
  }

  lemma CreateKeepsBacked(w: World, c: Call)
    requires Backed(w) && c.Create? && Step(w, c).Committed?
    ensures Backed(Step(w, c).value)
  {
    hide Step, RegistriesOk;
    var w' := Step(w, c).value;
    CreateShape(w, c);
    ContractsUntouched(w, w');
    SameBackingKeeps(w, w');
    forall id: nat | w'.Exists(id) ensures Backs(w', id) {
      if w.Exists(id) { assert Backs(w, id); } else { NothingBehindNew(w, w', id); }
    }
  }

  /** No vault and no registry knows an auction before it exists. */
  lemma NothingBehindNew(w: World, w': World, id: nat)
    requires Backed(w) && SameBacking(w, w') && !w.Exists(id) && w'.Exists(id) && w'.At(id).shieldedBids == map[]
    ensures Backs(w', id)
  {
    hide RegistriesOk, AllBack;
    var deps := w'.At(id).terms.deps;
    forall c | c in Deposits(w', deps.vault) ensures Deposits(w', deps.vault)[c].auctionId != id {
      assert c in Deposits(w, deps.vault) && IsVaultOf(w, Deposits(w, deps.vault)[c].auctionId, deps.vault);
    }
  }

  lemma ShieldedBidShape(w: World, c: Call)
    requires c.ShieldedBid? && Step(w, c).Committed?
    ensures var w' := Step(w, c).value;
            && w.Exists(c.id) && w.At(c.id).terms.deps.vault in w.vaults
            && w'.vaults == w.vaults && w'.registries == w.registries && |w'.auctions| == |w.auctions|
            && (forall j: nat :: w.Exists(j) && j != c.id ==> w'.At(j) == w.At(j))
            && w'.At(c.id).terms == w.At(c.id).terms && w'.At(c.id).state == w.At(c.id).state
            && w'.At(c.id).shieldedBids == w.At(c.id).shieldedBids[c.commitment := c.handle]
    ensures var d := w.vaults[w.At(c.id).terms.deps.vault].DepositAt(c.commitment);
            c.commitment in Deposits(w, w.At(c.id).terms.deps.vault) && d.auctionId == c.id && d.amount > 0 && !d.claimed
  {
    hide Observe, MeetsOpeningBid;
  }

  lemma BidKeepsBacked(w: World, c: Call)
    requires Backed(w) && c.ShieldedBid? && Step(w, c).Committed?
    ensures Backed(Step(w, c).value)
  {
    hide Step, RegistriesOk, NoEarlyWinners, DepositsNamed;
    var w' := Step(w, c).value;
    ShieldedBidShape(w, c);
    ContractsUntouched(w, w');
    SameBackingKeeps(w, w');
    forall id: nat | w'.Exists(id) ensures Backs(w', id) {
      assert Backs(w, id);
    }
  }

  lemma LockKeepsBacked(w: World, c: Call)
    requires Backed(w) && c.ShieldedLock? && Step(w, c).Committed?
    ensures Backed(Step(w, c).value)
  {
    hide Registries.Inverse, Registries.Extends, Registries.Bind, Observe, BackedBy, RegistriesOk, NoEarlyWinners, DepositsNamed;
    LockKeepsRegistries(w, c);
    LockKeepsNames(w, c);
    var w' := Step(w, c).value;
    var deps := w.At(c.id).terms.deps;
    var before, after := RegistryAt(w, deps.registry), RegistryAt(w', deps.registry);
    forall id: nat | w'.Exists(id) ensures Backs(w', id) {
      assert Backs(w, id);
      var own := w.At(id).terms.deps;
      if own.registry == deps.registry { ExtendsBacking(w.At(id), id, Deposits(w, own.vault), before, after); }
      if own.vault == deps.vault {
        LockBacks(w.At(id), id, w.vaults[deps.vault], RegistryAt(w', own.registry), c.id, c.commitment, c.value, c.authority);
      }
    }
  }

  lemma LockKeepsRegistries(w: World, c: Call)
    requires Backed(w) && c.ShieldedLock? && Step(w, c).Committed?
    ensures RegistriesOk(Step(w, c).value) && NoEarlyWinners(Step(w, c).value)
    ensures var r := w.At(c.id).terms.deps.registry;
            var before, after := RegistryAt(w, r), RegistryAt(Step(w, c).value, r);
            && Registries.Extends(before, after) && after.winners == before.winners
            && after.IdentityFor(c.id, c.commitment) == c.identity
  {
    hide Registries.Inverse, Registries.Extends, Registries.Bind, Observe, AllBack, DepositsNamed, Vaults.Lock;
    var w' := Step(w, c).value;
    var registry := w.At(c.id).terms.deps.registry;
    var before := RegistryAt(w, registry);
    Registries.BindIsPermanent(before, c.id, c.identity, c.commitment);
    WinnersKept(before, c.id, c.identity, c.commitment);
    forall r: Address ensures Registries.Inverse(RegistryAt(w', r)) {
      if r != registry { assert RegistryAt(w', r) == RegistryAt(w, r); }
    }
    forall r: Address, id: nat | !w'.Exists(id) ensures RegistryAt(w', r).Winner(id) == 0 {
      assert !w.Exists(id) && RegistryAt(w, r).Winner(id) == 0;
    }
  }

  lemma LockKeepsNames(w: World, c: Call)
    requires DepositsNamed(w) && c.ShieldedLock? && Step(w, c).Committed?
    ensures DepositsNamed(Step(w, c).value)
  {
    hide Registries.Bind, Observe;
    var w' := Step(w, c).value;
    forall v: Address, d: Word | d in Deposits(w', v) ensures IsVaultOf(w', Deposits(w', v)[d].auctionId, v) {
      if !(v == w.At(c.id).terms.deps.vault && d == c.commitment) {
        assert d in Deposits(w, v) && IsVaultOf(w, Deposits(w, v)[d].auctionId, v);
      }
    }
  }

  /** Binding marks no winner. */
  lemma WinnersKept(r: Registries.Registry, id: nat, identity: Word, commitment: Word)
    requires Registries.Bind(r, id, identity, commitment).Committed?
    ensures Registries.Bind(r, id, identity, commitment).value.winners == r.winners
  {}

  lemma ExtendsBacking(a: Auction, id: nat, deposits: map<Word, Vaults.Deposit>, before: Registries.Registry,
                       after: Registries.Registry)
    requires BackedBy(a, id, deposits, before) && Registries.Extends(before, after) && after.winners == before.winners
    ensures BackedBy(a, id, deposits, after)
  {}

  /** A new commitment has no live bid of its own to displace, and its identity has just been bound. */
  lemma LockBacks(a: Auction, id: nat, vault: Vaults.Vault, registry: Registries.Registry, locked: nat, commitment: Word,
                  value: nat, authority: Address)
    requires BackedBy(a, id, vault.deposits, registry) && Vaults.Lock(vault, locked, commitment, value, authority).Committed?
    requires id == locked ==> registry.IdentityFor(id, commitment) != 0
    ensures BackedBy(a, id, Vaults.Lock(vault, locked, commitment, value, authority).value.deposits, registry)
  {}

  // ---- refunds and shielded winners ----

  /** One commitment is spent further, everything else of the vault's commitments stays. */
  ghost predicate Spends(before: map<Word, Vaults.Deposit>, after: map<Word, Vaults.Deposit>, commitment: Word) {
    && commitment in before && commitment in after && after == before[commitment := after[commitment]]
    && after[commitment].auctionId == before[commitment].auctionId
    && after[commitment].authority == before[commitment].authority
  }

  /** Spending a commitment of an auction that is no longer live takes nothing from behind any live auction. */
  lemma SpendBacks(a: Auction, id: nat, before: map<Word, Vaults.Deposit>, after: map<Word, Vaults.Deposit>,
                   commitment: Word, registry: Registries.Registry)
    requires BackedBy(a, id, before, registry)
    requires Spends(before, after, commitment)
    requires before[commitment].auctionId == id ==> !a.Live()
    ensures BackedBy(a, id, after, registry)
  {}

  lemma RefundSpends(w: World, c: Call)
    requires c.ShieldedRefund? && Step(w, c).Committed?
    ensures var w' := Step(w, c).value;
            var id := w.vaults[c.vault].DepositAt(c.commitment).auctionId;
            && w.Exists(id) && w.At(id).Terminal() && |w'.auctions| == |w.auctions| && c.vault in w.vaults
            && Spends(Deposits(w, c.vault), Deposits(w', c.vault), c.commitment)
            && Deposits(w, c.vault)[c.commitment].auctionId == id && Deposits(w', c.vault)[c.commitment].claimed
            && (forall v: Address :: v != c.vault ==> Deposits(w', v) == Deposits(w, v))
            && w'.registries == w.registries
            && (forall j: nat :: w.Exists(j) ==> w'.At(j) == w.At(j).(settledRefunds := w'.At(j).settledRefunds))
  {
    hide Vaults.Compensation, Vaults.Authorize;
  }

  lemma RefundKeepsBacked(w: World, c: Call)
    requires Backed(w) && c.ShieldedRefund? && Step(w, c).Committed?
    ensures Backed(Step(w, c).value)
  {
    hide Step, RegistriesOk, NoEarlyWinners, DepositsNamed, BackedBy;
    var w' := Step(w, c).value;
    RefundSpends(w, c);
    SpendKeepsNames(w, w', c.vault, c.commitment);
    SameRegistries(w, w');
    forall id: nat | w'.Exists(id) ensures Backs(w', id) {
      assert Backs(w, id);
      var deps := w.At(id).terms.deps;
      if deps.vault == c.vault {
        SpendBacks(w.At(id), id, Deposits(w, c.vault), Deposits(w', c.vault), c.commitment, RegistryAt(w, deps.registry));
      }
      SettledIsBacked(w.At(id), w'.At(id), id, Deposits(w', deps.vault), RegistryAt(w', deps.registry));
    }
  }

  lemma SettledIsBacked(a: Auction, a': Auction, id: nat, deposits: map<Word, Vaults.Deposit>, registry: Registries.Registry)
    requires BackedBy(a, id, deposits, registry) && a' == a.(settledRefunds := a'.settledRefunds)
    ensures BackedBy(a', id, deposits, registry)
  {}

  lemma SameRegistries(w: World, w': World)
    requires RegistriesOk(w) && NoEarlyWinners(w) && w'.registries == w.registries && |w'.auctions| == |w.auctions|
    ensures RegistriesOk(w') && NoEarlyWinners(w')
  {
    hide Registries.Inverse;
    forall r: Address, id: nat | !w'.Exists(id) ensures RegistryAt(w', r).Winner(id) == 0 {
      assert !w.Exists(id) && RegistryAt(w', r) == RegistryAt(w, r);
    }
    forall r: Address ensures Registries.Inverse(RegistryAt(w', r)) { assert RegistryAt(w', r) == RegistryAt(w, r); }
  }

  lemma SpendKeepsNames(w: World, w': World, vault: Address, commitment: Word)
    requires DepositsNamed(w) && SameTerms(w, w')
    requires Spends(Deposits(w, vault), Deposits(w', vault), commitment)
    requires forall v: Address :: v != vault ==> Deposits(w', v) == Deposits(w, v)
    ensures DepositsNamed(w')
  {
    forall v: Address, d: Word | d in Deposits(w', v) ensures IsVaultOf(w', Deposits(w', v)[d].auctionId, v) {
      assert d in Deposits(w, v) && IsVaultOf(w, Deposits(w, v)[d].auctionId, v);
    }
  }

  /** An accepted shielded resolution spends the winner's commitment, finalizes its auction and marks its identity. */
  ghost predicate Finalizes(w: World, w': World, id: nat, identity: Word, commitment: Word)
    requires w.Exists(id)
  {
    && |w'.auctions| == |w.auctions| && w'.At(id).state == Finalized && w'.At(id).terms == w.At(id).terms
    && (forall j: nat :: w.Exists(j) && j != id ==> w'.At(j) == w.At(j))
    && var deps := w.At(id).terms.deps;
       && Registries.MarkWinner(RegistryAt(w, deps.registry), id, identity) == Committed(RegistryAt(w', deps.registry))
       && (forall r: Address :: r != deps.registry ==> RegistryAt(w', r) == RegistryAt(w, r))
       && (forall v: Address :: v != deps.vault ==> Deposits(w', v) == Deposits(w, v))
       && Spends(Deposits(w, deps.vault), Deposits(w', deps.vault), commitment)
       && Deposits(w, deps.vault)[commitment].auctionId == id
       && Pays(Deposits(w, deps.vault)[commitment], Deposits(w', deps.vault)[commitment], w'.At(id).outcome.amount)
  }

  /** The winning amount leaves the winner's commitment, and nothing else about it changes. */
  predicate Pays(before: Vaults.Deposit, after: Vaults.Deposit, amount: nat) {
    after.amount + amount == before.amount && after == before.(amount := after.amount)
  }

  lemma SettleSpends(v: Vaults.Vault, id: nat, commitment: Word, amount: nat)
    requires Vaults.SettleWinning(v, id, commitment, amount).Committed?
    ensures Spends(v.deposits, Vaults.SettleWinning(v, id, commitment, amount).value.deposits, commitment)
    ensures v.deposits[commitment].auctionId == id
    ensures Pays(v.deposits[commitment], Vaults.SettleWinning(v, id, commitment, amount).value.deposits[commitment], amount)
  {}

  lemma OpenRefundsKeepsDeposits(w: World, id: nat)
    requires w.Exists(id)
    ensures var w' := OpenRefunds(w, id);
            && w'.registries == w.registries && |w'.auctions| == |w.auctions|
            && (forall v: Address :: Deposits(w', v) == Deposits(w, v))
            && w'.At(id) == w.At(id).(refundsUnlocked := w'.At(id).refundsUnlocked)
            && (forall j: nat :: w.Exists(j) && j != id ==> w'.At(j) == w.At(j))
  {}

  lemma ResolutionSpends(w: World, id: nat, identity: Word, ciphertext: Word, amount: nat, proof: Avss.Envelope)
    requires SubmitShieldedResolution(w, id, identity, ciphertext, amount, proof).Committed?
    ensures w.Exists(id)
    ensures var (w', accepted) := SubmitShieldedResolution(w, id, identity, ciphertext, amount, proof).value;
            if accepted then CheckShieldedResolution(w, id, identity, ciphertext, amount).Committed?
                             && Finalizes(w, w', id, identity, CheckShieldedResolution(w, id, identity, ciphertext, amount).value)
            else w' == w.(avss := w'.avss)
  {
    hide Avss.Verify, Observe, OpenRefunds, Vaults.SettleWinning, Registries.MarkWinner, Spends;
    var check := CheckShieldedResolution(w, id, identity, ciphertext, amount);
    var a, deps := w.At(id), w.At(id).terms.deps;
    var statement := Avss.Statement(id, a.request.value.requestId, identity, ciphertext, amount);
    var checked := VerifyProof(w, deps.engine, statement, proof).value;
    if checked.1 {
      SettleSpends(w.vaults[deps.vault], id, check.value, amount);
      var vault := Vaults.SettleWinning(w.vaults[deps.vault], id, check.value, amount).value;
      var a' := a.(state := Finalized, outcome := Outcome(ZERO, ciphertext, amount, identity), request := None);
      var paid := Observed(checked.0).Put(id, a').(vaults := w.vaults[deps.vault := vault], balance := w.balance + amount);
      OpenRefundsKeepsDeposits(paid, id);
      var w' := SubmitShieldedResolution(w, id, identity, ciphertext, amount, proof).value.0;
      assert w' == OpenRefunds(paid, id).(registries := w'.registries);
      forall v: Address ensures Deposits(w', v) == Deposits(paid, v) {}
      forall j: nat | w.Exists(j) && j != id ensures w'.At(j) == w.At(j) {
        assert paid.Exists(j) && paid.At(j) == w.At(j);
      }
    }
  }

  lemma ResolutionKeepsBacked(w: World, c: Call)
    requires Backed(w) && c.ResolveShielded? && Step(w, c).Committed?
    ensures Backed(Step(w, c).value)
  {
    hide SubmitShieldedResolution, CheckShieldedResolution, RegistriesOk, NoEarlyWinners, DepositsNamed, BackedBy, Finalizes;
    var w' := Step(w, c).value;
    ResolutionSpends(w, c.id, c.identity, c.ciphertext, c.amount, c.proof);
    if SubmitShieldedResolution(w, c.id, c.identity, c.ciphertext, c.amount, c.proof).value.1 {
      FinalizingKeepsBacked(w, w', c.id, c.identity, CheckShieldedResolution(w, c.id, c.identity, c.ciphertext, c.amount).value);
    } else {
      SameBackingKeeps(w, w');
      forall id: nat | w'.Exists(id) ensures Backs(w', id) { assert Backs(w, id); }
    }
  }

  lemma FinalizingKeepsBacked(w: World, w': World, id: nat, identity: Word, commitment: Word)
    requires Backed(w) && w.Exists(id) && Finalizes(w, w', id, identity, commitment)
    ensures Backed(w')
  {
    hide Registries.MarkWinner, Spends, RegistriesOk, NoEarlyWinners, DepositsNamed, BackedBy;
    var deps := w.At(id).terms.deps;
    var before, after := RegistryAt(w, deps.registry), RegistryAt(w', deps.registry);
    SpendKeepsNames(w, w', deps.vault, commitment);
    MarkKeepsRegistries(w, w', id, identity);
    forall j: nat | w'.Exists(j) ensures Backs(w', j) {
      assert Backs(w, j);
      FinalizedBacks(w, w', j, id, identity, commitment);
    }
  }

  lemma MarkKeepsRegistries(w: World, w': World, id: nat, identity: Word)
    requires RegistriesOk(w) && NoEarlyWinners(w) && w.Exists(id) && |w'.auctions| == |w.auctions|
    requires var r := w.At(id).terms.deps.registry;
             && Registries.MarkWinner(RegistryAt(w, r), id, identity) == Committed(RegistryAt(w', r))
             && (forall s: Address :: s != r ==> RegistryAt(w', s) == RegistryAt(w, s))
    ensures RegistriesOk(w') && NoEarlyWinners(w')
  {
    hide Registries.Inverse, Registries.Extends;
    var registry := w.At(id).terms.deps.registry;
    assert Registries.Inverse(RegistryAt(w, registry));
    Registries.MarkIsWriteOnce(RegistryAt(w, registry), id, identity);
    forall r: Address ensures Registries.Inverse(RegistryAt(w', r)) {
      if r != registry { assert RegistryAt(w', r) == RegistryAt(w, r); }
    }
    forall r: Address, j: nat | !w'.Exists(j) ensures RegistryAt(w', r).Winner(j) == 0 {
      assert !w.Exists(j) && RegistryAt(w, r).Winner(j) == 0;
    }
  }

  lemma FinalizedBacks(w: World, w': World, j: nat, id: nat, identity: Word, commitment: Word)
    requires w.Exists(j) && w.Exists(id) && Finalizes(w, w', id, identity, commitment) && Backs(w, j)
    ensures w'.Exists(j) && Backs(w', j)
  {
    var deps, own := w.At(id).terms.deps, w.At(j).terms.deps;
    MarkBindsNothing(RegistryAt(w, deps.registry), id, identity);
  }

  lemma MarkBindsNothing(r: Registries.Registry, id: nat, identity: Word)
    requires Registries.MarkWinner(r, id, identity).Committed?
    ensures var r' := Registries.MarkWinner(r, id, identity).value;
            && r'.commitments == r.commitments
            && (forall j: nat, c: Word :: r'.IdentityFor(j, c) == r.IdentityFor(j, c))
            && (forall j: nat :: j != id ==> r'.Winner(j) == r.Winner(j))
  {}

  // ---- every call, every run ----

  /** The calls that lock, bid, spend or settle behind the shield. */
  predicate Shielded(c: Call) {
    c.ShieldedLock? || c.ShieldedBid? || c.ResolveShielded? || c.ShieldedRefund?
  }

  lemma StepKeepsBacked(w: World, c: Call)
    requires Inv(w) && Backed(w) && Step(w, c).Committed?
    ensures Backed(Step(w, c).value)
  {
    hide Inv, Step, Backed;
    if c.Create? { CreateKeepsBacked(w, c); }
    else if c.ShieldedLock? { LockKeepsBacked(w, c); }
    else if c.ShieldedBid? { BidKeepsBacked(w, c); }
    else if c.ResolveShielded? { ResolutionKeepsBacked(w, c); }
    else if c.ShieldedRefund? { RefundKeepsBacked(w, c); }
    else { CalmCall(w, c); CalmKeepsBacked(w, c); }
  }

  lemma CalmCall(w: World, c: Call)
    requires Step(w, c).Committed? && !c.Create? && !Shielded(c)
    ensures SameBacking(w, Step(w, c).value)
  {
    hide Step;
    if Background(c) { CalmBackground(w, c); }
    else if c.Cancel? || c.Void? { CalmClosing(w, c); }
    else if c.Resolve? { CalmResolution(w, c); }
    else if c.ShieldedAsset? { CalmAsset(w, c); }
    else { CalmOther(w, c); }
  }

  /** The same rows in the vaults and the registries. */
  lemma ContractsUntouched(w: World, w': World)
    requires w'.vaults == w.vaults && w'.registries == w.registries
    ensures SameBacking(w, w')
  {}

  lemma CalmBackground(w: World, c: Call)
    requires Background(c) && Step(w, c).Committed?
    ensures SameBacking(w, Step(w, c).value)
  {
    hide SameBacking, Environment;
    assert Step(w, c) == Ambient(w, c);
    if Ambient(w, c) == Environment(w, c) {
      CalmEnvironment(w, c);
    } else {
      ContractsUntouched(w, Ambient(w, c).value);
    }
  }

  lemma CalmEnvironment(w: World, c: Call)
    requires Environment(w, c).Committed?
    ensures SameBacking(w, Environment(w, c).value)
  {}

  lemma CalmOther(w: World, c: Call)
    requires Step(w, c).Committed?
    requires c.Escrow? || c.Bid? || c.Trigger? || c.Refund? || c.Proceeds? || c.Reward? || c.Asset?
    ensures SameBacking(w, Step(w, c).value)
  {
    hide Step, SameBacking;
    if c.Escrow? || c.Bid? || c.Trigger? { CalmLive(w, c); } else { CalmClaim(w, c); }
    ContractsUntouched(w, Step(w, c).value);
  }

  lemma CalmLive(w: World, c: Call)
    requires Step(w, c).Committed? && (c.Escrow? || c.Bid? || c.Trigger?)
    ensures Step(w, c).value.vaults == w.vaults && Step(w, c).value.registries == w.registries
  {
    hide MeetsOpeningBid, Covers, Observe, NextRequestId;
  }

  lemma CalmClaim(w: World, c: Call)
    requires Step(w, c).Committed? && (c.Refund? || c.Proceeds? || c.Reward? || c.Asset?)
    ensures Step(w, c).value.vaults == w.vaults && Step(w, c).value.registries == w.registries
  {
    hide EscrowRefund, PreviewCompensation, SellerPayout;
  }

  lemma CalmAsset(w: World, c: Call)
    requires c.ShieldedAsset? && Step(w, c).Committed?
    ensures SameBacking(w, Step(w, c).value)
  {
    hide ResolveCommitment;
  }

  lemma CheckFinds(w: World, id: nat, winner: Address, ciphertext: Word, amount: nat)
    requires CheckResolution(w, id, winner, ciphertext, amount).Passed?
    ensures w.Exists(id) && w.At(id).request.Some?
  {
    hide Covers;
  }

  lemma CalmResolution(w: World, c: Call)
    requires c.Resolve? && Step(w, c).Committed?
    ensures SameBacking(w, Step(w, c).value)
  {
    hide VerifyProof, Observe, CheckResolution, OpenRefunds;
    CheckFinds(w, c.id, c.winner, c.ciphertext, c.amount);
    var a := w.At(c.id);
    var statement := Avss.Statement(c.id, a.request.value.requestId, c.winner, c.ciphertext, c.amount);
    var checked := VerifyProof(w, a.terms.deps.engine, statement, c.proof).value;
    VerifyProofOnlyAvss(w, a.terms.deps.engine, statement, c.proof);
    if checked.1 {
      var a' := a.(state := Finalized, outcome := Outcome(c.winner, c.ciphertext, c.amount, 0), request := None);
      OpenRefundsKeepsDeposits(Observed(checked.0).Put(c.id, a'), c.id);
    }
  }

  lemma CalmClosing(w: World, c: Call)
    requires (c.Cancel? || c.Void?) && Step(w, c).Committed?
    ensures SameBacking(w, Step(w, c).value)
  {
    hide Close, ComputeCancellationSlash, VoidSlash;
    if c.Cancel? {
      ClosingIsCalm(w, c.id, Cancelled, ComputeCancellationSlash(w, c.id), c.takes);
    } else {
      ClosingIsCalm(w, c.id, Voided, VoidSlash(w, c.id), c.takes);
    }
  }

  lemma ClosingIsCalm(w: World, id: nat, next: AuctionState, slash: nat, takes: bool)
    requires w.Exists(id) && Close(w, id, next, slash, takes).Committed?
    ensures SameBacking(w, Close(w, id, next, slash, takes).value)
  {
    hide RegisterSlash, OpenRefunds, Observe, SameBacking;
    var closing := Closing(w, id, next, slash);
    SlashLeavesNetwork(closing, id, slash);
    ContractsUntouched(w, closing);
    SlashIsCalm(closing, id, slash);
    var slashed := RegisterSlash(closing, id, slash).value;
    SameBackingChain(w, closing, slashed);
    OpeningIsCalm(slashed, id);
    SameBackingChain(w, slashed, OpenRefunds(slashed, id));
    ContractsUntouched(OpenRefunds(slashed, id), Close(w, id, next, slash, takes).value);
    SameBackingChain(w, OpenRefunds(slashed, id), Close(w, id, next, slash, takes).value);
  }

  lemma OpeningIsCalm(w: World, id: nat)
    requires w.Exists(id)
    ensures SameBacking(w, OpenRefunds(w, id))
  {
    hide OpenRefunds;
    OpenRefundsKeepsDeposits(w, id);
  }

  lemma SlashIsCalm(w: World, id: nat, slash: nat)
    requires w.Exists(id) && RegisterSlash(w, id, slash).Committed?
    ensures SameBacking(w, RegisterSlash(w, id, slash).value)
  {
    hide Allocate, SameBacking;
    if slash == 0 {
      ContractsUntouched(w, w);
    } else {
      var split := Allocate(w, id, slash).value.0;
      AllocationIsCalm(w, id, slash);
      ContractsUntouched(split, RegisterSlash(w, id, slash).value);
      SameBackingChain(w, split, RegisterSlash(w, id, slash).value);
    }
  }

  lemma SameBackingChain(w: World, w1: World, w2: World)
    requires SameBacking(w, w1) && SameBacking(w1, w2)
    ensures SameBacking(w, w2)
  {
    forall v: Address ensures Deposits(w2, v) == Deposits(w, v) { assert Deposits(w1, v) == Deposits(w, v); }
    forall r: Address ensures RegistryAt(w2, r) == RegistryAt(w, r) { assert RegistryAt(w1, r) == RegistryAt(w, r); }
  }

  lemma AllocationIsCalm(w: World, id: nat, slash: nat)
    requires w.Exists(id) && slash <= w.balance && Allocate(w, id, slash).Committed?
    ensures SameBacking(w, Allocate(w, id, slash).value.0)
  {
    hide Vaults.AllocateSlash;
    var vault := w.At(id).terms.deps.vault;
    if vault in w.vaults { AllocationKeepsDeposits(w.vaults[vault], id, w.At(id).totalEscrow, slash); }
  }

  lemma AllocationKeepsDeposits(v: Vaults.Vault, id: nat, publicEscrow: nat, value: nat)
    requires Vaults.AllocateSlash(v, id, publicEscrow, value).Committed?
    ensures Vaults.AllocateSlash(v, id, publicEscrow, value).value.0.deposits == v.deposits
  {}

  lemma {:induction false} RunKeepsBacked(w: World, calls: seq<Call>)
    requires Inv(w) && Backed(w)
    ensures Backed(Run(w, calls))
    decreases |calls|
  {
    hide Inv, Step, Backed;
    if calls != [] {
      var n := |calls| - 1;
      RunKeepsInv(w, calls[..n]);
      RunKeepsBacked(w, calls[..n]);
      if Step(Run(w, calls[..n]), calls[n]).Committed? { StepKeepsBacked(Run(w, calls[..n]), calls[n]); }
    }
  }

  /** In every reachable state all shielded bids of live auctions are backed. */
  lemma ReachableIsBacked(now: nat, adapter: Adapter, pot: Address, calls: seq<Call>)
    requires pot != ZERO
    ensures Inv(Run(Genesis(now, adapter, pot), calls)) && Backed(Run(Genesis(now, adapter, pot), calls))
  {
    var g := Genesis(now, adapter, pot);
    GenesisInv(now, adapter, pot);
    Registries.EmptyIsInverse();
    RunKeepsInv(g, calls);
    RunKeepsBacked(g, calls);
  }

  // ---- a commitment behind a live auction stays put ----

  /** The commitment is locked for this auction and not spent, under this identity. */
  ghost predicate Stands(w: World, id: nat, commitment: Word, deposit: Vaults.Deposit, identity: Word)
    requires w.Exists(id)
  {
    var deps := w.At(id).terms.deps;
    && commitment in Deposits(w, deps.vault) && Deposits(w, deps.vault)[commitment] == deposit
    && deposit.auctionId == id && deposit.amount > 0
    && identity != 0 && RegistryAt(w, deps.registry).IdentityFor(id, commitment) == identity
  }

  lemma StepKeepsStanding(w: World, c: Call, id: nat, commitment: Word, deposit: Vaults.Deposit, identity: Word)
    requires Inv(w) && Backed(w) && w.Exists(id) && Stands(w, id, commitment, deposit, identity)
    requires Step(w, c).Committed? && Step(w, c).value.Exists(id) && Step(w, c).value.At(id).Live()
    ensures Stands(Step(w, c).value, id, commitment, deposit, identity)
  {
    hide Inv, Step, Backed, Registries.Extends;
    StepEvolves(w, c);
    LifeEnds(w, Step(w, c).value, c, id);
    if c.ShieldedLock? {
      LockLeavesStanding(w, c, id, commitment, deposit, identity);
    } else if c.ResolveShielded? {
      ResolutionLeavesStanding(w, c, id, commitment, deposit, identity);
    } else if c.ShieldedRefund? {
      RefundSpends(w, c);
    } else if c.ShieldedBid? || c.Create? {
      NoShieldedContracts(w, c);
      ContractsUntouched(w, Step(w, c).value);
    } else {
      CalmCall(w, c);
    }
  }

  lemma NoShieldedContracts(w: World, c: Call)
    requires (c.ShieldedBid? || c.Create?) && Step(w, c).Committed?
    ensures Step(w, c).value.vaults == w.vaults && Step(w, c).value.registries == w.registries
  {
    hide MeetsOpeningBid, Observe;
  }

  lemma LockLeavesStanding(w: World, c: Call, id: nat, commitment: Word, deposit: Vaults.Deposit, identity: Word)
    requires Backed(w) && c.ShieldedLock? && Step(w, c).Committed?
    requires w.Exists(id) && Stands(w, id, commitment, deposit, identity)
    ensures Step(w, c).value.Exists(id) && Step(w, c).value.At(id).terms == w.At(id).terms
    ensures Stands(Step(w, c).value, id, commitment, deposit, identity)
  {
    hide Backed, Registries.Bind, Observe;
    LockKeepsRegistries(w, c);
  }

  lemma ResolutionLeavesStanding(w: World, c: Call, id: nat, commitment: Word, deposit: Vaults.Deposit, identity: Word)
    requires c.ResolveShielded? && Step(w, c).Committed?
    requires w.Exists(id) && Stands(w, id, commitment, deposit, identity)
    requires Step(w, c).value.Exists(id) && Step(w, c).value.At(id).Live()
    ensures Step(w, c).value.At(id).terms == w.At(id).terms ==> Stands(Step(w, c).value, id, commitment, deposit, identity)
  {
    hide SubmitShieldedResolution, CheckShieldedResolution, Registries.MarkWinner;
    var w' := Step(w, c).value;
    ResolutionSpends(w, c.id, c.identity, c.ciphertext, c.amount, c.proof);
    if SubmitShieldedResolution(w, c.id, c.identity, c.ciphertext, c.amount, c.proof).value.1 {
      var registry := w.At(c.id).terms.deps.registry;
      MarkBindsNothing(RegistryAt(w, registry), c.id, c.identity);
    }
  }

  /** As long as the auction stays live, whatever else happens. */
  lemma {:induction false} RunKeepsStanding(w: World, calls: seq<Call>, id: nat, commitment: Word,
                                            deposit: Vaults.Deposit, identity: Word)
    requires Inv(w) && Backed(w) && w.Exists(id) && Stands(w, id, commitment, deposit, identity)
    requires Run(w, calls).Exists(id) && Run(w, calls).At(id).Live()
    ensures Stands(Run(w, calls), id, commitment, deposit, identity)
    decreases |calls|
  {
    hide Inv, Step, Backed, Stands;
    if calls != [] {
      var n := |calls| - 1;
      var before := Run(w, calls[..n]);
      RunKeepsInv(w, calls[..n]);
      RunKeepsBacked(w, calls[..n]);
      RunEndures(w, calls[..n], id);
      if Step(before, calls[n]).Committed? {
        StepEvolves(before, calls[n]);
        LifeEnds(before, Step(before, calls[n]).value, calls[n], id);
        RunKeepsStanding(w, calls[..n], id, commitment, deposit, identity);
        StepKeepsStanding(before, calls[n], id, commitment, deposit, identity);
      } else {
        RunKeepsStanding(w, calls[..n], id, commitment, deposit, identity);
      }
    }
  }
}
