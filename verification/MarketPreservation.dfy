/** The remaining calls keep the invariant: creation, settlement, cancellation, claims and the environment. */
module MarketPreservation {
  import opened Prelude
  import opened Sums
  import opened SettlementEngine
  import opened MarketState
  import opened MarketTransactions
  import opened MarketInvariant
  import Vaults = ShieldedEscrowVault
  import Pots = SlashedPot
  import Avss = EigenLayerAvs
  import Registries = ShieldedIdentityRegistry

  /** The other auctions and every row of theirs in a vault or a pot are as they were. */
  ghost predicate RowsKept(w: World, w': World, id: nat) {
    && |w'.auctions| == |w.auctions|
    && (forall j :: w.Exists(j) && j != id ==> w'.At(j) == w.At(j))
    && (forall v, j: nat :: j != id ==> VaultRow(w', v, j) == VaultRow(w, v, j))
    && (forall p, j: nat :: j != id ==> PotRow(w', p, j) == PotRow(w, p, j))
    && (forall p, j: nat :: j != id ==> PotClaims(w', p, j) == PotClaims(w, p, j))
  }

  ghost predicate SameContracts(w: World, w': World) {
    && w'.now == w.now && w'.config == w.config
    && w.pots.Keys == w'.pots.Keys && w.vaults.Keys == w'.vaults.Keys
    && w.registries.Keys == w'.registries.Keys && w.engines == w'.engines
    && (w'.network == w.network || w'.network == Observe(w.network, w.now))
  }

  ghost predicate VaultsSound(w: World) {
    forall v :: v in w.vaults ==> Vaults.Sound(w.vaults[v])
  }

  /** A pot keeps no claims for an auction without saying so. */
  lemma RowsKeepInv(w: World, w': World, id: nat)
    requires Inv(w) && w.Exists(id)
    requires RowsKept(w, w', id) && SameContracts(w, w') && VaultsSound(w')
    requires forall p, j: nat :: p in w'.pots && j != id && j in w'.pots[p].claimed ==> j in w.pots[p].claimed
    requires w'.At(id).terms == w.At(id).terms && w'.At(id).resolvingSince <= w.now
    requires TokensKept(w, w', id)
    requires AuctionOk(w'.At(id), SideOf(w', id))
    ensures Inv(w')
  {
    hide AuctionOk, TermsOk, Custody, Vaults.Sound, TokensKept;
    ObserveKeepsBounds(w.network, w.now);
    forall j | w.Exists(j) && j != id ensures w'.At(j) == w.At(j) && SideOf(w', j) == SideOf(w, j) {}
    assert Platform(w') by {
      forall v, j: nat | v in w'.vaults && !w'.Exists(j) ensures w'.vaults[v].BookAt(j) == Vaults.EMPTY_BOOK {
        assert v in w.vaults.Keys && !w.Exists(j) && w.vaults[v].BookAt(j) == Vaults.EMPTY_BOOK;
        assert VaultRow(w', v, j) == VaultRow(w, v, j);
      }
      forall p, j: nat | p in w'.pots && !w'.Exists(j) ensures j !in w'.pots[p].entries && j !in w'.pots[p].claimed {
        assert p in w.pots.Keys && !w.Exists(j) && j !in w.pots[p].entries;
        assert PotRow(w', p, j) == PotRow(w, p, j);
      }
    }
    TouchKeepsInv(w, w', id);
  }

  // ---- creation ----

  lemma CreateKeepsInv(w: World, sender: Caller, value: nat, nft: Address, tokenId: nat, duration: nat,
                       startingPrice: nat, deposit: nat, approved: bool)
    requires Inv(w) && CreateAuction(w, sender, value, nft, tokenId, duration, startingPrice, deposit, approved).Committed?
    ensures Inv(CreateAuction(w, sender, value, nft, tokenId, duration, startingPrice, deposit, approved).value)
  {
    var w' := CreateAuction(w, sender, value, nft, tokenId, duration, startingPrice, deposit, approved).value;
    var id := |w.auctions| + 1;
    ObserveKeepsBounds(w.network, w.now);
    SamePlatform(w, w');
    var deps := w.config;
    assert !w.Exists(id) && w'.At(id) == NewAuction(w'.At(id).terms) && w'.At(id).terms.deps == deps;
    assert VaultRow(w', deps.vault, id) == Vaults.EMPTY_BOOK by {
      if deps.vault in w.vaults { assert w.vaults[deps.vault].BookAt(id) == Vaults.EMPTY_BOOK; }
    }
    assert id !in w.pots[deps.pot].entries && id !in w.pots[deps.pot].claimed;
    NewAuctionOk(w'.At(id).terms, SideOf(w', id));
    CreateKeepsRows(w, w');
    CreateKeepsCustody(w, w');
  }

  lemma NewAuctionOk(terms: Terms, s: Side)
    requires s.book == Vaults.EMPTY_BOOK && s.entry == None && s.compensated == {}
    ensures AuctionOk(NewAuction(terms), s)
  {}

  ghost predicate Creates(w: World, w': World) {
    && |w'.auctions| == |w.auctions| + 1 && w'.auctions[..|w.auctions|] == w.auctions
    && w'.pots == w.pots && w'.vaults == w.vaults && w'.registries == w.registries && w'.engines == w.engines
    && w'.config == w.config && w'.now == w.now
  }

  lemma CreateKeepsRows(w: World, w': World)
    requires Inv(w) && Creates(w, w')
    requires var id := |w.auctions| + 1; w'.At(id).terms.deps == w.config && AuctionOk(w'.At(id), SideOf(w', id))
    requires TermsOk(w'.At(|w.auctions| + 1).terms, w.now) && w'.At(|w.auctions| + 1).resolvingSince <= w.now
    ensures forall j :: w'.Exists(j) ==> AuctionOk(w'.At(j), SideOf(w', j)) && DepsOk(w', w'.At(j).terms.deps)
    ensures forall j :: w'.Exists(j) ==> TermsOk(w'.At(j).terms, w'.now) && w'.At(j).resolvingSince <= w'.now
  {
    hide AuctionOk, TermsOk, Custody, Platform;
    forall j: nat | w'.Exists(j)
      ensures AuctionOk(w'.At(j), SideOf(w', j)) && DepsOk(w', w'.At(j).terms.deps)
      ensures TermsOk(w'.At(j).terms, w'.now) && w'.At(j).resolvingSince <= w'.now
    {
      if j <= |w.auctions| {
        assert w'.auctions[..|w.auctions|][j - 1] == w.auctions[j - 1];
        assert w.Exists(j) && w'.At(j) == w.At(j) && SideOf(w', j) == SideOf(w, j);
      }
    }
  }

  lemma CreateKeepsCustody(w: World, w': World)
    requires Custody(w) && Creates(w, w')
    requires var t := w'.At(|w.auctions| + 1).Token();
             t in w.owners && w.owners[t] != MARKET && w'.owners == w.owners[t := MARKET]
    ensures Custody(w')
  {
    var n := |w.auctions|;
    forall j: nat | w'.Exists(j) && j <= n ensures w.Exists(j) && w'.At(j) == w.At(j) {
      assert w'.auctions[..n][j - 1] == w.auctions[j - 1];
    }
  }

  // ---- shielded escrow ----

  lemma ShieldedLockKeepsInv(w: World, value: nat, id: nat, identity: Word, commitment: Word, authority: Address)
    requires Inv(w) && LockShieldedEscrow(w, value, id, identity, commitment, authority).Committed?
    ensures Inv(LockShieldedEscrow(w, value, id, identity, commitment, authority).value)
  {
    hide Custody, TermsOk, EscrowOk, BidsOk, Vaults.Sound;
    var a, w' := w.At(id), LockShieldedEscrow(w, value, id, identity, commitment, authority).value;
    var v := a.terms.deps.vault;
    Vaults.LockKeepsSound(w.vaults[v], id, commitment, value, authority);
    assert AuctionOk(a, SideOf(w, id));
    RowsKeepInv(w, w', id);
  }

  // ---- settlement ----

  /** What unlocking the refunds does to the auction and its vault row. */
  lemma OpenRefundsRows(w: World, id: nat)
    requires w.Exists(id) && VaultsSound(w) && !w.At(id).refundsUnlocked && !SideOf(w, id).book.unlocked
    ensures var w' := OpenRefunds(w, id);
            && RowsKept(w, w', id) && SameContracts(w, w') && VaultsSound(w')
            && w'.balance == w.balance && w'.owners == w.owners && w'.pots == w.pots && w'.avss == w.avss
            && w'.At(id) == w.At(id).(refundsUnlocked := SideOf(w, id).vaulted)
            && SideOf(w', id) == SideOf(w, id).(book := SideOf(w, id).book.(unlocked := SideOf(w, id).vaulted))
  {
    hide Vaults.Sound;
    var v := w.At(id).terms.deps.vault;
    if v in w.vaults { Vaults.UnlockKeepsSound(w.vaults[v], id); }
  }

  lemma RowsKeptChain(w: World, w1: World, w2: World, id: nat)
    requires RowsKept(w, w1, id) && RowsKept(w1, w2, id)
    ensures RowsKept(w, w2, id)
  {
    hide VaultRow, PotRow, PotClaims;
    forall j | w.Exists(j) && j != id ensures w2.At(j) == w.At(j) { assert w1.At(j) == w.At(j); }
    forall v, j: nat | j != id ensures VaultRow(w2, v, j) == VaultRow(w, v, j) { assert VaultRow(w1, v, j) == VaultRow(w, v, j); }
    forall p, j: nat | j != id ensures PotRow(w2, p, j) == PotRow(w, p, j) { assert PotRow(w1, p, j) == PotRow(w, p, j); }
    forall p, j: nat | j != id ensures PotClaims(w2, p, j) == PotClaims(w, p, j) { assert PotClaims(w1, p, j) == PotClaims(w, p, j); }
  }

  /** A rejected proof only reaches the attestation service. */
  lemma RejectedKeepsInv(w: World, avss: map<Address, Avss.Avs>)
    requires Inv(w)
    ensures Inv(w.(avss := avss))
  {
    hide AuctionOk, TermsOk;
    var w' := w.(avss := avss);
    SamePlatform(w, w');
    forall j | w'.Exists(j) ensures w.Exists(j) && w'.At(j) == w.At(j) && SideOf(w', j) == SideOf(w, j) {}
  }

  lemma VerifyProofOnlyAvss(w: World, engine: Address, s: Avss.Statement, proof: Avss.Envelope)
    requires VerifyProof(w, engine, s, proof).Committed?
    ensures VerifyProof(w, engine, s, proof).value.0 == w.(avss := VerifyProof(w, engine, s, proof).value.0.avss)
  {}

  /** The auction as it is once a resolution is accepted. */
  lemma FinalizedOk(a: Auction, s: Side, outcome: Outcome, a': Auction, s': Side)
    requires AuctionOk(a, s) && a.state == Resolving && OutcomeOk(outcome, a.terms.startingPrice)
    requires outcome.winner != ZERO ==> outcome.amount <= Get(a.escrow, outcome.winner)
    requires a' == a.(state := Finalized, outcome := outcome, request := None, refundsUnlocked := s.vaulted)
    requires s' == s.(book := s'.book) && s'.book.reserve == s.book.reserve && s'.book.unlocked == s.vaulted
    requires !s.vaulted ==> s'.book == s.book
    ensures AuctionOk(a', s')
  {}

  lemma ResolveKeepsInv(w: World, id: nat, winner: Address, ciphertext: Word, amount: nat, proof: Avss.Envelope)
    requires Inv(w) && SubmitResolution(w, id, winner, ciphertext, amount, proof).Committed?
    ensures Inv(SubmitResolution(w, id, winner, ciphertext, amount, proof).value.0)
  {
    hide Custody, Platform, TermsOk, AuctionOk, Vaults.Sound, RowsKept, VerifyProof;
    var a, w' := w.At(id), SubmitResolution(w, id, winner, ciphertext, amount, proof).value.0;
    var statement := Avss.Statement(id, a.request.value.requestId, winner, ciphertext, amount);
    VerifyProofOnlyAvss(w, a.terms.deps.engine, statement, proof);
    var checked := VerifyProof(w, a.terms.deps.engine, statement, proof).value;
    RejectedKeepsInv(w, checked.0.avss);
    if checked.1 {
      var outcome := Outcome(winner, ciphertext, amount, 0);
      SettledKeepsInv(checked.0, id, outcome, OpenRefunds(Observed(checked.0).Put(id,
        a.(state := Finalized, outcome := outcome, request := None)), id));
    }
  }

  lemma SettledKeepsInv(w: World, id: nat, outcome: Outcome, w': World)
    requires Inv(w) && w.Exists(id) && w.At(id).state == Resolving && OutcomeOk(outcome, w.At(id).terms.startingPrice)
    requires outcome.winner != ZERO ==> outcome.amount <= Get(w.At(id).escrow, outcome.winner)
    requires w' == OpenRefunds(Observed(w).Put(id, w.At(id).(state := Finalized, outcome := outcome, request := None)), id)
    ensures Inv(w')
  {
    hide Custody, Platform, TermsOk, EscrowOk, BidsOk, Vaults.Sound, OpenRefunds;
    var a := w.At(id);
    assert AuctionOk(a, SideOf(w, id));
    var w1 := Observed(w).Put(id, a.(state := Finalized, outcome := outcome, request := None));
    assert VaultsSound(w1) by { assert Platform(w); PlatformSound(w); }
    assert RowsKept(w, w1, id) && SideOf(w1, id) == SideOf(w, id);
    OpenRefundsRows(w1, id);
    RowsKeptChain(w, w1, w', id);
    FinalizedOk(a, SideOf(w, id), outcome, w'.At(id), SideOf(w', id));
    assert w'.pots == w.pots;
    ClockedAt(w, id);
    RowsKeepInv(w, w', id);
  }

  lemma PlatformSound(w: World)
    requires Platform(w)
    ensures VaultsSound(w)
  {}

  lemma ClockedAt(w: World, id: nat)
    requires Inv(w) && w.Exists(id)
    ensures w.At(id).resolvingSince <= w.now
  {}

  lemma ResolveShieldedKeepsInv(w: World, id: nat, identity: Word, ciphertext: Word, amount: nat, proof: Avss.Envelope)
    requires Inv(w) && SubmitShieldedResolution(w, id, identity, ciphertext, amount, proof).Committed?
    ensures Inv(SubmitShieldedResolution(w, id, identity, ciphertext, amount, proof).value.0)
  {
    hide Custody, Platform, TermsOk, AuctionOk, Vaults.Sound, RowsKept, VerifyProof, Vaults.SettleWinning, Registries.MarkWinner,
      OpenRefunds, ResolveCommitment;
    var a, w' := w.At(id), SubmitShieldedResolution(w, id, identity, ciphertext, amount, proof).value.0;
    var deps := a.terms.deps;
    var commitment := CheckShieldedResolution(w, id, identity, ciphertext, amount).value;
    var statement := Avss.Statement(id, a.request.value.requestId, identity, ciphertext, amount);
    VerifyProofOnlyAvss(w, deps.engine, statement, proof);
    var checked := VerifyProof(w, deps.engine, statement, proof).value;
    RejectedKeepsInv(w, checked.0.avss);
    if checked.1 {
      var vault := Vaults.SettleWinning(w.vaults[deps.vault], id, commitment, amount).value;
      RegistryKnown(w, id, identity);
      var registry := Registries.MarkWinner(w.registries[deps.registry], id, identity).value;
      ShieldedSettledKeepsInv(checked.0, id, Outcome(ZERO, ciphertext, amount, identity), commitment, vault, registry, w');
    }
  }

  lemma RegistryKnown(w: World, id: nat, identity: Word)
    requires w.Exists(id) && ResolveCommitment(w, id, identity).Committed?
    ensures w.At(id).terms.deps.registry in w.registries
  {}

  lemma ShieldedSettledKeepsInv(w: World, id: nat, outcome: Outcome, commitment: Word, vault: Vaults.Vault,
                                registry: Registries.Registry, w': World)
    requires Inv(w) && w.Exists(id) && w.At(id).state == Resolving && OutcomeOk(outcome, w.At(id).terms.startingPrice)
    requires outcome.winner == ZERO && w.At(id).terms.deps.vault in w.vaults && w.At(id).terms.deps.registry in w.registries
    requires Vaults.SettleWinning(w.vaults[w.At(id).terms.deps.vault], id, commitment, outcome.amount) == Committed(vault)
    requires var deps := w.At(id).terms.deps;
             w' == OpenRefunds(Observed(w).Put(id, w.At(id).(state := Finalized, outcome := outcome, request := None))
                                .(vaults := w.vaults[deps.vault := vault], balance := w.balance + outcome.amount), id)
                    .(registries := w.registries[deps.registry := registry])
    ensures Inv(w')
  {
    hide Custody, Platform, TermsOk, EscrowOk, BidsOk, Vaults.Sound, OpenRefunds, Vaults.SettleWinning, VaultRow, PotRow,
      PotClaims, Vaults.Vault.BookAt;
    var a := w.At(id);
    var deps := a.terms.deps;
    assert AuctionOk(a, SideOf(w, id));
    PlatformSound(w);
    var w1 := Observed(w).Put(id, a.(state := Finalized, outcome := outcome, request := None))
              .(vaults := w.vaults[deps.vault := vault], balance := w.balance + outcome.amount);
    SettleRows(w, w1, id, commitment, outcome.amount, vault);
    OpenRefundsRows(w1, id);
    var w2 := OpenRefunds(w1, id);
    RowsKeptChain(w, w1, w2, id);
    SameRows(w2, w', id);
    RowsKeptChain(w, w2, w', id);
    FinalizedOk(a, SideOf(w, id), outcome, w'.At(id), SideOf(w', id));
    ClockedAt(w, id);
    RowsKeepInv(w, w', id);
  }

  lemma SameRows(w: World, w': World, id: nat)
    requires w.Exists(id) && w'.auctions == w.auctions && w'.vaults == w.vaults && w'.pots == w.pots
    ensures RowsKept(w, w', id) && SideOf(w', id) == SideOf(w, id)
  {}

  lemma SettleRows(w: World, w1: World, id: nat, commitment: Word, amount: nat, vault: Vaults.Vault)
    requires w.Exists(id) && VaultsSound(w) && w.At(id).terms.deps.vault in w.vaults
    requires Vaults.SettleWinning(w.vaults[w.At(id).terms.deps.vault], id, commitment, amount) == Committed(vault)
    requires w1 == Put(w, w1, id).(vaults := w.vaults[w.At(id).terms.deps.vault := vault])
    requires w1.At(id).terms == w.At(id).terms
    ensures RowsKept(w, w1, id) && VaultsSound(w1)
    ensures SideOf(w1, id) == SideOf(w, id).(book := SideOf(w, id).book.(total := SideOf(w1, id).book.total, winning := commitment))
    ensures !SideOf(w, id).book.unlocked
  {
    hide Vaults.Sound;
    Vaults.SettleKeepsSound(w.vaults[w.At(id).terms.deps.vault], id, commitment, amount);
  }

  // ---- cancellation and fallback ----

  /** What a slash leaves behind: the vault keeps a slice only for shielded escrow, the pot gets the rest. */
  ghost predicate SlashedSide(s: Side, s': Side, totalEscrow: nat, slash: nat) {
    && s'.vaulted == s.vaulted && s'.compensated == s.compensated
    && s.book.reserve <= s'.book.reserve <= s.book.reserve + slash
    && s'.book == s.book.(reserve := s'.book.reserve)
    && (s'.book.reserve > s.book.reserve ==> s.book.total > 0)
    && var public := slash - (s'.book.reserve - s.book.reserve);
       s'.entry == if public == 0 then s.entry else Some(Pots.Entry(totalEscrow, public))
  }

  lemma AllocateRows(w: World, id: nat, slash: nat)
    requires w.Exists(id) && VaultsSound(w) && 0 < slash <= w.balance && Allocate(w, id, slash).Committed?
    ensures var (w', public) := Allocate(w, id, slash).value;
            && RowsKept(w, w', id) && SameContracts(w, w') && VaultsSound(w')
            && w' == w.(vaults := w'.vaults, balance := w.balance - slash + public)
            && public <= slash
            && var s, s' := SideOf(w, id), SideOf(w', id);
            && s' == s.(book := s.book.(reserve := s.book.reserve + (slash - public)))
            && (public < slash ==> s.vaulted && s.book.total > 0)
  {
    hide Vaults.Sound;
    var v := w.At(id).terms.deps.vault;
    if v in w.vaults { Vaults.AllocateKeepsSound(w.vaults[v], id, w.At(id).totalEscrow, slash); }
  }

  lemma PotRows(w: World, id: nat, public: nat)
    requires w.Exists(id) && SideOf(w, id).entry == None && w.At(id).terms.deps.pot in w.pots && public <= w.balance
    ensures var a := w.At(id);
            var w' := w.(balance := w.balance - public,
                         pots := w.pots[a.terms.deps.pot := Pots.RegisterSlash(w.pots[a.terms.deps.pot], id, a.totalEscrow, public)]);
            && RowsKept(w, w', id) && SameContracts(w, w')
            && SideOf(w', id) == SideOf(w, id).(entry := Some(Pots.Entry(a.totalEscrow, public)))
            && (forall p, j: nat :: p in w'.pots && j in w'.pots[p].claimed ==> j in w.pots[p].claimed)
  {}

  lemma SlashRows(w: World, id: nat, slash: nat)
    requires w.Exists(id) && VaultsSound(w) && SideOf(w, id).entry == None && RegisterSlash(w, id, slash).Committed?
    ensures var w' := RegisterSlash(w, id, slash).value;
            && RowsKept(w, w', id) && SameContracts(w, w') && VaultsSound(w')
            && w'.auctions == w.auctions && w'.owners == w.owners && w'.balance + slash == w.balance
            && SlashedSide(SideOf(w, id), SideOf(w', id), w.At(id).totalEscrow, slash)
            && (forall p, j: nat :: p in w'.pots && j in w'.pots[p].claimed ==> j in w.pots[p].claimed)
  {
    hide Vaults.Sound, Allocate, RowsKept, VaultRow, PotRow, PotClaims, Pots.RegisterSlash;
    var w' := RegisterSlash(w, id, slash).value;
    if slash == 0 {
      SameRows(w, w', id);
    } else {
      AllocateRows(w, id, slash);
      var (w1, public) := Allocate(w, id, slash).value;
      if public != 0 {
        PotRows(w1, id, public);
        RowsKeptChain(w, w1, w', id);
      }
    }
  }

  /** A closing slash: at most the deposit, all but the reward on a void, and nothing only when there is no escrow. */
  ghost predicate ClosingSlash(a: Auction, s: Side, next: AuctionState, slash: nat) {
    || (next == Cancelled && a.state == Active && slash <= a.terms.deposit)
       || (next == Voided && a.state == Resolving
           && (slash == 0 ==> a.totalEscrow == 0 && s.book.total == 0)
           && (slash == 0 || slash == a.terms.deposit - FinalizeReward(a.terms.deposit)))
  }

  lemma ClosedOk(a: Auction, s: Side, next: AuctionState, slash: nat, s': Side)
    requires AuctionOk(a, s) && ClosingSlash(a, s, next, slash)
    requires SlashedSide(s, s', a.totalEscrow, slash)
    ensures AuctionOk(a.(state := next, slash := slash, request := None, refundsUnlocked := s.vaulted),
                      s'.(book := s'.book.(unlocked := s.vaulted)))
  {}

  lemma CloseKeepsInv(w: World, id: nat, next: AuctionState, slash: nat, takes: bool)
    requires Inv(w) && w.Exists(id) && ClosingSlash(w.At(id), SideOf(w, id), next, slash)
    requires Close(w, id, next, slash, takes).Committed?
    ensures var w' := Close(w, id, next, slash, takes).value;
            && Inv(w') && w'.balance + slash == w.balance && w'.Exists(id) && RowsKept(w, w', id)
            && SlashedSide(SideOf(w, id), SideOf(w', id).(book := SideOf(w', id).book.(unlocked := false)), w.At(id).totalEscrow, slash)
            && w'.At(id) == w.At(id).(state := next, slash := slash, request := None, refundsUnlocked := SideOf(w, id).vaulted)
  {
    hide Custody, Platform, TermsOk, EscrowOk, BidsOk, Vaults.Sound, OpenRefunds, RegisterSlash, VaultRow, PotRow,
      PotClaims, Vaults.Vault.BookAt, RowsKept;
    var a := w.At(id);
    assert AuctionOk(a, SideOf(w, id));
    PlatformSound(w);
    var w1 := Closing(w, id, next, slash);
    ClosingRows(w, id, next, slash);
    SlashRows(w1, id, slash);
    var w2 := RegisterSlash(w1, id, slash).value;
    ExistsKept(w1, w2, id);
    OpenRefundsRows(w2, id);
    var w3 := OpenRefunds(w2, id);
    ExistsKept(w2, w3, id);
    var w' := ReleaseToken(w3, a.Token(), a.terms.seller, takes).value;
    SameRows(w3, w', id);
    RowsKeptChain(w, w1, w2, id);
    RowsKeptChain(w, w2, w3, id);
    RowsKeptChain(w, w3, w', id);
    ClosedOk(a, SideOf(w, id), next, slash, SideOf(w2, id));
    ClockedAt(w, id);
    RowsKeepInv(w, w', id);
  }

  lemma ExistsKept(w: World, w': World, id: nat)
    requires w.Exists(id) && RowsKept(w, w', id)
    ensures w'.Exists(id)
  {}

  lemma ClosingRows(w: World, id: nat, next: AuctionState, slash: nat)
    requires w.Exists(id)
    ensures RowsKept(w, Closing(w, id, next, slash), id)
    ensures SideOf(Closing(w, id, next, slash), id) == SideOf(w, id)
  {}

  lemma CancelKeepsInv(w: World, sender: Caller, id: nat, takes: bool)
    requires Inv(w) && CancelAuction(w, sender, id, takes).Committed?
    ensures Inv(CancelAuction(w, sender, id, takes).value)
  {
    hide Inv, Close, ComputeCancellationSlash;
    CancellationSlashFits(w, id);
    CloseKeepsInv(w, id, Cancelled, ComputeCancellationSlash(w, id), takes);
  }

  lemma CancellationSlashFits(w: World, id: nat)
    requires w.Exists(id)
    ensures ComputeCancellationSlash(w, id) <= w.At(id).terms.deposit
  {
    var t := w.At(id).terms;
    var elapsed := if w.now >= t.createdAt then w.now - t.createdAt else 0;
    var duration := if t.endTime >= t.createdAt then t.endTime - t.createdAt else 0;
    CancellationSlashBounds(t.deposit, elapsed, elapsed, duration, EscrowIncludingShielded(w, id));
  }

  lemma VoidKeepsInv(w: World, id: nat, takes: bool)
    requires Inv(w) && TriggerFallbackVoid(w, id, takes).Committed?
    ensures Inv(TriggerFallbackVoid(w, id, takes).value)
  {
    hide Inv, Close, VoidSlash;
    VoidSlashCloses(w, id);
    CloseKeepsInv(w, id, Voided, VoidSlash(w, id), takes);
  }

  lemma VoidSlashCloses(w: World, id: nat)
    requires Inv(w) && w.Exists(id) && w.At(id).state == Resolving
    ensures ClosingSlash(w.At(id), SideOf(w, id), Voided, VoidSlash(w, id))
  {
    assert AuctionOk(w.At(id), SideOf(w, id));
    RewardBelowDeposit(w.At(id).terms.deposit);
    assert TermsOk(w.At(id).terms, w.now);
  }

  // ---- claims ----

  lemma PaidOk(a: Auction, s: Side, b: Address, refund: nat, s': Side)
    requires AuctionOk(a, s) && a.Terminal() && b != ZERO && b !in a.withdrawn
    requires refund == 0 ==> Get(a.escrow, b) == 0
    requires s'.compensated <= s.compensated + {b} && s' == s.(compensated := s'.compensated)
    requires a.state != Cancelled && a.state != Voided ==> s' == s
    ensures AuctionOk(a.(withdrawn := a.withdrawn + {b}, escrow := if refund != 0 then a.escrow[b := 0] else a.escrow), s')
  {
    SumPut(a.escrow, b, 0);
  }

  lemma RefundRows(w: World, sender: Caller, id: nat, accepts: bool)
    requires ClaimRefund(w, sender, id, accepts).Committed?
    ensures w.Exists(id)
    ensures var a, w' := w.At(id), ClaimRefund(w, sender, id, accepts).value;
            && RowsKept(w, w', id) && SameContracts(w, w') && w'.vaults == w.vaults && w'.owners == w.owners
            && EscrowRefund(a, sender) != 0 && a.Terminal() && sender !in a.withdrawn
            && w'.At(id) == a.(withdrawn := a.withdrawn + {sender}, escrow := a.escrow[sender := 0])
            && SideOf(w', id) == SideOf(w, id).(compensated := SideOf(w', id).compensated)
            && SideOf(w', id).compensated <= SideOf(w, id).compensated + {sender}
            && (a.state == Finalized ==> SideOf(w', id) == SideOf(w, id))
            && (forall p, j: nat :: p in w'.pots && j != id && j in w'.pots[p].claimed ==> j in w.pots[p].claimed)
  {
    RefundIsWhole(w, id, sender);
  }

  lemma RefundKeepsInv(w: World, sender: Caller, id: nat, accepts: bool)
    requires Inv(w) && ClaimRefund(w, sender, id, accepts).Committed?
    ensures Inv(ClaimRefund(w, sender, id, accepts).value)
  {
    hide Custody, TermsOk, EscrowOk, BidsOk, SideOk, Vaults.Sound, DepsOk, RowsKept, SideOf, ClaimRefund, Lifecycle;
    RefundRows(w, sender, id, accepts);
    var a, w' := w.At(id), ClaimRefund(w, sender, id, accepts).value;
    assert AuctionOk(a, SideOf(w, id));
    PaidOk(a, SideOf(w, id), sender, EscrowRefund(a, sender), SideOf(w', id));
    ClockedAt(w, id);
    RowsKeepInv(w, w', id);
  }

  /** A claim that compensates has an escrow to refund as well. */
  lemma RefundIsWhole(w: World, id: nat, claimant: Address)
    requires w.Exists(id)
    ensures EscrowRefund(w.At(id), claimant) != 0 ==> w.At(id).Terminal() && Get(w.At(id).escrow, claimant) != 0
    ensures PreviewCompensation(w, id, claimant) != 0 ==>
              EscrowRefund(w.At(id), claimant) != 0 && (w.At(id).state == Cancelled || w.At(id).state == Voided)
  {}

  lemma ProceedsKeepsInv(w: World, sender: Caller, id: nat, accepts: bool)
    requires Inv(w) && ClaimSellerProceeds(w, sender, id, accepts).Committed?
    ensures Inv(ClaimSellerProceeds(w, sender, id, accepts).value)
  {
    hide Custody, Platform, DepsOk, TermsOk, SideOf;
    RowKeepsInv(w, ClaimSellerProceeds(w, sender, id, accepts).value, id);
  }

  lemma RewardKeepsInv(w: World, sender: Caller, id: nat, accepts: bool)
    requires Inv(w) && ClaimFinalizeReward(w, sender, id, accepts).Committed?
    ensures Inv(ClaimFinalizeReward(w, sender, id, accepts).value)
  {
    hide Custody, Platform, DepsOk, TermsOk, SideOf;
    RowKeepsInv(w, ClaimFinalizeReward(w, sender, id, accepts).value, id);
  }

  /** Handing the token over touches nothing but the claim flag and the token's owner. */
  lemma AssetGivenKeepsInv(w: World, id: nat, recipient: Address, takes: bool)
    requires Inv(w) && w.Exists(id) && w.At(id).state == Finalized && !w.At(id).assetClaimed
    requires ReleaseToken(w.Put(id, w.At(id).(assetClaimed := true)), w.At(id).Token(), recipient, takes).Committed?
    ensures Inv(ReleaseToken(w.Put(id, w.At(id).(assetClaimed := true)), w.At(id).Token(), recipient, takes).value)
  {
    hide Custody, Platform, DepsOk, TermsOk, SideOf, RowsKept;
    var w1 := w.Put(id, w.At(id).(assetClaimed := true));
    var w' := ReleaseToken(w1, w.At(id).Token(), recipient, takes).value;
    assert AuctionOk(w.At(id), SideOf(w, id));
    PutRows(w, w1, id);
    SameRows(w1, w', id);
    RowsKeptChain(w, w1, w', id);
    PlatformSound(w);
    ClockedAt(w, id);
    RowsKeepInv(w, w', id);
  }

  lemma PutRows(w: World, w1: World, id: nat)
    requires w.Exists(id) && w1 == Put(w, w1, id) && w1.At(id).terms == w.At(id).terms
    ensures RowsKept(w, w1, id) && SideOf(w1, id) == SideOf(w, id)
  {}

  lemma AssetKeepsInv(w: World, sender: Caller, id: nat, takes: bool)
    requires Inv(w) && ClaimAsset(w, sender, id, takes).Committed?
    ensures Inv(ClaimAsset(w, sender, id, takes).value)
  {
    hide Inv, ReleaseToken;
    AssetGivenKeepsInv(w, id, if w.At(id).outcome.winner == ZERO then w.At(id).terms.seller else w.At(id).outcome.winner, takes);
  }

  /** A used authorization is not money. */
  lemma AuthorizedKeepsInv(w: World, v: Address, used: set<Vaults.Authorization>)
    requires Inv(w) && v in w.vaults
    ensures Inv(w.(vaults := w.vaults[v := w.vaults[v].(used := used)]))
  {
    hide AuctionOk, TermsOk, Custody;
    var w' := w.(vaults := w.vaults[v := w.vaults[v].(used := used)]);
    forall j | w'.Exists(j) ensures w.Exists(j) && w'.At(j) == w.At(j) && SideOf(w', j) == SideOf(w, j) {}
    assert Vaults.Sound(w.vaults[v]);
    assert Vaults.Sound(w'.vaults[v]) by {
      forall n: nat ensures w'.vaults[v].BookAt(n) == w.vaults[v].BookAt(n) {}
    }
    assert Platform(w') by {
      forall u, j: nat | u in w'.vaults && !w'.Exists(j) ensures w'.vaults[u].BookAt(j) == Vaults.EMPTY_BOOK {
        assert !w.Exists(j) && w.vaults[u].BookAt(j) == Vaults.EMPTY_BOOK;
      }
      forall p, j: nat | p in w'.pots && !w'.Exists(j) ensures j !in w'.pots[p].entries && j !in w'.pots[p].claimed {
        assert !w.Exists(j) && j !in w.pots[p].entries;
      }
    }
    CustodyOfSame(w, w');
  }

  lemma CustodyOfSame(w: World, w': World)
    requires Custody(w) && w'.auctions == w.auctions && w'.owners == w.owners
    ensures Custody(w')
  {
    forall j | w'.Exists(j) ensures w.Exists(j) && w'.At(j) == w.At(j) {}
  }

  lemma ShieldedAssetKeepsInv(w: World, id: nat, identity: Word, recipient: Address, deadline: nat,
                              signer: Option<Address>, takes: bool)
    requires Inv(w) && ClaimShieldedAsset(w, id, identity, recipient, deadline, signer, takes).Committed?
    ensures Inv(ClaimShieldedAsset(w, id, identity, recipient, deadline, signer, takes).value)
  {
    hide Inv;
    var v := w.At(id).terms.deps.vault;
    var commitment := ResolveCommitment(w, id, identity).value;
    var used := Vaults.AuthorizeAsset(w.vaults[v], w.now, id, commitment, recipient, deadline, signer).value.used;
    AuthorizedKeepsInv(w, v, used);
    var w1 := w.(vaults := w.vaults[v := w.vaults[v].(used := used)]);
    AssetGivenKeepsInv(w1, id, recipient, takes);
  }

  // ---- shielded refunds ----

  lemma ReleaseRows(w: World, vault: Address, commitment: Word, recipient: Address, deadline: nat,
                    signer: Option<Address>, accepts: bool)
    requires VaultsSound(w) && ClaimShieldedRefund(w, vault, commitment, recipient, deadline, signer, accepts).Committed?
    ensures vault in w.vaults
    ensures var w' := ClaimShieldedRefund(w, vault, commitment, recipient, deadline, signer, accepts).value;
            var id := w.vaults[vault].DepositAt(commitment).auctionId;
            && w.Exists(id) && RowsKept(w, w', id) && SameContracts(w, w') && VaultsSound(w')
            && w'.pots == w.pots && w'.owners == w.owners && w'.balance == w.balance
            && w.At(id).Terminal() && w.At(id).terms.deps.vault == vault
            && w'.At(id) == w.At(id).(settledRefunds := w'.At(id).settledRefunds)
            && var s, s' := SideOf(w, id), SideOf(w', id);
               && s' == s.(book := s.book.(total := s'.book.total, reserve := s'.book.reserve))
               && s'.book.reserve <= s.book.reserve && s'.book.total <= s.book.total
               && (s'.book.total == 0 ==> s'.book.reserve == 0)
  {
    hide Vaults.Sound, Vaults.Compensation;
    Vaults.ReleaseKeepsSound(w.vaults[vault], w.now, commitment, recipient, deadline, signer);
    Vaults.EmptiedAuctionKeepsNoReserve(w.vaults[vault], w.now, commitment, recipient, deadline, signer);
  }

  lemma ShieldedRefundKeepsInv(w: World, vault: Address, commitment: Word, recipient: Address, deadline: nat,
                               signer: Option<Address>, accepts: bool)
    requires Inv(w) && ClaimShieldedRefund(w, vault, commitment, recipient, deadline, signer, accepts).Committed?
    ensures Inv(ClaimShieldedRefund(w, vault, commitment, recipient, deadline, signer, accepts).value)
  {
    hide Custody, TermsOk, Vaults.Sound, DepsOk, RowsKept, SideOf, ClaimShieldedRefund;
    PlatformSound(w);
    ReleaseRows(w, vault, commitment, recipient, deadline, signer, accepts);
    var id := w.vaults[vault].DepositAt(commitment).auctionId;
    assert AuctionOk(w.At(id), SideOf(w, id));
    ClockedAt(w, id);
    RowsKeepInv(w, ClaimShieldedRefund(w, vault, commitment, recipient, deadline, signer, accepts).value, id);
  }

  // ---- owner and environment ----

  /** Calls that leave every auction alone. */
  ghost predicate Background(c: Call) {
    || c.Donate? || c.SetAdapter? || c.SetEngine? || c.SetPot? || c.SetVault? || c.SetRegistry? || c.Advance?
    || c.MoveToken? || c.DeployPot? || c.DeployVault? || c.DeployRegistry? || c.ConfigureEngine? || c.ConfigureAvs?
  }

  /** Pots and vaults only appear, empty and never at zero. */
  ghost predicate QuietContracts(w: World, w': World) {
    && (forall p :: p in w.pots ==> p in w'.pots && w'.pots[p] == w.pots[p])
    && (forall p :: p in w'.pots && p !in w.pots ==> p != ZERO && w'.pots[p] == Pots.EMPTY_POT)
    && (forall v :: v in w.vaults ==> v in w'.vaults && w'.vaults[v] == w.vaults[v])
    && (forall v :: v in w'.vaults && v !in w.vaults ==> v != ZERO && w'.vaults[v] == Vaults.EMPTY_VAULT)
  }

  /** Time passes, contracts appear and dependencies are swapped, without any auction's rows changing. */
  ghost predicate Quiet(w: World, w': World) {
    && w'.auctions == w.auctions && w'.network == w.network && w.now <= w'.now
    && QuietContracts(w, w')
    && w.registries.Keys <= w'.registries.Keys && ZERO !in w'.registries
    && w.engines.Keys <= w'.engines.Keys && ZERO !in w'.engines
    && (forall t :: t in w.owners && w.owners[t] == MARKET ==> t in w'.owners && w'.owners[t] == MARKET)
    && DepsOk(w', w'.config)
  }

  lemma BackgroundIsQuiet(w: World, c: Call)
    requires DepsOk(w, w.config) && ZERO !in w.registries && ZERO !in w.engines && Background(c) && Step(w, c).Committed?
    ensures Quiet(w, Step(w, c).value)
  {
    hide Ambient, Quiet, DepsOk;
    AmbientIsQuiet(w, c);
  }

  lemma AmbientIsQuiet(w: World, c: Call)
    requires DepsOk(w, w.config) && ZERO !in w.registries && ZERO !in w.engines && Ambient(w, c).Committed?
    ensures Quiet(w, Ambient(w, c).value)
  {
    if c.Donate? || c.SetAdapter? || c.SetEngine? || c.SetPot? || c.SetVault? || c.SetRegistry? {
    } else {
      hide Environment, Quiet, DepsOk;
      EnvironmentIsQuiet(w, c);
    }
  }

  lemma EnvironmentIsQuiet(w: World, c: Call)
    requires DepsOk(w, w.config) && ZERO !in w.registries && ZERO !in w.engines && Environment(w, c).Committed?
    ensures Quiet(w, Environment(w, c).value)
  {
    hide QuietContracts;
    EnvironmentKeepsContracts(w, c);
  }

  lemma EnvironmentKeepsContracts(w: World, c: Call)
    requires Environment(w, c).Committed?
    ensures QuietContracts(w, Environment(w, c).value)
  {}

  lemma QuietKeepsInv(w: World, w': World)
    requires Inv(w) && Quiet(w, w')
    ensures Inv(w')
  {
    hide AuctionOk, Vaults.Sound;
    forall j | w'.Exists(j)
      ensures AuctionOk(w'.At(j), SideOf(w', j)) && DepsOk(w', w'.At(j).terms.deps)
    {
      assert w.Exists(j) && w'.At(j) == w.At(j);
      assert DepsOk(w, w.At(j).terms.deps);
      assert SideOf(w', j) == SideOf(w, j);
    }
    Vaults.EmptyVaultSound();
    assert Platform(w') by { QuietPlatform(w, w'); }
    assert Custody(w') by { QuietCustody(w, w'); }
    forall j | w'.Exists(j) ensures TermsOk(w'.At(j).terms, w'.now) && w'.At(j).resolvingSince <= w'.now {
      assert w.Exists(j) && w'.At(j) == w.At(j);
    }
  }

  lemma QuietPlatform(w: World, w': World)
    requires Platform(w) && Quiet(w, w')
    ensures Platform(w')
  {
    hide Vaults.Sound;
    Vaults.EmptyVaultSound();
    forall v, j: nat | v in w'.vaults && !w'.Exists(j) ensures w'.vaults[v].BookAt(j) == Vaults.EMPTY_BOOK {
      assert !w.Exists(j);
      if v in w.vaults { assert w.vaults[v].BookAt(j) == Vaults.EMPTY_BOOK; }
    }
    forall p, j: nat | p in w'.pots && !w'.Exists(j) ensures j !in w'.pots[p].entries && j !in w'.pots[p].claimed {
      assert !w.Exists(j);
      if p in w.pots { assert j !in w.pots[p].entries && j !in w.pots[p].claimed; }
    }
  }

  lemma QuietCustody(w: World, w': World)
    requires Custody(w) && Quiet(w, w')
    ensures Custody(w')
  {
    forall j | w'.Exists(j) ensures w.Exists(j) && w'.At(j) == w.At(j) {}
  }

  // ---- every call, every run ----

  lemma StepKeepsInv(w: World, c: Call)
    requires Inv(w) && Step(w, c).Committed?
    ensures Inv(Step(w, c).value)
  {
    hide Inv, CreateAuction, LockEscrow, LockShieldedEscrow, PlaceBid, PlaceShieldedBid, TriggerFinalize, SubmitResolution,
      SubmitShieldedResolution, CancelAuction, TriggerFallbackVoid, ClaimRefund, ClaimSellerProceeds, ClaimFinalizeReward,
      ClaimAsset, ClaimShieldedAsset, ClaimShieldedRefund;
    match c
    case Create(sender, value, nft, tokenId, duration, startingPrice, deposit, approved) =>
      CreateKeepsInv(w, sender, value, nft, tokenId, duration, startingPrice, deposit, approved);
    case Escrow(sender, value, id) => EscrowKeepsInv(w, sender, value, id);
    case ShieldedLock(value, id, identity, commitment, authority) =>
      ShieldedLockKeepsInv(w, value, id, identity, commitment, authority);
    case Bid(sender, id, handle) => BidKeepsInv(w, sender, id, handle);
    case ShieldedBid(id, commitment, handle, deadline, covered) =>
      ShieldedBidKeepsInv(w, id, commitment, handle, deadline, covered);
    case Trigger(sender, id, salt) => TriggerKeepsInv(w, sender, id, salt);
    case Resolve(id, winner, ciphertext, amount, proof) => ResolveKeepsInv(w, id, winner, ciphertext, amount, proof);
    case ResolveShielded(id, identity, ciphertext, amount, proof) =>
      ResolveShieldedKeepsInv(w, id, identity, ciphertext, amount, proof);
    case Cancel(sender, id, takes) => CancelKeepsInv(w, sender, id, takes);
    case Void(id, takes) => VoidKeepsInv(w, id, takes);
    case Refund(sender, id, accepts) => RefundKeepsInv(w, sender, id, accepts);
    case Proceeds(sender, id, accepts) => ProceedsKeepsInv(w, sender, id, accepts);
    case Reward(sender, id, accepts) => RewardKeepsInv(w, sender, id, accepts);
    case Asset(sender, id, takes) => AssetKeepsInv(w, sender, id, takes);
    case ShieldedAsset(id, identity, recipient, deadline, signer, takes) =>
      ShieldedAssetKeepsInv(w, id, identity, recipient, deadline, signer, takes);
    case ShieldedRefund(vault, commitment, recipient, deadline, signer, accepts) =>
      ShieldedRefundKeepsInv(w, vault, commitment, recipient, deadline, signer, accepts);
    case _ => BackgroundKeepsInv(w, c);
  }

  lemma BackgroundKeepsInv(w: World, c: Call)
    requires Inv(w) && Background(c) && Step(w, c).Committed?
    ensures Inv(Step(w, c).value)
  {
    hide Step, AuctionOk, TermsOk, Custody, Quiet;
    BackgroundIsQuiet(w, c);
    QuietKeepsInv(w, Step(w, c).value);
  }

  lemma GenesisInv(now: nat, adapter: Adapter, pot: Address)
    requires pot != ZERO
    ensures Inv(Genesis(now, adapter, pot))
  {}

  lemma {:induction false} RunKeepsInv(w: World, calls: seq<Call>)
    requires Inv(w)
    ensures Inv(Run(w, calls))
    decreases |calls|
  {
    hide Inv, Step;
    if calls != [] {
      var n := |calls| - 1;
      RunKeepsInv(w, calls[..n]);
      if Step(Run(w, calls[..n]), calls[n]).Committed? { StepKeepsInv(Run(w, calls[..n]), calls[n]); }
    }
  }
}
