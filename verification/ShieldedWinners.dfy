/** When a shielded winner can claim its token: exactly as long as nobody has locked its commitment anew. */
module ShieldedWinners {
  import opened Prelude
  import opened MarketState
  import opened MarketTransactions
  import opened MarketInvariant
  import opened MarketPreservation
  import opened MarketSolvency
  import opened MarketLifecycle
  import opened MarketClaims
  import opened MarketQuorum
  import opened ShieldedBacking
  import Counters = MarketCounters
  import Examples = MarketExamples
  import Liveness = MarketLiveness
  import Vaults = ShieldedEscrowVault
  import Avss = EigenLayerAvs
  import Registries = ShieldedIdentityRegistry

  /** Any account at all. */
  const OUTSIDER: Caller := 2

  predicate ShieldedWin(a: Auction) {
    a.state == Finalized && a.outcome.identity != 0
  }

  /** The commitment of the recorded winner, as the auction's registry has it. */
  function WinningCommitment(w: World, id: nat): Word
    requires w.Exists(id)
  {
    RegistryAt(w, w.At(id).terms.deps.registry).CommitmentFor(id, w.At(id).outcome.identity)
  }

  /** The vault's row for that commitment. */
  function Row(w: World, id: nat): Vaults.Deposit
    requires w.Exists(id)
  {
    var deposits := Deposits(w, w.At(id).terms.deps.vault);
    if WinningCommitment(w, id) in deposits then deposits[WinningCommitment(w, id)] else Vaults.NO_DEPOSIT
  }

  /** The row still names this auction. */
  predicate HasRow(w: World, id: nat)
    requires w.Exists(id)
  {
    Row(w, id).auctionId == id
  }

  function UsedBy(w: World, vault: Address): set<Vaults.Authorization> {
    if vault in w.vaults then w.vaults[vault].used else {}
  }

  // ---- what every reachable state keeps about shielded winners ----

  /** A recorded winner has a bound commitment that was locked in the auction's vault. */
  ghost predicate WinnerKnown(w: World, id: nat)
    requires w.Exists(id)
  {
    ShieldedWin(w.At(id)) ==>
      WinningCommitment(w, id) != 0 && WinningCommitment(w, id) in Deposits(w, w.At(id).terms.deps.vault)
  }

  ghost predicate WinnersKnown(w: World) {
    forall id: nat :: w.Exists(id) ==> WinnerKnown(w, id)
  }

  /** Every commitment has an account that can sign for it. */
  ghost predicate Signable(w: World) {
    forall v: Address, c: Word :: c in Deposits(w, v) ==> Deposits(w, v)[c].authority != ZERO
  }

  /** Bindings and commitments are never forgotten. */
  ghost predicate Remembers(w: World, w': World) {
    RemembersBindings(w, w') && RemembersCommitments(w, w')
  }

  ghost predicate RemembersBindings(w: World, w': World) {
    forall r: Address, id: nat, i: Word :: RegistryAt(w, r).CommitmentFor(id, i) != 0 ==>
      RegistryAt(w', r).CommitmentFor(id, i) == RegistryAt(w, r).CommitmentFor(id, i)
  }

  ghost predicate RemembersCommitments(w: World, w': World) {
    forall v: Address, c: Word :: c in Deposits(w, v) ==> c in Deposits(w', v)
  }

  lemma SameBackingRemembers(w: World, w': World)
    requires Signable(w) && SameBacking(w, w')
    ensures Remembers(w, w') && Signable(w')
  {}

  lemma OtherRegistries(w: World, c: Call)
    requires c.ShieldedLock? && Step(w, c).Committed?
    ensures w.Exists(c.id)
    ensures forall r: Address :: r != w.At(c.id).terms.deps.registry ==> RegistryAt(Step(w, c).value, r) == RegistryAt(w, r)
  {
    hide Registries.Bind, Observe, Vaults.Lock;
  }

  lemma LockRemembersBindings(w: World, c: Call)
    requires Backed(w) && c.ShieldedLock? && Step(w, c).Committed?
    ensures RemembersBindings(w, Step(w, c).value)
  {
    hide Backed, Registries.Inverse, Step;
    OtherRegistries(w, c);
    LockKeepsRegistries(w, c);
  }

  lemma LockAddsCommitment(w: World, c: Call)
    requires c.ShieldedLock? && Step(w, c).Committed?
    ensures RemembersCommitments(w, Step(w, c).value)
    ensures Signable(w) ==> Signable(Step(w, c).value)
    ensures w.Exists(c.id) && w.At(c.id).state == Active
    ensures var vault := w.At(c.id).terms.deps.vault;
            var (before, after) := (Deposits(w, vault), Deposits(Step(w, c).value, vault));
            && after == before[c.commitment := Vaults.Deposit(c.id, c.value, false, c.authority)]
            && (c.commitment in before ==> Lockable(before[c.commitment]))
            && (forall v: Address :: v != vault ==> Deposits(Step(w, c).value, v) == Deposits(w, v))
  {
    hide Registries.Bind, Observe;
    var w' := Step(w, c).value;
    var vault := w.At(c.id).terms.deps.vault;
    if Signable(w) {
      forall v: Address, d: Word | d in Deposits(w', v) ensures Deposits(w', v)[d].authority != ZERO {
        if v == vault && d == c.commitment {
          assert Deposits(w', v)[d].authority == c.authority;
        } else {
          assert d in Deposits(w, v) && Deposits(w, v)[d].authority != ZERO;
        }
      }
    }
  }

  /** A commitment can be locked again when it holds nothing and was not refunded. */
  predicate Lockable(d: Vaults.Deposit) {
    d.amount == 0 && !d.claimed
  }

  lemma SpendRemembers(w: World, w': World, vault: Address, commitment: Word)
    requires Signable(w) && Spends(Deposits(w, vault), Deposits(w', vault), commitment)
    requires forall v: Address :: v != vault ==> Deposits(w', v) == Deposits(w, v)
    ensures RemembersCommitments(w, w') && Signable(w')
  {
    forall v: Address, c: Word | c in Deposits(w', v) ensures Deposits(w', v)[c].authority != ZERO {
      assert c in Deposits(w, v) && Deposits(w, v)[c].authority != ZERO;
    }
  }

  lemma ResolutionRemembers(w: World, c: Call)
    requires Signable(w) && c.ResolveShielded? && Step(w, c).Committed?
    ensures Remembers(w, Step(w, c).value) && Signable(Step(w, c).value)
  {
    hide SubmitShieldedResolution, CheckShieldedResolution, Registries.MarkWinner, Signable, Spends;
    var w' := Step(w, c).value;
    ResolutionSpends(w, c.id, c.identity, c.ciphertext, c.amount, c.proof);
    if SubmitShieldedResolution(w, c.id, c.identity, c.ciphertext, c.amount, c.proof).value.1 {
      MarkBindsNothing(RegistryAt(w, w.At(c.id).terms.deps.registry), c.id, c.identity);
      SpendRemembers(w, w', w.At(c.id).terms.deps.vault, CheckShieldedResolution(w, c.id, c.identity, c.ciphertext, c.amount).value);
    } else {
      ContractsUntouched(w, w');
      SameBackingRemembers(w, w');
    }
  }

  lemma RefundRemembers(w: World, c: Call)
    requires Signable(w) && c.ShieldedRefund? && Step(w, c).Committed?
    ensures Remembers(w, Step(w, c).value) && Signable(Step(w, c).value)
  {
    hide Step, Signable, Spends;
    RefundSpends(w, c);
    SpendRemembers(w, Step(w, c).value, c.vault, c.commitment);
  }

  lemma Both(w: World, w': World)
    requires RemembersBindings(w, w') && RemembersCommitments(w, w')
    ensures Remembers(w, w')
  {}

  lemma StepRemembers(w: World, c: Call)
    requires Backed(w) && Signable(w) && Step(w, c).Committed?
    ensures Remembers(w, Step(w, c).value) && Signable(Step(w, c).value)
  {
    hide Backed, Signable, Step, Remembers;
    if c.ShieldedLock? {
      LockRemembersBindings(w, c);
      LockAddsCommitment(w, c);
      Both(w, Step(w, c).value);
    }
    else if c.ResolveShielded? { ResolutionRemembers(w, c); }
    else if c.ShieldedRefund? { RefundRemembers(w, c); }
    else {
      if c.ShieldedBid? || c.Create? {
        NoShieldedContracts(w, c);
        ContractsUntouched(w, Step(w, c).value);
      } else {
        CalmCall(w, c);
      }
      SameBackingRemembers(w, Step(w, c).value);
    }
  }

  lemma CheckFindsCommitment(w: World, id: nat, identity: Word, ciphertext: Word, amount: nat)
    requires CheckShieldedResolution(w, id, identity, ciphertext, amount).Committed?
    ensures w.Exists(id) && identity != 0
    ensures var c := CheckShieldedResolution(w, id, identity, ciphertext, amount).value;
            && c != 0 && c == RegistryAt(w, w.At(id).terms.deps.registry).CommitmentFor(id, identity)
            && (c in Deposits(w, w.At(id).terms.deps.vault) ==> !Deposits(w, w.At(id).terms.deps.vault)[c].claimed)
  {}

  /** The step that records a shielded winner knows its commitment, which can be locked again exactly when the winner
      bid all of it. */
  lemma RecordedWinner(w: World, c: Call, id: nat)
    requires Inv(w) && w.Exists(id) && w.At(id).state != Finalized && Step(w, c).Committed?
    requires Step(w, c).value.Exists(id) && ShieldedWin(Step(w, c).value.At(id))
    ensures WinnerKnown(Step(w, c).value, id) && HasRow(Step(w, c).value, id)
    ensures var w' := Step(w, c).value;
            var deposits := Deposits(w, w.At(id).terms.deps.vault);
            && WinningCommitment(w', id) in deposits
            && (Lockable(Row(w', id)) <==> w'.At(id).outcome.amount == deposits[WinningCommitment(w', id)].amount)
  {
    hide Inv, SubmitResolution, SubmitShieldedResolution, CheckShieldedResolution, AttestedBy, Registries.MarkWinner;
    FinalizedOnlyByQuorum(w, c, id);
    if c.Resolve? {
      ResolutionIffQuorum(w, id, c.winner, c.ciphertext, c.amount, c.proof);
    } else {
      ShieldedResolutionIffQuorum(w, id, c.identity, c.ciphertext, c.amount, c.proof);
      ResolutionSpends(w, id, c.identity, c.ciphertext, c.amount, c.proof);
      CheckFindsCommitment(w, id, c.identity, c.ciphertext, c.amount);
      MarkBindsNothing(RegistryAt(w, w.At(id).terms.deps.registry), id, c.identity);
    }
  }

  /** A recorded winner keeps its commitment. */
  lemma WinnerRemembered(w: World, w': World, c: Call, id: nat)
    requires Inv(w) && Evolution(w, w', c) && Remembers(w, w') && w.Exists(id) && ShieldedWin(w.At(id)) && WinnerKnown(w, id)
    ensures w'.Exists(id) && ShieldedWin(w'.At(id)) && WinnerKnown(w', id)
    ensures WinningCommitment(w', id) == WinningCommitment(w, id) && w'.At(id).terms == w.At(id).terms
  {
    hide Inv;
    LifeEnds(w, w', c, id);
    assert Evolves(w.At(id), w'.At(id));
  }

  lemma StepKeepsWinners(w: World, c: Call)
    requires Inv(w) && Backed(w) && WinnersKnown(w) && Signable(w) && Step(w, c).Committed?
    ensures WinnersKnown(Step(w, c).value) && Signable(Step(w, c).value)
  {
    hide Inv, Backed, Step, Signable, WinnerKnown, Evolution, Remembers;
    var w' := Step(w, c).value;
    StepRemembers(w, c);
    StepEvolves(w, c);
    forall id: nat | w'.Exists(id) ensures WinnerKnown(w', id) {
      KnownAfter(w, c, id);
    }
  }

  lemma KnownAfter(w: World, c: Call, id: nat)
    requires Inv(w) && WinnersKnown(w) && Step(w, c).Committed? && Step(w, c).value.Exists(id)
    requires Evolution(w, Step(w, c).value, c) && Remembers(w, Step(w, c).value)
    ensures WinnerKnown(Step(w, c).value, id)
  {
    hide Inv, Step, Remembers, Evolves;
    var w' := Step(w, c).value;
    if ShieldedWin(w'.At(id)) {
      if !w.Exists(id) { Counters.CreatedEmpty(w, c, id); }
      else if w.At(id).state != Finalized { RecordedWinner(w, c, id); }
      else {
        assert WinnerKnown(w, id);
        SameOutcome(w, w', c, id);
        WinnerRemembered(w, w', c, id);
      }
    }
  }

  lemma SameOutcome(w: World, w': World, c: Call, id: nat)
    requires Evolution(w, w', c) && w.Exists(id) && w.At(id).state == Finalized
    ensures w'.Exists(id) && w'.At(id).outcome == w.At(id).outcome
  {
    assert Evolves(w.At(id), w'.At(id));
  }

  /** Everything this module relies on. */
  ghost predicate Settled(w: World) {
    Inv(w) && Backed(w) && WinnersKnown(w) && Signable(w)
  }

  lemma StepKeepsSettled(w: World, c: Call)
    requires Settled(w) && Step(w, c).Committed?
    ensures Settled(Step(w, c).value)
  {
    hide Inv, Backed, WinnersKnown, Signable, Step;
    StepKeepsInv(w, c);
    StepKeepsBacked(w, c);
    StepKeepsWinners(w, c);
  }

  lemma {:induction false} RunKeepsSettled(w: World, calls: seq<Call>)
    requires Settled(w)
    ensures Settled(Run(w, calls))
    decreases |calls|
  {
    hide Settled, Step;
    if calls != [] {
      var n := |calls| - 1;
      RunKeepsSettled(w, calls[..n]);
      if Step(Run(w, calls[..n]), calls[n]).Committed? { StepKeepsSettled(Run(w, calls[..n]), calls[n]); }
    }
  }

  lemma ReachableIsSettled(now: nat, adapter: Adapter, pot: Address, calls: seq<Call>)
    requires pot != ZERO
    ensures Settled(Run(Genesis(now, adapter, pot), calls))
  {
    var g := Genesis(now, adapter, pot);
    ReachableIsBacked(now, adapter, pot, []);
    assert Run(g, []) == g;
    hide Inv, Backed, Run;
    assert Settled(g);
    RunKeepsSettled(g, calls);
  }

  // ---- when the claim commits ----

  /** A shielded winner's claim commits exactly with the recorded identity, before its deadline, under a fresh
      authorization of the commitment's own authority, and as long as the vault's row still names this auction. */
  lemma ShieldedAssetCommitsIff(w: World, id: nat, identity: Word, recipient: Address, deadline: nat,
                                signer: Option<Address>, takes: bool)
    requires Settled(w) && w.Exists(id)
    ensures ClaimShieldedAsset(w, id, identity, recipient, deadline, signer, takes).Committed? <==>
            var a := w.At(id);
            && ShieldedWin(a) && !a.assetClaimed && identity == a.outcome.identity && recipient != ZERO && takes
            && HasRow(w, id)
            && w.now <= deadline && signer == Some(Row(w, id).authority)
            && Vaults.Authorization(Vaults.AssetClaim, id, WinningCommitment(w, id), recipient, deadline)
               !in UsedBy(w, a.terms.deps.vault)
  {
    hide AuctionOk, Platform, Clocked, DepsOk, Backed;
    var a := w.At(id);
    assert WinnerKnown(w, id);
    if ShieldedWin(a) && !a.assetClaimed { assert a.HoldsToken(); }
  }

  /** What a committed claim writes: the token is the recipient's, the auction has given it away, the authorization is used
      up, and nothing else changes. */
  lemma ShieldedAssetWrites(w: World, id: nat, identity: Word, recipient: Address, deadline: nat,
                            signer: Option<Address>, takes: bool)
    requires ClaimShieldedAsset(w, id, identity, recipient, deadline, signer, takes).Committed?
    ensures w.Exists(id) && w.At(id).terms.deps.vault in w.vaults
    ensures var w' := ClaimShieldedAsset(w, id, identity, recipient, deadline, signer, takes).value;
            var a, vault := w.At(id), w.At(id).terms.deps.vault;
            var message := Vaults.Authorization(Vaults.AssetClaim, id, WinningCommitment(w, id), recipient, deadline);
            && w' == w.Put(id, a.(assetClaimed := true)).(
                       owners := w.owners[a.Token() := recipient],
                       vaults := w.vaults[vault := w.vaults[vault].(used := w.vaults[vault].used + {message})])
  {}

  ghost predicate Above(n: nat, s: set<nat>) {
    n > 0 && forall x :: x in s ==> x < n
  }

  /** Beyond any finite set of numbers there is another one. */
  lemma {:induction false} Beyond(s: set<nat>)
    ensures exists n :: Above(n, s)
  {
    if s == {} {
      assert Above(1, s);
    } else {
      var y :| y in s;
      Beyond(s - {y});
      var n :| Above(n, s - {y});
      forall x | x in s ensures x < n + y + 1 { if x != y { assert x in s - {y}; } }
      assert Above(n + y + 1, s);
    }
  }

  function Deadlines(used: set<Vaults.Authorization>): set<nat> {
    set m | m in used :: m.deadline
  }

  /** So the token of a shielded winner is there for the taking exactly as long as the row names its auction: a fresh
      deadline and the authority's signature are all it takes. */
  lemma ShieldedTokenWaitsIff(w: World, id: nat)
    requires Settled(w) && w.Exists(id) && ShieldedWin(w.At(id)) && !w.At(id).assetClaimed
    ensures HasRow(w, id) <==>
            exists to: Address, deadline: nat, signer ::
              ClaimShieldedAsset(w, id, w.At(id).outcome.identity, to, deadline, signer, true).Committed?
  {
    hide Settled, HasRow, Row, WinningCommitment, ClaimShieldedAsset;
    var used := UsedBy(w, w.At(id).terms.deps.vault);
    Beyond(Deadlines(used));
    var n :| Above(n, Deadlines(used));
    FreshDeadline(used, n);
    ShieldedAssetCommitsIff(w, id, w.At(id).outcome.identity, OUTSIDER, w.now + n, Some(Row(w, id).authority), true);
    forall to: Address, deadline: nat, signer
      | ClaimShieldedAsset(w, id, w.At(id).outcome.identity, to, deadline, signer, true).Committed?
      ensures HasRow(w, id)
    {
      ShieldedAssetCommitsIff(w, id, w.At(id).outcome.identity, to, deadline, signer, true);
    }
  }

  lemma FreshDeadline(used: set<Vaults.Authorization>, n: nat)
    requires Above(n, Deadlines(used))
    ensures forall m :: m in used ==> m.deadline < n
  {
    forall m | m in used ensures m.deadline < n { assert m.deadline in Deadlines(used); }
  }

  /** A token without a shielded winner is its recipient's to claim at any later point, until it has been claimed. */
  lemma PublicTokenWaits(w: World, calls: seq<Call>, id: nat, sender: Caller)
    requires Inv(w) && w.Exists(id) && w.At(id).state == Finalized && w.At(id).outcome.identity == 0
    requires sender == Recipient(w.At(id))
    ensures var w' := Run(w, calls);
            w'.Exists(id) && (w'.At(id).assetClaimed || ClaimAsset(w', sender, id, true).Committed?)
  {
    hide Inv, Run, ClaimAsset;
    RunKeepsInv(w, calls);
    RunEndures(w, calls, id);
    AssetCommitsIff(Run(w, calls), sender, id, true);
  }

  // ---- when the row is lost ----

  /** The call locks the winner's commitment anew, for another auction of the same vault. */
  predicate Relocks(w: World, c: Call, id: nat)
    requires w.Exists(id)
  {
    && c.ShieldedLock? && c.commitment == WinningCommitment(w, id)
    && w.Exists(c.id) && w.At(c.id).terms.deps.vault == w.At(id).terms.deps.vault
  }

  /** The winner's row after a call: as it was, claimed by a refund, or taken by another auction. */
  ghost predicate RowMoves(w: World, w': World, c: Call, id: nat)
    requires w.Exists(id) && w'.Exists(id)
  {
    if Relocks(w, c, id) then Lockable(Row(w, id)) && Row(w', id) == Vaults.Deposit(c.id, c.value, false, c.authority) && c.id != id
    else Row(w', id) == Row(w, id) || (Row(w', id).auctionId == Row(w, id).auctionId && Row(w', id).claimed)
  }

  lemma LockMovesRow(w: World, c: Call, id: nat)
    requires c.ShieldedLock? && Step(w, c).Committed? && w.Exists(id) && ShieldedWin(w.At(id)) && WinnerKnown(w, id)
    requires var w' := Step(w, c).value;
             w'.Exists(id) && WinningCommitment(w', id) == WinningCommitment(w, id) && w'.At(id).terms == w.At(id).terms
    ensures RowMoves(w, Step(w, c).value, c, id)
  {
    hide Step, WinningCommitment, Signable;
    LockAddsCommitment(w, c);
  }

  lemma RefundMovesRow(w: World, c: Call, id: nat)
    requires c.ShieldedRefund? && Step(w, c).Committed? && w.Exists(id) && ShieldedWin(w.At(id)) && WinnerKnown(w, id)
    requires var w' := Step(w, c).value;
             w'.Exists(id) && WinningCommitment(w', id) == WinningCommitment(w, id) && w'.At(id).terms == w.At(id).terms
    ensures RowMoves(w, Step(w, c).value, c, id)
  {
    hide Step, WinningCommitment;
    RefundSpends(w, c);
  }

  /** Paying another winner spends a commitment of its own auction, never one of a finalized auction. */
  lemma ResolutionMovesRow(w: World, c: Call, id: nat)
    requires c.ResolveShielded? && Step(w, c).Committed? && w.Exists(id) && ShieldedWin(w.At(id)) && WinnerKnown(w, id)
    requires var w' := Step(w, c).value;
             w'.Exists(id) && WinningCommitment(w', id) == WinningCommitment(w, id) && w'.At(id).terms == w.At(id).terms
    ensures Row(Step(w, c).value, id).auctionId == Row(w, id).auctionId
    ensures HasRow(w, id) ==> Row(Step(w, c).value, id) == Row(w, id)
  {
    hide SubmitShieldedResolution, CheckShieldedResolution, Registries.MarkWinner, WinningCommitment, AttestedBy;
    ResolutionSpends(w, c.id, c.identity, c.ciphertext, c.amount, c.proof);
    ShieldedResolutionIffQuorum(w, c.id, c.identity, c.ciphertext, c.amount, c.proof);
  }

  lemma QuietRow(w: World, c: Call, id: nat)
    requires Step(w, c).Committed? && !c.ShieldedLock? && !c.ShieldedRefund? && !c.ResolveShielded? && w.Exists(id)
    requires var w' := Step(w, c).value;
             w'.Exists(id) && WinningCommitment(w', id) == WinningCommitment(w, id) && w'.At(id).terms == w.At(id).terms
    ensures Row(Step(w, c).value, id) == Row(w, id)
  {
    hide Step, WinningCommitment;
    if c.ShieldedBid? || c.Create? {
      NoShieldedContracts(w, c);
      ContractsUntouched(w, Step(w, c).value);
    } else {
      CalmCall(w, c);
    }
  }

  lemma StepMovesRow(w: World, c: Call, id: nat)
    requires Settled(w) && w.Exists(id) && ShieldedWin(w.At(id)) && Step(w, c).Committed?
    ensures var w' := Step(w, c).value;
            && w'.Exists(id) && ShieldedWin(w'.At(id)) && w'.At(id).terms == w.At(id).terms
            && WinningCommitment(w', id) == WinningCommitment(w, id)
            && (HasRow(w, id) ==> RowMoves(w, w', c, id))
            && (!HasRow(w, id) ==> !HasRow(w', id))
  {
    hide Inv, Backed, Signable, Step, Evolution, Remembers, WinningCommitment, WinnerKnown, Row;
    var w' := Step(w, c).value;
    StepRemembers(w, c);
    StepEvolves(w, c);
    assert WinnerKnown(w, id);
    WinnerRemembered(w, w', c, id);
    if c.ShieldedLock? {
      LockMovesRow(w, c, id);
    } else if c.ShieldedRefund? {
      RefundMovesRow(w, c, id);
    } else if c.ResolveShielded? {
      ResolutionMovesRow(w, c, id);
    } else {
      QuietRow(w, c, id);
    }
  }

  // ---- whole runs ----

  /** The k-th call of the run is committed and locks the winner's commitment anew. */
  ghost predicate RelockedAt(w: World, calls: seq<Call>, id: nat, k: nat)
    requires k < |calls|
  {
    var before := Run(w, calls[..k]);
    before.Exists(id) && Relocks(before, calls[k], id) && Step(before, calls[k]).Committed?
  }

  /** Over any run the winner's row is lost exactly by somebody locking its commitment anew. */
  lemma {:induction false} RowLostByRelockOnly(w: World, calls: seq<Call>, id: nat)
    requires Settled(w) && w.Exists(id) && ShieldedWin(w.At(id)) && HasRow(w, id)
    ensures var w' := Run(w, calls);
            && w'.Exists(id) && ShieldedWin(w'.At(id))
            && (HasRow(w', id) <==> forall k: nat :: k < |calls| ==> !RelockedAt(w, calls, id, k))
    decreases |calls|
  {
    hide Settled, Step, HasRow, Relocks, ShieldedWin;
    if calls != [] {
      var n := |calls| - 1;
      var before := Run(w, calls[..n]);
      RunKeepsSettled(w, calls[..n]);
      RowLostByRelockOnly(w, calls[..n], id);
      forall k: nat | k < n ensures RelockedAt(w, calls[..n], id, k) == RelockedAt(w, calls, id, k) {
        assert calls[..n][..k] == calls[..k];
      }
      if Step(before, calls[n]).Committed? {
        StepMovesRow(before, calls[n], id);
        RowStays(before, Step(before, calls[n]).value, calls[n], id);
      }
      assert RelockedAt(w, calls, id, n) <==> Relocks(before, calls[n], id) && Step(before, calls[n]).Committed?;
      assert (forall k: nat :: k < n ==> !RelockedAt(w, calls, id, k)) <==>
             (forall k: nat :: k < n ==> !RelockedAt(w, calls[..n], id, k));
    }
  }

  lemma RowStays(w: World, w': World, c: Call, id: nat)
    requires w.Exists(id) && w'.Exists(id)
    requires (HasRow(w, id) ==> RowMoves(w, w', c, id)) && (!HasRow(w, id) ==> !HasRow(w', id))
    ensures HasRow(w', id) <==> HasRow(w, id) && !Relocks(w, c, id)
  {
    hide Row;
  }

  /** A winner who did not bid all of its commitment, or has taken back the rest, keeps its row for good. */
  lemma {:induction false} RemainderKeepsRow(w: World, calls: seq<Call>, id: nat)
    requires Settled(w) && w.Exists(id) && ShieldedWin(w.At(id)) && HasRow(w, id) && !Lockable(Row(w, id))
    ensures var w' := Run(w, calls);
            w'.Exists(id) && ShieldedWin(w'.At(id)) && HasRow(w', id) && !Lockable(Row(w', id))
    decreases |calls|
  {
    hide Settled, Step, Row, ShieldedWin, WinningCommitment;
    if calls != [] {
      var n := |calls| - 1;
      var before := Run(w, calls[..n]);
      RunKeepsSettled(w, calls[..n]);
      RemainderKeepsRow(w, calls[..n], id);
      if Step(before, calls[n]).Committed? { StepMovesRow(before, calls[n], id); }
    }
  }

  /** Once the row is lost the market keeps the token for good: whatever happens, no claim of it ever commits. */
  lemma {:induction false} LostRowKeepsToken(w: World, calls: seq<Call>, id: nat)
    requires Settled(w) && w.Exists(id) && ShieldedWin(w.At(id)) && !HasRow(w, id) && !w.At(id).assetClaimed
    ensures var w' := Run(w, calls);
            && w'.Exists(id) && ShieldedWin(w'.At(id)) && !HasRow(w', id) && !w'.At(id).assetClaimed && w'.At(id).HoldsToken()
            && (forall sender: Caller, takes :: ClaimAsset(w', sender, id, takes).Reverted?)
            && (forall identity: Word, to: Address, deadline: nat, signer, takes ::
                  ClaimShieldedAsset(w', id, identity, to, deadline, signer, takes).Reverted?)
    decreases |calls|
  {
    hide Settled, Step, HasRow, WinningCommitment;
    if calls != [] {
      var n := |calls| - 1;
      var before := Run(w, calls[..n]);
      RunKeepsSettled(w, calls[..n]);
      LostRowKeepsToken(w, calls[..n], id);
      if Step(before, calls[n]).Committed? {
        StepMovesRow(before, calls[n], id);
        UnclaimedStays(before, calls[n], id);
      }
    }
    RunKeepsSettled(w, calls);
    NothingClaims(Run(w, calls), id);
  }

  lemma NothingClaims(w: World, id: nat)
    requires Settled(w) && w.Exists(id) && ShieldedWin(w.At(id)) && !HasRow(w, id)
    ensures forall sender: Caller, takes :: ClaimAsset(w, sender, id, takes).Reverted?
    ensures forall identity: Word, to: Address, deadline: nat, signer, takes ::
              ClaimShieldedAsset(w, id, identity, to, deadline, signer, takes).Reverted?
  {
    hide Settled, HasRow, ClaimShieldedAsset;
    forall identity: Word, to: Address, deadline: nat, signer, takes
      ensures ClaimShieldedAsset(w, id, identity, to, deadline, signer, takes).Reverted?
    {
      ShieldedAssetCommitsIff(w, id, identity, to, deadline, signer, takes);
    }
  }

  lemma UnclaimedStays(w: World, c: Call, id: nat)
    requires Settled(w) && w.Exists(id) && ShieldedWin(w.At(id)) && !HasRow(w, id) && !w.At(id).assetClaimed
    requires Step(w, c).Committed?
    ensures Step(w, c).value.Exists(id) && !Step(w, c).value.At(id).assetClaimed
  {
    hide Inv, Backed, WinnersKnown, Signable, Step, HasRow, EscrowRefund;
    TerminalStep(w, c, id);
    NothingClaims(w, id);
    if (c.Asset? || c.ShieldedAsset?) && c.id == id { ClaimingStep(w, c, id); }
  }

  lemma ClaimingStep(w: World, c: Call, id: nat)
    requires (c.Asset? || c.ShieldedAsset?) && c.id == id && Step(w, c).Committed?
    ensures c.Asset? ==> ClaimAsset(w, c.sender, id, c.takes).Committed?
    ensures c.ShieldedAsset? ==> ClaimShieldedAsset(w, id, c.identity, c.recipient, c.deadline, c.signer, c.takes).Committed?
  {
    hide ClaimAsset, ClaimShieldedAsset;
  }

  // ---- exactly which winners can be shut out ----

  function TokenIds(w: World): set<nat> {
    set t | t in w.owners.Keys :: t.1
  }

  /** An outsider gets hold of a fresh token, and somebody deploys a registry. */
  function Gathering(registry: Address, tokenId: nat): seq<Call> {
    [] + [DeployRegistry(registry)] + [MoveToken((MARKET, tokenId), OUTSIDER)]
  }

  function Gathered(w: World, registry: Address, tokenId: nat): World {
    w.(registries := w.registries[registry := Registries.EMPTY_REGISTRY], owners := w.owners[(MARKET, tokenId) := OUTSIDER])
  }

  lemma GatheringRuns(w: World, registry: Address, tokenId: nat)
    requires registry != ZERO && registry !in w.registries && (MARKET, tokenId) !in w.owners
    ensures Run(w, Gathering(registry, tokenId)) == Gathered(w, registry, tokenId)
  {
    NoCalls(w);
    hide Run, Step;
    var r0: seq<Call> := [];
    var c1, c2 := DeployRegistry(registry), MoveToken((MARKET, tokenId), OUTSIDER);
    Examples.DeployingStep(w, c1);
    Liveness.RunSnoc(w, r0, c1);
    Examples.DeployingStep(Environment(w, c1).value, c2);
    Liveness.RunSnoc(w, r0 + [c1], c2);
  }

  /** The new registry and the auction's vault become the market's. */
  function Preparing(registry: Address, vault: Address, tokenId: nat): seq<Call> {
    Gathering(registry, tokenId) + [SetRegistry(registry)] + [SetVault(vault)]
  }

  function Prepared(w: World, registry: Address, vault: Address, tokenId: nat): World {
    Gathered(w, registry, tokenId).(config := w.config.(registry := registry, vault := vault))
  }

  lemma PreparedRuns(w: World, registry: Address, vault: Address, tokenId: nat)
    requires registry != ZERO && registry !in w.registries && vault in w.vaults && (MARKET, tokenId) !in w.owners
    ensures Run(w, Preparing(registry, vault, tokenId)) == Prepared(w, registry, vault, tokenId)
  {
    GatheringRuns(w, registry, tokenId);
    hide Run, Step, Gathering;
    var w0, c1, c2 := Gathered(w, registry, tokenId), SetRegistry(registry), SetVault(vault);
    Examples.OwnerStep(w0, c1);
    Liveness.RunSnoc(w, Gathering(registry, tokenId), c1);
    Examples.OwnerStep(Ambient(w0, c1).value, c2);
    Liveness.RunSnoc(w, Gathering(registry, tokenId) + [c1], c2);
  }

  lemma NoCalls(w: World)
    ensures Run(w, []) == w
  {}

  function Reopening(tokenId: nat): Call {
    Create(OUTSIDER, 1, MARKET, tokenId, MIN_AUCTION_DURATION, 0, 1, true)
  }

  function Relocking(w: World, id: nat): Call
    requires w.Exists(id)
  {
    ShieldedLock(1, |w.auctions| + 1, 1, WinningCommitment(w, id), OUTSIDER)
  }

  lemma Reopens(w: World, registry: Address, vault: Address, tokenId: nat)
    ensures var w0 := Prepared(w, registry, vault, tokenId);
            var w1 := Step(w0, Reopening(tokenId));
            && w1.Committed? && w1.value.vaults == w0.vaults && w1.value.registries == w0.registries && w1.value.now == w0.now
            && w1.value.auctions == w0.auctions + [NewAuction(Terms(MARKET, tokenId, OUTSIDER, w0.now, w0.now + MIN_AUCTION_DURATION, 1, 0, w0.config))]
  {
    hide Observe;
  }

  /** Whoever opens an auction with a fresh token on the same vault can lock a lockable commitment there. */
  lemma Relocked(w: World, id: nat, registry: Address, tokenId: nat, w1: World)
    requires w.Exists(id) && WinningCommitment(w, id) != 0 && Lockable(Row(w, id)) && registry != ZERO && registry !in w.registries
    requires w.At(id).terms.deps.vault in w.vaults
    requires var w0 := Prepared(w, registry, w.At(id).terms.deps.vault, tokenId);
             Step(w0, Reopening(tokenId)).Committed? && w1 == Step(w0, Reopening(tokenId)).value
    ensures Step(w1, Relocking(w, id)).Committed?
  {
    hide Observe, WinningCommitment, CreateAuction;
    Reopens(w, registry, w.At(id).terms.deps.vault, tokenId);
    assert w1.At(|w1.auctions|).terms.deps.registry == registry;
  }

  /** A winner can be shut out by nobody exactly when part of its commitment was left over, or has been taken back; any
      other winner loses its row in a run of six calls. */
  lemma RowIsSafeIff(w: World, id: nat)
    requires Settled(w) && w.Exists(id) && ShieldedWin(w.At(id)) && HasRow(w, id)
    ensures (forall calls :: Run(w, calls).Exists(id) && HasRow(Run(w, calls), id)) <==> !Lockable(Row(w, id))
  {
    hide Settled, HasRow, Row, WinningCommitment, Run;
    if Lockable(Row(w, id)) {
      RowCanBeLost(w, id);
    } else {
      forall calls ensures Run(w, calls).Exists(id) && HasRow(Run(w, calls), id) { RemainderKeepsRow(w, calls, id); }
    }
  }

  lemma RowCanBeLost(w: World, id: nat)
    requires Settled(w) && w.Exists(id) && ShieldedWin(w.At(id)) && HasRow(w, id) && Lockable(Row(w, id))
    ensures exists calls :: Run(w, calls).Exists(id) && !HasRow(Run(w, calls), id)
  {
    hide Settled, HasRow, Row, Run, Preparing, Reopening, Relocking;
    Beyond(w.registries.Keys);
    var registry :| Above(registry, w.registries.Keys);
    Beyond(TokenIds(w));
    var tokenId :| Above(tokenId, TokenIds(w));
    FreshToken(w, tokenId);
    assert WinnerKnown(w, id) by { KnownWinner(w, id); }
    LosesRow(w, id, registry, tokenId);
  }

  lemma FreshToken(w: World, tokenId: nat)
    requires Above(tokenId, TokenIds(w))
    ensures (MARKET, tokenId) !in w.owners
  {
    forall t | t in w.owners ensures t.1 < tokenId {
      assert t.1 in TokenIds(w);
    }
  }

  lemma KnownWinner(w: World, id: nat)
    requires Settled(w) && w.Exists(id) && ShieldedWin(w.At(id))
    ensures WinnerKnown(w, id)
    ensures w.At(id).terms.deps.vault in w.vaults && WinningCommitment(w, id) != 0
  {
    hide Inv, Backed, Signable;
    assert WinnerKnown(w, id);
  }

  lemma LosesRow(w: World, id: nat, registry: Address, tokenId: nat)
    requires Settled(w) && w.Exists(id) && ShieldedWin(w.At(id)) && HasRow(w, id) && Lockable(Row(w, id))
    requires registry != ZERO && registry !in w.registries && (MARKET, tokenId) !in w.owners
    ensures var calls := Preparing(registry, w.At(id).terms.deps.vault, tokenId) + [Reopening(tokenId)] + [Relocking(w, id)];
            Run(w, calls).Exists(id) && !HasRow(Run(w, calls), id)
  {
    hide Settled, HasRow, Row, Run, Step, WinnerKnown, Preparing, Prepared, Reopening, Relocking, Relocks, WinningCommitment;
    var vault := w.At(id).terms.deps.vault;
    var before, open, lock := Preparing(registry, vault, tokenId), Reopening(tokenId), Relocking(w, id);
    KnownWinner(w, id);
    PreparedRuns(w, registry, vault, tokenId);
    RelocksAfter(w, id, registry, tokenId);
    Liveness.RunSnoc(w, before, open);
    var calls := before + [open] + [lock];
    var k := |before| + 1;
    assert calls[..k] == before + [open] && calls[k] == lock;
    assert RelockedAt(w, calls, id, k);
    RowLostByRelockOnly(w, calls, id);
  }

  lemma RelocksAfter(w: World, id: nat, registry: Address, tokenId: nat)
    requires w.Exists(id) && Lockable(Row(w, id)) && registry != ZERO && registry !in w.registries
    requires w.At(id).terms.deps.vault in w.vaults && WinningCommitment(w, id) != 0
    ensures var w0 := Prepared(w, registry, w.At(id).terms.deps.vault, tokenId);
            var w1 := Step(w0, Reopening(tokenId));
            && w1.Committed? && w1.value.Exists(id) && Relocks(w1.value, Relocking(w, id), id)
            && Step(w1.value, Relocking(w, id)).Committed?
  {
    hide Row, Step, WinningCommitment;
    var vault := w.At(id).terms.deps.vault;
    Reopens(w, registry, vault, tokenId);
    var w1 := Step(Prepared(w, registry, vault, tokenId), Reopening(tokenId)).value;
    Relocked(w, id, registry, tokenId, w1);
    SameWinner(w, w1, id, registry, vault, tokenId);
  }

  lemma SameWinner(w: World, w1: World, id: nat, registry: Address, vault: Address, tokenId: nat)
    requires w.Exists(id) && WinningCommitment(w, id) != 0 && registry !in w.registries
    requires |w.auctions| <= |w1.auctions| && w1.auctions[..|w.auctions|] == w.auctions && w1.registries == Prepared(w, registry, vault, tokenId).registries
    ensures w1.Exists(id) && w1.At(id) == w.At(id) && WinningCommitment(w1, id) == WinningCommitment(w, id)
  {
    assert w1.auctions[..|w.auctions|][id - 1] == w1.At(id);
  }

  // ---- a token that nobody can claim ----

  /** It does happen. A shielded bidder locks five wei, bids and wins with all of them; before it claims its token the
      seller opens another auction, where somebody locks one wei under the winner's commitment. From then on no claim of
      the first token commits, whoever sends or signs it and whatever else happens. */
  lemma WholeCommitmentLosesToken(calls: seq<Call>)
    ensures var won := Run(Examples.Genesis0(), Examples.WonCalls());
            && won.Exists(1) && ShieldedWin(won.At(1)) && !won.At(1).assetClaimed && HasRow(won, 1) && Lockable(Row(won, 1))
    ensures var w := Run(Run(Examples.Genesis0(), Examples.LostCalls()), calls);
            && w.Exists(1) && w.At(1).HoldsToken()
            && (forall sender: Caller, takes :: ClaimAsset(w, sender, 1, takes).Reverted?)
            && (forall identity: Word, to: Address, deadline: nat, signer, takes ::
                  ClaimShieldedAsset(w, 1, identity, to, deadline, signer, takes).Reverted?)
  {
    Examples.WonRuns();
    Examples.LostRuns();
    LostRow();
    hide Settled, HasRow, Run, Examples.Lost, ClaimAsset, ClaimShieldedAsset;
    ReachableIsSettled(Examples.START, LocalPrototype, Examples.POT, Examples.LostCalls());
    LostRowKeepsToken(Examples.Lost(), calls, 1);
  }

  lemma LostRow()
    ensures var won := Examples.Won();
            && won.Exists(1) && ShieldedWin(won.At(1)) && !won.At(1).assetClaimed && HasRow(won, 1) && Lockable(Row(won, 1))
    ensures var w := Examples.Lost();
            w.Exists(1) && ShieldedWin(w.At(1)) && !w.At(1).assetClaimed && !HasRow(w, 1)
  {}
}
