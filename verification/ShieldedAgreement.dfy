/** The keeper and the market agree on shielded bids too, exactly as far as the auction's own registry recognizes them. */
module ShieldedAgreement {
  import opened Prelude
  import opened CiphertextEncoding
  import opened MarketState
  import opened MarketTransactions
  import opened MarketInvariant
  import opened MarketPreservation
  import opened MarketLifecycle
  import opened WinnerSelection
  import opened ShieldedBacking
  import opened KeeperAgreement
  import Vaults = ShieldedEscrowVault
  import Avss = EigenLayerAvs
  import Registries = ShieldedIdentityRegistry
  import Submitter = AvsSubmitter
  import Quorum = MarketQuorum
  import Examples = MarketExamples

  /** The market's present vault and registry are those the auction snapshotted at its creation. */
  ghost predicate OwnContracts(w: World, id: nat)
    requires w.Exists(id)
  {
    w.config.vault == w.At(id).terms.deps.vault && w.config.registry == w.At(id).terms.deps.registry
  }

  /** What the keeper should find behind a commitment. */
  function Expected(w: World, id: nat, commitment: Word): BidRecord
    requires w.Exists(id)
  {
    var deps := w.At(id).terms.deps;
    BidRecord(RegistryAt(w, deps.registry).IdentityFor(id, commitment), Get(w.At(id).shieldedBids, commitment),
              if commitment in Deposits(w, deps.vault) then Deposits(w, deps.vault)[commitment].amount else 0, true)
  }

  lemma BehindShieldedBid(w: World, id: nat, commitment: Word)
    requires Inv(w) && Backed(w) && w.Exists(id) && w.At(id).Live() && commitment in w.At(id).shieldedBids
    ensures var deps := w.At(id).terms.deps;
            && deps.vault in w.vaults && commitment in w.vaults[deps.vault].deposits && commitment != 0
            && !w.vaults[deps.vault].BookAt(id).unlocked
            && !w.vaults[deps.vault].deposits[commitment].claimed
            && RegistryAt(w, deps.registry).IdentityFor(id, commitment) != 0
            && Stands(w, id, commitment, w.vaults[deps.vault].deposits[commitment],
                      RegistryAt(w, deps.registry).IdentityFor(id, commitment))
  {
    hide RegistriesOk, NoEarlyWinners, DepositsNamed, Custody, Clocked, Vaults.Sound;
    assert Backs(w, id);
    assert AuctionOk(w.At(id), SideOf(w, id));
    IdentityNeedsCommitment(w, id, commitment);
  }

  /** The keeper skips no shielded bid of a live auction, and finds its identity and its escrow. */
  lemma ShieldedBidIsCollected(w: World, id: nat, commitment: Word)
    requires Inv(w) && Backed(w) && w.Exists(id) && w.At(id).Live() && OwnContracts(w, id)
    requires commitment in w.At(id).shieldedBids
    ensures w.config.vault in w.vaults && ShieldedBidOf(w, id, commitment, true) == Some(Expected(w, id, commitment))
    ensures var b := Expected(w, id, commitment);
            && commitment in Deposits(w, w.config.vault) && b.escrow > 0 && commitment != 0
            && Stands(w, id, commitment, Deposits(w, w.config.vault)[commitment], b.bidder)
  {
    hide Inv, Backed;
    BehindShieldedBid(w, id, commitment);
  }

  /** It skips them all exactly when it may not preview commitments or the market has moved on to another vault. */
  lemma CollectedFromOwnVaultOnly(w: World, id: nat, commitment: Word, canPreview: bool)
    requires Inv(w) && Backed(w) && w.Exists(id) && w.At(id).Live() && w.config.vault in w.vaults
    requires commitment in w.At(id).shieldedBids
    ensures ShieldedBidOf(w, id, commitment, canPreview).Some? <==> canPreview && w.config.vault == w.At(id).terms.deps.vault
  {
    hide Inv, RegistriesOk, NoEarlyWinners, AllBack;
    BehindShieldedBid(w, id, commitment);
    var found := Deposits(w, w.config.vault);
    if commitment in found { assert IsVaultOf(w, found[commitment].auctionId, w.config.vault); }
    ExistingId(w, id);
  }

  lemma ExistingId(w: World, id: nat)
    requires w.Exists(id)
    ensures id != 0
  {}

  lemma IdentityNeedsCommitment(w: World, id: nat, commitment: Word)
    requires RegistriesOk(w) && w.Exists(id)
    ensures var r := RegistryAt(w, w.At(id).terms.deps.registry);
            r.IdentityFor(id, commitment) != 0 ==>
              commitment != 0 && r.CommitmentFor(id, r.IdentityFor(id, commitment)) == commitment
  {
    assert Registries.Inverse(RegistryAt(w, w.At(id).terms.deps.registry));
  }

  lemma {:induction false} ShieldedBidsAreComplete(w: World, id: nat, commitments: seq<Word>)
    requires Inv(w) && Backed(w) && w.Exists(id) && w.At(id).Live() && OwnContracts(w, id) && w.config.vault in w.vaults
    requires forall c :: c in commitments ==> c in w.At(id).shieldedBids
    ensures |ShieldedBids(w, id, commitments, true)| == |commitments|
    ensures forall i :: 0 <= i < |commitments| ==>
              ShieldedBids(w, id, commitments, true)[i] == Expected(w, id, commitments[i])
  {
    hide Inv, Backed, Expected, ShieldedBidOf;
    if commitments != [] {
      var n := |commitments| - 1;
      forall c | c in commitments[..n] ensures c in w.At(id).shieldedBids { assert c in commitments; }
      ShieldedBidsAreComplete(w, id, commitments[..n]);
      assert commitments[n] in commitments;
      ShieldedBidIsCollected(w, id, commitments[n]);
    }
  }

  lemma {:induction false} ComesFromCommitment(w: World, id: nat, commitments: seq<Word>, canPreview: bool, b: BidRecord)
    requires w.Exists(id) && w.config.vault in w.vaults && b in ShieldedBids(w, id, commitments, canPreview)
    ensures exists c :: c in commitments && ShieldedBidOf(w, id, c, canPreview) == Some(b)
  {
    hide ShieldedBidOf;
    if commitments != [] {
      var n := |commitments| - 1;
      if ShieldedBidOf(w, id, commitments[n], canPreview) == Some(b) {
        assert commitments[n] in commitments;
      } else {
        ComesFromCommitment(w, id, commitments[..n], canPreview, b);
        var c :| c in commitments[..n] && ShieldedBidOf(w, id, c, canPreview) == Some(b);
        assert c in commitments;
      }
    }
  }

  /** A bid the keeper found behind this commitment of the auction. */
  ghost predicate Collected(w: World, id: nat, canPreview: bool, b: BidRecord, commitment: Word)
    requires w.Exists(id)
  {
    && w.config.vault in w.vaults && commitment in w.At(id).shieldedBids
    && ShieldedBidOf(w, id, commitment, canPreview) == Some(b)
  }

  /** Whatever the keeper chooses among all collected bids is a stored public bid or a bid behind a commitment. */
  lemma ChosenIsStored(w: World, id: nat, canPreview: bool, b: BidRecord)
    requires Inv(w) && w.Exists(id) && b in CollectedBids(w, id, canPreview)
    ensures !b.shielded ==> b in PublicBids(w.At(id))
    ensures b.shielded ==> exists c :: Collected(w, id, canPreview, b, c)
  {
    hide Inv, ShieldedBids;
    var a := w.At(id);
    if b !in PublicBids(a) {
      CommitmentsStored(w, id);
      ComesFromCommitment(w, id, a.commitments, canPreview, b);
      var c :| c in a.commitments && ShieldedBidOf(w, id, c, canPreview) == Some(b);
      assert Collected(w, id, canPreview, b, c);
    }
  }

  lemma CommitmentsStored(w: World, id: nat)
    requires Inv(w) && w.Exists(id)
    ensures forall c :: c in w.At(id).commitments ==> c in w.At(id).shieldedBids
  {
    assert AuctionOk(w.At(id), SideOf(w, id));
    assert forall c :: c in w.At(id).commitments ==> c in Elements(w.At(id).commitments);
  }

  // ---- what the market makes of the keeper's choice ----

  /** The auction's own registry knows the bidder the keeper named, for a commitment whose stored handle is the
      keeper's. */
  ghost predicate Recognized(w: World, id: nat, b: BidRecord)
    requires w.Exists(id)
  {
    var c := CommitmentOf(w, id, b.bidder);
    c != 0 && c in w.At(id).shieldedBids && w.At(id).shieldedBids[c] == b.handle
  }

  function CommitmentOf(w: World, id: nat, identity: Word): Word
    requires w.Exists(id)
  {
    RegistryAt(w, w.At(id).terms.deps.registry).CommitmentFor(id, identity)
  }

  /** What that commitment holds covers the bid. */
  predicate Payable(w: World, id: nat, b: BidRecord)
    requires w.Exists(id) && Decodable(b)
  {
    var deposits := Deposits(w, w.At(id).terms.deps.vault);
    CommitmentOf(w, id, b.bidder) in deposits && Amount(b) <= deposits[CommitmentOf(w, id, b.bidder)].amount
  }

  /** A recognized bid stands on an unspent commitment of the auction, bound to the bidder. */
  lemma RecognizedStands(w: World, id: nat, b: BidRecord)
    requires Inv(w) && Backed(w) && w.Exists(id) && w.At(id).Live() && Recognized(w, id, b)
    ensures var c := CommitmentOf(w, id, b.bidder);
            var deps := w.At(id).terms.deps;
            && deps.vault in w.vaults && c in w.vaults[deps.vault].deposits
            && Stands(w, id, c, w.vaults[deps.vault].deposits[c], b.bidder)
  {
    hide Inv, NoEarlyWinners, DepositsNamed, AllBack;
    BehindShieldedBid(w, id, CommitmentOf(w, id, b.bidder));
    assert Registries.Inverse(RegistryAt(w, w.At(id).terms.deps.registry));
  }

  /** Before the proof is looked at, the market accepts an eligible shielded bid of a positive amount exactly when it
      recognizes it. */
  lemma ShieldedPassesIff(w: World, id: nat, b: BidRecord)
    requires Inv(w) && Backed(w) && w.Exists(id) && w.At(id).state == Resolving && w.At(id).terms.deps.engine != ZERO
    requires Eligible(b, w.At(id).terms.startingPrice) && Amount(b) > 0
    ensures CheckShieldedResolution(w, id, b.bidder, b.handle, Amount(b)).Committed? <==> Recognized(w, id, b)
    ensures Recognized(w, id, b) ==>
              CheckShieldedResolution(w, id, b.bidder, b.handle, Amount(b)) == Committed(CommitmentOf(w, id, b.bidder))
  {
    ZeroIsNotNumeric();
    hide DecodeNumeric, Backed, Inv;
    if Recognized(w, id, b) {
      RecognizedStands(w, id, b);
      BehindShieldedBid(w, id, CommitmentOf(w, id, b.bidder));
      IdentityNotZero(w, id, b.bidder);
    }
    ResolvingHasRequest(w, id);
  }

  lemma ResolvingHasRequest(w: World, id: nat)
    requires Inv(w) && w.Exists(id) && w.At(id).state == Resolving
    ensures w.At(id).request.Some?
  {
    assert AuctionOk(w.At(id), SideOf(w, id));
  }

  lemma IdentityNotZero(w: World, id: nat, identity: Word)
    requires Backed(w) && w.Exists(id) && CommitmentOf(w, id, identity) != 0
    ensures identity != 0 && w.At(id).terms.deps.registry in w.registries
  {
    hide NoEarlyWinners, DepositsNamed, AllBack;
    assert Registries.Inverse(RegistryAt(w, w.At(id).terms.deps.registry));
  }

  // ---- nothing the recognition rests on moves while the auction resolves ----

  lemma StepKeepsBindings(w: World, c: Call, id: nat, r: Address, identity: Word)
    requires Step(w, c).Committed? && !(c.ShieldedLock? && c.id == id)
    ensures RegistryAt(Step(w, c).value, r).CommitmentFor(id, identity) == RegistryAt(w, r).CommitmentFor(id, identity)
  {
    hide Step;
    if c.ShieldedLock? {
      LockBindsOwn(w, c, id, r, identity);
    } else if c.ResolveShielded? {
      ResolutionBindsNothing(w, c, id, r, identity);
    } else if c.ShieldedRefund? {
      RefundSpends(w, c);
    } else if c.ShieldedBid? || c.Create? {
      NoShieldedContracts(w, c);
    } else {
      CalmCall(w, c);
    }
  }

  lemma LockBindsOwn(w: World, c: Call, id: nat, r: Address, identity: Word)
    requires c.ShieldedLock? && Step(w, c).Committed? && c.id != id
    ensures RegistryAt(Step(w, c).value, r).CommitmentFor(id, identity) == RegistryAt(w, r).CommitmentFor(id, identity)
  {
    hide Vaults.Lock, Observe;
  }

  lemma ResolutionBindsNothing(w: World, c: Call, id: nat, r: Address, identity: Word)
    requires c.ResolveShielded? && Step(w, c).Committed?
    ensures RegistryAt(Step(w, c).value, r).CommitmentFor(id, identity) == RegistryAt(w, r).CommitmentFor(id, identity)
  {
    hide SubmitShieldedResolution, CheckShieldedResolution, Registries.MarkWinner, Spends;
    ResolutionSpends(w, c.id, c.identity, c.ciphertext, c.amount, c.proof);
    if SubmitShieldedResolution(w, c.id, c.identity, c.ciphertext, c.amount, c.proof).value.1 {
      MarkBindsNothing(RegistryAt(w, w.At(c.id).terms.deps.registry), c.id, c.identity);
    }
  }

  lemma LockNeedsActive(w: World, c: Call)
    requires c.ShieldedLock? && Step(w, c).Committed?
    ensures w.Exists(c.id) && w.At(c.id).state == Active
  {
    hide Vaults.Lock, Registries.Bind, Observe;
  }

  /** No identity is bound for an auction any more once it resolves. */
  lemma {:induction false} RunKeepsBindings(w: World, calls: seq<Call>, id: nat, r: Address, identity: Word)
    requires Inv(w) && w.Exists(id) && w.At(id).state == Resolving
    ensures RegistryAt(Run(w, calls), r).CommitmentFor(id, identity) == RegistryAt(w, r).CommitmentFor(id, identity)
    decreases |calls|
  {
    hide Inv, Step, RegistryAt;
    if calls != [] {
      var n := |calls| - 1;
      var before := Run(w, calls[..n]);
      RunKeepsInv(w, calls[..n]);
      RunKeepsBindings(w, calls[..n], id, r, identity);
      RunEndures(w, calls[..n], id);
      if Step(before, calls[n]).Committed? {
        if calls[n].ShieldedLock? { LockNeedsActive(before, calls[n]); }
        StepKeepsBindings(before, calls[n], id, r, identity);
      }
    }
  }

  /** So the market recognizes a bid later exactly when it did when the keeper looked, for the same commitment. */
  lemma RecognitionLasts(w: World, calls: seq<Call>, id: nat, b: BidRecord)
    requires Inv(w) && Backed(w) && w.Exists(id) && w.At(id).state == Resolving
    requires Run(w, calls).Exists(id) && Run(w, calls).At(id).state == Resolving
    ensures Recognized(Run(w, calls), id, b) <==> Recognized(w, id, b)
    ensures Recognized(w, id, b) && Decodable(b) ==> (Payable(Run(w, calls), id, b) <==> Payable(w, id, b))
  {
    hide Inv, Backed, Stands, DecodeNumeric, RegistryAt, Run;
    var c := CommitmentOf(w, id, b.bidder);
    ResolvingIsFrozen(w, calls, id);
    RunKeepsBindings(w, calls, id, w.At(id).terms.deps.registry, b.bidder);
    if Recognized(w, id, b) && Decodable(b) {
      RecognizedStands(w, id, b);
      var deposit := Deposits(w, w.At(id).terms.deps.vault)[c];
      RunKeepsStanding(w, calls, id, c, deposit, b.bidder);
      StandsMeans(Run(w, calls), id, c, deposit, b.bidder);
    }
  }

  lemma StandsMeans(w: World, id: nat, commitment: Word, deposit: Vaults.Deposit, identity: Word)
    requires w.Exists(id) && Stands(w, id, commitment, deposit, identity)
    ensures commitment in Deposits(w, w.At(id).terms.deps.vault)
    ensures Deposits(w, w.At(id).terms.deps.vault)[commitment] == deposit
  {}

  /** What the keeper chooses among public and shielded bids, submitted at any later point at which the auction still
      resolves: a public choice always passes the checks of the market, a shielded one exactly when the auction's own
      registry recognizes it. */
  lemma ChosenBidPasses(w: World, calls: seq<Call>, id: nat, canPreview: bool, b: BidRecord)
    requires Inv(w) && Backed(w) && w.Exists(id) && w.At(id).state == Resolving && w.At(id).terms.deps.engine != ZERO
    requires !b.shielded ==> w.At(id).terms.deps.adapter == LocalPrototype
    requires Best(CollectedBids(w, id, canPreview), w.At(id).terms.startingPrice) == Some(b) && Amount(b) > 0
    requires Run(w, calls).Exists(id) && Run(w, calls).At(id).state == Resolving
    ensures if b.shielded
            then CheckShieldedResolution(Run(w, calls), id, b.bidder, b.handle, Amount(b)).Committed? <==> Recognized(w, id, b)
            else CheckResolution(Run(w, calls), id, b.bidder, b.handle, Amount(b)).Passed?
  {
    hide Inv, Backed, Best, CollectedBids, CheckResolution, CheckShieldedResolution, Recognized, DecodeNumeric;
    ChosenIsStored(w, id, canPreview, b);
    ResolvingIsFrozen(w, calls, id);
    RunKeepsInv(w, calls);
    if b.shielded {
      RunKeepsBacked(w, calls);
      RecognitionLasts(w, calls, id, b);
      ShieldedPassesIff(Run(w, calls), id, b);
    } else {
      PublicWinnerPasses(Run(w, calls), id, b);
    }
  }

  /** A collected shielded bid is recognized, and its commitment pays for it, as long as the market's registry is still
      the auction's own. */
  lemma OwnRegistrySuffices(w: World, id: nat, canPreview: bool, b: BidRecord)
    requires Inv(w) && Backed(w) && w.Exists(id) && w.At(id).Live() && w.config.registry == w.At(id).terms.deps.registry
    requires b in CollectedBids(w, id, canPreview) && b.shielded && Eligible(b, w.At(id).terms.startingPrice)
    ensures Recognized(w, id, b) && Payable(w, id, b)
  {
    hide Inv, Backed, CollectedBids, DecodeNumeric;
    ChosenIsStored(w, id, canPreview, b);
    var c :| Collected(w, id, canPreview, b, c);
    CollectedFromOwnVaultOnly(w, id, c, canPreview);
    BehindShieldedBid(w, id, c);
    IdentityNeedsCommitment(w, id, c) by { RegistriesAreOk(w); }
  }

  lemma RegistriesAreOk(w: World)
    requires Backed(w)
    ensures RegistriesOk(w)
  {
    hide RegistriesOk, NoEarlyWinners, DepositsNamed, AllBack;
  }

  // ---- settling it ----

  /** A recognized bid is paid by the vault exactly when its commitment covers it, and the registry can mark it. */
  lemma RecognizedIsPaidIff(w: World, id: nat, b: BidRecord)
    requires Inv(w) && Backed(w) && w.Exists(id) && w.At(id).state == Resolving && Decodable(b) && Recognized(w, id, b)
    ensures var deps := w.At(id).terms.deps;
            && deps.vault in w.vaults && deps.registry in w.registries
            && (Vaults.SettleWinning(w.vaults[deps.vault], id, CommitmentOf(w, id, b.bidder), Amount(b)).Committed? <==> Payable(w, id, b))
            && Registries.MarkWinner(w.registries[deps.registry], id, b.bidder).Committed?
  {
    hide DecodeNumeric, Inv, Backed, Registries.MarkWinner;
    RecognizedStands(w, id, b);
    IdentityNotZero(w, id, b.bidder);
    var c := CommitmentOf(w, id, b.bidder);
    var deposit := Deposits(w, w.At(id).terms.deps.vault)[c];
    StandingIsPayable(w, id, c, deposit, b.bidder, if Payable(w, id, b) then Amount(b) else 0);
  }

  lemma StandingIsPayable(w: World, id: nat, commitment: Word, deposit: Vaults.Deposit, identity: Word, amount: nat)
    requires Inv(w) && Backed(w) && w.Exists(id) && w.At(id).state == Resolving
    requires Stands(w, id, commitment, deposit, identity) && amount <= deposit.amount
    ensures var deps := w.At(id).terms.deps;
            && deps.vault in w.vaults && deps.registry in w.registries
            && Vaults.SettleWinning(w.vaults[deps.vault], id, commitment, amount).Committed?
            && Registries.MarkWinner(w.registries[deps.registry], id, identity).Committed?
  {
    hide RegistriesOk, NoEarlyWinners, DepositsNamed, Custody, Clocked, Vaults.Sound;
    assert Backs(w, id);
    assert AuctionOk(w.At(id), SideOf(w, id));
    IdentityNeedsCommitment(w, id, commitment);
    PlatformSound(w);
    Vaults.DepositCovered(w.vaults[w.At(id).terms.deps.vault], commitment);
  }

  function ShieldedStatement(a: Auction, id: nat, b: BidRecord): Avss.Statement
    requires a.request.Some? && Decodable(b)
  {
    Avss.Statement(id, a.request.value.requestId, b.bidder, b.handle, Amount(b))
  }

  /** Once the verifier has answered, the submission of an eligible shielded bid commits exactly when the bid is
      recognized and, if the proof was accepted, paid for. */
  lemma ShieldedSubmissionIff(w: World, id: nat, b: BidRecord, proof: Avss.Envelope)
    requires Inv(w) && Backed(w) && w.Exists(id) && w.At(id).state == Resolving && w.At(id).terms.deps.engine != ZERO
    requires Eligible(b, w.At(id).terms.startingPrice) && Amount(b) > 0 && w.At(id).request.Some?
    ensures var verified := VerifyProof(w, w.At(id).terms.deps.engine, ShieldedStatement(w.At(id), id, b), proof);
            SubmitShieldedResolution(w, id, b.bidder, b.handle, Amount(b), proof).Committed? <==>
            Recognized(w, id, b) && verified.Committed? && (verified.value.1 ==> Payable(w, id, b))
  {
    hide Inv, Backed, DecodeNumeric, CheckShieldedResolution, VerifyProof, OpenRefunds, Observe, Vaults.SettleWinning,
      Registries.MarkWinner, Recognized, Payable, CommitmentOf;
    ShieldedPassesIff(w, id, b);
    if Recognized(w, id, b) { RecognizedIsPaidIff(w, id, b); }
  }

  /** With the market's registry still the auction's own, nothing but the verifier can turn a collected shielded bid
      away: the vault can pay and the registry can mark it. */
  lemma ShieldedWinnerIsPaid(w: World, id: nat, canPreview: bool, b: BidRecord, proof: Avss.Envelope)
    requires Inv(w) && Backed(w) && w.Exists(id) && w.At(id).state == Resolving && w.At(id).terms.deps.engine != ZERO
    requires w.config.registry == w.At(id).terms.deps.registry && b in CollectedBids(w, id, canPreview) && b.shielded
    requires Eligible(b, w.At(id).terms.startingPrice) && Amount(b) > 0 && w.At(id).request.Some?
    ensures SubmitShieldedResolution(w, id, b.bidder, b.handle, Amount(b), proof).Committed? <==>
            VerifyProof(w, w.At(id).terms.deps.engine, ShieldedStatement(w.At(id), id, b), proof).Committed?
  {
    hide Inv, Backed, CollectedBids, DecodeNumeric, SubmitShieldedResolution, VerifyProof, Recognized, Payable;
    OwnRegistrySuffices(w, id, canPreview, b);
    ShieldedSubmissionIff(w, id, b, proof);
  }

  /** End to end, for a shielded winner: chosen among all collected bids, attested by willing operators and submitted,
      whatever else happens in between, it is answered exactly when the auction's own registry recognizes it and, with
      enough signatures, its commitment covers it. It is accepted exactly when enough operators signed, and the market
      then records its identity, its handle and its amount. */
  lemma KeeperSettlesShielded(w: World, calls: seq<Call>, id: nat, canPreview: bool, b: BidRecord, avs: Address,
                              operators: seq<Submitter.Operator>, threshold: nat)
    requires Inv(w) && Backed(w) && w.Exists(id) && w.At(id).state == Resolving && w.At(id).request.Some?
    requires Best(CollectedBids(w, id, canPreview), w.At(id).terms.startingPrice) == Some(b) && b.shielded && Amount(b) > 0
    requires Run(w, calls).Exists(id) && Run(w, calls).At(id).state == Resolving && Attesting(Run(w, calls), id, avs)
    requires threshold <= |operators|
    requires Willing(operators, Run(w, calls).avss[avs], Avss.Digest(avs, MARKET, ShieldedStatement(w.At(id), id, b)))
    ensures var s := ShieldedStatement(w.At(id), id, b);
            var proof := Submitter.CollectProof(s, Avss.Digest(avs, MARKET, s), operators, threshold).value;
            var submitted := SubmitShieldedResolution(Run(w, calls), id, b.bidder, b.handle, Amount(b), proof);
            var enough := Run(w, calls).avss[avs].threshold <= threshold;
            && (submitted.Committed? <==> Recognized(w, id, b) && (enough ==> Payable(w, id, b)))
            && (submitted.Committed? ==>
                  && (submitted.value.1 <==> enough)
                  && (enough ==>
                        && submitted.value.0.Exists(id) && submitted.value.0.At(id).state == Finalized
                        && submitted.value.0.At(id).outcome == Outcome(ZERO, b.handle, Amount(b), b.bidder)))
  {
    hide Inv, Backed, Best, CollectedBids, DecodeNumeric, Willing, SubmitShieldedResolution, Recognized, Payable, Run;
    ResolvingIsFrozen(w, calls, id);
    RunKeepsInv(w, calls);
    RunKeepsBacked(w, calls);
    RecognitionLasts(w, calls, id, b);
    AttestedShieldedSettles(Run(w, calls), id, b, avs, operators, threshold);
  }

  lemma AttestedShieldedSettles(w: World, id: nat, b: BidRecord, avs: Address, operators: seq<Submitter.Operator>, threshold: nat)
    requires Inv(w) && Backed(w) && w.Exists(id) && w.At(id).state == Resolving && Attesting(w, id, avs)
    requires Eligible(b, w.At(id).terms.startingPrice) && Amount(b) > 0 && w.At(id).request.Some?
    requires threshold <= |operators|
    requires Willing(operators, w.avss[avs], Avss.Digest(avs, MARKET, ShieldedStatement(w.At(id), id, b)))
    ensures var s := ShieldedStatement(w.At(id), id, b);
            var proof := Submitter.CollectProof(s, Avss.Digest(avs, MARKET, s), operators, threshold).value;
            var submitted := SubmitShieldedResolution(w, id, b.bidder, b.handle, Amount(b), proof);
            var enough := w.avss[avs].threshold <= threshold;
            && (submitted.Committed? <==> Recognized(w, id, b) && (enough ==> Payable(w, id, b)))
            && (submitted.Committed? ==>
                  && (submitted.value.1 <==> enough)
                  && (enough ==>
                        && submitted.value.0.Exists(id) && submitted.value.0.At(id).state == Finalized
                        && submitted.value.0.At(id).outcome == Outcome(ZERO, b.handle, Amount(b), b.bidder)))
  {
    hide Inv, Backed, DecodeNumeric, SubmitShieldedResolution, Avss.Verify, Recognized, Payable;
    var s := ShieldedStatement(w.At(id), id, b);
    var proof := Submitter.CollectProof(s, Avss.Digest(avs, MARKET, s), operators, threshold).value;
    ProofAnswered(w.avss[avs], avs, s, operators, threshold);
    ShieldedSubmissionIff(w, id, b, proof);
    assert VerifyProof(w, w.At(id).terms.deps.engine, s, proof).Committed?;
    Quorum.VerifiedMeansAttested(w, id, s, proof);
    if SubmitShieldedResolution(w, id, b.bidder, b.handle, Amount(b), proof).Committed? {
      Quorum.ShieldedResolutionIffQuorum(w, id, b.bidder, b.handle, Amount(b), proof);
    }
  }

  // ---- a rotated registry ----

  /** The keeper's pick in the example, once the market has moved on to a registry that knows nobody: its bidder is the
      commitment itself. */
  function Misnamed(): BidRecord {
    BidRecord(Examples.COMMITMENT, Examples.Handle(), 5, true)
  }

  function RotatedCalls(): seq<Call> {
    Examples.ResolvingCalls() + [DeployRegistry(Examples.OTHER_REGISTRY)] + [SetRegistry(Examples.OTHER_REGISTRY)]
  }

  function Rotated(): World {
    Examples.InResolution().(
      config := Examples.OwnDeps().(registry := Examples.OTHER_REGISTRY),
      registries := map[Examples.REGISTRY := Examples.BoundRegistry(), Examples.OTHER_REGISTRY := Registries.EMPTY_REGISTRY])
  }

  lemma RotatedRuns()
    ensures Examples.Reaches(RotatedCalls(), Rotated())
  {
    Examples.ResolvingRuns();
    hide Examples.Reaches, Examples.ResolvingCalls, Step, Examples.ResolvingAuction, Examples.LockedVault, Examples.BoundRegistry;
    var r0, w0 := Examples.ResolvingCalls(), Examples.InResolution();
    var c1, c2 := DeployRegistry(Examples.OTHER_REGISTRY), SetRegistry(Examples.OTHER_REGISTRY);
    Examples.Deploy(r0, w0, c1);
    Examples.Configure(r0 + [c1], Environment(w0, c1).value, c2);
  }

  /** It does happen: the owner sets another registry while an auction with one shielded bid resolves. The keeper picks
      that bid, but under a name the auction's own registry does not recognize, and the market refuses it. */
  lemma RotatedRegistryFails()
    ensures var w := Run(Examples.Genesis0(), RotatedCalls());
            && w.Exists(1) && w.At(1).state == Resolving && w.At(1).terms.deps.engine != ZERO
            && Best(CollectedBids(w, 1, true), w.At(1).terms.startingPrice) == Some(Misnamed())
            && !Recognized(w, 1, Misnamed())
            && CheckShieldedResolution(w, 1, Misnamed().bidder, Misnamed().handle, 5).Reverted?
  {
    RotatedRuns();
    PicksMisnamed();
    RefusesMisnamed();
  }

  lemma PicksMisnamed()
    ensures var w := Rotated();
            w.Exists(1) && Best(CollectedBids(w, 1, true), w.At(1).terms.startingPrice) == Some(Misnamed())
  {
    var w := Rotated();
    DecodeEncode(5);
    assert w.At(1).commitments == [Examples.COMMITMENT] && w.At(1).bidders == [];
    assert ShieldedBidOf(w, 1, Examples.COMMITMENT, true) == Some(Misnamed());
    assert ShieldedBids(w, 1, [Examples.COMMITMENT], true) == [Misnamed()] by {
      assert [Examples.COMMITMENT][..0] == [];
    }
    assert CollectedBids(w, 1, true) == [Misnamed()];
    assert [Misnamed()][..0] == [];
  }

  lemma RefusesMisnamed()
    ensures var w := Rotated();
            && w.Exists(1) && w.At(1).state == Resolving && w.At(1).terms.deps.engine != ZERO
            && !Recognized(w, 1, Misnamed())
            && CheckShieldedResolution(w, 1, Misnamed().bidder, Misnamed().handle, 5).Reverted?
  {}
}
