/** The keeper and the market agree: what the keeper collects, chooses and submits is what the market settles. */
module KeeperAgreement {
  import opened Prelude
  import opened CiphertextEncoding
  import opened MarketState
  import opened MarketTransactions
  import opened MarketInvariant
  import opened MarketPreservation
  import opened MarketLifecycle
  import opened WinnerSelection
  import Dispatch = CofheDispatcher
  import Submitter = AvsSubmitter
  import Vaults = ShieldedEscrowVault
  import Avss = EigenLayerAvs
  import Quorum = MarketQuorum

  // ---- collecting the bids ----

  function PublicBid(a: Auction, bidder: Address): BidRecord {
    BidRecord(bidder, Get(a.bids, bidder), Get(a.escrow, bidder), false)
  }

  function PublicBids(a: Auction): (r: seq<BidRecord>)
    ensures |r| == |a.bidders| && forall i :: 0 <= i < |r| ==> r[i] == PublicBid(a, a.bidders[i])
  {
    seq(|a.bidders|, i requires 0 <= i < |a.bidders| => PublicBid(a, a.bidders[i]))
  }

  /** One shielded commitment, by the market's current vault and registry; None when the keeper skips it. */
  function ShieldedBidOf(w: World, id: nat, commitment: Word, canPreview: bool): Option<BidRecord>
    requires w.Exists(id) && w.config.vault in w.vaults
  {
    var vault := w.vaults[w.config.vault];
    var deposit := vault.DepositAt(commitment);
    if deposit.auctionId != id || vault.BookAt(id).unlocked || deposit.claimed || !canPreview then None else
    var identity := if w.config.registry in w.registries then w.registries[w.config.registry].IdentityFor(id, commitment) else 0;
    Some(BidRecord(if identity == 0 then commitment else identity, Get(w.At(id).shieldedBids, commitment), deposit.amount, true))
  }

  function ShieldedBids(w: World, id: nat, commitments: seq<Word>, canPreview: bool): seq<BidRecord>
    requires w.Exists(id) && w.config.vault in w.vaults
  {
    if commitments == [] then [] else
    var n := |commitments| - 1;
    var last := ShieldedBidOf(w, id, commitments[n], canPreview);
    ShieldedBids(w, id, commitments[..n], canPreview) + if last.Some? then [last.value] else []
  }

  function CollectedBids(w: World, id: nat, canPreview: bool): seq<BidRecord>
    requires w.Exists(id)
  {
    var a := w.At(id);
    PublicBids(a) + if w.config.vault in w.vaults then ShieldedBids(w, id, a.commitments, canPreview) else []
  }

  /** The keeper reads the chain; nothing changes between its reads. */
  method CollectEncryptedBids(w: World, id: nat, canPreview: bool) returns (bids: seq<BidRecord>)
    requires w.Exists(id)
    ensures bids == CollectedBids(w, id, canPreview)
  {
    var a := w.At(id);
    bids := [];
    var i := 0;
    while i < |a.bidders|
      invariant 0 <= i <= |a.bidders|
      invariant bids == PublicBids(a)[..i]
    {
      bids := bids + [PublicBid(a, a.bidders[i])];
      i := i + 1;
    }
    if |a.commitments| > 0 && w.config.vault in w.vaults {
      i := 0;
      while i < |a.commitments|
        invariant 0 <= i <= |a.commitments|
        invariant bids == PublicBids(a) + ShieldedBids(w, id, a.commitments[..i], canPreview)
      {
        assert a.commitments[..i + 1][..i] == a.commitments[..i];
        var bid := ShieldedBidOf(w, id, a.commitments[i], canPreview);
        if bid.Some? { bids := bids + [bid.value]; }
        i := i + 1;
      }
      assert a.commitments[..i] == a.commitments;
    }
  }

  // ---- the market's public bids pass the keeper's filters ----

  /** Every stored public bid decodes, reaches the starting price and is covered: the keeper drops none. */
  lemma PublicBidsAreEligible(w: World, id: nat)
    requires Inv(w) && w.Exists(id) && w.At(id).Live() && w.At(id).terms.deps.adapter == LocalPrototype
    ensures forall b :: b in PublicBids(w.At(id)) ==> Eligible(b, w.At(id).terms.startingPrice)
  {
    hide DecodeNumeric;
    var a := w.At(id);
    assert AuctionOk(a, SideOf(w, id));
    forall b | b in PublicBids(a) ensures Eligible(b, a.terms.startingPrice) {
      var i :| 0 <= i < |a.bidders| && PublicBids(a)[i] == b;
      assert a.bidders[i] in Elements(a.bidders);
      assert BidCovered(a, a.bidders[i]);
    }
  }

  /** While it is resolving, an auction does not move at all: bids, escrow, request and all. */
  lemma {:induction false} ResolvingIsFrozen(w: World, calls: seq<Call>, id: nat)
    requires Inv(w) && w.Exists(id) && w.At(id).state == Resolving
    ensures Run(w, calls).Exists(id)
    ensures Run(w, calls).At(id).state == Resolving ==> Run(w, calls).At(id) == w.At(id)
    decreases |calls|
  {
    hide Inv, Step;
    RunEndures(w, calls, id);
    if calls != [] {
      var n := |calls| - 1;
      var before := Run(w, calls[..n]);
      RunKeepsInv(w, calls[..n]);
      RunEndures(w, calls[..n], id);
      ResolvingIsFrozen(w, calls[..n], id);
      if Step(before, calls[n]).Committed? { StepEvolves(before, calls[n]); }
    }
  }

  /** Before the proof is looked at, the market accepts a stored public bid as the winner exactly when its amount is
      positive and the auction has a settlement engine. */
  lemma PublicWinnerPasses(w: World, id: nat, b: BidRecord)
    requires Inv(w) && w.Exists(id) && w.At(id).state == Resolving && w.At(id).terms.deps.adapter == LocalPrototype
    requires b in PublicBids(w.At(id))
    ensures Eligible(b, w.At(id).terms.startingPrice)
    ensures CheckResolution(w, id, b.bidder, b.handle, Amount(b)).Passed? <==>
            Amount(b) > 0 && w.At(id).terms.deps.engine != ZERO
  {
    PublicBidsAreEligible(w, id);
    hide DecodeNumeric;
    var a := w.At(id);
    assert AuctionOk(a, SideOf(w, id));
    var i :| 0 <= i < |a.bidders| && PublicBids(a)[i] == b;
    assert a.bidders[i] in Elements(a.bidders);
    if b.handle == 0 { ZeroIsNotNumeric(); }
  }

  lemma NoWinnerPasses(w: World, id: nat)
    requires Inv(w) && w.Exists(id) && w.At(id).state == Resolving
    ensures CheckResolution(w, id, ZERO, 0, 0).Passed? <==> w.At(id).terms.deps.engine != ZERO
  {
    assert AuctionOk(w.At(id), SideOf(w, id));
  }

  // ---- from the collected bids to the settled auction ----

  function JobFor(w: World, id: nat, canPreview: bool, request: Word, handles: (Word, Word)): Dispatch.Job
    requires w.Exists(id)
  {
    Dispatch.Job(id, request, handles.0, handles.1, w.At(id).terms.startingPrice, CollectedBids(w, id, canPreview))
  }

  /** The job is about this auction and this request, at the auction's own starting price, with everything collected. */
  lemma JobIsAbout(w: World, id: nat, canPreview: bool, request: Word, handles: (Word, Word))
    requires w.Exists(id)
    ensures var job := JobFor(w, id, canPreview, request, handles);
            && job.auctionId == id && job.requestId == request && job.startingPrice == w.At(id).terms.startingPrice
            && job.winnerHandle == handles.0 && job.amountHandle == handles.1
            && (forall b :: b in PublicBids(w.At(id)) ==> b in job.bids)
  {
    hide ShieldedBids;
  }

  /** The winner word the submitter sends: an absent winner is the zero address. */
  function WinnerOf(r: Dispatch.Resolution): Word {
    if r.winner.Some? then r.winner.value else 0
  }

  /** A resolution names nobody exactly when nobody bid, otherwise the first of the highest public bids. */
  ghost predicate Resolves(a: Auction, r: Dispatch.Resolution) {
    && (r.winner.None? <==> a.bidders == [])
    && (r.winner.None? ==> r.ciphertext == 0 && r.amount == 0)
    && (r.winner.Some? ==> exists k: nat :: Wins(PublicBids(a), a.terms.startingPrice, k) && Carries(r, PublicBids(a)[k]))
  }

  predicate Carries(r: Dispatch.Resolution, b: BidRecord) {
    Decodable(b) && r.winner == Some(b.bidder) && r.ciphertext == b.handle && r.amount == Amount(b)
  }

  /** What the keeper resolves for an auction with public bids only. */
  lemma PublicResolution(w: World, id: nat, canPreview: bool, request: Word, handles: (Word, Word), latency: nat)
    requires Inv(w) && w.Exists(id) && w.At(id).Live() && w.At(id).terms.deps.adapter == LocalPrototype
    requires w.At(id).commitments == []
    ensures Resolves(w.At(id), Dispatch.LocalResolution(JobFor(w, id, canPreview, request, handles), latency))
  {
    hide Inv, DecodeNumeric, Best;
    var a := w.At(id);
    assert CollectedBids(w, id, canPreview) == PublicBids(a);
    PublicBidsAreEligible(w, id);
    BestWins(PublicBids(a), a.terms.startingPrice);
    if a.bidders != [] { assert PublicBids(a)[0] in PublicBids(a); }
  }

  /** A resolution is worth submitting unless its winner bid nothing. */
  ghost predicate Submittable(r: Dispatch.Resolution) {
    r.winner.Some? ==> r.amount > 0
  }

  lemma ResolutionPasses(w: World, id: nat, r: Dispatch.Resolution)
    requires Inv(w) && w.Exists(id) && w.At(id).state == Resolving && w.At(id).terms.deps.adapter == LocalPrototype
    requires Resolves(w.At(id), r)
    ensures CheckResolution(w, id, WinnerOf(r), r.ciphertext, r.amount).Passed? <==>
            Submittable(r) && w.At(id).terms.deps.engine != ZERO
  {
    hide Inv, DecodeNumeric, CheckResolution;
    var a := w.At(id);
    if r.winner.Some? {
      var k: nat :| Wins(PublicBids(a), a.terms.startingPrice, k) && Carries(r, PublicBids(a)[k]);
      PublicWinnerPasses(w, id, PublicBids(a)[k]);
    } else {
      NoWinnerPasses(w, id);
    }
  }

  /** The keeper's resolution, submitted at any later point of the run at which the auction still resolves, passes
      every check before the proof exactly when it is worth submitting and the auction has an engine. */
  lemma PublicResolutionPasses(w: World, calls: seq<Call>, id: nat, canPreview: bool, request: Word,
                               handles: (Word, Word), latency: nat)
    requires Inv(w) && w.Exists(id) && w.At(id).state == Resolving && w.At(id).terms.deps.adapter == LocalPrototype
    requires w.At(id).commitments == []
    requires Run(w, calls).Exists(id) && Run(w, calls).At(id).state == Resolving
    ensures var r := Dispatch.LocalResolution(JobFor(w, id, canPreview, request, handles), latency);
            CheckResolution(Run(w, calls), id, WinnerOf(r), r.ciphertext, r.amount).Passed? <==>
            Submittable(r) && w.At(id).terms.deps.engine != ZERO
  {
    hide Inv, CheckResolution, JobFor, Dispatch.LocalResolution, Resolves, Submittable;
    var r := Dispatch.LocalResolution(JobFor(w, id, canPreview, request, handles), latency);
    PublicResolution(w, id, canPreview, request, handles, latency);
    ResolvingIsFrozen(w, calls, id);
    RunKeepsInv(w, calls);
    ResolutionPasses(Run(w, calls), id, r);
  }

  /** The attestation service the auction's engine would ask now. */
  ghost predicate Attesting(w: World, id: nat, avs: Address)
    requires w.Exists(id)
  {
    var engine := w.At(id).terms.deps.engine;
    engine != ZERO && engine in w.engines && w.engines[engine] == avs && avs != ZERO && avs in w.avss
  }

  /** The statement the operators are asked to sign; a resolving auction always has a request. */
  function StatementFor(a: Auction, id: nat, r: Dispatch.Resolution): Avss.Statement
    requires a.request.Some?
  {
    Avss.Statement(id, a.request.value.requestId, WinnerOf(r), r.ciphertext, r.amount)
  }

  /** Different operators, all registered with the verifier, whose signatures on the digest are their own. */
  ghost predicate Willing(operators: seq<Submitter.Operator>, avs: Avss.Avs, digest: Avss.Digest) {
    && Distinct(Submitter.Addresses(operators))
    && forall o :: o in operators ==> o.address in avs.operators && Submitter.Honest(o, digest)
  }

  /** A resolution that passes its checks, attested by willing operators, is recorded exactly when there are enough. */
  lemma AttestedResolutionSettles(w: World, id: nat, r: Dispatch.Resolution, avs: Address,
                                  operators: seq<Submitter.Operator>, threshold: nat)
    requires w.Exists(id) && w.At(id).request.Some? && Attesting(w, id, avs)
    requires CheckResolution(w, id, WinnerOf(r), r.ciphertext, r.amount).Passed?
    requires threshold <= |operators|
    requires Willing(operators, w.avss[avs], Avss.Digest(avs, MARKET, StatementFor(w.At(id), id, r)))
    ensures var s := StatementFor(w.At(id), id, r);
            var proof := Submitter.CollectProof(s, Avss.Digest(avs, MARKET, s), operators, threshold).value;
            var submitted := SubmitResolution(w, id, WinnerOf(r), r.ciphertext, r.amount, proof);
            && submitted.Committed?
            && (submitted.value.1 <==> w.avss[avs].threshold <= threshold)
            && (submitted.value.1 ==>
                  && submitted.value.0.Exists(id) && submitted.value.0.At(id).state == Finalized
                  && submitted.value.0.At(id).outcome == Outcome(WinnerOf(r), r.ciphertext, r.amount, 0))
  {
    hide CheckResolution, Avss.Verify, OpenRefunds, Observe;
    var s := StatementFor(w.At(id), id, r);
    var proof := Submitter.CollectProof(s, Avss.Digest(avs, MARKET, s), operators, threshold).value;
    ProofAnswered(w.avss[avs], avs, s, operators, threshold);
    assert SubmitResolution(w, id, WinnerOf(r), r.ciphertext, r.amount, proof).Committed?;
    Quorum.ResolutionIffQuorum(w, id, WinnerOf(r), r.ciphertext, r.amount, proof);
  }

  /** With such operators the verifier always answers: too few signatures are refused without a revert. */
  lemma ProofAnswered(avs: Avss.Avs, self: Address, s: Avss.Statement, operators: seq<Submitter.Operator>, threshold: nat)
    requires threshold <= |operators| && Willing(operators, avs, Avss.Digest(self, MARKET, s))
    ensures var proof := Submitter.CollectProof(s, Avss.Digest(self, MARKET, s), operators, threshold).value;
            Avss.Verify(avs, self, MARKET, s, proof) == Committed((avs, avs.threshold <= threshold))
  {
    Submitter.CollectedProofConvinces(avs, self, MARKET, s, operators, threshold);
  }

  /** End to end. The keeper collects the bids of a resolving auction, resolves them locally, has willing operators
      sign and submits, whatever else happens on the chain in between. Unless its winner bid nothing, the submission
      is answered, it is accepted exactly when the keeper collects as many signatures as the verifier demands, the
      market then records exactly the keeper's outcome, and no bidder had bid more. */
  lemma KeeperSettlesAuction(w: World, calls: seq<Call>, id: nat, canPreview: bool, request: Word, handles: (Word, Word),
                             latency: nat, avs: Address, operators: seq<Submitter.Operator>, threshold: nat)
    requires Inv(w) && w.Exists(id) && w.At(id).state == Resolving && w.At(id).terms.deps.adapter == LocalPrototype
    requires w.At(id).commitments == [] && w.At(id).request.Some?
    requires Run(w, calls).Exists(id) && Run(w, calls).At(id).state == Resolving && Attesting(Run(w, calls), id, avs)
    requires threshold <= |operators|
    requires var r := Dispatch.LocalResolution(JobFor(w, id, canPreview, request, handles), latency);
             Submittable(r) && Willing(operators, Run(w, calls).avss[avs], Avss.Digest(avs, MARKET, StatementFor(w.At(id), id, r)))
    ensures var r := Dispatch.LocalResolution(JobFor(w, id, canPreview, request, handles), latency);
            var s := StatementFor(w.At(id), id, r);
            var proof := Submitter.CollectProof(s, Avss.Digest(avs, MARKET, s), operators, threshold).value;
            var submitted := SubmitResolution(Run(w, calls), id, WinnerOf(r), r.ciphertext, r.amount, proof);
            && submitted.Committed?
            && (submitted.value.1 <==> Run(w, calls).avss[avs].threshold <= threshold)
            && (submitted.value.1 ==>
                  && submitted.value.0.Exists(id) && submitted.value.0.At(id).state == Finalized
                  && submitted.value.0.At(id).outcome == Outcome(WinnerOf(r), r.ciphertext, r.amount, 0))
            && (forall b :: b in PublicBids(w.At(id)) ==> Decodable(b) && Amount(b) <= r.amount)
  {
    hide Inv, CheckResolution, JobFor, Dispatch.LocalResolution, Submitter.CollectProof, SubmitResolution, Submittable;
    hide Willing, DecodeNumeric;
    var r := Dispatch.LocalResolution(JobFor(w, id, canPreview, request, handles), latency);
    ResolvingIsFrozen(w, calls, id);
    PublicResolutionPasses(w, calls, id, canPreview, request, handles, latency);
    AttestedResolutionSettles(Run(w, calls), id, r, avs, operators, threshold);
    NobodyBidMore(w, id, canPreview, request, handles, latency);
  }

  lemma NobodyBidMore(w: World, id: nat, canPreview: bool, request: Word, handles: (Word, Word), latency: nat)
    requires Inv(w) && w.Exists(id) && w.At(id).Live() && w.At(id).terms.deps.adapter == LocalPrototype
    requires w.At(id).commitments == []
    ensures var r := Dispatch.LocalResolution(JobFor(w, id, canPreview, request, handles), latency);
            forall b :: b in PublicBids(w.At(id)) ==> Decodable(b) && Amount(b) <= r.amount
  {
    hide Inv, DecodeNumeric, JobFor, Dispatch.LocalResolution;
    PublicBidsAreEligible(w, id);
    PublicResolution(w, id, canPreview, request, handles, latency);
  }
}
