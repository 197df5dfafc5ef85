/** From the job in the keeper's store to the auction on the chain: what is stored is what settles. */
module KeeperEndToEnd {
  import opened Prelude
  import opened CiphertextEncoding
  import opened MarketState
  import opened MarketTransactions
  import opened MarketInvariant
  import opened WinnerSelection
  import opened CofheDispatcher
  import opened AuctionStateStore
  import opened KeeperPipeline
  import opened KeeperAgreement
  import Submitter = AvsSubmitter
  import Avss = EigenLayerAvs

  /** What the submitter has signed and sends for a stored artifact, under the request the market has pending. */
  function PayloadOf(a: Artifact, request: Avss.RequestId): Avss.Statement {
    Avss.Statement(a.auctionId, request, a.winner, a.ciphertext, a.amount)
  }

  /** What the local client answers to a batch. */
  ghost predicate LocalAnswers(jobs: seq<Job>, rs: seq<Resolution>, latency: nat) {
    |rs| == |jobs| && forall i :: 0 <= i < |jobs| ==> rs[i] == LocalResolution(jobs[i], latency)
  }

  lemma BatchHasDistinctRequests(s: Store, max: nat)
    requires Consistent(s) && Distinct(s.jobOrder)
    ensures forall i, j :: 0 <= i < j < |PendingJobs(s, max)| ==> PendingJobs(s, max)[i].requestId != PendingJobs(s, max)[j].requestId
  {
    var ids := Listed(s.jobOrder, JobTimes(s), max);
    ListedDistinct(s.jobOrder, JobTimes(s), max);
    forall i | 0 <= i < |ids| ensures PendingJobs(s, max)[i].requestId == ids[i] { assert ids[i] in ids && ids[i] in s.jobs; }
  }

  lemma LocalAnswersStayWithin(s: Store, max: nat, rs: seq<Resolution>, latency: nat)
    requires LocalAnswers(PendingJobs(s, max), rs, latency)
    ensures WithinBatch(s, max, Some(rs))
  {
    hide PendingJobs, Best;
    var jobs := PendingJobs(s, max);
    forall r | r in rs ensures r.requestId in Requests(jobs) {
      var i :| 0 <= i < |rs| && rs[i] == r;
      assert jobs[i] in jobs && r.requestId == jobs[i].requestId;
    }
  }

  /** A tick with the local client stores, for every job of the batch, exactly that job's local resolution, still to be
      submitted. */
  lemma LocalTickStores(s: Store, max: nat, rs: seq<Resolution>, latency: nat, at: nat, k: nat)
    requires Consistent(s) && Distinct(s.jobOrder) && LocalAnswers(PendingJobs(s, max), rs, latency) && k < |rs|
    ensures var t := DispatchTick(s, max, Some(rs), at);
            var job := PendingJobs(s, max)[k];
            && job.requestId in t.artifacts && Writes(t.artifacts[job.requestId], LocalResolution(job, latency), at)
            && job.requestId in t.jobs && t.jobs[job.requestId].dispatchedAt == Some(at)
  {
    hide PendingJobs, DispatchTick, Writes, Best, Requests;
    var jobs := PendingJobs(s, max);
    BatchHasDistinctRequests(s, max);
    LocalAnswersStayWithin(s, max, rs, latency);
    DispatchWrites(s, max, Some(rs), at);
    forall j | k < j < |rs| ensures rs[j].requestId != rs[k].requestId {
      assert rs[j].requestId == jobs[j].requestId && rs[k].requestId == jobs[k].requestId;
    }
    assert LastTo(rs, k);
    assert rs[k] in rs && rs[k].requestId == jobs[k].requestId;
    BatchIsPending(s, max);
    assert jobs[k] in jobs;
    assert jobs[k].requestId in Requests(jobs) by { InRequests(jobs, k); }
  }

  lemma InRequests(jobs: seq<Job>, k: nat)
    requires k < |jobs|
    ensures jobs[k].requestId in Requests(jobs)
  {
    assert jobs[k] in jobs;
  }

  /** What such an artifact says, whatever was chosen: nobody with nothing, or exactly the chosen bidder, its own handle
      and the amount that handle stands for, and whether it bid behind the shield. */
  lemma ArtifactNamesBest(job: Job, latency: nat, a: Artifact, at: nat)
    requires Writes(a, LocalResolution(job, latency), at)
    ensures a.auctionId == job.auctionId && a.requestId == job.requestId && a.submittedAt == None
    ensures var best := Best(job.bids, job.startingPrice);
            if best.None? then a.winner == 0 && a.ciphertext == 0 && a.amount == 0 && a.kind == Some(Nobody)
            else
              && a.winner == best.value.bidder && a.ciphertext == best.value.handle && a.amount == Amount(best.value)
              && a.kind == Some(if best.value.shielded then Shielded else Public)
  {
    hide Best, DecodeNumeric;
  }

  /** The whole way, for an auction with public bids: its job is in the batch, the local client answers, the artifact is
      stored, willing operators sign what it says, and it is sent at any later point at which the auction still resolves.
      Unless the winner bid nothing, the market answers, accepts exactly with enough signatures, and records exactly what
      was stored. */
  lemma StoredArtifactSettles(s: Store, max: nat, rs: seq<Resolution>, latency: nat, at: nat, k: nat,
                              w: World, calls: seq<Call>, id: nat, canPreview: bool, request: Word, handles: (Word, Word),
                              avs: Address, operators: seq<Submitter.Operator>, threshold: nat)
    requires Consistent(s) && Distinct(s.jobOrder) && LocalAnswers(PendingJobs(s, max), rs, latency) && k < |rs|
    requires Inv(w) && w.Exists(id) && w.At(id).state == Resolving && w.At(id).terms.deps.adapter == LocalPrototype
    requires PendingJobs(s, max)[k] == JobFor(w, id, canPreview, request, handles)
    requires w.At(id).commitments == [] && w.At(id).request.Some?
    requires Run(w, calls).Exists(id) && Run(w, calls).At(id).state == Resolving && Attesting(Run(w, calls), id, avs)
    requires threshold <= |operators|
    requires var r := LocalResolution(JobFor(w, id, canPreview, request, handles), latency);
             Submittable(r) && Willing(operators, Run(w, calls).avss[avs], Avss.Digest(avs, MARKET, StatementFor(w.At(id), id, r)))
    ensures request in DispatchTick(s, max, Some(rs), at).artifacts
    ensures var a := DispatchTick(s, max, Some(rs), at).artifacts[request];
            var payload := PayloadOf(a, w.At(id).request.value.requestId);
            var proof := Submitter.CollectProof(payload, Avss.Digest(avs, MARKET, payload), operators, threshold).value;
            var submitted := SubmitResolution(Run(w, calls), id, a.winner, a.ciphertext, a.amount, proof);
            && a.auctionId == id && a.submittedAt == None && a.kind != Some(Shielded)
            && submitted.Committed?
            && (submitted.value.1 <==> Run(w, calls).avss[avs].threshold <= threshold)
            && (submitted.value.1 ==>
                  && submitted.value.0.Exists(id) && submitted.value.0.At(id).state == Finalized
                  && submitted.value.0.At(id).outcome == Outcome(a.winner, a.ciphertext, a.amount, 0))
  {
    hide Inv, PendingJobs, DispatchTick, CheckResolution, SubmitResolution, Submitter.CollectProof, Submittable, Willing,
      DecodeNumeric, Best, CollectedBids, Consistent;
    var job := JobFor(w, id, canPreview, request, handles);
    LocalTickStores(s, max, rs, latency, at, k);
    ArtifactIsResolution(job, latency, DispatchTick(s, max, Some(rs), at).artifacts[request], at);
    PublicPick(w, id, canPreview, job);
    KeeperSettlesAuction(w, calls, id, canPreview, request, handles, latency, avs, operators, threshold);
  }

  lemma ArtifactIsResolution(job: Job, latency: nat, a: Artifact, at: nat)
    requires Writes(a, LocalResolution(job, latency), at)
    ensures var r := LocalResolution(job, latency);
            && a.auctionId == job.auctionId && a.submittedAt == None && a.kind == Some(r.kind)
            && a.winner == WinnerOf(r) && a.ciphertext == r.ciphertext && a.amount == r.amount
    ensures var best := Best(job.bids, job.startingPrice);
            a.kind == Some(Shielded) <==> best.Some? && best.value.shielded
  {
    hide Best, DecodeNumeric;
  }

  lemma PublicPick(w: World, id: nat, canPreview: bool, job: Job)
    requires w.Exists(id) && w.At(id).commitments == [] && job.bids == CollectedBids(w, id, canPreview)
    ensures var best := Best(job.bids, job.startingPrice); best.Some? ==> !best.value.shielded
  {
    hide Best;
    assert CollectedBids(w, id, canPreview) == PublicBids(w.At(id));
  }
}
