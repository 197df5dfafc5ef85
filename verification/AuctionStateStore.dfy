/** The keeper's store: tracked auctions, finalize attempts, dispatch jobs and resolution artifacts. */
module AuctionStateStore {
  import opened Prelude
  import opened WinnerSelection
  import opened CofheDispatcher

  datatype Tracked = Tracked(state: nat, endTime: nat, deposit: Option<nat>, trackedAt: nat,
                             lastAttemptAt: Option<nat>, retryCount: nat)

  datatype Attempt = Attempt(auctionId: nat, nonce: nat, keeper: nat, success: bool, retryCount: nat, backoff: nat,
                             txHash: Option<string>, gasUsed: Option<nat>, incentive: Option<nat>,
                             recordedAt: nat, error: Option<string>)

  datatype Race = Race(auctionId: nat, nonce: nat, keeper: nat, detectedAt: nat)

  datatype StoredJob = StoredJob(job: Job, enqueuedAt: nat, dispatchedAt: Option<nat>)

  /** The kind of winner is optional in old records. */
  datatype Artifact = Artifact(requestId: Word, auctionId: nat, winner: Word, kind: Option<WinnerKind>, ciphertext: Word,
                               proof: Proof, amount: nat, storedAt: nat, submittedAt: Option<nat>)

  /** The maps are read in the order of their insertions, so that order is kept beside them. */
  datatype Store = Store(auctions: map<nat, Tracked>, auctionOrder: seq<nat>, attempts: seq<Attempt>, races: seq<Race>,
                         jobs: map<Word, StoredJob>, jobOrder: seq<Word>,
                         artifacts: map<Word, Artifact>, artifactOrder: seq<Word>)

  const EMPTY_STORE := Store(map[], [], [], [], map[], [], map[], [])

  // ---- what the operations do ----

  function Upserted(s: Store, id: nat, record: Tracked): Store {
    s.(auctions := s.auctions[id := record],
       auctionOrder := if id in s.auctions then s.auctionOrder else s.auctionOrder + [id])
  }

  function UpdatedState(s: Store, id: nat, state: nat, at: nat): Store {
    if id !in s.auctions then s
    else s.(auctions := s.auctions[id := s.auctions[id].(state := state, trackedAt := at)])
  }

  function Recorded(s: Store, a: Attempt): Store {
    s.(attempts := s.attempts + [a],
       auctions := if a.auctionId in s.auctions
                   then s.auctions[a.auctionId := s.auctions[a.auctionId].(
                          lastAttemptAt := Some(a.recordedAt), retryCount := a.retryCount)]
                   else s.auctions)
  }

  /** A request that has a job or an artifact is ignored. */
  function Enqueue(s: Store, job: Job, at: nat): Store {
    if job.requestId in s.jobs || job.requestId in s.artifacts then s
    else s.(jobs := s.jobs[job.requestId := StoredJob(job, at, None)], jobOrder := s.jobOrder + [job.requestId])
  }

  function Dispatched(s: Store, id: Word, at: nat): Store {
    if id !in s.jobs then s else s.(jobs := s.jobs[id := s.jobs[id].(dispatchedAt := Some(at))])
  }

  function Stored(s: Store, a: Artifact): Store {
    s.(artifacts := s.artifacts[a.requestId := a],
       artifactOrder := if a.requestId in s.artifacts then s.artifactOrder else s.artifactOrder + [a.requestId])
  }

  function Submitted(s: Store, id: Word, at: nat): Store {
    if id !in s.artifacts then s else s.(artifacts := s.artifacts[id := s.artifacts[id].(submittedAt := Some(at))])
  }

  // ---- the pending lists: filter, stable sort by time, slice ----

  datatype Timed = Timed(id: Word, at: nat)

  function InsertByTime(sorted: seq<Timed>, t: Timed): (r: seq<Timed>)
    ensures multiset(r) == multiset(sorted) + multiset{t}
    ensures |r| == |sorted| + 1
  {
    if sorted == [] || sorted[|sorted| - 1].at <= t.at then sorted + [t] else
    var last := sorted[|sorted| - 1];
    assert sorted == sorted[..|sorted| - 1] + [last];
    InsertByTime(sorted[..|sorted| - 1], t) + [last]
  }

  function SortByTime(list: seq<Timed>): (r: seq<Timed>)
    ensures multiset(r) == multiset(list)
    ensures |r| == |list|
  {
    if list == [] then [] else
    assert list == list[..|list| - 1] + [list[|list| - 1]];
    InsertByTime(SortByTime(list[..|list| - 1]), list[|list| - 1])
  }

  ghost predicate SortedByTime(list: seq<Timed>) {
    forall i, j :: 0 <= i < j < |list| ==> list[i].at <= list[j].at
  }

  /** The entries of one time, in their order. */
  function AtTime(list: seq<Timed>, at: nat): seq<Timed> {
    if list == [] then [] else
    AtTime(list[..|list| - 1], at) + if list[|list| - 1].at == at then [list[|list| - 1]] else []
  }

  lemma {:induction false} InsertKeepsTimes(sorted: seq<Timed>, t: Timed, at: nat)
    ensures AtTime(InsertByTime(sorted, t), at) == AtTime(sorted, at) + if t.at == at then [t] else []
  {
    if sorted == [] || sorted[|sorted| - 1].at <= t.at {
      assert (sorted + [t])[..|sorted|] == sorted;
    } else {
      var n := |sorted| - 1;
      InsertKeepsTimes(sorted[..n], t, at);
      var r := InsertByTime(sorted[..n], t);
      assert (r + [sorted[n]])[..|r|] == r;
    }
  }

  lemma {:induction false} InsertSorts(sorted: seq<Timed>, t: Timed)
    requires SortedByTime(sorted)
    ensures SortedByTime(InsertByTime(sorted, t))
  {
    if sorted != [] && sorted[|sorted| - 1].at > t.at {
      var n := |sorted| - 1;
      InsertSorts(sorted[..n], t);
      var r := InsertByTime(sorted[..n], t);
      forall i | 0 <= i < |r| ensures r[i].at <= sorted[n].at {
        assert r[i] in multiset(r);
        assert r[i] == t || r[i] in sorted[..n];
      }
    }
  }

  /** The list in time order, with entries of the same time left in the order they had. */
  lemma {:induction false} SortIsStable(list: seq<Timed>, at: nat)
    ensures SortedByTime(SortByTime(list))
    ensures AtTime(SortByTime(list), at) == AtTime(list, at)
  {
    if list != [] {
      var n := |list| - 1;
      SortIsStable(list[..n], at);
      InsertSorts(SortByTime(list[..n]), list[n]);
      InsertKeepsTimes(SortByTime(list[..n]), list[n], at);
    }
  }

  lemma {:induction false} SortedStays(list: seq<Timed>)
    requires SortedByTime(list)
    ensures SortByTime(list) == list
  {
    if list != [] {
      var n := |list| - 1;
      SortedStays(list[..n]);
      assert list == list[..n] + [list[n]];
    }
  }

  /** The requests of an order that are still open, with their times. */
  function Open(order: seq<Word>, times: map<Word, nat>): (r: seq<Timed>)
    ensures forall t :: t in r ==> t.id in order && t.id in times && t.at == times[t.id]
    ensures forall id :: id in order && id in times ==> Timed(id, times[id]) in r
  {
    if order == [] then [] else
    var last := order[|order| - 1];
    Open(order[..|order| - 1], times) + if last in times then [Timed(last, times[last])] else []
  }

  function JobTimes(s: Store): map<Word, nat> {
    map id | id in s.jobs && s.jobs[id].dispatchedAt.None? :: s.jobs[id].enqueuedAt
  }

  function ArtifactTimes(s: Store): map<Word, nat> {
    map id | id in s.artifacts && s.artifacts[id].submittedAt.None? :: s.artifacts[id].storedAt
  }

  function Listed(order: seq<Word>, times: map<Word, nat>, limit: nat): (r: seq<Word>)
    ensures forall id :: id in r ==> id in times
  {
    var sorted := SortByTime(Open(order, times));
    var taken := sorted[..Min(limit, |sorted|)];
    assert forall i :: 0 <= i < |taken| ==> taken[i] in multiset(sorted);
    seq(|taken|, i requires 0 <= i < |taken| => taken[i].id)
  }

  function PendingJobs(s: Store, limit: nat): seq<Job> {
    var ids := Listed(s.jobOrder, JobTimes(s), limit);
    assert forall i :: 0 <= i < |ids| ==> ids[i] in ids;
    seq(|ids|, i requires 0 <= i < |ids| => s.jobs[ids[i]].job)
  }

  function PendingArtifacts(s: Store, limit: nat): seq<Artifact> {
    var ids := Listed(s.artifactOrder, ArtifactTimes(s), limit);
    assert forall i :: 0 <= i < |ids| ==> ids[i] in ids;
    seq(|ids|, i requires 0 <= i < |ids| => s.artifacts[ids[i]])
  }

  ghost predicate Nondecreasing(order: seq<Word>, times: map<Word, nat>) {
    forall i, j :: 0 <= i < j < |order| && order[i] in times && order[j] in times ==> times[order[i]] <= times[order[j]]
  }

  /** When the clock never went back, the list is simply the oldest open requests in the order of their arrival. */
  lemma ListedIsFifo(order: seq<Word>, times: map<Word, nat>, limit: nat)
    requires Nondecreasing(order, times)
    ensures var open := Open(order, times);
            && SortByTime(open) == open
            && |Listed(order, times, limit)| == Min(limit, |open|)
            && forall i :: 0 <= i < Min(limit, |open|) ==> Listed(order, times, limit)[i] == open[i].id
  {
    OpenSorted(order, times);
    SortedStays(Open(order, times));
  }

  lemma {:induction false} OpenSorted(order: seq<Word>, times: map<Word, nat>)
    requires Nondecreasing(order, times)
    ensures SortedByTime(Open(order, times))
  {
    if order != [] {
      var n := |order| - 1;
      OpenSorted(order[..n], times);
      var front := Open(order[..n], times);
      forall i | 0 <= i < |front| && order[n] in times ensures front[i].at <= times[order[n]] {
        assert front[i] in front;
        var k :| 0 <= k < n && order[k] == front[i].id;
      }
    }
  }

  // ---- the open lists, entry by entry ----

  function Drop(list: seq<Timed>, id: Word): seq<Timed> {
    if list == [] then [] else
    var last := list[|list| - 1];
    Drop(list[..|list| - 1], id) + if last.id == id then [] else [last]
  }

  /** Closing one entry takes it out of the open list and moves no other. */
  lemma {:induction false} OpenWithout(order: seq<Word>, times: map<Word, nat>, id: Word)
    ensures Open(order, times - {id}) == Drop(Open(order, times), id)
  {
    if order != [] {
      var n := |order| - 1;
      OpenWithout(order[..n], times, id);
      var front := Open(order[..n], times);
      if order[n] in times {
        assert (front + [Timed(order[n], times[order[n]])])[..|front|] == front;
      } else {
        assert Open(order, times) == front;
      }
    }
  }

  lemma {:induction false} OpenUnlisted(order: seq<Word>, times: map<Word, nat>, id: Word, at: nat)
    requires id !in order
    ensures Open(order, times[id := at]) == Open(order, times)
  {
    if order != [] {
      var n := |order| - 1;
      assert order[n] != id;
      OpenUnlisted(order[..n], times, id, at);
    }
  }

  /** A new entry joins the open list at its end. */
  lemma OpenArrival(order: seq<Word>, times: map<Word, nat>, id: Word, at: nat)
    requires id !in order
    ensures Open(order + [id], times[id := at]) == Open(order, times) + [Timed(id, at)]
  {
    OpenUnlisted(order, times, id, at);
    assert (order + [id])[..|order|] == order;
  }

  lemma EnqueueOpens(s: Store, job: Job, at: nat)
    requires job.requestId !in s.jobs && job.requestId !in s.artifacts && job.requestId !in s.jobOrder
    ensures var t := Enqueue(s, job, at); Open(t.jobOrder, JobTimes(t)) == Open(s.jobOrder, JobTimes(s)) + [Timed(job.requestId, at)]
  {
    OpenArrival(s.jobOrder, JobTimes(s), job.requestId, at);
    assert JobTimes(Enqueue(s, job, at)) == JobTimes(s)[job.requestId := at];
  }

  lemma StoringOpens(s: Store, a: Artifact)
    requires a.requestId !in s.artifacts && a.requestId !in s.artifactOrder && a.submittedAt.None?
    ensures var t := Stored(s, a);
            Open(t.artifactOrder, ArtifactTimes(t)) == Open(s.artifactOrder, ArtifactTimes(s)) + [Timed(a.requestId, a.storedAt)]
  {
    OpenArrival(s.artifactOrder, ArtifactTimes(s), a.requestId, a.storedAt);
    assert ArtifactTimes(Stored(s, a)) == ArtifactTimes(s)[a.requestId := a.storedAt];
  }

  // ---- the store itself ----

  class InMemoryAuctionStateStore {
    var auctions: map<nat, Tracked>
    var auctionOrder: seq<nat>
    var attempts: seq<Attempt>
    var races: seq<Race>
    var jobs: map<Word, StoredJob>
    var jobOrder: seq<Word>
    var artifacts: map<Word, Artifact>
    var artifactOrder: seq<Word>

    function View(): Store
      reads this
    {
      Store(auctions, auctionOrder, attempts, races, jobs, jobOrder, artifacts, artifactOrder)
    }

    /** The jobs still to dispatch and the artifacts still to submit, in the order of their arrival. */
    function OpenJobs(): seq<Timed>
      reads this
    {
      Open(jobOrder, JobTimes(View()))
    }

    function OpenArtifacts(): seq<Timed>
      reads this
    {
      Open(artifactOrder, ArtifactTimes(View()))
    }

    constructor ()
      ensures View() == EMPTY_STORE
    {
      auctions, auctionOrder, attempts, races := map[], [], [], [];
      jobs, jobOrder, artifacts, artifactOrder := map[], [], map[], [];
    }

    method UpsertAuction(id: nat, record: Tracked)
      modifies this`auctions, this`auctionOrder
      ensures View() == Upserted(old(View()), id, record)
    {
      if id !in auctions { auctionOrder := auctionOrder + [id]; }
      auctions := auctions[id := record];
    }

    method UpdateAuctionState(id: nat, state: nat, at: nat)
      modifies this`auctions
      ensures View() == UpdatedState(old(View()), id, state, at)
    {
      if id !in auctions { return; }
      auctions := auctions[id := auctions[id].(state := state, trackedAt := at)];
    }

    /** The history grows by the record; of the tracked auctions only this one's attempt figures move. */
    method RecordFinalizeAttempt(a: Attempt)
      modifies this`attempts, this`auctions
      ensures View() == Recorded(old(View()), a)
      ensures old(attempts) <= attempts && |attempts| == |old(attempts)| + 1 && attempts[|attempts| - 1] == a
      ensures auctions.Keys == old(auctions).Keys
      ensures forall id :: id in auctions && id != a.auctionId ==> auctions[id] == old(auctions)[id]
      ensures forall id :: id in auctions ==>
                && auctions[id].state == old(auctions)[id].state && auctions[id].endTime == old(auctions)[id].endTime
                && auctions[id].deposit == old(auctions)[id].deposit && auctions[id].trackedAt == old(auctions)[id].trackedAt
      ensures a.auctionId in auctions ==>
                auctions[a.auctionId].retryCount == a.retryCount && auctions[a.auctionId].lastAttemptAt == Some(a.recordedAt)
    {
      attempts := attempts + [a];
      if a.auctionId in auctions {
        var record := auctions[a.auctionId].(lastAttemptAt := Some(a.recordedAt));
        auctions := auctions[a.auctionId := record.(retryCount := a.retryCount)];
      }
    }

    method RecordRaceCondition(r: Race)
      modifies this`races
      ensures races == old(races) + [r]
    {
      races := races + [r];
    }

    /** A request that has a job or an artifact, dispatched or not, is never opened again; a new one joins the open
        jobs at the end. No other job moves. */
    method EnqueueDispatchJob(job: Job, at: nat)
      modifies this`jobs, this`jobOrder
      ensures View() == Enqueue(old(View()), job, at)
      ensures job.requestId in old(jobs) || job.requestId in artifacts ==> jobs == old(jobs) && OpenJobs() == old(OpenJobs())
      ensures job.requestId !in old(jobs) && job.requestId !in artifacts && job.requestId !in old(jobOrder) ==>
                OpenJobs() == old(OpenJobs()) + [Timed(job.requestId, at)]
      ensures forall id :: id in old(jobs) ==> id in jobs && jobs[id] == old(jobs)[id]
      ensures old(jobOrder) <= jobOrder
    {
      hide Open, JobTimes;
      if job.requestId in jobs || job.requestId in artifacts { return; }
      if job.requestId !in jobOrder { EnqueueOpens(View(), job, at); }
      jobs := jobs[job.requestId := StoredJob(job, at, None)];
      jobOrder := jobOrder + [job.requestId];
    }

    /** The job leaves the open ones, for good and however often it is marked; no other job moves. */
    method MarkDispatchJobCompleted(id: Word, at: nat)
      modifies this`jobs
      ensures View() == Dispatched(old(View()), id, at)
      ensures OpenJobs() == Drop(old(OpenJobs()), id)
      ensures jobs.Keys == old(jobs).Keys && forall other :: other in jobs && other != id ==> jobs[other] == old(jobs)[other]
      ensures id in jobs ==> jobs[id] == old(jobs)[id].(dispatchedAt := Some(at))
    {
      ghost var times := JobTimes(View());
      OpenWithout(jobOrder, times, id);
      if id !in jobs {
        assert times - {id} == times;
        return;
      }
      jobs := jobs[id := jobs[id].(dispatchedAt := Some(at))];
      assert JobTimes(View()) == times - {id};
    }

    /** A first artifact of a request joins the open artifacts at the end; a later one keeps the place of the first.
        No other artifact changes. */
    method StoreResolutionArtifact(a: Artifact)
      modifies this`artifacts, this`artifactOrder
      ensures View() == Stored(old(View()), a)
      ensures a.requestId !in old(artifacts) && a.requestId !in old(artifactOrder) && a.submittedAt.None? ==>
                OpenArtifacts() == old(OpenArtifacts()) + [Timed(a.requestId, a.storedAt)]
      ensures a.requestId in old(artifacts) ==> artifactOrder == old(artifactOrder)
      ensures a.requestId in artifacts && artifacts[a.requestId] == a
      ensures forall id :: id in old(artifacts) && id != a.requestId ==> id in artifacts && artifacts[id] == old(artifacts)[id]
    {
      hide Open, ArtifactTimes;
      if a.requestId !in artifacts && a.requestId !in artifactOrder && a.submittedAt.None? { StoringOpens(View(), a); }
      if a.requestId !in artifacts { artifactOrder := artifactOrder + [a.requestId]; }
      artifacts := artifacts[a.requestId := a];
    }

    /** The artifact leaves the open ones, for good and however often it is marked; no other artifact moves. */
    method MarkResolutionArtifactSubmitted(id: Word, at: nat)
      modifies this`artifacts
      ensures View() == Submitted(old(View()), id, at)
      ensures OpenArtifacts() == Drop(old(OpenArtifacts()), id)
      ensures artifacts.Keys == old(artifacts).Keys
      ensures forall other :: other in artifacts && other != id ==> artifacts[other] == old(artifacts)[other]
      ensures id in artifacts ==> artifacts[id] == old(artifacts)[id].(submittedAt := Some(at))
    {
      ghost var times := ArtifactTimes(View());
      OpenWithout(artifactOrder, times, id);
      if id !in artifacts {
        assert times - {id} == times;
        return;
      }
      artifacts := artifacts[id := artifacts[id].(submittedAt := Some(at))];
      assert ArtifactTimes(View()) == times - {id};
    }
  }
}
