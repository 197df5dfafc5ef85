/** The keeper's three ticks over one store, and what every run of them keeps for each request. */
module KeeperPipeline {
  import opened Prelude
  import opened CofheDispatcher
  import opened AuctionStateStore

  // ---- what one tick does ----

  function EnqueueAll(s: Store, found: seq<Job>, at: nat): Store {
    if found == [] then s else Enqueue(EnqueueAll(s, found[..|found| - 1], at), found[|found| - 1], at)
  }

  /** An absent winner is stored as the zero word. */
  function ArtifactOf(r: Resolution, at: nat): Artifact {
    var winner := if r.winner.Some? then r.winner.value else 0;
    Artifact(r.requestId, r.auctionId, winner, Some(r.kind), r.ciphertext, r.proof, r.amount, at, None)
  }

  function MarkAll(s: Store, rs: seq<Resolution>, at: nat): Store {
    if rs == [] then s else Dispatched(MarkAll(s, rs[..|rs| - 1], at), rs[|rs| - 1].requestId, at)
  }

  function StoreAll(s: Store, rs: seq<Resolution>, at: nat): Store {
    if rs == [] then s else Stored(StoreAll(s, rs[..|rs| - 1], at), ArtifactOf(rs[|rs| - 1], at))
  }

  /** A batch nobody answered leaves the store alone. */
  function DispatchTick(s: Store, max: nat, answer: Option<seq<Resolution>>, at: nat): Store {
    if PendingJobs(s, max) == [] || answer.None? then s else StoreAll(MarkAll(s, answer.value, at), answer.value, at)
  }

  /** How one submission goes: the market takes it, its auction turns out to be over, or it fails. */
  datatype Submission = Accepted | Advanced(state: nat) | Errored

  function SubmitOne(s: Store, a: Artifact, how: Submission, at: nat): Store {
    match how
    case Accepted => Submitted(s, a.requestId, at)
    case Advanced(state) => Submitted(UpdatedState(s, a.auctionId, state, at), a.requestId, at)
    case Errored => s
  }

  /** A failure ends the tick. */
  function SubmitAll(s: Store, list: seq<Artifact>, how: seq<Submission>, at: nat): Store
    requires |how| == |list|
  {
    if list == [] then s else
    var n := |list| - 1;
    var before := SubmitAll(s, list[..n], how[..n], at);
    if Errored in how[..n] then before else SubmitOne(before, list[n], how[n], at)
  }

  function SubmitTick(s: Store, limit: nat, how: seq<Submission>, at: nat): Store {
    var list := PendingArtifacts(s, limit);
    if |how| != |list| then s else SubmitAll(s, list, how, at)
  }

  // ---- the tick bodies ----

  /** The monitor: one job per resolving auction, skipped when it is waiting or already has its artifact. */
  method EnqueuePendingResolutionJobs(store: InMemoryAuctionStateStore, found: seq<Job>, at: nat)
    modifies store
    ensures store.View() == EnqueueAll(old(store.View()), found, at)
  {
    hide Open, JobTimes, ArtifactTimes;
    var i := 0;
    while i < |found|
      invariant 0 <= i <= |found|
      invariant store.View() == EnqueueAll(old(store.View()), found[..i], at)
    {
      assert found[..i + 1][..i] == found[..i];
      EnqueueIfNew(store, found[i], at);
      i := i + 1;
    }
    assert found[..i] == found;
  }

  method EnqueueIfNew(store: InMemoryAuctionStateStore, job: Job, at: nat)
    modifies store
    ensures store.View() == Enqueue(old(store.View()), job, at)
  {
    hide Open, JobTimes, ArtifactTimes;
    var id := job.requestId;
    var waiting := id in store.jobs && store.jobs[id].dispatchedAt.None?;
    if !waiting && id !in store.artifacts {
      store.EnqueueDispatchJob(job, at);
    }
  }

  /** The dispatcher: the client's answer to the pending batch is the parameter answer. */
  method DispatcherTick(store: InMemoryAuctionStateStore, max: nat, answer: Option<seq<Resolution>>, at: nat)
    modifies store
    ensures store.View() == DispatchTick(old(store.View()), max, answer, at)
  {
    var batch := PendingJobs(store.View(), max);
    if |batch| == 0 || answer.None? { return; }
    MarkEach(store, answer.value, at);
    StoreEach(store, answer.value, at);
  }

  method MarkEach(store: InMemoryAuctionStateStore, rs: seq<Resolution>, at: nat)
    modifies store
    ensures store.View() == MarkAll(old(store.View()), rs, at)
  {
    hide Dispatched, Open, JobTimes, ArtifactTimes;
    var i := 0;
    while i < |rs|
      invariant 0 <= i <= |rs|
      invariant store.View() == MarkAll(old(store.View()), rs[..i], at)
    {
      assert rs[..i + 1][..i] == rs[..i];
      store.MarkDispatchJobCompleted(rs[i].requestId, at);
      i := i + 1;
    }
    assert rs[..i] == rs;
  }

  method StoreEach(store: InMemoryAuctionStateStore, rs: seq<Resolution>, at: nat)
    modifies store
    ensures store.View() == StoreAll(old(store.View()), rs, at)
  {
    hide Stored, ArtifactOf, Open, JobTimes, ArtifactTimes;
    var i := 0;
    while i < |rs|
      invariant 0 <= i <= |rs|
      invariant store.View() == StoreAll(old(store.View()), rs[..i], at)
    {
      assert rs[..i + 1][..i] == rs[..i];
      store.StoreResolutionArtifact(ArtifactOf(rs[i], at));
      i := i + 1;
    }
    assert rs[..i] == rs;
  }

  /** The submitter: how each submission goes is the parameter how. */
  method SubmitterTick(store: InMemoryAuctionStateStore, limit: nat, how: seq<Submission>, at: nat) returns (failed: bool)
    requires |how| == |PendingArtifacts(store.View(), limit)|
    modifies store
    ensures store.View() == SubmitTick(old(store.View()), limit, how, at)
    ensures failed == (Errored in how)
  {
    hide SubmitOne;
    var list := PendingArtifacts(store.View(), limit);
    var i := 0;
    while i < |list|
      invariant 0 <= i <= |list| && Errored !in how[..i]
      invariant store.View() == SubmitAll(old(store.View()), list[..i], how[..i], at)
    {
      assert list[..i + 1][..i] == list[..i] && how[..i + 1][..i] == how[..i];
      if how[i] == Errored {
        FailureEnds(old(store.View()), list, how, i, at);
        return true;
      }
      MarkSubmission(store, list[i], how[i], at);
      i := i + 1;
    }
    assert list[..i] == list && how[..i] == how;
    return false;
  }

  /** The market took the resolution, or its auction turned out to be over, which is written down first. */
  method MarkSubmission(store: InMemoryAuctionStateStore, a: Artifact, how: Submission, at: nat)
    requires how != Errored
    modifies store
    ensures store.View() == SubmitOne(old(store.View()), a, how, at)
  {
    hide Open, JobTimes, ArtifactTimes;
    if how.Advanced? { store.UpdateAuctionState(a.auctionId, how.state, at); }
    store.MarkResolutionArtifactSubmitted(a.requestId, at);
  }

  lemma {:induction false} FailureEnds(s: Store, list: seq<Artifact>, how: seq<Submission>, i: nat, at: nat)
    requires i < |how| == |list| && how[i] == Errored && Errored !in how[..i]
    ensures SubmitAll(s, list, how, at) == SubmitAll(s, list[..i], how[..i], at)
  {
    var n := |list| - 1;
    if i < n {
      assert how[..n][i] == Errored;
      assert how[..n][..i] == how[..i] && list[..n][..i] == list[..i];
      FailureEnds(s, list[..n], how[..n], i, at);
    } else {
      assert how[n] == Errored;
    }
  }

  // ---- what a tick keeps ----

  function DispatchedKeys(s: Store): set<Word> {
    set id | id in s.jobs && s.jobs[id].dispatchedAt.Some?
  }

  function PendingKeys(s: Store): set<Word> {
    set id | id in s.jobs && s.jobs[id].dispatchedAt.None?
  }

  /** A request has an artifact exactly when its job has been dispatched. */
  ghost predicate Consistent(s: Store) {
    && (forall id :: id in s.jobs ==> s.jobs[id].job.requestId == id)
    && (forall id :: id in s.artifacts ==> s.artifacts[id].requestId == id)
    && s.artifacts.Keys == DispatchedKeys(s)
  }

  /** A job stays as it was enqueued and is dispatched once; an artifact is written once, is submitted once, and
      never returns to pending. */
  ghost predicate Keeps(s: Store, t: Store) {
    && (forall id :: id in s.jobs ==>
          && id in t.jobs
          && t.jobs[id] == s.jobs[id].(dispatchedAt := t.jobs[id].dispatchedAt)
          && (s.jobs[id].dispatchedAt.Some? ==> t.jobs[id] == s.jobs[id]))
    && (forall id :: id in s.artifacts ==>
          && id in t.artifacts
          && t.artifacts[id] == s.artifacts[id].(submittedAt := t.artifacts[id].submittedAt)
          && (s.artifacts[id].submittedAt.Some? ==> t.artifacts[id] == s.artifacts[id]))
  }

  lemma KeepsChain(s: Store, t: Store, u: Store)
    requires Keeps(s, t) && Keeps(t, u)
    ensures Keeps(s, u)
  {}

  lemma {:induction false} EnqueueAllKeeps(s: Store, found: seq<Job>, at: nat)
    requires Consistent(s)
    ensures Consistent(EnqueueAll(s, found, at)) && Keeps(s, EnqueueAll(s, found, at))
  {
    if found != [] {
      var t := EnqueueAll(s, found[..|found| - 1], at);
      EnqueueAllKeeps(s, found[..|found| - 1], at);
      assert DispatchedKeys(Enqueue(t, found[|found| - 1], at)) == DispatchedKeys(t);
    }
  }

  lemma {:induction false} MarkAllIs(s: Store, rs: seq<Resolution>, at: nat)
    requires Ids(rs) <= s.jobs.Keys
    ensures MarkAll(s, rs, at) == s.(jobs := MarkAll(s, rs, at).jobs)
    ensures MarkAll(s, rs, at).jobs.Keys == s.jobs.Keys
    ensures forall id :: id in s.jobs ==>
              MarkAll(s, rs, at).jobs[id] == if id in Ids(rs) then s.jobs[id].(dispatchedAt := Some(at)) else s.jobs[id]
  {
    if rs != [] {
      var n := |rs| - 1;
      assert rs == rs[..n] + [rs[n]];
      assert Ids(rs) == Ids(rs[..n]) + {rs[n].requestId};
      MarkAllIs(s, rs[..n], at);
    }
  }

  lemma {:induction false} StoreAllIs(s: Store, rs: seq<Resolution>, at: nat)
    ensures var t := StoreAll(s, rs, at);
            && t == s.(artifacts := t.artifacts, artifactOrder := t.artifactOrder)
            && t.artifacts.Keys == s.artifacts.Keys + Ids(rs)
            && (forall id :: id in s.artifacts && id !in Ids(rs) ==> t.artifacts[id] == s.artifacts[id])
            && (forall id :: id in Ids(rs) ==> t.artifacts[id].requestId == id)
  {
    if rs != [] {
      var n := |rs| - 1;
      assert rs == rs[..n] + [rs[n]];
      assert Ids(rs) == Ids(rs[..n]) + {rs[n].requestId};
      StoreAllIs(s, rs[..n], at);
    } else {
      assert Ids(rs) == {};
    }
  }

  /** The live client refuses an answer about any request outside its batch, so a batch only ever names itself. */
  ghost predicate WithinBatch(s: Store, max: nat, answer: Option<seq<Resolution>>) {
    answer.Some? ==> Ids(answer.value) <= Requests(PendingJobs(s, max))
  }

  lemma BatchIsPending(s: Store, max: nat)
    requires Consistent(s)
    ensures Requests(PendingJobs(s, max)) <= PendingKeys(s)
  {
    var ids := Listed(s.jobOrder, JobTimes(s), max);
    forall job | job in PendingJobs(s, max) ensures job.requestId in PendingKeys(s) {
      var i :| 0 <= i < |ids| && PendingJobs(s, max)[i] == job;
      assert ids[i] in ids && ids[i] in JobTimes(s);
    }
  }

  /** Marking and then storing the answers to requests that are all still pending. */
  lemma AnswersKeep(s: Store, rs: seq<Resolution>, at: nat)
    requires Consistent(s) && Ids(rs) <= PendingKeys(s)
    ensures var t := StoreAll(MarkAll(s, rs, at), rs, at);
            && Consistent(t) && Keeps(s, t) && t.jobOrder == s.jobOrder
            && DispatchedKeys(t) == DispatchedKeys(s) + Ids(rs) && PendingKeys(t) == PendingKeys(s) - Ids(rs)
  {
    hide MarkAll, StoreAll, Ids;
    MarkAllIs(s, rs, at);
    StoreAllIs(MarkAll(s, rs, at), rs, at);
  }

  lemma DispatchKeeps(s: Store, max: nat, answer: Option<seq<Resolution>>, at: nat)
    requires Consistent(s) && WithinBatch(s, max, answer)
    ensures var t := DispatchTick(s, max, answer, at);
            && Consistent(t) && Keeps(s, t) && t.jobOrder == s.jobOrder
            && (answer.Some? && PendingJobs(s, max) != [] ==>
                  DispatchedKeys(t) == DispatchedKeys(s) + Ids(answer.value)
                  && PendingKeys(t) == PendingKeys(s) - Ids(answer.value))
  {
    hide Consistent, Keeps, PendingJobs, Requests, MarkAll, StoreAll, Ids, DispatchedKeys, PendingKeys;
    BatchIsPending(s, max);
    KeepsSelf(s);
    if answer.Some? { AnswersKeep(s, answer.value, at); }
  }

  lemma SubmitOneKeeps(s: Store, a: Artifact, how: Submission, at: nat)
    requires Consistent(s) && a.requestId in s.artifacts && s.artifacts[a.requestId] == a && a.submittedAt.None?
    ensures var t := SubmitOne(s, a, how, at);
            && Consistent(t) && Keeps(s, t) && t.jobs == s.jobs && t.jobOrder == s.jobOrder
            && (forall id :: id in s.artifacts && id != a.requestId ==> t.artifacts[id] == s.artifacts[id])
  {}

  lemma {:induction false} SubmitAllKeeps(s: Store, list: seq<Artifact>, how: seq<Submission>, at: nat)
    requires |how| == |list| && Distinct(list) && Consistent(s)
    requires forall a :: a in list ==> a.requestId in s.artifacts && s.artifacts[a.requestId] == a && a.submittedAt.None?
    ensures var t := SubmitAll(s, list, how, at);
            && Consistent(t) && Keeps(s, t) && t.jobs == s.jobs && t.jobOrder == s.jobOrder
            && t.artifacts.Keys == s.artifacts.Keys
            && (forall id :: id in s.artifacts && s.artifacts[id] !in list ==> t.artifacts[id] == s.artifacts[id])
  {
    hide Consistent, Keeps, SubmitOne;
    if list == [] {
      KeepsSelf(s);
    } else {
      var n := |list| - 1;
      var before := SubmitAll(s, list[..n], how[..n], at);
      SubmitAllKeeps(s, list[..n], how[..n], at);
      assert list[n] in list && list[n] !in list[..n];
      SubmitAllOrder(s, list, how, at);
      SubmitOneKeeps(before, list[n], how[n], at);
      KeepsChain(s, before, SubmitOne(before, list[n], how[n], at));
    }
  }

  lemma PendingArtifactsAre(s: Store, limit: nat)
    requires Consistent(s) && Distinct(s.artifactOrder)
    ensures var list := PendingArtifacts(s, limit);
            && Distinct(list)
            && forall a :: a in list ==> a.requestId in s.artifacts && s.artifacts[a.requestId] == a && a.submittedAt.None?
  {
    var ids := Listed(s.artifactOrder, ArtifactTimes(s), limit);
    ListedDistinct(s.artifactOrder, ArtifactTimes(s), limit);
    assert forall i :: 0 <= i < |ids| ==> ids[i] in ids;
  }

  lemma {:induction false} OpenDistinct(order: seq<Word>, times: map<Word, nat>)
    requires Distinct(order)
    ensures Distinct(Open(order, times))
    ensures forall t, u :: t in Open(order, times) && u in Open(order, times) && t.id == u.id ==> t == u
  {
    if order != [] {
      var n := |order| - 1;
      OpenDistinct(order[..n], times);
      assert order[n] !in order[..n];
    }
  }

  lemma ListedDistinct(order: seq<Word>, times: map<Word, nat>, limit: nat)
    requires Distinct(order)
    ensures Distinct(Listed(order, times, limit))
  {
    var open := Open(order, times);
    var sorted := SortByTime(open);
    OpenDistinct(order, times);
    DistinctPermutation(open, sorted);
    forall i, j | 0 <= i < j < |sorted| ensures sorted[i].id != sorted[j].id {
      assert sorted[i] in multiset(sorted) && sorted[j] in multiset(sorted);
      assert sorted[i] in open && sorted[j] in open;
    }
  }

  lemma DistinctPermutation<T>(s: seq<T>, t: seq<T>)
    requires Distinct(s) && multiset(s) == multiset(t)
    ensures Distinct(t)
  {
    forall i, j | 0 <= i < j < |t| ensures t[i] != t[j] {
      if t[i] == t[j] {
        assert t == t[..i] + [t[i]] + t[i + 1..j] + [t[j]] + t[j + 1..];
        assert multiset(t)[t[i]] >= 2;
        OnceOnly(s, t[i]);
      }
    }
  }

  lemma {:induction false} OnceOnly<T>(s: seq<T>, x: T)
    requires Distinct(s)
    ensures multiset(s)[x] <= 1
  {
    if s != [] {
      var n := |s| - 1;
      assert s == s[..n] + [s[n]];
      OnceOnly(s[..n], x);
      if s[n] == x { assert x !in multiset(s[..n]); }
    }
  }

  // ---- what a tick writes ----

  /** The artifact is this answer, written at this time and not submitted yet. */
  predicate Writes(a: Artifact, r: Resolution, at: nat) {
    && a.requestId == r.requestId && a.auctionId == r.auctionId
    && a.winner == (match r.winner case Some(w) => w case None => 0)
    && a.kind == Some(r.kind) && a.ciphertext == r.ciphertext && a.proof == r.proof && a.amount == r.amount
    && a.storedAt == at && a.submittedAt == None
  }

  /** The k-th answer is the last one to its request. */
  ghost predicate LastTo(rs: seq<Resolution>, k: int) {
    0 <= k < |rs| && forall j :: k < j < |rs| ==> rs[j].requestId != rs[k].requestId
  }

  /** Storing the answers writes the last one to each request, field by field, and no other artifact. */
  lemma {:induction false} StoreAllWrites(s: Store, rs: seq<Resolution>, k: nat, at: nat)
    requires LastTo(rs, k)
    ensures rs[k].requestId in StoreAll(s, rs, at).artifacts
    ensures Writes(StoreAll(s, rs, at).artifacts[rs[k].requestId], rs[k], at)
  {
    var n := |rs| - 1;
    if k < n {
      assert rs[n].requestId != rs[k].requestId;
      forall j | k < j < n ensures rs[..n][j].requestId != rs[..n][k].requestId { assert rs[j].requestId != rs[k].requestId; }
      StoreAllWrites(s, rs[..n], k, at);
    }
  }

  /** What one dispatcher tick writes: of every answer that is the last to its request, exactly that artifact; every
      answered job is dispatched now; everything else in the store is as it was, and so is all of it when the client
      does not answer. */
  lemma DispatchWrites(s: Store, max: nat, answer: Option<seq<Resolution>>, at: nat)
    requires Consistent(s) && WithinBatch(s, max, answer)
    ensures answer.None? || PendingJobs(s, max) == [] ==> DispatchTick(s, max, answer, at) == s
    ensures answer.Some? && PendingJobs(s, max) != [] ==>
              var t := DispatchTick(s, max, answer, at);
              && t == s.(jobs := t.jobs, artifacts := t.artifacts, artifactOrder := t.artifactOrder)
              && t.artifacts.Keys == s.artifacts.Keys + Ids(answer.value) && t.jobs.Keys == s.jobs.Keys
              && (forall id :: id in s.artifacts && id !in Ids(answer.value) ==> t.artifacts[id] == s.artifacts[id])
              && (forall id :: id in s.jobs ==>
                    t.jobs[id] == if id in Ids(answer.value) then s.jobs[id].(dispatchedAt := Some(at)) else s.jobs[id])
              && (forall k: nat :: LastTo(answer.value, k) ==>
                    Writes(t.artifacts[answer.value[k].requestId], answer.value[k], at))
  {
    hide PendingJobs, MarkAll, StoreAll, Writes, Requests;
    if answer.Some? && PendingJobs(s, max) != [] {
      var rs := answer.value;
      BatchIsPending(s, max);
      MarkAllIs(s, rs, at);
      var marked := MarkAll(s, rs, at);
      StoreAllIs(marked, rs, at);
      forall k: nat | LastTo(rs, k)
        ensures rs[k].requestId in Ids(rs) && Writes(StoreAll(marked, rs, at).artifacts[rs[k].requestId], rs[k], at)
      {
        assert rs[k] in rs;
        StoreAllWrites(marked, rs, k, at);
      }
    }
  }

  /** The first of the found jobs for its request. */
  ghost predicate FirstFor(found: seq<Job>, k: int) {
    0 <= k < |found| && forall j :: 0 <= j < k ==> found[j].requestId != found[k].requestId
  }

  /** A monitor tick only adds jobs, for requests it found and that have no artifact. */
  lemma {:induction false} EnqueueAllAdds(s: Store, found: seq<Job>, at: nat)
    ensures var t := EnqueueAll(s, found, at);
            && t == s.(jobs := t.jobs, jobOrder := t.jobOrder)
            && (forall id :: id in s.jobs ==> id in t.jobs && t.jobs[id] == s.jobs[id])
            && (forall id :: id in t.jobs ==> id in s.jobs || (id !in s.artifacts && id in Requests(found)))
  {
    if found != [] {
      var n := |found| - 1;
      EnqueueAllAdds(s, found[..n], at);
      assert found == found[..n] + [found[n]];
      assert Requests(found) == Requests(found[..n]) + {found[n].requestId};
    }
  }

  /** And of each such request without a job it enqueues the first job it found, as it was found and at this time. */
  lemma {:induction false} EnqueueAllWrites(s: Store, found: seq<Job>, k: nat, at: nat)
    requires FirstFor(found, k) && found[k].requestId !in s.jobs && found[k].requestId !in s.artifacts
    ensures var t := EnqueueAll(s, found, at);
            found[k].requestId in t.jobs && t.jobs[found[k].requestId] == StoredJob(found[k], at, None)
  {
    hide Requests;
    var n := |found| - 1;
    EnqueueAllAdds(s, found[..n], at);
    if k < n {
      assert FirstFor(found[..n], k);
      EnqueueAllWrites(s, found[..n], k, at);
    } else {
      Unfound(s, found[..n], found[n].requestId, at);
    }
  }

  lemma {:induction false} Unfound(s: Store, found: seq<Job>, id: Word, at: nat)
    requires id !in s.jobs && forall j :: 0 <= j < |found| ==> found[j].requestId != id
    ensures id !in EnqueueAll(s, found, at).jobs
  {
    if found != [] { Unfound(s, found[..|found| - 1], id, at); }
  }

  /** Nothing up to the k-th submission fails. */
  ghost predicate Goes(how: seq<Submission>, k: int) {
    0 <= k < |how| && forall j :: 0 <= j <= k ==> how[j] != Errored
  }

  /** A submitter tick marks, at this time, exactly the artifacts up to the first failure. */
  lemma {:induction false} SubmitAllMarks(s: Store, list: seq<Artifact>, how: seq<Submission>, k: nat, at: nat)
    requires k < |list| == |how| && forall i, j :: 0 <= i < j < |list| ==> list[i].requestId != list[j].requestId
    requires list[k].requestId in s.artifacts && s.artifacts[list[k].requestId] == list[k]
    ensures list[k].requestId in SubmitAll(s, list, how, at).artifacts
    ensures SubmitAll(s, list, how, at).artifacts[list[k].requestId] ==
            if Goes(how, k) then list[k].(submittedAt := Some(at)) else list[k]
  {
    var n := |list| - 1;
    if k < n {
      SubmitAllMarks(s, list[..n], how[..n], k, at);
      assert Goes(how[..n], k) <==> Goes(how, k);
    } else {
      Unlisted(s, list[..n], how[..n], list[n].requestId, at);
      assert Goes(how, n) <==> Errored !in how[..n] && how[n] != Errored;
    }
  }

  /** Artifacts that are not on the list stay as they are, and no job ever changes. */
  lemma {:induction false} Unlisted(s: Store, list: seq<Artifact>, how: seq<Submission>, id: Word, at: nat)
    requires |how| == |list| && id in s.artifacts && forall j :: 0 <= j < |list| ==> list[j].requestId != id
    ensures var t := SubmitAll(s, list, how, at); id in t.artifacts && t.artifacts[id] == s.artifacts[id] && t.jobs == s.jobs
  {
    if list != [] { Unlisted(s, list[..|list| - 1], how[..|list| - 1], id, at); }
  }

  /** The k-th submission finds its auction over, and is reached. */
  ghost predicate Overtaken(list: seq<Artifact>, how: seq<Submission>, k: int, id: nat) {
    |list| == |how| && Goes(how, k) && how[k].Advanced? && list[k].auctionId == id
  }

  /** A tracked auction gets the state the last submission saw it in, and stays as it was when none saw it over. */
  lemma {:induction false} SubmitAllSees(s: Store, list: seq<Artifact>, how: seq<Submission>, id: nat, at: nat)
    requires |how| == |list|
    ensures var t := SubmitAll(s, list, how, at);
            && t.auctions.Keys == s.auctions.Keys
            && (id in s.auctions ==>
                  t.auctions[id] == s.auctions[id].(state := t.auctions[id].state, trackedAt := t.auctions[id].trackedAt))
            && ((forall k :: !Overtaken(list, how, k, id)) ==> (id in s.auctions ==> t.auctions[id] == s.auctions[id]))
            && (forall k :: Overtaken(list, how, k, id) && (forall j :: j > k ==> !Overtaken(list, how, j, id)) && id in s.auctions ==>
                  t.auctions[id] == s.auctions[id].(state := how[k].state, trackedAt := at))
  {
    if list != [] {
      var n := |list| - 1;
      SubmitAllSees(s, list[..n], how[..n], id, at);
      forall k | k < n ensures Overtaken(list[..n], how[..n], k, id) <==> Overtaken(list, how, k, id) {
        if 0 <= k { assert Goes(how[..n], k) <==> Goes(how, k); }
      }
      forall k | k > n ensures !Overtaken(list, how, k, id) {}
      forall k | k >= n ensures !Overtaken(list[..n], how[..n], k, id) {}
      assert Goes(how, n) <==> Errored !in how[..n] && how[n] != Errored;
      if Overtaken(list, how, n, id) {
        assert forall k :: Overtaken(list, how, k, id) && (forall j :: j > k ==> !Overtaken(list, how, j, id)) ==> k == n;
      } else {
        assert forall k :: Overtaken(list[..n], how[..n], k, id) <==> Overtaken(list, how, k, id);
      }
    }
  }

  // ---- runs ----

  datatype Tick = Monitor(found: seq<Job>, at: nat) | Dispatch(max: nat, answer: Option<seq<Resolution>>, at: nat)
    | Submit(limit: nat, how: seq<Submission>, at: nat)

  function Next(s: Store, tick: Tick): Store {
    match tick
    case Monitor(found, at) => EnqueueAll(s, found, at)
    case Dispatch(max, answer, at) => DispatchTick(s, max, answer, at)
    case Submit(limit, how, at) => SubmitTick(s, limit, how, at)
  }

  function RunTicks(s: Store, ticks: seq<Tick>): Store {
    if ticks == [] then s else Next(RunTicks(s, ticks[..|ticks| - 1]), ticks[|ticks| - 1])
  }

  ghost predicate Contained(s: Store, tick: Tick) {
    tick.Dispatch? ==> WithinBatch(s, tick.max, tick.answer)
  }

  ghost predicate AllContained(s: Store, ticks: seq<Tick>) {
    forall i :: 0 <= i < |ticks| ==> Contained(RunTicks(s, ticks[..i]), ticks[i])
  }

  ghost predicate Healthy(s: Store) {
    Consistent(s) && Distinct(s.artifactOrder) && Elements(s.artifactOrder) == s.artifacts.Keys
  }

  lemma NextKeeps(s: Store, tick: Tick)
    requires Healthy(s) && Contained(s, tick)
    ensures Healthy(Next(s, tick)) && Keeps(s, Next(s, tick))
  {
    hide Consistent, Keeps, PendingJobs, PendingArtifacts, Elements, Distinct;
    match tick
    case Monitor(found, at) =>
      EnqueueAllKeeps(s, found, at);
      EnqueueAllOrder(s, found, at);
    case Dispatch(max, answer, at) =>
      DispatchKeeps(s, max, answer, at);
      if answer.Some? {
        MarkAllOrder(s, answer.value, at);
        StoreAllOrder(MarkAll(s, answer.value, at), answer.value, at);
      }
      KeepsSelf(s);
    case Submit(limit, how, at) =>
      PendingArtifactsAre(s, limit);
      KeepsSelf(s);
      if |how| == |PendingArtifacts(s, limit)| {
        SubmitAllKeeps(s, PendingArtifacts(s, limit), how, at);
        SubmitAllOrder(s, PendingArtifacts(s, limit), how, at);
      }
  }

  lemma KeepsSelf(s: Store)
    ensures Keeps(s, s)
  {}

  lemma {:induction false} EnqueueAllOrder(s: Store, found: seq<Job>, at: nat)
    ensures EnqueueAll(s, found, at).artifactOrder == s.artifactOrder && EnqueueAll(s, found, at).artifacts == s.artifacts
  {
    if found != [] { EnqueueAllOrder(s, found[..|found| - 1], at); }
  }

  lemma {:induction false} MarkAllOrder(s: Store, rs: seq<Resolution>, at: nat)
    ensures MarkAll(s, rs, at).artifactOrder == s.artifactOrder && MarkAll(s, rs, at).artifacts == s.artifacts
  {
    if rs != [] { MarkAllOrder(s, rs[..|rs| - 1], at); }
  }

  lemma {:induction false} StoreAllOrder(s: Store, rs: seq<Resolution>, at: nat)
    requires Distinct(s.artifactOrder) && Elements(s.artifactOrder) == s.artifacts.Keys
    ensures var t := StoreAll(s, rs, at); Distinct(t.artifactOrder) && Elements(t.artifactOrder) == t.artifacts.Keys
  {
    hide Elements, Distinct;
    if rs != [] {
      var t := StoreAll(s, rs[..|rs| - 1], at);
      StoreAllOrder(s, rs[..|rs| - 1], at);
      var id := rs[|rs| - 1].requestId;
      if id !in t.artifacts { DistinctAppend(t.artifactOrder, id); }
    }
  }

  lemma {:induction false} SubmitAllOrder(s: Store, list: seq<Artifact>, how: seq<Submission>, at: nat)
    requires |how| == |list|
    ensures var t := SubmitAll(s, list, how, at); t.artifactOrder == s.artifactOrder && t.artifacts.Keys == s.artifacts.Keys
  {
    if list != [] { SubmitAllOrder(s, list[..|list| - 1], how[..|list| - 1], at); }
  }

  lemma {:induction false} RunIsHealthy(s: Store, ticks: seq<Tick>)
    requires Healthy(s) && AllContained(s, ticks)
    ensures Healthy(RunTicks(s, ticks))
  {
    hide Healthy, Contained, Next, Keeps;
    if ticks != [] {
      var n := |ticks| - 1;
      forall i | 0 <= i < n ensures Contained(RunTicks(s, ticks[..n][..i]), ticks[..n][i]) {
        assert ticks[..n][..i] == ticks[..i];
      }
      RunIsHealthy(s, ticks[..n]);
      NextKeeps(RunTicks(s, ticks[..n]), ticks[n]);
    }
  }

  /** Over any run, from any point of it to any later one: a request's artifact is written once and never changes but
      for its submission, which never reverts. */
  lemma {:induction false} RunKeeps(ticks: seq<Tick>, i: nat)
    requires AllContained(EMPTY_STORE, ticks) && i <= |ticks|
    ensures Keeps(RunTicks(EMPTY_STORE, ticks[..i]), RunTicks(EMPTY_STORE, ticks))
    ensures Consistent(RunTicks(EMPTY_STORE, ticks))
    decreases |ticks|
  {
    hide Contained, Next, Keeps;
    RunIsHealthy(EMPTY_STORE, ticks);
    var n := |ticks|;
    if i == n {
      assert ticks[..i] == ticks;
      KeepsSelf(RunTicks(EMPTY_STORE, ticks));
    } else {
      var front := ticks[..n - 1];
      forall j | 0 <= j < n - 1 ensures Contained(RunTicks(EMPTY_STORE, front[..j]), front[j]) {
        assert front[..j] == ticks[..j];
      }
      assert front[..i] == ticks[..i];
      RunKeeps(front, i);
      RunIsHealthy(EMPTY_STORE, front);
      NextKeeps(RunTicks(EMPTY_STORE, front), ticks[n - 1]);
      KeepsChain(RunTicks(EMPTY_STORE, ticks[..i]), RunTicks(EMPTY_STORE, front), RunTicks(EMPTY_STORE, ticks));
    }
  }

  // ---- first in, first out ----

  /** Dispatched jobs are exactly the oldest, and the open ones carry the times of their arrival in order. */
  ghost predicate StoreFifo(s: Store, now: nat) {
    && InTurn(s.jobOrder, PendingKeys(s), DispatchedKeys(s))
    && Nondecreasing(s.jobOrder, JobTimes(s))
    && (forall id :: id in JobTimes(s) ==> JobTimes(s)[id] <= now)
  }

  lemma {:induction false} OpenIsSuffix(order: seq<Word>, times: map<Word, nat>, k: nat)
    requires k <= |order|
    requires forall i :: 0 <= i < |order| ==> (order[i] in times <==> i >= k)
    ensures |Open(order, times)| == |order| - k
    ensures forall i :: 0 <= i < |order| - k ==> Open(order, times)[i].id == order[k + i]
    decreases |order|
  {
    if order != [] {
      var n := |order| - 1;
      assert order[n] in times <==> n >= k;
      forall i | 0 <= i < n ensures order[..n][i] in times <==> i >= k { assert order[..n][i] == order[i]; }
      if n < k {
        OpenIsSuffix(order[..n], times, n);
      } else {
        OpenIsSuffix(order[..n], times, k);
        assert Open(order, times) == Open(order[..n], times) + [Timed(order[n], times[order[n]])];
      }
    }
  }

  /** The oldest waiting requests, at most max of them. */
  function Oldest(order: seq<Word>, served: nat, max: nat): seq<Word> {
    if served <= |order| then order[served..served + Min(max, |order| - served)] else []
  }

  lemma ListedIsOldest(order: seq<Word>, times: map<Word, nat>, completed: set<Word>, max: nat)
    requires InTurn(order, times.Keys, completed) && Nondecreasing(order, times)
    ensures |completed| <= |order| && Listed(order, times, max) == Oldest(order, |completed|, max)
  {
    hide InTurn, Nondecreasing, Listed, Open, SortByTime;
    InTurnSplits(order, times.Keys, completed);
    OpenIsSuffix(order, times, |completed|);
    ListedIsFifo(order, times, max);
    var listed, oldest := Listed(order, times, max), Oldest(order, |completed|, max);
    assert |listed| == |oldest|;
    forall i | 0 <= i < |listed| ensures listed[i] == oldest[i] {}
  }

  lemma InTurnSplits(order: seq<Word>, pending: set<Word>, completed: set<Word>)
    requires InTurn(order, pending, completed)
    ensures |completed| <= |order|
    ensures forall i :: 0 <= i < |order| ==> (order[i] in pending <==> i >= |completed|)
  {
    var k := |completed|;
    forall i | 0 <= i < |order| ensures order[i] in pending <==> i >= k {
      assert order[i] in Elements(order);
      if i < k { assert order[..k][i] == order[i]; }
    }
  }

  lemma PendingAreTimed(s: Store)
    ensures JobTimes(s).Keys == PendingKeys(s)
  {}

  /** The batch of the store-backed queue is exactly the oldest waiting jobs, although it sorts them by time. */
  lemma StoreBatchIsOldest(s: Store, max: nat, now: nat)
    requires Consistent(s) && StoreFifo(s, now)
    ensures |DispatchedKeys(s)| <= |s.jobOrder|
    ensures Requests(PendingJobs(s, max)) == Elements(Oldest(s.jobOrder, |DispatchedKeys(s)|, max))
    ensures |PendingJobs(s, max)| == Min(max, |s.jobOrder| - |DispatchedKeys(s)|)
  {
    hide InTurn, Nondecreasing, Requests, Elements;
    PendingAreTimed(s);
    ListedIsOldest(s.jobOrder, JobTimes(s), DispatchedKeys(s), max);
    var ids := Listed(s.jobOrder, JobTimes(s), max);
    forall i | 0 <= i < |ids| ensures PendingJobs(s, max)[i].requestId == ids[i] {
      assert ids[i] in ids && ids[i] in s.jobs;
    }
    RequestsAre(PendingJobs(s, max), ids);
  }

  lemma RequestsAre(jobs: seq<Job>, ids: seq<Word>)
    requires |jobs| == |ids| && forall i :: 0 <= i < |ids| ==> jobs[i].requestId == ids[i]
    ensures Requests(jobs) == Elements(ids)
  {
    forall id | id in ids ensures id in Requests(jobs) {
      var i :| 0 <= i < |ids| && ids[i] == id;
      assert jobs[i] in jobs;
    }
  }

  lemma {:induction false} EnqueueAllFifo(s: Store, found: seq<Job>, at: nat)
    requires Consistent(s) && StoreFifo(s, at)
    ensures StoreFifo(EnqueueAll(s, found, at), at)
  {
    hide Consistent, StoreFifo, Enqueue;
    if found != [] {
      EnqueueAllFifo(s, found[..|found| - 1], at);
      EnqueueAllKeeps(s, found[..|found| - 1], at);
      EnqueueFifo(EnqueueAll(s, found[..|found| - 1], at), found[|found| - 1], at);
    }
  }

  lemma EnqueueFifo(s: Store, job: Job, at: nat)
    requires Consistent(s) && StoreFifo(s, at)
    ensures StoreFifo(Enqueue(s, job, at), at)
  {
    hide InTurn, Nondecreasing;
    var id := job.requestId;
    if id !in s.jobs && id !in s.artifacts {
      var u := Enqueue(s, job, at);
      assert PendingKeys(u) == PendingKeys(s) + {id} && DispatchedKeys(u) == DispatchedKeys(s);
      assert JobTimes(u) == JobTimes(s)[id := at];
      ArrivalInTurn(s.jobOrder, PendingKeys(s), DispatchedKeys(s), id);
      NotListed(s.jobOrder, PendingKeys(s), DispatchedKeys(s), id);
      NondecreasingArrival(s.jobOrder, JobTimes(s), id, at);
    }
  }

  lemma NotListed(order: seq<Word>, pending: set<Word>, completed: set<Word>, id: Word)
    requires InTurn(order, pending, completed) && id !in pending && id !in completed
    ensures id !in order
  {
    assert id in order <==> id in Elements(order);
  }

  lemma NondecreasingArrival(order: seq<Word>, times: map<Word, nat>, id: Word, at: nat)
    requires Nondecreasing(order, times) && id !in times
    requires forall other :: other in times ==> times[other] <= at
    ensures id !in order ==> Nondecreasing(order + [id], times[id := at])
  {}

  lemma DispatchFifo(s: Store, max: nat, answer: Option<seq<Resolution>>, at: nat)
    requires Consistent(s) && StoreFifo(s, at)
    requires answer.Some? ==> OnePerJob(PendingJobs(s, max), answer.value)
    ensures StoreFifo(DispatchTick(s, max, answer, at), at)
  {
    hide InTurn, Consistent, Nondecreasing, PendingJobs, DispatchTick, Requests, Ids, Elements, DispatchedKeys, PendingKeys;
    if answer.Some? && PendingJobs(s, max) != [] {
      var t := DispatchTick(s, max, answer, at);
      StoreBatchIsOldest(s, max, at);
      ServiceInTurn(s.jobOrder, PendingKeys(s), DispatchedKeys(s), Min(max, |s.jobOrder| - |DispatchedKeys(s)|));
      DispatchKeeps(s, max, answer, at);
      FewerTimes(s, t);
    } else {
      NothingDispatched(s, max, answer, at);
    }
  }

  /** Dispatching takes open times away and changes none. */
  lemma FewerTimes(s: Store, t: Store)
    requires Keeps(s, t) && t.jobOrder == s.jobOrder && PendingKeys(t) <= PendingKeys(s)
    requires Nondecreasing(s.jobOrder, JobTimes(s))
    ensures Nondecreasing(t.jobOrder, JobTimes(t))
    ensures forall id :: id in JobTimes(t) ==> id in JobTimes(s) && JobTimes(t)[id] == JobTimes(s)[id]
  {
    forall id | id in JobTimes(t) ensures id in JobTimes(s) && JobTimes(t)[id] == JobTimes(s)[id] {
      assert id in PendingKeys(t) && id in PendingKeys(s);
    }
  }

  lemma NothingDispatched(s: Store, max: nat, answer: Option<seq<Resolution>>, at: nat)
    requires answer.None? || PendingJobs(s, max) == []
    ensures DispatchTick(s, max, answer, at) == s
  {}

  /** Time does not go back from tick to tick, and every batch is answered one resolution per job or not at all. */
  ghost predicate Orderly(ticks: seq<Tick>) {
    && (forall i, j :: 0 <= i < j < |ticks| ==> ticks[i].at <= ticks[j].at)
    && (forall i :: 0 <= i < |ticks| && ticks[i].Dispatch? && ticks[i].answer.Some? ==>
          OnePerJob(PendingJobs(RunTicks(EMPTY_STORE, ticks[..i]), ticks[i].max), ticks[i].answer.value))
  }

  /** Over any orderly run the store dispatches requests strictly in the order in which they were found. */
  lemma {:induction false} RunIsFirstInFirstOut(ticks: seq<Tick>)
    requires Orderly(ticks)
    ensures var s := RunTicks(EMPTY_STORE, ticks);
            Healthy(s) && StoreFifo(s, if ticks == [] then 0 else ticks[|ticks| - 1].at)
  {
    hide StoreFifo, Consistent, Next, OnePerJob, PendingJobs;
    if ticks == [] {
      EmptyStoreFifo();
    } else {
      var n := |ticks| - 1;
      forall i | 0 <= i < n ensures ticks[..n][..i] == ticks[..i] {}
      RunIsFirstInFirstOut(ticks[..n]);
      var s := RunTicks(EMPTY_STORE, ticks[..n]);
      NextFifo(s, ticks[n], if n == 0 then 0 else ticks[n - 1].at);
    }
  }

  lemma EmptyStoreFifo()
    ensures Healthy(EMPTY_STORE) && StoreFifo(EMPTY_STORE, 0)
  {
    assert PendingKeys(EMPTY_STORE) == {} && DispatchedKeys(EMPTY_STORE) == {};
  }

  lemma NextFifo(s: Store, tick: Tick, now: nat)
    requires Healthy(s) && StoreFifo(s, now) && now <= tick.at
    requires tick.Dispatch? && tick.answer.Some? ==> OnePerJob(PendingJobs(s, tick.max), tick.answer.value)
    ensures Healthy(Next(s, tick)) && StoreFifo(Next(s, tick), tick.at)
  {
    hide InTurn, Consistent, PendingJobs, PendingArtifacts, Keeps, Distinct, Elements;
    NextKeeps(s, tick);
    match tick
    case Monitor(found, at) => EnqueueAllFifo(s, found, at);
    case Dispatch(max, answer, at) => DispatchFifo(s, max, answer, at);
    case Submit(limit, how, at) =>
      PendingArtifactsAre(s, limit);
      if |how| == |PendingArtifacts(s, limit)| { SubmitAllKeeps(s, PendingArtifacts(s, limit), how, at); }
  }
}
