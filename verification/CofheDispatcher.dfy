/** The dispatcher: its request queue, the two batch clients, and the retry loop around them. */
module CofheDispatcher {
  import opened Prelude
  import opened CiphertextEncoding
  import opened WinnerSelection

  datatype WinnerKind = Public | Shielded | Nobody

  datatype Job = Job(auctionId: nat, requestId: Word, winnerHandle: Word, amountHandle: Word,
                     startingPrice: nat, bids: seq<BidRecord>)

  datatype Proof = Synthetic(requestId: Word, ciphertext: Word) | Live(text: string)

  datatype Resolution = Resolution(auctionId: nat, requestId: Word, winnerHandle: Word, amountHandle: Word,
                                   winner: Option<Word>, kind: WinnerKind, ciphertext: Word, amount: nat,
                                   latency: nat, proof: Proof)

  // ---- the local client ----

  /** What the local client answers for one job. */
  function LocalResolution(job: Job, latency: nat): Resolution {
    var best := Best(job.bids, job.startingPrice);
    var handle := if best.Some? then best.value.handle else 0;
    Resolution(job.auctionId, job.requestId, job.winnerHandle, job.amountHandle,
               if best.Some? then Some(best.value.bidder) else None,
               if best.None? then Nobody else if best.value.shielded then Shielded else Public,
               handle, if best.Some? then Amount(best.value) else 0, latency, Synthetic(job.requestId, handle))
  }

  /** One resolution per job and in the order of the jobs, or no answer when some handle does not decode. */
  method ResolveBatchLocally(jobs: seq<Job>, latency: nat) returns (r: Option<seq<Resolution>>)
    ensures r.None? <==> exists job, b :: job in jobs && b in job.bids && !Decodable(b)
    ensures r.Some? ==> |r.value| == |jobs| && forall i :: 0 <= i < |jobs| ==> r.value[i] == LocalResolution(jobs[i], latency)
  {
    var answers: seq<Resolution> := [];
    var i := 0;
    while i < |jobs|
      invariant 0 <= i <= |jobs| && |answers| == i
      invariant forall j, b :: 0 <= j < i && b in jobs[j].bids ==> Decodable(b)
      invariant forall j :: 0 <= j < i ==> answers[j] == LocalResolution(jobs[j], latency)
    {
      var job := jobs[i];
      var pick := PickHighest(job.bids, job.startingPrice);
      if pick.Undecodable? { return None; }
      var winner, kind, ciphertext, amount: nat := None, Nobody, 0, 0;
      if pick.bid.Some? {
        var bid := pick.bid.value;
        winner, ciphertext := Some(bid.bidder), bid.handle;
        kind := if bid.shielded then Shielded else Public;
        amount := DecodeNumeric(bid.handle).value;
      }
      answers := answers + [Resolution(job.auctionId, job.requestId, job.winnerHandle, job.amountHandle, winner, kind,
                                       ciphertext, amount, latency, Synthetic(job.requestId, ciphertext))];
      i := i + 1;
    }
    return Some(answers);
  }

  /** What a local answer says about its job: the job's own names and handles, the amount its ciphertext stands for, and a
      proof made of the request and that ciphertext. */
  lemma LocalAnswerIsAbout(job: Job, latency: nat)
    ensures var r := LocalResolution(job, latency);
            && r.auctionId == job.auctionId && r.requestId == job.requestId && r.latency == latency
            && r.winnerHandle == job.winnerHandle && r.amountHandle == job.amountHandle
            && r.proof == Synthetic(job.requestId, r.ciphertext)
            && (r.winner.None? <==> r.kind == Nobody)
            && (r.winner.None? ==> r.ciphertext == 0 && r.amount == 0)
            && (r.winner.Some? ==>
                  exists b :: b in job.bids && Eligible(b, job.startingPrice)
                              && r.winner == Some(b.bidder) && r.ciphertext == b.handle && r.amount == Amount(b)
                              && r.kind == if b.shielded then Shielded else Public)
  {
    hide DecodeNumeric;
    var best := Best(job.bids, job.startingPrice);
    if best.Some? { assert best.value in job.bids && Eligible(best.value, job.startingPrice); }
  }

  // ---- the live client ----

  /** One entry of a live answer; zero and the empty text stand for a blank field. */
  datatype Entry = Entry(requestId: Word, kind: Option<WinnerKind>, winnerHandle: Word, amountHandle: Word, proof: string,
                         winner: Option<Word>, ciphertext: Word, amount: int, latency: nat)

  predicate Names(b: BidRecord, winner: Word, kind: WinnerKind) {
    b.bidder == winner && b.shielded == (kind == Shielded)
  }

  function FirstNamed(bids: seq<BidRecord>, winner: Word, kind: WinnerKind): Option<BidRecord> {
    if bids == [] then None
    else if Names(bids[0], winner, kind) then Some(bids[0])
    else FirstNamed(bids[1..], winner, kind)
  }

  function ParseLiveEntry(e: Entry, jobs: map<Word, Job>): Option<Resolution> {
    if e.requestId !in jobs || e.kind.None? then None else
    var job, kind := jobs[e.requestId], e.kind.value;
    if e.winnerHandle == 0 || e.amountHandle == 0 || e.proof == "" then None
    else if kind == Nobody then
      if e.winner.Some? || e.ciphertext != 0 || e.amount != 0 then None
      else Some(Resolution(job.auctionId, e.requestId, e.winnerHandle, e.amountHandle, None, Nobody, 0, 0, e.latency, Live(e.proof)))
    else if e.winner.None? || e.winner.value == 0 || e.ciphertext == 0 || e.amount <= 0 then None
    else
      var bid := FirstNamed(job.bids, e.winner.value, kind);
      if bid.None? || bid.value.handle != e.ciphertext then None
      else Some(Resolution(job.auctionId, e.requestId, e.winnerHandle, e.amountHandle, e.winner, kind,
                           e.ciphertext, e.amount, e.latency, Live(e.proof)))
  }

  lemma {:induction false} FirstNamedIsFirst(bids: seq<BidRecord>, winner: Word, kind: WinnerKind)
    ensures FirstNamed(bids, winner, kind).None? <==> forall b :: b in bids ==> !Names(b, winner, kind)
    ensures FirstNamed(bids, winner, kind).Some? ==>
              exists k :: 0 <= k < |bids| && bids[k] == FirstNamed(bids, winner, kind).value && Names(bids[k], winner, kind)
                          && forall j :: 0 <= j < k ==> !Names(bids[j], winner, kind)
  {
    if bids != [] && !Names(bids[0], winner, kind) {
      FirstNamedIsFirst(bids[1..], winner, kind);
      assert bids == [bids[0]] + bids[1..];
      if FirstNamed(bids[1..], winner, kind).Some? {
        var k :| 0 <= k < |bids[1..]| && bids[1..][k] == FirstNamed(bids[1..], winner, kind).value
                 && Names(bids[1..][k], winner, kind) && forall j :: 0 <= j < k ==> !Names(bids[1..][j], winner, kind);
        assert bids[k + 1] == FirstNamed(bids, winner, kind).value;
      }
    }
  }

  /** A live answer is taken for a known job only, and a winner only when the job submitted that very bid:
      the first bid of that bidder and kind carries exactly the returned ciphertext. */
  lemma LiveWinnerWasSubmitted(e: Entry, jobs: map<Word, Job>)
    requires ParseLiveEntry(e, jobs).Some?
    ensures e.requestId in jobs
    ensures var r := ParseLiveEntry(e, jobs).value;
            && r.requestId == e.requestId && r.auctionId == jobs[e.requestId].auctionId
            && (r.kind == Nobody <==> r.winner.None?)
            && (r.kind == Nobody ==> r.amount == 0 && r.ciphertext == 0)
            && (r.kind != Nobody ==> r.amount > 0)
            && (r.kind != Nobody ==>
                  exists b :: b in jobs[e.requestId].bids && Names(b, r.winner.value, r.kind) && b.handle == r.ciphertext)
  {
    if e.kind.value != Nobody {
      FirstNamedIsFirst(jobs[e.requestId].bids, e.winner.value, e.kind.value);
    }
  }

  /** A live entry is taken exactly when it is about a job of the batch, names a kind of winner, carries both handles and
      a proof, and says nothing of a winner when there is none, or names one that bid exactly this ciphertext, for a
      positive amount. What is taken is what it said, for the job's own auction. */
  lemma LiveEntryTakenIff(e: Entry, jobs: map<Word, Job>)
    ensures ParseLiveEntry(e, jobs).Some? <==>
            && e.requestId in jobs && e.kind.Some? && e.winnerHandle != 0 && e.amountHandle != 0 && e.proof != ""
            && (e.kind.value == Nobody ==> e.winner.None? && e.ciphertext == 0 && e.amount == 0)
            && (e.kind.value != Nobody ==>
                  && e.winner.Some? && e.winner.value != 0 && e.ciphertext != 0 && e.amount > 0
                  && exists k :: BidsFirst(jobs[e.requestId].bids, e.winner.value, e.kind.value, k)
                                 && jobs[e.requestId].bids[k].handle == e.ciphertext)
    ensures ParseLiveEntry(e, jobs).Some? ==>
              ParseLiveEntry(e, jobs).value ==
              Resolution(jobs[e.requestId].auctionId, e.requestId, e.winnerHandle, e.amountHandle, e.winner, e.kind.value,
                         e.ciphertext, e.amount, e.latency, Live(e.proof))
  {
    if e.requestId in jobs && e.kind.Some? && e.winner.Some? {
      var bids, winner, kind := jobs[e.requestId].bids, e.winner.value, e.kind.value;
      FirstNamedIsFirst(bids, winner, kind);
      if FirstNamed(bids, winner, kind).Some? {
        var k :| 0 <= k < |bids| && bids[k] == FirstNamed(bids, winner, kind).value && Names(bids[k], winner, kind)
                 && forall j :: 0 <= j < k ==> !Names(bids[j], winner, kind);
        assert BidsFirst(bids, winner, kind, k);
        forall j | BidsFirst(bids, winner, kind, j) ensures j == k {}
      }
    }
  }

  /** The k-th bid is the first one of this bidder and kind. */
  ghost predicate BidsFirst(bids: seq<BidRecord>, winner: Word, kind: WinnerKind, k: int) {
    0 <= k < |bids| && Names(bids[k], winner, kind) && forall j :: 0 <= j < k ==> !Names(bids[j], winner, kind)
  }

  // ---- the queue ----

  datatype Queue = Queue(pending: map<Word, Job>, completed: map<Word, Resolution>, order: seq<Word>)

  const EMPTY_QUEUE := Queue(map[], map[], [])

  function Enqueued(q: Queue, job: Job): Queue {
    if job.requestId in q.pending || job.requestId in q.completed then q
    else q.(pending := q.pending[job.requestId := job], order := q.order + [job.requestId])
  }

  /** The requests still waiting, oldest first. */
  function Waiting(order: seq<Word>, pending: map<Word, Job>): (r: seq<Word>)
    ensures forall id :: id in r <==> id in order && id in pending
  {
    if order == [] then [] else
    var last := order[|order| - 1];
    Waiting(order[..|order| - 1], pending) + if last in pending then [last] else []
  }

  function Min(a: nat, b: nat): nat {
    if a <= b then a else b
  }

  function Batch(q: Queue, max: nat): (r: seq<Job>)
    ensures |r| == Min(max, |Waiting(q.order, q.pending)|)
  {
    var waiting := Waiting(q.order, q.pending);
    var ids := waiting[..Min(max, |waiting|)];
    assert forall i :: 0 <= i < |ids| ==> ids[i] in waiting;
    seq(|ids|, i requires 0 <= i < |ids| => q.pending[ids[i]])
  }

  function Completed(q: Queue, r: Resolution): Queue {
    q.(pending := q.pending - {r.requestId}, completed := q.completed[r.requestId := r])
  }

  function CompletedAll(q: Queue, rs: seq<Resolution>): Queue {
    if rs == [] then q else Completed(CompletedAll(q, rs[..|rs| - 1]), rs[|rs| - 1])
  }

  function Ids(rs: seq<Resolution>): set<Word> {
    set r | r in rs :: r.requestId
  }

  function Requests(jobs: seq<Job>): set<Word> {
    set job | job in jobs :: job.requestId
  }

  /** What the dispatcher expects of its client: one resolution per job of the batch, in any order. */
  ghost predicate OnePerJob(batch: seq<Job>, rs: seq<Resolution>) {
    |rs| == |batch| && Ids(rs) == Requests(batch)
  }

  /** Pending and completed requests are disjoint and together they are everything ever enqueued, each once. */
  ghost predicate Split(order: seq<Word>, pending: set<Word>, completed: set<Word>) {
    Distinct(order) && pending !! completed && pending + completed == Elements(order)
  }

  /** First in is first out: the completed ones are exactly the oldest. */
  ghost predicate InTurn(order: seq<Word>, pending: set<Word>, completed: set<Word>) {
    && Split(order, pending, completed)
    && |completed| <= |order| && completed == Elements(order[..|completed|])
  }

  ghost predicate Keyed(q: Queue) {
    forall id :: id in q.pending ==> q.pending[id].requestId == id
  }

  ghost predicate Partitioned(q: Queue) {
    Split(q.order, q.pending.Keys, q.completed.Keys) && Keyed(q)
  }

  ghost predicate Fifo(q: Queue) {
    InTurn(q.order, q.pending.Keys, q.completed.Keys) && Keyed(q)
  }

  function Served(q: Queue): nat {
    |q.completed.Keys|
  }

  lemma {:induction false} WaitingIsSuffix(order: seq<Word>, pending: map<Word, Job>, k: nat)
    requires k <= |order|
    requires forall i :: 0 <= i < |order| ==> (order[i] in pending <==> i >= k)
    ensures Waiting(order, pending) == order[k..]
  {
    if |order| > k {
      var n := |order| - 1;
      WaitingIsSuffix(order[..n], pending, k);
      assert order[k..] == order[..n][k..] + [order[n]];
    } else if order != [] {
      var n := |order| - 1;
      WaitingIsSuffix(order[..n], pending, n);
    }
  }

  /** The waiting requests of a first-in-first-out queue, oldest first, are the order without the completed ones. */
  lemma FifoWaiting(q: Queue)
    requires Fifo(q)
    ensures Served(q) <= |q.order|
    ensures Waiting(q.order, q.pending) == q.order[Served(q)..]
  {
    var k := Served(q);
    forall i | 0 <= i < |q.order| ensures q.order[i] in q.pending <==> i >= k {
      assert q.order[i] in Elements(q.order);
      assert q.order[i] in q.order[..k] <==> i < k by {
        if i < k { assert q.order[..k][i] == q.order[i]; }
      }
    }
    WaitingIsSuffix(q.order, q.pending, k);
  }

  lemma {:induction false} CompletedAllIs(q: Queue, rs: seq<Resolution>)
    ensures CompletedAll(q, rs).order == q.order
    ensures CompletedAll(q, rs).pending == q.pending - Ids(rs)
    ensures CompletedAll(q, rs).completed.Keys == q.completed.Keys + Ids(rs)
  {
    if rs != [] {
      CompletedAllIs(q, rs[..|rs| - 1]);
      assert rs == rs[..|rs| - 1] + [rs[|rs| - 1]];
      assert Ids(rs) == Ids(rs[..|rs| - 1]) + {rs[|rs| - 1].requestId};
    } else {
      assert Ids(rs) == {};
    }
  }

  lemma EnqueueKeepsFifo(q: Queue, job: Job)
    requires Fifo(q)
    ensures Fifo(Enqueued(q, job))
  {
    hide InTurn;
    if job.requestId !in q.pending && job.requestId !in q.completed {
      ArrivalInTurn(q.order, q.pending.Keys, q.completed.Keys, job.requestId);
      assert Enqueued(q, job).pending.Keys == q.pending.Keys + {job.requestId};
    }
  }

  lemma ArrivalInTurn(order: seq<Word>, pending: set<Word>, completed: set<Word>, id: Word)
    requires InTurn(order, pending, completed) && id !in pending && id !in completed
    ensures InTurn(order + [id], pending + {id}, completed)
  {
    hide Elements, Distinct;
    DistinctAppend(order, id);
    assert (order + [id])[..|completed|] == order[..|completed|];
  }

  lemma ServiceInTurn(order: seq<Word>, pending: set<Word>, completed: set<Word>, n: nat)
    requires InTurn(order, pending, completed) && |completed| + n <= |order|
    ensures var served := Elements(order[|completed|..|completed| + n]);
            InTurn(order, pending - served, completed + served) && |completed + served| == |completed| + n
  {
    hide Elements, Distinct;
    var k := |completed|;
    var served := Elements(order[k..k + n]);
    assert order[..k + n] == order[..k] + order[k..k + n];
    ElementsOfConcatenation(order[..k], order[k..k + n]);
    DistinctPrefix(order, k + n);
    DistinctCount(order[..k + n]);
    assert order == order[..k + n] + order[k + n..];
    ElementsOfConcatenation(order[..k + n], order[k + n..]);
  }

  lemma DistinctPrefix(order: seq<Word>, k: nat)
    requires Distinct(order) && k <= |order|
    ensures Distinct(order[..k])
  {}

  /** A batch is exactly the oldest waiting requests. */
  lemma BatchIsOldest(q: Queue, max: nat)
    requires Fifo(q)
    ensures Served(q) <= |q.order|
    ensures var n := Min(max, |q.order| - Served(q));
            |Batch(q, max)| == n && Requests(Batch(q, max)) == Elements(q.order[Served(q)..Served(q) + n])
  {
    hide InTurn, Requests, Waiting, Elements;
    FifoWaiting(q);
    BatchRequests(q, max);
    var k, n := Served(q), Min(max, |q.order| - Served(q));
    assert q.order[k..][..n] == q.order[k..k + n];
  }

  lemma BatchRequests(q: Queue, max: nat)
    requires forall id :: id in q.pending ==> q.pending[id].requestId == id
    ensures var waiting := Waiting(q.order, q.pending);
            Requests(Batch(q, max)) == Elements(waiting[..Min(max, |waiting|)])
  {
    var waiting, batch := Waiting(q.order, q.pending), Batch(q, max);
    var ids := waiting[..Min(max, |waiting|)];
    forall i | 0 <= i < |ids| ensures batch[i].requestId == ids[i] {
      assert ids[i] in waiting;
    }
    forall id | id in ids ensures id in Requests(batch) {
      var i :| 0 <= i < |ids| && ids[i] == id;
      assert batch[i] in batch;
    }
  }

  /** Serving a batch moves exactly the oldest waiting requests to the completed side. */
  lemma BatchKeepsFifo(q: Queue, max: nat, rs: seq<Resolution>)
    requires Fifo(q) && OnePerJob(Batch(q, max), rs)
    ensures Served(q) <= |q.order| && Served(CompletedAll(q, rs)) == Served(q) + Min(max, |q.order| - Served(q))
    ensures Fifo(CompletedAll(q, rs))
  {
    hide InTurn, Requests, Batch, Ids, CompletedAll, Elements;
    BatchIsOldest(q, max);
    ServiceInTurn(q.order, q.pending.Keys, q.completed.Keys, Min(max, |q.order| - Served(q)));
    CompletedAllIs(q, rs);
    assert CompletedAll(q, rs).pending.Keys == q.pending.Keys - Ids(rs);
  }

  // ---- what survives any order of service ----

  /** The requests of a list that are not among these, in the order they had. */
  function Without(list: seq<Word>, gone: set<Word>): seq<Word> {
    if list == [] then [] else
    var last := list[|list| - 1];
    Without(list[..|list| - 1], gone) + if last in gone then [] else [last]
  }

  /** Whatever is completed, those still waiting keep their places. */
  lemma {:induction false} WaitingWithout(order: seq<Word>, pending: map<Word, Job>, gone: set<Word>)
    ensures Waiting(order, pending - gone) == Without(Waiting(order, pending), gone)
  {
    if order != [] {
      var n := |order| - 1;
      WaitingWithout(order[..n], pending, gone);
      var front := Waiting(order[..n], pending);
      if order[n] in pending {
        assert (front + [order[n]])[..|front|] == front;
      } else {
        assert Waiting(order, pending) == front;
      }
    }
  }

  lemma {:induction false} WaitingDistinct(order: seq<Word>, pending: map<Word, Job>)
    requires Distinct(order)
    ensures Distinct(Waiting(order, pending))
  {
    if order != [] {
      var n := |order| - 1;
      WaitingDistinct(order[..n], pending);
      assert order[n] !in order[..n];
    }
  }

  lemma MoveKeepsSplit(order: seq<Word>, pending: set<Word>, completed: set<Word>, moved: set<Word>)
    requires Split(order, pending, completed) && moved <= pending
    ensures Split(order, pending - moved, completed + moved) && |completed + moved| == |completed| + |moved|
  {
    hide Distinct, Elements;
  }

  /** Completing requests that are all pending keeps the partition. */
  lemma CompletedKeepsPartition(q: Queue, rs: seq<Resolution>)
    requires Partitioned(q) && Ids(rs) <= q.pending.Keys
    ensures Partitioned(CompletedAll(q, rs))
    ensures Served(CompletedAll(q, rs)) == Served(q) + |Ids(rs)|
    ensures var q' := CompletedAll(q, rs); Waiting(q'.order, q'.pending) == Without(Waiting(q.order, q.pending), Ids(rs))
  {
    hide Split, Ids, CompletedAll, Waiting, Without;
    CompletedAllIs(q, rs);
    WaitingWithout(q.order, q.pending, Ids(rs));
    MoveKeepsSplit(q.order, q.pending.Keys, q.completed.Keys, Ids(rs));
    assert CompletedAll(q, rs).pending.Keys == q.pending.Keys - Ids(rs);
  }

  /** A batch is the oldest of those waiting, each once, and serving it keeps the partition. */
  lemma BatchKeepsPartition(q: Queue, max: nat, rs: seq<Resolution>)
    requires Partitioned(q) && OnePerJob(Batch(q, max), rs)
    ensures Partitioned(CompletedAll(q, rs))
    ensures var waiting := Waiting(q.order, q.pending);
            && Requests(Batch(q, max)) == Elements(waiting[..Min(max, |waiting|)])
            && Served(CompletedAll(q, rs)) == Served(q) + Min(max, |waiting|)
  {
    var waiting := Waiting(q.order, q.pending);
    var oldest := waiting[..Min(max, |waiting|)];
    hide Split, Ids, Requests, CompletedAll, Batch;
    BatchRequests(q, max);
    SplitDistinct(q.order, q.pending.Keys, q.completed.Keys);
    WaitingDistinct(q.order, q.pending);
    DistinctPrefix(waiting, Min(max, |waiting|));
    DistinctCount(oldest);
    forall id | id in Elements(oldest) ensures id in q.pending { assert id in waiting; }
    CompletedKeepsPartition(q, rs);
  }

  lemma SplitDistinct(order: seq<Word>, pending: set<Word>, completed: set<Word>)
    requires Split(order, pending, completed)
    ensures Distinct(order)
  {}

  lemma EnqueueKeepsPartition(q: Queue, job: Job)
    requires Partitioned(q)
    ensures Partitioned(Enqueued(q, job))
  {
    hide Distinct, Elements;
    if job.requestId !in q.pending && job.requestId !in q.completed {
      DistinctAppend(q.order, job.requestId);
      assert Enqueued(q, job).pending.Keys == q.pending.Keys + {job.requestId};
    }
  }

  // ---- runs ----

  /** What happens to the queue; an answer is a client's to one whole batch, None when every attempt failed. Direct is
      the dispatch of one new job at once, past whatever waits. */
  datatype Event =
    | Arrive(job: Job)
    | Serve(max: nat, answer: Option<seq<Resolution>>)
    | Direct(job: Job, answer: Option<seq<Resolution>>)

  function Handle(q: Queue, e: Event): Queue {
    match e
    case Arrive(job) => Enqueued(q, job)
    case Serve(max, answer) => if answer.None? || Batch(q, max) == [] then q else CompletedAll(q, answer.value)
    case Direct(job, answer) =>
      if job.requestId in q.pending || job.requestId in q.completed then q
      else if answer.None? then Enqueued(q, job)
      else CompletedAll(Enqueued(q, job), answer.value)
  }

  function Replay(q: Queue, events: seq<Event>): Queue {
    if events == [] then q else Handle(Replay(q, events[..|events| - 1]), events[|events| - 1])
  }

  /** The client answers one resolution per job that it is asked for, or nothing. */
  ghost predicate Answered(q: Queue, e: Event) {
    match e
    case Arrive(job) => true
    case Serve(max, answer) => answer.Some? ==> OnePerJob(Batch(q, max), answer.value)
    case Direct(job, answer) => answer.Some? ==> OnePerJob([job], answer.value)
  }

  ghost predicate WellAnswered(q: Queue, events: seq<Event>) {
    forall i :: 0 <= i < |events| ==> Answered(Replay(q, events[..i]), events[i])
  }

  lemma WellAnsweredFront(q: Queue, events: seq<Event>)
    requires WellAnswered(q, events) && events != []
    ensures WellAnswered(q, events[..|events| - 1]) && Answered(Replay(q, events[..|events| - 1]), events[|events| - 1])
  {
    hide Answered, Replay;
    var front := events[..|events| - 1];
    forall i | 0 <= i < |front| ensures Answered(Replay(q, front[..i]), front[i]) { assert front[..i] == events[..i]; }
  }

  lemma HandleKeepsPartition(q: Queue, e: Event)
    requires Partitioned(q) && Answered(q, e)
    ensures Partitioned(Handle(q, e))
  {
    hide Partitioned, Batch, CompletedAll;
    match e
    case Arrive(job) => EnqueueKeepsPartition(q, job);
    case Serve(max, answer) => if answer.Some? { BatchKeepsPartition(q, max, answer.value); }
    case Direct(job, answer) =>
      EnqueueKeepsPartition(q, job);
      if answer.Some? && job.requestId !in q.pending && job.requestId !in q.completed {
        OnlyAnswer(job, answer.value);
        CompletedKeepsPartition(Enqueued(q, job), answer.value);
      }
  }

  /** Over any run nothing is lost and nothing is served twice, direct dispatches included. */
  lemma {:induction false} RunIsPartitioned(events: seq<Event>)
    requires WellAnswered(EMPTY_QUEUE, events)
    ensures Partitioned(Replay(EMPTY_QUEUE, events))
  {
    hide Partitioned, Answered, Handle;
    if events == [] {
      EmptyIsFifo();
    } else {
      var n := |events| - 1;
      WellAnsweredFront(EMPTY_QUEUE, events);
      RunIsPartitioned(events[..n]);
      HandleKeepsPartition(Replay(EMPTY_QUEUE, events[..n]), events[n]);
    }
  }

  /** Over any run without direct dispatches the queue is first in, first out. */
  lemma {:induction false} RunIsFifo(events: seq<Event>)
    requires WellAnswered(EMPTY_QUEUE, events) && forall e :: e in events ==> !e.Direct?
    ensures Fifo(Replay(EMPTY_QUEUE, events))
  {
    hide Fifo, Batch, CompletedAll, OnePerJob, Partitioned;
    if events == [] {
      EmptyIsFifo();
    } else {
      var n := |events| - 1;
      WellAnsweredFront(EMPTY_QUEUE, events);
      RunIsFifo(events[..n]);
      var q := Replay(EMPTY_QUEUE, events[..n]);
      var e := events[n];
      assert e in events;
      if e.Arrive? { EnqueueKeepsFifo(q, e.job); }
      else if e.answer.Some? { BatchKeepsFifo(q, e.max, e.answer.value); }
    }
  }

  /** A direct dispatch that is answered keeps the order of service exactly when it overtakes nobody. */
  lemma DirectKeepsFifoIff(q: Queue, job: Job, rs: seq<Resolution>)
    requires Fifo(q) && job.requestId !in q.pending && job.requestId !in q.completed && OnePerJob([job], rs)
    ensures Fifo(Handle(q, Direct(job, Some(rs)))) <==> q.pending == map[]
  {
    hide InTurn;
    DirectShape(q, job, rs);
    DirectInTurnIff(q.order, q.pending.Keys, q.completed.Keys, job.requestId);
    assert q.pending.Keys == {} <==> q.pending == map[];
  }

  lemma DirectShape(q: Queue, job: Job, rs: seq<Resolution>)
    requires job.requestId !in q.pending && job.requestId !in q.completed && OnePerJob([job], rs)
    ensures var q' := Handle(q, Direct(job, Some(rs)));
            && q'.order == q.order + [job.requestId] && q'.pending == q.pending
            && q'.completed.Keys == q.completed.Keys + {job.requestId}
  {
    OnlyAnswer(job, rs);
    hide CompletedAll, Ids, OnePerJob;
    CompletedAllIs(Enqueued(q, job), rs);
  }

  lemma OnlyAnswer(job: Job, rs: seq<Resolution>)
    requires OnePerJob([job], rs)
    ensures Ids(rs) == {job.requestId}
  {}

  lemma DirectInTurnIff(order: seq<Word>, pending: set<Word>, completed: set<Word>, id: Word)
    requires InTurn(order, pending, completed) && id !in pending && id !in completed
    ensures InTurn(order + [id], pending, completed + {id}) <==> pending == {}
  {
    DistinctAppend(order, id);
    DistinctCount(order);
    if pending == {} { assert (order + [id])[..|completed| + 1] == order + [id]; }
  }

  lemma EmptyIsFifo()
    ensures Fifo(EMPTY_QUEUE) && Partitioned(EMPTY_QUEUE)
  {}

  // ---- the classes ----

  class InMemoryDispatchQueue {
    var pending: map<Word, Job>
    var completed: map<Word, Resolution>
    var order: seq<Word>

    ghost function View(): Queue
      reads this
    {
      Queue(pending, completed, order)
    }

    constructor ()
      ensures View() == EMPTY_QUEUE && Fifo(View())
    {
      pending, completed, order := map[], map[], [];
    }

    /** A request id that is pending or completed is refused and nothing changes. */
    method Enqueue(job: Job) returns (ok: bool)
      modifies this
      ensures ok == (job.requestId !in old(pending) && job.requestId !in old(completed))
      ensures View() == Enqueued(old(View()), job)
      ensures old(Fifo(View())) ==> Fifo(View())
    {
      if Fifo(View()) { EnqueueKeepsFifo(View(), job); }
      if job.requestId in pending || job.requestId in completed { return false; }
      pending := pending[job.requestId := job];
      order := order + [job.requestId];
      return true;
    }

    method TakeBatch(max: nat) returns (batch: seq<Job>)
      ensures batch == Batch(View(), max)
    {
      var waiting: seq<Word> := [];
      var i := 0;
      while i < |order|
        invariant 0 <= i <= |order|
        invariant waiting == Waiting(order[..i], pending)
      {
        assert order[..i + 1][..i] == order[..i];
        if order[i] in pending { waiting := waiting + [order[i]]; }
        i := i + 1;
      }
      assert order[..i] == order;
      batch := [];
      i := 0;
      while i < Min(max, |waiting|)
        invariant 0 <= i <= Min(max, |waiting|)
        invariant batch == Batch(View(), max)[..i]
      {
        assert waiting[i] in waiting;
        batch := batch + [pending[waiting[i]]];
        i := i + 1;
      }
    }

    /** The request leaves those waiting, who keep their places; a pending one keeps the partition. Completing is all
        or nothing for a request: it is in one of the two maps, not in both. */
    method MarkCompleted(resolution: Resolution)
      modifies this
      ensures View() == CompletedAll(old(View()), [resolution])
      ensures Waiting(order, pending) == Without(old(Waiting(order, pending)), {resolution.requestId})
      ensures resolution.requestId !in pending && completed.Keys == old(completed.Keys) + {resolution.requestId}
      ensures completed[resolution.requestId] == resolution
      ensures forall id :: id in old(pending) && id != resolution.requestId ==> id in pending && pending[id] == old(pending)[id]
      ensures forall id :: id in old(completed) && id != resolution.requestId ==> completed[id] == old(completed)[id]
      ensures old(Partitioned(View())) && resolution.requestId in old(pending) ==> Partitioned(View())
    {
      WaitingWithout(order, pending, {resolution.requestId});
      assert [resolution][..0] == [] && Ids([resolution]) == {resolution.requestId};
      if Partitioned(View()) && resolution.requestId in pending { CompletedKeepsPartition(View(), [resolution]); }
      pending := pending - {resolution.requestId};
      completed := completed[resolution.requestId := resolution];
    }
  }

  function Pow2(n: nat): nat {
    if n == 0 then 1 else 2 * Pow2(n - 1)
  }

  /** How a client answers one attempt, and how long that took. */
  datatype Answer = Resolved(list: seq<Resolution>, elapsed: nat) | Threw

  function Latency(rs: seq<Resolution>): nat {
    if rs == [] then 0 else Latency(rs[..|rs| - 1]) + rs[|rs| - 1].latency
  }

  datatype Metrics = Metrics(successfulBatches: nat, failedBatches: nat, successfulRequests: nat, failedRequests: nat,
                             totalLatency: nat)

  class Dispatcher {
    const queue: InMemoryDispatchQueue
    const maxRetries: nat
    const retryBaseDelay: nat
    const maxBatchSize: nat
    var metrics: Metrics

    constructor (queue: InMemoryDispatchQueue, maxRetries: nat, retryBaseDelay: nat, maxBatchSize: nat)
      ensures this.queue == queue && metrics == Metrics(0, 0, 0, 0, 0)
    {
      this.queue, this.maxRetries, this.retryBaseDelay, this.maxBatchSize := queue, maxRetries, retryBaseDelay, maxBatchSize;
      metrics := Metrics(0, 0, 0, 0, 0);
    }

    /** The client's answer to each attempt is the parameter client. The first attempt that answers completes the
        batch; when none does, only the two failure counters move. */
    method DispatchBatch(batch: seq<Job>, client: nat -> Answer) returns (r: Option<seq<Resolution>>, calls: nat, slept: nat)
      modifies this, queue
      ensures 1 <= calls <= maxRetries + 1
      ensures forall i :: 0 <= i < calls - 1 ==> client(i).Threw?
      ensures r.Some? <==> client(calls - 1).Resolved?
      ensures r.None? ==> calls == maxRetries + 1
      ensures slept == retryBaseDelay * (Pow2(calls - 1) - 1)
      ensures r.None? ==>
                && queue.View() == old(queue.View())
                && metrics == old(metrics).(failedBatches := old(metrics).failedBatches + 1,
                                            failedRequests := old(metrics).failedRequests + |batch|)
      ensures r.Some? ==>
                var answer, was := client(calls - 1), old(metrics);
                && r.value == answer.list
                && queue.View() == CompletedAll(old(queue.View()), answer.list)
                && metrics == was.(successfulBatches := was.successfulBatches + 1,
                                   successfulRequests := was.successfulRequests + |answer.list|,
                                   totalLatency := was.totalLatency
                                                   + if answer.list == [] then answer.elapsed else Latency(answer.list))
    {
      var attempt := 0;
      slept := 0;
      calls := 0;
      while attempt <= maxRetries
        invariant 0 <= attempt <= maxRetries && calls == attempt
        invariant forall i :: 0 <= i < attempt ==> client(i).Threw?
        invariant slept == retryBaseDelay * (Pow2(attempt) - 1)
        invariant queue.View() == old(queue.View()) && metrics == old(metrics)
        decreases maxRetries - attempt
      {
        var answer := client(attempt);
        calls := calls + 1;
        if answer.Resolved? {
          CompleteEach(answer.list);
          metrics := metrics.(successfulBatches := metrics.successfulBatches + 1);
          if answer.list == [] { metrics := metrics.(totalLatency := metrics.totalLatency + answer.elapsed); }
          return Some(answer.list), calls, slept;
        }
        if attempt == maxRetries { break; }
        slept := slept + retryBaseDelay * Pow2(attempt);
        BackoffGrows(retryBaseDelay, Pow2(attempt));
        attempt := attempt + 1;
      }
      metrics := metrics.(failedBatches := metrics.failedBatches + 1, failedRequests := metrics.failedRequests + |batch|);
      return None, calls, slept;
    }

    method CompleteEach(list: seq<Resolution>)
      modifies this`metrics, queue
      ensures queue.View() == CompletedAll(old(queue.View()), list)
      ensures metrics == old(metrics).(successfulRequests := old(metrics).successfulRequests + |list|,
                                       totalLatency := old(metrics).totalLatency + Latency(list))
    {
      var i := 0;
      while i < |list|
        invariant 0 <= i <= |list|
        invariant queue.View() == CompletedAll(old(queue.View()), list[..i])
        invariant metrics == old(metrics).(successfulRequests := old(metrics).successfulRequests + i,
                                           totalLatency := old(metrics).totalLatency + Latency(list[..i]))
      {
        assert list[..i + 1][..i] == list[..i];
        queue.MarkCompleted(list[i]);
        metrics := metrics.(successfulRequests := metrics.successfulRequests + 1,
                            totalLatency := metrics.totalLatency + list[i].latency);
        i := i + 1;
      }
      assert list[..i] == list;
    }

    /** With a client that answers one resolution per job, a pending batch is served whole or not at all, in turn
        when the queue was in turn, and the success counter keeps counting the completed requests. */
    method DispatchPendingBatch(client: nat -> Answer) returns (r: Option<seq<Resolution>>)
      requires Partitioned(queue.View()) && metrics.successfulRequests == Served(queue.View())
      requires forall i :: 0 <= i <= maxRetries && client(i).Resolved? ==>
                 OnePerJob(Batch(queue.View(), maxBatchSize), client(i).list)
      modifies this, queue
      ensures Partitioned(queue.View()) && metrics.successfulRequests == Served(queue.View())
      ensures old(Fifo(queue.View())) ==> Fifo(queue.View())
      ensures queue.View() == Handle(old(queue.View()), Serve(maxBatchSize, r))
      ensures old(Batch(queue.View(), maxBatchSize)) == [] ==> r == Some([]) && metrics == old(metrics)
      ensures r.Some? ==> Served(queue.View()) ==
                          old(Served(queue.View())) + Min(maxBatchSize, |old(Waiting(queue.order, queue.pending))|)
    {
      hide Fifo, Partitioned, Batch, CompletedAll, Served, Waiting;
      ghost var before := queue.View();
      var batch := queue.TakeBatch(maxBatchSize);
      if |batch| == 0 { return Some([]); }
      var calls, slept;
      r, calls, slept := DispatchBatch(batch, client);
      if r.Some? {
        BatchKeepsPartition(before, maxBatchSize, r.value);
        if Fifo(before) { BatchKeepsFifo(before, maxBatchSize, r.value); }
      }
    }

    /** One new job at once: a known request is refused before the client is asked, a failed one stays waiting. */
    method Dispatch(job: Job, client: nat -> Answer) returns (accepted: bool, r: Option<seq<Resolution>>)
      requires Partitioned(queue.View())
      requires forall i :: 0 <= i <= maxRetries && client(i).Resolved? ==> OnePerJob([job], client(i).list)
      modifies this, queue
      ensures Partitioned(queue.View())
      ensures accepted == (job.requestId !in old(queue.pending) && job.requestId !in old(queue.completed))
      ensures !accepted ==> queue.View() == old(queue.View()) && metrics == old(metrics) && r.None?
      ensures queue.View() == Handle(old(queue.View()), Direct(job, r))
    {
      hide Partitioned, CompletedAll;
      ghost var before := queue.View();
      EnqueueKeepsPartition(before, job);
      accepted := queue.Enqueue(job);
      if !accepted { return false, None; }
      var calls, slept;
      r, calls, slept := DispatchBatch([job], client);
      HandleKeepsPartition(before, Direct(job, r));
    }
  }

  lemma BackoffGrows(base: nat, p: nat)
    ensures base * (p - 1) + base * p == base * (2 * p - 1)
  {
    assert base * (p - 1) == base * p - base;
    assert base * (2 * p - 1) == base * p + base * p - base;
  }
}
