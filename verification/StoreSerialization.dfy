/** The state file of the keeper: every record with its big integers as decimal text, and back. */
module StoreSerialization {
  import opened Prelude
  import opened HandleCodec
  import opened WinnerSelection
  import opened CofheDispatcher
  import opened AuctionStateStore

  datatype WireAuction = WireAuction(auctionId: string, state: string, endTime: string, deposit: Option<string>,
                                     trackedAt: nat, lastAttemptAt: Option<nat>, retryCount: nat)

  datatype WireAttempt = WireAttempt(auctionId: string, gasUsed: Option<string>, incentive: Option<string>, rest: Attempt)

  datatype WireRace = WireRace(auctionId: string, rest: Race)

  datatype WireBid = WireBid(escrow: string, rest: BidRecord)

  datatype WireJob = WireJob(auctionId: string, startingPrice: string, bids: seq<WireBid>, rest: StoredJob)

  datatype WireArtifact = WireArtifact(auctionId: string, amount: string, rest: Artifact)

  datatype Wire = Wire(auctions: seq<WireAuction>, attempts: seq<WireAttempt>, races: seq<WireRace>,
                       jobs: seq<WireJob>, artifacts: seq<WireArtifact>)

  // ---- one record ----

  function Show(n: nat): string {
    Print(n, 10)
  }

  /** A stored amount is read as a number from zero up; None when the text is no such number. */
  function ReadNat(text: string): Option<nat> {
    var n := BigInt(text);
    if n.Some? && n.value >= 0 then Some(n.value) else None
  }

  function ShowSome(n: Option<nat>): Option<string> {
    if n.Some? then Some(Show(n.value)) else None
  }

  /** An absent field stays absent; a present one must be a number. */
  function ReadSome(text: Option<string>): Option<Option<nat>> {
    if text.None? then Some(None)
    else var n := ReadNat(text.value); if n.Some? then Some(n) else None
  }

  lemma ShowRead(n: nat)
    ensures ReadNat(Show(n)) == Some(n)
  {
    DecimalRoundTrip(n);
  }

  lemma ShowReadSome(n: Option<nat>)
    ensures ReadSome(ShowSome(n)) == Some(n)
  {
    if n.Some? { ShowRead(n.value); }
  }

  function SerializeAuction(entry: (nat, Tracked)): WireAuction {
    var (id, a) := entry;
    WireAuction(Show(id), Show(a.state), Show(a.endTime), ShowSome(a.deposit), a.trackedAt, a.lastAttemptAt, a.retryCount)
  }

  function DeserializeAuction(w: WireAuction): Option<(nat, Tracked)> {
    var id, state, end, deposit := ReadNat(w.auctionId), ReadNat(w.state), ReadNat(w.endTime), ReadSome(w.deposit);
    if id.None? || state.None? || end.None? || deposit.None? then None
    else Some((id.value, Tracked(state.value, end.value, deposit.value, w.trackedAt, w.lastAttemptAt, w.retryCount)))
  }

  function SerializeAttempt(a: Attempt): WireAttempt {
    WireAttempt(Show(a.auctionId), ShowSome(a.gasUsed), ShowSome(a.incentive), a.(auctionId := 0, gasUsed := None, incentive := None))
  }

  function DeserializeAttempt(w: WireAttempt): Option<Attempt> {
    var id, gas, incentive := ReadNat(w.auctionId), ReadSome(w.gasUsed), ReadSome(w.incentive);
    if id.None? || gas.None? || incentive.None? then None
    else Some(w.rest.(auctionId := id.value, gasUsed := gas.value, incentive := incentive.value))
  }

  function SerializeRace(r: Race): WireRace {
    WireRace(Show(r.auctionId), r.(auctionId := 0))
  }

  function DeserializeRace(w: WireRace): Option<Race> {
    var id := ReadNat(w.auctionId);
    if id.None? then None else Some(w.rest.(auctionId := id.value))
  }

  function SerializeBid(b: BidRecord): WireBid {
    WireBid(Show(b.escrow), b.(escrow := 0))
  }

  function DeserializeBid(w: WireBid): Option<BidRecord> {
    var escrow := ReadNat(w.escrow);
    if escrow.None? then None else Some(w.rest.(escrow := escrow.value))
  }

  function SerializeJob(j: StoredJob): WireJob {
    WireJob(Show(j.job.auctionId), Show(j.job.startingPrice), Map(SerializeBid, j.job.bids),
            j.(job := j.job.(auctionId := 0, startingPrice := 0, bids := [])))
  }

  function DeserializeJob(w: WireJob): Option<StoredJob> {
    var id, price, bids := ReadNat(w.auctionId), ReadNat(w.startingPrice), MapAll(DeserializeBid, w.bids);
    if id.None? || price.None? || bids.None? then None
    else Some(w.rest.(job := w.rest.job.(auctionId := id.value, startingPrice := price.value, bids := bids.value)))
  }

  function SerializeArtifact(a: Artifact): WireArtifact {
    WireArtifact(Show(a.auctionId), Show(a.amount), a.(auctionId := 0, amount := 0))
  }

  /** A record without a kind of winner is read as a public one. */
  function DeserializeArtifact(w: WireArtifact): Option<Artifact> {
    var id, amount := ReadNat(w.auctionId), ReadNat(w.amount);
    if id.None? || amount.None? then None
    else Some(Explicit(w.rest.(auctionId := id.value, amount := amount.value)))
  }

  function Explicit(a: Artifact): Artifact {
    if a.kind.None? then a.(kind := Some(Public)) else a
  }

  // ---- lists of records ----

  function Map<A, B>(f: A -> B, s: seq<A>): (r: seq<B>)
    ensures |r| == |s| && forall i :: 0 <= i < |s| ==> r[i] == f(s[i])
  {
    seq(|s|, i requires 0 <= i < |s| => f(s[i]))
  }

  /** The whole list fails when one element does. */
  function MapAll<A, B>(f: A -> Option<B>, s: seq<A>): (r: Option<seq<B>>)
    ensures r.Some? <==> forall i :: 0 <= i < |s| ==> f(s[i]).Some?
    ensures r.Some? ==> |r.value| == |s| && forall i :: 0 <= i < |s| ==> f(s[i]) == Some(r.value[i])
  {
    if s == [] then Some([]) else
    var front, last := MapAll(f, s[..|s| - 1]), f(s[|s| - 1]);
    if front.None? || last.None? then None else Some(front.value + [last.value])
  }

  /** Reading back what was written, element by element. */
  lemma MapAllMap<A(!new), B>(write: A -> B, read: B -> Option<A>, s: seq<A>)
    requires forall a :: a in s ==> read(write(a)) == Some(a)
    ensures MapAll(read, Map(write, s)) == Some(s)
  {
    var wire := Map(write, s);
    forall i | 0 <= i < |s| ensures read(wire[i]) == Some(s[i]) {
      assert s[i] in s;
    }
    assert MapAll(read, wire).Some? && MapAll(read, wire).value == s;
  }

  lemma AuctionRoundTrip(entry: (nat, Tracked))
    ensures DeserializeAuction(SerializeAuction(entry)) == Some(entry)
  {
    var (id, a) := entry;
    hide ReadNat, Show, ReadSome, ShowSome;
    ShowRead(id); ShowRead(a.state); ShowRead(a.endTime); ShowReadSome(a.deposit);
  }

  lemma AttemptRoundTrip(a: Attempt)
    ensures DeserializeAttempt(SerializeAttempt(a)) == Some(a)
  {
    hide ReadNat, Show, ReadSome, ShowSome;
    ShowRead(a.auctionId); ShowReadSome(a.gasUsed); ShowReadSome(a.incentive);
  }

  lemma RaceRoundTrip(r: Race)
    ensures DeserializeRace(SerializeRace(r)) == Some(r)
  {
    ShowRead(r.auctionId);
  }

  lemma JobRoundTrip(j: StoredJob)
    ensures DeserializeJob(SerializeJob(j)) == Some(j)
  {
    hide ReadNat, Show;
    ShowRead(j.job.auctionId); ShowRead(j.job.startingPrice);
    forall b | b in j.job.bids ensures DeserializeBid(SerializeBid(b)) == Some(b) { ShowRead(b.escrow); }
    MapAllMap(SerializeBid, DeserializeBid, j.job.bids);
  }

  lemma ArtifactRoundTrip(a: Artifact)
    ensures DeserializeArtifact(SerializeArtifact(a)) == Some(Explicit(a))
  {
    hide ReadNat, Show;
    ShowRead(a.auctionId); ShowRead(a.amount);
  }

  // ---- the whole store ----

  /** A JavaScript map: its rows, and its keys in the order of their first insertion. */
  datatype Table<!K, +V> = Table(rows: map<K, V>, order: seq<K>)

  function Load<K, V>(entries: seq<(K, V)>): Table<K, V> {
    if entries == [] then Table(map[], []) else
    var before, last := Load(entries[..|entries| - 1]), entries[|entries| - 1];
    Table(before.rows[last.0 := last.1], if last.0 in before.rows then before.order else before.order + [last.0])
  }

  function Values<K, V>(order: seq<K>, m: map<K, V>): (r: seq<V>)
    requires forall k :: k in order ==> k in m
    ensures |r| == |order| && forall i :: 0 <= i < |order| ==> r[i] == m[order[i]]
  {
    seq(|order|, i requires 0 <= i < |order| => m[order[i]])
  }

  function Entries<K, V>(order: seq<K>, m: map<K, V>): (r: seq<(K, V)>)
    requires forall k :: k in order ==> k in m
    ensures |r| == |order| && forall i :: 0 <= i < |order| ==> r[i] == (order[i], m[order[i]])
  {
    seq(|order|, i requires 0 <= i < |order| => (order[i], m[order[i]]))
  }

  /** Loading the entries of a map in the order of their insertion rebuilds the map and its order. */
  lemma {:induction false} LoadBuilds<K, V>(entries: seq<(K, V)>, order: seq<K>, m: map<K, V>)
    requires Distinct(order) && |entries| == |order|
    requires forall i :: 0 <= i < |order| ==> order[i] in m && entries[i] == (order[i], m[order[i]])
    ensures var t := Load(entries);
            t.order == order && t.rows.Keys == Elements(order) && forall k :: k in order ==> t.rows[k] == m[k]
    decreases |entries|
  {
    if entries != [] {
      var n := |entries| - 1;
      LoadBuilds(entries[..n], order[..n], m);
      assert order == order[..n] + [order[n]];
      assert order[n] !in order[..n];
    }
  }

  lemma LoadAll<K, V>(order: seq<K>, m: map<K, V>)
    requires Distinct(order) && Elements(order) == m.Keys
    ensures forall k :: k in order <==> k in m
    ensures Load(Entries(order, m)) == Table(m, order)
  {
    forall k ensures k in order <==> k in m { assert k in order <==> k in Elements(order); }
    LoadBuilds(Entries(order, m), order, m);
  }

  /** The insertion orders list each key of the maps exactly once, under the key its record carries. */
  ghost predicate Indexed(s: Store) {
    && Distinct(s.auctionOrder) && Elements(s.auctionOrder) == s.auctions.Keys
    && Distinct(s.jobOrder) && Elements(s.jobOrder) == s.jobs.Keys
    && Distinct(s.artifactOrder) && Elements(s.artifactOrder) == s.artifacts.Keys
    && (forall id :: id in s.jobs ==> s.jobs[id].job.requestId == id)
    && (forall id :: id in s.artifacts ==> s.artifacts[id].requestId == id)
  }

  ghost function Persist(s: Store): Wire
    requires Indexed(s)
  {
    LoadAll(s.auctionOrder, s.auctions);
    LoadAll(s.jobOrder, s.jobs);
    LoadAll(s.artifactOrder, s.artifacts);
    Wire(Map(SerializeAuction, Entries(s.auctionOrder, s.auctions)), Map(SerializeAttempt, s.attempts), Map(SerializeRace, s.races),
         Map(SerializeJob, Values(s.jobOrder, s.jobs)), Map(SerializeArtifact, Values(s.artifactOrder, s.artifacts)))
  }

  function ByRequest(j: StoredJob): (Word, StoredJob) {
    (j.job.requestId, j)
  }

  function ArtifactEntry(a: Artifact): (Word, Artifact) {
    (a.requestId, a)
  }

  /** Everything is read into cleared maps; one unreadable number fails the whole file. */
  function Hydrate(w: Wire): Option<Store> {
    var auctions, attempts := MapAll(DeserializeAuction, w.auctions), MapAll(DeserializeAttempt, w.attempts);
    var races := MapAll(DeserializeRace, w.races);
    var jobs, artifacts := MapAll(DeserializeJob, w.jobs), MapAll(DeserializeArtifact, w.artifacts);
    if auctions.None? || attempts.None? || races.None? || jobs.None? || artifacts.None? then None else
    var a, j, r := Load(auctions.value), Load(Map(ByRequest, jobs.value)), Load(Map(ArtifactEntry, artifacts.value));
    Some(Store(a.rows, a.order, attempts.value, races.value, j.rows, j.order, r.rows, r.order))
  }

  /** The store with every kind of winner spelled out. */
  function Normalized(s: Store): Store {
    s.(artifacts := map id | id in s.artifacts :: Explicit(s.artifacts[id]))
  }

  ghost predicate KindsExplicit(s: Store) {
    forall id :: id in s.artifacts ==> s.artifacts[id].kind.Some?
  }

  lemma AuctionsReadBack(s: Store)
    requires Indexed(s)
    ensures MapAll(DeserializeAuction, Persist(s).auctions).Some?
    ensures Load(MapAll(DeserializeAuction, Persist(s).auctions).value) == Table(s.auctions, s.auctionOrder)
  {
    hide SerializeAuction, DeserializeAuction;
    LoadAll(s.auctionOrder, s.auctions);
    var entries := Entries(s.auctionOrder, s.auctions);
    forall e | e in entries ensures DeserializeAuction(SerializeAuction(e)) == Some(e) { AuctionRoundTrip(e); }
    MapAllMap(SerializeAuction, DeserializeAuction, entries);
  }

  lemma HistoryReadsBack(s: Store)
    requires Indexed(s)
    ensures MapAll(DeserializeAttempt, Persist(s).attempts) == Some(s.attempts)
    ensures MapAll(DeserializeRace, Persist(s).races) == Some(s.races)
  {
    hide SerializeAttempt, DeserializeAttempt, SerializeRace, DeserializeRace;
    forall a | a in s.attempts ensures DeserializeAttempt(SerializeAttempt(a)) == Some(a) { AttemptRoundTrip(a); }
    forall r | r in s.races ensures DeserializeRace(SerializeRace(r)) == Some(r) { RaceRoundTrip(r); }
    MapAllMap(SerializeAttempt, DeserializeAttempt, s.attempts);
    MapAllMap(SerializeRace, DeserializeRace, s.races);
  }

  lemma JobsReadBack(s: Store)
    requires Indexed(s)
    ensures MapAll(DeserializeJob, Persist(s).jobs).Some?
    ensures Load(Map(ByRequest, MapAll(DeserializeJob, Persist(s).jobs).value)) == Table(s.jobs, s.jobOrder)
  {
    hide SerializeJob, DeserializeJob;
    LoadAll(s.jobOrder, s.jobs);
    var jobs := Values(s.jobOrder, s.jobs);
    forall j | j in jobs ensures DeserializeJob(SerializeJob(j)) == Some(j) { JobRoundTrip(j); }
    MapAllMap(SerializeJob, DeserializeJob, jobs);
    assert Map(ByRequest, jobs) == Entries(s.jobOrder, s.jobs);
  }

  lemma ArtifactsReadBack(s: Store)
    requires Indexed(s)
    ensures MapAll(DeserializeArtifact, Persist(s).artifacts).Some?
    ensures Load(Map(ArtifactEntry, MapAll(DeserializeArtifact, Persist(s).artifacts).value)) ==
            Table(Normalized(s).artifacts, s.artifactOrder)
  {
    hide Distinct, Elements, Load, Explicit;
    LoadAll(s.artifactOrder, s.artifacts);
    assert Normalized(s).artifacts.Keys == s.artifacts.Keys;
    LoadAll(s.artifactOrder, Normalized(s).artifacts);
    ArtifactsRead(s.artifactOrder, s.artifacts, Normalized(s).artifacts);
  }

  lemma ArtifactsRead(order: seq<Word>, m: map<Word, Artifact>, explicit: map<Word, Artifact>)
    requires forall id :: id in order ==> id in m && m[id].requestId == id && id in explicit && explicit[id] == Explicit(m[id])
    ensures var read := MapAll(DeserializeArtifact, Map(SerializeArtifact, Values(order, m)));
            read.Some? && Map(ArtifactEntry, read.value) == Entries(order, explicit)
  {
    hide SerializeArtifact, DeserializeArtifact, Explicit;
    var wire := Map(SerializeArtifact, Values(order, m));
    forall i | 0 <= i < |wire|
      ensures DeserializeArtifact(wire[i]) == Some(explicit[order[i]]) && explicit[order[i]].requestId == order[i]
    {
      ArtifactRoundTrip(m[order[i]]);
      ExplicitKeepsId(m[order[i]]);
    }
    var read := MapAll(DeserializeArtifact, wire);
    assert read.Some?;
    forall i | 0 <= i < |order| ensures ArtifactEntry(read.value[i]) == Entries(order, explicit)[i] {
      assert DeserializeArtifact(wire[i]) == Some(read.value[i]);
    }
  }

  /** Reading the file back gives the store with every kind spelled out. */
  lemma HydratePersist(s: Store)
    requires Indexed(s)
    ensures Hydrate(Persist(s)) == Some(Normalized(s))
  {
    hide Persist, Indexed, Load;
    AuctionsReadBack(s);
    HistoryReadsBack(s);
    JobsReadBack(s);
    ArtifactsReadBack(s);
  }

  lemma ExplicitKeepsId(a: Artifact)
    ensures Explicit(a).requestId == a.requestId && Explicit(Explicit(a)) == Explicit(a)
    ensures Explicit(a) == a <==> a.kind.Some?
  {}

  lemma NormalizedIndexed(s: Store)
    requires Indexed(s)
    ensures Indexed(Normalized(s)) && KindsExplicit(Normalized(s)) && Normalized(Normalized(s)) == Normalized(s)
    ensures Normalized(s) == s <==> KindsExplicit(s)
  {
    assert Normalized(s).artifacts.Keys == s.artifacts.Keys;
    if Normalized(s) == s {
      forall id | id in s.artifacts ensures s.artifacts[id].kind.Some? { ExplicitKeepsId(s.artifacts[id]); }
    }
    if KindsExplicit(s) { assert Normalized(s).artifacts == s.artifacts; }
  }

  /** A save and a load change nothing exactly when every artifact names its kind of winner; otherwise the first
      load writes "public" where it was missing, and every later one changes nothing. */
  lemma SaveAndLoad(s: Store)
    requires Indexed(s)
    ensures Hydrate(Persist(s)) == Some(s) <==> KindsExplicit(s)
    ensures Indexed(Normalized(s))
    ensures Hydrate(Persist(s)) == Some(Normalized(s)) && Hydrate(Persist(Normalized(s))) == Some(Normalized(s))
  {
    hide Indexed, Persist, Hydrate, Normalized;
    NormalizedIndexed(s);
    HydratePersist(s);
    HydratePersist(Normalized(s));
  }

  /** Every operation of the store leaves it one that can be saved and loaded. */
  lemma RecordsKeepIndexed(s: Store, id: nat, record: Tracked, at: nat, attempt: Attempt)
    requires Indexed(s)
    ensures Indexed(Upserted(s, id, record)) && Indexed(UpdatedState(s, id, record.state, at)) && Indexed(Recorded(s, attempt))
  {
    hide Distinct, Elements;
    if id !in s.auctions { DistinctAppend(s.auctionOrder, id); }
  }

  lemma JobsKeepIndexed(s: Store, job: Job, at: nat, request: Word)
    requires Indexed(s)
    ensures Indexed(Enqueue(s, job, at)) && Indexed(Dispatched(s, request, at))
  {
    hide Distinct, Elements;
    if job.requestId !in s.jobs { DistinctAppend(s.jobOrder, job.requestId); }
  }

  lemma ArtifactsKeepIndexed(s: Store, artifact: Artifact, at: nat, request: Word)
    requires Indexed(s)
    ensures Indexed(Stored(s, artifact)) && Indexed(Submitted(s, request, at))
  {
    hide Distinct, Elements;
    if artifact.requestId !in s.artifacts { DistinctAppend(s.artifactOrder, artifact.requestId); }
  }
}
