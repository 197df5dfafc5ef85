/** The keeper's finalize loop: reserve the lock, retry with exponential backoff, record every call, release. */
module AuctionMonitor {
  import opened Prelude
  import opened SettlementEngine
  import opened LockCoordinator
  import opened AuctionStateStore
  import Dispatch = CofheDispatcher

  /** What one triggerFinalize call does: a transaction, with what its receipt reports, or an error. */
  datatype Call = Sent(txHash: Option<string>, gasUsed: Option<nat>, incentive: Option<nat>) | Error(message: string)

  /** What the reader reports of an auction, None when it throws. */
  datatype Snapshot = Snapshot(state: nat, endTime: nat, deposit: nat)

  const ACTIVE_STATE: nat := 1
  const RESOLVING_STATE: nat := 2

  datatype Result = Result(nonce: nat, acquired: bool, success: bool, reward: nat, backoff: nat)

  function Backoff(base: nat, attempt: nat): nat {
    base * Dispatch.Pow2(attempt)
  }

  function EstimateFinalizeReward(deposit: Option<nat>): nat {
    if deposit.None? || deposit.value == 0 then 0 else deposit.value * 20 / 10_000
  }

  /** The keeper expects what the market will reserve for it. */
  lemma EstimateIsReward(deposit: nat)
    ensures EstimateFinalizeReward(Some(deposit)) == FinalizeReward(deposit)
    ensures deposit > 0 ==> EstimateFinalizeReward(Some(deposit)) < deposit
  {
    if deposit > 0 { RewardBelowDeposit(deposit); }
  }

  /** What stays the same over the attempts of one reservation. */
  datatype Task = Task(id: nat, nonce: nat, keeper: Keeper, base: nat, estimate: nat)

  function RecordOf(t: Task, i: nat, call: Call, at: nat): Attempt {
    var template := Attempt(t.id, t.nonce, t.keeper, call.Sent?, i, Backoff(t.base, i), None, None, Some(t.estimate), at, None);
    match call
    case Sent(txHash, gasUsed, incentive) =>
      template.(txHash := txHash, gasUsed := gasUsed, incentive := if incentive.Some? then incentive else Some(t.estimate))
    case Error(message) => template.(error := Some(message))
  }

  /** One record per call, with retry counts 0, 1, 2, ... */
  function RecordsOf(t: Task, finalizer: nat -> Call, clock: nat -> nat, calls: nat): (r: seq<Attempt>)
    ensures |r| == calls
    ensures forall i :: 0 <= i < calls ==> r[i].retryCount == i && r[i].nonce == t.nonce && (r[i].success <==> finalizer(i).Sent?)
  {
    if calls == 0 then [] else
    RecordsOf(t, finalizer, clock, calls - 1) + [RecordOf(t, calls - 1, finalizer(calls - 1), clock(calls - 1))]
  }

  /** What the keeper counts on after a call: what the receipt reports, or its own estimate. */
  function Reward(call: Call, estimate: nat): nat {
    if call.Sent? && call.incentive.Some? then call.incentive.value else estimate
  }

  function TrackedFrom(auctions: map<nat, Tracked>, id: nat, seen: Snapshot, at: nat): Tracked {
    Tracked(seen.state, seen.endTime, Some(seen.deposit), at,
            if id in auctions then auctions[id].lastAttemptAt else None,
            if id in auctions then auctions[id].retryCount else 0)
  }

  /** The loop goes on after attempt i: the call failed and the auction is not known to have left ACTIVE. */
  predicate Retries(call: Call, seen: Option<Snapshot>) {
    call.Error? && (seen.None? || seen.value.state == ACTIVE_STATE)
  }

  /** What other keepers do to the lock during the first attempts, in order. */
  function Meanwhile(others: nat -> seq<Op>, attempts: nat): seq<Op> {
    if attempts == 0 then [] else Meanwhile(others, attempts - 1) + others(attempts - 1)
  }

  /** Others act for themselves, and while the lease that was taken at this time runs. */
  ghost predicate WithinLease(ops: seq<Op>, keeper: Keeper, now: nat, ttl: nat) {
    forall op :: op in ops ==> op.keeper != keeper && now <= op.now < now + ttl
  }

  /** A keeper that reserved still holds the lock after everything others did while its lease ran. */
  lemma StillHeld(l: Locks, id: nat, keeper: Keeper, now: nat, ttl: nat, ops: seq<Op>)
    requires !Blocked(l, id, keeper, now) && WithinLease(ops, keeper, now, ttl)
    ensures Holds(After(Reserve(l, id, keeper, now, ttl).0, ops, ttl), id, keeper, now + ttl)
  {
    LeaseStays(Reserve(l, id, keeper, now, ttl).0, ops, ttl, id, keeper, now + ttl);
  }

  class AuctionMonitor {
    const store: InMemoryAuctionStateStore
    const locks: InMemoryLockCoordinator
    const maxRetries: nat
    const retryBaseDelay: nat
    const lockTtl: nat

    constructor (store: InMemoryAuctionStateStore, locks: InMemoryLockCoordinator, maxRetries: nat, retryBaseDelay: nat, lockTtl: nat)
      ensures this.store == store && this.locks == locks && this.maxRetries == maxRetries
      ensures this.retryBaseDelay == retryBaseDelay && this.lockTtl == lockTtl
    {
      this.store, this.locks := store, locks;
      this.maxRetries, this.retryBaseDelay, this.lockTtl := maxRetries, retryBaseDelay, lockTtl;
    }

    /** Takes over what the chain says and keeps what is known about earlier attempts. */
    method Synchronize(id: nat, seen: Option<Snapshot>, at: nat)
      modifies store`auctions, store`auctionOrder
      ensures store.View() == if seen.None? then old(store.View()) else
                Upserted(old(store.View()), id, TrackedFrom(old(store.auctions), id, seen.value, at))
      ensures seen.Some? ==> id in store.auctions
      ensures seen.Some? ==>
                var t := store.auctions[id];
                && t.state == seen.value.state && t.endTime == seen.value.endTime && t.deposit == Some(seen.value.deposit)
                && t.trackedAt == at
                && (if id in old(store.auctions)
                    then t.lastAttemptAt == old(store.auctions)[id].lastAttemptAt && t.retryCount == old(store.auctions)[id].retryCount
                    else t.lastAttemptAt == None && t.retryCount == 0)
      ensures forall other :: other in old(store.auctions) && other != id ==>
                other in store.auctions && store.auctions[other] == old(store.auctions)[other]
      ensures store.auctionOrder == old(store.auctionOrder) + if seen.Some? && id !in old(store.auctions) then [id] else []
    {
      if seen.None? { return; }
      store.UpsertAuction(id, TrackedFrom(store.auctions, id, seen.value, at));
    }

    /** For any finalizer, reader and clock by attempt, and whatever other keepers do to the lock meanwhile: at most
        maxRetries + 1 calls, one record per call with consecutive retry counts where only the last can be a success,
        no call after the auction is seen to have left ACTIVE, sleeps that add up to base * (2^j - 1) over j retries, and
        exactly if the lock was acquired it is released: nobody else's lease goes, and the keeper holds none after. */
    method AttemptFinalize(id: nat, deposit: Option<nat>, keeper: Keeper, now: nat, finalizer: nat -> Call,
                           reader: nat -> Option<Snapshot>, clock: nat -> nat, others: nat -> seq<Op>)
      returns (r: Result, calls: nat, slept: nat)
      modifies store, locks
      ensures r.acquired <==> !Blocked(old(locks.View()), id, keeper, now)
      ensures r.nonce == Get(old(locks.nonces), id) + 1
      ensures var reserved := Reserve(old(locks.View()), id, keeper, now, lockTtl).0;
              locks.View() == if r.acquired then Release(After(reserved, Meanwhile(others, calls), lockTtl), id, keeper)
                              else reserved
      ensures r.acquired ==> !(id in locks.leases && locks.leases[id].keeper == keeper)
      ensures !r.acquired ==> locks.leases == old(locks.leases)
      ensures r.acquired && WithinLease(Meanwhile(others, calls), keeper, now, lockTtl) ==> id !in locks.leases
      ensures !r.acquired ==> calls == 0 && slept == 0 && !r.success && store.attempts == old(store.attempts)
                              && store.auctions == old(store.auctions)
                              && store.races == old(store.races) + [Race(id, r.nonce, keeper, now)]
      ensures r.acquired ==> store.races == old(store.races)
      ensures r.acquired ==> 1 <= calls <= maxRetries + 1
      ensures !r.acquired ==> r.backoff == 0 && r.reward == EstimateFinalizeReward(deposit)
      ensures r.acquired ==> r.backoff == retryBaseDelay * Dispatch.Pow2(calls - 1)
                             && r.reward == Reward(finalizer(calls - 1), EstimateFinalizeReward(deposit))
      ensures r.acquired ==> slept == retryBaseDelay * (Dispatch.Pow2(calls - 1) - 1)
      ensures r.acquired ==> forall i :: 0 <= i < calls - 1 ==> Retries(finalizer(i), reader(i))
      ensures r.acquired ==> calls == maxRetries + 1 || !Retries(finalizer(calls - 1), reader(calls - 1))
      ensures r.acquired ==> forall i :: 0 <= i < calls - 1 ==> finalizer(i).Error? && (reader(i).Some? ==> reader(i).value.state == 1)
      ensures r.acquired && calls <= maxRetries && finalizer(calls - 1).Error? ==>
                reader(calls - 1).Some? && reader(calls - 1).value.state != 1
      ensures var task := Task(id, r.nonce, keeper, retryBaseDelay, EstimateFinalizeReward(deposit));
              r.acquired ==> store.attempts == old(store.attempts) + RecordsOf(task, finalizer, clock, calls)
      ensures r.acquired ==>
                (r.success <==> finalizer(calls - 1).Sent? && (reader(calls - 1).Some? ==> reader(calls - 1).value.state != 0))
      ensures store.jobs == old(store.jobs) && store.artifacts == old(store.artifacts)
    {
      hide RecordsOf, Reward, EstimateFinalizeReward, Dispatch.Pow2, Meanwhile, After, WithinLease;
      ghost var before := locks.View();
      var reservation := locks.ReserveLock(id, keeper, now, lockTtl);
      var task := Task(id, reservation.nonce, keeper, retryBaseDelay, EstimateFinalizeReward(deposit));
      calls, slept := 0, 0;
      if !reservation.acquired {
        store.RecordRaceCondition(Race(id, reservation.nonce, keeper, now));
        return Result(reservation.nonce, false, false, task.estimate, 0), calls, slept;
      }
      r, calls, slept := RetryLoop(task, finalizer, reader, clock, others);
      if WithinLease(Meanwhile(others, calls), keeper, now, lockTtl) {
        StillHeld(before, id, keeper, now, lockTtl, Meanwhile(others, calls));
      }
      locks.ReleaseLock(id, keeper);
    }

    method RetryLoop(task: Task, finalizer: nat -> Call, reader: nat -> Option<Snapshot>, clock: nat -> nat,
                     others: nat -> seq<Op>)
      returns (r: Result, calls: nat, slept: nat)
      modifies store`attempts, store`auctions, store`auctionOrder, locks
      ensures r.acquired && r.nonce == task.nonce
      ensures 1 <= calls <= maxRetries + 1
      ensures locks.View() == After(old(locks.View()), Meanwhile(others, calls), lockTtl)
      ensures slept == task.base * (Dispatch.Pow2(calls - 1) - 1)
      ensures forall i :: 0 <= i < calls - 1 ==> Retries(finalizer(i), reader(i))
      ensures calls == maxRetries + 1 || !Retries(finalizer(calls - 1), reader(calls - 1))
      ensures store.attempts == old(store.attempts) + RecordsOf(task, finalizer, clock, calls)
      ensures r.success <==> finalizer(calls - 1).Sent? && (reader(calls - 1).Some? ==> reader(calls - 1).value.state != 0)
      ensures r.backoff == Backoff(task.base, calls - 1) && r.reward == Reward(finalizer(calls - 1), task.estimate)
    {
      hide RecordOf, RecordsOf, Backoff, Retries, Reward, Dispatch.Pow2, After, Meanwhile;
      FirstAttempt(task, finalizer, clock, others, locks.View(), lockTtl);
      assert store.attempts == old(store.attempts) + RecordsOf(task, finalizer, clock, 0);
      calls, slept := 0, 0;
      while true
        invariant 0 <= calls <= maxRetries
        invariant slept == task.base * (Dispatch.Pow2(calls) - 1)
        invariant locks.View() == After(old(locks.View()), Meanwhile(others, calls), lockTtl)
        invariant forall i :: 0 <= i < calls ==> Retries(finalizer(i), reader(i))
        invariant store.attempts == old(store.attempts) + RecordsOf(task, finalizer, clock, calls)
        decreases maxRetries - calls
      {
        r := Attempted(task, calls, finalizer(calls), reader(calls), clock(calls));
        OneMoreRecord(old(store.attempts), task, finalizer, clock, calls);
        OthersAct(others(calls));
        OneMoreMeanwhile(old(locks.View()), others, calls, lockTtl);
        calls := calls + 1;
        if !Retries(finalizer(calls - 1), reader(calls - 1)) || calls == maxRetries + 1 { return; }
        slept := slept + r.backoff;
        SleepGrows(task.base, calls);
      }
    }

    /** Other keepers at the same lock coordinator. */
    method OthersAct(ops: seq<Op>)
      modifies locks
      ensures locks.View() == After(old(locks.View()), ops, lockTtl)
    {
      var i := 0;
      while i < |ops|
        invariant 0 <= i <= |ops|
        invariant locks.View() == After(old(locks.View()), ops[..i], lockTtl)
      {
        assert ops[..i + 1][..i] == ops[..i];
        match ops[i] {
          case Reserves(id, keeper, now) => var _ := locks.ReserveLock(id, keeper, now, lockTtl);
          case Releases(id, keeper, _) => locks.ReleaseLock(id, keeper);
        }
        i := i + 1;
      }
      assert ops[..i] == ops;
    }

    /** One attempt: call, record it, and look at the chain, which after a success nobody could read counts as resolving. */
    method Attempted(task: Task, attempt: nat, call: Call, seen: Option<Snapshot>, at: nat) returns (r: Result)
      modifies store`attempts, store`auctions, store`auctionOrder
      ensures store.attempts == old(store.attempts) + [RecordOf(task, attempt, call, at)]
      ensures r.acquired && r.nonce == task.nonce && r.backoff == Backoff(task.base, attempt)
      ensures r.success <==> call.Sent? && (seen.Some? ==> seen.value.state != 0)
      ensures r.reward == Reward(call, task.estimate)
      ensures var record := store.attempts[|store.attempts| - 1];
              && record.auctionId == task.id && record.nonce == task.nonce && record.keeper == task.keeper
              && record.retryCount == attempt && record.backoff == task.base * Dispatch.Pow2(attempt) && record.recordedAt == at
              && record.success == call.Sent? && record.incentive == Some(r.reward)
              && record.txHash == (if call.Sent? then call.txHash else None)
              && record.gasUsed == (if call.Sent? then call.gasUsed else None)
              && record.error == (if call.Error? then Some(call.message) else None)
      ensures forall other :: other in old(store.auctions) && other != task.id ==>
                other in store.auctions && store.auctions[other] == old(store.auctions)[other]
      ensures task.id in store.auctions && (call.Sent? || seen.None?) ==>
                store.auctions[task.id].lastAttemptAt == Some(at) && store.auctions[task.id].retryCount == attempt
      ensures call.Sent? && seen.None? && task.id in old(store.auctions) ==>
                task.id in store.auctions && store.auctions[task.id].state == 2
      ensures seen.Some? ==> task.id in store.auctions && store.auctions[task.id].state == seen.value.state
    {
      var backoff := Backoff(task.base, attempt);
      var record := RecordOf(task, attempt, call, at);
      if call.Sent? {
        if seen.Some? {
          Synchronize(task.id, seen, at);
        } else {
          store.UpdateAuctionState(task.id, RESOLVING_STATE, at);
        }
        store.RecordFinalizeAttempt(record);
        var reward := if call.incentive.Some? then call.incentive.value else task.estimate;
        return Result(task.nonce, true, seen.None? || seen.value.state != 0, reward, backoff);
      }
      store.RecordFinalizeAttempt(record);
      Synchronize(task.id, seen, at);
      return Result(task.nonce, true, false, task.estimate, backoff);
    }
  }

  lemma FirstAttempt(t: Task, finalizer: nat -> Call, clock: nat -> nat, others: nat -> seq<Op>, l: Locks, ttl: nat)
    ensures RecordsOf(t, finalizer, clock, 0) == [] && Dispatch.Pow2(0) == 1
    ensures After(l, Meanwhile(others, 0), ttl) == l
  {}

  lemma OneMoreMeanwhile(l: Locks, others: nat -> seq<Op>, calls: nat, ttl: nat)
    ensures After(After(l, Meanwhile(others, calls), ttl), others(calls), ttl) == After(l, Meanwhile(others, calls + 1), ttl)
  {
    AfterConcatenation(l, Meanwhile(others, calls), others(calls), ttl);
  }

  lemma OneMoreRecord(before: seq<Attempt>, t: Task, finalizer: nat -> Call, clock: nat -> nat, calls: nat)
    ensures before + RecordsOf(t, finalizer, clock, calls) + [RecordOf(t, calls, finalizer(calls), clock(calls))] ==
            before + RecordsOf(t, finalizer, clock, calls + 1)
  {}

  lemma SleepGrows(base: nat, calls: nat)
    requires calls > 0
    ensures base * (Dispatch.Pow2(calls - 1) - 1) + Backoff(base, calls - 1) == base * (Dispatch.Pow2(calls) - 1)
  {
    Dispatch.BackoffGrows(base, Dispatch.Pow2(calls - 1));
  }
}
