/** The keepers' lease lock: one holder per auction until its lease runs out, and a nonce for every attempt. */
module LockCoordinator {
  import opened Prelude

  type Keeper = nat

  datatype Lease = Lease(keeper: Keeper, expires: nat)

  datatype Locks = Locks(leases: map<nat, Lease>, nonces: map<nat, nat>)

  const NO_LOCKS := Locks(map[], map[])

  datatype Reservation = Reservation(acquired: bool, nonce: nat)

  predicate Blocked(l: Locks, id: nat, keeper: Keeper, now: nat) {
    id in l.leases && l.leases[id].expires > now && l.leases[id].keeper != keeper
  }

  function Reserve(l: Locks, id: nat, keeper: Keeper, now: nat, ttl: nat): (Locks, Reservation) {
    var nonce := Get(l.nonces, id) + 1;
    var counted := l.(nonces := l.nonces[id := nonce]);
    if Blocked(l, id, keeper, now) then (counted, Reservation(false, nonce))
    else (counted.(leases := l.leases[id := Lease(keeper, now + ttl)]), Reservation(true, nonce))
  }

  function Release(l: Locks, id: nat, keeper: Keeper): Locks {
    if id in l.leases && l.leases[id].keeper == keeper then l.(leases := l.leases - {id}) else l
  }

  class InMemoryLockCoordinator {
    var leases: map<nat, Lease>
    var nonces: map<nat, nat>

    ghost function View(): Locks
      reads this
    {
      Locks(leases, nonces)
    }

    constructor ()
      ensures View() == NO_LOCKS
    {
      leases, nonces := map[], map[];
    }

    /** An attempt always takes the next nonce, and is refused exactly while someone else's lease runs. */
    method ReserveLock(id: nat, keeper: Keeper, now: nat, ttl: nat) returns (r: Reservation)
      modifies this
      ensures (View(), r) == Reserve(old(View()), id, keeper, now, ttl)
      ensures r.acquired <==> !Blocked(old(View()), id, keeper, now)
      ensures r.acquired <==> id !in old(leases) || old(leases)[id].expires <= now || old(leases)[id].keeper == keeper
      ensures nonces == old(nonces)[id := r.nonce] && r.nonce == Get(old(nonces), id) + 1
      ensures leases == if r.acquired then old(leases)[id := Lease(keeper, now + ttl)] else old(leases)
    {
      var nonce := Get(nonces, id) + 1;
      nonces := nonces[id := nonce];
      if id in leases && leases[id].expires > now && leases[id].keeper != keeper {
        return Reservation(false, nonce);
      }
      leases := leases[id := Lease(keeper, now + ttl)];
      return Reservation(true, nonce);
    }

    /** Only the holder's own lease goes. */
    method ReleaseLock(id: nat, keeper: Keeper)
      modifies this`leases
      ensures View() == Release(old(View()), id, keeper)
      ensures forall k :: k in old(leases) && !(k == id && old(leases)[k].keeper == keeper) ==>
                k in leases && leases[k] == old(leases)[k]
      ensures forall k :: k in leases ==> k in old(leases) && !(k == id && leases[k].keeper == keeper)
    {
      if id in leases && leases[id].keeper == keeper {
        leases := leases - {id};
      }
    }
  }

  // ---- runs ----

  /** What a keeper does, and when by its clock. */
  datatype Op = Reserves(id: nat, keeper: Keeper, now: nat) | Releases(id: nat, keeper: Keeper, now: nat)

  function Apply(l: Locks, op: Op, ttl: nat): Locks {
    match op
    case Reserves(id, keeper, now) => Reserve(l, id, keeper, now, ttl).0
    case Releases(id, keeper, _) => Release(l, id, keeper)
  }

  function After(l: Locks, ops: seq<Op>, ttl: nat): Locks {
    if ops == [] then l else Apply(After(l, ops[..|ops| - 1], ttl), ops[|ops| - 1], ttl)
  }

  /** The clock never goes back. */
  ghost predicate Ordered(ops: seq<Op>) {
    forall i, j :: 0 <= i < j < |ops| ==> ops[i].now <= ops[j].now
  }

  /** The reservation that the i-th operation of a run, a reserve, gets. */
  function Outcome(l: Locks, ops: seq<Op>, i: nat, ttl: nat): Reservation
    requires i < |ops| && ops[i].Reserves?
  {
    Reserve(After(l, ops[..i], ttl), ops[i].id, ops[i].keeper, ops[i].now, ttl).1
  }

  ghost predicate Holds(l: Locks, id: nat, keeper: Keeper, until: nat) {
    id in l.leases && l.leases[id].keeper == keeper && l.leases[id].expires >= until
  }

  /** A lease stays its holder's through any operations before it runs out, its own release excepted; a release by
      anyone else, however late, does not touch it, and a renewal only prolongs it. */
  lemma {:induction false} LeaseStays(l: Locks, ops: seq<Op>, ttl: nat, id: nat, keeper: Keeper, until: nat)
    requires Holds(l, id, keeper, until)
    requires forall op :: op in ops ==> op.now < until && !(op.Releases? && op.id == id && op.keeper == keeper)
    requires forall op :: op in ops ==> op.now + ttl >= until
    ensures Holds(After(l, ops, ttl), id, keeper, until)
    decreases |ops|
  {
    if ops != [] {
      var n := |ops| - 1;
      forall op | op in ops[..n] ensures op in ops {}
      LeaseStays(l, ops[..n], ttl, id, keeper, until);
      assert ops[n] in ops;
    }
  }

  /** Mutual exclusion over any run: after keeper A acquires at time t, nobody else acquires that auction before
      t + ttl, unless A releases it first. */
  lemma Exclusion(l: Locks, ops: seq<Op>, ttl: nat, i: nat, j: nat)
    requires Ordered(ops) && i < j < |ops| && ops[i].Reserves? && ops[j].Reserves? && ops[i].id == ops[j].id
    requires Outcome(l, ops, i, ttl).acquired && Outcome(l, ops, j, ttl).acquired
    requires forall k :: i < k < j ==> ops[k] != Releases(ops[i].id, ops[i].keeper, ops[k].now)
    ensures ops[j].keeper == ops[i].keeper || ops[j].now >= ops[i].now + ttl
  {
    hide After, Reserve, Outcome, Ordered;
    if ops[j].now < ops[i].now + ttl {
      WhileLeased(ops, ttl, i, j);
      LeaseReaches(l, ops, ttl, i, j);
      StillBlocked(l, ops, ttl, i, j);
    }
  }

  lemma LeaseReaches(l: Locks, ops: seq<Op>, ttl: nat, i: nat, j: nat)
    requires i < j < |ops| && ops[i].Reserves? && Outcome(l, ops, i, ttl).acquired
    requires forall op :: op in ops[i + 1..j] ==>
              && op.now < ops[i].now + ttl && op.now + ttl >= ops[i].now + ttl
              && !(op.Releases? && op.id == ops[i].id && op.keeper == ops[i].keeper)
    ensures Holds(After(l, ops[..j], ttl), ops[i].id, ops[i].keeper, ops[i].now + ttl)
  {
    hide After, Outcome, Holds;
    FreshLease(l, ops, ttl, i);
    LeaseStays(After(l, ops[..i + 1], ttl), ops[i + 1..j], ttl, ops[i].id, ops[i].keeper, ops[i].now + ttl);
    AfterConcatenation(l, ops[..i + 1], ops[i + 1..j], ttl);
    assert ops[..i + 1] + ops[i + 1..j] == ops[..j];
  }

  lemma FreshLease(l: Locks, ops: seq<Op>, ttl: nat, i: nat)
    requires i < |ops| && ops[i].Reserves? && Outcome(l, ops, i, ttl).acquired
    ensures Holds(After(l, ops[..i + 1], ttl), ops[i].id, ops[i].keeper, ops[i].now + ttl)
  {
    assert ops[..i + 1][..i] == ops[..i];
  }

  /** Nobody else gets through to a lease that still runs. */
  lemma StillBlocked(l: Locks, ops: seq<Op>, ttl: nat, i: nat, j: nat)
    requires i < j < |ops| && ops[i].Reserves? && ops[j].Reserves? && ops[i].id == ops[j].id
    requires Holds(After(l, ops[..j], ttl), ops[i].id, ops[i].keeper, ops[i].now + ttl) && ops[j].now < ops[i].now + ttl
    requires Outcome(l, ops, j, ttl).acquired
    ensures ops[j].keeper == ops[i].keeper
  {
    hide After;
  }

  lemma WhileLeased(ops: seq<Op>, ttl: nat, i: nat, j: nat)
    requires Ordered(ops) && i < j < |ops| && ops[j].now < ops[i].now + ttl
    requires forall k :: i < k < j ==> ops[k] != Releases(ops[i].id, ops[i].keeper, ops[k].now)
    ensures forall op :: op in ops[i + 1..j] ==>
              && op.now < ops[i].now + ttl && op.now + ttl >= ops[i].now + ttl
              && !(op.Releases? && op.id == ops[i].id && op.keeper == ops[i].keeper)
  {
    var between := ops[i + 1..j];
    forall op | op in between
      ensures op.now < ops[i].now + ttl && op.now + ttl >= ops[i].now + ttl
      ensures !(op.Releases? && op.id == ops[i].id && op.keeper == ops[i].keeper)
    {
      var k :| 0 <= k < |between| && between[k] == op;
      assert op == ops[i + 1 + k];
    }
  }

  lemma {:induction false} AfterConcatenation(l: Locks, first: seq<Op>, second: seq<Op>, ttl: nat)
    ensures After(l, first + second, ttl) == After(After(l, first, ttl), second, ttl)
  {
    if second == [] {
      assert first + second == first;
    } else {
      var n := |second| - 1;
      AfterConcatenation(l, first, second[..n], ttl);
      assert (first + second)[..|first + second| - 1] == first + second[..n];
    }
  }

  /** The attempts of a run on one auction. */
  function Attempts(ops: seq<Op>, id: nat): nat {
    if ops == [] then 0 else
    var last := ops[|ops| - 1];
    Attempts(ops[..|ops| - 1], id) + if last.Reserves? && last.id == id then 1 else 0
  }

  lemma {:induction false} NoncesCountAttempts(ops: seq<Op>, ttl: nat, id: nat)
    ensures Get(After(NO_LOCKS, ops, ttl).nonces, id) == Attempts(ops, id)
  {
    if ops != [] { NoncesCountAttempts(ops[..|ops| - 1], ttl, id); }
  }

  /** The nonces of an auction are 1, 2, 3, ... over all attempts, acquired or not, whatever is released. */
  lemma NoncesAreConsecutive(ops: seq<Op>, ttl: nat, i: nat)
    requires i < |ops| && ops[i].Reserves?
    ensures Outcome(NO_LOCKS, ops, i, ttl).nonce == Attempts(ops[..i], ops[i].id) + 1
  {
    NoncesCountAttempts(ops[..i], ttl, ops[i].id);
  }

  lemma {:induction false} AttemptsGrow(ops: seq<Op>, i: nat, j: nat, id: nat)
    requires i <= j <= |ops|
    ensures Attempts(ops[..i], id) <= Attempts(ops[..j], id)
    decreases j
  {
    if i < j {
      AttemptsGrow(ops, i, j - 1, id);
      assert ops[..j][..j - 1] == ops[..j - 1];
    }
  }

  /** So a nonce fences: of two attempts on one auction, the later has the larger nonce. */
  lemma NoncesFence(ops: seq<Op>, ttl: nat, i: nat, j: nat)
    requires i < j < |ops| && ops[i].Reserves? && ops[j].Reserves? && ops[i].id == ops[j].id
    ensures Outcome(NO_LOCKS, ops, i, ttl).nonce < Outcome(NO_LOCKS, ops, j, ttl).nonce
  {
    NoncesAreConsecutive(ops, ttl, i);
    NoncesAreConsecutive(ops, ttl, j);
    AttemptsGrow(ops, i + 1, j, ops[i].id);
    assert ops[..i + 1][..i] == ops[..i];
  }
}
