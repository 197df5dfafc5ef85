/** The keepers' lease lock on a Redis server: SET NX takes a free key, and a release is a GET followed by a DEL. */
module RedisLock {
  import opened Prelude
  import opened LockCoordinator

  /** What the server is asked, by whom, and when by its clock. A DEL names the GET it relies on by its place in the run. */
  datatype Command =
    | SetNx(id: nat, keeper: Keeper, now: nat)
    | Fetch(id: nat, keeper: Keeper, now: nat)
    | Delete(id: nat, keeper: Keeper, now: nat, fetch: nat)

  /** A key and the SET that wrote it, by its place in the run. */
  datatype Entry = Entry(keeper: Keeper, expires: nat, serial: nat)

  /** What a command finds under the key; an expired entry is as good as none. */
  function Running(entries: map<nat, Entry>, id: nat, now: nat): Option<Entry> {
    if id in entries && entries[id].expires > now then Some(entries[id]) else None
  }

  /** SET with NX takes the key only when it is free, even from its own holder; DEL removes whatever is there. */
  function Execute(entries: map<nat, Entry>, c: Command, serial: nat, ttl: nat): map<nat, Entry> {
    match c
    case SetNx(id, keeper, now) =>
      if Running(entries, id, now).Some? then entries else entries[id := Entry(keeper, now + ttl, serial)]
    case Fetch(_, _, _) => entries
    case Delete(id, _, _, _) => entries - {id}
  }

  /** The server after a run of all keepers' commands. */
  function Entries(run: seq<Command>, ttl: nat): map<nat, Entry> {
    if run == [] then map[] else
    Execute(Entries(run[..|run| - 1], ttl), run[|run| - 1], |run| - 1, ttl)
  }

  /** What the i-th command finds. */
  function Finds(run: seq<Command>, i: nat, ttl: nat): Option<Entry>
    requires i < |run|
  {
    Running(Entries(run[..i], ttl), run[i].id, run[i].now)
  }

  predicate Acquires(run: seq<Command>, i: nat, ttl: nat)
    requires i < |run|
  {
    run[i].SetNx? && Finds(run, i, ttl).None?
  }

  /** The entry of its own that the k-th command, a DEL, relies on: what its GET found. */
  function Relied(run: seq<Command>, k: nat, ttl: nat): (r: Entry)
    requires k < |run| && Justified(run, k, ttl)
    ensures r.keeper == run[k].keeper
  {
    Finds(run, run[k].fetch, ttl).value
  }

  /** A DEL is sent only after a GET of the same keeper that found the keeper's own name. */
  predicate Justified(run: seq<Command>, k: nat, ttl: nat)
    requires k < |run|
  {
    && run[k].Delete? && run[k].fetch < k
    && run[run[k].fetch] == Fetch(run[k].id, run[k].keeper, run[run[k].fetch].now)
    && Finds(run, run[k].fetch, ttl).Some?
    && Finds(run, run[k].fetch, ttl).value.keeper == run[k].keeper
  }

  /** The server's clock never goes back, and every DEL follows its GET. */
  ghost predicate Protocol(run: seq<Command>, ttl: nat) {
    && (forall i, j :: 0 <= i < j < |run| ==> run[i].now <= run[j].now)
    && (forall k: nat :: k < |run| && run[k].Delete? ==> Justified(run, k, ttl))
  }

  /** The DEL arrives before the lease its GET found runs out. */
  predicate Timely(run: seq<Command>, k: nat, ttl: nat)
    requires k < |run| && Justified(run, k, ttl)
  {
    run[k].now < Relied(run, k, ttl).expires
  }

  ghost predicate AllTimely(run: seq<Command>, ttl: nat)
    requires Protocol(run, ttl)
  {
    forall k: nat :: k < |run| && run[k].Delete? ==> Timely(run, k, ttl)
  }

  /** No acquisition is released twice. */
  ghost predicate Once(run: seq<Command>, ttl: nat)
    requires Protocol(run, ttl)
  {
    forall k: nat, l: nat :: k < l < |run| && run[k].Delete? && run[l].Delete? && run[k].id == run[l].id ==>
      Relied(run, k, ttl).serial != Relied(run, l, ttl).serial
  }

  /** The k-th command, a DEL, hits a running lease of somebody else. */
  predicate RemovesOthers(run: seq<Command>, k: nat, ttl: nat)
    requires k < |run|
  {
    Finds(run, k, ttl).Some? && Finds(run, k, ttl).value.keeper != run[k].keeper
  }

  // ---- what every run keeps ----

  lemma Grows(run: seq<Command>, i: nat, ttl: nat)
    requires i < |run|
    ensures Entries(run[..i + 1], ttl) == Execute(Entries(run[..i], ttl), run[i], i, ttl)
  {
    assert run[..i + 1][..i] == run[..i];
  }

  /** The entry a timely DEL relies on is still there, command after command, until the DEL. */
  lemma {:induction false} StillThere(run: seq<Command>, k: nat, i: nat, ttl: nat)
    requires Protocol(run, ttl) && AllTimely(run, ttl) && Once(run, ttl)
    requires k < |run| && run[k].Delete? && run[k].fetch <= i <= k
    ensures run[k].id in Entries(run[..i], ttl) && Entries(run[..i], ttl)[run[k].id] == Relied(run, k, ttl)
    decreases k, 0, i
  {
    hide Entries;
    assert Justified(run, k, ttl) && Timely(run, k, ttl);
    if i > run[k].fetch {
      StillThere(run, k, i - 1, ttl);
      Grows(run, i - 1, ttl);
      if run[i - 1].Delete? && run[i - 1].id == run[k].id {
        DeleteTakesOwn(run, i - 1, ttl);
        assert false;
      }
    }
  }

  /** In a run whose DELs are all timely, one to an acquisition, every DEL removes exactly the lease its GET found. */
  lemma DeleteTakesOwn(run: seq<Command>, k: nat, ttl: nat)
    requires Protocol(run, ttl) && AllTimely(run, ttl) && Once(run, ttl)
    requires k < |run| && run[k].Delete?
    ensures Finds(run, k, ttl) == Some(Relied(run, k, ttl)) && !RemovesOthers(run, k, ttl)
    decreases k, 1
  {
    hide Entries;
    assert Justified(run, k, ttl) && Timely(run, k, ttl);
    StillThere(run, k, k, ttl);
  }

  /** The key holds the acquisition at i until a DEL that relied on it, as long as the lease runs. */
  lemma {:induction false} HeldUntil(run: seq<Command>, i: nat, m: nat, ttl: nat)
    requires Protocol(run, ttl) && AllTimely(run, ttl) && Once(run, ttl)
    requires i < m < |run| && Acquires(run, i, ttl) && run[m].now < run[i].now + ttl
    requires forall k: nat :: i < k < m && run[k].Delete? && run[k].id == run[i].id ==> Relied(run, k, ttl).serial != i
    ensures run[i].id in Entries(run[..m], ttl)
    ensures Entries(run[..m], ttl)[run[i].id] == Entry(run[i].keeper, run[i].now + ttl, i)
    decreases m
  {
    hide Entries;
    Grows(run, m - 1, ttl);
    if m > i + 1 {
      HeldUntil(run, i, m - 1, ttl);
      if run[m - 1].Delete? && run[m - 1].id == run[i].id {
        DeleteTakesOwn(run, m - 1, ttl);
        assert false;
      }
    }
  }

  /** Mutual exclusion over any such run: between two acquisitions of one auction within one time-to-live, the first
      holder has released. */
  lemma Exclusion(run: seq<Command>, i: nat, j: nat, ttl: nat)
    requires Protocol(run, ttl) && AllTimely(run, ttl) && Once(run, ttl)
    requires i < j < |run| && run[i].id == run[j].id && Acquires(run, i, ttl) && Acquires(run, j, ttl)
    requires run[j].now < run[i].now + ttl
    ensures exists k: nat :: i < k < j && run[k].Delete? && run[k].id == run[i].id && Relied(run, k, ttl).serial == i
  {
    hide Entries;
    if forall k: nat :: i < k < j && run[k].Delete? && run[k].id == run[i].id ==> Relied(run, k, ttl).serial != i {
      HeldUntil(run, i, j, ttl);
      assert false;
    }
  }

  // ---- exactly when a release is safe ----

  /** What a run found so far does not depend on what follows. */
  lemma Extends(run: seq<Command>, more: seq<Command>, i: nat, ttl: nat)
    requires i < |run|
    ensures (run + more)[i] == run[i] && Finds(run + more, i, ttl) == Finds(run, i, ttl)
  {
    assert (run + more)[..i] == run[..i];
  }

  /** A run that ends in a GET by which its keeper found its own lease, with all its DELs timely. */
  ghost predicate AboutToRelease(run: seq<Command>, ttl: nat) {
    && Protocol(run, ttl) && AllTimely(run, ttl) && Once(run, ttl)
    && |run| > 0 && run[|run| - 1].Fetch?
    && Finds(run, |run| - 1, ttl).Some? && Finds(run, |run| - 1, ttl).value.keeper == run[|run| - 1].keeper
  }

  /** The DEL of a release, sent on the strength of the i-th command. */
  function Released(run: seq<Command>, i: nat, now: nat): Command
    requires i < |run|
  {
    Delete(run[i].id, run[i].keeper, now, i)
  }

  /** More commands of all keepers before the DEL arrives, every other DEL among them timely. */
  ghost predicate Continues(run: seq<Command>, more: seq<Command>, last: Command, ttl: nat) {
    && Protocol(run + more + [last], ttl) && Once(run + more + [last], ttl)
    && Protocol(run + more, ttl) && AllTimely(run + more, ttl)
  }

  /** A release is harmless to the other keepers, whatever all of them do before its DEL arrives, exactly when the DEL
      arrives before the lease its GET found runs out. */
  lemma ReleaseIsSafeIff(run: seq<Command>, now: nat, ttl: nat)
    requires AboutToRelease(run, ttl) && ttl > 0 && run[|run| - 1].now <= now
    ensures
      (forall more :: Continues(run, more, Released(run, |run| - 1, now), ttl) ==>
         !RemovesOthers(run + more + [Released(run, |run| - 1, now)], |run + more|, ttl))
      <==> now < Finds(run, |run| - 1, ttl).value.expires
  {
    hide Entries, Finds, Continues, RemovesOthers;
    var last := Released(run, |run| - 1, now);
    if now < Finds(run, |run| - 1, ttl).value.expires {
      forall more | Continues(run, more, last, ttl) ensures !RemovesOthers(run + more + [last], |run + more|, ttl) {
        SafeInTime(run, more, now, ttl);
      }
    } else {
      LateRemovesOthers(run, now, ttl);
    }
  }

  lemma SafeInTime(run: seq<Command>, more: seq<Command>, now: nat, ttl: nat)
    requires AboutToRelease(run, ttl) && now < Finds(run, |run| - 1, ttl).value.expires
    requires Continues(run, more, Released(run, |run| - 1, now), ttl)
    ensures !RemovesOthers(run + more + [Released(run, |run| - 1, now)], |run + more|, ttl)
  {
    hide Entries, Finds;
    var last := Released(run, |run| - 1, now);
    var whole := run + more + [last];
    assert whole == run + (more + [last]);
    Extends(run, more + [last], |run| - 1, ttl);
    forall k: nat | k < |whole| && whole[k].Delete? ensures Timely(whole, k, ttl) {
      assert Justified(whole, k, ttl);
      if k < |run + more| {
        assert Justified(run + more, k, ttl) && Timely(run + more, k, ttl);
        Extends(run + more, [last], whole[k].fetch, ttl);
      }
    }
    DeleteTakesOwn(whole, |run + more|, ttl);
  }

  /** A command that is no DEL, or a justified one, prolongs a run. */
  lemma Prolongs(run: seq<Command>, c: Command, ttl: nat)
    requires Protocol(run, ttl) && (run != [] ==> run[|run| - 1].now <= c.now)
    requires c.Delete? ==> Justified(run + [c], |run|, ttl)
    ensures Protocol(run + [c], ttl)
    ensures !c.Delete? && AllTimely(run, ttl) ==> AllTimely(run + [c], ttl)
  {
    hide Entries, Finds;
    var whole := run + [c];
    forall i, j | 0 <= i < j < |whole| ensures whole[i].now <= whole[j].now {
      assert i < |run|;
      if j == |run| { assert run[i].now <= run[|run| - 1].now; }
    }
    forall k: nat | k < |whole| && whole[k].Delete? ensures Justified(whole, k, ttl) {
      if k < |run| { SameReliance(run, [c], k, ttl); }
    }
    if !c.Delete? && AllTimely(run, ttl) {
      forall k: nat | k < |whole| && whole[k].Delete? ensures Timely(whole, k, ttl) {
        SameReliance(run, [c], k, ttl);
        assert Timely(run, k, ttl);
      }
    }
  }

  lemma SameReliance(run: seq<Command>, more: seq<Command>, k: nat, ttl: nat)
    requires Protocol(run, ttl) && k < |run| && run[k].Delete?
    ensures Justified(run, k, ttl) && Justified(run + more, k, ttl) && Relied(run + more, k, ttl) == Relied(run, k, ttl)
  {
    hide Entries, Finds;
    assert Justified(run, k, ttl);
    Extends(run, more, run[k].fetch, ttl);
  }

  lemma {:induction false} SerialBelow(run: seq<Command>, i: nat, id: nat, ttl: nat)
    requires i <= |run| && id in Entries(run[..i], ttl)
    ensures Entries(run[..i], ttl)[id].serial < i
  {
    if i > 0 {
      Grows(run, i - 1, ttl);
      if id in Entries(run[..i - 1], ttl) { SerialBelow(run, i - 1, id, ttl); }
    }
  }

  /** An entry that is found now has been there, as it is, since its SET. */
  lemma {:induction false} Continuous(run: seq<Command>, i: nat, j: nat, id: nat, ttl: nat)
    requires i <= j <= |run| && id in Entries(run[..j], ttl) && Entries(run[..j], ttl)[id].serial < i
    ensures id in Entries(run[..i], ttl) && Entries(run[..i], ttl)[id] == Entries(run[..j], ttl)[id]
    decreases j
  {
    if i < j {
      Grows(run, j - 1, ttl);
      Continuous(run, i, j - 1, id, ttl);
    }
  }

  /** What a GET finds has not been released before. */
  lemma FoundIsUnreleased(run: seq<Command>, k: nat, j: nat, ttl: nat)
    requires Protocol(run, ttl) && AllTimely(run, ttl) && Once(run, ttl)
    requires k < j < |run| && run[k].Delete? && run[k].id == run[j].id && Finds(run, j, ttl).Some?
    ensures Relied(run, k, ttl).serial != Finds(run, j, ttl).value.serial
  {
    hide Entries;
    DeleteTakesOwn(run, k, ttl);
    SerialBelow(run, k, run[k].id, ttl);
    Grows(run, k, ttl);
    if Relied(run, k, ttl).serial == Finds(run, j, ttl).value.serial {
      Continuous(run, k + 1, j, run[j].id, ttl);
      assert false;
    }
  }

  /** The run, a SET of another keeper in the instant of the late DEL, and the DEL make a run of the protocol. */
  lemma LateContinues(run: seq<Command>, now: nat, ttl: nat)
    requires AboutToRelease(run, ttl) && run[|run| - 1].now <= now
    ensures Continues(run, [SetNx(run[|run| - 1].id, run[|run| - 1].keeper + 1, now)], Released(run, |run| - 1, now), ttl)
  {
    hide Entries, Finds;
    var n := |run| - 1;
    var last := Released(run, n, now);
    var taken := SetNx(last.id, last.keeper + 1, now);
    var whole := run + [taken] + [last];
    assert whole == run + ([taken] + [last]);
    Extends(run, [taken] + [last], n, ttl);
    Prolongs(run, taken, ttl);
    Prolongs(run + [taken], last, ttl);
    forall k: nat, l: nat | k < l < |whole| && whole[k].Delete? && whole[l].Delete? && whole[k].id == whole[l].id
      ensures Relied(whole, k, ttl).serial != Relied(whole, l, ttl).serial
    {
      assert k < |run|;
      SameReliance(run, [taken] + [last], k, ttl);
      if l < |run| {
        SameReliance(run, [taken] + [last], l, ttl);
      } else {
        FoundIsUnreleased(run, k, n, ttl);
      }
    }
  }

  lemma LateTakes(run: seq<Command>, now: nat, ttl: nat)
    requires AboutToRelease(run, ttl) && ttl > 0 && Finds(run, |run| - 1, ttl).value.expires <= now
    ensures var last := Released(run, |run| - 1, now);
            RemovesOthers(run + [SetNx(last.id, last.keeper + 1, now)] + [last], |run| + 1, ttl)
  {
    hide Entries;
    var n := |run| - 1;
    var last := Released(run, n, now);
    var taken := SetNx(last.id, last.keeper + 1, now);
    var whole := run + [taken] + [last];
    assert whole[..n] == run[..n] && whole[n] == run[n];
    Grows(whole, n, ttl);
    Grows(whole, n + 1, ttl);
  }

  /** Once the lease has run out, another keeper takes the key in the same instant and loses it to the DEL. */
  lemma LateRemovesOthers(run: seq<Command>, now: nat, ttl: nat)
    requires AboutToRelease(run, ttl) && ttl > 0 && run[|run| - 1].now <= now
    requires Finds(run, |run| - 1, ttl).value.expires <= now
    ensures var last := Released(run, |run| - 1, now);
            exists more ::
              && Continues(run, more, last, ttl)
              && RemovesOthers(run + more + [last], |run + more|, ttl)
  {
    hide Entries, Continues, RemovesOthers;
    var last := Released(run, |run| - 1, now);
    var taken := SetNx(last.id, last.keeper + 1, now);
    LateContinues(run, now, ttl);
    LateTakes(run, now, ttl);
    assert Continues(run, [taken], last, ttl) && RemovesOthers(run + [taken] + [last], |run + [taken]|, ttl);
  }

  /** Released twice, a lease is not safe even in time: the second DEL takes the lease of whoever came between. */
  lemma SecondReleaseRemovesOthers(now: nat, ttl: nat)
    requires ttl > 0
    ensures var run := [SetNx(1, 1, now), Fetch(1, 1, now), Fetch(1, 1, now), Delete(1, 1, now, 1), SetNx(1, 2, now), Delete(1, 1, now, 2)];
            Protocol(run, ttl) && AllTimely(run, ttl) && RemovesOthers(run, 5, ttl)
  {
    var run := [SetNx(1, 1, now), Fetch(1, 1, now), Fetch(1, 1, now), Delete(1, 1, now, 1), SetNx(1, 2, now), Delete(1, 1, now, 2)];
    assert Entries(run[..0], ttl) == map[];
    hide Entries;
    Grows(run, 0, ttl);
    Grows(run, 1, ttl);
    Grows(run, 2, ttl);
    Grows(run, 3, ttl);
    Grows(run, 4, ttl);
  }
}
