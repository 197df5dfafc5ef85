/** The registry that ties each shielded identity to one commitment, per auction. */
module ShieldedIdentityRegistry {
  import opened Prelude

  datatype Registry = Registry(commitments: map<(nat, Word), Word>, identities: map<(nat, Word), Word>, winners: map<nat, Word>) {

    function CommitmentFor(id: nat, identity: Word): Word {
      Get(commitments, (id, identity))
    }

    function IdentityFor(id: nat, commitment: Word): Word {
      Get(identities, (id, commitment))
    }

    function Winner(id: nat): Word {
      Get(winners, id)
    }
  }

  const EMPTY_REGISTRY := Registry(map[], map[], map[])

  function Bind(r: Registry, id: nat, identity: Word, commitment: Word): Tx<Registry> {
    if identity == 0 then Reverted(InvalidIdentityHash) else
    :- Need(commitment != 0, InvalidCommitmentHash);
    var bound := r.CommitmentFor(id, identity);
    :- Need(bound == 0 || bound == commitment, IdentityAlreadyBound);
    var owner := r.IdentityFor(id, commitment);
    :- Need(owner == 0 || owner == identity, CommitmentAlreadyBound);
    if bound != 0 then Committed(r) else
    Committed(r.(commitments := r.commitments[(id, identity) := commitment],
                 identities := r.identities[(id, commitment) := identity]))
  }

  function MarkWinner(r: Registry, id: nat, identity: Word): Tx<Registry> {
    if identity == 0 then Reverted(InvalidIdentityHash) else
    :- Need(r.CommitmentFor(id, identity) != 0, IdentityNotBound);
    :- Need(r.Winner(id) == 0 || r.Winner(id) == identity, WinningIdentityAlreadyMarked);
    Committed(r.(winners := r.winners[id := identity]))
  }

  /** The two maps are each other's inverse, and a marked winner is a bound identity. */
  ghost predicate Inverse(r: Registry) {
    && (forall id: nat, i: Word :: r.CommitmentFor(id, i) != 0 ==>
          i != 0 && r.IdentityFor(id, r.CommitmentFor(id, i)) == i)
    && (forall id: nat, c: Word :: r.IdentityFor(id, c) != 0 ==>
          c != 0 && r.CommitmentFor(id, r.IdentityFor(id, c)) == c)
    && (forall id: nat :: r.Winner(id) != 0 ==> r.CommitmentFor(id, r.Winner(id)) != 0)
  }

  /** Nothing that was bound or marked ever changes again. */
  ghost predicate Extends(before: Registry, after: Registry) {
    && (forall id: nat, i: Word :: before.CommitmentFor(id, i) != 0 ==> after.CommitmentFor(id, i) == before.CommitmentFor(id, i))
    && (forall id: nat, c: Word :: before.IdentityFor(id, c) != 0 ==> after.IdentityFor(id, c) == before.IdentityFor(id, c))
    && (forall id: nat :: before.Winner(id) != 0 ==> after.Winner(id) == before.Winner(id))
  }

  lemma EmptyIsInverse()
    ensures Inverse(EMPTY_REGISTRY)
  {}

  /** A binding commits exactly when neither side belongs to another partner, and then binds exactly the pair. */
  lemma BindIsPermanent(r: Registry, id: nat, identity: Word, commitment: Word)
    requires Inverse(r)
    ensures Bind(r, id, identity, commitment).Committed? <==>
            && identity != 0 && commitment != 0
            && r.CommitmentFor(id, identity) in {0, commitment}
            && r.IdentityFor(id, commitment) in {0, identity}
    ensures Bind(r, id, identity, commitment).Committed? ==>
              var after := Bind(r, id, identity, commitment).value;
              && Inverse(after) && Extends(r, after)
              && after.CommitmentFor(id, identity) == commitment
              && after.IdentityFor(id, commitment) == identity
  {
    if Bind(r, id, identity, commitment).Committed? && r.CommitmentFor(id, identity) == 0 {
      var after := Bind(r, id, identity, commitment).value;
      assert r.IdentityFor(id, commitment) == 0;
      forall n: nat, i: Word ensures after.CommitmentFor(n, i) ==
        if n == id && i == identity then commitment else r.CommitmentFor(n, i) {}
      forall n: nat, c: Word ensures after.IdentityFor(n, c) ==
        if n == id && c == commitment then identity else r.IdentityFor(n, c) {}
      forall n: nat ensures after.Winner(n) == r.Winner(n) {}
      forall n: nat, i: Word | after.CommitmentFor(n, i) != 0
        ensures i != 0 && after.IdentityFor(n, after.CommitmentFor(n, i)) == i
      {
        if !(n == id && i == identity) { assert r.IdentityFor(n, r.CommitmentFor(n, i)) == i; }
      }
      forall n: nat, c: Word | after.IdentityFor(n, c) != 0
        ensures c != 0 && after.CommitmentFor(n, after.IdentityFor(n, c)) == c
      {
        if !(n == id && c == commitment) { assert r.CommitmentFor(n, r.IdentityFor(n, c)) == c; }
      }
    }
  }

  /** A binding writes exactly its own pair, in both directions, and marks no winner. */
  lemma BindWritesOnly(r: Registry, id: nat, identity: Word, commitment: Word)
    requires Inverse(r) && Bind(r, id, identity, commitment).Committed?
    ensures var after := Bind(r, id, identity, commitment).value;
            && (forall j: nat, i: Word :: after.CommitmentFor(j, i) == if j == id && i == identity then commitment else r.CommitmentFor(j, i))
            && (forall j: nat, c: Word :: after.IdentityFor(j, c) == if j == id && c == commitment then identity else r.IdentityFor(j, c))
            && (forall j: nat :: after.Winner(j) == r.Winner(j))
  {}

  /** A winner is marked exactly when it is bound and no other is, and the mark is all that changes. */
  lemma MarkCommitsIff(r: Registry, id: nat, identity: Word)
    ensures MarkWinner(r, id, identity).Committed? <==>
            identity != 0 && r.CommitmentFor(id, identity) != 0 && r.Winner(id) in {0, identity}
    ensures MarkWinner(r, id, identity).Committed? ==>
              var after := MarkWinner(r, id, identity).value;
              && (forall j: nat :: after.Winner(j) == if j == id then identity else r.Winner(j))
              && (forall j: nat, i: Word :: after.CommitmentFor(j, i) == r.CommitmentFor(j, i))
              && (forall j: nat, c: Word :: after.IdentityFor(j, c) == r.IdentityFor(j, c))
  {}

  lemma MarkIsWriteOnce(r: Registry, id: nat, identity: Word)
    requires Inverse(r)
    ensures MarkWinner(r, id, identity).Committed? ==>
              && Inverse(MarkWinner(r, id, identity).value)
              && Extends(r, MarkWinner(r, id, identity).value)
              && MarkWinner(r, id, identity).value.Winner(id) == identity
    ensures r.Winner(id) !in {0, identity} ==> MarkWinner(r, id, identity).Reverted?
  {
    if MarkWinner(r, id, identity).Committed? {
      var after := MarkWinner(r, id, identity).value;
      forall n: nat, i: Word ensures after.CommitmentFor(n, i) == r.CommitmentFor(n, i) {}
      forall n: nat, c: Word ensures after.IdentityFor(n, c) == r.IdentityFor(n, c) {}
      forall n: nat ensures after.Winner(n) == if n == id then identity else r.Winner(n) {}
    }
  }

  /** The contract itself: its mappings, updated in place. */
  class IdentityRegistry {
    var commitments: map<(nat, Word), Word>
    var identities: map<(nat, Word), Word>
    var winners: map<nat, Word>

    ghost function View(): Registry
      reads this
    {
      Registry(commitments, identities, winners)
    }

    ghost predicate Valid()
      reads this
    {
      Inverse(View())
    }

    constructor ()
      ensures Valid() && View() == EMPTY_REGISTRY
    {
      commitments, identities, winners := map[], map[], map[];
    }

    method BindIdentity(id: nat, identity: Word, commitment: Word) returns (r: Tx<()>)
      requires Valid()
      modifies this
      ensures Valid() && Extends(old(View()), View())
      ensures r.Committed? ==> Bind(old(View()), id, identity, commitment) == Committed(View())
      ensures r.Reverted? ==> Bind(old(View()), id, identity, commitment) == Reverted(r.error) && View() == old(View())
    {
      BindIsPermanent(View(), id, identity, commitment);
      if identity == 0 { return Reverted(InvalidIdentityHash); }
      if commitment == 0 { return Reverted(InvalidCommitmentHash); }
      var bound := Get(commitments, (id, identity));
      if bound != 0 && bound != commitment { return Reverted(IdentityAlreadyBound); }
      var owner := Get(identities, (id, commitment));
      if owner != 0 && owner != identity { return Reverted(CommitmentAlreadyBound); }
      if bound == 0 {
        commitments := commitments[(id, identity) := commitment];
        identities := identities[(id, commitment) := identity];
      }
      return Committed(());
    }

    method MarkWinningIdentity(id: nat, identity: Word) returns (r: Tx<()>)
      requires Valid()
      modifies this
      ensures Valid() && Extends(old(View()), View())
      ensures r.Committed? ==> MarkWinner(old(View()), id, identity) == Committed(View())
      ensures r.Reverted? ==> MarkWinner(old(View()), id, identity) == Reverted(r.error) && View() == old(View())
    {
      MarkIsWriteOnce(View(), id, identity);
      if identity == 0 { return Reverted(InvalidIdentityHash); }
      if Get(commitments, (id, identity)) == 0 { return Reverted(IdentityNotBound); }
      var existing := Get(winners, id);
      if existing != 0 && existing != identity { return Reverted(WinningIdentityAlreadyMarked); }
      winners := winners[id := identity];
      return Committed(());
    }
  }
}
