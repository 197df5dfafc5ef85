/** The threshold attestation verifier: registered operators, their slash counts and the quorum check. */
module EigenLayerAvs {
  import opened Prelude

  /** Resolution request ids, by whoever prepared them; keccak over these fields is taken as injective. */
  datatype RequestId =
    | EngineRequest(engine: Address, market: Address, auctionId: nat, bidCount: nat, endTime: nat, nonce: nat, salt: Word)
    | LocalRequest(market: Address, auctionId: nat, bidCount: nat, endTime: nat, nonce: nat, salt: Word)

  /** What an attestation is about. A public winner is its address as a word, a shielded one its identity. */
  datatype Statement = Statement(auctionId: nat, requestId: RequestId, winner: Word, ciphertext: Word, amount: nat)

  /** The message operators sign; keccak over these fields is taken as injective. The public and the shielded
      digest encode the same list of words, so they are one constructor here. */
  datatype Digest = Digest(avs: Address, market: Address, statement: Statement)

  /** A signature is known only by what it recovers to on each message; elsewhere recovery reverts. */
  datatype Signature = Signature(recovers: map<Digest, Address>)

  datatype Envelope = Envelope(statement: Statement, operators: seq<Address>, signatures: seq<Signature>)

  datatype Avs = Avs(operators: set<Address>, slashes: map<Address, nat>, operatorCount: nat, threshold: nat)

  ghost predicate Ok(avs: Avs) {
    && 1 <= avs.threshold <= avs.operatorCount
    && avs.operatorCount == |avs.operators|
    && ZERO !in avs.operators
  }

  // ---- slashing ----

  /** Every registered operator that is named gets one more slash, however often it is named. */
  function Slash(slashes: map<Address, nat>, operators: set<Address>, named: seq<Address>): map<Address, nat> {
    map o | o in slashes.Keys + (Elements(named) * operators) ::
      Get(slashes, o) + if o in named && o in operators then 1 else 0
  }

  function Slashed(avs: Avs, named: seq<Address>): Avs {
    avs.(slashes := Slash(avs.slashes, avs.operators, named))
  }

  // ---- verification ----

  datatype Verdict = Accepted | Refused | Unrecoverable

  /** The loop over the envelope from position i on. */
  function Scan(avs: Avs, digest: Digest, e: Envelope, i: nat): Verdict
    requires i <= |e.operators| == |e.signatures|
    decreases |e.operators| - i
  {
    if i == |e.operators| then Accepted
    else if e.operators[i] !in avs.operators || e.operators[i] in e.operators[..i] then Refused
    else if digest !in e.signatures[i].recovers then Unrecoverable
    else if e.signatures[i].recovers[digest] != e.operators[i] then Refused
    else Scan(avs, digest, e, i + 1)
  }

  function Verify(avs: Avs, self: Address, market: Address, s: Statement, e: Envelope): Tx<(Avs, bool)> {
    if |e.operators| != |e.signatures| then Reverted(ProofLengthMismatch) else
    if e.statement != s then Committed((Slashed(avs, e.operators), false))
    else if |e.operators| < avs.threshold then Committed((avs, false))
    else
      :- Need(market != ZERO, ZeroAddress);
      match Scan(avs, Digest(self, market, s), e, 0)
      case Accepted => Committed((avs, true))
      case Refused => Committed((Slashed(avs, e.operators), false))
      case Unrecoverable => Reverted(InvalidSignature)
  }

  /** The envelope carries a signature that recovers to this operator on this message. */
  predicate Signed(e: Envelope, operator: Address, digest: Digest) {
    exists k :: 0 <= k < |e.operators| && k < |e.signatures| && e.operators[k] == operator
                && digest in e.signatures[k].recovers && e.signatures[k].recovers[digest] == operator
  }

  /** The quorum, said without a loop. */
  ghost predicate Quorum(avs: Avs, self: Address, market: Address, s: Statement, e: Envelope) {
    && |e.operators| == |e.signatures| >= avs.threshold
    && Distinct(e.operators)
    && (forall o :: o in e.operators ==> o in avs.operators && Signed(e, o, Digest(self, market, s)))
  }

  ghost predicate Good(avs: Avs, digest: Digest, e: Envelope, i: nat)
    requires i < |e.operators| == |e.signatures|
  {
    && e.operators[i] in avs.operators
    && e.operators[i] !in e.operators[..i]
    && digest in e.signatures[i].recovers
    && e.signatures[i].recovers[digest] == e.operators[i]
  }

  lemma {:induction false} ScanAccepts(avs: Avs, digest: Digest, e: Envelope, i: nat)
    requires i <= |e.operators| == |e.signatures|
    ensures Scan(avs, digest, e, i) == Accepted <==> forall k :: i <= k < |e.operators| ==> Good(avs, digest, e, k)
    decreases |e.operators| - i
  {
    if i < |e.operators| {
      ScanAccepts(avs, digest, e, i + 1);
      if Scan(avs, digest, e, i) != Accepted && Good(avs, digest, e, i) {
        assert exists k :: i + 1 <= k < |e.operators| && !Good(avs, digest, e, k);
      }
    }
  }

  lemma GoodIsQuorum(avs: Avs, digest: Digest, e: Envelope)
    requires |e.operators| == |e.signatures|
    ensures (forall k :: 0 <= k < |e.operators| ==> Good(avs, digest, e, k)) <==>
            && Distinct(e.operators)
            && (forall o :: o in e.operators ==> o in avs.operators && Signed(e, o, digest))
  {
    if forall k :: 0 <= k < |e.operators| ==> Good(avs, digest, e, k) {
      forall i, j | 0 <= i < j < |e.operators| ensures e.operators[i] != e.operators[j] {
        assert Good(avs, digest, e, j) && e.operators[i] in e.operators[..j];
      }
      forall o | o in e.operators ensures o in avs.operators && Signed(e, o, digest) {
        var k :| 0 <= k < |e.operators| && e.operators[k] == o;
        assert Good(avs, digest, e, k);
      }
    } else if Distinct(e.operators) && forall o :: o in e.operators ==> o in avs.operators && Signed(e, o, digest) {
      forall k | 0 <= k < |e.operators| ensures Good(avs, digest, e, k) {
        var o := e.operators[k];
        assert o in e.operators;
        var n :| 0 <= n < |e.operators| && e.operators[n] == o
                 && digest in e.signatures[n].recovers && e.signatures[n].recovers[digest] == o;
        assert n == k;
      }
    }
  }

  /** An attestation is accepted if and only if the envelope is about exactly this call and carries a quorum:
      at least threshold entries, pairwise distinct, all registered, each signature recovering to its operator. */
  lemma VerifyIffQuorum(avs: Avs, self: Address, market: Address, s: Statement, e: Envelope)
    requires market != ZERO
    ensures (exists after :: Verify(avs, self, market, s, e) == Committed((after, true))) <==>
            e.statement == s && Quorum(avs, self, market, s, e)
    ensures forall after :: Verify(avs, self, market, s, e) == Committed((after, true)) ==> after == avs
  {
    if |e.operators| == |e.signatures| && e.statement == s && |e.operators| >= avs.threshold {
      ScanAccepts(avs, Digest(self, market, s), e, 0);
      GoodIsQuorum(avs, Digest(self, market, s), e);
      if Scan(avs, Digest(self, market, s), e, 0) == Accepted {
        assert Verify(avs, self, market, s, e) == Committed((avs, true));
      }
    }
  }

  /** A quorum is what it says: that many different registered operators signed this very digest. */
  lemma QuorumHasSigners(avs: Avs, self: Address, market: Address, s: Statement, e: Envelope)
    requires Quorum(avs, self, market, s, e)
    ensures Elements(e.operators) <= avs.operators
    ensures |Elements(e.operators)| >= avs.threshold
    ensures forall o :: o in Elements(e.operators) ==> Signed(e, o, Digest(self, market, s))
  {
    DistinctCount(e.operators);
  }

  /** A rejection that does not revert: too few entries change nothing; any other slashes each distinct
      registered operator that was named by exactly one, and nobody else. */
  lemma RejectionSlashesOnce(avs: Avs, self: Address, market: Address, s: Statement, e: Envelope, o: Address)
    requires Verify(avs, self, market, s, e).Committed? && !Verify(avs, self, market, s, e).value.1
    ensures
      var after := Verify(avs, self, market, s, e).value.0;
      && after.operators == avs.operators && after.operatorCount == avs.operatorCount && after.threshold == avs.threshold
      && Get(after.slashes, o) == Get(avs.slashes, o) +
         (if (e.statement == s && |e.operators| < avs.threshold) || o !in e.operators || o !in avs.operators then 0 else 1)
  {}

  /** The first entry that is not good has a registered operator, named for the first time, and a signature that recovers
      to nobody. */
  ghost predicate Unreadable(avs: Avs, digest: Digest, e: Envelope, k: nat)
    requires k < |e.operators| == |e.signatures|
  {
    && e.operators[k] in avs.operators && e.operators[k] !in e.operators[..k]
    && digest !in e.signatures[k].recovers
    && (forall j: nat :: j < k ==> Good(avs, digest, e, j))
  }

  lemma {:induction false} ScanStops(avs: Avs, digest: Digest, e: Envelope, i: nat)
    requires i <= |e.operators| == |e.signatures|
    requires forall j: nat :: j < i ==> Good(avs, digest, e, j)
    ensures Scan(avs, digest, e, i) == Unrecoverable <==> exists k: nat :: k < |e.operators| && Unreadable(avs, digest, e, k)
    decreases |e.operators| - i
  {
    if i < |e.operators| {
      if Good(avs, digest, e, i) {
        ScanStops(avs, digest, e, i + 1);
      } else {
        forall k: nat | k < i ensures !Unreadable(avs, digest, e, k) { assert Good(avs, digest, e, k); }
        assert forall k: nat :: i < k < |e.operators| ==> !Unreadable(avs, digest, e, k);
        if Scan(avs, digest, e, i) == Unrecoverable { assert Unreadable(avs, digest, e, i); }
      }
    } else {
      forall k: nat | k < |e.operators| ensures !Unreadable(avs, digest, e, k) { assert Good(avs, digest, e, k); }
    }
  }

  /** The check reverts exactly when the two lists differ in length, or when an envelope about this call, with enough
      entries, is good up to a signature that cannot be recovered at all. Everything else is answered: a foreign
      signature, a repeated operator or an unregistered one is a rejection that slashes. */
  lemma VerifyRevertsIff(avs: Avs, self: Address, market: Address, s: Statement, e: Envelope)
    requires market != ZERO
    ensures Verify(avs, self, market, s, e).Reverted? <==>
            || |e.operators| != |e.signatures|
            || (e.statement == s && |e.operators| >= avs.threshold
                && exists k: nat :: k < |e.operators| && Unreadable(avs, Digest(self, market, s), e, k))
    ensures Verify(avs, self, market, s, e).Reverted? ==>
              Verify(avs, self, market, s, e).error ==
              if |e.operators| != |e.signatures| then ProofLengthMismatch else InvalidSignature
  {
    if |e.operators| == |e.signatures| {
      ScanStops(avs, Digest(self, market, s), e, 0);
    }
  }

  // ---- administration ----

  function WithOperator(avs: Avs, operator: Address, allowed: bool): Tx<Avs> {
    if operator == ZERO then Reverted(ZeroAddress) else
    :- Need(!(allowed && operator in avs.operators), DuplicateOperator);
    :- Need(allowed || operator in avs.operators, InvalidOperator);
    :- Need(allowed || avs.operatorCount > 0, InvalidThreshold);
    var count := if allowed then avs.operatorCount + 1 else avs.operatorCount - 1;
    var changed := avs.(operators := if allowed then avs.operators + {operator} else avs.operators - {operator},
                        operatorCount := count);
    if changed.threshold > count then WithThreshold(changed, count) else Committed(changed)
  }

  function WithThreshold(avs: Avs, threshold: nat): Tx<Avs> {
    if threshold == 0 || threshold > avs.operatorCount then Reverted(InvalidThreshold) else
    Committed(avs.(threshold := threshold))
  }

  /** The threshold stays between one and the number of registered operators, which is counted right;
      the last operator cannot be removed. */
  lemma AdministrationKeepsOk(avs: Avs, operator: Address, allowed: bool, threshold: nat)
    requires Ok(avs)
    ensures WithOperator(avs, operator, allowed).Committed? ==> Ok(WithOperator(avs, operator, allowed).value)
    ensures WithThreshold(avs, threshold).Committed? ==> Ok(WithThreshold(avs, threshold).value)
    ensures avs.operators == {operator} ==> WithOperator(avs, operator, false).Reverted?
  {}

  /** A change commits exactly for an operator that is not zero and whose membership it changes, unless it would leave
      nobody; then exactly that operator joins or leaves, and the threshold comes down to the number left if it must. */
  lemma OperatorChangesIff(avs: Avs, operator: Address, allowed: bool)
    requires Ok(avs)
    ensures WithOperator(avs, operator, allowed).Committed? <==>
            operator != ZERO && (operator in avs.operators) != allowed && (allowed || avs.operators != {operator})
    ensures WithOperator(avs, operator, allowed).Committed? ==>
              var after := WithOperator(avs, operator, allowed).value;
              && (forall o :: o in after.operators <==> if o == operator then allowed else o in avs.operators)
              && after.slashes == avs.slashes
              && after.threshold <= avs.threshold
              && (after.threshold < avs.threshold ==> !allowed && avs.threshold == |avs.operators| && after.threshold == |after.operators|)
  {
    if operator in avs.operators && !allowed {
      if avs.operatorCount == 1 { assert |avs.operators - {operator}| == 0; }
    }
  }

  /** Only a threshold from one to the number of operators is taken, and it alone changes. */
  lemma ThresholdChangesIff(avs: Avs, threshold: nat)
    requires Ok(avs)
    ensures WithThreshold(avs, threshold).Committed? <==> 1 <= threshold <= |avs.operators|
    ensures WithThreshold(avs, threshold).Committed? ==>
              && WithThreshold(avs, threshold).value.threshold == threshold
              && WithThreshold(avs, threshold).value.operators == avs.operators
              && WithThreshold(avs, threshold).value.slashes == avs.slashes
  {}

  lemma VerifyKeepsOk(avs: Avs, self: Address, market: Address, s: Statement, e: Envelope)
    requires Ok(avs) && Verify(avs, self, market, s, e).Committed?
    ensures Ok(Verify(avs, self, market, s, e).value.0)
  {}

  /** The contract itself. */
  class Verifier {
    const self: Address
    var operators: set<Address>
    var slashes: map<Address, nat>
    var operatorCount: nat
    var threshold: nat

    ghost function View(): Avs
      reads this
    {
      Avs(operators, slashes, operatorCount, threshold)
    }

    ghost predicate Valid()
      reads this
    {
      Ok(View())
    }

    /** The account before its deployment code has run. */
    constructor (self: Address)
      ensures this.self == self && View() == Avs({}, map[], 0, 0)
    {
      this.self := self;
      operators, slashes, operatorCount, threshold := {}, map[], 0, 0;
    }

    /** The deployment code: registers the initial operators one by one, then sets the threshold. */
    static method Deploy(self: Address, initial: seq<Address>, initialThreshold: nat) returns (r: Tx<Verifier>)
      ensures r.Committed? <==> Distinct(initial) && ZERO !in initial && 1 <= initialThreshold <= |initial|
      ensures r.Committed? ==> fresh(r.value) && r.value.Valid() && r.value.self == self
                               && r.value.View() == Avs(Elements(initial), map[], |initial|, initialThreshold)
    {
      if |initial| == 0 { return Reverted(InvalidThreshold); }
      var avs := new Verifier(self);
      var index := 0;
      while index < |initial|
        invariant index <= |initial|
        invariant avs.View() == Avs(Elements(initial[..index]), map[], index, 0)
        invariant Distinct(initial[..index]) && ZERO !in initial[..index]
      {
        var operator := initial[index];
        assert initial[..index + 1] == initial[..index] + [operator];
        assert operator in initial;
        if operator == ZERO { return Reverted(Error.ZeroAddress); }
        if operator in avs.operators {
          assert exists k :: 0 <= k < index && initial[k] == initial[index];
          return Reverted(Error.DuplicateOperator);
        }
        avs.operators := avs.operators + {operator};
        avs.operatorCount := avs.operatorCount + 1;
        index := index + 1;
      }
      assert initial[..index] == initial;
      DistinctCount(initial);
      var result := avs.SetThreshold(initialThreshold);
      if result.Reverted? { return Reverted(result.error); }
      return Committed(avs);
    }

    method SetOperator(operator: Address, allowed: bool) returns (r: Tx<()>)
      requires Valid()
      modifies this
      ensures Valid()
      ensures r.Committed? ==> WithOperator(old(View()), operator, allowed) == Committed(View())
      ensures r.Reverted? ==> View() == old(View())
                              && WithOperator(old(View()), operator, allowed) == Reverted(r.error)
    {
      AdministrationKeepsOk(View(), operator, allowed, 0);
      if operator == ZERO { return Reverted(ZeroAddress); }
      if allowed && operator in operators { return Reverted(DuplicateOperator); }
      if !allowed && operator !in operators { return Reverted(InvalidOperator); }
      var count := if allowed then operatorCount + 1 else operatorCount - 1;
      if threshold > count && count == 0 { return Reverted(InvalidThreshold); }
      operators := if allowed then operators + {operator} else operators - {operator};
      operatorCount := count;
      if threshold > operatorCount { threshold := operatorCount; }
      return Committed(());
    }

    method SetThreshold(newThreshold: nat) returns (r: Tx<()>)
      requires operatorCount == |operators| && ZERO !in operators
      modifies this
      ensures old(Valid()) || r.Committed? ==> Valid()
      ensures r.Committed? ==> WithThreshold(old(View()), newThreshold) == Committed(View())
      ensures r.Reverted? ==> View() == old(View())
                              && WithThreshold(old(View()), newThreshold) == Reverted(r.error)
    {
      if newThreshold == 0 || newThreshold > operatorCount { return Reverted(InvalidThreshold); }
      threshold := newThreshold;
      return Committed(());
    }

    /** The check against the envelope, with its two nested scans; it reverts only by returning Reverted. */
    method VerifyAttestation(market: Address, s: Statement, e: Envelope) returns (r: Tx<bool>)
      requires Valid()
      modifies this
      ensures Valid()
      ensures r.Committed? ==> Verify(old(View()), self, market, s, e) == Committed((View(), r.value))
      ensures r.Reverted? ==> View() == old(View())
                              && Verify(old(View()), self, market, s, e) == Reverted(r.error)
    {
      if |e.operators| != |e.signatures| { return Reverted(ProofLengthMismatch); }
      if e.statement != s {
        SlashOperators(e.operators);
        return Committed(false);
      }
      if |e.operators| < threshold { return Committed(false); }
      if market == ZERO { return Reverted(ZeroAddress); }

      var digest := Digest(self, market, s);
      var validSignatures := 0;
      var index := 0;
      while index < |e.operators|
        invariant index <= |e.operators|
        invariant validSignatures == index
        invariant View() == old(View())
        invariant Scan(View(), digest, e, 0) == Scan(View(), digest, e, index)
      {
        var expected := e.operators[index];
        if expected !in operators {
          SlashOperators(e.operators);
          return Committed(false);
        }
        var prior := 0;
        while prior < index
          invariant prior <= index
          invariant expected !in e.operators[..prior]
        {
          if expected == e.operators[prior] {
            assert expected in e.operators[..index];
            SlashOperators(e.operators);
            return Committed(false);
          }
          assert e.operators[..prior + 1] == e.operators[..prior] + [e.operators[prior]];
          prior := prior + 1;
        }
        if digest !in e.signatures[index].recovers { return Reverted(InvalidSignature); }
        if e.signatures[index].recovers[digest] != expected {
          SlashOperators(e.operators);
          return Committed(false);
        }
        validSignatures := validSignatures + 1;
        index := index + 1;
      }
      if validSignatures < threshold {
        assert false;
      }
      return Committed(true);
    }

    method SlashOperators(named: seq<Address>)
      modifies this`slashes
      ensures slashes == Slash(old(slashes), operators, named)
    {
      var index := 0;
      while index < |named|
        invariant index <= |named|
        invariant slashes == Slash(old(slashes), operators, named[..index])
      {
        var seen := Contains(named, named[index], index);
        assert named[..index + 1] == named[..index] + [named[index]];
        if named[index] in operators && !seen {
          slashes := slashes[named[index] := Get(slashes, named[index]) + 1];
        }
        index := index + 1;
      }
      assert named[..index] == named;
    }

    method Contains(named: seq<Address>, operator: Address, current: nat) returns (found: bool)
      requires current <= |named|
      ensures found <==> operator in named[..current]
    {
      var index := 0;
      while index < current
        invariant index <= current
        invariant operator !in named[..index]
      {
        if named[index] == operator { return true; }
        assert named[..index + 1] == named[..index] + [named[index]];
        index := index + 1;
      }
      return false;
    }
  }
}
