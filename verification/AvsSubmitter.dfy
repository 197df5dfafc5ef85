/** The keeper's attestation collector: the first operators of its list sign the digest. */
module AvsSubmitter {
  import opened Prelude
  import Avss = EigenLayerAvs

  /** An operator the keeper can ask for signatures. */
  datatype Operator = Operator(address: Address, sign: Avss.Digest -> Avss.Signature)

  /** The operator's signature on the message recovers to the operator. */
  predicate Honest(o: Operator, digest: Avss.Digest) {
    digest in o.sign(digest).recovers && o.sign(digest).recovers[digest] == o.address
  }

  function Addresses(operators: seq<Operator>): (r: seq<Address>)
    ensures |r| == |operators| && forall i :: 0 <= i < |r| ==> r[i] == operators[i].address
  {
    seq(|operators|, i requires 0 <= i < |operators| => operators[i].address)
  }

  function Signatures(operators: seq<Operator>, digest: Avss.Digest): (r: seq<Avss.Signature>)
    ensures |r| == |operators| && forall i :: 0 <= i < |r| ==> r[i] == operators[i].sign(digest)
  {
    seq(|operators|, i requires 0 <= i < |operators| => operators[i].sign(digest))
  }

  /** None when there are fewer operators than the keeper's own threshold. */
  function CollectProof(s: Avss.Statement, digest: Avss.Digest, operators: seq<Operator>, threshold: nat): Option<Avss.Envelope> {
    if |operators| < threshold then None
    else Some(Avss.Envelope(s, Addresses(operators[..threshold]), Signatures(operators[..threshold], digest)))
  }

  /** The resolution must be the expected one, field by field, before anybody signs it. */
  function SubmitVerified(expected: Avss.Statement, payload: Avss.Statement, digest: Avss.Digest, operators: seq<Operator>,
                          threshold: nat): Option<Avss.Envelope>
  {
    if expected != payload then None else CollectProof(payload, digest, operators, threshold)
  }

  /** Nobody signs a resolution other than the expected one, and a proof is about exactly the expected one, by the first
      operators of the list, in order, each signing this digest. */
  lemma OnlyTheExpectedIsSigned(expected: Avss.Statement, payload: Avss.Statement, digest: Avss.Digest,
                                operators: seq<Operator>, threshold: nat)
    ensures SubmitVerified(expected, payload, digest, operators, threshold).Some? <==> payload == expected && threshold <= |operators|
    ensures SubmitVerified(expected, payload, digest, operators, threshold).Some? ==>
              var proof := SubmitVerified(expected, payload, digest, operators, threshold).value;
              && proof.statement == expected && |proof.operators| == |proof.signatures| == threshold
              && forall i :: 0 <= i < threshold ==>
                   proof.operators[i] == operators[i].address && proof.signatures[i] == operators[i].sign(digest)
  {}

  /** Different registered operators who sign honestly convince the verifier exactly when the keeper collects at
      least as many signatures as the verifier demands. */
  lemma CollectedProofConvinces(avs: Avss.Avs, self: Address, market: Address, s: Avss.Statement,
                                operators: seq<Operator>, threshold: nat)
    requires market != ZERO && threshold <= |operators| && Distinct(Addresses(operators))
    requires forall o :: o in operators ==> o.address in avs.operators && Honest(o, Avss.Digest(self, market, s))
    ensures var proof := CollectProof(s, Avss.Digest(self, market, s), operators, threshold).value;
            Avss.Verify(avs, self, market, s, proof) == Committed((avs, true)) <==> avs.threshold <= threshold
  {
    var digest := Avss.Digest(self, market, s);
    var proof := CollectProof(s, digest, operators, threshold).value;
    var chosen := operators[..threshold];
    assert forall i :: 0 <= i < threshold ==> chosen[i] == operators[i] && Addresses(operators)[i] == chosen[i].address;
    forall k | 0 <= k < threshold ensures Avss.Good(avs, digest, proof, k) {
      assert operators[k] in operators;
    }
    Avss.GoodIsQuorum(avs, digest, proof);
    Avss.VerifyIffQuorum(avs, self, market, s, proof);
  }
}
