/** Who decides: an auction is finalized only on a quorum's word, and its token goes only where it should. */
module MarketQuorum {
  import opened Prelude
  import opened MarketState
  import opened MarketTransactions
  import opened MarketInvariant
  import opened MarketPreservation
  import opened MarketSolvency
  import opened MarketLifecycle
  import opened MarketClaims
  import Vaults = ShieldedEscrowVault
  import Avss = EigenLayerAvs
  import Registries = ShieldedIdentityRegistry

  // ---- the quorum ----

  /** The attestation service an auction's engine forwards to at this moment. */
  ghost predicate AttestedBy(w: World, id: nat, s: Avss.Statement, proof: Avss.Envelope)
    requires w.Exists(id)
  {
    var engine := w.At(id).terms.deps.engine;
    && engine != ZERO && engine in w.engines && w.engines[engine] in w.avss
    && var avs := w.engines[engine];
       && proof.statement == s
       && Avss.Quorum(w.avss[avs], avs, MARKET, s, proof)
       && |Elements(proof.operators)| >= w.avss[avs].threshold
       && Elements(proof.operators) <= w.avss[avs].operators
       && (forall o :: o in Elements(proof.operators) ==> Avss.Signed(proof, o, Avss.Digest(avs, MARKET, s)))
  }

  lemma VerifiedMeansAttested(w: World, id: nat, s: Avss.Statement, proof: Avss.Envelope)
    requires w.Exists(id) && w.At(id).terms.deps.engine != ZERO
    requires VerifyProof(w, w.At(id).terms.deps.engine, s, proof).Committed?
    ensures VerifyProof(w, w.At(id).terms.deps.engine, s, proof).value.1 <==> AttestedBy(w, id, s, proof)
  {
    var avs := w.engines[w.At(id).terms.deps.engine];
    Avss.VerifyIffQuorum(w.avss[avs], avs, MARKET, s, proof);
    if proof.statement == s && Avss.Quorum(w.avss[avs], avs, MARKET, s, proof) {
      Avss.QuorumHasSigners(w.avss[avs], avs, MARKET, s, proof);
      var after :| Avss.Verify(w.avss[avs], avs, MARKET, s, proof) == Committed((after, true));
    }
  }

  /** A public resolution that got through its checks finalizes exactly when a quorum attested exactly this
      winner, handle and amount for this auction's pending request; rejected, it leaves the market alone. */
  lemma ResolutionIffQuorum(w: World, id: nat, winner: Address, ciphertext: Word, amount: nat, proof: Avss.Envelope)
    requires SubmitResolution(w, id, winner, ciphertext, amount, proof).Committed?
    ensures w.Exists(id) && w.At(id).state == Resolving && w.At(id).request.Some?
    ensures var s := Avss.Statement(id, w.At(id).request.value.requestId, winner, ciphertext, amount);
            var (w', accepted) := SubmitResolution(w, id, winner, ciphertext, amount, proof).value;
            && (accepted <==> AttestedBy(w, id, s, proof))
            && (accepted ==> w'.Exists(id) && w'.At(id).state == Finalized
                             && w'.At(id).outcome == Outcome(winner, ciphertext, amount, 0))
            && (!accepted ==> w' == w.(avss := w'.avss))
  {
    hide AttestedBy, VerifyProof;
    var s := Avss.Statement(id, w.At(id).request.value.requestId, winner, ciphertext, amount);
    VerifiedMeansAttested(w, id, s, proof);
    ResolutionShape(w, id, winner, ciphertext, amount, proof);
  }

  lemma ShieldedResolutionIffQuorum(w: World, id: nat, identity: Word, ciphertext: Word, amount: nat, proof: Avss.Envelope)
    requires SubmitShieldedResolution(w, id, identity, ciphertext, amount, proof).Committed?
    ensures w.Exists(id) && w.At(id).state == Resolving && w.At(id).request.Some?
    ensures var s := Avss.Statement(id, w.At(id).request.value.requestId, identity, ciphertext, amount);
            var (w', accepted) := SubmitShieldedResolution(w, id, identity, ciphertext, amount, proof).value;
            && (accepted <==> AttestedBy(w, id, s, proof))
            && (accepted ==> w'.Exists(id) && w'.At(id).state == Finalized
                             && w'.At(id).outcome == Outcome(ZERO, ciphertext, amount, identity))
            && (!accepted ==> w' == w.(avss := w'.avss))
  {
    hide AttestedBy, VerifyProof, Vaults.SettleWinning, Registries.MarkWinner, OpenRefunds, ResolveCommitment;
    var s := Avss.Statement(id, w.At(id).request.value.requestId, identity, ciphertext, amount);
    VerifiedMeansAttested(w, id, s, proof);
    ShieldedResolutionShape(w, id, identity, ciphertext, amount, proof);
  }

  /** The winner an attestation names, as the word that was signed. */
  function WinnerWord(o: Outcome): Word {
    if o.identity != 0 then o.identity else o.winner
  }

  /** Whatever is called, an auction turns FINALIZED only when that call's proof carries at least threshold
      distinct operators, registered at that moment, who signed this market, this auction, its pending request
      and exactly the winner, handle and amount that are recorded. */
  lemma FinalizedOnlyByQuorum(w: World, c: Call, id: nat)
    requires Inv(w) && w.Exists(id) && Step(w, c).Committed?
    requires w.At(id).state != Finalized && Step(w, c).value.Exists(id) && Step(w, c).value.At(id).state == Finalized
    ensures (c.Resolve? && c.id == id) || (c.ResolveShielded? && c.id == id)
    ensures w.At(id).state == Resolving && w.At(id).request.Some?
    ensures var o := Step(w, c).value.At(id).outcome;
            AttestedBy(w, id, Avss.Statement(id, w.At(id).request.value.requestId, WinnerWord(o), o.ciphertext, o.amount), c.proof)
  {
    hide Inv, SubmitResolution, SubmitShieldedResolution, AttestedBy, Evolves;
    StepEvolves(w, c);
    assert Moves(c, id, Finalized);
    if c.Resolve? {
      ResolutionIffQuorum(w, id, c.winner, c.ciphertext, c.amount, c.proof);
    } else {
      ShieldedResolutionIffQuorum(w, id, c.identity, c.ciphertext, c.amount, c.proof);
    }
  }

  // ---- the token ----

  /** Who an auction's token is for, once it leaves the market. */
  ghost predicate Entitled(w: World, c: Call, id: nat, recipient: Address)
    requires w.Exists(id)
  {
    var a := w.At(id);
    match c
    case Cancel(_, _, _) => recipient == a.terms.seller
    case Void(_, _) => recipient == a.terms.seller
    case Asset(_, _, _) => a.outcome.identity == 0 && recipient == if a.outcome.winner == ZERO then a.terms.seller else a.outcome.winner
    case ShieldedAsset(_, identity, to, _, signer, _) =>
      && a.outcome.identity != 0 && identity == a.outcome.identity && recipient == to
      && a.terms.deps.vault in w.vaults && ResolveCommitment(w, id, identity).Committed?
      && signer == Some(w.vaults[a.terms.deps.vault].DepositAt(ResolveCommitment(w, id, identity).value).authority)
    case _ => false
  }

  /** A token leaves the market only with its own auction's cancellation, void or claim, to the party entitled to it. */
  lemma TokenLeavesToEntitled(w: World, c: Call, id: nat)
    requires Inv(w) && w.Exists(id) && w.At(id).HoldsToken() && Step(w, c).Committed?
    requires Step(w, c).value.Exists(id) && !Step(w, c).value.At(id).HoldsToken()
    ensures c.Cancel? || c.Void? || c.Asset? || c.ShieldedAsset?
    ensures w.At(id).Token() in Step(w, c).value.owners
    ensures Entitled(w, c, id, Step(w, c).value.owners[w.At(id).Token()])
  {
    hide Inv, Step, ResolveCommitment;
    if w.At(id).state == Finalized {
      FinalizedGives(w, c, id);
      ClaimedToken(w, c, id);
    } else {
      NotYetClaimed(w, id);
      LeavesByClosing(w, c, id);
      ClosedTokenBack(w, c, id);
    }
  }

  lemma FinalizedGives(w: World, c: Call, id: nat)
    requires Inv(w) && w.Exists(id) && w.At(id).state == Finalized && w.At(id).HoldsToken() && Step(w, c).Committed?
    requires Step(w, c).value.Exists(id) && !Step(w, c).value.At(id).HoldsToken()
    ensures c.Asset? || c.ShieldedAsset?
  {
    hide Inv, Step, EscrowRefund;
    TerminalStep(w, c, id);
  }

  /** A live auction's token leaves only when the auction is cancelled or voided. */
  lemma LeavesByClosing(w: World, c: Call, id: nat)
    requires Inv(w) && w.Exists(id) && w.At(id).Live() && Step(w, c).Committed?
    requires Step(w, c).value.Exists(id) && !Step(w, c).value.At(id).HoldsToken()
    ensures (c.Cancel? && c.id == id) || (c.Void? && c.id == id)
  {
    hide Inv, Step;
    StepEvolves(w, c);
    StepKeepsInv(w, c);
    var a' := Step(w, c).value.At(id);
    assert Evolves(w.At(id), a');
    if a'.state == Finalized { FreshlyFinalized(w, c, id); }
  }

  lemma FreshlyFinalized(w: World, c: Call, id: nat)
    requires Inv(w) && w.Exists(id) && w.At(id).Live() && Step(w, c).Committed?
    requires Step(w, c).value.Exists(id) && Step(w, c).value.At(id).state == Finalized
    ensures !Step(w, c).value.At(id).assetClaimed
  {
    hide Inv, SubmitResolution, SubmitShieldedResolution, AttestedBy, Evolves;
    NotYetClaimed(w, id);
    FinalizedOnlyByQuorum(w, c, id);
    if c.Resolve? {
      ResolutionShape(w, id, c.winner, c.ciphertext, c.amount, c.proof);
    } else {
      ShieldedResolutionShape(w, id, c.identity, c.ciphertext, c.amount, c.proof);
    }
  }

  lemma ClosedTokenBack(w: World, c: Call, id: nat)
    requires Inv(w) && w.Exists(id) && w.At(id).HoldsToken() && (c.Cancel? || c.Void?) && Step(w, c).Committed?
    requires Step(w, c).value.Exists(id) && !Step(w, c).value.At(id).HoldsToken()
    ensures w.At(id).Token() in Step(w, c).value.owners
    ensures Step(w, c).value.owners[w.At(id).Token()] == w.At(id).terms.seller
  {
    hide Inv, Close, ComputeCancellationSlash, VoidSlash, VaultRow, PotRow, PotClaims, SlashedSide;
    if c.Cancel? {
      CancellationSlashFits(w, c.id);
      CloseKeepsInv(w, c.id, Cancelled, ComputeCancellationSlash(w, c.id), c.takes);
      CloseGivesBack(w, c.id, Cancelled, ComputeCancellationSlash(w, c.id), c.takes);
    } else {
      VoidSlashCloses(w, c.id);
      CloseKeepsInv(w, c.id, Voided, VoidSlash(w, c.id), c.takes);
      CloseGivesBack(w, c.id, Voided, VoidSlash(w, c.id), c.takes);
    }
  }

  lemma CloseGivesBack(w: World, id: nat, next: AuctionState, slash: nat, takes: bool)
    requires w.Exists(id) && Close(w, id, next, slash, takes).Committed?
    ensures w.At(id).Token() in Close(w, id, next, slash, takes).value.owners
    ensures Close(w, id, next, slash, takes).value.owners[w.At(id).Token()] == w.At(id).terms.seller
  {
    hide RegisterSlash, OpenRefunds;
  }

  lemma ClaimedToken(w: World, c: Call, id: nat)
    requires w.Exists(id) && w.At(id).HoldsToken() && (c.Asset? || c.ShieldedAsset?) && Step(w, c).Committed?
    requires Step(w, c).value.Exists(id) && !Step(w, c).value.At(id).HoldsToken()
    ensures w.At(id).Token() in Step(w, c).value.owners
    ensures Entitled(w, c, id, Step(w, c).value.owners[w.At(id).Token()])
  {
    hide ResolveCommitment;
  }

  lemma NotYetClaimed(w: World, id: nat)
    requires Inv(w) && w.Exists(id) && w.At(id).Live()
    ensures !w.At(id).assetClaimed
  {
    assert AuctionOk(w.At(id), SideOf(w, id));
  }
}
