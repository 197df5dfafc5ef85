/** No auction gets stuck: anybody can push it to its end, and the funds for the push are always there. */
module MarketLiveness {
  import opened Prelude
  import opened Sums
  import opened SettlementEngine
  import opened MarketState
  import opened MarketTransactions
  import opened MarketInvariant
  import opened MarketPreservation
  import opened MarketSolvency
  import opened PotSolvency
  import opened MarketLifecycle
  import opened MarketClaims
  import opened MarketQuorum
  import Avss = EigenLayerAvs
  import Vaults = ShieldedEscrowVault
  import Pots = SlashedPot

  /** Finalization can be triggered exactly once the auction has run its time, by anybody. */
  lemma TriggerCommitsIff(w: World, sender: Caller, id: nat, salt: Word)
    requires Inv(w) && w.Exists(id)
    ensures TriggerFinalize(w, sender, id, salt).Committed? <==> w.At(id).state == Active && w.now >= w.At(id).terms.endTime
    ensures TriggerFinalize(w, sender, id, salt).Committed? ==> TriggerFinalize(w, sender, id, salt).value.Exists(id)
    ensures TriggerFinalize(w, sender, id, salt).Committed? ==>
              var a' := TriggerFinalize(w, sender, id, salt).value.At(id);
              a'.state == Resolving && a'.resolvingSince == w.now && a'.keeper.value.executor == sender
  {
    assert AuctionOk(w.At(id), SideOf(w, id));
  }

  /** A closing slash never fails: the market has it, the vault takes it, the pot is there. */
  lemma SlashCommits(w: World, id: nat, slash: nat)
    requires w.Exists(id) && slash <= w.balance && w.At(id).terms.deps.pot in w.pots
    requires slash != 0 ==> EscrowIncludingShielded(w, id) != 0
    ensures RegisterSlash(w, id, slash).Committed?
  {}

  lemma CloseCommitsIff(w: World, id: nat, next: AuctionState, slash: nat, takes: bool)
    requires Sound(w) && w.Exists(id) && ClosingSlash(w.At(id), SideOf(w, id), next, slash)
    requires slash != 0 ==> EscrowIncludingShielded(w, id) != 0
    ensures Close(w, id, next, slash, takes).Committed? <==> takes
  {
    hide Custody, Platform, Vaults.Sound, BidsOk, RegisterSlash, PotsSolvent, TotalOwed;
    var w1 := Closing(w, id, next, slash);
    AuctionAt(w, id);
    DueIsCovered(w, id);
    assert w1.At(id).terms == w.At(id).terms && w1.At(id).totalEscrow == w.At(id).totalEscrow;
    SlashCommits(w1, id, slash);
    HeldTokenStays(w, id, next, slash);
  }

  /** Slashing and unlocking do not move the token, so the market still has it to give back. */
  lemma HeldTokenStays(w: World, id: nat, next: AuctionState, slash: nat)
    requires Inv(w) && w.Exists(id) && w.At(id).Live() && RegisterSlash(Closing(w, id, next, slash), id, slash).Committed?
    ensures var w2 := RegisterSlash(Closing(w, id, next, slash), id, slash).value;
            && w2.Exists(id) && OpenRefunds(w2, id).owners == w.owners
            && w.At(id).Token() in w.owners && w.owners[w.At(id).Token()] == MARKET
            && w.At(id).terms.seller != ZERO
  {
    hide Vaults.AllocateSlash, Pots.RegisterSlash, Vaults.Unlock, AuctionOk, Platform, DepsOk;
    assert w.At(id).HoldsToken();
    assert TermsOk(w.At(id).terms, w.now);
  }

  /** The fallback void commits exactly when the timeout has passed and the seller takes the token back. */
  lemma VoidCommitsIff(w: World, id: nat, takes: bool)
    requires Sound(w) && w.Exists(id)
    ensures TriggerFallbackVoid(w, id, takes).Committed? <==>
            w.At(id).state == Resolving && w.now >= w.At(id).resolvingSince + Timeout(w, id) && takes
  {
    hide Inv, PotsSolvent, TotalOwed, Close;
    if w.At(id).state == Resolving {
      VoidSlashCloses(w, id);
      CloseCommitsIff(w, id, Voided, VoidSlash(w, id), takes);
    }
  }

  /** The seller can cancel exactly before the end, when taking the token back. */
  lemma CancelCommitsIff(w: World, sender: Caller, id: nat, takes: bool)
    requires Sound(w) && w.Exists(id)
    ensures CancelAuction(w, sender, id, takes).Committed? <==>
            w.At(id).state == Active && sender == w.At(id).terms.seller && w.now < w.At(id).terms.endTime && takes
  {
    hide Inv, PotsSolvent, TotalOwed, Close;
    if w.At(id).state == Active {
      CancellationSlashFits(w, id);
      CloseCommitsIff(w, id, Cancelled, ComputeCancellationSlash(w, id), takes);
    }
  }

  lemma TimeoutBounded(w: World, id: nat)
    requires w.Exists(id)
    ensures MIN_DYNAMIC_TIMEOUT <= Timeout(w, id) <= MAX_DYNAMIC_TIMEOUT
  {}

  /** Two waits and two calls, neither by anyone in particular: the way out of any live auction. */
  function WayOut(w: World, id: nat, anyone: Caller): seq<Call>
    requires w.Exists(id)
  {
    var a := w.At(id);
    var wait := if w.now >= a.terms.endTime then 0 else a.terms.endTime - w.now;
    if a.state == Active
    then [Advance(wait), Trigger(anyone, id, 0), Advance(MAX_DYNAMIC_TIMEOUT), Void(id, true)]
    else [Advance(MAX_DYNAMIC_TIMEOUT), Void(id, true)]
  }

  lemma RunSnoc(w: World, calls: seq<Call>, c: Call)
    ensures Run(w, calls + [c]) == var before := Run(w, calls); var r := Step(before, c); if r.Committed? then r.value else before
  {
    assert (calls + [c])[..|calls|] == calls;
  }

  lemma AfterWaitVoids(w: World, calls: seq<Call>, id: nat)
    requires Sound(Run(w, calls)) && Run(w, calls).Exists(id) && Run(w, calls).At(id).state == Resolving
    ensures var end := Run(w, calls + [Advance(MAX_DYNAMIC_TIMEOUT)] + [Void(id, true)]);
            end.Exists(id) && end.At(id).state == Voided
  {
    hide Inv, PotsSolvent, TotalOwed, Close, VoidSlash, VaultRow, PotRow, PotClaims, SlashedSide, Environment;
    var w0 := Run(w, calls);
    RunSnoc(w, calls, Advance(MAX_DYNAMIC_TIMEOUT));
    var w1 := Run(w, calls + [Advance(MAX_DYNAMIC_TIMEOUT)]);
    AdvanceStep(w0, MAX_DYNAMIC_TIMEOUT);
    StepKeepsSound(w0, Advance(MAX_DYNAMIC_TIMEOUT));
    ClockedAt(w0, id);
    TimeoutBounded(w1, id);
    VoidCommitsIff(w1, id, true);
    RunSnoc(w, calls + [Advance(MAX_DYNAMIC_TIMEOUT)], Void(id, true));
    VoidSlashCloses(w1, id);
    CloseKeepsInv(w1, id, Voided, VoidSlash(w1, id), true);
  }

  /** From every reachable live state a terminal state is two waits and two open calls away, as long as the
      seller does not refuse its token back. */
  lemma NoStuckAuction(w: World, id: nat, anyone: Caller)
    requires Sound(w) && w.Exists(id) && w.At(id).Live()
    ensures Run(w, WayOut(w, id, anyone)).Exists(id) && Run(w, WayOut(w, id, anyone)).At(id).state == Voided
  {
    hide Sound, TriggerFinalize, Environment;
    var calls := WayOut(w, id, anyone);
    if w.At(id).state == Resolving {
      AfterWaitVoids(w, [], id);
      assert [] + [Advance(MAX_DYNAMIC_TIMEOUT)] + [Void(id, true)] == calls;
    } else {
      var wait, trigger := calls[0], calls[1];
      WaitThenTrigger(w, id, anyone, wait, trigger);
      AfterWaitVoids(w, [wait] + [trigger], id);
      assert [wait] + [trigger] + [Advance(MAX_DYNAMIC_TIMEOUT)] + [Void(id, true)] == calls;
    }
  }

  lemma AdvanceStep(w: World, seconds: nat)
    ensures Step(w, Advance(seconds)) == Committed(w.(now := w.now + seconds))
  {}

  lemma WaitThenTrigger(w: World, id: nat, anyone: Caller, wait: Call, trigger: Call)
    requires Sound(w) && w.Exists(id) && w.At(id).state == Active
    requires wait.Advance? && w.now + wait.seconds >= w.At(id).terms.endTime && trigger == Trigger(anyone, id, 0)
    ensures var w2 := Run(w, [wait] + [trigger]); Sound(w2) && w2.Exists(id) && w2.At(id).state == Resolving
  {
    hide Inv, PotsSolvent, TotalOwed, TriggerFinalize, Environment;
    RunSnoc(w, [], wait);
    assert [] + [wait] == [wait];
    AdvanceStep(w, wait.seconds);
    StepKeepsSound(w, wait);
    var w1 := Run(w, [wait]);
    RunSnoc(w, [wait], trigger);
    TriggerCommitsIff(w1, anyone, id, 0);
    StepKeepsSound(w1, trigger);
  }

  // ---- and nobody else can end it ----

  /** The seller does not take its token back in this call. */
  predicate Declined(c: Call, id: nat) {
    (c.Cancel? || c.Void?) && c.id == id ==> !c.takes
  }

  /** The call carries no quorum for this auction. */
  ghost predicate Unattested(w: World, c: Call, id: nat) {
    w.Exists(id) && w.At(id).request.Some? ==>
      var request := w.At(id).request.value.requestId;
      && (c.Resolve? && c.id == id ==>
            !AttestedBy(w, id, Avss.Statement(id, request, c.winner, c.ciphertext, c.amount), c.proof))
      && (c.ResolveShielded? && c.id == id ==>
            !AttestedBy(w, id, Avss.Statement(id, request, c.identity, c.ciphertext, c.amount), c.proof))
  }

  lemma CloseNeedsTaker(w: World, c: Call)
    requires (c.Cancel? || c.Void?) && Step(w, c).Committed?
    ensures c.takes
  {
    hide RegisterSlash, OpenRefunds, ComputeCancellationSlash, VoidSlash, Timeout, Observe;
  }

  /** A call that neither the seller nor a quorum backs leaves a live auction live. */
  lemma StaysLive(w: World, c: Call, id: nat)
    requires Inv(w) && w.Exists(id) && w.At(id).Live() && Step(w, c).Committed?
    requires Declined(c, id) && Unattested(w, c, id)
    ensures Step(w, c).value.Exists(id) && Step(w, c).value.At(id).Live()
  {
    hide Inv, Step, AttestedBy;
    StepEvolves(w, c);
    CreatedNever(w, id);
    assert Evolves(w.At(id), Step(w, c).value.At(id));
    if c.Cancel? || c.Void? {
      CloseNeedsTaker(w, c);
    } else if c.Resolve? || c.ResolveShielded? {
      UnattestedChangesNothing(w, c, id);
    }
  }

  lemma UnattestedChangesNothing(w: World, c: Call, id: nat)
    requires Inv(w) && w.Exists(id) && w.At(id).Live() && Step(w, c).Committed?
    requires (c.Resolve? || c.ResolveShielded?) && Unattested(w, c, id)
    ensures Step(w, c).value.Exists(id) && (Step(w, c).value.At(id).state == Finalized ==> w.At(id).state == Finalized)
  {
    hide Inv, AttestedBy, SubmitResolution, SubmitShieldedResolution;
    StepEvolves(w, c);
    if c.id == id {
      if c.Resolve? {
        ResolutionIffQuorum(w, id, c.winner, c.ciphertext, c.amount, c.proof);
      } else {
        ShieldedResolutionIffQuorum(w, id, c.identity, c.ciphertext, c.amount, c.proof);
      }
    }
  }

  /** The converse of the way out: while the seller takes its token back in no call and no call carries a quorum, the
      auction stays live, whatever anybody calls and however long they wait. */
  lemma {:induction false} NobodyElseEndsIt(w: World, calls: seq<Call>, id: nat)
    requires Inv(w) && w.Exists(id) && w.At(id).Live()
    requires forall k: nat :: k < |calls| ==> Declined(calls[k], id) && Unattested(Run(w, calls[..k]), calls[k], id)
    ensures Run(w, calls).Exists(id) && Run(w, calls).At(id).Live()
    decreases |calls|
  {
    hide Inv, Step, Declined, Unattested;
    if calls != [] {
      var n := |calls| - 1;
      forall k: nat | k < n ensures Declined(calls[..n][k], id) && Unattested(Run(w, calls[..n][..k]), calls[..n][k], id) {
        assert calls[..n][..k] == calls[..k] && calls[..n][k] == calls[k];
        assert Declined(calls[k], id) && Unattested(Run(w, calls[..k]), calls[k], id);
      }
      NobodyElseEndsIt(w, calls[..n], id);
      RunKeepsInv(w, calls[..n]);
      assert Declined(calls[n], id) && Unattested(Run(w, calls[..n]), calls[n], id);
      if Step(Run(w, calls[..n]), calls[n]).Committed? { StaysLive(Run(w, calls[..n]), calls[n], id); }
    }
  }

  // ---- the measure ----

  /** The bidders still owed a refund. */
  ghost function Waiting(a: Auction): set<Address> {
    set b | b in a.escrow && RefundDue(a, b) != 0
  }

  ghost function Flags(a: Auction): nat {
    (if a.sellerClaimed then 0 else 1) + (if a.keeper.Some? && !a.keeper.value.claimed then 1 else 0)
  }

  /** In a terminal auction nothing adds to what is still to be claimed, and every claim takes something away. */
  lemma ClaimsRunOut(w: World, c: Call, id: nat)
    requires Inv(w) && w.Exists(id) && w.At(id).Terminal() && Step(w, c).Committed?
    ensures var w' := Step(w, c).value;
            && w'.Exists(id)
            && |Waiting(w'.At(id))| + Flags(w'.At(id)) <= |Waiting(w.At(id))| + Flags(w.At(id))
            && ((exists p :: Claims(c, id, p)) ==>
                 |Waiting(w'.At(id))| + Flags(w'.At(id)) < |Waiting(w.At(id))| + Flags(w.At(id)))
  {
    hide Inv, Step;
    TerminalStep(w, c, id);
    var a, a' := w.At(id), Step(w, c).value.At(id);
    assert Waiting(a') == if c.Refund? && c.id == id then Waiting(a) - {c.sender} else Waiting(a);
    if c.Refund? && c.id == id { assert c.sender in Waiting(a); }
  }
}
