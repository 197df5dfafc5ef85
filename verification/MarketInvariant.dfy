/** What every reachable state of the market satisfies, and why each call keeps it. */
module MarketInvariant {
  import opened Prelude
  import opened Sums
  import opened SettlementEngine
  import opened MarketState
  import opened MarketTransactions
  import Vaults = ShieldedEscrowVault
  import Pots = SlashedPot

  /** What the other contracts keep about one auction. */
  datatype Side = Side(vaulted: bool, book: Vaults.Book, entry: Option<Pots.Entry>, compensated: set<Address>)

  ghost function VaultRow(w: World, vault: Address, id: nat): Vaults.Book {
    if vault in w.vaults then w.vaults[vault].BookAt(id) else Vaults.EMPTY_BOOK
  }

  ghost function PotRow(w: World, pot: Address, id: nat): Option<Pots.Entry> {
    if pot in w.pots && id in w.pots[pot].entries then Some(w.pots[pot].entries[id]) else None
  }

  ghost function PotClaims(w: World, pot: Address, id: nat): set<Address> {
    if pot in w.pots then w.pots[pot].Claimed(id) else {}
  }

  ghost function SideOf(w: World, id: nat): Side
    requires w.Exists(id)
  {
    var deps := w.At(id).terms.deps;
    Side(deps.vault in w.vaults, VaultRow(w, deps.vault, id), PotRow(w, deps.pot, id), PotClaims(w, deps.pot, id))
  }

  // ---- one auction ----

  ghost predicate TermsOk(t: Terms, now: nat) {
    && t.deposit > 0
    && t.seller != ZERO && t.seller != MARKET
    && t.createdAt <= now && t.createdAt + MIN_AUCTION_DURATION <= t.endTime
  }

  /** A recorded outcome is a public winner, a shielded winner, or nobody at price zero. */
  ghost predicate OutcomeOk(o: Outcome, startingPrice: nat) {
    && (o.winner != ZERO ==> o.identity == 0)
    && (o.winner != ZERO || o.identity != 0 ==> o.amount > 0 && o.amount >= startingPrice)
    && (o.winner == ZERO && o.identity == 0 ==> o.amount == 0)
  }

  /** Which fields are set in which state. */
  ghost predicate Lifecycle(a: Auction) {
    && a.state != Created
    && (a.request.Some? <==> a.state == Resolving)
    && (a.keeper.Some? <==> a.state == Resolving || a.state == Finalized || a.state == Voided)
    && (a.keeper.Some? ==>
          && a.keeper.value.executor != ZERO
          && a.keeper.value.reward == FinalizeReward(a.terms.deposit)
          && (a.keeper.value.claimed ==> a.Terminal()))
    && (a.state != Finalized ==> a.outcome == NO_OUTCOME && !a.assetClaimed)
    && (a.state == Finalized ==> OutcomeOk(a.outcome, a.terms.startingPrice))
    && (a.Live() ==> !a.sellerClaimed && a.withdrawn == {} && !a.refundsUnlocked && a.settledRefunds == {})
    && (a.Live() || a.state == Finalized ==> a.slash == 0)
    && (a.state == Cancelled ==> a.slash <= a.terms.deposit)
    && (a.state == Voided ==> a.slash == 0 || a.slash == a.terms.deposit - FinalizeReward(a.terms.deposit))
  }

  /** The escrow rows add up to the recorded total until claims begin, and a paid row is empty. */
  ghost predicate EscrowOk(a: Auction) {
    && ZERO !in a.escrow
    && Sum(a.escrow) <= a.totalEscrow
    && (a.Live() ==> Sum(a.escrow) == a.totalEscrow)
    && (forall b :: b in a.withdrawn ==> Get(a.escrow, b) == 0)
    && (a.outcome.winner != ZERO && a.outcome.winner !in a.withdrawn ==> a.outcome.amount <= Get(a.escrow, a.outcome.winner))
  }

  /** A stored public bid decodes to an amount from the starting price up to its bidder's escrow. */
  ghost predicate BidCovered(a: Auction, b: Address) {
    var v := a.terms.deps.adapter.Decode(Get(a.bids, b));
    v.Some? && a.terms.startingPrice <= v.value <= Get(a.escrow, b)
  }

  ghost predicate BidsOk(a: Auction) {
    && ZERO !in a.bids
    && a.bids.Keys == Elements(a.bidders) && Distinct(a.bidders)
    && a.shieldedBids.Keys == Elements(a.commitments) && Distinct(a.commitments)
    && a.bidCount >= |a.bidders| + |a.commitments|
    && (a.Live() ==> forall b :: b in a.bids ==> BidCovered(a, b))
  }

  /** How the auction agrees with its rows in the vault and in the pot. */
  ghost predicate SideOk(a: Auction, s: Side) {
    && (a.state != Cancelled && a.state != Voided ==> s.entry.None? && s.compensated == {} && s.book.reserve == 0)
    && (s.entry.Some? ==> s.entry.value.totalEscrow == a.totalEscrow && s.entry.value.totalSlash <= a.slash)
    && s.compensated <= a.withdrawn
    && s.book.unlocked == a.refundsUnlocked
    && (a.Terminal() && s.vaulted ==> a.refundsUnlocked)
    && (s.book.total == 0 ==> s.book.reserve == 0)
    && (s.book.winning != 0 ==> a.state == Finalized)
    && (a.state == Voided && a.slash == 0 ==> a.totalEscrow == 0 && s.book.total == 0)
    && (!s.vaulted ==> s.book == Vaults.EMPTY_BOOK)
  }

  ghost predicate AuctionOk(a: Auction, s: Side) {
    Lifecycle(a) && EscrowOk(a) && BidsOk(a) && SideOk(a, s)
  }

  // ---- the whole market ----

  ghost predicate DepsOk(w: World, d: Dependencies) {
    && d.pot in w.pots
    && (d.vault == ZERO || d.vault in w.vaults)
    && (d.registry == ZERO || d.registry in w.registries)
    && (d.engine == ZERO || d.engine in w.engines)
  }

  /** The token of every auction that still holds one is owned by the market, and is no other auction's. */
  ghost predicate Custody(w: World) {
    && (forall id :: w.Exists(id) && w.At(id).HoldsToken() ==>
          w.At(id).Token() in w.owners && w.owners[w.At(id).Token()] == MARKET)
    && (forall i, j :: w.Exists(i) && w.Exists(j) && i != j && w.At(i).HoldsToken() && w.At(j).HoldsToken() ==>
          w.At(i).Token() != w.At(j).Token())
  }

  /** The other contracts: no account at zero, sound vaults, no rows for auctions that do not exist. */
  ghost predicate Platform(w: World) {
    && ZERO !in w.pots && ZERO !in w.vaults && ZERO !in w.registries && ZERO !in w.engines
    && (forall v :: v in w.vaults ==> Vaults.Sound(w.vaults[v]))
    && (forall v, id: nat :: v in w.vaults && !w.Exists(id) ==> w.vaults[v].BookAt(id) == Vaults.EMPTY_BOOK)
    && (forall p, id: nat :: p in w.pots && !w.Exists(id) ==> id !in w.pots[p].entries && id !in w.pots[p].claimed)
  }

  ghost predicate Clocked(w: World) {
    && w.network.lastObservation <= w.now
    && w.network.movingAverage <= NETWORK_SAMPLE_CEILING
    && (forall id :: w.Exists(id) ==> TermsOk(w.At(id).terms, w.now) && w.At(id).resolvingSince <= w.now)
  }

  ghost predicate Inv(w: World) {
    && (forall id :: w.Exists(id) ==> AuctionOk(w.At(id), SideOf(w, id)))
    && (forall id :: w.Exists(id) ==> DepsOk(w, w.At(id).terms.deps))
    && DepsOk(w, w.config)
    && Custody(w)
    && Platform(w)
    && Clocked(w)
  }

  // ---- framing: a call works on one auction ----

  /** Nothing about the other auctions, their rows or their tokens has changed. */
  ghost predicate OnlyTouches(w: World, w': World, id: nat)
    requires w.Exists(id)
  {
    && |w'.auctions| == |w.auctions|
    && w'.At(id).terms == w.At(id).terms
    && (forall j :: w.Exists(j) && j != id ==> w'.At(j) == w.At(j) && SideOf(w', j) == SideOf(w, j))
    && w'.now == w.now && w'.config == w.config
    && w.pots.Keys == w'.pots.Keys && w.vaults.Keys == w'.vaults.Keys
    && w.registries.Keys == w'.registries.Keys && w.engines == w'.engines
  }

  /** The market's tokens stay put, except that the auction may give its own away. */
  ghost predicate TokensKept(w: World, w': World, id: nat)
    requires w.Exists(id) && w'.Exists(id)
  {
    && (w'.At(id).HoldsToken() ==> w.At(id).HoldsToken())
    && (forall t :: t in w.owners && !(t == w.At(id).Token() && w.At(id).HoldsToken() && !w'.At(id).HoldsToken()) ==>
          t in w'.owners && w'.owners[t] == w.owners[t])
  }

  lemma TouchKeepsInv(w: World, w': World, id: nat)
    requires Inv(w) && w.Exists(id)
    requires OnlyTouches(w, w', id) && TokensKept(w, w', id) && Platform(w')
    requires w'.network.lastObservation <= w'.now && w'.network.movingAverage <= NETWORK_SAMPLE_CEILING
    requires w'.At(id).resolvingSince <= w'.now
    requires AuctionOk(w'.At(id), SideOf(w', id))
    ensures Inv(w')
  {
    hide AuctionOk, Platform, TermsOk, SideOf;
    TouchKeepsCustody(w, w', id);
    forall j | w'.Exists(j) ensures AuctionOk(w'.At(j), SideOf(w', j)) && DepsOk(w', w'.At(j).terms.deps) {
      if j != id { assert w'.At(j) == w.At(j) && SideOf(w', j) == SideOf(w, j); }
    }
    forall j | w'.Exists(j) ensures TermsOk(w'.At(j).terms, w'.now) && w'.At(j).resolvingSince <= w'.now {
      if j != id { assert w'.At(j) == w.At(j); }
    }
  }

  lemma TouchKeepsCustody(w: World, w': World, id: nat)
    requires Custody(w) && w.Exists(id)
    requires OnlyTouches(w, w', id) && TokensKept(w, w', id)
    ensures Custody(w')
  {
    hide SideOf;
    forall j | w'.Exists(j) && w'.At(j).HoldsToken()
      ensures w'.At(j).Token() in w'.owners && w'.owners[w'.At(j).Token()] == MARKET
    {
      if j != id { assert w'.At(j) == w.At(j); }
      assert w.At(j).HoldsToken();
    }
    forall i, j | w'.Exists(i) && w'.Exists(j) && i != j && w'.At(i).HoldsToken() && w'.At(j).HoldsToken()
      ensures w'.At(i).Token() != w'.At(j).Token()
    {
      if i != id { assert w'.At(i) == w.At(i); }
      if j != id { assert w'.At(j) == w.At(j); }
    }
  }

  lemma ObserveKeepsBounds(n: Network, now: nat)
    requires n.lastObservation <= now && n.movingAverage <= NETWORK_SAMPLE_CEILING
    ensures Observe(n, now).lastObservation <= now && Observe(n, now).movingAverage <= NETWORK_SAMPLE_CEILING
  {}

  /** A call that only rewrites the auction's own row (and the market's balance). */
  lemma RowKeepsInv(w: World, w': World, id: nat)
    requires Inv(w) && w.Exists(id)
    requires w' == Put(w, w', id)
    requires w'.network == w.network || w'.network == Observe(w.network, w.now)
    requires w'.At(id).terms == w.At(id).terms && w'.At(id).resolvingSince <= w.now
    requires w'.At(id).HoldsToken() ==> w.At(id).HoldsToken()
    requires AuctionOk(w'.At(id), SideOf(w, id))
    ensures Inv(w')
  {
    hide AuctionOk;
    ObserveKeepsBounds(w.network, w.now);
    SamePlatform(w, w');
    TouchKeepsInv(w, w', id);
  }

  lemma SamePlatform(w: World, w': World)
    requires Platform(w)
    requires |w'.auctions| >= |w.auctions|
    requires w'.pots == w.pots && w'.vaults == w.vaults && w'.registries.Keys == w.registries.Keys && w'.engines == w.engines
    ensures Platform(w')
  {
    forall id: nat | !w'.Exists(id) ensures !w.Exists(id) {}
  }

  /** w with row id, the balance and the observation taken from w'. */
  ghost function Put(w: World, w': World, id: nat): World
    requires w.Exists(id)
  {
    if |w'.auctions| != |w.auctions| then w else
    w.(auctions := w.auctions[id - 1 := w'.At(id)], balance := w'.balance, network := w'.network, avss := w'.avss)
  }

  // ---- calls on a live auction ----

  lemma EscrowKeepsInv(w: World, sender: Caller, value: nat, id: nat)
    requires Inv(w) && LockEscrow(w, sender, value, id).Committed?
    ensures Inv(LockEscrow(w, sender, value, id).value)
  {
    hide Custody, Platform, DepsOk, TermsOk, SideOf;
    var a, w' := w.At(id), LockEscrow(w, sender, value, id).value;
    var a' := w'.At(id);
    SumPut(a.escrow, sender, Get(a.escrow, sender) + value);
    forall b | b in a'.bids ensures BidCovered(a', b) {
      assert BidCovered(a, b);
    }
    RowKeepsInv(w, w', id);
  }

  lemma BidKeepsInv(w: World, sender: Caller, id: nat, handle: Word)
    requires Inv(w) && PlaceBid(w, sender, id, handle).Committed?
    ensures Inv(PlaceBid(w, sender, id, handle).value)
  {
    hide Custody, Platform, DepsOk, TermsOk, SideOf;
    var a, w' := w.At(id), PlaceBid(w, sender, id, handle).value;
    var a' := w'.At(id);
    forall b | b in a'.bids ensures BidCovered(a', b) {
      if b != sender { assert BidCovered(a, b); }
    }
    NewEntry(a.bidders, sender, a.bids);
    RowKeepsInv(w, w', id);
  }

  lemma NewEntry<K>(listed: seq<K>, k: K, m: map<K, nat>)
    requires m.Keys == Elements(listed) && Distinct(listed)
    ensures k !in m ==> Distinct(listed + [k]) && Elements(listed + [k]) == m.Keys + {k}
  {}

  lemma ShieldedBidKeepsInv(w: World, id: nat, commitment: Word, handle: Word, deadline: nat, covered: bool)
    requires Inv(w) && PlaceShieldedBid(w, id, commitment, handle, deadline, covered).Committed?
    ensures Inv(PlaceShieldedBid(w, id, commitment, handle, deadline, covered).value)
  {
    hide Custody, Platform, DepsOk, TermsOk, SideOf;
    var a, w' := w.At(id), PlaceShieldedBid(w, id, commitment, handle, deadline, covered).value;
    var a' := w'.At(id);
    forall b | b in a'.bids ensures BidCovered(a', b) {
      assert BidCovered(a, b);
    }
    NewEntry(a.commitments, commitment, a.shieldedBids);
    RowKeepsInv(w, w', id);
  }

  lemma TriggerKeepsInv(w: World, sender: Caller, id: nat, salt: Word)
    requires Inv(w) && TriggerFinalize(w, sender, id, salt).Committed?
    ensures Inv(TriggerFinalize(w, sender, id, salt).value)
  {
    hide Custody, Platform, DepsOk, TermsOk, SideOf;
    var a, w' := w.At(id), TriggerFinalize(w, sender, id, salt).value;
    var a' := w'.At(id);
    forall b | b in a'.bids ensures BidCovered(a', b) {
      assert BidCovered(a, b);
    }
    RowKeepsInv(w, w', id);
  }
}
