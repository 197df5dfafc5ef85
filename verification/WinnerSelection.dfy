/** The dispatcher's local choice of a winner among decodable bid handles. */
module WinnerSelection {
  import opened Prelude
  import opened CiphertextEncoding

  /** One bid as the keeper collects it; a shielded bidder is its identity. */
  datatype BidRecord = BidRecord(bidder: Word, handle: Word, escrow: nat, shielded: bool)

  predicate Decodable(b: BidRecord) {
    DecodeNumeric(b.handle).Some?
  }

  function Amount(b: BidRecord): nat
    requires Decodable(b)
  {
    DecodeNumeric(b.handle).value
  }

  predicate Eligible(b: BidRecord, startingPrice: nat) {
    Decodable(b) && startingPrice <= Amount(b) <= b.escrow
  }

  /** The earliest of the highest eligible bids, said without a loop. */
  ghost predicate Wins(bids: seq<BidRecord>, startingPrice: nat, k: nat) {
    && k < |bids| && Eligible(bids[k], startingPrice)
    && (forall j :: 0 <= j < |bids| && Eligible(bids[j], startingPrice) ==> Amount(bids[j]) <= Amount(bids[k]))
    && (forall j :: 0 <= j < k && Eligible(bids[j], startingPrice) ==> Amount(bids[j]) < Amount(bids[k]))
  }

  /** None is "no winner"; the whole pick fails when some handle does not decode. */
  datatype Pick = Winner(bid: Option<BidRecord>) | Undecodable

  /** The later bid wins only when it is strictly higher. */
  function Better(a: Option<BidRecord>, b: Option<BidRecord>): Option<BidRecord>
    requires a.Some? ==> Decodable(a.value)
    requires b.Some? ==> Decodable(b.value)
  {
    if a.None? || (b.Some? && Amount(b.value) > Amount(a.value)) then b else a
  }

  function Best(bids: seq<BidRecord>, startingPrice: nat): (r: Option<BidRecord>)
    ensures r.Some? ==> r.value in bids && Eligible(r.value, startingPrice)
  {
    if bids == [] then None else
    var last := bids[|bids| - 1];
    Better(Best(bids[..|bids| - 1], startingPrice), if Eligible(last, startingPrice) then Some(last) else None)
  }

  method PickHighest(bids: seq<BidRecord>, startingPrice: nat) returns (r: Pick)
    ensures r == Undecodable <==> exists b :: b in bids && !Decodable(b)
    ensures r.Winner? && r.bid.None? ==> forall b :: b in bids ==> !Eligible(b, startingPrice)
    ensures r.Winner? && r.bid.Some? ==> exists k: nat :: Wins(bids, startingPrice, k) && bids[k] == r.bid.value
    ensures r.Winner? ==> r.bid == Best(bids, startingPrice)
  {
    hide DecodeNumeric;
    var winner: Option<BidRecord> := None;
    var highest := -1;
    ghost var at := 0;
    var i := 0;
    while i < |bids|
      invariant 0 <= i <= |bids|
      invariant forall j :: 0 <= j < i ==> Decodable(bids[j])
      invariant winner.None? ==> forall j :: 0 <= j < i ==> !Eligible(bids[j], startingPrice)
      invariant winner.Some? ==> at < i && winner.value == bids[at] && Wins(bids[..i], startingPrice, at)
      invariant winner.Some? ==> highest == Amount(winner.value)
      invariant winner == Best(bids[..i], startingPrice)
    {
      var bid := bids[i];
      assert bids[..i + 1] == bids[..i] + [bid];
      var decoded := DecodeNumeric(bid.handle);
      if decoded.None? {
        assert bid in bids && !Decodable(bid);
        return Undecodable;
      }
      var amount := decoded.value;
      if amount <= bid.escrow && amount >= startingPrice && (winner.None? || amount > highest) {
        winner, highest, at := Some(bid), amount, i;
      }
      i := i + 1;
    }
    assert bids[..i] == bids;
    return Winner(winner);
  }

  /** The recursive form means the same: the earliest maximum, or nobody exactly when nobody is eligible. */
  lemma {:induction false} BestWins(bids: seq<BidRecord>, startingPrice: nat)
    ensures Best(bids, startingPrice).None? <==> forall b :: b in bids ==> !Eligible(b, startingPrice)
    ensures Best(bids, startingPrice).Some? ==>
              exists k: nat :: Wins(bids, startingPrice, k) && bids[k] == Best(bids, startingPrice).value
  {
    hide DecodeNumeric;
    if bids != [] {
      var n := |bids| - 1;
      var front := bids[..n];
      BestWins(front, startingPrice);
      assert bids == front + [bids[n]];
      if Best(front, startingPrice).Some? {
        var k: nat :| Wins(front, startingPrice, k) && front[k] == Best(front, startingPrice).value;
        if Eligible(bids[n], startingPrice) && Amount(bids[n]) > Amount(front[k]) {
          assert Wins(bids, startingPrice, n);
        } else {
          assert Wins(bids, startingPrice, k);
        }
      } else if Eligible(bids[n], startingPrice) {
        assert forall j :: 0 <= j < n ==> front[j] in front;
        assert Wins(bids, startingPrice, n);
      }
    }
  }

  /** Public bids first, shielded bids after: the winner of a list put together is the better of the winners. */
  lemma {:induction false} BestOfConcatenation(first: seq<BidRecord>, second: seq<BidRecord>, startingPrice: nat)
    ensures Best(first + second, startingPrice) == Better(Best(first, startingPrice), Best(second, startingPrice))
  {
    hide DecodeNumeric;
    if second == [] {
      assert first + second == first;
    } else {
      var n := |second| - 1;
      BestOfConcatenation(first, second[..n], startingPrice);
      assert (first + second)[..|first + second| - 1] == first + second[..n];
    }
  }

  /** Whatever the order of the bids, the winning amount is the same. */
  lemma AmountIgnoresOrder(bids: seq<BidRecord>, other: seq<BidRecord>, startingPrice: nat)
    requires multiset(bids) == multiset(other)
    ensures Best(bids, startingPrice).Some? <==> Best(other, startingPrice).Some?
    ensures Best(bids, startingPrice).Some? ==>
              Amount(Best(bids, startingPrice).value) == Amount(Best(other, startingPrice).value)
  {
    hide DecodeNumeric, Best;
    BestWins(bids, startingPrice);
    BestWins(other, startingPrice);
    forall b ensures b in bids <==> b in other {
      assert b in multiset(bids) <==> b in multiset(other);
    }
    if Best(bids, startingPrice).Some? && Best(other, startingPrice).Some? {
      NotBelow(bids, startingPrice, Best(other, startingPrice).value);
      NotBelow(other, startingPrice, Best(bids, startingPrice).value);
    }
  }

  lemma NotBelow(bids: seq<BidRecord>, startingPrice: nat, b: BidRecord)
    requires b in bids && Eligible(b, startingPrice)
    ensures Best(bids, startingPrice).Some? && Amount(b) <= Amount(Best(bids, startingPrice).value)
  {
    hide DecodeNumeric, Best;
    BestWins(bids, startingPrice);
    var k: nat :| Wins(bids, startingPrice, k) && bids[k] == Best(bids, startingPrice).value;
    var j :| 0 <= j < |bids| && bids[j] == b;
  }

  /** Reordering may well change who wins: of two equal bids the earlier one does. */
  lemma EarlierOfEqualsWins(b: BidRecord, c: BidRecord, startingPrice: nat)
    requires Eligible(b, startingPrice) && Eligible(c, startingPrice) && Amount(b) == Amount(c)
    ensures Best([b, c], startingPrice) == Some(b) && Best([c, b], startingPrice) == Some(c)
  {
    hide DecodeNumeric;
    assert [b, c] == [b] + [c] && [c, b] == [c] + [b];
    BestOfConcatenation([b], [c], startingPrice);
    BestOfConcatenation([c], [b], startingPrice);
  }
}
