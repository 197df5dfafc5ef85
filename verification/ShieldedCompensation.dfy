/** When the slash compensation of a shielded bidder depends on who claims first. */
module ShieldedCompensation {
  import opened Prelude
  import Sums
  import opened SettlementEngine
  import opened ShieldedEscrowVault

  /** Somebody claims this much of an auction's total before somebody else who waits with that much: the remainders of
      both divisions together stay below one more unit for the one who waits. */
  predicate Undisturbed(total: nat, reserve: nat, claimed: nat, waiting: nat)
    requires claimed < total
  {
    waiting * reserve % total * (total - claimed) + waiting * (claimed * reserve % total) < total * (total - claimed)
  }

  /** The book of an auction after a refund of this principal. */
  function Claimed(book: Book, principal: nat): Book
    requires principal <= book.total
  {
    CompensationFits(book, principal);
    book.(total := book.total - principal, reserve := book.reserve - Compensation(book, principal))
  }

  lemma QuotientAndRest(n: nat, d: nat)
    requires d > 0
    ensures n == n / d * d + n % d && n % d < d
  {}

  /** A quotient is q exactly when the dividend lies between q and q + 1 times the divisor. */
  lemma QuotientIs(n: nat, d: nat, q: nat)
    requires d > 0 && q * d <= n
    ensures n / d == q <==> n < (q + 1) * d
  {
    FloorBounds(n, d);
    Distribute(q, 1, d);
    Distribute(n / d, 1, d);
    if n < (q + 1) * d {
      QuotientBelow(n / d, q, d);
      QuotientBelow(q, n / d, d);
    }
  }

  /** What is left of the reserve, scaled by the total, is the reserve scaled by what is left of the total, plus the rest. */
  lemma LeftOver(reserve: nat, total: nat, claimed: nat, paid: nat, rest: nat)
    requires claimed <= total && paid <= reserve && claimed * reserve == paid * total + rest
    ensures (reserve - paid) * total == reserve * (total - claimed) + rest
  {
    assert (reserve - paid) * total == reserve * total - paid * total;
    assert reserve * (total - claimed) == reserve * total - reserve * claimed;
  }

  lemma Scaled(reserve: nat, total: nat, left: nat, due: nat, rest: nat, waiting: nat, share: nat, over: nat)
    requires due * total == reserve * left + rest && waiting * reserve == share * total + over
    ensures waiting * due * total == share * left * total + over * left + waiting * rest
  {
    Assoc(waiting, due, total);
    Distribute(reserve * left, rest, waiting);
    Assoc(waiting, reserve, left);
    Distribute(share * total, over, left);
    Assoc(share, total, left);
  }

  /** A common positive factor can be dropped from a comparison, either way. */
  lemma CancelIff(a: nat, b: nat, d: nat)
    requires d > 0
    ensures a * d < b * d <==> a < b
  {
    if a < b {
      MulMono(a + 1, b, d);
      Distribute(a, 1, d);
    } else {
      MulMono(b, a, d);
    }
  }

  /** A quotient, decided on the dividend scaled by some total. */
  lemma ScaledQuotientIs(n: nat, left: nat, total: nat, share: nat, extra: nat)
    requires left > 0 && total > 0 && n * total == share * left * total + extra
    ensures n / left == share <==> extra < total * left
  {
    LeCancel(share * left, n, total);
    QuotientIs(n, left, share);
    CancelIff(n, (share + 1) * left, total);
    Distribute(share, 1, left);
    Distribute(share * left, left, total);
  }

  /** The quotient of what waits stays the same exactly under that condition. */
  lemma SameQuotientIff(total: nat, reserve: nat, claimed: nat, waiting: nat, paid: nat, share: nat)
    requires claimed < total && paid == claimed * reserve / total <= reserve && share == waiting * reserve / total
    ensures waiting * (reserve - paid) / (total - claimed) == share <==> Undisturbed(total, reserve, claimed, waiting)
  {
    var left, due := total - claimed, reserve - paid;
    var rest, over := claimed * reserve % total, waiting * reserve % total;
    QuotientAndRest(claimed * reserve, total);
    QuotientAndRest(waiting * reserve, total);
    LeftOver(reserve, total, claimed, paid, rest);
    Scaled(reserve, total, left, due, rest, waiting, share, over);
    ScaledQuotientIs(waiting * due, left, total, share, over * left + waiting * rest);
  }

  /** The exact condition, in figures known before either claim. */
  lemma CompensationUnchangedIff(book: Book, claimed: nat, waiting: nat)
    requires claimed < book.total && claimed + waiting <= book.total
    ensures Compensation(Claimed(book, claimed), waiting) == Compensation(book, waiting)
            <==> Undisturbed(book.total, book.reserve, claimed, waiting)
  {
    hide Undisturbed;
    Quotients(book, claimed);
    Quotients(book, waiting);
    Quotients(Claimed(book, claimed), waiting);
    CompensationFits(book, claimed);
    SameQuotientIff(book.total, book.reserve, claimed, waiting, Compensation(book, claimed), Compensation(book, waiting));
  }

  /** The vault's special cases agree with the plain quotient. */
  lemma Quotients(book: Book, principal: nat)
    requires book.total > 0
    ensures Compensation(book, principal) == principal * book.reserve / book.total
  {
    if book.reserve == 0 { assert principal * book.reserve == 0; }
  }

  /** Of two refunds of one auction, the first leaves the compensation of the second as it was exactly under that
      condition, whatever they are signed with. */
  lemma ReleaseUnchangedIff(v: Vault, now: nat, first: Word, to1: Address, deadline1: nat, signer1: Option<Address>,
                            second: Word, to2: Address, deadline2: nat, signer2: Option<Address>)
    requires Sound(v) && first != second && v.DepositAt(first).auctionId == v.DepositAt(second).auctionId
    requires Release(v, now, first, to1, deadline1, signer1).Committed?
    requires Release(v, now, second, to2, deadline2, signer2).Committed?
    ensures var book := v.BookAt(v.DepositAt(first).auctionId);
            var later := Release(Release(v, now, first, to1, deadline1, signer1).value.0, now, second, to2, deadline2, signer2);
            && v.DepositAt(first).amount < book.total
            && later.Committed?
            && (later.value.2 == Release(v, now, second, to2, deadline2, signer2).value.2
                <==> Undisturbed(book.total, book.reserve, v.DepositAt(first).amount, v.DepositAt(second).amount))
  {
    hide Compensation, Undisturbed, Sound;
    var id := v.DepositAt(first).auctionId;
    BothFit(v, first, second);
    ReleaseKeepsSound(v, now, first, to1, deadline1, signer1);
    var v1 := Release(v, now, first, to1, deadline1, signer1).value.0;
    ReleaseNeverShort(v, now, second, to2, deadline2, signer2);
    ReleaseNeverShort(v1, now, second, to2, deadline2, signer2);
    CompensationUnchangedIff(v.BookAt(id), v.DepositAt(first).amount, v.DepositAt(second).amount);
    assert v1.BookAt(id) == Claimed(v.BookAt(id), v.DepositAt(first).amount);
    assert v1.DepositAt(second) == v.DepositAt(second);
  }

  /** Two commitments of one auction fit in its total together. */
  lemma BothFit(v: Vault, first: Word, second: Word)
    requires Sound(v) && first != second && v.DepositAt(first).auctionId == v.DepositAt(second).auctionId
    ensures v.DepositAt(first).amount + v.DepositAt(second).amount <= v.BookAt(v.DepositAt(first).auctionId).total
  {
    var id := v.DepositAt(first).auctionId;
    var held := Held(v.deposits, id);
    if first in v.deposits && second in v.deposits {
      Sums.SumTake(held, first);
      Sums.SumTake(held - {first}, second);
    } else {
      Sums.SumHas(held, first);
      Sums.SumHas(held, second);
    }
  }

  // ---- a vault where it matters ----

  const AUCTION: nat := 1
  const ALICE: Word := 1
  const BOB: Word := 2

  /** Two bidders lock one wei each, and the auction's whole slash of one wei stays with them. */
  function SharedVault(authority: Address): Vault
    requires authority != ZERO
  {
    var v1 := Lock(EMPTY_VAULT, AUCTION, ALICE, 1, authority).value;
    var v2 := Lock(v1, AUCTION, BOB, 1, authority).value;
    Unlock(AllocateSlash(v2, AUCTION, 0, 1).value.0, AUCTION)
  }

  lemma SharedVaultIsSound(authority: Address)
    requires authority != ZERO
    ensures Sound(SharedVault(authority))
    ensures SharedVault(authority).BookAt(AUCTION) == Book(2, 1, true, 0)
  {
    EmptyVaultSound();
    var v1 := Lock(EMPTY_VAULT, AUCTION, ALICE, 1, authority).value;
    LockKeepsSound(EMPTY_VAULT, AUCTION, ALICE, 1, authority);
    var v2 := Lock(v1, AUCTION, BOB, 1, authority).value;
    LockKeepsSound(v1, AUCTION, BOB, 1, authority);
    AllocateKeepsSound(v2, AUCTION, 0, 1);
    UnlockKeepsSound(AllocateSlash(v2, AUCTION, 0, 1).value.0, AUCTION);
  }

  /** There the same refund is worth nothing before the other one and the whole wei after it. */
  lemma CompensationDependsOnOrder(authority: Address, recipient: Address, now: nat)
    requires authority != ZERO && recipient != ZERO
    ensures var v := SharedVault(authority);
            var bob := Release(v, now, BOB, recipient, now, Some(authority));
            var alice := Release(v, now, ALICE, recipient, now, Some(authority));
            && bob.Committed? && bob.value.2 == 0 && alice.Committed?
            && Release(alice.value.0, now, BOB, recipient, now, Some(authority)).Committed?
            && Release(alice.value.0, now, BOB, recipient, now, Some(authority)).value.2 == 1
    ensures !Undisturbed(2, 1, 1, 1)
  {}
}
