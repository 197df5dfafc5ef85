/** The vault that holds shielded escrow by commitment and the shielded part of a slash. */
module ShieldedEscrowVault {
  import opened Prelude
  import opened Sums
  import opened SettlementEngine

  datatype Deposit = Deposit(auctionId: nat, amount: nat, claimed: bool, authority: Address)

  const NO_DEPOSIT := Deposit(0, 0, false, ZERO)

  /** The vault's rows for one auction. */
  datatype Book = Book(total: nat, reserve: nat, unlocked: bool, winning: Word)

  const EMPTY_BOOK := Book(0, 0, false, 0)

  datatype ClaimTag = AssetClaim | RefundClaim

  /** The message a claim authority signs; keccak over these fields is taken as injective. */
  datatype Authorization = Authorization(tag: ClaimTag, auctionId: nat, commitment: Word, recipient: Address, deadline: nat)

  datatype Vault = Vault(balance: nat, deposits: map<Word, Deposit>, books: map<nat, Book>, used: set<Authorization>) {

    function DepositAt(commitment: Word): Deposit {
      if commitment in deposits then deposits[commitment] else NO_DEPOSIT
    }

    function BookAt(id: nat): Book {
      if id in books then books[id] else EMPTY_BOOK
    }
  }

  const EMPTY_VAULT := Vault(0, map[], map[], {})

  function Lock(v: Vault, id: nat, commitment: Word, value: nat, authority: Address): Tx<Vault> {
    if value == 0 then Reverted(ZeroValue) else
    :- Need(commitment != 0, InvalidCommitmentHash);
    :- Need(authority != ZERO, ZeroAddress);
    :- Need(v.DepositAt(commitment).amount == 0 && !v.DepositAt(commitment).claimed, CommitmentAlreadyExists);
    var book := v.BookAt(id);
    Committed(v.(balance := v.balance + value,
                 deposits := v.deposits[commitment := Deposit(id, value, false, authority)],
                 books := v.books[id := book.(total := book.total + value)]))
  }

  /** Keeps the shielded bidders' slice of a slash and hands the rest back to the market. */
  function AllocateSlash(v: Vault, id: nat, publicEscrow: nat, value: nat): Tx<(Vault, nat)> {
    var book := v.BookAt(id);
    :- Need(value != 0 && publicEscrow + book.total != 0, InvalidSlashAllocation);
    var public := PublicSlash(value, publicEscrow, book.total);
    Committed((v.(balance := v.balance + (value - public),
                  books := v.books[id := book.(reserve := book.reserve + (value - public))]),
               public))
  }

  function PublicSlash(value: nat, publicEscrow: nat, shieldedEscrow: nat): (r: nat)
    requires publicEscrow + shieldedEscrow != 0
    ensures r <= value
  {
    if shieldedEscrow == 0 then value else
      PublicSlashFits(value, publicEscrow, shieldedEscrow);
      value * publicEscrow / (publicEscrow + shieldedEscrow)
  }

  lemma PublicSlashFits(value: nat, publicEscrow: nat, shieldedEscrow: nat)
    requires publicEscrow + shieldedEscrow != 0
    ensures value * publicEscrow / (publicEscrow + shieldedEscrow) <= value
  {
    var all := publicEscrow + shieldedEscrow;
    MulMono(publicEscrow, all, value);
    assert value * all == all * value;
    DivBetween(value * publicEscrow, all, value);
  }

  /** The public slice is the pro-rata share of the public escrow, rounded down. */
  lemma PublicSlashIsFloor(value: nat, publicEscrow: nat, shieldedEscrow: nat)
    requires publicEscrow + shieldedEscrow != 0
    ensures var public := PublicSlash(value, publicEscrow, shieldedEscrow);
            public * (publicEscrow + shieldedEscrow) <= value * publicEscrow < (public + 1) * (publicEscrow + shieldedEscrow)
  {
    var all := publicEscrow + shieldedEscrow;
    var public := PublicSlash(value, publicEscrow, shieldedEscrow);
    Distribute(public, 1, all);
    if shieldedEscrow != 0 {
      FloorBounds(value * publicEscrow, all);
    }
  }

  function SettleWinning(v: Vault, id: nat, commitment: Word, amount: nat): Tx<Vault> {
    var book := v.BookAt(id);
    :- Need(!book.unlocked, RefundsUnlocked);
    :- Need(commitment != 0, InvalidCommitmentHash);
    :- Need(book.winning == 0, WinningCommitmentAlreadySettled);
    var deposit := v.DepositAt(commitment);
    :- Spendable(deposit);
    :- Need(deposit.auctionId == id, CommitmentDoesNotExist);
    :- Need(amount <= deposit.amount, WinningAmountExceedsCommitment);
    :- Need(amount <= book.total && amount <= v.balance, NativeTransferFailed);
    Committed(v.(balance := v.balance - amount,
                 deposits := v.deposits[commitment := deposit.(amount := deposit.amount - amount)],
                 books := v.books[id := book.(total := book.total - amount, winning := commitment)]))
  }

  function Unlock(v: Vault, id: nat): Vault {
    if v.BookAt(id).unlocked then v else v.(books := v.books[id := v.BookAt(id).(unlocked := true)])
  }

  function Spendable(deposit: Deposit): Check {
    Need(deposit.amount != 0, if deposit.claimed then CommitmentAlreadyClaimed else CommitmentDoesNotExist)
  }

  /** Marks one authorization as used when it was signed by the deposit's claim authority. */
  function Authorize(v: Vault, now: nat, message: Authorization, signer: Option<Address>): Tx<Vault> {
    if message.recipient == ZERO then Reverted(ZeroAddress) else
    :- Need(now <= message.deadline, ClaimAuthorizationExpired);
    var deposit := v.DepositAt(message.commitment);
    :- Need(deposit.auctionId != 0, CommitmentDoesNotExist);
    :- Need(deposit.authority != ZERO, ClaimAuthorityNotSet);
    :- Need(message !in v.used, ClaimAuthorizationAlreadyUsed);
    :- Need(signer.Some?, InvalidSignature);
    :- Need(signer.value == deposit.authority, InvalidClaimAuthority);
    Committed(v.(used := v.used + {message}))
  }

  function AuthorizeAsset(v: Vault, now: nat, id: nat, commitment: Word, recipient: Address, deadline: nat,
                          signer: Option<Address>): Tx<Vault>
  {
    var deposit := v.DepositAt(commitment);
    :- Need(deposit.auctionId != 0, CommitmentDoesNotExist);
    :- Need(deposit.authority != ZERO, ClaimAuthorityNotSet);
    :- Need(deposit.auctionId == id, CommitmentDoesNotExist);
    Authorize(v, now, Authorization(AssetClaim, id, commitment, recipient, deadline), signer)
  }

  /** What a refund of this commitment pays on top of its principal. */
  function Compensation(book: Book, principal: nat): nat {
    if book.reserve == 0 || book.total == 0 then 0 else principal * book.reserve / book.total
  }

  /** Everything the vault does for one authorized refund, up to the callback into the market. */
  function Release(v: Vault, now: nat, commitment: Word, recipient: Address, deadline: nat,
                   signer: Option<Address>): Tx<(Vault, nat, nat)>
  {
    var deposit := v.DepositAt(commitment);
    :- Spendable(deposit);
    var authorized :- Authorize(v, now, Authorization(RefundClaim, deposit.auctionId, commitment, recipient, deadline), signer);
    var book := v.BookAt(deposit.auctionId);
    :- Need(book.unlocked, RefundsLocked);
    var compensation := Compensation(book, deposit.amount);
    :- Need(deposit.amount <= book.total && compensation <= book.reserve
            && deposit.amount + compensation <= v.balance, NativeTransferFailed);
    Committed((authorized.(balance := v.balance - (deposit.amount + compensation),
                           deposits := v.deposits[commitment := deposit.(amount := 0, claimed := true)],
                           books := v.books[deposit.auctionId := book.(total := book.total - deposit.amount,
                                                                       reserve := book.reserve - compensation)]),
               deposit.amount, compensation))
  }

  // ---- what the vault keeps ----

  /** What each commitment holds for one auction. */
  ghost function Held(deposits: map<Word, Deposit>, id: nat): map<Word, nat> {
    map c | c in deposits :: if deposits[c].auctionId == id then deposits[c].amount else 0
  }

  ghost function Owed(books: map<nat, Book>): map<nat, nat> {
    map id | id in books :: books[id].total + books[id].reserve
  }

  /** The vault's ETH is exactly what it owes, and each auction's total is exactly what its commitments hold. */
  ghost predicate Sound(v: Vault) {
    && v.balance == Sum(Owed(v.books))
    && (forall id: nat :: v.BookAt(id).total == Sum(Held(v.deposits, id)))
    && (forall c :: c in v.deposits && v.deposits[c].claimed ==> v.deposits[c].amount == 0)
  }

  lemma EmptyVaultSound()
    ensures Sound(EMPTY_VAULT)
  {}

  lemma BookPut(books: map<nat, Book>, id: nat, book: Book)
    ensures Sum(Owed(books[id := book])) + Get(Owed(books), id) == Sum(Owed(books)) + book.total + book.reserve
  {
    SumPut(Owed(books), id, book.total + book.reserve);
    assert Owed(books[id := book]) == Owed(books)[id := book.total + book.reserve];
  }

  lemma DepositPut(deposits: map<Word, Deposit>, c: Word, d: Deposit, id: nat)
    ensures Sum(Held(deposits[c := d], id)) + Get(Held(deposits, id), c) ==
            Sum(Held(deposits, id)) + if d.auctionId == id then d.amount else 0
  {
    var held := if d.auctionId == id then d.amount else 0;
    SumPut(Held(deposits, id), c, held);
    assert Held(deposits[c := d], id) == Held(deposits, id)[c := held];
  }

  /** Rewriting one deposit and one auction's row keeps the vault sound when they move by the same amount. */
  lemma Rebalance(v: Vault, c: Word, d: Deposit, id: nat, book: Book, balance: nat, used: set<Authorization>)
    requires Sound(v)
    requires v.DepositAt(c).amount != 0 ==> v.DepositAt(c).auctionId == id
    requires d.auctionId == id && (d.claimed ==> d.amount == 0)
    requires book.total + v.DepositAt(c).amount == v.BookAt(id).total + d.amount
    requires balance + v.BookAt(id).total + v.BookAt(id).reserve == v.balance + book.total + book.reserve
    ensures Sound(Vault(balance, v.deposits[c := d], v.books[id := book], used))
  {
    var v' := Vault(balance, v.deposits[c := d], v.books[id := book], used);
    BookPut(v.books, id, book);
    forall other: nat ensures v'.BookAt(other).total == Sum(Held(v'.deposits, other)) {
      DepositPut(v.deposits, c, d, other);
    }
  }

  /** A vault that is owed-for keeps being owed-for whatever the market asks of it. */
  lemma LockKeepsSound(v: Vault, id: nat, commitment: Word, value: nat, authority: Address)
    requires Sound(v) && Lock(v, id, commitment, value, authority).Committed?
    ensures Sound(Lock(v, id, commitment, value, authority).value)
  {
    Rebalance(v, commitment, Deposit(id, value, false, authority), id,
              v.BookAt(id).(total := v.BookAt(id).total + value), v.balance + value, v.used);
  }

  lemma RowKeepsSound(v: Vault, id: nat, book: Book, balance: nat)
    requires Sound(v) && book.total == v.BookAt(id).total
    requires balance + v.BookAt(id).reserve == v.balance + book.reserve
    ensures Sound(v.(balance := balance, books := v.books[id := book]))
  {
    BookPut(v.books, id, book);
  }

  lemma AllocateKeepsSound(v: Vault, id: nat, publicEscrow: nat, value: nat)
    requires Sound(v) && AllocateSlash(v, id, publicEscrow, value).Committed?
    ensures Sound(AllocateSlash(v, id, publicEscrow, value).value.0)
  {
    var after := AllocateSlash(v, id, publicEscrow, value).value.0;
    RowKeepsSound(v, id, after.BookAt(id), after.balance);
  }

  lemma UnlockKeepsSound(v: Vault, id: nat)
    requires Sound(v)
    ensures Sound(Unlock(v, id))
  {
    RowKeepsSound(v, id, Unlock(v, id).BookAt(id), v.balance);
  }

  lemma SettleKeepsSound(v: Vault, id: nat, commitment: Word, amount: nat)
    requires Sound(v) && SettleWinning(v, id, commitment, amount).Committed?
    ensures Sound(SettleWinning(v, id, commitment, amount).value)
  {
    var after := SettleWinning(v, id, commitment, amount).value;
    Rebalance(v, commitment, after.DepositAt(commitment), id, after.BookAt(id), after.balance, v.used);
  }

  lemma ReleaseKeepsSound(v: Vault, now: nat, commitment: Word, recipient: Address, deadline: nat, signer: Option<Address>)
    requires Sound(v) && Release(v, now, commitment, recipient, deadline, signer).Committed?
    ensures Sound(Release(v, now, commitment, recipient, deadline, signer).value.0)
  {
    var after := Release(v, now, commitment, recipient, deadline, signer).value.0;
    var id := v.DepositAt(commitment).auctionId;
    Rebalance(v, commitment, after.DepositAt(commitment), id, after.BookAt(id), after.balance, after.used);
  }

  /** An auction with something in the vault has a commitment that holds something. */
  lemma SomeHolder(v: Vault, id: nat) returns (c: Word)
    requires Sound(v) && v.BookAt(id).total > 0
    ensures c in v.deposits && v.deposits[c].auctionId == id && v.deposits[c].amount > 0
  {
    SumZero(Held(v.deposits, id));
    c :| c in Held(v.deposits, id) && Held(v.deposits, id)[c] != 0;
  }

  /** What the vault holds for a commitment is covered by its auction's total, and that by the vault's ETH. */
  lemma DepositCovered(v: Vault, commitment: Word)
    requires Sound(v)
    ensures v.DepositAt(commitment).amount <= v.BookAt(v.DepositAt(commitment).auctionId).total
    ensures forall id: nat :: v.BookAt(id).total + v.BookAt(id).reserve <= v.balance
  {
    SumHas(Held(v.deposits, v.DepositAt(commitment).auctionId), commitment);
    forall id: nat ensures v.BookAt(id).total + v.BookAt(id).reserve <= v.balance {
      SumHas(Owed(v.books), id);
    }
  }

  /** An authorization is used up: it is taken once, no other is taken with it, and it is never taken again. */
  lemma AuthorizedOnce(v: Vault, now: nat, message: Authorization, signer: Option<Address>, later: nat)
    requires Authorize(v, now, message, signer).Committed?
    ensures var v' := Authorize(v, now, message, signer).value;
            && message !in v.used && v' == v.(used := v'.used)
            && (forall m :: m in v'.used <==> m in v.used || m == message)
            && Authorize(v', later, message, signer).Reverted?
  {}

  /** A refund pays its principal and its pro-rata share of the reserve, rounded down, out of exactly this commitment. */
  lemma ReleasePays(v: Vault, now: nat, commitment: Word, recipient: Address, deadline: nat, signer: Option<Address>)
    requires Sound(v) && Release(v, now, commitment, recipient, deadline, signer).Committed?
    ensures var (v', principal, compensation) := Release(v, now, commitment, recipient, deadline, signer).value;
            var d := v.DepositAt(commitment);
            var book := v.BookAt(d.auctionId);
            && principal == d.amount <= book.total && book.total > 0 && compensation <= book.reserve
            && compensation * book.total <= principal * book.reserve < (compensation + 1) * book.total
            && v'.balance + principal + compensation == v.balance
            && v'.DepositAt(commitment) == d.(amount := 0, claimed := true)
            && (forall c :: c != commitment ==> v'.DepositAt(c) == v.DepositAt(c))
            && v'.BookAt(d.auctionId) == book.(total := book.total - principal, reserve := book.reserve - compensation)
            && (forall id: nat :: id != d.auctionId ==> v'.BookAt(id) == v.BookAt(id))
            && v'.used == v.used + {Authorization(RefundClaim, d.auctionId, commitment, recipient, deadline)}
  {
    hide Sound;
    DepositCovered(v, commitment);
    var d := v.DepositAt(commitment);
    var book := v.BookAt(d.auctionId);
    CompensationIsFloor(book, d.amount);
  }

  lemma CompensationIsFloor(book: Book, principal: nat)
    requires book.total > 0
    ensures Compensation(book, principal) * book.total <= principal * book.reserve < (Compensation(book, principal) + 1) * book.total
  {
    Distribute(Compensation(book, principal), 1, book.total);
    if book.reserve == 0 { assert principal * book.reserve == 0; }
    FloorBounds(principal * book.reserve, book.total);
  }

  /** Paying the winner takes exactly the amount from its commitment, the auction's total and the vault, and names the
      commitment; no second winner of the auction is ever paid. */
  lemma SettlePaysOnce(v: Vault, id: nat, commitment: Word, amount: nat, other: Word, more: nat)
    requires SettleWinning(v, id, commitment, amount).Committed?
    ensures var v' := SettleWinning(v, id, commitment, amount).value;
            && v'.balance + amount == v.balance
            && v'.DepositAt(commitment) == v.DepositAt(commitment).(amount := v'.DepositAt(commitment).amount)
            && v'.DepositAt(commitment).amount + amount == v.DepositAt(commitment).amount
            && v'.BookAt(id).total + amount == v.BookAt(id).total && v'.BookAt(id).winning == commitment != 0
            && v'.BookAt(id).reserve == v.BookAt(id).reserve && !v'.BookAt(id).unlocked
            && (forall c :: c != commitment ==> v'.DepositAt(c) == v.DepositAt(c))
            && (forall j: nat :: j != id ==> v'.BookAt(j) == v.BookAt(j))
            && SettleWinning(v', id, other, more).Reverted?
  {}

  lemma CompensationFits(book: Book, principal: nat)
    requires principal <= book.total
    ensures Compensation(book, principal) <= book.reserve
    ensures principal == book.total && principal > 0 ==> Compensation(book, principal) == book.reserve
  {
    if book.total != 0 {
      MulMono(principal, book.total, book.reserve);
      DivBetween(principal * book.reserve, book.total, book.reserve);
      DivExact(book.reserve, book.total);
    }
  }

  /** No refund of a sound vault is ever turned away for lack of ETH: an authorized claim on an unlocked
      auction commits exactly when the commitment still holds something and its authority signed a fresh message. */
  lemma ReleaseNeverShort(v: Vault, now: nat, commitment: Word, recipient: Address, deadline: nat, signer: Option<Address>)
    requires Sound(v)
    ensures
      var d := v.DepositAt(commitment);
      Release(v, now, commitment, recipient, deadline, signer).Committed? <==>
        && d.amount != 0 && d.auctionId != 0 && d.authority != ZERO
        && recipient != ZERO && now <= deadline
        && Authorization(RefundClaim, d.auctionId, commitment, recipient, deadline) !in v.used
        && signer == Some(d.authority)
        && v.BookAt(d.auctionId).unlocked
  {
    var d := v.DepositAt(commitment);
    DepositCovered(v, commitment);
    CompensationFits(v.BookAt(d.auctionId), d.amount);
  }

  /** Whoever claims last takes what is left: an emptied auction keeps no slash reserve. */
  lemma EmptiedAuctionKeepsNoReserve(v: Vault, now: nat, commitment: Word, recipient: Address, deadline: nat, signer: Option<Address>)
    requires Release(v, now, commitment, recipient, deadline, signer).Committed?
    ensures
      var after := Release(v, now, commitment, recipient, deadline, signer).value.0;
      var id := v.DepositAt(commitment).auctionId;
      after.BookAt(id).total == 0 ==> after.BookAt(id).reserve == 0
  {
    CompensationFits(v.BookAt(v.DepositAt(commitment).auctionId), v.DepositAt(commitment).amount);
  }

  /** Somebody else's claim never lowers what a waiting commitment will be compensated with. */
  lemma WaitingNeverLoses(book: Book, claimed: nat, waiting: nat)
    requires claimed + waiting <= book.total
    ensures Compensation(book, claimed) <= book.reserve
    ensures Compensation(book, waiting) <=
            Compensation(Book(book.total - claimed, book.reserve - Compensation(book, claimed), true, 0), waiting)
  {
    CompensationFits(book, claimed);
    if waiting == 0 {
      CompensationFits(book, waiting);
      if book.total != 0 { assert 0 * book.reserve == 0; }
    } else if book.reserve != 0 {
      var paid := Compensation(book, claimed);
      FloorBounds(claimed * book.reserve, book.total);
      RatioGrows(book.reserve, book.total, paid, claimed, waiting);
    }
  }

  lemma RatioGrows(reserve: nat, total: nat, paid: nat, claimed: nat, waiting: nat)
    requires waiting > 0 && claimed + waiting <= total && paid <= reserve
    requires paid * total <= claimed * reserve
    ensures waiting * reserve / total <= waiting * (reserve - paid) / (total - claimed)
    ensures reserve == paid ==> waiting * reserve / total == 0
  {
    var q := waiting * reserve / total;
    var left, due := total - claimed, reserve - paid;
    FloorBounds(waiting * reserve, total);
    // reserve * left <= due * total, so q * left is at most waiting * due
    Remainders(reserve, total, paid, claimed);
    QuotientScales(q, waiting, reserve, total, due, left);
  }

  lemma Remainders(r: nat, t: nat, p: nat, c: nat)
    requires c <= t && p <= r && p * t <= c * r
    ensures r * (t - c) <= (r - p) * t
  {
    assert r * (t - c) == r * t - r * c;
    assert (r - p) * t == r * t - p * t;
    assert r * c == c * r;
  }

  lemma QuotientScales(q: nat, w: nat, r: nat, t: nat, r': nat, t': nat)
    requires t > 0 && t' > 0 && w > 0
    requires q * t <= w * r && r * t' <= r' * t
    ensures q <= w * r' / t'
    ensures r' == 0 ==> q == 0
  {
    assert q * t' <= w * r' by {
      MulMono(q * t, w * r, t');
      MulMono(r * t', r' * t, w);
      Assoc(q, t, t');
      Assoc(w, r, t');
      Assoc(w, r', t);
      LeCancel(q * t', w * r', t);
    }
    FloorBounds(w * r', t');
    QuotientBelow(q, w * r' / t', t');
    if r' == 0 { Cancel(q, 1, t'); }
  }

  lemma Assoc(a: nat, b: nat, c: nat)
    ensures a * b * c == a * c * b == a * (b * c) == (a * c) * b
  {}

  lemma LeCancel(a: nat, b: nat, d: nat)
    requires d > 0 && a * d <= b * d
    ensures a <= b
  {
    Distribute(b, 1, d);
    Cancel(a, b + 1, d);
  }
}
