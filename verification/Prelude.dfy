/** Types shared by every module: addresses, 32-byte words, options, and the outcome of a transaction. */
module Prelude {

  /** An account. Zero is the address the contracts treat as "not set". */
  type Address = nat

  const ZERO: Address := 0

  /** The market's own account. */
  const MARKET: Address := 1

  /** Who can send a transaction: never the zero address, and never the market, which does not call itself. */
  type Caller = a: Address | a != ZERO && a != MARKET witness 2

  /** A 32-byte word read as an unsigned number. */
  type Word = nat

  datatype Option<+T> = None | Some(value: T)

  /** Why a transaction reverted. */
  datatype Error =
    | AssetAlreadyClaimed
    | AuctionAlreadyEnded
    | AuctionDoesNotExist
    | AuctionStillRunning
    | BidBelowStartingPrice
    | BidExceedsEscrow
    | CallToMissingContract
    | ClaimAuthorityNotSet
    | ClaimAuthorizationAlreadyUsed
    | ClaimAuthorizationExpired
    | CommitmentAlreadyBound
    | CommitmentAlreadyClaimed
    | CommitmentAlreadyExists
    | CommitmentDoesNotExist
    | CompensationAlreadyClaimed
    | DuplicateOperator
    | FallbackThresholdNotReached
    | FinalizeRewardAlreadyClaimed
    | FinalizeRewardNotReady
    | IdentityAlreadyBound
    | IdentityNotBound
    | IncorrectSellerDeposit
    | InvalidAvsProof
    | InvalidClaimAuthority
    | InvalidCommitmentHash
    | InvalidDependency
    | InvalidDuration
    | InvalidIdentityHash
    | InvalidNumericCiphertextKind
    | InvalidOperator
    | InvalidShieldedBidProof
    | InvalidSignature
    | InvalidSlashAllocation
    | InvalidStartingPrice
    | InvalidThreshold
    | InvalidWinningAmount
    | MissingEncryptedBid
    | MissingResolutionRequest
    | MissingShieldedEncryptedBid
    | NativeTransferFailed
    | NftNotApproved
    | NoClaimableBalance
    | NoEscrowLocked
    | NotAuctionSeller
    | NotNftOwner
    | ProofLengthMismatch
    | RefundsLocked
    | RefundsUnlocked
    | ResolutionAlreadyRequested
    | SellerProceedsAlreadyClaimed
    | ShieldedEscrowVaultNotConfigured
    | ShieldedIdentityRegistryNotConfigured
    | ShieldedRefundAlreadyClaimed
    | ShieldedRefundsNotReady
    | ShieldedWinnerMustClaimPrivately
    | SlashedPotNotConfigured
    | TokenTransferFailed
    | UnauthorizedAssetClaim
    | UnauthorizedFinalizeRewardClaim
    | UnauthorizedShieldedIdentityClaim
    | UnauthorizedShieldedRefundSource
    | UnexpectedAuctionState
    | UnexpectedShieldedWinningCiphertext
    | WinnerRequiredForWinningAmount
    | WinningAmountBelowStartingPrice
    | WinningAmountExceedsCommitment
    | WinningCommitmentAlreadySettled
    | WinningIdentityAlreadyMarked
    | ZeroAddress
    | ZeroValue
    | ZeroWinningAmount

  /** A transaction either commits a value or reverts, leaving everything as it was. */
  datatype Tx<+T> = Committed(value: T) | Reverted(error: Error) {
    predicate IsFailure() {
      Reverted?
    }

    function PropagateFailure<U>(): Tx<U>
      requires Reverted?
    {
      Reverted(error)
    }

    function Extract(): T
      requires Committed?
    {
      value
    }
  }

  datatype Check = Passed | Failed(error: Error) {
    predicate IsFailure() {
      Failed?
    }

    function PropagateFailure<U>(): Tx<U>
      requires Failed?
    {
      Reverted(error)
    }
  }

  /** Solidity's `if (!condition) revert error`. */
  function Need(condition: bool, error: Error): Check {
    if condition then Passed else Failed(error)
  }

  /** A mapping with Solidity's default: a key never written reads as zero. */
  function Get<K>(m: map<K, nat>, k: K): nat {
    if k in m then m[k] else 0
  }

  /** Nothing is listed twice. */
  ghost predicate Distinct<T>(s: seq<T>) {
    forall i, j :: 0 <= i < j < |s| ==> s[i] != s[j]
  }

  function Elements<T>(s: seq<T>): set<T> {
    set x | x in s
  }

  lemma ElementsOfConcatenation<T>(s: seq<T>, t: seq<T>)
    ensures Elements(s + t) == Elements(s) + Elements(t)
  {}

  lemma DistinctAppend<T>(s: seq<T>, x: T)
    requires Distinct(s) && x !in Elements(s)
    ensures Distinct(s + [x]) && Elements(s + [x]) == Elements(s) + {x}
  {}

  lemma {:induction false} DistinctCount<T>(s: seq<T>)
    requires Distinct(s)
    ensures |Elements(s)| == |s|
  {
    if s != [] {
      var n := |s| - 1;
      assert s == s[..n] + [s[n]];
      DistinctCount(s[..n]);
      assert s[n] !in s[..n];
      assert Elements(s) == Elements(s[..n]) + {s[n]};
    }
  }
}

/** Sums over finite maps and over sequences, which the solvency statements are made of. */
module Sums {
  import opened Prelude

  ghost function AnyKey<K(!new)>(m: map<K, nat>): (k: K)
    requires m.Keys != {}
    ensures k in m
  {
    var k :| k in m; k
  }

  ghost function Sum<K(!new)>(m: map<K, nat>): nat
    decreases m.Keys
  {
    if m.Keys == {} then 0 else
      m[AnyKey(m)] + Sum(m - {AnyKey(m)})
  }

  /** Whichever key is taken out first, the sum is the same. */
  lemma {:induction false} SumTake<K(!new)>(m: map<K, nat>, k: K)
    requires k in m
    ensures Sum(m) == m[k] + Sum(m - {k})
    decreases m.Keys
  {
    var c := AnyKey(m);
    if c != k {
      SumTake(m - {c}, k);
      SumTake(m - {k}, c);
      assert m - {c} - {k} == m - {k} - {c};
    }
  }

  /** Writing one key changes the sum by the difference at that key. */
  lemma SumPut<K(!new)>(m: map<K, nat>, k: K, v: nat)
    ensures Sum(m[k := v]) + Get(m, k) == Sum(m) + v
  {
    SumTake(m[k := v], k);
    if k in m {
      SumTake(m, k);
      assert m[k := v] - {k} == m - {k};
    } else {
      assert m[k := v] - {k} == m;
    }
  }

  lemma SumHas<K(!new)>(m: map<K, nat>, k: K)
    ensures Get(m, k) <= Sum(m)
  {
    if k in m { SumTake(m, k); }
  }

  lemma {:induction false} SumZero<K(!new)>(m: map<K, nat>)
    ensures Sum(m) == 0 <==> forall k :: k in m ==> m[k] == 0
    decreases m.Keys
  {
    if m.Keys != {} {
      var c := AnyKey(m);
      SumZero(m - {c});
      forall k | Sum(m) == 0 && k in m ensures m[k] == 0 {
        if k != c { assert k in m - {c}; }
      }
    }
  }

  /** The sum of the entries of an auction ledger kept as a sequence. */
  ghost function Total(s: seq<nat>): nat {
    if s == [] then 0 else s[|s| - 1] + Total(s[..|s| - 1])
  }

  lemma {:induction false} TotalPut(s: seq<nat>, i: nat, v: nat)
    requires i < |s|
    ensures Total(s[i := v]) + s[i] == Total(s) + v
  {
    var n := |s| - 1;
    var t := s[i := v];
    if i == n {
      assert t[..n] == s[..n];
    } else {
      assert t[..n] == s[..n][i := v];
      TotalPut(s[..n], i, v);
    }
  }

  lemma TotalAppend(s: seq<nat>, v: nat)
    ensures Total(s + [v]) == Total(s) + v
  {
    assert (s + [v])[..|s|] == s;
  }

  lemma {:induction false} TotalHas(s: seq<nat>, i: nat)
    requires i < |s|
    ensures s[i] <= Total(s)
  {
    TotalPut(s, i, 0);
  }
}
