# A Dafny model of the Fhenix fair market and its keeper

The repository is a sealed-bid auction: an on-chain market that escrows tokens and ETH, an attestation verifier that
decides whose resolution counts, and an off-chain keeper that locks, finalizes, resolves and submits. This project
models their logic in Dafny and proves what they promise.

**The market.** `MarketTransactions.dfy` gives every transaction as a function from the state before to the state after
or to the reason for its revert; `FairMarket.dfy` is the contract itself, a class whose methods update its storage in
place and are proved to do exactly what those functions say, with nothing changed after a revert. The state
(`MarketState.dfy`) holds any number of auctions and bidders, the ETH balance, the clock, the owners of tokens, and the
storage of the settlement engines, pots (`SlashedPot.dfy`), vaults (`ShieldedEscrowVault.dfy`), registries
(`ShieldedIdentityRegistry.dfy`) and attestation services (`EigenLayerAvs.dfy`), all concrete. A run is a list of calls
by anyone, including donations, the passing of time, other people's tokens and new contracts. `MarketInvariant.dfy` and
`MarketPreservation.dfy` hold the invariant of all reachable states; `MarketSolvency.dfy`, `PotSolvency.dfy`,
`MarketClaims.dfy`, `MarketLiveness.dfy`, `MarketLifecycle.dfy`, `MarketQuorum.dfy`, `MarketCounters.dfy`,
`MarketReachable.dfy`, `ShieldedCompensation.dfy` and `ShieldedWinners.dfy` hold what follows from it; `MarketEffects.dfy`,
`BidEffects.dfy`, `SlashEffects.dfy` and `ShieldedRefunds.dfy` say exactly when each call commits and what it writes, and
what whole runs of them add up to. `MarketExamples.dfy`
sets a market up from its deployment, call by call, for the runs in which a promise fails.

**The keeper.** `WinnerSelection.dfy` and `CofheDispatcher.dfy` model the choice of a winner, the request queue and the
retry loop; `AuctionStateStore.dfy`, `KeeperPipeline.dfy` and `StoreSerialization.dfy` the store, the three ticks over it
and its file; `LockCoordinator.dfy`, `RedisLock.dfy` and `RedisProtocol.dfy` the lease lock in memory, on a Redis
server, and the Redis client; `AuctionMonitor.dfy` the
finalize loop; `AvsSubmitter.dfy` the collection of signatures; `HandleCodec.dfy` the text of handles and numbers.
`KeeperAgreement.dfy`, `KeeperEndToEnd.dfy` and `ShieldedAgreement.dfy` put the keeper and the market together, the latter on the backing of
shielded bids that `ShieldedBacking.dfy` shows for every reachable state.

## How the model reads the code

- keccak256 is injective: request ids, digests and claim messages are datatype constructors. The public and the shielded
  digest encode the same list of words, so they are one constructor here, and a public winner is the word of its address.
- A signature is the table of what it recovers to on each message; nothing else is assumed about ECDSA.
- Whether a receiver takes ETH or a token, whether a token is approved, the answer of the external coverage verifier,
  salts, and the behaviour of finalizers, readers, clients and clocks are parameters: every statement holds for all of them.
- A transaction is one step, as the reentrancy guard makes it, and block timestamps do not go back.
- A closing call needs the seller to take its token back (`safeTransferFrom`), so the way out of a live auction has that
  condition and no other; the conditions under which a void or a cancellation commits are exact.
- Zero winning amounts are rejected by the market although the keeper can choose them; the agreement is stated as an
  if-and-only-if with that condition.
- The promises that turned out to hold under a condition only are stated with exactly that condition, and with a run or an
  input in which it fails: the bid counter (`MarketCounters.CountsBiddersIff`), shielded compensation
  (`ShieldedCompensation.ReleaseUnchangedIff`), the token of a shielded winner (`ShieldedWinners.RowIsSafeIff`), the keeper's
  shielded pick under a rotated registry (`ShieldedAgreement.ChosenBidPasses`), the order of the request queue
  (`CofheDispatcher.DirectKeepsFifoIff`), the finality of a Redis reply (`RedisProtocol.CompleteIsFinal`), a Redis release
  (`RedisLock.ReleaseIsSafeIff`) and the round trip of the state file (`StoreSerialization.SaveAndLoad`).

## Model

| member | source | states |
|---|---|---|
| MarketSolvency.MarketIsSolvent | packages/contracts/contracts/core/FhenixFairMarket.sol:677-745 | After any calls since deployment, over all auctions and bidders, the balance is exactly everything still owed (deposits and escrow while live, unclaimed refunds, payouts and rewards after) plus what was donated. |
| MarketSolvency.StepBalances | packages/contracts/contracts/core/FhenixFairMarket.sol:1010-1064 | Every committed call moves the balance and the total owed by the same amount; only a plain transfer widens the gap. |
| MarketSolvency.FinalizedConservation | packages/contracts/contracts/core/FhenixFairMarket.sol:1046-1049 | The entitlements of a finalized auction add up to the deposit, the public escrow and, for a shielded winner, the winning amount the vault pays in. |
| MarketSolvency.ClosedConservation | packages/contracts/contracts/core/FhenixFairMarket.sol:1051-1061 | The entitlements of a cancelled or voided auction and the slash sent out add up to the deposit and the public escrow. |
| MarketSolvency.PayoutIsDue | packages/contracts/contracts/core/FhenixFairMarket.sol:1042-1064 | What the payout preview computes, vault total included, is what the books say the seller is owed. |
| PotSolvency.ReachableIsSound | packages/contracts/contracts/settlement/SlashedPot.sol:58-125 | In every reachable state every pot covers the unclaimed compensation of all its auctions together, and the market covers everything it owes. |
| PotSolvency.StepKeepsSound | packages/contracts/contracts/settlement/SlashedPot.sol:107-125 | Each call keeps the market invariant, the cover of the market and the cover of every pot. |
| MarketClaims.RefundCommitsIff | packages/contracts/contracts/core/FhenixFairMarket.sol:677-699 | A refund claim commits exactly when the caller has not claimed, has something to get back and takes the transfer; neither the market nor the pot ever lacks the funds. |
| MarketClaims.ProceedsCommitIff | packages/contracts/contracts/core/FhenixFairMarket.sol:701-721 | The seller is paid exactly when it is the seller, something is due and the transfer is taken. |
| MarketClaims.RewardCommitsIff | packages/contracts/contracts/core/FhenixFairMarket.sol:723-745 | The keeper reward is paid exactly to the recorded executor of a finalized or voided auction, once. |
| MarketClaims.ClaimPaysDue | packages/contracts/contracts/core/FhenixFairMarket.sol:677-745 | A committed claim pays its party exactly what was due. |
| MarketClaims.ClaimOrderIrrelevant | packages/contracts/contracts/core/FhenixFairMarket.sol:677-745 | Over any run of claims and other calls, what a party was paid and what it is still due always add up to its entitlement, and it is paid whole or not yet: nobody else's claim matters. |
| MarketClaims.TerminalStep | packages/contracts/contracts/core/FhenixFairMarket.sol:677-834 | Any committed call on any auction leaves a terminal auction as it was, except that a claim settles its own row. |
| MarketClaims.AllClaimedLeavesNothing | packages/contracts/contracts/core/FhenixFairMarket.sol:677-745 | Once every party with something due has claimed, in any order, the liability of the auction is zero. |
| MarketLiveness.NoStuckAuction | packages/contracts/contracts/core/FhenixFairMarket.sol:558-675 | From every live state two waits and two calls open to any account reach a terminal state, the seller taking its token back. |
| MarketLiveness.NobodyElseEndsIt | packages/contracts/contracts/core/FhenixFairMarket.sol:626-675 | The converse over runs: while the seller takes its token back in no call and no call carries a quorum, the auction stays live, whatever is called and however long anybody waits. |
| MarketLiveness.TriggerCommitsIff | packages/contracts/contracts/core/FhenixFairMarket.sol:558-604 | Finalization can be triggered exactly when the auction is active and past its end; it records the caller as the executor. |
| MarketLiveness.VoidCommitsIff | packages/contracts/contracts/core/FhenixFairMarket.sol:647-675 | The fallback void commits exactly when the auction resolves, its timeout has passed and the seller takes the token; the slash is always covered. |
| MarketLiveness.CancelCommitsIff | packages/contracts/contracts/core/FhenixFairMarket.sol:626-645 | Cancelling commits exactly for the seller of an active auction before its end, when the token is taken. |
| MarketLiveness.ClaimsRunOut | packages/contracts/contracts/core/FhenixFairMarket.sol:677-745 | In a terminal auction no call adds to what is left to claim and every claim takes something away. |
| MarketQuorum.FinalizedOnlyByQuorum | packages/contracts/contracts/core/FhenixFairMarket.sol:1113-1142 | An auction becomes finalized only by a resolution on which at least threshold distinct operators, registered at that step, signed this market, auction, pending request and exactly the recorded winner, handle and amount. |
| MarketQuorum.ResolutionIffQuorum | packages/contracts/contracts/core/FhenixFairMarket.sol:1072-1143 | A public resolution past its checks finalizes if and only if a quorum attested it; rejected, it changes nothing but the slash counts. |
| MarketQuorum.ShieldedResolutionIffQuorum | packages/contracts/contracts/core/FhenixFairMarket.sol:1145-1201 | The same for a shielded resolution and its identity. |
| MarketQuorum.TokenLeavesToEntitled | packages/contracts/contracts/core/FhenixFairMarket.sol:747-807 | A token leaves only with its auction's cancellation, void or claim, to the seller, the winner, or the recipient the shielded winner's claim authority signed for. |
| MarketReachable.TokensAreInCustody | packages/contracts/contracts/core/FhenixFairMarket.sol:368-396 | In every reachable state the market owns the token of every auction that has not given it away, and no two such auctions share a token. |
| MarketReachable.TokenLeavesOnce | packages/contracts/contracts/core/FhenixFairMarket.sol:747-807 | At most once: an auction whose token has left never holds it again, whatever follows. |
| MarketClaims.AssetCommitsIff | packages/contracts/contracts/core/FhenixFairMarket.sol:747-765 | A token without a shielded winner is given out exactly once the auction is finalized, to its recipient only, once, when the recipient takes it; the market always has it. |
| ShieldedWinners.PublicTokenWaits | packages/contracts/contracts/core/FhenixFairMarket.sol:747-765 | At any later point of any run such a token has been claimed or its recipient can claim it. |
| ShieldedWinners.ShieldedAssetCommitsIff | packages/contracts/contracts/core/FhenixFairMarket.sol:775-807 | In every reachable state a shielded winner's claim commits exactly with the recorded identity, a recipient, an open deadline, a fresh authorization signed by the commitment's authority, a token not yet claimed that the recipient takes, and a row in the vault that still names this auction. |
| ShieldedWinners.ShieldedAssetWrites | packages/contracts/contracts/core/FhenixFairMarket.sol:795-807 | A committed claim gives the token to the recipient, uses up the authorization and changes nothing else. |
| ShieldedWinners.ShieldedTokenWaitsIff | packages/contracts/contracts/privacy/ShieldedEscrowVault.sol:251-273 | So an unclaimed token can be claimed by somebody now exactly when the row still names the auction. |
| ShieldedWinners.RowLostByRelockOnly | packages/contracts/contracts/privacy/ShieldedEscrowVault.sol:140-163 | Over any run a recorded winner's row stops naming its auction exactly when some committed call locks the same commitment anew for another auction of that vault. |
| ShieldedWinners.RecordedWinner | packages/contracts/contracts/privacy/ShieldedEscrowVault.sol:226-231 | When a shielded winner is recorded its row names the auction, and the commitment can be locked anew exactly when the winner bid all of it. |
| ShieldedWinners.RowIsSafeIff | packages/contracts/contracts/privacy/ShieldedEscrowVault.sol:151-158 | A recorded winner's row names its auction after every run exactly when the commitment still holds something or was refunded; otherwise a run of six calls takes the row away. |
| ShieldedWinners.LostRowKeepsToken | packages/contracts/contracts/privacy/ShieldedEscrowVault.sol:251-261 | Once the row is lost no claim of the token ever commits, and the market keeps it for good. |
| ShieldedWinners.WholeCommitmentLosesToken | packages/contracts/contracts/privacy/ShieldedEscrowVault.sol:140-163 | It does happen: a run from deployment in which the winner bids its whole commitment, somebody locks one wei under it in the next auction, and the first token can never be claimed. |
| ShieldedWinners.ReachableIsSettled | packages/contracts/contracts/core/FhenixFairMarket.sol:1145-1238 | In every reachable state a recorded shielded winner has a bound commitment locked in the auction's vault, and every commitment has a claim authority. |
| MarketReachable.BidsStayCovered | packages/contracts/contracts/core/FhenixFairMarket.sol:467-503 | In every reachable state each stored public bid of a live auction decodes to an amount between the starting price and its bidder's present escrow. |
| MarketReachable.RecordsFollowState | packages/contracts/contracts/core/FhenixFairMarket.sol:1487-1505 | A request is pending exactly while resolving, an executor is on record exactly while resolving, finalized or voided, outcomes and claims exist only after. |
| MarketLifecycle.RunEndures | packages/contracts/contracts/core/FhenixFairMarket.sol:1487-1505 | Over any run an auction keeps its terms and dependency snapshot, moves only towards its end, and once over keeps outcome, slash and keeper. |
| MarketLifecycle.StepEvolves | packages/contracts/contracts/core/FhenixFairMarket.sol:1487-1505 | Every call changes an auction only along the five edges, by the one kind of call meant for that edge, and a resolving auction that stays resolving not at all. |
| MarketPreservation.RunKeepsInv | packages/contracts/contracts/core/FhenixFairMarket.sol:256-264 | The invariant of the market, the vaults and the pots survives any run of calls. |
| MarketPreservation.StepKeepsInv | packages/contracts/contracts/core/FhenixFairMarket.sol:327-834 | Every call of anyone keeps the invariant. |
| MarketCounters.StepExcess | packages/contracts/contracts/core/FhenixFairMarket.sol:490-496 | The bid counter runs ahead of the two bidder lists by one exactly when a bid replaces a zero handle; no other call moves the difference. |
| MarketCounters.RunExcess | packages/contracts/contracts/core/FhenixFairMarket.sol:490-496 | Over any run the counter runs ahead of the two lists by the number of committed bids that replaced a zero handle. |
| MarketCounters.CountsBiddersIff | packages/contracts/contracts/core/FhenixFairMarket.sol:543-549 | In any run since deployment the counter is the number of bidders, public and shielded, exactly when no committed bid replaced a zero handle. |
| MarketCounters.RunCountsBids | packages/contracts/contracts/core/FhenixFairMarket.sol:543-549 | In particular in a run without zero handles the counter is the number of listed bidders and commitments, each listed once. |
| MarketCounters.ZeroHandleCountsTwice | packages/contracts/contracts/core/FhenixFairMarket.sol:543-551 | It does drift: a run from deployment in which one shielded bidder bids the zero word twice and the counter says two. |
| MarketCounters.AverageWithinSamples | packages/contracts/contracts/core/FhenixFairMarket.sol:1353-1376 | Once a sample has been accepted the moving average stays between the smallest and the largest of them, all from 1 to 600 seconds. |
| MarketCounters.AverageMoves | packages/contracts/contracts/core/FhenixFairMarket.sol:1353-1376 | One observation moves the average one eighth of the way to a sample of 1 to 600 seconds, rounded down: it rises exactly by a sample at least 8 above it, falls exactly with one below it, and any other observation leaves it. |
| MarketCounters.RunAverages | packages/contracts/contracts/core/FhenixFairMarket.sol:1353-1376 | The average of any run of the market is the one of the times at which its committed calls observed the clock. |
| MarketEffects.CreateCommitsIff | packages/contracts/contracts/core/FhenixFairMarket.sol:348-382 | A creation commits exactly for a token contract, a duration from a minute to 90 days, a starting price below 2^96, the announced positive deposit, and an approved token of the sender. |
| MarketEffects.CreateAdds | packages/contracts/contracts/core/FhenixFairMarket.sol:378-407 | It adds exactly one auction, active and empty, on the call's own terms: sender, token, price, deposit, now and now + duration, and what is configured now; the market takes the deposit and the token, and nothing else moves. |
| MarketEffects.TermsAreOfCreation | packages/contracts/contracts/core/FhenixFairMarket.sol:348-407 | Over any run every auction was opened by one committed creation and still has exactly that call's terms. |
| MarketEffects.ConfigurationCommitsIff | packages/contracts/contracts/core/FhenixFairMarket.sol:286-325 | The owner sets exactly one dependency, with a contract behind it; no existing auction moves. |
| MarketEffects.EscrowCommitsIff | packages/contracts/contracts/core/FhenixFairMarket.sol:409-422 | A top-up commits exactly with a value in an active auction before its end. |
| MarketEffects.EscrowCredits | packages/contracts/contracts/core/FhenixFairMarket.sol:422-428 | It credits its sender and nobody else, and moves the total and the balance by the same amount. |
| MarketEffects.EscrowIsPaidIn | packages/contracts/contracts/core/FhenixFairMarket.sol:409-429 | Over any run an account's escrow row is exactly the sum of its own committed top-ups until its own refund, and zero after it, whatever anybody else does. |
| MarketEffects.ResolutionCheckIff | packages/contracts/contracts/core/FhenixFairMarket.sol:1079-1111 | A public resolution gets as far as the verifier exactly for a resolving auction with an engine, and nobody at price zero or a bidder, a positive amount from the starting price to its escrow and a ciphertext within that escrow. |
| MarketEffects.ShieldedCheckIff | packages/contracts/contracts/core/FhenixFairMarket.sol:1145-1238 | A shielded one exactly for an identity whose commitment has exactly this ciphertext stored and is not spent, and an amount from the starting price on. |
| MarketEffects.ObservesExactly | packages/contracts/contracts/core/FhenixFairMarket.sol:1353-1376 | Every committed call observes the clock once or not at all, and which is fixed by its kind and, for a resolution, by its acceptance. |
| BidEffects.BidCommitsIff | packages/contracts/contracts/core/FhenixFairMarket.sol:467-488 | A public bid is taken exactly in an active auction before its end, from an account with escrow, for a handle that decodes to an amount from the starting price to that escrow. |
| BidEffects.ShieldedBidCommitsIff | packages/contracts/contracts/core/FhenixFairMarket.sol:505-542 | A shielded bid is taken exactly for an unspent commitment of the auction, in time, covered by the verifier, and reaching the opening price when there is one. |
| BidEffects.LockCommitsIff | packages/contracts/contracts/core/FhenixFairMarket.sol:431-465 | A commitment is locked exactly in an open auction with both contracts, with value and an authority, when the vault has nothing under it and neither it nor the identity has another partner. |
| BidEffects.StoredIsLast | packages/contracts/contracts/core/FhenixFairMarket.sol:490-503 | Over any run the handle stored for an account or a commitment is that of its last committed bid, and there is none exactly when it had none. |
| BidEffects.ListsGrow | packages/contracts/contracts/core/FhenixFairMarket.sol:490-551 | Bidders and commitments are listed in the order of their first bids. |
| BidEffects.RequestsNameAuctions | packages/contracts/contracts/core/FhenixFairMarket.sol:1269-1299 | In every reachable state a pending request names its own auction, market, engine, final bid count, end and salt, with the reward reserved for its executor; so no two auctions share a request. |
| SlashEffects.CancelSlashes | packages/contracts/contracts/core/FhenixFairMarket.sol:1426-1446 | A cancellation slashes nothing without escrow, half of the deposit without an engine, and otherwise deposit * (2500 + 7500 * elapsed / duration) / 10000, and gives the token back. |
| SlashEffects.LaterCancelCostsMore | packages/contracts/contracts/settlement/SettlementEngine.sol:49-68 | Over any run, cancelling the same auction later never costs less. |
| SlashEffects.VoidSlashes | packages/contracts/contracts/core/FhenixFairMarket.sol:647-675 | A void slashes the deposit less the keeper reward when there is escrow, nothing otherwise, and gives the token back. |
| SlashEffects.VoidOpensIff | packages/contracts/contracts/settlement/SettlementEngine.sol:34-47 | The void opens exactly 90 times the average sample after the trigger, from 900 to 7200 seconds, or 1800 without an engine. |
| SlashEffects.ClosingCallSplits | packages/contracts/contracts/core/FhenixFairMarket.sol:1378-1397 | Every slash is split between the pot and the vault, the pot getting the pro-rata share of the public escrow, rounded down, registered with the auction's escrow total, and the vault keeping the rest for the shielded bidders. |
| SlashEffects.RefundPaysOut | packages/contracts/contracts/core/FhenixFairMarket.sol:677-699 | A refund pays the claimant's escrow, less the price for the winner, and exactly its pro-rata share of the public slash, rounded down, out of the auction's own pot. |
| FairMarket.FairMarket.constructor | packages/contracts/contracts/core/FhenixFairMarket.sol:266-278 | A new market has the deployment state, which is sound. |
| FairMarket.FairMarket.ObserveNetwork | packages/contracts/contracts/core/FhenixFairMarket.sol:1353-1376 | The observation in place is the specified one. |
| FairMarket.FairMarket.TransitionState | packages/contracts/contracts/core/FhenixFairMarket.sol:1487-1505 | Only the five edges are ever asked for, so the guard of the contract never fires. |
| FairMarket.FairMarket.OpenShieldedRefundPath | packages/contracts/contracts/core/FhenixFairMarket.sol:1255-1267 | Unlocks the shielded refunds of an auction with a vault, once. |
| FairMarket.FairMarket.RegisterSlash | packages/contracts/contracts/core/FhenixFairMarket.sol:1378-1397 | The vault keeps its slice and returns the rest, which goes to the pot. |
| FairMarket.FairMarket.CreateAuction | packages/contracts/contracts/core/FhenixFairMarket.sol:348-407 | Commits exactly the specified state, or reverts for the specified reason with nothing changed. |
| FairMarket.FairMarket.LockEscrow | packages/contracts/contracts/core/FhenixFairMarket.sol:409-429 | The same, for public escrow. |
| FairMarket.FairMarket.LockShieldedEscrow | packages/contracts/contracts/core/FhenixFairMarket.sol:431-465 | The same, with the registry and the vault; a late failure undoes the registry. |
| FairMarket.FairMarket.PlaceBid | packages/contracts/contracts/core/FhenixFairMarket.sol:467-503 | The same, for a public bid. |
| FairMarket.FairMarket.PlaceShieldedBid | packages/contracts/contracts/core/FhenixFairMarket.sol:505-556 | The same, for a shielded bid. |
| FairMarket.FairMarket.TriggerFinalize | packages/contracts/contracts/core/FhenixFairMarket.sol:558-604 | The same, for the start of the resolution. |
| FairMarket.FairMarket.SubmitResolution | packages/contracts/contracts/core/FhenixFairMarket.sol:1072-1143 | The same, with the answer of the proof as the result. |
| FairMarket.FairMarket.SubmitShieldedResolution | packages/contracts/contracts/core/FhenixFairMarket.sol:1145-1238 | The same, with the payment of the vault and the mark in the registry; a late failure undoes the outcome. |
| FairMarket.FairMarket.CancelAuction | packages/contracts/contracts/core/FhenixFairMarket.sol:626-645 | The same, for the cancellation by the seller. |
| FairMarket.FairMarket.TriggerFallbackVoid | packages/contracts/contracts/core/FhenixFairMarket.sol:647-675 | The same, for the void after the timeout. |
| FairMarket.FairMarket.ClaimRefund | packages/contracts/contracts/core/FhenixFairMarket.sol:677-699 | The same, with the compensation from the pot. |
| FairMarket.FairMarket.ClaimSellerProceeds | packages/contracts/contracts/core/FhenixFairMarket.sol:701-721 | The same, for the seller payout. |
| FairMarket.FairMarket.ClaimFinalizeReward | packages/contracts/contracts/core/FhenixFairMarket.sol:723-745 | The same, for the keeper reward. |
| FairMarket.FairMarket.ClaimAsset | packages/contracts/contracts/core/FhenixFairMarket.sol:747-765 | The same, for the token of a public winner or of nobody. |
| FairMarket.FairMarket.ClaimShieldedAsset | packages/contracts/contracts/core/FhenixFairMarket.sol:775-807 | The same, for the token of a shielded winner. |
| FairMarket.FairMarket.SettleShieldedRefund | packages/contracts/contracts/core/FhenixFairMarket.sol:809-834 | The same, for the callback of the vault. |
| FairMarket.FairMarket.ClaimShieldedRefund | packages/contracts/contracts/privacy/ShieldedEscrowVault.sol:283-300 | The same, for a refund that starts at the vault. |
| FairMarket.FairMarket.Execute | packages/contracts/contracts/core/FhenixFairMarket.sol:256-264 | Any call in any sound state does what the specification says and leaves a sound state. |
| FairMarket.FairMarket.Replay | packages/contracts/contracts/core/FhenixFairMarket.sol:256-264 | So does any run of calls. |
| SettlementEngine.RewardBelowDeposit | packages/contracts/contracts/core/FhenixFairMarket.sol:1461-1463 | The keeper reward is less than every positive deposit. |
| SettlementEngine.CancellationSlashBounds | packages/contracts/contracts/settlement/SettlementEngine.sol:49-68 | A cancellation slashes between a quarter of the deposit and all of it, all of it from the end of the duration on, and waiting never makes it cheaper. |
| SettlementEngine.TimeoutWithinBounds | packages/contracts/contracts/settlement/SettlementEngine.sol:34-47 | The dynamic timeout is from 900 to 7200 seconds. |
| SettlementEngine.TimeoutIsClamped | packages/contracts/contracts/settlement/SettlementEngine.sol:34-47 | The timeout is 90 times the average, clamped, and never falls as the average grows. |
| SettlementEngine.CancellationSlashIs | packages/contracts/contracts/settlement/SettlementEngine.sol:49-68 | The slash in one formula: a quarter of the deposit and the elapsed part of the rest. |
| SettlementEngine.SharesFitPot | packages/contracts/contracts/settlement/SettlementEngine.sol:97-107 | The pro-rata shares of all contributors together never exceed the pot. |
| SettlementEngine.SharesDust | packages/contracts/contracts/settlement/SettlementEngine.sol:97-107 | Rounding strands fewer wei than there are contributors. |
| ShieldedEscrowVault.SettleKeepsSound | packages/contracts/contracts/privacy/ShieldedEscrowVault.sol:196-240 | Paying the winning amount to the market keeps the ETH of the vault equal to what it owes. |
| ShieldedEscrowVault.AllocateKeepsSound | packages/contracts/contracts/privacy/ShieldedEscrowVault.sol:165-194 | So does keeping the shielded slice of a slash. |
| ShieldedEscrowVault.LockKeepsSound | packages/contracts/contracts/privacy/ShieldedEscrowVault.sol:140-163 | So does a new commitment. |
| ShieldedEscrowVault.ReleaseKeepsSound | packages/contracts/contracts/privacy/ShieldedEscrowVault.sol:395-420 | So does a refund. |
| ShieldedEscrowVault.ReleaseNeverShort | packages/contracts/contracts/privacy/ShieldedEscrowVault.sol:395-463 | A refund of a sound vault commits exactly when the commitment holds something, the refunds are open and its authority signed a fresh message in time; it never lacks ETH. |
| ShieldedEscrowVault.ReleasePays | packages/contracts/contracts/privacy/ShieldedEscrowVault.sol:395-489 | A refund takes exactly its principal and its pro-rata share of the reserve, rounded down, spends its commitment and its authorization, and touches no other commitment or auction. |
| ShieldedEscrowVault.AuthorizedOnce | packages/contracts/contracts/privacy/ShieldedEscrowVault.sol:432-463 | An authorization is used up by being taken, alone, and is never taken again. |
| ShieldedEscrowVault.SettlePaysOnce | packages/contracts/contracts/privacy/ShieldedEscrowVault.sol:196-240 | The winning amount leaves exactly the winner's commitment, the total and the vault, and no second winner is ever paid. |
| ShieldedEscrowVault.PublicSlashIsFloor | packages/contracts/contracts/privacy/ShieldedEscrowVault.sol:165-181 | The public slice of a slash is its pro-rata share, rounded down. |
| ShieldedRefunds.ReachableRefundsAreClaimed | packages/contracts/contracts/core/FhenixFairMarket.sol:809-834 | In every reachable state a refund on record belongs to a claimed commitment. |
| ShieldedRefunds.ShieldedRefundCommitsIff | packages/contracts/contracts/privacy/ShieldedEscrowVault.sol:283-300 | In every reachable state a shielded refund, callback included, commits exactly when the commitment holds something, its auction is over, its authority signed a fresh message in time, and the recipient takes the ETH. |
| ShieldedRefunds.ShieldedRefundPays | packages/contracts/contracts/privacy/ShieldedEscrowVault.sol:395-420 | The vault alone then pays, principal and floor share, and the market only records it. |
| ShieldedEscrowVault.EmptiedAuctionKeepsNoReserve | packages/contracts/contracts/privacy/ShieldedEscrowVault.sol:475-489 | The last refund of an auction takes what is left of the slash reserve. |
| ShieldedEscrowVault.WaitingNeverLoses | packages/contracts/contracts/privacy/ShieldedEscrowVault.sol:475-489 | Somebody else's refund never lowers the compensation of a waiting commitment. |
| ShieldedCompensation.CompensationUnchangedIff | packages/contracts/contracts/privacy/ShieldedEscrowVault.sol:475-489 | A refund leaves the compensation of a waiting commitment as it was exactly when r * (total - claimed) + waiting * s < total * (total - claimed), where r and s are the remainders of waiting * reserve and claimed * reserve by the total. |
| ShieldedCompensation.ReleaseUnchangedIff | packages/contracts/contracts/privacy/ShieldedEscrowVault.sol:395-489 | The same of any two refunds of one auction in a sound vault: after the first the second still commits, and with the same compensation exactly under that condition. |
| ShieldedCompensation.CompensationDependsOnOrder | packages/contracts/contracts/privacy/ShieldedEscrowVault.sol:475-489 | The condition can fail: in a vault reached by two locks, a slash and the unlock, a refund is compensated with nothing before the other one and with one wei after it. |
| ShieldedIdentityRegistry.BindIsPermanent | packages/contracts/contracts/privacy/ShieldedIdentityRegistry.sol:47-70 | A binding commits exactly when neither side has another partner, keeps the two maps inverse and changes nothing bound before. |
| ShieldedIdentityRegistry.MarkIsWriteOnce | packages/contracts/contracts/privacy/ShieldedIdentityRegistry.sol:72-89 | A winner is a bound identity and is never replaced by another. |
| ShieldedIdentityRegistry.BindWritesOnly | packages/contracts/contracts/privacy/ShieldedIdentityRegistry.sol:47-70 | A binding writes exactly its own pair, in both directions. |
| ShieldedIdentityRegistry.MarkCommitsIff | packages/contracts/contracts/privacy/ShieldedIdentityRegistry.sol:72-89 | A winner is marked exactly when it is bound and no other is, and the mark is all that changes. |
| ShieldedIdentityRegistry.IdentityRegistry.BindIdentity | packages/contracts/contracts/privacy/ShieldedIdentityRegistry.sol:47-70 | In place, the specified binding, or the specified revert with nothing changed. |
| ShieldedIdentityRegistry.IdentityRegistry.MarkWinningIdentity | packages/contracts/contracts/privacy/ShieldedIdentityRegistry.sol:72-89 | In place, the specified mark, or the specified revert with nothing changed. |
| CiphertextEncoding.DecodeEncode | packages/contracts/contracts/utils/CofheCiphertextEncoding.sol:27-72 | Every amount up to 2^96 - 1 comes back from its handle, which fits in 32 bytes. |
| CiphertextEncoding.NumericIff | packages/contracts/contracts/utils/CofheCiphertextEncoding.sol:27-72 | A handle is a number exactly when its top byte is 1 or 3, its other 31 bytes are the number, and an encoded amount is of kind 3. |
| EigenLayerAvs.VerifyIffQuorum | packages/contracts/contracts/mocks/MockEigenLayerAVS.sol:154-216 | An attestation is accepted if and only if the envelope is about this call and carries a quorum: enough entries, all registered, pairwise distinct, each signature recovering to its operator. |
| EigenLayerAvs.QuorumHasSigners | packages/contracts/contracts/mocks/MockEigenLayerAVS.sol:181-213 | A quorum is at least threshold different registered operators, each of whom signed the digest. |
| EigenLayerAvs.RejectionSlashesOnce | packages/contracts/contracts/mocks/MockEigenLayerAVS.sol:292-312 | A rejection that does not revert slashes every distinct registered operator it names by one, however often it names it, and nobody else; too few entries slash nobody. |
| EigenLayerAvs.VerifyRevertsIff | packages/contracts/contracts/mocks/MockEigenLayerAVS.sol:154-216 | The check reverts exactly when the lists differ in length, or when an envelope about this call with enough entries is good up to a signature that cannot be recovered; a foreign signature, a repeated or an unregistered operator is answered with a rejection that slashes. |
| EigenLayerAvs.OperatorChangesIff | packages/contracts/contracts/mocks/MockEigenLayerAVS.sol:86-105 | An operator change commits exactly when it changes a membership and leaves somebody; exactly that operator joins or leaves, and the threshold comes down to the number left if it must. |
| EigenLayerAvs.ThresholdChangesIff | packages/contracts/contracts/mocks/MockEigenLayerAVS.sol:282-290 | Exactly a threshold from one to the number of operators is taken, and it alone changes. |
| EigenLayerAvs.AdministrationKeepsOk | packages/contracts/contracts/mocks/MockEigenLayerAVS.sol:86-109 | The threshold stays from one to the number of registered operators, which is counted right; the last operator cannot go. |
| EigenLayerAvs.Verifier.Deploy | packages/contracts/contracts/mocks/MockEigenLayerAVS.sol:64-84 | Deployment succeeds exactly for distinct non-zero operators and a threshold among them. |
| EigenLayerAvs.Verifier.SetOperator | packages/contracts/contracts/mocks/MockEigenLayerAVS.sol:86-105 | In place, the specified change, lowering the threshold with the count. |
| EigenLayerAvs.Verifier.SetThreshold | packages/contracts/contracts/mocks/MockEigenLayerAVS.sol:282-290 | In place, the specified threshold. |
| EigenLayerAvs.Verifier.VerifyAttestation | packages/contracts/contracts/mocks/MockEigenLayerAVS.sol:154-216 | The nested loops decide and slash exactly as specified. |
| EigenLayerAvs.Verifier.SlashOperators | packages/contracts/contracts/mocks/MockEigenLayerAVS.sol:292-302 | The slashing loop adds one per distinct registered operator. |
| EigenLayerAvs.Verifier.Contains | packages/contracts/contracts/mocks/MockEigenLayerAVS.sol:304-312 | The inner loop finds an earlier occurrence exactly when there is one. |
| WinnerSelection.PickHighest | packages/keeper/services/cofheDispatcher.ts:296-318 | The loop fails exactly on an undecodable handle, finds nobody exactly when nobody is eligible, and otherwise the earliest of the highest eligible bids. |
| WinnerSelection.BestWins | packages/keeper/services/cofheDispatcher.ts:296-318 | The recursive form of the pick is the earliest maximum of the eligible bids. |
| WinnerSelection.BestOfConcatenation | packages/keeper/services/cofheDispatcher.ts:296-318 | The winner of two lists put together is the better of their winners, the first list first. |
| WinnerSelection.AmountIgnoresOrder | packages/keeper/services/cofheDispatcher.ts:296-318 | The winning amount does not depend on the order of the bids. |
| WinnerSelection.EarlierOfEqualsWins | packages/keeper/services/cofheDispatcher.ts:311-314 | Who wins does: of two equal bids the earlier. |
| CofheDispatcher.ResolveBatchLocally | packages/keeper/services/cofheDispatcher.ts:125-142 | The local client answers every job of a batch in order, or none when a handle does not decode. |
| CofheDispatcher.LocalAnswerIsAbout | packages/keeper/services/cofheDispatcher.ts:125-142 | A local answer carries its job's names and handles, an eligible bid's bidder, ciphertext, amount and kind, or nobody, and a proof made of request and ciphertext. |
| CofheDispatcher.LiveWinnerWasSubmitted | packages/keeper/services/cofheDispatcher.ts:324-393 | A live answer is taken only for a job of the batch, and a winner only with the very ciphertext that bidder submitted. |
| CofheDispatcher.LiveEntryTakenIff | packages/keeper/services/cofheDispatcher.ts:324-393 | A live entry is taken exactly when it is about a job of the batch, complete, and names nobody with nothing or a winner whose first bid carries exactly this ciphertext; what is taken is what it said. |
| CofheDispatcher.BatchIsOldest | packages/keeper/services/cofheDispatcher.ts:98-104 | A batch is exactly the oldest waiting requests. |
| CofheDispatcher.BatchKeepsFifo | packages/keeper/services/cofheDispatcher.ts:239-259 | Serving a batch moves exactly the oldest waiting requests to the completed ones. |
| CofheDispatcher.BatchKeepsPartition | packages/keeper/services/cofheDispatcher.ts:239-259 | Whatever was served out of turn before, a batch is the oldest of those waiting, and serving it keeps pending and completed a partition. |
| CofheDispatcher.RunIsPartitioned | packages/keeper/services/cofheDispatcher.ts:84-119 | Over any run, direct dispatches included, pending and completed requests partition everything enqueued, each once. |
| CofheDispatcher.RunIsFifo | packages/keeper/services/cofheDispatcher.ts:84-119 | Over any run without direct dispatches the completed requests are the oldest. |
| CofheDispatcher.DirectKeepsFifoIff | packages/keeper/services/cofheDispatcher.ts:213-217 | An answered direct dispatch keeps that order exactly when nobody was waiting. |
| CofheDispatcher.InMemoryDispatchQueue.Enqueue | packages/keeper/services/cofheDispatcher.ts:89-96 | A known request is refused with nothing changed; another joins at the end. |
| CofheDispatcher.InMemoryDispatchQueue.TakeBatch | packages/keeper/services/cofheDispatcher.ts:98-104 | The loop returns the specified batch. |
| CofheDispatcher.InMemoryDispatchQueue.MarkCompleted | packages/keeper/services/cofheDispatcher.ts:115-118 | The request is completed and not pending; those still waiting keep their places, no other answer changes, and a pending request keeps the partition. |
| CofheDispatcher.Dispatcher.DispatchBatch | packages/keeper/services/cofheDispatcher.ts:239-273 | At most maxRetries + 1 client calls, stopping at the first answer, sleeping base * (2^j - 1) over j retries; an answer completes its requests and counts them, a failing batch changes only the two failure counters. |
| CofheDispatcher.Dispatcher.DispatchPendingBatch | packages/keeper/services/cofheDispatcher.ts:219-226 | With one resolution per job a batch is served whole or not at all, the oldest waiting ones, in turn if the queue was in turn; the success counter equals the number of completed requests. |
| CofheDispatcher.Dispatcher.Dispatch | packages/keeper/services/cofheDispatcher.ts:213-217 | A known request is refused before the client is asked; a new one is answered at once or stays waiting, and the partition is kept. |
| AuctionStateStore.SortIsStable | packages/keeper/stores/auctionStateStore.ts:176-182 | The pending lists are sorted by time, entries of the same time in the order of their arrival. |
| AuctionStateStore.ListedIsFifo | packages/keeper/stores/auctionStateStore.ts:176-182 | When times do not decrease the list is simply the oldest open entries in order of arrival. |
| AuctionStateStore.InMemoryAuctionStateStore.EnqueueDispatchJob | packages/keeper/stores/auctionStateStore.ts:156-165 | A request that ever had a job or an artifact is not opened again; a new one joins the open jobs at the end; no other job moves. |
| AuctionStateStore.InMemoryAuctionStateStore.MarkDispatchJobCompleted | packages/keeper/stores/auctionStateStore.ts:184-194 | The job leaves the open ones, the others keep their order; a known job gets its time and nothing else changes. |
| AuctionStateStore.InMemoryAuctionStateStore.StoreResolutionArtifact | packages/keeper/stores/auctionStateStore.ts:196-198 | A new unsubmitted artifact joins the open ones at the end; a rewritten one keeps its place; no other changes. |
| AuctionStateStore.InMemoryAuctionStateStore.MarkResolutionArtifactSubmitted | packages/keeper/stores/auctionStateStore.ts:217-227 | The artifact leaves the open ones, the others keep their order; a known artifact gets its time and nothing else changes. |
| AuctionStateStore.InMemoryAuctionStateStore.RecordFinalizeAttempt | packages/keeper/stores/auctionStateStore.ts:135-142 | The history grows by exactly this record; a tracked auction gets its figures, keeps state, end, deposit and tracking time, and no other auction changes. |
| KeeperPipeline.EnqueuePendingResolutionJobs | packages/keeper/runner.ts:621-659 | The tick enqueues every request it finds that is neither waiting nor resolved. |
| KeeperPipeline.DispatcherTick | packages/keeper/runner.ts:265-284 | The tick marks and stores exactly what the client answered. |
| KeeperPipeline.SubmitterTick | packages/keeper/runner.ts:351-415 | The tick marks what was submitted or overtaken and stops at the first failure. |
| KeeperPipeline.DispatchWrites | packages/keeper/runner.ts:265-284 | Of every answer that is the last to its request a dispatcher tick writes exactly that artifact, field by field, and dispatches exactly the answered jobs; nothing else moves. |
| KeeperPipeline.EnqueueAllAdds | packages/keeper/runner.ts:621-659 | A monitor tick only adds jobs, for requests it found that have no artifact. |
| KeeperPipeline.EnqueueAllWrites | packages/keeper/runner.ts:646-657 | And of each such request without a job it enqueues the first one found, as it was found. |
| KeeperPipeline.SubmitAllMarks | packages/keeper/runner.ts:351-415 | A submitter tick marks exactly the artifacts up to the first failure. |
| KeeperPipeline.SubmitAllSees | packages/keeper/runner.ts:352-357 | A tracked auction gets the state the last reached submission saw it in, and stays as it was when none saw it over. |
| KeeperPipeline.RunKeeps | packages/keeper/stores/auctionStateStore.ts:156-227 | Over any run an artifact is written once and changes only by its submission, which never reverts; a job is dispatched once. |
| KeeperPipeline.StoreBatchIsOldest | packages/keeper/runner.ts:576-579 | The batch of the store-backed queue is exactly the oldest waiting jobs. |
| KeeperPipeline.RunIsFirstInFirstOut | packages/keeper/runner.ts:561-592 | Over any run with a clock that does not go back and one resolution per job, requests are dispatched in the order in which they were found. |
| LockCoordinator.InMemoryLockCoordinator.ReserveLock | packages/keeper/stores/lockCoordinator.ts:19-36 | Every attempt takes the next nonce and is refused exactly while somebody else's lease runs. |
| LockCoordinator.InMemoryLockCoordinator.ReleaseLock | packages/keeper/stores/lockCoordinator.ts:38-44 | Only the holder's own lease goes. |
| LockCoordinator.Exclusion | packages/keeper/stores/lockCoordinator.ts:13-45 | After a keeper acquires at time t nobody else acquires that auction before t + ttl unless it released first. |
| LockCoordinator.LeaseStays | packages/keeper/stores/lockCoordinator.ts:38-44 | No operation of anyone else, a late release included, takes a running lease away. |
| LockCoordinator.NoncesAreConsecutive | packages/keeper/stores/lockCoordinator.ts:23-24 | The nonces of an auction are 1, 2, 3, ... over all attempts, acquired or not. |
| LockCoordinator.NoncesFence | packages/keeper/stores/lockCoordinator.ts:23-24 | Of two attempts the later has the larger nonce. |
| RedisLock.DeleteTakesOwn | packages/keeper/stores/lockCoordinator.ts:63-70 | In any run of SET NX, GET and DEL of all keepers whose DELs all arrive before the lease their GET found runs out, at most one to an acquisition, every DEL removes exactly that lease. |
| RedisLock.Exclusion | packages/keeper/stores/lockCoordinator.ts:54-70 | In such a run two acquisitions of one auction within one time-to-live have the first holder's DEL between them. |
| RedisLock.ReleaseIsSafeIff | packages/keeper/stores/lockCoordinator.ts:63-70 | After a GET that found its own lease, whatever all keepers do with their own DELs in time, the DEL is harmless to the others exactly when it arrives before that lease runs out. |
| RedisLock.SecondReleaseRemovesOthers | packages/keeper/stores/lockCoordinator.ts:63-70 | One DEL to an acquisition is needed: two in time for the same lease, and the second takes the lease of whoever came between. |
| RedisProtocol.CompleteIsFinal | packages/keeper/stores/lockCoordinator.ts:142-186 | However the runtime reads numbers, a complete parse is unchanged by any appended bytes exactly when no bulk length reached back past the start of the buffer. |
| RedisProtocol.RunawayExample | packages/keeper/stores/lockCoordinator.ts:164-183 | Such lengths exist: the reply "$-9" is complete and empty, and grows with what follows. |
| RedisProtocol.RoundTrip | packages/keeper/stores/lockCoordinator.ts:158-183 | Every supported well-formed reply is read as what was sent, bulk payloads with line ends included, whatever follows. |
| RedisProtocol.PrefixIsIncomplete | packages/keeper/stores/lockCoordinator.ts:147-177 | Every strict prefix of such a reply is incomplete. |
| RedisProtocol.Receive | packages/keeper/stores/lockCoordinator.ts:114-119 | The handler parses after every chunk and stops at the first complete reply. |
| RedisProtocol.ReceiveAnyChunking | packages/keeper/stores/lockCoordinator.ts:107-128 | However a reply is cut into chunks it is read the same, with the chunk that completes it. |
| RedisProtocol.EncodeRedisCommand | packages/keeper/stores/lockCoordinator.ts:133-140 | The loop builds the specified bytes. |
| RedisProtocol.CommandIsInjective | packages/keeper/stores/lockCoordinator.ts:133-140 | Two commands with the same bytes are the same list of arguments. |
| AuctionMonitor.AuctionMonitor.AttemptFinalize | packages/keeper/services/auctionMonitor.ts:133-243 | For any finalizer, reader and clock: at most maxRetries + 1 calls, one record per call with consecutive retry counts and only the last a success, no call after the auction left ACTIVE, sleeps of base * (2^j - 1), and the lock released exactly when acquired; whatever other keepers do to the lock meanwhile, nobody else's lease is released and the keeper holds none after. |
| AuctionMonitor.AuctionMonitor.Attempted | packages/keeper/services/auctionMonitor.ts:163-228 | One attempt: one record with exactly its figures, and the state of the auction as seen, or resolving when a success could not be read back. |
| AuctionMonitor.AuctionMonitor.Synchronize | packages/keeper/services/auctionMonitor.ts:93-116 | State, end and deposit are taken over from the chain, the attempt history is kept, and no other auction moves. |
| AuctionMonitor.EstimateIsReward | packages/keeper/services/auctionMonitor.ts:259-265 | The estimate of the keeper is what the market reserves, and less than the deposit. |
| AvsSubmitter.CollectedProofConvinces | packages/keeper/services/avsSubmitter.ts:41-61 | Different registered operators who sign honestly convince the verifier exactly when the keeper asks for as many signatures as the verifier demands. |
| AvsSubmitter.OnlyTheExpectedIsSigned | packages/keeper/services/avsSubmitter.ts:41-74 | Nobody signs anything but the expected resolution, and the proof carries exactly the first operators and their signatures on this digest. |
| KeeperAgreement.CollectEncryptedBids | packages/keeper/runner.ts:661-722 | The loops collect every public bid and every shielded bid the keeper may preview. |
| KeeperAgreement.JobIsAbout | packages/keeper/runner.ts:646-657 | A job carries its auction, its request and handles, the auction's own starting price and every stored public bid. |
| KeeperAgreement.PublicBidsAreEligible | packages/keeper/services/cofheDispatcher.ts:303-310 | Every public bid a live auction stores decodes and passes the two filters of the keeper: none is dropped. |
| KeeperAgreement.ResolvingIsFrozen | packages/contracts/contracts/core/FhenixFairMarket.sol:558-604 | Bids, escrow and request of a resolving auction stay what they are until it is settled. |
| KeeperAgreement.PublicWinnerPasses | packages/contracts/contracts/core/FhenixFairMarket.sol:1083-1111 | The market accepts a stored public bid before the proof exactly when its amount is positive and an engine is configured. |
| KeeperAgreement.PublicResolutionPasses | packages/contracts/contracts/core/FhenixFairMarket.sol:1083-1111 | The resolution the keeper computes, submitted at any later point of the run at which the auction still resolves, passes all checks before the proof exactly when its winner bid something and an engine is configured. |
| KeeperAgreement.KeeperSettlesAuction | packages/keeper/services/avsSubmitter.ts:63-74 | End to end: collected, resolved, attested and submitted, whatever happens in between, the outcome of the keeper is recorded exactly when enough operators signed, and no bidder bid more. |
| KeeperEndToEnd.LocalTickStores | packages/keeper/runner.ts:265-284 | A tick with the local client stores, for every job of the batch, exactly that job's local resolution, still to be submitted. |
| KeeperEndToEnd.ArtifactNamesBest | packages/keeper/services/cofheDispatcher.ts:125-142 | Such an artifact names nobody with nothing, or exactly the chosen bidder, its handle, its amount and its kind. |
| KeeperEndToEnd.StoredArtifactSettles | packages/keeper/runner.ts:351-400 | From the job in the store to the chain: what was stored is what operators sign, what is sent and, with enough signatures, exactly what the market records. |
| ShieldedBacking.ReachableIsBacked | packages/contracts/contracts/core/FhenixFairMarket.sol:431-556 | In every reachable state each shielded bid of a live auction has an unspent commitment of that auction in its vault and an identity in its registry, each vault holds commitments of its own auctions only, and no winner is marked early. |
| ShieldedBacking.StepKeepsBacked | packages/contracts/contracts/core/FhenixFairMarket.sol:431-556 | Every call of anyone keeps that backing. |
| ShieldedBacking.RunKeepsStanding | packages/contracts/contracts/privacy/ShieldedEscrowVault.sol:140-163 | As long as an auction stays live, a commitment locked for it keeps its amount, its authority and its identity, whatever else happens. |
| ShieldedAgreement.ShieldedBidsAreComplete | packages/keeper/runner.ts:685-717 | While the current vault and registry of the market are the auction's own, the keeper collects every shielded bid, with its identity and its escrow. |
| ShieldedAgreement.CollectedFromOwnVaultOnly | packages/keeper/runner.ts:675-706 | A shielded bid is collected exactly when the keeper may preview it and the current vault of the market is the auction's own. |
| ShieldedAgreement.ChosenBidPasses | packages/keeper/services/cofheDispatcher.ts:296-318 | What the keeper chooses among public and shielded bids, with a positive amount, submitted at any later point at which the auction still resolves: a public choice always passes the checks before the proof, a shielded one exactly when the auction's own registry maps its bidder to a commitment whose stored handle is the bid's. |
| ShieldedAgreement.RecognitionLasts | packages/contracts/contracts/privacy/ShieldedIdentityRegistry.sol:47-70 | From the moment an auction resolves until it is settled, whether a bid is recognized and covered does not change. |
| ShieldedAgreement.OwnRegistrySuffices | packages/keeper/runner.ts:700-706 | A collected shielded bid is recognized and covered as long as the registry of the market is still the auction's own. |
| ShieldedAgreement.RotatedRegistryFails | packages/keeper/runner.ts:700-706 | Otherwise it may not be: a run from deployment in which the owner sets another registry, the keeper picks the only bid under its commitment's name, and the market refuses it. |
| ShieldedAgreement.ShieldedSubmissionIff | packages/contracts/contracts/core/FhenixFairMarket.sol:1145-1201 | The submission of an eligible shielded bid commits exactly when it is recognized, the verifier answers, and an accepted bid is covered by its commitment. |
| ShieldedAgreement.ShieldedWinnerIsPaid | packages/contracts/contracts/core/FhenixFairMarket.sol:1170-1198 | With the auction's own registry only the verifier can turn a collected shielded bid away: the vault can always pay and the registry always mark it. |
| ShieldedAgreement.KeeperSettlesShielded | packages/keeper/services/avsSubmitter.ts:63-74 | End to end for a shielded winner: the submission is answered exactly when the bid is recognized and, with enough signatures, covered; it is accepted exactly when enough operators signed, and then its identity, handle and amount are recorded. |
| HandleCodec.HandleRoundTrip | packages/frontend/src/lib/live-auction-actions.ts:77-84 | Exactly the amounts from 0 to 2^96 - 1 have a handle, of 64 hexadecimal digits, from which the keeper reads the amount back. |
| HandleCodec.HandlesAreInjective | packages/frontend/src/lib/live-auction-actions.ts:77-84 | Different amounts have different handles. |
| HandleCodec.ReadPrint | packages/frontend/src/lib/live-auction-actions.ts:82-84 | What is printed in base 10 or 16 is read back. |
| HandleCodec.DecimalRoundTrip | packages/keeper/stores/auctionStateStore.ts:337-345 | What a big integer prints in decimal it reads back. |
| StoreSerialization.HydratePersist | packages/keeper/stores/auctionStateStore.ts:235-323 | Loading a saved store gives the store with every kind of winner spelled out, maps in the same order. |
| StoreSerialization.SaveAndLoad | packages/keeper/stores/auctionStateStore.ts:445-458 | Saving and loading change nothing exactly when every artifact names its kind of winner; otherwise the first load writes "public" and later ones change nothing. |
| StoreSerialization.RecordsKeepIndexed | packages/keeper/stores/auctionStateStore.ts:103-142 | The auction and attempt operations leave a store that can be saved and loaded. |
| StoreSerialization.JobsKeepIndexed | packages/keeper/stores/auctionStateStore.ts:156-194 | So do the job operations. |
| StoreSerialization.ArtifactsKeepIndexed | packages/keeper/stores/auctionStateStore.ts:196-227 | So do the artifact operations. |

## Left out

- Checked 256-bit and 64-bit arithmetic: amounts and times are unbounded naturals.
- The chain id in digests and request ids: there is one chain.
- Rotation of the market of a pot, vault or registry (`setMarket`), ownership, UUPS upgrades and the proxy.
- `isVickrey`, which is only stored, `lastBlockTimestamp`, the winner and amount handles of a request, events and plain getters.
- The per-auction mappings of the market are one record per auction, in a sequence by auction id.
- The settlement engine, the pot and the vault are values in the state of the chain, not classes of their own: the order of their writes within one call is not captured.
- Live CoFHE providers are known by what they decode; Groth16 verification and the adapter operations no transaction uses.
- The pot's `claimForKey` and the vault's plaintext coverage views, which the market never calls.
- FairMarket.FairMarket.ClaimShieldedRefund: the vault's secret-and-nullifier refund entry, which always reverts, is not modelled.
- KeeperAgreement.KeeperSettlesAuction: for auctions with public bids only; a shielded handle that does not decode makes the whole local pick fail.
- AuctionMonitor.AuctionMonitor.AttemptFinalize: the hash, gas and error text of its result, which repeat its last record; a store whose writes fail is not modelled, and configuration numbers are naturals.
- RedisLock.Exclusion: the INCR that numbers the attempts works on another key and is not among the commands; the nonces are those of the in-memory coordinator.
- RedisProtocol.RoundTrip: integers up to 2^53 - 1, of which the reader of numbers is only taken to read the plain decimals.
- KeeperPipeline.RunKeeps: one store without crashes between its writes; answers name requests of their batch only, which the live client enforces.
- HandleCodec.HandleRoundTrip: of JavaScript's BigInt formats the plain hexadecimal, decimal, negative decimal and empty text; surrounding blanks, octal and binary are left out.
- StoreSerialization.HydratePersist: JSON itself is taken as faithful, and missing required fields other than the kind of winner are not defaulted.
- UTF-8 decoding of Redis lines, sockets, RPC, HTTP, websockets, timers, Prometheus text and the slashing log.
- `scanExpiredAuctions`, `listReadyAuctions` and `executeDueFinalizations`, which filter and then call `attemptFinalize` one by one.
- Deploy scripts, React components, wallet flows, marketplace metadata and formatting helpers.
