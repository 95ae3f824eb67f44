# DSE: a verified model

DSE is a peer-to-peer market in which a requester buys a service from a provider without
trusting it. Both lock funds by commitments to index ranges of time-locked wallets: a
type 1 commitment (T1) locks funds and is given back by an invalidating signature, a type 2
commitment (T2) pays, and either is burned on chain when no such signature appears. This
project models, in Dafny, the parts on which the money depends, and proves what they
guarantee over every run.

| files | component |
|---|---|
| `WalletModel`, `WalletBatches`, `WalletRuns`, `WalletEpochs`, `WalletAnswers`, `WalletSolvency` | the wallet contract as functions on its storage; whole batches; runs of all operations with a clock; what changes with time; what each call answers, and the owner's part in it; solvency |
| `Calldata`, `WalletContract` | the packed call data, and the contract as an object that updates its storage in place and restores it on a revert |
| `TradeModel`, `CommitHistory`, `CommitBridge` | recorded commits, the double-spend scan over index ranges, and how disjoint commits become distinct on-chain claims |
| `Handshake`, `HandshakeCausality`, `HandshakeOrder`, `HandshakeProgress`, `Indexer`, `Nodes` | the two-party exchange of commits with spawned tasks and unreliable mail; order of events; one writer at a time; what can still happen; the event loop, its store and its tasks as objects, each operation equal to a step of the exchange; two such nodes |
| `Rounds`, `IndexPool`, `HonestPair` | progressive commitment by rounds, the index pool behind it, and two honest peers with a pool each. This is the documented design; its code in `src/commitment.rs` is commented out and not part of the build |
| `PeerRetry` | whom to ask for a wallet's commit history, and when to give up |

## How it is modelled

- A wallet operation is a function from the storage it finds to the storage it leaves or a
  revert. The object in `WalletContract` runs the loops in place and is proved equal to it.
  Additions and subtractions are checked in 256 bits, as Solidity 0.8 does. A claim
  identifier is the (index, epoch) pair that is hashed. `ecrecover` is an arbitrary function
  `recover`, so nothing depends on the curve.
- The clock only moves forward. Deposits by others are operations of a run. The running
  totals in `WalletRuns.World`, and the reserves with which the epoch opened, are read by no
  operation.
- A burn stores the buffer *duration* (contracts/src/Wallet.sol:337) and a challenge compares
  it with the clock (line 364). The model does the same. The burn guard bounds the stored
  time and the time of the burn plus that duration by the epoch's end, so an entry cannot
  outlive its epoch on either reading.
- The result of the scan in `are_indexes_in_conflict` is dropped by the code; the model
  returns it.
- In the handshake, mail is never used up, so a message may be lost, late or repeated, and
  anyone may send in their own name; sender ids are authentic. Accepting a commit only spawns its verification; the
  status is written when that begins, as in the code.

- In progressive commitment a party knows its peer's wallet and owner only once a response
  has told them; what the lookup of the owner finds is an input (the code's placeholder is
  random). Two honest peers exchange one request and its response at a time, and either may
  be lost; a late response is a lost one, followed by a repeated request.

## Where the code and its documentation differ

The model follows the code. Each difference has a lemma that says exactly when they agree.

- *Challenge window.* A burned entry can be challenged only while the clock itself is below
  the buffer: `ChallengeableIff`, `NoChallengeAfterBuffer`; in a wallet deployed later than
  that no burn can ever be challenged: `FreshBurnUnchallengeable`.
- *Withdrawals.* The guard compares the clock with the epoch's duration instead of the
  epoch's end. Withdrawals wait for the end exactly in an epoch opened at time zero or of no
  length: `WithdrawalsWaitIff`, `WithdrawsInsideIff`, `WithdrawalsDoNotWait`. The accounting
  theorems hold nevertheless, with the amount so burned kept in `settled`; the challenge
  subtraction never underflows either way.
- *Redeeming after the end.* An epoch's commitments can be redeemed until the next epoch
  starts, but an owner may withdraw at the epoch's end. Up to that every redemption of indexes
  the epoch has is covered, after it only by later deposits: `EveryTransferCovered`,
  `WithdrawalCutsOffRedemptions`, `RefusedRedemption`.
- *Zero buffer.* A wallet may be deployed with a zero burn buffer; then an index can be burned
  twice: `ReburnAcceptedIff`, `ZeroBufferBurnsTwice`. Theorems on runs hold for any buffer;
  where they say less for a zero buffer they say so. Solvency asks for a positive one.
- *Range view.* `isValidCommitRange` accepts ranges that reach the largest index or beyond,
  where the comment asks for ranges within it: `RangeViewDecides`.
- *Call data.* A redeem record is 139 bytes, its fields are 138. The recovery byte is read from
  the top of `s`, not from behind it: `RedeemRoundTrip`, `RecoveryByteSurvivesIff`. Laid out by
  their fields alone, batches are decoded exactly up to one record: `PackedRoundTripIff`.
- *Requester flag.* The requester stores the received trade with `is_requester` unset, against
  the field's comment, and then takes itself for its counter party: `CompletesIffFlagSet`.
- *Immediate status change.* The comment at src/indexer.rs:372-375 says that acceptance changes
  the status at once. It does not, and one writer at a time is kept exactly when no commit is
  accepted in between, and only then is the status sure to move forward: `OrderKeptIff`,
  `ForwardIffNoOverlap`, `OverlapMovesBack`.
- *Retries.* Each peer is asked four times, where the comment says three: `ScheduleHolds`.
- *Addresses in commitments.* A request for a round is answered before the peer's wallet is
  known, and the commitment then names address zero for good. Commitments are as documented
  exactly when the wallet is told in time: `AsAgreedIffToldInTime`, `CommitmentsAreAsAgreedIff`,
  `MisaddressedIff`; between honest peers, exactly with four rounds or more: `HonestAsAgreedIff`.
- *Rounds.* A request for one round beyond the agreed number is answered once everything owed
  has been received: `ExtraRoundIff`. Reusing a query id loses indexes from the pool:
  `StartKeepsPartitionIff`, `EndKeepsPartitionIff`. With 99 indexes no more than 99 rounds can
  be finished: `PoolsDecide`.

## Model

| member | source | states |
|---|---|---|
| WalletAnswers.RedeemSucceedsExactly | contracts/src/Wallet.sol:175-239 | a redemption succeeds exactly for different indexes, none claimed or burning, each with the owner's signature on the type 2 commitment to the recipient and on its invalidation, and the funds; it claims exactly those and pays an index value for each |
| WalletBatches.RedeemSplits | contracts/src/Wallet.sol:190-236 | redeeming a concatenated batch is redeeming its parts in sequence: same verdict, same final storage |
| WalletBatches.RedeemIsOrderFree | contracts/src/Wallet.sol:190-236 | the order of a batch changes neither verdict nor result |
| WalletAnswers.BurnSucceedsExactly | contracts/src/Wallet.sol:252-346 | with a positive buffer a burn succeeds exactly in its window, for different free indexes, each with the owner's signature on the commitment of its kind: type 1 for the owner, type 1 for the recipient, type 2 to the recipient |
| WalletAnswers.BurnStoresExactly | contracts/src/Wallet.sol:295-343 | it stores exactly these entries, the recipient as invalidator and an hour more for kind 1 alone, and adds their value to the pending amount |
| WalletBatches.BurnSplits | contracts/src/Wallet.sol:273-343 | burning a concatenated batch is burning its parts in sequence at the same time |
| WalletBatches.ReburnAcceptedIff | contracts/src/Wallet.sol:289-292 | the burning check lets the same record pass twice exactly when the stored time is zero |
| WalletAnswers.ChallengeSucceedsExactly | contracts/src/Wallet.sol:350-379 | a challenge succeeds exactly for different entries still ahead of the clock, with the signature of the invalidator stored for each on the number stored, and a covering pending amount; it removes exactly those |
| WalletBatches.ChallengeUndoesBurn | contracts/src/Wallet.sol:273-378 | challenging exactly the entries of a burn, in any order, restores the whole storage |
| WalletRuns.RunKeepsInv | contracts/src/Wallet.sol:77-379 | the invariant of entries, claims, pending amount and money holds over every run |
| WalletRuns.AccountingHolds | contracts/src/Wallet.sol:252-379 | in every run no pair is claimed and burning, stored times are below the epoch's end, and pending plus settled covers index value times current entries, exactly so with a positive buffer |
| WalletRuns.ChallengeNeverUnderflows | contracts/src/Wallet.sol:363-378 | in every run the only reasons to refuse a challenge are a repeated or expired entry or a wrong signature: the subtraction never underflows |
| WalletRuns.EveryCoinAccountedFor | contracts/src/Wallet.sol:80-239 | balance, redeemed, burned and withdrawn add up to the deposits; redeemed is index value times claimed pairs, over all epochs |
| WalletAnswers.NothingWithoutTheOwner | contracts/src/Wallet.sol:202-337 | in every run each claimed index carries the owner's two signatures for that epoch, and each burn entry the owner's signature on a commitment of the kind whose time and invalidator are stored |
| WalletAnswers.OnlyTheOwnerWithdraws | contracts/src/Wallet.sol:155-167 | any other sender is refused; in runs without the owner's call nothing is withdrawn, and within an epoch reserves stay and nothing is settled |
| WalletRuns.BurnGuardBounds | contracts/src/Wallet.sol:256-259 | the guard puts the burn time plus both buffers before the epoch's end, and the buffers within a duration |
| WalletEpochs.ApplyKeepsOtherEpochs | contracts/src/Wallet.sol:141-379 | no operation changes claims or entries of another epoch |
| WalletEpochs.PastEpochsAreFrozen | contracts/src/Wallet.sol:256-379 | after a rollover the older claims and entries stay as they are in every run, and no challenge accepts such an entry |
| WalletEpochs.ChallengeableIff | contracts/src/Wallet.sol:295-364 | after a burn its entry can be challenged exactly by the invalidator's signature while the clock is below the stored duration |
| WalletEpochs.NoChallengeAfterBuffer | contracts/src/Wallet.sol:337-364 | once the clock itself is past both buffers no challenge succeeds in any run |
| WalletEpochs.FreshBurnUnchallengeable | contracts/src/Wallet.sol:337-364 | a run: deployed past both buffers, a burn of the first epoch is refused every challenge, even at once |
| WalletEpochs.ZeroBufferBurnsTwice | contracts/src/Wallet.sol:289-340 | a run: with a zero buffer one index is burned twice, and two values are pending for one entry |
| WalletEpochs.RedeemingSignatureChallenges | contracts/src/Wallet.sol:209-332 | a T2 record can be redeemed exactly by the signature that challenges the burn of the same commitment |
| WalletEpochs.EpochLifetime | contracts/src/Wallet.sol:141-151 | an epoch opens with the settled balance as reserves, lasts exactly its duration, and takes burns until both buffers before its end |
| WalletEpochs.EpochKeepsItsTerms | contracts/src/Wallet.sol:141-151 | whatever happens within an epoch, its end and its opening reserves stay |
| WalletEpochs.WithdrawalsWaitIff | contracts/src/Wallet.sol:155-167 | in every run of an epoch withdrawals wait for its end exactly when it began at time zero or lasts no time |
| WalletEpochs.WithdrawsInsideIff | contracts/src/Wallet.sol:155-167 | some run of a deployed wallet withdraws within an active epoch exactly when epochs last and one can begin at a positive time |
| WalletEpochs.WithdrawalsDoNotWait | contracts/src/Wallet.sol:155-167 | past one duration the owner can withdraw at any time of any run, exactly when the pending amount is covered |
| WalletSolvency.Pigeonhole | contracts/src/Wallet.sol:129-132 | claims and entries of an epoch are distinct indexes of its range |
| WalletSolvency.SecurityHalfSurvives | contracts/src/Wallet.sol:129-146 | redeemed plus pending is at most half the opening reserves; pending is covered; until a withdrawal the other half stays |
| WalletSolvency.RunKeepsBacked | contracts/src/Wallet.sol:141-379 | signing in the range of the opening reserves and an owner who withdraws after the end keep the wallet backed over every run, also when commitments are redeemed after a withdrawal |
| WalletSolvency.EveryTransferCovered | contracts/src/Wallet.sol:80-86 | then a redemption lacks funds exactly when the opening reserves are withdrawn and later deposits fall short; pending is always covered, so the next epoch can start at the end of the last |
| WalletSolvency.ReservesTellWithdrawal | contracts/src/Wallet.sol:146-166 | within an epoch the reserves are the opening ones exactly until the owner withdraws |
| WalletSolvency.WithdrawalCutsOffRedemptions | contracts/src/Wallet.sol:155-236 | a withdrawal at the end turns an acceptable and covered redemption into one refused in every run without a deposit |
| WalletSolvency.RefusedRedemption | contracts/src/Wallet.sol:155-236 | such a run from deployment, for every wallet with a signed redemption of index 1, the epoch's only one |
| WalletSolvency.RangeViewDecides | contracts/src/Wallet.sol:107-138 | what the view accepts, refuses and panics on, and that it agrees with the documented bound exactly for ranges ending at the largest index |
| WalletContract.Wallet.constructor | contracts/src/Wallet.sol:55-67 | a deployed wallet starts empty, in epoch zero |
| WalletContract.Wallet.BurnPendingAmount | contracts/src/Wallet.sol:80-86 | sends the pending amount away and zeroes it |
| WalletContract.Wallet.StartEpoch | contracts/src/Wallet.sol:141-151 | in place, equals the function on storage; a revert restores |
| WalletContract.Wallet.Withdraw | contracts/src/Wallet.sol:155-167 | in place, equals the function on storage; a revert restores |
| WalletContract.Wallet.RedeemdType2 | contracts/src/Wallet.sol:175-239 | the loop over the call data, equal to redeeming the decoded batch; a revert restores |
| WalletContract.Wallet.BurnCommits | contracts/src/Wallet.sol:252-346 | the loop over the call data, equal to burning the decoded batch; a revert restores |
| WalletContract.Wallet.ChallengeBurnCommits | contracts/src/Wallet.sol:350-379 | unequal lengths revert; otherwise equal to challenging the listed entries; a revert restores |
| WalletContract.ChallengeCallExactly | contracts/src/Wallet.sol:350-379 | such a call succeeds exactly when each listed entry is challenged by the signature made of the r, s and v listed for it |
| Calldata.LoadShiftReadsField | contracts/src/Wallet.sol:178-181 | a 32-byte load and a shift read exactly the leading bytes at an offset |
| Calldata.RedeemRoundTrip | contracts/src/Wallet.sol:176-229 | decoding recovers count, recipient and every redeem record at stride 139, except that v is read from s |
| Calldata.BurnRoundTrip | contracts/src/Wallet.sol:261-335 | decoding recovers count, recipient and every burn record at stride 74, except that v is read from s |
| Calldata.RecoveryByteSurvivesIff | contracts/src/Wallet.sol:93-103 | a signature is read back whole exactly when v is the top byte of s |
| Calldata.PackedRoundTripIff | contracts/src/Wallet.sol:169-197 | without the extra byte between records, every batch of n is decoded exactly for n at most one |
| CommitHistory.ScanDecidesHull | src/storage.rs:56-65 | for ordered endpoints the nested scan finds something exactly when a recorded range meets the hull of the proposed ones |
| CommitHistory.NoConflictMeansDisjoint | src/storage.rs:56-65 | finding nothing means sharing no index |
| CommitHistory.SingleRangeIsExact | src/storage.rs:56-65 | for one proposed range the scan is exact |
| CommitHistory.ExactIffNoGaps | src/storage.rs:293-298 | the scan is exact about every recorded commit exactly when the proposed ranges leave no gap |
| CommitHistory.LiveCommitsStayDisjoint | src/storage.rs:34-72 | vetted appends and invalidations keep live commits pairwise disjoint |
| CommitHistory.NeverRevived | src/storage.rs:34-44 | commits are kept, a dead T1 stays dead, and a T2 stays live |
| CommitHistory.ConflictsExactly | src/storage.rs:46-68 | a recorded commit is in conflict exactly when it is a T2 or not invalidated, and the scan finds a pair |
| CommitHistory.InvalidationFrees | src/storage.rs:34-54 | an invalidation takes exactly the T1 commits of its id out of conflict |
| CommitHistory.RecommitIff | src/storage.rs:34-72 | after it a commit is taken exactly when nothing but those and dead commits were in its way |
| CommitHistory.History.UpdateInvalidatingSignature | src/storage.rs:34-44 | sets the signature on exactly the commits of the id |
| CommitHistory.History.AreIndexesInConflict | src/storage.rs:46-68 | returns the first live commit in conflict, or none exactly when there is none |
| CommitHistory.History.AppendVetted | src/storage.rs:46-72 | the scan and then the append: taken exactly when no live commit is in conflict, and live commits stay disjoint |
| CommitHistory.IsCommitValid | src/storage.rs:357-398 | valid exactly for ordered endpoints, the trade's id, the owner's signature, the requester's address as invalidator, and a waiting status |
| CommitBridge.DisjointCommitsGiveDistinctClaims | src/storage.rs:46-68 | disjoint live commits taken apart give distinct wallet indexes |
| CommitBridge.RedeemAllSucceeds | contracts/src/Wallet.sol:190-236 | distinct unclaimed signed claims are all accepted, in any order and any division into calls |
| CommitBridge.VettedCommitsRedeem | contracts/src/Wallet.sol:190-234 | the T2 indexes of any vetted history can all be redeemed |
| HandshakeCausality.ServiceOnlyAfterExchange | src/indexer.rs:355-490 | in every run the provider fulfils only after T1, T1 and T2 were sent and accepted in turn |
| HandshakeCausality.SendsNeverPanic | src/commit_procedure.rs:103-139 | a spawned send always finds a request to make |
| HandshakeCausality.RequesterIsFirst | src/server.rs:315-331 | in every run a provider has stored the trade only if the requester has |
| HandshakeProgress.CompletesIffFlagSet | src/indexer.rs:299-312 | the exchange can complete exactly when the requester's copy has its flag set |
| HandshakeOrder.AtMostOneSend | src/indexer.rs:76-110 | in every run a node has at most one send of a trade, and marks it exactly then |
| HandshakeOrder.OrderKeptIff | src/indexer.rs:372-375 | one up-to-date writer on each side is kept exactly by steps that accept no commit while an accepted one is unbegun |
| HandshakeOrder.StatusOnlyMovesForward | src/commit_procedure.rs:186-236 | without such overlaps a node has one current writer and its status moves forward at every step |
| HandshakeOrder.ForwardIffNoOverlap | src/indexer.rs:372-375 | after a step both statuses move forward in all runs without further overlaps exactly when the step itself does not overlap |
| HandshakeProgress.OverlapMovesBack | src/commit_procedure.rs:60-97 | with one, a run exists in which the provider falls back from sending to processing |
| HandshakeProgress.FailedSendIsRetried | src/commit_procedure.rs:129-136 | a send that fails is reported, and the next tick spawns another of the same status |
| HandshakeProgress.NoDeadEnd | src/indexer.rs:68-490 | every run without overlaps, with any failures, refusals and losses, can be continued to the end of the exchange |
| HandshakeProgress.BothCanWaitForGood | src/commit_procedure.rs:119-136 | such a run, after which both wait for each other and only a message sent before, arriving again, moves either |
| Indexer.Indexer.Tick | src/indexer.rs:76-99 | for every trade at once, the tick of the handshake's node |
| Indexer.Indexer.Transmit | src/commit_procedure.rs:103-117 | the send's step in the handshake: the request of its status, to the counter party |
| Indexer.Indexer.Answered | src/commit_procedure.rs:119-128 | any answer writes the send's own copy back in its next status and queues the result |
| Indexer.Indexer.Failed | src/commit_procedure.rs:129-136 | an error leaves the trade and queues the result |
| Indexer.Indexer.HandleProcedureEvent | src/indexer.rs:100-110 | either queued result clears the mark of that trade only, as the handshake's report |
| Indexer.Indexer.HandleCommit | src/indexer.rs:355-490 | acknowledged exactly in the awaiting status and from the counter party; then one verification is spawned with a copy of the trade |
| Indexer.Indexer.BeginVerify | src/commit_procedure.rs:46-62 | the first write of a verification, whatever was written since it was spawned |
| Indexer.Indexer.EndVerify | src/commit_procedure.rs:95-97 | its second write |
| Nodes.Nodes.Perform | src/indexer.rs:68-490 | two nodes' objects make every step of the handshake exactly |
| Nodes.Nodes.PerformAll | src/indexer.rs:68-490 | over any steps the objects are in the state of the handshake's run; a stored trade that is to be fulfilled has gone through the exchange in order |
| Rounds.LossIsBounded | src/commitment.rs:381-392 | against any peer a requester has sent at most twice the received plus two, a provider at most half rounded up, and nothing before everything owed for earlier rounds |
| Rounds.CommitmentIsKept | src/commitment.rs:511-513 | a round's commitment is the same however often it is asked for |
| Rounds.CommitmentsAreAsAgreedIff | src/commitment.rs:504-541 | over any requests and replies the commitments are as documented exactly when each that names the counter party is made with its address stored |
| Rounds.AsAgreedIffToldInTime | src/commitment.rs:343-357 | with working lookups, exactly when the wallet is told before any of them |
| Rounds.AsAgreedIffNoneNames | src/commitment.rs:347-353 | with lookups that find another owner, exactly when none is made |
| Rounds.MisaddressedIff | src/commitment.rs:221-249 | a peer that never tells its wallet can bring about a misaddressed commitment for any number of rounds (a provider's, if there are any) |
| Rounds.ExtraRoundIff | src/commitment.rs:387-391 | one round beyond the agreed number is given exactly when everything owed has been received |
| Rounds.Procedure.NextExpectedRound | src/commitment.rs:458-470 | the loop finds the first round owed and not received |
| Rounds.Procedure.IsValidRoundRequest | src/commitment.rs:381-392 | the check on a requested round |
| Rounds.Procedure.FindCommitmentForRound | src/commitment.rs:504-545 | returns the round's commitment, made from a drawn index only if there is none |
| Rounds.Procedure.ReceivedRequest | src/commitment.rs:221-249 | answered with the round's commitment exactly for this query, a valid round, and a commitment made or an index left |
| Rounds.Procedure.ReceivedResponse | src/commitment.rs:300-366 | a response to a pending request is taken by its own kind, or fails, and ends it; others are ignored |
| Rounds.Procedure.Handle | src/commitment.rs:394-454 | asks for the wallet until it is known, then for the next owed round, one request at a time, and stops when nothing is owed |
| IndexPool.PoolIsConserved | src/commitment.rs:709-767 | unused, committed and spent indexes partition the initial pool in every run, so no index backs two commitments |
| IndexPool.StartKeepsPartitionIff | src/commitment.rs:845-858 | starting a procedure keeps the partition exactly when it replaces no commitment |
| IndexPool.EndKeepsPartitionIff | src/commitment.rs:725-739 | ending one keeps it exactly when it replaces no record of spent commitments |
| IndexPool.ReleaseAllIsSorting | src/commitment.rs:726-739 | the ending loop frees the T1 indexes and records the T2 commitments, in order |
| IndexPool.EndFreesAndSpends | src/commitment.rs:726-739 | of an ended procedure the T1 indexes can be drawn again and the T2 commitments are spent |
| IndexPool.InitialPool | src/commitment.rs:667-671 | the pool starts as the indexes 1 to 99 |
| IndexPool.Commitments.constructor | src/commitment.rs:667-679 | the filling loop gives the indexes 1 to 99 |
| IndexPool.Commitments.FindIndex | src/commitment.rs:898-900 | takes the last unused index out of the pool |
| IndexPool.Commitments.CollectSent | src/commitment.rs:727-739 | the loop over the sent commitments, in place |
| HonestPair.CommittingIsAsking | src/commitment.rs:504-545 | drawing from the pool, a peer's book changes as any procedure's does on a request |
| HonestPair.ReceivingIsTaking | src/commitment.rs:300-366 | what a peer gets from an exchange is what any procedure takes from the response |
| HonestPair.OtherResponsesIgnored | src/commitment.rs:309-366 | a response of another query, or a failure, changes nothing |
| HonestPair.LossLeavesCommitment | src/commitment.rs:504-541 | a lost response leaves the answerer committed and an index poorer, as if it had arrived, and the asker with nothing |
| HonestPair.MeetAllKeepsInv | src/commitment.rs:381-470 | in every run of two honest peers what one has received the other has sent, rounds are received in order, and indexes left plus commitments made never change |
| HonestPair.SomeRequestIsValid | src/commitment.rs:381-437 | of two peers that know each other and are not done, one asks for a round that the other may answer |
| HonestPair.HonestPeersFinish | src/commitment.rs:381-470 | whatever is lost, they are done exactly after N + N / 2 answered requests |
| HonestPair.FairSchedulesFinishIff | src/commitment.rs:381-470 | every schedule in which each side asks and is answered as often as something is missing, whatever else happens in between, finishes both, exactly when the indexes suffice |
| HonestPair.CanFinishIff | src/commitment.rs:381-470 | whatever has happened, they can still finish exactly when each has indexes for the commitments it still has to make |
| HonestPair.PoolsDecide | src/commitment.rs:667-671 | from the beginning: exactly when the pools hold N and N / 2 indexes |
| HonestPair.PairKeepsPools | src/commitment.rs:898-900 | both pools stay partitioned, also when responses are lost |
| HonestPair.HonestAsAgreedIff | src/commitment.rs:403-453 | with working lookups all commitments of all their runs are as documented exactly for no round or four and more |
| PeerRetry.ScheduleHolds | src/ch_request.rs:27-38 | each peer is asked in order exactly four times, call 4n + 1 finds none, call 4n + 5 is the first to panic |
| PeerRetry.QueriesRunOut | src/ch_request.rs:27-38 | every query lowers peers left, then queries left |
| PeerRetry.LoadingState.QueryFrom | src/ch_request.rs:27-38 | one query in place |
| PeerRetry.LoadCommitHistory | src/ch_request.rs:84-152 | over any events the loop asks a prefix of the schedule and returns what its specification says, and never panics |
| PeerRetry.TickDecides | src/ch_request.rs:118-149 | a tick returns Loaded once the last batch is there; until then it asks the next scheduled peer exactly when nothing is acknowledged or the time is out, and gives up exactly at the schedule's end |
| PeerRetry.BatchDecides | src/ch_request.rs:90-115 | a batch neither ends the loop nor asks anybody |

## Left out

- The token beyond a balance: transfers out of the wallet revert on a short balance only, recipients are outside accounts, and a transfer's returned flag is ignored.
- Hashes and signatures: identifiers and messages are compared by content, and recovery is an arbitrary function.
- Gas, reentrancy through the token, and the upper bound of the clock.
- The meaning of a failed validity check or of a found conflict in a verification: the code decides nothing there, so the handshake models order, not contents. Gossiped commits are recorded without a check; `LiveCommitsStayDisjoint` is about vetted appends.
- CommitHistory.IsCommitValid: the recovered signer is a parameter, because the commit's hash is not modelled.
- A second StartCommit for the same trade id in the handshake: it would overwrite the requester's trade. `Indexer.Indexer.HandleStartCommit` does overwrite.
- Liveness of the live handshake under loss: the code fixes no recovery rule. What is proved is that no ordered run is a dead end as long as old messages may arrive again, and that both can wait for good when they do not.
- Indexer.Indexer.EndVerify: without loading the history before it, which does not touch the trade.
- Rounds.Procedure: the number of rounds is a parameter, not computed from the charge.
- HonestPair: other procedures that draw from the same pools meanwhile; a request that is not answered ends as a failed one.
- IndexPool: that a procedure has an invalidating signature before it ends, and the received commitments it then files.
- PeerRetry.LoadCommitHistory: which commits of an update are kept, and the clock behind its timeouts, which are inputs.
- Network plumbing, HTTP and WebSocket interfaces, persistence, queries and bids, wallets of interest.
