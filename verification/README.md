# Secure-Order: a verified model

Secure-Order sequences encrypted transactions in first-in-first-out order, commits to each
batch before decrypting it, and settles on a constant-product exchange. This project models
the parts where that promise is decided and proves what they guarantee, for every input,
every run of calls and every interleaving. `dafny verify dfyconfig.toml` checks it all.

| files | part of the system |
|---|---|
| `IntegerMath`, `DexModel`, `DexEffects`, `DexEngine`, `DexTheorems` | the exchange contract: state and calls, what each call does and when it succeeds, its own methods, theorems over runs |
| `AdmissionQueue`, `AdmissionTheorems`, `AdmissionDelivery` | the single-node queue: submitters, admission goroutine, drainers, cancellation, close |
| `Pipeline`, `SliceMempool`, `LeaderLease` | one Raft node: FSM, collector, mempool, batch loop, lease ticker |
| `ThreadPool`, `BatchDecrypt` | the C++ worker pool and the chunked parallel decryption |
| `Transactions`, `Hashing`, `Commitments`, `OrderFields`, `PrintfOrders`, `OrderVerifier` | hash preimages, order rendering in both layers, the on-chain verifier |
| `KeyedMempool` | the C++ mempool with its lazily cleaned arrival deque |

How the parts are modelled:

- Contracts and containers are classes with the source's fields, each method proved against a
  function of the old state. Integers are unbounded; every checked `uint256` operation is
  written out and a failing one reverts.
- `MAX_UINT256` is defined by its 256 bits, and `IntegerMath.MaxWordValue` gives the numeral; the
  comment there says why no proof about products should have the numeral in scope.
- Concurrent parts are transition systems. An event is one channel operation, one `select`
  branch or one critical section; a list of events is a run, and an event that is not enabled
  in a state does nothing, so every list is a run and every run is a list.
- SHA-256, libsodium and the commitment function are parameters. Collision freedom is assumed
  only where a statement says so. JSON decoding is part of a log entry: decoded or malformed.
- The committed Raft log is given. Replicas agree on it, one may have seen more of it.

Where the code does less than its comments say, the model follows the code:

- Deposits can dilute holders (line 239 of the contract says they do not):
  `DexTheorems.DilutionExample`, with the exact conditions in `DexTheorems.ALimitedDilutionCondition`
  (token B per share) and `DexTheorems.CallKeepsValuePerShare` (reserve product per squared share).
- A removal always lowers the product (line 328 says it should not): `DexEngine.PlanWithdrawal`.
- Fees are set aside and never paid out (lines 45 and 422 say they are reinvested), so swaps
  raise the product only by rounding: `DexTheorems.SwapRaisesProduct`.
- The first provider gets the deposit back only if shares times reserve fits in a word:
  `DexTheorems.FirstProviderRoundTrip`, and it may not: `DexTheorems.FirstProviderStuck`.
- The chunk guard commented as never triggering does: `BatchDecrypt.TrailingChunkCanBeEmpty`, with
  the exact condition in `BatchDecrypt.EmptyChunkIff`.
- Stale keys in the C++ deque are not harmless when a key is added back:
  `KeyedMempool.ReaddedKeyDrainsTwice`, with the exact condition in `KeyedMempool.DrainIsOrderedMapIff`.
- The pipe format does not keep all field assignments apart (line 26 of `commitment.go`). Among the
  orders the Go layer can format, exactly those without a pipe in order ID, user or token and
  without an amount, a price and a timestamp inside the nonce are kept apart:
  `PrintfOrders.GoRenderingDecodesIff`. Among the contract's orders of seven arbitrary strings,
  exactly those without any pipe: `OrderFields.RenderingDecodesIff`.
- An error from a submission does not mean that the transaction is out:
  `AdmissionTheorems.ErrorDespiteAdmission`, with the exact condition in `AdmissionTheorems.ErrorMeansOutIff`.
- After close a node can commit a wrong batch: `Pipeline.CloseCanCommitWrongBatch`, with the exact
  condition in `Pipeline.RefinesCutIffNoneDropped`.
- The batch preimage does not fix where one ciphertext ends: `Commitments.NeighboursCanMerge`, with the
  exact condition among batches of one size in `Commitments.BatchRecoverableIff`.
- `active_tasks` counts queued and running tasks, not only popped ones (header comment):
  `ThreadPool.CounterIsExact`.

## Model

| member | source | states |
|---|---|---|
| `DexEngine.Sqrt` | contracts/MockDEXEngine.sol:617-630 | the Babylonian loop ends with the floor square root, overflows nowhere inside, and reverts exactly at the largest word |
| `IntegerMath.BabylonianStep` | contracts/MockDEXEngine.sol:624-627 | one step from any positive estimate never falls below the root |
| `IntegerMath.SwapProduct` | contracts/MockDEXEngine.sol:394-401 | the payout formula leaves some of the reserve and raises the product by exactly the remainder |
| `DexModel.Fee` | contracts/MockDEXEngine.sol:387-389 | three in a thousand, rounded down |
| `DexModel.DepositWithinOffer` | contracts/MockDEXEngine.sol:244-253 | a deposit takes no more than offered, so the assert cannot fail |
| `DexModel.ClaimsShrink` | contracts/MockDEXEngine.sol:313-333 | a withdrawal lowers the product strictly and empties the pool exactly when all shares are burned |
| `DexModel.SharesBound` | contracts/MockDEXEngine.sol:336-337 | nobody holds more shares than exist, so burning never underflows |
| `DexModel.ApplyKeepsInv` | contracts/MockDEXEngine.sol:156-509 | every call, accepted or reverted, keeps: shares add up, the product is exact, the pool holds both tokens exactly while shares exist, every word fits |
| `DexEngine.CheckSwap` | contracts/MockDEXEngine.sol:379-432 | the swap checks pass exactly when the input, slippage and overflow checks do; the reserve and product checks never fail |
| `DexEngine.PlanDeposit` | contracts/MockDEXEngine.sol:221-273 | the three branches compute the model's deposit and revert exactly on its conditions, without division by zero |
| `DexEngine.PlanWithdrawal` | contracts/MockDEXEngine.sol:305-333 | both claims, the exact revert condition, and a product drop every time |
| `DexEngine.MockDexEngine.constructor` | contracts/MockDEXEngine.sol:18-62 | deployment is the empty pool and satisfies the invariant |
| `DexEngine.MockDexEngine.MintTestTokens` | contracts/MockDEXEngine.sol:156-168 | succeeds exactly on the model's condition, adds both amounts to the user's balances, and changes nothing on a revert |
| `DexEngine.MockDexEngine.AddLiquidity` | contracts/MockDEXEngine.sol:204-286 | succeeds exactly on the model's condition; the caller pays what the reserves gain, on the terms of the three branches, and gets and is told the shares that the total gains; a revert changes nothing |
| `DexEngine.MockDexEngine.FillReserves` | contracts/MockDEXEngine.sol:231-233 | overwriting the reserves on a first deposit equals adding to them |
| `DexEngine.MockDexEngine.CommitDeposit` | contracts/MockDEXEngine.sol:259-282 | the writes of a deposit |
| `DexEngine.MockDexEngine.RemoveLiquidity` | contracts/MockDEXEngine.sol:300-346 | succeeds exactly on the model's condition; per token the caller gets and is told what the reserve loses, the proportional part rounded down; shares and total fall by the amount burned; reports a product drop; a revert changes nothing |
| `DexEngine.MockDexEngine.CommitWithdrawal` | contracts/MockDEXEngine.sol:324-341 | the writes of a withdrawal |
| `DexEngine.MockDexEngine.SwapExactTokenAForTokenB` | contracts/MockDEXEngine.sol:374-437 | succeeds exactly on the model's condition, which names neither the reserve nor the product check; the caller pays all of the input, three in a thousand go to the fees and the rest to the reserve, and the caller gets and is told what the other reserve loses, the rounded-down payout, at least the minimum |
| `DexEngine.MockDexEngine.CommitAForB` | contracts/MockDEXEngine.sol:416-432 | the writes of an A-for-B swap |
| `DexEngine.MockDexEngine.SwapExactTokenBForTokenA` | contracts/MockDEXEngine.sol:450-509 | the same with the tokens exchanged |
| `DexEngine.MockDexEngine.CommitBForA` | contracts/MockDEXEngine.sol:488-504 | the writes of a B-for-A swap |
| `DexEngine.MockDexEngine.GetSwapOutput` | contracts/MockDEXEngine.sol:541-583 | a preview shows what the swap pays, and never reverts where the swap succeeds |
| `DexEngine.MockDexEngine.GetLPValue` | contracts/MockDEXEngine.sol:591-605 | reverts exactly on overflow; shows the proportional part of both reserves, rounded down; returns what burning all the holder's shares pays whenever that succeeds |
| `DexEffects.SwapEffect` | contracts/MockDEXEngine.sol:379-432 | every successful swap, in either direction: the input balance falls by the whole input, the fee grows by three in a thousand rounded down, the input reserve by the rest, and the output moves from reserve to caller, the rounded-down payout and at least the minimum |
| `DexEffects.SwapSucceedsIff` | contracts/MockDEXEngine.sol:379-432 | a swap on a live pool succeeds if and only if the caller can pay, the minimum fits under the payout and no word overflows |
| `DexEffects.RemovalEffect` | contracts/MockDEXEngine.sol:305-341 | every successful removal: per token the caller gains what the reserve loses, the proportional part rounded down and not nothing; shares and total fall by the amount burned |
| `DexEffects.RemovalSucceedsIff` | contracts/MockDEXEngine.sol:305-341 | a removal succeeds if and only if the caller holds the shares, they are worth a unit of each token and no word overflows |
| `DexEffects.DepositEffect` | contracts/MockDEXEngine.sol:221-282 | every successful deposit: the caller pays what the reserves gain and gets the shares the total gains, on the terms of the three branches, at least a thousand shares for a first one |
| `DexEffects.FirstDepositSucceedsIff` | contracts/MockDEXEngine.sol:221-235 | a first deposit succeeds if and only if the caller can pay it and its product is at least a million and below the largest word |
| `DexEffects.LaterDepositSucceedsIff` | contracts/MockDEXEngine.sol:237-272 | a later deposit succeeds if and only if the caller can pay it, it mints a share and no word overflows |
| `DexEffects.MintEffect` | contracts/MockDEXEngine.sol:156-168 | a mint adds to the two balances of its user and to nothing else, exactly when it is to a real address, of something, and fits |
| `DexTheorems.Run` | contracts/MockDEXEngine.sol:156-509 | the invariant holds after every list of calls |
| `DexTheorems.PoolConsistent` | contracts/MockDEXEngine.sol:156-509 | in every state reachable from deployment the supply of each token is everything minted, shares add up, the product is exact, and no shares exist exactly when both reserves, or either, are zero |
| `DexTheorems.CallMovesTokens` | contracts/MockDEXEngine.sol:156-509 | per token, one call changes balances plus reserve plus fees only by what it mints |
| `DexTheorems.OthersUntouched` | contracts/MockDEXEngine.sol:156-509 | a call leaves everyone else's tokens and shares alone |
| `DexTheorems.Conservation` | contracts/MockDEXEngine.sol:156-509 | over every run, balances plus reserve plus fees grow exactly by the successful mints |
| `DexTheorems.SwapRaisesProduct` | contracts/MockDEXEngine.sol:428-432 | a swap raises the stored product by exactly the remainder it rounds away, in either direction |
| `DexTheorems.SwapsRaiseProduct` | contracts/MockDEXEngine.sol:374-509 | over every run of swaps the product and the fees never fall and the supply is unchanged |
| `DexTheorems.NoFreeLunch` | contracts/MockDEXEngine.sol:374-509 | no run of swaps leaves the traders together with no less of either token and more of one |
| `DexTheorems.NoFreeLunchWithLiquidity` | contracts/MockDEXEngine.sol:204-509 | the same over every run of swaps, removals and undiluting deposits that ends with as many shares as it began with |
| `DexTheorems.NetInIsReserveGrowth` | contracts/MockDEXEngine.sol:388-420 | over a run of A-for-B swaps reserve A grows by the post-fee inputs |
| `DexTheorems.SplittingSwapsNeverPaysMore` | contracts/MockDEXEngine.sol:398-420 | consecutive swaps pay at most what one swap of the summed post-fee input pays |
| `DexTheorems.MirrorRun` | contracts/MockDEXEngine.sol:374-509 | exchanging the tokens commutes with every run of swaps |
| `DexTheorems.SplittingSwapsNeverPaysMoreBForA` | contracts/MockDEXEngine.sol:472-493 | the same for B-for-A swaps |
| `DexTheorems.RemovesKeepRatio` | contracts/MockDEXEngine.sol:300-346 | over every run of removals neither reserve per share falls |
| `DexTheorems.SplittingBurnsNeverPaysMore` | contracts/MockDEXEngine.sol:313-326 | burning in pieces, by anyone, pays at most what one burn pays, in both tokens |
| `DexTheorems.RemovePerShare` | contracts/MockDEXEngine.sol:311-337 | one removal never lowers either reserve per share |
| `DexTheorems.ClaimIsProportional` | contracts/MockDEXEngine.sol:311-314 | a claim is the proportional part of the reserve, rounded down |
| `DexTheorems.DepositIsProportional` | contracts/MockDEXEngine.sol:237-255 | a deposit uses its scarce token in full, matches it at the pool's ratio and mints what its token A covers, rounded down |
| `DexTheorems.MintCovered` | contracts/MockDEXEngine.sol:244-255 | minted shares are covered by the token A deposited and by the token B plus one unit |
| `DexTheorems.AddPerShare` | contracts/MockDEXEngine.sol:237-272 | a deposit never lowers A per share; B-limited never lowers B per share; A-limited lowers it by less than one unit |
| `DexTheorems.ALimitedDilutionCondition` | contracts/MockDEXEngine.sol:244-255 | an A-limited deposit spares B per share if and only if one remainder, weighed, is at most the other |
| `DexTheorems.ALimitedValueCondition` | contracts/MockDEXEngine.sol:244-272 | an A-limited deposit does not lower reserveA*reserveB over totalShares squared if and only if an inequality between the two remainders holds |
| `DexTheorems.CallKeepsValuePerShare` | contracts/MockDEXEngine.sol:204-509 | a call on a live pool keeps that value per share if and only if it is not an A-limited deposit that fails the inequality |
| `DexTheorems.DilutionExample` | contracts/MockDEXEngine.sol:237-255 | a pool where a deposit without any token B takes almost half of the shares |
| `DexTheorems.DilutionReachable` | contracts/MockDEXEngine.sol:204-286 | a run from deployment that reaches that pool |
| `DexTheorems.ValuePerShareNeverFalls` | contracts/MockDEXEngine.sol:204-509 | while shares remain, reserveA*reserveB over totalShares squared never falls over any run of mints, swaps, removals, B-limited deposits and A-limited ones that pass the inequality |
| `DexTheorems.DepositThenLeaveNeverGains` | contracts/MockDEXEngine.sol:204-346 | depositing and burning the minted shares at once never gains either token, in all three branches |
| `DexTheorems.FirstProviderRoundTrip` | contracts/MockDEXEngine.sol:222-346 | the first provider gets the exact deposit back and empties the pool if and only if neither product of shares and reserve overflows; otherwise the withdrawal reverts |
| `DexTheorems.FirstProviderStuck` | contracts/MockDEXEngine.sol:222-346 | with almost a full word of token A and one token B the first deposit succeeds and its withdrawal reverts |
| `DexTheorems.FirstProviderStuckReachable` | contracts/MockDEXEngine.sol:156-168 | one mint after deployment leads there |
| `AdmissionTheorems.StepKeepsInv` | pkg/sequencing/queue.go:98-258 | every event keeps: requests leave in entry order and are answered at most once; admitted transactions sit at increasing places with increasing IDs; receipts are justified; drainers hold what they received; shutdown happens once |
| `AdmissionTheorems.RunKeepsInv` | pkg/sequencing/queue.go:74-258 | the invariant holds in every interleaving, for every capacity including zero |
| `AdmissionTheorems.PayloadsAreCopies` | pkg/sequencing/queue.go:99-108 | each request keeps the bytes it was called with, whatever the caller writes later |
| `AdmissionTheorems.AdmissionIsFifo` | pkg/sequencing/queue.go:98-236 | drained then buffered transactions have increasing IDs and are an order-preserving selection of the entry order, each request at most once, with its own data |
| `AdmissionTheorems.ReceiptsAreSound` | pkg/sequencing/queue.go:119-128 | a receipt is for an admitted transaction of that request, and no two receipts share an ID |
| `AdmissionTheorems.ErrorDespiteAdmission` | pkg/sequencing/queue.go:120-127 | a run where the caller sees an error although its transaction was admitted |
| `AdmissionTheorems.ErrorsAreJustified` | pkg/sequencing/queue.go:111-127 | in every run an error about the context means that it ended and one about the queue means that it was closed, so a live caller on an open queue sees none |
| `AdmissionTheorems.LateAdmissionIff` | pkg/sequencing/queue.go:198-236 | once the context ended or the queue was closed, the request is admitted in some continuation if and only if it already is or is stamped in the goroutine's hand |
| `AdmissionTheorems.ErrorMeansOutIff` | pkg/sequencing/queue.go:111-236 | after an error the transaction is never admitted if and only if it was neither admitted nor stamped at that moment |
| `AdmissionTheorems.NeverPanicsOrBlocks` | pkg/sequencing/queue.go:186-250 | no double close, no send after close, the reply always finds room, and nextID equals admitted plus abandoned plus in hand |
| `AdmissionTheorems.NoSubmitterStaysBlocked` | pkg/sequencing/queue.go:111-127 | in every run after close each caller has returned or can return at once, also one whose request came after the final reject |
| `AdmissionTheorems.CloseTerminates` | pkg/sequencing/queue.go:186-250 | after close the goroutine always has a move until it exits, and in every interleaving it makes at most five moves plus three for each request waiting or late |
| `AdmissionTheorems.ClosedMeansDrained` | pkg/sequencing/queue.go:158-172 | a drainer told that the queue is closed missed nothing, and nothing is admitted in any run afterwards |
| `AdmissionTheorems.DrainersShareInOrder` | pkg/sequencing/queue.go:130-172 | each drained transaction went to one drainer, each share is in ID order, and success means exactly the number asked for |
| `AdmissionDelivery.StepDelivers` | pkg/sequencing/queue.go:98-258 | every event keeps: a waiting caller whose request was taken and is not in hand has exactly one reply, which fits what became of its transaction |
| `AdmissionDelivery.RepliesAreDelivered` | pkg/sequencing/queue.go:119-128 | in every run a waiting caller whose request was taken and is not in hand finds exactly one reply, which one receive returns, and which is the receipt of its own transaction if and only if that was admitted |
| `AdmissionDelivery.LiveCallersCanSucceed` | pkg/sequencing/queue.go:98-236 | on an open queue no caller is ever stuck: in every run a caller with a live context can still get its receipt, for every capacity and wherever the goroutine is |
| `AdmissionDelivery.StampsAreRecorded` | pkg/sequencing/queue.go:209-216 | each admitted transaction carries its place among the stamps as its ID and the clock reading of that stamp as its time |
| `AdmissionDelivery.IdsAreConsecutive` | pkg/sequencing/queue.go:209-216 | while no stamped transaction is given up, IDs are 1, 2, 3 and so on |
| `AdmissionDelivery.DrainersKeepTheirCall` | pkg/sequencing/queue.go:135-158 | each drainer collects what it was called for, blocking or not |
| `AdmissionDelivery.DrainersReturnTruly` | pkg/sequencing/queue.go:135-172 | a drainer returns only when full, or (not blocking) with nothing buffered, or closed with nothing left, or cancelled |
| `AdmissionDelivery.DrainersBlockOnlyOnEmpty` | pkg/sequencing/queue.go:135-172 | a drainer cannot move if and only if it blocks, wants more, and finds nothing, an open channel and a live context |
| `AdmissionDelivery.ClosedIff` | pkg/sequencing/queue.go:252-258 | the queue is closed exactly when Close was called |
| `AdmissionDelivery.CallersBlockOnlyWithoutCause` | pkg/sequencing/queue.go:111-127 | a caller can move if and only if one of its two selects has a ready branch |
| `AdmissionDelivery.GoroutineBlocksOnlyWithoutCause` | pkg/sequencing/queue.go:186-250 | in every run the goroutine is blocked only when idle with nothing to take, or with a stamped transaction and neither room, drainer, cancellation nor close |
| `Pipeline.StepKeepsInv` | pkg/sequencing/raft_log.go:312-383 | every event, discards included, keeps: what the stages hold and what was discarded are complementary selections of the applied log, in order |
| `Pipeline.BatchIsLogSlice` | cmd/sequencer/main.go:295-378 | in every run batch k is the k-th thousand of what the FSM let through; without a discard it is well-formed log entries 1000k to 1000k+999 |
| `Pipeline.BatchCarriesEntries` | pkg/sequencing/raft_log.go:362-383 | in every run without a discard the j-th transaction of batch k carries the index, time and bytes of well-formed entry 1000k+j, named by its place in the log |
| `Pipeline.FlowCarriesEntries` | pkg/sequencing/raft_log.go:362-383 | in every run everything between log and commitments carries a well-formed applied entry, each its own, in log order |
| `Pipeline.PipelineRefinesCut` | cmd/sequencer/main.go:315-378 | the batches are a prefix of cutting the log into thousands |
| `Pipeline.RefinesCutIffNoneDropped` | pkg/sequencing/raft_log.go:374-379 | the batches are a prefix of that cut if and only if none of the first 1000 times the number of batches well-formed entries was discarded |
| `Pipeline.IdsFollowIndices` | pkg/sequencing/raft_log.go:368-372 | transaction IDs increase with the Raft index |
| `Pipeline.NothingLost` | cmd/sequencer/main.go:295-306 | a failing one-item DrainWait drops nothing, and without a close nothing is discarded |
| `Pipeline.FlowIsAppliedLog` | pkg/sequencing/raft_log.go:355-383 | nothing applied is lost, duplicated or reordered between the stages |
| `Pipeline.FlowAndDiscardsSplitLog` | pkg/sequencing/raft_log.go:355-383 | in every run the flow and the discards split the applied log, both in order, and the flow is the applied log if and only if nothing was discarded |
| `Pipeline.CloseCanCommitWrongBatch` | cmd/sequencer/main.go:449-455 | for every positive buffer size and every log of more than a thousand well-formed entries, a run that cancels the context and closes the log while the batch loop sleeps, drops the first entry and commits the next thousand as the first batch |
| `Pipeline.DrainedPipelineIsComplete` | cmd/sequencer/main.go:295-378 | when no stage can move a transaction and no batch is in hand, every full thousand of the log is committed, wherever the batch loop stands |
| `Pipeline.ReplicasAgree` | cmd/sequencer/main.go:337-346 | the commitment sequences of two replicas are prefixes of one another |
| `Pipeline.CancelEndsBatches` | cmd/sequencer/main.go:315-335 | after the context is cancelled the batch loop commits at most one more batch |
| `Pipeline.ShutdownCompletes` | cmd/sequencer/main.go:295-335 | once the context is cancelled both loops can return, wherever they stand |
| `SliceMempool.EncryptedMempool.constructor` | pkg/sequencing/encrypted_mempool.go:24-29 | starts empty, a negative capacity counting as zero |
| `SliceMempool.EncryptedMempool.Add` | pkg/sequencing/encrypted_mempool.go:33-37 | appends one transaction, growing the backing array when full |
| `SliceMempool.EncryptedMempool.ShiftLeft` | pkg/sequencing/encrypted_mempool.go:74-76 | the overlapping copy keeps exactly the rest, in order |
| `SliceMempool.EncryptedMempool.Poll` | pkg/sequencing/encrypted_mempool.go:64-80 | takes the oldest n, or nothing when fewer are there |
| `SliceMempool.EncryptedMempool.DrainWait` | pkg/sequencing/encrypted_mempool.go:55-89 | returns at the first poll that finds n, with the oldest n, or nothing; nothing is lost whatever arrives meanwhile |
| `SliceMempool.EncryptedMempool.DrainUpTo` | pkg/sequencing/encrypted_mempool.go:94-114 | takes the oldest min(n, size) |
| `SliceMempool.EncryptedMempool.DrainAll` | pkg/sequencing/encrypted_mempool.go:119-129 | takes everything in order |
| `LeaderLease.RunTicker` | cmd/sequencer/main.go:385-421 | a tick steps down exactly when the unbroken stretch of leadership it belongs to began more than a lease ago |
| `LeaderLease.RuleIsDeterministic` | cmd/sequencer/main.go:403-418 | that rule determines every step-down |
| `LeaderLease.StepDownEndsLongStretch` | cmd/sequencer/main.go:411-415 | each step-down ends an unbroken stretch longer than the lease |
| `LeaderLease.StepDownsAreALeaseApart` | cmd/sequencer/main.go:403-418 | successive step-downs are more than one lease apart |
| `LeaderLease.LongStretchIsCut` | cmd/sequencer/main.go:387-418 | with ticks at most p apart an outlasting stretch is cut within lease + p of its recorded start |
| `ThreadPool.StepKeepsInv` | cpp/src/privacy/thread_pool.cpp:56-146 | every event, spurious wakeups included, keeps the counter, the start order, the waiters' promises and the wakeup condition |
| `ThreadPool.CounterIsExact` | cpp/src/privacy/thread_pool.cpp:84-108 | active_tasks equals queued plus running tasks and tasks start once, in submission order |
| `ThreadPool.SubmittedIsCounted` | cpp/src/privacy/thread_pool.cpp:98-108 | the pool accepts every submission until its destruction begins |
| `ThreadPool.WorkersAreConstant` | cpp/src/privacy/thread_pool.cpp:30-58 | the pool keeps as many workers as asked for, or two |
| `ThreadPool.WaitAllIsABarrier` | cpp/src/privacy/thread_pool.cpp:121-126 | a call of wait_all at any moment of a run returns, whatever follows, only when every task submitted before it has finished, and nobody sleeps in it at zero |
| `ThreadPool.WaitersLeaveAtZero` | cpp/src/privacy/thread_pool.cpp:121-126 | at zero every caller of wait_all has returned or returns at its next look |
| `ThreadPool.QueuedTasksAreServed` | cpp/src/privacy/thread_pool.cpp:61-108 | a queued task never coexists with all workers asleep and no notification coming |
| `ThreadPool.ActivePoolCanAct` | cpp/src/privacy/thread_pool.cpp:56-126 | while a task is queued or running the pool can act without a spurious wakeup |
| `ThreadPool.DestructorRunsEverything` | cpp/src/privacy/thread_pool.cpp:137-146 | once the workers are joined every task was started exactly once, in order, and has finished |
| `ThreadPool.StopCountsDown` | cpp/src/privacy/thread_pool.cpp:56-91 | after stop every event of a worker or notifier lowers a bound |
| `ThreadPool.DestructorTerminates` | cpp/src/privacy/thread_pool.cpp:137-146 | in every run after stop, with wait_all calls and spurious wakeups in between, workers and notifiers make at most Remaining moves, and some can move until all have exited |
| `BatchDecrypt.ItemAgreesWithSingle` | cpp/src/privacy/encryption.cpp:100-135 | a batch item agrees with the single call on success, length and plaintext; the codes differ exactly when a long enough box fails to open, where the single call says -2 |
| `BatchDecrypt.ChunkSizeBounds` | cpp/src/privacy/batch_decryptor.cpp:82-84 | the chunk size is the least that covers the batch with one chunk per thread |
| `BatchDecrypt.ChunksPartition` | cpp/src/privacy/batch_decryptor.cpp:73-93 | for every batch size and thread count each index lies in exactly one chunk |
| `BatchDecrypt.EmptyChunkIff` | cpp/src/privacy/batch_decryptor.cpp:73-93 | for every batch size and thread count some chunk is empty if and only if the last one starts at or past the end; the chunks with items are exactly the first ceil(n / chunk size) |
| `BatchDecrypt.TrailingChunkCanBeEmpty` | cpp/src/privacy/batch_decryptor.cpp:91-93 | five items on four threads leave the last chunk empty |
| `BatchDecrypt.ScheduleKeepsInv` | cpp/src/privacy/encryption.cpp:190-221 | after any writes in any order, written items are final, others untouched, and the flag is set exactly when a failed item was reported |
| `BatchDecrypt.AnyScheduleIsSequential` | cpp/src/privacy/encryption.cpp:164-237 | every complete interleaving gives the sequential outputs: an input that opens gives its plaintext, 48 bytes shorter, its own index and status 0, any other length 0, status -1 and the index it had; and success exactly when every item succeeded |
| `BatchDecrypt.ScheduleTerminates` | cpp/src/privacy/encryption.cpp:190-237 | every schedule makes at most one write per item and one more per failing item, and its tasks are all done exactly when that many have been made |
| `BatchDecrypt.RunChunk` | cpp/src/privacy/batch_decryptor.cpp:98-138 | a chunk's loop writes index, length, status and plaintext of its own items and no others, and fails exactly when one of them does |
| `BatchDecrypt.DecryptBatch` | cpp/src/privacy/batch_decryptor.cpp:64-147 | the chunk loop with its break covers the whole batch, every output as just described, and the code is 0 if and only if every item opens |
| `Commitments.LittleEndianRoundTrip` | pkg/sequencing/commitment.go:70-75 | decoding undoes the fixed-width encoding |
| `Commitments.PreimageLayout` | pkg/sequencing/commitment.go:67-81 | eight bytes of the ID, eight of the time as an unsigned word, least significant first, then the ciphertext |
| `Commitments.ReceptionPreimageInjective` | pkg/sequencing/commitment.go:67-81 | the reception preimage determines the transaction |
| `Commitments.OrderIsCommitted` | pkg/sequencing/commitment.go:87-111 | two orderings of transactions with distinct IDs have different preimages |
| `Commitments.PreimageDecodesGivenLengths` | pkg/sequencing/commitment.go:97-111 | among batches with one preimage, exactly those with the same ciphertext lengths are equal |
| `Commitments.NeighboursCanMerge` | pkg/sequencing/commitment.go:99-109 | anywhere in a batch a transaction can absorb its successor without changing the preimage |
| `Commitments.NeighboursCanShift` | pkg/sequencing/commitment.go:99-109 | two neighbours that are not both empty can exchange bytes, which gives another batch of the same size with the same preimage |
| `Commitments.BatchRecoverableIff` | pkg/sequencing/commitment.go:87-111 | a batch is determined by its preimage among the batches of its size if and only if it has fewer than two transactions or no ciphertext bytes |
| `Commitments.GenerateBatchCommitment` | pkg/sequencing/commitment.go:97-111 | the hashing loop hashes exactly the batch preimage |
| `Commitments.ReorderingChangesCommitment` | pkg/sequencing/commitment.go:87-96 | with a collision-free hash, reordering a batch changes its commitment |
| `Commitments.TamperingChangesPreimage` | pkg/sequencing/commitment.go:87-96 | replacing any one transaction of a batch changes the preimage |
| `Commitments.TamperingChangesCommitment` | pkg/sequencing/commitment.go:87-96 | with a collision-free hash it changes the commitment |
| `OrderFields.LayersAgree` | contracts/OrderVerifier.sol:47-55 | the contract rebuilds the very string that the Go layer formats |
| `OrderFields.RenderExample` | contracts/OrderVerifier.sol:47-52 | the fields stand in the order ID, user, token, amount, price, timestamp, nonce |
| `OrderFields.PipeFreeDecodes` | pkg/sequencing/commitment.go:24-41 | fields without pipes are determined by the rendering |
| `OrderFields.PipeIsAmbiguous` | contracts/OrderVerifier.sol:32-55 | among lists of arbitrary strings, a pipe in any field gives a different list with the same rendering |
| `OrderFields.RenderingDecodesIff` | contracts/OrderVerifier.sol:32-55 | among the contract's orders of seven strings, an order is recoverable from its rendering if and only if no field holds a pipe |
| `PrintfOrders.GoRenderingDecodesIff` | pkg/sequencing/commitment.go:14-41 | among the orders the Go layer can format, an order is recoverable from its rendering if and only if order ID, user and token hold no pipe and the nonce holds no amount, price and timestamp between pipes |
| `PrintfOrders.PipeInNonceCanBeHarmless` | pkg/sequencing/commitment.go:24-41 | up to two pipes in the nonce leave every such order recoverable |
| `PrintfOrders.NonceCanHoldAnOrder` | pkg/sequencing/commitment.go:24-41 | an order that repeats its own numbers in the nonce shares its rendering with another Go order |
| `OrderVerifier.Verifier.CommitOrder` | contracts/OrderVerifier.sol:28-30 | registers the commitment |
| `OrderVerifier.Verifier.VerifyOrder` | contracts/OrderVerifier.sol:47-71 | succeeds exactly on a registered rendering and uses the registration up |
| `OrderVerifier.RegisteredIff` | contracts/OrderVerifier.sol:28-71 | after any run a digest is registered exactly when it was committed and not verified since |
| `OrderVerifier.NoReplay` | contracts/OrderVerifier.sol:57-67 | two successes on a digest are separated by a new commitOrder of it |
| `OrderVerifier.SuccessMatchesOrder` | contracts/OrderVerifier.sol:42-71 | with a collision-free hash and no pipes, a success is on the very order that was committed, in all seven fields |
| `OrderVerifier.PipeLetsAnotherOrderPass` | contracts/OrderVerifier.sol:42-71 | with a pipe in any field some other order passes in its place |
| `KeyedMempool.EncryptedMempool.AddTransaction` | cpp/src/privacy/encrypted_mempool.cpp:37-49 | stores the value; only a new key is appended to the order |
| `KeyedMempool.EncryptedMempool.RemoveTransaction` | cpp/src/privacy/encrypted_mempool.cpp:59-64 | erases the value and leaves the order alone |
| `KeyedMempool.EncryptedMempool.DrainAll` | cpp/src/privacy/encrypted_mempool.cpp:116-138 | the loop emits every live occurrence, a moved-out value reading as empty, and clears both containers |
| `KeyedMempool.LookupFindsLatest` | cpp/src/privacy/encrypted_mempool.cpp:37-90 | after any run a key holds a value exactly when that value was added under it and the key was neither added again nor removed, nor the store drained, since |
| `KeyedMempool.ApplyKeepsRefines` | cpp/src/privacy/encrypted_mempool.cpp:37-64 | each call keeps: the last live occurrences in the deque are the ordered map |
| `KeyedMempool.DrainIsOrderedMapIff` | cpp/src/privacy/encrypted_mempool.cpp:116-138 | in every run a drain emits as many pairs as size if and only if no live key was added, removed and added again since the last drain; then it emits each live key once, in insertion order, with its latest value |
| `KeyedMempool.DrainRefinesOrderedMap` | cpp/src/privacy/encrypted_mempool.cpp:102-138 | over every run that adds no removed key back before the next drain, the store refines the ordered map |
| `KeyedMempool.ReaddedKeyDrainsTwice` | cpp/src/privacy/encrypted_mempool.cpp:125-131 | a key added back is drained twice, the second time empty |

## Left out

- Raft itself (elections, replication, snapshots): the committed log is given. A node that installs a snapshot or replays its log after a restart is not modelled.
- libsodium, SHA-256, hex encoding and JSON: parameters, or part of the input.
- Revert messages and events of the contract, except the product-drop report of a removal.
- The order of the contract's checks within one call: a revert restores the state, so only whether some check fails is modelled.
- The queue, the pool and the pipeline are transition systems over values, so aliasing of Go slices is modelled only where the queue copies the caller's buffer.
- The C++ memory model: a critical section is one event, and an item's fields are written together.
- A thread inside `submit` or `wait_all` while the pool is being destroyed, and any submit after stop: undefined in C++.
- The 64-bit width of transaction IDs and Raft indices: they are unbounded in the queue and the pipeline; the preimages use the exact width.
- The C++ mempool's lookups, `has` and `size`, as methods: one-line reads of the map; what they see is `KeyedMempool.LookupFindsLatest` and the pool of a run.
- Real time: polling intervals, timeouts and the monotonicity of `ArrivedAt`. `LeaderLease` assumes a clock that does not run backwards.
- How `%f` rounds: an order is its rendered fields, and amounts that agree to six decimals render alike.
- Publishing to the EVM, gRPC, the proxy cache, key files, clients, demos and scripts: wiring without a law to prove.
