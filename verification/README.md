# A verified model of the Floripa node

This project models the stateful core of a Polygon Edge based blockchain node in Dafny and proves what that core is
meant to guarantee: over every run of the transaction pool, over every nesting of calls in a transaction, over every
block, and over every sequence of headers written to the chain.

Code of the node that changes things in place is modelled by classes, methods and loops (heaps in slices, the account
and pool objects, the state journal with its shared objects and log slices, the block transition, the chain object with
its caches and write batches, the archive buffer, the fork manager, validator sets). Each such method is proved against
a specification on values, and the main theorems are proved about those specifications. Price rules, gas rules and
quorum arithmetic are functions.

| part | files |
|---|---|
| transaction pool | `SliceHeap`, `AccountQueue`, `PoolAccount`, `AccountObject`, `PoolModel`, `PoolInvariant`, `PoolSafety`, `PoolLaws`, `PoolRuns`, `TxPoolObject`, `BlockBuilding` |
| state and transactions | `WorldState`, `HostOps`, `Observers`, `TxnObject`, `HostRun`, `Rollback`, `Refund`, `Metering`, `Supply`, `Solvency`, `Fees`, `Gas`, `Application`, `Transition`, `TransactionLaws` |
| chain | `Chain`, `ChainObject`, `GasRules` |
| smaller cores | `Merkle`, `Archive`, `ForkManager`, `Validators` |
| shared | `Transactions`, `Arithmetic`, `Sums` |

How the parts are set up:

- **Pool.** `PoolModel` is a state machine. A step is one region under the account locks, or one atomic update of the
  gauge, the index or the pending counter; what the source finishes after releasing the locks is kept as unfinished
  jobs, so the invariant covers every interleaving of these steps. An addition may have been validated against a state
  long gone. Structure and totals hold in every run; the index law holds in every run that does not add a transaction
  which an event has yet to take out of the index, and `PoolRuns` gives a run in which it fails. `TxPoolObject` shows
  that the imperative operations perform exactly these steps.
- **State.** The virtual machine is an arbitrary tree of host operations (`HostOps`): storage writes, logs,
  destructions, calls and creations, each of which may fail at any point. `HostRun` shows that numbered snapshots on the
  journal object implement this tree; `Observers` says what each operation does to balances, nonces, code, slots and
  existence; `Rollback`, `Refund`, `Supply` and `Solvency` prove what holds of all trees, and
  `Metering` what storage writes cost in the end.
- **Transactions.** `TransactionLaws` states what a sender can rely on, on balances and nonces alone: when a transaction
  is accepted, that no block applies it twice, who pays whom, and what a receipt says.
- **Chain.** `Chain` states what one written header does to the stored tree of headers and proves the invariants over
  all runs of writes; `ChainObject` shows that the object with its caches, batches and reorganisation walk does that.

Where a desired property is false of the code, the code is kept, a failing case is given and the exact condition is
proved as an equivalence:

| property | failing case | exact condition |
|---|---|---|
| a queued transaction stays indexed | `StaleAddIsLost` | `AddKeepsBookExactly`, `AddedStaysIndexedExactly` |
| popping keeps the totals | `ReplacedHeadIsMischarged` | `PopIsSoundExactlyForTheHead` |
| promotion keeps the account sound | `LastNonceBreaksPromotion` | `PromoteKeepsWellFormed` |
| a failed creation leaves no trace | `RefusedCreationKeepsValue` | `FailedCreateLeavesNoTraceExactly` |
| the refund counter does not wrap | `LaterTransactionWraps` | `RefundNeverWrapsExactly` |
| tip and burn make up the price | `PriceFieldCanDisagree` | `TipAndBurnMakePriceExactly` |
| a transaction conserves money | `FreeTransactionCreatesMoney` | `TransactionConservesExactly`, `FeesAreConservedExactly` |
| the tip is not negative | `FreeTransactionCreatesMoney` | `TipIsNonNegativeExactly` |
| a rejected transaction gives its gas back | `TooLittleGasLeaks` | `Apply` |
| an applied transaction is not accepted again | `LastNonceIsReplayed` | `NonceMovesOnExactly` |
| pressure means 80 percent of the slots | `OverflowedPressure` | `PressureExactly` |
| a reorganisation keeps the index exact | `ReorgEntries` | `ReorgIndexExactly` |
| an event reports the new head | `EventHeaderIsHeadExactly` | `EventHeaderIsHeadExactly` |
| the gas limit moves towards its target | `OverflowLosesTarget` | `NextLimitIsValid`, `ReachesTargetExactly` |
| the base fee stays positive | `ZeroFee` | `BaseFeeStaysPositiveExactly` |
| a verified index is in range | `HighIndexPasses` | `IndexesThatPass` |
| a generated proof verifies | `CollidingTreeFails` | `GeneratedProofVerifiesExactly` |
| a cut file is noticed | `CutIsNoticedExactly` | `CutIsNoticedExactly` |
| an announced size is loaded | `PrefixDecides` | `PrefixDecides` |
| the handler index is exact | `RegisterFork`, `RegisterHandler` | `RegisterFork`, `RegisterHandler` |
| legacy quorums intersect | `QuorumsCanMiss` | `LegacyQuorumsIntersectExactly` |

The code and its documentation disagree in these places, and the model follows the code: the event accessor that is
described as returning the latest header returns the lowest header of the new branch after a growing reorganisation
(blockchain/subscription.go:85-88); the maximum payload constant is annotated as 4 MB and is 512 KiB
(server/system_service.go:231); the gas limit error message names a bound one smaller than the one that is enforced
(blockchain/blockchain.go:1082-1090).

Hashes are assumed free of collisions: a header, a transaction and a code are identified by their hash.

## Model

| member | source | states |
|---|---|---|
| SliceHeap.RootIsMinimal | txpool/queue_account.go:108-131 | No element of an ordered heap comes before its root, so peeking at slot zero gives a minimum. |
| SliceHeap.Push | txpool/queue_account.go:75-77 | Pushing keeps the heap ordered and adds exactly the given element, for every strict weak order. |
| SliceHeap.Pop | txpool/queue_account.go:85-96 | Popping returns the root, keeps the heap ordered and loses nothing else. |
| SliceHeap.Init | txpool/queue_priced.go:15-26 | Heapifying an arbitrary list gives an ordered heap with the same elements. |
| AccountQueues.NoncesDecide | txpool/queue_account.go:124-131 | Two different positions of an account queue never hold the same nonce, so the gas price branch of the comparison is never reached. |
| AccountQueues.SlotsRequired | txpool/slot_gauge.go:69-76 | The loop computes the sum of the slots of all given transactions, each rounded up to whole slots. |
| AccountQueues.AccountQueue.Push | txpool/queue_account.go:75-77 | The queue, read as a map from nonce to transaction, gains exactly the pushed transaction and stays a heap. |
| AccountQueues.AccountQueue.Peek | txpool/queue_account.go:80-82 | Peeking shows the transaction with the lowest nonce, and nothing exactly when the queue is empty. |
| AccountQueues.AccountQueue.Pop | txpool/queue_account.go:85-96 | Popping removes exactly the transaction with the lowest nonce. |
| AccountQueues.AccountQueue.Prune | txpool/queue_account.go:49-61 | Pruning removes exactly the transactions below the nonce and returns them in ascending order. |
| AccountQueues.AccountQueue.Clear | txpool/queue_account.go:64-72 | Clearing empties the queue and returns everything it held. |
| AccountQueues.AccountQueue.Replace | txpool/account.go:272-296 | Overwriting the entry with the same nonce in place keeps the heap ordered and changes that entry alone; it reports whether there was one. |
| AccountQueues.AccountQueue.Length | txpool/queue_account.go:99-101 | The length is the number of distinct nonces queued. |
| PoolAccounts.PruneKeepsWellFormed | txpool/account.go:230-269 | Resetting to a state nonce keeps the account invariant; a nonce above the next one leaves nothing promoted. |
| PoolAccounts.PromoteLosesNothing | txpool/account.go:303-356 | After a promotion the lookup is still exactly the two queues, which share no nonce. |
| PoolAccounts.PromoteKeepsWellFormed | txpool/account.go:303-356 | Promotion keeps the account invariant if and only if the promoted run does not reach the last 64-bit nonce; then the next nonce is not enqueued. |
| PoolAccounts.LastNonceBreaksPromotion | txpool/account.go:303-356 | An account whose only transaction has the last 64-bit nonce, which is also next, is well formed; its promotion leaves an account that is not. |
| PoolAccounts.InsertKeepsWellFormed | txpool/account.go:272-296 | Adding or replacing a transaction keeps the account invariant. |
| PoolAccounts.PopKeepsWellFormed | txpool/txpool.go:361-392 | Removing the promoted head from queue and lookup keeps the promoted nonces a gap-free interval below the next nonce. |
| AccountObjects.RemoveNonces | txpool/account.go:170-174 | The loop deletes exactly the nonces of the given transactions from the lookup. |
| AccountObjects.Account.Reset | txpool/account.go:230-269 | Both queues, lookup and next nonce become those of the specification; the returned lists are exactly what was pruned; a promotion is signalled exactly when the first enqueued nonce became next. |
| AccountObjects.Account.Enqueue | txpool/account.go:272-296 | A new transaction goes to the enqueued queue, a replacement overwrites its nonce where it is queued, and the lookup follows. |
| AccountObjects.Account.Promote | txpool/account.go:303-356 | The maximal run of consecutive nonces from the next nonce on moves over, in order; nothing is lost and the pruned list is always empty. |
| AccountObjects.PromoteLoop | txpool/account.go:319-343 | Each turn moves the lowest enqueued transaction and prunes nothing; the loop ends at the first gap, with the 64-bit counter wrapping. |
| AccountObjects.Account.PopHead | txpool/txpool.go:361-392 | The head leaves the promoted queue while the nonce of the argument leaves the lookup. |
| AccountObjects.Account.Empty | txpool/txpool.go:404-453 | Both queues and the lookup become empty, the next nonce is set, and the returned lists are exactly the old queues. |
| PoolInvariant.AcceptedFits | txpool/slot_gauge.go:34-49 | A transaction that passes the 64-bit limit check truly fits below the maximum. |
| PoolSafety.StepKeepsTotals | txpool/txpool.go:771-883 | Every step keeps the gauge equal to the slots of queued plus pruned-but-not-released transactions and within the maximum, and pending plus unsettled changes equal to the promoted count. |
| PoolSafety.StepKeepsStructure | txpool/txpool.go:771-883 | Every step keeps every account well formed, and no transaction that is ready for promotion lacks a waiting request. |
| PoolSafety.StepKeepsBook | txpool/txpool.go:493-551 | Every step keeps every queued transaction in the hash index, except those an unfinished event has taken out as mined, and nothing queued is due for removal; an addition must not be of a transaction that is still due. |
| PoolSafety.StepKeepsInvariant | txpool/txpool.go:361-453 | Every step of the pool keeps structure, totals and requests, whatever state an added transaction was validated against. |
| PoolSafety.ReachablePoolsAreSound | txpool/txpool.go:361-1024 | Every pool of every run satisfies the invariant: well-formed accounts, exact gauge within its limit, exact pending accounting, no forgotten promotion. |
| PoolSafety.FreshRunsKeepIndex | txpool/txpool.go:361-1024 | In every run that adds no transaction which an event has yet to take out of the index, the index is complete throughout. |
| PoolSafety.AddKeepsBookExactly | txpool/txpool.go:855-870 | An accepted addition keeps the law of the index if and only if no event is going to take the transaction out of the index. |
| PoolSafety.AddedStaysIndexedExactly | txpool/txpool.go:969-1024 | An added transaction stays in the index whichever event cleans up next, if and only if none of them has it. |
| PoolRuns.StaleAddIsLost | txpool/txpool.go:493-551 | The run in which a mined transaction is added again before the event cleans up ends at rest with the transaction queued and not indexed. |
| PoolSafety.AddReplacesOnlyCheaper | txpool/txpool.go:802-883 | An accepted transaction is queued and indexed; it takes the place of a strictly cheaper one, whose hash leaves the index, or a free nonce not below the next one. |
| PoolSafety.AddKeepsQueued | txpool/txpool.go:802-883 | No other transaction enters or leaves the queues, and a rejected transaction changes nothing at all. |
| PoolSafety.AddKeepsOthersIndexed | txpool/txpool.go:855-870 | Of the other queued transactions the index gains and loses none. |
| PoolLaws.AddedExactly | txpool/txpool.go:802-883 | An addition is accepted if and only if its nonce is not above the next one while more than 80 percent of the slots are used, a queued nonce is outbid by another hash or a free one is next or finds room in the queue, the slots fit, and the hash is unknown. |
| PoolLaws.EarlyErrorsExactly | txpool/txpool.go:802-840 | Exactly when the errors for a future nonce under pressure and for an underpriced replacement are given. |
| PoolLaws.LateErrorsExactly | txpool/txpool.go:802-855 | Exactly when the errors for a full queue, a passed nonce and too few slots are given. |
| PoolLaws.KnownExactly | txpool/txpool.go:802-866 | Exactly when a transaction is reported as known: it is queued itself, or only its hash stands in the way. |
| PoolLaws.PressureExactly | txpool/slot_gauge.go:59-61 | Pressure means that a hundred times the used slots exceed eighty times the maximum, in 64-bit arithmetic. |
| PoolLaws.OverflowedPressure | txpool/slot_gauge.go:59-61 | A maximum whose eightyfold overflows: one used slot is pressure. |
| PoolLaws.SlotsHoldSize | txpool/slot_gauge.go:69-76 | A transaction takes the least number of 32 KiB slots that hold it. |
| PoolLaws.PromoteExactly | txpool/txpool.go:905-922 | A promotion moves exactly the unbroken run of nonces from the next one on, and the next nonce becomes the first gap. |
| PoolLaws.ResetExactly | txpool/txpool.go:969-1024 | A reset drops exactly the nonces that the state has passed, of this account alone, raises the next nonce to the state nonce and forgets the demotions. |
| PoolLaws.DropExactly | txpool/txpool.go:404-453 | A dropped account has nothing queued and none of its transactions indexed, expects the given nonce, and no other account changes. |
| PoolLaws.PruneHolesExactly | txpool/txpool.go:735-765 | Exactly an account that waits for a missing nonce loses its enqueued transactions, and nothing else does. |
| PoolLaws.PopExactly | txpool/txpool.go:361-392 | Popping the head takes exactly it out of the queues and forgets the demotions. |
| PoolLaws.InitOnceExactly | txpool/account.go:20-36 | The first caller creates an empty account with the given nonce; later ones change nothing. |
| PoolSafety.StepKeepsJobs | txpool/txpool.go:493-551 | Unfinished events never owe a negative number of slots, and they reset accounts to nonces the state has reached. |
| PoolSafety.PoolAtRest | txpool/txpool.go:361-1024 | With no unfinished work the gauge is the slots of all queued transactions and pending is the number of promoted ones, in every run; every queued transaction is indexed if the run added none that was due for removal. |
| PoolSafety.PopIsSoundExactlyForTheHead | txpool/txpool.go:361-392 | Popping keeps account and totals sound if and only if the argument has the nonce and the slots of the promoted head. |
| PoolRuns.ReplacedHeadIsMischarged | txpool/txpool.go:361-392 | A run in which the peeked head is replaced by a transaction of another size before it is popped, which leaves the gauge wrong. |
| TxPoolObjects.RemoveHashes | txpool/lookup_map.go:31-38 | The loop removes exactly the hashes of the given transactions. |
| TxPoolObjects.TxPool.Pop | txpool/txpool.go:361-392 | The object performs the pop step of the machine: account, gauge and pending move together. |
| TxPoolObjects.TxPool.DropAccount | txpool/txpool.go:404-453 | The object performs the drop step: both queues, their slots, hashes and pending entries are released. |
| TxPoolObjects.TxPool.ReleaseSlots | txpool/txpool.go:418-426 | The hashes leave the index and exactly their slots are given back. |
| TxPoolObjects.TxPool.Demote | txpool/txpool.go:458-479 | A demotion is counted; once the limit is reached the account is dropped and the counter reset instead. |
| TxPoolObjects.TxPool.PruneAccountWithNonceHoles | txpool/txpool.go:735-765 | Exactly the accounts whose first enqueued nonce is not the next one lose their enqueued transactions, with index and gauge following. |
| TxPoolObjects.TxPool.PromoteAccount | txpool/txpool.go:905-922 | The returned count is the number of transactions that the promotion moved. |
| TxPoolObjects.TxPool.HandlePromoteRequest | txpool/txpool.go:905-922 | The object performs the promotion step followed by the settlement of the pending counter. |
| TxPoolObjects.TxPool.ResetAccount | txpool/txpool.go:969-1024 | The object performs the reset step of one account and hands over exactly what it pruned. |
| TxPoolObjects.TxPool.Charge | txpool/txpool.go:842-870 | Slots are taken or released in 64-bit arithmetic; a refused or known transaction leaves gauge and index as they were. |
| TxPoolObjects.TxPool.AddTx | txpool/txpool.go:802-883 | The object performs the add step of the machine with its verdict, including in-place replacement; `AddedExactly` says what the verdict is. |
| BlockBuilding.PriceLessIsAnOrder | txpool/queue_priced.go:97-123 | The comparison of primaries is a strict weak order for every base fee. |
| BlockBuilding.BetterPriceFirst | txpool/queue_priced.go:97-123 | A transaction precedes another exactly when it has the higher effective tip where there is a base fee, then the higher fee cap, then the higher tip cap, then the lower nonce. |
| BlockBuilding.Prepare | txpool/txpool.go:337-343 | The executables are exactly the heads of the non-empty promoted queues, each of them once, ordered as a heap. |
| BlockBuilding.Peek | txpool/txpool.go:347-355 | The peeked transaction is a candidate that no other candidate precedes by price and then nonce; the rest are the candidates of the other accounts. |
| BlockBuilding.PopExecuted | txpool/txpool.go:361-392 | The executed transaction leaves its queue, the next one of its sender becomes a candidate, and the executables are again exactly the candidates. |
| BlockBuilding.WriteTransaction | consensus/ibft/consensus_backend.go:362-396 | Status, queues and demotion counters are fixed by gas limit, outcome and counter: executed and popped, dropped, counted as demoted, dropped at the limit, or the end of the block; the executables stay exactly the candidates. |
| BlockBuilding.WriteTransactions | consensus/ibft/consensus_backend.go:295-360 | For every sequence of outcomes and every deadline, every round takes a best of all candidates left by the rounds before; executed list, queues and counters are those of the replayed rounds; the loop ends only with no candidate left, at the deadline, or when the block is full. |
| BlockBuilding.ExecutedInOrder | consensus/ibft/consensus_backend.go:295-360 | Over every such sequence of rounds each sender executed a prefix of its queue in order, and the rest stays or was dropped. |
| BlockBuilding.PassedOverOnce | consensus/ibft/consensus_backend.go:362-396 | A sender whose transaction was not executed is not picked again for the block. |
| BlockBuilding.PickDecides | consensus/ibft/consensus_backend.go:362-396 | What one pick does, by gas limit, outcome and counter: executed and popped with the demotions forgotten; the queue dropped for too much gas or a fatal error; a demotion counted, or the queue dropped and the counter reset after ten; nothing when the block is full; no other account is affected. |
| BlockBuilding.ExecutedNoncesAreConsecutive | consensus/ibft/consensus_backend.go:295-360 | The executed transactions of a sender have consecutive nonces from the head of its promoted queue. |
| BlockBuilding.PromotedQueueIsConsecutive | txpool/account.go:188-199 | The promoted queue of every well-formed account is such an input: a gap-free run of its own nonces. |
| TxnObjects.AccountCell.Copy | state/state.go:93-106 | A copied account has the balance without its sign and the same nonce, root and code hash. |
| TxnObjects.StateObject.Copy | state/state.go:125-142 | A copy is a new object with its own account record and its own storage tree; it has the same content but for the sign of the balance. |
| TxnObjects.Txn.Snapshot | state/txn.go:63-70 | A snapshot saves the current state under the next id and changes nothing else. |
| TxnObjects.Txn.RevertToSnapshot | state/txn.go:73-82 | Reverting to a snapshot that no earlier revert has overtaken restores the whole state it was taken in; an overtaken one restores all but the logs; an unknown id is an error without effect. |
| TxnObjects.Txn.GetOrNew | state/txn.go:94-120 | The object handed out, with its account record and storage tree, is a private copy of the overlay or base account, or a new one. |
| TxnObjects.Txn.Insert | state/txn.go:136-140 | Inserting an object changes the current overlay at one address and no snapshot. |
| TxnObjects.Txn.UpsertAccount | state/txn.go:122-140 | A private copy of the account, or a new one on request, is changed and put back; a missing one that is not to be created leaves everything as it was. |
| TxnObjects.Txn.AddBalance | state/txn.go:154-158 | The overlay becomes that of the specification and every snapshot keeps its content. |
| TxnObjects.Txn.SubBalance | state/txn.go:161-177 | A missing balance is refused without effect, a zero amount touches nothing, otherwise the balance falls. |
| TxnObjects.Txn.Transfer | state/executor.go:769-785 | Value moves from sender to recipient, or nothing happens when it is missing. |
| TxnObjects.Txn.TouchAccount | state/txn.go:502-506 | The account enters the overlay unchanged. |
| TxnObjects.Txn.IncrNonce | state/txn.go:341-354 | The nonce grows by one, and an overflow of 64 bits is reported with the nonce unchanged. |
| TxnObjects.Txn.SetCode | state/txn.go:376-382 | Code and code hash of one account change. |
| TxnObjects.Txn.CreateAccount | state/txn.go:533-548 | A fresh account keeps the balance of the old one and nothing else. |
| TxnObjects.Txn.Suicide | state/txn.go:423-439 | An existing account is marked destroyed with balance zero; a missing one stays missing. |
| TxnObjects.Txn.SetStorage | state/txn.go:220-290 | The slot changes, the refund moves by the rule for original, current and new value under the active forks, and the status says what the write did to the slot. |
| TxnObjects.Txn.Selfdestruct | state/executor.go:1070-1077 | The first destruction earns the refund, the balance goes to the beneficiary, and the account is marked. |
| TxnObjects.Txn.EmitLog | state/txn.go:197-215 | Appending a log in place to a shared backing array, or to a grown one, never changes the logs of a live snapshot. |
| TxnObjects.Txn.Logs | state/txn.go:459-468 | The logs are handed out once and the list starts anew. |
| TxnObjects.Txn.CleanDeleteObjects | state/txn.go:550-585 | Exactly the destroyed accounts, and on request the empty ones, become deleted in private copies; the refund is forgotten and no snapshot changes. |
| HostRuns.RunAll | state/executor.go:787-976 | Every tree of host operations, run with numbered snapshots, ends in the state its nesting defines; every snapshot that was live before still shows the state it was taken in. |
| HostRuns.ApplyCall | state/executor.go:787-829 | A call on the journal ends in the state that `Exec` defines and `CallMovesValue`, `PlainCallPays` and `LastEffectIsSeen` describe; a failed one leaves every balance, nonce, slot, committed slot, suicide flag, the logs and the refund as before, whatever its body did and reverted. |
| HostRuns.ApplyCreate | state/executor.go:841-976 | A creation ends in the specified state for every way it can end; under Homestead a failed one changes nothing but the creator's nonce exactly when it leaves no trace. |
| HostRuns.RunDeploy | state/executor.go:864-975 | From the snapshot on, failures after the constructor ran revert and success stores the code. |
| Observers.CommittedIsRead | state/txn.go:94-120 | Before any change the committed balance, nonce, code hash and slots are read. |
| Observers.TransferBalances | state/executor.go:769-785 | A transfer fails exactly when the sender has too little; otherwise exactly the amount changes hands. |
| Observers.TransferKeeps | state/executor.go:769-785 | A transfer changes no nonce, slot, mark, log or refund. |
| Observers.CallMovesValue | state/executor.go:802-804 | A call that moves value starts exactly when the caller has it; the caller has lost and the callee gained exactly the value, and nobody else is affected. |
| Observers.EnterCallKeeps | state/executor.go:787-804 | The callee exists from then on, and logs and refund are as before. |
| Observers.PlainCallPays | state/executor.go:787-829 | A call without a body pays the callee exactly when it does not fail and the caller has the value; else no balance changes. |
| Observers.NonceAfterIncr | state/txn.go:341-354 | Exactly one nonce grows by one, unless it is the last one. |
| Observers.CodeIsStored | state/txn.go:376-382 | Stored code is read back, its hash tells codes apart and the empty one from others, and no other account, balance or nonce changes. |
| Observers.CreatedIsFresh | state/txn.go:533-548 | A created account has its old balance and no nonce, code, slot or mark. |
| Observers.SlotIsWritten | state/txn.go:220-290 | A write changes the slot it names and no other slot, balance or nonce. |
| Observers.LogIsEmitted | state/txn.go:197-215 | A log is appended at the end and nothing else changes. |
| Observers.DestructionMoves | state/executor.go:1070-1077 | A destroyed account is marked and empty, its beneficiary has what it owned, and the refund is earned once. |
| Observers.CleanupDeletes | state/txn.go:550-585 | The clean-up deletes exactly the destroyed accounts and, on request, the touched ones without nonce, balance and code. |
| Observers.CreationStarts | state/executor.go:841-863 | A creation starts exactly when the creator has a nonce left and nothing with code or nonce lives at the address. |
| Observers.PreparedIsFresh | state/executor.go:864-875 | Under EIP-158 a constructor finds an account without code, slots or mark. |
| Observers.CreateMovesValue | state/executor.go:876-890 | A constructor starts exactly when the creator has the value; then exactly the value has changed hands, and the new account has nonce one under EIP-158. |
| Observers.PlainCreationDeploys | state/executor.go:841-976 | A successful creation counts the creator's nonce, moves the value and stores the code at the new address. |
| Observers.ExecAdvances | state/executor.go:787-976 | Over every nested run no nonce falls and no log is lost. |
| Observers.ExecKeepsOthers | state/executor.go:787-976 | A run leaves every account alone that none of its operations names. |
| Observers.ExecKeepsUnmarked | state/txn.go:423-439 | An account that no operation of a run destroys is not marked as destroyed. |
| Observers.RunsInOrder | state/executor.go:787-976 | Operations take effect one after the other. |
| Observers.LastEffectIsSeen | state/executor.go:787-976 | What a successful call or constructor writes or emits last is seen by its caller. |
| Rollback.FailedCreateLeavesNoTraceExactly | state/executor.go:841-976 | Under Homestead a failed creation changes nothing but the creator's nonce if and only if it did not fail for missing value or by a deployment list after the address was prepared or paid. |
| Rollback.RefusedCreationKeepsValue | state/executor.go:876-923 | A creation refused by a deployment list leaves its value at the new address. |
| Rollback.FrontierKeepsAllButCode | state/executor.go:951-969 | Before Homestead a constructor whose code cannot be paid for leaves exactly what its run without code storage leaves: every account but the new one is as after a success, and only the new code is missing. |
| Refunds.ClearedAfterStore | state/txn.go:220-290 | A write changes the set of slots committed non-zero and now zero at that slot alone. |
| Refunds.StoreCovered | state/txn.go:220-290 | A write keeps the refund at 15000 or more for each such slot, so the subtraction it may make never goes below zero. |
| Refunds.ExecAllKeepsCover | state/txn.go:220-290 | The same over every nested run of writes, destructions, calls, creations and reverts, together with a bound on the refund. |
| Refunds.RefundNeverWrapsExactly | state/txn.go:449-457 | No run of a transaction that starts with refund zero wraps the counter, if and only if the transaction starts with no cleared slot. |
| Refunds.FirstTransactionNeverWraps | state/txn.go:449-457 | A transaction on the committed state never wraps the counter and ends with its cleared slots covered. |
| Refunds.LaterTransactionWraps | state/txn.go:481-488 | A slot cleared by one transaction of a block and filled by the next leaves the second with a refund of 2^64 - 15000. |
| Metering.RefundMoves | state/txn.go:220-290 | Away from the ends of the 64-bit counter a write moves the refund by an amount that does not depend on the counter. |
| Metering.OneWrite | state/runtime/evm/instructions.go:501-535 | The gas charged for a write less the refund it earns is a base cost plus the difference of a potential of the slot. |
| Metering.NetCostIsPathIndependent | state/runtime/evm/instructions.go:485-540 | Over every sequence of writes to a slot, under every fork, gas charged less refunds depends only on the number of writes, the committed value and the last value. |
| Metering.RestoringIsFree | state/txn.go:271-286 | A slot that ends with its committed value has cost the base cost of its writes alone, whatever it held in between. |
| Metering.CostsByNumbers | state/runtime/evm/instructions.go:501-535 | What setting, changing, clearing, restoring and rewriting a slot costs in gas less refunds, in numbers, under each of the three rules. |
| Supply.TotalTransfer | state/executor.go:769-785 | A transfer keeps the sum of all balances, also to oneself. |
| Supply.TotalAdd | state/txn.go:154-158 | A credit moves the sum by its amount, and by twice what it takes below zero, since an account read again has lost the sign of its balance. |
| Supply.TotalSelfdestruct | state/executor.go:1070-1077 | Self-destruction keeps the sum, except that a contract naming itself burns its balance. |
| Supply.ExecAllTotal | state/executor.go:787-976 | Over every nested run the sum of all balances falls by exactly what contracts burn by naming themselves, not counting what is rolled back. |
| Solvency.ExecAllKeepsSound | state/executor.go:787-976 | No run makes a balance negative or raises the sum; a run without destruction burns nothing and marks nothing. |
| Solvency.CleanupTotal | state/txn.go:550-585 | The clean-up makes no balance negative, never raises the sum, and keeps it when nothing was destroyed. |
| TransactionFees.TipAndBurnMakePriceExactly | state/londonFix_fork.go:89-136 | For every accepted legacy or dynamic-fee transaction, effective tip plus burned base fee is the gas price if and only if the price field agrees with the caps. |
| TransactionFees.TipIsNonNegativeExactly | state/londonFix_fork.go:89-136 | The tip is not negative if and only if London is inactive, the base fee is zero, or the transaction offers something. |
| TransactionFees.PricePaid | types/transaction.go:169-199 | The price field if set; else nothing without a base fee or an offer; else the most that neither fee cap nor tip cap plus base fee forbids. |
| TransactionFees.TipEarned | state/londonFix_fork.go:129-136 | The tip is the most that neither tip cap nor fee cap less base fee forbids; a legacy tip and the base fee make the price. |
| TransactionFees.PayProducerBalance | helper/staking/enhanced_staking.go:190-209 | Half of the fee, rounded down, goes to the owner and the rest to the producer where the staking contract exists, else all to the producer; no other balance changes. |
| TransactionFees.PayProducerTotal | state/executor.go:663-676 | The distribution credits exactly the fee; a negative fee that a balance does not cover makes twice the uncovered part appear. |
| TransactionFees.CreditBalance | state/executor.go:648-683 | The balance of every address after settlement: refund to the sender, shares of the tip, base fee to the burn contract, nothing elsewhere. |
| TransactionFees.FeesAreConservedExactly | state/executor.go:648-683 | The up-front debit equals refund plus tip plus burn to the last unit, if and only if the fees add up: the tip is not negative and the price is exact, or what a negative tip leaves uncovered makes up for the price. |
| TransactionFees.PriceFieldCanDisagree | state/londonFix_fork.go:89-136 | An allowed dynamic-fee transaction whose price field is five where tip and base fee make two. |
| TransactionGas.CountZeros | state/executor.go:1149-1155 | The loop counts the zero bytes of the payload. |
| TransactionGas.TransactionGasCost | state/executor.go:1137-1178 | The 64-bit computation gives the per-byte sum and reports an overflow exactly when that sum does not fit 64 bits. |
| TransactionGas.UpdateGasUsed | state/runtime/runtime.go:122-132 | Gas used and left add up to the gas supplied, and the refund is capped at half of the gas used. |
| Application.TransactionConservesExactly | state/executor.go:589-689 | An applied transaction changes the sum of all balances by exactly what its run burns, if and only if its fees add up. |
| Application.BalancedMeans | state/executor.go:589-689 | Where London is inactive, the base fee is zero or the transaction offers something, fees add up if and only if the price field agrees with the caps. |
| Application.FreeTransactionCreatesMoney | state/executor.go:589-689 | An accepted, exactly priced transaction that offers nothing under a base fee: the producer is debited below zero and read back with 21000, and the sum of balances grows by 42000. |
| Application.TransactionKeepsSound | state/executor.go:589-689 | A well-priced transaction makes no balance negative, never raises the sum, and keeps it when nothing is destroyed. |
| Transitions.Sub64 | state/executor.go:617-622 | The 64-bit difference exceeds the gas exactly when the cost does, so the wrapped comparison is the intended check. |
| Transitions.Purchase | state/executor.go:589-637 | On the journal: the checks, the up-front payment, the intrinsic gas and the nonce; a rejection says what it took from the gas pool. |
| Transitions.Execute | state/executor.go:631-689 | On the journal: the run ends in the state its nesting defines, the fees are settled on it, and the gas used is what the capped refund leaves. |
| Transitions.Apply | state/executor.go:432-447 | On the journal: a transaction is applied exactly when it is accepted, which `AcceptedExactly` spells out, with the specified state, gas and status; otherwise the state is as before and the pool is short by the gas exactly when the rejection came late. |
| Transitions.Transition.Write | state/executor.go:339-396 | Pool, used gas and leaked gas always add up to the gas limit, and cumulative gas is the prefix sum over receipts; a rejected transaction leaves no receipt. |
| Transitions.TooLittleGasLeaks | state/executor.go:602-622 | A transaction below its intrinsic gas is rejected after its gas left the pool, and the pool does not get it back. |
| Transitions.ProcessBlock | state/executor.go:135-156 | A block is rejected exactly when one of its executed transactions is; otherwise pool plus total gas is the gas limit, state and pool are those of the fold over the block, and receipts match the transactions that fit the block. |
| Transitions.BlockConserves | state/executor.go:135-156 | Over every block of well-priced transactions no balance becomes negative, the sum of balances never grows, and it is unchanged when nothing is destroyed. |
| TransactionLaws.AcceptedExactly | state/executor.go:1184-1205 | A transaction is accepted if and only if it carries the sender's nonce, its price fields cover the base fee, the sender can pay for all of its gas, the gas fits the pool and covers what is due by the bytes of its input, and a call leaves the nonce below 2^64. |
| TransactionLaws.StateTransactionAcceptedExactly | state/executor.go:1207-1238 | A state transaction is accepted if and only if the system caller sends it to a non-zero address, free and with its fixed gas, which fits the pool. |
| TransactionLaws.LeaksExactly | state/executor.go:602-637 | A rejection costs the pool the gas if and only if only the gas due, or the last nonce of a call, was in the way. |
| TransactionLaws.BeforeObserved | state/executor.go:589-637 | Before the run exactly the sender has paid for all of its gas, and for a call its nonce is one higher. |
| TransactionLaws.NonceMovesOnExactly | state/executor.go:631-639 | An applied transaction leaves its sender with a higher nonce, however its run ends, if and only if the nonce was not the last one. |
| TransactionLaws.NotAcceptedAgain | state/executor.go:469-477 | It is not accepted again in any context, as long as the sender's nonce does not fall. |
| TransactionLaws.LastNonceIsReplayed | state/executor.go:631-639 | A free contract creation with the last nonce is accepted again in the state it leaves. |
| TransactionLaws.NoReplayInBlock | state/executor.go:135-156 | In a block whose runs do not destroy the sender, two executed transactions of one sender carry rising nonces, unless the first carries the last one. |
| TransactionLaws.ProducerIsPaid | helper/staking/enhanced_staking.go:190-209 | Half of a fee, rounded down, is the owner's and the rest the producer's where the staking contract exists; else all is the producer's; nobody else is paid. |
| TransactionLaws.SettlementPays | state/executor.go:648-683 | Every balance after the settlement: unused gas back to the sender at the price paid, the tip shared, the base fee to the burn contract. |
| TransactionLaws.TransferTransactionPays | state/executor.go:589-689 | A transaction to an account without code: every balance afterwards; the value reaches the recipient if and only if the run does not fail and the sender owns it on top of the price of all the gas. |
| TransactionLaws.GasUsedExactly | state/runtime/runtime.go:122-132 | The gas used is what the run did not return, at least what is due, less a refund of at most half. |
| TransactionLaws.DestroyedIsGone | state/txn.go:550-585 | A destroyed account is gone once its transaction is finished, and the beneficiary has what it owned. |
| TransactionLaws.FinishedDeletes | state/executor.go:339-396 | Between transactions exactly the destroyed accounts and the touched empty ones disappear. |
| TransactionLaws.SucceedsExactly | state/executor.go:339-396 | A receipt reports success if and only if the sender owned the value on top of the price of all the gas and the run did not fail, or for a creation, the address was free and the code was deployed; hash, gas used and cumulative gas are the transaction's. |
| TransactionLaws.FailureLeavesNoLogs | state/executor.go:339-396 | A receipt carries the logs of its run, and without success none of them. |
| Chains.NewHeadIsNew | blockchain/blockchain.go:1140-1197 | A header that extends or overtakes the head was not stored before and no stored header descends from it. |
| Chains.WriteKeepsInv | blockchain/blockchain.go:1140-1197 | Every write keeps total difficulty additive along parents, the head maximal and childless and the tree rooted, and never lowers the head's total difficulty. |
| Chains.RunsAreSound | blockchain/blockchain.go:1140-1197 | The same over every run of writes from genesis, including refused ones. |
| Chains.HeadIsHeaviest | blockchain/blockchain.go:1140-1197 | In every run no stored header has a heavier branch than the head, by the difficulties of the whole branch added up. |
| Chains.HeadChosenExactly | blockchain/blockchain.go:1140-1197 | The head moves to its own child, whatever its difficulty, and else exactly to a strictly heavier branch. |
| Chains.ForksExactly | blockchain/blockchain.go:1200-1219 | The fork list loses the parent and gains the header, and nothing else changes. |
| Chains.IndexStaysExact | blockchain/blockchain.go:1140-1197 | An extension or a side branch keeps the canonical index equal to the head's ancestor path. |
| Chains.ReorgEntries | blockchain/blockchain.go:1278-1281 | After a reorganisation the right entries are exactly those up to the fork point, those from the old head's height on, and the new head's. |
| Chains.ReorgIndexExactly | blockchain/blockchain.go:1222-1299 | A reorganisation keeps the index exact if and only if it abandons one header and does not lose height. |
| Chains.ShallowRunsKeepIndex | blockchain/blockchain.go:1140-1299 | The index is exact throughout every run whose reorganisations are of that kind. |
| ChainStorage.BatchWriter.PutCanonicalHeader | blockchain/storage/batch_writer.go:54-60 | The batch gains the header, head, canonical and difficulty writes of a new head. |
| ChainStorage.BatchWriter.PutCanonicalHashes | blockchain/blockchain.go:1278-1281 | The batch gains one canonical write per header, in order. |
| ChainStorage.ApplyDescent | blockchain/storage/batch_writer.go:62-64 | Applying the canonical writes of a walked branch rewrites exactly the heights of that branch and no other table. |
| Blockchains.Event.Reorganise | blockchain/blockchain.go:1283-1297 | The event lists the walked old chain without the meeting point and then the old head, and the new head followed by the walked new chain. |
| Blockchains.AbandonedHeaders | blockchain/blockchain.go:1283-1287 | The old chain of a reorganisation event holds exactly the headers of the old branch above the fork point. |
| Blockchains.EventHeaderIsHeadExactly | blockchain/subscription.go:85-88 | The header an event reports is the new head if and only if the chain did not grow; otherwise it is the new branch at the old head's height. |
| Blockchains.HeadIsLeft | blockchain/blockchain.go:1257-1287 | An overtaking header does not descend from the head, so the walked old chain is never empty and dropping its last element is safe. |
| Blockchains.Blockchain.ReadHeader | blockchain/blockchain.go:456-480 | Through the cache, whatever was evicted, a read returns what the storage holds and keeps the cache in agreement. |
| Blockchains.Blockchain.ReadTotalDifficulty | blockchain/blockchain.go:506-529 | The same for total difficulties. |
| Blockchains.Blockchain.GetForksToWrite | blockchain/blockchain.go:1200-1219 | The loop removes the parent from the fork list and appends the header. |
| Blockchains.Blockchain.Descend | blockchain/blockchain.go:1237-1255 | The walk to a lower height ends, finds every parent, and collects the branch in descending order. |
| Blockchains.Blockchain.Lockstep | blockchain/blockchain.go:1257-1269 | Walking both branches together ends at their fork point; only the old branch is collected. |
| Blockchains.Blockchain.MeetingPoint | blockchain/blockchain.go:1229-1269 | The whole walk ends at the nearest common ancestor with a non-empty old chain. |
| Blockchains.Blockchain.HandleReorg | blockchain/blockchain.go:1222-1299 | The reorganisation never fails under the invariant, writes the fork list and the canonical entries of the walked new chain, and reports exactly the abandoned and adopted headers. |
| Blockchains.Blockchain.WriteHeaderImpl | blockchain/blockchain.go:1140-1197 | A header is refused exactly when its parent is unknown; otherwise the collected writes and the event are those of an extension, a reorganisation or a fork. |
| Blockchains.BatchWrites | blockchain/blockchain.go:1140-1299 | Applying the collected writes gives exactly the specified chain, for all three kinds of write. |
| Blockchains.Blockchain.WriteBatch | blockchain/storage/batch_writer.go:94-96 | The batch is applied put by put, in order. |
| Blockchains.Blockchain.WriteHeader | blockchain/blockchain.go:571-588 | Storage, current header, difficulty and caches change together as specified and all invariants are kept. |
| Blockchains.Blockchain.WriteBlock | blockchain/blockchain.go:866-933 | A block no higher than the head is ignored; any other is written as above. |
| Blockchains.Blockchain.GetHeaderByNumber | blockchain/blockchain.go:532-544 | With an exact index, a lookup by number gives the head's ancestor at that height and nothing above the head. |
| GasRules.VerifiedLimitExactly | blockchain/blockchain.go:1062-1093 | The check with signed 64-bit subtraction passes exactly the limits within a 1024th of the parent around the 64-bit circle, so the two ends of the range count as neighbours. |
| GasRules.NextLimitIsValid | blockchain/blockchain.go:356-384 | For all 64-bit limits and targets the computed limit passes the verification; it lies between the parent's limit and the target if and only if the sum does not overflow. |
| GasRules.NextLimitIsNearest | blockchain/blockchain.go:356-384 | Of all limits that a block may set, the computed one is nearest to the target. |
| GasRules.ReachesTargetExactly | blockchain/blockchain.go:356-384 | Where no sum on the way overflows, a chain reaches its gas target in finitely many blocks if and only if it starts there, or starts from at least 1024 towards at least 1023. |
| GasRules.OverflowLosesTarget | blockchain/blockchain.go:356-384 | A limit whose step up overflows falls to zero and never reaches its target. |
| GasRules.BaseFeeExactly | blockchain/blockchain.go:1355-1397 | Wherever base fee times gas limit fits 64 bits, by inequalities: at the target the fee stays; below it falls by the share of the fee that the missing gas is of the target, divided by the denominator and rounded down; above it rises by that share of the excess, and by one at least; without a base fee it is that of the genesis or one billion. |
| GasRules.FeeIsExact | blockchain/blockchain.go:1355-1397 | There the 64-bit rule agrees with the rule on integers: no product, sum or difference overflows. |
| GasRules.OverflowedFee | blockchain/blockchain.go:1393-1397 | A full block with a product of 2^64: the fee rises by one instead of an eighth. |
| GasRules.BaseFeeIsMonotone | blockchain/blockchain.go:1355-1391 | Wherever base fee times gas limit fits 64 bits, the 64-bit base fee never falls when more gas was used. |
| GasRules.BaseFeeMoves | blockchain/blockchain.go:1355-1391 | The 64-bit base fee falls by at most one part in the denominator and rises exactly when the target was exceeded. |
| GasRules.BaseFeeStaysPositiveExactly | blockchain/blockchain.go:1355-1397 | A positive base fee stays positive whatever the blocks use if and only if the denominator is at least two. |
| GasRules.FeeChainStaysPositive | blockchain/blockchain.go:1355-1397 | Then no block of any chain of 64-bit base fees loses its base fee. |
| Merkle.NewLevel | merkle-tree/merkle_tree.go:93-113 | Each node of the new level hashes its two children, the last node of an odd level being its own sibling. |
| Merkle.NewMerkleTree | merkle-tree/merkle_tree.go:83-120 | Every non-empty list of leaves gets a tree of levels built one on the other up to one root; the empty list is an error. |
| Merkle.DepthIsLogarithm | merkle-tree/merkle_tree.go:144-146 | The number of levels above the leaves is the rounded-up binary logarithm of the number of leaves. |
| Merkle.LeafIndex | merkle-tree/merkle_tree.go:123-131 | The first position of the leaf, or an error exactly when it is not in the tree. |
| Merkle.GenerateProof | merkle-tree/merkle_tree.go:149-169 | The generated proof computes the root from the leaf's first position and ends at the first node on the way up that has the root's hash; there is none exactly for a missing leaf. |
| Merkle.GeneratedProofVerifiesExactly | merkle-tree/merkle_tree.go:149-203 | A generated proof verifies at the leaf's index if and only if the leaf is not empty and the first node on its way up with the root's hash is the first of its level, as the root is. |
| Merkle.LevelsAreDisjoint | merkle-tree/merkle_tree.go:93-113 | With injective hashing that separates leaves from nodes, no two levels of a tree share a hash. |
| Merkle.GeneratedProofsVerify | merkle-tree/merkle_tree.go:149-203 | With such hashing every generated proof has the length of the depth and verifies. |
| Merkle.CollidingTreeFails | merkle-tree/merkle_tree.go:149-203 | A tree with colliding hashes whose generated proof for its second leaf is rejected. |
| Merkle.VerifyProof | merkle-tree/merkle_tree.go:188-226 | The loop accepts exactly the proofs that fold to the root for a non-empty leaf whose index, read as a signed integer, is below the bound computed from the length. |
| Merkle.IndexesThatPass | merkle-tree/merkle_tree.go:193-195 | For proofs of up to 62 hashes the range check lets through the indexes below two to the length, and all from 2^63 on. |
| Merkle.HighIndexPasses | merkle-tree/merkle_tree.go:188-203 | A proof of up to 62 hashes accepted at an index is accepted 2^63 above it as well. |
| Merkle.LowBitsDecide | merkle-tree/merkle_tree.go:206-226 | Only the index modulo two to the length of the proof steers the computation. |
| Merkle.FullProofIsSound | merkle-tree/merkle_tree.go:206-226 | With injective hashing, a hash from which a full-length proof computes the root stands in the lowest level, and at its index if that is in range. |
| Merkle.AcceptedProofsAreSound | merkle-tree/merkle_tree.go:188-226 | With injective hashing, every accepted proof of full depth shows a leaf of the tree: the one at the index modulo two to the depth, when that is below the number of leaves. |
| Rlp.DeclaredSize | archive/restore.go:237-266 | The prefix of every encoded list is recognised with its exact header and payload size, whatever follows it. |
| Rlp.HeadersByNumbers | archive/restore.go:237-266 | The prefixes that are recognised, in numbers, on both sides of each change of form. |
| ArchiveReader.BlockStream.ReserveCap | archive/restore.go:305-311 | The buffer grows to the size asked for and keeps the bytes already read; a size of 2^63 or more panics. |
| ArchiveReader.BlockStream.LoadPrefixSize | archive/restore.go:237-266 | The sizes announced by the prefix are read, or an error is given exactly when no list starts or its size is cut off. |
| ArchiveReader.BlockStream.LoadRlpArray | archive/restore.go:203-222 | For every input: what is consumed, what the buffer then holds, and exactly when loading ends, fails or panics. |
| ArchiveReader.PrefixDecides | archive/restore.go:268-311 | A prefix that announces 2^63 bytes or more in all makes the reader panic whatever follows; otherwise loading fails exactly when a payload is announced and nothing follows. |
| ArchiveReader.BlockStream.LoadAll | archive/restore.go:184-200 | Loading a concatenation of encoded lists returns exactly those lists and then the end of input. |
| ArchiveReader.CutIsNoticedExactly | archive/restore.go:269-278 | A file cut inside a list is noticed if and only if no byte of the payload is left. |
| ArchiveWriter.BlockStreamWriter.AppendBlock | server/system_service.go:259-278 | The block is appended; what was buffered is sent first exactly when the block would not fit, so only a single block may exceed the limit. |
| ArchiveWriter.BlockStreamWriter.Flush | server/system_service.go:280-305 | The buffered blocks become one event with their first and last height; an empty buffer sends nothing; no block is lost. |
| ArchiveWriter.SentIsEverything | server/system_service.go:179-311 | The data of the events concatenates to the encodings of all blocks in order. |
| ArchiveWriter.RangesTile | server/system_service.go:179-311 | The ranges of the events tile the exported heights without gap or overlap. |
| ArchiveWriter.AppendBlocks | server/system_service.go:208-221 | The loop appends exactly the blocks from the first height up to the bound or the first missing height, in order. |
| ArchiveWriter.Export | server/system_service.go:179-228 | The events carry exactly the blocks from the first height to the bound or the first missing height; an empty range is an error. |
| ArchiveWriter.Receive | archive/backup.go:147-208 | The file is the concatenation of the event data and the reported range spans from the first event to the last. |
| ArchiveWriter.ExportThenRestore | archive/restore.go:203-311 | Exporting, filing and loading gives back exactly the chain's encodings in order, for every chain and every payload limit. |
| ForkManagers.Search | forkmanager/fork_manager.go:143-145 | The binary search finds the first entry satisfying a monotone predicate. |
| ForkManagers.ForkManager.AddHandler | forkmanager/fork_manager.go:210-236 | The handler enters its list at the place that keeps it strictly sorted by block and id; other lists stay. |
| ForkManagers.ForkManager.RemoveHandler | forkmanager/fork_manager.go:238-255 | Exactly the entry with the block and id leaves its list. |
| ForkManagers.ForkManager.GetHandler | forkmanager/fork_manager.go:134-152 | The search returns the naive choice over all active forks: the largest block and id not above the query, or nothing exactly when there is none. |
| ForkManagers.ForkManager.RegisterFork | forkmanager/fork_manager.go:47-58 | Registering keeps the index exact if and only if it does not replace an active fork that has handlers. |
| ForkManagers.ForkManager.RegisterHandler | forkmanager/fork_manager.go:61-78 | Registering a handler keeps the index exact if and only if its fork is not active yet. |
| ForkManagers.ForkManager.ActivateFork | forkmanager/fork_manager.go:82-105 | All handlers of the fork enter the index in whatever order they are visited, and the index stays exact. |
| ForkManagers.ForkManager.DeactivateFork | forkmanager/fork_manager.go:109-131 | All handlers of the fork leave the index and the index stays exact. |
| Validators.OptimalQuorumsIntersect | consensus/ibft/validators.go:35-49 | Any two optimal quorums of a validator set share more than F members. |
| Validators.OptimalQuorumIsLeast | consensus/ibft/validators.go:35-49 | Of four or more validators an optimal quorum is the least size for which any two sets of that size share more than F members. |
| Validators.OptimalQuorumExactly | consensus/ibft/validators.go:35-49 | All of fewer than four validators, else two thirds rounded up. |
| Validators.MaxFaultyExactly | consensus/ibft/validators.go:10-23 | F is the largest number below a third of the validators. |
| Validators.CorrectMembersAreAQuorum | consensus/ibft/validators.go:10-49 | The members left when at most F are faulty are enough for an optimal quorum. |
| Validators.LegacyQuorumsIntersectExactly | consensus/ibft/validators.go:28-32 | Any two legacy quorums share more than F members if and only if N = 3F + 1. |
| Validators.EveryValidatorOnce | consensus/ibft/validators.go:51-73 | Of as many consecutive rounds as there are validators, each validator is the proposer of exactly one, as long as the 64-bit count does not overflow. |
| Validators.NextInLine | consensus/ibft/validators.go:61-70 | After a member has proposed, round r is the turn of the one r + 1 places behind it. |
| Validators.NotTwiceInARow | consensus/ibft/validators.go:61-70 | The last proposer is the proposer of round zero if and only if it is the only validator. |
| Validators.NoLastProposer | consensus/ibft/validators.go:56-70 | Without a last proposer the count starts at the first member, and after one that left the set at the second. |
| Validators.ValidatorSet.CalcProposer | consensus/ibft/validators.go:51-73 | The proposer is the member that the round picks, counted in 64 bits from the place after the last proposer, from the second place if that one left, or from the first if there was none. |
| Validators.ValidatorSet.Index | validators/set.go:67-75 | The first position of the address, or -1 exactly when it is not a member. |
| Validators.ValidatorSet.Add | validators/set.go:84-96 | A member of the right kind with a new address is appended; otherwise nothing changes; addresses stay distinct. |
| Validators.ValidatorSet.Del | validators/set.go:99-113 | The member with the address leaves and the others keep their order; otherwise nothing changes. |
| Validators.ValidatorSet.Merge | validators/set.go:116-134 | The members with new addresses are appended in order; the addresses become the union and stay distinct. |
| Validators.MergedAppends | validators/set.go:116-134 | A merge keeps the old members in front and appends only members of the other set with new addresses; addresses stay distinct. |

## Left out

- The virtual machine, precompiles and address lists: a transaction's run is an arbitrary tree of host operations with an arbitrary outcome and an arbitrary amount of returned gas.
- The call depth limit: a call refused for its depth has no effect and is simply not part of the tree.
- Signatures, hashing, RLP of blocks and transactions, and the tries: hashes are opaque numbers without collisions, an encoding is a list frame around opaque bytes.
- Real goroutine scheduling: each region under the account locks, and each atomic counter or index update, is one step.
- Stale promotion requests beyond one per account: the machine records for which accounts at least one request waits.
- A transaction whose nonce is the last 64-bit value: the steps of the machine exclude it, and what promotion does with it is stated by `PromoteKeepsWellFormed`.
- Gossip, the validation rules of `validateTx`, the skip counters, metrics and events of the pool.
- The size of `enqueued`: the source compares it for equality before promotion runs, so no bound holds in between.
- Fees under LondonFixForkV1, non-payable calls, and fee conservation of state transactions.
- The code cache keyed by address: code is part of the account object.
- Committing the overlay to the tries after a block.
- Recovering the sender of a transaction from its signature, tracers, bloom filters and contract addresses in receipts.
- Bodies, receipts, transaction lookup, gas price averages and consensus verification around a written block.
- Fork activation by block number: the gas and fee rules take the active forks as given.
- Fork parameters and their inheritance between forks.
- Archive metadata, block parsing, and skipping the blocks that a chain already has.
- Readers that return fewer bytes than available and asked for.
- Networking, JSON-RPC, command line, secrets and configuration.
- Merkle.NewMerkleTree: node pointers are modelled as positions in levels.
- Merkle.VerifyProof: what a power of two from 2^63 on converts to is a parameter, since Go leaves it to the platform.
- ArchiveReader.BlockStream.ReserveCap: an allocation below 2^63 bytes always succeeds.
- BlockBuilding.WriteTransactions: promoted queues are lists in order of nonce, not heaps, and nothing is added meanwhile; the hook that disables the loop for a block is left out.
- Transitions.BlockConserves: the block reward that a hook mints before the state is committed (consensus/ibft/fork/hooks.go:138) is outside the block's transactions.
- GasRules.ReachesTargetExactly: a rising limit whose step overflows is excluded; `OverflowLosesTarget` gives one that never arrives.
- GasRules.BaseFeeIsMonotone: fees and limits whose product exceeds 64 bits are excluded; `OverflowedFee` gives one.
- Validators.EveryValidatorOnce: rounds in which the 64-bit count overflows are excluded.
- Validators.NextInLine: rounds in which the 64-bit count overflows are excluded.
- GasRules.BaseFeeExactly: fees and limits whose product exceeds 64 bits are excluded; `OverflowedFee` gives one.
- GasRules.NextLimitIsNearest: a step whose sum overflows is excluded; `NextLimitIsValid` says what it does.
- TransactionLaws.TransferTransactionPays: a negative tip is excluded; `CreditBalance` covers it.
- TransactionLaws.NoReplayInBlock: a sender that a run of the block destroys is excluded, since its nonce starts anew.
- Refunds.ExecAllKeepsCover: runs with so many writes that refunds alone could exceed 2^64 are excluded.
