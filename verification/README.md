# Chain, state and event models of an op-geth node with frags

A Dafny model of the hard state machines in an OP-stack execution node: the block and header chains and their reorganisations, rewinds, the state transition and its ether and gas accounting, the unsealed block that grows by frags, the event feed, the chain indexer, the block-hash cache, the trie reference collector and the wallet path parser.

`dafny verify dfyconfig.toml` checks everything.

## How the model is built

- **Blocks.** `BlockTree` holds blocks by hash. A store may be gapped: a parent may be missing. What consensus validation gives is written out once, as `WellFormed`: a hash identifies its block, no block hashes to zero, a stored parent sits one height below. `Path` is a block's ancestor path, `Ancestor` the parent-by-parent walk; the canonical table is a map from height to hash.
- **Chains.** `HeaderChain`, `BlockChain`, `SetHead` and `Rewind` are classes and methods over that store. Database batches are single assignments; several fields assigned together are one batch.
- **State.** `StateTransition` gives one message as a function of account state and gas pool; `ApplyMessage` is the object that does it step by step and is proved equal to the function. `MessageRules` and `Payments` say what that function comes to, in terms of the transaction, the rules of the fork and the accounts: which rules a transaction must keep, who pays, and who is paid. The EVM is a parameter: any function that returns no more gas than it got, keeps words in range, neither creates nor destroys ether and never takes back a nonce of the sender. So a self-destruct that burns its own balance is outside the ether results.
- **Frags.** `Frags` compares processing in frags with processing as one block for any per-transaction step with the pool law of `Frags.Lawful`, and then shows that messages obey that law. The system calls before the transactions and the finalisation after them are parameters; the refinement asks that on every state reached after the system calls neither they nor finalisation change anything (`Settles`).
- **Concurrency.** What other goroutines may do is a method (`Others`) with non-deterministic steps, called wherever the lock is free. Whether a channel is ready, which case a select picks and which removal it takes are non-deterministic too. The one place where the indexer writes without its lock, a failed backend reset, is a state machine of its own (`IndexerRaces`): every single read and write of the section count and of the table, by the reset, a reorg or a verification, is a step, and the steps of the two goroutines fall in any order.
- **Moving databases.** The indexer and the block-hash cache read headers that may come and go. A hash fixes its header's parent and number for ever (`ContentHashes`); what is readable at the moment is a parameter.

## Where the code does less than one would expect

Each has its exact condition in a contract; those that break a promise also come with a concrete input.

- An ancestor query from the zero hash above the table can answer with a canonical block (`GetAncestor`, `PhantomAncestor`), and one that meets the table at a stale slot with a block of another chain (`MisledAncestor`).
- Inserting headers is documented as all-or-nothing, but a batch whose parent is known and whose older ancestors are missing is stored although the insert fails (`InsertHeaders`, `StoredThoughRefused`).
- A block that extends the full head while the table reaches above it, as after a rewind that leaves the head header ahead, leaves the slots above it in place: no reorganisation runs (`WriteKnownBlock`, `StaleSlotSurvives`). A later header batch can then stop relinking at such a slot (`HeaderChain.Reorg`, `TableMisled`).
- Moving the head to a block that is already on its chain announces that block's logs once more (`SetCanonical`, `LogsRepeated`).
- Rewinding to a height at or above the head deletes nothing, so side headers above the target survive (`SetHead`, `SideHeaderSurvives`). A rewind leaves the lookup entries of dropped blocks behind (`RewoundIndex`).
- A repair that lands below the ancient limit deletes headers but not the snap marker on disk, which then names a missing block; in memory the snap head falls back to the full head (`SetHeadBeyondRoot`, `RepairStrandsSnapMarker`). A rewind by time may stop with the full head below that limit, if that block is as late as the time asked for (`Rewound`).
- The hash-scheme rewind dereferences a missing parent when it runs out of headers above the requested root at a block with state (`RewindHashHead`, `MissingParent`).
- A failed deposit can wrap the balance or the nonce of an account that is already full (`FailedDeposit`, `DepositWraps`).
- A system deposit that cannot run under Regolith is charged its limit without having drawn on the pool (`PoolPays`, `SystemDepositUnpaid`).
- Frags can be accepted one by one although no block with all their transactions is (`BlockFromFrags`, `FragsCanOverrun`); the last frag is then refused, because sealing executes the whole block again (`SealsWithinLimit`). A rejected frag has already moved the block's gas counter (`InsertNewFrag`); the engine call then discards the block.
- A backend reset that fails clears the section index without the lock. A reorg that drops sections, or any verification, that overlaps it can leave a count without heads (`TornRun`), a head above the count (`SkippedHead`) or a count of 2^64-1 (`WrappedCount`); `SafeExactly` says which operations cannot. The next verification mends the index exactly when no head is above the count and the chain differs from every counted section above the linked ones (`VerifyLastHead`, `Mendable`); a count without heads only if the chain is known at all their ends (`EmptyMends`), so on no real chain one of 2^64-1.
- Documentation says whitespace in a wallet path is ignored; it is, except inside a number (`PathWhitespaceIgnored`, `SpacedDigits`). The empty path prints as `m`, which does not parse (`RoundTrip`).

## Model

| member | source | states |
|---|---|---|
| HeaderChains.HeaderChain.Reorg | op-geth/core/headerchain.go:126-190 | For any contiguous stored batch on a table that is the head header's path: succeeds exactly when the batch is empty or its last header has all ancestors; then the table is exactly that header's path and it is the head; otherwise nothing changes. On a table that reaches above the head: it becomes that path if and only if it did not reach above a batch that extends the head, or held the ancestors of the block where any other batch met it |
| HeaderChains.HeaderChain.RelinkBackwards | op-geth/core/headerchain.go:149-167 | On any table: fails exactly when an ancestor is missing before the table agrees with one; otherwise the slots up to the first header are its path if and only if the table held the ancestors of the block it met; the slots above stay |
| HeaderChains.HeaderChain.DeleteAbove | op-geth/core/headerchain.go:141-148 | In a table without holes, deleting upwards until the first empty slot empties every slot above |
| HeaderChains.HeaderChain.ExtendCanonical | op-geth/core/headerchain.go:169-181 | Writing each slot from the next header's parent hash, and the last from its own, puts every header of the batch in its slot and touches no other |
| HeaderChains.ExtensionIsPath | op-geth/core/headerchain.go:169-181 | What the batch's slots leave is the last header's path if and only if the slots below the batch were its first header's ancestors and those above it empty |
| HeaderChains.HeaderChain.InsertHeaders | op-geth/core/headerchain.go:196-284 | The last of a validated batch becomes canonical exactly when the parent is known and rooted, and the head unless it was canonical already; otherwise table and head stay, but the batch is stored whenever its parent is known |
| HeaderChains.HeaderChain.GetAncestor | op-geth/core/headerchain.go:361-393 | On any sound table, a non-empty answer is the plain parent walk if and only if the query is not the zero hash above the table and the slot where the walk meets the table is on one chain with the slot of the answer; from a real hash it is non-empty exactly when the walk fits the budget or meets the table within it; the budget returned is less by the steps to the first place where the walk stops |
| HeaderChains.HeaderChain.ValidNeverMisleads | op-geth/core/headerchain.go:375-380 | A table that is the head header's path answers only with the walk, but for the zero hash above the head |
| HeaderChains.MisledAncestor | op-geth/core/headerchain.go:375-380 | A concrete table with a slot left above the head, and a query it answers with a block of another chain |
| HeaderChains.PhantomAncestor | op-geth/core/headerchain.go:372-381 | A concrete query that is answered although no walk leads there |
| HeaderChains.StoredThoughRefused | op-geth/core/headerchain.go:196-284 | A concrete batch that is stored although its insert fails |
| HeaderChains.TableMisled | op-geth/core/headerchain.go:149-167 | A concrete table with a slot left above the head, on which a batch succeeds and the result is no block's path |
| BlockChains.FindFork | op-geth/core/blockchain.go:2228-2279 | Levelling and stepping back finds the highest common block with the stretches above it, and fails exactly when the old head is missing or the chains never meet |
| BlockChains.BlockChain.Reorg | op-geth/core/blockchain.go:2219-2392 | From any sound table, also one that reaches above the full head: on success table and lookup index are one head write away from the new chain's, and the removed and reborn logs were sent completely and in order; on failure nothing changed |
| BlockChains.BlockChain.WriteStretch | op-geth/core/blockchain.go:2309-2320 | After each intermediate head write the slots up to the block just written are its ancestor path; all other slots are as before |
| BlockChains.BlockChain.DropStale | op-geth/core/blockchain.go:2322-2347 | One batch deletes the lookup entries only the dropped blocks held and empties every slot above the rewritten part |
| BlockChains.BlockChain.WriteHeadBlock | op-geth/core/blockchain.go:1082-1103 | One batch sets slot, lookup entries and all three heads; if the ancestors are in place the table then leads to the block |
| BlockChains.BlockChain.WriteKnownBlock | op-geth/core/blockchain.go:1468-1477 | Every head move keeps the table unbroken and, up to the head, its ancestor path. It becomes exactly that path if and only if the block does not extend the head or the table did not reach above the block. A whole lookup index stays whole, and one with lingering entries complete, if and only if no transaction repeats on the new chain. Failure, exactly when the chains never meet, changes nothing |
| BlockChains.BlockChain.SetCanonical | op-geth/core/blockchain.go:2412-2453 | As above, and the events turn the old chain's log multiset into the new one's if and only if the block was not on the old head's chain or has no logs |
| BlockChains.BlockChain.WriteBlockAndSetHead | op-geth/core/blockchain.go:1569-1598 | The same for a block stored just before; an unknown parent changes nothing |
| BlockChains.ChildSlot | op-geth/core/blockchain.go:1468-1477 | Writing one slot for a child of the head keeps the table sound, and makes it the child's path exactly when it did not reach above the child |
| BlockTree.ExactIsSound | op-geth/core/blockchain.go:1082-1103 | A table that is a header's path is sound for every block on it, and reaches just as high as that header |
| BlockChains.StaleSlotSurvives | op-geth/core/blockchain.go:1468-1477 | Three blocks, full head at genesis, header head at the third: writing the second leaves the third's slot |
| BlockChains.LogsRepeated | op-geth/core/blockchain.go:2435-2439 | Making the head canonical once more sends a log that is already in the chain |
| BlockChains.IndexMoves | op-geth/core/blockchain.go:2237-2330 | The index left by deletions and rewrites names a height for a transaction exactly when that block of the new chain holds it, transactions shared by both forks included |
| BlockChains.CoverMoves | op-geth/core/blockchain.go:2237-2330 | The same completeness for an index in which entries of other blocks linger |
| BlockChains.EmitLogs | op-geth/core/blockchain.go:2358-2390 | Batching loses, repeats and reorders no log; every batch but the last exceeds 512 |
| BlockChains.HeadLogsReplay | op-geth/core/blockchain.go:2358-2439 | Removed and announced logs replay the old log stream into the new one exactly when the head is new or has no logs |
| BlockChains.ForkPaths | op-geth/core/blockchain.go:2254-2279 | A block that shares an ancestor with a rooted chain is rooted, and both paths agree up to that ancestor |
| Rewinding.RewindHashHead | op-geth/core/blockchain.go:661-734 | Terminates; returns the highest block with state at or beyond the requested root, or height zero when there is none down to the limit, with the root's height; dereferences a missing header exactly at a dead end |
| Rewinding.RewindPathHead | op-geth/core/blockchain.go:737-809 | The same with recoverable states, which are recovered before the block is returned; never meets a missing header |
| Rewinding.MissingParent | op-geth/core/blockchain.go:725-732 | A concrete gapped chain that is such a dead end |
| SetHeads.RewindHead | op-geth/core/blockchain.go:819-824 | On a chain from genesis the search answers the highest suitable block, stays on the chain at or below its start, never meets a gap and ends with state or at height zero |
| SetHeads.UpdateHeads | op-geth/core/blockchain.go:852-909 | One batch lowers the full and snap heads to whole blocks of the chain at or below the header, all ancestors of the full head with their bodies; the abort for a stateless block above genesis is unreachable; says exactly when to go on below the ancient limit, and reports a height of the chain with the requested root |
| SetHeads.StepDown | op-geth/core/headerchain.go:565-597 | One iteration keeps all heads on one stored chain with bodies, none above the head header; the full head is what a search from the new head header answers if that came down to it, and else stays; the target moves to the full head exactly when that is below the ancient limit, not below the pivot and not yet reached |
| SetHeads.Collect | op-geth/core/headerchain.go:599-626 | The deletions of an iteration are every block and the slot at that height and, the first time, every block and slot above it |
| SetHeads.RewindOne | op-geth/core/headerchain.go:565-627 | Every iteration keeps the heads consistent, the full head on the answer of a search and the pending deletions equal to everything above the head header |
| SetHeads.BoundaryHolds | op-geth/core/headerchain.go:582-626 | At every batch boundary, whatever part of the pending deletions has reached the disk, the markers name whole blocks of one chain |
| SetHeads.Chain.SetHead | op-geth/core/headerchain.go:540-636 | If the head was above the target, nothing above the final head survives and the table is exactly its path, whatever stale slots the old one had; otherwise nothing changes, stale slots included; the final head is at the target unless moved below the ancient limit, and the rewind goes on until the full head is not below that limit or has no header above it; the ancient store is cut at the final head; the markers after each batch are good boundaries and disk follows memory |
| SetHeads.Chain.LoadLastState | op-geth/core/blockchain.go:498-572 | Reading the markers back never resets the chain, and gives consistent heads with bodies whether or not the snap marker is stranded |
| SetHeads.Chain.SetHeadBeyondRoot | op-geth/core/blockchain.go:838-965 | On every return the heads in memory are consistent with bodies; a rewind lands where told, goes on below the ancient limit as far as it must, and strands no marker; the table is afterwards exactly the head header's path if and only if it was before or headers were removed; the full head stays unless the head header came down to it, and then is the highest suitable block for a search from a block of the chain between the final head header and the old full head, from the final head header itself unless it is lower; a repair ends at the highest suitable block for a search from the old full head, which has state, and strands the snap marker on disk if and only if it removes headers below that marker's block; a root number reported is a height of the old chain with that root, at or above the full head |
| SetHeads.NothingBetter | op-geth/core/blockchain.go:661-809 | Without a root to pass, no block between the full head and the final head header had its state, down to the search limit |
| SetHeads.Landed | op-geth/core/headerchain.go:628-631 | Flushing the pending deletions disturbs no head at or below the final one, nor its bodies |
| SetHeads.LandedTable | op-geth/core/headerchain.go:599-626 | Flushing leaves exactly the final head's path in any sound table, however far it reached above the head |
| SetHeads.RepairStrandsSnapMarker | op-geth/core/blockchain.go:933-936 | A concrete consistent chain whose repair deletes the block the snap marker on disk names, while the heads in memory stay consistent |
| SetHeads.GoesOnBelowLimit | op-geth/core/headerchain.go:583-589 | A concrete frozen chain whose rewind to its first block goes on to genesis |
| SetHeads.RewoundIsSound | op-geth/core/blockchain.go:964-965 | Every rewind ends in a state from which the block chain's head moves start; the table is the head header's path exactly when it reaches no further |
| SetHeads.RewoundIndex | op-geth/core/blockchain.go:911-930 | Lookup entries are left in place: the index still finds every transaction of the new full head's chain, and is whole for it exactly when no dropped block held a transaction |
| SetHeads.SideHeaderSurvives | op-geth/core/headerchain.go:559-565 | A concrete rewind after which a header above the target is still stored |
| IntrinsicGases.IntrinsicGas | op-geth/core/state_transition.go:71-118 | Overflow exactly when the unbounded base, data and init-code cost exceeds 64 bits; otherwise that cost plus the access list, modulo 2^64 |
| IntrinsicGases.CostInFigures | op-geth/core/state_transition.go:71-113 | Base, data and init code cost 21000 or 53000, 4 a zero byte, 16 or 68 any other, and 2 a word |
| IntrinsicGases.NonZerosCounted | op-geth/core/state_transition.go:83-89 | The bytes counted are those that are not zero |
| IntrinsicGases.ListedAddress | op-geth/core/state_transition.go:108-111 | Each listed address adds 2400 and 1900 a storage key |
| IntrinsicGases.RoomFor | op-geth/core/state_transition.go:94-111 | The division test detects exactly the sums that do not fit |
| IntrinsicGases.ToWordSize | op-geth/core/state_transition.go:121-127 | The exact ceiling of size/32 on all of 64 bits |
| ApplyMessages.GasPool.AddGas | op-geth/core/gaspool.go:29-35 | Panics exactly when the sum passes 64 bits; the only caller is shown never to |
| ApplyMessages.GasPool.SubGas | op-geth/core/gaspool.go:39-45 | Fails exactly when the pool holds less, and then takes nothing |
| ApplyMessages.StateTransition.BuyGas | op-geth/core/state_transition.go:254-306 | Error order and conditions, and on success exactly the charge deducted and the limit taken from the pool |
| ApplyMessages.StateTransition.PreCheckMessage | op-geth/core/state_transition.go:308-406 | Deposits skip all but the gas limit, system deposits that too before Regolith; the rest pass exactly when no rule objects and gas can be bought |
| ApplyMessages.StateTransition.RefundGas | op-geth/core/state_transition.go:625-652 | The capped refund and the unspent gas go back to balance and pool, which cannot overflow |
| ApplyMessages.StateTransition.InnerTransition | op-geth/core/state_transition.go:464-623 | The mutating run ends in the state, pool and error of the message function |
| ApplyMessages.StateTransition.TransitionDb | op-geth/core/state_transition.go:418-462 | The mutating run of a whole message, minting and deposit failure included, equals the message function |
| MessageRules.Verdict | op-geth/core/state_transition.go:322-401 | A transaction that is not a deposit is applied if and only if it breaks none of seventeen rules, written out on the transaction, and is otherwise rejected for the first it breaks in order; no other error can occur |
| MessageRules.CheckIsFirst | op-geth/core/state_transition.go:308-401 | The checks before execution report the first broken rule up to the pool's |
| MessageRules.NoneBroken | op-geth/core/state_transition.go:322-401 | There is no first broken rule exactly when every rule is kept |
| MessageRules.NoReplay | op-geth/core/state_transition.go:324-340 | Once a transaction is applied, call or creation, it is rejected for its nonce in every later state, under any rules and any pool |
| MessageRules.DepositVerdict | op-geth/core/state_transition.go:309-321 | A deposit is rejected exactly when it is not a system one and the pool is too small; of the others exactly those that cannot run are included as failed |
| Payments.Effect | op-geth/core/state_transition.go:480-626 | For every account: before the run the sender has paid gas, L1 cost and blob fee and a call has used its nonce; after it the balance is what the run left plus the account's share of unspent gas, tip, base fee and L1 cost; the gas used counts a refund of at most a fifth, or half before London |
| Payments.SettleShares | op-geth/core/state_transition.go:574-620 | Settlement credits the sender, the beneficiary, the base fee recipient and the L1 fee recipient with their amounts and no one else |
| Payments.DepositEffect | op-geth/core/state_transition.go:540-577 | A deposit that ran starts with its mint and changes no balance beyond its run; it reports all its gas, none if it is a system one, or after Regolith what it used |
| StateTransitions.PoolPays | op-geth/core/state_transition.go:431-657 | For every applied message the pool falls by exactly the gas reported, if and only if it is not a system deposit with a gas limit that cannot run under Regolith, a condition on message, state and rules alone |
| StateTransitions.SystemDepositUnpaid | op-geth/core/state_transition.go:431-453 | Such a deposit reports gas that no pool gave |
| StateTransitions.PoolShift | op-geth/core/state_transition.go:254-657 | With any other pool a message has the same effect and takes the same gas, or is rejected for the gas limit when the pool is below its need |
| StateTransitions.PriceWithinCap | op-geth/core/state_transition.go:164-192 | The effective price never exceeds the fee cap; deposits pay nothing; only deposits mint |
| StateTransitions.ChargeCovered | op-geth/core/state_transition.go:254-306 | What passes the checks is charged at most the checked amount less the value: it fits a word, the deduction does not underflow, and the total falls by exactly the charge |
| StateTransitions.TransferCovered | op-geth/core/state_transition.go:513-519 | No message that passed the checks fails for want of the value it transfers |
| StateTransitions.TipPlusBaseFee | op-geth/core/state_transition.go:186-188 | The effective price is the effective tip plus the base fee, as in the Specification section of EIP-1559 |
| StateTransitions.EtherAccounting | op-geth/core/state_transition.go:464-623 | A transaction that is not a deposit lowers the total by what the sender spends beyond what accounts are credited with |
| StateTransitions.EtherConserved | op-geth/core/state_transition.go:578-614 | After Bedrock that is exactly the blob fee |
| StateTransitions.DepositIncluded | op-geth/core/state_transition.go:418-462 | A deposit with a representable mint is rejected exactly when it is not a system one and the pool is below its limit, and then for that reason |
| StateTransitions.FailedDeposit | op-geth/core/state_transition.go:431-453 | A failed deposit keeps exactly its mint and advances the nonce by exactly one if and only if neither word wraps, and changes nothing else |
| StateTransitions.DepositWraps | op-geth/core/state_transition.go:431-453 | A concrete failed deposit where both wrap |
| StateTransitions.DepositEther | op-geth/core/state_transition.go:418-577 | Any deposit, failed or not, changes the total by exactly its mint while the supply fits a word |
| Frags.FragsRefineBlock | op-geth/core/blockchain_insert.go:180-233 | If the concatenation succeeds as one block, every split into frags succeeds with the same state and the same gas per transaction |
| Frags.BlockFromFrags | op-geth/core/state_processor.go:60-122 | Accepted frags make an acceptable block if and only if, by the gas the frags reported, the gas limit covers each transaction's own limit on top of what was drawn before it; a system deposit draws nothing |
| Frags.BlockOnOnePool | op-geth/core/state_processor.go:60-122 | The same for any transactions, in terms of a pool that never runs short |
| Frags.ShortByGas | op-geth/core/state_processor.go:89-103 | Running short is decided by the reported gas, a system deposit counting as nothing |
| Frags.FragsCanOverrun | op-geth/core/blockchain_insert.go:180-219 | Under any rules, two deposits accepted as two frags and rejected as one block |
| Frags.PoolChange | op-geth/core/state_processor.go:89-103 | A successful batch does the same on another pool exactly when that pool never runs short |
| Frags.GasOfBatch | op-geth/core/state_processor.go:89-103 | The gas one processing call reports, less that of system deposits, is its limit less the remaining pool |
| Frags.FollowsLawful | op-geth/core/state_processor.go:127-161 | Transactions as messages obey the law the refinement rests on: the pool decides only whether one fits, and each draws what it reports, a system deposit nothing |
| UnsealedBlocks.ProcessWithCumulativeGas | op-geth/core/state_processor.go:60-122 | The loop is the batch on a fresh pool; the caller's counter advances by what was applied even when a later transaction is rejected; receipts carry the running counter |
| UnsealedBlocks.ApplyTransaction | op-geth/core/state_processor.go:127-161 | One transaction through the mutating state transition and the shared pool |
| UnsealedBlocks.ReceiptAt | op-geth/core/state_processor.go:158-160 | The i-th receipt's cumulative gas is the sum of the gas used up to it, modulo 2^64 |
| UnsealedBlocks.CounterIsSum | op-geth/core/state_processor.go:116-121 | The block counter is the full sum, modulo 2^64 |
| UnsealedBlocks.GoodGrows | op-geth/core/blockchain_insert.go:219-231 | An accepted next frag keeps frags gapless, receipts, counters and state what all accepted frags make of the parent state |
| UnsealedBlocks.OpenBlockReplays | op-geth/core/blockchain_insert.go:180-233 | One run over an open block's transactions reaches its state, receipts and gas if and only if, by its own receipts, the gas limit covers each transaction's limit on top of the gas drawn before it |
| UnsealedBlocks.OpenBlockIsABlock | op-geth/eth/catalyst/api.go:1341-1559 | The same of the open block of any node, whatever engine calls led to it |
| UnsealedBlocks.Node.InsertNewFrag | op-geth/core/blockchain_insert.go:180-233 | An accepted frag is appended with its effects; a rejected one leaves everything but the gas counter, moved by exactly the applied transactions |
| UnsealedBlocks.Node.SealBlock | op-geth/beacon/engine/types.go:423-463 | Pre-sealing succeeds exactly when the header checks pass and one run over all transactions reproduces gas, receipts and state root |
| UnsealedBlocks.SealsWithinLimit | op-geth/beacon/engine/types.go:457-460 | A complete block re-executes if and only if, by its receipts, the gas limit covers each transaction's limit on top of the gas drawn before it |
| UnsealedBlocks.Node.NewFragV0 | op-geth/eth/catalyst/api.go:1341-1416 | Accepted exactly when it is the open block's next frag, executes, and, if last, the block passes the header checks and re-executes; otherwise no block stays open |
| UnsealedBlocks.Node.EnvV0 | op-geth/eth/catalyst/api.go:1494-1559 | Opens exactly when none is open, the parent is known with state, the number is the next and the time not earlier; otherwise no block stays open |
| UnsealedBlocks.Node.SetCurrentUnsealedBlock | op-geth/core/blockchain.go:639-653 | A new block starts from the parent's state with the invariant holding |
| UnsealedBlocks.NextInTurn | op-geth/core/types/unsealed_block.go:48-60 | A frag is the next one exactly when it belongs to the block, carries the number of frags so far and none of them was the last |
| UnsealedBlocks.SequenceGrows | op-geth/core/types/unsealed_block.go:48-60 | It is also exactly the frag with which the block is still numbered without gaps |
| Feeds.Feed.Send | op-geth/event/feed.go:120-180 | Over every interleaving, each channel receives the value exactly as often as it was listed at the merge less the removals taken before its turn; the count is the number of deliveries; every removal taken is accounted for; terminates |
| Feeds.ExactlyOnce | op-geth/event/feed.go:120-180 | With distinct channels, one that is not removed first receives the value once, and none twice |
| Feeds.Feed.Subscribe | op-geth/event/feed.go:73-93 | The channel joins the inbox and the accounts stay balanced, also during a send and for repeated channels |
| Feeds.Feed.BeginRemove | op-geth/event/feed.go:95-106 | Done at once exactly when the channel is in the inbox; otherwise a pending removal whose case is in the send list |
| Feeds.Feed.RemoveIdle | op-geth/event/feed.go:108-116 | With no send in progress the channel is found and one listing of it goes |
| Feeds.Feed.DeleteListed | op-geth/event/feed.go:161-163 | A pending removal always finds its channel, never the removal case |
| Feeds.Feed.Merge | op-geth/event/feed.go:128-139 | The inbox moves behind the send list, the value is set on every case, and nothing is delivered yet |
| Feeds.Feed.TryAll | op-geth/event/feed.go:149-155 | Non-blocking sends move served cases behind the waiting ones |
| Feeds.Feed.Select | op-geth/event/feed.go:159-171 | A delivery or a removal keeps the accounts and lowers the sum of both lengths |
| Feeds.Deliver | op-geth/event/feed.go:150-153 | Swapping a served case to the end of the waiting prefix keeps waiting before served |
| Feeds.TakeOut | op-geth/event/feed.go:161-167 | Deleting a case shrinks the waiting prefix exactly when the case was in it |
| Feeds.PendingIsListed | op-geth/event/feed.go:95-116 | In every reachable state a pending removal's channel is in the send list |
| Feeds.Find | op-geth/event/feed.go:203-210 | The first index with the channel, -1 exactly when it is not listed |
| Feeds.Delete | op-geth/event/feed.go:213-215 | In place, the list without that index |
| Feeds.Deactivate | op-geth/event/feed.go:218-222 | In place, the case changes places with the last active one and the rest stays |
| ChainIndexers.ChainIndexer.VerifyLastHead | op-geth/core/chain_indexer.go:423-430 | Falls back to the last section whose head is canonical; on a whole index over a canonical chain the sections that remain are exactly those with canonical heads; any other index becomes whole if and only if it is mendable |
| SectionIndexes.AllCanonical | op-geth/core/chain_indexer.go:420-430 | In a hash-linked index one canonical head makes all lower ones canonical |
| SectionIndexes.Mends | op-geth/core/chain_indexer.go:423-430 | Falling back leaves a linked index if and only if no head was above the count and every counted section above the linked ones differed from the chain |
| SectionIndexes.EmptyMends | op-geth/core/chain_indexer.go:423-430 | A count without heads is mended if and only if the chain is known at the ends of all its sections |
| IndexerRaces.LinkedUnlessClash | op-geth/core/chain_indexer.go:389-396 | Over every interleaving of the reset with any number of locked operations, each access a step, the index is linked once both sides are done if the reset was never at work while an operation was past its comparison, or both were clearing at most one section |
| IndexerRaces.SafeExactly | op-geth/core/chain_indexer.go:389-492 | For every linked index and every locked operation, all its interleavings with the reset leave the index linked if and only if it is a reorg that drops nothing or finds at most one section, or a verification of an empty index |
| IndexerRaces.CoveredStep | op-geth/core/chain_indexer.go:480-492 | Two calls that both clear at most one section never leave its head behind |
| IndexerRaces.ResetRuns | op-geth/core/chain_indexer.go:480-492 | Left alone, the steps of a call that sets the count drop exactly the heads in between |
| IndexerRaces.TornRun | op-geth/core/chain_indexer.go:259-265 | For every linked index and every smaller positive count, the run that compares, resets and then writes leaves that count without heads |
| IndexerRaces.SkippedHead | op-geth/core/chain_indexer.go:486-491 | For every linked index of two or more sections, the run in which a reorg to nothing and the reset decrement before either deletes leaves the top head above a count of zero |
| IndexerRaces.WrappedCount | op-geth/core/chain_indexer.go:423-430 | For every linked index with a section, the run in which the reset falls between a verification's lookup and its comparison leaves 2^64-1 counted sections without heads, which the verification accepts |
| ChainIndexers.ReadSection | op-geth/core/chain_indexer.go:398-417 | A head is returned if and only if every block of the section is known, present, linked to the one before it, the first to the given head, and taken by the backend, and the backend commits; it is then the section's last canonical hash and ends a section of linked headers |
| ChainIndexers.ChainIndexer.ProcessSection | op-geth/core/chain_indexer.go:389-418 | The same if the reset succeeds, and none if it fails; whatever moves meanwhile, heads are only removed, and a whole index stays whole unless a failed reset clashes with an operation |
| ChainIndexers.ReadyReads | op-geth/core/chain_indexer.go:398-417 | On a canonical chain that is present, with a backend that never fails, the next section of an index that ends in the chain reads |
| ChainIndexers.ChainIndexer.ResetFailed | op-geth/core/chain_indexer.go:393-396 | A failed reset leaves what some interleaving with locked operations leaves: only heads that were there, and a whole index if there was no clash |
| ChainIndexers.ChainIndexer.Finish | op-geth/core/chain_indexer.go:349-369 | The section is added exactly when it was processed and the index still ends in the head it was processed on, and then a whole index stays whole; otherwise it is verified |
| ChainIndexers.ChainIndexer.Update | op-geth/core/chain_indexer.go:318-369 | A round adds a section if and only if one is known to be done, the reset succeeds, it reads, and the index still ends where it did; so on a canonical chain that nobody disturbs it does; it keeps only old sections otherwise; a whole index stays whole unless a failed reset clashed, and a round that adds none ends whole if and only if the index was mendable when the lock was taken again |
| ChainIndexers.ChainIndexer.NewHead | op-geth/core/chain_indexer.go:244-301 | A reorg drops exactly the sections that reach above the ancestor, unless its number is the largest 64-bit one; a new head makes known only sections buried under the required confirmations |
| ChainIndexers.ChainIndexer.SetValidSections | op-geth/core/chain_indexer.go:480-492 | Exactly the heads of sections no longer valid go |
| ChainIndexers.ChainIndexer.SectionHead | op-geth/core/chain_indexer.go:496-505 | Zero exactly for a section without a head |
| ChainIndexers.ChainIndexer.Sections | op-geth/core/chain_indexer.go:435-441 | The count, last number and head reported while no reset is at work; on a whole index over a canonical chain the counted sections are exactly those with canonical heads; with none, the number wraps |
| SectionIndexes.LinkedAbove | op-geth/core/chain_indexer.go:352-354 | A section processed on the last stored one keeps the index hash-linked |
| BlockHashes.HashFn.GetHash | op-geth/core/evm.go:96-132 | Over every sequence of calls slot i is the ancestor i+1 below the header, and each answer is the uncached walk while headers once read stay readable; zero from the header's height up |
| BlockHashes.Fill | op-geth/core/evm.go:114-130 | Resuming at the end of the cache gives the uncached answer, extends the cache by true ancestors, never goes below the asked height and terminates |
| TrieGc.Collector.WriteBlock | op-geth/core/blockchain.go:1517-1564 | References match the queue per root; exactly the entries at or below the written height less 128 lose theirs |
| TrieGc.Collector.Stop | op-geth/core/blockchain.go:1180-1182 | Every reference is given back |
| TrieGc.Collector.Dereference | op-geth/core/blockchain.go:1556-1563 | A popped entry's reference is always there to give back |
| TrieGc.Pop | op-geth/core/blockchain.go:1556-1557 | The lowest block leaves first |
| DerivationPaths.RoundTrip | op-geth/accounts/hd.go:68-136 | Parsing a printed path gives it back, hardened bits included, if and only if it is not empty (BIP-32, section "The key tree"; BIP-44, section "Path levels") |
| DerivationPaths.Canonical | op-geth/accounts/hd.go:68-136 | Whatever text a path was read from, its components fit 32 bits and its printed form reads back as the same path |
| DerivationPaths.ParseDerivationPath | op-geth/accounts/hd.go:68-118 | The loop computes the parse, with the error of the first offending component |
| DerivationPaths.ToString | op-geth/accounts/hd.go:122-136 | The loop computes the printed form |
| DerivationPaths.ComponentReads | op-geth/accounts/hd.go:90-116 | Every 32-bit component is read back from its text |
| DerivationPaths.MarkHardens | op-geth/accounts/hd.go:95-113 | A plain number is read up to 2^32, a marked one up to 2^31 and 2^31 higher; anything larger is out of range |
| DerivationPaths.BinaryReads | op-geth/accounts/hd.go:101 | Every number is read back from binary with either prefix |
| DerivationPaths.OctalReads | op-geth/accounts/hd.go:101 | Every number is read back from octal with either prefix or a leading zero |
| DerivationPaths.HexReads | op-geth/accounts/hd.go:101 | Every number is read back from hexadecimal with either prefix |
| DerivationPaths.ScanAccepts | op-geth/accounts/hd.go:101-104 | The digits of a number are read if and only if each is below the base, every underscore follows a digit or a base prefix, and the last character is a digit |
| DerivationPaths.SeparatorsIgnored | op-geth/accounts/hd.go:101 | The underscores of a number that is read do not change its value |
| DerivationPaths.SignReads | op-geth/accounts/hd.go:101 | A leading plus keeps a number, a leading minus negates it, and a second sign makes it invalid |
| DerivationPaths.Relative | op-geth/accounts/hd.go:84-86 | A path without a prefix is the absolute path with the same components below the default root |
| DerivationPaths.PaddedComponent | op-geth/accounts/hd.go:91-92 | Whitespace around a component does not matter |
| DerivationPaths.PaddedMark | op-geth/accounts/hd.go:95-99 | Whitespace between number and mark does not matter |
| DerivationPaths.WhitespaceIgnored | op-geth/accounts/hd.go:65-67 | Taking all whitespace out of a component keeps its meaning if and only if none was inside the number, or the text is invalid without it too |
| DerivationPaths.SpacedNumber | op-geth/accounts/hd.go:100-104 | Whitespace anywhere inside the number makes a component invalid |
| DerivationPaths.PathWhitespaceIgnored | op-geth/accounts/hd.go:65-118 | Taking all whitespace out of a path, its prefix included, keeps its meaning if and only if the first component that does not read has no whitespace inside its number, or the path is invalid without it too |
| DerivationPaths.SpacedDigits | op-geth/accounts/hd.go:100-104 | A component, and a path, that is valid only without its whitespace |

## Left out

- The EVM interpreter, state database, tries, snapshots and blobs' proofs: a parameter or not part of this model.
- Block import (`insertChain`, side chains, `processBlock`), consensus and header validation: their outcome is the well-formedness that the chain modules ask for.
- Calls that skip nonce or account checks (simulated calls): ether is not meant to be conserved there.
- `SealFragV0`: comparing a seal with the pre-sealed block is field by field; either way it ends in `ResetCurrentUnsealedBlock`.
- BlockHash, TransactionIndex and logs of frag receipts, and requests: they depend on a per-frag header or only append.
- The flush limits and the periodic trie commit in `writeBlockWithState`: they change no reference count.
- Checkpoints and child indexers of the chain indexer, the copy of the section count on disk, which is read only at start, and what a query reports while a failed reset is at work. Each access to the shared count is one step in program order; what the language promises of racing accesses beyond that is not modelled.
- Type checks, the one-time initialisation and `FeedOf`, the generic twin of the feed: same algorithm.
- Liveness and fairness of goroutines, timers, metrics and tracing.
- Sequence numbers of frags and block numbers are unbounded: a block of 2^64 frags is out of reach.
- SetHeads.Chain.SetHead: deletions, those from the ancient store included, take effect at the end; that they may do so earlier at any boundary is `BoundaryHolds`. The store is assumed to have no missing parents; gapped stores are covered by the two searches.
- SetHeads.Chain.SetHeadBeyondRoot: cache purges and the safe and finalized markers are not modelled.
- UnsealedBlocks.Node.InsertNewFrag: the account state after a rejected frag is left open, as the code leaves it half written and its caller discards it.
- TrieGc.Collector.WriteBlock: an entry that is popped and pushed back is only looked at, which leaves the same queue.
- Feeds.Feed.Send: panics of a send on a closed channel are not modelled.
