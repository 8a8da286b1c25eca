# The node's core, modelled and proved in Dafny

This project models five parts of the go-virbicoin node and proves what they are relied on for.

- **Transaction pool.** `TxPool.dfy` is the pool: pending and queued lists per account, the lookup of all
  transactions (`TxLookup.dfy`), the lazily cleaned price heap (`PricedList.dfy`) and the virtual nonces
  (`TxNoncer.dfy`). `SortedMap.dfy` and `TxList.dfy` are the indexed and cached lists, over the binary heap of
  `Heap.dfy`; they are shown to behave as functions of plain nonce-to-transaction maps (`Transactions.dfy`), and
  the pool works on those maps. `PoolAccounts.dfy` says what promotion, demotion and removal do to one account,
  `PoolLists.dfy` how the accounts' lists partition the pool, `PoolTotals.dfy`, `PendingLimit.dfy` and
  `QueueLimit.dfy` what the size limits leave, `PoolWaits.dfy` what a run loses and when it leaves a
  transaction waiting that it could have promoted, and `PoolSteps.dfy` holds the steps that `TxPool` is proved by.
  `ReorgScheduler.dfy` is the loop that schedules reorganisation runs.
- **Canonical chain.** `HeaderChain.dfy` writes batches of headers, rewinds the head and finds ancestors;
  `BlockChain.dfy` makes the fork choice and reorganises; `HashLookup.dfy` answers the EVM's queries for earlier
  hashes. `BlockTree.dfy` holds the blocks: hashes do not collide, so a block is an inductive value that contains
  its parent, and comparing hashes is comparing blocks.
- **Chain indexer.** `ChainIndexer.dfy` builds a sectioned index while the chain may reorganise under it.
- **Event feed.** `Feed.dfy` delivers to subscribers by partitioning one list in place.
- **Gas and wei.** `StateTransition.dfy` buys, uses and refunds gas, with the EVM as an oracle that returns no more
  gas than it got; `GasLimit.dfy` is the next block's gas limit.

Databases are maps, and a database batch is a list of deferred updates. Clock readings, coin tosses, the head's
state, callbacks and whether a channel is ready are parameters. Where several transactions are visited in the random
order of a Go map, the model visits them in an arbitrary order.

`Common.dfy` holds what the models share. Words are unbounded integers except where 64-bit arithmetic matters; there
`Wrap` reduces modulo 2^64.

## Model

| member | source | states |
|---|---|---|
| `TxPools.TxPool.Run` | core/tx_pool.go:574-1457 | Over every sequence of additions, price changes, eviction ticks and reorganisation runs the lookup stays the disjoint union of all pending and queued lists, each under its sender and nonce, with no list empty, and the price heap keeps covering the live remotes. The head and price in the end are the last ones given. Where there is room, every admissible transaction sent comes in or finds its place taken, and no place is lost; a price change drops nothing at or above the price; nothing is pooled that was not pooled before or sent. If no new head lowers a nonce, every pending list stays the state nonce and up without a gap, all of it payable at the last head. From the first reorganisation run on, the virtual nonce of an account with pending transactions is the last pending one plus one or 0, and it is never 0 instead if nobody sends nonce 2^64-1 |
| `TxPools.LastHead` | core/tx_pool.go:1190-1192 | The head in the end is that of the last reset, whatever was asked before and after |
| `TxPools.TxPool.RunReorg` | core/tx_pool.go:1050-1096 | From any consistent pool to a consistent pool: state and gas limit are those of the new head; every account's lists are the promotion and demotion of those the run started from, cut by exactly the two limits: pending within GlobalSlots or no other than local accounts above AccountSlots, queued within GlobalQueue or only local; nothing comes in but what a reset adds back. If the head lowers no nonce, pending lists are exactly consecutive from the state nonce, the head's gas limit and the senders' balances cover all of them, and their virtual nonces are exact. Of the accounts looked at, none has the nonce after its pending list queued unless `Waits` held when the promotion started, and never when its virtual nonce then was that nonce. An account left without pending transactions keeps the virtual nonce the promotion started from: without a reset the one before; after one the state nonce iff no pending transaction below it was evicted, so always if there was room |
| `TxPools.TxPool.Rework` | core/tx_pool.go:1077-1085 | Every account's lists after promotion and, after a reset, demotion, as a function of those before; the nonce after an account's pending list is left queued iff `Waits` held before, for every account looked at |
| `TxPools.TxPool.TicketServed` | core/tx_pool.go:1050-1052 | When the channel of a request to promote accounts is closed by a run, each of those accounts has the nonce after its pending list free, unless it had to wait |
| `TxPools.TxPool.Reset` | core/tx_pool.go:1181-1201 | Takes over the new state and gas limit and adds the transactions left behind, keeping the partition. Where there is room, virtual nonces are the new state's, no place in the pool is lost, and every admissible transaction added back is there or another in its place. If no nonce is lowered, pending lists have no gap from the new nonce on and virtual nonces are below it only by evictions |
| `TxPools.TxPool.Add` | core/tx_pool.go:574-661 | Which error for which input: known, invalid, underpriced iff the pool is full and no remote is cheaper, overflowing only if all remotes together are too small, and, in a pool that is not full, refused as a replacement iff the one in its place is not outbid (in a full one only then). A transaction is in the pool afterwards iff it was accepted; nothing else comes in; whatever leaves is a remote transaction or one of the same sender and nonce that is outbid; a transaction is remote iff neither it nor its sender is local; the sender becomes local unless the transaction replaced a pending one. An accepted remote transaction leaves no more transactions than the limits allow, provided no live one had two entries in the price heap |
| `TxPools.TxPool.ValidExactly` | core/tx_pool.go:524-566 | A transaction is valid iff its size, value, gas, price, nonce and cost are each as the pool and the head ask, and every error names what is wrong |
| `PoolSteps.AdmittedExactly` | core/tx_pool.go:620-640 | The list a transaction would go in admits it iff no pooled transaction of its sender and nonce resists it |
| `TxPools.TxPool.AddTxsLocked` | core/tx_pool.go:849-861 | The answer to each transaction given the pool at its turn, the pools in between, and the senders that need promotion; nothing is pooled but accepted transactions; while there is room no virtual nonce changes, no place is lost and every valid transaction is there in the end or another in its place |
| `TxPools.TxPool.MakeRoom` | core/tx_pool.go:592-617 | Refuses a remote transaction as underpriced iff the pool is full and no live remote is cheaper; otherwise drops the cheapest remotes, of equal price the highest nonces, no more than needed; frees exactly their slots iff no transaction was dropped twice, which cannot be if no live one has two entries in the price heap; a remote transaction then fits, a local one may not |
| `TxPools.TxPool.EnqueueTx` | core/tx_pool.go:666-701 | The queue with the transaction in it or unchanged if outbid by one of its nonce, and lookup, price heap and heartbeats to match |
| `TxPools.TxPool.PromoteTx` | core/tx_pool.go:719-749 | The pending list with the transaction in it or unchanged if outbid, the virtual nonce past it modulo 2^64, and lookup and heartbeat to match |
| `TxPools.TxPool.RemoveTx` | core/tx_pool.go:899-945 | Exactly the one transaction leaves; pending ones after it are queued again; the virtual nonce falls to it; partition, price heap and gaplessness are kept |
| `TxPools.TxPool.SetGasPrice` | core/tx_pool.go:424-433 | Exactly the live remote transactions below the price leave |
| `TxPools.TxPool.Evict` | core/tx_pool.go:362-378 | Exactly the queues of expired accounts that are not local go; pending lists stay |
| `TxPools.TxPool.PromoteExecutables` | core/tx_pool.go:1207-1268 | Every account's lists and virtual nonce afterwards as a function of those before; nothing is left queued at the virtual nonce of an account that had its turn; the demotion will leave the nonce after its pending list queued iff `Waits` held; gaplessness is kept and nothing comes in |
| `TxPools.TxPool.DemoteUnexecutables` | core/tx_pool.go:1405-1457 | Every account's lists afterwards as a function of those before; after a reset that lowers no nonce and the promotion, pending lists start at the state nonce and the check for a gap at the front never finds one |
| `TxPools.TxPool.TruncatePending` | core/tx_pool.go:1273-1355 | Ends; the lists are cut to one common level |
| `PendingLimits.TruncatedFacts` | core/tx_pool.go:1273-1355 | What one common level means: local and small accounts keep their lists, none is cut below AccountSlots, the total is within GlobalSlots or every other account is down to AccountSlots, all that lost transactions have the same number left, and GlobalSlots is undershot by fewer than there are such accounts |
| `TxPools.TxPool.TruncateQueue` | core/tx_pool.go:1358-1400 | Over the limit, leaves exactly GlobalQueue transactions or, if there are more local ones, exactly those; no pending list and no virtual nonce changes |
| `QueueLimits.QueueCutFacts` | core/tx_pool.go:1367-1399 | What is left of a queue is its lowest nonces, local accounts lose nothing, and an account loses transactions only when every non-local account with a later heartbeat has lost all |
| `TxPools.TxPool.constructor` | core/tx_pool.go:262-290 | An empty pool is consistent |
| `PoolAccounts.PromotionKeeps` | core/tx_pool.go:1217-1240 | For every list, queue and virtual nonce: the run that becomes ready starts at the virtual nonce and extends the pending list without a gap, up to the new virtual nonce |
| `PoolAccounts.PromotionUnstuck` | core/tx_pool.go:1234-1240 | After a promotion nothing is queued at the virtual nonce, also where it wraps around |
| `PoolAccounts.DemotionKeeps` | core/tx_pool.go:1407-1455 | After a reset that lowers no nonce, demotion leaves a list that starts at the state nonce and that the head pays for, and the branch for a gap in front is dead |
| `PoolAccounts.RemovalKeeps` | core/tx_pool.go:916-931 | Cutting a list at a removed nonce and lowering the virtual nonce to it keeps gaplessness |
| `PoolAccounts.RemovalExactly` | core/tx_pool.go:928-928 | A removal keeps the virtual nonce exact iff the list did not reach the last 64-bit nonce or is left empty |
| `PoolAccounts.ZeroStays` | core/tx_pool.go:928-928 | Nonces 2^64-2 and 2^64-1 pending and the second removed: the virtual nonce is 0 and not 2^64-1 |
| `PoolAccounts.CutExactly` | core/tx_pool.go:928-928 | Between a reset and the promotion the virtual nonce is the state nonce iff no pending transaction below it was evicted |
| `PoolWaits.WaitsExactly` | core/tx_pool.go:1077-1085 | For every list, queue, head and virtual nonce: promotion and demotion leave the nonce after the pending list queued iff nothing was ready at the virtual nonce and what stays queued holds the nonce after what stays pending |
| `PoolWaits.TurnKeeps` | core/tx_pool.go:1207-1457 | Promotion and demotion lose exactly the transactions that are too old or not payable at the head, as long as the account is within its allowance of queued ones |
| `PoolWaits.AllowanceKeeps` | core/tx_pool.go:1244-1253 | An account over its allowance keeps exactly that many queued, those with the lowest nonces |
| `PoolWaits.WaitsAfterReset` | core/tx_pool.go:1191-1234 | With the virtual nonce at the state nonce that is: the state nonce cannot be promoted, some of the pending list survives, and the nonce after it stays queued |
| `PoolWaits.WaitsBetweenResets` | core/tx_pool.go:1234-1240 | Between two resets that is: the virtual nonce was not the one after the pending list, and that one stays queued |
| `PoolWaits.WaitsOccur` | core/tx_pool.go:1191-1234 | Nonce 5 pending, 6 just queued and a head that changes nothing for the account: 6 would have been promoted, and with the reset stays queued |
| `PoolWaits.LaggingOccurs` | core/tx_pool.go:928-928 | Nonces 5 and 6 pending, 7 queued, a head at nonce 7 and nonce 5 evicted: the virtual nonce is 5 and nonce 7 stays queued |
| `PoolAccounts.GapExactly` | core/tx_pool.go:1405-1451 | For a head that may lower the nonce: a reset leaves a gap iff the queue can be promoted at the new nonce, its run stops short of the pending list, and the front of that list is payable |
| `PoolAccounts.GapsOccur` | core/tx_pool.go:1439-1451 | Nonce 5 pending, nonce 3 queued and a head that lowers the nonce to 3 leave nonces 3 and 5 pending |
| `PoolLists.PartitionStep` | core/tx_pool.go:899-945 | A change to one account keeps the pool's partition if it keeps it at that account |
| `TxNoncers.TxNoncer.Get` | core/tx_noncer.go:45-55 | The account's virtual nonce, or the state's; reading changes no answer |
| `TxNoncers.TxNoncer.SetIfLower` | core/tx_noncer.go:68-79 | The lower of the two for the account, nothing else changes |
| `TxLookups.TxLookup.Add` | core/tx_pool.go:1655-1667 | The transaction is in the one set asked for, and the slot counter stays the sum over all transactions |
| `TxLookups.TxLookup.Remove` | core/tx_pool.go:1670-1687 | The transaction is in neither set, and the slot counter stays the sum |
| `TxLookups.TxLookup.RemoteToLocals` | core/tx_pool.go:1691-1704 | Moves exactly the accounts' remotes and counts them |
| `ReorgSchedulers.ReorgScheduler.Schedule` | core/tx_pool.go:980-1047 | Over every sequence of requests, ends of runs and shutdown: every request before the shutdown gets a channel, in order; at most one run is active; a requester's channel is closed only by a run whose merged accounts contain the request or that resets, or by the shutdown; an open one belongs to the active run or to one that will be launched; once a run has ended, the loop has noticed and a run has ended again, every channel handed out before is closed; resets chain from head to head |
| `ReorgSchedulers.StageTurn` | core/tx_pool.go:991-1036 | No event but the shutdown sets a channel back; the end of a run, and its being noticed, bring it on |
| `ReorgSchedulers.ReorgScheduler.LaunchIfNeeded` | core/tx_pool.go:993-1003 | Launches the merged requests as one run iff one is wanted and none is active, and loses no request |
| `ReorgSchedulers.ReorgScheduler.RequestReset` | core/tx_pool.go:1006-1014 | Joins a waiting reset, which then leads to the newest head, and hands out the next run's channel |
| `ReorgSchedulers.ReorgScheduler.RequestPromote` | core/tx_pool.go:1016-1024 | Joins the waiting accounts and hands out the next run's channel |
| `ReorgSchedulers.ReorgScheduler.CompleteShutdown` | core/tx_pool.go:1038-1044 | With no run active, closes the waiting channel |
| `TxLists.TxList.Add` | core/tx_list.go:278-303 | Accepted iff the nonce is free or the price is high enough; the caps bound every member |
| `TxLists.OutbidsBy` | core/tx_list.go:281-293 | High enough means higher, and by the bump's percentage up to one unit |
| `TxLists.TxList.Filter` | core/tx_list.go:321-350 | The outcome of a full scan whatever the caps are, and the caps bound every member again |
| `TxLists.ShortCircuit` | core/tx_list.go:322-325 | Where the caps are within the limits a scan finds nothing |
| `TxLists.StrictParts` | core/tx_list.go:329-349 | Removed, invalidated and kept transactions are the old list, each in one part |
| `TxLists.LeadingGapless` | core/tx_list.go:337-349 | What a strict list keeps is a prefix, and gapless if the list was |
| `TxLists.PartsGapless` | core/tx_list.go:308-372 | What Forward, Cap and a strict Remove leave of a gapless list is gapless |
| `TxLists.TxList.Remove` | core/tx_list.go:361-372 | Whatever has the nonce goes, from a strict list also all that follows |
| `SortedMaps.TxSortedMap.Put` | core/tx_list.go:72-78 | The map with the transaction in it; the heap holds exactly its nonces and a cache its sorted contents |
| `SortedMaps.TxSortedMap.Forward` | core/tx_list.go:83-97 | Returns the transactions below the threshold in order and keeps the rest; heap and cache stay right |
| `SortedMaps.TxSortedMap.Filter` | core/tx_list.go:104-138 | Returns what the filter selects and keeps the rest; heap and cache stay right |
| `SortedMaps.TxSortedMap.Cap` | core/tx_list.go:142-163 | Keeps the lowest nonces up to the limit and returns the others; heap and cache stay right |
| `SortedMaps.TxSortedMap.Remove` | core/tx_list.go:167-184 | Found iff present, and gone; heap and cache stay right |
| `SortedMaps.TxSortedMap.Ready` | core/tx_list.go:193-208 | Returns in order, and removes, the transactions that `ReadyRun` describes; heap and cache stay right |
| `SortedMaps.ReadyRun` | core/tx_list.go:193-208 | The maximal consecutive run from the smallest nonce if that is at most start, and nothing otherwise |
| `SortedMaps.TxSortedMap.Flatten` | core/tx_list.go:215-236 | The contents in nonce order, from the cache or sorted anew |
| `SortedMaps.TxSortedMap.LastElement` | core/tx_list.go:240-243 | The transaction with the highest nonce of a map that is not empty |
| `Heaps.Push` | core/tx_list.go:75-75 | A heap of the elements and the new one |
| `Heaps.Remove` | core/tx_list.go:176-176 | A heap of the elements but the one at the index |
| `Heaps.Init` | core/tx_list.go:118-118 | A heap of the elements |
| `PricedLists.TxPricedList.Put` | core/tx_list.go:459-464 | The heap holds every live remote and the counter of stale entries covers the excess |
| `PricedLists.TxPricedList.Removed` | core/tx_list.go:469-477 | The same, and the heap is at most 4/3 of the live set |
| `PricedLists.TxPricedList.Cap` | core/tx_list.go:483-501 | Takes out exactly the live remotes below the threshold, as a full scan would |
| `PricedLists.TxPricedList.Underpriced` | core/tx_list.go:505-524 | True iff there are live remotes and none is cheaper, as a full scan would answer |
| `PricedLists.TxPricedList.Discard` | core/tx_list.go:530-551 | Takes out the cheapest live remotes, of equal price the highest nonces, no more than the slots need; gives up only when all of them together are too small, and then nothing is taken out |
| `PricedLists.TxPricedList.Reheap` | core/tx_list.go:554-563 | A heap of exactly the live remotes, with no stale entry |
| `PricedLists.KeyOrder` | core/tx_list.go:415-425 | The integer key orders transactions by price, and equally priced ones by falling nonce |
| `PricedLists.DropFrees` | core/tx_pool.go:603-616 | Dropping a list of transactions frees the slots of each iff none is listed twice, and fewer otherwise |
| `HeaderChains.HeaderChain.WriteHeaders` | core/headerchain.go:149-297 | Which result for which batch: how many headers were new, and whether they became canonical, a side chain or nothing; every total difficulty is the sum along its path and the head is the heaviest; the canonical map is the head's ancestor path and nothing else iff the batch does not lose its markers |
| `HeaderChains.WinsExactly` | core/headerchain.go:209-224 | The fork choice of headers, case by case |
| `HeaderChains.NewHeaders` | core/headerchain.go:167-196 | The new headers of a batch are those from the first new one on |
| `HeaderChains.RunGood` | core/headerchain.go:149-297 | Over every sequence of linked batches with a known parent, none of which loses its markers (as none with a new header does), that stays so, nothing stored is lost and the head only gains weight |
| `HeaderChains.UnmarkedIsWrong` | core/headerchain.go:261-281 | Without its own markers, a winning batch leaves the new head's path in the canonical map iff the head does not change |
| `HeaderChains.MarkersCanBeLost` | core/headerchain.go:261-281 | A chain in good order and a batch of known headers that loses its markers |
| `HeaderChains.HeaderChain.GetAncestor` | core/headerchain.go:421-453 | A result is the true ancestor, and there is one iff the header is stored and the canonical chain or the ancestor is met within the allowance |
| `HeaderChains.DetourMeets` | core/headerchain.go:432-451 | The number of single steps is the least that meets the canonical chain |
| `HeaderChains.HeaderChain.SetHead` | core/headerchain.go:559-636 | Ends with the canonical header at the target as head, the canonical map cut there, and no header or total difficulty above it on any fork; the target is the one asked for or the lowest that the callback demanded at a header on the way |
| `BlockChains.BlockChain.WriteBlockWithState` | core/blockchain.go:1503-1640 | Refuses a block without a stored parent; otherwise stores it and makes it the head iff it wins the fork choice |
| `BlockChains.WinsExactly` | core/blockchain.go:1591-1605 | The fork choice of blocks, case by case, with the local miner's preferences |
| `BlockChains.BlockWrittenGood` | core/blockchain.go:1591-1620 | Total difficulties and the heaviest head are right in any case; canonical map, transaction lookup and head markers belong to exactly the head's path iff the block does not take over as a lower child of a canonical block |
| `BlockChains.RunGood` | core/blockchain.go:1591-1620 | Over every sequence of arrivals outside that family all of it stays right |
| `BlockChains.MadeHeadSettled` | core/blockchain.go:2117-2263 | After a reorganisation and the write of the head the transaction lookup is exactly the new path's; canonical map and markers are too, iff outside that family |
| `BlockChains.BlockChain.Reorg` | core/blockchain.go:2117-2263 | Succeeds if all blocks are stored; then the ledger is as if the new branch had been laid over the common part and everything above cut, and otherwise untouched |
| `BlockChains.LookupExact` | core/blockchain.go:2231-2249 | The lookup of a path gives each of its transactions, and no other, the number of its block |
| `BlockChains.LookupReplaced` | core/blockchain.go:2231-2249 | Laying one branch's entries over the other's and deleting the difference leaves exactly the new path's lookup |
| `BlockChains.StaleAssignmentsOccur` | core/blockchain.go:2253-2263 | A chain in good order and an acceptable heavier block on genesis that takes over and leaves a stale number above itself |
| `HashLookups.HashFn.Get` | core/evm.go:68-99 | Every sequence of queries is answered as a walk from parent to parent would: an earlier block's hash as far as headers are stored, and none otherwise |
| `HashLookups.NaiveIsAncestor` | core/evm.go:68-99 | Where all headers are stored that walk gives the ancestor |
| `ChainIndexers.RunLinked` | core/chain_indexer.go:243-429 | In every interleaving of section processing with notifications and queries, each stored section head above the checkpoint is the descendant of the one before it by the section size |
| `ChainIndexers.StepLinked` | core/chain_indexer.go:243-429 | Every single step keeps that |
| `ChainIndexers.UpdateStores` | core/chain_indexer.go:317-369 | An update that nothing interferes with stores the next section, with its last block on the chain as head, and keeps the others |
| `ChainIndexers.CatchesUp` | core/chain_indexer.go:317-369 | Updates on a quiet chain go on until every known section is stored |
| `ChainIndexers.AdvancedKnown` | core/chain_indexer.go:276-298 | A section above the checkpoint is known iff it was or its last block has its confirmations and the checkpoint is on the chain |
| `ChainIndexers.RevertedKnown` | core/chain_indexer.go:248-258 | A reorganisation leaves known exactly the sections that end at or below the common ancestor |
| `ChainIndexers.FailedWaits` | core/chain_indexer.go:364-369 | After a failure nothing is tried again until a notification |
| `ChainIndexers.ReadExactly` | core/chain_indexer.go:396-412 | A read goes on iff the header is canonical, known and the child of the one before |
| `ChainIndexers.ChainIndexer.constructor` | core/chain_indexer.go:103-143 | A new indexer, with or without a checkpoint, is linked; with one it has the checkpoint's sections and its head |
| `ChainIndexers.VerifyLastExact` | core/chain_indexer.go:422-430 | Looking at the last head only keeps exactly the sections above the checkpoint whose heads are canonical |
| `ChainIndexers.CanonicalAllBelow` | core/chain_indexer.go:422-430 | A canonical stored head proves every stored head below it above the checkpoint canonical |
| `ChainIndexers.RevertedCanonical` | core/chain_indexer.go:243-275 | After a reorganisation exactly the sections that end at or below the common ancestor are kept, and their heads are canonical in the new chain |
| `ChainIndexers.ChainIndexer.NewHead` | core/chain_indexer.go:243-300 | The notification step of the runs above |
| `ChainIndexers.ChainIndexer.EndUpdate` | core/chain_indexer.go:317-369 | The step that stores a section's head if the section before it is still the one processing started from, and the last one of the updates that `UpdateStores` is about |
| `ChainIndexers.ChainIndexer.ReadHeader` | core/chain_indexer.go:388-416 | The step that reads one header and fails unless it links to the last |
| `ChainIndexers.ChainIndexer.SetValidSections` | core/chain_indexer.go:479-491 | The step that forgets the heads of invalid sections |
| `Feeds.Feed.Send` | event/feed.go:128-196 | For every interleaving of ready channels and removals: ends; the list ends as it started less what was removed, with the removal channel first; the number returned counts the deliveries; every channel's subscriptions are accounted for |
| `Feeds.ServedOnce` | event/feed.go:128-196 | What that account means: a channel subscribed once gets the value exactly once, or not at all if it is removed first |
| `Feeds.Feed.RemoveWhileSending` | event/feed.go:180-186 | A removal in the middle of a send keeps the account and the active part |
| `Feeds.Feed.Subscribe` | event/feed.go:72-92 | The channel waits in the inbox for the next send |
| `Feeds.Feed.RemoveIdle` | event/feed.go:103-124 | One subscription of the channel goes from inbox or list |
| `StateTransitions.Process` | core/state_processor.go:58-88 | A block is accepted iff each message is applicable in turn, and refused with the first error; then the world and each receipt are those of the messages applied one by one, used gas is the sum of the receipts' gas and the block gas limit less what the pool has left, no counter overflows, total wei changes only by what the EVM calls changed, and an account that the EVM leaves alone earns or pays exactly the fees of its blocks and messages |
| `StateTransitions.ApplyTransaction` | core/state_processor.go:92-140 | The receipt's gas and cumulative gas, and the pool's gas and the wei that go with them |
| `StateTransitions.StateTransition.TransitionDb` | core/state_transition.go:219-272 | Which error for which message and what it leaves changed; otherwise the refund is what the EVM granted up to half of what was spent, at least half the intrinsic gas and at most the gas limit is used, the pool loses exactly that, the sender gets back the rest of the fee and the coinbase gets the price of the gas used |
| `StateTransitions.WeiConserved` | core/state_transition.go:176-188 | Fee, refund and miner's reward of a message cancel out: total wei changes only by what the call changed |
| `StateTransitions.HandedIs` | core/state_transition.go:176-264 | The EVM is handed the world with the fee taken from the sender, and the sender's nonce one more for a call and unchanged for a creation |
| `StateTransitions.PaidSettles` | core/state_transition.go:265-291 | The sender gets back what the unused gas cost, the coinbase gets what the used gas cost, and nothing else changes |
| `StateTransitions.FeeMoves` | core/state_transition.go:219-292 | An account that the EVM leaves alone earns the fee if it is the coinbase and pays it if it is the sender |
| `StateTransitions.AcceptableExactly` | core/state_transition.go:176-252 | A message is acceptable iff its nonce, gas and funds are each sufficient; what is checked before the purchase comes first |
| `StateTransitions.IntrinsicGas` | core/state_transition.go:108-142 | The exact cost, or the overflow error iff it exceeds 64 bits |
| `StateTransitions.IntrinsicSteps` | core/state_transition.go:108-142 | 21000 or, for a creation, 53000 to start from, 4 for a zero byte and 16 or 68 for another |
| `StateTransitions.GasPool.AddGas` | core/gaspool.go:29-36 | Adds where the sum fits 64 bits, which its callers are shown to respect |
| `StateTransitions.GasPool.SubGas` | core/gaspool.go:39-45 | Subtracts iff there is enough |
| `GasLimits.StepExact` | core/block_validator.go:109-140 | The computed limit passes the consensus rule of consensus/ethash/consensus.go iff the parent is not in the refused family |
| `GasLimits.Threshold` | core/block_validator.go:109-140 | 5120 is the exact parent limit from which every computed limit passes |
| `GasLimits.Converges` | core/block_validator.go:109-140 | Over every chain of blocks the limit comes closer to the range from floor to ceiling by a fixed amount per block, enters it and stays |
| `GasLimits.EveryStepValid` | consensus/ethash/consensus.go:284-293 | With limit, floor and ceiling at 5120 or above every step of such a chain passes the rule |
| `GasLimits.NothingWraps` | core/block_validator.go:109-140 | The 64-bit computation is the one on integers |
| `GasLimits.MovesWithUse` | core/block_validator.go:109-140 | Between floor and ceiling the limit rises, falls and moves exactly by the gas used against two thirds of it, in steps of 1024 |
| `GasLimits.FullAndEmpty` | core/block_validator.go:109-140 | A full block raises the limit below the ceiling and an empty one lowers it above the floor |

## Findings

Seven properties that one would expect do not hold of the code as it is. Each has a witness and the exact condition;
that of the last is on what a reset evicts, those of the others can be read off before the call.

- `HeaderChains.LosesMarkers`: a batch of headers that are all known already, and that wins by the tie rules, becomes
  the head without canonical markers for its own numbers (core/headerchain.go:261-281). `WriteHeaders` keeps the
  canonical map right iff the batch is not such a one; `MarkersCanBeLost` is a witness.
- `BlockChains.LeavesStale`: a new head that is lower than the old one and a child of a canonical block leaves the old
  chain's numbers assigned above itself, since the deletion starts from the old head (core/blockchain.go:2253).
  `BlockWrittenGood` is the condition, `StaleAssignmentsOccur` a witness.
- `PoolAccounts.LeavesGap`: when a head lowers an account's nonce, only the front of the pending list is looked at for
  a gap (core/tx_pool.go:1439). `GapExactly` is the condition, `GapsOccur` a witness.
- `GasLimits.Refused`: a computed gas limit can break the rule that it move by less than 1/1024 of its parent's, for
  full parents below 5120. `StepExact` is the condition, `Threshold` the bound.
- `PoolAccounts.RemovalExactly`: removing a pending transaction leaves the virtual nonce at 0 instead of the next nonce
  iff the list reached the nonce 2^64-1 and is not left empty; `ZeroStays` is a witness. It is right again after the
  next run.
- `PoolWaits.Waits`: a run that serves a request to promote an account can leave the nonce right after the account's
  pending list in the queue, and close the requester's channel. The reset that the run also does puts the virtual nonce
  back to the state nonce (core/tx_pool.go:1191), where nothing is ready (core/tx_list.go:195), and only the end of the
  run moves it past the pending list again (core/tx_pool.go:1092-1095). `WaitsExactly` is the condition,
  `WaitsAfterReset` and `WaitsBetweenResets` say what it comes to, `WaitsOccur` is a witness.
- `PoolAccounts.CutSince`: after a reset the virtual nonce of an account without pending transactions can be below its
  state nonce, and then nothing of it is promoted until the next reset. It happens iff making room for a transaction
  that the reset adds back evicts a pending one with a nonce below the state nonce, which is no longer of use
  (core/tx_pool.go:928). `CutExactly` is the condition, `LaggingOccurs` a witness.

The comment on `Ready` says that transactions below `start` are returned as well (core/tx_list.go:190-192). The code
returns the consecutive run from the smallest nonce only, and the model follows the code.

## Left out

- The lists inside `TxPool` are values, not objects: that a list is updated in place, and aliasing of lists, are not captured there.
- Journal files, metrics, logs, tickers, locks and the events sent after a reorganisation run, including the queued events that the scheduling loop collects.
- How a reset finds the transactions that a fork left behind (core/tx_pool.go:1121-1180): they are a parameter, and so is whether the reset fails early.
- Signature recovery: a transaction carries its sender, so the errors for invalid signatures do not occur.
- `addTxs`' merging of errors into one slice, `Status`, `Content`, `Pending` and the other read-only queries of the pool.
- The EVM, state tries, snapshots and the freezer; block rewards in `Finalize`; receipts beyond gas.
- `insertChain`, `insertSideChain`, future blocks, removed-log and side-chain events, and the limit on transaction lookups.
- The interrupt in `writeHeaders` that drops a batch, and LRU caches, which are taken to be transparent.
- The indexer's child cascade, checkpoints added after it has started, and an index database that is not empty when it is created.
- 64-bit overflow of block numbers outside `HashFn`; genesis counts with difficulty 0 in total difficulties.
- Networking, RPC, consoles, wallets and formatting.
- TxPools.TxPool.RunReorg: that an account waits is stated one way only, `Rework` has both, because the limits enforced after it may drop the waiting transaction.
- HeaderChains.RunGood: excludes batches that lose their markers, because the property fails for those.
- BlockChains.RunGood: needs every arrival to be outside the stale family, because inside it the property fails.
