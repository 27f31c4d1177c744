# A verified model of the chain client's core protocols

The project models seven parts of the client and proves what they are for. Each part
takes the form the program gives it: objects with fields updated in place are classes,
loops are loops with invariants, recursive computations are functions. The concurrent
parts (the tree hasher and the event feed) are state machines of atomic steps, and their
theorems hold of every interleaving.

| part | files |
|---|---|
| the concurrent binary Merkle tree hasher against its recursive reference | `BmtRef`, `BmtTree`, `BmtProof`, `BmtTheorem`, `BmtHasher` |
| the transaction pool's lists: heaps, per-account lists, price list | `Heap`, `TxListSpec`, `TxSortedMap`, `TxList`, `TxPriced` |
| the transaction pool: enqueueing, promotion, fairness, queue limits, additions | `TxPoolSpec`, `TxPool`, `TxPoolPromote`, `TxPoolFair`, `TxPoolQueue`, `TxPoolRun` |
| the transaction pool over head changes and over whole runs | `TxPoolMend`, `TxPoolMerge`, `TxPoolReset`, `TxPoolTrace`, `TxPoolWitness` |
| the canonical header chain, the block chain and the transaction lookup index | `ChainTree`, `HeaderChain`, `BlockChain` |
| the weighted random selection tree and the request distributor | `RandTree`, `RandSelect`, `Distributor` |
| the event feed | `Feed` |
| gas and fee accounting | `Gas` |
| wallet derivation paths | `DerivationPath` |

## What turned out differently

Where a property one would expect does not hold of the code, the code was kept and the
exact condition proved.

- A Merkle tree node tells the first of its two goroutines from the second by the parity
  of a signed 32-bit counter that grows by two with each use. Once it passes its largest
  value its parity test no longer separates them. A released tree is usable again exactly
  when no counter it bumped was at its last positive value (`BmtTheorem.UsableAgain`);
  `BmtTheorem.WornOut` is a tree that is not.
- `Write` promises to take no more than the capacity. With an odd segment count and an open
  segment, bytes that run into the last leaf are taken beyond it, exactly in the case that
  `BmtHasher.TakenIsExact` names. After that the next nonempty `Write` panics on a negative
  slice bound and no other panics (`BmtHasher.Hasher.Write`, with a run in
  `BmtHasher.OverrunPanics`), and `Sum` gives the reference hash of more bytes than the
  reference would read (`BmtHasher.SumAfterOverrun`, `BmtHasher.OverrunDiffers`).
- The price heap holds the live and the stale transactions, once each. Adding a transaction
  keeps that exactly if no stale copy of it is in the heap (`TxPriced.PutCounts`;
  `TxPriced.PutAgain` is one that breaks it). Over a run it stays as long as nothing is
  offered twice (`TxPoolTrace.RunExact`).
- A pool reset adds discarded transactions again before it demotes. That can leave a gap in
  a pending list, because only a gap in front is looked for, and it lets the pending limit
  strike at transactions that are already obsolete.
  - Promotion at the new state nonce leaves what demotion can put in order exactly if there
    is no gap before the old pending list (`TxPoolMend.PromotionTidies`); demotion and the
    update of the virtual nonces give order exactly from such a list
    (`TxPoolReset.ResetGapless`).
  - A cap makes the virtual nonce fall behind the state nonce exactly if more transactions
    below the state nonce stay than it allows (`TxPoolMend.CapFallsBehind`, for a whole water
    level `TxPoolMend.EvenedTidy`), and a virtual nonce that has fallen behind never
    recovers during the reset (`TxPoolReset.BehindStays`).
  - Together: while the pool and what comes back fit the pending limit, a reset keeps the
    nonces in order exactly if no account is left with a gap, whatever `add` rejects on the
    way; beyond it, if in addition there is room and remote lists have few obsolete
    transactions (`TxPoolReset.ResetInOrder`, for the method `TxPoolReset.Reset`).
  - Runs from an empty pool that end out of order in either way are
    `TxPoolWitness.GapStays` and `TxPoolWitness.VirtualFallsBehind`.
- `Add` whitelists the sender of a local transaction exactly if it does not replace a pending
  one (`tx_pool.go:641-668`; its comment promises it for every local one). The contract of
  `TxPoolRun.Add` says so, and `TxPoolRun.ReplacementStaysRemote` is a local transaction
  whose sender stays remote.
- Queues that exceed the limit are cut at the accounts with the latest heartbeat first, though
  the comment says that the oldest are dropped (`tx_pool.go:1038-1077`);
  `TxPoolQueue.Truncate` states the order of the code.
- A rewind keeps the canonical index but not the tree of stored headers; exactly when it
  does is `HeaderChain.RewindKeepsTree`, and `HeaderChain.RewindOrphans` is one that does not.
- The receipts that `SetReceiptsData` completes get the gas of each transaction exactly when
  the running sums do not fall; otherwise a difference wraps around (`Gas.ReceiptsWrap`).

## Model

| member | source | states |
|---|---|---|
| BmtRef.Depth | gttc-base/bmt/bmt.go:519-524 | the depth is the least one whose tree has a leaf for every pair of segments |
| BmtRef.NewRefHasherSpan | gttc-base/bmt/bmt_r.go:39-55 | the span the recursion starts from is the width of one half of the tree, or of the whole when it is a single pair |
| BmtRef.HashSlice | gttc-base/bmt/bmt_r.go:67-85 | the reference recursion with its span-halving loop is the recursive function RefHash |
| BmtHasher.Hasher.Write | gttc-base/bmt/bmt.go:333-372 | a Write panics exactly if it is nonempty and follows an overrun; otherwise it takes exactly the first Taken bytes, and launched segments plus the open one stay the split of all data so far |
| BmtHasher.TakenIsExact | gttc-base/bmt/bmt.go:333-372 | a Write takes the offered bytes up to the capacity, if and only if it is not in the odd-count case that overruns |
| BmtHasher.OverrunPanics | gttc-base/bmt/bmt.go:333-372 | a run from a new hasher: two Writes overrun the capacity and the third panics |
| BmtHasher.WriteAll | gttc-base/bmt/bmt.go:333-372 | any sequence of Writes within the capacity leaves the segments of the joined data |
| BmtHasher.ChunkIsReference | gttc-base/bmt/bmt_r.go:59-85 | the value at the top of the tree equals the recursive reference hash, for every data length up to the capacity |
| BmtTheorem.EveryScheduleDelivers | gttc-base/bmt/bmt.go:440-492 | whatever the interleaving of segment goroutines, only the chunk's value is ever received, no goroutine is left, and the released tree is clean with its counters moved by two |
| BmtTheorem.NeverStuck | gttc-base/bmt/bmt.go:292-318 | until the tree is released someone can step: no interleaving deadlocks |
| BmtTheorem.EveryScheduleStops | gttc-base/bmt/bmt.go:292-318 | every interleaving ends within a bound computed from the job |
| BmtTheorem.ReceivedIsLast | gttc-base/bmt/bmt.go:461-492 | when Sum receives a result no other goroutine is left, so exactly one result is sent |
| BmtTheorem.ReleaseClean | gttc-base/bmt/bmt.go:423-438 | after release the unbalanced flags and all root flags but the top one are cleared and every counter is even |
| BmtTheorem.ToggleAlternates | gttc-base/bmt/bmt.go:504-509 | the counter separates first and second arrival if and only if it has not wrapped |
| BmtTheorem.UsableAgain | gttc-base/bmt/bmt.go:423-438 | a released tree is usable again if and only if no counter was at its last positive value |
| BmtTheorem.WornOut | gttc-base/bmt/bmt.go:504-509 | a concrete clean tree that is usable once more and never again, whatever the schedule |
| BmtProof.FinaliseStep | gttc-base/bmt/bmt.go:528-545 | each step of finalise keeps the protocol invariant: it marks the right-edge nodes unbalanced and the receiving node root |
| BmtProof.ToggleStep | gttc-base/bmt/bmt.go:461-492 | a toggle step keeps the protocol invariant, for one progress map or another |
| BmtProof.ToggleDecides | gttc-base/bmt/bmt.go:461-509 | at a balanced node the goroutine that finds the other side not joined stops, and the one that finds it joined goes on with the values of both children in the node |
| BmtHasher.SumEqualsReference | gttc-base/bmt/bmt.go:292-318 | main result: for any data within the capacity and any schedule on a usable tree, Sum can only receive the reference hash |
| BmtHasher.SumAfterOverrun | gttc-base/bmt/bmt.go:292-318 | after an overrun every schedule still delivers, and what Sum receives is the uncapped reference recursion on all the bytes taken |
| BmtHasher.OverrunDiffers | gttc-base/bmt/bmt_r.go:59-65 | a concrete overrun for which that is not the capped reference hash |
| Heap.Push | gttc-base/core/tx_list.go:38-40 | pushing keeps the heap order and adds exactly the element |
| Heap.Pop | gttc-base/core/tx_list.go:42-48 | popping returns a least element and keeps the heap of the rest |
| Heap.Remove | gttc-base/core/tx_list.go:152-169 | removing at an index keeps the heap of the other elements |
| Heap.Init | gttc-base/core/tx_list.go:102-123 | rebuilding gives a heap of the same elements |
| TxSortedMap.SortedMap.Put | gttc-base/core/tx_list.go:73-79 | the map gains the transaction, the nonce heap holds each key once, a stale cache is dropped |
| TxSortedMap.SortedMap.Forward | gttc-base/core/tx_list.go:84-98 | exactly the transactions below the threshold go; slicing the cache leaves the sorted rest |
| TxSortedMap.SortedMap.Filter | gttc-base/core/tx_list.go:102-123 | exactly the transactions that match go, and heap and cache follow |
| TxSortedMap.SortedMap.Cap | gttc-base/core/tx_list.go:127-148 | the lowest nonces up to the limit stay; slicing the cache leaves the sorted rest |
| TxSortedMap.SortedMap.Remove | gttc-base/core/tx_list.go:152-169 | exactly one nonce leaves map and heap |
| TxSortedMap.SortedMap.Ready | gttc-base/core/tx_list.go:178-193 | the maximal run of consecutive nonces from the lowest, if that is not beyond start |
| TxSortedMap.SortedMap.Flatten | gttc-base/core/tx_list.go:203-216 | the contents in nonce order, also from the cache |
| TxSortedMap.CapIsBelow | gttc-base/core/tx_list.go:127-148 | capping by count is cutting at a nonce, which is why the cache may be sliced |
| TxListSpec.SortedUnique | gttc-base/core/tx_list.go:203-216 | there is only one nonce-sorted sequence of given contents |
| TxListSpec.FilterPartitions | gttc-base/core/tx_list.go:290-314 | kept, removed and invalidated transactions partition the list |
| TxListSpec.IntervalFilter | gttc-base/core/tx_list.go:290-314 | a contiguous strict list stays contiguous under Filter |
| TxListSpec.IntervalCap | gttc-base/core/tx_list.go:318-320 | a contiguous list stays contiguous under Cap, which cuts off its top |
| TxListSpec.IntervalCut | gttc-base/core/tx_list.go:325-336 | a contiguous list stays contiguous when everything above or below a nonce goes |
| TxList.List.Add | gttc-base/core/tx_list.go:251-272 | a transaction enters exactly if its nonce is free or it outbids the old one by the price bump; the caps stay upper bounds |
| TxList.List.Filter | gttc-base/core/tx_list.go:290-314 | with its cost and gas caps Filter keeps and returns exactly what a full scan would |
| TxList.List.Remove | gttc-base/core/tx_list.go:325-336 | one transaction goes, and on a strict list everything after it is returned as invalid |
| TxPriced.PricedList.Put | gttc-base/core/tx_list.go:414-416 | the price heap gains the transaction; a heap whose counts were exact without it has exact counts if and only if it held no copy of it |
| TxPriced.PutCounts | gttc-base/core/tx_list.go:414-416 | heap size equals live plus stale entries after a Put if and only if the heap held no stale copy of the transaction |
| TxPriced.PutAgain | gttc-base/core/tx_list.go:414-416 | a concrete second Put that breaks the count |
| TxPriced.PricedList.Removed | gttc-base/core/tx_list.go:421-436 | stale entries are counted, and past a quarter the heap is rebuilt from the pool; it covers the pool throughout |
| TxPriced.PricedList.Underpriced | gttc-base/core/tx_list.go:471-493 | true exactly for a remote transaction that is no dearer than every pooled one |
| TxPriced.PricedList.Discard | gttc-base/core/tx_list.go:497-520 | only the cheapest remote transactions are taken, at equal price the higher nonces, never a local one, as many as asked for or all |
| TxPriced.PricedList.Cap | gttc-base/core/tx_list.go:440-467 | exactly the remote transactions below the threshold are taken |
| TxPoolSpec.SoundMeans | gttc-base/core/tx_pool.go:605-701 | soundness: the lookup table is the disjoint union of pending and queued transactions, each under its sender and nonce |
| TxPoolSpec.RequeueOne | gttc-base/core/tx_pool.go:678-701 | requeueing a transaction that left the pending list finds its nonce free, so it cannot fail |
| TxPoolSpec.PromoteOne | gttc-base/core/tx_pool.go:719-752 | neither can a promotion |
| TxPool.Pool.EnqueueTx | gttc-base/core/tx_pool.go:678-701 | the transaction enters the queue exactly if it is accepted, replacing one of the same nonce |
| TxPool.Pool.PromoteTx | gttc-base/core/tx_pool.go:719-752 | the transaction enters the pending list and raises the virtual nonce, or is dropped from the lookup table |
| TxPool.Pool.RemoveTx | gttc-base/core/tx_pool.go:863-902 | exactly the named transaction leaves the pool; pending ones after it are all in the queue then, the virtual nonce falls to its nonce if it was higher, every other account stays, and the heap count stays exact |
| TxPoolSpec.CutWithout | gttc-base/core/tx_pool.go:876-893 | removing one pending transaction and requeueing what follows it is the removal of a set with that one member |
| TxPoolSpec.WithoutBoth | gttc-base/core/tx_pool.go:863-902 | removals compose: the pool after several of them depends only on the set that left, not on the order |
| TxPoolSpec.CutGapless | gttc-base/core/tx_pool.go:876-893 | after a pending transaction is removed the pending nonces still end at the virtual nonce |
| TxPoolPromote.TakeReady | gttc-base/core/tx_list.go:178-193 | the ready run is found from the lowest nonce by the first gap |
| TxPoolPromote.RunCloses | gttc-base/core/tx_pool.go:940-947 | on a gapless account the promoted run starts at the virtual nonce and leaves nothing queued at the new one |
| TxPoolPromote.PromoteAccount | gttc-base/core/tx_pool.go:919-962 | one account's promotion: pending gains exactly the ready run, the virtual nonce ends after it, every other account stays and the lookup table loses exactly what was dropped; of a local account everything that may still be sent stays queued or moves up; of a remote one only what lies above all that stays is dropped, and only with the queue at its limit |
| TxPoolPromote.TookSifts | gttc-base/core/tx_pool.go:919-962 | promotion as the account's owner sees it: what is pending stays, what waits or moves up was queued and may be sent, and who loses what to the queue limit |
| TxPoolFair.Equalize | gttc-base/core/tx_pool.go:967-1037 | water filling: the pending limit is met or every remote account is within its allowance; local lists and lists within the allowance stay as they were, of any other the highest nonces go, and no remote account above the allowance keeps more than one that was cut; one level does it, each virtual nonce falls to the lowest nonce cut, the running counter has counted exactly the transactions cut, and the loops end |
| TxPoolFair.EvenedMeans | gttc-base/core/tx_pool.go:967-1037 | what one level says of the accounts one by one, without the level |
| TxPoolFair.LevelIsLargest | gttc-base/core/tx_pool.go:967-1037 | every higher level would break the limit |
| TxPoolFair.LevelTotal | gttc-base/core/tx_pool.go:985-1036 | the lists hold exactly as many transactions as the level allows in sum |
| TxPoolFair.CounterIsTrue | gttc-base/core/tx_pool.go:985-1036 | the running counter is the true number of pending transactions whenever the loops look at it |
| TxPoolQueue.Truncate | gttc-base/core/tx_pool.go:1038-1077 | exactly the excess is dropped from remote queues, or all of them if they hold less; every queue is kept whole or emptied but for one, of which only the highest nonces go; an account loses something only after every remote one with a later heartbeat has lost everything; local queues and pending lists are untouched |
| TxPoolRun.OnlyLocal | gttc-base/core/tx_pool.go:1038-1077 | if the queue limit is still exceeded only local accounts have anything queued |
| TxPoolRun.PromoteExecutables | gttc-base/core/tx_pool.go:907-1078 | the whole promotion is exactly the promotions of its accounts, then the water filling, then the truncation; it keeps the pool sound and ends within the queue limit or with local queues only |
| TxPoolRun.ValidateTx | gttc-base/core/tx_pool.go:554-595 | a transaction is valid exactly if it is well-formed, within the block's gas, not below the state nonce, affordable, and local or not below the minimum price |
| TxPoolRun.Add | gttc-base/core/tx_pool.go:605-673 | a transaction is taken only if it is new and meets each of these rules; a new one that does and finds room, or comes after one that is cheaper, or counts as local, is taken exactly if no pooled transaction has its sender and nonce or it beats the one that has by the price bump, and then it stands in that one's place and nothing else moves; otherwise nothing happens; also what room is made in a full pool and exactly when the sender is whitelisted |
| TxPoolRun.MakeRoom | gttc-base/core/tx_pool.go:618-633 | the removed transactions are remote, before any remote one that stays in price and then in nonce, no more than asked for and, on an exact heap, exactly that many or all; what followed them is queued again |
| TxPoolRun.ReplacementStaysRemote | gttc-base/core/tx_pool.go:641-668 | a concrete local transaction that replaces a pending one and leaves its sender remote |
| TxPoolRun.EnteredFollows | gttc-base/core/tx_pool.go:634-672 | a replacement leaves the nonces in order, and a new queued nonce makes only its sender due |
| TxPoolRun.AddTxs | gttc-base/core/tx_pool.go:810-833 | a batch is exactly its additions one after the other, each on the pool that the one before left, and then the promotion of exactly the senders that queued a new nonce; the pool stays sound and the nonces in order |
| TxPoolRun.RemoveAll | gttc-base/core/tx_pool.go:863-902 | removing a list of transactions one by one is the removal of their set |
| TxPoolRun.SetGasPrice | gttc-base/core/tx_pool.go:463-472 | exactly the remote transactions below the new price leave the pool, and what followed them in a pending list is queued again |
| TxPoolRun.Evict | gttc-base/core/tx_pool.go:310-325 | exactly the queues of idle remote accounts are emptied |
| TxPoolReset.DemoteAccount | gttc-base/core/tx_pool.go:1085-1121 | old and unpayable transactions go, later ones are queued again, and a list with a gap in front is queued again as a whole |
| TxPoolReset.Demote | gttc-base/core/tx_pool.go:1083-1123 | the same for every account at once; no requeueing fails and nothing else leaves the lookup table |
| TxPoolMend.PromotionTidies | gttc-base/core/tx_pool.go:403-414 | a promotion at the new state nonce leaves a list that demotion puts in order if and only if no gap is left before the old pending list |
| TxPoolMend.CapFallsBehind | gttc-base/core/tx_pool.go:995-1012 | a cap makes the virtual nonce fall below the state nonce if and only if the list has more transactions below the state nonce than the cap keeps |
| TxPoolMend.CapTidies | gttc-base/core/tx_pool.go:995-1012 | a cap that keeps what is below the state nonce keeps order; one that does not leaves nothing from the state nonce on |
| TxPoolMend.EvenedTidy | gttc-base/core/tx_pool.go:967-1037 | the water level keeps every account in order if and only if no eligible account has more than the level below its state nonce |
| TxPoolReset.KeptGapless | gttc-base/core/tx_pool.go:1083-1123 | what demotion keeps of one list, with the updated virtual nonce, is in order if and only if the list has no inner gap from the state nonce on |
| TxPoolReset.ResetGapless | gttc-base/core/tx_pool.go:416-426 | after demotion and the nonce update all pending nonces reach from state to virtual nonce if and only if every list before had no such gap |
| TxPoolMerge.BatchMerges | gttc-base/core/tx_pool.go:403-414 | what the batch of discarded transactions leaves is the fold of those that add takes, as long as the pool has room: rejected ones, obsolete nonces among them, change nothing |
| TxPoolMerge.PendingInPool | gttc-base/core/tx_pool.go:967-1037 | a pool within the pending limit cannot exceed it by promotion |
| TxPoolReset.BehindStays | gttc-base/core/tx_pool.go:416-430 | a virtual nonce below the state nonce, with nothing pending from there on, stays below it to the end of the reset |
| TxPoolReset.ResetInOrder | gttc-base/core/tx_pool.go:351-430 | a reset that adds nothing, or has room, few obsolete transactions and leaves no gap, keeps the nonces in order; while the pool and what comes back fit the pending limit it does so if and only if it leaves no gap |
| TxPoolReset.Reset | gttc-base/core/tx_pool.go:351-430 | to any new head the pool stays sound and is exactly the additions, the demotion, the nonce update and the promotion one after the other; order as in ResetInOrder |
| TxPoolWitness.GapStays | gttc-base/core/tx_pool.go:1107-1114 | a run from an empty pool to a sound pool in order, whose reset leaves a gap that the front check does not see |
| TxPoolWitness.VirtualFallsBehind | gttc-base/core/tx_pool.go:995-1012 | a run from an empty pool to a sound pool in order, whose reset exceeds the pending limit and leaves the virtual nonce below the state nonce |
| TxPoolTrace.Run | gttc-base/core/tx_pool.go:261-338 | every sequence of additions, price changes, evictions and head changes is a run of exact steps from the pool before to the pool after |
| TxPoolTrace.RunSound | gttc-base/core/tx_pool.go:261-338 | in every state of every run the pool is sound |
| TxPoolTrace.RunInOrder | gttc-base/core/tx_pool.go:261-338 | from a pool in order every state of a run is in order if each reset on the way meets its condition, reinjection included |
| TxPoolTrace.RunExact | gttc-base/core/tx_list.go:414-436 | over every run that offers no transaction twice the price heap counts live and stale entries exactly |
| ChainTree.AncOfAnc | gttc-base/core/headerchain.go:166-178 | agreement at one number implies agreement at all lower numbers, which ends the back-walk |
| ChainTree.ExactIsLinked | gttc-base/core/headerchain.go:134-195 | on a tree, an index is the head's ancestor path exactly if its entries link up from genesis to the head |
| HeaderChain.HeaderChain.WriteHeader | gttc-base/core/headerchain.go:134-195 | the index is exactly the path of the head, total difficulties are sums along ancestry, the head is a heaviest header and never gets lighter, whatever the coin |
| HeaderChain.HeaderChain.Reroute | gttc-base/core/headerchain.go:166-180 | the back-walk ends and leaves exactly the new head's path |
| HeaderChain.HeaderChain.ClearAbove | gttc-base/core/headerchain.go:158-165 | nothing is left above the new head |
| HeaderChain.HeaderChain.InsertHeaderChain | gttc-base/core/headerchain.go:259-285 | over every batch: the head after each header by total difficulty and coin, known ones skipped, exactly the headers that are stored, and where the batch stops |
| HeaderChain.LedNext | gttc-base/core/headerchain.go:259-285 | one header more: the recorded weights of earlier ones do not change, so the heads before it stand |
| HeaderChain.HeaderChain.SetHead | gttc-base/core/headerchain.go:408-441 | exactly the canonical headers above the number are deleted and the rest of the index stays linked |
| HeaderChain.RewindKeepsTree | gttc-base/core/headerchain.go:408-441 | after a rewind stored headers are closed under parents if and only if no stored side branch leaves the path above the new head |
| HeaderChain.RewindOrphans | gttc-base/core/headerchain.go:408-441 | a concrete chain whose rewind leaves a header without its parent |
| HeaderChain.StoredWeighs | gttc-base/core/headerchain.go:140-152 | the stored total difficulty is the sum of difficulties along the ancestry |
| BlockChain.BlockChain.FindCommon | gttc-base/core/blockchain.go:1273-1313 | the walk finds the last common ancestor and collects exactly the blocks above it on both sides |
| BlockChain.BlockChain.InsertAll | gttc-base/core/blockchain.go:1325-1333 | inserting the new chain assigns its numbers and writes its lookups |
| BlockChain.BlockChain.Reorg | gttc-base/core/blockchain.go:1246-1353 | the index becomes the new block's path and the lookups a scan of it |
| BlockChain.ScansSwap | gttc-base/core/blockchain.go:1325-1340 | adding the new chain's entries and deleting those only in the old one turns one scan into the other |
| BlockChain.ScanFinds | gttc-base/core/rawdb/accessors_indexes.go:45-60 | what the lookup index says is where the transaction is, on the canonical path |
| BlockChain.ScanHas | gttc-base/core/rawdb/accessors_indexes.go:45-60 | and it has every transaction of the path |
| BlockChain.BlockChain.Insert | gttc-base/core/blockchain.go:473-490 | the block becomes head, and the head header follows if the number was assigned differently |
| BlockChain.BlockChain.WriteBlockWithState | gttc-base/core/blockchain.go:877-994 | the index up to the head is the head's path, the lookups its scan, the head a heaviest block, of the heaviest ones none lower, and never gets lighter; a heavier block takes over, an equally heavy one if it is lower or as high and the coin says so, no other; the block is kept with its state; head header and head block agree if difficulties are positive |
| BlockChain.BlockChain.WriteBlockWithoutState | gttc-base/core/blockchain.go:864-874 | a block that does not beat the head is stored with its total difficulty, but not with its state, and all of this stays |
| BlockChain.BlockChain.InsertBlock | gttc-base/core/blockchain.go:1083-1160 | the next head in terms of total difficulty, number and coin, and that only a lighter block that competes from before the kept states is stored without its state |
| BlockChain.BlockChain.InsertChain | gttc-base/core/blockchain.go:1062-1191 | over every batch: the head after each block, exactly the blocks and the states that are stored, and where the batch stops; at the end every block of it up to there is lighter than the head, or as heavy and not lower; a known block with its state that is not above the head of its turn is skipped |
| BlockChain.NotListed | gttc-base/core/blockchain.go:473-490 | with positive difficulties a block that takes over was not on the index, so the head header always follows |
| BlockChain.MeetsAtLast | gttc-base/core/blockchain.go:1295-1313 | two paths that meet for the first time meet at the last common ancestor |
| RandTree.Insert | gttc-base/les/randselect.go:107-131 | insert takes the first free cell of the flat array, returns its index and changes no other |
| RandTree.TakenBefore | gttc-base/les/randselect.go:107-114 | before a branch that the loop reaches every cell is taken |
| RandTree.AllPassedIsFull | gttc-base/les/randselect.go:107-114 | the branch loop never panics on a node with room |
| RandTree.SetWeight | gttc-base/les/randselect.go:135-156 | exactly one cell changes, and the returned difference is that of the sums |
| RandTree.Choose | gttc-base/les/randselect.go:159-170 | the chosen item is the one whose interval of prefix sums holds the value; no panic |
| RandTree.HitsOnce | gttc-base/les/randselect.go:159-170 | no value hits two items |
| RandTree.HitCount | gttc-base/les/randselect.go:159-170 | an item is hit by exactly as many values as its weight |
| RandTree.FlatLength | gttc-base/les/randselect.go:98-104 | node sums and counts are those of the cells below |
| RandTree.RaisedKeeps | gttc-base/les/randselect.go:61-68 | adding a level keeps every item at its index |
| RandSelect.WeightedRandomSelect.SetWeight | gttc-base/les/randselect.go:54-73 | the set as a map from items to weights gets exactly this update; a known item stays in its cell, a new one takes the first free one |
| RandSelect.WeightedRandomSelect.Choose | gttc-base/les/randselect.go:79-94 | for every sequence of random numbers: the value picks the cell that it hits, the item is returned exactly if its weight has not fallen or the second draw is below it, otherwise only its weight is updated and the next round begins; the loop ends because each retry lowers the total; nothing is returned exactly if the set is empty |
| RandSelect.ChosenStep | gttc-base/les/randselect.go:79-94 | a round that is not the last lowers the total weight, and leads to what the rounds after it lead to |
| RandSelect.ChosenOnce | gttc-base/les/randselect.go:79-94 | the random numbers decide: there is one outcome |
| Distributor.RequestDistributor.Queue | gttc-base/les/distributor.go:233-260 | the queue stays in the order of creation, also for requests that are sent again |
| Distributor.RequestDistributor.Cancel | gttc-base/les/distributor.go:265-276 | true exactly for a request still in the queue; then it leaves it and nothing else does, otherwise the queue stays |
| Distributor.RequestDistributor.Remove | gttc-base/les/distributor.go:279-285 | exactly the request leaves the queue |
| Distributor.RequestDistributor.NextRequest | gttc-base/les/distributor.go:178-227 | a peer is only paired with the first queued request it can take, with the least wait; exactly the requests at the front that no peer can take are dropped |
| Feed.FindIn | gttc-base/event/feed.go:213-220 | the index of the channel, or -1 if it is not there |
| Feed.DeleteIn | gttc-base/event/feed.go:223-225 | the case goes and the rest of the array moves down |
| Feed.DeactivateIn | gttc-base/event/feed.go:228-232 | the case is swapped behind the active prefix |
| Feed.NeverPanics | gttc-base/event/feed.go:104-190 | in every interleaving find succeeds for a channel being removed, and every live subscription is in exactly one of the two lists |
| Feed.MergeTakesAll | gttc-base/event/feed.go:136-138 | a Send starts with all channels that are subscribed at that moment in its cases, and the inbox is empty |
| Feed.ExactlyOnce | gttc-base/event/feed.go:129-190 | over every run: a channel that is subscribed at the merge of a Send and stays so to its end gets the value exactly once, one that is removed on the way at most once, one that is not subscribed at the merge never, counted on the steps that deliver; Send returns the number of these steps |
| Feed.QuietOnceGone | gttc-base/event/feed.go:105-127 | a removed channel gets nothing on any run until it is subscribed again |
| Feed.SendProgress | gttc-base/event/feed.go:150-182 | a Send in progress can deliver to any of its channels that has not got the value, and when there is none it can end |
| Feed.StepHandOver | gttc-base/event/feed.go:170-178 | removing a case during a Send keeps the active prefix right, whether the case was still active or not |
| Gas.IntrinsicGas | gttc-base/core/state_transition.go:79-109 | succeeds exactly when the unbounded formula fits into 64 bits and then returns it |
| Gas.GasPool.AddGas | gttc-base/core/gaspool.go:29-35 | panics exactly when the pool would overflow |
| Gas.StateTransition.BuyGas | gttc-base/core/state_transition.go:152-165 | the first failing check decides and nothing changes; otherwise the sender pays for all the gas and it leaves the pool |
| Gas.StateTransition.RefundGas | gttc-base/core/state_transition.go:230-245 | the refund is at most half of the gas used and the pool cannot overflow |
| Gas.StateTransition.TransitionDb | gttc-base/core/state_transition.go:183-228 | result, pool gas and state are exactly those of the transition, with the order of errors and what each leaves behind; pool gas and used gas add up and the sum of balances stays |
| Gas.AppliedMeans | gttc-base/core/state_transition.go:183-245 | for a message that is applied: nonce, balance and gas were sufficient, and every account has what the machine left it, the sender also the price of the gas not used, the coinbase that of the gas used, which is at least half of what the machine used |
| Gas.SettledTotal | gttc-base/core/state_transition.go:224-245 | fees are conserved |
| Gas.PaidAtLeastHalf | gttc-base/core/state_transition.go:230-235 | at least half of the gas used is paid for |
| Gas.Process | gttc-base/core/state_processor.go:56-79 | the messages are applied in turn: receipts, used gas and state are those of the fold, or the error is that of the first message that fails; after each transaction pool gas and used gas add up to the block's limit, receipts carry prefix sums, balances are conserved |
| Gas.FailsOn | gttc-base/core/state_processor.go:67-75 | once a message fails nothing after it matters |
| Gas.SetReceiptsData | gttc-base/core/blockchain.go:737-772 | in place: gas of each transaction from the running sums, log positions consecutive through the block |
| Gas.LogsInOrder | gttc-base/core/blockchain.go:761-769 | log indices run on from one receipt to the next |
| Gas.ReceiptsRecovered | gttc-base/core/blockchain.go:755-760 | it recovers the gas that Process recorded for every transaction |
| Gas.ReceiptsWrap | gttc-base/core/blockchain.go:755-760 | where the running sum does not fall the difference is the gas used; where it falls the difference is too large by two to the power of 64 |
| DerivationPath.ParseDerivationPath | gttc-base/accounts/hd.go:67-117 | the loop computes the parse of all components, or the first error |
| DerivationPath.String | gttc-base/accounts/hd.go:121-135 | the loop computes the printed form |
| DerivationPath.RoundTrip | gttc-base/accounts/hd.go:67-135 | parsing the printed form gives the path back, exactly if it is not empty |
| DerivationPath.ParsePrintParse | gttc-base/accounts/hd.go:67-135 | for every accepted string parsing, printing and parsing again changes nothing |
| DerivationPath.ComponentRange | gttc-base/accounts/hd.go:89-113 | a number is accepted plain exactly up to the 32-bit limit and hardened exactly below the hardened limit |
| DerivationPath.RelativePath | gttc-base/accounts/hd.go:67-88 | a relative path is the absolute one below the default root, errors included |
| DerivationPath.SpacesIgnored | gttc-base/accounts/hd.go:89-97 | whitespace around a component is ignored |

## Left out

- Sum's length prefix (`blockLength`), the hasher's pool of trees and its base hasher's own state: the base hash is an arbitrary function.
- TxPoolReset.ResetInOrder: beyond the pending limit its condition is sufficient only; whether a gap or an obsolete list is cut away again then depends on the water level and the order in which queues are truncated. Soundness has no condition.
- BmtHasher.Hasher.Write: the state that a panic leaves is that before the call; nothing is said of a hasher that is used after it.
- TxPool.Pool: a list in `pending` or `queue` is represented by its contents; that the list classes compute these contents is proved in TxSortedMap and TxList.
- TxPoolFair.Equalize: the order of offenders is by exact list length, where the program compares 32-bit floats.
- TxPoolRun.Evict: the heartbeats of accounts are a parameter, here and of TxPoolQueue.Truncate; PromoteExecutables passes any. Map iteration orders are arbitrary everywhere.
- TxPoolRun.Add: signature, size, value and intrinsic gas checks are one flag of a transaction; the journal, the event feed and metrics are left away.
- HeaderChain.HeaderChain.WriteHeader: that the number follows the parent's is required of the caller, as header verification guarantees it; block numbers are unbounded and caches are transparent.
- BlockChain.BlockChain.WriteBlockWithState: entries of the index above a shorter new head are not claimed absent; state, receipts, logs, trie garbage collection and the failing branches of an incomplete database are left away.
- BlockChain.BlockChain.InsertChain: whether a block's state is there is a parameter; future blocks, body validation and the re-import of pruned blocks before their winner are left away.
- RandTree.Insert: nodes are values, so sharing of subtrees is not modelled; weights and sums are unbounded rather than 64-bit.
- RandSelect.WeightedRandomSelect.Choose: the random numbers and the current weights are parameters; probabilities are left to the correspondence between values and prefix sums.
- Distributor.RequestDistributor.NextRequest: the choice among peers without waiting time is arbitrary instead of weighted by buffer; the wake-up loop is left away.
- Feed.ExactlyOnce: no channel has two live subscriptions at once; the type check and its panic are left away.
- Gas.StateTransition.TransitionDb: the virtual machine is a function that returns at most the gas it got and keeps the sum of balances.
- Gas.Process: block rewards and state roots are left away; log contents are reduced to their positions.
- DerivationPath.ParseDerivationPath: numbers are read as `math/big` does without digit separators and without the prefix `0o`.
- Fast sync heads, mixed header and block modes, the light client's fetcher and retrieval, and the chain indexer are not part of this model.
