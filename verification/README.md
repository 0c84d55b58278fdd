# Lycancoin core: models and proofs

A Dafny model of the parts of this Bitcoin Core derivative on which its consensus and its bookkeeping rest,
with proofs of what they are for. Check everything with `dafny verify dfyconfig.toml`.

Each part has a plain meaning (a tree of blocks, a map of unspent outputs, a number) and a form close to the
code (a class whose methods update its fields, a loop over a buffer). The methods are proved against the plain
meaning; the theorems are about every input, every run or every interleaving.

| files | models |
|---|---|
| `BlockTree`, `ChainInvariant`, `ChainSteps`, `ChainLinking`, `ChainSelection` | which chain of blocks is active: headers and blocks arrive in any order, are linked, become candidates; the node reorganises to the best valid one, and blocks can be invalidated by hand |
| `CheckQueue` | one master and any number of workers that share a queue of script checks, as atomic steps between lock operations |
| `Coins`, `CoinsCache` | a stack of write-back caches of unspent outputs over a database, with its DIRTY and FRESH flags |
| `Ledger`, `LedgerBlock`, `LedgerValue`, `LedgerRules`, `LedgerChain` | what connecting and disconnecting transactions, blocks and chains does to the map of unspent outputs; undo data; amounts and subsidies |
| `LedgerOutputs` | the unspent outputs one by one: what a history of transactions leaves, and what may be spent, told without the records they are kept in |
| `LedgerView`, `LedgerState` | the same as executed on the caches: records read, modified and written back through the top cache, tips connected and disconnected on a cache of their own |
| `ChainLedger` | chain selection where connecting a block means the ledger rules on what replaying its ancestors gives |
| `Merkle`, `PartialMerkle`, `PartialMerkleNodes` | the flat merkle tree with mutation detection, branches, and partial trees (BIP 37, "Partial Merkle branch format") |
| `AddrTables`, `AddrMan`, `AddrCheck`, `AddrFile` | the address manager, its consistency check, and its file |
| `SkipList` | skip pointers, chains as vectors, forks and locators |
| `Powers`, `Arith`, `ArithShift`, `Compact` | 256-bit integers in 32-bit limbs and the compact form of targets |
| `Base58` | Base 58 with and without checksum |
| `Compressor`, `CoinsCodec` | variable-length integers, compressed amounts and scripts, and the serialised form of a transaction's unspent outputs |

What the code cannot decide by itself is a parameter: which blocks are well-formed and which connect
(`ChainInvariant.Env`; `ChainLedger` puts the ledger rules there), which checks pass, script verdicts and sizes
(`otherwiseOk`), the hashes that pick address buckets (`AddrTables.Hashing`), the clock, and every random number
drawn. The theorems hold for all of their values. Merkle hashes are terms, so pairing is injective and never
yields a transaction id.

Five places where the code does less than it, or its comments, promise are stated as exact conditions:

* The internal check at src/main.cpp:3455 expects a block to be linked exactly if it and all its ancestors
  have data. A block whose data arrive while its parent is marked failed and not linked is not remembered
  (src/main.cpp:2418-2422) and is stranded for good. In every reachable state a block is linked if and only if
  it and all its ancestors have data and none of them is stranded (`ChainInvariant.LinkedIff`); a run of the
  node reaches a state where the check would fail (`ChainSelection.FailedParentStrandsChild`).
* Flushing a cache that never learnt its best block overwrites that of its parent with null
  (`CoinsCache.FlushBestIff`, `CoinsCache.FlushForgetsBest`).
* Where BIP 30 is not enforced, a coinbase that repeats an unspent id destroys the older one for good
  (`LedgerRules.OverwrittenCoinbaseIsLost`). Undoing a block is exact if and only if no transaction of it takes
  an id that still has unspent outputs once its own inputs are spent (`LedgerBlock.BlockRestoredIff`,
  `LedgerState.ChainState.DisconnectTip`), which BIP 30 makes sure of.
* Multiplying a 256-bit number by itself in place gives zero (`Arith.MulAssign`).
* A negative transaction version does not survive serialisation of the unspent outputs, as a comment at
  src/main.cpp:1608-1610 knows (`CoinsCodec.RoundTripIff`, `CoinsCodec.NegativeVersionIsLost`).

## Model

| member | source | states |
|---|---|---|
| `BlockTree.LessIsStrictTotalOrder` | src/main.cpp:97-116 | the comparator of candidates is a strict total order, so there is one best candidate |
| `ChainInvariant.LessIff` | src/main.cpp:97-116 | and which: of two linked blocks the one with more work, and of two with as much the one that was linked first |
| `ChainInvariant.CompleteDataIsLinked` | src/main.cpp:2382-2425 | in every reachable state a block whose data and whose ancestors' data have arrived, and none of which failed, is linked |
| `ChainInvariant.LinkedIsDataComplete` | src/main.cpp:2382-2425 | a linked block has its data and that of all its ancestors |
| `ChainInvariant.LinkedIff` | src/main.cpp:3455 | linked if and only if the data of the block and of all its ancestors have arrived, and for none of them while its parent was failed and not linked |
| `ChainInvariant.WaitingIff` | src/main.cpp:2418-2422 | the multimap of unlinked blocks holds exactly the blocks with data that are neither linked nor stranded, once each and under their parent |
| `ChainInvariant.LinkedIffDataComplete` | src/main.cpp:3455 | so for blocks without failed ancestors: linked if and only if all data have arrived, and waiting if and only if the block has its data and some ancestor has not |
| `ChainInvariant.ChainTxIsTotal` | src/main.cpp:2393-2417 | the count of a linked block is the number of transactions in it and all its ancestors |
| `ChainSelection.FailedParentStrandsChild` | src/main.cpp:2418-2422 | a run from an empty node that ends with a block whose data and whose ancestors' data are all there, and which is neither linked nor waiting |
| `ChainInvariant.SoundIsClean` | src/main.cpp:2109-2116 | no failure flag ever sits on a block whose ancestors are all valid and none of which was invalidated |
| `ChainInvariant.ChainIsSound` | src/main.cpp:2163-2224 | every block of the active chain has only valid, never invalidated ancestors |
| `ChainSteps.FailKeepsInv` | src/main.cpp:1335-1340 | marking the block that failed to connect keeps every invariant |
| `ChainSteps.ConnectKeepsInv` | src/main.cpp:2034-2091 | connecting a block and pruning worse candidates keeps every invariant: no block better than the tip is lost from the candidates |
| `ChainLinking.LinkKeepsInv` | src/main.cpp:2399-2417 | each turn of the relinking queue keeps every invariant |
| `ChainLinking.InvalidationKeepsInv` | src/main.cpp:2279-2311 | disconnecting down to an invalidated block, marking it and refilling the candidates keeps every invariant |
| `ChainSelection.BestCandidateIsBest` | src/main.cpp:2099-2106 | the best candidate is at least as good as every linked failure-free block, although worse ones are pruned |
| `ChainSelection.BestCandidate` | src/main.cpp:2099-2105 | a member of the set that no other member sorts above |
| `ChainSelection.BestOfLinkedIsBest` | src/main.cpp:2229-2277 | a tip that no linked failure-free block beats is best among all valid blocks whose data are complete: each has less work, or as much and was linked no earlier |
| `ChainSelection.SettledIsBest` | src/main.cpp:2238-2242 | if the best candidate is the tip, the active chain is the best |
| `ChainSelection.ProgressDecreases` | src/main.cpp:2163-2224 | a step that does not finish leaves fewer unfailed blocks, or as many and fewer blocks that sort above the tip |
| `ChainSelection.HigherTipHasFewerAbove` | src/main.cpp:2207-2213 | a better tip leaves strictly fewer blocks above it |
| `ChainSelection.Node.FindMostWorkChain` | src/main.cpp:2095-2147 | returns the best candidate, free of failed ancestors, after flagging the failed chains met on the way |
| `ChainSelection.Node.FindFork` | src/chain.cpp:52-58 | the last block of the active chain that is an ancestor of the given one |
| `ChainSelection.Node.ActivateBestChainStep` | src/main.cpp:2163-2224 | reaches the target or makes progress, keeping all invariants |
| `ChainSelection.Node.ActivateRound` | src/main.cpp:2232-2268 | one round made under the lock, from any state other events may have led to since the last: it ends the activation with the best chain active, or leaves fewer unfailed blocks, or as many and a better tip |
| `ChainSelection.Node.ActivateBestChain` | src/main.cpp:2229-2277 | rounds without other events in between end, with a valid tip; every valid block with complete data has less work, or as much and was linked later |
| `ChainSelection.Node.AcceptBlockHeader` | src/main.cpp:2657-2700 | adds a header at the right height and work, or refuses it, keeping all invariants |
| `ChainSelection.Node.ReceivedBlockTransactions` | src/main.cpp:2382-2425 | links the block exactly if its parent is linked, as the next in the order of linking, strands it exactly if the parent is failed and not linked, and else leaves it waiting; relinks what waited for it, and the queue terminates |
| `ChainSelection.Node.AcceptBlock` | src/main.cpp:2702-2751 | stores the data exactly of known, unfailed, well-formed blocks, and marks an ill-formed one failed |
| `ChainSelection.Node.InvalidateBlock` | src/main.cpp:2279-2311 | exactly the block and the active blocks above it are marked and leave the active chain, and all invariants hold |
| `ChainSelection.Node.Run` | src/main.cpp:2095-2425 | any sequence of header, data and invalidation events, activations and single rounds of activations, in any order, keeps all invariants, and the list of linked blocks only grows; when it ends an activation the tip has the most work of all valid chains, and was linked first of those with as much |
| `ChainLedger.SoundIff` | src/main.cpp:2034-2091 | a block is valid for chain selection if and only if replaying it and its ancestors from genesis passes the ledger rules and none is ill-formed or invalidated |
| `ChainLedger.BestChainIsBestLedger` | src/main.cpp:2229-2277 | the active tip's ledger is valid and within the subsidies, and no known block with all its data and a valid ledger has more work, or as much and was linked earlier |
| `ChainLedger.RunOnWorld` | src/main.cpp:2095-2425 | so it is after every run that ends an activation, whatever arrived in whatever order |
| `CheckQueue.RunBatch` | src/checkqueue.h:118-122 | runs checks until one fails: the result is true iff all pass |
| `CheckQueue.PopBatch` | src/checkqueue.h:108-114 | takes a batch from the end of the queue and loses none |
| `CheckQueue.BatchCount` | src/checkqueue.h:102-107 | between one and all queued checks are taken, more than one only up to the batch size and an equal share |
| `CheckQueue.BatchIsLargest` | src/checkqueue.h:102-107 | and no larger number would do |
| `CheckQueue.StepKeepsInv` | src/checkqueue.h:66-155 | every lock-to-lock step of every thread keeps the invariant: todo counts queued checks and those in hand, no wake-up is lost, no failure is forgotten |
| `CheckQueue.RunKeepsInv` | src/checkqueue.h:66-155 | so does every run of every interleaving |
| `CheckQueue.WaitIsExact` | src/checkqueue.h:66-155 | Wait returns true iff every check added since the previous Wait passes, whatever the interleaving and though checks after a failure are skipped |
| `CheckQueue.ControllerFindsIdle` | src/checkqueue.h:161-186 | outside Wait nothing is left to do and all present threads are idle, so the assertion of a new controller holds |
| `CheckQueue.NoDeadlock` | src/checkqueue.h:77-101 | while the master waits and the mutex is free some thread can take a step that counts |
| `CheckQueue.QueuedChecksHaveWorkers` | src/checkqueue.h:143-155 | in every run: while checks are queued and there are workers, some worker is not asleep; and right after adding two or more checks none is |
| `CheckQueue.AddWakesWorkers` | src/checkqueue.h:151-154 | adding one check wakes exactly one of the sleeping workers, adding more wakes them all, and no other thread is touched |
| `CheckQueue.ThreadStepDecreases` | src/checkqueue.h:66-124 | every step of a thread other than a spurious wake-up lowers a measure |
| `CheckQueue.WaitTerminates` | src/checkqueue.h:66-124 | the measure bounds the number of thread steps in a row, however the threads are scheduled |
| `CheckQueue.WaitReturns` | src/checkqueue.h:66-124 | a run of thread steps from within Wait that no thread step can extend ends with the master returned |
| `CheckQueue.Turn` | src/checkqueue.h:66-124 | runs the next step of a thread and yields exactly the state that the transition relation allows |
| `Coins.Cleanup` | src/coins.h:109-114 | drops spent outputs at the end |
| `CoinsCache.OrphanIsFresh` | src/coins.cpp:141-145 | an entry missing in the parent is always fresh in the child, so the assertion never fails |
| `CoinsCache.FillKeepsStack` | src/coins.cpp:65-80 | copying an entry up changes no level's meaning and keeps the meaning of the flags |
| `CoinsCache.TopWriteKeepsStack` | src/coins.cpp:91-107 | modifying the top entry keeps the meaning of the flags at every level |
| `CoinsCache.FlushMovesView` | src/coins.cpp:137-171 | after the write-back the parent represents what the child represented, also for entries dropped as fresh and pruned |
| `CoinsCache.FlushKeepsStack` | src/coins.cpp:137-171 | and the flags mean what they should again |
| `CoinsCache.DbWriteMovesView` | src/txdb.cpp:60-78 | the same for the last cache above the database, which only looks at dirty entries |
| `CoinsCache.FlushBestIff` | src/coins.cpp:137-177 | a flush keeps the best block seen through the child iff the child holds one itself, or its parent is the database, or the parent gives what the levels below it give anyway |
| `CoinsCache.FlushForgetsBest` | src/coins.cpp:165-169 | a concrete stack whose flush loses the best block |
| `CoinsCache.CoinsStack.FetchCoins` | src/coins.cpp:65-80 | reads through all levels, caches on the way, changes no level's map |
| `CoinsCache.CoinsStack.HaveCoins` | src/coins.cpp:118-125 | whether the represented map has the transaction |
| `CoinsCache.CoinsStack.ModifyCoins` | src/coins.cpp:91-107 | opens an entry for change with its current value |
| `CoinsCache.CoinsStack.ReleaseModifier` | src/coins.cpp:238-246 | closing writes exactly that entry of the top map, pruned meaning absent |
| `CoinsCache.CoinsStack.Flush` | src/coins.cpp:173-177 | the level below represents exactly what the top represented; levels further down are untouched |
| `CoinsCache.CoinsStack.Run` | src/coins.cpp:65-246 | any sequence of operations acts on every level as the same operations act on plain maps |
| `Ledger.UndoOneInverts` | src/main.cpp:1551-1575 | undoing one spend restores the map and reports clean, whether or not it was the last unspent output |
| `LedgerOutputs.UndoOneOutputs` | src/main.cpp:1551-1575 | on any map: when putting an output back is clean, and that then just this output is there again |
| `Ledger.UndoAllInverts` | src/main.cpp:1620-1631 | so does undoing all inputs of a transaction in reverse, including several from one transaction |
| `Ledger.DisconnectTxInverts` | src/main.cpp:1597-1632 | undoing a connected transaction restores the map and finds exactly its outputs |
| `LedgerOutputs.DisconnectCleanIff` | src/main.cpp:1597-1632 | on any map: clean if and only if the transaction's unspent outputs are exactly those it created and all inputs are put back cleanly |
| `Ledger.UndoRestoresIff` | src/main.cpp:1343-1368 | it does so if and only if the id was not in use with unspent outputs left |
| `LedgerBlock.BlockRestoredIff` | src/main.cpp:1577-1643 | disconnecting a block gives the exact prior map and is clean if and only if no transaction took an id with unspent outputs left after its own inputs; for distinct ids the map alone decides |
| `LedgerBlock.DisconnectInverts` | src/main.cpp:1577-1643 | so it is for distinct ids that are not in use, including spends within the block |
| `LedgerBlock.SpentStaysSpent` | src/main.cpp:1751-1794 | an output spent by a block is not available after it |
| `LedgerOutputs.ConnectTxOutputs` | src/main.cpp:1343-1368 | after a transaction: of its outputs exactly those not null and not unspendable, with its flag, height and version; nothing it spent; everything else as before |
| `LedgerOutputs.BlockOutputs` | src/main.cpp:1751-1794 | the same lifted over the transactions of a block |
| `LedgerOutputs.UnspentIff` | src/main.cpp:1683-1803 | after any chain of blocks an output is unspent if and only if some transaction created it, it can be spent, and no later one took its id or spent it; its record holds that transaction's data |
| `LedgerOutputs.NoDoubleSpend` | src/main.cpp:1763-1765 | along any chain of blocks an output spent twice was created anew in between |
| `LedgerOutputs.CoinbaseMatures` | src/main.cpp:1408-1414 | along any chain of blocks no coinbase output is spent less than 15 blocks above its coinbase |
| `LedgerBlock.ConnectedTxidsDistinct` | src/main.cpp:1723-1730 | in a block accepted under BIP 30, ids that fix their inputs are distinct: the premise of undoing follows from connecting |
| `LedgerValue.TotalPut` | src/coins.h:85-91 | how the sum of all unspent values changes with one transaction's outputs |
| `LedgerValue.ConnectTxTotal` | src/main.cpp:1343-1368 | connecting takes the value of the inputs out of the total and adds that of the outputs, but for unspendable ones and what is overwritten: an equation |
| `LedgerValue.DistinctInputsSpendable` | src/main.cpp:1343-1360 | distinct available inputs can be spent one after the other |
| `LedgerRules.SubsidyBound` | src/main.cpp:1185-1193 | closed bound for the sum of all subsidies up to a height |
| `LedgerOutputs.SubsidyIs` | src/main.cpp:1185-1193 | 2970 coins divided by two to the number of full 800,000 blocks, rounded down |
| `LedgerRules.SubsidySumBelowLimit` | src/amount.h:20 | all subsidies together stay within the money limit at any height |
| `LedgerRules.TotalPlusFees` | src/main.cpp:1400-1437 | conservation: total after some transactions plus the fees collected is the total before plus the coinbase outputs, less what is lost as unspendable or overwritten |
| `LedgerRules.BlockAddsAtMostSubsidy` | src/main.cpp:1751-1803 | a connected block raises the total by at most the subsidy of its height |
| `LedgerOutputs.BlockConnectsIff` | src/main.cpp:1683-1803 | when a block connects on a chain, told from the history of transactions alone: unspent and mature inputs, values, BIP 30, subsidy and fees |
| `LedgerOutputs.InputsOkIff` | src/main.cpp:1384-1437 | the checks on records accept exactly the inputs that the history leaves, coinbases from 15 blocks on, worth at least the outputs |
| `LedgerRules.BlockUndone` | src/main.cpp:1577-1643 | a block that connects is undone exactly if and only if it overwrote nothing, which is so for every block under BIP 30 |
| `LedgerRules.OverwrittenCoinbaseIsLost` | src/main.cpp:1716-1730 | before BIP 30 a repeated coinbase connects, and undoing it loses the older coins |
| `LedgerChain.TotalWithinSubsidies` | src/main.cpp:1751-1803 | along every chain of connected blocks the total is at most the sum of the subsidies, and that at most the money limit |
| `LedgerChain.SumsFit` | src/main.cpp:1778 | every value and fee sum formed while connecting a block fits in 64 bits, also before it is range-checked |
| `LedgerChain.CheckTransaction` | src/main.cpp:777-832 | accepts exactly the transactions with outputs and their sum in range and inputs distinct and not null |
| `LedgerView.CoinsView.CheckInputs` | src/main.cpp:1384-1437 | accepts exactly if inputs are there, mature, in range and cover the outputs, reading through the caches |
| `LedgerView.CoinsView.UpdateCoins` | src/main.cpp:1343-1368 | through cache modifiers: the top map changes as connecting the transaction says, the undo data are recorded, and no level below changes |
| `LedgerView.CoinsView.ApplyTxInUndo` | src/main.cpp:1551-1575 | puts one spent output back; the verdict is exact, also if the cache holds a stale pruned record, and if it is clean so is the map |
| `LedgerView.CoinsView.DisconnectBlock` | src/main.cpp:1577-1643 | undoes the transactions in reverse order; fails exactly if the undo data do not fit; the verdict is exact, and if it is clean so is the map |
| `LedgerView.CoinsView.ConnectBlock` | src/main.cpp:1683-1803 | succeeds exactly if the rules allow the block, with the top map and undo data of the specification and no level below changed |
| `LedgerState.ChainState.ConnectTip` | src/main.cpp:2034-2091 | extends the chain exactly if the rules allow, and otherwise changes nothing the tip's cache says |
| `LedgerState.ChainState.DisconnectTip` | src/main.cpp:1986-2027 | a tip that overwrote nothing is disconnected; an unclean undo changes nothing; the cache agrees with the remaining chain if and only if the tip overwrote nothing or was kept |
| `LedgerState.ChainState.Run` | src/main.cpp:1986-2091 | after any connections, disconnections of blocks that overwrote nothing, and flushes, the cache represents what replaying the present chain gives |
| `LedgerState.UndoableIsReversible` | src/main.cpp:1716-1730 | under BIP 30 every sequence of events disconnects only such blocks |
| `Merkle.BuildMerkleTree` | src/core.cpp:225-282 | builds all levels in one array, returns the root and the mutation flag of the specification |
| `Merkle.SameRootMutated` | src/core.cpp:225-282 | two different lists with one root have different lengths, and the longer is reported mutated |
| `Merkle.UnmutatedDetermined` | src/core.cpp:225-282 | unmutated lists are determined by their root |
| `Merkle.DistinctNotMutated` | src/core.cpp:225-282 | no false alarm: a list without repetitions is not reported |
| `Merkle.GetMerkleBranch` | src/core.cpp:284-298 | reads a branch off the flat tree |
| `Merkle.CheckMerkleBranch` | src/core.cpp:300-313 | recomputes the root from a leaf and a branch |
| `Merkle.BranchLeadsToRoot` | src/core.cpp:284-313 | the branch of a leaf leads from it to the root |
| `Merkle.OnlyTrueBranch` | src/core.cpp:300-313 | only the true leaf and the true branch lead to the root |
| `PartialMerkle.CalcHashIsLevel` | src/merkleblock.cpp:63-78 | recursive node hashes are the levels of the flat tree |
| `PartialMerkle.BuildSize` | src/merkleblock.cpp:80-96 | at least one and at most one hash per transaction, at least one bit per hash |
| `PartialMerkle.ExtractBuilt` | src/merkleblock.cpp:80-132 | extracting what was built reads exactly what was written and finds the matched transactions in order |
| `PartialMerkleNodes.BuildTells` | src/merkleblock.cpp:80-96 | the bits and hashes built are one bit for each node told of, and the hashes of those that are leaves or have no match below |
| `PartialMerkleNodes.NodesIff` | src/merkleblock.cpp:80-96 | told of are exactly the nodes that exist and whose parent has a match below it |
| `PartialMerkleNodes.NodesInOrder` | src/merkleblock.cpp:80-96 | from left to right, each before what is below it |
| `PartialMerkle.RoundTripIff` | src/merkleblock.cpp:134-181 | the true root and exactly the matched transactions come out, also with padding, iff the block is not over the size limit |
| `PartialMerkle.ExtractSound` | src/merkleblock.cpp:98-132 | for any bits and hashes: if the hash at a node is the true one, all that was extracted below it is true |
| `PartialMerkle.ExtractedAreTrue` | src/merkleblock.cpp:150-181 | extraction that yields the true root extracts only true transactions, at rising positions |
| `PartialMerkle.PackBits` | src/merkleblock.h:100-103 | bit p of the list is bit p mod 8 of byte p div 8, the rest is zero |
| `PartialMerkle.UnpackBits` | src/merkleblock.h:93-98 | and back |
| `PartialMerkle.SendAndReceive` | src/merkleblock.h:88-105 | sender and receiver with the bits packed into bytes in between: true root, exactly the matches |
| `PartialMerkle.PartialMerkleTree.TraverseAndBuild` | src/merkleblock.cpp:80-96 | appends exactly the specified bits and hashes |
| `PartialMerkle.PartialMerkleTree.TraverseAndExtract` | src/merkleblock.cpp:98-132 | advances the cursors and collects exactly as specified, setting the error flag iff something is wrong |
| `PartialMerkle.PartialMerkleTree.ExtractMatches` | src/merkleblock.cpp:150-181 | null unless every check holds |
| `AddrTables.SwapKeepsRandom` | src/addrman.cpp:101-119 | swapping two addresses in the random order keeps positions and order inverse to each other |
| `AddrTables.DropSlotKeepsInv` | src/addrman.cpp:135-148 | emptying a slot keeps reference counts exact |
| `AddrTables.TryKeepsInv` | src/addrman.cpp:193-195 | entering the tried table keeps tables and counters consistent |
| `AddrTables.TableBounds` | src/addrman.h:131-147 | 256 and 1024 buckets of 64 slots; a tried address has one slot, any other one to eight |
| `AddrMan.AddrManager.SwapRandom` | src/addrman.cpp:101-119 | two places exchanged, nothing else changed |
| `AddrMan.AddrManager.Delete` | src/addrman.cpp:121-133 | one address disappears from all indexes |
| `AddrMan.AddrManager.ClearNew` | src/addrman.cpp:135-148 | only the occupant is affected: it loses a reference and is forgotten with its last |
| `AddrMan.AddrManager.MakeTried` | src/addrman.cpp:150-196 | the address is in its tried slot and in no new slot; whatever was there moves to the new slot of its own source; no other slot changes; all assertions hold |
| `AddrMan.AddrManager.Evict` | src/addrman.cpp:169-190 | the evicted address ends up in the new slot of its own source with one reference |
| `AddrMan.AddrManager.FindBucket` | src/addrman.cpp:224-239 | the search finds a bucket whatever was drawn |
| `AddrMan.AddrManager.Good` | src/addrman.cpp:198-245 | a known exact service is in its tried slot afterwards, with its times set, its attempts cleared and its new slots emptied; at most one address is moved back, of the others only counts, tables and places change; unknown services change nothing |
| `AddrMan.AddrManager.Refresh` | src/addrman.cpp:256-283 | the refreshed time and services, and exactly when a further reference is due |
| `AddrMan.RefreshedTimeGrows` | src/addrman.cpp:257-261 | an announcement never turns the time of an address back, nor past the announced time |
| `AddrMan.RefreshedTimeIs` | src/addrman.cpp:257-261 | when and to what the time changes, in seconds |
| `AddrMan.ReferenceDueIff` | src/addrman.cpp:266-283 | a further reference is due on later news about an untried address with at most 7 references, with odds of one in two to their number |
| `AddrMan.TerribleIff` | src/addrman.cpp:34-54 | terrible is exactly what is not worth keeping: neither tried in the last minute, nor both seen within 30 days and not given up after 3 or 10 attempts |
| `AddrMan.AddrManager.Insert` | src/addrman.cpp:291-311 | takes the slot of the source exactly if it is free, or its occupant not worth keeping by its fields, or listed elsewhere while the newcomer is not; a newcomer without any slot is dropped |
| `AddrMan.AddrManager.Add` | src/addrman.cpp:247-313 | true exactly for a routable unknown address, which becomes known, with its data and less the penalty, exactly if its slot yields; a known one is refreshed and gets another slot exactly if one is due and yields; the tried table is never touched |
| `AddrMan.AddrManager.Attempt` | src/addrman.cpp:315-332 | counts an attempt on the exact service only |
| `AddrMan.AddrManager.Connected` | src/addrman.cpp:472-490 | the time is set exactly if it is more than 20 minutes old, and never goes back |
| `AddrMan.AddrManager.GetAddr` | src/addrman.cpp:451-470 | known addresses only, all worth keeping by their fields, no network address twice, at most 23 per cent and 2500; every address worth keeping if there are fewer |
| `AddrMan.PickedOffers` | src/addrman.cpp:451-470 | why the drawn prefix has these properties |
| `AddrMan.AddrManager.Check` | src/addrman.cpp:374-448 | the consistency check passes between operations |
| `AddrMan.AddrManager.Run` | src/addrman.cpp:89-490 | every run of all operations keeps everything consistent, for all hashes, clocks and draws |
| `AddrCheck.Check` | src/addrman.cpp:374-448 | the executable check returns 0 if and only if the tables are consistent |
| `AddrCheck.CheckTried` | src/addrman.cpp:413-425 | the scan of the tried table with its shrinking set decides exactly whether every tried address is in its own slot only |
| `AddrCheck.CheckNew` | src/addrman.cpp:427-442 | the scan of the new table with its countdown decides exactly whether positions and reference counts are right |
| `AddrCheck.InvPasses` | src/addrman.cpp:374-448 | the invariant implies the check |
| `AddrCheck.PassingIsInv` | src/addrman.cpp:374-448 | conversely the check, with two facts it does not look at, implies the invariant |
| `AddrFile.RoundTrip` | src/addrman.h:278-424 | loading what was saved from consistent tables gives the same up to renumbering, and consistent tables again |
| `AddrFile.Serialize` | src/addrman.h:279-326 | writes the specified file; both counters are found right |
| `AddrFile.Unserialize` | src/addrman.h:329-424 | refuses a wrong key size or a truncated stream; of any other file every entry is in a table; nothing is pruned from a file that needs no pruning |
| `AddrFile.SaveAndLoad` | src/addrman.h:278-424 | both in sequence lose nothing but the times of the last tries |
| `AddrFile.ListsOfTables` | src/addrman.h:291-311 | the two assertions on the counters hold |
| `SkipList.InvertLowestOne` | src/chain.cpp:60-61 | strictly smaller, so skipping makes progress |
| `SkipList.InvertIsAnd` | src/chain.cpp:60-61 | the arithmetic definition is the bitwise and of n and n - 1, for every n |
| `SkipList.SkipHeightIs` | src/chain.cpp:64-73 | the height skipped to, in bits |
| `SkipList.GetAncestor` | src/chain.cpp:75-96 | equals walking parents one at a time |
| `SkipList.BlockIndex.Add` | src/chain.cpp:103-107 | every new block gets the skip pointer that the fast walk relies on |
| `SkipList.Chain.SetTip` | src/chain.cpp:12-22 | despite the early stop every height holds the tip's ancestor |
| `SkipList.FindFork` | src/chain.cpp:52-58 | the highest block shared with the chain, if any |
| `SkipList.LastCommonAncestor` | src/main.cpp:353-368 | the highest common ancestor, if any |
| `SkipList.GetLocator` | src/chain.cpp:24-50 | ancestors at the heights 1 to 9 back, and then 9 + 2^k back for each k, down to genesis |
| `SkipList.FindForkInGlobalIndex` | src/main.cpp:488-501 | the first known entry in the chain, or genesis |
| `SkipList.LocatorFork` | src/main.cpp:488-501 | a locator finds a common block at most as far below the fork as its start is above it |
| `Arith.AddAssign` | src/arith_uint256.h:135-145 | addition modulo 2^(32 * width), also onto itself |
| `Arith.Negated` | src/arith_uint256.h:77-84 | the additive inverse |
| `Arith.SubAssign` | src/arith_uint256.h:147-151 | subtraction modulo 2^(32 * width) |
| `Arith.Increment` | src/arith_uint256.h:173-180 | plus one |
| `Arith.Decrement` | src/arith_uint256.h:190-197 | minus one |
| `Arith.ProductFits` | src/arith_uint256.cpp:55-81 | no intermediate exceeds 64 bits |
| `Arith.MulSmall` | src/arith_uint256.cpp:56-65 | multiplication by one limb |
| `Arith.MulAssign` | src/arith_uint256.cpp:68-81 | multiplication modulo 2^(32 * width) by another number; zero if both operands are one object |
| `ArithShift.OrDisjoint` | src/arith_uint256.cpp:21-53 | bits that do not overlap are added by bitwise or |
| `ArithShift.ShiftLeft` | src/arith_uint256.cpp:22-36 | multiplication by a power of two modulo 2^(32 * width), for any shift |
| `ArithShift.ShiftRight` | src/arith_uint256.cpp:39-53 | the floor of division by a power of two, for any shift |
| `ArithShift.CompareTo` | src/arith_uint256.cpp:110-119 | compares the values |
| `ArithShift.Bits` | src/arith_uint256.cpp:172-185 | the bit length of the value |
| `ArithShift.DivAssign` | src/arith_uint256.cpp:84-107 | the floor quotient; refused exactly for a zero divisor |
| `Compact.SetCompact` | src/arith_uint256.cpp:204-222 | the encoded value modulo 2^256; overflow is flagged iff it is at least 2^256 |
| `Compact.OverflowIff` | src/arith_uint256.cpp:217-220 | why the test on size and mantissa is exact |
| `Compact.GetCompact` | src/arith_uint256.cpp:224-245 | the compact form for the true byte length; both assertions hold |
| `Compact.DecodeOfEncode` | src/arith_uint256.cpp:204-245 | decoding an encoded value cuts off its low bytes and nothing else, and sets no sign |
| `Compact.EncodeOfDecode` | src/arith_uint256.cpp:204-245 | encoding once more gives the same word |
| `Compact.RoundTrip` | src/arith_uint256.cpp:204-245 | the same on the limbs: no flag, same word |
| `Base58.EncodeFits` | src/base58.cpp:75-76 | the buffer of the encoder holds every number of that many bytes |
| `Base58.DecodeFits` | src/base58.cpp:32-33 | the buffer of the decoder holds every number of that many characters |
| `Base58.CharIsInAlphabet` | src/base58.cpp:19 | the digits are written as the documented alphabet |
| `Base58.MulAdd` | src/base58.cpp:40-46 | the carry loop multiplies and adds |
| `Base58.Absorb` | src/base58.cpp:78-88 | one more digit; the carry is always zero at the end |
| `Base58.EncodeBase58` | src/base58.cpp:67-100 | the specified string, leading zeros as ones |
| `Base58.DecodeBase58` | src/base58.cpp:21-64 | decodes exactly the words of the alphabet between spaces |
| `Base58.DecodeOfEncode` | src/base58.cpp:21-100 | every byte string comes back |
| `Base58.EncodeOfDecode` | src/base58.cpp:21-100 | every string that decodes is, without its spaces, the encoding of the result |
| `Base58.AnyWordDecodes` | src/base58.cpp:21-100 | every word of the alphabet decodes and comes back |
| `Base58.EncodeBase58Check` | src/base58.cpp:112-119 | encodes the bytes followed by their checksum |
| `Base58.DecodeBase58Check` | src/base58.cpp:121-136 | accepts exactly encodings of data with their checksum |
| `Compressor.VarIntIff` | src/serialize.h:335-364 | an integer is read back, and nothing behind it touched, iff it is not negative |
| `Compressor.VarIntMeans` | src/serialize.h:300-306 | the bytes written have the documented form and stand for the number by the documented sum |
| `Compressor.VarIntUnique` | src/serialize.h:308-313 | no other bytes of that form do |
| `Compressor.WriteVarInt` | src/serialize.h:335-350 | the buffer filled backwards is the specified sequence |
| `Compressor.DecompressOfCompress` | src/compressor.cpp:142-184 | amounts come back |
| `Compressor.CompressOfDecompress` | src/compressor.cpp:142-184 | and every number is the compressed form of an amount: a bijection |
| `Compressor.CompressIs` | src/compressor.cpp:133-159 | the compressed form in numbers, with and without nine zeros |
| `Compressor.CompressFits` | src/compressor.cpp:142-159 | no overflow of 64 bits far beyond the money limit |
| `Compressor.CompressAmount` | src/compressor.cpp:142-159 | computes the compressed form |
| `Compressor.DecompressAmount` | src/compressor.cpp:161-184 | computes the amount |
| `Compressor.DecompressOfCompressScript` | src/compressor.cpp:48-133 | recognised scripts are rebuilt byte by byte |
| `Compressor.ScriptRead` | src/compressor.h:62-87 | every script is read back |
| `Compressor.StoredForms` | src/compressor.h:19-62 | the bytes of each kind of script; one that is not recognised follows its length plus 6 |
| `CoinsCodec.CalcMaskSize` | src/coins.cpp:14-30 | one past the last non-zero byte of the mask, and the number of non-zero bytes |
| `CoinsCodec.MaskBit` | src/coins.h:20-25 | bit k of mask byte b stands for output 2 + 8 b + k |
| `CoinsCodec.FirstExample` | src/coins.h:35-47 | the first documented example, for any hash |
| `CoinsCodec.SecondExample` | src/coins.h:50-67 | the second documented example, for any hashes |
| `CoinsCodec.MaskRead` | src/coins.h:214-225 | counting non-zero bytes stops exactly at the end of the mask |
| `CoinsCodec.FirstOrMask` | src/coins.h:175-180 | the assertion holds for coins that are not pruned, and the mask covers all outputs |
| `CoinsCodec.Serialize` | src/coins.h:174-201 | writes the specified bytes |
| `CoinsCodec.Unserialize` | src/coins.h:203-235 | reads as specified |
| `CoinsCodec.RoundTripIff` | src/coins.h:174-235 | reading inverts writing iff version and height are not negative |
| `CoinsCodec.NegativeVersionIsLost` | src/coins.h:183 | version -1 comes back as 127 |

## Left out

- Networking, message handling, disk files, LevelDB, wallet, RPC, user interface, logging: I/O around the modelled parts.
- Script, signature and key evaluation: verdicts are parameters; that a valid key comes back from its compressed form is assumed (`Compressor.KeysOk`).
- Chain selection: block failures that may be due to corruption, system errors, pruned nodes (the missing-data branch), `ReconsiderBlock`, the memory pool, and warnings about forks. Validity of a block is fixed. Pointers are numbers, which also break ties. Wrap-around of the 32-bit sequence and transaction counters is not modelled.
- ChainSelection.Node.InvalidateBlock: for a block other than genesis and a chain that is not empty, because the code dereferences the tip and has no chain to fall back to otherwise.
- Coins caches: one modifier at a time and only on the top cache, as the code asserts. Levels are a sequence of values rather than linked objects, and the entries left in a flushed cache are none.
- Ledger: signature operation counts, sizes, lock times and scripts are the parameter `otherwiseOk`; that an id fixes the inputs of its transaction is assumed where `LedgerRules.Undoable` appears. Undo data are kept in memory, and best-block fields are not set while connecting.
- LedgerView.CoinsView.ApplyTxInUndo: after an unclean undo the map is left open, because a pruned record in the cache may still carry older metadata; such a cache is dropped.
- LedgerState.ChainState.Run: for events that disconnect no block that overwrote unspent outputs, since the cache no longer agrees with the chain after that (see `DisconnectTip`).
- ChainLedger.RunOnWorld: ids stand for blocks with fixed parents and contents, as hashes do, and headers are announced with their true parent.
- ChainSelection.Node.ActivateRound: the loop test after the lock is released may see a tip that another thread has moved to this thread's old target; that thread then carries on alone.
- LedgerOutputs.SubsidyIs: the parameters of the main network; test networks halve more often.
- LedgerRules.SubsidyBound: heights are not bounded; the shift in the code is only defined below 64 halvings, where it is the repeated halving of the model.
- CheckQueue: the destructor and shutting down (`fQuit`) are not modelled; checks are their verdicts. Fairness is not assumed: termination is in the number of steps taken.
- Merkle: 256-bit hashes are terms, so collisions do not exist; this is the assumption of an injective hash whose values are never transaction ids. 32-bit wrap-around in the width of a partial tree is not modelled; the size limit excludes it on the receiving side.
- The address manager's slot arrays are maps in which an empty slot is absent. `Select_`, chances and probabilities are left out. Counters are unbounded.
- AddrMan.AddrManager.Good: tables stay consistent for any time, but the time stamps that the check looks at need a positive one.
- AddrFile.Unserialize: for a file that needs pruning nothing is said of the address index and the counters afterwards, and negative counts are refused, where the code reads no entries; it works on a fresh manager's tables as values; loading over a non-empty manager is not modelled. A file is a record of its fields, not bytes, and a short stream reads as a refusal.
- AddrCheck.Check: the lookup of a missing address in the check creates a zero entry as a side effect, which is modelled by its value only.
- The conversion of 256-bit integers to hexadecimal, floating point and the proof-of-work arithmetic of pow.cpp.
- Base58.DecodeBase58: the string is what precedes the first NUL; white space is that of the C locale.
- CoinsCodec.Serialize: amounts are at least zero, as an output that is not spent has; output values above 2^64 / 9 would wrap in the code.
- Fee rates, checkpoints, alerts, Bloom filters, limited maps and the orphan pool: easy, or probabilistic.
