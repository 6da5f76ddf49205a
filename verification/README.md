# A verified model of the Primecoin node core

This project models the core of the node in Dafny and proves what the code relies on: that blocks can be
undone, that no reorganisation corrupts the coin state, that money is conserved, that the address tables stay
consistent under every operation and survive being saved, that the parallel script checks come to the right
result and an end, and that the proofs, codecs and small data structures around them do what they promise.

Code that works step by step is modelled by classes and methods with loops; every such method is proved against
a function of values or a property of the state, and the theorems are about those. `nat` and `int` are unbounded;
where the source's width matters (amount compression, variable-length integers, pointers of the sorter, hashes of
the table) it is written out.

| file | what it models |
|---|---|
| Common | small shared functions |
| Coins, Utxo | coin records and undo records; connecting and disconnecting blocks as functions on the set of unspent outputs |
| Storage | what writing coin records and undo records to disk and reading them back does to them, and why no block minds |
| CoinsViews, BlockConnect | the stacked coin caches; ConnectBlock, DisconnectBlock and what they call, on those caches |
| BlockTree, ChainState, BestChain | the tree of blocks, SetBestChain, FindBlockByHeight, ConnectBestBlock, AddToBlockIndex |
| AddrTables, AddrMan, AddrSave | the address manager's tables and their invariant; its operations; saving and loading it |
| CheckQueue | the queue of script checks as one object, and the system of one master and any number of workers |
| Merkle, PartialMerkle | the Merkle tree of a block, branches, partial Merkle trees (BIP 37, "Partial Merkle branch format") |
| VarInt, CoinsCodec | variable-length integers, compressed amounts, coin records and undo records as bytes |
| MemPool, BlockTemplate, NewBlock | the memory pool's two indexes; the selection of transactions for a new block; the block as a whole and its trial connection |
| NetMessages, Base58 | framing of network messages; base58 text |
| HashTable, FastSorter | the pool server's open-addressing table and its tree sorter |

Coin records go to the coin database and undo records to the undo file as the serializers write them, and of a
negative transaction version those give back only seven bits. The coin state of a chain is therefore kept up to
the versions of records that were stored (`Storage.Kept`), which no check reads, and exactly on a chain without
negative versions.

`Valid()` of a class is the invariant every method needs and keeps. In a contract, a ghost parameter or result
names a value that exists for the proof only.

## Model

| member | source | states |
|---|---|---|
| Coins.SpendPutBack | src/main.h:1048-1062 | Spending an available output and putting the undo record's output back gives the old outputs, also when the record became empty; the undo record carries height, coinbase flag and version exactly when nothing is left. |
| Coins.SpendValue | src/main.h:1048-1062 | Spending takes exactly the value of the output out of the record. |
| Coins.Cleanup | src/main.h:911-916 | What remains is the shortest prefix that ends in an unspent output, all that was cut off being spent. |
| Utxo.SpendUndo | src/main.cpp:1465-1489 | For every list of inputs, restoring them from last to first with the undo records that spending them produced gives the old set, also when two inputs spend outputs of one transaction. |
| Utxo.SpendSucceeds | src/main.cpp:1282-1296 | If all inputs are available and distinct, spending them one after the other never fails, so the assertion in UpdateCoins holds; every other output stays as it is. |
| Utxo.ConnectTxsUndo | src/main.cpp:1598-1643 | After any number of transactions of a checked block: the records are canonical, the rest of the block's ids are absent, there is one undo record per transaction but the first, and disconnecting gives the set before the block back. |
| Utxo.DisconnectInvertsConnect | src/main.cpp:1417-1502 | For every valid set, block and height at which ConnectBlock succeeds, DisconnectBlock with the undo data that ConnectBlock returned, none of it stored in between, is clean and restores the set exactly. |
| Storage.RestoredExactly | src/main.cpp:1417-1502 | With the undo data as the undo file gives them back, DisconnectBlock is clean for every block that connected, because versions below zero are repaired, and restores the set up to versions: exactly if and only if no record that the block emptied has a negative version. |
| Storage.VersionLost | src/main.cpp:1471-1477 | A block that connects and is disconnected again, after which a record of version -1 has version 127. |
| Storage.DisconnectStored | src/main.cpp:1449-1455 | The same from a set of which any records were stored before: the versions of those and of the emptied ones are lost, no others, and every transaction of the block is found to match its record. |
| Storage.ConnectReread | src/main.cpp:1536-1659 | ConnectBlock decides alike, with equal totals, signature operations, script verdict and stored undo data, whatever records were stored before. |
| Utxo.SpendInputsTotal | src/main.cpp:1255-1265 | Spending the inputs lowers the value of all unspent outputs by exactly GetValueIn. |
| Utxo.ConnectTxsTotal | src/main.cpp:1598-1648 | After any number of transactions the total value has moved by nValueOut - nValueIn, which is the coinbase value minus the fees. |
| Utxo.ConnectConserves | src/main.cpp:1607-1659 | One block moves the total value by nValueOut - nValueIn, what is added to nMoneySupply, and raises it by at most the subsidy. |
| CoinsViews.MergeEntries | src/main.cpp:251-256 | Merging entries lets them win over what was there; in the database spent records are erased instead of stored and negative versions become what the serializer makes of them, which shows the same unspent records up to versions. |
| CoinsViews.WrittenExactly | src/main.cpp:251-256 | Writing entries to the database shows the same unspent records if and only if no unspent entry has a negative version. |
| CoinsViews.CoinsView.GetCoins | src/main.cpp:201-223 | Reading through any stack of caches finds what the stack shows as one map and changes nothing that is shown, here or below. |
| CoinsViews.CoinsView.HaveCoins | src/main.cpp:236-238 | True exactly for the ids the stack shows, fully spent records included. |
| CoinsViews.CoinsView.SetCoins | src/main.cpp:231-234 | Changes one entry of what this cache shows and nothing below it. |
| CoinsViews.CoinsView.GetBestBlock | src/main.cpp:240-244 | Gives the best block the stack shows, and remembers it, which shows nothing new. |
| CoinsViews.CoinsView.SetBestBlock | src/main.cpp:246-249 | Sets this cache's best block; coins and everything below stay. |
| CoinsViews.CoinsView.BatchWrite | src/main.cpp:251-256 | The unspent part becomes that of the old contents overridden by the entries, as the database stores them if this is the database; a cache takes over the best block, the database only one that is not null. |
| CoinsViews.CoinsView.Flush | src/main.cpp:258-263 | Afterwards the view below shows the unspent records this one showed, up to the versions of those written to the database and exactly if it is a cache, and this one shows the same; says which best block either shows, including a cache that never asked for one. |
| BlockConnect.HaveInputs | src/main.cpp:1298-1317 | Through the caches: true exactly if every input of a transaction other than a coinbase is unspent in the set. |
| BlockConnect.GetValueIn | src/main.cpp:1255-1265 | The sum of the values of the spent outputs, 0 for a coinbase. |
| BlockConnect.GetP2SHSigOpCount | src/main.cpp:1267-1280 | The sum over the spent outputs, 0 for a coinbase. |
| BlockConnect.CheckInputs | src/main.cpp:1331-1412 | Succeeds exactly if inputs are available, coinbases mature, values and their total in range and the fee at least the minimum; the script checks it queues come to the verdict of all the inputs' scripts, and to true below the last checkpoint. |
| BlockConnect.UpdateCoins | src/main.cpp:1282-1296 | Moves the set as spending the inputs in order and adding the outputs does, and returns their undo records. |
| BlockConnect.FindsNoOverwrite | src/main.cpp:1570-1576 | True exactly if no id of the block has an unspent output (BIP 30). |
| BlockConnect.ConnectTransactions | src/main.cpp:1590-1643 | The loop refines the function: same rejection, coins, undo data, totals and script verdict for every block. |
| BlockConnect.ConnectBlock | src/main.cpp:1536-1704 | Succeeds exactly if the block connects to the set the cache shows; then the cache shows the new set, the undo file holds the undo data as it will give them back, and nMoneySupply is recorded as the code does; the view below is untouched, a mere check records nothing, and the genesis block adds no coins. |
| BlockConnect.RestoreInput | src/main.cpp:1466-1488 | Clean exactly if the undo record fits, and then the output is back in the set. |
| BlockConnect.DisconnectBlock | src/main.cpp:1417-1502 | True exactly if there are undo data in the file that fit and undoing with them is clean; then the cache shows what undoing with them gives and its predecessor as best block. |
| BlockTree.UtxoAtValid | src/main.cpp:1536-1704 | The coin state that belongs to any chain of connectable blocks is canonical. |
| BlockTree.DisconnectTip | src/main.cpp:1743-1751 | From the tip's coin state, whichever of its records were stored, disconnecting with the undo file's data is clean and gives the predecessor's coin state up to versions. |
| BlockTree.ConnectTip | src/main.cpp:1769-1779 | From the predecessor's coin state, whichever of its records were stored, the block connects exactly if its chain does, and gives its coin state up to versions, its totals and the contents of its undo file exactly. |
| BlockTree.HoldsExactly | src/main.cpp:1743-1783 | On a chain without negative versions nothing is lost: the coin state is exactly that of the chain. |
| BlockTree.SupplyBound | src/main.cpp:1074-1080 | However long the chain, its unspent outputs hold no more than the sum of the subsidies of its blocks. |
| BlockTree.UtxoAtAncestor | src/main.cpp:1763-1783 | A block can be connected only if all its ancestors can. |
| ChainState.ChainState.IsInMainChain | src/main.h:1782-1785 | "pnext is set or it is the best block" holds exactly for the best block and its ancestors. |
| ChainState.ChainState.FindBlockByHeight | src/main.cpp:1039-1055 | From whichever of the genesis block, the best block and the cursor is nearest, finds the only main-chain block of that height, and leaves a cursor that is right again. |
| ChainState.ChainState.FindFork | src/main.cpp:1712-1725 | The block found is a common ancestor and every common ancestor is below it. |
| ChainState.ChainState.DisconnectBranch | src/main.cpp:1743-1761 | Takes the cache from the state of the old tip to that of the fork, up to versions lost by the undo file; cannot fail if the blocks can be read. |
| ChainState.ChainState.ConnectBranch | src/main.cpp:1763-1783 | Takes the cache from the state of the fork to that of the new tip, up to versions lost before, or fails, and then names a block at or below the new tip that cannot be connected; every record of undo data and money supply stays right, also after a failure. |
| ChainState.ChainState.Relink | src/main.cpp:1812-1820 | After the two loops over pnext it is set exactly on the proper ancestors of the new tip and leads along its chain. |
| ChainState.ChainState.SetBestChain | src/main.cpp:1706-1848 | Succeeds exactly if the chain of the new tip connects (and can be read). Then links, coin state, records and cursor belong to the new tip: its coins are what connecting its ancestors from the genesis block on gives, up to versions lost by storage. A failure leaves coin state, tip and links as they were. |
| ChainState.ChainState.CoinsExact | src/main.cpp:1706-1848 | Whenever the invariant holds and no transaction of the main chain has a negative version, the coin state is exactly what connecting the main chain gives, through any reorganisations. |
| ChainState.ChainState.MoneySupply | src/main.cpp:1645-1652 | Whenever the invariant holds, nMoneySupply of the best block is the value of all unspent outputs. |
| ChainState.ChainState.NewBlockIndex | src/main.cpp:1895-1923 | Known blocks and blocks without a known predecessor are refused; any other is entered into the tree and the whole state stays valid. |
| ChainState.ChainState.MainChainUnique | src/main.cpp:1039-1055 | The main chain has at most one block of each height. |
| BestChain.Last | src/main.cpp:1186-1189 | The last block in the order of CBlockIndexWorkComparator: none of the set is greater. |
| BestChain.BestChain.InvalidBlockFound | src/main.cpp:1170-1179 | Marks the block and drops it from the candidates; such a block is never on the main chain, so the nested ConnectBestBlock is never called. |
| BestChain.BestChain.MarkDescendants | src/main.cpp:1199-1209 | Every block it marks cannot be connected, and the candidates become strictly fewer. |
| BestChain.BestChain.CheckAncestry | src/main.cpp:1194-1228 | Finds a marked block at or below the candidate, or else there is none in its whole ancestry although the walk ends at the main chain; the blocks to switch to all have more work than the best block. |
| BestChain.BestChain.ConnectBestBlock | src/main.cpp:1181-1231 | Terminates; on success the best block has the most work of all known blocks that can be connected; it is only ever left for one with more work; marks are never wrong (the clock being fixed) and never taken back; a failure other than of the disk (or of the lock limit, which sets no mark) marks a block that was not marked. |
| BestChain.BestChain.AddToBlockIndex | src/main.cpp:1895-1949 | The same after any new block: the invariant holds again and, on success, the node is on a valid chain with the most work. |
| AddrTables.SizeBound | src/addrman.h:382-396 | At most 256*64 addresses are new and at most 64*64 tried. |
| AddrTables.EvictKeeps | src/addrman.cpp:150-202 | Dropping an id from a new bucket, with its entry if that was the last reference, keeps all tables consistent. |
| AddrTables.InsertKeeps | src/addrman.cpp:359-367 | Completing an announced reference in a bucket with room keeps all tables consistent. |
| AddrTables.CreateKeeps | src/addrman.cpp:94-104 | A new entry with its first reference announced keeps all tables consistent. |
| AddrTables.PromoteKeeps | src/addrman.cpp:208-229 | Moving an entry from all its new buckets to a tried bucket with room keeps all tables consistent. |
| AddrTables.ReplaceKeeps | src/addrman.cpp:231-260 | So does exchanging it with an entry of a full tried bucket that goes back to a new bucket with room. |
| AddrMan.AddrMan.constructor | src/addrman.h:382-390 | An empty manager is consistent. |
| AddrMan.AddrMan.Size | src/addrman.h:392-396 | The length of vRandom is the number of entries, never above 64*64 + 256*64. |
| AddrMan.AddrMan.Find | src/addrman.cpp:81-92 | Finds the entry with this network address exactly if there is one, whatever its port. |
| AddrMan.AddrMan.SwapRandom | src/addrman.cpp:106-124 | Exchanges two places of vRandom and keeps every entry's position right. |
| AddrMan.AddrMan.ShrinkNew | src/addrman.cpp:150-202 | Exactly one id leaves the bucket: the first terrible one if there is any, else one with the least time of at most four drawn from it; everything stays consistent. |
| AddrMan.AddrMan.OldestOfFour | src/addrman.cpp:177-196 | The id kept is one of the at most four drawn and none of those has a smaller time. |
| AddrMan.AddrMan.SelectTried | src/addrman.cpp:126-148 | Shuffles the bucket by the draws, changes no other, and returns a position in it; for every bucket and all draws, the entry there is the oldest inspected one if and only if the round that found that one drew its own place. |
| AddrMan.SelectedIsOldest | src/addrman.cpp:126-148 | After the whole shuffle the place that a round drew holds the entry inspected in that round if and only if it drew its own place. |
| AddrMan.YoungerSelected | src/addrman.cpp:141-145 | Two entries, the second one older and drawn first: the position returned is that of the younger one, which is sent back instead. |
| AddrMan.AddrMan.MakeTried | src/addrman.cpp:204-260 | The entry is tried, at most one tried entry has become new again, none is lost, and everything is consistent, including "there is certainly place there". |
| AddrMan.AddrMan.FindNewBucket | src/addrman.cpp:289-305 | From any random start the search finds a bucket that holds the entry: "something bad happened" never happens. |
| AddrMan.AddrMan.Good | src/addrman.cpp:262-311 | An address that answered is tried with its times set; entries and addresses stay the same; an unknown service changes nothing. |
| AddrMan.AddrMan.Attempt | src/addrman.cpp:371-388 | Counts one more attempt on exactly the entry with this address and port. |
| AddrMan.AddrMan.Connected | src/addrman.cpp:510-528 | Updates the time of exactly that entry, if it is more than twenty minutes old. |
| AddrMan.AddrMan.Create | src/addrman.cpp:94-104 | A fresh id gets the entry; no other changes. |
| AddrMan.AddrMan.Refresh | src/addrman.cpp:322-350 | Time and services are updated as the intervals say; only an entry that is new with fewer than four references goes on. |
| AddrMan.AddrMan.Add | src/addrman.cpp:313-369 | New exactly if routable and unknown; afterwards the address is known with what was heard of it; at most one other entry loses one reference; everything stays consistent. |
| AddrMan.AddrMan.GetAddr | src/addrman.cpp:494-508 | 23 per cent of the entries, at most 2500, each the address of a different entry. |
| AddrMan.AddrMan.Check | src/addrman.cpp:435-491 | The self-test passes exactly if vRandom, counts, flags, positions and both kinds of buckets agree. |
| AddrMan.AddrMan.ValidIsSound | src/addrman.cpp:435-491 | The invariant that every operation keeps implies everything the self-test looks at. |
| AddrSave.Save | src/addrman.h:270-317 | What is written is the header, new entries numbered in order, tried entries, and per new bucket the numbers of its entries. |
| AddrSave.IsomorphicConsistent | src/addrman.h:262-268 | Tables that agree with consistent ones up to renumbering of ids are consistent. |
| AddrSave.LoadTried | src/addrman.h:341-360 | From what was saved no tried entry is lost, because no bucket can be too full. |
| AddrSave.LoadBuckets | src/addrman.h:361-377 | Reading the buckets rebuilds every bucket and every reference count. |
| AddrSave.Load | src/addrman.h:318-378 | Reading what was saved succeeds, loses nothing and gives a consistent manager isomorphic to the saved one. |
| AddrSave.SaveAndLoad | src/addrman.h:270-378 | Saving any consistent manager and loading into any other: same key, addresses, membership in new and tried buckets and reference counts, up to renumbering. |
| CheckQueue.CCheckQueue.Enter | src/checkqueue.h:72-114 | The first locked region of a round: settles the last batch, wakes the master exactly when the last check is done, and decides what the thread does next. |
| CheckQueue.CCheckQueue.Resume | src/checkqueue.h:85-98 | The region after a wait. |
| CheckQueue.CCheckQueue.Add | src/checkqueue.h:139-150 | Appends the checks, counts them, and wakes one worker or all. |
| CheckQueue.BatchSize | src/checkqueue.h:99-104 | A batch has at least one and at most nBatchSize checks, never more than there are. |
| CheckQueue.Execute | src/checkqueue.h:115-119 | A batch fails exactly if it had failed before or one of its checks fails. |
| CheckQueue.StepKeeps | src/checkqueue.h:64-121 | Every step of every thread, spurious wake-ups included, keeps the invariant. |
| CheckQueue.RunKeeps | src/checkqueue.h:64-121 | Hence every state of every interleaving of one master and any number of workers. |
| CheckQueue.CountersExact | src/checkqueue.h:74-97 | nTodo is the queue's length plus the checks in flight; nTotal - nIdle is the number of threads at work. |
| CheckQueue.ControlFindsQueueUnused | src/checkqueue.h:167-176 | Whenever a control is constructed its three assertions hold. |
| CheckQueue.WaitIsConjunction | src/checkqueue.h:134-136 | Wait returns true exactly if all checks added since the control was constructed hold, and then nothing is left. |
| CheckQueue.MasterIsWoken | src/checkqueue.h:74-79 | A sleeping master always has a running worker, and the worker that finishes the last checks wakes it. |
| CheckQueue.ProperStepsDecrease | src/checkqueue.h:64-121 | Every step but a spurious wake-up lowers a rank. |
| CheckQueue.WaitNeverStuck | src/checkqueue.h:64-121 | While the master waits some thread can take such a step. |
| CheckQueue.WaitEnds | src/checkqueue.h:178-185 | So at most as many steps as the rank says end the wait. |
| Merkle.WidthHalves | src/main.h:1216-1218 | Rounding the width of a level up from the number of leaves is the same as halving level by level. |
| Merkle.BuildMerkleTree | src/main.h:1402-1419 | The flat array holds, at the offset of each level, the recursively defined hash of every node, for every number of transactions; the result is the root. |
| Merkle.GetMerkleBranch | src/main.h:1427-1441 | One hash per level: the sibling's, or the node's own at an odd end. |
| Merkle.CheckMerkleBranch | src/main.h:1443-1456 | Folds the branch over the hash on the side the index says; 0 for index -1. |
| Merkle.BranchProves | src/main.h:1427-1456 | For every transaction and every place, the branch folds to the root. |
| Merkle.ProofIsTrue | src/main.h:1443-1456 | With an injective pair hash whatever folds to the true hash at a place is the hash at that place. |
| Merkle.ProveMembership | src/main.h:1402-1456 | Building, taking a branch and checking it accepts exactly the id that is at the place. |
| PartialMerkle.PartialMerkleTree.FromBlock | src/main.cpp:2437-2449 | The tree of a block and a selection has the bits and hashes of the encoding, from the least height with one node. |
| PartialMerkle.PartialMerkleTree.ParentOfMatch | src/main.cpp:2390-2394 | True exactly if a selected transaction is below the node. |
| PartialMerkle.PartialMerkleTree.TraverseAndBuild | src/main.cpp:2389-2405 | Appends exactly the encoding of the node. |
| PartialMerkle.PartialMerkleTree.TraverseAndExtract | src/main.cpp:2407-2435 | Decodes as the specification function does, also on malformed data. |
| PartialMerkle.PartialMerkleTree.ExtractMatches | src/main.cpp:2453-2484 | Gives root and matches exactly when every test passes, 0 otherwise. |
| PartialMerkle.PartialMerkleTree.Serialize | src/main.h:1244-1249 | The bits are packed into bytes, least significant first, the rest of the last byte being zero. |
| PartialMerkle.PartialMerkleTree.Deserialize | src/main.h:1237-1243 | Every bit of every byte is unpacked. |
| PartialMerkle.ExtractBuilt | src/main.cpp:2389-2435 | Wherever the encoding of a node stands in the streams, decoding consumes just that and gives the node's hash and the selected ids below it. |
| PartialMerkle.BuiltSizes | src/main.h:1185-1197 | There are two bits for every hash but one, and one more for each descended node with a single child; at least one hash and at most one per transaction. |
| PartialMerkle.HashesPerMatch | src/main.h:1189-1190 | At most 1 + matches * height hashes. |
| PartialMerkle.BitsBound | src/main.h:1197 | The documented bound of 2*N-1 bits holds exactly if no matched transaction is below an only child; 2*N-1 + height always holds. |
| PartialMerkle.BitsBoundFails | src/main.h:1197 | Three transactions, the last matched: four bits for two hashes. |
| PartialMerkle.ExtractSound | src/main.cpp:2407-2435 | For any bits and hashes, if they decode to the true hash of a node then every id given is one of a transaction below it, at strictly increasing places. |
| PartialMerkle.ExtractTrusted | src/main.cpp:2453-2484 | A client that knows the root and the number of transactions is given only true ids, in block order, by any data that is accepted. |
| PartialMerkle.RoundTrip | src/main.h:1233-1260 | For 1 to MAX_BLOCK_SIZE/60 transactions and any selection: build, write, read, extract gives the root and exactly the selected ids in order; no test fails. |
| VarInt.GetSizeOfVarInt | src/serialize.h:259-270 | The number of bytes that are written. |
| VarInt.WriteVarInt | src/serialize.h:272-287 | Writes the recursive encoding, a negative int included. |
| VarInt.ReadEncoded | src/serialize.h:289-302 | Reading what was written gives the number back, in any type that holds it, and stops right behind it. |
| VarInt.EncodingUnique | src/serialize.h:237-257 | Every byte string that is read completely is the encoding of what it was read as, if it did not overflow. |
| VarInt.StoredExactly | src/serialize.h:272-287 | An int comes back exactly if it is not negative. |
| CoinsCodec.DecompressCompress | src/main.cpp:4929-4972 | Every amount comes back. |
| CoinsCodec.CompressDecompress | src/main.cpp:4929-4972 | Every code is the code of its amount. |
| CoinsCodec.CompressFits | src/main.cpp:4929-4946 | No amount of money overflows 64 bits. |
| CoinsCodec.CompressAmount | src/main.cpp:4929-4946 | The 64-bit loop computes the code, modulo 2^64, and exactly for amounts of money. |
| CoinsCodec.DecompressAmount | src/main.cpp:4948-4972 | For every 64-bit code the loop gives the amount modulo 2^64, in particular the amount whenever that fits. |
| CoinsCodec.MaskBit | src/main.h:999-1003 | A bit of the mask byte is set exactly if its output is unspent. |
| CoinsCodec.CalcMaskSize | src/main.h:939-955 | The number of bytes up to the last non-zero one, and how many are not zero. |
| CoinsCodec.SomethingUnspent | src/main.h:966 | The serializer's assertion holds for every record with an unspent output. |
| CoinsCodec.SerializeCoins | src/main.h:985-1011 | Writes version, header code, mask, unspent outputs and height as specified. |
| CoinsCodec.GetSerializeSize | src/main.h:961-982 | Is exactly the number of bytes written. |
| CoinsCodec.UnserializeMask | src/main.h:1023-1034 | Stops right behind the last non-zero mask byte with one flag per output. |
| CoinsCodec.UnserializeCoins | src/main.h:1014-1045 | Reads back what was written, of any number of outputs, wherever it stands, and stops right behind it. |
| CoinsCodec.RecordRoundTrip | src/main.h:985-1045 | A record comes back unchanged exactly if its version is not negative. |
| CoinsCodec.VersionsCollide | src/main.h:993 | Versions -1 and 127 are written alike. |
| CoinsCodec.GetUndoSize | src/main.h:729-733 | Is exactly the number of bytes of the undo record. |
| CoinsCodec.UnserializeUndo | src/main.h:743-752 | Reads the undo record back, wherever it stands. |
| CoinsCodec.SpendUndoStored | src/main.h:735-752 | The undo record of a spend survives the undo file exactly if the version is not negative or the record was not emptied. |
| MemPool.IndexUnique | src/main.cpp:830-841 | The transactions determine the index of spent outputs. |
| MemPool.NextOutput | src/main.cpp:850-856 | Descending through one more output adds exactly its spender and that one's descendants. |
| MemPool.OutputDone | src/main.cpp:850-856 | After k+1 outputs exactly the descendants through them are gone, although recursive calls may already have removed shared ones. |
| MemPool.CTxMemPool.AddUnchecked | src/main.cpp:830-841 | Adds the transaction; afterwards there is again one index entry per input of each pooled transaction and no other. |
| MemPool.CTxMemPool.Accept | src/main.cpp:656-819 | Accepts exactly if well-formed, no coinbase, not pooled, without conflict and passing the other checks. |
| MemPool.CTxMemPool.Remove | src/main.cpp:844-866 | Terminates; takes out exactly the transaction and, if recursive, its descendants in the pool, whether or not it is pooled itself. |
| MemPool.CTxMemPool.RemoveConflicts | src/main.cpp:868-881 | Takes out exactly the other spenders of the inputs and their descendants; no other pooled transaction spends one of them afterwards. |
| MemPool.CTxMemPool.PruneSpent | src/main.cpp:643-654 | Takes off exactly the outputs that a pooled transaction spends. |
| BlockTemplate.Gather | src/main.cpp:4265-4340 | Every eligible transaction is in the queue or waits for exactly its parents that are not in the chain; none is in both. |
| BlockTemplate.Release | src/main.cpp:4417-4432 | A chosen transaction brings into the queue exactly those that waited for nothing else; none is queued twice. |
| BlockTemplate.Try | src/main.cpp:4361-4396 | A transaction is taken exactly if it fits, its inputs are there, it passes CheckInputs, and it is not a low-fee one past the minimum size. |
| BlockTemplate.FillBlock | src/main.cpp:4342-4441 | Terminates. What is chosen connects in order to the coin state; sizes stay below nBlockMaxSize and signature operations below the limit; vTxFees[0] is the negated sum of the others; each pool transaction is used at most once, and one that is left out was refused or waits for one that was. |
| BlockTemplate.ParentsFirst | src/main.cpp:4417-4432 | What a chosen transaction spends is in the chain or was chosen before it. |
| BlockTemplate.NoDoubleSpend | src/main.cpp:4385-4400 | No two chosen transactions spend the same output. |
| NewBlock.TemplateConnects | src/main.cpp:4439-4456 | The chosen transactions behind a fresh coinbase that claims subsidy and fees connect at the tip if and only if the coinbase is small enough, what it claims is in range, and the checks that look at neither transactions nor coins pass. |
| NewBlock.CreateNewBlock | src/main.cpp:4216-4457 | The filled block begins with that coinbase, vTxFees[0] is the negated sum of the fees, and the trial ConnectBlock succeeds exactly under that condition; what pcoinsTip shows stays. |
| NetMessages.FramesConcat | src/net.cpp:628-654 | The frames of a byte stream are its bytes, all complete but possibly the last, none empty. |
| NetMessages.SentAreFound | src/net.cpp:628-654 | Complete messages sent one behind the other are found again. |
| NetMessages.BadStays | src/net.cpp:677-679 | A stream with an oversized message stays bad. |
| NetMessages.FramesBehind | src/net.cpp:628-654 | What follows complete messages is framed as if they had not been there. |
| NetMessages.CNetMessage.readHeader | src/net.cpp:656-686 | Takes as much as is missing of the header; fails exactly if the header becomes complete and announces too much. |
| NetMessages.CNetMessage.readData | src/net.cpp:688-697 | Takes as much as is missing of the data. |
| NetMessages.CNode.ReceiveMsgBytes | src/net.cpp:628-654 | However the bytes are divided among calls, the messages in the queue are the frames of all bytes so far that were not taken, and the peer is dropped exactly if they announce too much. |
| NetMessages.CNode.TakeFront | src/main.cpp:3831-3925 | Taking complete messages off the front leaves the frames of the rest of the stream. |
| Base58.EncodeBase58 | src/base58.h:29-67 | The digits of the number base 58 behind one '1' for every leading zero byte. |
| Base58.DecodeBase58 | src/base58.h:77-121 | Accepts exactly spaces, letters of the alphabet, spaces; gives the bytes of the number behind one zero byte for every leading '1'. |
| Base58.Trimmed | src/base58.h:105-110 | The trimming takes off exactly the sign byte the bignum added. |
| Base58.DecodeEncoded | src/base58.h:29-121 | Decoding the encoding of any bytes gives them back. |
| Base58.EncodeDecoded | src/base58.h:29-121 | Every string of the alphabet is the encoding of what it decodes to. |
| HashTable.HashTable.Get | src/hashTable_uint32.cpp:171-194 | The value the table holds for the key as a finite map, null if none: probing at most 32 slots misses nothing. |
| HashTable.HashTable.Set | src/hashTable_uint32.cpp:97-153 | For every 32-bit key the map gets the new value and all other keys keep theirs, through any number of enlargements, of which it needs finitely many; true unless a value of 0 is set for a key never seen. |
| HashTable.HashTable.Enlarge | src/hashTable_uint32.cpp:48-72 | Ends, with a table at least twice as large and the same contents, although copying may enlarge the copy again. |
| HashTable.ThreeKeys | src/hashTable_uint32.cpp:97-99 | At most two 32-bit keys share a hash. |
| HashTable.FoundAtOnce | src/hashTable_uint32.cpp:97-113 | In a table with a slot for every hash a probe comes to its key or a free slot within two slots, so 32 never fail. |
| HashTable.Missing | src/hashTable_uint32.cpp:178-193 | A probe at a free slot, or after 32 taken ones, proves that the key is not there. |
| HashTable.InsertOk | src/hashTable_uint32.cpp:105-113 | Using the first free slot keeps every key reachable by its probe. |
| HashTable.AllSlots | src/hashTable_uint32.cpp:54-63 | Copying slot by slot misses no item. |
| FastSorter.FastSorter.Clear | src/fastSorter.cpp:19-27 | One default entry remains. |
| FastSorter.FastSorter.Enlarge | src/fastSorter.cpp:29-60 | The tree survives the move of the array, whatever the addresses. |
| FastSorter.FastSorter.Add | src/fastSorter.cpp:62-123 | The sequence the tree stands for gets the item behind everything not greater; a full sorter that may not grow ignores it. |
| FastSorter.FastSorter.TraverseAscending | src/fastSorter.cpp:125-159 | Calls back every non-null payload of that sequence, once and in order; the stack never overruns. |
| FastSorter.FastSorter.Sort | src/fastSorter.cpp:19-159 | A clear, any additions and a traversal call back exactly the non-null payloads, once each, in ascending order of value and for equal values in order of addition; a sorter that may not grow does so for what fitted. |
| FastSorter.AttachFlat | src/fastSorter.cpp:71-119 | The in-order reading of the grown tree is that of the old one with the item inserted. |
| FastSorter.MovedTree | src/fastSorter.cpp:42-50 | Correcting every pointer by the same bias, modulo 2^32, keeps tree and payloads. |
| FastSorter.SortsStably | src/fastSorter.cpp:62-159 | After any additions the sequence is ascending, holds just what was added and the default entry, and keeps equal values in order of addition. |

## Left out

- Hashing, signatures and scripts: ids of blocks and transactions are fields; script verdicts, signature-operation counts, bucket hashes and the pair hash of Merkle trees are parameters, the last injective only where a theorem says so.
- Context-free block checks on sizes, time stamps and the Merkle root: one predicate of the rules, and a second one for the limit of March to May 2013, which fails without setting the invalid state. The clock is fixed: CheckBlock's test of the time stamp depends on it and does set the invalid state, so a block from the future that is marked may become connectable later.
- Widths: block totals, fees and heights are mathematical integers; that int64 sums of a block stay in range is not shown.
- The two exemptions from BIP 30 keyed to Bitcoin blocks: the rule is always enforced.
- Failures of disk and database: reading a block may fail for any set of blocks, everything else succeeds; nothing is said of SetBestChain after a failed flush.
- BestChain.BestChain.ConnectBestBlock: which blocks cannot be read is fixed during one call; nBestInvalidWork, warnings and interrupts are not modelled.
- ChainState.ChainState.SetBestChain: returning transactions of disconnected blocks to the memory pool and taking those of connected ones out is not part of it; MemPool shows what the calls it makes there do.
- Writing the block index and finding positions in block and undo files, FindUndoPos included.
- ChainState.ChainState.NewBlockIndex: AcceptBlock's proof-of-work, time-stamp, finality and checkpoint tests are not modelled; that the genesis block names no known predecessor is required.
- AddrMan.AddrMan.ShrinkNew: randomness is arbitrary, the four draws may coincide.
- AddrMan.AddrMan.Good: requires a positive time, which every caller gives it (the adjusted time), because a tried entry with nLastSuccess 0 fails the self-test.
- AddrMan.AddrMan.Check: asking mapAddr for an unknown address enters 0 into it in the source; here it only reads.
- AddrSave.Load: nothing is claimed of a file with another number of new buckets (the branch is there) or of a file that was not written by Save; nLastTry and the order inside tried buckets are not saved.
- Select_ and GetChance: a loop over random draws with floating-point chances.
- Worker shutdown: fQuit is never set in the source, and the master is one thread at a time because of the control's mutex.
- CheckQueue.CCheckQueue.Add: which workers the wake-up reaches is not modelled, any waiting thread may wake at any time.
- CScriptCompressor: a parameter that reads what it wrote and stops behind it.
- CoinsCodec.UnserializeCoins: says nothing of bytes that Serialize did not write.
- MemPool.CTxMemPool.Accept: locks, standardness, fee limits, and the checks against the coin state are one boolean; the replacement code behind `return false` is dead.
- MemPool.CTxMemPool.Remove: that the pool is acyclic is stated by a ghost rank of ids, which hashes give.
- BlockTemplate.FillBlock: priorities and fees per kilobyte are an arbitrary policy, the heap any queue from which some element is taken; the branch for a pool transaction with missing inputs is not modelled.
- NewBlock.CreateNewBlock: the coinbase's id is not in the coin state or pool and its signature operations fit the 100 reserved, as the source assumes; header fields but nBits are not modelled.
- NetMessages.CNetMessage.readHeader: start bytes, command and checksum are not looked at here in the source either; MAX_SIZE and the little-endian size field are.
- Base58.DecodeBase58: the string has no zero character; OpenSSL's big numbers are integers with the byte form of getvch.
- HashTable.HashTable.Set: the table's size is not limited, where in the source doubling it would wrap at 2^32 and memory run out; a deleted entry (-1) never occurs.
- FastSorter.FastSorter.Enlarge: the address malloc returns is a parameter, and the arrays must fit into 32 bits.
- FastSorter.FastSorter.Clear: requires a limit above 0, because it writes entry 0 of the array.
- Storage.RestoredExactly: scripts and amounts come back as they were written, which CoinsCodec shows for records and undo records that fit the formats; only versions are lost here.
- Wallet, RPC, user interface, mining, pool server threads, prime search, graphics and stream helpers, orphan handling in ProcessMessage: not modelled.
