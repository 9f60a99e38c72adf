# Substrate client core in Dafny

A model, with proofs, of the parts of the Substrate client whose correctness is hardest to see:
the wasm heap allocator, the block-tree database, the offchain storage's compare-and-set, the
gossip engine and the block proposer. Everything is plain Dafny 4.11; `dafny verify
dfyconfig.toml` checks all of it.

Each area has the same shape. The program's operations are functions on values, with the
program's own branches, constants and error cases. An invariant says what a state means. A lemma
per operation shows what it does and that it keeps the invariant, and a run theorem lifts this
to any sequence of operations, or to any interleaving. Where the program updates an object in
place or runs a loop, a class or a method with that loop is proved to compute the function.

- **Heap allocator** (`WasmMemory`, `FreeingBump`, `HeapLayout`, `HeapSteps`, `HeapRuns`,
  `HeapAllocator`). Memory is a sequence of bytes; the free lists exist only as little-endian
  header words inside it. The layout that the proofs talk about (which chunks tile the heap,
  which are live, which list each other one is on) is not stored anywhere: the invariant reads
  it back from the bytes.
- **Offchain storage** (`OffchainCas`). Any number of threads, one transition per atomic access
  of `compare_and_set`.
- **Leaves and children** (`LeafSet`, `LeafSetObject`, `LeafTree`, `LeafTreeObject`).
- **Canonical index** (`BlockTree`, `CanonicalIndex`, `CanonicalRuns`): the tree route between
  two blocks, and the number-to-hash index under changes of head.
- **Stored bodies** (`JoinedInput`, `RefCountedColumn`, `IndexedBodies`, `AdapterRuns`,
  `PinnedPruning`): indexed extrinsics in the reference-counted column, on both databases, and
  window pruning with pinned blocks.
- **Gossip** (`GossipEngine`, `GossipSubscriptions`, `ConsensusGossip`, `ConsensusGossipOps`,
  `ConsensusGossipObject`): forwarding to subscribers with back-pressure, and which message goes to which peer.
- **Proposer** (`BlockProposal`): the loop that fills a block from the pool.

## Where the code does not do what one would expect

Each of these is kept as the code has it. All but the last come with a lemma at a concrete case
and one that gives the exact condition.

- The bump pointer is checked in 64 bits and advanced in 32. A fresh chunk that ends at exactly
  2^32 wraps it to zero: `HeapSteps.AllocateCorrect` (good afterwards if and only if the request
  does not do that), `HeapRuns.WrapExample`, and `HeapRuns.BelowTopIsLegal` (impossible with at
  most 65535 pages).
- The key-value adapter computes every change of a commit from the counters before it, so when
  one transaction names a hash several times only the last change counts. A commit can do that by
  importing a body, by finalising several blocks, or by doing both. The cases are
  `RefCountedColumn.AdapterLosesReference` (stored twice), `AdapterRuns.TwoPruningsReleaseTwice`
  (two bodies pruned together), `AdapterRuns.RenewalWithPruning` (renewed while the last other
  body is pruned) and `RefCountedColumn.AdapterLosesValue` (count right, value gone). The
  conditions, on the transactions of a run of commits, are `AdapterRuns.AdapterCountsIff` for the
  counts and `AdapterRuns.AdapterHoldsIff` for everything stored. The in-memory database counts
  every change: `AdapterRuns.BatchIsRun`, `IndexedBodies.CountsAndBodiesAreExact`.
- The test for sequential finalisation lets the first finalisation after genesis skip blocks;
  bodies further below than the window then stay for good: `PinnedPruning.SkippingLeavesABody` is
  the case, and `PinnedPruning.LastBodiesRemain` the condition (on the first number finalised).
- A message can be broadcast back to the peer it was accepted from:
  `ConsensusGossip.DiscardedComesBack` is the case, and `ConsensusGossip.BroadcastIff` the
  condition (every exchange of it in the connection was followed by a garbage collection that did
  not find it in the cache of known messages).
- Even while the cache evicts nothing, a kept message can go to the upper layer more than once:
  `ConsensusGossip.KeptAfterDiscardGoesUpTwice` is the case, and
  `ConsensusGossip.KeptMessagesGoUpOnce` the condition (it was accepted and
  discarded before, read off the operations in `ConsensusGossip.RunDiscardsIff`).
- A subscriber that registers while a stored message of its topic is still queued gets that
  message twice: `GossipSubscriptions.QueuedComesTwice` is the case, and
  `GossipSubscriptions.ReceivedHowOften` the condition.
- Undoing the import or the removal of a leaf need not restore the leaf set, and `revert` can
  panic. The cases are `LeafSet.UndoImportLosesTwin`, `LeafSet.UndoRemoveLosesParent` and
  `LeafSet.RevertPanicsOnTwins`; the conditions are in `LeafSet.UndoImportRestores`,
  `LeafSet.UndoRemoveRestores` and `LeafSet.RevertSpec`. On the databases that can be reached none
  of this happens: `LeafTree.ReachableLeavesCanBeUndone`.
- The documentation of the short lookup key (client/db/src/utils.rs:90) calls it little-endian;
  the code writes the most significant byte first, and so does `CanonicalIndex.NumberKey`.

## Model

| member | source | states |
|---|---|---|
| `WasmMemory.Memory.Grow` | client/allocator/src/lib.rs:41-61 | growing adds exactly the pages asked for, keeps the maximum and every byte, and stays within the limit |
| `WasmMemory.LeRoundTrip` | client/allocator/src/freeing_bump.rs:587-608 | every number that fits in n bytes is read back from its little-endian form |
| `WasmMemory.HeapRange` | client/allocator/src/freeing_bump.rs:620-628 | an access is granted if and only if its end fits in u32 and in the memory, and then for exactly the bytes asked for |
| `WasmMemory.RawRoundTrip` | client/allocator/src/freeing_bump.rs:189-206 | a header survives conversion to its word and back if and only if it is not a link to the end marker's own address |
| `WasmMemory.HeaderRoundTrip` | client/allocator/src/freeing_bump.rs:236-267 | writing then reading a header gives it back, with the same exact exception, and no byte outside its word changes |
| `WasmMemory.HeaderBytes` | client/allocator/src/freeing_bump.rs:236-267 | a written header is the order or link in four bytes, least significant first, a byte that is one exactly for an occupied chunk, and three zeros |
| `WasmMemory.HeaderUntouched` | client/allocator/src/freeing_bump.rs:236-267 | writing one header leaves every header at least eight bytes away as it was |
| `FreeingBump.OrderFromSize` | client/allocator/src/freeing_bump.rs:142-162 | a request gets the least order whose capacity covers it; it is refused exactly above 32 MiB |
| `FreeingBump.NextPowerIsCeilLog2` | client/allocator/src/freeing_bump.rs:152-159 | rounding up by doubling reaches the power of two with the least sufficient exponent |
| `FreeingBump.ChunkSizeBounds` | client/allocator/src/freeing_bump.rs:164-169 | chunks of every order have 16 to 2^25 + 8 bytes, a multiple of 8 |
| `FreeingBump.NewHeap` | client/allocator/src/freeing_bump.rs:380-391 | the heap starts at the first multiple of 8 at or above the given base, with empty lists, zero statistics and no poison |
| `FreeingBump.PagesFromSize` | client/allocator/src/freeing_bump.rs:352-354 | there is a page count if and only if it fits in u32, and it covers the size with less than one page to spare |
| `FreeingBump.Allocate` | client/allocator/src/freeing_bump.rs:408-457 | an error and the poison flag go together; a poisoned allocator reports that and changes nothing |
| `FreeingBump.Deallocate` | client/allocator/src/freeing_bump.rs:470-501 | an error and the poison flag go together; a poisoned allocator reports that and changes nothing |
| `HeapLayout.TilesCover` | client/allocator/src/freeing_bump.rs:508-563 | every address of the used heap belongs to a chunk of the tiling |
| `HeapLayout.Separate` | client/allocator/src/freeing_bump.rs:508-563 | two chunks of a tiling never overlap |
| `HeapLayout.Within` | client/allocator/src/freeing_bump.rs:508-563 | chunks lie between heap base and bump pointer and are 8-aligned when the base is |
| `HeapLayout.LiveBytesBounded` | client/allocator/src/freeing_bump.rs:447-451 | headers and capacities of all live chunks together fit below the bump pointer |
| `HeapLayout.ReadsAsUnique` | client/allocator/src/freeing_bump.rs:286-316 | the bytes and a list head determine the free list: two readings agree, so each list is finite and acyclic |
| `HeapLayout.NewHeapInv` | client/allocator/src/freeing_bump.rs:380-391 | a fresh allocator satisfies the invariant on any memory |
| `HeapSteps.BumpSpec` | client/allocator/src/freeing_bump.rs:512-563 | bump succeeds if and only if the request fits; when it grows, both debug assertions hold and the new page count is the least that covers the request, stays within the maximum, and at least doubles the memory or fills it |
| `HeapSteps.WriteKeepsOthers` | client/allocator/src/freeing_bump.rs:444-445 | writing the header of one chunk keeps the header of every other chunk |
| `HeapSteps.PayloadKept` | client/allocator/src/freeing_bump.rs:444-445 | a write to one chunk's header changes no payload byte of any chunk |
| `HeapSteps.TakeFromList` | client/allocator/src/freeing_bump.rs:422-437 | taking from a non-empty free list never fails, whatever the size of the memory |
| `HeapSteps.AllocPartition` | client/allocator/src/freeing_bump.rs:422-442 | handing out a chunk keeps every chunk live or on exactly one list, and the chunk was not live before |
| `HeapSteps.AllocStored` | client/allocator/src/freeing_bump.rs:422-445 | after the header write every live chunk reads as occupied and every list head reads as its list |
| `HeapSteps.TakeSpec` | client/allocator/src/freeing_bump.rs:422-442 | when a chunk can be taken, which one, and what the heap and memory are before its header is written |
| `HeapSteps.AllocatedBytes` | client/allocator/src/freeing_bump.rs:422-456 | the chunk handed out is fresh, aligned and inside memory, and only its header word is written |
| `HeapSteps.AllocatedAccounts` | client/allocator/src/freeing_bump.rs:447-451 | the counters are right after an allocation, and the used heap is tiled if and only if the bump pointer did not wrap |
| `HeapSteps.AllocatedInv` | client/allocator/src/freeing_bump.rs:408-457 | the heap is good after taking a chunk if and only if the bump pointer did not wrap |
| `HeapSteps.AllocateCorrect` | client/allocator/src/freeing_bump.rs:408-457 | on a good heap: succeeds exactly when the size is allowed and a chunk is free or can be bumped, with the right error otherwise; hands out a non-live, aligned chunk of the least sufficient capacity inside memory; changes only its header word; good again if and only if the bump pointer did not wrap |
| `HeapSteps.FreeStored` | client/allocator/src/freeing_bump.rs:483-489 | after a free every live chunk reads as occupied and every list head reads as its list, the freed chunk first on its own |
| `HeapSteps.FreeAccounts` | client/allocator/src/freeing_bump.rs:491-495 | freeing a live chunk never underflows the counter and leaves it equal to the live bytes |
| `HeapSteps.DeallocateCorrect` | client/allocator/src/freeing_bump.rs:470-501 | freeing a live chunk always succeeds, changes only its header word and leaves the heap good with the chunk at the front of its list |
| `HeapSteps.ForeignFreeIsRefused` | client/allocator/src/freeing_bump.rs:470-485 | freeing any pointer whose header word, read from the bytes, is missing, free or of no order is refused with the error for that, poisons the allocator and changes no byte |
| `HeapSteps.DoubleFreeIsRefused` | client/allocator/src/freeing_bump.rs:478-485 | freeing a chunk that is on a free list is an error that poisons the allocator and changes no byte |
| `HeapRuns.StepKeepsGood` | client/allocator/src/freeing_bump.rs:408-501 | every legal allocation, free, guest write or host growth keeps the heap good or poisons it |
| `HeapRuns.RunFromNewIsGood` | client/allocator/src/freeing_bump.rs:374-501 | safety of every run from a fresh allocator: tiled heap, exact lists, exact counters, until an error poisons it |
| `HeapRuns.LiveDisjoint` | client/allocator/src/freeing_bump.rs:408-457 | live allocations are 8-aligned, inside the used heap and memory, of their order's capacity, and pairwise disjoint |
| `HeapRuns.StepKeepsPayload` | client/allocator/src/freeing_bump.rs:408-501 | no operation changes a payload byte of an allocation it does not free or write itself |
| `HeapRuns.RunKeepsPayload` | client/allocator/src/freeing_bump.rs:408-501 | an allocation stays live with its bytes through any run that does not free it or write to it, also through and after a call that poisons the allocator |
| `HeapRuns.PoisonedKeepsPayload` | client/allocator/src/freeing_bump.rs:413-415 | no call on a poisoned allocator, legal or not, changes a payload, the layout or the allocator |
| `HeapRuns.PoisonedForever` | client/allocator/src/freeing_bump.rs:630-645 | once poisoned, no run of any calls and guest writes changes any field of the allocator again |
| `HeapRuns.BelowTopIsLegal` | client/allocator/src/freeing_bump.rs:560-562 | with at most 65535 pages no request can wrap the bump pointer |
| `HeapRuns.WrapExample` | client/allocator/src/freeing_bump.rs:512-563 | on a full 4 GiB memory an 8-byte request wraps the bump pointer to zero and no layout describes the result |
| `HeapRuns.AllocateGrowth` | client/allocator/src/freeing_bump.rs:515-558 | an allocation never shrinks memory, never passes the maximum, and when it grows, the growth is the least that covers the chunk and doubles or fills the memory |
| `HeapRuns.GrowthsAreLogarithmic` | client/allocator/src/freeing_bump.rs:542-558 | any run grows the memory at most ceil(log2(max_pages)) + 1 times |
| `HeapRuns.StatsOfRun` | client/allocator/src/freeing_bump.rs:447-451 | over any run the recorded peak is the most that was ever in use, and the recorded sum counts every chunk handed out, modulo 2^128 |
| `HeapRuns.ShrunkMemoryIsRefused` | client/allocator/src/freeing_bump.rs:565-574 | after a successful call, both operations refuse a memory smaller than the one it was given |
| `HeapRuns.LastFreedFirstAllocated` | client/allocator/src/freeing_bump.rs:422-445 | freeing any live chunks of one order and allocating as often returns them in reverse, without bump or growth, and restores the layout |
| `HeapRuns.LayoutDetermines` | client/allocator/src/freeing_bump.rs:286-316 | the layout fixes bump pointer, list heads, bytes in use and the headers of all chunks, occupied and free, so a restored layout restores them |
| `HeapAllocator.MemoryInstance.Grow` | client/allocator/src/lib.rs:50-51 | growth in place adds the pages unless the host refuses |
| `HeapAllocator.FreeingBumpHeapAllocator.constructor` | client/allocator/src/freeing_bump.rs:380-391 | the new object is the fresh heap of the model |
| `HeapAllocator.FreeingBumpHeapAllocator.ObserveMemorySize` | client/allocator/src/freeing_bump.rs:565-574 | fails exactly when memory shrank and records the size otherwise |
| `HeapAllocator.FreeingBumpHeapAllocator.Bump` | client/allocator/src/freeing_bump.rs:512-563 | the in-place bump, with its debug assertions proved, computes the model's bump and changes nothing on error |
| `HeapAllocator.FreeingBumpHeapAllocator.Replace` | client/allocator/src/freeing_bump.rs:297-302 | one list head is replaced and the old one returned |
| `HeapAllocator.FreeingBumpHeapAllocator.Take` | client/allocator/src/freeing_bump.rs:422-442 | the in-place pop or bump computes the model's `Take` |
| `HeapAllocator.FreeingBumpHeapAllocator.Allocate` | client/allocator/src/freeing_bump.rs:408-457 | the in-place allocation computes the function that all run theorems are about, on every path |
| `HeapAllocator.FreeingBumpHeapAllocator.Deallocate` | client/allocator/src/freeing_bump.rs:470-501 | the in-place free computes the function that all run theorems are about, on every path |
| `OffchainCas.MutualExclusion` | client/db/src/offchain.rs:91-100 | two threads in their read-then-write sections work on different keys |
| `OffchainCas.StepKeepsInv` | client/db/src/offchain.rs:78-112 | every atomic access of any thread keeps the invariant on mutexes, reference counts, lock map and history |
| `OffchainCas.Linearizable` | client/db/src/offchain.rs:78-112 | after any interleaving the database is that of the committed calls run one after the other, each a compare-and-set of the entry under its concatenated bytes; each reports what it would report there, and commits once between its invocation and its return; the calls are those begun |
| `OffchainCas.OneWriterPerKey` | client/db/src/offchain.rs:91-100 | in every reachable state the calls between lock and unlock have different concatenated bytes of prefix and key |
| `OffchainCas.LocksAreCallsInFlight` | client/db/src/offchain.rs:86-110 | bytes are a key of the lock map if and only if they are the prefix and key of a call in flight; when all calls have returned the map is empty |
| `OffchainCas.NoDeadlock` | client/db/src/offchain.rs:78-112 | while a call is in flight some thread can move |
| `OffchainCas.ElevenAccessesPerCall` | client/db/src/offchain.rs:78-112 | over any interleaving a thread has returned from one call for every eleven accesses it made |
| `LeafSet.RemoveLeafSpec` | client/api/src/leaves.rs:265-290 | reports whether the leaf was there, removes every copy of it and nothing else, and leaves no empty level |
| `LeafSet.UndoImportRestores` | client/api/src/leaves.rs:310-316 | undoing an import restores every level as a multiset if and only if the hash was no leaf there before and the parent was one at most once |
| `LeafSet.UndoRemoveRestores` | client/api/src/leaves.rs:320-326 | undoing a removal restores every level as a multiset if and only if the hash was a leaf once and the parent put back was none |
| `LeafSet.UndoFinalizationRestores` | client/api/src/leaves.rs:330-332 | undoing any merged run of finalisations restores the map exactly, and merging never loses a level |
| `LeafSet.FinalizeAllKeeps` | client/api/src/leaves.rs:161-170 | after a run of finalisations exactly the levels at or above all of their heights remain |
| `LeafSet.ItemsSpec` | client/api/src/leaves.rs:231-235 | the list of leaves contains exactly the leaves, by descending number |
| `LeafSet.DrainSpec` | client/api/src/leaves.rs:209-216 | the loop of revert completes if and only if no listed leaf above the target repeats and all are present, and then removes exactly those |
| `LeafSet.RevertSpec` | client/api/src/leaves.rs:202-229 | revert panics if and only if a level above the target has a duplicate; otherwise everything above goes, lower levels stay, and the target is a leaf |
| `LeafSet.RevertPanicsOnTwins` | client/api/src/leaves.rs:209-216 | after importing one block twice, a revert below it panics |
| `LeafSet.UndoImportLosesTwin` | client/api/src/leaves.rs:310-316 | importing a leaf again and undoing that loses the leaf |
| `LeafSet.UndoRemoveLosesParent` | client/api/src/leaves.rs:320-326 | removing a block whose parent is a leaf already and undoing that loses the parent |
| `LeafSetObject.LeafSet.RemoveLeaf` | client/api/src/leaves.rs:265-290 | the loop over the level computes the model's removal |
| `LeafSetObject.LeafSet.Import` | client/api/src/leaves.rs:106-119 | import in place computes the model's import and outcome |
| `LeafSetObject.LeafSet.Remove` | client/api/src/leaves.rs:129-152 | removal in place computes the model's removal and outcome |
| `LeafSetObject.LeafSet.SplitOff` | client/api/src/leaves.rs:168 | taking the levels out one by one splits the map at the boundary, with every level as it was |
| `LeafSetObject.LeafSet.FinalizeHeight` | client/api/src/leaves.rs:161-170 | a leaf stays if and only if it is at or above the height and is displaced otherwise, and undoing puts everything back |
| `LeafSetObject.LeafSet.UndoImport` | client/api/src/leaves.rs:310-316 | undo in place computes the function whose restoring law is proved |
| `LeafSetObject.LeafSet.UndoRemove` | client/api/src/leaves.rs:320-326 | undo in place computes the function whose restoring law is proved |
| `LeafSetObject.LeafSet.UndoFinalization` | client/api/src/leaves.rs:330-332 | putting the displaced levels back one by one gives the leaf set before whatever run of finalisations displaced them |
| `LeafSetObject.LeafSet.CollectItems` | client/api/src/leaves.rs:203-207 | reading level by level from the top gives the model's list |
| `LeafSetObject.LeafSet.Revert` | client/api/src/leaves.rs:202-229 | the loop with its assertion computes the model's revert, panic included |
| `LeafTree.ExistingHeaderExact` | client/db/src/lib.rs:1461-1468 | no known block is above the highest leaf, so the import's cheap test for an existing header never misses one |
| `LeafTree.ImportKeepsInv` | client/db/src/lib.rs:1636-1663 | importing a new or a known block keeps leaves and children exact |
| `LeafTree.RemoveKeepsInv` | client/db/src/lib.rs:2347-2395 | removing a leaf block keeps leaves and children exact, its parent becoming a leaf when it was the last child |
| `LeafTree.FinalizeKeepsInv` | client/db/src/lib.rs:1788 | a rising finalised height keeps the leaf set exact above it |
| `LeafTree.RemoveDecides` | client/db/src/lib.rs:2332-2386 | on a good database a removal succeeds if and only if the block is known, not the best one, has its state and no known child; each error has its exact cause |
| `LeafTree.RunIsKnown` | client/db/src/lib.rs:2359-2386 | over any run the known blocks and the finalised height are those of a reference that has neither leaf set nor children index |
| `LeafTree.LeavesAreChildlessBlocks` | client/db/src/lib.rs:1636-1663 | after any run the leaves are exactly the known childless blocks at or above the finalised height, and the children index lists exactly each block's known children; blocks and height are those that the operations leave |
| `LeafTree.UndoesImport` | client/api/src/leaves.rs:310-316 | on a database in order, undoing the import of a new block restores the leaf set |
| `LeafTree.UndoesRemoval` | client/db/src/lib.rs:2386-2391 | on a database in order, undoing the removal of a leaf block after a failed commit restores the leaf set |
| `LeafTree.ReachableLeavesCanBeUndone` | client/api/src/leaves.rs:202-229 | on every reachable database revert does not panic, and undoing a leaf removal or the import of a new block restores the leaf set |
| `LeafTreeObject.Backend.HighestLeaf` | client/db/src/lib.rs:1461-1467 | the number of the highest leaf, zero without leaves |
| `LeafTreeObject.Backend.ImportBlock` | client/db/src/lib.rs:1636-1663 | import in place computes the model's import |
| `LeafTreeObject.Backend.OtherChildren` | client/db/src/lib.rs:2361-2366 | filtering the children keeps the others in order |
| `LeafTreeObject.Backend.RemoveLeafBlock` | client/db/src/lib.rs:2332-2396 | removal in place computes the model's removal, with its four refusals leaving everything as it was |
| `LeafTreeObject.Backend.Finalize` | client/db/src/lib.rs:1788 | finalisation in place computes the model's, and returns exactly the displaced leaves |
| `BlockTree.AncestorOfAncestor` | primitives/blockchain/src/header_metadata.rs:111-130 | walking up in two stages reaches the same ancestor |
| `BlockTree.CommonFrom` | primitives/blockchain/src/header_metadata.rs:122-130 | in a tree with one root there is a common ancestor, and none of a higher number |
| `BlockTree.CommonBelow` | primitives/blockchain/src/header_metadata.rs:122-130 | at and below the last common ancestor both chains are the same |
| `BlockTree.FindRoute` | primitives/blockchain/src/header_metadata.rs:100-139 | the three loops find exactly the retracted blocks descending, the last common ancestor, and the enacted blocks ascending; the only failure is a missing end |
| `CanonicalIndex.RouteParts` | primitives/blockchain/src/header_metadata.rs:133-139 | a route goes down the first chain to the last common ancestor, has that block in the middle, and goes up the second chain |
| `CanonicalIndex.NumberKeyRoundTrip` | client/db/src/utils.rs:95-101 | a block number can be read back from its key, so different numbers have different keys |
| `CanonicalIndex.LookupKeyRoundTrip` | client/db/src/utils.rs:105-113 | a lookup key gives back the number and the hash it was made from |
| `CanonicalIndex.Uncanonicalize` | client/db/src/lib.rs:1288-1300 | the loop deletes exactly the retracted numbers, and fails if and only if one is the finalised block or does not fit in u32, with the error of the first that is |
| `CanonicalIndex.Canonicalize` | client/db/src/lib.rs:1303-1311 | the loop sets exactly the enacted numbers, and fails if and only if one does not fit in u32 |
| `CanonicalIndex.SetHead` | client/db/src/lib.rs:1260-1324 | a head change goes through if and only if it is allowed, and then writes exactly the deletes, the sets and the new best; each of the four errors is returned in exactly its case |
| `CanonicalIndex.RewrittenLookup` | client/db/src/utils.rs:115-139 | the index after a head change, number by number, with every key that is not a number key untouched |
| `CanonicalIndex.RouteReported` | client/db/src/lib.rs:1260-1324 | a head change reports as retracted the old chain from its best block down, and as enacted the new chain upwards, both to the last common ancestor |
| `CanonicalIndex.ChainWalks` | client/db/src/lib.rs:1260-1324 | reading an index that is a block's chain gives that block under its number, every block's parent one below, and nothing above |
| `CanonicalIndex.IndexFollowsHead` | client/db/src/lib.rs:1260-1324 | if the index is the chain of the old best block, after any successful head change it is exactly the chain of the new one, block by block from the hashes in its entries, and no other key changed |
| `CanonicalIndex.RetractsFinalized` | client/db/src/lib.rs:1283-1300 | a route retracts a finalised block of the best chain if and only if its common ancestor lies strictly below that block |
| `CanonicalIndex.FinalizedStaysOnChain` | client/db/src/lib.rs:1288-1300 | every allowed head change keeps the finalised block on the best chain |
| `CanonicalRuns.ApplyKeepsInv` | client/db/src/lib.rs:1260-1324 | every import, head change and finalisation on the best chain keeps index and finalised block in line |
| `CanonicalRuns.ApplyFollows` | client/db/src/lib.rs:1260-1324 | imports, head changes, finalisations and removals change the known blocks, the best and the finalised block exactly when they may: a head moves if and only if it is not too far below and the finalised block is on its chain |
| `CanonicalRuns.RecordedFinds` | client/db/src/utils.rs:141-154 | recording a block makes its hash lead to its lookup key and leaves all other lookups as they were |
| `CanonicalRuns.RemoveKeepsInv` | client/db/src/lib.rs:2359-2386 | removing a leaf block other than the best one removes its hash entry, which was there, and leaves the rest of the index and the finalised block in line |
| `CanonicalRuns.IndexIsAlwaysTheBestChain` | client/db/src/lib.rs:1260-1324 | over any run from genesis of imports, head changes, finalisations and leaf removals the state follows the operations; at its end the hashes in the index walk exactly the best block's chain, the block finalised last is on it, and exactly the known blocks are found by hash, with number and hash in the entry |
| `JoinedInput.JoinInput.RemainingLen` | client/db/src/utils.rs:564-566 | the bytes still to be read from both slices |
| `JoinedInput.JoinInput.Read` | client/db/src/utils.rs:568-578 | a read succeeds if and only if one slice holding both parts would allow it, with the same bytes and the same rest |
| `JoinedInput.RunJoined` | client/db/src/utils.rs:563-579 | any decoder, with any pattern of reads and length queries, does on the joined input what it does on the concatenation |
| `RefCountedColumn.AddsCount` | primitives/database/src/mem.rs:42-55 | storing and referencing add one to a hash's count for each change naming it, and keep stored data |
| `RefCountedColumn.AddsData` | primitives/database/src/mem.rs:42-48 | a hash whose content is determined holds that content after any additions |
| `RefCountedColumn.ReleasesCount` | primitives/database/src/mem.rs:56-65 | releasing no more than there is takes one off for each change naming a hash and keeps data while a reference is left |
| `RefCountedColumn.AbsentIsIgnored` | primitives/database/src/kvdb.rs:83-105 | both databases ignore references to, and releases of, what is not stored |
| `RefCountedColumn.AdapterAgreesOnce` | primitives/database/src/kvdb.rs:68-109 | for any mix of changes naming no hash twice, the adapter does what the in-memory database does |
| `RefCountedColumn.AdapterAgreesIff` | primitives/database/src/kvdb.rs:68-109 | for an import's or a pruning's transaction the two agree if and only if no hash is named twice |
| `RefCountedColumn.AdapterLosesReference` | primitives/database/src/kvdb.rs:74-105 | a hash stored twice in one transaction is gone from the adapter after one release |
| `RefCountedColumn.NetCount` | primitives/database/src/mem.rs:32-70 | the in-memory database's count changes by all references less all releases of the transaction |
| `RefCountedColumn.KvCountIs` | primitives/database/src/kvdb.rs:68-109 | after any transaction the adapter's counter has moved by one, as the last change naming the hash says; and a hash without a counter has one if and only if it was stored |
| `RefCountedColumn.KvValueIs` | primitives/database/src/kvdb.rs:68-109 | after any transaction the adapter holds a value if and only if it was stored new, or had one and was not released at its last reference, whatever came after |
| `RefCountedColumn.CountsRightIff` | primitives/database/src/kvdb.rs:68-109 | for any transaction a count comes out right if and only if all changes to the hash together make the difference that the last alone makes |
| `RefCountedColumn.AdapterAgreesExactly` | primitives/database/src/kvdb.rs:68-109 | for any transaction the adapter ends as the in-memory database does, counts and values, if and only if every hash fits: its count comes out right, and its last reference is not released and taken up again |
| `RefCountedColumn.AdapterKeepsReleased` | primitives/database/src/kvdb.rs:92-105 | a hash with two references, released twice in one transaction, stays in the adapter |
| `RefCountedColumn.AdapterLosesRenewed` | primitives/database/src/kvdb.rs:83-105 | a hash with one reference, referenced and released in one transaction, is gone from the adapter |
| `RefCountedColumn.AdapterLosesValue` | primitives/database/src/kvdb.rs:74-105 | a hash with one reference, released and stored twice, has the right count and no value |
| `IndexedBodies.ApplyIndexOps` | client/db/src/lib.rs:1940-1997 | the two loops store each extrinsic as the operations ask: the last renewal wins, then the last insertion, whose tail goes under its hash and whose head into the entry, unless the extrinsic is shorter; the transaction has these changes and no others |
| `IndexedBodies.IndexBodyAsAsked` | client/db/src/lib.rs:1958-1988 | the same of the function that all run theorems are about |
| `IndexedBodies.BodyUncached` | client/db/src/lib.rs:592-638 | the reading loop over joined inputs gives what decoding each header followed by its data gives, or the first error |
| `IndexedBodies.ReadBodyMeans` | client/db/src/lib.rs:592-638 | a body reads as what its entries stand for, in full or decoded from header and stored data, or gives the error of the first entry that stands for nothing |
| `IndexedBodies.ReadIndexed` | client/db/src/lib.rs:603-628 | an extrinsic reads back from its entry, however it was stored, when its hash holds the right content |
| `IndexedBodies.IndexBodySpec` | client/db/src/lib.rs:1958-1988 | a body's transaction names each hash exactly as often as its entries do |
| `IndexedBodies.ReleaseIndexed` | client/db/src/lib.rs:1895-1901 | the pruning loop releases once for each indexed entry |
| `IndexedBodies.PruneTxSpec` | client/db/src/lib.rs:1895-1901 | pruning a body names each hash exactly as often as its entries do, in releases only |
| `IndexedBodies.ImportKeepsInv` | client/db/src/lib.rs:1940-1997 | an import keeps counts equal to entries and all stored bodies readable |
| `IndexedBodies.PruneKeepsInv` | client/db/src/lib.rs:1865-1910 | pruning one body keeps counts equal to entries and all other bodies readable |
| `IndexedBodies.CountsAndBodiesAreExact` | client/db/src/lib.rs:1865-1997 | over any run of imports and prunings the stored bodies are those imported and not pruned; every count equals the number of their entries naming the hash; each has the entries that were asked for, reads back as imported, and has its inserted tails under their hashes |
| `AdapterRuns.BatchIsRun` | client/db/src/lib.rs:1442-1490 | one transaction for any mix of imports and prunings does to the column what they do one after the other, and keeps the invariant |
| `AdapterRuns.AdapterCountsIff` | primitives/database/src/kvdb.rs:68-109 | over any run of commits, each any mix of imports and prunings, the adapter counts every hash right after every commit if and only if in every commit the changes to each hash together make the difference that the last alone makes |
| `AdapterRuns.AdapterHoldsIff` | primitives/database/src/kvdb.rs:68-109 | over any run of commits the adapter holds exactly what the in-memory database holds after every commit if and only if every hash fits in every commit, and then every stored body reads back from what it holds |
| `AdapterRuns.OneKindFitsIff` | primitives/database/src/kvdb.rs:68-109 | a commit of imports only, or of prunings only, fits if and only if it names no hash twice |
| `AdapterRuns.TwoPruningsReleaseTwice` | client/db/src/lib.rs:1442-1454 | finalising past two blocks that name a hash once each leaves the adapter with a reference that no body has |
| `AdapterRuns.RenewalWithPruning` | client/db/src/lib.rs:1480-1630 | importing a block that renews a hash, while the only other body naming it is pruned in the same commit, leaves the adapter without the value |
| `PinnedPruning.PinnedBlocksCache.Pin` | client/db/src/pinned_blocks_cache.rs:141-156 | one more reference, saturating, on a block that reads as before and is the most recent now; all other entries stay, but a new block in a full cache drives out the least recent one |
| `PinnedPruning.PinnedBlocksCache.Unpin` | client/db/src/pinned_blocks_cache.rs:214-221 | one reference less; the entry and its cached body go exactly with the last one, and every other entry stays |
| `PinnedPruning.PinnedBlocksCache.AttachBody` | client/db/src/pinned_blocks_cache.rs:169-186 | a block in the cache reads as the given body from now on, no other block is touched and no reference count changes |
| `PinnedPruning.PinEntrySpec` | client/db/src/pinned_blocks_cache.rs:141-156 | below the limit pinning evicts nothing and counts one reference on one entry |
| `PinnedPruning.PinEvicts` | client/db/src/pinned_blocks_cache.rs:141-156 | at the limit a new block drives out exactly the least recent entry |
| `PinnedPruning.UnpinEntrySpec` | client/db/src/pinned_blocks_cache.rs:214-221 | unpinning drops the entry exactly with its last reference and touches no other |
| `PinnedPruning.BodyStore.GetBody` | client/db/src/lib.rs:696-703 | reads the cached body if there is one, else the stored one |
| `PinnedPruning.BodyStore.NoteFinalized` | client/db/src/lib.rs:1326-1343 | refuses what is not next; otherwise the block is final, exactly the body that far below it is gone, and pinned blocks read as before |
| `PinnedPruning.BodyStore.PruneBlocks` | client/db/src/lib.rs:1800-1834 | removes exactly the body max(N, 1) below the finalised block, after copying it to the cache if it is pinned, so that pinned blocks read as before |
| `PinnedPruning.SequentialMeans` | client/db/src/lib.rs:1326-1343 | the test passes if and only if the block is next or only genesis is finalised |
| `PinnedPruning.FirstIsFirst` | client/db/src/lib.rs:1326-1343 | the first block finalised in a run is the first number above zero among its finalisations |
| `PinnedPruning.RunFollowsOps` | client/db/src/lib.rs:1800-1834 | over any run the finalised number is the last one finalised, the chain is what was imported, stored bodies are those imported, and each block has as many references as pins left |
| `PinnedPruning.FinalizeKeepsInv` | client/db/src/lib.rs:1800-1834 | a finalisation keeps the window exact and every pinned block reading as it did |
| `PinnedPruning.BodiesAfterRun` | client/db/src/lib.rs:1808-1834 | after any run the database holds exactly the imported blocks, with the bodies they were imported with, that are above the last number finalised less max(N, 1), or that far below the first one finalised |
| `PinnedPruning.LastBodiesRemain` | client/db/src/lib.rs:1808-1834 | of the blocks up to the last number finalised exactly the last max(N, 1) are stored if and only if the first number finalised above zero is at most max(N, 1) |
| `PinnedPruning.OneByOneKeepsTheLast` | client/db/src/lib.rs:1808-1834 | finalising one by one leaves exactly the last max(N, 1) bodies of the blocks up to the last number finalised, whatever happens in between |
| `PinnedPruning.SkippingLeavesABody` | client/db/src/lib.rs:1331-1341 | a first finalisation that skips a block is accepted and leaves a body outside the window |
| `PinnedPruning.PinnedBodyIsStable` | client/db/src/lib.rs:2486-2527 | while a block stays pinned, with at most 1024 distinct pins, it reads as the same body through any run, also after its body was removed |
| `PinnedPruning.PinnedReadsAsImported` | client/db/src/lib.rs:1811-1834 | a block pinned while it is in the window reads as the body it was imported with for as long as it stays pinned, whatever is finalised meanwhile |
| `GossipEngine.PopKeeps` | client/network-gossip/src/bridge.rs:251-263 | taking an item, or skipping one nobody listens to, keeps every open sink exactly served |
| `GossipEngine.CheckKeeps` | client/network-gossip/src/bridge.rs:265-277 | polling a sink keeps the invariant, and a full one puts the item back first in the queue |
| `GossipEngine.FilterKeeps` | client/network-gossip/src/bridge.rs:279-285 | exactly the open sinks of the topic stay registered, and the invariant holds |
| `GossipEngine.MaintainCleans` | client/network-gossip/src/bridge.rs:307-315 | the periodic clean-up leaves exactly the open sinks registered, and no topic without any |
| `GossipEngine.SendKeeps` | client/network-gossip/src/bridge.rs:292-302 | a send reaches a sink with room, adds exactly this item to exactly this sink, and leaves the others ready |
| `GossipEngine.SubscribeKeeps` | client/network-gossip/src/bridge.rs:132-149 | a new subscriber is given the stored messages of its topic and no others, is registered and served from then on, and no other sink changes |
| `GossipEngine.StepKeepsInv` | client/network-gossip/src/bridge.rs:181-318 | every access of the loop, and every drain or drop of a receiver between two accesses, keeps the invariant |
| `GossipEngine.DeliveredExactly` | client/network-gossip/src/bridge.rs:251-303 | at any point of any run each open sink holds what it was given at registration and then exactly the messages of its topic dealt with since, once each and in order; all of them when the engine is idle; the messages are all that the network delivered, in order |
| `GossipEngine.NeverPanics` | client/network-gossip/src/bridge.rs:296-298 | the full-sink branch declared unreachable is never reached |
| `GossipEngine.NoEventWhileBusy` | client/network-gossip/src/bridge.rs:186-192 | a network event is taken only when everything accepted before has been dealt with |
| `GossipEngine.PollEndsIff` | client/network-gossip/src/bridge.rs:189-277 | polling ends if and only if both event streams are pending or a full, open sink of the item's topic is met, and then the item is first in the queue again |
| `GossipEngine.LoopAdvances` | client/network-gossip/src/bridge.rs:251-303 | every access of the loop deals with such an item or comes one step closer to it |
| `GossipEngine.ReadyItemIsDealtWith` | client/network-gossip/src/bridge.rs:251-303 | progress: when the subscribers of the next item have room, every run deals with the item once the loop has made a bounded number of accesses, whatever receivers do in between and whichever sinks fill up |
| `GossipEngine.LoopCanMove` | client/network-gossip/src/bridge.rs:251-303 | until then the loop always has a next access |
| `GossipEngine.QueueIsWorkedOff` | client/network-gossip/src/bridge.rs:251-303 | progress of the whole queue: while no send fills a sink, the loop is idle again after a bounded number of accesses, whatever receivers do in between |
| `GossipSubscriptions.RunStaysFaithful` | client/network-gossip/src/bridge.rs:132-149 | over any run the stored messages are accepted ones, or the node's own, each position at most once and in order |
| `GossipSubscriptions.StoredIff` | client/network-gossip/src/state_machine.rs:209-315 | over any run a message that arrived is stored if and only if it was to be kept and no clean-up since then expired it |
| `GossipSubscriptions.OwnStoredIff` | client/network-gossip/src/state_machine.rs:209-315 | over any run a message of the node's own is stored if and only if it was registered and no clean-up since then expired it |
| `GossipSubscriptions.ReceivedHowOften` | client/network-gossip/src/bridge.rs:132-149 | for any runs before and after a subscription, each message of the topic dealt with reached the subscriber once if it was stored at the time plus once if it was not yet dealt with; so twice if and only if it was stored and still queued, and at most once if the engine was idle |
| `GossipSubscriptions.QueuedComesTwice` | client/network-gossip/src/bridge.rs:132-149 | a run in which a subscriber receives the same message twice |
| `ConsensusGossip.LoggedTracked` | client/network-gossip/src/state_machine.rs:141 | sending to or hearing from a peer keeps what it is known to have exact |
| `ConsensusGossip.SweptTracked` | client/network-gossip/src/state_machine.rs:312-314 | a garbage collection keeps what a peer is known to have exact |
| `ConsensusGossip.ApplyTracked` | client/network-gossip/src/state_machine.rs:194-493 | every operation, with any eviction, keeps what all peers are known to have exact |
| `ConsensusGossip.MemoryIsExact` | client/network-gossip/src/state_machine.rs:102-153 | over every run, with any evictions and collections: a peer is known to have a message if and only if some exchange of it in the connection was followed only by collections that found it in the cache; and a message is broadcast after an earlier exchange only if a collection in between did not |
| `ConsensusGossip.SendAllExact` | client/network-gossip/src/state_machine.rs:117-151 | a list sent without force adds a broadcast of a message to the log if and only if the peer lacks it and the validator allows an entry with it; by force, if and only if it allows one; and nothing else becomes known |
| `ConsensusGossip.BroadcastIff` | client/network-gossip/src/state_machine.rs:102-153 | in every reachable state, propagation broadcasts a message to a peer if and only if every earlier exchange of it in the connection was forgotten by a later collection and the validator allows it |
| `ConsensusGossip.PropagateReaches` | client/network-gossip/src/state_machine.rs:102-153 | propagation newly sends every connected peer every message it is allowed and lacks |
| `ConsensusGossipOps.OperationSends` | client/network-gossip/src/state_machine.rs:253-471 | topic broadcast, rebroadcast, multicast and topic sending send to each connected peer exactly what they offer, what the validator allows and, without force, what the peer is not known to have; a rebroadcast repeats exactly what is allowed |
| `ConsensusGossipOps.OperationBroadcastsIff` | client/network-gossip/src/state_machine.rs:102-153 | in every reachable state an operation without force broadcasts a message to a peer if and only if it offers an allowed entry with it and every earlier exchange of it was forgotten |
| `ConsensusGossipOps.DirectMessageIsLogged` | client/network-gossip/src/state_machine.rs:474-490 | a message sent directly is recorded for its peer, who is known to have it, and for nobody else |
| `ConsensusGossipOps.OwnMessageIsStored` | client/network-gossip/src/state_machine.rs:209-233 | a message of the upper layer that is not known is stored under its topic, and nothing stored goes |
| `ConsensusGossipOps.SenderHasItsMessages` | client/network-gossip/src/state_machine.rs:345-409 | after a batch its sender is known to have exactly what it had and those of its messages that were known or to be processed; no other peer is concerned |
| `ConsensusGossipOps.KeptMessageIsStored` | client/network-gossip/src/state_machine.rs:345-409 | a new message that is to be kept is stored under the validator's topic |
| `ConsensusGossip.UncollectedBroadcastsAreFresh` | client/network-gossip/src/state_machine.rs:102-153 | until the first collection of a connection, even with eviction, a message is never broadcast to the peer after any earlier exchange of it |
| `ConsensusGossip.NewMessageGoesUp` | client/network-gossip/src/state_machine.rs:345-409 | a message of a batch from a connected peer, wanted by the validator, unknown and not repeated in the batch, is handed to the upper layer by this batch, whatever the cache evicts |
| `ConsensusGossip.CollectCached` | client/network-gossip/src/state_machine.rs:290-315 | garbage collection makes no peer forget a message it was sent, sent twice, or sent and we kept |
| `ConsensusGossip.ApplyCached` | client/network-gossip/src/state_machine.rs:194-493 | every operation that evicts nothing keeps stored and kept messages in the cache |
| `ConsensusGossip.BroadcastsAreFresh` | client/network-gossip/src/state_machine.rs:102-153 | over any run without eviction a message is broadcast to a peer at most once per connection, and never to one it was accepted from and kept, or that sent it as a duplicate |
| `ConsensusGossip.RunDiscardsIff` | client/network-gossip/src/state_machine.rs:345-409 | a message is discarded after acceptance in a run if and only if some operation accepts it unknown with a verdict that does not keep it |
| `ConsensusGossip.KeptMessagesGoUpOnce` | client/network-gossip/src/state_machine.rs:327-412 | over any run without eviction a kept message goes up once more than it was accepted and discarded, never again after it was kept, and so exactly once if and only if no operation accepts it without keeping it |
| `ConsensusGossip.OnceIfNeverDiscarded` | client/network-gossip/src/state_machine.rs:374-386 | if the validator never asks for a message to be processed and discarded, it goes up once at most |
| `ConsensusGossip.KeptAfterDiscardGoesUpTwice` | client/network-gossip/src/state_machine.rs:374-408 | a message discarded first and kept later goes up twice, without any eviction |
| `ConsensusGossip.DiscardedComesBack` | client/network-gossip/src/state_machine.rs:312-314 | after a collection a message accepted but not kept is broadcast back to its sender |
| `ConsensusGossipObject.Gossip.NewPeer` | client/network-gossip/src/state_machine.rs:194-207 | a connection starts with nothing remembered about the peer, concerns no other, and keeps what is known exact |
| `ConsensusGossipObject.Gossip.PeerDisconnected` | client/network-gossip/src/state_machine.rs:236-241 | a peer that left is not tracked and no other is concerned |
| `ConsensusGossipObject.Gossip.RegisterMessageHashed` | client/network-gossip/src/state_machine.rs:209-223 | the message is in the cache from now on and stored if it was not; nothing stored goes, the cache stays within its size, and only a full one gives up a hash |
| `ConsensusGossipObject.Gossip.SendToPeer` | client/network-gossip/src/state_machine.rs:117-151 | the inner loop sends each message of the list by the rule for its intent |
| `ConsensusGossipObject.Gossip.Propagate` | client/network-gossip/src/state_machine.rs:102-153 | the nested loops, with peers in any order, give every peer the same as the model |
| `ConsensusGossipObject.Gossip.BroadcastTopic` | client/network-gossip/src/state_machine.rs:269-286 | exactly the topic's messages are propagated |
| `ConsensusGossipObject.Gossip.Rebroadcast` | client/network-gossip/src/state_machine.rs:253-266 | all messages are propagated with rebroadcast intent |
| `ConsensusGossipObject.Gossip.Multicast` | client/network-gossip/src/state_machine.rs:452-470 | the message is registered and propagated |
| `ConsensusGossipObject.Gossip.SendTopic` | client/network-gossip/src/state_machine.rs:415-449 | exactly the topic's messages go to the one peer, if it is connected |
| `ConsensusGossipObject.Gossip.ReceiveOne` | client/network-gossip/src/state_machine.rs:345-409 | one message of a batch, with its early exits, computes the model and returns what goes up |
| `ConsensusGossipObject.Gossip.OnIncoming` | client/network-gossip/src/state_machine.rs:327-412 | the loop over the batch computes the model's and returns exactly what it adds to the upper layer's messages |
| `ConsensusGossipObject.Gossip.Retain` | client/network-gossip/src/state_machine.rs:295 | the loop keeps exactly the messages that are not expired, in order |
| `ConsensusGossipObject.Gossip.CollectGarbage` | client/network-gossip/src/state_machine.rs:290-315 | exactly the expired messages go, every peer forgets exactly what is not in the cache, and both invariants are kept |
| `BlockProposal.BlockBuilder.Push` | client/block-builder/src/lib.rs:199-224 | the extrinsic is in the block and its effect committed if and only if it was applied; otherwise everything is as before |
| `BlockProposal.PushGrowth` | client/block-builder/src/lib.rs:279-287 | one more extrinsic grows the size estimate by its own size and at most two bytes, with the exact list lengths at which the prefix grows |
| `BlockProposal.SoftDeadline` | client/basic-authorship/src/basic_authorship.rs:412-416 | the given percentage of the time left, rounded down, from now |
| `BlockProposal.ExamineKeeps` | client/basic-authorship/src/basic_authorship.rs:442-528 | one round keeps the size bound, the skip count and the record of fates |
| `BlockProposal.ProposalBounds` | client/basic-authorship/src/basic_authorship.rs:404-539 | for every pool, clock and runtime: the final estimate without proof is at most max(estimate before, limit + 2); with a clock that never goes back at most nine overflow or exhausted transactions are met at or after the soft deadline; nothing is examined after the deadline; the block is exactly the pushed transactions in pool order, and the runtime executed exactly those |
| `BlockProposal.FatesAreRight` | client/basic-authorship/src/basic_authorship.rs:462-527 | each examined transaction is pushed, skipped or reported invalid exactly as the size limit and the runtime decide, given those pushed before it |
| `BlockProposal.GivesUpForCause` | client/basic-authorship/src/basic_authorship.rs:449-517 | the loop ends on a full block only at a ninth or later misfit at or after the soft deadline, and on the deadline only when the clock has passed it |
| `BlockProposal.ExaminedSplits` | client/basic-authorship/src/basic_authorship.rs:442-537 | the finished loop has examined a prefix of the pool, all of it unless it gave up, and that prefix splits into the transactions in the block, those skipped and those reported invalid, each with the fate the limit and the runtime decide |
| `BlockProposal.Round` | client/basic-authorship/src/basic_authorship.rs:449-527 | one round of the loop body, on the builder in place, computes the model's round |
| `BlockProposal.ApplyExtrinsics` | client/basic-authorship/src/basic_authorship.rs:404-539 | the loop ends with the model's result and reason, and unqueues exactly the hashes of the invalid transactions in order |

## Left out

- RunFromNewIsGood: the rules for callers of an allocator that is not poisoned are that the guest frees only live pointers and writes no header word, and that no request ends at exactly 2^32; nothing is claimed for guests that break them.
- Allocator: which error text accompanies an error, logging, and panics of a debug build on arithmetic overflow (a release build's wrap-around is modelled); whether the host agrees to grow is a parameter.
- Linearizable: plain `set` and `remove` do not take the key lock and are not part of the interleavings; commits are assumed to succeed.
- LeavesAreChildlessBlocks: whether a block's state is available is a parameter of a removal; commits are assumed to succeed, and reading the leaf set back from disk is not modelled.
- IndexIsAlwaysTheBestChain: the code does not test that a finalised block is on the best chain; here a finalised block is. That a removed block is a leaf is its having no known child, which `LeafTree` shows to be the leaf set's view. Detached imports, block-gap filling, operations that import a best block and set another head, and the metadata column are not modelled.
- CountsAndBodiesAreExact, AdapterCountsIff, AdapterHoldsIff: no forks, each body pruned at most once, a hash determines its content, renewed hashes are stored; overflow of a u32 count and the encoding of the index list are not modelled.
- BodyUncached: the plain body stored as one blob is read by one decoding call and not modelled; a decoder is any strategy of reads and length queries, with a bound on their number per input.
- PinnedBodyIsStable: one chain without forks; justifications in the cache and the state database's own pins are not modelled.
- GossipEngine: `poll` is modelled as one transition per access to a channel rather than as a method, because receivers act between two accesses; events that only change peers are one transition that forwards nothing.
- ConsensusGossip: peer reputation reports, the validator's calls back into the gossip state, metrics, and which entry the cache evicts (a parameter, as is what it reports for a hash it already has).
- BlockProposal: waiting for the pool, inherents, and building the final block; the size of the storage proof is a function of the runtime's state.
- Backend `revert`, forced canonicalisation, re-import with state and pruning of displaced forks: they rest on the state database.
- The in-memory backend's `apply_head`, MMR gadget, authority discovery, executor, keystore, chain specification, command line, telemetry, metrics, database opening and upgrade.
