# Verified models of the container and allocator core

This project models eight fast, mutable data structures of the library in Dafny and proves
that each one does what its short abstract description says, for every input and every run:

* **Offset allocators.** A pool hands out integer offsets into one buffer. The thread-cached pool
  (`ThreadCache`, `ThreadPool`, `ThreadCalls`) is a step relation over any number of threads that share the end of
  the used part by compare-and-swap; its invariant gives every byte exactly one owner,
  and whole calls are shown to give what they promise over every interleaving. The
  single-threaded pool (`SkipList`, `LockNone`) is modelled down to the words of the buffer: free
  lists by length and the size-ordered skip list live inside the freed blocks.
* **Adaptive radix tree** (`ArtLayout`, `ArtTree`, `ArtMap`): four node layouts, path compression with
  ten stored bytes, optimistic search, pessimistic insert. It agrees with a finite map on every run.
* **Hash tables linked by slot number** (`GoldHash`, `StrMap`): chains, in-slot free lists, the element
  that moves into the hole, order-preserving compaction, and a string map whose keys are packed in a
  byte pool.
* **Multi-way merge** (`LoserTree`, `MultiWay`, `HeapMerge`): the loser tree with its bottom-up build and
  replay, the set algorithms on top of it, and the hole-based heap. Both merges give the same output.
* **Radix sort by linked lists** (`RadixSort`): least significant character first, keys of any length,
  then the in-place permutation along its cycles.
* **Bit-packed vectors** (`Words`, `BitVector`): word-addressed set and get, the byte-addressed fast get
  with its arithmetic bound, and the streaming builder.
* **Prefix comparator** (`KeyCompare`): cached big-endian prefix, then length, then words, is byte-wise order.

Each component has a specification that does not mention its own steps (a partition of bytes, a map, a
sorted permutation, a sequence of numbers) and an invariant tied to it; operations are methods or
functions proved to keep the invariant and to move the specification as promised. Arrays that the
source reallocates are sequences held in fields; ghost fields give the abstract value.

Conventions: `Now()` is the record of all fields of an object, `Valid()` its invariant. Values that come
from outside the modelled code are parameters: hash functions, the next prime and the load guard after a
rehash, random levels, the byte that happens to lie behind a key, thread scheduling and spurious
compare-and-swap failure.

Three properties hold only under conditions that the proofs make exact:

* The byte-addressed get is right for an entry exactly if the entry does not straddle nine bytes
  (`BitVectors.FastGetExact`), and for every entry of a width exactly if the width is at most 58, or 60,
  or 64 (`BitVectors.FastGetWidths`). For any other entry memory of ones is a failing input
  (`BitVectors.FastGetWrong`).
* `intersection_n`, which the public `intersection` runs on more than 32 ways, emits a key exactly if it
  occurs as often, over all ways together, as there are ways. Its output is the intersection exactly if
  every key below the guard that occurs in all ways occurs once in each, and every other key another number
  of times than there are ways (`MultiWayAlgorithms.IntersectionExact`); ways without repeated keys meet
  this (`MultiWayAlgorithms.DistinctExact`). For every number of ways above one there are inputs that add a key and
  inputs that drop one (`MultiWayAlgorithms.RepeatsAddKey`, `MultiWayAlgorithms.RepeatsDropKey`).
  `Intersection32` needs no such condition.
* `sync_frag_size` reads and clears the counters of other threads and adds to the shared counter without an
  atomic instruction. If other threads run meanwhile, the counters still add up exactly if those threads
  leave the shared counter plus the increment of the thread being synchronised as it was
  (`ThreadPool.TornSyncExact`); one free by that thread that does not go back to its hot area is enough to
  lose its bytes (`ThreadPool.TornByFree`).

## Model

| member | source | states |
|---|---|---|
| ThreadCache.SfreeKeeps | src/terark/mempool_thread_cache.hpp:359-423 | freeing a block keeps the cache's shape: bins hold blocks of their own length, the huge list stays sorted by size and above the bin limit |
| ThreadCache.SfreeConserves | src/terark/mempool_thread_cache.hpp:359-423 | for every measure (bytes, or ownership of one byte) freeing adds exactly the block to what the thread holds |
| ThreadCache.SfreeCounts | src/terark/mempool_thread_cache.hpp:359-423 | the fragment and huge counters move by exactly what enters the lists, and what is flushed to the shared counter leaves the thread's own |
| ThreadCache.TakeLargestConserves | src/terark/mempool_thread_cache.hpp:172-218 | making the largest huge block the hot area gives out exactly the request and keeps every other byte |
| ThreadCache.SplitHugeConserves | src/terark/mempool_thread_cache.hpp:248-282 | splitting a huge block gives out the request and keeps the remainder |
| ThreadCache.SplitHugeCounts | src/terark/mempool_thread_cache.hpp:258-282 | the fragment counter exceeds the listed bytes by exactly the remainder of each split, so it never wraps |
| ThreadCache.AllocKeeps | src/terark/mempool_thread_cache.hpp:109-319 | every allocation path keeps the shape of the cache |
| ThreadCache.AllocConserves | src/terark/mempool_thread_cache.hpp:109-319 | what the thread holds plus the block given out is what it held before, byte by byte; a failure changes nothing |
| ThreadCache.AllocCounts | src/terark/mempool_thread_cache.hpp:111-158 | the per-thread counters stay tied to the listed bytes and the pending increment stays within its bound |
| ThreadCache.AllocSucceeds | src/terark/mempool_thread_cache.hpp:109-319 | a failure means that neither the hot area, nor any huge block, nor the bin of that length could serve the request |
| ThreadCache.Alloc3Ok | src/terark/mempool_thread_cache.hpp:321-357 | a change of length trades the old block for the new one and nothing else; it fails only when growing, leaving all as it was |
| ThreadCache.SetHotAreaOk | src/terark/mempool_thread_cache.hpp:425-443 | installing a chunk keeps the old hot area's bytes and leaves room for the request |
| ThreadCache.SmallChoice | src/terark/mempool_thread_cache.hpp:111-219 | a fastbin request takes an exact free block if there is one, else the lower half of one twice the size, else room in the hot area, else the largest huge block, whose rest replaces the hot area |
| ThreadCache.HugeChoice | src/terark/mempool_thread_cache.hpp:221-316 | a larger request takes a smallest fitting huge block if there is one, freeing what is left over, and only then room in the hot area |
| ThreadCache.SfreeChoice | src/terark/mempool_thread_cache.hpp:359-423 | a freed block goes back to the hot area if it ends where that begins, else to the head of the list of its length, else among the huge blocks by size |
| ThreadCache.Alloc3Choice | src/terark/mempool_thread_cache.hpp:321-357 | a block before the hot area is resized in place as far as that reaches; no shorter or equal length moves |
| ThreadCache.SetHotAreaChoice | src/terark/mempool_thread_cache.hpp:425-443 | a chunk that continues the hot area is appended, any other replaces it and the rest of the old one is freed |
| ThreadCache.FlushLate | src/terark/mempool_thread_cache.hpp:416-422 | the shared counter is touched only when the pending increment passes 256 KiB, and then takes all of it |
| ThreadPool.ChunkLenOk | src/terark/mempool_thread_cache.hpp:598-618 | the chunk computed from the end read is at least the request and ends within capacity |
| ThreadPool.ChunkLenIs | src/terark/mempool_thread_cache.hpp:603-618 | the chunk is the run of whole arenas up to an arena boundary if that fits, else the rest of the capacity if the request fits there, else none; the run is described by its two ends, not by rounding |
| ThreadPool.ArenaRunExists | src/terark/mempool_thread_cache.hpp:604-610 | there is such a run for every end and request |
| ThreadPool.ArenaRunUnique | src/terark/mempool_thread_cache.hpp:604-610 | and only one |
| ThreadPool.NoChunkIff | src/terark/mempool_thread_cache.hpp:611-615 | no chunk is found exactly if the request does not fit into what is left of the capacity |
| ThreadPool.SwapKeeps | src/terark/mempool_thread_cache.hpp:603-618 | a compare-and-swap that wins reserves a chunk no other thread owns; one that loses, for any reason, changes nothing |
| ThreadPool.InstallKeeps | src/terark/mempool_thread_cache.hpp:620-621 | a reserved chunk becomes its thread's hot area whatever other threads did in between |
| ThreadPool.SecondTrySucceeds | src/terark/mempool_thread_cache.hpp:659-664 | the allocation after a successful chunk reservation cannot fail |
| ThreadPool.StepKeeps | src/terark/mempool_thread_cache.hpp:598-711 | every step of every thread keeps the invariant, and the end of the used part never shrinks |
| ThreadPool.EveryRunIsSafe | src/terark/mempool_thread_cache.hpp:598-711 | every state reached by any interleaving of any number of threads satisfies the invariant |
| ThreadPool.RunsContinue | src/terark/mempool_thread_cache.hpp:598-711 | runs are closed under enabled steps and stay within capacity |
| ThreadPool.LiveBlocksApart | src/terark/mempool_thread_cache.hpp:636-711 | in every reachable state live blocks do not overlap |
| ThreadPool.LiveBlockInside | src/terark/mempool_thread_cache.hpp:636-711 | in every reachable state every live block is inside the used part, and that inside the capacity |
| ThreadPool.LiveBytesNotFree | src/terark/mempool_thread_cache.hpp:359-443 | no byte of a live block is on any thread's list, in any hot area or in a reserved chunk |
| ThreadPool.FragmentCounters | src/terark/mempool_thread_cache.hpp:414-423 | in every reachable state the shared counter plus all pending increments is the sum of the per-thread counters, none is negative, and no per-thread counter is below its listed bytes |
| ThreadPool.SyncAll | src/terark/mempool_thread_cache.hpp:521-526 | with the other threads kept still, the loop over all threads leaves nothing pending: the shared counter is the sum of the per-thread counters, which are unchanged |
| ThreadPool.TornSyncExact | src/terark/mempool_thread_cache.hpp:521-526 | with other threads running between its loads and its stores, the invariant survives one turn of the loop exactly if they left counter plus increment of that thread as it was |
| ThreadPool.TornByFree | src/terark/mempool_thread_cache.hpp:521-526 | one free by that thread in between loses exactly the bytes that enter its free lists |
| ThreadCalls.RunReaches | src/terark/mempool_thread_cache.hpp:598-711 | a run from a reachable state ends in a reachable state |
| ThreadCalls.LoadStep | src/terark/mempool_thread_cache.hpp:603-616 | the load goes on exactly if the request fits; otherwise the call ends and gives the block of a reallocation back |
| ThreadCalls.MiddleStep | src/terark/mempool_thread_cache.hpp:617-621 | a swap reserves unless it fails spuriously or the end has moved since the load; it and the installation change nothing for the callers |
| ThreadCalls.AgainStep | src/terark/mempool_thread_cache.hpp:659-688 | the last step always serves the request, and a reallocation's old block is the thread's afterwards, byte by byte |
| ThreadCalls.FreeStep | src/terark/mempool_thread_cache.hpp:694-711 | a free takes exactly that block from the callers, and every byte of it is the thread's |
| ThreadCalls.PendingRun | src/terark/mempool_thread_cache.hpp:653-691 | a call that has asked the pool, over every interleaving: still asking with the callers' blocks unchanged, served with exactly one more block, or ended because the capacity does not suffice |
| ThreadCalls.AllocateCall | src/terark/mempool_thread_cache.hpp:637-664 | the same for a whole allocation from its first step |
| ThreadCalls.ReallocCall | src/terark/mempool_thread_cache.hpp:666-692 | a whole reallocation over every interleaving: apart from what the others did the old block is replaced by one of the new length and its other bytes are the thread's, or it is back with the callers because the capacity does not suffice |
| ThreadCalls.AllocateAlone | src/terark/mempool_thread_cache.hpp:637-664 | left alone, an allocation ends after at most five steps, with a block if the thread can serve it or the capacity suffices and without a change for the callers otherwise |
| ThreadCalls.ReallocAlone | src/terark/mempool_thread_cache.hpp:666-692 | the same for a reallocation, which never fails for a shorter or equal length |
| SkipList.Search | src/terark/mempool_lock_none.hpp:262-270 | on every level the place whose link crosses the requested size, and the first block that is large enough if there is one |
| SkipList.SmallestFit | src/terark/mempool_lock_none.hpp:271-286 | that block is a smallest one that fits; otherwise none fits |
| SkipList.Insert | src/terark/mempool_lock_none.hpp:352-373 | for any random level the words form a valid skip list with the block added in size order, and words outside its blocks are untouched |
| SkipList.Remove | src/terark/mempool_lock_none.hpp:276-280 | the words form a valid skip list without the block, with its height exact, and words outside its blocks are untouched |
| SkipList.HeadsAbove | src/terark/mempool_lock_none.hpp:279-280 | heads above the height are empty |
| SkipList.EmptyIff | src/terark/mempool_lock_none.hpp:279-280 | the height is zero exactly if the list is empty |
| SkipList.LevelInserted | src/terark/mempool_lock_none.hpp:368-372 | redirecting the one crossing link of a level puts the new block on that level and changes no other link |
| SkipList.LevelRemoved | src/terark/mempool_lock_none.hpp:276-278 | redirecting the one crossing link of a level takes the block off that level |
| LockNone.EveryWord | src/terark/mempool_lock_none.hpp:234-378 | in a tiled pool every word of the used part belongs to exactly one block |
| LockNone.FreeSmall | src/terark/mempool_lock_none.hpp:342-349 | pushing a block on the list of its length keeps the pool valid and every live block's words |
| LockNone.FreeHuge | src/terark/mempool_lock_none.hpp:350-376 | inserting a block in the skip list keeps the pool valid and every live block's words |
| LockNone.TakeBin | src/terark/mempool_lock_none.hpp:239-250 | the head of the list of the requested length is free, has that length, and can be taken |
| LockNone.TakeHuge | src/terark/mempool_lock_none.hpp:271-280 | unlinking a block from the skip list makes it live and keeps the rest valid |
| LockNone.MemPool.Sfree | src/terark/mempool_lock_none.hpp:330-378 | live and free blocks still tile the used part, exactly the block stops being live, the used part shrinks exactly if the block was its last one, and no word of another live block changes |
| LockNone.MemPool.Alloc | src/terark/mempool_lock_none.hpp:234-295 | a block that was not live, of the requested length; an exact or smallest fitting free block if any fits, and the end of the used part otherwise; the blocks and the end afterwards are given exactly; no live word changes |
| LockNone.MemPool.AllocHuge | src/terark/mempool_lock_none.hpp:259-294 | the pool grows only if no free block is large enough |
| LockNone.MemPool.TakeAndSplit | src/terark/mempool_lock_none.hpp:271-286 | the block found is cut to the request and the rest becomes free again |
| LockNone.MemPool.Alloc3 | src/terark/mempool_lock_none.hpp:297-328 | the last block is resized in place and moves the end; another one stays if it does not grow, its end becoming free; otherwise it moves to where an allocation would put it, its old range becoming free; the first words, as many as fit, are kept, and other live blocks are untouched |
| LockNone.MemPool.constructor | src/terark/mempool_lock_none.hpp:88-103 | an empty pool is valid and has no live block |
| ArtLayout.AddChildOk | 3rdparty/libart/art.c:383-526 | adding a child changes the lookup of its byte only, in every layout and through every growth; the child count is kept modulo 256 |
| ArtLayout.RemoveChildOk | 3rdparty/libart/art.c:650-757 | removing a child changes the lookup of its byte only, through every shrink; counts stay in range, except that a Node4 may be left with one child |
| ArtLayout.AddChildRoom | 3rdparty/libart/art.c:383-526 | a layout gives way to the next larger one exactly when it is full |
| ArtLayout.RemoveChildRoom | 3rdparty/libart/art.c:650-757 | a layout gives way to the next smaller one exactly when 3, 12 or 37 children are left |
| ArtLayout.Grow4Ok | 3rdparty/libart/art.c:494-507 | growth from 4 to 16 keeps prefix and lookups |
| ArtLayout.Grow16Ok | 3rdparty/libart/art.c:459-475 | growth from 16 to 48 keeps prefix and lookups |
| ArtLayout.Grow48Ok | 3rdparty/libart/art.c:396-407 | growth from 48 to 256 keeps prefix and lookups |
| ArtLayout.Shrink16Ok | 3rdparty/libart/art.c:697-711 | shrinking to 4 keeps prefix and lookups |
| ArtLayout.Shrink48Ok | 3rdparty/libart/art.c:673-695 | shrinking to 16 keeps prefix and lookups, with keys sorted |
| ArtLayout.Shrink256Ok | 3rdparty/libart/art.c:650-671 | shrinking to 48 keeps prefix and lookups, every index naming its own slot |
| ArtLayout.FirstChildOk | 3rdparty/libart/art.c:294-318 | the first child of each layout is the child at the smallest byte present |
| ArtTree.Search | 3rdparty/libart/art.c:262-291 | the answer is the value stored for the key, or none, whatever byte an access behind the key's end yields |
| ArtTree.MinimumLeast | 3rdparty/libart/art.c:294-318 | the minimum of a subtree is one of its entries, and every other entry's key is greater in unsigned byte order |
| ArtTree.FindOk | 3rdparty/libart/art.c:262-291 | the descent from any node finds the value stored below it for the key, or none if there is none, whatever an access behind the key's end yields |
| ArtTree.MismatchOk | 3rdparty/libart/art.c:528-547 | the mismatch computed from ten stored bytes and the smallest leaf is the true point where the key leaves the full prefix |
| ArtTree.SplitLeafOk | 3rdparty/libart/art.c:556-584 | a leaf with another key becomes a well-formed node holding exactly both entries |
| ArtTree.SplitNodeOk | 3rdparty/libart/art.c:595-630 | splitting a compressed path keeps the true prefix lengths and stored bytes on both sides and adds exactly the new entry |
| ArtTree.InsertOk | 3rdparty/libart/art.c:549-648 | insertion below any node keeps the tree well formed, maps the key to the value, changes no other entry, and returns the old value |
| ArtTree.JoinedOk | 3rdparty/libart/art.c:721-738 | the bytes stored after merging two prefixes are the first ten of the joined prefix |
| ArtTree.CollapseOk | 3rdparty/libart/art.c:713-742 | a node with one child is replaced by that child with a correct prefix and the same entries |
| ArtTree.DeleteOk | 3rdparty/libart/art.c:759-800 | deletion keeps the tree well formed, removes exactly the key, and returns its value, whatever bytes lie behind the key |
| ArtTree.EntriesOk | 3rdparty/libart/art.c:821-867 | the walk lists exactly the stored entries, in strictly ascending unsigned byte order |
| ArtMap.RecursiveIter | 3rdparty/libart/art.c:821-867 | the callback is called on the entries in that order, each call with the state the one before left; all answers before the last are zero, the last one is the result, and only a non-zero one ends the walk early |
| ArtMap.WalkUnique | 3rdparty/libart/art.c:821-867 | state and result of such a walk are determined |
| ArtMap.StepAgrees | 3rdparty/libart/art.c:643-648 | one insertion, deletion or search: tree, size and answer follow a finite map |
| ArtMap.RunAgrees | 3rdparty/libart/art.c:262-818 | over every run of insertions, deletions and searches with prefix-free insertions all answers and the final contents are those of a finite map, whatever bytes each call finds behind its key |
| ArtMap.ArtTreeObject.Search | 3rdparty/libart/art.c:262-291 | lookup in the map the tree stands for |
| ArtMap.ArtTreeObject.Insert | 3rdparty/libart/art.c:643-648 | the map is updated, the old value returned, the size is the number of keys |
| ArtMap.ArtTreeObject.Delete | 3rdparty/libart/art.c:809-818 | the key leaves the map, its value is returned, the size is the number of keys |
| ArtMap.ArtTreeObject.Iter | 3rdparty/libart/art.c:879-881 | every entry of the map once, ascending, is such a walk, until the callback stops it |
| GoldHash.RelinkAll | src/terark/gold_hash_map.hpp:155-225 | rebuilt chains hold exactly the live slots, each in the bucket of its hash, once; free slots keep their mark |
| GoldHash.UnlinkSlot | src/terark/gold_hash_map.hpp:993-999 | the chain walk ends and takes exactly the slot out of its chain |
| GoldHash.LinkedAdd | src/terark/gold_hash_map.hpp:776-777 | prepending a slot keeps all chains acyclic, disjoint and complete |
| GoldHash.LiveAndFree | src/terark/gold_hash_map.hpp:785-809 | every slot is live or on the free list, never both |
| GoldHash.FreePush | src/terark/gold_hash_map.hpp:956-963 | pushing threads the slot as the new head of the free list |
| GoldHash.FreePop | src/terark/gold_hash_map.hpp:799-806 | popping takes the head and leaves the rest threaded |
| GoldHash.GoldHashTab.constructor | src/terark/gold_hash_map.hpp:135-153 | an empty table is valid with the shared dummy bucket |
| GoldHash.GoldHashTab.FindI | src/terark/gold_hash_map.hpp:879-889 | the live slot of the key, or the slot count if there is none; the walk ends |
| GoldHash.GoldHashTab.InsertI | src/terark/gold_hash_map.hpp:764-787 | a new key goes to the head of the free list or to the end, and no other slot changes its element; the table is rehashed exactly if the load guard is reached; a present key changes nothing |
| GoldHash.GoldHashTab.RiskSlotAlloc | src/terark/gold_hash_map.hpp:790-809 | the slot taken is free and all other slots are as they were |
| GoldHash.GoldHashTab.EraseI | src/terark/gold_hash_map.hpp:979-1031 | the last slot is dropped and the free list left alone; another one becomes the head of the free list if that is in use; otherwise the last element moves into it |
| GoldHash.GoldHashTab.Erase | src/terark/gold_hash_map.hpp:903-915 | erases the slot of the key if there is one and says so |
| GoldHash.GoldHashTab.MoveLast | src/terark/gold_hash_map.hpp:1008-1030 | the last element is relinked under the hole's number with its cached hash |
| GoldHash.GoldHashTab.Rehash | src/terark/gold_hash_map.hpp:401-424 | another bucket count, same slots, same elements |
| GoldHash.GoldHashTab.ReserveNodes | src/terark/gold_hash_map.hpp:432-450 | reallocation keeps the table |
| GoldHash.GoldHashTab.KeepidEraseIf | src/terark/gold_hash_map.hpp:708-728 | exactly the elements satisfying the predicate go, counted; all others keep their slot number |
| GoldHash.GoldHashTab.RevokeDeleted | src/terark/gold_hash_map.hpp:730-738 | slots are renumbered without gaps in their old order, chains and cached hashes are right for the new numbers |
| GoldHash.GoldHashTab.EnableFreelist | src/terark/gold_hash_map.hpp:746-751 | the free list is in use and the table unchanged |
| GoldHash.GoldHashTab.DisableFreelist | src/terark/gold_hash_map.hpp:753-758 | gaps are closed first, then the free list is off |
| GoldHash.CompactSlots | src/terark/gold_hash_map.hpp:927-953 | the two-index pass packs the live elements and their cached hashes in order |
| GoldHash.RankOf | src/terark/gold_hash_map.hpp:927-953 | compaction sends slot x to the number of live slots below x, so order is kept |
| GoldHash.FindRefines | src/terark/gold_hash_map.hpp:879-889 | lookup answers as the map would |
| GoldHash.InsertRefines | src/terark/gold_hash_map.hpp:764-787 | the table stands for the map with the key added |
| GoldHash.EraseRefines | src/terark/gold_hash_map.hpp:979-1031 | in every branch the table stands for the map without the erased key |
| GoldHash.CompactRefines | src/terark/gold_hash_map.hpp:927-953 | compaction does not change the map |
| StrMap.StoredKey | src/terark/hash_strmap.hpp:219-220 | the pad byte recovers a stored key exactly |
| StrMap.StoreKeyOk | src/terark/hash_strmap.hpp:1361-1363 | zeroing the last unit, setting the pad byte and copying the key stores it, padded with zero bytes, and touches no other slot |
| StrMap.PoolBytes | src/terark/hash_strmap.hpp:1255-1257 | live bytes plus free bytes are all bytes of the pool |
| StrMap.SetLinkOk | src/terark/hash_strmap.hpp:1408-1420 | a link written over an erased key's bytes reads back |
| StrMap.FreedOk | src/terark/hash_strmap.hpp:1408-1420 | freeing a slot files it under its length, long slots together, and keeps the free byte count |
| StrMap.TakeFast | src/terark/hash_strmap.hpp:1425-1441 | a slot from the list of its length has exactly that length and was erased |
| StrMap.TakeHuge | src/terark/hash_strmap.hpp:1442-1460 | taking a slot from the middle of the long list keeps the list and all other slots |
| StrMap.SearchHuge | src/terark/hash_strmap.hpp:1443-1459 | the first slot of exactly the length, or none has it |
| StrMap.RelinkAll | src/terark/hash_strmap.hpp:322-350 | chains rebuilt from the keys in the pool hold exactly the live slots |
| StrMap.Compact | src/terark/hash_strmap.hpp:1215-1258 | keys, values and offsets move down in order; the new pool length is the live bytes |
| StrMap.RevokedOk | src/terark/hash_strmap.hpp:1215-1276 | new pool length plus free bytes is the old pool length, and the table is valid again |
| StrMap.HashStrMap.constructor | src/terark/hash_strmap.hpp:181-206 | an empty map is valid |
| StrMap.HashStrMap.FindI | src/terark/hash_strmap.hpp:1376-1394 | the live slot whose packed key equals the key, or the slot count |
| StrMap.HashStrMap.InsertI | src/terark/hash_strmap.hpp:1332-1373 | a new key is stored and found under its slot, which is an erased one of exactly its length if the lists are in use and there is one, and a new one otherwise; other entries stay, or are renumbered in order exactly if the pool is full and the free bytes suffice; the table is rehashed exactly if the load guard is reached |
| StrMap.HashStrMap.AllocSlot | src/terark/hash_strmap.hpp:1422-1495 | an erased slot of exactly the length if the lists are in use and any erased slot has it, with end, offsets and pool length as before and the counters lowered; otherwise room at the end, after compacting the pool or enlarging it exactly when it is full |
| StrMap.HashStrMap.PoolRoom | src/terark/hash_strmap.hpp:1469-1490 | room for the slot; a compaction runs exactly if there are no lists, the pool is full and the free bytes cover the request and a quarter of the pool |
| StrMap.PoolCapacityOk | src/terark/hash_strmap.hpp:1477-1478 | an enlarged pool is the power of two next above five quarters of what is needed, or the limit |
| StrMap.HashStrMap.EraseI | src/terark/hash_strmap.hpp:1497-1538 | exactly the entry goes; the last slot shortens the pool, others go to the head of the list of their length or, without lists, wait for a compaction that runs exactly once half of the slots are erased |
| StrMap.HashStrMap.Rehash | src/terark/hash_strmap.hpp:743-766 | another bucket count, same entries in the same slots |
| StrMap.HashStrMap.RevokeDeleted | src/terark/hash_strmap.hpp:1267-1276 | counters reset, slots renumbered in order, pool shortened by exactly the free bytes |
| StrMap.InsertRefines | src/terark/hash_strmap.hpp:1332-1373 | the table stands for the map with the key added, compaction or not |
| StrMap.EraseRefines | src/terark/hash_strmap.hpp:1497-1528 | the table stands for the map without the key, compaction or not |
| KeyCompare.NumberOrder | src/terark/hash_strmap.hpp:1920-1928 | comparing big-endian numbers of equally long byte strings is comparing the strings |
| KeyCompare.ShortOrder | src/terark/hash_strmap.hpp:79-80 | with equal padded prefixes and one short key, the shorter key is smaller, zero bytes included |
| KeyCompare.PrefixOrder | src/terark/hash_strmap.hpp:77-78 | a smaller padded prefix means a smaller key |
| KeyCompare.LessAlign | src/terark/fstring.hpp:568-583 | word-wise comparison is byte-wise order |
| KeyCompare.ByteWiseLess | src/terark/hash_strmap.hpp:72-86 | the comparator is byte-wise lexicographic order on whole keys |
| LoserTrees.LoserTree.constructor | src/terark/set_op.hpp:642-661 | all cursors at the start, guards in place |
| LoserTrees.LoserTree.Start | src/terark/set_op.hpp:642-685 | the linear-time build gives a correct tournament whose head no way beats |
| LoserTrees.LoserTree.Increment | src/terark/set_op.hpp:739-745 | the head way advances by one and the tournament is correct again |
| LoserTrees.LoserTree.Adjust | src/terark/set_op.hpp:758-767 | replaying one path restores every stored loser and the head |
| LoserTrees.LoserTree.HeadIsMinimum | src/terark/set_op.hpp:811-844 | no way beats the head, in stable mode by key and then by way number |
| LoserTrees.PlayLeafMatches | src/terark/set_op.hpp:663-678 | the first rounds of the build, odd and even numbers of ways |
| LoserTrees.PlayInnerMatches | src/terark/set_op.hpp:680-684 | the inner rounds leave each loser at its node and the winner on top |
| LoserTrees.WinnerBelow | src/terark/set_op.hpp:769-790 | the winner of a node is a way below it |
| LoserTrees.WinnerIsBest | src/terark/set_op.hpp:769-790 | the winner at the top is beaten by no way |
| LoserTrees.ReplayStep | src/terark/set_op.hpp:758-767 | one swap of the replay moves the open match one node up |
| LoserTrees.StableMergeUnique | src/terark/set_op.hpp:833-844 | a stable merge of given ways is unique |
| MultiWayAlgorithms.Merge | src/terark/multi_way_basic.hpp:26-30 | all items below the guard once each, sorted, ties by way number in stable mode, items of one way in their order |
| MultiWayAlgorithms.UnionSet | src/terark/multi_way_algo_loser_tree.hpp:132-148 | each key below the guard that occurs anywhere, once, ascending |
| MultiWayAlgorithms.KeyToEqualCount | src/terark/multi_way_algo_loser_tree.hpp:172-189 | each such key once, ascending, with its exact multiplicity |
| MultiWayAlgorithms.Intersection32 | src/terark/multi_way_algo_loser_tree.hpp:87-107 | exactly the keys present in every way, ascending, with duplicates allowed |
| MultiWayAlgorithms.IntersectionN | src/terark/multi_way_algo_loser_tree.hpp:58-77 | for any ways: exactly the keys below the guard that occur, over all ways together, as often as there are ways, ascending |
| MultiWayAlgorithms.IntersectionExact | src/terark/multi_way_algo_loser_tree.hpp:58-77 | that output is the intersection exactly if every key below the guard is counted right |
| MultiWayAlgorithms.DistinctExact | src/terark/multi_way_algo_loser_tree.hpp:58-77 | for ways that repeat no key after their cursors it is the intersection |
| MultiWayAlgorithms.RepeatsAddKey | src/terark/multi_way_algo_loser_tree.hpp:58-77 | for any number of ways above one, a valid input whose output has a key that one way alone holds |
| MultiWayAlgorithms.RepeatsDropKey | src/terark/multi_way_algo_loser_tree.hpp:58-77 | for any number of ways, a valid input whose output lacks a key that all ways hold |
| MultiWayAlgorithms.Intersection | src/terark/multi_way_basic.hpp:59-65 | the intersection for up to 32 ways, and the counted keys for more |
| MultiWayAlgorithms.FullMask | src/terark/multi_way_algo_loser_tree.hpp:91-103 | the collected mask is the full mask exactly if every way holds the key |
| HeapExt.HoleDown | src/terark/heap_ext.hpp:29-43 | the hole sinks to a leaf, the rest stays a heap and no element is lost |
| HeapExt.HoleUp | src/terark/heap_ext.hpp:18-25 | the value rises to its place: a heap with the value in the hole's stead |
| HeapExt.AdjustHeap | src/terark/heap_ext.hpp:47-51 | refilling a hole restores the heap with exactly the value added |
| HeapExt.PopHeapIgnoreTop | src/terark/heap_ext.hpp:55-63 | a heap without the top and with everything else |
| HeapExt.AdjustHeapTop | src/terark/heap_ext.hpp:67-75 | a heap of the same elements after the top was changed |
| HeapExt.RootRules | src/terark/heap_ext.hpp:16-75 | no element of a heap is above its root |
| HeapMerge.AdjustForUpdateTop | src/terark/set_op.hpp:944-950 | an exhausted way leaves the heap, any other stays; the heap is valid |
| HeapMerge.HeapMultiWay.Increment | src/terark/set_op.hpp:938-942 | the front way advances by one and the heap is valid |
| HeapMerge.HeapMultiWay.FrontIsMinimum | src/terark/set_op.hpp:971-997 | the front way is one that no other beats |
| HeapMerge.Merge | src/terark/multi_way_basic.hpp:26-30 | the heap merge is a merge in the same sense as the loser tree's |
| HeapMerge.MergeBothWays | src/terark/set_op.hpp:884-1000 | in stable mode heap and loser tree give the same sequence |
| RadixSort.Distribute | src/terark/radix_sort.cpp:127-189 | one walk appends each element to the list of its code, in order, touching no other link |
| RadixSort.LenDistribute | src/terark/radix_sort.cpp:62-87 | the same by key length |
| RadixSort.Collect | src/terark/radix_sort.cpp:109-124 | the lists of a table, empty ones skipped, become one list that ends |
| RadixSort.PassOrders | src/terark/radix_sort.cpp:191-210 | a pass turns order by the characters after a position into order from that position on, stably |
| RadixSort.ShorterFirst | src/terark/radix_sort.cpp:212-254 | keys that end at a position come before longer ones |
| RadixSort.SortLinks | src/terark/radix_sort.cpp:212-254 | for any mix of lengths, empty keys and missing lengths included, the final list is all elements by coded key, ties in initial order |
| RadixSort.OrderUnique | src/terark/radix_sort.cpp:212-254 | the stable order is unique, so the specification leaves no freedom |
| RadixSort.RotateCycle | src/terark/radix_sort.cpp:307-321 | one cycle of the permutation is carried out and marked done |
| RadixSort.Rearrange | src/terark/radix_sort.cpp:285-323 | position j receives the object that was at the j-th element's place |
| RadixSort.Sort | src/terark/radix_sort.cpp:212-254 | the objects are permuted into lexicographic order of coded keys, stably |
| BitVectors.SetUint | src/terark/bitmap.cpp:583-608 | exactly the bits of the field are overwritten, across a word boundary or not |
| BitVectors.GetReadsField | src/terark/bitmap.hpp:475-486 | the word-addressed get reads exactly the field |
| BitVectors.SetThenGet | src/terark/bitmap.cpp:583-608 | a value set is read back and disjoint fields are unchanged |
| BitVectors.SafeWidths | src/terark/int_vector.hpp:188-196 | no entry of a width needs nine bytes exactly if the width is at most 58, or 60, or 64 |
| BitVectors.FastGetWrong | src/terark/int_vector.hpp:228-234 | where an entry straddles nine bytes, the byte-addressed get of memory of ones is not the field |
| BitVectors.FastGetExact | src/terark/int_vector.hpp:228-234 | the byte-addressed get is right for an entry over all memory exactly if the entry does not straddle nine bytes |
| BitVectors.FastGetWidths | src/terark/int_vector.hpp:188-196 | it is right for every entry of a width exactly if the width is at most 58, or 60, or 64 |
| BitVectors.FastGetReadsField | src/terark/int_vector.hpp:228-234 | the byte-addressed get reads the same field whenever eight bytes suffice |
| BitVectors.ComputeUintBits | src/terark/int_vector.hpp:134-141 | the least number of bits that holds the value |
| BitVectors.EntryInBounds | src/terark/int_vector.hpp:126-132 | every entry, and the eight bytes the fast get loads, lie within the computed size |
| BitVectors.LeastMemory | src/terark/int_vector.hpp:126-132 | the computed size is the least multiple of 16 bytes that covers the bits used and seven bytes more |
| BitVectors.UintVecMin0.SetWire | src/terark/int_vector.hpp:84-92 | one entry takes the value, all others keep theirs |
| BitVectors.UintVecMin0.Get | src/terark/int_vector.hpp:214-218 | the fast get returns the entry for widths up to 58 |
| BitVectors.UintVecMin0.GetBig | src/terark/int_vector.hpp:253-261 | the word-addressed get returns the entry for every width |
| BitVectors.UintVecMin0.BuildFrom | src/terark/int_vector.hpp:150-173 | every source value is its entry plus the minimum, in the least width |
| BitVectors.UintVecMin0.Resize | src/terark/int_vector.hpp:76-82 | the size asked for, with the common part of the data kept |
| BitVectors.UintVecMin0Builder.PushBack | src/terark/int_vector.cpp:63-72 | the pushed value is appended, through every flush |
| BitVectors.UintVecMin0Builder.Finish | src/terark/int_vector.cpp:73-95 | the bytes written decode at every index to the pushed value and their number is the size a vector would have |
| BitVectors.DecodeConcat | src/terark/int_vector.cpp:63-72 | full blocks and a tail concatenate to the layout of one vector |
| BitVectors.SizeOfBlocks | src/terark/int_vector.cpp:63-95 | the size of the whole is the bytes of the full blocks plus the size of the rest |
| BitVectors.FastReadable | src/terark/int_vector.cpp:42-95 | the builder's output can be read by the fast get, within bounds |

## Left out

- Radix tree nodes are values: an operation returns the node that takes a place instead of writing through a reference, so sharing and freeing of nodes are not captured.
- The thread cache keeps its free lists and its huge list as sequences; their links inside the buffer are modelled for the single-threaded pool only. Lengths are counted in units of the alignment.
- Thread-cache steps on a thread's own cache are atomic: only `sync_frag_size` touches the cache of another thread. Its `Sync` events assume that the caller keeps the thread being synchronised still during each turn of the loop; `TornSyncExact` covers one turn whose loads and stores lie apart, not loads or stores that are themselves spread out. Relaxed ordering of the counter flushes is not captured beyond their sums.
- ThreadCache.Alloc3Ok: states which block is traded for which, not that the copied bytes are the old contents, and the threaded pool does not say which bytes the links of its lists overwrite, since its buffer is not modelled; for the single-threaded pool both are proved at the level of words. `LiveBytesNotFree` gives that no byte of a live block belongs to a free list.
- The single-threaded pool measures in words of the alignment, which are link words for alignments 4 and 8; larger alignments, the counters `fragment_size`, `huge_size_sum` and `huge_node_cnt`, and debug filling are not modelled.
- `MemPool_LockFree`, `MemPool_LockMutex` and `MemPool_FixedCap`, `tc_populate`, sanitizer poisoning and thread-local ownership.
- `art_iter_prefix`, `art_maximum`, and the signed SSE comparison in `add_child16`; the portable unsigned comparison is modelled.
- Insertion into the radix tree requires that no stored key is a proper prefix of the new one or extends it, because the splits read the byte after the common prefix.
- Key values of the merge algorithms are integers that stand for positions in the comparison order; `std::make_heap` is taken as given; `copy_if`, `start_yan_wu` and cached values are not modelled.
- The string pool's hard limit on its length: the source throws there, the model goes on.
- Link and offset widths: slot counts are bounded by the link type's reserved values; integer overflow of `size_t` is not modelled. Growth beyond these bounds is excluded by preconditions where the source asserts or throws.
- Hash tables: values with copy strategies, iterators, sorting by key or value, `erase_if` with `shrink_to_fit`, `hash_strmap::erase_all`, the hash cache of the string map, changing the number of its free lists, and the failure path of `realloc`.
- Compaction of the string pool copies overlapping ranges as one simultaneous copy, as a forward copy to a lower address does.
- The prefix comparator is modelled for a prefix of any length; `rearrange_nodes_by_int_impl` and the sort that uses the comparator are not.
- Radix sort passes links and tables between methods as sequences; `radix_sort_tpl`, the slow rearrangement by `memcpy` and the count used only in assertions are not modelled.
- Bit vectors: words have 64 bits; binary searches, `bits_range_set0/1`, the slice constructor, the widening `push_back` and `bitfield_array` are not modelled; output is a sequence of bits instead of a file.
- Exceptions, allocation failure, destructors, serialization and load factors as floating point numbers.
