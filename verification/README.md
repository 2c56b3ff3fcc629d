# LocalMemCache: a verified model

LocalMemCache keeps a key-value store inside one memory-mapped region that
several processes share.  Four layers have to agree on every byte of it: a
first-fit allocator with a coalescing free list, a chained hash table that lives
in the blocks of that allocator, a redo log with a bitmap garbage collector for
the repair after a crash, and a lock made of a semaphore and a flag.

The model keeps the region as what it is, a run of bytes in which a `size_t` is
eight bytes at any offset.  A free chunk's `next` word and a used block's size
word are the same eight bytes, a header written into a gap that is too small
overwrites its neighbour, and the pool descriptor at offset 0 is the sentinel of
the free list.  The classes `Pool`, `UsageMap`, `HashTable`, `IterStatus` and
`Shared` update their fields in place, step by step as the C functions do; their
ghost fields hold the free list as a sequence, the used regions as a map, the
chains and the map that a user sees.  A call made with `te` is made by a process
whose test crashes are enabled and may stop at any `LMC_TEST_CRASH` site; what
it leaves behind is part of the callee's contract.

| file | content |
|---|---|
| `Memory`, `Rounding` | words in bytes; the bit-smearing power of two |
| `FreeList`, `Links`, `Regions`, `Allocation` | the free list as a value, as bytes, beside used regions, and in numbers |
| `Pool` | `lmc_valloc`, `__lmc_free`, `lmc_compact_free_chunks`, `lmc_init_memory`, `lmc_status` |
| `Runs` | all runs of the allocator |
| `UsageMap`, `Acceptance`, `Marking`, `Endless`, `LeakScan`, `Checking` | the usage bitmap, when it accepts regions that overlap, the marking and when it ends, the leak scan, `ht_check_memory` |
| `Tables`, `TableSteps`, `HashTable`, `KeyMatch`, `Iteration`, `Creation` | the table and its operations |
| `Health`, `Verdicts` | what the checker says about a pool |
| `Repair`, `Sweep`, `Recovery`, `Crashes` | what it does to one; replay, repair, crash atomicity over runs in which repairers die too |
| `Leaks`, `Sessions` | all crash-free sessions on a new namespace, and what they leak |
| `LockProtocol` | the lock as a state machine, and the code of its steps |

## What the code does and its evident intent

Where the two differ the model follows the code, and a lemma says exactly when
the intent is met.

- Key comparison: the inner `continue` (src/lmc_hashtable.c:65-67, 162-164) only
  skips a byte, so keys match by bucket and length.  The table is proved for any
  equivalence that respects buckets; `KeyMatch` gives the one the code amounts
  to, shows that whatever the hash function some two keys are confused, and says
  when a key finds its own pair.
- Deleting the head of a chain clears the whole bucket (src/lmc_hashtable.c:168).
  The result is the intended one exactly when the key is alone in its bucket or
  does not head it.
- A failed update has already stored 0 over the old value
  (src/lmc_hashtable.c:133): the key stays, its value is lost (`None`).
- The leak scan's 64-bit skip can start at an unaligned bit
  (src/lmc_valloc.c:389-395) and then steps over the first byte of a gap.
  `Late` says which bytes exactly; everything else is proved with them.
- A run of unmarked bytes that is shorter than a chunk header and borders no free
  chunk gets a chunk header all the same (src/lmc_valloc.c:342-346).  The check is
  followed up to there; it comes there exactly if there is such a run, the header
  spares the bytes behind the run exactly if it happens to equal them, and for a
  run of one byte it never does.  `Repair.LateExample` leads from a full pool to
  such a run.
- Compaction does not unlink a chunk it has merged upwards with if that chunk heads
  the list (src/lmc_valloc.c:226-250): the chunk is then counted twice.  From a
  canonical list that cannot happen.  From a list with touching chunks, as a crash
  leaves one, it happens exactly if the grown chunk is not among the first two of the
  list and ends where the head starts; the next check refuses such a list.
- `lmc_um_mark` computes ends modulo 2^64 (src/lmc_valloc.c:437-463): a region
  whose end wraps around is accepted and marks nothing.  The marking therefore runs
  forever exactly if it goes round a cycle of which it marks nothing.
- `round_to_next_power_of_2` lacks the 32-bit shift (src/lmc_valloc.c:69): it is
  right exactly for the arguments v for which v - 1 has no run of 32 zero bits
  below its top bit, among them all up to 2^32.
- `lmc_um_check_unmarked` is exact from a byte boundary on.  From elsewhere it never
  looks at as many bits as the start is off the boundary, right after the words it
  skipped first, if it skipped any (src/lmc_valloc.c:423-433): `Missed` says which.
  A region accepted there is overlapped by a later one exactly if it lies in these
  bytes of the later one's check, which takes a region of less than eight bytes.
- A failed update leaves a null pointer that `ht_check_memory` follows out of the pool
  and `ht_random_pair` reads as a string of the descriptor's bytes: the check can
  read all it is led to exactly if no update has failed.
- `local_memcache_get_new` and `local_memcache_random_pair_new` unlock even if
  locking failed (src/localmemcache.c:308-314, 331-337): that breaks the lock
  from every state.

## Assumptions

- The pool is shorter than 2^62 bytes and request sizes are small enough for
  `size + 8` and the rounding not to wrap around (`MAX_SIZE`, `MAX_STRING`).
- `dummy2` is 0 when a pool is initialised; it comes from the zeroed file and is
  never written (src/lmc_valloc.c:137-148).
- The bytes from `total_size` to `locked` are only written by the functions modelled.
- Only live blocks are freed and written to.
- The memory check is started on a table whose offsets lie in the pool, and on a pool
  on which its marking ends (`Marking.FreeListEndless` and `Marking.ChainEndless` say
  when it does, `Marking.BusyEnds` names the ordinary case).
- A wait on the namespace's semaphore times out only while a dead process owns
  it (site/index.html:238-240).

## Model

| member | source | states |
|---|---|---|
| Memory.Put | src/lmc_valloc.c:210 | storing a word reads back and moves no other byte, so every word that does not overlap it keeps its value |
| Rounding.RoundExact | src/lmc_valloc.c:62-72 | the result is the least power of two not below the argument if and only if the argument minus one has no run of 32 zero bits under its top bit |
| Rounding.SmearDoubles | src/lmc_valloc.c:64-68 | each shift-and-or doubles the distance over which set bits have been smeared downwards |
| Rounding.RoundUpTo32Bits | src/lmc_valloc.c:62-72 | for every argument from 1 to 2^32 it is the least power of two and at most 2^32 |
| Rounding.RoundFailsAbove33Bits | src/lmc_valloc.c:69 | with the 32-bit shift commented out, 2^33 + 1 is not rounded to a power of two |
| FreeList.CarveKeeps | src/lmc_valloc.c:192-209 | splitting from the tail, or handing out a chunk whole when the rest could not hold a header, keeps chunks apart, unbordered and able to hold a header, and removes exactly the block from the free bytes |
| FreeList.UnhandledUnreachable | src/lmc_valloc.c:226-259 | after a free absorbed a region, whatever borders the grown chunk comes later in the list and is unique: the skipped list predecessor and the sentinel predecessor never occur |
| FreeList.CompactedKeeps | src/lmc_valloc.c:214-277 | compaction merges the two bordering chunks, keeps exactly the free bytes and leaves no two chunks bordering |
| FreeList.ReleaseKeeps | src/lmc_valloc.c:279-350 | freeing a region adds exactly its bytes and keeps the list canonical: no overlap, no two chunks adjacent |
| FreeList.ReleaseCovers | src/lmc_valloc.c:279-350 | giving a region back to any list in the pool adds exactly its bytes; the list stays well-formed exactly if the region is long enough for a header or borders a free chunk |
| FreeList.CompactedApart | src/lmc_valloc.c:240-252 | compaction of separate chunks leaves them separate if and only if the compacted chunk is not, behind the first two, one that ends where the list head starts |
| FreeList.ReleaseApart | src/lmc_valloc.c:279-350 | giving a region back to separate chunks leaves them separate if and only if it does not let a chunk grow up to the list head it cannot unlink; then that chunk is counted twice |
| FreeList.DoubledStaysFree | src/lmc_valloc.c:226-250 | where a chunk was counted twice, the last byte of the list head is still free after any part of the head has been handed out |
| FreeList.ReleaseTwice | src/lmc_valloc.c:279-350 | no later give-back mends a list that counts a chunk twice |
| FreeList.PairMade | src/lmc_valloc.c:226-250 | the give-back that counts the list head twice leaves a chunk, before it in the list, that the grown one covers, and no chunk that ends where it starts |
| FreeList.PairReleased | src/lmc_valloc.c:279-350 | give-backs in the order of their offsets keep such a pair, and every crash site of one leaves a list that still counts a chunk twice |
| FreeList.CrashKeeps | src/lmc_valloc.c:243-308 | at every crash site of a free of any list in the pool only bytes that were free or in the block are listed, and where any two chunks were apart or shared a whole header they still are or do |
| Links.StoresUnique | src/lmc_valloc.h:23-38 | the bytes determine the free list: it is acyclic and there is one reading of it |
| Links.LinkedUnique | src/lmc_valloc.c:476-483 | also for lists in arbitrary memory: a walk along `next` words finds the one list that ends |
| Regions.CarveRegions | src/lmc_valloc.c:192-211 | an allocated block is disjoint from every live block, and free and used regions still tile the pool |
| Regions.ReleaseRegions | src/lmc_valloc.c:352-366 | freeing a live block keeps regions separate and the tiling exact |
| Allocation.TotalCounts | src/lmc_valloc.c:101-112 | the sum of the chunk sizes is the number of free bytes |
| Allocation.ReleaseTotal | src/lmc_valloc.c:279-350 | a free raises the free total by exactly the block's size |
| Allocation.CarveTotal | src/lmc_valloc.c:172-212 | an allocation lowers it by exactly the size the block records |
| Allocation.TilingAddsUp | src/lmc_valloc.c:92-118 | free total plus the sizes of all used blocks is `total_size` |
| Allocation.CanonicalUnique | src/lmc_valloc.c:279-350 | the free bytes determine the chunks; only their order in the list is history |
| Allocation.ChunkIsMaximalRun | src/lmc_valloc.c:214-350 | every chunk is a maximal run of free bytes |
| Allocation.ReleaseUndoesCarve | src/lmc_valloc.c:172-366 | freeing a block just allocated gives back the same chunks |
| Allocation.RoomSuffices | src/lmc_valloc.c:180-191 | one chunk as large as several requests together serves them all, whatever chunks first fit picks |
| Allocation.TriedSpares | src/lmc_valloc.c:180-209 | if some chunk is as large as several requests and `r` bytes more together, first fit serves them all and leaves a chunk of `r` bytes |
| Allocation.GrownSpares | src/lmc_valloc.c:279-350 | frees never take away a chunk of `r` bytes: what was free in one piece still is |
| Allocation.CrashInsideFree | src/lmc_valloc.c:243-276 | at every crash site of a free from separate chunks, touching or not, the list stays in the pool; its chunks are apart, listing only bytes that were free or in the block, exactly outside the merge-up window, and inside it a chunk is counted twice |
| Allocation.TouchingAfterCrash | src/lmc_valloc.c:304-308 | a free that dies before compacting can leave two chunks that touch |
| Allocation.DoubledByGiveBack | src/lmc_valloc.c:226-250 | giving a gap back to that list counts the list head twice |
| Pools.Pool.Store | src/lmc_valloc.h:35-38 | a word store in place, byte by byte |
| Pools.Pool.StoreBytes | src/lmc_hashtable.c:26 | a copy in place moves no byte outside its target |
| Pools.TestCrash | src/lmc_valloc.c:199 | only a process with test crashes enabled dies at a crash site |
| Pools.NeedExact | src/lmc_valloc.c:174-176 | a block is as large as the larger of the smallest size and the least power of two that holds its size word and the request, or a chunk header; stated without the smearing |
| Pools.Pool.FindFit | src/lmc_valloc.c:177-191 | the walk stops at the first chunk that is large enough, with its predecessor |
| Pools.Pool.Valloc | src/lmc_valloc.c:172-212 | on separate chunks, touching or not: 0 and no change exactly if the size is 0 or no chunk reaches the rounded size; otherwise a block of at least that size carved from the first fit, size word in place, disjoint from live blocks, every byte that was not free unchanged; a crash leaves the block used |
| Pools.Pool.FindPartner | src/lmc_valloc.c:224-260 | the walk finds the first chunk in list order that borders the given one, other than its list predecessor, and the pointers the merges need |
| Pools.Pool.MergeUp | src/lmc_valloc.c:243-252 | merging with the chunk above, with the list each crash site leaves |
| Pools.Pool.MergeDown | src/lmc_valloc.c:266-276 | merging into the chunk below, with the list each crash site leaves |
| Pools.Pool.Compact | src/lmc_valloc.c:214-277 | for any stored list, what the pass makes of it, including its unhandled case, and the lists a crash leaves |
| Pools.Pool.FindMeeting | src/lmc_valloc.c:296-334 | the walk finds the first bordering chunk; on a used region the double-free branch is not taken |
| Pools.Pool.RawFree | src/lmc_valloc.c:279-350 | for any stored list: the list after the free, and bytes outside free chunks and the region unchanged, also at every crash site; a region is too short exactly if it could not hold a header and borders no chunk, and then the header is written all the same |
| Pools.PushKeepsOutside | src/lmc_valloc.c:342-346 | the header leaves the bytes behind the region alone if and only if the region is long enough or they equal the header's |
| Pools.OneByteBreaks | src/lmc_valloc.c:342-346 | for a region of one byte the size word of the block behind it is then at least 2^56 |
| Pools.Pool.FreeLower | src/lmc_valloc.c:304-310 | the branch for a free chunk below, with the list each crash site leaves |
| Pools.Pool.FreeUpper | src/lmc_valloc.c:318-326 | the branch for a free chunk above |
| Pools.Pool.Free | src/lmc_valloc.c:352-366 | on any stored list, also one that counts a chunk twice: null and out-of-range pointers change nothing; a live block is removed and its recorded size given back; separate chunks stay separate exactly unless the block lets one grow up to a list head it touched |
| Pools.Pool.InitMemory | src/lmc_valloc.c:137-148 | one chunk of everything after the descriptor, pool locked, nothing used |
| Pools.Pool.Status | src/lmc_valloc.c:92-118 | chunk count, free total and largest chunk of the list; that is 0 on an empty list, and an allocation of any size succeeds exactly if it does not need more; the invalid-pointer abort is unreachable |
| Pools.LiveWrite | src/lmc_valloc.c:352-366 | writing the payload of a live block leaves the free list and all size words alone |
| Runs.RunSane | src/lmc_valloc.c:172-366 | in every state of every run of allocations, frees of live blocks and writes into them the list is canonical, free and used regions tile the pool exactly, and the totals add up |
| Runs.StepParted | src/lmc_valloc.c:172-366 | also from touching chunks one allocation, free or write keeps separation and exact tiling, but for a free that counts the list head twice |
| Runs.RunParted | src/lmc_valloc.c:172-366 | in every state of a run from touching chunks the chunks are separate and off the used blocks if and only if no free of the run counts the list head twice |
| Runs.NothingFragments | src/lmc_valloc.c:214-350 | whatever the run, once every block is freed the pool is the single initial chunk |
| Runs.TakeGive | src/lmc_valloc.c:172-366 | an allocation undone by a free restores blocks, chunks and free total |
| Runs.RunAligned | src/lmc_valloc.c:62-212 | with requests below 2^32 and an aligned pool every offset and size of every run stays a multiple of 8 |
| Runs.Drive | src/lmc_valloc.c:172-366 | the code run on a real pool ends in the predicted state, with every byte that was written to a block still there |
| Runs.RunFromInit | src/lmc_valloc.c:92-148 | from `lmc_init_memory` on, the reported free total is what the used blocks leave |
| Runs.StepSane | src/lmc_valloc.c:172-366 | one allocation, free or write keeps canonical list, separation and exact tiling |
| Runs.DoTake | src/lmc_valloc.c:172-212 | an allocation in a run: 0 exactly if nothing fits, else a new block, all bytes written before still there |
| UsageMaps.UsageMap.SetBit | src/lmc_valloc.c:372-376 | sets one bit of the byte array and no other |
| UsageMaps.UsageMap.GetBit | src/lmc_valloc.c:368-370 | reads the bit of a byte array that stands for one pool byte |
| UsageMaps.UsageMap.Fill | src/lmc_valloc.c:455-457 | the memset marks exactly the bits of whole bytes |
| UsageMaps.UsageMap.WordIs | src/lmc_valloc.c:424-426 | comparing an 8-byte word with 0 or all ones tells whether its 64 bits are all clear or all set |
| UsageMaps.UsageMap.CheckUnmarked | src/lmc_valloc.c:418-435 | accepts exactly the ranges whose end wraps around and those in which every marked bit is one it never looks at; those lie, as many as the start is off a byte boundary, right after the first words it skips; for every range whose check reads inside the bitmap only |
| UsageMaps.AlignedPasses | src/lmc_valloc.c:418-435 | from a byte boundary on it accepts exactly clear ranges |
| UsageMaps.MissedExample | src/lmc_valloc.c:423-433 | off a byte boundary it does not: bit 64 is marked and [1, 201) accepted |
| UsageMaps.UsageMap.Mark | src/lmc_valloc.c:437-463 | accepts exactly what is in range and passes the check, with ends taken modulo 2^64; otherwise changes nothing; sets exactly the bits of the range, memset included, and none if the end wraps around |
| UsageMaps.AcceptedIsMarked | src/lmc_valloc.c:437-463 | what is accepted lies in the pool and gets marked if and only if its end does not wrap around |
| Acceptance.AcceptedPair | src/lmc_valloc.c:418-463 | of two accepted regions, neither empty nor wrapping around, the later one overlaps the earlier one if and only if the earlier one lies wholly in the bytes that the later one's check never looks at; then it is shorter than the later one starts off a byte boundary, so at most seven bytes long |
| Acceptance.AcceptedApart | src/lmc_valloc.c:418-463 | accepted regions of that kind are pairwise disjoint if and only if none lies in the unseen bytes of a later one |
| Acceptance.WideApart | src/lmc_valloc.c:418-463 | so they are disjoint wherever all are eight bytes long, or all start on byte boundaries of the bitmap |
| Acceptance.HiddenExample | src/lmc_valloc.c:423-433 | and otherwise not: after [160, 161) the range [97, 297) is accepted |
| Marking.OverlapExample | src/lmc_valloc.c:472-489 | a free list with these two chunks, in a pool of any size, is accepted |
| LeakScan.FindLeaks | src/lmc_valloc.c:378-416 | from any stored list: frees, in order, exactly the maximal runs of unmarked bytes less the late ones, never a marked byte, and keeps the value of every marked byte that was not free; comes to a run that is too short exactly if there is one; chunks stay apart exactly if no give-back doubles the head, and once one has every crash of the scan leaves a chunk counted twice |
| LeakScan.CloseGap | src/lmc_valloc.c:403-414 | giving one gap back adds exactly its bytes unless it is too short; a crash leaves a list the free can be caught with |
| LeakScan.SkipOnes | src/lmc_valloc.c:389-395 | the skips over used words pass no byte that is wanted, and no late byte lies ahead where they stop |
| LeakScan.RunBorders | src/lmc_valloc.c:403-414 | a run borders a free chunk when its turn comes exactly if it did before the scan |
| LeakScan.ShortExample | src/lmc_valloc.c:403-414 | a bitmap and free list with a run that is too short |
| LeakScan.FullNoGaps | src/lmc_valloc.c:388-415 | with every byte marked the scan frees nothing |
| LeakScan.ExactUnlessLate | src/lmc_valloc.c:389-395 | the scan gives back exactly the unmarked bytes if and only if no gap starts late |
| LeakScan.SkipLands | src/lmc_valloc.c:389-395 | the word skips pass over marked bytes and at most one late byte |
| Endless.ForeverIffIdleCycle | src/lmc_valloc.c:479-483 | a loop that marks regions along `next` pointers runs forever if and only if it goes round a cycle all of whose regions are empty or wrap around, for any regions and pointers |
| Marking.FreeListEndless | src/lmc_valloc.c:472-489 | so does the loop that builds the bitmap from the free list |
| Marking.EndlessExample | src/lmc_valloc.c:479-483 | a chunk of size 2^64 - 1 that is its own successor is followed forever |
| Marking.ChainEndless | src/lmc_hashtable.c:264-271 | and so does the loop over one bucket |
| Marking.BusyEnds | src/lmc_hashtable.c:255-274 | the whole marking ends, whatever cycles there are, where no free chunk and no entry block is empty or wraps around |
| Marking.NewUsageMap | src/lmc_valloc.c:472-489 | whenever the loop ends, the bitmap is returned if and only if descriptor and chunks are accepted one after the other up to the end of the list, empty and wrapping chunks included, and then exactly their bits are set |
| Marking.MarkAllocated | src/lmc_valloc.c:465-470 | marks the block of a pointer from its size word if and only if that region is accepted after all earlier ones |
| Marking.MarkEntry | src/lmc_hashtable.c:268-270 | the three marks of an entry succeed if and only if its three blocks are accepted one after the other |
| Marking.MarkChain | src/lmc_hashtable.c:264-271 | the loop over a bucket, whenever it ends, succeeds if and only if the chain ends and the blocks along it are accepted one after the other, and marks exactly those |
| Marking.MarkReachable | src/lmc_hashtable.c:255-274 | whenever it ends, the marking succeeds if and only if list and chains end and descriptor, free chunks, table and the three blocks of every entry are accepted one after the other, empty and wrapping ones included; and then exactly these are marked |
| Checking.CheckMemory | src/lmc_hashtable.c:255-281 | on any pool whose accepted chunks can hold a header: if it returns 1 the regions were so marked and all gaps given back; if it returns 0 nothing changed; it comes to a run that is too short exactly if there is one; it returns 0 only on pools the marking does not accept |
| Checking.LargeScannable | src/lmc_hashtable.c:255-281 | accepted chunks can hold a header wherever every chunk on the list is that large |
| Checking.TwiceRejected | src/lmc_valloc.c:472-489 | a list in the pool that counts a chunk twice is never accepted |
| Verdicts.EntriesOnce | src/lmc_hashtable.c:262-271 | in an accepted pool no entry is reached twice, unless its block is empty or wraps around |
| Verdicts.AcceptedTiles | src/lmc_hashtable.c:255-281 | after an accepted check every byte is descriptor, free or reached, and none is two of these, but for late bytes, which are none; the chunks are apart exactly if no give-back doubled the head; the accepted regions were pairwise disjoint if and only if none was hidden from a later check, as none of eight bytes is |
| Verdicts.TornVerdict | src/lmc_valloc.c:243-276 | after a crash inside a free from separate chunks, touching or not, the marking accepts the pool, unless it was in the merge-up window, and then it never does |
| Health.PoolHealthy | src/lmc_hashtable.c:255-274 | an intact table beside a list of separate chunks is a healthy pool |
| Repair.FoundIs | src/lmc_hashtable.c:262-274 | on such a pool the checker finds exactly the free list and the chains that are there |
| Repair.RunHasRoom | src/lmc_valloc.c:378-416 | where every byte that is neither free nor reached lies in a stretch longer than a header, or is a byte a scan stepped over below a free chunk, every run the scan frees has room |
| Repair.CrumbledSpacious | src/lmc_valloc.c:378-416 | a pool in which every byte is free, in use or stepped over is of that kind, whatever has leaked |
| Repair.CrashSpacious | src/lmc_valloc.c:243-308 | and a crash inside a free or inside the scan leaves it so |
| Repair.LateExample | src/lmc_valloc.c:389-414 | a full pool with two leaked blocks around a used one of 64 bytes: the scan steps over a byte, the chunk behind it is handed out whole, and the next scan comes to a run of one byte |
| Tables.NoMatchInView | src/lmc_hashtable.c:51-71 | a bucket has no matching entry exactly when the map has no matching key |
| Tables.MatchUnique | src/lmc_hashtable.c:103-129 | the map never holds two keys that match |
| Tables.InsertChain | src/lmc_hashtable.c:122-128 | linking a fresh entry at the head of its bucket adds its key and leaves all other pairs |
| Tables.UpdateChain | src/lmc_hashtable.c:132-137 | replacing a value leaves all other pairs |
| Tables.DeleteChain | src/lmc_hashtable.c:166-168 | unlinking a node leaves a table that shows the other buckets and the nodes still chained |
| Tables.DeleteExact | src/lmc_hashtable.c:166-168 | unlinking removes exactly the key if and only if the node is not the head of a longer chain |
| Tables.BucketOfOne | src/lmc_hashtable.c:168 | clearing the bucket is the intended delete if and only if no other key is in it |
| KeyMatch.KeyTest | src/lmc_hashtable.c:61-68 | the test as written succeeds exactly for keys of equal length |
| KeyMatch.BothSound | src/lmc_hashtable.c:51-71 | matching by bucket and length, and equality, are both equivalences that respect buckets |
| KeyMatch.TestIsMatch | src/lmc_hashtable.c:57-69 | along the chain of a key's bucket the test and matching by bucket and length agree |
| KeyMatch.FindsOwnPair | src/lmc_hashtable.c:65-67 | a key finds its own pair only, exactly when no other key of its length is in its bucket |
| KeyMatch.SomeKeysConfused | src/lmc_hashtable.c:65-67 | for every hash function two different keys match |
| HashTables.HashTable.Lookup | src/lmc_hashtable.c:51-71 | the first entry of the key's bucket whose key matches, or 0 if none does |
| HashTables.HashTable.Get | src/lmc_hashtable.c:77-84 | the value of the one matching key of the map, none if there is none |
| HashTables.HashTable.ReadString | src/lmc_hashtable.c:86-87 | length and characters of a stored string |
| HashTables.HashTable.Alloc | src/lmc_valloc.c:172-212 | an allocation beside the table, from separate chunks, touching or not: the table and everything in use keep their bytes |
| HashTables.HashTable.Strdup | src/lmc_hashtable.c:20-28 | a copy in a block of its own; everything in use keeps its bytes |
| HashTables.HashTable.LogOp | src/lmc_valloc.c:491-504 | the log names the operation and points nowhere; nothing else moves |
| HashTables.HashTable.LogCopy | src/lmc_hashtable.c:110-111 | one copy made and its pointer logged, the other log words unchanged |
| HashTables.HashTable.LogStrings | src/lmc_hashtable.c:109-114 | both copies logged, or a log that redo ignores, with at most one block lost unless it crashed |
| HashTables.HashTable.StoreLink | src/lmc_hashtable.c:125-128 | the four stores that link an entry, in order |
| HashTables.HashTable.Link | src/lmc_hashtable.c:125-128 | the table shows the new pair, size counted, nothing else moved |
| HashTables.HashTable.LinkEntry | src/lmc_hashtable.c:121-128 | the new node heads its bucket, or a crash before the link leaves map and log as they were |
| HashTables.HashTable.InsertEntry | src/lmc_hashtable.c:115-128 | the pair is in the map, or the map is unchanged and the log still holds both copies |
| HashTables.HashTable.SetNew | src/lmc_hashtable.c:108-129 | insert, also between touching chunks: succeeds exactly if the three blocks fit one after the other, and leaves the list of these allocations up to the first that fails; a failure or a crash leaves the map unchanged, at most two blocks lost on failure, the chunks separate; after a crash the log is complete exactly from the third allocation on, and quiet before |
| HashTables.HashTable.Update | src/lmc_hashtable.c:130-139 | update, also between touching chunks: succeeds exactly if the new value fits, and then the list is the one after that allocation with the old value's region given back, separate exactly unless that doubles the head; a failure leaves the key without value; a crash leaves the old or the new value |
| HashTables.HashTable.Repoint | src/lmc_hashtable.c:133 | the entry points at the new value, or at nothing, and the map follows |
| HashTables.HashTable.Release | src/lmc_valloc.c:352-366 | a free beside the table, on any stored list, leaves the table intact and removes exactly that block, also if it crashes |
| HashTables.HashTable.Set | src/lmc_hashtable.c:103-145 | both cases on the map, for the one key that matches, between separate chunks, touching or not, with the list each leaves; the table can be used again exactly unless the free of an old value doubled the head, and a canonical list stays canonical |
| HashTables.HashTable.FindEntry | src/lmc_hashtable.c:153-164 | the matching entry with its chain predecessor, or 0 if nothing matches |
| HashTables.HashTable.DropEntry | src/lmc_hashtable.c:166-168 | unlinking as written, with the map it leaves and the entry's three blocks still live |
| HashTables.HashTable.FreeNode | src/lmc_hashtable.c:169-171 | the three frees, on any stored list, leave the table intact, also if one crashes, and give back exactly the entry's three regions, in order |
| HashTables.HashTable.FreeValue | src/lmc_hashtable.c:170-171 | value and entry are freed and no other block; the list is the old one with their regions given back |
| HashTables.HashTable.CountDown | src/lmc_hashtable.c:172 | the counter word is one less, up to wrap-around |
| HashTables.HashTable.Delete | src/lmc_hashtable.c:147-176 | on any stored list: 0 and no change exactly if nothing matches; otherwise the matching key is gone, with its bucket if it headed the chain, the counter is one less, and the list is the old one with the entry's regions given back; the table can be used again exactly unless one of them doubled the head |
| TableSteps.TornLeaksOnly | src/lmc_valloc.c:243-276 | after a crash inside a free the list stays in the pool, and if its chunks are apart it misses every live block |
| Recovery.FilledReadable | src/lmc_hashtable.c:264-271 | the check can read every entry it is led to if and only if no value was lost |
| Recovery.CheckTable | src/lmc_hashtable.c:255-281 | on an intact table: refused unchanged if a chunk is counted twice; else, unless a run is too short, it succeeds, exactly the reached blocks stay in use, the map is unchanged, every byte is free or reached but the late ones, and the chunks are apart exactly if no give-back doubled the head; without leaks it changes nothing; a crash in it leaves the table intact and, exactly where no chunk is counted twice, a pool the next check mends |
| Recovery.CheckTwice | src/lmc_hashtable.c:255-281 | a second check also gives back what the first stepped over: then free and reached bytes tile the pool |
| Sweeping.NothingLate | src/lmc_valloc.c:378-416 | where nothing has leaked the scan steps over nothing |
| Sweeping.BrokenList | src/lmc_valloc.c:378-416 | the list after a crash in the scan counts a chunk twice exactly if an earlier give-back doubled the head or the crash was in the merge-up window, and otherwise the pool can be mended |
| Recovery.Redo | src/lmc_hashtable.c:89-101 | ignores an incomplete log; replays a complete one, between separate chunks, touching or not: a new key is in the map exactly if there is room, and then or not the log is done with; for a key in the table the value is set or lost, and the log stays; a crash leaves the old map or the new value, and for a new key a log that can be replayed or ignored |
| Recovery.Recover | src/localmemcache.c:239-254 | repair of a valid pool with a log to replay, or of an intact table without one: the map is the old or the new one, the new one whenever the log was complete and there was room; the list is then scanned: every unreached run of it is given back and the pool unlocked if its chunks are apart, and it is left as it is otherwise, unless a run is too short, which does not happen to a pool that can be mended; if it dies the next repair finds the list of a scan that was interrupted, which counts a chunk twice or can be mended again |
| CrashRuns.TornMendable | src/lmc_valloc.c:243-308 | a full pool that dies inside a free can be mended if its chunks are apart, and else counts a chunk twice |
| CrashRuns.RepairRounds | src/localmemcache.c:239-254 | any number of repairers die, while replaying or in the scan, and one lives: each scans the list that the one before left, the last repairs exactly if the chunks it finds are apart, by giving back every unreached run of just that list, and else leaves it as it is; from a pool that can be mended no run is ever too short, and after a repair every byte is free or reached but for crumbs, however many died; unless one dies replaying, a logged pair is in the map exactly if there was room |
| CrashRuns.InsertAndRepair | src/lmc_hashtable.c:89-145 | crash atomicity over runs in which the inserting process and any number of repairers die: the old map or the new one, and unless a repairer dies replaying the new one exactly if the log was complete and there was room; always repaired, and valid, if no repairer dies in the scan, and else exactly if the last one finds separate chunks; nothing stays lost but crumbs; a process that lives succeeds exactly if there is room |
| CrashRuns.UpdateAndRepair | src/lmc_hashtable.c:130-139 | the same for an update: repaired exactly if the last list found has separate chunks, with nothing lost but crumbs; a process that lives succeeds exactly if the value fits |
| CrashRuns.DeleteAndRepair | src/lmc_hashtable.c:147-176 | the same for a delete, whose effect on the map is the same whether the process dies or not |
| CrashRuns.InsertOrReclaim | src/lmc_hashtable.c:108-145 | after a failed insert a check gives back exactly what the insert had lost |
| Creation.HashCreate | src/lmc_hashtable.c:36-44 | an empty table in one zeroed block taken from the list, or 0 exactly if the block does not fit |
| Creation.Reset | src/localmemcache.c:350-359 | initialising or clearing a pool leaves an empty, leak-free namespace whose free list is one chunk less the table's block, or fails exactly if the table does not fit |
| Creation.Create | src/localmemcache.c:89-157 | a new namespace of at least one megabyte is always created, empty and unlocked, with all but the table's 256 kilobytes and the descriptor in one chunk; the smallest block is the least power of two from the given size on, up to 2^32 and exactly as long as that has no long run of zero bits, and there is none for the default 0; what a block needs is said without the rounding |
| Iteration.Iterate | src/lmc_hashtable.c:178-203 | one slice visits exactly the next 1000 entries and returns 2, or all that are left, fewer than 1000, and returns 1 |
| Iteration.IterateBucket | src/lmc_hashtable.c:187-197 | the loop over one bucket visits the entries after the ones already done, in order, until the slice is full |
| Iteration.IterateAll | src/lmc_hashtable.c:178-203 | repeated calls from a zeroed status visit all entries once, in bucket-then-chain order, and end with 1 |
| Iteration.NodesAreView | src/lmc_hashtable.c:186-192 | that order lists every key of the map exactly once, with its value |
| Iteration.PickBucket | src/lmc_hashtable.c:213-227 | the drawn bucket is the one with that many filled buckets before it; the first abort is unreachable |
| Iteration.RandomPair | src/lmc_hashtable.c:205-253 | nothing exactly on an empty table, otherwise the drawn entry's key with its value, or with descriptor bytes where the value was lost; both aborts are unreachable |
| Iteration.EveryPairDrawn | src/lmc_hashtable.c:217-248 | every stored entry is drawn by some pair of draws |
| Sessions.Serve | src/lmc_hashtable.c:77-176 | each request is answered as the map answers it, which knows the keys that head chains: removing one of those removes its bucket; a put of a new key succeeds exactly if its three blocks fit, of a known one exactly if the value fits, and the list follows; nothing leaks unless an allocation failed or the head of a longer chain was deleted |
| Sessions.FaresSpares | src/lmc_hashtable.c:103-145 | a put succeeds if some chunk is as large as its blocks together, and what such a chunk has beyond that is still there in one piece after any request |
| Sessions.Session | src/localmemcache.c:306-366 | any sequence of requests on a new namespace is explained by a sequence of maps with their chain heads and of free lists, one determined step each: every put is answered by whether it fits into the list it finds, and every put succeeds while all puts so far need no more than the one chunk beside the table; if no allocation failed and only keys alone in their bucket were removed, nothing has leaked |
| Sessions.RoomForAll | src/localmemcache.c:306-366 | whatever else is requested, puts succeed as long as all so far together cost no more than one chunk of the first list |
| Sessions.PlainSession | src/lmc_hashtable.c:51-176 | whatever the hash function and matching: if no two requested keys match and no removed key shares its bucket, a session is answered as by a plain map |
| Sessions.IdealSession | src/localmemcache.c:306-366 | within that room a session on such keys is that of a map: every put succeeds, and every reply and the map at the end are what the requests alone say |
| Sessions.ConfusedSession | src/lmc_hashtable.c:65-67 | two keys match if and only if what is put under one in an empty table is got under the other |
| Sessions.LostExactly | src/lmc_hashtable.c:132-137 | a request loses a value exactly if it is a put that finds a matching key and no room |
| Leaks.InsertClean | src/lmc_hashtable.c:108-129 | a successful insert leaves in use only what the table reaches |
| Leaks.UpdateClean | src/lmc_hashtable.c:130-139 | so does a successful update: the old value is freed |
| Leaks.RemoveClean | src/lmc_hashtable.c:147-173 | so does deleting an entry that does not head a longer chain |
| Sessions.HarmlessGentle | src/lmc_hashtable.c:166-168 | removing a key that is alone in its bucket is such a delete |
| LockProtocol.StepInv | src/localmemcache.c:172-194 | every step of every process, deaths included, keeps the invariant |
| LockProtocol.RunSafe | src/localmemcache.c:15-39 | over all runs semaphore value plus owners is 1, a free semaphore implies a clear flag, at most one process uses the pool, and neither flag operation ever fails |
| LockProtocol.AnyoneDies | src/lmc_lock.c:119-128 | any live process may die at any point of any run; nothing shared changes and it keeps what it holds |
| LockProtocol.DeathBlocks | src/localmemcache.c:172-194 | over all runs: once a process has died owning the semaphore it stays 0, no live process owns it and none uses the pool but a repairer acting for the dead one, until such a repairer posts it |
| LockProtocol.TornUntilRepaired | src/localmemcache.c:248-250 | if it died between setting and clearing the flag, the flag stays set and nobody posts the semaphore for it before the pool was repaired for it |
| LockProtocol.RefusalKeeps | src/localmemcache.c:252-253 | after a refused repair the dead process still owns the semaphore, the flag is still set, and the repairer may try again |
| LockProtocol.DeathAndRepair | src/localmemcache.c:239-262 | a run in which a process dies using the pool, a first repair is refused and the second one frees the semaphore |
| LockProtocol.GotUnflagged | src/localmemcache.c:15-25 | whoever obtained the semaphore finds the flag clear |
| LockProtocol.RepairFreesToken | src/localmemcache.c:239-262 | after a death between any two steps a forced repair goes through and ends with a free semaphore and a clear flag |
| LockProtocol.UnlockAlwaysBreaks | src/localmemcache.c:306-316 | an unlock that no lock precedes breaks the invariant from every state |
| LockProtocol.UnlockLetsTwoIn | src/localmemcache.c:325-339 | and lets a second process use the pool beside the first |
| LockProtocol.SlowHolderBreaks | site/index.html:238-240 | so does a repair forced on a holder that is only stopped: repairer and holder then both use the pool |
| LockProtocol.RepairsBlocked | src/localmemcache.c:227-228 | after a repairer has died holding the check semaphore no repair ever starts again in a run: the semaphores have to be made anew |
| LockProtocol.Shared.TryLock | src/lmc_lock.c:120 | the try takes the token exactly if it is free, and changes nothing otherwise |
| LockProtocol.Shared.TimedWait | src/lmc_lock.c:119-128 | the wait ends with the token, or with nothing changed and a dead owner whose lock may be repaired |
| LockProtocol.Shared.IsLockWorking | src/lmc_lock.c:79-86 | the test gives back at once what it gets, and fails only while a dead process owns the lock; a process that holds the check semaphore may then force a repair |
| LockProtocol.Shared.SetLockFlag | src/localmemcache.c:189-193 | setting the flag, with the release on failure, is one step; under the invariant it does not fail |
| LockProtocol.Shared.ReleaseLockFlag | src/localmemcache.c:28-39 | clearing the flag is one step; under the invariant it does not fail |
| LockProtocol.Shared.FinishRepair | src/localmemcache.c:243-262 | the end of a forced repair: flag clear, and the semaphore, always found at 0, posted |
| LockProtocol.Shared.LockRepair | src/lmc_lock.c:96-111 | whatever the value was, it becomes 1 |

## Left out

- `src/lmc_shm.c`, `src/lmc_common.c` and name building: mapping files and cleaning strings; the hash is any function into the buckets.
- `src/lmc_error.c`, debug dumps and `lmc_show_status`: they only print.
- The Ruby binding, tests, benchmarks, site and configure script.
- Opening an existing pool of another size or version, and the `drop` command.
- Double frees beyond disjoint live blocks: the size word may hold a `next` offset by then.
- The state between linking an entry and storing its value (src/lmc_hashtable.c:126-127): no crash site lies there, and a crash there could not be repaired.
- `size` after a crash in the middle of `ht_delete`: the counter is decremented last and never rebuilt.
- `int` fields and counters (`op_id`, `locked`, bucket and pair counters) are whole numbers; the fields take a word of the descriptor.
- Real time, fairness and progress: a wait that may time out is a step that may happen.
- What the scan does after it has written a header into a run that is too short.
- CrashRuns.RepairRounds: concerns the pool; that a later repairer obtains the check semaphore of a dead one takes new semaphores (`LockProtocol.RepairsBlocked`).
- Recovery.Recover: a completely logged key is taken to be absent from the table, as after every crash at a crash site; for a key in the table there is `Recovery.Redo`, after which the log stays to be replayed again (src/lmc_hashtable.c:130-139).
- Recovery.CheckTable: starts from tables without lost values; on any other the code reads outside the pool (`Recovery.FilledReadable`).
- UsageMaps.UsageMap.CheckUnmarked: ranges whose check reads outside the bitmap are excluded, as a clear one that ends before bit 64 or after the pool does (src/lmc_valloc.c:424-425).
- UsageMaps.UsageMap.Mark: the same, for the ranges that the code does not test first because they start in the descriptor or right after it (src/lmc_valloc.c:440).
- Marking.MarkReachable: pointers below 8, and blocks in the descriptor or right after it whose check would read outside the bitmap, are excluded.
- Checking.CheckMemory: an accepted chunk that is shorter than a chunk header is excluded, because the first free beside it would read and write the bytes behind it.
- Table operations on a list that counts a chunk twice: `HashTables.HashTable.Delete` is stated there; an allocation may hand out bytes that are still listed (`FreeList.DoubledStaysFree`).
- CrashRuns.InsertAndRepair: it and the runs of a crashed update or delete start from a valid pool in which every byte is free or used; where a scan has stepped over a byte a later allocation can leave a run that is too short (`Repair.LateExample`).
