# Supermap, verified

A Dafny model of Supermap, a small log-structured key-value store, with proofs about it.

Values go to an append-only data log. An index in RAM maps keys to positions in the log. When it is
full it becomes a sorted block on disk; blocks stand in a list, newest first, and two blocks of the
same rank are merged. When the unsorted share of the log reaches a threshold, the log is shrunk: it
becomes sorted and free of duplicates, every position moves, and the block list is replaced by the
index of the new log. Tombstones and sharding by key hash are thin layers on top.

## How it is modelled

The store is described twice. Pure specification functions say what each operation computes:
`Records.AsMap` (the map a log stands for, last record wins), `Records.SortedEntries` (the one sorted
sequence of a map), `Collapsing.Collapse` (the cascade of merges) and the state machine
`SupermapModel` (`Record`, `DropRam`, `Shrink`, `Add`, `Run`). Classes and methods follow the
program's own objects and loops (front pointers, write buffer, binary search, in-place sort, chunked
reads, cascade, filter bits), and each method is proved equal to its specification. The properties
of whole runs are lemmas about the specification; `Supermap.Supermap` keeps a ghost history of all
pairs ever added, its object state equal to the run of that history, and the number of records that
its merges have read equal to that of the run. `Builders` builds the whole stack and drives it.

| file | subject |
|---|---|
| Records.dfy | keys, records, maps of logs, positions |
| Codecs.dfy, RecordFiles.dfy | byte representation, record files, reading in chunks |
| BloomFilters.dfy, Storages.dfy | filters, registers, storages, iterators |
| Sorting.dfy, SortedStorages.dfy, Merging.dfy | reverse + stable sort + unique, search, k-way merge |
| Ranks.dfy, Collapsing.dfy, CollapseCost.dfy, StoragesList.dfy | ranks, cascade, its amortised cost, the list object |
| ShrinkableStorage.dfy | the data log and shrinking |
| RamIndex.dfy, SupermapModel.dfy, SupermapCost.dfy, Supermap.dfy | the store |
| Sharding.dfy, Builders.dfy | shards and tombstones, the builder |

`dafny verify dfyconfig.toml` checks the whole project.

## Choices

- A fixed-length key is represented by its big-endian number. `Codecs.MemcmpIsNumericOrder` proves that
  the order of numbers is the byte order that the code compares with, `Codecs.FromBigEndianRoundTrip`
  that every key has a number and `Codecs.BigEndianRoundTrip` that it has only one.
- A storage is modelled by its records. `RecordFiles.FileBackedStorage` keeps a storage together with
  the bytes of its file and proves that every operation does the same to both, and that reading the
  bytes the way the code does it gives the records, with chunks and indices as in
  `Storages.InputIterator`. The layers above use storages without their bytes, so that they need not
  ask for records that fit the width of their representation.
- A caller has to supply a batch size of at least 1 (the code divides by it) and hands the same number
  to the store and to the list, as the builder does (src/builder/DefaultSupermap.hpp:76 and 95). The
  threshold is the rational num/den with den > 0; 0 means that every add shrinks, and a value above 1
  that none does. A sharded store needs a shard: the builder writes to the first one.
- Registers of the data log's indexes may be void or filters; the list and the store ask for filters,
  which is what the builder supplies (src/builder/DefaultSupermap.hpp:62-73).
- Exceptions of the filter are results (`Outcome`, `Answer`) of its own methods; registers, storages
  and lists prove that they never occur. Assertions of the code are assertions here, or preconditions
  that every caller is proved to meet.
- The hash function is arbitrary. Seeds of a new filter are arbitrary numbers. Index numbers are written
  least significant byte first.
- Standard algorithms (`std::reverse`, `std::stable_sort`, `std::unique`, iteration of `std::map`) are
  written as loops that meet their usual contracts.
- The comment at src/core/BinaryCollapsingSortedStoragesList.hpp:74 asks for blocks of rank 0, and the
  one at line 12 defines the rank by size / RankOneSize. The code appends the block of a shrink, of any
  rank, to an empty list, and rounds the quotient up. The model follows the code.
- One bound has an exact condition: the log is linear in the number of keys after every add if
  and only if the threshold is positive (`SupermapModel.LogIsLinearInKeys`). With threshold 0 the log
  has exactly one record for every key, so the strict inequality fails, by equality.

## Model

| member | source | states |
|---|---|---|
| SupermapModel.RunRefinesMap | src/core/Supermap.hpp:68-113 | The store is a map: after any run of adds, with any batch size >= 1 and any threshold, every key reads as the value of the last pair added with that key, and as nothing if no pair has it; the position read is in bounds, and the size bound lies between the number of distinct keys and the number of adds |
| SupermapModel.NoStalePositions | src/core/Supermap.hpp:68-84 | In every reachable state each entry of the RAM index and of every block, hidden ones included, points at a log record with the same key |
| SupermapModel.RunKeepsInv | src/core/Supermap.hpp:68-164 | Invariant of all reachable states: sorted part strictly sorted, ranks increasing, RAM index below the batch size, and RAM-then-newest-block lookup equal to the map of last positions; the log's map is the map of all adds |
| SupermapModel.IndexesAgreeExactly | src/core/Supermap.hpp:90-106 | RAM-then-newest-block lookup is the map of last positions iff it gives for every key of the log the largest position holding it, and nothing for other keys |
| SupermapModel.RecordKeeps | src/core/Supermap.hpp:69-70 | Appending a pair to the log and pointing the RAM index at it keeps the indexes equal to the map of last positions |
| SupermapModel.DropKeeps | src/core/Supermap.hpp:137-153 | Turning the RAM index into a block, with all the merges this starts, changes no lookup and leaves the RAM index empty |
| SupermapModel.DroppedBlockHasRankZero | src/core/Supermap.hpp:137-153 | A dropped block is not empty and has rank 0 |
| SupermapModel.ShrinkKeeps | src/core/Supermap.hpp:155-164 | With the RAM index dropped before, a shrink moves every position and replaces the list so that indexes and log agree again and no value changes |
| SupermapModel.ShrinkIsGood | src/core/Supermap.hpp:155-164 | The block that a shrink puts into the new list is sorted and not empty |
| SupermapModel.AddKeeps | src/core/Supermap.hpp:68-84 | One add, through overflow drop, threshold test and shrink, keeps the invariant and overwrites exactly one key |
| SupermapModel.GetIsLookup | src/core/Supermap.hpp:90-106 | Reading through RAM index, blocks and log gives the log's last value of the key, from a position in bounds |
| SupermapModel.MergedEntriesPointIntoLog | src/core/BinaryCollapsingSortedStoragesList.hpp:87-94 | If both inputs point into the log with matching keys, so does their merge: merging brings up no stale position |
| SupermapModel.RamEntriesPointIntoLog | src/core/Supermap.hpp:141-150 | The block made of the RAM index points into the log with matching keys |
| SupermapModel.LogIsLinearInKeys | src/core/Supermap.hpp:75-83 | After every add the unsorted share is below num/den and (den-num)*(log size) < den*D, exactly when the threshold is positive; with threshold 0 the log has exactly one record per key |
| SupermapModel.AddCompacts | src/core/Supermap.hpp:75-83 | After an add the unsorted share is strictly below a positive threshold |
| SupermapModel.CompactionIsPaid | src/core/Supermap.hpp:75-83 | Amortised compaction: num * (sum of log sizes at all shrinks) <= den * (adds - unsorted records) |
| SupermapModel.LookupsAreLogarithmic | src/core/BinaryCollapsingSortedStoragesList.hpp:110-125 | A list of L blocks means more than (2^(L-1)-1)*batchSize distinct keys were added |
| Collapsing.ListIsShort | src/core/BinaryCollapsingSortedStoragesList.hpp:110-125 | A list of blocks with increasing ranks has at most one block more than the rank of the number of keys it stores |
| SupermapCost.CollapsingAcrossShrinks | src/core/BinaryCollapsingSortedStoragesList.hpp:76-98 | Records read by all list merges of a whole run, across shrinks, are at most 2*(R+2)*(adds + W + M), with R the rank of the number of adds, W the records shrunk and M the sum of min(log size, batchSize) at the shrinks, which is at most W and at most batchSize*shrinks |
| SupermapCost.CollapsingIsPaidByAdds | src/core/Supermap.hpp:68-84 | In closed form, for every run of A adds: num * (records read by all list merges) <= 2*(R+2)*(num + 2*den)*A, with R the rank of A. For a positive threshold this is a logarithmic number of reads per add |
| SupermapCost.DropIsPaid | src/core/Supermap.hpp:137-153 | A drop and its cascade are paid by the potential plus the price of one block |
| SupermapCost.AddIsPaid | src/core/Supermap.hpp:68-84 | Every add, through overflow drop and shrink, is paid by the record added and the log that a shrink rewrites, and leaves the potential of the block list for later merges |
| SupermapCost.ShrinkIsPaid | src/core/Supermap.hpp:80-83 | A shrink with the drop before it is paid by the size of the log, counted twice up to a batch, and leaves the potential of the one block in the new list |
| SupermapCost.DropReadsLog | src/core/Supermap.hpp:137-153 | With no more index entries than log records, the cascade of a drop reads at most four times the records of the log |
| Supermap.Supermap.constructor | src/core/Supermap.hpp:46-61 | An empty store with an empty history |
| Supermap.Supermap.Add | src/core/Supermap.hpp:68-84 | The object's state stays that of the run of its whole history, extended by this pair, and the merges of its block list have read exactly what that run reads |
| Supermap.Supermap.GetValue | src/core/Supermap.hpp:90-106 | Returns the value of the last pair ever added with the key, and nothing if no pair has it; reads at most (blocks)*(ceil(log2 D)+1)+1 <= (rank(D)+1)*(ceil(log2 D)+1)+1 records, D the number of distinct keys |
| Supermap.Supermap.ReadIndexed | src/core/Supermap.hpp:90-106 | Every position that the indexes give is in bounds, and the record there has the value of the key in the map of the whole history |
| Supermap.Supermap.GetUpperSizeBound | src/core/Supermap.hpp:111-113 | The number of records of the log: never below the number of keys ever added, never above the number of adds |
| Supermap.Supermap.MergesArePaid | src/core/Supermap.hpp:68-84 | At any time, num times the records that the object's merges have read since it was made is at most 2*(R+2)*(num + 2*den) per pair added |
| Supermap.Supermap.RecordPair | src/core/Supermap.hpp:69-70 | The object does the recording step and nothing else |
| Supermap.Supermap.IndexPair | src/core/Supermap.hpp:68-73 | The object does the step of `add` up to the threshold test |
| Supermap.Supermap.DropRamIndexToDisk | src/core/Supermap.hpp:137-153 | The object does the drop step; the log is untouched; its merges read what the model says |
| Supermap.Supermap.ShrinkDataStorage | src/core/Supermap.hpp:155-164 | The object does the shrink step |
| Sharding.StackRefinesMap | src/builder/DefaultRemovableKvs.hpp:23-49 | Tombstones over hash-sharded stores behave as a plain map, for every run, hash function and shard count n >= 1: read in shard hash(key, 239) % n, a key has the value of the last operation on it if that was an add, and nothing if it was a removal or there was none; no read is out of bounds |
| Sharding.ShardsRunSeparately | src/core/KeyHashingShardedKVS.hpp:33-39 | Each shard is in the state of the run of exactly the pairs routed to it |
| Sharding.RoutedIsFilter | src/core/KeyHashingShardedKVS.hpp:33-52 | The pairs routed to shard i are, in order, those at the positions whose key has hash(key, 239) % n = i |
| Sharding.RoutedLookup | src/core/KeyHashingShardedKVS.hpp:37-52 | A shard's pairs determine the values of exactly the keys with hash(key, 239) % n = i |
| Sharding.SummedBoundIsUpper | src/core/KeyHashingShardedKVS.hpp:41-47 | Bounds between keys and pairs that hold per shard sum up to a bound between all keys and all pairs |
| Sharding.ShardsShareAdds | src/core/KeyHashingShardedKVS.hpp:33-35 | Every pair goes to exactly one shard: the shards together receive as many pairs as were added |
| Sharding.TombstonesHide | src/builder/DefaultRemovableKvs.hpp:23-49 | Reading through tombstones is reading the plain map of the operations |
| Sharding.LastOperationWins | src/builder/DefaultRemovableKvs.hpp:23-49 | The plain map has the added value of a key if the last operation on it was an add, and nothing if it was a removal |
| Sharding.UntouchedKey | src/builder/DefaultRemovableKvs.hpp:28-32 | ... and nothing if there was no operation on the key |
| Sharding.LiveKeysAreStored | src/builder/DefaultRemovableKvs.hpp:41-44 | There are no more live keys than stored keys |
| Sharding.KeyHashingShardedKVS.constructor | src/core/KeyHashingShardedKVS.hpp:27-31 | Takes over the given shards, empty and sharing no parts, and consists of nothing else |
| Sharding.KeyHashingShardedKVS.Add | src/core/KeyHashingShardedKVS.hpp:33-52 | The pair reaches exactly the shard at hash(key, 239) % n; the histories of all other shards are unchanged |
| Sharding.KeyHashingShardedKVS.GetValue | src/core/KeyHashingShardedKVS.hpp:37-39 | The value of the last pair ever added with the key, over all shards, and nothing if no pair has it |
| Sharding.KeyHashingShardedKVS.GetUpperSizeBound | src/core/KeyHashingShardedKVS.hpp:41-47 | The sum of the shards' bounds, between the number of keys ever added and the number of adds |
| Sharding.DefaultRemovableKvs.constructor | src/builder/DefaultRemovableKvs.hpp:20-21 | Takes over an empty sharded store and consists of nothing else |
| Sharding.DefaultRemovableKvs.Add | src/builder/DefaultRemovableKvs.hpp:23-26 | Extends the history of operations by an add |
| Sharding.DefaultRemovableKvs.Remove | src/builder/DefaultRemovableKvs.hpp:46-49 | Extends the history of operations by a removal |
| Sharding.DefaultRemovableKvs.GetValue | src/builder/DefaultRemovableKvs.hpp:28-39 | The added value if the last operation on the key was an add; nothing if it was a removal or there was none |
| Sharding.DefaultRemovableKvs.GetUpperSizeBound | src/builder/DefaultRemovableKvs.hpp:41-44 | The inner bound, between the number of live keys and the number of operations |
| Builders.BuildShards | src/builder/ShardedSupermapBuilder.hpp:24-40 | One new, empty store per shard; no two share a part |
| Builders.BuildSharded | src/builder/ShardedSupermapBuilder.hpp:18-46 | A new, empty sharded store of nShards >= 1 stores with the given hash and parameters, all of whose parts are new |
| Builders.BuildRemovable | src/builder/KeyValueStorageBuilder.hpp:66-68 | A new, empty store with removal on top of a new sharded store |
| Builders.Replay | test/supermapStress.cpp:82-108 | The whole object stack against a plain map: any operations applied to a newly built stack, then any key read, give the value of the last operation on the key if it was an add and nothing otherwise, and a size bound between the size of the plain map and the number of operations |
| ShrinkableStorage.KeyValueShrinkableStorage.Shrink | src/core/KeyValueShrinkableStorage.hpp:233-294 | For every batch size and with any register supplier: the unsorted part is empty, the sorted part is the sorted entries of the old log's map (each key once, with its last value), and the returned index is exactly (key_i, i), behind a filter with space for exactly these |
| ShrinkableStorage.KeyValueShrinkableStorage.SortBatches | src/core/KeyValueShrinkableStorage.hpp:238-271 | The sorted batches, exported keys first, union to the map of last positions of the log; there are ceil(n/b) of them and none is empty |
| ShrinkableStorage.KeyValueShrinkableStorage.SortNextBatch | src/core/KeyValueShrinkableStorage.hpp:252-267 | The next chunk of keys, shifted behind the sorted part, becomes a non-empty sorted batch that extends the union |
| ShrinkableStorage.KeyValueShrinkableStorage.ExportKeys | src/core/KeyValueShrinkableStorage.hpp:304-318 | For every batch size the export is the key and the position of every sorted record, and its filter, if it has one, accepts all of them, with space for exactly these |
| ShrinkableStorage.KeyValueShrinkableStorage.NextKeys | src/core/KeyValueShrinkableStorage.hpp:307-315 | The next chunk of exported keys is the next stretch of keys with their positions; only at the end it is empty |
| ShrinkableStorage.KeyValueShrinkableStorage.Rewritten | src/core/KeyValueShrinkableStorage.hpp:82-118 | The new sorted part holds the records the index points at, in index order; the unsorted part is empty |
| ShrinkableStorage.KeyValueShrinkableStorage.CopyResolved | src/core/KeyValueShrinkableStorage.hpp:102-116 | The batched copy loop appends exactly the records that the index points at, for every batch size |
| ShrinkableStorage.KeyValueShrinkableStorage.Get | src/core/KeyValueShrinkableStorage.hpp:167-172 | The record at a position of the whole log, over both parts |
| ShrinkableStorage.KeyValueShrinkableStorage.Append | src/core/KeyValueShrinkableStorage.hpp:157-159 | Appends to the unsorted part only |
| ShrinkableStorage.KeyValueShrinkableStorage.ResetWith | src/core/KeyValueShrinkableStorage.hpp:124-128 | Takes over both parts of the other storage |
| ShrinkableStorage.IndexIsInBounds | src/core/KeyValueShrinkableStorage.hpp:108-113 | Every entry of the merged index is in bounds and names the key of the record it points at, so the bounds assertion holds inside shrink |
| ShrinkableStorage.RewritingKeepsMeaning | src/core/KeyValueShrinkableStorage.hpp:281-287 | Following the merged index rewrites the log as the sorted entries of its own map |
| ShrinkableStorage.NextBatch | src/core/KeyValueShrinkableStorage.hpp:250-271 | Sorting one more batch of positions extends the union of the batches by exactly these positions |
| ShrinkableStorage.BatchNotEmpty | src/core/KeyValueShrinkableStorage.hpp:238-269 | With ceil(n/b) batches, every batch still has records to read |
| Merging.Merge | src/core/SortedSingleFileIndexedStorage.hpp:142-210 | The merge terminates, gives the sorted entries of the newest-wins union for every write-buffer size, fills the filter with exactly the written keys, and reads every input record once; the filter of the result has the supplier's parameters and space for all records read |
| Merging.MergeIsNewestWinsUnion | src/core/SortedSingleFileIndexedStorage.hpp:134-141 | Record by record: strictly sorted, a key is present iff some input has it, and its record is that of the highest-numbered such input |
| Merging.TakeMin | src/core/SortedSingleFileIndexedStorage.hpp:181-204 | One turn of the loop emits the least remaining key with its newest record and makes progress, or finds all inputs exhausted |
| Merging.ScanFronts | src/core/SortedSingleFileIndexedStorage.hpp:182-198 | One pass from newest to oldest finds the unique least front and skips only shadowed records |
| Merging.SkipOnce | src/core/SortedSingleFileIndexedStorage.hpp:195-197 | Skipping while the minimum still moves loses nothing and leaves a larger key in front |
| Merging.UpdateOnce | src/core/SortedSingleFileIndexedStorage.hpp:164-170 | Advances one front pointer and reads the record under it, if there is one |
| Merging.InitialFronts | src/core/SortedSingleFileIndexedStorage.hpp:153-162 | Loads the first record of every non-empty input and counts all records |
| Merging.PushBack | src/core/SortedSingleFileIndexedStorage.hpp:204-207 | Buffered and written records together grow by the one record |
| Merging.SkipShadowed | src/core/SortedSingleFileIndexedStorage.hpp:195-197 | A skipped key is still in front of a newer input, so the union of what remains is unchanged |
| Merging.EmitLeast | src/core/SortedSingleFileIndexedStorage.hpp:202-204 | Emitting the least front keeps the output sorted, below all that remains, and together with it equal to the union |
| Merging.NothingRemains | src/core/SortedSingleFileIndexedStorage.hpp:199-209 | When all inputs are exhausted the output is the whole union |
| SortedStorages.SkippingShadowedRecord | src/core/SortedSingleFileIndexedStorage.hpp:195-197 | Dropping a front record whose key a newer input still has does not change the union |
| SortedStorages.TakingLeastFront | src/core/SortedSingleFileIndexedStorage.hpp:202-203 | Taking the least front takes exactly its key and value out of the union |
| SortedStorages.UnionTakesNewest | src/core/SortedSingleFileIndexedStorage.hpp:134-136 | The union takes a key's record from the highest-numbered input that has it |
| SortedStorages.UnionKeys | src/core/SortedSingleFileIndexedStorage.hpp:134-136 | The union has exactly the keys of the inputs |
| SortedStorages.FromCollection | src/core/SortedSingleFileIndexedStorage.hpp:52-65 | From any collection: each key once, in order, with its last value; the filter accepts all stored keys; its filter has the supplier's parameters and space for one more than the collection |
| SortedStorages.Find | src/core/SortedSingleFileIndexedStorage.hpp:107-131 | Binary search is exact on strictly sorted storage and reads at most ceil(log2 n)+1 records |
| SortedStorages.HalvingStep | src/core/SortedSingleFileIndexedStorage.hpp:117-125 | Each half of a range of more than one record costs one read less than the range |
| SortedStorages.CeilLog2Bounds | src/core/SortedSingleFileIndexedStorage.hpp:117-125 | The logarithm in the search bound is the true one: n <= 2^ceil(log2 n) < 2n |
| SortedStorages.FilteredFind | src/core/FilteredStorage.hpp:62-72 | Search behind the filter equals unfiltered search, and the filter never throws |
| Sorting.SortedEndIterator | src/core/SortedSingleFileIndexedStorage.hpp:87-96 | The prefix left by reverse, stable sort, unique is the sorted entries of the input's map: each key once, with its last value |
| Sorting.LastOccurrencesSurvive | src/core/SortedSingleFileIndexedStorage.hpp:93-95 | Deduplicating any stable sorting of the reversed input keeps the last occurrence of each key |
| Sorting.Reverse | src/core/SortedSingleFileIndexedStorage.hpp:93 | In-place reversal |
| Sorting.StableSort | src/core/SortedSingleFileIndexedStorage.hpp:94 | In-place sort that keeps, for each key, its values in their order |
| Sorting.Unique | src/core/SortedSingleFileIndexedStorage.hpp:95 | In place, the kept prefix is the first record of every run of equal keys |
| Sorting.DeduplicatedKeepsFirst | src/core/SortedSingleFileIndexedStorage.hpp:95 | In sorted input, unique leaves exactly the occurring keys, each with its first value |
| Sorting.DeduplicatedIsSorted | src/core/SortedSingleFileIndexedStorage.hpp:95 | ... in strictly increasing order |
| Sorting.OccurrencesReversed | src/core/SortedSingleFileIndexedStorage.hpp:93 | Reversal reverses the values of each key |
| Sorting.SwapIsStable | src/core/SortedSingleFileIndexedStorage.hpp:94 | Exchanging neighbours of different keys is stable |
| StoragesList.BinaryCollapsingSortedStoragesList.Append | src/core/BinaryCollapsingSortedStoragesList.hpp:76-99 | The list becomes the collapsed list, ranks increase, all filters stay complete, and the records read are those of the cascade |
| StoragesList.BinaryCollapsingSortedStoragesList.CollapseWhileEqual | src/core/BinaryCollapsingSortedStoragesList.hpp:78-98 | The loop computes the cascade |
| StoragesList.BinaryCollapsingSortedStoragesList.CollapseIfEqual | src/core/BinaryCollapsingSortedStoragesList.hpp:81-97 | One turn merges exactly if the ranks are equal; the asserted order of ranks holds |
| StoragesList.BinaryCollapsingSortedStoragesList.Find | src/core/BinaryCollapsingSortedStoragesList.hpp:110-125 | Finds the newest record of the key over all blocks, behind the filters, with a logarithmic number of reads per block |
| StoragesList.MergeInto | src/core/BinaryCollapsingSortedStoragesList.hpp:87-94 | The older storage is reset with the newest-wins merge of copies of both; its new filter accepts all its keys; its new filter has space for both |
| StoragesList.GetRank | src/core/BinaryCollapsingSortedStoragesList.hpp:50-55 | The rank of a node's storage |
| Collapsing.CollapseKeeps | src/core/BinaryCollapsingSortedStoragesList.hpp:76-99 | The cascade ends with strictly increasing ranks and changes no lookup |
| Collapsing.CascadeStep | src/core/BinaryCollapsingSortedStoragesList.hpp:80-97 | At each step the inputs have one rank, the result has that rank or the next, and the asserted order of ranks holds again |
| Collapsing.CollapseOnceKeepsLookups | src/core/BinaryCollapsingSortedStoragesList.hpp:87-94 | Merging (older, newer) changes no lookup |
| Collapsing.MergedPairOverlays | src/core/BinaryCollapsingSortedStoragesList.hpp:87-93 | The merge of two blocks overlays their maps, is no smaller than either and no larger than both together |
| Collapsing.CascadeStart | src/core/BinaryCollapsingSortedStoragesList.hpp:76-79 | A block whose rank is not above that of the head may be appended |
| Collapsing.ListIsLogarithmic | src/core/BinaryCollapsingSortedStoragesList.hpp:50-55 | A list of L blocks stores more than (2^(L-1)-1)*r distinct keys |
| Collapsing.SmallBlockHasRankZero | src/core/BinaryCollapsingSortedStoragesList.hpp:50-55 | Blocks of 1 to r records have rank 0 |
| CollapseCost.RunKeeps | src/core/BinaryCollapsingSortedStoragesList.hpp:76-125 | After any sequence of appends that the list accepts (sorted, not empty, rank at most that of the head at that time) the list looks up the newest record over all blocks ever appended, and ranks increase |
| CollapseCost.SmallBlocksAreAppendable | src/core/BinaryCollapsingSortedStoragesList.hpp:72-81 | Blocks of 1 to r records are always accepted, after whatever blocks |
| CollapseCost.RunIsPaid | src/core/BinaryCollapsingSortedStoragesList.hpp:76-98 | From any list, records read by merges over A appends plus the final potential are at most the initial potential plus 2*r*A*(R+2), R bounding the ranks that occur |
| CollapseCost.CollapsingIsLogarithmic | src/core/BinaryCollapsingSortedStoragesList.hpp:76-98 | From an empty list A appends read at most 2*r*A*(log2(A)+2) records |
| CollapseCost.CascadeIsPaid | src/core/BinaryCollapsingSortedStoragesList.hpp:80-98 | The reads of a cascade are paid by the drop of the potential, even when duplicates keep a merged block at its rank |
| CollapseCost.CascadeReadsBlocks | src/core/BinaryCollapsingSortedStoragesList.hpp:80-98 | One cascade reads at most four times the records of the blocks behind the head, plus a head of rank 0 |
| CollapseCost.CascadeReadsConsumed | src/core/BinaryCollapsingSortedStoragesList.hpp:80-98 | The merge reads of a cascade are not fewer than the records of the blocks it takes; the other blocks stay as they are |
| CollapseCost.MergeIsPaid | src/core/BinaryCollapsingSortedStoragesList.hpp:87-94 | The potential of two blocks of one rank pays for reading both and for the potential of the result |
| Ranks.RankOfMerged | src/core/BinaryCollapsingSortedStoragesList.hpp:50-55 | Two sizes of rank k merge to a size of rank k or k+1 |
| Ranks.RankExactly | src/core/BinaryCollapsingSortedStoragesList.hpp:54 | A size has rank k iff it is above (2^k-1)*r and at most (2^(k+1)-1)*r |
| Ranks.FloorLog2Exactly | src/core/BinaryCollapsingSortedStoragesList.hpp:54 | The integer logarithm of n is the k with 2^k <= n < 2^(k+1) |
| BloomFilters.AcceptsExactly | src/core/BloomFilter.hpp:55-67 | A filter accepts a key iff every bit hash(key, seed) % size of it is also a bit of some added key under some seed |
| BloomFilters.AddedKeysAreAccepted | src/core/BloomFilter.hpp:41-67 | No false negatives under any hash function |
| BloomFilters.BitsAreTheHits | src/core/BloomFilter.hpp:41-50 | A bit is set iff it is hash(key, seed) % size for some added key and some seed |
| BloomFilters.BloomFilter.Add | src/core/BloomFilter.hpp:41-50 | Throws iff the bit vector is empty; otherwise sets exactly the bits hash(value, seed) % size of the value |
| BloomFilters.BloomFilter.MightContain | src/core/BloomFilter.hpp:55-67 | Throws iff the bit vector is empty; otherwise tells whether all bits hash(value, seed) % size are set |
| BloomFilters.BloomFilter.Reserve | src/core/BloomFilter.hpp:76-83 | Throws iff already reserved; otherwise the vector has the least size >= elements times multiplier, and stays empty for no elements |
| BloomFilters.BloomFilter.CopyOf | src/core/BloomFilter.hpp:85-91 | An independent filter with the same bits, seeds and reservation |
| Storages.InnerRegister.RegisterItem | src/core/FilteringRegister.hpp:30-32 | The filter becomes that of all registered keys; it never throws |
| Storages.InnerRegister.Reserve | src/core/FilteringRegister.hpp:56-58 | The one reservation of a fresh register never throws and gives the filter space for n items |
| Storages.InnerRegister.Clone | src/core/FilteringRegister.hpp:45-50 | The clone has its own filter, equal to the original |
| Storages.RegisterSupplier.Supply | src/builder/DefaultSupermap.hpp:62-73 | A fresh unreserved register, with a filter of the configured hash function, number of seeds and multiplier |
| Storages.SingleFileIndexedStorage.Append | src/core/SingleFileIndexedStorage.hpp:79-84 | One record more; count and filter agree with the contents |
| Storages.SingleFileIndexedStorage.AppendAll | src/core/SingleFileIndexedStorage.hpp:101-110 | All records in order; count and filter agree with the contents |
| Storages.SingleFileIndexedStorage.ResetWith | src/core/SingleFileIndexedStorage.hpp:67-72 | Takes over register and contents of the other storage; count and filter agree again |
| Storages.SingleFileIndexedStorage.CopyOf | src/core/CountingStorageItemRegister.hpp:80-82 | A copy with a cloned register that agrees with the contents |
| Storages.SingleFileIndexedStorage.Reserve | src/core/CountingStorageItemRegister.hpp:126-128 | Reserves the inner register of an empty storage |
| Storages.SingleFileIndexedStorage.SpaceFor | src/core/BloomFilter.hpp:76-83 | A storage with space for n items, from a supplier of filters, has a filter of the least number of bits that is not below n times the supplier's multiplier, so at least n bits |
| Storages.InputIterator.CollectWith | src/io/InputIterator.hpp:92-115 | The next min(left, limit) objects, each with its running index; limit 0 reads to the end, and a positive limit is missed only at the end |
| Storages.InputIterator.Collect | src/io/InputIterator.hpp:122-124 | The next min(left, limit) objects in order, all of them for limit 0; only at the end there are none |
| RamIndex.BST.Add | src/core/BST.hpp:25-27 | Overwrites one key |
| RamIndex.BST.GetValue | src/core/BST.hpp:32-37 | The value of the key if it is in the map, and nothing otherwise |
| RamIndex.BST.Extract | src/core/BST.hpp:49-57 | All pairs in key order, each key once; the index is left empty |
| RecordFiles.RecordFile.Append | src/core/SingleFileIndexedStorage.hpp:79-84 | The file's bytes stay those of the record sequence, one record longer |
| RecordFiles.RecordFile.AppendAll | src/core/SingleFileIndexedStorage.hpp:101-110 | The file's bytes stay those of the record sequence, extended by all items |
| RecordFiles.RecordFile.Get | src/core/SingleFileIndexedStorage.hpp:129-135 | Reading at offset index*size decodes the index-th record |
| RecordFiles.RecordFile.ReadAll | src/io/InputIterator.hpp:92-124 | Chunks of any limit concatenate to the whole file |
| RecordFiles.RecordFile.SwapWith | src/io/DiskFileManager.cpp:30-35 | Two files exchange their bytes |
| RecordFiles.FileBackedStorage.constructor | src/core/SingleFileIndexedStorage.hpp:33-39 | A new storage and its new file hold no record |
| RecordFiles.FileBackedStorage.Append | src/core/SingleFileIndexedStorage.hpp:79-84 | Storage and file stay in agreement, one record longer |
| RecordFiles.FileBackedStorage.AppendAll | src/core/SingleFileIndexedStorage.hpp:101-110 | Storage and file stay in agreement, extended by all items |
| RecordFiles.FileBackedStorage.Get | src/core/SingleFileIndexedStorage.hpp:129-135 | The record decoded from the bytes at offset index*size is the one the storage holds at that index |
| RecordFiles.FileBackedStorage.ReadAll | src/core/SingleFileIndexedStorage.hpp:140-142 | Chunks decoded from the file concatenate to the records of the storage |
| RecordFiles.FileBackedStorage.ResetWith | src/core/SingleFileIndexedStorage.hpp:67-72 | Storage and file of the other storage are taken over together, and the swapped file agrees with the other storage |
| RecordFiles.ByteIterator.CollectWith | src/io/InputIterator.hpp:92-115 | A chunk of bytes decodes to the next records with consecutive indices, to all of them for limit 0; the asserted divisibility holds |
| RecordFiles.ByteIterator.CollectKeys | src/core/KeyValueShrinkableStorage.hpp:333-348 | Decoding keys and skipping values gives exactly the keys of the next records, of all of them for limit 0 |
| RecordFiles.ByteIterator.Next | src/io/InputIterator.hpp:73-76 | Decodes the next record and advances by one |
| RecordFiles.ByteIterator.HasNext | src/io/InputIterator.hpp:63-65 | True iff a record is left |
| Codecs.Layout.RecordRoundTrip | src/primitive/KeyValue.hpp:60-106 | A serialized record has the fixed size, decodes to itself, and its key decodes alone |
| Codecs.Layout.KeyComesFirst | src/primitive/KeyValue.hpp:60-106 | A record is the bytes of its key, most significant first, and then those of its value |
| Codecs.Layout.SerializedSlice | src/primitive/KeyValue.hpp:102-106 | The bytes between two record boundaries are those of the records in between |
| Codecs.MemcmpIsNumericOrder | src/primitive/Key.hpp:64-66 | Comparing keys of one length byte by byte is comparing the numbers that represent them here |
| Codecs.FromBigEndianRoundTrip | src/primitive/Key.hpp:64-81 | Every byte string of the key length is the key of a number below 256^length |
| Codecs.BigEndianRoundTrip | src/primitive/Key.hpp:64-81 | ... and of no other one: the bytes determine every number below 256^length |
| Codecs.IndexCodecValid | src/io/ShallowSerializer.hpp:57-78 | Positions fit the index width iff they are below 256^width, and these round-trip through their bytes |
| Codecs.LittleEndianIsReversed | src/io/ShallowSerializer.hpp:57-78 | Positions are written least significant byte first: the reverse of the big-endian form |
| Codecs.ByteArrayCodecValid | src/primitive/ByteArray.hpp:136-166 | Byte arrays fit iff they have the given length, are written as they are, and round-trip |
| Codecs.MaybeRemovedCodecValid | src/primitive/MaybeRemovedValue.hpp:46-66 | A value fits iff the wrapped value does, removed or not; it is written before its flag byte, and both round-trip |
| Records.LastRecordWins | src/core/KeyValueShrinkableStorage.hpp:151-156 | In the map of a log the value of a key is the one of its last record |
| Records.LookupIsLast | src/core/Supermap.hpp:90-106 | Looking up a key in the map of a log gives the value of its last record, and nothing if it has none |
| Records.AsMapKeys | src/core/KeyValueShrinkableStorage.hpp:151-156 | The map of a log has exactly the keys that occur |
| Records.AsMapConcat | src/core/KeyValueShrinkableStorage.hpp:151-156 | Appending logs overlays their maps, the later one on top |
| Records.SortedUnique | src/core/KeyValueShrinkableStorage.hpp:223-226 | A strictly sorted sequence is determined by its map, so results described by a map are described completely |
| Records.SortedEntries | src/core/KeyValueShrinkableStorage.hpp:223-226 | Every map has such a sequence, of the size of the map |
| Records.PositionsPointAtLast | src/core/KeyValueShrinkableStorage.hpp:167-172 | The map of positions holds the largest position of every key, and reading there gives the key's last value |

## Left out

- Real files, streams, temporary files and folders, and the renames of a swap: a storage owns its
  contents, and `resetWith` takes over those of the other storage.
- File names and their random suffixes: names are assumed to be fresh.
- The width of `IndexT`: positions and counts are unbounded, so a log with more records than the index
  type can number is not described. Only the byte codec of positions has a width.
- Rounding of `double` in the threshold test, in the filter size and in `std::log2`: exact arithmetic.
- The false-positive rate of filters and the choice of their size and number of seeds: only a size
  multiplier of at least 1 is kept.
- The hash function itself and the random choice of seeds.
- The list nodes and their shared pointers: the chain from the head on is a sequence of storage objects,
  which the methods relink and whose storages they overwrite in place.
- Moves and reference counts of C++, and virtual calls: tombstones are modelled over the sharded store
  and shards over stores that start empty, not over an arbitrary `KeyValueStorage`. The `remove` of a
  sharded store, which the code does not implement, and the single-filter wrapper of
  src/builder/DefaultFilteredKvs.hpp are not modelled.
- An `appendAll` that a throwing filter interrupts: it is proved not to occur inside the store.
- Removal from the RAM index (src/core/BST.hpp:59-61), which the store never calls, and RAM indexes that
  the builder is given with entries already in them: a new store starts with an empty one.
- Command line, benchmark, the fluent builder interface and exception classes: they would only add easy
  members.
