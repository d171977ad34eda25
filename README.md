# BigArchive deduplication core in Dafny

BigArchive deduplicates snapshots of VM disks. A disk trace is a stream of
block records (checksum, size). The stream is cut into segments of about
2 MiB. Each snapshot keeps a recipe: the list of its segments, and for
every segment the list of its blocks. On disk a recipe stores each entry's
cumulative end offset rather than its size. Sizes are rebuilt on load as
the difference of consecutive end offsets, in the unsigned width of the
field (32 bits for blocks, 64 bits for segments).

Snapshot control ties the recipes to their collaborators:

- a per-VM append store that holds block payloads and segment block lists,
  addressed by 8-byte handles;
- a filesystem of metadata and bloom-filter files;
- a pair of bloom filters;
- the CDS index, a global checksum-to-offset table kept in memcached.

The simulations estimate how well policies deduplicate:

- `do_block_freq` counts block frequencies and picks the most-linked
  blocks with a top-k min-heap;
- `theoretical` counts exact dedup;
- `sampled` simulates a sparse index over containers of 8 segments
  (1 block in 100 indexed) with an LRU cache, parent-segment lookups and
  dirty tracking;
- the binning tool splits the trace into partitions by min-hash.

The model has one Dafny module per concern:

| file | module | what it holds |
|---|---|---|
| `bytes.dfy` | `Bytes`, `Maybe` | fixed-width integers, the little-endian view `memcpy` gives of a `uint64_t`, `Option` |
| `offsets.dfy` | `Offsets` | the cumulative end-offset encoding and its round trip under wrap-around |
| `snapshot_types.dfy` | `SnapshotTypes` | `BlockMeta` and `SegmentMeta` (datatypes) and `SnapshotMeta` (a class) |
| `strings.dfy` | `StdString` | the `std::string` searches used by trace-path parsing, with `size_t` wrap-around |
| `collaborators.dfy` | `Collaborators` | the append store, the filesystem, the bloom filter and the LRU cache, as contracts |
| `snapshot_control.dfy` | `Control` | storage paths, trace-path parsing and the `SnapshotControl` class |
| `cds_index.dfy` | `Cds` | the memcached-backed index: `Set`, `Get`, `LoadCds`, `BatchGet` |
| `trace.dfy` | `Trace` | `load_segment` and the segment reader loop |
| `min_heap.dfy` | `MinHeap` | the array min-heap of `freq.cpp` |
| `freq.dfy` | `Freq` | checksum order, `do_block_freq`, its summaries and `theoretical` |
| `sampled.dfy` | `Sampled` | the sampled index and the lookup loop of `sampled` |
| `binning.dfy` | `Binning` | the per-partition routing and accounting of the binning tool |

Code that mutates in place is modelled imperatively:

- `SnapshotMeta`, `SnapshotControl`, `CdsIndex`, the append store and the
  filesystem are classes;
- the heap works on an `array<int>`;
- the scans are methods with loops.

Each such method is proved against a specification function, and the
properties are proved about that function.

The ordering of the network and filesystem collaborators is not modelled,
and neither are their failures beyond a `delivered` flag. Randomness,
clocks and I/O are parameters or are left out.

## Model

| member | source | states |
|---|---|---|
| SnapshotTypes.PlacementFlagsIndependent | src/snapshot/snapshot_types.h:14-16 | OR-ing in any one of `IN_CDS`, `IN_AS`, `IN_PARENT` sets that bit and leaves the other two as they were |
| SnapshotTypes.SetHandle | src/snapshot/snapshot_types.cpp:84-90 | a handle string whose length is not 8 is refused: the result is 0 and the field is unchanged; an 8-byte string becomes the field, and `GetHandle` then returns the same bytes |
| SnapshotTypes.GetHandle | src/snapshot/snapshot_types.cpp:92-96 | the handle is exactly 8 bytes, and reading them back as a `uint64_t` gives the field |
| SnapshotTypes.HandleRoundTrip | src/snapshot/snapshot_types.cpp:84-96 | storing the bytes `GetHandle` produced restores the handle, whatever the field held before |
| SnapshotTypes.FreshBlockMeta | src/snapshot/snapshot_types.cpp:4-12 | a new block has handle 0, flags 0 (no placement bit), end offset 0, size 0, no buffer, and owns no buffer |
| SnapshotTypes.BlockMeta.DeserializeData | src/snapshot/snapshot_types.cpp:42-55 | an owned buffer is released; payload bytes whose length equals the size are copied in as an owned buffer; on a length mismatch an owned buffer ends up NULL and a borrowed one stays; nothing else changes |
| SnapshotTypes.BlockMeta.SerializeData | src/snapshot/snapshot_types.cpp:36-40 | exactly `size` bytes of the buffer are written, and nothing when there is no buffer |
| SnapshotTypes.DataRoundTrip | src/snapshot/snapshot_types.cpp:36-55 | a payload whose length is the block size, when loaded and written again, gives the same bytes |
| SnapshotTypes.DeserializeBlockRecipe | src/snapshot/snapshot_types.cpp:153-166 | the `last_ending` loop gives each block the size `end[i] - end[i-1]` modulo 2^32 (with `end[-1] = 0`); an empty list stays empty |
| SnapshotTypes.BlockRecipeRoundTrip | src/snapshot/snapshot_types.cpp:20-26 | when end offsets are the 32-bit running totals of the sizes, writing {cksum, end_offset, handle, flags} and rebuilding restores every block exactly, except its payload buffer |
| SnapshotTypes.RebuiltBlockSizesSum | src/snapshot/snapshot_types.cpp:160-165 | for non-decreasing end offsets the rebuilt block sizes add up to the last end offset |
| SnapshotTypes.RebuiltBlockSizeWraps | src/snapshot/snapshot_types.h:26-27 | a block end offset smaller than the previous one is not rejected: its rebuilt size is the difference plus 2^32 |
| SnapshotTypes.SegmentMeta.GetBlockSize | src/snapshot/snapshot_types.cpp:135-141 | the stored size of block `index`, and 0 for an index past the list |
| SnapshotTypes.BuildIndex | src/snapshot/snapshot_types.cpp:182-188 | the map holds exactly the recipe's checksums, each mapped to the position of the last block that carries it |
| SnapshotTypes.SearchBlock | src/snapshot/snapshot_types.cpp:190-196 | the result is non-NULL exactly when the checksum is in the map |
| SnapshotTypes.SearchAfterBuildIndex | src/snapshot/snapshot_types.cpp:182-196 | after `BuildIndex`, a search finds a block iff some block has that checksum, and then it is the last such block |
| SnapshotTypes.SegmentRecipeRoundTrip | src/snapshot/snapshot_types.cpp:100-105 | when end offsets are the 64-bit running totals of the sizes, writing {cksum, end_offset, handle} and rebuilding restores every entry, except its block list |
| SnapshotTypes.SnapshotMeta.constructor | src/snapshot/snapshot_types.h:86-92 | the implicitly constructed metadata with its ids assigned: the given ids, an empty recipe, and a size that is whatever the uninitialised `size_` held (`staleSize`); the running-total invariant holds exactly when that value is 0 |
| SnapshotTypes.SnapshotMeta.GetSegmentSize | src/snapshot/snapshot_types.cpp:233-239 | the stored size of segment `index`, and 0 for an index past the recipe |
| SnapshotTypes.SnapshotMeta.AddSegment | src/snapshot/snapshot_types.cpp:246-251 | exactly one entry is appended and earlier entries are unchanged; `size` grows by the segment's size modulo 2^64; the new entry's end offset is the new size; the running-total invariant is kept |
| SnapshotTypes.SnapshotMeta.SerializeHeader | src/snapshot/snapshot_types.cpp:200-205 | the header holds the VM id, the snapshot id and the size |
| SnapshotTypes.SnapshotMeta.DeserializeHeader | src/snapshot/snapshot_types.cpp:207-212 | afterwards the header reads back as the one loaded, and the recipe is untouched |
| SnapshotTypes.SnapshotMeta.SerializeRecipe | src/snapshot/snapshot_types.cpp:253-256 | one {cksum, end_offset, handle} record per entry, in order |
| SnapshotTypes.SnapshotMeta.DeserializeRecipe | src/snapshot/snapshot_types.cpp:258-269 | each entry's size becomes the 64-bit difference of consecutive end offsets, stored into the 32-bit field; the header fields are untouched |
| SnapshotTypes.AppendKeepsCumulative | src/snapshot/snapshot_types.cpp:246-251 | appending the way `AddSegment` does keeps every end offset equal to the wrapped running total, and keeps `size` equal to the wrapped total |
| SnapshotTypes.ReloadKeepsSegmentSizes | src/snapshot/snapshot_types.cpp:246-269 | a recipe grown by `AddSegment`, when written and read back, gives every segment its original size, checksum and handle |
| Offsets.DeltasRecoverSizes | src/snapshot/snapshot_types.cpp:258-269 | when the end offsets are the running totals of sizes that fit the field, wrapped to the field's width, the rebuilt sizes are exactly the original sizes, even if the total wrapped |
| Offsets.DeltasSumToLastEnd | src/snapshot/snapshot_types.cpp:160-165 | for non-decreasing end offsets the rebuilt sizes add up to the last end offset |
| Offsets.DecreasingOffsetWraps | src/snapshot/snapshot_types.cpp:163 | a decreasing end offset yields the difference plus the modulus |
| Bytes.DecodeEncode | src/snapshot/snapshot_types.h:18-21 | a value that fits into `k` bytes, written little-endian and read back, is the value |
| Bytes.EncodeDecode | src/snapshot/snapshot_types.h:18-21 | `k` bytes, read as a value and written back, are the same bytes |
| StdString.RFind | src/snapshot/snapshot_control.cpp:43-45 | `rfind(c, pos)` is the last `c` at or before `pos`, or `npos` when there is none |
| StdString.Find | src/snapshot/snapshot_control.cpp:46 | `find(c, pos)` is the first `c` at or after `pos`, or `npos` when there is none |
| StdString.FindLastOf | src/snapshot/snapshot_control.cpp:47 | `find_last_of(c)` is the last `c` of the string, or `npos` when there is none |
| StdString.Substr | src/snapshot/snapshot_control.cpp:48-51 | `substr(pos, n)` is the at most `n` characters from `pos`, stopping at the end of the string |
| Control.SnapshotPathsDistinct | src/snapshot/snapshot_control.cpp:24-34 | the metadata file, the two filter files, the store path and the VM metadata file of one snapshot never share a path |
| Control.SnapshotMetaPathInjective | src/snapshot/snapshot_control.cpp:29 | within one VM, different snapshot ids get different metadata paths |
| Control.SnapshotMetaIsVmMetaIff | src/snapshot/snapshot_control.cpp:27-29 | a snapshot's metadata path is the VM's `vm.meta` exactly when the snapshot id is "vm" |
| Control.VmPath | src/snapshot/snapshot_control.cpp:26 | the VM directory is `/`, the base directory `root`, `/`, then the VM id |
| Control.VmMetaPath | src/snapshot/snapshot_control.cpp:27 | the VM metadata file is `vm.meta` directly inside the VM directory |
| Control.StorePath | src/snapshot/snapshot_control.cpp:28 | the append store is `appendstore` directly inside the VM directory |
| Control.SnapshotMetaPath | src/snapshot/snapshot_control.cpp:29 | the snapshot metadata file is the snapshot id plus `.meta`, directly inside the VM directory |
| Control.PrimaryFilterPath | src/snapshot/snapshot_control.cpp:30 | the primary filter file is the snapshot id plus `.bm1`, directly inside the VM directory |
| Control.SecondaryFilterPath | src/snapshot/snapshot_control.cpp:31 | the secondary filter file is the snapshot id plus `.bm2`, directly inside the VM directory |
| Control.ParseWellFormedTracePath | src/snapshot/snapshot_control.cpp:41-51 | for `<...>/<os>/<disk>/<vm>.<snapshot>-<tail>`: the OS and disk types are the two directory names before the basename; the VM id is the basename up to its first '.'; the snapshot id runs from there to the last '-' |
| Control.ParsedIdsAreComponents | src/snapshot/snapshot_control.cpp:41-51 | for every trace path, including one with fewer than three '/' where the `size_t` positions wrap, the OS type, the disk type and the VM id contain no '/' |
| Control.DiskTypeIsComponent | src/snapshot/snapshot_control.cpp:42-49 | the disk type cut out between the last two '/' positions (or their wrapped stand-ins) holds no '/' |
| Control.OsTypeIsComponent | src/snapshot/snapshot_control.cpp:42-48 | the OS type cut out one '/' further back holds no '/' |
| Control.SnapshotControl.ParseTraceFile | src/snapshot/snapshot_control.cpp:41-51 | the OS type, the disk type and both ids become what `ParseTracePath` extracts from the trace path; the trace path, the six derived paths, the recipe, the size, the store, the VM metadata and the filters are unchanged |
| Control.SnapshotControl.FromTraceFile | src/snapshot/snapshot_control.cpp:7-12 | the ids are those `ParseTraceFile` extracts from the trace path; every path is derived from them; whatever value the size held is zeroed, so the recipe is empty, the size 0 and the running-total invariant holds; no store, no filters |
| Control.SnapshotControl.constructor | src/snapshot/snapshot_control.cpp:15-22 | the given ids are kept; every path is derived from them; whatever value the size held is zeroed (size 0, empty recipe, running totals hold); no store |
| Control.SnapshotControl.Init | src/snapshot/snapshot_control.cpp:24-34 | every path is derived from the VM and snapshot ids; the snapshot size is reset to 0 and the store pointer to NULL; the recipe, ids and filters are untouched |
| Control.SnapshotControl.SetAppendStore | src/snapshot/snapshot_control.cpp:36-39 | the store is the one given; every path, the trace names, the VM metadata and both filters are unchanged |
| Control.SnapshotControl.LoadSnapshotMeta | src/snapshot/snapshot_control.cpp:56-81 | false exactly when the metadata file is missing; otherwise the header and the recipe (sizes rebuilt from offsets) come from the file |
| Control.SnapshotControl.SaveSnapshotMeta | src/snapshot/snapshot_control.cpp:83-103 | the VM directory exists afterwards; the metadata path holds the header and recipe now, replacing any earlier file; no other file changes |
| Control.SnapshotControl.SaveThenLoadSnapshotMeta | src/snapshot/snapshot_control.cpp:56-103 | for a recipe grown by `AddSegment`, save then load restores the header and every entry's checksum, handle, end offset and size |
| Control.SnapshotControl.UpdateSnapshotRecipe | src/snapshot/snapshot_control.cpp:105-113 | one entry copying size, checksum, end offset and handle (no block list) is appended; the snapshot size is not changed |
| Control.UpdateSnapshotRecipeLeavesSizeBehind | src/snapshot/snapshot_control.cpp:105-113 | after appending an entry of non-zero size this way, the snapshot size is no longer the total of the sizes, as it is after `AddSegment` |
| Control.SnapshotControl.LoadSegmentRecipe | src/snapshot/snapshot_control.cpp:115-129 | false, with no store read and the segment untouched, for an index past the recipe; otherwise the entry, with its block list read through the entry's handle and its sizes rebuilt |
| Control.SnapshotControl.SaveSegmentRecipe | src/snapshot/snapshot_control.cpp:131-138 | the segment's block records are appended to the store as one blob and the segment's handle becomes that blob's position; a store that cannot take the blob leaves both unchanged and returns false |
| Control.SnapshotControl.SaveBlockData | src/snapshot/snapshot_control.cpp:140-147 | exactly `size` payload bytes are appended; the handle becomes their position; `IN_AS` is set and no other field changes; a store that cannot take the blob leaves both unchanged and returns false |
| Control.SnapshotControl.LoadBlockData | src/snapshot/snapshot_control.cpp:149-166 | false with no read when `IN_CDS` is set; otherwise true exactly when the read succeeds and returns `size` bytes, which then become the block's payload |
| Control.SnapshotControl.SaveThenLoadBlock | src/snapshot/snapshot_control.cpp:140-166 | a block saved and loaded through its new handle gets its payload back and is marked `IN_AS` |
| Control.SnapshotControl.InitBloomFilters | src/snapshot/snapshot_control.cpp:168-221 | without `vm.meta`: the item count is `snapshot_size / AVG_BLOCK_SIZE` and is written to a new `vm.meta`; otherwise it is read from that file and no file changes; the primary filter is empty and sized for that count; the secondary has twice it (64-bit) and hash bank 8; every path, the trace names and the store are unchanged |
| Control.SnapshotControl.UpdateBloomFilters | src/snapshot/snapshot_control.cpp:223-229 | both filters gain exactly the segment's block checksums, and each of them then answers true for every one; the VM metadata, every path, the trace names and the store are unchanged |
| Control.SnapshotControl.SaveBloomFilter | src/snapshot/snapshot_control.cpp:237-255 | the VM directory exists afterwards; the named file holds the filter, replacing any earlier file |
| Control.SnapshotControl.SaveBloomFilters | src/snapshot/snapshot_control.cpp:231-235 | afterwards the primary and the secondary filter files hold the two filters, the VM directory exists, and no other file changes |
| Control.SnapshotControl.LoadBloomFilter | src/snapshot/snapshot_control.cpp:270-292 | false exactly when the file is missing; otherwise the filter stored in it |
| Control.SnapshotControl.RemoveBloomFilter | src/snapshot/snapshot_control.cpp:263-268 | always true; afterwards the file is absent, whether or not it existed, so repeating it changes nothing |
| Control.SnapshotControl.RemoveBloomFilters | src/snapshot/snapshot_control.cpp:257-261 | both filter files are gone and nothing else changes |
| Collaborators.ReadAfterAppend | src/snapshot/snapshot_control.cpp:140-166 | a blob appended to the store reads back through its handle, and earlier handles still read the same |
| Collaborators.AppendStore.Append | src/snapshot/snapshot_control.cpp:143 | the blob goes at the end of the log and its handle is its 8-byte position |
| Collaborators.BloomFilter.AddElement | src/snapshot/snapshot_control.cpp:226-227 | the checksum is inserted and is reported present from then on; the sizing is unchanged |
| Collaborators.NoFalseNegatives | src/snapshot/snapshot_control.cpp:223-229 | every checksum added is reported as possibly present |
| Collaborators.AddItemsKeepsNewest | src/simulation/sampling/freq.cpp:390 | adding items to the cache keeps the newest ones, as many as the capacity allows |
| Collaborators.AddItemsFinds | src/simulation/sampling/freq.cpp:378-390 | items just added, when they fit, are all found by `SearchItem` |
| Cds.CdsIndex.Set | src/snapshot/cds_index.cpp:17-26 | true exactly when the server took the request; the checksum then maps to the 8 bytes of the offset |
| Cds.CdsIndex.Get | src/snapshot/cds_index.cpp:28-40 | false, with the offset untouched, when the request fails, the key is missing or its value is not exactly 8 bytes; otherwise the stored offset |
| Cds.CdsIndex.LoadCds | src/snapshot/cds_index.cpp:6-15 | one `Set` per block of the dump, continuing past failures; the server ends as `SetAll`, and a server holding only 8-byte values still does; the returned failure count is the model's own (the original returns nothing and only logs each failure) |
| Cds.SetAll | src/snapshot/cds_index.cpp:6-15 | loading a dump loses no key, and a server holding only 8-byte values still does afterwards |
| Cds.SetAllMeaning | src/snapshot/cds_index.cpp:6-15 | after loading, the keys are exactly the old keys plus the delivered checksums, and every value is the old one or a delivered block's 8-byte offset |
| Cds.LastWriteWins | src/snapshot/cds_index.cpp:6-26 | after loading a dump, each checksum maps to the offset of its last block, and every other key keeps its value |
| Cds.ScenarioLoadThenLookup | src/snapshot/cds_index.cpp:6-40 | after loading A, B, C, A, `Get` finds A (with the second offset), B and C, and misses any other D |
| Cds.ScenarioLoadThenBatchLookup | src/snapshot/cds_index.cpp:6-75 | after loading A, B, C, A, a multi-get of A, B, C, D that agrees with the server and misses none of its keys finds A (with the second offset), B and C, and not D |
| Cds.Overlay | src/snapshot/cds_index.cpp:59 | copying a value into the offset variable: an 8-byte (or longer) value gives its first 8 bytes; a shorter one overwrites only the low bytes and the rest keep the previous offset's bytes |
| Cds.FetchFold | src/snapshot/cds_index.cpp:57-63 | a key is in the fetched map iff some record that came back OK carries it (and, with the length check, holds exactly 8 bytes) |
| Cds.JoinFetched | src/snapshot/cds_index.cpp:54-63 | the fetch loop builds the map `FetchFold` describes: every record that came back OK, keyed by its key bytes |
| Cds.FillAnswers | src/snapshot/cds_index.cpp:65-73 | key `i` is found iff it is in the map, with the mapped offset; the offset of a key not found is left alone |
| Cds.CdsIndex.BatchGet | src/snapshot/cds_index.cpp:42-75 | when the multi-get fails: false, and neither array is written; otherwise each key is answered from the fetched map, and duplicate keys get identical answers; on a server of 8-byte values, a fetch that agrees with the server and misses none of its keys gives each key what `Get` would |
| Cds.CheckedBatchMatchesGets | src/snapshot/cds_index.cpp:28-75 | with 8-byte length checks, a fetch that agrees with the server and misses none of its keys answers every key as a sequential `Get` would |
| Cds.EightByteFetchIgnoresCheck | src/snapshot/cds_index.cpp:57-60 | when every record that came back OK holds exactly 8 bytes, the as-written fetch loop builds the same map as the length-checked one |
| Cds.UncheckedBatchMatchesGets | src/snapshot/cds_index.cpp:42-75 | on a server holding only 8-byte values, as `LoadCds` leaves it, the as-written `BatchGet` that agrees with the server and misses none of its keys answers every key as a sequential `Get` would |
| Cds.ShortValueBreaksBatchEquivalence | src/snapshot/cds_index.cpp:57-60 | as written, a key whose stored value is 4 bytes is reported found by `BatchGet` but missing by `Get` |
| Trace.LoadSegment | src/simulation/sampling/freq.cpp:55-73 | zero-size records are skipped; the segment stops right after the block that brings it to 2 MiB or at the stream's end; false iff no block was kept |
| Trace.LoadSegments | src/simulation/sampling/freq.cpp:55-73 | the segments read until the reader reports false hold exactly the non-zero records of the stream, in order, each well cut |
| MinHeap.RootIsMin | src/simulation/sampling/freq.cpp:142-174 | the root of a min-heap is no larger than any of its elements |
| MinHeap.MinHeapify | src/simulation/sampling/freq.cpp:142-162 | sifting down a heap broken only at slot `i` gives a min-heap of the same elements, with later slots untouched |
| MinHeap.DeleteMin | src/simulation/sampling/freq.cpp:164-174 | nothing on an empty heap; otherwise the minimum goes, the length drops by one, and the rest is a min-heap |
| MinHeap.InsertMin | src/simulation/sampling/freq.cpp:176-190 | `n` is added, the length grows by one, and the heap property holds |
| MinHeap.TopkHeap | src/simulation/sampling/freq.cpp:192-197 | the length becomes `min(len + 1, max)` and `n` is in the heap; when full, the old minimum leaves even if `n` is smaller; the new length is one past the slot `TopkWriteSlot` names |
| MinHeap.TopkWriteSlot | src/simulation/sampling/freq.cpp:192-197 | the slot `topk_heap` writes lies inside the buffer exactly when the buffer has at least one slot |
| MinHeap.TopkZeroCapacityWritesPastBuffer | src/simulation/sampling/freq.cpp:235-242 | with capacity 0, `topk_heap` writes slot 0 of an empty buffer, a slot `InsertMin` refuses |
| MinHeap.TopkHeapEvictsLargerCount | src/simulation/sampling/freq.cpp:192-197 | as written, a full one-slot heap holding 5 that is offered 1 ends up holding 1 |
| MinHeap.TopkPush | src/simulation/sampling/freq.cpp:192-197 | intended top-k: a full heap takes `n` only in place of a smaller minimum; a zero-slot heap takes nothing; what leaves is never larger than what stays |
| MinHeap.TopkPushKeepsLargerCount | src/simulation/sampling/freq.cpp:192-197 | under the intended top-k, the same two offers leave 5 |
| Freq.MemcmpZeroIffEqual | src/simulation/sampling/freq.cpp:32-34 | `memcmp` is 0 exactly when the checksums are equal |
| Freq.MemcmpAntisymmetric | src/simulation/sampling/freq.cpp:40-42 | swapping the operands of `memcmp` flips the sign |
| Freq.MemcmpTransitive | src/simulation/sampling/freq.cpp:40-42 | `Hash::operator<` is transitive |
| Freq.HashOrderIsTotal | src/simulation/sampling/freq.cpp:32-42 | the checksum order is a strict total order whose equivalence is byte equality |
| Freq.DoBlockFreq | src/simulation/sampling/freq.cpp:199-226 | each distinct checksum of the trace adds one to its count, once per call; `newBlocks` counts the counts that went from 0 to 1; `uniqBlocks` is the number of distinct checksums, at most `blocks`, which counts every block |
| Freq.ReadBlock | src/simulation/sampling/freq.cpp:214-223 | one block read: a checksum not yet met in this call joins the seen set, its count goes up by one (a new block when that makes it 1) and the distinct tally grows; every block adds one to `blocks` |
| Freq.HashesMeaning | src/simulation/sampling/freq.cpp:213-224 | a checksum is in the set a scan collects iff some block of the scanned run carries it |
| Freq.HashesBound | src/simulation/sampling/freq.cpp:213-224 | a run has no more distinct checksums than blocks |
| Freq.BumpAllMeaning | src/simulation/sampling/freq.cpp:216-220 | adding one to each seen checksum: every seen checksum gets its old count (0 if absent) plus one, every other count is kept, and no other key appears |
| Freq.ScanOfMeaning | src/simulation/sampling/freq.cpp:213-224 | the scan's bookkeeping after any block run: the seen set, the tallies and the bumped counts |
| Freq.FreqSummary | src/simulation/sampling/freq.cpp:258-273 | the maximum count (0 if none is positive), how many entries have it, and the sum and number of the counts |
| Freq.SelectCounts | src/simulation/sampling/freq.cpp:240-246 | as written, every count passes through `topk_heap`; the heap keeps `min(n, size)` counts; the kept and evicted counts together are all of them; the last count is always kept; the sum and number of all counts |
| Freq.EvictCount | src/simulation/sampling/freq.cpp:241-244 | one count through `topk_heap`: the heap stays a min-heap, grows by one until full, holds the new count, and with the evicted minimum it holds what it held plus the new count |
| Freq.KeptSummary | src/simulation/sampling/freq.cpp:247-252 | the sum and the maximum (0 if none is positive) of the counts kept in the heap |
| Freq.CdsSelection | src/simulation/sampling/freq.cpp:234-257 | as written: the kept counts are `cds_size` of the counts (all, when there are fewer), always including the last, and with the evicted ones make up all the counts; their sum and maximum, and the sum and number of all counts |
| Freq.CdsSelectionReportsSmallerMax | src/simulation/sampling/freq.cpp:234-257 | as written, counts 5 then 1 with a CDS share of one entry report a CDS sum and a maximum link count of 1 |
| Freq.SelectTopCounts | src/simulation/sampling/freq.cpp:240-246 | intended: every count passes through the corrected heap; the heap keeps `min(n, size)` counts; kept and dropped together are all of them, and no dropped count exceeds a kept one |
| Freq.TopCdsSelection | src/simulation/sampling/freq.cpp:234-257 | intended: the kept counts are the largest `cds_size` (none for a share of 0): every dropped count is at most every kept one; their sum and maximum, and the sum and number of all counts |
| Freq.TopCdsSelectionReportsLargerMax | src/simulation/sampling/freq.cpp:234-257 | under the intended selection, the same counts report a CDS sum and a maximum of 5 |
| Freq.SelfLookupHitsAll | src/simulation/sampling/freq.cpp:127-136 | a trace looked up in an index of its own blocks hits on every block |
| Freq.IndexSegment | src/simulation/sampling/freq.cpp:121-122 | after indexing a reference segment, the index holds exactly the checksums of the segments indexed so far, each under a multiple of 8 within the bound |
| Freq.CountSegmentHits | src/simulation/sampling/freq.cpp:128-134 | the hit count grows by the number of the segment's blocks whose checksum is indexed |
| Freq.Theoretical | src/simulation/sampling/freq.cpp:105-140 | the index holds exactly the reference checksums, each under a group base (a multiple of 8 below the number of reference segments); `hits` is the number of trace blocks whose checksum is indexed; `blocks` counts the reference blocks |
| Sampled.SampleIntoMeaning | src/simulation/sampling/freq.cpp:331-334 | sampling keeps every key already present, adds exactly the checksums at positions that are multiples of 100 and files each of them under the container base; any other key keeps its value |
| Sampled.SampledValues | src/simulation/sampling/freq.cpp:326-336 | every value of the sampled index is a multiple of 8 smaller than the number of reference segments |
| Sampled.FirstBlockIndexed | src/simulation/sampling/freq.cpp:326-336 | the first block of every non-empty container is indexed |
| Sampled.SampleContainer | src/simulation/sampling/freq.cpp:328-335 | one container's blocks are numbered from 0 across its up to 8 segments and sampled under its base |
| Sampled.BuildSampledIndex | src/simulation/sampling/freq.cpp:326-336 | the index is `SampledIndex`: every value names a reference segment and is a multiple of 8 |
| Sampled.Classify | src/simulation/sampling/freq.cpp:367-396 | a parent hit when parent lookups are on and the block is in the parent segment; else a cache hit when the cache has it; else an index hit with the indexed base; else a miss |
| Sampled.LookupOne | src/simulation/sampling/freq.cpp:367-396 | one block looked up moves the tally and the cache to the state `LookupBlock` describes (parent, then cache, then index loading the container, else a miss), and the cache stays valid |
| Sampled.LookupBlocksCountsEach | src/simulation/sampling/freq.cpp:367-396 | every block looked up adds exactly one to the reported total, and none to the clean-segment count |
| Sampled.RunTraceCountsEveryBlock | src/simulation/sampling/freq.cpp:343-401 | the reported total grows by the number of blocks in the trace, clean or looked up |
| Sampled.CleanSegmentSkipsLookups | src/simulation/sampling/freq.cpp:350-358 | with dirty tracking, a segment equal to its reference segment adds its block count to `cleanSegments` and changes neither the cache nor any other counter |
| Sampled.IndexHitCachesContainer | src/simulation/sampling/freq.cpp:384-393 | after an index hit, the blocks of the last segment of the hit container are in the cache, when that segment fits |
| Sampled.LoadContainer | src/simulation/sampling/freq.cpp:387-391 | the cache gets segments `j` up to `min(j + 8, n) - 1`, in order |
| Sampled.LookupSegment | src/simulation/sampling/freq.cpp:367-396 | the per-block loop over a segment computes `LookupBlocks` |
| Sampled.SampledDedup | src/simulation/sampling/freq.cpp:311-410 | the counters are those of `RunTrace` from zero and an empty cache; `hits` is their sum without misses; `blocks` is `hits + misses`, which is the number of trace blocks |
| Binning.LoadBinSegment | src/simulation/binning/binning.cpp:26-45 | zero-size records are skipped; the segment stops at 2 MiB or at the end of the stream; false iff the segment is empty; its min-hash is `Final`'s |
| Binning.LoadBinSegments | src/simulation/binning/binning.cpp:233 | the segments of a trace file hold exactly its non-zero records, in order |
| Binning.FirstSizeBound | src/simulation/binning/binning.cpp:249-253 | the exact dedup size never exceeds the total size |
| Binning.TheoryOfMeaning | src/simulation/binning/binning.cpp:245-255 | after a block run, the theoretical index holds exactly the distinct checksums of the partition's blocks; `theory_dedup_size` grew by their first-sighting sizes |
| Binning.TheoryScan | src/simulation/binning/binning.cpp:245-255 | the inner block loop computes `TheoryOf` |
| Binning.BinsOfMeaning | src/simulation/binning/binning.cpp:236 | there is one bin per distinct min-hash, and every segment of a bin carries that bin's min-hash |
| Binning.CountBlocks | src/simulation/binning/binning.cpp:239-242 | `total_size` grows by the segment's bytes and `total_blocks` by its block count |
| Binning.PartitionPass | src/simulation/binning/binning.cpp:165-302 | the bins are keyed by the partition's min-hashes; the index holds the partition's checksums; the counters grow by the partition's contribution |
| Binning.PartitionCount | src/simulation/binning/binning.cpp:235 | every checksum routes to exactly one partition: the partitions' shares add up to the whole set |
| Binning.UniqueSplit | src/simulation/binning/binning.cpp:301 | summed over partitions, the distinct block checksums per partition are those of the whole trace |
| Binning.BinsSplit | src/simulation/binning/binning.cpp:302 | summed over partitions, the bins are one per distinct min-hash of the trace |
| Binning.SegmentsSplit | src/simulation/binning/binning.cpp:243 | summed over partitions, the admitted segments are all the trace's segments |
| Binning.BlocksSplit | src/simulation/binning/binning.cpp:241 | summed over partitions, the admitted blocks are all the trace's blocks |
| Binning.BytesSplit | src/simulation/binning/binning.cpp:240 | summed over partitions, the admitted bytes are all the trace's bytes |
| Binning.FirstSizeSplit | src/simulation/binning/binning.cpp:249-253 | summed over partitions, the first-sighting sizes give the exact dedup size of the whole trace |
| Binning.AllPartitionsCoverTrace | src/simulation/binning/binning.cpp:159-310 | after all partitions the counters give the trace's bytes, blocks and segments once each, its exact dedup size and distinct block count, and one bin per distinct min-hash |
| Binning.PassSegments | src/simulation/binning/binning.cpp:233-255 | after the segment loop of one partition the pass invariant holds for all segments read: the bins hold the admitted segments by min-hash, the size, block and segment totals have grown by the admitted segments, and the theory index holds the in-partition checksums of every segment |
| Binning.PassSegment | src/simulation/binning/binning.cpp:233-256 | one segment keeps the pass invariant: the bins hold the admitted segments by min-hash, the size, block and segment totals count the admitted segments, and the theory index counts the in-partition checksums of all segments read |
| Binning.PartitionLoop | src/simulation/binning/binning.cpp:159-310 | the partition loop, with counters never reset, ends with the whole-trace totals of `AllPartitionsCoverTrace` |
| Binning.BinningPartitions | src/simulation/binning/binning.cpp:82 | with the program's 8 partitions the run gives the whole-trace totals |

## Left out

- Byte layouts of serialized objects are not modelled, because they belong to `marshall::Serialize`, which is not part of this model. A stored blob or file holds the typed records instead. A malformed or truncated recipe therefore cannot occur in the model.
- Bloom filter internals are not modelled: the bit array, the hash functions and the false-positive rate. A filter is the set added plus a superset that membership answers from, so only the no-false-negative contract is modelled. `filter_fp_rate_` and `BLOOM_FILTER_FP_RATE` are dropped.
- `AVG_BLOCK_SIZE`, `BLOOM_FILTER_NUM_FUNCS` and `kBloomFilterFunctions` are defined in headers that are not part of this model. They are parameters (`FilterConfig`), and the hash bank is a number (0 or 8).
- `LruCache` is not part of this model. It is modelled as a bounded list of checksums, oldest first. `AddItems` appends and drops the oldest beyond capacity; `SearchItem` does not refresh recency.
- `Segment::Final`'s min-hash and `Middle4Bytes` are not part of this model, so they are the parameters `minhash` and `mid`. `Bin::AddSegment` is modelled as appending to the bin's list; `getDedupSize`/`getDedupBlocks` and the `total_dedup_*` counters are left out.
- `load_rand_segment` is left out with its `rand()` threshold and the `double` copied into the checksum. The simulations read segments as `load_segment` does, which is its behaviour for a threshold of 0.
- Every printed ratio and percentage is left out, since they are floating point, along with logging.
- The CLI parsing and the trace-file and VM-list iteration of both `main` functions are left out. The binning tool's trace files are taken as one list of segments read per partition.
- `container_freq` is left out, along with the test programs, the append-store connector and `snapshot_control.h`.
- `Copy`, `New`, `GetSize`, `Serialize`/`Deserialize` of `VMMeta`, and `SegmentMeta::SetHandle`/`GetHandle` are not separate members. The segment's handle functions are the same code as the block's, so one pair (`SnapshotTypes.SetHandle`, `GetHandle`) serves both.
- `BlockMeta` and `SegmentMeta` are value types copied in and out of vectors. They are datatypes whose mutators (`DeserializeData`, `SetHandle`, `DeserializeRecipe`, `BuildIndex`) return the updated value; the `blkmap_` pointers are positions.
- The filesystem helper's file handles and log-style reads are not modelled. A file holds one image, written whole.
- The append store never runs out in the original. The model's `Append` refuses a blob once 2^64 handles are used, so that every handle fits 8 bytes.
- The memcached client library is not part of this model. Whether a request reaches the server is the parameter `delivered`, and what a multi-get hands back is the parameter `fetched`. The initial value of the uninitialised `offset` variable is the parameter `stale`.
- Cds.Overlay: a value longer than 8 bytes contributes its first 8 bytes. The original's `memcpy` would overrun the 8-byte variable, which has no meaning to model.
- The `int` and `long` counters of `freq.cpp` and the `int` counter `total_bins` of the binning tool are unbounded `nat` in the model, so their overflow is not modelled.
- Binning.Totals holds `total_size`, `total_blocks`, `total_segments`, `theory_dedup_size` and `theory_dedup_blocks` as unbounded `nat`. In the original they are `uint64_t` (binning.cpp:94-102), and their wrap-around at 2^64 is not modelled.
- `map` iteration order is not modelled: the counts reach the summaries as a sequence in whatever order the map gives.
- Freq.Theoretical: the unused `misses` counter and `segments` are not results.
- MinHeap.TopkHeap requires at least one slot. `topk_heap` with `max_length` 0 writes past the buffer (see Findings), which cannot be modelled on a Dafny array.
- Freq.SelectCounts and Freq.CdsSelection require a CDS share of at least one entry, for the same reason. The corrected `Freq.TopCdsSelection` accepts a share of 0 and keeps nothing.
- SnapshotTypes.SnapshotMeta.constructor stands for the implicit constructor followed by the assignment of the ids. The uninitialised `size_` is the parameter `staleSize`, which `Init` zeroes.
- Cds.CdsIndex.LoadCds returns the number of failed `Set` calls. The original returns nothing and only logs each failure; the count is the model's own.
- Freq.Theoretical, Sampled.LookupOne, Sampled.LookupSegment and Binning.PartitionPass identify blocks and segments by checksum. `Block`'s and `Segment`'s ordering and equality are defined in headers that are not part of this model. The model assumes two blocks are the same exactly when their checksums are equal. This assumption covers:
  - the `map<Block, int>` index of `theoretical` (freq.cpp:111);
  - the `map<Block, int>` index of `sampled` (freq.cpp:321);
  - the dirty-segment test `current_seg == indexBlocks[segi]` (freq.cpp:352), which the model takes as equality of the block lists;
  - `parent_seg.SearchBlock` (freq.cpp:371) and `cache.SearchItem` (freq.cpp:378);
  - the binning tool's `binmap`, keyed by `GetMinHashString()` (binning.cpp:236), which the model keys by the min-hash checksum itself.
- Binning.PartitionPass takes `Middle4Bytes` as an unsigned value (`mid: Checksum -> nat`). Its declaration is not part of this model. If it returned a negative `int`, the original's `%` would give a negative remainder that matches no partition; the model does not capture that.
- Sampled.SampledDedup requires at least as many reference segments as trace segments when dirty tracking or parent lookups are on. The original reads `indexBlocks[segi]` without a bound check.
- Control.SnapshotControl.FromTraceFile requires the trace path to be shorter than `npos`. All `std::string` positions fit `size_t`.
- Control.SnapshotControl.constructor, Control.SnapshotControl.FromTraceFile, Control.SnapshotControl.UpdateBloomFilters and Control.SnapshotControl.SaveBloomFilters depart from the original in two ways:
  - Both constructors start with no filters and `vmMeta` zeroed. The original constructors (snapshot_control.cpp:7-22) leave `primary_filter_ptr_`, `secondary_filter_ptr_` and `vm_meta_` uninitialised.
  - `UpdateBloomFilters` and `SaveBloomFilters` require both filters to be present. The original dereferences both pointers without a check.
- Control.SnapshotControl.LoadSegmentRecipe, SaveSegmentRecipe, SaveBlockData and LoadBlockData require a store whenever the original dereferences `store_ptr_`. `SaveBlockData` also requires the payload to hold at least `size_` bytes, which the original reads.

## Findings

| source | as written | input that shows it | evidently intended | confidence | as-written member | corrected member |
|---|---|---|---|---|---|---|
| src/snapshot/cds_index.cpp:57-60 | `BatchGet` copies `memcached_result_length` bytes of every fetched value into `offset` without checking that it is 8 | a key whose stored value is 4 bytes: `Get` reports it missing, but `BatchGet` reports it found, with the upper bytes left over from the previous record | a batch answers every key as `N` sequential `Get` calls would, so values that are not 8 bytes are skipped | not executed | Cds.ShortValueBreaksBatchEquivalence | Cds.CheckedBatchMatchesGets |
| src/simulation/sampling/freq.cpp:192-197 | `topk_heap` deletes the minimum of a full heap before inserting `n`, even when `n` is smaller | counts 5 then 1 with `cds_size` 1: the heap keeps 1, so the CDS sum and the maximum link count are reported as 1 instead of 5 | keep the `cds_size` largest counts: a full heap takes `n` only when it beats the minimum | not executed | Freq.CdsSelectionReportsSmallerMax | Freq.TopCdsSelection |
| src/simulation/sampling/freq.cpp:235-242 | `cds_size` is truncated from `size * cds_percent` and can be 0, and `topk_heap` then writes `heap[0]` of a zero-length buffer | a frequency map of 10 entries with `cds_percent` 0.05 gives `cds_size` 0; the first count is written to slot 0 | a heap with no slots takes nothing | not executed | MinHeap.TopkZeroCapacityWritesPastBuffer | Freq.TopCdsSelection |

Where the design description and the code differ, the model follows the code:

- `DeserializeData` leaves a buffer the block does not own in place when the length differs. It does not end with NULL.
- `UpdateSnapshotRecipe` does not update the snapshot size (`Control.UpdateSnapshotRecipeLeavesSizeBehind`).
- The parent lookup of `sampled` tests membership anywhere in the parent segment, not the same position.
- The secondary filter's item count is doubled in 64-bit arithmetic.
