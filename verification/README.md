# A model of the disk image builder

The repository builds a macOS disk image from a directory tree, once, in one
pass: it scans the tree, packs an HFSX catalog and attributes B-tree, plans a
volume, writes the volume out of order into a scratch file, optionally frames it
with a GUID partition map, and streams the result through a parallel compressor
into a UDIF file. This project models those stages in Dafny and proves what they
promise.

- **Pipeline** (`Encoder`, `Checksum`, `ChunkForm`, `Pipeline*`, `Replay`,
  `UdifWriter`). The
  producer, the workers, the closing goroutine and the reordering drain are a
  transition system: a program counter each, channels as bounded sequences,
  `select` and scheduling as free choice, and a failure possible wherever the
  code handles one. The sequential encoder is a function; every run refines it.
- **B-tree** (`Packing`, `Tower`, `NodeCodec`, `NodeMap`, `TreeBytes`, `BTree`,
  `BTreeBuilder`, `TreeReader`, `TreeShape`, `TreeFormat`, `TreeIdentity`, `SortedTree`).
  Greedy packing, the index tower, the self-describing allocation map and the
  bytes of every node, against a reader that knows only the bytes.
- **Volume** (`Allocation`, `Geometry`, `Layout`, `VolumeHeader`, `Image`,
  `Volume`, `ForkTree`, `VolumeWriter`, `VolumeBuilder`, `SmallBlocks`, `Mount`,
  `Reproducible`). The bitmap that has to describe its own size, disjoint
  placement, two-pass packing, and writes out of order into one image. `Mount`
  reads files back from the finished bytes; `Reproducible` shows that equal inputs
  give equal bytes.
- **Keys, records, scan and framing** (`Unicode`, `Keys`, `Sorting`, `Catalog`,
  `CatalogTheorems`, `Attributes`, `Walk`, `WalkTheorems`, `FolderBlocks`, `Gpt`,
  `FramedDisk`). `Create` and `TreeVolume` join scan and volume: every file by its
  path, every attribute, record and counter of the source folder reads back.

Code that changes things in place is modelled by methods over arrays, classes and
loops, each proved against a specification function or predicate; laws are lemmas
about those. `Bytes`, `Bits`, `Seqs` and `Wrappers` are helpers. Integer widths
are written out where the source can reach them (`% 2^32`, `% 2^64`).

Where a promise does not hold on all inputs, the exact condition is proved:
`SmallBlocks.HeaderSurvivesIff` (block sizes under 2048 lose the volume header),
`Allocation.BitmapCoversUnlessWrapped` (the top seven block totals wrap the bitmap
length, on which the source panics), `Allocation.DivRoundUpIsCeil` (the sum
wraps), `UdifWriter.CoverageCheckIsExact` (the region sum wraps),
`UdifWriter.DecompressBufferIsLargestRun` (a run of 4 GiB is cut),
`Layout.NextIdIsFree`, `ForkTree.PaddingDecides` with `ForkTree.EmptyTreePads`
(padding succeeds if the map describes the whole fork: always up to 64 KiB blocks,
never from 8 MiB on), and `Tower.BuildLevels` (the shrink guard). When a whole
build succeeds is one function, `VolumeBuilder.StageFor`.

Where code and its comments disagree the model follows the code: the next
allocation is the first block behind the files and not a fixed block, and a bitmap
bit is clear for the padding that the quarter-volume rule adds although a comment
says that every block is used.

TN1150 is Apple's Technical Note TN1150, "HFS Plus Volume Format"; the partition
map follows sections 5.3.2 and 5.3.3 of the UEFI specification.

## Model

| member | source | states |
|---|---|---|
| PipelineSteps.StepKeepsInv | internal/udif/writer.go:343-551 | Every step of producer, worker, closer or drain keeps the pipeline invariant, failures included |
| PipelineSteps.RunKeepsInv | internal/udif/writer.go:343-551 | Every state of every run, for any worker count and schedule, satisfies the invariant |
| PipelineSteps.ErrChHasRoom | internal/udif/writer.go:347-347 | The error channel is never full, so the non-blocking send drops no worker error |
| PipelineTheorems.NoDeadlock | internal/udif/writer.go:434-440 | In every reachable state some goroutine can move until the call has returned, whatever has failed |
| PipelineTheorems.NothingOutlivesTheCall | internal/udif/writer.go:532-551 | Once the call has returned no step is left, all workers have exited and the error channel is empty |
| PipelineTheorems.StepReducesMeasure | internal/udif/writer.go:343-551 | A natural-number measure falls on every step of every reachable state |
| PipelineTheorems.RunsAreFinite | internal/udif/writer.go:343-551 | Hence no run is longer than the measure of the first state |
| PipelineTheorems.StuckMeansReturned | internal/udif/writer.go:315-551 | A run ends exactly when the call has returned |
| PipelineTheorems.OutputIsPrefix | internal/udif/writer.go:443-469 | At every moment the bytes at the destination are a prefix of the sequential encoding |
| PipelineTheorems.AllChunksEmitted | internal/udif/writer.go:438-475 | A run without failure has emitted every chunk before it returns |
| PipelineTheorems.FinishedMatchesSequential | internal/udif/writer.go:308-314 | A call that reports success has written the fork, run list, fork length and checksum input of the sequential chunk-by-chunk encoder |
| PipelineTheorems.FaultsAreCaused | internal/udif/writer.go:372-380 | Whatever fault is held anywhere in the pipeline was caused by a step of the run that failed in just that way |
| PipelineTheorems.WorkerFaultNamesChunk | internal/udif/writer.go:372-380 | A worker fault names the chunk in the hands of the worker that failed, which was read, is not all zeros and was to be compressed |
| PipelineTheorems.OutcomeIsHonest | internal/udif/writer.go:534-551 | A returned call reports success if and only if no read, worker, checksum or destination step failed; a reported fault is that of a step that failed, the producer before a worker before the drain |
| PipelineTheorems.WorkersExitBeforeDeciding | internal/udif/writer.go:532-548 | When the error channel is inspected every worker has exited and each failed worker is accounted for |
| PipelineTheorems.WorkerIndependence | internal/udif/writer.go:312-314 | Two successful runs with any two worker counts and any schedules agree on bytes, runs, fork length and checksum input |
| PipelineTheorems.EncodeChunks | internal/udif/writer.go:315-551 | The call is a run to its end under an arbitrary schedule; it terminates, succeeds exactly if no step of that schedule is a failure, and leaves a prefix, or on success the whole, of the sequential encoding: chunk by chunk zero, deflated or raw as the data, the option and the sizes say |
| Encoder.EncodeGrows | internal/udif/writer.go:443-469 | The encoder only appends: fork, runs and checksum input of fewer chunks are prefixes |
| ChunkForm.RegionStores | internal/udif/writer.go:358-408 | The runs of an encoded region are one for every chunk, in order: a zero run exactly for an all-zero chunk, a zlib run exactly for another one that zlib was asked for and deflates smaller, and the fork holds nothing, the deflated chunk or the chunk itself |
| ChunkForm.CallStores | internal/udif/writer.go:308-551 | A successful call with any workers and schedule leaves just those runs and bytes |
| ChunkForm.LargestRun | internal/udif/writer.go:151-155 | The largest run has the sectors of a full chunk, or of the region if it is shorter, and is reached |
| Checksum.UpdateAppend | internal/udif/writer.go:502-508 | Feeding the checksum chunk by chunk is feeding the concatenation |
| Checksum.UpdateByOne | internal/udif/writer.go:502-508 | One more byte is one more step from the left |
| UdifWriter.IsAllZero | internal/udif/writer.go:587-604 | The strided test answers true exactly when every byte is zero |
| UdifWriter.WriteBytes | internal/udif/writer.go:576-585 | Everything arrives behind what was there, or an error is reported after a prefix |
| UdifWriter.BlkxSpecs | internal/udif/writer.go:254-291 | Regions are accepted exactly if none is empty and their 64-bit sum is the sector count; each spec starts where the one before ended; without regions it is one device-wide table, else table i has ID i - 1 and descriptor i |
| UdifWriter.CoverageCheckIsExact | internal/udif/writer.go:284-288 | The coverage check means true coverage if and only if the sum does not reach 2^64 |
| UdifWriter.CoverageCheckWraps | internal/udif/writer.go:284-288 | A concrete region list whose wrapped sum passes the check without covering the image |
| UdifWriter.DecompressBufferIsLargestRun | internal/udif/writer.go:151-155 | The requested buffer is the largest run in sectors if and only if that run is under 2^32 bytes |
| UdifWriter.AcceptedSpecsTile | internal/udif/writer.go:267-288 | Accepted regions whose sum does not wrap tile the source from sector 0 without gaps |
| UdifWriter.FinishedTableHolds | internal/udif/writer.go:161-191 | The table of a region encoded behind a fork tiles region and fork, replays, and has the checksum of its non-zero sectors |
| UdifWriter.TablesReplay | internal/udif/writer.go:150-198 | Over the whole fork every table expands to its stretch of the source and its checksum is that of its non-zero sectors |
| UdifWriter.WriteRegions | internal/udif/writer.go:150-198 | The region loop yields tables that tile source and fork, whose runs store each chunk as data, option and sizes say, whose buffer is the largest run and reached, and exactly the image of the region-by-region sequential encoder |
| UdifWriter.Write | internal/udif/writer.go:94-198 | Which inputs are refused and how; on success the tables replay to the source, store every chunk in the right form with 1 MiB chunks by default, and ask for the buffer of their largest run; the image is a function of the inputs without the worker count |
| Replay.RunExpands | internal/udif/writer.go:443-468 | Run k of the encoding expands over the fork to chunk k and points inside the fork |
| Replay.RegionReplays | internal/udif/writer.go:443-469 | Expanding all runs of a region rebuilds its sectors |
| Replay.RegionTiles | internal/udif/writer.go:443-469 | Runs follow each other without gap in sectors and in fork offsets, from the base offset to the fork end |
| Replay.RegionChecksum | internal/udif/writer.go:499-508 | A reader that feeds the checksum every sector of the runs that are not zero runs feeds what the producer fed |
| Packing.GreedyDetermined | internal/hfsplus/btree.go:557-582 | Greedy grouping depends on sizes only: lists with the same sizes split at the same places |
| Packing.GreedyHalves | internal/hfsplus/btree.go:193-232 | When two items fit a node, greedy packing at most halves (rounded up) the count |
| Packing.OversizeAlone | internal/hfsplus/btree.go:203-215 | An item larger than a node is alone in its group |
| Packing.NothingGained | internal/hfsplus/btree.go:219-226 | Packing makes as many groups as items exactly if no two neighbours fit a node together |
| Tower.PackLeaves | internal/hfsplus/btree.go:557-582 | Leaves are the greedy grouping of the records, and packing fails exactly if some record alone exceeds a node |
| Tower.PackIndex | internal/hfsplus/btree.go:199-218 | An index level is the greedy grouping of first keys with their child numbers |
| Tower.LevelGains | internal/hfsplus/btree.go:219-226 | The shrink guard fires on a level exactly if no two neighbouring index records of it fit a node |
| Tower.TowersAgree | internal/hfsplus/btree.go:181-232 | Towers over the same records agree level by level |
| Tower.StallsForGood | internal/hfsplus/btree.go:219-226 | Records whose tower meets the shrink guard have no finished tower |
| Tower.BuildLevels | internal/hfsplus/btree.go:181-232 | Levels grow to a single root and every index node fits; it fails if and only if the tower of the records reaches a level of several nodes of which no two neighbouring keys fit an index node |
| Tower.OversizePromoted | internal/hfsplus/btree.go:203-231 | A key too large for an index node is promoted to the level above |
| Tower.RootNotOversize | internal/hfsplus/btree.go:193-226 | So the single root over several nodes cannot come from such a key |
| Tower.FinishedTowerFits | internal/hfsplus/btree.go:193-232 | In every finished tower all index nodes fit, although no line checks a single index record |
| Tower.NarrowKeysHalve | internal/hfsplus/btree.go:219-226 | With keys of which two fit a node the shrink guard cannot fire |
| Tower.DepthIsLogarithmic | internal/hfsplus/btree.go:193-232 | Depth is at most one more than the binary logarithm of the leaf count |
| NodeCodec.WriteRecordsNode | internal/hfsplus/btree.go:408-438 | The node holds descriptor, records and descending offset table, zeros in between, and nothing outside the node changes |
| NodeCodec.RecordReadsBack | internal/hfsplus/btree.go:408-438 | A reader that follows the offset table gets record i back, key and data |
| NodeCodec.DescReadsBack | internal/hfsplus/types.go:195-202 | Kind, height, links and record count of a node read back |
| TreeReader.SearchFinds | internal/hfsplus/btree.go:408-438 | Descending from a node by index records finds exactly what the leaves below hold |
| TreeReader.ForwardReads | internal/hfsplus/btree.go:315-335 | Following forward links from leaf i reads the leaves from i on |
| TreeReader.BackwardReads | internal/hfsplus/btree.go:315-335 | Following back links from leaf i reads the leaves up to i |
| NodeMap.CountMapNodes | internal/hfsplus/btree.go:248-255 | The loop stops, and at the fewest map nodes that describe the tree and themselves |
| NodeMap.MarkBits | internal/hfsplus/btree.go:469-475 | A map record has exactly the bits of numbers below the node count set |
| NodeMap.EmitHeaderNode | internal/hfsplus/btree.go:440-488 | The header node holds header record, blank user record, map and offset table |
| NodeMap.EmitMapNode | internal/hfsplus/btree.go:498-520 | A map node continues the map at its first bit and links to the next |
| NodeMap.WholeMapCounts | internal/hfsplus/btree.go:248-313 | Header record and chained map nodes together form one bitmap set exactly below the node count |
| TreeBytes.NumberedOnce | internal/hfsplus/btree.go:257-268 | Every node number past the map nodes belongs to exactly one node |
| TreeBytes.TowerIsLinked | internal/hfsplus/btree.go:181-232 | In every tower each index record names a node below by its first key, and all nodes are used in order |
| TreeBytes.PlacedRepresents | internal/hfsplus/btree.go:270-361 | The bytes at a node number represent the subtree of that node |
| TreeBytes.PlacedChained | internal/hfsplus/btree.go:315-335 | The emitted leaves are chained both ways |
| TreeBytes.RootCovers | internal/hfsplus/btree.go:286-289 | The tree under the root covers exactly the input records |
| BTree.HeaderFields | internal/hfsplus/btree.go:284-298 | Depth, root, leaf ends, node counts and clump size read back, cut to their widths |
| BTree.HeaderKind | internal/hfsplus/btree.go:284-298 | So do record count, node size, key limit, tree type, comparison type and attributes |
| BTree.LookupFinds | internal/hfsplus/btree.go:138-143 | Search from the header finds the data of each record and nothing for any other key, at any depth |
| BTree.LeafChainReads | internal/hfsplus/btree.go:284-335 | The leaf chain from first to last leaf reads the records in order, and the same leaves backwards |
| BTree.MapIsExact | internal/hfsplus/btree.go:248-313 | A map bit is set exactly for packed nodes; clear bits below the total number the free nodes |
| BTreeBuilder.AssignNumbers | internal/hfsplus/btree.go:257-268 | Numbers are consecutive, level by level behind the map nodes |
| BTreeBuilder.ResolveLevel | internal/hfsplus/btree.go:270-278 | Child references become the numbers assigned to the children |
| BTreeBuilder.EmitLevels | internal/hfsplus/btree.go:315-361 | Every level is in the image and the header and map nodes are untouched |
| BTreeBuilder.CountLeafRecords | internal/hfsplus/btree.go:584-590 | The sum over the leaves is the number of records |
| BTreeBuilder.EmitTree | internal/hfsplus/btree.go:234-375 | For a finished tower the image holds the tree, with the fewest map nodes |
| BTreeBuilder.EmitEmptyTree | internal/hfsplus/btree.go:526-555 | No records give one header node and zero depth, root and leaves |
| BTreeBuilder.BuildTree | internal/hfsplus/btree.go:144-375 | Each error exactly when its check says, the shrink error exactly for records whose tower stalls; otherwise the image holds a tree over the records with an exact header |
| BTreeBuilder.BuildResult.PadToBlocks | internal/hfsplus/btree.go:99-136 | Succeeds exactly on whole nodes within the map, then only counts and clump size change and the added nodes are zero and free; on failure nothing changes |
| BTreeBuilder.PaddedTreeHolds | internal/hfsplus/btree.go:95-98 | A padded image still holds the same tree |
| TreeFormat.NodeInNumbers | internal/hfsplus/btree.go:315-361 | Byte by byte: kind 255 at height 1 for leaves, kind 0 above for index nodes, record count, links to both neighbours in the level, the first offset 14 |
| TreeFormat.HeaderNodeInNumbers | internal/hfsplus/btree.go:440-488 | The header node is kind 1 with records at 14, 120 and 248, linked to the first map node if there is one |
| TreeFormat.MapNodeInNumbers | internal/hfsplus/btree.go:498-520 | A map node is kind 2 with one record between descriptor and slots, linked to the next |
| TreeFormat.LeavesAreFull | internal/hfsplus/btree.go:557-582 | Every leaf fits its node in bytes, and the first record of the next leaf would not have |
| TreeFormat.IndexNodesAreFull | internal/hfsplus/btree.go:199-218 | The same of the index nodes of every level |
| TreeFormat.BuiltAsAsked | internal/hfsplus/btree.go:156-298 | The header carries node size, key limit and kind that were asked for; without a clump size, eight nodes |
| BTree.PowersOnly | internal/hfsplus/btree.go:148-150 | The node sizes let through are the powers of two |
| TreeShape.SameShape | internal/hfsplus/btree.go:181-232 | Records of the same keys and sizes give towers of the same shape |
| TreeShape.BuiltSameShape | internal/hfsplus/btree.go:144-375 | and so images with the same header, map nodes and length |
| TreeShape.SameRecordsSameTower | internal/hfsplus/btree.go:181-232 | The same records give the same tower |
| TreeShape.NodesBounded | internal/hfsplus/btree.go:341-341 | With narrow keys and at most 2^28 records, nodes stay under 2^31 and depth under 30, so the height byte never wraps |
| TreeShape.ForkFilled | internal/hfsplus/builder.go:120-132 | For block sizes of 512 to 65536 the planned fork is whole nodes within the map coverage |
| ForkTree.PaddingDecides | internal/hfsplus/btree.go:109-116 | For a planned fork the padding checks pass exactly if it is whole nodes and the map has a bit for each; neither side of the 32-bit comparison wraps |
| ForkTree.EmptyTreePads | internal/hfsplus/btree.go:109-116 | The empty extents tree pads to its fork if and only if blocks are smaller than 8 MiB |
| VolumeBuilder.LargeBlocksCannotPad | internal/hfsplus/builder.go:124-132 | So with blocks of 8 MiB or more every build is refused at its padding |
| TreeIdentity.SamePage | internal/hfsplus/btree.go:408-438 | A node is settled byte for byte by its descriptor and records |
| TreeIdentity.SameRecordsSameBytes | internal/hfsplus/btree.go:144-375 | Building the same records twice gives identical bytes |
| TreeIdentity.SameForkBytes | internal/hfsplus/btree.go:99-136 | and so does filling the same fork with them |
| ForkTree.FillNeverFails | internal/hfsplus/builder.go:124-132 | Up to 64 KiB blocks none of the padding checks can fire for a planned tree |
| ForkTree.FillFork | internal/hfsplus/btree.go:99-136 | Succeeds exactly if the fork is whole nodes within the map, and then yields an image of its exact size that holds the tree |
| ForkTree.ForkIsCounted | internal/hfsplus/btree.go:122-134 | In a filled fork total, free nodes and clump size are those of the fork |
| ForkTree.ForkMapIsExact | internal/hfsplus/btree.go:109-116 | In a filled fork the map tells packed nodes from free ones |
| SortedTree.RecordFound | internal/hfsplus/btree.go:138-143 | In a tree over a sorted rearrangement of a list each listed record is found under its key |
| SortedTree.EvenOffsets | internal/hfsplus/attributes.go:174-175 | Records of even size start at even offsets |
| SortedTree.NodeOffsetsEven | internal/hfsplus/attributes.go:174-175 | in every leaf and every index node |
| Allocation.DivRoundUpIsCeil | internal/hfsplus/allocation.go:64-66 | Rounds up if and only if the numerator is zero or the sum stays under 2^64 |
| Allocation.PopcountCounts | internal/hfsplus/allocation.go:49-53 | The bit trick counts the set bits of a byte |
| Allocation.AllocationBitmap.constructor | internal/hfsplus/allocation.go:18-21 | All bits clear; the length is that of the wrapped 32-bit sum |
| Allocation.AllocationBitmap.MarkUsed | internal/hfsplus/allocation.go:24-32 | Sets exactly the bits of the run below the block count, and runs past the end of the bytes only if they do not cover a block of the run |
| Allocation.AllocationBitmap.FreeBlocks | internal/hfsplus/allocation.go:35-41 | Counts the clear bits below the block count |
| Allocation.BitmapCoversUnlessWrapped | internal/hfsplus/allocation.go:18-21 | The bitmap covers its blocks if and only if there are at most 2^32 - 8 of them |
| Geometry.SizeBitmap | internal/hfsplus/layout.go:152-174 | The iteration stops at the least positive bitmap size that is exactly enough for the volume it makes |
| Layout.ForkBlocks | internal/hfsplus/layout.go:68-78 | At least one block, just enough for the size, an error exactly past 32 bits |
| Layout.CountBlocks | internal/hfsplus/layout.go:122-135 | Each file gets just enough blocks, none if empty; an error exactly if one needs more than 32 bits |
| Layout.MakeMap | internal/hfsplus/layout.go:101-174 | Block counts and totals of the layout, refused exactly if a count does not fit |
| Layout.Place | internal/hfsplus/layout.go:188-203 | Files follow each other in order and their entries name the extents |
| Layout.PlaceNext | internal/hfsplus/layout.go:190-203 | One file is placed and its entry updated, an empty one with no extent |
| Layout.RegionsDisjoint | internal/hfsplus/layout.go:182-203 | Header block, forks and files are pairwise disjoint and in front of the last block |
| Layout.MarkRegions | internal/hfsplus/layout.go:208-217 | Marking all regions stays in range if and only if the total is at most 2^32 - 8 |
| Layout.OccupiedIs | internal/hfsplus/layout.go:205-217 | The occupied blocks are those in front of the free space, and the last |
| Layout.MarkedIsOccupied | internal/hfsplus/layout.go:205-217 | A bit is set exactly if its block belongs to a header, a fork or a file |
| Layout.FreeIsTheRest | internal/hfsplus/layout.go:205-217 | Clear bits number the total less the sizes of all regions and the last block |
| Layout.NextIsLowestFree | internal/hfsplus/layout.go:248-255 | The next allocation is the lowest clear block, or 0 exactly if none is clear |
| Layout.NextIdIsFree | internal/hfsplus/layout.go:221-263 | The next ID exceeds every ID in use if and only if the largest is not 2^32 - 1 |
| Layout.TreesAreQuarters | internal/hfsplus/layout.go:137-150 | The volume is at least four times every B-tree fork |
| Layout.BitmapFits | internal/hfsplus/layout.go:154-174 | The bitmap fork has a bit for every block and no block to spare |
| Layout.FirstStarts | internal/hfsplus/layout.go:182-203 | Boot block, bitmap, catalog, extents, attributes and files follow each other in this order |
| Layout.TotalInNumbers | internal/hfsplus/layout.go:137-174 | The total is all regions and two blocks, or four times the largest tree if that is more; the bitmap has the least blocks for it |
| Layout.WeightsCount | internal/hfsplus/layout.go:219-238 | The counted sums are cardinalities: of files and links, and of folders other than the root |
| Layout.Count | internal/hfsplus/layout.go:219-238 | The file count is the number of entries that are files or links, the folder count that of folders but for the root; the largest ID is the largest used |
| Layout.BuildPlan | internal/hfsplus/layout.go:88-305 | The whole plan, its bitmap and its counts of files and of folders; 4096-byte blocks by default; each error only when its limit is exceeded |
| VolumeHeader.BuildVolumeHeader | internal/hfsplus/volumeheader.go:6-34 | Header fields are those of the plan; the free count comes from the bitmap |
| VolumeHeader.EncodeHeader | internal/hfsplus/types.go:112-152 | The 512 bytes of the header |
| VolumeHeader.EncodedHeaderReads | internal/hfsplus/types.go:112-152 | Counters and the four forks read back from those bytes |
| VolumeHeader.EncodedHeaderSigned | internal/hfsplus/volumeheader.go:6-34 | Signature, version, attributes, dates, clump sizes and write count read back, and the rest is zero |
| Image.Image.Write | internal/hfsplus/builder_test.go:19-29 | Writing at an offset replaces, extends and fills gaps with zeros |
| Image.Image.Seek | internal/hfsplus/builder_test.go:31-41 | Any offset that is not negative |
| Image.WriteAt | internal/hfsplus/builder.go:198-210 | Succeeds exactly if the bytes fit the destination, and writes just them |
| Image.CopyN | internal/hfsplus/builder.go:225-231 | Copying in chunks writes the first n bytes |
| Image.StreamFileAt | internal/hfsplus/builder.go:212-244 | Succeeds exactly if the source opens, has the planned length, ends cleanly and fits; one byte too few or too many is the matching error |
| Image.LastDecides | internal/hfsplus/builder.go:139-193 | After any list of writes a byte is that of the last write touching it |
| Image.StretchSurvives | internal/hfsplus/builder.go:139-193 | A write survives if no later write overlaps it |
| Volume.WritesApart | internal/hfsplus/builder.go:139-193 | For blocks of at least 2048 bytes no two writes overlap, the one-byte pre-extend included |
| Volume.VolumeIntact | internal/hfsplus/builder.go:139-193 | After all writes headers, bitmap, trees and every file are intact |
| Volume.OthersZero | internal/hfsplus/builder.go:139-147 | and every other byte is zero |
| SmallBlocks.SmallBlocksLoseHeader | internal/hfsplus/builder.go:149-176 | With 512 or 1024 byte blocks a fork lands on the volume header |
| SmallBlocks.HeaderSurvivesIff | internal/hfsplus/builder.go:149-176 | The header survives if and only if blocks have at least 2048 bytes |
| SmallBlocks.BuiltHeaderSurvivesIff | internal/hfsplus/builder.go:149-193 | For every volume that was built |
| VolumeWriter.WriteFixed | internal/hfsplus/builder.go:139-176 | Header, bitmap and trees are written in place; fails exactly if the destination cannot hold the volume |
| VolumeWriter.WriteFiles | internal/hfsplus/builder.go:178-188 | Every file goes to its extent; failure means a source that is not as planned or too small a destination |
| VolumeWriter.WriteAll | internal/hfsplus/builder.go:139-195 | The whole list of writes is made, and succeeds if and only if the volume fits and every file is as planned |
| VolumeBuilder.TagEntries | internal/hfsplus/builder.go:66-78 | An entry is tagged exactly if it was or some attribute names its ID |
| VolumeBuilder.BuildExtentsTree | internal/hfsplus/extents.go:7-15 | The overflow tree is empty |
| VolumeBuilder.FirstPass | internal/hfsplus/builder.go:80-95 | The three trees are packed exactly if every kind is known, no catalog key repeats, attributes are within their limits and none repeats |
| VolumeBuilder.SecondCannotFail | internal/hfsplus/builder.go:112-118 | After the planner has filled in extents the second pack cannot be refused |
| VolumeBuilder.SecondPass | internal/hfsplus/builder.go:112-126 | The repacked catalog fills the fork sized from the first, exactly if the first would have |
| VolumeBuilder.FillAll | internal/hfsplus/builder.go:112-132 | All three trees fill their planned forks exactly if each map describes its whole fork, else the first that does not is named; up to 64 KiB blocks this cannot fail |
| VolumeBuilder.PackAndPlan | internal/hfsplus/builder.go:80-110 | Packing and planning with the exact condition of each refusal; the layout is the one for the packed sizes and entries name their extents |
| VolumeBuilder.Finish | internal/hfsplus/builder.go:112-195 | Second pass, padding and writing, with the exact reasons for failure |
| VolumeBuilder.WriteVolume | internal/hfsplus/builder.go:58-196 | How far a build gets is decided by the first condition that fails: time, catalog, attributes, plan, padding, writing; on success the image is the full list of writes over the planned layout and entries are the initial ones with planned extents |
| VolumeBuilder.VolumeFits | internal/hfsplus/builder.go:120-176 | Each part of a built volume fits its region |
| Mount.HeaderFound | internal/hfsplus/builder.go:149-152 | At byte 1024 a reader finds the header and it describes the layout |
| Mount.AlternateHeaderAgrees | internal/hfsplus/builder.go:190-193 | The same 512 bytes are 1024 bytes before the end |
| Mount.EntryRecordFound | internal/hfsplus/builder.go:112-176 | From the bytes alone each entry is found under parent and name, and its thread under its ID |
| Mount.FileReadsBack | internal/hfsplus/builder.go:178-188 | From the bytes alone each file reads back in full through header, catalog, record and extent |
| Mount.WrittenFileReadsBack | internal/hfsplus/builder.go:58-196 | The same for the entries and image as WriteVolume leaves them |
| Mount.AttributeReadsBack | internal/hfsplus/attributes.go:36-62 | From the bytes alone each extended attribute reads back |
| Mount.FlagsFound | internal/hfsplus/builder.go:66-78 | The record found for an entry has flag 4 exactly if some attribute names its ID or it came tagged, and flag 16 exactly if it is a folder |
| Mount.TreesAreOfTheirKinds | internal/hfsplus/builder.go:80-132 | From the header a reader finds three trees with nodes of 4096, 1024 and 8192 bytes, key limits of 516, 10 and 266, and binary comparison |
| Mount.NoOverflow | internal/hfsplus/extents.go:7-15 | The extents tree of a built volume is empty: no depth, root, leaves or records |
| Mount.ClumpSizesAgree | internal/hfsplus/layout.go:264-296 | Each B-tree header has the clump size of the volume header, even where both wrap 32 bits |
| Reproducible.SameLayout | internal/hfsplus/builder.go:80-110 | Two builds of the same objects have the same layout |
| Reproducible.SameInputsSameVolume | README.md:42-44 | Two successful volume builds from the same initial entries, file contents, attributes (in any order), block size and time are byte-identical |
| Keys.EncodeCatalogKey | internal/hfsplus/catalog.go:165-173 | Parent, unit count and big-endian units |
| Keys.CatalogKeyReads | internal/hfsplus/catalog.go:165-173 | Parent at 0, unit count at 4 and units from 6 on read back from a key |
| Keys.CatalogOrder | internal/hfsplus/catalog.go:177-210 | The comparison is a strict total order on keys, 0 only for identical bytes |
| Keys.CatalogAgreesWithNames | internal/hfsplus/catalog.go:177-210 | Under one parent it is the comparison of the names |
| Keys.CatalogParentsFirst | internal/hfsplus/catalog.go:177-210 | Under two parents the smaller ID comes first |
| Keys.CompareCatalogKeys | internal/hfsplus/catalog.go:177-210 | The loop over key bytes computes that comparison |
| Keys.DescribeCatalogKey | internal/hfsplus/catalog.go:153-161 | Parent and name recovered for messages are those of the key |
| Sorting.Sort | internal/hfsplus/catalog.go:92-94 | An ascending rearrangement of the records |
| Sorting.NeighboursDecide | internal/hfsplus/catalog.go:95-107 | In sorted order the adjacent scan rejects if and only if two equal keys exist anywhere |
| Sorting.SortedIsUnique | internal/hfsplus/catalog.go:92-107 | A multiset of records has one sorted order |
| Sorting.DistinctElsewhere | internal/hfsplus/catalog.go:95-107 | Keys are distinct in one arrangement if and only if in another |
| Catalog.BuildCatalogRecords | internal/hfsplus/catalog.go:122-149 | Two records per entry but for the root parent, refused exactly for an unknown kind |
| Catalog.EncodeFolderRecord | internal/hfsplus/catalog.go:212-241 | The bytes of a folder record |
| Catalog.FolderRecordReads | internal/hfsplus/catalog.go:212-241 | Kind, ID, valence and folder count read back; the flags are 16, and 4 more exactly with attributes |
| Catalog.FolderRecordStamps | internal/hfsplus/catalog.go:223-236 | So do dates, owner, group, mode and encoding hint; what is left is zero |
| Catalog.EncodeFileRecord | internal/hfsplus/catalog.go:243-276 | The bytes of a file or symlink record |
| Catalog.FileRecordReads | internal/hfsplus/catalog.go:243-276 | Kind, ID, size, blocks and extent read back; the flags are 4 with attributes and else 0 |
| Catalog.FileRecordStamps | internal/hfsplus/catalog.go:252-272 | So do dates, owner, group, mode and encoding hint; a link is of type slnk, creator rhap, and for a file these bytes and what is left are zero |
| Catalog.EncodeThreadRecord | internal/hfsplus/catalog.go:278-293 | The bytes of a thread record |
| Catalog.ThreadRecordReads | internal/hfsplus/catalog.go:278-293 | A thread record leads back to parent and name, kind 3 for a folder and 4 for anything else |
| Catalog.ArrangeRecords | internal/hfsplus/catalog.go:92-107 | Sorts, and refuses exactly lists with equal keys, naming one that occurs twice |
| Catalog.SizedRecordsPack | internal/hfsplus/catalog.go:108-117 | Records with names up to 255 units always pack into 4096-byte nodes |
| Catalog.BuildCatalogTree | internal/hfsplus/catalog.go:87-117 | Errors exactly for unknown kinds, equal keys and records that do not pack into the node size, never into 4096 bytes; otherwise a tree over the sorted records |
| CatalogTheorems.EntryFound | internal/hfsplus/catalog.go:122-149 | Every entry is found under parent and name, and its ID leads back |
| CatalogTheorems.InputOrderIsIrrelevant | internal/hfsplus/catalog.go:96-102 | Any order of the entries gives the identical tree, byte for byte |
| CatalogTheorems.SecondPassIsStable | internal/hfsplus/builder.go:80-118 | Packing before and after the planner gives the same record order, header, node count and byte length |
| Keys.EncodeAttrKey | internal/hfsplus/attributes.go:93-108 | Pad, file ID, start block, unit count and units |
| Keys.AttrKeyReads | internal/hfsplus/attributes.go:93-108 | Pad, file ID at 2, start block at 6, unit count at 10 and units from 12 on read back |
| Keys.AttrOrder | internal/hfsplus/attributes.go:122-164 | The comparison is a strict total order on keys, 0 only for identical bytes |
| Keys.AttrAgreesWithNames | internal/hfsplus/attributes.go:122-164 | For one file it is the comparison of the names |
| Keys.AttrFilesFirst | internal/hfsplus/attributes.go:122-164 | Between files the smaller ID comes first, then the smaller start block |
| Keys.CompareAttrKeys | internal/hfsplus/attributes.go:122-164 | The loop over key bytes computes that comparison |
| Keys.DescribeAttrKey | internal/hfsplus/attributes.go:112-120 | File ID and name recovered for messages are those of the key |
| Attributes.InlineLimitIsExact | internal/hfsplus/attributes.go:84-91 | A value of the limit fits a node with the largest key; one byte more does not |
| Attributes.EncodeInlineAttrData | internal/hfsplus/attributes.go:176-186 | The padded inline record |
| Attributes.InlineReadsBack | internal/hfsplus/attributes.go:166-186 | The value reads back without its pad byte: type 16 at 0, length at 12, value from 16 on, an even length, zeros elsewhere |
| Attributes.BuildAttrRecords | internal/hfsplus/attributes.go:64-82 | One record per attribute, refused exactly if a name exceeds 127 units or a value its limit, with the error that fits the first one that does |
| Attributes.AcceptedInNumbers | internal/hfsplus/attributes.go:84-91 | The limits are 127 units and 7890 bytes |
| Attributes.KeysArePairs | internal/hfsplus/attributes.go:44-53 | Keys of accepted attributes repeat exactly if two share file and normalized name |
| Attributes.AttrsPack | internal/hfsplus/attributes.go:64-91 | Accepted attributes always pack into 8192-byte nodes, at even sizes |
| Attributes.ArrangeAttrs | internal/hfsplus/attributes.go:41-53 | Sorts, and refuses exactly lists with equal keys |
| Attributes.BuildAttributesTree | internal/hfsplus/attributes.go:36-62 | Succeeds if and only if all attributes are accepted and no pair of file and name repeats |
| Attributes.AttrFound | internal/hfsplus/attributes.go:36-62 | Every attribute is found under its file and name |
| Attributes.AttrInputOrderIsIrrelevant | internal/hfsplus/attributes.go:44-47 | Any order of the attributes gives the identical tree, byte for byte |
| Unicode.EncodeUtf16 | internal/hfsplus/unicode.go:97-109 | The loop yields one unit or a surrogate pair per rune |
| Unicode.RunesInverts | internal/hfsplus/unicode.go:97-109 | Decoding the units gives the runes back |
| Unicode.SameNameSameForm | internal/hfsplus/unicode.go:33-40 | Two strings get one name exactly if their normal forms are equal |
| Unicode.NewName | internal/hfsplus/unicode.go:33-40 | Accepts exactly up to 255 units |
| Unicode.PutName | internal/hfsplus/unicode.go:43-49 | Writes the units big-endian in place |
| Unicode.NameReadsBack | internal/hfsplus/unicode.go:43-49 | and they read back |
| Unicode.HFSCompare | internal/hfsplus/unicode.go:68-91 | The loop computes the unit-by-unit comparison, shorter first |
| Unicode.CompareIsTotal | internal/hfsplus/unicode.go:68-91 | 0 only for equal names, and antisymmetric |
| Unicode.CompareIsTransitive | internal/hfsplus/unicode.go:68-91 | and transitive |
| Unicode.CompareIsLexicographic | internal/hfsplus/unicode.go:68-91 | Less means: at the first difference the smaller unit, or a proper prefix |
| Walk.Walker.Visit | dmg.go:363-396 | A supported node gets the next ID under its parent; others change nothing |
| Walk.Walker.WalkDir | dmg.go:539-564 | Depth first, the pending list is the listing of the subtree |
| Walk.ListingNumbered | dmg.go:350-396 | IDs in a listing are consecutive and each parent is listed before its child |
| WalkTheorems.NodeInOrder | dmg.go:539-564 | A node comes behind all its directory lists before it, and the contents of a directory follow it at once |
| WalkTheorems.SiblingsAscend | dmg.go:350-396 | Siblings get IDs in the order they are listed in |
| Walk.ClaimName | dmg.go:414-426 | A name is refused exactly if too long or claimed before in its directory |
| Walk.Materialize | dmg.go:401-503 | One entry per node with its kind, mode, owner and dates, files and attributes beside; an error means a clash or a long name |
| Walk.Backfill | dmg.go:505-512 | Every folder gets the counts of its children and subfolders |
| Walk.WalkTree | dmg.go:333-515 | The whole scan: entries describe their nodes, and the attribute list is that of every directory and file, node by node; it fails only for a bad volume name, a long name or a clash |
| Walk.AllAttrsLaidOut | dmg.go:462-501 | The list is the attributes of each directory and file in turn, each with the ID of its node, and nothing of links |
| WalkTheorems.NodeAttrsListed | dmg.go:462-501 | Each attribute of each directory and file is in the list, with its ID, name and value |
| WalkTheorems.AttrHasNode | dmg.go:462-501 | and each in the list is one of a directory or file |
| WalkTheorems.AttrsAreTheNodes | dmg.go:462-501 | Those under a node ID are exactly that stretch of the list, once each and in order |
| WalkTheorems.CountersMatchTree | dmg.go:505-512 | Children and subfolders counted for every directory are those of the source tree, at any depth |
| WalkTheorems.SupportedIsCount | dmg.go:505-512 | These are the numbers of nodes of a supported kind and of directories a directory lists |
| WalkTheorems.EntriesMatchTree | dmg.go:505-512 | and they are the valence and folder count of its entry, the root included |
| WalkTheorems.IdsAreDistinct | dmg.go:350-396 | IDs are distinct and every parent ID is below its child |
| WalkTheorems.WalkedKeysDistinct | dmg.go:404-425 | After a successful walk all catalog keys differ, so the packer never meets a duplicate |
| WalkTheorems.WalkedCatalogPacks | dmg.go:404-425 | and every kind is known: the catalog of a walk is never refused |
| Create.ScanAndWrite | dmg.go:187-250 | Scan and write together: the catalog and the clock cannot be what fails, and on success the volume is that of the tree, its attributes, tags, modes, owners and counters included |
| Create.TreeFileReadsBack | dmg.go:472-496 | Every file and link of the source tree reads back from the volume under the ID of its directory and its name: its data, or its target |
| Create.TreeFolderFound | dmg.go:462-470 | Every directory is found under its parent and leads to its own ID |
| Create.PathReadsBack | dmg.go:187-250 | Every file of the source folder reads back by its path, resolved name by name in the bytes of the volume |
| TreeVolume.TreeIsCounted | internal/hfsplus/layout.go:219-238 | Bytes 32 and 36 of the header are the numbers of nodes of the tree that are not directories and of those that are |
| TreeVolume.TreeRecordFound | dmg.go:428-512 | The record found for a node says its kind, flags, ID, counters or size, mode, owner, dates and link type, in the terms of the tree |
| TreeVolume.RootRecordFound | dmg.go:333-348 | The root is under ID 1 and the volume name, with mode 0755 and tagged exactly if Finder info was given |
| TreeVolume.NodeTagged | internal/hfsplus/builder.go:66-78 | After a build an entry is tagged exactly if its node is a directory or file with attributes |
| TreeVolume.TreeAttributeReadsBack | dmg.go:462-501 | Every attribute of every directory and file of the source tree reads back from the volume under the ID of its node and its name |
| TreeVolume.FinderInfoReadsBack | dmg.go:213-226 | The Finder info of the root reads back under ID 2 and com.apple.FinderInfo |
| WalkTheorems.LeafRecordsCount | dmg.go:401-512 | Leaf records are twice files, folders and the root |
| FolderBlocks.ChildrenFollowThread | internal/hfsplus/catalog.go:122-149 | In the sorted catalog a thread is followed at once by exactly its valence of children in name order, of which its folder count are folders |
| Gpt.New | internal/gpt/gpt.go:111-126 | Accepts exactly positive whole-sector sizes; both GUIDs come from the seeds once |
| Gpt.BuildEntryArray | internal/gpt/gpt.go:261-284 | The entry array, filled in place |
| Gpt.BuildHeader | internal/gpt/gpt.go:229-257 | The 92-byte header, its checksum last |
| Gpt.BuildLeadingMap | internal/gpt/gpt.go:170-178 | The map in front of the volume |
| Gpt.BuildTrailingMap | internal/gpt/gpt.go:182-190 | The map behind it |
| FramedDisk.HeadersInPlace | internal/gpt/gpt.go:168-190 | Both headers and both entry arrays are at the sectors the headers name |
| FramedDisk.VolumeInPlace | dmg.go:293-305 | The volume fills its sectors exactly |
| FramedDisk.HeaderSays | internal/gpt/gpt.go:229-253 | Fields of a header read back |
| FramedDisk.HeaderInNumbers | internal/gpt/gpt.go:229-253 | The primary header is in sector 1 with entries from 2, the backup in the last sector with entries in the 32 before it |
| FramedDisk.HeaderSigned | internal/gpt/gpt.go:240-247 | Signature, revision, length and disk ID |
| FramedDisk.HeaderChecksums | internal/gpt/gpt.go:255-255 | The header checksum is that of the header with its field zero |
| FramedDisk.HeadersAgree | internal/gpt/gpt.go:229-257 | Each header names the other and both point at equal entry arrays with one checksum |
| FramedDisk.EntryCoversVolume | internal/gpt/gpt.go:261-284 | The only entry covers exactly the volume; the rest of the array is zero |
| FramedDisk.EntryNamed | internal/gpt/gpt.go:261-284 | The entry has the Apple HFS type, its own ID and the name disk image |
| FramedDisk.ProtectiveSays | internal/gpt/gpt.go:200-217 | The protective record covers the disk from sector 1, saturating at 32 bits, with type 0xEE and the boot signature |
| FramedDisk.SpansTileDisk | internal/gpt/gpt.go:153-166 | The region list tiles the disk and its regions start where the headers say |
| FramedDisk.AcceptRegions | dmg.go:311-317 | The regions handed to the image writer one by one always pass its check, each table starting where the ones before end |
| FramedDisk.Compose | dmg.go:293-305 | Leading map, capped volume and trailing map are the framed disk; the promised length is its length exactly if that fits 63 bits |

## Left out

- PipelineTheorems.EncodeChunks: which steps fail is a choice of the schedule and not computed from a particular reader or destination.
- UdifWriter.Write: stops before the property list and the trailer; a fault of the encoder is possible at any step, and region names are not modelled.
- UdifWriter.WriteBytes: a destination that reports success must take at least one byte, as the io.Writer contract asks.
- BTreeBuilder.BuildResult.PadToBlocks: counters are stated for fewer than 2^32 nodes, since the source cuts the quotient to 32 bits.
- Layout.BuildPlan: sizes are below 2^63 and at most 2^28 files; the panic of the source for the top seven totals is returned as an error.
- VolumeBuilder.FirstPass: which of several attribute errors is reported follows the order of the list and is not stated.
- VolumeBuilder.WriteVolume: at most 2^27 entries and 2^28 attributes and files, so node counts stay below 2^31; the bytes left behind by a failed build are not described.
- Create.ScanAndWrite: ends with the volume in the scratch file; framing and encoding it are stated in FramedDisk and UdifWriter.
- Volume.VolumeIntact: stated for block sizes from 2048 on; below that SmallBlocks.HeaderSurvivesIff shows that it fails.
- Sorting.Sort: stands in for the library sort; only an ascending rearrangement is promised, which on distinct keys settles the order.
- Walk.WalkTree: children of a directory are given in sorted order; reading directories, links and attributes cannot fail.
- Reproducible.SameInputsSameVolume: about the volume; that the fork encoded from it does not depend on the workers is in the contract of UdifWriter.Write.
- Compression, SHA-256, Unicode normalization and the CRC-32 polynomial are parameters; the laws used are that inflating undoes deflating and that a name that is not empty stays so.
- The property list, the trailer and the encoding of block tables are fixed layouts around values modelled here.
- File system access, scratch files, buffering and reading extended attributes; seek errors beyond negative offsets.
- Dates are given as 32-bit numbers; of a mode only the nine permission bits come from the tree, as in the code.
- Extents two to eight of a fork are always zero; one extent is modelled.
- The number of results the drain holds back: one slow worker lets it grow.
- The source of a zero-length file is never opened, as in the code; that it is really empty is not checked.
- Partition names as text and the identifiers derived from seeds; they are parameters of the frame.
