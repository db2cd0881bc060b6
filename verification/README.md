# PARSEC algorithms, modelled and proved in Dafny

The repository is a set of parallel benchmarks. This project models the parts whose correctness is
discrete and decided by the code, and proves what they are for. Each part stands alone.

- **freqmine** (`FpDatabase`, `HotItems`, `FpArena`, `FpTree`, `FpTraversal`, `FpArray`, `FpMining`,
  `FpPowerset`, `FpCond`, `FpSort`, `FpMiner`, `FpScan`, `FpLevel`, `FpSingle`, `FpGrowth`, `FpFirst`). One
  level of the FP-growth recursion and everything it calls: the conditional pattern base, the header table and
  its sort, the second scan with hot items as bit masks, insertion into the prefix tree, the sweep that links
  the hot nodes, the flattening into an array filled from the back, the single-path shortcut. The abstract
  state is a weighted database of item sets; the main theorem is `FpGrowth.Miner.Grow`, and `FpFirst.Mine`
  starts it on a whole database.
- **dedup** (`Rabin`, `RabinSeg`, `RabinOrder`, `DedupFormat`, `DedupChunking`, `DedupFragment`, `DedupRace`,
  `BinHeap`, `SearchTree`, `Reorder`, `RingQueue`, `PipelineProtocol`, `PipelineProgress`, `PipelineDeadlock`,
  `DedupEndToEnd`). Rolling hashes as polynomials over GF(2), chunking that does not depend on how the file is
  read, the race between deduplicating, compressing and writing threads, in-order delivery through a search tree
  of heaps, the producer-counted shutdown of the queues of every lane and when it is reached, the archive format,
  and the decoder that inverts it all.
- **canneal** (`AtomicPtr`, `Netlist`, `Annealer`, `MersenneTwister`). The lock-free swap protocol as
  interleaved steps of any number of threads, the routing cost and its incremental form, the serial annealing
  run and what it does to the cost, and the random number generator.
- **fluidanimate** (`Barrier`, `CellPool`, `CellLists`, `CellGrid`, `Walls`, `RebuildGrid`). The reusable
  barrier with its unsynchronised spinning, and the serial version's grid of cell lists with its cell
  allocator and its last pass over the walls of the box.
- **streamcluster** (`ClusterGain`, `ClusterSearch`, `ClusterDraws`, `ClusterFees`, `Streamcluster`). The
  facility-location local search, over the reals, from the random numbers to the solution returned.

Pointers of the C and C++ code are indices into an arena (`-1` for NULL), so that lists and trees can be
related to values; shared objects that methods update are classes. Threads are state machines over atomic
steps: one step is an atomic memory operation, a section under a mutex, or one unlocked read. Where the
code does not do what its comments say, the code is followed:

- `rabin.h` defines a window of 32 bytes, but every caller builds the tables for a window of length 0. Then
  two inputs with the same last 32 bytes can have different rolling values (`RabinSeg.CallSiteWindow`), so
  where the hash cuts is not decided by those bytes. `RabinOrder.WindowLength` says for which lengths it would
  be. Chunking is proved for whatever tables are used.
- The incremental cost in canneal is off by twice the distance of the two elements for every net between
  them (`Netlist.DeltaError`); `Netlist.DeltaExactIff` says exactly when it is right, `Netlist.DeltaWrong`
  gives an input for which it is not, and `Annealer.RunCost` says what that amounts to over a run.
- `pgain` counts one center too many when the candidate was a center, the fee is 0 and the move pays
  (`Streamcluster.ClosingCount`, with an input in `Streamcluster.CountTooHigh`); the cost is right all the
  same. `pkmedian` never gets there, because its fee stays greater than 0 (`Streamcluster.Clusters.PKMedian`).
- The pass along the upper y wall of the box steps to the next cell of a list only behind a particle that it
  has reflected, so in a list of more than 16 particles it can stop early and leave particles outside
  (`Walls.TopLeaks`); `Walls.TopWallHoldsIff` says exactly when it does not.
- The writer of the pipeline takes from the lanes in turn and waits at an empty one. With one lane, or queues as
  long as the input, every schedule comes to an end with everything written (`PipelineProgress.StuckIsDone`);
  with two lanes and queues of any fixed size there are inputs with which none does
  (`PipelineDeadlock.QueuesDeadlock`).
- The decoder keeps payload lengths in C ints and gives its decompressors a bounded buffer, so it inverts
  the encoder exactly if the chunk sizes fit (`DedupFormat.DecodeInverts`); under gzip or bzip2 a chunk of
  10,000,001 bytes does not (`DedupFormat.BigChunkLost`), and there are files that become one such chunk
  (`DedupEndToEnd.BigFileLost`).

`dafny verify dfyconfig.toml` checks the whole project.

## Model

| member | source | states |
|---|---|---|
| FpGrowth.Miner.Grow | freqmine/src/fp_tree.cpp:1521-1617 | On a tree that stands for a weighted database, prints every itemset over the header table whose support reaches the threshold exactly once, behind the current prefix, with its exact support, and nothing else; the ITlen counters grow by exactly the number of printed sets of each size; stack and scratch arrays are back in their idle state; ends because the next level has fewer items |
| FpFirst.Mine | freqmine/src/fp_tree.cpp:782-816 | From any database of weighted transactions to the end: the printed lines are exactly its item sets that reach the threshold, each once, with its exact support, and ITlen counts them by size; nothing is printed if no item is frequent |
| FpFirst.WholeDatabase | freqmine/src/fp_tree.cpp:782-816 | Mining the first level is mining the whole database: a frequent set has frequent items only, and all of those are in the header table |
| FpFirst.Scan1 | freqmine/src/fp_tree.cpp:788-816 | The header table lists exactly the items whose support reaches the threshold, by falling support |
| FpFirst.FirstLevel | freqmine/src/fp_tree.cpp:1096-1252 | The first tree stands for the whole database over its header table: the starting level of the recursion |
| FpFirst.TransactionRow | freqmine/src/fp_tree.cpp:578-645 | A transaction becomes one row: its hot items as a mask, the others as an ascending list, the infrequent ones dropped |
| FpGrowth.Miner.MineItem | freqmine/src/fp_tree.cpp:1545-1615 | One round of the loop: the item itself, then exactly the frequent sets of its conditional database, whichever of the three cases (none or one frequent item, single path, recursion) is taken |
| FpGrowth.Miner.MineTree | freqmine/src/fp_tree.cpp:1594-1613 | The shortcut for a single path and the recursion print the same thing: the frequent sets of the conditional tree |
| FpGrowth.Miner.MinePath | freqmine/src/fp_tree.cpp:1594-1606 | A single-path tree is mined by listing subsets: exactly its frequent sets, each with the count of its deepest item, and as many of each size as the binomials added to ITlen |
| FpGrowth.Miner.Powerset | freqmine/src/fp_tree.cpp:1290-1311 | Appends to the output the subsets of the remaining items, each once, in the order of the recursion, without disturbing the chosen prefix |
| FpGrowth.Miner.CountSubsets | freqmine/src/fp_tree.cpp:1599-1604 | The running product temp * i2 / i1 is exact at every step: slot top + i - 1 grows by the binomial coefficient n over i |
| FpGrowth.Miner.CondTree | freqmine/src/fp_tree.cpp:1579-1593 | The tree built for an item stands for the conditional database of that item, over exactly its frequent items, and has fewer items than the current tree |
| FpGrowth.Miner.Push | freqmine/src/fp_tree.cpp:1549-1555 | Pushing an item prints the stack with the given support and counts one set of that size |
| FpGrowth.PatternBase | freqmine/src/fp_tree.cpp:303-346 | Leaves in the global arrays exactly the items that are frequent in the conditional database, with their supports there, marks the other occurring items with -1 and clears the support array |
| FpGrowth.SingleIsFull | freqmine/src/fp_tree.cpp:1313-1320 | If the tree is one chain, the chain holds every header item in order, and every set of items has the count of its deepest item for support |
| FpGrowth.GrewBySubsets | freqmine/src/fp_tree.cpp:1599-1604 | Adding the binomials to ITlen is adding the number of sets of each size that the powerset prints |
| FpDatabase.CondSupport | freqmine/src/fp_tree.cpp:303-346 | The weighted node paths of item x, cut before x, support a set of earlier items exactly as the database supports that set with x added |
| FpMining.Step | freqmine/src/fp_tree.cpp:1545-1615 | The sets whose last item is after x, then x alone, then x added to the frequent sets of its conditional database: together each frequent set whose last item is x or later, once, with its support |
| FpCond.CondOfSupport | freqmine/src/fp_tree.cpp:303-346 | In a tree that represents the database, the conditional database read off the nodes of x has the support it should have |
| FpCond.EntriesOf | freqmine/src/fp_tree.cpp:311-331 | In the flattened tree the entries of item x are the paths of its nodes, each with the weight of the transactions through it, none of weight 0 |
| FpCond.AddPath | freqmine/src/fp_tree.cpp:322-327 | Reading from begin to the mark adds the count once to each ancestor item and to nothing else, and yields the depth |
| FpLevel.CondHolds | freqmine/src/fp_tree.cpp:1579-1593 | Any arrangement of the frequent items of the conditional database serves as the next header table |
| FpLevel.HeaderFacts | freqmine/src/fp_tree.cpp:1253-1274 | The sorted header table lists frequent items before x with their supports, each once, at most x of them |
| FpLevel.OrdersKnown | freqmine/src/fp_tree.cpp:1267-1274 | When the paths are read again, every item on them has either its place in the new header table or -1, never a stale order number |
| FpLevel.OneItem | freqmine/src/fp_tree.cpp:1565-1577 | With one frequent item, printing its set is the whole output owed |
| FpSingle.SinglePath | freqmine/src/fp_tree.cpp:1313-1320 | Following the left children answers whether all nodes lie on one chain |
| FpSingle.DeepestIsFull | freqmine/src/fp_tree.cpp:1594-1606 | If every header item occurs, the deepest node of a chain has all items on its path |
| FpSingle.SinglePathSupport | freqmine/src/fp_tree.cpp:1290-1306 | Over nested transactions the support of any set is the count of its last item |
| FpPowerset.BinomStep | freqmine/src/fp_tree.cpp:1600-1603 | C(n,k-1) * (n-k+1) / k is an exact division and equals C(n,k) |
| FpPowerset.SubsetsOfSize | freqmine/src/fp_tree.cpp:1290-1306 | The recursion over in/out choices lists exactly C(m,j) ways to add j of m items |
| FpPowerset.PowersetEmits | freqmine/src/fp_tree.cpp:1290-1311 | The powerset listing of a single path is exactly the output owed for the level, each set once with its support |
| FpPowerset.PathSizes | freqmine/src/fp_tree.cpp:1599-1606 | That listing holds C(n,k) sets of k items beyond the prefix |
| FpArray.Transform | freqmine/src/fp_tree.cpp:107-177 | Flattening is faithful and stays in bounds: every node but the root has exactly one (begin, count) entry in its item's list, and reading the array upward from begin to the mark gives its ancestors from parent to root; new_data_num + 1 cells suffice |
| FpArray.WriteChain | freqmine/src/fp_tree.cpp:146-171 | Writing a chain keeps the invariant of the traversal: the cells left are enough for the nodes left, and entries written earlier still read their ancestors |
| FpArray.PopNode | freqmine/src/fp_tree.cpp:134-145 | A leaf popped after the first chain gets an entry that reuses the kept part of the last chain, and no cell |
| FpTraversal.DfsAll | freqmine/src/fp_tree.cpp:126-175 | The stack traversal visits every node but the root exactly once |
| FpTraversal.LeafNeedBound | freqmine/src/fp_tree.cpp:1032-1040 | The chains still to be written never need more cells than the sum of the leaf depths that insert and the sweep have accounted for |
| FpTree.FpTree.AddRow | freqmine/src/fp_tree.cpp:389-398 | One row: its mask gains its weight, its table node exists afterwards, and the tree stands for one row more |
| FpTree.FpTree.Insert | freqmine/src/fp_tree.cpp:981-1059 | The tree stands for its old rows and the new one: counts on the shared part of the path grow, the rest is appended, node counts per item and new_data_num stay right, with or without the small-mask shortcut |
| FpTree.FpTree.Walk | freqmine/src/fp_tree.cpp:984-1018 | The walk adds the count to exactly the existing nodes on the row's path and stops at the first missing one, and asks for a shortcut entry to be patched only if that entry was empty |
| FpTree.FpTree.FastStep | freqmine/src/fp_tree.cpp:989-998 | The lookup table answers as the sibling search would: the first child if it is there, and no such path if the entry is empty |
| FpTree.FpTree.FindChild | freqmine/src/fp_tree.cpp:1003-1015 | The sibling search finds the child with the item, or there is none |
| FpTree.FpTree.ChargeAndExtend | freqmine/src/fp_tree.cpp:1020-1042 | The first missing node charges new_data_num for the rest of the chain, and for the whole path when it opens a branch |
| FpTree.FpTree.AddNode | freqmine/src/fp_tree.cpp:1029-1055 | A new node takes the head of the child list or the place behind it, and the tree keeps standing for its rows |
| FpTree.FpTree.Start | freqmine/src/fp_tree.cpp:1276-1287 | The root becomes the table node of the empty mask in clean tables |
| FpTree.FpTree.LinkHotNodes | freqmine/src/fp_tree.cpp:401-434 | After the descending sweep the tree represents all rows: every prefix of a row has one node, whose count is the total weight of the rows with that prefix, hot paths being the ascending bits of the mask; all tables are clean again |
| FpTree.FpTree.LinkHot | freqmine/src/fp_tree.cpp:408-428 | Linking mask i below its parent mask keeps the sweep's invariant for i - 1 and clears its slots |
| FpTree.FpTree.EnsureParent | freqmine/src/fp_tree.cpp:411-418 | A missing parent mask gets a node; masks from i on are untouched |
| FpTree.FpTree.MakeHot | freqmine/src/fp_tree.cpp:390-393 | A table node is made for a mask without changing what the tree stands for |
| FpTree.LiftWeightIsPrefixWeight | freqmine/src/fp_tree.cpp:405-428 | The weight folded into mask i by the sweep is the weight of all rows that start with the bits of i |
| FpTree.ResetShortcuts | freqmine/src/fp_tree.cpp:430-433 | Taking back the patched entries empties the shortcut table |
| HotItems.LiftReaches | freqmine/src/fp_tree.cpp:405-428 | Folding masks into their parents from the top brings a mask to i exactly if its bit list starts with the bits of i |
| HotItems.BitsOfParent | freqmine/src/fp_tree.cpp:408-410 | The parent mask has the same bits but the last |
| FpScan.Scan2 | freqmine/src/fp_tree.cpp:348-434 | The second scan builds the tree of the conditional database: its rows are the conditional transactions as the new header table encodes them |
| FpScan.ScanPath | freqmine/src/fp_tree.cpp:362-400 | One node path becomes one row of the new tree |
| FpScan.PathRow | freqmine/src/fp_tree.cpp:371-396 | The hot items of a path go into the mask, the others, ascending, into the list; items without an order number are dropped; the flags are clean again |
| FpScan.ChooseNumHot | freqmine/src/fp_tree.cpp:1280-1285 | As many hot items as 64 masks and half of the items allow, or none if there are fewer than eight path items per mask |
| FpMiner.Scratch.Tally | freqmine/src/fp_tree.cpp:317-331 | The support array holds, for every item below x, the weight of the node paths it lies on |
| FpMiner.Scratch.Filter | freqmine/src/fp_tree.cpp:332-346 | Keeps exactly the items at or above the threshold, in order, marks those below it, clears the supports |
| FpMiner.Scratch.Header | freqmine/src/fp_tree.cpp:1253-1274 | The new table is an arrangement of the frequent items, and the order array says where each old item went |
| FpMiner.Scratch.ReadPath | freqmine/src/fp_tree.cpp:371-388 | Splits a path into mask, flags, number of flags and largest flagged item |
| FpMiner.Scratch.FillCount | freqmine/src/fp_tree.cpp:1081-1093 | Lists the flagged items from the first non-hot one to the maximum, ascending, and clears their flags |
| FpMiner.SortTable | freqmine/src/fp_tree.cpp:1259-1267 | The header table comes out by falling count, every item with its own count, none lost or repeated |
| FpSort.Sort | freqmine/src/fp_tree.cpp:476-490 | Quicksort with insertion sort for short stretches: the stretch falls by count, its (count, item) pairs are the same, and nothing outside it has moved; the scans stay inside the arrays because the element before a stretch is as large as any in it |
| FpSort.Partition | freqmine/src/fp_tree.cpp:453-464 | Divides the stretch into elements at least and at most the pivot, without a bound check on the upward scan and with only a check for 0 on the downward one; the last exchange is undone |
| FpSort.InsSort | freqmine/src/fp_tree.cpp:466-474 | Insertion sort of a stretch |
| FpSort.DividedFences | freqmine/src/fp_tree.cpp:487-488 | Once the pivot is in place each part may be sorted on its own |
| Rabin.ResidueIsRemainder | dedup/src/rabin.c:72-100 | The byte-wise hash of a string is the remainder of its polynomial modulo X^32 + irrpoly, and no other word is |
| Rabin.RemainderUnique | dedup/src/rabin.c:24-35 | Two remainders of degree below 32 of the same polynomial are equal |
| Rabin.ResidueIsBitResidue | dedup/src/rabin.c:72-100 | Byte by byte or bit by bit, the remainder is the same |
| Rabin.MulXShifts | dedup/src/rabin.c:24-35 | One shift-and-reduce step multiplies by X modulo the polynomial |
| RabinSeg.FpReduce | dedup/src/rabin.c:24-35 | Computes x * X^32 |
| RabinSeg.FpMkRedTab | dedup/src/rabin.c:37-43 | Entry i is i * X^32 |
| RabinSeg.FpWinReduce | dedup/src/rabin.c:45-54 | Multiplies by the power of X that a window of the given length reaches back |
| RabinSeg.FpMkWinRedTab | dedup/src/rabin.c:56-62 | Entry i is i times that power |
| RabinSeg.RabinInit | dedup/src/rabin.c:64-70 | Both tables are right for the window length asked for |
| RabinSeg.FeedIsMul | dedup/src/rabin.c:92-94 | One table step multiplies the hash by X^8 and adds the byte |
| RabinSeg.RollingIsWindow | dedup/src/rabin.c:81-98 | If each window entry is right for 32 bytes, the rolling value after every byte is the from-scratch remainder of the last 32 bytes |
| RabinSeg.WindowHashIff | dedup/src/rabin.c:45-62 | For any window table: the rolling value is a fingerprint of the last 32 bytes for all inputs and positions if and only if each entry removes a byte that entered 31 steps ago |
| RabinSeg.DependsOnWindowIff | dedup/src/rabin.c:45-62 | Inputs that agree on the last 32 bytes have the same rolling value, for all inputs and positions, if and only if each entry removes a byte that entered 31 steps ago |
| RabinOrder.OrderOfX | dedup/src/rabin.c:24-35 | X^n is 1 modulo the polynomial if and only if (2^32 - 1) / 3 divides n |
| RabinOrder.WindowLength | dedup/src/rabin.c:45-70 | Which window lengths make the rolling value depend on the last 32 bytes alone: exactly those of at least 1 that leave 32 when divided by (2^32 - 1) / 3 |
| RabinOrder.OtherLength | dedup/src/rabin.c:45-70 | A second length within a C int, 1431655797, does as well as 32 |
| RabinSeg.FullWindow | dedup/src/rabin.c:45-62 | Tables built with winlen = NWINDOW meet that condition |
| RabinSeg.CallSiteWindow | dedup/src/encoder.c:969-970 | Tables built with window length 0, as every call site asks for, do not: a byte 1 and a byte 0, each followed by the same 32 bytes, lead to different rolling values |
| RabinSeg.Segment | dedup/src/rabin.c:72-100 | Returns the position of the first cut, or the length if there is none |
| RabinSeg.CutIff | dedup/src/rabin.c:72-100 | There is a cut behind byte i if and only if i is at least 32 and 4096 divides the rolling value, a 32-bit word |
| RabinSeg.ZerosCut | dedup/src/rabin.c:72-100 | Zeros are cut at 32 bytes, whatever window length the tables were built for |
| RabinSeg.UncutData | dedup/src/rabin.c:72-100 | For any tables, any jump and any length there is data of that length that rabinseg does not cut, neither from its beginning nor from jump on |
| RabinSeg.SegmentStable | dedup/src/rabin.c:72-100 | A cut before the end stays where it is whatever bytes follow, for any tables |
| DedupFormat.LERound | dedup/src/util.c:45-75 | A number written in k bytes is read back if it fits |
| DedupFormat.Output.Write | dedup/src/encoder.c:227-240 | Appends the bytes of one record: type, length, payload; the program goes on exactly if the length of the payload is not negative as the C int that xwrite returns |
| DedupFormat.Output.constructor | dedup/src/util.c:65-75 | A new archive is the header |
| DedupFormat.ParseRecord | dedup/src/decoder.c:60-98 | Parsing the bytes of a record, whatever follows them, gives the record and leaves what follows, unless its length is not positive as a C int |
| DedupFormat.Decode | dedup/src/decoder.c:173-255 | The loop computes the reference decoding of the input, with the same error for the same input |
| DedupFormat.DecodeInverts | dedup/src/decoder.c:213-250 | For every chunk sequence: decoding its archive gives back the chunks in order if and only if every first occurrence fits the decoder's int lengths and buffer; otherwise it fails, and never because a duplicate has no counterpart |
| DedupFormat.BigChunkLost | dedup/src/decoder.c:122-148 | An input for which it fails, with gzip or bzip2: one chunk of 10,000,001 bytes, which the encoder writes and which does not fit the buffer of the decoder |
| DedupFormat.OneChunkIff | dedup/src/decoder.c:122-148 | A file of one chunk, short enough for a C int before and after compression, comes back if and only if it is not compressed or has at most 10,000,000 bytes |
| DedupFormat.ArchiveBegins | dedup/src/util.c:65-75 | Every archive begins with the bytes 40 e2 01 00, the check number with its least byte first, and the kind of compression; the sixth byte, if there are chunks, is 1, for data |
| DedupFormat.TwiceTheSame | dedup/src/encoder.c:227-240 | The archive of one chunk twice, byte by byte: header, 1, length and data, 0, the length 20 and the hash |
| DedupFormat.RecordsAppend | dedup/src/encoder.c:278-317 | The record sequence of the serial rule grows by one record per chunk: data at the first occurrence, the fingerprint afterwards |
| DedupChunking.Input.Fill | dedup/src/encoder.c:1013-1041 | Reads until the buffer is full or the file ends, with reads of any size in between |
| DedupChunking.CutStable | dedup/src/encoder.c:1088-1153 | A cut before the end of the buffer is a cut of the longer buffer |
| DedupChunking.NoCutLonger | dedup/src/encoder.c:1088-1153 | A buffer without a cut is a beginning of the next piece |
| DedupChunking.GreedyConcat | dedup/src/encoder.c:979-1153 | The greedy pieces, joined, are the data |
| DedupChunking.ZeroFile | dedup/src/encoder.c:954-1154 | A file of zeros becomes pieces of 32 bytes and the rest |
| DedupChunking.SplitSerial | dedup/src/encoder.c:1088-1153 | Splitting the buffer emits pieces of the greedy segmentation of everything still to come and keeps the rest, or stops at a record that ends the program |
| DedupChunking.SerialPipeline | dedup/src/encoder.c:954-1154 | For every division of the file into reads, the chunks are the greedy segmentation of the whole file and the archive is theirs; the program ends early exactly if one of their records is too long to be written |
| DedupChunking.Encoder.Deduplicate | dedup/src/encoder.c:530-576 | A chunk is a duplicate exactly if an earlier chunk has its hash |
| DedupChunking.Encoder.Process | dedup/src/encoder.c:1064-1081 | Deduplicating, compressing and writing a chunk extends the archive by the record of the serial rule, and the program goes on exactly if that record can be written |
| DedupChunking.RoundTrip | dedup/src/decoder.c:213-250 | Without compression the archive of every file decodes to the file |
| DedupFragment.Fragmenter.Fragment | dedup/src/encoder.c:1182-1376 | The coarse pieces are the greedy segmentation of the whole file with jumps, numbered densely from 0 |
| DedupFragment.Fragmenter.SplitCoarse | dedup/src/encoder.c:1306-1358 | Splitting the buffer emits numbered coarse pieces and keeps the rest |
| DedupFragment.FragmentRefine | dedup/src/encoder.c:764-826 | The chunks of a coarse piece are its greedy segmentation, numbered densely from 0, only the last one marked as last |
| DedupFragment.StagesKeepData | dedup/src/encoder.c:724-826 | The chunks of the two stages, joined in label order, are the file, and no coarse piece is without chunks |
| DedupRace.InvNext | dedup/src/encoder.c:530-576 | Every step of a deduplicating, compressing or writing thread keeps: each hash has one original, every duplicate refers to it, and an original is flushed exactly if its hash has been written |
| DedupRace.SourceRecord | dedup/src/encoder.c:278-299 | What the writer is about to write is the record that the serial rule asks for, although another copy may have become the original |
| DedupRace.RaceIsSerial | dedup/src/encoder.c:278-299 | For every interleaving the output is at each point the archive of the chunks written so far under the serial rule, and a run that writes them all has only records that can be written |
| DedupRace.ScheduleIndependent | dedup/src/encoder.c:278-299 | Two runs over the same chunks write the same bytes |
| DedupRace.RunsAreShort | dedup/src/encoder.c:278-299 | No run has more than one state more than three times the number of chunks: every chunk is looked up once, compressed at most once and written once |
| DedupRace.StuckIsFinished | dedup/src/encoder.c:278-299 | A run that no thread can carry on has written everything, if every record of the serial rule can be written: the writer that waits for a chunk to be compressed never waits in vain |
| DedupRace.CanFinish | dedup/src/encoder.c:278-299 | From wherever a run has got to, it can be carried on until everything is written |
| DedupRace.FinishesIff | dedup/src/encoder.c:227-299 | A finished run exists if and only if every record of the serial rule can be written |
| BinHeap.PriorityQueue.Insert | dedup/src/binheap.c:47-72 | Adds the chunk, keeps the heap order, and doubles the capacity of a full heap and of no other |
| BinHeap.PriorityQueue.DeleteMin | dedup/src/binheap.c:74-101 | Removes and returns a chunk with the least label, keeping all others and the order |
| BinHeap.PriorityQueue.FindMin | dedup/src/binheap.c:103-110 | Returns a chunk with the least label |
| SearchTree.TreeFind | dedup/src/tree.c:28-39 | Finds the node of a key, or the key is not in the tree |
| SearchTree.TreeFindMin | dedup/src/tree.c:41-52 | Finds the node of the least key |
| SearchTree.TreeInsert | dedup/src/tree.c:63-85 | The tree stays ordered and holds the old entries and the new one; only nodes of the tree are touched |
| SearchTree.TreeDelete | dedup/src/tree.c:87-128 | The tree stays ordered and loses exactly the key's entry, replacing an inner node by the least of its right subtree |
| Reorder.ReorderAll | dedup/src/encoder.c:1628-1764 | For every order of arrival of a densely labelled chunk set, the chunks are written once each in label order, and the cache is empty at the end, so that no label can mismatch |
| Reorder.Stage.Arrive | dedup/src/encoder.c:1660-1734 | After each arrival the written chunks are a prefix of the label order, every other chunk that has arrived is in the cache, and the expected one is not |
| Reorder.Stage.Drain | dedup/src/encoder.c:1702-1733 | The chunk that was waited for and everything in sequence after it is written |
| Reorder.Stage.TakeNext | dedup/src/encoder.c:1713-1732 | The next chunk is taken from the cache exactly if it has arrived |
| Reorder.Stage.Keep | dedup/src/encoder.c:1686-1701 | A chunk that came too early goes into the heap of its piece |
| Reorder.AdvanceIsSucc | dedup/src/encoder.c:1680-1712 | Advancing by chunk counts is going to the next label, because a last chunk is counted when it arrives |
| Reorder.FrontData | dedup/src/encoder.c:1628-1764 | In label order the data is the stream of the chunking stages |
| RingQueue.RingBuffer.Insert | dedup/src/queue.h:87-94 | Appends unless full, in which case nothing changes and -1 is returned |
| RingQueue.RingBuffer.Remove | dedup/src/queue.h:71-82 | Takes the oldest element |
| RingQueue.RingBuffer.IsFull | dedup/src/queue.h:65-69 | Full means as many elements as were asked for, one slot staying free |
| RingQueue.RingBuffer.IsEmpty | dedup/src/queue.h:60-63 | Empty means no elements |
| RingQueue.RingBuffer.constructor | dedup/src/queue.h:43-52 | An empty buffer with one slot more than its capacity |
| RingQueue.Queue.Enqueue | dedup/src/queue.c:83-111 | Moves the oldest items over in order until the limit, the end of the send buffer or a full queue |
| RingQueue.Queue.Dequeue | dedup/src/queue.c:49-81 | Moves the oldest items out in order, or returns -1, which happens exactly if the queue is empty with all producers done |
| RingQueue.Queue.Terminate | dedup/src/queue.c:37-47 | Counts one producer as done and changes nothing else |
| RingQueue.Move | dedup/src/queue.c:62-68 | The copying loop keeps order and loses nothing |
| PipelineProtocol.InvNext | dedup/src/encoder.c:437-664 | Every step of every thread of every stage, in every lane, keeps the protocol's invariant |
| PipelineProtocol.EnqueueSafe | dedup/src/queue.c:83-111 | For any number of queues per stage boundary and of threads per queue: in every state of every run no enqueue meets a terminated queue and no insertion into a send buffer finds it full |
| PipelineProtocol.NeverOnTerminated | dedup/src/encoder.c:609-664 | In particular the reader that terminates its queues one after the other, and the deduplicating threads with their side entries to the reorder queue of their lane, of which they are not counted producers |
| PipelineProtocol.EndIsFinal | dedup/src/queue.c:49-81 | A consumer that saw -1 from a queue has seen everything: the queue is empty and nothing will be put in |
| PipelineProtocol.WriterStops | dedup/src/encoder.c:1661-1669 | The writer, polling its queues in turn, leaves the loop exactly when it has got -1 from all of them in a row, and then every one is terminated and empty |
| PipelineProtocol.AllocationFits | dedup/src/encoder.c:1849-1874 | Thread numbers divided by four give each queue as many producing threads as it is told to wait for, the last one nthreads % 4 of them, and leave no queue without threads |
| PipelineProtocol.Conserved | dedup/src/encoder.c:1849-1874 | In every run, for every item, the copies in the buffers of all threads, in all queues of all lanes and in the output add up to what the input refines to |
| PipelineProtocol.WriterGetsAll | dedup/src/encoder.c:1628-1764 | When the writer is through it has got every chunk exactly as often as the input refines to it |
| PipelineProtocol.FirstInFirstOut | dedup/src/queue.c:49-111 | Along every run, for every queue of every lane: what its consumers have received, followed by what is in it, is what its producers have put in, in order; and it never holds more than its size |
| PipelineProtocol.PutIsFront | dedup/src/queue.c:83-111 | What is put in is the front of the send buffer, at least one item, and the rest of the buffer stays |
| PipelineProgress.RunsAreFinite | dedup/src/encoder.c:437-664 | No run of the pipeline is longer than a bound that the configuration and the input give: every step of every thread brings the items nearer to the output |
| PipelineProgress.StuckIsDoneOrDeadlocked | dedup/src/encoder.c:1661-1669 | A run that no thread can carry on is through, or the writer waits at a lane whose queues are all empty and unfinished while the reader waits at the full first queue of another lane |
| PipelineProgress.StuckIsDone | dedup/src/queue.c:83-111 | With one lane, or queues as long as the input, a run that no thread can carry on is through |
| PipelineProgress.RunsThrough | dedup/src/encoder.c:1849-1874 | Every such configuration has a run that goes through, for every input |
| PipelineDeadlock.QueuesDeadlock | dedup/src/encoder.c:1661-1669 | Without that proviso it is not so: for two lanes of one thread each, whatever the size of the queues, there are an input and a way to refine it with which no run at all gets through and some run ends deadlocked |
| PipelineDeadlock.NeverThrough | dedup/src/encoder.c:1661-1669 | The first piece of the second lane has more parts than the lane holds while the writer, taking turns, waits for the first lane: in no schedule does the reader get rid of its last piece |
| DedupEndToEnd.ReorderedIsStream | dedup/src/encoder.c:1628-1764 | The reorder stage writes the chunks of Fragment and FragmentRefine in stream order |
| DedupEndToEnd.PipelineRoundTrip | dedup/src/encoder.c:1825-1990 | For every file, tables and schedule: the finished archive decodes to the file if and only if the chunk sizes are within the decoder's reach |
| DedupEndToEnd.PipelineDelivers | dedup/src/encoder.c:1628-1764 | Whatever the schedule of threads and queues, what reaches the writer is every chunk of the two chunking stages exactly once |
| DedupEndToEnd.EncodeFile | dedup/src/encoder.c:1825-1990 | From a file through any run of the pipeline, the reorder stage fed in the order of that run, and any run of the racing threads over what it writes: the archive decodes to the file if and only if the chunk sizes are within the decoder's reach; and such a run of the racing threads exists if and only if every record can be written |
| DedupEndToEnd.BigFileLost | dedup/src/encoder.c:1825-1990 | For any tables and with gzip or bzip2 there is a file of 10,000,001 bytes, in one piece, whose archive does not decode, whatever the schedule; and there is a schedule that writes it |
| DedupEndToEnd.UncompressedRoundTrip | dedup/src/encoder.c:1825-1990 | Without compression it always does, as long as pieces can be measured by a C int, and whatever has been done the run can be carried on to an archive that does |
| DedupEndToEnd.WillBeThrough | dedup/src/encoder.c:1849-1874 | From wherever the pipeline has got to, it can be carried on until the writer is through, if there is one lane or the queues are as long as the input |
| DedupEndToEnd.EndedIsThrough | dedup/src/encoder.c:1849-1874 | And whatever the schedule, once nobody can go on the writer is through and has got every chunk of the two chunking stages exactly once |
| DedupEndToEnd.QueuesSuffice | dedup/src/encoder.c:1013-1041 | The queues of the program are as long as the input for every file of at most 2^20 times the jump |
| AtomicPtr.InvNext | canneal/src/AtomicPtr.h:202-219 | Every atomic step of any number of threads keeps the agreement between cells, hands and the atomic memory |
| AtomicPtr.StepRefines | canneal/src/AtomicPtr.h:202-219 | A step leaves the atomic memory alone, or is the compare-and-swap on the upper cell and swaps both cells of its operation there |
| AtomicPtr.RunRefines | canneal/src/AtomicPtr.h:202-219 | At every point of every run the atomic memory is the initial one with the completed swaps done one after the other |
| AtomicPtr.GetIsAtomic | canneal/src/AtomicPtr.h:175-183 | Get returns what the atomic memory holds at its last load |
| AtomicPtr.QuietIsPermutation | canneal/src/AtomicPtr.h:202-219 | When nobody holds a pointer, the cells hold the result of the completed swaps, a permutation of the initial pointers; each thread's part of those swaps is, in order, the pairs that its completed calls asked for, without the TrySwaps that gave up and with every Swap |
| AtomicPtr.NothingLost | canneal/src/AtomicPtr.h:255-270 | A checked-out pointer is in the hand of exactly one thread; a checked-in cell holds what the atomic memory says |
| AtomicPtr.TopHolderEnds | canneal/src/AtomicPtr.h:202-219 | The holder of the highest checked-out cell ends its operation alone within four steps |
| AtomicPtr.NeverStuck | canneal/src/AtomicPtr.h:202-270 | In no reachable state with an unfinished operation is everybody stuck: some busy thread alone ends its operation within six steps |
| AtomicPtr.AloneSwaps | canneal/src/AtomicPtr.h:202-251 | A Swap or TrySwap that finds both pointers in and has no rival exchanges the two cells in five steps, touches no other, and reports success |
| AtomicPtr.AloneGets | canneal/src/AtomicPtr.h:175-183 | A Get that finds the pointer in has it after one step |
| Netlist.Circuit.ElementFor | canneal/src/netlist.cpp:236-258 | A known name keeps its element, a new one takes the next unused, so names and elements stay one to one |
| Netlist.Circuit.Connect | canneal/src/netlist.cpp:224-226 | A new net enters the fan-in of one end and the fan-out of the other |
| Netlist.Circuit.Read | canneal/src/netlist.cpp:203-228 | One line becomes one net per fan-in name, between the elements of the names |
| Netlist.Circuit.TotalRoutingCost | canneal/src/netlist.cpp:53-67 | The halved sum over the named elements, in whatever order the table lists them, is the length of all nets |
| Netlist.DoubleCounted | canneal/src/netlist.cpp:53-67 | Fan-in and fan-out cost over all elements counts every net exactly twice |
| Netlist.Circuit.RoutingCost | canneal/src/netlist_elem.cpp:53-70 | The cost of an element at a location is the distance to its fan-in and fan-out |
| Netlist.DistIs | canneal/src/netlist_elem.cpp:53-70 | The distance is the way along both axes, the same in both directions and no longer than by way of a third place |
| Netlist.Circuit.SwapCost | canneal/src/netlist_elem.cpp:77-101 | The cost of the element at the new location less that at the old one |
| Netlist.Circuit.DeltaRoutingCost | canneal/src/annealer_thread.cpp:295-304 | Both elements' swap costs added up |
| Netlist.DeltaError | canneal/src/annealer_thread.cpp:295-304 | That delta is the change of the wire length, less 2 * d for every net between the two elements, plus 2 * d for every net from one of them to itself, d being their distance |
| Netlist.DeltaExactIff | canneal/src/annealer_thread.cpp:295-304 | It is exact if and only if the two share a location or have as many nets between them as nets to themselves; without self-nets, if they are unconnected |
| Netlist.DeltaWrong | canneal/src/annealer_thread.cpp:295-304 | An input for which it is wrong: one net between two elements at different places |
| Netlist.Circuit.SwapLocations | canneal/src/netlist.cpp:87-91 | The two elements exchange locations |
| Annealer.Rng.GetRandomElement | canneal/src/netlist.cpp:98-112 | Returns the first drawn element different from the given one |
| Annealer.MovesAtTemperature | canneal/src/annealer_thread.cpp:233-255 | Each attempt pairs the element of the one before with the next different one drawn, computes the delta at the locations of the time, and is accepted if that is negative or the Boltzmann factor beats the chance drawn; the locations are the result of the accepted ones, and the wire length has changed by their deltas plus twice what they leave out |
| Annealer.Run | canneal/src/annealer_thread.cpp:211-323 | Over the whole serial run: the first two draws are the pair it starts with, every further draw goes to the attempt whose turn it is, from the position and the last element at which the round before ended, and each round is judged at the locations that the rounds before have left and at its own temperature; the locations, still a permutation, are the result of the accepted moves of all steps in order, and the wire length has changed by their deltas plus twice what they leave out; with a number of steps there are that many, with -1 the run goes on as long as a step accepts more good moves than bad ones and ends with the first that does not |
| Annealer.RunUnique | canneal/src/annealer_thread.cpp:211-323 | Two runs that draw from the same generator and start from the same locations make the same attempts, round by round |
| Annealer.Cools | canneal/src/annealer_thread.cpp:223-228 | Every step is two thirds as hot as the one before |
| Annealer.ColdDescends | canneal/src/annealer_thread.cpp:275-288 | If the Boltzmann factor beats no chance, exactly the attempts that lower the cost are accepted |
| Annealer.HotTakesAll | canneal/src/annealer_thread.cpp:275-288 | If it beats every chance, all attempts are, in order |
| Annealer.RunCost | canneal/src/annealer_thread.cpp:233-255 | Over any sequence of accepted moves: final wire length = initial + sum of the deltas + 2 * (what they leave out for nets between the swapped elements) |
| Annealer.PlacedKeeps | canneal/src/netlist.cpp:87-91 | No location is lost or given twice |
| MersenneTwister.MTRand.RandInt | canneal/src/MersenneTwister.h:179-193 | Every call returns the tempered next term of the MT19937 recurrence, across any number of reloads |
| MersenneTwister.MTRand.Reload | canneal/src/MersenneTwister.h:301-314 | Overwriting the state in place, with reads of entries already replaced, leaves the next 624 terms of the recurrence |
| MersenneTwister.MTRand.constructor | canneal/src/MersenneTwister.h:215-220 | The generator of a seed is about to draw the first term after the 624 words that the standard derives from the seed |
| MersenneTwister.MTRand.Initialize | canneal/src/MersenneTwister.h:283-298 | The seed fills the state as the standard says, although words are kept in 64 bits |
| MersenneTwister.MTRand.Save | canneal/src/MersenneTwister.h:343-350 | The saved words, resumed where the generator stands, continue the identical stream for ever; the last entry is the number of words left |
| MersenneTwister.MTRand.Load | canneal/src/MersenneTwister.h:353-361 | The words and the number left are the state, whatever they are; if the upper halves of the words are zero, as in every saved state, the generator draws their sequence from the saved position on |
| MersenneTwister.Resumes | canneal/src/MersenneTwister.h:353-361 | A sequence started from 624 consecutive words of another goes on as that one does |
| MersenneTwister.TwistIsStep | canneal/src/MersenneTwister.h:124-132 | Twisting 64-bit words whose upper half is zero is one step of the 32-bit recurrence |
| MersenneTwister.TemperedIs | canneal/src/MersenneTwister.h:186-192 | Tempering in 64 bits is tempering in 32 bits |
| MersenneTwister.Recurrence | canneal/src/MersenneTwister.h:124-132 | Word k + 624 of the sequence from words k, k + 1 and k + 397, bit by bit |
| MersenneTwister.TemperInjective | canneal/src/MersenneTwister.h:186-192 | Tempering loses nothing: different words have different results |
| MersenneTwister.TemperedWords | canneal/src/MersenneTwister.h:186-192 | The tempered values of single-bit words |
| MersenneTwister.SteppedWords | canneal/src/MersenneTwister.h:124-132 | The recurrence on words that show the mask, the shift and the twist |
| MersenneTwister.DefaultSeed | canneal/src/MersenneTwister.h:283-298 | The first words of the seed 5489 |
| MersenneTwister.MixOne | canneal/src/MersenneTwister.h:301-312 | Twisting one slot keeps the invariant of the half-replaced state, wherever the 397-step read wraps around |
| Barrier.InvNext | fluidanimate/src/parsec_barrier.cpp:127-208 | Every section under the mutex, every unlocked read of the flag and every spurious wake-up keeps the invariant, with and without spinning |
| Barrier.NoEarlyLeave | fluidanimate/src/parsec_barrier.cpp:127-208 | Nobody returns from an episode before max threads have arrived in it |
| Barrier.NoEarlyJoin | fluidanimate/src/parsec_barrier.cpp:133-160 | Nobody joins an episode before all max threads have returned from the one before |
| Barrier.OneSerialThread | fluidanimate/src/parsec_barrier.cpp:161-205 | Every completed episode has max returns, exactly one of them with the serial-thread value |
| Barrier.SerialIsFirst | fluidanimate/src/parsec_barrier.cpp:133-160 | The thread that will return the serial value is inside from the first arrival on, and is the only one |
| Barrier.CountIsArrivedMinusLeft | fluidanimate/src/parsec_barrier.cpp:127-208 | n is always the number of threads that have arrived and not departed |
| Barrier.NeverAllAsleep | fluidanimate/src/parsec_barrier.cpp:127-208 | With at least max threads in the barrier some thread is awake and can go on: no wake-up is lost |
| Barrier.AwakeCanGo | fluidanimate/src/parsec_barrier.cpp:127-208 | A thread that is not asleep always has its next step enabled |
| Barrier.InvWait | fluidanimate/src/parsec_barrier.cpp:161-190 | An arrival that is not the last one keeps the invariant |
| Barrier.ComeToRest | fluidanimate/src/parsec_barrier.cpp:127-208 | Left to themselves, in any order, the threads in the barrier come to rest after a number of steps that the number of threads and the spinning limit bound |
| Barrier.WholeGroupsReturn | fluidanimate/src/parsec_barrier.cpp:127-208 | At rest exactly the whole groups of max calls have returned; the calls left over, fewer than max, sleep inside |
| Barrier.CallsDo | fluidanimate/src/parsec_barrier.cpp:127-208 | No step makes or loses a call: those that have returned and those in the barrier are all that were made |
| Streamcluster.Clusters.PGain | streamcluster/src/ompss-2-cluster_streamcluster.cpp:242-380 | The solution afterwards is the old one improved by opening x the best way, or the old one if no way pays; the return value is exactly the decrease of costs plus fees (by the program's own center count); the center count is right but for one more when x was a center, the fee is 0 and something was gained |
| ClusterGain.GainIsExact | streamcluster/src/ompss-2-cluster_streamcluster.cpp:266-373 | The cost computed for opening x is the difference between the total of the solution chosen and the old total, for x a center or not |
| ClusterGain.BestIsOptimal | streamcluster/src/ompss-2-cluster_streamcluster.cpp:333-342 | The centers pgain closes minimise the total over all sets of centers that could be closed when x is opened |
| Streamcluster.ActsIffSomeChoicePays | streamcluster/src/ompss-2-cluster_streamcluster.cpp:342-345 | pgain acts if and only if some way of opening x lowers the total |
| ClusterGain.PotentialIs | streamcluster/src/ompss-2-cluster_streamcluster.cpp:294-342 | For any set of closed centers: new total = old total + price of x less the savings of the closed centers |
| Streamcluster.ClosingCount | streamcluster/src/ompss-2-cluster_streamcluster.cpp:333-373 | The updated number of centers, and when it is one too many |
| Streamcluster.CountTooHigh | streamcluster/src/ompss-2-cluster_streamcluster.cpp:333-373 | A solution of three points on a line for which it is one too many |
| Streamcluster.Clusters.Gather | streamcluster/src/ompss-2-cluster_streamcluster.cpp:268-330 | For every number of blocks and every order of the additions, the shared accumulators hold the sums over all points |
| Streamcluster.ColumnTotals | streamcluster/src/ompss-2-cluster_streamcluster.cpp:268-330 | The blocks' parts add up to the sums over all points |
| Streamcluster.AddAll | streamcluster/src/ompss-2-cluster_streamcluster.cpp:320-325 | Additions in any order give the same totals |
| Streamcluster.Clusters.LocalGain | streamcluster/src/ompss-2-cluster_streamcluster.cpp:286-328 | The job of one block hands in its switches and savings, and sets exactly its own switch flags |
| Streamcluster.Clusters.Decide | streamcluster/src/ompss-2-cluster_streamcluster.cpp:331-342 | The opening cost and the number of centers to close are those of the best choice |
| Streamcluster.Clusters.Commit | streamcluster/src/ompss-2-cluster_streamcluster.cpp:346-373 | All points whose center closes or that gain by switching go to x, the closed centers and no others are shut, x is open |
| Streamcluster.Clusters.PFL | streamcluster/src/ompss-2-cluster_streamcluster.cpp:392-419 | The solution afterwards is what the rounds make of the first one, each in the order that the draws make of the one before; the running cost stays the true total and never rises; every round but the last gained more than e times the cost, the last one did not; with e < 1 there is at least one |
| Streamcluster.Clusters.PFLTwice | streamcluster/src/ompss-2-cluster_streamcluster.cpp:604-616 | A rough search, and from where it ends a finer one exactly if the number of centers is within a tenth of the bounds or within two |
| Streamcluster.Clusters.Round | streamcluster/src/ompss-2-cluster_streamcluster.cpp:409-416 | A round takes the candidates in the shuffled order, from the first again after the last, and leaves what these turns make of the solution; it lowers the total by exactly the sum of their gains, which it reports |
| Streamcluster.LocalOptimum | streamcluster/src/ompss-2-cluster_streamcluster.cpp:402-419 | If the last round gained nothing and every candidate had its turn, no candidate opened, whatever centers were closed for it, would lower the total of the solution returned |
| ClusterSearch.NonePays | streamcluster/src/ompss-2-cluster_streamcluster.cpp:409-416 | A round without a gain leaves the solution as it was, and no candidate in it has a negative price |
| ClusterSearch.SqDistZeroIff | streamcluster/src/ompss-2-cluster_streamcluster.cpp:140-147 | The distance is 0 exactly for points that agree in every coordinate |
| ClusterSearch.SqDistOne | streamcluster/src/ompss-2-cluster_streamcluster.cpp:140-147 | And the square of the difference for points that differ in one |
| Streamcluster.RoundPays | streamcluster/src/ompss-2-cluster_streamcluster.cpp:403-417 | Every round but the last lowers the total by more than e times the fee, which bounds the number of rounds |
| Streamcluster.Clusters.IntShuffle | streamcluster/src/ompss-2-cluster_streamcluster.cpp:127-138 | The candidates come out in the order that the draws decide, one draw a place: place i gets the entry as far behind it as the draw, modulo the places left, says; they are the same candidates |
| Streamcluster.Clusters.PSpeedy | streamcluster/src/ompss-2-cluster_streamcluster.cpp:150-222 | The first solution: the first point is opened, and every other exactly if the chance drawn for it is less than the part of the fee that it costs at the centers opened before it; every point belongs to the nearest opened one, and the result is the total with the reported number of centers |
| ClusterDraws.PickedUnique | streamcluster/src/ompss-2-cluster_streamcluster.cpp:184-202 | The draws leave no choice of the opened points |
| ClusterDraws.NearestUnique | streamcluster/src/ompss-2-cluster_streamcluster.cpp:184-202 | Nor of what every point costs and where it belongs, the first of equally near centers being taken |
| Streamcluster.Clusters.OpenAt | streamcluster/src/ompss-2-cluster_streamcluster.cpp:184-202 | Opening a point of positive cost moves it and every point that gains to it, so that every point stays with the nearest opened one |
| Streamcluster.Clusters.MarkCenters | streamcluster/src/ompss-2-cluster_streamcluster.cpp:597-600 | Marking assigned points marks exactly the opened ones |
| Streamcluster.Clusters.SearchFee | streamcluster/src/ompss-2-cluster_streamcluster.cpp:603-640 | The search is a sequence of legs, one for each fee, each from the solution and the draw at which the one before ended: with too many centers the fee goes up halfway to the upper bound, with too few down, and the running cost, corrected by the change of the fee, is always the true total; it ends with a number of centers between kmin and kmax, and then the last round gained at most a thousandth of the total, or with bounds that have met, and then at most a tenth at the fee before; as long as it has not ended its fee is below 1000 times the upper bound halved once a round |
| ClusterFees.SearchUnique | streamcluster/src/ompss-2-cluster_streamcluster.cpp:392-419 | A local search is decided by its first solution and the draws: rounds, solution and cost |
| ClusterFees.LegsAgree | streamcluster/src/ompss-2-cluster_streamcluster.cpp:603-640 | And so is the whole search for the fee |
| Streamcluster.Clusters.FeeChanged | streamcluster/src/ompss-2-cluster_streamcluster.cpp:621-632 | Adding (new fee - old fee) * k turns the total for one fee into that for the other |
| Streamcluster.Clusters.PKMedian | streamcluster/src/ompss-2-cluster_streamcluster.cpp:495-655 | From the draws alone: the points shuffled, the tries for a first solution until it has kmin centers, the candidates, the nearest-center solution of the last try, and the legs of the search from it to the solution returned; its cost is the true total for the last fee, which is greater than 0, and the number of centers is between kmin and kmax, the last round over the candidates having gained at most a thousandth, or the bounds of the fee have met; with at most kmax points every point is its own, cost 0 is returned and the center count is left as it was |
| Streamcluster.Clusters.FirstSolution | streamcluster/src/ompss-2-cluster_streamcluster.cpp:570-590 | The tries: in a shuffled order at half the upper bound; with too few centers once more in that order, and then in new orders for half the fee each, up to the first with kmin centers; the solution is that of the last one |
| ClusterDraws.TriesAgree | streamcluster/src/ompss-2-cluster_streamcluster.cpp:570-590 | The draws decide the tries |
| Streamcluster.Clusters.Shuffle | streamcluster/src/ompss-2-cluster_streamcluster.cpp:114-124 | The points come out in the order that the draws decide, the last place not drawn for; they are the same points, each with its own weight, cost and assignment |
| ClusterDraws.EveryOrder | streamcluster/src/ompss-2-cluster_streamcluster.cpp:114-138 | Every order of the entries is what some draws lead to, whether the last place is drawn for or not |
| Streamcluster.Clusters.SelectFeasible | streamcluster/src/ompss-2-cluster_streamcluster.cpp:424-488 | All points if no more are wanted; otherwise as many as wanted, each the place, found by binary search, of the next draw times the total weight among the accumulated weights |
| Streamcluster.DrawnOnce | streamcluster/src/ompss-2-cluster_streamcluster.cpp:464-486 | A draw has exactly one place, and no point of weight 0 but the last is ever chosen |
| Streamcluster.Clusters.Hiz | streamcluster/src/ompss-2-cluster_streamcluster.cpp:526-545 | The upper bound of the fee is what all points cost if the first point is their only center, for every number of blocks |
| RebuildGrid.Grid.RebuildGrid | fluidanimate/src/serial.cpp:315-417 | Every list holds exactly the particles whose confined coordinates name its cell, in the order of the old lists: no particle is lost or duplicated; if no particle had left its cell nothing changes; all cells are accounted for again |
| RebuildGrid.Grid.DrainList | fluidanimate/src/serial.cpp:333-416 | Emptying source list i appends its particles to their destination lists and gives back every one of its cells but the head |
| RebuildGrid.Grid.Deposit | fluidanimate/src/serial.cpp:377-399 | A particle goes behind the others of its list; the list takes a cell from the pool exactly if the last one is full; no other list changes |
| RebuildGrid.Grid.NextCell | fluidanimate/src/serial.cpp:401-414 | Stepping on gives the emptied cell back unless it is a head, and the rest of the list is still intact |
| RebuildGrid.Grid.StartRebuild | fluidanimate/src/serial.cpp:317-331 | After the swap the destination lists are their heads alone and the source lists are untouched |
| RebuildGrid.Grid.ListsAreFull | fluidanimate/src/serial.cpp:315-417 | A list of np particles has max(1, ceil(np/16)) cells, linked from its head to NULL, particle j in slot j mod 16 of cell j div 16 |
| RebuildGrid.Grid.NoSharing | fluidanimate/src/serial.cpp:315-417 | No cell is in two places among lists and free cells, and free cells plus overflow cells are as many as the pool has allocated |
| RebuildGrid.Grid.Insert | fluidanimate/src/serial.cpp:134-205 | Loading puts a particle behind the others of its cell's list, with a new cell exactly when the last one is full |
| RebuildGrid.Grid.Load | fluidanimate/src/serial.cpp:139-205 | After loading, every list holds the particles of its cell in file order |
| RebuildGrid.Grid.constructor | fluidanimate/src/serial.cpp:72-133 | An empty grid: every list is its head, every cell of the pool is free |
| RebuildGrid.Grid.AdvanceParticles | fluidanimate/src/serial.cpp:933-961 | Every particle moves in place under its acceleration; lists and pool are unaffected |
| RebuildGrid.Grid.AdvanceFrame | fluidanimate/src/serial.cpp:965-976 | A frame sorts the particles, moves each under its acceleration and turns back those beyond a wall, and keeps the grid valid, so that any number of frames does; whatever was beyond a wall when it was sorted is inside it at the end, for every wall but the upper y wall, and a lower wall if there are two or more cells along its axis |
| RebuildGrid.Grid.ProcessCollisions2 | fluidanimate/src/serial.cpp:781-928 | The six passes over the perimeter cells leave every list as the reflections make it, in place |
| RebuildGrid.Grid.WallPass | fluidanimate/src/serial.cpp:784-806 | The two loops visit exactly the cells along the wall |
| RebuildGrid.Grid.ReflectList | fluidanimate/src/serial.cpp:790-803 | Walking a list reflects each of its particles that is beyond the wall and no other |
| RebuildGrid.Grid.ReflectTop | fluidanimate/src/serial.cpp:856-880 | Along the upper y wall the step to the next cell is inside the test: the walk gets only past those full cells whose last particle is beyond the wall |
| Walls.ReflectMirrors | fluidanimate/src/serial.cpp:794-800 | A reflected particle is as far inside as it was outside, with both velocities turned round along the axis of the wall and the others unchanged, and unmoved along the wall; a particle inside is left alone |
| Walls.WallsHold | fluidanimate/src/serial.cpp:781-928 | After the six passes no particle of a list along a wall is beyond it, for every wall but the upper y wall; for a lower wall if the cell does not touch the opposite wall too |
| Walls.TopWallHoldsIff | fluidanimate/src/serial.cpp:856-880 | The upper y wall holds for the list of a cell along it if and only if every particle beyond it comes after full cells only whose last particles are beyond it, too |
| Walls.TopLeaks | fluidanimate/src/serial.cpp:856-880 | A list for which it fails: sixteen particles inside and a seventeenth beyond stays as it is |
| Walls.IndexIsCellNo | fluidanimate/src/serial.cpp:378 | The cell that sorting puts a particle into is the one that the wall passes know by its three confined coordinates |
| Walls.BeyondIsOnWall | fluidanimate/src/serial.cpp:345-378 | A particle beyond a wall is in a cell that the pass along that wall visits |
| Walls.SortedIsTurned | fluidanimate/src/serial.cpp:781-928 | A particle that is beyond a wall when it is sorted is inside it behind the six passes, wherever it has moved to in between; not so for the upper y wall |
| CellGrid.ScatterKeepsAll | fluidanimate/src/serial.cpp:315-417 | Sorting into cells keeps the multiset of particles |
| CellGrid.ScatterPlaces | fluidanimate/src/serial.cpp:340-399 | A particle is in the list of cell d exactly if its index is d |
| CellGrid.SortedStays | fluidanimate/src/serial.cpp:315-417 | Sorting again when nothing has left its cell changes nothing, not even the order |
| CellGrid.MovedLaws | fluidanimate/src/serial.cpp:933-961 | The half-step velocity grows by acceleration times time step, the position by the new half-step velocity times time step, and the velocity is the mean of the old and the new half-step velocity, along every axis |
| CellGrid.CoordFinds | fluidanimate/src/serial.cpp:341-349 | A particle inside the box gets the slab it lies in, one outside the nearest slab |
| CellGrid.SameCellIff | fluidanimate/src/serial.cpp:378 | Two particles share a cell if and only if their three confined coordinates agree |
| CellGrid.IndexInGrid | fluidanimate/src/serial.cpp:345-378 | The index is within the grid |
| CellPool.CellPool.constructor | fluidanimate/src/cellpool.cpp:79-95 | The pool starts with max(1024, 4 * (particles/16)) free cells, the lowest address first |
| CellPool.CellPool.AllocBlock | fluidanimate/src/cellpool.cpp:40-74 | A block is one list of its cells in address order |
| CellPool.CellPool.GetCell | fluidanimate/src/cellpool.cpp:98-118 | Hands out the head of the free list; a dry pool doubles first; cells that are not free keep their links |
| CellPool.CellPool.ReturnCell | fluidanimate/src/cellpool.cpp:121-126 | The cell becomes the next one to be handed out |
| CellLists.AppendThere | fluidanimate/src/serial.cpp:382-399 | Linking a free cell behind a full last cell and writing its slot 0 extends the list by one particle and leaves every other list alone |
| CellLists.AppendHere | fluidanimate/src/serial.cpp:388-399 | Writing the next slot of a cell with room does the same without a cell |

## Left out

Weaker than the source or than the design, member by member:

- FpGrowth.Miner.Grow: counts and supports are unbounded integers, so 32-bit overflow of weights and of ITlen is not modelled; output goes to a list, so the case of a null output file is not covered; at most 2^31 - 1 items.
- FpArray.Transform: values that do not fit the cell type are cut off as in the source, but the arena memory behind the array is a plain array.
- RabinSeg.Segment: requires that the length given is the length of the data and fits a C int.
- DedupChunking.SerialPipeline: requires every piece plus one more read to fit a C int, as the code's `int n` does.
- DedupRace.RaceIsSerial: the pthreads writer only, over chunks that are there from the beginning; in the OmpSs and OpenMP version concurrent refinement can make a later chunk the original. Equal hashes mean equal chunks by assumption.
- DedupFormat.DecodeInverts: compression, decompression and SHA-1 are arbitrary functions; assumed are that decompression inverts compression and that the run's chunks have no hash collision.
- Reorder.Stage.Arrive: the array of chunk counts is a map, because a single doubling does not always make room for the arriving label.
- PipelineProtocol.EnqueueSafe: a thread that waits on a condition variable is a thread whose step is not enabled; which of several waiting threads a signal wakes is not modelled.
- PipelineProgress.StuckIsDone: for one lane, or queues as long as the input; with more lanes and shorter queues only the form of a stuck state is known, and for which inputs one is reached is not said. Fairness of the scheduler is not modelled: a run is finite because it can only do finitely much.
- PipelineDeadlock.QueuesDeadlock: two lanes of one thread each, and a reader that sends its pieces one by one.
- RingQueue.Queue.Enqueue: the section after the wait for room; the wait itself is a guard of the step.
- AtomicPtr.NeverStuck: progress of some thread when left alone, not fairness; a swap of a cell with itself is excluded, as the annealing loop excludes it.
- AtomicPtr.StepRefines: hardware memory ordering is not modelled; each atomic operation is one step.
- Netlist.Circuit.TotalRoutingCost: coordinates and costs are integers, not floating point.
- Annealer.MovesAtTemperature: one thread; the random generator is an arbitrary sequence of elements and chances in which no element comes up forever, and the Boltzmann factor an arbitrary function of delta and temperature. With several threads the deltas are computed while other threads move elements, and nothing relates them to the cost.
- Annealer.Run: one thread; with -1 steps the rounds are cut off after a given number, because nothing in the code bounds them.
- Barrier.NeverAllAsleep: some thread can go on; that it is scheduled is not modelled.
- Barrier.ComeToRest: while no further thread calls and none wakes up unasked.
- Streamcluster.Clusters.PGain: over the reals, so rounding and the narrowing from double to float are not modelled; blocks of the third phase run one after the other, which their disjointness allows.
- Streamcluster.Clusters.SearchFee: cut off after a given number of rounds, because nothing in the code bounds them; says whether it came to its end.
- Streamcluster.LocalOptimum: the last round of the program may have gained a little; how far from the best solution that leaves it is not said.
- Streamcluster.Clusters.PKMedian: not all points may weigh nothing or lie at the first one, for then the fee is 0 and is divided by; at least one candidate must be wanted, which kmin = 1 does not give (3 * kmin * log(kmin) is 0), for their number is divided by; the number wanted and the number of tries, both with logarithms, are parameters; the search and the retries with halved fee are cut off after a given number of rounds, because nothing in the code bounds them.
- Streamcluster.Clusters.SelectFeasible: over the reals; the numbers that lrand48 gives are any sequence of numbers below 2^31.
- RebuildGrid.Grid.Insert: the index of a particle is computed over the reals; the conversion of a quotient beyond the range of an int is not modelled.
- RebuildGrid.Grid.AdvanceFrame: the accelerations are given; computing forces and the repulsion near the walls, which only add to them, is not modelled. The far corner of the box is the near one plus the cells' sizes, over the reals.
- CellPool.CellPool.GetCell: the doubling of an int counter never overflows here, and a block is always available.
- MersenneTwister.MTRand.Load: what is drawn after loading words that no save writes is not said.
- FpFirst.FirstLevel: in one thread, row by row as the later levels are built; the tiling of the database by masks and the parallel building of the subtrees are not modelled.
- FpFirst.Mine: the items keep their names, where the source renumbers the frequent ones by falling count and prints the old names; each item of a transaction counts once; the recursion starts on all items in one thread.

Not modelled at all:

- freqmine: the thread-indexed set-up of the first level (database tiling, the parallel second scan, `FP_growth_first`), and reading the transactions character by character; the memory arenas and their marks; the branch statistics.
- dedup: file, socket and thread plumbing, SHA-1, zlib and bzip2 internals, the expansion of the hash table, statistics, the OmpSs and OpenMP pipelines.
- canneal: reading the file character by character, the bounded and floating point draws of the generator, seeding from an array or from the clock.
- fluidanimate: forces, the repulsion near the walls, the threaded and OpenMP versions of the grid, the check of the CFL condition, which only ends the program.
- streamcluster: the streaming outer loop over blocks of points, `contcenters`, `copycenters`.
- streamcluster's own copy of the barrier is the same protocol as fluidanimate's with tracing.
- blackscholes and everything about hooks, timing, graphics, command lines and statistics.
