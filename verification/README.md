# Verified models of the firmware's algorithms

The files beside this one model the parts of the firmware that compute something: the FAT12/16 file layer, the
generator of ARM page tables, the interrupt dispatcher, and the CoreMark kernels (list, state machine, matrix, CRC).
Each C function that changes data in place is a method on arrays or on objects with the same fields, with the same
branches and loops, and is proved against a specification over mathematical sequences; the properties that span
functions are lemmas about that specification.

`dafny verify dfyconfig.toml` checks everything.

## Modules

| modules | subject |
|---|---|
| Arithmetic, Words, Bitwise, WordBits | quotients and remainders; the fixed-width C integers and bitwise or and exclusive or on them; single bits |
| ListCells, ListCompare, ListRuns, ListSort, ListPasses, ListMergesort | linked cells, the comparators that rewrite data, and the merge sort |
| ListOps, ListSearch, ListVerdict, ListBench | find, reverse, remove and undo; the search loop; when a round restores its list and what it returns; the round itself |
| ListInit, ListBits, ListKnown | building the list, and its items bit by bit; the lists of the runs whose CRCs the program knows |
| Crc | the CRC as a loop, as a linear map, and as a polynomial remainder |
| FatEntries, FatBits, FatChains, FatTable, FatRuns | packed table entries, the table as one number, cluster chains, the operations on the table, runs of operations |
| FatDisk, FatContent, FatWrite, FatOpen, FatRead, FatRoundTrip | clusters on the card, handles, and the round trip through a file |
| DirNames | short and long names in directory entries |
| MmuFormat, MmuRules, MmuLayout, MmuTables, MmuGen | the descriptor format and the table walk (ARM Architecture Reference Manual, DDI 0100I, section B4.7), rules, placement of the tables, and the generator |
| StateTokens, StateCounts, StateBench, StateInit | the grammar of numbers, counting transitions, the scanner and its benchmark, the input block |
| Matrix, MatrixInit | matrix products in 32 bits, and the layout of the matrices |
| Interrupts | dispatching by status words |

## What the proofs found

- The claim that a round of the list benchmark leaves the list in its original state is false. An idx-sorted list comes
  back if and only if searches and sort by data have put cells with equal idx into their order (`ListVerdict.Verdict`,
  proved of `ListBench.CoreBenchList`): always with distinct indices. Without the sort by data, after failing searches,
  it comes back exactly if their number is even or the indices are distinct; with the sort, a list in which two cells
  with equal idx have decreasing results that can be read off from their words does not come back. core_list_init makes
  lists of both kinds: with 31 places, that of seed 2 does not come back from a round with seed3 = 1 and
  finder_idx = -1, and that of seed 6 from none with finder_idx > 0 (`ListInit.FreshRound`). The five runs whose CRCs
  the program knows have distinct indices (`ListKnown.KnownRunIsReady`).
- With seed3 <= 0 and a negative finder_idx, a round looks for a data byte that has not been set
  (`ListVerdict.LastTarget`). Otherwise the value of a round without a sort by data that restores its list depends on
  the list alone (`ListVerdict.ValueIsListValue`).
- The loops described as a CRC over the data content of the list take the data word of the head in every step
  (`ListBench.CrcCells`).
- GetClusterStatus takes the number of entries itself for an allocated cluster although no entry has that number;
  the operations on the table therefore require that links stay inside it (`FatChains.Closed`).
- GetFATFirstFreeCluster has no end but a free entry, and WriteFATFile takes a cluster as soon as its buffer is full:
  a file of n bytes takes n / ClusterSize + 1 clusters, one more than its bytes need if it ends with a cluster
  (`FatWrite.WriteFATFile`, `FatWrite.RoomIsClusters`).
- A FAULT rule whose physical address is no multiple of 4 carries no fault descriptor: the walk maps the address, or
  goes on at the physical address (`MmuTables.FaultRuleFaults`). A level-2 rule that reaches into the top page never
  ends (`MmuTables.PageLoopEnds`).
- `-87e+832`, one of the patterns named scientific, is invalid for the state machine (`StateInit.PatternForms`).
- N = 128 is the largest size for which no sum of products can leave 32 bits (`Matrix.DotBound`,
  `Matrix.TooManySummands`), and an unaligned block can be too small for its matrices
  (`MatrixInit.UnalignedBlockOverflows`). The size of the matrices is right exactly up to 8*23170^2 bytes
  (`MatrixInit.RightSizes`), and the seed shows in their first 17 elements only (`MatrixInit.ElementsBehindSeed`).
- DispatchFIQ leaves all but the lowest interrupt of each word pending (`Interrupts.FIQServesAll`).

## Model

| member | source | states |
|---|---|---|
| `ListMergesort.Mergesort` | benchmark/coremark_v1.0/core_list_join.c:426-496 | for cmp_complex, cmp_idx and every comparator that reads the two items and is a total preorder on them, and for every list of 1 to 2^31 cells: exactly the cells of the list are relinked into a NULL-terminated list that is sorted and stable; every info pointer stays, and with two or more cells the comparator has seen every cell |
| `ListMergesort.SortedByOrder` | benchmark/coremark_v1.0/core_list_join.c:426-496 | for a total preorder: of two cells of the result the first may stand before the second, and equivalent cells keep their order |
| `ListCompare.OrderIsRank` | benchmark/coremark_v1.0/core_list_join.c:60-60 | a total preorder of the items is the order of the number of items that must stand before |
| `ListMergesort.MergePass` | benchmark/coremark_v1.0/core_list_join.c:433-484 | one pass keeps all cells, halves the number of runs (rounded up), doubles their length, and terminates the output |
| `ListMergesort.SortTurn` | benchmark/coremark_v1.0/core_list_join.c:432-492 | a pass leaves one ordered run, or fewer runs of twice the length; the run length stays below 2^31 |
| `ListMergesort.PassLoop` | benchmark/coremark_v1.0/core_list_join.c:439-482 | the middle loop merges every two runs into one and counts the merges |
| `ListMergesort.FindRuns` | benchmark/coremark_v1.0/core_list_join.c:440-448 | p's run and q's run have min(insize, cells left) cells |
| `ListSort.MergeRuns` | benchmark/coremark_v1.0/core_list_join.c:451-481 | the inner loop merges two runs in place into an ordered run behind the output, whatever the comparator writes into the data |
| `ListSort.Choose` | benchmark/coremark_v1.0/core_list_join.c:457-469 | which of the two cells comes next, with the comparator called only when both runs have cells |
| `ListMergesort.OrderedIsSorted` | benchmark/coremark_v1.0/core_list_join.c:426-496 | the keys a comparator has returned during the sort are the present keys of the cells, so order in the runs is order by the data as it is now |
| `ListRuns.OrderedMove` | benchmark/coremark_v1.0/core_list_join.c:463-469 | taking the smaller head keeps the output and the rest of both runs in order, with ties decided by the input position |
| `ListPasses.PassStep` | benchmark/coremark_v1.0/core_list_join.c:439-482 | merging the first two runs keeps the other runs ordered, of length insize, and in input order |
| `ListPasses.RunSizes` | benchmark/coremark_v1.0/core_list_join.c:441-451 | the sizes that psize and qsize bound are those of the next two runs |
| `ListMergesort.RunsShorterThanList` | benchmark/coremark_v1.0/core_list_join.c:487-491 | while runs are left insize is below the length of the list |
| `ListCompare.CalcFunc` | benchmark/coremark_v1.0/core_list_join.c:63-95 | the cached result, bits 0-6 of the word, is returned unchanged if bit 7 is set; otherwise the result is that of the state benchmark for bits 0-2 of the word equal to 0 (data size and crcstate), of the matrix benchmark for 1 (crcmatrix), and else the word itself, is run through the CRC, and is cached in bits 0-6 with bit 7 set and the upper byte kept; crcstate and crcmatrix take a result only while they are 0 |
| `ListCompare.Compare` | benchmark/coremark_v1.0/core_list_join.c:101-118 | cmp_complex returns the difference of the two cached results; cmp_idx first rebuilds both low bytes if there is no res, and returns the difference of the indices; any other comparator returns what its order says and writes nothing |
| `ListOps.Reverse` | benchmark/coremark_v1.0/core_list_join.c:395-404 | the cells come in the opposite order, relinked in place |
| `ListOps.ReversedAt` | benchmark/coremark_v1.0/core_list_join.c:395-404 | element k of the reversed list is element n-1-k of the list |
| `ListOps.Find` | benchmark/coremark_v1.0/core_list_join.c:370-380 | the first cell that matches, or NULL if there is none |
| `ListOps.HitsBits` | benchmark/coremark_v1.0/core_list_join.c:370-380 | a cell matches a negative index by the low byte of its 16-bit word, and another one by its idx |
| `ListOps.Remove` | benchmark/coremark_v1.0/core_list_join.c:316-327 | the cell behind item leaves the list, which is otherwise as before; the two exchange their data |
| `ListOps.UndoRemove` | benchmark/coremark_v1.0/core_list_join.c:345-355 | undoes core_list_remove: the same cells, links and data as before |
| `ListOps.CacheNext` | benchmark/coremark_v1.0/core_list_join.c:156-162 | the cell behind the found one moves behind the head; a permutation of the list |
| `ListOps.MovedIsPermutation` | benchmark/coremark_v1.0/core_list_join.c:156-162 | moving a cell to the front loses no cell |
| `ListSearch.SearchLoop` | benchmark/coremark_v1.0/core_list_join.c:143-170 | the list after any number of searches, and the value they return, are those of the searches on the sequence of nodes: find, reverse, count, and move the cell behind the found one to the front |
| `ListSearch.SearchTurn` | benchmark/coremark_v1.0/core_list_join.c:143-166 | one search: the list becomes the reversed one, with one cell moved behind its head if something other than the first cell was found, and the counters change by what GainIsBits says |
| `ListSearch.GainIsBits` | benchmark/coremark_v1.0/core_list_join.c:148-155 | a search that finds a cell with the 16-bit word w adds 4 and, if bit 0 of w is set, bit 9 of w; a failing one adds -1 and bit 8 of the word that is second after the reversal |
| `ListSearch.SearchOnceAt` | benchmark/coremark_v1.0/core_list_join.c:147-162 | which cell stands at each place after a search: that of the opposite place, but with the cell behind the found one second, and those from there to the found one moved back by one place |
| `ListSearch.IdxCounts` | benchmark/coremark_v1.0/core_list_join.c:164-165 | a negative index stays, another one counts the searches |
| `ListSearch.FailingSearches` | benchmark/coremark_v1.0/core_list_join.c:143-151 | searches that all fail leave the list if their number is even, and its reversal if it is odd |
| `ListBench.RemoveAndUndo` | benchmark/coremark_v1.0/core_list_join.c:174-186 | between remove and undo the list lacks its second item and is CRCed from the first match on; afterwards it is as it was |
| `ListBench.CrcCells` | benchmark/coremark_v1.0/core_list_join.c:189-193 | one CRC step for every cell from finder on, always over the data word of the head |
| `ListBench.StableIsUnique` | benchmark/coremark_v1.0/core_list_join.c:187-188 | a stable sort of a list has only one result |
| `ListBench.SortedKeepsTies` | benchmark/coremark_v1.0/core_list_join.c:187-188 | an idx-sorted list is the stable sort of exactly those permutations that keep the order of cells with equal idx |
| `ListBench.TiesOfReversed` | benchmark/coremark_v1.0/core_list_join.c:146-188 | a reversal keeps the order of cells with equal idx if and only if there are none |
| `ListBench.DataSort` | benchmark/coremark_v1.0/core_list_join.c:170-172 | the sort by data is the stable sort by 7-bit results: that of the word itself where it is cached or has operation bits of 2 or more, and then in the low byte with bit 7 set; without a sort nothing changes |
| `ListBench.CoreBenchList` | benchmark/coremark_v1.0/core_list_join.c:132-199 | the final list is the stable idx sort of what the searches and the sort by data left, whose order is that of the recorded keys; an idx-sorted list comes back link for link with the same data if and only if cells with equal idx have been put into their order by keys and searches; the value is the CRC over the searches, the shortened list and the final list |
| `ListVerdict.ReturnsIsForeseen` | benchmark/coremark_v1.0/core_list_join.c:143-188 | if the results of the cells that share an idx can be read off from their words, that condition can be checked before the round |
| `ListVerdict.DecreasingTie` | benchmark/coremark_v1.0/core_list_join.c:171-188 | two cells with equal idx and known, decreasing results come out in the other order, whatever the searches do |
| `ListVerdict.SearchedInVain` | benchmark/coremark_v1.0/core_list_join.c:143-151 | failing searches leave the list or its reversal |
| `ListVerdict.ValueIsListValue` | benchmark/coremark_v1.0/core_list_join.c:132-199 | without a sort by data the value of a round that restores its list is a function of the list, unless a search looks for the data byte that has not been set |
| `ListVerdict.RoundValueIsStream` | benchmark/coremark_v1.0/core_list_join.c:175-194 | the value is the CRC of the data word of the head, once for each cell of the shortened list from the first match on (or of all but the first, without a match), and then of the first data word of the final list, once for each of its cells but the first |
| `ListBench.Round` | benchmark/coremark_v1.0/core_list_join.c:132-199 | a round that starts from a sorted list with distinct idx and rebuilt data ends with every next, info, idx and data16 as before; without a sort by data its value is a function of the list |
| `ListBench.Iterate` | benchmark/coremark_v1.0/core_main.c:38-56 | so does every round of iterate(), for any number of iterations, and all rounds with index -1 and at least one search have the same value, computed from the list alone; res->crc ends as the CRC of the last iteration and crclist as that of the first |
| `ListInit.CoreListInit` | benchmark/coremark_v1.0/core_list_join.c:213-266 | core_list_init uses the first size-1 header and data slots, each once, with the items of head (0, 0x8080) and tail (0x7fff, 0xffff), and with item k - 2 and the index of its place from the end in slot k; it returns the stable idx sort of the inserted list, with memblock[0] first and the 0x7fff cell last |
| `ListInit.RegionsFit` | benchmark/coremark_v1.0/core_list_join.c:214-219 | the header and data regions end inside the block, with pointers of four and of eight bytes, and with three more places they would not fit |
| `ListBits.ItemDataBits` | benchmark/coremark_v1.0/core_list_join.c:237-240 | both bytes of item i are the same: bits 0 to 2 of i, then bits 0 to 3 of seed and i combined by exclusive or |
| `ListBits.MixedIdxBits` | benchmark/coremark_v1.0/core_list_join.c:250-251 | the 14 bits of a mixed index: those of i and the seed combined by exclusive or, and bits 8 to 10 combined by or with bits 0 to 2 of i + 1 |
| `ListInit.InsertNew` | benchmark/coremark_v1.0/core_list_join.c:284-301 | a new cell takes the next slots and is linked behind the head, unless the slots are used up |
| `ListInit.FillSlot` | benchmark/coremark_v1.0/core_list_join.c:296-299 | the new cell points to the data slot of its own number, which gets the given idx and data |
| `ListBench.FinalSort` | benchmark/coremark_v1.0/core_list_join.c:187-193 | the sort by idx with no res gives back every data word whose bytes agreed, and keeps every data item in its cell |
| `ListInit.FirstStaysFirst` | benchmark/coremark_v1.0/core_list_join.c:255-255 | the head stays first because the sort is stable, although other cells may have idx 0 too |
| `ListInit.SharedIdx` | benchmark/coremark_v1.0/core_list_join.c:241-254 | the list of core_list_init for seed 2 and 31 places has two cells with the same idx |
| `ListInit.ZeroIsMissing` | benchmark/coremark_v1.0/core_list_join.c:237-241 | unless the seed is a multiple of 8, no data byte is 0, so the first search by data byte fails |
| `ListInit.DecreasingFresh` | benchmark/coremark_v1.0/core_list_join.c:234-254 | the list of core_list_init for seed 6 and 31 places has two cells with the same idx whose data decrease |
| `ListInit.FreshRound` | benchmark/coremark_v1.0/core_list_join.c:132-266 | a round on a list of core_list_init brings it back exactly under the conditions above: with seed3 = 1, finder_idx < 0 and a seed that is no multiple of 8, exactly if the indices are distinct, so not for seed 2 and 31 places; with finder_idx > 0 not for seed 6 and 31 places, whatever is searched for |
| `ListKnown.MixedDiffer` | benchmark/coremark_v1.0/core_list_join.c:246-250 | mixed items have different indices while their numbers fit into a byte |
| `ListKnown.DistinctIffApart` | benchmark/coremark_v1.0/core_list_join.c:213-266 | for 5 to 258 places the indices of core_list_init are distinct if and only if no mixed item gets an index below the first fifth, or 0 |
| `ListKnown.KnownRunIsReady` | benchmark/coremark_v1.0/core_main.c:258-279 | for the five pairs of seed and size whose CRCs the program knows the indices are distinct, so every round of iterate() restores the list |
| `ListInit.InitIsRoundReady` | benchmark/coremark_v1.0/core_list_join.c:213-266 | the list of core_list_init meets all that a round asks for (ListBench.Round) except perhaps for distinct indices |
| `Crc.Crcu8` | benchmark/coremark_v1.0/core_util.c:144-167 | the bit-serial loop with its carry computes the serial CRC of the byte |
| `Crc.SerialIsRemainder` | benchmark/coremark_v1.0/core_util.c:144-167 | the CRC is the reflected remainder of the data by x^16+x^15+x^2+1 |
| `Crc.SerialLinear` | benchmark/coremark_v1.0/core_util.c:144-167 | the CRC is linear for exclusive or, in data and crc together |
| `Crc.SerialSplit` | benchmark/coremark_v1.0/core_util.c:168-172 | feeding m+n bits is feeding m bits and then n bits |
| `Crc.WordAtOnce` | benchmark/coremark_v1.0/core_util.c:168-172 | crcu16 over two bytes is one pass over 16 bits |
| `Crc.CrcWordIs` | benchmark/coremark_v1.0/core_util.c:179-181 | the CRC of a data word in two bytes is that of the 16-bit value 0x100 * hi + lo |
| `Crc.CrcOfHalves` | benchmark/coremark_v1.0/core_util.c:173-177 | crcu32 takes the low half first |
| `Crc.WordLinear` | benchmark/coremark_v1.0/core_util.c:168-172 | crcu16 is linear for exclusive or, in value and crc together |
| `Crc.WordBijective` | benchmark/coremark_v1.0/core_util.c:168-172 | crcu16 can be undone: it is bijective in crc |
| `Crc.WordInjective` | benchmark/coremark_v1.0/core_util.c:168-172 | for one start crc, different values give different results |
| `Crc.StreamInjective` | benchmark/coremark_v1.0/core_util.c:168-181 | a whole stream maps different start values to different results |
| `Crc.OneErrorIsDetected` | benchmark/coremark_v1.0/core_util.c:168-181 | two streams of 16-bit values of any length that differ in exactly one value end with different CRCs |
| `FatEntries.EntryFits` | middleware/fat.c:391-410 | GetFATMaxClusterNumber counts exactly the entries that lie inside the table |
| `FatEntries.StoreEntry` | middleware/fat.c:440-496 | storing entry n changes entry n (mod 4096 for FAT12) and no other, not even the neighbour that shares a byte |
| `FatEntries.StoreEntries` | middleware/fat.c:470-496 | on the sequence of entries a store is the update of one element |
| `FatTable.FATStruct.GetFATNextCluster` | middleware/fat.c:440-468 | with the table as one little-endian number X: X / 2^(12n) mod 2^12 for FAT12 and X / 2^(16n) mod 2^16 for FAT16 |
| `FatTable.FATStruct.SetFATNextCluster` | middleware/fat.c:470-496 | writes the entry byte by byte in place: of that number exactly the bits of entry n are replaced by the value, and on the sequence of entries one element changes |
| `FatBits.EntryIsBits` | middleware/fat.c:440-468 | every entry inside the table is its 12 or 16 bits of the table read as a little-endian number |
| `FatBits.StoreIsBits` | middleware/fat.c:470-496 | storing an entry replaces these bits of the number and no others |
| `FatTable.FATStruct.FreeFATCluster` | middleware/fat.c:498-525 | terminates on every table whose links stay inside it, cyclic or not; its result and the new table are those of the link-by-link walk |
| `FatTable.FATStruct.GetFATFirstFreeCluster` | middleware/fat.c:527-538 | takes the least free cluster from 2 on, marks it final and changes nothing else |
| `FatChains.FreedChain` | middleware/fat.c:498-525 | on a chain the walk returns TRUE, zeroes exactly the clusters of the chain and leaves every other entry |
| `FatChains.FreedBroken` | middleware/fat.c:498-525 | a path that ends in an unused, reserved or defective entry: all clusters before the last are zeroed, and the result is TRUE only for an unused one |
| `FatChains.StatusMeaning` | middleware/fat.c:412-438 | final are the eight highest values, defective is the one below them, unused is 0, allocated are 2 to the number of entries |
| `FatChains.ChainIsAcyclic` | middleware/fat.c:498-525 | a chain that ends in a final marker visits no cluster twice |
| `FatChains.NonZeroDrops` | middleware/fat.c:498-525 | the measure of the loop: zeroing an entry lowers the number of non-zero entries |
| `FatRuns.StepKeeps` | middleware/fat.c:498-538 | create, append, truncate and delete keep every chain valid, chains disjoint, and the set of free and used clusters |
| `FatRuns.RunKeeps` | middleware/fat.c:498-538 | so does every run of such operations, and the number of free clusters plus clusters in chains is constant |
| `FatRuns.ReplacesIsGood` | middleware/fat.c:498-538 | replacing one file's chain by its own and free clusters keeps all other files apart from it |
| `FatDisk.ClusterWritten` | middleware/fat.c:361-367 | writing one cluster changes the bytes of that cluster and of no other |
| `FatDisk.FileSys.ReadCluster` | middleware/fat.c:361-367 | the bytes read for cluster c are those of the card from sector FirstClusterSector + (c - 2) * SectorPerCluster on |
| `FatDisk.FileSys.WriteCluster` | middleware/fat.c:361-367 | the same bytes of the card are replaced, and no other: nothing in front of the data area, such as the root directory, nor behind it changes |
| `FatDisk.FileSys.OnCard` | middleware/fat.c:361-367 | each cluster of the sequence that files are made of is this piece of the card |
| `FatWrite.LinkNewCluster` | middleware/fat.c:1765-1766 | a full handle gets the first free cluster linked behind its last one |
| `FatWrite.Flush` | middleware/fat.c:1760-1772 | writing the full buffer and taking a new cluster keeps all bytes written so far, and the other files |
| `FatWrite.WriteTurn` | middleware/fat.c:1749-1773 | one turn of WriteFATFile appends its piece |
| `FatWrite.WriteFATFile` | middleware/fat.c:1745-1775 | all of the buffer is appended to what has been written through the handle, taking exactly (ClusterBufOffset + bytes) / ClusterSize clusters; other files keep their chains and bytes, no cluster is lost, and no byte outside the data area of the card changes |
| `FatWrite.RoomIsClusters` | middleware/fat.c:1749-1773 | the room asked for is exactly that number of free clusters |
| `FatWrite.AppendsTake` | middleware/fat.c:1760-1772 | appending k clusters takes k free clusters, so less room is not enough |
| `FatWrite.CloseFATFile` | middleware/fat.c:1653-1694 | closing saves the buffered piece and the length: the file holds exactly what was written |
| `FatWrite.AppendTakesOne` | middleware/fat.c:527-538 | appending takes exactly one cluster from the free space |
| `FatOpen.DeleteFATFile` | middleware/fat.c:1441-1447 | the clusters of the file become free, and other files are not concerned |
| `FatOpen.CreateFATEmptyFile` | middleware/fat.c:1461-1522 | a new file has one cluster, length 0 |
| `FatOpen.OpenFATEmptyFile` | middleware/fat.c:1549-1621 | a new or truncated file gets a first cluster and a handle that is ready for writing |
| `FatRead.OpenFATFile` | middleware/fat.c:1625-1651 | a handle at position 0 of the saved bytes |
| `FatRead.ReadTurn` | middleware/fat.c:1703-1739 | one turn of ReadFATFile delivers the next piece, or stops at the end of the file |
| `FatRead.ReadFATFile` | middleware/fat.c:1698-1741 | delivers the next bytes of the file and the number of bytes that are missing because the file ends |
| `FatRead.SeekFATFile` | middleware/fat.c:1779-1814 | ends at the wanted position, or for one behind the end at (p - 1) mod length + 1, with the fields of a handle that has read up to there, whatever was done before |
| `FatRead.SeekIsRead` | middleware/fat.c:1779-1814 | seeking to p and reading p bytes from a fresh handle give the same Pos, ClusterBufOffset, CurrCluster and (for p > 0) buffer |
| `FatRead.CanonicalIsUnique` | middleware/fat.c:1779-1814 | at a canonical position the fields are a function of the position |
| `FatContent.SeekPosMeaning` | middleware/fat.c:1794-1812 | clusters fetched and offset add up to the position |
| `FatRoundTrip.RoundTrip` | middleware/fat.c:1549-1775 | any sequence of writes to a new or truncated file, close, open, and any sequence of reads returns exactly the concatenation of what was written, for every length, if there are enough free clusters; no byte outside the data area of the card changes |
| `FatRoundTrip.WriteAll` | middleware/fat.c:1745-1775 | any number of WriteFATFile calls appends all pieces |
| `FatRoundTrip.ReadAll` | middleware/fat.c:1698-1741 | any number of ReadFATFile calls delivers the file from the start on |
| `FatRoundTrip.OpenedFree` | middleware/fat.c:1549-1621 | opening an old file for writing frees its clusters before it takes one |
| `DirNames.SetDirEntryFileName` | middleware/fat.c:797-848 | stores the padded name in bytes 0 to 7 and the padded extension in bytes 8 to 10 of the first entry whose attribute is not 15, and changes no other byte |
| `DirNames.FieldsOfDotted` | middleware/fat.c:797-848 | for a dotted name with at most 8 bytes before its first dot: these bytes and the first three behind the dot, filled up with spaces |
| `DirNames.FieldsOfLong` | middleware/fat.c:797-848 | for a name without a dot among its first 8 bytes: the first 8 bytes, and the three that follow the ninth, which is dropped |
| `DirNames.GetDirEntryFileName` | middleware/fat.c:768-795 | the base up to the first space, and behind a dot the extension up to the first space |
| `DirNames.ShortNameRoundTrip` | middleware/fat.c:768-848 | a name comes back if and only if it is a short name: at most 8 bytes, optionally a dot and 1 to 3 bytes, without spaces, or a single dot |
| `DirNames.SetAndGetFileName` | middleware/fat.c:768-848 | set and then get returns the name exactly for short names; no other byte of the directory changes |
| `DirNames.SetDirEntryLongFileName` | middleware/fat.c:957-988 | stores the name and its terminator, as far as there is room, at its 13 places per entry, and changes no other byte |
| `DirNames.CharPlaces` | middleware/fat.c:957-988 | the 13 places of an entry are every second byte from 1, 14 and 28 on, for 5, 6 and 2 characters; the entry in front of the short one comes first |
| `DirNames.GetDirEntryLongFileName` | middleware/fat.c:920-955 | reads the stored characters up to a terminator or the last place; without long entries it returns the short name |
| `DirNames.SetAndGetLongFileName` | middleware/fat.c:920-988 | over k long entries a name comes back if and only if it has at most 13k bytes; every attribute stays |
| `DirNames.AttribsKept` | middleware/fat.c:957-988 | no character stands in the place of an attribute, so the number of long entries stays the same |
| `Bitwise.OrIsSum` | cpu/mmugen.c:355-399 | or of an aligned address and smaller fields is their sum |
| `MmuRules.DescriptorDecoded` | cpu/mmugen.c:422-428 | the second level of a table walk recovers address, access bits of the quarter, domain and cb bits from the word that the fields were packed into |
| `MmuRules.DescriptorFields` | cpu/mmugen.c:422-428 | the bits of a second-level descriptor: the page address, the access fields 3 to 0 from bit 10 down to bit 4, cb in bits 2 and 3, and the kind 1, 2 or 3; a tiny page has access field 0 only |
| `MmuRules.SectionFieldsAdd` | cpu/mmugen.c:359-359 | the fields of a section descriptor do not overlap |
| `MmuRules.PageAddress` | cpu/mmugen.c:457-516 | aligned pages stay aligned when the physical address wraps around |
| `MmuRules.ALIGN` | cpu/mmugen.c:651-672 | the next multiple of 4K |
| `MmuLayout.WalkTable` | cpu/mmugen.c:385-404 | a walk through a coarse or fine level-1 entry goes on at the slot of its address |
| `MmuLayout.WalkSection` | cpu/mmugen.c:355-378 | a walk through a section entry ends where the entry says |
| `MmuTables.Level1Meaning` | cpu/mmugen.c:340-378 | every address of a section rule is mapped to p_base + (va - v_base) with its access, domain and cb bits; every address of a fault rule faults |
| `MmuTables.FaultRuleFaults` | cpu/mmugen.c:361-369 | a fault rule writes a fault descriptor if and only if the physical address it carries is a multiple of 4; if that is 2 mod 4 the address is mapped, and if it is odd the walk goes on at the masked physical address and faults if and only if it finds a fault descriptor there |
| `MmuTables.BeginsAtSlot` | cpu/mmugen.c:436-455 | the padding puts a level-2 rule exactly at the address that level 1 stored |
| `MmuTables.EndsAtCursor` | cpu/mmugen.c:459-519 | behind a rule the level-2 size is again where the next table begins, and level2_previous_region is right |
| `MmuTables.SlotsInARow` | cpu/mmugen.c:459-517 | the entries of neighbouring tables of one kind follow one another |
| `MmuTables.FilledBy` | cpu/mmugen.c:459-517 | writing the entries of a rule from its slot on puts the right descriptor into the slot of every address it covers |
| `MmuTables.Level2Meaning` | cpu/mmugen.c:412-521 | every address of a page rule is mapped to p_base + (va - v_base) with its access and cb bits and the domain of its level-1 rule |
| `MmuTables.RoomForRule` | cpu/mmugen.c:385-404 | level 2 never needs more memory than level 1 has reckoned with |
| `MmuTables.PageLoopEnds` | cpu/mmugen.c:459-517 | in 32 bits the loop over the pages of a rule ends if and only if the rule does not reach into the top page |
| `MmuGen.Generator.CheckIsFinePage` | cpu/mmugen.c:633-646 | tells whether an address lies in one of the ranges of fine pages |
| `MmuGen.Generator.ParseRule` | cpu/mmugen.c:204-216 | a rule for fine pages is remembered, so that its megabyte is recognised |
| `MmuGen.Generator.WriteLevel1` | cpu/mmugen.c:340-407 | -1 and no change for a rule out of order; otherwise the entries of the rule behind those before, with tables placed one behind the other and fine ones aligned to 4K |
| `MmuGen.Generator.WriteLevel2` | cpu/mmugen.c:412-521 | pads, writes the entries of the rule into their slots, and leaves all words written before |
| `MmuGen.Generator.WriteTableEntries` | cpu/mmugen.c:327-336 | the level decides which table is written; without a level the result is -1 |
| `MmuGen.Mmugen` | cpu/mmugen.c:125-150 | mmugen succeeds if and only if the level-1 rules are in order, and then a table walk agrees with every rule of both levels |
| `MmuGen.SectionRuleHolds` | cpu/mmugen.c:340-378 | after mmugen every address from v_base up to v_end of a section rule is mapped to (p_base + va - v_base) mod 2^32 with access field 0, and every one of a fault rule faults |
| `MmuGen.PageRuleHolds` | cpu/mmugen.c:412-521 | after mmugen every address from v_base up to v_end of a page rule is mapped to (p_base + va - v_base) mod 2^32, with the access field of its quarter of the page and the domain of its megabyte |
| `StateTokens.Classify` | benchmark/coremark_v1.0/core_state.c:184-277 | each state but INVALID is reached exactly by the texts of its form: INT is [+-]?d+, FLOAT is [+-]?d*.d*, SCIENTIFIC is FLOAT[eE][+-]d+ |
| `StateTokens.InvalidMeansHopeless` | benchmark/coremark_v1.0/core_state.c:184-277 | INVALID is reached exactly by texts with which no number begins |
| `StateCounts.TokenMeaning` | benchmark/coremark_v1.0/core_state.c:184-277 | the token consumed ends at the first terminator, comma or hopeless symbol; its end state tells its form; at least one byte is consumed |
| `StateCounts.TokenIsCounted` | benchmark/coremark_v1.0/core_state.c:194-273 | from any position of a token on, the events the code counts for a state are the changes of the machine out of it, with the exceptions for SCIENTIFIC and START |
| `StateCounts.BumpAllIs` | benchmark/coremark_v1.0/core_state.c:194-273 | counting events one by one adds their number to each counter, modulo 2^32 |
| `StateTokens.Symbols` | benchmark/coremark_v1.0/core_state.c:168-199 | the symbols the machine tells apart are the characters in the code |
| `StateBench.Step` | benchmark/coremark_v1.0/core_state.c:194-273 | the branches follow the state machine, and count each change of state where the code counts it |
| `StateBench.CoreStateTransition` | benchmark/coremark_v1.0/core_state.c:184-277 | for the token [p, e) the state is that of the machine after it, and the counter of each state grows by the number of symbols with which the machine left that state; leaving SCIENTIFIC counts for INVALID, and going from START to INVALID counts for both |
| `StateBench.Scan` | benchmark/coremark_v1.0/core_state.c:59-67 | splits the whole text into tokens; final_counts grow by the number of tokens that end in each state, track_counts by the transitions of all tokens |
| `StateBench.Corrupt` | benchmark/coremark_v1.0/core_state.c:69-74 | every step-th byte that is not a comma is combined with the seed |
| `StateBench.BlockRestored` | benchmark/coremark_v1.0/core_state.c:69-92 | the two passes restore the block if and only if every visited byte is a comma, or does not become one and both seeds are equal |
| `StateBench.OneTerminatorStays` | benchmark/coremark_v1.0/core_state.c:69-74 | with a step of at least 2, one of two final terminators survives the corruption, so the second scan stays in the block |
| `StateBench.CoreBenchState` | benchmark/coremark_v1.0/core_state.c:43-99 | both scans stay inside the block; the result is the CRC over the counters of both scans, and the block is twice corrupted |
| `StateBench.BenchResultMeans` | benchmark/coremark_v1.0/core_state.c:43-99 | the result in terms of the tokens of the block and of the corrupted block: for each state in order, the number of tokens that end in it and the transitions counted for it |
| `StateInit.CoreInitState` | benchmark/coremark_v1.0/core_state.c:116-166 | fills the block with the patterns that fit, each with a comma, and with at least two terminators if there is room for them |
| `StateInit.PatternForms` | benchmark/coremark_v1.0/core_state.c:102-105 | the patterns have the forms of their tables, except -87e+832, which is no number for the state machine |
| `StateInit.PatternText` | benchmark/coremark_v1.0/core_state.c:133-153 | bits 0 to 2 of the seed choose the kind of the pattern, bits 3 and 4 the text in its table |
| `StateInit.NumbersAreJoined` | benchmark/coremark_v1.0/core_state.c:125-157 | the block holds the patterns of the following seeds, each with a comma, as many as stay below the limit |
| `Matrix.MatrixMulConst` | benchmark/coremark_v1.0/core_matrix.c:240-247 | the exact products with a constant |
| `Matrix.MatrixAddConst` | benchmark/coremark_v1.0/core_matrix.c:252-259 | adds a constant in 16 bits |
| `Matrix.MatrixMulVect` | benchmark/coremark_v1.0/core_matrix.c:265-273 | the exact products of the rows with the first row of B; other elements of C stay |
| `Matrix.MatrixMulMatrix` | benchmark/coremark_v1.0/core_matrix.c:279-308 | the exact matrix product, or the exact sums of the extracted bits |
| `Matrix.ProductIsSum` | benchmark/coremark_v1.0/core_matrix.c:279-308 | element (i, j) is the sum of A[i*N+k] * B[k*N+j] over k, or of what is extracted from these products |
| `Matrix.VectorIsSum` | benchmark/coremark_v1.0/core_matrix.c:265-273 | element i is the sum of A[i*N+k] * B[k] over k |
| `Matrix.TermIs` | benchmark/coremark_v1.0/core_matrix.c:303-304 | what is extracted from a product: bits 2 to 5 times bits 5 to 11 |
| `Matrix.DotBound` | benchmark/coremark_v1.0/core_matrix.c:279-308 | no partial sum of up to 128 products leaves 32 bits |
| `Matrix.TooManySummands` | benchmark/coremark_v1.0/core_matrix.c:279-308 | in matrices of 129 or more rows an element of the product can fall below -2^31 although every element of A is from 0 to 510 |
| `Matrix.ShiftedBack` | benchmark/coremark_v1.0/core_matrix.c:121-146 | adding val and then -val restores the matrix, whatever wraps around |
| `Matrix.ShiftedIs` | benchmark/coremark_v1.0/core_matrix.c:252-259 | every element grows by val modulo 2^16 |
| `Matrix.MatrixTest` | benchmark/coremark_v1.0/core_matrix.c:117-148 | leaves A and B as they were, computes the four exact results, and returns the CRC over what matrix_sum makes of them, in this order and with the clip value val - 0x1000 |
| `MatrixInit.ChooseN` | benchmark/coremark_v1.0/core_matrix.c:174-178 | the N with 8N^2 < blksize <= 8(N+1)^2, for every block of 1 to 8*23170^2 bytes; 2^32-1 for an empty one |
| `MatrixInit.RightSizes` | benchmark/coremark_v1.0/core_matrix.c:174-178 | where the loop ends it ends with that N if and only if the block has at most 8*23170^2 bytes: for a larger one 8*23171^2 has wrapped around in 32 bits |
| `MatrixInit.LoopEnds` | benchmark/coremark_v1.0/core_matrix.c:174-178 | the loop ends if and only if the block has at most 2^32-56 bytes |
| `MatrixInit.MostBytes` | benchmark/coremark_v1.0/core_matrix.c:174-178 | because a square leaves only 0, 1, 4, 9, 16, 17 or 25 modulo 32, 8*i*i never goes beyond 2^32-56 in 32 bits |
| `MatrixInit.LayOut` | benchmark/coremark_v1.0/core_matrix.c:174-197 | A, B and C lie behind one another, and inside the block if it is aligned, for every block of 1 to 8*23170^2 bytes |
| `MatrixInit.SizeIsUnique` | benchmark/coremark_v1.0/core_matrix.c:174-178 | there is only one such N |
| `MatrixInit.CoreInitMatrix` | benchmark/coremark_v1.0/core_matrix.c:165-204 | for the same blocks: every element of A and B is the one the seed gives, A from 0 to 255, with no intermediate value outside 32 bits for any seed |
| `MatrixInit.SeedFades` | benchmark/coremark_v1.0/core_matrix.c:182-193 | order * seed stays in 32 bits because nothing is left of the seed after 18 elements |
| `MatrixInit.ElementsAre` | benchmark/coremark_v1.0/core_matrix.c:182-193 | element k of B is (k+1)! * seed + k + 1 in 16 bits, that of A (k+1)! * seed + 2 * (k+1) in 8 bits |
| `MatrixInit.ElementsBehindSeed` | benchmark/coremark_v1.0/core_matrix.c:182-193 | from the 18th on, the elements of A and B do not depend on the seed |
| `MatrixInit.AlignedBlockFits` | benchmark/coremark_v1.0/core_matrix.c:179-197 | the matrices lie inside the block if and only if the bytes skipped for alignment are left over, which is so for every 4-byte-aligned block |
| `MatrixInit.UnalignedBlockOverflows` | benchmark/coremark_v1.0/core_matrix.c:179-197 | in an unaligned block C can stick out |
| `Interrupts.FindLowest` | board/ftintc.c:191-219 | the five shifting steps bring the lowest set bit to bit 0 and count its number |
| `Interrupts.SlotsAreBits` | board/ftintc.c:188-234 | there is a slot for exactly each set bit |
| `Interrupts.PendingMeaning` | board/ftintc.c:163-288 | the pending interrupts are the set bits of the two words, 0 to 63, in strictly ascending order, each once |
| `Interrupts.ServeAll` | board/ftintc.c:188-234 | one word: every set bit is served once, lowest first |
| `Interrupts.DispatchIRQ` | board/ftintc.c:163-288 | one event for each set bit of the two words and no other, in ascending order; each runs the handler of its interrupt with the argument installed for it, if there is one |
| `Interrupts.DispatchFIQ` | board/ftintc.c:396-497 | exactly one event for each word that is not zero: that of the set bit with no set bit below it, k for the first word and 32 + k for the second, with the handler and argument installed for it |
| `Interrupts.LowestIsFirst` | board/ftintc.c:396-497 | the first of the ascending slots of a word is its lowest set bit |
| `Interrupts.FIQServesAll` | board/ftintc.c:396-497 | DispatchFIQ serves all pending interrupts if and only if no word has more than one bit set |

## Left out

- Directory look-up, path splitting and the sectors of directories and of the FAT itself: a file is its directory
  entry (start cluster and length) and its chain; WriteFAT and the directory writes succeed and are not modelled.
- Failing sector drivers and failing malloc: ReadSector and WriteSector always succeed.
- FAT32 and unsupported FAT types, mounting, renaming, directories as files, and the date and time fields.
- FatTable.FATStruct.GetFATFirstFreeCluster: requires a free entry, because the code runs past the table without one.
- FatWrite.WriteFATFile: requires room for all bytes, because the code has no check for a full volume; a handle that
  has been read or moved is not written through.
- FatRead.SeekFATFile: on an empty file only position 0, because the code does not come to an end otherwise.
- FatRoundTrip.RoundTrip: needs a length that together with one cluster stays below 2^32, where Pos wraps around.
- ListCompare.CalcFunc: core_bench_state and core_bench_matrix are arbitrary functions of dtype and the running crc;
  that the first restores its block, and so is one, is StateBench.BlockRestored.
- ListMergesort.Mergesort: at most 2^31 cells, because insize is a signed 32-bit number; of the comparators that write
  data, only cmp_complex and cmp_idx, and the others take nothing but the data words and indices of the two items.
- ListBench.CoreBenchList: for cells with equal idx whose words need core_bench_state or core_bench_matrix, the exact
  condition is about the results recorded in the sort, because these functions are arbitrary here.
- ListBench.Iterate: the value of the rounds with index 1, which depends on those functions, is stated for each round
  (ListVerdict.Yields) but not compared between iterations.
- ListInit.CoreListInit: needs size/5 <= 0x7fff and room for at least three cells; memory is the sequence of its slots,
  and that the two regions end inside the block is ListInit.RegionsFit.
- The list, state and matrix CRCs as numbers, the timing of the benchmark, and its reports.
- MmuGen.Generator.ParseRule: starts from complete rules; splitting the text into words and the state the parser keeps
  from rule to rule are not modelled, nor is a second call of mmugen, which does not reset table_entry.
- MmuGen.Mmugen: the rules of each level are aligned, level 2 fills the tables in order, tiny pages are in fine tables,
  there are at most 128 rules for fine pages, and the memory ends below 2^32; the value of padding words is arbitrary.
- cpu/armv7/mmugen.c is the same text as cpu/mmugen.c and is modelled once.
- MatrixInit.CoreInitMatrix: blocks of 1 to 8*23170^2 bytes, for which the loop finds the right size; the three matrices
  are arrays of their own beside their addresses.
- Matrix.MatrixTest: matrix_sum is an arbitrary function, so its wrap-around is not modelled.
- Interrupts.DispatchIRQ: the second status word is whatever is read after the handlers of the first have run; the
  bodies of handlers, the GIC registers and the messages are left out, and no bit beyond the vector may be set.
- DirNames.SetDirEntryLongFileName: names are bytes without terminator inside; the entry numbers and checksums of long
  entries are not written by this code and not modelled.
- Register access, DMA, PCIe, SPI, LCD, timers, the console and the other benchmarks: single writes, tables and output.
