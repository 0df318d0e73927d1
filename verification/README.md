# A verified model of rlsf

rlsf is a two-level segregated fit allocator. It serves allocations from pools of memory that it is given,
keeps the free blocks of all pools in segregated lists indexed by two levels of bitmaps, and does all of its
bookkeeping inside the pools. This project models the allocator (`Tlsf`), the size-class and bit arithmetic
below it, the pool manager above it (`FlexTlsf`), and the reference allocator of the test suite
(`ShadowAllocator`), and proves what they promise.

`dafny verify dfyconfig.toml` checks everything.

## How the model is built

Three layers describe one heap.

- *Abstract heap* (`Blocks`, `FreeLists`, `Heap`, `Operations`): a map from addresses to blocks, a map from
  pool starts to pool ends, and one sequence of block addresses per list. Every operation that changes blocks
  is one `Reshape`: take some free blocks off their lists, recut a range of whole blocks into one block and
  at most one free rest, link the rest. `Inv` is the heap invariant: pools are tiled without gaps up to one
  sentinel, back pointers invert forward steps, no two free blocks are adjacent, a block is on exactly one
  list iff it is free, that list is `map_floor` of its size, payloads lie inside their blocks where the header
  or the pad leaves room, used blocks are no larger than they must be.
- *Concrete allocator* (`Memory`, `Represent`, `TlsfAllocator`): a class with the two bitmaps, the array of
  list heads and a memory in which headers, list links and pads are stored and from which they are read. Each
  method follows the source's steps and is proved to do what the abstract operation does, to keep the
  representation, to leave all other payloads alone, and to write nowhere outside the pools.
- *Whole runs* (`Properties`, `Growth`, `Runs`, `Determined`, `Checked`, `Clients`): what follows for sequences of calls.
- *Below and beside* (`Cells`, `Findings`): footprints in memory, and inputs on which the source fails.

`Regions` and `Flex` put the pool manager and an arbitrary memory source on top. The word width, GRANULARITY,
FLLEN, SLLEN and the bitmap widths are parameters throughout (`Config.Params`).

Memory is modelled in cells of half a granule, the size of a header, of a pair of links and of a pool footer;
a pad is the second word of a cell. A cell is read and written at its first address. The lemmas of `Cells`
show that headers, links, pads and footers never share a byte with each other or with a live payload, and the
methods that allocate, deallocate and resize in place promise to write at no other address (`Represent.OnlyCells`). Null is 0. The blocks of the abstract heap record, for the proofs only, which pointer and layout a used
block was handed out with.

## Findings

- The debug assertion at crates/rlsf/src/flex.rs:415-417 subtracts the region length from the pooled length, so a
  debug build panics whenever a grown region is not pooled to its last byte. `Findings.GrowthAssertionIff` says
  exactly when it holds, `Findings.GrowthAssertionFails` gives an input for every allocation and every pool: the
  source may grow the region by one byte more than requested. The bound that the comment at flex.rs:353-358 needs,
  that the region length exceeds the pooled length by less than two granules, always holds: it is part of
  `Flex.FlexTlsf.Valid`, which every method keeps. The model does what a release build does.
- With a source that supports deallocation, the footer of a region is accessed at an unaligned address if the source
  promises word alignment and the region does not end at a word boundary, which nothing in `FlexSource` rules out and which any growth can bring about.
  `Findings.FooterAlignedIff` is the exact condition, `Findings.FooterMisaligned` an input. Wherever it is, the footer
  overlaps nothing (module `Cells`).
- `insert_free_block_ptr_aligned` does not round its length, and crates/rlsf/src/flex.rs:467-468 passes on what a source
  aligned to granules returns. This works exactly if the chunks are whole granules; `Operations.ChunksGranularIff` says
  which lengths those are, and that is the contract of `Flex.Source.Alloc`. The trait does not state it;
  `Findings.BrokenGranule` is an input on which the free block of the new pool is listed although its header says used.
- The comment at crates/rlsf/src/tlsf.rs:1226-1230 leaves open whether a size overflow during a resize in
  place could be followed by a successful allocation elsewhere. It cannot: `Operations.OverflowIsFinal`. Nor could
  moving the block down have helped: `Operations.InplaceSucceedsIff`.
- The merge with a free block behind the moving clearance, crates/rlsf/src/tlsf.rs:1432-1448, never happens:
  the block there is never free (`Operations.FreeEnd`). The model has no such branch.
- The branches for an outdated or contradictory bitmap at crates/rlsf/src/tlsf.rs:790-796 and 901-904 are dead, because
  the bitmap search returns what a scan of the lists returns (`Represent.SearchIs`, `Operations.AllocateIs`).
- All unchecked additions of `allocate` and of the moving resize stay below the word size
  (`Operations.AllocateNoOverflow`, `Operations.MoveNoOverflow`).

## Model

| member | source | states |
|---|---|---|
| Bits.BitScanForwardFirst | crates/rlsf/src/int.rs:84-111 | the masked scan returns the least set bit at or after the start, and the width iff there is none |
| Bits.SetBitSets | crates/rlsf/src/int.rs:126-130 | exactly one digit becomes one, and the value stays in its width |
| Bits.ClearBitClears | crates/rlsf/src/int.rs:132-136 | exactly one digit becomes zero, and the value stays in its width |
| SizeClass.MapFloorIs | crates/rlsf/src/tlsf.rs:266-285 | the rotation computes the list of the size's leading digits, also where SLI exceeds the logarithm, and fails iff the level is past FLLEN |
| SizeClass.MapCeilIs | crates/rlsf/src/tlsf.rs:290-315 | the rotation with its carry computes the next list unless the size is exactly a list minimum |
| SizeClass.FloorGalois | crates/rlsf/src/tlsf.rs:266-285 | a list is at or below `map_floor(x)` iff its minimum is at most x |
| SizeClass.CeilGalois | crates/rlsf/src/tlsf.rs:290-315 | `map_ceil(s)` is at or below a list iff s is at most the list's minimum |
| SizeClass.SearchIsSound | crates/rlsf/src/tlsf.rs:266-315 | every size stored at or after list `map_ceil(s)` is at least s |
| SizeClass.FloorMonotone | crates/rlsf/src/tlsf.rs:266-285 | larger sizes are stored in later lists |
| SizeClass.HasList | crates/rlsf/src/tlsf.rs:248-285 | a block size has a list iff it is below `GRANULARITY << FLLEN`, the maximum pool size |
| SizeClass.UnmapNone | crates/rlsf/src/tlsf.rs:317-341 | `map_ceil_and_unmap` fails exactly when `map_ceil` does or the list minimum does not fit a word |
| SizeClass.UnmapIsLowerBound | crates/rlsf/src/tlsf.rs:335-355 | the result is the minimum of the list that `map_ceil` names |
| SizeClass.UnmapIsLeast | crates/rlsf/src/tlsf.rs:335-355 | the result m is the least size at or above s with `map_floor(m) = map_ceil(m) = map_ceil(s)`, and a size is stored at or after that list iff it is at least m |
| SizeClass.UnmapIsTight | crates/rlsf/src/tlsf.rs:335-355 | rounding up to a list adds at most one part in SLLEN |
| Blocks.RetileOk | crates/rlsf/src/tlsf.rs:107-156 | recutting whole blocks of one pool keeps the tiling: no gap, one sentinel, inverse back pointers, no adjacent free blocks |
| FreeLists.LinkUnlink | crates/rlsf/src/tlsf.rs:369-424 | unlinking undoes linking, with the order of the list |
| Heap.FreeHasList | crates/rlsf/src/tlsf.rs:369-374 | every free block of a valid heap has a list, so the failing branch of linking is dead |
| Heap.ReshapeOk | crates/rlsf/src/tlsf.rs:369-424 | recutting with unlinking and relinking keeps the whole heap invariant |
| Operations.PayloadStartOk | crates/rlsf/src/tlsf.rs:818-833 | the payload start is aligned, behind the header and the pad, and within the overhead that the search size reserves |
| Operations.OverheadOccurs | crates/rlsf/src/tlsf.rs:774-783 | for every alignment there is a block start where exactly the reserved overhead is needed, so less would not do |
| Operations.TightFit | crates/rlsf/src/tlsf.rs:832-862 | every used block of a valid heap is exactly header, padding and payload in whole granules, so every operation gives the rest back |
| Operations.AllocateIs | crates/rlsf/src/tlsf.rs:772-802 | allocation carves the first block of the first non-empty list from `map_ceil` of the search size on, that block is large enough, and it fails iff there is none |
| Operations.AllocateOk | crates/rlsf/src/tlsf.rs:772-877 | allocation keeps the heap invariant, which includes that the used block is no larger than needed |
| Operations.AllocateNoOverflow | crates/rlsf/src/tlsf.rs:818-837 | the unchecked additions of an allocation stay below the word size in the order in which they are made, the sum with a whole granule included |
| Operations.DeallocateOk | crates/rlsf/src/tlsf.rs:1032-1101 | deallocation with merging on both sides keeps the heap invariant |
| Operations.FreeEnd | crates/rlsf/src/tlsf.rs:1292-1321 | the block behind a used block and the free block after it is in the same pool and never free |
| Operations.InplaceSucceedsIff | crates/rlsf/src/tlsf.rs:1217-1471 | a resize in place succeeds iff the requested bytes fit between the lowest start that the payload can have, in the free block before it if there is one, and the end of the free space behind it |
| Operations.ReallocatePointer | crates/rlsf/src/tlsf.rs:1182-1471 | reallocation returns the old pointer if the bytes fit without a move, else the lowest possible one if they fit there, and else what an allocation returns |
| Operations.ReallocateInplaceOk | crates/rlsf/src/tlsf.rs:1217-1471 | every successful path of a resize in place keeps the heap invariant |
| Operations.MoveNoOverflow | crates/rlsf/src/tlsf.rs:1294-1392 | the unchecked additions of a moving resize, for the clearance and for the new payload start, stay below the word size in the order in which they are made, and the new start is not behind the old one |
| Operations.FallbackIsLarger | crates/rlsf/src/tlsf.rs:1195-1206 | giving up on a resize in place means that the new size exceeds what the old block holds, so copying the old payload fits |
| Operations.OverflowIsFinal | crates/rlsf/src/tlsf.rs:1223-1233 | an overflow of the new size in place means that the reallocation fails as a whole, in every heap |
| Operations.ReallocateOk | crates/rlsf/src/tlsf.rs:1182-1212 | reallocation keeps the heap invariant |
| Operations.ChunkProps | crates/rlsf/src/tlsf.rs:501-508 | each chunk is whole granules, at least two, no larger than the maximum pool size and the region |
| Operations.ChunksGranularIff | crates/rlsf/src/tlsf.rs:501-508 | every chunk is whole granules iff the region is, or is too small for a chunk, or pools are bounded and fewer than two granules are left behind chunks of the maximum size |
| Operations.RoundedRegion | crates/rlsf/src/tlsf.rs:492-543 | a region whose chunks are whole granules is cut exactly as its whole granules are |
| Operations.ChunkHasList | crates/rlsf/src/tlsf.rs:512-533 | the free block of each chunk has a list |
| Operations.ChunkedLengthIs | crates/rlsf/src/tlsf.rs:499-542 | the chunks cover all of a granular region or all but one granule |
| Operations.InsertOk | crates/rlsf/src/tlsf.rs:492-543 | inserting a region of any number of chunks keeps the heap invariant |
| Operations.InsertPlan | crates/rlsf/src/tlsf.rs:461-477 | the wrapping round-up computes the padding in front of the first granule, also in the last granule of the address space |
| Operations.ExtendOk | crates/rlsf/src/tlsf.rs:633-694 | swallowing the sentinel and a free block before it keeps the heap invariant |
| Operations.AppendOk | crates/rlsf/src/tlsf.rs:612-695 | appending keeps the heap invariant, with bounded and with unbounded pools |
| Memory.SizeWordIs | crates/rlsf/src/tlsf.rs:107-130 | size and flags can be read back from the size word |
| Represent.SearchIs | crates/rlsf/src/tlsf.rs:881-911 | the search with three bit scans returns what looking at one list after the other returns |
| Represent.HeaderLookup | crates/rlsf/src/tlsf.rs:925-988 | for every live allocation, both lookups lead from the payload pointer to the same block, its own |
| Represent.OneBlockPerPointer | crates/rlsf/src/tlsf.rs:925-988 | a payload pointer belongs to one live block only |
| TlsfAllocator.Tlsf.constructor | crates/rlsf/src/tlsf.rs:211-221 | a new allocator is valid and manages nothing |
| TlsfAllocator.Tlsf.LinkFreeBlock | crates/rlsf/src/tlsf.rs:369-385 | the block becomes the first of its list, in heads, links and bitmaps, and no other cell changes |
| TlsfAllocator.Tlsf.UnlinkFreeBlock | crates/rlsf/src/tlsf.rs:395-424 | the block leaves its list, in heads, links and bitmaps, and only links change |
| TlsfAllocator.Tlsf.UnlinkFirst | crates/rlsf/src/tlsf.rs:790-816 | the first block of the found list leaves it |
| TlsfAllocator.Tlsf.Allocate | crates/rlsf/src/tlsf.rs:772-877 | does what the abstract allocation does, changes nothing on failure, keeps every payload and everything outside the pools, and writes at no address but headers, links and pads of the blocks before or after |
| TlsfAllocator.Tlsf.AllocateFrom | crates/rlsf/src/tlsf.rs:797-877 | carves the used block and its free rest out of the block that was found |
| TlsfAllocator.Tlsf.DeallocateBlock | crates/rlsf/src/tlsf.rs:1032-1101 | does what the abstract deallocation does, keeps every other payload and everything outside the pools, and writes at no address but headers and links of the blocks before or after |
| TlsfAllocator.Tlsf.Deallocate | crates/rlsf/src/tlsf.rs:1002-1007 | frees the block of the pointer, looked up with its alignment |
| TlsfAllocator.Tlsf.DeallocateUnknownAlign | crates/rlsf/src/tlsf.rs:1022-1027 | frees the same block, looked up without the alignment |
| TlsfAllocator.Tlsf.SizeOfAllocation | crates/rlsf/src/tlsf.rs:1113-1124 | the bytes from the pointer to the end of its block, no fewer than were requested |
| TlsfAllocator.Tlsf.Reallocate | crates/rlsf/src/tlsf.rs:1182-1212 | does what the abstract reallocation does; on success the old bytes up to the smaller size are at the new pointer, on failure nothing changes, and no other payload changes |
| TlsfAllocator.Tlsf.ReallocateInplace | crates/rlsf/src/tlsf.rs:1217-1471 | the same for the resize in place; besides the bytes of a moved payload it writes at no address but headers, links and pads of the blocks before or after; failure implies that the new size exceeds the block |
| TlsfAllocator.Tlsf.ResizeTo | crates/rlsf/src/tlsf.rs:1239-1354 | shrinking with and without merge and growing exactly or with slack, contents kept |
| TlsfAllocator.Tlsf.MoveDownTo | crates/rlsf/src/tlsf.rs:1358-1398 | moving into the previous free block, or failing with the state untouched |
| TlsfAllocator.Tlsf.MoveInto | crates/rlsf/src/tlsf.rs:1398-1470 | the moved payload is intact although source and destination may overlap |
| TlsfAllocator.Tlsf.CreatePools | crates/rlsf/src/tlsf.rs:499-542 | the chunking loop writes the headers of exactly the chunk blocks, links them, returns the bytes used, and leaves the last half granule of the last sentinel and all that follows untouched |
| TlsfAllocator.Tlsf.InsertFreeBlockPtrAligned | crates/rlsf/src/tlsf.rs:492-543 | does what the abstract insertion does and keeps every payload, for every well-aligned region whose chunks are whole granules |
| TlsfAllocator.Tlsf.InsertFreeBlockPtr | crates/rlsf/src/tlsf.rs:461-489 | the same for a region of any alignment and length; returns 0 with nothing changed iff fewer than two granules are left |
| TlsfAllocator.Tlsf.AppendFreeBlockPtr | crates/rlsf/src/tlsf.rs:612-695 | does what the abstract append does, returns the bytes incorporated, keeps every payload |
| TlsfAllocator.Tlsf.ExtendPool | crates/rlsf/src/tlsf.rs:633-694 | one pool results, whether or not the penultimate block was free, and exactly the new bytes are counted |
| TlsfAllocator.Tlsf.WritePayload | crates/rlsf/src/tlsf.rs:170-190 | whatever a client writes into its payload, the allocator stays valid and no other payload changes |
| Properties.AllocateDeallocate | crates/rlsf/src/tlsf.rs:772-1101 | deallocating right after an allocation restores blocks, pools and lists in their order |
| Properties.WalkTiles | crates/rlsf/src/tlsf.rs:132-156 | stepping from a block to the next tiles the rest of its pool up to exactly one sentinel, and the sizes add up |
| Properties.PoolTiled | crates/rlsf/src/tlsf.rs:132-156 | the walk from the start of a pool meets every block of the pool and its sizes add up to the pool |
| Properties.Drained | crates/rlsf/src/tlsf.rs:1032-1101 | a pool without live allocations is exactly one free block and its sentinel |
| Determined.BlocksDetermined | crates/rlsf/src/tlsf.rs:69-156 | two valid heaps with the same pools and the same live allocations have the same blocks: free blocks are exactly the gaps, so what an operation does to the live allocations is all that it does to the blocks |
| Properties.AllocateSucceedsIff | crates/rlsf/src/tlsf.rs:772-911 | allocation succeeds iff some free block reaches the minimum of the list that `map_ceil` names for the search size |
| Properties.SearchSizeIs | crates/rlsf/src/tlsf.rs:782-787 | the search size is the bytes needed in the worst place in whole granules, and is missing iff these do not fit a word |
| Properties.AllocateSucceedsExactly | crates/rlsf/src/tlsf.rs:772-911 | allocation succeeds iff the bytes needed in the worst place fit a word and some free block reaches the minimum of the list where they are looked up |
| Properties.FragmentationBound | crates/rlsf/src/tlsf.rs:772-911 | when an allocation of search size s fails although its list exists, every free block is smaller than s + s/SLLEN |
| Growth.PoolSizeOk | crates/rlsf/src/tlsf.rs:747-762 | the computed pool size is at least two granules, granular, and no larger than a pool can be |
| Growth.PoolSizeIsLeast | crates/rlsf/src/tlsf.rs:738-762 | where an allocation fails, inserting a well-aligned granular region makes it succeed iff the region has the computed size: the size is the least one |
| Growth.NoPoolSizeNoAllocation | crates/rlsf/src/tlsf.rs:738-762 | when there is no such size, the allocation fails in every heap |
| Growth.RoomSuffices | crates/rlsf/src/tlsf.rs:747-762 | a free block of that size less the sentinel makes the allocation succeed |
| Growth.InsertSuffices | crates/rlsf/src/flex.rs:436-478 | inserting a well-aligned region of that size makes the allocation succeed |
| Growth.InsertPtrSuffices | crates/rlsf/src/flex.rs:436-478 | so does a region of any alignment with one granule more |
| Growth.AlignedSuffices | crates/rlsf/src/flex.rs:436-478 | so does a well-aligned region of that size that is not whole granules |
| Growth.AppendSuffices | crates/rlsf/src/flex.rs:347-425 | so does appending that many bytes, coalesced or split into bounded pools |
| Shadow.OneEntry | crates/rlsf/src/tests.rs:53-61 | one covering entry with the expected mark is the same as all addresses of the range having it |
| Shadow.ConvertedMarks | crates/rlsf/src/tests.rs:63-87 | the entries left by a conversion stand for exactly the pointwise update and stay canonical |
| Shadow.RemovedMarks | crates/rlsf/src/tests.rs:141-171 | the entries left by a removal stand for exactly the pointwise update and stay canonical |
| Shadow.ShadowAllocator.constructor | crates/rlsf/src/tests.rs:22-26 | every address is invalid |
| Shadow.ShadowAllocator.ConvertRange | crates/rlsf/src/tests.rs:34-87 | passes iff the range has the expected mark throughout, then updates exactly the range; the map stays canonical |
| Shadow.ShadowAllocator.InsertFreeBlock | crates/rlsf/src/tests.rs:97-101 | accepts exactly ranges that are invalid throughout |
| Shadow.ShadowAllocator.AppendFreeBlock | crates/rlsf/src/tests.rs:103-120 | accepts exactly invalid ranges that start where a valid one ends |
| Shadow.ShadowAllocator.RemovePool | crates/rlsf/src/tests.rs:122-171 | passes iff no address of the range is invalid, then invalidates exactly the range; the map stays canonical |
| Shadow.ShadowAllocator.Allocate | crates/rlsf/src/tests.rs:173-183 | accepts exactly aligned ranges that are free throughout |
| Shadow.ShadowAllocator.Deallocate | crates/rlsf/src/tests.rs:185-195 | accepts exactly aligned ranges that are in use throughout |
| Runs.AllocateLive | crates/rlsf/src/tlsf.rs:772-877 | exactly one allocation is added, in a block that was free |
| Runs.DeallocateLive | crates/rlsf/src/tlsf.rs:1032-1101 | exactly one allocation is removed, pools unchanged |
| Runs.InplaceLive | crates/rlsf/src/tlsf.rs:1217-1471 | exactly one allocation is replaced, pools unchanged |
| Runs.ReallocateLive | crates/rlsf/src/tlsf.rs:1182-1212 | exactly one allocation is replaced, pools unchanged |
| Runs.AddedWasFree | crates/rlsf/src/tests.rs:173-183 | a new allocation is aligned, lies wholly in free pool bytes, and the shadow agrees with the heap afterwards |
| Runs.RemovedWasUsed | crates/rlsf/src/tests.rs:185-195 | a freed allocation was in use throughout, and the shadow agrees with the heap afterwards |
| Runs.StepGoes | crates/rlsf/src/tlsf/tests.rs:252-355 | every permitted step passes the shadow's checks, keeps the invariant and the agreement, and only insertion and appending change pools |
| Runs.RunGoes | crates/rlsf/src/tlsf/tests.rs:252-355 | the same for every sequence of steps from every good state |
| Runs.RunsAreSafe | crates/rlsf/src/tlsf/tests.rs:206-357 | no run from the new allocator breaks the invariant or fails a check, and the addresses in use are exactly those of the live payloads |
| Runs.LivePayloadsAreSafe | crates/rlsf/src/tests.rs:173-183 | after any run, the payload of every live allocation is aligned, inside a pool, behind its own header, apart from every other block and sentinel as a whole, and disjoint from every other live payload |
| Runs.RunsConserve | crates/rlsf/src/tlsf.rs:772-1471 | allocating, deallocating and reallocating conserve the total block bytes of every pool |
| Runs.RunsDrain | crates/rlsf/src/tlsf.rs:1032-1101 | after any run without live allocations, every pool is one free block and its sentinel |
| Runs.FreeAll | crates/rlsf/src/tlsf.rs:1002-1101 | all live allocations can be freed in any order, and then none is left |
| Checked.CheckedTlsf.constructor | crates/rlsf/src/tlsf/tests.rs:207-208 | new allocator and new reference agree |
| Checked.CheckedTlsf.Allocate | crates/rlsf/src/tlsf/tests.rs:254-273 | the run-length reference accepts what the allocator returned |
| Checked.CheckedTlsf.Deallocate | crates/rlsf/src/tlsf/tests.rs:274-288 | the reference accepts a deallocation by either lookup |
| Checked.CheckedTlsf.Reallocate | crates/rlsf/src/tlsf/tests.rs:289-317 | the reference accepts freeing the old range and then taking the new one |
| Checked.CheckedTlsf.Insert | crates/rlsf/src/tlsf/tests.rs:216-240 | the reference accepts the bytes that the allocator says it used |
| Checked.CheckedTlsf.Append | crates/rlsf/src/tlsf/tests.rs:318-349 | the reference accepts the bytes that the allocator says it appended |
| Clients.BitmapsDetermined | crates/rlsf/src/tlsf.rs:69-75 | the lists determine both levels of the bitmaps |
| Clients.AllocateAndDeallocate | crates/rlsf/src/tlsf.rs:772-1101 | the round trip on the object restores blocks, lists in their order, list heads and bitmaps |
| Clients.IterBlocks | crates/rlsf/src/tlsf.rs:1518-1558 | yields exactly the blocks of the region other than sentinels, in the order of their addresses |
| Clients.InsertFills | crates/rlsf/src/tlsf.rs:1473-1482 | the bytes counted by an insertion are back-to-back whole pools, as iteration demands |
| Clients.AppendFills | crates/rlsf/src/tlsf.rs:1473-1482 | appending extends back-to-back pools to back-to-back pools |
| Clients.AppendOutcome | crates/rlsf/src/tlsf.rs:612-695 | with unbounded pools the old pool grows by exactly the rounded length; with bounded pools all existing blocks and pools are unchanged |
| Regions.FooterPlace | crates/rlsf/src/flex.rs:206-236 | the footer lies inside its region and no lower than the unused half of the last sentinel |
| Regions.FooterUnused | crates/rlsf/src/flex.rs:206-236 | none of the bytes of a footer lies where an allocator reads or writes |
| Cells.CellsApart | crates/rlsf/src/tlsf.rs:107-190 | headers, list links and pads occupy half a granule each and no two of them share a byte |
| Cells.CellAvoidsPayload | crates/rlsf/src/tlsf.rs:107-190 | no byte of a header, of links or of a pad belongs to a live payload |
| Cells.FooterAvoidsCell | crates/rlsf/src/flex.rs:206-236 | no byte of a footer belongs to a header, to links or to a pad |
| Cells.FooterAvoidsBlock | crates/rlsf/src/flex.rs:206-236 | no byte of a footer belongs to a block other than a sentinel |
| Cells.FootersShareNothing | crates/rlsf/src/flex.rs:206-236 | no two footers share a byte |
| Regions.LinkedKept | crates/rlsf/src/flex.rs:206-217 | what the allocator writes leaves the chain of footers intact |
| Regions.LinkedLonger | crates/rlsf/src/flex.rs:373-392 | moving the footer before appending keeps the chain |
| Regions.LinkedNew | crates/rlsf/src/flex.rs:480-490 | writing the footer of a new region extends the chain |
| Regions.AppendPools | crates/rlsf/src/flex.rs:394-417 | appending takes all but less than two granules and the pool ends where the taken bytes end |
| Regions.InsertPools | crates/rlsf/src/flex.rs:462-478 | inserting takes all but less than two granules whenever it takes anything, and the pool ends where the taken bytes end |
| Regions.InsertTakesIff | crates/rlsf/src/tlsf.rs:461-477 | memory of any alignment and length is taken iff there are two whole granules in it |
| Flex.Source.Alloc | crates/rlsf/src/flex.rs:14-27 | an arbitrary answer, recorded with the request: a refusal, or a fresh disjoint region, long enough, aligned as promised and, for sources aligned to granules, cut into whole granules |
| Flex.Source.ReallocInplaceGrow | crates/rlsf/src/flex.rs:29-45 | an arbitrary answer, recorded with the request: a refusal, or growth in place that stays disjoint from the other regions |
| Flex.Source.Dealloc | crates/rlsf/src/flex.rs:47-56 | demands a region that is live with its current length, and removes it |
| Flex.FooterBehindSentinel | crates/rlsf/src/flex.rs:206-236 | in every valid state the current footer is behind the header of the last sentinel and inside the region |
| Flex.FlexTlsf.constructor | crates/rlsf/src/flex.rs:276-282 | a new manager is valid and has obtained nothing |
| Flex.FlexTlsf.IncreasePoolToContainAllocation | crates/rlsf/src/flex.rs:334-501 | exactly which requests of which sizes the source gets; success iff one of them is granted, and then all of the granted memory is inserted or appended, the allocation is sure to succeed and no allocation was disturbed; on failure nothing changed; nothing is given back |
| Flex.FlexTlsf.TryGrow | crates/rlsf/src/flex.rs:347-425 | one request to grow the last region by the computed size; if it is granted, all the new bytes are appended |
| Flex.FlexTlsf.GrowPool | crates/rlsf/src/flex.rs:372-425 | all new bytes of a grown region are appended to its last pool, the chain stays intact, and the allocation succeeds |
| Flex.FlexTlsf.AddRegion | crates/rlsf/src/flex.rs:462-500 | all of a new region is inserted and chained, whatever the alignment of the source, and the allocation succeeds |
| Flex.FlexTlsf.Allocate | crates/rlsf/src/flex.rs:311-329 | what the pools can serve is served from them without asking the source; otherwise success iff one of exactly these requests is granted, and then the result is that of an allocation from the heap with all of the granted memory, so the assertion behind the retry never fires; nothing is given back |
| Flex.FlexTlsf.Deallocate | crates/rlsf/src/flex.rs:517-520 | frees the allocation and keeps regions, pools and footers in order |
| Flex.FlexTlsf.DeallocateUnknownAlign | crates/rlsf/src/flex.rs:536-539 | the same without the alignment |
| Flex.FlexTlsf.Reallocate | crates/rlsf/src/flex.rs:572-604 | what the pools can serve is served from them; otherwise success iff one of exactly these requests is granted, and then the result is that of an allocation from the heap with all of the granted memory followed by freeing the old block, with the surviving bytes at the new pointer; on failure nothing changed; other payloads are kept and nothing is given back |
| Flex.FlexTlsf.MoveTo | crates/rlsf/src/flex.rs:594-603 | the old payload fits the new block, which is disjoint, and is copied before the old block is freed |
| Flex.FlexTlsf.Drop | crates/rlsf/src/flex.rs:621-645 | terminates and gives every region obtained back to the source exactly once, as many as the source handed out, the most recent first, with its final start and length |
| Clients.WholeLife | crates/rlsf/src/flex.rs:276-645 | from creation through arbitrary allocations, reallocations and deallocations to the end, every region that the source handed out is given back, each once |
| Findings.ChunkedAllIff | crates/rlsf/src/tlsf.rs:499-542 | a granular region is pooled to its last byte iff no single granule is left behind chunks of the maximum size |
| Findings.AppendedAllIff | crates/rlsf/src/tlsf.rs:612-695 | all appended bytes are taken iff they are whole granules and no single granule is left over |
| Findings.GrowthAssertionIff | crates/rlsf/src/flex.rs:413-417 | the assertion, as written, holds iff the appended length is whole granules with no single granule left over |
| Findings.GrowthAssertionFails | crates/rlsf/src/flex.rs:413-417 | an input on which it underflows, for every allocation and pool: a source that supports growth answers one byte above the request |
| Findings.FooterAlignedIff | crates/rlsf/src/flex.rs:223-236 | a footer is at a word boundary iff the source promises less than word alignment or the region ends at a word boundary |
| Findings.FooterMisaligned | crates/rlsf/src/flex.rs:223-236 | an input on which it is not, for every allocation: a source aligned to words but not to granules answers one byte above the request that is made of it |
| Findings.BrokenGranule | crates/rlsf/src/flex.rs:462-470 | an input on which insertion of a well-aligned region goes wrong: of two granules and a byte, the free block goes on a first-level list while its size word reads as used and as smaller than the block |

## Left out

- Individual bytes: a payload address holds one opaque value, and a header, a link pair, a pad or a footer is read and written at one address; that their footprints are disjoint is proved in `Cells`.
- What an access to an unaligned footer does: the model places the footer and says when it is aligned.
- Writes without effect: the exact fit of the model writes a back pointer that already has that value, and its resize in place rewrites an unchanged pad; the source skips both.
- Pool lifetimes, pointer provenance, uninitialised memory and threads.
- Time complexity.
- crates/rlsf/src/global.rs and the platform sources below crates/rlsf/src/global: foreign calls around `FlexTlsf`.
- crates/rlsf_override and crates/rlsf_benchmark_farcri: shims and benchmarks.
- crates/rlsf/src/utils.rs: a slice pointer is a pair of start and length.
- `GlobalAllocAsFlexSource`, `Default`, `ConstDefault`, `Debug` and the accessors of `BlockInfo`: wrappers that would only add easy members.
- `count_ones`, `extract_u32`, `checked_ceil_fix` and the signed instances of crates/rlsf/src/int.rs: the allocator does not use them.
- `size_of_allocation_unknown_align` and `allocation_usable_size`: the lookup of `Represent.HeaderLookup` and the subtraction of `SizeOfAllocation`.
- Debug assertions other than those named above: each is a precondition or a proved fact of the model.
- Operations.ChunkedLengthIs: the subtraction at crates/rlsf/src/tlsf.rs:542 wraps around for a region of 2^w bytes, which no region that starts above address 0 can have.
