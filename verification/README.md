# Proofs about the TL880 driver

A Dafny model of the parts of the TL880 (Janus, MyHD) graphics and capture card driver that hold
state or encode bits, with proofs of what they keep over whole runs. `dafny verify dfyconfig.toml`
checks everything.

Code that changes things in place is modelled in place: chunk bitmaps are arrays set and cleared by
loops, the overlay memory, the cursors and the interrupt callbacks are linked nodes, registers and
card memory are arrays of 32-bit words. Each such method is proved against a function on values, and
the laws and whole-run theorems are proved about those functions.

| files | what they model |
|---|---|
| `PoolSpec`, `Pool`, `PoolRuns`, `PoolLaws` | the card-memory pool: bitmaps, first fit with skip-ahead, frees, destruction, whole runs |
| `OsdSpec`, `Osd`, `OsdLaws`, `OsdRuns`, `OsdAsWritten` | the overlay-memory list: compaction, exact and larger fit, splitting, alignment, whole runs |
| `CursorSpec`, `Cursors` | hardware cursors, each owning one block of overlay memory |
| `Interrupts`, `Vpip`, `Callbacks` | top half, bottom half and shared interrupt line as a state machine; the video input handler; the callback list |
| `Bits`, `Registers`, `Writes`, `Cast` | `set_bits`, the register window, series of register writes, words as numbers |
| `Lines`, `Gpio`, `I2c` | GPIO lines, sample-rate coding, the six bit-banged I2C wirings |
| `Mode` | `tl880_set_mode`: a mode packed into registers under a blanked display |
| `Words`, `Scaler` | the scalers' error-term word |
| `Crc`, `CrcLaws`, `CrcPolynomial`, `CrcWide` | the CRC table |
| `CardMemory`, `AlsaSpec`, `Alsa`, `AlsaRuns` | card memory, the playback ring, and its separation from the pool |
| `Sharing` | when the pool and the overlay list hand out the same byte of card memory |
| `Lists` | taking elements out of sequences and putting them in |

Where the code does not do what its callers count on, the code is kept and the exact condition is
proved:

- the larger-fit search of `tl880_allocate_osdmem` as written turns for ever, so that, once
  `tl880_init_osdmem` has run, the first cursor request never returns (`OsdAsWritten.EndsIff`,
  `CallReturnsIff`, `FirstCursorHangs`); before that every call returns and is refused
  (`OsdLaws.NothingBeforeInit`, `OsdAsWritten.CallsReturnBeforeInit`, `CursorSpec.NoCursorsBeforeInit`);
- once `tl880_init_osdmem` has run, a request for 0 overlay bytes breaks the list (`OsdRuns.SoundIff`,
  `SoundIffSizePositive`, `EmptyRequestBreaks`);
- one foreign interrupt leaves the card deaf (`Interrupts.MaskAfterRun`, `MaskIsRestored`);
- the pool hands out bytes past the end of memory, and the same card memory as the overlay list
  (`Sharing.CanRunPastIff`, `CanShareIff`);
- the CRC table is wrong with 64-bit longs (`CrcWide.WideIsRightIff`);
- the scaler's quotient is cut unless the picture is enlarged (`Scaler.QuotientKeptIff`), and its origin
  wraps for a source longer than 0x359 (`Scaler.OriginIsIff`);
- with two periods the timer's reports are one for each elapsed period only while no two ticks running
  find playback in the second period and none finds it further back within the first
  (`AlsaSpec.ReportsAreRightIff`); with more periods every tick in the last one reports
  (`AlsaSpec.LastPeriodReports`);
- an audio bottom half between two ticks moves the interrupt position off its place in the ring
  (`AlsaSpec.AudioKeepsStepIff`);
- a GPIO pin pair does not break before it makes, or make before it breaks, for odd states above 1
  (`Gpio.BreaksBeforeMakesIff`, `MakesBeforeBreaksIff`);
- the video input handler turns its field bit over once and never again (`Vpip.FieldFlipsOnce`).

The larger-fit search is modelled by its evident intent: it moves on to the next block when one does
not fit, and after a split it returns the aligned address as the exact-fit search does.

Arithmetic: sizes, addresses and counters are natural numbers that are assumed not to overflow the
source's `int` and `unsigned long`; register words, `set_bits`, masks and the CRC are 32-bit (64-bit in
`CrcWide`) bit vectors; the scalers' expressions are reduced modulo 2^32 where the source stores or
masks them. `unsigned long` is taken as 32 bits wide for the CRC, except in `CrcWide`. Outcomes of
`kmalloc`, the position of the audio hardware and the tests inside sub-handlers are parameters. Each
allocator call and each half of the interrupt handler is one atomic step.

## Model

| member | source | states |
|---|---|---|
| PoolSpec.Choose | driver/genalloc.c:132-164 | the place an allocation gets: the first chunk in list order with room, and in it the lowest start of a clear run that ends before the chunk's last granule but one; none only when no chunk has such a run |
| PoolSpec.FirstFrom | driver/genalloc.c:137-150 | trying every start in turn: the reference the skip-ahead scan is measured against |
| Pool.PoolChunk.Scan | driver/genalloc.c:137-152 | the skip-ahead scan is exact first fit, although it passes over every start up to the set bit it hit; it ends, and reports no room only when there is none |
| Pool.PoolChunk.FindNext | driver/genalloc.c:143-149 | the kernel's bit searches: the first zero or set bit at or after an offset, or the limit |
| Pool.PoolChunk.SetRange | driver/genalloc.c:156-157 | the counting-down loop sets or clears exactly its run of bits |
| Pool.PoolChunk.constructor | driver/genalloc.c:57-71 | a new chunk is a range with one clear bit for each whole granule |
| Pool.GenPool.constructor | driver/genalloc.c:25-36 | a new pool has no chunks |
| Pool.GenPool.Add | driver/genalloc.c:49-78 | a zeroed chunk becomes the head of the list; -1 and no change when kmalloc fails |
| Pool.GenPool.Alloc | driver/genalloc.c:120-167 | 0 for size 0; else marks the chosen run of ceil(size / 2^order) granules and no other bit and returns its address; 0 and no change when there is no room |
| Pool.GenPool.FindHolder | driver/genalloc.c:188-193 | the walk to the first chunk whose range holds an address |
| Pool.GenPool.Free | driver/genalloc.c:178-204 | clears the run behind the address in the chunk that holds it, or trips one of the two BUG_ON checks without changing anything |
| Pool.GenPool.Destroy | driver/genalloc.c:88-109 | the BUG_ON fires exactly when some bit is still set; else the list is emptied |
| Pool.ChoiceIsUnique | driver/genalloc.c:132-164 | a walk that stops at the first chunk with room, at its lowest start, finds what Choose gives |
| PoolRuns.AddKeepsInv | driver/genalloc.c:49-78 | adding a range apart from all chunks keeps set bits equal to the live extents |
| PoolRuns.TakeKeepsInv | driver/genalloc.c:120-167 | an allocation of any size keeps set bits equal to the live extents, which stay disjoint and inside their chunks |
| PoolRuns.GiveKeepsInv | driver/genalloc.c:178-204 | freeing a live extent keeps the same, and never trips a BUG_ON |
| PoolRuns.FreeRunIsUnowned | driver/genalloc.c:137-157 | a run of clear bits meets no live extent |
| PoolRuns.HolderIsBase | driver/genalloc.c:188-197 | the chunk found by a live extent's address is the one it was taken from, and the slot computed from it is its own |
| PoolRuns.StepKeepsInv | driver/genalloc.c:49-204 | any legal add, alloc or free keeps the invariant |
| PoolRuns.RunKeepsInv | driver/genalloc.c:49-204 | in every run each chunk's set bits are exactly the disjoint union of the live extents, which lie inside their chunks |
| PoolLaws.RunConservesGranules | driver/genalloc.c:49-204 | in every run the number of set bits is the sum of the live extents' ceil(size / 2^order) |
| PoolLaws.EmptyPoolRuns | driver/genalloc.c:25-204 | both hold in every run from an empty pool |
| PoolLaws.LiveBytesInside | driver/genalloc.c:137-157 | every live extent's bytes lie inside its chunk and end at least a granule before it does |
| PoolLaws.LiveBytesAreApart | driver/genalloc.c:154-157 | live byte ranges are pairwise disjoint |
| PoolLaws.SetBitsAreLiveBytes | driver/genalloc.c:154-157 | in every reachable pool a bit is set exactly when some live extent's bytes, from the address its caller was given, touch that granule |
| PoolLaws.LastTwoStayClear | driver/genalloc.c:137-138 | the last two granules of a chunk are never set |
| PoolLaws.DestroyTripsIffLive | driver/genalloc.c:99-103 | destroy's BUG_ON is silent exactly when no extent is live |
| PoolLaws.ZeroMeansNoRoom | driver/genalloc.c:129-166 | exactly when an allocation returns 0: size 0, no room anywhere, or the first granule of a chunk that starts at 0 |
| PoolLaws.AddressIsTheRun | driver/genalloc.c:154-161 | the bits an allocation sets are exactly those of the granules that the bytes at the returned address touch, all clear before; the address is where the lowest of them starts, and no earlier chunk and no lower start would have done |
| PoolLaws.RunIsTouched | driver/genalloc.c:129-157 | ceil(size / 2^order) granules are exactly those that size bytes from a granule's start touch |
| PoolLaws.NewestChunkFirst | driver/genalloc.c:73-75 | a request that fits into the chunk added last gets that chunk's start |
| PoolLaws.FreeUndoesAlloc | driver/genalloc.c:120-204 | alloc then free of the same size restores every bit, and the next equal request gets the same address |
| PoolLaws.FreeInFirstHolder | driver/genalloc.c:188-201 | for any address and size: only the first chunk that holds the address counts; a range past its end trips the BUG_ON and changes nothing, else exactly the run from the address's granule is cleared |
| PoolLaws.FreeOutside | driver/genalloc.c:188-203 | an address in no chunk trips the other BUG_ON exactly when the size is not 0 |
| PoolLaws.LiveRunInBitmap | driver/genalloc.c:192-197 | a free of a live extent meets the precondition of GenPool.Free |
| PoolLaws.FreeAllClears | driver/genalloc.c:178-204 | freeing any list of extents trips no check and clears exactly their granules |
| PoolLaws.FreeOrderIsIrrelevant | driver/genalloc.c:178-204 | live extents freed in any order leave the same pool |
| Osd.OsdMemory.Init | driver/tl880osd.c:41-103 | one free block of 0x1000000 bytes, unless the list exists already or kmalloc fails |
| Osd.OsdMemory.Compact | driver/tl880osd.c:18-39 | the walk with merges in place ends and gives the compacted sequence |
| Osd.OsdMemory.CompactStep | driver/tl880osd.c:25-36 | one turn either merges two free neighbours or moves on, and leaves the outcome of the whole walk as it was |
| Osd.OsdMemory.Search | driver/tl880osd.c:121-134 | the first free block of exactly, or of more than, the needed size |
| Osd.OsdMemory.Allocate | driver/tl880osd.c:106-173 | compaction, then the exact fit or else a split of the first larger block; 0 when neither exists or kmalloc fails |
| Osd.OsdMemory.Serve | driver/tl880osd.c:121-159 | the two searches over the list as it stands, with new list, counter and address |
| Osd.OsdMemory.GrabNode | driver/tl880osd.c:124-131 | an exact fit is flagged and given the offset of its first aligned address; all other blocks stay |
| Osd.OsdMemory.AddRest | driver/tl880osd.c:141-154 | a new free node behind the block for all but the first needed bytes, virtual and physical addresses moved alike |
| Osd.OsdMemory.CutNode | driver/tl880osd.c:155-157 | the block is cut to the needed bytes and handed out |
| Osd.OsdMemory.SplitNode | driver/tl880osd.c:137-158 | the branch for a larger block: one block becomes the front that is handed out and a free rest, every other block stays |
| Osd.OsdMemory.GetOffset | driver/tl880osd.c:175-196 | the card address of the active block with this address, -1 if the walk ends or meets a bad id first |
| Osd.OsdMemory.Deallocate | driver/tl880osd.c:198-214 | the first block with this address becomes free, found or not told |
| OsdLaws.TilesCover | driver/tl880osd.c:18-214 | in a list that tiles its region every byte belongs to some block |
| OsdLaws.CompactKeeps | driver/tl880osd.c:18-39 | compaction keeps the tiling of the region, the active blocks and the head block's id, and leaves no two free neighbours |
| OsdLaws.CompactFixes | driver/tl880osd.c:18-39 | a list with nothing to merge stays as it is: compaction is idempotent |
| OsdLaws.CompactKeepsFreeBytes | driver/tl880osd.c:18-39 | the set of free bytes is unchanged |
| OsdLaws.FewFreeBlocks | driver/tl880osd.c:18-39 | after compaction there is at most one free block more than active ones |
| OsdLaws.AlignUpIsAligned | driver/tl880osd.c:110-111 | for any alignment the mask arithmetic leaves no bit of align - 1 set |
| OsdLaws.AlignedIff | driver/tl880osd.c:110-111 | for a power of two that means a multiple of it |
| OsdLaws.AddressIsAligned | driver/tl880osd.c:106-173 | whatever the list, the address handed out has the alignment asked for |
| OsdLaws.AddressIsMultiple | driver/tl880osd.c:106-173 | for a power of two it is a multiple of it |
| OsdLaws.ExactFitFirst | driver/tl880osd.c:121-134 | when a free block has exactly size + align - 1 bytes, the first such block is handed out, with memory for a node or without: no block is added, no id used, only that block's flag and offset change |
| OsdLaws.ElseFirstLarger | driver/tl880osd.c:137-159 | else the first larger free block is cut: its first size + align - 1 bytes are handed out at the first aligned address, and one free block with all the rest is added right behind it under the next id |
| OsdLaws.ElseRefused | driver/tl880osd.c:137-172 | else, and without memory for a node, the request is refused and only compaction has happened |
| OsdLaws.AllocateKeeps | driver/tl880osd.c:106-173 | a request for at least one byte keeps tiling, positive sizes, the constant phys - virt, zero offsets of free blocks and aligned addresses inside their blocks |
| OsdLaws.AllocateIsComplete | driver/tl880osd.c:106-173 | barring kmalloc failure, a request is refused exactly when no size + align - 1 free bytes lie in a row, however they are spread over blocks |
| OsdLaws.RefusalOnlyCompacts | driver/tl880osd.c:161-172 | a refused request has only compacted the list |
| OsdLaws.NoNodeNoSplit | driver/tl880osd.c:137-143 | without memory for a list node only an exact fit is served |
| OsdLaws.AllFreeIsOneBlock | driver/tl880osd.c:18-39 | a list without active blocks compacts to the one original block |
| OsdLaws.FindsOwner | driver/tl880osd.c:198-211 | the walk by address reaches the block whose address it is |
| OsdLaws.DeallocateUndoesAllocate | driver/tl880osd.c:18-214 | allocate, deallocate the returned address, compact: the compacted list is back, addresses, sizes, flags and ids included |
| OsdLaws.MergesBack | driver/tl880osd.c:18-39 | cutting a free block of a compacted list in two changes nothing once compacted |
| OsdLaws.NothingBeforeInit | driver/tl880osd.c:106-214 | before init_osdmem has run the list is empty: every request is refused, also one for 0 bytes, and nothing can be given back or looked up |
| OsdRuns.InitIsSound | driver/tl880osd.c:41-103 | the initial list satisfies the invariant of all runs |
| OsdRuns.StepKeepsInv | driver/tl880osd.c:18-214 | any request for at least one byte, any deallocation of any address and any compaction keep the invariant |
| OsdRuns.RunKeepsInv | driver/tl880osd.c:18-214 | in every run the blocks tile the initial region, and active blocks and live requests correspond, each request inside its block at an address aligned as asked |
| OsdRuns.LiveRequestInside | driver/tl880osd.c:106-173 | every live request's bytes lie in the region and in the block that answers it, aligned as asked |
| OsdRuns.LiveRequestsAreApart | driver/tl880osd.c:106-173 | live requests' bytes never overlap |
| OsdRuns.SoundIff | driver/tl880osd.c:41-173 | for every alignment: requests keep every reachable list sound exactly when they ask for at least one byte, or the region has no run of align - 1 bytes that ends at an aligned address |
| OsdRuns.SoundIffSizePositive | driver/tl880osd.c:41-173 | for alignments 2^k up to 2^23, requests keep every list reachable from init_osdmem sound if and only if they ask for at least one byte |
| OsdRuns.EmptyRequestBreaks | driver/tl880osd.c:41-173 | the run from init_osdmem after which a request for 0 bytes breaks the list: none, or one request that leaves a free block just behind an aligned address |
| OsdAsWritten.EndsIff | driver/tl880osd.c:136-159 | the split loop as written ends only on an empty list, or when kmalloc fails for a first block that is free and large enough |
| OsdAsWritten.StaysInLoop | driver/tl880osd.c:136-159 | otherwise it turns for ever, and after the first turn changes nothing more |
| OsdAsWritten.CallReturnsIff | driver/tl880osd.c:106-173 | the whole call as written returns exactly when the compacted list has an exact fit, or is empty, or begins with a free larger block while kmalloc fails |
| OsdAsWritten.CallsReturnBeforeInit | driver/tl880osd.c:106-173 | before init_osdmem has run every call returns |
| OsdAsWritten.FirstCallReturnsIff | driver/tl880osd.c:41-173 | on the list init_osdmem makes: only a request for the whole region, or a smaller one when kmalloc fails |
| OsdAsWritten.FirstCursorHangs | driver/tl880cursor.c:60 | so once init_osdmem has run the first cursor's request never returns |
| Cursors.CursorList.Create | driver/tl880cursor.c:17-74 | checks, allocation, card address and listing; a failed creation returns null |
| Cursors.CursorList.Claim | driver/tl880cursor.c:60-69 | the block for a cursor and its card address, given back when the card address is not found |
| Cursors.CursorList.Add | driver/tl880cursor.c:102-110 | the new surface becomes the head |
| Cursors.CursorList.Delete | driver/tl880cursor.c:112-145 | unlinks exactly this surface and gives its block back; a surface that is not listed changes nothing |
| Cursors.CursorList.DeleteAll | driver/tl880cursor.c:147-156 | deleting heads until none is left ends with an empty list |
| Cursors.CursorList.Find | driver/tl880cursor.c:158-173 | the first cursor with this handle, or null |
| CursorSpec.CursorsMatchBlocks | driver/tl880cursor.c:17-156 | listed cursors and active blocks are in bijection, each block with room for the cursor image, each cursor at a multiple of 0x10 |
| CursorSpec.HandedOut | driver/tl880osd.c:175-196 | an address just allocated is found by get_osdmem_offset, at the constant distance phys - virt |
| CursorSpec.OffsetOfNone | driver/tl880osd.c:175-196 | an address that is no active block's, given back or never handed out, is not found |
| CursorSpec.StepKeepsCursors | driver/tl880cursor.c:17-156 | every creation, deletion and list deletion keeps the bijection and each card address |
| CursorSpec.RunKeepsCursors | driver/tl880cursor.c:17-156 | so does every run |
| CursorSpec.FailureLeaksNothing | driver/tl880cursor.c:60-69 | a failed creation leaves cursors, active blocks and free bytes as they were |
| CursorSpec.CreatesUnlessRefused | driver/tl880cursor.c:17-74 | creation succeeds exactly when the description is acceptable and no allocation is refused |
| CursorSpec.MadeAsDescribed | driver/tl880cursor.c:40-74 | a new cursor is the list's head and carries the description's sizes, scales (4 as 0) and handle, the next id, its overlay address and the card address at the constant distance; a search for the handle finds it and the other cursors stay |
| CursorSpec.CreatesIffRoom | driver/tl880cursor.c:17-74 | with memory for its records, exactly when the description is 0x1c bytes of a 32 by 32 cursor with scale 1 to 4 and overlay memory has 0x20f free bytes in a row |
| CursorSpec.DeleteAllRestores | driver/tl880cursor.c:147-156 | deleting the list and compacting leaves the one original free block |
| CursorSpec.BeginIsSound | driver/tl880osd.c:41-103 | no cursor over the list init_osdmem makes satisfies the invariant of all cursor runs |
| CursorSpec.EveryRunCanBeUndone | driver/tl880cursor.c:17-156 | once init_osdmem has run, after any run of cursors, deleting the cursor list and compacting gives that list back |
| CursorSpec.NoCursorsBeforeInit | driver/tl880cursor.c:17-156 | before init_osdmem has run, no run makes a cursor or changes overlay memory |
| Interrupts.Card.Irq | driver/tl880int.c:357-511 | the new state of registers 0 and 4, int_type, int_mask, counter and tasklet in all four outcomes; outside the unreachable one the only registers written are 4 and those of the VPIP handler, with their exact values; the APU bit is left exactly when it fired and 0x3018 & 0x3014 & 1 is set, the BLT bit when it fired and 0x4014 & 0x4010 & 0x10 is |
| Interrupts.Card.constructor | driver/tl880int.c:357-511 | a new card has nothing in flight and satisfies the invariant, whatever its registers hold |
| Interrupts.Card.Serve | driver/tl880int.c:397-510 | an interrupt of this card: sources, mask, counter, tasklet and registers after the sub-handlers |
| Interrupts.Card.VpipInt | driver/tl880int.c:79-92 | the handler runs exactly when VPIP fired and registers 0x7008 and 0x7004 ask for it |
| Interrupts.Card.VpipHandler | driver/tl880int.c:24-75 | the words and counters it leaves, and its register writes in order |
| Vpip.OnlyVpipWords | driver/tl880int.c:24-75 | it writes registers 0x7000, 0x701c and 0x702c and no other |
| Vpip.CallWrites | driver/tl880int.c:35-74 | the register writes of each call, in order: two for a row, five for a field with 0x702c strobed by 0x80000000 and 0, none for an idle call |
| Vpip.RowShows | driver/tl880int.c:36-37 | a row leaves 0x3d in bits 21 to 16 of 0x7000 and 0x92 in 0x701c, and every other bit alone |
| Vpip.FlipShows | driver/tl880int.c:50-61 | a field turns over bit 22 of 0x7000, leaves 0x702c at 0 and every other bit alone |
| Vpip.CountersCycle | driver/tl880int.c:26-74 | its counters after any number of calls: 16 rows, one field, then 15 rows and an idle call in turn |
| Vpip.FieldFlipsOnce | driver/tl880int.c:42-62 | the field bit, 0x7000 bit 0x16, is turned over by the seventeenth call and by no other, ever |
| Interrupts.Card.Dispatch | driver/tl880int.c:409-500 | which sources are left for the bottom half, and the mask they leave |
| Interrupts.Card.Bh | driver/tl880int.c:233-352 | ends with int_type 0 and register 4 equal to int_mask, and moves the audio trigger exactly when the audio source was left |
| Interrupts.Card.DisableInterrupts | driver/tl880int.c:513-529 | saves register 4, clears the mask in the register and in int_mask, and zeroes seven registers and no other word |
| Interrupts.AllOffAt | driver/tl880int.c:513-529 | which seven registers those are |
| Interrupts.Card.NtscAudioDpc | driver/tl880audio.c:328-349 | the trigger position alternates between the buffer's start and its middle |
| Interrupts.LeftHasNoVideo | driver/tl880int.c:79-92 | bits 0x80 and 0x8 never reach the bottom half |
| Interrupts.LeftIs | driver/tl880int.c:409-475 | what is left is the fired sources without 0x88, without bit 0x1 unless APU asks and without bit 0x2 unless BLT does |
| Interrupts.KeepIs | driver/tl880int.c:495-500 | the mask to restore loses 0x824 exactly when one of these three sources fired |
| Interrupts.VideoAsks | driver/tl880int.c:79-92 | the VPIP handler runs exactly when source 0x80 fired and 0x7008 & 0x7004 & 1 is set |
| Interrupts.WaitsForTasklet | driver/tl880int.c:371-511 | what is in flight stays in int_type with the tasklet scheduled, whatever happens, until the bottom half runs |
| Interrupts.AudioIsServed | driver/tl880int.c:188-203 | an own audio interrupt whose registers ask for it always reaches the bottom half, which whenever it runs moves 0x3030 to the middle or back to the start; one whose registers do not ask never moves it |
| Interrupts.KeepDependsOnFired | driver/tl880int.c:495-506 | the mask loses 0x824 exactly when an unknown source fired, and such a source always gets a bottom half |
| Interrupts.StepKeepsInv | driver/tl880int.c:233-529 | int_type is nonzero exactly while the tasklet is pending, and then register 4 is 0; turning interrupts off at any time, on removal say, keeps it so |
| Interrupts.NeverBusy | driver/tl880int.c:388-394 | in every run, foreign interrupts and turning interrupts off included, the already-handling branch is unreachable |
| Interrupts.NeverBusyFromStart | driver/tl880int.c:388-394 | in particular from a new card on |
| Interrupts.MaskStep | driver/tl880int.c:371-508 | what one step does to the mask in force and to the counter |
| Interrupts.MaskAfterRun | driver/tl880int.c:233-529 | exactly what a run does to the mask: 0 after any foreign interrupt or turning off, else less 0x824 if an unknown source fired; each own interrupt counted once |
| Interrupts.DeafForEver | driver/tl880int.c:374-385 | once the mask in force is 0 no interrupt is served again until somebody sets it |
| Interrupts.MaskIsRestored | driver/tl880int.c:371-529 | register 4 is restored, less unknown sources, exactly when no foreign interrupt came by and nobody turned interrupts off |
| Callbacks.CallbackList.Add | driver/tl880int.c:94-121 | appends at the tail; -1 and no change for a null function or no memory |
| Callbacks.CallbackList.Remove | driver/tl880int.c:123-153 | removes the first registration of the function and nothing else |
| Callbacks.CallbackList.Run | driver/tl880int.c:155-167 | calls every registration once, in list order |
| Callbacks.RemoveUndoesAddIff | driver/tl880int.c:94-153 | removing right after adding restores the list exactly when the function was new, or from its first registration on the list held only the same registration |
| Bits.SetBitsIsExact | driver/tl880util.c:19-30 | no bit outside the field changes, and inside stands the value moved up |
| Bits.GetBitsByMask | driver/tl880reg.c:40-46 | reading a field looks at no bit outside it |
| Bits.FieldReadsBack | driver/tl880util.c:19-30 | a field reads back as the value written, cut to its width |
| Bits.FieldsApart | driver/tl880util.c:19-30 | writing a field leaves every field apart from it as it was |
| Registers.RegisterFile.Write | driver/tl880reg.c:16-25 | one word changes; beyond the window nothing happens |
| Registers.RegisterFile.Read | driver/tl880reg.c:27-38 | the word, or all ones beyond the window |
| Registers.RegisterFile.ReadBits | driver/tl880reg.c:40-46 | the field of the word, or of all ones beyond the window |
| Registers.RegisterFile.WriteBits | driver/tl880reg.c:48-59 | one word changes, and only in the field; beyond the window nothing does |
| Writes.LastWriteHolds | driver/tl880reg.c:16-25 | after a series of writes a register holds the last value written to it |
| Writes.UnwrittenStays | driver/tl880reg.c:16-25 | a register not written in the series keeps its value |
| Cast.NumberReadsBack | driver/tl880reg.c:16-38 | a number below 2^32 survives being stored in a register and read again |
| Cast.SumOfWords | driver/tl880audio.c:342 | adding words adds the numbers they stand for while they fit |
| Cast.HalfOfWord | driver/tl880audio.c:342 | halving a word halves its number |
| Lines.BitAfter | driver/tl880reg.c:48-59 | after any list of single-bit writes each bit holds the last value assigned to it |
| Lines.SeenOnTheWay | driver/tl880reg.c:48-59 | after the first k writes of a routine's trace the card holds what the first k assignments leave: laws about moments on the way hold of the routines that perform them |
| Gpio.Board.SetGpio | driver/tl880gpio.c:29-273 | for Janus, MDP-100A, MDP-100 and MDP-110 the exact single-bit writes, in order, in the trace as in what they leave; 1 is returned and other card types change nothing |
| Gpio.Board.SetJanus | driver/tl880gpio.c:41-128 | the Janus branch |
| Gpio.Board.SetMdp100A | driver/tl880gpio.c:129-190 | the MDP-100A branch |
| Gpio.Board.SetMdp110 | driver/tl880gpio.c:191-273 | the branch of the MDP-100 and MDP-110 |
| Gpio.Board.SetTriState | driver/tl880gpio.c:91-124 | a line driven low, driven high or not driven |
| Gpio.Board.SetSampleRate | driver/tl880audio.c:527-568 | eight rates are accepted, each as a pair of line states; others change nothing |
| Gpio.OnlyGpioBits | driver/tl880gpio.c:29-273 | whatever the card, line and state, only bits 8 to 15 of registers 0x10194 and 0x10198 are written |
| Gpio.TriStateShows | driver/tl880gpio.c:241-272 | a three-state line shows the state it was given, whatever the registers held, a stale output bit included |
| Gpio.LevelIs | driver/tl880gpio.c:91-124 | a pin floats unless its bit of 0x10194 is set, and else shows its bit of 0x10198 |
| Gpio.RateShows | driver/tl880audio.c:527-568 | from any register contents, on Janus, MDP-100 and MDP-110, lines 8 and 9 decode back to exactly the rate asked for |
| Gpio.RateLevels | driver/tl880audio.c:530-561 | which of the two pins, by number, is low, high or floating for each of the eight rates |
| Gpio.StatesDecode | driver/tl880audio.c:530-561 | the eight pairs of states are told apart |
| Gpio.RateIsLost | driver/tl880gpio.c:129-190 | on the MDP-100A and other types an accepted rate changes nothing |
| Gpio.PairEndsOpposite | driver/tl880gpio.c:47-90 | however lines 1 to 4 of the Janus are set, the line's own pin ends at the state's lowest bit and the other pin of the pair at its opposite; lines 1 and 2 of the MDP-100A are the same |
| Gpio.JanusEnds | driver/tl880gpio.c:41-128 | every output and direction bit after any line of the Janus is set to any state |
| Gpio.Mdp100AEnds | driver/tl880gpio.c:129-190 | the same for the MDP-100A |
| Gpio.Mdp110Ends | driver/tl880gpio.c:191-273 | every output bit after any line of the MDP-100 or MDP-110 is set to any state |
| Gpio.Mdp110Drives | driver/tl880gpio.c:191-273 | and every direction bit: line 6 drives its pin, lines 8 and 9 drive theirs for states 0 and 1 alone |
| Gpio.BreaksBeforeMakesIff | driver/tl880gpio.c:47-68 | lines 1 and 2: the pins are never both high on the way exactly for state 1 and even states |
| Gpio.MakesBeforeBreaksIff | driver/tl880gpio.c:69-90 | lines 3 and 4: the pins are never both low on the way exactly for those states, and never both high exactly for the others |
| Gpio.NeverBothIff | driver/tl880gpio.c:47-90 | for each of the four lines and each level, exactly when both pins keep clear of that level on the way |
| I2c.Bus.SetSclLine | driver/tl880i2c.c:34-81 | the register writes of each wiring, in order, in the trace and in what they leave |
| I2c.Bus.SetSdaLine | driver/tl880i2c.c:83-128 | the register writes of each wiring, in order, in the trace and in what they leave |
| I2c.Bus.GetSclLine | driver/tl880i2c.c:130-175 | stops driving the line where the wiring does, then reads it; which pin, by number |
| I2c.Bus.GetSdaLine | driver/tl880i2c.c:177-221 | stops driving the line where the wiring does, then reads it; which pin, by number |
| I2c.SclShows | driver/tl880i2c.c:34-81 | from any register contents, clock low drives its pin low on every bus; clock high leaves it floating on buses 0 and 2 and drives it high on 1, 3, 4 and 5 |
| I2c.SdaShows | driver/tl880i2c.c:83-128 | the same for the data line on the pin it is written to; on bus 1 only that pin's output bit follows |
| I2c.GetsFloat | driver/tl880i2c.c:130-221 | after a line is read its pin floats, but on bus 1, and for data on bus 3, nothing is written |
| I2c.SclAlone | driver/tl880i2c.c:34-81 | setting the clock changes no bit of any other pin, the bus's data line included |
| I2c.SdaAlone | driver/tl880i2c.c:83-128 | setting the data line changes no bit of any other pin, the clock included |
| I2c.StaysOnBus | driver/tl880i2c.c:34-221 | an operation writes only direction and output bits of its own bus's pins, a GPIO call none of any bus |
| I2c.OthersAreInvisible | driver/tl880i2c.c:34-221 | an operation on another bus, or a GPIO call, leaves the direction and output bits of all this bus's pins, those it only reads included, as they were |
| I2c.BusesDoNotInterfere | driver/tl880i2c.c:34-221 | in any interleaving each of those bits ends as if only that bus's own operations had happened |
| I2c.IndependentIff | driver/tl880i2c.c:34-221 | two different buses are independent exactly when they are not both among 0, 4 and 5 |
| I2c.InitClears | driver/tl880i2c.c:515-516 | initialisation clears the output bits of buses 0 and 2, whatever they were |
| I2c.NeverDrivenHigh | driver/tl880i2c.c:34-221 | once the MDP-110 is initialised no run of I2C and GPIO calls drives a line of bus 0 or 2 high |
| Mode.SetMode | driver/tl880dpc.c:90-159 | exactly nine register writes in this order, from a saved and restored display register, and nothing else |
| Mode.SendTiming | driver/tl880dpc.c:104-156 | the six packed words and register 0x5800 |
| Mode.Add | driver/tl880dpc.c:105-114 | one set_bits call adds one part to a word under construction |
| Mode.Pack14 | driver/tl880dpc.c:104-114 | ten fields set one after the other |
| Mode.Pack18 | driver/tl880dpc.c:117-123 | five fields set one after the other |
| Mode.Pack1c | driver/tl880dpc.c:126-132 | five fields set one after the other |
| Mode.Pack20 | driver/tl880dpc.c:135-140 | four fields set one after the other |
| Mode.Pack28 | driver/tl880dpc.c:143-146 | two fields set one after the other |
| Mode.Pack24 | driver/tl880dpc.c:149-153 | three fields set one after the other |
| Mode.PartReadsBack | driver/tl880util.c:19-30 | every field of a word built from fitting, ascending parts reads back as the part put there |
| Mode.BlankedWhileChanging | driver/tl880dpc.c:101-158 | at every timing write the display register holds 0x80, and in the end its old value |
| Mode.NineWrites | driver/tl880dpc.c:101-158 | the nine registers written, in order, with the two values of the display register |
| Mode.ModeReadsBack | driver/tl880dpc.c:90-159 | from any register contents every field of the mode, by name, stands at its bit positions in its register |
| Mode.ModeIsRecoverable | driver/tl880dpc.c:90-159 | no two modes leave the same registers, whatever was there before |
| Mode.OthersUntouched | driver/tl880dpc.c:90-159 | every register outside the eight keeps its value |
| Scaler.ScalerWord | tl880fb/tl880fb.c:703-709 | for any lengths the word is three non-overlapping fields: the quotient's low byte and the two error terms modulo 4096 |
| Scaler.SetHorizontal | tl880fb/tl880fb.c:703-712 | the two registers written |
| Scaler.SetVerticalWord | tl880fb/tl880fb.c:714-722 | the same word for the height, at 0x100cc |
| Scaler.FieldsReadBack | tl880fb/tl880fb.c:707-709 | the three fields are told apart in the word |
| Scaler.ExactFields | tl880fb/tl880fb.c:707-709 | for a < width < 4096 they are 256a div width, width - r and -r mod 4096, with r the remainder |
| Scaler.WordIsExact | tl880fb/tl880fb.c:707-710 | the register word as a number: -r mod 4096 above bit 20, width - r above bit 8, the quotient below |
| Scaler.OriginIsIff | tl880fb/tl880fb.c:711 | register 0x100d0 gets 0x75a6b3 - 2a exactly when a is at most 0x359; beyond that the subtraction wraps |
| Scaler.QuotientKeptIff | tl880fb/tl880fb.c:709 | the low byte is the whole quotient exactly when a < width |
| Scaler.SourceIsRecoverable | tl880fb/tl880fb.c:703-712 | a can be computed from the register word and width |
| Scaler.NoDrift | tl880fb/tl880fb.c:707-709 | an accumulator driven by the fields stands at floor(256 a n / width) after any n steps |
| Crc.TableEntry | driver/tl880demux.c:142-151 | the inner loop gives the bit-serial remainder of its byte |
| Crc.BuildTable | driver/tl880demux.c:141-152 | the loops fill all 256 entries |
| CrcLaws.StepLinear | driver/tl880demux.c:143-148 | one step of the register is linear over xor |
| CrcLaws.TableIsLinear | driver/tl880demux.c:141-152 | the entry of the xor of two bytes is the xor of their entries |
| CrcLaws.ByteIsSerial | driver/tl880demux.c:141-152 | one table lookup does the work of eight steps |
| CrcLaws.TableIsSerial | driver/tl880demux.c:141-152 | over any message, from any register, the byte-wise table-driven CRC is the bit-serial one of the decoder model in ISO/IEC 13818-1, Annex A |
| CrcLaws.CrcCloses | driver/tl880demux.c:141-152 | a message followed by 32 bits leaves zero exactly when they are its CRC |
| CrcLaws.BurstsAreSeen | driver/tl880demux.c:141-152 | messages that differ only within 32 neighbouring bits have different CRCs |
| CrcPolynomial.RegisterDivides | driver/tl880demux.c:143-148 | the feedback bits are the quotient and the register the remainder of m x^32 by the generator |
| CrcPolynomial.RemainderIsUnique | driver/tl880demux.c:143-148 | quotient and remainder are the only ones |
| CrcPolynomial.GeneratorTerms | driver/tl880demux.c:148 | the generator has exactly the terms 32, 26, 23, 22, 16, 12, 11, 10, 8, 7, 5, 4, 2, 1 and 0 |
| CrcPolynomial.CrcIsTheRemainder | driver/tl880demux.c:143-148 | a word is the CRC of a message exactly when it is that remainder |
| CrcWide.TableEntryWide | driver/tl880demux.c:142-151 | the same inner loop on a 64-bit crcval |
| CrcWide.RightWithinLimit | driver/tl880demux.c:142-151 | while crcval stays below 2^32 its low half is right |
| CrcWide.WideIsRightIff | driver/tl880demux.c:142-151 | with 64-bit longs a stored entry is right except exactly where bit 7 of the index is set and bits 6 and 0 are alike |
| CardMemory.CardMemory.Write | driver/tl880mem.c:32-38 | one word changes; beyond memory nothing happens |
| CardMemory.CardMemory.ClearSdram | driver/tl880mem.c:158-170 | exactly the words from start up to end take the value, as far as memory reaches |
| CardMemory.CardMemory.Memcpy | driver/tl880mem.c:74-89 | exactly the words of the copy that lie in memory change |
| CardMemory.ClearedIs | driver/tl880mem.c:158-170 | each word of the range holds the value, each other word is as before |
| CardMemory.CopiedIs | driver/tl880mem.c:74-89 | word i of the source stands i words from the address, each word outside is as before |
| CardMemory.Device.InitMemory | driver/tl880mem.c:177-201 | the four outcomes; after success the pool is one clear chunk at 0x100000 of memlen - 0x11000 bytes in granules of 64, after a failed add there is no pool and no BUG_ON fired |
| CardMemory.Device.DeinitMemory | driver/tl880mem.c:206-216 | the pool goes, and the BUG_ON fires exactly when something is still allocated |
| CardMemory.Device.AllocMemory | driver/tl880mem.c:224-231 | the pool's allocation, or 0 without a pool |
| CardMemory.Device.FreeMemory | driver/tl880mem.c:236-243 | the pool's free, or nothing without a pool |
| Alsa.Pcm.Prepare | driver/alsa/tl880alsa.c:187-219 | the ring is cleared, both positions are set, and the five ring registers are written in order |
| Alsa.Pcm.Trigger | driver/alsa/tl880alsa.c:145-185 | the enable bit, timer, position and ring after each command, starting falling through to resuming; an unknown command changes nothing and returns 0 too |
| Alsa.CommandSets | driver/alsa/tl880alsa.c:158-182 | starting, resuming and releasing a pause set bit 0 of 0x3004, stopping, suspending and pausing clear it, and no other bit of any register changes but 0x302c, rewound by starting |
| Alsa.SetUpLands | driver/alsa/tl880alsa.c:210-216 | what the five ring registers hold after prepare, as numbers, and their order |
| Alsa.Pcm.TimerFunction | driver/alsa/tl880alsa.c:226-283 | the new positions and whether a period is reported, for any hardware position; only register 0x3030 is written |
| Alsa.Pcm.Copy | driver/alsa/tl880alsa.c:496-540 | the frames land at the ring's base plus four bytes a frame, cut at the end of memory |
| Alsa.Pcm.Silence | driver/alsa/tl880alsa.c:542-573 | those words are cleared |
| AlsaSpec.TickMoves | driver/alsa/tl880alsa.c:250-275 | one tick moves both positions on by a period, wrapped, exactly when it reports one |
| AlsaSpec.NextReportIff | driver/alsa/tl880alsa.c:250-251 | with any number of periods, after any ticks of which k reported, the next tick reports exactly when playback is beyond period k mod (count-1) or further back than the tick before found it |
| AlsaSpec.LastPeriodReports | driver/alsa/tl880alsa.c:250-275 | so every tick that finds playback in the last period reports, whether or not a period has passed |
| AlsaSpec.PositionsAfterReports | driver/alsa/tl880alsa.c:226-283 | for any hardware positions, while only the timer writes register 0x3030, after k reports the interrupt position is base + ((k+1) mod count) periods and buffer_pos base + (k mod (count-1)) periods |
| AlsaSpec.PreparedInStep | driver/alsa/tl880alsa.c:200-216 | prepare leaves the positions of k = 0 |
| AlsaSpec.PositionsStayInside | driver/alsa/tl880alsa.c:262-273 | both positions stay inside the ring |
| AlsaSpec.TwoPeriodReports | driver/alsa/tl880alsa.c:250-275 | with two periods, for any positions, the reports are as many as the positions beyond the first period plus the drops within it |
| AlsaSpec.ReportsAreRightIff | driver/alsa/tl880alsa.c:250-275 | with two periods there are at least as many reports as ticks that find playback in the other period than the tick before, and exactly as many if and only if no two ticks running find it in the second period and none finds it further back within the first |
| AlsaSpec.StandingStillReports | driver/alsa/tl880alsa.c:250-275 | in particular a position at rest is reported at every tick if it is in the second period, else never |
| AlsaSpec.AudioLeavesReports | driver/tl880audio.c:328-349 | audio bottom halves between the ticks change neither the reports nor buffer_pos |
| AlsaSpec.BufferPosAfterReports | driver/alsa/tl880alsa.c:226-283 | so the position of buffer_pos after k reports holds in any interleaving |
| AlsaSpec.AudioKeepsStepIff | driver/tl880audio.c:328-349 | a bottom half leaves the interrupt position in place exactly at the buffer's start of a buffer shorter than 0x22 bytes: with any real buffer it moves it |
| AlsaSpec.InterruptPosStaysInside | driver/tl880audio.c:328-349 | in any interleaving the interrupt position stays inside the buffer |
| Alsa.AudioBottomHalf | driver/tl880audio.c:328-349 | what the bottom half writes, on the registers prepare has set, is the turn those results are about |
| AlsaRuns.InitialInv | driver/tl880mem.c:177-201 | the driver's own start satisfies the invariant of combined runs |
| AlsaRuns.StepKeepsInv | driver/alsa/tl880alsa.c:145-573 | playback and pool calls in any order keep it |
| AlsaRuns.ExtentsStartAbove | driver/tl880mem.c:191-193 | every live extent starts at or above 0x100000 |
| AlsaRuns.StepStaysHome | driver/alsa/tl880alsa.c:145-573 | playback changes only words in [0x1000, 0x81000), pool users none there |
| AlsaRuns.StoresAreApart | driver/tl880mem.c:224-243 | a store through one live extent changes no word of another |
| AlsaRuns.SidesDoNotInterfere | driver/alsa/tl880alsa.c:145-573 | in any interleaving each side ends with the memory and books it would have if the other had never run |
| Sharing.ExtentsEnd | driver/tl880mem.c:191-193 | in every run pool extents end at least two granules before the pool's range does |
| Sharing.CanRunPastIff | driver/tl880mem.c:191-193 | some run hands out bytes past the end of memory exactly when the pool can hand out anything, that is when memlen is at least 0x110c0 |
| Sharing.RequestsStartAbove | driver/tl880osd.c:97-101 | in every run overlay requests lie at or above the region's start |
| Sharing.CanShareIff | driver/tl880mem.c:177-201 | once init_osdmem has run, some run of the pool and some run of the overlay list hand out the same byte of card memory exactly when memlen is at least 0x970c0 |

## Left out

- Osd.OsdMemory.Init: no code of the repository calls tl880_init_osdmem; the runs of overlay memory and cursors start where it has been called, and what happens before that is stated separately.
- Osd.OsdMemory.Allocate: the larger-fit search follows the evident intent described above, as the written loop never serves such a request; `OsdAsWritten` has the loop as written.
- Osd.OsdMemory.SplitNode: the same.
- Osd.OsdMemory.Serve: the same; and the counting of active and inactive bytes before an out-of-memory message, and an alignment of 0.
- Pool.GenPool.Free: a run that does not lie in the bitmap, which the source would clear past its end, is excluded; every live extent satisfies this.
- Registers.RegisterFile.Write: registers that are not multiples of four.
- Registers.RegisterFile.Read: registers that are not multiples of four.
- Registers.RegisterFile.ReadBits: registers that are not multiples of four, and fields 32 bits wide, for which the C shift is undefined.
- Registers.RegisterFile.WriteBits: the same.
- Bits.SetBitsIsExact: fields 32 bits wide, for which the C shift is undefined.
- CardMemory.CardMemory.Write: addresses that are not multiples of four, and a write at exactly memlen, one word past the end, which the guard lets through; no modelled caller makes one, and pool users are held to it.
- CardMemory.CardMemory.ClearSdram: start addresses that are not multiples of four; no caller passes one.
- CardMemory.CardMemory.Memcpy: copies whose address or length is not a multiple of four; playback frames always are four bytes.
- CardMemory.Device.FreeMemory: a run that does not lie in the pool's bitmap, as for Pool.GenPool.Free.
- CardMemory.Device.InitMemory: memory smaller than 0x11000 bytes, where the source's subtraction wraps. That the chunk runs past the end of memory is modelled, and `Sharing.CanRunPastIff` says when extents do.
- Interrupts.Card.Irq: debug counters, and registered callbacks, which are taken not to touch the modelled registers and fields. The DPC sub-handler writes no register. The VPIP handler's counters are static in the source, shared by all cards; one card is modelled.
- Gpio.Board.SetGpio: the MDP-120 and MDP-130, whose lines hang on the VPX chip, and the null check.
- I2c.NeverDrivenHigh: shown for the MDP-110 and its buses 0 to 2; the transfers themselves are in a library that is not part of this model.
- Scaler.SetVerticalWord: the poll of register 0x100c0 and the writes after it, which depend on the device.
- Scaler.NoDrift: that the hardware uses the fields as this accumulator does is inferred from their values.
- Crc.BuildTable: the source fills the table and never reads it; the table-driven CRC in `CrcLaws` is the algorithm such a table is for.
- Alsa.Pcm.TimerFunction: unsigned wrap-around of positions, which the declared buffer limits exclude.
- Callbacks.CallbackList.Run: callbacks that change the list while it runs.
- tl880alsa hw_params, open, close and pointer: the same register writes as prepare, or plumbing.
- Locks and SMP detail: every allocator call and every handler half is atomic; foreign top halves may come between steps.
- PCI probing, ioctl, mmap, character devices, /proc and module initialisation: kernel plumbing.
- Busy waits on hardware, DMA descriptors, VPX and MSP chip programming, and the byte-swapping copies, which index their source by card address.
- Initialisation tables, PLL constants and channel tables: finite and easy members.
- The programs under tools/.
