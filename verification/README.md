# Three cores of an operating-systems course repository, modelled and proved

The repository holds three independent stateful programs. Each is modelled here in its own form, as classes and
arrays that methods update step by step, next to a simple specification that it is proved against.

**The SLOB best-fit heap allocator** (`Slob*.dfy`). A page is an array of 16-bit cells. A free block of more than one
unit keeps its size and the offset of its successor in its first two cells, a block of one unit keeps the negated
offset. `SlobPage.Page` performs the header writes cell by cell; `Page.FreeList()` decodes the in-band list, and
`Page.Valid()` says that the decoded list is in the page, ascending, never adjacent, ends at the page end, sums up to
`units`, and that free blocks and live objects together make up the page. `SlobHeap.Heap` adds the three page lists and
the counters, `SlobKmalloc` the size header in front of an object. The specification is the bitmap of free units: two
valid lists that cover the same units are the same list. Sizes are in bytes, a unit is two bytes, page offsets are in
units; `n` is the number of units of a page, at most 16384 so that every header and every sum the scan forms fits the
16-bit cell type.

**The deduplicating block store under a FUSE file system** (`Dedup*.dfy`). A file is a list of block ids in text, a
ledger of 30-byte lines (id, hash, counter) counts the references to each 4096-byte block, a block file holds its
bytes. `DedupLedger` works on the ledger's bytes through a file cursor, `DedupStore` on its records, `DedupDisk` on
whole disks, `DedupExact` shows that their conditions are exact, `DedupRuns` states runs in terms of the plain map
alone, and `DedupFs.FileSystem` puts the layers together. The specification is a map from path to bytes. The hash is an
arbitrary function to 20 characters: collisions are not assumed away, they are part of the condition under which an
operation does its job.

**The CPU virtual machine with the SJF and goodness schedulers** (`Sched*.dfy`). `SchedRing.RunQueue` is the circular
doubly linked list headed by init, `SchedVm.Vm` the whole machine: the IO wait list, the process tree, both timers and
one iteration of the main loop as `Step`. `SchedAccounts` says how the time of a task on the processor is accounted for and
what the policies choose, `SchedDesk` what one iteration makes of the processor, the queues and the accounts, on values:
`Step` is proved to be `SchedDesk.Iterated`. `SchedCrash` is one run of the machine, from boot to the state before a null
link. The two scheduler variants are one
class with a `policy`. The values of `rand()` are parameters. Unsigned fields have their C widths; the clock must stay
within 64 bits.

## What turned out not to hold

- The page scan records a block's slack with the alignment shift added instead of subtracted, so for aligned requests it
  can pass over the tightest block. `SlobFit.AlignedBestFitFails` gives a page and a request, `SlobFit.UnalignedBestFit`
  proves best fit without alignment, and `SlobFit.LeastSlackChosenIff` says exactly when an aligned scan is best fit.
- `memory_free` loses what is left of the chosen block behind the object, or all that is left of a new page.
  `SlobHeap.Heap.SlobAlloc` states the exact error in every case; in `SlobHeap.MemoryFreeDrifts` it reads 0 after two
  allocations, with all but two units of a page free.
- The search for a free ledger record reads one column too far and sees the last digit of the counter only. A record
  with ten, twenty, ... references is taken over while files still refer to it (`DedupStore.ReferencedRecordTakenOver`).
  `DedupStore.PushIff` and `DedupExact.WriteIff` give the exact conditions under which a push and a whole write are right.
  `DedupRuns.TenReferencesLost` is a run into the failing case: write ten copies of one block, then another block, and all
  eleven blocks of the file read as the last one. `DedupRuns.RareRunRefines` is the guarantee a user has: runs after whose
  writes no block occurs more than nine times, with fewer than 999 different blocks and no hash collision among them,
  behave like the plain map.
- A read that starts behind the beginning of a file and runs past its end repeats the last block. `DedupDisk.ReadIff` is
  exact, `DedupDisk.ReadIs` says what such a read returns, and `DedupRuns.LastBlockRepeated` is one at the end of a run.
- When init ends in the very cycle in which the IO timer runs out, `schedule()` is called on an empty run queue and
  follows init's null link. `SchedVm.Vm.Step` returns `Crash` in exactly that case, and `SchedCrash.CrashRun` is a run from
  boot that brings a machine with one child into it.
- The execution time in the results is not a task's time on the processor. `SchedVm.Vm.Step` keeps an account for every
  task alive: its time on the processor is what it was charged, what was lost, and the stretch under way. A line reports
  what was charged, which is all of it exactly if nothing was lost and the task got the processor at the very time it
  ended (`SchedVm.Vm.Reported`, part of the contract of `Step`). `SchedAccounts.LostIff` says when `schedule()` loses a
  stretch: when it finds at most one task ready, or after 2^32 nanoseconds. The child of `SchedCrash.CrashRun` has the
  processor for 50 ms, all its life, and is reported with no execution time and 50 ms of waiting.

## Model

| member | source | states |
|---|---|---|
| SlobBlocks.HeaderReadsBack | hw3/hw3_kernel_files/slob.c:159-194 | what set_slob encodes, slob_units and slob_next decode, for blocks of one unit and of more |
| SlobBlocks.DecodeLinked | hw3/hw3_kernel_files/slob.c:184-202 | a walk over the in-band headers from the first block yields exactly the linked list, ending at the page end |
| SlobBlocks.SameBitmapSameList | hw3/hw3_kernel_files/slob.c:720-746 | the free list is determined by the bitmap of free units: it is its only decomposition into separated runs |
| SlobBlocks.SumLenIsFreeCount | hw3/hw3_kernel_files/slob.c:339-346 | the block sizes add up to the number of free units in the bitmap |
| SlobFit.ChoiceFindsAFit | hw3/hw3_kernel_files/slob.c:277-312 | the scan of a page fails only if no block of it can hold the aligned object |
| SlobFit.ChoicePlaces | hw3/hw3_kernel_files/slob.c:283-321 | the object goes to the first aligned unit of its block, and no block is chosen iff none has an aligned unit with room for it |
| SlobFit.OneMoreBlock | hw3/hw3_kernel_files/slob.c:286-301 | one more block displaces the chosen one exactly if its slack is below what was recorded for that one; a recorded 0 ends the scan |
| SlobFit.NoBetterLater | hw3/hw3_kernel_files/slob.c:286-301 | for any alignment no block behind the chosen one has less slack |
| SlobFit.FirstExactFitChosen | hw3/hw3_kernel_files/slob.c:475-508 | the first unshifted exact fit is chosen whatever the alignment and whatever was found before it |
| SlobFit.SpaceMeaning | hw3/hw3_kernel_files/slob.c:449-509 | find_min_block answers 0 iff an unshifted exact fit exists, and a non-negative number iff slob_page_alloc will succeed |
| SlobFit.RecordedZero | hw3/hw3_kernel_files/slob.c:288-296 | the recorded slack is 0 exactly for an unshifted exact fit, so the early break is sound |
| SlobFit.UnalignedBestFit | hw3/hw3_kernel_files/slob.c:277-301 | without alignment the lowest-addressed block of least slack is chosen |
| SlobFit.AlignedBestFitFails | hw3/hw3_kernel_files/slob.c:286-291 | a page and an aligned request for which a block of larger slack is chosen |
| SlobFit.LeastSlackChosenIff | hw3/hw3_kernel_files/slob.c:286-301 | for any alignment, exactly when the chosen block has least slack |
| SlobList.InsertCovers | hw3/hw3_kernel_files/slob.c:718-746 | freeing adds the object's units to the bitmap and no others |
| SlobList.InsertSpaced | hw3/hw3_kernel_files/slob.c:718-746 | freeing keeps the list ascending, in the page and without adjacent blocks, in all four coalescing cases |
| SlobList.CarveCovers | hw3/hw3_kernel_files/slob.c:319-349 | allocating removes the object's units from the bitmap and no others, with or without an alignment gap |
| SlobList.CarveThenInsert | hw3/hw3_kernel_files/slob.c:319-349 | allocating an object and freeing it again restores the exact free list |
| SlobList.FreeOrderIrrelevant | hw3/hw3_kernel_files/slob.c:666-749 | freeing a set of objects gives the same list in every order |
| SlobObjects.PartitionAfterCarve | hw3/hw3_kernel_files/slob.c:319-349 | after an allocation live objects and free blocks still divide the page among them without overlap |
| SlobObjects.PartitionAfterInsert | hw3/hw3_kernel_files/slob.c:718-746 | the same after a free |
| SlobObjects.UnitsConserved | hw3/hw3_kernel_files/slob.c:347-349 | live and free units always add up to the page |
| SlobObjects.LastObjectIff | hw3/hw3_kernel_files/slob.c:684-692 | adding the freed units gives a full page of free units iff this was the last live object |
| SlobPage.SplitLinked | hw3/hw3_kernel_files/slob.c:324-331 | the two header writes of the alignment split leave a linked list, also when the gap is one unit and the writes overlap the old header |
| SlobPage.DetachLinked | hw3/hw3_kernel_files/slob.c:333-345 | taking units off the front of a block leaves a linked list, at the head of the list and behind another block, exact and with a rest |
| SlobPage.InsertLinked | hw3/hw3_kernel_files/slob.c:718-746 | the header writes of a free leave the linked list of the coalesced blocks, also when they overlap a neighbour's old header |
| SlobPage.InsertKeepsHeld | hw3/hw3_kernel_files/slob.c:718-746 | no header write of a free touches a cell of another live object |
| SlobPage.Page.SetSlob | hw3/hw3_kernel_files/slob.c:159-171 | the cells after encoding a header |
| SlobPage.ReadBlock | hw3/hw3_kernel_files/slob.c:174-202 | reading the header of a listed block gives its length, the start of the next block or the page end, and slob_last holds exactly for the last |
| SlobPage.Page.FindMinBlock | hw3/hw3_kernel_files/slob.c:449-509 | -1 iff no block has room behind an aligned unit of it, 0 iff an aligned block has exactly the size, otherwise the recorded slack of the very block slob_page_alloc would take |
| SlobPage.Page.SearchBest | hw3/hw3_kernel_files/slob.c:277-312 | the search loop finds the chosen block and its predecessor |
| SlobPage.Page.CarveBlock | hw3/hw3_kernel_files/slob.c:319-345 | the header writes leave the cells of the carved list and change no cell outside the old free blocks |
| SlobPage.Page.SlobPageAlloc | hw3/hw3_kernel_files/slob.c:251-352 | -1, with nothing changed, iff no block has room behind an aligned unit of it; otherwise the object is carved out of the chosen block at its lowest aligned unit; the page stays valid and every live object keeps its contents |
| SlobPage.Page.Locate | hw3/hw3_kernel_files/slob.c:727-733 | the walk stops between the last block below the freed object and the first above it |
| SlobPage.Page.Reinsert | hw3/hw3_kernel_files/slob.c:718-746 | keeps the page valid; the new list is the old one with the object inserted and coalesced both ways; other objects keep their contents |
| SlobPage.Page.MakePartial | hw3/hw3_kernel_files/slob.c:695-711 | a full page gets the freed object as its only free block |
| SlobPage.Page.MakeFree | hw3/hw3_kernel_files/slob.c:649-652 | a new page decodes to one free block of the whole page |
| SlobPage.Page.Store | hw3/hw3_kernel_files/slob.c:90-99 | writes of an object's owner never disturb the free list |
| SlobHeap.PrefilterHidesNothing | hw3/hw3_kernel_files/slob.c:600-602 | a page that the comparison of free units skips could not have served the request |
| SlobHeap.PickPage | hw3/hw3_kernel_files/slob.c:590-627 | the first listed page with an unshifted exact fit, otherwise the earliest of those with the fewest free units among the pages that can serve the request, none iff none can |
| SlobHeap.CarveLaws | hw3/hw3_kernel_files/slob.c:319-349 | what carving means for the list: still separated, the object taken, freeing undoes it, exactly its units left the bitmap |
| SlobHeap.AllocationLaws | hw3/hw3_kernel_files/slob.c:251-352 | an allocation's object is aligned and was free, and freeing it gives back the exact list |
| SlobHeap.Heap.PageAlloc | hw3/hw3_kernel_files/slob.c:347-349 | a page that has become full leaves its list and loses its flag |
| SlobHeap.Heap.TallyFree | hw3/hw3_kernel_files/slob.c:540-551 | memory_free starts as the free bytes of all listed pages |
| SlobHeap.Heap.FindPage | hw3/hw3_kernel_files/slob.c:540-622 | no page is found only if none on the request's list has room, and the one found is the best |
| SlobHeap.Heap.AllocListed | hw3/hw3_kernel_files/slob.c:538-636 | serves the request iff a page of its list has room, from the best page; memory_free then misses exactly the units of the chosen block behind the object |
| SlobHeap.Heap.FreshPageServes | hw3/hw3_kernel_files/slob.c:640-656 | on a fresh page no request of at most a page can fail, for any alignment that divides the page size, and it is served at offset 0 |
| SlobHeap.Heap.SlobAlloc | hw3/hw3_kernel_files/slob.c:513-660 | a new page is taken only when no page of the request's list has room; it joins the front of the list for sizes below 256, below 1024 or the rest, the other pages keep their order, and if it has room for the same request again the list has; flags, lists and memory_alloc stay exact; memory_free falls short by exactly the rest of the chosen block, or of the new page; all other pages and all live objects are untouched |
| SlobHeap.RemoveLeaves | hw3/hw3_kernel_files/slob.c:124-128 | taking a page off the lists leaves all other pages on theirs, in order |
| SlobHeap.MemoryFreeDrifts | hw3/hw3_kernel_files/slob.c:540-636 | from an empty heap, two objects of one unit leave memory_free at 0 with all but two units free |
| SlobHeap.Heap.SlobFree | hw3/hw3_kernel_files/slob.c:666-749 | the page goes back iff its last object went; otherwise its list gains exactly the object; a page that was full joins the front of the list for the size of the freed object, a page that goes back leaves its list, the others keep their order; all other pages and live objects are untouched |
| SlobHeap.Heap.StoreInto | hw3/hw3_kernel_files/slob.c:766-777 | a write into a live object keeps the whole heap valid |
| SlobKmalloc.WordReadsBack | hw3/hw3_kernel_files/slob.c:773-775 | the unsigned int written into two signed cells reads back |
| SlobKmalloc.Kmalloc | hw3/hw3_kernel_files/slob.c:756-793 | zero, sub-page and whole-page requests; a small object is on an 8-byte boundary, in the best listed page that has room for it and its header, in a new page only if none has, and NULL only if no page is granted then; a large one gets the least power-of-two pages; the object records its size; every earlier object is still live and keeps every cell |
| SlobKmalloc.PagesDoubled | hw3/hw3_kernel_files/slob.c:780-783 | a whole-page request gets the page size doubled until it fits, and no more |
| SlobKmalloc.Kfree | hw3/hw3_kernel_files/slob.c:815-831 | the header gives slob_free the units the object was allocated with, and its page goes back, or joins or stays on its list accordingly; every other object stays live and keeps every cell |
| SlobKmalloc.Ksize | hw3/hw3_kernel_files/slob.c:836-853 | at least the requested size and within the allocated block |
| DedupText.AtoiPad3 | hw4/project_4_2116_2134_2229/fuse/src/our_lib.c:40-42 | atoi undoes the three-digit id format, whatever non-digit follows |
| DedupText.Fields | hw4/project_4_2116_2134_2229/fuse/src/our_lib.c:40-47 | where id, hash and counter are in a ledger line, and what reading one column too far returns |
| DedupText.EncodesOnce | hw4/project_4_2116_2134_2229/fuse/src/our_lib.c:54-65 | the ledger's bytes determine its records |
| DedupText.OverwriteLine | hw4/project_4_2116_2134_2229/fuse/src/our_lib.c:60-65 | an in-place write into one line changes that record only |
| DedupText.IdAt | hw4/project_4_2116_2134_2229/fuse/src/our_lib.c:406-411 | the id at a multiple of four bytes in an id list |
| DedupText.OverwriteIds | hw4/project_4_2116_2134_2229/fuse/src/bbfs.c:357-362 | pwrite at a block's offset replaces ids and extends the list |
| DedupLedger.AddHash | hw4/project_4_2116_2134_2229/fuse/src/our_lib.c:27-70 | the search ends at the first record whose counter ends in 0, takes it over, and renews the sentinel if it was the last line |
| DedupLedger.CompareHash | hw4/project_4_2116_2134_2229/fuse/src/our_lib.c:99-166 | finds a stored hash iff one is present, counts it, and reports a record revived from 0 as new |
| DedupLedger.BumpedPrints | hw4/project_4_2116_2134_2229/fuse/src/our_lib.c:156-158 | a counter one up reads back as the first two characters of its decimal form, so 100 reads as 10 |
| DedupLedger.DecreaseCounter | hw4/project_4_2116_2134_2229/fuse/src/our_lib.c:413-431 | the positional seek reaches the record with the id and only its counter changes |
| DedupStore.PushIff | hw4/project_4_2116_2134_2229/fuse/src/our_lib.c:191-217 | PushBlock stores the block, counts it and keeps every other reference iff a check on the ledger before the call holds |
| DedupStore.PushAllStores | hw4/project_4_2116_2134_2229/fuse/src/our_lib.c:219-272 | a run of safe pushes stores and counts every block and keeps all earlier references readable |
| DedupStore.ModestPushesSafe | hw4/project_4_2116_2134_2229/fuse/src/our_lib.c:37-65 | at most nine references a block, no collision and room for the names in play make every push safe |
| DedupStore.ReferencedRecordTakenOver | hw4/project_4_2116_2134_2229/fuse/src/our_lib.c:44-52 | with ten, twenty, ... references a record in use is overwritten |
| DedupStore.RemoveCounts | hw4/project_4_2116_2134_2229/fuse/src/our_lib.c:419-441 | dropping one reference keeps counters, block files and hashes exact and every other reference readable |
| DedupStore.RemoveAllCounts | hw4/project_4_2116_2134_2229/fuse/src/our_lib.c:393-444 | the same for a list of references |
| DedupDisk.WriteRefines | hw4/project_4_2116_2134_2229/fuse/src/bbfs.c:337-365 | a write is an ordinary write in the map from path to bytes, also when a block drops to 0 and is revived by the same write |
| DedupDisk.WriteOthers | hw4/project_4_2116_2134_2229/fuse/src/bbfs.c:353-362 | no byte of another file changes, however blocks are shared or ids reused |
| DedupDisk.WriteSafeWhenModest | hw4/project_4_2116_2134_2229/fuse/src/our_lib.c:37-65 | a sufficient condition on a write in terms of references, collisions and ledger size |
| DedupExact.FaultStays | hw4/project_4_2116_2134_2229/fuse/src/our_lib.c:99-166 | no later push repairs a lost count, a used sentinel, an overflown ledger or a misread block |
| DedupExact.PushAllIff | hw4/project_4_2116_2134_2229/fuse/src/our_lib.c:219-272 | compressBuffer stores all its blocks soundly iff every push is safe |
| DedupExact.WriteIff | hw4/project_4_2116_2134_2229/fuse/src/bbfs.c:337-365 | a write refines the plain write and keeps the disk sound iff every push is safe |
| DedupExact.SafeWriteRuns | hw4/project_4_2116_2134_2229/fuse/src/our_lib.c:27-70 | a safe write never runs off the ledger or out of ids |
| DedupDisk.UnlinkRefines | hw4/project_4_2116_2134_2229/fuse/src/bbfs.c:124-146 | unlinking removes one entry of the map and changes no other |
| DedupDisk.CreateRefines | hw4/project_4_2116_2134_2229/fuse/src/bbfs.c:83-107 | a new file is an empty entry |
| DedupDisk.SizeIsLength | hw4/project_4_2116_2134_2229/fuse/src/our_lib.c:446-491 | the sum of block lengths is the length of the file's bytes |
| DedupDisk.ReadIff | hw4/project_4_2116_2134_2229/fuse/src/our_lib.c:340-370 | a read at a block boundary inside the file is an ordinary read iff it starts at 0 or stays inside the file |
| DedupDisk.ReadIs | hw4/project_4_2116_2134_2229/fuse/src/our_lib.c:340-370 | what a read from a block boundary inside the file returns: the rest of the file, then the last block once for every block in front of the range |
| DedupDisk.ReadRefines | hw4/project_4_2116_2134_2229/fuse/src/our_lib.c:340-370 | an allowed read returns the bytes the plain map has there, of an empty file none |
| DedupDisk.RunRefines | hw4/project_4_2116_2134_2229/fuse/src/bbfs.c:124-365 | over any run of creations, writes, unlinks and reads the disk behaves like the plain map, every read returns its bytes, and the invariant holds |
| DedupRuns.RareWriteSafe | hw4/project_4_2116_2134_2229/fuse/src/our_lib.c:37-65 | a write after which no block of any file occurs more than nine times is safe, judged on the plain map |
| DedupRuns.RareRunAllowed | hw4/project_4_2116_2134_2229/fuse/src/bbfs.c:124-365 | in a run that the plain map finds in order, every operation is allowed on the disk it meets |
| DedupRuns.RareRunRefines | hw4/project_4_2116_2134_2229/fuse/src/bbfs.c:124-365 | from the mounted file system such a run gives the plain map and its reads, under a condition on the operations and the hash alone |
| DedupRuns.TenReferencesLost | hw4/project_4_2116_2134_2229/fuse/src/our_lib.c:37-65 | ten copies of a block are stored correctly, the next different block then replaces all of them |
| DedupRuns.LastBlockRepeated | hw4/project_4_2116_2134_2229/fuse/src/our_lib.c:340-370 | reading a ten-block file from its second block for ten blocks returns ten blocks instead of nine |
| DedupFs.FileSystem.constructor | hw4/project_4_2116_2134_2229/fuse/src/bbfs.c:584-598 | mounting gives a sound, empty file system |
| DedupFs.FileSystem.PushBlock | hw4/project_4_2116_2134_2229/fuse/src/our_lib.c:191-217 | the bytes end up encoding the pushed store, whether or not the push was safe |
| DedupFs.FileSystem.CompressBuffer | hw4/project_4_2116_2134_2229/fuse/src/our_lib.c:219-272 | the output is the text of the ids the blocks were stored under, in order, whether or not the pushes were safe |
| DedupFs.FileSystem.GetOverwrittenBlocks | hw4/project_4_2116_2134_2229/fuse/src/our_lib.c:377-391 | the ids under the written range, cut off at the end of the file |
| DedupFs.FileSystem.RemoveBlocks | hw4/project_4_2116_2134_2229/fuse/src/our_lib.c:393-444 | one reference is dropped for every listed id, and a block file to be removed is never missing |
| DedupFs.FileSystem.BbMknod | hw4/project_4_2116_2134_2229/fuse/src/bbfs.c:83-107 | the map gains an empty file |
| DedupFs.FileSystem.BbWrite | hw4/project_4_2116_2134_2229/fuse/src/bbfs.c:337-365 | the bytes on disk encode the written disk, which refines the map with the buffer at the offset and stays sound iff every push was safe |
| DedupFs.FileSystem.BbUnlink | hw4/project_4_2116_2134_2229/fuse/src/bbfs.c:124-146 | one reference goes for every block of the file, and the bytes on disk refine the map without the file |
| DedupFs.FileSystem.BbGetattr | hw4/project_4_2116_2134_2229/fuse/src/bbfs.c:43-64 | the reported size is the file's length |
| DedupFs.FileSystem.NextId | hw4/project_4_2116_2134_2229/fuse/src/our_lib.c:360-362 | the next id, and the last id again at the end of the list |
| DedupFs.FileSystem.ReadFile | hw4/project_4_2116_2134_2229/fuse/src/our_lib.c:316-375 | as many blocks as the file has, from the offset on, the last one repeated |
| DedupFs.FileSystem.BbRead | hw4/project_4_2116_2134_2229/fuse/src/bbfs.c:269-332 | the bytes of the file in the range, when it starts at 0 or stays inside the file |
| SchedMath.ExpBurstIs | hw2/src/sjf-goodness/schedule.c:268-273 | the floating-point average equals an integer division and lies between the old estimate and the new burst |
| SchedMath.EstimateBounded | hw2/src/sjf-goodness/schedule.c:268-273 | an estimate never exceeds the longest burst it was made of |
| SchedMath.EstimateForgets | hw2/src/sjf-goodness/schedule.c:268-273 | one burst brings two estimates together by a factor of three |
| SchedMath.GoodnessExact | hw2/src/sjf-goodness/schedule.c:322-369 | below the overflow bounds goodness is the product of the two ratios and at least 1 |
| SchedMath.OvertakingBound | hw2/src/sjf-goodness/schedule.c:322-369 | a chosen task's wait bounds the wait of the one passed over |
| SchedAccounts.SettleExplains | hw2/src/sjf-goodness/schedule.c:107-166 | no call of schedule() leaves any time on the processor unexplained: it is charged, lost, or part of the present stretch |
| SchedAccounts.LostIff | hw2/src/sjf-goodness/schedule.c:114-166 | a call of schedule() loses time exactly when it finds the task after a stretch with at most one task ready, or takes the processor from it after 2^32 nanoseconds |
| SchedAccounts.OneChoice | hw2/src/sjf-goodness/schedule.c:112-169 | what schedule() may choose, given the run queue, the accounts and the policy, is one task: init alone, the only ready task, or the first of least estimate or goodness |
| SchedDesk.WaitsForIo | hw2/src/sjf-goodness/cpu.c:253-277 | over a whole iteration the wait list gains the running task exactly if it goes on, is interactive and its wait timer runs out, and is emptied exactly by the IO interrupt; otherwise the timer counts down |
| SchedDesk.AsleepUntilIo | hw2/src/sjf-goodness/cpu.c:253-277 | a task that goes to sleep is replaced in the same iteration and is neither on the processor nor in the ring before the IO interrupt |
| SchedDesk.TasksKept | hw2/src/sjf-goodness/cpu.c:167-219 | whatever sleeps, wakes up, is forked or switched in an iteration, no task is lost and none is queued twice |
| SchedDesk.IterationCharges | hw2/src/sjf-goodness/cpu.c:167-219 | over a whole iteration a task that stays alive keeps its bursts, gets at most one more, and that only if two tasks besides init are ready; the jiffy goes to the task that ran |
| SchedRing.RunQueue.Enqueue | hw2/src/sjf-goodness/schedule.c:225-251 | the task comes right behind the head of a well-formed ring |
| SchedRing.RunQueue.Dequeue | hw2/src/sjf-goodness/schedule.c:257-265 | the task is unlinked, the ring of the others stays well formed |
| SchedRing.RunQueue.FindMinExpBurst | hw2/src/sjf-goodness/schedule.c:275-298 | the first task of least estimate behind the head |
| SchedRing.RunQueue.FindMaxWaiting | hw2/src/sjf-goodness/schedule.c:300-317 | the earliest queueing time behind the head |
| SchedRing.RunQueue.CalculateGoodness | hw2/src/sjf-goodness/schedule.c:322-369 | the first task of least goodness behind the head |
| SchedVm.Vm.BoundedOvertaking | hw2/src/sjf-goodness/schedule.c:322-369 | in any state, if the choice passes over the longest waiting task p of goodness g, then one plus its wait is below (g + 1) times one plus the chosen one's |
| SchedVm.Vm.Choose | hw2/src/sjf/schedule.c:134-146 | SJF takes the first task of least estimate, the goodness variant the first of least goodness, counting the running task by its burst so far |
| SchedVm.Vm.Restore | hw2/src/sjf-goodness/schedule.c:154-158 | a task that is chosen again keeps its burst and estimate |
| SchedVm.Vm.SwitchTo | hw2/src/sjf-goodness/schedule.c:160-165 | a task switched out is charged and commits its burst, the chosen one's stretch begins; accounts, times and estimates stay sound |
| SchedVm.Vm.ChargeOk | hw2/src/sjf-goodness/schedule.c:142-161 | charging a burst keeps the execution time within the time since the task was created |
| SchedVm.Vm.CommitOk | hw2/src/sjf-goodness/schedule.c:142-144 | the committed estimate is the average over the longer series of bursts |
| SchedVm.Vm.Schedule | hw2/src/sjf-goodness/schedule.c:98-172 | init runs iff nothing else is ready, a single ready task runs, otherwise the policy decides; re-picking leaves no trace; losing the processor commits the burst; what that makes of every account and of the chosen task's wait timer, and that the choice is the one the accounts give |
| SchedVm.Vm.SchedulerTick | hw2/src/sjf-goodness/schedule.c:199-218 | schedule() is called exactly if init has the processor and anything is ready, or the slice of another task has one tick left, which comes within 50 ticks; what it picks is what the policy picks from the accounts; the slice, the accounts and the wait timer afterwards |
| SchedVm.Vm.CountDown | hw2/src/sjf-goodness/schedule.c:207-213 | the slice goes down by one and is renewed when it is used up; it never wraps |
| SchedVm.Vm.GoToSleep | hw2/src/sjf-goodness/cpu.c:258-277 | the task leaves the ring for the end of the wait list |
| SchedVm.Vm.WakeAll | hw2/src/sjf-goodness/cpu.c:335-357 | everybody on the wait list rejoins the ring, last sleeper first, queued from now on |
| SchedVm.Vm.Advance | hw2/src/sjf-goodness/cpu.c:318-325 | a jiffy goes to the task on the processor, and all accounts stay sound |
| SchedVm.Vm.ForkTask | hw2/src/sjf-goodness/cpu.c:448-486 | the new task is queued with an empty account, its parent's count grows, the process tree stays sound |
| SchedVm.Vm.TreeGrown | hw2/src/sjf-goodness/cpu.c:468-470 | the child counts are exact after a fork |
| SchedVm.Vm.TreeShrunk | hw2/src/sjf-goodness/cpu.c:568-569 | the child counts are exact after a kill, and nobody has lost a living parent |
| SchedVm.Vm.InitEndsLast | hw2/src/sjf-goodness/cpu.c:506-511 | when init has no child left, no task is alive |
| SchedVm.Vm.TaskEnd | hw2/src/sjf-goodness/cpu.c:492-515 | the task ends iff it has to and has no living child, in particular when its parent was told to end; it leaves the ring and its account is closed; its line in the results adds up and its waiting time is not negative; the other accounts stay |
| SchedVm.Vm.SpawnChildren | hw2/src/sjf-goodness/cpu.c:520-548 | exactly the pending children whose time has come are forked, in order, each with a new account behind the head of the ring, and schedule() is asked for iff there are any; the others stay pending in order |
| SchedVm.Vm.Work | hw2/src/sjf-goodness/cpu.c:235-290 | work is counted down, finished tasks end, an interactive task sleeps iff its wait timer runs out, and is then off the ring and asks for schedule(); otherwise the timer counts down |
| SchedVm.Vm.RunCurrent | hw2/src/sjf-goodness/cpu.c:230-290 | which task ends or goes to sleep in this cycle, with the ring, the wait list, the wait timer and the accounts afterwards, and whether schedule() is asked for |
| SchedVm.Vm.Cycle | hw2/src/sjf-goodness/cpu.c:225-305 | which task ends, sleeps or goes on, and which children of it and of init are forked, in order; the ring, the wait list, the wait timer and the accounts afterwards; exactly when schedule() is asked for; all invariants hold |
| SchedVm.Vm.Interrupt | hw2/src/sjf-goodness/cpu.c:310-365 | when the clock ticks and the IO timer fires; that the tick calls schedule() exactly when it has to and gets the policy's choice; the queues, the wait timer and the accounts afterwards; exactly when schedule() is asked for again |
| SchedVm.Vm.CycleAndInterrupt | hw2/src/sjf-goodness/cpu.c:174-183 | both halves of an iteration together: what ended, slept, was forked and woken, how the accounts and the timers went on, when schedule() is asked for, and that the queue is empty only when init has ended |
| SchedVm.Vm.Redispatch | hw2/src/sjf-goodness/cpu.c:183-190 | the main loop gives the processor to init if it is alone, to a single ready task, or to the first task of least estimate or goodness |
| SchedVm.Vm.Step | hw2/src/sjf-goodness/cpu.c:167-219 | one iteration does exactly what the specification on values says: who ends, goes to sleep, is forked and wakes up, when the tick and the main loop call schedule(), whom the policy picks then, and every account and the wait timer afterwards; it keeps every task in exactly one queue, counts, accounts and estimates exact, and init off the processor while anything is ready; only the running task can end, and does when it or its parent was told to and it has no child; its execution time is its time on the processor less what was lost and the last stretch; how the timers go on; exactly when the loop ends and when schedule() fails |
| SchedVm.Vm.Start | hw2/src/sjf-goodness/cpu.c:126-141 | from any well-formed process tree the machine starts in a sound state with init running |
| SchedVm.Vm.Run | hw2/src/sjf-goodness/cpu.c:167-219 | over any number of iterations the invariants hold; no line of the results has an execution time above the task's time on the processor; if the loop ends no task is alive or waiting and every task ever forked has its line |
| SchedCrash.CrashRun | hw2/src/sjf-goodness/cpu.c:167-219 | a run from boot, under either policy, to a sound state in which init ends and the IO timer runs out in the next iteration, with the line of a child that was never charged |

## Left out

- Kernel plumbing around SLOB: locks, printk, tracing, NUMA, gfp flags, RCU freeing, kmem_cache, zeroing on request. The
  page allocator is a parameter (`granted`) that returns a fresh page of unknown contents or fails.
- Pages of more than 32768 bytes, for which the offsets are 32 bits wide; alignments that do not divide the page size
  (`SlobFit.AlignFits`), for which the offset in the page does not decide.
- The DEFAULT_ALLOCATOR variant, which is compiled out and does not compile.
- `memory_alloc` across whole-page kmalloc: kfree does not count these pages down. The model counts them apart (`larges`).
- SlobKmalloc.Kmalloc: the header is taken to be eight bytes, the value of the two architecture constants the source reads.
- DedupDisk.RunRefines: one direction only, for runs of operations that are allowed; `DedupExact.WriteIff` and
  `DedupDisk.ReadIff` show for each single write and read that the condition is exact, and creation and removal have no
  condition beyond the path's existence.
- DedupRuns.RareRunRefines: sufficient only; nine is the most that is safe for every block (`DedupRuns.TenReferencesLost`).
- DedupLedger.AddHash: a search that meets no free record and a sentinel of id 999 are excluded. The source loops at the end
  of the file in the first case; in the second its formatted line is longer than the 30 characters it writes.
- DedupLedger.CompareHash: the same two cases, when the hash is unknown.
- DedupFs.FileSystem.PushBlock: the same two cases.
- DedupFs.FileSystem.CompressBuffer: the same two cases; a short last block is excluded, since whole blocks are required.
- DedupFs.FileSystem.BbRead: offsets at or past the end of a non-empty file are excluded, because the source then uses an
  uninitialised buffer.
- DedupFs.FileSystem.BbWrite: blocks are whole, offsets and sizes are multiples of 4096, writes leave no hole and blocks
  hold no NUL, as the project's own README.txt requires; the two cases above are excluded; the buffer overrun when a
  counter would reach 100 is modelled as the two characters that reach the ledger.
- DedupExact.PushAllIff: a search for a free record that would run off the end of the ledger ends the run of pushes here;
  the source loops.
- SHA-1, the Diagnostics file, log.c, temporary files, failing mallocs, and the FUSE calls that are passed through.
- C streams switch between reading and writing without the repositioning ISO C asks for; the cursor is modelled as if it did.
- The profile parser: the process tree is any well-formed one (`SchedVm.Vm.Booted`).
- SchedVm.Vm.Run: bounded by a number of iterations; that the main loop ends is not claimed, since it depends on timers and
  on the order of tasks.
- Overflow of the signed tick counters and of the 64-bit clock: the latter is a precondition of `Step`.
- Fields the scheduler leaves uninitialised in init and idle are arbitrary; so is the freed memory of killed tasks.
- test_lib.h, an older copy of our_lib.c, and hw2/src/sjf/cpu.c, which differs from the modelled file in one file name.
- hw1 and the experiments: thin wrappers.
