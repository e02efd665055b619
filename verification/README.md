# Memory, descriptors and caches of the XSCore kernel

This project models the stateful core of the XSCore kernel of akaOS and proves what its
functions keep together: copy-on-write address spaces, demand-paged program images, shared
memory with seals, the descriptor layer, pipes, the two caches, process lifecycle, signal
frames, the boot archive and the Internet checksum.

## How it is built

**Memory** (`Ledger`, `Bytes`, `Elf`, `LoadedWords`, `Machine`, `Steps`, `Moves`, `Slotting`,
`Changes`, `Faults`, `Access`, `Teardown`, `Reserving`, `Forking`, `Protecting`, `Sharing`, `Runs`,
`Kernel`, `Objects`, `ObjectTable`, `Placing`, `Mapping`, `AddressSpace`, `UserCopy`, `Loading`,
`Exec`). `Machine` holds the state: frames of bytes with reference counts, page tables, the slots
of every process, shared backings, and the page cache. `View` is what a process reads at a page,
whether it is committed or not. `Good` is the invariant: every frame's count is the number of
cells that hold it, every backing's count is the number of slots and objects that hold it,
frames are shared only where that is invisible, page tables agree with the slots, an entry being
writable exactly if its slot allows writing in place, cached pages hold what any process would
load, and no write-sealed backing is mapped writably. The class `Kernel` has the system calls and
the fault handler as methods that update this state step by step; each is proved to be a `Step`,
and `Runs` proves the theorems over all sequences of steps: fork isolation, constant sealed
bytes, and that nothing leaks. `fork`, `execve`, exit, mapping, protection, the break and shared
objects are all steps, whether they succeed or fail. A store by user code is a step as well
(`UserCopy.StoreUser`). `Access` tells which accesses a process can make from its slots and its
break alone, and ties the fault handler to what loading, `mmap`, `mprotect`, `brk` and `fork`
promise. `LoadedWords` says what a program finds in its image, byte by byte and word by word.

**Tables and caches.** `MmapTable` is the array of mapping records with its next-fit search and
swap-remove loop, and `AddressSpace` ties it to the mapping slots; `PageCache` and `BufCache`
are the two caches on their arrays, the second with a ghost disk that it must behave like.

**Descriptors.** `Files` and `FileLayer` count references from descriptors of all tables and
from operations in flight, and `FileRuns` proves what every run of them keeps; `Pipes` is the
ring buffer under interleaving at yield points.

**Processes.** `ProcessTable` has parent links, adoption and any number of waiting threads;
`Lineage` proves when every parent stays alive over a whole run; `SignalFrames` is delivery and
return on x86-64 with any nesting.

**Formats.** `Initramfs` and `InitramfsTool` are the boot archive, its order and its readers;
`Utf8` is what they take for a path; `Checksum` is the checksum of RFC 1071 and the ICMP replies
that carry it.

A ghost flag (`starved`, or `refused` for the block device) is set exactly where an allocator, a
fixed table or the device refuses, so that contracts can say that an operation fails for a
stated reason or because resources ran out.

## What the code does not promise

Where a natural property fails, the exact condition is proved beside it.

- A relocation that starts on the page below is lost on the page it runs into
  (`Loading.RunsInIsLost`, `Elf.LazyIsEagerWithout`).
- An image page inside the stack window shows zeros (`Loading.ImageShowsEager`,
  `Loading.StackHidesImage`).
- The end of a segment of a 32-bit image wraps around, and the segment then gets too few pages
  (`Loading.CoversUnlessWrapped`, `Loading.WrapLoads`).
- A committed page without permissions becomes readable when touched (`Faults.RestoreStep`), and
  `mprotect` can then not give it permissions again (`Kernels.Kernel.Mprotect`,
  `Protecting.TouchReopens`, `Protecting.ReopenedPage`).
- The stack growth loop never succeeds (`Kernels.Kernel.GrowStack`).
- The rest of the last heap page, past the break, can be touched if and only if the page is present
  already (`Kernels.Kernel.HandlePageFault`).
- A write to an object that runs out of memory part-way leaves the length behind
  (`Sharing.ReadBack`, `Sharing.ShortWriteUnread`), and growing an object shows bytes stored
  past its old length (`Objects.TruncateObject`, `Sharing.GrownShows`).
- Inserting the same frame for the same page into the page cache leaks a reference
  (`PageCache.Cache.Insert`, `PageCache.InsertedTwice`).
- The buffer cache drops a victim whose write-back is refused (`BufCache.GivenUpIsGone`,
  `BufCache.GivenUpSector`).
- Nothing keeps a process with a parent from becoming the reaper, or a child from being
  published after its parent has exited (`ProcessTable.OrphanedReaper`,
  `ProcessTable.LatePublish`). Over every run without either, every parent is alive
  (`Lineage.OrderKept`, `Lineage.ParentsLive`), and no weaker order would do
  (`Lineage.DisorderBreaks`); the process that the kernel makes the reaper at start-up has no
  parent.
- Two threads of one process that wait at the same time can both be told the same child
  (`ProcessTable.TwoThreads`), which is the only way a report can be wrong
  (`ProcessTable.Table.Report`).
- A copy to a range that maps one shared page twice need not be found there
  (`UserCopy.CopyReadsBack`, `UserCopy.MappedTwice`).
- A file that lies above an earlier entry is packed twice (`InitramfsTool.PackedTwice`), and the
  ordering does not end on a relative path (`InitramfsTool.RelativeNeverEnds`).
- The bound check of the mount wraps around at 64 bits (`Initramfs.AcceptedInside`,
  `Initramfs.WrapAccepted`).

Where a comment in the source and the code differ, the code is modelled: the comment on stack
growth describes contiguous growth that the code never reaches.

## Assumptions

- The physical allocator hands out a frame nobody holds, with a count of one, or refuses. The
  page-table code refuses to map a present page and otherwise fails only when a leaf table is
  missing and cannot be allocated.
- Each system call and each fault is one step; pipes and `flock` interleave at their yield
  points, and the three parts of a wait with those of other waits.
- The headers of an image have been parsed, and a segment that takes no memory, which the loader
  checks no further, has its file bytes inside the image. Image bytes do not change while the
  page cache is keyed by them.
- The threads of a process, and with them its waits, end when it exits.
- The header constants that the sources do not fix by themselves (size of shared objects, number
  of descriptors, ring and cache sizes) are those of the 64-bit ports.
## Model

| member | source | states |
|---|---|---|
| Runs.ForkIsolation | xscore/kernel/process.c:4162-4245 | Fork isolation over every later run: while the child does not act its private pages show what the parent showed at the fork, while the parent does not act its private pages show the same, and a page of one shared backing that both still map shows the same bytes to both |
| Runs.PrivatePagesKeep | xscore/kernel/process.c:1936-2193 | In every run of system calls, faults and stores by other processes, a private page keeps its bytes and stays private, and the whole invariant (reference counts, page tables, sharing, seals) holds in the last state |
| Runs.SharedPagesCommon | xscore/kernel/process.c:2108-2142 | Two mappings of the same page of a shared backing show the same bytes in every state that satisfies the invariant, touched or not |
| Runs.SealsForever | xscore/kernel/process.c:5292-5498 | Over every run in which a backing lives: its seals only grow, the shrink and grow seals bound its length, and with the write and shrink seals all bytes below the length at sealing are constant |
| Runs.NeverWritable | xscore/kernel/process.c:5596-5604 | Over every run after the write seal: no process has a mapping of the backing with write permission or a writable page-table entry for it |
| Runs.NothingLeaks | xscore/kernel/process.c:818-870 | Reference conservation has no slack: once no process has a slot, no object is open and nothing is cached, no frame and no backing is left allocated |
| Ledger.SoleHolder | xscore/kernel/process.c:1936-1974 | In a balanced ledger a count of one means that no other holder names the frame, which is why copy-on-write may take the frame back without a copy |
| Kernels.Kernel.HandlePageFault | xscore/kernel/process.c:1976-2193 | Every fault, resolved or refused, changes no byte any process sees, conserves references, and never loses or weakens a page-table entry; unless memory runs out it is resolved if and only if the access is permitted; whatever the address can be accessed for has an entry that allows it afterwards, and an untouched heap page is resolved exactly below the break, read or write, with a writable entry |
| Access.AccessIs | xscore/kernel/process.c:1976-2193 | In every state of a running process, the pages it can read and those it can write, at once or after a fault, told from its slots, its break and the stack window alone |
| Access.BreakGrants | xscore/kernel/process.c:2147-2172 | While the heap slots are the pages below the break, every address below it can be read and written, except where a program page lies |
| Kernels.Kernel.ResolveCow | xscore/kernel/process.c:1936-1974 | Taking the frame back or copying it leaves a writable entry and is invisible to everyone; it fails only when memory runs out, and then nothing has changed |
| Kernels.Kernel.RemapPage | xscore/kernel/process.c:1922-1934 | Unmapping and mapping again succeeds exactly when there was an entry, because the leaf table is still there |
| Kernels.Kernel.StackFault | xscore/kernel/process.c:2023-2065 | A fault in the stack window gives a page that reads as zero, as it did before, can be written and not executed; the bottom of the stack moves down to a new page and never up; only exhausted memory or a full tracking table refuses it |
| Kernels.Kernel.GrowStack | xscore/kernel/process.c:2178-2191 | The contiguous growth loop is only reached for a page that is present, and then always refuses |
| Kernels.Kernel.MappingFault | xscore/kernel/process.c:2086-2145 | First touch of an anonymous, snapshot or shared page shows what was visible before; resolved if and only if the page is committed already or the protection allows the access, which `Access.AccessIs` and `Mapping.Mmap` tie to the protection asked for |
| Kernels.Kernel.LoadImagePage | xscore/kernel/process.c:1833-1920 | Demand loading changes no view: the frame, cached or fresh, holds the bytes that the page showed before the fault; refused only without memory or when a relocation straddles the page end |
| Kernels.Kernel.LoadCached | xscore/kernel/process.c:1850-1867 | The cached frame is mapped read-only and shared, with the bytes this process would have loaded itself |
| Kernels.Kernel.CacheInsert | xscore/kernel/process.c:1911-1914 | Giving a freshly loaded page to the cache, with or without an eviction, is invisible and conserves references |
| Faults.CachedView | xscore/kernel/process.c:1844-1867 | A frame cached under image and offset holds exactly the bytes that any process running that image at any base sees at that offset |
| Faults.AccessStays | xscore/kernel/process.c:1976-2193 | Faults never take an access away: what was permitted or present before any chain of them still is |
| Faults.CacheableLoad | xscore/kernel/process.c:1911-1914 | A page loaded at one base may be cached for all bases if it has no relocations |
| Faults.RestoreStep | xscore/kernel/process.c:2089-2093 | A committed page without any permission that is touched becomes readable again, and no byte changes |
| Kernels.Kernel.Fork | xscore/kernel/process.c:4056-4278 | On success the child sees in every page what the parent saw, committed or not, with the same protections and sources, can access exactly what the parent could, and the parent what it could before, and no other process sees a change; on failure, at any page or later at the descriptors or the thread, every view is as before and no process is left; references are conserved either way |
| Kernels.Kernel.ForkSlot | xscore/kernel/process.c:4210-4245 | One slot of the parent is inherited: same region, protection and source, same bytes, no other view moves |
| Access.AccessForked | xscore/kernel/process.c:4162-4245 | For every page and either kind of access: the child can make it afterwards if and only if the parent could before, and so can the parent |
| Kernels.Kernel.AbandonChild | xscore/kernel/process.c:4269-4277 | The rollback of a half-made child leaves all other views, slots and backings as they were |
| Execs.Exec | xscore/kernel/process.c:3399-3573 | On success the process has exactly the pages of the new program, showing its bytes, and nobody else sees a change; on failure, which only lack of memory, an unacceptable image or arguments that do not fit cause, every view, slot and process is as before; references are conserved either way |
| Execs.Adopt | xscore/kernel/process.c:3351-3397 | Every slot, frame, page-table entry and table of the staged process becomes that of the process at the same address, and the invariant still holds |
| Execs.SwapGood | xscore/kernel/process.c:3351-3397 | Exchanging two processes everywhere keeps the whole invariant: counts, sharing, page tables and seals |
| Execs.SwapViews | xscore/kernel/process.c:3351-3397 | What one process saw at an address the other sees there, and everyone else sees what they saw |
| Kernels.Kernel.Munmap | xscore/kernel/process.c:5677-5723 | Exactly the mappings that start in the range as given go away, with their frames and references; every other page of every process keeps its bytes; a range is refused exactly if it is empty, not aligned or runs past the address space, and then nothing changes |
| Kernels.Kernel.RemoveSlot | xscore/kernel/process.c:756-774 | A slot and its references go; the last reference to a shared backing frees its frames, and every other place keeps its bytes |
| Kernels.Kernel.ReleaseProcessPages | xscore/kernel/process.c:818-870 | After exit or a failed fork the process has no slot, no frame and no page-table entry left, and every other process sees what it saw |
| Kernels.Kernel.Brk | xscore/kernel/process.c:5795-5836 | The break moves exactly when the request lies in the heap window; growing adds pages that read as zero, shrinking removes whole pages, and no other page changes; the heap slots stay exactly the pages below the break, and every address below the new break can then be read and written |
| Access.BreakMoves | xscore/kernel/process.c:5795-5836 | Moving the break adds or takes exactly the pages between the old and the new one |
| Kernels.Kernel.Mprotect | xscore/kernel/process.c:5725-5793 | No byte changes; success gives the whole range the protection, so that its pages can be written exactly if that is asked for and read if anything is; EACCES only for a page of an unchangeable file and EPERM only for a page of a sealed object, one of them exactly when writing is asked for and some page of a mapped range forbids it, and nothing changed; an unmapped page is ENOMEM; while memory lasts, a range that may be changed fails if and only if a fault has reopened one of its pages and a permission is asked for |
| Kernels.FrozenPages | xscore/kernel/process.c:5740-5756 | The write check fails if and only if some mapping in the range as given is of an unchangeable file, write-sealed, or sealed against future writes and not writable yet |
| Kernels.ProtectGrants | xscore/kernel/process.c:5757-5793 | After the slots have changed, the pages in the range can be accessed as the protection says, at once or after a fault |
| Protecting.TouchReopens | xscore/kernel/process.c:2089-2093 | Touching a committed page without permissions changes no view and leaves it in exactly the state in which mprotect fails |
| Protecting.ReopenedPage | xscore/kernel/process.c:2089-2093 | A concrete state that satisfies the whole invariant and has such a page |
| Kernels.Kernel.CheckWrite | xscore/kernel/process.c:5740-5756 | The write check passes if and only if every page of the range may be made writable under the seals, and its error names the reason of an offending page |
| Objects.CreateObject | xscore/kernel/process.c:5215-5265 | A new object in the first free entry, of length 0 and without a byte in it, that nobody else holds, sealed against sealing exactly if it is a memfd that must not be sealed; refused only when the table or memory is full |
| Objects.CloseObject | xscore/kernel/process.c:799-808 | The backing survives if and only if someone else still holds it; no process sees a change |
| ObjectTables.Table.CreateMemfd | xscore/kernel/process.c:5215-5265 | A new blank object with one description and the seals asked for, or, when the table, memory or the descriptors run out, exactly the objects there were before; a step in which no process sees a change |
| ObjectTables.Table.OpenNamed | xscore/kernel/process.c:5138-5213 | One more description of the named object, or a new blank object with a name and one description, or exactly the objects there were before, with the reason |
| ObjectTables.Table.ReleaseDescription | xscore/kernel/process.c:5267-5273 | The object goes if and only if this was its last description and it has no name, and its backing then goes if and only if no mapping holds it; no process sees a change |
| ObjectTables.Table.Unlink | xscore/kernel/process.c:5275-5290 | The name goes, and the object if and only if no description is left; no process sees a change |
| Objects.WriteObject | xscore/kernel/process.c:5401-5448 | Exactly the bytes taken are stored and no other byte of any backing or private view moves; nothing is refused but a write-sealed object (now or for the future), a write that would grow a grow-sealed one, both EPERM, and an offset at the size limit, ENOSPC; all bytes are taken unless the limit or memory cuts them short, and the length moves to the end of what was written unless memory did |
| Objects.ReadObject | xscore/kernel/process.c:5363-5399 | As many bytes as were asked for or as there are up to the length, each the byte of the backing, zero where nothing was written |
| Objects.TruncateObject | xscore/kernel/process.c:5292-5338 | Done if and only if the length is within the limit, a shrink meets no shrink seal and no other holder of the backing, and growth meets no grow seal; EPERM exactly for the seals; bytes below the new length stay, whole pages above it are zero, and the tail of the last page is cleared only when the object shrinks; no process sees a change |
| Objects.OneReference | xscore/kernel/process.c:5319-5320 | The backing of an object has one reference if and only if no slot of any process and no other object holds it |
| Objects.HasWritableMapping | xscore/kernel/process.c:5450-5464 | Finds a writable mapping of the backing if and only if some process has one |
| Objects.AddSeals | xscore/kernel/process.c:5466-5498 | Seals are added exactly when the object is a sealable memfd, not sealed shut, and the write seal meets no slot of any process that allows writing to it |
| Sharing.ReadBack | xscore/kernel/process.c:5401-5448 | What was written is read back if and only if it lies within the length the write left behind, which fails after a write cut short by lack of memory |
| Sharing.ShortWriteUnread | xscore/kernel/process.c:5423-5440 | An empty object of which a page has been written, that reads as empty |
| Sharing.GrownShows | xscore/kernel/process.c:5292-5338 | A page stored past the length shows as soon as the object grows over it |
| Mapping.Mmap | xscore/kernel/process.c:5560-5674 | At a free range: byte by byte, the new pages show what was asked for and then zeros (nothing, the file from its snapshot, the object from the offset on); exactly the pages the length reaches into are new, can be read exactly if the protection is not empty and written exactly if it says so; everything else is as before, each new page has one slot and one reference and nothing else gains any; it is refused exactly for an object whose end the last page does not start below or an unaligned offset (EINVAL), for writing to a sealed object (EPERM) or an unchangeable file (EACCES), and then changes nothing |
| Mapping.PagesShowBytes | xscore/kernel/process.c:2118-2142 | The pages of a mapping, joined, are the bytes of the file or of the object from the offset on, and zeros behind its end |
| Mapping.AnswerIs | xscore/kernel/process.c:5588-5637 | The rounding arithmetic of the range check refuses an object exactly when the last page of the mapping would start at or behind its end |
| Mapping.GrantedIsBacked | xscore/kernel/process.c:5560-5670 | Every slot of a granted mapping has the protection asked for and no source, the object, or a new backing of the whole pages, without seals, and unchangeable exactly if the file is |
| Mapping.ReservePages | xscore/kernel/process.c:5659-5670 | Every page of the range has its slot and is attached to the backing, whose count grows by the number of pages; no other attachment, count, slot or view changes, and the invariant holds |
| AddressSpaces.MmapCall | xscore/kernel/process.c:5500-5675 | The record table and the memory together: a full table or arena is ENOMEM, an occupied or unaligned fixed address EINVAL, and any other outcome is the one the request calls for or a lack of memory; every refusal leaves both as they were, and on success the run was free in both, the new pages show byte by byte what was asked for, can be accessed as the protection says, no other page changes, and the records are still exactly the mapping slots |
| AddressSpaces.MunmapCall | xscore/kernel/process.c:5677-5723 | Removing a range from the records and from memory leaves the records exactly the mapping slots, every page of the range gone and every other view as it was; a refused range changes neither |
| AddressSpaces.LoadedIsArranged | xscore/kernel/process.c:1569-1800 | A program just loaded at either base has nothing in the mapping arena and no records, so that a run free in the records is free in memory |
| AddressSpaces.ReplacedIsArranged | xscore/kernel/process.c:3399-3573 | So has a process that has executed a new program |
| AddressSpaces.FaultsKeepArranged | xscore/kernel/process.c:1976-2193 | Faults in any number keep the records the mapping slots and the arena free of anything else |
| AddressSpaces.BreakKeepsArranged | xscore/kernel/process.c:5795-5836 | So does moving the break, because the heap ends below the arena |
| AddressSpaces.ProtectKeepsArranged | xscore/kernel/process.c:5725-5793 | So does changing protections, whether the call completes or stops part-way |
| AddressSpaces.ChildIsArranged | xscore/kernel/process.c:4210-4245 | A forked child with its parent's records is laid out as its parent |
| MmapTable.Table.RangeIsFree | xscore/kernel/process.c:5082-5093 | True if and only if the run lies in the arena and meets no reserved page |
| MmapTable.Table.FirstFree | xscore/kernel/process.c:5549-5555 | The first free run at or after the start: everything before it is not free |
| MmapTable.Table.Search | xscore/kernel/process.c:5541-5558 | The two-pass next-fit search fails if and only if the whole arena has no free run of that length, and otherwise finds the first one from the search start, wrapping once |
| MmapTable.Table.Choose | xscore/kernel/process.c:5538-5559 | A free hint is taken; otherwise as the search |
| MmapTable.Table.Place | xscore/kernel/process.c:5526-5559 | Invalid if and only if a fixed address is unaligned or occupied; full if and only if the table or, without a fixed address, the arena has no room; otherwise a free run, at the fixed address if there is one |
| MmapTable.Table.Append | xscore/kernel/process.c:5659-5673 | The records of a new mapping are appended, still aligned, distinct and inside the arena, and the next search starts behind them |
| MmapTable.Table.Map | xscore/kernel/process.c:5526-5674 | The pages are appended at one run that lies in the window and meets no record, or nothing changes; a fixed address is taken if and only if it is aligned and such a run starts there, and any other request is met if and only if there is such a run |
| MmapTable.PlacedWhereClear | xscore/kernel/process.c:5082-5093 | The test for a free run is true if and only if the run ends in the window and every record lies below or behind it |
| MmapTable.Table.RemoveAt | xscore/kernel/process.c:5703-5720 | The last record takes the place of the removed one and the freed entry is cleared |
| MmapTable.Table.Remove | xscore/kernel/process.c:5677-5723 | The swap-remove loop ends with exactly the records outside the range, each intact, and moves the search start back |
| Elf.LazyIsEager | xscore/kernel/process.c:1833-1920 | For every image, base and page: the page a fault builds is the slice of the eagerly loaded and relocated image, when no relocation straddles the end of the page or of the one below |
| Elf.LazyIsEagerWithout | xscore/kernel/process.c:1833-1920 | Without that last condition the page is the slice of the eager load of the image without the relocations that run in from the page below: exactly those are lost |
| Loading.RunsInIsLost | xscore/kernel/process.c:1402-1496 | An image that the loader accepts, on which a relocation that starts on one page and ends on the next is missing from the next page |
| Elf.LoadRefused | xscore/kernel/process.c:1402-1496 | A page load is refused if and only if a relative relocation of that page runs past its end |
| Elf.BitmapSound | xscore/kernel/process.c:1377-1385 | A page without a bit in the bitmap would not be changed by either relocation table |
| Elf.UnrelocatedPageIsShared | xscore/kernel/process.c:1844-1849 | A page without a bit in the bitmap has the same bytes at every load base and is never refused |
| Elf.BuildBitmap | xscore/kernel/process.c:1276-1375 | A bit is set if and only if some relocation targets its page; refused if and only if a target is outside the load window |
| Elf.PrepareBitmap | xscore/kernel/process.c:1276-1375 | After both tables a bit is set exactly for the pages that have a relocation, and the image is refused exactly if a target lies outside the window |
| Elf.LoadPage | xscore/kernel/process.c:1869-1902 | The in-place loader computes exactly the specified page, and fails exactly when that is refused |
| LoadedWords.RelocatedWord | xscore/kernel/process.c:1414-1493 | For every image, base and relative relocation whose word no other touches: the word found after loading is the addend plus the base, or, without an addend, the word of the file plus the base, modulo 2^32 or 2^64 |
| LoadedWords.WordMovesWithBase | xscore/kernel/process.c:1414-1493 | Whatever its kind, the relocated word at one base is the one at base 0 plus that base |
| LoadedWords.InPlaceIsAddend | xscore/kernel/process.c:1435-1493 | For every image, an entry without an addend gives the same page as one in the other table whose addend is the word in place |
| LoadedWords.FixOne | xscore/kernel/process.c:1414-1493 | A relocation whose word no other touches can be taken out of its table: the page is what the others make of it, with this word stored |
| LoadedWords.SegmentByte | xscore/kernel/process.c:1814-1831 | A loaded byte is the byte of the file at the offset of the last segment that has one for its address |
| LoadedWords.NoSegmentByte | xscore/kernel/process.c:1814-1831 | An address that no segment has a file byte for is zero |
| LoadedWords.UntouchedByte | xscore/kernel/process.c:1869-1902 | A byte that no relocation touches is the byte of the segments |
| Loading.InPlaceWitness | xscore/kernel/process.c:1475-1493 | An image that the loader accepts whose word 0x2000 without an addend is found as 0x80_0000_2000 at the base 0x80_0000_0000 |
| Elf.CopyFileRange | xscore/kernel/process.c:1814-1831 | The byte loop copies exactly the part of the segment that meets the page |
| Loading.StartProgram | xscore/kernel/process.c:2576-2593 | Starting in a new process: the program is loaded, or no process and no changed view is left, which happens only when memory runs out, the image is not acceptable or the arguments do not fit the stack page |
| Loading.LoadImage | xscore/kernel/process.c:1569-1800 | On success the image passes every check, exactly the pages from the start of each segment to its end, a 32-bit sum in a 32-bit image, have slots, writable and executable exactly if some segment wants that, each showing the page the loader would build before any is touched, and stack and trampoline hold their bytes; no other process sees a change |
| Loading.AcceptedIf | xscore/kernel/process.c:1569-1800 | An image whose segments do not wrap around is accepted if and only if each that takes memory has its bytes in the file and ends in its window, one of them meets the page of the entry point, and every relocation targets the window |
| Loading.LoadedGrants | xscore/kernel/process.c:1704-1731 | Outside the stack window a program just loaded can read exactly the pages that some segment covers and that can be built, and write those that some segment wants to write |
| Loading.LoadedFurniture | xscore/kernel/process.c:1775-1790 | Its stack page can be read and written and not executed, and the signal trampoline read and executed and not written |
| Loading.RequestsCover | xscore/kernel/process.c:1704-1731 | The pages asked for are exactly those from the start to the end of some segment with memory, with every right that some such segment has |
| Loading.FilePagesAsked | xscore/kernel/process.c:1704-1731 | Every page that gets file bytes from a checked segment is asked for, unless its end wraps around |
| Loading.CoversUnlessWrapped | xscore/kernel/process.c:1634-1660 | A segment gets exactly the pages that its memory meets, if and only if its end does not wrap around at 32 bits |
| Loading.RequestedIsMet | xscore/kernel/process.c:1704-1731 | Unless an end wraps around, the pages asked for are exactly those that the memory of some segment meets |
| Loading.AcceptedUnder | xscore/kernel/process.c:1634-1640 | A segment that passes the bound check of an image with a base ends within the load window if and only if it does not wrap around |
| Loading.WrapLoads | xscore/kernel/process.c:1634-1660 | An image that the loader accepts although a segment reaches past the last address, and that gets no page for it |
| Loading.ImageSlotsAre | xscore/kernel/process.c:894-911 | After merging, a page has a slot if and only if a segment asked for it, and is writable or executable if and only if some segment asked for that |
| Loading.ImageShowsEager | xscore/kernel/process.c:2023-2043 | An image page shows the eagerly loaded bytes if and only if it lies outside the stack window or those bytes are zero, because faults there give zero pages |
| Loading.StackHidesImage | xscore/kernel/process.c:2023-2043 | An image that the loader accepts, with a byte in the stack window that reads as zero |
| Loading.ResidentIsEager | xscore/kernel/process.c:1833-1920 | After loading and any faults in any order, every image page outside the stack window that no relocation crosses shows the eager load, and its frame holds it once it is in memory |
| UserCopy.PrepareRange | xscore/kernel/usercopy.c:41-65 | Succeeds if and only if the address is valid and the whole range is present at once, and writable at once; invisible to every process; fails at a valid address only when memory runs out or some page of the range was not accessible before the call |
| UserCopy.StoreUser | xscore/kernel/process.c:1936-1974 | A store through a writable entry changes exactly that page and the other mappings of the same shared page, and no private page of another process |
| UserCopy.CopyOut | xscore/kernel/usercopy.c:11-39 | The word-wise copy has the effect of the byte copy in address order |
| UserCopy.CopyToUser | xscore/kernel/usercopy.c:74-80 | Every byte of every place afterwards is the last byte copied onto it, or what it was; a refused copy changes no view, and at a valid address is refused only when memory runs out or some page was not writable for the process before the call |
| UserCopy.CopyReadsBack | xscore/kernel/usercopy.c:74-80 | For every successful copy, onto untouched stack pages too: the copied data are found at the range afterwards if and only if bytes that land on the same shared byte are equal |
| UserCopy.MappedTwice | xscore/kernel/usercopy.c:74-80 | A range of two pages on which the condition fails |
| UserCopy.UnsharedIsConsistent | xscore/kernel/usercopy.c:74-80 | A range without shared pages always satisfies that condition |
| UserCopy.CopyFromUser | xscore/kernel/usercopy.c:67-72 | Returns the bytes the process saw before the call, and changes nothing any process sees; at a valid address refused only when memory runs out or some page was not readable before the call |
| PageCache.Cache.Lookup | xscore/kernel/page_cache.c:36-52 | The frame stored for a page, or zero if and only if there is none |
| PageCache.Cache.Insert | xscore/kernel/page_cache.c:54-95 | Keys stay unique and the entry count stays exact through reuse, full-cache shift and overwrite; the references held are those of the entries, plus one that leaks exactly when the same frame is inserted for the same page again |
| PageCache.InsertedTwice | xscore/kernel/page_cache.c:54-95 | Two insertions into a new cache after which a reference is leaked |
| PageCache.InsertMaps | xscore/kernel/page_cache.c:54-95 | Afterwards the page maps to the new frame and every other page is cached as before, except the one pushed out of a full cache |
| PageCache.StaysCached | xscore/kernel/page_cache.c:54-95 | Over every run of insertions of other pages, a page that entered a full cache stays cached through one less than there are entries |
| PageCache.Cache.Evict | xscore/kernel/page_cache.c:97-113 | Exactly the first entry of the frame goes, with its reference, and every other entry stays as it is; without one nothing changes |
| PageCache.Cache.Clear | xscore/kernel/page_cache.c:115-128 | Every entry and every reference goes |
| BufCache.Cache.FindRoom | xscore/kernel/bufcache.c:44-63 | An unused entry if there is one, else the entry accessed least recently |
| BufCache.Cache.Evict | xscore/kernel/bufcache.c:65-73 | A dirty victim is written back before it goes; if that write is refused its bytes, and no others, are given up |
| BufCache.Cache.Read | xscore/kernel/bufcache.c:77-104 | What a plain array of sectors would return, for every sector not given up; only a refused device transfer fails it, and a refused write-back gives up exactly one dirty sector other than the one read |
| BufCache.Cache.Write | xscore/kernel/bufcache.c:106-124 | Afterwards the cached disk is the plain array with that sector replaced, and the sector is no longer given up; a refused write-back gives up exactly one other dirty sector |
| BufCache.Cache.Sync | xscore/kernel/bufcache.c:126-137 | If every device write works, the device equals the plain array outside what was given up |
| BufCache.Cache.Invalidate | xscore/kernel/bufcache.c:139-145 | Everything leaves the cache and exactly the dirty sectors are given up |
| BufCache.GivenUpIsGone | xscore/kernel/bufcache.c:65-69 | When a write-back is refused, the sector still shows its bytes if and only if the device happens to hold them already |
| BufCache.GivenUpSector | xscore/kernel/bufcache.c:65-69 | A cache of one dirty sector on which that is seen |
| BufCache.SyncedDevice | xscore/kernel/bufcache.c:126-137 | When nothing is dirty the device shows what the plain array has |
| BufCache.StaysCached | xscore/kernel/bufcache.c:44-75 | Over every run of accesses, a sector stays cached through as many later accesses as there are other entries |
| Files.FreshUnreferenced | xscore/kernel/file.c:178-185 | A description that the pool may hand out is named by no descriptor of any table and no operation in flight |
| FileLayer.Layer.Release | xscore/kernel/file.c:188-212 | Dropping one reference clears the description if and only if nobody else holds it; all other descriptions, tables and flags stay, and pipe ends and locks follow |
| FileLayer.Layer.LookupRef | xscore/kernel/file.c:333-345 | Finds the description of an open descriptor and adds one reference to it and nothing else, or there is no such descriptor and nothing changes |
| FileRuns.HeldUntilPut | xscore/kernel/file.c:333-352 | Over every run of steps of the layer, from a lookup until its put: whatever is closed, duplicated, cloned, transferred or opened, the operation holds the same open file, not cleared and not handed out again |
| FileLayer.Layer.Grow | xscore/kernel/file.c:287-327 | Growth keeps every entry and flag, reaches the required size by doubling without overshooting it twofold, and is refused exactly beyond the limit or without memory |
| FileLayer.Layer.Reserve | xscore/kernel/file.c:363-393 | The least free slot at or above the bound, growing the table; refused only when all are used up to the limit or without memory |
| FileLayer.Layer.Open | xscore/kernel/file.c:363-393 | A description nobody refers to enters the least free slot, as it was given and with the flag asked for; no other slot, description or pipe changes |
| FileLayer.Layer.Close | xscore/kernel/file.c:1881-1901 | The slot becomes empty with no flag, or the descriptor was not open |
| FileLayer.Layer.Duplicate | xscore/kernel/file.c:1903-1939 | The same description in the least free slot at or above the bound, with the close-on-exec flag asked for and nothing else changed; every refusal has its reason |
| FileLayer.Layer.Dup2 | xscore/kernel/file.c:1941-1979 | The target slot lets go of what it held and shares the description, without the flag; equal descriptors change nothing |
| FileLayer.Layer.CloseRange | xscore/kernel/file.c:1396-1412 | Exactly the slots from the bound on, or exactly those marked close-on-exec, are closed |
| FileLayer.Layer.Clone | xscore/kernel/file.c:2095-2119 | The child table has the same descriptors, descriptions and flags, or none; nobody else changes |
| FileLayer.Layer.FindFreeMany | xscore/kernel/file.c:921-950 | The lowest free slots in order, pairwise distinct; refused only when there are too few up to the limit or without memory |
| FileLayer.Layer.InstallMany | xscore/kernel/file.c:921-969 | A rights transfer puts each description into its own free slot without the close-on-exec flag, or installs nothing |
| FileLayer.Layer.PipeCreate | xscore/kernel/file.c:2121-2211 | A new pipe with one description that only reads and one that only writes, in this order in the lowest two free slots, or nothing |
| FileLayer.Layer.TryLock | xscore/kernel/file.c:1199-1225 | One attempt: granted if and only if it unlocks, or no other description of the same file is locked but shared, as the one asked for is; then exactly this lock changes; in every reachable state an exclusive holder is the only holder |
| FileLayer.Layer.Flock | xscore/kernel/file.c:1184-1239 | The whole call, with others running between attempts: granted only without a conflict and at once if there is none, refused or interrupted only in the presence of one, always on the file of the descriptor at the call, and without a reference left behind |
| Files.UnpipedOk | xscore/kernel/file.c:196-212 | When a description goes, the reader and writer counts of its pipe stay the number of open ends, and the pipe is freed exactly with its last end |
| Files.LockExcludes | xscore/kernel/file.c:1184-1239 | Granting a lock without conflict keeps the exclusion among all open descriptions |
| Pipes.Pipe.Read | xscore/kernel/file.c:1531-1551 | Over every interleaving at the yield points: the bytes are the next ones in write order; end of file only when the pipe is drained and has no writer; the other outcomes only when it is empty |
| Pipes.Pipe.Write | xscore/kernel/file.c:1609-1641 | The bytes taken are in the history of the pipe in order, merged with what others wrote at the yields; a short count only without readers or with a full buffer |
| Pipes.MergesCount | xscore/kernel/file.c:1609-1641 | A merge has all the bytes of both parts and no others |
| Pipes.RingPut | xscore/kernel/file.c:1630-1635 | Storing at the write position appends to the ring's contents |
| Pipes.RingGet | xscore/kernel/file.c:1544-1549 | Taking from the read position removes the first byte of the contents |
| ProcessTable.Table.Reserve | xscore/kernel/process.c:459-497 | The first slot that is unused or reaped gets a pid that no process ever had; refused exactly when there is none |
| ProcessTable.Table.Publish | xscore/kernel/process.c:523-530 | The process becomes ready and nothing else changes; parent links stay alive if and only if its parent is still alive |
| ProcessTable.Table.Release | xscore/kernel/process.c:499-504 | A process that could not be made leaves its slot vacant, and nothing else changes |
| ProcessTable.Table.SetReaper | xscore/kernel/process.c:539-570 | Done exactly for a living process: every other visible process without a parent gets it as parent and nothing else changes, and parent links stay alive |
| ProcessTable.Table.MarkExited | xscore/kernel/process.c:2198-2227 | For any process that is not gone: its visible children, and no others, get the reaper as parent, or none if the process was the reaper itself; and parent links stay alive if and only if the process was not its own parent |
| Lineage.ExitKeepsParents | xscore/kernel/process.c:2198-2243 | The exact condition for exit to keep every parent link alive |
| Lineage.OwnParent | xscore/kernel/process.c:2229-2238 | A process becomes its own parent if and only if it is the reaper and its parent exits |
| Lineage.OrderKept | xscore/kernel/process.c:459-570 | Each operation keeps every parent alive, nobody their own parent and the reaper without one, if and only if a child is published under a living parent and a new reaper has no parent |
| Lineage.ParentsLive | xscore/kernel/process.c:459-570 | Over every run of the process table that meets that condition, in every state every parent is alive or none |
| Lineage.DisorderBreaks | xscore/kernel/process.c:2198-2243 | Nothing weaker would do: from any other state in which the parents live, one or two exits leave a dead parent |
| ProcessTable.OrphanedReaper | xscore/kernel/process.c:2229-2238 | A run of the table that gives the office of reaper to a process with a parent, after which an exited process is its own parent and can never be collected |
| ProcessTable.LatePublish | xscore/kernel/process.c:523-530 | A run of the table in which a child is published after its parent has exited |
| ProcessTable.Table.SelectChild | xscore/kernel/process.c:3579-3621 | For any number of waiting threads: finds no child if and only if the caller has none, or none with the pid asked for; whom it chooses is a child of the caller, and for a pid it is the child with that pid; it prefers one that has exited or stopped, puts off only if asked not to hang and none has, records its choice and marks every wait that has chosen the same |
| ProcessTable.Table.CheckChild | xscore/kernel/process.c:2691-2744 | A wait is let through if and only if its child has exited or stopped, and finds the child gone only after another thread has collected it |
| ProcessTable.Table.Report | xscore/kernel/process.c:3622-3640 | The child chosen is reported, once, if and only if no other thread has collected it since, and then it is the one that was asked for; it can only have been collected if another wait had chosen it too |
| ProcessTable.WaitNow | xscore/kernel/process.c:3579-3640 | A whole wait that is not interrupted: a pid is returned if and only if a child that was asked for has exited or stopped, it is that of such a child and the one asked for, and an exited child is collected |
| ProcessTable.BothReport | xscore/kernel/process.c:3588-3640 | Whenever two waits that chose the same exited child are both let through, both report it, and it is collected once |
| ProcessTable.TwoThreads | xscore/kernel/process.c:3588-3640 | A concrete run in which two threads of one process are told the same child |
| ProcessTable.Table.Reap | xscore/kernel/process.c:2798-2815 | The slot is reaped once, no pid is collected twice, and parent links stay alive |
| SignalFrames.FrameReturns | xscore/kernel/process.c:4739-4777 | A frame that is still on the stack restores every saved register and the mask, with a zero result |
| SignalFrames.ReturnRefused | xscore/kernel/process.c:4739-4777 | sigreturn is refused if and only if no frame with the magic number stands at the stack pointer |
| SignalFrames.HandlerRestores | xscore/kernel/process.c:4409-4490 | Delivery, a handler that keeps to its stack with any nesting of further signals, then sigreturn: all registers and the mask are back with rax zero, and the handler returned to the restorer |
| SignalFrames.KeptThroughout | xscore/kernel/process.c:4409-4490 | Whatever runs below, with whatever signals in between, every frame above stays intact |
| SignalFrames.EntryRegisters | xscore/kernel/process.c:4472-4480 | The handler starts at its address with the signal as first argument and, where it asks for them, the addresses of the signal information and of the frame; every other register but the stack pointer is as it was |
| SignalFrames.EntryFrame | xscore/kernel/process.c:4459-4460 | The frame lies below the old stack pointer, aligned to 16 bytes and as high as that allows |
| SignalFrames.EntryMemory | xscore/kernel/process.c:4423-4470 | The return address, every register, the mask with its magic number and the signal information are at their addresses, and no other word of memory changes |
| SignalFrames.EntryMask | xscore/kernel/process.c:4727-4730 | While the handler runs, exactly what was blocked, what the handler blocks and the signal itself are blocked |
| SignalFrames.OpenMask | xscore/kernel/process.c:4727-4730 | A handler that does not defer its signal adds only what it blocks |
| SignalFrames.SignalBits | xscore/kernel/process.c:4727-4730 | The bits of the first, a middle and the last signal |
| Initramfs.RoundTrip | tools/mkinitramfs.py:228-275 | Packing then reading gives back the same entries in order, under the strict rules of the tool and the lenient ones of the mount |
| Initramfs.ArchiveRead | tools/mkinitramfs.py:50-88 | For every byte string, by the positions of its fields: a reader accepts it if and only if the header is right and every row is one it takes, and returns the entries of the rows in order |
| Bytes.EncodedByte | tools/mkinitramfs.py:228-271 | The numbers of the format have their low byte first: byte i of a stored word counts 256 to the power i |
| InitramfsTool.ReadArchive | tools/mkinitramfs.py:50-88 | The reading loop of the tool returns exactly the entries of a well-formed archive, whose paths are UTF-8, and refuses every other |
| InitramfsTool.Mount | xscore/kernel/initramfs.c:31-96 | The mounting loop accepts exactly the archives whose payloads lie inside, with all their entries in order, unless some row escapes by wrapping around; an archive with such a row is not well formed |
| Initramfs.AcceptedInside | xscore/kernel/initramfs.c:79-84 | A payload that passes the bound check lies inside the archive if and only if offset plus size does not wrap around at 64 bits |
| Initramfs.WrapAccepted | xscore/kernel/initramfs.c:79-84 | A concrete row that every archive accepts and that lies outside of every archive |
| InitramfsTool.WriteArchive | tools/mkinitramfs.py:228-271 | The writing loop produces a packed archive, or gives up exactly when a path is too long or cannot be encoded or a mode, the count or the total size does not fit its field |
| Utf8.EncodedIsText | tools/mkinitramfs.py:68-68 | The scan for UTF-8 accepts the encoding of every string |
| Utf8.TextIsEncoded | tools/mkinitramfs.py:254-254 | Whatever the scan accepts is the encoding of a string |
| Utf8.Rfc3629 | tools/mkinitramfs.py:68-68 | The examples in section 7 of RFC 3629 |
| InitramfsTool.Orderer.EnsureDirectory | tools/mkinitramfs.py:197-214 | Terminates on every absolute path and adds exactly the missing part of its chain of directories, parents first |
| InitramfsTool.AncestorsEndAtSlashes | tools/mkinitramfs.py:197-214 | The directories above an absolute path are exactly the parts of it that end before one of its slashes, short of the root |
| InitramfsTool.RelativeNeverEnds | tools/mkinitramfs.py:197-214 | Going from parent to parent reaches the empty path, where the recursion ends, if and only if the path starts with a slash; otherwise it stays at one path |
| InitramfsTool.Orderer.Add | tools/mkinitramfs.py:216-224 | One entry brings its ancestors and itself |
| InitramfsTool.Orderer.AddAll | tools/mkinitramfs.py:190-225 | Every parent precedes its children, each path has the given entry or an empty directory of mode 0755, the paths are exactly those the entries bring, and each occurs once if and only if no file lies above an earlier entry |
| InitramfsTool.FileTwice | tools/mkinitramfs.py:216-224 | A concrete list of distinct paths with a file above an earlier entry |
| InitramfsTool.PackedTwice | tools/mkinitramfs.py:190-225 | The ordering loop on that list emits a path twice |
| InitramfsTool.ParentsAreDirectories | tools/mkinitramfs.py:197-225 | Every parent in the list is a directory if and only if no file was given at such a path |
| Checksum.SealedVerifies | xscore/kernel/net.c:239-262 | Data that carry their own checksum at an even offset check to zero |
| Checksum.OneWordChange | xscore/kernel/net.c:24-38 | Changing one word keeps the checksum if and only if the word is the same, or moves between all zeros and all ones in data that are not otherwise zero |
| Checksum.Fold | xscore/kernel/net.c:24-38 | The fold loop ends, fits 16 bits and keeps the value modulo 65535 |
| Checksum.OddIsPadded | xscore/kernel/net.c:24-38 | An odd last byte counts as if a zero byte followed it |
| Checksum.Rfc1071 | xscore/kernel/net.c:24-38 | The example in section 3 of RFC 1071 |
| Checksum.Compute | xscore/kernel/net.c:24-38 | The 32-bit loop computes the checksum of every packet up to the maximal size, without overflow |
| Checksum.EchoReply | xscore/kernel/net.c:239-262 | Both checksums of the reply verify, the hardware and the Internet addresses have changed places, the type is 0, and every other byte is that of the request |
| Checksum.TimeExceeded | xscore/kernel/net.c:196-236 | Both checksums of the message verify, every field has its value, and it carries the header and first eight bytes of the datagram it answers |

## Left out

- MmapTable.Table.Map: does not hold the frames themselves; `AddressSpaces.MmapCall` and `AddressSpaces.MunmapCall` tie the records to slots kept in a dictionary and not in parallel arrays.
- Mapping.Mmap: takes the chosen range and a snapshot of file bytes as parameters; `AddressSpaces.MmapCall` makes the choice, and reading the file system is not modelled. Descriptor access rights are left to the caller.
- Kernels.Kernel.Fork: covers the address space; that the descriptors or the thread cannot be made is a free choice that leads to the rollback, the descriptor table itself is `FileLayer.Layer.Clone`, and credentials and the saved register context are not modelled.
- Kernels.Kernel.Brk: freshness is stated per page; bytes above the break in a page that is kept are not cleared by the code and not claimed.
- Kernels.Kernel.CacheInsert: which entry a full cache drops is open here and exact in `PageCache.Cache.Insert`.
- Execs.Adopt: is one re-keying of the dictionaries, where the source copies its arrays field by field.
- Execs.Exec: covers the address space; credentials and closing descriptors are not modelled, the stack page with the arguments is a parameter that is absent when they do not fit, and `FileLayer.Layer.CloseRange` has the close-on-exec part.
- Objects.CreateObject: names, permissions and owners of shared-memory objects are not modelled.
- ObjectTables.Table.OpenNamed: takes the object that the name was found to mean; looking up names, checking permissions and truncating on open are not modelled.
- ObjectTables.Table.Unlink: takes the object that the name was found to mean; looking up names and checking owners is not modelled.
- FileLayer.Layer.Release: descriptors queued in a closing socket are not released, because that recursion is in the socket module; vnode, pty, framebuffer and input side effects are not modelled, and `ObjectTables.Table.ReleaseDescription` has the shared-memory part.
- FileLayer.Layer.CloseRange: the return to inline storage when a whole table is closed is not modelled, because the storage is not told apart.
- FileLayer.Layer.Flock: takes the operation as parsed, and a pending signal as a bound on the attempts.
- ProcessTable.Table.Reap: has the table entry; the pages of the process are released by `Kernels.Kernel.ReleaseProcessPages` and its descriptors by `FileLayer.Layer.CloseRange`.
- InitramfsTool.Orderer.EnsureDirectory: for absolute paths, because on others the recursion does not end (`InitramfsTool.RelativeNeverEnds`).
- InitramfsTool.Mount: adding an entry to the file system does not fail.
- Initramfs.RoundTrip: for directories without data, which is all that the tool creates.
- Saturation of the 16-bit frame counts, and 64-bit wrap-around of pids, access ticks and pool identities, are not modelled.
- Descriptor tables are dictionaries with a capacity; the inline and the grown array are not told apart.
- The heap page under a tracked page, which no fault can reach, has no slot.
- The 32-bit address-space layouts and the signal frames of the other architectures, and signal delivery from the timer interrupt.
- Spawn actions, process groups, sessions, stop and continue.
- ARP replies, packet rings, input, audio, framebuffer, device and boot code.
