# A model of the kernel's core: heap, ext2 reader, threads, paging, events, printing and shell history

The Dafny files model seven parts of a small 32-bit x86 kernel and prove what they are for.

* **Kernel heap** (`HeapBlocks`, `HeapMemory`, `HeapSteps`, `HeapState`, `Kmalloc`). Two arenas in one flat
  memory of 32-bit words. `HeapBlocks` says what `kmalloc` and `kfree` do to a list of blocks; `HeapMemory` says
  when memory is tiled by such a list, header, payload and footer; `HeapSteps` and `HeapState` prove that each
  group of stores turns a tiling of one list into a tiling of the next, leaving live payloads alone; the class
  `Kmalloc.Heap` holds the code, proved against the lists.
* **ext2 reader** (`Disk`, `BlockMap`, `FileRead`, `Directory`, `Strtok`, `PathWalk`). Each layer refines a
  simple meaning: bytes of the device, block of a file, bytes of a file, entries of a directory, the first match
  of a name, the fold of that lookup over the names of a path. `Directory` also writes inode
  records and entry lists down as bytes, `Strtok` splits a text into pieces at each delimiter and keeps the non-empty
  ones, and puts names together into a path; all of these are independent of the reading code.
* **Threads** (`RoundRobin`, `ThreadTable`, `Scheduler`, `Segments`, `Frames`, `Machine`, `ThreadStacks`, `Kernel`).
  `RoundRobin` is the choice the scheduler makes and how long a thread can wait; `ThreadTable` is the table as words in
  memory; `Scheduler.Threads` keeps it in a block of the verified heap, with ownership of stacks; `Segments` reads the
  descriptor table that selectors index; `Frames` pushes and pops interrupt frames; `Machine` says when a thread off the
  processor is parked and what keeps it so; `ThreadStacks` places the table's stacks in memory. `Kernel.System` puts
  them together in one memory that the heap, the thread table, the stacks and the frames share: its steps are a timer
  tick, creating a thread, returning from one, and the current thread storing, allocating and freeing. Its `Valid()`
  holds over every run of them, and `Table()` follows the system of `RoundRobin` step by step, so its waiting bounds
  apply.
* **Paging** (`FrameBitmap`, `Paging`, `DemandPaging`, `ArenaPages`). The frame bitmap, the two-level translation and
  the page fault handler on physical memory; `ArenaPages` ties the handler to the heap's arenas.
* **Event ring** (`Ring`, `RingBuffer`, `EventQueue`). One producer and one consumer as interleaved micro-steps (check,
  copy one byte, publish the index), then the calls `rb_put` and `rb_get` as sequences of those steps, then delivery to
  consumers and their registration as further steps that interleave with these.
* **Integer printing** (`Digits`, `IntStr`) and **shell history** (`ShellLine`, `Shell`), both on the
  NUL-terminated strings of `CString`.

`Words` holds the types and flags all parts share, `Arithmetic` three facts about products and quotients.

Conventions. `Kmalloc.Heap` counts addresses and sizes in 32-bit words: a byte address is four times a word
address, so results are 4-byte aligned by construction, and `kmalloc` converts the byte size it is given with the
32-bit rounding of the code. Everything else in bytes stays in bytes. Arithmetic that the code does in 32 bits
is reduced modulo 2^32 in the model wherever it can exceed it.

## What holds only under a condition

Each of these is the behaviour of the code as it stands; the lemma named gives the exact condition, and where a
second one is named it shows an input that fails.

* The rounding at `kernel/kmalloc.c:44` wraps for sizes above `0xFFFFFFF8`: `Kmalloc.RoundingCovers`,
  `Kmalloc.RoundingWraps`.
* `kmalloc` can leave two small free blocks side by side, by splitting a block larger than `MAX_COALESCE`:
  `HeapBlocks.MallocKeepsCoalesced`, `HeapBlocks.BadSplit`.
* Freeing a block that was just split off restores the block list only if the remainder is small and the left
  neighbour does not absorb the result: `HeapBlocks.SplitFreeRoundTrip`, `HeapBlocks.SplitNotUndone`.
* A pointer table that cannot be read is taken for a hole (`fs/ext2.c:65-68`), so that a read can succeed with zeros
  in place of the file: `BlockMap.BlockFoundIsBlockOf`, `BlockMap.UnreadableTable`, `FileRead.UnreadableTableMisread`.
* From block size 8192 the triple-indirect product wraps to 0 (`fs/ext2.c:112`) and no triple-indirect block is found:
  `BlockMap.PointerProducts`, `BlockMap.WrappedProduct`. This concerns `get_block` alone and no read, because no 32-bit
  offset lies in such a block: `BlockMap.NoOffsetReachesIt`.
* Byte addresses of blocks and inode records are computed in 32 bits (`fs/ext2.c:56-58`, `fs/ext2.c:128`). What the
  volume holds is defined at the full address `start + block * block_size`; reading at the reduced one gives it for
  all contents of the device exactly when the address is below 2^32: `Disk.WrapMisreads`,
  `FileRead.FarBlockMisread`. So the lookups, reads and path walks are claimed right for tables, blocks and inode
  records that start below 2^32: `InReach` is part of `BlockMap.Reachable`, `FileRead.Locatable` and
  `FileRead.RangeIntact`, `InodeInReach` of `PathWalk.WalkIntact`.
* The sum at `fs/ext2.c:38` is computed in 32 bits; `read` is claimed right exactly where it does not wrap, because
  otherwise the blocks transferred fall short of the bytes copied: `Disk.FitsIsNeeded`.
* A read returns its count as a signed number (`fs/ext2.c:163`), so a count from 2^31 on comes back negative:
  `FileRead.IntactReadReturns`.
* Directory slots 0 and 768 share one table, so mapping a page in one also maps its alias in the other, and opening
  one of them to user programs grants what its entries already grant a user: `DemandPaging.Mm.MapPage`,
  `Paging.OpenSlot`.
* A refused page fault can take a frame out of the bitmap with nothing mapped: `page_fault` takes the frame before
  `map_page` fails (`arch/x86/mm.c:104-106`, `arch/x86/mm.c:79-85`). `DemandPaging.Mm.PageFault` gives the exact
  conditions for refusal and for the loss. There are two kinds of input: a fault at address 0
  (`DemandPaging.NullFaultLosesFrame`), and a fault in a slot without a table when one frame is left
  (`DemandPaging.LastFrameIsLost`).
* The address 0xC0000000 itself counts as a user address (`kernel/kmalloc.c:96`), so a fault there is one of user
  access, in a slot shared with the kernel: `DemandPaging.RightsAsked`.
* A fault in the recursive window, slot 1023, makes the new frame a page table without clearing it. The tables stay
  sound if and only if the frame held no entry open to users: `DemandPaging.WindowFault`,
  `DemandPaging.WindowFaultBreaks`.
* Padding goes before the sign, and zeros are appended when left-justified (`lib/stdio/printf.c:77-90`).
  `IntStr.IntStr` gives the text that results in every case. Blanks never harm the round trip
  (`IntStr.PaddedRoundTrip`); zeros on the left keep it exactly when no sign is written or nothing is padded
  (`IntStr.ZeroPadBefore`), zeros on the right exactly when nothing is padded or the value is 0
  (`IntStr.ZeroPadAfter`); `IntStr.ZeroPadMinusFive` shows both failures.
* The padding is a difference of a signed width and an unsigned length (`lib/stdio/printf.c:72`), which wraps for
  widths below -2^31 plus the length: `IntStr.FillIsLack`, `IntStr.LeastWidthWraps`. Such a width asks for about
  2^31 characters, which no buffer holds; a buffer of 256 has room for exactly the widths from there to 255:
  `IntStr.RoomForWidth`.
* A read of no bytes at a block boundary asks for an empty buffer, which `kmalloc` refuses:
  `FileRead.ReadOutcome` has this as its case `NoMemory`, and `Disk.Read` as a failure.
* The inode record is declared with 124 bytes (`include/fs/ext2.h:207-232`), so the size used for revision 0 is
  not the 128 bytes of the on-disk format. The model takes the record size as a parameter of at least 100 bytes.

## Model

| member | source | states |
|---|---|---|
| HeapBlocks.FindFitIsFirst | kernel/kmalloc.c:46-74 | the scan's stopping point, the first free block large enough or the end, is unique |
| HeapBlocks.FirstFitIsLowest | kernel/kmalloc.c:46-74 | whenever some free block fits, the result is at or below it and the arena does not grow |
| HeapBlocks.MallocSpan | kernel/kmalloc.c:50-90 | conservation: headers, payloads and footers add up to the same words on reuse and to exactly one block more on growth |
| HeapBlocks.FreeSpan | kernel/kmalloc.c:99-137 | conservation: releasing, with or without merges, neither gains nor loses a word |
| HeapBlocks.MallocSlack | kernel/kmalloc.c:56-64 | what is handed out exceeds the rounded request by less than the smallest split |
| HeapBlocks.CarveInBytes | kernel/kmalloc.c:8-9 | a remainder of 20 bytes or more is split off, a smaller one stays |
| HeapBlocks.MergesInBytes | kernel/kmalloc.c:112-137 | kfree merges with a free neighbour exactly if it has at most 65536 bytes |
| HeapBlocks.FreeKeepsCoalesced | kernel/kmalloc.c:111-137 | of two adjacent free blocks one stays larger than MAX_COALESCE |
| HeapBlocks.MallocKeepsCoalesced | kernel/kmalloc.c:56-64 | the same for allocation if and only if it does not split a large block next to a small free one leaving a small remainder |
| HeapBlocks.BadSplit | kernel/kmalloc.c:56-64 | an input on which allocation breaks it: 20000 free words below 10 free ones |
| HeapBlocks.SmallSplitKeepsCoalesced | kernel/kmalloc.c:56-64 | in particular it holds whenever the block chosen is at most MAX_COALESCE |
| HeapBlocks.SplitFreeRoundTrip | kernel/kmalloc.c:56-137 | kfree right after a splitting kmalloc restores the block list if and only if the remainder is small and the left neighbour cannot absorb |
| HeapBlocks.SplitNotUndone | kernel/kmalloc.c:126-137 | an input on which it does not: the small left neighbour absorbs the block |
| HeapBlocks.RunInvariant | kernel/kmalloc.c:36-137 | over any run of calls the arena never shrinks, and bounded coalescing is kept as long as no bad split happens |
| HeapBlocks.LiveDisjoint | kernel/kmalloc.c:50-90 | live payloads of an arena are disjoint, with a footer and a header between any two |
| HeapBlocks.MallocLive | kernel/kmalloc.c:50-90 | allocation adds one payload that was not live and changes no other |
| HeapBlocks.FreeLive | kernel/kmalloc.c:99-137 | release removes its own payload and no other, whichever neighbours merge |
| HeapMemory.LiveNotMeta | kernel/kmalloc.c:14-21 | no word of a live payload is a header or footer word |
| HeapMemory.FlagBits | kernel/kmalloc.c:51-52 | setting or clearing the present bit changes no other flag |
| HeapMemory.FlagsAlone | kernel/kmalloc.c:14-17 | setting the flags changes the byte that holds them and no other |
| HeapSteps.FreeStep | kernel/kmalloc.c:99-137 | the stores of kfree leave memory tiled by the released block list and touch header and footer words only, so not the payload being freed (read afterwards at fs/ext2.c:259-260) |
| HeapSteps.TakeStep | kernel/kmalloc.c:50-71 | the stores of a first-fit reuse, split or not, leave memory tiled by the new list, footers pointing at their own headers, and no live word changed |
| HeapSteps.GrowStep | kernel/kmalloc.c:75-90 | the stores at the tail add one block to the tiling and change nothing else |
| HeapState.OwnerKeepsWords | kernel/kmalloc.c:36-148 | isolation: a step that leaves the heap untouched in the sense of the heap calls changes no word of any payload live before it |
| HeapState.CallKeepsWords | kernel/kmalloc.c:36-148 | chained over a run of calls: every payload that stays live holds the words it held at the start |
| HeapState.LivePayloadsDisjoint | kernel/kmalloc.c:28-32 | live payloads are disjoint across both arenas and never at address 0 |
| HeapState.LivePayloadsHoldNoMetadata | kernel/kmalloc.c:14-21 | a payload contains no metadata of either arena |
| HeapState.OwnerStoresKeepHeap | kernel/kmalloc.c:36-148 | whatever an owner stores in its payload, the heap stays consistent |
| HeapState.StoresKeepHeap | kernel/kmalloc.c:14-21 | any stores that spare header and footer words leave both arenas laid out as they were |
| HeapState.CallKeepsOutside | kernel/kmalloc.c:36-148 | over a run of calls nothing outside the arenas changes |
| HeapState.OwnerStoreKeepsOthers | kernel/kmalloc.c:36-148 | what an owner stores in its payload changes no word of another payload, nor any outside the arenas |
| HeapState.AllocatedLive | kernel/kmalloc.c:43-90 | for the two arenas together: one new live payload, large enough, little slack, all others as before |
| HeapState.ReleasedLive | kernel/kmalloc.c:99-137 | release takes exactly that payload out and heap_ptr stays |
| Kmalloc.RoundingCovers | kernel/kmalloc.c:44 | the rounded size covers the request if and only if the rounding does not wrap, and is then the least multiple of 8 that does |
| Kmalloc.RoundingWraps | kernel/kmalloc.c:44 | a request for 0xFFFFFFFF bytes is rounded to none |
| Kmalloc.Heap.constructor | kernel/kmalloc.c:28-34 | both arenas start empty and consistent, the kernel's at the first page boundary from the heap start |
| Kmalloc.Heap.Scan | kernel/kmalloc.c:45-74 | the pointer walk over headers ends at the first fit of the block list |
| Kmalloc.Heap.Take | kernel/kmalloc.c:50-71 | memory after marking and splitting in place |
| Kmalloc.Heap.Append | kernel/kmalloc.c:75-90 | memory and heap_ptr after growing at the tail |
| Kmalloc.Heap.Kmalloc | kernel/kmalloc.c:36-91 | keeps the tiling of both arenas; NULL for size 0 and no change; else a newly live payload of at least the bytes asked for and at most 23 more, in the arena of the user flag: the lowest free block of at least the least multiple of 8, reused exactly if there is one, or else exactly so many bytes at the end; present flag and flags stored, no word of a live payload changed |
| Kmalloc.ServesInBytes | kernel/kmalloc.c:43-90 | which block serves a request, in bytes, whatever the request |
| Kmalloc.Heap.Place | kernel/kmalloc.c:45-90 | scan, then mark in place or append: the arena becomes the allocated block list |
| Kmalloc.Heap.AbsorbRight | kernel/kmalloc.c:112-124 | memory after the merge with the right neighbour, and the footer that now ends the block |
| Kmalloc.Heap.AbsorbLeft | kernel/kmalloc.c:126-137 | memory after the left neighbour absorbs the block |
| Kmalloc.Heap.Kfree | kernel/kmalloc.c:99-148 | keeps the tiling; the payload and no other stops being live; no payload word changes, the freed one included; the header stays marked free, so a second kfree of the pointer changes nothing |
| Disk.Read | fs/ext2.c:34-52 | an unaligned read puts exactly disk[off..off+len) in the buffer and touches nothing else, and fails with the buffer unchanged exactly if the transfer cannot be served |
| Disk.WrapMisreads | fs/ext2.c:56-58 | reading at the 32-bit address gives the bytes at the full address for all device contents if and only if the address is below 2^32 |
| Disk.BlocksFollow | fs/ext2.c:56-58 | the blocks of the volume follow one another from its start, and the code computes their addresses modulo 2^32 |
| Disk.FitsIsNeeded | fs/ext2.c:36-39 | the block count computed in 32 bits covers the bytes asked for if and only if the sum does not wrap |
| Disk.ReadPlan | fs/ext2.c:35-39 | the transfer computed covers the range, and ends on the device if it is served |
| Disk.Plan | fs/ext2.c:35-41 | the code's 32-bit offset, block and count are those of such a transfer |
| BlockMap.AddressingIsABijection | fs/ext2.c:90-116 | a block is within 12+p+p^2+p^3 if and only if its address is well formed, with base-p digits that are valid table indexes, and the address determines the block |
| BlockMap.AddressesAreReached | fs/ext2.c:90-116 | every well-formed address is that of a block in range |
| BlockMap.DigitsBelow | fs/ext2.c:76-87 | successive quotients and remainders give digits below p that evaluate to the block number |
| BlockMap.DigitsOfVal | fs/ext2.c:76-87 | and every digit string is obtained from its value |
| BlockMap.FollowIoIsFollow | fs/ext2.c:60-88 | as long as no table is read at a wrapped address, the table walk gives what the tables say if and only if they are readable or there is nothing to find; zero pointers are holes |
| BlockMap.BlockFoundIsBlockOf | fs/ext2.c:90-116 | as long as no table is read at a wrapped address, the lookup as coded finds the right block if and only if its tables are readable and its product does not wrap, or there is no block |
| BlockMap.PointerProducts | fs/ext2.c:107-112 | p*p never wraps, p*p*p does if and only if p is above 1024, and is then 0 |
| BlockMap.UnreadableTable | fs/ext2.c:65-68 | an input on which an unreadable table hides a block |
| BlockMap.WrappedProduct | fs/ext2.c:107-112 | an input on which the wrapped product hides a block, all tables readable |
| BlockMap.NoOffsetReachesIt | fs/ext2.c:142-152 | a block that holds a byte at a 32-bit offset is never triply indirect when p is above 1024 |
| BlockMap.Divisor | fs/ext2.c:78-79 | the loop computes p to the power iter-1 |
| BlockMap.GetBlockIter | fs/ext2.c:60-88 | the recursive walk follows the digit path of the block, and returns 0 out of range |
| BlockMap.GetBlock | fs/ext2.c:90-116 | the range tests and subtractions find the block that the address of the block number leads to |
| FileRead.BytesFoundAreFileBytes | fs/ext2.c:150-160 | where tables are readable, and they and the blocks start below 2^32, the bytes delivered are the bytes of the file, holes as zeros |
| FileRead.FarBlockMisread | fs/ext2.c:56-58 | a volume beyond 4 GiB on which a read succeeds with the wrong byte |
| FileRead.UnreadableTableMisread | fs/ext2.c:150-155 | a device on which a read succeeds with a zero where the file has a 9 |
| FileRead.FetchRunComplete | fs/ext2.c:150-160 | all blocks are fetched if and only if each is a hole or can be read |
| FileRead.CompleteRead | fs/ext2.c:137-164 | a read of an intact range delivers min(len, size-off) bytes, and exactly those of the file |
| FileRead.IntactReadReturns | fs/ext2.c:137-164 | its caller gets exactly those bytes in the buffer, the rest unchanged, and their number as the result if and only if it is below 2^31 |
| FileRead.ReadRefused | fs/ext2.c:138-148 | 0 past the end; -3 if and only if the sum of the sizes would wrap, -4 if and only if no bytes are asked for at the start of a block, and then the buffer is unchanged |
| FileRead.ReadInode | fs/ext2.c:137-164 | in every case, truncation, E2BIG, refusal of an empty buffer, failure at some block, the return value and the correct prefix that goes with it; the rest of the buffer is unchanged |
| FileRead.FetchBlocks | fs/ext2.c:147-160 | the block loop fills the buffer with the file's bytes up to the first block that fails |
| FileRead.FetchBlock | fs/ext2.c:151-159 | one block: zeros for a hole, its bytes otherwise, earlier blocks unchanged |
| Disk.BlocksNeeded | fs/ext2.c:145-147 | past the E2BIG check neither the block count nor count times size wraps, and the buffer holds skip plus length |
| Directory.GetInode | fs/ext2.c:118-135 | reads the record of that inode number where the code looks for it, nothing for 0 or a failed read; for every record written as number k of the table of group g, if it starts below 2^32 and can be read, exactly its size and its fifteen pointers |
| Directory.RecordRoundTrip | include/fs/ext2.h:207-232 | for all field values of a record the reader takes size and pointers as they were written, field after field |
| Directory.RecordIsAt | fs/ext2.c:120-128 | inodes are numbered from 1, group after group: number g * inodes_per_group + k + 1 is record k of the table of group g |
| Directory.InodeFoundIsInodeAt | fs/ext2.c:118-135 | the code looks at the record's address reduced to 32 bits, so finds the record if it starts below 2^32 |
| Directory.LookupIsFirst | fs/ext2.c:184-202 | lookup gives the first used entry with that name, and 0 exactly if there is none |
| Directory.EntriesRoundTrip | include/fs/ext2.h:245-254 | any list of well-formed entries is read back, in order, from its byte encoding |
| Directory.CompareName | lib/string/memcmp.c:3-15 | 0 if and only if all bytes agree, else -1 or 1 as the first byte that differs is below or above |
| Directory.ScanBlock | fs/ext2.c:247-264 | terminates for arbitrary record lengths and then reports only an inode whose entry header and name it has seen; on a well-laid chunk returns the first match of its entries |
| Directory.SearchIsLookup | fs/ext2.c:238-269 | the search block by block finds the first match among the entries of any leading blocks that are intact and settle it: they hold a match, or are all there are |
| Directory.SearchIsSettled | fs/ext2.c:238-269 | and meets only intact blocks if and only if some leading blocks settle it, so blocks after the first match do not matter |
| Directory.ScanDirectory | fs/ext2.c:238-269 | terminates on any directory; returns the result of the search if that meets only intact blocks |
| Directory.LookupInodeNum | fs/ext2.c:229-270 | the inode number of the first used entry of that name, 0 if none or no directory, if the blocks up to it are intact |
| Directory.LookupInode | fs/ext2.c:166-209 | the record found for that inode |
| Strtok.RunsAreClean | lib/string/strtok.c:4-31 | the names of a path are non-empty and contain no delimiter |
| Strtok.FirstRun | lib/string/strtok.c:16-27 | what strspn and strcspn delimit is the first non-empty piece, and the rest of the text holds the other pieces |
| Strtok.JoinedRuns | lib/string/strtok.c:4-31 | names put together, each after a delimiter, are found again |
| Strtok.Strspn | lib/string/strspn.c:3-19 | length of the longest prefix inside the set |
| Strtok.Strcspn | lib/string/strspn.c:21-35 | length of the longest prefix outside the set |
| Strtok.Cut | lib/string/strtok.c:11-30 | cuts off the first run in place: one byte zeroed, the rest of the string intact for the next call |
| Strtok.StrtokR | lib/string/strtok.c:4-31 | the same from the string or the saved position; nothing left, nothing changed |
| PathWalk.ResolveConcat | fs/ext2.c:272-289 | resolving a path is resolving its first part and going on from there |
| PathWalk.NextToken | fs/ext2.c:279 | tokenising one name ahead leaves the current name readable in the buffer |
| PathWalk.GetFpNum | fs/ext2.c:272-289 | the inode number is the fold of directory lookup from the root over the maximal slash-free runs of the path, if the directories on the way are intact as far as they are searched; so for a path put together from a list of names, what those names lead to from inode 2 |
| PathWalk.NamesOfPath | fs/ext2.c:277 | the names of a path in which each follows a '/' are those it was put together from |
| PathWalk.GetFp | fs/ext2.c:211-227 | the record of that same inode, if it starts below 2^32, likewise for a path put together from names |
| FrameBitmap.LowestClearIsLowest | arch/x86/mm.c:68-69 | count-trailing-zeros of the complement is the lowest clear bit |
| FrameBitmap.SetBitSets | arch/x86/mm.c:70 | the or with a shifted one sets that bit and no other |
| FrameBitmap.AllocPage | arch/x86/mm.c:66-76 | marks the lowest unused frame and no other and returns its address; 0 and no change exactly if all are used |
| FrameBitmap.LastFrame | arch/x86/mm.c:66-76 | taking the lowest unused frame leaves none if and only if it was the only one |
| Paging.RecursiveWindow | arch/x86/mm.c:22 | the page at 0xFFC00000 + 0x1000 * slot shows that slot's table |
| Paging.EntryFormat | arch/x86/mm.c:86-96 | present, writable and user are bits 0, 1 and 2 of an entry, the frame number is above bit 11, and opening sets bit 2 alone |
| Paging.NewTable | arch/x86/mm.c:82-88 | a fresh cleared table keeps all invariants and changes no translation |
| Paging.OpenSlot | arch/x86/mm.c:89-91 | opening a slot to user programs keeps every frame and gives a page user access exactly if its own entry grants it; in a normal slot, one other than 0, 768 and 1023, no translation changes |
| Paging.WriteEntry | arch/x86/mm.c:93-96 | writing a table entry maps its page, and its alias in a shared slot, each with the rights that entry and slot grant together, and leaves every other page as it was |
| DemandPaging.NewEntryBits | arch/x86/mm.c:94-96 | the entry written is present, names the frame of the address, has exactly the rights asked for and no other bit |
| DemandPaging.OwnerWritesAreHarmless | arch/x86/mm.c:101-107 | stores into demand-mapped frames change no translation and no ownership |
| DemandPaging.InitialTables | arch/x86/mm.c:39-60 | the start-up tables satisfy the invariant; below the recursive window they map exactly the first 4 MiB, except page 0, at 0 for reading and at 0xC0000000 for writing, and nothing for user programs |
| DemandPaging.Mm.constructor | arch/x86/mm.c:38-64 | the start-up code leaves exactly those mappings and reserves the first 1024 frames and no others |
| DemandPaging.Mm.StoreTables | arch/x86/mm.c:39-55 | the stores into the two tables |
| DemandPaging.Mm.ReserveFrames | arch/x86/mm.c:57-60 | marks the frames of the first 4 MiB used and no others |
| DemandPaging.Mm.PrepareSlot | arch/x86/mm.c:82-91 | fails, with no change, if and only if the slot has no table and no frame is left; else the slot has a table open to the rights asked for: the one it had, or a cleared one in the lowest unused frame; translations change only by the rights that opening grants |
| DemandPaging.Mm.MapPage | arch/x86/mm.c:78-99 | fails, with no change, if and only if an address is 0 or a table is needed and no frame is left; else the page, and its alias in a shared slot, translates to the frame, every other page as before but for what opening a shared slot grants; in slot 1023 it writes that directory entry |
| DemandPaging.MapsOne | arch/x86/mm.c:78-99 | in a normal slot the page gets exactly the rights asked for and no other translation changes |
| DemandPaging.Mm.PageFault | arch/x86/mm.c:101-117 | refuses, mapping nothing, if and only if the page is present, the address is 0, or the frames do not suffice for page and table; says which refused faults lose a frame, and that it is the lowest unused one; otherwise the page gets the lowest unused frame, writable, and open to user programs exactly for addresses from 0x10000000 to 0xC0000000, a table the next, and no other frame is taken; outside slot 1023, over any run of faults demand frames and table frames are pairwise distinct, not reserved and marked used |
| ArenaPages.PayloadsFaultIn | kernel/kmalloc.c:28-34 | a fault at any byte of a live payload of the user arena asks for user access, and at none of the kernel arena's |
| DemandPaging.NullFaultLosesFrame | arch/x86/mm.c:79-80 | an input on which a refused fault takes a frame: address 0 at start-up |
| DemandPaging.LastFrameIsLost | arch/x86/mm.c:82-85 | another: one frame left and no table |
| DemandPaging.WindowFault | arch/x86/mm.c:93-96 | after a fault in the recursive window of a slot without a table, its pages translate by what the new frame held, all others as before; the tables are sound if and only if it held no user entry |
| DemandPaging.WindowFaultKeepsOwned | arch/x86/mm.c:93-96 | the pages that own frames keep them through it |
| DemandPaging.WindowFaultBreaks | arch/x86/mm.c:93-96 | an input on which the tables become unsound |
| RoundRobin.StaysOnlyIfAlone | kernel/kthread.c:81-100 | c_thread stays if and only if no other slot is running, and a new one is running |
| RoundRobin.OnlyFinishedOthersReaped | kernel/kthread.c:87-95 | only finished slots other than the current one are reclaimed |
| RoundRobin.CallShortensWait | kernel/kthread.c:81-100 | the cyclic distance to a waiting thread strictly falls or its turn comes |
| RoundRobin.BoundedWaiting | kernel/kthread.c:76-101 | over any run of ticks, creations and returns a running thread becomes current within as many ticks as slots lie before it |
| RoundRobin.BoundedWaitingAny | kernel/kthread.c:76-101 | hence within max_t-1 ticks |
| RoundRobin.BoundedReclamation | kernel/kthread.c:87-95 | over any run a finished thread that is not current does not stay finished for as many ticks as slots lie before it |
| ThreadTable.FieldStored | include/kernel/kthread.h:19-28 | storing one word of a slot sets that field and no other, of this slot or any other |
| ThreadTable.StateStored | include/kernel/kthread.h:19-28 | storing the state byte changes the state of that slot alone |
| ThreadTable.TableSurvives | kernel/kthread.c:24-28 | the table is unchanged by every heap call, because its block stays live |
| Scheduler.Threads.constructor | kernel/kthread.c:21-36 | the table is a fresh live block of the heap, cleared but for slot 0, which is running; no other payload has changed |
| Scheduler.Threads.KthreadCreate | kernel/kthread.c:38-65 | takes the first unused slot and two fresh heap blocks owned by nobody else, the stack in the kernel's arena exactly for privilege 0 and the kernel stack always there, and leaves all payloads but the table and everything outside the arenas alone; error and no change exactly if no slot is unused |
| Scheduler.Threads.FillSlot | kernel/kthread.c:57-65 | the stores into the slot, one by one in memory, make it the running thread asked for and change no other slot and no other payload |
| Scheduler.Threads.Reclaim | kernel/kthread.c:87-95 | frees exactly the two stacks of the slot, as the table in memory has them, once; keeps ownership of all others, the words of every other payload that stays live and everything outside the arenas |
| Scheduler.Threads.KthreadSchedule | kernel/kthread.c:76-101 | reading the table in memory, picks the round-robin choice, reclaims exactly the finished slots passed, frees exactly their stacks, never the current one's, keeps ownership, and changes no word of a stack or other payload that stays live |
| Scheduler.Threads.KthreadRet | kernel/kthread.c:108-113 | marks the current thread finished and keeps its result; it still owns its stacks; no payload but the table changes |
| Scheduler.FreedStep | kernel/kthread.c:87-95 | each slot passed adds its stacks to those freed if and only if it is finished |
| Frames.PushAllAt | arch/x86/kthread.S:3-7 | pushed words lie downward from the stack pointer in order and nothing else changes |
| Frames.SaveThenRestore | arch/x86/kthread.S:3-34 | popping the frame in the code's order restores every register, with and without privilege change |
| Frames.FirstDispatch | arch/x86/kt_ctx.c:22-55 | the fabricated frame pops to eip = thread, interrupts on, zero registers, code and data selectors of descriptors that are present, flat and of the thread's level, and a stack with return address 0 then the argument |
| Segments.Entries | arch/x86/boot.S:136-149 | the descriptors are executable code and writable data of level 0, then of level 3 |
| Frames.UserModeIsLevel | arch/x86/kthread.S:3-34 | for the code selectors of that table, a change of stacks is the same as level 3 |
| Machine.ParkCurrent | arch/x86/kthread.S:3-24 | after the pushes, and whatever the handler does that spares the frame, the interrupted thread is parked |
| Machine.StaysParked | arch/x86/kthread.S:3-24 | a thread stays parked as long as its stacks are left alone |
| Machine.ParkedResumes | arch/x86/kthread.S:26-34 | switching to a parked thread brings back the registers and stacks it left with |
| Machine.SwitchKeepsParked | arch/x86/kthread.S:13-26 | a scheduler call with its reclaiming and the store of the stack pointer keep every remaining thread parked, the one just interrupted and the next one among them |
| Machine.StoresKeepSound | kernel/kthread.c:76-101 | stores that spare the stacks of all threads off the processor keep the machine sound |
| Machine.ArrivalKeepsParked | kernel/kthread.c:57-66 | a new parked thread leaves the machine sound if the stacks of the others are left alone |
| Kernel.System.constructor | kernel/kthread.c:28-34 | the boot state is sound |
| Kernel.System.SaveFrame | arch/x86/kthread.S:3-7 | what the processor and the stub push into memory, in order |
| Kernel.System.RestoreFrame | arch/x86/kthread.S:28-34 | the pops restore the registers the frame encodes |
| Kernel.System.Park | arch/x86/kthread.S:3-16 | after the pushes and the handler's stores the interrupted thread is parked, the heap is laid out as before, the other stacks and the upper part of the interrupted one are as before |
| Kernel.System.Switch | arch/x86/kthread.S:18-26 | storing the stack pointer in the table and loading the other one leaves the machine sound with the next thread, whose frame pops to the registers it left with; no stack changes |
| Kernel.TickKeepsParked | arch/x86/kthread.S:3-26 | through handler, reclaiming and kfree every remaining thread stays parked |
| Kernel.System.Tick | arch/x86/kthread.S:3-34 | a whole tick in the memory shared with heap and thread table: the table takes the round-robin step; finished threads passed are freed through the heap; a thread switched to has the registers and stacks of its last preemption or creation, one not switched away from goes on as it was; no other running thread's stack changes; soundness is kept |
| Kernel.System.Execute | kernel/kthread.c:76-101 | whatever the current thread stores outside other threads' stacks, the thread table and the heap's own words keeps the machine sound |
| Kernel.System.Allocate | kernel/kmalloc.c:36-91 | a thread may allocate at any time: what it gets was not live, no stack changes, soundness is kept |
| Kernel.System.Release | kernel/kmalloc.c:99-148 | and free anything that is neither a stack nor the thread table |
| Kernel.System.KtInitContext | arch/x86/kt_ctx.c:4-56 | the thread of the slot is then parked at its function, on the stack and with the argument its slot names, and the saved pointer in the table is below its first words; no other stack changes |
| Kernel.System.PushContext | arch/x86/kt_ctx.c:22-54 | the stores are exactly the first words of a thread, downwards from the top of its stack |
| Kernel.System.Create | kernel/kthread.c:38-74 | the stacks come from the heap and are disjoint from all others because of that; the new thread is parked with eip at its function, interrupts on, selectors of code and data segments of its level, and its argument above a null return address; every running thread's stack unchanged; error exactly if no slot is unused |
| Kernel.System.Return | kernel/kthread.c:108-113 | the current thread is finished, no stack changes and the machine stays sound |
| ThreadStacks.OwnedStacksDisjoint | kernel/kthread.c:50-65 | stacks of any two slots in use, the boot stack among them, are disjoint byte ranges, because each slot owns its heap blocks |
| ThreadStacks.BootStack | arch/x86/boot.S:10 | the kernel thread runs on the stack from 0xC0010000 to 0xC0017E00 |
| ThreadStacks.StacksHoldNoMetadata | kernel/kthread.c:50-65 | no stack contains a header or footer word of the heap |
| ThreadStacks.StacksHoldNoTable | kernel/kthread.c:24-65 | nor any word of the thread table |
| Ring.StepKeeps | lib/ringbuffer/ringbuffer.c:12-37 | every micro-step of producer or consumer, in any state, keeps the ring sound: stored elements whole, copies in progress right |
| Ring.FullAndEmpty | lib/ringbuffer/ringbuffer.c:12-19 | full means size-1 elements are waiting, empty means none |
| Ring.FifoOverEveryRun | lib/ringbuffer/ringbuffer.c:12-37 | under every interleaving what is taken is a prefix of what was accepted, whole and in order, and at most size-1 wait |
| RingBuffer.Buffer.constructor | lib/ringbuffer/ringbuffer.c:4-10 | an empty sound ring |
| RingBuffer.Buffer.RbEmpty | lib/ringbuffer/ringbuffer.c:12-14 | true exactly if everything accepted has been taken, whatever the producer is in the middle of |
| RingBuffer.Buffer.RbFull | lib/ringbuffer/ringbuffer.c:16-19 | true exactly if size-1 elements wait, whatever the consumer is in the middle of |
| RingBuffer.Buffer.StepPutPublish | lib/ringbuffer/ringbuffer.c:25 | advancing head is the micro-step that makes the element accepted |
| RingBuffer.Buffer.StepGetPublish | lib/ringbuffer/ringbuffer.c:34 | advancing tail hands over the next accepted element, untorn |
| RingBuffer.Buffer.RbPut | lib/ringbuffer/ringbuffer.c:21-28 | accepts the element unless the ring is full |
| RingBuffer.Buffer.RbGet | lib/ringbuffer/ringbuffer.c:30-37 | takes the oldest waiting element unless there is none |
| EventQueue.StepInforms | kernel/kevent.c:35-56 | every step of ring, delivery loop or registration, in any state, keeps each consumer exactly up to date: it has been given, in order, the events of its type among those it has been passed |
| EventQueue.DeliveredOverEveryRun | kernel/kevent.c:35-56 | under every interleaving of producer, delivery and registrations, what a consumer has been given is a prefix of the accepted events of its type due to it, all of them once the loop has caught up, and is never taken back; likewise in terms of the types and payloads the events were put together from |
| EventQueue.KindIsType | include/kernel/kevent.h:140-166 | of events put together from types and payloads, those picked for a type are exactly those of that type, in order |
| EventQueue.GiveKeepsUpToDate | kernel/kevent.c:46-49 | one delivery keeps a consumer exactly up to date with the events of its type |
| EventQueue.InformedInOrder | kernel/kevent.c:42-52 | each consumer has each accepted event of its type once and in order, but for those still on their way |
| EventQueue.Events.KeventRegister | kernel/kevent.c:35-40 | adds the consumer, in the middle of a delivery too, or 1 and no change exactly when the table is full |
| EventQueue.Events.Kinput | kernel/kevent.c:54-56 | 1 and no change exactly when the ring is full, else 0 and the event joins those accepted |
| EventQueue.Events.Take | kernel/kevent.c:45 | takes the next accepted event, none exactly when all are taken |
| EventQueue.Events.CallNext | kernel/kevent.c:46-49 | one pass of the loop over consumers is one delivery step |
| EventQueue.Events.Deliver | kernel/kevent.c:45-50 | one event goes to every consumer of its type and to no other; an event put together from a type and a payload to the consumers registered for that type |
| EventQueue.Events.Drain | kernel/kevent.c:45-50 | the inner loop ends with everything accepted taken, and every consumer given all that is due to it: of the (type, payload) pairs accepted since it was registered, those of its type, in order |
| Digits.TextParses | lib/stdio/printf.c:58-70 | the digits read back as the number, with a leading zero only for 0 |
| Digits.TextIsCanonical | lib/stdio/printf.c:58-70 | any digit string without superfluous zero is the one printed for its value: the output is minimal |
| IntStr.PrintThenParse | lib/stdio/printf.c:39-70 | sign and digits read back as the value, for every value, base and sign style |
| IntStr.PrintedForm | lib/stdio/printf.c:23-70 | minus for negative values, else plus, else blank as asked for, then the magnitude in the digits of the base: capital letters for 16, small ones for 17 |
| IntStr.NaturalIsShort | lib/stdio/printf.c:39-70 | no 64-bit value needs more than 23 characters |
| IntStr.PaddedRoundTrip | lib/stdio/printf.c:72-91 | with blanks, for every sign style and width, the number can be read from the field, which has length max(width, natural length) if and only if the difference does not wrap |
| IntStr.FillIsLack | lib/stdio/printf.c:72-75 | the padding is what the width lacks if and only if the width is at least -2^31 plus the length |
| IntStr.LeastWidthWraps | lib/stdio/printf.c:72 | the width -2^31 asks for 2^31-1 characters of padding |
| IntStr.RoomForWidth | lib/stdio/printf.c:84-90 | a buffer of 256 has room exactly for widths below 256 that do not wrap |
| IntStr.ZeroPadBefore | lib/stdio/printf.c:82-91 | with zeros on the left the field is a numeral if and only if nothing is padded or there is no sign, and then reads back as the value |
| IntStr.ZeroPadAfter | lib/stdio/printf.c:77-81 | with zeros on the right the field is a numeral, and reads back as the value if and only if nothing is padded or the value is 0 |
| IntStr.ZeroPadMinusFive | lib/stdio/printf.c:77-91 | -5 in a field of four becomes 00-5 or -500 |
| IntStr.WriteSign | lib/stdio/printf.c:39-54 | the sign written and the magnitude, without overflow for the minimum |
| IntStr.CountDigits | lib/stdio/printf.c:56-62 | the first loop counts the digits |
| IntStr.WriteDigits | lib/stdio/printf.c:66-70 | the second loop writes them backwards into exactly that space |
| IntStr.WriteNumber | lib/stdio/printf.c:35-70 | the buffer then holds sign and digits |
| IntStr.Pad | lib/stdio/printf.c:72-91 | the buffer then holds the padded text |
| IntStr.IntStr | lib/stdio/printf.c:14-94 | for every value, base, sign style, width the buffers have room for, justification and fill: exactly the padded text of the value |
| ShellLine.RunKeepsGood | kernel/kshell.c:135-272 | over all non-NUL input: line shorter than the buffer, history within its length, no empty entry, no two equal neighbours |
| ShellLine.StepKeepsGood | kernel/kshell.c:135-272 | one event keeps this, and the two capacities |
| ShellLine.TypingShows | kernel/kshell.c:226-229 | typing plain characters appends them to the line, as long as they fit |
| ShellLine.PlainStep | kernel/kshell.c:226-229 | one plain character is appended, or ignored when the line is full |
| ShellLine.TypeThenErase | kernel/kshell.c:214-224 | backspace and delete take back the character typed before, and leave an empty line alone |
| ShellLine.EnterStores | kernel/kshell.c:135-165 | a line typed and entered becomes the newest history entry, the oldest going if there is no room, and one move up shows it again |
| ShellLine.EnterSkips | kernel/kshell.c:137-143 | an empty line or a repetition leaves the history as it was |
| ShellLine.EscapesAreArrows | kernel/kshell.c:232-272 | ESC [ A and ESC [ B act as the arrow keys, and a released key does nothing |
| ShellLine.SavedThroughout | kernel/kshell.c:167-198 | while an older entry is shown, edits and moves leave the saved line alone |
| ShellLine.ExcursionRestoresText | kernel/kshell.c:167-198 | any excursion into history without Enter that returns to the live line restores its text |
| ShellLine.UpThenDown | kernel/kshell.c:167-198 | up then down is back where it was |
| Shell.Shell.constructor | kernel/kshell.c:274-311 | empty line, empty history |
| Shell.Shell.PointerIsLength | kernel/kshell.c:197 | shellptr is the length of the text in shellbuf and at most len-1 |
| Shell.Shell.HistNewline | kernel/kshell.c:135-165 | the buffers afterwards stand for the line state after Enter: no empty line or repetition stored, oldest evicted, newest first |
| Shell.Shell.ShiftHistory | kernel/kshell.c:153 | the overlapping move shifts the entries intact |
| Shell.Shell.HistMove | kernel/kshell.c:167-198 | the buffers afterwards stand for the line state after moving up or down |
| Shell.Shell.KconsumerShell | kernel/kshell.c:200-257 | every typed character, escape sequences included, acts on the line state as the step function says |
| Shell.Shell.KconsumerArrows | kernel/kshell.c:259-272 | arrow keys likewise |
| CString.Strncpy | lib/string/strcpy.c:10-20 | the string, zeros up to n, nothing beyond |
| CString.Strcmp | lib/string/strcmp.c:1-12 | 0 if and only if the strings are equal, else the difference of the first characters that differ |

## Left out

Stated with less than the whole behaviour:

- Kmalloc.Heap.Kmalloc: requires room below the arena's limit when it has to grow, because the code never checks for the end of an arena; and counts in words, so a size that is not a multiple of 4 appears only through the rounding.
- Kmalloc.Heap.Kfree: requires a live payload, NULL, or a pointer whose header is marked free; any other pointer is undefined in the code.
- Disk.Read: requires that the 32-bit sum at fs/ext2.c:38 does not wrap, and so does Disk.Plan; Disk.FitsIsNeeded shows that the transfer falls short otherwise.
- Directory.ScanBlock: says which entry is found only for chunks whose entries are laid out within the chunk; for others it says that an entry reported is there, and bytes past the buffer are arbitrary.
- Directory.LookupInodeNum: says what is found only if the blocks up to the first match can be read and are well laid out, and so do LookupInode, GetFp and GetFpNum along the path.
- DemandPaging.Mm.MapPage: stores the entry once with all its bits, where the code stores it and then adds the rights; in slot 1023 the tables may become unsound, so nothing is claimed about later calls then.
- Scheduler.Threads.KthreadCreate: stops before kt_init_context, which Kernel.System.Create adds; requires room for two stacks in the arenas; the error branch for a failed allocation is then unreachable, and that the error return at kernel/kthread.c:44-47 does not unlock is not modelled.
- Scheduler.Threads.KthreadRet: assumes slot 0, the kernel, never returns.
- Kernel.System.Tick: assumes that the handler's own stores, other than those of the frame, the scheduler and the heap, spare the heap's headers and footers, the thread table, the stacks of other running threads and, of the interrupted one, everything above its calls.
- Kernel.System.Execute: stands for running code; it assumes that a thread stores only outside the stacks of other threads, the thread table and the heap's headers and footers, and is interrupted only with room for a frame on its stack and a stack pointer that is a multiple of four.
- IntStr.IntStr: requires a zeroed buffer with room for the field, and when right-justified a field that fits the code's 256-byte scratch array; the code checks neither.
- Shell.Shell.KconsumerShell: excludes the NUL character, which would end the text inside the buffer.
- RingBuffer.Buffer.constructor: excludes a ring of size 0, on which rb_put would divide by 0.
- RingBuffer.Buffer.RbPut: is the call run without interleaving; interleaved micro-steps are the subject of Ring.FifoOverEveryRun. Loads and stores take effect in program order.
- EventQueue.Events.KeventRegister: takes effect when con_idx is advanced; two registrations at once are not modelled.
- BlockMap.Divisor: requires, like GetBlockIter, a power of the pointer count below 2^32, as get_block provides.
- Kernel.System.Create: requires room for two stacks in the arenas, as KthreadCreate does, and Kernel.System.Allocate room for its block.
- Kernel.System.Return: excludes slot 0, as KthreadRet does.

Not modelled at all:

- Concurrency of the heap: kmalloc and kfree take no lock, so each call is taken as atomic.
- Device drivers: the device is its contents plus the set of transfers that succeed; the same transfer always ends the same way, and waiting and retries are not modelled.
- Release of temporary buffers in the ext2 reader, and the failure branches of its allocations of positive size.
- ext2_open and its flags, ext2_init, the superblock, stat and mode strings: no computation behind them, and the create path is unfinished.
- kthread_join: the result of a slot that is reused has no clean meaning.
- The lock and unlock calls, pic_eoi, kstack_update beyond the value it stores, the TSS and the loading of the descriptor table.
- Unaligned stack pointers: frames are pushed and popped as whole words.
- The TLB, cr0 and cr3: translations are read from the tables.
- The endless outer loop of kevent_proc: only its inner loop is a method.
- kshell_proc and everything printed by the shell.
- vformat, printf and its varargs: only the integer conversion is modelled.
- VGA, serial, PS/2, PCI, ATA, PIT, PIC, boot code, system call entry, dllist and the string functions not named above: simple loops or port input and output.
