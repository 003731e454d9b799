# A small RISC-V kernel: memory, address spaces, files and processes

This project models the four stateful components of the kernel and proves what
each of them is for, over all inputs, all runs and all reachable states.  Every
component has two layers: a specification on values (lists as sequences, page
tables as a tree of frames, a disk as a sequence of blocks, the process system
as a record), about which the laws are proved, and classes whose methods update
memory words, page frames, disk blocks or list nodes in place as the C code
does and are proved equal to a step of the specification.

**Buddy allocator** (`Bits`, `PowerOfTwo`, `Blocks`, `BuddySets`, `BuddySpec`,
`BuddyRegion`, `BuddyRuns`, `BuddyLinks`, `Buddy`, `Memory`).  `BuddySets` says
what a canonical tiling is: free and used blocks partition the region and no two
free blocks are buddies; then the free blocks are exactly the maximal aligned
blocks of the free bytes.  `BuddySpec` and `BuddyRegion` are the operations on
thirty lists, `BuddyRuns` whole histories.  `Buddy.Allocator` keeps list heads in
an array and the links in the first word of each free block, and refines them,
writing only words of free or just-freed blocks.  `Memory` is the frame layer:
it proves of real blocks, on page contents, the very predicates
`AddressSpace.FrameTaken` and `AddressSpace.FrameGiven` that the page tables
assume of their frame allocator.

**Page tables** (`Bytes`, `Pte`, `PageTree`, `PageRange`, `AddressSpace`,
`FrameBudget`, `PageTable`, `Teardown`, `Translation`, `CopySpace`, `Elf`).  A three-level tree of page frames
is shown to translate, by the walk of section 4.3.2 of the RISC-V Privileged
Architecture (version 20211203), exactly like a finite map from 27-bit page
numbers to entries.  `PageTable.Machine` builds it lazily in physical memory, and
`FrameBudget` says exactly how many frames that takes;
`Teardown` gives frames back; `Translation` says what the walk finds at an
address; `CopySpace` copies an address space; `Elf` builds
one from the program headers and shows that it meets the conditions of both.

**File system** (`FsLayout`, `FsStructs`, `FsOwners`, `FsFiles`, `FsGrow`, `FsWrite`,
`FsCreate`, `FileSystem`, `Mkfs`, `FsSession`, `FileCalls`).  Every allocated block is one of
the three fixed ones or is named by exactly one slot (inode table, direct,
indirect or far pointer); free blocks are zero; a file's block list is a prefix
of its slots.  `Mkfs.Builder` establishes this, every operation of
`FileSystem.Image` keeps it, and reads and writes refine slicing and splicing of
one byte sequence per file.  `FsStructs` ties the accessors to the bytes of the C structures.  `FsSession` adds the open files with their offsets, and
`FileCalls` the system calls and the scheduler on both sides: the files of `OpenFiles` have their
counts in the process system and their offsets in the file system.

**Processes** (`Lists`, `PidMap`, `ProcSpec`, `ProcFiles`, `ProcSteps`,
`ProcKeeps`, `ProcRuns`, `ProcEffects`, `Orphans`, `Kernel`).  `Lists` proves the circular lists of
`list.h` against sequences.  `ProcSteps` gives each system call and the
scheduler as one step on values, `ProcKeeps` that each step keeps the invariant,
`ProcEffects` what each step changes and what it leaves, field by field,
`ProcRuns` what follows over whole runs, `Orphans` how a process with children
comes to exit.  `Kernel.System` is the code itself on
nodes, tables of open files and the pid bitmap, each method equal to its step.

Where comments in the source and its code differ, the model follows the code:
`next_power_of_two` yields 0 for 0 and for sizes above 2^63; `sys_close` returns
0 for any descriptor; reading the root directory returns the next file in use
at or after the offset; the reparenting loop of `exit_current` never ends for a
process with children (`Kernel.System.Exit`, `Orphans.OrphansReachable`).

Five more things follow from the code and are stated exactly: a program header
without any permission gives entries that teardown takes for tables
(`Elf.TearsDownWhen`), one that may be written but not read gives pages that
fault, one with an unaligned address has its first byte at the page boundary
before it (both `Elf.ProgramPages`), one that covers the user stack makes teardown give
back stack frames (`CopySpace.StackGivenBack`), and a second fork in a row leaves
the kernel's linear segments out (`CopySpace.SecondCopy`).

## Model
| member | source | states |
|---|---|---|
| PowerOfTwo.NextPowerOfTwoLeast | kernel/buddy_system_allocator.c:105-114 | `next_power_of_two`, with 64-bit wrap-around, gives the least power of two at or above size if and only if 1 <= size <= 2^63; it gives 0 for all other sizes |
| PowerOfTwo.PrevPowerOfTwoGreatest | kernel/buddy_system_allocator.c:119-122 | `prev_power_of_two` gives the greatest power of two at or below size if and only if 1 <= size <= 2^63; it gives 0 for all other sizes |
| PowerOfTwo.SmearAllBits | kernel/buddy_system_allocator.c:107-112 | after the six shift-or steps a bit is set exactly when it or one of the 63 bits above it was set |
| PowerOfTwo.GetOrder | kernel/buddy_system_allocator.c:127-134 | the loop computes the exponent of the highest set bit |
| PowerOfTwo.Log2OfPow2 | kernel/buddy_system_allocator.c:127-134 | so `get_order` inverts 2^k |
| Blocks.LowBitIs | kernel/buddy_system_allocator.c:25-36 | `current & (~current + 1)` is the largest power of two that divides the address |
| Blocks.Laminar | kernel/buddy_system_allocator.c:46-99 | aligned power-of-two blocks are nested or disjoint |
| Blocks.BuddyAddrIs | kernel/buddy_system_allocator.c:75 | flipping bit k of a block address gives the other half of the aligned block twice the size, on the side that alignment says |
| Blocks.Halves | kernel/buddy_system_allocator.c:75-93 | a block and its buddy are the two halves of the block at MIN of their addresses, and the buddy of the buddy is the block |
| BuddySets.InsideOneFree | kernel/buddy_system_allocator.c:70-99 | once no two free blocks are buddies, every wholly free aligned block lies inside one free block |
| BuddySets.Canonical | kernel/buddy_system_allocator.c:70-99 | then a block is free if and only if it is a maximal aligned block of the free bytes |
| BuddySets.SameBytesSameBlocks | kernel/buddy_system_allocator.c:70-99 | so the free bytes determine the free blocks |
| BuddySets.MergePartition | kernel/buddy_system_allocator.c:86-94 | replacing two buddies by their parent keeps the region tiled, and the parent stays below order 30 |
| BuddySets.SplitPartition | kernel/buddy_system_allocator.c:51-57 | replacing a block by its halves keeps the region tiled |
| BuddySpec.AdjustedPow2 | kernel/buddy_system_allocator.c:47-48 | every request becomes a power of two from 2^3 to 2^63; it covers the request if and only if the request is at most 2^63 |
| BuddySpec.FirstFit | kernel/buddy_system_allocator.c:49-50 | the search finds the first nonempty list at or above the order |
| BuddySpec.SplitLists | kernel/buddy_system_allocator.c:51-57 | what splitting leaves on each list: one right half on every list passed, both halves on the wanted one, other lists untouched |
| BuddySpec.SplitTiling | kernel/buddy_system_allocator.c:51-57 | splitting keeps the tiling of free and used blocks and the number of free bytes |
| BuddySpec.AllocKeeps | kernel/buddy_system_allocator.c:46-61 | `buddy_alloc` keeps the invariant; a block it returns was wholly free, is inside the region and is disjoint from every used and remaining free block; it starts the first block on the list of the least order that has a free block large enough; a NULL leaves the state unchanged |
| BuddySpec.AllocComplete | kernel/buddy_system_allocator.c:46-61 | `buddy_alloc` returns NULL if and only if the order is 30 or more or no aligned block of that order is wholly free |
| BuddySpec.MergeKeeps | kernel/buddy_system_allocator.c:70-99 | putting a block back and merging upwards never indexes past list 29, keeps the tiling, leaves no two free buddies and adds exactly its bytes |
| BuddySpec.DeallocKeeps | kernel/buddy_system_allocator.c:70-99 | `buddy_dealloc` of a used block succeeds, keeps the invariant and removes exactly that block from the used ones; the byte counter does not wrap |
| BuddyRegion.StepSizeIs | kernel/buddy_system_allocator.c:25-36 | the step MIN(low bit, `prev_power_of_two`) is the largest aligned block that starts at the address and fits, up to 2^30 |
| BuddyRegion.AddKeeps | kernel/buddy_system_allocator.c:24-37 | greedy cutting tiles the region exactly with blocks that host every aligned block of it; running past the lists means the region holds an aligned block of 2^30 bytes |
| BuddyRegion.AddFitsExactly | kernel/buddy_system_allocator.c:24-37 | `add_to_buddy` stays within the thirty lists if and only if the region holds no aligned block of 2^30 bytes |
| BuddyRegion.InitialInv | kernel/buddy_system_allocator.c:9-37 | `init_buddy` and one `add_to_buddy` establish the invariant, with no two free buddies |
| BuddyRuns.StepKeeps | kernel/buddy_system_allocator.c:46-99 | a request or release that the clients may make always succeeds and keeps the invariant |
| BuddyRuns.StepEffect | kernel/buddy_system_allocator.c:46-99 | a request takes a wholly free block, cut from a free block of the least sufficient order, if and only if there is one, and `allocated` grows by its size; a release gives its block and its size back; a byte of the region is then free if and only if no used block holds it |
| BuddyRuns.RunKeeps | kernel/buddy_system_allocator.c:46-99 | the invariant holds after every history |
| BuddyRuns.LawfulRuns | kernel/buddy_system_allocator.c:46-99 | a history runs to its end if and only if each release is of a block held |
| BuddyRuns.UsedDeterminesFree | kernel/buddy_system_allocator.c:46-99 | two reachable states with the same used blocks have the same free blocks |
| BuddyRuns.FreeingRestores | kernel/buddy_system_allocator.c:24-99 | after any history that ends with nothing held, the free blocks of every order are the initial ones |
| BuddyRuns.Conservation | kernel/buddy_system_allocator.c:24-99 | in every reachable state free and used bytes add up to the region, `allocated` is the used bytes, and all blocks are disjoint |
| BuddyLinks.PushLinked | kernel/buddy_system_allocator.h:7-11 | writing the old head into a block on no list and making it the head puts it on list k and keeps all lists linked |
| BuddyLinks.PopLinked | kernel/buddy_system_allocator.h:13-18 | the head is the first block; its first word is the rest of the list |
| BuddyLinks.UnlinkLinked | kernel/buddy_system_allocator.c:76-90 | storing the next link in the previous block cuts a block out of the middle of its list and keeps all lists linked |
| BuddyLinks.HeldUnchanged | kernel/buddy_system_allocator.c:46-99 | writes within free blocks of any least order leave every word of a used block unchanged |
| Buddy.Allocator.constructor | kernel/buddy_system_allocator.c:9-15 | all lists empty, both counters zero |
| Buddy.Allocator.PushBlock | kernel/buddy_system_allocator.h:7-11 | PUSH on the array of heads and the memory words |
| Buddy.Allocator.PopBlock | kernel/buddy_system_allocator.h:13-18 | POP returns the head; no word of memory changes |
| Buddy.Allocator.Unlink | kernel/buddy_system_allocator.c:84-90 | `*prev = *next` cuts the block out and writes one word of a free block |
| Buddy.Allocator.FindBehind | kernel/buddy_system_allocator.c:76-84 | the walk behind the head finds the buddy if and only if it is there |
| Buddy.Allocator.SplitDown | kernel/buddy_system_allocator.c:51-57 | the splitting loop equals the specified split and writes only words of the block being split |
| Buddy.Allocator.Alloc | kernel/buddy_system_allocator.c:46-61 | result, lists and counters equal the specified allocation; all links stay linked, NULL-terminated and in memory; only words of free blocks of at least the requested order change, and none if it fails; the first word of the block is a link or NULL, so a multiple of 8 |
| Buddy.Allocator.MergeUp | kernel/buddy_system_allocator.c:73-97 | the merging loop equals the specified merge and writes only words of blocks that were free or are being freed |
| Buddy.Allocator.Dealloc | kernel/buddy_system_allocator.c:70-99 | state equals the specified release, from the size the block was requested with; only words of the block and of free blocks of at least its order change |
| Buddy.Allocator.AddToBuddy | kernel/buddy_system_allocator.c:24-37 | cuts the region as specified, counts its bytes, establishes the invariant and writes no word outside it |
| Memory.FrameRoundTrip | kernel/memory.c:44-57 | the frame number of a page block leads back to its address |
| Memory.FramesTaken | kernel/memory.c:44-59 | between the state where a page is free and the one where it is used, the set of wholly free frames differs by exactly that frame |
| Memory.CandidateFrame | kernel/memory.c:44-50 | an aligned wholly free page exists if and only if some frame is free |
| Memory.FramesOnly | kernel/buddy_system_allocator.c:46-99 | writes inside blocks of at least a page are writes inside wholly free frames |
| Memory.PagesKeep | kernel/memory.c:44-59 | if only words in frames of a set change, every other page frame of the region has the same 4096 bytes |
| Memory.AllocFrame | kernel/memory.c:44-50 | some free frame, which leaves the free frames, all of its words zero; none, and nothing changed, if and only if no frame is free; only words of wholly free frames change; on page contents it is the very contract of the page tables' allocator |
| Memory.DeallocFrame | kernel/memory.c:57-59 | the frame was not free and joins the free frames; only words of wholly free frames change; on page contents it is the very contract of the page tables' allocator |
| Memory.AllocFile | kernel/fs.c:154-157 | a struct File just allocated, whose type `sys_open` does not set, never has type FILE_STDIO, whatever its count |
| Memory.LinkIsNotStdio | kernel/fs.c:154-157 | the low 16 bits of a link are not FILE_STDIO and are not changed by storing the count |
| Pte.PpnRoundTrip | kernel/mapping.h:13-15 | PTE2PPN undoes PPN2PTE for 44-bit frame numbers and 10-bit flags |
| Pte.PtePaIsFrame | kernel/mapping.h:13-14 | PTE2PA is the address of the frame PTE2PPN names, for every entry |
| Pte.MakePteBits | kernel/mapping.h:15 | bits 0-9 of an entry are the flags and the bits above the frame number |
| Pte.LevelsDetermineKey | kernel/mapping.c:37-43 | two page numbers have the same three indices if and only if their low 27 bits agree |
| Pte.VpnAtLevels | kernel/mapping.c:37-43 | any three indices are those of some page number |
| Pte.EntrySet | kernel/mapping.c:83-93 | storing a 64-bit entry in a page changes that entry and no other |
| Pte.TableEntry | kernel/mapping.h:33-34 | entry i of a table frame is number i of 512 64-bit numbers |
| PageTree.WalkIsLeaf | kernel/mapping.c:53-72 | on an unshared three-level tree the Sv39 walk of section 4.3.2 finds exactly the leaf entry: the tables refine a finite map |
| Translation.WalkOfEntry | kernel/mapping.h:19-23 | a page with a valid entry translates by the walk if and only if its flags are readable, or executable and not writable |
| Translation.ReadsWhen | kernel/mapping.h:13-15 | then, and only then, reading through the walk finds the bytes of its frame; otherwise the walk faults |
| PageTree.AddTable | kernel/mapping.c:58-63 | linking a fresh zeroed frame as a table keeps the tree and changes no mapping |
| PageTree.SetLeaf | kernel/mapping.c:83-93 | storing a leaf entry changes the mapping of its 27-bit page number only |
| PageTree.TreeFrame | kernel/mapping.c:53-72 | writes outside the table frames leave the tree and all mappings alone |
| PageRange.PageVisited | kernel/mapping.c:13-14 | the loop over a nonempty range visits a page if and only if the page holds an address of the range |
| PageTable.Machine.NextTable | kernel/mapping.c:58-69 | follows a pointer, or builds the missing table when asked to; new tables come from free frames and no mapping changes |
| PageTable.Machine.FindEntry | kernel/mapping.c:53-72 | finds the place of a page's entry, building tables if asked; the only tables added are the two on the way to the page, both there afterwards if it is found; without creation it fails if and only if the bottom table is missing, with creation only when no frame is left and the bottom table is missing; no mapping changes |
| PageTable.Machine.MapPages | kernel/mapping.c:83-93 | the pages of the range map to consecutive frames, all other pages as before; done if and only if there are as many free frames as tables missing on the way to the pages, and then exactly those are taken |
| PageTable.Machine.MapOne | kernel/mapping.c:105-125 | one page gets its linear frame, or a fresh frame with its share of the data; fails if it has an entry, or when no frame is left and its bottom table or its own frame is missing; a linear page in the kernel's map gets the frame at its own address less KERNEL_MAP_OFFSET |
| PageTable.Machine.MapSegment | kernel/mapping.c:103-126 | every page of the segment was unmapped and now has the segment's flags and its linear frame, or a frame of its own with its part of the data and zeros; all other pages as before; if no page is mapped already, done if and only if there are as many free frames as missing tables and own pages, and then exactly those are taken; each page of a linear segment is mapped to its own address less KERNEL_MAP_OFFSET |
| PageTable.LinearAddress | kernel/mapping.h:11 | the frame of a page in the kernel's map is at the address of the page less KERNEL_MAP_OFFSET |
| PageTable.LinearMapped | kernel/mapping.c:103-126 | after `map_segment` of a linear segment whose flags translate, the walk for each of its pages in the kernel's map ends at a level-0 entry with these flags and the frame at the page's address less KERNEL_MAP_OFFSET |
| PageTable.SegmentNeedAtMost | kernel/mapping.c:103-126 | that is never more than three frames a page |
| FrameBudget.Balance | kernel/mapping.c:53-126 | while a range is mapped, free frames, tables and data frames add up to what there was |
| FrameBudget.Spent | kernel/mapping.c:53-126 | a mapped range has taken exactly its missing tables and own pages |
| FrameBudget.TooFew | kernel/mapping.c:53-126 | when no frame is left and a page lacks its table or frame, there were fewer free frames than that |
| Teardown.PointsToTableBits | kernel/mapping.c:158-160 | the test for a next-level table: valid, and neither readable, writable nor executable |
| Teardown.UnmapSegment | kernel/mapping.c:134-147 | a framed segment's data frames are freed, a linear one's never |
| Teardown.DeallocTable | kernel/mapping.c:154-166 | frees exactly the frames of the tables at and below a node, each once, recursing by tree level |
| Teardown.DeallocMemoryMap | kernel/mapping.c:180-190 | frees exactly the data frames of the listed framed segments and all table frames, each once, and empties the list |
| CopySpace.CopyPage | kernel/mapping.c:210-212 | the byte loop makes the two frames equal |
| CopySpace.CopySegment | kernel/mapping.c:199-214 | one more segment is copied; what was copied before is kept; refused only if it shares a page with an earlier one or there were fewer free frames than the whole copy takes |
| CopySpace.CopyMm | kernel/mapping.c:195-217 | done if and only if no two segments share a page and there are as many free frames as the copy takes, of which it takes exactly that many; the copy maps exactly the listed pages, the source is unchanged, the copy's list is the source's framed segments in order |
| CopySpace.CostLeft | kernel/mapping.c:195-217 | tables and own pages of a listed address space are exactly the frames that are no longer free |
| CopySpace.CopyPreserves | kernel/mapping.c:195-217 | a linear page has the source's entry in the copy; a framed page has its flags and another frame, taken from the free ones, with equal bytes; the walk finds the two entries in source and copy, or faults in both if the flags are no leaf's |
| CopySpace.CopyTranslates | kernel/mapping.c:195-217 | a copy translates exactly the listed pages that its source translates; so it translates all of them if and only if all are listed |
| CopySpace.SecondCopy | kernel/mapping.c:202-203 | a copy of a copy translates no page of any linear segment, although the copy does |
| CopySpace.CopyAgain | kernel/mapping.c:195-217 | a copy meets the conditions of `copy_mm` |
| CopySpace.LoadedPages | kernel/mapping.c:103-126 | after `map_segment`, reading by the walk at the k-th address of the segment's pages gives byte k of the data, and zeros after it, if and only if the flags translate, otherwise the walk faults; the data begins at the page boundary wherever the segment starts |
| CopySpace.LoadedBytes | kernel/mapping.c:103-126 | so for a page-aligned start and len bytes, start + k holds byte k, up to the end of the last page |
| CopySpace.CopyTearsDown | kernel/mapping.c:154-217 | with accessible flags a copy meets the conditions of `dealloc_memory_map`, which gives back exactly what copying took |
| CopySpace.StackTearsDown | kernel/process.c:108-112 | mapping the user stack leaves an address space owning its frames if and only if no page of its list is a stack page; such a page names the stack's frame; no stack frame becomes a table or belongs to the list |
| CopySpace.StackGivenBack | kernel/mapping.c:83-93 | exactly what teardown gives back for the pages afterwards: the stack's frame for each page that is a stack page, whose data frame is lost |
| CopySpace.StackSource | kernel/process.c:188-192 | with a stack apart from its list an address space can still be copied, with the same entries for all listed pages |
| Elf.ConvertFlags | kernel/elf.c:9-21 | sets valid, user and one flag for each permission |
| Elf.ConvertedIs | kernel/elf.c:9-21 | exactly which bits those are |
| Elf.ConvertedAccessible | kernel/elf.c:9-21 | the flags are readable, writable or executable if and only if the header has a permission |
| Elf.ConvertedTranslates | kernel/elf.c:9-21 | the flags translate if and only if the header has read permission, or execute without write permission |
| Elf.MapNext | kernel/mapping.c:103-126 | a segment about to be listed is mapped if and only if it shares no page with those listed and there are enough free frames; framed segments keep their bytes |
| Elf.NewKernelMemoryMap | kernel/mapping.c:222-261 | done if and only if no two of the five linear segments share a page and there are as many free frames as their tables; the list is the five segments in order and names exactly what is mapped; the walk finds each address of .text readable and executable, of .rodata readable, and of .data, .bss and the memory after the kernel readable and writable, with no other permission and at the frame it stands for |
| Elf.KernelRanges | kernel/mapping.c:225-247 | any address space whose list has the kernel's segments in it maps these ranges so |
| Elf.LoadHeader | kernel/elf.c:41-55 | one program header: a nonempty one of type 1 has its segment mapped, filled and put at the head of the list, any other is skipped; refused only for a shared page or too few free frames |
| Elf.FromElf | kernel/elf.c:30-57 | done if and only if the first four bytes are 7f 45 4c 46, no two segments share a page and there are as many free frames as the address space takes; segments of all nonempty headers of type 1 before the kernel's; all their bytes are read by the walk with their permissions, every entry outside the kernel's segments is on a page of such a header, the kernel's ranges keep their permissions; every frame taken is in a table or backs a listed page |
| Elf.ProgramPages | kernel/elf.c:45-55 | for a header of type 1 with 0 < `p_memsz` < 2^64: reading by the walk at the k-th address of a header's pages finds byte `p_offset` + k for k < `p_memsz`, with the header's permissions, and zeros after it, if and only if the header has read permission, or execute without write permission, otherwise the walk faults; the first byte is at the page boundary, not at `p_vaddr`, unless that is aligned |
| Elf.ProgramBytes | kernel/elf.c:45-55 | so for an aligned `p_vaddr` byte x is at `p_vaddr` + x, up to the end of the last page |
| Elf.ProgramFound | kernel/elf.c:41-55 | of all such headers at once, with the permission bits of the entries spelled out |
| Elf.ProgramOnly | kernel/elf.c:41-55 | every entry outside the kernel's segments belongs to a page of a nonempty header of type 1 |
| Elf.HeaderBack | kernel/elf.h:25-34 | a struct ProgHeader stored field by field is read back |
| Elf.FileHeaderBack | kernel/elf.h:8-23 | so are `e_phoff` and `e_phnum` of a struct ElfHeader |
| Elf.HeadersBack | kernel/elf.c:38-41 | and all program headers stored from `e_phoff` on, in order |
| Elf.TearsDownWhen | kernel/mapping.c:154-166 | teardown can tell entries from tables if and only if each segment with pages is readable, writable or executable |
| Elf.ProgramSpace | kernel/elf.c:30-57 | a loaded program meets the conditions of `copy_mm` and, if each loadable header has a permission, those of `dealloc_memory_map`, which gives back exactly what was taken |
| FsStructs.SuperRead | kernel/fs.h:15-19 | a struct SuperBlock stored field by field: the count of clear blocks is read back |
| FsStructs.InodeRead | kernel/fs.h:21-27 | a struct Inode stored field by field is read back: size, name, block count, twelve direct pointers, the indirect one |
| FsStructs.TableRead | kernel/fs.c:52-64 | entry k of the inode table is number k of 256 16-bit numbers |
| FsStructs.IndirectRead | kernel/fs.c:250-255 | pointer j of an indirect block is number j of 128 32-bit numbers |
| FsStructs.BitmapRead | kernel/fs.c:34-42 | a block is taken if and only if bit i % 8 of byte i / 8 of the bitmap is set |
| FsStructs.FileByte | kernel/fs.c:89-113 | byte x of a file is in the block that direct pointer x / 512 names, or pointer x / 512 - 12 of the indirect block |
| FsOwners.TakeBlock | kernel/fs.c:27-45 | marking a clear block keeps the ownership invariant; the block is all zero and owned by nobody |
| FsOwners.NameBlock | kernel/fs.c:228-256 | naming a pending block in an empty slot makes that slot its one owner |
| FsOwners.LinkFat | kernel/fs.c:52-64 | the same for an entry of the inode table |
| FsOwners.LinkDirect | kernel/fs.c:236-242 | the same for a direct pointer |
| FsOwners.LinkIndirect | kernel/fs.c:247-249 | the same for the indirect pointer; the fresh block names nothing because free blocks are zero |
| FsOwners.LinkFar | kernel/fs.c:250-255 | the same for a pointer in the indirect block |
| FsOwners.WriteData | kernel/fs.c:280-290 | writing a data block changes no name and no owner |
| FsGrow.GrowStep | kernel/fs.c:228-256 | each block added extends the prefix of slots by one and keeps header, old blocks and other files |
| FsGrow.EnlargedIs | kernel/fs.c:228-256 | together: the new block count, the prefix shape, all old slots, all other files, and exactly the blocks added plus a possible indirect one gone from the free ones |
| FsWrite.WriteInBlock | kernel/fs.c:277-294 | writing part of one block changes those bytes of that file and nothing else |
| FsWrite.WrittenContents | kernel/fs.c:258-300 | enlarging, writing and setting the size is one splice of the file's byte sequence |
| FsWrite.SpliceRead | kernel/fs.c:89-113 | reading the range just written gives the data; the size is the larger of the old one and the end of the data |
| FsWrite.SpliceIs | kernel/fs.c:277-300 | the bytes of the data are at the offset, every other byte at its place; the size is the larger of the old one and the end of the data |
| FsWrite.OthersKeptMeans | kernel/fs.c:258-300 | a file kept has the same name and contents |
| FsCreate.FileAdded | kernel/fs.c:52-64 | a new, uniquely named file in the first free entry keeps the file-system invariant |
| FsCreate.CreateDone | kernel/fs.c:125-135 | `create` adds an empty file of the name and leaves all others alone |
| FileSystem.Image.AllocFreeBlock | kernel/fs.c:27-45 | the lowest clear block, now marked and counted; -1 if and only if none is clear |
| FileSystem.Image.IncreaseSize | kernel/fs.c:228-256 | blocks becomes the maximum of the old count and the one the new size needs, with the prefix shape; old slots and other files stay; the free count drops by exactly the blocks taken |
| FileSystem.Image.WriteInode | kernel/fs.c:267-299 | at off <= size: contents become the splice, the invariant holds, name and all other files stay |
| FileSystem.Image.ReadInode | kernel/fs.c:89-113 | at off <= size: the next count bytes of the contents, or what there is |
| FileSystem.Image.Lookup | kernel/fs.c:71-82 | the inode of a file of that name, or 0 if and only if there is none |
| FileSystem.LookupUnique | kernel/fs.c:71-82 | there is at most one |
| FileSystem.Image.ReadRoot | kernel/fs.c:183-202 | the inode of the first entry in use at or after the offset, or nothing if there is none |
| FileSystem.RootOrder | kernel/fs.c:183-202 | the k-th read of the root gives file k for k < files and then nothing |
| FileSystem.Image.AllocInode | kernel/fs.c:52-64 | a fresh zero block in the first free entry; -1 if and only if the table is full or no block is clear |
| FileSystem.Image.Create | kernel/fs.c:125-135 | one more file, empty, with the name; the invariant holds and other files stay |
| FsSession.Session.Resolve | kernel/fs.c:140-153 | a name stands for the root, the file of that name, or a new empty one; found if and only if it is known or to be created; nothing else changes |
| FsSession.Session.Read | kernel/fs.c:217-220 | the next bytes of the file and the offset after them, or for the root its next inode; every open file's offset stays inside its file |
| FsSession.Session.Write | kernel/fs.c:270-299 | a splice at the offset, which moves past the data; offsets of all open files, also of the same file, stay inside |
| FileCalls.Calls.Open | kernel/fs.c:137-163 | the first free descriptor names a new file with count 1 at offset 0 that stands for the name, and nothing else about the processes changes; -1 and no change if and only if no entry is free or the name is not "/", not a file's and not to be created; a step of the process system |
| FileCalls.Calls.Read | kernel/fs.c:176-224 | a read of the file behind the descriptor; -1 without one, but 0 for a count of 0; no other open file's offset and no process changes |
| FileCalls.Calls.Write | kernel/fs.c:258-300 | a write of the file behind the descriptor, -1 without one; no other open file's offset and no process changes |
| FileCalls.Calls.Close | kernel/fs.c:165-174 | the entry is empty, the file that was there has one reference less and is gone with the last one, every other table, file and count stays; this is the step Close, and no offset or block changes |
| FileCalls.Calls.Fork | kernel/process.c:205-215 | the step Fork: the child's descriptors name the very files of its parent, so the two share one offset, and each count grows by the entries that name the file |
| FileCalls.Calls.Start | kernel/process.c:310-331 | the state after `init_process` with a mounted image: processes and file system agree on the open files |
| FileCalls.Calls.Exec | kernel/process.c:273-282 | the step Exec: three new files of count 1; files whose last entry goes are no longer open in the file system |
| FileCalls.Calls.Wait | kernel/process.c:218-246 | one round is the step Wait, as for the kernel alone; files of a deleted child that no other entry names are no longer open in the file system |
| FileCalls.Calls.Yield | kernel/process.c:167-171 | the step Yield: the caller is ready and last in the queue and the scheduler runs; processes and file system still agree |
| FileCalls.Calls.Schedule | kernel/process.c:146-162 | one round is the step Dispatch: the head of the queue runs; or nothing without processes; processes and file system still agree |
| FileCalls.Calls.Exit | kernel/process.c:294-308 | the caller is Exited; if this is the step Exit the scheduler runs, nothing else has changed, and processes and file system still agree; otherwise the caller stays current |
| FsSession.UptoTwice | kernel/fs.c:176-223 | two reads in a row give what one longer read gives |
| FsSession.UptoIs | kernel/fs.c:89-113 | as many bytes as asked for or as there are, each from its place |
| FsSession.SpliceTwice | kernel/fs.c:258-300 | two writes in a row do what one longer write does |
| FsSession.OthersNotShorter | kernel/fs.c:258-300 | no file gets shorter, which keeps every offset inside |
| Mkfs.RecordedIs | tool/mkfs.c:107-131 | the block count `mkfs` records, with its 32-bit and 16-bit wrap-around, is the number of data blocks, also for an empty file |
| Mkfs.FixedStep | tool/mkfs.c:139-157 | the first three allocations give blocks 0, 1 and 2 |
| Mkfs.Builder.constructor | tool/mkfs.c:139-157 | the zeroed image |
| Mkfs.Builder.AllocFreeBlock | tool/mkfs.c:34-47 | the lowest clear block, now marked; -1 if and only if none is clear |
| Mkfs.Builder.PutBlock | tool/mkfs.c:71-88 | the block becomes the next of the file, through a new indirect block where needed; other files stay |
| Mkfs.Builder.AddData | tool/mkfs.c:107-131 | one round of the copying loop: the next block of the file holds its part of the data |
| Mkfs.Builder.AddFile | tool/mkfs.c:95-137 | one more file with this name and exactly this data; the invariant holds and the free count drops by its cost |
| Mkfs.Builder.TakeFixed | tool/mkfs.c:139-157 | blocks 0-2 are taken and the empty file system satisfies the invariant |
| Mkfs.Builder.Build | tool/mkfs.c:139-166 | the finished image satisfies the kernel's file-system invariant and holds exactly the given files, in order; its first bytes are the magic number 0x4D534653 and the block count 2048, and then the number of clear blocks |
| Lists.Node.constructor | kernel/list.h:34-38 | a node linked to itself is an empty list |
| Lists.AddBetween | kernel/list.h:40-46 | links a node between two neighbours |
| Lists.ListAdd | kernel/list.h:48-50 | the list is the node followed by the old list |
| Lists.ListAddTail | kernel/list.h:52-55 | the list is the old list followed by the node |
| Lists.ListDel | kernel/list.h:57-61 | the ring without the node, wherever it stood; the node is an empty list |
| Lists.ListEmpty | kernel/list.h:63-65 | true if and only if the list holds nothing |
| Lists.NextPlace | kernel/list.h:84-87 | following next from item k reaches item k + 1, and the head after the last: traversal visits the items in order |
| Lists.Reparent | kernel/process.c:298-306 | the reparenting loop, followed for any number of rounds, ends if and only if there are no children; otherwise the first child is off its list, the others are still on theirs, and on init's list, with this child in front, the first two change places in each round (a child alone is lost) |
| PidMap.AllocPid | kernel/process.c:23-36 | the least pid not marked, now marked; -1 and no change if all are |
| PidMap.DeallocPid | kernel/process.c:41-50 | exactly that pid is unmarked |
| PidMap.FullWord | kernel/process.c:23-36 | a word is skipped if and only if all of its bits are set |
| ProcSteps.LeastFree | kernel/process.c:23-36 | the least free pid |
| ProcSpec.PutKeeps | kernel/fs.c:153-158 | entering a file in an empty slot keeps each count equal to the slots that name the file |
| ProcSpec.DropKeeps | kernel/fs.c:165-174 | clearing a slot keeps it; the last one takes the file with it |
| ProcFiles.DropAllKeeps | kernel/fs.c:302-311 | after `dealloc_files` the table is empty and all counts are right |
| ProcFiles.CopyTableKeeps | kernel/process.c:205-211 | after the loop of `sys_fork` the child's table is the parent's and all counts are right |
| ProcFiles.OpenStdioKeeps | kernel/process.c:122-132 | three new files, each with count 1 |
| ProcKeeps.DispatchKeeps | kernel/process.c:146-162 | dispatching keeps the invariant |
| ProcKeeps.YieldKeeps | kernel/process.c:167-171 | yielding keeps it |
| ProcKeeps.ExitKeeps | kernel/process.c:294-308 | exiting keeps it, for a process without children or for init |
| ProcKeeps.ForkKeeps | kernel/process.c:173-216 | forking with a pid left keeps it; the child has the least free pid and the parent's table and is the parent's first child |
| ProcKeeps.ReapKeeps | kernel/process.c:222-235 | deleting an exited child keeps it |
| ProcKeeps.WaitKeeps | kernel/process.c:218-246 | each round of waiting keeps it |
| ProcKeeps.OpenKeeps | kernel/fs.c:137-163 | opening keeps it and changes the caller's table only |
| ProcKeeps.CloseKeeps | kernel/fs.c:165-174 | closing keeps it and changes the caller's table only |
| ProcKeeps.ExecKeeps | kernel/process.c:271-282 | exec keeps it and leaves exactly three files in the caller's table |
| ProcKeeps.StepKeeps | kernel/process.c:139-308 | every permitted step keeps the invariant: the queue holds exactly the ready processes but idle, once each; only the current process runs; the bitmap is exactly the pids, all distinct; each process is listed once by its parent; each count is the number of slots |
| ProcEffects.DispatchEffect | kernel/process.c:146-162 | field by field: the head of the queue leaves it, was ready and runs; the scheduler is ready; all else stays |
| ProcEffects.YieldEffect | kernel/process.c:167-171 | the caller is ready and last in the queue, the scheduler runs; all else stays |
| ProcEffects.ExitEffect | kernel/process.c:294-308 | the caller is Exited, the scheduler is current and runs; every other process, the queue, the pids and the counts stay |
| ProcEffects.ForkEffect | kernel/process.c:173-216 | the child's whole record, the least free pid marked, the child last in the queue and first among the caller's children, one more reference for each entry of the copied table; all else stays |
| ProcEffects.WaitEffect | kernel/process.c:218-246 | the first child that has exited is gone with its pid and one reference for each entry of its table; or the caller is marked, ready and queued; or, without children, -1 and no change |
| ProcEffects.OpenEffect | kernel/fs.c:137-163 | the first free entry names the file, whose count is 1; -1 and no change if nothing is found or no entry is free |
| ProcEffects.CloseEffect | kernel/fs.c:165-174 | the entry is empty; the count of the file there drops by one, and at 0 the file is gone; all other counts stay; no change for a bad or empty descriptor |
| ProcEffects.ExecEffect | kernel/process.c:271-282 | three new files of count 1 in an otherwise empty table; any other file has one reference less for each entry of the old table |
| ProcRuns.InitialKeeps | kernel/process.c:310-331 | the state at the first call of `schedule` satisfies the invariant |
| ProcEffects.StartEffect | kernel/process.c:310-331 | the first state field by field: pids 0 and 1, the scheduler running, init ready and queued, three files of count 1 |
| ProcRuns.RunKeeps | kernel/process.c:139-308 | so does every reachable state |
| ProcRuns.FileLifetime | kernel/fs.c:137-174 | in every reachable state a file exists if and only if some slot names it, and its count is the number of these slots |
| ProcRuns.StepFifo | kernel/process.c:139-171 | each step takes from the front of the queue and adds to its end |
| ProcRuns.Fifo | kernel/process.c:139-171 | over any run the processes dispatched followed by the queue are the first queue followed by the processes queued |
| ProcRuns.Fair | kernel/process.c:146-162 | a process at place k is dispatched after exactly k other dispatches, and until then is k minus the dispatches so far from the front |
| ProcRuns.ExitedStays | kernel/process.c:294-308 | a process that has exited is never queued or dispatched again |
| Orphans.OrphansReachable | kernel/process.c:294-308 | from the initial state the run Dispatch, Fork(c), Yield, Dispatch, Fork(d) leaves c running with the child d; c is not init, so that exiting is not a permitted step |
| ProcRuns.StepPersists | kernel/process.c:139-308 | no step changes the pid or the parent of a process, or the children of one that waits |
| ProcRuns.WaitAnswers | kernel/process.c:218-246 | `sys_wait`, over all its rounds and whatever runs in between, answers -1 if and only if there were no children at the call, else the pid of a child that had exited, which is then gone and its pid free |
| Kernel.System.AddProcess | kernel/process.c:139-141 | the process is last in the queue |
| Kernel.System.Schedule | kernel/process.c:146-162 | one round is the step Dispatch: the head of the queue leaves it and runs, the scheduler is ready; it does nothing if and only if the queue is empty |
| Kernel.System.Yield | kernel/process.c:167-171 | is the step Yield: the caller is ready and last in the queue, and the scheduler runs |
| Kernel.System.Exit | kernel/process.c:294-308 | in any valid state, with the loop followed for any number of rounds: the state of the caller becomes Exited; it gets to the scheduler, which then runs, if and only if there are no children or the process is init; then this is the step Exit, and no other process, queue, table or count has changed |
| Kernel.System.ReparentChildren | kernel/process.c:298-306 | on the kernel's own rings the loop ends if and only if the process has no children, and otherwise leaves both rings as said there |
| Kernel.System.Fork | kernel/process.c:205-215 | is the step Fork: a new block, ready, with the least free pid, last in the queue and first among the caller's children, whose table is the caller's; each count grows by the entries that name the file |
| Kernel.System.CopyFiles | kernel/process.c:205-211 | is the specified copying of the table |
| Kernel.System.Wait | kernel/process.c:218-246 | each round is the step Wait, with its result, but for the child's stacks and address space: the first child that has exited is gone with its pid and its references to files, or the caller is ready, queued and marked, or nothing changes |
| Kernel.System.DeallocFiles | kernel/fs.c:302-311 | is the specified clearing of the table |
| Kernel.System.FreeSlot | kernel/fs.c:138-139 | the first free descriptor |
| Kernel.System.PlaceFile | kernel/fs.c:154-159 | is the step Open for an inode found: the first free entry names a new file with count 1 at offset 0 |
| Kernel.System.Close | kernel/fs.c:165-174 | is the step Close: the entry is empty, the file that was there has one reference less and is gone with the last one; every other entry, file and count stays, and all of them for a bad or empty descriptor |
| Kernel.System.Exec | kernel/process.c:271-282 | is the step Exec: the table names three new files of count 1 and nothing else, and older files have lost one reference for each entry |
| Kernel.System.InitProcess | kernel/process.c:310-331 | reaches the initial state: the scheduler runs as pid 0, and init, pid 1, is queued with three files of count 1 |

## Left out
- ProcKeeps.ExitKeeps: not for a process other than init with children.  `Kernel.System.Exit` shows that such a process never leaves the reparenting loop, which continues from a node that is already on init's list, and `Orphans.OrphansReachable` that there are such processes; so exiting with children is no step of runs.
- ProcKeeps.ForkKeeps: not without a free pid, where the source goes on with pid -1.
- ProcKeeps.StepKeeps: not for those two steps.
- Buddy.Allocator.AddToBuddy: one region, added once, as in kernel/memory.c:11, without an aligned block of 2^30 bytes; `BuddyRegion.AddFitsExactly` shows that other regions index past the lists.
- BuddyRegion.InitialInv: the same region.
- Elf.FromElf: zero-filled bss is not claimed: `p_memsz` is passed as the length to copy, so the bytes after `p_filesz` are those that follow in memory; entry points, stacks and contexts are not modelled.
- CopySpace.CopyMm: is stated relative to the source's segment list; linear segments are not listed in the copy, and `CopySpace.SecondCopy` says what a second fork loses by that (kernel/mapping.c:202-203).
- Teardown.DeallocMemoryMap: counts frames; the Segment and MemoryMap structs are never freed by the source (kernel/mapping.c:180-190).
- PageTable.Machine.AllocFrame: an abstract frame allocator; `Memory.AllocFrame` proves the same contract of the real one.  Other allocations from the same allocator in between are not part of `PageTable.Machine`.
- PageTable.Machine.MapSegment: when it is refused, only the reason is stated, as the source panics; at most 2^27 pages, beyond which page numbers repeat; data only for framed segments, as in all calls.
- FileSystem.Image.IncreaseSize: requires enough clear blocks and at most 140 * 512 bytes; the source would store -1 as a block number otherwise.
- FileSystem.Image.WriteInode: the same.  `int` and `uint32` never wrap within this bound.
- FileSystem.Image.Create: requires a free entry and a clear block, which the source does not test, and a name shorter than 32 bytes.
- FsSession.Session.Resolve: the same when it creates.
- FsSession.Session.Read: negative counts and console input are not modelled.
- FsSession.Session.Write: requires room, as above; not for the root directory, whose inode is virtual.
- FileCalls.Calls.Open: a file to be created needs a short name, a free entry and a clear block, as above.  The kind of a file stands for its field `type`, which `sys_open` does not set; `Memory.AllocFile` shows that it is never FILE_STDIO.
- FileCalls.Calls.Read: not for console input.
- FileCalls.Calls.Write: not for console output or the root directory; requires room.
- FileCalls.Calls.Fork: only what concerns files and processes.
- FileCalls.Calls.Exit: says nothing of the files when it does not leave the reparenting loop.
- Mkfs.Builder.PutBlock: not for a 141st block, which the source drops.
- Mkfs.Builder.AddData: the same, and requires clear blocks.
- Mkfs.Builder.AddFile: requires a name that is short and new, and a file that fits an inode and the image.
- Mkfs.Builder.Build: the same of all files; the host's files come as names and contents, in the order the directory walk finds them.
- Kernel.System.Fork: requires a free pid, as the source does not test for -1; address space, stacks and contexts of the child are not part of this step.
- Kernel.System.Wait: the frames, stacks and address space of the deleted child are not part of this step.
- Kernel.System.Exec: only the table of open files; a name that is not found changes nothing and returns -1.
- Kernel.System.Schedule: the context switch is one step; the local `flag` of `sys_wait`, kept on a process's own stack, is a field of the process.
- Segment lists are sequences in the page-table modules; `Lists` and `Kernel` show the same list operations on linked nodes.  `container_of` is a map from nodes to blocks.
- Assembly, control registers, TLB flushes, traps, the timer, SBI calls, the D1 variant, `printf`, the `string.h` helpers, user programs and linker scripts are not modelled.
