# ToastOS, verified

A Dafny model of the parts of the ToastOS kernel where state is changed in place and has to stay consistent: the
kernel heap (dlmalloc over an sbrk of its own), the four-level page tables over a bitmap frame allocator, the
round-robin scheduler with its sleeping tasks, semaphores and reaper, the table of process numbers, and the
calendar arithmetic of the real-time clock.

`dafny verify dfyconfig.toml` checks the whole project.

## How the files fit together

| files | what they model |
|---|---|
| `BinMap`, `SizeBits` | 32-bit bin maps and the bit tricks on them; size classes and search keys |
| `TreeBins` | bitwise tries of large free chunks: insertion, removal, best fit |
| `SmallBins` | rings of small free chunks |
| `Chunks`, `Places`, `Malloc` | boundary tags, which free chunk is kept where, and `dlmalloc`, `dlfree`, `sys_alloc`, `sys_trim` |
| `Pmm`, `PageTables`, `Vmm`, `Heap` | frames, page tables as values, the virtual memory manager, `sys_sbrk` |
| `Contexts`, `Startup` | runs with many address spaces; from the memory map to the first word of the heap |
| `Scheduler`, `Effects`, `Kernel` | the scheduler as steps on queues with theorems about all runs; what every step does, task by task, and nothing else does; the same steps with linked lists, locks and postponed switches |
| `PidTable`, `Processes`, `Rtc` | process numbers; tasks and their numbers together; seconds since 1970 |
| `Lists` | what the lists of several files have in common |

The allocator is one chain: `Malloc` asks `Heap` for memory, `Heap` maps pages through `Vmm`, and `Vmm` takes frames
from `Pmm`. Their invariants hold together, so a block in use lies in pages below the break, each with a frame of its
own as long as no request let the frames run out between a page and its tables.

## How the model reads the code

- Pointers are integers, and the fields of a record that is reached through pointers are maps from them. Which
  structure a pointer belongs to is recorded in ghost fields.
- In `Malloc` the header and foot words of chunks are maps; list and tree links of free chunks are the fields of
  `SmallBins` and `TreeBins`. The size that a tree node repeats agrees with the header by the invariant.
- A page-table entry is a record of its frame and flag bits. A frame's contents are read as a table or as bytes; every
  frame in use has one role, which says for whom it is what.
- The boot loader's tables and memory map, the time, and whether `kmalloc` succeeds for a record are parameters.
  Panics on large pages and on missing frames at start-up are preconditions.
- `schedule`'s idle loop is proved unreachable instead of modelled: the boot task never blocks.
- `task_t.state` and `waiting_for` are one status. The links and list heads of all queues are gathered in one record.
- The timer handler's two calls are two steps.
- `vmm_get_phys` joins frame and offset with a bitwise or; as frames of large pages are aligned, the model adds them.

## Where the code and what is said about it differ

- `kernel/mmu/dlmalloc_config.h:41` defines `MORECORE_CANNOT_TRIM` as 0, but `kernel/mmu/dlmalloc.c:2730` only asks
  whether it is defined: `dlfree` never trims by itself, although `kernel/mmu/heap.h` speaks of a trim threshold. The
  model follows the code.
- `sys_sbrk` adds the increment modulo 2^64. A request of about 112 TiB, which `kmalloc` should refuse, makes the break
  wrap, passes the limit, and is answered with memory that is not there. `Heap.Heap.Sbrk`, `Malloc.Malloc.SysAlloc` and
  `Malloc.Malloc.Malloc` state exactly when this happens: the invariant is kept if and only if the break does not wrap.
  `Malloc.FirstWrap` gives the range of such requests on the empty heap.
- `sys_sbrk` ignores the result of `vmm_map_page`. `Heap.Heap.MapHeapPage` states exactly when a page is left out,
  `Heap.Heap.MapUpTo` that it can only be the last one, with no frame left, and `Malloc.Malloc.Malloc` exactly when a
  request does this to a heap that has all its pages. `Startup.FirstWord` gives the machines on which it happens to the
  first page.
- `init_pmm` rounds the number of bitmap bytes down. `Pmm.BitmapCovers` states, region by region, exactly when every page
  still has a bit, and `Pmm.PageWithoutBit` gives a memory map where one has none.
- The tree index of dlmalloc is computed from a 32-bit quotient. `SizeBits.RightBin` states exactly which sizes get a
  bin they belong to: those below 2^40, and of the larger ones those whose low forty bits alone select the last bin. The
  heap's 64 MiB limit keeps the others away.

## Model

| member | source | states |
|---|---|---|
| `BinMap.MarkAndClear` | kernel/mmu/dlmalloc.c:2926-2935 | marking or clearing a bin changes the answer for that bin and for no other |
| `BinMap.FirstMarked` | kernel/mmu/dlmalloc.c:2938-2986 | `x & -x` and the bit scan find the first marked bin, and the map is zero exactly when no bin is marked |
| `BinMap.MarkedAbove` | kernel/mmu/dlmalloc.c:2941 | `(x<<1) \| -(x<<1)` of one bin's bit selects exactly the marked bins above it |
| `BinMap.FirstAbove` | kernel/mmu/dlmalloc.c:4589-4609 | shifting the small map down by the index and back up finds the first bin above that is not empty; the shifted map is zero exactly when there is none |
| `SizeBits.TreeIndexBounds` | kernel/mmu/dlmalloc.c:2846-2920 | for every large size below 2^40 the computed bin is the one whose size range holds it, the last bin being open above |
| `SizeBits.TreeIndexBelow` | kernel/mmu/dlmalloc.c:2846-2857 | the computed index is below 32 for every size, however large |
| `SizeBits.RightBin` | kernel/mmu/dlmalloc.c:2846-2857 | every large size, of any number of bits, gets a bin whose range holds it if and only if it is below 2^40 or its remainder modulo 2^40 is at least 0xC00000: the 32-bit quotient loses nothing, or still selects the last bin |
| `SizeBits.LastBin` | kernel/mmu/dlmalloc.c:2846-2857 | the last bin is selected exactly from that remainder on |
| `SizeBits.WrongBin` | kernel/mmu/dlmalloc.c:2846-2857 | 2^40 is put into bin 0, where it does not belong; 2^40 + 2^24 is put right |
| `SizeBits.LowerBinSmallerSize` | kernel/mmu/dlmalloc.c:2846-2920 | a size in a lower bin is smaller than every size in a higher bin |
| `SizeBits.PathOrder` | kernel/mmu/dlmalloc.c:2913-2916 | within a bin the shifted key's bits, read from the top, order chunks as their sizes do |
| `SizeBits.PathInjective` | kernel/mmu/dlmalloc.c:2913-2916 | different sizes of one bin differ in a key bit |
| `TreeBins.TreeBins.constructor` | kernel/mmu/dlmalloc.c:3919-3926 | empty bins are well formed and hold nothing |
| `TreeBins.TreeBins.WalkDown` | kernel/mmu/dlmalloc.c:4443-4472 | walking down along the bits of the request leaves nothing better unseen except in the subtree returned |
| `TreeBins.TreeBins.PickSubtree` | kernel/mmu/dlmalloc.c:4442-4481 | the subtree returned and the candidate together cover every chunk of every bin that could serve the request |
| `TreeBins.TreeBins.FindLarge` | kernel/mmu/dlmalloc.c:4442-4488 | best fit: the result is a smallest held chunk that can serve the request, and null exactly when none can, for every forest and request |
| `TreeBins.TreeBins.FindSmallest` | kernel/mmu/dlmalloc.c:4514-4528 | the result is a smallest chunk of all trees |
| `TreeBins.TreeBins.LinkIntoTree` | kernel/mmu/dlmalloc.c:3672-3704 | the new chunk goes to the free branch its size prescribes, or into the ring of its size; contents gain exactly it |
| `TreeBins.TreeBins.InsertLarge` | kernel/mmu/dlmalloc.c:3656-3705 | insertion keeps the trie invariant and adds exactly the chunk with its size |
| `TreeBins.TreeBins.DetachLeaf` | kernel/mmu/dlmalloc.c:3735-3756 | the rightmost leaf below a node can take its place |
| `TreeBins.RelinkedMemory` | kernel/mmu/dlmalloc.c:3757-3784 | after both loops of writes the replacement has the parent and the children of the node removed, its parent and children point to it, and no other chunk changed |
| `TreeBins.TreeBins.UnlinkFromList` | kernel/mmu/dlmalloc.c:3724-3734 | a chunk with others of its size leaves their ring; if it was the tree node its neighbour takes its place |
| `TreeBins.TreeBins.UnlinkFromTree` | kernel/mmu/dlmalloc.c:3735-3793 | a lone tree node leaves the trie, which stays well formed |
| `TreeBins.TreeBins.UnlinkLarge` | kernel/mmu/dlmalloc.c:3724-3793 | removal keeps the trie invariant and removes exactly the chunk |
| `TreeBins.BestNodeIsBestFit` | kernel/mmu/dlmalloc.c:4442-4488 | what is best among tree nodes is best among all held chunks |
| `TreeBins.OneNodePerPlace` | kernel/mmu/dlmalloc.c:3309-3358 | a bin and a branch determine the tree node |
| `TreeBins.NothingHeld` | kernel/mmu/dlmalloc.c:3360-3368 | an empty tree map means that no tree chunk is held |
| `SmallBins.SmallBins.constructor` | kernel/mmu/dlmalloc.c:3919-3926 | every header is linked to itself and nothing is held |
| `SmallBins.SmallBins.InsertSmall` | kernel/mmu/dlmalloc.c:3578-3594 | the chunk becomes the first of its bin's ring, also when the emptied bin still has its old links |
| `SmallBins.SmallBins.UnlinkSmall` | kernel/mmu/dlmalloc.c:3597-3619 | the chunk leaves its ring; its two neighbours are equal exactly when it is alone, and then only the bin's bit is cleared |
| `SmallBins.SmallBins.UnlinkFirstSmall` | kernel/mmu/dlmalloc.c:3622-3638 | the first chunk of a marked bin leaves it |
| `SmallBins.RingRemove` | kernel/mmu/dlmalloc.c:3604-3612 | the two writes of an unlink leave the ring of the remaining chunks |
| `SmallBins.Neighbours` | kernel/mmu/dlmalloc.c:3597-3612 | the runtime checks on a chunk's neighbours hold, and equal neighbours mean a lone chunk |
| `Chunks.BlocksApart` | kernel/mmu/dlmalloc.c:2195-2229 | blocks in use are disjoint, cover no chunk header and lie below the top chunk's header |
| `Chunks.NoGaps` | kernel/mmu/dlmalloc.c:3261-3306 | every byte below the top chunk belongs to a chunk |
| `Chunks.CarvedOk` | kernel/mmu/dlmalloc.c:2295-2296 | cutting the front off a free chunk keeps all boundary tags right |
| `Chunks.TookBackOk` | kernel/mmu/dlmalloc.c:4717-4727 | an unset previous-in-use bit and the previous foot lead to the free chunk before, which can be joined |
| `Chunks.TookNextOk` | kernel/mmu/dlmalloc.c:4763-4766 | the free chunk after can be joined, and what follows it is in use |
| `Chunks.Freed` | kernel/mmu/dlmalloc.c:4710-4774 | a chunk given back, with its free neighbours, is one free chunk between chunks in use, its size repeated at its end |
| `Chunks.FreedToTop` | kernel/mmu/dlmalloc.c:4744-4749 | a chunk before the top chunk, with the free chunk before it, becomes part of the top chunk |
| `Places.AllocateThenFree` | kernel/mmu/dlmalloc.c:4552-4797 | a block allocated and given back leaves the blocks in use as they were |
| `Places.FreedPlaces` | kernel/mmu/dlmalloc.c:4735-4790 | with its free neighbours out of their bins a merged chunk is in no bin, and every other free chunk is in exactly one place |
| `Places.VictimReplaced` | kernel/mmu/dlmalloc.c:3642-3651 | replacing the designated victim moves the old one to a small bin |
| `Places.PrefersLeast` | kernel/mmu/dlmalloc.c:4442-4491 | a chunk that is least among all that fit in every place is what the request prefers |
| `Places.PrefersVictim` | kernel/mmu/dlmalloc.c:4648-4666 | the victim is preferred when no chunk fits better, or for a small request when none has exactly its size |
| `Places.FreeingEnds` | kernel/mmu/dlmalloc.c:4710-4790 | merging back first and then forward ends with the chunk in the place that its neighbours decide |
| `Malloc.Padded` | kernel/mmu/dlmalloc.c:2235-2244 | the chunk size is aligned, has room for the request and the header, and wastes less than 16 bytes above the minimum |
| `Malloc.PickBin` | kernel/mmu/dlmalloc.c:4588-4612 | the request's bin or the next, else the first bin above that is not empty, else none |
| `Malloc.Malloc.constructor` | kernel/mmu/dlmalloc.c:3919-3926 | an allocator without memory has no blocks |
| `Malloc.Malloc.UnlinkChunk` | kernel/mmu/dlmalloc.c:3801-3803 | a free chunk leaves the bin that has it, small or tree |
| `Malloc.Malloc.InsertChunk` | kernel/mmu/dlmalloc.c:3797-3799 | a free chunk goes to the bin of its size |
| `Malloc.Malloc.UseWhole` | kernel/mmu/dlmalloc.c:3090-3093 | a free chunk that leaves no remainder becomes a block |
| `Malloc.Malloc.UseFront` | kernel/mmu/dlmalloc.c:3095-3097 | the front of a free chunk becomes a block, the rest a free chunk |
| `Malloc.Malloc.ReplaceDv` | kernel/mmu/dlmalloc.c:3642-3651 | a free chunk becomes the designated victim, the old one goes to its small bin, nothing else moves |
| `Malloc.Malloc.FromSmallExact` | kernel/mmu/dlmalloc.c:4591-4601 | a chunk of a bin that fits without remainder is used whole |
| `Malloc.Malloc.FromSmallBin` | kernel/mmu/dlmalloc.c:4604-4628 | a larger small chunk is cut, the remainder becomes the victim |
| `Malloc.Malloc.TmallocSmall` | kernel/mmu/dlmalloc.c:4513-4548 | the smallest tree chunk serves a small request, the remainder becomes the victim |
| `Malloc.Malloc.TmallocLarge` | kernel/mmu/dlmalloc.c:4442-4511 | the best fitting tree chunk serves a large request; nothing is done exactly when none fits or the victim fits at least as well |
| `Malloc.Malloc.MallocSmall` | kernel/mmu/dlmalloc.c:4581-4637 | a small request is served from the bins, or no free chunk fits or the victim is to be used |
| `Malloc.Malloc.FromDv` | kernel/mmu/dlmalloc.c:4648-4666 | the victim is split, and the rest is the victim, or it is used up and there is none |
| `Malloc.Malloc.FromTop` | kernel/mmu/dlmalloc.c:4668-4678 | the front of the top chunk becomes a block |
| `Malloc.Malloc.Serve` | kernel/mmu/dlmalloc.c:4581-4678 | a request is served from what is there exactly as long as some free chunk, the victim or the top chunk can serve it; which one, and where the remainder goes, is determined |
| `Malloc.Malloc.AskCore` | kernel/mmu/dlmalloc.c:4060-4192 | memory is asked for by the missing amount and, after a refusal, by the whole amount; the answer to both is the answer to the first; the heap stays in order exactly when the break does not wrap |
| `Malloc.AnswersAgain` | kernel/mmu/dlmalloc.c:4091-4177 | a second, larger request after a refused one is refused too, and leaves the pages as the first left them |
| `Malloc.Malloc.AskFirst` | kernel/mmu/dlmalloc.c:4091-4147 | the first request, made exactly while memory is contiguous and the amount is below half the address space; a refusal ends contiguity |
| `Malloc.Malloc.AskAgain` | kernel/mmu/dlmalloc.c:4161-4177 | the second request gives the whole amount or nothing |
| `Malloc.FirstWrap` | kernel/mmu/dlmalloc.c:4062-4064 | on the empty heap the requests that make the break wrap are exactly those from 0x6FFFFFFFEF99 to 0x7FFFFFFFFFFFEF98 bytes |
| `Malloc.Malloc.AddMemory` | kernel/mmu/dlmalloc.c:4194-4222 | new memory, always right after the segment, makes or extends the top chunk |
| `Malloc.Malloc.SysAlloc` | kernel/mmu/dlmalloc.c:4060-4250 | a request is served from new memory exactly when there is a frame for the last page that it needs within the limit; the heap then has all its pages exactly when it had them and frames for tables did not run out; the segment ends at the break again exactly when the break does not wrap |
| `Malloc.Malloc.Malloc` | kernel/mmu/dlmalloc.c:4552-4686 | the block is 16-byte aligned, large enough, wastes less than a chunk and is apart from all others; it is cut from a smallest free chunk that fits, the victim being preferred for small requests, and from the top only when nothing fits, and the places of all free chunks afterwards are determined; the request succeeds if and only if something that is there fits, or the system has a frame for the last page up to the least break that holds the chunk after the top chunk; the allocator stays in order exactly when the request does not make the break wrap; a heap with all its pages keeps them, with the same frames, exactly when the frames do not run out between a page and its tables; growing contiguously is given up exactly when the system refuses |
| `Malloc.Malloc.Obtain` | kernel/mmu/dlmalloc.c:4581-4686 | the same for the chunk: from what is there, or else from the system |
| `Malloc.Malloc.RoomMeansServed` | kernel/mmu/dlmalloc.c:4060-4250 | with frames for the whole heap a request succeeds if and only if something that is there fits, or its chunk and padding fit between the top chunk and the limit of 64 MiB |
| `Malloc.Malloc.BreakAskedFor` | kernel/mmu/dlmalloc.c:4112-4125 | what is asked for moves the break to the least multiple of a page that holds the chunk: only what is missing from the top chunk is asked for |
| `Malloc.Malloc.AskedPlainly` | kernel/mmu/dlmalloc.c:4060-4192 | whether a request succeeds, wraps or leaves a page out depends on that break alone |
| `Malloc.Malloc.ChunkSize` | kernel/mmu/dlmalloc.c:4581-4646 | the chunk size is the least multiple of 16 with room for the request and the header, and at least 32; requests near the word size become one that cannot be served |
| `Malloc.Malloc.BlocksBacked` | kernel/mmu/heap.c:34-42 | in a heap with all its pages every byte of every block in use lies in a kernel page with a frame of its own, which can be written whatever address space is in use |
| `Malloc.Malloc.BlockBelowBreak` | kernel/mmu/dlmalloc.c:2195-2229 | every byte of every block in use lies below the break and below the end of the mapped range, whether or not its page has a frame |
| `Malloc.Malloc.SetFree` | kernel/mmu/dlmalloc.c:2295-2300 | header and foot of a merged free chunk |
| `Malloc.Malloc.JoinBack` | kernel/mmu/dlmalloc.c:4708-4726 | the free chunk before leaves its bin unless it is the victim |
| `Malloc.Malloc.GrowVictim` | kernel/mmu/dlmalloc.c:4727-4731 | the victim before grows over the chunk |
| `Malloc.Malloc.MergeTop` | kernel/mmu/dlmalloc.c:4740-4752 | the top chunk takes the chunk over; a victim that took part is forgotten |
| `Malloc.Malloc.MergeVictim` | kernel/mmu/dlmalloc.c:4753-4758 | the chunk grows over the victim after it and becomes the victim |
| `Malloc.Malloc.MergeNext` | kernel/mmu/dlmalloc.c:4759-4769 | the chunk takes over the binned free chunk after it |
| `Malloc.Malloc.FreeAlone` | kernel/mmu/dlmalloc.c:4771-4786 | a chunk before one in use goes to its bin |
| `Malloc.Malloc.Free` | kernel/mmu/dlmalloc.c:4690-4797 | exactly the given block is no longer in use, no other block changes, no two free chunks are neighbours, every free chunk is in exactly one place, and which place the merged chunk gets is determined |
| `Malloc.WholeUnits` | kernel/mmu/dlmalloc.c:4312-4313 | whole units beyond what has to be kept, so that at least one byte more is kept and at most a unit more |
| `Malloc.Malloc.SetTop` | kernel/mmu/dlmalloc.c:4744-4747 | the header of the top chunk when it takes over a chunk and the free chunk before it |
| `Malloc.Malloc.BestInTree` | kernel/mmu/dlmalloc.c:4442-4491 | the best fitting tree chunk, none exactly when none fits or the victim fits at least as well |
| `Malloc.Malloc.ChooseSmall` | kernel/mmu/dlmalloc.c:4581-4637 | where a small request is served from; if from none of the bins and not from the victim, no free chunk fits |
| `Malloc.Malloc.GetMemory` | kernel/mmu/dlmalloc.c:4082-4222 | new memory is in the top chunk, which can then serve the request; or nothing changed and there is a reason; memory is got exactly when the system has it |
| `Malloc.Malloc.SysTrim` | kernel/mmu/dlmalloc.c:4303-4366 | whole units go back to the system, more than the pad is kept and at most a unit more; no block changes, all blocks stay below the break, every page that is left has the frame it had, and exactly the frames of the pages that go are free again |
| `Pmm.Pmm.constructor` | kernel/mmu/pmm.c:72-149 | after start-up exactly the whole pages of what is left of the usable regions are free; bitmap and counter agree if and only if no page is in two of them and page 0 is in none; in disjoint regions no free page overlaps the bitmap |
| `Pmm.BitmapCovers` | kernel/mmu/pmm.c:106-107 | every available page has a bit if and only if no usable region with a whole page ends beyond the last full group of eight frames |
| `Pmm.PageWithoutBit` | kernel/mmu/pmm.c:87-107 | a memory map with a kernel page and seven usable ones whose last page has no bit in the bitmap |
| `Pmm.CarvedRegions` | kernel/mmu/pmm.c:112-121 | the regions stay disjoint and no page left overlaps the bitmap |
| `Pmm.CarvedPages` | kernel/mmu/pmm.c:112-121 | the bitmap takes exactly the pages that it touches in its region |
| `Pmm.PageInside` | kernel/mmu/pmm.c:135-138 | the pages of a usable region are exactly those that lie inside it as a whole |
| `Pmm.HighestIsLeast` | kernel/mmu/pmm.c:83-102 | the highest address is the least above every usable and reclaimable region and the first base |
| `Pmm.FirstFit` | kernel/mmu/pmm.c:112-121 | the first usable region that can hold the bitmap, and no earlier one can |
| `Pmm.BitWritten` | kernel/mmu/pmm.c:33-49 | writing one bit changes the answer for one frame |
| `Pmm.FirstClear` | kernel/mmu/pmm.c:55-56 | the lowest clear bit of a byte that is not full |
| `Pmm.Pmm.FirstNotFull` | kernel/mmu/pmm.c:52-53 | full bytes are skipped, so no free frame lies below the byte found |
| `Pmm.Pmm.Alloc` | kernel/mmu/pmm.c:51-66 | the lowest free frame is taken and no other; address 0 exactly when none is free |
| `Pmm.Pmm.TakeFrame` | kernel/mmu/pmm.c:42-49 | one frame is no longer free and the counter stays right |
| `Pmm.Pmm.FreeFrame` | kernel/mmu/pmm.c:33-40 | one frame is free; the counter goes one too high exactly when it was free before |
| `Pmm.Pmm.FreeRun` | kernel/mmu/pmm.c:144-146 | a run of frames becomes free; the counter stays right exactly when none of them was free |
| `PageTables.SameKernelHalf` | kernel/mmu/vmm.c:49-66 | in every state that satisfies the invariant all address spaces translate every upper-half address alike |
| `PageTables.PageDecides` | kernel/mmu/vmm.c:134-165 | the kernel may write through a walk exactly when the page's own entry allows it: tables, those of the boot loader apart, never forbid it |
| `PageTables.ComesBy` | kernel/mmu/vmm.c:194-221 | a walk comes by every table whose role lies on its path |
| `PageTables.WalkKept` | kernel/mmu/vmm.c:134-165 | changes that no step of a walk can notice leave its result |
| `PageTables.GrownOk` | kernel/mmu/vmm.c:156-164 | a new empty table behind an absent entry keeps all invariants |
| `PageTables.GrownWalks` | kernel/mmu/vmm.c:156-164 | a new empty table changes no translation of anybody |
| `PageTables.OpenedOk` | kernel/mmu/vmm.c:147-152 | opening an entry to user code keeps all invariants |
| `PageTables.OpenedWalks` | kernel/mmu/vmm.c:147-152 | opening an entry to user code changes no translation of anybody |
| `PageTables.OtherWalks` | kernel/mmu/vmm.c:187-190 | writing one leaf changes no other page and no other address space |
| `PageTables.WalkToPage` | kernel/mmu/vmm.c:187-190 | after the write the walk ends at the new entry, in every address space that shares it |
| `PageTables.OneFrame` | kernel/mmu/vmm.c:101-113 | every place of an address space holds one frame at most |
| `PageTables.OwnedIsBehind` | kernel/mmu/vmm.c:124-129 | an address space owns its top table and what hangs behind its lower half |
| `PageTables.MovedShape` | kernel/mmu/vmm.c:42-51 | the boot loader's shared tables hang properly under the kernel's own top table |
| `Vmm.SlotsOfPage` | kernel/mmu/vmm.c:171-174 | the four slots are the page number in base 512 |
| `Vmm.SamePath` | kernel/mmu/vmm.c:171-174 | two user addresses have the same slots exactly when they are in the same page |
| `Vmm.Vmm.constructor` | kernel/mmu/vmm.c:35-71 | the kernel's address space translates the upper half as the boot loader's did and nothing else; every upper slot is filled, with exactly one frame for the top table and one for every slot that was empty |
| `Vmm.Vmm.CopyUpperHalf` | kernel/mmu/vmm.c:89-93 | a top table with an empty lower and a copied upper half |
| `Vmm.Vmm.PopulateSlot` | kernel/mmu/vmm.c:60-66 | an empty upper slot gets an empty table, no translation changes |
| `Vmm.Vmm.GetOrAllocTable` | kernel/mmu/vmm.c:134-165 | the table behind an entry, made if missing; no translation changes, and it fails exactly when a table is missing and no frame is free |
| `Vmm.Vmm.MakeWay` | kernel/mmu/vmm.c:176-185 | the lowest table of a page is reached exactly when there are frames for all missing tables, and exactly those are used |
| `Vmm.Vmm.WriteLeaf` | kernel/mmu/vmm.c:187-190 | one leaf entry is written: exactly its page is translated anew, the frame it had is nobody's and the new frame is its page |
| `Vmm.Vmm.MapPage` | kernel/mmu/vmm.c:167-192 | success makes the page translate to the frame with the given rights in every address space that shares it and changes nothing else; failure, exactly when a user page is outside the lower half or frames for tables are missing, changes no translation |
| `Vmm.Vmm.GetPhys` | kernel/mmu/vmm.c:194-221 | the physical address the hardware walk leads to, large pages included, 0 where there is none |
| `Vmm.InOnePiece` | kernel/mmu/vmm.c:194-221 | a page, also a large one, is one piece of memory: its first byte is the first of its frame and the others follow in order |
| `Vmm.NextDigits` | kernel/mmu/vmm.c:195-198 | the four slots are the next digits of any address, to the base 512 |
| `Vmm.Vmm.UnmapPage` | kernel/mmu/vmm.c:223-254 | exactly the page loses its translation, and its frame is nobody's |
| `Vmm.Vmm.WalkUser` | kernel/mmu/vmm.c:289-309 | checking user and write bits at every level gives the same answer as the page's own entry |
| `Vmm.UserAllTheWay` | kernel/mmu/vmm.c:147-152 | every entry on the way to a user page of the lower half is a user entry |
| `Vmm.Vmm.UserRangeOk` | kernel/mmu/vmm.c:311-325 | true exactly when every byte of the range is in the lower half and its page is open to user code, and writable if asked |
| `Vmm.Vmm.CreateContext` | kernel/mmu/vmm.c:81-98 | a new address space: empty lower half, shared upper half, nothing else changes; it fails exactly without memory |
| `Vmm.Vmm.FreeTable` | kernel/mmu/vmm.c:101-113 | a table and everything below it become free, each frame once |
| `Vmm.Vmm.FreeSlots` | kernel/mmu/vmm.c:103-111 | what hangs behind the slots of a table becomes free, each frame once |
| `Vmm.Vmm.DestroyContext` | kernel/mmu/vmm.c:115-131 | exactly the frames of the address space become free, every other translation stays |
| `Vmm.Vmm.FillPage` | kernel/mmu/vmm.c:268-277 | the page holds what is left of the image, then zeros |
| `Vmm.Vmm.AllocPage` | kernel/mmu/vmm.c:265-282 | one page gets a zeroed frame with its part of the image exactly when there are frames for it and its missing tables; a failed attempt gives the frame back and leaves only empty tables |
| `Vmm.GrownMissing` | kernel/mmu/vmm.c:156-164 | a new table shortens the way of exactly the pages below it, by one table |
| `Vmm.NeedGrows` | kernel/mmu/vmm.c:265-282 | every page of a region takes at least one frame |
| `Vmm.Vmm.UserAlloc` | kernel/mmu/vmm.c:256-285 | succeeds if and only if the request is good and there are as many free frames as the region has pages and missing tables, and takes exactly those; every page of the region is then mapped with its image; bad requests change nothing; without enough frames the pages mapped so far stay; nothing outside the region changes |
| `Vmm.ReadBack` | kernel/mmu/vmm.c:268-277 | reading the region through the page tables gives the image followed by zeros to the end of the last page |
| `Vmm.Vmm.Lifetime` | kernel/multitasking/task.c:269-288 | creating an address space, any sequence of requests for disjoint regions, each with or without success, and destroying it restores the bitmap, the use of every frame and every translation |
| `Contexts.Do` | kernel/mmu/vmm.c:81-254 | every create, map, unmap and destroy, successful or not, is a step that a run is made of |
| `Contexts.History` | kernel/mmu/vmm.c:53-66 | after any run of such calls on any number of address spaces, every translation of every one that lives is the last change made: by anybody in the upper half, to that address space in the lower half |
| `Contexts.AlwaysAlike` | kernel/mmu/vmm.c:53-66 | at every moment of every run all address spaces that live translate every upper-half address alike |
| `Heap.Heap.constructor` | kernel/mmu/heap.c:76-88 | an empty heap in a range where nothing is mapped |
| `Heap.Heap.MapHeapPage` | kernel/mmu/heap.c:35-41 | a page is backed, that is mapped writable, for the kernel only and executable, to a frame of its own, exactly when there are frames for it and for its missing tables; the result of mapping is ignored, so without one for a table the page is left out |
| `Heap.BackedIsWritable` | kernel/mmu/heap.c:40 | a backed page can be written in every address space, unless the boot loader left write-protected tables on the way |
| `Heap.CostAtMost` | kernel/mmu/heap.c:34-42 | a range costs at most its pages, one table for every 512 pages that begin in it, and three more |
| `Heap.Heap.MapUpTo` | kernel/mmu/heap.c:34-42 | all pages are backed up to where a frame was missing, except possibly the last one when no frame is left; which of the two is decided by the number of free frames against pages and missing tables |
| `Heap.PaidAll` | kernel/mmu/heap.c:34-42 | mapping a range leaves no page out if and only if the frames cover pages and missing tables, or run out exactly after a page |
| `Heap.CostOfPage` | kernel/mmu/heap.c:34-42 | after the first page of a range every page costs one frame, and one more for a table at every 512th page if that table is missing |
| `Heap.FramesDistinct` | kernel/mmu/heap.c:34-42 | pages of the heap have different frames, which have a bit in the bitmap and are not free |
| `Heap.StaysExhausted` | kernel/mmu/heap.c:24-47 | once a grow failed, a larger one fails too and maps nothing more |
| `Heap.Heap.UnmapHeapPage` | kernel/mmu/heap.c:59-62 | the frame of the page is free again and exactly the page is unmapped |
| `Heap.Heap.UnmapDownTo` | kernel/mmu/heap.c:58-63 | exactly the frames of the pages above become free |
| `Heap.Heap.Grow` | kernel/mmu/heap.c:24-47 | new break, new end of the mapped pages, pages below untouched; it succeeds exactly when the last page needed gets a frame; also after a failure part of the way all new pages are backed, except the last one when frames ran out for its tables, and exactly then; past the limit the break stays |
| `Heap.Heap.Shrink` | kernel/mmu/heap.c:49-67 | the break does not go below the base, whole pages above it are given back, pages below stay |
| `Heap.Heap.Sbrk` | kernel/mmu/heap.c:14-68 | the previous break is returned; the heap stays in order exactly when the break does not wrap past the end of the address space; growing keeps all pages and their frames, and a heap with all its pages keeps having them exactly when frames do not run out at a table; shrinking keeps the pages below and frees exactly the frames of the pages above the new break |
| `Startup.FirstWord` | kernel/mmu/heap.c:34-42 | from the memory map on, with 257 to 28672 frames to hand out: the first word of the heap is given out exactly if one frame is left after start-up, and its page is there exactly if three are; with one or two the break moves and the page is missing |
| `Startup.FirstStep` | kernel/mmu/heap.c:24-47 | the same for the first move of the break in any state where the heap's slot was empty at start-up |
| `Scheduler.StepKeeps` | kernel/multitasking/task.c:302-636 | every enabled step keeps the invariant: one running task, every other task on the one queue its state names, sleepers sorted, semaphore counts right, boot task runnable, reaper ready while someone is dead |
| `Scheduler.RunKeeps` | kernel/multitasking/task.c:302-636 | the invariant holds in every state of every run |
| `Scheduler.NeverIdle` | kernel/multitasking/task.c:339-363 | whenever the current task cannot go on some task is ready, so the idle loop is never reached |
| `Scheduler.RoundRobin` | kernel/multitasking/task.c:302-337 | a task at index k of the ready queue runs within k + 1 switches, whatever else happens |
| `Scheduler.BoundedWait` | kernel/multitasking/task.c:458-476 | a ready task runs within the ticks of the rest of the slice and one full slice for every task before it |
| `Scheduler.BoundInSlices` | kernel/multitasking/task.c:458-476 | that is at most k + 1 full slices |
| `Scheduler.TicksInIsCeiling` | kernel/multitasking/task.c:464-471 | a slice lasts as many ticks as the quotient rounded up |
| `Scheduler.ReaperComes` | kernel/multitasking/task.c:483-502 | no lost wake-up: while anyone is dead the reaper runs or is ready, and runs in its turn |
| `Scheduler.DeadUntilReaped` | kernel/multitasking/task.c:509-569 | a dead task stays dead and listed until the reaper frees it |
| `Scheduler.KillKeeps` | kernel/multitasking/task.c:509-553 | killing a task takes it off exactly the queue it is on |
| `Scheduler.SleepersAfter` | kernel/multitasking/task.c:416-456 | what every step does to the queue of sleepers |
| `Scheduler.NeverWokenEarly` | kernel/multitasking/task.c:445-456 | a sleeper leaves the queue only when its time has come or it is killed |
| `Scheduler.InsertPlace` | kernel/multitasking/task.c:74-93 | a sleeper goes behind all that wake no later and before all that wake later |
| `Scheduler.CheckKeeps` | kernel/multitasking/task.c:445-456 | exactly the due sleepers are woken, in order |
| `Scheduler.HoldersBounded` | kernel/multitasking/task.c:608-636 | in every state of every run a semaphore has at most its maximum of holders |
| `Scheduler.FirstComeFirstServed` | kernel/multitasking/task.c:608-636 | no step lets a waiter pass one before it |
| `Scheduler.ServedInOrder` | kernel/multitasking/task.c:608-636 | over a whole run a waiter leaves the queue only after those before it |
| `Scheduler.LeavesGranted` | kernel/multitasking/task.c:625-636 | a waiter that leaves the queue was given the semaphore or killed |
| `Effects.StepIsEffect` | kernel/multitasking/task.c:302-636 | a state is the next one if and only if every task, queue and semaphore is where the step has to put it, said without the steps' own definitions: every step does that, and that leaves no choice |
| `Effects.StepEffect` | kernel/multitasking/task.c:302-636 | every step does what it has to do |
| `Effects.OneOutcome` | kernel/multitasking/task.c:302-636 | what a step has to do determines the whole next state |
| `Effects.ExitDies` | kernel/multitasking/task.c:489-502 | a task that exits is dead and first of the dead, does not run on and is not ready; a parked reaper is ready or runs; everyone else keeps their state |
| `Effects.KillSelf` | kernel/multitasking/task.c:509-519 | killing the current task is the same as its exit; the protected, the dead and the unknown are left alone |
| `Effects.KilledIsDead` | kernel/multitasking/task.c:521-553 | a task that is killed, whatever it was doing, is dead, first of the dead and on no other queue; holds of semaphores and everyone else stay |
| `Effects.ExitIsFinal` | kernel/multitasking/task.c:489-507 | in every run a task that exited or killed itself never runs and is never ready again, unless a new task is made in its place |
| `Effects.NeverRunsAgain` | kernel/multitasking/task.c:504-507 | the same for every task that is dead or gone |
| `Effects.SleepSleeps` | kernel/multitasking/task.c:416-434 | a task that sleeps is on the list with its wake time, the others keep order and time, and someone else runs; a time that has passed changes nothing |
| `Effects.SleepsLongEnough` | kernel/multitasking/task.c:416-456 | in every run a task that went to sleep does not run before the timer checks at or after its wake time |
| `Effects.AsleepUntil` | kernel/multitasking/task.c:445-456 | the same for every sleeper |
| `Effects.WakesInTime` | kernel/multitasking/task.c:445-456 | the first check at or after its time makes a sleeper ready, and it runs within its place in the queue plus one switches |
| `Effects.AcquireHolds` | kernel/multitasking/task.c:608-619 | a free semaphore makes the current task a holder, which runs on; otherwise it is the last of the waiters and someone else runs |
| `Effects.ReleaseEnds` | kernel/multitasking/task.c:625-636 | a release ends one hold of the current task; the first waiter holds instead and is ready, or the count goes down |
| `Kernel.Append` | kernel/multitasking/task.c:40-48 | the linked list gains the task at its end |
| `Kernel.Pop` | kernel/multitasking/task.c:50-57 | the linked list loses its first task, the last pointer is not left dangling |
| `Kernel.Remove` | kernel/multitasking/task.c:63-72 | the linked list loses exactly the task, wherever it is; a task not on it changes nothing |
| `Kernel.InsertSleeper` | kernel/multitasking/task.c:74-93 | the task goes to its place by wake time |
| `Kernel.ReadyPush` | kernel/multitasking/task.c:40-48 | the ready queue gains the task, all other lists stay |
| `Kernel.ReadyPop` | kernel/multitasking/task.c:50-57 | the ready queue loses its head, all other lists stay |
| `Kernel.ReadyRemove` | kernel/multitasking/task.c:63-72 | the ready queue loses the task, all other lists stay |
| `Kernel.SleepPush` | kernel/multitasking/task.c:74-93 | the sleeping queue gains the task in its place |
| `Kernel.SleepPop` | kernel/multitasking/task.c:95-102 | the sleeping queue loses its head |
| `Kernel.SleepRemove` | kernel/multitasking/task.c:104-113 | the sleeping queue loses the task |
| `Kernel.SemPush` | kernel/multitasking/task.c:115-124 | the semaphore's queue gains the task at its end |
| `Kernel.SemPop` | kernel/multitasking/task.c:126-135 | the semaphore's queue loses its head |
| `Kernel.SemRemove` | kernel/multitasking/task.c:137-147 | the semaphore's queue loses the task |
| `Kernel.DeadPush` | kernel/multitasking/task.c:493-494 | the list of the dead gains the task in front |
| `Kernel.DeadPop` | kernel/multitasking/task.c:560-561 | the list of the dead loses its head |
| `Kernel.Kernel.constructor` | kernel/multitasking/task.c:150-186 | the state after start-up refines an initial state that satisfies the invariant |
| `Kernel.Kernel.UnblockTask` | kernel/multitasking/task.c:408-413 | a task on no queue becomes ready, without a switch |
| `Kernel.Kernel.WakeTheReaper` | kernel/multitasking/task.c:483-487 | the reaper becomes ready exactly when it is parked, so it is never queued twice |
| `Kernel.Kernel.SwitchToTask` | kernel/multitasking/task.c:302-325 | a postponed switch is only noted; otherwise the previous task, if still running, is queued and the next one runs, with interrupts disabled once |
| `Kernel.Kernel.Schedule` | kernel/multitasking/task.c:327-363 | the head of the ready queue runs next; the idle loop is unreachable |
| `Kernel.Kernel.UnlockStuff` | kernel/multitasking/task.c:382-392 | a postponed switch happens exactly when the last lock is released |
| `Kernel.Kernel.BlockTask` | kernel/multitasking/task.c:400-405 | the current task takes the given state, and the next one runs at once, or when the last lock is released if switches are postponed |
| `Kernel.Kernel.Yield` | kernel/multitasking/task.c:394-398 | refines the step in which the current task goes to the end of the queue |
| `Kernel.Kernel.NanoSleepUntil` | kernel/multitasking/task.c:416-434 | refines the sleep step, whose effect `Effects.SleepSleeps` states; a time that has passed changes nothing |
| `Kernel.Kernel.CheckSleepingTasks` | kernel/multitasking/task.c:445-456 | refines the step that wakes all due sleepers |
| `Kernel.Kernel.TimeSliceTick` | kernel/multitasking/task.c:458-476 | refines the tick step |
| `Kernel.Kernel.TerminateTask` | kernel/multitasking/task.c:489-502 | refines the exit step, whose effect `Effects.ExitDies` states, with the switch postponed until the reaper is woken |
| `Kernel.Kernel.KillTask` | kernel/multitasking/task.c:509-553 | refines the kill step; the protected and the dead are refused |
| `Kernel.Kernel.ReapAllTasks` | kernel/multitasking/task.c:555-569 | one round of the reaper refines the reap step: all dead tasks are gone, in the order of their list, and the reaper is parked |
| `Kernel.Kernel.CreateTask` | kernel/multitasking/task.c:242-257 | refines the create step |
| `Kernel.Kernel.CreateSemaphore` | kernel/multitasking/task.c:593-602 | refines the step that makes a semaphore |
| `Kernel.Kernel.AcquireSemaphore` | kernel/multitasking/task.c:608-619 | refines the acquire step |
| `Kernel.Kernel.ReleaseSemaphore` | kernel/multitasking/task.c:625-636 | refines the release step: the first waiter gets the semaphore, or the count goes down |
| `PidTable.Table.constructor` | kernel/multitasking/taskTable.c:7-19 | an empty table of the asked capacity, 4 for none |
| `PidTable.Table.Grow` | kernel/multitasking/taskTable.c:27-42 | doubling, or more, keeps all entries |
| `PidTable.Table.Set` | kernel/multitasking/taskTable.c:44-59 | a free slot gets the task; an occupied one or missing memory changes no entry |
| `PidTable.Table.Get` | kernel/multitasking/taskTable.c:61-72 | the entry, or none beyond the capacity |
| `PidTable.Table.Remove` | kernel/multitasking/taskTable.c:74-86 | exactly the slot is emptied |
| `PidTable.Table.Alloc` | kernel/multitasking/pidTable.c:63-78 | a process number that nobody has and that is not free any more |
| `PidTable.Table.Release` | kernel/multitasking/pidTable.c:80-90 | the number can be given out again, or is lost without memory |
| `PidTable.Table.Register` | kernel/multitasking/task.c:245-253 | a new task gets a number whose slot is empty: it fails only when the table cannot grow |
| `PidTable.Table.Unregister` | kernel/multitasking/task.c:574-590 | the task is gone from the table and its number can be given out again |
| `Processes.StepTasks` | kernel/multitasking/task.c:302-636 | tasks appear when they are created and vanish when they are reaped, and in no other step |
| `Processes.OneToOne` | kernel/multitasking/task.c:245-253 | the occupied slots are the numbers of the tasks, one each |
| `Processes.Processes.constructor` | kernel/multitasking/task.c:150-186 | after start-up the boot task has number 0, the shell 1 and the reaper 2 |
| `Processes.Processes.Create` | kernel/multitasking/task.c:242-259 | a new task is in the table under a number of its own before it can run, or there is no new task; the table and the tasks correspond one to one |
| `Processes.Processes.KillByPid` | kernel/multitasking/task.c:509-553 | any number is refused or kills the one task that has it, and the table still corresponds to the tasks |
| `Processes.Processes.Reap` | kernel/multitasking/task.c:555-591 | exactly the dead tasks leave the table, their numbers are released and the table still corresponds to the tasks |
| `Rtc.CountAfter` | kernel/drivers/rtc.c:66-77 | the closed form of the n-th day after 1970-01-01, counted day by day in the Gregorian calendar, is n |
| `Rtc.EveryDate` | kernel/drivers/rtc.c:66-77 | every date since 1970 is reached by counting, after as many days as the closed form says |
| `Rtc.CountOrder` | kernel/drivers/rtc.c:66-77 | a later date has a higher count |
| `Rtc.YearDaysClosed` | kernel/drivers/rtc.c:76 | 365 y + y/4 - y/100 + y/400 counts the days year by year |
| `Rtc.EpochIsCount` | kernel/drivers/rtc.c:66-78 | the result is the true one with the number of days taken modulo 2^32 |
| `Rtc.EpochIsTrue` | kernel/drivers/rtc.c:66-78 | the result is the true number of seconds exactly while the number of days fits 32 bits |
| `Rtc.EpochCountsSeconds` | kernel/drivers/rtc.c:66-78 | for the time n seconds after 1970 began, counted second by second through minutes, hours and the calendar, the result is n exactly while the number of days fits 32 bits |
| `Rtc.EpochNextSecond` | kernel/drivers/rtc.c:66-78 | the next second on the clock gives the next number, while the number of days fits 32 bits |
| `Rtc.EpochStarts` | kernel/drivers/rtc.c:66-78 | 1970-01-01 00:00:00 gives 0 |
| `Rtc.EveryTime` | kernel/drivers/rtc.c:66-78 | every time since 1970 is reached by counting seconds |
| `Rtc.EpochOrder` | kernel/drivers/rtc.c:66-78 | a later time, by date, hour, minute and second, gives a higher number |

## Left out

- Realloc, calloc, memalign, mspaces, mmapped chunks and further segments of dlmalloc: the kernel uses one segment that
  grows through sbrk; realloc would add members like those that are there.
- Partial success of `sys_alloc`'s contiguous path and prepending to a segment: sbrk moves one break, so the memory it
  returns always starts at the end of the segment.
- The overlay of list and tree links, feet and user bytes in one memory: the model keeps them in separate maps, and
  `Chunks.BlocksApart` states that no block covers a header.
- The header that `init_top` writes behind the top chunk, the footprint counters, the magic number and the countdown to
  `release_unused_segments`: with one segment that is not mapped by mmap nothing depends on them.
- SmallBins.SmallBins.constructor: the source links the headers at the first request, the model at once; before that
  nothing reads them.
- Pmm.Pmm.constructor: requires that some usable region can hold the bitmap and that every available page has a bit;
  otherwise the start-up code writes through a null pointer or outside the bitmap.
- Vmm.Vmm.MapPage: requires that no large page is on the way, because the source panics there, and that a page of the
  lower half gets a frame that no other page has: `kernel/mmu/vmm.h:41` assumes it, and without it destroying an address
  space frees a frame twice.
- Vmm.Vmm.constructor: requires that the boot loader's upper half is a tree of tables, and as many free frames as
  start-up takes; the source panics without them. Upper slots below which the loader's tables may forbid writing are a
  parameter; for the others every table on every way allows it.
- Vmm.Vmm.Lifetime: requires that the requests do not touch the same page twice; a page mapped twice loses its first
  frame, which `Vmm.Vmm.UserAlloc` states by leaving it held.
- Page-table entries as 64-bit words, the control register, invalidation of single pages and the no-execute switch.
- TASK_BLOCKED, which no code of the kernel sets, run times of tasks, stacks, the context switch itself and entering
  user mode.
- Kernel.Kernel.KillTask: takes the task as its argument; `Processes.Processes.KillByPid` looks it up.
- Processes.Processes.Reap: takes the dead tasks out of the table after the scheduler's round, within which the source
  does it one by one; no other task runs in between.
- The shell, system calls, interrupt and descriptor tables, drivers other than the timer's tick and the clock's
  arithmetic, fonts and screen output: input and output without deep state.
