# SalernOS kernel: verified models

Dafny models of the hard parts of the SalernOS kernel, with proofs of what the kernel relies on them for.
Every module follows one or a few of the kernel's source files. Code that works in place is a class or a
method with loops, proved against a specification function. Protocols are state machines over their steps,
with theorems about every run. KASSERTs are proof obligations, or named failure results where the kernel
would stop.

- **Copy-on-write memory.** `Pages` and `EntryBits` (entries and their bits), `Cow`, `CowInvariant`,
  `CowAccounting`, `Isolation` and `Sharing` (flat address spaces, the counting invariant, where counts come
  from, the refinement to separate memories, what shared mappings share), `Digits`, `PageTable`,
  `PageTableFork` and `Mmu` (the four-level tables and their code), `VmmView` and `Vmm` (the code
  of the virtual memory manager, proved to perform the flat operations on the real tables), `SparseTables` (an
  example), `Machine` (the memory manager on top of the physical allocator).
- **Allocators.** `FreeList`, `RunHeads`, `StaleHeads`, `Pmm` and `MemRep` (physical pages and the list entries
  inside them), `Slab` (small objects, over `Words`), `Heap` (small objects on top of the physical allocator).
- **Threads and locks.** `Queues`, `Scheduler`, `SchedulerLaws`, `Handover`, `LockDepth` and `Dispatcher`, `RwLock`
  and `RwLockLaws`, `Shootdown` and `Coherence`, `Callout`.
- **Files and streams.** `Radix` and `Tmpfs`, `RingBuffer` and `Streams`, `IovIter`.
- **Layouts and devices.** `ElfStack`, `Nvme`. `Arith` and `Options` are shared helpers.

`dafny verify dfyconfig.toml` checks the whole project.

Pages, frames and runs are counted in units of 4096 bytes. Inputs from outside the modelled code are
parameters: fresh pages from the physical allocator, table pages from a per-CPU cache, the page a fault is
served with, the effect of a callout handler, the completions a device posts. Memory is sequentially
consistent. Section numbers of standards: Intel SDM volume 3A section 4.5 (table format), System V AMD64 ABI
section 3.4.1 (process stack), POSIX.1-2017 `write()` (PIPE_BUF), NVM Express 1.0e section 4.1 (phase bit).

## Where the code differs from what one would expect

The model follows the code in each case.

- The one-page merge of the free list can break its order (`FreeList.AddOrderedDescending` says exactly when).
  A later multi-page request can then hand out a run that stays listed (`FreeList.FrontListedTwice`,
  `FreeList.MergeListsTwice`). The merge also leaves a list entry inside a free run (`RunHeads.ReturnedTidy`).
  A request that gets this page behind its first page gets it with the entry in it, a request that gets it as
  its first page gets it clean (`StaleHeads.MergeNotZero`, and for all requests `StaleHeads.MergeHandsOut`).
- `com_mm_pmm_alloc_many(0)` and `com_mm_pmm_alloc_max` with 0 return the address just past the largest run.
  They also clear 24 bytes there, whoever owns the page (`RunHeads.GivenNone`). `com_mm_pmm_alloc_max` with 1
  leaves the count unset.
- `com_mm_vmm_unmap` stops at the first page without a leaf table, even if later pages of the range are mapped
  (`VmmCode.Vmm.Unmap` says when the range ends up unmapped, `SparseTables.SparseStops` shows tables for which it does not).
  An empty entry in between makes it release physical page 0, which is harmless because page 0 is never TAKEN.
- A served MAP fault does not give back its reference on the zero page, and mapping over an entry does not
  give back the old page's. `CowAccounting.ExactCounting` counts both, `CowAccounting.TouchedOnce` shows a run.
- A shared mapping is shared only through entries that are already writable (`Sharing.SharedStoreSeen`). So an
  anonymous shared mapping forked before its first write is not shared (`Sharing.AnonymousNotShared`), and a
  tmpfs mapping, always made private, never writes the file (`Sharing.FileMappingCopies`).
- `com_mm_slab_alloc(0)` would divide by zero.
- The ring indices are right only for capacities that are powers of two up to 2^64 (`RingBuffer.MasksRight`).
- A callout with delay 0 fires a full period late (`Callout.ZeroDelayLate`). A handler that keeps re-arming with
  delay 0 keeps the tick from ending, one with a positive delay does not (`Callout.FixedDelayEnds`).
- `com_fs_tmpfs_truncate` keeps the bytes it cuts off, and growing shows them again (`Tmpfs.ShrinkRemembers`).
- `com_fs_tmpfs_read` returns nothing when offset plus length wraps at 2^64.

## Model

| member | source | states |
|---|---|---|
| CowInvariant.ReachableCounting | src/com/mm/pmm.c:367-388 | in every state reachable from boot a page's `num_ref` is at least the entries mapping it plus its other holders; a page at zero is mapped nowhere; a writable non-shared entry is the only mapper of its page; a page with at most one reference has exactly one mapper and no holder |
| CowAccounting.ExactCounting | src/com/mm/pmm.c:367-388 | in every run from boot `num_ref` is exactly the entries mapping the page plus its holders plus the references lost, where a reference is lost by each MAP fault on the page and by each mapping put over an entry for it; so when the last owner goes the count is zero if and only if none was lost |
| CowAccounting.StepSurplus | src/com/mm/vmm.c:155-305 | every operation changes the number of references nobody owns by exactly the references it loses |
| CowAccounting.TouchedOnce | src/com/mm/vmm.c:261-275 | a concrete run after which the zero page keeps a reference nobody owns |
| CowInvariant.RunKeepsInv | src/com/mm/vmm.c:91-305 | every run of map, fork, fault, store, unmap and page-cache operations keeps the global invariant over all address spaces |
| CowInvariant.ForkKeepsInv | src/platform/x86-64/mmu.c:187-219 | a fork keeps the counting invariant: each page gains exactly the references its new entries need |
| CowInvariant.ForkMappers | src/platform/x86-64/mmu.c:196-216 | after a fork the mappers of a page are the old ones and one new child slot per parent slot, disjoint from them |
| CowInvariant.SoleMapper | src/com/mm/pmm.c:373-377 | when `com_mm_pmm_is_shared` is false for a mapped page, the faulting slot is its only mapper and nobody else holds it |
| CowInvariant.UpgradeKeepsInv | src/com/mm/vmm.c:282-291 | making such a page writable in place keeps the invariant |
| CowInvariant.CowFaultKeepsInv | src/com/mm/vmm.c:277-305 | both branches of the copy-on-write fault keep the invariant |
| CowInvariant.MapFaultKeepsInv | src/com/mm/vmm.c:261-275 | serving a NOCOPY fault with a fresh page keeps the invariant |
| CowInvariant.UnmapKeepsInv | src/com/mm/vmm.c:188-228 | unmapping a page and dropping its reference keeps the invariant |
| Isolation.KernelRefinesSeparateMemories | src/com/mm/vmm.c:91-305 | every kernel run is a run of a machine in which address spaces own separate memory, with the same slots mapped, the same bytes at every slot and the same bytes in every page the kernel holds |
| Isolation.StepSimulates | src/com/mm/vmm.c:91-305 | one kernel operation is one step of that machine, enabled there too, with related states afterwards |
| Isolation.PrivateBytesPersist | src/com/mm/vmm.c:277-305 | after a store through a non-shared mapping no sequence of other operations, by any address space, fork or the page cache, changes what that slot reads |
| Isolation.PrivateWriteIsolated | src/com/mm/vmm.c:277-305 | a user write through a non-shared mapping, with its fault, changes its own slot's byte and nothing that any other slot, any held page or the zero page reads |
| Isolation.FaultSameView | src/com/mm/vmm.c:261-305 | serving a fault changes no byte anyone reads and makes the slot writable exactly if it was writable or copy-on-write |
| Sharing.SharedStoreSeen | src/com/mm/vmm.c:277-305 | a store through one of two slots of a page is seen through the other if and only if the entry stored through was already writable; else the writer moves to a page of its own and the other slot reads as before |
| Sharing.ForkShares | src/platform/x86-64/mmu.c:187-200 | after a fork a store by the child through a SHARED entry reaches the parent if and only if the entry was writable before the fork |
| Sharing.CacheSees | src/com/mm/vmm.c:277-305 | a store reaches the page cache if and only if the entry is already writable |
| Sharing.FileMappingCopies | src/com/fs/tmpfs.c:678-693 | a mapping of a cached file page, which is always made PRIVATE, never writes the file, even when SHARED is asked for |
| Sharing.AnonymousNotShared | src/com/mm/vmm.c:261-275 | a concrete run from boot: an anonymous SHARED page forked before its first write reads 7 in the child and 0 in the parent |
| Isolation.ForkSameView | src/platform/x86-64/mmu.c:265-284 | right after a fork the child reads what the parent reads, both hold the downgraded entry, and nobody's view has changed |
| EntryBits.DupWordMeans | src/platform/x86-64/mmu.c:187-200 | the bit arithmetic of the fork's leaf case is the abstract downgrade: WRITE lost and bit 9 gained exactly on writable non-shared entries, address and all other bits kept |
| EntryBits.HintMeans | src/platform/x86-64/mmu.c:548-564 | the flag word the fault interrupt computes, stored with a page address, is the upgraded entry on that page |
| EntryBits.MapMeans | src/com/mm/vmm.c:98-126 | the flag word `com_mm_vmm_map` derives, stored with a page address, is the entry the model maps |
| PageTable.LeafPlace | src/platform/x86-64/mmu.c:79-103 | a walk ends in the leaf table that belongs to its own address space and page-number prefix |
| PageTable.PutLeafEntry | src/platform/x86-64/mmu.c:162-163 | a write to a leaf slot is seen by exactly the walks that end in that slot |
| PageTable.LinkEntry | src/platform/x86-64/mmu.c:119-128 | linking an empty table where there was none translates nothing new |
| PageTableFork.CopyLeafSlot | src/platform/x86-64/mmu.c:206-216 | copying one leaf slot, parent and child downgraded alike, extends the part already copied and changes no other translation |
| PageTableFork.CopyInnerSlot | src/platform/x86-64/mmu.c:206-216 | linking a copied subtree into the child extends the part already copied and changes no other translation |
| MmuCode.ForkDone | src/platform/x86-64/mmu.c:276-280 | once all user slots are copied, every user page of parent and child translates to the downgraded entry of the parent, and every other root is as before |
| MmuCode.Offsets | src/platform/x86-64/mmu.c:79-103 | masking and shifting an address as the code does yields the four digits of its page number |
| MmuCode.Mmu.constructor | src/platform/x86-64/mmu.c:426-523 | a root whose upper half links the kernel tables |
| MmuCode.Mmu.GetPage | src/platform/x86-64/mmu.c:79-103 | the masks and shifts reach exactly the leaf table of the address, or stop where a link is missing |
| MmuCode.Mmu.NextOrAlloc | src/platform/x86-64/mmu.c:119-128 | following or creating one link changes no translation of any address space; a link that exists is followed without taking a page |
| MmuCode.Mmu.AddPage | src/platform/x86-64/mmu.c:106-164 | after success the page translates to the new entry below this root, every other page of every root as before (kernel pages are shared by all roots); it fails only without a table page, and never for a page whose leaf table exists |
| MmuCode.Mmu.Map | src/platform/x86-64/mmu.c:286-291 | map then get, with every other page framed |
| MmuCode.Mmu.Unmap | src/platform/x86-64/mmu.c:304-312 | false exactly when there is no leaf table; else the old physical page comes back and only this translation is cleared |
| MmuCode.Mmu.GetPhysical | src/platform/x86-64/mmu.c:392-402 | the physical address: the page of the translation and the offset within it |
| MmuCode.Mmu.IsCow | src/platform/x86-64/mmu.c:404-410 | the copy-on-write bit of the translation |
| MmuCode.Mmu.DuplicateRecursive | src/platform/x86-64/mmu.c:187-219 | parent and child are downgraded together below the entry, the child tree is disjoint, every mapped page is held once more, nothing outside changes; it fails only without a table page |
| MmuCode.Mmu.NewTable | src/platform/x86-64/mmu.c:240-251 | a root with no user page and the kernel's upper half |
| MmuCode.Mmu.DuplicateTable | src/platform/x86-64/mmu.c:265-284 | a disjoint tree with the parent's physical translation at every user page, both sides losing WRITE and gaining bit 9 exactly on writable non-shared leaves, every other root unchanged, and references raised by the number of uses |
| VmmView.TabsFork | src/platform/x86-64/mmu.c:265-284 | the flat view of the forked tables is the fork of the flat view |
| VmmView.UsesMappers | src/platform/x86-64/mmu.c:196-200 | the number of leaf entries of an address space that use a page is the number of its flat mappers |
| VmmCode.SizeInPagesExact | src/com/mm/vmm.c:130-132 | the page count covers exactly the pages the byte range touches |
| VmmCode.Vmm.constructor | src/com/mm/vmm.c:326-331 | no contexts and one zero page: the boot state |
| VmmCode.Vmm.NewContext | src/com/mm/vmm.c:58-67 | the tables refine the flat operation: a new empty address space |
| VmmCode.PlacementsDisjoint | src/com/mm/vmm.c:139-144 | mappings placed one after the other without a hint never overlap each other or what was given out before |
| VmmCode.Vmm.PlaceMapping | src/com/mm/vmm.c:136-153 | the hint, or pages of the context's anonymous arena disjoint from all given out so far, which they join |
| VmmCode.Vmm.MapPhysical | src/com/mm/vmm.c:155-170 | exactly the slots of the range map the physical pages in order, with the entry the flags ask for; every other slot stays |
| VmmCode.MapRangeSlots | src/com/mm/vmm.c:155-170 | slot by slot, with one holder of each page giving its reference away and nothing else changed |
| VmmCode.MappedEntry | src/com/mm/vmm.c:98-126 | the entry flag by flag: a private or allocated writable mapping has the copy-on-write bit in place of WRITE |
| VmmCode.Vmm.MapAllocate | src/com/mm/vmm.c:155-170 | exactly the slots of the range map the zero page, which is held once more for each; every other slot stays |
| VmmCode.MapZeroRangeSlots | src/com/mm/vmm.c:155-170 | slot by slot, with nothing but the count of the zero page changed |
| VmmCode.Vmm.Unmap | src/com/mm/vmm.c:188-228 | exactly the pages before the first one without a leaf table are unmapped and give their references back; the whole range ends up unmapped if and only if every page mapped in it comes before that one |
| SparseTables.SparseStops | src/com/mm/vmm.c:207-216 | tables the kernel can have, kernel half and all other preconditions of the code included, with page 512 mapped and nothing below: unmapping the first 513 pages clears none and leaves it mapped |
| VmmCode.Vmm.DuplicateContext | src/com/mm/vmm.c:80-89 | in the flat state this is the fork, and the arena position is inherited |
| VmmCode.Vmm.FaultMap | src/com/mm/vmm.c:261-275 | exactly the slots of the hint get the fresh pages in order, writable; it cannot fail |
| VmmCode.MapFaultRangeSlots | src/com/mm/vmm.c:261-275 | slot by slot, every other slot as before |
| VmmCode.MapFaultRangePages | src/com/mm/vmm.c:261-275 | each fresh page has one reference and is zero; every other page as before |
| VmmCode.Vmm.FaultCow | src/com/mm/vmm.c:277-305 | a page with one reference is upgraded in place; else the entry moves to a copy with one reference and the old page loses one; it cannot fail |
| VmmCode.Vmm.HandleFault | src/com/mm/vmm.c:237-311 | NOCOPY leads to MAP, the copy-on-write bit to COW, anything else to SIGSEGV with nothing changed |
| VmmCode.Vmm.UserStore | src/com/mm/vmm.c:237-311 | a store instruction with its fault is the flat user write that PrivateWriteIsolated speaks of, and is served if and only if the entry is writable or copy-on-write |
| VmmCode.Vmm.HoldPage | src/com/mm/pmm.c:367-371 | is the flat hold by a holder and keeps the counting invariant on the real tables |
| VmmCode.Vmm.ReleasePage | src/com/mm/pmm.c:379-388 | is the flat release by a holder and keeps it |
| VmmCode.Vmm.KernelStoreByte | src/com/fs/tmpfs.c:344-391 | a store of the kernel into a page it holds keeps it |
| MachineCode.Machine.TakePage | src/com/mm/pmm.c:271-293 | a page from the free list is zero and has no references in the memory manager |
| MachineCode.Machine.AllocPage | src/com/mm/pmm.c:271-293 | is the flat allocation of a fresh page; none exactly when the free list is empty |
| MachineCode.Machine.UserStore | src/com/mm/vmm.c:261-305 | a store with its fault served from the free list is the flat user write; it fails exactly when the fault needs a page and none is free, and a sole mapping is upgraded without one |
| FreeList.AddOrderedDescending | src/com/mm/pmm.c:117-156 | insertion keeps descending size if and only if the one-page merge does not make the last run larger than its predecessor |
| FreeList.AddGoodExactly | src/com/mm/pmm.c:117-156 | insertion keeps the list in descending size and its runs apart if and only if the entry is apart from every run, or is one page that touches only the last run without making it outgrow its predecessor |
| FreeList.AddOrderedPages | src/com/mm/pmm.c:117-156 | insertion, merging or not, adds exactly the entry's pages |
| FreeList.InitialList | src/com/mm/pmm.c:474-527 | from non-touching usable ranges the list is in descending size and holds exactly their pages |
| FreeList.PopRearTakes | src/com/mm/pmm.c:198-211 | one page leaves the list and everything else stays, in order |
| FreeList.PopFrontTakes | src/com/mm/pmm.c:216-242 | the pages handed out leave the list, which stays disjoint and in descending size |
| FreeList.RearLaw | src/com/mm/pmm.c:198-211 | a single page comes off the end of the smallest run and the other runs are left alone |
| FreeList.FrontLaw | src/com/mm/pmm.c:216-242 | several pages come off the end of the largest run, as many as asked for and there are |
| FreeList.FrontListedTwice | src/com/mm/pmm.c:235-238 | a run handed out whole stays listed if and only if the next run is larger |
| FreeList.MergeListsTwice | src/com/mm/pmm.c:127-137 | a concrete list and freed page for which the merge makes the next request hand out pages that stay listed |
| FreeList.FrontServes | src/com/mm/pmm.c:216-242 | a request for n pages gets all of them if and only if some free run has them |
| FreeList.FrontZero | src/com/mm/pmm.c:216-242 | a request for no pages returns an address that is not free, and only that request does |
| FreeList.NoPageTwice | src/com/mm/pmm.c:271-361 | over every run of alloc, alloc_many and alloc_max no page is handed out twice, and what was served and what is left make up what was free |
| FreeList.NoPageOutTwice | src/com/mm/pmm.c:271-409 | over every run of requests and of returned ranges that keep the list in order, no request is served with a page that is out and no page is both out and free |
| FreeList.TotalIsCount | src/com/mm/pmm.c:49-52 | the sum of run lengths behind the free counter is the number of free pages |
| RunHeads.GivenOk | src/com/mm/pmm.c:279-310 | once the 24 bytes of a list entry at its start are cleared, every byte of what is handed out is zero, the rest of free memory stays zero but for list entries, and no page that was not free changes |
| RunHeads.LinksLead | src/com/mm/pmm.c:62-65 | the first page of a run holds its length and the addresses of the next and the previous run |
| RunHeads.ReturnedTidy | src/com/mm/pmm.c:117-156 | free memory stays zero but for list entries if and only if the returned range is not merged into the last run |
| StaleHeads.MergeHandsOut | src/com/mm/pmm.c:127-137 | after a merge the next request of any kind, in whatever order the merge left the list, gets pages that are all zero if and only if the absorbed list entry does not lie among them or lies in the first, where 24 bytes are cleared |
| StaleHeads.MergeNotZero | src/com/mm/pmm.c:127-137 | from pages 10 and 11 free, returning page 12: a request for two pages gets page 12 with a list entry in it, a request for one gets it clean |
| StaleHeads.ZeroOverRuns | src/com/mm/pmm.c:271-409 | over every run of requests and returns that keeps the list in order, each request gets pages that are all zero if and only if no entry left behind by a merge lies among them except in the first |
| RunHeads.GivenNone | src/com/mm/pmm.c:310 | the same stores for no page at all clear 24 bytes of the page past the largest run, whoever owns it |
| PmmCode.GrantOk | src/com/mm/pmm.c:271-361 | handing out a run keeps list, metadata, counters and the bytes of free memory in agreement |
| PmmCode.UnreserveOk | src/com/mm/pmm.c:396-409 | returning a range keeps them in agreement if and only if no free run touches it |
| PmmCode.Pmm.constructor | src/com/mm/pmm.c:420-431 | an empty list over FREE metadata |
| PmmCode.Pmm.AddOrderedIn | src/com/mm/pmm.c:117-156 | the loop over the list inserts where the ordered insertion says |
| PmmCode.Pmm.PopRearIn | src/com/mm/pmm.c:198-211 | the last page of the last run |
| PmmCode.Pmm.PopFrontIn | src/com/mm/pmm.c:216-242 | up to n pages from the end of the first run, reinserted in order |
| PmmCode.Pmm.MetaSet | src/com/mm/pmm.c:256-267 | exactly the run's metadata entries are overwritten |
| PmmCode.Pmm.Alloc | src/com/mm/pmm.c:271-293 | fails exactly on an empty list; else the page was FREE, becomes TAKEN with one reference, is all zero, and the counters move by one page; the KASSERTs on its metadata cannot fail |
| PmmCode.Pmm.AllocMany | src/com/mm/pmm.c:295-323 | gets n contiguous pages of zeros if and only if some run has them, from the end of the largest run or for one page of the smallest, changing no page that was not free; for n = 0 it takes nothing, returns an address that is not free and clears 24 bytes there |
| PmmCode.Pmm.AllocMax | src/com/mm/pmm.c:333-361 | gets min(n, largest run) pages of zeros; for n = 1 the count is not stored, for n = 0 it clears 24 bytes that are not free |
| PmmCode.Pmm.UnreserveMany | src/com/mm/pmm.c:396-409 | the range joins the list zeroed and FREE; for pages neither free nor taken the allocator stays consistent if and only if the range touches no free run |
| MemRep.KMemRepCpy | src/com/lib/mem.c:130-149 | the doubling copy writes exactly `rep` copies and nothing else; NULL exactly when there is nothing to copy |
| MemRep.RepeatIs | src/com/lib/mem.c:130-149 | element j of every copy is element j of the source |
| MemRep.KMemCpy | src/com/lib/mem.c:59-75 | a copy between disjoint ranges of one buffer |
| Slab.LiveDisjoint | src/com/mm/slab.c:37-86 | any two live objects of any classes occupy disjoint 16-aligned ranges, each inside one page |
| Slab.ClassLaw | src/com/mm/slab.c:37-50 | the class of a size is the number of 16-byte units that just hold it |
| Slab.Take | src/com/mm/slab.c:60-66 | the object taken was not live and is all zero up to its rounded size; every other live object keeps its bytes |
| Slab.GiveBack | src/com/mm/slab.c:69-86 | a freed object is zero but for its link and heads its class's list; others keep their bytes |
| Slab.UserStore | src/com/mm/slab.c:52-67 | a store inside a live object disturbs no list and no other object |
| Slab.Allocator.constructor | src/com/mm/slab.c:33-34 | no pages and empty lists |
| Slab.Allocator.Init | src/com/mm/slab.c:37-50 | a fresh zeroed page becomes the free list of its class |
| Slab.Allocator.Alloc | src/com/mm/slab.c:52-67 | succeeds exactly for sizes 1 to 4080, with a new all-zero object; takes the page exactly when the class has no free object, and changes no memory outside the slab pages |
| Slab.Allocator.Free | src/com/mm/slab.c:69-86 | NULL is ignored; else the object leaves the live set |
| HeapCode.Heap.Alloc | src/com/mm/slab.c:37-67 | on top of the physical allocator: a new object of zeros, all others unchanged; fails exactly for a size without a class or when it needs a page and the free list is empty |
| HeapCode.Heap.Free | src/com/mm/slab.c:69-86 | the object goes, all others keep their bytes |
| HeapCode.Heap.Write | src/com/mm/slab.c:52-67 | a store into one object changes no other |
| HeapCode.Heap.Disjoint | src/com/mm/slab.c:37-67 | any two objects are 16-byte aligned and disjoint |
| HeapCode.Perform | src/com/mm/slab.c:37-86 | over every sequence of allocations, stores and frees the objects behave as separate byte sequences, zero at first, each at its own address |
| Scheduler.EveryRun | src/com/sys/sched.c:95-192 | in every run from boot each started, non-exited, non-idle thread is in exactly one place, and each process's `num_running_threads` is the number of CPUs running one of its threads |
| Scheduler.ExactlyOnePlace | src/com/sys/sched.c:351-411 | running on one CPU, in one run queue, or in the one wait list named by `waiting_on`, and there only once |
| Scheduler.RunKeepsInv | src/com/sys/sched.c:95-411 | every run of yield, wait, exit, notify, ready and creation keeps the scheduler invariant |
| Scheduler.MoveKeepsInv | src/com/sys/sched.c:95-192 | taking a thread from one place to the tail of another keeps it, accounting included |
| Scheduler.RoundRobin | src/com/sys/sched.c:103-166 | in every run a thread at position k of a CPU's queue moves up one place at each switch there and is started by exactly the (k+1)-th |
| Scheduler.BootInv | src/com/sys/sched.c:443-451 | the boot state satisfies the invariant |
| SchedulerLaws.BootLaw | src/com/sys/sched.c:443-451 | CPU 0 runs the initial thread beside its ready idle thread, every other CPU its idle thread, nobody is queued or asleep |
| SchedulerLaws.YieldLaw | src/com/sys/sched.c:95-201 | with an empty queue nothing; else the running thread is ready at the tail, unless idle, and the head runs |
| SchedulerLaws.WaitLaw | src/com/sys/sched.c:74-86 | the running thread sleeps last in the list and the head of the queue, or the idle thread, runs |
| SchedulerLaws.ExitLaw | src/com/sys/thread.c:116-131 | the running thread has exited and is nowhere, and the next one runs |
| SchedulerLaws.CreateLaw | src/com/sys/thread.c:37-63 | a new thread is nowhere and has never run |
| SchedulerLaws.CreateProcLaw | src/com/sys/proc.c:79 | a new process has no thread running and nothing else changes |
| SchedulerLaws.StartLaw | src/com/sys/thread.c:144-168 | a started thread is ready and last in the queue of the CPU whose turn it is, and the turn goes round all CPUs |
| SchedulerLaws.NotifyThreadLaw | src/com/sys/sched.c:401-411 | a sleeper leaves its list, where the others keep their order, is in no list, and is ready and last in the queue of its last CPU, or else of the CPU whose turn it is; a thread that does not sleep is left alone, as is everything else |
| SchedulerLaws.NotifyLaw | src/com/sys/sched.c:351-362 | the longest sleeper is woken so, or nothing happens |
| SchedulerLaws.NotifyNLaw | src/com/sys/sched.c:380-399 | the first n sleepers, or all, are ready behind what was queued, in the order they slept; nobody else changes |
| SchedulerLaws.NotifyAllLaw | src/com/sys/sched.c:364-378 | all of them, and the list is empty |
| Handover.Switched | src/com/sys/sched.c:107-166 | the state after a switch, field by field, for a thread that yields, sleeps or exits |
| LockDepth.EveryEntry | src/com/sys/sched.c:98-102 | in every run from boot, with any number of locks held, a call of the scheduler finds two or three locks counted if and only if the caller held at most one besides the one it drops |
| LockDepth.TimerYields | src/com/sys/interrupt.c:80-120 | a timer interrupt, which comes only at depth 0, may always yield, enters the scheduler with three locks, and its thread resumes with exactly the one that the code after the handler asserts |
| LockDepth.WaitReturns | src/com/sys/sched.c:218-229 | a wait that drops a lock ends, after waking on any CPU and taking it again, with the depth of the call |
| LockDepth.StartsUnlocked | src/com/sys/thread.c:41 | a new thread holds no lock when it first runs |
| LockDepth.TakeGive | src/com/lib/spinlock.c:73-154 | taking a lock counts one for the current thread alone and giving it back undoes that |
| LockDepth.ResumesAsItLeft | src/com/sys/sched.c:181-186 | however a thread gives up its CPU and whatever runs until it gets one again, it goes on with the lock depth of its call, less the lock a wait dropped |
| LockDepth.StepKeepsLInv | src/com/sys/sched.c:95-229 | every step keeps running threads at depth 0 or more and parked ones at 1 or 2 |
| Dispatcher.Kernel.constructor | src/com/sys/sched.c:443-451 | the booted system with its lock depths, which satisfies the invariant |
| Dispatcher.Kernel.Transition | src/com/sys/thread.c:87-114 | the KASSERTs of a state change are preconditions that every caller is proved to meet |
| Dispatcher.Kernel.Acquire | src/com/lib/spinlock.c:73-99 | counts one lock for the current thread, if there is one |
| Dispatcher.Kernel.Release | src/com/lib/spinlock.c:138-154 | counts one less; that the thread counts a lock is a proof obligation |
| Dispatcher.Kernel.SwitchContext | src/com/sys/sched.c:48-72 | the counts of running threads move from one process to the other |
| Dispatcher.Kernel.Leave | src/com/sys/sched.c:138-148 | the thread that stops is put back and the run queue's lock released |
| Dispatcher.Kernel.Switch | src/com/sys/sched.c:138-186 | the stores of the switch and their effect on queue, CPU, threads, counts, lock depths and the lock handed over |
| Dispatcher.Kernel.YieldNolock | src/com/sys/sched.c:95-192 | the code performs the model's step for every way of entering it; its KASSERTs on the held lock, the lock depth, the queue and the thread states cannot fail |
| Dispatcher.Kernel.YieldCpu | src/com/sys/sched.c:194-201 | is the yield step, lock depths included, for a thread that holds at most one lock as its KASSERT demands |
| Dispatcher.Kernel.WaitOn | src/com/sys/sched.c:209-229 | is the wait step, with or without a lock to drop; the KASSERT on the caller's lock depth is its precondition |
| Dispatcher.Kernel.ExitCurrent | src/com/sys/thread.c:116-131 | is the exit step of the running thread |
| Dispatcher.Kernel.ReadyNolock | src/com/sys/thread.c:144-162 | tail of the last CPU's queue, else of the next CPU in turn |
| Dispatcher.Kernel.StartThread | src/com/sys/thread.c:164-168 | is the ready step of a new thread |
| Dispatcher.Kernel.NotifyFirst | src/com/sys/sched.c:351-362 | wakes the longest sleeper |
| Dispatcher.Kernel.NotifySome | src/com/sys/sched.c:380-399 | moving n sleepers to a local queue and readying them one by one equals n single notifications |
| Dispatcher.Kernel.NotifyEvery | src/com/sys/sched.c:364-378 | wakes all sleepers in order |
| Dispatcher.Kernel.NotifyOne | src/com/sys/sched.c:401-411 | wakes a given sleeper as NotifyThreadLaw says; its KASSERT cannot fail |
| RwLock.MutualExclusion | src/com/lib/rwlock.c:22-69 | in every run an active writer shares the lock with nobody |
| RwLock.WriterPreference | src/com/lib/rwlock.c:22-31 | in every run a thread becomes a reader only when no writer holds or waits |
| RwLock.NoLostWakeup | src/com/lib/rwlock.c:33-69 | in every run, if any thread sleeps on the lock, somebody holds it or a waiting writer is awake, also with spurious wakeups |
| RwLock.AwakeWriterEnters | src/com/lib/rwlock.c:44-56 | an awake waiting writer gets a free lock with its next step |
| RwLock.StepKeepsInv | src/com/lib/rwlock.c:22-69 | every critical section keeps counters, lists and phases in agreement |
| RwLockLaws.ReadLaw | src/com/lib/rwlock.c:22-31 | a reader gets the lock with its step if and only if nobody writes or waits to write; otherwise it sleeps, last in the list |
| RwLockLaws.WriteLaw | src/com/lib/rwlock.c:44-56 | a writer gets it if and only if nobody holds it; otherwise it sleeps, last in its list |
| RwLockLaws.ReleaseReadLaw | src/com/lib/rwlock.c:33-42 | the last reader wakes the writer that has slept longest, if one sleeps; another reader wakes nobody |
| RwLockLaws.ReleaseWriteLaw | src/com/lib/rwlock.c:58-69 | a leaving writer wakes the writer that has slept longest if any writer waits, otherwise every sleeping reader |
| RwLockLaws.WakeLaw | src/com/lib/rwlock.c:22-56 | a sleeper woken from outside leaves its list, where the others keep their order, and tests again |
| RwLock.KRwLock.constructor | include/lib/rwlock.h:27-35 | the initial lock |
| RwLock.KRwLock.AcquireRead | src/com/lib/rwlock.c:22-31 | one turn: enters exactly when no writer is active or waiting, else sleeps |
| RwLock.KRwLock.ReleaseReader | src/com/lib/rwlock.c:33-42 | the model's step |
| RwLock.KRwLock.AcquireWrite | src/com/lib/rwlock.c:44-56 | counts itself, then enters exactly when no writer and no reader is active, else sleeps |
| RwLock.KRwLock.RetryWrite | src/com/lib/rwlock.c:48-55 | a woken writer's turn; its KASSERT cannot fail |
| RwLock.KRwLock.ReleaseWriter | src/com/lib/rwlock.c:58-69 | the model's step, with the wakeup loop over readers |
| Shootdown.ReturnsWhenFlushed | src/platform/x86-64/mmu.c:315-381 | `arch_mmu_invalidate` returns only after every CPU it posted to has invalidated its range, each counted exactly once |
| Coherence.NoStaleCpu | src/platform/x86-64/mmu.c:315-381 | when the call returns, every CPU but the caller's that runs the table has invalidated the range since the call began or has loaded the table since then, however CPUs change tables meanwhile, provided the call shot or no other CPU ran the table when it began |
| Coherence.InvalidatesRange | src/platform/x86-64/mmu.c:315-381 | from the call with its arguments to its return, with anything in between: every other CPU that runs the table has invalidated exactly that range since the call began or loaded the table since then |
| Coherence.UserRule | src/platform/x86-64/mmu.c:325-330 | more than one CPU running the caller's table is the same as some other CPU running it, so the rule for user addresses meets that proviso |
| Coherence.StepKeepsFInv | src/platform/x86-64/mmu.c:336-365 | every step keeps every CPU that has run the table since before the call posted to once the loop is past it |
| Shootdown.HandlerSafe | src/platform/x86-64/mmu.c:609-620 | a handler about to invalidate or count finds its lock held and the counter of a call still in progress, so none touches a counter after the call's return |
| Shootdown.FieldsStable | src/platform/x86-64/mmu.c:359-364 | the fields of a posted request stay unchanged until its handler has used them |
| Shootdown.StepKeepsInv | src/platform/x86-64/mmu.c:315-381 | every store, interrupt and counter update of any number of concurrent calls keeps the handshake invariant |
| Radix.SplitIndex | src/com/lib/radixtree.c:26-31 | word i is the slot taken at layer layers - i |
| Radix.SplitInjective | src/com/lib/radixtree.c:26-31 | indices below 512^layers with the same slots are equal |
| Radix.SameSlot | src/com/lib/radixtree.c:52-72 | two in-range indices never share a slot |
| Radix.RadixTree.constructor | src/com/lib/radixtree.c:33-37 | an empty tree stores the empty map |
| Radix.RadixTree.Get | src/com/lib/radixtree.c:52-72 | exactly the map's value, or ENOENT |
| Radix.RadixTree.Put | src/com/lib/radixtree.c:81-101 | the map gains exactly this index, whatever nodes had to be created |
| Radix.RadixTree.Remove | src/com/lib/radixtree.c:110-126 | the map loses exactly this index; ENOENT exactly when it was absent |
| Tmpfs.File.Default | src/com/fs/pagecache.c:41-51 | the page at the index, a zeroed one on a miss, with no byte of the file changed |
| Tmpfs.File.Read | src/com/fs/tmpfs.c:278-342 | exactly the slice of the flat file clipped to its size; nothing when the end wraps at 2^64; EISDIR for directories |
| Tmpfs.File.Write | src/com/fs/tmpfs.c:344-391 | the flat file with exactly [off, off+len) set, the gap before it zero and the rest unchanged; no count is stored for an empty write; at most len / 4096 + 2 data pages are taken |
| Tmpfs.File.Truncate | src/com/fs/tmpfs.c:490-500 | growing appends zeros, shrinking cuts, and nothing is left past the new end if and only if what was cut off was zero |
| Tmpfs.ShrinkRemembers | src/com/fs/tmpfs.c:490-500 | a one-byte file shrunk to nothing and grown again shows its old byte |
| Tmpfs.ReadBack | src/com/fs/tmpfs.c:278-391 | a read returns what was written and elsewhere what was there before |
| Tmpfs.ClippedLaw | src/com/fs/tmpfs.c:292-302 | a read returns what was asked for or what there is up to the end of the file, byte for byte |
| Tmpfs.OverlayLaw | src/com/fs/tmpfs.c:344-391 | a write makes the file grow only past its end; bytes written are in place, the others stay, a gap is zero |
| Tmpfs.Perform | src/com/fs/tmpfs.c:278-500 | every sequence of writes, truncations and reads on a file sees exactly what it would see on a flat sequence of bytes |
| Tmpfs.LastWriteWins | src/com/fs/tmpfs.c:278-500 | over every such run each byte is the one the last write covering it put there, or what was there before |
| Tmpfs.ReadsMore | src/com/fs/tmpfs.c:278-342 | each read of a run returns the clipped slice of the file as the calls before it left it |
| Tmpfs.ReadsLatest | src/com/fs/tmpfs.c:278-342 | a read returns at each position the byte of the last write before it that covers the position |
| RingBuffer.WriteHolds | src/com/lib/ringbuffer.c:94-101 | one or two copies append behind the unread bytes without touching them |
| RingBuffer.FetchHolds | src/com/lib/ringbuffer.c:267-275 | one or two copies fetch the oldest bytes in order |
| RingBuffer.MaskedIndex | include/lib/util.h:42 | masking a wrapped 64-bit index picks the slot of the unbounded position when the capacity is a power of two |
| RingBuffer.WrapsRight | include/lib/ringbuffer.h:28-32 | wrapping indices pick the right slots if and only if the capacity divides 2^64 |
| RingBuffer.MasksRight | include/lib/util.h:42 | masking wrapped 64-bit indices with the capacity less one picks the right slot for every position if and only if the capacity is a power of two up to 2^64 |
| RingBuffer.Difference | include/lib/ringbuffer.h:29-32 | the 64-bit index difference is the number of unread bytes across wraps |
| RingBuffer.Ring.constructor | include/lib/ringbuffer.h:53-63 | an empty stream |
| RingBuffer.Ring.Put | src/com/lib/ringbuffer.c:90-103 | the stream grows by exactly the bytes copied in, at the masked index, and the index wraps at 2^64 |
| RingBuffer.Ring.Get | src/com/lib/ringbuffer.c:267-277 | the oldest unread bytes come out |
| RingBuffer.Ring.WriteTurn | src/com/lib/ringbuffer.c:69-113 | waits if and only if there is less room than asked for, else appends as much as fits |
| RingBuffer.Ring.WriteNonblocking | src/com/lib/ringbuffer.c:121-155 | EAGAIN exactly when less than the atomic size fits, and then nothing is written |
| RingBuffer.Ring.ReadTurn | src/com/lib/ringbuffer.c:226-292 | waits exactly while less than the atomic size is there and no end of file is flagged; else the next bytes of the stream |
| RingBuffer.Pipe.constructor | src/com/fs/pipefs.c:201-228 | an empty pipe of 4096 bytes |
| RingBuffer.Pipe.WriteTurn | src/com/fs/pipefs.c:127-164 | waits if and only if less is free than all of a write of at most 4096 bytes, or 1 byte of a larger one; else writes as much as fits; never waits on an empty pipe |
| RingBuffer.Pipe.ReadTurn | src/com/fs/pipefs.c:69-100 | waits exactly while the pipe is empty and its write end open |
| Streams.PrefixOfWritten | src/com/lib/ringbuffer.c:61-292 | over all interleavings of calls on the ring buffer itself, with masked and wrapping indices, the bytes read are a prefix of the bytes written, occupancy stays within capacity, and each call's bytes appear in its order |
| Streams.WritesItsData | src/com/lib/ringbuffer.c:61-113 | whatever runs after a write call has begun, what the stream holds of it is the start of its data |
| Streams.TurnLaw | src/com/lib/ringbuffer.c:61-113 | a writer's turn comes if and only if the room it waits for is free, and then as many of its next bytes as fit join the stream |
| Streams.ReadLaw | src/com/lib/ringbuffer.c:226-292 | a read fetches the next unread bytes, as many as it wants and there are |
| Streams.Drained | src/com/lib/ringbuffer.c:61-292 | a read that asks for enough gets everything, and then every writer that needs no more than the capacity has its turn |
| Streams.AtomicPipeWrite | src/com/fs/pipefs.c:113-175 | over all interleavings a pipe write of at most 4096 bytes has written nothing or lies in the stream in one piece |
| IovIter.Iter.constructor | src/com/lib/ioviter.c:38-55 | position 0 of the concatenation, whose length is summed up; usable if and only if there is an iovec |
| IovIter.Iter.Skip | src/com/lib/ioviter.c:57-73 | forward by count or to the end, from any position and with zero-length iovecs |
| IovIter.Iter.Goto | src/com/lib/ioviter.c:75-86 | lands at min(off, total) from anywhere |
| IovIter.Iter.Read | src/com/lib/ioviter.c:88-113 | the next slice of the concatenation; it terminates |
| IovIter.Iter.Write | src/com/lib/ioviter.c:115-140 | overwrites exactly the next slice of the concatenation; it terminates |
| Callout.FiresOnTime | src/com/sys/callout.c:79-148 | over every run of ticks, insertions and cancellations a callout set for a delay and not cancelled is in the queue until the first tick at or past its deadline, fires in exactly that tick and never again, and is less than a period late if and only if the delay is positive |
| Callout.FiresAt | src/com/sys/callout.c:63-76 | the same for a callout set for a point in time, past or future |
| Callout.CancelledNeverFires | src/com/sys/callout.c:238-252 | a cancelled callout, due or not, leaves the queue, the others stay, and in no run after that does it fire or return |
| Callout.ZeroDelayLate | src/com/sys/callout.c:79-92 | with delay 0 a callout fires a full period late |
| Callout.FixedDelayEnds | src/com/sys/callout.c:109-135 | with handlers that re-arm with a fixed delay the loop of a tick ends if and only if the delay is positive or nothing was due |
| Callout.PositiveEnds | src/com/sys/callout.c:109-135 | with any handlers that use positive delays it ends after at most as many rounds as entries were due |
| Callout.ZeroDelayNeverEnds | src/com/sys/callout.c:109-135 | with delay 0 it finds something due in every round |
| Callout.InsertSorted | src/com/sys/callout.c:39-61 | insertion keeps the queue ordered by deadline and first come first served among equals |
| Callout.DueExactly | src/com/sys/callout.c:116-120 | in such a queue the entries before the first future one are exactly the due ones |
| Callout.FiresExactly | src/com/sys/callout.c:109-135 | exactly the due callouts fire that no handler of the same tick cancels first |
| Callout.FiresSorted | src/com/sys/callout.c:109-135 | in order of deadline, first come first served, none twice |
| Callout.ApplyAllKeeps | src/com/sys/callout.c:128-130 | what handlers re-arm with positive delays or cancel can only take due entries away from this tick |
| Callout.Queue.Enqueue | src/com/sys/callout.c:39-61 | the loop inserts where the ordered insertion says |
| Callout.Queue.Add | src/com/sys/callout.c:79-92 | deadline now + delay, as a step of the clock machine |
| Callout.Queue.Cancel | src/com/sys/callout.c:238-252 | is that step, and nothing happens if the callout is not queued |
| Callout.Queue.Run | src/com/sys/callout.c:102-148 | is the tick of the clock machine: it ends, fires in order, none early, each less than a period late if and only if its deadline was past the last tick, and asks for a reschedule exactly when the preemption time has come, moving that on by 16 ms |
| Nvme.DoneExactly | src/opt/nvme/nvme.c:180-183 | the phase test is true if and only if an unconsumed completion is in the slot, the oldest one |
| Nvme.OnceInOrder | src/opt/nvme/nvme.c:190-208 | over any number of laps every completion is consumed once, in order and never a stale one |
| Nvme.PollLaw | src/opt/nvme/nvme.c:190-208 | in every run a poll consumes the oldest completion not seen yet, if there is one, and a post adds one |
| Nvme.PostOk | src/opt/nvme/nvme.c:180-183 | a completion written by a device less than a lap ahead keeps the ring consistent |
| Nvme.ConsumeOk | src/opt/nvme/nvme.c:202-206 | stepping over a completion, wrap and phase flip included, keeps the ring consistent |
| Nvme.NvmeQueue.constructor | src/opt/nvme/nvme.c:139-152 | an empty ring with all phase bits clear |
| Nvme.NvmeQueue.IsDone | src/opt/nvme/nvme.c:180-183 | true exactly when something is pending |
| Nvme.NvmeQueue.Submit | src/opt/nvme/nvme.c:210-218 | the submission ring holds the newest commands in order, each at its number modulo the queue size, and the doorbell names the slot after the last |
| Nvme.NvmeQueue.Reap | src/opt/nvme/nvme.c:202-207 | consumes the oldest completion |
| ElfStack.RoundTrip | src/com/sys/elf.c:301-361 | reading argc, the pointer vectors, the strings they point to and the nulls back recovers the inputs, and looking up the auxiliary vector gives the program headers under 3, their size under 4, their number under 5, the entry under 9 and nothing under any other key |
| ElfStack.ProgramReads | src/com/sys/elf.c:301-361 | a program that scans for the nulls from its stack pointer finds the environment and that auxiliary vector |
| ElfStack.PaddingLaw | src/com/sys/elf.c:324-327 | the strings are padded to the next multiple of 16 and one word is left free exactly when argc + envc is even |
| ElfStack.Aligned | src/com/sys/elf.c:324-327 | the image length, hence the stack pointer, is a multiple of 16 |
| ElfStack.PushStrings | src/com/sys/elf.c:311-322 | the strings lie one below the other, terminated |
| ElfStack.PushPointers | src/com/sys/elf.c:346-356 | the pointers computed by accumulating lengths are the addresses of the strings |
| ElfStack.PushAux | src/com/sys/elf.c:329-342 | the pushes build the vector that RoundTrip looks up |
| ElfStack.PrepareStack | src/com/sys/elf.c:301-361 | the top page ends in exactly that image and the returned address is where it starts, 16-byte aligned |

## Left out

- CowInvariant.ReachableCounting: states an inequality for `num_ref`; the exact count, with the references the kernel loses, is `CowAccounting.ExactCounting`.
- CowInvariant.RunKeepsInv: its map operation covers pages in state TAKEN only, not device memory such as a framebuffer (src/com/dev/gfx/fbdev.c:74), and its kernel stores go to pages the kernel still holds, not to a page already handed to its entry (src/com/sys/elf.c:108-119).
- VmmCode.Vmm.HandleFault: takes the number of pages of a MAP fault as an input whose pages all carry the faulting entry; the neighbour scan of the fault interrupt is not modelled.
- VmmCode.Vmm.MapPhysical: promises nothing about the state when no table page can be had, where the kernel stops; the HHDM placement of PHYSICAL mappings, mappings of pages that are not TAKEN and mappings into the kernel half are not modelled.
- MmuCode.Mmu.AddPage: models the insertion of a leaf entry only, not of links at other depths.
- MmuCode.Mmu.constructor: models the table shape that `arch_mmu_init` leaves, not its mapping of physical memory.
- PmmCode.Pmm.constructor: the scan of the memory map and the placement of the metadata array are not modelled; the list it builds is `FreeList.InitialList`.
- PmmCode.Pmm.UnreserveMany: requires the range to lie within the indexed memory; what becomes of pages that are free or taken already is not stated.
- HeapCode.Heap.Alloc: the virtual memory manager and the slab allocator are joined to the physical allocator separately, not all three at once; page 0 is taken not to be usable memory.
- Slab.Allocator.Free: covers objects freed with the size they were allocated with.
- Dispatcher.Kernel.ExitCurrent: covers exit of the running thread; threads killed while queued are not modelled.
- Dispatcher.Kernel.WaitOn: one step up to the switch, the lock taken again after waking being `LockDepth.WaitReturns`; interleavings inside a scheduler call and the timeout callout are not modelled, and spin locks are taken without contention.
- Dispatcher.Kernel.SwitchContext: the accounting half only; the switch of the address space and of the register context is not modelled.
- LockDepth.EveryEntry: runs contain scheduler calls only by threads that hold at most one lock, as the kernel asserts.
- Radix.RadixTree.Put: indices at or beyond 512^layers alias lower ones and are not covered.
- Tmpfs.File.Read: file locking is not modelled here.
- RingBuffer.Ring.WriteTurn: hangup, signals and the byte counts reported on them are not modelled.
- Streams.PrefixOfWritten: readers take any amount per turn; no fairness between readers and writers is claimed.
- ElfStack.PrepareStack: requires the layout to fit the zeroed top page, beyond which the kernel writes past it.
- Nvme.NvmeQueue.Reap: a single submitter; memory barriers and concurrent submitters are not modelled.
- Callout.Queue.Run: requires handlers to re-arm with positive delays, without which the loop need not end; handlers do not set absolute deadlines, and overflow of 64-bit nanoseconds is not modelled.
- Shootdown.ReturnsWhenFlushed: leaves open which CPUs are posted to, which `Coherence` adds; deadlock freedom is not claimed.
- Coherence.NoStaleCpu: the caller's own invalidation and the decision to shoot for kernel addresses are not modelled; that loading a table empties the TLB of user translations is the hardware's part.
- EntryBits.DupWordMeans: relates entry words to the entries of the model; the tables of `Mmu` hold such entries, not words.
- Returning pages to the free list: `com_mm_pmm_free` drops references only, as in the kernel.
- `freelist_add_merged_nolock`, the per-CPU table-page cache, context destruction, `arch_mmu_chflags` and the loop of `com_fs_tmpfs_mmap`.
- Iterator operations `kioviter_memset`, `kioviter_next`, `kioviter_next_page` and the transfers between iterators and ring buffers.
- ELF segment loading, path lookup, file descriptors, terminals, signals, sockets, NVMe set-up and data transfer, and all device, interrupt-controller and boot code: dispatch or hardware access without a property of this kind.
