# Cynix memory management, locks and bring-up, verified

Cynix is a small x86-64 kernel. This project models the part of it whose correctness arguments lean on each other: the
physical page allocator, the slab allocator, the page tables, the page heap and the doubling vector on top of it, the
spinlocks with interrupt masking, the bring-up of the other CPUs, and the walk over the ACPI MADT. `dafny verify
dfyconfig.toml` checks all of it.

Reading order:

| module | models |
|---|---|
| `Bits`, `Rounding`, `Bitmap` | C operators on 64-bit words, the rounding macros, the byte-packed bitmap |
| `PageRuns`, `Pmm`, `PmmInit` | the page allocator: the simple search and what every run keeps; the scan; `pmm_init` |
| `ConcurrentPmm`, `LockedPmm` | the page allocator used by any number of CPUs at once, word by word; with its lock, bit by bit |
| `Paging`, `Tables`, `Vmm` | the processor's walk; the tree of tables in memory; `vmm_map_page` and its loops |
| `Spans`, `VmmInit`, `Sharing` | what mapped spans mean byte by byte; `vmm_init`; any calls on any address spaces |
| `TableRace`, `TableWords`, `TableReplay` | `vmm_map_page` on several CPUs at once: slots and page numbers; the same over words of memory; when it is the calls in some order |
| `SlabSpec`, `Slab`, `SlabRuns` | the slab invariant; `slab.c`; every run of a client |
| `HeapSpec`, `Heap`, `HeapRuns` | bytes and the heap invariant; `alloc.c`; every run of a client |
| `Layers`, `Startup` | page tables, slabs and heap on one page allocator, in any order; `kmain` up to there |
| `Vector`, `VectorRuns` | the macros of `vector.k.h` over blocks of the page heap; any number of vectors beside another client |
| `Locks`, `Bringup` | interleavings of any number of CPUs |
| `Madt` | the MADT entry walk |

How things are represented:

- A word is a natural number below 2^64, with `&`, `|` and `& ~` defined bit by bit (`Bits.Bitwise`). Physical memory is
  an array of words; a pointer is `hhdm` plus eight times a word index. The page bitmap is an array of its own, which is
  right as long as no page of its storage is handed out: that is so exactly when the entry it was placed in starts on a
  page (`PmmInit.StorageHandedOutIff`), and `PmmInit.Init` gives an allocator in that case only.
- An object the kernel updates in place is a class with the kernel's fields and ghost fields beside them: the live page
  runs, the free lists as sequences, the places of the tables, the heap's blocks.
- The out-of-memory panic is the result `None` or `false`; every method says what still holds then, and that the page
  allocator really has no run of the number of pages asked for (`Pmm.PageAllocator.Exhausted`). The theorems about runs
  name the operation that stopped and its demand.
- The nested `get_next_level` calls of `vmm_map_page` are one recursive method (`Vmm.PageTables.Descend`), so that both
  paging modes are covered at once.
- Some operations appear a second time in the form their callers use (`TakeRun`, `TakeZeroed`, `GiveBack`).
- The classes are sequential: one whole call after another. `Sharing.MapMany` is about any sequence of calls. For calls
  at the same time the source has one lock per pagemap and none for the tables all of them share; `TableWords` takes
  every access to memory as a step, with the page allocator granting pages, new tables zeroed word by word and the rest
  of the kernel using its own pages meanwhile. Its runs start from any page tables in order (`TableReplay.BeginStarts`).
- Concurrency is a transition system whose steps are the atomic actions of the source, for any number of CPUs.
  `ConcurrentPmm` takes each locked section of the page allocator as one step; that this is no loss is proved by
  refinement in `LockedPmm`, where taking the lock, every turn of the scan and every bit are steps.

Where the code does less than one would expect, the exact boundary is proved:

- The bitmap is too short for the page count exactly when that count modulo 32768 is 1..7 (`PmmInit.BitmapCoversIff`,
  with a memory map in `PmmInit.LastPageHasNoBit`).
- Out of memory is reported although an aligned free run exists exactly when the one block the cursor splits is the only
  one (`PageRuns.SpuriousOutOfMemoryIff`, with an input in `PageRuns.StraddlingRunIsMissed`).
- A slab refill re-initialises a lock that is held. Two CPUs are inside the section of a lock at some moment of a run
  exactly when the lock is acquired after such a re-initialisation and before a release (`Locks.ExclusionFailsIff`, step
  by step in `Locks.SecondEntersIff`, `Locks.OpensIff` and `Locks.StaysOpenIff`, with a run in
  `Locks.ResetBreaksExclusion`). The claims about slabs are therefore about one caller at a time.
- `pmm_init`, over the whole memory map, frees a page with bytes of its own bitmap in it exactly when the entry the
  bitmap was placed in is not page aligned (`PmmInit.StorageFreedIff`, with a map in `PmmInit.BitmapPageIsFreed`); and
  exactly then some run of allocations hands such a page out (`PmmInit.StorageHandedOutIff`).
- CPUs in `vmm_map_page` on different pagemaps lose a table of the shared half exactly when one fills an entry that
  another has found absent, and the other fills it after that (`TableRace.LosesIff` over slots,
  `TableReplay.LosesIffOvertaken` over memory, with a run in `TableRace.RaceLosesMapping`). Everything below the entry is
  then unmapped (`TableRace.LosingUnmaps`). Otherwise the processor finds at every address what the same calls leave
  behind one after another (`TableReplay.TranslatesInOrder`); with one pagemap that is always so.
- `vmm_map_span` maps byte to byte exactly when both addresses have the same page offset (`Spans.SpanTranslates`, with a
  span in `Spans.MismatchedSpan`).
- `VECTOR_REMOVE_BY_VALUE` removes the value exactly when it is there, and the last item otherwise
  (`Vector.Vector.RemoveByValue`, with a run in `VectorRuns.AbsentValueDropsLast`).
- The MADT walk ends exactly when it meets no entry of length zero (`Madt.EndsIff`, with a table in
  `Madt.ZeroLengthEntry`).

Preconditions the source leaves to its callers are stated as such: `count` at least 1 for the page allocator; a slab size
of at least 1 (`bsr` of 0 is undefined); frees and reallocations of live blocks only; no 64-bit overflow of sizes and
spans; a direct map aligned to 256 KiB for the slabs.

## Model

| member | source | states |
|---|---|---|
| Rounding.RoundingIsTight | kernel/src/lib/misc.k.h:21-37 | `DIV_ROUNDUP` is the least count whose multiple covers the value; `ALIGN_UP` and `ALIGN_DOWN` are the nearest multiples above and below |
| Bitmap.SetLaw | kernel/src/lib/misc.k.h:46-49 | after the byte update of `bit_set` every bit tests as before but the one set, across byte boundaries |
| Bitmap.ResetLaw | kernel/src/lib/misc.k.h:51-54 | the same for `bit_reset` |
| Bitmap.BitSet | kernel/src/lib/misc.k.h:46-49 | the set of pages `bit_test` reports gains exactly the bit |
| Bitmap.BitReset | kernel/src/lib/misc.k.h:51-54 | the set of pages `bit_test` reports loses exactly the bit |
| Bits.OperatorsAre | kernel/src/mm/vmm.c:46-83 | for every `k`, bit `k` of the results of C's and, or, and and-not is the conjunction, the disjunction and the conjunction with the negation of bits `k` of the operands |
| Bits.MaskIsMod | kernel/src/mm/slab.c:157 | masking with `2^k - 1` is remainder, with its complement rounding down |
| Bits.FieldIsDivMod | kernel/src/mm/vmm.c:69-73 | mask and shift of an `n`-bit field is division and remainder |
| PageRuns.OutOfMemoryIff | kernel/src/mm/pmm.c:147-157 | out of memory is reported exactly when every aligned free run straddles the cursor |
| PageRuns.SpuriousOutOfMemoryIff | kernel/src/mm/pmm.c:147-157 | an aligned free run exists and is missed exactly when the block the cursor splits is free, in range and the only one; never if the cursor is a multiple of the count |
| PageRuns.StraddlingRunIsMissed | kernel/src/mm/pmm.c:147-153 | an allocation of two pages and its free leave four free pages and the cursor at two: a request for four fails |
| PageRuns.FirstFit | kernel/src/mm/pmm.c:114-140 | the simple search: the result is a free run aligned to its length inside the bounds, no lower start is one, and none exists when there is no result |
| PageRuns.AllocKeeps | kernel/src/mm/pmm.c:142-164 | an allocation keeps the invariant and returns pages owned by nobody, aligned to the count |
| PageRuns.FreeKeeps | kernel/src/mm/pmm.c:177-196 | freeing a live run keeps the invariant: exactly its pages become free |
| PageRuns.RunKeeps | kernel/src/mm/pmm.c:112-196 | over every run of allocations and frees: live runs pairwise disjoint, outside the reserved pages, each at a multiple of its length, cursor at most the page count, used pages exactly reserved plus live |
| PageRuns.RunConserves | kernel/src/mm/pmm.c:112-196 | the number of set bits is the number of reserved pages plus the sum of all live counts, after every run |
| PageRuns.CountUsed | kernel/src/mm/pmm.c:112-196 | the same count for any state satisfying the invariant |
| PageRuns.FreeUndoesAlloc | kernel/src/mm/pmm.c:142-196 | freeing what was just allocated restores the set of used pages and the live runs |
| PageRuns.SameLiveSameUsed | kernel/src/mm/pmm.c:112-196 | the used pages are determined by the reserved pages and the live runs |
| Pmm.ScanFree | kernel/src/mm/pmm.c:120-133 | one turn of the scan on a free page: the partial block is tracked exactly, and when complete it is the run the simple search finds |
| Pmm.PageAllocator.InnerAlloc | kernel/src/mm/pmm.c:114-140 | the bitmap scan refines the simple search from the cursor: same answer, bits of exactly that run set, cursor behind it or at the limit |
| Pmm.PageAllocator.TwoPasses | kernel/src/mm/pmm.c:147-157 | lowest aligned run at or above the old cursor, else the lowest wholly below it, else failure with nothing changed |
| Pmm.PageAllocator.AllocNoZero | kernel/src/mm/pmm.c:142-164 | the whole call is one step of the abstract allocator, and the run granted shares no page with any live one |
| Pmm.PageAllocator.Alloc | kernel/src/mm/pmm.c:166-175 | the same, the pages of the run zeroed and no other word of memory changed |
| Pmm.PageAllocator.Free | kernel/src/mm/pmm.c:177-196 | one abstract free step, the pages poisoned with 0xaa bytes and no other word changed |
| Pmm.GrantedByNextFit | kernel/src/mm/pmm.c:142-164 | what the two-pass search finds is inside memory, aligned and disjoint from every live run |
| PmmInit.TopAddress | kernel/src/mm/pmm.c:54-71 | a multiple of 4096 at or past the end of every Usable, BootloaderReclaimable and ExecutableAndModules entry, and less than a page past the end of one of them, or 0 |
| PmmInit.PageCountIff | kernel/src/mm/pmm.c:63-73 | a page count is the one of the map if and only if it is the least that covers all entries of those three kinds |
| PmmInit.OtherKindsIgnored | kernel/src/mm/pmm.c:63-67 | an entry of one of the other five kinds can be taken out of the map without changing its page count |
| PmmInit.BitmapCoversIff | kernel/src/mm/pmm.c:73-74 | the bitmap takes the least whole pages for an eighth of the page count in bytes, and has a bit for every page exactly when the count modulo 32768 is not 1..7 |
| PmmInit.PlaceBitmap | kernel/src/mm/pmm.c:78-89 | the base of the first usable entry longer than the bitmap, none exactly when there is no such entry |
| PmmInit.FreeEntry | kernel/src/mm/pmm.c:98-106 | exactly the pages that a page-sized piece of the entry starts in, and whose piece has no end in the bitmap, are cleared; for any base and length |
| PmmInit.FreeUsable | kernel/src/mm/pmm.c:94-107 | a bit ends up clear exactly when a piece of a usable entry frees its page |
| PmmInit.AlignedFreedIff | kernel/src/mm/pmm.c:94-107 | with page-aligned usable entries: free exactly when in a usable entry and not in the bitmap's storage |
| PmmInit.LastPageHasNoBit | kernel/src/mm/pmm.c:73-74 | a memory map of 32769 pages whose bitmap has 32768 bits |
| PmmInit.StorageFreedIff | kernel/src/mm/pmm.c:94-107 | over all entries of the map, a page with bytes of the bitmap in it is freed if and only if the entry the bitmap was placed in does not start on a page |
| PmmInit.BitmapPageIsFreed | kernel/src/mm/pmm.c:98-105 | a map of 30002 pages where page 2, which holds half of the bitmap, is freed |
| PmmInit.Init | kernel/src/mm/pmm.c:43-110 | for every memory map: no room exactly when no usable entry is longer than the bitmap; else too short a bitmap exactly when the page count modulo 32768 is 1..7; else a bitmap whose pages are freed exactly when its base is unaligned; else an allocator with its invariant, reserved pages exactly those not freed, among them all pages of the bitmap |
| PmmInit.StorageHandedOutIff | kernel/src/mm/pmm.c:78-164 | some run of allocations and frees after `pmm_init` hands out a page with bytes of the bitmap in it if and only if the bitmap's base is unaligned; for page counts of 1 to 7 modulo 32768, for which `Init` gives no allocator, the runs are those of one that had the missing bits |
| PmmInit.ReservedStays | kernel/src/mm/pmm.c:112-196 | a reserved page is in no live run after any run |
| PmmInit.FreeIsHandedOut | kernel/src/mm/pmm.c:112-164 | every free page is handed out by some run |
| ConcurrentPmm.StepKeeps | kernel/src/mm/pmm.c:142-196 | every step of every CPU keeps: each live run is with exactly one CPU or client, what is zeroed so far is still zero, and what is poisoned so far still poison |
| ConcurrentPmm.DeliveredZeroed | kernel/src/mm/pmm.c:166-175 | in every interleaving a run is delivered with every word zero, to the CPU that asked for it, and shares no page with any other live run, although zeroing happens outside the lock |
| ConcurrentPmm.FreedPoisoned | kernel/src/mm/pmm.c:177-196 | in every interleaving every word of a run is 0xaa bytes by the time its pages become free, although poisoning happens outside the lock too |
| ConcurrentPmm.OnlyOwnerWrites | kernel/src/mm/pmm.c:166-187 | in every interleaving a word of a run in a client's hands changes only by a store to that word |
| ConcurrentPmm.StoreIsOwners | kernel/src/mm/pmm.c:166-187 | and such a store is made by the CPU that has the run |
| LockedPmm.StepRefines | kernel/src/mm/pmm.c:114-196 | with the lock, every turn of the scan and every bit a step of its own: each step keeps the invariant and is nothing to, or one step of, the allocator whose locked sections are atomic |
| LockedPmm.RunRefines | kernel/src/mm/pmm.c:114-196 | every interleaving of the fine steps is a run of that allocator, to the same live runs, memory and owners |
| LockedPmm.TurnStep | kernel/src/mm/pmm.c:117-135 | one turn of the scan between any steps of other CPUs: the partial block is tracked exactly, and complete it is the run the two passes find |
| LockedPmm.OneInside | kernel/src/mm/pmm.c:145-159 | the lock is taken exactly when a CPU is in a locked section, and never are two |
| LockedPmm.FreeLockConserves | kernel/src/mm/pmm.c:142-196 | whenever the lock is free the bits set are the reserved pages and the live runs, each counted once |
| LockedPmm.PanicsWhenOut | kernel/src/mm/pmm.c:150-157 | in every interleaving the out-of-memory panic comes only when neither pass finds a run in the bits the last CPU to release the lock left |
| LockedPmm.SectionEnds | kernel/src/mm/pmm.c:114-193 | from any state of any interleaving the CPU that has the lock, going on by itself, releases it or panics out of memory within a number of its own steps bounded by the pages and the run |
| LockedPmm.DeliveredZeroed | kernel/src/mm/pmm.c:166-175 | in every interleaving of the fine steps a run is delivered all zero and apart from every live run |
| Paging.FlagsMaskValue | kernel/src/mm/vmm.k.h:8-13 | the values of `VMM_PTE_FLAGS_MASK` and `VMM_PTE_WC` |
| Paging.PointerRoundTrip | kernel/src/mm/vmm.c:50-58 | writing `ret` or-ed with 7 and masking it, by the kernel or by the processor, gives the table back with every right and no large page |
| Paging.LeafDecodes | kernel/src/mm/vmm.c:83 | the processor reads `phys` or-ed with `flags` as the page at `phys` with the rights and the memory type of `flags` (section 4.9.2 of the Intel SDM, volume 3A) |
| Paging.IndexMasks | kernel/src/mm/vmm.c:69-73 | the five masks and shifts give the nine-bit fields the processor uses |
| Paging.SamePath | kernel/src/mm/vmm.c:69-73 | two addresses have the same indices exactly when their page numbers agree in the bits translated |
| Paging.SamePageInHalf | kernel/src/mm/vmm.c:69-73 | canonical addresses of one half have the same indices exactly when they are in the same page |
| Tables.WalkDecodesLeaf | kernel/src/mm/vmm.c:45-62 | over a well-formed tree the processor's walk gives the decoded last-level entry: upper levels never restrict or end it |
| Tables.AddTable | kernel/src/mm/vmm.c:53-59 | hanging a fresh zeroed table below an absent entry keeps the tree unaliased and changes what no walk finds |
| Tables.SetLeaf | kernel/src/mm/vmm.c:81-83 | the last store changes the walks that end in that entry and no other |
| Tables.SameEntry | kernel/src/mm/vmm.c:75-81 | two walks, from any two roots, end in the same entry exactly when they name the same place |
| Tables.SharedHalfAgrees | kernel/src/mm/vmm.c:123-131 | roots agree on every path through top-level entries 256..511 |
| Tables.AgreeingMemory | kernel/src/mm/vmm.c:45-62 | memory outside the tables matters to no walk |
| Vmm.PageTables.GetNextLevel | kernel/src/mm/vmm.c:45-62 | returns the table of the place below; if it is absent adds it, or returns 0 and changes nothing when not to allocate; no walk finds anything different, no page outside the tables is written |
| Vmm.PageTables.Descend | kernel/src/mm/vmm.c:75-79 | reaches the last-level table of the path in either paging mode with the same guarantees |
| Vmm.PageTables.MapPage | kernel/src/mm/vmm.c:64-88 | for each `k < 64` bit `k` of the entry the walk to the page of `virt` finds is set exactly when it is set in `phys` or in `flags`; every other walk from every root finds what it found, tables stay an unaliased tree of the allocator's pages; it fails only when the allocator has no page left |
| Vmm.OrMerges | kernel/src/mm/vmm.c:83 | the same of the entry all the replays below are made of |
| Vmm.PageTables.CreateRoot | kernel/src/mm/vmm.c:121 | a root from which every walk finds nothing, in a page nobody had; no other page is written |
| Vmm.PageTables.FillHigherHalf | kernel/src/mm/vmm.c:126-131 | a table below each of the entries 256..511, and no walk changed |
| Vmm.PageTables.MapPages | kernel/src/mm/vmm.c:98-100 | the loop is the list of its requests replayed in order on the abstract page map |
| Vmm.PageTables.MapSpan | kernel/src/mm/vmm.c:90-101 | the same for the rounded span, all of it unless memory ran out |
| Vmm.ReplayTwice | kernel/src/mm/vmm.c:64-88 | replaying one list of requests after another is replaying the concatenation |
| Vmm.UpdatedTwice | kernel/src/mm/vmm.c:64-88 | refinement composes: memory that follows the abstract map for two lists follows it for both |
| Spans.ReplaySpan | kernel/src/mm/vmm.c:98-100 | in the abstract map pages inside a span get `phys` plus the offset or-ed with `flags`, pages outside keep theirs |
| Spans.TranslateIsLeaf | kernel/src/mm/vmm.c:45-88 | translating a canonical address is decoding the entry its path leads to |
| Spans.AlignedSpan | kernel/src/mm/vmm.c:98-100 | after mapping an aligned span every byte inside translates offset by offset and every address outside as before |
| Spans.SpanTranslates | kernel/src/mm/vmm.c:90-101 | `virt + i` translates to `phys + i` for all `i < len` if and only if `virt` and `phys` agree modulo 4096; then an address whose page holds no byte of `virt` to `virt + len` translates as before, and otherwise one outside as many pages as the physical span touches |
| Spans.MismatchedSpan | kernel/src/mm/vmm.c:90-101 | a span from 0x1800 for physical address 0x1000: the first byte translates to 0x1800 |
| VmmInit.SegmentFlagsAre | kernel/src/mm/vmm.c:157-163 | the or-ed segment flags: no-execute unless PF_X, writable if PF_W |
| VmmInit.DirectFlagsAre | kernel/src/mm/vmm.c:180-182 | the or-ed direct map flags, write-combining for framebuffers only |
| VmmInit.MapSegments | kernel/src/mm/vmm.c:148-166 | the loop over the program headers is its requests replayed in order, none for a header that is not PT_LOAD |
| VmmInit.MapEntries | kernel/src/mm/vmm.c:168-184 | the same for the loop over the memory map |
| VmmInit.Init | kernel/src/mm/vmm.c:121-184 | unless there is no page left or a shared table is at address 0: afterwards every walk from the new root finds what replaying the kernel's and the direct map's requests on an empty map gives, and the higher half is filled; tables are pages nobody had and no other page is written |
| VmmInit.InitTranslates | kernel/src/mm/vmm.c:148-184 | every canonical address translates as the last span covering it says, and faults exactly when none does |
| VmmInit.DirectSpace | kernel/src/mm/vmm.c:168-184 | an address that the rounded Usable, BootloaderReclaimable, ExecutableAndModules and Framebuffer entries have at `hhdm` translates to itself less `hhdm`, writable, not executable, write-combining exactly when the last such entry is a framebuffer |
| VmmInit.KernelSpace | kernel/src/mm/vmm.c:148-166 | an address of a rounded PT_LOAD segment, and of no such entry, translates to its physical place, writable exactly when the last such segment has PF_W, executable exactly when it has PF_X |
| VmmInit.FaultsIff | kernel/src/mm/vmm.c:121-184 | every other address faults, and no other |
| VmmInit.DirectMapHolds | kernel/src/mm/vmm.c:168-184 | every byte of every Usable, BootloaderReclaimable, ExecutableAndModules or Framebuffer entry is found at `hhdm` plus its address, writable and not executable, write-combining exactly in a framebuffer unless entries of both sorts have bytes in its page |
| VmmInit.KernelMapHolds | kernel/src/mm/vmm.c:148-166 | byte `b` of a PT_LOAD segment is found at `physical_base + (p_vaddr + b - virtual_base)`, modulo 2^64 where the segment's sum leaves that range, writable exactly with PF_W, executable exactly with PF_X, when segments and direct map do not overlap |
| Sharing.MapMany | kernel/src/mm/vmm.c:64-88 | after any sequence of calls on any address spaces, in either mode: every walk from every root equals the abstract page map after the same calls; shared top-level entries unchanged; all roots translate the higher half alike |
| Sharing.TranslateReplayed | kernel/src/mm/vmm.c:64-88 | what the processor translates after any calls is the abstract map's entry decoded, at every canonical address of every address space |
| Sharing.LastCallDecides | kernel/src/mm/vmm.c:64-88 | after any calls on any address spaces each address of each one translates as the last call says that named its page and this address space, or any one for the higher half; as before when none did |
| Sharing.HigherHalfFixed | kernel/src/mm/vmm.c:123-131 | once filled, no growth of the tables changes any of the entries 256..511 of any root |
| Sharing.HigherHalfAgrees | kernel/src/mm/vmm.c:123-131 | two roots translate every higher-half address alike |
| Sharing.SecondRoot | kernel/src/mm/vmm.c:123-131 | a page holding only the 256 shared entries is a well-formed second root |
| TableRace.LosesIff | kernel/src/mm/vmm.c:45-62 | in every interleaving of calls, each under its own pagemap's lock, a table is lost if and only if a CPU fills an entry that another CPU has found absent, and the other one fills it after that |
| TableRace.WasPending | kernel/src/mm/vmm.c:46-58 | one step back: a CPU that is about to overwrite a table came to be so by another CPU filling the entry it had found absent |
| TableRace.LossTakesTwo | kernel/src/mm/vmm.c:65-87 | the two CPUs are in calls on different pagemaps |
| TableRace.OnePagemapLosesNothing | kernel/src/mm/vmm.c:65-87 | with one pagemap no interleaving loses a table |
| TableRace.LosingUnmaps | kernel/src/mm/vmm.c:53-59 | when a table is lost no page below the entry is mapped any more, from any root that reaches it |
| TableRace.MappedStaysFound | kernel/src/mm/vmm.c:64-88 | in an interleaving that loses no table the walk finds what a call stored, from then until another call stores the same entry |
| TableRace.StepKeeps | kernel/src/mm/vmm.c:45-88 | every step keeps: a new table is blank, unreached and one CPU's until it is hung, and no two calls are on one pagemap |
| TableRace.RaceLosesMapping | kernel/src/mm/vmm.c:45-88 | four levels, two CPUs, two pagemaps with a shared table: a page that is mapped is not mapped any more when the other call ends |
| TableWords.StepSimulates | kernel/src/mm/vmm.c:45-88 | every access of a call to memory, every page granted and every store elsewhere is, word for word, a step on slots and page numbers: `get_next_level` reads the table the slot points at or nothing, and a granted page is no table |
| TableWords.RunSimulates | kernel/src/mm/vmm.c:45-88 | every interleaving over memory is an interleaving over slots, state by state |
| TableWords.LosesIff | kernel/src/mm/vmm.c:45-62 | in memory a table is lost if and only if a CPU fills an entry that another CPU has found absent, and the other one fills it after that |
| TableReplay.StepTree | kernel/src/mm/vmm.c:45-88 | every step that loses no table keeps the tables an unaliased tree with every CPU on its path; the last-level store is its call's request, and no other step changes what any walk finds |
| TableReplay.RunReplays | kernel/src/mm/vmm.c:45-88 | in a run that loses no table every walk from every root finds what the abstract page map holds after the calls in the order of their last stores |
| TableReplay.LosesIffOvertaken | kernel/src/mm/vmm.c:45-62 | the exact condition for a lost table, from any page tables in order |
| TableReplay.TranslatesInOrder | kernel/src/mm/vmm.c:64-88 | where no CPU is overtaken, the processor translates every canonical address of every address space as after the same calls one after another |
| TableReplay.LastPutDecides | kernel/src/mm/vmm.c:64-88 | the same for calls on several CPUs at once of which none is overtaken, the last one being the last to store the entry |
| TableReplay.OnePagemapNeverOvertakes | kernel/src/mm/vmm.c:65-87 | with one pagemap no CPU is ever overtaken |
| TableReplay.StartIsRel | kernel/src/mm/vmm.c:45-62 | a tree of tables in memory is one of slots and page numbers, every page at one level |
| TableReplay.BeginStarts | kernel/src/mm/vmm.c:45-88 | page tables built by `vmm_map_page` are where such runs start |
| SlabSpec.BlocksDisjoint | kernel/src/mm/slab.c:54-75 | blocks of any classes, live or free, share no word with each other or with any header |
| SlabSpec.MaskFindsOwner | kernel/src/mm/slab.c:152-158 | masking a block's pointer with `~0x3ffff` gives its region's header, which names the block's class |
| SlabSpec.FollowIsFree | kernel/src/mm/slab.c:71-74 | the head leads through exactly the free blocks, each once, and then to NULL: the list is acyclic |
| SlabSpec.LeadsOneWay | kernel/src/mm/slab.c:84-85 | following the links from a pointer has one outcome only |
| SlabSpec.PopKeeps | kernel/src/mm/slab.c:84-85 | taking the head keeps the slab invariant: threaded lists, live and free blocks partition the blocks, their number is (262144 / entry size - 1) per region |
| SlabSpec.PushKeeps | kernel/src/mm/slab.c:98-100 | pushing a live block keeps it |
| SlabSpec.RefillKeeps | kernel/src/mm/slab.c:54-75 | a laid-out new region keeps it |
| SlabSpec.StoreKeeps | kernel/src/mm/slab.c:144 | a holder writing any word of its block keeps it |
| SlabSpec.ChainIsBlocks | kernel/src/mm/slab.c:67-74 | the blocks linked are exactly the aligned places of the region after the header |
| Slab.BsrIs | kernel/src/mm/slab.c:25-32 | the highest set bit brackets the value between powers of two |
| Slab.SizesAre | kernel/src/mm/slab.c:107-118 | the twelve sizes of `slab_init` are the powers of two from 8 on |
| Slab.SlabForIs | kernel/src/mm/slab.c:34-52 | the class chosen is the smallest with entries strictly larger than the size; none exactly from 16384 on |
| Slab.LargerClass | kernel/src/mm/slab.c:138-144 | a size above the old entry size always selects a strictly larger class, so the copy fits |
| Slab.LinksAre | kernel/src/mm/slab.c:60-68 | the header takes one entry, and the shift by `bsr` counts the remaining ones |
| Slab.SlabAllocator.NewRegion | kernel/src/mm/slab.c:56 | 64 pages from the page allocator are a 256 KiB-aligned region no class has |
| Slab.SlabAllocator.CreateSlab | kernel/src/mm/slab.c:54-75 | the class gains one region whose blocks in order are its free list; every word of every live block is as before, no word outside slab regions is written |
| Slab.SlabAllocator.AllocFromSlab | kernel/src/mm/slab.c:77-89 | one block not live before becomes live, nothing else does, live blocks keep their words; it fails only with an empty list and no aligned run of 64 pages in reach of the allocator |
| Slab.SlabAllocator.FreeInSlab | kernel/src/mm/slab.c:91-104 | exactly that block stops being live, all other live blocks keep their words |
| Slab.SlabAllocator.OwnerOf | kernel/src/mm/slab.c:157-158 | the class read through the masked address is the block's own |
| Slab.SlabAllocator.Init | kernel/src/mm/slab.c:106-119 | every class gets its entry size of the twelve from 8 to 16384, one region and no live block; no run of anybody else is touched |
| Slab.SlabAllocator.Alloc | kernel/src/mm/slab.c:121-128 | a block of the class for the size; from 16384 on nothing, and nothing changes; a panic only when the class has no free block and there is no region to be had |
| Slab.SlabAllocator.Realloc | kernel/src/mm/slab.c:130-150 | in place while the entry is large enough; else moved to the smallest larger class with all old words kept, only the old block freed; with no class nothing changes |
| Slab.SlabAllocator.Free | kernel/src/mm/slab.c:152-159 | exactly the block stops being live; NULL does nothing |
| Slab.MoveDone | kernel/src/mm/slab.c:139-146 | allocate, copy, free: the old entry's words arrive, every other live block keeps its own |
| SlabRuns.Run | kernel/src/mm/slab.c:77-159 | over every sequence of allocations, reallocations, frees and stores the blocks a client holds behave as independent arrays; NULL exactly when there is no class for the size; a panic only in an operation that needs a new block, when its class has no free one and the page allocator no aligned run of 64 pages in reach |
| SlabRuns.HeldApart | kernel/src/mm/slab.c:77-159 | blocks held share no word |
| HeapSpec.AllocKeepsHeap | kernel/src/lib/alloc.c:23-34 | a fresh zeroed run with its two metadata words keeps the heap invariant and all other runs |
| HeapSpec.FreeKeepsHeap | kernel/src/lib/alloc.c:13-21 | giving back a block's run keeps the metadata of all others |
| HeapSpec.DigitIs | kernel/src/lib/alloc.c:50 | the bytes of a word are its digits to base 256, the lowest first |
| HeapSpec.MergeDigits | kernel/src/lib/alloc.c:50 | a copy that ends inside a word takes exactly the low bytes |
| Heap.PageHeap.Alloc | kernel/src/lib/alloc.c:23-34 | a zeroed block of its own, `pages` being the size rounded up; every other run untouched; it fails only when the two-pass search finds no run |
| Heap.PageHeap.Free | kernel/src/lib/alloc.c:13-21 | exactly the pages `alloc` took go back; NULL does nothing |
| Heap.PageHeap.Realloc | kernel/src/lib/alloc.c:36-55 | in place exactly when the page count is the same; each byte both the old and the new block have is kept either way, and what a moved block has beyond is zero; every other run untouched |
| Heap.PageHeap.CopyBytes | kernel/src/lib/alloc.c:50 | `memcpy` byte by byte, no word outside the target changed |
| Heap.MoveDone | kernel/src/lib/alloc.c:48-54 | allocate, copy, free: the bytes arrive and every other run keeps its words |
| Heap.PageHeap.StoreByte | kernel/src/lib/alloc.c:23-34 | a client's store into its block keeps the heap in order and changes that byte only |
| HeapSpec.StoreKeepsHeap | kernel/src/lib/alloc.c:23-34 | a store into a block's data keeps the metadata of every block and every other run |
| HeapRuns.Run | kernel/src/lib/alloc.c:13-55 | over every run of `alloc`, `realloc`, `free` and stores by a client that starts with no block, whatever others hold: its blocks are independent byte arrays, zero when new, each byte within both the old and the new size kept by `realloc` and zero beyond when moved; a panic only in an operation that needs a new run, when the page allocator has none of that length; with no block left the same runs live and pages used as at the start |
| HeapRuns.DoOne | kernel/src/lib/alloc.c:13-55 | no operation of a client changes a byte, or the presence, of a run or block that is not its own |
| HeapRuns.NothingLeft | kernel/src/lib/alloc.c:13-55 | live runs accounted for by blocks alone: with no block left the page allocator is as it was |
| Startup.Kmain | kernel/src/main.c:34-43 | `pmm_init`, `slab_init`, any slab and heap operations, `vmm_init`: it stops for want of a bitmap exactly for the memory maps `PmmInit.Boots` excludes; it panics only when there are no 64 pages for a class's region, when an operation lacks the pages it needs, the ones before it having had their effects, or in `vmm_init` when there is no page left or a shared table is at address 0; otherwise the layers are in order, their clients hold what their operations lead to, and the walks find the kernel and the direct map. In each case but the first the page allocator is the one of the memory map, and every live run is a table, a slab region or a block of the heap's client |
| Layers.Run | kernel/src/mm/pmm.c:142-196 | from any state with the layers in order and whatever their clients hold, in every order of whole calls to page tables, slabs and heap on one page allocator: each layer sees exactly the run of its own operations, all three invariants hold, live runs that belong to none of them stay the same ones, and a panic comes only when the operation's own demand cannot be met |
| Layers.VmmSpares | kernel/src/mm/vmm.c:45-88 | `vmm_map_page` writes no word of, and frees no page of, a run that is not a table |
| Layers.SlabSpares | kernel/src/mm/slab.c:54-159 | slab operations do neither to a run that is no slab region |
| Layers.HeapSpares | kernel/src/lib/alloc.c:13-55 | heap operations do neither to a run that is no heap block |
| Layers.VmmSpared | kernel/src/mm/vmm.c:45-62 | tables whose runs are spared stay well formed and every walk finds what it found |
| Layers.SlabSpared | kernel/src/mm/slab.c:54-104 | slabs whose regions are spared keep their invariant and every live block its words |
| Layers.HeapSpared | kernel/src/lib/alloc.c:13-55 | blocks whose runs are spared keep metadata and bytes |
| Vector.Vector.EnsureLength | kernel/src/lib/vector.k.h:20-31 | room for one more, contents kept through `realloc`; only a full vector grows, from nothing to 8 or to twice its capacity, copying its capacity; no other block changes |
| Vector.Vector.PushBack | kernel/src/lib/vector.k.h:33-38 | the sequence gains the item at the end, its index returned; items copied only when it was full; no other block changes |
| Vector.Vector.Insert | kernel/src/lib/vector.k.h:42-51 | the sequence with the item at the index, later items one place up; the same about copies and other blocks |
| Vector.Vector.Remove | kernel/src/lib/vector.k.h:53-59 | the sequence without that item; any index past the last item drops the last one; on an empty vector the invalid index leaves a wrapped length |
| Vector.Vector.Item | kernel/src/lib/vector.k.h:61-69 | the item, or all ones out of range |
| Vector.Vector.Find | kernel/src/lib/vector.k.h:71-81 | the first index of the value, -1 exactly when it is absent |
| Vector.Vector.RemoveByValue | kernel/src/lib/vector.k.h:83-88 | the first occurrence is removed if and only if there is one; otherwise the last item is lost, and the length of an empty vector wraps |
| Vector.Vector.AmortisedGrowth | kernel/src/lib/vector.k.h:20-31 | all regrowths together copy fewer than two items per item added, however operations are mixed |
| Vector.SameWords | kernel/src/lib/vector.k.h:28-29 | bytes kept by `realloc` are items kept |
| Vector.ShiftUp | kernel/src/lib/vector.k.h:46-48 | the in-place loop moves the items up without overwriting one it still needs, and touches no other heap block |
| Vector.ShiftDown | kernel/src/lib/vector.k.h:55-57 | the in-place loop moves them down, does nothing for an index past the last item, and touches no other heap block |
| VectorRuns.Run | kernel/src/lib/vector.k.h:20-88 | any number of vectors and another client on one heap, over every run of pushes, insertions, removals by index and value, searches, item reads and heap operations: each vector is the sequence its own operations lead to, every answer is right, the client's blocks are its own, all other live runs stay the same ones, each vector copied fewer than two items per item added, and a panic comes only in a client's allocation or an addition to a full vector, when the page allocator has no run of that length |
| VectorRuns.VectorSpared | kernel/src/lib/vector.k.h:20-88 | a vector keeps its contents when anybody else operates on the heap or on the page allocator |
| VectorRuns.ClientSpared | kernel/src/lib/alloc.c:13-55 | a client's blocks keep their bytes when a vector operates |
| VectorRuns.NewVectors | kernel/src/lib/vector.k.h:11-18 | freshly initialised vectors are where such runs start |
| VectorRuns.AbsentValueDropsLast | kernel/src/lib/vector.k.h:83-88 | pushing 1 and 2 and removing the value 3 leaves 1 |
| Locks.StepKeeps | kernel/src/lib/spinlock.c:6-22 | every step of every CPU keeps the lock invariant |
| Locks.MutualExclusion | kernel/src/lib/spinlock.c:6-22 | in every interleaving at most one CPU is inside the section of the page allocator's lock, of any pagemap's, of the printf lock or of any terminal's |
| Locks.TermResetIsQuiet | kernel/src/devices/term/term.c:25-53 | `term_init` re-initialises a terminal's lock only while no CPU holds any lock |
| Locks.HolderIsMasked | kernel/src/mm/vmm.c:65-87 | a CPU holding a lock has interrupts off, also after a nested section |
| Locks.PanicsIff | kernel/src/lib/spinlock.c:6-12 | in every interleaving the panic for interrupts that are on happens exactly in the outermost section of a slab lock entered with interrupts on |
| Locks.FlagRestored | kernel/src/sys/cpu.k.h:258-266 | a CPU's interrupt flag outside all sections is the one it entered with, over any nesting and interleaving |
| Locks.NestedSections | kernel/src/mm/slab.c:54-56 | a CPU with nothing held gets into the page allocator's section from a pagemap's or a slab's, and into a terminal's from the printf one |
| Locks.SecondEntersIff | kernel/src/mm/slab.c:54-82 | from at most one CPU inside, a step lets a second one in if and only if it acquires the lock while a holder is inside and the flag is clear |
| Locks.OpensIff | kernel/src/mm/slab.c:55 | that state arises if and only if a holder re-initialises the lock |
| Locks.StaysOpenIff | kernel/src/mm/slab.c:78-87 | and lasts exactly until the holder releases the lock or another CPU acquires it |
| Locks.ExclusionFailsIff | kernel/src/mm/slab.c:54-89 | two CPUs are inside at some moment of a run if and only if the lock is acquired after a holder's re-initialisation with no release between |
| Locks.MomentAt | kernel/src/lib/spinlock.c:6-22 | the history that theorem speaks of is the one of the run, state by state and step by step |
| Locks.ResetBreaksExclusion | kernel/src/mm/slab.c:78-82 | such a run, from start-up with two CPUs |
| Locks.ChainClimbs | kernel/src/mm/vmm.c:67-79 | a chain of CPUs waiting for each other climbs the lock order |
| Locks.NoDeadlock | kernel/src/mm/pmm.c:145-159 | no reachable state has a circle of CPUs waiting on each other's locks |
| Locks.Progress | kernel/src/lib/spinlock.c:14-22 | while nobody has panicked and some CPU is in a section, some CPU in one can take a step that changes the state |
| Bringup.StepKeeps | kernel/src/sys/mp.c:31-53 | every step of `mp_init` or of any CPU's `cpu_init` keeps the bring-up invariant |
| Bringup.RunKeeps | kernel/src/sys/mp.c:31-53 | the invariant holds after every run |
| Bringup.OneAtATime | kernel/src/sys/mp.c:31-51 | at most one CPU is between starting `cpu_init` and setting `online` |
| Bringup.GrowsWhenQuiet | kernel/src/sys/mp.c:32-33 | `cpu_locals` grows only when none is |
| Bringup.AllUpWhenDone | kernel/src/sys/mp.c:31-53 | once `mp_init_done` holds every CPU is online under its own number and `cpu_current` is its own structure, the one with its LAPIC id; the one with the boot LAPIC id is marked `is_bsp`, was never started and ran `cpu_init` on the boot CPU; every other one is not marked, was started and is through |
| Bringup.StepAdvances | kernel/src/sys/mp.c:31-53 | every step but a turn of the wait for `online` brings the end nearer |
| Bringup.CanFinish | kernel/src/sys/mp.c:31-53 | every run, however far it has got, can be continued until `mp_init_done` holds |
| Bringup.UpStaysUp | kernel/src/sys/cpu.c:22-44 | no later step disturbs a CPU that is up |
| Madt.EndsIff | kernel/src/acpi/madt.c:30-60 | the loop ends if and only if the walk meets no entry of length zero |
| Madt.ZeroLengthEntry | kernel/src/acpi/madt.c:30-60 | a table of zeros on which the loop stays at its first entry for ever |
| Madt.MadtInit | kernel/src/acpi/madt.c:30-60 | each vector gets the visited entries of its type in order, x2APIC entries only in x2APIC mode; when the bytes from 44 on, the end of the header, are serialised entries, those are the entries of its type |
| Madt.RoundTrip | kernel/src/acpi/madt.c:30-60 | walking serialised entries ends, visits exactly those in order and finds of each type precisely its entries, offsets counted from byte 44 |
| Madt.EntriesAreIntact | kernel/src/acpi/madt.c:36 | the bytes at each visited offset are the serialised entry |

## Left out

- Pmm.PageAllocator.AllocNoZero: requires a count of at least 1, because the source computes a remainder by it.
- PmmInit.Init: ends where the source would go on without a bitmap, past the end of a short one or with one whose own pages it is going to hand out; what happens to memory after that is not modelled.
- PmmInit.Build: the bitmap is an array of its own, not bytes of the memory it describes, so that writes through stray pointers into it are not modelled.
- Startup.Kmain: the bootloader's direct map is taken as aligned to 256 KiB with room for all of memory; of `term_init` only its heap operations are there.
- VmmInit.KernelMapHolds: assumes page-aligned segments, canonical addresses and physical addresses below 2^52; the processor's own physical address width is taken as 52.
- VmmInit.DirectSpace: write-combining is index 5 of the page attribute table, whose contents are the bootloader's.
- Slab.SlabAllocator.Realloc: sequential only, like all slab claims, because a refill re-initialises the lock.
- Slab.SlabAllocator.CopyWords: `memcpy` of whole words, entry sizes being multiples of eight.
- Vector.Vector.PushBack: items of eight bytes, as all vectors of the memory, ACPI and bring-up code have; the count of copied items takes every `realloc` as moving.
- Bringup.OneAtATime: of `cpu_init` only the argument, LAPIC id, idle thread, GS base and `online` are modelled, and the bootloader lists the boot CPU at most once.
- Madt.MadtInit: the byte after the table is taken as readable, since the source reads an entry's length before knowing that it fits.
- Locks.ExclusionFailsIff: the re-initialisations of slab locks before the first allocation, by `slab_init` on the boot CPU alone, are not steps of the model.
- ConcurrentPmm.DeliveredZeroed: what `pmm_lock` guards is one step, which `LockedPmm.RunRefines` justifies; an out-of-memory panic is no step there.
- LockedPmm.RunRefines: a failed test-and-set is no step, since it changes nothing; the read-modify-write of a bitmap byte is one.
- Sharing.MapMany: calls one after another.
- TableWords.LosesIff: out-of-memory panics are no steps; what `pmm_lock` guards in an allocation is one step, as in `ConcurrentPmm`; no table is freed, as in the source.
- VectorRuns.Run: an insertion past the end and a removal from an empty vector are callers' errors and not made; what such a removal does is in `Vector.Vector.Remove`.
- Locks.Progress: fairness of the CPUs is not modelled, nor weaker memory orderings than interleaving.
- TLB, CR3 switches, accessed and dirty bits: the translation theorems are about the tables in memory.
- Creation of further pagemaps: the repository has no code for it; `Sharing.SecondRoot` says what one must look like.
- Device registers, descriptor tables, timers, ACPI glue, ELF parsing, output text, the empty scheduler: outside the core, they would only add easy members.
