/** The start of `kmain`: page allocator, slabs, whatever the drivers allocate then, page tables. */
module Startup {
  import opened Bits
  import opened PageRuns
  import opened Boot
  import opened Paging
  import opened Tables
  import opened Vmm
  import opened Spans
  import opened VmmInit
  import opened Slab
  import opened SlabSpec
  import opened Heap
  import opened HeapSpec
  import opened Layers
  import Pmm
  import PmmInit
  import SlabRuns
  import HeapRuns

  /** How it ends: without a usable bitmap, in one of the panics, or with all three layers up. */
  datatype Kernel = NoBitmap
                  | Panicked(pt: PageTables, sa: SlabAllocator, h: PageHeap, where: Where)
                  | Up(pt: PageTables, sa: SlabAllocator, h: PageHeap, top: nat, w: World)

  /** In `slab_init`, in operation `n` of those made before `vmm_init`, or in `vmm_init`. */
  datatype Where = InSlabInit | InOperation(n: nat) | InVmmInit

  /** What the bootloader and the linker promise: a direct map on a 256 KiB boundary with room for all of memory, and
      no address that overflows. */
  ghost predicate Placement(memmap: seq<MemEntry>, l: Layout, segs: seq<Segment>, table: nat) {
    && 0 < l.hhdm && l.hhdm % 0x4_0000 == 0 && table + 24 * CLASSES <= 0x1_0000_0000_0000_0000
    && (forall n: nat | PmmInit.PageCount(memmap, n) ::
          n <= FRAMES && l.hhdm + 4096 * n <= 0x1_0000_0000_0000_0000)
    && NoOverflow(AllSpans(l, segs, memmap))
  }

  /** The panic is one of the source's: there were no 64 pages for the region of a class; an operation did not get the
      pages it needed, the ones before it having had their effects; `vmm_init` did not get a page, or a table of the
      shared half is the page at address 0. */
  ghost predicate Panics(r: Kernel, ops: seq<Layers.Op>, story: Story)
    requires r.Panicked?
    reads r.pt, r.pt.pmm, r.pt.pmm.bitmap, r.sa, r.sa.pmm, r.sa.pmm.bitmap
  {
    match r.where
    case InSlabInit => r.pt.pmm.Exhausted(64)
    case InOperation(n) => n < |ops| && Told(map[], map[], ops[..n], story) && Starved(r.pt, r.sa, story, ops[n])
    case InVmmInit => Told(map[], map[], ops, story) && (r.pt.pmm.Exhausted(1) || NullTable(r.pt.tabs))
  }

  /** The page allocator is the one `pmm_init` made of the memory map, the layers on it are in order, and every live run
      is a table, a slab region or a block of the heap's client. */
  ghost predicate Booted(memmap: seq<MemEntry>, pt: PageTables, sa: SlabAllocator, h: PageHeap, heap: HeapRuns.Store)
    reads pt, sa, h, pt.pmm, pt.pmm.bitmap, pt.pmm.ram, sa.pmm, sa.pmm.bitmap, sa.pmm.ram, h.pmm, h.pmm.bitmap,
          h.pmm.ram
  {
    && (exists b: nat :: PmmInit.Placed(memmap, pt.pmm.pageCount, b)
                         && PmmInit.Left(memmap, pt.pmm.pageCount, b, pt.pmm.reserved))
    && Together(pt, sa, h) && pt.Valid() && sa.Valid() && h.Valid() && OthersNow(pt, sa, heap) == {}
  }

  /** `slab_init`, with the page tables and the heap still empty. */
  method Slabs(p: Pmm.PageAllocator, hhdm: nat, table: nat, la57: bool)
    returns (pt: PageTables, sa: SlabAllocator, h: PageHeap, ok: bool)
    requires p.Valid() && p.pageCount <= FRAMES && 0 < hhdm && hhdm % 0x4_0000 == 0
    requires hhdm + 4096 * p.pageCount <= 0x1_0000_0000_0000_0000 && table + 24 * CLASSES <= 0x1_0000_0000_0000_0000
    requires p.live == map[]
    modifies p, p.bitmap, p.ram
    ensures fresh(pt) && fresh(sa) && fresh(h) && pt.pmm == p && pt.tabs == map[] && pt.la57 == la57
    ensures ok ==> Knows(pt, sa, h, World({}, {}), map[], map[])
    ensures !ok ==> p.Exhausted(64)
    ensures Together(pt, sa, h) && pt.Valid() && sa.Valid() && h.Valid() && OthersNow(pt, sa, map[]) == {}
  {
    PageBoundary(hhdm);
    pt := new PageTables(p, la57);
    h := new PageHeap(p, hhdm);
    sa := new SlabAllocator(p, hhdm, table);
    ghost var mem, live, cs := p.ram[..], p.live, sa.cs;
    ok := sa.Init();
    p.RunsAreApart();
    SlabSpares(mem, p.ram[..], live, p.live, cs, sa.cs);
    OthersSpared(mem, p.ram[..], live, p.live, RegionStarts(cs), RegionStarts(sa.cs), pt.tabs.Values, {});
    NoTables(pt);
    NoBlocks(h);
    if ok {
      NothingYet(pt, sa, h);
    }
  }

  /** Without tables and blocks there is nothing the slabs could disturb. */
  lemma NothingYet(pt: PageTables, sa: SlabAllocator, h: PageHeap)
    requires pt.tabs == map[] && h.blocks == map[] && pt.pmm == sa.pmm == h.pmm && sa.Valid() && sa.Ready()
    requires pt.pmm.pageCount <= FRAMES && h.hhdm == sa.hhdm
    ensures Knows(pt, sa, h, World({}, {}), map[], map[])
  {
    assert pt.Valid() by {
      NoTables(pt);
    }
    PageBoundary(h.hhdm);
    assert h.Valid() && HeapRuns.Held(h.pmm.ram[..], h.blocks, map[]) by {
      NoBlocks(h);
    }
    assert Together(pt, sa, h) by {
      NoneApart(pt.tabs, h.blocks, sa.cs);
    }
    NoneHeld(sa);
  }

  lemma PageBoundary(hhdm: nat)
    requires hhdm % 0x4_0000 == 0
    ensures hhdm % 4096 == 0
  {
    var k := 64 * (hhdm / 0x4_0000);
    assert hhdm == k * 4096 + 0;
    DivModUnique(4096, k, 0);
  }

  lemma NoneApart(tabs: TableMap, blocks: map<nat, nat>, cs: seq<Class>)
    requires tabs == map[] && blocks == map[]
    ensures tabs.Values !! RegionStarts(cs) && tabs.Values !! blocks.Keys && RegionStarts(cs) !! blocks.Keys
  {
    assert tabs.Values == {} && blocks.Keys == {};
  }

  lemma NoneHeld(sa: SlabAllocator)
    requires sa.Valid() && sa.Ready()
    ensures SlabRuns.Knows(sa, {}, map[])
  {}

  lemma NoTables(pt: PageTables)
    requires pt.tabs == map[] && pt.pmm.Valid() && pt.pmm.pageCount <= FRAMES
    ensures pt.Valid() && pt.tabs.Values == {}
  {}

  lemma NoBlocks(h: PageHeap)
    requires h.blocks == map[] && h.pmm.Valid()
    requires 0 < h.hhdm && h.hhdm % 4096 == 0 && h.hhdm + 8 * h.pmm.ram.Length <= 0x1_0000_0000_0000_0000
    ensures h.Valid() && HeapRuns.Held(h.pmm.ram[..], h.blocks, map[]) && h.blocks.Keys == {}
  {}

  /** `vmm_init`: slabs and heap do not notice. */
  method AddressSpace(pt: PageTables, sa: SlabAllocator, h: PageHeap, l: Layout, segs: seq<Segment>,
                      memmap: seq<MemEntry>,
                      ghost w: World, ghost slab: SlabRuns.Store, ghost heap: HeapRuns.Store)
    returns (top: Option<nat>)
    requires Knows(pt, sa, h, w, slab, heap) && pt.tabs == map[] && NoOverflow(AllSpans(l, segs, memmap))
    modifies pt, pt.pmm, pt.pmm.bitmap, pt.pmm.ram
    ensures Knows(pt, sa, h, w, slab, heap) && OthersNow(pt, sa, heap) == old(OthersNow(pt, sa, heap))
    ensures top.None? ==> pt.pmm.Exhausted(1) || NullTable(pt.tabs)
    ensures top.Some? ==> pt.IsRoot(top.value / 4096) && AllShared(pt.tabs)
    ensures top.Some? ==> LeavesAre(pt.la57, pt.pmm.ram[..], top.value / 4096, Requests(AllSpans(l, segs, memmap)))
  {
    ghost var past := pt.Now();
    assert InOrder(sa, h, past, w, slab, heap);
    top := VmmInit.Init(pt, l, segs, memmap);
    StillKnown(pt, sa, h, past, w, slab, heap);
  }

  /** All three layers are up: the clients hold what the operations made so far lead to, and the walks from the root
      find the kernel and the direct map. */
  ghost predicate Running(r: Kernel, ops: seq<Layers.Op>, story: Story, l: Layout, segs: seq<Segment>,
                          memmap: seq<MemEntry>)
    requires r.Up? && NoOverflow(AllSpans(l, segs, memmap))
    reads r.pt, r.sa, r.h, r.pt.pmm, r.pt.pmm.bitmap, r.pt.pmm.ram, r.sa.pmm, r.sa.pmm.bitmap, r.sa.pmm.ram,
          r.h.pmm, r.h.pmm.bitmap, r.h.pmm.ram
  {
    && Told(map[], map[], ops, story) && Knows(r.pt, r.sa, r.h, r.w, LastSlab(story), LastHeap(story))
    && r.pt.IsRoot(r.top / 4096) && AllShared(r.pt.tabs)
    && LeavesAre(r.pt.la57, r.pt.pmm.ram[..], r.top / 4096, Requests(AllSpans(l, segs, memmap)))
  }

  /** The drivers' allocations and `vmm_init`. */
  method Rest(pt: PageTables, sa: SlabAllocator, h: PageHeap, l: Layout, segs: seq<Segment>, memmap: seq<MemEntry>,
              early: seq<Layers.Op>)
    returns (r: Kernel, ghost story: Story)
    requires Knows(pt, sa, h, World({}, {}), map[], map[]) && pt.tabs == map[] && NoOverflow(AllSpans(l, segs, memmap))
    requires forall n | 0 <= n < |early| :: OpOk(map[], early[n])
    modifies pt, sa, h, pt.pmm, pt.pmm.bitmap, pt.pmm.ram
    ensures r.Panicked? ==> Panics(r, early, story)
    ensures !r.NoBitmap? && r.pt == pt && r.sa == sa && r.h == h && story.slabs != [] && story.heaps != []
    ensures Together(pt, sa, h) && pt.Valid() && sa.Valid() && h.Valid()
    ensures OthersNow(pt, sa, LastHeap(story)) == old(OthersNow(pt, sa, map[]))
    ensures r.Up? ==> Running(r, early, story, l, segs, memmap)
  {
    var done, w;
    done, w, story := Layers.Run(pt, sa, h, early, World({}, {}), map[], map[]);
    if done < |early| {
      r := Panicked(pt, sa, h, InOperation(done));
      return;
    }
    assert early[..done] == early;
    ghost var slab, heap := LastSlab(story), LastHeap(story);
    var top := AddressSpace(pt, sa, h, l, segs, memmap, w, slab, heap);
    r := if top.None? then Panicked(pt, sa, h, InVmmInit) else Up(pt, sa, h, top.value, w);
  }

  /** `kmain` up to `vmm_init`, with any allocations in between, such as the terminals make: unless it stops, all
      three layers are in order on one page allocator, their clients hold what their own operations lead to, and the
      walks find the kernel and the direct map. Every run of `Layers` goes on from there. */
  method Kmain(memmap: seq<MemEntry>, l: Layout, segs: seq<Segment>, la57: bool, table: nat, early: seq<Layers.Op>)
    returns (r: Kernel, ghost story: Story)
    requires Placement(memmap, l, segs, table) && forall n | 0 <= n < |early| :: OpOk(map[], early[n])
    ensures r.NoBitmap? <==> !PmmInit.Boots(memmap)
    ensures story.slabs != [] && story.heaps != []
    ensures !r.NoBitmap? ==> Booted(memmap, r.pt, r.sa, r.h, LastHeap(story))
    ensures r.Panicked? ==> Panics(r, early, story)
    ensures r.Up? ==> fresh({r.pt, r.sa, r.h, r.pt.pmm, r.pt.pmm.bitmap, r.pt.pmm.ram}) && r.pt.la57 == la57
    ensures r.Up? ==> Running(r, early, story, l, segs, memmap)
  {
    story := Story([map[]], [map[]]);
    var init := PmmInit.Init(memmap);
    if !init.Ready? {
      r := NoBitmap;
      return;
    }
    var p := init.p;
    var pt, sa, h, ok := Slabs(p, l.hhdm, table, la57);
    if !ok {
      r := Panicked(pt, sa, h, InSlabInit);
      return;
    }
    r, story := Rest(pt, sa, h, l, segs, memmap, early);
  }
}
