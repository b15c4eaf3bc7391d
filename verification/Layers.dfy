/**
 Page tables, slabs and page heap over one page allocator: however their operations follow each other, each layer
 sees the run of its own operations and nothing else.
 */
module Layers {
  import opened Bits
  import opened PageRuns
  import opened Paging
  import opened Tables
  import opened Vmm
  import opened Sharing
  import opened SlabSpec
  import opened Slab
  import opened HeapSpec
  import opened Heap
  import SlabRuns
  import HeapRuns

  ghost function RegionStarts(cs: seq<Class>): set<nat> {
    set c: nat, r: nat | c < |cs| && r in cs[c].regions :: 64 * r
  }

  lemma RegionStart(cs: seq<Class>, r: nat)
    ensures InRegions(cs, r) <==> 64 * r in RegionStarts(cs)
  {
    if 64 * r in RegionStarts(cs) {
      var c: nat, q: nat :| c < |cs| && q in cs[c].regions && 64 * q == 64 * r;
      assert q == r;
    }
  }

  // ---- each layer spares the others ----

  lemma VmmSpares(mem: seq<Word>, mem': seq<Word>, live: map<nat, nat>, live': map<nat, nat>, tabs: TableMap,
                  tabs': TableMap)
    requires OnlyTables(mem, mem', live, live', tabs, tabs') && Apart(live')
    requires forall k | k in tabs' :: tabs'[k] in live' && live'[tabs'[k]] == 1
    ensures Spares(mem, mem', live, live', tabs.Values, tabs'.Values)
  {
    forall t | t in live && t !in tabs.Values ensures RunSame(mem, mem', t, live[t]) {
      TablesElsewhere(mem, mem', live, live', tabs, tabs', t);
    }
  }

  /** A run that is no table is not written. */
  lemma TablesElsewhere(mem: seq<Word>, mem': seq<Word>, live: map<nat, nat>, live': map<nat, nat>, tabs: TableMap,
                        tabs': TableMap, t: nat)
    requires OnlyTables(mem, mem', live, live', tabs, tabs') && Apart(live') && t in live && t !in tabs.Values
    requires forall k | k in tabs' :: tabs'[k] in live' && live'[tabs'[k]] == 1
    ensures RunSame(mem, mem', t, live[t])
  {
    forall x | 512 * t <= x < 512 * (t + live[t]) && x < |mem| ensures mem'[x] == mem[x] {
      var f, n := x / 512, x % 512;
      assert x == f * 512 + n;
      NotTheTable(live, live', tabs, tabs', t, f);
      assert Entry(mem', f, n) == Entry(mem, f, n);
    }
  }

  lemma NotTheTable(live: map<nat, nat>, live': map<nat, nat>, tabs: TableMap, tabs': TableMap, t: nat, f: nat)
    requires t in live && t !in tabs.Values && t <= f < t + live[t] && Apart(live')
    requires forall u: nat | u in live :: u in live' && live'[u] == live[u]
    requires forall k | k in tabs' && k !in tabs :: tabs'[k] !in live
    requires forall k | k in tabs :: k in tabs' && tabs'[k] == tabs[k]
    requires forall k | k in tabs' :: tabs'[k] in live' && live'[tabs'[k]] == 1
    ensures f !in tabs'.Values
  {}

  lemma SlabSpares(mem: seq<Word>, mem': seq<Word>, live: map<nat, nat>, live': map<nat, nat>, cs: seq<Class>,
                   cs': seq<Class>)
    requires Framed(mem, mem', live, live', cs, cs') && Apart(live') && Backed(live', cs')
    ensures Spares(mem, mem', live, live', RegionStarts(cs), RegionStarts(cs'))
  {
    forall t, x | t in live && t !in RegionStarts(cs) && 512 * t <= x < 512 * (t + live[t]) && x < |mem|
      ensures mem'[x] == mem[x]
    {
      NotTheRegion(live, live', cs, cs', t, x);
    }
    forall t | t in RegionStarts(cs') ensures t in RegionStarts(cs) || t !in live {
      var c: nat, r: nat :| c < |cs'| && r in cs'[c].regions && t == 64 * r;
      assert InRegions(cs', r);
      RegionStart(cs, r);
    }
  }

  lemma NotTheRegion(live: map<nat, nat>, live': map<nat, nat>, cs: seq<Class>, cs': seq<Class>, t: nat, x: nat)
    requires t in live && t !in RegionStarts(cs) && 512 * t <= x < 512 * (t + live[t]) && Apart(live')
             && Backed(live', cs')
    requires t in live' && live'[t] == live[t]
    requires forall r: nat | InRegions(cs', r) && !InRegions(cs, r) :: 64 * r !in live
    ensures !InRegions(cs', x / 32768)
  {
    var r := x / 32768;
    if InRegions(cs', r) {
      SameRun(live', t, r, x);
      RegionStart(cs, r);
    }
  }

  /** Only one run holds a word. */
  lemma SameRun(live: map<nat, nat>, t: nat, r: nat, x: nat)
    requires Apart(live) && t in live && 64 * r in live && live[64 * r] == 64 && 512 * t <= x < 512 * (t + live[t])
             && x / 32768 == r
    ensures t == 64 * r
  {}

  lemma HeapSpares(mem: seq<Word>, mem': seq<Word>, live: map<nat, nat>, live': map<nat, nat>, mine: set<nat>,
                   mine': set<nat>,
                   start: map<nat, nat>)
    requires start == live - mine && HeapRuns.Accounted(start, live', mine') && RunsKept(mem, mem', start)
    ensures Spares(mem, mem', live, live', mine, mine')
  {
    forall t | t in live && t !in mine ensures t in live' && live'[t] == live[t] && RunSame(mem, mem', t, live[t]) {
      assert t in start;
    }
  }

  lemma OthersAccounted(mem: seq<Word>, live: map<nat, nat>, blocks: map<nat, nat>, mine: set<nat>)
    requires HeapInv(mem, live, blocks) && mine <= blocks.Keys
    ensures HeapRuns.Accounted(live - mine, live, mine)
  {
    forall s | s in mine ensures s in live {
      assert BlockOk(mem, live, s, blocks[s]);
    }
  }

  // ---- a layer that is spared stays as it is ----

  lemma VmmSpared(depth: nat, mem: seq<Word>, mem': seq<Word>, live: map<nat, nat>, live': map<nat, nat>,
                  tabs: TableMap, mine: set<nat>, mine': set<nat>)
    requires Wf(depth, mem, tabs) && (forall k | k in tabs :: tabs[k] in live && live[tabs[k]] == 1)
    requires Spares(mem, mem', live, live', mine, mine') && tabs.Values !! mine
    ensures Wf(depth, mem', tabs) && SameLeaves(depth, mem, mem', tabs) && tabs.Values !! mine'
    ensures forall k | k in tabs :: tabs[k] in live' && live'[tabs[k]] == 1
  {
    forall k, i: nat | k in tabs && i < 512 ensures Entry(mem', tabs[k], i) == Entry(mem, tabs[k], i) {
      assert tabs[k] in tabs.Values;
      assert RunSame(mem, mem', tabs[k], 1);
    }
    AgreeingMemory(depth, mem, mem', tabs);
    forall k | k in tabs ensures tabs[k] in live' && live'[tabs[k]] == 1 {
      assert tabs[k] in tabs.Values;
    }
  }

  lemma SlabSpared(mem: seq<Word>, mem': seq<Word>, hhdm: nat, table: nat, cs: seq<Class>, live: map<nat, nat>,
                   live': map<nat, nat>,
                   mine: set<nat>, mine': set<nat>)
    requires SlabInv(mem, hhdm, table, cs) && Backed(live, cs) && Spares(mem, mem', live, live', mine, mine')
             && RegionStarts(cs) !! mine
    ensures SlabInv(mem', hhdm, table, cs) && Backed(live', cs) && Preserves(mem, mem', cs) && RegionStarts(cs) !! mine'
  {
    forall r: nat | InRegions(cs, r)
      ensures RunSame(mem, mem', 64 * r, 64) && 64 * r in live' && live'[64 * r] == 64 && 64 * r !in mine'
    {
      RegionSpared(mem, mem', cs, live, live', mine, mine', r);
    }
    assert RegionStarts(cs) !! mine' by {
      forall t | t in RegionStarts(cs) ensures t !in mine' {
        var c: nat, r: nat :| c < |cs| && r in cs[c].regions && t == 64 * r;
        assert InRegions(cs, r);
      }
    }
    assert Backed(live', cs) by {
      forall c, r: nat | 0 <= c < |cs| && r in cs[c].regions ensures 64 * r in live' && live'[64 * r] == 64 {
        assert InRegions(cs, r);
      }
    }
    forall c: nat, x | c < CLASSES && 0 <= x < |mem| && x / 32768 in cs[c].regions ensures mem'[x] == mem[x] {
      var r := x / 32768;
      assert InRegions(cs, r);
      assert RunSame(mem, mem', 64 * r, 64);
    }
    RegionsSame(mem, mem', hhdm, table, cs);
  }

  lemma RegionSpared(mem: seq<Word>, mem': seq<Word>, cs: seq<Class>, live: map<nat, nat>, live': map<nat, nat>,
                     mine: set<nat>, mine': set<nat>, r: nat)
    requires Backed(live, cs) && Spares(mem, mem', live, live', mine, mine') && RegionStarts(cs) !! mine
             && InRegions(cs, r)
    ensures RunSame(mem, mem', 64 * r, 64) && 64 * r in live' && live'[64 * r] == 64 && 64 * r !in mine'
  {
    RegionStart(cs, r);
    assert 64 * r in live && live[64 * r] == 64;
  }

  /** Slabs whose regions did not change are in order. */
  lemma RegionsSame(mem: seq<Word>, mem': seq<Word>, hhdm: nat, table: nat, cs: seq<Class>)
    requires SlabInv(mem, hhdm, table, cs) && |mem'| == |mem|
    requires forall c: nat, x | c < CLASSES && 0 <= x < |mem| && x / 32768 in cs[c].regions :: mem'[x] == mem[x]
    ensures SlabInv(mem', hhdm, table, cs) && Preserves(mem, mem', cs)
  {
    forall c | 0 <= c < CLASSES ensures Threaded(mem', hhdm, cs[c]) && Headers(mem', table, c, cs[c].regions) {
      ClassSame(mem, mem', hhdm, table, c, cs[c]);
    }
    forall c, x | 0 <= c < CLASSES && 0 <= x < |mem| && Inside(cs, c, x) ensures mem'[x] == mem[x] {
      InsideRegions(mem, hhdm, table, cs, c, x);
    }
  }

  lemma ClassSame(mem: seq<Word>, mem': seq<Word>, hhdm: nat, table: nat, c: nat, s: Class)
    requires c < CLASSES && Threaded(mem, hhdm, s) && Partition(c, s) && Headers(mem, table, c, s.regions)
             && |mem'| == |mem|
    requires forall x | 0 <= x < |mem| && x / 32768 in s.regions :: mem'[x] == mem[x]
    ensures Threaded(mem', hhdm, s) && Headers(mem', table, c, s.regions)
  {
    forall i | 0 <= i < |s.free| ensures mem'[s.free[i]] == mem[s.free[i]] {
      assert s.free[i] in s.free;
      assert IsBlock(c, s.regions, s.free[i]);
    }
    forall q | q in s.regions ensures mem'[32768 * q] == mem[32768 * q] {
      assert (32768 * q) / 32768 == q;
    }
  }

  lemma HeapSpared(mem: seq<Word>, mem': seq<Word>, live: map<nat, nat>, live': map<nat, nat>, blocks: map<nat, nat>,
                   bs: HeapRuns.Store,
                   mine: set<nat>, mine': set<nat>)
    requires HeapInv(mem, live, blocks) && HeapRuns.Held(mem, blocks, bs)
             && Spares(mem, mem', live, live', mine, mine') && blocks.Keys !! mine
    ensures HeapInv(mem', live', blocks) && HeapRuns.Held(mem', blocks, bs) && blocks.Keys !! mine'
  {
    forall s | s in blocks ensures BlockOk(mem', live', s, blocks[s]) && s !in mine' {
      assert BlockOk(mem, live, s, blocks[s]);
      assert s in blocks.Keys;
      BlockKept(mem, mem', live, map[s := live[s]], s, blocks[s]);
    }
    forall s | s in bs ensures HeapRuns.DataIs(mem', s, bs[s]) {
      assert BlockOk(mem, live, s, blocks[s]);
      BlockSpared(mem, mem', live, live', s, blocks[s], bs[s]);
    }
  }

  lemma BlockSpared(mem: seq<Word>, mem': seq<Word>, live: map<nat, nat>, live': map<nat, nat>, s: nat, size: nat,
                    data: seq<nat>)
    requires BlockOk(mem, live, s, size) && |mem'| == |mem| && s in live' && live'[s] == live[s]
             && RunSame(mem, mem', s, live[s])
    requires |data| == size && HeapRuns.DataIs(mem, s, data)
    ensures BlockOk(mem', live', s, size) && HeapRuns.DataIs(mem', s, data)
  {
    var own := map[s := live[s]];
    assert RunsKept(mem, mem', own);
    HeapRuns.DataKept(mem, mem', live, own, s, data);
  }

  // ---- the three together ----

  /** One page allocator, and every live run owned by at most one layer. */
  ghost predicate Together(pt: PageTables, sa: SlabAllocator, h: PageHeap)
    reads pt, sa, h
  {
    && pt.pmm == sa.pmm && pt.pmm == h.pmm
    && pt.tabs.Values !! RegionStarts(sa.cs) && pt.tabs.Values !! h.blocks.Keys && RegionStarts(sa.cs) !! h.blocks.Keys
  }

  /** What the clients know: the page map's, the slab's and the heap's. */
  datatype World = World(slabHeld: set<nat>, heapHeld: set<nat>)

  ghost predicate Knows(pt: PageTables, sa: SlabAllocator, h: PageHeap, w: World, slab: SlabRuns.Store,
                        heap: HeapRuns.Store)
    reads pt, sa, h, pt.pmm, pt.pmm.bitmap, pt.pmm.ram, sa.pmm, sa.pmm.bitmap, sa.pmm.ram, h.pmm, h.pmm.bitmap,
          h.pmm.ram
  {
    && Together(pt, sa, h) && pt.Valid() && SlabRuns.Knows(sa, w.slabHeld, slab)
    && h.Valid() && HeapRuns.Held(h.pmm.ram[..], h.blocks, heap) && w.heapHeld == heap.Keys
  }

  // ---- whose the live runs are ----

  /** The live runs that are no table, no slab region and none of the blocks `mine` of the heap client. */
  ghost function Others(live: map<nat, nat>, tabs: TableMap, cs: seq<Class>, mine: set<nat>): set<nat> {
    live.Keys - tabs.Values - RegionStarts(cs) - mine
  }

  ghost function OthersNow(pt: PageTables, sa: SlabAllocator, heap: HeapRuns.Store): set<nat>
    reads pt, pt.pmm, sa
  {
    Others(pt.pmm.live, pt.tabs, sa.cs, heap.Keys)
  }

  /** A layer that spares the runs that are not its own leaves these as they are. */
  lemma OthersSpared(mem: seq<Word>, mem': seq<Word>, live: map<nat, nat>, live': map<nat, nat>, mine: set<nat>,
                     mine': set<nat>, first: set<nat>, second: set<nat>)
    requires Spares(mem, mem', live, live', mine, mine')
    ensures live'.Keys - mine' - first - second == live.Keys - mine - first - second
    ensures live'.Keys - first - mine' - second == live.Keys - first - mine - second
    ensures live'.Keys - first - second - mine' == live.Keys - first - second - mine
  {
    OthersLive(mem, mem', live, live', mine, mine');
    assert forall t :: t in live'.Keys - mine' <==> t in live.Keys - mine;
  }

  /** Where only tables were added or written, slabs and heap are as they were. */
  lemma TablesAlone(mem: seq<Word>, mem': seq<Word>, live: map<nat, nat>, live': map<nat, nat>, tabs: TableMap,
                    tabs': TableMap,
                    hhdm: nat, table: nat, cs: seq<Class>, slab: SlabRuns.Store, blocks: map<nat, nat>,
                    heap: HeapRuns.Store)
    requires OnlyTables(mem, mem', live, live', tabs, tabs') && Apart(live')
    requires forall k | k in tabs' :: tabs'[k] in live' && live'[tabs'[k]] == 1
    requires SlabInv(mem, hhdm, table, cs) && Backed(live, cs) && SlabRuns.Held(cs, mem, slab)
    requires HeapInv(mem, live, blocks) && HeapRuns.Held(mem, blocks, heap)
    requires tabs.Values !! RegionStarts(cs) && tabs.Values !! blocks.Keys
    ensures SlabInv(mem', hhdm, table, cs) && Backed(live', cs) && SlabRuns.Held(cs, mem', slab)
    ensures HeapInv(mem', live', blocks) && HeapRuns.Held(mem', blocks, heap)
    ensures tabs'.Values !! RegionStarts(cs) && tabs'.Values !! blocks.Keys
  {
    VmmSpares(mem, mem', live, live', tabs, tabs');
    SlabSpared(mem, mem', hhdm, table, cs, live, live', tabs.Values, tabs'.Values);
    SlabRuns.SameHeld(cs, mem, mem', slab);
    HeapSpared(mem, mem', live, live', blocks, heap, tabs.Values, tabs'.Values);
  }

  /** One `vmm_map_page`: slabs and heap do not notice. */
  method DoMap(pt: PageTables, sa: SlabAllocator, h: PageHeap, call: Call, ghost w: World, ghost slab: SlabRuns.Store,
               ghost heap: HeapRuns.Store)
    returns (ok: bool)
    requires Knows(pt, sa, h, w, slab, heap) && call.top % 4096 == 0 && pt.IsRoot(call.top / 4096)
    modifies pt, pt.pmm, pt.pmm.bitmap, pt.pmm.ram
    ensures Knows(pt, sa, h, w, slab, heap) && Extends(old(pt.tabs), pt.tabs)
    ensures Updated(pt.la57, old(pt.pmm.ram[..]), pt.pmm.ram[..], old(pt.tabs), call.top / 4096,
                    if ok then [call.req] else [])
    ensures !ok ==> pt.pmm.Exhausted(1)
    ensures OthersNow(pt, sa, heap) == old(OthersNow(pt, sa, heap))
  {
    ghost var past := pt.Now();
    assert InOrder(sa, h, past, w, slab, heap);
    ok := pt.MapPage(call.top, call.req);
    StillKnown(pt, sa, h, past, w, slab, heap);
  }

  /** Slabs, heap and their clients agree with memory and page runs as they were at `past`. */
  ghost predicate InOrder(sa: SlabAllocator, h: PageHeap, past: Snapshot, w: World, slab: SlabRuns.Store,
                          heap: HeapRuns.Store)
    reads sa, h
  {
    && 0 < sa.hhdm && sa.hhdm % 0x4_0000 == 0 && sa.hhdm + 8 * |past.mem| <= 0x1_0000_0000_0000_0000
    && sa.table + 24 * CLASSES <= 0x1_0000_0000_0000_0000 && Stored(sa.slabs, sa.cs) && sa.Ready()
    && SlabInv(past.mem, sa.hhdm, sa.table, sa.cs) && Backed(past.live, sa.cs) && SlabRuns.Held(sa.cs, past.mem, slab)
    && 0 < h.hhdm && h.hhdm % 4096 == 0 && h.hhdm + 8 * |past.mem| <= 0x1_0000_0000_0000_0000
    && HeapInv(past.mem, past.live, h.blocks) && HeapRuns.Held(past.mem, h.blocks, heap)
    && w == World(slab.Keys, heap.Keys)
    && past.tabs.Values !! RegionStarts(sa.cs) && past.tabs.Values !! h.blocks.Keys
       && RegionStarts(sa.cs) !! h.blocks.Keys
  }

  /** They still do when since then only tables were added or written. */
  lemma StillKnown(pt: PageTables, sa: SlabAllocator, h: PageHeap, past: Snapshot, w: World, slab: SlabRuns.Store,
                   heap: HeapRuns.Store)
    requires InOrder(sa, h, past, w, slab, heap) && pt.Valid() && pt.pmm == sa.pmm == h.pmm
    requires OnlyTables(past.mem, pt.pmm.ram[..], past.live, pt.pmm.live, past.tabs, pt.tabs)
    ensures Knows(pt, sa, h, w, slab, heap)
    ensures OthersNow(pt, sa, heap) == Others(past.live, past.tabs, sa.cs, heap.Keys)
  {
    pt.pmm.RunsAreApart();
    VmmSpares(past.mem, pt.pmm.ram[..], past.live, pt.pmm.live, past.tabs, pt.tabs);
    OthersSpared(past.mem, pt.pmm.ram[..], past.live, pt.pmm.live, past.tabs.Values, pt.tabs.Values,
                 RegionStarts(sa.cs), heap.Keys);
    TablesAlone(past.mem, pt.pmm.ram[..], past.live, pt.pmm.live, past.tabs, pt.tabs, sa.hhdm, sa.table, sa.cs, slab,
                h.blocks, heap);
  }

  /** One slab operation: page tables and heap do not notice. */
  method DoSlab(pt: PageTables, sa: SlabAllocator, h: PageHeap, op: SlabRuns.Op, w: World, ghost slab: SlabRuns.Store,
                ghost heap: HeapRuns.Store)
    returns (ok: bool, w': World, ghost slab': SlabRuns.Store)
    requires Knows(pt, sa, h, w, slab, heap) && SlabRuns.OpOk(op)
    modifies sa, sa.pmm`cursor, sa.pmm`live, sa.pmm.bitmap, sa.pmm.ram
    ensures Knows(pt, sa, h, w', slab', heap)
            && SameLeaves(Depth(pt.la57), old(pt.pmm.ram[..]), pt.pmm.ram[..], pt.tabs)
    ensures if ok then SlabRuns.Effect(slab, op, slab') else slab' == slab && SlabRuns.Starved(sa, slab, op)
    ensures OthersNow(pt, sa, heap) == old(OthersNow(pt, sa, heap))
  {
    ghost var mem, live, cs := sa.pmm.ram[..], sa.pmm.live, sa.cs;
    var held;
    ok, held, slab' := SlabRuns.DoOne(sa, op, w.slabHeld, slab);
    w' := World(held, w.heapHeld);
    sa.pmm.RunsAreApart();
    SlabSpares(mem, sa.pmm.ram[..], live, sa.pmm.live, cs, sa.cs);
    VmmSpared(Depth(pt.la57), mem, sa.pmm.ram[..], live, sa.pmm.live, pt.tabs, RegionStarts(cs), RegionStarts(sa.cs));
    HeapSpared(mem, sa.pmm.ram[..], live, sa.pmm.live, h.blocks, heap, RegionStarts(cs), RegionStarts(sa.cs));
    OthersSpared(mem, sa.pmm.ram[..], live, sa.pmm.live, RegionStarts(cs), RegionStarts(sa.cs), pt.tabs.Values,
                 heap.Keys);
  }

  /** One heap operation: page tables and slabs do not notice. */
  method DoHeap(pt: PageTables, sa: SlabAllocator, h: PageHeap, op: HeapRuns.Op, w: World, ghost slab: SlabRuns.Store,
                ghost heap: HeapRuns.Store)
    returns (ok: bool, w': World, ghost heap': HeapRuns.Store)
    requires Knows(pt, sa, h, w, slab, heap) && HeapRuns.OpOk(op)
    modifies h, h.pmm`cursor, h.pmm`live, h.pmm.bitmap, h.pmm.ram
    ensures Knows(pt, sa, h, w', slab, heap')
            && SameLeaves(Depth(pt.la57), old(pt.pmm.ram[..]), pt.pmm.ram[..], pt.tabs)
    ensures if ok then HeapRuns.Effect(heap, op, heap')
            else heap' == heap && pt.pmm.Exhausted(HeapRuns.Demand(heap, op))
    ensures OthersNow(pt, sa, heap') == old(OthersNow(pt, sa, heap))
  {
    ghost var mem, live, mine := h.pmm.ram[..], h.pmm.live, heap.Keys;
    ghost var start, blocks := live - mine, h.blocks;
    OthersAccounted(mem, live, blocks, mine);
    var held;
    ok, held, heap' := HeapRuns.DoOne(h, op, start, w.heapHeld, heap);
    ghost var mine' := heap'.Keys;
    w' := World(w.slabHeld, held);
    HeapSpares(mem, h.pmm.ram[..], live, h.pmm.live, mine, mine', start);
    VmmSpared(Depth(pt.la57), mem, h.pmm.ram[..], live, h.pmm.live, pt.tabs, mine, mine');
    SlabSpared(mem, h.pmm.ram[..], sa.hhdm, sa.table, sa.cs, live, h.pmm.live, mine, mine');
    SlabRuns.SameHeld(sa.cs, mem, h.pmm.ram[..], slab);
    assert BlocksKept(blocks, h.blocks, mine, mine');
    OthersSpared(mem, h.pmm.ram[..], live, h.pmm.live, mine, mine', pt.tabs.Values, RegionStarts(sa.cs));
  }

  // ---- every run ----

  datatype Op = Map(call: Call) | SlabOp(slab: SlabRuns.Op) | HeapOp(heap: HeapRuns.Op)

  /** A call of `vmm_map_page` is on an address space there is; the clients' operations are as their layers demand. */
  ghost predicate OpOk(tabs: TableMap, op: Op) {
    match op
    case Map(call) => call.top % 4096 == 0 && RootKey(call.top / 4096) in tabs
    case SlabOp(o) => SlabRuns.OpOk(o)
    case HeapOp(o) => HeapRuns.OpOk(o)
  }

  /** The operations of each layer, in order. */
  ghost function Calls(ops: seq<Op>): seq<Call> {
    if ops == [] then []
    else Calls(ops[..|ops| - 1]) + (if ops[|ops| - 1].Map? then [ops[|ops| - 1].call] else [])
  }

  ghost function SlabOps(ops: seq<Op>): seq<SlabRuns.Op> {
    if ops == [] then []
    else SlabOps(ops[..|ops| - 1]) + (if ops[|ops| - 1].SlabOp? then [ops[|ops| - 1].slab] else [])
  }

  ghost function HeapOps(ops: seq<Op>): seq<HeapRuns.Op> {
    if ops == [] then []
    else HeapOps(ops[..|ops| - 1]) + (if ops[|ops| - 1].HeapOp? then [ops[|ops| - 1].heap] else [])
  }

  /** The stores of the two clients after each of their operations. */
  datatype Story = Story(slabs: seq<SlabRuns.Store>, heaps: seq<HeapRuns.Store>)

  /** How things were at the start: page tables and memory, what the two clients held, and the runs of nobody here. */
  datatype Past = Past(tables: Snapshot, slab: SlabRuns.Store, heap: HeapRuns.Store, others: set<nat>)

  /** Each layer's part of the operations, as a run of its own, leads to its part of the story. */
  ghost predicate Told(slab: SlabRuns.Store, heap: HeapRuns.Store, ops: seq<Op>, story: Story) {
    SlabRuns.Traces(slab, SlabOps(ops), story.slabs) && HeapRuns.Traces(heap, HeapOps(ops), story.heaps)
  }

  ghost function LastSlab(story: Story): SlabRuns.Store
    requires story.slabs != []
  {
    story.slabs[|story.slabs| - 1]
  }

  ghost function LastHeap(story: Story): HeapRuns.Store
    requires story.heaps != []
  {
    story.heaps[|story.heaps| - 1]
  }

  /** Everything known after `ops`, from `past` on. */
  ghost predicate After(pt: PageTables, sa: SlabAllocator, h: PageHeap, past: Past, ops: seq<Op>, w: World,
                        story: Story)
    reads pt, sa, h, pt.pmm, pt.pmm.bitmap, pt.pmm.ram, sa.pmm, sa.pmm.bitmap, sa.pmm.ram, h.pmm, h.pmm.bitmap,
          h.pmm.ram
  {
    && Told(past.slab, past.heap, ops, story) && Knows(pt, sa, h, w, LastSlab(story), LastHeap(story))
    && OthersNow(pt, sa, LastHeap(story)) == past.others && Extends(past.tables.tabs, pt.tabs)
    && Replayed(pt.la57, past.tables.mem, pt.pmm.ram[..], past.tables.tabs, Calls(ops))
  }

  lemma NextMap(ops: seq<Op>, call: Call)
    ensures Calls(ops + [Map(call)]) == Calls(ops) + [call] && SlabOps(ops + [Map(call)]) == SlabOps(ops)
            && HeapOps(ops + [Map(call)]) == HeapOps(ops)
  {
    assert (ops + [Map(call)])[..|ops|] == ops;
  }

  lemma NextSlab(ops: seq<Op>, o: SlabRuns.Op)
    ensures Calls(ops + [SlabOp(o)]) == Calls(ops) && SlabOps(ops + [SlabOp(o)]) == SlabOps(ops) + [o]
            && HeapOps(ops + [SlabOp(o)]) == HeapOps(ops)
  {
    assert (ops + [SlabOp(o)])[..|ops|] == ops;
  }

  lemma NextHeap(ops: seq<Op>, o: HeapRuns.Op)
    ensures Calls(ops + [HeapOp(o)]) == Calls(ops) && SlabOps(ops + [HeapOp(o)]) == SlabOps(ops)
            && HeapOps(ops + [HeapOp(o)]) == HeapOps(ops) + [o]
  {
    assert (ops + [HeapOp(o)])[..|ops|] == ops;
  }

  lemma ToldSlab(past: Past, ops: seq<Op>, story: Story, o: SlabRuns.Op, slab: SlabRuns.Store) returns (story': Story)
    requires Told(past.slab, past.heap, ops, story) && SlabRuns.Effect(LastSlab(story), o, slab)
    ensures Told(past.slab, past.heap, ops + [SlabOp(o)], story') && Calls(ops + [SlabOp(o)]) == Calls(ops)
    ensures story'.slabs != [] && story'.heaps == story.heaps && LastSlab(story') == slab
  {
    NextSlab(ops, o);
    var slabs := SlabRuns.TraceNext(past.slab, SlabOps(ops), story.slabs, o, slab);
    story' := Story(slabs, story.heaps);
  }

  lemma ToldHeap(past: Past, ops: seq<Op>, story: Story, o: HeapRuns.Op, heap: HeapRuns.Store) returns (story': Story)
    requires Told(past.slab, past.heap, ops, story) && HeapRuns.Effect(LastHeap(story), o, heap)
    ensures Told(past.slab, past.heap, ops + [HeapOp(o)], story') && Calls(ops + [HeapOp(o)]) == Calls(ops)
    ensures story'.heaps != [] && story'.slabs == story.slabs && LastHeap(story') == heap
  {
    NextHeap(ops, o);
    var heaps := HeapRuns.TraceNext(past.heap, HeapOps(ops), story.heaps, o, heap);
    story' := Story(story.slabs, heaps);
  }

  method StepMap(pt: PageTables, sa: SlabAllocator, h: PageHeap, call: Call, ghost past: Past, ghost ops: seq<Op>,
                 ghost w: World, ghost story: Story)
    returns (ok: bool)
    requires After(pt, sa, h, past, ops, w, story) && OpOk(past.tables.tabs, Map(call))
    modifies pt, pt.pmm, pt.pmm.bitmap, pt.pmm.ram
    ensures After(pt, sa, h, past, if ok then ops + [Map(call)] else ops, w, story)
    ensures !ok ==> pt.pmm.Exhausted(1)
  {
    ghost var mem, tabs := pt.pmm.ram[..], pt.tabs;
    NextMap(ops, call);
    ok := DoMap(pt, sa, h, call, w, LastSlab(story), LastHeap(story));
    if ok {
      ReplayedMap(pt.la57, past.tables.mem, mem, pt.pmm.ram[..], past.tables.tabs, tabs, Calls(ops), call);
    } else {
      ReplayedSame(pt.la57, past.tables.mem, mem, pt.pmm.ram[..], past.tables.tabs, tabs, Calls(ops), call.top / 4096);
    }
  }

  method StepSlab(pt: PageTables, sa: SlabAllocator, h: PageHeap, o: SlabRuns.Op, ghost past: Past, ghost ops: seq<Op>,
                  w: World, ghost story: Story)
    returns (ok: bool, w': World, ghost story': Story)
    requires After(pt, sa, h, past, ops, w, story) && SlabRuns.OpOk(o)
    modifies sa, sa.pmm`cursor, sa.pmm`live, sa.pmm.bitmap, sa.pmm.ram
    ensures After(pt, sa, h, past, if ok then ops + [SlabOp(o)] else ops, w', story')
    ensures !ok ==> SlabRuns.Starved(sa, LastSlab(story'), o)
  {
    ghost var mem := pt.pmm.ram[..];
    ghost var slab, slab0, heap0 := map[], LastSlab(story), LastHeap(story);
    ok, w', slab := DoSlab(pt, sa, h, o, w, slab0, heap0);
    ReplayedQuiet(pt.la57, past.tables.mem, mem, pt.pmm.ram[..], past.tables.tabs, pt.tabs, Calls(ops));
    if ok {
      story' := ToldSlab(past, ops, story, o, slab);
    } else {
      story' := story;
    }
  }

  method StepHeap(pt: PageTables, sa: SlabAllocator, h: PageHeap, o: HeapRuns.Op, ghost past: Past, ghost ops: seq<Op>,
                  w: World, ghost story: Story)
    returns (ok: bool, w': World, ghost story': Story)
    requires After(pt, sa, h, past, ops, w, story) && HeapRuns.OpOk(o)
    modifies h, h.pmm`cursor, h.pmm`live, h.pmm.bitmap, h.pmm.ram
    ensures After(pt, sa, h, past, if ok then ops + [HeapOp(o)] else ops, w', story')
    ensures !ok ==> pt.pmm.Exhausted(HeapRuns.Demand(LastHeap(story'), o))
  {
    ghost var mem := pt.pmm.ram[..];
    ghost var heap, slab0, heap0 := map[], LastSlab(story), LastHeap(story);
    ok, w', heap := DoHeap(pt, sa, h, o, w, slab0, heap0);
    ReplayedQuiet(pt.la57, past.tables.mem, mem, pt.pmm.ram[..], past.tables.tabs, pt.tabs, Calls(ops));
    if ok {
      story' := ToldHeap(past, ops, story, o, heap);
    } else {
      story' := story;
    }
  }

  /** Why an operation panics: the page allocator has not the pages it needs, the client's blocks being as told. */
  ghost predicate Starved(pt: PageTables, sa: SlabAllocator, story: Story, op: Op)
    requires story.slabs != [] && story.heaps != []
    reads pt.pmm, pt.pmm.bitmap, sa, sa.pmm, sa.pmm.bitmap
  {
    match op
    case Map(_) => pt.pmm.Exhausted(1)
    case SlabOp(o) => SlabRuns.Starved(sa, LastSlab(story), o)
    case HeapOp(o) => pt.pmm.Exhausted(HeapRuns.Demand(LastHeap(story), o))
  }

  method Step(pt: PageTables, sa: SlabAllocator, h: PageHeap, op: Op, ghost past: Past, ghost ops: seq<Op>, w: World,
              ghost story: Story)
    returns (ok: bool, w': World, ghost story': Story)
    requires After(pt, sa, h, past, ops, w, story) && OpOk(past.tables.tabs, op)
    modifies pt, sa, h, pt.pmm, pt.pmm.bitmap, pt.pmm.ram
    ensures After(pt, sa, h, past, if ok then ops + [op] else ops, w', story')
    ensures !op.Map? ==> pt.tabs == old(pt.tabs)
    ensures !ok ==> Starved(pt, sa, story', op)
  {
    w', story' := w, story;
    match op
    case Map(call) => ok := StepMap(pt, sa, h, call, past, ops, w, story);
    case SlabOp(o) => ok, w', story' := StepSlab(pt, sa, h, o, past, ops, w, story);
    case HeapOp(o) => ok, w', story' := StepHeap(pt, sa, h, o, past, ops, w, story);
  }

  lemma Begun(pt: PageTables, sa: SlabAllocator, h: PageHeap, w: World, slab: SlabRuns.Store, heap: HeapRuns.Store)
    requires Knows(pt, sa, h, w, slab, heap)
    ensures After(pt, sa, h, Past(pt.Now(), slab, heap, OthersNow(pt, sa, heap)), [], w, Story([slab], [heap]))
  {
    var story := Story([slab], [heap]);
    assert LastSlab(story) == slab && LastHeap(story) == heap;
    assert Told(slab, heap, [], story) by {
      NothingTold(slab, heap);
    }
    NothingReplayed(pt.la57, pt.pmm.ram[..], pt.tabs);
  }

  lemma NothingTold(slab: SlabRuns.Store, heap: HeapRuns.Store)
    ensures Told(slab, heap, [], Story([slab], [heap]))
  {}

  lemma NothingReplayed(la57: bool, mem: seq<Word>, tabs: TableMap)
    ensures Replayed(la57, mem, mem, tabs, [])
  {}

  /** Every sequence of operations of the three layers on one page allocator, in any order, up to the first
      out-of-memory panic, from any state in which the layers are in order and whatever their clients hold: the
      walks are as the calls of `vmm_map_page` alone would have left them, the slab client's blocks are those of its
      own operations, the heap client's those of its own, and all three invariants hold. */
  method Run(pt: PageTables, sa: SlabAllocator, h: PageHeap, ops: seq<Op>, w0: World,
             ghost slab: SlabRuns.Store, ghost heap: HeapRuns.Store)
    returns (done: nat, w: World, ghost story: Story)
    requires Knows(pt, sa, h, w0, slab, heap) && forall n | 0 <= n < |ops| :: OpOk(pt.tabs, ops[n])
    modifies pt, sa, h, pt.pmm, pt.pmm.bitmap, pt.pmm.ram
    ensures done <= |ops|
    ensures After(pt, sa, h, Past(old(pt.Now()), slab, heap, old(OthersNow(pt, sa, heap))), ops[..done], w, story)
    ensures done < |ops| ==> Starved(pt, sa, story, ops[done])
    ensures (forall n | 0 <= n < |ops| :: !ops[n].Map?) ==> pt.tabs == old(pt.tabs)
  {
    ghost var past, sofar: seq<Op> := Past(pt.Now(), slab, heap, OthersNow(pt, sa, heap)), [];
    done, w, story := 0, w0, Story([slab], [heap]);
    Begun(pt, sa, h, w0, slab, heap);
    while done < |ops|
      invariant done <= |ops| && sofar == ops[..done] && After(pt, sa, h, past, sofar, w, story)
      invariant (forall n | 0 <= n < |ops| :: !ops[n].Map?) ==> pt.tabs == past.tables.tabs
    {
      var ok;
      ok, w, story := Step(pt, sa, h, ops[done], past, sofar, w, story);
      if !ok {
        break;
      }
      Longer(ops, done);
      sofar := sofar + [ops[done]];
      done := done + 1;
    }
  }

  lemma Longer(ops: seq<Op>, n: nat)
    requires n < |ops|
    ensures ops[..n + 1] == ops[..n] + [ops[n]]
  {}
}
