/** `mm/vmm.c`: page tables built in physical memory from pages of the page allocator. */
module Vmm {
  import opened Bits
  import opened PageRuns
  import opened Paging
  import opened Tables
  import opened Rounding
  import Pmm

  /** A call of `vmm_map_page`. */
  datatype Request = Request(virt: nat, phys: Word, flags: Word)

  class PageTables {
    const pmm: Pmm.PageAllocator
    const la57: bool           // vmm_la57
    ghost var tabs: TableMap

    ghost predicate Valid()
      reads this, pmm, pmm.bitmap, pmm.ram
    {
      && pmm.Valid() && pmm.pageCount <= FRAMES
      && Wf(Depth(la57), pmm.ram[..], tabs)
      && forall k | k in tabs :: tabs[k] in pmm.live && pmm.live[tabs[k]] == 1
    }

    ghost predicate IsRoot(root: nat)
      reads this
    {
      RootKey(root) in tabs
    }

    /** What the walks find: the last-level entry of every path from every root. */
    ghost function LeafAt(root: nat, q: seq<nat>): Word
      requires q != []
      reads pmm.ram
    {
      Leaf(pmm.ram[..], root, q)
    }

    constructor (pmm: Pmm.PageAllocator, la57: bool)
      requires pmm.Valid() && pmm.pageCount <= FRAMES
      ensures Valid() && this.pmm == pmm && this.la57 == la57 && tabs == map[]
    {
      this.pmm, this.la57, tabs := pmm, la57, map[];
    }

    /** A zeroed page of ours that is not a table yet. */
    ghost predicate Blank(f: nat)
      reads this, pmm, pmm.ram
    {
      && f < pmm.pageCount && f in pmm.live && pmm.live[f] == 1 && pmm.ram.Length == pmm.pageCount * 512
      && (forall k | k in tabs :: tabs[k] != f)
      && (forall n: nat | n < 512 :: Entry(pmm.ram[..], f, n) == 0)
    }

    /** `pmm_alloc(1)`: a zeroed page that is no table yet; the tables are untouched. */
    method NewPage() returns (ret: Option<nat>)
      requires Valid()
      modifies pmm, pmm.bitmap, pmm.ram
      ensures Valid()
      ensures forall t: nat | t in old(pmm.live) :: t in pmm.live && pmm.live[t] == old(pmm.live[t])
      ensures ret.None? ==> pmm.ram[..] == old(pmm.ram[..]) && pmm.live == old(pmm.live) && pmm.Exhausted(1)
      ensures ret.Some? ==> forall t: nat | t in pmm.live && t !in old(pmm.live) :: t == ret.value / 4096
      ensures ret.Some? ==> ret.value % 4096 == 0 && Blank(ret.value / 4096) && ret.value / 4096 !in old(pmm.live)
      ensures ret.Some? ==> Outside(old(pmm.ram[..]), pmm.ram[..], {ret.value / 4096})
      ensures SameLeaves(Depth(la57), old(pmm.ram[..]), pmm.ram[..], tabs)
    {
      ghost var mem := pmm.ram[..];
      ret := pmm.TakeZeroed(1);
      if ret.Some? {
        ghost var f := ret.value / 4096;
        ZeroedPage(mem, pmm.ram[..], f);
        OutsideKeeps(Depth(la57), mem, pmm.ram[..], tabs, f);
      }
    }

    /** Stores the pointer to the fresh zeroed page `f` in entry `index` of table `k`. */
    method HangTable(slot: nat, entry: Word, ghost k: Key, ghost index: nat, ghost f: nat)
      requires Valid() && k in tabs && index < 512 && |k.path| + 1 < Depth(la57) && Child(k, index) !in tabs
      requires Blank(f)
      requires slot == tabs[k] * 512 + index && entry == Pointer(f)
      modifies this, pmm.ram
      ensures Valid() && tabs == old(tabs)[Child(k, index) := f]
      ensures Outside(old(pmm.ram[..]), pmm.ram[..], {tabs[k]})
      ensures SameLeaves(Depth(la57), old(pmm.ram[..]), pmm.ram[..], old(tabs))
    {
      ghost var mem := pmm.ram[..];
      pmm.ram[slot] := entry;
      OutsideStore(mem, slot, entry, tabs[k], index);
      AddTable(Depth(la57), mem, pmm.ram[..], tabs, k, index, f);
      tabs := tabs[Child(k, index) := f];
    }

    /** The absent branch of `get_next_level`: allocate a zeroed table and point the entry at it. */
    method AddLevel(slot: nat, ghost k: Key, ghost index: nat) returns (ret: Option<nat>)
      requires Valid() && k in tabs && index < 512 && |k.path| + 1 < Depth(la57) && Child(k, index) !in tabs
      requires slot == tabs[k] * 512 + index
      modifies this, pmm, pmm.bitmap, pmm.ram
      ensures Valid() && OnlyTables(old(pmm.ram[..]), pmm.ram[..], old(pmm.live), pmm.live, old(tabs), tabs)
      ensures ret.Some? ==> Child(k, index) in tabs && ret.value == tabs[Child(k, index)] * 4096
      ensures ret.None? ==> pmm.Exhausted(1)
      ensures SameLeaves(Depth(la57), old(pmm.ram[..]), pmm.ram[..], old(tabs))
    {
      ghost var past := Now();
      ret := NewPage();
      if ret.Some? {
        HangPage(slot, ret.value, k, index, past);
      }
    }

    /** Hangs the new zeroed page there. */
    method HangPage(slot: nat, page: nat, ghost k: Key, ghost index: nat, ghost past: Snapshot)
      requires Valid() && tabs == past.tabs && k in tabs && index < 512 && |k.path| + 1 < Depth(la57)
               && Child(k, index) !in tabs
      requires slot == tabs[k] * 512 + index && page % 4096 == 0 && Blank(page / 4096) && page / 4096 !in past.live
      requires Outside(past.mem, pmm.ram[..], {page / 4096}) && SameLeaves(Depth(la57), past.mem, pmm.ram[..], tabs)
      requires forall t: nat | t in past.live :: t in pmm.live && pmm.live[t] == past.live[t]
      requires forall t: nat | t in pmm.live && t !in past.live :: t == page / 4096
      modifies this, pmm.ram
      ensures Valid() && QuietBetween(Depth(la57), past, Now())
      ensures Child(k, index) in tabs && page == tabs[Child(k, index)] * 4096
    {
      ghost var mem, f := pmm.ram[..], page / 4096;
      var pointer := MakePointer(page);
      HangTable(slot, pointer, k, index, f);
      LevelAdded(Depth(la57), past.mem, mem, pmm.ram[..], past.live, pmm.live, past.tabs, k, index, f);
    }

    /** `get_next_level`: follow entry `index` of the table at `current`. If it is absent, hang a new zeroed table
        there, or return 0 when not to allocate. None is the out-of-memory panic. */
    method GetNextLevel(current: nat, index: nat, allocate: bool, ghost k: Key) returns (ret: Option<nat>)
      requires Valid() && k in tabs && current == tabs[k] * 4096
      requires index < 512 && |k.path| + 1 < Depth(la57)
      modifies this, pmm, pmm.bitmap, pmm.ram
      ensures Valid() && OnlyTables(old(pmm.ram[..]), pmm.ram[..], old(pmm.live), pmm.live, old(tabs), tabs)
      ensures ret.Some? && (allocate || Child(k, index) in old(tabs)) ==>
                Child(k, index) in tabs && ret.value == tabs[Child(k, index)] * 4096
      ensures !allocate && Child(k, index) !in old(tabs) ==> ret == Some(0)
      ensures !allocate ==> tabs == old(tabs) && pmm.ram[..] == old(pmm.ram[..]) && pmm.live == old(pmm.live)
      ensures ret.None? ==> allocate && pmm.Exhausted(1)
      ensures SameLeaves(Depth(la57), old(pmm.ram[..]), pmm.ram[..], old(tabs))
    {
      var slot := current / 8 + index;
      assert slot == tabs[k] * 512 + index;
      var entry := pmm.ram[slot];
      EntryCases(Depth(la57), pmm.ram[..], tabs, k, index);
      if And(entry, 1) != 0 {
        ret := Some(AndNot(entry, FLAGS_MASK));
      } else {
        if !allocate {
          return Some(0);
        }
        ret := AddLevel(slot, k, index);
      }
    }

    ghost function Now(): Snapshot
      reads this, pmm, pmm.ram
    {
      Snapshot(pmm.ram[..], pmm.live, tabs)
    }

    /** Since `past` tables were added, and no walk finds anything different. */
    ghost predicate Quiet(past: Snapshot)
      reads this, pmm, pmm.ram
    {
      QuietBetween(Depth(la57), past, Now())
    }

    /** `kernel_pagemap.top_level = pmm_alloc(1)`: an empty address space. */
    method CreateRoot() returns (ret: Option<nat>)
      requires Valid() && tabs == map[]
      modifies this, pmm, pmm.bitmap, pmm.ram
      ensures Valid() && OnlyTables(old(pmm.ram[..]), pmm.ram[..], old(pmm.live), pmm.live, old(tabs), tabs)
      ensures ret.None? ==> pmm.Exhausted(1)
      ensures ret.Some? ==> ret.value % 4096 == 0 && tabs == map[RootKey(ret.value / 4096) := ret.value / 4096]
      ensures ret.Some? ==> forall q | IsPath(Depth(la57), q) :: LeafAt(ret.value / 4096, q) == 0
    {
      ret := NewPage();
      if ret.Some? {
        ghost var f := ret.value / 4096;
        EmptyRoot(Depth(la57), pmm.ram[..], f);
        tabs := map[RootKey(f) := f];
      }
    }

    /** The loop of `vmm_init` that hangs a table below each of the top-level entries 256..511.
        False is either panic: out of memory, or a table at physical address 0. */
    method FillHigherHalf(top: nat) returns (ok: bool)
      requires Valid() && IsRoot(top / 4096) && top % 4096 == 0
      modifies this, pmm, pmm.bitmap, pmm.ram
      ensures Valid() && Quiet(old(Now())) && (ok ==> AllShared(tabs))
      ensures !ok ==> pmm.Exhausted(1) || NullTable(tabs)
    {
      ghost var past := Now();
      for i := 256 to 512
        invariant Valid() && IsRoot(top / 4096) && Quiet(past) && SharedBelow(tabs, i)
      {
        ok := FillNext(top, i, past);
        if !ok {
          return;
        }
      }
      return true;
    }

    method FillNext(top: nat, i: nat, ghost past: Snapshot) returns (ok: bool)
      requires Valid() && IsRoot(top / 4096) && top % 4096 == 0 && 256 <= i < 512 && Quiet(past)
      requires SharedBelow(tabs, i)
      modifies this, pmm, pmm.bitmap, pmm.ram
      ensures Valid() && IsRoot(top / 4096) && Quiet(past) && (ok ==> SharedBelow(tabs, i + 1))
      ensures !ok ==> pmm.Exhausted(1) || NullTable(tabs)
    {
      ghost var mid := Now();
      var ret := GetNextLevel(top, i, true, RootKey(top / 4096));
      QuietTwice(Depth(la57), past, mid, Now());
      ok := ret.Some? && ret.value != 0;
      assert Child(RootKey(top / 4096), i) == Key(Shared, [i]);
      if ok {
        SharedNext(mid.tabs, tabs, i);
      }
    }

    /** The nested `get_next_level` calls of `vmm_map_page`: down to the last-level table. */
    method Descend(current: nat, path: seq<nat>, ghost k: Key) returns (ret: Option<nat>)
      requires Valid() && k in tabs && current == tabs[k] * 4096
      requires path != [] && InRange(path) && |k.path| + |path| == Depth(la57)
      modifies this, pmm, pmm.bitmap, pmm.ram
      ensures Valid() && OnlyTables(old(pmm.ram[..]), pmm.ram[..], old(pmm.live), pmm.live, old(tabs), tabs)
      ensures ret.Some? ==> Reach(k, path) in tabs && ret.value == tabs[Reach(k, path)] * 4096
      ensures ret.None? ==> pmm.Exhausted(1)
      ensures SameLeaves(Depth(la57), old(pmm.ram[..]), pmm.ram[..], old(tabs))
      decreases |path|
    {
      if |path| == 1 {
        return Some(current);
      }
      ret := GetNextLevel(current, path[0], true, k);
      if ret.Some? {
        ghost var mem, live, mid := pmm.ram[..], pmm.live, tabs;
        ret := Descend(ret.value, path[1..], Child(k, path[0]));
        OnlyTablesTwice(old(pmm.ram[..]), mem, pmm.ram[..], old(pmm.live), live, pmm.live, old(tabs), mid, tabs);
        SameLeavesTwice(Depth(la57), old(pmm.ram[..]), mem, pmm.ram[..], old(tabs), mid);
      }
    }

    /** The last store of `vmm_map_page`. */
    method StoreLeaf(pml1: nat, index: nat, entry: Word, ghost k: Key)
      requires Valid() && k in tabs && index < 512 && |k.path| + 1 == Depth(la57)
      requires pml1 == tabs[k] * 4096
      modifies pmm.ram
      ensures Valid() && Outside(old(pmm.ram[..]), pmm.ram[..], {tabs[k]})
      ensures LeafSet(Depth(la57), old(pmm.ram[..]), pmm.ram[..], tabs, k, index, entry)
    {
      ghost var mem := pmm.ram[..];
      TableWords(pml1, tabs[k]);
      var slot := pml1 / 8 + index;
      pmm.ram[slot] := entry;
      OutsideStore(mem, slot, entry, tabs[k], index);
      SetLeaf(Depth(la57), mem, pmm.ram[..], tabs, k, index, entry);
    }

    /** `vmm_map_page`: afterwards the walk to the page of `virt` finds `phys | flags`, and the walk to
        every other page finds what it found before. False is the out-of-memory panic. */
    method MapPage(top: nat, req: Request) returns (ok: bool)
      requires Valid() && IsRoot(top / 4096) && top % 4096 == 0
      modifies this, pmm, pmm.bitmap, pmm.ram
      ensures Valid() && OnlyTables(old(pmm.ram[..]), pmm.ram[..], old(pmm.live), pmm.live, old(tabs), tabs)
      ensures Updated(la57, old(pmm.ram[..]), pmm.ram[..], old(tabs), top / 4096, if ok then [req] else [])
      ensures ok ==> Merged(Leaf(pmm.ram[..], top / 4096, PathOf(la57, req.virt)), req.phys, req.flags)
      ensures !ok ==> pmm.Exhausted(1)
    {
      ghost var past, root := Now(), top / 4096;
      var path := Indices(la57, req.virt);
      var pml1 := Descend(top, path, RootKey(root));
      ok := pml1.Some?;
      if ok {
        var entry := MakeLeaf(req.phys, req.flags);
        StoreEntry(pml1.value, path, entry, req, root, past);
        MergedLeaf(la57, past.mem, pmm.ram[..], past.tabs, root, req);
      } else {
        UpdatedNothing(la57, past.mem, pmm.ram[..], past.tabs, root);
      }
    }

    /** The end of `vmm_map_page`, once the last-level table is there. */
    method StoreEntry(pml1: nat, path: seq<nat>, entry: Word, ghost req: Request, ghost root: nat,
                      ghost past: Snapshot)
      requires Valid() && Quiet(past) && Wf(Depth(la57), past.mem, past.tabs) && path == PathOf(la57, req.virt)
      requires var k := Reach(RootKey(root), path); k in tabs && pml1 == tabs[k] * 4096
      requires entry == OrWords(req.phys, req.flags)
      modifies pmm.ram
      ensures Valid() && OnlyTables(past.mem, pmm.ram[..], past.live, pmm.live, past.tabs, tabs)
      ensures Updated(la57, past.mem, pmm.ram[..], past.tabs, root, [req])
    {
      ghost var k, mid := Reach(RootKey(root), path), pmm.ram[..];
      ReachFromRoot(root, path);
      StoreLeaf(pml1, path[|path| - 1], entry, k);
      PageMapped(la57, past, mid, pmm.ram[..], pmm.live, tabs, root, req);
    }

    /** Since `past` nothing happened but the requests, made in order on root `root`. */
    ghost predicate Since(past: Snapshot, root: nat, reqs: seq<Request>)
      reads this, pmm, pmm.ram
    {
      Wf(Depth(la57), past.mem, past.tabs) && Between(la57, past, Now(), root, reqs)
    }

    lemma SinceNow(root: nat)
      requires Valid()
      ensures Since(Now(), root, [])
    {
      UpdatedNothing(la57, pmm.ram[..], pmm.ram[..], tabs, root);
    }

    /** One more `vmm_map_page` after the requests made so far. */
    method MapNext(top: nat, req: Request, ghost root: nat, ghost past: Snapshot, ghost reqs: seq<Request>)
      returns (ok: bool)
      requires Valid() && top == 4096 * root && IsRoot(root) && Since(past, root, reqs)
      modifies this, pmm, pmm.bitmap, pmm.ram
      ensures Valid() && IsRoot(root) && Since(past, root, reqs + if ok then [req] else [])
      ensures !ok ==> pmm.Exhausted(1)
    {
      ghost var now := Now();
      assert top / 4096 == root && top % 4096 == 0;
      ok := MapPage(top, req);
      ghost var more := if ok then [req] else [];
      assert Between(la57, now, Now(), root, more);
      SinceTwice(la57, past, now, Now(), root, reqs, more);
    }

    /** One turn of the loop of `MapPages`. */
    method MapNth(top: nat, virt: nat, phys: nat, i: nat, flags: Word,
                  ghost root: nat, ghost n: nat, ghost past: Snapshot, ghost reqs: seq<Request>,
                  ghost sofar: seq<Request>)
      returns (ghost next: seq<Request>, ok: bool)
      requires top == 4096 * root && Valid() && IsRoot(root) && Since(past, root, sofar)
      requires i == 4096 * n && phys + 4096 * (n + 1) <= 0x1_0000_0000_0000_0000
      requires Made(reqs, virt, phys, n, flags, sofar)
      modifies this, pmm, pmm.bitmap, pmm.ram
      ensures Valid() && IsRoot(root) && Since(past, root, next)
      ensures if ok then Made(reqs, virt, phys, n + 1, flags, next) else next == sofar && pmm.Exhausted(1)
    {
      var req := Request(virt + i, phys + i, flags);
      MadeNext(reqs, virt, phys, i, n, flags, sofar);
      ok := MapNext(top, req, root, past, sofar);
      next := sofar + if ok then [req] else [];
    }

    /** The loop of `vmm_map_span` and `map_kernel_span`: page by page from `virt` and `phys` on.
        `done` pages were mapped, all of them unless the allocator panicked. */
    method MapPages(top: nat, virt: nat, phys: nat, length: nat, flags: Word,
                    ghost root: nat, ghost n: nat, ghost past: Snapshot, ghost reqs: seq<Request>)
      returns (ghost done: nat, ghost sofar: seq<Request>, ok: bool)
      requires Valid() && top == 4096 * root && IsRoot(root) && Since(past, root, reqs)
      requires length == 4096 * n && phys + 4096 * n <= 0x1_0000_0000_0000_0000
      modifies this, pmm, pmm.bitmap, pmm.ram
      ensures !ok ==> pmm.Exhausted(1)
      ensures done <= n && (ok ==> done == n) && sofar == reqs + Span(virt, phys, done, flags)
      ensures Valid() && IsRoot(root) && Since(past, root, sofar)
    {
      var i := 0;
      done, sofar, ok := 0, reqs, true;
      while i < length
        invariant i == 4096 * done && done <= n && Made(reqs, virt, phys, done, flags, sofar)
        invariant Valid() && IsRoot(root) && Since(past, root, sofar) && ok
      {
        SpanRoom(phys, i, length, done, n);
        sofar, ok := MapNth(top, virt, phys, i, flags, root, done, past, reqs, sofar);
        if !ok {
          return;
        }
        i, done := i + 4096, done + 1;
      }
    }

    /** `vmm_map_span` */
    method MapSpan(top: nat, virt: nat, phys: nat, len: nat, flags: Word) returns (ghost done: nat, ok: bool)
      requires Valid() && IsRoot(top / 4096) && top % 4096 == 0
      requires phys + len + 4095 < 0x1_0000_0000_0000_0000
      modifies this, pmm, pmm.bitmap, pmm.ram
      ensures Valid()
      ensures !ok ==> pmm.Exhausted(1)
      ensures done <= SpanPages(phys, len) && (ok ==> done == SpanPages(phys, len))
      ensures Since(old(Now()), top / 4096, Span(AlignDown(virt, 4096), AlignDown(phys, 4096), done, flags))
    {
      ghost var root := top / 4096;
      SinceNow(root);
      var alignedPhysTop := AlignUp(phys + len, 4096);
      var alignedPhysBase := AlignDown(phys, 4096);
      var alignedVirtBase := AlignDown(virt, 4096);
      ghost var sofar;
      done, sofar, ok := MapPages(top, alignedVirtBase, alignedPhysBase, alignedPhysTop - alignedPhysBase, flags,
                           root, SpanPages(phys, len), Now(), []);
      assert [] + Span(alignedVirtBase, alignedPhysBase, done, flags)
             == Span(alignedVirtBase, alignedPhysBase, done, flags);
    }
  }

  /** Memory, page runs and tables at one moment. */
  datatype Snapshot = Snapshot(mem: seq<Word>, live: map<nat, nat>, tabs: TableMap)

  /** Between two moments tables were added, and no walk finds anything different. */
  ghost predicate QuietBetween(depth: nat, past: Snapshot, now: Snapshot) {
    && SameLeaves(depth, past.mem, now.mem, past.tabs)
    && OnlyTables(past.mem, now.mem, past.live, now.live, past.tabs, now.tabs)
  }

  lemma QuietTwice(depth: nat, a: Snapshot, b: Snapshot, c: Snapshot)
    requires QuietBetween(depth, a, b) && QuietBetween(depth, b, c)
    ensures QuietBetween(depth, a, c)
  {
    OnlyTablesTwice(a.mem, b.mem, c.mem, a.live, b.live, c.live, a.tabs, b.tabs, c.tabs);
    SameLeavesTwice(depth, a.mem, b.mem, c.mem, a.tabs, b.tabs);
  }

  /** Between two moments nothing happened but the requests, made in order on root `root`. */
  ghost predicate Between(la57: bool, past: Snapshot, now: Snapshot, root: nat, reqs: seq<Request>) {
    && OnlyTables(past.mem, now.mem, past.live, now.live, past.tabs, now.tabs)
    && Updated(la57, past.mem, now.mem, past.tabs, root, reqs)
  }

  lemma SinceTwice(la57: bool, a: Snapshot, b: Snapshot, c: Snapshot, root: nat, first: seq<Request>,
                   second: seq<Request>)
    requires Between(la57, a, b, root, first) && Between(la57, b, c, root, second)
    ensures Between(la57, a, c, root, first + second)
  {
    OnlyTablesTwice(a.mem, b.mem, c.mem, a.live, b.live, c.live, a.tabs, b.tabs, c.tabs);
    UpdatedTwice(la57, a.mem, b.mem, c.mem, a.tabs, b.tabs, root, first, second);
  }

  /** The requests that map `n` pages from `virt` and `phys` on, in order. */
  ghost function Span(virt: nat, phys: nat, n: nat, flags: Word): seq<Request>
    requires phys + 4096 * n <= 0x1_0000_0000_0000_0000
  {
    if n == 0 then []
    else Span(virt, phys, n - 1, flags) + [Request(virt + 4096 * (n - 1), phys + 4096 * (n - 1), flags)]
  }

  /** After `reqs` the first `n` of them. */
  ghost predicate Made(reqs: seq<Request>, virt: nat, phys: nat, n: nat, flags: Word, sofar: seq<Request>)
    requires phys + 4096 * n <= 0x1_0000_0000_0000_0000
  {
    sofar == reqs + Span(virt, phys, n, flags)
  }

  lemma MadeNext(reqs: seq<Request>, virt: nat, phys: nat, i: nat, n: nat, flags: Word, sofar: seq<Request>)
    requires phys + 4096 * (n + 1) <= 0x1_0000_0000_0000_0000 && i == 4096 * n
    requires Made(reqs, virt, phys, n, flags, sofar)
    ensures Made(reqs, virt, phys, n + 1, flags, sofar + [Request(virt + i, phys + i, flags)])
    ensures sofar + [] == sofar
  {
    SpanNext(virt, phys, i, n, flags, reqs);
  }

  lemma SpanNext(virt: nat, phys: nat, i: nat, n: nat, flags: Word, reqs: seq<Request>)
    requires phys + 4096 * (n + 1) <= 0x1_0000_0000_0000_0000 && i == 4096 * n
    ensures reqs + Span(virt, phys, n + 1, flags)
         == reqs + Span(virt, phys, n, flags) + [Request(virt + i, phys + i, flags)]
  {}

  lemma SpanRoom(phys: nat, i: nat, length: nat, done: nat, n: nat)
    requires i == 4096 * done < length == 4096 * n && phys + 4096 * n <= 0x1_0000_0000_0000_0000
    ensures done < n && phys + 4096 * (done + 1) <= 0x1_0000_0000_0000_0000
  {}

  /** The number of pages `vmm_map_span` maps. */
  function SpanPages(phys: nat, len: nat): nat {
    DivRoundup(phys + len, 4096) - phys / 4096
  }

  /** The five masks and shifts of `vmm_map_page`. */
  method Indices(la57: bool, virt: nat) returns (path: seq<nat>)
    ensures path == PathOf(la57, virt)
  {
    IndexMasks(virt);
    var pml5 := And(virt, 0x1ff * 0x1_0000_0000_0000) / 0x1_0000_0000_0000;
    var pml4 := And(virt, 0x1ff * 0x80_0000_0000) / 0x80_0000_0000;
    var pml3 := And(virt, 0x1ff * 0x4000_0000) / 0x4000_0000;
    var pml2 := And(virt, 0x1ff * 0x20_0000) / 0x20_0000;
    var pml1 := And(virt, 0x1ff * 0x1000) / 0x1000;
    path := if la57 then [pml5, pml4, pml3, pml2, pml1] else [pml4, pml3, pml2, pml1];
  }

  /** The entry `vmm_map_page` stores for a page. */
  function OrWords(phys: Word, flags: Word): Word {
    OrWord(phys, flags);
    Or(phys, flags)
  }

  /** Bit by bit, `entry` has the bits of `phys` and of `flags` and no other. */
  ghost predicate Merged(entry: Word, phys: Word, flags: Word) {
    forall k: nat | k < 64 :: entry / Pow2(k) % 2 == 1 <==> phys / Pow2(k) % 2 == 1 || flags / Pow2(k) % 2 == 1
  }

  lemma OrMerges(phys: Word, flags: Word)
    ensures Merged(OrWords(phys, flags), phys, flags)
  {
    forall k: nat | k < 64
      ensures OrWords(phys, flags) / Pow2(k) % 2 == 1 <==> phys / Pow2(k) % 2 == 1 || flags / Pow2(k) % 2 == 1
    {
      OperatorsAre(phys, flags, k);
    }
  }

  lemma MergedLeaf(la57: bool, mem: seq<Word>, mem': seq<Word>, tabs: TableMap, root: nat, req: Request)
    requires Updated(la57, mem, mem', tabs, root, [req]) && RootKey(root) in tabs
    ensures Merged(Leaf(mem', root, PathOf(la57, req.virt)), req.phys, req.flags)
  {
    var p := PathOf(la57, req.virt);
    assert IsPath(Depth(la57), p);
    OrMerges(req.phys, req.flags);
  }

  /** The abstract page map: the entry of the page at place `page` after the requests, made in order
      on root `root`, where it was `before`. */
  ghost function Replay(la57: bool, root: nat, reqs: seq<Request>, page: Key, before: Word): Word
    decreases |reqs|
  {
    if reqs == [] then before
    else
      var last := reqs[|reqs| - 1];
      if KeyFor(root, PathOf(la57, last.virt)) == page then OrWords(last.phys, last.flags)
      else Replay(la57, root, reqs[..|reqs| - 1], page, before)
  }

  /** Every walk in `mem'` finds what replaying the requests on the abstract page map gives. */
  ghost predicate Updated(la57: bool, mem: seq<Word>, mem': seq<Word>, tabs: TableMap, root: nat, reqs: seq<Request>) {
    forall r: nat, q | RootKey(r) in tabs && IsPath(Depth(la57), q) ::
      Leaf(mem', r, q) == Replay(la57, root, reqs, KeyFor(r, q), Leaf(mem, r, q))
  }

  /** `ret | 0b111` */
  method MakePointer(table: nat) returns (entry: Word)
    requires table % 4096 == 0 && table / 4096 < FRAMES
    ensures entry == Pointer(table / 4096)
  {
    OrSmall(table, 7);
    entry := Or(table, 7);
  }

  /** `phys | flags` */
  method MakeLeaf(phys: Word, flags: Word) returns (entry: Word)
    ensures entry == OrWords(phys, flags)
  {
    OrWord(phys, flags);
    entry := Or(phys, flags);
  }

  lemma {:induction false} ReplayTwice(la57: bool, root: nat, first: seq<Request>, second: seq<Request>, page: Key,
                                       before: Word)
    ensures Replay(la57, root, first + second, page, before)
         == Replay(la57, root, second, page, Replay(la57, root, first, page, before))
    decreases |second|
  {
    if second == [] {
      assert first + second == first;
    } else {
      var n := |second| - 1;
      assert (first + second)[..|first| + n] == first + second[..n];
      ReplayTwice(la57, root, first, second[..n], page, before);
    }
  }

  /** Requests made one list after another replay as the concatenated list. */
  lemma UpdatedTwice(la57: bool, a: seq<Word>, b: seq<Word>, c: seq<Word>, tabs: TableMap, tabs': TableMap,
                     root: nat, first: seq<Request>, second: seq<Request>)
    requires Updated(la57, a, b, tabs, root, first) && Updated(la57, b, c, tabs', root, second)
    requires forall k | k in tabs :: k in tabs' && tabs'[k] == tabs[k]
    ensures Updated(la57, a, c, tabs, root, first + second)
  {
    forall r: nat, q | RootKey(r) in tabs && IsPath(Depth(la57), q)
      ensures Leaf(c, r, q) == Replay(la57, root, first + second, KeyFor(r, q), Leaf(a, r, q))
    {
      ReplayTwice(la57, root, first, second, KeyFor(r, q), Leaf(a, r, q));
      assert Leaf(c, r, q) == Replay(la57, root, second, KeyFor(r, q), Leaf(b, r, q));
    }
  }

  /** The top-level entries 256..n-1 have their tables. */
  ghost predicate SharedBelow(tabs: TableMap, n: nat) {
    forall i: nat {:trigger Key(Shared, [i])} | 256 <= i < n :: Key(Shared, [i]) in tabs
  }

  /** The table below one of them is the page at address 0. */
  ghost predicate NullTable(tabs: TableMap) {
    exists i: nat {:trigger Key(Shared, [i])} ::
      256 <= i < 512 && Key(Shared, [i]) in tabs && tabs[Key(Shared, [i])] == 0
  }

  lemma SharedNext(tabs: TableMap, tabs': TableMap, i: nat)
    requires SharedBelow(tabs, i) && Key(Shared, [i]) in tabs' && forall k | k in tabs :: k in tabs'
    ensures SharedBelow(tabs', i + 1)
  {}

  lemma EmptyRoot(depth: nat, mem: seq<Word>, f: nat)
    requires depth > 1 && f < FRAMES && f * 512 + 512 <= |mem| && forall n: nat | n < 512 :: Entry(mem, f, n) == 0
    ensures Wf(depth, mem, map[RootKey(f) := f])
    ensures forall q | IsPath(depth, q) :: Leaf(mem, f, q) == 0
  {
    forall q | IsPath(depth, q) ensures Leaf(mem, f, q) == 0 {
      assert Entry(mem, f, q[0]) == 0;
    }
  }

  lemma UpdatedNothing(la57: bool, mem: seq<Word>, mem': seq<Word>, tabs: TableMap, root: nat)
    requires Wf(Depth(la57), mem, tabs) && SameLeaves(Depth(la57), mem, mem', tabs)
    ensures Updated(la57, mem, mem', tabs, root, [])
  {
    forall r: nat, q | RootKey(r) in tabs && IsPath(Depth(la57), q)
      ensures Leaf(mem', r, q) == Leaf(mem, r, q)
    {
      assert Leaf(mem', tabs[RootKey(r)], q) == Leaf(mem, tabs[RootKey(r)], q);
    }
  }

  lemma UpdatedOne(la57: bool, mem: seq<Word>, mid: seq<Word>, mem': seq<Word>, tabs: TableMap, tabs': TableMap,
                   root: nat, req: Request)
    requires Wf(Depth(la57), mem, tabs) && SameLeaves(Depth(la57), mem, mid, tabs)
    requires forall k | k in tabs :: k in tabs' && tabs'[k] == tabs[k]
    requires var p := PathOf(la57, req.virt);
      LeafSet(Depth(la57), mid, mem', tabs', Reach(RootKey(root), p), p[|p| - 1], OrWords(req.phys, req.flags))
    ensures Updated(la57, mem, mem', tabs, root, [req])
  {
    var p := PathOf(la57, req.virt);
    forall r: nat, q | RootKey(r) in tabs && IsPath(Depth(la57), q)
      ensures Leaf(mem', r, q) == Replay(la57, root, [req], KeyFor(r, q), Leaf(mem, r, q))
    {
      SameEntry(r, q, root, p);
      assert Leaf(mid, tabs[RootKey(r)], q) == Leaf(mem, tabs[RootKey(r)], q);
      assert tabs'[RootKey(r)] == r;
      assert Replay(la57, root, [req], KeyFor(r, q), Leaf(mem, r, q))
          == if KeyFor(root, p) == KeyFor(r, q) then OrWords(req.phys, req.flags) else Leaf(mem, r, q);
    }
  }

  /** The two halves of `vmm_map_page`: tables added, then the last-level entry stored. */
  lemma PageMapped(la57: bool, past: Snapshot, mid: seq<Word>, mem: seq<Word>, live: map<nat, nat>, tabs: TableMap,
                   root: nat, req: Request)
    requires Wf(Depth(la57), past.mem, past.tabs) && SameLeaves(Depth(la57), past.mem, mid, past.tabs)
    requires OnlyTables(past.mem, mid, past.live, live, past.tabs, tabs)
    requires var p := PathOf(la57, req.virt);
      var k := Reach(RootKey(root), p);
      && k in tabs && Outside(mid, mem, {tabs[k]})
      && LeafSet(Depth(la57), mid, mem, tabs, k, p[|p| - 1], OrWords(req.phys, req.flags))
    ensures OnlyTables(past.mem, mem, past.live, live, past.tabs, tabs)
            && Updated(la57, past.mem, mem, past.tabs, root, [req])
  {
    OnlyTablesStore(past.mem, mid, mem, past.live, live, past.tabs, tabs, Reach(RootKey(root), PathOf(la57, req.virt)));
    UpdatedOne(la57, past.mem, mid, mem, past.tabs, tabs, root, req);
  }

  /** Storing `entry` in entry `i` of table `k` changes the walks that end there, and no other. */
  ghost predicate LeafSet(depth: nat, mem: seq<Word>, mem': seq<Word>, tabs: TableMap, k: Key, i: nat, entry: Word) {
    forall j, q | j in tabs && q != [] && |j.path| + |q| == depth && InRange(q) ::
      Leaf(mem', tabs[j], q) == if k == Reach(j, q) && i == q[|q| - 1] then entry else Leaf(mem, tabs[j], q)
  }

  /** Tables and page runs are only added, tables in pages that were not live and no run but for a table, and no page
      outside the tables is written. */
  ghost predicate OnlyTables(mem: seq<Word>, mem': seq<Word>, live: map<nat, nat>, live': map<nat, nat>,
                             tabs: TableMap, tabs': TableMap) {
    && (forall k | k in tabs :: k in tabs' && tabs'[k] == tabs[k])
    && (forall t: nat | t in live :: t in live' && live'[t] == live[t])
    && (forall k | k in tabs' && k !in tabs :: tabs'[k] !in live)
    && (forall t: nat | t in live' && t !in live :: t in tabs'.Values)
    && Outside(mem, mem', tabs'.Values)
  }

  lemma OnlyTablesTwice(a: seq<Word>, b: seq<Word>, c: seq<Word>, la: map<nat, nat>, lb: map<nat, nat>,
                        lc: map<nat, nat>,
                        ta: TableMap, tb: TableMap, tc: TableMap)
    requires OnlyTables(a, b, la, lb, ta, tb) && OnlyTables(b, c, lb, lc, tb, tc)
    ensures OnlyTables(a, c, la, lc, ta, tc)
  {
    forall t: nat | t in lc && t !in la ensures t in tc.Values {
      if t in lb {
        var k :| k in tb && tb[k] == t;
        assert tc[k] == t;
      }
    }
    forall f: nat, n: nat | f * 512 + n < |a| && n < 512 && f !in tc.Values ensures Entry(c, f, n) == Entry(a, f, n) {
      assert forall k | k in tb :: tb[k] == tc[k] && tc[k] in tc.Values;
      assert f !in tb.Values;
      assert Entry(c, f, n) == Entry(b, f, n);
    }
  }

  lemma OnlyTablesStore(a: seq<Word>, b: seq<Word>, c: seq<Word>, la: map<nat, nat>, lb: map<nat, nat>,
                        ta: TableMap, tb: TableMap, k: Key)
    requires OnlyTables(a, b, la, lb, ta, tb) && k in tb && Outside(b, c, {tb[k]})
    ensures OnlyTables(a, c, la, lb, ta, tb)
  {
    forall f: nat, n: nat | f * 512 + n < |a| && n < 512 && f !in tb.Values ensures Entry(c, f, n) == Entry(a, f, n) {
      assert tb[k] in tb.Values;
      assert Entry(c, f, n) == Entry(b, f, n);
    }
  }

  /** No walk from a table of `tabs` finds anything different in `mem'`. */
  ghost predicate SameLeaves(depth: nat, mem: seq<Word>, mem': seq<Word>, tabs: TableMap) {
    forall k, q | k in tabs && q != [] && |k.path| + |q| == depth && InRange(q) ::
      Leaf(mem', tabs[k], q) == Leaf(mem, tabs[k], q)
  }

  lemma SameLeavesTwice(depth: nat, a: seq<Word>, b: seq<Word>, c: seq<Word>, tabs: TableMap, tabs': TableMap)
    requires SameLeaves(depth, a, b, tabs) && SameLeaves(depth, b, c, tabs')
    requires forall k | k in tabs :: k in tabs' && tabs'[k] == tabs[k]
    ensures SameLeaves(depth, a, c, tabs)
  {
    forall k, q | k in tabs && q != [] && |k.path| + |q| == depth && InRange(q)
      ensures Leaf(c, tabs[k], q) == Leaf(a, tabs[k], q)
    {
      assert Leaf(c, tabs'[k], q) == Leaf(b, tabs'[k], q);
    }
  }

  /** The two memories agree on every page whose frame is not in `frames`. */
  ghost predicate Outside(mem: seq<Word>, mem': seq<Word>, frames: set<nat>) {
    |mem'| == |mem| && forall f: nat, n: nat | f * 512 + n < |mem| && n < 512 && f !in frames ::
      Entry(mem', f, n) == Entry(mem, f, n)
  }

  lemma OutsideStore(mem: seq<Word>, slot: nat, v: Word, f: nat, n: nat)
    requires slot == f * 512 + n < |mem| && n < 512
    ensures Outside(mem, mem[slot := v], {f})
  {}

  lemma ZeroedPage(mem: seq<Word>, mem': seq<Word>, f: nat)
    requires f * 512 + 512 <= |mem| && mem' == Pmm.Filled(mem, f * 512, 512, 0)
    ensures Outside(mem, mem', {f}) && forall n: nat | n < 512 :: Entry(mem', f, n) == 0
  {}

  /** Changing one page that is no table changes no walk. */
  lemma OutsideKeeps(depth: nat, mem: seq<Word>, mem': seq<Word>, tabs: TableMap, f: nat)
    requires Wf(depth, mem, tabs) && Outside(mem, mem', {f}) && forall k | k in tabs :: tabs[k] != f
    ensures Wf(depth, mem', tabs) && SameLeaves(depth, mem, mem', tabs)
  {
    AgreeingMemory(depth, mem, mem', tabs);
  }

  lemma OutsideTables(a: seq<Word>, b: seq<Word>, c: seq<Word>, tabs: TableMap, j: Key, k: Key)
    requires j in tabs && k in tabs && Outside(a, b, {tabs[j]}) && Outside(b, c, {tabs[k]})
    ensures Outside(a, c, tabs.Values)
  {
    forall f: nat, n: nat | f * 512 + n < |a| && n < 512 && f !in tabs.Values ensures Entry(c, f, n) == Entry(a, f, n) {
      assert tabs[j] in tabs.Values && tabs[k] in tabs.Values;
      assert Entry(c, f, n) == Entry(b, f, n);
    }
  }

  /** A new page was zeroed and hung below entry `i` of table `k`. */
  lemma LevelAdded(depth: nat, a: seq<Word>, b: seq<Word>, c: seq<Word>, la: map<nat, nat>, lc: map<nat, nat>,
                   tabs: TableMap, k: Key, i: nat, f: nat)
    requires k in tabs && Child(k, i) !in tabs && f !in la && forall t: nat | t in la :: t in lc && lc[t] == la[t]
    requires forall t: nat | t in lc && t !in la :: t == f
    requires Outside(a, b, {f}) && Outside(b, c, {tabs[k]}) && SameLeaves(depth, a, b, tabs)
             && SameLeaves(depth, b, c, tabs)
    ensures OnlyTables(a, c, la, lc, tabs, tabs[Child(k, i) := f]) && SameLeaves(depth, a, c, tabs)
  {
    SameLeavesTwice(depth, a, b, c, tabs, tabs);
    OutsideTables(a, b, c, tabs[Child(k, i) := f], Child(k, i), k);
    assert tabs[Child(k, i) := f][Child(k, i)] == f;
  }

  lemma TableWords(table: nat, f: nat)
    requires table == f * 4096
    ensures table / 8 == f * 512
  {}

  /** What `get_next_level` reads off an entry: present exactly when the next table is there. */
  lemma EntryCases(depth: nat, mem: seq<Word>, tabs: TableMap, k: Key, i: nat)
    requires Wf(depth, mem, tabs) && k in tabs && i < 512 && |k.path| + 1 < depth
    ensures And(Entry(mem, tabs[k], i), 1) != 0 <==> Child(k, i) in tabs
    ensures Child(k, i) in tabs ==> AndNot(Entry(mem, tabs[k], i), FLAGS_MASK) == tabs[Child(k, i)] * 4096
  {
    var c := Child(k, i);
    assert EntryOk(mem, tabs, k, i);
    AndOne(Entry(mem, tabs[k], i));
    if c in tabs {
      PointerRoundTrip(tabs[c]);
    }
  }
}
