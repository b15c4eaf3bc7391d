/** `vmm_init`: the kernel's own address space. */
module VmmInit {
  import opened Bits
  import opened PageRuns
  import opened Rounding
  import opened Boot
  import opened Paging
  import opened Tables
  import opened Vmm
  import opened Spans

  /** Where the bootloader put things: the direct map offset and the kernel's two base addresses. */
  datatype Layout = Layout(hhdm: nat, virtualBase: nat, physicalBase: nat)

  /** The flags of a segment: present, no-execute unless PF_X, writable if PF_W. */
  function SegmentFlags(s: Segment): Word {
    (if s.x then 0 else 0x8000_0000_0000_0000) + (if s.w then 3 else 1)
  }

  /** The flags of a direct-mapped page: present, writable, no-execute, write-combining for framebuffers. */
  function DirectFlags(kind: MemType): Word {
    if kind == Framebuffer then 0x8000_0000_0000_008b else 0x8000_0000_0000_0003
  }

  /** They are what the source or-s together. */
  lemma SegmentFlagsAre(s: Segment)
    ensures var flags := if !s.x then Or(PRESENT, NOEXEC) else PRESENT;
      SegmentFlags(s) == if s.w then Or(flags, WRITABLE) else flags
  {
    FlagWords();
  }

  lemma DirectFlagsAre(kind: MemType)
    ensures DirectFlags(kind) == Or(Or(Or(PRESENT, NOEXEC), WRITABLE), if kind == Framebuffer then WC else 0)
  {
    FlagWords();
    WcFlags();
    WcValue();
    Neutral(0x8000_0000_0000_0003);
  }

  lemma FlagWords()
    ensures Or(1, 0x8000_0000_0000_0000) == 0x8000_0000_0000_0001 && Or(1, 2) == 3
    ensures Or(0x8000_0000_0000_0001, 2) == 0x8000_0000_0000_0003
  {
    assert Pow2(1) == 2;
    Neutral(1);
    assert Or(1, 2) == 3 by { Split(OrOp, 1, 0, 1, 1, 0); }
    assert Or(1, 0x8000_0000_0000_0000) == 0x8000_0000_0000_0001 by { TopBit(OrOp, 0, 1, 1, 0); }
    assert Or(0x8000_0000_0000_0001, 2) == 0x8000_0000_0000_0003 by { TopBit(OrOp, 1, 1, 0, 2); }
  }

  lemma WcFlags()
    ensures Or(0x8000_0000_0000_0003, 0x88) == 0x8000_0000_0000_008b
  {
    LowWc();
    Neutral(1);
    TopBit(OrOp, 1, 3, 0, 0x88);
  }

  lemma LowWc()
    ensures Or(3, 0x88) == 0x8b
  {
    assert Pow2(3) == 8;
    Neutral(3);
    Neutral(0x11);
    Split(OrOp, 3, 0, 3, 0x11, 0);
  }

  /** The rights a flag word carries. */
  ghost predicate Carries(e: Word, w: bool, nx: bool, pat: nat) {
    FlagBits(e) && Present(e) && Writable(e) == w && !User(e) && NoExec(e) == nx && PatIndex(e, false) == pat
  }

  lemma CarriesOne()
    ensures Carries(1, false, false, 0)
  {}

  lemma CarriesThree()
    ensures Carries(3, true, false, 0)
  {}

  lemma CarriesHighOne()
    ensures Carries(0x8000_0000_0000_0001, false, true, 0)
  {}

  lemma CarriesHighThree()
    ensures Carries(0x8000_0000_0000_0003, true, true, 0)
  {}

  lemma CarriesWc()
    ensures Carries(0x8000_0000_0000_008b, true, true, 5)
  {}

  /** The rights the two kinds of flags carry; memory type 5 is write-combining, 0 the default. */
  lemma SegmentRights(s: Segment, phys: nat)
    ensures FlagBits(SegmentFlags(s)) && Present(SegmentFlags(s))
            && Target(phys, SegmentFlags(s)) == Mapped(phys, s.w, false, !s.x, 0)
  {
    CarriesOne();
    CarriesThree();
    CarriesHighOne();
    CarriesHighThree();
    assert Carries(SegmentFlags(s), s.w, !s.x, 0);
  }

  lemma DirectRights(kind: MemType, phys: nat)
    ensures FlagBits(DirectFlags(kind)) && Present(DirectFlags(kind))
            && Target(phys, DirectFlags(kind)) == Mapped(phys, true, false, true, if kind == Framebuffer then 5 else 0)
  {
    CarriesHighThree();
    CarriesWc();
    assert Carries(DirectFlags(kind), true, true, if kind == Framebuffer then 5 else 0);
  }

  predicate DirectMapped(kind: MemType) {
    kind == Usable || kind == BootloaderReclaimable || kind == ExecutableAndModules || kind == Framebuffer
  }

  /** `n` pages to map from `virt` and `phys` on. */
  datatype PageSpan = PageSpan(virt: nat, phys: nat, n: nat, flags: Word)

  /** `(p_vaddr - virtual_base) + physical_base` in 64-bit arithmetic. */
  function SegmentPhys(l: Layout, s: Segment): Word {
    (s.vaddr - l.virtualBase + l.physicalBase) % 0x1_0000_0000_0000_0000
  }

  /** What the loop over the program headers maps for each: nothing unless PT_LOAD. */
  function SegmentSpans(l: Layout, s: Segment): seq<PageSpan> {
    if s.load then [SegmentSpan(l, s)] else []
  }

  function SegmentSpan(l: Layout, s: Segment): PageSpan {
    PageSpan(s.vaddr, SegmentPhys(l, s), DivRoundup(s.memsz, 4096), SegmentFlags(s))
  }

  /** What the loop over the memory map maps for each entry: the direct map of its pages. */
  function EntrySpans(l: Layout, e: MemEntry): seq<PageSpan> {
    if DirectMapped(e.kind) then [EntrySpan(l, e)] else []
  }

  function EntrySpan(l: Layout, e: MemEntry): PageSpan {
    PageSpan(l.hhdm + AlignDown(e.base, 4096), AlignDown(e.base, 4096), SpanPages(e.base, e.length),
             DirectFlags(e.kind))
  }

  function KernelSpans(l: Layout, segs: seq<Segment>): seq<PageSpan> {
    if segs == [] then [] else KernelSpans(l, segs[..|segs| - 1]) + SegmentSpans(l, segs[|segs| - 1])
  }

  function DirectSpans(l: Layout, memmap: seq<MemEntry>): seq<PageSpan> {
    if memmap == [] then [] else DirectSpans(l, memmap[..|memmap| - 1]) + EntrySpans(l, memmap[|memmap| - 1])
  }

  /** The kernel's segments first, then the direct map. */
  function AllSpans(l: Layout, segs: seq<Segment>, memmap: seq<MemEntry>): seq<PageSpan> {
    KernelSpans(l, segs) + DirectSpans(l, memmap)
  }

  /** Page-aligned on both sides, present, physical addresses in range, every virtual address canonical. */
  ghost predicate SpanOk(la57: bool, p: PageSpan) {
    && p.virt % 4096 == 0 && p.phys % 4096 == 0 && p.phys + 4096 * p.n <= 0x10_0000_0000_0000
    && FlagBits(p.flags) && Present(p.flags) && CanonicalSpan(la57, p.virt, p.n)
  }

  ghost predicate SpansOk(la57: bool, spans: seq<PageSpan>) {
    forall i | 0 <= i < |spans| :: SpanOk(la57, spans[i])
  }

  /** No physical address overflows. */
  ghost predicate NoOverflow(spans: seq<PageSpan>) {
    forall i | 0 <= i < |spans| :: spans[i].phys + 4096 * spans[i].n <= 0x1_0000_0000_0000_0000
  }

  ghost function Requests(spans: seq<PageSpan>): seq<Request>
    requires NoOverflow(spans)
  {
    if spans == [] then []
    else
      var p := spans[|spans| - 1];
      Requests(spans[..|spans| - 1]) + Span(p.virt, p.phys, p.n, p.flags)
  }

  lemma {:induction false} RequestsTwice(a: seq<PageSpan>, b: seq<PageSpan>)
    requires NoOverflow(a) && NoOverflow(b)
    ensures NoOverflow(a + b) && Requests(a + b) == Requests(a) + Requests(b)
    decreases |b|
  {
    if b == [] {
      assert a + b == a;
    } else {
      var n, p := |b| - 1, b[|b| - 1];
      RequestsTwice(a, b[..n]);
      OneMoreSpan(a, b);
      assert Requests(a) + (Requests(b[..n]) + Span(p.virt, p.phys, p.n, p.flags))
          == Requests(a) + Requests(b[..n]) + Span(p.virt, p.phys, p.n, p.flags);
    }
  }

  lemma OneMoreSpan(a: seq<PageSpan>, b: seq<PageSpan>)
    requires NoOverflow(a) && NoOverflow(b) && b != [] && NoOverflow(a + b[..|b| - 1])
    ensures var p := b[|b| - 1];
      && NoOverflow(a + b)
      && Requests(a + b) == Requests(a + b[..|b| - 1]) + Span(p.virt, p.phys, p.n, p.flags)
  {
    assert (a + b)[..|a| + |b| - 1] == a + b[..|b| - 1];
  }

  // ---- the loop over the program headers ----

  /** The requests of one of them. */
  ghost function SegmentRequests(l: Layout, s: Segment): seq<Request>
    requires NoOverflow(SegmentSpans(l, s))
  {
    Requests(SegmentSpans(l, s))
  }

  /** The requests of the first `i`, all of which can be made. */
  ghost predicate SegmentsMade(l: Layout, segs: seq<Segment>, i: nat, reqs: seq<Request>)
    requires i <= |segs|
  {
    NoOverflow(KernelSpans(l, segs[..i])) && reqs == Requests(KernelSpans(l, segs[..i]))
  }

  lemma AppendRequests(before: seq<Request>, a: seq<PageSpan>, b: seq<PageSpan>, reqs: seq<Request>)
    requires NoOverflow(a) && NoOverflow(b) && reqs == before + Requests(a)
    ensures NoOverflow(a + b) && reqs + Requests(b) == before + Requests(a + b)
  {
    RequestsTwice(a, b);
  }

  lemma SegmentsNext(l: Layout, segs: seq<Segment>, i: nat, reqs: seq<Request>)
    requires i < |segs| && SegmentsMade(l, segs, i, reqs) && NoOverflow(SegmentSpans(l, segs[i]))
    ensures SegmentsMade(l, segs, i + 1, reqs + SegmentRequests(l, segs[i]))
  {
    KernelSpansNext(l, segs, i);
    AppendRequests([], KernelSpans(l, segs[..i]), SegmentSpans(l, segs[i]), reqs);
  }

  lemma KernelSpansNext(l: Layout, segs: seq<Segment>, i: nat)
    requires i < |segs|
    ensures KernelSpans(l, segs[..i + 1]) == KernelSpans(l, segs[..i]) + SegmentSpans(l, segs[i])
  {
    assert segs[..i + 1][..i] == segs[..i] && segs[..i + 1][i] == segs[i];
  }

  method MapSegments(pt: PageTables, top: nat, l: Layout, segs: seq<Segment>, ghost root: nat, ghost past: Snapshot)
    returns (ghost sofar: seq<Request>, ok: bool)
    requires pt.Valid() && top == 4096 * root && pt.IsRoot(root) && pt.Since(past, root, [])
    requires forall i | 0 <= i < |segs| :: NoOverflow(SegmentSpans(l, segs[i]))
    modifies pt, pt.pmm, pt.pmm.bitmap, pt.pmm.ram
    ensures pt.Valid() && pt.IsRoot(root) && pt.Since(past, root, sofar)
    ensures if ok then SegmentsMade(l, segs, |segs|, sofar) else pt.pmm.Exhausted(1)
  {
    sofar, ok := [], true;
    for i := 0 to |segs|
      invariant SegmentsMade(l, segs, i, sofar) && pt.Valid() && pt.IsRoot(root) && pt.Since(past, root, sofar) && ok
    {
      SegmentsNext(l, segs, i, sofar);
      sofar, ok := MapSegment(pt, top, l, segs[i], root, past, sofar);
      if !ok {
        return;
      }
    }
  }

  /** One turn of it, with `map_kernel_span`. */
  method MapSegment(pt: PageTables, top: nat, l: Layout, s: Segment, ghost root: nat, ghost past: Snapshot,
                    ghost sofar: seq<Request>)
    returns (ghost next: seq<Request>, ok: bool)
    requires top == 4096 * root && pt.Valid() && pt.IsRoot(root) && pt.Since(past, root, sofar)
    requires NoOverflow(SegmentSpans(l, s))
    modifies pt, pt.pmm, pt.pmm.bitmap, pt.pmm.ram
    ensures pt.Valid() && pt.IsRoot(root) && pt.Since(past, root, next)
    ensures if ok then next == sofar + SegmentRequests(l, s) else pt.pmm.Exhausted(1)
  {
    if !s.load {
      assert sofar + [] == sofar;
      return sofar, true;
    }
    var phys, length := SegmentPlace(l, s);
    var flags := SegmentWord(s);
    ghost var p, done := SegmentSpan(l, s), 0;
    OneSegment(l, s);
    done, next, ok := pt.MapPages(top, s.vaddr, phys, length, flags, root, p.n, past, sofar);
  }

  /** Where the segment is in physical memory, and how much of it is mapped. */
  method SegmentPlace(l: Layout, s: Segment) returns (phys: nat, length: nat)
    ensures phys == SegmentSpan(l, s).phys && length == 4096 * SegmentSpan(l, s).n
  {
    phys := (s.vaddr - l.virtualBase + l.physicalBase) % 0x1_0000_0000_0000_0000;
    length := AlignUp(s.memsz, 4096);
  }

  /** The flags the source puts together. */
  method SegmentWord(s: Segment) returns (flags: Word)
    ensures flags == SegmentFlags(s)
  {
    FlagWords();
    flags := PRESENT;
    if !s.x {
      flags := Or(flags, NOEXEC);
    }
    if s.w {
      flags := Or(flags, WRITABLE);
    }
  }

  lemma OneSegment(l: Layout, s: Segment)
    requires s.load && NoOverflow(SegmentSpans(l, s))
    ensures var p := SegmentSpan(l, s);
      && p.phys + 4096 * p.n <= 0x1_0000_0000_0000_0000
      && SegmentRequests(l, s) == Span(p.virt, p.phys, p.n, p.flags)
  {
    var p := SegmentSpan(l, s);
    assert SegmentSpans(l, s) == [p] && [p][..0] == [];
    assert [p][0] == p;
    assert Requests([]) + Span(p.virt, p.phys, p.n, p.flags) == Span(p.virt, p.phys, p.n, p.flags);
  }

  // ---- the loop over the memory map ----

  ghost function EntryRequests(l: Layout, e: MemEntry): seq<Request>
    requires NoOverflow(EntrySpans(l, e))
  {
    Requests(EntrySpans(l, e))
  }

  /** The requests of the first `i` entries, after `before`. */
  ghost predicate EntriesMade(l: Layout, memmap: seq<MemEntry>, i: nat, before: seq<Request>, reqs: seq<Request>)
    requires i <= |memmap|
  {
    NoOverflow(DirectSpans(l, memmap[..i])) && reqs == before + Requests(DirectSpans(l, memmap[..i]))
  }

  lemma EntriesNext(l: Layout, memmap: seq<MemEntry>, i: nat, before: seq<Request>, reqs: seq<Request>)
    requires i < |memmap| && EntriesMade(l, memmap, i, before, reqs) && NoOverflow(EntrySpans(l, memmap[i]))
    ensures EntriesMade(l, memmap, i + 1, before, reqs + EntryRequests(l, memmap[i]))
  {
    DirectSpansNext(l, memmap, i);
    AppendRequests(before, DirectSpans(l, memmap[..i]), EntrySpans(l, memmap[i]), reqs);
  }

  lemma DirectSpansNext(l: Layout, memmap: seq<MemEntry>, i: nat)
    requires i < |memmap|
    ensures DirectSpans(l, memmap[..i + 1]) == DirectSpans(l, memmap[..i]) + EntrySpans(l, memmap[i])
  {
    assert memmap[..i + 1][..i] == memmap[..i] && memmap[..i + 1][i] == memmap[i];
  }

  method MapEntries(pt: PageTables, top: nat, l: Layout, memmap: seq<MemEntry>, ghost root: nat, ghost past: Snapshot,
                    ghost before: seq<Request>)
    returns (ghost sofar: seq<Request>, ok: bool)
    requires pt.Valid() && top == 4096 * root && pt.IsRoot(root) && pt.Since(past, root, before)
    requires forall i | 0 <= i < |memmap| :: NoOverflow(EntrySpans(l, memmap[i]))
    modifies pt, pt.pmm, pt.pmm.bitmap, pt.pmm.ram
    ensures pt.Valid() && pt.IsRoot(root) && pt.Since(past, root, sofar)
    ensures if ok then EntriesMade(l, memmap, |memmap|, before, sofar) else pt.pmm.Exhausted(1)
  {
    sofar, ok := before, true;
    for i := 0 to |memmap|
      invariant EntriesMade(l, memmap, i, before, sofar) && pt.Valid() && pt.IsRoot(root) && pt.Since(past, root, sofar)
      invariant ok
    {
      EntriesNext(l, memmap, i, before, sofar);
      sofar, ok := MapEntry(pt, top, l, memmap[i], root, past, sofar);
      if !ok {
        return;
      }
    }
  }

  /** One turn of it. */
  method MapEntry(pt: PageTables, top: nat, l: Layout, e: MemEntry, ghost root: nat, ghost past: Snapshot,
                  ghost sofar: seq<Request>)
    returns (ghost next: seq<Request>, ok: bool)
    requires top == 4096 * root && pt.Valid() && pt.IsRoot(root) && pt.Since(past, root, sofar)
    requires NoOverflow(EntrySpans(l, e))
    modifies pt, pt.pmm, pt.pmm.bitmap, pt.pmm.ram
    ensures pt.Valid() && pt.IsRoot(root) && pt.Since(past, root, next)
    ensures if ok then next == sofar + EntryRequests(l, e) else pt.pmm.Exhausted(1)
  {
    if e.kind != Usable && e.kind != BootloaderReclaimable && e.kind != ExecutableAndModules && e.kind != Framebuffer {
      assert sofar + [] == sofar;
      return sofar, true;
    }
    var base, length := EntryPlace(l, e);
    var flags := EntryWord(e.kind);
    ghost var p, done := EntrySpan(l, e), 0;
    OneEntry(l, e);
    done, next, ok := pt.MapPages(top, base + l.hhdm, base, length, flags, root, p.n, past, sofar);
  }

  /** The pages the entry has bytes in. */
  method EntryPlace(l: Layout, e: MemEntry) returns (base: nat, length: nat)
    ensures base == EntrySpan(l, e).phys && base + l.hhdm == EntrySpan(l, e).virt && length == 4096 * EntrySpan(l, e).n
  {
    base := AlignDown(e.base, 4096);
    var end := AlignUp(e.base + e.length, 4096);
    length := end - base;
  }

  method EntryWord(kind: MemType) returns (flags: Word)
    ensures flags == DirectFlags(kind)
  {
    DirectFlagsAre(kind);
    FlagsFit(kind);
    flags := Or(Or(Or(PRESENT, NOEXEC), WRITABLE), if kind == Framebuffer then WC else 0);
  }

  lemma FlagsFit(kind: MemType)
    ensures Or(Or(Or(PRESENT, NOEXEC), WRITABLE), if kind == Framebuffer then WC else 0) < 0x1_0000_0000_0000_0000
  {
    DirectFlagsAre(kind);
  }

  lemma OneEntry(l: Layout, e: MemEntry)
    requires DirectMapped(e.kind) && NoOverflow(EntrySpans(l, e))
    ensures var p := EntrySpan(l, e);
      && p.phys + 4096 * p.n <= 0x1_0000_0000_0000_0000
      && EntryRequests(l, e) == Span(p.virt, p.phys, p.n, p.flags)
  {
    var p := EntrySpan(l, e);
    assert EntrySpans(l, e) == [p] && [p][..0] == [];
    assert [p][0] == p;
    assert Requests([]) + Span(p.virt, p.phys, p.n, p.flags) == Span(p.virt, p.phys, p.n, p.flags);
  }

  /** `vmm_init` after the paging mode is known: a root, the shared half, the kernel, the direct map.
      None is any of its panics. */
  method Init(pt: PageTables, l: Layout, segs: seq<Segment>, memmap: seq<MemEntry>) returns (top: Option<nat>)
    requires pt.Valid() && pt.tabs == map[]
    requires NoOverflow(AllSpans(l, segs, memmap))
    modifies pt, pt.pmm, pt.pmm.bitmap, pt.pmm.ram
    ensures pt.Valid()
    ensures OnlyTables(old(pt.pmm.ram[..]), pt.pmm.ram[..], old(pt.pmm.live), pt.pmm.live, old(pt.tabs), pt.tabs)
    ensures top.None? ==> pt.pmm.Exhausted(1) || NullTable(pt.tabs)
    ensures top.Some? ==> pt.IsRoot(top.value / 4096) && AllShared(pt.tabs)
    ensures top.Some? ==> LeavesAre(pt.la57, pt.pmm.ram[..], top.value / 4096, Requests(AllSpans(l, segs, memmap)))
  {
    ghost var start := pt.Now();
    top := SharedRoot(pt);
    if top.Some? {
      ghost var past, root := pt.Now(), top.value / 4096;
      pt.SinceNow(root);
      var ok := MapAll(pt, top.value, l, segs, memmap, root, past);
      TablesSince(start, past, pt.Now());
      if !ok {
        return None;
      }
      assert pt.Since(past, root, Requests(AllSpans(l, segs, memmap)));
    }
  }

  /** Both loops. */
  method MapAll(pt: PageTables, top: nat, l: Layout, segs: seq<Segment>, memmap: seq<MemEntry>, ghost root: nat,
                ghost past: Snapshot)
    returns (ok: bool)
    requires pt.Valid() && top == 4096 * root && pt.IsRoot(root) && pt.Since(past, root, [])
    requires NoOverflow(AllSpans(l, segs, memmap))
    modifies pt, pt.pmm, pt.pmm.bitmap, pt.pmm.ram
    ensures pt.Valid() && pt.IsRoot(root)
    ensures OnlyTables(past.mem, pt.pmm.ram[..], past.live, pt.pmm.live, past.tabs, pt.tabs)
    ensures if ok then pt.Since(past, root, Requests(AllSpans(l, segs, memmap))) else pt.pmm.Exhausted(1)
  {
    ghost var first, second;
    EachFits(l, segs, memmap);
    first, ok := MapSegments(pt, top, l, segs, root, past);
    if ok {
      second, ok := MapEntries(pt, top, l, memmap, root, past, first);
      if ok {
        AllMade(l, segs, memmap, first, second);
      }
    }
  }

  lemma AllMade(l: Layout, segs: seq<Segment>, memmap: seq<MemEntry>, first: seq<Request>, second: seq<Request>)
    requires SegmentsMade(l, segs, |segs|, first) && EntriesMade(l, memmap, |memmap|, first, second)
    ensures NoOverflow(AllSpans(l, segs, memmap)) && second == Requests(AllSpans(l, segs, memmap))
  {
    assert segs[..|segs|] == segs && memmap[..|memmap|] == memmap;
    RequestsTwice(KernelSpans(l, segs), DirectSpans(l, memmap));
  }

  /** None of the spans of a segment or an entry overflows when none at all does. */
  lemma EachFits(l: Layout, segs: seq<Segment>, memmap: seq<MemEntry>)
    requires NoOverflow(AllSpans(l, segs, memmap))
    ensures forall i | 0 <= i < |segs| :: NoOverflow(SegmentSpans(l, segs[i]))
    ensures forall i | 0 <= i < |memmap| :: NoOverflow(EntrySpans(l, memmap[i]))
  {
    var all := AllSpans(l, segs, memmap);
    KernelSpansAre(l, segs);
    DirectSpansAre(l, memmap);
    assert forall p | p in all :: p.phys + 4096 * p.n <= 0x1_0000_0000_0000_0000;
    forall i | 0 <= i < |segs| ensures NoOverflow(SegmentSpans(l, segs[i])) {
      assert segs[i].load ==> SegmentSpan(l, segs[i]) in KernelSpans(l, segs) && SegmentSpan(l, segs[i]) in all;
    }
    forall i | 0 <= i < |memmap| ensures NoOverflow(EntrySpans(l, memmap[i])) {
      assert DirectMapped(memmap[i].kind) ==>
               EntrySpan(l, memmap[i]) in DirectSpans(l, memmap) && EntrySpan(l, memmap[i]) in all;
    }
  }

  /** A root whose higher half is filled in and which maps nothing. */
  method SharedRoot(pt: PageTables) returns (top: Option<nat>)
    requires pt.Valid() && pt.tabs == map[]
    modifies pt, pt.pmm, pt.pmm.bitmap, pt.pmm.ram
    ensures pt.Valid()
    ensures OnlyTables(old(pt.pmm.ram[..]), pt.pmm.ram[..], old(pt.pmm.live), pt.pmm.live, old(pt.tabs), pt.tabs)
    ensures top.None? ==> pt.pmm.Exhausted(1) || NullTable(pt.tabs)
    ensures top.Some? ==> top.value % 4096 == 0 && pt.IsRoot(top.value / 4096) && AllShared(pt.tabs)
    ensures top.Some? ==> LeavesAre(pt.la57, pt.pmm.ram[..], top.value / 4096, [])
  {
    ghost var start := pt.Now();
    top := pt.CreateRoot();
    if top.Some? {
      ghost var past := pt.Now();
      var ok := pt.FillHigherHalf(top.value);
      TablesSince(start, past, pt.Now());
      if !ok {
        return None;
      }
      StillEmpty(pt.la57, past.mem, pt.pmm.ram[..], past.tabs, top.value / 4096);
    }
  }

  lemma TablesSince(a: Snapshot, b: Snapshot, c: Snapshot)
    requires OnlyTables(a.mem, b.mem, a.live, b.live, a.tabs, b.tabs)
             && OnlyTables(b.mem, c.mem, b.live, c.live, b.tabs, c.tabs)
    ensures OnlyTables(a.mem, c.mem, a.live, c.live, a.tabs, c.tabs)
  {
    OnlyTablesTwice(a.mem, b.mem, c.mem, a.live, b.live, c.live, a.tabs, b.tabs, c.tabs);
  }

  lemma StillEmpty(la57: bool, mem: seq<Word>, mem': seq<Word>, tabs: TableMap, root: nat)
    requires RootKey(root) in tabs && tabs[RootKey(root)] == root && SameLeaves(Depth(la57), mem, mem', tabs)
    requires forall q | IsPath(Depth(la57), q) :: Leaf(mem, root, q) == 0
    ensures LeavesAre(la57, mem', root, [])
  {
    forall q | IsPath(Depth(la57), q) ensures Leaf(mem', root, q) == 0 {
      assert Leaf(mem', tabs[RootKey(root)], q) == Leaf(mem, tabs[RootKey(root)], q);
    }
  }

  // ---- what the processor sees afterwards ----

  ghost predicate Covers(p: PageSpan, v: nat) { p.virt <= v < p.virt + 4096 * p.n }

  /** The last span that covers `v`: the one whose mapping stands. */
  ghost function LastCover(spans: seq<PageSpan>, v: nat): (r: Option<PageSpan>)
    ensures r.Some? ==> r.value in spans && Covers(r.value, v)
    ensures r.None? ==> forall p | p in spans :: !Covers(p, v)
  {
    if spans == [] then None
    else if Covers(spans[|spans| - 1], v) then Some(spans[|spans| - 1])
    else LastCover(spans[..|spans| - 1], v)
  }

  /** The entry span `p` gives the page of `v`. */
  ghost function SpanEntry(p: PageSpan, v: nat): Word
    requires Covers(p, v) && p.phys + 4096 * p.n <= 0x1_0000_0000_0000_0000
  {
    OrWords(p.phys + 4096 * ((v - p.virt) / 4096), p.flags)
  }

  lemma ReplayLast(la57: bool, root: nat, reqs: seq<Request>, p: PageSpan, v: nat, before: Word)
    requires SpanOk(la57, p) && Canonical(la57, v)
    ensures Replay(la57, root, reqs + Span(p.virt, p.phys, p.n, p.flags), PageAt(la57, root, v), before)
         == if Covers(p, v) then SpanEntry(p, v) else Replay(la57, root, reqs, PageAt(la57, root, v), before)
  {
    ReplaySpan(la57, root, reqs, p.virt, p.phys, p.n, p.flags, v, before);
  }

  lemma {:induction false} ReplaySpans(la57: bool, root: nat, spans: seq<PageSpan>, v: nat, before: Word)
    requires SpansOk(la57, spans) && NoOverflow(spans) && Canonical(la57, v)
    ensures Replay(la57, root, Requests(spans), PageAt(la57, root, v), before) == FinalEntry(spans, v, before)
  {
    if spans != [] {
      var rest, p := spans[..|spans| - 1], spans[|spans| - 1];
      ReplaySpans(la57, root, rest, v, before);
      ReplayLast(la57, root, Requests(rest), p, v, before);
    }
  }

  /** What the last span covering `v` says of it; a fault when there is none. */
  ghost function Prescribed(spans: seq<PageSpan>, v: nat): Translation {
    var c := LastCover(spans, v);
    if c.Some? then Target(c.value.phys + (v - c.value.virt), c.value.flags) else Fault
  }

  /** After `vmm_init`, exactly: an address translates as the last span covering it says, and faults
      when none does. */
  lemma InitTranslates(la57: bool, mem: seq<Word>, tabs: TableMap, root: nat, spans: seq<PageSpan>, v: nat)
    requires Wf(Depth(la57), mem, tabs) && RootKey(root) in tabs && SpansOk(la57, spans) && NoOverflow(spans)
    requires LeavesAre(la57, mem, root, Requests(spans)) && Canonical(la57, v)
    ensures Translate(la57, mem, root, v) == Prescribed(spans, v)
  {
    TranslateIsReplay(la57, mem, tabs, root, Requests(spans), v);
    ReplaySpans(la57, root, spans, v, 0);
    FinalDecodes(la57, spans, v);
  }

  /** The entry left by the last span covering `v`. */
  ghost function FinalEntry(spans: seq<PageSpan>, v: nat, before: Word): Word
    requires NoOverflow(spans)
  {
    var c := LastCover(spans, v);
    if c.Some? then SpanEntry(c.value, v) else before
  }

  lemma FinalDecodes(la57: bool, spans: seq<PageSpan>, v: nat)
    requires SpansOk(la57, spans) && NoOverflow(spans)
    ensures Decode(FinalEntry(spans, v, 0), v % 4096) == Prescribed(spans, v)
  {
    var c := LastCover(spans, v);
    if c.Some? {
      assert SpanOk(la57, c.value);
      SpanDecodes(la57, c.value, v);
    }
  }

  /** Starting from nothing mapped, the walks find what replaying the requests gives. */
  ghost predicate LeavesAre(la57: bool, mem: seq<Word>, root: nat, reqs: seq<Request>) {
    forall q | IsPath(Depth(la57), q) :: Leaf(mem, root, q) == Replay(la57, root, reqs, KeyFor(root, q), 0)
  }

  lemma TranslateIsReplay(la57: bool, mem: seq<Word>, tabs: TableMap, root: nat, reqs: seq<Request>, v: nat)
    requires Wf(Depth(la57), mem, tabs) && RootKey(root) in tabs && LeavesAre(la57, mem, root, reqs)
             && Canonical(la57, v)
    ensures Translate(la57, mem, root, v) == Decode(Replay(la57, root, reqs, PageAt(la57, root, v), 0), v % 4096)
  {
    TranslateIsLeaf(la57, mem, tabs, root, v);
  }

  lemma SpanDecodes(la57: bool, p: PageSpan, v: nat)
    requires SpanOk(la57, p) && Covers(p, v)
    ensures Decode(SpanEntry(p, v), v % 4096) == Target(p.phys + (v - p.virt), p.flags)
  {
    SpanEntryDecodes(p.virt, p.phys, p.n, p.flags, v);
  }

  lemma {:induction false} LastCoverTwice(first: seq<PageSpan>, second: seq<PageSpan>, v: nat)
    ensures LastCover(first + second, v)
         == if LastCover(second, v).Some? then LastCover(second, v) else LastCover(first, v)
    decreases |second|
  {
    if second == [] {
      assert first + second == first;
    } else {
      assert (first + second)[..|first| + |second| - 1] == first + second[..|second| - 1];
      LastCoverTwice(first, second[..|second| - 1], v);
    }
  }

  lemma {:induction false} DirectSpansAre(l: Layout, memmap: seq<MemEntry>)
    ensures forall e | e in memmap && DirectMapped(e.kind) :: EntrySpan(l, e) in DirectSpans(l, memmap)
  {
    if memmap != [] {
      var rest, e := memmap[..|memmap| - 1], memmap[|memmap| - 1];
      assert memmap == rest + [e];
      DirectSpansAre(l, rest);
    }
  }

  lemma {:induction false} KernelSpansAre(l: Layout, segs: seq<Segment>)
    ensures forall p | p in KernelSpans(l, segs) :: exists i ::
            0 <= i < |segs| && segs[i].load && p == SegmentSpan(l, segs[i])
    ensures forall i | 0 <= i < |segs| && segs[i].load :: SegmentSpan(l, segs[i]) in KernelSpans(l, segs)
  {
    if segs != [] {
      var rest, n := segs[..|segs| - 1], |segs| - 1;
      KernelSpansAre(l, rest);
      forall p | p in KernelSpans(l, segs)
        ensures exists i :: 0 <= i < |segs| && segs[i].load && p == SegmentSpan(l, segs[i])
      {
        if p in KernelSpans(l, rest) {
          var i :| 0 <= i < |rest| && rest[i].load && p == SegmentSpan(l, rest[i]);
          assert segs[i] == rest[i];
        } else {
          assert p == SegmentSpan(l, segs[n]);
        }
      }
      forall i | 0 <= i < |segs| && segs[i].load ensures SegmentSpan(l, segs[i]) in KernelSpans(l, segs) {
        if i < n {
          assert rest[i] == segs[i];
        }
      }
    }
  }

  // ---- in the terms of the bootloader ----

  /** The page of `v`, counted from the start of a PT_LOAD segment, holds a byte of it. */
  ghost predicate InSegment(s: Segment, v: nat) {
    s.load && s.vaddr <= v && (v - s.vaddr) / 4096 * 4096 < s.memsz
  }

  /** The page found at `v` in the direct map holds a byte of the entry, which is usable memory, the bootloader's to
      reclaim, the kernel and its modules, or a framebuffer. */
  ghost predicate InEntry(l: Layout, e: MemEntry, v: nat) {
    && (e.kind == Usable || e.kind == BootloaderReclaimable || e.kind == ExecutableAndModules || e.kind == Framebuffer)
    && l.hhdm <= v && e.base / 4096 <= (v - l.hhdm) / 4096 && (v - l.hhdm) / 4096 * 4096 < e.base + e.length
  }

  lemma SegmentCovers(l: Layout, s: Segment, v: nat)
    ensures s.load && Covers(SegmentSpan(l, s), v) <==> InSegment(s, v)
  {
    RoundingIsTight(s.memsz, 4096);
    if s.vaddr <= v {
      PageBelow(v - s.vaddr, s.memsz);
    }
  }

  lemma EntryCovers(l: Layout, e: MemEntry, v: nat)
    ensures DirectMapped(e.kind) && Covers(EntrySpan(l, e), v) <==> InEntry(l, e, v)
  {
    RoundingIsTight(e.base, 4096);
    if l.hhdm <= v {
      PageBelow(v - l.hhdm, e.base + e.length);
      PageFrom(v - l.hhdm, e.base);
    }
  }

  /** An address is below the rounded-up end exactly when its page starts below the end. */
  lemma PageBelow(a: nat, end: nat)
    ensures a < 4096 * DivRoundup(end, 4096) <==> a / 4096 * 4096 < end
  {
    RoundingIsTight(end, 4096);
    var n := DivRoundup(end, 4096);
    assert a == a / 4096 * 4096 + a % 4096;
  }

  lemma PageFrom(a: nat, base: nat)
    ensures 4096 * (base / 4096) <= a <==> base / 4096 <= a / 4096
  {}

  /** The last segment, and the last entry, that has `v`. */
  ghost predicate LastSegment(segs: seq<Segment>, v: nat, n: nat) {
    n < |segs| && InSegment(segs[n], v) && forall m | n < m < |segs| :: !InSegment(segs[m], v)
  }

  ghost predicate LastEntry(l: Layout, memmap: seq<MemEntry>, v: nat, n: nat) {
    n < |memmap| && InEntry(l, memmap[n], v) && forall m | n < m < |memmap| :: !InEntry(l, memmap[m], v)
  }

  lemma {:induction false} SegmentDecides(l: Layout, segs: seq<Segment>, v: nat)
    ensures forall n: nat | LastSegment(segs, v, n) ::
              LastCover(KernelSpans(l, segs), v) == Some(SegmentSpan(l, segs[n]))
    ensures (forall n | 0 <= n < |segs| :: !InSegment(segs[n], v)) ==> LastCover(KernelSpans(l, segs), v).None?
  {
    if segs != [] {
      var rest, s := segs[..|segs| - 1], segs[|segs| - 1];
      SegmentDecides(l, rest, v);
      SegmentCovers(l, s, v);
      LastCoverTwice(KernelSpans(l, rest), SegmentSpans(l, s), v);
      OneCover(SegmentSpans(l, s), SegmentSpan(l, s), v);
      forall n: nat | LastSegment(segs, v, n)
        ensures LastCover(KernelSpans(l, segs), v) == Some(SegmentSpan(l, segs[n]))
      {
        if n < |rest| {
          assert !InSegment(s, v) && LastSegment(rest, v, n) && rest[n] == segs[n];
        }
      }
      if forall n | 0 <= n < |segs| :: !InSegment(segs[n], v) {
        assert forall n | 0 <= n < |rest| :: rest[n] == segs[n];
      }
    }
  }

  lemma OneCover(spans: seq<PageSpan>, p: PageSpan, v: nat)
    requires spans == [] || spans == [p]
    ensures LastCover(spans, v) == if spans == [p] && Covers(p, v) then Some(p) else None
  {
    if spans == [p] {
      assert [p][..0] == [];
    }
  }

  lemma {:induction false} EntryDecides(l: Layout, memmap: seq<MemEntry>, v: nat)
    ensures forall n: nat | LastEntry(l, memmap, v, n) ::
              LastCover(DirectSpans(l, memmap), v) == Some(EntrySpan(l, memmap[n]))
    ensures (forall n | 0 <= n < |memmap| :: !InEntry(l, memmap[n], v)) ==> LastCover(DirectSpans(l, memmap), v).None?
  {
    if memmap != [] {
      var rest, e := memmap[..|memmap| - 1], memmap[|memmap| - 1];
      EntryDecides(l, rest, v);
      EntryCovers(l, e, v);
      LastCoverTwice(DirectSpans(l, rest), EntrySpans(l, e), v);
      OneCover(EntrySpans(l, e), EntrySpan(l, e), v);
      forall n: nat | LastEntry(l, memmap, v, n)
        ensures LastCover(DirectSpans(l, memmap), v) == Some(EntrySpan(l, memmap[n]))
      {
        if n < |rest| {
          assert !InEntry(l, e, v) && LastEntry(l, rest, v, n) && rest[n] == memmap[n];
        }
      }
      if forall n | 0 <= n < |memmap| :: !InEntry(l, memmap[n], v) {
        assert forall n | 0 <= n < |rest| :: rest[n] == memmap[n];
      }
    }
  }

  /** The physical place of a segment's byte in 64-bit arithmetic: the physical base plus its distance from the virtual
      base. */
  ghost predicate PhysicalPlace(l: Layout, s: Segment, v: nat, a: nat) {
    && (a - (l.physicalBase + v - l.virtualBase)) % 0x1_0000_0000_0000_0000 == 0
    && (0 <= l.physicalBase + s.vaddr - l.virtualBase < 0x1_0000_0000_0000_0000 ==>
          a == l.physicalBase + v - l.virtualBase)
  }

  lemma SegmentPhysIs(l: Layout, s: Segment, v: nat)
    requires s.vaddr <= v
    ensures PhysicalPlace(l, s, v, SegmentPhys(l, s) + (v - s.vaddr))
  {
    var x := s.vaddr - l.virtualBase + l.physicalBase;
    var q := x / 0x1_0000_0000_0000_0000;
    assert x == q * 0x1_0000_0000_0000_0000 + SegmentPhys(l, s);
    assert SegmentPhys(l, s) + (v - s.vaddr) - (l.physicalBase + v - l.virtualBase) == -q * 0x1_0000_0000_0000_0000;
    MultipleOf(-q);
  }

  lemma MultipleOf(q: int)
    ensures (q * 0x1_0000_0000_0000_0000) % 0x1_0000_0000_0000_0000 == 0
  {}

  /** What `vmm_init` leaves at an address that the memory map has in the direct map: the address less `hhdm`, writable,
      not executable, write-combining exactly when the last entry that has it is a framebuffer. */
  lemma DirectSpace(la57: bool, mem: seq<Word>, tabs: TableMap, root: nat, l: Layout, segs: seq<Segment>,
                    memmap: seq<MemEntry>, v: nat, n: nat)
    requires Initialised(la57, mem, tabs, root, l, segs, memmap) && LastEntry(l, memmap, v, n)
    ensures Translate(la57, mem, root, v)
         == Mapped(v - l.hhdm, true, false, true, if memmap[n].kind == Framebuffer then 5 else 0)
  {
    var spans, p := AllSpans(l, segs, memmap), EntrySpan(l, memmap[n]);
    EntryDecides(l, memmap, v);
    LastCoverTwice(KernelSpans(l, segs), DirectSpans(l, memmap), v);
    CoveredIsCanonical(la57, spans, p, v);
    InitTranslates(la57, mem, tabs, root, spans, v);
    DirectRights(memmap[n].kind, v - l.hhdm);
  }

  /** The span that decides there. */
  lemma SegmentStands(l: Layout, segs: seq<Segment>, memmap: seq<MemEntry>, v: nat, n: nat)
    requires LastSegment(segs, v, n) && forall m | 0 <= m < |memmap| :: !InEntry(l, memmap[m], v)
    ensures LastCover(AllSpans(l, segs, memmap), v) == Some(SegmentSpan(l, segs[n]))
  {
    SegmentDecides(l, segs, v);
    EntryDecides(l, memmap, v);
    LastCoverTwice(KernelSpans(l, segs), DirectSpans(l, memmap), v);
  }

  /** At an address of a PT_LOAD segment that is not in the direct map: its physical place, writable exactly when PF_W
      is set and executable exactly when PF_X is, as the last segment that has it says. */
  lemma KernelSpace(la57: bool, mem: seq<Word>, tabs: TableMap, root: nat, l: Layout, segs: seq<Segment>,
                    memmap: seq<MemEntry>, v: nat, n: nat)
    requires Initialised(la57, mem, tabs, root, l, segs, memmap) && LastSegment(segs, v, n)
    requires forall m | 0 <= m < |memmap| :: !InEntry(l, memmap[m], v)
    ensures var t := Translate(la57, mem, root, v);
      && t.Mapped? && PhysicalPlace(l, segs[n], v, t.phys) && t.writable == segs[n].w && !t.user
      && t.noExec == !segs[n].x && t.pat == 0
  {
    var spans, p := AllSpans(l, segs, memmap), SegmentSpan(l, segs[n]);
    SegmentStands(l, segs, memmap, v, n);
    CoveredIsCanonical(la57, spans, p, v);
    InitTranslates(la57, mem, tabs, root, spans, v);
    var a := SegmentPhys(l, segs[n]) + (v - segs[n].vaddr);
    assert Translate(la57, mem, root, v) == Target(a, SegmentFlags(segs[n]));
    SegmentRights(segs[n], a);
    SegmentPhysIs(l, segs[n], v);
  }

  /** And nothing else is mapped. */
  lemma FaultsIff(la57: bool, mem: seq<Word>, tabs: TableMap, root: nat, l: Layout, segs: seq<Segment>,
                  memmap: seq<MemEntry>, v: nat)
    requires Initialised(la57, mem, tabs, root, l, segs, memmap)
    ensures Translate(la57, mem, root, v) == Fault
       <==> (forall m | 0 <= m < |memmap| :: !InEntry(l, memmap[m], v))
            && (forall m | 0 <= m < |segs| :: !InSegment(segs[m], v))
  {
    if m :| 0 <= m < |memmap| && InEntry(l, memmap[m], v) {
      var n := LastEntryOf(l, memmap, v, m);
      DirectSpace(la57, mem, tabs, root, l, segs, memmap, v, n);
    } else if m :| 0 <= m < |segs| && InSegment(segs[m], v) {
      var n := LastSegmentOf(segs, v, m);
      KernelSpace(la57, mem, tabs, root, l, segs, memmap, v, n);
    } else if Canonical(la57, v) {
      SegmentDecides(l, segs, v);
      EntryDecides(l, memmap, v);
      LastCoverTwice(KernelSpans(l, segs), DirectSpans(l, memmap), v);
      InitTranslates(la57, mem, tabs, root, AllSpans(l, segs, memmap), v);
    }
  }

  lemma LastEntryOf(l: Layout, memmap: seq<MemEntry>, v: nat, m: nat) returns (n: nat)
    requires m < |memmap| && InEntry(l, memmap[m], v)
    ensures LastEntry(l, memmap, v, n)
    decreases |memmap| - m
  {
    n := m;
    if k :| m < k < |memmap| && InEntry(l, memmap[k], v) {
      n := LastEntryOf(l, memmap, v, k);
    }
  }

  lemma LastSegmentOf(segs: seq<Segment>, v: nat, m: nat) returns (n: nat)
    requires m < |segs| && InSegment(segs[m], v)
    ensures LastSegment(segs, v, n)
    decreases |segs| - m
  {
    n := m;
    if k :| m < k < |segs| && InSegment(segs[k], v) {
      n := LastSegmentOf(segs, v, k);
    }
  }

  lemma CoveredIsCanonical(la57: bool, spans: seq<PageSpan>, p: PageSpan, v: nat)
    requires SpansOk(la57, spans) && p in spans && Covers(p, v)
    ensures Canonical(la57, v)
  {
    assert SpanOk(la57, p);
  }

  /** Every byte of every usable, reclaimable, executable or framebuffer entry is found at `hhdm` plus its
      own address, writable and not executable; and write-combining exactly when it is in a framebuffer, if no entry of
      the other kind has bytes in the same page. */
  lemma DirectMapHolds(la57: bool, mem: seq<Word>, tabs: TableMap, root: nat, l: Layout, segs: seq<Segment>,
                       memmap: seq<MemEntry>, m: nat, a: nat)
    requires Initialised(la57, mem, tabs, root, l, segs, memmap)
    requires m < |memmap| && memmap[m].base <= a < memmap[m].base + memmap[m].length
    requires memmap[m].kind in {Usable, BootloaderReclaimable, ExecutableAndModules, Framebuffer}
    ensures var t := Translate(la57, mem, root, l.hhdm + a);
      && t.Mapped? && t.phys == a && t.writable && !t.user && t.noExec
      && ((forall n | 0 <= n < |memmap| && InEntry(l, memmap[n], l.hhdm + a) ::
             (memmap[n].kind == Framebuffer) == (memmap[m].kind == Framebuffer)) ==>
           t.pat == if memmap[m].kind == Framebuffer then 5 else 0)
  {
    assert InEntry(l, memmap[m], l.hhdm + a) by {
      PageFrom(a, memmap[m].base);
    }
    var n := LastEntryOf(l, memmap, l.hhdm + a, m);
    DirectSpace(la57, mem, tabs, root, l, segs, memmap, l.hhdm + a, n);
  }

  /** No address is in two segments, or in a segment and in the direct map. */
  ghost predicate Disjoint(l: Layout, segs: seq<Segment>, memmap: seq<MemEntry>) {
    && (forall i, j, v: nat | 0 <= i < j < |segs| :: !(InSegment(segs[i], v) && InSegment(segs[j], v)))
    && (forall i, j, v: nat | 0 <= i < |segs| && 0 <= j < |memmap| ::
          !(InSegment(segs[i], v) && InEntry(l, memmap[j], v)))
  }

  /** Every byte of every PT_LOAD segment is found at its physical place, executable exactly when PF_X is
      set and writable exactly when PF_W is, when segments and direct map do not overlap. */
  lemma KernelMapHolds(la57: bool, mem: seq<Word>, tabs: TableMap, root: nat, l: Layout, segs: seq<Segment>,
                       memmap: seq<MemEntry>, n: nat, b: nat)
    requires Initialised(la57, mem, tabs, root, l, segs, memmap) && Disjoint(l, segs, memmap)
    requires n < |segs| && segs[n].load && b < segs[n].memsz
    ensures var s, t := segs[n], Translate(la57, mem, root, segs[n].vaddr + b);
      && t.Mapped? && t.writable == s.w && !t.user && t.noExec == !s.x && t.pat == 0
      && (0 <= l.physicalBase + s.vaddr - l.virtualBase < 0x1_0000_0000_0000_0000 ==>
            t.phys == l.physicalBase + (s.vaddr + b - l.virtualBase))
      && (t.phys - (l.physicalBase + (s.vaddr + b - l.virtualBase))) % 0x1_0000_0000_0000_0000 == 0
  {
    var v := segs[n].vaddr + b;
    assert InSegment(segs[n], v);
    KernelSpace(la57, mem, tabs, root, l, segs, memmap, v, n);
  }

  /** What `vmm_init` leaves behind, for inputs that are page aligned and in range. */
  ghost predicate Initialised(la57: bool, mem: seq<Word>, tabs: TableMap, root: nat, l: Layout, segs: seq<Segment>,
                              memmap: seq<MemEntry>) {
    var spans := AllSpans(l, segs, memmap);
    && Wf(Depth(la57), mem, tabs) && RootKey(root) in tabs && SpansOk(la57, spans) && NoOverflow(spans)
    && LeavesAre(la57, mem, root, Requests(spans))
  }
}
