/** `pmm_init`: sizing, placing and filling the page bitmap from the bootloader's memory map. */
module PmmInit {
  import opened Bits
  import opened Rounding
  import opened PageRuns
  import opened Boot
  import Bitmap
  import Pmm

  /** The entries whose end counts towards the number of pages. */
  predicate Counted(kind: MemType) {
    kind == Usable || kind == BootloaderReclaimable || kind == ExecutableAndModules
  }

  function EntryTop(e: MemEntry): nat { AlignUp(e.base + e.length, 4096) }

  /** The first loop: the highest page-rounded end of a usable entry, one the bootloader leaves to be reclaimed or one
      of the kernel and its modules. */
  method TopAddress(memmap: seq<MemEntry>) returns (top: nat)
    ensures top % 4096 == 0 && TopIs(memmap, top)
    ensures forall e | e in memmap && (e.kind == Usable || e.kind == BootloaderReclaimable
                                       || e.kind == ExecutableAndModules) :: e.base + e.length <= top
    ensures top != 0 ==>
              exists e :: e in memmap && e.base + e.length <= top < e.base + e.length + 4096
                          && (e.kind == Usable || e.kind == BootloaderReclaimable || e.kind == ExecutableAndModules)
  {
    top := 0;
    for i := 0 to |memmap|
      invariant top % 4096 == 0
      invariant forall j | 0 <= j < i && Counted(memmap[j].kind) :: EntryTop(memmap[j]) <= top
      invariant top != 0 ==> exists j :: 0 <= j < i && Counted(memmap[j].kind) && EntryTop(memmap[j]) == top
    {
      var kind, entryTop := memmap[i].kind, AlignUp(memmap[i].base + memmap[i].length, 4096);
      if kind != Usable && kind != BootloaderReclaimable && kind != ExecutableAndModules {
        continue;
      }
      if entryTop > top {
        top := entryTop;
      }
    }
    TopCovers(memmap, top);
  }

  lemma TopCovers(memmap: seq<MemEntry>, top: nat)
    requires TopIs(memmap, top)
    ensures forall e | e in memmap && Counted(e.kind) :: e.base + e.length <= top
    ensures top != 0 ==>
              exists e :: e in memmap && Counted(e.kind) && e.base + e.length <= top < e.base + e.length + 4096
  {
    forall i | 0 <= i < |memmap|
      ensures memmap[i].base + memmap[i].length <= EntryTop(memmap[i]) < memmap[i].base + memmap[i].length + 4096
    {
      RoundingIsTight(memmap[i].base + memmap[i].length, 4096);
    }
    if top != 0 {
      var i :| 0 <= i < |memmap| && Counted(memmap[i].kind) && EntryTop(memmap[i]) == top;
      assert memmap[i] in memmap;
    }
  }

  /** The page count is the least that covers the usable entries, the ones to be reclaimed from the bootloader and the
      kernel's own; entries of the other five kinds do not touch it. */
  lemma PageCountIff(memmap: seq<MemEntry>, n: nat)
    ensures PageCount(memmap, n) <==>
            && (forall e | e in memmap && (e.kind == Usable || e.kind == BootloaderReclaimable
                                           || e.kind == ExecutableAndModules) :: e.base + e.length <= 4096 * n)
            && (n != 0 ==>
                  exists e :: e in memmap && 4096 * (n - 1) < e.base + e.length
                              && (e.kind == Usable || e.kind == BootloaderReclaimable
                                  || e.kind == ExecutableAndModules))
  {
    if PageCount(memmap, n) {
      TopCovers(memmap, 4096 * n);
    }
    forall i | 0 <= i < |memmap|
      ensures EntryTop(memmap[i]) <= 4096 * n <==> memmap[i].base + memmap[i].length <= 4096 * n
    {
      EntryTopWithin(memmap[i], n);
    }
    forall i | 0 <= i < |memmap| && n != 0
      ensures EntryTop(memmap[i]) <= 4096 * (n - 1) <==> memmap[i].base + memmap[i].length <= 4096 * (n - 1)
    {
      EntryTopWithin(memmap[i], n - 1);
    }
  }

  lemma EntryTopWithin(e: MemEntry, n: nat)
    ensures EntryTop(e) <= 4096 * n <==> e.base + e.length <= 4096 * n
  {
    RoundingIsTight(e.base + e.length, 4096);
  }

  lemma OtherKindsIgnored(before: seq<MemEntry>, e: MemEntry, after: seq<MemEntry>, n: nat)
    requires e.kind in {Reserved, AcpiReclaimable, AcpiNvs, BadMemory, Framebuffer}
    ensures PageCount(before + [e] + after, n) <==> PageCount(before + after, n)
  {
    var all, rest := before + [e] + after, before + after;
    assert forall x :: x in all <==> x in rest || x == e;
    PageCountIff(all, n);
    PageCountIff(rest, n);
  }

  function BitmapSize(pageCount: nat): nat { AlignUp(pageCount / 8, 4096) }

  /** The bitmap takes the least whole pages for `pageCount / 8` bytes, and has a bit for every page
      exactly when the page count modulo 32768 is not 1..7. */
  lemma BitmapCoversIff(pageCount: nat)
    ensures BitmapSize(pageCount) % 4096 == 0 && pageCount / 8 <= BitmapSize(pageCount) < pageCount / 8 + 4096
    ensures pageCount <= 8 * BitmapSize(pageCount) <==> !(1 <= pageCount % 32768 <= 7)
  {
    var q, r := pageCount / 32768, pageCount % 32768;
    assert pageCount == 32768 * q + r;
    assert pageCount / 8 == 4096 * q + r / 8;
    if r < 8 {
      assert BitmapSize(pageCount) == 4096 * q;
    } else {
      assert BitmapSize(pageCount) == 4096 * (q + 1);
    }
  }

  /** A map with one page more than fits a bitmap page: the last page has no bit. */
  lemma LastPageHasNoBit()
    ensures var memmap := [MemEntry(0, 4096 * 32769, Usable)];
      PageCount(memmap, 32769) && Placed(memmap, 32769, 0) && 8 * BitmapSize(32769) == 32768
  {
    var memmap := [MemEntry(0, 4096 * 32769, Usable)];
    assert EntryTop(memmap[0]) == 4096 * 32769;
    assert FirstRoomy(memmap, 0, BitmapSize(32769));
  }

  /** The second loop: the first usable entry longer than the bitmap. */
  method PlaceBitmap(memmap: seq<MemEntry>, size: nat) returns (spot: Option<nat>)
    ensures spot.Some? ==> exists i :: 0 <= i < |memmap| && FirstRoomy(memmap, i, size) && spot.value == memmap[i].base
    ensures spot.None? ==> forall i | 0 <= i < |memmap| :: !Roomy(memmap[i], size)
  {
    for i := 0 to |memmap|
      invariant forall j | 0 <= j < i :: !Roomy(memmap[j], size)
    {
      if memmap[i].kind == Usable {
        if memmap[i].length > size {
          return Some(memmap[i].base);
        }
      }
    }
    return None;
  }

  predicate Roomy(e: MemEntry, size: nat) { e.kind == Usable && e.length > size }

  /** The test that keeps the page-sized piece at address `a` reserved: an end of it lies in the bitmap. */
  predicate Skipped(a: nat, bitmap: nat, size: nat) {
    bitmap <= a < bitmap + size || bitmap < a + 4096 <= bitmap + size
  }

  /** One of the first `n` pieces of the entry frees page `p`. */
  ghost predicate FreesBelow(e: MemEntry, bitmap: nat, size: nat, p: nat, n: nat) {
    exists k: nat :: k < n && FreesAt(e, bitmap, size, p, k)
  }

  predicate FreesAt(e: MemEntry, bitmap: nat, size: nat, p: nat, k: nat) {
    4096 * k < e.length && (e.base + 4096 * k) / 4096 == p && !Skipped(e.base + 4096 * k, bitmap, size)
  }

  /** The usable entry frees page `p`. */
  ghost predicate Frees(e: MemEntry, bitmap: nat, size: nat, p: nat) {
    e.kind == Usable && exists k: nat :: FreesAt(e, bitmap, size, p, k)
  }

  /** The pages `pmm_init` frees because of the first `n` entries. */
  ghost predicate FreedBy(memmap: seq<MemEntry>, n: nat, bitmap: nat, size: nat, p: nat)
    requires n <= |memmap|
  {
    exists i :: 0 <= i < n && Frees(memmap[i], bitmap, size, p)
  }

  /** Page `p` lies in the bitmap's own storage, or in the entry. */
  predicate InStorage(p: nat, bitmap: nat, size: nat) { bitmap <= 4096 * p < bitmap + size }

  predicate InEntry(p: nat, e: MemEntry) { e.kind == Usable && e.base <= 4096 * p < e.base + e.length }

  /** A page-aligned entry frees exactly its pages outside the bitmap. */
  lemma AlignedFrees(e: MemEntry, bitmap: nat, size: nat, p: nat)
    requires e.base % 4096 == 0 && bitmap % 4096 == 0 && size % 4096 == 0
    ensures Frees(e, bitmap, size, p) <==> InEntry(p, e) && !InStorage(p, bitmap, size)
  {
    if k: nat :| FreesAt(e, bitmap, size, p, k) {
      assert e.base + 4096 * k == 4096 * p;
    }
    if InEntry(p, e) && !InStorage(p, bitmap, size) {
      var k := p - e.base / 4096;
      assert e.base + 4096 * k == 4096 * p;
      assert FreesAt(e, bitmap, size, p, k);
    }
  }

  /** Page `p` shares a byte with the bitmap's storage. */
  predicate Overlaps(p: nat, bitmap: nat, size: nat) { 4096 * p < bitmap + size && bitmap < 4096 * p + 4096 }

  /** No entry, aligned or not, frees a page of a page-aligned bitmap. */
  lemma AlignedKept(e: MemEntry, bitmap: nat, size: nat, p: nat)
    requires bitmap % 4096 == 0 && size % 4096 == 0 && Overlaps(p, bitmap, size)
    ensures !Frees(e, bitmap, size, p)
  {
    assert bitmap <= 4096 * p && 4096 * p + 4096 <= bitmap + size;
    forall k: nat | (e.base + 4096 * k) / 4096 == p ensures Skipped(e.base + 4096 * k, bitmap, size) {}
  }

  /** `pmm_init` frees a page with bytes of its own bitmap in it exactly when the entry the bitmap was placed in does
      not start on a page. */
  lemma StorageFreedIff(memmap: seq<MemEntry>, n: nat, size: nat)
    requires n < |memmap| && Roomy(memmap[n], size) && size % 4096 == 0 && size > 0
    ensures var b := memmap[n].base;
      (exists p: nat :: Overlaps(p, b, size) && FreedBy(memmap, |memmap|, b, size, p)) <==> b % 4096 != 0
  {
    var b := memmap[n].base;
    if b % 4096 != 0 {
      TailFreed(memmap[n], size);
      assert FreedBy(memmap, |memmap|, b, size, (b + size) / 4096);
    } else {
      forall p: nat, i | Overlaps(p, b, size) && 0 <= i < |memmap| ensures !Frees(memmap[i], b, size, p) {
        AlignedKept(memmap[i], b, size, p);
      }
    }
  }

  /** Such a map: the second half of the bitmap's page-sized storage lies in page 2, which the second piece of the
      entry frees. It holds the bits of the pages from 16384 on. */
  lemma BitmapPageIsFreed()
    ensures var memmap := [MemEntry(0x1800, 4096 * 30000, Usable)];
      && PageCount(memmap, 30002) && BitmapSize(30002) == 4096 && Roomy(memmap[0], 4096)
      && Overlaps(2, 0x1800, 4096) && FreedBy(memmap, 1, 0x1800, 4096, 2)
  {
    var e := MemEntry(0x1800, 4096 * 30000, Usable);
    var memmap := [e];
    assert EntryTop(memmap[0]) == 4096 * 30002;
    assert FreesAt(e, 0x1800, 4096, 2, 1);
    assert Frees(memmap[0], 0x1800, 4096, 2);
  }

  /** The page the bitmap ends in. */
  lemma TailFreed(e: MemEntry, size: nat)
    requires Roomy(e, size) && size % 4096 == 0 && size > 0 && e.base % 4096 != 0
    ensures var p := (e.base + size) / 4096; Overlaps(p, e.base, size) && Frees(e, e.base, size, p)
  {
    var k := size / 4096;
    assert 4096 * k == size;
    assert FreesAt(e, e.base, size, (e.base + size) / 4096, k);
  }

  /** The third loop for one usable entry: the pieces free their pages, one after another. */
  method FreeEntry(bits: array<bv8>, e: MemEntry, bitmap: nat, size: nat)
    requires e.kind == Usable && e.base + e.length <= 4096 * 8 * bits.Length
    modifies bits
    ensures forall p: nat | p < 8 * bits.Length ::
              Bitmap.Test(bits[..], p) == (Bitmap.Test(old(bits[..]), p) && !Frees(e, bitmap, size, p))
  {
    var j := 0;
    ghost var k: nat := 0;
    while j < e.length
      invariant j == 4096 * k
      invariant forall p: nat | p < 8 * bits.Length ::
                  Bitmap.Test(bits[..], p) == (Bitmap.Test(old(bits[..]), p) && !FreesBelow(e, bitmap, size, p, k))
    {
      var base := e.base + j;
      var top := base + 4096;
      if !((bitmap <= base < bitmap + size) || (bitmap < top <= bitmap + size)) {
        Bitmap.BitReset(bits, base / 4096);
      }
      NextPiece(e, bitmap, size, k);
      j, k := j + 4096, k + 1;
    }
    AllPieces(e, bitmap, size, k);
  }

  lemma NextPiece(e: MemEntry, bitmap: nat, size: nat, k: nat)
    ensures forall p: nat :: FreesBelow(e, bitmap, size, p, k + 1) <==>
            FreesBelow(e, bitmap, size, p, k) || FreesAt(e, bitmap, size, p, k)
  {}

  lemma AllPieces(e: MemEntry, bitmap: nat, size: nat, n: nat)
    requires e.kind == Usable && 4096 * n >= e.length
    ensures forall p: nat :: FreesBelow(e, bitmap, size, p, n) <==> Frees(e, bitmap, size, p)
  {}

  /** The third loop: a page ends up free exactly when a piece of a usable entry frees it. */
  method FreeUsable(bits: array<bv8>, memmap: seq<MemEntry>, bitmap: nat, size: nat)
    requires forall i | 0 <= i < |memmap| && memmap[i].kind == Usable ::
             memmap[i].base + memmap[i].length <= 4096 * 8 * bits.Length
    requires forall p: nat | p < 8 * bits.Length :: Bitmap.Test(bits[..], p)
    modifies bits
    ensures forall p: nat | p < 8 * bits.Length ::
            Bitmap.Test(bits[..], p) == !FreedBy(memmap, |memmap|, bitmap, size, p)
  {
    for i := 0 to |memmap|
      invariant forall p: nat | p < 8 * bits.Length :: Bitmap.Test(bits[..], p) == !FreedBy(memmap, i, bitmap, size, p)
    {
      if memmap[i].kind == Usable {
        FreeEntry(bits, memmap[i], bitmap, size);
      }
      forall p: nat ensures FreedBy(memmap, i + 1, bitmap, size, p) <==>
        FreedBy(memmap, i, bitmap, size, p) || Frees(memmap[i], bitmap, size, p) {}
    }
  }

  /** `memset(pmm_bitmap, 0xff, bitmap_size)` */
  method AllOnes(size: nat) returns (bits: array<bv8>)
    ensures fresh(bits) && bits.Length == size && forall p: nat | p < 8 * size :: Bitmap.Test(bits[..], p)
  {
    bits := new bv8[size](_ => 0xff);
    forall p: nat | p < 8 * size ensures Bitmap.Test(bits[..], p) {
      Bitmap.MaskValues(p % 8);
    }
  }

  /** How `pmm_init` ends. The source looks for none of the first three: it goes on without a bitmap, past the end
      of one that is too short, or with one whose own pages it is going to hand out. */
  datatype Outcome = NoRoom | ShortBitmap | FreedBitmap | Ready(p: Pmm.PageAllocator, bitmap: nat)

  /** The bootloader's memory map has `n` pages. */
  ghost predicate PageCount(memmap: seq<MemEntry>, n: nat) { TopIs(memmap, 4096 * n) }

  /** The first usable entry longer than the bitmap of `n` pages starts at `b`. */
  ghost predicate Placed(memmap: seq<MemEntry>, n: nat, b: nat) {
    exists i :: 0 <= i < |memmap| && FirstRoomy(memmap, i, BitmapSize(n)) && b == memmap[i].base
  }

  predicate FirstRoomy(memmap: seq<MemEntry>, i: nat, size: nat)
    requires i < |memmap|
  {
    Roomy(memmap[i], size) && forall j | 0 <= j < i :: !Roomy(memmap[j], size)
  }

  /** The memory maps `pmm_init` cannot work with: no room for the bitmap; a bitmap that is too short; one that does not
      start on a page. */
  ghost predicate Roomless(memmap: seq<MemEntry>) {
    exists n: nat :: PageCount(memmap, n) && forall b: nat :: !Placed(memmap, n, b)
  }

  ghost predicate Uncovered(memmap: seq<MemEntry>) { exists n: nat :: PageCount(memmap, n) && 1 <= n % 32768 <= 7 }

  ghost predicate Unaligned(memmap: seq<MemEntry>) {
    exists n: nat, b: nat :: PageCount(memmap, n) && Placed(memmap, n, b) && b % 4096 != 0
  }

  /** A memory map `pmm_init` can work with: there is room for the bitmap, on a page boundary, and it is long enough. */
  ghost predicate Boots(memmap: seq<MemEntry>) {
    exists n: nat, b: nat :: PageCount(memmap, n) && Placed(memmap, n, b) && b % 4096 == 0 && !(1 <= n % 32768 <= 7)
  }

  /** `pmm_init`: exactly when it can go on, every page is reserved but the ones it frees, among the reserved ones all
      pages with bytes of the bitmap in them, nothing is live, and the allocator invariant holds. The memory it manages
      has arbitrary contents. */
  method Init(memmap: seq<MemEntry>) returns (r: Outcome)
    ensures r.NoRoom? <==> Roomless(memmap)
    ensures r.ShortBitmap? <==> !Roomless(memmap) && Uncovered(memmap)
    ensures r.FreedBitmap? <==> !Roomless(memmap) && !Uncovered(memmap) && Unaligned(memmap)
    ensures r.Ready? <==> Boots(memmap)
    ensures r.Ready? ==> r.p.Valid() && fresh(r.p) && fresh(r.p.bitmap) && fresh(r.p.ram)
    ensures r.Ready? ==> r.p.live == map[] && r.p.cursor == 0 && PageCount(memmap, r.p.pageCount)
    ensures r.Ready? ==> Placed(memmap, r.p.pageCount, r.bitmap) && r.bitmap % 4096 == 0
    ensures r.Ready? ==> Left(memmap, r.p.pageCount, r.bitmap, r.p.reserved)
    ensures r.Ready? ==> forall i: nat | i < r.p.pageCount ::
              Overlaps(i, r.bitmap, BitmapSize(r.p.pageCount)) ==> i in r.p.reserved
  {
    var pageCount := CountPages(memmap);
    var size := BitmapSize(pageCount);
    var spot := PlaceBitmap(memmap, size);
    if spot.None? {
      NoPlace(memmap, pageCount);
      return NoRoom;
    }
    var b := spot.value;
    Verdict(memmap, pageCount, b);
    if 8 * size < pageCount {
      return ShortBitmap;
    }
    if b % 4096 != 0 {
      return FreedBitmap;
    }
    var p := Build(memmap, pageCount, size, b);
    BitmapKept(memmap, b, pageCount);
    r := Ready(p, b);
  }

  /** `pmm_avl_page_count` */
  method CountPages(memmap: seq<MemEntry>) returns (n: nat)
    ensures PageCount(memmap, n)
  {
    var top := TopAddress(memmap);
    n := DivRoundup(top, 4096);
    assert top == 4096 * n;
  }

  lemma NoPlace(memmap: seq<MemEntry>, n: nat)
    requires PageCount(memmap, n) && forall i | 0 <= i < |memmap| :: !Roomy(memmap[i], BitmapSize(n))
    ensures Roomless(memmap) && !Boots(memmap)
  {
    OnePageCount(memmap, n);
    assert forall b: nat :: !Placed(memmap, n, b);
  }

  /** The page count and the place of the bitmap decide. */
  lemma Verdict(memmap: seq<MemEntry>, n: nat, b: nat)
    requires PageCount(memmap, n) && Placed(memmap, n, b)
    ensures !Roomless(memmap) && (Uncovered(memmap) <==> 8 * BitmapSize(n) < n)
    ensures Unaligned(memmap) <==> b % 4096 != 0
    ensures Boots(memmap) <==> !Uncovered(memmap) && !Unaligned(memmap)
  {
    OnePageCount(memmap, n);
    OnePlace(memmap, n, b);
    BitmapCoversIff(n);
  }

  lemma OnePlace(memmap: seq<MemEntry>, n: nat, b: nat)
    requires Placed(memmap, n, b)
    ensures forall c: nat | Placed(memmap, n, c) :: c == b
  {}

  /** Nothing frees a page of a bitmap that starts on a page. */
  lemma BitmapKept(memmap: seq<MemEntry>, b: nat, n: nat)
    requires b % 4096 == 0
    ensures forall p: nat | Overlaps(p, b, BitmapSize(n)) :: !FreedBy(memmap, |memmap|, b, BitmapSize(n), p)
  {
    var size := BitmapSize(n);
    forall p: nat, i | Overlaps(p, b, size) && 0 <= i < |memmap| ensures !Frees(memmap[i], b, size, p) {
      AlignedKept(memmap[i], b, size, p);
    }
  }

  lemma OnePageCount(memmap: seq<MemEntry>, n: nat)
    requires PageCount(memmap, n)
    ensures forall m: nat | PageCount(memmap, m) :: m == n
  {}

  /** The bitmap for `pageCount` pages in `size` bytes at `bitmap`, and the allocator over it. */
  method Build(memmap: seq<MemEntry>, pageCount: nat, size: nat, bitmap: nat) returns (p: Pmm.PageAllocator)
    requires pageCount <= 8 * size && PageCount(memmap, pageCount)
    ensures p.Valid() && fresh(p) && fresh(p.bitmap) && fresh(p.ram)
    ensures p.live == map[] && p.cursor == 0 && p.pageCount == pageCount
    ensures forall i: nat | i < pageCount :: i in p.reserved <==> !FreedBy(memmap, |memmap|, bitmap, size, i)
  {
    var bits := AllOnes(size);
    forall i | 0 <= i < |memmap| && memmap[i].kind == Usable
      ensures memmap[i].base + memmap[i].length <= 4096 * 8 * bits.Length
    {
      RoundingIsTight(memmap[i].base + memmap[i].length, 4096);
    }
    FreeUsable(bits, memmap, bitmap, size);
    var ram := new Word[512 * pageCount];
    p := new Pmm.PageAllocator(ram, bits, pageCount);
  }

  /** With page-aligned entries, as the bootloader promises for usable ones: a page is free exactly when it lies in a
      usable entry and not in the bitmap. */
  lemma AlignedFreedIff(memmap: seq<MemEntry>, bitmap: nat, size: nat, p: nat)
    requires forall i | 0 <= i < |memmap| && memmap[i].kind == Usable :: memmap[i].base % 4096 == 0
    requires bitmap % 4096 == 0 && size % 4096 == 0
    ensures FreedBy(memmap, |memmap|, bitmap, size, p)
       <==> !InStorage(p, bitmap, size) && exists i :: 0 <= i < |memmap| && InEntry(p, memmap[i])
  {
    forall i | 0 <= i < |memmap|
      ensures Frees(memmap[i], bitmap, size, p) <==> InEntry(p, memmap[i]) && !InStorage(p, bitmap, size)
    {
      if memmap[i].kind == Usable {
        AlignedFrees(memmap[i], bitmap, size, p);
      }
    }
  }

  /** `top` is the highest page-rounded end of a counted entry, 0 if there is none. */
  ghost predicate TopIs(memmap: seq<MemEntry>, top: nat) {
    && (forall i | 0 <= i < |memmap| && Counted(memmap[i].kind) :: EntryTop(memmap[i]) <= top)
    && (top != 0 ==> exists i :: 0 <= i < |memmap| && Counted(memmap[i].kind) && EntryTop(memmap[i]) == top)
  }

  /** `pmm_init` left `n` pages, all reserved but the ones freed for the bitmap at `b`. */
  ghost predicate Left(memmap: seq<MemEntry>, n: nat, b: nat, reserved: set<nat>) {
    && PageCount(memmap, n) && (forall i | i in reserved :: i < n)
    && forall i: nat | i < n :: i in reserved <==> !FreedBy(memmap, |memmap|, b, BitmapSize(n), i)
  }

  /** A page is handed out by some run of allocations and frees. */
  ghost predicate HandedOut(n: nat, s: Pages, p: nat) {
    exists ops: seq<Op>, r: nat :: AllowedRun(n, s, ops) && Owns(Run(n, s, ops).live, r, p)
  }

  /** Exactly when the allocator comes to hand out a page with bytes of its own bitmap in it: when the entry the bitmap
      was placed in does not start on a page. Otherwise no run whatsoever does. */
  lemma StorageHandedOutIff(memmap: seq<MemEntry>, n: nat, b: nat, reserved: set<nat>)
    requires Left(memmap, n, b, reserved) && Placed(memmap, n, b) && BitmapSize(n) > 0
    ensures (exists p: nat :: Overlaps(p, b, BitmapSize(n)) && HandedOut(n, Pages(reserved, 0, map[]), p)) <==>
            b % 4096 != 0
  {
    var i :| 0 <= i < |memmap| && FirstRoomy(memmap, i, BitmapSize(n)) && b == memmap[i].base;
    if b % 4096 != 0 {
      UnalignedHandedOut(memmap, n, reserved, i);
    } else {
      AlignedNeverHandedOut(memmap, n, b, reserved);
    }
  }

  lemma UnalignedHandedOut(memmap: seq<MemEntry>, n: nat, reserved: set<nat>, i: nat)
    requires i < |memmap| && Roomy(memmap[i], BitmapSize(n)) && BitmapSize(n) > 0 && memmap[i].base % 4096 != 0
    requires Left(memmap, n, memmap[i].base, reserved)
    ensures exists p: nat :: Overlaps(p, memmap[i].base, BitmapSize(n)) && HandedOut(n, Pages(reserved, 0, map[]), p)
  {
    TailInMap(memmap, n, i);
    FreeIsHandedOut(n, reserved, Pages(reserved, 0, map[]), (memmap[i].base + BitmapSize(n)) / 4096);
  }

  lemma AlignedNeverHandedOut(memmap: seq<MemEntry>, n: nat, b: nat, reserved: set<nat>)
    requires Left(memmap, n, b, reserved) && b % 4096 == 0
    ensures forall p: nat | Overlaps(p, b, BitmapSize(n)) :: !HandedOut(n, Pages(reserved, 0, map[]), p)
  {
    BitmapKept(memmap, b, n);
    forall p: nat | Overlaps(p, b, BitmapSize(n)) ensures !HandedOut(n, Pages(reserved, 0, map[]), p) {
      ReservedStays(n, reserved, Pages(reserved, 0, map[]), p);
    }
  }

  /** The page an unaligned bitmap ends in is there, and free. */
  lemma TailInMap(memmap: seq<MemEntry>, n: nat, i: nat)
    requires PageCount(memmap, n) && i < |memmap| && Roomy(memmap[i], BitmapSize(n)) && BitmapSize(n) > 0
    requires memmap[i].base % 4096 != 0
    ensures var p := (memmap[i].base + BitmapSize(n)) / 4096;
      p < n && Overlaps(p, memmap[i].base, BitmapSize(n)) && FreedBy(memmap, |memmap|, memmap[i].base, BitmapSize(n), p)
  {
    TailFreed(memmap[i], BitmapSize(n));
    RoundingIsTight(memmap[i].base + memmap[i].length, 4096);
  }

  /** A page that is reserved, or that there is not, is never handed out. */
  lemma ReservedStays(n: nat, reserved: set<nat>, s: Pages, p: nat)
    requires Inv(n, reserved, s) && (p in reserved || p >= n)
    ensures !HandedOut(n, s, p)
  {
    forall ops: seq<Op>, r: nat | AllowedRun(n, s, ops) ensures !Owns(Run(n, s, ops).live, r, p) {
      RunKeeps(n, reserved, s, ops);
    }
  }

  /** Every free page is handed out by some run: single pages are allocated until it is. */
  lemma {:induction false} FreeIsHandedOut(n: nat, reserved: set<nat>, s: Pages, p: nat)
    requires Inv(n, reserved, s) && p < n && p !in s.used
    ensures HandedOut(n, s, p)
    decreases |Free(n, s.used)|
  {
    var ops := [Alloc(1)];
    SinglePage(n, s, p);
    var q := NextFit(n, s.used, s.cursor, 1).value;
    AllocKeeps(n, reserved, s, 1);
    var t := Step(n, s, Alloc(1));
    assert ops[1..] == [] && Run(n, s, ops) == t;
    if q == p {
      assert Owns(t.live, p, p);
    } else {
      FewerFree(n, s.used, q);
      FreeIsHandedOut(n, reserved, t, p);
      HandedOutLater(n, s, p);
    }
  }

  ghost function Free(n: nat, used: set<nat>): set<nat> { set i: nat | i < n && i !in used }

  lemma FewerFree(n: nat, used: set<nat>, q: nat)
    requires q < n && q !in used
    ensures |Free(n, used + Range(q, 1))| < |Free(n, used)|
  {
    assert Free(n, used) == Free(n, used + Range(q, 1)) + {q} && q !in Free(n, used + Range(q, 1));
  }

  /** A single free page is always found. */
  lemma SinglePage(n: nat, s: Pages, p: nat)
    requires s.cursor <= n && p < n && p !in s.used
    ensures var r := NextFit(n, s.used, s.cursor, 1);
      r.Some? && r.value < n && r.value !in s.used
  {
    AlignedIsMod(p, 1);
    assert FreeRun(s.used, p, 1);
    OutOfMemoryIff(n, s.used, s.cursor, 1);
  }

  lemma HandedOutLater(n: nat, s: Pages, p: nat)
    requires HandedOut(n, Step(n, s, Alloc(1)), p)
    ensures HandedOut(n, s, p)
  {
    var t := Step(n, s, Alloc(1));
    var ops: seq<Op>, r: nat :| AllowedRun(n, t, ops) && Owns(Run(n, t, ops).live, r, p);
    var more := [Alloc(1)] + ops;
    assert more[1..] == ops && more[0] == Alloc(1);
    assert AllowedRun(n, s, more) && Run(n, s, more) == Run(n, t, ops);
  }
}
