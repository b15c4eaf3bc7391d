/** `lib/alloc.c`: a heap of whole pages, each block preceded by a page of metadata. */
module Heap {
  import opened Bits
  import opened Rounding
  import opened PageRuns
  import opened HeapSpec
  import Pmm

  class PageHeap {
    const pmm: Pmm.PageAllocator
    const hhdm: nat
    /** Block sizes by first page; the data starts one page later. */
    ghost var blocks: map<nat, nat>

    ghost predicate Valid()
      reads this, pmm, pmm.bitmap, pmm.ram
    {
      && pmm.Valid() && 0 < hhdm && hhdm % 4096 == 0 && hhdm + 8 * pmm.ram.Length <= 0x1_0000_0000_0000_0000
      && HeapInv(pmm.ram[..], pmm.live, blocks)
    }

    constructor (pmm: Pmm.PageAllocator, hhdm: nat)
      requires pmm.Valid() && 0 < hhdm && hhdm % 4096 == 0 && hhdm + 8 * pmm.ram.Length <= 0x1_0000_0000_0000_0000
      ensures Valid() && this.pmm == pmm && this.hhdm == hhdm && blocks == map[]
    {
      this.pmm, this.hhdm, blocks := pmm, hhdm, map[];
    }

    /** The pointer to the data of the block at page `s`. */
    function PtrOf(s: nat): nat { hhdm + 4096 * (s + 1) }

    predicate IsPtr(ptr: nat) { ptr >= hhdm + 4096 && (ptr - hhdm) % 4096 == 0 }

    /** The first page of the block at `ptr`: its metadata page. */
    function PageOf(ptr: nat): nat
      requires IsPtr(ptr)
    {
      (ptr - hhdm) / 4096 - 1
    }

    /** `alloc`: a zeroed block of its own; None is the out-of-memory panic. */
    method Alloc(size: nat) returns (ptr: Option<nat>)
      requires Valid() && size + 4095 < 0x1_0000_0000_0000_0000
      modifies this, pmm`cursor, pmm`live, pmm.bitmap, pmm.ram
      ensures Valid()
      ensures ptr.None? ==> pmm.Exhausted(PagesFor(size) + 1)
      ensures ptr.None? ==> blocks == old(blocks) && pmm.live == old(pmm.live) && pmm.ram[..] == old(pmm.ram[..])
      ensures ptr.Some? ==> IsPtr(ptr.value) && Born(old(blocks), blocks, PageOf(ptr.value), size)
      ensures ptr.Some? ==> Taken(old(pmm.live), pmm.live, PageOf(ptr.value), PagesFor(size) + 1)
      ensures ptr.Some? ==>
                RunsKept(old(pmm.ram[..]), pmm.ram[..], old(pmm.live)) && Zeroed(pmm.ram[..], PageOf(ptr.value), size)
    {
      ghost var mem, live, count := pmm.ram[..], pmm.live, PagesFor(size) + 1;
      var pageCount := DivRoundup(size, 4096);
      var phys := pmm.TakeZeroed(pageCount + 1);
      if phys.None? {
        return None;
      }
      var page := phys.value;
      ghost var s := page / 4096;
      assert Taken(live, pmm.live, s, count);
      WriteMetadata(page, pageCount, size, mem, live);
      PtrRoundTrip(page);
      var data := page + hhdm + 4096;
      assert IsPtr(data) && PageOf(data) == s;
      ptr := Some(data);
    }

    lemma PtrRoundTrip(phys: nat)
      requires phys % 4096 == 0 && hhdm % 4096 == 0
      ensures IsPtr(phys + hhdm + 4096) && PageOf(phys + hhdm + 4096) == phys / 4096
    {}

    method WriteMetadata(phys: nat, pageCount: nat, size: nat, ghost mem: seq<Word>, ghost live: map<nat, nat>)
      requires pmm.Valid() && 0 < hhdm && hhdm % 4096 == 0 && hhdm + 8 * pmm.ram.Length <= 0x1_0000_0000_0000_0000
      requires size + 4095 < 0x1_0000_0000_0000_0000 && pageCount == PagesFor(size)
      requires phys % 4096 == 0 && |mem| == pmm.ram.Length && HeapInv(mem, live, blocks)
      requires Pmm.Granted(live, pmm.live, pmm.pageCount, phys / 4096, pageCount + 1)
      requires pmm.ram[..] == Pmm.Filled(mem, phys / 8, (pageCount + 1) * 512, 0)
      modifies this, pmm.ram
      ensures Valid() && Born(old(blocks), blocks, phys / 4096, size)
      ensures RunsKept(mem, pmm.ram[..], live) && Zeroed(pmm.ram[..], phys / 4096, size)
    {
      ghost var s := phys / 4096;
      AllocKeepsHeap(mem, live, pmm.live, blocks, pmm.pageCount, s, size);
      FreshWords(mem, s, size);
      PageAddress(phys, s);
      var slot := phys / 8;
      pmm.ram[slot] := pageCount;
      pmm.ram[slot + 1] := size;
      assert pmm.ram[..] == Fresh(mem, s, size);
      blocks := blocks[s := size];
    }

    /** `free`: exactly the pages `alloc` took go back; NULL is ignored. */
    method Free(ptr: nat)
      requires Valid() && (ptr == 0 || (IsPtr(ptr) && PageOf(ptr) in blocks))
      modifies this, pmm`live, pmm.bitmap, pmm.ram
      ensures Valid()
      ensures ptr == 0 ==> blocks == old(blocks) && pmm.live == old(pmm.live) && pmm.ram[..] == old(pmm.ram[..])
      ensures ptr != 0 ==> blocks == old(blocks) - {PageOf(ptr)} && pmm.live == old(pmm.live) - {PageOf(ptr)}
      ensures ptr != 0 ==> RunsKept(old(pmm.ram[..]), pmm.ram[..], pmm.live)
    {
      if ptr != 0 {
        FreeBlock(ptr - 4096 - hhdm, PageOf(ptr));
      }
    }

    method FreeBlock(phys: nat, ghost s: nat)
      requires Valid() && phys == 4096 * s && s in blocks
      modifies this, pmm`live, pmm.bitmap, pmm.ram
      ensures Valid() && blocks == old(blocks) - {s} && pmm.live == old(pmm.live) - {s}
      ensures RunsKept(old(pmm.ram[..]), pmm.ram[..], pmm.live)
    {
      ghost var mem, live := pmm.ram[..], pmm.live;
      pmm.RunsAreApart();
      PageAddress(phys, s);
      var pages := pmm.ram[phys / 8];
      var count := pages + 1;
      ghost var words := 512 * live[s];
      assert count == live[s] && count * 512 == words;
      pmm.GiveBack(phys, count);
      assert pmm.ram[..] == Pmm.Filled(mem, 512 * s, words, Pmm.POISON);
      FreeKeepsHeap(mem, live, blocks, s, Pmm.POISON);
      blocks := blocks - {s};
      assert HeapInv(pmm.ram[..], pmm.live, blocks);
    }

    /** `memcpy` of `n` bytes between page-aligned places. */
    method CopyBytes(dst: nat, src: nat, n: nat)
      requires 8 * dst + n <= 8 * pmm.ram.Length && 8 * src + n <= 8 * pmm.ram.Length
      requires dst + DivRoundup(n, 8) <= src || src + DivRoundup(n, 8) <= dst
      modifies pmm.ram
      ensures BytesCopied(old(pmm.ram[..]), pmm.ram[..], dst, src, n)
    {
      CopyRanges(dst, src, n, pmm.ram.Length);
      CopyParts(dst, src, n / 8, n % 8);
    }

    method CopyParts(dst: nat, src: nat, words: nat, rest: nat)
      requires rest < 8 && var all := if rest > 0 then words + 1 else words;
        dst + all <= pmm.ram.Length && src + all <= pmm.ram.Length && (dst + all <= src || src + all <= dst)
      modifies pmm.ram
      ensures BytesCopied(old(pmm.ram[..]), pmm.ram[..], dst, src, 8 * words + rest)
    {
      ghost var mem := pmm.ram[..];
      CopyWhole(dst, src, words);
      if rest == 0 {
        WholeWords(mem, pmm.ram[..], dst, src, words);
        assert 8 * words + rest == 8 * words;
      } else {
        CopyRest(dst, src, words, rest, mem);
      }
    }

    method CopyWhole(dst: nat, src: nat, words: nat)
      requires dst + words <= pmm.ram.Length && src + words <= pmm.ram.Length
               && (dst + words <= src || src + words <= dst)
      modifies pmm.ram
      ensures WordsCopied(old(pmm.ram[..]), pmm.ram[..], dst, src, words)
    {
      ghost var mem := pmm.ram[..];
      for j := 0 to words
        invariant WordsCopied(mem, pmm.ram[..], dst, src, j)
      {
        NextWord(mem, pmm.ram[..], dst, src, j);
        pmm.ram[dst + j] := pmm.ram[src + j];
      }
    }

    method CopyRest(dst: nat, src: nat, words: nat, rest: nat, ghost mem: seq<Word>)
      requires WordsCopied(mem, pmm.ram[..], dst, src, words) && 0 < rest < 8
      requires dst + words < |mem| && src + words < |mem| && (dst + words + 1 <= src || src + words + 1 <= dst)
      modifies pmm.ram
      ensures BytesCopied(mem, pmm.ram[..], dst, src, 8 * words + rest)
    {
      ghost var mid := pmm.ram[..];
      var d, s := pmm.ram[dst + words], pmm.ram[src + words];
      assert d == mem[dst + words] && s == mem[src + words];
      MergeIsWord(d, s, rest);
      pmm.ram[dst + words] := Merge(d, s, rest);
      LastBytes(mem, mid, pmm.ram[..], dst, src, words, rest);
    }

    /** The owner of the block at page `s` stores the byte `v` at offset `k`. */
    method StoreByte(s: nat, k: nat, v: nat)
      requires Valid() && s in blocks && k < blocks[s] && v < 256
      modifies pmm.ram
      ensures Valid() && RunsKept(old(pmm.ram[..]), pmm.ram[..], pmm.live - {s})
      ensures ByteStored(old(pmm.ram[..]), pmm.ram[..], 4096 * (s + 1) + k, v)
    {
      var a := 4096 * (s + 1) + k;
      DataInside(blocks[s], blocks[s], a, s);
      assert BlockOk(pmm.ram[..], pmm.live, s, blocks[s]);
      SetDigitIsWord(pmm.ram[a / 8], a % 8, v);
      StoreIsByte(pmm.ram[..], a, v);
      StoreWord(s, a / 8, SetDigit(pmm.ram[a / 8], a % 8, v));
    }

    /** The same for the word `x` of memory. */
    method StoreWord(s: nat, x: nat, v: Word)
      requires Valid() && s in blocks && 512 * (s + 1) <= x < 512 * (s + 1 + PagesFor(blocks[s]))
      modifies pmm.ram
      ensures x < pmm.ram.Length && pmm.ram[..] == old(pmm.ram[..])[x := v]
      ensures Valid() && RunsKept(old(pmm.ram[..]), pmm.ram[..], pmm.live - {s})
    {
      pmm.RunsAreApart();
      StoreKeepsHeap(pmm.ram[..], pmm.live, blocks, s, x, v);
      pmm.ram[x] := v;
    }

    /** `realloc`: in place while the page count stays the same; otherwise a new block, the first bytes of the
        old one up to the smaller of the two sizes, and the old block freed. */
    method Realloc(ptr: nat, newSize: nat) returns (r: Option<nat>)
      requires Valid() && newSize + 4095 < 0x1_0000_0000_0000_0000
               && (ptr == 0 || (IsPtr(ptr) && PageOf(ptr) in blocks))
      modifies this, pmm`cursor, pmm`live, pmm.bitmap, pmm.ram
      ensures Valid()
      ensures ptr == 0 && r.Some? ==> IsPtr(r.value) && Born(old(blocks), blocks, PageOf(r.value), newSize)
                                      && Taken(old(pmm.live), pmm.live, PageOf(r.value), PagesFor(newSize) + 1)
                                      && RunsKept(old(pmm.ram[..]), pmm.ram[..], old(pmm.live))
                                      && Zeroed(pmm.ram[..], PageOf(r.value), newSize)
      ensures r.None? ==> pmm.Exhausted(PagesFor(newSize) + 1)
      ensures r.None? ==> blocks == old(blocks) && pmm.live == old(pmm.live) && pmm.ram[..] == old(pmm.ram[..])
      ensures ptr != 0 && r.Some? ==> IsPtr(r.value)
      ensures ptr != 0 && r.Some? ==>
                Resized(old(pmm.ram[..]), pmm.ram[..], old(pmm.live), pmm.live, old(blocks), blocks, PageOf(ptr),
                        PageOf(r.value), newSize)
      ensures ptr != 0 && PagesFor(newSize) == PagesFor(old(blocks)[PageOf(ptr)]) ==>
                r == Some(ptr) && pmm.live == old(pmm.live)
                  && pmm.ram[..] == old(pmm.ram[..])[512 * PageOf(ptr) + 1 := newSize]
    {
      if ptr == 0 {
        r := Alloc(newSize);
      } else {
        r := ReallocBlock(ptr, newSize, PageOf(ptr));
      }
    }

    method ReallocBlock(ptr: nat, newSize: nat, s: nat) returns (r: Option<nat>)
      requires Valid() && newSize + 4095 < 0x1_0000_0000_0000_0000 && IsPtr(ptr) && s == PageOf(ptr) && s in blocks
      modifies this, pmm`cursor, pmm`live, pmm.bitmap, pmm.ram
      ensures Valid()
      ensures r.None? ==> pmm.Exhausted(PagesFor(newSize) + 1)
      ensures r.None? ==> blocks == old(blocks) && pmm.live == old(pmm.live) && pmm.ram[..] == old(pmm.ram[..])
      ensures r.Some? ==> IsPtr(r.value)
      ensures r.Some? ==>
                Resized(old(pmm.ram[..]), pmm.ram[..], old(pmm.live), pmm.live, old(blocks), blocks, s,
                        PageOf(r.value), newSize)
      ensures PagesFor(newSize) == PagesFor(old(blocks)[s]) ==>
                r == Some(ptr) && pmm.live == old(pmm.live) && pmm.ram[..] == old(pmm.ram[..])[512 * s + 1 := newSize]
    {
      assert BlockOk(pmm.ram[..], pmm.live, s, blocks[s]);
      if pmm.ram[512 * s] == DivRoundup(newSize, 4096) {
        ResizeInPlace(s, newSize);
        r := Some(ptr);
      } else {
        r := Move(s, newSize);
      }
    }

    method Move(s: nat, newSize: nat) returns (r: Option<nat>)
      requires Valid() && newSize + 4095 < 0x1_0000_0000_0000_0000 && s in blocks
               && PagesFor(newSize) != PagesFor(blocks[s])
      modifies this, pmm`cursor, pmm`live, pmm.bitmap, pmm.ram
      ensures Valid()
      ensures r.None? ==> pmm.Exhausted(PagesFor(newSize) + 1)
      ensures r.None? ==> blocks == old(blocks) && pmm.live == old(pmm.live) && pmm.ram[..] == old(pmm.ram[..])
      ensures r.Some? ==> IsPtr(r.value)
      ensures r.Some? ==>
                Resized(old(pmm.ram[..]), pmm.ram[..], old(pmm.live), pmm.live, old(blocks), blocks, s,
                        PageOf(r.value), newSize)
    {
      ghost var mem, live, before := pmm.ram[..], pmm.live, blocks;
      assert BlockOk(mem, live, s, blocks[s]);
      var oldSize := pmm.ram[512 * s + 1];
      r := Alloc(newSize);
      if r.Some? {
        var t := PageOf(r.value);
        assert Born(before, blocks, t, newSize) && Taken(live, pmm.live, t, PagesFor(newSize) + 1);
        MoveData(s, t, oldSize, newSize, mem, live, before);
      }
    }

    method ResizeInPlace(s: nat, newSize: Word)
      requires Valid() && s in blocks && PagesFor(newSize) == PagesFor(blocks[s])
      modifies this, pmm.ram
      ensures Valid() && pmm.ram[..] == old(pmm.ram[..])[512 * s + 1 := newSize]
      ensures Resized(old(pmm.ram[..]), pmm.ram[..], pmm.live, pmm.live, old(blocks), blocks, s, s, newSize)
    {
      ghost var mem := pmm.ram[..];
      pmm.RunsAreApart();
      ResizeDone(mem, pmm.live, blocks, s, newSize);
      pmm.ram[512 * s + 1] := newSize;
      assert pmm.ram[..] == mem[512 * s + 1 := newSize];
      blocks := blocks[s := newSize];
    }

    method MoveData(s: nat, t: nat, oldSize: nat, newSize: nat, ghost mem: seq<Word>, ghost live: map<nat, nat>,
                    ghost before: map<nat, nat>)
      requires Valid() && s in before && before[s] == oldSize && Born(before, blocks, t, newSize)
               && HeapInv(mem, live, before)
      requires Taken(live, pmm.live, t, PagesFor(newSize) + 1) && RunsKept(mem, pmm.ram[..], live)
               && PagesFor(newSize) != PagesFor(oldSize)
      requires Zeroed(pmm.ram[..], t, newSize)
      modifies this, pmm`live, pmm.bitmap, pmm.ram
      ensures Valid() && Resized(mem, pmm.ram[..], live, pmm.live, before, blocks, s, t, newSize)
    {
      ghost var mem1, live1, mid := pmm.ram[..], pmm.live, blocks;
      assert BlockOk(mem1, live1, t, newSize);
      var n := if newSize < oldSize then newSize else oldSize;
      CopyData(s, t, n);
      ghost var mem2 := pmm.ram[..];
      FreeBlock(4096 * s, s);
      MoveDone(mem, mem1, mem2, pmm.ram[..], live, live1, pmm.live, before, mid, blocks, s, t, oldSize, newSize, n);
    }

    method CopyData(s: nat, t: nat, n: nat)
      requires Valid() && s in blocks && t in blocks && s != t && n <= blocks[s] && n <= blocks[t]
      modifies pmm.ram
      ensures Valid() && BytesCopied(old(pmm.ram[..]), pmm.ram[..], 512 * (t + 1), 512 * (s + 1), n)
      ensures RunsKept(old(pmm.ram[..]), pmm.ram[..], pmm.live - {t})
    {
      ghost var mem := pmm.ram[..];
      pmm.RunsAreApart();
      DataFits(mem, pmm.live, blocks, s, n);
      DataFits(mem, pmm.live, blocks, t, n);
      DataApart(pmm.live, s, t, DivRoundup(n, 8));
      CopyBytes(512 * (t + 1), 512 * (s + 1), n);
      CopyKeepsHeap(mem, pmm.ram[..], pmm.live, blocks, t, s, n);
    }
  }

  lemma PtrOfPage(h: PageHeap, s: nat)
    ensures h.IsPtr(h.PtrOf(s)) && h.PageOf(h.PtrOf(s)) == s && h.PtrOf(s) != 0
  {}

  lemma DataApart(live: map<nat, nat>, s: nat, t: nat, n: nat)
    requires Apart(live) && s in live && t in live && s != t
    requires 512 * (s + 1) + n <= 512 * (s + live[s]) && 512 * (t + 1) + n <= 512 * (t + live[t])
    ensures 512 * (t + 1) + n <= 512 * (s + 1) || 512 * (s + 1) + n <= 512 * (t + 1)
  {}

  lemma MoveDone(mem0: seq<Word>, mem1: seq<Word>, mem2: seq<Word>, mem3: seq<Word>,
                 live0: map<nat, nat>, live1: map<nat, nat>, live3: map<nat, nat>,
                 before: map<nat, nat>, mid: map<nat, nat>, after: map<nat, nat>, s: nat, t: nat, oldSize: nat,
                 newSize: nat, n: nat)
    requires HeapInv(mem0, live0, before) && s in before && before[s] == oldSize && Born(before, mid, t, newSize)
    requires Taken(live0, live1, t, PagesFor(newSize) + 1) && RunsKept(mem0, mem1, live0)
    requires n == (if newSize < oldSize then newSize else oldSize)
    requires BytesCopied(mem1, mem2, 512 * (t + 1), 512 * (s + 1), n)
    requires Zeroed(mem1, t, newSize) && 512 * (t + 1 + PagesFor(newSize)) <= |mem1|
    requires RunsKept(mem1, mem2, live1 - {t}) && live3 == live1 - {s} && RunsKept(mem2, mem3, live3)
             && after == mid - {s}
    requires PagesFor(newSize) != PagesFor(oldSize)
    ensures Resized(mem0, mem3, live0, live3, before, after, s, t, newSize)
  {
    var count := PagesFor(newSize) + 1;
    assert BlockOk(mem0, live0, s, oldSize);
    assert t != s && t in live3 && live3[t] == count;
    assert RunsKept(mem0, mem3, live0 - {s}) by {
      MoveKeepsRuns(mem0, mem1, mem2, mem3, live0, live1, live3, s, t, count);
    }
    assert SameBytes(mem0, s, mem3, t, n) by {
      MoveKeepsBytes(mem0, mem1, mem2, mem3, live0, live3, s, t, oldSize, newSize, n);
    }
    MoveRelocates(before, mid, s, t, newSize);
    MoveRehouses(live0, live1, s, t, count);
    assert ZeroBytes(mem3, t, n, newSize) by {
      MoveLeavesZeros(mem1, mem2, mem3, live3, s, t, newSize, n);
    }
    CarriesFewer(mem0, s, oldSize, mem3, t, newSize, n);
  }

  lemma MoveRehouses(live0: map<nat, nat>, live1: map<nat, nat>, s: nat, t: nat, count: nat)
    requires s in live0 && Taken(live0, live1, t, count)
    ensures Rehoused(live0, live1 - {s}, s, t, count)
  {
    assert live1 - {s} == (live0 - {s})[t := count];
  }

  lemma MoveRelocates(before: map<nat, nat>, mid: map<nat, nat>, s: nat, t: nat, newSize: nat)
    requires s in before && Born(before, mid, t, newSize) && PagesFor(newSize) != PagesFor(before[s])
    ensures Relocated(before, mid - {s}, s, t, newSize)
  {
    assert mid - {s} == (before - {s})[t := newSize];
  }

  lemma ResizeDone(mem: seq<Word>, live: map<nat, nat>, blocks: map<nat, nat>, s: nat, newSize: Word)
    requires HeapInv(mem, live, blocks) && Apart(live) && s in blocks && PagesFor(newSize) == PagesFor(blocks[s])
    ensures 512 * s + 1 < |mem| && HeapInv(mem[512 * s + 1 := newSize], live, blocks[s := newSize])
    ensures Resized(mem, mem[512 * s + 1 := newSize], live, live, blocks, blocks[s := newSize], s, s, newSize)
  {
    ResizeKeepsHeap(mem, live, blocks, s, newSize);
    ResizeCarries(mem, live, blocks, s, newSize);
    assert Relocated(blocks, blocks[s := newSize], s, s, newSize) by {
      assert blocks[s := newSize] == (blocks - {s})[s := newSize];
    }
    assert Rehoused(live, live, s, s, PagesFor(newSize) + 1) by {
      assert BlockOk(mem, live, s, blocks[s]);
      assert live == (live - {s})[s := live[s]];
    }
  }

  lemma ResizeCarries(mem: seq<Word>, live: map<nat, nat>, blocks: map<nat, nat>, s: nat, newSize: Word)
    requires HeapInv(mem, live, blocks) && s in blocks && 512 * s + 1 < |mem|
    ensures Carries(mem, s, blocks[s], mem[512 * s + 1 := newSize], s, newSize)
  {
    var n := if newSize < blocks[s] then newSize else blocks[s];
    DataFits(mem, live, blocks, s, n);
    InPlaceBytes(mem, s, newSize, n);
    CarriesFewer(mem, s, blocks[s], mem[512 * s + 1 := newSize], s, newSize, n);
  }

  /** The block at page `s` is now at page `t` with size `newSize`; it carries its bytes, and every other run kept
      all of its words. */
  ghost predicate Resized(mem: seq<Word>, mem': seq<Word>, live: map<nat, nat>, live': map<nat, nat>,
                          before: map<nat, nat>, after: map<nat, nat>, s: nat, t: nat, newSize: nat) {
    && Relocated(before, after, s, t, newSize) && Rehoused(live, live', s, t, PagesFor(newSize) + 1)
    && Carries(mem, s, before[s], mem', t, newSize) && RunsKept(mem, mem', live - {s})
  }

  /** Every byte that both the block of `size` bytes at page `s` and the one of `newSize` bytes at page `t` have is the
      same; what a moved block has beyond them is zero. */
  ghost predicate Carries(mem: seq<Word>, s: nat, size: nat, mem': seq<Word>, t: nat, newSize: nat) {
    && (forall n: nat | n <= size && n <= newSize :: SameBytes(mem, s, mem', t, n))
    && (s != t ==> ZeroBytes(mem', t, size, newSize))
  }

  lemma CarriesFewer(mem: seq<Word>, s: nat, size: nat, mem': seq<Word>, t: nat, newSize: nat, n: nat)
    requires n == (if newSize < size then newSize else size) && SameBytes(mem, s, mem', t, n)
    requires s != t ==> ZeroBytes(mem', t, n, newSize)
    ensures Carries(mem, s, size, mem', t, newSize)
  {
    forall m: nat | m <= size && m <= newSize ensures SameBytes(mem, s, mem', t, m) {
      assert m <= n;
    }
  }

  /** The page run at `s` was given up for one of `count` pages at `t`. */
  ghost predicate Rehoused(live: map<nat, nat>, live': map<nat, nat>, s: nat, t: nat, count: nat) {
    s in live && (t == s || t !in live) && live' == (live - {s})[t := count]
  }

  ghost predicate Relocated(before: map<nat, nat>, after: map<nat, nat>, s: nat, t: nat, newSize: nat) {
    && s in before && (t == s || t !in before) && after == (before - {s})[t := newSize]
    && (t == s <==> PagesFor(newSize) == PagesFor(before[s]))
  }

  lemma MoveSpares(mem: seq<Word>, mem': seq<Word>, live: map<nat, nat>, live': map<nat, nat>, s: nat, t: nat,
                   count: nat)
    requires RunsKept(mem, mem', live - {s}) && Rehoused(live, live', s, t, count)
    ensures Spares(mem, mem', live, live', {s}, {t})
  {
    forall u | u in live && u != s ensures u in live' && live'[u] == live[u] && RunSame(mem, mem', u, live[u]) {
      assert u in live - {s};
    }
  }

  lemma AllocSpares(mem: seq<Word>, mem': seq<Word>, live: map<nat, nat>, live': map<nat, nat>, t: nat, count: nat)
    requires RunsKept(mem, mem', live) && Taken(live, live', t, count)
    ensures Spares(mem, mem', live, live', {}, {t})
  {}

  lemma StoreSpares(mem: seq<Word>, mem': seq<Word>, live: map<nat, nat>, s: nat)
    requires RunsKept(mem, mem', live - {s})
    ensures Spares(mem, mem', live, live, {s}, {s})
  {
    forall u | u in live && u != s ensures RunSame(mem, mem', u, live[u]) {
      assert u in live - {s};
    }
  }

  /** The first `n` bytes of a block's data end inside its run, clear of every other run. */
  lemma DataFits(mem: seq<Word>, live: map<nat, nat>, blocks: map<nat, nat>, s: nat, n: nat)
    requires HeapInv(mem, live, blocks) && s in blocks && n <= blocks[s]
    ensures 512 * (s + 1) + DivRoundup(n, 8) <= 512 * (s + live[s]) <= |mem|
    ensures 4096 * (s + 1) + n <= 8 * |mem|
  {
    RoundingIsTight(blocks[s], 4096);
    RoundingIsTight(n, 8);
  }

  lemma InPlaceBytes(mem: seq<Word>, s: nat, v: Word, n: nat)
    requires 512 * s + 1 < |mem| && 4096 * (s + 1) + n <= 8 * |mem|
    ensures SameBytes(mem, s, mem[512 * s + 1 := v], s, n)
  {}

  lemma PageAddress(phys: nat, s: nat)
    requires phys == 4096 * s
    ensures phys % 4096 == 0 && phys / 4096 == s && phys / 8 == 512 * s
  {}

  lemma CopyRanges(dst: nat, src: nat, n: nat, length: nat)
    requires 8 * dst + n <= 8 * length && 8 * src + n <= 8 * length
    requires dst + DivRoundup(n, 8) <= src || src + DivRoundup(n, 8) <= dst
    ensures n == 8 * (n / 8) + n % 8
    ensures var all := if n % 8 > 0 then n / 8 + 1 else n / 8;
      dst + all <= length && src + all <= length && (dst + all <= src || src + all <= dst)
  {
    var words, rest := n / 8, n % 8;
    assert DivRoundup(n, 8) == if rest > 0 then words + 1 else words;
  }

  /** Block `s` of the given size is new, and nothing else about the blocks changed. */
  ghost predicate Born(before: map<nat, nat>, after: map<nat, nat>, s: nat, size: nat) {
    s !in before && after == before[s := size]
  }

  ghost predicate Taken(before: map<nat, nat>, after: map<nat, nat>, s: nat, count: nat) {
    s !in before && after == before[s := count]
  }
}
