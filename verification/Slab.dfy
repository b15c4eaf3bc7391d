/** `mm/slab.c`: twelve size classes with free lists threaded through their blocks. */
module Slab {
  import opened Bits
  import opened Rounding
  import opened PageRuns
  import opened SlabSpec
  import Pmm

  /** The `bsr` instruction: the index of the highest set bit. Undefined for 0. */
  function Bsr(x: nat): nat
    requires x > 0
  {
    if x == 1 then 0 else 1 + Bsr(x / 2)
  }

  lemma {:induction false} BsrIs(x: nat)
    requires x > 0
    ensures Pow2(Bsr(x)) <= x < Pow2(Bsr(x) + 1)
  {
    if x != 1 {
      BsrIs(x / 2);
    }
  }

  /** Entry size of class `c` in bytes. */
  function EntSize(c: nat): nat { 8 * Words(c) }

  lemma EntSizeIsPow2(c: nat)
    ensures EntSize(c) == Pow2(c + 3)
  {
    assert Pow2(c + 3) == 2 * Pow2(c + 2) && Pow2(c + 2) == 2 * Pow2(c + 1);
  }

  lemma SizesAre(c: nat)
    requires c < 12
    ensures EntSize(c) == [8, 16, 32, 64, 128, 256, 512, 1024, 2048, 4096, 8192, 16384][c]
  {
    WordsValue(c);
  }

  /** `slab_for`: the class for a size, none from 16384 on. */
  function SlabFor(size: nat): Option<nat>
    requires size > 0
  {
    var b := Bsr(size);
    if b <= 2 then Some(0) else if b <= 13 then Some(b - 2) else None
  }

  /** The chosen class is the smallest one whose entries are strictly larger than the size. */
  lemma SlabForIs(size: nat)
    requires size > 0
    ensures SlabFor(size).None? <==> size >= 16384
    ensures SlabFor(size).Some? ==> var c := SlabFor(size).value;
      c < 12 && size < EntSize(c) && forall d: nat | d < c :: EntSize(d) <= size
  {
    var b := Bsr(size);
    BsrIs(size);
    LimitIs(size, b);
    if b <= 13 {
      ClassIs(size, b, SlabFor(size).value);
    }
  }

  lemma LimitIs(size: nat, b: nat)
    requires Pow2(b) <= size < Pow2(b + 1)
    ensures b > 13 <==> size >= 16384
  {
    assert Pow2(14) == 16384;
    if b <= 13 {
      Pow2Monotone(b + 1, 14);
    } else {
      Pow2Monotone(14, b);
    }
  }

  /** The class of a size whose highest bit is `b`. */
  lemma ClassIs(size: nat, b: nat, c: nat)
    requires Pow2(b) <= size < Pow2(b + 1) && b <= 13 && c == if b <= 2 then 0 else b - 2
    ensures c < CLASSES && size < EntSize(c) && forall d: nat | d < c :: EntSize(d) <= size
  {
    EntSizeIsPow2(c);
    Pow2Monotone(b + 1, c + 3);
    forall d: nat | d < c ensures EntSize(d) <= size {
      EntSizeIsPow2(d);
      Pow2Monotone(d + 3, b);
    }
  }

  lemma {:induction false} Pow2Monotone(a: nat, b: nat)
    requires a <= b
    ensures Pow2(a) <= Pow2(b)
    decreases b - a
  {
    if a < b {
      Pow2Monotone(a + 1, b);
    }
  }

  /** `available_size >> bsr(ent_size)`, less one, is the number of links `create_slab` writes. */
  lemma LinksAre(c: nat)
    requires c < CLASSES
    ensures AlignUp(8, EntSize(c)) == EntSize(c)
    ensures (0x4_0000 - EntSize(c)) / Pow2(Bsr(EntSize(c))) == PerRegion(c)
  {
    WordsDivide(c);
    EntSizeIsPow2(c);
    BsrOfPow2(c + 3);
    HeaderIsOneBlock(Words(c));
    BlocksLeft(Words(c), PerRegion(c));
  }

  lemma HeaderIsOneBlock(n: nat)
    requires n > 0
    ensures AlignUp(8, 8 * n) == 8 * n
  {
    DivModUnique(8 * n, 1, 7);
  }

  lemma BlocksLeft(n: nat, p: nat)
    requires n > 0 && 32768 == (p + 1) * n
    ensures 0x4_0000 - 8 * n >= 0 && (0x4_0000 - 8 * n) / (8 * n) == p
  {
    assert (p + 1) * n == p * n + n;
    assert 0x4_0000 - 8 * n == p * (8 * n) + 0;
    DivModUnique(8 * n, p, 0);
  }

  lemma {:induction false} BsrOfPow2(k: nat)
    ensures Bsr(Pow2(k)) == k
  {
    if k != 0 {
      BsrOfPow2(k - 1);
    }
  }

  /** A `struct slab`: the list head (0 is NULL) and the entry size. */
  datatype SlabStruct = SlabStruct(firstFree: Word, entSize: nat)

  class SlabAllocator {
    const pmm: Pmm.PageAllocator
    const hhdm: nat            // offset of the direct map
    const table: nat           // address of the array `slabs`
    var slabs: seq<SlabStruct>
    ghost var cs: seq<Class>

    ghost predicate Valid()
      reads this, pmm, pmm.bitmap, pmm.ram
    {
      && pmm.Valid() && 0 < hhdm && hhdm % 0x4_0000 == 0 && hhdm + 8 * pmm.ram.Length <= 0x1_0000_0000_0000_0000
      && table + 24 * CLASSES <= 0x1_0000_0000_0000_0000
      && SlabInv(pmm.ram[..], hhdm, table, cs)
      && Stored(slabs, cs) && Backed(pmm.live, cs)
    }

    /** Every class has its entry size: `slab_init` is done. */
    ghost predicate Ready()
      reads this
    {
      |slabs| == CLASSES && forall c | 0 <= c < CLASSES :: slabs[c].entSize == EntSize(c)
    }

    constructor (pmm: Pmm.PageAllocator, hhdm: nat, table: nat)
      requires pmm.Valid() && 0 < hhdm && hhdm % 0x4_0000 == 0 && hhdm + 8 * pmm.ram.Length <= 0x1_0000_0000_0000_0000
      requires table + 24 * CLASSES <= 0x1_0000_0000_0000_0000
      ensures Valid() && this.pmm == pmm && this.hhdm == hhdm && this.table == table
      ensures forall c | 0 <= c < CLASSES :: cs[c] == Class(0, [], {}, {})
    {
      this.pmm, this.hhdm, this.table := pmm, hhdm, table;
      slabs := seq(CLASSES, _ => SlabStruct(0, 0));
      cs := seq(CLASSES, _ => Class(0, [], {}, {}));
    }

    /** `pmm_alloc_nozero(64)`: a region of its own, aligned to 256 KiB. */
    method NewRegion() returns (r: Option<nat>)
      requires Valid()
      modifies pmm`cursor, pmm`live, pmm.bitmap
      ensures Valid() && slabs == old(slabs) && cs == old(cs)
      ensures forall t: nat | t in old(pmm.live) :: t in pmm.live && pmm.live[t] == old(pmm.live[t])
      ensures r.Some? ==> 64 * r.value !in old(pmm.live)
      ensures forall t: nat | t in pmm.live && t !in old(pmm.live) :: r.Some? && t == 64 * r.value
      ensures r.None? ==> pmm.Exhausted(64)
      ensures r.Some? ==>
                64 * r.value in pmm.live && pmm.live[64 * r.value] == 64 && 32768 * r.value + 32768 <= pmm.ram.Length
      ensures r.Some? ==> forall c | 0 <= c < CLASSES :: r.value !in cs[c].regions
    {
      ghost var before := pmm.live;
      var a := pmm.TakeRun(64);
      r := None;
      if a.Some? {
        RegionFromRun(before, pmm.live, pmm.pageCount, a.value, cs);
        r := Some(a.value / 0x4_0000);
      }
    }

    /** The rest of `create_slab`: the header, the links, NULL in the last block. */
    method LayRegion(c: nat, entSize: nat, r: nat)
      requires c < CLASSES && entSize == EntSize(c) && 32768 * r + 32768 <= pmm.ram.Length
      requires hhdm + 8 * pmm.ram.Length <= 0x1_0000_0000_0000_0000 && table + 24 * CLASSES <= 0x1_0000_0000_0000_0000
      modifies pmm.ram
      ensures Laid(old(pmm.ram[..]), pmm.ram[..], hhdm, table, c, r)
    {
      ghost var mem := pmm.ram[..];
      LayHeader(mem, hhdm, table, c, r, SlabPtr(table, c));
      pmm.ram[32768 * r] := SlabPtr(table, c);
      var offset, max, fact := Layout(c, entSize);
      LayLinks(32768 * r + offset, max, fact, c, r, mem);
    }

    method LayLinks(arr: nat, max: nat, fact: nat, ghost c: nat, ghost r: nat, ghost mem: seq<Word>)
      requires c < CLASSES && fact == Words(c) && max + 1 == PerRegion(c) && arr == 32768 * r + Words(c)
      requires hhdm + 8 * pmm.ram.Length <= 0x1_0000_0000_0000_0000
      requires Laying(mem, pmm.ram[..], hhdm, table, c, r, 0)
      modifies pmm.ram
      ensures Laying(mem, pmm.ram[..], hhdm, table, c, r, PerRegion(c))
    {
      for i := 0 to max
        invariant Laying(mem, pmm.ram[..], hhdm, table, c, r, i)
      {
        StoreLink(arr + i * fact, Ptr(hhdm, arr + (i + 1) * fact), c, r, i, mem);
      }
      StoreLink(arr + max * fact, 0, c, r, max, mem);
    }

    method StoreLink(w: nat, link: nat, ghost c: nat, ghost r: nat, ghost n: nat, ghost mem: seq<Word>)
      requires c < CLASSES && n < PerRegion(c) && w == 32768 * r + Words(c) + n * Words(c)
      requires link == if n + 1 < PerRegion(c) then Ptr(hhdm, 32768 * r + Words(c) + (n + 1) * Words(c)) else 0
      requires hhdm + 8 * pmm.ram.Length <= 0x1_0000_0000_0000_0000
      requires Laying(mem, pmm.ram[..], hhdm, table, c, r, n)
      modifies pmm.ram
      ensures Laying(mem, pmm.ram[..], hhdm, table, c, r, n + 1)
    {
      LinkIsWord(r, c, n, hhdm, link, pmm.ram.Length);
      LayNext(mem, pmm.ram[..], hhdm, table, c, r, n, link);
      pmm.ram[w] := link;
    }

    /** `create_slab` on a class without free blocks. False is the out-of-memory panic. */
    method CreateSlab(c: nat, entSize: nat) returns (ok: bool, ghost r: nat)
      requires Valid() && c < CLASSES && cs[c].free == [] && entSize == EntSize(c)
      modifies this, pmm`cursor, pmm`live, pmm.bitmap, pmm.ram
      ensures Valid() && Preserves(old(pmm.ram[..]), pmm.ram[..], old(cs))
      ensures !ok ==> cs == old(cs) && slabs == old(slabs) && pmm.Exhausted(64)
      ensures ok ==> cs == old(cs)[c := Refill(old(cs)[c], hhdm, c, r)]
      ensures ok ==> slabs == old(slabs)[c := SlabStruct(slabs[c].firstFree, entSize)]
      ensures Framed(old(pmm.ram[..]), pmm.ram[..], old(pmm.live), pmm.live, old(cs), cs)
    {
      ghost var mem, live, before := pmm.ram[..], pmm.live, cs;
      var region := NewRegion();
      r, ok := 0, region.Some?;
      if ok {
        r := region.value;
        Install(c, entSize, region.value);
        RegionFramed(mem, pmm.ram[..], live, pmm.live, before, c, hhdm, r);
      }
    }

    method Install(c: nat, entSize: nat, r: nat)
      requires Valid() && c < CLASSES && cs[c].free == [] && entSize == EntSize(c)
      requires 64 * r in pmm.live && pmm.live[64 * r] == 64 && 32768 * r + 32768 <= pmm.ram.Length
      requires forall d | 0 <= d < CLASSES :: r !in cs[d].regions
      modifies this, pmm.ram
      ensures Valid() && Preserves(old(pmm.ram[..]), pmm.ram[..], old(cs))
      ensures cs == old(cs)[c := Refill(old(cs)[c], hhdm, c, r)]
      ensures slabs == old(slabs)[c := SlabStruct(slabs[c].firstFree, entSize)]
      ensures OnlyRegion(old(pmm.ram[..]), pmm.ram[..], r)
    {
      ghost var mem := pmm.ram[..];
      LayRegion(c, entSize, r);
      InstallKeeps(mem, pmm.ram[..], hhdm, table, cs, slabs, pmm.live, c, r);
      slabs := slabs[c := SlabStruct(Ptr(hhdm, 32768 * r + entSize / 8), entSize)];
      cs := cs[c := Refill(cs[c], hhdm, c, r)];
    }

    /** `alloc_from_slab`: the head of the class's list, after a refill if the list is empty. */
    method AllocFromSlab(c: nat) returns (a: Option<nat>)
      requires Valid() && Ready() && c < CLASSES
      modifies this, pmm`cursor, pmm`live, pmm.bitmap, pmm.ram
      ensures Valid() && Ready() && Preserves(old(pmm.ram[..]), pmm.ram[..], old(cs))
      ensures a.Some? ==> Handed(old(cs), cs, hhdm, c, a.value)
      ensures a.None? ==> cs == old(cs) && cs[c].free == [] && pmm.Exhausted(64)
      ensures Framed(old(pmm.ram[..]), pmm.ram[..], old(pmm.live), pmm.live, old(cs), cs)
    {
      var ok := RefillIfEmpty(c);
      if !ok {
        return None;
      }
      ghost var mid := cs;
      a := PopHead(c, old(cs));
      FramedTwice(old(pmm.ram[..]), pmm.ram[..], pmm.ram[..], old(pmm.live), pmm.live, pmm.live, old(cs), mid, cs);
    }

    /** The first branch of `alloc_from_slab`. */
    method RefillIfEmpty(c: nat) returns (ok: bool)
      requires Valid() && Ready() && c < CLASSES
      modifies this, pmm`cursor, pmm`live, pmm.bitmap, pmm.ram
      ensures Valid() && Ready() && Preserves(old(pmm.ram[..]), pmm.ram[..], old(cs))
      ensures ok ==> cs[c].free != [] && SameBut(old(cs), cs, c)
      ensures !ok ==> cs == old(cs) && cs[c].free == [] && pmm.Exhausted(64)
      ensures Framed(old(pmm.ram[..]), pmm.ram[..], old(pmm.live), pmm.live, old(cs), cs)
    {
      FirstNull(hhdm, cs[c].free);
      ok := true;
      if slabs[c].firstFree == 0 {
        ghost var r;
        ok, r := CreateSlab(c, slabs[c].entSize);
        NotEmpty(r, c);
      }
    }

    method PopHead(c: nat, ghost before: seq<Class>) returns (a: Option<nat>)
      requires Valid() && Ready() && c < CLASSES && |before| == CLASSES
      requires cs[c].free != [] && SameBut(before, cs, c)
      modifies this
      ensures Valid() && Ready() && a.Some? && Handed(before, cs, hhdm, c, a.value) && SameRegions(old(cs), cs)
    {
      HeadKeeps(pmm.ram[..], hhdm, table, cs, slabs, pmm.live, c);
      HeadHanded(pmm.ram[..], hhdm, table, before, cs, c);
      var oldFree := slabs[c].firstFree;
      ghost var w := cs[c].free[0];
      assert oldFree == hhdm + 8 * w && (oldFree - hhdm) / 8 == w;
      var next := pmm.ram[(oldFree - hhdm) / 8];
      slabs := slabs[c := SlabStruct(next, slabs[c].entSize)];
      cs := cs[c := Pop(pmm.ram[..], cs[c])];
      a := Some(oldFree);
    }

    /** `free_in_slab`: the block at `a` becomes the head of its class's list. */
    method FreeInSlab(c: nat, a: nat)
      requires Valid() && Ready() && c < CLASSES && LiveAt(cs, hhdm, c, a)
      modifies this, pmm.ram
      ensures Valid() && Ready() && Returned(old(cs), cs, hhdm, c, a)
      ensures Preserves(old(pmm.ram[..]), pmm.ram[..], cs)
      ensures Framed(old(pmm.ram[..]), pmm.ram[..], old(pmm.live), pmm.live, old(cs), cs)
    {
      ghost var mem, w, before := pmm.ram[..], (a - hhdm) / 8, cs;
      assert a == Ptr(hhdm, w);
      TailKeeps(mem, hhdm, table, cs, slabs, pmm.live, c, w);
      pmm.ram[(a - hhdm) / 8] := slabs[c].firstFree;
      slabs := slabs[c := SlabStruct(a, slabs[c].entSize)];
      cs := cs[c := Push(cs[c], hhdm, w)];
      WordFramed(mem, pmm.ram[..], pmm.live, before, cs, c, w);
    }

    /** The owner of a block, read from the header its masked address points at. */
    method OwnerOf(a: nat, ghost c: nat) returns (owner: nat)
      requires Valid() && c < CLASSES && LiveAt(cs, hhdm, c, a)
      ensures owner == c
    {
      ghost var w := (a - hhdm) / 8;
      assert a == Ptr(hhdm, w);
      MaskFindsOwner(pmm.ram[..], hhdm, table, cs, c, w);
      var header := AndNot(a, 0x3ffff);
      assert (header - hhdm) / 8 == 32768 * (w / 32768);
      var slab := pmm.ram[(header - hhdm) / 8];
      owner := (slab - table) / 24;
    }

    /** `slab_init` */
    method Init() returns (ok: bool)
      requires Valid() && forall c | 0 <= c < CLASSES :: cs[c] == Class(0, [], {}, {})
      modifies this, pmm`cursor, pmm`live, pmm.bitmap, pmm.ram
      ensures Valid() && Framed(old(pmm.ram[..]), pmm.ram[..], old(pmm.live), pmm.live, old(cs), cs)
      ensures !ok ==> pmm.Exhausted(64)
      ensures ok ==> Ready() && forall c | 0 <= c < CLASSES :: cs[c].live == {} && |cs[c].regions| == 1
      ensures ok ==> forall c | 0 <= c < 12 ::
                slabs[c].entSize == [8, 16, 32, 64, 128, 256, 512, 1024, 2048, 4096, 8192, 16384][c]
    {
      ghost var mem, live, before := pmm.ram[..], pmm.live, cs;
      var sizes := [8, 16, 32, 64, 128, 256, 512, 1024, 2048, 4096, 8192, 16384];
      for c := 0 to |sizes|
        invariant Valid() && Framed(mem, pmm.ram[..], live, pmm.live, before, cs)
        invariant forall d | 0 <= d < c :: slabs[d].entSize == EntSize(d) && cs[d].live == {} && |cs[d].regions| == 1
        invariant forall d | c <= d < CLASSES :: cs[d] == Class(0, [], {}, {})
      {
        SizesAre(c);
        ok := InitClass(c, sizes[c], mem, live, before);
        if !ok {
          return;
        }
      }
      forall c | 0 <= c < 12 ensures slabs[c].entSize == sizes[c] {
        SizesAre(c);
      }
      return true;
    }

    /** One of its calls. */
    method InitClass(c: nat, entSize: nat, ghost mem: seq<Word>, ghost live: map<nat, nat>, ghost before: seq<Class>)
      returns (ok: bool)
      requires Valid() && c < CLASSES && entSize == EntSize(c) && cs[c] == Class(0, [], {}, {})
      requires Framed(mem, pmm.ram[..], live, pmm.live, before, cs)
      modifies this, pmm`cursor, pmm`live, pmm.bitmap, pmm.ram
      ensures Valid() && Framed(mem, pmm.ram[..], live, pmm.live, before, cs)
      ensures !ok ==> pmm.Exhausted(64)
      ensures ok ==>
                |slabs| == |old(slabs)| == CLASSES && slabs[c].entSize == EntSize(c) && cs[c].live == {}
                && |cs[c].regions| == 1
      ensures ok ==> forall d | 0 <= d < CLASSES && d != c :: slabs[d] == old(slabs)[d] && cs[d] == old(cs)[d]
    {
      ghost var mem1, live1, cs1 := pmm.ram[..], pmm.live, cs;
      ghost var r;
      ok, r := CreateSlab(c, entSize);
      FramedTwice(mem, mem1, pmm.ram[..], live, live1, pmm.live, before, cs1, cs);
    }

    /** Why `slab_alloc` panics: the class for the size has no free block, and there are no pages for a new region. */
    ghost predicate Starved(size: nat)
      reads this, pmm, pmm.bitmap
    {
      && size > 0 && SlabFor(size).Some? && SlabFor(size).value < |cs| && cs[SlabFor(size).value].free == []
      && pmm.Exhausted(64)
    }

    /** `slab_alloc`: a block strictly larger than `size` from the smallest such class, NULL from 16384 on. */
    method Alloc(size: nat) returns (a: Option<nat>)
      requires Valid() && Ready() && size > 0
      modifies this, pmm`cursor, pmm`live, pmm.bitmap, pmm.ram
      ensures Valid() && Ready() && Preserves(old(pmm.ram[..]), pmm.ram[..], old(cs))
      ensures Allocated(old(cs), cs, hhdm, size, a)
      ensures Framed(old(pmm.ram[..]), pmm.ram[..], old(pmm.live), pmm.live, old(cs), cs)
      ensures a.None? && SlabFor(size).Some? ==> Starved(size)
      ensures SlabFor(size).None? ==>
                a.None? && slabs == old(slabs) && pmm.ram[..] == old(pmm.ram[..]) && pmm.live == old(pmm.live)
    {
      SlabForIs(size);
      var c := SlabFor(size);
      if c.None? {
        return None;
      }
      a := AllocFromSlab(c.value);
    }

    /** A caller writes word `x` of its own block. */
    method Store(x: nat, v: Word, ghost c: nat)
      requires Valid() && c < CLASSES && Inside(cs, c, x) && x < pmm.ram.Length
      modifies pmm.ram
      ensures Valid() && pmm.ram[..] == old(pmm.ram[..])[x := v]
      ensures Framed(old(pmm.ram[..]), pmm.ram[..], old(pmm.live), pmm.live, old(cs), cs)
    {
      InsideRegions(pmm.ram[..], hhdm, table, cs, c, x);
      StoreKeeps(pmm.ram[..], hhdm, table, cs, c, x, v);
      pmm.ram[x] := v;
    }

    /** `memcpy` of `n` words into the start of the live block of class `d` at word `dst`. */
    method CopyWords(dst: nat, src: nat, n: nat, ghost d: nat)
      requires Valid() && d < CLASSES && dst in cs[d].live && n <= Words(d)
      requires src + n <= pmm.ram.Length && dst + n <= pmm.ram.Length && (src + n <= dst || dst + n <= src)
      modifies pmm.ram
      ensures Valid() && Copied(old(pmm.ram[..]), pmm.ram[..], dst, src, n)
      ensures Framed(old(pmm.ram[..]), pmm.ram[..], old(pmm.live), pmm.live, old(cs), cs)
    {
      ghost var mem := pmm.ram[..];
      for j := 0 to n
        invariant Valid() && Copied(mem, pmm.ram[..], dst, src, j)
                  && Framed(mem, pmm.ram[..], pmm.live, pmm.live, cs, cs)
      {
        CopyWord(dst, src, j, d, mem, n);
      }
    }

    method CopyWord(dst: nat, src: nat, j: nat, ghost d: nat, ghost past: seq<Word>, ghost n: nat)
      requires Valid() && d < CLASSES && dst in cs[d].live && j < n <= Words(d)
      requires src + n <= pmm.ram.Length && dst + n <= pmm.ram.Length && (src + n <= dst || dst + n <= src)
      requires Copied(past, pmm.ram[..], dst, src, j) && Framed(past, pmm.ram[..], pmm.live, pmm.live, cs, cs)
      modifies pmm.ram
      ensures Valid() && Copied(past, pmm.ram[..], dst, src, j + 1)
              && Framed(past, pmm.ram[..], pmm.live, pmm.live, cs, cs)
    {
      ghost var mem := pmm.ram[..];
      CopyNext(past, mem, dst, src, j, n);
      assert Inside(cs, d, dst + j);
      Store(dst + j, pmm.ram[src + j], d);
      FramedTwice(past, mem, pmm.ram[..], pmm.live, pmm.live, pmm.live, cs, cs, cs);
    }

    /** `slab_realloc`: in place when the entry is large enough; otherwise the whole old entry is copied to
        a block of a larger class and the old block freed. With no larger class or no memory nothing changes. */
    method Realloc(a: nat, newSize: nat, ghost c: nat) returns (r: Option<nat>)
      requires Valid() && Ready() && c < CLASSES && if a == 0 then newSize > 0 else LiveAt(cs, hhdm, c, a)
      modifies this, pmm`cursor, pmm`live, pmm.bitmap, pmm.ram
      ensures Valid() && Ready()
      ensures Framed(old(pmm.ram[..]), pmm.ram[..], old(pmm.live), pmm.live, old(cs), cs)
      ensures a == 0 ==> Allocated(old(cs), cs, hhdm, newSize, r) && Preserves(old(pmm.ram[..]), pmm.ram[..], old(cs))
      ensures a != 0 && newSize <= EntSize(c) ==> r == Some(a) && cs == old(cs) && pmm.ram[..] == old(pmm.ram[..])
      ensures a != 0 && r.None? ==> cs == old(cs) && Preserves(old(pmm.ram[..]), pmm.ram[..], cs)
      ensures r.None? ==> newSize > 0 && (SlabFor(newSize).None? || Starved(newSize))
      ensures a != 0 && newSize > EntSize(c) && SlabFor(newSize).None? ==>
                r.None? && slabs == old(slabs) && pmm.ram[..] == old(pmm.ram[..]) && pmm.live == old(pmm.live)
      ensures a != 0 && newSize > EntSize(c) && r.Some? ==>
                Grown(old(pmm.ram[..]), pmm.ram[..], old(cs), cs, hhdm, c, a, newSize, r.value)
    {
      if a == 0 {
        r := Alloc(newSize);
        return;
      }
      var owner := OwnerOf(a, c);
      if newSize > slabs[owner].entSize {
        r := Grow(a, newSize, owner);
      } else {
        r := Some(a);
      }
    }

    method Grow(a: nat, newSize: nat, c: nat) returns (r: Option<nat>)
      requires Valid() && Ready() && c < CLASSES && LiveAt(cs, hhdm, c, a) && newSize > EntSize(c)
      modifies this, pmm`cursor, pmm`live, pmm.bitmap, pmm.ram
      ensures Valid() && Ready()
      ensures Framed(old(pmm.ram[..]), pmm.ram[..], old(pmm.live), pmm.live, old(cs), cs)
      ensures r.None? ==> cs == old(cs) && Preserves(old(pmm.ram[..]), pmm.ram[..], cs)
      ensures r.None? && SlabFor(newSize).Some? ==> Starved(newSize)
      ensures SlabFor(newSize).None? ==>
                r.None? && slabs == old(slabs) && pmm.ram[..] == old(pmm.ram[..]) && pmm.live == old(pmm.live)
      ensures r.Some? ==> Grown(old(pmm.ram[..]), pmm.ram[..], old(cs), cs, hhdm, c, a, newSize, r.value)
    {
      ghost var before, mem, live := cs, pmm.ram[..], pmm.live;
      r := Alloc(newSize);
      if r.Some? {
        var n := r.value;
        ghost var d := SlabFor(newSize).value;
        LargerClass(newSize, c, d);
        ghost var mid, mem1, live1 := cs, pmm.ram[..], pmm.live;
        assert Handed(before, mid, hhdm, d, n);
        Relocate(a, n, c, d, newSize, before, mem);
        FramedTwice(mem, mem1, pmm.ram[..], live, live1, live1, before, mid, cs);
      }
    }

    /** Copy and free of a growing `slab_realloc`, once there is a block at `n`. */
    method Relocate(a: nat, n: nat, c: nat, ghost d: nat, ghost newSize: nat, ghost before: seq<Class>,
                    ghost mem0: seq<Word>)
      requires Valid() && Ready() && c < d < CLASSES && Words(c) <= Words(d) && LiveAt(before, hhdm, c, a)
      requires newSize > 0 && SlabFor(newSize) == Some(d) && newSize < EntSize(d)
      requires Handed(before, cs, hhdm, d, n) && Preserves(mem0, pmm.ram[..], before)
      modifies this, pmm.ram
      ensures Valid() && Ready() && Grown(mem0, pmm.ram[..], before, cs, hhdm, c, a, newSize, n)
      ensures Framed(old(pmm.ram[..]), pmm.ram[..], old(pmm.live), pmm.live, old(cs), cs)
    {
      var w, x := (a - hhdm) / 8, (n - hhdm) / 8;
      MoveBlock(w, x, a, c, d, before, mem0);
      GrownTo(mem0, pmm.ram[..], before, cs, hhdm, c, a, newSize, n, w, d, x);
    }

    method MoveBlock(w: nat, x: nat, a: nat, c: nat, ghost d: nat, ghost before: seq<Class>, ghost mem0: seq<Word>)
      requires Valid() && Ready() && c < d < CLASSES && Words(c) <= Words(d)
      requires LiveAt(before, hhdm, c, a) && w == (a - hhdm) / 8
      requires HandedWord(before, cs, d, x) && Preserves(mem0, pmm.ram[..], before)
      modifies this, pmm.ram
      ensures Valid() && Ready() && Moved(mem0, pmm.ram[..], before, cs, c, w, d, x)
      ensures Framed(old(pmm.ram[..]), pmm.ram[..], old(pmm.live), pmm.live, old(cs), cs)
    {
      ghost var mem1, cs1 := pmm.ram[..], cs;
      TwoBlocks(mem1, hhdm, table, cs, c, w, d, x);
      var n := slabs[c].entSize / 8;
      assert n == Words(c);
      CopyWords(x, w, n, d);
      assert cs[c] == before[c];
      FreeMoved(w, x, a, c, d, before, mem0, mem1);
    }

    /** The old block is freed once its words are copied. */
    method FreeMoved(ghost w: nat, ghost x: nat, a: nat, c: nat, ghost d: nat, ghost before: seq<Class>,
                     ghost mem0: seq<Word>, ghost mem1: seq<Word>)
      requires Valid() && Ready() && c < d < CLASSES && Words(c) <= Words(d) && LiveAt(cs, hhdm, c, a)
               && w == (a - hhdm) / 8
      requires HandedWord(before, cs, d, x) && Preserves(mem0, mem1, before) && SlabInv(mem1, hhdm, table, cs)
      requires Copied(mem1, pmm.ram[..], x, w, Words(c)) && Framed(mem1, pmm.ram[..], pmm.live, pmm.live, cs, cs)
      modifies this, pmm.ram
      ensures Valid() && Ready() && Moved(mem0, pmm.ram[..], before, cs, c, w, d, x)
      ensures Framed(mem1, pmm.ram[..], pmm.live, pmm.live, old(cs), cs)
    {
      ghost var mem2, cs1, live := pmm.ram[..], cs, pmm.live;
      FreeInSlab(c, a);
      FramedTwice(mem1, mem2, pmm.ram[..], live, live, live, cs1, cs1, cs);
      MoveDone(mem0, mem1, mem2, pmm.ram[..], hhdm, table, before, cs1, cs, c, w, d, x);
    }

    /** `slab_free` */
    method Free(a: nat, ghost c: nat)
      requires Valid() && Ready() && c < CLASSES && (a == 0 || LiveAt(cs, hhdm, c, a))
      modifies this, pmm.ram
      ensures Valid() && Ready()
      ensures Framed(old(pmm.ram[..]), pmm.ram[..], old(pmm.live), pmm.live, old(cs), cs)
      ensures a == 0 ==> cs == old(cs) && pmm.ram[..] == old(pmm.ram[..])
      ensures a != 0 ==> Returned(old(cs), cs, hhdm, c, a) && Preserves(old(pmm.ram[..]), pmm.ram[..], cs)
    {
      if a == 0 {
        return;
      }
      var owner := OwnerOf(a, c);
      FreeInSlab(owner, a);
    }
  }

  ghost predicate Copied(mem: seq<Word>, mem': seq<Word>, dst: nat, src: nat, n: nat) {
    && |mem'| == |mem| && src + n <= |mem| && dst + n <= |mem|
    && mem'[dst..dst + n] == mem[src..src + n]
    && (forall x | 0 <= x < |mem| && !(dst <= x < dst + n) :: mem'[x] == mem[x])
  }

  lemma CopyNext(mem: seq<Word>, mem': seq<Word>, dst: nat, src: nat, j: nat, n: nat)
    requires Copied(mem, mem', dst, src, j) && j < n && src + n <= |mem| && dst + n <= |mem|
             && (src + n <= dst || dst + n <= src)
    ensures Copied(mem, mem'[dst + j := mem'[src + j]], dst, src, j + 1)
  {
    var after := mem'[dst + j := mem'[src + j]];
    assert after[dst..dst + j] == mem'[dst..dst + j];
    assert mem'[src + j] == mem[src + j];
    assert after[dst..dst + (j + 1)] == after[dst..dst + j] + [mem[src + j]];
    assert mem[src..src + (j + 1)] == mem[src..src + j] + [mem[src + j]];
  }

  /** The block at word `w` of class `c` moved to word `x` of the larger class `d`: old entry copied, old block
      freed, every other live block as it was. */
  ghost predicate Moved(mem: seq<Word>, mem': seq<Word>, before: seq<Class>, after: seq<Class>, c: nat, w: nat, d: nat,
                        x: nat)
    requires c < CLASSES && d < CLASSES
  {
    && Relabelled(before, after, c, w, d, x) && SameSlice(mem, w, mem', x, Words(c))
    && Preserves(mem, mem', Without(before, c, w))
  }

  /** `slab_realloc` moved the block at `a`: to the smallest class with room for `newSize`, and larger than its own. */
  ghost predicate Grown(mem: seq<Word>, mem': seq<Word>, before: seq<Class>, after: seq<Class>, hhdm: nat,
                        c: nat, a: nat, newSize: nat, n: nat)
    requires c < CLASSES && newSize > 0
  {
    && IsPtr(hhdm, a) && IsPtr(hhdm, n)
    && exists d :: SlabFor(newSize) == Some(d) && c < d < CLASSES && newSize < EntSize(d)
                   && Moved(mem, mem', before, after, c, (a - hhdm) / 8, d, (n - hhdm) / 8)
  }

  lemma GrownTo(mem: seq<Word>, mem': seq<Word>, before: seq<Class>, after: seq<Class>, hhdm: nat,
                c: nat, a: nat, newSize: nat, n: nat, w: nat, d: nat, x: nat)
    requires c < d < CLASSES && newSize > 0 && IsPtr(hhdm, a) && IsPtr(hhdm, n) && SlabFor(newSize) == Some(d)
             && newSize < EntSize(d)
    requires w == (a - hhdm) / 8 && x == (n - hhdm) / 8 && Moved(mem, mem', before, after, c, w, d, x)
    ensures Grown(mem, mem', before, after, hhdm, c, a, newSize, n)
  {}

  ghost predicate Relabelled(before: seq<Class>, after: seq<Class>, c: nat, w: nat, d: nat, x: nat)
    requires c < CLASSES && d < CLASSES
  {
    && |before| == |after| == CLASSES && c < d && w in before[c].live && x !in before[d].live && w != x
    && after[d].live == before[d].live + {x} && after[c].live == before[c].live - {w}
    && (forall e | 0 <= e < CLASSES && e != c && e != d :: after[e] == before[e])
  }

  ghost predicate SameSlice(mem: seq<Word>, w: nat, mem': seq<Word>, x: nat, n: nat) {
    w + n <= |mem| && x + n <= |mem'| && mem'[x..x + n] == mem[w..w + n]
  }

  ghost function Without(cs: seq<Class>, c: nat, w: nat): seq<Class>
    requires c < |cs|
  {
    cs[c := cs[c].(live := cs[c].live - {w})]
  }

  lemma LargerClass(newSize: nat, c: nat, d: nat)
    requires c < CLASSES && newSize > EntSize(c) && SlabFor(newSize) == Some(d)
    ensures c < d < CLASSES && newSize < EntSize(d) && Words(c) <= Words(d)
  {
    SlabForIs(newSize);
    WordsMonotone(c, d);
    if d <= c {
      WordsMonotone(d, c);
    }
  }

  lemma WordsMonotone(c: nat, d: nat)
    ensures c <= d ==> Words(c) <= Words(d)
  {
    if c <= d {
      Pow2Monotone(c, d);
    }
  }

  lemma TwoBlocks(mem: seq<Word>, hhdm: nat, table: nat, cs: seq<Class>, c: nat, w: nat, d: nat, x: nat)
    requires SlabInv(mem, hhdm, table, cs) && c < d < CLASSES && w in cs[c].live && x in cs[d].live
    ensures w + Words(c) <= |mem| && x + Words(d) <= |mem| && (w + Words(c) <= x || x + Words(d) <= w)
  {
    BlocksDisjoint(mem, hhdm, table, cs, c, w, d, x);
    BlocksDisjoint(mem, hhdm, table, cs, d, x, c, w);
  }

  lemma MoveDone(mem0: seq<Word>, mem1: seq<Word>, mem2: seq<Word>, mem3: seq<Word>, hhdm: nat, table: nat,
                 before: seq<Class>, cs1: seq<Class>, after: seq<Class>, c: nat, w: nat, d: nat, x: nat)
    requires c < d < CLASSES && Words(c) <= Words(d) && |before| == CLASSES
    requires w in before[c].live && HandedWord(before, cs1, d, x) && Preserves(mem0, mem1, before)
    requires SlabInv(mem1, hhdm, table, cs1) && Copied(mem1, mem2, x, w, Words(c))
    requires ReturnedWord(cs1, after, c, w) && Preserves(mem2, mem3, after)
    ensures Moved(mem0, mem3, before, after, c, w, d, x)
  {
    assert w != x by {
      LiveApart(mem1, hhdm, table, cs1, c, w, d, x);
    }
    assert SameSlice(mem0, w, mem3, x, Words(c)) by {
      CopySurvives(mem0, mem1, mem2, mem3, before, after, c, w, d, x);
    }
    var rest := Without(before, c, w);
    assert Preserves(mem0, mem3, rest) by {
      forall e, y | 0 <= e < CLASSES && 0 <= y < |mem0| && Inside(rest, e, y) ensures mem3[y] == mem0[y] {
        var u :| u in rest[e].live && u <= y < u + Words(e);
        OthersKept(mem0, mem1, mem2, mem3, hhdm, table, before, cs1, after, c, w, d, x, e, u, y);
      }
    }
  }

  lemma CopySurvives(mem0: seq<Word>, mem1: seq<Word>, mem2: seq<Word>, mem3: seq<Word>, before: seq<Class>,
                     after: seq<Class>,
                     c: nat, w: nat, d: nat, x: nat)
    requires c < CLASSES && d < CLASSES && Words(c) <= Words(d) && |before| == |after| == CLASSES
    requires w in before[c].live && x in after[d].live
    requires Preserves(mem0, mem1, before) && Copied(mem1, mem2, x, w, Words(c)) && Preserves(mem2, mem3, after)
    ensures SameSlice(mem0, w, mem3, x, Words(c))
  {
    var n := Words(c);
    forall k | x <= k < x + n ensures mem3[k] == mem2[k] {
      PreservedWord(mem2, mem3, after, d, x, k);
    }
    forall k | w <= k < w + n ensures mem1[k] == mem0[k] {
      PreservedWord(mem0, mem1, before, c, w, k);
    }
    assert mem3[x..x + n] == mem2[x..x + n];
    assert mem1[w..w + n] == mem0[w..w + n];
  }

  lemma OthersKept(mem0: seq<Word>, mem1: seq<Word>, mem2: seq<Word>, mem3: seq<Word>, hhdm: nat, table: nat,
                   before: seq<Class>, cs1: seq<Class>, after: seq<Class>, c: nat, w: nat, d: nat, x: nat, e: nat,
                   u: nat, y: nat)
    requires c < d < CLASSES && Words(c) <= Words(d) && e < CLASSES && |before| == CLASSES
    requires HandedWord(before, cs1, d, x) && Preserves(mem0, mem1, before)
    requires SlabInv(mem1, hhdm, table, cs1) && Copied(mem1, mem2, x, w, Words(c))
    requires ReturnedWord(cs1, after, c, w) && Preserves(mem2, mem3, after)
    requires u in before[e].live && (e != c || u != w) && u <= y < u + Words(e) && y < |mem0|
    ensures mem3[y] == mem0[y]
  {
    PreservedWord(mem0, mem1, before, e, u, y);
    PreservedWord(mem2, mem3, after, e, u, y);
    LiveApart(mem1, hhdm, table, cs1, e, u, d, x);
  }

  lemma LiveApart(mem: seq<Word>, hhdm: nat, table: nat, cs: seq<Class>, c: nat, w: nat, d: nat, x: nat)
    requires SlabInv(mem, hhdm, table, cs) && c < CLASSES && d < CLASSES && w in cs[c].live && x in cs[d].live
             && (c != d || w != x)
    ensures w + Words(c) <= x || x + Words(d) <= w
  {
    assert IsBlock(c, cs[c].regions, w) && IsBlock(d, cs[d].regions, x);
    BlocksDisjoint(mem, hhdm, table, cs, c, w, d, x);
  }

  /** `a` points at a live block of class `c`. */
  ghost predicate LiveAt(cs: seq<Class>, hhdm: nat, c: nat, a: nat)
    requires c < CLASSES
  {
    |cs| == CLASSES && IsPtr(hhdm, a) && (a - hhdm) / 8 in cs[c].live
  }

  /** The block at word `w` stopped being live, and nothing else. */
  ghost predicate ReturnedWord(before: seq<Class>, after: seq<Class>, c: nat, w: nat)
    requires c < CLASSES
  {
    && |before| == |after| == CLASSES && w in before[c].live
    && after[c].live == before[c].live - {w} && after[c].regions == before[c].regions
    && forall d | 0 <= d < CLASSES && d != c :: after[d] == before[d]
  }

  lemma TailKeeps(mem: seq<Word>, hhdm: nat, table: nat, cs: seq<Class>, slabs: seq<SlabStruct>, live: map<nat, nat>,
                  c: nat, w: nat)
    requires SlabInv(mem, hhdm, table, cs) && Stored(slabs, cs) && Backed(live, cs) && c < CLASSES && w in cs[c].live
    requires hhdm + 8 * |mem| <= 0x1_0000_0000_0000_0000
    ensures w < |mem| && SlabInv(mem[w := slabs[c].firstFree], hhdm, table, cs[c := Push(cs[c], hhdm, w)])
    ensures Preserves(mem, mem[w := slabs[c].firstFree], cs[c := Push(cs[c], hhdm, w)])
    ensures Ptr(hhdm, w) < 0x1_0000_0000_0000_0000
    ensures Backed(live, cs[c := Push(cs[c], hhdm, w)])
    ensures Stored(slabs[c := SlabStruct(Ptr(hhdm, w), slabs[c].entSize)], cs[c := Push(cs[c], hhdm, w)])
  {
    PushKeeps(mem, hhdm, table, cs, c, w);
    StoredUpdate(slabs, cs, c, SlabStruct(Ptr(hhdm, w), slabs[c].entSize), Push(cs[c], hhdm, w));
    BackedUpdate(live, cs, c, Push(cs[c], hhdm, w));
    StorePreserves(mem, hhdm, table, cs, cs[c := Push(cs[c], hhdm, w)], c, w, w, slabs[c].firstFree);
  }

  lemma FirstNull(hhdm: nat, free: seq<nat>)
    requires hhdm > 0
    ensures Link(hhdm, free, 0) == 0 <==> free == []
  {}

  lemma InstallKeeps(mem: seq<Word>, mem': seq<Word>, hhdm: nat, table: nat, cs: seq<Class>, slabs: seq<SlabStruct>,
                     live: map<nat, nat>, c: nat, r: nat)
    requires SlabInv(mem, hhdm, table, cs) && Stored(slabs, cs) && Backed(live, cs) && c < CLASSES && cs[c].free == []
    requires Laid(mem, mem', hhdm, table, c, r) && 64 * r in live && live[64 * r] == 64
    requires hhdm + 8 * |mem| <= 0x1_0000_0000_0000_0000 && forall d | 0 <= d < CLASSES :: r !in cs[d].regions
    ensures Ptr(hhdm, 32768 * r + EntSize(c) / 8) < 0x1_0000_0000_0000_0000
    ensures SlabInv(mem', hhdm, table, cs[c := Refill(cs[c], hhdm, c, r)]) && Preserves(mem, mem', cs)
    ensures Backed(live, cs[c := Refill(cs[c], hhdm, c, r)])
    ensures Stored(slabs[c := SlabStruct(Ptr(hhdm, 32768 * r + EntSize(c) / 8), EntSize(c))],
                   cs[c := Refill(cs[c], hhdm, c, r)])
  {
    FirstBlock(r, c, hhdm, |mem|);
    StoredUpdate(slabs, cs, c, SlabStruct(Ptr(hhdm, 32768 * r + EntSize(c) / 8), EntSize(c)),
                 Refill(cs[c], hhdm, c, r));
    BackedUpdate(live, cs, c, Refill(cs[c], hhdm, c, r));
    LaidPreserves(mem, mem', hhdm, table, cs, c, r);
    RefillKeeps(mem, mem', hhdm, table, cs, c, r);
  }

  lemma StoredUpdate(slabs: seq<SlabStruct>, cs: seq<Class>, c: nat, st: SlabStruct, cl: Class)
    requires Stored(slabs, cs) && c < CLASSES && st.firstFree == cl.first
    ensures Stored(slabs[c := st], cs[c := cl])
  {}

  lemma BackedUpdate(live: map<nat, nat>, cs: seq<Class>, c: nat, cl: Class)
    requires Backed(live, cs) && c < |cs|
    requires forall r: nat | r in cl.regions && r !in cs[c].regions :: 64 * r in live && live[64 * r] == 64
    ensures Backed(live, cs[c := cl])
  {}

  lemma HeadKeeps(mem: seq<Word>, hhdm: nat, table: nat, cs: seq<Class>, slabs: seq<SlabStruct>, live: map<nat, nat>,
                  c: nat)
    requires SlabInv(mem, hhdm, table, cs) && Stored(slabs, cs) && Backed(live, cs) && c < CLASSES && cs[c].free != []
    ensures cs[c].free[0] < |mem| && slabs[c].firstFree == Ptr(hhdm, cs[c].free[0])
    ensures SlabInv(mem, hhdm, table, cs[c := Pop(mem, cs[c])]) && Backed(live, cs[c := Pop(mem, cs[c])])
    ensures Stored(slabs[c := SlabStruct(mem[cs[c].free[0]], slabs[c].entSize)], cs[c := Pop(mem, cs[c])])
  {
    assert Threaded(mem, hhdm, cs[c]);
    StoredUpdate(slabs, cs, c, SlabStruct(mem[cs[c].free[0]], slabs[c].entSize), Pop(mem, cs[c]));
    BackedUpdate(live, cs, c, Pop(mem, cs[c]));
    PopKeeps(mem, hhdm, table, cs, c);
  }

  lemma HeadHanded(mem: seq<Word>, hhdm: nat, table: nat, before: seq<Class>, cs: seq<Class>, c: nat)
    requires SlabInv(mem, hhdm, table, cs) && c < CLASSES && cs[c].free != [] && cs[c].free[0] < |mem|
    requires |before| == CLASSES && SameBut(before, cs, c)
    ensures Handed(before, cs[c := Pop(mem, cs[c])], hhdm, c, Ptr(hhdm, cs[c].free[0]))
  {
    var w := cs[c].free[0];
    assert w in cs[c].free;
    assert (Ptr(hhdm, w) - hhdm) / 8 == w;
  }

  /** Nothing differs but that class `c` may have been refilled. */
  ghost predicate SameBut(before: seq<Class>, after: seq<Class>, c: nat)
    requires c < CLASSES
  {
    && |before| == |after| == CLASSES && after[c].live == before[c].live
    && forall d | 0 <= d < CLASSES && d != c :: after[d] == before[d]
  }

  lemma NotEmpty(r: nat, c: nat)
    requires c < CLASSES
    ensures Chain(r, c) != []
  {
    WordsValue(c);
  }

  lemma FirstBlock(r: nat, c: nat, hhdm: nat, length: nat)
    requires c < CLASSES && 32768 * r + 32768 <= length && hhdm + 8 * length <= 0x1_0000_0000_0000_0000
    ensures Ptr(hhdm, At(r, c, 0)) == Ptr(hhdm, 32768 * r + EntSize(c) / 8) < 0x1_0000_0000_0000_0000
  {
    WordsDivide(c);
    var n := Words(c);
    assert At(r, c, 0) == 32768 * r + n && EntSize(c) / 8 == n;
  }

  /** The block at word `w` of class `c`, not live before, was handed out, and nothing else became live. */
  ghost predicate HandedWord(before: seq<Class>, after: seq<Class>, c: nat, w: nat)
    requires c < CLASSES
  {
    && |before| == |after| == CLASSES && w !in before[c].live && after[c].live == before[c].live + {w}
    && forall d | 0 <= d < CLASSES && d != c :: after[d] == before[d]
  }

  /** A pointer into the direct map, word aligned. */
  predicate IsPtr(hhdm: nat, a: nat) { a >= hhdm && (a - hhdm) % 8 == 0 }

  ghost predicate Handed(before: seq<Class>, after: seq<Class>, hhdm: nat, c: nat, a: nat)
    requires c < CLASSES
  {
    IsPtr(hhdm, a) && HandedWord(before, after, c, (a - hhdm) / 8)
  }

  /** `slab_alloc` gave `a`: a block of the class for `size`, or nothing and nothing changed. */
  ghost predicate Allocated(before: seq<Class>, after: seq<Class>, hhdm: nat, size: nat, a: Option<nat>)
    requires size > 0
  {
    if a.None? then after == before
    else SlabFor(size).Some? && SlabFor(size).value < CLASSES
         && Handed(before, after, hhdm, SlabFor(size).value, a.value)
  }

  ghost predicate Returned(before: seq<Class>, after: seq<Class>, hhdm: nat, c: nat, a: nat)
    requires c < CLASSES
  {
    IsPtr(hhdm, a) && ReturnedWord(before, after, c, (a - hhdm) / 8)
  }

  /** The arithmetic of `create_slab`: offset of the first block in words, index of the last block, words
      per block. */
  method Layout(c: nat, entSize: nat) returns (offset: nat, max: nat, fact: nat)
    requires c < CLASSES && entSize == EntSize(c)
    ensures offset == fact == Words(c) && max + 1 == PerRegion(c)
  {
    LinksAre(c);
    WordsValue(c);
    var headerOffset := AlignUp(8, entSize);
    var available := 0x4_0000 - headerOffset;
    offset := headerOffset / 8;
    max := available / Pow2(Bsr(entSize)) - 1;
    fact := entSize / 8;
  }

  lemma LinkIsWord(r: nat, c: nat, n: nat, hhdm: nat, link: nat, length: nat)
    requires c < CLASSES && n < PerRegion(c) && 32768 * r + 32768 <= length
             && hhdm + 8 * length <= 0x1_0000_0000_0000_0000
    requires link == if n + 1 < PerRegion(c) then Ptr(hhdm, 32768 * r + Words(c) + (n + 1) * Words(c)) else 0
    ensures link < 0x1_0000_0000_0000_0000 && link == Link(hhdm, Chain(r, c), n + 1)
    ensures At(r, c, n) == 32768 * r + Words(c) + n * Words(c) < length
  {
    BlockOffset(r, c, n);
    assert (n + 1) * Words(c) == Words(c) + n * Words(c);
    if n + 1 < PerRegion(c) {
      BlockOffset(r, c, n + 1);
      assert (n + 2) * Words(c) == Words(c) + (n + 1) * Words(c);
    }
  }

  /** A run of 64 pages aligned to its length is a 256 KiB region, and none that was in use. */
  lemma RegionFromRun(before: map<nat, nat>, after: map<nat, nat>, n: nat, a: nat, cs: seq<Class>)
    requires a % 4096 == 0 && Pmm.Granted(before, after, n, a / 4096, 64) && Backed(before, cs)
    ensures var r := a / 0x4_0000;
      && 64 * r in after && after[64 * r] == 64 && 64 * r + 64 <= n && Backed(after, cs)
      && forall c | 0 <= c < |cs| :: r !in cs[c].regions
  {
    AlignedIsMod(a / 4096, 64);
    assert 64 * (a / 0x4_0000) == a / 4096;
  }

  ghost predicate Stored(slabs: seq<SlabStruct>, cs: seq<Class>) {
    |slabs| == |cs| == CLASSES && forall c | 0 <= c < CLASSES :: slabs[c].firstFree == cs[c].first
  }

  /** Every region is a live run of 64 pages. */
  ghost predicate Backed(live: map<nat, nat>, cs: seq<Class>) {
    forall c, r: nat | 0 <= c < |cs| && r in cs[c].regions :: 64 * r in live && live[64 * r] == 64
  }

  // ---- what slab operations leave alone ----

  ghost predicate InRegions(cs: seq<Class>, r: nat) { exists c :: 0 <= c < |cs| && r in cs[c].regions }

  /** Only region `r` was written. */
  ghost predicate OnlyRegion(mem: seq<Word>, mem': seq<Word>, r: nat) {
    |mem'| == |mem| && forall x | 0 <= x < |mem| && x / 32768 != r :: mem'[x] == mem[x]
  }

  /** Only slab regions were written; page runs and regions were only added, regions in pages that were not live and no
      run but for a region. */
  ghost predicate Framed(mem: seq<Word>, mem': seq<Word>, live: map<nat, nat>, live': map<nat, nat>, cs: seq<Class>,
                         cs': seq<Class>) {
    && |mem'| == |mem| && (forall x | 0 <= x < |mem| && !InRegions(cs', x / 32768) :: mem'[x] == mem[x])
    && (forall t: nat | t in live :: t in live' && live'[t] == live[t])
    && (forall r: nat | InRegions(cs, r) :: InRegions(cs', r))
    && (forall r: nat | InRegions(cs', r) && !InRegions(cs, r) :: 64 * r !in live)
    && (forall t: nat | t in live' && t !in live :: t == 64 * (t / 64) && InRegions(cs', t / 64))
  }

  lemma FramedTwice(a: seq<Word>, b: seq<Word>, c: seq<Word>, la: map<nat, nat>, lb: map<nat, nat>, lc: map<nat, nat>,
                    ca: seq<Class>, cb: seq<Class>, cc: seq<Class>)
    requires Framed(a, b, la, lb, ca, cb) && Framed(b, c, lb, lc, cb, cc)
    ensures Framed(a, c, la, lc, ca, cc)
  {}

  /** The classes have the same regions. */
  ghost predicate SameRegions(cs: seq<Class>, cs': seq<Class>) {
    |cs| == |cs'| && forall c | 0 <= c < |cs| :: cs'[c].regions == cs[c].regions
  }

  lemma WordFramed(mem: seq<Word>, mem': seq<Word>, live: map<nat, nat>, cs: seq<Class>, cs': seq<Class>, c: nat,
                   x: nat)
    requires c < |cs| && x / 32768 in cs[c].regions && SameRegions(cs, cs')
    requires |mem'| == |mem| && forall y | 0 <= y < |mem| && y != x :: mem'[y] == mem[y]
    ensures Framed(mem, mem', live, live, cs, cs')
  {
    forall r: nat ensures InRegions(cs, r) <==> InRegions(cs', r) {}
    assert InRegions(cs, x / 32768);
  }

  lemma RegionFramed(mem: seq<Word>, mem': seq<Word>, live: map<nat, nat>, live': map<nat, nat>, cs: seq<Class>,
                     c: nat, hhdm: nat, r: nat)
    requires |cs| == CLASSES && c < CLASSES && OnlyRegion(mem, mem', r) && 64 * r !in live
    requires forall t: nat | t in live :: t in live' && live'[t] == live[t]
    requires forall t: nat | t in live' && t !in live :: t == 64 * r
    ensures Framed(mem, mem', live, live', cs, cs[c := Refill(cs[c], hhdm, c, r)])
  {
    var cs' := cs[c := Refill(cs[c], hhdm, c, r)];
    forall q: nat ensures InRegions(cs', q) <==> q == r || InRegions(cs, q) {
      assert r in cs'[c].regions;
      if d :| 0 <= d < |cs| && q in cs[d].regions {
        assert q in cs'[d].regions;
      }
    }
  }

  /** A word inside a live block lies in one of its class's regions. */
  lemma InsideRegions(mem: seq<Word>, hhdm: nat, table: nat, cs: seq<Class>, c: nat, x: nat)
    requires SlabInv(mem, hhdm, table, cs) && c < CLASSES && Inside(cs, c, x)
    ensures x / 32768 in cs[c].regions
  {
    var w :| w in cs[c].live && w <= x < w + Words(c);
    assert IsBlock(c, cs[c].regions, w);
    InsideRegion(c, w);
    assert x / 32768 == w / 32768;
  }
}
