/**
 The slab allocator's data in memory. Memory is addressed in eight-byte words; a region is the 256 KiB
 (32768 words) `create_slab` takes from the page allocator, numbered by its place in physical memory.
 The word at the start of a region is its header; blocks of the class follow.
 */
module SlabSpec {
  import opened Bits
  import opened PageRuns

  const CLASSES: nat := 12

  /** Words per block of class `c`: 8 bytes for class 0, doubling up to 16384 bytes for class 11. */
  function Words(c: nat): nat { Pow2(c) }

  /** Blocks per region: all of it but the first block, which holds the header. */
  function PerRegion(c: nat): nat
    requires c < CLASSES
  {
    WordsValue(c);
    32768 / Words(c) - 1
  }

  /** One class: the head pointer, and as ghosts its free list, its live blocks and its regions. */
  datatype Class = Class(first: nat, free: seq<nat>, live: set<nat>, regions: set<nat>)

  /** The pointer to word `w` of physical memory. */
  function Ptr(hhdm: nat, w: nat): nat { hhdm + 8 * w }

  /** The pointer to `slabs[c]`. */
  function SlabPtr(table: nat, c: nat): nat { table + 24 * c }

  /** Word `w` starts a block of class `c` in one of the regions. */
  ghost predicate IsBlock(c: nat, regions: set<nat>, w: nat) {
    w / 32768 in regions && Aligned(w % 32768, Words(c)) && w % 32768 >= Words(c)
  }

  ghost function Link(hhdm: nat, free: seq<nat>, i: nat): nat {
    if i < |free| then Ptr(hhdm, free[i]) else 0
  }

  ghost predicate NoDuplicates(free: seq<nat>) {
    forall i, j | 0 <= i < j < |free| :: free[i] != free[j]
  }

  /** The free list is threaded through memory from `first` to NULL. */
  ghost predicate Threaded(mem: seq<Word>, hhdm: nat, s: Class) {
    && s.first == Link(hhdm, s.free, 0)
    && forall i | 0 <= i < |s.free| :: s.free[i] < |mem| && mem[s.free[i]] == Link(hhdm, s.free, i + 1)
  }

  /** Free and live blocks together are all the blocks of the class, each once. */
  ghost predicate Partition(c: nat, s: Class)
    requires c < CLASSES
  {
    && NoDuplicates(s.free)
    && (forall w | w in s.free :: w !in s.live)
    && (forall w :: w in s.free || w in s.live <==> IsBlock(c, s.regions, w))
    && |s.free| + |s.live| == PerRegion(c) * |s.regions|
  }

  ghost predicate Headers(mem: seq<Word>, table: nat, c: nat, regions: set<nat>) {
    forall r | r in regions :: 32768 * r + 32768 <= |mem| && mem[32768 * r] == SlabPtr(table, c)
  }

  /** What every run of slab operations keeps. */
  ghost predicate SlabInv(mem: seq<Word>, hhdm: nat, table: nat, cs: seq<Class>) {
    && |cs| == CLASSES
    && (forall c | 0 <= c < CLASSES ::
          Threaded(mem, hhdm, cs[c]) && Partition(c, cs[c]) && Headers(mem, table, c, cs[c].regions))
    && (forall c, d | 0 <= c < d < CLASSES :: cs[c].regions !! cs[d].regions)
  }

  // ---- what the invariant gives ----

  /** Blocks of any two places, of any classes, share no word: live blocks are disjoint from each other,
      from every free block and from every header. */
  lemma BlocksDisjoint(mem: seq<Word>, hhdm: nat, table: nat, cs: seq<Class>, c: nat, w: nat, d: nat, x: nat)
    requires SlabInv(mem, hhdm, table, cs) && c < CLASSES && d < CLASSES
    requires IsBlock(c, cs[c].regions, w) && IsBlock(d, cs[d].regions, x) && (c != d || w != x)
    ensures w + Words(c) <= x || x + Words(d) <= w
    ensures 32768 * (w / 32768) + 1 <= w && w + Words(c) <= 32768 * (w / 32768) + 32768 <= |mem|
  {
    InsideRegion(c, w);
    InsideRegion(d, x);
    var r, t := w / 32768, x / 32768;
    if r == t {
      assert r in cs[c].regions && r in cs[d].regions;
      if w < x {
        AlignedApart(w % 32768, x % 32768, Words(c));
      } else {
        AlignedApart(x % 32768, w % 32768, Words(c));
      }
    }
  }

  lemma InsideRegion(c: nat, w: nat)
    requires c < CLASSES && Aligned(w % 32768, Words(c))
    ensures w % 32768 + Words(c) <= 32768
  {
    WordsDivide(c);
    AlignedApart(w % 32768, 32768, Words(c));
  }

  lemma WordsDivide(c: nat)
    requires c < CLASSES
    ensures Words(c) <= 2048 && 32768 == (PerRegion(c) + 1) * Words(c) && Aligned(32768, Words(c))
  {
    WordsValue(c);
    AlignedIsMod(32768, Words(c));
    DivideOut(Words(c));
  }

  lemma DivideOut(n: nat)
    requires n in {1, 2, 4, 8, 16, 32, 64, 128, 256, 512, 1024, 2048}
    ensures 32768 % n == 0 && 32768 / n * n == 32768
  {}

  lemma WordsValue(c: nat)
    requires c < CLASSES
    ensures Words(c) == [1, 2, 4, 8, 16, 32, 64, 128, 256, 512, 1024, 2048][c]
  {
    var n := 0;
    while n < c
      invariant n <= c && Words(n) == [1, 2, 4, 8, 16, 32, 64, 128, 256, 512, 1024, 2048][n]
    {
      n := n + 1;
    }
  }

  /** Masking the pointer of a block with `~0x3ffff` gives its region's header, and the header names the
      block's class. It needs the direct map aligned to 256 KiB. */
  lemma MaskFindsOwner(mem: seq<Word>, hhdm: nat, table: nat, cs: seq<Class>, c: nat, w: nat)
    requires SlabInv(mem, hhdm, table, cs) && c < CLASSES && hhdm % 0x4_0000 == 0
    requires w in cs[c].live || w in cs[c].free
    ensures var h := AndNot(Ptr(hhdm, w), 0x3ffff);
      h == Ptr(hhdm, 32768 * (w / 32768)) && 32768 * (w / 32768) < |mem|
        && mem[32768 * (w / 32768)] == SlabPtr(table, c)
  {
    assert IsBlock(c, cs[c].regions, w);
    Pow2Values();
    MaskIsMod(18, Ptr(hhdm, w));
    MaskPointer(hhdm, w);
  }

  lemma MaskPointer(hhdm: nat, w: nat)
    requires hhdm % 0x4_0000 == 0
    ensures Ptr(hhdm, w) / 0x4_0000 * 0x4_0000 == Ptr(hhdm, 32768 * (w / 32768))
  {}

  /** Followed link by link, the pointer leads through the words `ws` and then to NULL. */
  ghost predicate Leads(mem: seq<Word>, hhdm: nat, ptr: nat, ws: seq<nat>)
    decreases |ws|
  {
    if ws == [] then ptr == 0
    else ptr == Ptr(hhdm, ws[0]) && ws[0] < |mem| && Leads(mem, hhdm, mem[ws[0]], ws[1..])
  }

  /** A pointer leads one way only. */
  lemma {:induction false} LeadsOneWay(mem: seq<Word>, hhdm: nat, ptr: nat, ws: seq<nat>, vs: seq<nat>)
    requires hhdm > 0 && Leads(mem, hhdm, ptr, ws) && Leads(mem, hhdm, ptr, vs)
    ensures ws == vs
    decreases |ws|
  {
    if ws != [] {
      assert vs != [] && ws[0] == vs[0];
      LeadsOneWay(mem, hhdm, mem[ws[0]], ws[1..], vs[1..]);
      assert ws == [ws[0]] + ws[1..] && vs == [vs[0]] + vs[1..];
    }
  }

  /** The head of a class leads through exactly its free blocks, each once, and then to NULL: the list is acyclic. */
  lemma FollowIsFree(mem: seq<Word>, hhdm: nat, table: nat, cs: seq<Class>, c: nat)
    requires SlabInv(mem, hhdm, table, cs) && c < CLASSES
    ensures Leads(mem, hhdm, cs[c].first, cs[c].free) && NoDuplicates(cs[c].free)
  {
    LinksLead(mem, hhdm, cs[c], 0);
    assert cs[c].free[0..] == cs[c].free;
  }

  lemma {:induction false} LinksLead(mem: seq<Word>, hhdm: nat, s: Class, i: nat)
    requires Threaded(mem, hhdm, s) && i <= |s.free|
    ensures Leads(mem, hhdm, Link(hhdm, s.free, i), s.free[i..])
    decreases |s.free| - i
  {
    if i < |s.free| {
      LinksLead(mem, hhdm, s, i + 1);
      assert s.free[i..][1..] == s.free[i + 1..];
    }
  }

  // ---- the operations ----

  /** `alloc_from_slab` on a non-empty list. */
  ghost function Pop(mem: seq<Word>, s: Class): Class
    requires s.free != [] && s.free[0] < |mem|
  {
    Class(mem[s.free[0]], s.free[1..], s.live + {s.free[0]}, s.regions)
  }

  lemma PopKeeps(mem: seq<Word>, hhdm: nat, table: nat, cs: seq<Class>, c: nat)
    requires SlabInv(mem, hhdm, table, cs) && c < CLASSES && cs[c].free != []
    ensures cs[c].free[0] < |mem| && SlabInv(mem, hhdm, table, cs[c := Pop(mem, cs[c])])
  {
    var s := cs[c];
    PopThreaded(mem, hhdm, s);
    PopPartition(c, mem, s);
  }

  lemma PopThreaded(mem: seq<Word>, hhdm: nat, s: Class)
    requires Threaded(mem, hhdm, s) && s.free != []
    ensures Threaded(mem, hhdm, Pop(mem, s))
  {
    var t := Pop(mem, s);
    assert forall i | 0 <= i < |t.free| :: t.free[i] == s.free[i + 1];
  }

  lemma PopPartition(c: nat, mem: seq<Word>, s: Class)
    requires c < CLASSES && Partition(c, s) && s.free != [] && s.free[0] < |mem|
    ensures Partition(c, Pop(mem, s))
  {
    var t := Pop(mem, s);
    assert s.free == [s.free[0]] + t.free;
    assert forall x :: x in s.free <==> x == s.free[0] || x in t.free;
  }

  /** `free_in_slab`: the block goes in front, its first word links to the old head. */
  ghost function Push(s: Class, hhdm: nat, w: nat): Class {
    Class(Ptr(hhdm, w), [w] + s.free, s.live - {w}, s.regions)
  }

  lemma PushKeeps(mem: seq<Word>, hhdm: nat, table: nat, cs: seq<Class>, c: nat, w: nat)
    requires SlabInv(mem, hhdm, table, cs) && c < CLASSES && w in cs[c].live && cs[c].first < 0x1_0000_0000_0000_0000
    ensures w < |mem| && SlabInv(mem[w := cs[c].first], hhdm, table, cs[c := Push(cs[c], hhdm, w)])
  {
    var s := cs[c];
    BlockInMemory(mem, hhdm, table, cs, c, w);
    StoreKeeps(mem, hhdm, table, cs, c, w, s.first);
    PushThreaded(mem, hhdm, s, w);
    PushPartition(c, s, hhdm, w);
  }

  lemma PushThreaded(mem: seq<Word>, hhdm: nat, s: Class, w: nat)
    requires Threaded(mem, hhdm, s) && w < |mem| && w !in s.free && s.first < 0x1_0000_0000_0000_0000
    ensures Threaded(mem[w := s.first], hhdm, Push(s, hhdm, w))
  {
    var t := Push(s, hhdm, w);
    assert t.free[0] == w && forall i | 1 <= i < |t.free| :: t.free[i] == s.free[i - 1];
  }

  lemma PushPartition(c: nat, s: Class, hhdm: nat, w: nat)
    requires c < CLASSES && Partition(c, s) && w in s.live
    ensures Partition(c, Push(s, hhdm, w))
  {
    var t := Push(s, hhdm, w);
    assert forall x :: x in t.free <==> x == w || x in s.free;
    assert |s.live - {w}| == |s.live| - 1;
  }

  lemma BlockInMemory(mem: seq<Word>, hhdm: nat, table: nat, cs: seq<Class>, c: nat, w: nat)
    requires SlabInv(mem, hhdm, table, cs) && c < CLASSES && IsBlock(c, cs[c].regions, w)
    ensures w + Words(c) <= |mem|
  {
    InsideRegion(c, w);
  }

  /** The owner of a live block may write it: first word or any other. */
  lemma StoreKeeps(mem: seq<Word>, hhdm: nat, table: nat, cs: seq<Class>, c: nat, x: nat, v: Word)
    requires SlabInv(mem, hhdm, table, cs) && c < CLASSES && Inside(cs, c, x) && x < |mem|
    ensures SlabInv(mem[x := v], hhdm, table, cs)
  {
    var w :| w in cs[c].live && w <= x < w + Words(c);
    var mem' := mem[x := v];
    forall d | 0 <= d < CLASSES ensures Threaded(mem', hhdm, cs[d]) && Headers(mem', table, d, cs[d].regions) {
      StoreMissesClass(mem, hhdm, table, cs, c, w, x, d);
      StoreOutside(mem, hhdm, table, d, cs[d], x, v);
    }
  }

  lemma StoreOutside(mem: seq<Word>, hhdm: nat, table: nat, d: nat, s: Class, x: nat, v: Word)
    requires Threaded(mem, hhdm, s) && Headers(mem, table, d, s.regions) && x < |mem|
    requires forall u | u in s.free :: u != x
    requires forall r | r in s.regions :: 32768 * r != x
    ensures Threaded(mem[x := v], hhdm, s) && Headers(mem[x := v], table, d, s.regions)
  {
    forall i | 0 <= i < |s.free| ensures mem[x := v][s.free[i]] == Link(hhdm, s.free, i + 1) {
      assert s.free[i] in s.free;
    }
  }

  lemma StoreMissesClass(mem: seq<Word>, hhdm: nat, table: nat, cs: seq<Class>, c: nat, w: nat, x: nat, d: nat)
    requires SlabInv(mem, hhdm, table, cs) && c < CLASSES && d < CLASSES && w in cs[c].live && w <= x < w + Words(c)
    ensures forall u | u in cs[d].free :: u != x
    ensures forall r | r in cs[d].regions :: 32768 * r != x
  {
    assert IsBlock(c, cs[c].regions, w);
    forall u | u in cs[d].free ensures u != x {
      assert IsBlock(d, cs[d].regions, u);
      BlocksDisjoint(mem, hhdm, table, cs, c, w, d, u);
    }
    InsideRegion(c, w);
    HeaderApart(w, Words(c), x);
  }

  lemma HeaderApart(w: nat, n: nat, x: nat)
    requires w % 32768 > 0 && w % 32768 + n <= 32768 && w <= x < w + n
    ensures x % 32768 > 0 && x / 32768 == w / 32768
    ensures forall r: nat :: 32768 * r != x
  {}

  /** Word `x` belongs to a live block of class `c`. */
  ghost predicate Inside(cs: seq<Class>, c: nat, x: nat)
    requires c < |cs|
  {
    exists w :: w in cs[c].live && w <= x < w + Words(c)
  }

  // ---- a new region ----

  /** The `i`-th block of region `r`. */
  function At(r: nat, c: nat, i: nat): nat { 32768 * r + (i + 1) * Words(c) }

  ghost function Chain(r: nat, c: nat): (s: seq<nat>)
    requires c < CLASSES
    ensures |s| == PerRegion(c) && forall i | 0 <= i < |s| :: s[i] == At(r, c, i)
  {
    seq(PerRegion(c), i requires 0 <= i => At(r, c, i))
  }

  /** `create_slab`: the new region's blocks become the free list, in order. */
  ghost function Refill(s: Class, hhdm: nat, c: nat, r: nat): Class
    requires c < CLASSES
  {
    Class(Ptr(hhdm, At(r, c, 0)), Chain(r, c), s.live, s.regions + {r})
  }

  lemma BlockOffset(r: nat, c: nat, i: nat)
    requires c < CLASSES && i < PerRegion(c)
    ensures At(r, c, i) / 32768 == r && At(r, c, i) % 32768 == (i + 1) * Words(c)
    ensures IsBlock(c, {r}, At(r, c, i))
  {
    var n, k := Words(c), i + 1;
    WordsDivide(c);
    OffsetBounds(k, PerRegion(c), n);
    DivModUnique(32768, r, k * n);
    DivModUnique(n, k, 0);
    AlignedIsMod(k * n, n);
  }

  lemma OffsetBounds(k: nat, m: nat, n: nat)
    requires 1 <= k <= m && n > 0
    ensures n <= k * n && k * n + n <= (m + 1) * n
  {
    assert (k - 1) * n >= 0 && (m - k) * n >= 0;
  }

  /** The chain of a region is exactly its blocks. */
  lemma ChainIsBlocks(r: nat, c: nat, w: nat)
    requires c < CLASSES
    ensures w in Chain(r, c) <==> IsBlock(c, {r}, w)
  {
    var n, m := Words(c), w % 32768;
    if IsBlock(c, {r}, w) {
      InsideRegion(c, w);
      AlignedIsMod(m, n);
      var k, z := QuotRem(m, n);
      WordsDivide(c);
      assert 1 <= k <= PerRegion(c) by {
        MulBounds(k, PerRegion(c), n);
      }
      assert w == At(r, c, k - 1);
      assert Chain(r, c)[k - 1] == w;
    }
    if w in Chain(r, c) {
      var i :| 0 <= i < |Chain(r, c)| && Chain(r, c)[i] == w;
      BlockOffset(r, c, i);
    }
  }

  lemma MulBounds(k: nat, m: nat, n: nat)
    requires n > 0 && n <= k * n && k * n + n <= (m + 1) * n
    ensures 1 <= k <= m
  {
    assert k > m ==> (k + 1) * n > (m + 1) * n;
  }

  lemma ChainHasNoDuplicates(r: nat, c: nat)
    requires c < CLASSES
    ensures NoDuplicates(Chain(r, c))
  {
    forall i, j | 0 <= i < j < |Chain(r, c)| ensures Chain(r, c)[i] != Chain(r, c)[j] {
      assert (i + 1) * Words(c) < (j + 1) * Words(c);
    }
  }

  lemma RefillPartition(c: nat, s: Class, hhdm: nat, r: nat)
    requires c < CLASSES && Partition(c, s) && s.free == [] && r !in s.regions
    ensures Partition(c, Refill(s, hhdm, c, r))
  {
    var t := Refill(s, hhdm, c, r);
    ChainHasNoDuplicates(r, c);
    forall w ensures w in t.free || w in t.live <==> IsBlock(c, t.regions, w) {
      ChainIsBlocks(r, c, w);
      assert IsBlock(c, t.regions, w) <==> IsBlock(c, s.regions, w) || IsBlock(c, {r}, w);
    }
    forall w | w in t.free ensures w !in t.live {
      ChainIsBlocks(r, c, w);
      assert w in s.live ==> IsBlock(c, s.regions, w);
    }
    assert |t.regions| == |s.regions| + 1;
    OneMore(PerRegion(c), |s.regions|);
  }

  lemma OneMore(n: nat, k: nat)
    ensures n * (k + 1) == n * k + n
  {}

  /** Memory `mem'` is `mem` with the header and the chain of class `c` written into region `r`. */
  ghost predicate Laid(mem: seq<Word>, mem': seq<Word>, hhdm: nat, table: nat, c: nat, r: nat)
    requires c < CLASSES
  {
    && |mem'| == |mem| && 32768 * r + 32768 <= |mem|
    && mem'[32768 * r] == SlabPtr(table, c)
    && (forall i | 0 <= i < PerRegion(c) :: At(r, c, i) < |mem| && mem'[At(r, c, i)] == Link(hhdm, Chain(r, c), i + 1))
    && (forall x | 0 <= x < |mem| && x / 32768 != r :: mem'[x] == mem[x])
  }

  lemma RefillKeeps(mem: seq<Word>, mem': seq<Word>, hhdm: nat, table: nat, cs: seq<Class>, c: nat, r: nat)
    requires SlabInv(mem, hhdm, table, cs) && c < CLASSES && cs[c].free == [] && Laid(mem, mem', hhdm, table, c, r)
    requires forall d | 0 <= d < CLASSES :: r !in cs[d].regions
    ensures SlabInv(mem', hhdm, table, cs[c := Refill(cs[c], hhdm, c, r)])
  {
    var after := cs[c := Refill(cs[c], hhdm, c, r)];
    forall d | 0 <= d < CLASSES
      ensures Threaded(mem', hhdm, after[d]) && Partition(d, after[d]) && Headers(mem', table, d, after[d].regions)
    {
      ElsewhereKept(mem, mem', hhdm, table, d, cs[d], r);
      if d == c {
        RefillPartition(c, cs[c], hhdm, r);
        RefillThreaded(mem, mem', hhdm, table, cs[c], c, r);
      }
    }
    assert forall d, e | 0 <= d < e < CLASSES :: after[d].regions !! after[e].regions;
  }

  lemma RefillThreaded(mem: seq<Word>, mem': seq<Word>, hhdm: nat, table: nat, s: Class, c: nat, r: nat)
    requires c < CLASSES && Laid(mem, mem', hhdm, table, c, r) && Headers(mem', table, c, s.regions)
    ensures Threaded(mem', hhdm, Refill(s, hhdm, c, r)) && Headers(mem', table, c, s.regions + {r})
  {
    WordsDivide(c);
    WordsValue(c);
  }

  lemma ElsewhereKept(mem: seq<Word>, mem': seq<Word>, hhdm: nat, table: nat, d: nat, s: Class, r: nat)
    requires d < CLASSES && Threaded(mem, hhdm, s) && Partition(d, s) && Headers(mem, table, d, s.regions)
             && r !in s.regions
    requires |mem'| == |mem| && forall x | 0 <= x < |mem| && x / 32768 != r :: mem'[x] == mem[x]
    ensures Threaded(mem', hhdm, s) && Headers(mem', table, d, s.regions)
  {
    forall i | 0 <= i < |s.free| ensures mem'[s.free[i]] == mem[s.free[i]] {
      assert s.free[i] in s.free;
      assert IsBlock(d, s.regions, s.free[i]);
    }
    forall q | q in s.regions ensures mem'[32768 * q] == mem[32768 * q] {
      assert (32768 * q) / 32768 == q;
    }
  }

  /** Part way through laying out region `r`: the header and the first `n` links are written. */
  ghost predicate Laying(mem: seq<Word>, mem': seq<Word>, hhdm: nat, table: nat, c: nat, r: nat, n: nat)
    requires c < CLASSES
  {
    && n <= PerRegion(c)
    && |mem'| == |mem| && 32768 * r + 32768 <= |mem|
    && mem'[32768 * r] == SlabPtr(table, c)
    && (forall i | 0 <= i < n :: At(r, c, i) < |mem| && mem'[At(r, c, i)] == Link(hhdm, Chain(r, c), i + 1))
    && (forall x | 0 <= x < |mem| && x / 32768 != r :: mem'[x] == mem[x])
  }

  lemma LayHeader(mem: seq<Word>, hhdm: nat, table: nat, c: nat, r: nat, v: Word)
    requires c < CLASSES && 32768 * r + 32768 <= |mem| && v == SlabPtr(table, c)
    ensures Laying(mem, mem[32768 * r := v], hhdm, table, c, r, 0)
  {}

  /** Writing link `n` into block `n` leaves the header and the links before it alone. */
  lemma LayNext(mem: seq<Word>, mem': seq<Word>, hhdm: nat, table: nat, c: nat, r: nat, n: nat, v: Word)
    requires c < CLASSES && n < PerRegion(c) && Laying(mem, mem', hhdm, table, c, r, n)
             && v == Link(hhdm, Chain(r, c), n + 1)
    ensures At(r, c, n) < |mem| && Laying(mem, mem'[At(r, c, n) := v], hhdm, table, c, r, n + 1)
  {
    BlockOffset(r, c, n);
    var after := mem'[At(r, c, n) := v];
    assert At(r, c, n) != 32768 * r;
    forall i | 0 <= i < n + 1 ensures At(r, c, i) < |mem| && after[At(r, c, i)] == Link(hhdm, Chain(r, c), i + 1) {
      if i < n {
        AtIncreasing(r, c, i, n);
      }
    }
  }

  lemma AtIncreasing(r: nat, c: nat, i: nat, j: nat)
    requires i < j
    ensures At(r, c, i) < At(r, c, j)
  {
    assert (j - i) * Words(c) > 0;
  }

  // ---- what callers keep ----

  /** No word of a live block of `cs` differs. */
  ghost predicate Preserves(mem: seq<Word>, mem': seq<Word>, cs: seq<Class>) {
    && |mem'| == |mem| && |cs| == CLASSES
    && forall c, x | 0 <= c < CLASSES && 0 <= x < |mem| && Inside(cs, c, x) :: mem'[x] == mem[x]
  }

  lemma PreservedWord(mem: seq<Word>, mem': seq<Word>, cs: seq<Class>, c: nat, w: nat, x: nat)
    requires Preserves(mem, mem', cs) && c < CLASSES && w in cs[c].live && w <= x < w + Words(c) && x < |mem|
    ensures mem'[x] == mem[x]
  {
    assert Inside(cs, c, x);
  }

  lemma LaidPreserves(mem: seq<Word>, mem': seq<Word>, hhdm: nat, table: nat, cs: seq<Class>, c: nat, r: nat)
    requires SlabInv(mem, hhdm, table, cs) && c < CLASSES && Laid(mem, mem', hhdm, table, c, r)
    requires forall d | 0 <= d < CLASSES :: r !in cs[d].regions
    ensures Preserves(mem, mem', cs)
  {
    forall d, x | 0 <= d < CLASSES && 0 <= x < |mem| && Inside(cs, d, x) ensures mem'[x] == mem[x] {
      var w :| w in cs[d].live && w <= x < w + Words(d);
      assert IsBlock(d, cs[d].regions, w);
      InsideRegion(d, w);
      HeaderApart(w, Words(d), x);
    }
  }

  /** Writing a block that is not live any more touches no live block. */
  lemma StorePreserves(mem: seq<Word>, hhdm: nat, table: nat, cs: seq<Class>, cs': seq<Class>, c: nat, w: nat, x: nat,
                       v: Word)
    requires SlabInv(mem, hhdm, table, cs) && c < CLASSES && w in cs[c].live && w <= x < w + Words(c) && x < |mem|
    requires |cs'| == CLASSES && forall d | 0 <= d < CLASSES :: cs'[d].live <= cs[d].live
    requires w !in cs'[c].live
    ensures Preserves(mem, mem[x := v], cs')
  {
    forall d, y | 0 <= d < CLASSES && 0 <= y < |mem| && Inside(cs', d, y) ensures y != x {
      var u :| u in cs'[d].live && u <= y < u + Words(d);
      assert IsBlock(d, cs[d].regions, u) && IsBlock(c, cs[c].regions, w);
      BlocksDisjoint(mem, hhdm, table, cs, c, w, d, u);
    }
  }
}
