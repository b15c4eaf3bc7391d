/** Bytes of words, `memcpy`, and the layout of the page heap of `lib/alloc.c` in memory. */
module HeapSpec {
  import opened Bits
  import opened Rounding
  import opened PageRuns
  import Pmm

  // ---- bytes ----

  /** Byte `k` of a little-endian word. */
  function Digit(x: nat, k: nat): nat
    decreases k
  {
    if k == 0 then x % 256 else Digit(x / 256, k - 1)
  }

  lemma {:induction false} DigitIs(x: nat, k: nat)
    ensures Digit(x, k) == x / Pow2(8 * k) % 256
    decreases k
  {
    if k != 0 {
      DigitIs(x / 256, k - 1);
      ByteShift(k);
      DivTwice(x, Pow2(8 * (k - 1)));
    }
  }

  lemma ByteShift(k: nat)
    requires k > 0
    ensures Pow2(8 * k) == 256 * Pow2(8 * (k - 1))
  {
    Pow2Sum(8, 8 * (k - 1));
    assert Pow2(8) == 256;
  }

  lemma DivTwice(x: nat, p: nat)
    requires p > 0
    ensures x / 256 / p == x / (256 * p)
  {
    var q, r := QuotRem(x / 256, p);
    assert x == q * (256 * p) + (256 * r + x % 256);
    DivModUnique(256 * p, q, 256 * r + x % 256);
  }

  /** The word `d` with its low `r` bytes taken from `s`. */
  function Merge(d: nat, s: nat, r: nat): nat
    decreases r
  {
    if r == 0 then d else s % 256 + 256 * Merge(d / 256, s / 256, r - 1)
  }

  lemma {:induction false} MergeDigits(d: nat, s: nat, r: nat, k: nat)
    ensures Digit(Merge(d, s, r), k) == if k < r then Digit(s, k) else Digit(d, k)
    decreases r
  {
    if r != 0 {
      var m := Merge(d / 256, s / 256, r - 1);
      assert (s % 256 + 256 * m) % 256 == s % 256 && (s % 256 + 256 * m) / 256 == m;
      if k != 0 {
        MergeDigits(d / 256, s / 256, r - 1, k - 1);
      }
    }
  }

  lemma {:induction false} MergeBound(d: nat, s: nat, r: nat, m: nat)
    requires r <= m && d < Pow2(8 * m) && s < Pow2(8 * m)
    ensures Merge(d, s, r) < Pow2(8 * m)
    decreases r
  {
    if r != 0 {
      ByteShift(m);
      MergeBound(d / 256, s / 256, r - 1, m - 1);
    }
  }

  lemma MergeIsWord(d: Word, s: Word, r: nat)
    requires r <= 8
    ensures Merge(d, s, r) < 0x1_0000_0000_0000_0000
  {
    Pow2Values();
    MergeBound(d, s, r, 8);
  }

  /** The byte at byte address `a`. */
  function Byte(mem: seq<Word>, a: nat): nat
    requires a / 8 < |mem|
  {
    Digit(mem[a / 8], a % 8)
  }

  /** `mem'` is `mem` after copying `n` bytes to word `dst` from word `src`. */
  ghost predicate BytesCopied(mem: seq<Word>, mem': seq<Word>, dst: nat, src: nat, n: nat) {
    && |mem'| == |mem| && 8 * dst + n <= 8 * |mem| && 8 * src + n <= 8 * |mem|
    && (forall b: nat | 8 * dst <= b < 8 * dst + n :: Byte(mem', b) == Byte(mem, b - 8 * dst + 8 * src))
    && (forall b: nat | 8 * dst + n <= b < 8 * |mem| :: Byte(mem', b) == Byte(mem, b))
    && (forall x | 0 <= x < |mem| && !(dst <= x < dst + DivRoundup(n, 8)) :: mem'[x] == mem[x])
  }

  /** After the whole words, and after the merged last one. */
  ghost predicate WordsCopied(mem: seq<Word>, mem': seq<Word>, dst: nat, src: nat, n: nat) {
    && |mem'| == |mem| && dst + n <= |mem| && src + n <= |mem|
    && (forall x | dst <= x < dst + n :: mem'[x] == mem[src + (x - dst)])
    && (forall x | 0 <= x < |mem| && !(dst <= x < dst + n) :: mem'[x] == mem[x])
  }

  lemma NextWord(mem: seq<Word>, mem': seq<Word>, dst: nat, src: nat, j: nat)
    requires WordsCopied(mem, mem', dst, src, j) && dst + j < |mem| && src + j < |mem| && !(dst <= src + j < dst + j)
    ensures WordsCopied(mem, mem'[dst + j := mem'[src + j]], dst, src, j + 1)
  {}

  lemma WholeWords(mem: seq<Word>, mem': seq<Word>, dst: nat, src: nat, n: nat)
    requires WordsCopied(mem, mem', dst, src, n)
    ensures BytesCopied(mem, mem', dst, src, 8 * n)
  {
    forall b: nat | 8 * dst <= b < 8 * dst + 8 * n ensures Byte(mem', b) == Byte(mem, b - 8 * dst + 8 * src) {
      Shifted(b, dst, src);
    }
    assert DivRoundup(8 * n, 8) == n;
  }

  lemma Shifted(b: nat, dst: nat, src: nat)
    requires 8 * dst <= b
    ensures var a := b - 8 * dst + 8 * src; a / 8 == src + (b / 8 - dst) && a % 8 == b % 8
  {}

  /** A byte of the merged last word. */
  lemma LastByte(mem: seq<Word>, mem': seq<Word>, dst: nat, src: nat, n: nat, r: nat, b: nat)
    requires dst + n < |mem| == |mem'| && src + n < |mem| && b / 8 == dst + n
    requires mem'[dst + n] == Merge(mem[dst + n], mem[src + n], r)
    ensures Byte(mem', b) == if b % 8 < r then Byte(mem, b - 8 * dst + 8 * src) else Byte(mem, b)
  {
    MergeDigits(mem[dst + n], mem[src + n], r, b % 8);
    Shifted(b, dst, src);
  }

  lemma LastBytes(mem: seq<Word>, mid: seq<Word>, mem': seq<Word>, dst: nat, src: nat, n: nat, r: nat)
    requires WordsCopied(mem, mid, dst, src, n) && 0 < r < 8 && dst + n < |mem| && src + n < |mem|
    requires Merge(mem[dst + n], mem[src + n], r) < 0x1_0000_0000_0000_0000
    requires mem' == mid[dst + n := Merge(mem[dst + n], mem[src + n], r)]
    ensures BytesCopied(mem, mem', dst, src, 8 * n + r)
  {
    forall b: nat | 8 * dst <= b < 8 * dst + (8 * n + r) ensures Byte(mem', b) == Byte(mem, b - 8 * dst + 8 * src) {
      if b / 8 == dst + n {
        LastByte(mem, mem', dst, src, n, r, b);
      } else {
        Shifted(b, dst, src);
      }
    }
    forall b: nat | 8 * dst + (8 * n + r) <= b < 8 * |mem| ensures Byte(mem', b) == Byte(mem, b) {
      if b / 8 == dst + n {
        LastByte(mem, mem', dst, src, n, r, b);
      }
    }
    assert DivRoundup(8 * n + r, 8) == n + 1;
  }

  // ---- the heap ----

  function PagesFor(size: nat): nat { DivRoundup(size, 4096) }

  /** Every block is a page run of its own, one page longer than its data, whose first two words record the
      number of data pages and the size. Other runs of the page allocator are none of the heap's business. */
  ghost predicate HeapInv(mem: seq<Word>, live: map<nat, nat>, blocks: map<nat, nat>) {
    forall s | s in blocks :: BlockOk(mem, live, s, blocks[s])
  }

  ghost predicate BlockOk(mem: seq<Word>, live: map<nat, nat>, s: nat, size: nat) {
    && s in live && live[s] == PagesFor(size) + 1 && 512 * (s + live[s]) <= |mem|
    && mem[512 * s] == PagesFor(size) && mem[512 * s + 1] == size
  }

  lemma BlockKept(mem: seq<Word>, mem': seq<Word>, live: map<nat, nat>, live': map<nat, nat>, s: nat, size: nat)
    requires BlockOk(mem, live, s, size) && RunsKept(mem, mem', live') && s in live' && live'[s] == live[s]
    ensures BlockOk(mem', live', s, size)
  {}

  /** No word of a run of `live` differs. */
  ghost predicate RunsKept(mem: seq<Word>, mem': seq<Word>, live: map<nat, nat>) {
    |mem'| == |mem| && forall t, x | t in live && 512 * t <= x < 512 * (t + live[t]) && x < |mem| :: mem'[x] == mem[x]
  }

  /** No word of the run of `n` pages at `t` differs. */
  ghost predicate RunSame(mem: seq<Word>, mem': seq<Word>, t: nat, n: nat) {
    forall x | 512 * t <= x < 512 * (t + n) && x < |mem| :: x < |mem'| && mem'[x] == mem[x]
  }

  /** What an operation of one layer, owning the runs that start at `mine`, does to the others' runs: nothing. The
      runs it owns afterwards start at `mine'`. */
  ghost predicate Spares(mem: seq<Word>, mem': seq<Word>, live: map<nat, nat>, live': map<nat, nat>, mine: set<nat>,
                         mine': set<nat>) {
    && |mem'| == |mem|
    && (forall t | t in live && t !in mine :: t in live' && live'[t] == live[t] && RunSame(mem, mem', t, live[t]))
    && (forall t | t in mine' :: t in mine || t !in live)
    && (forall t | t in live' && t !in mine' :: t in live && t !in mine)
  }

  /** In particular the live runs that are not its own are the same. */
  lemma OthersLive(mem: seq<Word>, mem': seq<Word>, live: map<nat, nat>, live': map<nat, nat>, mine: set<nat>,
                   mine': set<nat>)
    requires Spares(mem, mem', live, live', mine, mine')
    ensures live'.Keys - mine' == live.Keys - mine
  {}

  /** What it does to the others' blocks when it is a client of the heap: nothing. */
  ghost predicate BlocksKept(blocks: map<nat, nat>, blocks': map<nat, nat>, mine: set<nat>, mine': set<nat>) {
    && blocks'.Keys == blocks.Keys - mine + mine'
    && (forall s | s in blocks && s !in mine :: s in blocks' && blocks'[s] == blocks[s])
  }

  lemma SparesAll(mem: seq<Word>, live: map<nat, nat>, mine: set<nat>)
    ensures Spares(mem, mem, live, live, mine, mine)
  {}

  lemma SparesTwice(a: seq<Word>, b: seq<Word>, c: seq<Word>, la: map<nat, nat>, lb: map<nat, nat>, lc: map<nat, nat>,
                    ma: set<nat>, mb: set<nat>, mc: set<nat>)
    requires Spares(a, b, la, lb, ma, mb) && Spares(b, c, lb, lc, mb, mc)
    ensures Spares(a, c, la, lc, ma, mc)
  {
    forall t | t in la && t !in ma ensures t in lc && lc[t] == la[t] && RunSame(a, c, t, la[t]) {
      assert RunSame(a, b, t, la[t]) && RunSame(b, c, t, lb[t]);
    }
  }

  /** Memory after writing the metadata page of a fresh zeroed run. */
  ghost function Fresh(mem: seq<Word>, s: nat, size: Word): seq<Word>
    requires 512 * (s + PagesFor(size) + 1) <= |mem| && PagesFor(size) < 0x1_0000_0000_0000_0000
  {
    Pmm.Filled(mem, 512 * s, 512 * (PagesFor(size) + 1), 0)[512 * s := PagesFor(size)][512 * s + 1 := size]
  }

  lemma AllocKeepsHeap(mem: seq<Word>, live: map<nat, nat>, live': map<nat, nat>, blocks: map<nat, nat>,
                       n: nat, s: nat, size: Word)
    requires HeapInv(mem, live, blocks) && |mem| == 512 * n && PagesFor(size) < 0x1_0000_0000_0000_0000
    requires Pmm.Granted(live, live', n, s, PagesFor(size) + 1)
    ensures s !in blocks && 512 * (s + PagesFor(size) + 1) <= |mem|
    ensures HeapInv(Fresh(mem, s, size), live', blocks[s := size]) && RunsKept(mem, Fresh(mem, s, size), live)
  {
    FreshWords(mem, s, size);
    var mem' := Fresh(mem, s, size);
    assert RunsKept(mem, mem', live);
    forall t | t in blocks ensures BlockOk(mem', live', t, blocks[t]) {
      assert BlockOk(mem, live, t, blocks[t]);
      BlockKept(mem, mem', live, live, t, blocks[t]);
    }
    assert BlockOk(mem', live', s, size);
  }

  lemma FreshWords(mem: seq<Word>, s: nat, size: Word)
    requires 512 * (s + PagesFor(size) + 1) <= |mem| && PagesFor(size) < 0x1_0000_0000_0000_0000
    ensures var mem' := Fresh(mem, s, size);
      && |mem'| == |mem| && mem'[512 * s] == PagesFor(size) && mem'[512 * s + 1] == size
      && (forall x | 0 <= x < |mem| && !(512 * s <= x < 512 * (s + PagesFor(size) + 1)) :: mem'[x] == mem[x])
      && (forall x | 512 * (s + 1) <= x < 512 * (s + PagesFor(size) + 1) :: mem'[x] == 0)
  {}

  lemma FreeKeepsHeap(mem: seq<Word>, live: map<nat, nat>, blocks: map<nat, nat>, s: nat, v: Word)
    requires HeapInv(mem, live, blocks) && Apart(live) && s in blocks
    ensures 512 * (s + live[s]) <= |mem|
    ensures var mem' := Pmm.Filled(mem, 512 * s, 512 * live[s], v);
      HeapInv(mem', live - {s}, blocks - {s}) && RunsKept(mem, mem', live - {s})
  {
    var mem' := Pmm.Filled(mem, 512 * s, 512 * live[s], v);
    var rest := live - {s};
    assert RunsKept(mem, mem', rest);
    forall t | t in blocks && t != s ensures BlockOk(mem', rest, t, blocks[t]) {
      BlockKept(mem, mem', live, rest, t, blocks[t]);
    }
  }

  /** The first `n` data bytes of the block at page `t` in `mem'` are those of the block at page `s` in `mem`. */
  ghost predicate SameBytes(mem: seq<Word>, s: nat, mem': seq<Word>, t: nat, n: nat) {
    && 4096 * (s + 1) + n <= 8 * |mem| && 4096 * (t + 1) + n <= 8 * |mem'|
    && forall b: nat | 4096 * (t + 1) <= b < 4096 * (t + 1) + n ::
         Byte(mem', b) == Byte(mem, b - 4096 * (t + 1) + 4096 * (s + 1))
  }

  /** The bytes of a block's data lie inside its run. */
  lemma DataInside(size: nat, n: nat, b: nat, s: nat)
    requires n <= size && 4096 * (s + 1) <= b < 4096 * (s + 1) + n
    ensures 512 * s <= b / 8 < 512 * (s + PagesFor(size) + 1)
  {
    RoundingIsTight(size, 4096);
  }

  /** Copying at most the recorded size into another block's data touches no metadata and no third run. */
  lemma CopyKeepsHeap(mem: seq<Word>, mem': seq<Word>, live: map<nat, nat>, blocks: map<nat, nat>,
                      t: nat, s: nat, n: nat)
    requires HeapInv(mem, live, blocks) && Apart(live) && t in blocks && n <= blocks[t]
    requires BytesCopied(mem, mem', 512 * (t + 1), 512 * (s + 1), n)
    ensures HeapInv(mem', live, blocks) && RunsKept(mem, mem', live - {t})
  {
    assert DivRoundup(n, 8) <= 512 * PagesFor(blocks[t]) by {
      RoundingIsTight(blocks[t], 4096);
      RoundingIsTight(n, 8);
    }
    var rest := live - {t};
    assert BlockOk(mem, live, t, blocks[t]);
    assert RunsKept(mem, mem', rest);
    OthersOk(mem, mem', live, blocks, t);
    assert BlockOk(mem', live, t, blocks[t]);
  }

  lemma OthersOk(mem: seq<Word>, mem': seq<Word>, live: map<nat, nat>, blocks: map<nat, nat>, s: nat)
    requires RunsKept(mem, mem', live - {s}) && forall t | t in blocks :: BlockOk(mem, live, t, blocks[t])
    ensures forall t | t in blocks && t != s :: BlockOk(mem', live, t, blocks[t])
  {
    forall t | t in blocks && t != s ensures BlockOk(mem', live, t, blocks[t]) {
      BlockKept(mem, mem', live, live - {s}, t, blocks[t]);
    }
  }

  /** Across the three steps of a moving `realloc`: allocate, copy, free. */
  lemma MoveKeepsBytes(mem0: seq<Word>, mem1: seq<Word>, mem2: seq<Word>, mem3: seq<Word>,
                       live0: map<nat, nat>, live3: map<nat, nat>, s: nat, t: nat, oldSize: nat, newSize: nat, n: nat)
    requires RunsKept(mem0, mem1, live0) && s in live0 && live0[s] == PagesFor(oldSize) + 1 && n <= oldSize
    requires BytesCopied(mem1, mem2, 512 * (t + 1), 512 * (s + 1), n)
    requires RunsKept(mem2, mem3, live3) && t in live3 && live3[t] == PagesFor(newSize) + 1 && n <= newSize
    ensures SameBytes(mem0, s, mem3, t, n)
  {
    forall b: nat | 4096 * (t + 1) <= b < 4096 * (t + 1) + n
      ensures Byte(mem3, b) == Byte(mem0, b - 4096 * (t + 1) + 4096 * (s + 1))
    {
      DataInside(newSize, n, b, t);
      var a := b - 4096 * (t + 1) + 4096 * (s + 1);
      DataInside(oldSize, n, a, s);
      assert mem3[b / 8] == mem2[b / 8] && mem1[a / 8] == mem0[a / 8];
      assert Byte(mem2, b) == Byte(mem1, a);
    }
  }

  /** The data bytes `n`..`size - 1` of the block at page `t` are zero. */
  ghost predicate ZeroBytes(mem: seq<Word>, t: nat, n: nat, size: nat) {
    4096 * (t + 1) + size <= 8 * |mem| && forall b: nat | 4096 * (t + 1) + n <= b < 4096 * (t + 1) + size ::
      Byte(mem, b) == 0
  }

  /** The data of the block at page `s` is zero. */
  ghost predicate Zeroed(mem: seq<Word>, s: nat, size: nat) {
    forall x | 512 * (s + 1) <= x < 512 * (s + 1 + PagesFor(size)) :: x < |mem| && mem[x] == 0
  }

  lemma {:induction false} DigitOfZero(k: nat)
    ensures Digit(0, k) == 0
  {
    if k != 0 {
      DigitOfZero(k - 1);
    }
  }

  lemma ZeroedBytes(mem: seq<Word>, t: nat, size: nat)
    requires Zeroed(mem, t, size) && 512 * (t + 1 + PagesFor(size)) <= |mem|
    ensures ZeroBytes(mem, t, 0, size)
  {
    RoundingIsTight(size, 4096);
    forall b: nat | 4096 * (t + 1) <= b < 4096 * (t + 1) + size ensures Byte(mem, b) == 0 {
      DataInside(size, size, b, t);
      assert mem[b / 8] == 0;
      DigitOfZero(b % 8);
    }
  }

  /** What the copy of a moving `realloc` does not reach stays as `alloc` left it. */
  lemma MoveLeavesZeros(mem1: seq<Word>, mem2: seq<Word>, mem3: seq<Word>, live3: map<nat, nat>, s: nat, t: nat,
                        size: nat, n: nat)
    requires Zeroed(mem1, t, size) && 512 * (t + 1 + PagesFor(size)) <= |mem1|
    requires BytesCopied(mem1, mem2, 512 * (t + 1), 512 * (s + 1), n)
    requires RunsKept(mem2, mem3, live3) && t in live3 && live3[t] == PagesFor(size) + 1
    ensures ZeroBytes(mem3, t, n, size)
  {
    ZeroedBytes(mem1, t, size);
    var dst := 512 * (t + 1);
    assert 8 * dst == 4096 * (t + 1) && 4096 * (t + 1) + size <= 8 * |mem1|;
    forall b: nat | 4096 * (t + 1) + n <= b < 4096 * (t + 1) + size ensures Byte(mem3, b) == 0 {
      DataInside(size, size, b, t);
      var x := b / 8;
      assert 512 * t <= x < 512 * (t + live3[t]) && x < |mem2|;
      assert mem3[x] == mem2[x];
      CopiedOutside(mem1, mem2, dst, 512 * (s + 1), n, b);
    }
  }

  lemma CopiedOutside(mem: seq<Word>, mem': seq<Word>, dst: nat, src: nat, n: nat, b: nat)
    requires BytesCopied(mem, mem', dst, src, n) && 8 * dst + n <= b < 8 * |mem|
    ensures Byte(mem', b) == Byte(mem, b)
  {}

  // ---- stores by the owner of a block ----

  /** The word `x` with its byte `k` replaced. */
  function SetDigit(x: nat, k: nat, v: nat): nat
    decreases k
  {
    if k == 0 then x / 256 * 256 + v else x % 256 + 256 * SetDigit(x / 256, k - 1, v)
  }

  lemma {:induction false} SetDigitIs(x: nat, k: nat, v: nat, j: nat)
    requires v < 256
    ensures Digit(SetDigit(x, k, v), j) == if j == k then v else Digit(x, j)
    decreases k
  {
    var y := SetDigit(x, k, v);
    if k == 0 {
      assert y % 256 == v && y / 256 == x / 256;
    } else {
      assert y % 256 == x % 256 && y / 256 == SetDigit(x / 256, k - 1, v);
      if j != 0 {
        SetDigitIs(x / 256, k - 1, v, j - 1);
      }
    }
  }

  lemma {:induction false} SetDigitBound(x: nat, k: nat, v: nat, m: nat)
    requires k < m && v < 256 && x < Pow2(8 * m)
    ensures SetDigit(x, k, v) < Pow2(8 * m)
    decreases k
  {
    var p := Pow2(8 * (m - 1));
    ByteShift(m);
    assert x / 256 < p;
    if k != 0 {
      SetDigitBound(x / 256, k - 1, v, m - 1);
    }
  }

  lemma SetDigitIsWord(x: Word, k: nat, v: nat)
    requires k < 8 && v < 256
    ensures SetDigit(x, k, v) < 0x1_0000_0000_0000_0000
  {
    Pow2Values();
    SetDigitBound(x, k, v, 8);
  }

  /** Memory `mem'` is `mem` with the byte at address `a` replaced by `v`. */
  ghost predicate ByteStored(mem: seq<Word>, mem': seq<Word>, a: nat, v: nat) {
    |mem'| == |mem| && forall b: nat | b < 8 * |mem| :: Byte(mem', b) == if b == a then v else Byte(mem, b)
  }

  lemma StoreIsByte(mem: seq<Word>, a: nat, v: nat)
    requires a / 8 < |mem| && v < 256 && SetDigit(mem[a / 8], a % 8, v) < 0x1_0000_0000_0000_0000
    ensures ByteStored(mem, mem[a / 8 := SetDigit(mem[a / 8], a % 8, v)], a, v)
  {
    var mem' := mem[a / 8 := SetDigit(mem[a / 8], a % 8, v)];
    forall b: nat | b < 8 * |mem| ensures Byte(mem', b) == if b == a then v else Byte(mem, b) {
      if b / 8 == a / 8 {
        SetDigitIs(mem[a / 8], a % 8, v, b % 8);
      }
    }
  }

  /** A store into a block's data changes neither metadata nor any other run. */
  lemma StoreKeepsHeap(mem: seq<Word>, live: map<nat, nat>, blocks: map<nat, nat>, s: nat, x: nat, v: Word)
    requires HeapInv(mem, live, blocks) && Apart(live) && s in blocks
             && 512 * (s + 1) <= x < 512 * (s + 1 + PagesFor(blocks[s]))
    ensures x < |mem| && HeapInv(mem[x := v], live, blocks) && RunsKept(mem, mem[x := v], live - {s})
  {
    assert BlockOk(mem, live, s, blocks[s]);
    assert RunsKept(mem, mem[x := v], live - {s});
    OthersOk(mem, mem[x := v], live, blocks, s);
    assert BlockOk(mem[x := v], live, s, blocks[s]);
  }

  lemma ResizeKeepsHeap(mem: seq<Word>, live: map<nat, nat>, blocks: map<nat, nat>, s: nat, size: Word)
    requires HeapInv(mem, live, blocks) && Apart(live) && s in blocks && PagesFor(size) == PagesFor(blocks[s])
    ensures 512 * s + 1 < |mem| && HeapInv(mem[512 * s + 1 := size], live, blocks[s := size])
    ensures RunsKept(mem, mem[512 * s + 1 := size], live - {s})
  {
    var mem' := mem[512 * s + 1 := size];
    assert BlockOk(mem, live, s, blocks[s]);
    assert RunsKept(mem, mem', live - {s});
    OthersOk(mem, mem', live, blocks, s);
    assert BlockOk(mem', live, s, size);
  }

  /** The memories around a moving `realloc` agree on every run but the two blocks'. */
  lemma MoveKeepsRuns(mem0: seq<Word>, mem1: seq<Word>, mem2: seq<Word>, mem3: seq<Word>,
                      live0: map<nat, nat>, live1: map<nat, nat>, live3: map<nat, nat>, s: nat, t: nat, count: nat)
    requires RunsKept(mem0, mem1, live0) && t !in live0 && live1 == live0[t := count]
    requires RunsKept(mem1, mem2, live1 - {t}) && live3 == live1 - {s} && RunsKept(mem2, mem3, live3)
    ensures RunsKept(mem0, mem3, live0 - {s})
  {
    forall u, x | u in live0 - {s} && 512 * u <= x < 512 * (u + live0[u]) && x < |mem0| ensures mem3[x] == mem0[x] {
      assert u in live1 - {t} && u in live3;
    }
  }
}
