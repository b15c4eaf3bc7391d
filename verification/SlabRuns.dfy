/**
 The slab allocator seen by its client: whatever sequence of allocations, reallocations, frees and
 stores it makes, the blocks it holds behave like independent arrays.
 */
module SlabRuns {
  import opened Bits
  import opened PageRuns
  import opened SlabSpec
  import opened Slab

  /** What a client may do; a block is named by its first word of memory. Nothing is done to a block the client
      does not hold or a word the block does not have. */
  datatype Op = Alloc(size: nat) | Realloc(w: nat, size: nat) | Free(w: nat) | Write(w: nat, k: nat, v: Word)

  predicate OpOk(op: Op) { op.Alloc? ==> op.size > 0 }

  /** A block held: its class, and the words the client finds in it. */
  datatype Block = Block(c: nat, data: seq<Word>)

  type Store = map<nat, Block>

  /** The effect an operation has on the blocks held. `slab_alloc` and `slab_realloc` return NULL, and do nothing,
      exactly when they need a new block and there is no class for the size. */
  ghost predicate Effect(bs: Store, op: Op, bs': Store) {
    match op
    case Alloc(size) =>
      if size > 0 && SlabFor(size).Some?
      then exists w: nat :: w !in bs && w in bs' && bs'[w].c == SlabFor(size).value && bs' == bs[w := bs'[w]]
      else bs' == bs
    case Realloc(w, size) =>
      if w in bs && size > EntSize(bs[w].c) && SlabFor(size).Some?
      then exists x: nat :: Moves(bs, w, size, bs', x)
      else bs' == bs
    case Free(w) => bs' == bs - {w}
    case Write(w, k, v) =>
      bs' == if w in bs && k < |bs[w].data| then bs[w := Block(bs[w].c, bs[w].data[k := v])] else bs
  }

  /** A block too small for the size moved: to the class for the size, a larger one, with the old words first. */
  ghost predicate Moves(bs: Store, w: nat, size: nat, bs': Store, x: nat)
    requires w in bs && size > 0
  {
    && x !in bs && x in bs' && bs' == (bs - {w})[x := bs'[x]]
    && SlabFor(size) == Some(bs'[x].c) && bs[w].c < bs'[x].c && bs[w].data <= bs'[x].data
  }

  /** Memory holds the block's words. */
  ghost predicate HasData(mem: seq<Word>, w: nat, b: Block) {
    |b.data| == Words(b.c) && w + |b.data| <= |mem| && mem[w..w + |b.data|] == b.data
  }

  ghost predicate Good(cs: seq<Class>, mem: seq<Word>, w: nat, b: Block) {
    b.c < CLASSES == |cs| && w in cs[b.c].live && HasData(mem, w, b)
  }

  ghost predicate Held(cs: seq<Class>, mem: seq<Word>, bs: Store) {
    forall w | w in bs :: Good(cs, mem, w, bs[w])
  }

  /** Blocks held share no word. */
  lemma HeldApart(mem: seq<Word>, hhdm: nat, table: nat, cs: seq<Class>, bs: Store, w: nat, x: nat)
    requires SlabInv(mem, hhdm, table, cs) && Held(cs, mem, bs) && w in bs && x in bs && w != x
    ensures w + Words(bs[w].c) <= x || x + Words(bs[x].c) <= w
  {
    assert Good(cs, mem, w, bs[w]) && Good(cs, mem, x, bs[x]);
    LiveApart(mem, hhdm, table, cs, bs[w].c, w, bs[x].c, x);
  }

  /** A block that stays live keeps its words where live blocks are preserved. */
  lemma StaysGood(kept: seq<Class>, mem: seq<Word>, mem': seq<Word>, w: nat, b: Block)
    requires HasData(mem, w, b) && b.c < CLASSES && Preserves(mem, mem', kept) && w in kept[b.c].live
    ensures HasData(mem', w, b)
  {
    forall k | w <= k < w + Words(b.c) ensures mem'[k] == mem[k] {
      PreservedWord(mem, mem', kept, b.c, w, k);
    }
  }

  /** The same for all of them, where only blocks of `kept` are preserved and `now` are live. */
  lemma StillHeld(cs: seq<Class>, kept: seq<Class>, now: seq<Class>, mem: seq<Word>, mem': seq<Word>, bs: Store)
    requires Held(cs, mem, bs) && Preserves(mem, mem', kept) && |now| == CLASSES
    requires forall w | w in bs && bs[w].c < CLASSES :: w in kept[bs[w].c].live && w in now[bs[w].c].live
    ensures Held(now, mem', bs)
  {
    forall w | w in bs ensures Good(now, mem', w, bs[w]) {
      assert Good(cs, mem, w, bs[w]);
      StaysGood(kept, mem, mem', w, bs[w]);
    }
  }

  lemma AllocHeld(cs: seq<Class>, cs': seq<Class>, hhdm: nat, table: nat, mem: seq<Word>, mem': seq<Word>, bs: Store,
                  c: nat, w: nat)
    returns (b: Block)
    requires Held(cs, mem, bs) && SlabInv(mem', hhdm, table, cs') && c < CLASSES && HandedWord(cs, cs', c, w)
             && Preserves(mem, mem', cs)
    ensures w !in bs && b.c == c && Held(cs', mem', bs[w := b])
  {
    b := NewBlock(mem', hhdm, table, cs', c, w);
    forall u | u in bs ensures u in cs'[bs[u].c].live && u != w {
      assert Good(cs, mem, u, bs[u]);
      if u == w {
        OneClass(mem', hhdm, table, cs', w, c, bs[u].c);
      }
    }
    StillHeld(cs, cs, cs', mem, mem', bs);
    assert Good(cs', mem', w, b);
  }

  /** What a live block holds. */
  lemma NewBlock(mem: seq<Word>, hhdm: nat, table: nat, cs: seq<Class>, c: nat, w: nat) returns (b: Block)
    requires SlabInv(mem, hhdm, table, cs) && c < CLASSES && w in cs[c].live
    ensures b.c == c && Good(cs, mem, w, b) && b.data == mem[w..w + Words(c)]
  {
    assert IsBlock(c, cs[c].regions, w);
    BlockInMemory(mem, hhdm, table, cs, c, w);
    b := Block(c, mem[w..w + Words(c)]);
  }

  /** No word starts live blocks of two classes. */
  lemma OneClass(mem: seq<Word>, hhdm: nat, table: nat, cs: seq<Class>, w: nat, c: nat, d: nat)
    requires SlabInv(mem, hhdm, table, cs) && c < CLASSES && d < CLASSES && w in cs[c].live && w in cs[d].live
    ensures c == d
  {
    if c != d {
      LiveApart(mem, hhdm, table, cs, c, w, d, w);
    }
  }

  lemma FreeHeld(cs: seq<Class>, cs': seq<Class>, mem: seq<Word>, mem': seq<Word>, bs: Store, w: nat)
    requires Held(cs, mem, bs) && w in bs && bs[w].c < CLASSES && ReturnedWord(cs, cs', bs[w].c, w)
             && Preserves(mem, mem', cs')
    ensures Held(cs', mem', bs - {w})
  {
    forall u | u in bs && u != w ensures Good(cs, mem, u, bs[u]) && u in cs'[bs[u].c].live {}
    StillHeld(cs, cs', cs', mem, mem', bs - {w});
  }

  lemma WriteHeld(cs: seq<Class>, hhdm: nat, table: nat, mem: seq<Word>, bs: Store, w: nat, k: nat, v: Word)
    requires SlabInv(mem, hhdm, table, cs) && Held(cs, mem, bs) && w in bs && k < |bs[w].data|
    ensures bs[w].c < CLASSES == |cs| && w + k < |mem| && Inside(cs, bs[w].c, w + k)
    ensures Held(cs, mem[w + k := v], bs[w := Block(bs[w].c, bs[w].data[k := v])])
  {
    assert Good(cs, mem, w, bs[w]);
    var mem' := mem[w + k := v];
    WrittenData(mem, w, bs[w], k, v);
    forall u | u in bs && u != w ensures Good(cs, mem', u, bs[u]) {
      HeldApart(mem, hhdm, table, cs, bs, w, u);
      OtherData(mem, w + k, v, u, bs[u]);
    }
  }

  lemma WrittenData(mem: seq<Word>, w: nat, b: Block, k: nat, v: Word)
    requires HasData(mem, w, b) && k < |b.data|
    ensures HasData(mem[w + k := v], w, Block(b.c, b.data[k := v]))
  {
    assert mem[w + k := v][w..w + |b.data|] == b.data[k := v];
  }

  lemma OtherData(mem: seq<Word>, x: nat, v: Word, u: nat, b: Block)
    requires HasData(mem, u, b) && x < |mem| && !(u <= x < u + |b.data|)
    ensures HasData(mem[x := v], u, b)
  {
    assert mem[x := v][u..u + |b.data|] == mem[u..u + |b.data|];
  }

  lemma MoveHeld(cs: seq<Class>, cs': seq<Class>, hhdm: nat, table: nat, mem: seq<Word>, mem': seq<Word>, bs: Store,
                 w: nat, d: nat, x: nat)
    returns (b: Block)
    requires Held(cs, mem, bs) && SlabInv(mem', hhdm, table, cs') && w in bs && bs[w].c < d < CLASSES
    requires Moved(mem, mem', cs, cs', bs[w].c, w, d, x)
    ensures b.c == d && x !in bs && bs[w].data <= b.data && Held(cs', mem', (bs - {w})[x := b])
  {
    assert Good(cs, mem, w, bs[w]);
    b := NewBlock(mem', hhdm, table, cs', d, x);
    assert bs[w].data <= b.data by {
      MovedData(mem, mem', w, bs[w], d, x, b);
    }
    OthersStay(cs, cs', hhdm, table, mem, mem', bs, w, d, x);
    assert Good(cs', mem', x, b);
  }

  lemma MovedData(mem: seq<Word>, mem': seq<Word>, w: nat, was: Block, d: nat, x: nat, b: Block)
    requires HasData(mem, w, was) && HasData(mem', x, b) && was.c < d == b.c && SameSlice(mem, w, mem', x, Words(was.c))
    ensures was.data <= b.data
  {
    WordsMonotone(was.c, d);
    ShorterSlice(mem', x, Words(was.c), Words(d));
  }

  lemma OthersStay(cs: seq<Class>, cs': seq<Class>, hhdm: nat, table: nat, mem: seq<Word>, mem': seq<Word>, bs: Store,
                   w: nat, d: nat, x: nat)
    requires Held(cs, mem, bs) && SlabInv(mem', hhdm, table, cs') && w in bs && bs[w].c < d < CLASSES
    requires Moved(mem, mem', cs, cs', bs[w].c, w, d, x)
    ensures x !in bs && Held(cs', mem', bs - {w})
  {
    var c, rest := bs[w].c, Without(cs, bs[w].c, w);
    forall u | u in bs && u != w ensures u in rest[bs[u].c].live && u in cs'[bs[u].c].live && u != x {
      assert Good(cs, mem, u, bs[u]);
      if u == x {
        OneClass(mem', hhdm, table, cs', x, d, bs[u].c);
      }
    }
    StillHeld(cs, rest, cs', mem, mem', bs - {w});
  }

  lemma ShorterSlice(mem: seq<Word>, x: nat, m: nat, n: nat)
    requires m <= n && x + n <= |mem|
    ensures mem[x..x + m] <= mem[x..x + n]
  {}

  // ---- one operation ----

  /** What a client knows between operations. */
  ghost predicate Knows(sa: SlabAllocator, held: set<nat>, bs: Store)
    reads sa, sa.pmm, sa.pmm.bitmap, sa.pmm.ram
  {
    sa.Valid() && sa.Ready() && Held(sa.cs, sa.pmm.ram[..], bs) && held == bs.Keys
  }

  lemma PtrWord(hhdm: nat, w: nat)
    ensures IsPtr(hhdm, Ptr(hhdm, w)) && (Ptr(hhdm, w) - hhdm) / 8 == w
  {}

  lemma HeldIsLive(sa: SlabAllocator, bs: Store, w: nat)
    requires Held(sa.cs, sa.pmm.ram[..], bs) && w in bs
    ensures bs[w].c < CLASSES && LiveAt(sa.cs, sa.hhdm, bs[w].c, Ptr(sa.hhdm, w))
  {
    assert Good(sa.cs, sa.pmm.ram[..], w, bs[w]);
    PtrWord(sa.hhdm, w);
  }

  /** The operation needs a new block of the class for `op.size`. */
  ghost predicate NeedsBlock(bs: Store, op: Op) {
    op.Alloc? || (op.Realloc? && op.w in bs && op.size > EntSize(bs[op.w].c))
  }

  /** Why an operation panics: it needs a new block, its class has no free one and the page allocator no region. */
  ghost predicate Starved(sa: SlabAllocator, bs: Store, op: Op)
    reads sa, sa.pmm, sa.pmm.bitmap
  {
    NeedsBlock(bs, op) && sa.Starved(op.size)
  }

  method DoAlloc(sa: SlabAllocator, size: nat, held: set<nat>, ghost bs: Store)
    returns (ok: bool, held': set<nat>, ghost bs': Store)
    requires Knows(sa, held, bs) && size > 0
    modifies sa, sa.pmm`cursor, sa.pmm`live, sa.pmm.bitmap, sa.pmm.ram
    ensures Knows(sa, held', bs')
    ensures if ok then Effect(bs, Op.Alloc(size), bs') else bs' == bs && Starved(sa, bs, Op.Alloc(size))
    ensures Framed(old(sa.pmm.ram[..]), sa.pmm.ram[..], old(sa.pmm.live), sa.pmm.live, old(sa.cs), sa.cs)
  {
    ghost var cs, mem := sa.cs, sa.pmm.ram[..];
    var a := sa.Alloc(size);
    ok, held', bs' := a.Some? || SlabFor(size).None?, held, bs;
    if a.Some? {
      bs' := DoTake(cs, sa.cs, sa.hhdm, sa.table, mem, sa.pmm.ram[..], bs, size, a.value);
      held' := held + {WordOf(sa.hhdm, a.value)};
    } else {
      SameHeld(cs, mem, sa.pmm.ram[..], bs);
    }
  }

  lemma DoTake(cs: seq<Class>, cs': seq<Class>, hhdm: nat, table: nat, mem: seq<Word>, mem': seq<Word>, bs: Store,
               size: nat, a: nat)
    returns (bs': Store)
    requires Held(cs, mem, bs) && SlabInv(mem', hhdm, table, cs') && Preserves(mem, mem', cs)
    requires size > 0 && Allocated(cs, cs', hhdm, size, Some(a))
    ensures Held(cs', mem', bs') && Effect(bs, Op.Alloc(size), bs') && bs'.Keys == bs.Keys + {WordOf(hhdm, a)}
  {
    var c, w := SlabFor(size).value, WordOf(hhdm, a);
    assert HandedWord(cs, cs', c, w);
    var b := AllocHeld(cs, cs', hhdm, table, mem, mem', bs, c, w);
    bs' := bs[w := b];
    TakeEffect(bs, size, w, b);
  }

  lemma TakeEffect(bs: Store, size: nat, w: nat, b: Block)
    requires size > 0 && SlabFor(size) == Some(b.c) && w !in bs
    ensures Effect(bs, Op.Alloc(size), bs[w := b])
  {
    var bs' := bs[w := b];
    assert w !in bs && w in bs' && bs'[w].c == b.c && bs' == bs[w := bs'[w]];
  }

  lemma SameHeld(cs: seq<Class>, mem: seq<Word>, mem': seq<Word>, bs: Store)
    requires Held(cs, mem, bs) && Preserves(mem, mem', cs)
    ensures Held(cs, mem', bs)
  {
    forall w | w in bs ensures Good(cs, mem, w, bs[w]) {}
    StillHeld(cs, cs, cs, mem, mem', bs);
  }

  method DoRealloc(sa: SlabAllocator, w: nat, size: nat, held: set<nat>, ghost bs: Store)
    returns (ok: bool, held': set<nat>, ghost bs': Store)
    requires Knows(sa, held, bs) && w in held
    modifies sa, sa.pmm`cursor, sa.pmm`live, sa.pmm.bitmap, sa.pmm.ram
    ensures Knows(sa, held', bs')
    ensures if ok then Effect(bs, Op.Realloc(w, size), bs') else bs' == bs && Starved(sa, bs, Op.Realloc(w, size))
    ensures Framed(old(sa.pmm.ram[..]), sa.pmm.ram[..], old(sa.pmm.live), sa.pmm.live, old(sa.cs), sa.cs)
  {
    ghost var cs, mem, c := sa.cs, sa.pmm.ram[..], bs[w].c;
    HeldIsLive(sa, bs, w);
    PtrWord(sa.hhdm, w);
    var n := sa.Realloc(Ptr(sa.hhdm, w), size, c);
    held', bs' := held, bs;
    if n.None? {
      SameHeld(cs, mem, sa.pmm.ram[..], bs);
      ok := size > 0 && SlabFor(size).None?;
    } else {
      ok := true;
      var x := WordOf(sa.hhdm, n.value);
      if n.value != Ptr(sa.hhdm, w) {
        bs' := DoMove(cs, sa.cs, sa.hhdm, sa.table, mem, sa.pmm.ram[..], bs, w, size, n.value);
        held' := held - {w} + {x};
      }
    }
  }

  function WordOf(hhdm: nat, a: nat): nat { if a < hhdm then 0 else (a - hhdm) / 8 }

  lemma DoMove(cs: seq<Class>, cs': seq<Class>, hhdm: nat, table: nat, mem: seq<Word>, mem': seq<Word>, bs: Store,
               w: nat, size: nat, n: nat)
    returns (bs': Store)
    requires Held(cs, mem, bs) && SlabInv(mem', hhdm, table, cs') && w in bs && bs[w].c < CLASSES
             && size > EntSize(bs[w].c)
    requires Grown(mem, mem', cs, cs', hhdm, bs[w].c, Ptr(hhdm, w), size, n)
    ensures Held(cs', mem', bs') && Effect(bs, Op.Realloc(w, size), bs')
            && bs'.Keys == bs.Keys - {w} + {WordOf(hhdm, n)}
  {
    PtrWord(hhdm, w);
    var x := WordOf(hhdm, n);
    var d :| SlabFor(size) == Some(d) && bs[w].c < d < CLASSES && Moved(mem, mem', cs, cs', bs[w].c, w, d, x);
    var b := MoveHeld(cs, cs', hhdm, table, mem, mem', bs, w, d, x);
    bs' := (bs - {w})[x := b];
    MoveEffect(bs, w, size, x, b);
  }

  lemma MoveEffect(bs: Store, w: nat, size: nat, x: nat, b: Block)
    requires w in bs && size > EntSize(bs[w].c) && SlabFor(size) == Some(b.c) && x !in bs && bs[w].c < b.c
             && bs[w].data <= b.data
    ensures var bs' := (bs - {w})[x := b]; Effect(bs, Op.Realloc(w, size), bs') && bs'.Keys == bs.Keys - {w} + {x}
  {
    assert Moves(bs, w, size, (bs - {w})[x := b], x);
  }

  method DoFree(sa: SlabAllocator, w: nat, held: set<nat>, ghost bs: Store) returns (held': set<nat>, ghost bs': Store)
    requires Knows(sa, held, bs) && w in held
    modifies sa, sa.pmm.ram
    ensures Knows(sa, held', bs') && Effect(bs, Op.Free(w), bs')
    ensures Framed(old(sa.pmm.ram[..]), sa.pmm.ram[..], old(sa.pmm.live), sa.pmm.live, old(sa.cs), sa.cs)
  {
    ghost var cs, mem := sa.cs, sa.pmm.ram[..];
    HeldIsLive(sa, bs, w);
    PtrWord(sa.hhdm, w);
    var a := Ptr(sa.hhdm, w);
    ghost var c := bs[w].c;
    sa.Free(a, c);
    assert Returned(cs, sa.cs, sa.hhdm, c, a);
    DoGive(cs, sa.cs, sa.hhdm, mem, sa.pmm.ram[..], bs, w, a);
    held', bs' := held - {w}, bs - {w};
  }

  lemma DoGive(cs: seq<Class>, cs': seq<Class>, hhdm: nat, mem: seq<Word>, mem': seq<Word>, bs: Store, w: nat, a: nat)
    requires Held(cs, mem, bs) && w in bs && bs[w].c < CLASSES && a == Ptr(hhdm, w)
             && Returned(cs, cs', hhdm, bs[w].c, a)
    requires Preserves(mem, mem', cs')
    ensures Held(cs', mem', bs - {w}) && Effect(bs, Op.Free(w), bs - {w}) && (bs - {w}).Keys == bs.Keys - {w}
  {
    PtrWord(hhdm, w);
    FreeHeld(cs, cs', mem, mem', bs, w);
  }

  method DoWrite(sa: SlabAllocator, w: nat, k: nat, v: Word, held: set<nat>, ghost bs: Store) returns (ghost bs': Store)
    requires Knows(sa, held, bs) && w in held
    modifies sa.pmm.ram
    ensures Knows(sa, held, bs') && Effect(bs, Op.Write(w, k, v), bs')
    ensures Framed(old(sa.pmm.ram[..]), sa.pmm.ram[..], old(sa.pmm.live), sa.pmm.live, old(sa.cs), sa.cs)
  {
    HeldIsLive(sa, bs, w);
    bs' := bs;
    var c := sa.OwnerOf(Ptr(sa.hhdm, w), bs[w].c);
    var n := Words(c);
    assert c == bs[w].c && n == |bs[w].data| by {
      assert Good(sa.cs, sa.pmm.ram[..], w, bs[w]);
    }
    if k < n {
      bs' := DoStore(sa, w, k, v, c, held, bs);
    }
  }

  method DoStore(sa: SlabAllocator, w: nat, k: nat, v: Word, c: nat, ghost held: set<nat>, ghost bs: Store)
    returns (ghost bs': Store)
    requires Knows(sa, held, bs) && w in held && c == bs[w].c && k < |bs[w].data|
    modifies sa.pmm.ram
    ensures Knows(sa, held, bs') && bs' == bs[w := Block(c, bs[w].data[k := v])]
    ensures Framed(old(sa.pmm.ram[..]), sa.pmm.ram[..], old(sa.pmm.live), sa.pmm.live, old(sa.cs), sa.cs)
  {
    ghost var mem, b := sa.pmm.ram[..], Block(c, bs[w].data[k := v]);
    WriteHeld(sa.cs, sa.hhdm, sa.table, mem, bs, w, k, v);
    var x := w + k;
    sa.Store(x, v, c);
    assert sa.pmm.ram[..] == mem[x := v];
    bs' := bs[w := b];
    assert bs'.Keys == bs.Keys;
  }

  method DoOne(sa: SlabAllocator, op: Op, held: set<nat>, ghost bs: Store)
    returns (ok: bool, held': set<nat>, ghost bs': Store)
    requires Knows(sa, held, bs) && OpOk(op)
    modifies sa, sa.pmm`cursor, sa.pmm`live, sa.pmm.bitmap, sa.pmm.ram
    ensures Knows(sa, held', bs')
    ensures if ok then Effect(bs, op, bs') else bs' == bs && Starved(sa, bs, op)
    ensures Framed(old(sa.pmm.ram[..]), sa.pmm.ram[..], old(sa.pmm.live), sa.pmm.live, old(sa.cs), sa.cs)
  {
    ok, held', bs' := true, held, bs;
    SkipEffect(bs, op);
    match op
    case Alloc(size) => ok, held', bs' := DoAlloc(sa, size, held, bs);
    case Realloc(w, size) => if w in held { ok, held', bs' := DoRealloc(sa, w, size, held, bs); }
    case Free(w) => if w in held { held', bs' := DoFree(sa, w, held, bs); }
    case Write(w, k, v) => if w in held { bs' := DoWrite(sa, w, k, v, held, bs); }
  }

  /** An operation on a block not held has no effect. */
  lemma SkipEffect(bs: Store, op: Op)
    ensures !op.Alloc? && op.w !in bs ==> Effect(bs, op, bs)
  {
    if op.Free? && op.w !in bs {
      assert bs - {op.w} == bs;
    }
  }

  // ---- every run ----

  /** The blocks held after each operation, `trace[0]` being those held before the first. */
  ghost predicate Traces(first: Store, ops: seq<Op>, trace: seq<Store>) {
    |trace| == |ops| + 1 && trace[0] == first && forall n | 0 <= n < |ops| :: Effect(trace[n], ops[n], trace[n + 1])
  }

  /** Every run, up to the first out-of-memory panic: the blocks held at the end are those the operations lead to,
      one effect after another, in memory word for word, live and disjoint; the allocator is in order; and the panic
      comes only in an operation that needs a new block, when its class has no free one and the page allocator has no
      aligned run of 64 pages in reach. */
  method Run(sa: SlabAllocator, ops: seq<Op>) returns (done: nat, held: set<nat>, ghost trace: seq<Store>)
    requires sa.Valid() && sa.Ready() && forall n | 0 <= n < |ops| :: OpOk(ops[n])
    modifies sa, sa.pmm`cursor, sa.pmm`live, sa.pmm.bitmap, sa.pmm.ram
    ensures done <= |ops| && Traces(map[], ops[..done], trace) && Knows(sa, held, trace[done])
    ensures done < |ops| ==> Starved(sa, trace[done], ops[done])
  {
    ghost var sofar: seq<Op> := [];
    done, held, trace := 0, {}, [map[]];
    while done < |ops|
      invariant done <= |ops| && sofar == ops[..done] && Told(sa, sofar, held, trace)
    {
      var ok;
      ok, held, trace := Step(sa, ops[done], sofar, held, trace);
      if !ok {
        break;
      }
      sofar := sofar + [ops[done]];
      done := done + 1;
    }
  }

  /** After `ops` the client holds what they lead to. */
  ghost predicate Told(sa: SlabAllocator, ops: seq<Op>, held: set<nat>, trace: seq<Store>)
    reads sa, sa.pmm, sa.pmm.bitmap, sa.pmm.ram
  {
    Traces(map[], ops, trace) && Knows(sa, held, trace[|ops|])
  }

  method Step(sa: SlabAllocator, op: Op, ghost ops: seq<Op>, held: set<nat>, ghost trace: seq<Store>)
    returns (ok: bool, held': set<nat>, ghost trace': seq<Store>)
    requires Told(sa, ops, held, trace) && OpOk(op)
    modifies sa, sa.pmm`cursor, sa.pmm`live, sa.pmm.bitmap, sa.pmm.ram
    ensures Told(sa, if ok then ops + [op] else ops, held', trace')
    ensures !ok ==> Starved(sa, trace'[|ops|], op)
  {
    ghost var bs, bs' := trace[|ops|], map[];
    ok, held', bs' := DoOne(sa, op, held, bs);
    if ok {
      trace' := TraceNext(map[], ops, trace, op, bs');
    } else {
      trace' := trace;
      assert trace'[|ops|] == bs';
    }
  }

  lemma TraceNext(first: Store, ops: seq<Op>, trace: seq<Store>, op: Op, bs: Store) returns (trace': seq<Store>)
    requires Traces(first, ops, trace) && Effect(trace[|ops|], op, bs)
    ensures trace' == trace + [bs] && Traces(first, ops + [op], trace') && trace'[|ops + [op]|] == bs
  {
    trace' := trace + [bs];
    var more := ops + [op];
    forall m | 0 <= m < |more| ensures Effect(trace'[m], more[m], trace'[m + 1]) {
      assert m < |ops| ==> more[m] == ops[m] && trace'[m] == trace[m] && trace'[m + 1] == trace[m + 1];
    }
  }
}
