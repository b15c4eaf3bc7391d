/**
 The page heap seen by its client: whatever sequence of `alloc`, `realloc`, `free` and stores it makes, the
 blocks it holds behave like independent arrays of bytes, and the page allocator gets back what it gave.
 */
module HeapRuns {
  import opened Bits
  import opened Rounding
  import opened PageRuns
  import opened HeapSpec
  import opened Heap

  /** What a client may do; a block is named by its metadata page. Nothing is done to a block the client does not
      hold or a byte the block does not have. */
  datatype Op = Alloc(size: nat) | Realloc(s: nat, size: nat) | Free(s: nat) | Write(s: nat, k: nat, v: nat)

  predicate OpOk(op: Op) {
    match op
    case Alloc(size) => size + 4095 < 0x1_0000_0000_0000_0000
    case Realloc(_, size) => size + 4095 < 0x1_0000_0000_0000_0000
    case Free(_) => true
    case Write(_, _, v) => v < 256
  }

  /** The bytes of every block held. */
  type Store = map<nat, seq<nat>>

  /** The effect an operation has on the blocks held. */
  ghost predicate Effect(bs: Store, op: Op, bs': Store) {
    match op
    case Alloc(size) => exists s: nat :: s !in bs && bs' == bs[s := Zeros(size)]
    case Realloc(s, size) => if s in bs then exists t: nat :: Reallocated(bs, s, size, bs', t) else bs' == bs
    case Free(s) => bs' == bs - {s}
    case Write(s, k, v) => bs' == if s in bs && k < |bs[s]| then bs[s := Put(bs[s], k, v)] else bs
  }

  function Put(data: seq<nat>, k: nat, v: nat): seq<nat>
    requires k < |data|
  {
    data[k := v]
  }

  function Zeros(n: nat): seq<nat> { seq(n, _ => 0) }

  /** The block moved to `t` with its first bytes. It stays where it is exactly when it needs as many pages as
      before; otherwise what it has beyond the old bytes is zero. */
  ghost predicate Reallocated(bs: Store, s: nat, size: nat, bs': Store, t: nat)
    requires s in bs
  {
    && t in bs' && |bs'[t]| == size && bs' == (bs - {s})[t := bs'[t]] && (t == s || t !in bs)
    && (t == s <==> PagesFor(size) == PagesFor(|bs[s]|))
    && KeepsBytes(bs[s], bs'[t], t != s)
  }

  ghost predicate KeepsBytes(was: seq<nat>, now: seq<nat>, moved: bool) {
    && (forall k: nat | k < |was| && k < |now| :: now[k] == was[k])
    && (moved ==> forall k | |was| <= k < |now| :: now[k] == 0)
  }

  /** The data bytes of the block at page `s` are `data`. */
  ghost predicate DataIs(mem: seq<Word>, s: nat, data: seq<nat>) {
    4096 * (s + 1) + |data| <= 8 * |mem| && forall k: nat | k < |data| :: Byte(mem, 4096 * (s + 1) + k) == data[k]
  }

  ghost function DataAt(mem: seq<Word>, s: nat, size: nat): (data: seq<nat>)
    requires 4096 * (s + 1) + size <= 8 * |mem|
    ensures |data| == size && DataIs(mem, s, data)
  {
    if size == 0 then [] else DataAt(mem, s, size - 1) + [Byte(mem, 4096 * (s + 1) + size - 1)]
  }

  /** The blocks held are blocks of the heap, with the bytes memory holds. Other clients may hold others. */
  ghost predicate Held(mem: seq<Word>, blocks: map<nat, nat>, bs: Store) {
    bs.Keys <= blocks.Keys && forall s | s in bs :: blocks[s] == |bs[s]| && DataIs(mem, s, bs[s])
  }

  /** A block whose run is kept keeps its bytes. */
  lemma DataKept(mem: seq<Word>, mem': seq<Word>, live: map<nat, nat>, kept: map<nat, nat>, s: nat, data: seq<nat>)
    requires DataIs(mem, s, data) && BlockOk(mem, live, s, |data|) && RunsKept(mem, mem', kept) && s in kept
             && kept[s] == live[s]
    ensures DataIs(mem', s, data)
  {
    forall k: nat | k < |data| ensures Byte(mem', 4096 * (s + 1) + k) == data[k] {
      var a := 4096 * (s + 1) + k;
      DataInside(|data|, |data|, a, s);
      assert mem'[a / 8] == mem[a / 8];
    }
  }

  /** Blocks other than `s`, whose run alone may have changed. */
  lemma OthersHeld(mem: seq<Word>, mem': seq<Word>, live: map<nat, nat>, blocks: map<nat, nat>, bs: Store, s: nat)
    requires HeapInv(mem, live, blocks) && Held(mem, blocks, bs) && RunsKept(mem, mem', live - {s})
    ensures forall u | u in bs && u != s :: DataIs(mem', u, bs[u])
  {
    forall u | u in bs && u != s ensures DataIs(mem', u, bs[u]) {
      assert BlockOk(mem, live, u, blocks[u]);
      DataKept(mem, mem', live, live - {s}, u, bs[u]);
    }
  }

  lemma AllocHeld(mem: seq<Word>, mem': seq<Word>, live: map<nat, nat>, live': map<nat, nat>, blocks: map<nat, nat>,
                  blocks': map<nat, nat>,
                  bs: Store, s: nat, size: nat)
    requires HeapInv(mem, live, blocks) && HeapInv(mem', live', blocks') && Held(mem, blocks, bs)
             && RunsKept(mem, mem', live)
    requires s !in live && Born(blocks, blocks', s, size) && Zeroed(mem', s, size)
    ensures Held(mem', blocks', bs[s := Zeros(size)]) && Effect(bs, Op.Alloc(size), bs[s := Zeros(size)])
    ensures bs[s := Zeros(size)].Keys == bs.Keys + {s}
  {
    assert live - {s} == live;
    OthersHeld(mem, mem', live, blocks, bs, s);
    RunEnds(mem', live', blocks', s);
    ZeroData(mem', s, size);
    AllocEffect(bs, s, size);
  }

  lemma AllocEffect(bs: Store, s: nat, size: nat)
    requires s !in bs
    ensures Effect(bs, Op.Alloc(size), bs[s := Zeros(size)]) && bs[s := Zeros(size)].Keys == bs.Keys + {s}
  {}

  lemma RunEnds(mem: seq<Word>, live: map<nat, nat>, blocks: map<nat, nat>, s: nat)
    requires HeapInv(mem, live, blocks) && s in blocks
    ensures 512 * (s + 1 + PagesFor(blocks[s])) <= |mem|
  {
    assert BlockOk(mem, live, s, blocks[s]);
  }

  lemma ZeroData(mem: seq<Word>, s: nat, size: nat)
    requires Zeroed(mem, s, size) && 512 * (s + 1 + PagesFor(size)) <= |mem|
    ensures DataIs(mem, s, Zeros(size))
  {
    ZeroedBytes(mem, s, size);
  }

  lemma FreeHeld(mem: seq<Word>, mem': seq<Word>, live: map<nat, nat>, blocks: map<nat, nat>, bs: Store, s: nat)
    requires HeapInv(mem, live, blocks) && Held(mem, blocks, bs) && RunsKept(mem, mem', live - {s})
    ensures Held(mem', blocks - {s}, bs - {s})
  {
    OthersHeld(mem, mem', live, blocks, bs, s);
  }

  lemma ReallocHeld(mem: seq<Word>, mem': seq<Word>, live: map<nat, nat>, live': map<nat, nat>, blocks: map<nat, nat>,
                    blocks': map<nat, nat>,
                    bs: Store, s: nat, t: nat, size: nat)
    returns (bs': Store)
    requires HeapInv(mem, live, blocks) && HeapInv(mem', live', blocks') && Held(mem, blocks, bs)
    requires s in bs && Resized(mem, mem', live, live', blocks, blocks', s, t, size)
    ensures Held(mem', blocks', bs') && Reallocated(bs, s, size, bs', t) && bs'.Keys == bs.Keys - {s} + {t}
  {
    assert t in blocks' && blocks'[t] == size;
    DataEnds(mem', live', t, size);
    var data := DataAt(mem', t, size);
    bs' := (bs - {s})[t := data];
    ReallocData(mem, mem', s, bs[s], t, data);
    OthersHeld(mem, mem', live, blocks, bs, s);
  }

  lemma DataEnds(mem: seq<Word>, live: map<nat, nat>, s: nat, size: nat)
    requires BlockOk(mem, live, s, size)
    ensures 4096 * (s + 1) + size <= 8 * |mem|
  {
    RoundingIsTight(size, 4096);
  }

  lemma ReallocData(mem: seq<Word>, mem': seq<Word>, s: nat, data: seq<nat>, t: nat, data': seq<nat>)
    requires DataIs(mem, s, data) && DataIs(mem', t, data')
    requires Carries(mem, s, |data|, mem', t, |data'|)
    ensures KeepsBytes(data, data', t != s)
  {
    forall k: nat | k < |data| && k < |data'| ensures data'[k] == data[k] {
      assert SameBytes(mem, s, mem', t, k + 1);
      assert Byte(mem', 4096 * (t + 1) + k) == Byte(mem, 4096 * (s + 1) + k);
    }
    if s != t {
      forall k: nat | |data| <= k < |data'| ensures data'[k] == 0 {
        assert Byte(mem', 4096 * (t + 1) + k) == 0;
      }
    }
  }

  lemma WriteHeld(mem: seq<Word>, mem': seq<Word>, live: map<nat, nat>, blocks: map<nat, nat>, bs: Store, s: nat,
                  k: nat, v: nat)
    requires HeapInv(mem, live, blocks) && Held(mem, blocks, bs) && s in bs && k < |bs[s]|
    requires RunsKept(mem, mem', live - {s}) && ByteStored(mem, mem', 4096 * (s + 1) + k, v)
    ensures Held(mem', blocks, bs[s := Put(bs[s], k, v)])
  {
    WrittenData(mem, mem', s, bs[s], k, v);
    OthersHeld(mem, mem', live, blocks, bs, s);
  }

  lemma WrittenData(mem: seq<Word>, mem': seq<Word>, s: nat, data: seq<nat>, k: nat, v: nat)
    requires DataIs(mem, s, data) && k < |data| && ByteStored(mem, mem', 4096 * (s + 1) + k, v)
    ensures DataIs(mem', s, Put(data, k, v))
  {
    forall m: nat | m < |data| ensures Byte(mem', 4096 * (s + 1) + m) == Put(data, k, v)[m] {
      assert Byte(mem, 4096 * (s + 1) + m) == data[m];
    }
  }

  // ---- what the page allocator gave ----

  /** The live runs are those there were and the ones of the blocks held. */
  ghost predicate Accounted(start: map<nat, nat>, live: map<nat, nat>, mine: set<nat>) {
    && live.Keys == start.Keys + mine && start.Keys !! mine
    && (forall t | t in start :: live[t] == start[t])
  }

  /** Runs that were there before are none of the blocks held. */
  lemma StartKept(start: map<nat, nat>, live: map<nat, nat>, mine: set<nat>, mem: seq<Word>, mem': seq<Word>, s: nat)
    requires Accounted(start, live, mine) && s !in start && RunsKept(mem, mem', live - {s})
    ensures RunsKept(mem, mem', start)
  {
    forall t, x | t in start && 512 * t <= x < 512 * (t + start[t]) && x < |mem| ensures mem'[x] == mem[x] {
      assert t in live - {s};
    }
  }

  /** The client took or gave up blocks: nobody else's run or block changed. */
  ghost predicate Undisturbed(start: map<nat, nat>, mem: seq<Word>, mem': seq<Word>, blocks: map<nat, nat>,
                              blocks': map<nat, nat>,
                              mine: set<nat>, mine': set<nat>) {
    RunsKept(mem, mem', start) && BlocksKept(blocks, blocks', mine, mine')
  }

  // ---- one operation ----

  /** What a client knows between operations, the page runs having been `start` before its first one. */
  ghost predicate Knows(h: PageHeap, start: map<nat, nat>, held: set<nat>, bs: Store)
    reads h, h.pmm, h.pmm.bitmap, h.pmm.ram
  {
    && h.Valid() && Held(h.pmm.ram[..], h.blocks, bs) && Accounted(start, h.pmm.live, bs.Keys) && held == bs.Keys
  }

  /** The pages an operation asks the page allocator for. */
  ghost function Demand(bs: Store, op: Op): nat {
    match op
    case Alloc(size) => PagesFor(size) + 1
    case Realloc(s, size) => if s in bs && PagesFor(size) != PagesFor(|bs[s]|) then PagesFor(size) + 1 else 0
    case Free(_) => 0
    case Write(_, _, _) => 0
  }

  method DoAlloc(h: PageHeap, size: nat, ghost start: map<nat, nat>, held: set<nat>, ghost bs: Store)
    returns (ok: bool, held': set<nat>, ghost bs': Store)
    requires Knows(h, start, held, bs) && OpOk(Op.Alloc(size))
    modifies h, h.pmm`cursor, h.pmm`live, h.pmm.bitmap, h.pmm.ram
    ensures Knows(h, start, held', bs')
    ensures if ok then Effect(bs, Op.Alloc(size), bs') else bs' == bs && h.pmm.Exhausted(PagesFor(size) + 1)
    ensures Undisturbed(start, old(h.pmm.ram[..]), h.pmm.ram[..], old(h.blocks), h.blocks, bs.Keys, bs'.Keys)
  {
    ghost var mem, live, blocks := h.pmm.ram[..], h.pmm.live, h.blocks;
    var p := h.Alloc(size);
    ok, held', bs' := p.Some?, held, bs;
    if ok {
      var s := h.PageOf(p.value);
      AllocOthers(mem, h.pmm.ram[..], live, h.pmm.live, blocks, h.blocks, start, bs.Keys, s, size);
      AllocHeld(mem, h.pmm.ram[..], live, h.pmm.live, blocks, h.blocks, bs, s, size);
      held', bs' := held + {s}, bs[s := Zeros(size)];
    }
  }

  lemma AllocOthers(mem: seq<Word>, mem': seq<Word>, live: map<nat, nat>, live': map<nat, nat>, blocks: map<nat, nat>,
                    blocks': map<nat, nat>,
                    start: map<nat, nat>, mine: set<nat>, s: nat, size: nat)
    requires Accounted(start, live, mine) && Born(blocks, blocks', s, size) && Taken(live, live', s, PagesFor(size) + 1)
    requires RunsKept(mem, mem', live) && mine <= blocks.Keys
    ensures Accounted(start, live', mine + {s}) && Undisturbed(start, mem, mem', blocks, blocks', mine, mine + {s})
  {
    assert live - {s} == live;
    StartKept(start, live, mine, mem, mem', s);
  }

  method DoRealloc(h: PageHeap, s: nat, size: nat, ghost start: map<nat, nat>, held: set<nat>, ghost bs: Store)
    returns (ok: bool, held': set<nat>, ghost bs': Store)
    requires Knows(h, start, held, bs) && OpOk(Op.Realloc(s, size)) && s in held
    modifies h, h.pmm`cursor, h.pmm`live, h.pmm.bitmap, h.pmm.ram
    ensures Knows(h, start, held', bs')
    ensures if ok then Effect(bs, Op.Realloc(s, size), bs')
            else bs' == bs && h.pmm.Exhausted(Demand(bs, Op.Realloc(s, size)))
    ensures Undisturbed(start, old(h.pmm.ram[..]), h.pmm.ram[..], old(h.blocks), h.blocks, bs.Keys, bs'.Keys)
  {
    ghost var mem, live, blocks := h.pmm.ram[..], h.pmm.live, h.blocks;
    PtrOfPage(h, s);
    var ptr := h.PtrOf(s);
    var p := h.Realloc(ptr, size);
    ok, held', bs' := p.Some?, held, bs;
    if ok {
      var t := h.PageOf(p.value);
      assert Resized(mem, h.pmm.ram[..], live, h.pmm.live, blocks, h.blocks, s, t, size);
      ReallocOthers(mem, h.pmm.ram[..], live, h.pmm.live, blocks, h.blocks, start, bs.Keys, s, t, size);
      bs' := ReallocHeld(mem, h.pmm.ram[..], live, h.pmm.live, blocks, h.blocks, bs, s, t, size);
      held' := held - {s} + {t};
    } else {
      SameBlocks(mem, blocks, bs, start);
    }
  }

  lemma SameBlocks(mem: seq<Word>, blocks: map<nat, nat>, bs: Store, start: map<nat, nat>)
    requires Held(mem, blocks, bs)
    ensures Undisturbed(start, mem, mem, blocks, blocks, bs.Keys, bs.Keys)
  {}

  lemma ReallocOthers(mem: seq<Word>, mem': seq<Word>, live: map<nat, nat>, live': map<nat, nat>,
                      blocks: map<nat, nat>, blocks': map<nat, nat>,
                      start: map<nat, nat>, mine: set<nat>, s: nat, t: nat, size: nat)
    requires Accounted(start, live, mine) && Resized(mem, mem', live, live', blocks, blocks', s, t, size) && s in mine
             && mine <= blocks.Keys
    ensures Accounted(start, live', mine - {s} + {t})
            && Undisturbed(start, mem, mem', blocks, blocks', mine, mine - {s} + {t})
  {
    assert live'.Keys == live.Keys - {s} + {t} && blocks'.Keys == blocks.Keys - {s} + {t};
    StartKept(start, live, mine, mem, mem', s);
  }

  method DoFree(h: PageHeap, s: nat, ghost start: map<nat, nat>, held: set<nat>, ghost bs: Store)
    returns (held': set<nat>, ghost bs': Store)
    requires Knows(h, start, held, bs) && s in held
    modifies h, h.pmm`live, h.pmm.bitmap, h.pmm.ram
    ensures Knows(h, start, held', bs') && Effect(bs, Op.Free(s), bs')
    ensures Undisturbed(start, old(h.pmm.ram[..]), h.pmm.ram[..], old(h.blocks), h.blocks, bs.Keys, bs'.Keys)
  {
    ghost var mem, live, blocks := h.pmm.ram[..], h.pmm.live, h.blocks;
    PtrOfPage(h, s);
    var ptr := h.PtrOf(s);
    h.Free(ptr);
    assert h.blocks == blocks - {s} && h.pmm.live == live - {s};
    FreeDone(mem, h.pmm.ram[..], live, blocks, start, bs, s);
    held', bs' := held - {s}, bs - {s};
  }

  lemma FreeDone(mem: seq<Word>, mem': seq<Word>, live: map<nat, nat>, blocks: map<nat, nat>, start: map<nat, nat>,
                 bs: Store, s: nat)
    requires HeapInv(mem, live, blocks) && Held(mem, blocks, bs) && Accounted(start, live, bs.Keys) && s in bs
             && RunsKept(mem, mem', live - {s})
    ensures Held(mem', blocks - {s}, bs - {s}) && Accounted(start, live - {s}, (bs - {s}).Keys)
    ensures Undisturbed(start, mem, mem', blocks, blocks - {s}, bs.Keys, (bs - {s}).Keys)
  {
    FreeHeld(mem, mem', live, blocks, bs, s);
    StartKept(start, live, bs.Keys, mem, mem', s);
    assert (live - {s}).Keys == live.Keys - {s} && (blocks - {s}).Keys == blocks.Keys - {s}
           && (bs - {s}).Keys == bs.Keys - {s};
  }

  method DoWrite(h: PageHeap, s: nat, k: nat, v: nat, ghost start: map<nat, nat>, held: set<nat>, ghost bs: Store)
    returns (ghost bs': Store)
    requires Knows(h, start, held, bs) && s in held && v < 256
    modifies h.pmm.ram
    ensures Knows(h, start, held, bs') && Effect(bs, Op.Write(s, k, v), bs')
    ensures Undisturbed(start, old(h.pmm.ram[..]), h.pmm.ram[..], old(h.blocks), h.blocks, bs.Keys, bs'.Keys)
  {
    bs' := bs;
    assert BlockOk(h.pmm.ram[..], h.pmm.live, s, h.blocks[s]);
    var size := h.pmm.ram[512 * s + 1];
    if k < size {
      bs' := DoStore(h, s, k, v, start, held, bs);
    }
  }

  method DoStore(h: PageHeap, s: nat, k: nat, v: nat, ghost start: map<nat, nat>, ghost held: set<nat>, ghost bs: Store)
    returns (ghost bs': Store)
    requires Knows(h, start, held, bs) && s in held && k < |bs[s]| && v < 256
    modifies h.pmm.ram
    ensures Knows(h, start, held, bs') && bs' == bs[s := Put(bs[s], k, v)]
    ensures Undisturbed(start, old(h.pmm.ram[..]), h.pmm.ram[..], old(h.blocks), h.blocks, bs.Keys, bs'.Keys)
  {
    ghost var mem := h.pmm.ram[..];
    h.StoreByte(s, k, v);
    WriteHeld(mem, h.pmm.ram[..], h.pmm.live, h.blocks, bs, s, k, v);
    StartKept(start, h.pmm.live, bs.Keys, mem, h.pmm.ram[..], s);
    bs' := bs[s := Put(bs[s], k, v)];
    assert bs'.Keys == bs.Keys;
  }

  method DoOne(h: PageHeap, op: Op, ghost start: map<nat, nat>, held: set<nat>, ghost bs: Store)
    returns (ok: bool, held': set<nat>, ghost bs': Store)
    requires Knows(h, start, held, bs) && OpOk(op)
    modifies h, h.pmm`cursor, h.pmm`live, h.pmm.bitmap, h.pmm.ram
    ensures Knows(h, start, held', bs')
    ensures if ok then Effect(bs, op, bs') else bs' == bs && h.pmm.Exhausted(Demand(bs, op))
    ensures Undisturbed(start, old(h.pmm.ram[..]), h.pmm.ram[..], old(h.blocks), h.blocks, bs.Keys, bs'.Keys)
  {
    ok, held', bs' := true, held, bs;
    SkipEffect(bs, op);
    match op
    case Alloc(size) => ok, held', bs' := DoAlloc(h, size, start, held, bs);
    case Realloc(s, size) => if s in held { ok, held', bs' := DoRealloc(h, s, size, start, held, bs); }
    case Free(s) => if s in held { held', bs' := DoFree(h, s, start, held, bs); }
    case Write(s, k, v) => if s in held { bs' := DoWrite(h, s, k, v, start, held, bs); }
  }

  /** An operation on a block not held has no effect. */
  lemma SkipEffect(bs: Store, op: Op)
    ensures !op.Alloc? && op.s !in bs ==> Effect(bs, op, bs)
  {
    if op.Free? && op.s !in bs {
      assert bs - {op.s} == bs;
    }
  }

  // ---- every run ----

  /** The blocks held after each operation, `trace[0]` being those held before the first. */
  ghost predicate Traces(first: Store, ops: seq<Op>, trace: seq<Store>) {
    |trace| == |ops| + 1 && trace[0] == first && forall n | 0 <= n < |ops| :: Effect(trace[n], ops[n], trace[n + 1])
  }

  lemma TraceNext(first: Store, ops: seq<Op>, trace: seq<Store>, op: Op, bs: Store) returns (trace': seq<Store>)
    requires Traces(first, ops, trace) && Effect(trace[|ops|], op, bs)
    ensures trace' == trace + [bs] && Traces(first, ops + [op], trace') && trace'[|ops + [op]|] == bs
  {
    trace' := trace + [bs];
    var more := ops + [op];
    forall m | 0 <= m < |more| ensures Effect(trace'[m], more[m], trace'[m + 1]) {
      assert m < |ops| ==> more[m] == ops[m] && trace'[m] == trace[m] && trace'[m + 1] == trace[m + 1];
    }
  }

  /** Every run of a client that starts with no block, whatever others hold, up to the first out-of-memory panic: the
      blocks held at the end are those the operations lead to, one effect after another, in memory byte for byte; the
      panic comes only when the page allocator has no such run; and when no block is left it has the runs live and the
      pages in use it started with. */
  method Run(h: PageHeap, ops: seq<Op>) returns (done: nat, held: set<nat>, ghost trace: seq<Store>)
    requires h.Valid() && forall n | 0 <= n < |ops| :: OpOk(ops[n])
    modifies h, h.pmm`cursor, h.pmm`live, h.pmm.bitmap, h.pmm.ram
    ensures done <= |ops| && Traces(map[], ops[..done], trace) && Knows(h, old(h.pmm.live), held, trace[done])
    ensures done < |ops| ==> h.pmm.Exhausted(Demand(trace[done], ops[done]))
    ensures held == {} ==> h.pmm.live == old(h.pmm.live) && h.pmm.Used() == old(h.pmm.Used())
  {
    ghost var start, sofar: seq<Op> := h.pmm.View(), [];
    done, held, trace := 0, {}, [map[]];
    while done < |ops|
      invariant done <= |ops| && sofar == ops[..done] && Told(h, start.live, sofar, held, trace)
    {
      var ok;
      ok, held, trace := Step(h, ops[done], start.live, sofar, held, trace);
      if !ok {
        break;
      }
      sofar := sofar + [ops[done]];
      done := done + 1;
    }
    NothingLeft(h.pmm.pageCount, h.pmm.reserved, start, h.pmm.View(), held);
  }

  /** After `ops` the client holds what they lead to. */
  ghost predicate Told(h: PageHeap, start: map<nat, nat>, ops: seq<Op>, held: set<nat>, trace: seq<Store>)
    reads h, h.pmm, h.pmm.bitmap, h.pmm.ram
  {
    Traces(map[], ops, trace) && Knows(h, start, held, trace[|ops|])
  }

  method Step(h: PageHeap, op: Op, ghost start: map<nat, nat>, ghost ops: seq<Op>, held: set<nat>,
              ghost trace: seq<Store>)
    returns (ok: bool, held': set<nat>, ghost trace': seq<Store>)
    requires Told(h, start, ops, held, trace) && OpOk(op)
    modifies h, h.pmm`cursor, h.pmm`live, h.pmm.bitmap, h.pmm.ram
    ensures Told(h, start, if ok then ops + [op] else ops, held', trace')
    ensures !ok ==> h.pmm.Exhausted(Demand(trace'[|ops|], op))
  {
    ghost var bs, bs' := trace[|ops|], map[];
    ok, held', bs' := DoOne(h, op, start, held, bs);
    if ok {
      trace' := TraceNext(map[], ops, trace, op, bs');
    } else {
      trace' := trace;
      assert trace'[|ops|] == bs';
    }
  }

  lemma NothingLeft(n: nat, reserved: set<nat>, start: Pages, end: Pages, mine: set<nat>)
    requires Inv(n, reserved, start) && Inv(n, reserved, end) && Accounted(start.live, end.live, mine)
    ensures mine == {} ==> end.live == start.live && end.used == start.used
  {
    if mine == {} {
      assert end.live.Keys == start.live.Keys;
      SameLiveSameUsed(n, reserved, start, end);
    }
  }
}
