/**
 Any number of vectors and another client on one page heap: whatever pushes, insertions, removals and searches are
 made, in any order and between any operations of the other client, every vector behaves as a sequence of its own.
 */
module VectorRuns {
  import opened Bits
  import opened PageRuns
  import opened Paging
  import opened HeapSpec
  import opened Heap
  import V = Vector
  import HeapRuns
  import Layers

  /** An operation on vector `i`, or one of the heap's other client. An insertion past the end and a removal from an
      empty vector are the caller's errors and not made. */
  datatype Op = Push(i: nat, value: Word)
              | Insert(i: nat, index: Word, value: Word)
              | Remove(i: nat, index: Word)
              | RemoveValue(i: nat, value: Word)
              | Find(i: nat, value: Word)
              | Item(i: nat, index: Word)
              | Client(op: HeapRuns.Op)

  predicate OpOk(vectors: nat, op: Op) { if op.Client? then HeapRuns.OpOk(op.op) else op.i < vectors }

  /** What the vectors hold, and the other client's blocks. */
  datatype View = View(texts: seq<seq<Word>>, raw: HeapRuns.Store)

  /** What an operation makes of the vector's contents, and what it returns. */
  ghost predicate TextEffect(text: seq<Word>, op: Op, text': seq<Word>, answer: int)
    requires !op.Client?
  {
    match op
    case Push(_, value) => text' == text + [value] && answer == |text|
    case Insert(_, index, value) => text' == if index <= |text| then text[..index] + [value] + text[index..] else text
    case Remove(_, index) =>
      text' == if text == [] then [] else if index < |text| then V.Removed(text, index) else text[..|text| - 1]
    case RemoveValue(_, value) =>
      if value in text then exists k: nat :: V.FirstAt(text, value, k) && text' == V.Removed(text, k)
      else text' == if text == [] then [] else text[..|text| - 1]
    case Find(_, value) =>
      text' == text && if answer == -1 then value !in text
        else answer >= 0 && V.FirstAt(text, value, answer)
    case Item(_, index) => text' == text && answer == if index < |text| then text[index] else 0xffff_ffff_ffff_ffff
  }

  /** The effect on all of them: the vector concerned changes and nothing else, or the other client's blocks do. */
  ghost predicate Effect(a: View, op: Op, b: View, answer: int) {
    match op
    case Client(o) => b.texts == a.texts && HeapRuns.Effect(a.raw, o, b.raw)
    case _ =>
      && op.i < |a.texts| == |b.texts| && b == a.(texts := a.texts[op.i := b.texts[op.i]])
      && TextEffect(a.texts[op.i], op, b.texts[op.i], answer)
  }

  // ---- the heap's state and the vectors' fields as values ----

  datatype State = State(mem: seq<Word>, live: map<nat, nat>, blocks: map<nat, nat>)

  datatype Fields = Fields(data: nat, page: nat, length: nat, capacity: nat, grown: nat) {
    ghost function Own(): set<nat> { V.OwnRun(page, capacity) }
  }

  ghost function FieldsOf(v: V.Vector): Fields
    reads v
  {
    Fields(v.data, v.page, v.length, v.capacity, v.grown)
  }

  ghost function Now(h: PageHeap): State
    reads h, h.pmm, h.pmm.ram
  {
    State(h.pmm.ram[..], h.pmm.live, h.blocks)
  }

  /** The vector with these fields holds `text`. */
  ghost predicate Holds(hhdm: nat, s: State, f: Fields, text: seq<Word>) {
    && f.length <= f.capacity && V.Backed(hhdm, s.blocks, f.data, f.page, f.capacity)
    && V.Items(s.mem, f.page, f.length) == text
  }

  /** Every vector and the other client have blocks of their own, with what `view` says in them. */
  ghost predicate Sound(hhdm: nat, s: State, fs: seq<Fields>, view: View) {
    && |view.texts| == |fs| && HeapInv(s.mem, s.live, s.blocks) && HeapRuns.Held(s.mem, s.blocks, view.raw)
    && (forall j | 0 <= j < |fs| :: Holds(hhdm, s, fs[j], view.texts[j]))
    && (forall j | 0 <= j < |fs| :: fs[j].Own() !! view.raw.Keys)
    && (forall j, k | 0 <= j < k < |fs| :: fs[j].Own() !! fs[k].Own())
  }

  /** The heap changed, but for the blocks `mine`, now `mine'`, nothing did. */
  ghost predicate Changed(s: State, s': State, mine: set<nat>, mine': set<nat>) {
    Spares(s.mem, s'.mem, s.live, s'.live, mine, mine') && BlocksKept(s.blocks, s'.blocks, mine, mine')
  }

  /** A vector keeps its contents when another client of the heap operates, or another layer, which leaves the heap's
      blocks as they are. */
  lemma VectorSpared(hhdm: nat, s: State, s': State, mine: set<nat>, mine': set<nat>, f: Fields, text: seq<Word>)
    requires HeapInv(s.mem, s.live, s.blocks) && Holds(hhdm, s, f, text) && f.Own() !! mine
    requires Spares(s.mem, s'.mem, s.live, s'.live, mine, mine')
    requires forall t | t in s.blocks && t !in mine :: t in s'.blocks && s'.blocks[t] == s.blocks[t]
    ensures Holds(hhdm, s', f, text) && f.Own() !! mine'
  {
    if f.capacity > 0 {
      assert f.page in f.Own();
      assert BlockOk(s.mem, s.live, f.page, s.blocks[f.page]);
      V.BlockWords(s.mem, s.live, s.blocks, f.page, f.capacity);
      assert RunSame(s.mem, s'.mem, f.page, s.live[f.page]);
      SameItems(s.mem, s'.mem, f.page, f.length, s.live[f.page]);
    }
  }

  lemma SameItems(mem: seq<Word>, mem': seq<Word>, page: nat, n: nat, pages: nat)
    requires RunSame(mem, mem', page, pages) && |mem'| == |mem| && n <= 512 * (pages - 1) && V.Base(page) + n <= |mem|
    ensures V.Items(mem', page, n) == V.Items(mem, page, n)
  {}

  /** So does a client of the heap when a vector operates. */
  lemma ClientSpared(s: State, s': State, mine: set<nat>, mine': set<nat>, raw: HeapRuns.Store)
    requires HeapInv(s.mem, s.live, s.blocks) && Changed(s, s', mine, mine') && HeapRuns.Held(s.mem, s.blocks, raw)
             && raw.Keys !! mine
    ensures HeapRuns.Held(s'.mem, s'.blocks, raw) && raw.Keys !! mine'
  {
    forall t | t in raw ensures t in s'.blocks && s'.blocks[t] == |raw[t]| && HeapRuns.DataIs(s'.mem, t, raw[t])
      && t !in mine' {
      assert BlockOk(s.mem, s.live, t, s.blocks[t]);
      Layers.BlockSpared(s.mem, s'.mem, s.live, s'.live, t, s.blocks[t], raw[t]);
    }
  }

  ghost function With(view: View, i: nat, text: seq<Word>): View
    requires i < |view.texts|
  {
    view.(texts := view.texts[i := text])
  }

  lemma WithText(view: View, i: nat, text: seq<Word>)
    requires i < |view.texts|
    ensures |With(view, i, text).texts| == |view.texts| && (text == view.texts[i] ==> With(view, i, text) == view)
    ensures forall j | 0 <= j < |view.texts| :: With(view, i, text).texts[j] == if j == i then text else view.texts[j]
  {}

  /** Every vector's count of items added went up by what it grew. */
  ghost predicate GrownBy(fs: seq<Fields>, fs': seq<Fields>, view: View, view': View) {
    && |fs| == |fs'| == |view.texts| == |view'.texts|
    && forall j | 0 <= j < |fs| :: fs'[j].grown == fs[j].grown + Growth(|view.texts[j]|, |view'.texts[j]|)
  }

  lemma WithGrowth(fs: seq<Fields>, view: View, i: nat, f: Fields, text: seq<Word>)
    requires i < |fs| == |view.texts| && f.grown == fs[i].grown + Growth(|view.texts[i]|, |text|)
    ensures GrownBy(fs, fs[i := f], view, With(view, i, text))
  {}

  lemma WithEffect(view: View, op: Op, text: seq<Word>, answer: int)
    requires !op.Client? && op.i < |view.texts| && TextEffect(view.texts[op.i], op, text, answer)
    ensures Effect(view, op, With(view, op.i, text), answer)
  {}

  lemma VectorStep(hhdm: nat, s: State, s': State, fs: seq<Fields>, view: View, i: nat, f: Fields, text: seq<Word>)
    requires Sound(hhdm, s, fs, view) && i < |fs| && HeapInv(s'.mem, s'.live, s'.blocks)
    requires Changed(s, s', fs[i].Own(), f.Own()) && Holds(hhdm, s', f, text)
    ensures Sound(hhdm, s', fs[i := f], With(view, i, text))
  {
    ClientSpared(s, s', fs[i].Own(), f.Own(), view.raw);
    OtherVectors(hhdm, s, s', fs, view, i, f);
    var fs', texts := fs[i := f], view.texts[i := text];
    forall j | 0 <= j < |fs| ensures Holds(hhdm, s', fs'[j], texts[j]) && fs'[j].Own() !! view.raw.Keys {}
  }

  lemma OtherVectors(hhdm: nat, s: State, s': State, fs: seq<Fields>, view: View, i: nat, f: Fields)
    requires Sound(hhdm, s, fs, view) && i < |fs| && Changed(s, s', fs[i].Own(), f.Own())
    ensures forall j | 0 <= j < |fs| && j != i :: Holds(hhdm, s', fs[j], view.texts[j]) && fs[j].Own() !! f.Own()
  {
    forall j | 0 <= j < |fs| && j != i ensures Holds(hhdm, s', fs[j], view.texts[j]) && fs[j].Own() !! f.Own() {
      assert fs[j].Own() !! fs[i].Own();
      VectorSpared(hhdm, s, s', fs[i].Own(), f.Own(), fs[j], view.texts[j]);
    }
  }

  lemma ClientStep(hhdm: nat, s: State, s': State, fs: seq<Fields>, view: View, raw: HeapRuns.Store)
    requires Sound(hhdm, s, fs, view) && HeapInv(s'.mem, s'.live, s'.blocks)
    requires Changed(s, s', view.raw.Keys, raw.Keys) && HeapRuns.Held(s'.mem, s'.blocks, raw)
    ensures Sound(hhdm, s', fs, view.(raw := raw))
  {
    forall j | 0 <= j < |fs| ensures Holds(hhdm, s', fs[j], view.texts[j]) && fs[j].Own() !! raw.Keys {
      VectorSpared(hhdm, s, s', view.raw.Keys, raw.Keys, fs[j], view.texts[j]);
    }
  }

  /** The live runs that are no vector's and not the client's. */
  ghost function Others(s: State, fs: seq<Fields>, raw: HeapRuns.Store): set<nat> {
    s.live.Keys - Owned(fs) - raw.Keys
  }

  ghost function Owned(fs: seq<Fields>): set<nat> { set j, t | 0 <= j < |fs| && t in fs[j].Own() :: t }

  lemma VectorOthers(s: State, s': State, fs: seq<Fields>, i: nat, f: Fields, raw: HeapRuns.Store)
    requires i < |fs| && Changed(s, s', fs[i].Own(), f.Own())
    ensures Others(s', fs[i := f], raw) == Others(s, fs, raw)
  {
    OthersLive(s.mem, s'.mem, s.live, s'.live, fs[i].Own(), f.Own());
    var fs' := fs[i := f];
    forall t ensures t in s'.live.Keys - Owned(fs') <==> t in s.live.Keys - Owned(fs) {
      assert t in s'.live.Keys - f.Own() <==> t in s.live.Keys - fs[i].Own();
      OwnedBut(fs, i, f, t);
    }
  }

  /** Vector `i` owns its run, and the other vectors theirs. */
  lemma OwnedBut(fs: seq<Fields>, i: nat, f: Fields, t: nat)
    requires i < |fs|
    ensures t in Owned(fs) <==> t in fs[i].Own() || OwnedByOther(fs, i, t)
    ensures t in Owned(fs[i := f]) <==> t in f.Own() || OwnedByOther(fs, i, t)
  {
    var fs' := fs[i := f];
    if j :| 0 <= j < |fs| && j != i && t in fs[j].Own() {
      assert fs'[j] == fs[j];
    }
    assert fs'[i] == f;
  }

  ghost predicate OwnedByOther(fs: seq<Fields>, i: nat, t: nat) {
    exists j :: 0 <= j < |fs| && j != i && t in fs[j].Own()
  }

  lemma ClientOthers(s: State, s': State, fs: seq<Fields>, raw: HeapRuns.Store, raw': HeapRuns.Store)
    requires Changed(s, s', raw.Keys, raw'.Keys)
    ensures Others(s', fs, raw') == Others(s, fs, raw)
  {
    OthersLive(s.mem, s'.mem, s.live, s'.live, raw.Keys, raw'.Keys);
    assert forall t :: t in s'.live.Keys - raw'.Keys <==> t in s.live.Keys - raw.Keys;
  }

  // ---- one operation ----

  /** What is known between operations: `fs` are the vectors' fields, `held` the other client's blocks. */
  ghost predicate Knows(h: PageHeap, vs: seq<V.Vector>, fs: seq<Fields>, held: set<nat>, view: View)
    reads h, h.pmm, h.pmm.bitmap, h.pmm.ram, vs
  {
    && h.Valid() && h.pmm.pageCount <= FRAMES && Sound(h.hhdm, Now(h), fs, view) && held == view.raw.Keys
    && Listed(h, vs, fs)
  }

  /** The vectors are distinct, on this heap, and have these fields. */
  ghost predicate Listed(h: PageHeap, vs: seq<V.Vector>, fs: seq<Fields>)
    reads vs
  {
    && |fs| == |vs| && (forall j | 0 <= j < |vs| :: vs[j].heap == h && vs[j].Counted() && FieldsOf(vs[j]) == fs[j])
    && (forall j, k | 0 <= j < k < |vs| :: vs[j] != vs[k])
  }

  /** Blocks lie in memory, so that no size overflows. */
  lemma SmallEnough(v: V.Vector)
    requires v.Valid() && v.heap.pmm.pageCount <= FRAMES
    ensures 16 * v.capacity + 4159 < 0x1_0000_0000_0000_0000 && v.length < V.MAX_INDEX && |v.Contents()| == v.length
  {
    V.ItemsLength(v);
  }

  /** The pages an operation on a vector with these fields asks for: a push or an insertion when it is full. */
  ghost function Asks(f: Fields, op: Op): nat {
    if (op.Push? || (op.Insert? && op.index <= f.length)) && f.length == f.capacity then V.Demand(f.capacity) else 0
  }

  /** The pages any operation asks for. */
  ghost function Demand(fs: seq<Fields>, view: View, op: Op): nat {
    if op.Client? then HeapRuns.Demand(view.raw, op.op) else if op.i < |fs| then Asks(fs[op.i], op) else 0
  }

  method AddItem(v: V.Vector, op: Op) returns (ok: bool, answer: int)
    requires v.Valid() && v.heap.pmm.pageCount <= FRAMES && (op.Push? || op.Insert?)
    modifies v, v.heap, v.heap.pmm`cursor, v.heap.pmm`live, v.heap.pmm.bitmap, v.heap.pmm.ram
    ensures v.Valid() && Changed(old(Now(v.heap)), Now(v.heap), old(v.Own()), v.Own())
    ensures if ok then TextEffect(old(v.Contents()), op, v.Contents(), answer)
            else v.Contents() == old(v.Contents()) && v.heap.pmm.Exhausted(Asks(FieldsOf(v), op))
    ensures v.grown == old(v.grown) + |v.Contents()| - |old(v.Contents())|
  {
    SmallEnough(v);
    ghost var past := Now(v.heap);
    ok, answer := true, 0;
    if op.Push? {
      var index := v.PushBack(op.value);
      ok := index.Some?;
      answer := if ok then index.value else 0;
    } else if op.index <= v.length {
      ok := v.Insert(op.index, op.value);
    } else {
      Unchanged(past, v.Own());
    }
  }

  method TakeItem(v: V.Vector, op: Op)
    requires v.Valid() && v.heap.pmm.pageCount <= FRAMES && (op.Remove? || op.RemoveValue?)
    modifies v`length, v.heap.pmm.ram
    ensures v.Valid() && Changed(old(Now(v.heap)), Now(v.heap), old(v.Own()), v.Own())
    ensures TextEffect(old(v.Contents()), op, v.Contents(), 0) && |v.Contents()| <= |old(v.Contents())|
  {
    SmallEnough(v);
    Unchanged(Now(v.heap), v.Own());
    if v.length > 0 {
      if op.Remove? {
        v.Remove(op.index);
      } else {
        TakeValue(v, op);
      }
    }
  }

  method TakeValue(v: V.Vector, op: Op)
    requires v.Valid() && 0 < v.length < V.MAX_INDEX && |v.Contents()| == v.length && op.RemoveValue?
    modifies v`length, v.heap.pmm.ram
    ensures v.Valid() && Changed(old(Now(v.heap)), Now(v.heap), old(v.Own()), v.Own())
    ensures TextEffect(old(v.Contents()), op, v.Contents(), 0) && |v.Contents()| <= |old(v.Contents())|
  {
    Unchanged(Now(v.heap), v.Own());
    v.RemoveByValue(op.value);
  }

  method Ask(v: V.Vector, op: Op) returns (answer: int)
    requires v.Valid() && (op.Find? || op.Item?)
    ensures TextEffect(v.Contents(), op, v.Contents(), answer)
  {
    if op.Find? {
      answer := v.Find(op.value);
    } else {
      answer := v.Item(op.index);
    }
  }

  lemma Unchanged(s: State, mine: set<nat>)
    requires mine <= s.blocks.Keys
    ensures Changed(s, s, mine, mine)
  {}

  /** An operation on one vector. */
  method DoText(v: V.Vector, op: Op) returns (ok: bool, answer: int)
    requires v.Valid() && v.heap.pmm.pageCount <= FRAMES && !op.Client?
    modifies v, v.heap, v.heap.pmm`cursor, v.heap.pmm`live, v.heap.pmm.bitmap, v.heap.pmm.ram
    ensures v.Valid() && Changed(old(Now(v.heap)), Now(v.heap), old(v.Own()), v.Own())
    ensures if ok then TextEffect(old(v.Contents()), op, v.Contents(), answer)
            else v.Contents() == old(v.Contents()) && v.heap.pmm.Exhausted(Asks(FieldsOf(v), op))
    ensures v.grown == old(v.grown) + Growth(|old(v.Contents())|, |v.Contents()|)
  {
    ok, answer := true, 0;
    if op.Push? || op.Insert? {
      ok, answer := AddItem(v, op);
    } else if op.Remove? || op.RemoveValue? {
      TakeItem(v, op);
    } else {
      Unchanged(Now(v.heap), v.Own());
      answer := Ask(v, op);
    }
  }

  /** The same, seen from the values. */
  method DoFields(v: V.Vector, op: Op, ghost past: State, ghost f: Fields, ghost text: seq<Word>)
    returns (ok: bool, answer: int, ghost f': Fields, ghost text': seq<Word>)
    requires v.Valid() && v.heap.pmm.pageCount <= FRAMES && !op.Client?
    requires past == Now(v.heap) && f == FieldsOf(v) && text == v.Contents()
    modifies v, v.heap, v.heap.pmm`cursor, v.heap.pmm`live, v.heap.pmm.bitmap, v.heap.pmm.ram
    ensures v.heap.Valid() && v.Counted() && f' == FieldsOf(v) && Holds(v.heap.hhdm, Now(v.heap), f', text')
    ensures Changed(past, Now(v.heap), f.Own(), f'.Own())
    ensures if ok then TextEffect(text, op, text', answer) else text' == text && v.heap.pmm.Exhausted(Asks(f', op))
    ensures f'.grown == f.grown + Growth(|text|, |text'|)
  {
    ok, answer := DoText(v, op);
    f', text' := FieldsOf(v), v.Contents();
  }

  lemma AtIndex(h: PageHeap, vs: seq<V.Vector>, fs: seq<Fields>, held: set<nat>, view: View, i: nat)
    requires Knows(h, vs, fs, held, view) && i < |vs|
    ensures vs[i].heap == h && vs[i].Valid() && fs[i] == FieldsOf(vs[i]) && vs[i].Contents() == view.texts[i]
            && i < |view.texts|
  {
    assert Holds(h.hhdm, Now(h), fs[i], view.texts[i]);
  }

  function Growth(n: nat, m: nat): nat { if n < m then m - n else 0 }

  method DoVector(h: PageHeap, vs: seq<V.Vector>, op: Op, ghost fs: seq<Fields>, ghost held: set<nat>, ghost view: View)
    returns (ok: bool, answer: int, ghost fs': seq<Fields>, ghost view': View)
    requires Knows(h, vs, fs, held, view) && !op.Client? && op.i < |vs|
    modifies vs, h, h.pmm`cursor, h.pmm`live, h.pmm.bitmap, h.pmm.ram
    ensures Knows(h, vs, fs', held, view')
    ensures if ok then Effect(view, op, view', answer)
            else view' == view && h.pmm.Exhausted(Demand(fs', view, op))
    ensures GrownBy(fs, fs', view, view') && Others(Now(h), fs', view'.raw) == Others(old(Now(h)), fs, view.raw)
  {
    var i := op.i;
    ghost var past := Now(h);
    AtIndex(h, vs, fs, held, view, i);
    ghost var f, text;
    ok, answer, f, text := DoListed(h, vs, i, op, fs, past, view.texts[i]);
    fs', view' := fs[i := f], With(view, i, text);
    VectorStep(h.hhdm, past, Now(h), fs, view, i, f, text);
    VectorOthers(past, Now(h), fs, i, f, view.raw);
    WithText(view, i, text);
    WithGrowth(fs, view, i, f, text);
    if ok {
      WithEffect(view, op, text, answer);
    } else {
      WithDemand(fs, i, f, view, op);
    }
  }

  lemma WithDemand(fs: seq<Fields>, i: nat, f: Fields, view: View, op: Op)
    requires !op.Client? && op.i == i < |fs|
    ensures Demand(fs[i := f], view, op) == Asks(f, op)
  {}

  /** Only vector `i` of the list changes. */
  method DoListed(h: PageHeap, vs: seq<V.Vector>, i: nat, op: Op, ghost fs: seq<Fields>, ghost past: State,
                  ghost text: seq<Word>)
    returns (ok: bool, answer: int, ghost f: Fields, ghost text': seq<Word>)
    requires Listed(h, vs, fs) && i < |vs| && vs[i].Valid() && h.pmm.pageCount <= FRAMES && !op.Client?
    requires past == Now(h) && text == vs[i].Contents()
    modifies vs, h, h.pmm`cursor, h.pmm`live, h.pmm.bitmap, h.pmm.ram
    ensures h.Valid() && Listed(h, vs, fs[i := f]) && Holds(h.hhdm, Now(h), f, text')
            && Changed(past, Now(h), fs[i].Own(), f.Own())
    ensures if ok then TextEffect(text, op, text', answer) else text' == text && h.pmm.Exhausted(Asks(f, op))
    ensures f.grown == fs[i].grown + Growth(|text|, |text'|)
  {
    ok, answer, f, text' := DoFields(vs[i], op, past, fs[i], text);
  }

  method DoClient(h: PageHeap, vs: seq<V.Vector>, op: HeapRuns.Op, ghost fs: seq<Fields>, held: set<nat>,
                  ghost view: View)
    returns (ok: bool, held': set<nat>, ghost view': View)
    requires Knows(h, vs, fs, held, view) && HeapRuns.OpOk(op)
    modifies h, h.pmm`cursor, h.pmm`live, h.pmm.bitmap, h.pmm.ram
    ensures Knows(h, vs, fs, held', view') && view'.texts == view.texts
    ensures Others(Now(h), fs, view'.raw) == Others(old(Now(h)), fs, view.raw)
    ensures if ok then HeapRuns.Effect(view.raw, op, view'.raw)
            else view' == view && h.pmm.Exhausted(HeapRuns.Demand(view.raw, op))
  {
    ghost var past, mine := Now(h), view.raw.Keys;
    ghost var start := past.live - mine;
    Layers.OthersAccounted(past.mem, past.live, past.blocks, mine);
    ghost var raw;
    ok, held', raw := HeapRuns.DoOne(h, op, start, held, view.raw);
    ghost var now := Now(h);
    Layers.HeapSpares(past.mem, now.mem, past.live, now.live, mine, raw.Keys, start);
    ClientStep(h.hhdm, past, now, fs, view, raw);
    ClientOthers(past, now, fs, view.raw, raw);
    view' := view.(raw := raw);
  }

  method DoOne(h: PageHeap, vs: seq<V.Vector>, op: Op, ghost fs: seq<Fields>, held: set<nat>, ghost view: View)
    returns (ok: bool, answer: int, held': set<nat>, ghost fs': seq<Fields>, ghost view': View)
    requires Knows(h, vs, fs, held, view) && OpOk(|vs|, op)
    modifies vs, h, h.pmm`cursor, h.pmm`live, h.pmm.bitmap, h.pmm.ram
    ensures Knows(h, vs, fs', held', view')
    ensures if ok then Effect(view, op, view', answer)
            else view' == view && h.pmm.Exhausted(Demand(fs', view, op))
    ensures GrownBy(fs, fs', view, view') && Others(Now(h), fs', view'.raw) == Others(old(Now(h)), fs, view.raw)
  {
    answer, held', fs' := 0, held, fs;
    if op.Client? {
      ok, held', view' := DoClient(h, vs, op.op, fs, held, view);
    } else {
      ok, answer, fs', view' := DoVector(h, vs, op, fs, held, view);
    }
  }

  // ---- every run ----

  /** What there is after each operation, `trace[0]` being what there was before the first, and what each returned. */
  ghost predicate Traces(first: View, ops: seq<Op>, trace: seq<View>, answers: seq<int>) {
    && |trace| == |ops| + 1 && |answers| == |ops| && trace[0] == first
    && forall n | 0 <= n < |ops| :: StepAt(ops, trace, answers, n)
  }

  ghost predicate StepAt(ops: seq<Op>, trace: seq<View>, answers: seq<int>, n: nat)
    requires n < |ops| == |answers| && |trace| == |ops| + 1
  {
    Effect(trace[n], ops[n], trace[n + 1], answers[n])
  }

  lemma TraceNext(first: View, ops: seq<Op>, trace: seq<View>, answers: seq<int>, op: Op, view: View, answer: int)
    requires Traces(first, ops, trace, answers) && Effect(trace[|ops|], op, view, answer)
    ensures Traces(first, ops + [op], trace + [view], answers + [answer])
  {
    forall n | 0 <= n < |ops| ensures StepAt(ops + [op], trace + [view], answers + [answer], n) {
      assert StepAt(ops, trace, answers, n);
    }
    assert StepAt(ops + [op], trace + [view], answers + [answer], |ops|);
  }

  ghost function Size(view: View, j: nat): nat { if j < |view.texts| then |view.texts[j]| else 0 }

  /** The number of items added to vector `j` in the course of the trace. */
  ghost function Added(trace: seq<View>, j: nat): nat {
    if |trace| <= 1 then 0
    else
      var n := |trace| - 1;
      Added(trace[..n], j) + Growth(Size(trace[n - 1], j), Size(trace[n], j))
  }

  /** Every vector counted them. */
  ghost predicate AllAdded(fs: seq<Fields>, fs': seq<Fields>, trace: seq<View>) {
    |fs'| == |fs| && forall j | 0 <= j < |fs| :: fs'[j].grown == fs[j].grown + Added(trace, j)
  }

  lemma AddedNext(fs: seq<Fields>, fs': seq<Fields>, fs'': seq<Fields>, trace: seq<View>, view: View)
    requires trace != [] && AllAdded(fs, fs', trace) && GrownBy(fs', fs'', trace[|trace| - 1], view)
    ensures AllAdded(fs, fs'', trace + [view])
  {
    assert (trace + [view])[..|trace|] == trace;
  }

  /** After `ops` the vectors and the other client hold what they lead to. */
  ghost predicate Told(h: PageHeap, vs: seq<V.Vector>, first: View, past: State, before: seq<Fields>, ops: seq<Op>,
                       fs: seq<Fields>, held: set<nat>, trace: seq<View>, answers: seq<int>)
    reads h, h.pmm, h.pmm.bitmap, h.pmm.ram, vs
  {
    && Traces(first, ops, trace, answers) && Knows(h, vs, fs, held, trace[|ops|]) && AllAdded(before, fs, trace)
    && Others(Now(h), fs, trace[|ops|].raw) == Others(past, before, first.raw)
  }

  method Step(h: PageHeap, vs: seq<V.Vector>, op: Op, ghost first: View, ghost past: State, ghost before: seq<Fields>,
              ghost ops: seq<Op>, ghost fs: seq<Fields>, held: set<nat>, ghost trace: seq<View>,
              ghost answers: seq<int>)
    returns (ok: bool, answer: int, ghost fs': seq<Fields>, held': set<nat>, ghost trace': seq<View>)
    requires Told(h, vs, first, past, before, ops, fs, held, trace, answers) && OpOk(|vs|, op)
    modifies vs, h, h.pmm`cursor, h.pmm`live, h.pmm.bitmap, h.pmm.ram
    ensures if ok then Told(h, vs, first, past, before, ops + [op], fs', held', trace', answers + [answer])
            else Told(h, vs, first, past, before, ops, fs', held', trace', answers)
                 && h.pmm.Exhausted(Demand(fs', trace'[|ops|], op))
  {
    ghost var view, view' := trace[|ops|], trace[|ops|];
    ok, answer, held', fs', view' := DoOne(h, vs, op, fs, held, view);
    if ok {
      TraceNext(first, ops, trace, answers, op, view', answer);
      AddedNext(before, fs, fs', trace, view');
      trace' := trace + [view'];
    } else {
      SameAdded(before, fs, fs', trace);
      trace' := trace;
    }
  }

  lemma SameAdded(fs: seq<Fields>, fs': seq<Fields>, fs'': seq<Fields>, trace: seq<View>)
    requires trace != [] && AllAdded(fs, fs', trace) && GrownBy(fs', fs'', trace[|trace| - 1], trace[|trace| - 1])
    ensures AllAdded(fs, fs'', trace)
  {}

  /** Where runs start: `n` vectors just initialised. */
  method NewVectors(h: PageHeap, n: nat) returns (vs: seq<V.Vector>, ghost fs: seq<Fields>)
    requires h.Valid() && h.pmm.pageCount <= FRAMES
    ensures |vs| == n && fresh(vs) && Knows(h, vs, fs, {}, Empty(n)) && forall f | f in fs :: f.grown == 0
  {
    vs, fs := [], [];
    while |vs| < n
      invariant |vs| <= n && fresh(vs) && Listed(h, vs, fs) && forall f | f in fs :: f == Fields(0, f.page, 0, 0, 0)
    {
      var v := new V.Vector(h);
      vs, fs := vs + [v], fs + [FieldsOf(v)];
    }
    EmptyVectors(h.hhdm, Now(h), fs);
  }

  lemma EmptyVectors(hhdm: nat, s: State, fs: seq<Fields>)
    requires HeapInv(s.mem, s.live, s.blocks) && forall f | f in fs :: f == Fields(0, f.page, 0, 0, 0)
    ensures Sound(hhdm, s, fs, Empty(|fs|))
  {
    forall j | 0 <= j < |fs| ensures Holds(hhdm, s, fs[j], []) && fs[j].Own() == {} {
      assert fs[j] in fs;
    }
  }

  ghost function Empty(n: nat): View { View(seq(n, _ => []), map[]) }

  /** Every run, up to the first out-of-memory panic, from any state: each vector holds the sequence its own operations
      lead to and every search and index returned what it should; the other client's blocks are those of its own
      operations, byte for byte; the runs of everybody else are the same; all the copies a vector ever made are fewer
      than two per item added to it; and the panic comes only when the page allocator has not the pages asked for. */
  method Run(h: PageHeap, vs: seq<V.Vector>, ops: seq<Op>, ghost fs0: seq<Fields>, held0: set<nat>, ghost first: View)
    returns (done: nat, answers: seq<int>, held: set<nat>, ghost fs: seq<Fields>, ghost trace: seq<View>)
    requires Knows(h, vs, fs0, held0, first) && forall n | 0 <= n < |ops| :: OpOk(|vs|, ops[n])
    modifies vs, h, h.pmm`cursor, h.pmm`live, h.pmm.bitmap, h.pmm.ram
    ensures done <= |ops| && Told(h, vs, first, old(Now(h)), fs0, ops[..done], fs, held, trace, answers)
    ensures done < |ops| ==> h.pmm.Exhausted(Demand(fs, trace[done], ops[done]))
    ensures forall j | 0 <= j < |vs| :: vs[j].grown > 0 ==> vs[j].copied < 2 * vs[j].grown
  {
    ghost var sofar: seq<Op>, past := [], Now(h);
    done, answers, held, fs, trace := 0, [], held0, fs0, [first];
    Begun(h, vs, fs0, held0, first);
    while done < |ops|
      invariant done <= |ops| && sofar == ops[..done] && Told(h, vs, first, past, fs0, sofar, fs, held, trace, answers)
    {
      var ok, answer;
      ok, answer, fs, held, trace := Step(h, vs, ops[done], first, past, fs0, sofar, fs, held, trace, answers);
      if !ok {
        break;
      }
      Longer(ops, done);
      sofar, answers := sofar + [ops[done]], answers + [answer];
      done := done + 1;
    }
    FewCopies(h, vs, fs);
  }

  lemma Begun(h: PageHeap, vs: seq<V.Vector>, fs: seq<Fields>, held: set<nat>, first: View)
    requires Knows(h, vs, fs, held, first)
    ensures Told(h, vs, first, Now(h), fs, [], fs, held, [first], [])
  {}

  lemma Longer(ops: seq<Op>, n: nat)
    requires n < |ops|
    ensures ops[..n + 1] == ops[..n] + [ops[n]]
  {}

  lemma FewCopies(h: PageHeap, vs: seq<V.Vector>, fs: seq<Fields>)
    requires Listed(h, vs, fs)
    ensures forall j | 0 <= j < |vs| :: vs[j].grown > 0 ==> vs[j].copied < 2 * vs[j].grown
  {
    forall j | 0 <= j < |vs| && vs[j].grown > 0 ensures vs[j].copied < 2 * vs[j].grown {
      vs[j].AmortisedGrowth();
    }
  }

  /** Removing the value 3 from the items 1 and 2 loses the 2. */
  lemma AbsentValueDropsLast(trace: seq<View>, answers: seq<int>)
    requires Traces(Empty(1), [Push(0, 1), Push(0, 2), RemoveValue(0, 3)], trace, answers)
    ensures trace[2].texts == [[1, 2]] && trace[3].texts == [[1]]
  {
    var ops := [Push(0, 1), Push(0, 2), RemoveValue(0, 3)];
    assert StepAt(ops, trace, answers, 0) && StepAt(ops, trace, answers, 1) && StepAt(ops, trace, answers, 2);
    OneText(trace[0], ops[0], trace[1], answers[0]);
    OneText(trace[1], ops[1], trace[2], answers[1]);
    OneText(trace[2], ops[2], trace[3], answers[2]);
    assert trace[1].texts[0] == [1] && trace[2].texts[0] == [1, 2] && trace[3].texts[0] == [1, 2][..1];
  }

  lemma OneText(a: View, op: Op, b: View, answer: int)
    requires Effect(a, op, b, answer) && !op.Client? && |a.texts| == 1
    ensures b.texts == [b.texts[0]] && TextEffect(a.texts[0], op, b.texts[0], answer)
  {}
}
