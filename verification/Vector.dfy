/** The doubling vector of `lib/vector.k.h` over the page heap, with items of eight bytes. */
module Vector {
  import opened Bits
  import opened Rounding
  import opened PageRuns
  import opened HeapSpec
  import opened Heap

  const INVALID_INDEX: int := -1
  const MAX_INDEX: Word := 0xffff_ffff_ffff_ffff

  /** `length - 1` in 64-bit arithmetic. */
  function Dec(n: nat): nat { if n == 0 then MAX_INDEX else n - 1 }

  ghost function Removed<T>(s: seq<T>, i: nat): seq<T>
    requires i < |s|
  {
    s[..i] + s[i + 1..]
  }

  /** The first word of the data of the block at page `s`. */
  function Base(s: nat): nat { 512 * (s + 1) }

  /** `data` points at a heap block of `capacity` items, NULL when there are none; the first `length` of them are the
      contents. */
  class Vector {
    const heap: PageHeap
    var data: nat
    var length: nat
    var capacity: nat
    ghost var page: nat        // of the block's metadata
    ghost var grown: nat       // pushes and inserts so far
    ghost var copied: nat      // items copied by all regrowths so far, were each of them to move the data

    ghost predicate Counted() reads this {
      && length <= capacity && length <= grown
      && (capacity == 0 ==> copied == 0)
      && (capacity > 0 ==> capacity >= 8 && copied + 8 == capacity)
      && (capacity > 8 ==> capacity + 2 <= 2 * grown)
    }

    /** There is room for one more item, `grown` counting the next one. */
    ghost predicate HasRoom() reads this {
      length < capacity && length <= grown && copied + 8 == capacity && (capacity > 8 ==> capacity <= 2 * grown)
    }

    ghost predicate Valid()
      reads this, heap, heap.pmm, heap.pmm.bitmap, heap.pmm.ram
    {
      heap.Valid() && Counted() && Backed(heap.hhdm, heap.blocks, data, page, capacity)
    }

    /** The page run of the block, if there is one. */
    ghost function Own(): set<nat>
      reads this
    {
      OwnRun(page, capacity)
    }

    ghost function Contents(): seq<Word>
      reads this, heap.pmm.ram
    {
      Items(heap.pmm.ram[..], page, length)
    }

    /** VECTOR_INITIALISER */
    constructor (heap: PageHeap)
      requires heap.Valid()
      ensures Valid() && this.heap == heap && Contents() == [] && data == length == capacity == grown == copied == 0
    {
      this.heap := heap;
      data, length, capacity, grown, copied := 0, 0, 0, 0, 0;
    }

    /** VECTOR_ENSURE_LENGTH(VEC, length): room for one more item. Only a full vector grows, from nothing to eight
        items or to twice its size. False is the out-of-memory panic of `realloc`. */
    method EnsureLength() returns (ok: bool)
      requires Valid() && 16 * capacity + 4159 < 0x1_0000_0000_0000_0000
      modifies this`data, this`page, this`capacity, this`copied, heap, heap.pmm`cursor, heap.pmm`live, heap.pmm.bitmap,
               heap.pmm.ram
      ensures heap.Valid() && Backed(heap.hhdm, heap.blocks, data, page, capacity)
      ensures old(length) < old(capacity) ==>
              ok && capacity == old(capacity) && data == old(data) && heap.pmm.ram[..] == old(heap.pmm.ram[..])
      ensures ok && old(length) >= old(capacity) ==>
                capacity == if old(capacity) == 0 then 8 else 2 * old(capacity)
      ensures ok ==> HasRoom() && Contents() == old(Contents())
      ensures copied == old(copied) + if ok && old(length) >= old(capacity) then old(capacity) else 0
      ensures !ok ==>
                Valid() && Contents() == old(Contents()) && length == capacity && heap.pmm.Exhausted(Demand(capacity))
      ensures Spares(old(heap.pmm.ram[..]), heap.pmm.ram[..], old(heap.pmm.live), heap.pmm.live, old(Own()), Own())
      ensures BlocksKept(old(heap.blocks), heap.blocks, old(Own()), Own())
    {
      ok := true;
      if length >= capacity {
        ok := Grow();
      }
    }

    /** The growing branch. */
    method Grow() returns (ok: bool)
      requires Valid() && length == capacity && 16 * capacity + 4159 < 0x1_0000_0000_0000_0000
      modifies this`data, this`page, this`capacity, this`copied, heap, heap.pmm`cursor, heap.pmm`live, heap.pmm.bitmap,
               heap.pmm.ram
      ensures heap.Valid() && Backed(heap.hhdm, heap.blocks, data, page, capacity)
      ensures ok ==> capacity == Doubled(old(capacity)) && copied == old(copied) + old(capacity)
      ensures ok ==> length <= capacity && Contents() == old(Contents())
      ensures !ok ==>
                capacity == old(capacity) && copied == old(copied) && Contents() == old(Contents())
                && heap.pmm.Exhausted(Demand(capacity))
      ensures Spares(old(heap.pmm.ram[..]), heap.pmm.ram[..], old(heap.pmm.live), heap.pmm.live, old(Own()), Own())
      ensures BlocksKept(old(heap.blocks), heap.blocks, old(Own()), Own())
    {
      if capacity == 0 {
        ok := GrowFirst();
      } else {
        ok := GrowMore();
      }
    }

    method GrowFirst() returns (ok: bool)
      requires Valid() && capacity == 0
      modifies this`data, this`page, this`capacity, heap, heap.pmm`cursor, heap.pmm`live, heap.pmm.bitmap, heap.pmm.ram
      ensures heap.Valid() && Backed(heap.hhdm, heap.blocks, data, page, capacity) && Contents() == old(Contents())
      ensures if ok then capacity == 8 else capacity == 0 && heap.pmm.Exhausted(Demand(0))
      ensures Spares(old(heap.pmm.ram[..]), heap.pmm.ram[..], old(heap.pmm.live), heap.pmm.live, {},
                     if ok then {page} else {})
      ensures BlocksKept(old(heap.blocks), heap.blocks, {}, if ok then {page} else {})
    {
      var p;
      ghost var t;
      p, t := RegrowNull(heap);
      ok := p.Some?;
      if ok {
        BlockWords(heap.pmm.ram[..], heap.pmm.live, heap.blocks, t, 8);
        data, page, capacity := p.value, t, 8;
      } else {
        SparesAll(heap.pmm.ram[..], heap.pmm.live, {});
      }
    }

    method GrowMore() returns (ok: bool)
      requires Valid() && length == capacity > 0 && 16 * capacity + 4159 < 0x1_0000_0000_0000_0000
      modifies this`data, this`page, this`capacity, this`copied, heap, heap.pmm`cursor, heap.pmm`live, heap.pmm.bitmap,
               heap.pmm.ram
      ensures heap.Valid() && Backed(heap.hhdm, heap.blocks, data, page, capacity) && Contents() == old(Contents())
      ensures if ok then capacity == old(capacity) * 2 && copied == old(copied) + old(capacity)
              else capacity == old(capacity) && copied == old(copied) && heap.pmm.Exhausted(Demand(capacity))
      ensures Spares(old(heap.pmm.ram[..]), heap.pmm.ram[..], old(heap.pmm.live), heap.pmm.live, {old(page)}, {page})
      ensures BlocksKept(old(heap.blocks), heap.blocks, {old(page)}, {page})
    {
      ok := Rehouse();
      if ok {
        copied, capacity := copied + capacity, capacity * 2;
      }
    }

    /** The `realloc` of a full vector to twice its size. */
    method Rehouse() returns (ok: bool)
      requires heap.Valid() && capacity > 0 && length == capacity
               && Backed(heap.hhdm, heap.blocks, data, page, capacity)
      requires 16 * capacity + 4159 < 0x1_0000_0000_0000_0000
      modifies this`data, this`page, heap, heap.pmm`cursor, heap.pmm`live, heap.pmm.bitmap, heap.pmm.ram
      ensures heap.Valid() && Backed(heap.hhdm, heap.blocks, data, page, if ok then capacity * 2 else capacity)
      ensures Contents() == old(Contents())
      ensures !ok ==> heap.pmm.Exhausted(Demand(capacity))
      ensures Spares(old(heap.pmm.ram[..]), heap.pmm.ram[..], old(heap.pmm.live), heap.pmm.live, {old(page)}, {page})
      ensures BlocksKept(old(heap.blocks), heap.blocks, {old(page)}, {page})
    {
      var p;
      ghost var t;
      p, t := RegrowBlock(heap, data, page, capacity);
      ok := p.Some?;
      if ok {
        data, page := p.value, t;
      } else {
        SparesAll(heap.pmm.ram[..], heap.pmm.live, {page});
      }
    }

    /** VECTOR_PUSH_BACK. None is the out-of-memory panic. */
    method PushBack(value: Word) returns (index: Option<nat>)
      requires Valid() && 16 * capacity + 4159 < 0x1_0000_0000_0000_0000
      modifies this, heap, heap.pmm`cursor, heap.pmm`live, heap.pmm.bitmap, heap.pmm.ram
      ensures Valid() && Spares(old(heap.pmm.ram[..]), heap.pmm.ram[..], old(heap.pmm.live), heap.pmm.live, old(Own()),
                                Own())
      ensures BlocksKept(old(heap.blocks), heap.blocks, old(Own()), Own())
      ensures copied == old(copied) + if index.Some? && old(length) >= old(capacity) then old(capacity) else 0
      ensures index.Some? ==>
                index.value == |old(Contents())| && Contents() == old(Contents()) + [value] && grown == old(grown) + 1
      ensures index.None? ==>
                Contents() == old(Contents()) && grown == old(grown) && length == capacity
                && heap.pmm.Exhausted(Demand(capacity))
    {
      ghost var mem0, live0, own0 := heap.pmm.ram[..], heap.pmm.live, Own();
      ItemsLength(this);
      var ok := EnsureLength();
      if !ok {
        return None;
      }
      Append(value, mem0, live0, own0);
      index := Some(length - 1);
    }

    /** The last two steps of VECTOR_PUSH_BACK, when there is room. */
    method Append(value: Word, ghost past: seq<Word>, ghost runs: map<nat, nat>, ghost own: set<nat>)
      requires heap.Valid() && Backed(heap.hhdm, heap.blocks, data, page, capacity) && HasRoom()
      requires Spares(past, heap.pmm.ram[..], runs, heap.pmm.live, own, Own())
      modifies this`length, this`grown, heap.pmm.ram
      ensures Valid() && length == old(length) + 1 && grown == old(grown) + 1 && Contents() == old(Contents()) + [value]
      ensures Spares(past, heap.pmm.ram[..], runs, heap.pmm.live, own, Own())
    {
      ghost var mem, n, live := heap.pmm.ram[..], length, heap.pmm.live;
      assert Own() == {page};
      StoreItem(heap, data, page, capacity, length, value);
      ghost var mem' := heap.pmm.ram[..];
      assert Items(mem', page, n + 1) == Items(mem, page, n) + [value] by {
        PushDone(mem, mem', page, n, value);
      }
      SparesTwice(past, mem, mem', runs, live, live, own, {page}, {page});
      length, grown := length + 1, grown + 1;
    }

    /** VECTOR_INSERT: the items from `index` on move up one place, last first. False is the out-of-memory panic. */
    method Insert(index: nat, value: Word) returns (ok: bool)
      requires Valid() && index <= length && 16 * capacity + 4159 < 0x1_0000_0000_0000_0000
      modifies this, heap, heap.pmm`cursor, heap.pmm`live, heap.pmm.bitmap, heap.pmm.ram
      ensures Valid() && Spares(old(heap.pmm.ram[..]), heap.pmm.ram[..], old(heap.pmm.live), heap.pmm.live, old(Own()),
                                Own())
      ensures BlocksKept(old(heap.blocks), heap.blocks, old(Own()), Own())
      ensures copied == old(copied) + if ok && old(length) >= old(capacity) then old(capacity) else 0
      ensures ok ==>
                Contents() == old(Contents())[..index] + [value] + old(Contents())[index..] && grown == old(grown) + 1
      ensures !ok ==>
                Contents() == old(Contents()) && grown == old(grown) && length == capacity
                && heap.pmm.Exhausted(Demand(capacity))
    {
      ghost var mem0, live0, own0 := heap.pmm.ram[..], heap.pmm.live, Own();
      ItemsLength(this);
      ok := EnsureLength();
      if ok {
        Squeeze(index, value, mem0, live0, own0);
      }
    }

    /** The rest of VECTOR_INSERT, when there is room. */
    method Squeeze(index: nat, value: Word, ghost past: seq<Word>, ghost runs: map<nat, nat>, ghost own: set<nat>)
      requires heap.Valid() && Backed(heap.hhdm, heap.blocks, data, page, capacity) && HasRoom()
      requires index <= length == |Contents()| && Spares(past, heap.pmm.ram[..], runs, heap.pmm.live, own, Own())
      modifies this`length, this`grown, heap.pmm.ram
      ensures Valid() && length == old(length) + 1 && grown == old(grown) + 1
      ensures Contents() == old(Contents())[..index] + [value] + old(Contents())[index..]
      ensures Spares(past, heap.pmm.ram[..], runs, heap.pmm.live, own, Own())
    {
      ghost var mem, live := heap.pmm.ram[..], heap.pmm.live;
      assert Own() == {page};
      MakeRoom(heap, data, page, capacity, index, length, value);
      SparesTwice(past, mem, heap.pmm.ram[..], runs, live, live, own, {page}, {page});
      length, grown := length + 1, grown + 1;
    }

    /** VECTOR_REMOVE: an index past the last item drops the last item. On an empty vector only the invalid index of a
        failed search keeps the loop from running out of the data, and then the length wraps. */
    method Remove(index: nat)
      requires Valid() && index <= MAX_INDEX && length < MAX_INDEX && (length == 0 ==> index == MAX_INDEX)
      modifies this`length, heap.pmm.ram
      ensures heap.Valid() && (old(length) > 0 ==> Valid())
      ensures old(length) > 0 && index < old(length) ==> Contents() == Removed(old(Contents()), index)
      ensures old(length) > 0 && index >= old(length) ==> Contents() == old(Contents())[..old(length) - 1]
      ensures old(length) == 0 ==> length == 0xffff_ffff_ffff_ffff
      ensures Spares(old(heap.pmm.ram[..]), heap.pmm.ram[..], heap.pmm.live, heap.pmm.live, Own(), Own())
    {
      ghost var mem := heap.pmm.ram[..];
      ItemsLength(this);
      ShiftDown(heap, data, page, capacity, index, length);
      RemoveDone(mem, heap.pmm.ram[..], page, index, length);
      length := Dec(length);
    }

    /** VECTOR_ITEM: all ones when the index is out of range. */
    method Item(index: nat) returns (r: Word)
      requires Valid()
      ensures |Contents()| == length && r == if index < length then Contents()[index] else 0xffff_ffff_ffff_ffff
    {
      ItemsLength(this);
      r := MAX_INDEX;
      if index < length {
        r := LoadItem(heap, data, page, capacity, index);
      }
    }

    /** VECTOR_FIND: the first index holding the value, or -1. */
    method Find(value: Word) returns (r: int)
      requires Valid()
      ensures r == -1 ==> value !in Contents()
      ensures r != -1 ==> 0 <= r < |Contents()| && Contents()[r] == value && value !in Contents()[..r]
    {
      ItemsLength(this);
      ghost var all := Contents();
      for i := 0 to length
        invariant value !in all[..i]
      {
        var item := LoadItem(heap, data, page, capacity, i);
        assert item == all[i];
        if item == value {
          return i;
        }
        assert all[..i + 1] == all[..i] + [item];
      }
      return INVALID_INDEX;
    }

    /** VECTOR_REMOVE_BY_VALUE: removes the first occurrence exactly when there is one; otherwise the last item
        goes, whatever it is, and an empty vector is left with an impossible length. */
    method RemoveByValue(value: Word)
      requires Valid() && length < MAX_INDEX
      modifies this`length, heap.pmm.ram
      ensures heap.Valid() && (old(length) > 0 ==> Valid())
      ensures value in old(Contents()) <==>
                old(length) > 0 && exists i: nat ::
                  FirstAt(old(Contents()), value, i) && Contents() == Removed(old(Contents()), i)
      ensures old(length) > 0 && value !in old(Contents()) ==> Contents() == old(Contents())[..old(length) - 1]
      ensures old(length) == 0 ==> length == 0xffff_ffff_ffff_ffff
      ensures Spares(old(heap.pmm.ram[..]), heap.pmm.ram[..], heap.pmm.live, heap.pmm.live, Own(), Own())
    {
      ItemsLength(this);
      ghost var before := Contents();
      var i := Find(value);
      Remove(if i == INVALID_INDEX then MAX_INDEX else i);
      assert i != INVALID_INDEX ==> FirstAt(before, value, i);
    }

    /** However pushes, inserts and removals are mixed, regrowing copies fewer than two items per item added. */
    lemma AmortisedGrowth()
      requires Counted() && grown > 0
      ensures copied < 2 * grown
    {}
  }

  /** `value` is at index `i` and at none before. */
  ghost predicate FirstAt(s: seq<Word>, value: Word, i: nat) { i < |s| && s[i] == value && value !in s[..i] }

  lemma ItemsLength(v: Vector)
    requires v.Valid()
    ensures |v.Contents()| == v.length && (v.capacity > 0 ==> Base(v.page) + v.capacity <= v.heap.pmm.ram.Length)
  {
    if v.capacity > 0 {
      BlockWords(v.heap.pmm.ram[..], v.heap.pmm.live, v.heap.blocks, v.page, v.capacity);
    }
  }

  /** A load from the block of a vector. */
  method LoadItem(h: PageHeap, data: nat, ghost page: nat, capacity: nat, i: nat) returns (v: Word)
    requires h.Valid() && Backed(h.hhdm, h.blocks, data, page, capacity) && i < capacity
    ensures Base(page) + i < h.pmm.ram.Length && v == h.pmm.ram[Base(page) + i]
  {
    BlockWords(h.pmm.ram[..], h.pmm.live, h.blocks, page, capacity);
    PtrOfPage(h, page);
    v := h.pmm.ram[Base(h.PageOf(data)) + i];
  }

  /** Memory `mem'` is `mem` with the words `b + i`..`b + n - 1` moved up one place. */
  ghost predicate MovedUp(mem: seq<Word>, mem': seq<Word>, b: nat, i: nat, n: nat) {
    && |mem'| == |mem| && (forall x | b + i < x <= b + n && x < |mem| :: mem'[x] == mem[x - 1])
    && (forall x | 0 <= x < |mem| && !(b + i < x <= b + n) :: mem'[x] == mem[x])
  }

  lemma MoveUpNext(mem: seq<Word>, mem': seq<Word>, b: nat, i: nat, n: nat)
    requires MovedUp(mem, mem', b, i, n) && 0 < i <= n && b + n < |mem|
    ensures MovedUp(mem, mem'[b + i := mem'[b + i - 1]], b, i - 1, n)
  {
    assert mem'[b + i - 1] == mem[b + i - 1];
  }

  /** The loop of VECTOR_INSERT: the items `index`..`n - 1` move up one place, last first. */
  method ShiftUp(h: PageHeap, data: nat, ghost page: nat, capacity: nat, index: nat, n: nat)
    requires h.Valid() && Backed(h.hhdm, h.blocks, data, page, capacity) && index <= n < capacity
    modifies h.pmm.ram
    ensures h.Valid() && MovedUp(old(h.pmm.ram[..]), h.pmm.ram[..], Base(page), index, n)
    ensures Spares(old(h.pmm.ram[..]), h.pmm.ram[..], h.pmm.live, h.pmm.live, {page}, {page})
  {
    ghost var mem := h.pmm.ram[..];
    var i := n;
    while i > index
      invariant index <= i <= n && h.Valid() && MovedUp(mem, h.pmm.ram[..], Base(page), i, n)
      invariant Spares(mem, h.pmm.ram[..], h.pmm.live, h.pmm.live, {page}, {page})
    {
      CopyUp(h, data, page, capacity, i, n, mem);
      i := i - 1;
    }
  }

  method CopyUp(h: PageHeap, data: nat, ghost page: nat, capacity: nat, i: nat, ghost n: nat, ghost past: seq<Word>)
    requires h.Valid() && Backed(h.hhdm, h.blocks, data, page, capacity) && 0 < i <= n < capacity
    requires MovedUp(past, h.pmm.ram[..], Base(page), i, n)
             && Spares(past, h.pmm.ram[..], h.pmm.live, h.pmm.live, {page}, {page})
    modifies h.pmm.ram
    ensures h.Valid() && MovedUp(past, h.pmm.ram[..], Base(page), i - 1, n)
    ensures Spares(past, h.pmm.ram[..], h.pmm.live, h.pmm.live, {page}, {page})
  {
    ghost var now := h.pmm.ram[..];
    CopyItem(h, data, page, capacity, i, i - 1, past);
    MoveUpNext(past, now, Base(page), i, n);
  }

  /** `data[to] = data[from]` */
  method CopyItem(h: PageHeap, data: nat, ghost page: nat, capacity: nat, to: nat, from: nat, ghost past: seq<Word>)
    requires h.Valid() && Backed(h.hhdm, h.blocks, data, page, capacity) && to < capacity && from < capacity
    requires Spares(past, h.pmm.ram[..], h.pmm.live, h.pmm.live, {page}, {page})
    modifies h.pmm.ram
    ensures h.Valid() && Base(page) + capacity <= h.pmm.ram.Length
    ensures h.pmm.ram[..] == old(h.pmm.ram[..])[Base(page) + to := old(h.pmm.ram[Base(page) + from])]
    ensures Spares(past, h.pmm.ram[..], h.pmm.live, h.pmm.live, {page}, {page})
  {
    ghost var mem, live := h.pmm.ram[..], h.pmm.live;
    BlockWords(mem, live, h.blocks, page, capacity);
    var v := LoadItem(h, data, page, capacity, from);
    StoreItem(h, data, page, capacity, to, v);
    SparesTwice(past, mem, h.pmm.ram[..], live, live, live, {page}, {page}, {page});
  }

  /** The loop and the store of VECTOR_INSERT. */
  method MakeRoom(h: PageHeap, data: nat, ghost page: nat, capacity: nat, index: nat, n: nat, v: Word)
    requires h.Valid() && Backed(h.hhdm, h.blocks, data, page, capacity) && index <= n < capacity
             && |Items(h.pmm.ram[..], page, n)| == n
    modifies h.pmm.ram
    ensures h.Valid() && Spares(old(h.pmm.ram[..]), h.pmm.ram[..], h.pmm.live, h.pmm.live, {page}, {page})
    ensures var s := Items(old(h.pmm.ram[..]), page, n);
      Items(h.pmm.ram[..], page, n + 1) == s[..index] + [v] + s[index..]
  {
    ghost var mem, live := h.pmm.ram[..], h.pmm.live;
    BlockWords(mem, live, h.blocks, page, capacity);
    ShiftUp(h, data, page, capacity, index, n);
    ghost var mid := h.pmm.ram[..];
    StoreItem(h, data, page, capacity, index, v);
    InsertDone(mem, mid, h.pmm.ram[..], page, index, n, v);
    SparesTwice(mem, mid, h.pmm.ram[..], live, live, live, {page}, {page}, {page});
  }

  lemma InsertDone(mem: seq<Word>, mid: seq<Word>, mem': seq<Word>, page: nat, index: nat, n: nat, v: Word)
    requires MovedUp(mem, mid, Base(page), index, n) && index <= n && Base(page) + n < |mem|
             && mem' == mid[Base(page) + index := v]
    ensures var s := Items(mem, page, n); |s| == n && Items(mem', page, n + 1) == s[..index] + [v] + s[index..]
  {
    var b, s := Base(page), Items(mem, page, n);
    var s' := mem'[b..b + n + 1];
    var wanted := s[..index] + [v] + s[index..];
    forall k | 0 <= k < n + 1 ensures s'[k] == wanted[k] {
      assert s'[k] == mem'[b + k];
      if k < index {
        assert wanted[k] == s[k] == mem[b + k];
      } else if k > index {
        assert wanted[k] == s[k - 1] == mem[b + k - 1];
        assert mid[b + k] == mem[b + k - 1];
      }
    }
  }

  /** Memory `mem'` is `mem` with the words after `b + index` moved down one place, up to word `b + i`. */
  ghost predicate MovedDown(mem: seq<Word>, mem': seq<Word>, b: nat, index: nat, i: nat) {
    && |mem'| == |mem| && (index < i ==> b + i < |mem|)
    && (forall x | b + index <= x < b + i :: mem'[x] == mem[x + 1])
    && (forall x | 0 <= x < |mem| && !(b + index <= x < b + i) :: mem'[x] == mem[x])
  }

  lemma MoveDownNext(mem: seq<Word>, mem': seq<Word>, b: nat, index: nat, i: nat)
    requires MovedDown(mem, mem', b, index, i) && index <= i && b + i + 1 < |mem|
    ensures MovedDown(mem, mem'[b + i := mem'[b + i + 1]], b, index, i + 1)
  {
    assert mem'[b + i + 1] == mem[b + i + 1];
  }

  /** Where the loop of VECTOR_REMOVE ends. */
  function DownTo(index: nat, n: nat): nat { if n > 0 && index < n - 1 then n - 1 else index }

  /** The loop of VECTOR_REMOVE: the items after `index` move down one place, first first. */
  method ShiftDown(h: PageHeap, data: nat, ghost page: nat, capacity: nat, index: nat, n: nat)
    requires h.Valid() && Backed(h.hhdm, h.blocks, data, page, capacity) && n <= capacity && n < MAX_INDEX
             && index <= MAX_INDEX
    requires n == 0 ==> index == MAX_INDEX
    modifies h.pmm.ram
    ensures h.Valid() && MovedDown(old(h.pmm.ram[..]), h.pmm.ram[..], Base(page), index, DownTo(index, n))
    ensures n == 0 ==> h.pmm.ram[..] == old(h.pmm.ram[..])
    ensures Spares(old(h.pmm.ram[..]), h.pmm.ram[..], h.pmm.live, h.pmm.live, OwnRun(page, capacity),
                   OwnRun(page, capacity))
  {
    ghost var mem := h.pmm.ram[..];
    var i := index;
    while i < Dec(n)
      invariant index <= i && (index < Dec(n) ==> n > 0 && i <= n - 1) && (index >= Dec(n) ==> i == index)
      invariant h.Valid() && MovedDown(mem, h.pmm.ram[..], Base(page), index, i)
      invariant Spares(mem, h.pmm.ram[..], h.pmm.live, h.pmm.live, OwnRun(page, capacity), OwnRun(page, capacity))
      invariant n == 0 ==> h.pmm.ram[..] == mem
      decreases Dec(n) - i
    {
      CopyDown(h, data, page, capacity, i, index, mem);
      i := i + 1;
    }
  }

  method CopyDown(h: PageHeap, data: nat, ghost page: nat, capacity: nat, i: nat, ghost index: nat,
                  ghost past: seq<Word>)
    requires h.Valid() && Backed(h.hhdm, h.blocks, data, page, capacity) && index <= i && i + 1 < capacity
    requires MovedDown(past, h.pmm.ram[..], Base(page), index, i)
             && Spares(past, h.pmm.ram[..], h.pmm.live, h.pmm.live, {page}, {page})
    modifies h.pmm.ram
    ensures h.Valid() && MovedDown(past, h.pmm.ram[..], Base(page), index, i + 1)
    ensures Spares(past, h.pmm.ram[..], h.pmm.live, h.pmm.live, {page}, {page})
  {
    ghost var now := h.pmm.ram[..];
    CopyItem(h, data, page, capacity, i, i + 1, past);
    MoveDownNext(past, now, Base(page), index, i);
  }

  lemma RemoveDone(mem: seq<Word>, mem': seq<Word>, page: nat, index: nat, n: nat)
    requires MovedDown(mem, mem', Base(page), index, DownTo(index, n)) && (n > 0 ==> Base(page) + n <= |mem|)
    requires n < MAX_INDEX && (n == 0 ==> index == MAX_INDEX)
    ensures n > 0 && index < n ==>
              |Items(mem, page, n)| == n && Items(mem', page, n - 1) == Removed(Items(mem, page, n), index)
    ensures n > 0 && index >= n ==>
              |Items(mem, page, n)| == n && Items(mem', page, n - 1) == Items(mem, page, n)[..n - 1]
  {
    if n > 0 {
      ItemsAre(mem, page, n);
      ItemsAre(mem', page, n - 1);
      if index < n {
        InsideRemoved(mem, mem', page, index, n);
      } else {
        LastDropped(mem, mem', page, index, n);
      }
    }
  }

  lemma ItemsAre(mem: seq<Word>, page: nat, n: nat)
    requires Base(page) + n <= |mem|
    ensures |Items(mem, page, n)| == n && forall k | 0 <= k < n :: Items(mem, page, n)[k] == mem[Base(page) + k]
  {}

  lemma InsideRemoved(mem: seq<Word>, mem': seq<Word>, page: nat, index: nat, n: nat)
    requires MovedDown(mem, mem', Base(page), index, DownTo(index, n)) && index < n && Base(page) + n <= |mem|
    requires |Items(mem, page, n)| == n && |Items(mem', page, n - 1)| == n - 1
    ensures Items(mem', page, n - 1) == Removed(Items(mem, page, n), index)
  {
    var s, s' := Items(mem, page, n), Items(mem', page, n - 1);
    forall k | 0 <= k < n - 1 ensures s'[k] == s[if index <= k then k + 1 else k] {
      ItemDown(mem, mem', Base(page), index, n, k);
    }
    OneRemoved(s, s', index);
  }

  lemma LastDropped(mem: seq<Word>, mem': seq<Word>, page: nat, index: nat, n: nat)
    requires MovedDown(mem, mem', Base(page), index, DownTo(index, n)) && index >= n > 0 && Base(page) + n <= |mem|
    requires |Items(mem, page, n)| == n && |Items(mem', page, n - 1)| == n - 1
    ensures Items(mem', page, n - 1) == Items(mem, page, n)[..n - 1]
  {
    forall k | 0 <= k < n - 1 ensures Items(mem', page, n - 1)[k] == Items(mem, page, n)[k] {
      ItemDown(mem, mem', Base(page), index, n, k);
    }
  }

  lemma ItemDown(mem: seq<Word>, mem': seq<Word>, b: nat, index: nat, n: nat, k: nat)
    requires MovedDown(mem, mem', b, index, DownTo(index, n)) && b + n <= |mem| && k < n - 1
    ensures mem'[b + k] == mem[b + if index <= k then k + 1 else k]
  {
    if index <= k {
      assert mem'[b + k] == mem[b + k + 1];
    } else {
      assert mem'[b + k] == mem[b + k];
    }
  }

  lemma OneRemoved(s: seq<Word>, s': seq<Word>, index: nat)
    requires index < |s| && |s'| == |s| - 1 && forall k | 0 <= k < |s'| :: s'[k] == s[if index <= k then k + 1 else k]
    ensures s' == Removed(s, index)
  {}

  lemma PushDone(mem: seq<Word>, mem': seq<Word>, page: nat, n: nat, v: Word)
    requires Base(page) + n < |mem| && mem' == mem[Base(page) + n := v]
    ensures Items(mem', page, n + 1) == Items(mem, page, n) + [v]
  {}

  /** A store into the block of a vector. */
  method StoreItem(h: PageHeap, data: nat, ghost page: nat, capacity: nat, i: nat, v: Word)
    requires h.Valid() && Backed(h.hhdm, h.blocks, data, page, capacity) && i < capacity
    modifies h.pmm.ram
    ensures Base(page) + i < h.pmm.ram.Length && h.pmm.ram[..] == old(h.pmm.ram[..])[Base(page) + i := v]
    ensures h.Valid() && Spares(old(h.pmm.ram[..]), h.pmm.ram[..], h.pmm.live, h.pmm.live, {page}, {page})
  {
    ghost var mem := h.pmm.ram[..];
    BlockWords(mem, h.pmm.live, h.blocks, page, capacity);
    PtrOfPage(h, page);
    var s := h.PageOf(data);
    assert s == page;
    var x := Base(s) + i;
    h.StoreWord(s, x, v);
    StoreSpares(mem, h.pmm.ram[..], h.pmm.live, page);
  }

  ghost function OwnRun(page: nat, capacity: nat): set<nat> { if capacity > 0 then {page} else {} }

  /** The pages a vector of the given capacity asks for when it grows. */
  function Demand(capacity: nat): nat { PagesFor(8 * Doubled(capacity)) + 1 }

  /** Eight items first, then twice as many. */
  function Doubled(capacity: nat): nat { if capacity == 0 then 8 else capacity * 2 }

  /** The `realloc` of a full vector: from nothing to eight items. */
  method RegrowNull(h: PageHeap) returns (p: Option<nat>, ghost t: nat)
    requires h.Valid()
    modifies h, h.pmm`cursor, h.pmm`live, h.pmm.bitmap, h.pmm.ram
    ensures h.Valid()
    ensures p.Some? ==>
              Backed(h.hhdm, h.blocks, p.value, t, 8)
              && Spares(old(h.pmm.ram[..]), h.pmm.ram[..], old(h.pmm.live), h.pmm.live, {}, {t})
    ensures p.Some? ==> BlocksKept(old(h.blocks), h.blocks, {}, {t})
    ensures p.None? ==>
              h.blocks == old(h.blocks) && h.pmm.ram[..] == old(h.pmm.ram[..]) && h.pmm.live == old(h.pmm.live)
    ensures p.None? ==> h.pmm.Exhausted(Demand(0))
  {
    ghost var mem, live := h.pmm.ram[..], h.pmm.live;
    p := h.Realloc(0, 64);
    t := 0;
    if p.Some? {
      t := h.PageOf(p.value);
      PageOfPtr(h, p.value);
      AllocSpares(mem, h.pmm.ram[..], live, h.pmm.live, t, PagesFor(64) + 1);
    }
  }

  /** To twice as many. */
  method RegrowBlock(h: PageHeap, data: nat, ghost page: nat, capacity: nat) returns (p: Option<nat>, ghost t: nat)
    requires h.Valid() && capacity > 0 && Backed(h.hhdm, h.blocks, data, page, capacity)
             && 16 * capacity + 4159 < 0x1_0000_0000_0000_0000
    modifies h, h.pmm`cursor, h.pmm`live, h.pmm.bitmap, h.pmm.ram
    ensures h.Valid()
    ensures p.Some? ==>
              Backed(h.hhdm, h.blocks, p.value, t, capacity * 2)
              && Spares(old(h.pmm.ram[..]), h.pmm.ram[..], old(h.pmm.live), h.pmm.live, {page}, {t})
    ensures p.Some? ==> BlocksKept(old(h.blocks), h.blocks, {page}, {t})
    ensures p.Some? ==> Items(h.pmm.ram[..], t, capacity) == Items(old(h.pmm.ram[..]), page, capacity)
    ensures p.None? ==>
              h.blocks == old(h.blocks) && h.pmm.ram[..] == old(h.pmm.ram[..]) && h.pmm.live == old(h.pmm.live)
    ensures p.None? ==> h.pmm.Exhausted(Demand(capacity))
  {
    ghost var mem, live, blocks := h.pmm.ram[..], h.pmm.live, h.blocks;
    PtrOfPage(h, page);
    var size := 8 * (capacity * 2);
    p := h.Realloc(data, size);
    t := 0;
    if p.Some? {
      t := h.PageOf(p.value);
      PageOfPtr(h, p.value);
      assert Resized(mem, h.pmm.ram[..], live, h.pmm.live, blocks, h.blocks, page, t, size);
      RegrowDone(mem, h.pmm.ram[..], live, h.pmm.live, blocks, h.blocks, page, t, capacity);
    }
  }

  lemma PageOfPtr(h: PageHeap, p: nat)
    requires h.IsPtr(p)
    ensures h.PtrOf(h.PageOf(p)) == p
  {}

  lemma RegrowDone(mem: seq<Word>, mem': seq<Word>, live: map<nat, nat>, live': map<nat, nat>, blocks: map<nat, nat>,
                   blocks': map<nat, nat>,
                   s: nat, t: nat, capacity: nat)
    requires HeapInv(mem, live, blocks) && HeapInv(mem', live', blocks') && s in blocks && blocks[s] == 8 * capacity
    requires Resized(mem, mem', live, live', blocks, blocks', s, t, 8 * (capacity * 2))
    ensures Items(mem', t, capacity) == Items(mem, s, capacity) && Spares(mem, mem', live, live', {s}, {t})
    ensures t in blocks' && blocks'[t] == 8 * (capacity * 2) && BlocksKept(blocks, blocks', {s}, {t})
  {
    var size := 8 * (capacity * 2);
    assert t in blocks' && blocks'[t] == size;
    assert Items(mem', t, capacity) == Items(mem, s, capacity) by {
      BlockWords(mem, live, blocks, s, capacity);
      BlockWords(mem', live', blocks', t, capacity * 2);
      CarriedWords(mem, mem', s, t, capacity);
    }
    MoveSpares(mem, mem', live, live', s, t, PagesFor(size) + 1);
  }

  lemma CarriedWords(mem: seq<Word>, mem': seq<Word>, s: nat, t: nat, n: nat)
    requires Carries(mem, s, 8 * n, mem', t, 8 * (n * 2)) && Base(s) + n <= |mem| && Base(t) + n <= |mem'|
    ensures mem'[Base(t)..Base(t) + n] == mem[Base(s)..Base(s) + n]
  {
    assert SameBytes(mem, s, mem', t, 8 * n);
    SameWords(mem, mem', s, t, n);
  }

  /** A word is determined by its eight bytes. */
  lemma {:induction false} DigitsDetermine(x: nat, y: nat, m: nat)
    requires x < Pow2(8 * m) && y < Pow2(8 * m) && forall k: nat | k < m :: Digit(x, k) == Digit(y, k)
    ensures x == y
  {
    if m != 0 {
      assert Digit(x, 0) == Digit(y, 0);
      ByteShift(m);
      forall k: nat | k < m - 1 ensures Digit(x / 256, k) == Digit(y / 256, k) {
        assert Digit(x, k + 1) == Digit(y, k + 1);
      }
      DigitsDetermine(x / 256, y / 256, m - 1);
    }
  }

  lemma SameWord(mem: seq<Word>, mem': seq<Word>, x: nat, y: nat)
    requires x < |mem| && y < |mem'| && forall b: nat | 8 * y <= b < 8 * y + 8 ::
             Byte(mem', b) == Byte(mem, b - 8 * y + 8 * x)
    ensures mem'[y] == mem[x]
  {
    Pow2Values();
    forall k: nat | k < 8 ensures Digit(mem'[y], k) == Digit(mem[x], k) {
      ByteOfWord(mem, x, k);
      ByteOfWord(mem', y, k);
    }
    DigitsDetermine(mem'[y], mem[x], 8);
  }

  lemma ByteOfWord(mem: seq<Word>, x: nat, k: nat)
    requires x < |mem| && k < 8
    ensures (8 * x + k) / 8 == x && Byte(mem, 8 * x + k) == Digit(mem[x], k)
  {}

  lemma SameWords(mem: seq<Word>, mem': seq<Word>, s: nat, t: nat, n: nat)
    requires SameBytes(mem, s, mem', t, 8 * n) && Base(s) + n <= |mem| && Base(t) + n <= |mem'|
    ensures mem'[Base(t)..Base(t) + n] == mem[Base(s)..Base(s) + n]
  {
    var was, now := mem[Base(s)..Base(s) + n], mem'[Base(t)..Base(t) + n];
    forall i | 0 <= i < n ensures now[i] == was[i] {
      SameItem(mem, mem', s, t, n, i);
    }
  }

  lemma SameItem(mem: seq<Word>, mem': seq<Word>, s: nat, t: nat, n: nat, i: nat)
    requires SameBytes(mem, s, mem', t, 8 * n) && i < n && Base(s) + n <= |mem| && Base(t) + n <= |mem'|
    ensures mem'[Base(t) + i] == mem[Base(s) + i]
  {
    var x, y := Base(s) + i, Base(t) + i;
    forall b: nat | 8 * y <= b < 8 * y + 8 ensures Byte(mem', b) == Byte(mem, b - 8 * y + 8 * x) {
      ByteOfItem(s, t, n, i, b);
    }
    SameWord(mem, mem', x, y);
  }

  lemma ByteOfItem(s: nat, t: nat, n: nat, i: nat, b: nat)
    requires i < n && 8 * (Base(t) + i) <= b < 8 * (Base(t) + i) + 8
    ensures 4096 * (t + 1) <= b < 4096 * (t + 1) + 8 * n
    ensures b - 8 * (Base(t) + i) + 8 * (Base(s) + i) == b - 4096 * (t + 1) + 4096 * (s + 1)
  {}

  /** The pointer and the capacity describe the heap block at `page`. */
  ghost predicate Backed(hhdm: nat, blocks: map<nat, nat>, data: nat, page: nat, capacity: nat) {
    if capacity == 0 then data == 0
    else data == hhdm + 4096 * (page + 1) && page in blocks && blocks[page] == 8 * capacity
  }

  /** The first `n` items in memory of a vector whose block is at `page`. */
  ghost function Items(mem: seq<Word>, page: nat, n: nat): seq<Word> {
    if Base(page) + n <= |mem| then mem[Base(page)..Base(page) + n] else []
  }

  lemma BlockWords(mem: seq<Word>, live: map<nat, nat>, blocks: map<nat, nat>, s: nat, capacity: nat)
    requires HeapInv(mem, live, blocks) && s in blocks && blocks[s] == 8 * capacity
    ensures Base(s) + capacity <= Base(s) + 512 * PagesFor(blocks[s]) <= |mem|
  {
    assert BlockOk(mem, live, s, blocks[s]);
    RoundingIsTight(8 * capacity, 4096);
  }
}
