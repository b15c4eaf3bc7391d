/** The physical page allocator of `mm/pmm.c` over physical memory. */
module Pmm {
  import opened Bits
  import opened PageRuns
  import Bitmap

  const PAGE_WORDS: nat := 512
  const POISON: Word := 0xaaaa_aaaa_aaaa_aaaa

  class PageAllocator {
    const ram: array<Word>       // physical memory, one word per eight bytes
    const bitmap: array<bv8>     // pmm_bitmap: a set bit is a page in use
    const pageCount: nat         // pmm_avl_page_count
    var cursor: nat              // pmm_last_used_index
    ghost const reserved: set<nat>
    ghost var live: map<nat, nat>

    ghost function Used(): set<nat>
      requires pageCount <= 8 * bitmap.Length
      reads bitmap
    {
      Bitmap.SetBits(bitmap[..], pageCount)
    }

    ghost function View(): Pages
      requires pageCount <= 8 * bitmap.Length
      reads this, bitmap
    {
      Pages(Used(), cursor, live)
    }

    /** Neither pass would find `count` pages now. */
    ghost predicate Exhausted(count: nat)
      reads this, bitmap
    {
      count > 0 && pageCount <= 8 * bitmap.Length && NextFit(pageCount, Used(), cursor, count).None?
    }

    ghost predicate Valid()
      reads this, bitmap
    {
      && pageCount <= 8 * bitmap.Length
      && ram.Length == pageCount * PAGE_WORDS && ram as object != bitmap as object
      && Inv(pageCount, reserved, View())
    }

    constructor (ram: array<Word>, bitmap: array<bv8>, pageCount: nat)
      requires pageCount <= 8 * bitmap.Length && ram.Length == pageCount * PAGE_WORDS
      requires ram as object != bitmap as object
      ensures Valid() && this.ram == ram && this.bitmap == bitmap && this.pageCount == pageCount
      ensures cursor == 0 && live == map[] && reserved == Used()
    {
      this.ram, this.bitmap, this.pageCount, cursor := ram, bitmap, pageCount, 0;
      reserved := Bitmap.SetBits(bitmap[..], pageCount);
      live := map[];
    }

    /** Live runs share no page. */
    lemma RunsAreApart()
      requires Valid()
      ensures Apart(live)
    {
      LiveIsApart(pageCount, reserved, View());
    }

    /** `bit_test` on the page bitmap. */
    method InUse(page: nat) returns (b: bool)
      requires page < pageCount <= 8 * bitmap.Length
      ensures b <==> page in Used()
    {
      b := Bitmap.Test(bitmap[..], page);
    }

    /** `bit_set` and `bit_reset` on it. */
    method SetPage(page: nat)
      requires page < pageCount <= 8 * bitmap.Length
      modifies bitmap
      ensures Used() == old(Used()) + {page}
    {
      Bitmap.BitSet(bitmap, page);
    }

    method ResetPage(page: nat)
      requires page < pageCount <= 8 * bitmap.Length
      modifies bitmap
      ensures Used() == old(Used()) - {page}
    {
      Bitmap.BitReset(bitmap, page);
    }

    /** Sets the bits of a free run. */
    method MarkUsed(first: nat, count: nat)
      requires first + count <= pageCount <= 8 * bitmap.Length
      modifies bitmap
      ensures Used() == old(Used()) + Range(first, count)
    {
      for i := first to first + count
        invariant Used() == old(Used()) + Range(first, i - first)
      {
        SetPage(i);
      }
    }

    method MarkFree(first: nat, count: nat)
      requires first + count <= pageCount <= 8 * bitmap.Length
      modifies bitmap
      ensures Used() == old(Used()) - Range(first, count)
    {
      for i := first to first + count
        invariant Used() == old(Used()) - Range(first, i - first)
      {
        ResetPage(i);
      }
    }

    /** How many free pages in a row the scan has after the free page `page`. */
    method Extend(page: nat, q: nat, count: nat) returns (p: nat)
      requires count > 0 && q <= page
      ensures p == if Aligned(page - q, count) then q + 1 else 0
    {
      AlignedIsMod(page - q, count);
      if (page - q) % count == 0 {
        p := q + 1;
      } else {
        p := 0;
      }
    }

    /** One turn of the scan, up to the test whether the run is complete. */
    method ScanPage(count: nat, limit: nat, q: nat, ghost start: nat) returns (p: nat)
      requires count > 0 && start <= cursor < limit <= pageCount <= 8 * bitmap.Length
               && Scanning(Used(), start, cursor, q, count)
      modifies `cursor
      ensures cursor == old(cursor) + 1 && p <= count
      ensures p == count ==> start + count <= cursor && FirstFit(Used(), start, limit, count) == Some(cursor - count)
      ensures p < count ==> Scanning(Used(), start, cursor, p, count)
    {
      cursor := cursor + 1;
      var busy := InUse(cursor - 1);
      if !busy {
        p := Extend(cursor - 1, q, count);
        ScanFree(Used(), start, cursor, q, p, count, limit);
      } else {
        p := 0;
        ScanBusy(Used(), start, cursor, q, count);
      }
    }

    /** `pmm_inner_alloc`: the scan finds what the simple search from the cursor finds. */
    method InnerAlloc(count: nat, limit: nat) returns (r: Option<nat>)
      requires count > 0 && limit <= pageCount <= 8 * bitmap.Length && cursor <= limit
      modifies `cursor, bitmap
      ensures var fit := FirstFit(old(Used()), old(cursor), limit, count);
        if fit.Some?
        then r == Some(4096 * fit.value) && cursor == fit.value + count
             && Used() == old(Used()) + Range(fit.value, count)
        else r == None && cursor == limit && Used() == old(Used())
    {
      ghost var start := cursor;
      var p := 0;
      while cursor < limit
        invariant start <= cursor <= limit && bitmap[..] == old(bitmap[..]) && Scanning(Used(), start, cursor, p, count)
      {
        p := ScanPage(count, limit, p, start);
        if p == count {
          var first := cursor - count;
          MarkUsed(first, count);
          return Some(4096 * first);
        }
      }
      FirstFitNone(Used(), start, limit, count);
      return None;
    }

    /** The two passes of `pmm_alloc_nozero`: up from the cursor, then below it. */
    method TwoPasses(count: nat) returns (r: Option<nat>)
      requires count > 0 && cursor <= pageCount <= 8 * bitmap.Length
      modifies `cursor, bitmap
      ensures var fit := NextFit(pageCount, old(Used()), old(cursor), count);
        if fit.Some?
        then r == Some(4096 * fit.value) && cursor == fit.value + count
             && Used() == old(Used()) + Range(fit.value, count)
        else r == None && cursor == old(cursor) && Used() == old(Used())
    {
      var last := cursor;
      r := InnerAlloc(count, pageCount);
      if r.None? {
        cursor := 0;
        r := InnerAlloc(count, last);
      }
    }

    /** `pmm_alloc_nozero`: next fit in two passes. None is the out-of-memory panic. */
    method AllocNoZero(count: nat) returns (r: Option<nat>)
      requires Valid() && count > 0
      modifies `cursor, `live, bitmap
      ensures Valid() && View() == Step(pageCount, old(View()), Op.Alloc(count))
      ensures var fit := NextFit(pageCount, old(Used()), old(cursor), count);
              r == if fit.Some? then Some(4096 * fit.value) else None
      ensures r.Some? ==> r.value % 4096 == 0 && Granted(old(live), live, pageCount, r.value / 4096, count)
      ensures r.None? ==> live == old(live) && Exhausted(count)
    {
      ghost var before := View();
      ghost var fit := NextFit(pageCount, before.used, before.cursor, count);
      GrantedByNextFit(pageCount, reserved, before, count);
      r := TwoPasses(count);
      if r.Some? {
        assert fit.Some? && r.value == 4096 * fit.value;
        PageAddress(fit.value);
        live := live[fit.value := count];
      }
      ghost var after := View();
      AllocIsStep(pageCount, before, count, after);
    }

    /** `pmm_alloc_nozero` as its callers see it: a run of their own, memory untouched. */
    method TakeRun(count: nat) returns (r: Option<nat>)
      requires Valid() && count > 0
      modifies `cursor, `live, bitmap
      ensures Valid()
      ensures r.Some? ==> r.value % 4096 == 0 && Granted(old(live), live, pageCount, r.value / 4096, count)
      ensures r.None? ==> live == old(live) && Exhausted(count)
    {
      r := AllocNoZero(count);
    }

    /** `pmm_alloc`: as above, and every word of the run is zeroed. */
    method Alloc(count: nat) returns (r: Option<nat>)
      requires Valid() && count > 0
      modifies `cursor, `live, bitmap, ram
      ensures Valid() && View() == Step(pageCount, old(View()), Op.Alloc(count))
      ensures r.Some? ==> r.value % 4096 == 0 && Granted(old(live), live, pageCount, r.value / 4096, count)
      ensures r.Some? ==> ram[..] == Filled(old(ram[..]), r.value / 8, count * 512, 0)
      ensures r.None? ==> live == old(live) && ram[..] == old(ram[..]) && Exhausted(count)
    {
      r := AllocNoZero(count);
      if r.Some? {
        Fill(r.value / 8, count * 512, 0);
      }
    }

    /** `pmm_alloc` as its callers see it: a zeroed run of their own, other memory untouched. */
    method TakeZeroed(count: nat) returns (r: Option<nat>)
      requires Valid() && count > 0
      modifies `cursor, `live, bitmap, ram
      ensures Valid()
      ensures r.Some? ==> r.value % 4096 == 0 && Granted(old(live), live, pageCount, r.value / 4096, count)
      ensures r.Some? ==> ram[..] == Filled(old(ram[..]), r.value / 8, count * 512, 0)
      ensures r.None? ==> live == old(live) && ram[..] == old(ram[..]) && Exhausted(count)
    {
      r := Alloc(count);
    }

    /** `pmm_free`: poisons the run and clears its bits. */
    method Free(page: nat, count: nat)
      requires Valid() && page % 4096 == 0 && page / 4096 in live && live[page / 4096] == count
      modifies `live, bitmap, ram
      ensures Valid() && View() == Step(pageCount, old(View()), Op.Free(page / 4096))
      ensures ram[..] == Filled(old(ram[..]), page / 8, count * 512, 0xaaaa_aaaa_aaaa_aaaa)
    {
      FreeKeeps(pageCount, reserved, View(), page / 4096);
      Fill(page / 8, count * 512, POISON);
      MarkFree(page / 4096, count);
      live := live - {page / 4096};
    }

    /** `pmm_free` as its callers see it. */
    method GiveBack(page: nat, count: nat)
      requires Valid() && page % 4096 == 0 && page / 4096 in live && live[page / 4096] == count
      modifies `live, bitmap, ram
      ensures Valid() && live == old(live) - {page / 4096}
      ensures ram[..] == Filled(old(ram[..]), page / 8, count * 512, 0xaaaa_aaaa_aaaa_aaaa)
    {
      Free(page, count);
    }

    method Fill(start: nat, n: nat, value: Word)
      requires start + n <= ram.Length
      modifies ram
      ensures ram[..] == Filled(old(ram[..]), start, n, value)
    {
      for i := 0 to n
        invariant ram[..] == Filled(old(ram[..]), start, i, value)
      {
        ram[start + i] := value;
      }
    }
  }

  /** Memory with `n` words from `start` on set to `value`. */
  ghost function Filled(mem: seq<Word>, start: nat, n: nat, value: Word): (r: seq<Word>)
    requires start + n <= |mem|
    ensures |r| == |mem|
    ensures forall i | 0 <= i < |mem| :: r[i] == if start <= i < start + n then value else mem[i]
  {
    seq(|mem|, i requires 0 <= i < |mem| => if start <= i < start + n then value else mem[i])
  }

  /** What an allocation of `count` pages from page `p` on gives its caller: a run inside
      memory, aligned to its length, sharing no page with any run already live. */
  ghost predicate Granted(before: map<nat, nat>, after: map<nat, nat>, n: nat, p: nat, count: nat)
    requires count > 0
  {
    && Aligned(p, count) && p + count <= n
    && p !in before && after == before[p := count]
    && forall t: nat | t in before :: t + before[t] <= p || p + count <= t
  }

  /** Setting the bits of the run found, moving the cursor behind it and recording it is one step. */
  lemma AllocIsStep(n: nat, s: Pages, count: nat, t: Pages)
    requires count > 0
    requires var fit := NextFit(n, s.used, s.cursor, count);
      if fit.Some? then t.used == s.used + Range(fit.value, count) && t.cursor == fit.value + count
         && t.live == s.live[fit.value := count]
      else t == s
    ensures t == Step(n, s, Op.Alloc(count))
  {}

  lemma PageAddress(p: nat)
    ensures 4096 * p / 4096 == p && 4096 * p % 4096 == 0
  {}

  lemma GrantedByNextFit(n: nat, reserved: set<nat>, s: Pages, count: nat)
    requires Inv(n, reserved, s) && count > 0
    ensures Inv(n, reserved, Step(n, s, Op.Alloc(count)))
    ensures var r := NextFit(n, s.used, s.cursor, count);
      r.Some? ==> Granted(s.live, s.live[r.value := count], n, r.value, count)
  {
    AllocKeeps(n, reserved, s, count);
    var r := NextFit(n, s.used, s.cursor, count);
    if r.Some? {
      var p := r.value;
      forall t: nat | t in s.live
        ensures t + s.live[t] <= p || p + count <= t
      {
        var m := if t <= p then p else t;
        assert Owns(s.live, t, m) ==> !(p <= m < p + count);
      }
    }
  }

  /** The state of the scan after looking at pages [start, c): every run that ends by `c`
      is ruled out, and `p` counts the pages of the one aligned block that may still complete. */
  ghost predicate Scanning(used: set<nat>, start: nat, c: nat, p: nat, count: nat)
    requires count > 0
  {
    && p < count && start + p <= c
    && (p > 0 ==> Aligned(c - p, count))
    && (forall i: nat | c - p <= i < c :: i !in used)
    && (forall t: nat | start <= t && t + count <= c :: !FreeRun(used, t, count))
    && (forall t: nat | start <= t < c < t + count && FreeTill(used, t, c, count) :: p == c - t)
  }

  ghost predicate FreeTill(used: set<nat>, t: nat, c: nat, count: nat)
    requires count > 0
  {
    Aligned(t, count) && forall i: nat | t <= i < c :: i !in used
  }

  /** A page in use ends whatever block was growing. */
  lemma ScanBusy(used: set<nat>, start: nat, end: nat, q: nat, count: nat)
    requires 0 < count && start < end && Scanning(used, start, end - 1, q, count) && end - 1 in used
    ensures Scanning(used, start, end, 0, count)
  {}

  /** One free page of the scan: the partial block grows exactly when it must, and when
      it completes it is the run the simple search finds. */
  lemma ScanFree(used: set<nat>, start: nat, end: nat, q: nat, p: nat, count: nat, limit: nat)
    requires 0 < count && 0 < end <= limit && Scanning(used, start, end - 1, q, count) && end - 1 !in used
    requires p == if Aligned(end - 1 - q, count) then q + 1 else 0
    ensures p <= count
    ensures p == count ==> start + count <= end && FirstFit(used, start, limit, count) == Some(end - count)
    ensures p < count ==> Scanning(used, start, end, p, count)
  {
    var c := end - 1;
    forall t: nat | start <= t <= c < t + count && FreeTill(used, t, c, count)
      ensures p == end - t
    {
      if t == c && q > 0 {
        AlignedApart(c - q, c, count);
      }
    }
    forall t: nat | start <= t && t + count <= end && FreeRun(used, t, count)
      ensures t + count == end && p == count
    {
      assert FreeTill(used, t, c, count);
    }
    forall t: nat | start <= t < end < t + count && FreeTill(used, t, end, count)
      ensures p == end - t
    {
      assert FreeTill(used, t, c, count);
    }
    if p == count {
      assert FreeRun(used, end - count, count);
      FirstFitIs(used, start, limit, count, end - count);
    }
  }
}
