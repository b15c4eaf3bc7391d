/**
 The physical page allocator as a transition system on sets of pages: the simple
 search the bitmap scan refines, and what every run of allocations and frees keeps.
 */
module PageRuns {
  import Bits

  datatype Option<+T> = None | Some(value: T)

  /** `used` are the set bits, `cursor` is `pmm_last_used_index`, `live` maps the first
      page of every run handed out and not yet freed to its length. */
  datatype Pages = Pages(used: set<nat>, cursor: nat, live: map<nat, nat>)

  ghost function Range(start: nat, count: nat): (s: set<nat>)
    ensures forall i: nat :: i in s <==> start <= i < start + count
    decreases count
  {
    if count == 0 then {} else Range(start, count - 1) + {start + count - 1}
  }

  lemma {:induction false} RangeSize(start: nat, count: nat)
    ensures |Range(start, count)| == count
  {
    if count != 0 {
      RangeSize(start, count - 1);
    }
  }

  /** `start` is a multiple of `count`. */
  predicate Aligned(start: nat, count: nat)
    requires count > 0
  {
    if start < count then start == 0 else Aligned(start - count, count)
  }

  lemma {:induction false} AlignedIsMod(start: nat, count: nat)
    requires count > 0
    ensures Aligned(start, count) <==> start % count == 0
  {
    if start >= count {
      AlignedIsMod(start - count, count);
      var q, r := Bits.QuotRem(start - count, count);
      assert start == (q + 1) * count + r;
      Bits.DivModUnique(count, q + 1, r);
    } else {
      Bits.DivModUnique(count, 0, start);
    }
  }

  /** A run the allocator may hand out: aligned to its own length, every page free. */
  ghost predicate FreeRun(used: set<nat>, start: nat, count: nat)
    requires count > 0
  {
    Aligned(start, count) && forall i: nat | start <= i < start + count :: i !in used
  }

  /** The simple search: the lowest free run inside [lo, hi). */
  ghost function FirstFit(used: set<nat>, lo: nat, hi: nat, count: nat): (r: Option<nat>)
    requires count > 0
    ensures r.Some? ==> lo <= r.value && r.value + count <= hi && FreeRun(used, r.value, count)
    ensures r.Some? ==> forall t: nat | lo <= t < r.value :: !FreeRun(used, t, count)
    ensures r.None? ==> forall t: nat | lo <= t && t + count <= hi :: !FreeRun(used, t, count)
    decreases hi - lo
  {
    if lo + count > hi then None
    else if FreeRun(used, lo, count) then Some(lo)
    else FirstFit(used, lo + 1, hi, count)
  }

  lemma FirstFitIs(used: set<nat>, lo: nat, hi: nat, count: nat, s: nat)
    requires count > 0 && lo <= s && s + count <= hi && FreeRun(used, s, count)
    requires forall t: nat | lo <= t < s :: !FreeRun(used, t, count)
    ensures FirstFit(used, lo, hi, count) == Some(s)
  {
    var r := FirstFit(used, lo, hi, count);
    assert r.Some?;
    assert !(r.value < s) && !(s < r.value);
  }

  lemma FirstFitNone(used: set<nat>, lo: nat, hi: nat, count: nat)
    requires count > 0
    requires forall t: nat | lo <= t && t + count <= hi :: !FreeRun(used, t, count)
    ensures FirstFit(used, lo, hi, count) == None
  {
    var r := FirstFit(used, lo, hi, count);
  }

  /** Two passes: at or above the cursor up to the last page, then below the cursor. */
  ghost function NextFit(n: nat, used: set<nat>, cursor: nat, count: nat): Option<nat>
    requires count > 0
  {
    var high := FirstFit(used, cursor, n, count);
    if high.Some? then high else FirstFit(used, 0, cursor, count)
  }

  lemma {:induction false} AlignedApart(a: nat, b: nat, n: nat)
    requires n > 0 && Aligned(a, n) && Aligned(b, n) && a < b
    ensures a + n <= b
  {
    if a >= n {
      AlignedApart(a - n, b - n, n);
    }
  }

  /** Exactly when the allocator reports out of memory: every aligned free run there
      is straddles the cursor. */
  lemma OutOfMemoryIff(n: nat, used: set<nat>, cursor: nat, count: nat)
    requires count > 0 && cursor <= n
    ensures NextFit(n, used, cursor, count).None?
       <==> forall s: nat | s + count <= n && FreeRun(used, s, count) :: s < cursor < s + count
  {
    var high, low := FirstFit(used, cursor, n, count), FirstFit(used, 0, cursor, count);
    if high.Some? {
      assert FreeRun(used, high.value, count);
    } else if low.Some? {
      assert FreeRun(used, low.value, count);
    }
  }

  /** Out of memory while an aligned free run exists happens exactly when the one
      aligned block the cursor splits is free and no other is: in particular never when
      the cursor is a multiple of the count, so never for single pages. */
  lemma SpuriousOutOfMemoryIff(n: nat, used: set<nat>, cursor: nat, count: nat)
    requires count > 0 && cursor <= n
    ensures var split := cursor / count * count;
      (NextFit(n, used, cursor, count).None? && exists s: nat :: s + count <= n && FreeRun(used, s, count))
      <==>
      (cursor % count != 0 && split + count <= n && FreeRun(used, split, count)
       && forall s: nat | s != split && s + count <= n :: !FreeRun(used, s, count))
  {
    var split := cursor / count * count;
    assert Aligned(split, count) && split <= cursor < split + count by {
      SplitBlock(cursor, count);
    }
    OutOfMemoryIff(n, used, cursor, count);
    forall s: nat | FreeRun(used, s, count) && s < cursor < s + count
      ensures s == split && cursor % count != 0
    {
      SameBlock(s, cursor, count);
    }
    if cursor % count != 0 {
      assert split != cursor;
    }
  }

  lemma SplitBlock(c: nat, n: nat)
    requires n > 0
    ensures c / n * n <= c < c / n * n + n && Aligned(c / n * n, n)
    ensures c % n != 0 <==> c / n * n != c
  {
    var q := c / n;
    assert c == q * n + c % n;
    Bits.DivModUnique(n, q, 0);
    AlignedIsMod(q * n, n);
  }

  lemma SameBlock(s: nat, c: nat, n: nat)
    requires n > 0 && Aligned(s, n) && s < c < s + n
    ensures s == c / n * n && c % n != 0
  {
    SplitBlock(c, n);
    var b := c / n * n;
    if s < b {
      AlignedApart(s, b, n);
    } else if b < s {
      AlignedApart(b, s, n);
    }
  }

  /** An allocation of two pages and its free leave four free pages and the cursor in the middle: four aligned free
      pages are not found. */
  lemma StraddlingRunIsMissed()
    ensures var ops := [Alloc(2), Free(0)];
      && AllowedRun(4, Pages({}, 0, map[]), ops) && Run(4, Pages({}, 0, map[]), ops) == Pages({}, 2, map[])
      && FreeRun({}, 0, 4) && NextFit(4, {}, 2, 4) == None
  {
    var s, t := Pages({}, 0, map[]), Pages(Range(0, 2), 2, map[0 := 2]);
    var ops := [Alloc(2), Free(0)];
    assert NextFit(4, {}, 0, 2) == Some(0) by {
      assert FreeRun({}, 0, 2);
    }
    assert Step(4, s, Alloc(2)) == t by {
      assert {} + Range(0, 2) == Range(0, 2);
    }
    assert Step(4, t, Free(0)) == Pages({}, 2, map[]);
    assert ops[1..] == [Free(0)] && ops[1..][1..] == [];
    OutOfMemoryIff(4, {}, 2, 4);
    forall s: nat | s + 4 <= 4 && FreeRun({}, s, 4) ensures s < 2 < s + 4 {}
  }

  // ---- runs of operations ----

  datatype Op = Alloc(count: nat) | Free(start: nat)

  ghost predicate Allowed(s: Pages, op: Op) {
    match op
    case Alloc(count) => count > 0
    case Free(start) => start in s.live
  }

  ghost function Step(n: nat, s: Pages, op: Op): Pages
    requires Allowed(s, op)
  {
    match op
    case Alloc(count) =>
      var r := NextFit(n, s.used, s.cursor, count);
      if r.None? then s
      else Pages(s.used + Range(r.value, count), r.value + count, s.live[r.value := count])
    case Free(start) =>
      Pages(s.used - Range(start, s.live[start]), s.cursor, s.live - {start})
  }

  ghost predicate AllowedRun(n: nat, s: Pages, ops: seq<Op>)
    decreases |ops|
  {
    ops == [] || (Allowed(s, ops[0]) && AllowedRun(n, Step(n, s, ops[0]), ops[1..]))
  }

  ghost function Run(n: nat, s: Pages, ops: seq<Op>): Pages
    requires AllowedRun(n, s, ops)
    decreases |ops|
  {
    if ops == [] then s else Run(n, Step(n, s, ops[0]), ops[1..])
  }

  /** Page `i` belongs to the live run starting at `s`. */
  ghost predicate Owns(live: map<nat, nat>, s: nat, i: nat) {
    s in live && s <= i < s + live[s]
  }

  /** What every run keeps, for `n` pages of which `reserved` were never free. */
  ghost predicate Inv(n: nat, reserved: set<nat>, s: Pages) {
    && s.cursor <= n
    && (forall r | r in s.live :: s.live[r] > 0 && Aligned(r, s.live[r]) && r + s.live[r] <= n)
    && (forall i: nat | i in reserved :: i < n)
    && (forall r: nat, i: nat :: Owns(s.live, r, i) ==> i !in reserved)
    && (forall r: nat, t: nat, i: nat :: Owns(s.live, r, i) && Owns(s.live, t, i) ==> r == t)
    && (forall i: nat :: i in s.used <==> i in reserved || exists r: nat :: Owns(s.live, r, i))
  }

  lemma NextFitIsFree(n: nat, used: set<nat>, cursor: nat, count: nat)
    requires count > 0 && cursor <= n
    ensures var r := NextFit(n, used, cursor, count);
      r.Some? ==> r.value + count <= n && FreeRun(used, r.value, count)
  {}

  lemma AddRun(n: nat, reserved: set<nat>, s: Pages, p: nat, count: nat)
    requires Inv(n, reserved, s) && count > 0 && p + count <= n && FreeRun(s.used, p, count)
    ensures p !in s.live
    ensures forall t: nat, i: nat :: Owns(s.live, t, i) ==> i in s.used
    ensures Inv(n, reserved, Pages(s.used + Range(p, count), p + count, s.live[p := count]))
  {
    forall t: nat, i: nat | Owns(s.live, t, i) ensures i in s.used {}
    assert p in s.live ==> Owns(s.live, p, p);
    var live := s.live[p := count];
    assert forall t: nat, i: nat :: Owns(live, t, i) <==> Owns(s.live, t, i) || (t == p && p <= i < p + count);
    forall i: nat | i in s.used + Range(p, count) ensures i in reserved || exists t: nat :: Owns(live, t, i) {
      if i in Range(p, count) {
        assert Owns(live, p, i);
      } else if i !in reserved {
        var t :| Owns(s.live, t, i);
        assert Owns(live, t, i);
      }
    }
  }

  /** A page allocation hands out pages no one had, and keeps the invariant. */
  lemma AllocKeeps(n: nat, reserved: set<nat>, s: Pages, count: nat)
    requires Inv(n, reserved, s) && count > 0
    ensures Inv(n, reserved, Step(n, s, Alloc(count)))
    ensures var r := NextFit(n, s.used, s.cursor, count);
      r.Some? ==> r.value !in s.live && r.value + count <= n && Aligned(r.value, count)
                  && forall t: nat, i: nat :: Owns(s.live, t, i) ==> !(r.value <= i < r.value + count)
  {
    NextFitIsFree(n, s.used, s.cursor, count);
    var r := NextFit(n, s.used, s.cursor, count);
    if r.Some? {
      var p := r.value;
      AddRun(n, reserved, s, p, count);
      assert Step(n, s, Alloc(count)) == Pages(s.used + Range(p, count), p + count, s.live[p := count]);
    }
  }

  /** Freeing a live run clears exactly its pages, and keeps the invariant. */
  lemma FreeKeeps(n: nat, reserved: set<nat>, s: Pages, start: nat)
    requires Inv(n, reserved, s) && start in s.live
    ensures Inv(n, reserved, Step(n, s, Free(start)))
  {
    var s' := Step(n, s, Free(start));
    forall t: nat, i: nat ensures Owns(s'.live, t, i) <==> Owns(s.live, t, i) && t != start {}
    forall i: nat ensures i in s'.used <==> i in reserved || exists t: nat :: Owns(s'.live, t, i) {
      if i in s'.used && i !in reserved {
        var t :| Owns(s.live, t, i);
        assert Owns(s'.live, t, i);
      }
      if t :| Owns(s'.live, t, i) {
        assert Owns(s.live, t, i);
        assert i in s.used;
        if i in Range(start, s.live[start]) {
          assert Owns(s.live, start, i);
          assert false;
        }
      } else if i in reserved {
        assert i in Range(start, s.live[start]) ==> Owns(s.live, start, i);
      }
    }
  }

  /** Every run of allocations and frees of live runs keeps the invariant: live runs
      pairwise disjoint, inside the initially free pages, aligned to their length. */
  lemma {:induction false} RunKeeps(n: nat, reserved: set<nat>, s: Pages, ops: seq<Op>)
    requires Inv(n, reserved, s) && AllowedRun(n, s, ops)
    ensures Inv(n, reserved, Run(n, s, ops))
    decreases |ops|
  {
    if ops != [] {
      match ops[0] {
        case Alloc(count) => AllocKeeps(n, reserved, s, count);
        case Free(start) => FreeKeeps(n, reserved, s, start);
      }
      RunKeeps(n, reserved, Step(n, s, ops[0]), ops[1..]);
    }
  }

  // ---- conservation ----

  ghost function Total(live: map<nat, nat>): nat
    decreases |live|
  {
    if live == map[] then 0
    else var r :| r in live; live[r] + Total(live - {r})
  }

  lemma {:induction false} CountUsed(n: nat, reserved: set<nat>, s: Pages)
    requires Inv(n, reserved, s)
    ensures |s.used| == |reserved| + Total(s.live)
    decreases |s.live|
  {
    if s.live == map[] {
      assert s.used == reserved by {
        forall r: nat, i: nat ensures !Owns(s.live, r, i) {}
      }
    } else {
      var r :| r in s.live && Total(s.live) == s.live[r] + Total(s.live - {r});
      FreeKeeps(n, reserved, s, r);
      CountUsed(n, reserved, Step(n, s, Free(r)));
      CountRun(n, reserved, s, r);
    }
  }

  /** Freeing a run takes its pages off the count. */
  lemma CountRun(n: nat, reserved: set<nat>, s: Pages, r: nat)
    requires Inv(n, reserved, s) && r in s.live
    ensures |s.used| == |Step(n, s, Free(r)).used| + s.live[r]
  {
    var own := Range(r, s.live[r]);
    var rest := s.used - own;
    forall i: nat | i in own ensures i in s.used {
      assert Owns(s.live, r, i);
    }
    RangeSize(r, s.live[r]);
    assert s.used == rest + own && rest !! own;
  }

  /** The number of set bits is the number of reserved pages plus the pages of all
      live runs, after every run. */
  lemma RunConserves(n: nat, reserved: set<nat>, s: Pages, ops: seq<Op>)
    requires Inv(n, reserved, s) && AllowedRun(n, s, ops)
    ensures var t := Run(n, s, ops); |t.used| == |reserved| + Total(t.live)
  {
    RunKeeps(n, reserved, s, ops);
    CountUsed(n, reserved, Run(n, s, ops));
  }

  /** Freeing what was just allocated gives back the same set of used pages. */
  lemma FreeUndoesAlloc(n: nat, reserved: set<nat>, s: Pages, count: nat)
    requires Inv(n, reserved, s) && count > 0
    requires NextFit(n, s.used, s.cursor, count).Some?
    ensures var p := NextFit(n, s.used, s.cursor, count).value;
      var t := Step(n, Step(n, s, Alloc(count)), Free(p));
      t.used == s.used && t.live == s.live
  {
    NextFitIsFree(n, s.used, s.cursor, count);
    var p := NextFit(n, s.used, s.cursor, count).value;
    AddRun(n, reserved, s, p, count);
    assert s.used !! Range(p, count);
    assert s.used + Range(p, count) - Range(p, count) == s.used;
    assert s.live[p := count] - {p} == s.live;
  }

  /** No two runs share a page. */
  ghost predicate Apart(live: map<nat, nat>) {
    forall s, t | s in live && t in live && s != t :: s + live[s] <= t || t + live[t] <= s
  }

  lemma LiveIsApart(n: nat, reserved: set<nat>, s: Pages)
    requires Inv(n, reserved, s)
    ensures Apart(s.live)
  {
    forall a, b | a in s.live && b in s.live && a != b ensures a + s.live[a] <= b || b + s.live[b] <= a {
      RunsApart(n, reserved, s, a, b);
    }
  }

  /** Live runs share no page. */
  lemma RunsApart(n: nat, reserved: set<nat>, s: Pages, a: nat, b: nat)
    requires Inv(n, reserved, s) && a in s.live && b in s.live && a != b
    ensures a + s.live[a] <= b || b + s.live[b] <= a
  {
    var m := if a <= b then b else a;
    assert Owns(s.live, a, m) && Owns(s.live, b, m) ==> a == b;
  }

  /** The used pages are determined by the reserved ones and the live runs. */
  lemma SameLiveSameUsed(n: nat, reserved: set<nat>, s: Pages, t: Pages)
    requires Inv(n, reserved, s) && Inv(n, reserved, t) && s.live == t.live
    ensures s.used == t.used
  {
    forall i: nat ensures i in s.used <==> i in t.used {}
  }
}
