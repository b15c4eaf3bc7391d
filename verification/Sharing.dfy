/**
 Any sequence of `vmm_map_page` calls on any address spaces refines an abstract page map; and the shared
 higher half: once `vmm_init` has hung a table below each of the top-level entries 256..511,
 address spaces that hold the same 256 entries translate every higher-half address alike, for good.
 */
module Sharing {
  import opened Bits
  import opened Paging
  import opened Tables
  import opened Vmm
  import opened Spans

  /** The tables only grew from `tabs` to `tabs'`, every top-level entry 256..511 being there at the start:
      none of those entries changed, in any root. */
  lemma HigherHalfFixed(depth: nat, mem: seq<Word>, mem': seq<Word>, tabs: TableMap, tabs': TableMap, root: nat, i: nat)
    requires Wf(depth, mem, tabs) && Wf(depth, mem', tabs') && depth > 1 && AllShared(tabs)
    requires forall k | k in tabs :: k in tabs' && tabs'[k] == tabs[k]
    requires RootKey(root) in tabs && 256 <= i < 512
    ensures Entry(mem', root, i) == Entry(mem, root, i) && Present(Entry(mem, root, i))
  {
    var c := Child(RootKey(root), i);
    assert c == Key(Shared, [i]);
    assert EntryOk(mem, tabs, RootKey(root), i) && EntryOk(mem', tabs', RootKey(root), i);
    PointerRoundTrip(tabs[c]);
  }

  /** Two roots translate every higher-half address alike. */
  lemma HigherHalfAgrees(la57: bool, mem: seq<Word>, tabs: TableMap, r: nat, s: nat, v: nat)
    requires Wf(Depth(la57), mem, tabs) && RootKey(r) in tabs && RootKey(s) in tabs && HigherHalf(v)
    ensures Translate(la57, mem, r, v) == Translate(la57, mem, s, v)
  {
    if Canonical(la57, v) {
      TopIndex(la57, v);
      SharedHalfAgrees(Depth(la57), mem, tabs, r, s, PathOf(la57, v));
      TranslateIsLeaf(la57, mem, tabs, r, v);
      TranslateIsLeaf(la57, mem, tabs, s, v);
    }
  }

  /** A page holding the 256 shared entries and nothing else is a second root: what sharing means. */
  lemma SecondRoot(depth: nat, mem: seq<Word>, tabs: TableMap, root: nat, f: nat)
    requires Wf(depth, mem, tabs) && depth > 1 && AllShared(tabs) && RootKey(root) in tabs
    requires f < FRAMES && f * 512 + 512 <= |mem| && forall k | k in tabs :: tabs[k] != f
    requires forall i: nat | i < 512 :: Entry(mem, f, i) == if i < 256 then 0 else Entry(mem, root, i)
    requires RootKey(f) !in tabs && forall i: nat {:trigger Key(Own(f), [i])} | i < 256 :: Key(Own(f), [i]) !in tabs
    ensures Wf(depth, mem, tabs[RootKey(f) := f])
  {
    var tabs' := tabs[RootKey(f) := f];
    forall k, i: nat | k in tabs' && i < 512 && |k.path| + 1 < depth ensures EntryOk(mem, tabs', k, i) {
      if k == RootKey(f) {
        assert EntryOk(mem, tabs, RootKey(root), i);
        if i >= 256 {
          assert Child(k, i) == Key(Shared, [i]) == Child(RootKey(root), i);
        } else {
          assert Child(k, i) == Key(Own(f), [i]);
        }
      } else {
        assert EntryOk(mem, tabs, k, i);
        assert |Child(k, i).path| == |k.path| + 1;
      }
    }
  }

  datatype Call = Call(top: nat, req: Request)

  /** The abstract page map over all address spaces: the entry of the page at place `page` after the calls, in
      order, where it was `before`. */
  ghost function ReplayCalls(la57: bool, calls: seq<Call>, page: Key, before: Word): Word {
    if calls == [] then before
    else
      var n, last := |calls| - 1, calls[|calls| - 1];
      if KeyFor(last.top / 4096, PathOf(la57, last.req.virt)) == page then OrWords(last.req.phys, last.req.flags)
      else ReplayCalls(la57, calls[..n], page, before)
  }

  /** The walks from every root of `tabs` find in `mem'` what the abstract page map holds after the calls. */
  ghost predicate Replayed(la57: bool, mem: seq<Word>, mem': seq<Word>, tabs: TableMap, calls: seq<Call>) {
    forall r: nat, q | RootKey(r) in tabs && IsPath(Depth(la57), q) ::
      Leaf(mem', r, q) == ReplayCalls(la57, calls, KeyFor(r, q), Leaf(mem, r, q))
  }

  lemma ReplayedNext(la57: bool, a: seq<Word>, b: seq<Word>, c: seq<Word>, tabs: TableMap, tabs': TableMap,
                     calls: seq<Call>, n: nat)
    requires n < |calls| && Replayed(la57, a, b, tabs, calls[..n]) && Extends(tabs, tabs')
    requires Updated(la57, b, c, tabs', calls[n].top / 4096, [calls[n].req])
    ensures Replayed(la57, a, c, tabs, calls[..n + 1])
  {
    var some, root, req := calls[..n + 1], calls[n].top / 4096, calls[n].req;
    assert some[..n] == calls[..n];
    forall r: nat, q | RootKey(r) in tabs && IsPath(Depth(la57), q)
      ensures Leaf(c, r, q) == ReplayCalls(la57, some, KeyFor(r, q), Leaf(a, r, q))
    {
      assert Leaf(c, r, q) == Replay(la57, root, [req], KeyFor(r, q), Leaf(b, r, q));
      assert Replay(la57, root, [req][..0], KeyFor(r, q), Leaf(b, r, q)) == Leaf(b, r, q);
    }
  }

  lemma ReplayedMap(la57: bool, a: seq<Word>, b: seq<Word>, c: seq<Word>, tabs: TableMap, tabs': TableMap,
                    calls: seq<Call>, call: Call)
    requires Replayed(la57, a, b, tabs, calls) && Extends(tabs, tabs')
             && Updated(la57, b, c, tabs', call.top / 4096, [call.req])
    ensures Replayed(la57, a, c, tabs, calls + [call])
  {
    var more := calls + [call];
    assert more[..|calls|] == calls && more[..|calls| + 1] == more;
    ReplayedNext(la57, a, b, c, tabs, tabs', more, |calls|);
  }

  lemma ReplayedQuiet(la57: bool, a: seq<Word>, b: seq<Word>, c: seq<Word>, tabs: TableMap, tabs': TableMap,
                      calls: seq<Call>)
    requires Replayed(la57, a, b, tabs, calls) && Extends(tabs, tabs') && Wf(Depth(la57), b, tabs')
             && SameLeaves(Depth(la57), b, c, tabs')
    ensures Replayed(la57, a, c, tabs, calls)
  {
    UpdatedNothing(la57, b, c, tabs', 0);
    ReplayedSame(la57, a, b, c, tabs, tabs', calls, 0);
  }

  /** What the processor sees after any calls, at any address of any address space. */
  lemma TranslateReplayed(la57: bool, mem: seq<Word>, mem': seq<Word>, tabs: TableMap, tabs': TableMap,
                          calls: seq<Call>, r: nat, v: nat)
    requires Replayed(la57, mem, mem', tabs, calls) && Wf(Depth(la57), mem', tabs') && Extends(tabs, tabs')
    requires RootKey(r) in tabs && Canonical(la57, v)
    ensures Translate(la57, mem', r, v)
         == Decode(ReplayCalls(la57, calls, PageAt(la57, r, v), Leaf(mem, r, PathOf(la57, v))), v % 4096)
  {
    TranslateIsLeaf(la57, mem', tabs', r, v);
    assert Leaf(mem', r, PathOf(la57, v))
        == ReplayCalls(la57, calls, PageAt(la57, r, v), Leaf(mem, r, PathOf(la57, v)));
  }

  /** A call maps the page of address `v` in the address space of `r`: it names that page, and this address space or
      any one when the page is in the higher half. */
  ghost predicate Maps(call: Call, r: nat, v: nat) {
    call.req.virt / 4096 == v / 4096 && (call.top / 4096 == r || HigherHalf(v))
  }

  /** `call` is the last of the calls that does. */
  ghost predicate LastToMap(calls: seq<Call>, i: nat, r: nat, v: nat) {
    i < |calls| && Maps(calls[i], r, v) && forall j | i < j < |calls| :: !Maps(calls[j], r, v)
  }

  lemma SamePlaceIff(la57: bool, call: Call, r: nat, v: nat)
    requires Canonical(la57, call.req.virt) && Canonical(la57, v)
    ensures KeyFor(call.top / 4096, PathOf(la57, call.req.virt)) == PageAt(la57, r, v) <==> Maps(call, r, v)
  {
    CanonicalPages(la57, call.req.virt, v);
    TopIndex(la57, v);
  }

  ghost predicate CanonicalCalls(la57: bool, calls: seq<Call>) {
    forall i | 0 <= i < |calls| :: Canonical(la57, calls[i].req.virt)
  }

  /** No call maps the page of `v` for `r`. */
  ghost predicate NoneMaps(calls: seq<Call>, r: nat, v: nat) {
    forall i | 0 <= i < |calls| :: !Maps(calls[i], r, v)
  }

  lemma {:induction false} ReplayNone(la57: bool, calls: seq<Call>, r: nat, v: nat, before: Word)
    requires Canonical(la57, v) && CanonicalCalls(la57, calls) && NoneMaps(calls, r, v)
    ensures ReplayCalls(la57, calls, PageAt(la57, r, v), before) == before
  {
    if calls != [] {
      var n := |calls| - 1;
      SamePlaceIff(la57, calls[n], r, v);
      ReplayNone(la57, calls[..n], r, v, before);
    }
  }

  lemma {:induction false} ReplayLast(la57: bool, calls: seq<Call>, r: nat, v: nat, before: Word, i: nat)
    requires Canonical(la57, v) && CanonicalCalls(la57, calls) && LastToMap(calls, i, r, v)
    ensures ReplayCalls(la57, calls, PageAt(la57, r, v), before) == OrWords(calls[i].req.phys, calls[i].req.flags)
  {
    var n := |calls| - 1;
    SamePlaceIff(la57, calls[n], r, v);
    if i < n {
      LastBefore(la57, calls, i, r, v);
      ReplayLast(la57, calls[..n], r, v, before, i);
    }
  }

  lemma LastBefore(la57: bool, calls: seq<Call>, i: nat, r: nat, v: nat)
    requires CanonicalCalls(la57, calls) && LastToMap(calls, i, r, v) && i < |calls| - 1
    ensures var n := |calls| - 1;
      && CanonicalCalls(la57, calls[..n]) && LastToMap(calls[..n], i, r, v) && calls[..n][i] == calls[i]
      && !Maps(calls[n], r, v)
  {}

  /** Address `v` of `r` translates as the last call to map it says, as before if none did. */
  ghost predicate Decided(la57: bool, mem: seq<Word>, mem': seq<Word>, calls: seq<Call>, r: nat, v: nat) {
    && (NoneMaps(calls, r, v) ==> Translate(la57, mem', r, v) == Translate(la57, mem, r, v))
    && (forall i: nat | LastToMap(calls, i, r, v) ::
          Translate(la57, mem', r, v) == Target(calls[i].req.phys + v % 4096, calls[i].req.flags))
  }

  ghost predicate AllMappable(la57: bool, calls: seq<Call>) {
    CanonicalCalls(la57, calls) && forall i | 0 <= i < |calls| :: Mappable(calls[i].req)
  }

  /** In the processor's terms: each address of each address space translates as the last call that mapped its page
      says, and as before when none did. */
  lemma LastCallDecides(la57: bool, mem: seq<Word>, mem': seq<Word>, tabs: TableMap, tabs': TableMap,
                        calls: seq<Call>, r: nat, v: nat)
    requires Replayed(la57, mem, mem', tabs, calls) && Extends(tabs, tabs') && RootKey(r) in tabs && Canonical(la57, v)
    requires Wf(Depth(la57), mem, tabs) && Wf(Depth(la57), mem', tabs')
    requires AllMappable(la57, calls)
    ensures Decided(la57, mem, mem', calls, r, v)
  {
    TranslateReplayed(la57, mem, mem', tabs, tabs', calls, r, v);
    TranslateIsLeaf(la57, mem, tabs, r, v);
    var before := Leaf(mem, r, PathOf(la57, v));
    if NoneMaps(calls, r, v) {
      ReplayNone(la57, calls, r, v, before);
    }
    forall i: nat | LastToMap(calls, i, r, v)
      ensures Translate(la57, mem', r, v) == Target(calls[i].req.phys + v % 4096, calls[i].req.flags)
    {
      ReplayLast(la57, calls, r, v, before, i);
      EntryDecodes(calls[i].req.phys, calls[i].req.flags, v % 4096);
    }
  }

  /** A page frame of the processor's, to be present. */
  ghost predicate Mappable(req: Request) {
    req.phys % 4096 == 0 && req.phys < 0x10_0000_0000_0000 && FlagBits(req.flags) && Present(req.flags)
  }

  /** Any sequence of `vmm_map_page` calls on any address spaces, up to the first out-of-memory panic: every walk
      finds what the abstract page map holds after the same calls, all address spaces agree on the higher half, and
      their shared entries, once there, are as they were. */
  method MapMany(pt: PageTables, calls: seq<Call>) returns (ghost done: nat, ok: bool)
    requires pt.Valid()
    requires forall i | 0 <= i < |calls| :: calls[i].top % 4096 == 0 && pt.IsRoot(calls[i].top / 4096)
    modifies pt, pt.pmm, pt.pmm.bitmap, pt.pmm.ram
    ensures pt.Valid() && Extends(old(pt.tabs), pt.tabs)
    ensures done <= |calls| && (if ok then done == |calls| else pt.pmm.Exhausted(1))
    ensures Replayed(pt.la57, old(pt.pmm.ram[..]), pt.pmm.ram[..], old(pt.tabs), calls[..done])
    ensures old(AllShared(pt.tabs)) ==>
              AllShared(pt.tabs) && SameTops(old(pt.pmm.ram[..]), pt.pmm.ram[..], old(pt.tabs))
    ensures forall r: nat, s: nat, v: nat | old(pt.IsRoot(r)) && old(pt.IsRoot(s)) && HigherHalf(v) ::
              Translate(pt.la57, pt.pmm.ram[..], r, v) == Translate(pt.la57, pt.pmm.ram[..], s, v)
  {
    ghost var past := pt.Now();
    done, ok := 0, true;
    for n := 0 to |calls|
      invariant pt.Valid() && Extends(past.tabs, pt.tabs) && done == n && ok
      invariant Replayed(pt.la57, past.mem, pt.pmm.ram[..], past.tabs, calls[..n])
    {
      ok := MapCall(pt, calls, n, past);
      if !ok {
        break;
      }
      done := n + 1;
    }
    HalvesAgree(pt.la57, pt.pmm.ram[..], pt.tabs);
    if AllShared(past.tabs) {
      AllSharedKept(past.tabs, pt.tabs);
      SharedFacts(pt.la57, past.mem, pt.pmm.ram[..], past.tabs, pt.tabs);
    }
  }

  method MapCall(pt: PageTables, calls: seq<Call>, n: nat, ghost past: Snapshot) returns (ok: bool)
    requires pt.Valid() && Extends(past.tabs, pt.tabs) && n < |calls|
    requires calls[n].top % 4096 == 0 && RootKey(calls[n].top / 4096) in past.tabs
    requires Replayed(pt.la57, past.mem, pt.pmm.ram[..], past.tabs, calls[..n])
    modifies pt, pt.pmm, pt.pmm.bitmap, pt.pmm.ram
    ensures pt.Valid() && Extends(past.tabs, pt.tabs)
    ensures Replayed(pt.la57, past.mem, pt.pmm.ram[..], past.tabs, calls[..if ok then n + 1 else n])
    ensures !ok ==> pt.pmm.Exhausted(1)
  {
    ghost var mem, tabs := pt.pmm.ram[..], pt.tabs;
    ok := pt.MapPage(calls[n].top, calls[n].req);
    if ok {
      ReplayedNext(pt.la57, past.mem, mem, pt.pmm.ram[..], past.tabs, tabs, calls, n);
    } else {
      ReplayedSame(pt.la57, past.mem, mem, pt.pmm.ram[..], past.tabs, tabs, calls[..n], calls[n].top / 4096);
    }
  }

  lemma ReplayedSame(la57: bool, a: seq<Word>, b: seq<Word>, c: seq<Word>, tabs: TableMap, tabs': TableMap,
                     calls: seq<Call>, root: nat)
    requires Replayed(la57, a, b, tabs, calls) && Extends(tabs, tabs') && Updated(la57, b, c, tabs', root, [])
    ensures Replayed(la57, a, c, tabs, calls)
  {
    forall r: nat, q | RootKey(r) in tabs && IsPath(Depth(la57), q)
      ensures Leaf(c, r, q) == ReplayCalls(la57, calls, KeyFor(r, q), Leaf(a, r, q))
    {
      assert Leaf(c, r, q) == Replay(la57, root, [], KeyFor(r, q), Leaf(b, r, q));
    }
  }

  /** Every root of `tabs` has the same top-level entries 256..511 in both memories. */
  ghost predicate SameTops(mem: seq<Word>, mem': seq<Word>, tabs: TableMap) {
    |mem'| == |mem| && forall r: nat, i: nat | RootKey(r) in tabs && 256 <= i < 512 ::
      r * 512 + i < |mem| && Entry(mem', r, i) == Entry(mem, r, i)
  }

  ghost predicate Extends(tabs: TableMap, tabs': TableMap) {
    forall k | k in tabs :: k in tabs' && tabs'[k] == tabs[k]
  }

  lemma AllSharedKept(tabs: TableMap, tabs': TableMap)
    requires AllShared(tabs) && Extends(tabs, tabs')
    ensures AllShared(tabs')
  {}

  lemma SharedFacts(la57: bool, mem: seq<Word>, mem': seq<Word>, tabs: TableMap, tabs': TableMap)
    requires Wf(Depth(la57), mem, tabs) && Wf(Depth(la57), mem', tabs') && AllShared(tabs) && Extends(tabs, tabs')
             && |mem'| == |mem|
    ensures SameTops(mem, mem', tabs)
  {
    forall r: nat, i: nat | RootKey(r) in tabs && 256 <= i < 512
      ensures r * 512 + i < |mem| && Entry(mem', r, i) == Entry(mem, r, i)
    {
      assert tabs[RootKey(r)] == r;
      HigherHalfFixed(Depth(la57), mem, mem', tabs, tabs', r, i);
    }
  }

  lemma HalvesAgree(la57: bool, mem: seq<Word>, tabs: TableMap)
    requires Wf(Depth(la57), mem, tabs)
    ensures forall r: nat, s: nat, v: nat | RootKey(r) in tabs && RootKey(s) in tabs && HigherHalf(v) ::
              Translate(la57, mem, r, v) == Translate(la57, mem, s, v)
  {
    forall r: nat, s: nat, v: nat | RootKey(r) in tabs && RootKey(s) in tabs && HigherHalf(v)
      ensures Translate(la57, mem, r, v) == Translate(la57, mem, s, v)
    {
      HigherHalfAgrees(la57, mem, tabs, r, s, v);
    }
  }
}
