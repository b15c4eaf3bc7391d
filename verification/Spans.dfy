/** What mapped spans mean to the processor: byte by byte translation. */
module Spans {
  import opened Bits
  import opened Rounding
  import opened Paging
  import opened Tables
  import opened Vmm

  lemma CanonicalPages(la57: bool, v: nat, w: nat)
    requires Canonical(la57, v) && Canonical(la57, w)
    ensures PathOf(la57, v) == PathOf(la57, w) <==> v / 4096 == w / 4096
  {
    if HigherHalf(v) <==> HigherHalf(w) {
      SamePageInHalf(la57, v, w);
    } else {
      TopIndex(la57, v);
      TopIndex(la57, w);
    }
  }

  /** The place of the page of address `v` in the address space of `root`. */
  ghost function PageAt(la57: bool, root: nat, v: nat): Key { KeyFor(root, PathOf(la57, v)) }

  /** Every byte of `n` pages from `virt` on has a canonical address. */
  ghost predicate CanonicalSpan(la57: bool, virt: nat, n: nat) {
    forall v: nat | virt <= v < virt + 4096 * n :: Canonical(la57, v)
  }

  /** Replaying a span: pages inside get their entry from it, pages outside keep theirs. */
  lemma {:induction false} ReplaySpan(la57: bool, root: nat, reqs: seq<Request>, virt: nat, phys: nat, n: nat,
                                      flags: Word,
                                      v: nat, before: Word)
    requires virt % 4096 == 0 && phys + 4096 * n <= 0x1_0000_0000_0000_0000
    requires CanonicalSpan(la57, virt, n) && Canonical(la57, v)
    ensures Replay(la57, root, reqs + Span(virt, phys, n, flags), PageAt(la57, root, v), before)
         == if virt <= v < virt + 4096 * n then OrWords(phys + 4096 * ((v - virt) / 4096), flags)
            else Replay(la57, root, reqs, PageAt(la57, root, v), before)
  {
    if n == 0 {
      assert reqs + Span(virt, phys, 0, flags) == reqs;
    } else {
      var m := n - 1;
      var req := Request(virt + 4096 * m, phys + 4096 * m, flags);
      SpanNext(virt, phys, 4096 * m, m, flags, reqs);
      var all := reqs + Span(virt, phys, n, flags);
      assert all[..|all| - 1] == reqs + Span(virt, phys, m, flags) && all[|all| - 1] == req;
      CanonicalPages(la57, req.virt, v);
      assert PathOf(la57, req.virt) == PathOf(la57, v) <==> PageAt(la57, root, req.virt) == PageAt(la57, root, v);
      SpanPage(virt, m, v);
      if v / 4096 != req.virt / 4096 {
        ReplaySpan(la57, root, reqs, virt, phys, m, flags, v, before);
      }
    }
  }

  lemma SpanPage(virt: nat, m: nat, v: nat)
    requires virt % 4096 == 0
    ensures (virt + 4096 * m) / 4096 == v / 4096 <==> virt + 4096 * m <= v < virt + 4096 * (m + 1)
    ensures (virt + 4096 * m) / 4096 == v / 4096 ==> (v - virt) / 4096 == m
  {}

  /** For well-formed tables, translating an address is decoding the entry its path leads to. */
  lemma TranslateIsLeaf(la57: bool, mem: seq<Word>, tabs: TableMap, root: nat, v: nat)
    requires Wf(Depth(la57), mem, tabs) && RootKey(root) in tabs && Canonical(la57, v)
    ensures Translate(la57, mem, root, v) == Decode(Leaf(mem, root, PathOf(la57, v)), v % 4096)
  {
    WalkDecodesLeaf(Depth(la57), mem, tabs, RootKey(root), PathOf(la57, v), v % 4096);
  }

  /** The memories before and after mapping `reqs` on `root`. */
  ghost predicate Mapping(la57: bool, past: Snapshot, mem: seq<Word>, tabs: TableMap, root: nat, reqs: seq<Request>) {
    && Wf(Depth(la57), past.mem, past.tabs) && RootKey(root) in past.tabs
    && Wf(Depth(la57), mem, tabs) && RootKey(root) in tabs
    && Updated(la57, past.mem, mem, past.tabs, root, reqs)
  }

  lemma TranslateMapped(la57: bool, past: Snapshot, mem: seq<Word>, tabs: TableMap, root: nat, reqs: seq<Request>,
                        v: nat)
    requires Mapping(la57, past, mem, tabs, root, reqs) && Canonical(la57, v)
    ensures Translate(la57, mem, root, v)
         == Decode(Replay(la57, root, reqs, PageAt(la57, root, v), Leaf(past.mem, root, PathOf(la57, v))), v % 4096)
    ensures Translate(la57, past.mem, root, v) == Decode(Leaf(past.mem, root, PathOf(la57, v)), v % 4096)
  {
    TranslateIsLeaf(la57, mem, tabs, root, v);
    TranslateIsLeaf(la57, past.mem, past.tabs, root, v);
    assert Leaf(mem, root, PathOf(la57, v))
        == Replay(la57, root, reqs, PageAt(la57, root, v), Leaf(past.mem, root, PathOf(la57, v)));
  }

  /** The translation `vmm_map_span` is to give the byte at `phys`. */
  ghost function Target(phys: nat, flags: nat): Translation {
    Mapped(phys, Writable(flags), User(flags), NoExec(flags), PatIndex(flags, false))
  }

  ghost predicate ByteMaps(la57: bool, mem: seq<Word>, root: nat, virt: nat, phys: nat, flags: nat, i: nat) {
    Translate(la57, mem, root, virt + i) == Target(phys + i, flags)
  }

  /** A page-aligned span of present pages: inside, offset by offset; outside, as before. */
  lemma AlignedSpan(la57: bool, past: Snapshot, mem: seq<Word>, tabs: TableMap, root: nat,
                    virt: nat, phys: nat, n: nat, flags: Word, v: nat)
    requires virt % 4096 == 0 && phys % 4096 == 0 && phys + 4096 * n <= 0x10_0000_0000_0000
    requires CanonicalSpan(la57, virt, n) && FlagBits(flags) && Present(flags) && Canonical(la57, v)
    requires Mapping(la57, past, mem, tabs, root, Span(virt, phys, n, flags))
    ensures Translate(la57, mem, root, v)
         == if virt <= v < virt + 4096 * n then Target(phys + (v - virt), flags) else Translate(la57, past.mem, root, v)
  {
    var reqs := Span(virt, phys, n, flags);
    TranslateMapped(la57, past, mem, tabs, root, reqs, v);
    assert [] + reqs == reqs;
    ReplaySpan(la57, root, [], virt, phys, n, flags, v, Leaf(past.mem, root, PathOf(la57, v)));
    if virt <= v < virt + 4096 * n {
      SpanEntryDecodes(virt, phys, n, flags, v);
    }
  }

  lemma SpanEntryDecodes(virt: nat, phys: nat, n: nat, flags: Word, v: nat)
    requires virt % 4096 == 0 && phys % 4096 == 0 && phys + 4096 * n <= 0x10_0000_0000_0000
    requires FlagBits(flags) && Present(flags) && virt <= v < virt + 4096 * n
    ensures Decode(OrWords(phys + 4096 * ((v - virt) / 4096), flags), v % 4096) == Target(phys + (v - virt), flags)
  {
    var j := (v - virt) / 4096;
    assert 4096 * j + v % 4096 == v - virt && (phys + 4096 * j) % 4096 == 0;
    EntryDecodes(phys + 4096 * j, flags, v % 4096);
  }

  lemma EntryDecodes(phys: Word, flags: Word, offset: nat)
    requires phys % 4096 == 0 && phys < 0x10_0000_0000_0000 && FlagBits(flags) && Present(flags)
    ensures Decode(OrWords(phys, flags), offset) == Target(phys + offset, flags)
  {
    LeafDecodes(phys, flags, offset);
  }

  lemma SpanCovers(virt: nat, phys: nat, len: nat, i: nat)
    requires i < len && virt % 4096 == phys % 4096
    ensures AlignDown(virt, 4096) <= virt + i < AlignDown(virt, 4096) + 4096 * SpanPages(phys, len)
    ensures AlignDown(phys, 4096) + (virt + i - AlignDown(virt, 4096)) == phys + i
  {
    RoundingIsTight(phys + len, 4096);
  }

  /** Address `v` is in one of as many pages from that of `virt` on as the physical span touches. */
  predicate OnPages(v: nat, virt: nat, phys: nat, len: nat)
    requires len > 0
  {
    virt / 4096 <= v / 4096 <= virt / 4096 + (phys + len - 1) / 4096 - phys / 4096
  }

  lemma SpanOnPages(virt: nat, phys: nat, len: nat, v: nat)
    requires len > 0
    ensures AlignDown(virt, 4096) <= v < AlignDown(virt, 4096) + 4096 * SpanPages(phys, len)
       <==> OnPages(v, virt, phys, len)
    ensures virt % 4096 == phys % 4096 ==>
              (virt + len - 1) / 4096 - virt / 4096 == (phys + len - 1) / 4096 - phys / 4096
  {
    assert DivRoundup(phys + len, 4096) == (phys + len - 1) / 4096 + 1;
  }

  /** `vmm_map_span` makes every byte `virt + i` translate to `phys + i` exactly when the two addresses
      agree in their page offset, and then it changes no page but those with a byte of the span. In either case it
      changes no more pages than there are in the rounded physical span. */
  lemma SpanTranslates(la57: bool, past: Snapshot, mem: seq<Word>, tabs: TableMap, root: nat,
                       virt: nat, phys: nat, len: nat, flags: Word)
    requires 0 < len && phys + len + 4095 < 0x10_0000_0000_0000
    requires CanonicalSpan(la57, AlignDown(virt, 4096), SpanPages(phys, len)) && FlagBits(flags) && Present(flags)
    requires Mapping(la57, past, mem, tabs, root,
                     Span(AlignDown(virt, 4096), AlignDown(phys, 4096), SpanPages(phys, len), flags))
    ensures (forall i: nat | i < len :: ByteMaps(la57, mem, root, virt, phys, flags, i))
       <==> virt % 4096 == phys % 4096
    ensures forall v: nat | Canonical(la57, v) && !OnPages(v, virt, phys, len) ::
              Translate(la57, mem, root, v) == Translate(la57, past.mem, root, v)
    ensures virt % 4096 == phys % 4096 ==>
              forall v: nat | Canonical(la57, v) && !(virt / 4096 <= v / 4096 <= (virt + len - 1) / 4096) ::
                Translate(la57, mem, root, v) == Translate(la57, past.mem, root, v)
  {
    var vb, pb, n := AlignDown(virt, 4096), AlignDown(phys, 4096), SpanPages(phys, len);
    forall v: nat | Canonical(la57, v)
      ensures Translate(la57, mem, root, v)
           == if vb <= v < vb + 4096 * n then Target(pb + (v - vb), flags) else Translate(la57, past.mem, root, v)
    {
      AlignedSpan(la57, past, mem, tabs, root, vb, pb, n, flags, v);
      SpanOnPages(virt, phys, len, v);
    }
    if virt % 4096 == phys % 4096 {
      forall i: nat | i < len ensures ByteMaps(la57, mem, root, virt, phys, flags, i) {
        SpanCovers(virt, phys, len, i);
      }
    } else {
      assert Translate(la57, mem, root, virt + 0) == Target(pb + (virt - vb), flags);
      assert !ByteMaps(la57, mem, root, virt, phys, flags, 0);
    }
  }

  /** A span at 0x1800 for physical address 0x1000: the byte there translates to 0x1800. */
  lemma MismatchedSpan(la57: bool, past: Snapshot, mem: seq<Word>, tabs: TableMap, root: nat, flags: Word)
    requires FlagBits(flags) && Present(flags) && CanonicalSpan(la57, 0x1000, 1)
    requires Mapping(la57, past, mem, tabs, root,
                     Span(AlignDown(0x1800, 4096), AlignDown(0x1000, 4096), SpanPages(0x1000, 1), flags))
    ensures Translate(la57, mem, root, 0x1800) == Target(0x1800, flags)
            && !ByteMaps(la57, mem, root, 0x1800, 0x1000, flags, 0)
  {
    assert SpanPages(0x1000, 1) == 1;
    AlignedSpan(la57, past, mem, tabs, root, 0x1000, 0x1000, 1, flags, 0x1800);
  }
}
