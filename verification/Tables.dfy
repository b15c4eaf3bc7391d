/**
 The shape of the page tables in memory: an unaliased tree of tables below every root, with the
 subtrees of the top-level entries 256..511 shared by all roots; and how the two kinds of writes
 the kernel makes change what the walk finds.
 */
module Tables {
  import opened Bits
  import opened Paging

  /** Who a table belongs to: one root, or every root (below top-level entries 256..511). */
  datatype Owner = Shared | Own(root: nat)

  /** The place of a table, or of a page, in the tree: the indices leading to it. */
  datatype Key = Key(owner: Owner, path: seq<nat>)

  function RootKey(root: nat): Key { Key(Own(root), []) }

  function Child(k: Key, i: nat): Key {
    if k.path == [] && i >= 256 then Key(Shared, [i]) else Key(k.owner, k.path + [i])
  }

  function Parent(k: Key): Key
    requires k.path != []
  {
    Key(k.owner, k.path[..|k.path| - 1])
  }

  /** The place reached from root `root` along `path`. */
  function KeyFor(root: nat, path: seq<nat>): Key {
    if path != [] && path[0] >= 256 then Key(Shared, path) else Key(Own(root), path)
  }

  /** The place of the table a walk of `rest` from `k` ends in. */
  function Reach(k: Key, rest: seq<nat>): Key
    requires rest != []
    decreases |rest|
  {
    if |rest| == 1 then k else Reach(Child(k, rest[0]), rest[1..])
  }

  type TableMap = map<Key, nat>

  ghost predicate EntryOk(mem: seq<Word>, tabs: TableMap, k: Key, i: nat)
    requires k in tabs && tabs[k] * 512 + 512 <= |mem| && i < 512
  {
    var c := Child(k, i);
    Entry(mem, tabs[k], i) == if c in tabs then Pointer(tabs[c]) else 0
  }

  ghost predicate SoleRoot(tabs: TableMap) {
    forall k, j | k in tabs && j in tabs && k.path == [] && j.path == [] :: k == j
  }

  ghost predicate AllShared(tabs: TableMap) {
    forall i: nat {:trigger Key(Shared, [i])} | 256 <= i < 512 :: Key(Shared, [i]) in tabs
  }

  /** Every table has a frame of its own, and every entry above the last level is either zero or
      the pointer to the table of that place. */
  ghost predicate Wf(depth: nat, mem: seq<Word>, tabs: TableMap) {
    && (forall k | k in tabs :: |k.path| < depth && (k.path == [] ==> k.owner == Own(tabs[k])))
    && (forall k | k in tabs :: tabs[k] < FRAMES && tabs[k] * 512 + 512 <= |mem|)
    && (forall k, j | k in tabs && j in tabs && tabs[k] == tabs[j] :: k == j)
    && (forall k, i: nat | k in tabs && i < 512 && |k.path| + 1 < depth :: EntryOk(mem, tabs, k, i))
    && (forall k | k in tabs && |k.path| > 1 :: Parent(k) in tabs)
    && (SoleRoot(tabs) || AllShared(tabs))
  }

  predicate IsPath(depth: nat, q: seq<nat>) { |q| == depth && InRange(q) }

  // ---- reading the tree ----

  lemma LeafStep(depth: nat, mem: seq<Word>, tabs: TableMap, k: Key, rest: seq<nat>)
    requires Wf(depth, mem, tabs) && k in tabs && |k.path| + |rest| == depth && |rest| > 1 && InRange(rest)
    ensures var c := Child(k, rest[0]);
      Leaf(mem, tabs[k], rest) == if c in tabs then Leaf(mem, tabs[c], rest[1..]) else 0
  {
    var c := Child(k, rest[0]);
    assert EntryOk(mem, tabs, k, rest[0]);
    if c in tabs {
      PointerRoundTrip(tabs[c]);
    }
  }

  /** The processor's walk over well-formed tables gives the decoded last-level entry:
      the levels above grant every right. */
  lemma {:induction false} WalkDecodesLeaf(depth: nat, mem: seq<Word>, tabs: TableMap, k: Key, rest: seq<nat>,
                                           offset: nat)
    requires Wf(depth, mem, tabs) && k in tabs && |k.path| + |rest| == depth && rest != [] && InRange(rest)
    ensures Walk(mem, tabs[k], rest, offset, true, true, false) == Decode(Leaf(mem, tabs[k], rest), offset)
    decreases |rest|
  {
    if |rest| > 1 {
      LeafStep(depth, mem, tabs, k, rest);
      var c := Child(k, rest[0]);
      assert EntryOk(mem, tabs, k, rest[0]);
      if c in tabs {
        PointerRoundTrip(tabs[c]);
        WalkDecodesLeaf(depth, mem, tabs, c, rest[1..], offset);
      }
    }
  }

  /** Roots agree on every address of the shared half. */
  lemma SharedHalfAgrees(depth: nat, mem: seq<Word>, tabs: TableMap, r: nat, s: nat, q: seq<nat>)
    requires Wf(depth, mem, tabs) && RootKey(r) in tabs && RootKey(s) in tabs
    requires depth > 1 && IsPath(depth, q) && q[0] >= 256
    ensures Leaf(mem, r, q) == Leaf(mem, s, q)
  {
    LeafStep(depth, mem, tabs, RootKey(r), q);
    LeafStep(depth, mem, tabs, RootKey(s), q);
  }

  lemma {:induction false} ReachAlong(k: Key, rest: seq<nat>)
    requires k.path != [] && rest != []
    ensures Reach(k, rest) == Key(k.owner, k.path + rest[..|rest| - 1])
    decreases |rest|
  {
    if |rest| == 1 {
      assert k.path + rest[..0] == k.path;
    } else {
      ReachAlong(Child(k, rest[0]), rest[1..]);
      assert k.path + [rest[0]] + rest[1..][..|rest| - 2] == k.path + rest[..|rest| - 1];
    }
  }

  lemma ReachFromRoot(r: nat, q: seq<nat>)
    requires |q| > 1
    ensures Reach(RootKey(r), q) == KeyFor(r, q[..|q| - 1])
  {
    ReachAlong(Child(RootKey(r), q[0]), q[1..]);
    assert [q[0]] + q[1..][..|q| - 2] == q[..|q| - 1];
  }

  /** Two walks end in the same entry exactly when they name the same place. */
  lemma SameEntry(r: nat, q: seq<nat>, s: nat, p: seq<nat>)
    requires |q| == |p| > 1
    ensures Reach(RootKey(r), q) == Reach(RootKey(s), p) && q[|q| - 1] == p[|p| - 1] <==> KeyFor(r, q) == KeyFor(s, p)
  {
    ReachFromRoot(r, q);
    ReachFromRoot(s, p);
    assert q == q[..|q| - 1] + [q[|q| - 1]];
    assert p == p[..|p| - 1] + [p[|p| - 1]];
  }

  // ---- writing the tree ----

  /** Nothing outside the tables matters. */
  lemma {:induction false} AgreeingMemory(depth: nat, mem: seq<Word>, mem': seq<Word>, tabs: TableMap)
    requires Wf(depth, mem, tabs) && |mem'| == |mem|
    requires forall k, i: nat | k in tabs && i < 512 :: Entry(mem', tabs[k], i) == Entry(mem, tabs[k], i)
    ensures Wf(depth, mem', tabs)
    ensures forall k, rest | k in tabs && rest != [] && |k.path| + |rest| == depth && InRange(rest) ::
              Leaf(mem', tabs[k], rest) == Leaf(mem, tabs[k], rest)
  {
    forall k, i: nat | k in tabs && i < 512 && |k.path| + 1 < depth ensures EntryOk(mem', tabs, k, i) {
      assert EntryOk(mem, tabs, k, i);
    }
    forall k, rest | k in tabs && rest != [] && |k.path| + |rest| == depth && InRange(rest)
      ensures Leaf(mem', tabs[k], rest) == Leaf(mem, tabs[k], rest)
    {
      AgreeingLeaf(depth, mem, mem', tabs, k, rest);
    }
  }

  lemma {:induction false} AgreeingLeaf(depth: nat, mem: seq<Word>, mem': seq<Word>, tabs: TableMap, k: Key,
                                        rest: seq<nat>)
    requires Wf(depth, mem, tabs) && Wf(depth, mem', tabs)
    requires forall k, i: nat | k in tabs && i < 512 :: Entry(mem', tabs[k], i) == Entry(mem, tabs[k], i)
    requires k in tabs && |k.path| + |rest| == depth && rest != [] && InRange(rest)
    ensures Leaf(mem', tabs[k], rest) == Leaf(mem, tabs[k], rest)
    decreases |rest|
  {
    if |rest| > 1 {
      LeafStep(depth, mem, tabs, k, rest);
      LeafStep(depth, mem', tabs, k, rest);
      var c := Child(k, rest[0]);
      if c in tabs {
        AgreeingLeaf(depth, mem, mem', tabs, c, rest[1..]);
      }
    }
  }

  lemma ChildInjective(k: Key, i: nat, j: Key, n: nat)
    requires Child(k, i) == Child(j, n)
    ensures i == n && (k == j || (k.path == [] && j.path == [] && i >= 256))
  {
    assert |Child(k, i).path| == |k.path| + 1 && |Child(j, n).path| == |j.path| + 1;
    if k.path == [] {
      assert Child(k, i).path[0] == i && Child(j, n).path[0] == n;
    } else {
      assert (k.path + [i])[..|k.path|] == k.path && (j.path + [n])[..|j.path|] == j.path;
      assert (k.path + [i])[|k.path|] == i && (j.path + [n])[|j.path|] == n;
    }
  }

  /** `mem'` is `mem` with the fresh zeroed table `f` hung below entry `i` of table `k`. */
  ghost predicate Hangs(depth: nat, mem: seq<Word>, mem': seq<Word>, tabs: TableMap, k: Key, i: nat, f: nat) {
    && Wf(depth, mem, tabs) && k in tabs && i < 512 && |k.path| + 1 < depth && Child(k, i) !in tabs
    && f < FRAMES && f * 512 + 512 <= |mem| && (forall j | j in tabs :: tabs[j] != f)
    && (forall n: nat | n < 512 :: Entry(mem, f, n) == 0)
    && Pointer(f) < 0x1_0000_0000_0000_0000 && mem' == mem[tabs[k] * 512 + i := Pointer(f)]
  }

  /** `get_next_level` hanging a fresh zeroed table `f` below entry `i` of table `k`: the tree stays
      well formed, and no walk finds anything new. */
  lemma AddTable(depth: nat, mem: seq<Word>, mem': seq<Word>, tabs: TableMap, k: Key, i: nat, f: nat)
    requires Hangs(depth, mem, mem', tabs, k, i, f)
    ensures Wf(depth, mem', tabs[Child(k, i) := f])
    ensures forall j, rest | j in tabs && rest != [] && |j.path| + |rest| == depth && InRange(rest) ::
              Leaf(mem', tabs[j], rest) == Leaf(mem, tabs[j], rest)
  {
    var c := Child(k, i);
    var tabs' := tabs[c := f];
    AddTableWf(depth, mem, mem', tabs, k, i, f);
    forall j, rest | j in tabs && rest != [] && |j.path| + |rest| == depth && InRange(rest)
      ensures Leaf(mem', tabs[j], rest) == Leaf(mem, tabs[j], rest)
    {
      AddTableLeaf(depth, mem, mem', tabs, k, i, f, j, rest);
    }
  }

  lemma AddTableEntry(depth: nat, mem: seq<Word>, mem': seq<Word>, tabs: TableMap, k: Key, i: nat, f: nat, j: Key,
                      n: nat)
    requires Hangs(depth, mem, mem', tabs, k, i, f)
    requires j in tabs && n < 512 && |j.path| + 1 < depth
    ensures EntryOk(mem', tabs[Child(k, i) := f], j, n)
  {
    var c := Child(k, i);
    assert EntryOk(mem, tabs, j, n);
    if Child(j, n) == c {
      ChildInjective(j, n, k, i);
      assert c == Key(Shared, [i]) ==> SoleRoot(tabs);
      assert j == k;
    } else {
      assert j == k ==> n != i;
      assert Entry(mem', tabs[j], n) == Entry(mem, tabs[j], n);
    }
  }

  lemma AddTableFresh(depth: nat, mem: seq<Word>, mem': seq<Word>, tabs: TableMap, k: Key, i: nat, f: nat, n: nat)
    requires Hangs(depth, mem, mem', tabs, k, i, f) && n < 512
    ensures EntryOk(mem', tabs[Child(k, i) := f], Child(k, i), n)
  {
    assert Parent(Child(Child(k, i), n)) == Child(k, i);
    assert Entry(mem', f, n) == Entry(mem, f, n);
  }

  lemma AddTableWf(depth: nat, mem: seq<Word>, mem': seq<Word>, tabs: TableMap, k: Key, i: nat, f: nat)
    requires Hangs(depth, mem, mem', tabs, k, i, f)
    ensures Wf(depth, mem', tabs[Child(k, i) := f])
  {
    var c := Child(k, i);
    var tabs' := tabs[c := f];
    assert |c.path| == |k.path| + 1;
    assert |c.path| > 1 ==> Parent(c) == k;
    forall j, n: nat | j in tabs' && n < 512 && |j.path| + 1 < depth ensures EntryOk(mem', tabs', j, n) {
      if j == c {
        AddTableFresh(depth, mem, mem', tabs, k, i, f, n);
      } else {
        AddTableEntry(depth, mem, mem', tabs, k, i, f, j, n);
      }
    }
  }

  lemma {:induction false} AddTableLeaf(depth: nat, mem: seq<Word>, mem': seq<Word>, tabs: TableMap, k: Key, i: nat,
                                        f: nat,
                                        j: Key, rest: seq<nat>)
    requires Hangs(depth, mem, mem', tabs, k, i, f)
    requires Wf(depth, mem', tabs[Child(k, i) := f])
    requires j in tabs && rest != [] && |j.path| + |rest| == depth && InRange(rest)
    ensures Leaf(mem', tabs[j], rest) == Leaf(mem, tabs[j], rest)
    decreases |rest|
  {
    var c, d, tabs' := Child(k, i), Child(j, rest[0]), tabs[Child(k, i) := f];
    if |rest| == 1 {
      OtherLeaf(depth, mem, mem', tabs, k, i, f, j, rest);
    } else {
      LeafStep(depth, mem, tabs, j, rest);
      LeafStep(depth, mem', tabs', j, rest);
      if d in tabs {
        AddTableLeaf(depth, mem, mem', tabs, k, i, f, d, rest[1..]);
      } else if d == c {
        HungLeaf(depth, mem, mem', tabs, k, i, f, rest[1..]);
      }
    }
  }

  /** The new table is blank, and the entry that points at it is none of the last level. */
  lemma HungLeaf(depth: nat, mem: seq<Word>, mem': seq<Word>, tabs: TableMap, k: Key, i: nat, f: nat, rest: seq<nat>)
    requires Hangs(depth, mem, mem', tabs, k, i, f) && rest != [] && InRange(rest)
    ensures Leaf(mem', f, rest) == 0
  {
    assert Entry(mem', f, rest[0]) == Entry(mem, f, rest[0]) == 0;
  }

  lemma OtherLeaf(depth: nat, mem: seq<Word>, mem': seq<Word>, tabs: TableMap, k: Key, i: nat, f: nat,
                  j: Key, rest: seq<nat>)
    requires Hangs(depth, mem, mem', tabs, k, i, f) && j in tabs && |j.path| + 1 == depth
    requires |rest| == 1 && InRange(rest)
    ensures Leaf(mem', tabs[j], rest) == Leaf(mem, tabs[j], rest)
  {
    assert tabs[j] != tabs[k];
  }

  /** The last write of `vmm_map_page`: storing `v` in entry `i` of last-level table `k` changes what
      the walks that end there find, and nothing else. */
  lemma SetLeaf(depth: nat, mem: seq<Word>, mem': seq<Word>, tabs: TableMap, k: Key, i: nat, v: Word)
    requires Wf(depth, mem, tabs) && k in tabs && i < 512 && |k.path| + 1 == depth
    requires mem' == mem[tabs[k] * 512 + i := v]
    ensures Wf(depth, mem', tabs)
    ensures forall j, rest | j in tabs && rest != [] && |j.path| + |rest| == depth && InRange(rest) ::
              Leaf(mem', tabs[j], rest)
              == (if k == Reach(j, rest) && i == rest[|rest| - 1] then v else Leaf(mem, tabs[j], rest))
  {
    forall j, n: nat | j in tabs && n < 512 && |j.path| + 1 < depth ensures EntryOk(mem', tabs, j, n) {
      assert EntryOk(mem, tabs, j, n);
    }
    forall j, rest | j in tabs && rest != [] && |j.path| + |rest| == depth && InRange(rest)
      ensures Leaf(mem', tabs[j], rest)
           == if k == Reach(j, rest) && i == rest[|rest| - 1] then v else Leaf(mem, tabs[j], rest)
    {
      SetLeafOne(depth, mem, mem', tabs, k, i, v, j, rest);
    }
  }

  lemma {:induction false} SetLeafOne(depth: nat, mem: seq<Word>, mem': seq<Word>, tabs: TableMap, k: Key, i: nat,
                                      v: Word,
                                      j: Key, rest: seq<nat>)
    requires Wf(depth, mem, tabs) && Wf(depth, mem', tabs) && k in tabs && i < 512 && |k.path| + 1 == depth
    requires mem' == mem[tabs[k] * 512 + i := v]
    requires j in tabs && rest != [] && |j.path| + |rest| == depth && InRange(rest)
    ensures Leaf(mem', tabs[j], rest)
         == if k == Reach(j, rest) && i == rest[|rest| - 1] then v else Leaf(mem, tabs[j], rest)
    decreases |rest|
  {
    if |rest| == 1 {
      SetLeafHere(depth, mem, mem', tabs, k, i, v, j, rest);
    } else {
      LeafStep(depth, mem, tabs, j, rest);
      LeafStep(depth, mem', tabs, j, rest);
      var d := Child(j, rest[0]);
      if d in tabs {
        SetLeafOne(depth, mem, mem', tabs, k, i, v, d, rest[1..]);
      } else {
        ReachedIsPresent(depth, mem, tabs, k, d, rest[1..]);
      }
      ReachBelow(k, i, j, rest);
    }
  }

  /** Whether a walk ends in an entry is decided one level down. */
  lemma ReachBelow(k: Key, i: nat, j: Key, rest: seq<nat>)
    requires |rest| > 1
    ensures Reach(j, rest) == Reach(Child(j, rest[0]), rest[1..]) && rest[1..][|rest[1..]| - 1] == rest[|rest| - 1]
  {}

  /** At the last level: two tables share no entry. */
  lemma SetLeafHere(depth: nat, mem: seq<Word>, mem': seq<Word>, tabs: TableMap, k: Key, i: nat, v: Word, j: Key,
                    rest: seq<nat>)
    requires Wf(depth, mem, tabs) && k in tabs && i < 512 && mem' == mem[tabs[k] * 512 + i := v]
    requires j in tabs && |rest| == 1 && InRange(rest)
    ensures Leaf(mem', tabs[j], rest) == if k == Reach(j, rest) && i == rest[0] then v else Leaf(mem, tabs[j], rest)
  {
    assert k != j ==> tabs[k] != tabs[j];
  }

  /** A walk that leaves the tree never reaches a table of it. */
  lemma {:induction false} ReachedIsPresent(depth: nat, mem: seq<Word>, tabs: TableMap, k: Key, d: Key, rest: seq<nat>)
    requires Wf(depth, mem, tabs) && k in tabs && d !in tabs && d.path != [] && rest != []
    ensures Reach(d, rest) != k
    decreases |rest|
  {
    if |rest| > 1 {
      var e := Child(d, rest[0]);
      assert Parent(e) == d;
      ReachedIsPresent(depth, mem, tabs, k, e, rest[1..]);
    }
  }
}
