/**
 `vmm_map_page` on several CPUs at once, over memory as words: as long as no table is lost, the tables stay an unaliased
 tree, and the walks find what the abstract page map holds after the same calls, one after another in the order in which
 they stored their last-level entries.
 */
module TableReplay {
  import opened Bits
  import opened PageRuns
  import opened Paging
  import opened Tables
  import opened Vmm
  import opened Sharing
  import opened TableWords
  import Race = TableRace
  import Spans

  /** The place of the table a CPU is at. */
  function PlaceOf(pc: Pc): Key
    requires !pc.Out? && pc.d < |pc.path|
  {
    KeyFor(Root(pc.call), pc.path[..pc.d])
  }

  lemma NextPlace(root: nat, path: seq<nat>, d: nat)
    requires d < |path|
    ensures Child(KeyFor(root, path[..d]), path[d]) == KeyFor(root, path[..d + 1])
    ensures |KeyFor(root, path[..d]).path| == d
  {
    assert path[..d + 1] == path[..d] + [path[d]];
  }

  /** The CPU is at a table of the tree, and a page it fills is none. */
  ghost predicate OnTree(m: Machine, s: State, tabs: TableMap, pc: Pc) {
    pc.Out? ||
    (&& Root(pc.call) in s.roots && IsPath(m.Depth(), pc.path) && pc.d < m.Depth() && (pc.Down? || pc.d + 1 < m.Depth())
     && PlaceOf(pc) in tabs && tabs[PlaceOf(pc)] == pc.at
     && (pc.Filling? ==> (forall k | k in tabs :: tabs[k] != pc.page) && ZeroedTo(s.mem, pc.page, pc.done)))
  }

  /** The tables are a tree, with every CPU on it. */
  ghost predicate Tree(m: Machine, s: State, tabs: TableMap) {
    && Backed(m, s) && Wf(m.Depth(), s.mem, tabs)
    && (forall k | k in tabs :: tabs[k] in s.tables)
    && (forall r | r in s.roots :: RootKey(r) in tabs)
    && (forall i | 0 <= i < |s.cpus| :: OnTree(m, s, tabs, s.cpus[i]))
    && (forall i, j | 0 <= i < j < |s.cpus| && s.cpus[i].Filling? && s.cpus[j].Filling? ::
          s.cpus[i].page != s.cpus[j].page)
  }

  /** The page a CPU fills is as it was, and still no table. */
  ghost predicate FillKept(s': State, tabs': TableMap, pc: Pc) {
    pc.Filling? ==> (forall k | k in tabs' :: tabs'[k] != pc.page) && ZeroedTo(s'.mem, pc.page, pc.done)
  }

  /** A step of CPU `i`, the others staying where they are. */
  lemma TreeNext(m: Machine, s: State, s': State, tabs: TableMap, tabs': TableMap, i: nat, pc: Pc)
    requires Tree(m, s, tabs) && i < |s.cpus| && s'.cpus == s.cpus[i := pc] && s'.roots == s.roots
    requires Extends(tabs, tabs')
    requires Backed(m, s') && Wf(m.Depth(), s'.mem, tabs') && forall k | k in tabs' :: tabs'[k] in s'.tables
    requires OnTree(m, s', tabs', pc)
    requires forall j | 0 <= j < |s.cpus| && j != i :: FillKept(s', tabs', s.cpus[j])
    requires pc.Filling? ==> forall j | 0 <= j < |s.cpus| && j != i && s.cpus[j].Filling? :: s.cpus[j].page != pc.page
    ensures Tree(m, s', tabs')
  {
    forall j | 0 <= j < |s.cpus| ensures OnTree(m, s', tabs', s'.cpus[j]) {
      assert OnTree(m, s, tabs, s.cpus[j]);
      assert j != i ==> FillKept(s', tabs', s.cpus[j]);
    }
    forall r | r in s'.roots ensures RootKey(r) in tabs' {
      assert RootKey(r) in tabs;
    }
  }

  /** Every CPU follows the indices of its call's address. */
  ghost predicate Pathed(m: Machine, s: State) { forall i | 0 <= i < |s.cpus| :: HasPath(m, s.cpus[i]) }

  predicate HasPath(m: Machine, pc: Pc) { pc.Out? || pc.path == PathOf(m.la57, pc.call.req.virt) }

  lemma PathedStep(m: Machine, s: State, a: Action)
    requires Pathed(m, s) && Enabled(m, s, a)
    ensures Pathed(m, Next(m, s, a))
  {
    var s' := Next(m, s, a);
    forall i | 0 <= i < |s.cpus| ensures HasPath(m, s'.cpus[i]) {
      assert HasPath(m, s.cpus[i]);
      assert i == a.cpu && !a.Enter? && !s'.cpus[i].Out? ==>
               s'.cpus[i].path == s.cpus[i].path && s'.cpus[i].call == s.cpus[i].call;
    }
  }

  /** What a step does to the walks: the last-level store is its call's request, anything else is nothing. */
  ghost predicate Effect(m: Machine, s: State, a: Action, tabs: TableMap)
    requires Enabled(m, s, a)
  {
    var mem' := Next(m, s, a).mem;
    if a.Put? then Updated(m.la57, s.mem, mem', tabs, Root(s.cpus[a.cpu].call), [s.cpus[a.cpu].call.req])
    else SameLeaves(m.Depth(), s.mem, mem', tabs)
  }

  lemma FillsKept(m: Machine, s: State, tabs: TableMap, s': State)
    requires Tree(m, s, tabs) && s'.mem == s.mem
    ensures forall j | 0 <= j < |s.cpus| :: FillKept(s', tabs, s.cpus[j])
  {
    forall j | 0 <= j < |s.cpus| ensures FillKept(s', tabs, s.cpus[j]) {
      assert OnTree(m, s, tabs, s.cpus[j]);
    }
  }

  lemma EnterTree(m: Machine, s: State, tabs: TableMap, a: Action)
    requires Tree(m, s, tabs) && Enabled(m, s, a) && a.Enter?
    ensures Tree(m, Next(m, s, a), tabs)
  {
    var s', root := Next(m, s, a), Root(a.call);
    BackedStep(m, s, a);
    FillsKept(m, s, tabs, s');
    assert s'.cpus[a.cpu].path[..0] == [] && RootKey(root) in tabs && tabs[RootKey(root)] == root;
    TreeNext(m, s, s', tabs, tabs, a.cpu, s'.cpus[a.cpu]);
  }

  lemma GrantTree(m: Machine, s: State, tabs: TableMap, a: Action)
    requires Tree(m, s, tabs) && Enabled(m, s, a) && a.Grant?
    ensures Tree(m, Next(m, s, a), tabs)
  {
    var s' := Next(m, s, a);
    BackedStep(m, s, a);
    FillsKept(m, s, tabs, s');
    GrantedIsNew(m, s);
    assert OnTree(m, s, tabs, s.cpus[a.cpu]);
    TreeNext(m, s, s', tabs, tabs, a.cpu, s'.cpus[a.cpu]);
  }

  /** Reading an entry leads to the table of the place below it. */
  lemma LookTree(m: Machine, s: State, tabs: TableMap, a: Action)
    requires Tree(m, s, tabs) && Enabled(m, s, a) && a.Look?
    ensures Tree(m, Next(m, s, a), tabs)
  {
    var s', pc := Next(m, s, a), s.cpus[a.cpu];
    BackedStep(m, s, a);
    FillsKept(m, s, tabs, s');
    assert OnTree(m, s, tabs, pc);
    FollowsTree(m, s, tabs, a.cpu);
    var d := Child(PlaceOf(pc), pc.path[pc.d]);
    LookedOnTree(m, s, s', tabs, pc, if d in tabs then Some(tabs[d]) else None);
    TreeNext(m, s, s', tabs, tabs, a.cpu, s'.cpus[a.cpu]);
  }

  lemma LookedOnTree(m: Machine, s: State, s': State, tabs: TableMap, pc: Pc, f: Option<nat>)
    requires OnTree(m, s, tabs, pc) && pc.Down? && pc.d + 1 < |pc.path| && s'.roots == s.roots
    requires var d := Child(PlaceOf(pc), pc.path[pc.d]); f == if d in tabs then Some(tabs[d]) else None
    ensures OnTree(m, s', tabs, Looked(pc, f))
  {
    NextPlace(Root(pc.call), pc.path, pc.d);
  }

  lemma FollowsTree(m: Machine, s: State, tabs: TableMap, c: nat)
    requires Wf(m.Depth(), s.mem, tabs) && c < |s.cpus| && !s.cpus[c].Out? && OnTree(m, s, tabs, s.cpus[c])
    requires s.cpus[c].d + 1 < m.Depth()
    ensures var d := Child(PlaceOf(s.cpus[c]), s.cpus[c].path[s.cpus[c].d]);
      Follow(Read(s.mem, EntryOf(s.cpus[c]))) == if d in tabs then Some(tabs[d]) else None
  {
    EntryReads(m, s, tabs, c);
    var d := Child(PlaceOf(s.cpus[c]), s.cpus[c].path[s.cpus[c].d]);
    FollowsWord(Read(s.mem, EntryOf(s.cpus[c])), if d in tabs then Some(tabs[d]) else None);
  }

  lemma FollowsWord(e: Word, f: Option<nat>)
    requires if f.Some? then f.value < FRAMES && e == Pointer(f.value) else e == 0
    ensures Follow(e) == f
  {
    if f.Some? {
      FollowPointer(f.value);
    } else {
      FollowZero();
    }
  }

  lemma EntryReads(m: Machine, s: State, tabs: TableMap, c: nat)
    requires Wf(m.Depth(), s.mem, tabs) && c < |s.cpus| && !s.cpus[c].Out? && OnTree(m, s, tabs, s.cpus[c])
    requires s.cpus[c].d + 1 < m.Depth()
    ensures var d, e := Child(PlaceOf(s.cpus[c]), s.cpus[c].path[s.cpus[c].d]), Read(s.mem, EntryOf(s.cpus[c]));
      if d in tabs then tabs[d] < FRAMES && e == Pointer(tabs[d]) else e == 0
  {
    var pc := s.cpus[c];
    NextPlace(Root(pc.call), pc.path, pc.d);
    assert EntryOk(s.mem, tabs, PlaceOf(pc), pc.path[pc.d]);
  }

  /** A store to a page that is no table of the tree. */
  lemma StoreOutside(m: Machine, mem: seq<Word>, tabs: TableMap, p: nat, i: nat, v: Word)
    requires Wf(m.Depth(), mem, tabs) && i < 512 && forall k | k in tabs :: tabs[k] != p
    ensures var mem' := Write(mem, p * 512 + i, v); Wf(m.Depth(), mem', tabs) && SameLeaves(m.Depth(), mem, mem', tabs)
  {
    var mem' := Write(mem, p * 512 + i, v);
    forall k, j: nat | k in tabs && j < 512 ensures Entry(mem', tabs[k], j) == Entry(mem, tabs[k], j) {
      OtherPage(p, i, tabs[k], j);
    }
    AgreeingMemory(m.Depth(), mem, mem', tabs);
  }

  lemma ElsewhereTree(m: Machine, s: State, tabs: TableMap, a: Action)
    requires Tree(m, s, tabs) && Enabled(m, s, a) && a.Elsewhere?
    ensures Tree(m, Next(m, s, a), tabs)
  {
    var s' := Next(m, s, a);
    BackedStep(m, s, a);
    FillsKept(m, s, tabs, s');
    assert OnTree(m, s, tabs, s.cpus[a.cpu]) && FillKept(s', tabs, s.cpus[a.cpu]);
    assert s.cpus[a.cpu := s.cpus[a.cpu]] == s.cpus;
    TreeNext(m, s, s', tabs, tabs, a.cpu, s.cpus[a.cpu]);
  }

  lemma StoreTree(m: Machine, s: State, tabs: TableMap, a: Action)
    requires Tree(m, s, tabs) && Enabled(m, s, a) && a.Store?
    ensures Tree(m, Next(m, s, a), tabs) && SameLeaves(m.Depth(), s.mem, Next(m, s, a).mem, tabs)
  {
    var s' := Next(m, s, a);
    BackedStep(m, s, a);
    StoreElsewhere(m, s.mem, tabs, a.x, a.v);
    FillsElsewhere(m, s, tabs, a.x, a.v, s');
    assert OnTree(m, s, tabs, s.cpus[a.cpu]) && FillKept(s', tabs, s.cpus[a.cpu]);
    assert s.cpus[a.cpu := s.cpus[a.cpu]] == s.cpus;
    TreeNext(m, s, s', tabs, tabs, a.cpu, s.cpus[a.cpu]);
  }

  lemma StoreElsewhere(m: Machine, mem: seq<Word>, tabs: TableMap, x: nat, v: Word)
    requires Wf(m.Depth(), mem, tabs) && forall k | k in tabs :: tabs[k] != x / 512
    ensures Wf(m.Depth(), Write(mem, x, v), tabs) && SameLeaves(m.Depth(), mem, Write(mem, x, v), tabs)
  {
    var p, i := x / 512, x % 512;
    assert x == p * 512 + i;
    StoreOutside(m, mem, tabs, p, i, v);
  }

  lemma FillsElsewhere(m: Machine, s: State, tabs: TableMap, x: nat, v: Word, s': State)
    requires Tree(m, s, tabs) && x / 512 !in s.tables && s'.mem == Write(s.mem, x, v)
    ensures forall j | 0 <= j < |s.cpus| :: FillKept(s', tabs, s.cpus[j])
  {
    forall j | 0 <= j < |s.cpus| ensures FillKept(s', tabs, s.cpus[j]) {
      assert OnTree(m, s, tabs, s.cpus[j]);
      if s.cpus[j].Filling? {
        ZeroedStore(m, s, j, x, v);
      }
    }
  }

  /** The other CPUs' pages are others. */
  lemma FillsApart(m: Machine, s: State, tabs: TableMap, i: nat, j: nat)
    requires Tree(m, s, tabs) && i < |s.cpus| && j < |s.cpus| && i != j && s.cpus[i].Filling? && s.cpus[j].Filling?
    ensures s.cpus[i].page != s.cpus[j].page
  {}

  lemma ZeroTree(m: Machine, s: State, tabs: TableMap, a: Action)
    requires Tree(m, s, tabs) && Enabled(m, s, a) && a.ZeroWord?
    ensures Tree(m, Next(m, s, a), tabs) && SameLeaves(m.Depth(), s.mem, Next(m, s, a).mem, tabs)
  {
    var s', pc := Next(m, s, a), s.cpus[a.cpu];
    BackedStep(m, s, a);
    assert OnTree(m, s, tabs, pc);
    FillEnds(m, s, a.cpu);
    ZeroOutside(m, s.mem, tabs, pc.page, pc.done);
    OtherFills(m, s, tabs, a.cpu, s');
    FillsOnTree(m, s, s', tabs, pc);
    OthersFill(m, s, tabs, a.cpu);
    TreeNext(m, s, s', tabs, tabs, a.cpu, s'.cpus[a.cpu]);
  }

  lemma FillsOnTree(m: Machine, s: State, s': State, tabs: TableMap, pc: Pc)
    requires OnTree(m, s, tabs, pc) && pc.Filling? && s'.roots == s.roots && ZeroedTo(s'.mem, pc.page, pc.done + 1)
    ensures OnTree(m, s', tabs, Filling(pc.call, pc.path, pc.d, pc.at, pc.page, pc.done + 1))
  {}

  lemma OthersFill(m: Machine, s: State, tabs: TableMap, i: nat)
    requires Tree(m, s, tabs) && i < |s.cpus| && s.cpus[i].Filling?
    ensures forall j | 0 <= j < |s.cpus| && j != i && s.cpus[j].Filling? :: s.cpus[j].page != s.cpus[i].page
  {}

  /** Zeroing a word of a page that is going to be a table. */
  lemma ZeroOutside(m: Machine, mem: seq<Word>, tabs: TableMap, p: nat, done: nat)
    requires Wf(m.Depth(), mem, tabs) && (forall k | k in tabs :: tabs[k] != p)
    requires ZeroedTo(mem, p, done) && done < 512 && p * 512 + done < |mem|
    ensures var mem' := Write(mem, p * 512 + done, 0);
      Wf(m.Depth(), mem', tabs) && SameLeaves(m.Depth(), mem, mem', tabs) && ZeroedTo(mem', p, done + 1)
  {
    StoreOutside(m, mem, tabs, p, done, 0);
    OneMoreZero(mem, p, done);
  }

  lemma FillEnds(m: Machine, s: State, c: nat)
    requires Backed(m, s) && c < |s.cpus| && s.cpus[c].Filling? && s.cpus[c].done < 512
    ensures s.cpus[c].page * 512 + s.cpus[c].done < |s.mem|
  {
    PageInRange(m, s, s.cpus[c].page);
  }

  lemma OtherFills(m: Machine, s: State, tabs: TableMap, c: nat, s': State)
    requires Tree(m, s, tabs) && c < |s.cpus| && s.cpus[c].Filling? && s.cpus[c].done < 512
    requires s'.mem == Write(s.mem, s.cpus[c].page * 512 + s.cpus[c].done, 0)
    ensures forall j | 0 <= j < |s.cpus| && j != c :: FillKept(s', tabs, s.cpus[j])
  {
    forall j | 0 <= j < |s.cpus| && j != c ensures FillKept(s', tabs, s.cpus[j]) {
      assert OnTree(m, s, tabs, s.cpus[j]);
      if s.cpus[j].Filling? {
        FillsApart(m, s, tabs, j, c);
        ZeroedOther(s.mem, s.cpus[j].page, s.cpus[j].done, s.cpus[c].page * 512 + s.cpus[c].done, 0);
      }
    }
  }

  /** A store to a table leaves the pages being filled. */
  lemma FillsBeside(m: Machine, s: State, tabs: TableMap, tabs': TableMap, s': State, c: nat, v: Word)
    requires Tree(m, s, tabs) && c < |s.cpus| && !s.cpus[c].Out? && s.cpus[c].d < |s.cpus[c].path|
    requires s'.mem == Write(s.mem, EntryOf(s.cpus[c]), v)
    requires forall k | k in tabs' :: k in tabs || (s.cpus[c].Filling? && tabs'[k] == s.cpus[c].page)
    requires Extends(tabs, tabs')
    ensures forall j | 0 <= j < |s.cpus| && j != c :: FillKept(s', tabs', s.cpus[j])
  {
    var pc := s.cpus[c];
    assert OnTree(m, s, tabs, pc);
    forall j | 0 <= j < |s.cpus| && j != c ensures FillKept(s', tabs', s.cpus[j]) {
      assert OnTree(m, s, tabs, s.cpus[j]);
      if s.cpus[j].Filling? {
        if pc.Filling? {
          FillsApart(m, s, tabs, j, c);
        }
        OtherPage(pc.at, pc.path[pc.d], s.cpus[j].page, 0);
        ZeroedOther(s.mem, s.cpus[j].page, s.cpus[j].done, EntryOf(pc), v);
      }
    }
  }

  /** The table is hung where there was none. */
  lemma HangTree(m: Machine, s: State, tabs: TableMap, a: Action) returns (tabs': TableMap)
    requires Tree(m, s, tabs) && Enabled(m, s, a) && a.Hang? && !Loses(m, s, a)
    ensures Tree(m, Next(m, s, a), tabs') && Extends(tabs, tabs')
    ensures SameLeaves(m.Depth(), s.mem, Next(m, s, a).mem, tabs)
  {
    var s', pc := Next(m, s, a), s.cpus[a.cpu];
    assert OnTree(m, s, tabs, pc);
    FollowsTree(m, s, tabs, a.cpu);
    tabs' := Hung(m, s, tabs, a.cpu);
    BackedStep(m, s, a);
    FillsBeside(m, s, tabs, tabs', s', a.cpu, Link(pc.page));
    HungOnTree(m, s, s', tabs, tabs', pc);
    TreeNext(m, s, s', tabs, tabs', a.cpu, s'.cpus[a.cpu]);
  }

  lemma HungOnTree(m: Machine, s: State, s': State, tabs: TableMap, tabs': TableMap, pc: Pc)
    requires OnTree(m, s, tabs, pc) && pc.Filling? && s'.roots == s.roots
    requires var k := KeyFor(Root(pc.call), pc.path[..pc.d + 1]); k in tabs' && tabs'[k] == pc.page
    ensures OnTree(m, s', tabs', Down(pc.call, pc.path, pc.d + 1, pc.page))
  {}

  lemma Hung(m: Machine, s: State, tabs: TableMap, c: nat) returns (tabs': TableMap)
    requires Tree(m, s, tabs) && c < |s.cpus| && s.cpus[c].Filling? && s.cpus[c].done == 512
    requires s.cpus[c].d < |s.cpus[c].path| && Child(PlaceOf(s.cpus[c]), s.cpus[c].path[s.cpus[c].d]) !in tabs
    ensures var pc := s.cpus[c];
      var mem' := Write(s.mem, EntryOf(pc), Link(pc.page));
      && Wf(m.Depth(), mem', tabs') && SameLeaves(m.Depth(), s.mem, mem', tabs) && Extends(tabs, tabs')
      && (forall k | k in tabs' :: tabs'[k] in s.tables && (k in tabs || tabs'[k] == pc.page))
      && var k := KeyFor(Root(pc.call), pc.path[..pc.d + 1]); k in tabs' && tabs'[k] == pc.page
  {
    var pc := s.cpus[c];
    var k, i := PlaceOf(pc), pc.path[pc.d];
    NextPlace(Root(pc.call), pc.path, pc.d);
    HungHangs(m, s, tabs, c);
    AddTable(m.Depth(), s.mem, Write(s.mem, EntryOf(pc), Link(pc.page)), tabs, k, i, pc.page);
    tabs' := tabs[Child(k, i) := pc.page];
  }

  lemma HungHangs(m: Machine, s: State, tabs: TableMap, c: nat)
    requires Tree(m, s, tabs) && c < |s.cpus| && s.cpus[c].Filling? && s.cpus[c].done == 512
    requires s.cpus[c].d < |s.cpus[c].path|
    requires Child(PlaceOf(s.cpus[c]), s.cpus[c].path[s.cpus[c].d]) !in tabs
    ensures var pc := s.cpus[c];
      Hangs(m.Depth(), s.mem, Write(s.mem, EntryOf(pc), Link(pc.page)), tabs, PlaceOf(pc), pc.path[pc.d], pc.page)
  {
    var pc := s.cpus[c];
    assert OnTree(m, s, tabs, pc);
    NextPlace(Root(pc.call), pc.path, pc.d);
    PageInRange(m, s, pc.page);
    LinkIs(pc.page);
  }

  /** The last-level entry is stored where the walk ends. */
  lemma PutTree(m: Machine, s: State, tabs: TableMap, a: Action)
    requires Tree(m, s, tabs) && Enabled(m, s, a) && a.Put?
    ensures Tree(m, Next(m, s, a), tabs) && LeafPut(m, s.mem, Next(m, s, a).mem, tabs, s.cpus[a.cpu])
  {
    var s', pc := Next(m, s, a), s.cpus[a.cpu];
    assert OnTree(m, s, tabs, pc);
    PutSets(m, s, tabs, pc);
    BackedStep(m, s, a);
    FillsBeside(m, s, tabs, tabs, s', a.cpu, OrWords(pc.call.req.phys, pc.call.req.flags));
    TreeNext(m, s, s', tabs, tabs, a.cpu, Out);
  }

  ghost predicate LeafPut(m: Machine, mem: seq<Word>, mem': seq<Word>, tabs: TableMap, pc: Pc)
    requires !pc.Out? && pc.d < |pc.path|
  {
    LeafSet(m.Depth(), mem, mem', tabs, PlaceOf(pc), pc.path[pc.d], OrWords(pc.call.req.phys, pc.call.req.flags))
  }

  lemma PutSets(m: Machine, s: State, tabs: TableMap, pc: Pc)
    requires Wf(m.Depth(), s.mem, tabs) && OnTree(m, s, tabs, pc) && pc.Down? && pc.d + 1 == |pc.path|
    ensures var mem' := Write(s.mem, EntryOf(pc), OrWords(pc.call.req.phys, pc.call.req.flags));
      Wf(m.Depth(), mem', tabs) && LeafPut(m, s.mem, mem', tabs, pc)
  {
    NextPlace(Root(pc.call), pc.path, pc.d);
    var v := OrWords(pc.call.req.phys, pc.call.req.flags);
    SetLeaf(m.Depth(), s.mem, Write(s.mem, EntryOf(pc), v), tabs, PlaceOf(pc), pc.path[pc.d], v);
  }

  lemma PutEffect(m: Machine, s: State, tabs: TableMap, a: Action)
    requires Enabled(m, s, a) && a.Put? && Wf(m.Depth(), s.mem, tabs) && HasPath(m, s.cpus[a.cpu])
    requires LeafPut(m, s.mem, Next(m, s, a).mem, tabs, s.cpus[a.cpu])
    ensures Effect(m, s, a, tabs)
  {
    var pc := s.cpus[a.cpu];
    PutUpdates(m, s.mem, Next(m, s, a).mem, tabs, Root(pc.call), pc.call.req);
  }

  lemma PutUpdates(m: Machine, mem: seq<Word>, mem': seq<Word>, tabs: TableMap, root: nat, req: Request)
    requires Wf(m.Depth(), mem, tabs)
    requires var p := PathOf(m.la57, req.virt);
      LeafSet(m.Depth(), mem, mem', tabs, KeyFor(root, p[..|p| - 1]), p[|p| - 1], OrWords(req.phys, req.flags))
    ensures Updated(m.la57, mem, mem', tabs, root, [req])
  {
    ReachFromRoot(root, PathOf(m.la57, req.virt));
    UpdatedOne(m.la57, mem, mem, mem', tabs, tabs, root, req);
  }

  /** Every step that loses no table keeps the tree. */
  lemma StepTree(m: Machine, s: State, tabs: TableMap, a: Action) returns (tabs': TableMap)
    requires Tree(m, s, tabs) && Pathed(m, s) && Enabled(m, s, a) && !Loses(m, s, a)
    ensures Tree(m, Next(m, s, a), tabs') && Pathed(m, Next(m, s, a)) && Extends(tabs, tabs') && Effect(m, s, a, tabs)
  {
    tabs' := tabs;
    PathedStep(m, s, a);
    match a
    case Enter(_, _) => EnterTree(m, s, tabs, a);
    case Look(_) => LookTree(m, s, tabs, a);
    case Grant(_) => GrantTree(m, s, tabs, a);
    case ZeroWord(_) => ZeroTree(m, s, tabs, a);
    case Hang(_) => tabs' := HangTree(m, s, tabs, a);
    case Put(_) =>
      PutTree(m, s, tabs, a);
      PutEffect(m, s, tabs, a);
    case Elsewhere(_, _) => ElsewhereTree(m, s, tabs, a);
    case Store(_, _, _) => StoreTree(m, s, tabs, a);
  }

  // ---- runs ----

  /** The calls that have stored their last-level entries, in that order. */
  ghost function Puts(m: Machine, s: State, actions: seq<Action>): seq<Call>
    requires Runs(m, s, actions)
    decreases |actions|
  {
    if actions == [] then []
    else
      var k := |actions| - 1;
      Puts(m, s, actions[..k])
      + (if actions[k].Put? then [After(m, s, actions[..k]).cpus[actions[k].cpu].call] else [])
  }

  lemma LosslessPrefix(m: Machine, s: State, actions: seq<Action>)
    requires Runs(m, s, actions) && Lossless(m, s, actions) && actions != []
    ensures var k := |actions| - 1; Lossless(m, s, actions[..k]) && !Loses(m, After(m, s, actions[..k]), actions[k])
  {
    var k := |actions| - 1;
    assert !LosesAt(m, s, actions, k);
    forall l: nat ensures !LosesAt(m, s, actions[..k], l) {
      assert !LosesAt(m, s, actions, l);
      assert l <= k ==> actions[..k][..l] == actions[..l];
    }
  }

  /** In a run that loses no table the tables stay a tree, and the walks find what the abstract page map holds after the
      calls that have stored their entries, one after another in that order. */
  lemma {:induction false} RunReplays(m: Machine, s: State, tabs: TableMap, actions: seq<Action>)
    returns (tabs': TableMap)
    requires Tree(m, s, tabs) && Pathed(m, s) && Runs(m, s, actions) && Lossless(m, s, actions)
    ensures Tree(m, After(m, s, actions), tabs') && Pathed(m, After(m, s, actions)) && Extends(tabs, tabs')
    ensures Replayed(m.la57, s.mem, After(m, s, actions).mem, tabs, Puts(m, s, actions))
    decreases |actions|
  {
    tabs' := tabs;
    if actions != [] {
      var k := |actions| - 1;
      LosslessPrefix(m, s, actions);
      var mid := RunReplays(m, s, tabs, actions[..k]);
      var u := After(m, s, actions[..k]);
      tabs' := StepTree(m, u, mid, actions[k]);
      StepReplays(m, s.mem, u, tabs, mid, Puts(m, s, actions[..k]), actions[k]);
    }
  }

  lemma StepReplays(m: Machine, mem: seq<Word>, u: State, tabs: TableMap, mid: TableMap, calls: seq<Call>, a: Action)
    requires Replayed(m.la57, mem, u.mem, tabs, calls) && Extends(tabs, mid) && Wf(m.Depth(), u.mem, mid)
    requires Enabled(m, u, a) && Effect(m, u, a, mid)
    ensures Replayed(m.la57, mem, Next(m, u, a).mem, tabs, calls + if a.Put? then [u.cpus[a.cpu].call] else [])
  {
    if a.Put? {
      ReplayedMap(m.la57, mem, u.mem, Next(m, u, a).mem, tabs, mid, calls, u.cpus[a.cpu].call);
    } else {
      ReplayedQuiet(m.la57, mem, u.mem, Next(m, u, a).mem, tabs, mid, calls);
      assert calls + [] == calls;
    }
  }

  // ---- where runs start ----

  /** No CPU is in a call, and the tables are a tree of pages of the page allocator. */
  ghost predicate Start(m: Machine, s: State, tabs: TableMap) {
    && Quiet(s) && Backed(m, s) && Wf(m.Depth(), s.mem, tabs) && s.tables == tabs.Values
    && forall r | r in s.roots :: RootKey(r) in tabs
  }

  lemma StartIsTree(m: Machine, s: State, tabs: TableMap)
    requires Start(m, s, tabs)
    ensures Tree(m, s, tabs) && Pathed(m, s)
  {}

  /** Every page has the level of its place. */
  ghost predicate IsLevel(tabs: TableMap, level: map<nat, nat>) {
    level.Keys == tabs.Values && forall k | k in tabs :: tabs[k] in level && level[tabs[k]] == |k.path|
  }

  lemma LevelExists(tabs: TableMap) returns (level: map<nat, nat>)
    requires forall k, j | k in tabs && j in tabs && tabs[k] == tabs[j] :: k == j
    ensures IsLevel(tabs, level)
  {
    level := map k | k in tabs :: tabs[k] := |k.path|;
  }

  /** Slot `x` is an entry above the last level that points at page `f`; a slot of the last level. */
  ghost predicate Points(m: Machine, tabs: TableMap, x: Race.Slot, f: nat) {
    exists k, i: nat :: k in tabs && i < 512 && |k.path| + 1 < m.Depth() && Child(k, i) in tabs
                        && x == Race.Slot(tabs[k], i) && f == tabs[Child(k, i)]
  }

  ghost predicate IsLast(m: Machine, tabs: TableMap, x: Race.Slot) {
    exists k, i: nat :: k in tabs && i < 512 && |k.path| + 1 == m.Depth() && x == Race.Slot(tabs[k], i)
  }

  /** The tree as slots and page numbers. */
  ghost predicate IsSlots(m: Machine, s: State, tabs: TableMap, t: Race.State)
    requires Wf(m.Depth(), s.mem, tabs)
  {
    && SamePlaces(m, s, t) && (forall x | x in t.tables :: Points(m, tabs, x, t.tables[x]))
    && (forall x | x in t.leaves :: IsLast(m, tabs, x))
    && (forall k, i: nat | k in tabs && i < 512 :: WordOf(t, Race.Slot(tabs[k], i)) == Entry(s.mem, tabs[k], i))
  }

  /** Entry `i` of the table at `k` among the pointers, and among the last-level entries. */
  ghost predicate UpperAt(m: Machine, tabs: TableMap, upper: map<Race.Slot, nat>, k: Key, i: nat)
    requires k in tabs
  {
    var x := Race.Slot(tabs[k], i);
    && (x in upper <==> |k.path| + 1 < m.Depth() && Child(k, i) in tabs)
    && (x in upper ==> upper[x] == tabs[Child(k, i)])
  }

  ghost predicate LastAt(m: Machine, mem: seq<Word>, tabs: TableMap, last: map<Race.Slot, Word>, k: Key, i: nat)
    requires k in tabs && tabs[k] * 512 + i < |mem|
  {
    var x := Race.Slot(tabs[k], i);
    (x in last <==> |k.path| + 1 == m.Depth()) && (x in last ==> last[x] == Entry(mem, tabs[k], i))
  }

  lemma UpperExists(m: Machine, tabs: TableMap) returns (upper: map<Race.Slot, nat>)
    requires forall k, j | k in tabs && j in tabs && tabs[k] == tabs[j] :: k == j
    ensures forall x | x in upper :: Points(m, tabs, x, upper[x])
    ensures forall k, i: nat | k in tabs && i < 512 :: UpperAt(m, tabs, upper, k, i)
  {
    upper := map k, i: nat | k in tabs && i < 512 && |k.path| + 1 < m.Depth() && Child(k, i) in tabs ::
      Race.Slot(tabs[k], i) := tabs[Child(k, i)];
    forall x | x in upper ensures Points(m, tabs, x, upper[x]) {
      var k, i: nat :| k in tabs && i < 512 && |k.path| + 1 < m.Depth() && Child(k, i) in tabs
                       && x == Race.Slot(tabs[k], i);
      assert upper[x] == tabs[Child(k, i)];
    }
  }

  lemma LastExists(m: Machine, mem: seq<Word>, tabs: TableMap) returns (last: map<Race.Slot, Word>)
    requires forall k, j | k in tabs && j in tabs && tabs[k] == tabs[j] :: k == j
    requires forall k | k in tabs :: tabs[k] * 512 + 512 <= |mem|
    ensures forall x | x in last :: IsLast(m, tabs, x)
    ensures forall k, i: nat | k in tabs && i < 512 :: LastAt(m, mem, tabs, last, k, i)
  {
    last := map k, i: nat | k in tabs && i < 512 && |k.path| + 1 == m.Depth() ::
      Race.Slot(tabs[k], i) := Entry(mem, tabs[k], i);
  }

  lemma SlotsExist(m: Machine, s: State, tabs: TableMap) returns (t: Race.State)
    requires Wf(m.Depth(), s.mem, tabs)
    ensures IsSlots(m, s, tabs, t)
  {
    var upper := UpperExists(m, tabs);
    var last := LastExists(m, s.mem, tabs);
    t := Race.State(m.Depth(), upper, last, s.roots, s.tables, AbsPcs(s.cpus));
    forall k, i: nat | k in tabs && i < 512 ensures WordOf(t, Race.Slot(tabs[k], i)) == Entry(s.mem, tabs[k], i) {
      assert UpperAt(m, tabs, upper, k, i) && LastAt(m, s.mem, tabs, last, k, i);
      assert |k.path| + 1 < m.Depth() ==> EntryOk(s.mem, tabs, k, i);
    }
  }

  lemma StartLevels(m: Machine, s: State, tabs: TableMap, t: Race.State, level: map<nat, nat>)
    requires Start(m, s, tabs) && IsSlots(m, s, tabs, t) && IsLevel(tabs, level)
    ensures Levelled(t, level) && Race.Inv(t)
  {
    SlotLevels(m, s, tabs, t, level);
    forall r | r in t.roots ensures r in level && level[r] == 0 {
      assert tabs[RootKey(r)] == r;
    }
    assert Race.Quiet(t);
    QuietLevels(t, level);
  }

  /** The levels of the slots. */
  ghost predicate LevelsFit(t: Race.State, level: map<nat, nat>) {
    && (forall x | x in t.tables :: x.table in level && t.tables[x] in level && level[x.table] + 1 < t.depth
                                    && level[t.tables[x]] == level[x.table] + 1)
    && (forall x | x in t.leaves :: x.table in level && level[x.table] + 1 == t.depth)
  }

  lemma SlotLevels(m: Machine, s: State, tabs: TableMap, t: Race.State, level: map<nat, nat>)
    requires Wf(m.Depth(), s.mem, tabs) && IsSlots(m, s, tabs, t) && IsLevel(tabs, level)
    ensures LevelsFit(t, level)
  {
    forall x | x in t.tables
      ensures x.table in level && t.tables[x] in level && level[x.table] + 1 < t.depth
      ensures level[t.tables[x]] == level[x.table] + 1
    {
      PointsDown(m, tabs, level, x, t.tables[x]);
    }
    forall x | x in t.leaves ensures x.table in level && level[x.table] + 1 == t.depth {
      LastDown(m, tabs, level, x);
    }
  }

  lemma QuietLevels(t: Race.State, level: map<nat, nat>)
    requires Race.Quiet(t) && LevelsFit(t, level) && level.Keys == t.pages && t.roots <= t.pages
    requires forall r | r in t.roots :: r in level && level[r] == 0
    ensures Levelled(t, level) && Race.Inv(t)
  {}

  lemma PointsDown(m: Machine, tabs: TableMap, level: map<nat, nat>, x: Race.Slot, f: nat)
    requires IsLevel(tabs, level) && Points(m, tabs, x, f)
    ensures x.table in level && f in level && level[x.table] + 1 < m.Depth() && level[f] == level[x.table] + 1
  {
    var k, i: nat :| k in tabs && i < 512 && |k.path| + 1 < m.Depth() && Child(k, i) in tabs
                     && x == Race.Slot(tabs[k], i) && f == tabs[Child(k, i)];
    assert |Child(k, i).path| == |k.path| + 1;
  }

  lemma LastDown(m: Machine, tabs: TableMap, level: map<nat, nat>, x: Race.Slot)
    requires IsLevel(tabs, level) && IsLast(m, tabs, x)
    ensures x.table in level && level[x.table] + 1 == m.Depth()
  {}

  lemma StartIsRel(m: Machine, s: State, tabs: TableMap) returns (t: Race.State, level: map<nat, nat>)
    requires Start(m, s, tabs)
    ensures Rel(m, s, t, level)
  {
    t := SlotsExist(m, s, tabs);
    level := LevelExists(tabs);
    StartLevels(m, s, tabs, t, level);
    StartWritten(m, s, tabs, t);
  }

  lemma StartWritten(m: Machine, s: State, tabs: TableMap, t: Race.State)
    requires Start(m, s, tabs) && IsSlots(m, s, tabs, t)
    ensures Written(s, t)
  {
    forall p: nat, i: nat | p in s.tables && i < 512 ensures EntryWritten(s.mem, t, p, i) {
      var k :| k in tabs && tabs[k] == p;
      assert WordOf(t, Race.Slot(tabs[k], i)) == Entry(s.mem, tabs[k], i);
    }
  }

  // ---- what every interleaving satisfies ----

  /** From page tables in order a run loses a table if and only if some CPU fills an entry that another CPU has found
      absent and not filled yet, and the other one fills it after that. */
  lemma LosesIffOvertaken(m: Machine, s: State, tabs: TableMap, actions: seq<Action>)
    requires Start(m, s, tabs) && Runs(m, s, actions)
    ensures !Lossless(m, s, actions) <==> exists j: nat, k: nat, c: nat :: Overtakes(m, s, actions, j, k, c)
  {
    var t, level := StartIsRel(m, s, tabs);
    TableWords.LosesIff(m, s, t, level, actions);
  }

  /** If none does, the calls are as if made one after another: what the processor translates is the abstract page map's
      entry after them, in the order in which they stored their entries, at every address of every address space. */
  lemma TranslatesInOrder(m: Machine, s: State, tabs: TableMap, actions: seq<Action>, r: nat, v: nat)
    requires Start(m, s, tabs) && Runs(m, s, actions) && RootKey(r) in tabs && Canonical(m.la57, v)
    requires forall j: nat, k: nat, c: nat :: !Overtakes(m, s, actions, j, k, c)
    ensures Translate(m.la57, After(m, s, actions).mem, r, v)
         == Decode(ReplayCalls(m.la57, Puts(m, s, actions), Spans.PageAt(m.la57, r, v),
                               Leaf(s.mem, r, PathOf(m.la57, v))), v % 4096)
  {
    var tabs' := InOrder(m, s, tabs, actions);
    TranslateReplayed(m.la57, s.mem, After(m, s, actions).mem, tabs, tabs', Puts(m, s, actions), r, v);
  }

  /** In the processor's terms: the last of those calls to map a page decides how its addresses translate. */
  lemma LastPutDecides(m: Machine, s: State, tabs: TableMap, actions: seq<Action>, r: nat, v: nat)
    requires Start(m, s, tabs) && Runs(m, s, actions) && RootKey(r) in tabs && Canonical(m.la57, v)
    requires forall j: nat, k: nat, c: nat :: !Overtakes(m, s, actions, j, k, c)
    requires AllMappable(m.la57, Puts(m, s, actions))
    ensures Decided(m.la57, s.mem, After(m, s, actions).mem, Puts(m, s, actions), r, v)
  {
    var tabs' := InOrder(m, s, tabs, actions);
    LastCallDecides(m.la57, s.mem, After(m, s, actions).mem, tabs, tabs', Puts(m, s, actions), r, v);
  }

  lemma InOrder(m: Machine, s: State, tabs: TableMap, actions: seq<Action>) returns (tabs': TableMap)
    requires Start(m, s, tabs) && Runs(m, s, actions)
    requires forall j: nat, k: nat, c: nat :: !Overtakes(m, s, actions, j, k, c)
    ensures Wf(Depth(m.la57), s.mem, tabs) && Wf(Depth(m.la57), After(m, s, actions).mem, tabs')
    ensures Replayed(m.la57, s.mem, After(m, s, actions).mem, tabs, Puts(m, s, actions)) && Extends(tabs, tabs')
  {
    LosesIffOvertaken(m, s, tabs, actions);
    StartIsTree(m, s, tabs);
    tabs' := RunReplays(m, s, tabs, actions);
  }

  /** With one pagemap, whose lock then guards all tables, every interleaving is such a one. */
  lemma OnePagemapNeverOvertakes(m: Machine, s: State, tabs: TableMap, actions: seq<Action>)
    requires Start(m, s, tabs) && Runs(m, s, actions) && forall r, q | r in s.roots && q in s.roots :: r == q
    ensures forall j: nat, k: nat, c: nat :: !Overtakes(m, s, actions, j, k, c)
  {
    var t, level := StartIsRel(m, s, tabs);
    assert Race.Quiet(t);
    SlotsLostIff(m, s, t, level, actions);
    Race.OnePagemapLosesNothing(t, Images(m, s, actions));
    if j: nat, k: nat, c: nat :| Overtakes(m, s, actions, j, k, c) {
      OvertakesSame(m, s, t, level, actions, j, k, c);
    }
  }

  /** The page tables of `vmm.c` in order, and `n` CPUs in no call. */
  ghost function Begin(pt: PageTables, n: nat): State
    requires pt.pmm.pageCount <= 8 * pt.pmm.bitmap.Length
    reads pt, pt.pmm, pt.pmm.bitmap, pt.pmm.ram
  {
    State(pt.pmm.ram[..], pt.pmm.View(), set k | k in pt.tabs && k.path == [] :: pt.tabs[k], pt.tabs.Values,
          seq(n, _ => Out))
  }

  lemma BeginStarts(pt: PageTables, n: nat)
    requires pt.Valid()
    ensures Start(Machine(pt.la57, pt.pmm.pageCount, pt.pmm.reserved), Begin(pt, n), pt.tabs)
  {}
}
