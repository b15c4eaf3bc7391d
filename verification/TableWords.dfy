/**
 `vmm_map_page` on several CPUs at once, over physical memory as words and pages of the page allocator, while the rest
 of the kernel uses its own pages. The steps are the accesses to memory: reading an entry, being granted a page, zeroing
 a word of it, pointing the entry at it, storing the last-level entry. Word by word this is what `TableRace` says of
 slots and page numbers, so that its exact condition for losing a table holds here.
 */
module TableWords {
  import opened Bits
  import opened PageRuns
  import opened Paging
  import opened Tables
  import opened Vmm
  import opened Sharing
  import Race = TableRace

  /** Where a CPU is: in no call, or in one with the indices `path`, `d` levels down at table `at`; having found the
      entry there absent; having been granted `page` for it, of which `done` words are zeroed. */
  datatype Pc =
    | Out
    | Down(call: Call, path: seq<nat>, d: nat, at: nat)
    | Absent(call: Call, path: seq<nat>, d: nat, at: nat)
    | Filling(call: Call, path: seq<nat>, d: nat, at: nat, page: nat, done: nat)

  /** Physical memory, the page allocator, the pagemaps' top-level tables, the pages that are tables or going to be, the
      CPUs. */
  datatype State = State(mem: seq<Word>, pages: Pages, roots: set<nat>, tables: set<nat>, cpus: seq<Pc>)

  datatype Action =
    | Enter(cpu: nat, call: Call)            // the pagemap's lock is taken
    | Look(cpu: nat)                         // get_next_level reads the entry
    | Grant(cpu: nat)                        // the locked part of pmm_alloc(1)
    | ZeroWord(cpu: nat)                     // the rest of it, word by word
    | Hang(cpu: nat)                         // current[index] = ret | 7
    | Put(cpu: nat)                          // the last-level entry is stored and the lock released
    | Elsewhere(cpu: nat, op: Op)            // pages are allocated or freed for something else
    | Store(cpu: nat, x: nat, v: Word)       // a word of such a page is written

  /** The paging mode, the number of pages there are and the ones that were never free. */
  datatype Machine = Machine(la57: bool, n: nat, reserved: set<nat>) {
    function Depth(): nat { Paging.Depth(la57) }
  }

  /** The word of memory the CPU's entry is in. */
  function EntryOf(pc: Pc): nat
    requires !pc.Out? && pc.d < |pc.path|
  {
    pc.at * 512 + pc.path[pc.d]
  }

  function Root(call: Call): nat { call.top / 4096 }

  function Read(mem: seq<Word>, x: nat): Word { if x < |mem| then mem[x] else 0 }

  function Write(mem: seq<Word>, x: nat, v: Word): seq<Word> { if x < |mem| then mem[x := v] else mem }

  /** `ret | 7`, for any page there can be. */
  function Link(page: nat): Word {
    if page < FRAMES then PointerRoundTrip(page); Or(page * 4096, 7) else 0
  }

  /** What `get_next_level` makes of an entry: the table it points at, if it is present. */
  function Follow(e: Word): Option<nat> {
    if And(e, 1) != 0 then Some(AndNot(e, FLAGS_MASK) / 4096) else None
  }

  /** Where it is after that. */
  function Looked(pc: Pc, f: Option<nat>): Pc
    requires pc.Down?
  {
    if f.Some? then Down(pc.call, pc.path, pc.d + 1, f.value) else Absent(pc.call, pc.path, pc.d, pc.at)
  }

  ghost predicate Enabled(m: Machine, s: State, a: Action) {
    && a.cpu < |s.cpus|
    && var pc := s.cpus[a.cpu];
       match a
       case Enter(_, call) => pc.Out? && call.top % 4096 == 0 && Root(call) in s.roots && Unlocked(s, Root(call))
       case Look(_) => pc.Down? && pc.d + 1 < |pc.path|
       case Grant(_) => pc.Absent? && NextFit(m.n, s.pages.used, s.pages.cursor, 1).Some?
       case ZeroWord(_) => pc.Filling? && pc.done < 512
       case Hang(_) => pc.Filling? && pc.done == 512 && pc.d < |pc.path|
       case Put(_) => pc.Down? && pc.d + 1 == |pc.path|
       case Elsewhere(_, op) => Allowed(s.pages, op) && (op.Free? ==> op.start !in s.tables)
       case Store(_, x, _) => x / 512 !in s.tables
  }

  /** No CPU is in a call on this pagemap. */
  ghost predicate Unlocked(s: State, root: nat) {
    forall i | 0 <= i < |s.cpus| && !s.cpus[i].Out? :: Root(s.cpus[i].call) != root
  }

  /** The page granted. */
  ghost function Granted(m: Machine, s: State): nat {
    var r := NextFit(m.n, s.pages.used, s.pages.cursor, 1);
    if r.Some? then r.value else 0
  }

  ghost function Next(m: Machine, s: State, a: Action): State
    requires Enabled(m, s, a)
  {
    var i, pc := a.cpu, s.cpus[a.cpu];
    match a
    case Enter(_, call) => s.(cpus := s.cpus[i := Down(call, PathOf(m.la57, call.req.virt), 0, Root(call))])
    case Look(_) => s.(cpus := s.cpus[i := Looked(pc, Follow(Read(s.mem, EntryOf(pc))))])
    case Grant(_) =>
      s.(pages := Step(m.n, s.pages, Alloc(1)), tables := s.tables + {Granted(m, s)},
         cpus := s.cpus[i := Filling(pc.call, pc.path, pc.d, pc.at, Granted(m, s), 0)])
    case ZeroWord(_) =>
      s.(mem := Write(s.mem, pc.page * 512 + pc.done, 0),
         cpus := s.cpus[i := Filling(pc.call, pc.path, pc.d, pc.at, pc.page, pc.done + 1)])
    case Hang(_) =>
      s.(mem := Write(s.mem, EntryOf(pc), Link(pc.page)),
         cpus := s.cpus[i := Down(pc.call, pc.path, pc.d + 1, pc.page)])
    case Put(_) =>
      s.(mem := Write(s.mem, EntryOf(pc), OrWords(pc.call.req.phys, pc.call.req.flags)), cpus := s.cpus[i := Out])
    case Elsewhere(_, op) => s.(pages := Step(m.n, s.pages, op))
    case Store(_, x, v) => s.(mem := Write(s.mem, x, v))
  }

  ghost predicate Runs(m: Machine, s: State, actions: seq<Action>)
    decreases |actions|, 0
  {
    actions == [] ||
    var k := |actions| - 1;
    Runs(m, s, actions[..k]) && Enabled(m, After(m, s, actions[..k]), actions[k])
  }

  ghost function After(m: Machine, s: State, actions: seq<Action>): State
    requires Runs(m, s, actions)
    decreases |actions|, 1
  {
    if actions == [] then s
    else
      var k := |actions| - 1;
      Next(m, After(m, s, actions[..k]), actions[k])
  }

  lemma {:induction false} Prefix(m: Machine, s: State, actions: seq<Action>, k: nat)
    requires Runs(m, s, actions) && k <= |actions|
    ensures Runs(m, s, actions[..k])
    decreases |actions|
  {
    if k == |actions| {
      assert actions[..k] == actions;
    } else {
      var l := |actions| - 1;
      assert actions[..l][..k] == actions[..k];
      Prefix(m, s, actions[..l], k);
    }
  }

  /** The state before action `k`, and after the last one for `k == |actions|`. */
  ghost function At(m: Machine, s: State, actions: seq<Action>, k: nat): State
    requires Runs(m, s, actions) && k <= |actions|
  {
    Prefix(m, s, actions, k);
    After(m, s, actions[..k])
  }

  lemma StepAt(m: Machine, s: State, actions: seq<Action>, k: nat)
    requires Runs(m, s, actions) && k < |actions|
    ensures Enabled(m, At(m, s, actions, k), actions[k])
    ensures At(m, s, actions, k + 1) == Next(m, At(m, s, actions, k), actions[k])
  {
    Prefix(m, s, actions, k + 1);
    assert actions[..k + 1][..k] == actions[..k];
  }

  // ---- slots and page numbers ----

  /** The page tables and the pages for new ones are the page allocator's. */
  ghost predicate Backed(m: Machine, s: State) {
    && m.n <= FRAMES && |s.mem| == 512 * m.n && Inv(m.n, m.reserved, s.pages)
    && (forall p | p in s.tables :: p in s.pages.live && s.pages.live[p] == 1)
    && (forall i | 0 <= i < |s.cpus| && s.cpus[i].Filling? :: s.cpus[i].done <= 512 && s.cpus[i].page in s.tables)
    && (forall i | 0 <= i < |s.cpus| && !s.cpus[i].Out? :: IsPath(m.Depth(), s.cpus[i].path))
  }

  function AbsPc(pc: Pc): Race.Pc {
    match pc
    case Out => Race.Out
    case Down(call, path, d, at) => Race.Down(Root(call), path, d, at)
    case Absent(call, path, d, at) => Race.Absent(Root(call), path, d, at)
    case Filling(call, path, d, at, page, _) => Race.New(Root(call), path, d, at, page)
  }

  function AbsPcs(cpus: seq<Pc>): seq<Race.Pc> { seq(|cpus|, i requires 0 <= i < |cpus| => AbsPc(cpus[i])) }

  /** Every page has one level: what its upper entries point at is one level down, and only the last one has leaves. */
  ghost predicate Levelled(t: Race.State, level: map<nat, nat>) {
    && level.Keys == t.pages && (forall r | r in t.roots :: r in level && level[r] == 0)
    && (forall x | x in t.tables :: x.table in level && t.tables[x] in level && level[x.table] + 1 < t.depth
                                    && level[t.tables[x]] == level[x.table] + 1)
    && (forall x | x in t.leaves :: x.table in level && level[x.table] + 1 == t.depth)
    && (forall i | 0 <= i < |t.cpus| && !t.cpus[i].Out? ::
          t.cpus[i].at in level && level[t.cpus[i].at] == t.cpus[i].d && |t.cpus[i].path| == t.depth)
    && (forall i | 0 <= i < |t.cpus| && t.cpus[i].New? ::
          t.cpus[i].page in level && level[t.cpus[i].page] == t.cpus[i].d + 1)
  }

  /** The word of an entry. */
  function WordOf(t: Race.State, x: Race.Slot): nat {
    if x in t.tables then Pointer(t.tables[x]) else if x in t.leaves then t.leaves[x] else 0
  }

  /** The table a slot points at. */
  function Target(t: Race.State, x: Race.Slot): Option<nat> { if x in t.tables then Some(t.tables[x]) else None }

  /** Page `p` is being zeroed. */
  ghost predicate InTheMaking(s: State, p: nat) {
    exists c :: 0 <= c < |s.cpus| && s.cpus[c].Filling? && s.cpus[c].page == p
  }

  ghost predicate EntryWritten(mem: seq<Word>, t: Race.State, p: nat, i: nat) {
    p * 512 + i < |mem| && mem[p * 512 + i] == WordOf(t, Race.Slot(p, i))
  }

  ghost predicate ZeroedTo(mem: seq<Word>, p: nat, done: nat) {
    p * 512 + done <= |mem| && forall x | p * 512 <= x < p * 512 + done :: mem[x] == 0
  }

  /** Memory holds the entries, and what is zeroed of a new page is still zero. */
  ghost predicate Written(s: State, t: Race.State) {
    && (forall p: nat, i: nat | p in s.tables && i < 512 && !InTheMaking(s, p) :: EntryWritten(s.mem, t, p, i))
    && (forall c | 0 <= c < |s.cpus| && s.cpus[c].Filling? :: ZeroedTo(s.mem, s.cpus[c].page, s.cpus[c].done))
  }

  /** The words are those of the state `t` of slots and page numbers. */
  ghost predicate Rel(m: Machine, s: State, t: Race.State, level: map<nat, nat>) {
    && Backed(m, s) && SamePlaces(m, s, t) && Race.Inv(t) && Levelled(t, level) && Written(s, t)
  }

  /** The step on slots and page numbers that a step on words is. */
  ghost function Image(m: Machine, s: State, a: Action): Race.Action
    requires Enabled(m, s, a)
  {
    match a
    case Enter(i, call) => Race.Enter(i, Root(call), PathOf(m.la57, call.req.virt))
    case Look(i) => Race.Look(i)
    case Grant(i) => Race.Take(i, Granted(m, s))
    case ZeroWord(i) => Race.Tick(i)
    case Hang(i) => Race.Hang(i)
    case Put(i) => Race.Put(i, OrWords(s.cpus[i].call.req.phys, s.cpus[i].call.req.flags))
    case Elsewhere(i, _) => Race.Tick(i)
    case Store(i, _, _) => Race.Tick(i)
  }

  lemma AbsSet(cpus: seq<Pc>, i: nat, pc: Pc)
    requires i < |cpus|
    ensures AbsPcs(cpus[i := pc]) == AbsPcs(cpus)[i := AbsPc(pc)]
  {}

  /** The page allocator keeps the page tables' pages. */
  lemma BackedStep(m: Machine, s: State, a: Action)
    requires Backed(m, s) && Enabled(m, s, a)
    ensures Backed(m, Next(m, s, a))
  {
    if a.Grant? {
      AllocKeeps(m.n, m.reserved, s.pages, 1);
    } else if a.Elsewhere? {
      ElsewhereKeeps(m, s.pages, a.op, s.tables);
    }
  }

  lemma ElsewhereKeeps(m: Machine, pages: Pages, op: Op, tables: set<nat>)
    requires Inv(m.n, m.reserved, pages) && Allowed(pages, op) && (op.Free? ==> op.start !in tables)
    requires forall p | p in tables :: p in pages.live && pages.live[p] == 1
    ensures Inv(m.n, m.reserved, Step(m.n, pages, op))
    ensures forall p | p in tables :: p in Step(m.n, pages, op).live && Step(m.n, pages, op).live[p] == 1
  {
    match op
    case Alloc(count) => AllocKeeps(m.n, m.reserved, pages, count);
    case Free(start) => FreeKeeps(m.n, m.reserved, pages, start);
  }

  /** A granted page is nobody's table. */
  lemma GrantedIsNew(m: Machine, s: State)
    requires Backed(m, s) && NextFit(m.n, s.pages.used, s.pages.cursor, 1).Some?
    ensures Granted(m, s) !in s.tables && Granted(m, s) < m.n
  {
    AllocKeeps(m.n, m.reserved, s.pages, 1);
  }

  /** Nobody has reached a page in the making. */
  lemma Reached(m: Machine, s: State, t: Race.State, level: map<nat, nat>, c: nat)
    requires Rel(m, s, t, level) && c < |s.cpus| && !s.cpus[c].Out?
    ensures !InTheMaking(s, s.cpus[c].at) && s.cpus[c].at in s.tables && t.cpus[c] == AbsPc(s.cpus[c])
    ensures s.cpus[c].d < m.Depth() && (s.cpus[c].Down? || s.cpus[c].d + 1 < m.Depth())
    ensures s.cpus[c].at in level && level[s.cpus[c].at] == s.cpus[c].d
  {
    assert Race.Placed(t, t.cpus[c]);
    forall b | 0 <= b < |s.cpus| && s.cpus[b].Filling? ensures s.cpus[b].page != s.cpus[c].at {
      assert Race.Placed(t, t.cpus[b]);
    }
  }

  /** What `get_next_level` reads: the table the slot points at, or nothing. */
  lemma LooksUp(m: Machine, s: State, t: Race.State, level: map<nat, nat>, c: nat)
    requires Rel(m, s, t, level) && c < |s.cpus| && !s.cpus[c].Out? && s.cpus[c].d + 1 < m.Depth()
    ensures t.cpus[c] == AbsPc(s.cpus[c])
    ensures Follow(Read(s.mem, EntryOf(s.cpus[c]))) == Target(t, Race.SlotOf(t.cpus[c]))
  {
    EntryHeld(m, s, t, level, c);
    ReadsBack(t, Race.SlotOf(t.cpus[c]));
  }

  /** Memory holds the entry the CPU is at. */
  lemma EntryHeld(m: Machine, s: State, t: Race.State, level: map<nat, nat>, c: nat)
    requires Rel(m, s, t, level) && c < |s.cpus| && !s.cpus[c].Out? && s.cpus[c].d + 1 < m.Depth()
    ensures t.cpus[c] == AbsPc(s.cpus[c])
    ensures var x := Race.SlotOf(t.cpus[c]);
      && EntryOf(s.cpus[c]) < |s.mem| && Read(s.mem, EntryOf(s.cpus[c])) == WordOf(t, x)
      && x !in t.leaves && (x in t.tables ==> t.tables[x] < FRAMES)
  {
    Reached(m, s, t, level, c);
    var pc := s.cpus[c];
    var x := Race.SlotOf(t.cpus[c]);
    assert EntryWritten(s.mem, t, pc.at, pc.path[pc.d]);
    if x in t.tables {
      PageInRange(m, s, t.tables[x]);
    }
  }

  lemma ReadsBack(t: Race.State, x: Race.Slot)
    requires x !in t.leaves && (x in t.tables ==> t.tables[x] < FRAMES)
    ensures WordOf(t, x) < 0x1_0000_0000_0000_0000 && Follow(WordOf(t, x)) == Target(t, x)
  {
    if x in t.tables {
      FollowPointer(t.tables[x]);
    } else {
      FollowZero();
    }
  }

  lemma FollowPointer(f: nat)
    requires f < FRAMES
    ensures Pointer(f) < 0x1_0000_0000_0000_0000 && Follow(Pointer(f)) == Some(f)
  {
    PointerMasked(f);
    assert f * 4096 / 4096 == f;
  }

  lemma PointerMasked(f: nat)
    requires f < FRAMES
    ensures Pointer(f) < 0x1_0000_0000_0000_0000
    ensures And(Pointer(f), 1) == 1 && AndNot(Pointer(f), FLAGS_MASK) == f * 4096
  {
    PointerRoundTrip(f);
  }

  lemma FollowZero()
    ensures Follow(0) == None
  {
    AndOne(0);
  }

  lemma PageInRange(m: Machine, s: State, p: nat)
    requires Backed(m, s) && p in s.tables
    ensures p < m.n <= FRAMES
  {}

  // ---- every step on words is a step on slots and page numbers ----

  /** The step can be made there, and the CPUs end up at the same places. */
  lemma Matches(m: Machine, s: State, t: Race.State, level: map<nat, nat>, a: Action)
    requires Rel(m, s, t, level) && Enabled(m, s, a)
    ensures Race.Enabled(t, Image(m, s, a)) && SamePlaces(m, Next(m, s, a), Race.Next(t, Image(m, s, a)))
  {
    assert forall c | 0 <= c < |s.cpus| :: t.cpus[c] == AbsPc(s.cpus[c]);
    var i := a.cpu;
    if a.Look? {
      LooksUp(m, s, t, level, i);
    } else if a.Grant? {
      GrantedIsNew(m, s);
    } else if a.Enter? {
      assert Race.Unlocked(t, Root(a.call));
    }
    MatchesCpu(m, s, t, a);
  }

  ghost predicate SamePlaces(m: Machine, s: State, t: Race.State) {
    t.depth == m.Depth() && t.roots == s.roots && t.pages == s.tables && t.cpus == AbsPcs(s.cpus)
  }

  lemma MatchesCpu(m: Machine, s: State, t: Race.State, a: Action)
    requires SamePlaces(m, s, t) && Enabled(m, s, a) && (a.Grant? ==> Granted(m, s) !in s.tables)
    requires a.Enter? ==> Race.Unlocked(t, Root(a.call))
    requires a.Look? ==> Follow(Read(s.mem, EntryOf(s.cpus[a.cpu]))) == Target(t, Race.SlotOf(AbsPc(s.cpus[a.cpu])))
    ensures Race.Enabled(t, Image(m, s, a)) && SamePlaces(m, Next(m, s, a), Race.Next(t, Image(m, s, a)))
  {
    var s', b := Next(m, s, a), Image(m, s, a);
    assert t.cpus[a.cpu] == AbsPc(s.cpus[a.cpu]);
    AbsSet(s.cpus, a.cpu, s'.cpus[a.cpu]);
    assert Race.Enabled(t, b);
    var t' := Race.Next(t, b);
    if a.Look? {
      MatchesLook(m, s, s', t, a.cpu);
    } else {
      assert t'.cpus[a.cpu] == AbsPc(s'.cpus[a.cpu]);
    }
  }

  lemma MatchesLook(m: Machine, s: State, s': State, t: Race.State, i: nat)
    requires SamePlaces(m, s, t) && i < |s.cpus| && s.cpus[i].Down? && s.cpus[i].d + 1 < |s.cpus[i].path|
    requires s' == s.(cpus := s.cpus[i := Looked(s.cpus[i], Target(t, Race.SlotOf(AbsPc(s.cpus[i]))))])
    ensures Race.Enabled(t, Race.Look(i)) && SamePlaces(m, s', Race.Next(t, Race.Look(i)))
  {
    assert t.cpus[i] == AbsPc(s.cpus[i]);
    AbsSet(s.cpus, i, s'.cpus[i]);
  }

  /** Every page keeps its level; a page granted gets the next one. */
  lemma LevelStep(t: Race.State, b: Race.Action, level: map<nat, nat>) returns (level': map<nat, nat>)
    requires Race.Inv(t) && Levelled(t, level) && Race.Enabled(t, b)
    ensures Levelled(Race.Next(t, b), level')
  {
    assert Race.Placed(t, t.cpus[b.cpu]);
    if b.Take? {
      level' := level[b.page := t.cpus[b.cpu].d + 1];
      NewLevel(t, b, level);
    } else {
      level' := level;
      SameLevels(t, b, level);
    }
  }

  lemma NewLevel(t: Race.State, b: Race.Action, level: map<nat, nat>)
    requires Levelled(t, level) && Race.Enabled(t, b) && b.Take?
    ensures Levelled(Race.Next(t, b), level[b.page := t.cpus[b.cpu].d + 1])
  {}

  lemma SameLevels(t: Race.State, b: Race.Action, level: map<nat, nat>)
    requires Levelled(t, level) && Race.Enabled(t, b) && !b.Take? && Race.Placed(t, t.cpus[b.cpu])
    ensures Levelled(Race.Next(t, b), level)
  {}

  /** A store elsewhere leaves an entry, and what is zeroed of a page. */
  lemma EntryOther(mem: seq<Word>, t: Race.State, t': Race.State, p: nat, i: nat, x: nat, v: Word)
    requires EntryWritten(mem, t, p, i) && x != p * 512 + i && WordOf(t', Race.Slot(p, i)) == WordOf(t, Race.Slot(p, i))
    ensures EntryWritten(Write(mem, x, v), t', p, i)
  {}

  lemma ZeroedOther(mem: seq<Word>, p: nat, done: nat, x: nat, v: Word)
    requires ZeroedTo(mem, p, done) && !(p * 512 <= x < p * 512 + done)
    ensures ZeroedTo(Write(mem, x, v), p, done)
  {}

  lemma OtherPage(p: nat, i: nat, q: nat, j: nat)
    requires i < 512 && j < 512 && (p != q || i != j)
    ensures p * 512 + i != q * 512 + j && (p * 512 + i) / 512 == p
  {}

  /** Nothing is written to a table or a page in the making. */
  lemma WrittenQuiet(m: Machine, s: State, t: Race.State, level: map<nat, nat>, a: Action, t': Race.State)
    requires Rel(m, s, t, level) && Enabled(m, s, a) && t'.tables == t.tables && t'.leaves == t.leaves
    requires a.Enter? || a.Look? || a.Grant? || a.Elsewhere? || a.Store?
    ensures Written(Next(m, s, a), t')
  {
    var s' := Next(m, s, a);
    forall p: nat, i: nat | p in s'.tables && i < 512 && !InTheMaking(s', p) ensures EntryWritten(s'.mem, t', p, i) {
      StillMaking(m, s, a, p);
      assert EntryWritten(s.mem, t, p, i);
      assert WordOf(t', Race.Slot(p, i)) == WordOf(t, Race.Slot(p, i));
      if a.Store? {
        assert (p * 512 + i) / 512 == p;
        EntryOther(s.mem, t, t', p, i, a.x, a.v);
      }
    }
    forall c | 0 <= c < |s'.cpus| && s'.cpus[c].Filling? ensures ZeroedTo(s'.mem, s'.cpus[c].page, s'.cpus[c].done) {
      if a.Grant? && c == a.cpu {
        GrantedIsNew(m, s);
      } else if a.Store? {
        ZeroedStore(m, s, c, a.x, a.v);
      }
    }
  }

  lemma ZeroedStore(m: Machine, s: State, c: nat, x: nat, v: Word)
    requires Backed(m, s) && c < |s.cpus| && s.cpus[c].Filling? && x / 512 !in s.tables
    requires ZeroedTo(s.mem, s.cpus[c].page, s.cpus[c].done)
    ensures ZeroedTo(Write(s.mem, x, v), s.cpus[c].page, s.cpus[c].done)
  {
    ZeroedOther(s.mem, s.cpus[c].page, s.cpus[c].done, x, v);
  }

  lemma StillMaking(m: Machine, s: State, a: Action, p: nat)
    requires Enabled(m, s, a) && !a.Hang? && p in Next(m, s, a).tables && !InTheMaking(Next(m, s, a), p)
    ensures p in s.tables && !InTheMaking(s, p)
  {
    var s' := Next(m, s, a);
    forall c | 0 <= c < |s.cpus| && s.cpus[c].Filling? ensures s.cpus[c].page != p {
      assert s'.cpus[c].Filling? && s'.cpus[c].page == s.cpus[c].page;
    }
    assert a.Grant? ==> s'.cpus[a.cpu].Filling? && s'.cpus[a.cpu].page == Granted(m, s);
  }

  /** Pages in the making are different ones. */
  lemma MakingApart(m: Machine, s: State, t: Race.State, level: map<nat, nat>, b: nat, c: nat)
    requires Rel(m, s, t, level) && b < |s.cpus| && c < |s.cpus| && b != c && s.cpus[b].Filling? && s.cpus[c].Filling?
    ensures s.cpus[b].page != s.cpus[c].page
  {
    assert t.cpus[b].New? && t.cpus[c].New? && t.cpus[b].page == s.cpus[b].page && t.cpus[c].page == s.cpus[c].page;
  }

  lemma WrittenZero(m: Machine, s: State, t: Race.State, level: map<nat, nat>, a: Action)
    requires Rel(m, s, t, level) && Enabled(m, s, a) && a.ZeroWord?
    ensures Written(Next(m, s, a), t)
  {
    var s', f, done := Next(m, s, a), s.cpus[a.cpu].page, s.cpus[a.cpu].done;
    forall p: nat, i: nat | p in s'.tables && i < 512 && !InTheMaking(s', p) ensures EntryWritten(s'.mem, t, p, i) {
      StillMaking(m, s, a, p);
      assert EntryWritten(s.mem, t, p, i);
      OtherPage(p, i, f, done);
      EntryOther(s.mem, t, t, p, i, f * 512 + done, 0);
    }
    forall c | 0 <= c < |s'.cpus| && s'.cpus[c].Filling? ensures ZeroedTo(s'.mem, s'.cpus[c].page, s'.cpus[c].done) {
      assert ZeroedTo(s.mem, s.cpus[c].page, s.cpus[c].done);
      if c != a.cpu {
        MakingApart(m, s, t, level, c, a.cpu);
        ZeroedOther(s.mem, s.cpus[c].page, s.cpus[c].done, f * 512 + done, 0);
      } else {
        OneMoreZero(s.mem, f, done);
      }
    }
  }

  lemma OneMoreZero(mem: seq<Word>, p: nat, done: nat)
    requires ZeroedTo(mem, p, done) && p * 512 + done < |mem|
    ensures ZeroedTo(Write(mem, p * 512 + done, 0), p, done + 1)
  {}

  /** The CPU's entry is written: the slot it is at and no other changes. */
  lemma WrittenStore(m: Machine, s: State, t: Race.State, level: map<nat, nat>, c: nat, t': Race.State, v: Word,
                     p: nat, i: nat)
    requires Rel(m, s, t, level) && c < |s.cpus| && !s.cpus[c].Out? && p in s.tables && i < 512 && !InTheMaking(s, p)
    requires s.cpus[c].d < |s.cpus[c].path| && WordOf(t', Race.Slot(s.cpus[c].at, s.cpus[c].path[s.cpus[c].d])) == v
    requires Race.Slot(p, i) != Race.Slot(s.cpus[c].at, s.cpus[c].path[s.cpus[c].d]) ==>
               WordOf(t', Race.Slot(p, i)) == WordOf(t, Race.Slot(p, i))
    ensures EntryWritten(Write(s.mem, EntryOf(s.cpus[c]), v), t', p, i)
  {
    assert EntryWritten(s.mem, t, p, i);
    var q, j := s.cpus[c].at, s.cpus[c].path[s.cpus[c].d];
    if p != q || i != j {
      OtherPage(p, i, q, j);
      EntryOther(s.mem, t, t', p, i, EntryOf(s.cpus[c]), v);
    }
  }

  /** What is zeroed of the pages in the making is untouched by that. */
  lemma ZeroedEntry(m: Machine, s: State, t: Race.State, level: map<nat, nat>, c: nat, v: Word, b: nat)
    requires Rel(m, s, t, level) && c < |s.cpus| && !s.cpus[c].Out? && b < |s.cpus| && s.cpus[b].Filling?
    requires s.cpus[c].d < |s.cpus[c].path|
    ensures ZeroedTo(Write(s.mem, EntryOf(s.cpus[c]), v), s.cpus[b].page, s.cpus[b].done)
  {
    Reached(m, s, t, level, c);
    var q, j, p := s.cpus[c].at, s.cpus[c].path[s.cpus[c].d], s.cpus[b].page;
    assert InTheMaking(s, p) && p != q;
    OtherPage(q, j, p, 0);
    ZeroedOther(s.mem, p, s.cpus[b].done, EntryOf(s.cpus[c]), v);
  }

  lemma WrittenPut(m: Machine, s: State, t: Race.State, level: map<nat, nat>, a: Action)
    requires Rel(m, s, t, level) && Enabled(m, s, a) && a.Put? && Race.Enabled(t, Image(m, s, a))
    ensures Written(Next(m, s, a), Race.Next(t, Image(m, s, a)))
  {
    var s', t', c := Next(m, s, a), Race.Next(t, Image(m, s, a)), a.cpu;
    var pc := s.cpus[c];
    Reached(m, s, t, level, c);
    var x, v := Race.Slot(pc.at, pc.path[pc.d]), OrWords(pc.call.req.phys, pc.call.req.flags);
    assert x !in t.tables && WordOf(t', x) == v;
    forall p: nat, i: nat | p in s'.tables && i < 512 && !InTheMaking(s', p) ensures EntryWritten(s'.mem, t', p, i) {
      StillMaking(m, s, a, p);
      WrittenStore(m, s, t, level, c, t', v, p, i);
    }
    forall b | 0 <= b < |s'.cpus| && s'.cpus[b].Filling? ensures ZeroedTo(s'.mem, s'.cpus[b].page, s'.cpus[b].done) {
      ZeroedEntry(m, s, t, level, c, v, b);
    }
  }

  lemma WrittenHang(m: Machine, s: State, t: Race.State, level: map<nat, nat>, a: Action)
    requires Rel(m, s, t, level) && Enabled(m, s, a) && a.Hang? && Race.Enabled(t, Race.Hang(a.cpu))
    ensures Written(Next(m, s, a), Race.Next(t, Race.Hang(a.cpu)))
  {
    var s', t', c := Next(m, s, a), Race.Next(t, Race.Hang(a.cpu)), a.cpu;
    var pc, v := s.cpus[c], Link(s.cpus[c].page);
    Reached(m, s, t, level, c);
    HungWord(m, s, t, level, c);
    forall p: nat, i: nat | p in s'.tables && i < 512 && !InTheMaking(s', p) ensures EntryWritten(s'.mem, t', p, i) {
      if p == pc.page {
        HungBlank(m, s, t, level, c, v, i);
      } else {
        NotMaking(m, s, a, p);
        WrittenStore(m, s, t, level, c, t', v, p, i);
      }
    }
    forall b | 0 <= b < |s'.cpus| && s'.cpus[b].Filling? ensures ZeroedTo(s'.mem, s'.cpus[b].page, s'.cpus[b].done) {
      ZeroedEntry(m, s, t, level, c, v, b);
    }
  }

  lemma NotMaking(m: Machine, s: State, a: Action, p: nat)
    requires Enabled(m, s, a) && a.Hang? && p != s.cpus[a.cpu].page && !InTheMaking(Next(m, s, a), p)
    ensures !InTheMaking(s, p)
  {
    var s' := Next(m, s, a);
    forall c | 0 <= c < |s.cpus| && s.cpus[c].Filling? ensures s.cpus[c].page != p {
      assert c != a.cpu ==> s'.cpus[c] == s.cpus[c];
    }
  }

  /** The word stored is the pointer to the new table. */
  lemma HungWord(m: Machine, s: State, t: Race.State, level: map<nat, nat>, c: nat)
    requires Rel(m, s, t, level) && c < |s.cpus| && s.cpus[c].Filling?
    ensures Link(s.cpus[c].page) == Pointer(s.cpus[c].page)
  {
    PageInRange(m, s, s.cpus[c].page);
    LinkIs(s.cpus[c].page);
  }

  lemma LinkIs(f: nat)
    requires f < FRAMES
    ensures Link(f) == Pointer(f)
  {
    PointerRoundTrip(f);
  }

  /** The new table is blank. */
  lemma HungBlank(m: Machine, s: State, t: Race.State, level: map<nat, nat>, c: nat, v: Word, i: nat)
    requires Rel(m, s, t, level) && c < |s.cpus| && s.cpus[c].Filling? && s.cpus[c].done == 512 && i < 512
    requires Race.Enabled(t, Race.Hang(c)) && s.cpus[c].d < |s.cpus[c].path|
    ensures EntryWritten(Write(s.mem, EntryOf(s.cpus[c]), v), Race.Next(t, Race.Hang(c)), s.cpus[c].page, i)
  {
    var f, x := s.cpus[c].page, Race.Slot(s.cpus[c].page, i);
    ZeroedEntry(m, s, t, level, c, v, c);
    assert Race.Placed(t, t.cpus[c]) && Race.Blank(t, f);
    assert x !in Race.Next(t, Race.Hang(c)).tables && x !in t.leaves;
  }

  lemma WrittenStep(m: Machine, s: State, t: Race.State, level: map<nat, nat>, a: Action)
    requires Rel(m, s, t, level) && Enabled(m, s, a) && Race.Enabled(t, Image(m, s, a))
    ensures Written(Next(m, s, a), Race.Next(t, Image(m, s, a)))
  {
    match a
    case Put(_) => WrittenPut(m, s, t, level, a);
    case Hang(_) => WrittenHang(m, s, t, level, a);
    case ZeroWord(_) => WrittenZero(m, s, t, level, a);
    case _ => WrittenQuiet(m, s, t, level, a, Race.Next(t, Image(m, s, a)));
  }

  /** Every step on words is a step on slots and page numbers. */
  lemma StepSimulates(m: Machine, s: State, t: Race.State, level: map<nat, nat>, a: Action)
    returns (level': map<nat, nat>)
    requires Rel(m, s, t, level) && Enabled(m, s, a)
    ensures Race.Enabled(t, Image(m, s, a)) && Rel(m, Next(m, s, a), Race.Next(t, Image(m, s, a)), level')
  {
    Matches(m, s, t, level, a);
    BackedStep(m, s, a);
    WrittenStep(m, s, t, level, a);
    Race.StepKeeps(t, Image(m, s, a));
    level' := LevelStep(t, Image(m, s, a), level);
  }

  // ---- runs ----

  ghost function Images(m: Machine, s: State, actions: seq<Action>): (images: seq<Race.Action>)
    requires Runs(m, s, actions)
    ensures |images| == |actions|
    decreases |actions|
  {
    if actions == [] then []
    else
      var k := |actions| - 1;
      Images(m, s, actions[..k]) + [Image(m, After(m, s, actions[..k]), actions[k])]
  }

  lemma {:induction false} ImagesPrefix(m: Machine, s: State, actions: seq<Action>, k: nat)
    requires Runs(m, s, actions) && k <= |actions|
    ensures Runs(m, s, actions[..k]) && Images(m, s, actions)[..k] == Images(m, s, actions[..k])
    decreases |actions|
  {
    if k == |actions| {
      assert actions[..k] == actions;
    } else {
      var l := |actions| - 1;
      assert actions[..l][..k] == actions[..k];
      ImagesPrefix(m, s, actions[..l], k);
    }
  }

  /** Every run on words is a run on slots and page numbers, state by state. */
  lemma {:induction false} RunSimulates(m: Machine, s: State, t: Race.State, level: map<nat, nat>, actions: seq<Action>)
    returns (level': map<nat, nat>)
    requires Rel(m, s, t, level) && Runs(m, s, actions)
    ensures Race.Runs(t, Images(m, s, actions))
    ensures Rel(m, After(m, s, actions), Race.After(t, Images(m, s, actions)), level')
    decreases |actions|
  {
    level' := level;
    if actions != [] {
      var k := |actions| - 1;
      var u, images := After(m, s, actions[..k]), Images(m, s, actions);
      level' := RunSimulates(m, s, t, level, actions[..k]);
      assert images[..k] == Images(m, s, actions[..k]) && images[k] == Image(m, u, actions[k]);
      level' := StepSimulates(m, u, Race.After(t, images[..k]), level', actions[k]);
    }
  }

  lemma ImageAt(m: Machine, s: State, actions: seq<Action>, k: nat)
    requires Runs(m, s, actions) && k < |actions|
    ensures Enabled(m, At(m, s, actions, k), actions[k])
    ensures Images(m, s, actions)[k] == Image(m, At(m, s, actions, k), actions[k])
  {
    StepAt(m, s, actions, k);
    ImagesPrefix(m, s, actions, k + 1);
    assert actions[..k + 1][..k] == actions[..k];
    assert Images(m, s, actions)[k] == Images(m, s, actions)[..k + 1][k];
  }

  lemma SimulatesAt(m: Machine, s: State, t: Race.State, level: map<nat, nat>, actions: seq<Action>, k: nat)
    returns (level': map<nat, nat>)
    requires Rel(m, s, t, level) && Runs(m, s, actions) && k <= |actions|
    ensures Race.Runs(t, Images(m, s, actions))
    ensures Rel(m, At(m, s, actions, k), Race.At(t, Images(m, s, actions), k), level')
  {
    var _ := RunSimulates(m, s, t, level, actions);
    ImagesPrefix(m, s, actions, k);
    level' := RunSimulates(m, s, t, level, actions[..k]);
    assert At(m, s, actions, k) == After(m, s, actions[..k]);
    assert Race.At(t, Images(m, s, actions), k) == Race.After(t, Images(m, s, actions[..k]));
  }

  // ---- exactly when a table is lost ----

  /** A CPU points the entry at its table although it is present. */
  ghost predicate Loses(m: Machine, s: State, a: Action) {
    Enabled(m, s, a) && a.Hang? && Follow(Read(s.mem, EntryOf(s.cpus[a.cpu]))).Some?
  }

  /** CPU `c` has found the entry in word `x` absent and is going to point it at a table of its own. */
  ghost predicate Pending(s: State, c: nat, x: nat) {
    && c < |s.cpus| && (s.cpus[c].Absent? || s.cpus[c].Filling?) && s.cpus[c].d < |s.cpus[c].path|
    && EntryOf(s.cpus[c]) == x
  }

  /** Action `j` points an entry at a table while CPU `c`, another one, has found the entry absent; action `k` is the
      next time `c` points an entry at a table. */
  ghost predicate Overtakes(m: Machine, s: State, actions: seq<Action>, j: nat, k: nat, c: nat)
    requires Runs(m, s, actions)
  {
    && j < k < |actions| && actions[j].Hang? && actions[j].cpu != c && actions[k] == Hang(c)
    && (forall l | j < l < k :: actions[l] != Hang(c))
    && var u := At(m, s, actions, j); Enabled(m, u, actions[j]) && Pending(u, c, EntryOf(u.cpus[actions[j].cpu]))
  }

  ghost predicate Quiet(s: State) { forall i | 0 <= i < |s.cpus| :: s.cpus[i].Out? }

  lemma LosesSame(m: Machine, s: State, t: Race.State, level: map<nat, nat>, a: Action)
    requires Rel(m, s, t, level) && Enabled(m, s, a) && Race.Enabled(t, Image(m, s, a))
    ensures Loses(m, s, a) <==> Race.Loses(t, Image(m, s, a))
  {
    if a.Hang? {
      Reached(m, s, t, level, a.cpu);
      LooksUp(m, s, t, level, a.cpu);
    }
  }

  lemma PendingSame(m: Machine, s: State, t: Race.State, level: map<nat, nat>, b: nat, c: nat)
    requires Rel(m, s, t, level) && b < |s.cpus| && s.cpus[b].Filling? && s.cpus[b].d < |s.cpus[b].path|
    ensures t.cpus[b] == AbsPc(s.cpus[b])
    ensures Pending(s, c, EntryOf(s.cpus[b])) <==> Race.Pending(t, c, Race.SlotOf(t.cpus[b]))
  {
    Reached(m, s, t, level, b);
    if c < |s.cpus| && !s.cpus[c].Out? {
      Reached(m, s, t, level, c);
      SameSlot(s.cpus[b], s.cpus[c]);
    }
  }

  lemma SameSlot(a: Pc, b: Pc)
    requires !a.Out? && !b.Out? && a.d < |a.path| && b.d < |b.path| && a.path[a.d] < 512 && b.path[b.d] < 512
    ensures EntryOf(a) == EntryOf(b) <==> Race.SlotOf(AbsPc(a)) == Race.SlotOf(AbsPc(b))
  {
    if a.at != b.at || a.path[a.d] != b.path[b.d] {
      OtherPage(a.at, a.path[a.d], b.at, b.path[b.d]);
    }
  }

  lemma ImageHangs(m: Machine, s: State, a: Action)
    requires Enabled(m, s, a)
    ensures Image(m, s, a).cpu == a.cpu && (Image(m, s, a).Hang? <==> a.Hang?)
  {}

  lemma HangsAt(m: Machine, s: State, actions: seq<Action>, k: nat)
    requires Runs(m, s, actions) && k < |actions|
    ensures var b := Images(m, s, actions)[k]; b.cpu == actions[k].cpu && (b.Hang? <==> actions[k].Hang?)
  {
    ImageAt(m, s, actions, k);
    ImageHangs(m, At(m, s, actions, k), actions[k]);
  }

  lemma PendingAtSame(m: Machine, s: State, t: Race.State, level: map<nat, nat>, actions: seq<Action>, j: nat, c: nat)
    requires Rel(m, s, t, level) && Runs(m, s, actions) && Race.Runs(t, Images(m, s, actions))
    requires j < |actions| && actions[j].Hang?
    ensures var u, w, b := At(m, s, actions, j), Race.At(t, Images(m, s, actions), j), actions[j].cpu;
      && Enabled(m, u, actions[j]) && Images(m, s, actions)[j] == Race.Hang(b) && Race.Enabled(w, Race.Hang(b))
      && (Pending(u, c, EntryOf(u.cpus[b])) <==> Race.Pending(w, c, Race.SlotOf(w.cpus[b])))
  {
    var level' := SimulatesAt(m, s, t, level, actions, j);
    ImageAt(m, s, actions, j);
    Race.StepAt(t, Images(m, s, actions), j);
    PendingSame(m, At(m, s, actions, j), Race.At(t, Images(m, s, actions), j), level', actions[j].cpu, c);
  }

  /** Actions and images fill entries at the same moments, on the same CPUs. */
  ghost predicate SameHangs(actions: seq<Action>, images: seq<Race.Action>) {
    |images| == |actions| && forall l: nat | l < |actions| :: SameHang(actions[l], images[l])
  }

  predicate SameHang(a: Action, b: Race.Action) { b.cpu == a.cpu && (b.Hang? <==> a.Hang?) }

  lemma AllHangs(m: Machine, s: State, actions: seq<Action>)
    requires Runs(m, s, actions)
    ensures SameHangs(actions, Images(m, s, actions))
  {
    forall l: nat | l < |actions| ensures SameHang(actions[l], Images(m, s, actions)[l]) {
      HangsAt(m, s, actions, l);
    }
  }

  lemma SameOrder(actions: seq<Action>, images: seq<Race.Action>, j: nat, k: nat, c: nat)
    requires SameHangs(actions, images) && j < k < |actions|
    ensures images[k] == Race.Hang(c) <==> actions[k] == Hang(c)
    ensures (forall l | j < l < k :: images[l] != Race.Hang(c)) <==> (forall l | j < l < k :: actions[l] != Hang(c))
  {
    assert SameHang(actions[k], images[k]);
    forall l | j < l < k ensures images[l] == Race.Hang(c) <==> actions[l] == Hang(c) {
      assert SameHang(actions[l], images[l]);
    }
  }

  lemma OvertakesSame(m: Machine, s: State, t: Race.State, level: map<nat, nat>, actions: seq<Action>, j: nat, k: nat,
                      c: nat)
    requires Rel(m, s, t, level) && Runs(m, s, actions) && Race.Runs(t, Images(m, s, actions))
    ensures Overtakes(m, s, actions, j, k, c) <==> Race.Overtakes(t, Images(m, s, actions), j, k, c)
  {
    var images := Images(m, s, actions);
    AllHangs(m, s, actions);
    if j < k < |actions| {
      SameOrder(actions, images, j, k, c);
      assert SameHang(actions[j], images[j]);
      if actions[j].Hang? {
        PendingAtSame(m, s, t, level, actions, j, c);
      }
    }
  }

  ghost predicate LosesAt(m: Machine, s: State, actions: seq<Action>, k: nat)
    requires Runs(m, s, actions)
  {
    k < |actions| && Loses(m, At(m, s, actions, k), actions[k])
  }

  ghost predicate SlotLostAt(t: Race.State, images: seq<Race.Action>, k: nat)
    requires Race.Runs(t, images)
  {
    k < |images| && Race.Loses(Race.At(t, images, k), images[k])
  }

  lemma LosesAtSame(m: Machine, s: State, t: Race.State, level: map<nat, nat>, actions: seq<Action>, k: nat)
    requires Rel(m, s, t, level) && Runs(m, s, actions) && Race.Runs(t, Images(m, s, actions))
    ensures LosesAt(m, s, actions, k) <==> SlotLostAt(t, Images(m, s, actions), k)
  {
    if k < |actions| {
      var level' := SimulatesAt(m, s, t, level, actions, k);
      ImageAt(m, s, actions, k);
      Race.StepAt(t, Images(m, s, actions), k);
      LosesSame(m, At(m, s, actions, k), Race.At(t, Images(m, s, actions), k), level', actions[k]);
    }
  }

  /** No step of the run loses a table. */
  ghost predicate Lossless(m: Machine, s: State, actions: seq<Action>)
    requires Runs(m, s, actions)
  {
    forall k: nat :: !LosesAt(m, s, actions, k)
  }

  /** In memory too a table is lost, in a run from a moment when no CPU is in a call, if and only if some CPU points an
      entry at a table that another CPU has found absent and not filled yet, and the other one fills it after that. */
  lemma LosesIff(m: Machine, s: State, t: Race.State, level: map<nat, nat>, actions: seq<Action>)
    requires Rel(m, s, t, level) && Runs(m, s, actions) && Quiet(s)
    ensures !Lossless(m, s, actions) <==> exists j: nat, k: nat, c: nat :: Overtakes(m, s, actions, j, k, c)
  {
    var images := Images(m, s, actions);
    SlotsLostIff(m, s, t, level, actions);
    if k: nat :| LosesAt(m, s, actions, k) {
      LosesAtSame(m, s, t, level, actions, k);
      var i: nat, l: nat, c: nat :| Race.Overtakes(t, images, i, l, c);
      OvertakesSame(m, s, t, level, actions, i, l, c);
    }
    if j: nat, k: nat, c: nat :| Overtakes(m, s, actions, j, k, c) {
      OvertakesSame(m, s, t, level, actions, j, k, c);
      var l: nat :| SlotLostAt(t, images, l);
      LosesAtSame(m, s, t, level, actions, l);
    }
  }

  lemma SlotsLostIff(m: Machine, s: State, t: Race.State, level: map<nat, nat>, actions: seq<Action>)
    requires Rel(m, s, t, level) && Runs(m, s, actions) && Quiet(s)
    ensures Race.Runs(t, Images(m, s, actions))
    ensures (exists k: nat :: SlotLostAt(t, Images(m, s, actions), k))
       <==> (exists j: nat, k: nat, c: nat :: Race.Overtakes(t, Images(m, s, actions), j, k, c))
  {
    var _ := RunSimulates(m, s, t, level, actions);
    assert Race.Quiet(t);
    LostIff(t, Images(m, s, actions));
  }

  lemma LostIff(t: Race.State, images: seq<Race.Action>)
    requires Race.Runs(t, images) && Race.Quiet(t)
    ensures (exists k: nat :: SlotLostAt(t, images, k))
       <==> (exists j: nat, k: nat, c: nat :: Race.Overtakes(t, images, j, k, c))
  {
    Race.LosesIff(t, images);
    forall k: nat ensures SlotLostAt(t, images, k) <==> k < |images| && Race.Loses(Race.At(t, images, k), images[k]) {}
  }
}
