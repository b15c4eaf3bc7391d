/**
 `vmm_map_page` on several CPUs at once. Each call holds the lock of its own pagemap, and none guards the tables the
 pagemaps share. The steps are the accesses to the tables: reading an entry, allocating a table, pointing the entry at
 it, storing the last-level entry.
 */
module TableRace {
  import opened Bits
  import opened PageRuns

  /** Entry `index` of the table in page `table`. */
  datatype Slot = Slot(table: nat, index: nat)

  /** Where a CPU is: in no call, or in one on pagemap `root` for the page at `path`, `d` levels down at table `at`;
      having found the entry there absent; having allocated `page` for it. */
  datatype Pc =
    | Out
    | Down(root: nat, path: seq<nat>, d: nat, at: nat)
    | Absent(root: nat, path: seq<nat>, d: nat, at: nat)
    | New(root: nat, path: seq<nat>, d: nat, at: nat, page: nat)

  /** The number of levels, the present entries of the upper levels and of the last one, the pagemaps' top-level tables,
      the pages in use as tables, the CPUs. */
  datatype State = State(depth: nat, tables: map<Slot, nat>, leaves: map<Slot, Word>, roots: set<nat>, pages: set<nat>,
                         cpus: seq<Pc>)

  datatype Action =
    | Enter(cpu: nat, root: nat, path: seq<nat>)   // the pagemap's lock is taken
    | Look(cpu: nat)                               // get_next_level reads the entry
    | Take(cpu: nat, page: nat)                    // pmm_alloc(1)
    | Hang(cpu: nat)                               // current[index] = ret | 7
    | Put(cpu: nat, v: Word)                       // the last-level entry is stored and the lock released
    | Tick(cpu: nat)                               // anything that touches no table in use

  ghost predicate Enabled(s: State, a: Action) {
    && a.cpu < |s.cpus|
    && var pc := s.cpus[a.cpu];
       match a
       case Enter(_, root, path) => pc.Out? && root in s.roots && |path| == s.depth > 0 && Unlocked(s, root)
       case Look(_) => pc.Down? && pc.d + 1 < |pc.path|
       case Take(_, page) => pc.Absent? && page !in s.pages
       case Hang(_) => pc.New? && pc.d < |pc.path|
       case Put(_, _) => pc.Down? && pc.d + 1 == |pc.path|
       case Tick(_) => true
  }

  /** No CPU is in a call on this pagemap. */
  ghost predicate Unlocked(s: State, root: nat) {
    forall i | 0 <= i < |s.cpus| && !s.cpus[i].Out? :: s.cpus[i].root != root
  }

  /** The entry a CPU is at. */
  function SlotOf(pc: Pc): Slot
    requires !pc.Out? && pc.d < |pc.path|
  {
    Slot(pc.at, pc.path[pc.d])
  }

  ghost function Next(s: State, a: Action): State
    requires Enabled(s, a)
  {
    var i, pc := a.cpu, s.cpus[a.cpu];
    match a
    case Enter(_, root, path) => s.(cpus := s.cpus[i := Down(root, path, 0, root)])
    case Look(_) =>
      var x := SlotOf(pc);
      s.(cpus := s.cpus[i := if x in s.tables then Down(pc.root, pc.path, pc.d + 1, s.tables[x])
                        else Absent(pc.root, pc.path, pc.d, pc.at)])
    case Take(_, page) => s.(pages := s.pages + {page}, cpus := s.cpus[i := New(pc.root, pc.path, pc.d, pc.at, page)])
    case Hang(_) =>
      s.(tables := s.tables[SlotOf(pc) := pc.page], cpus := s.cpus[i := Down(pc.root, pc.path, pc.d + 1, pc.page)])
    case Put(_, v) => s.(leaves := s.leaves[SlotOf(pc) := v], cpus := s.cpus[i := Out])
    case Tick(_) => s
  }

  ghost predicate Runs(s: State, actions: seq<Action>)
    decreases |actions|, 0
  {
    actions == [] ||
    var n := |actions| - 1;
    Runs(s, actions[..n]) && Enabled(After(s, actions[..n]), actions[n])
  }

  ghost function After(s: State, actions: seq<Action>): State
    requires Runs(s, actions)
    decreases |actions|, 1
  {
    if actions == [] then s
    else
      var n := |actions| - 1;
      Next(After(s, actions[..n]), actions[n])
  }

  /** The state before action `k`, and after the last one for `k == |actions|`. */
  lemma {:induction false} Prefix(s: State, actions: seq<Action>, k: nat)
    requires Runs(s, actions) && k <= |actions|
    ensures Runs(s, actions[..k])
    decreases |actions|
  {
    if k == |actions| {
      assert actions[..k] == actions;
    } else {
      var n := |actions| - 1;
      assert actions[..n][..k] == actions[..k];
      Prefix(s, actions[..n], k);
    }
  }

  ghost function At(s: State, actions: seq<Action>, k: nat): State
    requires Runs(s, actions) && k <= |actions|
  {
    Prefix(s, actions, k);
    After(s, actions[..k])
  }

  lemma StepAt(s: State, actions: seq<Action>, k: nat)
    requires Runs(s, actions) && k < |actions|
    ensures Enabled(At(s, actions, k), actions[k]) && At(s, actions, k + 1) == Next(At(s, actions, k), actions[k])
  {
    Prefix(s, actions, k + 1);
    assert actions[..k + 1][..k] == actions[..k];
  }

  // ---- exactly when a table is lost ----

  /** A CPU points the entry at its table although it already points at one, which is lost with all below it. */
  ghost predicate Loses(s: State, a: Action) {
    Enabled(s, a) && a.Hang? && SlotOf(s.cpus[a.cpu]) in s.tables
  }

  /** CPU `c` has found entry `x` absent and is going to point it at a table of its own. */
  ghost predicate Pending(s: State, c: nat, x: Slot) {
    c < |s.cpus| && (s.cpus[c].Absent? || s.cpus[c].New?) && s.cpus[c].d < |s.cpus[c].path| && SlotOf(s.cpus[c]) == x
  }

  /** Action `j` points entry `x` at a table while CPU `c`, another one, has found the entry absent; action `k` is the
      next time `c` points an entry at a table. */
  ghost predicate Overtakes(s: State, actions: seq<Action>, j: nat, k: nat, c: nat)
    requires Runs(s, actions)
  {
    && j < k < |actions| && actions[j].Hang? && actions[j].cpu != c && actions[k] == Hang(c)
    && (forall m | j < m < k :: actions[m] != Hang(c))
    && var t := At(s, actions, j); Enabled(t, actions[j]) && Pending(t, c, SlotOf(t.cpus[actions[j].cpu]))
  }

  ghost predicate Quiet(s: State) { forall i | 0 <= i < |s.cpus| :: s.cpus[i].Out? }

  /** A CPU that is going to lose a table stays so until it does. */
  lemma StaysPending(s: State, a: Action, c: nat, x: Slot)
    requires Enabled(s, a) && Pending(s, c, x) && a != Hang(c)
    ensures Pending(Next(s, a), c, x) && (x in s.tables ==> x in Next(s, a).tables)
  {}

  lemma {:induction false} PendingTill(s: State, actions: seq<Action>, j: nat, k: nat, c: nat, x: Slot)
    requires Runs(s, actions) && j <= k <= |actions| && Pending(At(s, actions, j), c, x)
             && x in At(s, actions, j).tables
    requires forall m | j <= m < k :: actions[m] != Hang(c)
    ensures Pending(At(s, actions, k), c, x) && x in At(s, actions, k).tables
    decreases k
  {
    if j < k {
      PendingTill(s, actions, j, k - 1, c, x);
      StepAt(s, actions, k - 1);
      StaysPending(At(s, actions, k - 1), actions[k - 1], c, x);
    }
  }

  lemma OvertakenLoses(s: State, actions: seq<Action>, j: nat, k: nat, c: nat)
    requires Runs(s, actions) && Overtakes(s, actions, j, k, c)
    ensures Loses(At(s, actions, k), actions[k])
  {
    var t := At(s, actions, j);
    var x := SlotOf(t.cpus[actions[j].cpu]);
    StepAt(s, actions, j);
    StaysPending(t, actions[j], c, x);
    PendingTill(s, actions, j + 1, k, c, x);
    StepAt(s, actions, k);
  }

  /** It became so when another CPU filled the entry. */
  lemma WasPending(s: State, a: Action, c: nat, x: Slot)
    requires Enabled(s, a) && Pending(Next(s, a), c, x) && x in Next(s, a).tables
    ensures Pending(s, c, x) && a != Hang(c)
    ensures x !in s.tables ==> a.Hang? && a.cpu != c && SlotOf(s.cpus[a.cpu]) == x
  {}

  /** Where a CPU is pending on an entry that is present by now: the moment the entry was filled. */
  lemma {:induction false} FilledBetween(s: State, actions: seq<Action>, k: nat, c: nat, x: Slot) returns (j: nat)
    requires Runs(s, actions) && k <= |actions| && Quiet(s) && Pending(At(s, actions, k), c, x)
             && x in At(s, actions, k).tables
    ensures j < k && actions[j].Hang? && actions[j].cpu != c && (forall m | j <= m < k :: actions[m] != Hang(c))
    ensures var t := At(s, actions, j);
      Enabled(t, actions[j]) && Pending(t, c, x) && SlotOf(t.cpus[actions[j].cpu]) == x
    decreases k
  {
    assert k > 0 by {
      assert actions[..0] == [];
    }
    var n := k - 1;
    var t, a := At(s, actions, n), actions[n];
    StepAt(s, actions, n);
    WasPending(t, a, c, x);
    if x in t.tables {
      j := FilledBetween(s, actions, n, c, x);
    } else {
      j := n;
    }
  }

  /** In a run from a moment when no CPU is in a call, a table is lost if and only if some CPU points an entry at a
      table that another CPU has found absent and not filled yet, and the other one fills it after that. */
  lemma LosesIff(s: State, actions: seq<Action>)
    requires Runs(s, actions) && Quiet(s)
    ensures (exists k: nat :: k < |actions| && Loses(At(s, actions, k), actions[k]))
       <==> (exists j: nat, k: nat, c: nat :: Overtakes(s, actions, j, k, c))
  {
    if k: nat :| k < |actions| && Loses(At(s, actions, k), actions[k]) {
      var t, c := At(s, actions, k), actions[k].cpu;
      var j := FilledBetween(s, actions, k, c, SlotOf(t.cpus[c]));
      assert Overtakes(s, actions, j, k, c);
    }
    if j: nat, k: nat, c: nat :| Overtakes(s, actions, j, k, c) {
      OvertakenLoses(s, actions, j, k, c);
    }
  }

  // ---- what every step keeps ----

  /** Page `f` is in use, but nothing is in it and nobody has reached it. */
  ghost predicate Blank(s: State, f: nat) {
    && f in s.pages && f !in s.roots
    && (forall x | x in s.tables :: x.table != f && s.tables[x] != f)
    && (forall x | x in s.leaves :: x.table != f)
    && (forall i | 0 <= i < |s.cpus| && !s.cpus[i].Out? :: s.cpus[i].at != f)
  }

  /** Tables are pages in use; every new one is blank and one CPU's; every pagemap's lock is with one CPU. */
  ghost predicate Inv(s: State) {
    && s.roots <= s.pages
    && (forall x | x in s.tables :: x.table in s.pages && s.tables[x] in s.pages)
    && (forall x | x in s.leaves :: x.table in s.pages)
    && (forall i | 0 <= i < |s.cpus| :: Placed(s, s.cpus[i]))
    && (forall i, j | 0 <= i < j < |s.cpus| && !s.cpus[i].Out? && !s.cpus[j].Out? :: s.cpus[i].root != s.cpus[j].root)
    && (forall i, j | 0 <= i < j < |s.cpus| && s.cpus[i].New? && s.cpus[j].New? :: s.cpus[i].page != s.cpus[j].page)
  }

  ghost predicate Placed(s: State, pc: Pc) {
    pc.Out? || (pc.at in s.pages && pc.root in s.roots && pc.d < |pc.path| && (pc.Down? || pc.d + 1 < |pc.path|)
                && (pc.New? ==> Blank(s, pc.page)))
  }

  lemma StepKeeps(s: State, a: Action)
    requires Inv(s) && Enabled(s, a)
    ensures Inv(Next(s, a))
  {
    var s' := Next(s, a);
    forall i | 0 <= i < |s.cpus| ensures Placed(s', s'.cpus[i]) {
      assert Placed(s, s.cpus[i]) && Placed(s, s.cpus[a.cpu]);
    }
  }

  lemma {:induction false} RunKeeps(s: State, actions: seq<Action>, k: nat)
    requires Inv(s) && Runs(s, actions) && k <= |actions|
    ensures Inv(At(s, actions, k))
    decreases k
  {
    if k > 0 {
      RunKeeps(s, actions, k - 1);
      StepAt(s, actions, k - 1);
      StepKeeps(At(s, actions, k - 1), actions[k - 1]);
    } else {
      assert actions[..0] == [];
    }
  }

  /** Losing a table takes calls on two pagemaps. */
  lemma LossTakesTwo(s: State, actions: seq<Action>, j: nat, k: nat, c: nat)
    requires Inv(s) && Runs(s, actions) && Overtakes(s, actions, j, k, c)
    ensures var t := At(s, actions, j);
      t.cpus[c].root != t.cpus[actions[j].cpu].root && t.cpus[c].root in t.roots
        && t.cpus[actions[j].cpu].root in t.roots
  {
    RunKeeps(s, actions, j);
  }

  lemma {:induction false} RootsStay(s: State, actions: seq<Action>, k: nat)
    requires Runs(s, actions) && k <= |actions|
    ensures At(s, actions, k).roots == s.roots
    decreases k
  {
    if k > 0 {
      RootsStay(s, actions, k - 1);
      StepAt(s, actions, k - 1);
    } else {
      assert actions[..0] == [];
    }
  }

  /** With one pagemap, whose lock then guards all tables, none is ever lost. */
  lemma OnePagemapLosesNothing(s: State, actions: seq<Action>)
    requires Inv(s) && Quiet(s) && Runs(s, actions) && forall r, q | r in s.roots && q in s.roots :: r == q
    ensures Lossless(s, actions, |actions|)
  {
    LosesIff(s, actions);
    if j: nat, k: nat, c: nat :| Overtakes(s, actions, j, k, c) {
      RootsStay(s, actions, j);
      LossTakesTwo(s, actions, j, k, c);
    }
  }

  // ---- what the walks find ----

  /** The table a walk from `page` along `path` leads to. */
  ghost function WalkTo(tables: map<Slot, nat>, page: nat, path: seq<nat>): Option<nat>
    decreases |path|
  {
    if path == [] then Some(page)
    else if Slot(page, path[0]) in tables then WalkTo(tables, tables[Slot(page, path[0])], path[1..])
    else None
  }

  ghost function Upper(path: seq<nat>): seq<nat>
    requires path != []
  {
    path[..|path| - 1]
  }

  /** The entry the processor finds for the page at `path`. */
  ghost function Find(s: State, root: nat, path: seq<nat>): Option<Word>
    requires path != []
  {
    var t := WalkTo(s.tables, root, Upper(path));
    if t.None? || Slot(t.value, path[|path| - 1]) !in s.leaves then None
       else Some(s.leaves[Slot(t.value, path[|path| - 1])])
  }

  lemma {:induction false} WalkOneMore(tables: map<Slot, nat>, page: nat, path: seq<nat>, t: nat, i: nat)
    requires WalkTo(tables, page, path) == Some(t) && Slot(t, i) in tables
    ensures WalkTo(tables, page, path + [i]) == Some(tables[Slot(t, i)])
    decreases |path|
  {
    if path == [] {
      assert WalkTo(tables, tables[Slot(t, i)], (path + [i])[1..]) == Some(tables[Slot(t, i)]);
    } else {
      assert (path + [i])[1..] == path[1..] + [i];
      WalkOneMore(tables, tables[Slot(page, path[0])], path[1..], t, i);
    }
  }

  /** More entries change no walk that leads somewhere. */
  lemma {:induction false} WalkStays(tables: map<Slot, nat>, x: Slot, f: nat, page: nat, path: seq<nat>)
    requires x !in tables && WalkTo(tables, page, path).Some?
    ensures WalkTo(tables[x := f], page, path) == WalkTo(tables, page, path)
    decreases |path|
  {
    if path != [] {
      WalkStays(tables, x, f, tables[Slot(page, path[0])], path[1..]);
    }
  }

  /** Overwriting entry `x` with a blank table cuts off every walk through it. */
  lemma {:induction false} WalkCut(tables: map<Slot, nat>, x: Slot, f: nat, page: nat, path: seq<nat>, e: nat)
    requires e < |path| && WalkTo(tables, page, path[..e]) == Some(x.table) && path[e] == x.index && x.table != f
    requires forall y | y in tables :: y.table != f
    ensures var t := WalkTo(tables[x := f], page, path); t == None || t == Some(f)
    decreases |path|
  {
    if Slot(page, path[0]) == x {
      var rest := path[1..];
      assert rest != [] ==> Slot(f, rest[0]) !in tables[x := f];
    } else {
      assert path[..e][1..] == path[1..][..e - 1];
      WalkCut(tables, x, f, tables[Slot(page, path[0])], path[1..], e - 1);
    }
  }

  /** When a table is lost, every page below the entry is unmapped in every pagemap that reaches it. */
  lemma LosingUnmaps(s: State, a: Action, root: nat, path: seq<nat>, e: nat)
    requires Inv(s) && Loses(s, a) && e + 1 < |path|
    requires var x := SlotOf(s.cpus[a.cpu]); WalkTo(s.tables, root, path[..e]) == Some(x.table) && path[e] == x.index
    ensures Find(Next(s, a), root, path) == None
  {
    var x, f := SlotOf(s.cpus[a.cpu]), s.cpus[a.cpu].page;
    assert Placed(s, s.cpus[a.cpu]);
    assert Upper(path)[..e] == path[..e];
    WalkCut(s.tables, x, f, root, Upper(path), e);
  }

  /** Every CPU in a call is where the walk is. */
  ghost predicate Tracks(s: State) {
    forall i | 0 <= i < |s.cpus| && !s.cpus[i].Out? :: Tracked(s.tables, s.cpus[i])
  }

  ghost predicate Tracked(tables: map<Slot, nat>, pc: Pc)
    requires !pc.Out?
  {
    pc.d < |pc.path| && WalkTo(tables, pc.root, pc.path[..pc.d]) == Some(pc.at)
  }

  lemma StepTracks(s: State, a: Action)
    requires Inv(s) && Enabled(s, a) && Tracks(s) && !Loses(s, a)
    ensures Tracks(Next(s, a))
  {
    var s', c := Next(s, a), a.cpu;
    forall i | 0 <= i < |s.cpus| && !s'.cpus[i].Out? ensures Tracked(s'.tables, s'.cpus[i]) {
      assert Placed(s, s.cpus[c]);
      if i == c {
        OwnTracked(s, a);
      } else if a.Hang? {
        assert Tracked(s.tables, s.cpus[i]);
        WalkStays(s.tables, SlotOf(s.cpus[c]), s.cpus[c].page, s.cpus[i].root, s.cpus[i].path[..s.cpus[i].d]);
      }
    }
  }

  lemma OwnTracked(s: State, a: Action)
    requires Enabled(s, a) && Placed(s, s.cpus[a.cpu]) && !Loses(s, a) && !Next(s, a).cpus[a.cpu].Out?
    requires s.cpus[a.cpu].Out? || Tracked(s.tables, s.cpus[a.cpu])
    ensures Tracked(Next(s, a).tables, Next(s, a).cpus[a.cpu])
  {
    var s', pc := Next(s, a), s.cpus[a.cpu];
    if !pc.Out? {
      var done := pc.path[..pc.d];
      assert pc.d + 1 < |pc.path| ==> pc.path[..pc.d + 1] == done + [pc.path[pc.d]];
      if a.Hang? {
        WalkStays(s.tables, SlotOf(pc), pc.page, pc.root, done);
      }
      if s'.cpus[a.cpu].d == pc.d + 1 {
        WalkOneMore(s'.tables, pc.root, done, pc.at, pc.path[pc.d]);
      }
    }
  }

  /** No step before action `k` loses a table. */
  ghost predicate Lossless(s: State, actions: seq<Action>, k: nat)
    requires Runs(s, actions) && k <= |actions|
  {
    forall m: nat | m < k :: !Loses(At(s, actions, m), actions[m])
  }

  lemma {:induction false} RunTracks(s: State, actions: seq<Action>, k: nat)
    requires Inv(s) && Quiet(s) && Runs(s, actions) && k <= |actions| && Lossless(s, actions, k)
    ensures Tracks(At(s, actions, k))
    decreases k
  {
    if k > 0 {
      RunTracks(s, actions, k - 1);
      RunKeeps(s, actions, k - 1);
      StepAt(s, actions, k - 1);
      StepTracks(At(s, actions, k - 1), actions[k - 1]);
    } else {
      assert actions[..0] == [];
    }
  }

  lemma {:induction false} FoundTill(s: State, actions: seq<Action>, k: nat, m: nat, root: nat, path: seq<nat>, t: nat)
    requires Runs(s, actions) && k <= m <= |actions| && Lossless(s, actions, m)
             && WalkTo(At(s, actions, k).tables, root, path) == Some(t)
    ensures WalkTo(At(s, actions, m).tables, root, path) == Some(t)
    decreases m
  {
    if k < m {
      FoundTill(s, actions, k, m - 1, root, path, t);
      StepAt(s, actions, m - 1);
      var u, a := At(s, actions, m - 1), actions[m - 1];
      if a.Hang? {
        WalkStays(u.tables, SlotOf(u.cpus[a.cpu]), u.cpus[a.cpu].page, root, path);
      }
    }
  }

  /** The last-level entry action `l` stores. */
  ghost predicate Stores(s: State, actions: seq<Action>, l: nat, x: Slot)
    requires Runs(s, actions) && l < |actions|
  {
    var t := At(s, actions, l);
    actions[l].Put? && Enabled(t, actions[l]) && SlotOf(t.cpus[actions[l].cpu]) == x
  }

  lemma {:induction false} LeafTill(s: State, actions: seq<Action>, k: nat, m: nat, x: Slot, v: Word)
    requires Runs(s, actions) && k <= m <= |actions| && x in At(s, actions, k).leaves
             && At(s, actions, k).leaves[x] == v
    requires forall l | k <= l < m :: !Stores(s, actions, l, x)
    ensures x in At(s, actions, m).leaves && At(s, actions, m).leaves[x] == v
    decreases m
  {
    if k < m {
      LeafTill(s, actions, k, m - 1, x, v);
      StepAt(s, actions, m - 1);
      assert !Stores(s, actions, m - 1, x);
    }
  }

  /** As long as no table is lost, what a call stored is found by the walk, from then on until another call stores the
      same entry, whatever the CPUs do at the same time. */
  lemma MappedStaysFound(s: State, actions: seq<Action>, k: nat, m: nat, x: Slot)
    requires Inv(s) && Quiet(s) && Runs(s, actions) && k < m <= |actions| && Lossless(s, actions, m)
    requires Stores(s, actions, k, x) && forall l | k < l < m :: !Stores(s, actions, l, x)
    ensures var pc := At(s, actions, k).cpus[actions[k].cpu];
      Find(At(s, actions, m), pc.root, pc.path) == Some(actions[k].v)
  {
    var t := At(s, actions, k);
    var pc := t.cpus[actions[k].cpu];
    RunTracks(s, actions, k);
    assert Tracked(t.tables, pc);
    assert Upper(pc.path) == pc.path[..pc.d];
    StepAt(s, actions, k);
    FoundTill(s, actions, k, m, pc.root, Upper(pc.path), pc.at);
    LeafTill(s, actions, k + 1, m, x, actions[k].v);
  }

  // ---- a run that loses a table ----

  /** Four levels; two pagemaps, in pages 0 and 1, whose entries 256 point at the shared table in page 2, whose entry 5
      points at the one in page 3. */
  const TWO := State(4, map[Slot(0, 256) := 2, Slot(1, 256) := 2, Slot(2, 5) := 3], map[], {0, 1}, {0, 1, 2, 3},
                     [Out, Out])

  const FIRST := [256, 5, 6, 7]
  const SECOND := [256, 5, 6, 8]

  /** Two calls in step. */
  const RACE := [Enter(0, 0, FIRST), Enter(1, 1, SECOND), Look(0), Look(1), Look(0), Look(1), Look(0), Look(1),
                 Take(0, 4), Take(1, 5), Hang(0), Put(0, 11), Hang(1), Put(1, 22)]

  ghost predicate Reaches(k: nat, s: State) { k <= |RACE| && Runs(TWO, RACE[..k]) && After(TWO, RACE[..k]) == s }

  lemma RaceStep(k: nat, s: State, t: State)
    requires k < |RACE| && Reaches(k, s) && Enabled(s, RACE[k]) && Next(s, RACE[k]) == t
    ensures Reaches(k + 1, t)
  {
    assert RACE[..k + 1][..k] == RACE[..k];
  }

  ghost function With(s: State, a: Pc, b: Pc): State { s.(cpus := [a, b]) }

  /** Both CPUs are in their calls; both are at the first shared table; both are at the second. */
  lemma RaceBegins()
    ensures Reaches(2, With(TWO, Down(0, FIRST, 0, 0), Down(1, SECOND, 0, 1)))
  {
    assert Reaches(0, TWO);
    RaceStep(0, TWO, With(TWO, Down(0, FIRST, 0, 0), Out));
    RaceStep(1, With(TWO, Down(0, FIRST, 0, 0), Out), With(TWO, Down(0, FIRST, 0, 0), Down(1, SECOND, 0, 1)));
  }

  lemma BothShared()
    ensures Reaches(4, With(TWO, Down(0, FIRST, 1, 2), Down(1, SECOND, 1, 2)))
  {
    RaceBegins();
    RaceStep(2, With(TWO, Down(0, FIRST, 0, 0), Down(1, SECOND, 0, 1)),
             With(TWO, Down(0, FIRST, 1, 2), Down(1, SECOND, 0, 1)));
    RaceStep(3, With(TWO, Down(0, FIRST, 1, 2), Down(1, SECOND, 0, 1)),
             With(TWO, Down(0, FIRST, 1, 2), Down(1, SECOND, 1, 2)));
  }

  lemma BothDown()
    ensures Reaches(6, With(TWO, Down(0, FIRST, 2, 3), Down(1, SECOND, 2, 3)))
  {
    BothShared();
    RaceStep(4, With(TWO, Down(0, FIRST, 1, 2), Down(1, SECOND, 1, 2)),
             With(TWO, Down(0, FIRST, 2, 3), Down(1, SECOND, 1, 2)));
    RaceStep(5, With(TWO, Down(0, FIRST, 2, 3), Down(1, SECOND, 1, 2)),
             With(TWO, Down(0, FIRST, 2, 3), Down(1, SECOND, 2, 3)));
  }

  /** Both have found its entry 6 absent. */
  lemma BothLook()
    ensures Reaches(8, With(TWO, Absent(0, FIRST, 2, 3), Absent(1, SECOND, 2, 3)))
  {
    BothDown();
    var a, b := Absent(0, FIRST, 2, 3), Absent(1, SECOND, 2, 3);
    RaceStep(6, With(TWO, Down(0, FIRST, 2, 3), Down(1, SECOND, 2, 3)), With(TWO, a, Down(1, SECOND, 2, 3)));
    RaceStep(7, With(TWO, a, Down(1, SECOND, 2, 3)), With(TWO, a, b));
  }

  /** Both have allocated a table. */
  const READY := TWO.(pages := {0, 1, 2, 3, 4, 5}, cpus := [New(0, FIRST, 2, 3, 4), New(1, SECOND, 2, 3, 5)])

  lemma RaceGoesOn()
    ensures Reaches(10, READY)
  {
    BothLook();
    var s := TWO.(pages := {0, 1, 2, 3, 4}, cpus := [New(0, FIRST, 2, 3, 4), Absent(1, SECOND, 2, 3)]);
    RaceStep(8, With(TWO, Absent(0, FIRST, 2, 3), Absent(1, SECOND, 2, 3)), s);
    RaceStep(9, s, READY);
  }

  /** CPU 0 has hung its table there and mapped its page. */
  const MAPPED := READY.(tables := TWO.tables[Slot(3, 6) := 4], leaves := map[Slot(4, 7) := 11],
                         cpus := [Out, New(1, SECOND, 2, 3, 5)])

  lemma RaceMaps()
    ensures Reaches(12, MAPPED) && Find(MAPPED, 0, FIRST) == Some(11)
  {
    RaceGoesOn();
    var s := READY.(tables := TWO.tables[Slot(3, 6) := 4], cpus := [Down(0, FIRST, 3, 4), New(1, SECOND, 2, 3, 5)]);
    RaceStep(10, READY, s);
    RaceStep(11, s, MAPPED);
    FourLevels(MAPPED, 4);
  }

  /** CPU 0's page is mapped, and no longer once CPU 1 has overwritten the entry. */
  lemma RaceLosesMapping()
    ensures Inv(TWO) && Quiet(TWO) && Runs(TWO, RACE)
    ensures Find(At(TWO, RACE, 12), 0, FIRST) == Some(11) && Find(At(TWO, RACE, 14), 0, FIRST) == None
  {
    RaceMaps();
    RaceEnds();
    assert RACE[..14] == RACE;
  }

  lemma RaceEnds()
    ensures Reaches(14, ENDED) && Find(ENDED, 0, FIRST) == None
  {
    RaceMaps();
    var s := MAPPED.(tables := TWO.tables[Slot(3, 6) := 5], cpus := [Out, Down(1, SECOND, 3, 5)]);
    RaceStep(12, MAPPED, s);
    RaceStep(13, s, ENDED);
    FourLevels(ENDED, 5);
  }

  /** CPU 1 has hung its own and mapped its page. */
  const ENDED := MAPPED.(tables := TWO.tables[Slot(3, 6) := 5], leaves := map[Slot(4, 7) := 11, Slot(5, 8) := 22],
                         cpus := [Out, Out])

  /** What the walk along `FIRST` finds, when entry 6 points at page `f`. */
  lemma FourLevels(s: State, f: nat)
    requires s.tables == TWO.tables[Slot(3, 6) := f]
    ensures Find(s, 0, FIRST) == if Slot(f, 7) in s.leaves then Some(s.leaves[Slot(f, 7)]) else None
  {
    var upper := Upper(FIRST);
    assert upper == [256, 5, 6] && upper[1..] == [5, 6] && [5, 6][1..] == [6] && [6][1..] == [];
    assert WalkTo(s.tables, 3, [6]) == WalkTo(s.tables, f, []) == Some(f);
    assert WalkTo(s.tables, 2, [5, 6]) == WalkTo(s.tables, 3, [6]);
  }
}
