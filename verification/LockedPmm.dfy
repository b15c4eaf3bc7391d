/**
 The page allocator used by any number of CPUs with `pmm_lock` spelled out: taking the lock, every turn of the scan,
 every bit set or cleared and releasing the lock are steps of their own, between which the other CPUs take theirs. It
 refines the allocator whose locked parts are single steps, so that every claim about the latter holds of it.
 */
module LockedPmm {
  import opened Bits
  import opened PageRuns
  import Pmm
  import C = ConcurrentPmm

  /** Where a CPU is: where no lock is involved, or in one of the two locked sections or on the way to it. */
  datatype Pc =
    | Open(pc: C.Pc)
    | Wanting(count: nat)                                                // pmm_alloc_nozero: spinning on the lock
    | Search(count: nat, last: nat, limit: nat, second: bool, p: nat)    // pmm_inner_alloc, first or second pass
    | Marking(count: nat, first: nat, i: nat)                            // i bits of the run found are set
    | Stuck(count: nat)                                                  // panicked, out of memory, with the lock
    | Freeing(start: nat, done: nat)                                     // pmm_free: spinning on the lock
    | Clearing(start: nat, done: nat, count: nat, i: nat)                // i bits of the run are cleared

  /** The lock, the bitmap and the cursor; `pages` is what the last CPU to release the lock left behind. */
  datatype State = State(locked: bool, used: set<nat>, cursor: nat, pages: Pages, mem: seq<Word>, cpus: seq<Pc>,
                         owner: map<nat, nat>)

  datatype Action =
    | Outer(cpu: nat, step: C.Action)   // a step outside the lock
    | Call(cpu: nat, count: nat)        // pmm_alloc_nozero is called
    | CallFree(cpu: nat)                // pmm_free is done poisoning
    | Acquire(cpu: nat)                 // the test-and-set that succeeds
    | Turn(cpu: nat)                    // one turn of the scan
    | EndPass(cpu: nat)                 // the scan is at its limit
    | SetBit(cpu: nat)
    | ClearBit(cpu: nat)
    | Release(cpu: nat)

  predicate Inside(pc: Pc) { pc.Search? || pc.Marking? || pc.Stuck? || pc.Clearing? }

  // ---- the allocator whose locked parts are single steps ----

  /** Until it releases the lock a CPU has done nothing. */
  function AbsPc(pc: Pc): C.Pc {
    match pc
    case Open(c) => c
    case Freeing(start, done) => C.Poisoning(start, done)
    case Clearing(start, done, _, _) => C.Poisoning(start, done)
    case _ => C.Outside
  }

  function AbsPcs(cpus: seq<Pc>): seq<C.Pc> { seq(|cpus|, i requires 0 <= i < |cpus| => AbsPc(cpus[i])) }

  ghost function Abs(s: State): C.State { C.State(s.pages, s.mem, AbsPcs(s.cpus), s.owner) }

  // ---- steps ----

  ghost predicate Enabled(n: nat, s: State, a: Action) {
    && a.cpu < |s.cpus|
    && var pc := s.cpus[a.cpu];
       match a
       case Outer(i, b) => pc.Open? && b.cpu == i && !b.Grant? && !b.Clear? && C.Enabled(n, Abs(s), b)
       case Call(_, count) => pc == Open(C.Outside) && count > 0
       case CallFree(i) => pc.Open? && C.Enabled(n, Abs(s), C.Clear(i))
       case Acquire(_) => (pc.Wanting? || (pc.Freeing? && pc.start in s.pages.live)) && !s.locked
       case Turn(_) => pc.Search? && s.cursor < pc.limit
       case EndPass(_) => pc.Search? && s.cursor >= pc.limit
       case SetBit(_) => pc.Marking? && pc.i < pc.count
       case ClearBit(_) => pc.Clearing? && pc.i < pc.count
       case Release(_) => (pc.Marking? || pc.Clearing?) && pc.i == pc.count
  }

  ghost function Next(n: nat, s: State, a: Action): State
    requires Enabled(n, s, a)
  {
    var i, pc := a.cpu, s.cpus[a.cpu];
    match a
    case Outer(_, b) =>
      var t := C.Next(n, Abs(s), b);
      s.(mem := t.mem, owner := t.owner, cpus := s.cpus[i := Open(t.cpus[i])])
    case Call(_, count) => s.(cpus := s.cpus[i := Wanting(count)])
    case CallFree(_) => s.(cpus := s.cpus[i := Freeing(pc.pc.start, pc.pc.done)])
    case Acquire(_) =>
      s.(locked := true, cpus := s.cpus[i := if pc.Wanting? then Search(pc.count, s.cursor, n, false, 0)
                                             else Clearing(pc.start, pc.done, s.pages.live[pc.start], 0)])
    case Turn(_) =>
      var p := NextRun(s.used, s.cursor, pc.p, pc.count);
      s.(cursor := s.cursor + 1,
         cpus := s.cpus[i := if p == pc.count then Marking(p, s.cursor + 1 - p, 0)
                        else Search(pc.count, pc.last, pc.limit, pc.second, p)])
    case EndPass(_) =>
      if pc.second then s.(cpus := s.cpus[i := Stuck(pc.count)])
      else s.(cursor := 0, cpus := s.cpus[i := Search(pc.count, pc.last, pc.last, true, 0)])
    case SetBit(_) => s.(used := s.used + {pc.first + pc.i}, cpus := s.cpus[i := Marking(pc.count, pc.first, pc.i + 1)])
    case ClearBit(_) => s.(used := s.used - {pc.start + pc.i},
                           cpus := s.cpus[i := Clearing(pc.start, pc.done, pc.count, pc.i + 1)])
    case Release(_) =>
      if pc.Marking?
      then s.(locked := false, pages := Pages(s.used, s.cursor, s.pages.live[pc.first := pc.count]),
              cpus := s.cpus[i := Open(C.Zeroing(pc.first, 0))])
      else s.(locked := false, pages := Pages(s.used, s.cursor, s.pages.live - {pc.start}),
              cpus := s.cpus[i := Open(C.Outside)])
  }

  /** The free pages in a row after page `c`, of which there were `q` before it. */
  ghost function NextRun(used: set<nat>, c: nat, q: nat, count: nat): (p: nat)
    ensures p <= c + 1
  {
    if c in used || q > c || count == 0 then 0 else if Aligned(c - q, count) then q + 1 else 0
  }

  // ---- what every step keeps ----

  /** How far a CPU in the locked section is. */
  ghost predicate Section(n: nat, s: State, pc: Pc) {
    match pc
    case Search(count, last, limit, second, p) =>
      && count > 0 && s.used == s.pages.used && last == s.pages.cursor <= n && s.cursor <= limit
      && (if second then limit == last && FirstFit(s.used, last, n, count).None?
          && Pmm.Scanning(s.used, 0, s.cursor, p, count)
          else limit == n && last <= s.cursor && Pmm.Scanning(s.used, last, s.cursor, p, count))
    case Marking(count, first, i) =>
      && count > 0 && i <= count && NextFit(n, s.pages.used, s.pages.cursor, count) == Some(first)
      && s.cursor == first + count && s.used == s.pages.used + Range(first, i)
    case Stuck(count) => count > 0 && NextFit(n, s.pages.used, s.pages.cursor, count).None?
    case Clearing(start, done, count, i) =>
      && start in s.pages.live && count == s.pages.live[start] && done == 512 * count && i <= count
      && s.cursor == s.pages.cursor && s.used == s.pages.used - Range(start, i)
    case Freeing(start, done) => start in s.pages.live && done == 512 * s.pages.live[start]
    case Wanting(count) => count > 0
    case Open(_) => true
  }

  /** The lock is taken exactly when a CPU is inside, and never two are. */
  ghost predicate Exclusive(s: State) {
    && (forall i | 0 <= i < |s.cpus| && Inside(s.cpus[i]) :: s.locked)
    && (s.locked ==> exists i :: 0 <= i < |s.cpus| && Inside(s.cpus[i]))
    && (forall i, j | 0 <= i < |s.cpus| && 0 <= j < |s.cpus| && Inside(s.cpus[i]) && Inside(s.cpus[j]) :: i == j)
  }

  ghost predicate Good(n: nat, reserved: set<nat>, s: State) {
    && C.Good(n, reserved, Abs(s)) && Exclusive(s)
    && (!s.locked ==> s.used == s.pages.used && s.cursor == s.pages.cursor)
    && (forall i | 0 <= i < |s.cpus| :: Section(n, s, s.cpus[i]))
  }

  lemma AbsSet(cpus: seq<Pc>, i: nat, pc: Pc)
    requires i < |cpus|
    ensures AbsPcs(cpus[i := pc]) == AbsPcs(cpus)[i := AbsPc(pc)]
  {}

  /** The step of the allocator with atomic sections that a step amounts to, if any. */
  function Image(s: State, a: Action): Option<C.Action>
    requires a.cpu < |s.cpus|
  {
    match a
    case Outer(_, b) => Some(b)
    case Release(i) => if s.cpus[i].Marking? then Some(C.Grant(i, s.cpus[i].count)) else Some(C.Clear(i))
    case _ => None
  }

  /** A step that takes CPU `i` from `pc` to `pc'` and changes nothing the other CPUs go by. */
  lemma OneMoves(n: nat, reserved: set<nat>, s: State, s': State, i: nat, pc': Pc)
    requires Good(n, reserved, s) && i < |s.cpus| && s'.cpus == s.cpus[i := pc'] && s'.pages == s.pages
    requires C.Good(n, reserved, Abs(s')) && Section(n, s', pc')
    requires Inside(s.cpus[i]) || (s'.used == s.used && s'.cursor == s.cursor)
    requires s'.locked == if Inside(s.cpus[i]) == Inside(pc') then s.locked else Inside(pc')
    requires Inside(pc') && !Inside(s.cpus[i]) ==> !s.locked
    requires !s'.locked ==> s'.used == s'.pages.used && s'.cursor == s'.pages.cursor
    ensures Good(n, reserved, s')
  {
    forall j | 0 <= j < |s'.cpus| && j != i ensures Section(n, s', s'.cpus[j]) {
      assert Section(n, s, s.cpus[j]);
    }
    if s'.locked {
      if Inside(pc') {
        assert Inside(s'.cpus[i]);
      } else {
        var j :| 0 <= j < |s.cpus| && Inside(s.cpus[j]);
        assert Inside(s'.cpus[j]);
      }
    }
  }

  lemma OuterStep(n: nat, reserved: set<nat>, s: State, a: Action)
    requires Good(n, reserved, s) && Enabled(n, s, a) && a.Outer?
    ensures Abs(Next(n, s, a)) == C.Next(n, Abs(s), a.step) && Good(n, reserved, Next(n, s, a))
  {
    var s', i, t := Next(n, s, a), a.cpu, C.Next(n, Abs(s), a.step);
    AbsSet(s.cpus, i, s'.cpus[i]);
    assert t.cpus == AbsPcs(s'.cpus);
    C.StepKeeps(n, reserved, Abs(s), a.step);
    OneMoves(n, reserved, s, s', i, s'.cpus[i]);
  }

  /** Calling, taking the lock and working under it is nothing the others notice. */
  lemma QuietStep(n: nat, reserved: set<nat>, s: State, a: Action)
    requires Good(n, reserved, s) && Enabled(n, s, a) && !a.Outer? && !a.Release?
    ensures Abs(Next(n, s, a)) == Abs(s) && Good(n, reserved, Next(n, s, a))
  {
    var s', i := Next(n, s, a), a.cpu;
    QuietAbs(n, s, a);
    assert Section(n, s, s.cpus[i]);
    assert Section(n, s', s'.cpus[i]) by {
      SectionStep(n, s, a);
    }
    OneMoves(n, reserved, s, s', i, s'.cpus[i]);
  }

  lemma QuietAbs(n: nat, s: State, a: Action)
    requires Enabled(n, s, a) && !a.Outer? && !a.Release?
    ensures Abs(Next(n, s, a)) == Abs(s)
  {
    var s', i := Next(n, s, a), a.cpu;
    AbsSet(s.cpus, i, s'.cpus[i]);
    assert AbsPcs(s'.cpus) == AbsPcs(s.cpus);
  }

  lemma SectionStep(n: nat, s: State, a: Action)
    requires Enabled(n, s, a) && !a.Outer? && !a.Release? && Section(n, s, s.cpus[a.cpu]) && s.pages.cursor <= n
    requires a.Acquire? ==> s.used == s.pages.used && s.cursor == s.pages.cursor
    ensures Section(n, Next(n, s, a), Next(n, s, a).cpus[a.cpu])
  {
    match a
    case Turn(_) => TurnStep(n, s, a);
    case EndPass(_) => EndPassStep(n, s, a);
    case Acquire(_) => AcquireStep(n, s, a);
    case SetBit(_) => BitStep(n, s, a);
    case ClearBit(_) => BitStep(n, s, a);
    case Call(_, _) =>
    case CallFree(_) =>
  }

  lemma AcquireStep(n: nat, s: State, a: Action)
    requires Enabled(n, s, a) && a.Acquire? && Section(n, s, s.cpus[a.cpu]) && s.pages.cursor <= n
    requires s.used == s.pages.used && s.cursor == s.pages.cursor
    ensures Section(n, Next(n, s, a), Next(n, s, a).cpus[a.cpu])
  {
    assert s.used - Range(0, 0) == s.used;
  }

  lemma BitStep(n: nat, s: State, a: Action)
    requires Enabled(n, s, a) && (a.SetBit? || a.ClearBit?) && Section(n, s, s.cpus[a.cpu])
    ensures Section(n, Next(n, s, a), Next(n, s, a).cpus[a.cpu])
  {}

  /** One turn of the scan. */
  lemma TurnStep(n: nat, s: State, a: Action)
    requires Enabled(n, s, a) && a.Turn? && Section(n, s, s.cpus[a.cpu])
    ensures Section(n, Next(n, s, a), Next(n, s, a).cpus[a.cpu])
  {
    var pc := s.cpus[a.cpu];
    ScanTurn(s.used, if pc.second then 0 else pc.last, s.cursor, pc.p, pc.count, pc.limit);
    assert s.used + Range(s.cursor + 1 - NextRun(s.used, s.cursor, pc.p, pc.count), 0) == s.used;
  }

  lemma ScanTurn(used: set<nat>, start: nat, c: nat, q: nat, count: nat, limit: nat)
    requires count > 0 && c < limit && Pmm.Scanning(used, start, c, q, count)
    ensures var p := NextRun(used, c, q, count);
      p <= count && if p == count then FirstFit(used, start, limit, count) == Some(c + 1 - p)
        else Pmm.Scanning(used, start, c + 1, p, count)
  {
    var p := NextRun(used, c, q, count);
    if c in used {
      Pmm.ScanBusy(used, start, c + 1, q, count);
    } else {
      Pmm.ScanFree(used, start, c + 1, q, p, count, limit);
    }
  }

  /** A pass without success. */
  lemma EndPassStep(n: nat, s: State, a: Action)
    requires Enabled(n, s, a) && a.EndPass? && Section(n, s, s.cpus[a.cpu])
    ensures Section(n, Next(n, s, a), Next(n, s, a).cpus[a.cpu])
  {
    var pc := s.cpus[a.cpu];
    FirstFitNone(s.used, if pc.second then 0 else pc.last, pc.limit, pc.count);
  }

  /** Releasing the lock is the whole section at once. */
  lemma ReleaseStep(n: nat, reserved: set<nat>, s: State, a: Action)
    requires Good(n, reserved, s) && Enabled(n, s, a) && a.Release?
    ensures var b := Image(s, a).value;
      && C.Enabled(n, Abs(s), b) && Abs(Next(n, s, a)) == C.Next(n, Abs(s), b) && Good(n, reserved, Next(n, s, a))
  {
    var s', i, b := Next(n, s, a), a.cpu, Image(s, a).value;
    assert Section(n, s, s.cpus[i]);
    ReleaseAbs(n, s, a);
    C.StepKeeps(n, reserved, Abs(s), b);
    forall j | 0 <= j < |s'.cpus| && j != i ensures Section(n, s', s'.cpus[j]) && !Inside(s'.cpus[j]) {
      assert Section(n, s, s.cpus[j]);
      OtherSection(n, reserved, s, a, j);
    }
  }

  lemma ReleaseAbs(n: nat, s: State, a: Action)
    requires Enabled(n, s, a) && a.Release? && Section(n, s, s.cpus[a.cpu])
    ensures var b := Image(s, a).value; C.Enabled(n, Abs(s), b) && Abs(Next(n, s, a)) == C.Next(n, Abs(s), b)
  {
    AbsSet(s.cpus, a.cpu, Next(n, s, a).cpus[a.cpu]);
  }

  /** A CPU on its way to the lock of `pmm_free` still has its run. */
  lemma OtherSection(n: nat, reserved: set<nat>, s: State, a: Action, j: nat)
    requires Good(n, reserved, s) && Enabled(n, s, a) && a.Release? && j < |s.cpus| && j != a.cpu
    requires C.Enabled(n, Abs(s), Image(s, a).value) && Abs(Next(n, s, a)) == C.Next(n, Abs(s), Image(s, a).value)
    ensures Section(n, Next(n, s, a), s.cpus[j]) && !Inside(s.cpus[j])
  {
    var pc := s.cpus[j];
    assert Section(n, s, pc);
    if pc.Freeing? {
      C.OtherCpu(n, reserved, Abs(s), Image(s, a).value, j);
    }
  }

  /** Every step keeps the invariant, and is nothing to the allocator with atomic sections or one step of it. */
  lemma StepRefines(n: nat, reserved: set<nat>, s: State, a: Action)
    requires Good(n, reserved, s) && Enabled(n, s, a)
    ensures Good(n, reserved, Next(n, s, a))
    ensures match Image(s, a)
            case None => Abs(Next(n, s, a)) == Abs(s)
            case Some(b) => C.Enabled(n, Abs(s), b) && Abs(Next(n, s, a)) == C.Next(n, Abs(s), b)
  {
    if a.Outer? {
      OuterStep(n, reserved, s, a);
    } else if a.Release? {
      ReleaseStep(n, reserved, s, a);
    } else {
      QuietStep(n, reserved, s, a);
    }
  }

  // ---- every interleaving ----

  ghost predicate Runs(n: nat, s: State, actions: seq<Action>)
    decreases |actions|
  {
    actions == [] || (Enabled(n, s, actions[0]) && Runs(n, Next(n, s, actions[0]), actions[1..]))
  }

  ghost function After(n: nat, s: State, actions: seq<Action>): State
    requires Runs(n, s, actions)
    decreases |actions|
  {
    if actions == [] then s else After(n, Next(n, s, actions[0]), actions[1..])
  }

  /** The steps of the allocator with atomic sections the actions amount to. */
  ghost function Images(n: nat, s: State, actions: seq<Action>): seq<C.Action>
    requires Runs(n, s, actions)
    decreases |actions|
  {
    if actions == [] then []
    else
      var b := Image(s, actions[0]);
      (if b.Some? then [b.value] else []) + Images(n, Next(n, s, actions[0]), actions[1..])
  }

  /** Every interleaving of the fine steps is a run of the allocator with atomic sections, to the same end. */
  lemma {:induction false} RunRefines(n: nat, reserved: set<nat>, s: State, actions: seq<Action>)
    requires Good(n, reserved, s) && Runs(n, s, actions)
    ensures Good(n, reserved, After(n, s, actions))
    ensures C.Runs(n, Abs(s), Images(n, s, actions))
    ensures C.After(n, Abs(s), Images(n, s, actions)) == Abs(After(n, s, actions))
    decreases |actions|
  {
    if actions != [] {
      var a, t := actions[0], Next(n, s, actions[0]);
      StepRefines(n, reserved, s, a);
      RunRefines(n, reserved, t, actions[1..]);
      var images, rest := Images(n, s, actions), Images(n, t, actions[1..]);
      if Image(s, a).Some? {
        assert images[0] == Image(s, a).value && images[1..] == rest;
      } else {
        assert images == rest;
      }
    }
  }

  /** Nobody in the allocator, nothing handed out, the lock free. */
  ghost predicate Initial(n: nat, reserved: set<nat>, s: State) {
    && Inv(n, reserved, s.pages) && s.pages.live == map[] && |s.mem| == 512 * n && s.owner == map[]
    && !s.locked && s.used == s.pages.used && s.cursor == s.pages.cursor
    && forall i | 0 <= i < |s.cpus| :: s.cpus[i] == Open(C.Outside)
  }

  lemma InitialIsGood(n: nat, reserved: set<nat>, s: State)
    requires Initial(n, reserved, s)
    ensures C.Initial(n, reserved, Abs(s)) && Good(n, reserved, s)
  {
    C.InitialIsGood(n, reserved, Abs(s));
  }

  /** In every interleaving the lock is taken exactly when a CPU is in a locked section, and never are two. */
  lemma OneInside(n: nat, reserved: set<nat>, s: State, actions: seq<Action>)
    requires Initial(n, reserved, s) && Runs(n, s, actions)
    ensures Exclusive(After(n, s, actions))
  {
    InitialIsGood(n, reserved, s);
    RunRefines(n, reserved, s, actions);
  }

  /** Whenever the lock is free the bits are those of the reserved pages and of the live runs, each counted once; and
      the live runs are those of the allocator with atomic sections. */
  lemma FreeLockConserves(n: nat, reserved: set<nat>, s: State, actions: seq<Action>)
    requires Initial(n, reserved, s) && Runs(n, s, actions) && !After(n, s, actions).locked
    ensures C.Runs(n, Abs(s), Images(n, s, actions))
    ensures var t := After(n, s, actions);
      && t.pages == C.After(n, Abs(s), Images(n, s, actions)).pages && t.used == t.pages.used
      && Inv(n, reserved, t.pages) && |t.used| == |reserved| + Total(t.pages.live)
  {
    InitialIsGood(n, reserved, s);
    RunRefines(n, reserved, s, actions);
    CountUsed(n, reserved, After(n, s, actions).pages);
  }

  /** In every interleaving a CPU that panicked out of memory found no run in either pass over the bits as the last
      CPU to release the lock had left them. */
  lemma PanicsWhenOut(n: nat, reserved: set<nat>, s: State, actions: seq<Action>, i: nat)
    requires Initial(n, reserved, s) && Runs(n, s, actions)
    requires i < |After(n, s, actions).cpus| && After(n, s, actions).cpus[i].Stuck?
    ensures var t := After(n, s, actions);
      t.cpus[i].count > 0 && NextFit(n, t.pages.used, t.pages.cursor, t.cpus[i].count).None?
  {
    InitialIsGood(n, reserved, s);
    RunRefines(n, reserved, s, actions);
    assert Section(n, After(n, s, actions), After(n, s, actions).cpus[i]);
  }

  /** Steps a CPU in a locked section has left at most. */
  function Left(n: nat, s: State, pc: Pc): nat {
    match pc
    case Search(count, last, limit, second, _) =>
      (if s.cursor < limit then limit - s.cursor else 0) + (if second then 0 else last + 1) + count + 3
    case Marking(count, _, i) => if i <= count then count - i + 1 else 0
    case Clearing(_, _, count, i) => if i <= count then count - i + 1 else 0
    case _ => 0
  }

  /** A step of CPU `i` that brings it nearer to the end of its locked section, or to that end. */
  ghost predicate Advances(n: nat, s: State, a: Action, i: nat) {
    && a.cpu == i && Enabled(n, s, a)
    && var t := Next(n, s, a);
       |t.cpus| == |s.cpus| && Left(n, t, t.cpus[i]) < Left(n, s, s.cpus[i]) && (Inside(t.cpus[i]) || !t.locked)
  }

  lemma SearchMoves(n: nat, s: State, i: nat) returns (a: Action)
    requires i < |s.cpus| && s.cpus[i].Search? && Section(n, s, s.cpus[i])
    ensures Advances(n, s, a, i)
  {
    a := if s.cursor < s.cpus[i].limit then Turn(i) else EndPass(i);
    if a.Turn? {
      TurnStep(n, s, a);
    }
  }

  lemma BitMoves(n: nat, s: State, i: nat) returns (a: Action)
    requires i < |s.cpus| && (s.cpus[i].Marking? || s.cpus[i].Clearing?) && Section(n, s, s.cpus[i])
    ensures Advances(n, s, a, i)
  {
    var pc := s.cpus[i];
    a := if pc.i == pc.count then Release(i) else if pc.Marking? then SetBit(i) else ClearBit(i);
  }

  /** A CPU in a locked section that has not panicked has such a step. */
  lemma InsideMoves(n: nat, reserved: set<nat>, s: State, i: nat) returns (a: Action)
    requires Good(n, reserved, s) && i < |s.cpus| && Inside(s.cpus[i]) && !s.cpus[i].Stuck?
    ensures Advances(n, s, a, i)
  {
    assert Section(n, s, s.cpus[i]);
    if s.cpus[i].Search? {
      a := SearchMoves(n, s, i);
    } else {
      a := BitMoves(n, s, i);
    }
  }

  lemma {:induction false} SectionRuns(n: nat, reserved: set<nat>, s: State, i: nat) returns (more: seq<Action>)
    requires Good(n, reserved, s) && i < |s.cpus| && Inside(s.cpus[i])
    ensures Runs(n, s, more) && |more| <= Left(n, s, s.cpus[i]) && forall k | 0 <= k < |more| :: more[k].cpu == i
    ensures var t := After(n, s, more); i < |t.cpus| && (t.cpus[i].Stuck? || !t.locked)
    decreases Left(n, s, s.cpus[i])
  {
    more := [];
    if !s.cpus[i].Stuck? {
      var a := InsideMoves(n, reserved, s, i);
      var t := Next(n, s, a);
      StepRefines(n, reserved, s, a);
      var rest := [];
      if t.locked {
        rest := SectionRuns(n, reserved, t, i);
      }
      more := [a] + rest;
      assert more[1..] == rest;
    }
  }

  /** From wherever a run has got: the CPU that has the lock, going on by itself, releases it or panics out of memory,
      after at most one step for every page of both passes and for every bit of its run, and a few. */
  lemma SectionEnds(n: nat, reserved: set<nat>, s: State, actions: seq<Action>, i: nat) returns (more: seq<Action>)
    requires Initial(n, reserved, s) && Runs(n, s, actions)
    requires i < |After(n, s, actions).cpus| && Inside(After(n, s, actions).cpus[i])
    ensures Runs(n, After(n, s, actions), more) && forall k | 0 <= k < |more| :: more[k].cpu == i
    ensures |more| <= Left(n, After(n, s, actions), After(n, s, actions).cpus[i])
    ensures var t := After(n, After(n, s, actions), more); i < |t.cpus| && (t.cpus[i].Stuck? || !t.locked)
  {
    InitialIsGood(n, reserved, s);
    RunRefines(n, reserved, s, actions);
    more := SectionRuns(n, reserved, After(n, s, actions), i);
  }

  /** In every interleaving a run is delivered with every word zero and apart from every run live then. */
  lemma DeliveredZeroed(n: nat, reserved: set<nat>, s: State, actions: seq<Action>, i: nat, u: nat)
    requires Initial(n, reserved, s) && Runs(n, s, actions) && Enabled(n, After(n, s, actions), Outer(i, C.Deliver(i)))
    ensures var t := After(n, s, actions);
      var start := t.cpus[i].pc.start;
      && start in t.pages.live && C.RangeIs(t.mem, 512 * start, 512 * t.pages.live[start], 0) && start !in t.owner
      && (u in t.pages.live && u != start ==> u + t.pages.live[u] <= start || start + t.pages.live[start] <= u)
  {
    InitialIsGood(n, reserved, s);
    RunRefines(n, reserved, s, actions);
    C.DeliveredZeroed(n, reserved, Abs(s), Images(n, s, actions), i, u);
  }
}
