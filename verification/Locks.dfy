/**
 Spinlocks and interrupt masking as interleaved steps of any number of CPUs: `lib/spinlock.c`,
 `interrupt_toggle`, and the sections of `mm/pmm.c`, `mm/vmm.c`, `mm/slab.c`, `lib/printf.c` and
 `devices/term/term.c` that use them.
 */
module Locks {

  datatype Lock = Pagemap(id: nat) | SlabLock(c: nat) | PmmLock | PrintfLock | TermLock(t: nat)

  /** Whether the section masks interrupts before acquiring and restores them after releasing.
      `alloc_from_slab` and `free_in_slab` do neither. */
  predicate Toggles(l: Lock) { !l.SlabLock? }

  /** The acquisitions made while holding another lock, outside the panic path. */
  predicate Nests(outer: Lock, inner: Lock) {
    || ((outer.Pagemap? || outer.SlabLock?) && inner.PmmLock?)
    || (outer.PrintfLock? && inner.TermLock?)
  }

  /** The fixed order they climb. */
  function Rank(l: Lock): nat { if l.PmmLock? || l.TermLock? then 1 else 0 }

  datatype Phase = Spinning | Holding | Released

  /** One section a CPU is in: its lock, the interrupt flag saved on entry, how far it is. */
  datatype Frame = Frame(lock: Lock, saved: bool, phase: Phase)

  /** `interrupts` is the CPU's flag, `stack` its nested sections, outermost first; `base` is the flag as it
      was when the CPU was last outside all sections. */
  datatype Cpu = Cpu(interrupts: bool, stack: seq<Frame>, panicked: bool, base: bool)

  /** `term_init_done`. */
  datatype Terms = NotDone | DebugDone | NormalDone

  /** `locked` are the locks whose flag is true. While `alone` only the boot CPU, CPU 0, is running. */
  datatype State = State(locked: set<Lock>, cpus: seq<Cpu>, terms: Terms, alone: bool)

  datatype Action =
    | SetInterrupts(cpu: nat, on: bool)   // outside all sections: sti, cli
    | Enter(cpu: nat, lock: Lock)         // interrupt_toggle(false), if the section does
    | TestAcquire(cpu: nat)               // spinlock_test_acq, once
    | Reset(cpu: nat)                     // slab->lock = SPINLOCK_INITIALISER in create_slab
    | Release(cpu: nat)                   // spinlock_release
    | Exit(cpu: nat)                      // interrupt_toggle(old_int_state), if the section does
    | TermReset(cpu: nat, debug: bool, t: nat)   // terms[t].spinlock = SPINLOCK_INITIALISER in term_init
    | TermDone(cpu: nat, debug: bool)     // the end of term_init
    | StartOthers(cpu: nat)               // mp_init, called by kmain after term_init(false)

  function Top(c: Cpu): Frame
    requires c.stack != []
  {
    c.stack[|c.stack| - 1]
  }

  /** The test at the start of `term_init`. */
  predicate InitsTerms(terms: Terms, debug: bool) { if debug then terms.NotDone? else !terms.NormalDone? }

  /** The CPU is running. */
  predicate Runnable(s: State, i: nat) { i < |s.cpus| && !s.cpus[i].panicked && (s.alone ==> i == 0) }

  predicate Enabled(s: State, a: Action) {
    && Runnable(s, a.cpu)
    && var c := s.cpus[a.cpu];
       match a
       case SetInterrupts(_, _) => c.stack == []
       case Enter(_, lock) => c.stack == [] || (Top(c).phase == Holding && Nests(Top(c).lock, lock))
       case TestAcquire(_) => c.stack != [] && Top(c).phase == Spinning
       case Reset(_) => c.stack != [] && Top(c).phase == Holding && Top(c).lock.SlabLock?
       case Release(_) => c.stack != [] && Top(c).phase == Holding
       case Exit(_) => c.stack != [] && Top(c).phase == Released
       case TermReset(_, debug, _) => c.stack == [] && InitsTerms(s.terms, debug)
       case TermDone(_, debug) => c.stack == [] && InitsTerms(s.terms, debug)
       case StartOthers(_) => c.stack == [] && s.terms.NormalDone?
  }

  function SetTop(c: Cpu, phase: Phase): Cpu
    requires c.stack != []
  {
    c.(stack := c.stack[|c.stack| - 1 := Top(c).(phase := phase)])
  }

  /** The CPU that acts, after the step. */
  function NextCpu(s: State, a: Action): Cpu
    requires Enabled(s, a)
  {
    var c := s.cpus[a.cpu];
    match a
    case SetInterrupts(_, on) => c.(interrupts := on, base := on)
    case Enter(_, lock) =>
      c.(stack := c.stack + [Frame(lock, c.interrupts, Spinning)],
         interrupts := if Toggles(lock) then false else c.interrupts)
    case TestAcquire(_) =>
      if c.interrupts then c.(panicked := true) else if Top(c).lock in s.locked then c else SetTop(c, Holding)
    case Reset(_) => c
    case Release(_) => SetTop(c, Released)
    case Exit(_) =>
      c.(stack := c.stack[..|c.stack| - 1], interrupts := if Toggles(Top(c).lock) then Top(c).saved else c.interrupts)
    case TermReset(_, _, _) => c
    case TermDone(_, _) => c
    case StartOthers(_) => c
  }

  /** The locks whose flag is true, after the step. */
  function NextLocked(s: State, a: Action): set<Lock>
    requires Enabled(s, a)
  {
    var c := s.cpus[a.cpu];
    match a
    case TestAcquire(_) => if c.interrupts || Top(c).lock in s.locked then s.locked else s.locked + {Top(c).lock}
    case Reset(_) => s.locked - {Top(c).lock}
    case Release(_) => s.locked - {Top(c).lock}
    case TermReset(_, _, t) => s.locked - {TermLock(t)}
    case _ => s.locked
  }

  function Next(s: State, a: Action): State
    requires Enabled(s, a)
  {
    State(NextLocked(s, a), s.cpus[a.cpu := NextCpu(s, a)],
          if a.TermDone? then (if a.debug then DebugDone else NormalDone) else s.terms, s.alone && !a.StartOthers?)
  }

  predicate Runs(s: State, actions: seq<Action>)
    decreases |actions|
  {
    actions == [] || (Enabled(s, actions[0]) && Runs(Next(s, actions[0]), actions[1..]))
  }

  function After(s: State, actions: seq<Action>): State
    requires Runs(s, actions)
    decreases |actions|
  {
    if actions == [] then s else After(Next(s, actions[0]), actions[1..])
  }

  /** The boot CPU alone, nobody in a section, nothing locked. */
  predicate Initial(s: State) {
    s.locked == {} && s.terms == NotDone && s.alone && forall i | 0 <= i < |s.cpus| ::
      s.cpus[i].stack == [] && s.cpus[i].base == s.cpus[i].interrupts
  }

  /** CPU `i` is inside the section guarded by `l`, in frame `k` of its stack. */
  ghost predicate HoldsAt(s: State, i: nat, k: nat, l: Lock) {
    i < |s.cpus| && k < |s.cpus[i].stack| && s.cpus[i].stack[k].lock == l && s.cpus[i].stack[k].phase == Holding
  }

  ghost predicate Holds(s: State, i: nat, l: Lock) { exists k: nat :: HoldsAt(s, i, k, l) }

  /** One CPU by itself: all sections but the innermost are held and nest, interrupts are off in every section
      that masks them and wherever a lock is held, and what will be restored at the end is the flag at entry. */
  ghost predicate CpuOk(c: Cpu) {
    && (forall k | 0 <= k < |c.stack| - 1 :: c.stack[k].phase == Holding && Nests(c.stack[k].lock, c.stack[k + 1].lock))
    && (forall k | 0 <= k < |c.stack| :: c.stack[k].phase == Holding || Toggles(c.stack[k].lock) ==> !c.interrupts)
    && (forall k | 0 < k < |c.stack| && Toggles(c.stack[k].lock) :: !c.stack[k].saved)
    && (c.stack != [] ==> c.stack[0].saved == c.base)
    && (c.stack == [] || !Toggles(c.stack[0].lock) ==> c.interrupts == c.base)
  }

  ghost predicate Exclusive(s: State, l: Lock) {
    && (forall i: nat, k: nat, j: nat, m: nat :: HoldsAt(s, i, k, l) && HoldsAt(s, j, m, l) ==> i == j && k == m)
    && (forall i: nat, k: nat :: HoldsAt(s, i, k, l) ==> l in s.locked)
  }

  /** Before the other CPUs are started none of them is in a section; afterwards the terminals stay as they are. */
  ghost predicate BootOk(s: State) {
    && (s.alone ==> forall i | 0 < i < |s.cpus| :: s.cpus[i].stack == [])
    && (!s.alone ==> s.terms.NormalDone?)
  }

  ghost predicate Inv(s: State) {
    && BootOk(s)
    && (forall i | 0 <= i < |s.cpus| :: CpuOk(s.cpus[i]))
    && (forall l: Lock | !l.SlabLock? :: Exclusive(s, l))
    && (forall l | l in s.locked :: exists i: nat :: Holds(s, i, l))
  }

  lemma PushOk(c: Cpu, lock: Lock)
    requires CpuOk(c) && (c.stack == [] || (Top(c).phase == Holding && Nests(Top(c).lock, lock)))
    ensures var c' := c.(stack := c.stack + [Frame(lock, c.interrupts, Spinning)]);
      CpuOk(if Toggles(lock) then c'.(interrupts := false) else c')
  {}

  lemma PopOk(c: Cpu)
    requires CpuOk(c) && c.stack != [] && Top(c).phase == Released
    ensures var c' := c.(stack := c.stack[..|c.stack| - 1]);
      CpuOk(if Toggles(Top(c).lock) then c'.(interrupts := Top(c).saved) else c')
  {}

  lemma TopOk(c: Cpu, phase: Phase)
    requires CpuOk(c) && c.stack != [] && (phase == Holding ==> !c.interrupts)
    ensures CpuOk(SetTop(c, phase))
  {}

  lemma StepKeepsCpu(s: State, a: Action, i: nat)
    requires Inv(s) && Enabled(s, a) && i < |s.cpus|
    ensures CpuOk(Next(s, a).cpus[i])
  {
    var c := s.cpus[a.cpu];
    assert CpuOk(c) && CpuOk(s.cpus[i]);
    match a
    case SetInterrupts(_, _) =>
    case Enter(_, lock) => PushOk(c, lock);
    case TestAcquire(_) => if !c.interrupts { TopOk(c, Holding); }
    case Reset(_) =>
    case Release(_) => TopOk(c, Released);
    case Exit(_) => PopOk(c);
    case _ =>
  }

  /** The lock a step acquires, if it does. */
  ghost predicate Acquires(s: State, a: Action) {
    Enabled(s, a) && a.TestAcquire? && !s.cpus[a.cpu].interrupts && Top(s.cpus[a.cpu]).lock !in s.locked
  }

  /** Who holds what after a step: as before, but for the acquiring or releasing CPU's innermost section. */
  lemma HoldsAfter(s: State, a: Action, i: nat, k: nat, l: Lock)
    requires Enabled(s, a)
    ensures var here := i == a.cpu && k == |s.cpus[a.cpu].stack| - 1;
      HoldsAt(Next(s, a), i, k, l)
      <==> (HoldsAt(s, i, k, l) && !(a.Release? && here)) || (Acquires(s, a) && here && l == Top(s.cpus[a.cpu]).lock)
  {}

  /** Terminal locks are re-initialised only while nobody holds any lock. */
  lemma TermResetIsQuiet(s: State, a: Action)
    requires Inv(s) && Enabled(s, a) && a.TermReset?
    ensures forall i: nat, k: nat, l: Lock :: !HoldsAt(s, i, k, l)
  {}

  lemma StepKeepsExclusive(s: State, a: Action, l: Lock)
    requires Inv(s) && Enabled(s, a) && !l.SlabLock?
    ensures Exclusive(Next(s, a), l)
  {
    var s' := Next(s, a);
    assert Exclusive(s, l);
    if a.TermReset? {
      TermResetIsQuiet(s, a);
    }
    forall i: nat, k: nat, j: nat, m: nat | HoldsAt(s', i, k, l) && HoldsAt(s', j, m, l) ensures i == j && k == m {
      HoldsAfter(s, a, i, k, l);
      HoldsAfter(s, a, j, m, l);
    }
    forall i: nat, k: nat | HoldsAt(s', i, k, l) ensures l in s'.locked {
      HoldsAfter(s, a, i, k, l);
      if a.Release? {
        assert HoldsAt(s, a.cpu, |s.cpus[a.cpu].stack| - 1, Top(s.cpus[a.cpu]).lock);
      }
    }
  }

  lemma StepKeepsHolder(s: State, a: Action, l: Lock)
    requires Inv(s) && Enabled(s, a) && l in Next(s, a).locked
    ensures exists i: nat :: Holds(Next(s, a), i, l)
  {
    var s' := Next(s, a);
    var n := |s.cpus[a.cpu].stack| - 1;
    if Acquires(s, a) && l == Top(s.cpus[a.cpu]).lock {
      HoldsAfter(s, a, a.cpu, n, l);
      assert Holds(s', a.cpu, l);
    } else {
      assert l in s.locked;
      var i: nat :| Holds(s, i, l);
      var k: nat :| HoldsAt(s, i, k, l);
      HoldsAfter(s, a, i, k, l);
      assert Holds(s', i, l);
    }
  }

  /** Every step of every CPU keeps the invariant. */
  lemma StepKeeps(s: State, a: Action)
    requires Inv(s) && Enabled(s, a)
    ensures Inv(Next(s, a))
  {
    var s' := Next(s, a);
    forall i | 0 <= i < |s'.cpus| ensures CpuOk(s'.cpus[i]) { StepKeepsCpu(s, a, i); }
    forall l: Lock | !l.SlabLock? ensures Exclusive(s', l) { StepKeepsExclusive(s, a, l); }
    forall l | l in s'.locked ensures exists i: nat :: Holds(s', i, l) { StepKeepsHolder(s, a, l); }
  }

  lemma {:induction false} RunKeeps(s: State, actions: seq<Action>)
    requires Inv(s) && Runs(s, actions)
    ensures Inv(After(s, actions))
    decreases |actions|
  {
    if actions != [] {
      StepKeeps(s, actions[0]);
      RunKeeps(Next(s, actions[0]), actions[1..]);
    }
  }

  lemma InitialIsOk(s: State)
    requires Initial(s)
    ensures Inv(s)
  {}

  // ---- what every interleaving satisfies ----

  /** At most one CPU is inside the section of the page allocator's lock, of any pagemap's, of the printf lock and
      of any terminal's, whatever `term_init` re-initialises and whatever happens to the slab locks. */
  lemma MutualExclusion(s: State, actions: seq<Action>, l: Lock, i: nat, j: nat)
    requires Initial(s) && Runs(s, actions) && !l.SlabLock?
    requires Holds(After(s, actions), i, l) && Holds(After(s, actions), j, l)
    ensures i == j
  {
    InitialIsOk(s);
    RunKeeps(s, actions);
    var t := After(s, actions);
    var k: nat :| HoldsAt(t, i, k, l);
    var m: nat :| HoldsAt(t, j, m, l);
    assert Exclusive(t, l);
  }

  /** A CPU that holds a lock has interrupts off, also after a nested section has been left. */
  lemma HolderIsMasked(s: State, actions: seq<Action>, i: nat, l: Lock)
    requires Initial(s) && Runs(s, actions) && Holds(After(s, actions), i, l)
    ensures !After(s, actions).cpus[i].interrupts
  {
    InitialIsOk(s);
    RunKeeps(s, actions);
    var t := After(s, actions);
    var k: nat :| HoldsAt(t, i, k, l);
    assert CpuOk(t.cpus[i]);
  }

  /** The panic of `spinlock_test_acq` with interrupts on happens exactly in the outermost section of a slab lock that
      was entered with interrupts on: every other section masks them first. */
  lemma PanicsIff(s: State, actions: seq<Action>, a: Action)
    requires Initial(s) && Runs(s, actions) && Enabled(After(s, actions), a)
    ensures var c := After(s, actions).cpus[a.cpu];
      Next(After(s, actions), a).cpus[a.cpu].panicked <==>
      a.TestAcquire? && |c.stack| == 1 && c.stack[0].lock.SlabLock? && c.stack[0].saved
  {
    InitialIsOk(s);
    RunKeeps(s, actions);
    var c := After(s, actions).cpus[a.cpu];
    assert CpuOk(c);
    if a.TestAcquire? && |c.stack| > 1 {
      assert c.stack[0].phase == Holding;
    }
  }

  lemma {:induction false} BaseKept(s: State, actions: seq<Action>, i: nat)
    requires Runs(s, actions) && i < |s.cpus|
    requires forall n | 0 <= n < |actions| :: !(actions[n].SetInterrupts? && actions[n].cpu == i)
    ensures i < |After(s, actions).cpus| && After(s, actions).cpus[i].base == s.cpus[i].base
    decreases |actions|
  {
    if actions != [] {
      BaseKept(Next(s, actions[0]), actions[1..], i);
    }
  }

  /** Between two moments outside all sections a CPU's interrupt flag is unchanged by its sections, however many
      they were, however nested and interleaved. */
  lemma FlagRestored(s: State, before: seq<Action>, actions: seq<Action>, i: nat)
    requires Initial(s) && Runs(s, before) && Runs(After(s, before), actions) && i < |After(s, before).cpus|
    requires forall n | 0 <= n < |actions| :: !(actions[n].SetInterrupts? && actions[n].cpu == i)
    requires var t := After(s, before); t.cpus[i].stack == []
    ensures var t, u := After(s, before), After(After(s, before), actions);
      i < |u.cpus| && (u.cpus[i].stack == [] ==> u.cpus[i].interrupts == t.cpus[i].interrupts)
  {
    InitialIsOk(s);
    RunKeeps(s, before);
    var t := After(s, before);
    RunKeeps(t, actions);
    BaseKept(t, actions, i);
    assert CpuOk(t.cpus[i]) && CpuOk(After(t, actions).cpus[i]);
  }

  // ---- no deadlock ----

  predicate Waiting(s: State, i: nat, l: Lock) {
    i < |s.cpus| && s.cpus[i].stack != [] && Top(s.cpus[i]).phase == Spinning && Top(s.cpus[i]).lock == l
  }

  /** CPU `i` waits for a lock CPU `j` holds. */
  ghost predicate WaitsFor(s: State, i: nat, j: nat) {
    exists l :: Waiting(s, i, l) && Holds(s, j, l)
  }

  /** A waiting CPU only holds locks of lower rank than the one it waits for. */
  lemma HeldBelowAwaited(s: State, i: nat, l: Lock, m: Lock)
    requires Inv(s) && Waiting(s, i, l) && Holds(s, i, m)
    ensures Rank(m) < Rank(l)
  {
    var k: nat :| HoldsAt(s, i, k, m);
    var c := s.cpus[i];
    assert CpuOk(c);
    assert k < |c.stack| - 1;
    StackClimbs(c, k, |c.stack| - 1);
  }

  lemma {:induction false} StackClimbs(c: Cpu, k: nat, n: nat)
    requires CpuOk(c) && k < n < |c.stack|
    ensures Rank(c.stack[k].lock) < Rank(c.stack[n].lock)
    decreases n - k
  {
    assert Nests(c.stack[k].lock, c.stack[k + 1].lock);
    if k + 1 < n {
      StackClimbs(c, k + 1, n);
    }
  }

  /** A chain of CPUs each waiting for the next climbs in rank. */
  lemma {:induction false} ChainClimbs(s: State, chain: seq<nat>, l: Lock, m: Lock)
    requires Inv(s) && |chain| > 1 && (forall n | 0 <= n < |chain| - 1 :: WaitsFor(s, chain[n], chain[n + 1]))
    requires Waiting(s, chain[0], l) && Waiting(s, chain[|chain| - 1], m)
    ensures Rank(l) < Rank(m)
    decreases |chain|
  {
    assert WaitsFor(s, chain[0], chain[1]);
    var w :| Waiting(s, chain[0], w) && Holds(s, chain[1], w);
    assert w == l;
    if |chain| == 2 {
      HeldBelowAwaited(s, chain[1], m, l);
    } else {
      assert WaitsFor(s, chain[1], chain[2]);
      var x :| Waiting(s, chain[1], x) && Holds(s, chain[2], x);
      HeldBelowAwaited(s, chain[1], x, l);
      var rest := chain[1..];
      forall n | 0 <= n < |rest| - 1 ensures WaitsFor(s, rest[n], rest[n + 1]) {
        assert WaitsFor(s, chain[n + 1], chain[n + 2]);
      }
      ChainClimbs(s, rest, x, m);
    }
  }

  /** In no reachable state do CPUs wait for each other in a circle, of any length. */
  lemma NoDeadlock(s: State, actions: seq<Action>, circle: seq<nat>)
    requires Initial(s) && Runs(s, actions) && |circle| > 1 && circle[0] == circle[|circle| - 1]
    ensures exists n :: 0 <= n < |circle| - 1 && !WaitsFor(After(s, actions), circle[n], circle[n + 1])
  {
    InitialIsOk(s);
    RunKeeps(s, actions);
    var t := After(s, actions);
    if forall n | 0 <= n < |circle| - 1 :: WaitsFor(t, circle[n], circle[n + 1]) {
      assert WaitsFor(t, circle[0], circle[1]);
      var l :| Waiting(t, circle[0], l) && Holds(t, circle[1], l);
      ChainClimbs(t, circle, l, l);
    }
  }

  /** A step that changes something. */
  ghost predicate Moves(s: State, a: Action) { Enabled(s, a) && Next(s, a) != s }

  /** One of the steps a section takes once it is entered. */
  predicate InSection(a: Action) { a.TestAcquire? || a.Release? || a.Exit? }

  lemma {:induction false} SomeoneMoves(s: State, i: nat, l: Lock)
    requires Inv(s) && Waiting(s, i, l) && forall n | 0 <= n < |s.cpus| :: !s.cpus[n].panicked
    ensures exists a :: Moves(s, a) && InSection(a)
    decreases 1 - Rank(l)
  {
    if l !in s.locked || s.cpus[i].interrupts {
      assert Moves(s, TestAcquire(i)) by { MovesOn(s, i); }
    } else {
      var j: nat :| Holds(s, j, l);
      var k: nat :| HoldsAt(s, j, k, l);
      var c := s.cpus[j];
      match Top(c).phase
      case Holding => MovesOn(s, j); assert Moves(s, Release(j));
      case Released => MovesOn(s, j); assert Moves(s, Exit(j));
      case Spinning =>
        HeldBelowAwaited(s, j, Top(c).lock, l);
        SomeoneMoves(s, j, Top(c).lock);
    }
  }

  /** Acquiring, panicking, releasing and leaving all change the CPU they happen on. */
  lemma MovesOn(s: State, i: nat)
    requires BootOk(s) && i < |s.cpus| && s.cpus[i].stack != [] && !s.cpus[i].panicked
    ensures Top(s.cpus[i]).phase == Spinning && (Top(s.cpus[i]).lock !in s.locked || s.cpus[i].interrupts) ==>
            Moves(s, TestAcquire(i))
    ensures Top(s.cpus[i]).phase == Holding ==> Moves(s, Release(i))
    ensures Top(s.cpus[i]).phase == Released ==> Moves(s, Exit(i))
  {
    var c := s.cpus[i];
    match Top(c).phase
    case Spinning => if Top(c).lock !in s.locked || c.interrupts { assert Next(s, TestAcquire(i)).cpus[i] != c; }
    case Holding => assert Next(s, Release(i)).cpus[i] != c;
    case Released => assert Next(s, Exit(i)).cpus[i] != c;
  }

  /** Progress: as long as no CPU has panicked, whenever some CPU is in a section some CPU in one can take a step
      that changes the state. */
  lemma Progress(s: State, actions: seq<Action>, i: nat)
    requires Initial(s) && Runs(s, actions)
    requires var t := After(s, actions); i < |t.cpus| && t.cpus[i].stack != [] && forall n | 0 <= n < |t.cpus| ::
             !t.cpus[n].panicked
    ensures exists a :: Moves(After(s, actions), a) && InSection(a)
  {
    InitialIsOk(s);
    RunKeeps(s, actions);
    var t := After(s, actions);
    MovesOn(t, i);
    match Top(t.cpus[i]).phase
    case Spinning => SomeoneMoves(t, i, Top(t.cpus[i]).lock);
    case Holding => assert Moves(t, Release(i));
    case Released => assert Moves(t, Exit(i));
  }

  // ---- re-initialised slab locks ----

  /** Two CPUs are inside the section of `l`. */
  ghost predicate TwoInside(s: State, l: Lock) {
    exists i: nat, j: nat :: i != j && Holds(s, i, l) && Holds(s, j, l)
  }

  /** A CPU is inside the section of `l`, but the lock's flag is clear. */
  ghost predicate Open(s: State, l: Lock) { l !in s.locked && exists i: nat :: Holds(s, i, l) }

  /** The step is made by a CPU whose innermost section is that of `l`. */
  ghost predicate On(s: State, a: Action, l: Lock) {
    a.cpu < |s.cpus| && s.cpus[a.cpu].stack != [] && Top(s.cpus[a.cpu]).lock == l
  }

  ghost predicate Takes(s: State, a: Action, l: Lock) { On(s, a, l) && Acquires(s, a) }

  /** A CPU holds a lock in one of its sections at most. */
  lemma HoldsOnce(s: State, i: nat, k: nat, m: nat, l: Lock)
    requires Inv(s) && HoldsAt(s, i, k, l) && HoldsAt(s, i, m, l)
    ensures k == m
  {
    assert CpuOk(s.cpus[i]);
    if k < m {
      StackClimbs(s.cpus[i], k, m);
    } else if m < k {
      StackClimbs(s.cpus[i], m, k);
    }
  }

  /** The step is the release of `l` by CPU `i`. */
  ghost predicate Leaves(s: State, a: Action, i: nat, l: Lock) { i == a.cpu && a.Release? && On(s, a, l) }

  /** Who holds `l` after a step. */
  lemma HoldersAfter(s: State, a: Action, i: nat, l: Lock)
    requires Inv(s) && Enabled(s, a)
    ensures Holds(Next(s, a), i, l) <==> (Holds(s, i, l) && !Leaves(s, a, i, l)) || (i == a.cpu && Takes(s, a, l))
  {
    if k: nat :| HoldsAt(Next(s, a), i, k, l) {
      HeldBefore(s, a, i, k, l);
    }
    if Takes(s, a, l) {
      TakerHolds(s, a, l);
    }
    if Holds(s, i, l) && !Leaves(s, a, i, l) {
      var k: nat :| HoldsAt(s, i, k, l);
      HeldAfter(s, a, i, k, l);
    }
  }

  lemma HeldBefore(s: State, a: Action, i: nat, k: nat, l: Lock)
    requires Inv(s) && Enabled(s, a) && HoldsAt(Next(s, a), i, k, l)
    ensures (Holds(s, i, l) && !Leaves(s, a, i, l)) || (i == a.cpu && Takes(s, a, l))
  {
    HoldsAfter(s, a, i, k, l);
    if HoldsAt(s, i, k, l) && Leaves(s, a, i, l) {
      HoldsOnce(s, i, k, |s.cpus[i].stack| - 1, l);
    }
  }

  lemma HeldAfter(s: State, a: Action, i: nat, k: nat, l: Lock)
    requires Enabled(s, a) && HoldsAt(s, i, k, l) && !Leaves(s, a, i, l)
    ensures Holds(Next(s, a), i, l)
  {
    HoldsAfter(s, a, i, k, l);
    assert HoldsAt(Next(s, a), i, k, l);
  }

  lemma TakerHolds(s: State, a: Action, l: Lock)
    requires Enabled(s, a) && Takes(s, a, l)
    ensures Holds(Next(s, a), a.cpu, l)
  {
    var top := |s.cpus[a.cpu].stack| - 1;
    HoldsAfter(s, a, a.cpu, top, l);
    assert HoldsAt(Next(s, a), a.cpu, top, l);
  }

  /** Whoever releases or re-initialises a lock holds it. */
  lemma ActorHolds(s: State, a: Action, l: Lock)
    requires Enabled(s, a) && (a.Release? || a.Reset?) && On(s, a, l)
    ensures Holds(s, a.cpu, l)
  {
    assert HoldsAt(s, a.cpu, |s.cpus[a.cpu].stack| - 1, l);
  }

  /** The holders of `l` in `t` are those in `s`, less CPU `c` if it leaves, and with it if it takes the lock. */
  ghost predicate Changed(s: State, t: State, c: nat, leaves: bool, takes: bool, l: Lock) {
    forall i: nat :: Holds(t, i, l) <==> (Holds(s, i, l) && !(i == c && leaves)) || (i == c && takes)
  }

  lemma StepChanges(s: State, a: Action, l: Lock)
    requires Inv(s) && Enabled(s, a)
    ensures Changed(s, Next(s, a), a.cpu, Leaves(s, a, a.cpu, l), Takes(s, a, l), l)
    ensures Leaves(s, a, a.cpu, l) ==> Holds(s, a.cpu, l)
    ensures Takes(s, a, l) ==> !Holds(s, a.cpu, l)
  {
    forall i: nat ensures Holds(Next(s, a), i, l) <==>
      (Holds(s, i, l) && !(i == a.cpu && Leaves(s, a, a.cpu, l))) || (i == a.cpu && Takes(s, a, l)) {
      HoldersAfter(s, a, i, l);
    }
    if Leaves(s, a, a.cpu, l) {
      ActorHolds(s, a, l);
    }
    if Takes(s, a, l) && Holds(s, a.cpu, l) {
      HeldBelowAwaited(s, a.cpu, l, l);
    }
  }

  /** From at most one holder, there are two after a change exactly when one comes in beside another. */
  lemma TwoAfter(s: State, t: State, c: nat, leaves: bool, takes: bool, l: Lock)
    requires Changed(s, t, c, leaves, takes, l) && !(leaves && takes) && (takes ==> !Holds(s, c, l)) && !TwoInside(s, l)
    ensures TwoInside(t, l) <==> takes && exists i: nat :: Holds(s, i, l)
  {
    if i: nat :| takes && Holds(s, i, l) {
      assert Holds(t, i, l) && Holds(t, c, l);
    }
  }

  /** From at most one holder, somebody is inside after a change exactly when one comes in or the one inside stays. */
  lemma SomeAfter(s: State, t: State, c: nat, leaves: bool, takes: bool, l: Lock)
    requires Changed(s, t, c, leaves, takes, l) && (leaves ==> Holds(s, c, l)) && !TwoInside(s, l)
    ensures (exists i: nat :: Holds(t, i, l)) <==> takes || (!leaves && exists i: nat :: Holds(s, i, l))
  {
    if takes {
      assert Holds(t, c, l);
    }
    if i: nat :| !leaves && Holds(s, i, l) {
      assert Holds(t, i, l);
    }
  }

  /** From at most one CPU inside, a step lets a second one in exactly when it acquires the lock while a holder
      is inside and the flag is clear. */
  lemma SecondEntersIff(s: State, a: Action, l: Lock)
    requires Inv(s) && Enabled(s, a) && !TwoInside(s, l)
    ensures TwoInside(Next(s, a), l) <==> Takes(s, a, l) && Open(s, l)
  {
    StepChanges(s, a, l);
    TwoAfter(s, Next(s, a), a.cpu, Leaves(s, a, a.cpu, l), Takes(s, a, l), l);
  }

  /** The flag after a step that does not take the lock. */
  lemma FlagAfter(s: State, a: Action, l: Lock)
    requires Inv(s) && Enabled(s, a) && !Takes(s, a, l)
    ensures l in Next(s, a).locked <==>
              l in s.locked && !((a.Release? || a.Reset?) && On(s, a, l)) && !(a.TermReset? && l == TermLock(a.t))
  {}

  /** That state arises exactly when a holder re-initialises the lock. */
  lemma OpensIff(s: State, a: Action, l: Lock)
    requires Inv(s) && Enabled(s, a) && !TwoInside(s, l) && !Open(s, l)
    ensures Open(Next(s, a), l) <==> a.Reset? && On(s, a, l)
  {
    if a.Reset? && On(s, a, l) {
      ResetOpens(s, a, l);
    } else if a.TermReset? {
      TermResetIsQuiet(s, a);
      StepChanges(s, a, l);
    } else {
      StepChanges(s, a, l);
      SomeAfter(s, Next(s, a), a.cpu, Leaves(s, a, a.cpu, l), Takes(s, a, l), l);
      if !Takes(s, a, l) {
        FlagAfter(s, a, l);
      }
    }
  }

  /** It lasts until the holder releases the lock or another CPU gets in. */
  lemma StaysOpenIff(s: State, a: Action, l: Lock)
    requires Inv(s) && Enabled(s, a) && !TwoInside(s, l) && Open(s, l)
    ensures Open(Next(s, a), l) <==> !(a.Release? && On(s, a, l)) && !Takes(s, a, l)
  {
    StepChanges(s, a, l);
    SomeAfter(s, Next(s, a), a.cpu, Leaves(s, a, a.cpu, l), Takes(s, a, l), l);
    if !Takes(s, a, l) {
      FlagAfter(s, a, l);
    }
  }

  lemma ResetOpens(s: State, a: Action, l: Lock)
    requires Inv(s) && Enabled(s, a) && a.Reset? && On(s, a, l)
    ensures Open(Next(s, a), l)
  {
    ActorHolds(s, a, l);
    HoldersAfter(s, a, a.cpu, l);
  }

  /** One moment of a run as far as `l` is concerned: whether two CPUs are inside, whether the lock is open, and what
      the next step is: a holder's re-initialisation, an acquisition or a release of `l`. */
  datatype Moment = Moment(two: bool, open: bool, resets: bool, takes: bool, releases: bool)

  ghost function MomentOf(s: State, l: Lock, resets: bool, takes: bool, releases: bool): Moment {
    Moment(TwoInside(s, l), Open(s, l), resets, takes, releases)
  }

  /** The moments of a run, the last one with no step after it. */
  ghost function Moments(s: State, actions: seq<Action>, l: Lock): (h: seq<Moment>)
    requires Runs(s, actions)
    ensures |h| == |actions| + 1
    decreases |actions|
  {
    if actions == [] then [MomentOf(s, l, false, false, false)]
    else
      var a := actions[0];
      [MomentOf(s, l, a.Reset? && On(s, a, l), Takes(s, a, l), a.Release? && On(s, a, l))]
      + Moments(Next(s, a), actions[1..], l)
  }

  /** From at most one CPU inside: what a step does. */
  predicate Law(m: Moment, m': Moment) {
    !m.two ==>
      && (m'.two <==> m.takes && m.open)
      && (m.open ==> (m'.open <==> !m.releases && !m.takes))
      && (!m.open ==> (m'.open <==> m.resets))
      && (m.resets ==> m'.open)
  }

  predicate LawAt(h: seq<Moment>, n: nat) { n + 1 < |h| && Law(h[n], h[n + 1]) }

  predicate Lawful(h: seq<Moment>) {
    && |h| > 0 && !h[|h| - 1].resets && !h[|h| - 1].takes && !h[|h| - 1].releases
    && forall n | 0 <= n < |h| - 1 :: LawAt(h, n)
  }

  lemma StepLaw(s: State, a: Action, l: Lock, m': Moment)
    requires Inv(s) && Enabled(s, a) && m'.two == TwoInside(Next(s, a), l) && m'.open == Open(Next(s, a), l)
    ensures Law(MomentOf(s, l, a.Reset? && On(s, a, l), Takes(s, a, l), a.Release? && On(s, a, l)), m')
  {
    if !TwoInside(s, l) {
      SecondEntersIff(s, a, l);
      if a.Reset? && On(s, a, l) {
        ResetOpens(s, a, l);
      }
      if Open(s, l) {
        StaysOpenIff(s, a, l);
      } else {
        OpensIff(s, a, l);
      }
    }
  }

  lemma {:induction false} MomentsLawful(s: State, actions: seq<Action>, l: Lock)
    requires Inv(s) && Runs(s, actions)
    ensures Lawful(Moments(s, actions, l))
    ensures Moments(s, actions, l)[0].two == TwoInside(s, l) && Moments(s, actions, l)[0].open == Open(s, l)
    decreases |actions|
  {
    if actions != [] {
      var a := actions[0];
      StepKeeps(s, a);
      var rest := Moments(Next(s, a), actions[1..], l);
      MomentsLawful(Next(s, a), actions[1..], l);
      StepLaw(s, a, l, rest[0]);
      LawfulMore(MomentOf(s, l, a.Reset? && On(s, a, l), Takes(s, a, l), a.Release? && On(s, a, l)), rest);
    }
  }

  lemma LawfulMore(m: Moment, rest: seq<Moment>)
    requires Lawful(rest) && Law(m, rest[0])
    ensures Lawful([m] + rest)
  {
    var h := [m] + rest;
    forall n | 0 <= n < |h| - 1 ensures LawAt(h, n) {
      if n > 0 {
        assert LawAt(rest, n - 1);
      }
    }
  }

  /** Step `r` is a holder's re-initialisation, and no step after it and before step `t` is a release. */
  predicate Unreleased(h: seq<Moment>, r: nat, t: nat) {
    r < t < |h| && h[r].resets && forall m | r < m < t :: !h[m].releases
  }

  /** An open lock was re-initialised by a holder, and not released since. */
  lemma {:induction false} OpenSinceReset(h: seq<Moment>, n: nat) returns (r: nat)
    requires Lawful(h) && n < |h| && !h[0].open && h[n].open && forall m | 0 <= m <= n :: !h[m].two
    ensures Unreleased(h, r, n)
  {
    assert LawAt(h, n - 1);
    r := n - 1;
    if h[n - 1].open {
      r := OpenSinceReset(h, n - 1);
    }
  }

  /** Until a second CPU gets in, a lock re-initialised by its holder stays open while it is not released. */
  lemma {:induction false} ResetStaysOpen(h: seq<Moment>, r: nat, n: nat)
    requires Lawful(h) && Unreleased(h, r, n) && forall m | 0 <= m <= n :: !h[m].two
    ensures h[n].open
    decreases n
  {
    assert LawAt(h, n - 1);
    if n > r + 1 {
      ResetStaysOpen(h, r, n - 1);
    }
  }

  /** Step `t` acquires the lock, after a holder's re-initialisation at step `r` and with no release between. */
  predicate Breaks(h: seq<Moment>, r: nat, t: nat) { t < |h| && h[t].takes && Unreleased(h, r, t) }

  lemma {:induction false} FirstSecond(h: seq<Moment>, n: nat) returns (r: nat, t: nat)
    requires Lawful(h) && n < |h| && h[n].two && !h[0].two && !h[0].open
    ensures Breaks(h, r, t)
  {
    if m: nat :| m < n && h[m].two {
      r, t := FirstSecond(h, m);
    } else {
      assert LawAt(h, n - 1);
      t := n - 1;
      r := OpenSinceReset(h, t);
    }
  }

  lemma SecondFollows(h: seq<Moment>, r: nat, t: nat)
    requires Lawful(h) && Breaks(h, r, t)
    ensures exists n: nat :: n < |h| && h[n].two
  {
    if forall m | 0 <= m <= t :: !h[m].two {
      ResetStaysOpen(h, r, t);
      assert LawAt(h, t);
      assert h[t + 1].two;
    }
  }

  /** Exactly when mutual exclusion fails in a run: two CPUs are inside the section of a lock at some moment if
      and only if the lock is acquired after a holder re-initialised it and before anyone released it. */
  lemma ExclusionFailsIff(s: State, actions: seq<Action>, l: Lock)
    requires Initial(s) && Runs(s, actions)
    ensures var h := Moments(s, actions, l); (exists n: nat :: n < |h| && h[n].two) <==>
            exists r: nat, t: nat :: Breaks(h, r, t)
  {
    InitialIsOk(s);
    MomentsLawful(s, actions, l);
    NobodyInside(s, l);
    var h := Moments(s, actions, l);
    if n: nat :| n < |h| && h[n].two {
      var r, t := FirstSecond(h, n);
    }
    if r: nat, t: nat :| Breaks(h, r, t) {
      SecondFollows(h, r, t);
    }
  }

  lemma NobodyInside(s: State, l: Lock)
    requires Initial(s)
    ensures !Open(s, l) && !TwoInside(s, l)
  {}

  /** The moments are those of the run: the state after the first `n` steps, and step `n`. */
  lemma {:induction false} MomentAt(s: State, actions: seq<Action>, l: Lock, n: nat)
    requires Runs(s, actions) && n < |actions|
    ensures Runs(s, actions[..n])
    ensures var t, a, m := After(s, actions[..n]), actions[n], Moments(s, actions, l)[n];
      m == MomentOf(t, l, a.Reset? && On(t, a, l), Takes(t, a, l), a.Release? && On(t, a, l))
    decreases n
  {
    if n > 0 {
      MomentAt(Next(s, actions[0]), actions[1..], l, n - 1);
      assert actions[..n][1..] == actions[1..][..n - 1] && actions[..n][0] == actions[0];
    }
  }

  // ---- such a run ----

  function Inside(l: Lock, phase: Phase): Cpu { Cpu(false, [Frame(l, false, phase)], false, false) }

  /** Two CPUs with interrupts off, after bring-up. */
  function Pair(locked: set<Lock>, c: Cpu, d: Cpu): State { State(locked, [c, d], NormalDone, false) }

  /** A CPU outside all sections enters the section of a free slab lock and takes it. */
  lemma EnterSteps(l: Lock)
    requires l.SlabLock?
    ensures var idle := Cpu(false, [], false, false);
      var s, t, u := Pair({}, idle, idle), Pair({}, Inside(l, Spinning), idle), Pair({l}, Inside(l, Holding), idle);
      Leads(s, Enter(0, l), t) && Leads(t, TestAcquire(0), u)
        && Leads(u, Enter(1, l), Pair({l}, Inside(l, Holding), Inside(l, Spinning)))
  {
    var idle := Cpu(false, [], false, false);
    assert [] + [Frame(l, false, Spinning)] == [Frame(l, false, Spinning)];
    assert [idle, idle][0 := Inside(l, Spinning)] == [Inside(l, Spinning), idle];
    assert SetTop(Inside(l, Spinning), Holding) == Inside(l, Holding);
    assert [Inside(l, Spinning), idle][0 := Inside(l, Holding)] == [Inside(l, Holding), idle];
    assert [Inside(l, Holding), idle][1 := Inside(l, Spinning)] == [Inside(l, Holding), Inside(l, Spinning)];
  }

  /** The holder re-initialises the lock, and the waiting CPU gets in. */
  lemma ResetSteps(l: Lock)
    requires l.SlabLock?
    ensures var h, w := Inside(l, Holding), Inside(l, Spinning);
      Leads(Pair({l}, h, w), Reset(0), Pair({}, h, w)) && Leads(Pair({}, h, w), TestAcquire(1), Pair({l}, h, h))
    ensures TwoInside(Pair({l}, Inside(l, Holding), Inside(l, Holding)), l)
  {
    var h, w := Inside(l, Holding), Inside(l, Spinning);
    assert {l} - {l} == {};
    assert SetTop(w, Holding) == h;
    assert [h, w][1 := h] == [h, h];
    var s := Pair({l}, h, h);
    assert HoldsAt(s, 0, 0, l) && HoldsAt(s, 1, 0, l);
    assert Holds(s, 0, l) && Holds(s, 1, l);
  }

  ghost predicate Leads(s: State, a: Action, t: State) { Enabled(s, a) && Next(s, a) == t }

  lemma OneMore(s: State, a: Action, t: State, rest: seq<Action>)
    requires Leads(s, a, t) && Runs(t, rest)
    ensures Runs(s, [a] + rest) && After(s, [a] + rest) == After(t, rest)
  {
    assert ([a] + rest)[1..] == rest;
  }

  /** From two CPUs with interrupts off: CPU 0 refills its class while CPU 1 waits for the lock. */
  lemma ResetBreaksExclusion(l: Lock)
    requires l.SlabLock?
    ensures var idle := Cpu(false, [], false, false);
      var s := State({}, [idle, idle], NotDone, true);
      var last := [Enter(1, l)] + ([Reset(0)] + ([TestAcquire(1)] + []));
      var run := [TermDone(0, false)] + ([StartOthers(0)] + ([Enter(0, l)] + ([TestAcquire(0)] + last)));
      Initial(s) && Runs(s, run) && TwoInside(After(s, run), l)
  {
    var idle, h, w := Cpu(false, [], false, false), Inside(l, Holding), Inside(l, Spinning);
    EnterSteps(l);
    ResetSteps(l);
    OneMore(Pair({}, h, w), TestAcquire(1), Pair({l}, h, h), []);
    OneMore(Pair({l}, h, w), Reset(0), Pair({}, h, w), [TestAcquire(1)] + []);
    OneMore(Pair({l}, h, idle), Enter(1, l), Pair({l}, h, w), [Reset(0)] + ([TestAcquire(1)] + []));
    var last := [Enter(1, l)] + ([Reset(0)] + ([TestAcquire(1)] + []));
    OneMore(Pair({}, w, idle), TestAcquire(0), Pair({l}, h, idle), last);
    OneMore(Pair({}, idle, idle), Enter(0, l), Pair({}, w, idle), [TestAcquire(0)] + last);
    var inits := State({}, [idle, idle], NormalDone, true);
    OneMore(inits, StartOthers(0), Pair({}, idle, idle), [Enter(0, l)] + ([TestAcquire(0)] + last));
    var starts := [StartOthers(0)] + ([Enter(0, l)] + ([TestAcquire(0)] + last));
    OneMore(State({}, [idle, idle], NotDone, true), TermDone(0, false), inits, starts);
  }

  /** The nested sections of the source: `vmm_map_page` and `create_slab` allocate pages, `printf` writes to a terminal.
      `Nests` has them all: with nothing held a CPU enters both. */
  lemma NestedSections(outer: Lock, inner: Lock, on: bool)
    requires || (outer.Pagemap? && inner.PmmLock?)
             || (outer.SlabLock? && inner.PmmLock? && !on)
             || (outer.PrintfLock? && inner.TermLock?)
    ensures var s := State({}, [Cpu(on, [], false, on)], NotDone, true);
      var run := [Enter(0, outer)] + ([TestAcquire(0)] + ([Enter(0, inner)] + ([TestAcquire(0)] + [])));
      && Initial(s) && Runs(s, run)
      && After(s, run).locked == {outer, inner}
      && After(s, run).cpus == [Cpu(false, [Frame(outer, on, Holding), Frame(inner, false, Holding)], false, on)]
  {
    InnerSection(outer, inner, on);
    OuterSection(outer, on, [Enter(0, inner)] + ([TestAcquire(0)] + []));
  }

  function InOuter(outer: Lock, on: bool, phase: Phase): Cpu { Cpu(false, [Frame(outer, on, phase)], false, on) }

  function InBoth(outer: Lock, inner: Lock, on: bool, phase: Phase): Cpu {
    Cpu(false, [Frame(outer, on, Holding), Frame(inner, false, phase)], false, on)
  }

  lemma InnerSection(outer: Lock, inner: Lock, on: bool)
    requires Nests(outer, inner)
    ensures var s, run := Single({outer}, InOuter(outer, on, Holding)), [Enter(0, inner)] + ([TestAcquire(0)] + []);
      Runs(s, run) && After(s, run) == Single({outer, inner}, InBoth(outer, inner, on, Holding))
  {
    var c, d, e := InOuter(outer, on, Holding), InBoth(outer, inner, on, Spinning), InBoth(outer, inner, on, Holding);
    assert c.stack + [Frame(inner, false, Spinning)] == d.stack;
    assert d.stack[1 := Frame(inner, false, Holding)] == e.stack;
    SingleStep({outer}, d, TestAcquire(0), {outer, inner}, e, []);
    SingleStep({outer}, c, Enter(0, inner), {outer}, d, [TestAcquire(0)] + []);
  }

  lemma OuterSection(outer: Lock, on: bool, rest: seq<Action>)
    requires !outer.SlabLock? || !on
    requires Runs(Single({outer}, InOuter(outer, on, Holding)), rest)
    ensures var s, run := Single({}, Cpu(on, [], false, on)), [Enter(0, outer)] + ([TestAcquire(0)] + rest);
      Runs(s, run) && After(s, run) == After(Single({outer}, InOuter(outer, on, Holding)), rest)
  {
    var b, c, d := Cpu(on, [], false, on), InOuter(outer, on, Spinning), InOuter(outer, on, Holding);
    assert [] + [Frame(outer, on, Spinning)] == c.stack;
    SingleStep({}, c, TestAcquire(0), {outer}, d, rest);
    SingleStep({}, b, Enter(0, outer), {}, c, [TestAcquire(0)] + rest);
  }

  function Single(locked: set<Lock>, c: Cpu): State { State(locked, [c], NotDone, true) }

  lemma SingleStep(locked: set<Lock>, c: Cpu, a: Action, locked': set<Lock>, c': Cpu, rest: seq<Action>)
    requires Enabled(Single(locked, c), a) && (a.Enter? || a.TestAcquire?)
    requires NextLocked(Single(locked, c), a) == locked' && NextCpu(Single(locked, c), a) == c'
    requires Runs(Single(locked', c'), rest)
    ensures Runs(Single(locked, c), [a] + rest)
    ensures After(Single(locked, c), [a] + rest) == After(Single(locked', c'), rest)
  {
    assert [c][0 := c'] == [c'];
    OneMore(Single(locked, c), a, Single(locked', c'), rest);
  }
}
