/**
 The page allocator used by any number of CPUs at once. What `pmm_lock` guards is one step: the search and the
 setting of the bits in `pmm_alloc_nozero`, the clearing of the bits in `pmm_free`. Outside the lock every word
 `pmm_alloc` zeroes and every word `pmm_free` poisons is a step of its own, and so is every store of a client.
 */
module ConcurrentPmm {
  import opened Bits
  import opened PageRuns
  import Pmm

  /** Where a CPU is: outside the allocator, zeroing the run it was granted, or poisoning the run it gives back;
      `done` words are written. */
  datatype Pc = Outside | Zeroing(start: nat, done: nat) | Poisoning(start: nat, done: nat)

  /** `pages` is the bitmap, the cursor and the live runs; `owner` says which CPU was handed each run that is in
      some client's hands. */
  datatype State = State(pages: Pages, mem: seq<Word>, cpus: seq<Pc>, owner: map<nat, nat>)

  datatype Action =
    | Grant(cpu: nat, count: nat)             // the locked part of pmm_alloc_nozero
    | ZeroWord(cpu: nat)                      // ptr[i] = 0
    | Deliver(cpu: nat)                       // pmm_alloc returns
    | Store(cpu: nat, start: nat, x: nat, v: Word)   // the client writes a word of its run
    | Hand(cpu: nat, start: nat, to: nat)     // the client passes its run to another CPU
    | GiveBack(cpu: nat, start: nat)          // pmm_free is called
    | PoisonWord(cpu: nat)                    // ptr[i] = 0xaa..aa
    | Clear(cpu: nat)                         // the locked part of pmm_free

  ghost predicate Enabled(n: nat, s: State, a: Action) {
    && a.cpu < |s.cpus|
    && var pc := s.cpus[a.cpu];
       match a
       case Grant(_, count) => pc.Outside? && count > 0 && NextFit(n, s.pages.used, s.pages.cursor, count).Some?
       case ZeroWord(_) => pc.Zeroing? && pc.start in s.pages.live && pc.done < 512 * s.pages.live[pc.start]
       case Deliver(_) => pc.Zeroing? && pc.start in s.pages.live && pc.done == 512 * s.pages.live[pc.start]
       case Store(i, start, x, _) => pc.Outside? && Mine(s, i, start)
         && 512 * start <= x < 512 * (start + s.pages.live[start])
       case Hand(i, start, to) => pc.Outside? && Mine(s, i, start) && to < |s.cpus|
       case GiveBack(i, start) => pc.Outside? && Mine(s, i, start)
       case PoisonWord(_) => pc.Poisoning? && pc.start in s.pages.live && pc.done < 512 * s.pages.live[pc.start]
       case Clear(_) => pc.Poisoning? && pc.start in s.pages.live && pc.done == 512 * s.pages.live[pc.start]
  }

  ghost predicate Mine(s: State, cpu: nat, start: nat) {
    start in s.owner && s.owner[start] == cpu && start in s.pages.live
  }

  ghost function Write(mem: seq<Word>, x: nat, v: Word): seq<Word> { if x < |mem| then mem[x := v] else mem }

  ghost function Next(n: nat, s: State, a: Action): State
    requires Enabled(n, s, a)
  {
    var pc := s.cpus[a.cpu];
    match a
    case Grant(i, count) =>
      var first := NextFit(n, s.pages.used, s.pages.cursor, count).value;
      s.(pages := Step(n, s.pages, Alloc(count)), cpus := s.cpus[i := Zeroing(first, 0)])
    case ZeroWord(i) =>
      s.(mem := Write(s.mem, 512 * pc.start + pc.done, 0), cpus := s.cpus[i := Zeroing(pc.start, pc.done + 1)])
    case Deliver(i) => s.(cpus := s.cpus[i := Outside], owner := s.owner[pc.start := i])
    case Store(_, _, x, v) => s.(mem := Write(s.mem, x, v))
    case Hand(_, start, to) => s.(owner := s.owner[start := to])
    case GiveBack(i, start) => s.(cpus := s.cpus[i := Poisoning(start, 0)], owner := s.owner - {start})
    case PoisonWord(i) =>
      s.(mem := Write(s.mem, 512 * pc.start + pc.done, Pmm.POISON),
         cpus := s.cpus[i := Poisoning(pc.start, pc.done + 1)])
    case Clear(i) => s.(pages := Step(n, s.pages, Free(pc.start)), cpus := s.cpus[i := Outside])
  }

  /** CPU `i` is working on the run at `start` inside the allocator. */
  ghost predicate Busy(s: State, i: nat, start: nat) {
    i < |s.cpus| && !s.cpus[i].Outside? && s.cpus[i].start == start
  }

  /** Every run live is in exactly one place: with one CPU inside the allocator or with one client. */
  ghost predicate OnePlace(s: State) {
    && (forall i: nat, t: nat | Busy(s, i, t) :: t in s.pages.live && t !in s.owner)
    && (forall i: nat, j: nat, t: nat | Busy(s, i, t) && Busy(s, j, t) :: i == j)
    && (forall t | t in s.owner :: t in s.pages.live)
  }

  /** What is zeroed or poisoned so far still is. */
  ghost predicate FilledSoFar(s: State) {
    forall i: nat | i < |s.cpus| && !s.cpus[i].Outside? ::
      RangeIs(s.mem, 512 * s.cpus[i].start, s.cpus[i].done, Filling(s.cpus[i]))
  }

  ghost function Filling(pc: Pc): Word { if pc.Poisoning? then 0xaaaa_aaaa_aaaa_aaaa else 0 }

  ghost predicate RangeIs(mem: seq<Word>, from: nat, n: nat, v: Word) {
    from + n <= |mem| && forall x | from <= x < from + n :: mem[x] == v
  }

  ghost predicate InRange(s: State) {
    forall i: nat | i < |s.cpus| && !s.cpus[i].Outside? && s.cpus[i].start in s.pages.live ::
      s.cpus[i].done <= 512 * s.pages.live[s.cpus[i].start]
  }

  ghost predicate Good(n: nat, reserved: set<nat>, s: State) {
    Inv(n, reserved, s.pages) && |s.mem| == 512 * n && OnePlace(s) && InRange(s) && FilledSoFar(s)
  }

  /** Nobody in the allocator, nothing handed out. */
  ghost predicate Initial(n: nat, reserved: set<nat>, s: State) {
    && Inv(n, reserved, s.pages) && s.pages.live == map[] && |s.mem| == 512 * n && s.owner == map[]
    && forall i | 0 <= i < |s.cpus| :: s.cpus[i].Outside?
  }

  // ---- what a step writes ----

  ghost predicate Writes(a: Action) { a.ZeroWord? || a.PoisonWord? || a.Store? }

  /** The run a writing step writes into, and the word. */
  ghost function Target(s: State, a: Action): nat
    requires a.cpu < |s.cpus| && Writes(a) && (a.Store? || !s.cpus[a.cpu].Outside?)
  {
    if a.Store? then a.start else s.cpus[a.cpu].start
  }

  ghost function Place(s: State, a: Action): nat
    requires a.cpu < |s.cpus| && Writes(a) && (a.Store? || !s.cpus[a.cpu].Outside?)
  {
    if a.Store? then a.x else 512 * s.cpus[a.cpu].start + s.cpus[a.cpu].done
  }

  /** A step writes nothing outside the run it works on. */
  lemma OtherWords(n: nat, reserved: set<nat>, s: State, a: Action, t: nat, x: nat)
    requires Good(n, reserved, s) && Enabled(n, s, a) && t in s.pages.live && 512 * t <= x < 512 * (t + s.pages.live[t])
    requires Writes(a) ==> Target(s, a) != t
    ensures x < |s.mem| && Next(n, s, a).mem[x] == s.mem[x]
  {
    if Writes(a) {
      var u := Target(s, a);
      assert u in s.pages.live;
      RunsApart(n, reserved, s.pages, t, u);
      assert 512 * u <= Place(s, a) < 512 * (u + s.pages.live[u]);
    }
  }

  // ---- every step keeps the invariant ----

  lemma StepPages(n: nat, reserved: set<nat>, s: State, a: Action)
    requires Good(n, reserved, s) && Enabled(n, s, a)
    ensures Inv(n, reserved, Next(n, s, a).pages) && |Next(n, s, a).mem| == 512 * n
  {
    match a
    case Grant(_, count) => AllocKeeps(n, reserved, s.pages, count);
    case Clear(_) => FreeKeeps(n, reserved, s.pages, s.cpus[a.cpu].start);
    case _ =>
  }

  lemma GrantOnePlace(n: nat, reserved: set<nat>, s: State, a: Action)
    requires Good(n, reserved, s) && Enabled(n, s, a) && a.Grant?
    ensures OnePlace(Next(n, s, a))
  {
    AllocKeeps(n, reserved, s.pages, a.count);
    var s' := Next(n, s, a);
    forall i: nat, t: nat | Busy(s', i, t) ensures t in s'.pages.live && t !in s'.owner
      && (i == a.cpu || Busy(s, i, t)) {
      if i != a.cpu {
        assert Busy(s, i, t);
      }
    }
  }

  lemma WriteOnePlace(n: nat, s: State, a: Action)
    requires OnePlace(s) && Enabled(n, s, a) && (a.ZeroWord? || a.PoisonWord? || a.Store? || a.Hand?)
    ensures OnePlace(Next(n, s, a))
  {
    forall i: nat, t: nat ensures Busy(Next(n, s, a), i, t) <==> Busy(s, i, t) {}
  }

  lemma LeaveOnePlace(n: nat, s: State, a: Action)
    requires OnePlace(s) && Enabled(n, s, a) && (a.Deliver? || a.Clear?)
    ensures OnePlace(Next(n, s, a))
  {
    assert Busy(s, a.cpu, s.cpus[a.cpu].start);
    forall i: nat, t: nat ensures Busy(Next(n, s, a), i, t) <==> Busy(s, i, t) && i != a.cpu {}
  }

  lemma GiveBackOnePlace(n: nat, s: State, a: Action)
    requires OnePlace(s) && Enabled(n, s, a) && a.GiveBack?
    ensures OnePlace(Next(n, s, a))
  {
    forall i: nat, t: nat ensures Busy(Next(n, s, a), i, t) <==> Busy(s, i, t) || (i == a.cpu && t == a.start) {}
  }

  lemma StepOnePlace(n: nat, reserved: set<nat>, s: State, a: Action)
    requires Good(n, reserved, s) && Enabled(n, s, a)
    ensures OnePlace(Next(n, s, a))
  {
    match a
    case Grant(_, _) => GrantOnePlace(n, reserved, s, a);
    case Deliver(_) => LeaveOnePlace(n, s, a);
    case Clear(_) => LeaveOnePlace(n, s, a);
    case GiveBack(_, _) => GiveBackOnePlace(n, s, a);
    case _ => WriteOnePlace(n, s, a);
  }

  /** A CPU the step does not concern stays where it is, with its run live as long as before. */
  lemma OtherCpu(n: nat, reserved: set<nat>, s: State, a: Action, i: nat)
    requires Good(n, reserved, s) && Enabled(n, s, a) && i < |s.cpus| && i != a.cpu && !s.cpus[i].Outside?
    ensures var s', t := Next(n, s, a), s.cpus[i].start;
      s'.cpus[i] == s.cpus[i] && t in s.pages.live && t in s'.pages.live && s'.pages.live[t] == s.pages.live[t]
    ensures Writes(a) ==> Target(s, a) != s.cpus[i].start
  {
    var t := s.cpus[i].start;
    assert Busy(s, i, t);
    if a.Grant? {
      AllocKeeps(n, reserved, s.pages, a.count);
    }
    if !s.cpus[a.cpu].Outside? {
      assert Busy(s, a.cpu, s.cpus[a.cpu].start);
    }
  }

  lemma StepInRange(n: nat, reserved: set<nat>, s: State, a: Action)
    requires Good(n, reserved, s) && Enabled(n, s, a)
    ensures InRange(Next(n, s, a))
  {
    var s' := Next(n, s, a);
    forall i: nat | i < |s'.cpus| && !s'.cpus[i].Outside? && s'.cpus[i].start in s'.pages.live
      ensures s'.cpus[i].done <= 512 * s'.pages.live[s'.cpus[i].start]
    {
      if i != a.cpu {
        OtherCpu(n, reserved, s, a, i);
      }
    }
  }

  lemma StepFilled(n: nat, reserved: set<nat>, s: State, a: Action)
    requires Good(n, reserved, s) && Enabled(n, s, a)
    ensures FilledSoFar(Next(n, s, a))
  {
    var s' := Next(n, s, a);
    forall i: nat | i < |s'.cpus| && !s'.cpus[i].Outside?
      ensures RangeIs(s'.mem, 512 * s'.cpus[i].start, s'.cpus[i].done, Filling(s'.cpus[i]))
    {
      if i != a.cpu {
        OtherFilled(n, reserved, s, a, i);
      } else {
        OwnFilled(n, reserved, s, a);
      }
    }
  }

  lemma OtherFilled(n: nat, reserved: set<nat>, s: State, a: Action, i: nat)
    requires Good(n, reserved, s) && Enabled(n, s, a) && i < |s.cpus| && i != a.cpu && !s.cpus[i].Outside?
    ensures RangeIs(Next(n, s, a).mem, 512 * s.cpus[i].start, s.cpus[i].done, Filling(s.cpus[i]))
  {
    OtherCpu(n, reserved, s, a, i);
    var t, mem' := s.cpus[i].start, Next(n, s, a).mem;
    StepPages(n, reserved, s, a);
    assert RangeIs(s.mem, 512 * t, s.cpus[i].done, Filling(s.cpus[i]));
    forall x | 512 * t <= x < 512 * t + s.cpus[i].done ensures mem'[x] == Filling(s.cpus[i]) {
      OtherWords(n, reserved, s, a, t, x);
    }
  }

  lemma OwnFilled(n: nat, reserved: set<nat>, s: State, a: Action)
    requires Good(n, reserved, s) && Enabled(n, s, a) && !Next(n, s, a).cpus[a.cpu].Outside?
    ensures var c := Next(n, s, a).cpus[a.cpu]; RangeIs(Next(n, s, a).mem, 512 * c.start, c.done, Filling(c))
  {
    if a.Grant? {
      AllocKeeps(n, reserved, s.pages, a.count);
    } else if a.ZeroWord? || a.PoisonWord? {
      var c := s.cpus[a.cpu];
      assert RangeIs(s.mem, 512 * c.start, c.done, Filling(c));
    }
  }

  /** Every step of every CPU keeps the invariant. */
  lemma StepKeeps(n: nat, reserved: set<nat>, s: State, a: Action)
    requires Good(n, reserved, s) && Enabled(n, s, a)
    ensures Good(n, reserved, Next(n, s, a))
  {
    StepPages(n, reserved, s, a);
    StepOnePlace(n, reserved, s, a);
    StepInRange(n, reserved, s, a);
    StepFilled(n, reserved, s, a);
  }

  ghost predicate Runs(n: nat, s: State, actions: seq<Action>)
    decreases |actions|
  {
    actions == [] || (Enabled(n, s, actions[0]) && Runs(n, Next(n, s, actions[0]), actions[1..]))
  }

  ghost function After(n: nat, s: State, actions: seq<Action>): State
    requires Runs(n, s, actions)
    decreases |actions|
  {
    if actions == [] then s else After(n, Next(n, s, actions[0]), actions[1..])
  }

  lemma {:induction false} RunKeeps(n: nat, reserved: set<nat>, s: State, actions: seq<Action>)
    requires Good(n, reserved, s) && Runs(n, s, actions)
    ensures Good(n, reserved, After(n, s, actions))
    decreases |actions|
  {
    if actions != [] {
      StepKeeps(n, reserved, s, actions[0]);
      RunKeeps(n, reserved, Next(n, s, actions[0]), actions[1..]);
    }
  }

  lemma InitialIsGood(n: nat, reserved: set<nat>, s: State)
    requires Initial(n, reserved, s)
    ensures Good(n, reserved, s)
  {}

  // ---- what every interleaving satisfies ----

  /** In every interleaving a run is delivered with every word zero, and shares no page with any run live then, be it
      in a client's hands, being zeroed or being poisoned on another CPU. The CPU that asked for it has it then. */
  lemma DeliveredZeroed(n: nat, reserved: set<nat>, s: State, actions: seq<Action>, i: nat, u: nat)
    requires Initial(n, reserved, s) && Runs(n, s, actions) && Enabled(n, After(n, s, actions), Deliver(i))
    ensures var t, start := After(n, s, actions), After(n, s, actions).cpus[i].start;
      && start in t.pages.live && RangeIs(t.mem, 512 * start, 512 * t.pages.live[start], 0) && start !in t.owner
      && (u in t.pages.live && u != start ==> u + t.pages.live[u] <= start || start + t.pages.live[start] <= u)
      && Mine(Next(n, t, Deliver(i)), i, start)
  {
    InitialIsGood(n, reserved, s);
    RunKeeps(n, reserved, s, actions);
    var t := After(n, s, actions);
    var start := t.cpus[i].start;
    assert Busy(t, i, start);
    if u in t.pages.live && u != start {
      RunsApart(n, reserved, t.pages, u, start);
    }
  }

  /** In every interleaving a run given back has every word poisoned by the time its pages are free. */
  lemma FreedPoisoned(n: nat, reserved: set<nat>, s: State, actions: seq<Action>, i: nat)
    requires Initial(n, reserved, s) && Runs(n, s, actions) && Enabled(n, After(n, s, actions), Clear(i))
    ensures var t, start := After(n, s, actions), After(n, s, actions).cpus[i].start;
      && start in t.pages.live && RangeIs(t.mem, 512 * start, 512 * t.pages.live[start], 0xaaaa_aaaa_aaaa_aaaa)
      && Next(n, t, Clear(i)).pages.used == t.pages.used - Range(start, t.pages.live[start])
      && Next(n, t, Clear(i)).mem == t.mem
  {
    InitialIsGood(n, reserved, s);
    RunKeeps(n, reserved, s, actions);
  }

  /** In every interleaving a word of a run in a client's hands changes only when the CPU that has it stores there. */
  lemma OnlyOwnerWrites(n: nat, reserved: set<nat>, s: State, actions: seq<Action>, a: Action, t: nat, x: nat)
    requires Initial(n, reserved, s) && Runs(n, s, actions) && Enabled(n, After(n, s, actions), a)
    requires var now := After(n, s, actions);
      t in now.owner && t in now.pages.live && 512 * t <= x < 512 * (t + now.pages.live[t])
    requires !(a.Store? && a.x == x)
    ensures var now := After(n, s, actions); x < |now.mem| && Next(n, now, a).mem[x] == now.mem[x]
  {
    InitialIsGood(n, reserved, s);
    RunKeeps(n, reserved, s, actions);
    var now := After(n, s, actions);
    if Writes(a) && Target(now, a) == t {
      assert a.Store? by {
        if !a.Store? {
          assert Busy(now, a.cpu, t);
        }
      }
    } else {
      OtherWords(n, reserved, now, a, t, x);
    }
  }

  /** A store into a client's run is made by the CPU that has it. */
  lemma StoreIsOwners(n: nat, reserved: set<nat>, s: State, actions: seq<Action>, a: Action, t: nat)
    requires Initial(n, reserved, s) && Runs(n, s, actions) && Enabled(n, After(n, s, actions), a) && a.Store?
    requires var now := After(n, s, actions);
      t in now.owner && t in now.pages.live && 512 * t <= a.x < 512 * (t + now.pages.live[t])
    ensures After(n, s, actions).owner[t] == a.cpu
  {
    InitialIsGood(n, reserved, s);
    RunKeeps(n, reserved, s, actions);
    var now := After(n, s, actions);
    if t != a.start {
      RunsApart(n, reserved, now.pages, t, a.start);
    }
  }
}
