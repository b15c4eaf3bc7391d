/** CPU bring-up: `mp_init` on the boot CPU interleaved with `cpu_init` on the others. */
module Bringup {

  /** A `struct cpu_local`, the fields bring-up uses. `runningOn` is its idle thread's field. */
  datatype Local = Local(cpuNumber: nat, lapicId: nat, isBsp: bool, online: bool, runningOn: nat)

  /** What zeroed memory from `alloc` holds. */
  const ZEROED := Local(0, 0, false, false, 0)

  /** Where the boot CPU is in `mp_init`, at entry `i`. */
  datatype BootPc =
    | Loop(i: nat)              // before the loop test
    | Pushed(i: nat)            // cpu_local allocated and pushed
    | Armed(i: nat)             // extra_argument and cpu_number set
    | SelfInit(i: nat, k: nat)  // its own entry: running cpu_init
    | Waiting(i: nat)           // goto_address set: spinning on online
    | Finished

  /** Where another CPU is. */
  datatype CpuPc = Parked | Running(k: nat) | Idle

  /** `lapics[j]` and `bspLapic` come from the bootloader. CPU `j` is the one of entry `j`: `extra[j]` its argument,
      `go[j]` whether its goto_address is set, `gs[j]` the entry its GS base was pointed at. The boot CPU's GS base is
      `bootGs`; it is the CPU with LAPIC id `bspLapic` and stays `Parked` as one of the others. */
  datatype State = State(bspLapic: nat, lapics: seq<nat>, boot: BootPc, cpus: seq<CpuPc>, locals: seq<Local>,
                         extra: seq<nat>, go: seq<bool>, gs: seq<nat>, bootGs: nat, done: bool)

  datatype Action = BootStep | CpuStep(j: nat)

  /** The three visible steps of `cpu_init` for entry `j`, run by the boot CPU or by CPU `j`: the LAPIC id, the GS base
      of the CPU that runs it, `online`. Through an argument that points at no structure, which `Inv` excludes, nothing
      is written. */
  function InitStep(s: State, j: nat, k: nat, byBoot: bool): (t: State)
    requires j < |s.extra| && j < |s.lapics| && j < |s.gs|
    ensures |t.locals| == |s.locals| && |t.gs| == |s.gs| && t == s.(locals := t.locals, gs := t.gs, bootGs := t.bootGs)
  {
    var n := s.extra[j];
    if n >= |s.locals| then s
    else var c := s.locals[n];
    if k == 0 then s.(locals := s.locals[n := c.(lapicId := s.lapics[j])])
    else if k == 1 then
      var t := s.(locals := s.locals[n := c.(runningOn := c.cpuNumber)]);
      if byBoot then t.(bootGs := n) else t.(gs := t.gs[j := n])
    else s.(locals := s.locals[n := c.(online := true)])
  }

  ghost predicate Shape(s: State) {
    && |s.cpus| == |s.extra| == |s.go| == |s.gs| == |s.lapics|
    && (match s.boot
        case Loop(i) => i <= |s.lapics| && |s.locals| == i
        case Pushed(i) => i < |s.lapics| && |s.locals| == i + 1
        case Armed(i) => i < |s.lapics| && |s.locals| == i + 1
        case SelfInit(i, k) => i < |s.lapics| && |s.locals| == i + 1 && k < 3
        case Waiting(i) => i < |s.lapics| && |s.locals| == i + 1
        case Finished => |s.locals| == |s.lapics|)
  }

  predicate Enabled(s: State, a: Action) {
    match a
    case BootStep => !s.boot.Finished?
    case CpuStep(j) => j < |s.cpus| && j < |s.go| && !s.cpus[j].Idle? && (s.cpus[j].Parked? ==> s.go[j])
  }

  ghost function Next(s: State, a: Action): (t: State)
    requires Shape(s) && Enabled(s, a)
    ensures Shape(t)
  {
    match a
    case BootStep => NextBoot(s)
    case CpuStep(j) =>
      match s.cpus[j]
      case Parked => s.(cpus := s.cpus[j := Running(0)])
      case Running(k) => InitStep(s, j, k, false).(cpus := s.cpus[j := if k < 2 then Running(k + 1) else Idle])
  }

  ghost function NextBoot(s: State): (t: State)
    requires Shape(s) && !s.boot.Finished?
    ensures Shape(t)
  {
    match s.boot
    case Loop(i) =>
      if i < |s.lapics| then s.(locals := s.locals + [ZEROED], boot := Pushed(i))
      else s.(done := true, boot := Finished)
    case Pushed(i) =>
      s.(extra := s.extra[i := i], locals := s.locals[i := s.locals[i].(cpuNumber := i)], boot := Armed(i))
    case Armed(i) =>
      if s.lapics[i] == s.bspLapic
      then s.(locals := s.locals[i := s.locals[i].(isBsp := true)], boot := SelfInit(i, 0))
      else s.(go := s.go[i := true], boot := Waiting(i))
    case SelfInit(i, k) => InitStep(s, i, k, true).(boot := if k < 2 then SelfInit(i, k + 1) else Loop(i + 1))
    case Waiting(i) => if s.locals[i].online then s.(boot := Loop(i + 1)) else s
  }

  /** The entry `mp_init` is at. */
  function At(b: BootPc, n: nat): nat {
    match b
    case Loop(i) => i
    case Pushed(i) => i
    case Armed(i) => i
    case SelfInit(i, _) => i
    case Waiting(i) => i
    case Finished => n
  }

  /** Entry `j` is through: its CPU is up, and finds its own structure through GS. The boot CPU went through `cpu_init`
      by itself, every other CPU was started and is done with it. */
  ghost predicate Up(s: State, j: nat) {
    && j < |s.locals| && j < |s.lapics| && j < |s.gs| && j < |s.cpus| && j < |s.extra| && j < |s.go|
    && s.locals[j] == Local(j, s.lapics[j], s.lapics[j] == s.bspLapic, true, j) && s.extra[j] == j
    && if s.lapics[j] == s.bspLapic then s.cpus[j].Parked? && !s.go[j] && s.bootGs == j
       else s.cpus[j].Idle? && s.go[j] && s.gs[j] == j
  }

  /** How far `cpu_init` for entry `j` has got, with `k` of its steps taken. */
  ghost predicate Partway(s: State, j: nat, k: nat, byBoot: bool) {
    && j < |s.locals| && j < |s.lapics| && j < |s.gs| && j < |s.extra| && s.extra[j] == j && k <= 3
    && s.locals[j].cpuNumber == j && (s.locals[j].online <==> k == 3) && s.locals[j].isBsp == byBoot
    && (k > 0 ==> s.locals[j].lapicId == s.lapics[j])
    && (k > 1 ==> s.locals[j].runningOn == j && if byBoot then s.bootGs == j else s.gs[j] == j)
  }

  /** The entry being brought up. */
  ghost predicate Current(s: State)
    requires Shape(s)
  {
    match s.boot
    case Loop(i) => true
    case Pushed(i) => s.locals[i] == ZEROED && s.cpus[i].Parked? && !s.go[i]
    case Armed(i) => Partway(s, i, 0, false) && s.cpus[i].Parked? && !s.go[i]
    case SelfInit(i, k) =>
      s.lapics[i] == s.bspLapic && Partway(s, i, k, true) && s.cpus[i].Parked? && !s.go[i]
    case Waiting(i) => s.lapics[i] != s.bspLapic && s.go[i] && Partway(s, i, Taken(s.cpus[i]), false)
    case Finished => true
  }

  /** The steps of `cpu_init` a started CPU has taken. */
  function Taken(c: CpuPc): nat {
    match c
    case Parked => 0
    case Running(k) => k
    case Idle => 3
  }

  ghost predicate Inv(s: State) {
    && Shape(s) && Current(s) && OneBoot(s) && (forall j | 0 <= j < |s.cpus| && s.cpus[j].Running? :: s.cpus[j].k < 3)
    && (forall j | 0 <= j < At(s.boot, |s.lapics|) :: Up(s, j))
    && (forall j | At(s.boot, |s.lapics|) < j < |s.cpus| :: s.cpus[j].Parked? && !s.go[j])
    && (s.boot.Loop? && s.boot.i < |s.cpus| ==> s.cpus[s.boot.i].Parked? && !s.go[s.boot.i])
    && (s.done <==> s.boot.Finished?)
  }

  /** The boot CPU is in the list at most once. */
  ghost predicate OneBoot(s: State) {
    forall i, j | 0 <= i < j < |s.lapics| :: s.lapics[i] == s.bspLapic ==> s.lapics[j] != s.bspLapic
  }

  /** Every CPU parked and nothing pushed. */
  ghost predicate Initial(s: State) {
    && |s.cpus| == |s.extra| == |s.go| == |s.gs| == |s.lapics| && s.boot == Loop(0) && s.locals == [] && !s.done
    && (forall j | 0 <= j < |s.cpus| :: s.cpus[j].Parked? && !s.go[j]) && OneBoot(s)
  }

  /** Every step of the boot CPU or of any other keeps the invariant. */
  lemma StepKeeps(s: State, a: Action)
    requires Inv(s) && Enabled(s, a)
    ensures Inv(Next(s, a))
  {
    match a
    case BootStep => BootKeeps(s);
    case CpuStep(j) => CpuKeeps(s, j);
  }

  lemma BootKeeps(s: State)
    requires Inv(s) && !s.boot.Finished?
    ensures Inv(NextBoot(s))
  {
    match s.boot
    case Loop(_) => LoopKeeps(s);
    case Pushed(_) => PushedKeeps(s);
    case Armed(_) => ArmedKeeps(s);
    case SelfInit(_, _) => SelfInitKeeps(s);
    case Waiting(_) => WaitingKeeps(s);
  }

  /** The entries already through are untouched by a step of `mp_init`. */
  lemma EarlierKept(s: State)
    requires Inv(s) && !s.boot.Finished?
    ensures forall j | 0 <= j < At(s.boot, |s.lapics|) :: Up(NextBoot(s), j)
  {
    forall j | 0 <= j < At(s.boot, |s.lapics|) ensures Up(NextBoot(s), j) {
      assert Up(s, j);
    }
  }

  lemma LoopKeeps(s: State)
    requires Inv(s) && s.boot.Loop?
    ensures Inv(NextBoot(s))
  {
    EarlierKept(s);
  }

  lemma PushedKeeps(s: State)
    requires Inv(s) && s.boot.Pushed?
    ensures Inv(NextBoot(s))
  {
    EarlierKept(s);
  }

  lemma ArmedKeeps(s: State)
    requires Inv(s) && s.boot.Armed?
    ensures Inv(NextBoot(s))
  {
    EarlierKept(s);
  }

  lemma SelfInitKeeps(s: State)
    requires Inv(s) && s.boot.SelfInit?
    ensures Inv(NextBoot(s))
  {
    EarlierKept(s);
    if s.boot.k == 2 {
      assert Up(NextBoot(s), s.boot.i);
    }
  }

  lemma WaitingKeeps(s: State)
    requires Inv(s) && s.boot.Waiting?
    ensures Inv(NextBoot(s))
  {
    EarlierKept(s);
    if s.locals[s.boot.i].online {
      assert Up(s, s.boot.i);
    }
  }

  /** A CPU that can move is the one being waited for. */
  lemma OnlyOneMoves(s: State, j: nat)
    requires Inv(s) && j < |s.cpus| && (s.cpus[j].Running? || (s.cpus[j].Parked? && s.go[j]))
    ensures s.boot == Waiting(j)
  {
    assert j < At(s.boot, |s.lapics|) ==> Up(s, j);
  }

  lemma CpuKeeps(s: State, j: nat)
    requires Inv(s) && Enabled(s, CpuStep(j))
    ensures Inv(Next(s, CpuStep(j)))
  {
    OnlyOneMoves(s, j);
    var t := Next(s, CpuStep(j));
    forall n | 0 <= n < j ensures Up(t, n) && t.cpus[n] == s.cpus[n] {
      OthersStayUp(s, j, n);
    }
  }

  lemma OthersStayUp(s: State, j: nat, n: nat)
    requires Inv(s) && Enabled(s, CpuStep(j)) && s.boot.Waiting? && j == s.boot.i && n < j
    ensures Up(Next(s, CpuStep(j)), n) && Next(s, CpuStep(j)).cpus[n] == s.cpus[n]
  {
    assert Up(s, n);
  }

  ghost predicate Runs(s: State, actions: seq<Action>)
    requires Shape(s)
    decreases |actions|
  {
    actions == [] || (Enabled(s, actions[0]) && Runs(Next(s, actions[0]), actions[1..]))
  }

  ghost function After(s: State, actions: seq<Action>): (t: State)
    requires Shape(s) && Runs(s, actions)
    ensures Shape(t)
    decreases |actions|
  {
    if actions == [] then s else After(Next(s, actions[0]), actions[1..])
  }

  /** The invariant holds after every run. */
  lemma {:induction false} RunKeeps(s: State, actions: seq<Action>)
    requires Inv(s) && Runs(s, actions)
    ensures Inv(After(s, actions))
    decreases |actions|
  {
    if actions != [] {
      StepKeeps(s, actions[0]);
      RunKeeps(Next(s, actions[0]), actions[1..]);
    }
  }

  lemma InitialIsOk(s: State)
    requires Initial(s)
    ensures Inv(s)
  {}

  // ---- what every run satisfies ----

  /** CPU `j` is between starting `cpu_init` and setting `online`. */
  ghost predicate ComingUp(s: State, j: nat) {
    || (j < |s.cpus| && s.cpus[j].Running?)
    || (s.boot.SelfInit? && s.boot.i == j)
  }

  lemma ComingUpIsCurrent(s: State, j: nat)
    requires Inv(s) && ComingUp(s, j)
    ensures s.boot == Waiting(j) || (s.boot.SelfInit? && s.boot.i == j)
  {
    if !s.boot.SelfInit? || s.boot.i != j {
      OnlyOneMoves(s, j);
    }
  }

  /** One CPU at a time: never two are coming up together. */
  lemma OneAtATime(s: State, actions: seq<Action>, i: nat, j: nat)
    requires Initial(s) && Runs(s, actions) && ComingUp(After(s, actions), i) && ComingUp(After(s, actions), j)
    ensures i == j
  {
    InitialIsOk(s);
    RunKeeps(s, actions);
    ComingUpIsCurrent(After(s, actions), i);
    ComingUpIsCurrent(After(s, actions), j);
  }

  /** The vector of structures grows only when none is. */
  lemma GrowsWhenQuiet(s: State, actions: seq<Action>, a: Action, j: nat)
    requires Initial(s) && Runs(s, actions)
    requires Enabled(After(s, actions), a) && |Next(After(s, actions), a).locals| != |After(s, actions).locals|
    ensures !ComingUp(After(s, actions), j)
  {
    InitialIsOk(s);
    RunKeeps(s, actions);
    var t := After(s, actions);
    assert a.BootStep? && t.boot.Loop?;
    if ComingUp(t, j) {
      ComingUpIsCurrent(t, j);
    }
  }

  /** `cpu_current` on the CPU of entry `j`, the number in the thread its GS base points at, is `n`. */
  ghost predicate CpuCurrentIs(s: State, j: nat, n: nat)
    requires j < |s.gs| && j < |s.lapics|
  {
    var base := if s.lapics[j] == s.bspLapic then s.bootGs else s.gs[j];
    base < |s.locals| && s.locals[base].runningOn == n
  }

  /** Once `mp_init_done` holds there is one structure per CPU, each online under its own number, and every CPU's
      `cpu_current` is its own structure, the one with its LAPIC id. The boot CPU alone is marked as such and was never
      started; every other CPU was, and is through `cpu_init`. */
  lemma AllUpWhenDone(s: State, actions: seq<Action>, j: nat)
    requires Initial(s) && Runs(s, actions) && After(s, actions).done && j < |After(s, actions).lapics|
    ensures var t := After(s, actions);
      && |t.locals| == |t.lapics| == |t.gs| == |t.cpus| == |t.go|
      && t.locals[j].online && t.locals[j].cpuNumber == j && CpuCurrentIs(t, j, j)
      && t.locals[j].lapicId == t.lapics[j]
      && (t.lapics[j] == t.bspLapic ==> t.locals[j].isBsp && t.bootGs == j && t.cpus[j].Parked? && !t.go[j])
      && (t.lapics[j] != t.bspLapic ==> !t.locals[j].isBsp && t.gs[j] == j && t.cpus[j].Idle? && t.go[j])
  {
    InitialIsOk(s);
    RunKeeps(s, actions);
    assert Up(After(s, actions), j);
  }

  /** What is left to do. */
  function Rank(s: State): nat {
    var n := |s.lapics|;
    match s.boot
    case Loop(i) => if i <= n then 9 * (n - i) + 8 else 0
    case Pushed(i) => if i <= n then 9 * (n - i) + 7 else 0
    case Armed(i) => if i <= n then 9 * (n - i) + 6 else 0
    case SelfInit(i, k) => if i <= n && k < 3 then 9 * (n - i) + 5 - k else 0
    case Waiting(i) =>
      if i < n && i < |s.cpus| then
        match s.cpus[i] {
          case Parked => 9 * (n - i) + 5
          case Running(k) => if k < 3 then 9 * (n - i) + 4 - k else 0
          case Idle => 9 * (n - i) + 1
        }
      else 0
    case Finished => 0
  }

  /** No step is taken twice: it is one of the boot CPU's turns of `while (!online)`, which change nothing, or it brings
      the end nearer. */
  lemma StepAdvances(s: State, a: Action)
    requires Inv(s) && Enabled(s, a)
    ensures var t := Next(s, a);
      if a.BootStep? && s.boot.Waiting? && !s.locals[s.boot.i].online then t == s else Rank(t) < Rank(s)
  {
    if a.CpuStep? {
      OnlyOneMoves(s, a.j);
    }
  }

  /** Until `mp_init` is done some CPU has a step that does. */
  lemma SomeoneAdvances(s: State) returns (a: Action)
    requires Inv(s) && !s.done
    ensures Enabled(s, a) && Rank(Next(s, a)) < Rank(s)
  {
    a := if s.boot.Waiting? && !s.locals[s.boot.i].online then CpuStep(s.boot.i) else BootStep;
    StepAdvances(s, a);
  }

  /** So wherever a run has got, it can be continued until `mp_init` is done. */
  lemma CanFinish(s: State, actions: seq<Action>) returns (more: seq<Action>)
    requires Initial(s) && Runs(s, actions)
    ensures Runs(After(s, actions), more) && After(After(s, actions), more).done
  {
    InitialIsOk(s);
    RunKeeps(s, actions);
    more := ToTheEnd(After(s, actions));
  }

  lemma {:induction false} ToTheEnd(s: State) returns (more: seq<Action>)
    requires Inv(s)
    ensures Runs(s, more) && After(s, more).done
    decreases Rank(s)
  {
    more := [];
    if !s.done {
      var a := SomeoneAdvances(s);
      StepKeeps(s, a);
      var rest := ToTheEnd(Next(s, a));
      more := [a] + rest;
      assert more[1..] == rest;
    }
  }

  /** A CPU that is online stays up: nothing later in the run disturbs it. */
  lemma UpStaysUp(s: State, a: Action, j: nat)
    requires Inv(s) && Enabled(s, a) && j < At(s.boot, |s.lapics|)
    ensures j < At(Next(s, a).boot, |s.lapics|) && Up(Next(s, a), j)
  {
    StepKeeps(s, a);
  }
}
