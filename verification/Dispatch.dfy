/** The round-robin scheduler, `sched` and the hand-off of ptable.lock between
    processes and schedulers (src/proc.c): every interleaving of any number of
    CPUs. */
module Dispatch {
  import opened Common
  import opened ProcSpec

  /** What a CPU is doing. Scanning: in the scheduler with ptable.lock.
      Dispatching: a process is chosen, its stack not yet entered. Kernel: on
      the process's kernel stack with ptable.lock. User: the same without the
      lock. Parting: the process has given up its RUNNING state. Parted: back
      on the scheduler's stack, c->proc not yet cleared. */
  datatype Mode = Idle | Scanning | Dispatching | Kernel | User | Parting | Parted

  /** `proc` is c->proc; `stack` is the process on whose kernel stack the CPU
      runs. */
  datatype Cpu = Cpu(mode: Mode, proc: Option<nat>, stack: Option<nat>)

  datatype System = System(table: Table, cpus: seq<Cpu>, lock: Option<nat>)

  datatype Step =
    | SchedAcquire(c: nat)
    | SchedRelease(c: nat)
    | Pick(c: nat, p: nat)
    | SwitchIn(c: nat)
    | Acquire(c: nat)
    | Release(c: nat)
    | Yield(c: nat)
    | Sleep(c: nat, n: nat)
    | WaitSleep(c: nat)
    | Reap(c: nat, q: nat)
    | Exit(c: nat, r: Table)
    | SwitchOut(c: nat)
    | ClearProc(c: nat)
    | Wakeup(c: nat, n: nat)
    | Kill(c: nat, q: nat)
    | Interrupt(n: nat)             // a wakeup from an interrupt handler
    | Alloc(c: nat, q: nat, pid: int)
    | GetStack(c: nat)              // kalloc succeeds in allocproc
    | Abort(c: nat)                 // kalloc or copyuvm fails
    | Adopt(c: nat)                 // np->parent = curproc
    | Start(c: nat)                 // np->state = RUNNABLE

  predicate In(s: System, c: nat, m: Mode) { c < |s.cpus| && s.cpus[c].mode == m }

  /** CPU c is in mode m, on behalf of a process. */
  predicate On(s: System, c: nat, m: Mode)
  {
    In(s, c, m) && s.cpus[c].proc.Some? && s.cpus[c].proc.value < |s.table|
  }

  function Cur(s: System, c: nat): nat
    requires c < |s.cpus| && s.cpus[c].proc.Some?
  {
    s.cpus[c].proc.value
  }

  /** The process on CPU c, in mode m, is making a child. */
  predicate Making(s: System, c: nat, m: Mode)
  {
    On(s, c, m) && s.table[Cur(s, c)].making.Some? && s.table[Cur(s, c)].making.value < |s.table|
    && s.table[Cur(s, c)].making.value != Cur(s, c)
  }

  function Child(s: System, c: nat, m: Mode): nat
    requires Making(s, c, m)
  {
    s.table[Cur(s, c)].making.value
  }

  ghost predicate Enabled(s: System, step: Step)
  {
    match step
    case SchedAcquire(c) => In(s, c, Idle) && s.lock.None?
    case SchedRelease(c) => In(s, c, Scanning)
    case Pick(c, p) => In(s, c, Scanning) && p < |s.table| && s.table[p].state == RUNNABLE
    case SwitchIn(c) => On(s, c, Dispatching)
    case Acquire(c) => In(s, c, User) && s.lock.None?
    case Release(c) => In(s, c, Kernel)
    case Yield(c) => On(s, c, Kernel)
    case Sleep(c, n) => On(s, c, Kernel)
    case WaitSleep(c) => On(s, c, Kernel) && !HasZombie(s.table, Cur(s, c))
    case Reap(c, q) => On(s, c, Kernel) && ZombieChild(s.table, Cur(s, c), q)
    case Exit(c, r) =>
      On(s, c, Kernel) && Cur(s, c) != INIT && s.table[Cur(s, c)].making.None? && Exited(s.table, r, Cur(s, c))
    case SwitchOut(c) => In(s, c, Parting)
    case ClearProc(c) => In(s, c, Parted)
    case Wakeup(c, n) => On(s, c, Kernel)
    case Kill(c, q) => On(s, c, Kernel) && q < |s.table|
    case Interrupt(n) => s.lock.None?
    case Alloc(c, q, pid) => On(s, c, Kernel) && q < |s.table| && s.table[q].state == UNUSED
                             && s.table[Cur(s, c)].making.None? && q != Cur(s, c)
    case GetStack(c) => Making(s, c, User)
    case Abort(c) => Making(s, c, User) && s.table[Child(s, c, User)].parent.None?
    case Adopt(c) => Making(s, c, User) && s.table[Child(s, c, User)].kstack
    case Start(c) =>
      Making(s, c, Kernel) && s.table[Child(s, c, Kernel)].kstack && s.table[Child(s, c, Kernel)].parent.Some?
  }

  function SetCpu(s: System, c: nat, cpu: Cpu): System
    requires c < |s.cpus|
  {
    s.(cpus := s.cpus[c := cpu])
  }

  function Part(s: System, c: nat, e: Proc): System
    requires On(s, c, Kernel)
  {
    SetCpu(s, c, s.cpus[c].(mode := Parting)).(table := s.table[Cur(s, c) := e])
  }

  ghost function Do(s: System, step: Step): System
    requires Enabled(s, step)
  {
    match step
    case SchedAcquire(c) => SetCpu(s, c, s.cpus[c].(mode := Scanning)).(lock := Some(c))
    case SchedRelease(c) => SetCpu(s, c, s.cpus[c].(mode := Idle)).(lock := None)
    case Pick(c, p) =>
      SetCpu(s, c, s.cpus[c].(mode := Dispatching, proc := Some(p)))
        .(table := s.table[p := s.table[p].(state := RUNNING)])
    case SwitchIn(c) =>
      SetCpu(s, c, s.cpus[c].(mode := Kernel, stack := s.cpus[c].proc)).(
        table := s.table[Cur(s, c) := s.table[Cur(s, c)].(chan := None)])
    case Acquire(c) => SetCpu(s, c, s.cpus[c].(mode := Kernel)).(lock := Some(c))
    case Release(c) => SetCpu(s, c, s.cpus[c].(mode := User)).(lock := None)
    case Yield(c) => Part(s, c, s.table[Cur(s, c)].(state := RUNNABLE))
    case Sleep(c, n) => Part(s, c, s.table[Cur(s, c)].(state := SLEEPING, chan := Some(Other(n))))
    case WaitSleep(c) => Part(s, c, s.table[Cur(s, c)].(state := SLEEPING, chan := Some(OnProc(Cur(s, c)))))
    case Reap(c, q) => s.(table := Reaped(s.table, q))
    case Exit(c, r) => SetCpu(s, c, s.cpus[c].(mode := Parting)).(table := r)
    case SwitchOut(c) => SetCpu(s, c, s.cpus[c].(mode := Parted, stack := None))
    case ClearProc(c) => SetCpu(s, c, s.cpus[c].(mode := Scanning, proc := None))
    case Wakeup(c, n) => s.(table := Awaken(s.table, Other(n)))
    case Kill(c, q) => s.(table := Killed(s.table, q))
    case Interrupt(n) => s.(table := Awaken(s.table, Other(n)))
    case Alloc(c, q, pid) => s.(table := Allocated(s.table, Cur(s, c), q, pid))
    case GetStack(c) => s.(table := Stacked(s.table, Child(s, c, User)))
    case Abort(c) => s.(table := Aborted(s.table, Cur(s, c), Child(s, c, User)))
    case Adopt(c) => s.(table := Adopted(s.table, Cur(s, c), Child(s, c, User)))
    case Start(c) => s.(table := Started(s.table, Cur(s, c), Child(s, c, Kernel)))
  }

  // ---- The invariant ----

  predicate HoldsLock(m: Mode) { m != Idle && m != User }

  /** What the mode of a CPU says about c->proc, its stack and its process. */
  predicate CpuOk(t: Table, cpu: Cpu)
  {
    match cpu.mode
    case Idle => cpu.proc.None? && cpu.stack.None?
    case Scanning => cpu.proc.None? && cpu.stack.None?
    case Dispatching => cpu.proc.Some? && cpu.proc.value < |t| && t[cpu.proc.value].state == RUNNING && cpu.stack.None?
    case Kernel => cpu.proc.Some? && cpu.proc.value < |t| && t[cpu.proc.value].state == RUNNING && cpu.stack == cpu.proc
    case User => cpu.proc.Some? && cpu.proc.value < |t| && t[cpu.proc.value].state == RUNNING && cpu.stack == cpu.proc
    case Parting => cpu.proc.Some? && cpu.proc.value < |t| && Settled(t[cpu.proc.value].state) && cpu.stack == cpu.proc
    case Parted => cpu.proc.Some? && cpu.proc.value < |t| && Settled(t[cpu.proc.value].state) && cpu.stack.None?
  }

  ghost predicate LockOk(cpus: seq<Cpu>, lock: Option<nat>)
  {
    forall c :: 0 <= c < |cpus| ==> (HoldsLock(cpus[c].mode) <==> lock == Some(c))
  }

  /** No two CPUs have the same process. */
  ghost predicate OnePlace(cpus: seq<Cpu>)
  {
    forall c, d :: 0 <= c < |cpus| && 0 <= d < |cpus| && c != d && cpus[c].proc.Some? ==> cpus[c].proc != cpus[d].proc
  }

  ghost predicate SomewhereOn(cpus: seq<Cpu>, p: nat) { exists c :: 0 <= c < |cpus| && cpus[c].proc == Some(p) }

  ghost predicate CpuInv(t: Table, cpus: seq<Cpu>, lock: Option<nat>)
  {
    && LockOk(cpus, lock) && OnePlace(cpus)
    && (forall c :: 0 <= c < |cpus| ==> CpuOk(t, cpus[c]))
    && (forall p :: 0 <= p < |t| && t[p].state == RUNNING ==> SomewhereOn(cpus, p))
  }

  ghost predicate Inv(s: System) { TableInv(s.table) && CpuInv(s.table, s.cpus, s.lock) }

  // ---- Every step keeps it ----

  /** Table changes that leave RUNNING processes, and processes that a CPU is
      parting from, alone. */
  lemma TableChange(s: System, r: Table)
    requires CpuInv(s.table, s.cpus, s.lock) && |r| == |s.table|
    requires forall p :: 0 <= p < |r| ==> (r[p].state == RUNNING <==> s.table[p].state == RUNNING)
    requires NoneParting(s) || forall p :: 0 <= p < |r| && Settled(s.table[p].state) ==> Settled(r[p].state)
    ensures CpuInv(r, s.cpus, s.lock)
  {
    forall c | 0 <= c < |s.cpus| ensures CpuOk(r, s.cpus[c]) {
      assert CpuOk(s.table, s.cpus[c]);
    }
  }

  ghost predicate NoneParting(s: System)
  {
    forall d :: 0 <= d < |s.cpus| ==> s.cpus[d].mode != Parting && s.cpus[d].mode != Parted
  }

  /** While a process has the lock, or nobody has it, no CPU is parting. */
  lemma NoParting(s: System, c: nat)
    requires CpuInv(s.table, s.cpus, s.lock) && (s.lock.None? || In(s, c, Kernel))
    ensures NoneParting(s)
  {
    hide OnePlace, CpuOk;
  }

  /** CPU c changes mode; its process p may change state. */
  lemma ModeChange(s: System, c: nat, cpu: Cpu, lock: Option<nat>, r: Table)
    requires CpuInv(s.table, s.cpus, s.lock) && c < |s.cpus| && |r| == |s.table|
    requires forall q :: 0 <= q < |r| && Some(q) != cpu.proc ==> r[q].state == s.table[q].state
    requires cpu.proc == s.cpus[c].proc && CpuOk(r, cpu) && LockOk(s.cpus[c := cpu], lock)
    ensures CpuInv(r, s.cpus[c := cpu], lock)
  {
    var cpus := s.cpus[c := cpu];
    assert OnePlace(cpus);
    forall d | 0 <= d < |cpus| ensures CpuOk(r, cpus[d]) {
      if d != c {
        assert CpuOk(s.table, s.cpus[d]);
      }
    }
    forall p | 0 <= p < |r| && r[p].state == RUNNING ensures SomewhereOn(cpus, p) {
      if Some(p) != cpu.proc {
        var d :| 0 <= d < |s.cpus| && s.cpus[d].proc == Some(p);
        assert cpus[d].proc == Some(p);
      } else {
        assert cpus[c].proc == Some(p);
      }
    }
  }

  /** The lock passes to, stays with, or is given up by CPU c. */
  lemma LockChange(s: System, c: nat, cpu: Cpu, lock: Option<nat>)
    requires CpuInv(s.table, s.cpus, s.lock) && c < |s.cpus|
    requires s.lock.None? || s.lock == Some(c)
    requires lock == if HoldsLock(cpu.mode) then Some(c) else None
    ensures LockOk(s.cpus[c := cpu], lock)
  {
    hide OnePlace, CpuOk;
  }

  lemma PickInv(s: System, c: nat, p: nat)
    requires CpuInv(s.table, s.cpus, s.lock) && Enabled(s, Pick(c, p))
    ensures var t := Do(s, Pick(c, p)); CpuInv(t.table, t.cpus, t.lock)
  {
    var t := Do(s, Pick(c, p));
    LockChange(s, c, t.cpus[c], s.lock);
    forall d | 0 <= d < |t.cpus| && d != c ensures t.cpus[d].proc != Some(p) && CpuOk(t.table, t.cpus[d]) {
      assert CpuOk(s.table, s.cpus[d]);
    }
    assert t.cpus[c].proc == Some(p);
    forall q | 0 <= q < |t.table| && t.table[q].state == RUNNING ensures SomewhereOn(t.cpus, q) {
      if q != p {
        var d :| 0 <= d < |s.cpus| && s.cpus[d].proc == Some(q);
        assert CpuOk(s.table, s.cpus[c]);
        assert t.cpus[d].proc == Some(q);
      }
    }
  }

  lemma ClearInv(s: System, c: nat)
    requires CpuInv(s.table, s.cpus, s.lock) && In(s, c, Parted)
    ensures var t := Do(s, ClearProc(c)); CpuInv(t.table, t.cpus, t.lock)
  {
    var t := Do(s, ClearProc(c));
    assert CpuOk(s.table, s.cpus[c]);
    LockChange(s, c, t.cpus[c], s.lock);
    forall d | 0 <= d < |t.cpus| && d != c ensures CpuOk(t.table, t.cpus[d]) {
      assert CpuOk(s.table, s.cpus[d]);
    }
    forall q | 0 <= q < |t.table| && t.table[q].state == RUNNING ensures SomewhereOn(t.cpus, q) {
      var d :| 0 <= d < |s.cpus| && s.cpus[d].proc == Some(q);
      assert t.cpus[d].proc == Some(q);
    }
  }

  /** Steps that only move a CPU. */
  predicate Moves(step: Step)
  {
    step.SchedAcquire? || step.SchedRelease? || step.SwitchIn? || step.Acquire? || step.Release? || step.SwitchOut?
  }

  lemma MoveInv(s: System, step: Step)
    requires Inv(s) && Enabled(s, step) && Moves(step)
    ensures Inv(Do(s, step))
  {
    var t, c := Do(s, step), step.c;
    assert CpuOk(s.table, s.cpus[c]);
    LockChange(s, c, t.cpus[c], t.lock);
    hide LockOk, OnePlace;
    ModeChange(s, c, t.cpus[c], t.lock, t.table);
    hide CpuInv;
    if step.SwitchIn? {
      StateInv(s.table, Cur(s, c), s.table[Cur(s, c)].state, None);
    }
  }

  /** Steps by which a process leaves its CPU. */
  lemma PartInv(s: System, c: nat, state: ProcState, chan: Option<Chan>)
    requires Inv(s) && On(s, c, Kernel) && (state == RUNNABLE || state == SLEEPING)
    requires chan.Some? && chan.value.OnProc? && state == SLEEPING ==>
               chan.value.p == Cur(s, c) && !HasZombie(s.table, Cur(s, c))
    ensures Inv(Part(s, c, s.table[Cur(s, c)].(state := state, chan := chan)))
  {
    var t := Part(s, c, s.table[Cur(s, c)].(state := state, chan := chan));
    assert CpuOk(s.table, s.cpus[c]);
    LockChange(s, c, t.cpus[c], t.lock);
    hide LockOk, OnePlace;
    ModeChange(s, c, t.cpus[c], t.lock, t.table);
    hide CpuInv;
    StateInv(s.table, Cur(s, c), state, chan);
  }

  lemma ExitStepInv(s: System, c: nat, r: Table)
    requires Inv(s) && Enabled(s, Exit(c, r))
    ensures Inv(Do(s, Exit(c, r)))
  {
    var p, t := Cur(s, c), Do(s, Exit(c, r));
    assert CpuOk(s.table, s.cpus[c]);
    ExitInv(s.table, r, p);
    hide TableInv, HasZombie;
    var m := r[p := r[p].(state := RUNNING)];
    NoParting(s, c);
    TableChange(s, m);
    var u := s.(table := m);
    LockChange(u, c, t.cpus[c], t.lock);
    hide LockOk, OnePlace;
    ModeChange(u, c, t.cpus[c], t.lock, r);
  }

  lemma GentleInv(s: System, r: Table)
    requires Inv(s) && TableInv(r) && Gentle(s.table, r)
    ensures Inv(s.(table := r))
  {
    hide TableInv;
    TableChange(s, r);
  }

  lemma ReapStepInv(s: System, c: nat, q: nat)
    requires Inv(s) && Enabled(s, Reap(c, q))
    ensures Inv(s.(table := Reaped(s.table, q)))
  {
    ReapInv(s.table, q);
    hide TableInv;
    NoParting(s, c);
    TableChange(s, Reaped(s.table, q));
  }

  lemma WakeStepInv(s: System, r: Table)
    requires Inv(s) && OnlyWakes(s.table, r)
    ensures Inv(s.(table := r))
  {
    hide CpuInv;
    WakesInv(s.table, r);
    hide TableInv, OnlyWakes, Gentle;
    GentleInv(s, r);
  }

  /** The process on CPU c is running. */
  lemma CurRuns(s: System, c: nat)
    requires Inv(s) && (On(s, c, Kernel) || On(s, c, User))
    ensures s.table[Cur(s, c)].state == RUNNING
  {
    hide TableInv;
    assert CpuOk(s.table, s.cpus[c]);
  }

  lemma ForkStepInv(s: System, step: Step)
    requires Inv(s) && Enabled(s, step) && (step.Alloc? || step.GetStack? || step.Abort? || step.Adopt? || step.Start?)
    ensures Inv(Do(s, step))
  {
    CurRuns(s, step.c);
    ForkTable(s, step);
    hide TableInv, CpuInv, Gentle, Enabled;
    GentleInv(s, Do(s, step).table);
  }

  lemma ForkTable(s: System, step: Step)
    requires TableInv(s.table) && Enabled(s, step)
    requires step.Alloc? || step.GetStack? || step.Abort? || step.Adopt? || step.Start?
    requires s.table[Cur(s, step.c)].state == RUNNING
    ensures var t := Do(s, step); TableInv(t.table) && Gentle(s.table, t.table) && t == s.(table := t.table)
  {
    var p := Cur(s, step.c);
    hide TableInv, Gentle, Allocated, Stacked, Aborted, Adopted, Started;
    match step
    case Alloc(c, q, pid) => AllocInv(s.table, p, q, pid);
    case GetStack(c) => StackInv(s.table, Child(s, c, User));
    case Abort(c) => AbortInv(s.table, p, Child(s, c, User));
    case Adopt(c) => AdoptInv(s.table, p, Child(s, c, User));
    case Start(c) => StartInv(s.table, p, Child(s, c, Kernel));
  }

  lemma ActInv(s: System, step: Step)
    requires Inv(s) && Enabled(s, step) && (step.Reap? || step.Wakeup? || step.Kill? || step.Interrupt?)
    ensures Inv(Do(s, step))
  {
    hide Inv, Reaped;
    match step
    case Reap(c, q) => ReapStepInv(s, c, q);
    case Wakeup(c, n) => WakeStepInv(s, Awaken(s.table, Other(n)));
    case Interrupt(n) => WakeStepInv(s, Awaken(s.table, Other(n)));
    case Kill(c, q) => WakeStepInv(s, Killed(s.table, q));
  }

  lemma PickStepInv(s: System, c: nat, p: nat)
    requires Inv(s) && Enabled(s, Pick(c, p))
    ensures Inv(Do(s, Pick(c, p)))
  {
    PickInv(s, c, p);
    hide CpuInv;
    StateInv(s.table, p, RUNNING, s.table[p].chan);
  }

  lemma StepInv(s: System, step: Step)
    requires Inv(s) && Enabled(s, step)
    ensures Inv(Do(s, step))
  {
    hide TableInv, CpuInv;
    match step
    case Exit(c, r) => ExitStepInv(s, c, r);
    case Pick(c, p) => PickStepInv(s, c, p);
    case ClearProc(c) => ClearInv(s, c);
    case Yield(c) => PartStepInv(s, step);
    case Sleep(c, n) => PartStepInv(s, step);
    case WaitSleep(c) => PartStepInv(s, step);
    case Reap(c, q) => ActInv(s, step);
    case Wakeup(c, n) => ActInv(s, step);
    case Interrupt(n) => ActInv(s, step);
    case Kill(c, q) => ActInv(s, step);
    case Alloc(c, q, pid) => ForkStepInv(s, step);
    case GetStack(c) => ForkStepInv(s, step);
    case Abort(c) => ForkStepInv(s, step);
    case Adopt(c) => ForkStepInv(s, step);
    case Start(c) => ForkStepInv(s, step);
    case _ => MoveInv(s, step);
  }

  lemma PartStepInv(s: System, step: Step)
    requires Inv(s) && Enabled(s, step) && (step.Yield? || step.Sleep? || step.WaitSleep?)
    ensures Inv(Do(s, step))
  {
    var p := Cur(s, step.c);
    match step
    case Yield(c) => PartInv(s, c, RUNNABLE, s.table[p].chan);
    case Sleep(c, n) => PartInv(s, c, SLEEPING, Some(Other(n)));
    case WaitSleep(c) => PartInv(s, c, SLEEPING, Some(OnProc(p)));
  }

  // ---- Runs ----

  ghost function After(s: System, run: seq<Step>): System
    decreases |run|
  {
    if run == [] then s else
      var t := After(s, run[..|run| - 1]);
      if Enabled(t, run[|run| - 1]) then Do(t, run[|run| - 1]) else t
  }

  /** After userinit: init is RUNNABLE, the other entries are free, the CPUs
      are about to enter the scheduler. */
  ghost predicate Booted(s: System)
  {
    && |s.table| > 0 && s.lock.None?
    && s.table[INIT] == Proc(RUNNABLE, 1, None, None, false, true, None)
    && (forall p :: 0 < p < |s.table| ==> s.table[p] == Proc(UNUSED, 0, None, None, false, false, None))
    && (forall c :: 0 <= c < |s.cpus| ==> s.cpus[c] == Cpu(Idle, None, None))
  }

  lemma BootInv(s: System)
    requires Booted(s)
    ensures Inv(s)
  {
    forall p | 0 <= p < |s.table| ensures MakingOk(s.table, p) && ParentOk(s.table, p) {
    }
  }

  lemma {:induction false} RunInv(s: System, run: seq<Step>)
    requires Booted(s)
    ensures Inv(After(s, run))
    decreases |run|
  {
    if run == [] {
      BootInv(s);
    } else {
      RunInv(s, run[..|run| - 1]);
      hide Inv, Enabled, Do, Booted;
      var t := After(s, run[..|run| - 1]);
      if Enabled(t, run[|run| - 1]) {
        StepInv(t, run[|run| - 1]);
      }
    }
  }

  /** Exactly one CPU's proc points at p. */
  ghost predicate OnOneCpu(s: System, p: nat)
  {
    exists c :: 0 <= c < |s.cpus| && s.cpus[c].proc == Some(p)
                && forall d :: 0 <= d < |s.cpus| && d != c ==> s.cpus[d].proc != Some(p)
  }

  /** Whenever ptable.lock is free: a process is RUNNING iff exactly one CPU's
      proc points at it, a process asleep in wait has no zombie child, and no
      process in use has a zombie or free parent. */
  lemma LockFree(s: System, run: seq<Step>)
    requires Booted(s)
    ensures var t := After(s, run);
            t.lock.None? ==>
              && (forall p :: 0 <= p < |t.table| ==> (t.table[p].state == RUNNING <==> OnOneCpu(t, p)))
              && (forall p :: 0 <= p < |t.table| && AsleepOn(t.table[p], OnProc(p)) ==> !HasZombie(t.table, p))
              && (forall p :: 0 <= p < |t.table| && t.table[p].parent.Some? ==>
                    t.table[p].parent.value < |t.table|
                    && t.table[t.table[p].parent.value].state != ZOMBIE
                    && t.table[t.table[p].parent.value].state != UNUSED)
  {
    RunInv(s, run);
    var t := After(s, run);
    hide After, Booted;
    if t.lock.None? {
      forall p | 0 <= p < |t.table| ensures t.table[p].state == RUNNING <==> OnOneCpu(t, p) {
        RunningOnOne(t, p);
      }
      forall p | 0 <= p < |t.table| && t.table[p].parent.Some?
        ensures t.table[p].parent.value < |t.table| && Alive(t.table[t.table[p].parent.value].state)
      {
        assert ParentOk(t.table, p);
      }
    }
  }

  lemma RunningOnOne(t: System, p: nat)
    requires Inv(t) && t.lock.None? && p < |t.table|
    ensures t.table[p].state == RUNNING <==> OnOneCpu(t, p)
  {
    hide TableInv;
    if t.table[p].state == RUNNING {
      assert SomewhereOn(t.cpus, p);
      var c :| 0 <= c < |t.cpus| && t.cpus[c].proc == Some(p);
      hide LockOk, CpuOk;
      assert forall d :: 0 <= d < |t.cpus| && d != c ==> t.cpus[d].proc != Some(p);
    } else {
      hide OnePlace;
      forall c | 0 <= c < |t.cpus| ensures t.cpus[c].proc != Some(p) {
        assert CpuOk(t.table, t.cpus[c]) && !HoldsLock(t.cpus[c].mode);
      }
    }
  }

  /** `wait` never frees the kernel stack of a process that a CPU is still
      running on. */
  lemma ReapSafe(s: System, run: seq<Step>, c: nat, q: nat)
    requires Booted(s) && Enabled(After(s, run), Reap(c, q))
    ensures var t := After(s, run);
            t.table[q].kstack && forall d :: 0 <= d < |t.cpus| ==> t.cpus[d].stack != Some(q)
  {
    RunInv(s, run);
    var t := After(s, run);
    hide After, Booted;
    NoParting(t, c);
    forall d | 0 <= d < |t.cpus| ensures t.cpus[d].stack != Some(q) {
      assert CpuOk(t.table, t.cpus[d]);
    }
  }

  // ---- What the steps do together ----

  /** A wakeup makes RUNNABLE exactly those asleep on its channel. */
  lemma WakesExactly(s: System, step: Step)
    requires Enabled(s, step) && (step.Wakeup? || step.Interrupt?)
    ensures var t := Do(s, step);
            && |t.table| == |s.table| && t == s.(table := t.table)
            && forall p :: 0 <= p < |s.table| ==>
                 t.table[p] == if s.table[p].state == SLEEPING && s.table[p].chan == Some(Other(step.n))
                               then s.table[p].(state := RUNNABLE) else s.table[p]
  {
  }

  /** A process that sleeps on a channel is RUNNABLE after a wakeup on that
      channel, and still asleep after one on another. */
  lemma SleepThenWakeup(s: System, c: nat, n: nat, u: System, step: Step)
    requires Enabled(s, Sleep(c, n)) && Enabled(u, step) && (step.Wakeup? || step.Interrupt?)
    requires u.table == Do(s, Sleep(c, n)).table
    ensures var p, t := Cur(s, c), Do(s, Sleep(c, n));
            && t.table == s.table[p := s.table[p].(state := SLEEPING, chan := t.table[p].chan)]
            && t.cpus[c].mode == Parting && t.lock == s.lock
            && Do(u, step).table[p].state == if step.n == n then RUNNABLE else SLEEPING
  {
    hide Exited, HasZombie;
  }

  /** A parent asleep in `wait` is RUNNABLE once a child has exited, with the
      child a zombie for it to free. */
  lemma WaitThenExit(s: System, c: nat, u: System, d: nat, r: Table)
    requires Enabled(s, WaitSleep(c)) && u.table == Do(s, WaitSleep(c)).table && Inv(u)
    requires Enabled(u, Exit(d, r)) && u.table[Cur(u, d)].parent == Some(Cur(s, c))
    ensures var p, q := Cur(s, c), Cur(u, d);
            && u.table[p].state == SLEEPING && Do(s, WaitSleep(c)).cpus[c].mode == Parting
            && Do(u, Exit(d, r)).cpus[d].mode == Parting
            && Do(u, Exit(d, r)).table[p].state == RUNNABLE && ZombieChild(Do(u, Exit(d, r)).table, p, q)
  {
    hide Waiters, Makings, Stacks, CpuInv;
    assert ParentOk(u.table, Cur(u, d));
  }

  /** Freeing a zombie leaves a free entry that is as good as new; kill marks the
      process and leaves it no longer asleep. Nothing else changes. */
  lemma ReapAndKill(s: System, c: nat, q: nat)
    ensures Enabled(s, Reap(c, q)) ==>
              var t := Do(s, Reap(c, q));
              && t == s.(table := s.table[q := t.table[q]])
              && t.table[q].state == UNUSED && t.table[q].pid == 0 && t.table[q].parent.None?
              && !t.table[q].killed && !t.table[q].kstack
    ensures Enabled(s, Kill(c, q)) ==>
              var t := Do(s, Kill(c, q));
              && t == s.(table := s.table[q := t.table[q]]) && t.table[q].killed
              && t.table[q].state == (if s.table[q].state == SLEEPING then RUNNABLE else s.table[q].state)
  {
    hide Exited, HasZombie;
  }

  /** A run is one part after the other. */
  lemma {:induction false} AfterBoth(s: System, a: seq<Step>, b: seq<Step>)
    ensures After(s, a + b) == After(After(s, a), b)
    decreases |b|
  {
    hide Do, Enabled;
    if b == [] {
      assert a + b == a;
    } else {
      AfterBoth(s, a, b[..|b| - 1]);
      assert (a + b)[..|a + b| - 1] == a + b[..|b| - 1];
    }
  }

  lemma AfterTwo(s: System, a: Step, b: Step)
    requires Enabled(s, a) && Enabled(Do(s, a), b)
    ensures After(s, [a, b]) == Do(Do(s, a), b)
  {
    hide Do, Enabled;
    assert [a, b][..1] == [a] && [a][..0] == [];
    assert After(s, [a]) == Do(s, a);
  }

  lemma KernelLocks(s: System, c: nat)
    requires Inv(s) && In(s, c, Kernel)
    ensures s.lock == Some(c)
  {
    hide TableInv;
  }

  lemma IdleCpu(s: System, c: nat)
    requires Inv(s) && In(s, c, Idle)
    ensures s.cpus[c] == Cpu(Idle, None, None)
  {
    hide TableInv;
    assert CpuOk(s.table, s.cpus[c]);
  }

  /** `allocproc` has an entry for the child and drops the lock. */
  function Begun(s: System, c: nat, q: nat, pid: int): System
    requires On(s, c, Kernel) && q < |s.table|
  {
    System(s.table[q := s.table[q].(state := EMBRYO, pid := pid)][Cur(s, c) := s.table[Cur(s, c)].(making := Some(q))],
           s.cpus[c := s.cpus[c].(mode := User)], None)
  }

  lemma ForkBegins(s: System, c: nat, q: nat, pid: int)
    requires Enabled(s, Alloc(c, q, pid))
    ensures After(s, [Alloc(c, q, pid), Release(c)]) == Begun(s, c, q, pid)
  {
    AfterTwo(s, Alloc(c, q, pid), Release(c));
  }

  lemma StackStep(t: System, c: nat, p: nat, q: nat)
    requires On(t, c, User) && Cur(t, c) == p && q < |t.table| && q != p && t.table[p].making == Some(q)
    ensures Enabled(t, GetStack(c))
    ensures Do(t, GetStack(c)) == t.(table := t.table[q := t.table[q].(kstack := true)])
  {
  }

  lemma AdoptStep(t: System, c: nat, p: nat, q: nat)
    requires On(t, c, User) && Cur(t, c) == p && q < |t.table| && q != p && t.table[p].making == Some(q)
    requires t.table[q].kstack
    ensures Enabled(t, Adopt(c))
    ensures Do(t, Adopt(c)) == t.(table := t.table[q := t.table[q].(parent := Some(p))])
  {
  }

  lemma ForkGrows(t: System, c: nat, p: nat, q: nat)
    requires On(t, c, User) && Cur(t, c) == p && q < |t.table| && q != p && t.table[p].making == Some(q)
    ensures After(t, [GetStack(c), Adopt(c)])
            == t.(table := t.table[q := t.table[q].(parent := Some(p), kstack := true)])
  {
    hide After, Do, Enabled;
    StackStep(t, c, p, q);
    AdoptStep(t.(table := t.table[q := t.table[q].(kstack := true)]), c, p, q);
    AfterTwo(t, GetStack(c), Adopt(c));
  }

  lemma ForkEnds(t: System, c: nat, p: nat, q: nat)
    requires On(t, c, User) && Cur(t, c) == p && q < |t.table| && q != p && t.table[p].making == Some(q)
    requires t.lock.None? && t.table[q].kstack && t.table[q].parent.Some?
    ensures After(t, [Acquire(c), Start(c)])
            == System(t.table[q := t.table[q].(state := RUNNABLE)][p := t.table[p].(making := None)],
                      t.cpus[c := t.cpus[c].(mode := Kernel)], Some(c))
  {
    hide After;
    AfterTwo(t, Acquire(c), Start(c));
  }

  /** An undisturbed `fork`: the child is RUNNABLE with its pid, its parent and
      a kernel stack, and nothing else has changed. */
  lemma ForkMakes(s: System, c: nat, q: nat, pid: int)
    requires Inv(s) && Enabled(s, Alloc(c, q, pid))
    ensures After(s, [Alloc(c, q, pid), Release(c)] + [GetStack(c), Adopt(c)] + [Acquire(c), Start(c)])
            == s.(table := s.table[q := s.table[q].(state := RUNNABLE, pid := pid, parent := Some(Cur(s, c)),
                                                    kstack := true)])
  {
    hide Inv, After;
    KernelLocks(s, c);
    FreeEntry(s, q);
    ForkBegins(s, c, q, pid);
    var t, p := Begun(s, c, q, pid), Cur(s, c);
    assert t.table[p].making == Some(q);
    hide Do, Enabled;
    ForkGrows(t, c, p, q);
    ForkEnds(t.(table := t.table[q := t.table[q].(parent := Some(p), kstack := true)]), c, p, q);
    AfterBoth(s, [Alloc(c, q, pid), Release(c)], [GetStack(c), Adopt(c)]);
    AfterBoth(s, [Alloc(c, q, pid), Release(c)] + [GetStack(c), Adopt(c)], [Acquire(c), Start(c)]);
  }

  lemma FreeEntry(s: System, q: nat)
    requires Inv(s) && q < |s.table| && s.table[q].state == UNUSED
    ensures s.table[q].parent.None?
  {
    hide CpuInv, Waiters, Makings;
    assert ParentOk(s.table, q);
  }

  /** A `fork` that runs out of memory leaves the entry free. */
  lemma ForkFails(s: System, c: nat, q: nat, pid: int)
    requires Inv(s) && Enabled(s, Alloc(c, q, pid))
    ensures After(s, [Alloc(c, q, pid), Release(c)] + [Abort(c), Acquire(c)])
            == s.(table := s.table[q := s.table[q].(pid := pid, kstack := false)])
  {
    hide Inv, After;
    KernelLocks(s, c);
    FreeEntry(s, q);
    ForkBegins(s, c, q, pid);
    AfterTwo(Begun(s, c, q, pid), Abort(c), Acquire(c));
    AfterBoth(s, [Alloc(c, q, pid), Release(c)], [Abort(c), Acquire(c)]);
  }

  /** A turn on a CPU: from the scheduler to the process and back, which leaves
      the process RUNNABLE and everything else as it was. */
  lemma Turn(s: System, c: nat, p: nat)
    requires Inv(s) && In(s, c, Idle) && s.lock.None? && p < |s.table| && s.table[p].state == RUNNABLE
    ensures After(s, [SchedAcquire(c), Pick(c, p)] + [SwitchIn(c), Release(c)])
            == System(s.table[p := s.table[p].(state := RUNNING, chan := None)],
                      s.cpus[c := Cpu(User, Some(p), Some(p))], None)
    ensures After(s, [SchedAcquire(c), Pick(c, p)] + [SwitchIn(c), Release(c)] + [Acquire(c), Yield(c)]
                     + [SwitchOut(c), ClearProc(c)])
            == System(s.table[p := s.table[p].(chan := None)], s.cpus[c := Cpu(Scanning, None, None)], Some(c))
  {
    hide Inv, After;
    IdleCpu(s, c);
    AfterTwo(s, SchedAcquire(c), Pick(c, p));
    var t := Do(Do(s, SchedAcquire(c)), Pick(c, p));
    AfterTwo(t, SwitchIn(c), Release(c));
    AfterBoth(s, [SchedAcquire(c), Pick(c, p)], [SwitchIn(c), Release(c)]);
    TurnBack(After(s, [SchedAcquire(c), Pick(c, p)] + [SwitchIn(c), Release(c)]), c, p);
    AfterBoth(s, [SchedAcquire(c), Pick(c, p)] + [SwitchIn(c), Release(c)], [Acquire(c), Yield(c)]);
    AfterBoth(s, [SchedAcquire(c), Pick(c, p)] + [SwitchIn(c), Release(c)] + [Acquire(c), Yield(c)],
              [SwitchOut(c), ClearProc(c)]);
  }

  lemma TurnBack(s: System, c: nat, p: nat)
    requires c < |s.cpus| && s.cpus[c] == Cpu(User, Some(p), Some(p)) && s.lock.None? && p < |s.table|
    ensures After(After(s, [Acquire(c), Yield(c)]), [SwitchOut(c), ClearProc(c)])
            == System(s.table[p := s.table[p].(state := RUNNABLE)], s.cpus[c := Cpu(Scanning, None, None)], Some(c))
  {
    hide After, Exited, HasZombie, ZombieChild, Reaped, Killed, Allocated, Aborted, Started, Stacked, Adopted;
    AfterTwo(s, Acquire(c), Yield(c));
    var t := System(s.table[p := s.table[p].(state := RUNNABLE)], s.cpus[c := Cpu(Parting, Some(p), Some(p))], Some(c));
    assert Do(Do(s, Acquire(c)), Yield(c)) == t;
    AfterTwo(t, SwitchOut(c), ClearProc(c));
  }
}
