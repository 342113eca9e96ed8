/**
 Several CPUs, one kernel lock (kern/trap.c, kern/sched.c, kern/env.c, kern/spinlock.c).

 Each CPU walks through trap(), trap_dispatch(), env_run(), sched_yield() and sched_halt() in steps
 that the other CPUs may interleave with their own: user code, taking a trap, one xchg on the lock.
 The lock is a bare flag; that it excludes is a theorem.  `StepSafe` states, for every step, exactly
 when it keeps the invariant.
 */
module Smp {
  import opened Environments
  import opened Sched

  datatype CpuStatus = Started | Halted

  /** Where a CPU is. */
  datatype Pc =
    | UserMode
    | Idle                                   // in the hlt loop of sched_halt
    | Spin(fromUser: bool, again: bool)      // in spin_lock; `again`: a second lock_kernel follows
    | SpinBoot                               // mp_main
    | Check                                  // trapped from user mode, lock just acquired
    | Dispatch                               // in trap_dispatch
    | After                                  // at the end of trap
    | Yield                                  // in sched_yield
    | Halting                                // in sched_halt
    | Marked                                 // cpu_status is CPU_HALTED, about to unlock
    | Switched                               // env_run done, about to unlock
    | Monitor                                // nothing to run: the kernel monitor, with the lock

  /** `env` is cpu_env as a slot, or -1; `locks` counts the lock_kernel calls of this kernel entry. */
  datatype Cpu = Cpu(status: CpuStatus, env: int, pc: Pc, locks: nat)

  /** `recving` is env_ipc_recving. */
  datatype Sys = Sys(locked: bool, cpus: seq<Cpu>, envs: seq<Status>, recving: seq<bool>)

  datatype Op =
    | Nop
    | DoYield
    | Exofork(t: nat)
    | SetStatus(t: nat, runnable: bool)
    | Destroy(t: nat)
    | Recv
    | Send(t: nat)

  datatype Action =
    | Trap(c: nat)
    | Xchg(c: nat)
    | Zombie(c: nat)
    | Do(c: nat, op: Op)
    | Return(c: nat)
    | Choose(c: nat)
    | Halt(c: nat)
    | Unlock(c: nat)

  predicate InKernel(pc: Pc) {
    pc.Check? || pc.Dispatch? || pc.After? || pc.Yield? || pc.Halting? || pc.Marked? || pc.Switched? || pc.Monitor?
  }

  predicate OpEnabled(s: Sys, c: nat, op: Op)
    requires c < |s.cpus| && |s.recving| == |s.envs|
  {
    match op
    case Nop => true
    case DoYield => true
    case Exofork(t) => 0 <= s.cpus[c].env && t < |s.envs| && s.envs[t].Free?
    case SetStatus(t, _) => 0 <= s.cpus[c].env && t < |s.envs| && !s.envs[t].Free?
    case Destroy(t) => 0 <= s.cpus[c].env && t < |s.envs| && !s.envs[t].Free?
    case Recv => 0 <= s.cpus[c].env < |s.envs|
    case Send(t) => 0 <= s.cpus[c].env && t < |s.envs| && !s.envs[t].Free? && s.recving[t]
  }

  predicate Enabled(s: Sys, a: Action) {
    && a.c < |s.cpus| && |s.recving| == |s.envs| > 0
    && -1 <= s.cpus[a.c].env < |s.envs|
    && var pc := s.cpus[a.c].pc;
       match a
       case Trap(c) => pc.UserMode? || pc.Idle?
       case Xchg(c) => pc.Spin? || pc.SpinBoot?
       case Zombie(c) => pc.Check? && s.cpus[c].env >= 0
       case Do(c, op) => pc.Dispatch? && OpEnabled(s, c, op)
       case Return(c) => pc.After?
       case Choose(c) => pc.Yield?
       case Halt(c) => pc.Halting?
       case Unlock(c) => pc.Marked? || pc.Switched?
  }

  function SetCpu(s: Sys, c: nat, cpu: Cpu): Sys
    requires c < |s.cpus|
  {
    s.(cpus := s.cpus[c := cpu])
  }

  /** env_run up to unlock_kernel: the old environment goes back to RUNNABLE if it was RUNNING. */
  function EnvRun(s: Sys, c: nat, e: nat): Sys
    requires c < |s.cpus| && -1 <= s.cpus[c].env < |s.envs| && e < |s.envs|
  {
    var cur := s.cpus[c].env;
    var envs := if cur >= 0 && s.envs[cur].Running? then s.envs[cur := Runnable] else s.envs;
    SetCpu(s, c, s.cpus[c].(env := e, pc := Switched)).(envs := envs[e := Running])
  }

  function DoOp(s: Sys, c: nat, op: Op): Sys
    requires c < |s.cpus| && |s.recving| == |s.envs| > 0 && -1 <= s.cpus[c].env < |s.envs| && OpEnabled(s, c, op)
  {
    var cpu := s.cpus[c];
    var back := SetCpu(s, c, cpu.(pc := After));
    var yield' := SetCpu(s, c, cpu.(pc := Yield));
    match op
    case Nop => back
    case DoYield => yield'
    case Exofork(t) => back.(envs := s.envs[t := NotRunnable], recving := s.recving[t := false])
    case SetStatus(t, runnable) => back.(envs := s.envs[t := if runnable then Runnable else NotRunnable])
    case Destroy(t) =>
      if s.envs[t].Running? && t != cpu.env then back.(envs := s.envs[t := Dying])
      else if t != cpu.env then back.(envs := s.envs[t := Free])
      else SetCpu(s, c, cpu.(env := -1, pc := Yield)).(envs := s.envs[t := Free])
    case Recv => yield'.(envs := s.envs[cpu.env := NotRunnable], recving := s.recving[cpu.env := true])
    case Send(t) => back.(envs := s.envs[t := Runnable], recving := s.recving[t := false])
  }

  function Next(s: Sys, a: Action): Sys
    requires Enabled(s, a)
  {
    var c := a.c;
    var cpu := s.cpus[c];
    match a
    case Trap(_) =>
      // xchg(&cpu_status, CPU_STARTED), then lock_kernel once if it was halted and once if from user mode
      var user, halted := cpu.pc.UserMode?, cpu.status.Halted?;
      var pc := if user then Spin(true, halted) else if halted then Spin(false, false) else Dispatch;
      SetCpu(s, c, cpu.(status := Started, pc := pc))
    case Xchg(_) =>
      if s.locked then s
      else
        var pc := match cpu.pc
          case Spin(user, true) => Spin(user, false)
          case Spin(true, false) => Check
          case Spin(false, false) => Dispatch
          case _ => Yield;
        SetCpu(s, c, cpu.(pc := pc, locks := cpu.locks + 1)).(locked := true)
    case Zombie(_) =>
      if s.envs[cpu.env].Dying? then SetCpu(s, c, cpu.(env := -1, pc := Yield)).(envs := s.envs[cpu.env := Free])
      else SetCpu(s, c, cpu.(pc := Dispatch))
    case Do(_, op) => DoOp(s, c, op)
    case Return(_) =>
      if cpu.env >= 0 && s.envs[cpu.env].Running? then EnvRun(s, c, cpu.env) else SetCpu(s, c, cpu.(pc := Yield))
    case Choose(_) =>
      PickAtFirst(s.envs, if cpu.env < 0 then 0 else cpu.env, 0);
      var e := Pick(s.envs, if cpu.env < 0 then 0 else cpu.env);
      if e >= 0 then EnvRun(s, c, e)
      else if cpu.env >= 0 && s.envs[cpu.env].Running? then EnvRun(s, c, cpu.env)
      else SetCpu(s, c, cpu.(pc := Halting))
    case Halt(_) =>
      if exists e :: 0 <= e < |s.envs| && (s.envs[e].Runnable? || s.envs[e].Running? || s.envs[e].Dying?)
      then SetCpu(s, c, cpu.(env := -1, status := Halted, pc := Marked))
      else SetCpu(s, c, cpu.(pc := Monitor))
    case Unlock(_) =>
      SetCpu(s, c, cpu.(pc := if cpu.pc.Switched? then UserMode else Idle, locks := 0)).(locked := false)
  }

  // ----- The invariant

  predicate Alive(x: Status) { x.Running? || x.Dying? }

  /** What holds of one CPU and its current environment at each place. */
  predicate CpuOk(s: Sys, c: nat)
    requires c < |s.cpus| && -1 <= s.cpus[c].env < |s.envs|
  {
    var cpu := s.cpus[c];
    && (cpu.status.Halted? <==> cpu.pc.Idle? || cpu.pc.Marked?)
    && cpu.locks == (if InKernel(cpu.pc) then 1 else 0)
    && match cpu.pc
       case UserMode => cpu.env >= 0 && Alive(s.envs[cpu.env])
       case Idle => cpu.env == -1
       case Spin(user, again) => !again && (if user then cpu.env >= 0 && Alive(s.envs[cpu.env]) else cpu.env == -1)
       case SpinBoot => cpu.env == -1
       case Check => cpu.env >= 0 && Alive(s.envs[cpu.env])
       case Dispatch => cpu.env >= 0 ==> s.envs[cpu.env].Running?
       case After => cpu.env >= 0 ==> !s.envs[cpu.env].Free? && !s.envs[cpu.env].Dying?
       case Yield => cpu.env >= 0 ==> !s.envs[cpu.env].Free? && !s.envs[cpu.env].Dying?
       case Halting => cpu.env >= 0 ==> s.envs[cpu.env].NotRunnable?
       case Marked => cpu.env == -1
       case Switched => cpu.env >= 0 && s.envs[cpu.env].Running?
       case Monitor => cpu.env >= 0 ==> s.envs[cpu.env].NotRunnable?
  }

  /** At most one CPU is inside the kernel, and the flag says whether one is. */
  ghost predicate LockOk(s: Sys) {
    && (forall c, d :: 0 <= c < |s.cpus| && 0 <= d < |s.cpus| && InKernel(s.cpus[c].pc) && InKernel(s.cpus[d].pc) ==> c == d)
    && (s.locked <==> exists c :: 0 <= c < |s.cpus| && InKernel(s.cpus[c].pc))
  }

  /** No environment is current on two CPUs, and a RUNNING or DYING one is current somewhere. */
  ghost predicate CurrentOk(s: Sys) {
    && (forall c, d :: 0 <= c < |s.cpus| && 0 <= d < |s.cpus| && s.cpus[c].env >= 0 && s.cpus[c].env == s.cpus[d].env ==> c == d)
    && (forall e :: 0 <= e < |s.envs| && Alive(s.envs[e]) ==> exists c :: 0 <= c < |s.cpus| && s.cpus[c].env == e)
  }

  ghost predicate Inv(s: Sys) {
    && |s.recving| == |s.envs| > 0
    && (forall c :: 0 <= c < |s.cpus| ==> -1 <= s.cpus[c].env < |s.envs|)
    && LockOk(s)
    && CurrentOk(s)
    && (forall c :: 0 <= c < |s.cpus| ==> CpuOk(s, c))
  }

  /** The environment is current on a CPU other than c. */
  ghost predicate Elsewhere(s: Sys, c: nat, t: nat) {
    exists d :: 0 <= d < |s.cpus| && d != c && s.cpus[d].env == t
  }

  /** What a caller must respect: sys_env_set_status and sys_ipc_try_send must not be aimed at an
      environment that is current on another CPU, nor sys_env_destroy at one already DYING there. */
  ghost predicate Guard(s: Sys, a: Action)
    requires Enabled(s, a)
  {
    a.Do? ==>
      match a.op
      case SetStatus(t, _) => !Elsewhere(s, a.c, t)
      case Send(t) => !Elsewhere(s, a.c, t)
      case Destroy(t) => !(Elsewhere(s, a.c, t) && s.envs[t].Dying?)
      case _ => true
  }

  /** What a step of CPU c may do to the rest of the machine. */
  ghost predicate Local(s: Sys, s': Sys, c: nat) {
    && c < |s.cpus| == |s'.cpus| && |s'.envs| == |s.envs| == |s'.recving|
    && (forall d :: 0 <= d < |s.cpus| && d != c ==> s'.cpus[d] == s.cpus[d])
    && -1 <= s'.cpus[c].env < |s.envs|
  }

  /** A local step that changes the lock together with being in the kernel keeps the lock honest. */
  lemma LocalLock(s: Sys, s': Sys, c: nat)
    requires Inv(s) && Local(s, s', c)
    requires InKernel(s'.cpus[c].pc) ==> s'.locked && (InKernel(s.cpus[c].pc) || !s.locked)
    requires !InKernel(s'.cpus[c].pc) ==> s'.locked == (s.locked && !InKernel(s.cpus[c].pc))
    ensures LockOk(s')
  {
  }

  /** Only the CPU inside the kernel changes statuses, and it leaves the environments of others alive. */
  lemma LocalCpus(s: Sys, s': Sys, c: nat)
    requires Inv(s) && Local(s, s', c) && CpuOk(s', c)
    requires s'.envs != s.envs ==> InKernel(s.cpus[c].pc)
    requires forall d :: 0 <= d < |s.cpus| && d != c && s.cpus[d].env >= 0 && s'.envs != s.envs ==> Alive(s'.envs[s.cpus[d].env])
    ensures forall d :: 0 <= d < |s'.cpus| ==> CpuOk(s', d)
  {
    forall d | 0 <= d < |s'.cpus| ensures CpuOk(s', d) {
      assert CpuOk(s, d);
    }
  }

  /** Nobody loses its CPU alive, and c does not take an environment that is current elsewhere. */
  lemma LocalCurrent(s: Sys, s': Sys, c: nat)
    requires Inv(s) && Local(s, s', c)
    requires s'.cpus[c].env >= 0 && s'.cpus[c].env != s.cpus[c].env ==> !Elsewhere(s, c, s'.cpus[c].env)
    requires forall e :: 0 <= e < |s.envs| && Alive(s'.envs[e]) ==> e == s'.cpus[c].env || (Alive(s.envs[e]) && e != s.cpus[c].env)
    ensures CurrentOk(s')
  {
  }

  /** While c is in the kernel, the other CPUs run living environments, and not that of c. */
  lemma OthersAlive(s: Sys, c: nat)
    requires Inv(s) && c < |s.cpus| && InKernel(s.cpus[c].pc)
    ensures forall d :: 0 <= d < |s.cpus| && d != c && s.cpus[d].env >= 0 ==>
              s.cpus[d].env != s.cpus[c].env && Alive(s.envs[s.cpus[d].env])
  {
    forall d | 0 <= d < |s.cpus| && d != c && s.cpus[d].env >= 0 ensures Alive(s.envs[s.cpus[d].env]) {
      assert CpuOk(s, d);
    }
  }

  /** Steps that change no status and no current environment. */
  lemma QuietStep(s: Sys, a: Action)
    requires Inv(s) && Enabled(s, a) && (a.Trap? || a.Xchg? || a.Unlock?)
    ensures Inv(Next(s, a))
  {
    var s' := Next(s, a);
    assert CpuOk(s, a.c);
    LocalLock(s, s', a.c);
    LocalCpus(s, s', a.c);
    LocalCurrent(s, s', a.c);
  }

  /** env_run of a RUNNABLE environment, or of the current one. */
  lemma RunStep(s: Sys, c: nat, e: nat)
    requires Inv(s) && c < |s.cpus| && InKernel(s.cpus[c].pc) && s.cpus[c].status.Started? && e < |s.envs|
    requires s.cpus[c].env >= 0 ==> !s.envs[s.cpus[c].env].Dying?
    requires s.envs[e].Runnable? || e == s.cpus[c].env
    ensures Inv(EnvRun(s, c, e))
  {
    var s' := EnvRun(s, c, e);
    assert CpuOk(s, c);
    OthersAlive(s, c);
    LocalLock(s, s', c);
    LocalCpus(s, s', c);
    LocalCurrent(s, s', c);
  }

  /** The zombie check of trap, and sched_halt. */
  lemma ClearStep(s: Sys, a: Action)
    requires Inv(s) && Enabled(s, a) && (a.Zombie? || a.Halt?)
    ensures Inv(Next(s, a))
  {
    var s', c := Next(s, a), a.c;
    assert CpuOk(s, c);
    OthersAlive(s, c);
    LocalLock(s, s', c);
    LocalCpus(s, s', c);
    LocalCurrent(s, s', c);
  }

  /** The end of trap, and sched_yield. */
  lemma SwitchStep(s: Sys, a: Action)
    requires Inv(s) && Enabled(s, a) && (a.Return? || a.Choose?)
    ensures Inv(Next(s, a))
  {
    var s', c := Next(s, a), a.c;
    assert CpuOk(s, c);
    if a.Choose? { PickAtFirst(s.envs, if s.cpus[c].env < 0 then 0 else s.cpus[c].env, 0); }
    if s'.cpus[c].pc.Switched? {
      RunStep(s, c, s'.cpus[c].env);
    } else {
      LocalLock(s, s', c);
      LocalCpus(s, s', c);
      LocalCurrent(s, s', c);
    }
  }

  lemma OpCpus(s: Sys, c: nat, op: Op)
    requires Inv(s) && Enabled(s, Do(c, op)) && Guard(s, Do(c, op))
    ensures var s' := DoOp(s, c, op);
            && (forall d :: 0 <= d < |s'.cpus| ==> -1 <= s'.cpus[d].env < |s'.envs|)
            && (forall d :: 0 <= d < |s'.cpus| ==> CpuOk(s', d))
  {
    assert CpuOk(s, c);
    OthersAlive(s, c);
    LocalCpus(s, DoOp(s, c, op), c);
  }

  lemma OpCurrent(s: Sys, c: nat, op: Op)
    requires Inv(s) && Enabled(s, Do(c, op)) && Guard(s, Do(c, op))
    ensures CurrentOk(DoOp(s, c, op))
  {
    assert CpuOk(s, c);
    LocalCurrent(s, DoOp(s, c, op), c);
  }

  lemma OpStep(s: Sys, c: nat, op: Op)
    requires Inv(s) && Enabled(s, Do(c, op)) && Guard(s, Do(c, op))
    ensures Inv(DoOp(s, c, op))
  {
    OpCpus(s, c, op);
    OpCurrent(s, c, op);
    LocalLock(s, DoOp(s, c, op), c);
  }

  /** An operation outside the guard leaves another CPU running an environment that is not alive. */
  lemma UnsafeOp(s: Sys, c: nat, op: Op)
    requires Inv(s) && Enabled(s, Do(c, op)) && !Guard(s, Do(c, op))
    ensures !Inv(DoOp(s, c, op))
  {
    var d :| 0 <= d < |s.cpus| && d != c && s.cpus[d].env == op.t;
    assert CpuOk(s, c) && CpuOk(s, d);
    assert !CpuOk(DoOp(s, c, op), d);
  }

  /** A step keeps the invariant if and only if it respects the guard. */
  lemma StepSafe(s: Sys, a: Action)
    requires Inv(s) && Enabled(s, a)
    ensures Inv(Next(s, a)) <==> Guard(s, a)
  {
    match a
    case Trap(_) => QuietStep(s, a);
    case Xchg(_) => QuietStep(s, a);
    case Unlock(_) => QuietStep(s, a);
    case Do(c, op) => if Guard(s, a) { OpStep(s, c, op); } else { UnsafeOp(s, c, op); }
    case Return(_) => SwitchStep(s, a);
    case Choose(_) => SwitchStep(s, a);
    case _ => ClearStep(s, a);
  }

  // ----- Whole runs

  /** The BSP enters the scheduler holding the lock; the other CPUs wait for it; no environment runs. */
  ghost predicate Init(s: Sys) {
    && |s.recving| == |s.envs| > 0 && |s.cpus| > 0 && s.locked
    && (forall e :: 0 <= e < |s.envs| ==> !Alive(s.envs[e]))
    && s.cpus[0] == Cpu(Started, -1, Yield, 1)
    && (forall c :: 0 < c < |s.cpus| ==> s.cpus[c] == Cpu(Started, -1, SpinBoot, 0))
  }

  lemma InitInv(s: Sys)
    requires Init(s)
    ensures Inv(s)
  {
    assert InKernel(s.cpus[0].pc);
  }

  ghost predicate IsRun(states: seq<Sys>, run: seq<Action>) {
    && |states| == |run| + 1 && Init(states[0])
    && forall i :: 0 <= i < |run| ==> GuardedAt(states, run, i)
  }

  /** Step i of a sequence of states is enabled, within the guard, and taken. */
  ghost predicate GuardedAt(states: seq<Sys>, run: seq<Action>, i: nat)
    requires i < |run| < |states|
  {
    Enabled(states[i], run[i]) && Guard(states[i], run[i]) && states[i + 1] == Next(states[i], run[i])
  }

  lemma {:induction false} RunInv(states: seq<Sys>, run: seq<Action>, i: nat)
    requires IsRun(states, run) && i < |states|
    ensures Inv(states[i])
  {
    if i == 0 {
      InitInv(states[0]);
    } else {
      RunInv(states, run, i - 1);
      assert GuardedAt(states, run, i - 1);
      StepSafe(states[i - 1], run[i - 1]);
    }
  }

  /** One CPU in the kernel at most, one acquisition per kernel entry, and no environment current on two
      CPUs; and while the lock is free, RUNNING or DYING means current. */
  ghost predicate Safe(s: Sys) {
    && (forall c, d :: 0 <= c < |s.cpus| && 0 <= d < |s.cpus| && InKernel(s.cpus[c].pc) && InKernel(s.cpus[d].pc) ==> c == d)
    && (forall c :: 0 <= c < |s.cpus| ==> s.cpus[c].locks == if InKernel(s.cpus[c].pc) then 1 else 0)
    && (forall c, d :: 0 <= c < |s.cpus| && 0 <= d < |s.cpus| && s.cpus[c].env == s.cpus[d].env >= 0 ==> c == d)
    && (!s.locked ==> forall e :: 0 <= e < |s.envs| ==>
          (Alive(s.envs[e]) <==> exists c :: 0 <= c < |s.cpus| && s.cpus[c].env == e))
  }

  /** Every reachable state is safe. */
  lemma Safety(states: seq<Sys>, run: seq<Action>, i: nat)
    requires IsRun(states, run) && i < |states|
    ensures Safe(states[i])
  {
    RunInv(states, run, i);
    var s := states[i];
    forall c | 0 <= c < |s.cpus| ensures s.cpus[c].locks == if InKernel(s.cpus[c].pc) then 1 else 0 {
      assert CpuOk(s, c);
    }
    if !s.locked {
      forall e, c | 0 <= e < |s.envs| && 0 <= c < |s.cpus| && s.cpus[c].env == e ensures Alive(s.envs[e]) {
        assert CpuOk(s, c);
      }
    }
  }

  // ----- The lock is given back

  predicate Busy(x: Status) { x.Runnable? || x.Running? || x.Dying? }

  /** A CPU keeps the lock in the monitor only when there is nothing to run on any CPU, and goes to sleep
      only when there is. */
  ghost predicate MonitorOk(s: Sys) {
    && ((exists c :: 0 <= c < |s.cpus| && s.cpus[c].pc.Monitor?) ==> forall e :: 0 <= e < |s.envs| ==> !Busy(s.envs[e]))
    && ((exists c :: 0 <= c < |s.cpus| && s.cpus[c].pc.Marked?) ==> exists e :: 0 <= e < |s.envs| && Busy(s.envs[e]))
  }

  lemma StepMonitor(s: Sys, a: Action)
    requires Inv(s) && MonitorOk(s) && Enabled(s, a)
    ensures MonitorOk(Next(s, a)) && |Next(s, a).cpus| == |s.cpus|
  {
    var s' := Next(s, a);
    assert CpuOk(s, a.c);
    if c :| 0 <= c < |s.cpus| && (s.cpus[c].pc.Monitor? || s.cpus[c].pc.Marked?) {
      assert InKernel(s.cpus[c].pc) && (a.c == c || !InKernel(s.cpus[a.c].pc));
      assert s'.envs == s.envs;
    } else {
      forall c | 0 <= c < |s'.cpus| && (s'.cpus[c].pc.Monitor? || s'.cpus[c].pc.Marked?) ensures a.Halt? && c == a.c {}
      if a.Halt? {
        assert s'.envs == s.envs;
        assert s'.cpus[a.c].pc.Marked? <==> exists e :: 0 <= e < |s.envs| && Busy(s.envs[e]);
      }
    }
  }

  lemma {:induction false} RunMonitor(states: seq<Sys>, run: seq<Action>, i: nat)
    requires IsRun(states, run) && i < |states|
    ensures Inv(states[i]) && MonitorOk(states[i]) && |states[i].cpus| > 0
  {
    RunInv(states, run, i);
    if i > 0 {
      RunMonitor(states, run, i - 1);
      assert GuardedAt(states, run, i - 1);
      StepMonitor(states[i - 1], run[i - 1]);
    }
  }

  /** In every reachable state with something to run, some CPU can take a step, and one that is not
      another turn of the spin loop. */
  lemma SomeoneMoves(states: seq<Sys>, run: seq<Action>, i: nat, e: nat) returns (a: Action)
    requires IsRun(states, run) && i < |states| && e < |states[i].envs| && Busy(states[i].envs[e])
    ensures Enabled(states[i], a) && !(a.Xchg? && states[i].locked)
  {
    RunMonitor(states, run, i);
    var s := states[i];
    if s.locked {
      var c :| 0 <= c < |s.cpus| && InKernel(s.cpus[c].pc);
      assert CpuOk(s, c) && !s.cpus[c].pc.Monitor?;
      a := KernelStep(s.cpus[c].pc, c);
    } else {
      assert CpuOk(s, 0) && !InKernel(s.cpus[0].pc);
      a := if s.cpus[0].pc.UserMode? || s.cpus[0].pc.Idle? then Trap(0) else Xchg(0);
    }
  }

  function KernelStep(pc: Pc, c: nat): Action {
    match pc
    case Check => Zombie(c)
    case Dispatch => Do(c, Nop)
    case After => Return(c)
    case Yield => Choose(c)
    case Halting => Halt(c)
    case _ => Unlock(c)
  }

  /** How many steps a CPU can still take before it leaves the kernel. */
  function Left(pc: Pc): nat {
    match pc
    case Check => 6
    case Dispatch => 5
    case After => 4
    case Yield => 3
    case Halting => 2
    case Marked => 1
    case Switched => 1
    case _ => 0
  }

  /** A CPU in the kernel comes closer to leaving it with every step of its own, and stays where it is
      with every step of another. */
  lemma LeftFalls(s: Sys, a: Action, c: nat)
    requires Inv(s) && Enabled(s, a) && c < |s.cpus| && InKernel(s.cpus[c].pc)
    ensures |Next(s, a).cpus| == |s.cpus|
    ensures a.c == c ==> Left(Next(s, a).cpus[c].pc) < Left(s.cpus[c].pc)
    ensures a.c != c ==> Next(s, a).cpus[c] == s.cpus[c]
  {
    if a.c == c { assert CpuOk(s, c); }
  }

  /** The steps of CPU c in a run. */
  function StepsOf(run: seq<Action>, c: nat): nat {
    if run == [] then 0 else StepsOf(run[..|run| - 1], c) + if run[|run| - 1].c == c then 1 else 0
  }

  predicate InsideAt(states: seq<Sys>, k: nat, c: nat) {
    k < |states| && c < |states[k].cpus| && InKernel(states[k].cpus[c].pc)
  }

  lemma VisitStep(states: seq<Sys>, run: seq<Action>, k: nat, c: nat)
    requires IsRun(states, run) && k < |run| && InsideAt(states, k, c) && InsideAt(states, k + 1, c)
    ensures Left(states[k + 1].cpus[c].pc) + (if run[k].c == c then 1 else 0) <= Left(states[k].cpus[c].pc)
  {
    RunInv(states, run, k);
    assert GuardedAt(states, run, k);
    LeftFalls(states[k], run[k], c);
  }

  /** A visit to the kernel takes at most six steps of its CPU, whatever the others do. */
  lemma {:induction false} ShortVisit(states: seq<Sys>, run: seq<Action>, i: nat, j: nat, c: nat)
    requires IsRun(states, run) && i <= j < |states| && InsideAt(states, i, c) && InsideAt(states, j, c)
    requires forall k :: i <= k <= j ==> InsideAt(states, k, c)
    ensures StepsOf(run[i..j], c) + Left(states[j].cpus[c].pc) <= Left(states[i].cpus[c].pc) <= 6
    decreases j - i
  {
    if i < j {
      assert InsideAt(states, j - 1, c);
      ShortVisit(states, run, i, j - 1, c);
      VisitStep(states, run, j - 1, c);
      LongerStretch(run, i, j, c);
    }
  }

  lemma LongerStretch(run: seq<Action>, i: nat, j: nat, c: nat)
    requires i < j <= |run|
    ensures StepsOf(run[i..j], c) == StepsOf(run[i..j - 1], c) + if run[j - 1].c == c then 1 else 0
  {
    assert run[i..j][..j - 1 - i] == run[i..j - 1];
  }

  /** The next step of a CPU that has one step left gives the lock back; one that has none left is in the
      monitor, with nothing to run anywhere. */
  lemma VisitEnds(states: seq<Sys>, run: seq<Action>, k: nat, c: nat)
    requires IsRun(states, run) && k < |run| && InsideAt(states, k, c) && Left(states[k].cpus[c].pc) <= 1
    ensures run[k].c == c ==> !states[k + 1].locked
    ensures Left(states[k].cpus[c].pc) == 0 ==> forall e :: 0 <= e < |states[k].envs| ==> !Busy(states[k].envs[e])
  {
    RunMonitor(states, run, k);
    assert GuardedAt(states, run, k);
  }

  // ----- Who keeps the CPU, and who waits for a message

  predicate Aimed(op: Op, e: nat) {
    match op
    case SetStatus(t, _) => t == e
    case Destroy(t) => t == e
    case Send(t) => t == e
    case _ => false
  }

  /** The steps by which e can lose CPU c: it yields or receives there, or is the target of a call. */
  predicate GivesUp(a: Action, c: nat, e: nat) {
    a.Do? && (Aimed(a.op, e) || (a.c == c && (a.op.DoYield? || a.op.Recv?)))
  }

  /** Environment e runs on CPU c, or the kernel serves it there. */
  predicate HasCpu(s: Sys, c: nat, e: nat) {
    && c < |s.cpus| && e < |s.envs| && s.cpus[c].env == e && s.envs[e].Running?
    && var pc := s.cpus[c].pc; pc.UserMode? || pc.Spin? || pc.Check? || pc.Dispatch? || pc.After? || pc.Switched?
  }

  /** The scheduler dispatches a RUNNABLE environment or the current one. */
  lemma Chosen(s: Sys, c: nat)
    requires Inv(s) && Enabled(s, Choose(c))
    ensures var s' := Next(s, Choose(c)); var e := s'.cpus[c].env;
            s' == SetCpu(s, c, s.cpus[c].(pc := Halting))
            || (0 <= e < |s.envs| && s' == EnvRun(s, c, e) && (s.envs[e].Runnable? || (e == s.cpus[c].env && s.envs[e].Running?)))
  {
    PickAtFirst(s.envs, if s.cpus[c].env < 0 then 0 else s.cpus[c].env, 0);
  }

  lemma OpKeeps(s: Sys, c: nat, op: Op, e: nat)
    requires Inv(s) && Enabled(s, Do(c, op)) && e < |s.envs| && !Aimed(op, e)
    requires s.envs[e].NotRunnable? || (s.envs[e].Running? && s.cpus[c].env != e)
    ensures var s' := DoOp(s, c, op);
            e < |s'.envs| == |s.envs| == |s'.recving| && s'.envs[e] == s.envs[e] && s'.recving[e] == s.recving[e]
  {
    assert CpuOk(s, c);
  }

  /** A step that is not aimed at e leaves e blocked if it is, and running if it does so on another CPU. */
  lemma StatusKept(s: Sys, a: Action, e: nat)
    requires Inv(s) && Enabled(s, a) && e < |s.envs| && (a.Do? ==> !Aimed(a.op, e))
    requires s.envs[e].NotRunnable? || (s.envs[e].Running? && s.cpus[a.c].env != e)
    ensures e < |Next(s, a).envs| == |s.envs| == |Next(s, a).recving|
    ensures Next(s, a).envs[e] == s.envs[e] && Next(s, a).recving[e] == s.recving[e]
  {
    match a
    case Do(c, op) => OpKeeps(s, c, op, e);
    case Choose(c) => Chosen(s, c);
    case _ =>
  }

  lemma KeepsCpuStep(s: Sys, a: Action, c: nat, e: nat)
    requires Inv(s) && Enabled(s, a) && HasCpu(s, c, e) && !GivesUp(a, c, e)
    ensures HasCpu(Next(s, a), c, e)
  {
    assert CpuOk(s, c);
    if a.c != c {
      assert s.cpus[a.c].env != e;
      StatusKept(s, a, e);
    }
  }

  /** An environment keeps its CPU, through all traps and system calls and whatever the other CPUs do,
      until it yields or receives or is the target of a call. */
  lemma {:induction false} KeepsCpu(states: seq<Sys>, run: seq<Action>, i: nat, j: nat, c: nat, e: nat)
    requires IsRun(states, run) && i <= j < |states| && HasCpu(states[i], c, e)
    requires forall k :: i <= k < j ==> !GivesUp(run[k], c, e)
    ensures HasCpu(states[j], c, e)
    decreases j - i
  {
    if i < j {
      KeepsCpu(states, run, i, j - 1, c, e);
      RunInv(states, run, j - 1);
      assert GuardedAt(states, run, j - 1);
      KeepsCpuStep(states[j - 1], run[j - 1], c, e);
    }
  }

  /** Blocked in sys_ipc_recv. */
  predicate Waits(s: Sys, e: int) { 0 <= e < |s.envs| == |s.recving| && s.envs[e].NotRunnable? && s.recving[e] }

  lemma RecvBlocks(s: Sys, c: nat)
    requires Inv(s) && Enabled(s, Do(c, Recv))
    ensures Waits(Next(s, Do(c, Recv)), s.cpus[c].env)
  {
  }

  /** Every CPU that serves an environment can send to one that waits, which makes it RUNNABLE. */
  ghost predicate Reachable(s: Sys, e: int) {
    && Waits(s, e)
    && forall d: nat :: d < |s.cpus| && s.cpus[d].pc.Dispatch? && 0 <= s.cpus[d].env < |s.envs| ==> Wakes(s, d, e)
  }

  predicate Wakes(s: Sys, d: nat, e: nat) {
    && Enabled(s, Do(d, Send(e)))
    && var s' := Next(s, Do(d, Send(e))); e < |s'.envs| == |s'.recving| && s'.envs[e].Runnable? && !s'.recving[e]
  }

  /** An environment that receives waits until it is the target of a call, and can be sent to meanwhile. */
  lemma {:induction false} ReceiverWaits(states: seq<Sys>, run: seq<Action>, i: nat, j: nat, c: nat)
    requires IsRun(states, run) && i < j < |states| && run[i] == Do(c, Recv) && c < |states[i].cpus| && states[i].cpus[c].env >= 0
    requires forall k :: i < k < j && run[k].Do? ==> !Aimed(run[k].op, states[i].cpus[c].env)
    ensures Reachable(states[j], states[i].cpus[c].env)
    decreases j - i
  {
    RunInv(states, run, j - 1);
    assert GuardedAt(states, run, j - 1);
    if i + 1 < j {
      ReceiverWaits(states, run, i, j - 1, c);
      StatusKept(states[j - 1], run[j - 1], states[i].cpus[c].env);
    } else {
      RecvBlocks(states[i], c);
    }
  }

  // ----- How the library stays within the guard

  /** An environment blocked in sys_ipc_recv is not runnable. */
  ghost predicate RecvBlocked(s: Sys) {
    |s.recving| == |s.envs| && forall e :: 0 <= e < |s.envs| && s.recving[e] ==> s.envs[e].NotRunnable? || s.envs[e].Free?
  }

  /** fork and spawn set the status of a child that has not run yet; nobody is destroyed twice. */
  ghost predicate Polite(s: Sys, a: Action)
    requires Enabled(s, a)
  {
    a.Do? ==>
      && (a.op.SetStatus? ==> s.envs[a.op.t].NotRunnable? && !s.recving[a.op.t])
      && (a.op.Destroy? ==> !s.envs[a.op.t].Dying?)
  }

  /** Then every step respects the guard, sends included. */
  lemma PoliteStep(s: Sys, a: Action)
    requires Inv(s) && RecvBlocked(s) && Enabled(s, a) && Polite(s, a)
    ensures Guard(s, a) && Inv(Next(s, a)) && RecvBlocked(Next(s, a))
  {
    if a.Do? { OthersAlive(s, a.c); }
    StepSafe(s, a);
    StaysBlocked(s, a);
  }

  lemma StaysBlocked(s: Sys, a: Action)
    requires Inv(s) && RecvBlocked(s) && Enabled(s, a) && Polite(s, a)
    ensures RecvBlocked(Next(s, a))
  {
    assert CpuOk(s, a.c);
    if a.Choose? {
      ChooseBlocked(s, a.c);
    } else if a.Do? {
      OpBlocked(s, a.c, a.op);
    }
  }

  lemma ChooseBlocked(s: Sys, c: nat)
    requires Inv(s) && RecvBlocked(s) && Enabled(s, Choose(c))
    ensures RecvBlocked(Next(s, Choose(c)))
  {
    PickAtFirst(s.envs, if s.cpus[c].env < 0 then 0 else s.cpus[c].env, 0);
  }

  lemma OpBlocked(s: Sys, c: nat, op: Op)
    requires Inv(s) && RecvBlocked(s) && Enabled(s, Do(c, op)) && Polite(s, Do(c, op))
    ensures RecvBlocked(DoOp(s, c, op))
  {
  }

  ghost predicate PoliteAt(states: seq<Sys>, run: seq<Action>, i: nat)
    requires i < |run| < |states|
  {
    Enabled(states[i], run[i]) && Polite(states[i], run[i]) && states[i + 1] == Next(states[i], run[i])
  }

  /** A run in which every caller keeps to the discipline of the library, and nobody waits for a message at first. */
  ghost predicate IsPoliteRun(states: seq<Sys>, run: seq<Action>) {
    && |states| == |run| + 1 && Init(states[0]) && RecvBlocked(states[0])
    && forall i :: 0 <= i < |run| ==> PoliteAt(states, run, i)
  }

  lemma {:induction false} PoliteInv(states: seq<Sys>, run: seq<Action>, i: nat)
    requires IsPoliteRun(states, run) && i < |states|
    ensures Inv(states[i]) && RecvBlocked(states[i])
  {
    if i == 0 {
      InitInv(states[0]);
    } else {
      PoliteInv(states, run, i - 1);
      assert PoliteAt(states, run, i - 1);
      PoliteStep(states[i - 1], run[i - 1]);
    }
  }

  /** Every polite run is a guarded run, so all that Safety says is true of its states. */
  lemma PoliteSafety(states: seq<Sys>, run: seq<Action>, i: nat)
    requires IsPoliteRun(states, run) && i < |states|
    ensures IsRun(states, run) && Safe(states[i])
  {
    forall k | 0 <= k < |run| ensures GuardedAt(states, run, k) {
      PoliteInv(states, run, k);
      assert PoliteAt(states, run, k);
      PoliteStep(states[k], run[k]);
    }
    Safety(states, run, i);
  }

  // ----- Without the guard

  function Pair(pc0: Pc, env0: int, pc1: Pc, env1: int, e0: Status, e1: Status): Sys {
    Sys(InKernel(pc0) || InKernel(pc1),
        [Cpu(Started, env0, pc0, if InKernel(pc0) then 1 else 0), Cpu(Started, env1, pc1, if InKernel(pc1) then 1 else 0)],
        [e0, e1], [false, false])
  }

  /** Two CPUs start two environments; then CPU 0 visits the kernel twice, to set the status of the
      environment that runs on CPU 1, and to yield. */
  function Rude(k: nat): Sys {
    if k == 0 then Pair(Yield, -1, SpinBoot, -1, Runnable, Runnable)
    else if k < 3 then Pair(if k == 1 then Switched else UserMode, 0, SpinBoot, -1, Running, Runnable)
    else if k == 3 then Pair(UserMode, 0, Yield, -1, Running, Runnable)
    else if k == 4 then Pair(UserMode, 0, Switched, 1, Running, Running)
    else if k < 9 then Pair(Visit(k - 5), 0, UserMode, 1, Running, Running)
    else if k < 11 then Pair(if k == 9 then After else Switched, 0, UserMode, 1, Running, Runnable)
    else if k < 15 then Pair(Visit(k - 11), 0, UserMode, 1, Running, Runnable)
    else if k == 15 then Pair(Yield, 0, UserMode, 1, Running, Runnable)
    else Pair(Switched, 1, UserMode, 1, Runnable, Running)
  }

  function Visit(j: nat): Pc {
    if j == 0 then UserMode else if j == 1 then Spin(true, false) else if j == 2 then Check else Dispatch
  }

  function RudeAct(k: nat): Action {
    if k == 0 || k == 15 then Choose(0) else if k == 1 || k == 10 then Unlock(0)
    else if k == 2 then Xchg(1) else if k == 3 then Choose(1) else if k == 4 then Unlock(1)
    else if k == 5 || k == 11 then Trap(0) else if k == 6 || k == 12 then Xchg(0) else if k == 7 || k == 13 then Zombie(0)
    else if k == 8 then Do(0, SetStatus(1, true)) else if k == 9 then Return(0) else Do(0, DoYield)
  }

  ghost predicate RudeLeads(k: nat) {
    Enabled(Rude(k), RudeAct(k)) && Next(Rude(k), RudeAct(k)) == Rude(k + 1) && (Guard(Rude(k), RudeAct(k)) <==> k != 8)
  }

  lemma RudeBoot(k: nat)
    requires k < 5
    ensures RudeLeads(k)
  {
    if k == 0 { PickIsFirst(Rude(0).envs, 0, 0); }
    if k == 3 { PickIsFirst(Rude(3).envs, 0, 1); }
  }

  lemma RudeEnter(k: nat)
    requires 5 <= k < 8
    ensures RudeLeads(k)
  {
  }

  lemma RudeReenter(k: nat)
    requires 11 <= k < 14
    ensures RudeLeads(k)
  {
  }

  lemma RudeSet(k: nat)
    requires 8 <= k < 11
    ensures RudeLeads(k)
  {
    assert k == 8 ==> Rude(8).cpus[1].env == 1 && Elsewhere(Rude(8), 0, 1);
  }

  lemma RudeLast(k: nat)
    requires k == 14 || k == 15
    ensures RudeLeads(k)
  {
    if k == 15 { PickIsFirst(Rude(15).envs, 0, 1); }
  }

  /** Step i of a sequence of states is enabled and taken. */
  ghost predicate TakenAt(states: seq<Sys>, run: seq<Action>, i: nat)
    requires i < |run| < |states|
  {
    Enabled(states[i], run[i]) && states[i + 1] == Next(states[i], run[i])
  }

  /** A whole run from the initial state: one sys_env_set_status outside the guard, everything else
      within it, and in the end two CPUs run the same environment. */
  lemma UnguardedStatus() returns (states: seq<Sys>, run: seq<Action>)
    ensures |run| == 16 && |states| == 17 && Init(states[0]) && forall i :: 0 <= i < 16 ==> TakenAt(states, run, i)
    ensures forall i :: 0 <= i < 16 && i != 8 ==> GuardedAt(states, run, i)
    ensures run[8] == Do(0, SetStatus(1, true)) && !GuardedAt(states, run, 8)
    ensures states[16] == Pair(Switched, 1, UserMode, 1, Runnable, Running)
  {
    states, run := seq(17, k requires k >= 0 => Rude(k)), seq(16, k requires k >= 0 => RudeAct(k));
    forall i | 0 <= i < 16 ensures TakenAt(states, run, i) && (GuardedAt(states, run, i) <==> i != 8) {
      if i < 5 { RudeBoot(i); }
      else if 8 <= i < 11 { RudeSet(i); }
      else if i >= 14 { RudeLast(i); }
      else if i < 8 { RudeEnter(i); }
      else { RudeReenter(i); }
    }
    assert TakenAt(states, run, 8);
  }
}
