/**
 Waiting for the CPU (kern/sched.c:11-49) on a machine with one CPU, over runs of the system of Smp.dfy:
 how long a RUNNABLE environment can wait while the CPU always has a current one, and a run in which
 it waits for ever because the CPU has none again and again.
 */
module OneCpu {
  import opened Environments
  import opened Sched
  import opened Smp

  // ----- Bounded waiting

  /** The current environment does not exit, nor set its own status, nor send to itself. */
  predicate Calm(s: Sys, a: Action)
    requires Enabled(s, a)
  {
    a.Do? && (a.op.SetStatus? || a.op.Destroy? || a.op.Send?) ==> a.op.t != s.cpus[a.c].env
  }

  /** A segment of a run on one CPU, from a state in which it has a current environment. */
  ghost predicate IsSegment(states: seq<Sys>, run: seq<Action>) {
    && |states| == |run| + 1 && Inv(states[0]) && |states[0].cpus| == 1 && Attended(states[0])
    && forall i :: 0 <= i < |run| ==> CalmAt(states, run, i)
  }

  ghost predicate CalmAt(states: seq<Sys>, run: seq<Action>, i: nat)
    requires i < |run| < |states|
  {
    Enabled(states[i], run[i]) && Calm(states[i], run[i]) && states[i + 1] == Next(states[i], run[i])
  }

  /** The CPU has a current environment, which is RUNNING or blocked, and is not about to give it up. */
  predicate Attended(s: Sys) {
    && |s.cpus| == 1 && 0 <= s.cpus[0].env < |s.envs|
    && !s.envs[s.cpus[0].env].Runnable? && !s.envs[s.cpus[0].env].Dying?
    && !s.cpus[0].pc.Halting? && !s.cpus[0].pc.Monitor?
  }

  /** On one CPU every step is safe. */
  lemma OneCpuInv(s: Sys, a: Action)
    requires Inv(s) && |s.cpus| == 1 && Enabled(s, a)
    ensures Inv(Next(s, a)) && |Next(s, a).cpus| == 1
  {
    StepSafe(s, a);
  }

  /** A decision with t RUNNABLE dispatches t or brings the scan closer to it. */
  lemma ChooseStep(s: Sys, t: nat)
    requires Inv(s) && Attended(s) && Enabled(s, Choose(0)) && t < |s.envs| && s.envs[t].Runnable?
    ensures var s' := Next(s, Choose(0));
            && Attended(s') && |s'.envs| == |s.envs|
            && (s'.cpus[0].env == t || Dist(s'.cpus[0].env, t, |s.envs|) < Dist(s.cpus[0].env, t, |s.envs|))
  {
    OneDecision(s.envs, s.cpus[0].env, t);
  }

  /** Any other calm step leaves the current environment in place. */
  lemma OtherStep(s: Sys, a: Action)
    requires Inv(s) && Attended(s) && Enabled(s, a) && Calm(s, a) && !a.Choose?
    ensures Attended(Next(s, a)) && |Next(s, a).envs| == |s.envs| && Next(s, a).cpus[0].env == s.cpus[0].env
  {
    assert CpuOk(s, 0);
  }

  /** The scheduling decisions in a run. */
  function Decisions(run: seq<Action>): nat {
    if run == [] then 0 else Decisions(run[..|run| - 1]) + if run[|run| - 1].Choose? then 1 else 0
  }

  /** t stays RUNNABLE until it is dispatched: nobody suspends or destroys it. */
  ghost predicate Waits(states: seq<Sys>, t: nat) {
    && |states| > 0 && t < |states[0].envs| && states[0].envs[t].Runnable?
    && forall i :: 0 <= i < |states| - 1 ==> WaitsOn(states, i, t)
  }

  predicate WaitsOn(states: seq<Sys>, i: nat, t: nat)
    requires i + 1 < |states|
  {
    t < |states[i].envs| && states[i].envs[t].Runnable? ==>
      t < |states[i + 1].envs| && (states[i + 1].envs[t].Runnable? || (|states[i + 1].cpus| == 1 && states[i + 1].cpus[0].env == t))
  }

  /** t has become current at some state up to i, after at most n decisions. */
  ghost predicate DispatchedBy(states: seq<Sys>, run: seq<Action>, i: nat, t: nat, n: nat)
    requires i < |states| == |run| + 1
  {
    exists k :: 0 < k <= i && DispatchedAt(states, run, k, t, n)
  }

  predicate DispatchedAt(states: seq<Sys>, run: seq<Action>, k: nat, t: nat, n: nat)
    requires k < |states| == |run| + 1
  {
    |states[k].cpus| == 1 && states[k].cpus[0].env == t && Decisions(run[..k]) <= n
  }

  /** t still waits at state i, and every decision so far has brought the scan closer. */
  ghost predicate Closing(states: seq<Sys>, run: seq<Action>, i: nat, t: nat, n: nat, d: nat)
    requires i < |states| == |run| + 1 && t < n
  {
    && Inv(states[i]) && Attended(states[i]) && |states[i].envs| == n && states[i].envs[t].Runnable?
    && Decisions(run[..i]) + Dist(states[i].cpus[0].env, t, n) <= d
  }

  lemma ClosingStep(states: seq<Sys>, run: seq<Action>, i: nat, t: nat, n: nat, d: nat)
    requires IsSegment(states, run) && Waits(states, t) && i < |run| && t < n && Closing(states, run, i, t, n, d)
    ensures DispatchedAt(states, run, i + 1, t, d) || Closing(states, run, i + 1, t, n, d)
  {
    var s, a := states[i], run[i];
    assert CalmAt(states, run, i) && WaitsOn(states, i, t) && CpuOk(s, 0);
    assert run[..i + 1][..i] == run[..i];
    OneCpuInv(s, a);
    if a.Choose? { ChooseStep(s, t); } else { OtherStep(s, a); }
  }

  lemma {:induction false} Closer(states: seq<Sys>, run: seq<Action>, i: nat, t: nat)
    requires IsSegment(states, run) && Waits(states, t) && i < |states|
    ensures var n, d := |states[0].envs|, Dist(states[0].cpus[0].env, t, |states[0].envs|);
            DispatchedBy(states, run, i, t, d) || Closing(states, run, i, t, n, d)
  {
    var n, d := |states[0].envs|, Dist(states[0].cpus[0].env, t, |states[0].envs|);
    if i == 0 {
      assert run[..0] == [];
    } else {
      Closer(states, run, i - 1, t);
      if DispatchedBy(states, run, i - 1, t, d) {
        var k :| 0 < k <= i - 1 && DispatchedAt(states, run, k, t, d);
      } else {
        ClosingStep(states, run, i - 1, t, n, d);
      }
    }
  }

  /** Round-robin: in any segment of a run on one CPU in which the current environment never exits or
      sets its own status, an environment that stays RUNNABLE is dispatched within as many scheduling
      decisions as its circular distance from the current slot, hence within NENV - 1. */
  lemma BoundedWaiting(states: seq<Sys>, run: seq<Action>, t: nat)
    requires IsSegment(states, run) && Waits(states, t)
    requires Decisions(run) >= Dist(states[0].cpus[0].env, t, |states[0].envs|)
    ensures DispatchedBy(states, run, |run|, t, Dist(states[0].cpus[0].env, t, |states[0].envs|))
  {
    Closer(states, run, |run|, t);
    assert run[..|run|] == run;
  }

  /** Any part of a run on one CPU that starts attended and is calm is such a segment. */
  lemma SegmentOfRun(states: seq<Sys>, run: seq<Action>, i: nat, j: nat)
    requires IsRun(states, run) && i <= j <= |run| && Attended(states[i])
    requires forall k :: i <= k < j ==> Enabled(states[k], run[k]) && Calm(states[k], run[k])
    ensures IsSegment(states[i..j + 1], run[i..j])
  {
    RunInv(states, run, i);
    var ss, rr := states[i..j + 1], run[i..j];
    forall k | 0 <= k < |rr| ensures CalmAt(ss, rr, k) {
      assert GuardedAt(states, run, i + k);
      assert ss[k] == states[i + k] && rr[k] == run[i + k] && ss[k + 1] == states[i + k + 1];
    }
  }

  /** With the discipline of the library nobody sends to itself, so calm only excludes exits and
      changes of the own status. */
  lemma NoSendToSelf(s: Sys, c: nat, t: nat)
    requires Inv(s) && RecvBlocked(s) && Enabled(s, Do(c, Send(t)))
    ensures t != s.cpus[c].env
  {
    assert CpuOk(s, c);
  }

  // ----- Waiting for ever

  /** Slot 0 forks a child into slot 1 and yields, the child exits, and the scan restarts at slot 0
      while slot 2 waits: four visits to the kernel of six steps each. In visit r the current
      environment is slot 0, or the child in the last one. */
  function At(r: nat, j: nat): Sys {
    if j == 0 then
      if r == 0 then Trio(-1, Yield, Runnable, Free)
      else if r == 3 then Trio(0, Yield, Running, Runnable)
      else Trio(0, After, Running, Child(r))
    else Trio(if r < 3 then 0 else 1, Place(j), if r < 3 then Running else Runnable, Child(r))
  }

  /** The status of slot 1 during visit r. */
  function Child(r: nat): Status {
    if r == 0 then Free else if r == 1 then NotRunnable else if r == 2 then Runnable else Running
  }

  function Trio(env: int, pc: Pc, e0: Status, e1: Status): Sys {
    Sys(InKernel(pc), [Cpu(Started, env, pc, if InKernel(pc) then 1 else 0)], [e0, e1, Runnable], [false, false, false])
  }

  function Place(j: nat): Pc {
    if j == 1 then Switched else if j == 2 then UserMode else if j == 3 then Spin(true, false) else if j == 4 then Check else Dispatch
  }

  function Act(r: nat, j: nat): Action {
    if j == 0 then (if r == 0 || r == 3 then Choose(0) else Return(0))
    else if j == 1 then Unlock(0) else if j == 2 then Trap(0) else if j == 3 then Xchg(0) else if j == 4 then Zombie(0)
    else Do(0, if r == 0 then Exofork(1) else if r == 1 then SetStatus(1, true) else if r == 2 then DoYield else Destroy(1))
  }

  /** The step is enabled, within the guard and the discipline of the library, and leads on. */
  ghost predicate Leads(r: nat, j: nat) {
    && Enabled(At(r, j), Act(r, j)) && Guard(At(r, j), Act(r, j)) && Polite(At(r, j), Act(r, j))
    && Next(At(r, j), Act(r, j)) == if j < 5 then At(r, j + 1) else At(if r == 3 then 0 else r + 1, 0)
  }

  lemma LeadsAround(r: nat, j: nat)
    requires r < 4 && (j == 1 || j == 2)
    ensures Leads(r, j)
  {
  }

  lemma LeadsInside(r: nat, j: nat)
    requires r < 4 && (j == 3 || j == 4)
    ensures Leads(r, j)
  {
  }

  lemma LeadsFork(r: nat)
    requires r < 2
    ensures Leads(r, 5)
  {
  }

  lemma LeadsAway(r: nat)
    requires r == 2 || r == 3
    ensures Leads(r, 5)
  {
  }

  lemma LeadsBack(r: nat)
    requires r == 1 || r == 2
    ensures Leads(r, 0)
  {
  }

  lemma LeadsChoosing(r: nat)
    requires r == 0 || r == 3
    ensures Leads(r, 0)
  {
    if r == 0 { PickIsFirst(At(0, 0).envs, 0, 0); } else { PickIsFirst(At(3, 0).envs, 0, 1); }
  }

  lemma CycleLeads(r: nat, j: nat)
    requires r < 4 && j < 6
    ensures Leads(r, j)
  {
    if j == 0 {
      if r == 0 || r == 3 { LeadsChoosing(r); } else { LeadsBack(r); }
    } else if j == 5 {
      if r < 2 { LeadsFork(r); } else { LeadsAway(r); }
    } else if j < 3 {
      LeadsAround(r, j);
    } else {
      LeadsInside(r, j);
    }
  }

  /** Bounded waiting is false for runs in which the CPU is left without a current environment: for
      every m there is a run from the initial state, within the discipline of the library, with m
      decisions and more, in which slot 2 is RUNNABLE all the time and never current. */
  lemma Starves(m: nat) returns (states: seq<Sys>, run: seq<Action>)
    ensures IsRun(states, run) && IsPoliteRun(states, run) && |run| == 24 * m
    ensures forall j :: 0 <= j < m ==> run[24 * j].Choose?
    ensures forall i :: 0 <= i < |states| ==> Waiting(states[i])
  {
    states, run := seq(24 * m + 1, i requires i >= 0 => Turn(i)), seq(24 * m, i requires i >= 0 => Act(i / 6 % 4, i % 6));
    AtStart();
    forall i | 0 <= i < |run| ensures GuardedAt(states, run, i) && PoliteAt(states, run, i) { CycleStep(i); }
    forall i | 0 <= i < |states| ensures Waiting(states[i]) { AtWaits(i / 6 % 4, i % 6); }
    forall j | 0 <= j < m ensures run[24 * j] == Choose(0) { Restarts(j); }
  }

  function Turn(i: nat): Sys { At(i / 6 % 4, i % 6) }

  lemma Restarts(j: nat)
    ensures 24 * j / 6 % 4 == 0 && 24 * j % 6 == 0
  {
    assert 24 * j / 6 == 4 * j;
  }

  /** Slot 2 is RUNNABLE and not current. */
  predicate Waiting(s: Sys) { |s.cpus| == 1 && |s.envs| == 3 && s.envs[2].Runnable? && s.cpus[0].env != 2 }

  lemma AtStart()
    ensures Init(Turn(0)) && RecvBlocked(Turn(0))
  {
  }

  lemma AtWaits(r: nat, j: nat)
    requires r < 4 && j < 6
    ensures Waiting(At(r, j))
  {
  }

  lemma NextTurn(i: nat)
    ensures if i % 6 < 5 then (i + 1) / 6 == i / 6 && (i + 1) % 6 == i % 6 + 1 else (i + 1) / 6 == i / 6 + 1 && (i + 1) % 6 == 0
    ensures (i / 6 + 1) % 4 == if i / 6 % 4 == 3 then 0 else i / 6 % 4 + 1
  {
  }

  lemma CycleStep(i: nat)
    ensures Leads(i / 6 % 4, i % 6) && Turn(i + 1) == Next(Turn(i), Act(i / 6 % 4, i % 6))
  {
    CycleLeads(i / 6 % 4, i % 6);
    NextTurn(i);
  }

  /** A decision without a current environment dispatches t exactly when no slot below t is RUNNABLE. */
  lemma RestartDecision(s: Sys, c: nat, t: nat)
    requires Enabled(s, Choose(c)) && s.cpus[c].env == -1 && t < |s.envs| && s.envs[t].Runnable?
    ensures Next(s, Choose(c)).cpus[c].env == t <==> forall x :: 0 <= x < t ==> !s.envs[x].Runnable?
  {
    PickAtFirst(s.envs, 0, 0);
    var p := Pick(s.envs, 0);
    assert p >= 0 ==> Dist(0, p, |s.envs|) == p;
    assert forall x :: 0 <= x < |s.envs| ==> Dist(0, x, |s.envs|) == x;
  }
}
