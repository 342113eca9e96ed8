/**
 End-of-file detection on a pipe by comparing reference counts (lib/pipe.c, lib/fd.c).

 A slot is a file descriptor number in some process.  `rd` and `wr` are the slots whose Fd page is the
 read or the write end, `data` those whose data page is the pipe.  dup maps data before Fd, close
 unmaps Fd before data, one system call at a time, in any number of processes on any number of CPUs.
 */
module PipeRefs {

  datatype Slot = Slot(p: nat, i: nat)

  /** What a process is in the middle of. */
  datatype Work =
    | Idle
    | Closing(i: nat)               // Fd unmapped, data still mapped
    | Duping(i: nat, j: nat)        // data of i mapped at j, Fd not yet
    | Checking(i: nat, c: Check)    // in _pipeisclosed for descriptor i

  /** The locals of _pipeisclosed. */
  datatype Check =
    | Begin
    | HaveRuns(n: nat)                      // n = env_runs
    | HaveFd(n: nat, fd: nat)               // pageref(fd)
    | HaveBoth(n: nat, fd: nat, data: nat)  // pageref(p)
    | Answer(closed: bool)

  /** `running` are the processes on the `ncpu` CPUs; `runs` is env_runs. */
  datatype Sys = Sys(rd: set<Slot>, wr: set<Slot>, data: set<Slot>, ncpu: nat, running: set<nat>,
                     runs: map<nat, nat>, work: map<nat, Work>)

  /** What process p does, or what the scheduler does with its CPU. */
  datatype Action =
    | CloseFd(p: nat, i: nat)
    | CloseData(p: nat)
    | DupData(p: nat, i: nat, j: nat)
    | DupFd(p: nat)
    | Fork(p: nat, q: nat)
    | Exit(p: nat, q: nat)      // p ends q, possibly itself
    | StartCheck(p: nat, i: nat)
    | CheckStep(p: nat)
    | Leave(p: nat)             // take the answer
    | Switch(p: nat, q: nat)    // the CPU of p runs q, possibly p again
    | Start(q: nat)             // an idle CPU runs q

  predicate Known(s: Sys, p: nat) { p in s.runs && p in s.work }

  /** The slots with the same end of the pipe as descriptor i of p, and those with the other end. */
  function Own(s: Sys, p: nat, i: nat): set<Slot> { if Slot(p, i) in s.rd then s.rd else s.wr }
  function Other(s: Sys, p: nat, i: nat): set<Slot> { if Slot(p, i) in s.rd then s.wr else s.rd }

  function Child(xs: set<Slot>, p: nat, q: nat): set<Slot> {
    set x | x in xs && x.p == p :: Slot(q, x.i)
  }

  function Without(xs: set<Slot>, q: nat): set<Slot> {
    set x | x in xs && x.p != q
  }

  predicate Enabled(s: Sys, a: Action) {
    if a.Start? then Known(s, a.q) && a.q !in s.running && |s.running| < s.ncpu
    else
      && a.p in s.running && Known(s, a.p)
      && var me := s.work[a.p];
         match a
         case CloseFd(p, i) => me.Idle? && Slot(p, i) in s.rd + s.wr
         case CloseData(_) => me.Closing?
         case DupData(p, i, j) => me.Idle? && Slot(p, i) in s.rd + s.wr && Slot(p, j) !in s.data
         case DupFd(_) => me.Duping?
         case Fork(_, q) => me.Idle? && !Known(s, q)
         case Exit(_, q) => me.Idle? && Known(s, q)
         case StartCheck(p, i) => me.Idle? && Slot(p, i) in s.rd + s.wr
         case CheckStep(_) => me.Checking? && !me.c.Answer?
         case Leave(_) => me.Checking? && me.c.Answer?
         case Switch(p, q) => Known(s, q) && (q == p || q !in s.running)
  }

  function Next(s: Sys, a: Action): Sys
    requires Enabled(s, a)
  {
    if a.Start? then s.(running := s.running + {a.q}, runs := s.runs[a.q := s.runs[a.q] + 1])
    else
      var me := s.work[a.p];
      match a
      case CloseFd(p, i) =>
        s.(rd := s.rd - {Slot(p, i)}, wr := s.wr - {Slot(p, i)}, work := s.work[p := Closing(i)])
      case CloseData(p) =>
        s.(data := s.data - {Slot(p, me.i)}, work := s.work[p := Idle])
      case DupData(p, i, j) =>
        s.(data := s.data + {Slot(p, j)}, work := s.work[p := Duping(i, j)])
      case DupFd(p) =>
        var s1 := s.(work := s.work[p := Idle]);
        if Slot(p, me.i) in s.rd then s1.(rd := s.rd + {Slot(p, me.j)})
        else if Slot(p, me.i) in s.wr then s1.(wr := s.wr + {Slot(p, me.j)})
        else s1
      case Fork(p, q) =>
        s.(rd := s.rd + Child(s.rd, p, q), wr := s.wr + Child(s.wr, p, q), data := s.data + Child(s.data, p, q),
           runs := s.runs[q := 0], work := s.work[q := Idle])
      case Exit(_, q) =>
        s.(rd := Without(s.rd, q), wr := Without(s.wr, q), data := Without(s.data, q), running := s.running - {q},
           runs := s.runs - {q}, work := s.work - {q})
      case StartCheck(p, i) =>
        s.(work := s.work[p := Checking(i, Begin)])
      case CheckStep(p) =>
        s.(work := s.work[p := Checking(me.i, Checked(s, p, me.i, me.c))])
      case Leave(p) =>
        s.(work := s.work[p := Idle])
      case Switch(p, q) =>
        s.(running := s.running - {p} + {q}, runs := s.runs[q := s.runs[q] + 1])
  }

  /** The next local state of _pipeisclosed for descriptor i of p. */
  function Checked(s: Sys, p: nat, i: nat, c: Check): Check
    requires Known(s, p)
  {
    match c
    case Begin => HaveRuns(s.runs[p])
    case HaveRuns(n) => HaveFd(n, |Own(s, p, i)|)
    case HaveFd(n, fd) => HaveBoth(n, fd, |s.data|)
    case HaveBoth(n, fd, data) => if n == s.runs[p] then Answer(fd == data) else Begin
    case Answer(b) => Answer(b)
  }

  // ----- The invariant

  /** The slot whose data page a process holds without the Fd page. */
  predicate Pending(s: Sys, x: Slot) {
    Known(s, x.p) && match s.work[x.p]
                     case Closing(i) => i == x.i
                     case Duping(i, j) => j == x.i
                     case _ => false
  }

  /** What a process remembers while it works. */
  predicate WorkOk(s: Sys, p: nat)
    requires Known(s, p)
  {
    match s.work[p]
    case Idle => true
    case Closing(i) => Slot(p, i) in s.data && Slot(p, i) !in s.rd + s.wr
    case Duping(i, j) => Slot(p, i) in s.rd + s.wr && Slot(p, j) in s.data && Slot(p, j) !in s.rd + s.wr
    case Checking(i, c) => Slot(p, i) in s.rd + s.wr
  }

  ghost predicate Inv(s: Sys) {
    && s.runs.Keys == s.work.Keys && |s.running| <= s.ncpu
    && (forall p :: p in s.running ==> Known(s, p))
    && s.rd !! s.wr
    && (forall x :: x in s.rd + s.wr ==> x in s.data)
    && (forall x :: x in s.data ==> Known(s, x.p))
    && (forall x :: x in s.data ==> x in s.rd + s.wr || Pending(s, x))
    && (forall p :: Known(s, p) ==> WorkOk(s, p))
  }

  /** The slots that hold the pipe page without an end: half-way through dup or close. */
  function Loose(s: Sys): set<Slot> { s.data - (s.rd + s.wr) }

  /** pp_ref of the pipe page is that of both ends together plus the loose slots. */
  lemma CountsAdd(s: Sys)
    requires Inv(s)
    ensures |s.data| == |s.rd| + |s.wr| + |Loose(s)|
  {
    assert |s.rd + s.wr| == |s.rd| + |s.wr|;
    assert s.data == (s.rd + s.wr) + Loose(s);
  }

  /** A check moves no mapping. */
  lemma QuietStep(s: Sys, a: Action)
    requires Inv(s) && Enabled(s, a) && (a.StartCheck? || a.CheckStep? || a.Leave?)
    ensures Inv(Next(s, a))
  {
    var s' := Next(s, a);
    forall p | Known(s', p) ensures WorkOk(s', p) { assert WorkOk(s, p); }
    forall x | x in s'.data ensures x in s'.rd + s'.wr || Pending(s', x) { assert x in s.rd + s.wr || Pending(s, x); }
  }

  lemma Replace(xs: set<nat>, p: nat, q: nat)
    requires p in xs && (q == p || q !in xs)
    ensures |xs - {p} + {q}| == |xs|
  {
    assert |xs - {p}| == |xs| - 1;
  }

  lemma Rescheduled(s: Sys, running: set<nat>, runs: map<nat, nat>)
    requires Inv(s) && runs.Keys == s.runs.Keys && |running| <= s.ncpu && (forall p :: p in running ==> p in runs)
    ensures Inv(s.(running := running, runs := runs))
  {
    var s' := s.(running := running, runs := runs);
    forall p | Known(s', p) ensures WorkOk(s', p) { assert WorkOk(s, p); }
    forall x | x in s'.data ensures x in s'.rd + s'.wr || Pending(s', x) { assert x in s.rd + s.wr || Pending(s, x); }
  }

  /** Neither does the scheduler. */
  lemma CpuStep(s: Sys, a: Action)
    requires Inv(s) && Enabled(s, a) && (a.Switch? || a.Start?)
    ensures Inv(Next(s, a))
  {
    if a.Switch? { Replace(s.running, a.p, a.q); }
    Rescheduled(s, Next(s, a).running, Next(s, a).runs);
  }

  /** close and dup move one mapping of their own process. */
  lemma OwnStep(s: Sys, a: Action)
    requires Inv(s) && Enabled(s, a) && (a.CloseFd? || a.CloseData? || a.DupData? || a.DupFd?)
    ensures Inv(Next(s, a))
  {
    var s' := Next(s, a);
    assert WorkOk(s, a.p);
    forall p | Known(s', p) ensures WorkOk(s', p) { assert WorkOk(s, p); }
    forall x | x in s'.data ensures x in s'.rd + s'.wr || Pending(s', x) {
      assert x in s.data ==> x in s.rd + s.wr || Pending(s, x);
    }
  }

  lemma ForkStep(s: Sys, p: nat, q: nat)
    requires Inv(s) && Enabled(s, Fork(p, q))
    ensures Inv(Next(s, Fork(p, q)))
  {
    var s' := Next(s, Fork(p, q));
    forall z | Known(s', z) ensures WorkOk(s', z) { assert z != q ==> WorkOk(s, z); }
    forall x | x in s'.data ensures x in s'.rd + s'.wr || Pending(s', x) {
      if x.p == q { assert Slot(p, x.i) in s.data; assert !Pending(s, Slot(p, x.i)); }
      else { assert x in s.rd + s.wr || Pending(s, x); }
    }
  }

  lemma ExitStep(s: Sys, p: nat, q: nat)
    requires Inv(s) && Enabled(s, Exit(p, q))
    ensures Inv(Next(s, Exit(p, q)))
  {
    var s' := Next(s, Exit(p, q));
    assert |s'.running| <= |s.running| by { if q in s.running { assert |s.running - {q}| == |s.running| - 1; } }
    forall z | Known(s', z) ensures WorkOk(s', z) { assert WorkOk(s, z); }
    forall x | x in s'.data ensures x in s'.rd + s'.wr || Pending(s', x) { assert x in s.rd + s.wr || Pending(s, x); }
  }

  lemma StepInv(s: Sys, a: Action)
    requires Inv(s) && Enabled(s, a)
    ensures Inv(Next(s, a))
  {
    match a
    case Fork(p, q) => ForkStep(s, p, q);
    case Exit(p, q) => ExitStep(s, p, q);
    case CloseFd(_, _) => OwnStep(s, a);
    case CloseData(_) => OwnStep(s, a);
    case DupData(_, _, _) => OwnStep(s, a);
    case DupFd(_) => OwnStep(s, a);
    case Switch(_, _) => CpuStep(s, a);
    case Start(_) => CpuStep(s, a);
    case _ => QuietStep(s, a);
  }

  // ----- Runs

  /** Just after pipe(): one process holds both ends. */
  ghost predicate Init(s: Sys) {
    && s.runs.Keys == s.work.Keys && (forall p :: p in s.work ==> s.work[p].Idle?) && s.ncpu >= 1
    && exists p, i, j :: Holds(s, p, i, j)
  }

  predicate Holds(s: Sys, p: nat, i: nat, j: nat) {
    Known(s, p) && s.running == {p} && i != j && s.rd == {Slot(p, i)} && s.wr == {Slot(p, j)} && s.data == s.rd + s.wr
  }

  ghost predicate TakenAt(states: seq<Sys>, run: seq<Action>, k: nat)
    requires k < |run| < |states|
  {
    Enabled(states[k], run[k]) && states[k + 1] == Next(states[k], run[k])
  }

  ghost predicate IsRun(states: seq<Sys>, run: seq<Action>) {
    && |states| == |run| + 1 && Init(states[0])
    && forall k :: 0 <= k < |run| ==> TakenAt(states, run, k)
  }

  lemma {:induction false} RunInv(states: seq<Sys>, run: seq<Action>, k: nat)
    requires IsRun(states, run) && k < |states|
    ensures Inv(states[k])
  {
    if k == 0 {
      var p, i, j :| Holds(states[0], p, i, j);
    } else {
      RunInv(states, run, k - 1);
      assert TakenAt(states, run, k - 1);
      StepInv(states[k - 1], run[k - 1]);
    }
  }

  // ----- When an answer of _pipeisclosed is right

  predicate At(s: Sys, p: nat, d: nat, c: Check) { Known(s, p) && s.work[p] == Checking(d, c) }

  /** Process p is at local state c of one check of descriptor d from state i to state j. */
  ghost predicate Stays(states: seq<Sys>, i: nat, j: nat, p: nat, d: nat, c: Check)
    requires i <= j < |states|
  {
    forall k :: i <= k <= j ==> At(states[k], p, d, c)
  }

  /** One whole round of the loop: the count of the own end is read at step i, that of the pipe page
      at step j, and env_runs is found unchanged at step k. */
  ghost predicate Round(states: seq<Sys>, run: seq<Action>, i: nat, j: nat, k: nat, p: nat, d: nat, n: nat)
    requires i < j < k < |run| < |states|
  {
    && run[i] == run[j] == run[k] == CheckStep(p) && At(states[i], p, d, HaveRuns(n))
    && Stays(states, i + 1, j, p, d, HaveFd(n, |Own(states[i], p, d)|))
    && Stays(states, j + 1, k, p, d, HaveBoth(n, |Own(states[i], p, d)|, |states[j].data|))
    && n == states[k].runs[p]
  }

  /** How far the count of the own end has fallen between the two readings. */
  function Dropped(states: seq<Sys>, i: nat, j: nat, p: nat, d: nat): int
    requires i < j < |states|
  {
    |Own(states[i], p, d)| - |Own(states[j], p, d)|
  }

  /** Once the other end has no reference it never gets one again, and a checking process keeps its own. */
  lemma GoneStays(s: Sys, a: Action, p: nat, d: nat, c: Check, c': Check)
    requires Inv(s) && Enabled(s, a) && At(s, p, d, c) && At(Next(s, a), p, d, c')
    ensures Slot(p, d) in s.rd <==> Slot(p, d) in Next(s, a).rd
    ensures Other(s, p, d) == {} ==> Other(Next(s, a), p, d) == {}
  {
    assert WorkOk(s, p);
    if !a.Start? { assert WorkOk(s, a.p); }
  }

  lemma {:induction false} GoneForGood(states: seq<Sys>, run: seq<Action>, j: nat, k: nat, p: nat, d: nat, c: Check)
    requires IsRun(states, run) && j <= k <= |run| && Stays(states, j, k, p, d, c)
    ensures Slot(p, d) in states[j].rd <==> Slot(p, d) in states[k].rd
    ensures Other(states[j], p, d) == {} ==> Other(states[k], p, d) == {}
    decreases k - j
  {
    if j < k {
      RunInv(states, run, j);
      assert TakenAt(states, run, j) && At(states[j], p, d, c) && At(states[j + 1], p, d, c);
      GoneStays(states[j], run[j], p, d, c, c);
      GoneForGood(states, run, j + 1, k, p, d, c);
    }
  }

  /** Every round, on any number of CPUs: the answer is true exactly when the count of the own end has
      fallen, between the two readings, by the references to the other end and the loose slots
      together; so a true answer was right when the pipe page was read exactly when it has fallen by
      the loose slots alone. */
  lemma AnswerExact(states: seq<Sys>, run: seq<Action>, i: nat, j: nat, k: nat, p: nat, d: nat, n: nat)
    requires IsRun(states, run) && i < j < k < |run| && Round(states, run, i, j, k, p, d, n)
    ensures At(states[k + 1], p, d, Answer(true)) || At(states[k + 1], p, d, Answer(false))
    ensures At(states[k + 1], p, d, Answer(true)) <==>
            Dropped(states, i, j, p, d) == |Other(states[j], p, d)| + |Loose(states[j])|
    ensures At(states[k + 1], p, d, Answer(true)) ==>
              (Other(states[j], p, d) == {} <==> Dropped(states, i, j, p, d) == |Loose(states[j])|)
  {
    RunInv(states, run, j);
    CountsFor(states[j], p, d);
    assert TakenAt(states, run, k) && At(states[k], p, d, HaveBoth(n, |Own(states[i], p, d)|, |states[j].data|));
    AnswerOf(states[k], p, d, n, |Own(states[i], p, d)|, |states[j].data|);
  }

  lemma CountsFor(s: Sys, p: nat, d: nat)
    requires Inv(s)
    ensures |s.data| == |Own(s, p, d)| + |Other(s, p, d)| + |Loose(s)|
    ensures Other(s, p, d) == {} <==> |Other(s, p, d)| == 0
  {
    CountsAdd(s);
  }

  lemma AnswerOf(s: Sys, p: nat, d: nat, n: nat, f: nat, m: nat)
    requires Enabled(s, CheckStep(p)) && At(s, p, d, HaveBoth(n, f, m)) && n == s.runs[p]
    ensures At(Next(s, CheckStep(p)), p, d, Answer(f == m))
  {
  }

  /** A true answer is right, then and for good, if no reference to the own end has been dropped
      between the two readings. */
  lemma AnswerRight(states: seq<Sys>, run: seq<Action>, i: nat, j: nat, k: nat, p: nat, d: nat, n: nat)
    requires IsRun(states, run) && i < j < k < |run| && Round(states, run, i, j, k, p, d, n)
    requires At(states[k + 1], p, d, Answer(true)) && Dropped(states, i, j, p, d) <= 0
    ensures Other(states[k], p, d) == {}
  {
    AnswerExact(states, run, i, j, k, p, d, n);
    var f, m := |Own(states[i], p, d)|, |states[j].data|;
    RunInv(states, run, j);
    assert TakenAt(states, run, j) && At(states[j], p, d, HaveFd(n, f)) && At(states[j + 1], p, d, HaveBoth(n, f, m));
    GoneStays(states[j], run[j], p, d, HaveFd(n, f), HaveBoth(n, f, m));
    GoneForGood(states, run, j + 1, k, p, d, HaveBoth(n, f, m));
  }

  /** In a state in which nobody is half-way through dup or close the counts are equal exactly if the
      other end has no reference. */
  lemma QuietAnswerExact(s: Sys, p: nat, d: nat)
    requires Inv(s) && Slot(p, d) in s.rd + s.wr
    requires forall q :: Known(s, q) ==> s.work[q].Idle? || s.work[q].Checking?
    ensures |Own(s, p, d)| == |s.data| <==> Other(s, p, d) == {}
  {
    CountsAdd(s);
    forall x | x in s.data ensures x in s.rd + s.wr { assert !Pending(s, x); }
    assert Loose(s) == {};
  }

  // ----- One CPU

  /** On one CPU, the counts a process has read are current as long as it has kept the CPU, that is, as
      long as env_runs has not changed. */
  predicate Fresh(s: Sys, p: nat)
    requires Known(s, p)
  {
    s.work[p].Checking? ==>
      var d, now := s.work[p].i, p in s.running;
      match s.work[p].c
      case HaveRuns(n) => n <= s.runs[p]
      case HaveFd(n, fd) => n <= s.runs[p] && (now && n == s.runs[p] ==> fd == |Own(s, p, d)|)
      case HaveBoth(n, fd, data) => n <= s.runs[p] && (now && n == s.runs[p] ==> fd == |Own(s, p, d)| && data == |s.data|)
      case _ => true
  }

  ghost predicate AllFresh(s: Sys) { s.ncpu == 1 && forall p :: Known(s, p) ==> Fresh(s, p) }

  lemma Alone(s: Sys, p: nat)
    requires Inv(s) && s.ncpu == 1 && p in s.running
    ensures s.running == {p}
  {
    assert |s.running - {p}| == |s.running| - 1 == 0;
  }

  lemma StepFresh(s: Sys, a: Action)
    requires Inv(s) && AllFresh(s) && Enabled(s, a)
    ensures AllFresh(Next(s, a))
  {
    var s' := Next(s, a);
    forall p | Known(s', p) ensures Fresh(s', p) {
      if Known(s, p) {
        assert Fresh(s, p) && WorkOk(s, p);
        if p in s.running { Alone(s, p); }
        if !a.Start? { Alone(s, a.p); }
      }
    }
  }

  lemma {:induction false} RunFresh(states: seq<Sys>, run: seq<Action>, k: nat)
    requires IsRun(states, run) && k < |states| && states[0].ncpu == 1
    ensures Inv(states[k]) && AllFresh(states[k])
  {
    RunInv(states, run, k);
    if k > 0 {
      RunFresh(states, run, k - 1);
      assert TakenAt(states, run, k - 1);
      StepFresh(states[k - 1], run[k - 1]);
    }
  }

  /** On one CPU, whenever _pipeisclosed answers, it answers true exactly when the other end has no
      reference and nobody is half-way through dup or close. */
  lemma AnswerSound(states: seq<Sys>, run: seq<Action>, k: nat, p: nat, d: nat, b: bool)
    requires IsRun(states, run) && k < |run| && states[0].ncpu == 1 && run[k] == CheckStep(p)
    requires At(states[k + 1], p, d, Answer(b))
    ensures b <==> Other(states[k], p, d) == {} && Loose(states[k]) == {}
  {
    RunFresh(states, run, k);
    assert TakenAt(states, run, k) && Fresh(states[k], p) && WorkOk(states[k], p);
    CountsAdd(states[k]);
  }

  // ----- An undisturbed check answers

  function Progress(c: Check): nat {
    match c
    case Begin => 0
    case HaveRuns(_) => 1
    case HaveFd(_, _) => 2
    case HaveBoth(_, _, _) => 3
    case Answer(_) => 4
  }

  function Checks(run: seq<Action>, p: nat): nat {
    if run == [] then 0 else Checks(run[..|run| - 1], p) + if run[|run| - 1] == CheckStep(p) then 1 else 0
  }

  /** Process p has taken m steps of one check, with env_runs at n all the time. */
  predicate Underway(s: Sys, p: nat, d: nat, n: nat, m: nat) {
    && Known(s, p) && s.runs[p] == n && s.work[p].Checking? && s.work[p].i == d && Progress(s.work[p].c) == m
    && match s.work[p].c
       case HaveRuns(x) => x == n
       case HaveFd(x, _) => x == n
       case HaveBoth(x, _, _) => x == n
       case _ => true
  }

  lemma UnderwayStep(s: Sys, a: Action, p: nat, d: nat, n: nat, m: nat)
    requires Enabled(s, a) && Underway(s, p, d, n, m) && Known(Next(s, a), p) && Next(s, a).runs[p] == n && a != Leave(p)
    ensures Underway(Next(s, a), p, d, n, if a == CheckStep(p) then m + 1 else m)
  {
  }

  /** Whatever the other processes do meanwhile, a check answers after four steps of its own if env_runs
      does not change. */
  lemma {:induction false} CheckAnswers(states: seq<Sys>, run: seq<Action>, i: nat, j: nat, p: nat, d: nat)
    requires IsRun(states, run) && i <= j < |states| && At(states[i], p, d, Begin)
    requires forall k :: i <= k <= j ==> Known(states[k], p) && states[k].runs[p] == states[i].runs[p]
    requires forall k :: i <= k < j ==> run[k] != Leave(p)
    ensures Underway(states[j], p, d, states[i].runs[p], Checks(run[i..j], p))
    ensures Checks(run[i..j], p) == 4 ==> At(states[j], p, d, Answer(true)) || At(states[j], p, d, Answer(false))
    decreases j - i
  {
    if i < j {
      CheckAnswers(states, run, i, j - 1, p, d);
      assert TakenAt(states, run, j - 1);
      UnderwayStep(states[j - 1], run[j - 1], p, d, states[i].runs[p], Checks(run[i..j - 1], p));
      assert run[i..j][..j - 1 - i] == run[i..j - 1];
    }
  }

  // ----- Two CPUs

  /** A reader checks while its child, on the other CPU, closes its copy of the read end. */
  function Misled(k: nat): Sys {
    var r0, w0, r1, w1 := Slot(0, 0), Slot(0, 1), Slot(1, 0), Slot(1, 1);
    if k == 0 then Sys({r0}, {w0}, {r0, w0}, 2, {0}, map[0 := 0], map[0 := Idle])
    else if k < 4 then
      Sys({r0, r1}, if k == 1 then {w0, w1} else {w1}, if k < 3 then {r0, w0, r1, w1} else {r0, r1, w1}, 2, {0},
          map[0 := 0, 1 := 0], map[0 := if k == 2 then Closing(1) else Idle, 1 := Idle])
    else
      Sys(if k < 8 then {r0, r1} else {r0}, {w1}, if k < 9 then {r0, r1, w1} else {r0, w1}, 2, {0, 1}, map[0 := 0, 1 := 1],
          map[0 := Reading(k), 1 := if k == 8 then Closing(0) else Idle])
  }

  function Reading(k: nat): Work {
    if k == 4 then Idle
    else Checking(0, if k == 5 then Begin else if k == 6 then HaveRuns(0) else if k < 10 then HaveFd(0, 2)
                     else if k == 10 then HaveBoth(0, 2, 2) else Answer(true))
  }

  function MisledAct(k: nat): Action {
    if k == 0 then Fork(0, 1) else if k == 1 then CloseFd(0, 1) else if k == 2 then CloseData(0) else if k == 3 then Start(1)
    else if k == 4 then StartCheck(0, 0) else if k == 7 then CloseFd(1, 0) else if k == 8 then CloseData(1) else CheckStep(0)
  }

  ghost predicate Leads(k: nat) {
    Enabled(Misled(k), MisledAct(k)) && Next(Misled(k), MisledAct(k)) == Misled(k + 1)
  }

  lemma LeadsFork()
    ensures Leads(0)
  {
    var s, s' := Next(Misled(0), MisledAct(0)), Misled(1);
    assert s.rd == s'.rd && s.wr == s'.wr && s.data == s'.data && s.runs == s'.runs && s.work == s'.work;
  }

  lemma LeadsOpen(k: nat)
    requires k == 1 || k == 2
    ensures Leads(k)
  {
    var s, s' := Next(Misled(k), MisledAct(k)), Misled(k + 1);
    assert s.rd == s'.rd && s.wr == s'.wr && s.data == s'.data && s.work == s'.work;
  }

  lemma LeadsStart()
    ensures Leads(3)
  {
    assert |{0}| == 1 < 2 && {0} + {1} == {0, 1};
  }

  lemma LeadsBegin()
    ensures Leads(4)
  {
  }

  lemma LeadsCheck(k: nat)
    requires k == 5 || k == 6 || k == 9 || k == 10
    ensures Leads(k)
  {
    assert |{Slot(0, 0), Slot(1, 0)}| == 2 && |{Slot(0, 0), Slot(1, 1)}| == 2;
  }

  lemma LeadsClose(k: nat)
    requires k == 7 || k == 8
    ensures Leads(k)
  {
    var s, s' := Next(Misled(k), MisledAct(k)), Misled(k + 1);
    assert s.rd == s'.rd && s.wr == s'.wr && s.data == s'.data;
  }

  lemma AllLead(k: nat)
    requires k < 11
    ensures Leads(k)
  {
    if k == 0 { LeadsFork(); }
    else if k < 3 { LeadsOpen(k); }
    else if k == 3 { LeadsStart(); }
    else if k == 4 { LeadsBegin(); }
    else if k == 7 || k == 8 { LeadsClose(k); }
    else { LeadsCheck(k); }
  }

  /** With a second CPU the re-check of env_runs does not help: a whole run, from an open pipe, in which
      a reader is told that the writers are gone while there is one. */
  lemma SecondCpuMisleads() returns (states: seq<Sys>, run: seq<Action>)
    ensures IsRun(states, run) && |run| == 11 && Round(states, run, 6, 9, 10, 0, 0, 0)
    ensures At(states[11], 0, 0, Answer(true)) && Other(states[11], 0, 0) == {Slot(1, 1)}
    ensures Dropped(states, 6, 9, 0, 0) == 1
  {
    states, run := seq(12, k requires k >= 0 => Misled(k)), seq(11, k requires k >= 0 => MisledAct(k));
    assert Holds(states[0], 0, 0, 1);
    forall k | 0 <= k < 11 ensures TakenAt(states, run, k) { AllLead(k); }
    var r0, r1, w1 := Slot(0, 0), Slot(1, 0), Slot(1, 1);
    assert |{r0, r1}| == 2 && |{r0, w1}| == 2 && |{r0}| == 1;
  }
}
