/**
 The concurrent prime sieve (user/primes.c) over IPC rendezvous (lib/ipc.c): a chain of processes,
 each of which keeps the first number it receives, forks its right neighbour, and passes on what its
 number does not divide.
 */
module Sieve {

  datatype Phase =
    | Recv             // blocked in ipc_recv
    | Forking          // has its prime, about to fork the right neighbour
    | Sending(v: nat)  // in the retry loop of ipc_send

  /** `input` is everything the process has received; its prime is the first. */
  datatype Proc = Proc(input: seq<nat>, phase: Phase)

  /** `next` is the number the generator is trying to send. */
  datatype Net = Net(next: nat, procs: seq<Proc>)

  datatype Action = Feed | Fork(k: nat) | Pass(k: nat)

  function Receive(p: Proc, v: nat): Proc
  {
    if p.input == [] then Proc([v], Forking)
    else Proc(p.input + [v], if p.input[0] > 0 && v % p.input[0] != 0 then Sending(v) else Recv)
  }

  predicate Enabled(s: Net, a: Action) {
    match a
    case Feed => |s.procs| > 0 && s.procs[0].phase.Recv?
    case Fork(k) => k < |s.procs| && s.procs[k].phase.Forking?
    case Pass(k) => k + 1 < |s.procs| && s.procs[k].phase.Sending? && s.procs[k + 1].phase.Recv?
  }

  function Next(s: Net, a: Action): Net
    requires Enabled(s, a)
  {
    match a
    case Feed => Net(s.next + 1, s.procs[0 := Receive(s.procs[0], s.next)])
    case Fork(k) => s.(procs := s.procs[k := s.procs[k].(phase := Recv)] + [Proc([], Recv)])
    case Pass(k) =>
      s.(procs := s.procs[k := s.procs[k].(phase := Recv)][k + 1 := Receive(s.procs[k + 1], s.procs[k].phase.v)])
  }

  // ----- What each process should see

  predicate NoneDivides(ps: seq<nat>, x: nat)
    requires forall i :: 0 <= i < |ps| ==> ps[i] > 0
  {
    forall i :: 0 <= i < |ps| ==> x % ps[i] != 0
  }

  predicate Positive(ps: seq<nat>) { forall i :: 0 <= i < |ps| ==> ps[i] > 0 }

  /** The integers from 2 up to n - 1 that no number of ps divides, in order. */
  function Survivors(n: nat, ps: seq<nat>): seq<nat>
    requires Positive(ps)
  {
    if n <= 2 then []
    else Survivors(n - 1, ps) + (if NoneDivides(ps, n - 1) then [n - 1] else [])
  }

  /** The elements of s that p does not divide, in order. */
  function Filter(s: seq<nat>, p: nat): seq<nat>
    requires p > 0
  {
    if s == [] then []
    else Filter(s[..|s| - 1], p) + (if s[|s| - 1] % p != 0 then [s[|s| - 1]] else [])
  }

  lemma FilterSnoc(s: seq<nat>, v: nat, p: nat)
    requires p > 0
    ensures Filter(s + [v], p) == Filter(s, p) + (if v % p != 0 then [v] else [])
  {
  }

  /** Filtering the survivors of ps by p gives the survivors of ps and p. */
  lemma {:induction false} FilterSurvivors(n: nat, ps: seq<nat>, p: nat)
    requires Positive(ps) && p > 0
    ensures Positive(ps + [p]) && Filter(Survivors(n, ps), p) == Survivors(n, ps + [p])
  {
    if n > 2 {
      FilterSurvivors(n - 1, ps, p);
      var x := n - 1;
      assert NoneDivides(ps + [p], x) <==> NoneDivides(ps, x) && x % p != 0 by {
        assert forall i :: 0 <= i < |ps| ==> (ps + [p])[i] == ps[i];
        assert (ps + [p])[|ps|] == p;
      }
      if NoneDivides(ps, x) {
        FilterSnoc(Survivors(x, ps), x, p);
      } else {
        assert Survivors(n, ps) == Survivors(x, ps);
      }
      assert Survivors(n, ps + [p]) == Survivors(x, ps + [p]) + (if NoneDivides(ps + [p], x) then [x] else []);
    }
  }

  /** Survivors are exactly the numbers that should survive, in increasing order. */
  lemma {:induction false} SurvivorsAre(n: nat, ps: seq<nat>)
    requires Positive(ps)
    ensures forall x :: x in Survivors(n, ps) <==> 2 <= x < n && NoneDivides(ps, x)
    ensures forall i, j :: 0 <= i < j < |Survivors(n, ps)| ==> Survivors(n, ps)[i] < Survivors(n, ps)[j]
  {
    if n > 2 {
      SurvivorsAre(n - 1, ps);
      var s, t := Survivors(n - 1, ps), Survivors(n, ps);
      forall i, j | 0 <= i < j < |t| ensures t[i] < t[j] {
        if j == |s| { assert t[i] in s; }
      }
    }
  }

  /** Without its last element, a list of survivors is the list of survivors below that element. */
  lemma {:induction false} DropLast(n: nat, ps: seq<nat>)
    requires Positive(ps) && Survivors(n, ps) != []
    ensures var s := Survivors(n, ps); s[..|s| - 1] == Survivors(s[|s| - 1], ps)
  {
    if !NoneDivides(ps, n - 1) {
      DropLast(n - 1, ps);
    }
  }

  // ----- The invariant

  ghost predicate Linked(s: Net, k: nat)
    requires k + 1 < |s.procs|
  {
    var p, q := s.procs[k], s.procs[k + 1];
    && p.input != [] && p.input[0] > 0 && !p.phase.Forking?
    && q.input + (if p.phase.Sending? then [p.phase.v] else []) == Filter(p.input, p.input[0])
  }

  ghost predicate Inv(s: Net) {
    && s.procs != [] && s.next >= 2
    && s.procs[0].input == Survivors(s.next, [])
    && (forall k :: 0 <= k < |s.procs| - 1 ==> Linked(s, k))
    && var last := s.procs[|s.procs| - 1];
       if last.input == [] then last.phase.Recv? else |last.input| == 1 && last.input[0] > 0 && last.phase.Forking?
  }

  lemma FilterOne(p: nat)
    requires p > 0
    ensures Filter([p], p) == []
  {
  }

  lemma {:induction false} FilterPositive(s: seq<nat>, p: nat)
    requires p > 0
    ensures forall x :: x in Filter(s, p) ==> x > 0
  {
    if s != [] {
      FilterPositive(s[..|s| - 1], p);
      assert 0 % p == 0;
    }
  }

  lemma AllSurvive(n: nat)
    requires n >= 2
    ensures Survivors(n + 1, []) == Survivors(n, []) + [n]
  {
  }

  lemma FirstReceives(s: Net)
    requires Inv(s) && Enabled(s, Feed) && |s.procs| > 1
    ensures Linked(Next(s, Feed), 0)
  {
    assert Linked(s, 0);
    var p := s.procs[0];
    FilterSnoc(p.input, s.next, p.input[0]);
    assert (p.input + [s.next])[0] == p.input[0];
  }

  lemma FeedInv(s: Net)
    requires Inv(s) && Enabled(s, Feed)
    ensures Inv(Next(s, Feed))
  {
    var s' := Next(s, Feed);
    AllSurvive(s.next);
    assert s'.procs[0].input == s.procs[0].input + [s.next];
    if |s.procs| > 1 { FirstReceives(s); }
    forall k | 0 <= k < |s'.procs| - 1 ensures Linked(s', k) {
      if k > 0 { LinkedStays(s, s', k); }
    }
  }

  lemma LinkedStays(s: Net, s': Net, k: nat)
    requires Inv(s) && k + 1 < |s.procs| && k + 1 < |s'.procs|
    requires s.procs[k] == s'.procs[k] && s.procs[k + 1].input == s'.procs[k + 1].input
    ensures Linked(s', k)
  {
    assert Linked(s, k);
  }

  lemma ForkInv(s: Net, k: nat)
    requires Inv(s) && Enabled(s, Fork(k))
    ensures Inv(Next(s, Fork(k)))
  {
    var s' := Next(s, Fork(k));
    assert k < |s.procs| - 1 ==> Linked(s, k);
    FilterOne(s.procs[k].input[0]);
    assert s.procs[k].input == [s.procs[k].input[0]];
    forall j | 0 <= j < |s'.procs| - 1 ensures Linked(s', j) { if j < k { assert Linked(s, j); } }
  }

  /** What process k still has to send goes over to its neighbour. */
  lemma PassedOn(s: Net, k: nat)
    requires Inv(s) && Enabled(s, Pass(k))
    ensures s.procs[k].phase.v > 0 && Linked(Next(s, Pass(k)), k)
  {
    var p, q := s.procs[k], s.procs[k + 1];
    assert Linked(s, k);
    FilterPositive(p.input, p.input[0]);
    assert p.phase.v in q.input + [p.phase.v];
  }

  /** The neighbour filters what it has received. */
  lemma PassedFilter(s: Net, k: nat)
    requires Inv(s) && Enabled(s, Pass(k)) && k + 2 < |s.procs| && s.procs[k].phase.v > 0
    ensures Linked(Next(s, Pass(k)), k + 1)
  {
    assert Linked(s, k + 1);
    FilterSnoc(s.procs[k + 1].input, s.procs[k].phase.v, s.procs[k + 1].input[0]);
  }

  lemma PassInv(s: Net, k: nat)
    requires Inv(s) && Enabled(s, Pass(k))
    ensures Inv(Next(s, Pass(k)))
  {
    var s' := Next(s, Pass(k));
    PassedOn(s, k);
    forall j | 0 <= j < |s'.procs| - 1 ensures Linked(s', j) {
      if j == k + 1 { PassedFilter(s, k); } else if j != k { LinkedStays(s, s', j); }
    }
  }

  lemma StepInv(s: Net, a: Action)
    requires Inv(s) && Enabled(s, a)
    ensures Inv(Next(s, a))
  {
    match a
    case Feed => FeedInv(s);
    case Fork(k) => ForkInv(s, k);
    case Pass(k) => PassInv(s, k);
  }

  // ----- Primes

  predicate Divides(d: nat, n: nat) { d > 0 && n % d == 0 }

  predicate IsPrime(n: nat) {
    n >= 2 && forall d :: 2 <= d < n ==> !Divides(d, n)
  }

  /** ps is the list of the first |ps| primes. */
  ghost predicate FirstPrimes(ps: seq<nat>) {
    && (forall i :: 0 <= i < |ps| ==> IsPrime(ps[i]))
    && (forall i, j :: 0 <= i < j < |ps| ==> ps[i] < ps[j])
    && (forall q, i :: 0 <= i < |ps| && IsPrime(q) && q < ps[i] ==> q in ps)
  }

  lemma ModUnique(x: nat, a: nat, q: nat, r: nat)
    requires a > 0 && x == a * q + r && r < a
    ensures x % a == r
  {
    var q', r' := x / a, x % a;
    assert x == a * q' + r';
    assert q > q' ==> a * q >= a * (q' + 1) == a * q' + a;
    assert q < q' ==> a * q' >= a * (q + 1) == a * q + a;
  }

  lemma DividesTrans(a: nat, b: nat, c: nat)
    requires Divides(a, b) && Divides(b, c)
    ensures Divides(a, c)
  {
    var x, y := b / a, c / b;
    assert c == a * (x * y) by {
      assert b == a * x && c == b * y;
    }
    ModUnique(c, a, x * y, 0);
  }

  /** The least number >= 2 that none of the first primes divides is the next prime. */
  lemma NextPrime(ps: seq<nat>, m: nat)
    requires FirstPrimes(ps) && Positive(ps) && IsLeast(ps, m)
    ensures FirstPrimes(ps + [m])
  {
    LeastIsPrime(ps, m);
    forall q: nat | IsPrime(q) && q < m ensures q in ps { SmallerPrime(ps, m, q); }
    ModUnique(m, m, 1, 0);
    assert m !in ps;
    forall i | 0 <= i < |ps| ensures ps[i] < m {
      assert ps[i] in ps;
      assert IsPrime(m) && m < ps[i] ==> m in ps;
    }
  }

  ghost predicate IsLeast(ps: seq<nat>, m: nat)
    requires Positive(ps)
  {
    m >= 2 && NoneDivides(ps, m) && forall x :: 2 <= x < m ==> !NoneDivides(ps, x)
  }

  lemma LeastIsPrime(ps: seq<nat>, m: nat)
    requires Positive(ps) && IsLeast(ps, m)
    ensures IsPrime(m)
  {
    forall d | 2 <= d < m ensures !Divides(d, m) {
      assert !NoneDivides(ps, d);
      var i :| 0 <= i < |ps| && d % ps[i] == 0;
      if Divides(d, m) { DividesTrans(ps[i], d, m); }
    }
  }

  lemma SmallerPrime(ps: seq<nat>, m: nat, q: nat)
    requires Positive(ps) && IsLeast(ps, m) && IsPrime(q) && q < m && (forall i :: 0 <= i < |ps| ==> ps[i] >= 2)
    ensures q in ps
  {
    assert !NoneDivides(ps, q);
    var i :| 0 <= i < |ps| && q % ps[i] == 0;
    if ps[i] < q { assert Divides(ps[i], q); assert false; }
    if ps[i] > q { ModUnique(q, ps[i], 0, q); assert false; }
  }

  /** The first survivor is the least one. */
  lemma FirstSurvivor(n: nat, ps: seq<nat>)
    requires Positive(ps) && Survivors(n, ps) != []
    ensures IsLeast(ps, Survivors(n, ps)[0])
  {
    SurvivorsAre(n, ps);
    var s := Survivors(n, ps);
    assert s[0] in s;
    assert forall i :: 0 <= i < |s| ==> s[0] <= s[i];
    forall x: nat | 2 <= x < s[0] ensures !NoneDivides(ps, x) { assert x !in s; }
  }

  // ----- What every reachable state looks like

  /** The numbers held by the first k processes. */
  ghost function Held(s: Net, k: nat): seq<nat>
    requires k <= |s.procs| && forall i :: 0 <= i < k ==> s.procs[i].input != []
  {
    if k == 0 then [] else Held(s, k - 1) + [s.procs[k - 1].input[0]]
  }

  ghost predicate AllStarted(s: Net, k: nat) {
    k <= |s.procs| && forall i :: 0 <= i < k ==> s.procs[i].input != []
  }

  /** The k-th process receives, in order, a prefix of the integers >= 2 that the primes before it do
      not divide; the primes before it are the first k primes. */
  lemma {:induction false} StreamOf(s: Net, k: nat) returns (n: nat)
    requires Inv(s) && k < |s.procs|
    ensures AllStarted(s, k) && FirstPrimes(Held(s, k)) && Positive(Held(s, k))
    ensures s.procs[k].input == Survivors(n, Held(s, k))
  {
    if k == 0 {
      n := s.next;
    } else {
      n := StreamOf(s, k - 1);
      n := NextStream(s, k - 1, n);
    }
  }

  lemma NextStream(s: Net, k: nat, n: nat) returns (n': nat)
    requires Inv(s) && k + 1 < |s.procs|
    requires AllStarted(s, k) && FirstPrimes(Held(s, k)) && Positive(Held(s, k))
    requires s.procs[k].input == Survivors(n, Held(s, k))
    ensures AllStarted(s, k + 1) && FirstPrimes(Held(s, k + 1)) && Positive(Held(s, k + 1))
    ensures s.procs[k + 1].input == Survivors(n', Held(s, k + 1))
  {
    var p, q, ps := s.procs[k], s.procs[k + 1], Held(s, k);
    assert Linked(s, k);
    var m := p.input[0];
    FirstSurvivor(n, ps);
    NextPrime(ps, m);
    FilterSurvivors(n, ps, m);
    n' := n;
    if p.phase.Sending? {
      BeforeLast(n, ps + [m], q.input, p.phase.v);
      n' := p.phase.v;
    }
  }

  lemma BeforeLast(n: nat, ps: seq<nat>, s: seq<nat>, v: nat)
    requires Positive(ps) && Survivors(n, ps) == s + [v]
    ensures s == Survivors(v, ps)
  {
    DropLast(n, ps);
    assert (s + [v])[..|s|] == s && (s + [v])[|s|] == v;
  }

  ghost predicate IsRun(states: seq<Net>, run: seq<Action>) {
    && |states| == |run| + 1 && states[0] == Net(2, [Proc([], Recv)])
    && forall i :: 0 <= i < |run| ==> Enabled(states[i], run[i]) && states[i + 1] == Next(states[i], run[i])
  }

  lemma {:induction false} RunInv(states: seq<Net>, run: seq<Action>, i: nat)
    requires IsRun(states, run) && i < |states|
    ensures Inv(states[i])
  {
    if i > 0 {
      RunInv(states, run, i - 1);
      StepInv(states[i - 1], run[i - 1]);
    }
  }

  /** No schedule gets stuck: in every state some process, or the generator, can take a step. */
  lemma NoDeadlock(s: Net) returns (a: Action)
    requires Inv(s)
    ensures Enabled(s, a)
  {
    var k := 0;
    while k + 1 < |s.procs| && s.procs[k].phase.Sending?
      invariant k < |s.procs| && forall i :: 0 <= i < k ==> s.procs[i].phase.Sending?
    {
      k := k + 1;
    }
    assert k < |s.procs| - 1 ==> Linked(s, k);
    a := if s.procs[k].phase.Forking? then Fork(k) else if k == 0 then Feed else Pass(k - 1);
  }

  /** Under every schedule, in every reachable state, the numbers held along the chain are the first
      primes, none missing, and the input of every process is the survivors of the primes before it. */
  lemma SieveCorrect(states: seq<Net>, run: seq<Action>, i: nat, k: nat)
    requires IsRun(states, run) && i < |states| && k < |states[i].procs|
    ensures AllStarted(states[i], k) && FirstPrimes(Held(states[i], k)) && Positive(Held(states[i], k))
    ensures exists n: nat :: states[i].procs[k].input == Survivors(n, Held(states[i], k))
    ensures states[i].procs[k].input != [] ==> FirstPrimes(Held(states[i], k) + [states[i].procs[k].input[0]])
  {
    RunInv(states, run, i);
    var s := states[i];
    var n := StreamOf(s, k);
    if s.procs[k].input != [] {
      var m, ps := s.procs[k].input[0], Held(s, k);
      FirstSurvivor(n, ps);
      NextPrime(ps, m);
    }
  }
}
