/**
 The round-robin choice of kern/sched.c, and how long a runnable environment can be passed over.
 */
module Sched {
  import opened Environments

  /** How many slots the scan starting at `from` visits before slot `e`. */
  function Dist(from: nat, e: nat, n: nat): nat
    requires from < n && e < n
  {
    if from <= e then e - from else e + n - from
  }

  /** `e` is the first RUNNABLE slot in circular order from slot `from`. */
  ghost predicate IsFirst(status: seq<Status>, from: nat, e: nat) {
    && from < |status| && e < |status| && status[e].Runnable?
    && forall x :: 0 <= x < |status| && Dist(from, x, |status|) < Dist(from, e, |status|) ==> !status[x].Runnable?
  }

  lemma SlotAt(from: nat, i: nat, n: nat)
    requires from < n && i < n
    ensures (from + i) % n == if from + i < n then from + i else from + i - n
    ensures Dist(from, (from + i) % n, n) == i
    ensures forall x: nat :: x < n && Dist(from, x, n) == i ==> x == (from + i) % n
  {
    ModOnce(from + i, n);
  }

  lemma ModOnce(x: nat, n: nat)
    requires x < 2 * n
    ensures x % n == if x < n then x else x - n
  {
  }

  /** The scan of sched_yield: the slot to run, or -1 when nothing is RUNNABLE. */
  method Scan(status: seq<Status>, from: nat) returns (e: int)
    requires from < |status|
    ensures e == -1 || 0 <= e
    ensures e >= 0 ==> IsFirst(status, from, e)
    ensures e == -1 ==> forall x :: 0 <= x < |status| ==> !status[x].Runnable?
  {
    var i := 0;
    while i < |status|
      invariant i <= |status|
      invariant forall x :: 0 <= x < |status| && Dist(from, x, |status|) < i ==> !status[x].Runnable?
    {
      SlotAt(from, i, |status|);
      if status[(from + i) % |status|].Runnable? {
        return (from + i) % |status|;
      }
      i := i + 1;
    }
    e := -1;
  }

  /** The choice as a function: distance i and beyond. */
  function PickAt(status: seq<Status>, from: nat, i: nat): int
    requires from < |status|
    decreases |status| - i
  {
    if i >= |status| then -1
    else if status[(from + i) % |status|].Runnable? then (from + i) % |status|
    else PickAt(status, from, i + 1)
  }

  function Pick(status: seq<Status>, from: nat): int
    requires from < |status|
  {
    PickAt(status, from, 0)
  }

  lemma {:induction false} PickAtFirst(status: seq<Status>, from: nat, i: nat)
    requires from < |status| && i <= |status|
    requires forall x :: 0 <= x < |status| && Dist(from, x, |status|) < i ==> !status[x].Runnable?
    ensures PickAt(status, from, i) >= 0 ==> IsFirst(status, from, PickAt(status, from, i))
    ensures PickAt(status, from, i) < 0 ==>
              PickAt(status, from, i) == -1 && forall x :: 0 <= x < |status| ==> !status[x].Runnable?
    decreases |status| - i
  {
    if i < |status| {
      SlotAt(from, i, |status|);
      if !status[(from + i) % |status|].Runnable? {
        PickAtFirst(status, from, i + 1);
      }
    }
  }

  lemma FirstIsUnique(status: seq<Status>, from: nat, a: nat, b: nat)
    requires IsFirst(status, from, a) && IsFirst(status, from, b)
    ensures a == b
  {
  }

  /** Any result with the contract of Scan is the value of Pick. */
  lemma PickIsFirst(status: seq<Status>, from: nat, e: int)
    requires from < |status|
    requires e >= 0 ==> IsFirst(status, from, e)
    requires e < 0 ==> e == -1 && forall x :: 0 <= x < |status| ==> !status[x].Runnable?
    ensures Pick(status, from) == e
  {
    PickAtFirst(status, from, 0);
    if e >= 0 && Pick(status, from) >= 0 {
      FirstIsUnique(status, from, e, Pick(status, from));
    }
  }

  /** One decision with a current environment: it brings the scan closer to a waiting environment t,
      or dispatches it, exactly when the current environment is not itself RUNNABLE. */
  lemma OneDecision(status: seq<Status>, cur: nat, t: nat)
    requires cur < |status| && t < |status| && cur != t && status[t].Runnable?
    ensures 0 <= Pick(status, cur) < |status|
    ensures (Pick(status, cur) == t || Dist(Pick(status, cur), t, |status|) < Dist(cur, t, |status|))
            <==> !status[cur].Runnable?
  {
    PickAtFirst(status, cur, 0);
    var n, p := |status|, Pick(status, cur);
    if p < 0 { assert false; }
    assert Dist(cur, p, n) <= Dist(cur, t, n);
    if status[cur].Runnable? {
      FirstIsUnique(status, cur, p, cur);
    }
  }
}
