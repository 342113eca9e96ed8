/**
 Inter-process messages (kern/syscall.c:337-444, lib/ipc.c) as a step system over all environments.

 A receive is split into the call, which blocks, and the return to user mode once a sender has made
 the receiver runnable again. Page tables are kept as a map from virtual page to mapping; whether
 page_insert finds memory for a page table is a parameter of the send.
 */
module Ipc {
  import opened Paging

  const E_BAD_ENV: int := -2
  const E_INVAL: int := -3
  const E_NO_MEM: int := -4
  const E_IPC_NOT_RECV: int := -7

  datatype Mapping = Mapping(page: nat, perm: Flags)
  datatype Msg = Msg(value: nat, from: int, perm: Flags)

  /** `msg` is env_ipc_value, env_ipc_from and env_ipc_perm. `inRecv`: has not yet returned from
      sys_ipc_recv. */
  datatype Env = Env(live: bool, id: int, runnable: bool, recving: bool, dstva: nat, msg: Msg, inRecv: bool,
                     space: map<nat, Mapping>)

  type State = seq<Env>

  datatype Action =
    | Send(cur: nat, dst: nat, value: nat, srcva: nat, perm: Flags, nomem: bool)
    | Recv(cur: nat, dstva: nat)
    | Return(cur: nat)
    | SetStatus(e: nat, runnable: bool)
    | Remap(e: nat, space: map<nat, Mapping>)
    | Alloc(e: nat, id: int)
    | Free(e: nat)

  /** An environment executing user code. */
  predicate Active(s: State, e: nat) { e < |s| && s[e].live && s[e].runnable && !s[e].inRecv }

  predicate Enabled(s: State, a: Action) {
    match a
    case Send(cur, _, _, _, _, _) => Active(s, cur)
    case Recv(cur, _) => Active(s, cur)
    case Return(cur) => cur < |s| && s[cur].live && s[cur].runnable && s[cur].inRecv
    case SetStatus(e, _) => e < |s| && s[e].live
    case Remap(e, _) => e < |s| && s[e].live
    case Alloc(e, _) => e < |s| && !s[e].live
    case Free(e) => e < |s| && s[e].live
  }

  /** The value sys_ipc_try_send returns. `dst` is the slot the target id resolves to; an id that
      resolves to nothing is a slot out of range or not live. */
  function SendResult(s: State, a: Action): int
    requires a.Send? && Enabled(s, a)
  {
    if a.dst >= |s| || !s[a.dst].live then E_BAD_ENV
    else if !s[a.dst].recving then E_IPC_NOT_RECV
    else if a.srcva < UTOP && s[a.dst].dstva < UTOP then
      if a.srcva % 0x1000 != 0 then E_INVAL
      else if a.srcva !in s[a.cur].space then E_INVAL
      else if BadPerm(a.perm) then E_INVAL
      else if a.perm.w && !s[a.cur].space[a.srcva].perm.w then E_INVAL
      else if a.nomem then E_NO_MEM
      else 0
    else 0
  }

  predicate Delivers(s: State, a: Action) { a.Send? && Enabled(s, a) && SendResult(s, a) == 0 }

  /** The target after a successful send. */
  function Delivered(s: State, a: Action): Env
    requires Delivers(s, a)
  {
    var d := s[a.dst];
    var paged := a.srcva < UTOP && d.dstva < UTOP;
    d.(recving := false, runnable := true,
       msg := Msg(a.value, s[a.cur].id, if paged then a.perm else NO_FLAGS),
       space := if paged then d.space[d.dstva := Mapping(s[a.cur].space[a.srcva].page, a.perm.(p := true))] else d.space)
  }

  predicate Blocks(s: State, a: Action) { a.Recv? && Enabled(s, a) && (a.dstva < UTOP ==> a.dstva % 0x1000 == 0) }

  function Next(s: State, a: Action): State
    requires Enabled(s, a)
  {
    match a
    case Send(_, dst, _, _, _, _) => if Delivers(s, a) then s[dst := Delivered(s, a)] else s
    case Recv(cur, dstva) =>
      if Blocks(s, a) then
        s[cur := s[cur].(dstva := if dstva < UTOP then dstva else s[cur].dstva, recving := true, runnable := false, inRecv := true)]
      else s
    case Return(cur) => s[cur := s[cur].(inRecv := false)]
    case SetStatus(e, r) => s[e := s[e].(runnable := r)]
    case Remap(e, space) => s[e := s[e].(space := space)]
    case Alloc(e, id) => s[e := s[e].(live := true, id := id, runnable := true, recving := false, inRecv := false, space := map[])]
    case Free(e) => s[e := s[e].(live := false, space := map[])]
  }

  /** Nobody makes an environment runnable while it waits for a message. */
  predicate Unforced(s: State, a: Action) {
    a.SetStatus? && a.runnable && a.e < |s| ==> !s[a.e].recving
  }

  // ----- Runs and what happened in them

  ghost predicate IsRun(states: seq<State>, run: seq<Action>) {
    && |states| == |run| + 1
    && (forall e :: 0 <= e < |states[0]| ==> !states[0][e].live && states[0][e].dstva == 0)
    && forall i :: 0 <= i < |run| ==> Enabled(states[i], run[i]) && states[i + 1] == Next(states[i], run[i])
  }

  /** What the sender of a message meant to say. */
  function Carried(s: State, a: Action): Msg
    requires a.Send? && Enabled(s, a)
  {
    Msg(a.value, s[a.cur].id, if a.srcva < UTOP then a.perm else NO_FLAGS)
  }

  /** The messages that successful sends carried to slot e, since e was last allocated, in the first i steps. */
  ghost function Sent(states: seq<State>, run: seq<Action>, i: nat, e: nat): seq<Msg>
    requires i <= |run| < |states|
  {
    if i == 0 then []
    else
      var a := run[i - 1];
      if a.Alloc? && a.e == e then []
      else if Delivers(states[i - 1], a) && a.dst == e then
        Sent(states, run, i - 1, e) + [Carried(states[i - 1], a)]
      else Sent(states, run, i - 1, e)
  }

  /** What the receives of e that have returned found in its message fields, likewise. */
  ghost function Got(states: seq<State>, run: seq<Action>, i: nat, e: nat): seq<Msg>
    requires i <= |run| < |states|
  {
    if i == 0 then []
    else
      var a := run[i - 1];
      if a.Alloc? && a.e == e then []
      else if a == Return(e) && e < |states[i - 1]| then Got(states, run, i - 1, e) + [states[i - 1][e].msg]
      else Got(states, run, i - 1, e)
  }

  /** The last address below UTOP that slot e gave to a receive, in this life or an earlier one. */
  ghost function Asked(states: seq<State>, run: seq<Action>, i: nat, e: nat): nat
    requires i <= |run| < |states|
  {
    if i == 0 then 0
    else
      var a := run[i - 1];
      if a.Recv? && a.cur == e && Blocks(states[i - 1], a) && a.dstva < UTOP then a.dstva
      else Asked(states, run, i - 1, e)
  }

  /** A message has arrived and the receive has not yet returned. */
  ghost function Pending(v: Env): seq<Msg> { if v.inRecv && !v.recving then [v.msg] else [] }

  ghost predicate EnvInv(v: Env, sent: seq<Msg>, got: seq<Msg>) {
    v.live ==>
      && (v.recving ==> v.inRecv && !v.runnable)
      && sent == got + Pending(v)
      && (!v.inRecv && got != [] ==> v.msg == got[|got| - 1])
  }

  lemma {:induction false} SameSlots(states: seq<State>, run: seq<Action>, i: nat)
    requires IsRun(states, run) && i <= |run|
    ensures |states[i]| == |states[0]|
  {
    if i > 0 { SameSlots(states, run, i - 1); }
  }

  /** env_ipc_dstva is always a page address below UTOP: the last one this slot asked for, in this
      life or an earlier one. */
  lemma {:induction false} DestinationAsked(states: seq<State>, run: seq<Action>, i: nat, e: nat)
    requires IsRun(states, run) && i <= |run| && e < |states[0]|
    ensures |states[i]| == |states[0]|
    ensures states[i][e].dstva == Asked(states, run, i, e) < UTOP && states[i][e].dstva % 0x1000 == 0
  {
    if i > 0 {
      DestinationAsked(states, run, i - 1, e);
    }
  }

  lemma StepInv(states: seq<State>, run: seq<Action>, i: nat, e: nat)
    requires IsRun(states, run) && i < |run| && e < |states[i]| == |states[i + 1]| && Unforced(states[i], run[i])
    requires states[i][e].dstva < UTOP
    requires EnvInv(states[i][e], Sent(states, run, i, e), Got(states, run, i, e))
    ensures EnvInv(states[i + 1][e], Sent(states, run, i + 1, e), Got(states, run, i + 1, e))
  {
    var s, a := states[i], run[i];
    assert s[e].live && a != Free(e) ==> states[i + 1][e].live;
  }

  /** Exactly-once delivery: in every run in which nobody is forced awake, after every step and for every
      live environment, the
      receives that have returned found the messages of the successful sends to it, in order, each once;
      at most one more has arrived; and what the last receive found is still there until the next one. */
  lemma {:induction false} ExactlyOnce(states: seq<State>, run: seq<Action>, i: nat, e: nat)
    requires IsRun(states, run) && i <= |run| && e < |states[0]|
    requires forall j :: 0 <= j < i ==> Unforced(states[j], run[j])
    ensures |states[i]| == |states[0]|
    ensures EnvInv(states[i][e], Sent(states, run, i, e), Got(states, run, i, e))
  {
    if i > 0 {
      ExactlyOnce(states, run, i - 1, e);
      DestinationAsked(states, run, i - 1, e);
      StepInv(states, run, i - 1, e);
    }
  }

  /** Steps that end the wait of e or interfere with it. */
  predicate Concerns(a: Action, e: nat) { a == Return(e) || a == Free(e) || (a.SetStatus? && a.e == e) }

  lemma {:induction false} Awake(states: seq<State>, run: seq<Action>, i: nat, j: nat, e: nat)
    requires IsRun(states, run) && i < j <= |run| && e < |states[i]|
    requires Delivers(states[i], run[i]) && run[i].dst == e && states[i][e].inRecv && states[i][e].dstva < UTOP
    requires forall k :: i < k < j ==> !Concerns(run[k], e)
    ensures e < |states[j]| && !states[j][e].recving && Enabled(states[j], Return(e))
    ensures states[j][e].msg == Carried(states[i], run[i])
    decreases j - i
  {
    if j > i + 1 { Awake(states, run, i, j - 1, e); }
  }

  /** A receive returns if and only if a message has arrived: from a successful send on, its receiver can
      return, and finds that message, as long as nobody stops it; before, it cannot. */
  lemma ReceiverReturns(states: seq<State>, run: seq<Action>, i: nat, j: nat, e: nat)
    requires IsRun(states, run) && i < j <= |run| && e < |states[0]|
    requires forall k :: 0 <= k < i ==> Unforced(states[k], run[k])
    requires forall k :: i < k < j ==> !Concerns(run[k], e)
    ensures |states[i]| == |states[0]| == |states[j]|
    ensures Delivers(states[i], run[i]) && run[i].dst == e ==>
              Enabled(states[j], Return(e)) && states[j][e].msg == Carried(states[i], run[i])
    ensures states[i][e].live && states[i][e].recving ==> !Enabled(states[i], Return(e))
  {
    ExactlyOnce(states, run, i, e);
    DestinationAsked(states, run, i, e);
    SameSlots(states, run, j);
    if Delivers(states[i], run[i]) && run[i].dst == e { Awake(states, run, i, j, e); }
  }

  /** The condition is needed: whatever happened before, making a waiting receiver runnable lets its
      receive return, with a message that nobody sent. */
  lemma ForcedReturn(states: seq<State>, run: seq<Action>, i: nat, e: nat)
    requires IsRun(states, run) && i < |run| && e < |states[0]|
    requires forall j :: 0 <= j < i ==> Unforced(states[j], run[j])
    requires run[i] == SetStatus(e, true) && !Unforced(states[i], run[i])
    ensures Enabled(states[i + 1], Return(e))
    ensures i + 1 < |run| && run[i + 1] == Return(e) ==>
              |Got(states, run, i + 2, e)| == |Sent(states, run, i + 2, e)| + 1
  {
    ExactlyOnce(states, run, i, e);
    assert Sent(states, run, i + 1, e) == Sent(states, run, i, e);
    assert Got(states, run, i + 1, e) == Got(states, run, i, e);
  }

  /** A successful send maps a page in the receiver exactly when the sender offers one, at the address
      the receiver last asked for; what the current receive says about pages does not matter. */
  lemma PageTransfer(states: seq<State>, run: seq<Action>, i: nat)
    requires IsRun(states, run) && i < |run| && Delivers(states[i], run[i])
    ensures |states[i]| == |states[i + 1]| == |states[0]| && run[i].dst < |states[0]|
    ensures var a := run[i];
            var before, after := states[i][a.dst].space, states[i + 1][a.dst].space;
            if a.srcva < UTOP then
              a.srcva in states[i][a.cur].space &&
              after == before[Asked(states, run, i, a.dst) := Mapping(states[i][a.cur].space[a.srcva].page, a.perm.(p := true))]
            else after == before
  {
    SameSlots(states, run, i);
    DestinationAsked(states, run, i, run[i].dst);
  }

  /** So a receiver that asks for no page can still be given one, at address 0 if it never asked. */
  lemma UnwantedPage(perm: Flags, page: nat) returns (states: seq<State>, run: seq<Action>)
    requires !BadPerm(perm)
    ensures IsRun(states, run) && |run| == 5 && run[3] == Recv(0, UTOP) && |states[5]| == 2
    ensures 0 in states[5][0].space && states[5][0].space[0] == Mapping(page, perm.(p := true))
  {
    var m0 := Msg(0, 0, NO_FLAGS);
    var v := Env(false, 0, false, false, 0, m0, false, map[]);
    var given := map[0x1000 := Mapping(page, perm)];
    run := [Alloc(0, 0x1000), Alloc(1, 0x1001), Remap(1, given), Recv(0, UTOP), Send(1, 0, 7, 0x1000, perm, false)];
    var s0 := [v, v];
    var s1 := Next(s0, run[0]);
    var s2 := Next(s1, run[1]);
    var s3 := Next(s2, run[2]);
    var s4 := Next(s3, run[3]);
    var s5 := Next(s4, run[4]);
    states := [s0, s1, s2, s3, s4, s5];
    assert 0x1000 in s4[1].space;
  }

  /** A send without a page succeeds exactly when the target waits, and one with a page exactly when, in
      addition, the page can be given: it is aligned, mapped by the sender, with permissions that user
      code may use and no more than the sender has, and memory suffices. */
  lemma SendSucceeds(states: seq<State>, run: seq<Action>, i: nat)
    requires IsRun(states, run) && i < |run| && run[i].Send? && run[i].dst < |states[i]|
    ensures var s, a := states[i], run[i];
            var page := a.srcva < UTOP ==>
                          && a.srcva % 0x1000 == 0 && a.srcva in s[a.cur].space && !BadPerm(a.perm) && !a.nomem
                          && (a.perm.w ==> s[a.cur].space[a.srcva].perm.w);
            Delivers(s, a) <==> s[a.dst].live && s[a.dst].recving && page
  {
    SameSlots(states, run, i);
    DestinationAsked(states, run, i, run[i].dst);
  }
}
