/**
 User page-fault upcalls (kern/trap.c page_fault_handler, lib/pfentry.S): frames on the exception
 stack, and the instruction sequence that returns to the interrupted code.

 Memory is word addressed; a state is the register file and the words of user memory.  A handler may
 store anywhere except in the frames it must leave alone, and may itself fault to any depth.
 */
module Upcall {

  const XTOP: int := 0xEEC00000          // UXSTACKTOP
  const XBASE: int := 0xEEBFF000         // UXSTACKTOP - PGSIZE
  const FRAME: int := 52                 // sizeof(struct UTrapframe)

  datatype Regs = Regs(edi: int, esi: int, ebp: int, ebx: int, edx: int, ecx: int, eax: int)

  datatype Cpu = Cpu(r: Regs, esp: int, eip: int, eflags: int)

  type Mem = map<int, int>

  function Get(m: Mem, a: int): int { if a in m then m[a] else 0 }

  /** The trap-time stack is the exception stack. */
  predicate Recursive(esp: int) { XBASE <= esp < XTOP }

  /** Where page_fault_handler puts the frame. */
  function FrameAt(esp: int): int {
    if Recursive(esp) then esp - FRAME - 4 else XTOP - FRAME
  }

  /** The user trap frame that page_fault_handler writes. */
  function PushFrame(m: Mem, c: Cpu, va: int, err: int): Mem {
    var u := FrameAt(c.esp);
    m[u := va][u + 4 := err]
    [u + 8 := c.r.edi][u + 12 := c.r.esi][u + 16 := c.r.ebp][u + 20 := 0]
    [u + 24 := c.r.ebx][u + 28 := c.r.edx][u + 32 := c.r.ecx][u + 36 := c.r.eax]
    [u + 40 := c.eip][u + 44 := c.eflags][u + 48 := c.esp]
  }

  // ----- The instructions of _pgfault_upcall after the handler has returned

  datatype Instr =
    | LoadEcx(off: int)     // movl off(%esp), %ecx
    | SubEcx(n: int)        // subl $n, %ecx
    | StoreEcx(off: int)    // movl %ecx, off(%esp)
    | LoadEax(off: int)     // movl off(%esp), %eax
    | StoreEaxAtEcx         // movl %eax, (%ecx)
    | AddEsp(n: int)        // addl $n, %esp
    | Popal
    | Popfl
    | PopEsp
    | Ret

  datatype State = State(c: Cpu, m: Mem)

  /** Some value of the arithmetic flags that an addl or subl leaves behind. */
  const FLAGS: int := -1

  function Exec(i: Instr, s: State): State {
    var c, m := s.c, s.m;
    match i
    case LoadEcx(off) => s.(c := c.(r := c.r.(ecx := Get(m, c.esp + off))))
    case SubEcx(n) => s.(c := c.(r := c.r.(ecx := c.r.ecx - n), eflags := FLAGS))
    case StoreEcx(off) => s.(m := m[c.esp + off := c.r.ecx])
    case LoadEax(off) => s.(c := c.(r := c.r.(eax := Get(m, c.esp + off))))
    case StoreEaxAtEcx => s.(m := m[c.r.ecx := c.r.eax])
    case AddEsp(n) => s.(c := c.(esp := c.esp + n, eflags := FLAGS))
    case Popal =>
      var a := c.esp;
      var r := Regs(Get(m, a), Get(m, a + 4), Get(m, a + 8), Get(m, a + 16), Get(m, a + 20), Get(m, a + 24), Get(m, a + 28));
      s.(c := c.(r := r, esp := a + 32))
    case Popfl => s.(c := c.(eflags := Get(m, c.esp), esp := c.esp + 4))
    case PopEsp => s.(c := c.(esp := Get(m, c.esp)))
    case Ret => s.(c := c.(eip := Get(m, c.esp), esp := c.esp + 4))
  }

  /** The first half of the tail: put the trap-time eip on the trap-time stack. */
  function PlantEip(s: State): State {
    var s1 := Exec(LoadEcx(48), s);
    var s2 := Exec(SubEcx(4), s1);
    var s3 := Exec(StoreEcx(48), s2);
    var s4 := Exec(LoadEax(40), s3);
    Exec(StoreEaxAtEcx, s4)
  }

  /** lib/pfentry.S from the return of the C handler on, %esp pointing at the frame. */
  function Tail(s: State): State { Unwind(PlantEip(s)) }

  /** The second half: the registers, the flags, and the way back. */
  function Unwind(s: State): State {
    var s6 := Exec(AddEsp(8), s);
    var s7 := Exec(Popal, s6);
    var s8 := Exec(AddEsp(4), s7);
    var s9 := Exec(Popfl, s8);
    var s10 := Exec(PopEsp, s9);
    Exec(Ret, s10)
  }

  /** The frame of a fault at state c is intact in memory m. */
  predicate FrameIntact(m: Mem, c: Cpu) {
    var u := FrameAt(c.esp);
    && Get(m, u + 8) == c.r.edi && Get(m, u + 12) == c.r.esi && Get(m, u + 16) == c.r.ebp
    && Get(m, u + 24) == c.r.ebx && Get(m, u + 28) == c.r.edx && Get(m, u + 32) == c.r.ecx && Get(m, u + 36) == c.r.eax
    && Get(m, u + 40) == c.eip && Get(m, u + 44) == c.eflags && Get(m, u + 48) == c.esp
  }

  /** The trap-time eip goes to the scratch word, the adjusted esp into the frame. */
  lemma Planted(s: State, c: Cpu)
    requires s.c.esp == FrameAt(c.esp) && FrameIntact(s.m, c)
    ensures var u := FrameAt(c.esp);
            && PlantEip(s).c.esp == u && PlantEip(s).m == s.m[u + 48 := c.esp - 4][c.esp - 4 := c.eip]
  {
  }

  /** Popping a frame at u in memory m. */
  lemma Popped(s: State, c: Cpu, u: int)
    requires s.c.esp == u
    requires Get(s.m, u + 8) == c.r.edi && Get(s.m, u + 12) == c.r.esi && Get(s.m, u + 16) == c.r.ebp
    requires Get(s.m, u + 24) == c.r.ebx && Get(s.m, u + 28) == c.r.edx && Get(s.m, u + 32) == c.r.ecx && Get(s.m, u + 36) == c.r.eax
    requires Get(s.m, u + 44) == c.eflags
    ensures Unwind(s).m == s.m && Unwind(s).c.r == c.r && Unwind(s).c.eflags == c.eflags
    ensures Unwind(s).c.eip == Get(s.m, Get(s.m, u + 48)) && Unwind(s).c.esp == Get(s.m, u + 48) + 4
  {
  }

  /** Returning from a fault at state c with the frame intact: every register comes back, and besides
      the frame only the scratch word below the trap-time stack pointer is written. */
  lemma TailRestores(s: State, c: Cpu)
    requires s.c.esp == FrameAt(c.esp) && FrameIntact(s.m, c) && c.esp % 4 == 0 && c.esp != XTOP
    ensures Tail(s).c == c
    ensures Tail(s).m == s.m[FrameAt(c.esp) + 48 := c.esp - 4][c.esp - 4 := c.eip]
  {
    var u, x := FrameAt(c.esp), c.esp - 4;
    assert x < u || x >= u + 52;
    Planted(s, c);
    var m := PlantEip(s).m;
    assert forall a :: u <= a < u + 48 ==> Get(m, a) == Get(s.m, a);
    Popped(PlantEip(s), c, u);
  }

  /** The frame, the argument of the handler and its return address. */
  function Enter(m: Mem, c: Cpu, va: int, err: int): Mem {
    var u := FrameAt(c.esp);
    PushFrame(m, c, va, err)[u - 4 := u][u - 8 := 0]     // pushl %esp; call *%eax
  }

  lemma EnterIntact(m: Mem, c: Cpu, va: int, err: int)
    ensures FrameIntact(Enter(m, c, va, err), c)
    ensures forall a :: FrameAt(c.esp) + FRAME <= a ==> Get(Enter(m, c, va, err), a) == Get(m, a)
  {
  }

  /** What the C handler finds when it starts: its argument points at the frame, and the frame begins
      with the fault address and the error code. */
  predicate Told(m: Mem, c: Cpu, va: int, err: int) {
    var u := FrameAt(c.esp);
    Get(m, u - 4) == u && Get(m, Get(m, u - 4)) == va && Get(m, Get(m, u - 4) + 4) == err
  }

  lemma EnterTells(m: Mem, c: Cpu, va: int, err: int)
    ensures Told(Enter(m, c, va, err), c, va, err)
  {
  }

  lemma FrameSurvives(m: Mem, m': Mem, c: Cpu)
    requires FrameIntact(m, c) && Keeps(m, m', FrameAt(c.esp)) && FrameAt(c.esp) + FRAME <= XTOP
    ensures FrameIntact(m', c)
  {
  }

  lemma TailKeeps(m: Mem, s: State, c: Cpu)
    requires s.c.esp == FrameAt(c.esp) && FrameIntact(s.m, c) && c.esp % 4 == 0 && Recursive(c.esp)
    requires Keeps(m, s.m, c.esp)
    ensures Keeps(m, Tail(s).m, c.esp)
  {
    TailRestores(s, c);
  }

  /** With the stack pointer exactly at UXSTACKTOP the kernel does not see a recursive fault, the scratch
      word is the saved stack pointer itself, and the state comes back only if eip happens to be the
      address of that word: returning is exact if and only if that case is avoided. */
  lemma TailExact(s: State, c: Cpu)
    requires s.c.esp == FrameAt(c.esp) && FrameIntact(s.m, c) && c.esp % 4 == 0
    ensures Tail(s).c == c <==> (c.esp != XTOP || c.eip == XTOP - 4)
  {
    if c.esp != XTOP {
      TailRestores(s, c);
    } else {
      Planted(s, c);
      var u, m := FrameAt(c.esp), PlantEip(s).m;
      assert u + 48 == XTOP - 4 && m == s.m[u + 48 := c.eip];
      assert Tail(s).c.esp == c.eip + 4 && Tail(s).c.eip == Get(m, c.eip);
    }
  }

  // ----- Handlers

  /** What a C handler does between call and return: stores, and faults of its own. */
  datatype Body =
    | Return(c: Cpu)                                                  // the registers it returns with
    | Poke(addr: int, val: int, next: Body)
    | Nested(at: Cpu, va: int, err: int, inner: Body, next: Body)

  /** A handler whose frame is at u stores only below u (its own stack) or outside the exception stack,
      and every fault it takes happens on the exception stack below u and fits. */
  predicate Behaves(body: Body, u: int) {
    match body
    case Return(c) => true
    case Poke(a, v, next) => (a < u || a >= XTOP) && Behaves(next, u)
    case Nested(at, va, err, inner, next) =>
      && XBASE + FRAME + 4 <= at.esp <= u && at.esp % 4 == 0
      && Behaves(inner, FrameAt(at.esp)) && Behaves(next, u)
  }

  /** One fault from trap to return: push the frame, call the handler, run the tail. */
  function HandleFault(c: Cpu, m: Mem, va: int, err: int, body: Body): State
    decreases body, 1
  {
    var (m', ret) := RunBody(body, Enter(m, c, va, err));
    Tail(State(ret.(esp := FrameAt(c.esp)), m'))           // addl $4, %esp has dropped the argument
  }

  /** The memory a handler leaves and the registers it returns with. */
  function RunBody(body: Body, m: Mem): (Mem, Cpu)
    decreases body, 0
  {
    match body
    case Return(c) => (m, c)
    case Poke(a, v, next) => RunBody(next, m[a := v])
    case Nested(at, va, err, inner, next) =>
      RunBody(next, HandleFault(at, m, va, err, inner).m)
  }

  /** Every word from `from` up to the top of the exception stack is the same. */
  ghost predicate Keeps(m: Mem, m': Mem, from: int) {
    forall a :: from <= a < XTOP ==> Get(m', a) == Get(m, a)
  }

  /** Whatever the handler does, to any depth of nested faults, the fault is invisible afterwards: every
      register, eflags, eip and esp has its trap-time value, and the exception stack is unchanged from
      the trap-time stack pointer up. */
  lemma {:induction false} FaultTransparent(c: Cpu, m: Mem, va: int, err: int, body: Body)
    requires c.esp % 4 == 0 && c.esp != XTOP
    requires Recursive(c.esp) ==> XBASE + FRAME + 4 <= c.esp
    requires Behaves(body, FrameAt(c.esp))
    ensures HandleFault(c, m, va, err, body).c == c
    ensures Recursive(c.esp) ==> Keeps(m, HandleFault(c, m, va, err, body).m, c.esp)
    decreases body, 1
  {
    var u, m1 := FrameAt(c.esp), Enter(m, c, va, err);
    EnterIntact(m, c, va, err);
    BodyKeepsFrames(body, m1, u);
    var (m2, ret) := RunBody(body, m1);
    FrameSurvives(m1, m2, c);
    var s := State(ret.(esp := u), m2);
    TailRestores(s, c);
    if Recursive(c.esp) {
      TailKeeps(m, s, c);
    }
  }

  lemma {:induction false} BodyKeepsFrames(body: Body, m: Mem, u: int)
    requires Behaves(body, u) && XBASE <= u <= XTOP - FRAME
    ensures Keeps(m, RunBody(body, m).0, u)
    decreases body, 0
  {
    match body
    case Return(_) =>
    case Poke(a, v, next) =>
      BodyKeepsFrames(next, m[a := v], u);
    case Nested(at, va, err, inner, next) =>
      FaultTransparent(at, m, va, err, inner);
      BodyKeepsFrames(next, HandleFault(at, m, va, err, inner).m, u);
  }

  /** One activation of the handler: the memory it starts with, and the fault it is for. */
  datatype Activation = Activation(m: Mem, at: Cpu, va: int, err: int)

  /** All activations of the handler during one fault, nested ones included. */
  function Activations(c: Cpu, m: Mem, va: int, err: int, body: Body): seq<Activation>
    decreases body, 1
  {
    [Activation(Enter(m, c, va, err), c, va, err)] + NestedIn(body, Enter(m, c, va, err))
  }

  function NestedIn(body: Body, m: Mem): seq<Activation>
    decreases body, 0
  {
    match body
    case Return(_) => []
    case Poke(a, v, next) => NestedIn(next, m[a := v])
    case Nested(at, va, err, inner, next) => Activations(at, m, va, err, inner) + NestedIn(next, HandleFault(at, m, va, err, inner).m)
  }

  /** At any depth, every activation of the handler starts with its own fault in hand. */
  lemma {:induction false} EveryoneTold(c: Cpu, m: Mem, va: int, err: int, body: Body)
    ensures forall x :: x in Activations(c, m, va, err, body) ==> Told(x.m, x.at, x.va, x.err)
    decreases body, 1
  {
    EnterTells(m, c, va, err);
    NestedTold(body, Enter(m, c, va, err));
  }

  lemma {:induction false} NestedTold(body: Body, m: Mem)
    ensures forall x :: x in NestedIn(body, m) ==> Told(x.m, x.at, x.va, x.err)
    decreases body, 0
  {
    match body
    case Return(_) =>
    case Poke(a, v, next) => NestedTold(next, m[a := v]);
    case Nested(at, va, err, inner, next) =>
      EveryoneTold(at, m, va, err, inner);
      NestedTold(next, HandleFault(at, m, va, err, inner).m);
  }

  /** And it still has it after anything it has done, nested faults included. */
  lemma StillTold(c: Cpu, m: Mem, va: int, err: int, body: Body)
    requires Recursive(c.esp) ==> XBASE + FRAME + 4 <= c.esp
    requires Behaves(body, FrameAt(c.esp))
    ensures var u, m' := FrameAt(c.esp), RunBody(body, Enter(m, c, va, err)).0; Get(m', u) == va && Get(m', u + 4) == err
  {
    EnterTells(m, c, va, err);
    BodyKeepsFrames(body, Enter(m, c, va, err), FrameAt(c.esp));
  }

  /** The frames of two nested faults and the scratch word between them do not overlap. */
  lemma FramesDisjoint(outer: Cpu, inner: Cpu)
    requires outer.esp % 4 == 0 && inner.esp % 4 == 0
    requires Recursive(outer.esp) ==> XBASE + FRAME + 4 <= outer.esp
    requires XBASE + FRAME + 4 <= inner.esp <= FrameAt(outer.esp)
    ensures XBASE <= FrameAt(inner.esp) < FrameAt(inner.esp) + FRAME == inner.esp - 4 < FrameAt(outer.esp)
    ensures FrameAt(outer.esp) + FRAME <= XTOP
  {
  }

  /** If a handler has moved its stack pointer off the exception stack page, the next fault destroys the
      frame of the outermost one: it survives only if both faults have the very same state. */
  lemma LostStackPointer(m: Mem, outer: Cpu, inner: Cpu, va: int, err: int)
    requires !Recursive(outer.esp) && !Recursive(inner.esp)
    ensures FrameIntact(Enter(m, inner, va, err), outer) <==> inner == outer
  {
    EnterIntact(m, inner, va, err);
  }
}
