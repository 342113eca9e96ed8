/**
 Copy-on-write fork (lib/fork.c) against a machine that really copies.

 The implementation machine interleaves, one system call or one memory access at a time, the steps
 of any number of environments: stores, the phases of the user page-fault handler `pgfault`, and the
 loop of `fork` with the two `sys_page_map` calls of `duppage` taken apart.  The specification
 machine has no physical pages: every (environment, virtual page) holds its own bytes, fork copies
 bytes, and only PTE_SHARE pages are common to a group.  `RunRefines` states that the two machines
 agree on every byte of every environment after every run.
 */
module CowFork {

  const PGSIZE: nat := 4096
  /** One past the last user virtual page number: UTOP / PGSIZE. */
  const UTOP_PAGES: nat := 0xEEC00
  /** Virtual page of PFTEMP, where the handler builds its private copy. */
  const PFTEMP: nat := 0x7FF
  /** Virtual page of the user exception stack: UXSTACKTOP / PGSIZE - 1. */
  const XSTACK: nat := 0xEEBFF

  datatype Option<T> = None | Some(value: T)

  type Page = seq<nat>

  function ZeroBytes(): (p: Page)
    ensures |p| == PGSIZE && forall i :: 0 <= i < PGSIZE ==> p[i] == 0
  {
    seq(PGSIZE, _ => 0)
  }

  // ----- The implementation machine

  datatype Perm = Perm(w: bool, cow: bool, share: bool)

  /** `twin` is auxiliary: a child's mapping made while the parent's own mapping was still writable. */
  datatype Pte = Pte(ppn: nat, perm: Perm, twin: bool)

  /** A virtual page of an environment. */
  datatype Slot = Slot(e: nat, v: nat)

  /** Where `fork` stands for the page it is visiting. */
  datatype Stage =
    | Look                // about to read the PTE
    | Loaded(perm: Perm)  // duppage has computed the child's permissions
    | Half(perm: Perm)    // mapped in the child, not yet remapped in the parent

  datatype Phase = Idle | Forking(child: nat, next: nat, stage: Stage)

  /** Where the page-fault handler stands; q is the page mapped at PFTEMP. */
  datatype Fault =
    | NoFault
    | Copying(v: nat, k: nat, q: nat)  // k bytes of page v copied to q
    | Moved(q: nat)                    // q also mapped in place of the old page

  /** `maker` is the parent of an environment that is still ENV_NOT_RUNNABLE. */
  datatype Proc = Proc(maker: Option<nat>, phase: Phase, fault: Fault)

  /** `pt` holds the user page tables of all environments, PFTEMP apart. */
  datatype Sys = Sys(pt: map<Slot, Pte>, procs: map<nat, Proc>, mem: map<nat, Page>)

  datatype Action =
    | Write(e: nat, v: nat, off: nat, b: nat)
    | FaultAlloc(e: nat, v: nat, q: nat)
    | FaultCopy(e: nat)
    | FaultMap(e: nat)
    | FaultUnmap(e: nat)
    | AllocPage(e: nat, v: nat, p: nat, share: bool)
    | Unmap(e: nat, v: nat)
    | ForkStart(e: nat, c: nat)
    | ForkLoad(e: nat, p: nat)
    | ForkMap(e: nat)
    | ForkRemap(e: nat)
    | ForkDone(e: nat)
    | Exit(e: nat)

  /** The permissions duppage gives the child for a page mapped with `perm`. */
  function DupPerm(perm: Perm): Perm {
    if perm.share then perm.(w := true)
    else if perm.w then perm.(w := false, cow := true)
    else perm
  }

  /** What page_alloc promises: nobody maps the page it returns. */
  ghost predicate Unreferenced(s: Sys, p: nat) {
    && (forall x :: x in s.pt ==> s.pt[x].ppn != p)
    && (forall e :: e in s.procs && !s.procs[e].fault.NoFault? ==> s.procs[e].fault.q != p)
  }

  predicate Running(s: Sys, e: nat) {
    e in s.procs && s.procs[e].maker.None?
  }

  predicate InFork(s: Sys, e: nat) {
    Running(s, e) && s.procs[e].phase.Forking? && s.procs[e].fault.NoFault?
  }

  predicate AtRest(s: Sys, e: nat) {
    Running(s, e) && s.procs[e].phase.Idle? && s.procs[e].fault.NoFault?
  }

  /** Which steps the hardware, the kernel and the library let environment `e` take. */
  ghost predicate Enabled(s: Sys, a: Action) {
    match a
    case Write(e, v, off, b) =>
      Running(s, e) && Slot(e, v) in s.pt && s.pt[Slot(e, v)].perm.w && off < PGSIZE
      && (s.procs[e].fault.NoFault? || v == XSTACK)
    case FaultAlloc(e, v, q) =>
      Running(s, e) && s.procs[e].fault.NoFault? && Slot(e, v) in s.pt
      && !s.pt[Slot(e, v)].perm.w && s.pt[Slot(e, v)].perm.cow && Unreferenced(s, q)
    case FaultCopy(e) =>
      Running(s, e) && s.procs[e].fault.Copying? && s.procs[e].fault.k < PGSIZE
    case FaultMap(e) =>
      Running(s, e) && s.procs[e].fault.Copying? && s.procs[e].fault.k == PGSIZE
    case FaultUnmap(e) =>
      Running(s, e) && s.procs[e].fault.Moved?
    case AllocPage(e, v, p, share) =>
      AtRest(s, e) && v < UTOP_PAGES && v != PFTEMP && Unreferenced(s, p)
    case Unmap(e, v) =>
      AtRest(s, e)
    case ForkStart(e, c) =>
      AtRest(s, e) && c !in s.procs
    case ForkLoad(e, p) =>
      InFork(s, e) && s.procs[e].phase.stage.Look? && s.procs[e].phase.next < UTOP_PAGES
      && (s.procs[e].phase.next == XSTACK ==> Unreferenced(s, p))
    case ForkMap(e) =>
      InFork(s, e) && s.procs[e].phase.stage.Loaded? && Slot(e, s.procs[e].phase.next) in s.pt
      && (s.procs[e].phase.stage.perm.w ==> s.pt[Slot(e, s.procs[e].phase.next)].perm.w)
    case ForkRemap(e) =>
      InFork(s, e) && s.procs[e].phase.stage.Half?
    case ForkDone(e) =>
      InFork(s, e) && s.procs[e].phase.stage.Look? && s.procs[e].phase.next == UTOP_PAGES
    case Exit(e) =>
      AtRest(s, e)
  }

  // ----- The invariant

  /** Every mapped page has its bytes; PTE_COW only marks private pages that have lost PTE_W. */
  ghost predicate PteOk(pt: map<Slot, Pte>, mem: map<nat, Page>, x: Slot)
    requires x in pt
  {
    && pt[x].ppn in mem && |mem[pt[x].ppn]| == PGSIZE
    && x.v < UTOP_PAGES && x.v != PFTEMP
    && (pt[x].perm.cow ==> !pt[x].perm.share && !pt[x].perm.w)
    && (pt[x].twin ==> pt[x].perm.cow)
  }

  ghost predicate PagesOk(pt: map<Slot, Pte>, mem: map<nat, Page>) {
    forall x :: x in pt ==> PteOk(pt, mem, x)
  }

  /** Two mappings of one physical page: both shared, or both read-only, or a writer and its twin. */
  predicate Compatible(a: Pte, b: Pte) {
    if a.perm.share || b.perm.share then a.perm.share && b.perm.share
    else if a.perm.w then !b.perm.w && b.twin
    else b.perm.w ==> a.twin
  }

  ghost predicate Discipline(pt: map<Slot, Pte>) {
    forall x, y :: x in pt && y in pt && x != y && pt[x].ppn == pt[y].ppn ==> Compatible(pt[x], pt[y])
  }

  /** A handler at work fills a page that only it can reach, from a page nobody can change. */
  ghost predicate FaultOk(s: Sys, e: nat)
    requires e in s.procs
  {
    s.procs[e].fault.Copying? ==>
      var Copying(v, k, q) := s.procs[e].fault;
      && Slot(e, v) in s.pt && s.pt[Slot(e, v)].perm == Perm(false, true, false) && !s.pt[Slot(e, v)].twin
      && k <= PGSIZE && q in s.mem && |s.mem[q]| == PGSIZE
      && (forall x :: x in s.pt ==> s.pt[x].ppn != q)
      && (forall e' :: e' in s.procs && e' != e && s.procs[e'].fault.Copying? ==> s.procs[e'].fault.q != q)
      && s.pt[Slot(e, v)].ppn in s.mem && |s.mem[s.pt[Slot(e, v)].ppn]| == PGSIZE
      && forall j :: 0 <= j < k ==> s.mem[q][j] == s.mem[s.pt[Slot(e, v)].ppn][j]
  }

  /** Parent and child under construction know each other. */
  ghost predicate FamilyOk(s: Sys, e: nat)
    requires e in s.procs
  {
    && (s.procs[e].phase.Forking? ==>
          && Running(s, e) && s.procs[e].phase.child in s.procs && s.procs[s.procs[e].phase.child].maker == Some(e)
          && s.procs[e].phase.next <= UTOP_PAGES)
    && (s.procs[e].maker.Some? ==>
          && s.procs[e].maker.value in s.procs
          && s.procs[s.procs[e].maker.value].phase.Forking? && s.procs[s.procs[e].maker.value].phase.child == e
          && s.procs[e].phase.Idle? && s.procs[e].fault.NoFault?)
  }

  /** The pages of the child: those of the parent the loop has passed, plus its own exception stack. */
  predicate Passed(s: Sys, e: nat, v: nat)
    requires e in s.procs && s.procs[e].phase.Forking?
  {
    var Forking(c, next, stage) := s.procs[e].phase;
    if v == XSTACK then XSTACK < next
    else Slot(e, v) in s.pt && (v < next || (v == next && stage.Half?))
  }

  ghost predicate ForkOk(s: Sys, e: nat)
    requires e in s.procs
  {
    s.procs[e].phase.Forking? ==>
      var Forking(c, next, stage) := s.procs[e].phase;
      var x, y := Slot(e, next), Slot(c, next);
      && (forall v: nat {:trigger Passed(s, e, v)} {:trigger Slot(c, v)} :: Slot(c, v) in s.pt <==> Passed(s, e, v))
      && (Slot(c, XSTACK) in s.pt ==> s.pt[Slot(c, XSTACK)].perm == Perm(true, false, false))
      && (stage.Loaded? ==>
            && x in s.pt && next != XSTACK
            && stage.perm.share == s.pt[x].perm.share
            && (if stage.perm.share then stage.perm == Perm(true, false, true)
                else !stage.perm.w && stage.perm.cow == (s.pt[x].perm.w || s.pt[x].perm.cow)))
      && (stage.Half? ==>
            && x in s.pt && y in s.pt && next != XSTACK
            && stage.perm == s.pt[y].perm == Perm(false, true, false)
            && !s.pt[x].perm.share && (s.pt[x].perm.w || s.pt[x].perm.cow)
            && (s.pt[y].twin ==> s.pt[x].perm.w && s.pt[x].ppn == s.pt[y].ppn))
  }

  /** Twins exist only where a fork is half-way through a page, and environments own what they map. */
  ghost predicate TwinOk(s: Sys, x: Slot)
    requires x in s.pt
  {
    && x.e in s.procs
    && (s.pt[x].twin ==>
          && s.procs[x.e].maker.Some? && s.procs[x.e].maker.value in s.procs
          && s.procs[s.procs[x.e].maker.value].phase.Forking?
          && s.procs[s.procs[x.e].maker.value].phase.stage.Half?
          && s.procs[s.procs[x.e].maker.value].phase.next == x.v)
  }

  ghost predicate ProcsOk(s: Sys) {
    && (forall x :: x in s.pt ==> TwinOk(s, x))
    && (forall e :: e in s.procs ==> FaultOk(s, e))
    && (forall e :: e in s.procs ==> FamilyOk(s, e))
    && (forall e :: e in s.procs ==> ForkOk(s, e))
  }

  ghost predicate Inv(s: Sys) {
    PagesOk(s.pt, s.mem) && Discipline(s.pt) && ProcsOk(s)
  }

  function SetFault(s: Sys, e: nat, f: Fault): Sys
    requires e in s.procs
  {
    s.(procs := s.procs[e := s.procs[e].(fault := f)])
  }

  function SetPhase(s: Sys, e: nat, ph: Phase): Sys
    requires e in s.procs
  {
    s.(procs := s.procs[e := s.procs[e].(phase := ph)])
  }

  function SetPte(s: Sys, x: Slot, pte: Pte): Sys {
    s.(pt := s.pt[x := pte])
  }

  function SetMem(s: Sys, p: nat, page: Page): Sys {
    s.(mem := s.mem[p := page])
  }

  /** The second sys_page_map of duppage: the parent loses PTE_W, and the child's entry is no twin any more. */
  function Remapped(s: Sys, e: nat, c: nat, v: nat, perm: Perm): Sys
    requires e in s.procs && Slot(e, v) in s.pt && Slot(c, v) in s.pt
  {
    var s1 := SetPte(s, Slot(e, v), s.pt[Slot(e, v)].(perm := perm));
    SetPhase(SetPte(s1, Slot(c, v), s1.pt[Slot(c, v)].(twin := false)), e, Forking(c, v + 1, Look))
  }

  ghost function Next(s: Sys, a: Action): Sys
    requires Inv(s) && Enabled(s, a)
  {
    match a
    case Write(e, v, off, b) =>
      assert PteOk(s.pt, s.mem, Slot(e, v));
      var p := s.pt[Slot(e, v)].ppn;
      SetMem(s, p, s.mem[p][off := b])
    case FaultAlloc(e, v, q) =>
      SetFault(SetMem(s, q, ZeroBytes()), e, Copying(v, 0, q))
    case FaultCopy(e) =>
      assert FaultOk(s, e);
      var Copying(v, k, q) := s.procs[e].fault;
      SetFault(SetMem(s, q, s.mem[q][k := s.mem[s.pt[Slot(e, v)].ppn][k]]), e, Copying(v, k + 1, q))
    case FaultMap(e) =>
      var Copying(v, k, q) := s.procs[e].fault;
      SetFault(SetPte(s, Slot(e, v), Pte(q, Perm(true, false, false), false)), e, Moved(q))
    case FaultUnmap(e) =>
      SetFault(s, e, NoFault)
    case AllocPage(e, v, p, share) =>
      SetPte(SetMem(s, p, ZeroBytes()), Slot(e, v), Pte(p, Perm(true, false, share), false))
    case Unmap(e, v) =>
      s.(pt := s.pt - {Slot(e, v)})
    case ForkStart(e, c) =>
      SetPhase(s.(procs := s.procs[c := Proc(Some(e), Idle, NoFault)]), e, Forking(c, 0, Look))
    case ForkLoad(e, p) =>
      var Forking(c, v, _) := s.procs[e].phase;
      if v == XSTACK then
        SetPhase(SetPte(SetMem(s, p, ZeroBytes()), Slot(c, v), Pte(p, Perm(true, false, false), false)), e,
                 Forking(c, v + 1, Look))
      else if Slot(e, v) !in s.pt then
        SetPhase(s, e, Forking(c, v + 1, Look))
      else
        SetPhase(s, e, Forking(c, v, Loaded(DupPerm(s.pt[Slot(e, v)].perm))))
    case ForkMap(e) =>
      var Forking(c, v, Loaded(perm)) := s.procs[e].phase;
      var pte := s.pt[Slot(e, v)];
      SetPhase(SetPte(s, Slot(c, v), Pte(pte.ppn, perm, perm.cow && pte.perm.w)), e,
               if perm.cow then Forking(c, v, Half(perm)) else Forking(c, v + 1, Look))
    case ForkRemap(e) =>
      assert ForkOk(s, e);
      var Forking(c, v, Half(perm)) := s.procs[e].phase;
      Remapped(s, e, c, v, perm)
    case ForkDone(e) =>
      assert FamilyOk(s, e);
      var c := s.procs[e].phase.child;
      var s1 := SetPhase(s, e, Idle);
      s1.(procs := s1.procs[c := s1.procs[c].(maker := None)])
    case Exit(e) =>
      s.(pt := map x | x in s.pt && x.e != e :: s.pt[x], procs := s.procs - {e})
  }

  // ----- The specification machine

  /** The bytes an environment sees at one virtual page; `group` names a PTE_SHARE group. */
  datatype Cell = Cell(bytes: Page, rw: bool, group: Option<nat>)

  type Spec = map<Slot, Cell>

  datatype Label =
    | Tau
    | Store(x: Slot, off: nat, b: nat)
    | Fresh(x: Slot, group: Option<nat>)
    | Drop(x: Slot)
    | Copy(x: Slot, c: nat)
    | Quit(e: nat)

  predicate Allowed(t: Spec, l: Label) {
    match l
    case Tau => true
    case Store(x, off, b) => x in t && t[x].rw && off < PGSIZE && forall y :: y in t ==> |t[y].bytes| == PGSIZE
    case Fresh(x, group) => group.Some? ==> forall y :: y in t ==> t[y].group != group
    case Drop(x) => true
    case Copy(x, c) => x in t && Slot(c, x.v) !in t
    case Quit(e) => true
  }

  /** A store reaches one cell, or the whole group of a shared page; fork copies the bytes. */
  function Apply(t: Spec, l: Label): Spec
    requires Allowed(t, l)
  {
    match l
    case Tau => t
    case Store(x, off, b) =>
      map y | y in t ::
        if y == x || (t[y].group.Some? && t[y].group == t[x].group)
        then t[y].(bytes := t[y].bytes[off := b]) else t[y]
    case Fresh(x, group) => t[x := Cell(ZeroBytes(), true, group)]
    case Drop(x) => t - {x}
    case Copy(x, c) => t[Slot(c, x.v) := t[x]]
    case Quit(e) => map y | y in t && y.e != e :: t[y]
  }

  // ----- Abstraction

  function CellOf(pte: Pte, mem: map<nat, Page>): Cell
    requires pte.ppn in mem
  {
    Cell(mem[pte.ppn], pte.perm.w || pte.perm.cow, if pte.perm.share then Some(pte.ppn) else None)
  }

  /** What every environment sees: all its pages, except a page fork has not finished handing over. */
  ghost function View(pt: map<Slot, Pte>, mem: map<nat, Page>): Spec
    requires PagesOk(pt, mem)
  {
    map x | x in pt && !pt[x].twin :: (assert PteOk(pt, mem, x); CellOf(pt[x], mem))
  }

  ghost function Abs(s: Sys): Spec
    requires PagesOk(s.pt, s.mem)
  {
    View(s.pt, s.mem)
  }

  /** What one implementation step means: the copy of a page happens at ForkMap, or at ForkRemap when
      the parent could still write the page in between. */
  ghost function Meaning(s: Sys, a: Action): Label
    requires Inv(s) && Enabled(s, a)
  {
    match a
    case Write(e, v, off, b) => Store(Slot(e, v), off, b)
    case AllocPage(e, v, p, share) => Fresh(Slot(e, v), if share then Some(p) else None)
    case Unmap(e, v) => Drop(Slot(e, v))
    case ForkLoad(e, p) =>
      if s.procs[e].phase.next == XSTACK then Fresh(Slot(s.procs[e].phase.child, XSTACK), None) else Tau
    case ForkMap(e) =>
      var Forking(c, v, Loaded(perm)) := s.procs[e].phase;
      if perm.cow && s.pt[Slot(e, v)].perm.w then Tau else Copy(Slot(e, v), c)
    case ForkRemap(e) =>
      assert ForkOk(s, e);
      var Forking(c, v, Half(perm)) := s.procs[e].phase;
      if s.pt[Slot(c, v)].twin then Copy(Slot(e, v), c) else Tau
    case Exit(e) => Quit(e)
    case _ => Tau
  }

  ghost predicate Simulates(s: Sys, a: Action)
    requires Inv(s) && Enabled(s, a)
  {
    && Inv(Next(s, a))
    && Allowed(Abs(s), Meaning(s, a))
    && Abs(Next(s, a)) == Apply(Abs(s), Meaning(s, a))
  }

  // ----- Updating one page-table entry

  /** Pages other than the one mapped by slot x keep their bytes. */
  ghost predicate KeepsBytes(pt: map<Slot, Pte>, mem: map<nat, Page>, x: Slot, mem': map<nat, Page>) {
    forall y :: y in pt && y != x ==>
      pt[y].ppn in mem && pt[y].ppn in mem' && mem'[pt[y].ppn] == mem[pt[y].ppn]
  }

  lemma SetPtes(pt: map<Slot, Pte>, mem: map<nat, Page>, x: Slot, pte: Pte, mem': map<nat, Page>)
    requires PagesOk(pt, mem) && KeepsBytes(pt, mem, x, mem') && PteOk(pt[x := pte], mem', x)
    ensures PagesOk(pt[x := pte], mem')
    ensures View(pt[x := pte], mem') ==
            if pte.twin then View(pt, mem) - {x} else View(pt, mem)[x := CellOf(pte, mem')]
  {
  }

  lemma SetPages(pt: map<Slot, Pte>, mem: map<nat, Page>, x: Slot, pte: Pte, mem': map<nat, Page>)
    requires PagesOk(pt, mem) && Discipline(pt) && KeepsBytes(pt, mem, x, mem') && PteOk(pt[x := pte], mem', x)
    requires forall y :: y in pt && y != x && pt[y].ppn == pte.ppn ==> Compatible(pt[y], pte)
    ensures PagesOk(pt[x := pte], mem') && Discipline(pt[x := pte])
    ensures View(pt[x := pte], mem') ==
            if pte.twin then View(pt, mem) - {x} else View(pt, mem)[x := CellOf(pte, mem')]
  {
    SetPtes(pt, mem, x, pte, mem');
  }

  lemma KeepPages(pt: map<Slot, Pte>, mem: map<nat, Page>, mem': map<nat, Page>)
    requires PagesOk(pt, mem)
    requires forall y :: y in pt ==> pt[y].ppn in mem' && mem'[pt[y].ppn] == mem[pt[y].ppn]
    ensures PagesOk(pt, mem') && View(pt, mem') == View(pt, mem)
  {
  }

  /** A store through a writable entry changes the bytes of one page, which nobody but the writer and
      the group of a shared page can see. */
  lemma StoreView(pt: map<Slot, Pte>, mem: map<nat, Page>, x: Slot, off: nat, b: nat)
    requires PagesOk(pt, mem) && Discipline(pt) && x in pt && pt[x].perm.w && !pt[x].twin && off < PGSIZE
    requires PteOk(pt, mem, x)
    ensures var page: Page := mem[pt[x].ppn][off := b];
            var mem' := mem[pt[x].ppn := page];
            && PagesOk(pt, mem') && Allowed(View(pt, mem), Store(x, off, b))
            && View(pt, mem') == Apply(View(pt, mem), Store(x, off, b))
  {
    var p := pt[x].ppn;
    var page: Page := mem[p][off := b];
    var mem' := mem[p := page];
    forall y | y in pt ensures PteOk(pt, mem', y) { assert PteOk(pt, mem, y); }
    var t, t' := View(pt, mem), View(pt, mem');
    forall y | y in t ensures |t[y].bytes| == PGSIZE { assert PteOk(pt, mem, y); }
    forall y | y in t' ensures t'[y] == Apply(t, Store(x, off, b))[y] {
      assert PteOk(pt, mem, y);
      if y != x && pt[y].ppn == p { assert Compatible(pt[x], pt[y]); }
    }
  }

  lemma DropPages(pt: map<Slot, Pte>, mem: map<nat, Page>, gone: set<Slot>)
    requires PagesOk(pt, mem) && Discipline(pt)
    ensures PagesOk(pt - gone, mem) && Discipline(pt - gone) && View(pt - gone, mem) == View(pt, mem) - gone
  {
  }

  // ----- Every step keeps the invariant and means what its label says

  predicate SameEntry(pt: map<Slot, Pte>, pt': map<Slot, Pte>, x: Slot) {
    (x in pt <==> x in pt') && (x in pt ==> pt[x] == pt'[x])
  }

  /** Outside a fork, an environment may change its fault state and its own pages. */
  ghost predicate OwnStep(s: Sys, s': Sys, e: nat) {
    && Running(s, e) && e in s'.procs && s'.procs == s.procs[e := s.procs[e].(fault := s'.procs[e].fault)]
    && (s'.pt == s.pt ||
        (&& s.procs[e].phase.Idle?
         && (forall x :: x in s'.pt && x.e == e ==> !s'.pt[x].twin)
         && (forall x: Slot :: x.e != e ==> SameEntry(s.pt, s'.pt, x))))
  }

  lemma TwinsKept(s: Sys, s': Sys, e: nat)
    requires Inv(s) && OwnStep(s, s', e)
    ensures forall x :: x in s'.pt ==> TwinOk(s', x)
  {
    forall x | x in s'.pt ensures TwinOk(s', x) {
      if x.e != e || s'.pt == s.pt { assert SameEntry(s.pt, s'.pt, x); assert TwinOk(s, x); }
    }
  }

  lemma FamiliesKept(s: Sys, s': Sys, e: nat)
    requires Inv(s) && OwnStep(s, s', e)
    ensures forall z :: z in s'.procs ==> FamilyOk(s', z)
  {
  }

  lemma ForksKept(s: Sys, s': Sys, e: nat)
    requires Inv(s) && OwnStep(s, s', e)
    ensures forall z :: z in s'.procs ==> ForkOk(s', z)
  {
    forall z | z in s'.procs && s'.procs[z].phase.Forking? ensures ForkOk(s', z) {
      assert ForkOk(s, z) && FamilyOk(s, z);
      var Forking(c, next, stage) := s.procs[z].phase;
      forall u: nat ensures SameEntry(s.pt, s'.pt, Slot(c, u)) && SameEntry(s.pt, s'.pt, Slot(z, u)) {}
      forall u: nat ensures Slot(c, u) in s'.pt <==> Passed(s', z, u) { assert Passed(s, z, u) == Passed(s', z, u); }
    }
  }

  lemma OwnStepKeeps(s: Sys, s': Sys, e: nat)
    requires Inv(s) && OwnStep(s, s', e) && forall z :: z in s'.procs ==> FaultOk(s', z)
    ensures ProcsOk(s')
  {
    TwinsKept(s, s', e);
    FamiliesKept(s, s', e);
    ForksKept(s, s', e);
  }

  lemma WriteProcs(s: Sys, e: nat, v: nat, off: nat, b: nat)
    requires Inv(s) && Enabled(s, Write(e, v, off, b))
    ensures ProcsOk(Next(s, Write(e, v, off, b)))
  {
    var s' := Next(s, Write(e, v, off, b));
    var x := Slot(e, v);
    assert PteOk(s.pt, s.mem, x);
    forall z | z in s'.procs ensures FaultOk(s', z) {
      assert FaultOk(s, z);
      if s.procs[z].fault.Copying? {
        var y := Slot(z, s.procs[z].fault.v);
        assert s.pt[y].ppn != s.pt[x].ppn;
      }
    }
    OwnStepKeeps(s, s', e);
  }

  lemma WriteStep(s: Sys, e: nat, v: nat, off: nat, b: nat)
    requires Inv(s) && Enabled(s, Write(e, v, off, b))
    ensures Simulates(s, Write(e, v, off, b))
  {
    WriteProcs(s, e, v, off, b);
    assert TwinOk(s, Slot(e, v));
    StoreView(s.pt, s.mem, Slot(e, v), off, b);
  }

  lemma FaultAllocProcs(s: Sys, e: nat, v: nat, q: nat)
    requires Inv(s) && Enabled(s, FaultAlloc(e, v, q))
    ensures ProcsOk(Next(s, FaultAlloc(e, v, q)))
  {
    var s' := Next(s, FaultAlloc(e, v, q));
    assert PteOk(s.pt, s.mem, Slot(e, v)) && TwinOk(s, Slot(e, v));
    forall z | z in s'.procs ensures FaultOk(s', z) { assert FaultOk(s, z); }
    OwnStepKeeps(s, s', e);
  }

  lemma FaultAllocStep(s: Sys, e: nat, v: nat, q: nat)
    requires Inv(s) && Enabled(s, FaultAlloc(e, v, q))
    ensures Simulates(s, FaultAlloc(e, v, q))
  {
    FaultAllocProcs(s, e, v, q);
    KeepPages(s.pt, s.mem, Next(s, FaultAlloc(e, v, q)).mem);
  }

  lemma FaultCopyProcs(s: Sys, e: nat)
    requires Inv(s) && Enabled(s, FaultCopy(e))
    ensures ProcsOk(Next(s, FaultCopy(e)))
  {
    var s' := Next(s, FaultCopy(e));
    assert FaultOk(s, e);
    forall z | z in s'.procs ensures FaultOk(s', z) { assert FaultOk(s, z); }
    OwnStepKeeps(s, s', e);
  }

  lemma FaultCopyStep(s: Sys, e: nat)
    requires Inv(s) && Enabled(s, FaultCopy(e))
    ensures Simulates(s, FaultCopy(e))
  {
    FaultCopyProcs(s, e);
    assert FaultOk(s, e);
    KeepPages(s.pt, s.mem, Next(s, FaultCopy(e)).mem);
  }

  lemma FaultMapForks(s: Sys, e: nat)
    requires Inv(s) && Enabled(s, FaultMap(e))
    ensures var s' := Next(s, FaultMap(e)); forall z :: z in s'.procs ==> ForkOk(s', z)
  {
    var s' := Next(s, FaultMap(e));
    forall z | z in s'.procs && s'.procs[z].phase.Forking? ensures ForkOk(s', z) {
      assert z in s.procs ==> ForkOk(s, z) && FamilyOk(s, z);
      var d := s'.procs[z].phase.child;
      forall u: nat ensures Slot(d, u) in s'.pt <==> Passed(s', z, u) {
        if z in s.procs && s.procs[z].phase.Forking? { assert Passed(s, z, u) || !Passed(s, z, u); }
      }
    }
  }

  lemma FaultMapProcs(s: Sys, e: nat)
    requires Inv(s) && Enabled(s, FaultMap(e))
    ensures ProcsOk(Next(s, FaultMap(e)))
  {
    var s' := Next(s, FaultMap(e));
    forall x | x in s'.pt ensures TwinOk(s', x) { assert x in s.pt ==> TwinOk(s, x); }
    forall z | z in s'.procs ensures FaultOk(s', z) && FamilyOk(s', z) {
      assert z in s.procs ==> FaultOk(s, z) && FamilyOk(s, z);
    }
    FaultMapForks(s, e);
  }

  lemma FaultMapStep(s: Sys, e: nat)
    requires Inv(s) && Enabled(s, FaultMap(e))
    ensures Simulates(s, FaultMap(e))
  {
    FaultMapProcs(s, e);
    var s' := Next(s, FaultMap(e));
    assert FaultOk(s, e);
    var Copying(v, k, q) := s.procs[e].fault;
    var x := Slot(e, v);
    assert PteOk(s.pt, s.mem, x);
    SetPages(s.pt, s.mem, x, s'.pt[x], s.mem);
    assert s.mem[q] == s.mem[s.pt[x].ppn];
  }

  lemma FaultUnmapStep(s: Sys, e: nat)
    requires Inv(s) && Enabled(s, FaultUnmap(e))
    ensures Simulates(s, FaultUnmap(e))
  {
    var s' := Next(s, FaultUnmap(e));
    forall z | z in s'.procs ensures FaultOk(s', z) { assert FaultOk(s, z); }
    OwnStepKeeps(s, s', e);
  }

  lemma AllocPageProcs(s: Sys, e: nat, v: nat, p: nat, share: bool)
    requires Inv(s) && Enabled(s, AllocPage(e, v, p, share))
    ensures ProcsOk(Next(s, AllocPage(e, v, p, share)))
  {
    var s' := Next(s, AllocPage(e, v, p, share));
    forall x | x in s'.pt && x.e == e ensures !s'.pt[x].twin { assert x in s.pt ==> TwinOk(s, x); }
    forall z | z in s'.procs ensures FaultOk(s', z) { assert FaultOk(s, z); }
    OwnStepKeeps(s, s', e);
  }

  lemma AllocPageStep(s: Sys, e: nat, v: nat, p: nat, share: bool)
    requires Inv(s) && Enabled(s, AllocPage(e, v, p, share))
    ensures Simulates(s, AllocPage(e, v, p, share))
  {
    AllocPageProcs(s, e, v, p, share);
    var s' := Next(s, AllocPage(e, v, p, share));
    SetPages(s.pt, s.mem, Slot(e, v), s'.pt[Slot(e, v)], s'.mem);
  }

  lemma UnmapProcs(s: Sys, e: nat, v: nat)
    requires Inv(s) && Enabled(s, Unmap(e, v))
    ensures ProcsOk(Next(s, Unmap(e, v)))
  {
    var s' := Next(s, Unmap(e, v));
    forall x | x in s'.pt && x.e == e ensures !s'.pt[x].twin { assert TwinOk(s, x); }
    forall z | z in s'.procs ensures FaultOk(s', z) { assert FaultOk(s, z); }
    OwnStepKeeps(s, s', e);
  }

  lemma UnmapStep(s: Sys, e: nat, v: nat)
    requires Inv(s) && Enabled(s, Unmap(e, v))
    ensures Simulates(s, Unmap(e, v))
  {
    UnmapProcs(s, e, v);
    DropPages(s.pt, s.mem, {Slot(e, v)});
  }

  lemma ForkStartForks(s: Sys, e: nat, c: nat)
    requires Inv(s) && Enabled(s, ForkStart(e, c))
    ensures var s' := Next(s, ForkStart(e, c)); forall z :: z in s'.procs ==> ForkOk(s', z)
  {
    var s' := Next(s, ForkStart(e, c));
    forall z | z in s'.procs && s'.procs[z].phase.Forking? ensures ForkOk(s', z) {
      assert z in s.procs ==> ForkOk(s, z) && FamilyOk(s, z);
      var d := s'.procs[z].phase.child;
      forall u: nat ensures Slot(d, u) in s'.pt <==> Passed(s', z, u) {
        if z in s.procs && s.procs[z].phase.Forking? { assert Passed(s, z, u) || !Passed(s, z, u); }
      }
    }
  }

  lemma ForkStartFaults(s: Sys, e: nat, c: nat)
    requires Inv(s) && Enabled(s, ForkStart(e, c))
    ensures var s' := Next(s, ForkStart(e, c)); forall z :: z in s'.procs ==> FaultOk(s', z)
  {
    var s' := Next(s, ForkStart(e, c));
    forall z | z in s'.procs ensures FaultOk(s', z) { assert z in s.procs ==> FaultOk(s, z); }
  }

  lemma ForkStartFamily(s: Sys, e: nat, c: nat)
    requires Inv(s) && Enabled(s, ForkStart(e, c))
    ensures var s' := Next(s, ForkStart(e, c));
            && (forall x :: x in s'.pt ==> TwinOk(s', x))
            && (forall z :: z in s'.procs ==> FamilyOk(s', z))
  {
    var s' := Next(s, ForkStart(e, c));
    forall x | x in s'.pt ensures TwinOk(s', x) { assert TwinOk(s, x); }
    forall z | z in s'.procs ensures FamilyOk(s', z) { assert z in s.procs ==> FamilyOk(s, z); }
  }

  lemma ForkStartStep(s: Sys, e: nat, c: nat)
    requires Inv(s) && Enabled(s, ForkStart(e, c))
    ensures Simulates(s, ForkStart(e, c))
  {
    ForkStartFaults(s, e, c);
    ForkStartFamily(s, e, c);
    ForkStartForks(s, e, c);
  }

  lemma ForkLoadFaults(s: Sys, e: nat, p: nat)
    requires Inv(s) && Enabled(s, ForkLoad(e, p))
    ensures var s' := Next(s, ForkLoad(e, p)); forall z :: z in s'.procs ==> FaultOk(s', z)
  {
    var s' := Next(s, ForkLoad(e, p));
    assert FamilyOk(s, e) && ForkOk(s, e);
    forall z | z in s'.procs ensures FaultOk(s', z) { assert FaultOk(s, z) && FamilyOk(s, z); }
  }

  lemma ForkLoadTwins(s: Sys, e: nat, p: nat)
    requires Inv(s) && Enabled(s, ForkLoad(e, p))
    ensures var s' := Next(s, ForkLoad(e, p)); forall x :: x in s'.pt ==> TwinOk(s', x)
  {
    var s' := Next(s, ForkLoad(e, p));
    assert FamilyOk(s, e);
    forall x | x in s'.pt ensures TwinOk(s', x) { assert x in s.pt ==> TwinOk(s, x); }
  }

  lemma ForkLoadFamily(s: Sys, e: nat, p: nat)
    requires Inv(s) && Enabled(s, ForkLoad(e, p))
    ensures var s' := Next(s, ForkLoad(e, p)); forall z :: z in s'.procs ==> FamilyOk(s', z)
  {
    var s' := Next(s, ForkLoad(e, p));
    forall z | z in s'.procs ensures FamilyOk(s', z) { assert FamilyOk(s, z); }
  }

  /** A step of the fork of e touches pages of e and of its child only: no other fork is concerned. */
  lemma OtherFork(s: Sys, s': Sys, e: nat, z: nat)
    requires Inv(s) && e in s.procs && s.procs[e].phase.Forking? && z in s.procs && z in s'.procs && z != e
    requires s'.procs[z].phase == s.procs[z].phase
    requires forall x: Slot :: x.e != e && x.e != s.procs[e].phase.child ==> SameEntry(s.pt, s'.pt, x)
    ensures ForkOk(s', z)
  {
  }

  lemma ForkLoadOwn(s: Sys, e: nat, p: nat)
    requires Inv(s) && Enabled(s, ForkLoad(e, p))
    ensures ForkOk(Next(s, ForkLoad(e, p)), e)
  {
    var s' := Next(s, ForkLoad(e, p));
    assert FamilyOk(s, e) && ForkOk(s, e);
    var c, v := s.procs[e].phase.child, s.procs[e].phase.next;
    assert Slot(e, v) in s.pt ==> PteOk(s.pt, s.mem, Slot(e, v));
    forall u: nat ensures Slot(c, u) in s'.pt <==> Passed(s', e, u) { assert Slot(c, u) in s.pt <==> Passed(s, e, u); }
  }

  lemma ForkLoadForks(s: Sys, e: nat, p: nat)
    requires Inv(s) && Enabled(s, ForkLoad(e, p))
    ensures var s' := Next(s, ForkLoad(e, p)); forall z :: z in s'.procs ==> ForkOk(s', z)
  {
    ForkLoadOwn(s, e, p);
    var s', c := Next(s, ForkLoad(e, p)), s.procs[e].phase.child;
    assert forall x: Slot :: x.e != e && x.e != c ==> SameEntry(s.pt, s'.pt, x);
    forall z | z in s'.procs && z != e ensures ForkOk(s', z) { OtherFork(s, s', e, z); }
  }

  lemma ForkLoadPages(s: Sys, e: nat, p: nat)
    requires Inv(s) && Enabled(s, ForkLoad(e, p))
    ensures var s' := Next(s, ForkLoad(e, p));
            var x := Slot(s.procs[e].phase.child, XSTACK);
            && PagesOk(s'.pt, s'.mem) && Discipline(s'.pt)
            && Abs(s') == if s.procs[e].phase.next == XSTACK then Abs(s)[x := Cell(ZeroBytes(), true, None)] else Abs(s)
  {
    var s' := Next(s, ForkLoad(e, p));
    var x := Slot(s.procs[e].phase.child, XSTACK);
    if s.procs[e].phase.next == XSTACK { SetPages(s.pt, s.mem, x, s'.pt[x], s'.mem); }
  }

  lemma ForkLoadStep(s: Sys, e: nat, p: nat)
    requires Inv(s) && Enabled(s, ForkLoad(e, p))
    ensures Simulates(s, ForkLoad(e, p))
  {
    ForkLoadFaults(s, e, p);
    ForkLoadTwins(s, e, p);
    ForkLoadFamily(s, e, p);
    ForkLoadForks(s, e, p);
    ForkLoadPages(s, e, p);
  }

  /** A step of fork that maps no new page disturbs no page fault in progress. */
  lemma FaultsUntouched(s: Sys, s': Sys, e: nat, c: nat)
    requires s'.mem == s.mem && e in s.procs && s.procs[e].fault.NoFault? && c in s.procs && s.procs[c].fault.NoFault?
    requires forall z :: z in s.procs ==> FaultOk(s, z)
    requires s'.procs.Keys == s.procs.Keys && forall z :: z in s.procs ==> s'.procs[z].fault == s.procs[z].fault
    requires forall x: Slot :: x.e != e && x.e != c ==> SameEntry(s.pt, s'.pt, x)
    requires forall x :: x in s'.pt && (x.e == e || x.e == c) ==>
               (x in s.pt && s'.pt[x].ppn == s.pt[x].ppn) || (Slot(e, x.v) in s.pt && s'.pt[x].ppn == s.pt[Slot(e, x.v)].ppn)
    ensures forall z :: z in s'.procs ==> FaultOk(s', z)
  {
    forall z | z in s'.procs ensures FaultOk(s', z) {
      assert FaultOk(s, z);
      if s.procs[z].fault.Copying? {
        var q := s.procs[z].fault.q;
        assert SameEntry(s.pt, s'.pt, Slot(z, s.procs[z].fault.v));
        forall x | x in s'.pt ensures s'.pt[x].ppn != q { assert x.e != e && x.e != c ==> SameEntry(s.pt, s'.pt, x); }
      }
    }
  }

  lemma ForkMapFaults(s: Sys, e: nat)
    requires Inv(s) && Enabled(s, ForkMap(e))
    ensures var s' := Next(s, ForkMap(e)); forall z :: z in s'.procs ==> FaultOk(s', z)
  {
    var s' := Next(s, ForkMap(e));
    assert FamilyOk(s, e) && ForkOk(s, e);
    var c := s.procs[e].phase.child;
    assert FamilyOk(s, c);
    FaultsUntouched(s, s', e, c);
  }

  lemma ForkMapFamily(s: Sys, e: nat)
    requires Inv(s) && Enabled(s, ForkMap(e))
    ensures var s' := Next(s, ForkMap(e));
            && (forall x :: x in s'.pt ==> TwinOk(s', x))
            && (forall z :: z in s'.procs ==> FamilyOk(s', z))
  {
    var s' := Next(s, ForkMap(e));
    assert FamilyOk(s, e) && ForkOk(s, e);
    forall x | x in s'.pt ensures TwinOk(s', x) { assert x in s.pt ==> TwinOk(s, x) && FamilyOk(s, x.e); }
    forall z | z in s'.procs ensures FamilyOk(s', z) { assert FamilyOk(s, z); }
  }

  lemma ForkMapOwn(s: Sys, e: nat)
    requires Inv(s) && Enabled(s, ForkMap(e))
    ensures ForkOk(Next(s, ForkMap(e)), e)
  {
    var s' := Next(s, ForkMap(e));
    assert FamilyOk(s, e) && ForkOk(s, e);
    var c, v := s.procs[e].phase.child, s.procs[e].phase.next;
    assert PteOk(s.pt, s.mem, Slot(e, v));
    forall u: nat ensures Slot(c, u) in s'.pt <==> Passed(s', e, u) { assert Slot(c, u) in s.pt <==> Passed(s, e, u); }
  }

  lemma ForkMapForks(s: Sys, e: nat)
    requires Inv(s) && Enabled(s, ForkMap(e))
    ensures var s' := Next(s, ForkMap(e)); forall z :: z in s'.procs ==> ForkOk(s', z)
  {
    ForkMapOwn(s, e);
    var s', c := Next(s, ForkMap(e)), s.procs[e].phase.child;
    assert forall x: Slot :: x.e != e && x.e != c ==> SameEntry(s.pt, s'.pt, x);
    forall z | z in s'.procs && z != e ensures ForkOk(s', z) { OtherFork(s, s', e, z); }
  }

  lemma ForkMapPages(s: Sys, e: nat)
    requires Inv(s) && Enabled(s, ForkMap(e))
    ensures var s' := Next(s, ForkMap(e));
            var Forking(c, v, Loaded(perm)) := s.procs[e].phase;
            && PagesOk(s'.pt, s'.mem) && Discipline(s'.pt)
            && Slot(c, v) !in s.pt && !s.pt[Slot(e, v)].twin
            && Abs(s') == if perm.cow && s.pt[Slot(e, v)].perm.w then Abs(s)
                          else Abs(s)[Slot(c, v) := CellOf(s.pt[Slot(e, v)], s.mem)]
  {
    var s' := Next(s, ForkMap(e));
    assert ForkOk(s, e) && FamilyOk(s, e);
    var Forking(c, v, Loaded(perm)) := s.procs[e].phase;
    assert PteOk(s.pt, s.mem, Slot(e, v)) && TwinOk(s, Slot(e, v));
    assert !Passed(s, e, v);
    SetPages(s.pt, s.mem, Slot(c, v), s'.pt[Slot(c, v)], s.mem);
  }

  lemma ForkMapStep(s: Sys, e: nat)
    requires Inv(s) && Enabled(s, ForkMap(e))
    ensures Simulates(s, ForkMap(e))
  {
    ForkMapFaults(s, e);
    ForkMapFamily(s, e);
    ForkMapForks(s, e);
    ForkMapPages(s, e);
  }

  lemma RemapFaults(s: Sys, e: nat, c: nat, v: nat, perm: Perm)
    requires e in s.procs && Slot(e, v) in s.pt && Slot(c, v) in s.pt && c in s.procs
    requires s.procs[e].fault.NoFault? && s.procs[c].fault.NoFault? && forall z :: z in s.procs ==> FaultOk(s, z)
    ensures var s' := Remapped(s, e, c, v, perm); forall z :: z in s'.procs ==> FaultOk(s', z)
  {
    FaultsUntouched(s, Remapped(s, e, c, v, perm), e, c);
  }

  lemma ForkRemapFaults(s: Sys, e: nat)
    requires Inv(s) && Enabled(s, ForkRemap(e))
    ensures var s' := Next(s, ForkRemap(e)); forall z :: z in s'.procs ==> FaultOk(s', z)
  {
    assert FamilyOk(s, e) && ForkOk(s, e);
    var Forking(c, v, Half(perm)) := s.procs[e].phase;
    assert FamilyOk(s, c);
    RemapFaults(s, e, c, v, perm);
  }

  lemma ForkRemapFamily(s: Sys, e: nat)
    requires Inv(s) && Enabled(s, ForkRemap(e))
    ensures var s' := Next(s, ForkRemap(e));
            && (forall x :: x in s'.pt ==> TwinOk(s', x))
            && (forall z :: z in s'.procs ==> FamilyOk(s', z))
  {
    var s' := Next(s, ForkRemap(e));
    assert FamilyOk(s, e) && ForkOk(s, e);
    forall x | x in s'.pt ensures TwinOk(s', x) { assert x in s.pt ==> TwinOk(s, x) && FamilyOk(s, x.e); }
    forall z | z in s'.procs ensures FamilyOk(s', z) { assert FamilyOk(s, z); }
  }

  lemma ForkRemapForks(s: Sys, e: nat)
    requires Inv(s) && Enabled(s, ForkRemap(e))
    ensures var s' := Next(s, ForkRemap(e)); forall z :: z in s'.procs ==> ForkOk(s', z)
  {
    ForkRemapOwn(s, e);
    var s', c := Next(s, ForkRemap(e)), s.procs[e].phase.child;
    assert forall x: Slot :: x.e != e && x.e != c ==> SameEntry(s.pt, s'.pt, x);
    forall z | z in s'.procs && z != e ensures ForkOk(s', z) { OtherFork(s, s', e, z); }
  }

  lemma ForkRemapOwn(s: Sys, e: nat)
    requires Inv(s) && Enabled(s, ForkRemap(e))
    ensures ForkOk(Next(s, ForkRemap(e)), e)
  {
    var s' := Next(s, ForkRemap(e));
    assert FamilyOk(s, e) && ForkOk(s, e);
    var c := s.procs[e].phase.child;
    forall u: nat ensures Slot(c, u) in s'.pt <==> Passed(s', e, u) { assert Slot(c, u) in s.pt <==> Passed(s, e, u); }
  }

  /** The two entries duppage leaves behind: the parent's without PTE_W, and the child's no twin. */
  lemma ParentRemapped(s: Sys, e: nat)
    requires Inv(s) && Enabled(s, ForkRemap(e))
    ensures var Forking(c, v, Half(perm)) := s.procs[e].phase;
            var x, y := Slot(e, v), Slot(c, v);
            && x in s.pt && y in s.pt && !s.pt[x].twin && perm == s.pt[y].perm && (s.pt[y].twin ==> s.pt[x].ppn == s.pt[y].ppn)
            && var pte := s.pt[x].(perm := perm);
               && PagesOk(s.pt[x := pte], s.mem) && Discipline(s.pt[x := pte])
               && View(s.pt[x := pte], s.mem) == Abs(s)
  {
    assert ForkOk(s, e) && FamilyOk(s, e);
    var Forking(c, v, Half(perm)) := s.procs[e].phase;
    var x := Slot(e, v);
    assert PteOk(s.pt, s.mem, x) && TwinOk(s, x);
    SetPages(s.pt, s.mem, x, s.pt[x].(perm := perm), s.mem);
  }

  lemma ForkRemapPages(s: Sys, e: nat)
    requires Inv(s) && Enabled(s, ForkRemap(e))
    ensures var s' := Next(s, ForkRemap(e));
            var Forking(c, v, Half(perm)) := s.procs[e].phase;
            && PagesOk(s'.pt, s'.mem) && Discipline(s'.pt)
            && Slot(e, v) in s.pt && !s.pt[Slot(e, v)].twin && Slot(c, v) in s.pt
            && Abs(s') == if s.pt[Slot(c, v)].twin then Abs(s)[Slot(c, v) := CellOf(s.pt[Slot(e, v)], s.mem)]
                          else Abs(s)
  {
    var s' := Next(s, ForkRemap(e));
    assert ForkOk(s, e) && FamilyOk(s, e);
    ParentRemapped(s, e);
    var Forking(c, v, Half(perm)) := s.procs[e].phase;
    var x, y := Slot(e, v), Slot(c, v);
    var pt := s.pt[x := s'.pt[x]];
    assert PteOk(s.pt, s.mem, y) && PteOk(pt, s.mem, y);
    SetPages(pt, s.mem, y, s'.pt[y], s.mem);
  }

  lemma ForkRemapStep(s: Sys, e: nat)
    requires Inv(s) && Enabled(s, ForkRemap(e))
    ensures Simulates(s, ForkRemap(e))
  {
    ForkRemapFaults(s, e);
    ForkRemapFamily(s, e);
    ForkRemapForks(s, e);
    ForkRemapPages(s, e);
  }

  lemma ForkDoneFaults(s: Sys, e: nat)
    requires Inv(s) && Enabled(s, ForkDone(e))
    ensures var s' := Next(s, ForkDone(e)); forall z :: z in s'.procs ==> FaultOk(s', z)
  {
    var s' := Next(s, ForkDone(e));
    assert FamilyOk(s, e) && ForkOk(s, e);
    forall z | z in s'.procs ensures FaultOk(s', z) { assert FaultOk(s, z) && FamilyOk(s, z); }
  }

  lemma ForkDoneFamily(s: Sys, e: nat)
    requires Inv(s) && Enabled(s, ForkDone(e))
    ensures var s' := Next(s, ForkDone(e));
            && (forall x :: x in s'.pt ==> TwinOk(s', x))
            && (forall z :: z in s'.procs ==> FamilyOk(s', z))
  {
    var s' := Next(s, ForkDone(e));
    assert FamilyOk(s, e) && ForkOk(s, e);
    forall x | x in s'.pt ensures TwinOk(s', x) { assert x in s.pt ==> TwinOk(s, x) && FamilyOk(s, x.e); }
    forall z | z in s'.procs ensures FamilyOk(s', z) { assert FamilyOk(s, z); }
  }

  lemma ForkDoneForks(s: Sys, e: nat)
    requires Inv(s) && Enabled(s, ForkDone(e))
    ensures var s' := Next(s, ForkDone(e)); forall z :: z in s'.procs ==> ForkOk(s', z)
  {
  }

  lemma ForkDoneStep(s: Sys, e: nat)
    requires Inv(s) && Enabled(s, ForkDone(e))
    ensures Simulates(s, ForkDone(e))
  {
    ForkDoneFaults(s, e);
    ForkDoneFamily(s, e);
    ForkDoneForks(s, e);
  }

  lemma ExitProcs(s: Sys, e: nat)
    requires Inv(s) && Enabled(s, Exit(e))
    ensures ProcsOk(Next(s, Exit(e)))
  {
    var s' := Next(s, Exit(e));
    forall x | x in s'.pt ensures TwinOk(s', x) {
      if x in s.pt { assert TwinOk(s, x); }
    }
    forall z | z in s'.procs ensures FaultOk(s', z) && FamilyOk(s', z) && ForkOk(s', z) {
      if z in s.procs { assert FaultOk(s, z) && FamilyOk(s, z) && ForkOk(s, z); }
      if s'.procs[z].phase.Forking? {
        forall u: nat ensures Slot(s'.procs[z].phase.child, u) in s'.pt <==> Passed(s', z, u) {
          if z in s.procs && s.procs[z].phase.Forking? { assert Passed(s, z, u) || !Passed(s, z, u); }
        }
      }
    }
  }

  lemma ExitPages(s: Sys, e: nat)
    requires Inv(s) && Enabled(s, Exit(e))
    ensures var s' := Next(s, Exit(e));
            PagesOk(s'.pt, s'.mem) && Discipline(s'.pt) && Abs(s') == Apply(Abs(s), Quit(e))
  {
    var gone := set x | x in s.pt && x.e == e;
    assert Next(s, Exit(e)).pt == s.pt - gone;
    DropPages(s.pt, s.mem, gone);
  }

  lemma ExitStep(s: Sys, e: nat)
    requires Inv(s) && Enabled(s, Exit(e))
    ensures Simulates(s, Exit(e))
  {
    ExitProcs(s, e);
    ExitPages(s, e);
  }

  /** Every step of the copy-on-write machine is the step of the copying machine that its label names. */
  lemma StepRefines(s: Sys, a: Action)
    requires Inv(s) && Enabled(s, a)
    ensures Inv(Next(s, a))
    ensures Allowed(Abs(s), Meaning(s, a))
    ensures Abs(Next(s, a)) == Apply(Abs(s), Meaning(s, a))
  {
    match a
    case Write(e, v, off, b) => WriteStep(s, e, v, off, b);
    case FaultAlloc(e, v, q) => FaultAllocStep(s, e, v, q);
    case FaultCopy(e) => FaultCopyStep(s, e);
    case FaultMap(e) => FaultMapStep(s, e);
    case FaultUnmap(e) => FaultUnmapStep(s, e);
    case AllocPage(e, v, p, share) => AllocPageStep(s, e, v, p, share);
    case Unmap(e, v) => UnmapStep(s, e, v);
    case ForkStart(e, c) => ForkStartStep(s, e, c);
    case ForkLoad(e, p) => ForkLoadStep(s, e, p);
    case ForkMap(e) => ForkMapStep(s, e);
    case ForkRemap(e) => ForkRemapStep(s, e);
    case ForkDone(e) => ForkDoneStep(s, e);
    case Exit(e) => ExitStep(s, e);
  }

  // ----- Whole runs

  /** The states of a run: each enabled action in turn. */
  ghost predicate IsRun(s: Sys, run: seq<Action>)
    requires Inv(s)
    decreases |run|
  {
    run == [] ||
    (Enabled(s, run[0]) && (StepRefines(s, run[0]); IsRun(Next(s, run[0]), run[1..])))
  }

  ghost function Final(s: Sys, run: seq<Action>): (s': Sys)
    requires Inv(s) && IsRun(s, run)
    ensures Inv(s')
    decreases |run|
  {
    if run == [] then s else (StepRefines(s, run[0]); Final(Next(s, run[0]), run[1..]))
  }

  /** The labels of a run, the visible history of stores, allocations and copies. */
  ghost function Trace(s: Sys, run: seq<Action>): (ls: seq<Label>)
    requires Inv(s) && IsRun(s, run)
    ensures |ls| == |run|
    decreases |run|
  {
    if run == [] then []
    else (StepRefines(s, run[0]); [Meaning(s, run[0])] + Trace(Next(s, run[0]), run[1..]))
  }

  predicate AllAllowed(t: Spec, ls: seq<Label>)
    decreases |ls|
  {
    ls == [] || (Allowed(t, ls[0]) && AllAllowed(Apply(t, ls[0]), ls[1..]))
  }

  function ApplyAll(t: Spec, ls: seq<Label>): Spec
    requires AllAllowed(t, ls)
    decreases |ls|
  {
    if ls == [] then t else ApplyAll(Apply(t, ls[0]), ls[1..])
  }

  /** After any interleaving, every environment sees exactly what it would see had fork copied every page. */
  lemma {:induction false} RunRefines(s: Sys, run: seq<Action>)
    requires Inv(s) && IsRun(s, run)
    ensures AllAllowed(Abs(s), Trace(s, run))
    ensures Abs(Final(s, run)) == ApplyAll(Abs(s), Trace(s, run))
    decreases |run|
  {
    if run != [] {
      StepRefines(s, run[0]);
      RunRefines(Next(s, run[0]), run[1..]);
      assert Trace(s, run)[1..] == Trace(Next(s, run[0]), run[1..]);
    }
  }

  /** Where runs start: one environment at rest whose pages are its own. */
  lemma StartInv(s: Sys, e: nat)
    requires s.procs == map[e := Proc(None, Idle, NoFault)] && PagesOk(s.pt, s.mem)
    requires forall x :: x in s.pt ==> x.e == e && !s.pt[x].perm.cow && !s.pt[x].twin
    requires forall x, y :: x in s.pt && y in s.pt && s.pt[x].ppn == s.pt[y].ppn ==> x == y
    ensures Inv(s) && Running(s, e)
  {
  }

  // ----- Fork as a snapshot

  /** What fork has given the child c is what the parent e still has, but for the pages in `stored`;
      and the exception stack of the child, once there, is a fresh page. */
  ghost predicate Copied(t: Spec, e: nat, c: nat, stored: set<nat>) {
    && (forall v: nat {:trigger Slot(c, v)} :: Slot(c, v) in t && v != XSTACK && v !in stored ==>
          Slot(e, v) in t && t[Slot(c, v)] == t[Slot(e, v)])
    && (Slot(c, XSTACK) in t ==> t[Slot(c, XSTACK)] == Cell(ZeroBytes(), true, None))
  }

  /** The step is a store of e to a page of its own of which c already has the copy. */
  predicate StoresOwn(t: Spec, l: Label, e: nat, c: nat) {
    l.Store? && l.x.e == e && l.x in t && t[l.x].group.None? && Slot(c, l.x.v) in t
  }

  /** A step that touches no page of c, and of e at most by storing to it. */
  predicate Spares(t: Spec, l: Label, e: nat, c: nat) {
    match l
    case Tau => true
    case Store(x, off, b) => x.e != c
    case Fresh(x, group) => x.e != e && (x.e == c ==> x.v == XSTACK && group == None)
    case Drop(x) => x.e != e && x.e != c
    case Copy(x, d) => d != e && (d == c ==> x.e == e && x.v != XSTACK)
    case Quit(d) => d != e && d != c
  }

  lemma SparedCopy(t: Spec, l: Label, e: nat, c: nat, stored: set<nat>)
    requires e != c && Allowed(t, l) && Spares(t, l, e, c) && Copied(t, e, c, stored)
    ensures Copied(Apply(t, l), e, c, if StoresOwn(t, l, e, c) then stored + {l.x.v} else stored)
  {
    var t' := Apply(t, l);
    forall v: nat | Slot(c, v) in t' && v != XSTACK && v !in stored && !(StoresOwn(t, l, e, c) && v == l.x.v)
      ensures Slot(e, v) in t' && t'[Slot(c, v)] == t'[Slot(e, v)]
    {
      assert Slot(c, v) in t ==> Slot(e, v) in t && t[Slot(c, v)] == t[Slot(e, v)];
    }
  }

  /** While fork runs, every step of every environment spares the child in this sense, and the fork
      goes on until its last step. */
  lemma ForkIsSpared(s: Sys, a: Action, e: nat)
    requires Inv(s) && Enabled(s, a) && e in s.procs && s.procs[e].phase.Forking? && a != ForkDone(e)
    ensures e != s.procs[e].phase.child && Spares(Abs(s), Meaning(s, a), e, s.procs[e].phase.child)
    ensures IsForking(Next(s, a), e, s.procs[e].phase.child)
  {
    ForkGoesOn(s, a, e);
    assert FamilyOk(s, e) && FamilyOk(s, s.procs[e].phase.child) && FamilyOk(s, a.e);
    assert ForkOk(s, a.e);
  }

  lemma ForkGoesOn(s: Sys, a: Action, e: nat)
    requires Inv(s) && Enabled(s, a) && e in s.procs && s.procs[e].phase.Forking? && a != ForkDone(e)
    ensures IsForking(Next(s, a), e, s.procs[e].phase.child)
  {
    assert FamilyOk(s, e) && FamilyOk(s, a.e);
  }

  /** The pages of its own that e stores to in a run after c has got the copy. */
  ghost function StoredSince(s: Sys, run: seq<Action>, e: nat, c: nat): set<nat>
    requires Inv(s) && IsRun(s, run)
    decreases |run|
  {
    if run == [] then {}
    else
      StepRefines(s, run[0]);
      var l := Meaning(s, run[0]);
      (if StoresOwn(Abs(s), l, e, c) then {l.x.v} else {}) + StoredSince(Next(s, run[0]), run[1..], e, c)
  }

  predicate IsForking(s: Sys, e: nat, c: nat) { e in s.procs && s.procs[e].phase.Forking? && s.procs[e].phase.child == c }

  lemma SnapshotStep(s: Sys, a: Action, e: nat, c: nat, stored: set<nat>) returns (now: set<nat>)
    requires Inv(s) && Enabled(s, a) && IsForking(s, e, c) && a != ForkDone(e) && Copied(Abs(s), e, c, stored)
    ensures Inv(Next(s, a)) && IsForking(Next(s, a), e, c) && Copied(Abs(Next(s, a)), e, c, now)
    ensures var l := Meaning(s, a); now == stored + if StoresOwn(Abs(s), l, e, c) then {l.x.v} else {}
  {
    var l := Meaning(s, a);
    StepRefines(s, a);
    ForkIsSpared(s, a, e);
    SparedCopy(Abs(s), l, e, c, stored);
    now := stored + if StoresOwn(Abs(s), l, e, c) then {l.x.v} else {};
    assert !StoresOwn(Abs(s), l, e, c) ==> now == stored;
  }

  /** Over any stretch of a run in which the fork of e goes on, the child stays a copy of its parent, page
      by page, as long as the parent has not stored to the page since. */
  lemma {:induction false} SnapshotKept(s: Sys, run: seq<Action>, e: nat, c: nat, stored: set<nat>)
    requires Inv(s) && IsRun(s, run) && IsForking(s, e, c) && ForkDone(e) !in run && Copied(Abs(s), e, c, stored)
    ensures IsForking(Final(s, run), e, c)
    ensures Copied(Abs(Final(s, run)), e, c, stored + StoredSince(s, run, e, c))
    decreases |run|
  {
    if run == [] {
      assert stored + StoredSince(s, run, e, c) == stored;
    } else {
      var a := run[0];
      var now := SnapshotStep(s, a, e, c, stored);
      SnapshotKept(Next(s, a), run[1..], e, c, now);
      assert now + StoredSince(Next(s, a), run[1..], e, c) == stored + StoredSince(s, run, e, c);
    }
  }

  /** Nothing is copied yet when fork starts. */
  lemma ForkStartsEmpty(s: Sys, e: nat, c: nat)
    requires Inv(s) && Enabled(s, ForkStart(e, c))
    ensures var s' := Next(s, ForkStart(e, c)); Inv(s') && IsForking(s', e, c) && Copied(Abs(s'), e, c, {})
  {
    StepRefines(s, ForkStart(e, c));
    var s' := Next(s, ForkStart(e, c));
    assert ForkOk(s', e);
    forall v: nat ensures Slot(c, v) !in s'.pt { assert !Passed(s', e, v); }
  }

  /** When fork marks the child runnable it has a page exactly where its parent has one, and its own
      exception stack. */
  lemma ForkComplete(s: Sys, e: nat)
    requires Inv(s) && Enabled(s, ForkDone(e))
    ensures var s', c := Next(s, ForkDone(e)), s.procs[e].phase.child;
            && Inv(s') && Running(s', c) && Abs(s') == Abs(s)
            && Slot(c, XSTACK) in s'.pt && s'.pt[Slot(c, XSTACK)].perm.w
            && (forall v: nat {:trigger Slot(c, v)} :: Slot(c, v) in Abs(s') <==> v == XSTACK || Slot(e, v) in Abs(s'))
  {
    StepRefines(s, ForkDone(e));
    var s', c := Next(s, ForkDone(e)), s.procs[e].phase.child;
    assert ForkOk(s, e) && FamilyOk(s, e);
    forall v: nat ensures Slot(c, v) in Abs(s') <==> v == XSTACK || Slot(e, v) in Abs(s') {
      assert Slot(c, v) in s.pt <==> Passed(s, e, v);
      if Slot(c, v) in s.pt { assert TwinOk(s, Slot(c, v)); }
      if Slot(e, v) in s.pt { assert TwinOk(s, Slot(e, v)) && PteOk(s.pt, s.mem, Slot(e, v)); }
    }
  }

  /** c has a page exactly where e has one, the same but for the pages in `stored`, and an exception
      stack of its own. */
  ghost predicate IsSnapshot(t: Spec, e: nat, c: nat, stored: set<nat>) {
    && (forall v: nat {:trigger Slot(c, v)} :: Slot(c, v) in t <==> v == XSTACK || Slot(e, v) in t)
    && Slot(c, XSTACK) in t && t[Slot(c, XSTACK)] == Cell(ZeroBytes(), true, None)
    && (forall v: nat {:trigger Slot(c, v)} :: Slot(e, v) in t && v != XSTACK && v !in stored ==>
          Slot(c, v) in t && t[Slot(c, v)] == t[Slot(e, v)])
  }

  lemma CopiedAll(t: Spec, e: nat, c: nat, stored: set<nat>)
    requires Copied(t, e, c, stored)
    requires forall v: nat {:trigger Slot(c, v)} :: Slot(c, v) in t <==> v == XSTACK || Slot(e, v) in t
    ensures IsSnapshot(t, e, c, stored)
  {
  }

  /** A whole fork, from its first step to its last, with anything going on in between: when the child
      becomes runnable it has a page exactly where its parent has one, with the same bytes and rights
      unless the parent has stored to that page since it was copied, and a fresh exception stack. */
  lemma ForkSnapshot(s: Sys, e: nat, c: nat, run: seq<Action>)
    requires Inv(s) && Enabled(s, ForkStart(e, c)) && Inv(Next(s, ForkStart(e, c)))
    requires IsRun(Next(s, ForkStart(e, c)), run) && ForkDone(e) !in run
    requires Enabled(Final(Next(s, ForkStart(e, c)), run), ForkDone(e))
    ensures var s1 := Next(s, ForkStart(e, c));
            var s2 := Next(Final(s1, run), ForkDone(e));
            Inv(s2) && Running(s2, c) && IsSnapshot(Abs(s2), e, c, StoredSince(s1, run, e, c))
  {
    ForkStartsEmpty(s, e, c);
    RestOfFork(Next(s, ForkStart(e, c)), e, c, run);
  }

  lemma RestOfFork(s: Sys, e: nat, c: nat, run: seq<Action>)
    requires Inv(s) && IsForking(s, e, c) && Copied(Abs(s), e, c, {})
    requires IsRun(s, run) && ForkDone(e) !in run && Enabled(Final(s, run), ForkDone(e))
    ensures var s' := Next(Final(s, run), ForkDone(e));
            Inv(s') && Running(s', c) && IsSnapshot(Abs(s'), e, c, StoredSince(s, run, e, c))
  {
    SnapshotKept(s, run, e, c, {});
    assert {} + StoredSince(s, run, e, c) == StoredSince(s, run, e, c);
    LastStep(Final(s, run), e, c, StoredSince(s, run, e, c));
  }

  lemma LastStep(s: Sys, e: nat, c: nat, stored: set<nat>)
    requires Inv(s) && IsForking(s, e, c) && Copied(Abs(s), e, c, stored) && Enabled(s, ForkDone(e))
    ensures var s' := Next(s, ForkDone(e)); Inv(s') && Running(s', c) && IsSnapshot(Abs(s'), e, c, stored)
  {
    ForkComplete(s, e);
    CopiedAll(Abs(s), e, c, stored);
  }

  // ----- A permitted store happens

  /** e is in the handler for a store to page v; after the remap the page is writable. */
  predicate Handling(s: Sys, e: nat, v: nat) {
    && Running(s, e) && Slot(e, v) in s.pt
    && match s.procs[e].fault
       case NoFault => false
       case Copying(u, k, q) => u == v && k <= PGSIZE
       case Moved(q) => s.pt[Slot(e, v)].perm.w
  }

  /** The steps the handler still has to take. */
  function Remaining(s: Sys, e: nat): nat
    requires e in s.procs
  {
    match s.procs[e].fault
    case NoFault => 0
    case Copying(_, k, _) => if k <= PGSIZE then PGSIZE - k + 2 else 0
    case Moved(_) => 1
  }

  /** The next step of the handler, which nobody can disable. */
  function HandlerStep(s: Sys, e: nat): Action
    requires e in s.procs
  {
    match s.procs[e].fault
    case Copying(_, k, _) => if k < PGSIZE then FaultCopy(e) else FaultMap(e)
    case _ => FaultUnmap(e)
  }

  /** The store goes through: the page is mapped writable and no handler is at work. */
  predicate CanStore(s: Sys, e: nat, v: nat) {
    Running(s, e) && s.procs[e].fault.NoFault? && Slot(e, v) in s.pt && s.pt[Slot(e, v)].perm.w
  }

  lemma OthersLeaveProc(s: Sys, a: Action, e: nat)
    requires Inv(s) && Enabled(s, a) && a.e != e && Running(s, e)
    ensures e in Next(s, a).procs && Next(s, a).procs[e] == s.procs[e]
  {
    assert FamilyOk(s, a.e);
  }

  predicate ForkStepOf(a: Action) { a.ForkLoad? || a.ForkMap? || a.ForkRemap? }

  lemma OthersLeavePage(s: Sys, a: Action, e: nat, v: nat)
    requires Inv(s) && Enabled(s, a) && a.e != e && Running(s, e) && !ForkStepOf(a)
    ensures SameEntry(s.pt, Next(s, a).pt, Slot(e, v))
  {
  }

  lemma ForksLeavePage(s: Sys, a: Action, e: nat, v: nat)
    requires Inv(s) && Enabled(s, a) && a.e != e && Running(s, e) && ForkStepOf(a)
    ensures SameEntry(s.pt, Next(s, a).pt, Slot(e, v))
  {
    assert FamilyOk(s, a.e) && ForkOk(s, a.e);
  }

  /** Whatever other environments do, the pages and the state of a running environment are its own. */
  lemma OthersLeave(s: Sys, a: Action, e: nat)
    requires Inv(s) && Enabled(s, a) && a.e != e && Running(s, e)
    ensures e in Next(s, a).procs && Next(s, a).procs[e] == s.procs[e]
    ensures forall v: nat {:trigger Slot(e, v)} :: SameEntry(s.pt, Next(s, a).pt, Slot(e, v))
  {
    OthersLeaveProc(s, a, e);
    forall v: nat ensures SameEntry(s.pt, Next(s, a).pt, Slot(e, v)) {
      if ForkStepOf(a) { ForksLeavePage(s, a, e, v); } else { OthersLeavePage(s, a, e, v); }
    }
  }

  lemma HandlerEnabled(s: Sys, e: nat, v: nat)
    requires Inv(s) && Handling(s, e, v)
    ensures Enabled(s, HandlerStep(s, e)) && Remaining(s, e) > 0
  {
  }

  /** Each step of the handler leaves one less to take, and after the last the store goes through. */
  lemma HandlerGoesOn(s: Sys, e: nat, v: nat)
    requires Inv(s) && Handling(s, e, v) && Enabled(s, HandlerStep(s, e))
    ensures var s' := Next(s, HandlerStep(s, e));
            && e in s'.procs && Remaining(s', e) == Remaining(s, e) - 1
            && if Remaining(s, e) > 1 then Handling(s', e, v) else CanStore(s', e, v)
  {
    assert FaultOk(s, e);
  }

  /** What e does in a run: its handler runs, and may store to its exception stack. */
  predicate InHandler(a: Action, e: nat) {
    a.e == e ==> a.FaultCopy? || a.FaultMap? || a.FaultUnmap? || (a.Write? && a.v == XSTACK)
  }

  predicate AllInHandler(run: seq<Action>, e: nat) { run == [] || (InHandler(run[0], e) && AllInHandler(run[1..], e)) }

  function HandlerSteps(run: seq<Action>, e: nat): nat {
    if run == [] then 0 else (if run[0].e == e && !run[0].Write? then 1 else 0) + HandlerSteps(run[1..], e)
  }

  /** One step of a run, of the handler or of anybody else. */
  lemma HandlerOrOther(s: Sys, a: Action, e: nat, v: nat)
    requires Inv(s) && Enabled(s, a) && InHandler(a, e) && (Handling(s, e, v) || CanStore(s, e, v))
    ensures var s' := Next(s, a);
            && Inv(s') && (Handling(s', e, v) || CanStore(s', e, v))
            && Remaining(s', e) == Remaining(s, e) - (if a.e == e && !a.Write? then 1 else 0)
  {
    StepRefines(s, a);
    if a.e != e {
      OthersLeave(s, a, e);
      assert SameEntry(s.pt, Next(s, a).pt, Slot(e, v));
    } else if !a.Write? {
      assert Handling(s, e, v) && a == HandlerStep(s, e);
      HandlerGoesOn(s, e, v);
    }
  }

  /** Whatever the other environments do meanwhile, a handler that takes the steps it still has to take
      returns to a page that the store can be made to. */
  lemma {:induction false} HandlerReturns(s: Sys, run: seq<Action>, e: nat, v: nat)
    requires Inv(s) && IsRun(s, run) && (Handling(s, e, v) || CanStore(s, e, v)) && AllInHandler(run, e)
    ensures HandlerSteps(run, e) <= Remaining(s, e)
    ensures HandlerSteps(run, e) == Remaining(s, e) ==> CanStore(Final(s, run), e, v)
    decreases |run|
  {
    if run != [] {
      HandlerOrOther(s, run[0], e, v);
      HandlerReturns(Next(s, run[0]), run[1..], e, v);
    }
  }

  /** The whole handler, from the fault on. */
  function WholeHandler(e: nat, v: nat, q: nat): seq<Action> { [FaultAlloc(e, v, q)] + RestOfHandler(e, 0) }

  function RestOfHandler(e: nat, k: nat): (run: seq<Action>)
    ensures |run| > 0
    decreases PGSIZE - k
  {
    if k < PGSIZE then [FaultCopy(e)] + RestOfHandler(e, k + 1) else [FaultMap(e), FaultUnmap(e)]
  }

  lemma HandlerReady(s: Sys, a: Action, e: nat, v: nat)
    requires Inv(s) && Handling(s, e, v) && a == HandlerStep(s, e)
    ensures Enabled(s, a) && Inv(Next(s, a)) && e in Next(s, a).procs && Remaining(Next(s, a), e) == Remaining(s, e) - 1
    ensures if Remaining(s, e) > 1 then Handling(Next(s, a), e, v) else CanStore(Next(s, a), e, v)
    ensures s.procs[e].fault.Copying? && s.procs[e].fault.k < PGSIZE ==>
              Next(s, a).procs[e].fault == Copying(s.procs[e].fault.v, s.procs[e].fault.k + 1, s.procs[e].fault.q)
    ensures s.procs[e].fault.Copying? && s.procs[e].fault.k == PGSIZE ==> Next(s, a).procs[e].fault.Moved?
  {
    HandlerEnabled(s, e, v);
    HandlerGoesOn(s, e, v);
    StepRefines(s, a);
  }

  lemma {:induction false} RestRuns(s: Sys, e: nat, v: nat, k: nat, q: nat)
    requires Inv(s) && Handling(s, e, v) && s.procs[e].fault == Copying(v, k, q)
    ensures IsRun(s, RestOfHandler(e, k)) && CanStore(Final(s, RestOfHandler(e, k)), e, v)
    decreases PGSIZE - k
  {
    var run := RestOfHandler(e, k);
    HandlerReady(s, run[0], e, v);
    var s' := Next(s, run[0]);
    if k < PGSIZE {
      assert run[1..] == RestOfHandler(e, k + 1);
      RestRuns(s', e, v, k + 1, q);
    } else {
      assert run[1..] == [FaultUnmap(e)];
      LastOfHandler(s', e, v);
    }
  }

  lemma LastOfHandler(s: Sys, e: nat, v: nat)
    requires Inv(s) && Handling(s, e, v) && s.procs[e].fault.Moved?
    ensures IsRun(s, [FaultUnmap(e)]) && CanStore(Final(s, [FaultUnmap(e)]), e, v)
  {
    HandlerReady(s, FaultUnmap(e), e, v);
    assert [FaultUnmap(e)][1..] == [];
  }

  lemma FaultStarts(s: Sys, e: nat, v: nat, q: nat)
    requires Inv(s) && Enabled(s, FaultAlloc(e, v, q))
    ensures var s' := Next(s, FaultAlloc(e, v, q)); Inv(s') && Handling(s', e, v) && s'.procs[e].fault == Copying(v, 0, q)
  {
    StepRefines(s, FaultAlloc(e, v, q));
  }

  /** Every store that the copying machine permits can be made: at once, or after the handler has run,
      which it can do from start to end. */
  lemma StoreGoesThrough(s: Sys, e: nat, v: nat, off: nat, b: nat, q: nat)
    requires Inv(s) && Running(s, e) && s.procs[e].fault.NoFault? && Unreferenced(s, q) && off < PGSIZE
    requires Slot(e, v) in Abs(s) && Abs(s)[Slot(e, v)].rw
    ensures Enabled(s, Write(e, v, off, b)) ||
            (IsRun(s, WholeHandler(e, v, q)) && Enabled(Final(s, WholeHandler(e, v, q)), Write(e, v, off, b)))
  {
    if !s.pt[Slot(e, v)].perm.w {
      var a, run := FaultAlloc(e, v, q), WholeHandler(e, v, q);
      FaultStarts(s, e, v, q);
      RestRuns(Next(s, a), e, v, 0, q);
      assert run[0] == a && run[1..] == RestOfHandler(e, 0);
    }
  }

  /** The next step of fork for e; q is the page for the exception stack of the child. */
  function ForkStep(s: Sys, e: nat, q: nat): Action
    requires e in s.procs && s.procs[e].phase.Forking?
  {
    match s.procs[e].phase.stage
    case Look => if s.procs[e].phase.next < UTOP_PAGES then ForkLoad(e, q) else ForkDone(e)
    case Loaded(_) => ForkMap(e)
    case Half(_) => ForkRemap(e)
  }

  /** A fork never gets stuck, unless a page is marked PTE_SHARE without being writable: then the
      permissions duppage computes are refused. */
  lemma ForkCanGoOn(s: Sys, e: nat, q: nat)
    requires Inv(s) && InFork(s, e) && Unreferenced(s, q)
    ensures Enabled(s, ForkStep(s, e, q)) <==>
            (s.procs[e].phase.stage.Loaded? && s.procs[e].phase.stage.perm.share ==> s.pt[Slot(e, s.procs[e].phase.next)].perm.w)
  {
    assert ForkOk(s, e) && FamilyOk(s, e);
  }
}
