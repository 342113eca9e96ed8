/**
 The page allocator, the page tables and the environments of the kernel (kern/pmap.c, kern/env.c,
 kern/syscall.c), and the agreement between pp_ref, the free list and who maps what.
 */
module KernelMemory {
  import opened Environments
  import opened Paging
  import EnvIds

  const E_BAD_ENV := -2
  const E_INVAL := -3
  const E_NO_MEM := -4
  const E_NO_FREE_ENV := -5
  const E_IPC_NOT_RECV := -7

  /** Starting at `head`, the links visit exactly `list`, without a cycle. */
  ghost predicate Chain(link: seq<int>, head: int, list: seq<nat>)
    decreases |list|
  {
    if list == [] then head == -1
    else head == list[0] && head < |link| && head !in list[1..] && Chain(link, link[head], list[1..])
  }

  lemma {:induction false} ChainFrame(link: seq<int>, head: int, list: seq<nat>, p: nat, x: int)
    requires Chain(link, head, list) && p < |link| && p !in list
    ensures Chain(link[p := x], head, list)
    decreases |list|
  {
    if list != [] {
      ChainFrame(link, link[head], list[1..], p, x);
    }
  }

  /** pp_ref counts the references to every page, plus `ex` that the kernel holds at this moment. */
  ghost predicate CountsOk(refs: seq<nat>, h: seq<set<Ref>>, ex: multiset<nat>, reserved: set<nat>) {
    && |refs| == |h|
    && forall p :: 0 <= p < |h| ==>
         if p in reserved then h[p] == {} && p !in ex else refs[p] == |h[p]| + ex[p]
  }

  /** A reference taken out of its place is still held by the kernel; and back. */
  lemma TakeRef(refs: seq<nat>, h: seq<set<Ref>>, ex: multiset<nat>, reserved: set<nat>, p: nat, r: Ref)
    requires CountsOk(refs, h, ex, reserved) && p < |h| && r in h[p]
    ensures CountsOk(refs, Take(h, p, r), ex + multiset{p}, reserved)
  {
  }

  lemma PutRef(refs: seq<nat>, h: seq<set<Ref>>, ex: multiset<nat>, reserved: set<nat>, p: nat, r: Ref)
    requires CountsOk(refs, h, ex + multiset{p}, reserved) && p < |h| && r !in h[p]
    ensures CountsOk(refs, Put(h, p, r), ex, reserved)
  {
  }

  /** The free list holds the pages without a reference, except those in `held`, just allocated. */
  ghost predicate FreeOk(refs: seq<nat>, link: seq<int>, head: int, list: seq<nat>, held: set<nat>, reserved: set<nat>) {
    && |link| == |refs|
    && Chain(link, head, list)
    && (forall p :: p in held ==> p < |refs| && refs[p] == 0 && p !in reserved)
    && (forall p :: 0 <= p < |refs| ==>
          (p in list <==> p !in reserved && refs[p] == 0 && p !in held) && (p !in list ==> link[p] == -1))
  }

  /** pp_ref++ on a page that is not free. */
  lemma GainRef(refs: seq<nat>, h: seq<set<Ref>>, ex: multiset<nat>, reserved: set<nat>,
                link: seq<int>, head: int, list: seq<nat>, held: set<nat>, p: nat)
    requires CountsOk(refs, h, ex, reserved) && FreeOk(refs, link, head, list, held, reserved)
    requires p < |refs| && p !in reserved && p !in list
    ensures CountsOk(refs[p := refs[p] + 1], h, ex + multiset{p}, reserved)
    ensures FreeOk(refs[p := refs[p] + 1], link, head, list, held - {p}, reserved)
  {
  }

  /** --pp_ref on a page for which the kernel holds a reference. */
  lemma LoseRef(refs: seq<nat>, h: seq<set<Ref>>, ex: multiset<nat>, reserved: set<nat>,
                link: seq<int>, head: int, list: seq<nat>, held: set<nat>, p: nat)
    requires CountsOk(refs, h, ex + multiset{p}, reserved) && FreeOk(refs, link, head, list, held, reserved)
    requires p < |refs|
    ensures refs[p] > 0 && p !in reserved && p !in held && p !in list && link[p] == -1
    ensures CountsOk(refs[p := refs[p] - 1], h, ex, reserved)
    ensures FreeOk(refs[p := refs[p] - 1], link, head, list, if refs[p] == 1 then held + {p} else held, reserved)
  {
  }

  lemma PopFree(refs: seq<nat>, link: seq<int>, head: int, list: seq<nat>, held: set<nat>, reserved: set<nat>)
    requires FreeOk(refs, link, head, list, held, reserved) && list != []
    ensures 0 <= head < |refs| && head !in reserved && head !in held && refs[head] == 0
    ensures FreeOk(refs, link[head := -1], link[head], list[1..], held + {head}, reserved)
  {
    ChainFrame(link, link[head], list[1..], head, -1);
    forall p | 0 <= p < |refs| ensures p in list[1..] <==> p in list && p != head {
      if p in list && p != head {
        var i :| 0 <= i < |list| && list[i] == p;
        assert list[1..][i - 1] == p;
      }
    }
  }

  lemma PushFree(refs: seq<nat>, link: seq<int>, head: int, list: seq<nat>, held: set<nat>, reserved: set<nat>, p: nat)
    requires FreeOk(refs, link, head, list, held, reserved)
    requires p < |refs| && refs[p] == 0 && p !in reserved && p in held
    ensures FreeOk(refs, link[p := head], p, [p] + list, held - {p}, reserved)
  {
    ChainFrame(link, head, list, p, head);
  }

  function UserTable(): Flags { NO_FLAGS.(p := true, w := true, u := true) }

  /** envid2env: the slot an id denotes for the environment in slot `cur`, or -1. */
  function Resolve(ids: seq<int>, parents: seq<int>, status: seq<Status>, cur: nat, envid: int, checkperm: bool): int
    requires |ids| == |parents| == |status| == NENV && cur < NENV
  {
    var i := envid % NENV;
    if envid == 0 then cur
    else if status[i].Free? || ids[i] != envid then -1
    else if checkperm && i != cur && parents[i] != ids[cur] then -1
    else i
  }

  /** Every id is the one its slot got at its last allocation. */
  ghost predicate IdsOk(ids: seq<int>, allocs: seq<nat>) {
    |ids| == |allocs| == NENV && forall i {:trigger IsSlot(i)} :: IsSlot(i) ==> ids[i] == EnvIds.IdAfter(i, allocs[i])
  }

  predicate IsSlot(i: int) { 0 <= i < NENV }

  /** env_ipc_value, env_ipc_from and env_ipc_perm. */
  datatype Message = Message(value: nat, from: int, perm: Flags)

  /** A page can be received only at a page address below UTOP. */
  ghost predicate IpcOk(recving: seq<bool>, dstva: seq<nat>, msg: seq<Message>) {
    |recving| == |dstva| == |msg| == NENV && forall i :: 0 <= i < NENV ==> dstva[i] < UTOP && dstva[i] % 0x1000 == 0
  }

  /** Env slots are free, on the free list and without a directory, or live with an id that names them. */
  ghost predicate EnvsFine(ids: seq<int>, parents: seq<int>, status: seq<Status>, dirs: seq<int>, link: seq<int>, head: int,
                           free: seq<nat>, allocs: seq<nat>, recving: seq<bool>, dstva: seq<nat>, msg: seq<Message>, e: int)
  {
    && |ids| == |parents| == |status| == |dirs| == |link| == NENV
    && Chain(link, head, free)
    && (forall i :: 0 <= i < NENV ==> (i in free <==> status[i].Free?))
    && (forall i :: 0 <= i < NENV && i != e ==> (status[i].Free? <==> dirs[i] == -1))
    && IdsOk(ids, allocs) && (forall i :: 0 <= i < NENV && !status[i].Free? ==> allocs[i] > 0)
    && IpcOk(recving, dstva, msg)
  }

  /** A slot may have any directory while it is being set up or torn down. */
  lemma ButOne(ids: seq<int>, parents: seq<int>, status: seq<Status>, dirs: seq<int>, link: seq<int>, head: int,
               free: seq<nat>, allocs: seq<nat>, recving: seq<bool>, dstva: seq<nat>, msg: seq<Message>, e: nat, d: int)
    requires e < NENV && EnvsFine(ids, parents, status, dirs, link, head, free, allocs, recving, dstva, msg, -1)
    ensures EnvsFine(ids, parents, status, dirs[e := d], link, head, free, allocs, recving, dstva, msg, e)
  {
  }

  /** The first free slot is taken under its next id. */
  lemma SlotTaken(ids: seq<int>, parents: seq<int>, status: seq<Status>, dirs: seq<int>, link: seq<int>, head: int,
                  free: seq<nat>, allocs: seq<nat>, recving: seq<bool>, dstva: seq<nat>, msg: seq<Message>, e: nat, parent: int)
    requires e < NENV && EnvsFine(ids, parents, status, dirs, link, head, free, allocs, recving, dstva, msg, e)
    requires free != [] && e == free[0] && dirs[e] != -1
    ensures status[e].Free?
    ensures EnvsFine(ids[e := EnvIds.NextId(ids[e], e)], parents[e := parent], status[e := Runnable], dirs, link, link[e],
                     free[1..], allocs[e := allocs[e] + 1], recving[e := false], dstva, msg, -1)
  {
    assert e in free && IsSlot(e);
    assert forall i :: IsSlot(i) && i != e ==> ids[i] == EnvIds.IdAfter(i, allocs[i]);
    forall i | 0 <= i < NENV ensures i in free[1..] <==> i in free && i != e {
      if i in free && i != e {
        var k :| 0 <= k < |free| && free[k] == i;
        assert free[1..][k - 1] == i;
      }
    }
  }

  /** A handle from the j-th allocation of a slot resolves exactly when the slot is in use and has been
      allocated a multiple of 2^19 - 1 times since: within that window, only when it is still current. */
  lemma HandleResolves(ids: seq<int>, parents: seq<int>, status: seq<Status>, allocs: seq<nat>, cur: nat, slot: nat, j: nat)
    requires |ids| == |parents| == |status| == NENV && cur < NENV && slot < NENV && IdsOk(ids, allocs)
    requires 0 < j <= allocs[slot]
    ensures Resolve(ids, parents, status, cur, EnvIds.IdAfter(slot, j), false) ==
            if !status[slot].Free? && (allocs[slot] - j) % EnvIds.PERIOD == 0 then slot else -1
    ensures j < allocs[slot] < j + EnvIds.PERIOD ==> Resolve(ids, parents, status, cur, EnvIds.IdAfter(slot, j), false) == -1
  {
    assert IsSlot(slot);
    EnvIds.IdEncodesSlot(slot, j);
    EnvIds.IdsRepeat(slot, j, allocs[slot]);
  }

  /** Only user PTEs refer to the page, if anything does: it holds data. */
  ghost predicate Plain(refs: set<Ref>) { forall r :: r in refs ==> r.User? }

  /** Every data page outside `ex` is still a data page, and no word of it has changed. */
  ghost predicate Kept(ex: seq<nat>, h: seq<set<Ref>>, words: seq<Page>, h': seq<set<Ref>>, words': seq<Page>) {
    && |h| == |words| == |h'| == |words'|
    && forall p :: 0 <= p < |words| && p !in ex && Plain(h[p]) ==> Plain(h'[p]) && words'[p] == words[p]
  }

  lemma KeptTrans(ex: seq<nat>, h: seq<set<Ref>>, w: seq<Page>, h1: seq<set<Ref>>, w1: seq<Page>, h2: seq<set<Ref>>, w2: seq<Page>)
    requires Kept(ex, h, w, h1, w1) && Kept([], h1, w1, h2, w2)
    ensures Kept(ex, h, w, h2, w2)
  {
  }

  /** A store into a table or directory, with user references coming and going. */
  lemma KeptWrite(h: seq<set<Ref>>, w: seq<Page>, h': seq<set<Ref>>, t: nat, page: Page)
    requires |h| == |h'| == |w| && t < |w| && !Plain(h[t])
    requires forall p :: 0 <= p < |h| && Plain(h[p]) ==> Plain(h'[p])
    ensures Kept([], h, w, h', w[t := page])
  {
  }

  const IOPHYSMEM: nat := 160       // in pages
  const EXTPHYSMEM: nat := 256

  /** The pages page_init keeps: page 0, the I/O hole, what boot_alloc has handed out, and MPENTRY_PADDR. */
  predicate InUse(i: nat, nextfree: nat) {
    i == 0 || (IOPHYSMEM <= i < EXTPHYSMEM) || (EXTPHYSMEM <= i < nextfree) || i == 7
  }

  lemma {:induction false} ChainExtend(link: seq<int>, head: int, list: seq<nat>, x: int)
    requires Chain(link, head, list)
    ensures Chain(link + [x], head, list)
    decreases |list|
  {
    if list != [] {
      ChainExtend(link, link[head], list[1..], x);
    }
  }

  lemma {:induction false} EnvChain(link: seq<int>, list: seq<nat>, k: nat)
    requires |link| == |list| == NENV && k < NENV
    requires forall i :: 0 <= i < NENV ==> list[i] == i && link[i] == if i + 1 < NENV then i + 1 else -1
    ensures Chain(link, k, list[k..])
    decreases NENV - k
  {
    assert list[k..][1..] == list[k + 1..];
    if k + 1 < NENV {
      EnvChain(link, list, k + 1);
    }
  }

  lemma AllFree(link: seq<int>, list: seq<nat>)
    requires |link| == |list| == NENV
    requires forall i :: 0 <= i < NENV ==> list[i] == i && link[i] == if i + 1 < NENV then i + 1 else -1
    ensures Chain(link, 0, list) && forall i :: 0 <= i < NENV ==> i in list
  {
    EnvChain(link, list, 0);
    assert list[0..] == list;
    forall i | 0 <= i < NENV ensures i in list { assert list[i] == i; }
  }

  lemma NoRefs(refs: seq<nat>, h: seq<set<Ref>>, link: seq<int>, head: int, free: seq<nat>, nextfree: nat)
    requires |h| == |refs| && (forall p :: 0 <= p < |h| ==> h[p] == {})
    requires FreeOk(refs, link, head, free, {}, set p: nat | p < |refs| && InUse(p, nextfree))
    requires forall p :: 0 <= p < |refs| ==> refs[p] == if InUse(p, nextfree) then 1 else 0
    ensures CountsOk(refs, h, multiset{}, set p: nat | p < |refs| && InUse(p, nextfree))
    ensures forall p :: 0 <= p < |refs| ==> (p in free <==> !InUse(p, nextfree))
  {
  }

  lemma NoEnvs(zeros: seq<int>, status: seq<Status>, dirs: seq<int>, link: seq<int>, free: seq<nat>, allocs: seq<nat>,
               recving: seq<bool>, dstva: seq<nat>, msg: seq<Message>)
    requires |zeros| == |status| == |dirs| == |link| == |free| == |allocs| == |recving| == |dstva| == |msg| == NENV
    requires forall i :: 0 <= i < NENV ==> zeros[i] == allocs[i] == dstva[i] == 0 && status[i] == Free && dirs[i] == -1
    requires forall i :: 0 <= i < NENV ==> free[i] == i && link[i] == if i + 1 < NENV then i + 1 else -1
    ensures EnvsFine(zeros, zeros, status, dirs, link, 0, free, allocs, recving, dstva, msg, -1)
  {
    AllFree(link, free);
  }

  /** page_init: the free list holds every page the machine does not need, highest first. */
  method PageInit(npages: nat, nextfree: nat) returns (refs: seq<nat>, link: seq<int>, head: int, ghost free: seq<nat>)
    ensures |refs| == npages && FreeOk(refs, link, head, free, {}, set p: nat | p < npages && InUse(p, nextfree))
    ensures forall p :: 0 <= p < npages ==> refs[p] == if InUse(p, nextfree) then 1 else 0
    ensures forall j, k :: 0 <= j < k < |free| ==> free[j] > free[k]
  {
    refs, link, head, free := [], [], -1, [];
    for i := 0 to npages
      invariant ListSoFar(refs, link, head, free, i, nextfree)
    {
      ListMore(refs, link, head, free, i, nextfree);
      link := link + [if InUse(i, nextfree) then -1 else head];
      refs := refs + [if InUse(i, nextfree) then 1 else 0];
      if !InUse(i, nextfree) {
        head := i;
        free := [i] + free;
      }
    }
  }

  /** The loop of page_init after i pages. */
  ghost predicate ListSoFar(refs: seq<nat>, link: seq<int>, head: int, free: seq<nat>, i: nat, nextfree: nat) {
    && |refs| == |link| == i && Chain(link, head, free)
    && (forall p :: 0 <= p < i ==> (p in free <==> !InUse(p, nextfree)) && (p !in free ==> link[p] == -1))
    && (forall p :: 0 <= p < i ==> refs[p] == if InUse(p, nextfree) then 1 else 0)
    && (forall p :: p in free ==> p < i)
    && (forall j, k :: 0 <= j < k < |free| ==> free[j] > free[k])
  }

  lemma ListMore(refs: seq<nat>, link: seq<int>, head: int, free: seq<nat>, i: nat, nextfree: nat)
    requires ListSoFar(refs, link, head, free, i, nextfree)
    ensures if InUse(i, nextfree) then ListSoFar(refs + [1], link + [-1], head, free, i + 1, nextfree)
            else ListSoFar(refs + [0], link + [head], i, [i] + free, i + 1, nextfree)
  {
    ChainExtend(link, head, free, if InUse(i, nextfree) then -1 else head);
    assert ([i] + free)[1..] == free;
  }

  /** All that the store of page_insert does to tables, counts and data. */
  lemma StoredPte(m: Mem, h: seq<set<Ref>>, kern: nat, refs: seq<nat>, ex: multiset<nat>, reserved: set<nat>,
                  e: nat, d: nat, t: nat, pp: nat, w: Word)
    requires Good(m, h, kern) && CountsOk(refs, h, ex + multiset{pp}, reserved) && kern in reserved
    requires e < NENV && d < USER_PDES && t < NPTENTRIES && TableOf(m, e, d) >= 0 && !Entry(m, e, d, t).flags.p
    requires pp < |h| && pp !in reserved && Plain(h[pp]) && w.frame == pp && w.flags.p
    ensures var T, h' := TableOf(m, e, d), Put(h, pp, User(e, d, t));
            var m' := m.(words := m.words[T := m.words[T][t := w]]);
            && OnlyEntry(m, m', e, d, t, w) && Good(m', h', kern) && CountsOk(refs, h', ex, reserved)
            && Kept([], h, m.words, h', m'.words) && T != pp
  {
    var T, x := TableOf(m, e, d), User(e, d, t);
    assert Target(m, x) == -1 && Target(m, Table(e, d)) == T;
    WritePte(m, h, kern, e, d, t, w);
    PutRef(refs, h, ex, reserved, pp, x);
    KeptWrite(h, m.words, Put(h, pp, x), T, m.words[T][t := w]);
  }

  /** All that hanging a fresh page table does to tables and data. */
  lemma HungTable(m: Mem, h: seq<set<Ref>>, kern: nat, e: nat, d: nat, p: nat)
    requires Good(m, h, kern) && e < NENV && d < USER_PDES && m.dirs[e] >= 0 && TableOf(m, e, d) < 0
    requires p < |h| && h[p] == {} && p != kern && m.words[p] == ZeroPage()
    ensures var h' := Put(h, p, Table(e, d));
            var m' := m.(words := m.words[m.dirs[e] := m.words[m.dirs[e]][d := Word(p, UserTable())]]);
            SameEntries(m, m') && TableOf(m', e, d) == p && Good(m', h', kern) && Kept([p], h, m.words, h', m'.words)
  {
    assert Target(m, Dir(e)) == m.dirs[e];
    HangTable(m, h, kern, e, d, p, UserTable());
  }

  /** All that installing a directory does to tables and data. */
  lemma DirSet(m: Mem, h: seq<set<Ref>>, kern: nat, e: nat, p: nat, page: Page)
    requires Good(m, h, kern) && e < NENV && m.dirs[e] == -1 && p < |h| && h[p] == {} && p != kern
    requires page == m.words[kern][UVPT_PDX := Word(p, UserRead())]
    ensures var m', h' := Mem(m.words[p := page], m.dirs[e := p]), Put(h, p, Dir(e));
            SameEntries(m, m') && Good(m', h', kern) && Kept([p], h, m.words, h', m'.words)
  {
    SetDir(m, h, kern, e, p, page);
  }

  /** A page just allocated gets its first reference. */
  lemma FirstRef(refs: seq<nat>, h: seq<set<Ref>>, ex: multiset<nat>, reserved: set<nat>, link: seq<int>, head: int, list: seq<nat>,
                 held: set<nat>, p: nat, r: Ref)
    requires CountsOk(refs, h, ex, reserved) && FreeOk(refs, link, head, list, held + {p}, reserved)
    requires p < |refs| && p !in held && h[p] == {}
    ensures CountsOk(refs[p := refs[p] + 1], Put(h, p, r), ex, reserved)
    ensures FreeOk(refs[p := refs[p] + 1], link, head, list, held, reserved)
  {
  }

  /** A system call or a user-mode store, with the slot of the environment that makes it. */
  datatype Call =
    | PageAllocCall(cur: nat, envid: int, va: nat, perm: Flags)
    | PageMapCall(cur: nat, srcid: int, srcva: nat, dstid: int, dstva: nat, perm: Flags)
    | PageUnmapCall(cur: nat, envid: int, va: nat)
    | ExoforkCall(cur: nat)
    | DestroyCall(cur: nat, envid: int)
    | StoreCall(cur: nat, va: nat, w: Word)
    | SendCall(cur: nat, envid: int, value: nat, srcva: nat, perm: Flags)
    | RecvCall(cur: nat, dstva: nat)
    | StatusCall(cur: nat, envid: int, status: Status)
    | DispatchCall(cur: nat, e: nat)   // env_run of e while cur is curenv; cur is e when there is none
    | ReapCall(cur: nat)               // a trap of cur finds it DYING

  /** Who refers to which page, which pages are free, and what they hold, between two calls. */
  datatype Moment = Moment(h: seq<set<Ref>>, free: seq<nat>, words: seq<Page>, dirs: seq<int>,
                           ids: seq<int>, parents: seq<int>, status: seq<Status>, recving: seq<bool>)

  function MemOf(s: Moment): Mem { Mem(s.words, s.dirs) }

  /** Whoever maps a page knows it holds data and is not free. */
  ghost predicate Sane(s: Moment) {
    && |s.h| == |s.words| && Shape(MemOf(s)) && |s.ids| == |s.parents| == |s.status| == |s.recving| == NENV
    && forall p, r :: 0 <= p < |s.h| && r in s.h[p] && r.User? ==> Plain(s.h[p]) && p !in s.free
  }

  ghost predicate MapsIt(s: Moment, e: nat, p: nat)
    requires p < |s.h|
  {
    exists r :: r in s.h[p] && r.User? && r.e == e
  }

  /** The effect of a call on data: a user store changes one word of a page that its environment maps;
      no other call changes a data page that was in use. */
  ghost predicate Moves(c: Call, s: Moment, s': Moment) {
    if c.StoreCall? then
      && |s.h| == |s.words|
      && (s' == s || exists p: nat, i: nat :: StoresAt(c, s, s', p, i))
    else Kept(s.free, s.h, s.words, s'.h, s'.words)
  }

  ghost predicate StoresAt(c: Call, s: Moment, s': Moment, p: nat, i: nat) {
    && c.StoreCall? && p < |s.h| == |s.words| && i < |s.words[p]| && MapsIt(s, c.cur, p)
    && s' == s.(words := s.words[p := s.words[p][i := c.w]])
  }

  /** Who may change the status or the address space of slot x: the environment itself, its parent, a
      sender to whom it listens, or the scheduler that dispatches it. */
  ghost predicate Entitled(c: Call, s: Moment, s': Moment, x: nat)
    requires Sane(s) && Sane(s') && x < NENV
  {
    || x == c.cur || (c.cur < NENV && s'.parents[x] == s.ids[c.cur])
    || (c.SendCall? && s.recving[x]) || (c.DispatchCall? && x == c.e)
  }

  /** The status and the address space of x are as before. */
  ghost predicate Untouched(s: Moment, s': Moment, x: nat)
    requires Sane(s) && Sane(s') && x < NENV
  {
    && s'.status[x] == s.status[x]
    && forall d, t :: 0 <= d < USER_PDES && 0 <= t < NPTENTRIES ==> Entry(MemOf(s'), x, d, t) == Entry(MemOf(s), x, d, t)
  }

  /** Some environment maps page p writable. */
  ghost predicate Writable(m: Mem, p: nat)
    requires Shape(m)
  {
    exists e, d, t :: 0 <= e < NENV && 0 <= d < USER_PDES && 0 <= t < NPTENTRIES && Writes(Entry(m, e, d, t), p)
  }

  predicate Writes(w: Word, p: nat) { w.flags.p && w.frame == p && w.flags.w }

  /** No user entry has a bit that system calls may not set. */
  ghost predicate Allowed(m: Mem)
    requires Shape(m)
  {
    forall e, d, t :: 0 <= e < NENV && 0 <= d < USER_PDES && 0 <= t < NPTENTRIES ==> !BadPerm(Entry(m, e, d, t).flags)
  }

  /** A call touches only slots it is entitled to, makes no page in use writable that was not, and sets
      no bit outside PTE_SYSCALL. */
  ghost predicate Lawful(c: Call, s: Moment, s': Moment) {
    && Sane(s) && Sane(s')
    && (forall x :: 0 <= x < NENV ==> Untouched(s, s', x) || Entitled(c, s, s', x))
    && (forall p: nat :: p !in s.free && Writable(MemOf(s'), p) ==> Writable(MemOf(s), p))
    && (Allowed(MemOf(s)) ==> Allowed(MemOf(s')))
  }

  lemma LawfulSame(c: Call, s: Moment, s': Moment)
    requires Sane(s) && Sane(s') && SameEntries(MemOf(s), MemOf(s'))
    requires forall x :: 0 <= x < NENV && s'.status[x] != s.status[x] ==> Entitled(c, s, s', x)
    ensures Lawful(c, s, s')
  {
    forall p: nat | Writable(MemOf(s'), p) ensures Writable(MemOf(s), p) {
      var e, d, t :| 0 <= e < NENV && 0 <= d < USER_PDES && 0 <= t < NPTENTRIES && Writes(Entry(MemOf(s'), e, d, t), p);
      assert Writes(Entry(MemOf(s), e, d, t), p);
    }
  }

  lemma LawfulEntry(c: Call, s: Moment, s': Moment, e: nat, d: nat, t: nat, w: Word)
    requires Sane(s) && Sane(s') && OnlyEntry(MemOf(s), MemOf(s'), e, d, t, w) && d < USER_PDES && t < NPTENTRIES
    requires e < NENV && Entitled(c, s, s', e)
    requires forall x :: 0 <= x < NENV && s'.status[x] != s.status[x] ==> Entitled(c, s, s', x)
    requires w.flags.p && w.flags.w ==> w.frame in s.free || Writable(MemOf(s), w.frame)
    requires BadPerm(w.flags) ==> w == Entry(MemOf(s), e, d, t)
    ensures Lawful(c, s, s')
  {
    forall p: nat | p !in s.free && Writable(MemOf(s'), p) ensures Writable(MemOf(s), p) {
      var e', d', t' :| 0 <= e' < NENV && 0 <= d' < USER_PDES && 0 <= t' < NPTENTRIES && Writes(Entry(MemOf(s'), e', d', t'), p);
      if !(e' == e && d' == d && t' == t) { assert Writes(Entry(MemOf(s), e', d', t'), p); }
    }
  }

  lemma LawfulGone(c: Call, s: Moment, s': Moment, e: nat)
    requires Sane(s) && Sane(s') && OthersKeep(MemOf(s), MemOf(s'), e) && e < NENV && s'.dirs[e] == -1 && Entitled(c, s, s', e)
    requires forall x :: 0 <= x < NENV && x != e ==> s'.status[x] == s.status[x]
    ensures Lawful(c, s, s')
  {
    forall p: nat | Writable(MemOf(s'), p) ensures Writable(MemOf(s), p) {
      var e', d, t :| 0 <= e' < NENV && 0 <= d < USER_PDES && 0 <= t < NPTENTRIES && Writes(Entry(MemOf(s'), e', d, t), p);
      assert e' != e && Writes(Entry(MemOf(s), e', d, t), p);
    }
  }

  ghost predicate IsTrace(calls: seq<Call>, trace: seq<Moment>) {
    && |trace| == |calls| + 1 && (forall i :: 0 <= i < |trace| ==> Sane(trace[i]))
    && forall i :: 0 <= i < |calls| ==> Obeys(calls, trace, i)
  }

  /** Call i of a trace affects data as it may, and the address spaces and statuses as it may. */
  ghost predicate Obeys(calls: seq<Call>, trace: seq<Moment>, i: nat)
    requires i < |calls| < |trace|
  {
    Moves(calls[i], trace[i], trace[i + 1]) && Lawful(calls[i], trace[i], trace[i + 1])
  }

  lemma TraceMore(calls: seq<Call>, trace: seq<Moment>, i: nat, s: Moment)
    requires i < |calls| && IsTrace(calls[..i], trace) && Sane(s)
    requires Moves(calls[i], trace[i], s) && Lawful(calls[i], trace[i], s)
    ensures IsTrace(calls[..i + 1], trace + [s])
  {
    var cs, t := calls[..i + 1], trace + [s];
    forall k | 0 <= k <= i ensures Obeys(cs, t, k) {
      if k < i { assert Obeys(calls[..i], trace, k); }
    }
  }

  /** Call k is not entitled to slot x. */
  ghost predicate Foreign(calls: seq<Call>, trace: seq<Moment>, k: nat, x: nat)
    requires k < |calls| < |trace| && x < NENV
  {
    Sane(trace[k]) && Sane(trace[k + 1]) && !Entitled(calls[k], trace[k], trace[k + 1], x)
  }

  /** Nobody's address space or status changes but by a call that is entitled to it. */
  lemma {:induction false} LeftAlone(calls: seq<Call>, trace: seq<Moment>, i: nat, j: nat, x: nat)
    requires IsTrace(calls, trace) && i <= j <= |calls| && x < NENV && Sane(trace[i]) && Sane(trace[j])
    requires forall k :: i <= k < j ==> Foreign(calls, trace, k, x)
    ensures Untouched(trace[i], trace[j], x)
    decreases j - i
  {
    if i < j {
      assert Sane(trace[j - 1]);
      LeftAlone(calls, trace, i, j - 1, x);
      assert Obeys(calls, trace, j - 1) && Foreign(calls, trace, j - 1, x);
    }
  }

  /** A page that nobody can write stays so as long as it is in use. */
  lemma {:induction false} StaysReadOnly(calls: seq<Call>, trace: seq<Moment>, i: nat, j: nat, p: nat)
    requires IsTrace(calls, trace) && i <= j <= |calls| && Sane(trace[i]) && !Writable(MemOf(trace[i]), p)
    requires forall k :: i <= k < j ==> p !in trace[k].free
    ensures Sane(trace[j]) && !Writable(MemOf(trace[j]), p)
    decreases j - i
  {
    if i < j {
      StaysReadOnly(calls, trace, i, j - 1, p);
      assert Obeys(calls, trace, j - 1);
    }
  }

  /** From a state like the one after boot, no user entry ever has a bit outside PTE_SYSCALL. */
  lemma {:induction false} OnlySyscallBits(calls: seq<Call>, trace: seq<Moment>, j: nat, e: nat, d: nat, t: nat)
    requires IsTrace(calls, trace) && j <= |calls| && Sane(trace[0]) && Allowed(MemOf(trace[0]))
    requires e < NENV && d < USER_PDES && t < NPTENTRIES
    ensures Sane(trace[j]) && Allowed(MemOf(trace[j]))
    ensures Bits(Entry(MemOf(trace[j]), e, d, t).flags) & !PTE_SYSCALL == 0
  {
    if j > 0 {
      OnlySyscallBits(calls, trace, j - 1, e, d, t);
      assert Obeys(calls, trace, j - 1);
    }
    BadPermBits(Entry(MemOf(trace[j]), e, d, t).flags);
  }

  /** Isolation: as long as some environment maps a page, its contents change only by stores of
      environments that map it. */
  lemma {:induction false} Isolation(calls: seq<Call>, trace: seq<Moment>, i: nat, j: nat, p: nat)
    requires IsTrace(calls, trace) && i <= j <= |calls| && p < |trace[i].words|
    requires forall k :: i <= k < j ==> p < |trace[k].h| && exists r :: r in trace[k].h[p] && r.User?
    requires forall k :: i <= k < j && calls[k].StoreCall? ==> p < |trace[k].h| && !MapsIt(trace[k], calls[k].cur, p)
    ensures p < |trace[j].words| && trace[j].words[p] == trace[i].words[p]
    decreases j - i
  {
    if i < j {
      assert Sane(trace[i]) && Sane(trace[i + 1]) && Obeys(calls, trace, i);
      Isolation(calls, trace, i + 1, j, p);
    }
  }

  class Kernel {
    const npages: nat
    /** The page of kern_pgdir. */
    const kern: nat
    /** Pages that never enter the free list. */
    ghost const reserved: set<nat>

    var words: seq<Page>
    var pp_ref: seq<nat>
    var pp_link: seq<int>
    var page_free_list: int

    var env_id: seq<int>
    var env_parent_id: seq<int>
    var env_status: seq<Status>
    var env_pgdir: seq<int>
    var env_link: seq<int>
    var env_free_list: int
    var env_ipc_recving: seq<bool>
    var env_ipc_dstva: seq<nat>
    var env_ipc_msg: seq<Message>

    ghost var freePages: seq<nat>
    ghost var freeEnvs: seq<nat>
    ghost var holders: seq<set<Ref>>
    /** How often each env slot has been allocated. */
    ghost var allocs: seq<nat>

    ghost function M(): Mem
      reads this
    {
      Mem(words, env_pgdir)
    }

    ghost predicate Books(ex: multiset<nat>, held: set<nat>)
      reads this
    {
      && |pp_ref| == npages
      && CountsOk(pp_ref, holders, ex, reserved)
      && FreeOk(pp_ref, pp_link, page_free_list, freePages, held, reserved)
    }

    ghost predicate Tables()
      reads this
    {
      && |words| == npages
      && Good(M(), holders, kern) && kern in reserved
    }

    ghost predicate EnvsOkBut(e: int)
      reads this
    {
      EnvsFine(env_id, env_parent_id, env_status, env_pgdir, env_link, env_free_list, freeEnvs, allocs,
               env_ipc_recving, env_ipc_dstva, env_ipc_msg, e)
    }

    ghost predicate EnvsOk()
      reads this
    {
      EnvsOkBut(-1)
    }

    /** The state between system calls. */
    ghost predicate Valid()
      reads this
    {
      Books(multiset{}, {}) && Tables() && EnvsOk()
    }

    /** The state after page_init and env_init. */
    constructor Boot(memory: seq<Page>, kern: nat, nextfree: nat)
      requires forall i :: 0 <= i < |memory| ==> |memory[i]| == NPTENTRIES
      requires EXTPHYSMEM <= kern < nextfree <= |memory|
      requires forall d :: 0 <= d < USER_PDES ==> memory[kern][d] == ZERO
      ensures Valid() && words == memory && npages == |memory| && this.kern == kern
      ensures forall p :: 0 <= p < npages ==> (p in freePages <==> !InUse(p, nextfree))
      ensures freeEnvs == seq(NENV, i => i) && forall i :: 0 <= i < NENV ==> env_id[i] == 0
    {
      var refs, link, head, free := PageInit(|memory|, nextfree);
      NoRefs(refs, seq(|memory|, _ => {}), link, head, free, nextfree);
      npages, this.kern, reserved := |memory|, kern, set p: nat | p < |memory| && InUse(p, nextfree);
      words, pp_ref, pp_link, page_free_list, freePages := memory, refs, link, head, free;
      holders := seq(|memory|, _ => {});
      var zeros, dirs, link2 := seq(NENV, _ => 0), seq(NENV, _ => -1), seq(NENV, i => if i + 1 < NENV then i + 1 else -1);
      var none, nothing := seq(NENV, _ => Free), seq(NENV, _ => Message(0, 0, NO_FLAGS));
      env_id, env_parent_id, env_status, env_pgdir, env_link, env_free_list := zeros, zeros, none, dirs, link2, 0;
      env_ipc_recving, env_ipc_dstva, env_ipc_msg := seq(NENV, _ => false), seq(NENV, _ => 0), nothing;
      freeEnvs, allocs := seq(NENV, i => i), seq(NENV, _ => 0);
      NoEnvs(zeros, none, dirs, link2, seq(NENV, i => i), seq(NENV, _ => 0), seq(NENV, _ => false), seq(NENV, _ => 0), nothing);
      new;
      NothingMapped(M(), holders, kern);
    }

    /** page_alloc */
    method PageAlloc(zero: bool, ghost ex: multiset<nat>, ghost held: set<nat>) returns (p: int)
      requires Books(ex, held) && Tables()
      modifies this`words, this`pp_link, this`page_free_list, this`freePages
      ensures Tables() && SameEntries(old(M()), M()) && SameTables(old(M()), M())
      ensures p == -1 <==> old(freePages) == []
      ensures p == -1 ==> Books(ex, held) && words == old(words) && freePages == []
      ensures p != -1 ==> 0 <= p < npages && p !in reserved && p !in held && pp_ref[p] == 0 && holders[p] == {}
      ensures p != -1 ==> Books(ex, held + {p}) && freePages == old(freePages)[1..] && p == old(freePages)[0]
      ensures p != -1 ==> words == old(words)[p := if zero then ZeroPage() else old(words)[p]]
    {
      if page_free_list == -1 {
        return -1;
      }
      p := page_free_list;
      PopFree(pp_ref, pp_link, page_free_list, freePages, held, reserved);
      page_free_list := pp_link[p];
      pp_link := pp_link[p := -1];
      freePages := freePages[1..];
      if zero {
        WriteData(M(), holders, kern, p, ZeroPage());
        words := words[p := ZeroPage()];
      }
    }

    /** page_free: the two conditions on which the source panics are the precondition. */
    method PageFree(p: nat, ghost ex: multiset<nat>, ghost held: set<nat>)
      requires Books(ex, held) && p < npages && p in held && p !in reserved
      requires pp_ref[p] == 0 && pp_link[p] == -1
      modifies this`pp_link, this`page_free_list, this`freePages
      ensures Books(ex, held - {p}) && freePages == [p] + old(freePages)
    {
      PushFree(pp_ref, pp_link, page_free_list, freePages, held, reserved, p);
      pp_link := pp_link[p := page_free_list];
      page_free_list := p;
      freePages := [p] + freePages;
    }

    /** page_decref gives up one reference that the kernel holds. */
    method PageDecref(p: nat, ghost ex: multiset<nat>, ghost held: set<nat>)
      requires Books(ex + multiset{p}, held) && p < npages
      modifies this`pp_ref, this`pp_link, this`page_free_list, this`freePages
      ensures Books(ex, held)
      ensures old(pp_ref)[p] > 0 && pp_ref == old(pp_ref)[p := old(pp_ref)[p] - 1]
      ensures freePages == if old(pp_ref)[p] == 1 then [p] + old(freePages) else old(freePages)
    {
      LoseRef(pp_ref, holders, ex, reserved, pp_link, page_free_list, freePages, held, p);
      pp_ref := pp_ref[p := pp_ref[p] - 1];
      if pp_ref[p] == 0 {
        assert held + {p} - {p} == held;
        PageFree(p, ex, held + {p});
      }
    }

    /** The part of pgdir_walk that hangs the new page p into an empty directory entry. */
    method HangPage(e: nat, d: nat, p: nat, ghost ex: multiset<nat>, ghost held: set<nat>)
      requires Books(ex, held + {p}) && Tables() && e < NENV && env_pgdir[e] >= 0 && d < USER_PDES
      requires TableOf(M(), e, d) == -1 && p < npages && p !in held && holders[p] == {} && words[p] == ZeroPage()
      modifies this`words, this`pp_ref, this`holders
      ensures Books(ex, held) && Tables() && SameEntries(old(M()), M()) && TableOf(M(), e, d) == p
      ensures holders == Put(old(holders), p, Table(e, d))
      ensures Kept([p], old(holders), old(words), holders, words)
    {
      ghost var m' := Mem(words[env_pgdir[e] := words[env_pgdir[e]][d := Word(p, UserTable())]], env_pgdir);
      HungTable(M(), holders, kern, e, d, p);
      FirstRef(pp_ref, holders, ex, reserved, pp_link, page_free_list, freePages, held, p, Table(e, d));
      pp_ref := pp_ref[p := pp_ref[p] + 1];
      words := words[env_pgdir[e] := words[env_pgdir[e]][d := Word(p, UserTable())]];
      holders := Put(holders, p, Table(e, d));
      assert M() == m';
    }

    /** pgdir_walk: the page-table page for va (the PTE is its word Ptx(va)), or -1. */
    method PgdirWalk(e: nat, va: nat, create: bool, ghost ex: multiset<nat>, ghost held: set<nat>) returns (pt: int)
      requires Books(ex, held) && Tables() && e < NENV && env_pgdir[e] >= 0 && va < UTOP
      modifies this`words, this`pp_ref, this`pp_link, this`page_free_list, this`freePages, this`holders
      ensures Books(ex, held) && Tables() && Pdx(va) < USER_PDES && Ptx(va) < NPTENTRIES
      ensures SameEntries(old(M()), M()) && TableOf(M(), e, Pdx(va)) == pt
      ensures pt == -1 <==> TableOf(old(M()), e, Pdx(va)) == -1 && (!create || old(freePages) == [])
      ensures pt == -1 || TableOf(old(M()), e, Pdx(va)) != -1 ==>
                words == old(words) && pp_ref == old(pp_ref) && freePages == old(freePages) && holders == old(holders)
      ensures forall p :: 0 <= p < npages && p !in old(freePages) ==> p !in freePages && holders[p] == old(holders)[p]
      ensures Kept(old(freePages), old(holders), old(words), holders, words)
    {
      UserAddress(va);
      var pde := words[env_pgdir[e]][Pdx(va)];
      if pde != ZERO {
        return pde.frame;
      }
      pt := -1;
      if create {
        pt := PageAlloc(true, ex, held);
        if pt != -1 {
          assert pt == old(freePages)[0] && pt in old(freePages);
          HangPage(e, Pdx(va), pt, ex, held);
        }
      }
    }

    /** page_lookup: the PTE of va, or ZERO when no page is mapped there. */
    method PageLookup(e: nat, va: nat, ghost ex: multiset<nat>, ghost held: set<nat>) returns (pt: int, pte: Word)
      requires Books(ex, held) && Tables() && e < NENV && env_pgdir[e] >= 0 && va < UTOP
      ensures Pdx(va) < USER_PDES && Ptx(va) < NPTENTRIES && pt == TableOf(M(), e, Pdx(va))
      ensures pte == if Entry(M(), e, Pdx(va), Ptx(va)).flags.p then Entry(M(), e, Pdx(va), Ptx(va)) else ZERO
    {
      UserAddress(va);
      var pde := words[env_pgdir[e]][Pdx(va)];
      if pde == ZERO {
        return -1, ZERO;
      }
      pt := pde.frame;
      pte := words[pt][Ptx(va)];
      if !pte.flags.p {
        pte := ZERO;
      }
    }

    /** page_remove: va is unmapped in e, nothing else changes in any address space. */
    method PageRemove(e: nat, va: nat, ghost ex: multiset<nat>, ghost held: set<nat>)
      requires Books(ex, held) && Tables() && e < NENV && env_pgdir[e] >= 0 && va < UTOP
      modifies this`words, this`pp_ref, this`pp_link, this`page_free_list, this`freePages, this`holders
      ensures Books(ex, held) && Tables() && Pdx(va) < USER_PDES && Ptx(va) < NPTENTRIES
      ensures var w := Entry(old(M()), e, Pdx(va), Ptx(va));
              OnlyEntry(old(M()), M(), e, Pdx(va), Ptx(va), if w.flags.p then ZERO else w)
      ensures SameTables(old(M()), M())
      ensures holders == Take(old(holders), Target(old(M()), User(e, Pdx(va), Ptx(va))), User(e, Pdx(va), Ptx(va)))
      ensures Kept([], old(holders), old(words), holders, words)
    {
      var pt, pte := PageLookup(e, va, ex, held);
      ghost var d, t := Pdx(va), Ptx(va);
      ghost var r := User(e, d, t);
      if !pte.flags.p {
        return;
      }
      assert Target(M(), r) == pte.frame && Target(M(), Table(e, d)) == pt;
      ghost var m' := Mem(words[pt := words[pt][t := ZERO]], env_pgdir);
      WritePte(M(), holders, kern, e, d, t, ZERO);
      TakeRef(pp_ref, holders, ex, reserved, pte.frame, r);
      holders := Take(holders, pte.frame, r);
      PageDecref(pte.frame, ex, held);
      words := words[pt := words[pt][Ptx(va) := ZERO]];
      assert M() == m';
    }

    /** The store of page_insert, into a PTE that is not present; it turns a held reference into a PTE. */
    method StorePte(e: nat, pt: nat, pp: nat, va: nat, perm: Flags, ghost ex: multiset<nat>, ghost held: set<nat>)
      requires Books(ex + multiset{pp}, held) && Tables() && e < NENV && va < UTOP
      requires Pdx(va) < USER_PDES && Ptx(va) < NPTENTRIES && TableOf(M(), e, Pdx(va)) == pt
      requires !Entry(M(), e, Pdx(va), Ptx(va)).flags.p
      requires pp < npages && pp !in reserved && Plain(holders[pp])
      modifies this`words, this`holders
      ensures Books(ex, held) && Tables()
      ensures OnlyEntry(old(M()), M(), e, Pdx(va), Ptx(va), Word(pp, perm.(p := true)))
      ensures holders == Put(old(holders), pp, User(e, Pdx(va), Ptx(va))) && words[pp] == old(words)[pp]
      ensures Kept([], old(holders), old(words), holders, words)
    {
      var w := Word(pp, perm.(p := true));
      ghost var m' := Mem(words[pt := words[pt][Ptx(va) := w]], env_pgdir);
      StoredPte(M(), holders, kern, pp_ref, ex, reserved, e, Pdx(va), Ptx(va), pp, w);
      holders := Put(holders, pp, User(e, Pdx(va), Ptx(va)));
      words := words[pt := words[pt][Ptx(va) := w]];
      assert M() == m';
    }

    /** pp_ref++ and the removal of what was mapped, before page_insert stores its PTE. */
    method TakeOver(e: nat, pt: nat, pp: nat, va: nat, ghost ex: multiset<nat>, ghost held: set<nat>)
      requires Books(ex, held) && Tables() && e < NENV && env_pgdir[e] >= 0 && va < UTOP
      requires Pdx(va) < USER_PDES && Ptx(va) < NPTENTRIES && TableOf(M(), e, Pdx(va)) == pt
      requires pp < npages && pp !in reserved && pp !in freePages && Plain(holders[pp])
      modifies this`words, this`pp_ref, this`pp_link, this`page_free_list, this`freePages, this`holders
      ensures Books(ex + multiset{pp}, held - {pp}) && Tables() && TableOf(M(), e, Pdx(va)) == pt
      ensures !Entry(M(), e, Pdx(va), Ptx(va)).flags.p && holders[pp] <= old(holders)[pp] && words[pp] == old(words)[pp]
      ensures OnlyEntry(old(M()), M(), e, Pdx(va), Ptx(va), Entry(M(), e, Pdx(va), Ptx(va)))
      ensures Kept([], old(holders), old(words), holders, words)
    {
      GainRef(pp_ref, holders, ex, reserved, pp_link, page_free_list, freePages, held, pp);
      pp_ref := pp_ref[pp := pp_ref[pp] + 1];
      if words[pt][Ptx(va)].flags.p {
        PageRemove(e, va, ex + multiset{pp}, held - {pp});
      }
    }

    /** page_insert: on success exactly one PTE changes; on failure nothing does. */
    method PageInsert(e: nat, pp: nat, va: nat, perm: Flags, ghost ex: multiset<nat>, ghost held: set<nat>) returns (r: int)
      requires Books(ex, held) && Tables() && e < NENV && env_pgdir[e] >= 0 && va < UTOP
      requires pp < npages && pp !in reserved && pp !in freePages && Plain(holders[pp])
      modifies this`words, this`pp_ref, this`pp_link, this`page_free_list, this`freePages, this`holders
      ensures Tables() && Pdx(va) < USER_PDES && Ptx(va) < NPTENTRIES
      ensures r == if TableOf(old(M()), e, Pdx(va)) == -1 && old(freePages) == [] then E_NO_MEM else 0
      ensures r == 0 ==> Books(ex, held - {pp}) && words[pp] == old(words)[pp]
      ensures r == 0 ==> {User(e, Pdx(va), Ptx(va))} <= holders[pp] <= old(holders)[pp] + {User(e, Pdx(va), Ptx(va))}
      ensures r == 0 ==> OnlyEntry(old(M()), M(), e, Pdx(va), Ptx(va), Word(pp, perm.(p := true)))
      ensures r != 0 ==> Books(ex, held) && words == old(words) && pp_ref == old(pp_ref) && holders == old(holders)
                         && freePages == old(freePages)
      ensures Kept(old(freePages), old(holders), old(words), holders, words)
    {
      var pt := PgdirWalk(e, va, true, ex, held);
      if pt == -1 {
        return E_NO_MEM;
      }
      ghost var m, h, w := M(), holders, words;
      InsertAt(e, pt, pp, va, perm, ex, held);
      KeptTrans(old(freePages), old(holders), old(words), h, w, holders, words);
      SameThenOnly(old(M()), m, M(), e, Pdx(va), Ptx(va), Word(pp, perm.(p := true)));
      return 0;
    }

    /** page_insert once the page table is there. */
    method InsertAt(e: nat, pt: nat, pp: nat, va: nat, perm: Flags, ghost ex: multiset<nat>, ghost held: set<nat>)
      requires Books(ex, held) && Tables() && e < NENV && env_pgdir[e] >= 0 && va < UTOP
      requires Pdx(va) < USER_PDES && Ptx(va) < NPTENTRIES && TableOf(M(), e, Pdx(va)) == pt
      requires pp < npages && pp !in reserved && pp !in freePages && Plain(holders[pp])
      modifies this`words, this`pp_ref, this`pp_link, this`page_free_list, this`freePages, this`holders
      ensures Books(ex, held - {pp}) && Tables() && words[pp] == old(words)[pp]
      ensures {User(e, Pdx(va), Ptx(va))} <= holders[pp] <= old(holders)[pp] + {User(e, Pdx(va), Ptx(va))}
      ensures OnlyEntry(old(M()), M(), e, Pdx(va), Ptx(va), Word(pp, perm.(p := true)))
      ensures Kept([], old(holders), old(words), holders, words)
    {
      TakeOver(e, pt, pp, va, ex, held);
      ghost var h, w := holders, words;
      StorePte(e, pt, pp, va, perm, ex, held - {pp});
      KeptTrans([], old(holders), old(words), h, w, holders, words);
    }

    /** The body of env_setup_vm, with its page p. */
    method InstallDir(e: nat, p: nat)
      requires Books(multiset{}, {p}) && Tables() && e < NENV && env_pgdir[e] == -1
      requires p < npages && holders[p] == {}
      modifies this`words, this`pp_ref, this`holders, this`env_pgdir
      ensures Books(multiset{}, {}) && Tables() && SameEntries(old(M()), M())
      ensures env_pgdir == old(env_pgdir)[e := p]
      ensures Kept([p], old(holders), old(words), holders, words)
    {
      var page := words[kern][UVPT_PDX := Word(p, UserRead())];
      ghost var m' := Mem(words[p := page], env_pgdir[e := p]);
      DirSet(M(), holders, kern, e, p, page);
      assert {} + {p} == {p};
      FirstRef(pp_ref, holders, multiset{}, reserved, pp_link, page_free_list, freePages, {}, p, Dir(e));
      env_pgdir := env_pgdir[e := p];
      words := words[p := page];
      pp_ref := pp_ref[p := pp_ref[p] + 1];
      holders := Put(holders, p, Dir(e));
      assert M() == m';
    }

    /** env_setup_vm: a directory that shares the kernel half and maps nothing below UTOP. */
    method EnvSetupVm(e: nat) returns (r: int)
      requires Books(multiset{}, {}) && Tables() && e < NENV && env_pgdir[e] == -1
      modifies this`words, this`pp_ref, this`pp_link, this`page_free_list, this`freePages, this`holders, this`env_pgdir
      ensures Books(multiset{}, {}) && Tables() && SameEntries(old(M()), M())
      ensures r == if old(freePages) == [] then E_NO_MEM else 0
      ensures r == 0 ==> env_pgdir[e] >= 0 && env_pgdir == old(env_pgdir)[e := env_pgdir[e]]
      ensures r != 0 ==> env_pgdir == old(env_pgdir)
      ensures Kept(old(freePages), old(holders), old(words), holders, words)
    {
      var p := PageAlloc(true, multiset{}, {});
      if p == -1 {
        return E_NO_MEM;
      }
      assert {} + {p} == {p};
      InstallDir(e, p);
      return 0;
    }

    /** The body of the inner loop of env_free. */
    method UnmapEntry(e: nat, d: nat, t: nat, pt: nat)
      requires Books(multiset{}, {}) && Tables() && e < NENV && env_pgdir[e] >= 0
      requires d < USER_PDES && t < NPTENTRIES && TableOf(M(), e, d) == pt
      modifies this`words, this`pp_ref, this`pp_link, this`page_free_list, this`freePages, this`holders
      ensures Books(multiset{}, {}) && Tables() && OthersKeep(old(M()), M(), e) && SameTables(old(M()), M())
      ensures !Entry(M(), e, d, t).flags.p
      ensures forall t' :: 0 <= t' < NPTENTRIES && t' != t ==> Entry(M(), e, d, t') == Entry(old(M()), e, d, t')
      ensures Kept([], old(holders), old(words), holders, words)
    {
      AddressParts(d, t);
      if words[pt][t].flags.p {
        PageRemove(e, PgAddr(d, t), multiset{}, {});
      }
    }

    /** The inner loop of env_free: unmap every page behind one page table. */
    method UnmapTable(e: nat, pdeno: nat, pt: nat)
      requires Books(multiset{}, {}) && Tables() && e < NENV && env_pgdir[e] >= 0
      requires pdeno < USER_PDES && TableOf(M(), e, pdeno) == pt
      modifies this`words, this`pp_ref, this`pp_link, this`page_free_list, this`freePages, this`holders
      ensures Books(multiset{}, {}) && Tables() && OthersKeep(old(M()), M(), e) && SameTables(old(M()), M())
      ensures forall t :: 0 <= t < NPTENTRIES ==> !Entry(M(), e, pdeno, t).flags.p
      ensures Kept([], old(holders), old(words), holders, words)
    {
      var pteno := 0;
      while pteno < NPTENTRIES
        invariant pteno <= NPTENTRIES
        invariant Books(multiset{}, {}) && Tables() && OthersKeep(old(M()), M(), e) && SameTables(old(M()), M())
        invariant Kept([], old(holders), old(words), holders, words)
        invariant forall t :: 0 <= t < pteno ==> !Entry(M(), e, pdeno, t).flags.p
      {
        ghost var h, w := holders, words;
        UnmapEntry(e, pdeno, pteno, pt);
        KeptTrans([], old(holders), old(words), h, w, holders, words);
        pteno := pteno + 1;
      }
    }

    /** Then clear the directory entry, keeping the reference to the table in hand. */
    method UnhangTable(e: nat, pdeno: nat, pt: nat)
      requires Books(multiset{}, {}) && Tables() && e < NENV && env_pgdir[e] >= 0
      requires pdeno < USER_PDES && TableOf(M(), e, pdeno) == pt
      requires forall t :: 0 <= t < NPTENTRIES ==> !Entry(M(), e, pdeno, t).flags.p
      modifies this`words, this`holders
      ensures Books(multiset{pt}, {}) && Tables() && OthersKeep(old(M()), M(), e) && TableOf(M(), e, pdeno) == -1
      ensures forall d :: 0 <= d < USER_PDES && d != pdeno ==> TableOf(M(), e, d) == TableOf(old(M()), e, d)
      ensures Kept([], old(holders), old(words), holders, words)
    {
      ghost var m' := Mem(words[env_pgdir[e] := words[env_pgdir[e]][pdeno := ZERO]], env_pgdir);
      ClearPde(M(), holders, kern, e, pdeno);
      assert Target(M(), Table(e, pdeno)) == pt && Target(M(), Dir(e)) == env_pgdir[e];
      TakeRef(pp_ref, holders, multiset{}, reserved, pt, Table(e, pdeno));
      KeptWrite(holders, words, Take(holders, pt, Table(e, pdeno)), env_pgdir[e], words[env_pgdir[e]][pdeno := ZERO]);
      words := words[env_pgdir[e] := words[env_pgdir[e]][pdeno := ZERO]];
      holders := Take(holders, pt, Table(e, pdeno));
      assert multiset{} + multiset{pt} == multiset{pt};
      assert M() == m';
    }

    /** One round of the outer loop of env_free. */
    method FreeTable(e: nat, pdeno: nat)
      requires Books(multiset{}, {}) && Tables() && e < NENV && env_pgdir[e] >= 0 && pdeno < USER_PDES
      modifies this`words, this`pp_ref, this`pp_link, this`page_free_list, this`freePages, this`holders
      ensures Books(multiset{}, {}) && Tables() && OthersKeep(old(M()), M(), e) && TableOf(M(), e, pdeno) == -1
      ensures forall d :: 0 <= d < USER_PDES && d != pdeno ==> TableOf(M(), e, d) == TableOf(old(M()), e, d)
      ensures Kept([], old(holders), old(words), holders, words)
    {
      var pde := words[env_pgdir[e]][pdeno];
      if pde.flags.p {
        UnmapTable(e, pdeno, pde.frame);
        UnhangTable(e, pdeno, pde.frame);
        assert multiset{} + multiset{pde.frame} == multiset{pde.frame};
        PageDecref(pde.frame, multiset{}, {});
      }
    }

    /** The outer loop of env_free. */
    method FreeTables(e: nat)
      requires Books(multiset{}, {}) && Tables() && e < NENV && env_pgdir[e] >= 0
      modifies this`words, this`pp_ref, this`pp_link, this`page_free_list, this`freePages, this`holders
      ensures Books(multiset{}, {}) && Tables() && OthersKeep(old(M()), M(), e)
      ensures forall d :: 0 <= d < USER_PDES ==> TableOf(M(), e, d) == -1
      ensures Kept([], old(holders), old(words), holders, words)
    {
      var pdeno := 0;
      while pdeno < USER_PDES
        invariant pdeno <= USER_PDES
        invariant Books(multiset{}, {}) && Tables() && OthersKeep(old(M()), M(), e)
        invariant Kept([], old(holders), old(words), holders, words)
        invariant forall d :: 0 <= d < pdeno ==> TableOf(M(), e, d) == -1
      {
        FreeTable(e, pdeno);
        pdeno := pdeno + 1;
      }
    }

    /** Last, the page directory. */
    method ReleaseDir(e: nat)
      requires Books(multiset{}, {}) && Tables() && e < NENV && env_pgdir[e] >= 0
      requires forall d :: 0 <= d < USER_PDES ==> TableOf(M(), e, d) == -1
      modifies this`pp_ref, this`pp_link, this`page_free_list, this`freePages, this`holders, this`env_pgdir
      ensures Books(multiset{}, {}) && Tables() && OthersKeep(old(M()), M(), e)
      ensures env_pgdir == old(env_pgdir)[e := -1]
      ensures Kept([], old(holders), old(words), holders, words)
    {
      DropDir(M(), holders, kern, e);
      var p := env_pgdir[e];
      assert Target(M(), Dir(e)) == p;
      TakeRef(pp_ref, holders, multiset{}, reserved, p, Dir(e));
      env_pgdir := env_pgdir[e := -1];
      holders := Take(holders, p, Dir(e));
      PageDecref(p, multiset{}, {});
    }

    /** The address space of e is gone, and with it exactly its references. */
    method FreeSpace(e: nat)
      requires Books(multiset{}, {}) && Tables() && e < NENV && env_pgdir[e] >= 0
      modifies this`words, this`pp_ref, this`pp_link, this`page_free_list, this`freePages, this`holders, this`env_pgdir
      ensures Books(multiset{}, {}) && Tables() && OthersKeep(old(M()), M(), e) && env_pgdir == old(env_pgdir)[e := -1]
      ensures forall p :: 0 <= p < npages ==> holders[p] == set r | r in old(holders)[p] && r.e != e
      ensures Kept([], old(holders), old(words), holders, words)
    {
      FreeTables(e);
      ReleaseDir(e);
      forall p | 0 <= p < npages ensures holders[p] == set r | r in old(holders)[p] && r.e != e {
        GoneRefs(old(M()), old(holders), M(), holders, kern, e, p);
      }
    }

    /** env_free: exactly the references of e disappear, so a page only e referred to is free again. */
    method EnvFree(e: nat)
      requires Valid() && e < NENV && !env_status[e].Free?
      modifies this
      ensures Valid() && OthersKeep(old(M()), M(), e)
      ensures env_status == old(env_status)[e := Free] && env_id == old(env_id) && env_parent_id == old(env_parent_id)
      ensures forall p :: 0 <= p < npages ==> holders[p] == set r | r in old(holders)[p] && r.e != e
      ensures forall p :: 0 <= p < npages && p !in reserved && (forall r :: r in old(holders)[p] ==> r.e == e) ==> p in freePages
      ensures Kept(old(freePages), old(holders), old(words), holders, words)
    {
      FreeSpace(e);
      forall p | 0 <= p < npages && p !in reserved && (forall r :: r in old(holders)[p] ==> r.e == e) ensures p in freePages {
        assert holders[p] == {};
      }
      ReturnSlot(e);
    }

    /** The end of env_free. */
    method ReturnSlot(e: nat)
      requires EnvsOkBut(e) && e < NENV && !env_status[e].Free? && env_pgdir[e] == -1
      modifies this`env_status, this`env_link, this`env_free_list, this`freeEnvs
      ensures EnvsOk() && env_status == old(env_status)[e := Free]
    {
      ChainFrame(env_link, env_free_list, freeEnvs, e, env_free_list);
      env_status := env_status[e := Free];
      env_link := env_link[e := env_free_list];
      env_free_list := e;
      freeEnvs := [e] + freeEnvs;
    }

    /** Slot e is in use under its next id, RUNNABLE and not receiving; no other slot has changed. */
    ghost predicate Filled(status: seq<Status>, ids: seq<int>, parents: seq<int>, counts: seq<nat>, recving: seq<bool>, e: nat, parent: int)
      requires |status| == |ids| == |parents| == |counts| == |recving| == NENV && e < NENV
      reads this
    {
      && env_status == status[e := Runnable] && env_id == ids[e := EnvIds.NextId(ids[e], e)]
      && env_parent_id == parents[e := parent] && allocs == counts[e := counts[e] + 1] && env_ipc_recving == recving[e := false]
    }

    ghost predicate SameSlots(status: seq<Status>, ids: seq<int>, parents: seq<int>, counts: seq<nat>, recving: seq<bool>)
      reads this
    {
      env_status == status && env_id == ids && env_parent_id == parents && allocs == counts && env_ipc_recving == recving
    }

    /** env_alloc: the slot of the new environment, or an error code. */
    method EnvAlloc(parent: int) returns (e: int)
      requires Valid()
      modifies this
      ensures Valid() && SameEntries(old(M()), M())
      ensures e == if old(freeEnvs) == [] then E_NO_FREE_ENV else if old(freePages) == [] then E_NO_MEM else old(freeEnvs)[0]
      ensures if e < 0 then SameSlots(old(env_status), old(env_id), old(env_parent_id), old(allocs), old(env_ipc_recving))
              else e < NENV && old(env_status)[e].Free?
                   && Filled(old(env_status), old(env_id), old(env_parent_id), old(allocs), old(env_ipc_recving), e, parent)
      ensures Kept(old(freePages), old(holders), old(words), holders, words)
    {
      if env_free_list == -1 {
        return E_NO_FREE_ENV;
      }
      e := env_free_list;
      var r := FillEnv(e, parent);
      if r < 0 {
        return r;
      }
    }

    /** env_alloc once it has picked the first free slot. */
    method FillEnv(e: nat, parent: int) returns (r: int)
      requires Valid() && freeEnvs != [] && e == freeEnvs[0]
      modifies this`words, this`pp_ref, this`pp_link, this`page_free_list, this`freePages, this`holders, this`env_pgdir,
               this`env_id, this`env_parent_id, this`env_status, this`env_free_list, this`freeEnvs, this`allocs, this`env_ipc_recving
      ensures Valid() && SameEntries(old(M()), M()) && e < NENV && old(env_status)[e].Free?
      ensures r == if old(freePages) == [] then E_NO_MEM else 0
      ensures if r != 0 then SameSlots(old(env_status), old(env_id), old(env_parent_id), old(allocs), old(env_ipc_recving))
              else Filled(old(env_status), old(env_id), old(env_parent_id), old(allocs), old(env_ipc_recving), e, parent)
      ensures Kept(old(freePages), old(holders), old(words), holders, words)
    {
      r := SetUpSlot(e);
      if r == 0 {
        FillSlot(e, parent);
      }
    }

    /** env_setup_vm for the first free slot. */
    method SetUpSlot(e: nat) returns (r: int)
      requires Valid() && freeEnvs != [] && e == freeEnvs[0]
      modifies this`words, this`pp_ref, this`pp_link, this`page_free_list, this`freePages, this`holders, this`env_pgdir
      ensures Books(multiset{}, {}) && Tables() && SameEntries(old(M()), M()) && e < NENV && env_status[e].Free?
      ensures r == if old(freePages) == [] then E_NO_MEM else 0
      ensures if r == 0 then EnvsOkBut(e) && env_pgdir[e] != -1 else EnvsOk()
      ensures Kept(old(freePages), old(holders), old(words), holders, words)
    {
      assert e in freeEnvs;
      ghost var dirs := env_pgdir;
      r := EnvSetupVm(e);
      if r == 0 {
        ButOne(env_id, env_parent_id, env_status, dirs, env_link, env_free_list, freeEnvs, allocs,
               env_ipc_recving, env_ipc_dstva, env_ipc_msg, e, env_pgdir[e]);
      }
    }

    /** The end of env_alloc. */
    method FillSlot(e: nat, parent: int)
      requires e < NENV && EnvsOkBut(e) && freeEnvs != [] && e == freeEnvs[0] && env_pgdir[e] != -1
      modifies this`env_id, this`env_parent_id, this`env_status, this`env_free_list, this`freeEnvs, this`allocs, this`env_ipc_recving
      ensures EnvsOk() && old(env_status)[e].Free?
      ensures Filled(old(env_status), old(env_id), old(env_parent_id), old(allocs), old(env_ipc_recving), e, parent)
    {
      SlotTaken(env_id, env_parent_id, env_status, env_pgdir, env_link, env_free_list, freeEnvs, allocs,
                env_ipc_recving, env_ipc_dstva, env_ipc_msg, e, parent);
      env_id := env_id[e := EnvIds.NextId(env_id[e], e)];
      allocs := allocs[e := allocs[e] + 1];
      env_parent_id := env_parent_id[e := parent];
      env_status := env_status[e := Runnable];
      env_ipc_recving := env_ipc_recving[e := false];
      env_free_list := env_link[e];
      freeEnvs := freeEnvs[1..];
    }

    /** envid2env with checkperm, as the memory system calls use it. */
    ghost function Env(cur: nat, envid: int): int
      requires |env_id| == |env_parent_id| == |env_status| == NENV && cur < NENV
      reads this
    {
      Resolve(env_id, env_parent_id, env_status, cur, envid, true)
    }

    /** What envid means to the environment in slot cur: 0 is itself, any other id is a live environment of
        that id which is itself or a child of its own. */
    ghost predicate Names(cur: nat, envid: int, i: nat)
      requires |env_id| == |env_parent_id| == |env_status| == NENV && cur < NENV
      reads this
    {
      i < NENV &&
      if envid == 0 then i == cur
      else !env_status[i].Free? && env_id[i] == envid && (i == cur || env_parent_id[i] == env_id[cur])
    }

    /** envid2env finds exactly what the id means, and nothing when it means nothing. */
    lemma EnvNames(cur: nat, envid: int, i: nat)
      requires Valid() && cur < NENV
      ensures Names(cur, envid, i) <==> Env(cur, envid) == i
      ensures Env(cur, envid) == -1 || (0 <= Env(cur, envid) < NENV && Names(cur, envid, Env(cur, envid)))
    {
      if Names(cur, envid, i) && envid != 0 {
        assert IsSlot(i);
        EnvIds.IdEncodesSlot(i, allocs[i]);
      }
    }

    /** A user page that some PTE maps is counted, allocated and no table. */
    lemma MappedPage(e: nat, d: nat, t: nat)
      requires Valid() && e < NENV && d < USER_PDES && t < NPTENTRIES && Entry(M(), e, d, t).flags.p
      ensures var p := Entry(M(), e, d, t).frame;
              p < npages && p !in reserved && p !in freePages && Plain(holders[p])
    {
      var p, r := Entry(M(), e, d, t).frame, User(e, d, t);
      assert Target(M(), r) == p && r in holders[p];
      assert |holders[p]| > 0;
    }

    /** The allocating part of sys_page_alloc. */
    method AllocAt(e: nat, va: nat, perm: Flags) returns (r: int)
      requires Books(multiset{}, {}) && Tables() && e < NENV && env_pgdir[e] >= 0 && va < UTOP
      modifies this`words, this`pp_ref, this`pp_link, this`page_free_list, this`freePages, this`holders
      ensures Books(multiset{}, {}) && Tables() && Pdx(va) < USER_PDES && Ptx(va) < NPTENTRIES
      ensures r == if |old(freePages)| < (if TableOf(old(M()), e, Pdx(va)) == -1 then 2 else 1) then E_NO_MEM else 0
      ensures r != 0 ==> SameEntries(old(M()), M())
      ensures r == 0 ==> old(freePages) != [] && var p := old(freePages)[0];
                         && OnlyEntry(old(M()), M(), e, Pdx(va), Ptx(va), Word(p, perm.(p := true)))
                         && p < npages && holders[p] == {User(e, Pdx(va), Ptx(va))} && words[p] == ZeroPage()
      ensures Kept(old(freePages), old(holders), old(words), holders, words)
    {
      UserAddress(va);
      var pg := PageAlloc(true, multiset{}, {});
      if pg == -1 {
        return E_NO_MEM;
      }
      r := PlaceNew(e, pg, va, perm);
    }

    /** page_insert of a page just allocated and zeroed, or page_free when that fails. */
    method PlaceNew(e: nat, pg: nat, va: nat, perm: Flags) returns (r: int)
      requires Books(multiset{}, {pg}) && Tables() && e < NENV && env_pgdir[e] >= 0 && va < UTOP
      requires pg < npages && holders[pg] == {} && words[pg] == ZeroPage() && pp_link[pg] == -1
      modifies this`words, this`pp_ref, this`pp_link, this`page_free_list, this`freePages, this`holders
      ensures Books(multiset{}, {}) && Tables() && Pdx(va) < USER_PDES && Ptx(va) < NPTENTRIES
      ensures r == if old(freePages) == [] && TableOf(old(M()), e, Pdx(va)) == -1 then E_NO_MEM else 0
      ensures r != 0 ==> M() == old(M())
      ensures r == 0 ==> OnlyEntry(old(M()), M(), e, Pdx(va), Ptx(va), Word(pg, perm.(p := true)))
      ensures r == 0 ==> holders[pg] == {User(e, Pdx(va), Ptx(va))} && words[pg] == ZeroPage()
      ensures Kept(old(freePages), old(holders), old(words), holders, words)
    {
      UserAddress(va);
      assert {pg} - {pg} == {};
      r := PageInsert(e, pg, va, perm, multiset{}, {pg});
      if r < 0 {
        PageFree(pg, multiset{}, {pg});
      }
    }

    /** What sys_page_alloc answers: it takes one page, and a second one when the page table is missing. */
    ghost function AllocError(cur: nat, envid: int, va: nat, perm: Flags): int
      requires |env_id| == |env_parent_id| == |env_status| == NENV && cur < NENV && Shape(M())
      reads this
    {
      var e := Env(cur, envid);
      if e == -1 then E_BAD_ENV
      else if va >= UTOP || va % 0x1000 != 0 || BadPerm(perm) then E_INVAL
      else
        UserAddress(va);
        if |freePages| < (if TableOf(M(), e, Pdx(va)) == -1 then 2 else 1) then E_NO_MEM else 0
    }

    /** sys_page_alloc: success maps a zeroed page that nobody else refers to; failure changes no address space. */
    method SysPageAlloc(cur: nat, envid: int, va: nat, perm: Flags) returns (r: int)
      requires Valid() && cur < NENV && !env_status[cur].Free?
      modifies this`words, this`pp_ref, this`pp_link, this`page_free_list, this`freePages, this`holders
      ensures Valid() && r == old(AllocError(cur, envid, va, perm))
      ensures r != 0 ==> SameEntries(old(M()), M())
      ensures r == 0 ==> Pdx(va) < USER_PDES && Ptx(va) < NPTENTRIES && old(freePages) != []
      ensures r == 0 ==> var e, p := old(Env(cur, envid)), old(freePages)[0];
                         && OnlyEntry(old(M()), M(), e, Pdx(va), Ptx(va), Word(p, perm.(p := true)))
                         && p < npages && holders[p] == {User(e, Pdx(va), Ptx(va))} && words[p] == ZeroPage()
      ensures Kept(old(freePages), old(holders), old(words), holders, words)
    {
      var e := Resolve(env_id, env_parent_id, env_status, cur, envid, true);
      if e == -1 {
        return E_BAD_ENV;
      }
      if va >= UTOP || va % 0x1000 != 0 {
        return E_INVAL;
      }
      if BadPerm(perm) {
        return E_INVAL;
      }
      r := AllocFor(e, va, perm);
    }

    /** The allocation between two quiet states. */
    method AllocFor(e: nat, va: nat, perm: Flags) returns (r: int)
      requires Valid() && e < NENV && !env_status[e].Free? && va < UTOP
      modifies this`words, this`pp_ref, this`pp_link, this`page_free_list, this`freePages, this`holders
      ensures Valid() && Pdx(va) < USER_PDES && Ptx(va) < NPTENTRIES
      ensures r == if |old(freePages)| < (if TableOf(old(M()), e, Pdx(va)) == -1 then 2 else 1) then E_NO_MEM else 0
      ensures r != 0 ==> SameEntries(old(M()), M())
      ensures r == 0 ==> old(freePages) != [] && var p := old(freePages)[0];
                         && OnlyEntry(old(M()), M(), e, Pdx(va), Ptx(va), Word(p, perm.(p := true)))
                         && p < npages && holders[p] == {User(e, Pdx(va), Ptx(va))} && words[p] == ZeroPage()
      ensures Kept(old(freePages), old(holders), old(words), holders, words)
    {
      r := AllocAt(e, va, perm);
    }

    /** sys_page_unmap */
    method SysPageUnmap(cur: nat, envid: int, va: nat) returns (r: int)
      requires Valid() && cur < NENV && !env_status[cur].Free?
      modifies this`words, this`pp_ref, this`pp_link, this`page_free_list, this`freePages, this`holders
      ensures Valid()
      ensures r == if old(Env(cur, envid)) == -1 then E_BAD_ENV else if va >= UTOP || va % 0x1000 != 0 then E_INVAL else 0
      ensures r != 0 ==> SameEntries(old(M()), M())
      ensures r == 0 ==> Pdx(va) < USER_PDES && Ptx(va) < NPTENTRIES
      ensures r == 0 ==> var w := Entry(old(M()), old(Env(cur, envid)), Pdx(va), Ptx(va));
                         OnlyEntry(old(M()), M(), old(Env(cur, envid)), Pdx(va), Ptx(va), if w.flags.p then ZERO else w)
      ensures Kept(old(freePages), old(holders), old(words), holders, words)
    {
      var e := Resolve(env_id, env_parent_id, env_status, cur, envid, true);
      if e == -1 {
        return E_BAD_ENV;
      }
      if va >= UTOP || va % 0x1000 != 0 {
        return E_INVAL;
      }
      UnmapAt(e, va);
      r := 0;
    }

    /** page_remove between two quiet states. */
    method UnmapAt(e: nat, va: nat)
      requires Valid() && e < NENV && !env_status[e].Free? && va < UTOP
      modifies this`words, this`pp_ref, this`pp_link, this`page_free_list, this`freePages, this`holders
      ensures Valid() && Pdx(va) < USER_PDES && Ptx(va) < NPTENTRIES
      ensures var w := Entry(old(M()), e, Pdx(va), Ptx(va));
              OnlyEntry(old(M()), M(), e, Pdx(va), Ptx(va), if w.flags.p then ZERO else w)
      ensures Kept(old(freePages), old(holders), old(words), holders, words)
    {
      PageRemove(e, va, multiset{}, {});
    }

    /** The errors of sys_page_map that precede page_insert. */
    ghost function MapError(cur: nat, srcid: int, srcva: nat, dstid: int, dstva: nat, perm: Flags): int
      requires |env_id| == |env_parent_id| == |env_status| == NENV && cur < NENV && Shape(M())
      reads this
    {
      if Env(cur, srcid) == -1 || Env(cur, dstid) == -1 then E_BAD_ENV
      else if srcva >= UTOP || srcva % 0x1000 != 0 || dstva >= UTOP || dstva % 0x1000 != 0 then E_INVAL
      else CopyError(Env(cur, srcid), srcva, Env(cur, dstid), dstva, perm)
    }

    /** Whether the page at srcva of src can be mapped at dstva of dst. */
    ghost function CopyError(src: nat, srcva: nat, dst: nat, dstva: nat, perm: Flags): int
      requires src < NENV && srcva < UTOP && dst < NENV && dstva < UTOP && Shape(M())
      reads this
    {
      UserAddress(srcva);
      var w := Entry(M(), src, Pdx(srcva), Ptx(srcva));
      if !w.flags.p || BadPerm(perm) || (perm.w && !w.flags.w) then E_INVAL else NoTable(dst, dstva)
    }

    /** The common end of sys_page_map and of the page transfer of a send. */
    method CopyMapping(src: nat, srcva: nat, dst: nat, dstva: nat, perm: Flags) returns (r: int)
      requires Valid() && src < NENV && !env_status[src].Free? && dst < NENV && !env_status[dst].Free? && srcva < UTOP && dstva < UTOP
      modifies this`words, this`pp_ref, this`pp_link, this`page_free_list, this`freePages, this`holders
      ensures Valid() && Pdx(srcva) < USER_PDES && Ptx(srcva) < NPTENTRIES && Pdx(dstva) < USER_PDES && Ptx(dstva) < NPTENTRIES
      ensures r == old(CopyError(src, srcva, dst, dstva, perm))
      ensures r != 0 ==> SameEntries(old(M()), M())
      ensures r == 0 ==> OnlyEntry(old(M()), M(), dst, Pdx(dstva), Ptx(dstva),
                                   Word(Entry(old(M()), src, Pdx(srcva), Ptx(srcva)).frame, perm.(p := true)))
      ensures Kept(old(freePages), old(holders), old(words), holders, words)
    {
      UserAddress(dstva);
      var pt, pte := PageLookup(src, srcva, multiset{}, {});
      if !pte.flags.p || BadPerm(perm) || (perm.w && !pte.flags.w) {
        return E_INVAL;
      }
      MappedPage(src, Pdx(srcva), Ptx(srcva));
      r := MapAt(dst, pte.frame, dstva, perm);
    }

    /** page_insert fails exactly when it needs a page table and there is no page for it. */
    ghost function NoTable(e: nat, va: nat): int
      requires Shape(M()) && e < NENV && va < UTOP
      reads this
    {
      UserAddress(va);
      if TableOf(M(), e, Pdx(va)) == -1 && freePages == [] then E_NO_MEM else 0
    }

    /** The page_insert of sys_page_map, between two quiet states. */
    method MapAt(e: nat, p: nat, va: nat, perm: Flags) returns (r: int)
      requires Valid() && e < NENV && !env_status[e].Free? && va < UTOP
      requires p < npages && p !in reserved && p !in freePages && Plain(holders[p])
      modifies this`words, this`pp_ref, this`pp_link, this`page_free_list, this`freePages, this`holders
      ensures Valid() && Pdx(va) < USER_PDES && Ptx(va) < NPTENTRIES
      ensures r == if TableOf(old(M()), e, Pdx(va)) == -1 && old(freePages) == [] then E_NO_MEM else 0
      ensures r != 0 ==> SameEntries(old(M()), M())
      ensures r == 0 ==> OnlyEntry(old(M()), M(), e, Pdx(va), Ptx(va), Word(p, perm.(p := true)))
      ensures Kept(old(freePages), old(holders), old(words), holders, words)
    {
      UserAddress(va);
      assert {} - {p} == {};
      r := PageInsert(e, p, va, perm, multiset{}, {});
    }

    /** sys_page_map: success makes one PTE of the destination name the page the source maps. */
    method SysPageMap(cur: nat, srcid: int, srcva: nat, dstid: int, dstva: nat, perm: Flags) returns (r: int)
      requires Valid() && cur < NENV && !env_status[cur].Free?
      modifies this`words, this`pp_ref, this`pp_link, this`page_free_list, this`freePages, this`holders
      ensures Valid() && r == old(MapError(cur, srcid, srcva, dstid, dstva, perm))
      ensures r != 0 ==> SameEntries(old(M()), M())
      ensures r == 0 ==> srcva < UTOP && dstva < UTOP && Pdx(srcva) < USER_PDES && Pdx(dstva) < USER_PDES
      ensures r == 0 ==>
                var p := Entry(old(M()), old(Env(cur, srcid)), Pdx(srcva), Ptx(srcva)).frame;
                OnlyEntry(old(M()), M(), old(Env(cur, dstid)), Pdx(dstva), Ptx(dstva), Word(p, perm.(p := true)))
      ensures Kept(old(freePages), old(holders), old(words), holders, words)
    {
      var src := Resolve(env_id, env_parent_id, env_status, cur, srcid, true);
      var dst := Resolve(env_id, env_parent_id, env_status, cur, dstid, true);
      if src == -1 || dst == -1 {
        return E_BAD_ENV;
      }
      if srcva >= UTOP || srcva % 0x1000 != 0 || dstva >= UTOP || dstva % 0x1000 != 0 {
        return E_INVAL;
      }
      r := CopyMapping(src, srcva, dst, dstva, perm);
    }

    /** What sys_ipc_try_send answers. */
    ghost function SendError(cur: nat, envid: int, srcva: nat, perm: Flags): int
      requires |env_id| == |env_parent_id| == |env_status| == NENV && cur < NENV && Shape(M())
      requires IpcOk(env_ipc_recving, env_ipc_dstva, env_ipc_msg)
      reads this
    {
      var e := Resolve(env_id, env_parent_id, env_status, cur, envid, false);
      if e == -1 then E_BAD_ENV
      else if !env_ipc_recving[e] then E_IPC_NOT_RECV
      else if srcva >= UTOP then 0
      else if srcva % 0x1000 != 0 then E_INVAL
      else CopyError(cur, srcva, e, env_ipc_dstva[e], perm)
    }

    /** sys_ipc_try_send: the receiver wakes exactly when the call succeeds, with the value, the sender
        and the permissions in its fields, and one new mapping if the sender offered a page. */
    method SysIpcTrySend(cur: nat, envid: int, value: nat, srcva: nat, perm: Flags) returns (r: int)
      requires Valid() && cur < NENV && !env_status[cur].Free?
      modifies this`words, this`pp_ref, this`pp_link, this`page_free_list, this`freePages, this`holders,
               this`env_status, this`env_ipc_recving, this`env_ipc_msg
      ensures Valid() && r == old(SendError(cur, envid, srcva, perm))
      ensures r != 0 ==> SameEntries(old(M()), M()) && env_status == old(env_status)
                         && env_ipc_recving == old(env_ipc_recving) && env_ipc_msg == old(env_ipc_msg)
      ensures r == 0 ==>
                var e := Resolve(env_id, env_parent_id, old(env_status), cur, envid, false);
                && e != -1 && Delivered(old(env_status), old(env_ipc_recving), old(env_ipc_msg), e,
                                        Message(value, env_id[cur], if srcva < UTOP then perm else NO_FLAGS))
                && Pdx(env_ipc_dstva[e]) < USER_PDES
                && if srcva < UTOP then
                     Pdx(srcva) < USER_PDES &&
                     OnlyEntry(old(M()), M(), e, Pdx(env_ipc_dstva[e]), Ptx(env_ipc_dstva[e]),
                               Word(Entry(old(M()), cur, Pdx(srcva), Ptx(srcva)).frame, perm.(p := true)))
                   else M() == old(M())
      ensures Kept(old(freePages), old(holders), old(words), holders, words)
    {
      var e := Resolve(env_id, env_parent_id, env_status, cur, envid, false);
      if e == -1 {
        return E_BAD_ENV;
      }
      if !env_ipc_recving[e] {
        return E_IPC_NOT_RECV;
      }
      UserAddress(env_ipc_dstva[e]);
      if srcva < UTOP && env_ipc_dstva[e] < UTOP {
        r := Deliver(cur, e, value, srcva, perm);
      } else {
        Wake(e, Message(value, env_id[cur], NO_FLAGS));
        r := 0;
      }
    }

    /** Nothing but the status and the message fields of e has changed, and it is awake. */
    ghost predicate Delivered(status: seq<Status>, recving: seq<bool>, msg: seq<Message>, e: nat, m: Message)
      requires e < |status| && e < |recving| && e < |msg|
      reads this
    {
      env_status == status[e := Runnable] && env_ipc_recving == recving[e := false] && env_ipc_msg == msg[e := m]
    }

    /** The end of sys_ipc_try_send, for a receiver that waits and a sender that offers a page. */
    method Deliver(cur: nat, e: nat, value: nat, srcva: nat, perm: Flags) returns (r: int)
      requires Valid() && cur < NENV && !env_status[cur].Free? && e < NENV && !env_status[e].Free? && srcva < UTOP
      modifies this`words, this`pp_ref, this`pp_link, this`page_free_list, this`freePages, this`holders,
               this`env_status, this`env_ipc_recving, this`env_ipc_msg
      ensures Valid() && Pdx(env_ipc_dstva[e]) < USER_PDES && Pdx(srcva) < USER_PDES
      ensures r == if srcva % 0x1000 != 0 then E_INVAL else old(CopyError(cur, srcva, e, env_ipc_dstva[e], perm))
      ensures r != 0 ==> SameEntries(old(M()), M()) && env_status == old(env_status)
                         && env_ipc_recving == old(env_ipc_recving) && env_ipc_msg == old(env_ipc_msg)
      ensures r == 0 ==>
                && Delivered(old(env_status), old(env_ipc_recving), old(env_ipc_msg), e, Message(value, env_id[cur], perm))
                && OnlyEntry(old(M()), M(), e, Pdx(env_ipc_dstva[e]), Ptx(env_ipc_dstva[e]),
                             Word(Entry(old(M()), cur, Pdx(srcva), Ptx(srcva)).frame, perm.(p := true)))
      ensures Kept(old(freePages), old(holders), old(words), holders, words)
    {
      r := SendPage(cur, e, srcva, perm);
      if r == 0 {
        Wake(e, Message(value, env_id[cur], perm));
      }
    }

    /** The page transfer of a send: the page at srcva goes to where the receiver last asked for one. */
    method SendPage(cur: nat, e: nat, srcva: nat, perm: Flags) returns (r: int)
      requires Valid() && cur < NENV && !env_status[cur].Free? && e < NENV && !env_status[e].Free? && srcva < UTOP
      modifies this`words, this`pp_ref, this`pp_link, this`page_free_list, this`freePages, this`holders
      ensures Valid() && Pdx(srcva) < USER_PDES && Ptx(srcva) < NPTENTRIES && Pdx(env_ipc_dstva[e]) < USER_PDES
      ensures r == if srcva % 0x1000 != 0 then E_INVAL else old(CopyError(cur, srcva, e, env_ipc_dstva[e], perm))
      ensures r != 0 ==> SameEntries(old(M()), M())
      ensures r == 0 ==>
                OnlyEntry(old(M()), M(), e, Pdx(env_ipc_dstva[e]), Ptx(env_ipc_dstva[e]),
                          Word(Entry(old(M()), cur, Pdx(srcva), Ptx(srcva)).frame, perm.(p := true)))
      ensures Kept(old(freePages), old(holders), old(words), holders, words)
    {
      UserAddress(srcva);
      UserAddress(env_ipc_dstva[e]);
      if srcva % 0x1000 != 0 {
        return E_INVAL;
      }
      r := CopyMapping(cur, srcva, e, env_ipc_dstva[e], perm);
    }

    method Wake(e: nat, m: Message)
      requires Valid() && e < NENV && !env_status[e].Free?
      modifies this`env_status, this`env_ipc_recving, this`env_ipc_msg
      ensures Valid() && M() == old(M()) && Delivered(old(env_status), old(env_ipc_recving), old(env_ipc_msg), e, m)
    {
      env_ipc_recving := env_ipc_recving[e := false];
      env_ipc_msg := env_ipc_msg[e := m];
      env_status := env_status[e := Runnable];
    }

    /** sys_ipc_recv: blocks, unless the address is refused. */
    method SysIpcRecv(cur: nat, dstva: nat) returns (r: int)
      requires Valid() && cur < NENV && !env_status[cur].Free?
      modifies this`env_status, this`env_ipc_recving, this`env_ipc_dstva
      ensures Valid() && r == if dstva < UTOP && dstva % 0x1000 != 0 then E_INVAL else 0
      ensures r != 0 ==> env_status == old(env_status) && env_ipc_recving == old(env_ipc_recving) && env_ipc_dstva == old(env_ipc_dstva)
      ensures r == 0 ==> env_status == old(env_status)[cur := NotRunnable] && env_ipc_recving == old(env_ipc_recving)[cur := true]
      ensures r == 0 ==> env_ipc_dstva == if dstva < UTOP then old(env_ipc_dstva)[cur := dstva] else old(env_ipc_dstva)
    {
      if dstva < UTOP {
        if dstva % 0x1000 != 0 {
          return E_INVAL;
        }
        env_ipc_dstva := env_ipc_dstva[cur := dstva];
      }
      env_ipc_recving := env_ipc_recving[cur := true];
      env_status := env_status[cur := NotRunnable];
      r := 0;
    }

    /** A store of user code through the MMU: it reaches data only, never a page table. */
    method UserStore(cur: nat, va: nat, w: Word) returns (ok: bool)
      requires Valid() && cur < NENV && !env_status[cur].Free?
      modifies this`words
      ensures Valid() && SameEntries(old(M()), M())
      ensures !ok ==> words == old(words)
      ensures va < UTOP ==> Pdx(va) < USER_PDES && var f := Entry(M(), cur, Pdx(va), Ptx(va)).flags; ok == (f.p && f.w && f.u)
      ensures va >= UTOP ==> !ok
      ensures ok ==> var p := Entry(M(), cur, Pdx(va), Ptx(va)).frame;
                     p < npages && words == old(words)[p := old(words)[p][va / 4 % 0x400 := w]]
    {
      if va >= UTOP {
        return false;
      }
      UserAddress(va);
      var pde := words[env_pgdir[cur]][Pdx(va)];
      if !pde.flags.p || !pde.flags.w || !pde.flags.u {
        return false;
      }
      var pt, pte := PageLookup(cur, va, multiset{}, {});
      if !pte.flags.p || !pte.flags.w || !pte.flags.u {
        return false;
      }
      MappedPage(cur, Pdx(va), Ptx(va));
      WriteData(M(), holders, kern, pte.frame, words[pte.frame][va / 4 % 0x400 := w]);
      words := words[pte.frame := words[pte.frame][va / 4 % 0x400 := w]];
      ok := true;
    }

    /** sys_exofork */
    method SysExofork(cur: nat) returns (r: int)
      requires Valid() && cur < NENV && !env_status[cur].Free?
      modifies this
      ensures Valid() && SameEntries(old(M()), M())
      ensures r == E_NO_FREE_ENV <==> old(freeEnvs) == []
      ensures r == E_NO_MEM <==> old(freeEnvs) != [] && old(freePages) == []
      ensures r < 0 ==> (old(freeEnvs) == [] || old(freePages) == []) && env_status == old(env_status) && env_id == old(env_id)
                        && env_parent_id == old(env_parent_id)
      ensures r >= 0 ==> old(freeEnvs) != [] && Env(cur, r) == old(freeEnvs)[0]
      ensures r >= 0 ==> old(freeEnvs) != [] && var e := old(freeEnvs)[0];
                         && e < NENV && env_id[e] == r && r % NENV == e
                         && env_status == old(env_status)[e := NotRunnable] && !env_ipc_recving[e]
                         && env_id == old(env_id)[e := r] && env_parent_id == old(env_parent_id)[e := old(env_id)[cur]]
      ensures Kept(old(freePages), old(holders), old(words), holders, words)
    {
      var e := EnvAlloc(env_id[cur]);
      if e < 0 {
        return e;
      }
      env_status := env_status[e := NotRunnable];
      r := env_id[e];
      EnvIds.NextIdCarriesSlot(old(env_id)[e], e);
      EnvNames(cur, r, e);
    }

    /** sys_env_destroy and env_destroy: a target running elsewhere is only marked. */
    method SysEnvDestroy(cur: nat, envid: int) returns (r: int)
      requires Valid() && cur < NENV && !env_status[cur].Free?
      modifies this
      ensures Valid()
      ensures r == if old(Env(cur, envid)) == -1 then E_BAD_ENV else 0
      ensures env_id == old(env_id) && env_parent_id == old(env_parent_id)
      ensures r != 0 ==> SameEntries(old(M()), M()) && env_status == old(env_status)
      ensures r == 0 ==> var e := old(Env(cur, envid));
                         && OthersKeep(old(M()), M(), e)
                         && env_status == old(env_status)[e := if old(env_status)[e].Running? && e != cur then Dying else Free]
                         && (old(env_status)[e].Running? && e != cur ==> M() == old(M()))
      ensures Kept(old(freePages), old(holders), old(words), holders, words)
    {
      var e := Resolve(env_id, env_parent_id, env_status, cur, envid, true);
      if e == -1 {
        return E_BAD_ENV;
      }
      if env_status[e].Running? && e != cur {
        env_status := env_status[e := Dying];
        return 0;
      }
      EnvFree(e);
      return 0;
    }

    /** Everyone who refers to page p: environments by their directory, directories by their entries,
        page tables by theirs. */
    ghost predicate Refers(r: Ref, p: nat)
      requires Shape(M())
      reads this
    {
      InRange(r) && Target(M(), r) == p
    }

    /** pp_ref is the number of places that refer to the page, and the page is free exactly when there is none. */
    ghost predicate Agrees(p: nat)
      requires Shape(M()) && p < |pp_ref|
      reads this
    {
      && (exists s: set<Ref> :: pp_ref[p] == |s| && forall r :: r in s <==> Refers(r, p))
      && (p in freePages <==> forall r :: !Refers(r, p))
    }

    /** Valid makes every page that is not reserved agree. */
    lemma CountAgreement(p: nat)
      requires Valid() && p < npages && p !in reserved
      ensures Agrees(p)
    {
      var s := holders[p];
      assert pp_ref[p] == |s| && forall r :: r in s <==> Refers(r, p);
      if p !in freePages {
        var r :| r in s;
        assert Refers(r, p);
      }
    }

    /** sys_env_set_status */
    method SysEnvSetStatus(cur: nat, envid: int, status: Status) returns (r: int)
      requires Valid() && cur < NENV && !env_status[cur].Free?
      modifies this`env_status
      ensures Valid()
      ensures r == if old(Env(cur, envid)) == -1 then E_BAD_ENV
                   else if !status.Runnable? && !status.NotRunnable? then E_INVAL else 0
      ensures env_status == if r == 0 then old(env_status)[old(Env(cur, envid)) := status] else old(env_status)
    {
      var e := Resolve(env_id, env_parent_id, env_status, cur, envid, true);
      if e == -1 {
        return E_BAD_ENV;
      }
      if !status.Runnable? && !status.NotRunnable? {
        return E_INVAL;
      }
      env_status := env_status[e := status];
      r := 0;
    }

    /** The status changes of env_run. */
    method EnvRun(cur: nat, e: nat)
      requires Valid() && cur < NENV && e < NENV && !env_status[e].Free?
      modifies this`env_status
      ensures Valid()
      ensures env_status == (if old(env_status)[cur].Running? then old(env_status)[cur := Runnable] else old(env_status))[e := Running]
    {
      if env_status[cur].Running? {
        env_status := env_status[cur := Runnable];
      }
      env_status := env_status[e := Running];
    }

    /** The zombie check of trap: an environment marked by env_destroy is freed on its own CPU. */
    method Reap(cur: nat)
      requires Valid() && cur < NENV && !env_status[cur].Free?
      modifies this
      ensures Valid() && OthersKeep(old(M()), M(), cur)
      ensures env_status == if old(env_status)[cur].Dying? then old(env_status)[cur := Free] else old(env_status)
      ensures !old(env_status)[cur].Dying? ==> M() == old(M())
      ensures env_id == old(env_id) && env_parent_id == old(env_parent_id)
      ensures Kept(old(freePages), old(holders), old(words), holders, words)
    {
      if env_status[cur].Dying? {
        EnvFree(cur);
      }
    }

    ghost function Now(): Moment
      reads this
    {
      Moment(holders, freePages, words, env_pgdir, env_id, env_parent_id, env_status, env_ipc_recving)
    }

    lemma NowSane()
      requires Valid()
      ensures Sane(Now()) && MemOf(Now()) == M()
    {
    }

    /** What Step promises of every call. */
    twostate predicate Done(c: Call)
      reads this
    {
      Valid() && Moves(c, old(Now()), Now()) && Lawful(c, old(Now()), Now())
    }

    /** One call, if its environment exists. */
    method Step(c: Call)
      requires Valid()
      modifies this
      ensures Done(c)
    {
      NowSane();
      if c.cur >= NENV || env_status[c.cur].Free? {
        LawfulSame(c, Now(), Now());
        return;
      }
      match c
      case PageAllocCall(cur, envid, va, perm) => StepAlloc(cur, envid, va, perm);
      case PageMapCall(cur, srcid, srcva, dstid, dstva, perm) => StepMap(cur, srcid, srcva, dstid, dstva, perm);
      case PageUnmapCall(cur, envid, va) => StepUnmap(cur, envid, va);
      case ExoforkCall(cur) => StepExofork(cur);
      case DestroyCall(cur, envid) => StepDestroy(cur, envid);
      case StoreCall(cur, va, w) => StepStore(cur, va, w);
      case SendCall(cur, envid, value, srcva, perm) => StepSend(cur, envid, value, srcva, perm);
      case RecvCall(cur, dstva) => StepRecv(cur, dstva);
      case StatusCall(cur, envid, status) => StepStatus(cur, envid, status);
      case DispatchCall(cur, e) => StepDispatch(cur, e);
      case ReapCall(cur) => StepReap(cur);
    }

    method StepAlloc(cur: nat, envid: int, va: nat, perm: Flags)
      requires Valid() && cur < NENV && !env_status[cur].Free?
      modifies this
      ensures Done(PageAllocCall(cur, envid, va, perm))
    {
      ghost var c, s, e := PageAllocCall(cur, envid, va, perm), Now(), Env(cur, envid);
      EnvNames(cur, envid, 0);
      NowSane();
      var r := SysPageAlloc(cur, envid, va, perm);
      NowSane();
      if r == 0 {
        LawfulEntry(c, s, Now(), e, Pdx(va), Ptx(va), Word(s.free[0], perm.(p := true)));
      } else {
        LawfulSame(c, s, Now());
      }
    }

    method StepMap(cur: nat, srcid: int, srcva: nat, dstid: int, dstva: nat, perm: Flags)
      requires Valid() && cur < NENV && !env_status[cur].Free?
      modifies this
      ensures Done(PageMapCall(cur, srcid, srcva, dstid, dstva, perm))
    {
      ghost var c, s := PageMapCall(cur, srcid, srcva, dstid, dstva, perm), Now();
      ghost var src, dst := Env(cur, srcid), Env(cur, dstid);
      EnvNames(cur, srcid, 0);
      EnvNames(cur, dstid, 0);
      NowSane();
      var r := SysPageMap(cur, srcid, srcva, dstid, dstva, perm);
      NowSane();
      if r == 0 {
        UserAddress(dstva);
        ghost var w := Entry(MemOf(s), src, Pdx(srcva), Ptx(srcva));
        assert perm.w ==> Writes(w, w.frame);
        LawfulEntry(c, s, Now(), dst, Pdx(dstva), Ptx(dstva), Word(w.frame, perm.(p := true)));
      } else {
        LawfulSame(c, s, Now());
      }
    }

    method StepUnmap(cur: nat, envid: int, va: nat)
      requires Valid() && cur < NENV && !env_status[cur].Free?
      modifies this
      ensures Done(PageUnmapCall(cur, envid, va))
    {
      ghost var c, s, e := PageUnmapCall(cur, envid, va), Now(), Env(cur, envid);
      EnvNames(cur, envid, 0);
      NowSane();
      var r := SysPageUnmap(cur, envid, va);
      NowSane();
      if r == 0 {
        ghost var w := Entry(MemOf(s), e, Pdx(va), Ptx(va));
        LawfulEntry(c, s, Now(), e, Pdx(va), Ptx(va), if w.flags.p then ZERO else w);
      } else {
        LawfulSame(c, s, Now());
      }
    }

    method StepExofork(cur: nat)
      requires Valid() && cur < NENV && !env_status[cur].Free?
      modifies this
      ensures Done(ExoforkCall(cur))
    {
      ghost var s := Now();
      NowSane();
      var r := SysExofork(cur);
      NowSane();
      LawfulSame(ExoforkCall(cur), s, Now());
    }

    method StepDestroy(cur: nat, envid: int)
      requires Valid() && cur < NENV && !env_status[cur].Free?
      modifies this
      ensures Done(DestroyCall(cur, envid))
    {
      ghost var c, s, e := DestroyCall(cur, envid), Now(), Env(cur, envid);
      EnvNames(cur, envid, 0);
      NowSane();
      var r := SysEnvDestroy(cur, envid);
      NowSane();
      if r == 0 && env_status[e].Free? {
        LawfulGone(c, s, Now(), e);
      } else {
        LawfulSame(c, s, Now());
      }
    }

    method StepStore(cur: nat, va: nat, w: Word)
      requires Valid() && cur < NENV && !env_status[cur].Free?
      modifies this
      ensures Done(StoreCall(cur, va, w))
    {
      ghost var c, s := StoreCall(cur, va, w), Now();
      NowSane();
      var ok := UserStore(cur, va, w);
      NowSane();
      LawfulSame(c, s, Now());
      if ok {
        ghost var p, r := Entry(M(), cur, Pdx(va), Ptx(va)).frame, User(cur, Pdx(va), Ptx(va));
        assert Target(M(), r) == p && r in holders[p];
        assert MapsIt(s, cur, p);
        assert StoresAt(c, s, Now(), p, va / 4 % 0x400);
      }
    }

    method StepSend(cur: nat, envid: int, value: nat, srcva: nat, perm: Flags)
      requires Valid() && cur < NENV && !env_status[cur].Free?
      modifies this
      ensures Done(SendCall(cur, envid, value, srcva, perm))
    {
      ghost var c, s := SendCall(cur, envid, value, srcva, perm), Now();
      ghost var e := Resolve(env_id, env_parent_id, env_status, cur, envid, false);
      NowSane();
      var r := SysIpcTrySend(cur, envid, value, srcva, perm);
      NowSane();
      if r == 0 && srcva < UTOP {
        UserAddress(env_ipc_dstva[e]);
        ghost var w := Entry(MemOf(s), cur, Pdx(srcva), Ptx(srcva));
        assert perm.w ==> Writes(w, w.frame);
        LawfulEntry(c, s, Now(), e, Pdx(env_ipc_dstva[e]), Ptx(env_ipc_dstva[e]), Word(w.frame, perm.(p := true)));
      } else {
        LawfulSame(c, s, Now());
      }
    }

    method StepRecv(cur: nat, dstva: nat)
      requires Valid() && cur < NENV && !env_status[cur].Free?
      modifies this
      ensures Done(RecvCall(cur, dstva))
    {
      ghost var s := Now();
      NowSane();
      var r := SysIpcRecv(cur, dstva);
      NowSane();
      LawfulSame(RecvCall(cur, dstva), s, Now());
    }

    method StepStatus(cur: nat, envid: int, status: Status)
      requires Valid() && cur < NENV && !env_status[cur].Free?
      modifies this
      ensures Done(StatusCall(cur, envid, status))
    {
      ghost var s := Now();
      EnvNames(cur, envid, 0);
      NowSane();
      var r := SysEnvSetStatus(cur, envid, status);
      NowSane();
      LawfulSame(StatusCall(cur, envid, status), s, Now());
    }

    method StepDispatch(cur: nat, e: nat)
      requires Valid() && cur < NENV && !env_status[cur].Free?
      modifies this
      ensures Done(DispatchCall(cur, e))
    {
      ghost var s := Now();
      NowSane();
      if e < NENV && (env_status[e].Runnable? || e == cur) {
        EnvRun(cur, e);
      }
      NowSane();
      LawfulSame(DispatchCall(cur, e), s, Now());
    }

    method StepReap(cur: nat)
      requires Valid() && cur < NENV && !env_status[cur].Free?
      modifies this
      ensures Done(ReapCall(cur))
    {
      ghost var s := Now();
      NowSane();
      Reap(cur);
      NowSane();
      if env_status[cur].Free? {
        LawfulGone(ReapCall(cur), s, Now(), cur);
      } else {
        LawfulSame(ReapCall(cur), s, Now());
      }
    }

    /** After any run of calls, by any environments, the books balance for every page, and every call
        has left alone the data that others use. */
    method Run(calls: seq<Call>) returns (ghost trace: seq<Moment>)
      requires Valid()
      modifies this
      ensures Valid() && forall p :: 0 <= p < npages && p !in reserved ==> Agrees(p)
      ensures IsTrace(calls, trace) && trace[0] == old(Now()) && trace[|calls|] == Now()
    {
      trace := [Now()];
      NowSane();
      assert calls[..0] == [];
      for i := 0 to |calls|
        invariant Valid() && |trace| == i + 1 && trace[0] == old(Now()) && trace[i] == Now() && IsTrace(calls[..i], trace)
      {
        Step(calls[i]);
        NowSane();
        TraceMore(calls, trace, i, Now());
        trace := trace + [Now()];
      }
      assert calls[..|calls|] == calls;
      forall p | 0 <= p < npages && p !in reserved ensures Agrees(p) { CountAgreement(p); }
    }
  }
}
