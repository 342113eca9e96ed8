/**
 Two-level page tables in physical memory, and who refers to which page.

 Page directories and page tables are ordinary physical pages of 1024 words; nothing but the
 reference counts of kern/pmap.c keeps them apart from each other and from user data.  A `Ref` is a
 place that can hold a counted reference; `Tracks` says which page each place refers to, and the
 lemmas follow that relation through every kind of write the kernel makes.
 */
module Paging {
  import opened Environments

  const NPDENTRIES: nat := 1024
  const NPTENTRIES: nat := 1024
  const UTOP: nat := 0xEEC00000
  /** PDX(UTOP): directory entries below this one belong to the user. */
  const USER_PDES: nat := 955
  /** PDX(UVPT): the entry that maps the directory into itself. */
  const UVPT_PDX: nat := 957

  /** The twelve low bits of an entry. */
  datatype Flags = Flags(p: bool, w: bool, u: bool, pwt: bool, pcd: bool, a: bool, d: bool, ps: bool, g: bool,
                         avail: bool, share: bool, cow: bool)

  /** A 32-bit word, as the twenty bits of a frame number and twelve flag bits. */
  datatype Word = Word(frame: nat, flags: Flags)

  const NO_FLAGS := Flags(false, false, false, false, false, false, false, false, false, false, false, false)
  const ZERO := Word(0, NO_FLAGS)

  type Page = seq<Word>

  function ZeroPage(): (p: Page)
    ensures |p| == NPTENTRIES && forall i :: 0 <= i < NPTENTRIES ==> p[i] == ZERO
  {
    seq(NPTENTRIES, _ => ZERO)
  }

  /** Some bit outside PTE_SYSCALL is set. */
  predicate BadPerm(f: Flags) {
    f.pwt || f.pcd || f.a || f.d || f.ps || f.g
  }

  /** The flags as the low bits of an entry, PTE_P lowest. */
  function Bits(f: Flags): bv12 {
    (if f.p then 0x001 else 0) | (if f.w then 0x002 else 0) | (if f.u then 0x004 else 0) | (if f.pwt then 0x008 else 0)
    | (if f.pcd then 0x010 else 0) | (if f.a then 0x020 else 0) | (if f.d then 0x040 else 0) | (if f.ps then 0x080 else 0)
    | (if f.g then 0x100 else 0) | (if f.avail then 0x200 else 0) | (if f.share then 0x400 else 0) | (if f.cow then 0x800 else 0)
  }

  const PTE_SYSCALL: bv12 := 0xE07

  lemma BadPermBits(f: Flags)
    ensures BadPerm(f) <==> Bits(f) & !PTE_SYSCALL != 0
  {
  }

  function Pdx(va: nat): nat { va / 0x1000 / 0x400 }

  function Ptx(va: nat): nat { va / 0x1000 % 0x400 }

  function PgAddr(d: nat, t: nat): nat { (d * 0x400 + t) * 0x1000 }

  lemma AddressParts(d: nat, t: nat)
    requires d < USER_PDES && t < NPTENTRIES
    ensures Pdx(PgAddr(d, t)) == d && Ptx(PgAddr(d, t)) == t && PgAddr(d, t) < UTOP && PgAddr(d, t) % 0x1000 == 0
  {
  }

  lemma UserAddress(va: nat)
    requires va < UTOP
    ensures Pdx(va) < USER_PDES && Ptx(va) < NPTENTRIES
  {
  }

  /** Physical memory and the page directory of every environment (-1 when it has none). */
  datatype Mem = Mem(words: seq<Page>, dirs: seq<int>)

  /** A place that holds a counted reference to a page: an env_pgdir, a user directory entry, a user PTE. */
  datatype Ref = Dir(e: nat) | Table(e: nat, d: nat) | User(e: nat, d: nat, t: nat)

  predicate InRange(r: Ref) {
    match r
    case Dir(e) => e < NENV
    case Table(e, d) => e < NENV && d < USER_PDES
    case User(e, d, t) => e < NENV && d < USER_PDES && t < NPTENTRIES
  }

  /** An entry as pgdir_walk makes it: present, writable and open to user code. */
  predicate IsTableEntry(w: Word) { w.flags.p && w.flags.w && w.flags.u }

  /** Memory has its shape, and no reference leaves it. */
  ghost predicate Shape(m: Mem) {
    && |m.dirs| == NENV
    && (forall i :: 0 <= i < |m.words| ==> |m.words[i]| == NPTENTRIES)
    && (forall e :: 0 <= e < NENV ==> -1 <= m.dirs[e] < |m.words|)
    && (forall e, d :: 0 <= e < NENV && 0 <= d < USER_PDES && m.dirs[e] >= 0 ==>
          var w := m.words[m.dirs[e]][d];
          w == ZERO || (IsTableEntry(w) && w.frame < |m.words|))
  }

  /** The page table behind directory entry d of environment e, or -1. */
  function TableOf(m: Mem, e: nat, d: nat): (t: int)
    requires Shape(m) && e < NENV && d < USER_PDES
    ensures -1 <= t < |m.words|
  {
    if m.dirs[e] < 0 || m.words[m.dirs[e]][d] == ZERO then -1 else m.words[m.dirs[e]][d].frame
  }

  /** The page-table entry of a user page; ZERO when there is no page table. */
  function Entry(m: Mem, e: nat, d: nat, t: nat): Word
    requires Shape(m) && e < NENV && d < USER_PDES && t < NPTENTRIES
  {
    if TableOf(m, e, d) < 0 then ZERO else m.words[TableOf(m, e, d)][t]
  }

  /** The page a place refers to, or -1. */
  function Target(m: Mem, r: Ref): int
    requires Shape(m) && InRange(r)
  {
    match r
    case Dir(e) => m.dirs[e]
    case Table(e, d) => TableOf(m, e, d)
    case User(e, d, t) => if Entry(m, e, d, t).flags.p then Entry(m, e, d, t).frame else -1
  }

  /** `h[p]` is the set of places that refer to page p. */
  ghost predicate Tracks(m: Mem, h: seq<set<Ref>>)
    requires Shape(m)
  {
    && |h| == |m.words|
    && (forall r :: InRange(r) ==> Target(m, r) == -1 || (0 <= Target(m, r) < |h| && r in h[Target(m, r)]))
    && (forall p, r :: 0 <= p < |h| && r in h[p] ==> InRange(r) && Target(m, r) == p)
  }

  /** A directory or a page table has exactly one reference to it. */
  ghost predicate Exclusive(h: seq<set<Ref>>) {
    forall p, r :: 0 <= p < |h| && r in h[p] && !r.User? ==> h[p] == {r}
  }

  function UserRead(): Flags { NO_FLAGS.(p := true, u := true) }

  /** Above UTOP the directory of e equals kern_pgdir, except that UVPT maps the directory itself. */
  ghost predicate HalfOk(m: Mem, kern: nat, e: nat)
    requires Shape(m) && kern < |m.words| && e < NENV
  {
    m.dirs[e] >= 0 ==>
      forall d :: USER_PDES <= d < NPDENTRIES ==>
        m.words[m.dirs[e]][d] == if d == UVPT_PDX then Word(m.dirs[e], UserRead()) else m.words[kern][d]
  }

  /** kern_pgdir maps nothing below UTOP, and every directory shares its upper part. */
  ghost predicate KernelHalf(m: Mem, kern: nat)
    requires Shape(m)
  {
    && kern < |m.words|
    && (forall d :: 0 <= d < USER_PDES ==> m.words[kern][d] == ZERO)
    && (forall e :: 0 <= e < NENV ==> HalfOk(m, kern, e))
  }

  /** A write below UTOP in one page other than kern_pgdir keeps the kernel half of every directory. */
  lemma KeepHalf(m: Mem, m': Mem, kern: nat, p: nat)
    requires Shape(m) && Shape(m') && KernelHalf(m, kern) && p < |m.words| == |m'.words| && p != kern
    requires m'.words == m.words[p := m'.words[p]]
    requires forall e :: 0 <= e < NENV && m'.dirs[e] >= 0 ==>
               m'.dirs[e] == m.dirs[e] && (m'.dirs[e] == p ==> m'.words[p][USER_PDES..] == m.words[p][USER_PDES..])
    ensures KernelHalf(m', kern)
  {
    assert m'.words[kern] == m.words[kern];
    forall e | 0 <= e < NENV ensures HalfOk(m', kern, e) {
      assert HalfOk(m, kern, e);
      if m'.dirs[e] == p {
        forall d | USER_PDES <= d < NPDENTRIES ensures m'.words[p][d] == m.words[p][d] {
          assert m'.words[p][USER_PDES..][d - USER_PDES] == m'.words[p][d];
          assert m.words[p][USER_PDES..][d - USER_PDES] == m.words[p][d];
        }
      }
    }
  }

  /** `kern` is the page of kern_pgdir, which nobody refers to. */
  ghost predicate Good(m: Mem, h: seq<set<Ref>>, kern: nat) {
    Shape(m) && Tracks(m, h) && Exclusive(h) && KernelHalf(m, kern) && h[kern] == {}
  }

  /** Both memories translate every user page of every environment alike. */
  ghost predicate SameEntries(m: Mem, m': Mem) {
    && Shape(m) && Shape(m')
    && forall e, d, t :: 0 <= e < NENV && 0 <= d < USER_PDES && 0 <= t < NPTENTRIES ==>
         Entry(m', e, d, t) == Entry(m, e, d, t)
  }

  ghost predicate SameTables(m: Mem, m': Mem) {
    && Shape(m) && Shape(m')
    && forall e, d :: 0 <= e < NENV && 0 <= d < USER_PDES ==> TableOf(m', e, d) == TableOf(m, e, d)
  }

  /** The two translations differ at most at one page of one environment. */
  ghost predicate OnlyEntry(m: Mem, m': Mem, e: nat, d: nat, t: nat, w: Word) {
    && Shape(m) && Shape(m')
    && forall e', d', t' :: 0 <= e' < NENV && 0 <= d' < USER_PDES && 0 <= t' < NPTENTRIES ==>
         Entry(m', e', d', t') == if e' == e && d' == d && t' == t then w else Entry(m, e', d', t')
  }

  lemma SameThenOnly(m: Mem, m1: Mem, m2: Mem, e: nat, d: nat, t: nat, w: Word)
    requires SameEntries(m, m1) && OnlyEntry(m1, m2, e, d, t, w)
    ensures OnlyEntry(m, m2, e, d, t, w)
  {
  }

  /** Every environment but e keeps its directory, its page tables and its entries. */
  ghost predicate OthersKeep(m: Mem, m': Mem, e: nat) {
    && Shape(m) && Shape(m')
    && (forall e' :: 0 <= e' < NENV && e' != e ==> m'.dirs[e'] == m.dirs[e'])
    && (forall e', d :: 0 <= e' < NENV && e' != e && 0 <= d < USER_PDES ==> TableOf(m', e', d) == TableOf(m, e', d))
    && (forall e', d, t :: 0 <= e' < NENV && e' != e && 0 <= d < USER_PDES && 0 <= t < NPTENTRIES ==>
          Entry(m', e', d, t) == Entry(m, e', d, t))
  }

  function Put(h: seq<set<Ref>>, p: int, r: Ref): seq<set<Ref>> {
    if 0 <= p < |h| then h[p := h[p] + {r}] else h
  }

  function Take(h: seq<set<Ref>>, p: int, r: Ref): seq<set<Ref>> {
    if 0 <= p < |h| then h[p := h[p] - {r}] else h
  }

  /** Only directories and page tables are read to translate; distinct ones are distinct pages. */
  lemma TablesDistinct(m: Mem, h: seq<set<Ref>>, kern: nat, e: nat, d: nat, e': nat, d': nat)
    requires Good(m, h, kern) && e < NENV && d < USER_PDES && e' < NENV && d' < USER_PDES
    requires TableOf(m, e, d) >= 0
    ensures m.dirs[e'] != TableOf(m, e, d)
    ensures TableOf(m, e', d') == TableOf(m, e, d) ==> e' == e && d' == d
  {
    var T := TableOf(m, e, d);
    assert Target(m, Table(e, d)) == T && h[T] == {Table(e, d)};
    assert Target(m, Dir(e')) == m.dirs[e'] && Target(m, Table(e', d')) == TableOf(m, e', d');
  }

  /** A write to a page that is neither directory nor table changes no reference. */
  lemma WriteData(m: Mem, h: seq<set<Ref>>, kern: nat, p: nat, page: Page)
    requires Good(m, h, kern) && p < |m.words| && |page| == NPTENTRIES && p != kern
    requires forall r :: r in h[p] ==> r.User?
    ensures var m' := m.(words := m.words[p := page]);
            Good(m', h, kern) && SameEntries(m, m') && SameTables(m, m')
            && (forall r :: InRange(r) ==> Target(m', r) == Target(m, r))
  {
    var m' := m.(words := m.words[p := page]);
    forall e | 0 <= e < NENV ensures m.dirs[e] != p { assert Target(m, Dir(e)) == m.dirs[e]; }
    assert Shape(m');
    KeepHalf(m, m', kern, p);
    forall e, d | 0 <= e < NENV && 0 <= d < USER_PDES
      ensures TableOf(m', e, d) == TableOf(m, e, d) && TableOf(m, e, d) != p
    {
      assert Target(m, Table(e, d)) == TableOf(m, e, d);
    }
    forall r | InRange(r) ensures Target(m', r) == Target(m, r) {}
  }

  /** Writing a PTE moves no page table. */
  lemma WriteInTable(m: Mem, h: seq<set<Ref>>, kern: nat, e: nat, d: nat, t: nat, w: Word)
    requires Good(m, h, kern) && e < NENV && d < USER_PDES && t < NPTENTRIES && TableOf(m, e, d) >= 0
    ensures var T := TableOf(m, e, d);
            var m' := m.(words := m.words[T := m.words[T][t := w]]);
            OnlyEntry(m, m', e, d, t, w) && SameTables(m, m') && KernelHalf(m', kern)
  {
    var T := TableOf(m, e, d);
    var m' := m.(words := m.words[T := m.words[T][t := w]]);
    forall e' | 0 <= e' < NENV ensures m.dirs[e'] != T { TablesDistinct(m, h, kern, e, d, e', d); }
    assert Shape(m');
    assert Target(m, Table(e, d)) == T;
    KeepHalf(m, m', kern, T);
    forall e', d' | 0 <= e' < NENV && 0 <= d' < USER_PDES
      ensures TableOf(m', e', d') == TableOf(m, e', d') && (TableOf(m, e', d') == T ==> e' == e && d' == d)
    {
      TablesDistinct(m, h, kern, e, d, e', d');
    }
  }

  /** When one place refers to something else and all others to the same, one reference moves. */
  lemma TracksMove(m: Mem, h: seq<set<Ref>>, m': Mem, x: Ref, q: int)
    requires Shape(m) && Shape(m') && Tracks(m, h) && |m'.words| == |m.words| && InRange(x) && -1 <= q < |h|
    requires Target(m', x) == q && forall r :: InRange(r) && r != x ==> Target(m', r) == Target(m, r)
    ensures Tracks(m', Put(Take(h, Target(m, x), x), q, x))
  {
  }

  /** Writing one PTE of an existing page table moves one reference. */
  lemma WritePte(m: Mem, h: seq<set<Ref>>, kern: nat, e: nat, d: nat, t: nat, w: Word)
    requires Good(m, h, kern) && e < NENV && d < USER_PDES && t < NPTENTRIES && TableOf(m, e, d) >= 0
    requires w.flags.p ==> w.frame < |h| && w.frame != kern && (forall r :: r in h[w.frame] ==> r.User?)
    ensures var T := TableOf(m, e, d);
            var m' := m.(words := m.words[T := m.words[T][t := w]]);
            var r := User(e, d, t);
            && OnlyEntry(m, m', e, d, t, w) && SameTables(m, m')
            && Good(m', Put(Take(h, Target(m, r), r), if w.flags.p then w.frame else -1, r), kern)
  {
    WriteInTable(m, h, kern, e, d, t, w);
    var T := TableOf(m, e, d);
    var m' := m.(words := m.words[T := m.words[T][t := w]]);
    var r := User(e, d, t);
    forall r' | InRange(r') && r' != r ensures Target(m', r') == Target(m, r') {}
    TracksMove(m, h, m', r, if w.flags.p then w.frame else -1);
  }

  /** Writing directory entry d of e leaves every other page table in place. */
  lemma WritePde(m: Mem, h: seq<set<Ref>>, kern: nat, e: nat, d: nat, w: Word)
    requires Good(m, h, kern) && e < NENV && d < USER_PDES && m.dirs[e] >= 0
    requires w == ZERO || (IsTableEntry(w) && w.frame < |m.words|)
    ensures var m' := m.(words := m.words[m.dirs[e] := m.words[m.dirs[e]][d := w]]);
            && Shape(m') && KernelHalf(m', kern)
            && (forall e', d' :: 0 <= e' < NENV && 0 <= d' < USER_PDES ==>
                  && TableOf(m', e', d') == (if e' == e && d' == d then if w == ZERO then -1 else w.frame
                                             else TableOf(m, e', d'))
                  && TableOf(m, e', d') != m.dirs[e])
  {
    var D := m.dirs[e];
    var m' := m.(words := m.words[D := m.words[D][d := w]]);
    assert Target(m, Dir(e)) == D && h[D] == {Dir(e)};
    forall e' | 0 <= e' < NENV && e' != e ensures m.dirs[e'] != D { assert Target(m, Dir(e')) == m.dirs[e']; }
    assert Shape(m');
    KeepHalf(m, m', kern, D);
    forall e', d' | 0 <= e' < NENV && 0 <= d' < USER_PDES ensures TableOf(m, e', d') != D {
      assert Target(m, Table(e', d')) == TableOf(m, e', d');
    }
  }

  /** Hanging a zeroed, unreferenced page into an empty directory entry. */
  lemma HangTable(m: Mem, h: seq<set<Ref>>, kern: nat, e: nat, d: nat, p: nat, f: Flags)
    requires Good(m, h, kern) && e < NENV && d < USER_PDES && m.dirs[e] >= 0 && TableOf(m, e, d) < 0
    requires p < |h| && h[p] == {} && p != kern && IsTableEntry(Word(p, f)) && m.words[p] == ZeroPage()
    ensures var m' := m.(words := m.words[m.dirs[e] := m.words[m.dirs[e]][d := Word(p, f)]]);
            SameEntries(m, m') && TableOf(m', e, d) == p && Good(m', Put(h, p, Table(e, d)), kern)
  {
    WritePde(m, h, kern, e, d, Word(p, f));
    var m' := m.(words := m.words[m.dirs[e] := m.words[m.dirs[e]][d := Word(p, f)]]);
    assert Target(m, Dir(e)) == m.dirs[e] != p;
    forall e', d' | 0 <= e' < NENV && 0 <= d' < USER_PDES ensures TableOf(m, e', d') != p {
      assert Target(m, Table(e', d')) == TableOf(m, e', d');
    }
    assert SameEntries(m, m');
    forall r | InRange(r) && r != Table(e, d) ensures Target(m', r) == Target(m, r) {}
    TracksMove(m, h, m', Table(e, d), p);
  }

  /** Clearing a directory entry whose page table holds no present entry. */
  lemma ClearPde(m: Mem, h: seq<set<Ref>>, kern: nat, e: nat, d: nat)
    requires Good(m, h, kern) && e < NENV && d < USER_PDES && TableOf(m, e, d) >= 0
    requires forall t :: 0 <= t < NPTENTRIES ==> !Entry(m, e, d, t).flags.p
    ensures var m' := m.(words := m.words[m.dirs[e] := m.words[m.dirs[e]][d := ZERO]]);
            && Shape(m') && TableOf(m', e, d) == -1 && OthersKeep(m, m', e)
            && (forall d' :: 0 <= d' < USER_PDES && d' != d ==> TableOf(m', e, d') == TableOf(m, e, d'))
            && Good(m', Take(h, TableOf(m, e, d), Table(e, d)), kern)
  {
    var T := TableOf(m, e, d);
    WritePde(m, h, kern, e, d, ZERO);
    var m' := m.(words := m.words[m.dirs[e] := m.words[m.dirs[e]][d := ZERO]]);
    assert Target(m, Table(e, d)) == T && h[T] == {Table(e, d)};
    forall r | InRange(r) && r != Table(e, d) ensures Target(m', r) == Target(m, r) {}
    TracksMove(m, h, m', Table(e, d), -1);
  }

  /** Pointing env_pgdir at an unreferenced page already filled in. */
  lemma PointDir(m: Mem, h: seq<set<Ref>>, kern: nat, e: nat, p: nat)
    requires Good(m, h, kern) && e < NENV && m.dirs[e] == -1 && p < |h| && h[p] == {} && p != kern
    requires m.words[p] == m.words[kern][UVPT_PDX := Word(p, UserRead())]
    ensures var m' := m.(dirs := m.dirs[e := p]);
            && SameEntries(m, m') && Good(m', Put(h, p, Dir(e)), kern)
            && (forall d :: 0 <= d < USER_PDES ==> TableOf(m', e, d) == -1)
  {
    var m' := m.(dirs := m.dirs[e := p]);
    forall e' | 0 <= e' < NENV ensures HalfOk(m', kern, e') { assert HalfOk(m, kern, e'); }
    forall e', d | 0 <= e' < NENV && 0 <= d < USER_PDES ensures TableOf(m', e', d) == TableOf(m, e', d) {}
    forall r | InRange(r) && r != Dir(e) ensures Target(m', r) == Target(m, r) {}
    TracksMove(m, h, m', Dir(e), p);
  }

  /** Installing an unreferenced page as the directory of an environment that has none. */
  lemma SetDir(m: Mem, h: seq<set<Ref>>, kern: nat, e: nat, p: nat, page: Page)
    requires Good(m, h, kern) && e < NENV && m.dirs[e] == -1 && p < |h| && h[p] == {} && p != kern
    requires page == m.words[kern][UVPT_PDX := Word(p, UserRead())]
    ensures var m' := Mem(m.words[p := page], m.dirs[e := p]);
            && SameEntries(m, m') && Good(m', Put(h, p, Dir(e)), kern)
            && (forall d :: 0 <= d < USER_PDES ==> TableOf(m', e, d) == -1)
  {
    WriteData(m, h, kern, p, page);
    PointDir(m.(words := m.words[p := page]), h, kern, e, p);
  }

  /** Giving up a directory that refers to no page table. */
  lemma DropDir(m: Mem, h: seq<set<Ref>>, kern: nat, e: nat)
    requires Good(m, h, kern) && e < NENV && m.dirs[e] >= 0
    requires forall d :: 0 <= d < USER_PDES ==> TableOf(m, e, d) == -1
    ensures var m' := m.(dirs := m.dirs[e := -1]);
            OthersKeep(m, m', e) && Good(m', Take(h, m.dirs[e], Dir(e)), kern)
  {
    var m' := m.(dirs := m.dirs[e := -1]);
    assert Target(m, Dir(e)) == m.dirs[e];
    forall e' | 0 <= e' < NENV ensures HalfOk(m', kern, e') { assert HalfOk(m, kern, e'); }
    forall e', d | 0 <= e' < NENV && 0 <= d < USER_PDES ensures TableOf(m', e', d) == TableOf(m, e', d) {}
    forall r | InRange(r) && r != Dir(e) ensures Target(m', r) == Target(m, r) {}
    TracksMove(m, h, m', Dir(e), -1);
  }

  /** When e has lost its directory and the others kept theirs, exactly the references of e are gone. */
  lemma GoneRefs(m: Mem, h: seq<set<Ref>>, m': Mem, h': seq<set<Ref>>, kern: nat, e: nat, p: nat)
    requires Good(m, h, kern) && Good(m', h', kern) && e < NENV && m'.dirs[e] == -1 && OthersKeep(m, m', e)
    requires |m.words| == |m'.words| && p < |h|
    ensures h'[p] == set r | r in h[p] && r.e != e
  {
    forall r | InRange(r) && r.e != e ensures Target(m', r) == Target(m, r) {}
    forall r | r in h'[p] ensures r in h[p] && r.e != e { assert Target(m', r) == p; }
    forall r | r in h[p] && r.e != e ensures r in h'[p] { assert Target(m, r) == p; }
  }

  /** Before the first environment exists, nothing is referred to. */
  lemma NothingMapped(m: Mem, h: seq<set<Ref>>, kern: nat)
    requires |m.dirs| == NENV && (forall e :: 0 <= e < NENV ==> m.dirs[e] == -1)
    requires forall i :: 0 <= i < |m.words| ==> |m.words[i]| == NPTENTRIES
    requires |h| == |m.words| && forall p :: 0 <= p < |h| ==> h[p] == {}
    requires kern < |m.words| && forall d :: 0 <= d < USER_PDES ==> m.words[kern][d] == ZERO
    ensures Good(m, h, kern)
  {
  }
}
