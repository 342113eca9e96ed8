/**
 boot_map_region (kern/pmap.c:516-554) in its two variants, with 4 KiB pages only and with 4 MiB pages
 where they fit, against the translation that check_va2pa (kern/pmap.c:1039-1053) computes.

 Page tables hang in the directory as values; memory for them does not run out at boot.
 */
module BootMap {

  const PGSIZE: nat := 0x1000
  const PTSIZE: nat := 0x40_0000
  const TOP: nat := 0x1_0000_0000

  /** PTE_W and PTE_U; what else `perm` may hold plays no part in translation. */
  datatype Perm = Perm(w: bool, u: bool)

  datatype Pte = Absent | Page(pa: nat, perm: Perm)

  /** A directory entry: empty, a page table entered with PTE_P | PTE_W | PTE_U, or PTE_PS set. */
  datatype Pde = Empty | Table(ptes: seq<Pte>) | Large(pa: nat, perm: Perm)

  function Pdx(va: nat): nat { va / PTSIZE }
  function Ptx(va: nat): nat { va / PGSIZE % 1024 }

  ghost predicate IsDir(d: seq<Pde>) {
    |d| == 1024 && forall i :: 0 <= i < 1024 && d[i].Table? ==> |d[i].ptes| == 1024
  }

  /** The physical page behind a virtual page, and the rights the processor grants on it. */
  ghost function Translate(d: seq<Pde>, va: nat): Pte
    requires IsDir(d) && va < TOP
  {
    match d[Pdx(va)]
    case Empty => Absent
    case Large(pa, perm) => Page(pa / PTSIZE * PTSIZE + Ptx(va) * PGSIZE, perm)
    case Table(ptes) => ptes[Ptx(va)]
  }

  /** Two pages are the same exactly when their indices are. */
  lemma PageIndex(x: nat, y: nat)
    requires x % PGSIZE == 0 && y % PGSIZE == 0
    ensures x == y <==> Pdx(x) == Pdx(y) && Ptx(x) == Ptx(y)
    ensures x == Pdx(x) * PTSIZE + Ptx(x) * PGSIZE
  {
  }

  /** Pages [va, va+n) are now mapped from pa on; every other page is as before. */
  ghost predicate Mapped(d: seq<Pde>, d': seq<Pde>, va: nat, n: nat, pa: nat, perm: Perm) {
    && IsDir(d) && IsDir(d')
    && forall x :: 0 <= x < TOP && x % PGSIZE == 0 ==>
         Translate(d', x) == if va <= x < va + n then Page(pa + (x - va), perm) else Translate(d, x)
  }

  /** No 4 MiB entry in the part of the directory that serves [va, va+n). */
  ghost predicate NoLarge(d: seq<Pde>, va: nat, n: nat)
    requires IsDir(d)
  {
    forall x :: va <= x < va + n && x < TOP ==> !d[Pdx(x)].Large?
  }

  const NoPtes: seq<Pte> := seq(1024, _ => Absent)

  /** pgdir_walk with create, and the store through its result. */
  method MapSmall(pgdir: array<Pde>, va: nat, pa: nat, perm: Perm)
    requires pgdir.Length == 1024 && IsDir(pgdir[..]) && va < TOP && va % PGSIZE == 0 && !pgdir[Pdx(va)].Large?
    modifies pgdir
    ensures Mapped(old(pgdir[..]), pgdir[..], va, PGSIZE, pa, perm)
    ensures forall i :: 0 <= i < 1024 && i != Pdx(va) ==> pgdir[i] == old(pgdir[i])
    ensures !pgdir[Pdx(va)].Large?
  {
    if pgdir[Pdx(va)].Empty? {
      pgdir[Pdx(va)] := Table(NoPtes);
    }
    pgdir[Pdx(va)] := Table(pgdir[Pdx(va)].ptes[Ptx(va) := Page(pa, perm)]);
    forall x | 0 <= x < TOP && x % PGSIZE == 0
      ensures Translate(pgdir[..], x) == if va <= x < va + PGSIZE then Page(pa + (x - va), perm) else Translate(old(pgdir[..]), x)
    {
      PageIndex(x, va);
    }
  }

  method MapLarge(pgdir: array<Pde>, va: nat, pa: nat, perm: Perm)
    requires pgdir.Length == 1024 && IsDir(pgdir[..]) && va + PTSIZE <= TOP && va % PTSIZE == 0 && pa % PTSIZE == 0
    modifies pgdir
    ensures Mapped(old(pgdir[..]), pgdir[..], va, PTSIZE, pa, perm)
    ensures forall i :: 0 <= i < 1024 && i != Pdx(va) ==> pgdir[i] == old(pgdir[i])
  {
    pgdir[Pdx(va)] := Large(pa, perm);
    forall x | 0 <= x < TOP && x % PGSIZE == 0
      ensures Translate(pgdir[..], x) == if va <= x < va + PTSIZE then Page(pa + (x - va), perm) else Translate(old(pgdir[..]), x)
    {
      PageIndex(x, x);
    }
  }

  lemma MappedMore(d: seq<Pde>, d1: seq<Pde>, d2: seq<Pde>, va: nat, i: nat, n: nat, pa: nat, perm: Perm)
    requires Mapped(d, d1, va, i, pa, perm) && Mapped(d1, d2, va + i, n, pa + i, perm)
    ensures Mapped(d, d2, va, i + n, pa, perm)
  {
  }

  /** One round of the variant with 4 KiB pages. */
  method StepSmall(pgdir: array<Pde>, ghost d: seq<Pde>, va: nat, i: nat, size: nat, pa: nat, perm: Perm)
    requires pgdir.Length == 1024 && i < size && Mapped(d, pgdir[..], va, i, pa, perm) && NoLarge(pgdir[..], va, size)
    requires va % PGSIZE == 0 && size % PGSIZE == 0 && i % PGSIZE == 0 && va + size <= TOP
    modifies pgdir
    ensures Mapped(d, pgdir[..], va, i + PGSIZE, pa, perm) && NoLarge(pgdir[..], va, size) && i + PGSIZE <= size
  {
    NextPage(va, i, size);
    ghost var d1 := pgdir[..];
    MapSmall(pgdir, va + i, pa + i, perm);
    MappedMore(d, d1, pgdir[..], va, i, PGSIZE, pa, perm);
    StillNoLarge(d1, pgdir[..], va, size, Pdx(va + i));
  }

  lemma StillNoLarge(d: seq<Pde>, d': seq<Pde>, va: nat, n: nat, k: nat)
    requires IsDir(d) && IsDir(d') && NoLarge(d, va, n) && k < 1024 && !d'[k].Large?
    requires forall i :: 0 <= i < 1024 && i != k ==> d'[i] == d[i]
    ensures NoLarge(d', va, n)
  {
  }

  /** The variant with 4 KiB pages. */
  method MapRegion(pgdir: array<Pde>, va: nat, size: nat, pa: nat, perm: Perm)
    requires pgdir.Length == 1024 && IsDir(pgdir[..]) && NoLarge(pgdir[..], va, size)
    requires va % PGSIZE == 0 && size % PGSIZE == 0 && va + size <= TOP
    modifies pgdir
    ensures Mapped(old(pgdir[..]), pgdir[..], va, size, pa, perm)
  {
    var i := 0;
    while i < size
      invariant i % PGSIZE == 0 && i <= size
      invariant Mapped(old(pgdir[..]), pgdir[..], va, i, pa, perm) && NoLarge(pgdir[..], va, size)
    {
      StepSmall(pgdir, old(pgdir[..]), va, i, size, pa, perm);
      i := i + PGSIZE;
    }
  }

  lemma Aligned(a: nat, b: nat)
    requires a % PTSIZE == 0 && b % PTSIZE == 0
    ensures (a + b) % PTSIZE == 0
  {
  }

  /** One round of the variant with 4 MiB pages. */
  method StepPse(pgdir: array<Pde>, va: nat, i: nat, size: nat, pa: nat, perm: Perm) returns (step: nat)
    requires pgdir.Length == 1024 && IsDir(pgdir[..]) && i < size && NoLarge(pgdir[..], va + i, size - i)
    requires va % PGSIZE == 0 && size % PGSIZE == 0 && i % PGSIZE == 0 && va + size <= TOP
    requires pa % PTSIZE == 0 && va % PTSIZE == 0 && size - i >= PTSIZE ==> i % PTSIZE == 0
    modifies pgdir
    ensures step == if pa % PTSIZE == 0 && va % PTSIZE == 0 && size - i >= PTSIZE then PTSIZE else PGSIZE
    ensures i + step <= size && Mapped(old(pgdir[..]), pgdir[..], va + i, step, pa + i, perm)
    ensures NoLarge(pgdir[..], va + i + step, size - i - step)
  {
    ghost var d := pgdir[..];
    if pa % PTSIZE == 0 && va % PTSIZE == 0 && size - i >= PTSIZE {
      Aligned(va, i);
      Aligned(pa, i);
      MapLarge(pgdir, va + i, pa + i, perm);
      LaterNoLarge(d, pgdir[..], va + i, size - i);
      return PTSIZE;
    }
    NextPage(va, i, size);
    MapSmall(pgdir, va + i, pa + i, perm);
    StillNoLarge(d, pgdir[..], va + i, size - i, Pdx(va + i));
    step := PGSIZE;
  }

  lemma NextPage(va: nat, i: nat, size: nat)
    requires i < size && va % PGSIZE == 0 && size % PGSIZE == 0 && i % PGSIZE == 0
    ensures i + PGSIZE <= size && (va + i) % PGSIZE == 0
  {
  }

  lemma LaterNoLarge(d: seq<Pde>, d': seq<Pde>, va: nat, n: nat)
    requires IsDir(d) && IsDir(d') && NoLarge(d, va, n) && va % PTSIZE == 0 && n >= PTSIZE
    requires forall i :: 0 <= i < 1024 && i != Pdx(va) ==> d'[i] == d[i]
    ensures NoLarge(d', va + PTSIZE, n - PTSIZE)
  {
  }

  /** The variant with 4 MiB pages: the same translation, for every page. */
  method MapRegionPse(pgdir: array<Pde>, va: nat, size: nat, pa: nat, perm: Perm)
    requires pgdir.Length == 1024 && IsDir(pgdir[..]) && NoLarge(pgdir[..], va, size)
    requires va % PGSIZE == 0 && size % PGSIZE == 0 && va + size <= TOP
    modifies pgdir
    ensures Mapped(old(pgdir[..]), pgdir[..], va, size, pa, perm)
  {
    var i := 0;
    while i < size
      invariant i % PGSIZE == 0 && i <= size
      invariant pa % PTSIZE == 0 && va % PTSIZE == 0 && size - i >= PTSIZE ==> i % PTSIZE == 0
      invariant Mapped(old(pgdir[..]), pgdir[..], va, i, pa, perm) && NoLarge(pgdir[..], va + i, size - i)
    {
      ghost var d1 := pgdir[..];
      var step := StepPse(pgdir, va, i, size, pa, perm);
      MappedMore(old(pgdir[..]), d1, pgdir[..], va, i, step, pa, perm);
      i := i + step;
    }
  }

  /** Both variants leave the same translation behind. */
  method Compare(a: array<Pde>, b: array<Pde>, va: nat, size: nat, pa: nat, perm: Perm)
    requires a != b && a.Length == b.Length == 1024 && a[..] == b[..] && IsDir(a[..]) && NoLarge(a[..], va, size)
    requires va % PGSIZE == 0 && size % PGSIZE == 0 && va + size <= TOP
    modifies a, b
    ensures IsDir(a[..]) && IsDir(b[..])
    ensures forall x :: 0 <= x < TOP && x % PGSIZE == 0 ==> Translate(a[..], x) == Translate(b[..], x)
  {
    MapRegion(a, va, size, pa, perm);
    MapRegionPse(b, va, size, pa, perm);
  }
}
