/**
 The block map of files (fs/fs.c): ten direct pointers and one indirect block, and who owns which
 disk block.

 A disk block holds file bytes or a table of block numbers; only exclusive ownership keeps one from
 being read as the other.  `Tracks` ties every block to the one pointer that names it.
 */
module FileBlocks {

  const BLKSIZE: nat := 4096
  const NDIRECT: nat := 10
  const NINDIRECT: nat := 1024
  const MAXBLOCKS: nat := 1034      // NDIRECT + NINDIRECT

  datatype Block = Data(bytes: seq<nat>) | Table(slots: seq<nat>)

  /** The mutable part of struct File.  A pointer is 0 when no block is allocated. */
  datatype File = File(size: nat, direct: seq<nat>, indirect: nat)

  datatype Disk = Disk(files: seq<File>, blocks: seq<Block>)

  /** A pointer field: the filebno'th block of file f, or its f_indirect. */
  datatype Ref = BlockRef(f: nat, b: nat) | IndirectRef(f: nat)

  datatype Owner = Nobody | Held(r: Ref)

  function Zeros(n: nat): (s: seq<nat>)
    ensures |s| == n && forall i :: 0 <= i < n ==> s[i] == 0
  {
    seq(n, _ => 0)
  }

  /** A file has its shape, and its indirect block is a table. */
  predicate FileOk(d: Disk, f: nat)
    requires f < |d.files|
  {
    var x := d.files[f];
    && |x.direct| == NDIRECT
    && (x.indirect == 0 ||
        (x.indirect < |d.blocks| && d.blocks[x.indirect].Table? && |d.blocks[x.indirect].slots| == NINDIRECT))
  }

  ghost predicate Shape(d: Disk) {
    forall f :: 0 <= f < |d.files| ==> FileOk(d, f)
  }

  /** The number of the b'th block of file f, or 0: what file_block_walk finds. */
  function PtrOf(d: Disk, f: nat, b: nat): nat
    requires f < |d.files| && FileOk(d, f) && b < MAXBLOCKS
  {
    if b < NDIRECT then d.files[f].direct[b]
    else if d.files[f].indirect == 0 then 0
    else d.blocks[d.files[f].indirect].slots[b - NDIRECT]
  }

  predicate InRange(d: Disk, r: Ref) {
    match r
    case BlockRef(f, b) => f < |d.files| && b < MAXBLOCKS
    case IndirectRef(f) => f < |d.files|
  }

  function Ptr(d: Disk, r: Ref): nat
    requires Shape(d) && InRange(d, r)
  {
    match r
    case BlockRef(f, b) => PtrOf(d, f, b)
    case IndirectRef(f) => d.files[f].indirect
  }

  /** Every block is named by the one pointer its owner entry records, and data pointers lead to data. */
  ghost predicate Tracks(d: Disk, own: seq<Owner>)
    requires Shape(d)
  {
    && |own| == |d.blocks| > 0 && own[0].Nobody?
    && (forall r :: InRange(d, r) && Ptr(d, r) != 0 ==> Ptr(d, r) < |own| && own[Ptr(d, r)] == Held(r))
    && (forall p :: 0 <= p < |own| && own[p].Held? ==> InRange(d, own[p].r) && Ptr(d, own[p].r) == p)
    && (forall p :: 0 <= p < |own| && own[p].Held? && own[p].r.BlockRef? ==>
          d.blocks[p].Data? && |d.blocks[p].bytes| == BLKSIZE)
  }

  ghost predicate Good(d: Disk, own: seq<Owner>) {
    Shape(d) && Tracks(d, own)
  }

  /** The bytes of the b'th block of file f; a hole reads as zeros. */
  ghost function View(d: Disk, own: seq<Owner>, f: nat, b: nat): (s: seq<nat>)
    requires Good(d, own) && f < |d.files| && b < MAXBLOCKS
    ensures |s| == BLKSIZE
  {
    var p := PtrOf(d, f, b);
    if p == 0 then Zeros(BLKSIZE)
    else
      assert Ptr(d, BlockRef(f, b)) == p;
      d.blocks[p].bytes
  }

  /** The byte at a position of file f. */
  ghost function ByteAt(d: Disk, own: seq<Owner>, f: nat, pos: nat): nat
    requires Good(d, own) && f < |d.files| && pos < MAXBLOCKS * BLKSIZE
  {
    View(d, own, f, pos / BLKSIZE)[pos % BLKSIZE]
  }

  /** Both disks hold the same bytes in every file. */
  ghost predicate SameViews(d: Disk, own: seq<Owner>, d': Disk, own': seq<Owner>) {
    && Good(d, own) && Good(d', own') && |d'.files| == |d.files|
    && forall f, b :: 0 <= f < |d.files| && 0 <= b < MAXBLOCKS ==> View(d', own', f, b) == View(d, own, f, b)
  }

  /** The files differ at most in block b of file f, which now reads s. */
  ghost predicate OnlyView(d: Disk, own: seq<Owner>, d': Disk, own': seq<Owner>, f: nat, b: nat, s: seq<nat>) {
    && Good(d, own) && Good(d', own') && |d'.files| == |d.files|
    && forall f', b' :: 0 <= f' < |d.files| && 0 <= b' < MAXBLOCKS ==>
         View(d', own', f', b') == if f' == f && b' == b then s else View(d, own, f', b')
  }

  /** No block pointer but (f, b) has changed, and no file size. */
  ghost predicate OnlyPtr(d: Disk, d': Disk, f: nat, b: nat) {
    && Shape(d) && Shape(d') && |d'.files| == |d.files| && |d'.blocks| == |d.blocks|
    && (forall g :: 0 <= g < |d.files| ==> d'.files[g].size == d.files[g].size)
    && forall g, c :: 0 <= g < |d.files| && 0 <= c < MAXBLOCKS && (g != f || c != b) ==> PtrOf(d', g, c) == PtrOf(d, g, c)
  }

  ghost predicate SamePtrs(d: Disk, d': Disk) {
    && Shape(d) && Shape(d') && |d'.files| == |d.files| && |d'.blocks| == |d.blocks|
    && (forall g :: 0 <= g < |d.files| ==> d'.files[g].size == d.files[g].size)
    && forall g, c :: 0 <= g < |d.files| && 0 <= c < MAXBLOCKS ==> PtrOf(d', g, c) == PtrOf(d, g, c)
  }

  /** Storing a block number in the slot of block b of file f. */
  function SetPtr(d: Disk, f: nat, b: nat, p: nat): Disk
    requires f < |d.files| && FileOk(d, f) && b < MAXBLOCKS && (b >= NDIRECT ==> d.files[f].indirect != 0)
  {
    if b < NDIRECT then
      d.(files := d.files[f := d.files[f].(direct := d.files[f].direct[b := p])])
    else
      var i := d.files[f].indirect;
      d.(blocks := d.blocks[i := Table(d.blocks[i].slots[b - NDIRECT := p])])
  }

  /** Storing a pointer moves that pointer only. */
  lemma SetPtrEffect(d: Disk, own: seq<Owner>, f: nat, b: nat, p: nat)
    requires Good(d, own) && f < |d.files| && b < MAXBLOCKS && (b >= NDIRECT ==> d.files[f].indirect != 0)
    ensures var d' := SetPtr(d, f, b, p);
            && Shape(d') && |d'.files| == |d.files| && |d'.blocks| == |d.blocks|
            && (forall r :: InRange(d, r) ==> Ptr(d', r) == if r == BlockRef(f, b) then p else Ptr(d, r))
            && (forall q :: 0 <= q < |own| && own[q].Held? && own[q].r.BlockRef? ==> d'.blocks[q] == d.blocks[q])
            && (forall g :: 0 <= g < |d.files| ==> d'.files[g].size == d.files[g].size && d'.files[g].indirect == d.files[g].indirect)
  {
    var d' := SetPtr(d, f, b, p);
    var i := d.files[f].indirect;
    if b >= NDIRECT {
      assert Ptr(d, IndirectRef(f)) == i;
      forall g | 0 <= g < |d.files| && g != f ensures d.files[g].indirect != i || i == 0 {
        assert Ptr(d, IndirectRef(g)) == d.files[g].indirect;
      }
    }
    forall g | 0 <= g < |d.files| ensures FileOk(d', g) { assert FileOk(d, g); }
    forall r | InRange(d, r) ensures Ptr(d', r) == if r == BlockRef(f, b) then p else Ptr(d, r) {
      assert FileOk(d, r.f) && FileOk(d', r.f);
      if r.BlockRef? && r.f != f { assert PtrOf(d', r.f, r.b) == PtrOf(d, r.f, r.b); }
    }
  }

  /** file_get_block fills a hole with a zeroed block: ownership moves, no byte changes. */
  lemma FillHole(d: Disk, own: seq<Owner>, f: nat, b: nat, p: nat)
    requires Good(d, own) && f < |d.files| && b < MAXBLOCKS && (b >= NDIRECT ==> d.files[f].indirect != 0)
    requires PtrOf(d, f, b) == 0 && 0 < p < |own| && own[p].Nobody?
    ensures var d1 := SetPtr(d, f, b, p);
            var d' := d1.(blocks := d1.blocks[p := Data(Zeros(BLKSIZE))]);
            var own' := own[p := Held(BlockRef(f, b))];
            SameViews(d, own, d', own') && OnlyPtr(d, d', f, b) && PtrOf(d', f, b) == p
  {
    SetPtrEffect(d, own, f, b, p);
    var d1 := SetPtr(d, f, b, p);
    var d' := d1.(blocks := d1.blocks[p := Data(Zeros(BLKSIZE))]);
    var own' := own[p := Held(BlockRef(f, b))];
    assert Ptr(d, BlockRef(f, b)) == 0;
    forall g | 0 <= g < |d.files| ensures FileOk(d', g) && d.files[g].indirect != p {
      assert FileOk(d1, g) && Ptr(d, IndirectRef(g)) == d.files[g].indirect;
    }
    forall r | InRange(d, r) ensures Ptr(d', r) == Ptr(d1, r) {}
    assert Tracks(d', own');
    forall g, c | 0 <= g < |d.files| && 0 <= c < MAXBLOCKS
      ensures View(d', own', g, c) == View(d, own, g, c)
      ensures g != f || c != b ==> PtrOf(d', g, c) == PtrOf(d, g, c)
    {
      assert Ptr(d, BlockRef(g, c)) == PtrOf(d, g, c) && Ptr(d', BlockRef(g, c)) == PtrOf(d', g, c);
    }
  }

  /** file_block_walk hangs a zeroed table into an empty f_indirect: no byte changes. */
  lemma HangTable(d: Disk, own: seq<Owner>, f: nat, p: nat)
    requires Good(d, own) && f < |d.files| && d.files[f].indirect == 0
    requires 0 < p < |own| && own[p].Nobody?
    ensures var d' := Disk(d.files[f := d.files[f].(indirect := p)], d.blocks[p := Table(Zeros(NINDIRECT))]);
            var own' := own[p := Held(IndirectRef(f))];
            SameViews(d, own, d', own') && SamePtrs(d, d')
  {
    var d' := Disk(d.files[f := d.files[f].(indirect := p)], d.blocks[p := Table(Zeros(NINDIRECT))]);
    var own' := own[p := Held(IndirectRef(f))];
    forall g | 0 <= g < |d.files| ensures FileOk(d', g) && d.files[g].indirect != p {
      assert FileOk(d, g) && Ptr(d, IndirectRef(g)) == d.files[g].indirect;
    }
    forall r | InRange(d, r) && r != IndirectRef(f) ensures Ptr(d', r) == Ptr(d, r) {}
    assert Tracks(d', own');
    forall g, c | 0 <= g < |d.files| && 0 <= c < MAXBLOCKS ensures View(d', own', g, c) == View(d, own, g, c) {
      assert Ptr(d, BlockRef(g, c)) == PtrOf(d, g, c) && Ptr(d', BlockRef(g, c)) == PtrOf(d', g, c);
    }
  }

  /** file_free_block gives up one block: it reads as zeros from now on. */
  lemma ClearBlock(d: Disk, own: seq<Owner>, f: nat, b: nat)
    requires Good(d, own) && f < |d.files| && b < MAXBLOCKS && PtrOf(d, f, b) != 0
    ensures PtrOf(d, f, b) < |own|
    ensures var d' := SetPtr(d, f, b, 0);
            OnlyView(d, own, d', own[PtrOf(d, f, b) := Nobody], f, b, Zeros(BLKSIZE)) && OnlyPtr(d, d', f, b) && PtrOf(d', f, b) == 0
  {
    var p := PtrOf(d, f, b);
    assert Ptr(d, BlockRef(f, b)) == p;
    SetPtrEffect(d, own, f, b, 0);
    var d', own' := SetPtr(d, f, b, 0), own[p := Nobody];
    assert Tracks(d', own');
    forall g, c | 0 <= g < |d.files| && 0 <= c < MAXBLOCKS && (g != f || c != b)
      ensures View(d', own', g, c) == View(d, own, g, c) && PtrOf(d', g, c) == PtrOf(d, g, c)
    {
      assert Ptr(d, BlockRef(g, c)) == PtrOf(d, g, c) && Ptr(d', BlockRef(g, c)) == PtrOf(d', g, c);
    }
    assert Ptr(d', BlockRef(f, b)) == 0;
  }

  /** file_truncate_blocks gives up an indirect block that names nothing: no byte changes. */
  lemma DropTable(d: Disk, own: seq<Owner>, f: nat)
    requires Good(d, own) && f < |d.files| && d.files[f].indirect != 0
    requires forall b :: NDIRECT <= b < MAXBLOCKS ==> PtrOf(d, f, b) == 0
    ensures d.files[f].indirect < |own|
    ensures var d' := d.(files := d.files[f := d.files[f].(indirect := 0)]);
            SameViews(d, own, d', own[d.files[f].indirect := Nobody]) && SamePtrs(d, d')
  {
    var p := d.files[f].indirect;
    assert Ptr(d, IndirectRef(f)) == p;
    var d', own' := d.(files := d.files[f := d.files[f].(indirect := 0)]), own[p := Nobody];
    forall g | 0 <= g < |d.files| ensures FileOk(d', g) { assert FileOk(d, g); }
    forall r | InRange(d, r) && r != IndirectRef(f) ensures Ptr(d', r) == Ptr(d, r) {}
    assert Tracks(d', own');
    forall g, c | 0 <= g < |d.files| && 0 <= c < MAXBLOCKS ensures View(d', own', g, c) == View(d, own, g, c) {
      assert Ptr(d, BlockRef(g, c)) == PtrOf(d, g, c) && Ptr(d', BlockRef(g, c)) == PtrOf(d', g, c);
    }
  }

  /** A store into an allocated block reaches one block of one file. */
  lemma WriteBlock(d: Disk, own: seq<Owner>, f: nat, b: nat, bytes: seq<nat>)
    requires Good(d, own) && f < |d.files| && b < MAXBLOCKS && PtrOf(d, f, b) != 0 && |bytes| == BLKSIZE
    ensures PtrOf(d, f, b) < |own|
    ensures var d' := d.(blocks := d.blocks[PtrOf(d, f, b) := Data(bytes)]);
            OnlyView(d, own, d', own, f, b, bytes) && SamePtrs(d, d')
  {
    var p := PtrOf(d, f, b);
    assert Ptr(d, BlockRef(f, b)) == p;
    var d' := d.(blocks := d.blocks[p := Data(bytes)]);
    forall g | 0 <= g < |d.files| ensures FileOk(d', g) && d.files[g].indirect != p {
      assert FileOk(d, g) && Ptr(d, IndirectRef(g)) == d.files[g].indirect;
    }
    forall r | InRange(d, r) ensures Ptr(d', r) == Ptr(d, r) {}
    assert Tracks(d', own);
    forall g, c | 0 <= g < |d.files| && 0 <= c < MAXBLOCKS && (g != f || c != b) ensures View(d', own, g, c) == View(d, own, g, c) {
      assert Ptr(d, BlockRef(g, c)) == PtrOf(d, g, c) && Ptr(d', BlockRef(g, c)) == PtrOf(d', g, c);
    }
    assert Ptr(d', BlockRef(f, b)) == p;
  }

  lemma Resize(d: Disk, own: seq<Owner>, f: nat, size: nat)
    requires Good(d, own) && f < |d.files|
    ensures var d' := d.(files := d.files[f := d.files[f].(size := size)]);
            && SameViews(d, own, d', own)
            && (forall g, b :: 0 <= g < |d.files| && 0 <= b < MAXBLOCKS ==> PtrOf(d', g, b) == PtrOf(d, g, b))
  {
    var d' := d.(files := d.files[f := d.files[f].(size := size)]);
    forall g | 0 <= g < |d.files| ensures FileOk(d', g) { assert FileOk(d, g); }
    forall r | InRange(d, r) ensures Ptr(d', r) == Ptr(d, r) {}
  }

  lemma SameTrans(d: Disk, own: seq<Owner>, d1: Disk, own1: seq<Owner>, d2: Disk, own2: seq<Owner>, f: nat, b: nat)
    requires SameViews(d, own, d1, own1) && SameViews(d1, own1, d2, own2)
    requires SamePtrs(d, d1) && OnlyPtr(d1, d2, f, b)
    ensures SameViews(d, own, d2, own2) && OnlyPtr(d, d2, f, b)
  {
  }

  /** Blocks [lo, hi) of file f have been given up, and nothing else has changed. */
  ghost predicate Truncated(d: Disk, own: seq<Owner>, d': Disk, own': seq<Owner>, f: nat, lo: nat, hi: nat) {
    && Good(d, own) && Good(d', own') && |d'.files| == |d.files| && |d'.blocks| == |d.blocks|
    && (forall g :: 0 <= g < |d.files| ==> d'.files[g].size == d.files[g].size)
    && (forall g, b :: 0 <= g < |d.files| && 0 <= b < MAXBLOCKS ==>
          PtrOf(d', g, b) == if g == f && lo <= b < hi then 0 else PtrOf(d, g, b))
    && (forall g, b :: 0 <= g < |d.files| && 0 <= b < MAXBLOCKS ==>
          View(d', own', g, b) == if g == f && lo <= b < hi then Zeros(BLKSIZE) else View(d, own, g, b))
    && (forall p :: 0 <= p < |own| ==>
          own'[p] == if own[p].Held? && own[p].r.BlockRef? && own[p].r.f == f && lo <= own[p].r.b < hi then Nobody else own[p])
  }

  lemma TruncateMore(d: Disk, own: seq<Owner>, d1: Disk, own1: seq<Owner>, d2: Disk, own2: seq<Owner>, f: nat, lo: nat, b: nat)
    requires Truncated(d, own, d1, own1, f, lo, b) && lo <= b && f < |d.files|
    requires OnlyPtr(d1, d2, f, b)
    requires b >= MAXBLOCKS ==> d2 == d1 && own2 == own1
    requires b < MAXBLOCKS ==>
               && PtrOf(d2, f, b) == 0 && OnlyView(d1, own1, d2, own2, f, b, Zeros(BLKSIZE))
               && var p := PtrOf(d1, f, b);
                  if p == 0 then own2 == own1 else p < |own1| && own2 == own1[p := Nobody]
    ensures Truncated(d, own, d2, own2, f, lo, b + 1)
  {
    if b < MAXBLOCKS {
      assert Ptr(d1, BlockRef(f, b)) == PtrOf(d1, f, b);
    }
  }
}
