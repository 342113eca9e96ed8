/**
 File operations of the file server (fs/fs.c): the bitmap allocator, the walk through direct and
 indirect blocks, reading, writing, growing and shrinking.
 */
module FileSystem {
  import opened FileBlocks
  import Bytes

  const E_INVAL := -3
  const E_NOT_FOUND := -11
  const BLKFILES: nat := 16              // directory entries in a block
  const ENTSIZE: nat := 256
  const MAXFILESIZE: nat := 0x40A000     // MAXBLOCKS * BLKSIZE

  /** The value a function returns, or the panic in diskaddr that a full disk ends in. */
  datatype Outcome = Done(n: int) | Panic

  function NBlocks(size: nat): nat { (size + BLKSIZE - 1) / BLKSIZE }

  lemma NBlocksGrows(a: nat, b: nat)
    ensures a <= b ==> NBlocks(a) <= NBlocks(b)
  {
  }

  /** No pointer beyond the last block of its file. */
  ghost predicate TailZero(d: Disk)
    requires Shape(d)
  {
    forall f, b :: 0 <= f < |d.files| && NBlocks(d.files[f].size) <= b < MAXBLOCKS ==> PtrOf(d, f, b) == 0
  }

  /** Some block of file f, up to its size, is not allocated. */
  ghost predicate HasHole(d: Disk, f: nat)
    requires Shape(d) && f < |d.files|
  {
    exists b :: 0 <= b < MAXBLOCKS && b < NBlocks(d.files[f].size) && PtrOf(d, f, b) == 0
  }

  ghost predicate NoNewHoles(d: Disk, d': Disk)
    requires Shape(d) && Shape(d')
  {
    |d'.files| == |d.files| && forall g :: 0 <= g < |d.files| && HasHole(d', g) ==> HasHole(d, g)
  }

  lemma FewerHoles(d: Disk, d': Disk, f: nat, b: nat)
    requires f < |d.files| && OnlyPtr(d, d', f, b) && (b < MAXBLOCKS && PtrOf(d', f, b) == 0 ==> PtrOf(d, f, b) == 0)
    ensures NoNewHoles(d, d')
  {
  }

  /** The block belongs to file f and a file of size `size` has no use for it. */
  predicate Surplus(o: Owner, f: nat, size: nat) {
    && o.Held? && o.r.f == f
    && if o.r.BlockRef? then o.r.b >= NBlocks(size) else NBlocks(size) <= NDIRECT
  }

  /** The free blocks of a bitmap. */
  ghost function FreeSet(bitmap: seq<bool>): set<nat> {
    set p: nat | p < |bitmap| && bitmap[p]
  }

  lemma TakeFree(bitmap: seq<bool>, p: nat)
    requires p < |bitmap| && bitmap[p]
    ensures FreeSet(bitmap[p := false]) == FreeSet(bitmap) - {p} && |FreeSet(bitmap[p := false])| == |FreeSet(bitmap)| - 1
  {
  }

  predicate IsBelow(p: nat, n: nat) { p < n }

  ghost function Below(n: nat): set<nat> {
    set p: nat | p < n && IsBelow(p, n)
  }

  ghost function HeldSet(own: seq<Owner>): set<nat> {
    set p: nat | p < |own| && own[p].Held?
  }

  lemma Partition(bitmap: seq<bool>, own: seq<Owner>, reserved: nat)
    requires |bitmap| == |own| && reserved <= |own|
    requires forall p :: 0 <= p < |own| ==> (bitmap[p] <==> p >= reserved && own[p].Nobody?)
    requires forall p :: 0 <= p < reserved ==> own[p].Nobody?
    ensures |FreeSet(bitmap)| + |HeldSet(own)| + reserved == |own|
  {
    var free, held, low, all := FreeSet(bitmap), HeldSet(own), Below(reserved), Below(|own|);
    BelowSize(reserved);
    BelowSize(|own|);
    assert all == free + held + low;
    assert free !! held && free + held !! low;
  }

  lemma {:induction false} BelowSize(n: nat)
    ensures |Below(n)| == n
  {
    if n > 0 {
      BelowSize(n - 1);
      assert Below(n) == Below(n - 1) + {n - 1};
    }
  }

  /** How many blocks file_get_block has to allocate: the data block, and the indirect block before it. */
  function Needed(d: Disk, f: nat, b: nat): nat
    requires f < |d.files| && FileOk(d, f) && b < MAXBLOCKS
  {
    (if b >= NDIRECT && d.files[f].indirect == 0 then 1 else 0) + (if PtrOf(d, f, b) == 0 then 1 else 0)
  }

  /** The holes among blocks lo to hi - 1 of file f. */
  function Holes(d: Disk, f: nat, lo: nat, hi: nat): nat
    requires f < |d.files| && FileOk(d, f)
    decreases hi - lo
  {
    if lo >= hi || lo >= MAXBLOCKS then 0 else (if PtrOf(d, f, lo) == 0 then 1 else 0) + Holes(d, f, lo + 1, hi)
  }

  /** How many blocks must be allocated to get at blocks lo to hi - 1 of file f: the holes, and the
      indirect block if it is missing and one of them is behind it. */
  function Need(d: Disk, f: nat, lo: nat, hi: nat): nat
    requires f < |d.files| && FileOk(d, f)
  {
    Holes(d, f, lo, hi) + if lo < hi && lo < MAXBLOCKS && hi > NDIRECT && d.files[f].indirect == 0 then 1 else 0
  }

  /** Block b of file f has been got: no other pointer has changed, and no more than the indirect block. */
  ghost predicate Got(d: Disk, d': Disk, f: nat, b: nat) {
    && OnlyPtr(d, d', f, b) && f < |d.files| && b < MAXBLOCKS && PtrOf(d', f, b) != 0
    && (if b < NDIRECT || d.files[f].indirect != 0 then d'.files[f].indirect == d.files[f].indirect else d'.files[f].indirect != 0)
  }

  lemma {:induction false} SameHoles(d: Disk, d': Disk, f: nat, lo: nat, hi: nat)
    requires Shape(d) && Shape(d') && f < |d.files| && f < |d'.files|
    requires forall b :: lo <= b < MAXBLOCKS ==> PtrOf(d', f, b) == PtrOf(d, f, b)
    ensures Holes(d', f, lo, hi) == Holes(d, f, lo, hi)
    decreases hi - lo
  {
    if lo < hi && lo < MAXBLOCKS {
      assert PtrOf(d', f, lo) == PtrOf(d, f, lo);
      SameHoles(d, d', f, lo + 1, hi);
    }
  }

  /** Getting the first block leaves the need of the others. */
  lemma NeedStep(d: Disk, d': Disk, f: nat, b: nat, hi: nat)
    requires Got(d, d', f, b) && b < hi
    ensures Need(d, f, b, hi) == Needed(d, f, b) + Need(d', f, b + 1, hi)
  {
    SameHoles(d, d', f, b + 1, hi);
  }

  /** The first block is part of the need. */
  lemma NeedFirst(d: Disk, f: nat, b: nat, hi: nat)
    requires f < |d.files| && FileOk(d, f) && b < hi && b < MAXBLOCKS
    ensures Needed(d, f, b) <= Need(d, f, b, hi)
  {
  }

  /** Fewer blocks are free than n bytes of file f from `offset` on need. */
  predicate Short(d: Disk, free: nat, f: nat, offset: nat, n: nat)
    requires f < |d.files| && FileOk(d, f)
  {
    n > 0 && free < Need(d, f, offset / BLKSIZE, NBlocks(offset + n))
  }

  predicate IsPaid(d: Disk, free: nat, d': Disk, free': nat, f: nat, offset: nat, n: nat, next: nat)
    requires f < |d.files| && FileOk(d, f) && f < |d'.files| && FileOk(d', f)
  {
    free' + Need(d, f, offset / BLKSIZE, NBlocks(offset + n)) == free + Need(d', f, next, NBlocks(offset + n))
  }

  /** One round pays for one block; when it cannot, the whole was too much from the start. */
  lemma Paying(d: Disk, free: nat, d1: Disk, free1: nat, d2: Disk, free2: nat, f: nat, offset: nat, n: nat, b: nat)
    requires n > 0 && f < |d.files| && FileOk(d, f) && f < |d1.files| && FileOk(d1, f) && f < |d2.files| && FileOk(d2, f)
    requires IsPaid(d, free, d1, free1, f, offset, n, b) && b < NBlocks(offset + n)
    ensures b < MAXBLOCKS && free1 < Needed(d1, f, b) ==> Short(d, free, f, offset, n)
    ensures b >= MAXBLOCKS ==> !Short(d, free, f, offset, n)
    ensures b < MAXBLOCKS && Got(d1, d2, f, b) && free2 == free1 - Needed(d1, f, b) ==>
              IsPaid(d, free, d2, free2, f, offset, n, b + 1) && (b + 1 == NBlocks(offset + n) ==> !Short(d, free, f, offset, n))
  {
    if b < MAXBLOCKS {
      NeedFirst(d1, f, b, NBlocks(offset + n));
      if Got(d1, d2, f, b) { NeedStep(d1, d2, f, b, NBlocks(offset + n)); }
    }
  }

  lemma NeedResized(d: Disk, f: nat, size: nat, offset: nat, n: nat)
    requires Shape(d) && f < |d.files|
    ensures var d' := d.(files := d.files[f := d.files[f].(size := size)]);
            && Shape(d')
            && Need(d', f, offset / BLKSIZE, NBlocks(offset + n)) == Need(d, f, offset / BLKSIZE, NBlocks(offset + n))
  {
    var d' := d.(files := d.files[f := d.files[f].(size := size)]);
    forall g | 0 <= g < |d.files| ensures FileOk(d', g) { assert FileOk(d, g); }
    SameHoles(d, d', f, offset / BLKSIZE, NBlocks(offset + n));
  }

  /** The next round works on the next block, or there is none. */
  lemma NextBlock(pos: nat, rest: nat)
    requires rest > 0
    ensures var bn := InBlock(pos, rest);
            if bn == rest then NBlocks(pos + rest) == pos / BLKSIZE + 1
            else (pos + bn) / BLKSIZE == pos / BLKSIZE + 1
    ensures pos / BLKSIZE < NBlocks(pos + rest)
  {
    var bn := InBlock(pos, rest);
    var q, o := pos / BLKSIZE, pos % BLKSIZE;
    assert pos == q * BLKSIZE + o;
    if bn == rest {
      assert pos + rest + BLKSIZE - 1 == (q + 1) * BLKSIZE + (o + rest - 1);
    }
  }

  /** Positions pos .. pos+i stay in one block when the offset in the block leaves room. */
  lemma SameBlock(pos: nat, i: nat)
    requires pos % BLKSIZE + i < BLKSIZE
    ensures (pos + i) / BLKSIZE == pos / BLKSIZE && (pos + i) % BLKSIZE == pos % BLKSIZE + i
  {
  }

  /** A piece that starts below MAXFILESIZE and stays in its block ends there at the latest. */
  lemma BlockEnd(pos: nat, bn: nat)
    requires pos < MAXFILESIZE && pos % BLKSIZE + bn <= BLKSIZE
    ensures pos + bn <= MAXFILESIZE
  {
  }

  lemma BlockInFile(pos: nat, size: nat)
    ensures pos < size ==> pos / BLKSIZE < NBlocks(size)
    ensures pos / BLKSIZE < MAXBLOCKS <==> pos < MAXFILESIZE
  {
  }

  function Min(a: nat, b: nat): nat { if a < b then a else b }

  function Max(a: nat, b: nat): nat { if a < b then b else a }

  /** The first k bytes of buf are in file f from `offset` on; every other byte of every file is as before. */
  ghost predicate Written(d: Disk, own: seq<Owner>, d': Disk, own': seq<Owner>, f: nat, buf: seq<nat>, offset: nat, k: nat)
    requires k <= |buf|
  {
    && Good(d, own) && Good(d', own') && |d'.files| == |d.files|
    && forall g, pos :: 0 <= g < |d.files| && 0 <= pos < MAXFILESIZE ==>
         ByteAt(d', own', g, pos) == if g == f && offset <= pos < offset + k then buf[pos - offset] else ByteAt(d, own, g, pos)
  }

  /** buf is what file f holds from `offset` on. */
  ghost predicate IsRead(d: Disk, own: seq<Owner>, f: nat, offset: nat, buf: seq<nat>) {
    && Good(d, own) && f < |d.files| && (buf != [] ==> offset + |buf| <= MAXFILESIZE)
    && forall i :: 0 <= i < |buf| ==> buf[i] == ByteAt(d, own, f, offset + i)
  }

  lemma ViewsTrans(d: Disk, own: seq<Owner>, d1: Disk, own1: seq<Owner>, d2: Disk, own2: seq<Owner>)
    requires SameViews(d, own, d1, own1) && SameViews(d1, own1, d2, own2)
    ensures SameViews(d, own, d2, own2)
  {
  }

  lemma ReadMore(d: Disk, own: seq<Owner>, d1: Disk, own1: seq<Owner>, f: nat, offset: nat, buf: seq<nat>, piece: seq<nat>)
    requires SameViews(d, own, d1, own1) && IsRead(d, own, f, offset, buf) && IsRead(d1, own1, f, offset + |buf|, piece)
    ensures piece != [] ==> IsRead(d, own, f, offset, buf + piece)
  {
  }

  /** What one round of the loop of file_write puts into a block. */
  function Patch(bytes: seq<nat>, at: nat, piece: seq<nat>): (r: seq<nat>)
    requires at + |piece| <= |bytes|
    ensures |r| == |bytes|
    ensures forall i :: 0 <= i < |bytes| ==> r[i] == if at <= i < at + |piece| then piece[i - at] else bytes[i]
  {
    bytes[..at] + piece + bytes[at + |piece|..]
  }

  lemma SameBytes(d: Disk, own: seq<Owner>, d': Disk, own': seq<Owner>, g: nat, pos: nat)
    requires SameViews(d, own, d', own') && g < |d.files| && pos < MAXFILESIZE
    ensures ByteAt(d', own', g, pos) == ByteAt(d, own, g, pos)
  {
  }

  /** Where a position falls relative to a piece that stays in one block. */
  lemma InPiece(pos0: nat, bn: nat, pos: nat)
    requires pos0 % BLKSIZE + bn <= BLKSIZE
    ensures pos0 <= pos < pos0 + bn <==> pos / BLKSIZE == pos0 / BLKSIZE && pos0 % BLKSIZE <= pos % BLKSIZE < pos0 % BLKSIZE + bn
    ensures pos / BLKSIZE == pos0 / BLKSIZE ==> pos - pos0 == pos % BLKSIZE - pos0 % BLKSIZE
  {
  }

  lemma WrittenStays(d: Disk, own: seq<Owner>, d1: Disk, own1: seq<Owner>, d2: Disk, own2: seq<Owner>,
                     f: nat, buf: seq<nat>, offset: nat, k: nat, k': nat)
    requires k <= k' <= |buf| && Written(d, own, d1, own1, f, buf, offset, k) && SameViews(d1, own1, d2, own2)
    requires k' == k || offset + k >= MAXFILESIZE
    ensures Written(d, own, d2, own2, f, buf, offset, k')
  {
    forall g, x | 0 <= g < |d.files| && 0 <= x < MAXFILESIZE ensures ByteAt(d2, own2, g, x) == ByteAt(d1, own1, g, x) {
      SameBytes(d1, own1, d2, own2, g, x);
    }
  }

  /** How much of the next `rest` bytes lies in the block of pos. */
  function InBlock(pos: nat, rest: nat): (bn: nat)
    requires rest > 0
    ensures 0 < bn <= rest && pos % BLKSIZE + bn <= BLKSIZE
  {
    Min(BLKSIZE - pos % BLKSIZE, rest)
  }

  /** One byte after a block has been patched. */
  lemma PatchedByte(d1: Disk, own1: seq<Owner>, d2: Disk, own2: seq<Owner>, f: nat, b: nat, o: nat, piece: seq<nat>, g: nat, c: nat, i: nat)
    requires Good(d1, own1) && f < |d1.files| && b < MAXBLOCKS && o + |piece| <= BLKSIZE
    requires OnlyView(d1, own1, d2, own2, f, b, Patch(View(d1, own1, f, b), o, piece))
    requires g < |d1.files| && c < MAXBLOCKS && i < BLKSIZE
    ensures View(d2, own2, g, c)[i] == if g == f && c == b && o <= i < o + |piece| then piece[i - o] else View(d1, own1, g, c)[i]
  {
  }

  /** One byte of one file after a round of the loop. */
  lemma WriteMoreAt(d: Disk, own: seq<Owner>, d1: Disk, own1: seq<Owner>, d2: Disk, own2: seq<Owner>,
                    f: nat, buf: seq<nat>, offset: nat, k: nat, bn: nat, g: nat, pos: nat)
    requires k + bn <= |buf| && f < |d.files| && Written(d, own, d1, own1, f, buf, offset, k)
    requires (offset + k) % BLKSIZE + bn <= BLKSIZE && (offset + k) / BLKSIZE < MAXBLOCKS && g < |d.files| && pos < MAXFILESIZE
    requires OnlyView(d1, own1, d2, own2, f, (offset + k) / BLKSIZE,
                      Patch(View(d1, own1, f, (offset + k) / BLKSIZE), (offset + k) % BLKSIZE, buf[k..k + bn]))
    ensures ByteAt(d2, own2, g, pos) ==
            if g == f && offset <= pos < offset + k + bn then buf[pos - offset] else ByteAt(d, own, g, pos)
  {
    var pos0, piece := offset + k, buf[k..k + bn];
    BlockInFile(pos, 0);
    PatchedByte(d1, own1, d2, own2, f, pos0 / BLKSIZE, pos0 % BLKSIZE, piece, g, pos / BLKSIZE, pos % BLKSIZE);
    InPiece(pos0, bn, pos);
    assert ByteAt(d2, own2, g, pos) == if g == f && pos0 <= pos < pos0 + bn then piece[pos - pos0] else ByteAt(d1, own1, g, pos);
    assert ByteAt(d1, own1, g, pos) == if g == f && offset <= pos < pos0 then buf[pos - offset] else ByteAt(d, own, g, pos);
  }

  /** One round of the loop extends the written part. */
  lemma WriteMore(d: Disk, own: seq<Owner>, d1: Disk, own1: seq<Owner>, d2: Disk, own2: seq<Owner>,
                  f: nat, buf: seq<nat>, offset: nat, k: nat, bn: nat)
    requires k + bn <= |buf| && f < |d.files| && Written(d, own, d1, own1, f, buf, offset, k)
    requires (offset + k) % BLKSIZE + bn <= BLKSIZE && offset + k < MAXFILESIZE
    requires var b := (offset + k) / BLKSIZE;
             && b < MAXBLOCKS
             && OnlyView(d1, own1, d2, own2, f, b, Patch(View(d1, own1, f, b), (offset + k) % BLKSIZE, buf[k..k + bn]))
    ensures Written(d, own, d2, own2, f, buf, offset, k + bn)
  {
    forall g, pos | 0 <= g < |d.files| && 0 <= pos < MAXFILESIZE
      ensures ByteAt(d2, own2, g, pos) ==
              if g == f && offset <= pos < offset + k + bn then buf[pos - offset] else ByteAt(d, own, g, pos)
    {
      WriteMoreAt(d, own, d1, own1, d2, own2, f, buf, offset, k, bn, g, pos);
    }
  }

  /** The name in entry j of a directory block. */
  function NameIn(block: seq<nat>, j: nat): seq<nat> { Bytes.StringAt(block, ENTSIZE * j) }

  /** The name in entry e of directory file dir. */
  ghost function EntryName(d: Disk, own: seq<Owner>, dir: nat, e: nat): seq<nat>
    requires Good(d, own) && dir < |d.files| && e / BLKFILES < MAXBLOCKS
  {
    NameIn(View(d, own, dir, e / BLKFILES), e % BLKFILES)
  }

  /** The inner loop of dir_lookup. */
  method FindIn(block: seq<nat>, name: seq<nat>) returns (j: nat)
    ensures j <= BLKFILES && (j < BLKFILES ==> NameIn(block, j) == name)
    ensures forall k :: 0 <= k < j ==> NameIn(block, k) != name
  {
    j := 0;
    while j < BLKFILES && NameIn(block, j) != name
      invariant j <= BLKFILES && forall k :: 0 <= k < j ==> NameIn(block, k) != name
    {
      j := j + 1;
    }
  }

  /** None of the first n entries of dir has that name. */
  ghost predicate NoneOf(d: Disk, own: seq<Owner>, dir: nat, name: seq<nat>, n: nat)
    requires Good(d, own) && dir < |d.files| && n <= MAXBLOCKS * BLKFILES
  {
    forall k :: 0 <= k < n ==> EntryName(d, own, dir, k) != name
  }

  /** One more block has been searched, up to entry j of it. */
  lemma NoneMore(d: Disk, own: seq<Owner>, dir: nat, name: seq<nat>, i: nat, j: nat)
    requires Good(d, own) && dir < |d.files| && i < MAXBLOCKS && j <= BLKFILES && NoneOf(d, own, dir, name, i * BLKFILES)
    requires forall k :: 0 <= k < j ==> NameIn(View(d, own, dir, i), k) != name
    ensures NoneOf(d, own, dir, name, i * BLKFILES + j)
    ensures j < BLKFILES ==> EntryName(d, own, dir, i * BLKFILES + j) == NameIn(View(d, own, dir, i), j)
  {
  }

  datatype FileOp =
    | ReadOp(f: nat, count: nat, offset: nat)
    | WriteOp(f: nat, buf: seq<nat>, offset: nat)
    | SizeOp(f: nat, size: nat)

  class FileSystem {
    /** super->s_nblocks, and the first block after the boot, super and bitmap blocks. */
    const nblocks: nat
    const reserved: nat

    /** true: free */
    var bitmap: seq<bool>
    var blocks: seq<Block>
    var files: seq<File>
    ghost var own: seq<Owner>

    ghost function D(): Disk
      reads this
    {
      Disk(files, blocks)
    }

    /** Every block is reserved, free, or named by exactly one pointer of one file. */
    ghost predicate Sound()
      reads this
    {
      && |bitmap| == |blocks| == nblocks && 1 < reserved <= nblocks
      && Good(D(), own)
      && (forall p :: 0 <= p < nblocks ==> (bitmap[p] <==> p >= reserved && own[p].Nobody?))
      && (forall p :: 0 <= p < reserved ==> own[p].Nobody?)
    }

    ghost predicate Valid()
      reads this
    {
      Sound() && TailZero(D())
    }

    ghost predicate Full()
      reads this
    {
      forall p :: 0 <= p < |bitmap| ==> !bitmap[p]
    }

    /** block_is_free */
    function BlockIsFree(b: nat): bool
      requires |bitmap| == nblocks
      reads this
    {
      b < nblocks && bitmap[b]
    }

    /** alloc_block: the first free block, now in use, or -1. */
    method AllocBlock() returns (p: int)
      requires Sound()
      modifies this`bitmap
      ensures p == -1 <==> forall b :: 0 <= b < nblocks ==> !old(bitmap)[b]
      ensures p == -1 ==> bitmap == old(bitmap) && FreeSet(bitmap) == {}
      ensures forall b :: 0 <= b < p && b < nblocks ==> !old(bitmap)[b]
      ensures p != -1 ==> 0 < p < nblocks && p >= reserved && own[p].Nobody?
      ensures p != -1 ==> old(bitmap)[p] && bitmap == old(bitmap)[p := false] && |FreeSet(bitmap)| == |FreeSet(old(bitmap))| - 1
    {
      var i := 0;
      while i < nblocks
        invariant i <= nblocks && bitmap == old(bitmap)
        invariant forall b :: 0 <= b < i ==> !bitmap[b]
      {
        if BlockIsFree(i) {
          TakeFree(bitmap, i);
          bitmap := bitmap[i := false];
          return i;
        }
        i := i + 1;
      }
      p := -1;
    }

    /** file_block_walk: on success the slot of block b of file f exists. */
    method FileBlockWalk(f: nat, b: nat, alloc: bool) returns (out: Outcome)
      requires Sound() && f < |files|
      modifies this`bitmap, this`blocks, this`files, this`own
      ensures out.Panic? ==> Full()
      ensures out.Panic? <==> alloc && NDIRECT <= b < MAXBLOCKS && old(files)[f].indirect == 0 && FreeSet(old(bitmap)) == {}
      ensures Sound() && SameViews(old(D()), old(own), D(), own) && SamePtrs(old(D()), D())
      ensures |FreeSet(bitmap)| == |FreeSet(old(bitmap))| - (if files[f].indirect != old(files)[f].indirect then 1 else 0)
      ensures b >= MAXBLOCKS <==> out == Done(E_INVAL)
      ensures out == Done(E_NOT_FOUND) <==> NDIRECT <= b < MAXBLOCKS && old(files)[f].indirect == 0 && !alloc
      ensures out == Done(0) || out == Done(E_INVAL) || out == Done(E_NOT_FOUND) || out.Panic?
      ensures out == Done(0) && b >= NDIRECT ==> files[f].indirect != 0
      ensures !alloc ==> !out.Panic? && bitmap == old(bitmap) && blocks == old(blocks) && files == old(files) && own == old(own)
      ensures files == old(files)[f := old(files)[f].(indirect := files[f].indirect)]
      ensures files[f].indirect != old(files)[f].indirect <==> alloc && NDIRECT <= b < MAXBLOCKS && old(files)[f].indirect == 0 && out.Done?
    {
      if b >= MAXBLOCKS {
        return Done(E_INVAL);
      }
      if b < NDIRECT {
        return Done(0);
      }
      if files[f].indirect == 0 {
        if !alloc {
          return Done(E_NOT_FOUND);
        }
        var p := AllocBlock();
        if p == -1 {
          return Panic;
        }
        HangTable(D(), own, f, p);
        files := files[f := files[f].(indirect := p)];
        blocks := blocks[p := Table(Zeros(NINDIRECT))];
        own := own[p := Held(IndirectRef(f))];
      }
      out := Done(0);
    }

    /** file_get_block: the number of the b'th block of file f, allocated if it was a hole. */
    method FileGetBlock(f: nat, b: nat) returns (out: Outcome, blk: nat)
      requires Sound() && f < |files|
      modifies this`bitmap, this`blocks, this`files, this`own
      ensures Sound() && SameViews(old(D()), old(own), D(), own) && OnlyPtr(old(D()), D(), f, b)
      ensures out.Panic? ==> Full()
      ensures out.Panic? <==> b < MAXBLOCKS && |FreeSet(old(bitmap))| < Needed(old(D()), f, b)
      ensures out.Done? ==> out == Done(if b >= MAXBLOCKS then E_INVAL else 0)
      ensures out == Done(0) ==> blk == PtrOf(D(), f, b) != 0 && Got(old(D()), D(), f, b)
      ensures out == Done(0) ==> |FreeSet(bitmap)| == |FreeSet(old(bitmap))| - Needed(old(D()), f, b)
      ensures out != Done(0) ==> SamePtrs(old(D()), D())
    {
      blk := 0;
      var walk := FileBlockWalk(f, b, true);
      if walk.Panic? {
        return Panic, 0;
      }
      if walk.n < 0 {
        return Done(E_INVAL), 0;
      }
      ghost var d1, own1 := D(), own;
      blk := PtrOf(Disk(files, blocks), f, b);
      if blk == 0 {
        var p := AllocBlock();
        if p == -1 {
          return Panic, 0;
        }
        FillHole(D(), own, f, b, p);
        var d := SetPtr(Disk(files, blocks), f, b, p);
        files, blocks := d.files, d.blocks[p := Data(Zeros(BLKSIZE))];
        own := own[p := Held(BlockRef(f, b))];
        blk := p;
      }
      SameTrans(old(D()), old(own), d1, own1, D(), own, f, b);
      out := Done(0);
    }

    /** file_free_block: block b of file f becomes a hole and its disk block free. */
    method FileFreeBlock(f: nat, b: nat) returns (out: Outcome)
      requires Sound() && f < |files|
      modifies this`bitmap, this`blocks, this`files, this`own
      ensures Sound() && OnlyPtr(old(D()), D(), f, b) && files[f].indirect == old(files)[f].indirect
      ensures b >= MAXBLOCKS ==> bitmap == old(bitmap) && own == old(own) && D() == old(D())
      ensures b < MAXBLOCKS ==>
                && PtrOf(D(), f, b) == 0
                && OnlyView(old(D()), old(own), D(), own, f, b, Zeros(BLKSIZE))
                && var p := PtrOf(old(D()), f, b);
                   if p == 0 then bitmap == old(bitmap) && own == old(own)
                   else p < nblocks && own == old(own)[p := Nobody] && bitmap == old(bitmap)[p := true]
    {
      out := FileBlockWalk(f, b, false);
      if out.n < 0 {
        return;
      }
      var p := PtrOf(Disk(files, blocks), f, b);
      if p != 0 {
        ClearBlock(D(), own, f, b);
        assert Ptr(D(), BlockRef(f, b)) == p;
        SetPtrEffect(D(), own, f, b, 0);
        bitmap := bitmap[p := true];
        var d := SetPtr(Disk(files, blocks), f, b, 0);
        files, blocks := d.files, d.blocks;
        own := own[p := Nobody];
      }
    }

    /** The loop of file_truncate_blocks. */
    method FreeTail(f: nat, lo: nat, hi: nat)
      requires Sound() && f < |files| && lo <= hi
      modifies this`bitmap, this`blocks, this`files, this`own
      ensures Sound() && Truncated(old(D()), old(own), D(), own, f, lo, hi)
      ensures files[f].indirect == old(files)[f].indirect
    {
      for b := lo to hi
        invariant Sound() && Truncated(old(D()), old(own), D(), own, f, lo, b)
        invariant files[f].indirect == old(files)[f].indirect
      {
        ghost var d1, own1 := D(), own;
        var _ := FileFreeBlock(f, b);
        TruncateMore(old(D()), old(own), d1, own1, D(), own, f, lo, b);
      }
    }

    /** The end of file_truncate_blocks, when no block is left behind the indirect block. */
    method FreeIndirect(f: nat)
      requires Sound() && f < |files| && files[f].indirect != 0
      requires forall b :: NDIRECT <= b < MAXBLOCKS ==> PtrOf(D(), f, b) == 0
      modifies this`bitmap, this`files, this`own
      ensures Sound() && SameViews(old(D()), old(own), D(), own) && SamePtrs(old(D()), D()) && files[f].indirect == 0
      ensures old(files)[f].indirect < nblocks && own == old(own)[old(files)[f].indirect := Nobody]
    {
      DropTable(D(), own, f);
      var p := files[f].indirect;
      assert Ptr(D(), IndirectRef(f)) == p;
      bitmap := bitmap[p := true];
      files := files[f := files[f].(indirect := 0)];
      own := own[p := Nobody];
    }

    /** file_truncate_blocks: exactly the blocks beyond the new size, and the indirect block when it is
        not needed any more. */
    method FileTruncateBlocks(f: nat, newsize: nat)
      requires Valid() && f < |files| && newsize <= files[f].size
      modifies this`bitmap, this`blocks, this`files, this`own
      ensures Sound() && |files| == |old(files)| && (forall g :: 0 <= g < |files| ==> files[g].size == old(files)[g].size)
      ensures forall g, b :: 0 <= g < |files| && 0 <= b < MAXBLOCKS ==>
                && PtrOf(D(), g, b) == (if g == f && b >= NBlocks(newsize) then 0 else PtrOf(old(D()), g, b))
                && View(D(), own, g, b) == (if g == f && b >= NBlocks(newsize) then Zeros(BLKSIZE) else View(old(D()), old(own), g, b))
      ensures forall p :: 0 <= p < nblocks ==> own[p] == if Surplus(old(own)[p], f, newsize) then Nobody else old(own)[p]
    {
      var oldn, newn := NBlocks(files[f].size), NBlocks(newsize);
      FreeTail(f, newn, oldn);
      if newn <= NDIRECT && files[f].indirect != 0 {
        FreeIndirect(f);
      }
      assert Ptr(old(D()), IndirectRef(f)) == old(files)[f].indirect;
      forall p | 0 <= p < nblocks ensures own[p] == if Surplus(old(own)[p], f, newsize) then Nobody else old(own)[p] {
        ghost var o := old(own)[p];
        if o.Held? {
          assert Ptr(old(D()), o.r) == p != 0;
          assert o.r.BlockRef? ==> PtrOf(old(D()), o.r.f, o.r.b) == p;
        }
      }
    }

    /** file_set_size: bytes beyond the last kept block read as zeros, the others stay, and the blocks
        freed are exactly the surplus ones. */
    method FileSetSize(f: nat, newsize: nat)
      requires Valid() && f < |files|
      modifies this`bitmap, this`blocks, this`files, this`own
      ensures Valid() && |files| == |old(files)|
      ensures forall g :: 0 <= g < |files| ==> files[g].size == if g == f then newsize else old(files)[g].size
      ensures forall g, b :: 0 <= g < |files| && 0 <= b < MAXBLOCKS ==>
                View(D(), own, g, b) == if g == f && b >= NBlocks(newsize) then Zeros(BLKSIZE) else View(old(D()), old(own), g, b)
      ensures forall p :: 0 <= p < nblocks ==>
                (bitmap[p] <==> old(bitmap)[p] || (newsize < old(files)[f].size && Surplus(old(own)[p], f, newsize)))
      ensures newsize >= old(files)[f].size ==>
                bitmap == old(bitmap) && blocks == old(blocks) && files == old(files)[f := old(files)[f].(size := newsize)]
    {
      if files[f].size > newsize {
        FileTruncateBlocks(f, newsize);
      }
      ghost var d1 := D();
      Resize(D(), own, f, newsize);
      files := files[f := files[f].(size := newsize)];
      forall b | NBlocks(newsize) <= b < MAXBLOCKS ensures PtrOf(D(), f, b) == 0 {
        NBlocksGrows(old(files)[f].size, newsize);
        assert PtrOf(D(), f, b) == PtrOf(d1, f, b);
      }
    }

    /** What has been allocated so far, out of what blocks up to `next` needed. */
    ghost predicate Paid(d: Disk, free: nat, f: nat, offset: nat, n: nat, next: nat)
      requires f < |d.files| && FileOk(d, f) && f < |files| && FileOk(D(), f)
      reads this
    {
      IsPaid(d, free, D(), |FreeSet(bitmap)|, f, offset, n, next)
    }

    /** One round of the loop of file_read. */
    method ReadRound(f: nat, pos: nat, bn: nat) returns (out: Outcome, piece: seq<nat>)
      requires Valid() && f < |files| && pos < files[f].size && 0 < bn && pos % BLKSIZE + bn <= BLKSIZE
      modifies this`bitmap, this`blocks, this`files, this`own
      ensures Valid() && SameViews(old(D()), old(own), D(), own)
      ensures forall g :: 0 <= g < |files| ==> files[g].size == old(files)[g].size
      ensures NoNewHoles(old(D()), D())
      ensures out.Panic? ==> Full() && HasHole(old(D()), f)
      ensures out.Panic? <==> pos / BLKSIZE < MAXBLOCKS && |FreeSet(old(bitmap))| < Needed(old(D()), f, pos / BLKSIZE)
      ensures out == Done(0) ==> Got(old(D()), D(), f, pos / BLKSIZE)
      ensures out == Done(0) ==> |FreeSet(bitmap)| == |FreeSet(old(bitmap))| - Needed(old(D()), f, pos / BLKSIZE)
      ensures out.Done? ==> out == Done(if pos >= MAXFILESIZE then E_INVAL else 0)
      ensures out == Done(0) ==> pos + bn <= MAXFILESIZE && |piece| == bn && IsRead(old(D()), old(own), f, pos, piece)
    {
      piece := [];
      var b := pos / BLKSIZE;
      BlockInFile(pos, files[f].size);
      var blk;
      out, blk := FileGetBlock(f, b);
      FewerHoles(old(D()), D(), f, b);
      if out != Done(0) {
        return;
      }
      var at := pos % BLKSIZE;
      assert Ptr(D(), BlockRef(f, b)) == blk;
      piece := blocks[blk].bytes[at..at + bn];
      BlockEnd(pos, bn);
      forall i | 0 <= i < bn ensures piece[i] == ByteAt(old(D()), old(own), f, pos + i) {
        SameBlock(pos, i);
        BlockInFile(pos + i, 0);
      }
    }

    /** The body of the loop of file_read; d and o are the disk before the call. */
    method ReadStep(f: nat, offset: nat, buf: seq<nat>, rest: nat, ghost d: Disk, ghost o: seq<Owner>)
      returns (out: Outcome, buf': seq<nat>)
      requires Valid() && f < |files| && rest > 0 && offset + |buf| + rest <= files[f].size
      requires SameViews(d, o, D(), own) && IsRead(d, o, f, offset, buf)
      modifies this`bitmap, this`blocks, this`files, this`own
      ensures Valid() && SameViews(d, o, D(), own) && NoNewHoles(old(D()), D())
      ensures forall g :: 0 <= g < |files| ==> files[g].size == old(files)[g].size
      ensures out.Panic? ==> Full() && HasHole(old(D()), f)
      ensures out.Done? ==> out == Done(if offset + |buf| >= MAXFILESIZE then E_INVAL else 0)
      ensures out == Done(0) ==> |buf'| == |buf| + InBlock(offset + |buf|, rest) && IsRead(d, o, f, offset, buf')
      ensures var b := (offset + |buf|) / BLKSIZE;
              && (out.Panic? <==> b < MAXBLOCKS && |FreeSet(old(bitmap))| < Needed(old(D()), f, b))
              && (out == Done(0) ==> Got(old(D()), D(), f, b) && |FreeSet(bitmap)| == |FreeSet(old(bitmap))| - Needed(old(D()), f, b))
    {
      buf' := buf;
      var bn := InBlock(offset + |buf|, rest);
      ghost var d1, own1 := D(), own;
      var piece;
      out, piece := ReadRound(f, offset + |buf|, bn);
      ViewsTrans(d, o, d1, own1, D(), own);
      if out == Done(0) {
        ReadMore(d, o, d1, own1, f, offset, buf, piece);
        buf' := buf + piece;
      }
    }

    /** A round of file_read with the account of what is allocated; `free` blocks were free before. */
    method ReadTurn(f: nat, offset: nat, buf: seq<nat>, n: nat, ghost d: Disk, ghost o: seq<Owner>, ghost free: nat)
      returns (out: Outcome, buf': seq<nat>)
      requires Valid() && f < |files| && |buf| < n && offset + n <= files[f].size
      requires SameViews(d, o, D(), own) && IsRead(d, o, f, offset, buf) && Paid(d, free, f, offset, n, (offset + |buf|) / BLKSIZE)
      modifies this`bitmap, this`blocks, this`files, this`own
      ensures Valid() && SameViews(d, o, D(), own) && NoNewHoles(old(D()), D())
      ensures forall g :: 0 <= g < |files| ==> files[g].size == old(files)[g].size
      ensures out.Panic? ==> Full() && HasHole(old(D()), f)
      ensures out.Done? ==> out == Done(if offset + |buf| >= MAXFILESIZE then E_INVAL else 0)
      ensures out == Done(0) ==> |buf| < |buf'| <= n && IsRead(d, o, f, offset, buf')
      ensures out.Panic? ==> Short(d, free, f, offset, n)
      ensures out == Done(E_INVAL) || (out == Done(0) && |buf'| == n) ==> !Short(d, free, f, offset, n)
      ensures out == Done(0) && |buf'| < n ==> Paid(d, free, f, offset, n, (offset + |buf'|) / BLKSIZE)
    {
      ghost var d1, free1, pos := D(), |FreeSet(bitmap)|, offset + |buf|;
      NextBlock(pos, n - |buf|);
      BlockInFile(pos, 0);
      out, buf' := ReadStep(f, offset, buf, n - |buf|, d, o);
      Paying(d, free, d1, free1, D(), |FreeSet(bitmap)|, f, offset, n, pos / BLKSIZE);
    }

    /** file_read: the bytes of the file from `offset` on, as many as there are; it may allocate blocks
        for holes, but changes no byte of any file. */
    method FileRead(f: nat, count: nat, offset: nat) returns (out: Outcome, buf: seq<nat>)
      requires Valid() && f < |files|
      modifies this`bitmap, this`blocks, this`files, this`own
      ensures Valid() && SameViews(old(D()), old(own), D(), own)
      ensures forall g :: 0 <= g < |files| ==> files[g].size == old(files)[g].size
      ensures out.Panic? ==> Full() && HasHole(old(D()), f)
      ensures var n := if offset >= old(files)[f].size then 0 else Min(count, old(files)[f].size - offset);
              out.Panic? <==> Short(old(D()), |FreeSet(old(bitmap))|, f, offset, n)
      ensures out.Done? ==>
                var size := old(files)[f].size;
                var n := if offset >= size then 0 else Min(count, size - offset);
                if n > 0 && offset + n > MAXFILESIZE then out == Done(E_INVAL)
                else out == Done(n) && |buf| == n && IsRead(old(D()), old(own), f, offset, buf)
    {
      buf := [];
      if offset >= files[f].size {
        return Done(0), buf;
      }
      var n := Min(count, files[f].size - offset);
      var pos := offset;
      while pos < offset + n
        invariant offset <= pos <= offset + n && |buf| == pos - offset && (pos > offset ==> pos <= MAXFILESIZE)
        invariant Valid() && SameViews(old(D()), old(own), D(), own)
        invariant forall g :: 0 <= g < |files| ==> files[g].size == old(files)[g].size
        invariant IsRead(old(D()), old(own), f, offset, buf)
        invariant NoNewHoles(old(D()), D())
        invariant pos < offset + n ==> Paid(old(D()), |FreeSet(old(bitmap))|, f, offset, n, pos / BLKSIZE)
        invariant pos == offset + n ==> !Short(old(D()), |FreeSet(old(bitmap))|, f, offset, n)
      {
        out, buf := ReadTurn(f, offset, buf, n, old(D()), old(own), |FreeSet(old(bitmap))|);
        if out != Done(0) {
          return;
        }
        pos := offset + |buf|;
      }
      out := Done(n);
    }

    /** The first part of file_write: growing a file changes no byte. */
    method Extend(f: nat, end: nat)
      requires Valid() && f < |files|
      modifies this`bitmap, this`blocks, this`files, this`own
      ensures Valid() && SameViews(old(D()), old(own), D(), own)
      ensures forall g :: 0 <= g < |files| ==> files[g].size == if g == f then Max(old(files)[f].size, end) else old(files)[g].size
      ensures bitmap == old(bitmap) && blocks == old(blocks) && files == old(files)[f := old(files)[f].(size := files[f].size)]
    {
      if end > files[f].size {
        NBlocksGrows(files[f].size, end);
        FileSetSize(f, end);
      }
    }

    /** One round of the loop of file_write. */
    method WriteRound(f: nat, pos: nat, piece: seq<nat>) returns (out: Outcome)
      requires Valid() && f < |files| && pos < files[f].size && pos % BLKSIZE + |piece| <= BLKSIZE
      modifies this`bitmap, this`blocks, this`files, this`own
      ensures Valid() && |files| == |old(files)| && (forall g :: 0 <= g < |files| ==> files[g].size == old(files)[g].size)
      ensures out.Panic? ==> Full()
      ensures out.Panic? <==> pos / BLKSIZE < MAXBLOCKS && |FreeSet(old(bitmap))| < Needed(old(D()), f, pos / BLKSIZE)
      ensures out == Done(0) ==> Got(old(D()), D(), f, pos / BLKSIZE)
      ensures out == Done(0) ==> |FreeSet(bitmap)| == |FreeSet(old(bitmap))| - Needed(old(D()), f, pos / BLKSIZE)
      ensures out.Done? ==> out == Done(if pos >= MAXFILESIZE then E_INVAL else 0)
      ensures out != Done(0) ==> SameViews(old(D()), old(own), D(), own)
      ensures out == Done(0) ==>
                var b := pos / BLKSIZE;
                && b < MAXBLOCKS
                && OnlyView(old(D()), old(own), D(), own, f, b, Patch(View(old(D()), old(own), f, b), pos % BLKSIZE, piece))
    {
      BlockInFile(pos, files[f].size);
      var blk;
      out, blk := FileGetBlock(f, pos / BLKSIZE);
      if out != Done(0) {
        return;
      }
      var b := pos / BLKSIZE;
      assert Ptr(D(), BlockRef(f, b)) == blk;
      var bytes := Patch(blocks[blk].bytes, pos % BLKSIZE, piece);
      WriteBlock(D(), own, f, b, bytes);
      blocks := blocks[blk := Data(bytes)];
    }

    /** The body of the loop of file_write; d and o are the disk before the call. */
    method WriteStep(f: nat, buf: seq<nat>, offset: nat, k: nat, ghost d: Disk, ghost o: seq<Owner>) returns (out: Outcome, k': nat)
      requires Valid() && f < |files| && f < |d.files| && k < |buf| && offset + |buf| <= files[f].size
      requires Written(d, o, D(), own, f, buf, offset, k)
      modifies this`bitmap, this`blocks, this`files, this`own
      ensures Valid() && |files| == |old(files)| && forall g :: 0 <= g < |files| ==> files[g].size == old(files)[g].size
      ensures out.Panic? ==> Full()
      ensures out.Done? ==> out == Done(if offset + k >= MAXFILESIZE then E_INVAL else 0)
      ensures out.Done? ==> k < k' <= |buf| && Written(d, o, D(), own, f, buf, offset, k')
      ensures out == Done(0) ==> offset + k' <= MAXFILESIZE && k' == k + InBlock(offset + k, |buf| - k)
      ensures out == Done(E_INVAL) ==> k' == |buf|
      ensures var b := (offset + k) / BLKSIZE;
              && (out.Panic? <==> b < MAXBLOCKS && |FreeSet(old(bitmap))| < Needed(old(D()), f, b))
              && (out == Done(0) ==> Got(old(D()), D(), f, b) && |FreeSet(bitmap)| == |FreeSet(old(bitmap))| - Needed(old(D()), f, b))
    {
      var pos := offset + k;
      var bn := InBlock(pos, |buf| - k);
      k' := |buf|;
      ghost var d1, own1 := D(), own;
      out := WriteRound(f, pos, buf[k..k + bn]);
      if out.Panic? {
        return;
      }
      if out.n < 0 {
        WrittenStays(d, o, d1, own1, D(), own, f, buf, offset, k, |buf|);
        return;
      }
      WriteMore(d, o, d1, own1, D(), own, f, buf, offset, k, bn);
      k' := k + bn;
      BlockEnd(pos, bn);
    }

    /** A round of file_write with the account of what is allocated. */
    method WriteTurn(f: nat, buf: seq<nat>, offset: nat, k: nat, ghost d: Disk, ghost o: seq<Owner>, ghost free: nat)
      returns (out: Outcome, k': nat)
      requires Valid() && f < |files| && f < |d.files| && k < |buf| && offset + |buf| <= files[f].size
      requires Written(d, o, D(), own, f, buf, offset, k) && Paid(d, free, f, offset, |buf|, (offset + k) / BLKSIZE)
      modifies this`bitmap, this`blocks, this`files, this`own
      ensures Valid() && |files| == |old(files)| && forall g :: 0 <= g < |files| ==> files[g].size == old(files)[g].size
      ensures out.Panic? ==> Full()
      ensures out.Done? ==> out == Done(if offset + k >= MAXFILESIZE then E_INVAL else 0)
      ensures out.Done? ==> k < k' <= |buf| && Written(d, o, D(), own, f, buf, offset, k')
      ensures out == Done(0) ==> offset + k' <= MAXFILESIZE
      ensures out == Done(E_INVAL) ==> k' == |buf|
      ensures out.Panic? ==> Short(d, free, f, offset, |buf|)
      ensures out == Done(E_INVAL) || (out == Done(0) && k' == |buf|) ==> !Short(d, free, f, offset, |buf|)
      ensures out == Done(0) && k' < |buf| ==> Paid(d, free, f, offset, |buf|, (offset + k') / BLKSIZE)
    {
      ghost var d1, free1, pos := D(), |FreeSet(bitmap)|, offset + k;
      NextBlock(pos, |buf| - k);
      BlockInFile(pos, 0);
      out, k' := WriteStep(f, buf, offset, k, d, o);
      Paying(d, free, d1, free1, D(), |FreeSet(bitmap)|, f, offset, |buf|, pos / BLKSIZE);
    }

    /** file_write: exactly the bytes from `offset` on change, and the size becomes the larger of the two. */
    method FileWrite(f: nat, buf: seq<nat>, offset: nat) returns (out: Outcome)
      requires Valid() && f < |files|
      modifies this`bitmap, this`blocks, this`files, this`own
      ensures Valid() && |files| == |old(files)|
      ensures forall g :: 0 <= g < |files| ==>
                files[g].size == if g == f then Max(old(files)[f].size, offset + |buf|) else old(files)[g].size
      ensures out.Panic? ==> Full()
      ensures out.Panic? <==> Short(old(D()), |FreeSet(old(bitmap))|, f, offset, |buf|)
      ensures out.Done? ==> out == Done(if buf != [] && offset + |buf| > MAXFILESIZE then E_INVAL else |buf|)
      ensures out.Done? ==> Written(old(D()), old(own), D(), own, f, buf, offset, |buf|)
    {
      Extend(f, offset + |buf|);
      NeedResized(old(D()), f, files[f].size, offset, |buf|);
      var k: nat := 0;
      WrittenStays(old(D()), old(own), old(D()), old(own), D(), own, f, buf, offset, 0, 0);
      while k < |buf|
        invariant k <= |buf| && (k > 0 ==> offset + k <= MAXFILESIZE)
        invariant Valid() && Written(old(D()), old(own), D(), own, f, buf, offset, k)
        invariant forall g :: 0 <= g < |files| ==>
                    files[g].size == if g == f then Max(old(files)[f].size, offset + |buf|) else old(files)[g].size
        invariant k < |buf| ==> Paid(old(D()), |FreeSet(old(bitmap))|, f, offset, |buf|, (offset + k) / BLKSIZE)
        invariant k == |buf| ==> !Short(old(D()), |FreeSet(old(bitmap))|, f, offset, |buf|)
      {
        out, k := WriteTurn(f, buf, offset, k, old(D()), old(own), |FreeSet(old(bitmap))|);
        if out != Done(0) {
          return;
        }
      }
      out := Done(|buf|);
    }

    /** A block of a file, as dir_lookup gets at it. */
    method GetView(f: nat, b: nat) returns (out: Outcome, block: seq<nat>)
      requires Valid() && f < |files| && b < MAXBLOCKS && b < NBlocks(files[f].size)
      modifies this`bitmap, this`blocks, this`files, this`own
      ensures Valid() && SameViews(old(D()), old(own), D(), own)
      ensures forall g :: 0 <= g < |files| ==> files[g].size == old(files)[g].size
      ensures NoNewHoles(old(D()), D())
      ensures out.Panic? ==> Full() && HasHole(old(D()), f)
      ensures out.Done? ==> out == Done(0) && block == View(old(D()), old(own), f, b)
    {
      block := [];
      var blk;
      out, blk := FileGetBlock(f, b);
      FewerHoles(old(D()), D(), f, b);
      if out.Done? {
        assert Ptr(D(), BlockRef(f, b)) == blk;
        block := blocks[blk].bytes;
      }
    }

    /** dir_lookup: the first entry of that name, if there is one. */
    method DirLookup(dir: nat, name: seq<nat>) returns (out: Outcome, e: nat)
      requires Valid() && dir < |files| && files[dir].size % BLKSIZE == 0 && files[dir].size <= MAXFILESIZE
      modifies this`bitmap, this`blocks, this`files, this`own
      ensures Valid() && SameViews(old(D()), old(own), D(), own)
      ensures forall g :: 0 <= g < |files| ==> files[g].size == old(files)[g].size
      ensures out.Panic? ==> Full() && HasHole(old(D()), dir)
      ensures NoNewHoles(old(D()), D())
      ensures out.Done? ==> out == Done(0) || out == Done(E_NOT_FOUND)
      ensures out == Done(0) ==> e < files[dir].size / ENTSIZE && EntryName(old(D()), old(own), dir, e) == name
      ensures out == Done(0) ==> NoneOf(old(D()), old(own), dir, name, e)
      ensures out == Done(E_NOT_FOUND) ==> NoneOf(old(D()), old(own), dir, name, files[dir].size / ENTSIZE)
    {
      e := 0;
      var nblock := files[dir].size / BLKSIZE;
      var i := 0;
      while i < nblock
        invariant 0 <= i <= nblock && Valid() && SameViews(old(D()), old(own), D(), own)
        invariant forall g :: 0 <= g < |files| ==> files[g].size == old(files)[g].size
        invariant NoNewHoles(old(D()), D())
        invariant NoneOf(old(D()), old(own), dir, name, i * BLKFILES)
      {
        var block;
        out, block := GetView(dir, i);
        if out.Panic? {
          return;
        }
        var j := FindIn(block, name);
        NoneMore(old(D()), old(own), dir, name, i, j);
        if j < BLKFILES {
          return Done(0), i * BLKFILES + j;
        }
        i := i + 1;
      }
      out := Done(E_NOT_FOUND);
    }

    /** Free, owned and reserved blocks together are all the blocks there are. */
    lemma Conservation()
      requires Sound()
      ensures |FreeSet(bitmap)| + |HeldSet(own)| + reserved == nblocks
    {
      Partition(bitmap, own, reserved);
    }

    /** pwrite then pread: what file_write accepted, file_read returns. */
    method WriteThenRead(f: nat, buf: seq<nat>, offset: nat) returns (out: Outcome, back: seq<nat>)
      requires Valid() && f < |files| && offset + |buf| <= MAXFILESIZE
      modifies this`bitmap, this`blocks, this`files, this`own
      ensures Valid() && (out == Done(|buf|) ==> back == buf)
      ensures out == Done(|buf|) || (out.Panic? && Full())
    {
      back := [];
      out := FileWrite(f, buf, offset);
      if out.Panic? {
        return;
      }
      out, back := FileRead(f, |buf|, offset);
    }

    /** A file system found on a disk. */
    constructor Mount(nblocks: nat, reserved: nat, bitmap: seq<bool>, blocks: seq<Block>, files: seq<File>, ghost own: seq<Owner>)
      requires |bitmap| == |blocks| == nblocks && 1 < reserved <= nblocks
      requires Good(Disk(files, blocks), own) && TailZero(Disk(files, blocks))
      requires forall p :: 0 <= p < nblocks ==> (bitmap[p] <==> p >= reserved && own[p].Nobody?)
      requires forall p :: 0 <= p < reserved ==> own[p].Nobody?
      ensures Valid() && D() == Disk(files, blocks) && this.own == own && this.bitmap == bitmap
      ensures this.nblocks == nblocks && this.reserved == reserved
    {
      this.nblocks, this.reserved, this.bitmap, this.blocks, this.files, this.own := nblocks, reserved, bitmap, blocks, files, own;
    }

    /** A file system whose `nfiles` files are empty. */
    constructor (nblocks: nat, reserved: nat, nfiles: nat)
      requires 1 < reserved <= nblocks
      ensures Valid() && |files| == nfiles && this.nblocks == nblocks && this.reserved == reserved
      ensures FreeSet(bitmap) == Below(nblocks) - Below(reserved)
      ensures forall f :: 0 <= f < nfiles ==> files[f].size == 0
    {
      this.nblocks, this.reserved := nblocks, reserved;
      bitmap := seq(nblocks, p => p >= reserved);
      blocks := seq(nblocks, _ => Data(Zeros(BLKSIZE)));
      files := seq(nfiles, _ => File(0, Zeros(NDIRECT), 0));
      own := seq(nblocks, _ => Nobody);
      new;
      forall f | 0 <= f < nfiles ensures FileOk(D(), f) {}
      forall r | InRange(D(), r) ensures Ptr(D(), r) == 0 {}
    }
  }
}
