/**
 The write-back block cache (fs/bc.c) with the free-block bitmap kept inside it (fs/fs.c:31-78) and
 fs_sync (fs/fs.c:495-501). Blocks are modelled bit by bit, the grain at which the bitmap is used.
 */
module BlockCache {

  const BLKBITSIZE: nat := 32768
  type Block = seq<bool>

  /** Position of the bitmap block, and of the bit within it, that stand for block b. */
  function BitBlock(b: nat): nat { 2 + b / BLKBITSIZE }
  function BitIndex(b: nat): nat { b % BLKBITSIZE }

  /** Boot block, super block or bitmap block of a disk of n blocks. */
  predicate Reserved(n: nat, b: nat) { b < 2 || (b - 2) * BLKBITSIZE < n }

  ghost predicate IsDisk(d: seq<Block>) {
    |d| > 0 && BitBlock(|d| - 1) < |d| && forall b :: 0 <= b < |d| ==> |d[b]| == BLKBITSIZE
  }

  ghost predicate Free(d: seq<Block>, b: nat)
    requires IsDisk(d) && b < |d|
  {
    d[BitBlock(b)][BitIndex(b)]
  }

  // ----- The same operations on a plain disk

  datatype Op =
    | Read(b: nat)
    | Write(b: nat, off: nat, bits: seq<bool>)
    | Flush(b: nat)
    | Sync
    | Alloc
    | Release(b: nat)

  datatype Answer = Done | Data(block: Block) | Got(b: nat) | NoDisk

  function Splice(s: Block, off: nat, bits: seq<bool>): Block
    requires off + |bits| <= |s|
  {
    s[..off] + bits + s[off + |bits|..]
  }

  ghost function SetBit(d: seq<Block>, b: nat, v: bool): (d': seq<Block>)
    requires IsDisk(d) && b < |d|
    ensures IsDisk(d') && |d'| == |d|
    ensures forall c: nat :: c < |d| ==> Free(d', c) == if c == b then v else Free(d, c)
  {
    var k := BitBlock(b);
    var d' := d[k := d[k][BitIndex(b) := v]];
    assert forall c: nat :: c < |d| && BitBlock(c) == k && BitIndex(c) == BitIndex(b) ==> c == b;
    d'
  }

  ghost predicate LeastFree(d: seq<Block>, b: nat)
    requires IsDisk(d)
  {
    b < |d| && Free(d, b) && forall c: nat :: c < b ==> !Free(d, c)
  }

  /** What the file system above the cache may ask: addresses inside the disk, data written only
      outside the bitmap, and no reserved block given back. */
  predicate Proper(n: nat, op: Op) {
    match op
    case Read(b) => 0 < b < n
    case Write(b, off, bits) => 0 < b < n && off + |bits| <= BLKBITSIZE && (b == 1 || !Reserved(n, b))
    case Flush(b) => 0 < b < n
    case Release(b) => b < n && !Reserved(n, b)
    case _ => true
  }

  /** d' and r are the outcome of op on a plain disk d. */
  ghost predicate Plain(d: seq<Block>, op: Op, d': seq<Block>, r: Answer)
    requires IsDisk(d) && Proper(|d|, op)
  {
    match op
    case Read(b) => d' == d && r == Data(d[b])
    case Write(b, off, bits) => d' == d[b := Splice(d[b], off, bits)] && r == Done
    case Flush(_) => d' == d && r == Done
    case Sync => d' == d && r == Done
    case Alloc =>
      if exists b: nat :: LeastFree(d, b) then r.Got? && LeastFree(d, r.b) && d' == SetBit(d, r.b, false)
      else d' == d && r == NoDisk
    case Release(b) => d' == SetBit(d, b, true) && r == Done
  }

  /** op reads or writes a block that is marked free. */
  ghost predicate TouchesFree(d: seq<Block>, op: Op) {
    (op.Read? || op.Write?) && IsDisk(d) && op.b < |d| && Free(d, op.b)
  }

  /** The answers, and the disks between them, of a plain disk of n blocks served the first of ops. */
  ghost predicate PlainRun(n: nat, states: seq<seq<Block>>, ops: seq<Op>, answers: seq<Answer>) {
    && |answers| <= |ops| && |states| == |answers| + 1
    && forall i :: 0 <= i < |answers| ==> PlainStep(n, states[i], ops[i], states[i + 1], answers[i])
  }

  ghost predicate PlainStep(n: nat, d: seq<Block>, op: Op, d': seq<Block>, r: Answer) {
    IsDisk(d) && |d| == n && Proper(n, op) && Plain(d, op, d', r)
  }

  lemma LongerRun(n: nat, states: seq<seq<Block>>, ops: seq<Op>, answers: seq<Answer>, d: seq<Block>, r: Answer)
    requires PlainRun(n, states, ops, answers) && |answers| < |ops|
    requires PlainStep(n, states[|answers|], ops[|answers|], d, r)
    ensures PlainRun(n, states + [d], ops, answers + [r])
  {
  }

  ghost predicate ReservedInUse(d: seq<Block>)
    requires IsDisk(d)
  {
    forall b: nat :: b < |d| && Reserved(|d|, b) ==> !Free(d, b)
  }

  /** Every block that is free in d is free in m. */
  ghost predicate FreeWithin(d: seq<Block>, m: seq<Block>)
    requires IsDisk(d) && IsDisk(m) && |d| == |m|
  {
    forall b: nat :: b < |d| && Free(d, b) ==> Free(m, b)
  }

  class Cache {
    var disk: seq<Block>
    var cache: map<nat, Block>  // pages mapped in the DISKMAP window
    var dirty: set<nat>         // those with PTE_D set

    /** The contents a reader sees: the cached page if there is one, else the disk block. */
    ghost function Logical(): (d: seq<Block>)
      reads this
      ensures |d| == |disk|
      ensures forall b :: 0 <= b < |d| ==> d[b] == if b in cache then cache[b] else disk[b]
    {
      var c, d := cache, disk;
      seq(|d|, b requires 0 <= b < |d| => if b in c then c[b] else d[b])
    }

    /** Shape of the cache, and the agreement of clean pages with the disk. */
    ghost predicate Clean()
      reads this
    {
      && IsDisk(disk)
      && (forall b :: b in cache ==> 0 < b < |disk| && |cache[b]| == BLKBITSIZE)
      && dirty <= cache.Keys
      && forall b :: b in cache && b !in dirty ==> cache[b] == disk[b]
    }

    ghost predicate Valid()
      reads this
    {
      && Clean()
      && ReservedInUse(Logical())
      && FreeWithin(disk, Logical())
    }

    /** bc_init: the super block has been read in, nothing else. */
    constructor (d: seq<Block>)
      requires IsDisk(d) && ReservedInUse(d)
      ensures Valid() && disk == d && Logical() == d
    {
      disk, cache, dirty := d, map[1 := d[1]], {};
      new;
      assert Logical() == d;
    }

    /** The number of blocks not yet mapped bounds the nesting of faults. */
    ghost function Absent(): set<nat>
      reads this
    {
      set b: nat | b < |disk| && b !in cache
    }

    /** bc_pgfault: reads the block in, then looks its bit up, which may fault in a bitmap block. */
    method Fault(b: nat) returns (ok: bool)
      requires Valid() && 0 < b < |disk| && b !in cache
      modifies this`cache, this`dirty
      ensures Valid() && Logical() == old(Logical()) && dirty == old(dirty)
      ensures b in cache && old(cache).Keys <= cache.Keys
      ensures ok == !Free(Logical(), b)
      decreases Absent(), 0
    {
      cache := cache[b := disk[b]];
      dirty := dirty - {b};
      assert Logical() == old(Logical());
      assert b in old(Absent()) && b !in Absent();
      assert Absent() < old(Absent());
      var free, good := BlockIsFree(b);
      ok := good && !free;
    }

    /** block_is_free: the bitmap is read through the cache. */
    method BlockIsFree(b: nat) returns (free: bool, ok: bool)
      requires Valid() && b < |disk|
      modifies this`cache, this`dirty
      ensures Valid() && Logical() == old(Logical()) && dirty == old(dirty)
      ensures BitBlock(b) in cache && old(cache).Keys <= cache.Keys
      ensures ok && free == Free(Logical(), b)
      decreases Absent(), 1
    {
      ok := true;
      InBitmap(|disk|, b);
      if BitBlock(b) !in cache {
        ok := Fault(BitBlock(b));
      }
      assert Logical()[BitBlock(b)] == cache[BitBlock(b)];
      free := cache[BitBlock(b)][BitIndex(b)];
    }

    /** A page of the window is touched. */
    method Touch(b: nat) returns (ok: bool)
      requires Valid() && 0 < b < |disk|
      modifies this`cache, this`dirty
      ensures Valid() && Logical() == old(Logical()) && dirty == old(dirty)
      ensures b in cache && old(cache).Keys <= cache.Keys
      ensures ok == (b in old(cache) || !Free(Logical(), b))
    {
      ok := true;
      if b !in cache { ok := Fault(b); }
    }

    /** flush_block: a dirty page is written out and its dirty bit cleared. */
    method FlushBlock(b: nat)
      requires Clean() && 0 < b < |disk|
      modifies this`disk, this`dirty
      ensures Clean() && Logical() == old(Logical()) && dirty == old(dirty) - {b}
      ensures disk == old(disk)[b := Logical()[b]]
    {
      if b !in cache || b !in dirty { return; }
      disk := disk[b := cache[b]];
      dirty := dirty - {b};
      assert Logical() == old(Logical());
    }

    /** fs_sync: afterwards the disk holds the contents and no page is dirty. */
    method FsSync()
      requires Valid()
      modifies this`disk, this`dirty
      ensures Valid() && Logical() == old(Logical())
      ensures forall b :: 0 < b < |disk| ==> disk[b] == Logical()[b]
      ensures dirty == {}
    {
      var i := 1;
      while i < |disk|
        invariant 1 <= i <= |disk| && |disk| == old(|disk|)
        invariant Clean() && Logical() == old(Logical())
        invariant forall b :: 0 < b < i ==> disk[b] == Logical()[b] && b !in dirty
      {
        FlushBlock(i);
        i := i + 1;
      }
    }

    /** A store through the window sets the page's dirty bit. */
    method Store(b: nat, off: nat, bits: seq<bool>)
      requires Clean() && b in cache && off + |bits| <= BLKBITSIZE
      modifies this`cache, this`dirty
      ensures Clean() && Logical() == old(Logical())[b := Splice(old(Logical())[b], off, bits)]
      ensures cache.Keys == old(cache).Keys && dirty == old(dirty) + {b}
    {
      cache := cache[b := Splice(cache[b], off, bits)];
      dirty := dirty + {b};
      assert Logical() == old(Logical())[b := Splice(old(Logical())[b], off, bits)];
    }

    method StoreBit(b: nat, v: bool)
      requires Clean() && b < |disk| && BitBlock(b) in cache
      modifies this`cache, this`dirty
      ensures Clean() && Logical() == SetBit(old(Logical()), b, v)
      ensures cache.Keys == old(cache).Keys && dirty == old(dirty) + {BitBlock(b)}
    {
      SpliceBit(Logical(), b, v);
      Store(BitBlock(b), BitIndex(b), [v]);
    }

    /** The body of alloc_block's loop once a free block is found. */
    method Claim(b: nat)
      requires Valid() && b < |disk| && Free(Logical(), b) && BitBlock(b) in cache
      modifies this
      ensures Valid() && |disk| == old(|disk|) && Logical() == SetBit(old(Logical()), b, false)
    {
      ghost var m, d := Logical(), disk;
      InBitmap(|disk|, b);
      StoreBit(b, false);
      FlushBlock(BitBlock(b));
      AfterAlloc(m, d, disk, b);
    }

    /** alloc_block: the least free block is marked in use and the change goes straight to disk. */
    method AllocBlock() returns (r: Answer)
      requires Valid()
      modifies this
      ensures Valid() && |disk| == old(|disk|) && Plain(old(Logical()), Alloc, Logical(), r)
    {
      var i := 0;
      while i < |disk|
        invariant 0 <= i <= |disk| && disk == old(disk)
        invariant Valid() && Logical() == old(Logical())
        invariant forall c: nat :: c < i ==> !Free(Logical(), c)
      {
        var free, ok := BlockIsFree(i);
        if free {
          assert LeastFree(Logical(), i);
          Claim(i);
          return Got(i);
        }
        i := i + 1;
      }
      r := NoDisk;
    }

    /** free_block: the bit is set in memory only. */
    method FreeBlock(b: nat)
      requires Valid() && b < |disk| && !Reserved(|disk|, b)
      modifies this`cache, this`dirty
      ensures Valid() && Logical() == SetBit(old(Logical()), b, true)
    {
      ghost var m := Logical();
      InBitmap(|disk|, b);
      var ok := Touch(BitBlock(b));
      StoreBit(b, true);
      AfterFree(m, disk, b);
    }

    method WriteData(b: nat, off: nat, bits: seq<bool>)
      requires Valid() && b in cache && Proper(|disk|, Write(b, off, bits))
      modifies this`cache, this`dirty
      ensures Valid() && Logical() == old(Logical())[b := Splice(old(Logical())[b], off, bits)]
    {
      AfterWrite(Logical(), disk, b, off, bits);
      Store(b, off, bits);
    }

    method WriteOut(b: nat)
      requires Valid() && 0 < b < |disk|
      modifies this`disk, this`dirty
      ensures Valid() && Logical() == old(Logical()) && disk == old(disk)[b := Logical()[b]]
    {
      AfterFlush(Logical(), disk, b);
      FlushBlock(b);
    }

    /** A run of one operation: what a plain disk would answer, or a panic on touching a block that is
        not in the cache and is marked free. */
    method Step(op: Op) returns (ok: bool, r: Answer)
      requires Valid() && Proper(|disk|, op)
      modifies this
      ensures Valid() && |disk| == old(|disk|)
      ensures ok ==> Plain(old(Logical()), op, Logical(), r)
      ensures !ok ==> Logical() == old(Logical())
      ensures !ok <==> TouchesFree(old(Logical()), op) && op.b !in old(cache)
      ensures op.Sync? ==> disk[1..] == Logical()[1..]
      ensures op.Flush? ==> disk == old(disk)[op.b := Logical()[op.b]]
    {
      ok, r := true, Done;
      match op
      case Read(b) =>
        ok := Touch(b);
        if ok { r := Data(cache[b]); }
      case Write(b, off, bits) =>
        ok := Touch(b);
        if ok { WriteData(b, off, bits); }
      case Flush(b) =>
        WriteOut(b);
      case Sync =>
        FsSync();
      case Alloc =>
        r := AllocBlock();
      case Release(b) =>
        FreeBlock(b);
    }
    /** Every run answers as a plain disk would, keeps the disk's free blocks within the free blocks
        in memory, and stops early only at a read or write of a block that is marked free. */
    method Run(ops: seq<Op>) returns (answers: seq<Answer>, ghost states: seq<seq<Block>>)
      requires Valid() && forall i :: 0 <= i < |ops| ==> Proper(|disk|, ops[i])
      modifies this
      ensures Valid() && |disk| == old(|disk|)
      ensures PlainRun(|disk|, states, ops, answers)
      ensures states[0] == old(Logical()) && states[|answers|] == Logical()
      ensures |answers| < |ops| ==> TouchesFree(Logical(), ops[|answers|])
    {
      answers, states := [], [Logical()];
      while |answers| < |ops|
        invariant Valid() && |disk| == old(|disk|)
        invariant PlainRun(|disk|, states, ops, answers)
        invariant states[0] == old(Logical()) && states[|answers|] == Logical()
        decreases |ops| - |answers|
      {
        var ok, r := Step(ops[|answers|]);
        if !ok { return; }
        LongerRun(|disk|, states, ops, answers, Logical(), r);
        answers, states := answers + [r], states + [Logical()];
      }
    }
  }

  lemma SpliceBit(d: seq<Block>, b: nat, v: bool)
    requires IsDisk(d) && b < |d|
    ensures d[BitBlock(b) := Splice(d[BitBlock(b)], BitIndex(b), [v])] == SetBit(d, b, v)
  {
    InBitmap(|d|, b);
    assert Splice(d[BitBlock(b)], BitIndex(b), [v]) == d[BitBlock(b)][BitIndex(b) := v];
  }

  lemma AfterFree(m: seq<Block>, d: seq<Block>, b: nat)
    requires IsDisk(m) && IsDisk(d) && |d| == |m| && b < |d| && FreeWithin(d, m) && ReservedInUse(m) && !Reserved(|m|, b)
    ensures FreeWithin(d, SetBit(m, b, true)) && ReservedInUse(SetBit(m, b, true))
  {
  }

  lemma AfterWrite(m: seq<Block>, d: seq<Block>, b: nat, off: nat, bits: seq<bool>)
    requires IsDisk(m) && IsDisk(d) && |d| == |m| && 0 < b < |d| && off + |bits| <= BLKBITSIZE
    requires FreeWithin(d, m) && ReservedInUse(m) && (b == 1 || !Reserved(|m|, b))
    ensures var m' := m[b := Splice(m[b], off, bits)]; IsDisk(m') && FreeWithin(d, m') && ReservedInUse(m')
  {
  }

  lemma AfterFlush(m: seq<Block>, d: seq<Block>, b: nat)
    requires IsDisk(m) && IsDisk(d) && |d| == |m| && b < |d| && FreeWithin(d, m)
    ensures IsDisk(d[b := m[b]]) && FreeWithin(d[b := m[b]], m)
  {
  }

  lemma AfterAlloc(m: seq<Block>, d: seq<Block>, d': seq<Block>, b: nat)
    requires IsDisk(m) && IsDisk(d) && |d| == |m| && b < |d| && FreeWithin(d, m)
    requires var m' := SetBit(m, b, false); d' == d[BitBlock(b) := m'[BitBlock(b)]]
    ensures IsDisk(d') && FreeWithin(d', SetBit(m, b, false))
  {
  }

  lemma InBitmap(n: nat, b: nat)
    requires b < n
    ensures 0 < BitBlock(b) && Reserved(n, BitBlock(b)) && BitBlock(b) <= BitBlock(n - 1)
  {
  }
}
