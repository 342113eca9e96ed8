/**
 File operations over whole runs (fs/fs.c:361-470), against files that are nothing but a size and an
 array of bytes: no blocks, no pointers, no allocation.
 */
module PlainFiles {
  import opened FileBlocks
  import opened FileSystem

  /** `bytes` has a place for every position up to MAXFILESIZE, also beyond `size`. */
  datatype Plain = Plain(size: nat, bytes: seq<nat>)

  type PlainDisk = seq<Plain>

  ghost function BytesOf(d: Disk, own: seq<Owner>, f: nat): (bytes: seq<nat>)
    requires Good(d, own) && f < |d.files|
    ensures |bytes| == MAXFILESIZE && forall pos :: 0 <= pos < MAXFILESIZE ==> bytes[pos] == ByteAt(d, own, f, pos)
  {
    seq<nat>(MAXFILESIZE, pos requires 0 <= pos < MAXFILESIZE => ByteAt(d, own, f, pos))
  }

  /** What a user sees of a disk. */
  ghost function Seen(d: Disk, own: seq<Owner>): (a: PlainDisk)
    requires Good(d, own)
    ensures |a| == |d.files| && forall f :: 0 <= f < |a| ==> a[f] == Plain(d.files[f].size, BytesOf(d, own, f))
  {
    seq(|d.files|, f requires 0 <= f < |d.files| => Plain(d.files[f].size, BytesOf(d, own, f)))
  }

  function Overwrite(bytes: seq<nat>, offset: nat, buf: seq<nat>): (r: seq<nat>)
    ensures |r| == |bytes|
    ensures forall i :: 0 <= i < |r| ==> r[i] == if offset <= i < offset + |buf| then buf[i - offset] else bytes[i]
  {
    seq<nat>(|bytes|, i requires 0 <= i < |bytes| => if offset <= i < offset + |buf| then buf[i - offset] else bytes[i])
  }

  function ZeroFrom(bytes: seq<nat>, from: nat): (r: seq<nat>)
    ensures |r| == |bytes| && forall i :: 0 <= i < |r| ==> r[i] == if i < from then bytes[i] else 0
  {
    seq<nat>(|bytes|, i requires 0 <= i < |bytes| => if i < from then bytes[i] else 0)
  }

  datatype Answer = Answer(n: int, buf: seq<nat>)

  /** How many bytes a read gets. */
  function Readable(a: Plain, count: nat, offset: nat): nat {
    if offset >= a.size then 0 else Min(count, a.size - offset)
  }

  /** The file after op. Shrinking clears whole blocks only. */
  function After(a: Plain, op: FileOp): Plain {
    match op
    case ReadOp(_, _, _) => a
    case WriteOp(_, buf, offset) => Plain(Max(a.size, offset + |buf|), Overwrite(a.bytes, offset, buf))
    case SizeOp(_, size) => Plain(size, ZeroFrom(a.bytes, NBlocks(size) * BLKSIZE))
  }

  /** What op answers. */
  function Reply(a: Plain, op: FileOp): Answer
    requires |a.bytes| == MAXFILESIZE
  {
    match op
    case ReadOp(_, count, offset) =>
      var n := Readable(a, count, offset);
      if n == 0 then Answer(0, [])
      else if offset + n > MAXFILESIZE then Answer(E_INVAL, [])
      else Answer(n, a.bytes[offset..offset + n])
    case WriteOp(_, buf, offset) => Answer(if buf != [] && offset + |buf| > MAXFILESIZE then E_INVAL else |buf|, [])
    case SizeOp(_, _) => Answer(0, [])
  }

  lemma SeenSame(d: Disk, own: seq<Owner>, d': Disk, own': seq<Owner>)
    requires SameViews(d, own, d', own') && forall g :: 0 <= g < |d.files| ==> d'.files[g].size == d.files[g].size
    ensures Seen(d', own') == Seen(d, own)
  {
    forall g | 0 <= g < |d.files| ensures BytesOf(d', own', g) == BytesOf(d, own, g) {
      forall pos | 0 <= pos < MAXFILESIZE ensures ByteAt(d', own', g, pos) == ByteAt(d, own, g, pos) {
        SameBytes(d, own, d', own', g, pos);
      }
    }
  }

  lemma SeenWritten(d: Disk, own: seq<Owner>, d': Disk, own': seq<Owner>, f: nat, buf: seq<nat>, offset: nat)
    requires Written(d, own, d', own', f, buf, offset, |buf|) && f < |d.files|
    requires forall g :: 0 <= g < |d.files| ==> d'.files[g].size == if g == f then Max(d.files[f].size, offset + |buf|) else d.files[g].size
    ensures var a := Seen(d, own); Seen(d', own') == a[f := After(a[f], WriteOp(f, buf, offset))]
  {
    forall g | 0 <= g < |d.files|
      ensures BytesOf(d', own', g) == if g == f then Overwrite(BytesOf(d, own, g), offset, buf) else BytesOf(d, own, g)
    {
    }
  }

  lemma SeenResized(d: Disk, own: seq<Owner>, d': Disk, own': seq<Owner>, f: nat, size: nat)
    requires Good(d, own) && Good(d', own') && |d'.files| == |d.files| && f < |d.files|
    requires forall g :: 0 <= g < |d.files| ==> d'.files[g].size == if g == f then size else d.files[g].size
    requires forall g, b :: 0 <= g < |d.files| && 0 <= b < MAXBLOCKS ==>
               View(d', own', g, b) == if g == f && b >= NBlocks(size) then Zeros(BLKSIZE) else View(d, own, g, b)
    ensures var a := Seen(d, own); Seen(d', own') == a[f := After(a[f], SizeOp(f, size))]
  {
    forall g | 0 <= g < |d.files|
      ensures BytesOf(d', own', g) == if g == f then ZeroFrom(BytesOf(d, own, g), NBlocks(size) * BLKSIZE) else BytesOf(d, own, g)
    {
      forall pos | 0 <= pos < MAXFILESIZE
        ensures ByteAt(d', own', g, pos) == if g == f && pos >= NBlocks(size) * BLKSIZE then 0 else ByteAt(d, own, g, pos)
      {
        BlockInFile(pos, 0);
        assert pos >= NBlocks(size) * BLKSIZE <==> pos / BLKSIZE >= NBlocks(size);
      }
    }
  }

  /** The operation needs more blocks than are free. */
  predicate TooLittle(d: Disk, free: nat, op: FileOp)
    requires op.f < |d.files| && FileOk(d, op.f)
  {
    match op
    case ReadOp(f, count, offset) =>
      var size := d.files[f].size;
      Short(d, free, f, offset, if offset >= size then 0 else Min(count, size - offset))
    case WriteOp(f, buf, offset) => Short(d, free, f, offset, |buf|)
    case SizeOp(_, _) => false
  }

  method ReadStep(fs: FileSystem, f: nat, count: nat, offset: nat) returns (full: bool, answer: Answer)
    requires fs.Valid() && f < |fs.files|
    modifies fs
    ensures fs.Valid() && |fs.files| == old(|fs.files|)
    ensures full ==> fs.Full()
    ensures full <==> TooLittle(old(fs.D()), |FreeSet(old(fs.bitmap))|, ReadOp(f, count, offset))
    ensures !full ==> var a, op := old(Seen(fs.D(), fs.own)), ReadOp(f, count, offset);
                      answer == Reply(a[f], op) && Seen(fs.D(), fs.own) == a[f := After(a[f], op)]
  {
    ghost var d, own := fs.D(), fs.own;
    var out, buf := fs.FileRead(f, count, offset);
    full, answer := out.Panic?, Answer(0, []);
    if !full {
      answer := Answer(out.n, if out.n > 0 then buf else []);
      ReadAnswer(d, own, fs.D(), fs.own, f, count, offset, out.n, buf);
    }
  }

  lemma ReadAnswer(d: Disk, own: seq<Owner>, d': Disk, own': seq<Owner>, f: nat, count: nat, offset: nat, n: int, buf: seq<nat>)
    requires SameViews(d, own, d', own') && f < |d.files| && forall g :: 0 <= g < |d.files| ==> d'.files[g].size == d.files[g].size
    requires var m := Readable(Plain(d.files[f].size, []), count, offset);
             if m > 0 && offset + m > MAXFILESIZE then n == E_INVAL else n == m == |buf| && IsRead(d, own, f, offset, buf)
    ensures var a, op := Seen(d, own), ReadOp(f, count, offset);
            Answer(n, if n > 0 then buf else []) == Reply(a[f], op) && Seen(d', own') == a[f := After(a[f], op)]
  {
    SeenSame(d, own, d', own');
    if n > 0 { ReadBytes(d, own, f, offset, buf); }
  }

  lemma ReadBytes(d: Disk, own: seq<Owner>, f: nat, offset: nat, buf: seq<nat>)
    requires IsRead(d, own, f, offset, buf) && buf != []
    ensures buf == BytesOf(d, own, f)[offset..offset + |buf|]
  {
  }

  method WriteStep(fs: FileSystem, f: nat, buf: seq<nat>, offset: nat) returns (full: bool, answer: Answer)
    requires fs.Valid() && f < |fs.files|
    modifies fs
    ensures fs.Valid() && |fs.files| == old(|fs.files|)
    ensures full ==> fs.Full()
    ensures full <==> TooLittle(old(fs.D()), |FreeSet(old(fs.bitmap))|, WriteOp(f, buf, offset))
    ensures !full ==> var a, op := old(Seen(fs.D(), fs.own)), WriteOp(f, buf, offset);
                      answer == Reply(a[f], op) && Seen(fs.D(), fs.own) == a[f := After(a[f], op)]
  {
    ghost var d, own := fs.D(), fs.own;
    var out := fs.FileWrite(f, buf, offset);
    full, answer := out.Panic?, Answer(0, []);
    if !full {
      SeenWritten(d, own, fs.D(), fs.own, f, buf, offset);
      answer := Answer(out.n, []);
    }
  }

  /** One operation answers and changes what is seen as on plain files, unless it needs more blocks than
      are free. */
  method Step(fs: FileSystem, op: FileOp) returns (full: bool, answer: Answer)
    requires fs.Valid() && op.f < |fs.files|
    modifies fs
    ensures fs.Valid() && |fs.files| == old(|fs.files|)
    ensures full ==> fs.Full()
    ensures full <==> TooLittle(old(fs.D()), |FreeSet(old(fs.bitmap))|, op)
    ensures !full ==> var a := old(Seen(fs.D(), fs.own));
                      answer == Reply(a[op.f], op) && Seen(fs.D(), fs.own) == a[op.f := After(a[op.f], op)]
  {
    match op
    case ReadOp(f, count, offset) => full, answer := ReadStep(fs, f, count, offset);
    case WriteOp(f, buf, offset) => full, answer := WriteStep(fs, f, buf, offset);
    case SizeOp(f, size) =>
      ghost var d, own := fs.D(), fs.own;
      fs.FileSetSize(f, size);
      full, answer := false, Answer(0, []);
      SeenResized(d, own, fs.D(), fs.own, f, size);
  }

  ghost predicate Wide(a: PlainDisk) { forall f :: 0 <= f < |a| ==> |a[f].bytes| == MAXFILESIZE }

  predicate Within(ops: seq<FileOp>, n: nat) { forall i :: 0 <= i < |ops| ==> ops[i].f < n }

  /** The plain files after a run, and its answers. */
  ghost function Final(a: PlainDisk, ops: seq<FileOp>): (a': PlainDisk)
    requires Within(ops, |a|) && Wide(a)
    ensures |a'| == |a| && Wide(a')
  {
    if ops == [] then a
    else
      var b, op := Final(a, ops[..|ops| - 1]), ops[|ops| - 1];
      b[op.f := After(b[op.f], op)]
  }

  ghost function Replies(a: PlainDisk, ops: seq<FileOp>): (rs: seq<Answer>)
    requires Within(ops, |a|) && Wide(a)
    ensures |rs| == |ops|
  {
    if ops == [] then []
    else
      var b, op := Final(a, ops[..|ops| - 1]), ops[|ops| - 1];
      Replies(a, ops[..|ops| - 1]) + [Reply(b[op.f], op)]
  }

  lemma OneMore(a: PlainDisk, ops: seq<FileOp>, i: nat)
    requires Within(ops, |a|) && Wide(a) && i < |ops|
    ensures Within(ops[..i], |a|) && Within(ops[..i + 1], |a|)
    ensures var b, op := Final(a, ops[..i]), ops[i];
            && Final(a, ops[..i + 1]) == b[op.f := After(b[op.f], op)]
            && Replies(a, ops[..i + 1]) == Replies(a, ops[..i]) + [Reply(b[op.f], op)]
  {
    assert ops[..i + 1][..i] == ops[..i];
  }

  /** Where a run stopped: the disk and its number of free blocks, before the operation that failed. */
  datatype Stop = Stop(d: Disk, own: seq<Owner>, free: nat)

  /** Every run of file operations, up to one that needs more blocks than are free, cannot be told from
      one on plain files. */
  method Run(fs: FileSystem, ops: seq<FileOp>) returns (answers: seq<Answer>, ghost stop: Stop)
    requires fs.Valid() && Within(ops, |fs.files|)
    modifies fs
    ensures fs.Valid() && |answers| <= |ops| && Good(stop.d, stop.own) && |stop.d.files| == old(|fs.files|)
    ensures var a := old(Seen(fs.D(), fs.own));
            && Wide(a) && answers == Replies(a, ops[..|answers|]) && Seen(stop.d, stop.own) == Final(a, ops[..|answers|])
    ensures if |answers| < |ops| then fs.Full() && TooLittle(stop.d, stop.free, ops[|answers|])
            else Seen(fs.D(), fs.own) == Seen(stop.d, stop.own)
  {
    ghost var a := Seen(fs.D(), fs.own);
    answers, stop := [], Stop(fs.D(), fs.own, |FreeSet(fs.bitmap)|);
    while |answers| < |ops|
      invariant |answers| <= |ops| && fs.Valid() && |fs.files| == |a| && stop == Stop(fs.D(), fs.own, |FreeSet(fs.bitmap)|)
      invariant answers == Replies(a, ops[..|answers|]) && Seen(fs.D(), fs.own) == Final(a, ops[..|answers|])
      decreases |ops| - |answers|
    {
      OneMore(a, ops, |answers|);
      var full, answer := Step(fs, ops[|answers|]);
      if full {
        return;
      }
      answers, stop := answers + [answer], Stop(fs.D(), fs.own, |FreeSet(fs.bitmap)|);
    }
  }
}
