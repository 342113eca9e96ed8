/**
 The image builder (fs/fsformat.c) and the mount that reads its image back (fs/fs.c).

 Regular files go to consecutive blocks from a bump pointer, then the root directory with one
 256-byte entry per file. Directory blocks hold these entries as bytes; the super block and the
 bitmap are kept as values.
 */
module Format {
  import opened Bytes
  import opened FileBlocks
  import opened FileSystem

  const MAXNAMELEN: nat := 128
  const MAX_DIR_ENTS: nat := 128
  const BLKBITSIZE: nat := 32768
  const FTYPE_REG: nat := 0
  const FS_MAGIC: nat := 0x4A0530AE
  /** DISKSIZE / BLKSIZE */
  const MAXDISK: nat := 0xC0000

  // ----- Directory entries as bytes

  function Words(s: seq<nat>): (b: Bytes)
    ensures |b| == 4 * |s|
  {
    if s == [] then [] else Le(s[0]) + Words(s[1..])
  }

  /** struct File in memory order. */
  function Encode(name: Bytes, f: File): (b: Bytes)
    requires |name| < MAXNAMELEN && |f.direct| == NDIRECT
    ensures |b| == ENTSIZE
  {
    name + Zeros(MAXNAMELEN - |name|) + Le(f.size) + Le(FTYPE_REG) + Words(f.direct) + Le(f.indirect) + Zeros(76)
  }

  /** The fields fs.c finds in an entry at offset `off` of a block. */
  function FileIn(p: Bytes, off: nat): File {
    File(WordAt(p, off + 128), seq<nat>(NDIRECT, i requires i >= 0 => WordAt(p, off + 136 + 4 * i)), WordAt(p, off + 176))
  }

  predicate Fits32(f: File) {
    f.size < 0x1_0000_0000 && f.indirect < 0x1_0000_0000 && forall i :: 0 <= i < |f.direct| ==> f.direct[i] < 0x1_0000_0000
  }

  lemma StoredPart(p: Bytes, off: nat, a: Bytes, b: Bytes, c: Bytes)
    requires Stored(p, off, a + b + c)
    ensures Stored(p, off + |a|, b)
  {
    var s, q := a + b + c, p[off..off + |a| + |b| + |c|];
    forall i | 0 <= i < |b| ensures p[off + |a| + i] == b[i] {
      assert q[|a| + i] == s[|a| + i];
    }
    assert p[off + |a|..off + |a| + |b|] == b;
  }

  lemma {:induction false} WordStored(p: Bytes, off: nat, s: seq<nat>, i: nat)
    requires i < |s| && Stored(p, off, Words(s))
    ensures Stored(p, off + 4 * i, Le(s[i]))
    decreases i
  {
    if i == 0 {
      StoredPart(p, off, [], Le(s[0]), Words(s[1..]));
    } else {
      StoredPart(p, off, Le(s[0]), Words(s[1..]), []);
      WordStored(p, off + 4, s[1..], i - 1);
    }
  }

  lemma WordFound(p: Bytes, off: nat, s: seq<nat>, i: nat)
    requires i < |s| && s[i] < 0x1_0000_0000 && Stored(p, off, Words(s))
    ensures WordAt(p, off + 4 * i) == s[i]
  {
    WordStored(p, off, s, i);
    LeWord(p, off + 4 * i, s[i]);
  }

  lemma NameFound(p: Bytes, off: nat, name: Bytes, f: File)
    requires |name| < MAXNAMELEN && |f.direct| == NDIRECT && IsString(name) && Stored(p, off, Encode(name, f))
    ensures StringAt(p, off) == name
  {
    var rest := Le(f.size) + Le(FTYPE_REG) + Words(f.direct) + Le(f.indirect) + Zeros(76);
    var pad := Zeros(MAXNAMELEN - |name|);
    assert Encode(name, f) == [] + (name + [0]) + (pad[1..] + rest);
    StoredPart(p, off, [], name + [0], pad[1..] + rest);
    StringFound(p, off, name);
  }

  lemma FieldsFound(p: Bytes, off: nat, name: Bytes, f: File)
    requires |name| < MAXNAMELEN && |f.direct| == NDIRECT && Stored(p, off, Encode(name, f)) && Fits32(f)
    ensures FileIn(p, off) == f
  {
    var head := name + Zeros(MAXNAMELEN - |name|);
    var a, t, d, e, z := Le(f.size), Le(FTYPE_REG), Words(f.direct), Le(f.indirect), Zeros(76);
    assert Encode(name, f) == head + a + (t + d + e + z);
    StoredPart(p, off, head, a, t + d + e + z);
    LeWord(p, off + 128, f.size);
    assert Encode(name, f) == (head + a + t) + d + (e + z);
    StoredPart(p, off, head + a + t, d, e + z);
    assert Encode(name, f) == (head + a + t + d) + e + z;
    StoredPart(p, off, head + a + t + d, e, z);
    LeWord(p, off + 176, f.indirect);
    forall i | 0 <= i < NDIRECT ensures WordAt(p, off + 136 + 4 * i) == f.direct[i] { WordFound(p, off + 136, f.direct, i); }
  }

  // ----- Building a file from blocks already filled

  /** The b'th block of a file with contents c, padded with zeros. */
  function Chunk(c: Bytes, b: nat): (s: Bytes)
    ensures |s| == BLKSIZE && forall i :: 0 <= i < BLKSIZE ==> s[i] == if b * BLKSIZE + i < |c| then c[b * BLKSIZE + i] else 0
  {
    seq<nat>(BLKSIZE, i requires i >= 0 => if b * BLKSIZE + i < |c| then c[b * BLKSIZE + i] else 0)
  }

  /** File f holds c: every block allocated, none beyond. */
  ghost predicate Holds(d: Disk, own: seq<Owner>, f: nat, c: Bytes) {
    && Good(d, own) && f < |d.files| && d.files[f].size == |c|
    && forall b :: 0 <= b < MAXBLOCKS ==> View(d, own, f, b) == Chunk(c, b) && (PtrOf(d, f, b) != 0 <==> b < NBlocks(|c|))
  }

  /** Files other than f are the same, pointers and bytes. */
  ghost predicate OthersSame(d: Disk, own: seq<Owner>, d': Disk, own': seq<Owner>, f: nat) {
    && Good(d, own) && Good(d', own') && |d'.files| == |d.files| && |d'.blocks| == |d.blocks|
    && forall g :: 0 <= g < |d.files| && g != f ==> SameFile(d, own, d', own', g)
  }

  ghost predicate SameFile(d: Disk, own: seq<Owner>, d': Disk, own': seq<Owner>, g: nat) {
    && Good(d, own) && Good(d', own') && g < |d.files| && g < |d'.files| && d'.files[g] == d.files[g]
    && forall b :: 0 <= b < MAXBLOCKS ==> PtrOf(d', g, b) == PtrOf(d, g, b) && View(d', own', g, b) == View(d, own, g, b)
  }

  /** The first i of n blocks from `start` hang in file f; the others wait, filled and unowned. */
  ghost predicate Progress(d: Disk, own: seq<Owner>, f: nat, start: nat, n: nat, i: nat, c: Bytes) {
    && Good(d, own) && f < |d.files| && 0 < start && start + n <= |own| && i <= n <= MAXBLOCKS
    && (forall b :: 0 <= b < MAXBLOCKS ==> PtrOf(d, f, b) == if b < i then start + b else 0)
    && (forall b :: 0 <= b < i ==> View(d, own, f, b) == Chunk(c, b))
    && (forall p :: start + i <= p < start + n ==> own[p].Nobody? && d.blocks[p] == Data(Chunk(c, p - start)))
  }

  /** Hanging a filled, unowned block into a file: that block of the file now reads as it does. */
  lemma AttachBlock(d: Disk, own: seq<Owner>, f: nat, b: nat, p: nat)
    requires Good(d, own) && f < |d.files| && b < MAXBLOCKS && (b >= NDIRECT ==> d.files[f].indirect != 0)
    requires PtrOf(d, f, b) == 0 && 0 < p < |own| && own[p].Nobody? && d.blocks[p].Data? && |d.blocks[p].bytes| == BLKSIZE
    ensures var d' := SetPtr(d, f, b, p);
            && OnlyView(d, own, d', own[p := Held(BlockRef(f, b))], f, b, d.blocks[p].bytes)
            && OnlyPtr(d, d', f, b) && PtrOf(d', f, b) == p
            && (forall q :: 0 <= q < |own| && own[q].Nobody? ==> d'.blocks[q] == d.blocks[q])
            && (forall g :: 0 <= g < |d.files| && g != f ==> d'.files[g] == d.files[g])
            && d'.files[f].indirect == d.files[f].indirect
  {
    FillHole(d, own, f, b, p);
    SetPtrEffect(d, own, f, b, p);
    var d0 := SetPtr(d, f, b, p);
    var d1 := d0.(blocks := d0.blocks[p := Data(Zeros(BLKSIZE))]);
    var own' := own[p := Held(BlockRef(f, b))];
    WriteBlock(d1, own', f, b, d.blocks[p].bytes);
    assert Ptr(d, IndirectRef(f)) == d.files[f].indirect;
    assert d1.blocks[p := d.blocks[p]] == d0.blocks;
  }

  lemma AttachNext(d: Disk, own: seq<Owner>, f: nat, start: nat, n: nat, i: nat, c: Bytes)
    requires Progress(d, own, f, start, n, i, c) && i < n && (i >= NDIRECT ==> d.files[f].indirect != 0)
    ensures start + i < |own|
    ensures var d', own' := SetPtr(d, f, i, start + i), own[start + i := Held(BlockRef(f, i))];
            && Progress(d', own', f, start, n, i + 1, c) && OthersSame(d, own, d', own', f)
            && d'.files[f] == d.files[f].(direct := d'.files[f].direct)
            && (forall q :: 0 <= q < |own| && own[q].Nobody? ==> d'.blocks[q] == d.blocks[q])
  {
    AttachBlock(d, own, f, i, start + i);
    var d', own' := SetPtr(d, f, i, start + i), own[start + i := Held(BlockRef(f, i))];
    forall g | 0 <= g < |d.files| && g != f ensures SameFile(d, own, d', own', g) {}
  }

  lemma OthersTrans(d: Disk, own: seq<Owner>, d1: Disk, own1: seq<Owner>, d2: Disk, own2: seq<Owner>, f: nat)
    requires OthersSame(d, own, d1, own1, f) && OthersSame(d1, own1, d2, own2, f)
    ensures OthersSame(d, own, d2, own2, f)
  {
    forall g | 0 <= g < |d.files| && g != f ensures SameFile(d, own, d2, own2, g) {
      assert SameFile(d, own, d1, own1, g) && SameFile(d1, own1, d2, own2, g);
    }
  }

  /** The indirect block goes in once the direct slots are used up. */
  lemma HangNext(d: Disk, own: seq<Owner>, f: nat, start: nat, n: nat, c: Bytes, p: nat)
    requires Progress(d, own, f, start, n, NDIRECT, c) && d.files[f].indirect == 0
    requires start + n <= p < |own| && own[p].Nobody?
    ensures var d' := Disk(d.files[f := d.files[f].(indirect := p)], d.blocks[p := Table(Zeros(NINDIRECT))]);
            var own' := own[p := Held(IndirectRef(f))];
            Progress(d', own', f, start, n, NDIRECT, c) && OthersSame(d, own, d', own', f)
  {
    HangTable(d, own, f, p);
    var d' := Disk(d.files[f := d.files[f].(indirect := p)], d.blocks[p := Table(Zeros(NINDIRECT))]);
    var own' := own[p := Held(IndirectRef(f))];
    forall g | 0 <= g < |d.files| && g != f ensures SameFile(d, own, d', own', g) {}
  }

  /** A new, empty directory entry. */
  lemma AddFile(d: Disk, own: seq<Owner>)
    requires Good(d, own)
    ensures var d' := d.(files := d.files + [File(0, Zeros(NDIRECT), 0)]);
            && Good(d', own) && Holds(d', own, |d.files|, [])
            && forall g :: 0 <= g < |d.files| ==> SameFile(d, own, d', own, g)
  {
    var d' := d.(files := d.files + [File(0, Zeros(NDIRECT), 0)]);
    forall g | 0 <= g < |d'.files| ensures FileOk(d', g) { assert g < |d.files| ==> FileOk(d, g); }
    forall r | InRange(d', r) ensures Ptr(d', r) == if r.f < |d.files| then Ptr(d, r) else 0 {}
    forall p | 0 <= p < |own| && own[p].Held? ensures InRange(d', own[p].r) && Ptr(d', own[p].r) == p {
      assert InRange(d, own[p].r) && Ptr(d, own[p].r) == p;
    }
    assert Tracks(d', own);
    forall g | 0 <= g < |d.files| ensures SameFile(d, own, d', own, g) {
      forall b | 0 <= b < MAXBLOCKS ensures PtrOf(d', g, b) == PtrOf(d, g, b) {}
    }
  }

  /** Filling a block that nobody owns changes no file. */
  lemma FillUnowned(d: Disk, own: seq<Owner>, p: nat, bytes: Bytes)
    requires Good(d, own) && p < |own| && own[p].Nobody?
    ensures var d' := d.(blocks := d.blocks[p := Data(bytes)]);
            Good(d', own) && forall g :: 0 <= g < |d.files| ==> SameFile(d, own, d', own, g)
  {
    var d' := d.(blocks := d.blocks[p := Data(bytes)]);
    forall g | 0 <= g < |d.files| ensures FileOk(d', g) {
      assert FileOk(d, g) && Ptr(d, IndirectRef(g)) == d.files[g].indirect;
    }
    forall r | InRange(d, r) ensures Ptr(d', r) == Ptr(d, r) { assert Ptr(d, IndirectRef(r.f)) == d.files[r.f].indirect; }
    assert Tracks(d', own);
    forall g | 0 <= g < |d.files| ensures SameFile(d, own, d', own, g) {
      forall b | 0 <= b < MAXBLOCKS ensures PtrOf(d', g, b) == PtrOf(d, g, b) && View(d', own, g, b) == View(d, own, g, b) {
        assert Ptr(d, BlockRef(g, b)) == PtrOf(d, g, b) && Ptr(d', BlockRef(g, b)) == PtrOf(d', g, b);
      }
    }
  }

  lemma Finished(d: Disk, own: seq<Owner>, f: nat, start: nat, c: Bytes)
    requires Progress(d, own, f, start, NBlocks(|c|), NBlocks(|c|), c) && d.files[f].size == |c|
    ensures Holds(d, own, f, c)
  {
  }

  lemma ResizeKeeps(d: Disk, own: seq<Owner>, f: nat, start: nat, n: nat, c: Bytes, len: nat)
    requires Progress(d, own, f, start, n, 0, c)
    ensures var d' := d.(files := d.files[f := d.files[f].(size := len)]);
            Progress(d', own, f, start, n, 0, c) && OthersSame(d, own, d', own, f)
  {
    Resize(d, own, f, len);
    var d' := d.(files := d.files[f := d.files[f].(size := len)]);
    forall g | 0 <= g < |d.files| && g != f ensures SameFile(d, own, d', own, g) {}
  }

  lemma HoldsStays(d: Disk, own: seq<Owner>, d': Disk, own': seq<Owner>, g: nat, c: Bytes)
    requires SameFile(d, own, d', own', g) && Holds(d, own, g, c)
    ensures Holds(d', own', g, c)
  {
  }

  lemma Ready(d: Disk, own: seq<Owner>, f: nat, start: nat, c: Bytes, k: nat)
    requires var n := NBlocks(|c| + k);
             && Holds(d, own, f, []) && 0 < start && start + n <= |own| && n <= MAXBLOCKS
             && forall p :: start <= p < start + n ==> own[p].Nobody? && d.blocks[p] == Data(Chunk(c, p - start))
    ensures Progress(d, own, f, start, NBlocks(|c| + k), 0, c + Zeros(k))
  {
  }

  datatype Input = Input(name: Bytes, contents: Bytes)

  /** Blocks a file of that size takes: data, and an indirect block from NDIRECT data blocks on. */
  function Cost(size: nat): nat { NBlocks(size) + if NBlocks(size) >= NDIRECT then 1 else 0 }

  predicate GoodNames(names: seq<Bytes>) { forall k :: 0 <= k < |names| ==> IsString(names[k]) && |names[k]| < MAXNAMELEN }

  predicate GoodEnts(ents: seq<File>) { forall k :: 0 <= k < |ents| ==> |ents[k].direct| == NDIRECT }

  /** The entries one after the other. */
  function DirBytes(names: seq<Bytes>, ents: seq<File>): (b: Bytes)
    requires |names| == |ents| && GoodNames(names) && GoodEnts(ents)
    ensures |b| == ENTSIZE * |names|
  {
    if names == [] then []
    else
      var n := |names| - 1;
      DirBytes(names[..n], ents[..n]) + Encode(names[n], ents[n])
  }

  lemma {:induction false} EntryBytes(names: seq<Bytes>, ents: seq<File>, k: nat)
    requires |names| == |ents| && GoodNames(names) && GoodEnts(ents) && k < |names|
    ensures Stored(DirBytes(names, ents), ENTSIZE * k, Encode(names[k], ents[k]))
  {
    var n := |names| - 1;
    if k < n {
      EntryBytes(names[..n], ents[..n], k);
      var b := DirBytes(names[..n], ents[..n]);
      assert (b + Encode(names[n], ents[n]))[ENTSIZE * k..ENTSIZE * k + ENTSIZE] == b[ENTSIZE * k..ENTSIZE * k + ENTSIZE];
    }
  }

  /** The blocks all input files take. */
  function Total(inputs: seq<Input>): nat {
    if inputs == [] then 0 else Total(inputs[..|inputs| - 1]) + Cost(|inputs[|inputs| - 1].contents|)
  }

  lemma {:induction false} TotalGrows(inputs: seq<Input>, i: nat)
    requires i < |inputs|
    ensures Total(inputs[..i + 1]) == Total(inputs[..i]) + Cost(|inputs[i].contents|) <= Total(inputs)
    decreases |inputs| - i
  {
    assert inputs[..i + 1][..i] == inputs[..i];
    if i + 1 < |inputs| { TotalGrows(inputs, i + 1); } else { assert inputs[..i + 1] == inputs; }
  }

  function Reserved(nblocks: nat): nat { 2 + (nblocks + BLKBITSIZE - 1) / BLKBITSIZE }

  function NamesOf(inputs: seq<Input>): (names: seq<Bytes>)
    ensures |names| == |inputs| && forall i :: 0 <= i < |inputs| ==> names[i] == inputs[i].name
  {
    seq(|inputs|, i requires 0 <= i < |inputs| => inputs[i].name)
  }

  function ContentsOf(inputs: seq<Input>): (contents: seq<Bytes>)
    ensures |contents| == |inputs| && forall i :: 0 <= i < |inputs| ==> contents[i] == inputs[i].contents
  {
    seq(|inputs|, i requires 0 <= i < |inputs| => inputs[i].contents)
  }

  lemma Longer(inputs: seq<Input>, i: nat)
    requires i < |inputs|
    ensures NamesOf(inputs[..i + 1]) == NamesOf(inputs[..i]) + [inputs[i].name]
    ensures ContentsOf(inputs[..i + 1]) == ContentsOf(inputs[..i]) + [inputs[i].contents]
  {
  }

  predicate TooLarge(x: Input) { |x.contents| >= MAXFILESIZE }

  predicate AllSmall(inputs: seq<Input>) { forall i :: 0 <= i < |inputs| ==> !TooLarge(inputs[i]) }

  lemma SmallGrows(inputs: seq<Input>, i: nat)
    requires i < |inputs|
    ensures AllSmall(inputs[..i + 1]) <==> AllSmall(inputs[..i]) && !TooLarge(inputs[i])
    ensures AllSmall(inputs) ==> !TooLarge(inputs[i])
  {
  }

  /** What fsformat accepts. */
  ghost predicate Acceptable(nblocks: nat, inputs: seq<Input>) {
    && 2 <= nblocks <= 1024 && |inputs| <= MAX_DIR_ENTS
    && AllSmall(inputs)
    && Reserved(nblocks) + Total(inputs) + NBlocks(ENTSIZE * |inputs|) < nblocks
  }

  /** The zeros that bring n entries to a whole number of blocks; one whole block for no entries. */
  function Padding(n: nat): nat {
    if n == 0 then BLKSIZE else NBlocks(ENTSIZE * n) * BLKSIZE - ENTSIZE * n
  }

  lemma DirPadding(n: nat)
    requires n <= MAX_DIR_ENTS
    ensures (ENTSIZE * n + Padding(n)) % BLKSIZE == 0 && ENTSIZE * n + Padding(n) <= MAXFILESIZE
    ensures n > 0 ==> NBlocks(ENTSIZE * n + Padding(n)) == NBlocks(ENTSIZE * n)
    ensures NBlocks(ENTSIZE * n) < NDIRECT && NBlocks(ENTSIZE * n + Padding(n)) <= MAXBLOCKS
  {
  }

  lemma WholeBlocks(n: nat)
    ensures NBlocks(n * BLKSIZE) == n
  {
  }

  /** A zeroed disk with an empty root directory. */
  lemma RootOnly(n: nat)
    requires n > 0
    ensures Holds(Disk([File(0, Zeros(NDIRECT), 0)], seq(n, _ => Data(Zeros(BLKSIZE)))), seq(n, _ => Nobody), 0, [])
  {
    var d, own := Disk([], seq(n, _ => Data(Zeros(BLKSIZE)))), seq(n, _ => Nobody);
    assert Good(d, own);
    AddFile(d, own);
    assert d.files + [File(0, Zeros(NDIRECT), 0)] == [File(0, Zeros(NDIRECT), 0)];
  }

  class Formatter {
    const nblocks: nat
    /** Boot block, super block, bitmap blocks. */
    const reserved: nat

    var magic: nat               // super->s_magic
    var s_nblocks: nat           // super->s_nblocks
    var diskpos: nat             // first block not handed out
    var blocks: seq<Block>
    var bitmap: seq<bool>
    var files: seq<File>         // super->s_root, then the directory entries
    var names: seq<Bytes>        // their names
    ghost var own: seq<Owner>
    ghost var contents: seq<Bytes>

    ghost function D(): Disk
      reads this
    {
      Disk(files, blocks)
    }

    ghost predicate Sized()
      reads this
    {
      |blocks| == |own| == nblocks && Good(D(), own) && 1 < reserved <= diskpos
    }

    /** Blocks below diskpos are reserved or owned, the others free and zero. */
    ghost predicate Packed()
      reads this
    {
      && Sized()
      && (forall p :: 0 <= p < nblocks ==> (own[p].Held? <==> reserved <= p < diskpos))
      && (forall p :: diskpos <= p < nblocks ==> blocks[p] == Data(Zeros(BLKSIZE)))
    }

    ghost predicate Filled()
      reads this
    {
      && |files| == |names| + 1 == |contents| + 1
      && forall k :: 0 <= k < |contents| ==> Holds(D(), own, k + 1, contents[k])
    }

    /** Files are being written; the root directory is still empty. */
    ghost predicate Open()
      reads this
    {
      Packed() && Filled() && Holds(D(), own, 0, []) && files[0].indirect == 0
    }

    /** alloc: the bump pointer; false when it leaves the disk. */
    method Alloc(bytes: nat) returns (ok: bool, start: nat)
      modifies this`diskpos
      ensures start == old(diskpos) && diskpos == start + NBlocks(bytes) && ok == (diskpos < nblocks)
    {
      start := diskpos;
      diskpos := diskpos + NBlocks(bytes);
      ok := diskpos < nblocks;
    }

    /** readn or memmove into blocks just allocated. */
    method Fill(start: nat, c: Bytes)
      requires Sized() && start + NBlocks(|c|) <= nblocks
      requires forall p :: start <= p < start + NBlocks(|c|) ==> own[p].Nobody?
      modifies this`blocks
      ensures Sized() && forall g :: 0 <= g < |files| ==> SameFile(old(D()), own, D(), own, g)
      ensures forall p :: 0 <= p < nblocks ==>
                blocks[p] == if start <= p < start + NBlocks(|c|) then Data(Chunk(c, p - start)) else old(blocks)[p]
    {
      var i := 0;
      while i < NBlocks(|c|)
        invariant 0 <= i <= NBlocks(|c|)
        invariant Sized() && forall g :: 0 <= g < |files| ==> SameFile(old(D()), own, D(), own, g)
        invariant forall p :: 0 <= p < nblocks ==>
                    blocks[p] == if start <= p < start + i then Data(Chunk(c, p - start)) else old(blocks)[p]
      {
        FillUnowned(D(), own, start + i, Chunk(c, i));
        ghost var d1 := D();
        blocks := blocks[start + i := Data(Chunk(c, i))];
        forall g | 0 <= g < |files| ensures SameFile(old(D()), own, D(), own, g) {
          assert SameFile(old(D()), own, d1, own, g) && SameFile(d1, own, D(), own, g);
        }
        i := i + 1;
      }
    }

    method AttachOne(f: nat, start: nat, n: nat, i: nat, ghost c: Bytes)
      requires Sized() && Progress(D(), own, f, start, n, i, c) && i < n
      requires i < NDIRECT || files[f].indirect != 0
      modifies this`files, this`blocks, this`own
      ensures Sized() && Progress(D(), own, f, start, n, i + 1, c) && OthersSame(old(D()), old(own), D(), own, f)
      ensures files[f] == old(files)[f].(direct := files[f].direct)
      ensures own == old(own)[start + i := Held(BlockRef(f, i))]
      ensures forall p :: 0 <= p < nblocks && own[p].Nobody? ==> blocks[p] == old(blocks)[p]
    {
      AttachNext(D(), own, f, start, n, i, c);
      var d := SetPtr(Disk(files, blocks), f, i, start + i);
      files, blocks := d.files, d.blocks;
      own := own[start + i := Held(BlockRef(f, i))];
    }

    /** The two loops of finishfile: slots lo to hi of file f name consecutive blocks. */
    method Attach(f: nat, start: nat, n: nat, lo: nat, hi: nat, ghost c: Bytes)
      requires Sized() && Progress(D(), own, f, start, n, lo, c) && lo <= hi <= n
      requires hi <= NDIRECT || files[f].indirect != 0
      modifies this`files, this`blocks, this`own
      ensures Sized() && Progress(D(), own, f, start, n, hi, c) && OthersSame(old(D()), old(own), D(), own, f)
      ensures files[f] == old(files)[f].(direct := files[f].direct)
      ensures forall p :: 0 <= p < nblocks ==> (own[p].Held? <==> old(own)[p].Held? || start + lo <= p < start + hi)
      ensures forall p :: 0 <= p < nblocks && own[p].Nobody? ==> blocks[p] == old(blocks)[p]
    {
      var i := lo;
      while i < hi
        invariant lo <= i <= hi
        invariant Sized() && Progress(D(), own, f, start, n, i, c) && OthersSame(old(D()), old(own), D(), own, f)
        invariant files[f] == old(files)[f].(direct := files[f].direct)
        invariant forall p :: 0 <= p < nblocks ==> (own[p].Held? <==> old(own)[p].Held? || start + lo <= p < start + i)
        invariant forall p :: 0 <= p < nblocks && own[p].Nobody? ==> blocks[p] == old(blocks)[p]
      {
        ghost var d1, own1 := D(), own;
        AttachOne(f, start, n, i, c);
        OthersTrans(old(D()), old(own), d1, own1, D(), own, f);
        i := i + 1;
      }
    }

    /** The second half of finishfile. */
    method AttachIndirect(f: nat, start: nat, n: nat, ghost c: Bytes) returns (ok: bool)
      requires Sized() && NDIRECT <= n && Progress(D(), own, f, start, n, NDIRECT, c) && files[f].indirect == 0
      requires start + n <= diskpos < nblocks && own[diskpos].Nobody?
      modifies this`files, this`blocks, this`own, this`diskpos
      ensures diskpos == old(diskpos) + 1 && ok == (diskpos < nblocks)
      ensures ok ==> Sized() && Progress(D(), own, f, start, n, n, c) && OthersSame(old(D()), old(own), D(), own, f)
      ensures ok ==> files[f].size == old(files)[f].size
      ensures ok ==> forall p :: 0 <= p < nblocks ==>
                (own[p].Held? <==> old(own)[p].Held? || start + NDIRECT <= p < start + n || p == old(diskpos))
      ensures ok ==> forall p :: 0 <= p < nblocks && own[p].Nobody? ==> blocks[p] == old(blocks)[p]
    {
      var ind;
      ok, ind := Alloc(BLKSIZE);
      if !ok { return; }
      HangNext(D(), own, f, start, n, c, ind);
      files := files[f := files[f].(indirect := ind)];
      blocks := blocks[ind := Table(Zeros(NINDIRECT))];
      own := own[ind := Held(IndirectRef(f))];
      ghost var d1, own1 := D(), own;
      Attach(f, start, n, NDIRECT, n, c);
      OthersTrans(old(D()), old(own), d1, own1, D(), own, f);
    }

    /** finishfile: file f gets size `len` and the blocks from `start` on, and past NDIRECT of them an
        indirect block as well. */
    method FinishFile(f: nat, start: nat, len: nat, ghost c: Bytes) returns (ok: bool)
      requires Sized() && |c| == len && Progress(D(), own, f, start, NBlocks(len), 0, c) && files[f].indirect == 0
      requires NBlocks(len) >= NDIRECT ==> start + NBlocks(len) <= diskpos < nblocks
      requires forall p :: diskpos <= p < nblocks ==> own[p].Nobody?
      modifies this`files, this`blocks, this`own, this`diskpos
      ensures ok == (NBlocks(len) >= NDIRECT ==> old(diskpos) + 1 < nblocks)
      ensures ok ==> diskpos == old(diskpos) + (if NBlocks(len) >= NDIRECT then 1 else 0)
      ensures ok ==> Sized() && Holds(D(), own, f, c) && OthersSame(old(D()), old(own), D(), own, f)
      ensures ok ==> forall p :: 0 <= p < nblocks ==>
                (own[p].Held? <==> old(own)[p].Held? || start <= p < start + NBlocks(len) || old(diskpos) <= p < diskpos)
      ensures ok ==> forall p :: 0 <= p < nblocks && own[p].Nobody? ==> blocks[p] == old(blocks)[p]
    {
      var n := NBlocks(len);
      ResizeKeeps(D(), own, f, start, n, c, len);
      files := files[f := files[f].(size := len)];
      ghost var d1, own1 := D(), own;
      Attach(f, start, n, 0, if n < NDIRECT then n else NDIRECT, c);
      OthersTrans(old(D()), old(own), d1, own1, D(), own, f);
      ok := true;
      if n >= NDIRECT {
        ghost var d2, own2 := D(), own;
        ok := AttachIndirect(f, start, n, c);
        if !ok { return; }
        OthersTrans(old(D()), old(own), d2, own2, D(), own, f);
      }
      Finished(D(), own, f, start, c);
    }

    /** The contents of file f go to the blocks just allocated for them. */
    method Place(f: nat, start: nat, c: Bytes, k: nat)
      requires Sized() && Holds(D(), own, f, []) && 0 < start && NBlocks(|c| + k) <= MAXBLOCKS
      requires start + NBlocks(|c|) <= nblocks && start + NBlocks(|c| + k) <= nblocks
      requires forall p :: start <= p < nblocks ==> own[p].Nobody? && blocks[p] == Data(Zeros(BLKSIZE))
      requires NBlocks(|c| + k) == NBlocks(|c|) || c == []
      modifies this`blocks
      ensures Sized() && Progress(D(), own, f, start, NBlocks(|c| + k), 0, c + Zeros(k)) && OthersSame(old(D()), own, D(), own, f)
      ensures forall p :: start + NBlocks(|c| + k) <= p < nblocks ==> blocks[p] == old(blocks)[p]
    {
      Fill(start, c);
      HoldsStays(old(D()), own, D(), own, f, []);
      forall p | start <= p < start + NBlocks(|c| + k) ensures blocks[p] == Data(Chunk(c, p - start)) {
        assert p >= start + NBlocks(|c|) ==> Chunk(c, p - start) == Zeros(BLKSIZE);
      }
      Ready(D(), own, f, start, c, k);
      assert forall g :: 0 <= g < |files| && g != f ==> SameFile(old(D()), own, D(), own, g);
    }

    /** Allocation, copying and finishfile together: file f becomes c with k zero bytes behind it. */
    method LayOut(f: nat, c: Bytes, k: nat) returns (ok: bool)
      requires Packed() && diskpos < nblocks && Holds(D(), own, f, []) && files[f].indirect == 0 && NBlocks(|c| + k) <= MAXBLOCKS
      requires NBlocks(|c| + k) == NBlocks(|c|) || (c == [] && k == BLKSIZE)
      modifies this`files, this`blocks, this`own, this`diskpos
      ensures ok == (old(diskpos) + Cost(|c|) < nblocks)
      ensures ok ==> diskpos == old(diskpos) + Cost(|c|) && Sized() && Holds(D(), own, f, c + Zeros(k))
      ensures ok ==> OthersSame(old(D()), old(own), D(), own, f)
      ensures ok && (c != [] || k == 0) ==> Packed()
      ensures ok && c == [] && k > 0 ==> own[diskpos].Held?
    {
      var start;
      ok, start := Alloc(|c|);
      if !ok { return; }
      Place(f, start, c, k);
      ghost var d1, own1 := D(), own;
      ok := FinishFile(f, start, |c| + k, c + Zeros(k));
      if ok { OthersTrans(old(D()), old(own), d1, own1, D(), own, f); }
    }

    constructor (nblocks: nat)
      ensures this.nblocks == nblocks && reserved == Reserved(nblocks)
    {
      this.nblocks, reserved := nblocks, Reserved(nblocks);
      magic, s_nblocks, diskpos, blocks, bitmap, files, names := 0, 0, 0, [], [], [], [];
      own, contents := [], [];
    }

    /** opendisk: a zeroed disk with everything marked free and an empty root directory. */
    method OpenDisk() returns (ok: bool)
      requires reserved == Reserved(nblocks)
      modifies this
      ensures ok == (reserved < nblocks)
      ensures ok ==> diskpos == reserved && Open() && names == [] && contents == [] && bitmap == seq(nblocks, _ => true)
      ensures ok ==> magic == FS_MAGIC && s_nblocks == nblocks
    {
      if nblocks == 0 { return false; }
      blocks := seq(nblocks, _ => Data(Zeros(BLKSIZE)));
      own := seq(nblocks, _ => Nobody);
      files, names, contents := [], [], [];
      files := [File(0, Zeros(NDIRECT), 0)];
      RootOnly(nblocks);
      bitmap := seq(nblocks, _ => true);
      magic, s_nblocks := FS_MAGIC, nblocks;
      ok := Reserve();
    }

    /** The first three allocations: boot block, super block, bitmap. */
    method Reserve() returns (ok: bool)
      requires reserved == Reserved(nblocks)
      modifies this`diskpos
      ensures ok == (reserved < nblocks) && (ok ==> diskpos == reserved)
    {
      diskpos := 0;
      var at;
      WholeBlocks((nblocks + BLKBITSIZE - 1) / BLKBITSIZE);
      ok, at := Alloc(BLKSIZE);
      if !ok { return; }
      ok, at := Alloc(BLKSIZE);
      if !ok { return; }
      ok, at := Alloc((nblocks + BLKBITSIZE - 1) / BLKBITSIZE * BLKSIZE);
    }

    /** writefile: one more directory entry and its file. */
    method WriteFile(x: Input) returns (ok: bool)
      requires Open() && diskpos < nblocks
      modifies this
      ensures ok == (!TooLarge(x) && |old(names)| < MAX_DIR_ENTS && old(diskpos) + Cost(|x.contents|) < nblocks)
      ensures ok ==> Open()
      ensures ok ==> diskpos == old(diskpos) + Cost(|x.contents|) && bitmap == old(bitmap)
      ensures magic == old(magic) && s_nblocks == old(s_nblocks)
      ensures ok ==> names == old(names) + [x.name] && contents == old(contents) + [x.contents]
    {
      if TooLarge(x) { return false; }
      AddFile(D(), own);
      ghost var d0, own0 := D(), own;
      files, names, contents := files + [File(0, Zeros(NDIRECT), 0)], names + [x.name], contents + [x.contents];
      if |names| > MAX_DIR_ENTS { return false; }
      ghost var d1 := D();
      var f := |files| - 1;
      ok := LayOut(f, x.contents, 0);
      if ok {
        assert x.contents + Zeros(0) == x.contents;
        forall g | 0 <= g < f ensures SameFile(d0, own0, D(), own, g) {
          assert SameFile(d0, own0, d1, own0, g) && SameFile(d1, own0, D(), own, g);
        }
        HoldsStays(d0, own0, D(), own, 0, []);
        forall k | 0 <= k < |contents| ensures Holds(D(), own, k + 1, contents[k]) {
          if k + 1 < f { HoldsStays(d0, own0, D(), own, k + 1, contents[k]); }
        }
      }
    }

    /** finishdir: the entries become the contents of the root directory. */
    method FinishDir() returns (ok: bool, ghost k: nat)
      requires Open() && diskpos < nblocks
      requires GoodNames(names) && |names| <= MAX_DIR_ENTS
      modifies this`files, this`blocks, this`own, this`diskpos
      ensures ok == (old(diskpos) + NBlocks(ENTSIZE * |names|) < nblocks)
      ensures ok ==> Sized() && Filled() && diskpos < nblocks && files[1..] == old(files)[1..]
      ensures ok ==> GoodEnts(files[1..]) && Holds(D(), own, 0, DirBytes(names, files[1..]) + Zeros(k))
      ensures ok ==> files[0].size == ENTSIZE * |names| + k <= MAXFILESIZE && files[0].size % BLKSIZE == 0
      ensures ok ==> if names == [] then own[diskpos].Held? else Packed()
    {
      forall k | 0 <= k < |names| ensures |files[1..][k].direct| == NDIRECT { assert FileOk(D(), k + 1); }
      var dir := DirBytes(names, files[1..]);
      DirPadding(|names|);
      var pad := Padding(|names|);
      ok := LayOut(0, dir, pad);
      k := pad;
      if ok {
        forall j | 0 <= j < |contents| ensures Holds(D(), own, j + 1, contents[j]) {
          HoldsStays(old(D()), old(own), D(), own, j + 1, contents[j]);
        }
        forall g | 1 <= g < |files| ensures files[g] == old(files)[g] { assert SameFile(old(D()), old(own), D(), own, g); }
        assert files[1..] == old(files)[1..];
      }
    }

    /** finishdisk: everything below diskpos is in use. */
    method FinishDisk()
      requires |bitmap| == nblocks && diskpos < nblocks && forall p :: 0 <= p < nblocks ==> bitmap[p]
      modifies this`bitmap
      ensures |bitmap| == nblocks && forall p :: 0 <= p < nblocks ==> (bitmap[p] <==> p >= diskpos)
    {
      var i := 0;
      while i < diskpos
        invariant 0 <= i <= diskpos && |bitmap| == nblocks
        invariant forall p :: 0 <= p < nblocks ==> (bitmap[p] <==> p >= i)
      {
        bitmap := bitmap[i := false];
        i := i + 1;
      }
    }

    /** The first i inputs have been written. */
    ghost predicate Upto(inputs: seq<Input>, i: nat)
      requires i <= |inputs|
      reads this
    {
      && Open() && diskpos == reserved + Total(inputs[..i]) < nblocks && i <= MAX_DIR_ENTS
      && names == NamesOf(inputs[..i]) && contents == ContentsOf(inputs[..i])
    }

    method WriteNext(inputs: seq<Input>, i: nat) returns (ok: bool)
      requires i < |inputs| && Upto(inputs, i)
      modifies this
      ensures ok == (!TooLarge(inputs[i]) && i < MAX_DIR_ENTS && reserved + Total(inputs[..i + 1]) < nblocks)
      ensures ok ==> Upto(inputs, i + 1) && bitmap == old(bitmap)
      ensures magic == old(magic) && s_nblocks == old(s_nblocks)
    {
      TotalGrows(inputs, i);
      Longer(inputs, i);
      ok := WriteFile(inputs[i]);
    }

    /** The loop of main over the input files. */
    method WriteFiles(inputs: seq<Input>) returns (ok: bool)
      requires Open() && diskpos == reserved < nblocks && names == [] && contents == []
      modifies this
      ensures ok == (|inputs| <= MAX_DIR_ENTS && reserved + Total(inputs) < nblocks && AllSmall(inputs))
      ensures ok ==> Open()
      ensures ok ==> diskpos == reserved + Total(inputs) && bitmap == old(bitmap)
      ensures magic == old(magic) && s_nblocks == old(s_nblocks)
      ensures ok ==> names == NamesOf(inputs) && contents == ContentsOf(inputs)
    {
      var i := 0;
      while i < |inputs|
        invariant 0 <= i <= |inputs| && Upto(inputs, i) && bitmap == old(bitmap)
        invariant magic == old(magic) && s_nblocks == old(s_nblocks)
        invariant AllSmall(inputs[..i])
      {
        TotalGrows(inputs, i);
        SmallGrows(inputs, i);
        ok := WriteNext(inputs, i);
        if !ok { return; }
        i := i + 1;
      }
      assert inputs[..i] == inputs;
      ok := true;
    }

    /** main: builds the image, exactly when it is acceptable. Every file then holds its input and the
        root directory the entries; and no block is both free and in use, provided there is a file. */
    method Build(inputs: seq<Input>) returns (ok: bool, ghost k: nat)
      requires reserved == Reserved(nblocks) && GoodNames(NamesOf(inputs))
      modifies this
      ensures ok <==> Acceptable(nblocks, inputs)
      ensures ok ==> names == NamesOf(inputs) && contents == ContentsOf(inputs) && Sized() && Filled()
      ensures ok ==> GoodEnts(files[1..]) && Holds(D(), own, 0, DirBytes(names, files[1..]) + Zeros(k))
      ensures ok ==> files[0].size == ENTSIZE * |names| + k <= MAXFILESIZE && files[0].size % BLKSIZE == 0
      ensures ok ==> |bitmap| == nblocks && reserved <= nblocks && magic == FS_MAGIC && s_nblocks == nblocks
      ensures ok ==> ((forall p :: 0 <= p < nblocks ==> (bitmap[p] <==> p >= reserved && own[p].Nobody?)) <==> inputs != [])
      ensures ok && inputs != [] ==> forall p :: 0 <= p < reserved ==> own[p].Nobody?
    {
      k := 0;
      if nblocks < 2 || nblocks > 1024 { return false, k; }
      ok := OpenDisk();
      if !ok { return; }
      ok := WriteFiles(inputs);
      if !ok { return; }
      ok, k := FinishDir();
      if !ok { return; }
      FinishDisk();
    }
  }

  // ----- Mounting the image

  /** A directory entry as found in a file of that many bytes. */
  lemma EntryStored(dir: Bytes, pad: nat, e: nat, rec: Bytes)
    requires |rec| == ENTSIZE && Stored(dir, ENTSIZE * e, rec)
    ensures Stored(Chunk(dir + Zeros(pad), e / BLKFILES), ENTSIZE * (e % BLKFILES), rec)
  {
  }

  /** Pointers fit a 32-bit word. */
  lemma PointersFit(d: Disk, own: seq<Owner>, f: nat)
    requires Good(d, own) && f < |d.files| && |own| <= 1024 && d.files[f].size < MAXFILESIZE
    ensures Fits32(d.files[f]) && |d.files[f].direct| == NDIRECT
  {
    assert FileOk(d, f);
    assert Ptr(d, IndirectRef(f)) == d.files[f].indirect;
    forall i | 0 <= i < NDIRECT ensures d.files[f].direct[i] < 1024 { assert Ptr(d, BlockRef(f, i)) == d.files[f].direct[i]; }
  }

  /** Entry e of the root directory holds the name and the fields of file e + 1. */
  lemma EntryFound(d: Disk, own: seq<Owner>, names: seq<Bytes>, pad: nat, e: nat)
    requires Good(d, own) && |d.files| == |names| + 1 && GoodNames(names) && GoodEnts(d.files[1..]) && |own| <= 1024
    requires Holds(d, own, 0, DirBytes(names, d.files[1..]) + Zeros(pad)) && e < |names| <= MAX_DIR_ENTS
    requires d.files[e + 1].size < MAXFILESIZE
    ensures EntryName(d, own, 0, e) == names[e]
    ensures FileIn(View(d, own, 0, e / BLKFILES), ENTSIZE * (e % BLKFILES)) == d.files[e + 1]
  {
    var ents := d.files[1..];
    EntryBytes(names, ents, e);
    EntryStored(DirBytes(names, ents), pad, e, Encode(names[e], ents[e]));
    var p, o := View(d, own, 0, e / BLKFILES), ENTSIZE * (e % BLKFILES);
    NameFound(p, o, names[e], ents[e]);
    PointersFit(d, own, e + 1);
    FieldsFound(p, o, names[e], ents[e]);
  }

  /** The named entries of a directory whose blocks are all direct. */
  function Decoded(root: File, blocks: seq<Block>, n: nat): (files: seq<File>)
    requires |root.direct| == NDIRECT && n <= MAX_DIR_ENTS
    requires forall e :: 0 <= e < n ==> root.direct[e / BLKFILES] < |blocks| && blocks[root.direct[e / BLKFILES]].Data?
    ensures |files| == n
    ensures forall e :: 0 <= e < n ==> files[e] == FileIn(blocks[root.direct[e / BLKFILES]].bytes, ENTSIZE * (e % BLKFILES))
  {
    seq(n, e requires 0 <= e < n => FileIn(blocks[root.direct[e / BLKFILES]].bytes, ENTSIZE * (e % BLKFILES)))
  }

  /** An image: the super block's root, the bitmap and the blocks. `own` and `names` say what is in it. */
  ghost predicate IsImage(nblocks: nat, root: File, bitmap: seq<bool>, blocks: seq<Block>, ents: seq<File>, own: seq<Owner>,
                          names: seq<Bytes>, contents: seq<Bytes>, pad: nat)
  {
    var d := Disk([root] + ents, blocks);
    && |names| == |ents| == |contents| <= MAX_DIR_ENTS && GoodNames(names) && GoodEnts(ents)
    && |bitmap| == |blocks| == |own| == nblocks <= 1024 && 1 < Reserved(nblocks) <= nblocks
    && Holds(d, own, 0, DirBytes(names, ents) + Zeros(pad)) && root.size <= MAXFILESIZE && root.size % BLKSIZE == 0
    && (forall k :: 0 <= k < |ents| ==> Holds(d, own, k + 1, contents[k]) && |contents[k]| < MAXFILESIZE)
    && (forall p :: 0 <= p < nblocks ==> (bitmap[p] <==> p >= Reserved(nblocks) && own[p].Nobody?))
    && (forall p :: 0 <= p < Reserved(nblocks) ==> own[p].Nobody?)
  }

  lemma ImageTail(nblocks: nat, root: File, bitmap: seq<bool>, blocks: seq<Block>, ents: seq<File>, own: seq<Owner>,
                  names: seq<Bytes>, contents: seq<Bytes>, pad: nat)
    requires IsImage(nblocks, root, bitmap, blocks, ents, own, names, contents, pad)
    ensures var d := Disk([root] + ents, blocks); Good(d, own) && TailZero(d)
    ensures forall f :: 0 <= f <= |ents| ==> !HasHole(Disk([root] + ents, blocks), f)
  {
    var d := Disk([root] + ents, blocks);
    forall f | 0 <= f <= |ents|
      ensures !HasHole(d, f) && forall b :: NBlocks(d.files[f].size) <= b < MAXBLOCKS ==> PtrOf(d, f, b) == 0
    {
      if f > 0 { assert Holds(d, own, f - 1 + 1, contents[f - 1]); }
    }
  }

  /** What fs.c reads out of the root directory is what was put in. */
  lemma ImageEntries(nblocks: nat, root: File, bitmap: seq<bool>, blocks: seq<Block>, ents: seq<File>, own: seq<Owner>,
                     names: seq<Bytes>, contents: seq<Bytes>, pad: nat)
    requires IsImage(nblocks, root, bitmap, blocks, ents, own, names, contents, pad)
    ensures |root.direct| == NDIRECT
    ensures forall e :: 0 <= e < |names| ==> root.direct[e / BLKFILES] < |blocks| && blocks[root.direct[e / BLKFILES]].Data?
    ensures Decoded(root, blocks, |names|) == ents
    ensures var d := Disk([root] + ents, blocks); Good(d, own) && forall e :: 0 <= e < |names| ==> EntryName(d, own, 0, e) == names[e]
  {
    var d := Disk([root] + ents, blocks);
    assert d.files[1..] == ents && FileOk(d, 0);
    forall e | 0 <= e < |names|
      ensures root.direct[e / BLKFILES] < |blocks| && blocks[root.direct[e / BLKFILES]].Data?
      ensures FileIn(blocks[root.direct[e / BLKFILES]].bytes, ENTSIZE * (e % BLKFILES)) == ents[e]
      ensures EntryName(d, own, 0, e) == names[e]
    {
      assert Holds(d, own, e + 1, contents[e]);
      EntryFound(d, own, names, pad, e);
      assert Ptr(d, BlockRef(0, e / BLKFILES)) == root.direct[e / BLKFILES];
    }
  }

  /** Reading a file that holds c gives c. */
  lemma HeldBytes(d: Disk, own: seq<Owner>, f: nat, c: Bytes, i: nat)
    requires Holds(d, own, f, c) && i < |c| < MAXFILESIZE
    ensures ByteAt(d, own, f, i) == c[i]
  {
  }

  /** fsformat, then mount, then open and read by name: the input bytes come back, for every input the
      formatter accepts. */
  method FormatMountRead(nblocks: nat, inputs: seq<Input>, k: nat) returns (ok: bool, back: Bytes)
    requires k < |inputs| && GoodNames(NamesOf(inputs))
    requires forall i, j :: 0 <= i < j < |inputs| ==> inputs[i].name != inputs[j].name
    ensures ok <==> Acceptable(nblocks, inputs)
    ensures ok ==> back == inputs[k].contents
  {
    back := [];
    var img := new Formatter(nblocks);
    ghost var pad;
    ok, pad := img.Build(inputs);
    if !ok { return; }
    ghost var ents := img.files[1..];
    assert img.files == [img.files[0]] + ents;
    assert IsImage(img.s_nblocks, img.files[0], img.bitmap, img.blocks, ents, img.own, img.names, img.contents, pad);
    back := MountAndRead(img.magic, img.s_nblocks, img.files[0], img.bitmap, img.blocks, inputs[k].name, |inputs|,
                         ents, img.own, img.names, img.contents, pad, k);
  }

  /** check_super and check_bitmap: whether a mount goes on. */
  method CheckDisk(magic: nat, nblocks: nat, bitmap: seq<bool>) returns (ok: bool)
    requires |bitmap| == nblocks
    ensures ok <==> magic == FS_MAGIC && nblocks <= MAXDISK && forall p :: 0 <= p < Reserved(nblocks) && p < nblocks ==> !bitmap[p]
  {
    if magic != FS_MAGIC || nblocks > MAXDISK { return false; }
    var i := 0;
    while i * BLKBITSIZE < nblocks
      invariant i <= (nblocks + BLKBITSIZE - 1) / BLKBITSIZE
      invariant forall p :: 2 <= p < 2 + i && p < nblocks ==> !bitmap[p]
    {
      if 2 + i < nblocks && bitmap[2 + i] { return false; }
      i := i + 1;
    }
    assert i == (nblocks + BLKBITSIZE - 1) / BLKBITSIZE;
    ok := !(nblocks > 0 && bitmap[0]) && !(nblocks > 1 && bitmap[1]);
  }

  /** What fs.c finds behind the root of a disk that passes these checks. */
  method MountImage(nblocks: nat, root: File, bitmap: seq<bool>, blocks: seq<Block>, n: nat, ghost ents: seq<File>,
                    ghost own: seq<Owner>, ghost names: seq<Bytes>, ghost contents: seq<Bytes>, ghost pad: nat)
    returns (fs: FileSystem)
    requires IsImage(nblocks, root, bitmap, blocks, ents, own, names, contents, pad) && n == |names|
    ensures fresh(fs) && fs.Valid() && fs.D() == Disk([root] + ents, blocks) && fs.own == own
    ensures forall f :: 0 <= f <= |ents| ==> !HasHole(fs.D(), f)
    ensures forall e :: 0 <= e < |names| ==> EntryName(fs.D(), fs.own, 0, e) == names[e]
    ensures fs.files[0].size % BLKSIZE == 0 && ENTSIZE * |names| <= fs.files[0].size <= MAXFILESIZE
  {
    ImageTail(nblocks, root, bitmap, blocks, ents, own, names, contents, pad);
    ImageEntries(nblocks, root, bitmap, blocks, ents, own, names, contents, pad);
    fs := new FileSystem.Mount(nblocks, Reserved(nblocks), bitmap, blocks, [root] + Decoded(root, blocks, n), own);
  }

  /** The entry of a name that only one entry has. */
  method OpenByName(fs: FileSystem, name: Bytes, ghost k: nat) returns (e: nat)
    requires fs.Valid() && 0 < |fs.files| && fs.files[0].size % BLKSIZE == 0 && fs.files[0].size <= MAXFILESIZE
    requires !HasHole(fs.D(), 0) && k < fs.files[0].size / ENTSIZE && EntryName(fs.D(), fs.own, 0, k) == name
    requires forall j :: 0 <= j < k ==> EntryName(fs.D(), fs.own, 0, j) != name
    modifies fs
    ensures e == k && fs.Valid() && SameViews(old(fs.D()), old(fs.own), fs.D(), fs.own) && NoNewHoles(old(fs.D()), fs.D())
    ensures forall g :: 0 <= g < |fs.files| ==> fs.files[g].size == old(fs.files)[g].size
  {
    var out;
    out, e := fs.DirLookup(0, name);
  }

  method MountAndRead(magic: nat, nblocks: nat, root: File, bitmap: seq<bool>, blocks: seq<Block>, name: Bytes, n: nat, ghost ents: seq<File>,
                      ghost own: seq<Owner>, ghost names: seq<Bytes>, ghost contents: seq<Bytes>, ghost pad: nat, ghost k: nat)
    returns (back: Bytes)
    requires IsImage(nblocks, root, bitmap, blocks, ents, own, names, contents, pad) && n == |names|
    requires magic == FS_MAGIC
    requires k < |names| && name == names[k] && forall i, j :: 0 <= i < j < |names| ==> names[i] != names[j]
    ensures back == contents[k]
  {
    var ok := CheckDisk(magic, nblocks, bitmap);
    if !ok { return []; }
    var fs := MountImage(nblocks, root, bitmap, blocks, n, ents, own, names, contents, pad);
    ghost var d := fs.D();
    assert Holds(d, own, k + 1, contents[k]);
    var e := OpenByName(fs, name, k);
    assert !HasHole(fs.D(), k + 1);
    back := ReadWhole(fs, e + 1, d, own, contents[k]);
  }

  method ReadWhole(fs: FileSystem, f: nat, ghost d: Disk, ghost own: seq<Owner>, ghost c: Bytes) returns (back: Bytes)
    requires fs.Valid() && f < |fs.files| && !HasHole(fs.D(), f) && fs.files[f].size == |c| < MAXFILESIZE
    requires SameViews(d, own, fs.D(), fs.own) && Holds(d, own, f, c)
    modifies fs
    ensures back == c
  {
    ghost var d1, own1 := fs.D(), fs.own;
    var out;
    out, back := fs.FileRead(f, fs.files[f].size, 0);
    forall i | 0 <= i < |c| ensures back[i] == c[i] {
      SameBytes(d, own, d1, own1, f, i);
      HeldBytes(d, own, f, c, i);
      assert back[i] == ByteAt(d1, own1, f, 0 + i);
    }
  }
}
