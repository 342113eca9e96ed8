/**
 The image of a spawned program (lib/spawn.c): its first stack page, with the arguments laid out in
 it, and the pages of its segments.
 */
module SpawnImage {
  import opened Bytes

  const PGSIZE: nat := 4096
  const USTACKTOP: nat := 0xEEBFE000
  /** Where the stack page appears in the child. */
  const BASE: nat := USTACKTOP - PGSIZE
  const E_NO_MEM: int := -4

  ghost predicate AreStrings(argv: seq<Bytes>) { forall i :: 0 <= i < |argv| ==> IsString(argv[i]) }

  // ----- What the child reads

  /** The arguments as the child finds them, starting from its stack pointer. */
  function Arguments(p: Bytes, esp: nat): seq<Bytes> {
    ArgList(p, WordAt(p, esp - BASE), WordAt(p, esp - BASE + 4) - BASE)
  }

  function ArgList(p: Bytes, argc: nat, off: int): (args: seq<Bytes>)
    ensures |args| == argc && forall k :: 0 <= k < argc ==> args[k] == Arg(p, off, k)
  {
    seq(argc, k requires k >= 0 => Arg(p, off, k))
  }

  function Arg(p: Bytes, off: int, k: nat): Bytes {
    StringAt(p, WordAt(p, off + 4 * k) - BASE)
  }

  // ----- Layout

  /** Bytes needed for the strings and their terminators. */
  function Size(argv: seq<Bytes>): nat {
    if argv == [] then 0 else |argv[0]| + 1 + Size(argv[1..])
  }

  /** Offset of string k. */
  function Pos(argv: seq<Bytes>, k: nat): int
    requires k <= |argv|
  {
    PGSIZE - Size(argv[k..])
  }

  function RoundDown4(x: int): int { x - x % 4 }

  /** Offset of the pointer array. */
  function ArgvOff(argv: seq<Bytes>): int { RoundDown4(Pos(argv, 0)) - 4 * (|argv| + 1) }

  predicate Fits(argv: seq<Bytes>) { ArgvOff(argv) - 8 >= 0 }

  lemma {:induction false} PosStep(argv: seq<Bytes>, k: nat)
    requires k < |argv|
    ensures Pos(argv, k) + |argv[k]| + 1 == Pos(argv, k + 1)
  {
  }

  lemma {:induction false} PosOrder(argv: seq<Bytes>, j: nat, k: nat)
    requires j <= k <= |argv|
    ensures Pos(argv, j) + (k - j) <= Pos(argv, k) <= PGSIZE
    ensures j < k ==> Pos(argv, j) + |argv[j]| + 1 <= Pos(argv, k)
    decreases k - j
  {
    if j < k {
      PosStep(argv, j);
      PosOrder(argv, j + 1, k);
    }
  }

  function RoundUp4(x: nat): nat { (x + 3) / 4 * 4 }

  /** The list fits exactly when the strings with their terminators, rounded up to a word, and a word for
      each argument and three more take at most a page. */
  lemma FitsBySize(argv: seq<Bytes>)
    ensures Fits(argv) <==> RoundUp4(Size(argv)) + 4 * (|argv| + 3) <= PGSIZE
  {
    assert argv[0..] == argv;
  }

  /** The first n arguments are in place: pointer and string. */
  ghost predicate Filled(p: Bytes, argv: seq<Bytes>, n: nat)
    requires n <= |argv| && Fits(argv)
  {
    forall k :: 0 <= k < n ==> Pair(p, argv, k)
  }

  ghost predicate Pair(p: Bytes, argv: seq<Bytes>, k: nat)
    requires k < |argv| && Fits(argv)
  {
    && 0 <= Pos(argv, k) <= PGSIZE
    && Stored(p, ArgvOff(argv) + 4 * k, Le(BASE + Pos(argv, k)))
    && Stored(p, Pos(argv, k), argv[k] + [0])
  }

  /** The whole page: arguments, null pointer, argv, argc. */
  ghost predicate Laid(p: Bytes, argv: seq<Bytes>)
    requires Fits(argv)
  {
    var a := ArgvOff(argv);
    && |p| == PGSIZE && a + 4 * |argv| + 4 <= PGSIZE && Filled(p, argv, |argv|)
    && Stored(p, a + 4 * |argv|, Le(0))
    && Stored(p, a - 4, Le(BASE + a))
    && Stored(p, a - 8, Le(|argv|))
  }

  lemma ArgumentFound(p: Bytes, argv: seq<Bytes>, k: nat)
    requires AreStrings(argv) && Fits(argv) && k < |argv| && Laid(p, argv)
    ensures Arg(p, ArgvOff(argv), k) == argv[k]
  {
    assert Pair(p, argv, k);
    LeWord(p, ArgvOff(argv) + 4 * k, BASE + Pos(argv, k));
    StringFound(p, Pos(argv, k), argv[k]);
  }

  /** A page laid out for argv gives back argv. */
  lemma RoundTrip(p: Bytes, argv: seq<Bytes>)
    requires AreStrings(argv) && Fits(argv) && Laid(p, argv)
    ensures Arguments(p, BASE + ArgvOff(argv) - 8) == argv
  {
    var a := ArgvOff(argv);
    LeWord(p, a - 8, |argv|);
    LeWord(p, a - 4, BASE + a);
    assert Arguments(p, BASE + a - 8) == ArgList(p, |argv|, a);
    forall k | 0 <= k < |argv| ensures Arg(p, a, k) == argv[k] { ArgumentFound(p, argv, k); }
  }

  /** Pointers, strings and the two parameter words do not overlap, and all lie in the page. */
  lemma NoOverlap(argv: seq<Bytes>)
    requires Fits(argv)
    ensures var a := ArgvOff(argv); 8 <= a && a % 4 == 0 && a + 4 * (|argv| + 1) <= Pos(argv, 0)
    ensures Pos(argv, |argv|) == PGSIZE
    ensures forall k :: 0 <= k < |argv| ==> Between(argv, k)
  {
    forall k | 0 <= k < |argv| ensures Between(argv, k) {
      PosOrder(argv, 0, k);
      PosStep(argv, k);
      PosOrder(argv, k + 1, |argv|);
    }
  }

  /** String k starts above the pointers and ends where the next one starts, inside the page. */
  ghost predicate Between(argv: seq<Bytes>, k: nat)
    requires k < |argv|
  {
    Pos(argv, 0) <= Pos(argv, k) && Pos(argv, k) + |argv[k]| + 1 == Pos(argv, k + 1) <= PGSIZE
  }

  /** Storing outside the first n arguments keeps them. */
  lemma FilledKept(p: Bytes, argv: seq<Bytes>, n: nat, off: nat, b: Bytes)
    requires n <= |argv| && Fits(argv) && Filled(p, argv, n) && |p| == PGSIZE && off + |b| <= PGSIZE
    requires off + |b| <= ArgvOff(argv) || ArgvOff(argv) + 4 * n <= off
    requires off + |b| <= Pos(argv, 0) || Pos(argv, n) <= off
    ensures Filled(Put(p, off, b), argv, n)
  {
    NoOverlap(argv);
    forall k | 0 <= k < n ensures Pair(Put(p, off, b), argv, k) {
      assert Pair(p, argv, k) && Between(argv, k);
      PosOrder(argv, k + 1, n);
      PutKeeps(p, off, b, ArgvOff(argv) + 4 * k, Le(BASE + Pos(argv, k)));
      PutKeeps(p, off, b, Pos(argv, k), argv[k] + [0]);
    }
  }

  /** One round of the copy loop. */
  lemma FilledMore(p: Bytes, argv: seq<Bytes>, n: nat)
    requires n < |argv| && Fits(argv) && Filled(p, argv, n) && |p| == PGSIZE
    ensures 0 <= Pos(argv, n) <= PGSIZE - |argv[n]| - 1 && ArgvOff(argv) + 4 * n + 4 <= PGSIZE
    ensures Filled(Put(Put(p, ArgvOff(argv) + 4 * n, Le(BASE + Pos(argv, n))), Pos(argv, n), argv[n] + [0]), argv, n + 1)
  {
    NoOverlap(argv);
    assert Between(argv, n);
    var a, w, s := ArgvOff(argv) + 4 * n, Le(BASE + Pos(argv, n)), argv[n] + [0];
    FilledKept(p, argv, n, a, w);
    var q := Put(p, a, w);
    PutStores(p, a, w);
    FilledKept(q, argv, n, Pos(argv, n), s);
    PutStores(q, Pos(argv, n), s);
    PutKeeps(q, Pos(argv, n), s, a, w);
    var r := Put(q, Pos(argv, n), s);
    forall k | 0 <= k < n + 1 ensures Pair(r, argv, k) { if k < n { assert Filled(r, argv, n); } }
  }

  /** The three words stored after the loop. */
  lemma LaidOut(p: Bytes, argv: seq<Bytes>)
    requires Fits(argv) && Filled(p, argv, |argv|) && |p| == PGSIZE
    ensures ArgvOff(argv) + 4 * |argv| + 4 <= PGSIZE
    ensures var a := ArgvOff(argv);
            Laid(Put(Put(Put(p, a + 4 * |argv|, Le(0)), a - 4, Le(BASE + a)), a - 8, Le(|argv|)), argv)
  {
    NoOverlap(argv);
    var a := ArgvOff(argv);
    FilledKept(p, argv, |argv|, a + 4 * |argv|, Le(0));
    PutStores(p, a + 4 * |argv|, Le(0));
    var q := Put(p, a + 4 * |argv|, Le(0));
    FilledKept(q, argv, |argv|, a - 4, Le(BASE + a));
    PutStores(q, a - 4, Le(BASE + a));
    PutKeeps(q, a - 4, Le(BASE + a), a + 4 * |argv|, Le(0));
    var r := Put(q, a - 4, Le(BASE + a));
    FilledKept(r, argv, |argv|, a - 8, Le(|argv|));
    PutStores(r, a - 8, Le(|argv|));
    PutKeeps(r, a - 8, Le(|argv|), a + 4 * |argv|, Le(0));
    PutKeeps(r, a - 8, Le(|argv|), a - 4, Le(BASE + a));
  }

  // ----- Segments

  datatype UPage = UPage(bytes: Bytes, writable: bool)

  function Base(va: nat): nat { va - va % PGSIZE }

  /** Byte j of a segment: from the file while it lasts, then zero. */
  function Expected(file: Bytes, offset: nat, filesz: nat, j: int): nat {
    if j < filesz && 0 <= offset + j < |file| then file[offset + j] else 0
  }

  datatype Segment = Segment(load: bool, va: nat, memsz: nat, filesz: nat, offset: nat, writable: bool)

  /** The page at va belongs to the segment. */
  predicate Covers(g: Segment, page: nat) {
    page % PGSIZE == 0 && Base(g.va) <= page < g.va + g.memsz
  }

  /** Every byte of the segment is in the child as it should be. */
  ghost predicate Loaded(pages: map<nat, UPage>, g: Segment, file: Bytes) {
    forall j: nat :: j < g.memsz ==> ByteIs(pages, g.va + j, Expected(file, g.offset, g.filesz, j), g.writable)
  }

  ghost predicate ByteIs(pages: map<nat, UPage>, va: nat, b: nat, writable: bool) {
    && Base(va) in pages && |pages[Base(va)].bytes| == PGSIZE
    && pages[Base(va)].bytes[va % PGSIZE] == b && pages[Base(va)].writable == writable
  }

  /** The page at offset i of the aligned segment. */
  function SegmentPage(file: Bytes, offset: nat, filesz: nat, i: nat): (p: Bytes)
    ensures |p| == PGSIZE && forall b :: 0 <= b < PGSIZE ==> p[b] == Expected(file, offset, filesz, i + b)
  {
    seq<nat>(PGSIZE, b requires 0 <= b < PGSIZE => Expected(file, offset, filesz, i + b))
  }

  /** The page at offset q of the aligned segment is mapped and filled. */
  ghost predicate PageLoaded(pages: map<nat, UPage>, g: Segment, file: Bytes, q: nat) {
    var skew := g.va % PGSIZE;
    && skew <= g.offset && g.va - skew + q in pages
    && pages[g.va - skew + q] == UPage(SegmentPage(file, g.offset - skew, g.filesz + skew, q), g.writable)
  }

  /** The page of segment g that holds address p. */
  function PageOf(g: Segment, file: Bytes, p: nat): UPage
    requires g.va % PGSIZE <= g.offset && Covers(g, p)
  {
    UPage(SegmentPage(file, g.offset - g.va % PGSIZE, g.filesz + g.va % PGSIZE, p - Base(g.va)), g.writable)
  }

  /** Every page of the segment is mapped and filled. */
  ghost predicate AllPages(pages: map<nat, UPage>, g: Segment, file: Bytes)
    requires g.va % PGSIZE <= g.offset
  {
    forall p :: Covers(g, p) ==> p in pages && pages[p] == PageOf(g, file, p)
  }

  lemma PagesDone(pages: map<nat, UPage>, g: Segment, file: Bytes, n: nat)
    requires g.va % PGSIZE <= g.offset && g.va % PGSIZE + g.memsz <= n * PGSIZE
    requires forall k :: 0 <= k < n ==> PageLoaded(pages, g, file, k * PGSIZE)
    ensures AllPages(pages, g, file)
  {
    forall p: nat | Covers(g, p) ensures p in pages && pages[p] == PageOf(g, file, p) {
      var k: nat := (p - Base(g.va)) / PGSIZE;
      PageNumber(g.va, p);
      assert PageLoaded(pages, g, file, k * PGSIZE);
    }
  }

  lemma PageNumber(va: nat, p: nat)
    requires p % PGSIZE == 0 && Base(va) <= p
    ensures p - Base(va) == (p - Base(va)) / PGSIZE * PGSIZE
  {
  }

  /** The pages of the aligned loop together are the unaligned segment. */
  lemma PagesMakeSegment(pages: map<nat, UPage>, g: Segment, file: Bytes)
    requires g.va % PGSIZE <= g.offset && AllPages(pages, g, file)
    ensures Loaded(pages, g, file)
  {
    forall j: nat | j < g.memsz ensures ByteIs(pages, g.va + j, Expected(file, g.offset, g.filesz, j), g.writable) {
      AddressSplit(g.va, j);
      CoversByte(g, j);
    }
  }

  lemma CoversByte(g: Segment, j: nat)
    requires j < g.memsz
    ensures Covers(g, Base(g.va + j))
  {
  }

  lemma AddressSplit(va: nat, j: nat)
    ensures var x := va % PGSIZE + j;
            Base(va + j) == va - va % PGSIZE + x / PGSIZE * PGSIZE && (va + j) % PGSIZE == x % PGSIZE
  {
  }

  /** Pages outside the segment are as before. */
  ghost predicate OnlyCovered(before: map<nat, UPage>, after: map<nat, UPage>, g: Segment) {
    forall p :: !Covers(g, p) ==> SamePage(before, after, p)
  }

  predicate SamePage(before: map<nat, UPage>, after: map<nat, UPage>, p: nat) {
    (p in before <==> p in after) && (p in before ==> before[p] == after[p])
  }

  /** Pages the segment occupies. */
  function PagesOf(g: Segment): nat { (g.va % PGSIZE + g.memsz + PGSIZE - 1) / PGSIZE }

  function Needed(segs: seq<Segment>): nat {
    if segs == [] then 0
    else
      var g := segs[|segs| - 1];
      Needed(segs[..|segs| - 1]) + if g.load then PagesOf(g) else 0
  }

  lemma {:induction false} NeededMore(segs: seq<Segment>, i: nat)
    requires i < |segs|
    ensures Needed(segs[..i + 1]) == Needed(segs[..i]) + (if segs[i].load then PagesOf(segs[i]) else 0) <= Needed(segs)
    decreases |segs| - i
  {
    assert segs[..i + 1][..i] == segs[..i];
    if i + 1 < |segs| { NeededMore(segs, i + 1); } else { assert segs[..i + 1] == segs; }
  }

  /** The last loadable segment that covers page p, or -1. */
  function Last(segs: seq<Segment>, p: nat): (k: int)
    ensures -1 <= k < |segs| && (k >= 0 ==> segs[k].load && Covers(segs[k], p))
    ensures forall j :: k < j < |segs| ==> !(segs[j].load && Covers(segs[j], p))
  {
    if segs == [] then -1
    else
      var n := |segs| - 1;
      if segs[n].load && Covers(segs[n], p) then n else Last(segs[..n], p)
  }

  predicate Placed(segs: seq<Segment>) { forall k :: 0 <= k < |segs| ==> segs[k].va % PGSIZE <= segs[k].offset }

  /** Page p is that of the last segment that covers it, or as before. */
  ghost predicate PageIs(before: map<nat, UPage>, after: map<nat, UPage>, segs: seq<Segment>, file: Bytes, p: nat)
    requires Placed(segs)
  {
    var k := Last(segs, p);
    if k < 0 then SamePage(before, after, p) else p in after && after[p] == PageOf(segs[k], file, p)
  }

  ghost predicate Layered(before: map<nat, UPage>, after: map<nat, UPage>, segs: seq<Segment>, file: Bytes)
    requires Placed(segs)
  {
    forall p: nat :: PageIs(before, after, segs, file, p)
  }

  lemma OneMoreSegment(before: map<nat, UPage>, was: map<nat, UPage>, now: map<nat, UPage>, segs: seq<Segment>, i: nat, file: Bytes)
    requires Placed(segs) && i < |segs| && Layered(before, was, segs[..i], file)
    requires if segs[i].load then OnlyCovered(was, now, segs[i]) && AllPages(now, segs[i], file) else now == was
    ensures Layered(before, now, segs[..i + 1], file)
  {
    var less, more := segs[..i], segs[..i + 1];
    assert more[..i] == less;
    forall p: nat ensures PageIs(before, now, more, file, p) {
      assert PageIs(before, was, less, file, p);
      assert segs[i].load && !Covers(segs[i], p) ==> SamePage(was, now, p);
    }
  }

  /** No two loadable segments share a page, as the linker guarantees. */
  ghost predicate Apart(segs: seq<Segment>) {
    forall j, k, p :: 0 <= j < |segs| && 0 <= k < |segs| && j != k && segs[j].load && segs[k].load && Covers(segs[j], p) ==> !Covers(segs[k], p)
  }

  /** Then every loadable segment is in place as a whole. */
  lemma AllLoaded(before: map<nat, UPage>, after: map<nat, UPage>, segs: seq<Segment>, file: Bytes, k: nat)
    requires Placed(segs) && Apart(segs) && k < |segs| && segs[k].load && Layered(before, after, segs, file)
    ensures Loaded(after, segs[k], file)
  {
    forall p | Covers(segs[k], p) ensures p in after && after[p] == PageOf(segs[k], file, p) {
      assert PageIs(before, after, segs, file, p);
    }
    PagesMakeSegment(after, segs[k], file);
  }

  /** The contents map_segment gives the page at offset i. */
  method SegmentBytes(g: Segment, file: Bytes, i: nat) returns (page: Bytes)
    requires g.va % PGSIZE <= g.offset
    ensures page == SegmentPage(file, g.offset - g.va % PGSIZE, g.filesz + g.va % PGSIZE, i)
  {
    var filesz, offset := g.filesz + g.va % PGSIZE, g.offset - g.va % PGSIZE;
    if i >= filesz {
      page := seq(PGSIZE, _ => 0);
    } else {
      page := ReadPage(file, offset + i, if filesz - i < PGSIZE then filesz - i else PGSIZE);
    }
  }

  /** What a fresh page holds after readn of up to `n` bytes from position `at`. */
  method ReadPage(file: Bytes, at: nat, n: nat) returns (p: Bytes)
    requires n <= PGSIZE
    ensures |p| == PGSIZE
    ensures forall b :: 0 <= b < PGSIZE ==> p[b] == if b < n && at + b < |file| then file[at + b] else 0
  {
    var zero: Bytes := seq(PGSIZE, _ => 0);
    var data := if at >= |file| then [] else if at + n <= |file| then file[at..at + n] else file[at..];
    p := data + zero[|data|..];
  }

  method Poke(a: array<nat>, off: nat, w: nat)
    requires a.Length == PGSIZE && off + 4 <= PGSIZE && w < 0x1_0000_0000
    modifies a
    ensures a[..] == Put(old(a[..]), off, Le(w))
  {
    var b := Le(w);
    a[off], a[off + 1], a[off + 2], a[off + 3] := b[0], b[1], b[2], b[3];
  }

  method Strcpy(a: array<nat>, off: nat, s: Bytes)
    requires a.Length == PGSIZE && off + |s| + 1 <= PGSIZE
    modifies a
    ensures a[..] == Put(old(a[..]), off, s + [0])
  {
    var i := 0;
    while i < |s|
      invariant 0 <= i <= |s| && a[..] == Put(old(a[..]), off, s[..i])
    {
      PutMore(old(a[..]), off, s, i);
      a[off + i] := s[i];
      i := i + 1;
    }
    assert s[..i] == s;
    PutMore(old(a[..]), off, s + [0], i);
    assert (s + [0])[..i] == s && (s + [0])[..i + 1] == s + [0];
    a[off + i] := 0;
  }

  /** Storing one byte more. */
  lemma PutMore(p: Bytes, off: nat, s: Bytes, i: nat)
    requires i < |s| && off + |s| <= |p|
    ensures Put(p, off, s[..i])[off + i := s[i]] == Put(p, off, s[..i + 1])
  {
  }

  /** The counting loop of init_stack. */
  method Measure(argv: seq<Bytes>) returns (size: nat)
    ensures size == Size(argv)
  {
    size := 0;
    var argc := 0;
    while argc < |argv|
      invariant 0 <= argc <= |argv| && size + Size(argv[argc..]) == Size(argv)
    {
      assert argv[argc..][1..] == argv[argc + 1..];
      size := size + |argv[argc]| + 1;
      argc := argc + 1;
    }
  }

  /** The body of the copy loop. */
  method CopyArgument(a: array<nat>, argv: seq<Bytes>, i: nat, store: nat)
    requires a.Length == PGSIZE && Fits(argv) && i < |argv| && store == Pos(argv, i) && Filled(a[..], argv, i)
    modifies a
    ensures Filled(a[..], argv, i + 1)
  {
    FilledMore(a[..], argv, i);
    Poke(a, ArgvOff(argv) + 4 * i, BASE + store);
    Strcpy(a, store, argv[i]);
  }

  /** The copy loop and the last three stores of init_stack. */
  method FillPage(a: array<nat>, argv: seq<Bytes>, size: nat)
    requires a.Length == PGSIZE && Fits(argv) && size == Size(argv)
    modifies a
    ensures Laid(a[..], argv)
  {
    var store := PGSIZE - size;
    assert argv[0..] == argv;
    var i := 0;
    while i < |argv|
      invariant 0 <= i <= |argv| && store == Pos(argv, i) && Filled(a[..], argv, i)
    {
      StringInside(argv, i);
      CopyArgument(a, argv, i, store);
      PosStep(argv, i);
      store := store + |argv[i]| + 1;
      i := i + 1;
    }
    PokeHeader(a, argv);
  }

  /** The three stores after the loop. */
  method PokeHeader(a: array<nat>, argv: seq<Bytes>)
    requires a.Length == PGSIZE && Fits(argv) && Filled(a[..], argv, |argv|)
    modifies a
    ensures Laid(a[..], argv)
  {
    LaidOut(a[..], argv);
    var off := ArgvOff(argv);
    Poke(a, off + 4 * |argv|, 0);
    Poke(a, off - 4, BASE + off);
    Poke(a, off - 8, |argv|);
  }

  lemma StringInside(argv: seq<Bytes>, i: nat)
    requires Fits(argv) && i < |argv|
    ensures 0 <= Pos(argv, i) <= PGSIZE
  {
    NoOverlap(argv);
    assert Between(argv, i);
  }

  method BuildStack(a: array<nat>, argv: seq<Bytes>, size: nat) returns (esp: nat)
    requires a.Length == PGSIZE && AreStrings(argv) && Fits(argv) && size == Size(argv)
    modifies a
    ensures Arguments(a[..], esp) == argv && esp % 4 == 0 && BASE <= esp < USTACKTOP
  {
    StackPointer(argv);
    esp := BASE + ArgvOff(argv) - 8;
    FillPage(a, argv, size);
    RoundTrip(a[..], argv);
  }

  lemma StackPointer(argv: seq<Bytes>)
    requires Fits(argv)
    ensures var esp := BASE + ArgvOff(argv) - 8; esp % 4 == 0 && BASE <= esp < USTACKTOP
  {
  }

  class Child {
    var pages: map<nat, UPage>

    /** init_stack. The two flags say whether sys_page_alloc and sys_page_map succeed. The list is
        refused exactly when it does not fit; otherwise the child finds exactly these arguments. */
    method InitStack(argv: seq<Bytes>, allocOk: bool, mapOk: bool) returns (r: int, esp: nat)
      requires AreStrings(argv)
      modifies this
      ensures r == if RoundUp4(Size(argv)) + 4 * (|argv| + 3) <= PGSIZE && allocOk && mapOk then 0 else E_NO_MEM
      ensures r != 0 ==> pages == old(pages)
      ensures r == 0 ==> BASE in pages && pages == old(pages)[BASE := pages[BASE]] && pages[BASE].writable
      ensures r == 0 ==> |pages[BASE].bytes| == PGSIZE && Arguments(pages[BASE].bytes, esp) == argv
      ensures r == 0 ==> esp % 4 == 0 && BASE <= esp < USTACKTOP
    {
      esp := 0;
      FitsBySize(argv);
      var size := Measure(argv);
      assert argv[0..] == argv;
      var off := RoundDown4(PGSIZE - size) - 4 * (|argv| + 1);
      if off - 8 < 0 || !allocOk { return E_NO_MEM, esp; }
      var a := new nat[PGSIZE](_ => 0);
      var sp := BuildStack(a, argv, size);
      if !mapOk { return E_NO_MEM, esp; }
      pages := pages[BASE := UPage(a[..], true)];
      r, esp := 0, sp;
    }

    /** map_segment. `budget` is the number of pages that can still be allocated. */
    method MapSegment(g: Segment, file: Bytes, budget: nat) returns (r: int, left: nat)
      requires g.va % PGSIZE <= g.offset
      modifies this
      ensures r == if budget < PagesOf(g) then E_NO_MEM else 0
      ensures r == 0 ==> left == budget - PagesOf(g) && AllPages(pages, g, file) && Loaded(pages, g, file)
      ensures OnlyCovered(old(pages), pages, g)
    {
      var va, memsz := g.va - g.va % PGSIZE, g.memsz + g.va % PGSIZE;
      left := budget;
      ghost var n := 0;
      var i := 0;
      while i < memsz
        invariant i == n * PGSIZE && left + n == budget && i < memsz + PGSIZE
        invariant OnlyCovered(old(pages), pages, g)
        invariant forall k :: 0 <= k < n ==> PageLoaded(pages, g, file, k * PGSIZE)
      {
        if left == 0 { return E_NO_MEM, left; }
        left := left - 1;
        var page := SegmentBytes(g, file, i);
        ghost var was := pages;
        MapOne(g, va + i, page);
        forall k | 0 <= k <= n ensures PageLoaded(pages, g, file, k * PGSIZE) {
          assert k < n ==> PageLoaded(was, g, file, k * PGSIZE);
        }
        i, n := i + PGSIZE, n + 1;
      }
      PagesDone(pages, g, file, n);
      PagesMakeSegment(pages, g, file);
      r := 0;
    }

    /** The program-header loop of spawn: every page ends up as the last loadable segment that covers it
        wants it, and every other page is as before. */
    method LoadSegments(segs: seq<Segment>, file: Bytes, budget: nat) returns (r: int)
      requires Placed(segs)
      modifies this
      ensures r == if budget < Needed(segs) then E_NO_MEM else 0
      ensures r == 0 ==> Layered(old(pages), pages, segs, file)
    {
      var left: nat := budget;
      var i := 0;
      while i < |segs|
        invariant 0 <= i <= |segs| && left + Needed(segs[..i]) == budget
        invariant Layered(old(pages), pages, segs[..i], file)
      {
        NeededMore(segs, i);
        ghost var was := pages;
        if segs[i].load {
          r, left := MapSegment(segs[i], file, left);
          if r < 0 { return; }
        }
        OneMoreSegment(old(pages), was, pages, segs, i, file);
        i := i + 1;
      }
      assert segs[..i] == segs;
      r := 0;
    }

    /** The memory spawn gives the child, when both parts succeed: the pages of the segments, whole
        segments if they share no page, and the arguments if no segment covers the stack page. */
    method BuildImage(argv: seq<Bytes>, segs: seq<Segment>, file: Bytes, budget: nat) returns (r: int, esp: nat)
      requires AreStrings(argv) && Placed(segs)
      modifies this
      ensures r == if RoundUp4(Size(argv)) + 4 * (|argv| + 3) <= PGSIZE && Needed(segs) + 1 <= budget then 0 else E_NO_MEM
      ensures r == 0 && Last(segs, BASE) < 0 ==> BASE in pages && Arguments(pages[BASE].bytes, esp) == argv
      ensures r == 0 ==> forall p: nat :: p != BASE || Last(segs, BASE) >= 0 ==> PageIs(old(pages), pages, segs, file, p)
      ensures r == 0 && Apart(segs) ==> forall k :: 0 <= k < |segs| && segs[k].load ==> Loaded(pages, segs[k], file)
    {
      r, esp := InitStack(argv, budget > 0, true);
      if r < 0 { return; }
      ghost var was := pages;
      r := LoadSegments(segs, file, budget - 1);
      if r == 0 {
        assert PageIs(was, pages, segs, file, BASE);
        forall p: nat | p != BASE || Last(segs, BASE) >= 0 ensures PageIs(old(pages), pages, segs, file, p) {
          assert PageIs(was, pages, segs, file, p);
        }
        if Apart(segs) {
          forall k | 0 <= k < |segs| && segs[k].load ensures Loaded(pages, segs[k], file) { AllLoaded(was, pages, segs, file, k); }
        }
      }
    }

    method MapOne(g: Segment, va: nat, page: Bytes)
      requires Covers(g, va)
      modifies this
      ensures pages == old(pages)[va := UPage(page, g.writable)]
      ensures forall p0 :: OnlyCovered(p0, old(pages), g) ==> OnlyCovered(p0, pages, g)
    {
      pages := pages[va := UPage(page, g.writable)];
      forall p0 | OnlyCovered(p0, old(pages), g) ensures OnlyCovered(p0, pages, g) {
        forall p | !Covers(g, p) ensures SamePage(p0, pages, p) { assert SamePage(p0, old(pages), p); }
      }
    }
  }
}
