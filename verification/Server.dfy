/**
 The open-file table of the file server (fs/serv.c): file ids, their reuse, and reading and writing
 through them.
 */
module Server {
  import opened FileBlocks
  import FS = FileSystem

  const MAXOPEN: nat := 1024
  const WORD: nat := 0x1_0000_0000
  /** Ids of one slot repeat after this many allocations: WORD / MAXOPEN. */
  const PERIOD: nat := 0x40_0000

  const E_INVAL := -3
  const E_NO_MEM := -4
  const E_MAX_OPEN := -10

  /** The id of slot i after k allocations: i + MAXOPEN * k as a 32-bit word. */
  function Id(i: nat, k: nat): nat { i + MAXOPEN * (k % PERIOD) }

  /** What the caller sees: the id as a signed 32-bit integer. */
  function Signed(w: nat): int { if w < 0x8000_0000 then w else w - WORD }

  /** An id names its slot, and two ids of a slot are equal exactly when the counter has gone round. */
  lemma IdsDiffer(i: nat, k: nat, j: nat, l: nat)
    requires i < MAXOPEN && j < MAXOPEN
    ensures Id(i, k) % MAXOPEN == i
    ensures Id(i, k) == Id(j, l) <==> i == j && k % PERIOD == l % PERIOD
  {
  }

  /** Adding MAXOPEN to a 32-bit id gives the next one. */
  lemma NextId(i: nat, k: nat)
    requires i < MAXOPEN
    ensures (Id(i, k) + MAXOPEN) % WORD == Id(i, k + 1)
  {
  }

  /** The upper half of the ids look like errors to serve_open. */
  lemma NegativeIds(i: nat, k: nat)
    requires i < MAXOPEN
    ensures Signed(Id(i, k)) < 0 <==> k % PERIOD >= PERIOD / 2
  {
  }

  /** The slots of the table; `refs` is pageref of the Fd page. */
  class OpenTable {
    var fileid: seq<nat>
    var refs: seq<nat>
    var file: seq<nat>       // o_file
    var offset: seq<nat>     // fd_offset
    /** How often each slot has been allocated. */
    ghost var uses: seq<nat>

    ghost predicate Valid()
      reads this
    {
      && |fileid| == |refs| == |file| == |offset| == |uses| == MAXOPEN
      && forall i :: 0 <= i < MAXOPEN ==> fileid[i] == Id(i, uses[i])
    }

    /** serve_init */
    constructor ()
      ensures Valid() && forall i :: 0 <= i < MAXOPEN ==> uses[i] == 0 && refs[i] == 0
    {
      var ids: seq<nat>, i := [], 0;
      while i < MAXOPEN
        invariant 0 <= i <= MAXOPEN && |ids| == i && forall j :: 0 <= j < i ==> ids[j] == j
      {
        ids, i := ids + [i], i + 1;
      }
      fileid := ids;
      refs, file, offset, uses := seq(MAXOPEN, _ => 0), seq(MAXOPEN, _ => 0), seq(MAXOPEN, _ => 0), seq(MAXOPEN, _ => 0);
    }

    /** openfile_alloc: the first slot no client holds, under its next id. */
    method Alloc(pageOk: bool) returns (r: int, o: nat)
      requires Valid()
      modifies this
      ensures Valid() && file == old(file)
      ensures (forall i :: 0 <= i < MAXOPEN ==> old(refs)[i] > 1) ==> r == E_MAX_OPEN && uses == old(uses) && refs == old(refs)
      ensures (exists i :: 0 <= i < MAXOPEN && old(refs)[i] <= 1) ==>
                && o < MAXOPEN && old(refs)[o] <= 1 && (forall i :: 0 <= i < o ==> old(refs)[i] > 1)
                && if old(refs)[o] == 0 && !pageOk then r == E_NO_MEM && uses == old(uses) && refs == old(refs)
                   else
                     && uses == old(uses)[o := old(uses)[o] + 1] && r == Signed(Id(o, uses[o]))
                     && refs == old(refs)[o := 1] && offset == old(offset)[o := 0]
    {
      o := 0;
      while o < MAXOPEN
        invariant 0 <= o <= MAXOPEN && fileid == old(fileid) && refs == old(refs) && uses == old(uses)
        invariant forall i :: 0 <= i < o ==> refs[i] > 1
      {
        if refs[o] <= 1 {
          if refs[o] == 0 {
            if !pageOk { return E_NO_MEM, o; }
            refs := refs[o := 1];
          }
          NextId(o, uses[o]);
          fileid := fileid[o := (fileid[o] + MAXOPEN) % WORD];
          uses := uses[o := uses[o] + 1];
          offset := offset[o := 0];
          return Signed(fileid[o]), o;
        }
        o := o + 1;
      }
      r := E_MAX_OPEN;
    }

    /** openfile_lookup: an id issued as the k-th of slot i is accepted exactly when a client still
        holds the slot and the slot's counter stands at k again. */
    method Lookup(id: nat, ghost i: nat, ghost k: nat) returns (o: int)
      requires Valid() && i < MAXOPEN && id == Id(i, k)
      ensures o == if refs[i] > 1 && uses[i] % PERIOD == k % PERIOD then i else E_INVAL
    {
      IdsDiffer(i, uses[i], i, k);
      o := id % MAXOPEN;
      if refs[o] <= 1 || fileid[o] != id { o := E_INVAL; }
    }
  }

  /** Within a window of PERIOD allocations, only the latest id of a slot resolves. */
  lemma StaleIds(i: nat, k: nat, now: nat)
    requires i < MAXOPEN && k <= now < k + PERIOD
    ensures Id(i, k) == Id(i, now) <==> k == now
  {
  }

  /** serve_read: the next bytes of the file from the shared seek position, which moves past them. */
  method ServeRead(t: OpenTable, fs: FS.FileSystem, id: nat, n: nat, ghost i: nat, ghost k: nat)
    returns (out: FS.Outcome, buf: seq<nat>)
    requires t.Valid() && fs.Valid() && i < MAXOPEN && id == Id(i, k) && t.file[i] < |fs.files|
    modifies fs, t`offset
    ensures t.Valid() && fs.Valid() && SameViews(old(fs.D()), old(fs.own), fs.D(), fs.own)
    ensures !(t.refs[i] > 1 && t.uses[i] % PERIOD == k % PERIOD) ==> out == FS.Done(E_INVAL) && t.offset == old(t.offset)
    ensures out.Panic? ==> fs.Full() && FS.HasHole(old(fs.D()), t.file[i])
    ensures var f, at := t.file[i], old(t.offset)[i];
            var m := if at >= old(fs.files)[f].size then 0 else FS.Min(n, old(fs.files)[f].size - at);
            out.Panic? <==> t.refs[i] > 1 && t.uses[i] % PERIOD == k % PERIOD
                            && FS.Short(old(fs.D()), |FS.FreeSet(old(fs.bitmap))|, f, at, m)
    ensures t.refs[i] > 1 && t.uses[i] % PERIOD == k % PERIOD && out.Done? ==>
              var f, at := t.file[i], old(t.offset)[i];
              var m := if at >= old(fs.files)[f].size then 0 else FS.Min(n, old(fs.files)[f].size - at);
              if m > 0 && at + m > FS.MAXFILESIZE then out == FS.Done(E_INVAL) && t.offset == old(t.offset)
              else
                && out == FS.Done(m) && |buf| == m && FS.IsRead(old(fs.D()), old(fs.own), f, at, buf)
                && t.offset == old(t.offset)[i := at + m]
  {
    buf := [];
    var o := t.Lookup(id, i, k);
    if o < 0 { return FS.Done(o), buf; }
    out, buf := fs.FileRead(t.file[o], n, t.offset[o]);
    if out.Panic? || out.n < 0 { return; }
    t.offset := t.offset[o := t.offset[o] + out.n];
  }

  /** serve_write: the bytes go to the seek position, which moves past them. */
  method ServeWrite(t: OpenTable, fs: FS.FileSystem, id: nat, data: seq<nat>, ghost i: nat, ghost k: nat)
    returns (out: FS.Outcome)
    requires t.Valid() && fs.Valid() && i < MAXOPEN && id == Id(i, k) && t.file[i] < |fs.files|
    modifies fs, t`offset
    ensures t.Valid() && fs.Valid()
    ensures !(t.refs[i] > 1 && t.uses[i] % PERIOD == k % PERIOD) ==>
              out == FS.Done(E_INVAL) && t.offset == old(t.offset) && fs.D() == old(fs.D())
    ensures out.Panic? ==> fs.Full()
    ensures out.Panic? <==> t.refs[i] > 1 && t.uses[i] % PERIOD == k % PERIOD
                            && FS.Short(old(fs.D()), |FS.FreeSet(old(fs.bitmap))|, t.file[i], old(t.offset)[i], |data|)
    ensures t.refs[i] > 1 && t.uses[i] % PERIOD == k % PERIOD && out.Done? ==>
              var f, at := t.file[i], old(t.offset)[i];
              && FS.Written(old(fs.D()), old(fs.own), fs.D(), fs.own, f, data, at, |data|)
              && if data != [] && at + |data| > FS.MAXFILESIZE then out == FS.Done(E_INVAL) && t.offset == old(t.offset)
                 else out == FS.Done(|data|) && t.offset == old(t.offset)[i := at + |data|]
  {
    var o := t.Lookup(id, i, k);
    if o < 0 { return FS.Done(o); }
    out := fs.FileWrite(t.file[o], data, t.offset[o]);
    if out.Panic? || out.n < 0 { return; }
    t.offset := t.offset[o := t.offset[o] + out.n];
  }
}
