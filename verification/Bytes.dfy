/**
 Bytes in pages and blocks: little-endian words, C strings, and stores that do not overlap.
 */
module Bytes {

  /** A byte is a number; that it is below 256 matters nowhere here. */
  type Bytes = seq<nat>

  /** A C string without its terminator. */
  predicate IsString(s: Bytes) { forall i :: 0 <= i < |s| ==> s[i] != 0 }

  /** The n low bytes of w, lowest first. */
  function Digits(w: nat, n: nat): (b: Bytes)
    ensures |b| == n
  {
    if n == 0 then [] else [w % 256] + Digits(w / 256, n - 1)
  }

  function Value(b: Bytes): nat {
    if b == [] then 0 else b[0] + 256 * Value(b[1..])
  }

  function Le(w: nat): (b: Bytes)
    ensures |b| == 4
  {
    Digits(w, 4)
  }

  /** The little-endian word at an offset of the page; 0 outside it. */
  function WordAt(p: Bytes, off: int): nat {
    if 0 <= off && off + 4 <= |p| then Value(p[off..off + 4]) else 0
  }

  /** The string at an offset of the page, up to its terminator or the end of the page. */
  function StringAt(p: Bytes, off: int): Bytes
    decreases |p| - off
  {
    if 0 <= off < |p| && p[off] != 0 then [p[off]] + StringAt(p, off + 1) else []
  }

  predicate Stored(p: Bytes, off: nat, b: Bytes) { off + |b| <= |p| && p[off..off + |b|] == b }

  /** The page that results from storing b at off. */
  function Put(p: Bytes, off: nat, b: Bytes): (p': Bytes)
    requires off + |b| <= |p|
    ensures |p'| == |p|
  {
    p[..off] + b + p[off + |b|..]
  }

  lemma PutStores(p: Bytes, off: nat, b: Bytes)
    requires off + |b| <= |p|
    ensures Stored(Put(p, off, b), off, b)
  {
  }

  lemma PutKeeps(p: Bytes, off: nat, b: Bytes, o: nat, c: Bytes)
    requires off + |b| <= |p| && Stored(p, o, c) && (o + |c| <= off || off + |b| <= o)
    ensures Stored(Put(p, off, b), o, c)
  {
  }

  function Pow256(n: nat): nat { if n == 0 then 1 else 256 * Pow256(n - 1) }

  lemma {:induction false} ValueOfDigits(w: nat, n: nat)
    requires w < Pow256(n)
    ensures Value(Digits(w, n)) == w
  {
    if n > 0 {
      ValueOfDigits(w / 256, n - 1);
      assert Digits(w, n)[1..] == Digits(w / 256, n - 1);
    }
  }

  lemma LeWord(p: Bytes, off: nat, w: nat)
    requires w < 0x1_0000_0000 && Stored(p, off, Le(w))
    ensures WordAt(p, off) == w
  {
    assert Pow256(4) == 256 * (256 * (256 * 256));
    ValueOfDigits(w, 4);
  }

  lemma {:induction false} StringFound(p: Bytes, off: nat, s: Bytes)
    requires IsString(s) && Stored(p, off, s + [0])
    ensures StringAt(p, off) == s
    decreases |s|
  {
    var b := p[off..off + |s| + 1];
    assert b[0] == p[off] == (s + [0])[0];
    if s != [] {
      assert p[off + 1..off + 1 + |s|] == b[1..] == s[1..] + [0];
      StringFound(p, off + 1, s[1..]);
    }
  }
}
