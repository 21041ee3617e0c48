/**
 Byte strings and the little-endian words stored in them.
 */
module Bytes {

  type byte = x: int | 0 <= x < 256

  /** 256 to the n. */
  function Base(n: nat): (b: nat)
    ensures b >= 1
  {
    if n == 0 then 1 else 256 * Base(n - 1)
  }

  function FromBytes(s: seq<byte>): nat {
    if s == [] then 0 else s[0] + 256 * FromBytes(s[1..])
  }

  function ToBytes(w: nat, n: nat): (s: seq<byte>)
    ensures |s| == n
    decreases n
  {
    if n == 0 then [] else [w % 256] + ToBytes(w / 256, n - 1)
  }

  lemma {:induction false} FromTo(w: nat, n: nat)
    requires w < Base(n)
    ensures FromBytes(ToBytes(w, n)) == w
    decreases n
  {
    if n > 0 {
      FromTo(w / 256, n - 1);
      assert ToBytes(w, n)[1..] == ToBytes(w / 256, n - 1);
    }
  }

  lemma {:induction false} FromBound(s: seq<byte>)
    ensures FromBytes(s) < Base(|s|)
  {
    if s != [] {
      FromBound(s[1..]);
    }
  }

  lemma {:induction false} FromZero(s: seq<byte>)
    requires forall i | 0 <= i < |s| :: s[i] == 0
    ensures FromBytes(s) == 0
  {
    if s != [] {
      FromZero(s[1..]);
    }
  }

  /** The n-byte word at offset o. */
  function WordAt(b: seq<byte>, o: nat, n: nat): nat
    requires o + n <= |b|
  {
    FromBytes(b[o..o + n])
  }

  /** b with the n-byte word w written at offset o. */
  function PutWord(b: seq<byte>, o: nat, n: nat, w: nat): (r: seq<byte>)
    requires o + n <= |b|
    ensures |r| == |b|
  {
    b[..o] + ToBytes(w, n) + b[o + n..]
  }

  lemma WordAtPut(b: seq<byte>, o: nat, n: nat, w: nat)
    requires o + n <= |b| && w < Base(n)
    ensures WordAt(PutWord(b, o, n, w), o, n) == w
  {
    FromTo(w, n);
    assert PutWord(b, o, n, w)[o..o + n] == ToBytes(w, n);
  }

  /** Other bytes keep their value. */
  lemma SliceOfPut(b: seq<byte>, o: nat, n: nat, w: nat, from: nat, to: nat)
    requires o + n <= |b| && from <= to <= |b| && (to <= o || o + n <= from)
    ensures PutWord(b, o, n, w)[from..to] == b[from..to]
  {
    var r := PutWord(b, o, n, w);
    assert forall i | from <= i < to :: r[i] == b[i];
  }

  lemma OtherWordKept(b: seq<byte>, o: nat, n: nat, w: nat, p: nat, m: nat)
    requires o + n <= |b| && p + m <= |b| && (p + m <= o || o + n <= p)
    ensures WordAt(PutWord(b, o, n, w), p, m) == WordAt(b, p, m)
  {
    SliceOfPut(b, o, n, w, p, p + m);
  }

  lemma ZeroWord(b: seq<byte>, o: nat, n: nat)
    requires o + n <= |b| && forall i | 0 <= i < |b| :: b[i] == 0
    ensures WordAt(b, o, n) == 0
  {
    FromZero(b[o..o + n]);
  }
}
