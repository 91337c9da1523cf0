// Bytes, little-endian fields and slice assignment: the vocabulary of a Python `bytearray`.
module Bytes {
  type byte = x: int | 0 <= x < 256

  datatype Option<+T> = None | Some(value: T)

  function Repeated(b: byte, n: nat): (r: seq<byte>)
    ensures |r| == n
    ensures forall i :: 0 <= i < n ==> r[i] == b
  {
    seq(n, i => b)
  }

  function Zeros(n: nat): (r: seq<byte>)
    ensures |r| == n
  {
    Repeated(0, n)
  }

  /** `s[at : at + |d|] = d`: slice assignment of equal length. */
  function Splice(s: seq<byte>, at: nat, d: seq<byte>): (r: seq<byte>)
    requires at + |d| <= |s|
    ensures |r| == |s|
  {
    s[..at] + d + s[at + |d|..]
  }

  lemma SpliceAt(s: seq<byte>, at: nat, d: seq<byte>, i: nat)
    requires at + |d| <= |s| && i < |s|
    ensures Splice(s, at, d)[i] == if at <= i < at + |d| then d[i - at] else s[i]
  {
  }

  /** A window that contains the assigned slice sees the same assignment, shifted. */
  lemma SpliceInside(s: seq<byte>, at: nat, d: seq<byte>, lo: nat, hi: nat)
    requires lo <= at && at + |d| <= hi <= |s|
    ensures Splice(s, at, d)[lo..hi] == Splice(s[lo..hi], at - lo, d)
  {
  }

  /** A window that misses the assigned slice does not change. */
  lemma SpliceOutside(s: seq<byte>, at: nat, d: seq<byte>, lo: nat, hi: nat)
    requires at + |d| <= |s| && lo <= hi <= |s|
    requires hi <= at || at + |d| <= lo
    ensures Splice(s, at, d)[lo..hi] == s[lo..hi]
  {
  }

  /** 16-bit little-endian field. */
  function Le16(v: nat): (r: seq<byte>)
    requires v < 0x1_0000
    ensures |r| == 2
  {
    [v % 256, v / 256]
  }

  function FromLe16(b: seq<byte>): (v: nat)
    requires |b| == 2
    ensures v < 0x1_0000
  {
    var lo: int, hi: int := b[0], b[1];
    lo + 256 * hi
  }

  /** 32-bit little-endian field. */
  function Le32(v: nat): (r: seq<byte>)
    requires v < 0x1_0000_0000
    ensures |r| == 4
  {
    Le16(v % 0x1_0000) + Le16(v / 0x1_0000)
  }

  function FromLe32(b: seq<byte>): (v: nat)
    requires |b| == 4
    ensures v < 0x1_0000_0000
  {
    FromLe16(b[..2]) + 0x1_0000 * FromLe16(b[2..])
  }

  /** The least significant byte stands first. */
  lemma LittleEndian(b: seq<byte>)
    requires |b| == 4
    ensures FromLe16(b[..2]) == Number(b[0], b[1])
    ensures FromLe32(b) == Number(b[0], b[1]) + 0x1_0000 * Number(b[2], b[3])
  {
  }

  function Number(low: int, high: int): int { low + 0x100 * high }

  lemma Le16RoundTrip(v: nat)
    requires v < 0x1_0000
    ensures FromLe16(Le16(v)) == v
  {
  }

  lemma Le32RoundTrip(v: nat)
    requires v < 0x1_0000_0000
    ensures FromLe32(Le32(v)) == v
  {
    var b := Le32(v);
    assert b[..2] == Le16(v % 0x1_0000) && b[2..] == Le16(v / 0x1_0000);
    Le16RoundTrip(v % 0x1_0000);
    Le16RoundTrip(v / 0x1_0000);
  }
}
