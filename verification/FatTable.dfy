/** Packed FAT entries: `fatfs_utils/cluster.py`, `get_from_fat` and `set_in_fat`, on the bytes
    of one FAT. A nibble is a half byte; the source's `& 0x0f`, `>> 4`, `<< 4` and `|` on
    half bytes are `% 16`, `/ 16`, `* 16` and `+` (see HalfByteOperators). */
module FatTable {
  import opened Bytes
  import opened Geometry

  /** `split_by_half_byte_12_bit_little_endian` */
  function SplitByHalfByte(value: nat): (h: (nat, nat, nat))
    ensures h.0 < 16 && h.1 < 16 && h.2 < 16
  {
    (value % 16, value % 256 / 16, value / 256 % 16)
  }

  function BuildByte(firstHalf: nat, secondHalf: nat): byte
    requires firstHalf < 16 && secondHalf < 16
  {
    firstHalf * 16 + secondHalf
  }

  function SetMsb(b: byte, v: nat): byte
    requires v < 16
  {
    b % 16 + v * 16
  }

  function SetLsb(b: byte, v: nat): byte
    requires v < 16
  {
    b / 16 * 16 + v
  }

  /** The arithmetic used here is the bit arithmetic of the source. */
  lemma HalfByteOperators(b: bv8, v: bv8)
    requires v < 16
    ensures (b & 0x0F) == b % 16 && b >> 4 == b / 16
    ensures ((b & 0x0F) | (v << 4)) == b % 16 + v * 16
    ensures ((b & 0xF0) | v) == b / 16 * 16 + v
  {
  }

  /** Position of the first byte touched by entry `i`: the bit position `bits * i`, by bytes. The
      width is written out so that all arithmetic on it is linear. */
  function EntryByte(bits: nat, i: nat): nat { if bits == FAT12 then 12 * i / 8 else 16 * i / 8 }

  predicate InTable(t: seq<byte>, bits: nat, i: nat) {
    && (bits == FAT12 || bits == FAT16)
    && EntryByte(bits, i) + 1 < |t|
  }

  function Get(t: seq<byte>, bits: nat, i: nat): (v: nat)
    requires InTable(t, bits, i)
    ensures bits == FAT12 ==> v < 0x1000
    ensures v < 0x1_0000
  {
    var p := EntryByte(bits, i);
    var lo: int, hi: int := t[p], t[p + 1];
    if bits == FAT12 then
      if 12 * i % 8 == 0 then lo + hi % 16 * 256 else lo / 16 + hi * 16
    else
      lo + hi * 256
  }

  function Set(t: seq<byte>, bits: nat, i: nat, v: nat): (r: seq<byte>)
    requires InTable(t, bits, i) && v < 0x1_0000
    ensures |r| == |t|
  {
    var p := EntryByte(bits, i);
    var h := SplitByHalfByte(v);
    if bits == FAT12 then
      if 12 * i % 8 == 0 then t[p := BuildByte(h.1, h.0)][p + 1 := SetLsb(t[p + 1], h.2)]
      else t[p := SetMsb(t[p], h.0)][p + 1 := BuildByte(h.2, h.1)]
    else
      t[p := v % 256][p + 1 := v / 256]
  }

  // ---- reference form: a FAT is a stream of nibbles, an entry is `Width` consecutive ones ----

  function Nibble(t: seq<byte>, k: nat): (n: nat)
    requires k / 2 < |t|
    ensures n < 16
  {
    if k % 2 == 0 then t[k / 2] % 16 else t[k / 2] / 16
  }

  function Width(bits: nat): nat { if bits == FAT12 then 3 else 4 }

  /** The first nibble of entry `i`. */
  function FirstNibble(bits: nat, i: nat): nat { if bits == FAT12 then 3 * i else 4 * i }

  /** The `j`-th base-16 digit of a 16-bit `v`, least significant first. */
  function Digit(v: nat, j: nat): nat {
    if j == 0 then v % 16 else if j == 1 then v / 16 % 16 else if j == 2 then v / 256 % 16 else v / 4096
  }

  lemma Digits(v: nat)
    requires v < 0x1_0000
    ensures v % 256 == Digit(v, 0) + 16 * Digit(v, 1) && v / 256 == Digit(v, 2) + 16 * Digit(v, 3)
    ensures v == Digit(v, 0) + 16 * Digit(v, 1) + 256 * Digit(v, 2) + 4096 * Digit(v, 3)
    ensures forall j :: 0 <= j < 4 ==> Digit(v, j) < 16
    ensures SplitByHalfByte(v) == (Digit(v, 0), Digit(v, 1), Digit(v, 2))
  {
    var lo, hi := v % 256, v / 256;
    assert v == lo + 256 * hi;
    assert v / 16 == lo / 16 + 16 * hi;
    assert v / 4096 == hi / 16;
  }

  /** Where an entry starts: even FAT12 entries start on a byte, odd ones in its upper half. */
  lemma EntryPosition(i: nat)
    ensures EntryByte(FAT12, 2 * i) == 3 * i && 12 * (2 * i) % 8 == 0
    ensures EntryByte(FAT12, 2 * i + 1) == 3 * i + 1 && 12 * (2 * i + 1) % 8 != 0
    ensures EntryByte(FAT16, i) == 2 * i
  {
  }

  /** The two nibbles of byte `p`. */
  lemma NibblesOfByte(t: seq<byte>, p: nat)
    requires p < |t|
    ensures Nibble(t, 2 * p) == t[p] % 16 && Nibble(t, 2 * p + 1) == t[p] / 16
  {
    assert 2 * p / 2 == p && (2 * p + 1) / 2 == p;
  }

  lemma HalvesOfByte(hi: nat, lo: nat)
    requires hi < 16 && lo < 16
    ensures (hi * 16 + lo) % 16 == lo && (hi * 16 + lo) / 16 == hi
  {
  }

  lemma GetEven(t: seq<byte>, m: nat)
    requires InTable(t, FAT12, 2 * m)
    ensures 3 * m + 1 < |t|
    ensures Get(t, FAT12, 2 * m) == Nibble(t, 6 * m) + 16 * Nibble(t, 6 * m + 1) + 256 * Nibble(t, 6 * m + 2)
  {
    EntryPosition(m);
    NibblesOfByte(t, 3 * m);
    NibblesOfByte(t, 3 * m + 1);
  }

  lemma GetOdd(t: seq<byte>, m: nat)
    requires InTable(t, FAT12, 2 * m + 1)
    ensures 3 * m + 2 < |t|
    ensures Get(t, FAT12, 2 * m + 1) ==
      Nibble(t, 6 * m + 3) + 16 * Nibble(t, 6 * m + 4) + 256 * Nibble(t, 6 * m + 5)
  {
    EntryPosition(m);
    NibblesOfByte(t, 3 * m + 1);
    NibblesOfByte(t, 3 * m + 2);
  }

  lemma GetWide(t: seq<byte>, i: nat)
    requires InTable(t, FAT16, i)
    ensures 2 * i + 1 < |t|
    ensures Get(t, FAT16, i) == Nibble(t, 4 * i) + 16 * Nibble(t, 4 * i + 1)
      + 256 * Nibble(t, 4 * i + 2) + 4096 * Nibble(t, 4 * i + 3)
  {
    EntryPosition(i);
    NibblesOfByte(t, 2 * i);
    NibblesOfByte(t, 2 * i + 1);
  }

  lemma EvenOrOdd(i: nat) returns (m: nat)
    ensures i == 2 * m || i == 2 * m + 1
  {
    m := i / 2;
  }

  /** `Get` reads the entry's own nibbles, least significant first. */
  lemma GetReadsNibbles(t: seq<byte>, bits: nat, i: nat)
    requires InTable(t, bits, i)
    ensures bits == FAT12 ==>
      && (3 * i + 2) / 2 < |t|
      && Get(t, bits, i) == Nibble(t, 3 * i) + 16 * Nibble(t, 3 * i + 1) + 256 * Nibble(t, 3 * i + 2)
    ensures bits == FAT16 ==>
      && (4 * i + 3) / 2 < |t|
      && Get(t, bits, i) == Nibble(t, 4 * i) + 16 * Nibble(t, 4 * i + 1)
           + 256 * Nibble(t, 4 * i + 2) + 4096 * Nibble(t, 4 * i + 3)
  {
    if bits == FAT16 {
      GetWide(t, i);
    } else {
      var m := EvenOrOdd(i);
      if i == 2 * m {
        GetEven(t, m);
      } else {
        GetOdd(t, m);
      }
    }
  }

  lemma SetWide(t: seq<byte>, i: nat, v: nat)
    requires InTable(t, FAT16, i) && v < 0x1_0000
    ensures var p := EntryByte(FAT16, i); Set(t, FAT16, i, v) == t[p := v % 256][p + 1 := v / 256]
  {
  }

  lemma SetEven(t: seq<byte>, i: nat, v: nat)
    requires InTable(t, FAT12, i) && v < 0x1_0000 && 12 * i % 8 == 0
    ensures var p := EntryByte(FAT12, i);
      && Digit(v, 1) * 16 + Digit(v, 0) < 256 && t[p + 1] / 16 * 16 + Digit(v, 2) < 256
      && Set(t, FAT12, i, v) == t[p := Digit(v, 1) * 16 + Digit(v, 0)][p + 1 := t[p + 1] / 16 * 16 + Digit(v, 2)]
  {
    hide EntryByte, Digit;
    Digits(v);
  }

  lemma SetOdd(t: seq<byte>, i: nat, v: nat)
    requires InTable(t, FAT12, i) && v < 0x1_0000 && 12 * i % 8 != 0
    ensures var p := EntryByte(FAT12, i);
      && t[p] % 16 + Digit(v, 0) * 16 < 256 && Digit(v, 2) * 16 + Digit(v, 1) < 256
      && Set(t, FAT12, i, v) == t[p := t[p] % 16 + Digit(v, 0) * 16][p + 1 := Digit(v, 2) * 16 + Digit(v, 1)]
  {
    hide EntryByte, Digit;
    Digits(v);
  }

  /** `Set` at byte level. */
  lemma SetBytes(t: seq<byte>, bits: nat, i: nat, v: nat)
    requires InTable(t, bits, i) && v < 0x1_0000
    ensures var p := EntryByte(bits, i);
      var r := Set(t, bits, i, v);
      && (forall q :: 0 <= q < |t| && q != p && q != p + 1 ==> r[q] == t[q])
      && (bits == FAT16 ==> r[p] == v % 256 && r[p + 1] == v / 256)
      && (bits == FAT12 && 12 * i % 8 == 0 ==>
        r[p] == Digit(v, 1) * 16 + Digit(v, 0) && r[p + 1] == t[p + 1] / 16 * 16 + Digit(v, 2))
      && (bits == FAT12 && 12 * i % 8 != 0 ==>
        r[p] == t[p] % 16 + Digit(v, 0) * 16 && r[p + 1] == Digit(v, 2) * 16 + Digit(v, 1))
  {
    hide Set, EntryByte, Digit;
    if bits == FAT16 {
      SetWide(t, i, v);
    } else if 12 * i % 8 == 0 {
      SetEven(t, i, v);
    } else {
      SetOdd(t, i, v);
    }
  }

  /** The entry occupies the upper half of byte `p - 1` and all of byte `p`, or all of byte `p`
      and the lower half of byte `p + 1`, or two whole bytes. */
  lemma SetWritesByte(t: seq<byte>, bits: nat, i: nat, v: nat, q: nat)
    requires InTable(t, bits, i) && v < 0x1_0000 && q < |t|
    ensures var p := EntryByte(bits, i);
      var r := Set(t, bits, i, v)[q];
      && (q != p && q != p + 1 ==> r == t[q])
      && (bits == FAT16 && q == p ==> r % 16 == Digit(v, 0) && r / 16 == Digit(v, 1))
      && (bits == FAT16 && q == p + 1 ==> r % 16 == Digit(v, 2) && r / 16 == Digit(v, 3))
      && (bits == FAT12 && 12 * i % 8 == 0 && q == p ==> r % 16 == Digit(v, 0) && r / 16 == Digit(v, 1))
      && (bits == FAT12 && 12 * i % 8 == 0 && q == p + 1 ==> r % 16 == Digit(v, 2) && r / 16 == t[q] / 16)
      && (bits == FAT12 && 12 * i % 8 != 0 && q == p ==> r % 16 == t[q] % 16 && r / 16 == Digit(v, 0))
      && (bits == FAT12 && 12 * i % 8 != 0 && q == p + 1 ==> r % 16 == Digit(v, 1) && r / 16 == Digit(v, 2))
  {
    hide Set, EntryByte, Digit, SplitByHalfByte;
    SetBytes(t, bits, i, v);
    Digits(v);
    HalvesOfByte(Digit(v, 1), Digit(v, 0));
    HalvesOfByte(Digit(v, 3), Digit(v, 2));
    HalvesOfByte(Digit(v, 2), Digit(v, 1));
    HalvesOfByte(t[q] / 16, Digit(v, 2));
    HalvesOfByte(Digit(v, 0), t[q] % 16);
  }

  /** `Set` writes the digits of the value into the entry's own nibbles and no other bit. */
  lemma SetWritesNibbles(t: seq<byte>, bits: nat, i: nat, v: nat, k: nat)
    requires InTable(t, bits, i) && v < 0x1_0000 && k / 2 < |t|
    ensures Nibble(Set(t, bits, i, v), k) ==
      var first := FirstNibble(bits, i);
      if first <= k < first + Width(bits) then Digit(v, k - first) else Nibble(t, k)
  {
    hide Set, Nibble, Digit, Get;
    var q := EvenOrOdd(k);
    var m := EvenOrOdd(i);
    SetWritesByte(t, bits, i, v, q);
    EntryPosition(m);
    EntryPosition(i);
    NibblesOfByte(t, q);
    NibblesOfByte(Set(t, bits, i, v), q);
  }

  lemma NibbleAfterSet(t: seq<byte>, bits: nat, i: nat, v: nat, j: nat, d: nat)
    requires InTable(t, bits, i) && v < 0x1_0000 && d < Width(bits)
    requires (FirstNibble(bits, j) + d) / 2 < |t|
    ensures Nibble(Set(t, bits, i, v), FirstNibble(bits, j) + d) ==
      if i == j then Digit(v, d) else Nibble(t, FirstNibble(bits, j) + d)
  {
    hide Set, Nibble, Digit;
    SetWritesNibbles(t, bits, i, v, FirstNibble(bits, j) + d);
  }

  /** Reading after writing: the written entry has the value, every other entry the old one,
      also where two entries share a byte. */
  lemma GetAfterSet(t: seq<byte>, bits: nat, i: nat, v: nat, j: nat)
    requires InTable(t, bits, i) && InTable(t, bits, j)
    requires v < 0x1_0000 && (bits == FAT12 ==> v < 0x1000)
    ensures Get(Set(t, bits, i, v), bits, j) == if i == j then v else Get(t, bits, j)
  {
    hide Set, Get, Nibble;
    GetReadsNibbles(t, bits, j);
    GetReadsNibbles(Set(t, bits, i, v), bits, j);
    Digits(v);
    NibbleAfterSet(t, bits, i, v, j, 0);
    NibbleAfterSet(t, bits, i, v, j, 1);
    NibbleAfterSet(t, bits, i, v, j, 2);
    if bits == FAT16 {
      NibbleAfterSet(t, bits, i, v, j, 3);
    }
  }

  /** Only the two bytes at the entry's position can change. */
  lemma SetTouchesTwoBytes(t: seq<byte>, bits: nat, i: nat, v: nat, p: nat)
    requires InTable(t, bits, i) && v < 0x1_0000 && p < |t|
    requires p != EntryByte(bits, i) && p != EntryByte(bits, i) + 1
    ensures Set(t, bits, i, v)[p] == t[p]
  {
  }

  /** The FAT as a table of entry values. */
  function Table(t: seq<byte>, bits: nat, n: nat): (f: seq<nat>)
    requires forall i :: 0 <= i < n ==> InTable(t, bits, i)
    ensures |f| == n
    ensures forall i :: 0 <= i < n ==> f[i] == Get(t, bits, i)
  {
    seq(n, i requires 0 <= i < n => Get(t, bits, i))
  }

  lemma TableAfterSet(t: seq<byte>, bits: nat, n: nat, i: nat, v: nat)
    requires forall k :: 0 <= k < n ==> InTable(t, bits, k)
    requires i < n && v < 0x1_0000 && (bits == FAT12 ==> v < 0x1000)
    ensures forall k :: 0 <= k < n ==> InTable(Set(t, bits, i, v), bits, k)
    ensures Table(Set(t, bits, i, v), bits, n) == Table(t, bits, n)[i := v]
  {
    forall k | 0 <= k < n
      ensures InTable(Set(t, bits, i, v), bits, k)
    {
      assert InTable(t, bits, k);
    }
    forall j | 0 <= j < n
      ensures Get(Set(t, bits, i, v), bits, j) == if i == j then v else Get(t, bits, j)
    {
      GetAfterSet(t, bits, i, v, j);
    }
  }
}
