/** Long file names: written by `fatfs_utils/long_filename_utils.py` and `Entry._build_entry_long`,
    read back by `get_obj_name` of `fatfsparse.py`. */
module LongNames {
  import opened Bytes
  import opened DirectoryRecords

  const DOT: byte := 0x2e
  const CHARS_PER_ENTRY: nat := 13
  const MAXIMAL_FILES_SAME_PREFIX: nat := 127

  // ---- writing ----

  /** `build_name` */
  function BuildName(name: seq<byte>, ext: seq<byte>): seq<byte> {
    if ext != [] then name + [DOT] + ext else name
  }

  /** `_is_valid_sfn`; the pattern is applied to the name only. */
  predicate IsValidSfn(name: seq<byte>, ext: seq<byte>) {
    && (forall c :: c in name ==> c !in {0x2e, 0x2b, 0x2c, 0x3b, 0x3d, 0x5b, 0x5d})
    && |name| <= MAX_NAME_SIZE && |ext| <= MAX_EXT_SIZE
  }

  /** `build_lfn_full_name`: zero-terminated unless it fills its records exactly. */
  function LfnFullName(full: seq<byte>): seq<byte> {
    if |full| % CHARS_PER_ENTRY != 0 then full + [0] else full
  }

  /** `get_required_lfn_entries_count` */
  function EntriesCount(lfn: seq<byte>): nat {
    (|lfn| + CHARS_PER_ENTRY - 1) / CHARS_PER_ENTRY
  }

  /** `name[lo:hi]` with Python's clamping */
  function Clip(s: seq<byte>, lo: nat, hi: nat): (r: seq<byte>) {
    if lo >= |s| || hi <= lo then [] else if hi >= |s| then s[lo..] else s[lo..hi]
  }

  /** Element `i` of `split_name_to_lfn_entries` */
  function Piece(lfn: seq<byte>, i: nat): (r: seq<byte>)
    ensures |r| <= CHARS_PER_ENTRY
  {
    Clip(lfn, i * CHARS_PER_ENTRY, (i + 1) * CHARS_PER_ENTRY)
  }

  function Utf16(s: seq<byte>): (r: seq<byte>)
    ensures |r| == 2 * |s|
  {
    if s == [] then [] else [s[0], 0] + Utf16(s[1..])
  }

  /** `convert_to_utf16_and_pad` followed by `lower` */
  function Block(content: seq<byte>, size: nat): (r: seq<byte>)
    requires |content| <= size
    ensures |r| == 2 * size
  {
    Lower(Utf16(content) + Repeated(0xff, 2 * (size - |content|)))
  }

  /** `_build_entry_long` on the blocks of one piece of the name */
  function LongRecord(piece: seq<byte>, order: nat, checksum: byte, isLast: bool): (r: Record)
    requires |piece| <= CHARS_PER_ENTRY && order < 0x40
  {
    var first: byte := if isLast then order + LAST_RECORD_LFN_ENTRY else order;
    [first] + Block(Clip(piece, 0, 5), 5) + [ATTR_LONG_NAME, 0, checksum]
      + Block(Clip(piece, 5, 11), 6) + [0, 0] + Block(Clip(piece, 11, 13), 2)
  }

  lemma FewPieces(full: seq<byte>)
    requires |full| <= 255
    ensures EntriesCount(LfnFullName(full)) <= 20
  {
    assert |LfnFullName(full)| <= 256;
  }

  /** The long records of a name in physical order: the last part of the name comes first. */
  function LongRecords(full: seq<byte>, checksum: byte): (r: seq<Record>)
    requires |full| <= 255
    ensures |r| == EntriesCount(LfnFullName(full))
  {
    hide LfnFullName, EntriesCount, Piece, LongRecord;
    FewPieces(full);
    var lfn := LfnFullName(full);
    var count := EntriesCount(lfn);
    seq(count, j requires 0 <= j < count => LongRecord(Piece(lfn, count - 1 - j), count - j, checksum, j == 0))
  }

  /** `build_lfn_short_entry_name` as its two fields */
  function AliasName(name: seq<byte>, order: byte): seq<byte> {
    PadString(Clip(name, 0, MAX_NAME_SIZE - 2) + [0x7e, order], MAX_NAME_SIZE)
  }

  function AliasExt(ext: seq<byte>): seq<byte> {
    PadString(Clip(ext, 0, MAX_EXT_SIZE), MAX_EXT_SIZE)
  }

  /** One turn of `lfn_checksum`: rotate right by one bit, add the character. */
  function ChecksumStep(c: byte, b: byte): byte {
    var rotated: int := (if c % 2 == 1 then 0x80 else 0) + c / 2;
    (rotated + b) % 256
  }

  /** The character is added, modulo 256, to the byte that gives the sum when its bits are turned left
      by one. */
  lemma RotatesRight(c: byte, b: byte) returns (turned: int)
    ensures 0 <= turned < 256 && (2 * turned == c || 2 * turned == 255 + c)
    ensures ChecksumStep(c, b) == turned + b || ChecksumStep(c, b) == turned + b - 256
  {
    turned := (if c % 2 == 1 then 0x80 else 0) + c / 2;
  }

  function Checksum(s: seq<byte>): byte {
    if s == [] then 0 else ChecksumStep(Checksum(s[..|s| - 1]), s[|s| - 1])
  }

  /** `lfn_checksum` */
  method LfnChecksum(shortName: seq<byte>) returns (c: byte)
    requires |shortName| == MAX_NAME_SIZE + MAX_EXT_SIZE
    ensures c == Checksum(shortName)
  {
    c := 0;
    for i := 0 to MAX_NAME_SIZE + MAX_EXT_SIZE
      invariant c == Checksum(shortName[..i])
    {
      assert shortName[..i + 1][..i] == shortName[..i];
      c := ChecksumStep(c, shortName[i]);
    }
    assert shortName[..11] == shortName;
  }

  // ---- reading ----

  /** Decoded text: UTF-16 code units. */
  type Text = seq<nat>

  function DecodeUtf16(b: seq<byte>): Text {
    if |b| < 2 then []
    else
      var lo: int, hi: int := b[0], b[1];
      [lo + 256 * hi] + DecodeUtf16(b[2..])
  }

  function StripNul(t: Text): Text {
    if t != [] && t[|t| - 1] == 0 then StripNul(t[..|t| - 1]) else t
  }

  /** `build_file_name` */
  function BuildFileName(names: seq<byte>): Text {
    StripNul(DecodeUtf16(StripTrailing(names, 0xff)))
  }

  datatype LongPart = LongPart(order: byte, names: seq<byte>, isLast: bool)

  /** `parse_entry_long`; the three names are concatenated. */
  function ParseEntryLong(r: Record, checksum: byte): Option<LongPart> {
    if r[12] != 0 || r[26] != 0 || r[27] != 0 || r[11] != 15 || r[13] != checksum then None
    else Some(LongPart(r[0], r[1..11] + r[14..26] + r[28..32], r[0] / 64 % 2 == 1))
  }

  /** The backward loop of `get_obj_name` over the records before `pos`. */
  function Scan(recs: seq<Record>, pos: nat, checksum: byte, acc: map<byte, Text>): map<byte, Text>
    requires pos <= |recs|
    decreases pos
  {
    if pos == 0 then acc
    else
      match ParseEntryLong(recs[pos - 1], checksum)
      case None => Scan(recs, pos - 1, checksum, acc)
      case Some(part) =>
        var acc' := acc[part.order := BuildFileName(part.names)];
        if part.isLast then acc' else Scan(recs, pos - 1, checksum, acc')
  }

  /** `''.join(map(lambda x: x[1], sorted(full_name.items())))`, from key `key` on */
  function Join(names: map<byte, Text>, key: nat): Text
    decreases 256 - key
  {
    if key >= 256 then []
    else (if key in names then names[key] else []) + Join(names, key + 1)
  }

  /** `DIR_Name.rstrip(' ')`, a dot, `DIR_Name_ext.rstrip(' ')` */
  function ShortName(r: Record): seq<byte> {
    var ext := StripTrailing(ExtField(r), SPACE);
    StripTrailing(NameField(r), SPACE) + if ext != [] then [DOT] + ext else []
  }

  /** `get_obj_name` for the record at `pos` */
  function ObjName(recs: seq<Record>, pos: nat, longNameSupport: bool): Text
    requires pos < |recs|
  {
    var short := ShortName(recs[pos]);
    if !longNameSupport || NtResOf(recs[pos]) == LDIR_DIR_NTRES then short
    else
      var long := Join(Scan(recs, pos, Checksum(NameField(recs[pos]) + ExtField(recs[pos])), map[]), 0);
      if long != [] then long else short
  }

  // ---- one record ----

  lemma {:induction false} Utf16Append(a: seq<byte>, b: seq<byte>)
    ensures Utf16(a + b) == Utf16(a) + Utf16(b)
  {
    if a == [] {
      assert a + b == b;
    } else {
      Utf16Append(a[1..], b);
      assert (a + b)[0] == a[0] && (a + b)[1..] == a[1..] + b;
      Regrouped([a[0], 0], Utf16(a[1..]), Utf16(b));
    }
  }

  lemma Regrouped(x: seq<byte>, y: seq<byte>, z: seq<byte>)
    ensures x + (y + z) == (x + y) + z
  {
  }

  lemma {:induction false} LowerUtf16(s: seq<byte>)
    ensures Lower(Utf16(s)) == Utf16(Lower(s))
  {
    if s != [] {
      LowerUtf16(s[1..]);
      assert Lower(s)[1..] == Lower(s[1..]);
      assert Lower(Utf16(s)) == [LowerByte(s[0]), 0] + Lower(Utf16(s[1..]));
    }
  }

  lemma LowerAppend(a: seq<byte>, b: seq<byte>)
    ensures Lower(a + b) == Lower(a) + Lower(b)
  {
  }

  lemma BlockIs(content: seq<byte>, size: nat)
    requires |content| <= size
    ensures Block(content, size) == Utf16(Lower(content)) + Repeated(0xff, 2 * (size - |content|))
  {
    LowerUtf16(content);
    LowerAppend(Utf16(content), Repeated(0xff, 2 * (size - |content|)));
    assert Lower(Repeated(0xff, 2 * (size - |content|))) == Repeated(0xff, 2 * (size - |content|));
  }

  lemma RepeatedAppend(b: byte, m: nat, n: nat)
    ensures Repeated(b, m) + Repeated(b, n) == Repeated(b, m + n)
  {
  }

  lemma PadBehind(x: seq<byte>, p: seq<byte>, q: seq<byte>, r: seq<byte>)
    ensures (x + p) + ([] + q) + ([] + r) == x + ((p + q) + r)
  {
  }

  lemma PadBehindTwo(x: seq<byte>, y: seq<byte>, p: seq<byte>, q: seq<byte>)
    ensures (x + []) + (y + p) + ([] + q) == (x + y) + (p + q)
  {
  }

  lemma PadBehindThree(x: seq<byte>, y: seq<byte>, z: seq<byte>, p: seq<byte>)
    ensures (x + []) + (y + []) + (z + p) == (x + (y + z)) + p
  {
  }

  lemma Utf16Joined(a: seq<byte>, b: seq<byte>, c: seq<byte>)
    ensures Utf16(Lower(a + (b + c))) == Utf16(Lower(a)) + (Utf16(Lower(b)) + Utf16(Lower(c)))
  {
    hide Utf16, Lower;
    LowerAppend(a, b + c);
    LowerAppend(b, c);
    Utf16Append(Lower(a), Lower(b) + Lower(c));
    Utf16Append(Lower(b), Lower(c));
  }

  /** The three blocks of a piece, read as one name field. */
  lemma BlocksJoined(piece: seq<byte>)
    requires |piece| <= CHARS_PER_ENTRY
    ensures Block(Clip(piece, 0, 5), 5) + Block(Clip(piece, 5, 11), 6) + Block(Clip(piece, 11, 13), 2)
      == Utf16(Lower(piece)) + Repeated(0xff, 2 * (CHARS_PER_ENTRY - |piece|))
  {
    hide Block, Utf16, Lower, Repeated, Clip;
    var a, b, c := Clip(piece, 0, 5), Clip(piece, 5, 11), Clip(piece, 11, 13);
    Clips(piece);
    BlockIs(a, 5);
    BlockIs(b, 6);
    BlockIs(c, 2);
    Utf16Joined(a, b, c);
    EmptyText();
    var x, y, z := Utf16(Lower(a)), Utf16(Lower(b)), Utf16(Lower(c));
    if |piece| <= 5 {
      PadBehind(x, Repeated(0xff, 2 * (5 - |a|)), Repeated(0xff, 12), Repeated(0xff, 4));
      RepeatedAppend(0xff, 2 * (5 - |a|), 12);
      RepeatedAppend(0xff, 2 * (5 - |a|) + 12, 4);
    } else if |piece| <= 11 {
      PadBehindTwo(x, y, Repeated(0xff, 2 * (6 - |b|)), Repeated(0xff, 4));
      RepeatedAppend(0xff, 2 * (6 - |b|), 4);
    } else {
      PadBehindThree(x, y, z, Repeated(0xff, 2 * (2 - |c|)));
    }
  }

  lemma Clips(piece: seq<byte>)
    requires |piece| <= CHARS_PER_ENTRY
    ensures var a, b, c := Clip(piece, 0, 5), Clip(piece, 5, 11), Clip(piece, 11, 13);
      && piece == a + (b + c)
      && |a| <= 5 && |b| <= 6 && |c| <= 2
      && (|piece| <= 5 ==> b == [] && c == [])
      && (5 < |piece| ==> |a| == 5)
      && (5 < |piece| <= 11 ==> c == [])
      && (11 < |piece| ==> |b| == 6)
  {
  }

  lemma EmptyText()
    ensures Lower([]) == [] && Utf16([]) == [] && Repeated(0xff, 0) == []
  {
  }

  lemma {:induction false} StripRepeated(s: seq<byte>, b: byte, n: nat)
    requires s != [] ==> s[|s| - 1] != b
    ensures StripTrailing(s + Repeated(b, n), b) == s
    decreases n
  {
    var t := s + Repeated(b, n);
    if n == 0 {
      assert t == s;
    } else {
      StripRepeated(s, b, n - 1);
      assert t[..|t| - 1] == s + Repeated(b, n - 1);
    }
  }

  lemma {:induction false} DecodeAfterUtf16(s: seq<byte>)
    ensures DecodeUtf16(Utf16(s)) == s
  {
    if s != [] {
      DecodeAfterUtf16(s[1..]);
      assert Utf16(s)[2..] == Utf16(s[1..]);
    }
  }

  lemma {:induction false} Utf16EndsInZero(s: seq<byte>)
    requires s != []
    ensures Utf16(s)[2 * |s| - 1] == 0
  {
    if |s| > 1 {
      Utf16EndsInZero(s[1..]);
    }
  }

  lemma ReadBackName(piece: seq<byte>)
    requires |piece| <= CHARS_PER_ENTRY
    ensures BuildFileName(Utf16(Lower(piece)) + Repeated(0xff, 2 * (CHARS_PER_ENTRY - |piece|)))
      == StripNul(Lower(piece))
  {
    if piece != [] {
      Utf16EndsInZero(Lower(piece));
    }
    StripRepeated(Utf16(Lower(piece)), 0xff, 2 * (CHARS_PER_ENTRY - |piece|));
    DecodeAfterUtf16(Lower(piece));
  }

  /** Reading one long record gives its order and the lower-cased piece of the name. */
  lemma ReadLongRecord(piece: seq<byte>, order: nat, checksum: byte, isLast: bool)
    requires |piece| <= CHARS_PER_ENTRY && order < 0x40
    ensures var p := ParseEntryLong(LongRecord(piece, order, checksum, isLast), checksum);
      && p.Some?
      && p.value.order == (if isLast then order + 64 else order)
      && p.value.isLast == isLast
      && BuildFileName(p.value.names) == StripNul(Lower(piece))
  {
    hide Block, Clip, Utf16, Lower, BuildFileName, StripNul;
    Clips(piece);
    var r := LongRecord(piece, order, checksum, isLast);
    var n0, n1, n2 := Block(Clip(piece, 0, 5), 5), Block(Clip(piece, 5, 11), 6), Block(Clip(piece, 11, 13), 2);
    assert r[1..11] == n0 && r[14..26] == n1 && r[28..32] == n2;
    BlocksJoined(piece);
    ReadBackName(piece);
  }

  // ---- the records of one name ----

  lemma CountBounds(full: seq<byte>)
    requires full != []
    ensures var count := EntriesCount(LfnFullName(full));
      && 0 < count && CHARS_PER_ENTRY * (count - 1) < |full| <= CHARS_PER_ENTRY * count
      && (|full| <= 255 ==> count <= 20)
  {
    var q, r := |full| / CHARS_PER_ENTRY, |full| % CHARS_PER_ENTRY;
    assert |full| == 13 * q + r;
  }

  /** What the reader gets from record `i`: the lower-cased characters 13i to 13i + 13. */
  function PieceText(full: seq<byte>, i: nat): Text {
    Clip(Lower(full), i * CHARS_PER_ENTRY, (i + 1) * CHARS_PER_ENTRY)
  }

  lemma NoNul(t: seq<byte>)
    requires Ascii(t)
    ensures StripNul(Lower(t)) == Lower(t) && StripNul(Lower(t) + [0]) == Lower(t)
  {
    var u := Lower(t);
    if t != [] {
      assert t[|t| - 1] in t && u[|u| - 1] != 0;
    }
    assert (u + [0])[..|u|] == u;
  }

  lemma ClipAscii(s: seq<byte>, lo: nat, hi: nat)
    requires Ascii(s)
    ensures Ascii(Clip(s, lo, hi))
  {
    var t := Clip(s, lo, hi);
    assert forall i :: 0 <= i < |t| ==> t[i] == s[lo + i] && s[lo + i] in s;
  }

  lemma ClipLower(s: seq<byte>, lo: nat, hi: nat)
    ensures Lower(Clip(s, lo, hi)) == Clip(Lower(s), lo, hi)
  {
  }

  /** A piece of the zero-terminated name is the piece of the name, or that and the zero. */
  lemma ClipTerminated(s: seq<byte>, lo: nat, hi: nat)
    requires lo <= |s| && lo < hi
    ensures hi <= |s| ==> Clip(s + [0], lo, hi) == Clip(s, lo, hi)
    ensures hi > |s| ==> Clip(s + [0], lo, hi) == Clip(s, lo, hi) + [0]
  {
  }

  lemma PieceVisible(full: seq<byte>, i: nat)
    requires Ascii(full) && full != [] && i < EntriesCount(LfnFullName(full))
    ensures |Piece(LfnFullName(full), i)| <= CHARS_PER_ENTRY
    ensures StripNul(Lower(Piece(LfnFullName(full), i))) == PieceText(full, i)
  {
    CountBounds(full);
    var lfn, lo, hi := LfnFullName(full), i * CHARS_PER_ENTRY, (i + 1) * CHARS_PER_ENTRY;
    var here := Clip(full, lo, hi);
    ClipAscii(full, lo, hi);
    ClipLower(full, lo, hi);
    NoNul(here);
    assert hi == lo + CHARS_PER_ENTRY && lo <= |full|;
    if lfn != full {
      ClipTerminated(full, lo, hi);
    }
    assert Piece(lfn, i) == here || Piece(lfn, i) == here + [0];
    assert |Piece(lfn, i)| <= CHARS_PER_ENTRY;
    hide Clip, Lower, StripNul, Ascii, LfnFullName, EntriesCount;
    LowerAppend(here, [0]);
    LowerZero();
  }

  lemma LowerZero()
    ensures Lower([0]) == [0]
  {
  }

  /** The records of `full` stand at `p` and following. */
  predicate GroupAt(recs: seq<Record>, p: nat, full: seq<byte>, checksum: byte)
    requires |full| <= 255
  {
    && p + |LongRecords(full, checksum)| <= |recs|
    && forall j :: 0 <= j < |LongRecords(full, checksum)| ==> recs[p + j] == LongRecords(full, checksum)[j]
  }

  /** The dictionary after the parts 1 to i. */
  function Collected(full: seq<byte>, i: nat): (m: map<byte, Text>)
    requires i < 64
    ensures forall k: byte :: k in m <==> 1 <= k <= i
    ensures forall k: byte :: k in m ==> m[k] == PieceText(full, k - 1)
  {
    if i == 0 then map[] else Collected(full, i - 1)[i := PieceText(full, i - 1)]
  }

  function AllCollected(full: seq<byte>): map<byte, Text>
    requires 0 < |full| <= 255
  {
    CountBounds(full);
    var count := EntriesCount(LfnFullName(full));
    Collected(full, count - 1)[count + 64 := PieceText(full, count - 1)]
  }

  /** The scan meets parts 1, 2, ... in this order and stops at the last part. */
  lemma {:induction false} ScanGroup(recs: seq<Record>, p: nat, full: seq<byte>, checksum: byte, i: nat)
    requires Ascii(full) && 0 < |full| <= 255 && GroupAt(recs, p, full, checksum)
    requires i < |LongRecords(full, checksum)| && i < 64
    ensures Scan(recs, p + |LongRecords(full, checksum)| - i, checksum, Collected(full, i)) == AllCollected(full)
    decreases |LongRecords(full, checksum)| - i
  {
    hide Scan, LongRecord, ParseEntryLong, BuildFileName, Piece, EntriesCount, LfnFullName;
    var lfn := LfnFullName(full);
    var count := EntriesCount(lfn);
    var j := count - 1 - i;
    CountBounds(full);
    PieceVisible(full, i);
    ReadLongRecord(Piece(lfn, i), i + 1, checksum, j == 0);
    assert recs[p + j] == LongRecords(full, checksum)[j];
    assert recs[p + j] == LongRecord(Piece(lfn, i), i + 1, checksum, j == 0);
    ScanStep(recs, p + j + 1, checksum, Collected(full, i));
    if j > 0 {
      ScanGroup(recs, p, full, checksum, i + 1);
    }
  }

  lemma ScanStep(recs: seq<Record>, pos: nat, checksum: byte, acc: map<byte, Text>)
    requires 0 < pos <= |recs|
    ensures Scan(recs, pos, checksum, acc) ==
      match ParseEntryLong(recs[pos - 1], checksum)
      case None => Scan(recs, pos - 1, checksum, acc)
      case Some(part) =>
        var acc' := acc[part.order := BuildFileName(part.names)];
        if part.isLast then acc' else Scan(recs, pos - 1, checksum, acc')
  {
  }

  lemma {:induction false} JoinSkips(names: map<byte, Text>, a: nat, b: nat)
    requires a <= b <= 256 && forall k: byte :: a <= k < b ==> k !in names
    ensures Join(names, a) == Join(names, b)
    decreases b - a
  {
    if a < b {
      JoinSkips(names, a + 1, b);
    }
  }

  lemma JoinHere(names: map<byte, Text>, key: byte)
    requires key in names
    ensures Join(names, key) == names[key] + Join(names, key + 1)
  {
  }

  lemma CollectedAt(full: seq<byte>, k: nat)
    requires 0 < |full| <= 255 && 1 <= k <= EntriesCount(LfnFullName(full))
    ensures EntriesCount(LfnFullName(full)) <= 20
    ensures var count, all := EntriesCount(LfnFullName(full)), AllCollected(full);
      && (k < count ==> k in all && all[k] == PieceText(full, k - 1))
      && count + 64 in all && all[count + 64] == PieceText(full, count - 1)
      && forall x: byte :: x in all ==> x == count + 64 || 1 <= x < count
  {
    CountBounds(full);
    hide EntriesCount, LfnFullName, PieceText;
  }

  lemma PieceAt(full: seq<byte>, k: nat)
    requires full != [] && 1 <= k <= EntriesCount(LfnFullName(full))
    ensures CHARS_PER_ENTRY * (k - 1) <= |full|
    ensures k < EntriesCount(LfnFullName(full)) ==>
      CHARS_PER_ENTRY * k <= |full|
        && PieceText(full, k - 1) + Lower(full)[CHARS_PER_ENTRY * k..] == Lower(full)[CHARS_PER_ENTRY * (k - 1)..]
    ensures k == EntriesCount(LfnFullName(full)) ==> PieceText(full, k - 1) == Lower(full)[CHARS_PER_ENTRY * (k - 1)..]
  {
    CountBounds(full);
    hide EntriesCount, LfnFullName, LowerByte;
    assert CHARS_PER_ENTRY * k == CHARS_PER_ENTRY * (k - 1) + 13;
  }

  lemma {:induction false} JoinPieces(full: seq<byte>, k: nat)
    requires 0 < |full| <= 255 && 1 <= k <= EntriesCount(LfnFullName(full))
    ensures CHARS_PER_ENTRY * (k - 1) <= |full|
    ensures Join(AllCollected(full), k) == Lower(full)[CHARS_PER_ENTRY * (k - 1)..]
    decreases EntriesCount(LfnFullName(full)) - k
  {
    hide EntriesCount, LfnFullName, PieceText, Lower, AllCollected;
    var count := EntriesCount(LfnFullName(full));
    var all := AllCollected(full);
    CollectedAt(full, k);
    PieceAt(full, k);
    if k < count {
      JoinHere(all, k);
      hide Join;
      JoinPieces(full, k + 1);
    } else {
      NothingFrom(all);
      JoinHere(all, count + 64);
      hide Join;
      JoinSkips(all, count, count + 64);
      JoinSkips(all, count + 65, 256);
      assert PieceText(full, count - 1) + [] == PieceText(full, count - 1);
    }
  }

  lemma {:induction false} NothingFrom(names: map<byte, Text>)
    ensures Join(names, 256) == []
  {
  }

  /** The long-name round trip. Whatever precedes the group, the reader's backward scan from the
      short record behind it gives the lower-cased full name, for every ASCII name of 1 to 255
      characters, multiples of 13 included. */
  lemma {:induction false} LongNameRoundTrip(recs: seq<Record>, p: nat, full: seq<byte>, checksum: byte)
    requires Ascii(full) && 0 < |full| <= 255 && GroupAt(recs, p, full, checksum)
    ensures Join(Scan(recs, p + |LongRecords(full, checksum)|, checksum, map[]), 0) == Lower(full)
  {
    hide Scan, GroupAt, LongRecords, AllCollected;
    CountBounds(full);
    assert Collected(full, 0) == map[];
    ScanGroup(recs, p, full, checksum, 0);
    JoinPieces(full, 1);
    NoKeyZero(full);
    JoinSkips(AllCollected(full), 0, 1);
    assert Lower(full)[0..] == Lower(full);
  }

  lemma NoKeyZero(full: seq<byte>)
    requires 0 < |full| <= 255
    ensures 0 !in AllCollected(full)
  {
    CountBounds(full);
  }
}
