/** The 32-byte directory records of `fatfs_utils/entry.py`. Names are sequences of ASCII codes. */
module DirectoryRecords {
  import opened Bytes
  import opened Outcome

  const ATTR_DIRECTORY: byte := 0x10
  const ATTR_ARCHIVE: byte := 0x20
  const ATTR_LONG_NAME: byte := 0x0f
  const MAX_NAME_SIZE: nat := 8
  const MAX_EXT_SIZE: nat := 3
  const SPACE: byte := 0x20
  const LDIR_DIR_NTRES: byte := 0x18
  const LAST_RECORD_LFN_ENTRY: nat := 0x40

  type Record = r: seq<byte> | |r| == 32 witness Repeated(0, 32)

  // ---- names ----

  predicate Ascii(s: seq<byte>) {
    forall c :: c in s ==> 0 < c < 128
  }

  function UpperByte(b: byte): byte { if 97 <= b <= 122 then b - 32 else b }
  function LowerByte(b: byte): byte { if 65 <= b <= 90 then b + 32 else b }

  function Upper(s: seq<byte>): (r: seq<byte>)
    ensures |r| == |s|
  {
    seq(|s|, i requires 0 <= i < |s| => UpperByte(s[i]))
  }

  function Lower(s: seq<byte>): (r: seq<byte>)
    ensures |r| == |s|
    ensures forall i :: 0 <= i < |s| ==> r[i] == LowerByte(s[i])
  {
    seq(|s|, i requires 0 <= i < |s| => LowerByte(s[i]))
  }

  /** `is_valid_fatfs_name` */
  predicate IsValidFatfsName(s: seq<byte>) { s == Upper(s) }

  /** `pad_string` with blanks */
  function PadString(s: seq<byte>, size: nat): (r: seq<byte>)
    ensures |r| == size
  {
    if |s| >= size then s[..size] else s + Repeated(SPACE, size - |s|)
  }

  /** `rstrip` of one byte value */
  function StripTrailing(s: seq<byte>, b: byte): (r: seq<byte>)
    ensures r <= s
  {
    if s != [] && s[|s| - 1] == b then StripTrailing(s[..|s| - 1], b) else s
  }

  // ---- short records ----

  datatype Stamp = Stamp(date: nat, time: nat) {
    predicate Fits() { date < 0x1_0000 && time < 0x1_0000 }
  }

  /** 1 January 1980, 00:00:00 */
  const DEFAULT_STAMP: Stamp := Stamp(0x21, 0)

  datatype Short = Short(
    name: seq<byte>,
    ext: seq<byte>,
    attr: byte,
    ntRes: byte,
    created: Stamp,
    accessed: nat,
    written: Stamp,
    cluster: nat,
    size: nat)
  {
    predicate Fits() {
      && |name| <= MAX_NAME_SIZE && |ext| <= MAX_EXT_SIZE
      && created.Fits() && written.Fits() && accessed < 0x1_0000
      && cluster < 0x1_0000 && size < 0x1_0000_0000
    }

    /** Both strings are what a padded field can give back: decodable and not ending in a zero byte. */
    predicate Plain() { PlainText(name) && PlainText(ext) }
  }

  /** ASCII, and without trailing zero bytes. */
  predicate PlainText(s: seq<byte>) {
    (forall i :: 0 <= i < |s| ==> s[i] < 128) && (s != [] ==> s[|s| - 1] != 0)
  }

  /** Building a `PaddedString`: zero bytes fill the field. */
  function ZeroPad(s: seq<byte>, size: nat): (r: seq<byte>)
    requires |s| <= size
    ensures |r| == size
  {
    s + Zeros(size - |s|)
  }

  /** `_build_entry` */
  function BuildEntry(s: Short): (r: Record)
    requires s.Fits()
  {
    ZeroPad(s.name, MAX_NAME_SIZE) + ZeroPad(s.ext, MAX_EXT_SIZE) + [s.attr, s.ntRes, 0]
      + Le16(s.created.time) + Le16(s.created.date) + Le16(s.accessed) + [0, 0]
      + Le16(s.written.time) + Le16(s.written.date) + Le16(s.cluster) + Le32(s.size)
  }

  /** The constant fields of the short layout hold their constants. */
  predicate IsShort(r: Record) { r[13] == 0 && r[20] == 0 && r[21] == 0 }

  function AttrOf(r: Record): byte { r[11] }
  function NtResOf(r: Record): byte { r[12] }
  function ClusterOf(r: Record): nat { FromLe16(r[26..28]) }
  function SizeOf(r: Record): nat { FromLe32(r[28..32]) }
  function NameField(r: Record): seq<byte> { r[..8] }
  function ExtField(r: Record): seq<byte> { r[8..11] }

  /** The record parses as a short record: constants in place, names decodable. */
  predicate Parses(r: Record) {
    IsShort(r) && forall i :: 0 <= i < 11 ==> r[i] < 128
  }

  lemma {:induction false} StripPlain(s: seq<byte>)
    requires forall i :: 0 <= i < |s| ==> s[i] < 128
    ensures PlainText(StripTrailing(s, 0))
  {
    if s != [] && s[|s| - 1] == 0 {
      StripPlain(s[..|s| - 1]);
    }
  }

  /** `_parse_entry`; a wrong constant field or text that does not decode raises. A padded field
      loses its trailing zero bytes. */
  function ParseEntry(r: Record): (s: Option<Short>)
    ensures s.Some? <==> Parses(r)
    ensures s.Some? ==> s.value.Fits() && s.value.Plain()
  {
    if Parses(r) then
      StripPlain(NameField(r));
      StripPlain(ExtField(r));
      Some(Short(StripTrailing(NameField(r), 0), StripTrailing(ExtField(r), 0), AttrOf(r), NtResOf(r),
                 Stamp(FromLe16(r[16..18]), FromLe16(r[14..16])), FromLe16(r[18..20]),
                 Stamp(FromLe16(r[24..26]), FromLe16(r[22..24])), ClusterOf(r), SizeOf(r)))
    else None
  }

  lemma Le16Inverse(b: seq<byte>)
    requires |b| == 2
    ensures Le16(FromLe16(b)) == b
  {
  }

  lemma Le32Inverse(b: seq<byte>)
    requires |b| == 4
    ensures Le32(FromLe32(b)) == b
  {
    Le16Inverse(b[..2]);
    Le16Inverse(b[2..]);
    assert FromLe32(b) % 0x1_0000 == FromLe16(b[..2]) && FromLe32(b) / 0x1_0000 == FromLe16(b[2..]);
  }

  lemma {:induction false} StripPadding(s: seq<byte>, size: nat)
    requires PlainText(s) && |s| <= size
    ensures StripTrailing(ZeroPad(s, size), 0) == s
    decreases size
  {
    if |s| < size {
      assert ZeroPad(s, size)[..size - 1] == ZeroPad(s, size - 1);
      StripPadding(s, size - 1);
    } else {
      assert ZeroPad(s, size) == s;
    }
  }

  lemma {:induction false} PadStripped(field: seq<byte>, size: nat)
    requires |field| <= size
    ensures ZeroPad(StripTrailing(field, 0), size) == ZeroPad(field, size)
    decreases |field|
  {
    if field != [] && field[|field| - 1] == 0 {
      PadStripped(field[..|field| - 1], size);
      assert ZeroPad(field[..|field| - 1], size) == ZeroPad(field, size);
    }
  }

  /** Where the fields stand. */
  lemma BuiltFields(s: Short)
    requires s.Fits()
    ensures var r := BuildEntry(s);
      && IsShort(r) && NameField(r) == ZeroPad(s.name, MAX_NAME_SIZE) && ExtField(r) == ZeroPad(s.ext, MAX_EXT_SIZE)
      && AttrOf(r) == s.attr && NtResOf(r) == s.ntRes && ClusterOf(r) == s.cluster && SizeOf(r) == s.size
      && FromLe16(r[14..16]) == s.created.time && FromLe16(r[16..18]) == s.created.date
      && FromLe16(r[18..20]) == s.accessed
      && FromLe16(r[22..24]) == s.written.time && FromLe16(r[24..26]) == s.written.date
  {
    hide Le16, Le32, FromLe16, FromLe32, ZeroPad;
    var r := BuildEntry(s);
    assert NameField(r) == ZeroPad(s.name, MAX_NAME_SIZE) && ExtField(r) == ZeroPad(s.ext, MAX_EXT_SIZE);
    assert r[14..16] == Le16(s.created.time) && r[16..18] == Le16(s.created.date);
    assert r[18..20] == Le16(s.accessed);
    assert r[22..24] == Le16(s.written.time) && r[24..26] == Le16(s.written.date);
    assert r[26..28] == Le16(s.cluster) && r[28..32] == Le32(s.size);
    Le16RoundTrip(s.created.time);
    Le16RoundTrip(s.created.date);
    Le16RoundTrip(s.accessed);
    Le16RoundTrip(s.written.time);
    Le16RoundTrip(s.written.date);
    Le16RoundTrip(s.cluster);
    Le32RoundTrip(s.size);
  }

  /** The 32 bytes of a built record, one by one. */
  lemma RecordBytes(s: Short)
    requires s.Fits()
    ensures var r := BuildEntry(s);
      && (forall i :: 0 <= i < 8 ==> r[i] == if i < |s.name| then s.name[i] else 0)
      && (forall i :: 8 <= i < 11 ==> r[i] == if i - 8 < |s.ext| then s.ext[i - 8] else 0)
      && r[11] == s.attr && r[12] == s.ntRes && r[13] == 0
      && Number(r[14], r[15]) == s.created.time && Number(r[16], r[17]) == s.created.date
      && Number(r[18], r[19]) == s.accessed && r[20] == r[21] == 0
      && Number(r[22], r[23]) == s.written.time && Number(r[24], r[25]) == s.written.date
      && Number(r[26], r[27]) == s.cluster
      && Number(r[28], r[29]) + 0x1_0000 * Number(r[30], r[31]) == s.size
  {
    hide BuildEntry, FromLe16, FromLe32, NameField, ExtField, ZeroPad;
    BuiltFields(s);
    var r := BuildEntry(s);
    NumberAt(r, 14);
    NumberAt(r, 16);
    NumberAt(r, 18);
    NumberAt(r, 22);
    NumberAt(r, 24);
    NumberAt(r, 26);
    NumberAt(r, 28);
    FieldBytes(r, ZeroPad(s.name, 8), ZeroPad(s.ext, 3));
    PaddedBytes(s.name, 8);
    PaddedBytes(s.ext, 3);
    Reserved20(s);
  }

  lemma NumberAt(r: Record, i: nat)
    requires i + 2 <= 32
    ensures FromLe16(r[i..i + 2]) == Number(r[i], r[i + 1])
    ensures i == 28 ==> FromLe32(r[28..32]) == Number(r[28], r[29]) + 0x1_0000 * Number(r[30], r[31])
  {
    if i == 28 {
      LittleEndian(r[28..32]);
    }
  }

  lemma Reserved20(s: Short)
    requires s.Fits()
    ensures BuildEntry(s)[20] == BuildEntry(s)[21] == 0
  {
  }

  lemma FieldBytes(r: Record, name: seq<byte>, ext: seq<byte>)
    requires NameField(r) == name && ExtField(r) == ext
    ensures (forall i :: 0 <= i < 8 ==> r[i] == name[i]) && forall i :: 8 <= i < 11 ==> r[i] == ext[i - 8]
  {
  }

  lemma PaddedBytes(s: seq<byte>, size: nat)
    requires |s| <= size
    ensures forall i :: 0 <= i < size ==> ZeroPad(s, size)[i] == if i < |s| then s[i] else 0
  {
  }

  lemma BuiltParses(s: Short)
    requires s.Fits() && s.Plain()
    ensures Parses(BuildEntry(s))
  {
    hide BuildEntry;
    BuiltFields(s);
    var r := BuildEntry(s);
    assert forall i :: 0 <= i < 8 ==> r[i] == NameField(r)[i];
    assert forall i :: 8 <= i < 11 ==> r[i] == ExtField(r)[i - 8];
  }

  /** A built record parses back to its fields exactly if its strings are ASCII and do not end in
      a zero byte. */
  lemma ParseAfterBuild(s: Short)
    requires s.Fits()
    ensures ParseEntry(BuildEntry(s)) == Some(s) <==> s.Plain()
  {
    hide BuildEntry, StripTrailing, PlainText, ZeroPad;
    BuiltFields(s);
    if s.Plain() {
      BuiltParses(s);
      StripPadding(s.name, MAX_NAME_SIZE);
      StripPadding(s.ext, MAX_EXT_SIZE);
    }
  }

  /** A record that parses is built again from its fields, byte for byte. */
  lemma BuildAfterParse(r: Record)
    requires Parses(r)
    ensures BuildEntry(ParseEntry(r).value) == r
  {
    hide Le16, Le32, FromLe16, FromLe32, StripTrailing;
    Le16Inverse(r[14..16]);
    Le16Inverse(r[16..18]);
    Le16Inverse(r[18..20]);
    Le16Inverse(r[22..24]);
    Le16Inverse(r[24..26]);
    Le16Inverse(r[26..28]);
    Le32Inverse(r[28..32]);
    PadStripped(NameField(r), MAX_NAME_SIZE);
    PadStripped(ExtField(r), MAX_EXT_SIZE);
    assert ZeroPad(NameField(r), MAX_NAME_SIZE) == r[..8] && ZeroPad(ExtField(r), MAX_EXT_SIZE) == r[8..11];
  }

  /** A record whose size field is replaced. */
  function WithSize(r: Record, size: nat): (q: Record)
    requires size < 0x1_0000_0000
  {
    r[..28] + Le32(size)
  }

  lemma SizeFields(r: Record, size: nat)
    requires size < 0x1_0000_0000
    ensures SizeOf(WithSize(r, size)) == size && ClusterOf(WithSize(r, size)) == ClusterOf(r)
    ensures IsShort(WithSize(r, size)) == IsShort(r) && AttrOf(WithSize(r, size)) == AttrOf(r)
  {
    Le32RoundTrip(size);
    assert WithSize(r, size)[28..32] == Le32(size);
    assert WithSize(r, size)[26..28] == r[26..28];
  }

  /** `update_content_size`: parse, replace the size, build again. It changes bytes 28..32 only. */
  lemma UpdateContentSize(r: Record, size: nat)
    requires Parses(r) && size < 0x1_0000_0000
    ensures BuildEntry(ParseEntry(r).value.(size := size)) == WithSize(r, size)
    ensures SizeOf(WithSize(r, size)) == size && Parses(WithSize(r, size))
  {
    hide ParseEntry;
    var s := ParseEntry(r).value;
    BuildAfterParse(r);
    assert BuildEntry(s)[..28] == BuildEntry(s.(size := size))[..28];
    SizeFields(r, size);
  }

  /** `allocate_entry` for a short record: the checks, then the bytes. `alias` is the short
      record of a long name, for which lower case is let through (`lfn_order >= 0`). */
  function ShortRecord(longNames: bool, name: seq<byte>, ext: seq<byte>, attr: byte, cluster: nat,
                       stamp: Stamp, fitsShort: bool, alias: bool): (r: Result<Record>)
    requires stamp.Fits() && cluster < 0x1_0000
  {
    if !alias && !(IsValidFatfsName(name) && IsValidFatfsName(ext)) then Err(LowerCase)
    else
      var objectName := if longNames then name else Upper(name);
      var objectExt := if longNames then ext else Upper(ext);
      if !longNames && (|objectName| > MAX_NAME_SIZE || |objectExt| > MAX_EXT_SIZE) then Err(TooLongName)
      else
        Ok(BuildEntry(Short(PadString(objectName, MAX_NAME_SIZE), PadString(objectExt, MAX_EXT_SIZE), attr,
                            if longNames && fitsShort then LDIR_DIR_NTRES else 0,
                            stamp, stamp.date, stamp, cluster, 0)))
  }

  /** What a reader finds in a record written by `allocate_entry`. */
  lemma ShortRecordFields(longNames: bool, name: seq<byte>, ext: seq<byte>, attr: byte, cluster: nat,
                          stamp: Stamp, fitsShort: bool, alias: bool)
    requires stamp.Fits() && cluster < 0x1_0000
    requires ShortRecord(longNames, name, ext, attr, cluster, stamp, fitsShort, alias).Ok?
    ensures var r := ShortRecord(longNames, name, ext, attr, cluster, stamp, fitsShort, alias).value;
      && IsShort(r) && AttrOf(r) == attr && ClusterOf(r) == cluster && SizeOf(r) == 0
      && NtResOf(r) == (if longNames && fitsShort then LDIR_DIR_NTRES else 0)
      && NameField(r) == PadString(if longNames then name else Upper(name), MAX_NAME_SIZE)
      && ExtField(r) == PadString(if longNames then ext else Upper(ext), MAX_EXT_SIZE)
  {
    var objectName := if longNames then name else Upper(name);
    var objectExt := if longNames then ext else Upper(ext);
    var s := Short(PadString(objectName, MAX_NAME_SIZE), PadString(objectExt, MAX_EXT_SIZE), attr,
                   if longNames && fitsShort then LDIR_DIR_NTRES else 0,
                   stamp, stamp.date, stamp, cluster, 0);
    BuiltFields(s);
    assert ZeroPad(s.name, MAX_NAME_SIZE) == s.name && ZeroPad(s.ext, MAX_EXT_SIZE) == s.ext;
  }

  /** The record of a new object: its kind, its first cluster, size 0, and three times its time stamp, the
      second time only the date. */
  predicate Describes(r: Record, attr: byte, cluster: nat, stamp: Stamp) {
    && r[11] == attr && Number(r[26], r[27]) == cluster && r[28..32] == [0, 0, 0, 0]
    && Number(r[14], r[15]) == stamp.time && Number(r[16], r[17]) == stamp.date && Number(r[18], r[19]) == stamp.date
    && Number(r[22], r[23]) == stamp.time && Number(r[24], r[25]) == stamp.date
  }

  lemma ShortRecordDescribes(longNames: bool, name: seq<byte>, ext: seq<byte>, attr: byte, cluster: nat,
                             stamp: Stamp, fitsShort: bool, alias: bool)
    requires stamp.Fits() && cluster < 0x1_0000
    requires ShortRecord(longNames, name, ext, attr, cluster, stamp, fitsShort, alias).Ok?
    ensures var r := ShortRecord(longNames, name, ext, attr, cluster, stamp, fitsShort, alias).value;
      Describes(r, attr, cluster, stamp)
  {
    hide BuildEntry, PadString;
    var objectName := if longNames then name else Upper(name);
    var objectExt := if longNames then ext else Upper(ext);
    var s := Short(PadString(objectName, MAX_NAME_SIZE), PadString(objectExt, MAX_EXT_SIZE), attr,
                   if longNames && fitsShort then LDIR_DIR_NTRES else 0,
                   stamp, stamp.date, stamp, cluster, 0);
    RecordBytes(s);
  }
}
