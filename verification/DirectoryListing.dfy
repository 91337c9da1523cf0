/** What a reader finds in the records of one directory: which records are objects, and their
    names. `fatfsparse.py`, `get_obj_name` and the checks of `traverse_folder_tree`. */
module DirectoryListing {
  import opened Bytes
  import opened DirectoryRecords
  import opened LongNames
  import opened NameTree
  import opened FileSystem
  import opened FileSystemInvariant

  /** A record the reader treats as a file or directory. */
  predicate IsObject(r: Record) {
    IsShort(r) && (AttrOf(r) == ATTR_ARCHIVE || AttrOf(r) == ATTR_DIRECTORY)
  }

  /** The positions of the object records among the first `n`. */
  function Listing(recs: seq<Record>, n: nat): (l: seq<nat>)
    requires n <= |recs|
    ensures forall i :: 0 <= i < |l| ==> l[i] < n && IsObject(recs[l[i]])
  {
    if n == 0 then []
    else Listing(recs, n - 1) + if IsObject(recs[n - 1]) then [n - 1] else []
  }

  /** The name a reader shows: the blank-stripped short name, or the lower-cased long name. */
  function Display(longNames: bool, name: seq<byte>, ext: seq<byte>): seq<byte> {
    if !longNames || IsValidSfn(name, ext) then
      var e := StripTrailing(ext, SPACE);
      StripTrailing(name, SPACE) + if e != [] then [DOT] + e else []
    else Lower(BuildName(name, ext))
  }

  // ---- names depend on the records up to the object's own, without their size fields ----

  predicate SameNames(a: seq<Record>, b: seq<Record>, n: nat) {
    n <= |a| && n <= |b| && forall i :: 0 <= i < n ==> Mask(a[i]) == Mask(b[i])
  }

  lemma MaskedFields(a: Record, b: Record, checksum: byte)
    requires Mask(a) == Mask(b)
    ensures a[..28] == b[..28]
    ensures ParseEntryLong(a, checksum) == ParseEntryLong(b, checksum)
    ensures ShortName(a) == ShortName(b) && NameField(a) == NameField(b) && ExtField(a) == ExtField(b)
    ensures NtResOf(a) == NtResOf(b) && AttrOf(a) == AttrOf(b) && IsShort(a) == IsShort(b)
    ensures ClusterOf(a) == ClusterOf(b)
  {
    assert a[..28] == Mask(a)[..28] && b[..28] == Mask(b)[..28];
    assert forall i :: 0 <= i < 28 ==> a[i] == a[..28][i] && b[i] == b[..28][i];
    assert NameField(a) == NameField(b) && ExtField(a) == ExtField(b);
    assert a[26..28] == b[26..28];
    if AttrOf(a) == ATTR_LONG_NAME {
      assert a == b;
    }
  }

  lemma {:induction false} ScanSame(a: seq<Record>, b: seq<Record>, pos: nat, checksum: byte, acc: map<byte, Text>)
    requires SameNames(a, b, pos)
    ensures Scan(a, pos, checksum, acc) == Scan(b, pos, checksum, acc)
    decreases pos
  {
    if pos > 0 {
      MaskedFields(a[pos - 1], b[pos - 1], checksum);
      match ParseEntryLong(a[pos - 1], checksum)
      case None => ScanSame(a, b, pos - 1, checksum, acc);
      case Some(part) =>
        if !part.isLast {
          ScanSame(a, b, pos - 1, checksum, acc[part.order := BuildFileName(part.names)]);
        }
    }
  }

  lemma ObjNameSame(a: seq<Record>, b: seq<Record>, k: nat, support: bool)
    requires SameNames(a, b, k + 1)
    ensures ObjName(a, k, support) == ObjName(b, k, support)
  {
    var checksum := Checksum(NameField(a[k]) + ExtField(a[k]));
    MaskedFields(a[k], b[k], checksum);
    ScanSame(a, b, k, checksum, map[]);
  }

  lemma {:induction false} ListingSame(a: seq<Record>, b: seq<Record>, n: nat)
    requires SameNames(a, b, n)
    ensures Listing(a, n) == Listing(b, n)
    decreases n
  {
    if n > 0 {
      ListingSame(a, b, n - 1);
      MaskedFields(a[n - 1], b[n - 1], 0);
    }
  }

  /** Records that are no objects add nothing. */
  lemma {:induction false} ListingSkips(recs: seq<Record>, m: nat, n: nat)
    requires m <= n <= |recs| && forall i :: m <= i < n ==> !IsObject(recs[i])
    ensures Listing(recs, n) == Listing(recs, m)
    decreases n
  {
    if m < n {
      ListingSkips(recs, m, n - 1);
    }
  }

  // ---- the name of a new object ----

  lemma {:induction false} ScanShort(recs: seq<Record>, pos: nat, checksum: byte, acc: map<byte, Text>)
    requires pos <= |recs| && forall i :: 0 <= i < pos ==> AttrOf(recs[i]) != ATTR_LONG_NAME
    ensures Scan(recs, pos, checksum, acc) == acc
    decreases pos
  {
    if pos > 0 {
      ScanShort(recs, pos - 1, checksum, acc);
    }
  }

  lemma {:induction false} JoinEmpty(key: nat)
    ensures Join(map[], key) == []
    decreases 256 - key
  {
    if key < 256 {
      JoinEmpty(key + 1);
    }
  }

  lemma {:induction false} StripPadded(s: seq<byte>, size: nat)
    requires |s| <= size
    ensures StripTrailing(PadString(s, size), SPACE) == StripTrailing(s, SPACE)
  {
    hide StripTrailing;
    if |s| < size {
      StripBlanks(s, size - |s|);
    } else {
      assert PadString(s, size) == s;
    }
  }

  lemma {:induction false} StripBlanks(s: seq<byte>, n: nat)
    ensures StripTrailing(s + Repeated(SPACE, n), SPACE) == StripTrailing(s, SPACE)
    decreases n
  {
    var t := s + Repeated(SPACE, n);
    if n == 0 {
      assert t == s;
    } else {
      StripBlanks(s, n - 1);
      assert t[..|t| - 1] == s + Repeated(SPACE, n - 1);
    }
  }

  /** A short object is shown under its own name. */
  lemma {:induction false} ShortNameRead(longNames: bool, before: seq<Record>, name: seq<byte>, ext: seq<byte>,
                                         attr: byte, cluster: nat, stamp: Stamp, fits: bool, support: bool)
    requires stamp.Fits() && cluster < 0x1_0000
    requires ShortRecord(longNames, name, ext, attr, cluster, stamp, fits, false).Ok?
    requires |name| <= MAX_NAME_SIZE && |ext| <= MAX_EXT_SIZE
    requires (longNames && fits) || forall r :: r in before ==> AttrOf(r) != ATTR_LONG_NAME
    ensures var r := ShortRecord(longNames, name, ext, attr, cluster, stamp, fits, false).value;
      var e := StripTrailing(ext, SPACE);
      ObjName(before + [r], |before|, support) == StripTrailing(name, SPACE) + if e != [] then [DOT] + e else []
  {
    var r := ShortRecord(longNames, name, ext, attr, cluster, stamp, fits, false).value;
    ShortRecordFields(longNames, name, ext, attr, cluster, stamp, fits, false);
    StripPadded(name, MAX_NAME_SIZE);
    StripPadded(ext, MAX_EXT_SIZE);
    if !(longNames && fits) {
      var recs := before + [r];
      forall i | 0 <= i < |before|
        ensures AttrOf(recs[i]) != ATTR_LONG_NAME
      {
        assert recs[i] in before;
      }
      ScanShort(recs, |before|, Checksum(NameField(r) + ExtField(r)), map[]);
      JoinEmpty(0);
    }
  }

  /** A long-named object is shown under its lower-cased full name. */
  lemma LongNameRead(before: seq<Record>, siblings: nat, name: seq<byte>, ext: seq<byte>, attr: byte,
                     cluster: nat, stamp: Stamp)
    requires stamp.Fits() && cluster < 0x1_0000 && Ascii(name) && Ascii(ext)
    requires |BuildName(name, ext)| <= 255 && !IsValidSfn(name, ext)
    requires EntryRecords(true, siblings, name, ext, attr, cluster, stamp).Ok?
    ensures var recs := EntryRecords(true, siblings, name, ext, attr, cluster, stamp).value;
      ObjName(before + recs, |before| + |recs| - 1, true) == Lower(BuildName(name, ext))
  {
    hide Scan, Join, LongRecords, ShortRecord, Checksum, IsValidSfn, Lower;
    var full := BuildName(name, ext);
    var recs := EntryRecords(true, siblings, name, ext, attr, cluster, stamp).value;
    var aliasName, aliasExt := AliasName(name, siblings + 1), AliasExt(ext);
    var checksum := Checksum(aliasName + aliasExt);
    ShortRecordFields(true, aliasName, aliasExt, attr, cluster, stamp, false, true);
    FullNameAscii(name, ext);
    var all := before + recs;
    var last := |all| - 1;
    assert NameField(all[last]) == aliasName && ExtField(all[last]) == aliasExt;
    GroupInPlace(before, full, checksum, recs[|recs| - 1]);
    assert all == before + (LongRecords(full, checksum) + [recs[|recs| - 1]]);
    LongNameRoundTrip(all, |before|, full, checksum);
    LowerNonEmpty(full);
  }

  lemma LowerNonEmpty(s: seq<byte>)
    requires s != []
    ensures Lower(s) != []
  {
  }

  lemma FullNameAscii(name: seq<byte>, ext: seq<byte>)
    requires Ascii(name) && Ascii(ext)
    ensures Ascii(BuildName(name, ext))
    ensures !IsValidSfn(name, ext) ==> BuildName(name, ext) != []
  {
  }

  lemma GroupInPlace(before: seq<Record>, full: seq<byte>, checksum: byte, short: Record)
    requires |full| <= 255
    ensures GroupAt(before + (LongRecords(full, checksum) + [short]), |before|, full, checksum)
  {
    hide LongRecords;
  }

  /** The reader's name for a new object, whatever the directory held before. */
  lemma NewNameRead(longNames: bool, before: seq<Record>, siblings: nat, name: seq<byte>, ext: seq<byte>,
                    attr: byte, cluster: nat, stamp: Stamp, support: bool)
    requires stamp.Fits() && cluster < 0x1_0000 && Ascii(name) && Ascii(ext) && |BuildName(name, ext)| <= 255
    requires EntryRecords(longNames, siblings, name, ext, attr, cluster, stamp).Ok?
    requires longNames ==> support
    requires !longNames ==> forall r :: r in before ==> AttrOf(r) != ATTR_LONG_NAME
    ensures var recs := EntryRecords(longNames, siblings, name, ext, attr, cluster, stamp).value;
      ObjName(before + recs, |before| + |recs| - 1, support) == Display(longNames, name, ext)
  {
    hide ObjName, ShortRecord, Lower, LongRecords;
    if !longNames || IsValidSfn(name, ext) {
      ShortLengths(longNames, name, ext, attr, cluster, stamp);
      ShortNameRead(longNames, before, name, ext, attr, cluster, stamp, true, support);
    } else {
      LongNameRead(before, siblings, name, ext, attr, cluster, stamp);
    }
  }

  lemma ShortLengths(longNames: bool, name: seq<byte>, ext: seq<byte>, attr: byte, cluster: nat, stamp: Stamp)
    requires stamp.Fits() && cluster < 0x1_0000 && (longNames ==> IsValidSfn(name, ext))
    requires ShortRecord(longNames, name, ext, attr, cluster, stamp, true, false).Ok?
    ensures |name| <= MAX_NAME_SIZE && |ext| <= MAX_EXT_SIZE
  {
  }

  // ---- the listing of a directory ----

  /** The name fields are ASCII without zero bytes. */
  predicate CleanName(r: Record) {
    forall i :: 0 <= i < 11 ==> 0 < r[i] < 128
  }

  /** A record that is no object is a long-name record; its byte 10 is the upper half of a
      character or padding. */
  predicate LongShape(r: Record) {
    AttrOf(r) == ATTR_LONG_NAME && (r[10] == 0 || r[10] == 0xff)
  }

  /** The record of an object is clean, every other record has the long shape. */
  predicate Shapes(log: seq<Record>) {
    forall r :: r in log ==> (IsObject(r) && CleanName(r)) || LongShape(r)
  }

  /** The record is marked as a short name, or follows a long-name record, or no long-name record
      comes before it. */
  predicate AnnouncedAt(log: seq<Record>, k: nat)
    requires k < |log|
  {
    || NtResOf(log[k]) == LDIR_DIR_NTRES
    || (k > 0 && AttrOf(log[k - 1]) == ATTR_LONG_NAME)
    || forall i :: 0 <= i < k ==> AttrOf(log[i]) != ATTR_LONG_NAME
  }

  predicate Announced(log: seq<Record>) {
    forall k :: 0 <= k < |log| && IsObject(log[k]) ==> AnnouncedAt(log, k)
  }

  /** The shape of the records of one new object. */
  predicate NewShapes(longNames: bool, recs: seq<Record>) {
    && Shapes(recs)
    && (!longNames ==> |recs| == 1)
    && (longNames && |recs| == 1 ==> NtResOf(recs[0]) == LDIR_DIR_NTRES)
  }

  lemma PadClean(s: seq<byte>, size: nat)
    requires Ascii(s)
    ensures forall i :: 0 <= i < size ==> 0 < PadString(s, size)[i] < 128
  {
    forall i | 0 <= i < size
      ensures 0 < PadString(s, size)[i] < 128
    {
      if i < |s| {
        assert s[i] in s;
      }
    }
  }

  lemma UpperAscii(s: seq<byte>)
    requires Ascii(s)
    ensures Ascii(Upper(s))
  {
    forall c | c in Upper(s)
      ensures 0 < c < 128
    {
      var i :| 0 <= i < |s| && Upper(s)[i] == c;
      assert s[i] in s;
    }
  }

  lemma ShortRecordClean(longNames: bool, name: seq<byte>, ext: seq<byte>, attr: byte, cluster: nat,
                         stamp: Stamp, fitsShort: bool, alias: bool)
    requires stamp.Fits() && cluster < 0x1_0000 && Ascii(name) && Ascii(ext)
    requires ShortRecord(longNames, name, ext, attr, cluster, stamp, fitsShort, alias).Ok?
    ensures CleanName(ShortRecord(longNames, name, ext, attr, cluster, stamp, fitsShort, alias).value)
  {
    hide ShortRecord, PadString;
    var r := ShortRecord(longNames, name, ext, attr, cluster, stamp, fitsShort, alias).value;
    ShortRecordFields(longNames, name, ext, attr, cluster, stamp, fitsShort, alias);
    UpperAscii(name);
    UpperAscii(ext);
    PadClean(if longNames then name else Upper(name), MAX_NAME_SIZE);
    PadClean(if longNames then ext else Upper(ext), MAX_EXT_SIZE);
    assert forall i :: 0 <= i < 8 ==> r[i] == NameField(r)[i];
    assert forall i :: 8 <= i < 11 ==> r[i] == ExtField(r)[i - 8];
  }

  lemma LongRecordShape(piece: seq<byte>, order: nat, checksum: byte, isLast: bool)
    requires |piece| <= CHARS_PER_ENTRY && order < 0x40
    ensures LongShape(LongRecord(piece, order, checksum, isLast))
  {
    var first := Clip(piece, 0, 5);
    BlockIs(first, 5);
    if |first| == 5 {
      Utf16EndsInZero(Lower(first));
    }
    assert LongRecord(piece, order, checksum, isLast)[10] == Block(first, 5)[9];
  }

  lemma LongRecordsShape(full: seq<byte>, checksum: byte)
    requires |full| <= 255
    ensures forall r :: r in LongRecords(full, checksum) ==> LongShape(r)
  {
    hide LongShape;
    var lfn := LfnFullName(full);
    var count := EntriesCount(lfn);
    forall j | 0 <= j < count
      ensures LongShape(LongRecords(full, checksum)[j])
    {
      LongRecordShape(Piece(lfn, count - 1 - j), count - j, checksum, j == 0);
    }
  }

  lemma AliasAscii(name: seq<byte>, ext: seq<byte>, order: byte)
    requires Ascii(name) && Ascii(ext) && 0 < order < 128
    ensures Ascii(AliasName(name, order)) && Ascii(AliasExt(ext))
  {
    var stem := Clip(name, 0, 6) + [0x7e, order];
    assert forall c :: c in Clip(name, 0, 6) ==> c in name;
    assert forall c :: c in Clip(ext, 0, 3) ==> c in ext;
    assert Ascii(stem) && Ascii(Clip(ext, 0, 3));
    PadClean(stem, 8);
    PadClean(Clip(ext, 0, 3), 3);
  }

  lemma NewRecordShapes(longNames: bool, siblings: nat, name: seq<byte>, ext: seq<byte>, attr: byte,
                        cluster: nat, stamp: Stamp)
    requires stamp.Fits() && cluster < 0x1_0000 && Ascii(name) && Ascii(ext) && |BuildName(name, ext)| <= 255
    requires attr == ATTR_DIRECTORY || attr == ATTR_ARCHIVE
    requires EntryRecords(longNames, siblings, name, ext, attr, cluster, stamp).Ok?
    ensures NewShapes(longNames, EntryRecords(longNames, siblings, name, ext, attr, cluster, stamp).value)
  {
    hide ShortRecord, LongRecords, CleanName, LongShape, Ascii;
    if !longNames || IsValidSfn(name, ext) {
      ShortRecordFields(longNames, name, ext, attr, cluster, stamp, true, false);
      ShortRecordClean(longNames, name, ext, attr, cluster, stamp, true, false);
    } else {
      var aliasName, aliasExt := AliasName(name, siblings + 1), AliasExt(ext);
      AliasAscii(name, ext, siblings + 1);
      ShortRecordFields(longNames, aliasName, aliasExt, attr, cluster, stamp, false, true);
      ShortRecordClean(longNames, aliasName, aliasExt, attr, cluster, stamp, false, true);
      LongRecordsShape(BuildName(name, ext), Checksum(aliasName + aliasExt));
      SomeLongRecord(name, ext, Checksum(aliasName + aliasExt));
    }
  }

  lemma SomeLongRecord(name: seq<byte>, ext: seq<byte>, checksum: byte)
    requires !IsValidSfn(name, ext) && |BuildName(name, ext)| <= 255
    ensures |LongRecords(BuildName(name, ext), checksum)| > 0
  {
  }

  /** Record `k` of directory `d` is the record of entity `e`. */
  ghost predicate Lists(longNames: bool, support: bool, node: TNode, p: Place, log: seq<Record>,
                        entries: seq<Slot>, k: nat)
  {
    && k < |log| && k < |entries|
    && AttrOf(log[k]) == (if node.isDir then ATTR_DIRECTORY else ATTR_ARCHIVE)
    && ClusterOf(log[k]) == First(p)
    && ObjName(log, k, support) == Display(longNames, node.name, node.ext)
    && (p.FilePlace? ==> p.entry == entries[k])
  }

  /** The links to itself and to the parent, which the root does not have. */
  function Dots(d: nat): nat { if d == 0 then 0 else 2 }

  /** The object records of directory `d` are, in order, its dot links and its entities. */
  ghost predicate LogOk(longNames: bool, support: bool, tree: seq<TNode>, place: seq<Place>, log: seq<Record>, d: nat)
    requires TreeOk(tree) && |place| == |tree| && d < |tree| && place[d].DirPlace?
  {
    var l := Listing(log, |log|);
    && |l| == Dots(d) + |tree[d].entities|
    && (d != 0 ==>
         && AttrOf(log[l[0]]) == AttrOf(log[l[1]]) == ATTR_DIRECTORY
         && ObjName(log, l[0], support) == [DOT] && ObjName(log, l[1], support) == [DOT, DOT])
    && (forall j {:trigger tree[d].entities[j]} :: 0 <= j < |tree[d].entities| ==>
         var e := tree[d].entities[j];
         e in tree[d].entities && e < |tree|
         && Lists(longNames, support, tree[e], place[e], log, place[d].entries, l[Dots(d) + j]))
    && (!longNames ==> forall r :: r in log ==> AttrOf(r) != ATTR_LONG_NAME)
    && Shapes(log) && Announced(log)
  }

  ghost predicate LogInv(s: FsState, logs: seq<seq<Record>>, support: bool)
    requires Formed(s) && |logs| == |s.tree|
  {
    && (forall d :: 0 <= d < |s.tree| && s.tree[d].isDir ==>
         LogOk(s.longNames, support, s.tree, s.place, logs[d], d))
    && (forall f :: 0 <= f < |s.tree| && !s.tree[f].isDir ==> logs[f] == [])
  }

  /** A record of an entity stays its record when the directory grows and objects are added. */
  lemma ListsFrame(longNames: bool, support: bool, node1: TNode, node2: TNode, p1: Place, p2: Place,
                   log: seq<Record>, more: seq<Record>, entries1: seq<Slot>, entries2: seq<Slot>, k: nat)
    requires Lists(longNames, support, node1, p1, log, entries1, k)
    requires node1.name == node2.name && node1.ext == node2.ext && node1.isDir == node2.isDir
    requires First(p1) == First(p2) && (p2.FilePlace? ==> p1 == p2) && entries1 <= entries2
    ensures Lists(longNames, support, node2, p2, log + more, entries2, k)
  {
    ObjNameSame(log, log + more, k, support);
    assert (log + more)[k] == log[k] && entries2[k] == entries1[k];
  }

  /** The records written for one object add exactly one position to the listing, the last. */
  lemma {:induction false} ListingAppend(log: seq<Record>, recs: seq<Record>)
    requires recs != [] && IsObject(recs[|recs| - 1])
    requires forall i :: 0 <= i < |recs| - 1 ==> AttrOf(recs[i]) == ATTR_LONG_NAME
    ensures Listing(log + recs, |log + recs|) == Listing(log, |log|) + [|log| + |recs| - 1]
  {
    var all := log + recs;
    ListingSame(log, all, |log|);
    forall i | |log| <= i < |all| - 1
      ensures !IsObject(all[i])
    {
      assert all[i] == recs[i - |log|];
    }
    ListingSkips(all, |log|, |all| - 1);
    assert all[|all| - 1] == recs[|recs| - 1];
  }
}
