/** The main results on the image builder: every run, from a fresh volume on. */
module ImageRuns {
  import opened Bytes
  import opened Geometry
  import opened Volume
  import opened Outcome
  import opened FatChains
  import opened FatTableObject
  import opened DirectoryRecords
  import opened LongNames
  import opened NameTree
  import opened Paths
  import opened FileSystem
  import opened FileSystemInvariant
  import opened FileSystemSteps
  import opened FileSystemRuns
  import opened DirectoryListing
  import opened ListingRuns
  import opened Aliases
  import opened Reader
  import opened Traversal
  import opened HostFolder

  /** Everything that holds in a reachable state, for some owners and logs. */
  ghost predicate FsInv(s: FsState, owner: seq<nat>, logs: seq<seq<Record>>, support: bool) {
    CoreInv(s, owner, logs) && LogInv(s, logs, support) && AllHeld(s.tree) && ShortNames(s, logs)
  }

  // ---- when a name is a trap for the reader ----

  /** The operation writes a long-name record that the reader takes for a short one. */
  predicate TrapName(longNames: bool, siblings: nat, name: seq<byte>, ext: seq<byte>)
    requires siblings < 127
  {
    && longNames && !IsValidSfn(name, ext) && |BuildName(name, ext)| % CHARS_PER_ENTRY == 8
    && Checksum(AliasName(name, siblings + 1) + AliasExt(ext)) == 0
  }

  lemma LongRecordBytes(piece: seq<byte>, order: nat, checksum: byte, isLast: bool)
    requires |piece| <= CHARS_PER_ENTRY && order < 0x40
    ensures var r := LongRecord(piece, order, checksum, isLast);
      && r[0] == (if isLast then order + 64 else order) && r[13] == checksum && AttrOf(r) == ATTR_LONG_NAME
      && (forall i :: 0 <= i < 10 ==> r[1 + i] == Block(Clip(piece, 0, 5), 5)[i])
      && r[20] == Block(Clip(piece, 5, 11), 6)[6] && r[21] == Block(Clip(piece, 5, 11), 6)[7]
  {
  }

  lemma {:induction false} Utf16Bytes(s: seq<byte>, i: nat)
    requires i < |s|
    ensures Utf16(s)[2 * i] == s[i] && Utf16(s)[2 * i + 1] == 0
  {
    if i > 0 {
      Utf16Bytes(s[1..], i - 1);
    }
  }

  lemma BlockBytes(content: seq<byte>, size: nat, i: nat)
    requires |content| <= size && i < size
    ensures i < |content| ==>
      Block(content, size)[2 * i] == LowerByte(content[i]) && Block(content, size)[2 * i + 1] == 0
    ensures i >= |content| ==> Block(content, size)[2 * i] == Block(content, size)[2 * i + 1] == 0xff
  {
    BlockIs(content, size);
    if i < |content| {
      Utf16Bytes(Lower(content), i);
    }
  }

  /** Where character `k` of a piece stands in its record: two bytes from this one on. */
  function CharacterAt(k: nat): nat
    requires k < 13
  {
    [1, 3, 5, 7, 9, 14, 16, 18, 20, 22, 24, 28, 30][k]
  }

  lemma BlocksInPlace(piece: seq<byte>, order: nat, checksum: byte, isLast: bool)
    requires |piece| <= CHARS_PER_ENTRY && order < 0x40
    ensures var r := LongRecord(piece, order, checksum, isLast);
      && r[0] == (if isLast then order + 64 else order) && r[11] == 15 && r[12] == 0 && r[13] == checksum
      && r[26] == r[27] == 0
      && (forall i :: 0 <= i < 10 ==> r[1 + i] == Block(Clip(piece, 0, 5), 5)[i])
      && (forall i :: 0 <= i < 12 ==> r[14 + i] == Block(Clip(piece, 5, 11), 6)[i])
      && (forall i :: 0 <= i < 4 ==> r[28 + i] == Block(Clip(piece, 11, 13), 2)[i])
  {
    hide Block, Clip;
  }

  /** The 32 bytes of a long record: order, flag for the last part, type, checksum, two zeros, and each
      character as two bytes, letters in lower case, 0xffff for what is missing. */
  lemma LongRecordLayout(piece: seq<byte>, order: nat, checksum: byte, isLast: bool, k: nat)
    requires |piece| <= 13 && order < 0x40 && k < 13
    ensures var r, p := LongRecord(piece, order, checksum, isLast), CharacterAt(k);
      && r[0] == (if isLast then order + 0x40 else order) && r[11] == 15 && r[12] == 0 && r[13] == checksum
      && r[26] == r[27] == 0
      && (k < |piece| ==>
           r[p] == (if 'A' <= piece[k] as char <= 'Z' then piece[k] + 32 else piece[k]) && r[p + 1] == 0)
      && (k >= |piece| ==> r[p] == r[p + 1] == 0xff)
  {
    hide Block, Clip, LongRecord, CharacterAt;
    BlocksInPlace(piece, order, checksum, isLast);
    PlaceOf(k);
    ClippedAt(piece, k);
    var r := LongRecord(piece, order, checksum, isLast);
    if k < 5 {
      CharacterInBlock(r, 1, Clip(piece, 0, 5), 5, k);
    } else if k < 11 {
      CharacterInBlock(r, 14, Clip(piece, 5, 11), 6, k - 5);
    } else {
      CharacterInBlock(r, 28, Clip(piece, 11, 13), 2, k - 11);
    }
  }

  lemma ClippedAt(piece: seq<byte>, k: nat)
    requires |piece| <= 13 && k < 13
    ensures var lo, hi := if k < 5 then 0 else if k < 11 then 5 else 11, if k < 5 then 5 else if k < 11 then 11 else 13;
      var c := Clip(piece, lo, hi);
      |c| <= hi - lo && (k < |piece| <==> k - lo < |c|) && (k < |piece| ==> c[k - lo] == piece[k])
  {
  }

  /** The long records of a name: one for every 13 characters or part of them, in reverse order. Part `i`
      has order i + 1, the last part the flag, and all of them the checksum. Character `c` of the name
      stands in part c / 13, a zero behind the last one if there is room, and 0xffff behind that. */
  lemma GroupLayout(full: seq<byte>, checksum: byte, i: nat, k: nat)
    requires 0 < |full| <= 255 && k < 13 && i < (|full| + 12) / 13
    ensures var count, c, p := (|full| + 12) / 13, 13 * i + k, CharacterAt(k);
      && |LongRecords(full, checksum)| == count
      && var r := LongRecords(full, checksum)[count - 1 - i];
         && r[0] == i + 1 + (if i == count - 1 then 0x40 else 0) && r[11] == 15 && r[13] == checksum
         && (c < |full| ==>
              r[p] == (if 'A' <= full[c] as char <= 'Z' then full[c] + 32 else full[c]) && r[p + 1] == 0)
         && (c == |full| ==> r[p] == r[p + 1] == 0)
         && (c > |full| ==> r[p] == r[p + 1] == 0xff)
  {
    hide LongRecord, CharacterAt;
    CountBounds(full);
    var count := EntriesCount(LfnFullName(full));
    assert count == (|full| + 12) / 13 && count <= 20;
    var piece := Piece(LfnFullName(full), i);
    PieceCharacter(full, i, k);
    LongRecordLayout(piece, i + 1, checksum, i == count - 1, k);
    assert LongRecords(full, checksum)[count - 1 - i] == LongRecord(piece, i + 1, checksum, i == count - 1);
  }

  /** Character `k` of part `i` of the terminated name. */
  lemma PieceCharacter(full: seq<byte>, i: nat, k: nat)
    requires 0 < |full| <= 255 && k < 13 && i < (|full| + 12) / 13
    ensures var piece, c := Piece(LfnFullName(full), i), 13 * i + k;
      && (c < |full| ==> k < |piece| && piece[k] == full[c])
      && (c == |full| ==> k < |piece| && piece[k] == 0)
      && (c > |full| ==> k >= |piece|)
  {
    assert |full| == 13 * (|full| / 13) + |full| % 13;
  }

  lemma PlaceOf(k: nat)
    requires k < 13
    ensures CharacterAt(k) == if k < 5 then 1 + 2 * k else if k < 11 then 4 + 2 * k else 6 + 2 * k
  {
  }

  lemma CharacterInBlock(r: Record, at: nat, content: seq<byte>, size: nat, i: nat)
    requires |content| <= size && i < size && at + 2 * size <= 32
    requires forall j :: 0 <= j < 2 * size ==> r[at + j] == Block(content, size)[j]
    ensures var p := at + 2 * i;
      && (i < |content| ==>
           r[p] == (if 'A' <= content[i] as char <= 'Z' then content[i] + 32 else content[i]) && r[p + 1] == 0)
      && (i >= |content| ==> r[p] == r[p + 1] == 0xff)
  {
    hide Block;
    BlockBytes(content, size, i);
    assert r[at + 2 * i] == Block(content, size)[2 * i];
    assert r[at + (2 * i + 1)] == Block(content, size)[2 * i + 1];
  }

  lemma TrapPiece(piece: seq<byte>, order: nat, checksum: byte, isLast: bool)
    requires |piece| <= CHARS_PER_ENTRY && order < 0x40
    requires forall i :: 0 <= i < |piece| ==> piece[i] < 128
    ensures Trap(LongRecord(piece, order, checksum, isLast)) <==> checksum == 0 && |piece| > 8 && piece[8] == 0
  {
    hide LongRecord, Block;
    var r := LongRecord(piece, order, checksum, isLast);
    var first, second := Clip(piece, 0, 5), Clip(piece, 5, 11);
    LongRecordBytes(piece, order, checksum, isLast);
    BlockBytes(second, 6, 3);
    if |piece| > 8 {
      assert second[3] == piece[8] && first == piece[..5];
      forall i | 0 <= i < 5
        ensures r[1 + 2 * i] < 128 && r[2 + 2 * i] < 128
      {
        BlockBytes(first, 5, i);
      }
      assert r[1] < 128 && r[2] < 128 && r[3] < 128 && r[4] < 128 && r[5] < 128 by {
        BlockBytes(first, 5, 0);
        BlockBytes(first, 5, 1);
        BlockBytes(first, 5, 2);
      }
      assert r[6] < 128 && r[7] < 128 && r[8] < 128 && r[9] < 128 && r[10] < 128 by {
        BlockBytes(first, 5, 2);
        BlockBytes(first, 5, 3);
        BlockBytes(first, 5, 4);
      }
    }
  }

  lemma NthPiece(full: seq<byte>, i: nat)
    requires Ascii(full) && full != [] && i < EntriesCount(LfnFullName(full))
    ensures var piece := Piece(LfnFullName(full), i);
      && |piece| <= CHARS_PER_ENTRY && (forall k :: 0 <= k < |piece| ==> piece[k] < 128)
      && (|piece| > 8 && piece[8] == 0 <==> 13 * i + 8 == |full|)
  {
    CountBounds(full);
    var lfn := LfnFullName(full);
    var piece := Piece(lfn, i);
    forall k | 0 <= k < |lfn|
      ensures lfn[k] < 128 && (lfn[k] == 0 <==> k == |full|)
    {
      if k < |full| {
        assert full[k] in full;
      }
    }
    assert 13 * i < |lfn|;
    assert forall k :: 0 <= k < |piece| ==> piece[k] == lfn[13 * i + k];
    if 13 * i + 8 == |full| {
      assert |full| % 13 == 8;
      assert |piece| > 8;
    }
  }

  /** The long records of a name contain a trap exactly when the name leaves 8 characters for its
      last record and the alias has checksum 0. */
  lemma TrapRecords(full: seq<byte>, checksum: byte)
    requires Ascii(full) && 0 < |full| <= 255
    ensures (exists r :: r in LongRecords(full, checksum) && Trap(r)) <==> checksum == 0 && |full| % 13 == 8
  {
    hide Trap, Piece, LongRecord;
    CountBounds(full);
    var lfn := LfnFullName(full);
    var count := EntriesCount(lfn);
    var recs := LongRecords(full, checksum);
    forall j | 0 <= j < count
      ensures Trap(recs[j]) <==> checksum == 0 && 13 * (count - 1 - j) + 8 == |full|
    {
      NthPiece(full, count - 1 - j);
      TrapPiece(Piece(lfn, count - 1 - j), count - j, checksum, j == 0);
    }
    if checksum == 0 && |full| % 13 == 8 {
      assert |full| / 13 == count - 1;
      assert Trap(recs[0]);
    }
  }

  lemma NewTraps(longNames: bool, siblings: nat, name: seq<byte>, ext: seq<byte>, attr: byte, cluster: nat,
                 stamp: Stamp)
    requires stamp.Fits() && cluster < 0x1_0000 && Ascii(name) && Ascii(ext) && |BuildName(name, ext)| <= 255
    requires attr == ATTR_DIRECTORY || attr == ATTR_ARCHIVE
    requires EntryRecords(longNames, siblings, name, ext, attr, cluster, stamp).Ok?
    ensures longNames && !IsValidSfn(name, ext) ==> siblings < 127
    ensures (exists r :: r in EntryRecords(longNames, siblings, name, ext, attr, cluster, stamp).value && Trap(r))
      <==> (siblings < 127 && TrapName(longNames, siblings, name, ext))
  {
    hide ShortRecord, LongRecords, Checksum, IsShort, AttrOf, Parses;
    var recs := EntryRecords(longNames, siblings, name, ext, attr, cluster, stamp).value;
    EntryRecordsFacts(longNames, siblings, name, ext, attr, cluster, stamp);
    var last := recs[|recs| - 1];
    assert !Trap(last);
    if !longNames || IsValidSfn(name, ext) {
      assert recs == [last];
    } else {
      var checksum := Checksum(AliasName(name, siblings + 1) + AliasExt(ext));
      FullNameAscii(name, ext);
      TrapRecords(BuildName(name, ext), checksum);
      assert recs == LongRecords(BuildName(name, ext), checksum) + [last];
      assert forall r :: r in recs <==> r in LongRecords(BuildName(name, ext), checksum) || r == last;
    }
  }

  /** A name of this kind exists: the file `A+AASZXY`, created first in its directory. */
  lemma TrapNameExists()
    ensures TrapName(true, 0, [0x41, 0x2b, 0x41, 0x41, 0x53, 0x5a, 0x58, 0x59], [])
  {
    hide Checksum;
    var name: seq<byte> := [0x41, 0x2b, 0x41, 0x41, 0x53, 0x5a, 0x58, 0x59];
    assert name[1] in name;
    assert AliasName(name, 1) == [0x41, 0x2b, 0x41, 0x41, 0x53, 0x5a, 0x7e, 1];
    assert AliasExt([]) == [0x20, 0x20, 0x20];
    TrapAliasChecksum();
    assert AliasName(name, 1) + AliasExt([]) == [0x41, 0x2b, 0x41, 0x41, 0x53, 0x5a, 0x7e, 1, 0x20, 0x20, 0x20];
  }

  lemma TrapAliasChecksum()
    ensures Checksum([0x41, 0x2b, 0x41, 0x41, 0x53, 0x5a, 0x7e, 1, 0x20, 0x20, 0x20]) == 0
  {
    hide Checksum;
    var alias: seq<byte> := [0x41, 0x2b, 0x41, 0x41, 0x53, 0x5a, 0x7e, 1, 0x20, 0x20, 0x20];
    FirstSix(alias);
    LastFive(alias);
    assert alias[..11] == alias;
  }

  lemma FirstSix(s: seq<byte>)
    requires |s| == 11 && s[0] == s[2] == s[3] == 0x41 && s[1] == 0x2b && s[4] == 0x53 && s[5] == 0x5a
    ensures Checksum(s[..6]) == 0x18
  {
    assert Checksum(s[..0]) == 0;
    hide Checksum;
    ChecksumPrefix(s, 0, 0);
    ChecksumPrefix(s, 1, 0x41);
    ChecksumPrefix(s, 2, 0xcb);
    ChecksumPrefix(s, 3, 0x26);
    ChecksumPrefix(s, 4, 0x54);
    ChecksumPrefix(s, 5, 0x7d);
  }

  lemma LastFive(s: seq<byte>)
    requires |s| == 11 && s[6] == 0x7e && s[7] == 1 && s[8] == s[9] == s[10] == 0x20
    requires Checksum(s[..6]) == 0x18
    ensures Checksum(s[..11]) == 0
  {
    hide Checksum;
    ChecksumPrefix(s, 6, 0x18);
    ChecksumPrefix(s, 7, 0x8a);
    ChecksumPrefix(s, 8, 0x46);
    ChecksumPrefix(s, 9, 0x43);
    ChecksumPrefix(s, 10, 0xc1);
  }

  lemma ChecksumPrefix(s: seq<byte>, i: nat, c: byte)
    requires i < |s| && Checksum(s[..i]) == c
    ensures Checksum(s[..i + 1]) == ChecksumStep(c, s[i])
  {
    assert s[..i + 1][..i] == s[..i];
  }

  // ---- one step ----

  lemma AddNodeHeld(tree: seq<TNode>, d: nat, node: TNode)
    requires TreeOk(tree) && AllHeld(tree) && d < |tree| && tree[d].isDir
    ensures AllHeld(AddNode(tree, d, node))
  {
    var t := AddNode(tree, d, node);
    forall e | 0 < e < |t|
      ensures Held(t, e)
    {
      if e < |tree| {
        assert Held(tree, e);
        var p, j :| HeldBy(tree, e, p, j);
        assert HeldBy(t, e, p, j);
      } else {
        assert HeldBy(t, e, d, |tree[d].entities|);
      }
    }
  }

  lemma TrapsAdded(logs: seq<seq<Record>>, d: nat, recs: seq<Record>, last: seq<Record>)
    requires d < |logs| && forall r :: r in last ==> !Trap(r)
    ensures TrapDirs(logs[d := logs[d] + recs] + [last])
      == TrapDirs(logs) + if exists r :: r in recs && Trap(r) then {d} else {}
  {
    hide Trap;
    var logs2 := logs[d := logs[d] + recs] + [last];
    var more: set<nat> := if exists r :: r in recs && Trap(r) then {d} else {};
    forall x: nat
      ensures x in TrapDirs(logs2) <==> x in TrapDirs(logs) + more
    {
      if x < |logs| && x != d {
        assert logs2[x] == logs[x];
      } else if x == d {
        assert forall r :: r in logs2[x] <==> r in logs[x] || r in recs;
      }
    }
  }

  /** The operation creates an object whose long name is a trap. */
  predicate TrapOp(s: FsState, op: Op)
    requires Formed(s)
  {
    match op
    case CreateFile(name, ext, path, _, _) =>
      var d := Target(s.tree, path);
      d.Ok? && var n := CountPrefix(s.tree, s.tree[d.value].entities, name);
      n < 127 && TrapName(s.longNames, n, name, ext)
    case CreateDirectory(name, path, _) =>
      var d := Target(s.tree, path);
      d.Ok? && var n := CountPrefix(s.tree, s.tree[d.value].entities, name);
      n < 127 && TrapName(s.longNames, n, name, [])
    case WriteContent(_, _) => false
  }

  /** The directory in which the operation creates a trap, if it creates one. */
  function TrapOf(s: FsState, op: Op): set<nat>
    requires Formed(s)
  {
    if TrapOp(s, op) then {Target(s.tree, op.path).value} else {}
  }

  /** Directories keep their records and their entries, and may get more of both. */
  ghost predicate DirectoriesGrow(s: FsState, t: FsState, logs: seq<seq<Record>>, logs2: seq<seq<Record>>) {
    && |logs| == |s.place| <= |t.place| && |logs| <= |logs2|
    && forall d :: 0 <= d < |s.place| && s.place[d].DirPlace? ==>
         && t.place[d].DirPlace? && t.place[d].head == s.place[d].head
         && s.place[d].entries <= t.place[d].entries && logs[d] <= logs2[d]
  }

  lemma AddedGrows(s: FsState, t: FsState, logs: seq<seq<Record>>, recs: seq<Record>, d: nat, last: seq<Record>)
    requires NodeAdded(s, t, logs, recs, d)
    ensures DirectoriesGrow(s, t, logs, logs[d := logs[d] + recs] + [last])
  {
  }

  lemma FileStep(s: FsState, owner: seq<nat>, logs: seq<seq<Record>>, support: bool, op: Op)
    returns (owner2: seq<nat>, logs2: seq<seq<Record>>)
    requires FsInv(s, owner, logs, support) && op.Proper() && op.CreateFile? && (s.longNames ==> support)
    requires s.fs.sectorSize > 0 && Step(s, op).Ok?
    ensures FsInv(Step(s, op).value, owner2, logs2, support)
    ensures IdealStep(Alpha(s), op) == Ok(Alpha(Step(s, op).value))
    ensures TrapDirs(logs2) == TrapDirs(logs) + TrapOf(s, op)
    ensures DirectoriesGrow(s, Step(s, op).value, logs, logs2)
  {
    hide CoreInv, LogInv, NewFile, Alpha, EntryRecords, CountPrefix, Target, TrapName, Lists, Trap, AllHeld, ShortNames;
    CoreFacts(s, owner, logs);
    var CreateFile(name, ext, path, isEmpty, stamp) := op;
    var t := Step(s, op).value;
    var recs, d;
    owner2, recs, d := NewFileKeeps(s, owner, logs, name, ext, path, isEmpty, stamp);
    logs2 := logs[d := logs[d] + recs] + [[]];
    CoreFacts(t, owner2, logs2);
    var node, p := TNode(name, ext, false, []), t.place[|s.tree|];
    NewPlaceIs(t, |s.tree|);
    NewEntityLists(s, logs, support, d, name, ext, false, p, recs, t.place[d].entries, stamp);
    ObjectsKeepListing(s, t, logs, recs, d, node, support, []);
    CreationBears(s, t, logs, recs, d, node, [], ATTR_ARCHIVE, First(p), stamp);
    AddNodeHeld(s.tree, d, node);
    NewTraps(s.longNames, CountPrefix(s.tree, s.tree[d].entities, name), name, ext, ATTR_ARCHIVE, First(p), stamp);
    TrapsAdded(logs, d, recs, []);
    AddedGrows(s, t, logs, recs, d, []);
  }

  lemma NewPlaceIs(t: FsState, n: nat)
    requires Formed(t) && n < |t.place| && |t.fs.next| <= 0x1_0000
    ensures First(t.place[n]) < 0x1_0000 && t.place[n].FilePlace? == !t.tree[n].isDir
  {
  }

  lemma DirectoryStep(s: FsState, owner: seq<nat>, logs: seq<seq<Record>>, support: bool, op: Op)
    returns (owner2: seq<nat>, logs2: seq<seq<Record>>)
    requires FsInv(s, owner, logs, support) && op.Proper() && op.CreateDirectory? && (s.longNames ==> support)
    requires s.fs.sectorSize > 0 && Step(s, op).Ok?
    ensures FsInv(Step(s, op).value, owner2, logs2, support)
    ensures IdealStep(Alpha(s), op) == Ok(Alpha(Step(s, op).value))
    ensures TrapDirs(logs2) == TrapDirs(logs) + TrapOf(s, op)
    ensures DirectoriesGrow(s, Step(s, op).value, logs, logs2)
  {
    hide CoreInv, LogInv, NewDirectory, Alpha, EntryRecords, CountPrefix, Target, TrapName, Lists, Trap, AllHeld,
      DotRecord, LogOk, ShortNames, BearsAll;
    CoreFacts(s, owner, logs);
    var CreateDirectory(name, path, stamp) := op;
    var t := Step(s, op).value;
    var n := |s.tree|;
    var recs, d, dots;
    owner2, recs, d, dots := NewDirectoryKeeps(s, owner, logs, name, path, stamp);
    logs2 := logs[d := logs[d] + recs] + [dots];
    CoreFacts(t, owner2, logs2);
    var node, p := TNode(name, [], true, []), t.place[n];
    NewPlaceIs(t, n);
    assert t.tree[n] == node;
    NewEntityLists(s, logs, support, d, name, [], true, p, recs, t.place[d].entries, stamp);
    NewDirLists(s.longNames, support, t.tree, t.place, n, First(p), s.place[d].head, dots);
    ObjectsKeepListing(s, t, logs, recs, d, node, support, dots);
    DotsBear(s.longNames, t.tree, n, First(p), s.place[d].head, dots);
    CreationBears(s, t, logs, recs, d, node, dots, ATTR_DIRECTORY, First(p), stamp);
    AddNodeHeld(s.tree, d, node);
    NewTraps(s.longNames, CountPrefix(s.tree, s.tree[d].entities, name), name, [], ATTR_DIRECTORY, First(p), stamp);
    DotsNoTraps(s.longNames, First(p), s.place[d].head, dots);
    TrapsAdded(logs, d, recs, dots);
    AddedGrows(s, t, logs, recs, d, dots);
  }

  lemma DotsNoTraps(longNames: bool, head: nat, parentHead: nat, dots: seq<Record>)
    requires head < 0x1_0000 && parentHead < 0x1_0000 && |dots| == 2
    requires DotRecord(longNames, [DOT], head) == Ok(dots[0])
    requires DotRecord(longNames, [DOT, DOT], parentHead) == Ok(dots[1])
    ensures forall r :: r in dots ==> !Trap(r)
  {
    ShortRecordFields(longNames, [DOT], [], ATTR_DIRECTORY, head, DEFAULT_STAMP, false, false);
    ShortRecordFields(longNames, [DOT, DOT], [], ATTR_DIRECTORY, parentHead, DEFAULT_STAMP, false, false);
  }

  /** One public operation: the invariant is kept, the files and directories read from the volume
      change as the ideal file system says, and traps appear only as TrapOf says. */
  lemma StepKeeps(s: FsState, owner: seq<nat>, logs: seq<seq<Record>>, support: bool, op: Op)
    returns (owner2: seq<nat>, logs2: seq<seq<Record>>)
    requires FsInv(s, owner, logs, support) && op.Proper() && (s.longNames ==> support)
    requires s.fs.sectorSize > 0 && Step(s, op).Ok?
    ensures FsInv(Step(s, op).value, owner2, logs2, support)
    ensures IdealStep(Alpha(s), op) == Ok(Alpha(Step(s, op).value))
    ensures TrapDirs(logs2) == TrapDirs(logs) + TrapOf(s, op)
    ensures DirectoriesGrow(s, Step(s, op).value, logs, logs2)
  {
    match op
    case CreateFile(_, _, _, _, _) => owner2, logs2 := FileStep(s, owner, logs, support, op);
    case CreateDirectory(_, _, _) => owner2, logs2 := DirectoryStep(s, owner, logs, support, op);
    case WriteContent(path, content) => owner2, logs2 := WriteStep(s, owner, logs, support, op);
  }

  lemma WriteStep(s: FsState, owner: seq<nat>, logs: seq<seq<Record>>, support: bool, op: Op)
    returns (owner2: seq<nat>, logs2: seq<seq<Record>>)
    requires FsInv(s, owner, logs, support) && op.Proper() && op.WriteContent?
    requires s.fs.sectorSize > 0 && Step(s, op).Ok?
    ensures FsInv(Step(s, op).value, owner2, logs2, support) && logs2 == logs
    ensures DirectoriesGrow(s, Step(s, op).value, logs, logs2)
    ensures IdealStep(Alpha(s), op) == Ok(Alpha(Step(s, op).value))
  {
    hide CoreInv, WriteToFile, Alpha, Lists, Trap, AllHeld, ShortNames, TreeOk, LogOk;
    CoreFacts(s, owner, logs);
    owner2 := WriteKeeps(s, owner, logs, op.path, op.content);
    logs2 := logs;
    ShortNamesStay(s, Step(s, op).value, logs);
  }

  /** DirectoriesOnlyGrow for a state that satisfies the invariant. */
  lemma DirectoryGrowth(s: FsState, owner: seq<nat>, logs: seq<seq<Record>>, support: bool, op: Op, d: nat)
    requires FsInv(s, owner, logs, support) && op.Proper() && (s.longNames ==> support)
    requires s.fs.sectorSize > 0 && Step(s, op).Ok? && IsDirectory(s, d)
    ensures var t := Step(s, op).value;
      IsDirectory(t, d) && t.place[d].head == s.place[d].head && d < |logs|
    ensures var a := RecordsOf(DirContent(s.fs.vol, s.place[d].head));
      var b := RecordsOf(DirContent(Step(s, op).value.fs.vol, s.place[d].head));
      var used := |logs[d]|;
      && used <= |a| <= |b|
      && (forall k :: 0 <= k < used ==> AttrOf(a[k]) != 0 && Mask(b[k]) == Mask(a[k]))
      && (forall k :: used <= k < |a| ==> a[k] == Zeros(32))
  {
    hide CoreInv, LogInv, AllHeld, ShortNames, Step, IdealStep, Alpha, TrapOp, TrapDirs, Mask, SlotRecord,
      RecordsOf, DirContent;
    CoreFacts(s, owner, logs);
    var owner2, logs2 := StepKeeps(s, owner, logs, support, op);
    var t := Step(s, op).value;
    ReadRecords(s, owner, logs, d);
    ReadRecords(t, owner2, logs2, d);
    UsedRecords(s, owner, logs, support, d);
  }

  lemma UsedRecords(s: FsState, owner: seq<nat>, logs: seq<seq<Record>>, support: bool, d: nat)
    requires FsInv(s, owner, logs, support) && IsDirectory(s, d)
    ensures |logs[d]| <= |s.place[d].entries|
    ensures forall k :: 0 <= k < |logs[d]| ==> AttrOf(EntryRecordsOf(s.fs.vol.area, s.place[d].entries)[k]) != 0
  {
    hide SlotRecord, Mask, DirOk, FileOk, Lists, Listing, ObjName;
    ReadRecords(s, owner, logs, d);
    assert LogOk(s.longNames, support, s.tree, s.place, logs[d], d);
    forall k | 0 <= k < |logs[d]|
      ensures AttrOf(EntryRecordsOf(s.fs.vol.area, s.place[d].entries)[k]) != 0
    {
      assert logs[d][k] in logs[d];
      MaskedFields(EntryRecordsOf(s.fs.vol.area, s.place[d].entries)[k], logs[d][k], 0);
    }
  }

  // ---- a fresh volume ----

  /** `FATFS.__init__`: reserved entries, an empty root directory, nothing else. */
  function InitialState(g: Geo, header: seq<byte>, longNames: bool): (s: FsState)
    requires g.Accepted() && |header| == 512
  {
    var fs := FreshState(g, header);
    FsState(fs, longNames, EmptyIdeal().tree, [DirPlace(1, CreateEntries(fs.vol.area, 1))], {})
  }

  lemma RootAligned(g: Geo)
    requires g.Accepted()
    ensures g.AreaLength(1) % 32 == 0
  {
    var k := g.sectorSize / 32;
    assert g.sectorSize == 32 * k;
    Multiple(g.rootSectors, k);
  }

  lemma Multiple(a: nat, k: nat)
    ensures (a * (32 * k)) % 32 == 0
  {
    assert a * (32 * k) == 32 * (a * k);
    Times32(a * k);
  }

  lemma Times32(n: nat)
    ensures (32 * n) % 32 == 0
  {
  }

  lemma InitialInv(g: Geo, header: seq<byte>, longNames: bool, support: bool)
    requires g.Accepted() && |header| == 512
    ensures FsInv(InitialState(g, header, longNames), [0, 0], [[]], support)
    ensures TrapDirs([[]]) == {}
    ensures Alpha(InitialState(g, header, longNames)) == EmptyIdeal()
  {
    hide FreshState, Geo.Accepted, Geo.AreaLength;
    var s := InitialState(g, header, longNames);
    FreshChainInv(g, header);
    FreshSizes(g, header);
    RootChain(s.fs);
    assert Linked(s.fs, 1);
    OneClusterChain(s.fs, 1);
    SlotsOfOne(s.fs.vol.area, 1);
    ZeroSlots(s.fs.vol.area, 1);
    assert Alpha(s).contents == [[]];
  }

  lemma FreshSizes(g: Geo, header: seq<byte>)
    requires g.Accepted() && |header| == 512
    ensures var s := FreshState(g, header);
      && s.sectorSize >= 512 && s.sectorSize % 32 == 0 && |s.next| <= 0x1_0000 && s.free == 1
      && s.vol.area[1] == Zeros(|s.vol.area[1]|) && |s.vol.area[1]| % 32 == 0
  {
    hide View;
    FreshChainInv(g, header);
    SectorPositive(g);
    RootAligned(g);
    ClustersBelowSectors(g);
  }

  // ---- runs ----

  predicate ProperOps(ops: seq<Op>) {
    forall op :: op in ops ==> op.Proper()
  }

  predicate Runnable(s: FsState) {
    Formed(s) && s.fs.sectorSize > 0 && |s.fs.next| <= 0x1_0000
  }

  /** The operations one after another; the first that raises ends the run. */
  function Run(s: FsState, ops: seq<Op>): (r: Result<FsState>)
    requires Runnable(s) && ProperOps(ops)
    ensures r.Ok? ==> Runnable(r.value)
    decreases |ops|
  {
    if ops == [] then Ok(s)
    else
      assert ops[0] in ops;
      var t :- Step(s, ops[0]);
      assert forall op :: op in ops[1..] ==> op in ops;
      Run(t, ops[1..])
  }

  /** The directories in which the run creates a trap. */
  function TrapsOf(s: FsState, ops: seq<Op>): set<nat>
    requires Runnable(s) && ProperOps(ops)
    decreases |ops|
  {
    if ops == [] then {}
    else
      assert ops[0] in ops;
      assert forall op :: op in ops[1..] ==> op in ops;
      TrapOf(s, ops[0]) + if Step(s, ops[0]).Ok? then TrapsOf(Step(s, ops[0]).value, ops[1..]) else {}
  }

  lemma RunnableInv(s: FsState, owner: seq<nat>, logs: seq<seq<Record>>, support: bool)
    requires FsInv(s, owner, logs, support)
    ensures Runnable(s)
  {
  }

  lemma {:induction false} RunKeeps(s: FsState, owner: seq<nat>, logs: seq<seq<Record>>, support: bool, ops: seq<Op>)
    returns (owner2: seq<nat>, logs2: seq<seq<Record>>)
    requires FsInv(s, owner, logs, support) && ProperOps(ops) && (s.longNames ==> support)
    requires Runnable(s) && Run(s, ops).Ok?
    ensures FsInv(Run(s, ops).value, owner2, logs2, support)
    ensures Run(s, ops).value.longNames == s.longNames
    ensures IdealRun(Alpha(s), ops) == Ok(Alpha(Run(s, ops).value))
    ensures TrapDirs(logs2) == TrapDirs(logs) + TrapsOf(s, ops)
    decreases |ops|
  {
    hide FsInv, Step, IdealStep, Alpha, TrapOf, TrapDirs;
    if ops == [] {
      owner2, logs2 := owner, logs;
    } else {
      assert ops[0] in ops;
      assert forall op :: op in ops[1..] ==> op in ops;
      var owner1, logs1 := StepKeeps(s, owner, logs, support, ops[0]);
      owner2, logs2 := RunKeeps(Step(s, ops[0]).value, owner1, logs1, support, ops[1..]);
    }
  }

  // ---- main results ----

  /** Whole-image round trip. After any run of successful operations on a fresh volume, the ideal
      file system has run successfully too, and every file, read from the volume (size and first
      cluster from its record, chain from the FAT, bytes from the data region), is the content
      last written through a path that leads to it, whatever was done to other objects later. */
  lemma {:induction false} RoundTrip(g: Geo, header: seq<byte>, longNames: bool, ops: seq<Op>)
    requires g.Accepted() && |header| == 512 && ProperOps(ops)
    ensures Runnable(InitialState(g, header, longNames))
    ensures Run(InitialState(g, header, longNames), ops).Ok? ==>
      var t := Run(InitialState(g, header, longNames), ops).value;
      var i := IdealRun(EmptyIdeal(), ops);
      && i.Ok? && t.tree == i.value.tree
      && forall f :: 0 <= f < |t.tree| && !t.tree[f].isDir ==>
           && t.place[f].FilePlace? && ReadFile(t.fs.vol, t.place[f].entry) == i.value.contents[f]
           && LastWritten(t.tree, ops, f, [], ReadFile(t.fs.vol, t.place[f].entry))
  {
    hide FsInv, Run, IdealRun, InitialState, ReadFile, LastWritten;
    var s := InitialState(g, header, longNames);
    InitialInv(g, header, longNames, true);
    RunnableInv(s, [0, 0], [[]], true);
    if Run(s, ops).Ok? {
      var owner, logs := RunKeeps(s, [0, 0], [[]], true, ops);
      var t := Run(s, ops).value;
      forall f | 0 <= f < |t.tree| && !t.tree[f].isDir
        ensures LastWritten(t.tree, ops, f, [], Alpha(t).contents[f])
      {
        ContentByPath(EmptyIdeal(), ops, f);
      }
    }
  }

  /** End to end. What the reader, started on the volume after any run with or without the long-name
      option, finds is exactly this. It raises if the run created a trap outside every directory whose
      name reads as a dot link; otherwise it finds the ideal tree, with names and contents, without
      those directories. So it finds the whole ideal tree exactly if there is neither. */
  lemma {:induction false} ReadBack(g: Geo, header: seq<byte>, longNames: bool, ops: seq<Op>, option: bool, depth: nat)
    requires g.Accepted() && |header| == 512 && ProperOps(ops)
    ensures Runnable(InitialState(g, header, longNames))
    ensures Run(InitialState(g, header, longNames), ops).Ok? ==>
      var t := Run(InitialState(g, header, longNames), ops).value;
      var i := IdealRun(EmptyIdeal(), ops);
      var traps := TrapsOf(InitialState(g, header, longNames), ops);
      && i.Ok? && t.tree == i.value.tree
      && (depth >= |i.value.tree| ==>
           && ParseTree(t.fs.vol, option, depth) ==
                (if TrapShown(longNames, i.value.tree, traps, 0) then None
                 else Some(WithoutDots(IdealTree(i.value, longNames))))
           && (ParseTree(t.fs.vol, option, depth) == Some(IdealTree(i.value, longNames)) <==>
                traps == {} && NoDotNames(longNames, i.value.tree)))
  {
    hide CoreInv, LogInv, AllHeld, ShortNames, Run, IdealRun, InitialState, NoDotNames, ParseTree, IdealTree,
      TrapsOf, TrapDirs, Alpha, TrapShown, WithoutDots;
    var s := InitialState(g, header, longNames);
    InitialInv(g, header, longNames, true);
    RunnableInv(s, [0, 0], [[]], true);
    InitialMode(g, header, longNames);
    if Run(s, ops).Ok? {
      var owner, logs := RunKeeps(s, [0, 0], [[]], true, ops);
      var t := Run(s, ops).value;
      assert TrapDirs(logs) == TrapsOf(s, ops);
      if depth >= |t.tree| {
        ParseTreeExactly(t, owner, logs, option, depth);
        ParseTreeIff(t, owner, logs, option, depth);
      }
    }
  }

  /** The same down to the host. The folder made from the volume is the folder of the run (every file
      and directory an entry of its own, under its name, with its content) if and only if the run
      created no trap and its objects have good names: each is shown under a name that a host directory
      can hold, and no two siblings are shown under the same one. In general making raises if reading
      does, on a name that no host directory can hold and on a name that is taken, unless by a file for a
      file; otherwise every name that the reader finds has one entry, the last object called so. */
  lemma {:induction false} FolderMade(g: Geo, header: seq<byte>, longNames: bool, ops: seq<Op>, option: bool,
                                      depth: nat)
    requires g.Accepted() && |header| == 512 && ProperOps(ops)
    ensures Runnable(InitialState(g, header, longNames))
    ensures Run(InitialState(g, header, longNames), ops).Ok? ==>
      var t := Run(InitialState(g, header, longNames), ops).value;
      var i := IdealRun(EmptyIdeal(), ops);
      && i.Ok?
      && (depth >= |i.value.tree| ==>
           var made := ParseFolder(t.fs.vol, option, depth);
           var traps := TrapsOf(InitialState(g, header, longNames), ops);
           var found := WithoutDots(IdealTree(i.value, longNames));
           && (made.None? <==> TrapShown(longNames, i.value.tree, traps, 0) || MakeRaises(found))
           && (made.Some? ==> Holds(found, |found|, made.value))
           && (made.Some? && IsFolderOf(i.value, longNames, made.value) <==>
                traps == {} && GoodNames(i.value, longNames)))
  {
    hide CoreInv, LogInv, AllHeld, ShortNames, Run, IdealRun, InitialState, GoodNames, IsFolderOf, TrapsOf,
      TrapDirs, ParseTree, Make, MakeRaises, Holds, TrapShown, WithoutDots, IdealTree, Alpha;
    var s := InitialState(g, header, longNames);
    InitialInv(g, header, longNames, true);
    RunnableInv(s, [0, 0], [[]], true);
    InitialMode(g, header, longNames);
    if Run(s, ops).Ok? {
      var owner, logs := RunKeeps(s, [0, 0], [[]], true, ops);
      var t := Run(s, ops).value;
      if depth >= |t.tree| {
        assert TrapDirs(logs) == TrapsOf(s, ops);
        ParseTreeExactly(t, owner, logs, option, depth);
        ParseFolderIff(t, owner, logs, option, depth);
        MakeExactly(WithoutDots(IdealTree(Alpha(t), longNames)));
      }
    }
  }

  /** Directory growth, after any run. Read from the volume as chained content, every directory is a
      list of 32-byte slots: the used ones first, then zeros. A further operation may lengthen the
      list and use more slots; it never alters a used slot but for the size field of a file. */
  lemma DirectoriesOnlyGrow(g: Geo, header: seq<byte>, longNames: bool, ops: seq<Op>, op: Op, d: nat)
    returns (used: nat)
    requires g.Accepted() && |header| == 512 && ProperOps(ops) && op.Proper()
    requires Runnable(InitialState(g, header, longNames)) && Run(InitialState(g, header, longNames), ops).Ok?
    requires var s := Run(InitialState(g, header, longNames), ops).value;
      Runnable(s) && Step(s, op).Ok? && IsDirectory(s, d)
    ensures var s := Run(InitialState(g, header, longNames), ops).value;
      var t := Step(s, op).value;
      var a, b := RecordsOf(DirContent(s.fs.vol, s.place[d].head)), RecordsOf(DirContent(t.fs.vol, s.place[d].head));
      && IsDirectory(t, d) && t.place[d].head == s.place[d].head
      && used <= |a| <= |b|
      && (forall k :: 0 <= k < used ==> AttrOf(a[k]) != 0 && Mask(b[k]) == Mask(a[k]))
      && (forall k :: used <= k < |a| ==> a[k] == Zeros(32))
  {
    hide CoreInv, LogInv, AllHeld, ShortNames, Run, InitialState, Step, TrapDirs, TrapsOf, Alpha, RecordsOf,
      DirContent, Mask;
    var s0 := InitialState(g, header, longNames);
    InitialInv(g, header, longNames, true);
    var owner, logs := RunKeeps(s0, [0, 0], [[]], true, ops);
    var s := Run(s0, ops).value;
    DirectoryGrowth(s, owner, logs, true, op, d);
    used := |logs[d]|;
  }

  lemma InitialMode(g: Geo, header: seq<byte>, longNames: bool)
    requires g.Accepted() && |header| == 512
    ensures InitialState(g, header, longNames).longNames == longNames
  {
  }

  /** The first clusters of an object's chain, if it has one. */
  predicate HasChain(s: FsState, o: nat)
    requires o < |s.place|
  {
    First(s.place[o]) > 0
  }

  /** Chain integrity in every reachable state: links on disk and in memory agree and climb, every
      chain ends at the end marker, no two objects share a cluster, and the allocated ids are
      exactly those up to the frontier. */
  lemma {:induction false} ChainIntegrity(g: Geo, header: seq<byte>, longNames: bool, ops: seq<Op>)
    requires g.Accepted() && |header| == 512 && ProperOps(ops)
    ensures Runnable(InitialState(g, header, longNames))
    ensures Run(InitialState(g, header, longNames), ops).Ok? ==>
      var t := Run(InitialState(g, header, longNames), ops).value;
      && Formed(t) && 1 <= t.fs.free < |t.fs.next|
      && (forall c :: 1 <= c <= t.fs.free ==> Linked(t.fs, c))
      && (forall c :: 1 <= c < |t.fs.next| ==> (t.fs.vol.fat[c] != 0 <==> c <= t.fs.free))
      && (forall o :: 0 <= o < |t.place| && HasChain(t, o) ==> ChainEnds(t.fs.vol.fat, t.fs.eoc, First(t.place[o])))
      && (forall a, b, c :: 0 <= a < b < |t.place| && HasChain(t, a) && HasChain(t, b) ==>
           !(c in Chain(t.fs.vol.fat, First(t.place[a])) && c in Chain(t.fs.vol.fat, First(t.place[b]))))
  {
    hide CoreInv, LogInv, AllHeld, ShortNames, Run, IdealRun, InitialState, TrapsOf, TrapDirs, Alpha, Chain,
      ChainEnds, Linked, Formed;
    var s := InitialState(g, header, longNames);
    InitialInv(g, header, longNames, true);
    RunnableInv(s, [0, 0], [[]], true);
    if Run(s, ops).Ok? {
      var owner, logs := RunKeeps(s, [0, 0], [[]], true, ops);
      Integrity(Run(s, ops).value, owner, logs);
    }
  }

  lemma HeadsOwned(t: FsState, owner: seq<nat>, logs: seq<seq<Record>>, o: nat)
    requires CoreInv(t, owner, logs) && o < |t.place| && HasChain(t, o)
    ensures 1 <= First(t.place[o]) <= t.fs.free && owner[First(t.place[o])] == o
  {
    if t.tree[o].isDir {
      assert DirOk(t.fs, owner, t.taken, t.place[o], o, logs[o]);
    } else {
      assert FileOk(t.fs, owner, t.taken, t.place[o], o);
    }
  }

  lemma Integrity(t: FsState, owner: seq<nat>, logs: seq<seq<Record>>)
    requires CoreInv(t, owner, logs)
    ensures Formed(t) && 1 <= t.fs.free < |t.fs.next|
    ensures forall c :: 1 <= c <= t.fs.free ==> Linked(t.fs, c)
    ensures forall c :: 1 <= c < |t.fs.next| ==> (t.fs.vol.fat[c] != 0 <==> c <= t.fs.free)
    ensures forall o :: 0 <= o < |t.place| && HasChain(t, o) ==> ChainEnds(t.fs.vol.fat, t.fs.eoc, First(t.place[o]))
    ensures forall a, b, c :: 0 <= a < b < |t.place| && HasChain(t, a) && HasChain(t, b) ==>
      !(c in Chain(t.fs.vol.fat, First(t.place[a])) && c in Chain(t.fs.vol.fat, First(t.place[b])))
  {
    hide TakenOk, Objects, Chain, ChainEnds, TreeOk, HasChain;
    forall c | 1 <= c < |t.fs.next|
      ensures t.fs.vol.fat[c] != 0 <==> c <= t.fs.free
    {
      if c <= t.fs.free {
        assert Linked(t.fs, c);
      }
    }
    forall o | 0 <= o < |t.place| && HasChain(t, o)
      ensures ChainEnds(t.fs.vol.fat, t.fs.eoc, First(t.place[o]))
    {
      HeadsOwned(t, owner, logs, o);
      InvChainEnds(t.fs, First(t.place[o]));
    }
    forall a, b, c | 0 <= a < b < |t.place| && HasChain(t, a) && HasChain(t, b)
      ensures !(c in Chain(t.fs.vol.fat, First(t.place[a])) && c in Chain(t.fs.vol.fat, First(t.place[b])))
    {
      HeadsOwned(t, owner, logs, a);
      HeadsOwned(t, owner, logs, b);
      ChainsOfOwnersDisjoint(t.fs, owner, First(t.place[a]), First(t.place[b]));
    }
  }
}
