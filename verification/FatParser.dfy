/** The program of `fatfsparse.py` on the bytes of an image: the loops of `traverse_folder_tree` and
    `get_obj_name`, with the chains followed by the class FAT. */
module FatParser {
  import opened Bytes
  import opened Volume
  import opened BootSectorImage
  import opened FatChains
  import opened FatTableObject
  import opened DirectoryRecords
  import opened LongNames
  import opened NameTree
  import opened FileSystem
  import opened FileSystemInvariant
  import opened FileSystemRuns
  import opened DirectoryListing
  import opened Reader
  import opened Traversal
  import opened HostFolder
  import opened Fatfs

  // ---- the chains that are followed ----

  /** No record before `k` raises or switches the long-name flag on. */
  predicate Quiet(recs: seq<Record>, k: nat) {
    forall j :: 0 <= j < k && j < |recs| ==> Parses(recs[j]) && (AttrOf(recs[j]) != 0 ==> ChecksumDefined(recs[j]))
  }

  /** The directory record at `k` is not taken for a dot link, whatever the flag can be there. */
  predicate MayEnter(recs: seq<Record>, k: nat)
    requires k < |recs|
  {
    !IsDotName(ObjName(recs, k, true)) || (Quiet(recs, k) && !IsDotName(ObjName(recs, k, false)))
  }

  ghost predicate Follows(vol: Vol, eoc: nat, r: Record) {
    ClusterOf(r) >= 2 && ChainEnds(vol.fat, eoc, ClusterOf(r))
  }

  /** Every chain that reading these records follows comes to its end marker. */
  ghost predicate Followable(vol: Vol, eoc: nat, recs: seq<Record>, depth: nat)
    decreases depth
  {
    forall k :: 0 <= k < |recs| && Parses(recs[k]) ==>
      && (AttrOf(recs[k]) == ATTR_ARCHIVE && SizeOf(recs[k]) > 0 ==> Follows(vol, eoc, recs[k]))
      && (AttrOf(recs[k]) == ATTR_DIRECTORY && MayEnter(recs, k) && depth > 0 ==>
           && Follows(vol, eoc, recs[k])
           && Followable(vol, eoc, RecordsOf(DirContent(vol, ClusterOf(recs[k]))), depth - 1))
  }

  lemma FollowAt(vol: Vol, eoc: nat, recs: seq<Record>, k: nat, depth: nat)
    requires Followable(vol, eoc, recs, depth) && k < |recs| && Parses(recs[k])
    ensures AttrOf(recs[k]) == ATTR_ARCHIVE && SizeOf(recs[k]) > 0 ==>
      ClusterOf(recs[k]) >= 2 && ChainEnds(vol.fat, eoc, ClusterOf(recs[k]))
    ensures AttrOf(recs[k]) == ATTR_DIRECTORY && MayEnter(recs, k) && depth > 0 ==>
      && ClusterOf(recs[k]) >= 2 && ChainEnds(vol.fat, eoc, ClusterOf(recs[k]))
      && Followable(vol, eoc, RecordsOf(DirContent(vol, ClusterOf(recs[k]))), depth - 1)
      && DirContent(vol, ClusterOf(recs[k])) == Concat(vol.area, Chain(vol.fat, ClusterOf(recs[k])))
  {
    hide Parses, MayEnter, ChainEnds, RecordsOf;
  }

  lemma QuietStart(recs: seq<Record>)
    ensures Quiet(recs, 0)
  {
  }

  lemma QuietMore(recs: seq<Record>, k: nat)
    requires k < |recs|
    ensures Quiet(recs, k) && Parses(recs[k]) && (AttrOf(recs[k]) != 0 ==> ChecksumDefined(recs[k])) ==>
      Quiet(recs, k + 1)
  {
    hide Parses, ChecksumDefined;
  }

  /** What the record of an object says about its chain. */
  lemma EntityFollows(s: FsState, owner: seq<nat>, logs: seq<seq<Record>>, d: nat, k: nat, e: nat)
    requires CoreInv(s, owner, logs) && IsDirectory(s, d) && k < |logs[d]| <= |s.place[d].entries| && d < e < |s.tree|
    requires Lists(s.longNames, true, s.tree[e], s.place[e], logs[d], s.place[d].entries, k)
    ensures var r := EntryRecordsOf(s.fs.vol.area, s.place[d].entries)[k];
      && (s.tree[e].isDir ==> IsDirectory(s, e) && ClusterOf(r) == s.place[e].head && Follows(s.fs.vol, s.fs.eoc, r))
      && (!s.tree[e].isDir && SizeOf(r) > 0 ==> Follows(s.fs.vol, s.fs.eoc, r))
      && (s.tree[e].isDir <==> AttrOf(r) == ATTR_DIRECTORY)
  {
    hide TreeOk, ObjName, Display, Concat, Chain, ChainEnds;
    var r := EntryRecordsOf(s.fs.vol.area, s.place[d].entries)[k];
    ReadRecords(s, owner, logs, d);
    MaskedFields(r, logs[d][k], 0);
    if s.tree[e].isDir {
      assert DirOk(s.fs, owner, s.taken, s.place[e], e, logs[e]);
      InvChainEnds(s.fs, s.place[e].head);
    } else {
      assert FileOk(s.fs, owner, s.taken, s.place[e], e);
      assert r == SlotRecord(s.fs.vol.area, s.place[e].entry);
      if SizeOf(r) > 0 {
        InvChainEnds(s.fs, s.place[e].first.value);
      }
    }
  }

  /** A dot link reads as one whatever the flag. */
  lemma DotLinkKept(recs: seq<Record>, log: seq<Record>, k: nat)
    requires SameNames(recs, log, |log|) && k < |log| && AnnouncedAt(log, k) && AttrOf(log[k]) != ATTR_LONG_NAME
    requires k > 0 && AttrOf(log[k - 1]) == ATTR_LONG_NAME ==> LongShape(log[k - 1])
    requires IsDotName(ObjName(log, k, true))
    ensures !MayEnter(recs, k)
  {
    hide ObjName, IsDotName, Mask, Parses, ChecksumDefined, LongShape, AnnouncedAt;
    ObjNameSame(recs, log, k, true);
    ObjNameSame(recs, log, k, false);
    FlagMatters(log, k);
    if k > 0 && AttrOf(log[k - 1]) == ATTR_LONG_NAME && Quiet(recs, k) {
      assert Mask(recs[k - 1]) == Mask(log[k - 1]);
      LongRaises(recs[k - 1], log[k - 1]);
    }
  }

  /** In a volume that satisfies the invariant, all of them do. */
  lemma {:induction false} InvFollowable(s: FsState, owner: seq<nat>, logs: seq<seq<Record>>, d: nat, depth: nat)
    requires CoreInv(s, owner, logs) && LogInv(s, logs, true) && IsDirectory(s, d)
    ensures Followable(s.fs.vol, s.fs.eoc, EntryRecordsOf(s.fs.vol.area, s.place[d].entries), depth)
    decreases depth
  {
    hide CoreInv, LogInv, Parses, MayEnter, Follows, SlotRecord, RecordsOf, DirContent;
    CoreFacts(s, owner, logs);
    var recs := EntryRecordsOf(s.fs.vol.area, s.place[d].entries);
    forall k | 0 <= k < |recs| && Parses(recs[k])
      ensures AttrOf(recs[k]) == ATTR_ARCHIVE && SizeOf(recs[k]) > 0 ==> Follows(s.fs.vol, s.fs.eoc, recs[k])
      ensures AttrOf(recs[k]) == ATTR_DIRECTORY && MayEnter(recs, k) && depth > 0 ==>
        && Follows(s.fs.vol, s.fs.eoc, recs[k])
        && Followable(s.fs.vol, s.fs.eoc, RecordsOf(DirContent(s.fs.vol, ClusterOf(recs[k]))), depth - 1)
    {
      var e := RecordFollows(s, owner, logs, d, k);
      if AttrOf(recs[k]) == ATTR_DIRECTORY && MayEnter(recs, k) && depth > 0 {
        InvFollowable(s, owner, logs, e, depth - 1);
        ReadRecords(s, owner, logs, e);
      }
    }
  }

  /** One record; `e` is the directory it leads to, if it leads to one. */
  lemma RecordFollows(s: FsState, owner: seq<nat>, logs: seq<seq<Record>>, d: nat, k: nat) returns (e: nat)
    requires CoreInv(s, owner, logs) && LogInv(s, logs, true) && IsDirectory(s, d) && k < |s.place[d].entries|
    requires Parses(EntryRecordsOf(s.fs.vol.area, s.place[d].entries)[k])
    ensures var recs := EntryRecordsOf(s.fs.vol.area, s.place[d].entries);
      && (AttrOf(recs[k]) == ATTR_ARCHIVE && SizeOf(recs[k]) > 0 ==> Follows(s.fs.vol, s.fs.eoc, recs[k]))
      && (AttrOf(recs[k]) == ATTR_DIRECTORY && MayEnter(recs, k) ==>
           Follows(s.fs.vol, s.fs.eoc, recs[k]) && IsDirectory(s, e) && ClusterOf(recs[k]) == s.place[e].head)
  {
    hide CoreInv, LogOk, Parses, MayEnter, Follows, SlotRecord, Mask, ObjName, IsDotName, Lists, Listing, IsObject,
      CleanName,
      LongShape, AnnouncedAt, Display;
    CoreFacts(s, owner, logs);
    var recs, log := EntryRecordsOf(s.fs.vol.area, s.place[d].entries), logs[d];
    ReadRecords(s, owner, logs, d);
    e := 0;
    if k >= |log| {
      ZeroRecord();
    } else {
      assert Mask(recs[k]) == Mask(log[k]);
      ParsesSame(recs[k], log[k]);
      LogShape(s, logs, d, k);
      if IsObject(log[k]) {
        assert LogOk(s.longNames, true, s.tree, s.place, log, d);
        ObjectAt(s.longNames, true, s.tree, s.place, log, d, k);
        var i := |Listing(log, k)|;
        if i >= Dots(d) {
          e := s.tree[d].entities[i - Dots(d)];
          EntityFollows(s, owner, logs, d, k, e);
        } else {
          if k > 0 {
            LogShape(s, logs, d, k - 1);
          }
          ObjectIsSet(log[k]);
          DotLinkKept(recs, log, k);
        }
      } else {
        LongIsLong(log[k]);
      }
    }
  }

  lemma LongIsLong(r: Record)
    requires LongShape(r)
    ensures AttrOf(r) == ATTR_LONG_NAME
  {
  }

  // ---- the loops ----

  /** The FAT of the image and the flag `args.long_name_support`. */
  class Parser {
    const fat: FAT
    var longNameSupport: bool

    constructor (f: FAT, option: bool)
      ensures fat == f && longNameSupport == option
    {
      fat := f;
      longNameSupport := option;
    }

    /** `get_obj_name`: a dictionary filled from the records before `pos`, backwards. */
    method GetObjName(recs: seq<Record>, pos: nat) returns (name: Text)
      requires pos < |recs|
      ensures name == ObjName(recs, pos, longNameSupport)
    {
      hide ShortName, ParseEntryLong, BuildFileName, Checksum;
      var shortName := ShortName(recs[pos]);
      if !longNameSupport || NtResOf(recs[pos]) == LDIR_DIR_NTRES {
        return shortName;
      }
      var checksum := Checksum(NameField(recs[pos]) + ExtField(recs[pos]));
      var fullName: map<byte, Text> := map[];
      ghost var goal := Scan(recs, pos, checksum, map[]);
      var p := pos;
      while p > 0
        invariant p <= pos && Scan(recs, p, checksum, fullName) == goal
      {
        ghost var before := fullName;
        var part := ParseEntryLong(recs[p - 1], checksum);
        p := p - 1;
        if part.Some? {
          fullName := fullName[part.value.order := BuildFileName(part.value.names)];
          if part.value.isLast {
            break;
          }
        }
      }
      var long := JoinSorted(fullName);
      if long != [] { return long; }
      return shortName;
    }

    /** `''.join` over the items in the order of their keys. */
    method JoinSorted(names: map<byte, Text>) returns (text: Text)
      ensures text == Join(names, 0)
    {
      text := [];
      var key: nat := 256;
      while key > 0
        invariant 0 <= key <= 256 && text == Join(names, key)
      {
        key := key - 1;
        if key in names {
          text := names[key] + text;
        }
      }
    }

    /** `traverse_folder_tree` */
    method Traverse(recs: seq<Record>, depth: nat) returns (r: Option<seq<Tree>>)
      requires fat.Valid() && Followable(fat.boot.Contents(), fat.boot.geo.Eoc(), recs, depth)
      modifies this`longNameSupport
      ensures (r, longNameSupport) == Walk(fat.boot.Contents(), recs, 0, old(longNameSupport), depth)
      ensures old(longNameSupport) ==> longNameSupport
      decreases depth
    {
      hide Parses, ChecksumDefined, ObjName, IsDotName, RecordsOf, ChainEnds, BootSectorState.Contents, Followable,
        Quiet, Concat, Chain, DirContent;
      ghost var vol, eoc := fat.boot.Contents(), fat.boot.geo.Eoc();
      ghost var goal := Walk(vol, recs, 0, longNameSupport, depth);
      var made: seq<Tree> := [];
      var k := 0;
      ThenNothing(goal);
      QuietStart(recs);
      while k < |recs|
        invariant k <= |recs| && goal == Then(made, Walk(vol, recs, k, longNameSupport, depth))
        invariant (old(longNameSupport) ==> longNameSupport) && (longNameSupport || Quiet(recs, k))
      {
        QuietMore(recs, k);
        if !Parses(recs[k]) {
          longNameSupport := true;
          k := k + 1;
          continue;
        }
        if AttrOf(recs[k]) == 0 {
          k := k + 1;
          continue;
        }
        if !ChecksumDefined(recs[k]) { return None; }
        FollowAt(vol, eoc, recs, k, depth);
        var name := GetObjName(recs, k);
        if AttrOf(recs[k]) == ATTR_ARCHIVE {
          var content: seq<byte> := [];
          if SizeOf(recs[k]) > 0 {
            content := fat.GetChainedContent(ClusterOf(recs[k]), Some(SizeOf(recs[k])));
          }
          var file := FileTree(name, content);
          ThenThen(made, file, Walk(vol, recs, k + 1, longNameSupport, depth));
          made := made + [file];
        } else if AttrOf(recs[k]) == ATTR_DIRECTORY && !IsDotName(name) {
          if depth == 0 { return None; }
          var content := fat.GetChainedContent(ClusterOf(recs[k]), None);
          var children := Traverse(RecordsOf(content), depth - 1);
          if children.None? { return None; }
          var dir := DirTree(name, children.value);
          ThenThen(made, dir, Walk(vol, recs, k + 1, longNameSupport, depth));
          made := made + [dir];
        }
        k := k + 1;
      }
      r := Some(made);
      assert made + [] == made;
    }
  }

  lemma ThenNothing(rest: Walked)
    ensures Then([], rest) == rest
  {
    if rest.0.Some? {
      assert [] + rest.0.value == rest.0.value;
    }
  }

  lemma ThenThen(before: seq<Tree>, t: Tree, rest: Walked)
    ensures Then(before, Then([t], rest)) == Then(before + [t], rest)
  {
    if rest.0.Some? {
      assert before + ([t] + rest.0.value) == (before + [t]) + rest.0.value;
    }
  }

  // ---- the program ----

  /** The main part of the program: the root directory from its area, everything else along chains. */
  method ParseImage(boot: BootSectorState, option: bool, depth: nat) returns (r: Option<seq<Tree>>)
    requires boot.Valid()
    requires Followable(boot.Contents(), boot.geo.Eoc(), RecordsOf(DirContent(boot.Contents(), 1)), depth)
    ensures r == ParseTree(boot.Contents(), option, depth)
  {
    hide Followable, Walk, RecordsOf, BootSectorState.Contents;
    var fat := new FAT.Open(boot);
    var root := boot.ReadArea(1);
    var parser := new Parser(fat, option);
    r := parser.Traverse(RecordsOf(root), depth);
  }

  /** What the program gives for a volume in state `s`, exactly, and when the folder made of it is the
      folder of the file system. */
  ghost predicate ReadExactly(s: FsState, logs: seq<seq<Record>>, depth: nat, r: Option<seq<Tree>>)
    requires Formed(s) && |logs| == |s.tree|
  {
    var i := Alpha(s);
    depth + 1 >= |s.tree| ==>
      && r == (if TrapShown(s.longNames, s.tree, TrapDirs(logs), 0) then None
               else Some(WithoutDots(IdealTree(i, s.longNames))))
      && (r == Some(IdealTree(i, s.longNames)) <==> TrapDirs(logs) == {} && NoDotNames(s.longNames, s.tree))
      && (r.Some? && Make(r.value, map[]).Some? && IsFolderOf(i, s.longNames, Make(r.value, map[]).value) <==>
           TrapDirs(logs) == {} && GoodNames(i, s.longNames))
  }

  /** A volume that satisfies the invariants can be read, with this result. */
  lemma {:induction false} InvReadable(s: FsState, owner: seq<nat>, logs: seq<seq<Record>>, option: bool, depth: nat)
    requires CoreInv(s, owner, logs) && Formed(s) && |logs| == |s.tree| && LogInv(s, logs, true) && AllHeld(s.tree)
    ensures Followable(s.fs.vol, s.fs.eoc, RecordsOf(DirContent(s.fs.vol, 1)), depth)
    ensures ReadExactly(s, logs, depth, ParseTree(s.fs.vol, option, depth))
  {
    hide Followable, ParseTree, RecordsOf, CoreInv, LogInv, AllHeld, TrapDirs, NoDotNames, GoodNames, IsFolderOf, Make,
      Alpha, IdealTree, TrapShown, WithoutDots;
    RootHead(s, owner, logs);
    ReadRecords(s, owner, logs, 0);
    InvFollowable(s, owner, logs, 0, depth);
    if depth + 1 >= |s.tree| {
      ParseTreeExactly(s, owner, logs, option, depth);
      ParseTreeIff(s, owner, logs, option, depth);
      ParseFolderIff(s, owner, logs, option, depth);
    }
  }

  /** End to end on the bytes: the program applied to an image that FATFS built. */
  method ReadImage(fs: FATFS, option: bool, depth: nat) returns (r: Option<seq<Tree>>)
    requires fs.Valid()
    ensures Formed(fs.State()) && |fs.logs| == |fs.tree|
    ensures r == ParseTree(fs.fat.boot.Contents(), option, depth) && ReadExactly(fs.State(), fs.logs, depth, r)
  {
    hide Followable, ParseTree, RecordsOf, BootSectorState.Contents, CoreInv, LogInv, AllHeld, ReadExactly;
    CoreFacts(fs.State(), fs.owner, fs.logs);
    InvReadable(fs.State(), fs.owner, fs.logs, option, depth);
    r := ParseImage(fs.fat.boot, option, depth);
  }
}
