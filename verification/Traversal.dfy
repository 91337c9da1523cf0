/** `traverse_folder_tree` of `fatfsparse.py` as it runs: long-name support is a global flag that the
    first record that does not parse switches on. Module FatParser has the loops. */
module Traversal {
  import opened Bytes
  import opened Volume
  import opened DirectoryRecords
  import opened LongNames
  import opened NameTree
  import opened FileSystem
  import opened FileSystemInvariant
  import opened FileSystemRuns
  import opened DirectoryListing
  import opened Reader

  /** What was read, None if reading raised, and the flag. */
  type Walked = (Option<seq<Tree>>, bool)

  /** `before`, then what was read next. */
  function Then(before: seq<Tree>, rest: Walked): Walked {
    if rest.0.None? then rest else (Some(before + rest.0.value), rest.1)
  }

  /** `traverse_folder_tree` from record `k` on, directories nested at most `depth` deep. */
  function Walk(vol: Vol, recs: seq<Record>, k: nat, support: bool, depth: nat): Walked
    decreases depth, |recs| - k
  {
    if k >= |recs| then (Some([]), support)
    else if !Parses(recs[k]) then Walk(vol, recs, k + 1, true, depth)
    else if AttrOf(recs[k]) == 0 then Walk(vol, recs, k + 1, support, depth)
    else if !ChecksumDefined(recs[k]) then (None, support)
    else
      var name := ObjName(recs, k, support);
      if AttrOf(recs[k]) == ATTR_ARCHIVE then
        Then([FileTree(name, ReadContent(vol, recs[k]))], Walk(vol, recs, k + 1, support, depth))
      else if AttrOf(recs[k]) == ATTR_DIRECTORY && !IsDotName(name) then
        if depth == 0 then (None, support)
        else
          var children := Walk(vol, RecordsOf(DirContent(vol, ClusterOf(recs[k]))), 0, support, depth - 1);
          if children.0.None? then children
          else Then([DirTree(name, children.0.value)], Walk(vol, recs, k + 1, children.1, depth))
      else Walk(vol, recs, k + 1, support, depth)
  }

  /** The tree the reader makes of a volume, started with or without the long-name option. */
  function ParseTree(vol: Vol, option: bool, depth: nat): Option<seq<Tree>> {
    Walk(vol, RecordsOf(DirContent(vol, 1)), 0, option, depth).0
  }

  // ---- where the flag matters ----

  /** Looking up the long name of an object that is not preceded by a long-name record finds
      nothing else than the short name. */
  lemma FlagMatters(log: seq<Record>, k: nat)
    requires k < |log| && AnnouncedAt(log, k)
    ensures ObjName(log, k, false) == ObjName(log, k, true) || (k > 0 && AttrOf(log[k - 1]) == ATTR_LONG_NAME)
  {
    if NtResOf(log[k]) != LDIR_DIR_NTRES && !(k > 0 && AttrOf(log[k - 1]) == ATTR_LONG_NAME) {
      ScanShort(log, k, Checksum(NameField(log[k]) + ExtField(log[k])), map[]);
      JoinEmpty(0);
    }
  }

  /** One turn of the loop on a record that is no object. */
  lemma WalkSkips(vol: Vol, recs: seq<Record>, k: nat, flag: bool, depth: nat)
    requires k < |recs| && (!Parses(recs[k]) || AttrOf(recs[k]) == 0)
    ensures Walk(vol, recs, k, flag, depth) == Walk(vol, recs, k + 1, flag || !Parses(recs[k]), depth)
    ensures ReadFrom(vol, recs, k, true, depth) == ReadFrom(vol, recs, k + 1, true, depth)
  {
    hide Parses, ChecksumDefined, ObjName, ReadContent, IsDotName, RecordsOf, DirContent;
  }

  lemma {:induction false} WalkRaises(vol: Vol, recs: seq<Record>, k: nat, flag: bool, depth: nat)
    requires k < |recs| && Parses(recs[k]) && AttrOf(recs[k]) != 0 && !ChecksumDefined(recs[k])
    ensures Walk(vol, recs, k, flag, depth).0 == ReadFrom(vol, recs, k, true, depth) == None
  {
    hide Parses, ChecksumDefined, ObjName, ReadContent, IsDotName, RecordsOf, DirContent;
  }

  /** One turn on an object whose name does not depend on the flag. */
  lemma WalkObject(vol: Vol, recs: seq<Record>, k: nat, flag: bool, depth: nat)
    requires k < |recs| && Parses(recs[k]) && AttrOf(recs[k]) != 0 && ChecksumDefined(recs[k])
    requires ObjName(recs, k, flag) == ObjName(recs, k, true)
    requires Walk(vol, recs, k + 1, true, depth).0 == ReadFrom(vol, recs, k + 1, true, depth)
    requires Walk(vol, recs, k + 1, false, depth).0 == ReadFrom(vol, recs, k + 1, true, depth)
    requires AttrOf(recs[k]) == ATTR_DIRECTORY && !IsDotName(ObjName(recs, k, true)) && depth > 0 ==>
      var child := RecordsOf(DirContent(vol, ClusterOf(recs[k])));
      Walk(vol, child, 0, flag, depth - 1).0 == ReadFrom(vol, child, 0, true, depth - 1)
    ensures Walk(vol, recs, k, flag, depth).0 == ReadFrom(vol, recs, k, true, depth)
  {
    hide Parses, ChecksumDefined, ObjName, ReadContent, IsDotName, RecordsOf, DirContent;
  }

  /** The flag is on behind a long-name record. */
  predicate FlagSet(log: seq<Record>, k: nat, flag: bool) {
    0 < k <= |log| && AttrOf(log[k - 1]) == ATTR_LONG_NAME ==> flag
  }

  /** Whatever the flag was at the start, the reader finds what it finds with long names on. */
  lemma {:induction false} WalkIs(s: FsState, owner: seq<nat>, logs: seq<seq<Record>>, d: nat, k: nat, flag: bool,
                                  depth: nat)
    requires CoreInv(s, owner, logs) && LogInv(s, logs, true)
    requires IsDirectory(s, d) && FlagSet(logs[d], k, flag)
    ensures var recs := EntryRecordsOf(s.fs.vol.area, s.place[d].entries);
      Walk(s.fs.vol, recs, k, flag, depth).0 == ReadFrom(s.fs.vol, recs, k, true, depth)
    decreases depth, |s.place[d].entries| - k, 1
  {
    hide CoreInv, LogOk, Lists, Listing, SlotRecord, ObjName, Mask, Display, IsDotName, Parses, ChecksumDefined,
      IsObject, CleanName, ReadFrom, Walk, AnnouncedAt;
    CoreFacts(s, owner, logs);
    var vol, log := s.fs.vol, logs[d];
    var recs := EntryRecordsOf(vol.area, s.place[d].entries);
    ReadRecords(s, owner, logs, d);
    if k >= |recs| {
      NothingMore(vol, recs, k, flag, depth);
    } else if k >= |log| {
      ZeroRecord();
      WalkSkips(vol, recs, k, flag, depth);
      WalkIs(s, owner, logs, d, k + 1, flag || !Parses(recs[k]), depth);
    } else {
      assert Mask(recs[k]) == Mask(log[k]);
      ParsesSame(recs[k], log[k]);
      LogShape(s, logs, d, k);
      if IsObject(log[k]) {
        WalkObjectIs(s, owner, logs, d, k, flag, depth);
      } else if Parses(recs[k]) {
        LongRaises(recs[k], log[k]);
        WalkRaises(vol, recs, k, flag, depth);
      } else {
        WalkSkips(vol, recs, k, flag, depth);
        WalkIs(s, owner, logs, d, k + 1, true, depth);
      }
    }
  }

  lemma {:induction false} NothingMore(vol: Vol, recs: seq<Record>, k: nat, flag: bool, depth: nat)
    requires k >= |recs|
    ensures Walk(vol, recs, k, flag, depth).0 == ReadFrom(vol, recs, k, true, depth)
  {
  }

  /** A long-name record that parses makes the reader raise. */
  lemma LongRaises(a: Record, b: Record)
    requires Mask(a) == Mask(b) && LongShape(b) && Parses(a)
    ensures AttrOf(a) != 0 && !ChecksumDefined(a)
  {
    ParsesSame(a, b);
    TrapRaises(a, b);
  }

  lemma LogShape(s: FsState, logs: seq<seq<Record>>, d: nat, k: nat)
    requires Formed(s) && |logs| == |s.tree| && LogInv(s, logs, true) && IsDirectory(s, d) && k < |logs[d]|
    ensures IsObject(logs[d][k]) ==>
      CleanName(logs[d][k]) && AnnouncedAt(logs[d], k) && AttrOf(logs[d][k]) != ATTR_LONG_NAME
    ensures !IsObject(logs[d][k]) ==> LongShape(logs[d][k])
  {
    assert LogOk(s.longNames, true, s.tree, s.place, logs[d], d);
    assert logs[d][k] in logs[d];
  }

  /** The turn on the record of an object. */
  lemma {:induction false} WalkObjectIs(s: FsState, owner: seq<nat>, logs: seq<seq<Record>>, d: nat, k: nat,
                                        flag: bool, depth: nat)
    requires CoreInv(s, owner, logs) && LogInv(s, logs, true)
    requires IsDirectory(s, d) && FlagSet(logs[d], k, flag)
    requires k < |logs[d]| <= |s.place[d].entries| && IsObject(logs[d][k])
    ensures var recs := EntryRecordsOf(s.fs.vol.area, s.place[d].entries);
      Walk(s.fs.vol, recs, k, flag, depth).0 == ReadFrom(s.fs.vol, recs, k, true, depth)
    decreases depth, |s.place[d].entries| - k, 0
  {
    hide CoreInv, LogOk, Lists, Listing, SlotRecord, ObjName, Mask, Display, IsDotName, Parses, ChecksumDefined,
      IsObject, CleanName, ReadFrom, Walk, ReadContent, RecordsOf, DirContent, AnnouncedAt;
    CoreFacts(s, owner, logs);
    var vol, log := s.fs.vol, logs[d];
    var recs := EntryRecordsOf(vol.area, s.place[d].entries);
    ReadRecords(s, owner, logs, d);
    LogShape(s, logs, d, k);
    assert Mask(recs[k]) == Mask(log[k]);
    CleanRecord(recs[k], log[k]);
    FlagMatters(log, k);
    ObjNameSame(recs, log, k, flag);
    ObjNameSame(recs, log, k, true);
    ObjectIsSet(log[k]);
    WalkIs(s, owner, logs, d, k + 1, true, depth);
    WalkIs(s, owner, logs, d, k + 1, false, depth);
    if AttrOf(recs[k]) == ATTR_DIRECTORY && !IsDotName(ObjName(recs, k, true)) && depth > 0 {
      var e := DirectoryAt(s, owner, logs, d, k);
      ReadRecords(s, owner, logs, e);
      WalkIs(s, owner, logs, e, 0, flag, depth - 1);
    }
    WalkObject(vol, recs, k, flag, depth);
  }

  lemma ObjectIsSet(r: Record)
    requires IsObject(r)
    ensures AttrOf(r) != 0 && AttrOf(r) != ATTR_LONG_NAME
  {
  }

  /** The directory whose record stands at `k`. */
  lemma DirectoryAt(s: FsState, owner: seq<nat>, logs: seq<seq<Record>>, d: nat, k: nat) returns (e: nat)
    requires CoreInv(s, owner, logs) && LogInv(s, logs, true)
    requires IsDirectory(s, d) && k < |logs[d]| <= |s.place[d].entries| && IsObject(logs[d][k])
    requires AttrOf(logs[d][k]) == ATTR_DIRECTORY && !IsDotName(ObjName(logs[d], k, true))
    ensures e < |s.tree| && IsDirectory(s, e)
    ensures ClusterOf(EntryRecordsOf(s.fs.vol.area, s.place[d].entries)[k]) == s.place[e].head
  {
    hide CoreInv, LogOk, Lists, Listing, SlotRecord, ObjName, Mask, Display, IsDotName, IsObject, CleanName;
    CoreFacts(s, owner, logs);
    assert LogOk(s.longNames, true, s.tree, s.place, logs[d], d);
    ObjectAt(s.longNames, true, s.tree, s.place, logs[d], d, k);
    e := s.tree[d].entities[|Listing(logs[d], k)| - Dots(d)];
    EntityRead(s, owner, logs, true, d, k, e);
  }

  // ---- directories that read as dot links ----

  /** No directory in the tree is called `.` or `..`. */
  predicate NoDotTree(t: Tree) {
    match t
    case FileTree(_, _) => true
    case DirTree(name, children) => !IsDotName(name) && NoDotTrees(children)
  }

  predicate NoDotTrees(ts: seq<Tree>) {
    forall t :: t in ts ==> NoDotTree(t)
  }

  lemma {:induction false} NoneLeft(ts: seq<Tree>)
    ensures NoDotTrees(WithoutDots(ts))
  {
    hide IsDotName;
    if ts != [] {
      NoneLeft(ts[1..]);
      if ts[0].DirTree? {
        NoneLeft(ts[0].children);
      }
    }
  }

  lemma {:induction false} NothingTaken(ts: seq<Tree>)
    requires NoDotTrees(ts)
    ensures WithoutDots(ts) == ts
  {
    hide IsDotName;
    if ts != [] {
      assert ts[0] in ts;
      assert ts == [ts[0]] + ts[1..];
      assert forall t :: t in ts[1..] ==> t in ts;
      NothingTaken(ts[1..]);
      if ts[0].DirTree? {
        NothingTaken(ts[0].children);
      }
    }
  }

  /** The part of the ideal tree that stands for object `e`. */
  function IdealNode(i: Ideal, longNames: bool, e: nat): Tree
    requires i.Ok() && e < |i.tree|
  {
    var name := Display(longNames, i.tree[e].name, i.tree[e].ext);
    if i.tree[e].isDir then DirTree(name, IdealFrom(i, longNames, e, 0)) else FileTree(name, i.contents[e])
  }

  /** Every entity is shown among the children of its directory. */
  lemma {:induction false} EntityShown(i: Ideal, longNames: bool, d: nat, from: nat, j: nat)
    requires i.Ok() && d < |i.tree| && from <= j < |i.tree[d].entities|
    ensures i.tree[d].entities[j] < |i.tree|
    ensures IdealNode(i, longNames, i.tree[d].entities[j]) in IdealFrom(i, longNames, d, from)
    decreases j - from
  {
    hide Display;
    IdealOne(i, longNames, d, from);
    IdealOne(i, longNames, d, j);
    if from < j {
      EntityShown(i, longNames, d, from + 1, j);
    }
  }

  /** A directory called like a dot link is seen from the root. */
  lemma {:induction false} DotShown(i: Ideal, longNames: bool, e: nat)
    requires i.Ok() && AllHeld(i.tree) && 0 < e < |i.tree| && !NoDotTree(IdealNode(i, longNames, e))
    ensures !NoDotTrees(IdealTree(i, longNames))
    decreases e
  {
    hide Display, IsDotName, IdealFrom;
    assert Held(i.tree, e);
    var p, j :| HeldBy(i.tree, e, p, j);
    EntityShown(i, longNames, p, 0, j);
    if p > 0 {
      DotShown(i, longNames, p);
    }
  }

  lemma {:induction false} IdealNoDots(i: Ideal, longNames: bool, d: nat, j: nat)
    requires i.Ok() && d < |i.tree| && NoDotNames(longNames, i.tree)
    ensures NoDotTrees(IdealFrom(i, longNames, d, j))
    decreases |i.tree| - d, |i.tree[d].entities| - j
  {
    hide Display, IsDotName, IdealFrom;
    if j < |i.tree[d].entities| {
      IdealOne(i, longNames, d, j);
      var e := i.tree[d].entities[j];
      IdealNoDots(i, longNames, d, j + 1);
      if i.tree[e].isDir {
        IdealNoDots(i, longNames, e, 0);
      }
    } else {
      NoMore(i, longNames, d, j);
    }
  }

  lemma {:induction false} NoMore(i: Ideal, longNames: bool, d: nat, j: nat)
    requires i.Ok() && d < |i.tree| && j >= |i.tree[d].entities|
    ensures IdealFrom(i, longNames, d, j) == []
  {
  }

  /** The whole ideal tree is left exactly if no directory reads as a dot link. */
  lemma DotsTaken(i: Ideal, longNames: bool)
    requires i.Ok() && AllHeld(i.tree)
    ensures WithoutDots(IdealTree(i, longNames)) == IdealTree(i, longNames) <==> NoDotNames(longNames, i.tree)
  {
    hide Display, IsDotName, IdealFrom, WithoutDots, AllHeld;
    if NoDotNames(longNames, i.tree) {
      IdealNoDots(i, longNames, 0, 0);
      NothingTaken(IdealTree(i, longNames));
    } else {
      var e :| 0 < e < |i.tree| && i.tree[e].isDir && IsDotName(Display(longNames, i.tree[e].name, i.tree[e].ext));
      DotShown(i, longNames, e);
      NoneLeft(IdealTree(i, longNames));
    }
  }

  // ---- where traps lie ----

  lemma {:induction false} NoTrapShown(longNames: bool, tree: seq<TNode>, d: nat)
    requires TreeOk(tree) && d < |tree|
    ensures !TrapShown(longNames, tree, {}, d)
    decreases |tree| - d
  {
    hide ShownDir;
    forall j | 0 <= j < |tree[d].entities| && ShownDir(longNames, tree, d, j)
      ensures !TrapShown(longNames, tree, {}, tree[d].entities[j])
    {
      NoTrapShown(longNames, tree, tree[d].entities[j]);
    }
  }

  /** Without dot names, whatever is shown in a directory is shown from the root. */
  lemma {:induction false} ShownFromRoot(longNames: bool, tree: seq<TNode>, traps: set<nat>, d: nat)
    requires TreeOk(tree) && AllHeld(tree) && NoDotNames(longNames, tree)
    requires d < |tree| && tree[d].isDir && TrapShown(longNames, tree, traps, d)
    ensures TrapShown(longNames, tree, traps, 0)
    decreases d
  {
    hide Display, IsDotName;
    if d > 0 {
      assert Held(tree, d);
      var p: nat, j: nat :| HeldBy(tree, d, p, j);
      assert ShownDir(longNames, tree, p, j);
      ShownFromRoot(longNames, tree, traps, p);
    }
  }

  // ---- the results ----

  /** With or without the long-name option, what the reader finds is exactly this: it raises if a trap
      lies outside every directory that reads as a dot link; otherwise it finds the ideal tree without
      those directories. */
  lemma ParseTreeExactly(s: FsState, owner: seq<nat>, logs: seq<seq<Record>>, option: bool, depth: nat)
    requires CoreInv(s, owner, logs) && LogInv(s, logs, true)
    requires depth + 1 >= |s.tree|
    ensures TreeOk(s.tree)
    ensures ParseTree(s.fs.vol, option, depth) ==
      if TrapShown(s.longNames, s.tree, TrapDirs(logs), 0) then None
      else Some(WithoutDots(IdealTree(Alpha(s), s.longNames)))
  {
    hide CoreInv, LogInv, Alpha, TrapShown, WithoutDots, IdealTree, ParseTree, ReadTree;
    ReadTreeExactly(s, owner, logs, true, depth);
    WalkFromRoot(s, owner, logs, option, depth);
  }

  /** The reader gives back the ideal tree exactly when no record is a trap and no directory reads as
      a dot link. */
  lemma ParseTreeIff(s: FsState, owner: seq<nat>, logs: seq<seq<Record>>, option: bool, depth: nat)
    requires CoreInv(s, owner, logs) && LogInv(s, logs, true) && AllHeld(s.tree)
    requires depth + 1 >= |s.tree|
    ensures ParseTree(s.fs.vol, option, depth) == Some(IdealTree(Alpha(s), s.longNames)) <==>
      TrapDirs(logs) == {} && NoDotNames(s.longNames, s.tree)
    ensures NoDotNames(s.longNames, s.tree) && TrapDirs(logs) != {} ==> ParseTree(s.fs.vol, option, depth) == None
  {
    hide CoreInv, LogInv, NoDotNames, AllHeld, Alpha, TrapShown, WithoutDots, IdealTree, ParseTree, TreeOk, Trap;
    CoreFacts(s, owner, logs);
    RootHead(s, owner, logs);
    ParseTreeExactly(s, owner, logs, option, depth);
    DotsTaken(Alpha(s), s.longNames);
    if TrapDirs(logs) == {} {
      NoTrapShown(s.longNames, s.tree, 0);
    } else if NoDotNames(s.longNames, s.tree) {
      var d :| d in TrapDirs(logs);
      TrapDirIsDir(s, logs, d);
      ShownHere(s.longNames, s.tree, TrapDirs(logs), d);
      ShownFromRoot(s.longNames, s.tree, TrapDirs(logs), d);
    }
  }

  lemma {:induction false} ShownHere(longNames: bool, tree: seq<TNode>, traps: set<nat>, d: nat)
    requires TreeOk(tree) && d < |tree| && d in traps
    ensures TrapShown(longNames, tree, traps, d)
  {
  }

  lemma TrapDirIsDir(s: FsState, logs: seq<seq<Record>>, d: nat)
    requires Formed(s) && |logs| == |s.tree| && LogInv(s, logs, true) && d in TrapDirs(logs)
    ensures d < |s.tree| && s.tree[d].isDir
  {
    hide Trap, LogOk;
  }

  lemma WalkFromRoot(s: FsState, owner: seq<nat>, logs: seq<seq<Record>>, option: bool, depth: nat)
    requires CoreInv(s, owner, logs) && LogInv(s, logs, true)
    ensures ParseTree(s.fs.vol, option, depth) == ReadTree(s.fs.vol, true, depth)
  {
    RootHead(s, owner, logs);
    ReadRecords(s, owner, logs, 0);
    WalkIs(s, owner, logs, 0, 0, option, depth);
  }
}
