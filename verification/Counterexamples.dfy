/** Runs on a fresh volume that the reader does not give back: the witnesses for the conditions of
    the results in ImageRuns. */
module Counterexamples {
  import opened Bytes
  import opened Geometry
  import opened Outcome
  import opened FatTableObject
  import opened DirectoryRecords
  import opened LongNames
  import opened NameTree
  import opened FileSystem
  import opened FileSystemInvariant
  import opened FileSystemSteps
  import opened FileSystemRuns
  import Aliases
  import opened DirectoryListing
  import opened Reader
  import opened Traversal
  import opened HostFolder
  import opened ImageRuns
  import opened Progress

  /** Create the empty file `A+AASZXY`. */
  const TRAP_FILE: Op := CreateFile([0x41, 0x2b, 0x41, 0x41, 0x53, 0x5a, 0x58, 0x59], [], [], true, DEFAULT_STAMP)

  /** Create a directory called by a dot and a blank. */
  const DOT_DIRECTORY: Op := CreateDirectory([DOT, SPACE], [], DEFAULT_STAMP)

  // ---- a fresh volume has room ----

  lemma {:induction false} AllFree(entries: seq<Slot>)
    ensures FreeCount(entries, {}) == |entries|
  {
    if entries != [] {
      AllFree(entries[1..]);
    }
  }

  lemma FreshRoom(g: Geo, header: seq<byte>, longNames: bool)
    requires g.Accepted() && |header| == 512
    ensures var s := InitialState(g, header, longNames);
      && Runnable(s) && s.fs.sectorSize >= 512 && s.longNames == longNames
      && s.tree == EmptyIdeal().tree && IsDirectory(s, 0)
      && FreeCount(s.place[0].entries, s.taken) == |s.place[0].entries| >= 16
      && Left(s) == g.Clusters() - 2 >= 0
  {
    hide FreshState, Geo.AreaLength, FreeCount;
    var s := InitialState(g, header, longNames);
    InitialInv(g, header, longNames, true);
    RunnableInv(s, [0, 0], [[]], true);
    FreshChainInv(g, header);
    FreshSizes(g, header);
    RootSize(g);
    AllFree(s.place[0].entries);
  }

  lemma RootSize(g: Geo)
    requires g.Accepted()
    ensures g.AreaLength(1) >= 512
  {
    assert g.rootSectors * g.sectorSize >= 1 * g.sectorSize;
  }

  lemma {:induction false} RunOne(s: FsState, op: Op)
    requires Runnable(s) && op.Proper()
    ensures ProperOps([op])
    ensures Run(s, [op]) == Step(s, op)
    ensures TrapsOf(s, [op]) == TrapOf(s, op)
  {
    hide Step, TrapOf;
    if Step(s, op).Ok? {
      var t := Step(s, op).value;
      assert Run(t, []).Ok? && Run(t, []).value == t && TrapsOf(t, []) == {};
    }
  }

  lemma {:induction false} RunNone(s: FsState)
    requires Runnable(s)
    ensures Run(s, []).Ok? && Run(s, []).value == s
  {
  }

  /** The fresh volume `s` has room for an object without long name, or with one long record. */
  predicate Roomy(s: FsState) {
    && Runnable(s) && s.fs.sectorSize >= 32 && s.tree == EmptyIdeal().tree && IsDirectory(s, 0)
    && FreeCount(s.place[0].entries, s.taken) >= 2
  }

  lemma FirstStep(g: Geo, header: seq<byte>, longNames: bool, op: Op)
    requires g.Accepted() && |header| == 512 && op.Proper()
    ensures var s := InitialState(g, header, longNames);
      && Roomy(s) && s.longNames == longNames && Left(s) == g.Clusters() - 2 >= 0
      && (Step(s, op).Ok? <==> Possible(s, op))
      && ProperOps([op]) && Run(s, [op]) == Step(s, op) && TrapsOf(s, [op]) == TrapOf(s, op)
  {
    hide InitialState, Run, TrapsOf, Step, Geo.Accepted, FreeCount, TrapOf, Possible, Cost;
    var s := InitialState(g, header, longNames);
    FreshRoom(g, header, longNames);
    RunNone(s);
    NextSucceeds(g, header, longNames, [], op);
    RunOne(s, op);
  }

  // ---- a trap ----

  lemma TrapFileFacts(s: FsState)
    requires Roomy(s) && s.longNames && Left(s) >= 0
    ensures TRAP_FILE.Proper() && Possible(s, TRAP_FILE) && TrapOf(s, TRAP_FILE) == {0}
    ensures var i := IdealRun(EmptyIdeal(), [TRAP_FILE]);
      i.Ok? && |i.value.tree| == 2 && NoDotNames(true, i.value.tree)
  {
    hide Checksum, FreeCount, TrapName, Display;
    TrapNameExists();
    assert TRAP_FILE.name[1] == 0x2b && TRAP_FILE.name[1] in TRAP_FILE.name;
    assert IdealStep(EmptyIdeal(), TRAP_FILE).Ok?;
    var i := IdealStep(EmptyIdeal(), TRAP_FILE).value;
    assert IdealRun(i, []) == Ok(i);
  }

  /** The file can be created, and then the reader raises. */
  lemma TrapFileRaises(g: Geo, header: seq<byte>, option: bool, depth: nat)
    requires g.Accepted() && |header| == 512 && depth >= 2
    ensures var s := InitialState(g, header, true);
      && Runnable(s) && TRAP_FILE.Proper() && Step(s, TRAP_FILE).Ok?
      && ParseTree(Step(s, TRAP_FILE).value.fs.vol, option, depth) == None
  {
    hide InitialState, Run, TrapsOf, ParseTree, Step, Geo.Accepted, FreeCount, TrapOf, Possible, IdealRun, NoDotNames;
    FirstStep(g, header, true, TRAP_FILE);
    TrapFileFacts(InitialState(g, header, true));
    ReadBack(g, header, true, [TRAP_FILE], option, depth);
  }

  // ---- a directory that reads as a dot link ----

  lemma DotDirectoryFacts(s: FsState)
    requires Roomy(s) && !s.longNames && Left(s) >= 1
    ensures DOT_DIRECTORY.Proper() && Possible(s, DOT_DIRECTORY) && TrapOf(s, DOT_DIRECTORY) == {}
    ensures var i := IdealRun(EmptyIdeal(), [DOT_DIRECTORY]);
      && i.Ok? && i == IdealStep(EmptyIdeal(), DOT_DIRECTORY) && |i.value.tree| == 2
      && IdealTree(i.value, false) == [DirTree([DOT], [])]
  {
    hide FreeCount;
    assert Upper(DOT_DIRECTORY.name) == DOT_DIRECTORY.name;
    assert IdealStep(EmptyIdeal(), DOT_DIRECTORY).Ok?;
    var i := IdealStep(EmptyIdeal(), DOT_DIRECTORY).value;
    assert IdealRun(i, []) == Ok(i);
    assert StripTrailing([DOT, SPACE], SPACE) == StripTrailing([DOT], SPACE) == [DOT];
    assert i.tree[0].entities == [1] && i.tree[1] == TNode([DOT, SPACE], [], true, []);
    assert Display(false, [DOT, SPACE], []) == [DOT];
    IdealOne(i, false, 0, 0);
    assert IdealFrom(i, false, 0, 1) == [] && IdealFrom(i, false, 1, 0) == [];
  }

  /** With one cluster left the directory can be created, and then the reader finds nothing. */
  lemma DotDirectoryMissed(g: Geo, header: seq<byte>, option: bool, depth: nat)
    requires g.Accepted() && |header| == 512 && depth >= 2 && g.Clusters() > 2
    ensures var s := InitialState(g, header, false);
      && Runnable(s) && DOT_DIRECTORY.Proper() && Step(s, DOT_DIRECTORY).Ok?
      && ParseTree(Step(s, DOT_DIRECTORY).value.fs.vol, option, depth) == Some([])
    ensures IdealStep(EmptyIdeal(), DOT_DIRECTORY).Ok?
      && IdealTree(IdealStep(EmptyIdeal(), DOT_DIRECTORY).value, false) == [DirTree([DOT], [])]
  {
    hide InitialState, Run, TrapsOf, ParseTree, Step, Geo.Accepted, FreeCount, TrapOf, Possible, IdealRun, NoDotNames,
      IdealTree;
    FirstStep(g, header, false, DOT_DIRECTORY);
    DotDirectoryFacts(InitialState(g, header, false));
    ReadBack(g, header, false, [DOT_DIRECTORY], option, depth);
    NoTrapShown(false, IdealRun(EmptyIdeal(), [DOT_DIRECTORY]).value.tree, 0);
    WithoutDotsOne(DirTree([DOT], []), []);
  }

  // ---- two files of the same name ----

  const NAME_A: seq<byte> := [0x41]
  const FULL_A: Op := CreateFile(NAME_A, [], [], false, DEFAULT_STAMP)
  const WRITE_A: Op := WriteContent([NAME_A], [0x78])
  const EMPTY_A: Op := CreateFile(NAME_A, [], [], true, DEFAULT_STAMP)

  /** Create `A`, write one byte to it, create `A` again. */
  const TWINS: seq<Op> := [FULL_A, WRITE_A, EMPTY_A]

  lemma NameAFacts()
    ensures Ascii(NAME_A) && Upper(NAME_A) == NAME_A && IsValidSfn(NAME_A, []) && SplitName(NAME_A) == (NAME_A, [])
    ensures forall longNames: bool ::
      Display(longNames, NAME_A, []) == NAME_A && RecordCount(longNames, NAME_A, []) == 1
    ensures HostName(NAME_A)
  {
    assert StripTrailing(NAME_A, SPACE) == NAME_A;
  }

  lemma TwinsProper()
    ensures ProperOps(TWINS) && FULL_A.Proper() && WRITE_A.Proper() && EMPTY_A.Proper()
  {
    NameAFacts();
  }

  const FILE_A: TNode := TNode(NAME_A, [], false, [])

  lemma TwinsRun()
    ensures IdealRun(EmptyIdeal(), TWINS)
      == Ok(Ideal([TNode([0x41], [], true, [1, 2]), FILE_A, FILE_A], [[], [0x78], []]))
  {
    hide SplitName;
    NameAFacts();
    var i1 := IdealStep(EmptyIdeal(), FULL_A).value;
    assert i1.tree[0].entities == [1];
    assert i1.tree == [TNode([0x41], [], true, [1]), FILE_A] && i1.contents == [[], []];
    assert Search(i1.tree, [NAME_A], 0).Ok? && Search(i1.tree, [NAME_A], 0).value == 1;
    var i2 := IdealStep(i1, WRITE_A).value;
    assert i2 == Ideal(i1.tree, [[], [0x78]]);
    var i3 := IdealStep(i2, EMPTY_A).value;
    assert i3.tree[0].entities == [1, 2];
    assert i3.tree == [TNode([0x41], [], true, [1, 2]), FILE_A, FILE_A] && i3.contents == [[], [0x78], []];
    assert TWINS[1..] == [WRITE_A, EMPTY_A] && TWINS[1..][1..] == [EMPTY_A];
    assert IdealRun(i2, [EMPTY_A]) == IdealRun(i3, []);
  }

  /** The ideal file system has both files. */
  lemma TwinsIdeal(longNames: bool)
    ensures var i := IdealRun(EmptyIdeal(), TWINS);
      && i.Ok? && |i.value.tree| == 3 && i.value.contents == [[], [0x78], []] && NoDotNames(longNames, i.value.tree)
      && IdealTree(i.value, longNames) == [FileTree(NAME_A, [0x78]), FileTree(NAME_A, [])]
  {
    hide Display, IdealRun;
    NameAFacts();
    TwinsRun();
    var i := IdealRun(EmptyIdeal(), TWINS).value;
    IdealOne(i, longNames, 0, 0);
    IdealOne(i, longNames, 0, 1);
    assert IdealFrom(i, longNames, 0, 2) == [];
  }

  /** The second file empties the first. */
  lemma TwinsMade()
    ensures Make([FileTree(NAME_A, [0x78]), FileTree(NAME_A, [])], map[]) == Some(map[NAME_A := FileNode([])])
  {
    NameAFacts();
    var second: seq<Tree> := [FileTree(NAME_A, [])];
    var made: Folder := map[NAME_A := FileNode([0x78])];
    assert second[1..] == [];
    assert Make(second, made) == Make([], made[NAME_A := FileNode([])]) == Some(made[NAME_A := FileNode([])]);
    var both := [FileTree(NAME_A, [0x78]), FileTree(NAME_A, [])];
    assert both[1..] == second;
    assert Make(both, map[]) == Make(second, made);
    assert made[NAME_A := FileNode([])] == map[NAME_A := FileNode([])];
  }

  // the run succeeds on the volume

  lemma FullAPossible(s: FsState)
    requires Roomy(s) && Left(s) >= 1
    ensures FULL_A.Proper() && Possible(s, FULL_A) && TrapOf(s, FULL_A) == {}
  {
    hide FreeCount, IsValidSfn, RecordCount;
    NameAFacts();
  }

  lemma FileHasCluster(s: FsState, name: seq<byte>, ext: seq<byte>, path: seq<seq<byte>>, stamp: Stamp)
    requires Formed(s) && |s.fs.next| <= 0x1_0000 && stamp.Fits() && |BuildName(name, ext)| <= 255
    requires NewFile(s, name, ext, path, false, stamp).Ok?
    ensures var t := NewFile(s, name, ext, path, false, stamp).value;
      |t.place| > |s.place| && t.place[|s.place|].FilePlace? && t.place[|s.place|].first.Some?
  {
    hide AllocateObject;
  }

  /** After the first file: it has a cluster, and the root still has an empty entry. */
  lemma AfterFullA(s: FsState, owner: seq<nat>, logs: seq<seq<Record>>)
    returns (owner2: seq<nat>, logs2: seq<seq<Record>>)
    requires FsInv(s, owner, logs, true) && Roomy(s) && Left(s) >= 1
    ensures FULL_A.Proper() && Step(s, FULL_A).Ok?
    ensures var t := Step(s, FULL_A).value;
      && CoreInv(t, owner2, logs2) && Runnable(t) && t.fs.sectorSize >= 64 && Left(t) >= 0
      && t.tree == [TNode([0x41], [], true, [1]), FILE_A] && t.longNames == s.longNames
      && IsFile(t, 1) && t.place[1].first.Some?
      && IsDirectory(t, 0) && FreeCount(t.place[0].entries, t.taken) >= 1
  {
    hide CoreInv, LogInv, FreeCount, NewFile, EntryRecords, CountPrefix, Alpha, RecordCount, IsValidSfn, TrapOf,
      AllHeld, Aliases.ShortNames,
      Formed, Possible;
    NameAFacts();
    FullAPossible(s);
    SizesOf(s, owner, logs);
    StepSucceeds(s, owner, logs, FULL_A);
    FileHasCluster(s, NAME_A, [], [], DEFAULT_STAMP);
    var recs, d;
    owner2, recs, d := NewFileKeeps(s, owner, logs, NAME_A, [], [], false, DEFAULT_STAMP);
    logs2 := logs[d := logs[d] + recs] + [[]];
    var t := Step(s, FULL_A).value;
    RecordsBuilt(s, 0, NAME_A, [], ATTR_ARCHIVE, First(t.place[|s.tree|]), DEFAULT_STAMP);
    SizesOf(t, owner2, logs2);
    FreeCountOf(s, owner, logs, 0);
    FreeCountOf(t, owner2, logs2, 0);
    assert t.tree[0].entities == [1];
  }

  lemma WriteAPossible(t: FsState)
    requires Runnable(t) && t.fs.sectorSize >= 64 && Left(t) >= 0
    requires t.tree == [TNode([0x41], [], true, [1]), FILE_A] && IsFile(t, 1) && t.place[1].first.Some?
    ensures Possible(t, WRITE_A) && TrapOf(t, WRITE_A) == {}
  {
    hide SplitName;
    NameAFacts();
    assert Search(t.tree, [NAME_A], 0).Ok? && Search(t.tree, [NAME_A], 0).value == 1;
  }

  lemma EmptyAPossible(u: FsState)
    requires Runnable(u) && u.fs.sectorSize >= 64 && Left(u) >= 0
    requires u.tree == [TNode([0x41], [], true, [1]), FILE_A]
    requires IsDirectory(u, 0) && FreeCount(u.place[0].entries, u.taken) >= 1
    ensures EMPTY_A.Proper() && Possible(u, EMPTY_A) && TrapOf(u, EMPTY_A) == {}
  {
    hide FreeCount, IsValidSfn, RecordCount;
    NameAFacts();
    assert CountPrefix(u.tree, u.tree[0].entities, NAME_A) <= 1;
  }

  lemma {:induction false} RunThree(s: FsState, a: Op, b: Op, c: Op)
    requires Runnable(s) && a.Proper() && b.Proper() && c.Proper()
    ensures ProperOps([a, b, c])
    ensures Step(s, a).Ok? && Step(Step(s, a).value, b).Ok? ==>
      var t := Step(s, a).value;
      var u := Step(t, b).value;
      && Runnable(t) && Runnable(u) && Run(s, [a, b, c]) == Step(u, c)
      && TrapsOf(s, [a, b, c]) == TrapOf(s, a) + TrapOf(t, b) + TrapOf(u, c)
  {
    hide Step, TrapOf;
    if Step(s, a).Ok? && Step(Step(s, a).value, b).Ok? {
      var t := Step(s, a).value;
      var u := Step(t, b).value;
      assert [a, b, c][1..] == [b, c] && [b, c][1..] == [c];
      RunOne(u, c);
      assert Run(t, [b, c]) == Run(u, [c]);
    }
  }

  lemma TwinsSucceed(g: Geo, header: seq<byte>, longNames: bool)
    requires g.Accepted() && |header| == 512 && g.Clusters() > 2
    ensures var s := InitialState(g, header, longNames);
      && Runnable(s) && ProperOps(TWINS) && Run(s, TWINS).Ok? && TrapsOf(s, TWINS) == {}
  {
    hide InitialState, Run, TrapsOf, Step, FreeCount, TrapOf, Possible, Cost, CoreInv, Geo.Accepted, TrapDirs;
    var s := InitialState(g, header, longNames);
    InitialInv(g, header, longNames, true);
    TwinsProper();
    FirstStep(g, header, longNames, FULL_A);
    FullAPossible(s);
    var owner, logs := AfterFullA(s, [0, 0], [[]]);
    var t := Step(s, FULL_A).value;
    LogCount(t, owner, logs);
    WriteAPossible(t);
    StepSucceeds(t, owner, logs, WRITE_A);
    var owner2 := AfterWriteA(t, owner, logs);
    var u := Step(t, WRITE_A).value;
    EmptyAPossible(u);
    StepSucceeds(u, owner2, logs, EMPTY_A);
    RunThree(s, FULL_A, WRITE_A, EMPTY_A);
  }

  lemma AfterWriteA(t: FsState, owner: seq<nat>, logs: seq<seq<Record>>) returns (owner2: seq<nat>)
    requires CoreInv(t, owner, logs) && Runnable(t) && Step(t, WRITE_A).Ok?
    ensures var u := Step(t, WRITE_A).value;
      && CoreInv(u, owner2, logs) && Runnable(u) && u == t.(fs := u.fs) && u.fs.sectorSize >= 64 && Left(u) >= 0
  {
    hide CoreInv, WriteToFile, Formed;
    owner2 := WriteKeeps(t, owner, logs, [NAME_A], [0x78]);
    SizesOf(WriteToFile(t, [NAME_A], [0x78]).value, owner2, logs);
  }

  /** With one cluster left the run succeeds, and the reader makes one file, empty, for the two files
      of the run. */
  lemma TwinsCollide(g: Geo, header: seq<byte>, longNames: bool, option: bool, depth: nat)
    requires g.Accepted() && |header| == 512 && g.Clusters() > 2 && depth >= 3
    ensures var s := InitialState(g, header, longNames);
      && Runnable(s) && ProperOps(TWINS) && Run(s, TWINS).Ok?
      && ParseFolder(Run(s, TWINS).value.fs.vol, option, depth) == Some(map[NAME_A := FileNode([])])
    ensures IdealRun(EmptyIdeal(), TWINS).Ok? && IdealRun(EmptyIdeal(), TWINS).value.contents == [[], [0x78], []]
  {
    hide InitialState, Run, TrapsOf, ParseTree, Step, IdealRun, IdealTree, NoDotNames, Make, Geo.Accepted;
    TwinsSucceed(g, header, longNames);
    TwinsIdeal(longNames);
    TwinsMade();
    ReadBack(g, header, longNames, TWINS, option, depth);
  }
}
