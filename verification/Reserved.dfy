/** The two reserved entries of the FAT after every run: the media type and the root directory. */
module Reserved {
  import opened Bytes
  import Volume
  import BootSectorImage
  import opened Geometry
  import opened Outcome
  import opened FatChains
  import opened FatTableObject
  import opened DirectoryRecords
  import opened LongNames
  import opened NameTree
  import opened FileSystem
  import opened FileSystemInvariant
  import opened FileSystemRuns
  import opened DirectoryListing
  import opened Aliases
  import opened Reader
  import opened ImageRuns

  /** The end marker and FAT entry 0 stay as they are. */
  predicate SameHead(a: FatState, b: FatState) {
    b.eoc == a.eoc && |b.vol.fat| == |a.vol.fat| > 0 && b.vol.fat[0] == a.vol.fat[0]
  }

  lemma FreeHead(s: FatState)
    requires Shaped(s) && FindFreeCluster(s).Ok?
    ensures SameHead(s, FindFreeCluster(s).value.0) && FindFreeCluster(s).value.1 >= 1
  {
  }

  lemma {:induction false} ChainHead(s: FatState, current: nat, size: nat)
    requires Shaped(s) && 1 <= current < |s.next| && AllocateChain(s, current, size).Ok?
    ensures SameHead(s, AllocateChain(s, current, size).value)
    decreases size
  {
    if size > 1 {
      var (t, id) := FindFreeCluster(s).value;
      FreeHead(s);
      ChainHead(Link(t, current, id), id, size - 1);
    }
  }

  lemma {:induction false} PartsHead(s: FatState, current: Option<nat>, parts: seq<seq<byte>>)
    requires Shaped(s) && |s.vol.fat| > 0 && WriteParts(s, current, parts).Ok?
    ensures SameHead(s, WriteParts(s, current, parts).value)
    decreases |parts|
  {
    if parts != [] {
      var c := current.value;
      PartsHead(s.(vol := s.vol.(area := s.vol.area[c := Splice(s.vol.area[c], 0, parts[0])])), s.next[c], parts[1..]);
    }
  }

  lemma {:induction false} LastAtLeast(next: seq<Option<nat>>, c: nat)
    ensures LastCluster(next, c) >= c
    decreases |next| - c
  {
    if c < |next| && next[c].Some? && c < next[c].value < |next| {
      LastAtLeast(next, next[c].value);
    }
  }

  lemma ObtainHead(s: FsState, d: nat)
    requires Formed(s) && IsDirectory(s, d) && s.place[d].head >= 1 && ObtainEntry(s, d).Ok?
    ensures var t := ObtainEntry(s, d).value.0;
      SameHead(s.fs, t.fs) && IsDirectory(t, d) && t.place[d].head == s.place[d].head
  {
    LastAtLeast(s.fs.next, s.place[d].head);
    assert First(s.place[d]) < |s.fs.next|;
    hide LastCluster, FindFreeEntry;
  }

  lemma {:induction false} PlaceHead(s: FsState, d: nat, recs: seq<Record>)
    requires Formed(s) && IsDirectory(s, d) && s.place[d].head >= 1 && recs != [] && PlaceRecords(s, d, recs).Ok?
    ensures SameHead(s.fs, PlaceRecords(s, d, recs).value.0.fs)
    decreases |recs|
  {
    hide ObtainEntry, TreeOk;
    ObtainHead(s, d);
    if |recs| > 1 {
      var (t, slot) := ObtainEntry(s, d).value;
      PlaceHead(AllocateEntry(t, slot, recs[0]), d, recs[1..]);
    }
  }

  lemma AllocateHead(s: FsState, owner: seq<nat>, logs: seq<seq<Record>>, name: seq<byte>, ext: seq<byte>, attr: byte,
                     path: seq<seq<byte>>, isEmpty: bool, stamp: Stamp)
    requires CoreInv(s, owner, logs) && Formed(s) && |s.fs.next| <= 0x1_0000
    requires stamp.Fits() && |BuildName(name, ext)| <= 255
    requires AllocateObject(s, name, ext, attr, path, isEmpty, stamp).Ok?
    ensures SameHead(s.fs, AllocateObject(s, name, ext, attr, path, isEmpty, stamp).value.0.fs)
  {
    hide CoreInv, PlaceRecords, EntryRecords, CountPrefix, Target, AllocateObject, FindFreeCluster, Formed;
    AllocateStages(s, name, ext, attr, path, isEmpty, stamp);
    FormedParts(s);
    var d := Target(s.tree, path).value;
    var s1 := if isEmpty then s else s.(fs := FindFreeCluster(s.fs).value.0);
    HeadsPositive(s, owner, logs, d);
    if !isEmpty {
      FreeHead(s.fs);
    }
    var recs := EntryRecords(s.longNames, CountPrefix(s.tree, s.tree[d].entities, name), name, ext, attr,
                             if isEmpty then 0 else FindFreeCluster(s.fs).value.1, stamp);
    PlaceHead(s1, d, recs.value);
  }

  lemma FormedParts(s: FsState)
    requires Formed(s)
    ensures TreeOk(s.tree) && Shaped(s.fs) && |s.place| == |s.tree|
  {
  }

  lemma HeadsPositive(s: FsState, owner: seq<nat>, logs: seq<seq<Record>>, o: nat)
    requires CoreInv(s, owner, logs) && o < |s.place|
    ensures Shaped(s.fs) && |s.fs.vol.fat| > 0
    ensures s.place[o].DirPlace? ==> s.place[o].head >= 1
    ensures s.place[o].FilePlace? && s.place[o].first.Some? ==> 1 <= s.place[o].first.value < |s.fs.next|
  {
    if s.place[o].DirPlace? {
      assert DirOk(s.fs, owner, s.taken, s.place[o], o, logs[o]);
    } else {
      assert FileOk(s.fs, owner, s.taken, s.place[o], o);
    }
  }

  lemma DirectoryHead(s: FsState, owner: seq<nat>, logs: seq<seq<Record>>, name: seq<byte>, path: seq<seq<byte>>,
                      stamp: Stamp)
    requires CoreInv(s, owner, logs) && Formed(s) && |s.fs.next| <= 0x1_0000 && stamp.Fits() && |name| <= 255
    requires NewDirectory(s, name, path, stamp).Ok?
    ensures SameHead(s.fs, NewDirectory(s, name, path, stamp).value.fs)
  {
    hide CoreInv, AllocateObject, CreateEntries, Search, TreeOk, PlaceRecords, DotRecord;
    DirectoryStages(s, name, path, stamp);
    AllocateHead(s, owner, logs, name, [], ATTR_DIRECTORY, path, false, stamp);
    var owner2, logs2 := NewDirectoryReady(s, owner, logs, name, path, stamp);
    var (t, first, slot, d) := AllocateObject(s, name, [], ATTR_DIRECTORY, path, false, stamp).value;
    var u := AddObject(t, d, name, [], DirPlace(first.value, CreateEntries(t.fs.vol.area, first.value)));
    var dot, dotDot := DotRecord(u.longNames, [DOT], first.value), DotRecord(u.longNames, [DOT, DOT], t.place[d].head);
    PlaceHead(u, |t.tree|, [dot.value, dotDot.value]);
  }

  lemma WriteHead(s: FsState, owner: seq<nat>, logs: seq<seq<Record>>, path: seq<seq<byte>>, content: seq<byte>)
    requires CoreInv(s, owner, logs) && Formed(s) && s.fs.sectorSize > 0 && WriteToFile(s, path, content).Ok?
    ensures SameHead(s.fs, WriteToFile(s, path, content).value.fs)
  {
    hide CoreInv, Search, AllocateChain, WriteParts, FindFreeCluster, RequiredClusters, SplitContent, WithSize, TreeOk;
    var f := Search(s.tree, path, 0).value;
    HeadsPositive(s, owner, logs, f);
    var FilePlace(entry, first) := s.place[f];
    var count := RequiredClusters(s.fs.sectorSize, |content|);
    if first.Some? {
      ChainHead(s.fs, first.value, count);
    }
    var t := if first.Some? then AllocateChain(s.fs, first.value, count).value else s.fs;
    PartsHead(SetRecord(t, entry, WithSize(SlotRecord(t.vol.area, entry), |content|)), first,
              SplitContent(content, s.fs.sectorSize));
  }

  lemma StepHead(s: FsState, owner: seq<nat>, logs: seq<seq<Record>>, op: Op)
    requires CoreInv(s, owner, logs) && Runnable(s) && op.Proper() && Step(s, op).Ok?
    ensures SameHead(s.fs, Step(s, op).value.fs)
  {
    hide CoreInv, AllocateObject, NewDirectory, WriteToFile, Formed;
    match op
    case CreateFile(name, ext, path, isEmpty, stamp) =>
      AllocateHead(s, owner, logs, name, ext, ATTR_ARCHIVE, path, isEmpty, stamp);
    case CreateDirectory(name, path, stamp) => DirectoryHead(s, owner, logs, name, path, stamp);
    case WriteContent(path, content) => WriteHead(s, owner, logs, path, content);
  }

  lemma {:induction false} RunHead(s: FsState, owner: seq<nat>, logs: seq<seq<Record>>, support: bool, ops: seq<Op>)
    requires FsInv(s, owner, logs, support) && ProperOps(ops) && (s.longNames ==> support)
    requires Runnable(s) && |s.fs.vol.fat| > 0 && Run(s, ops).Ok?
    ensures SameHead(s.fs, Run(s, ops).value.fs)
    decreases |ops|
  {
    hide CoreInv, LogInv, AllHeld, ShortNames, Step, IdealStep, Alpha, TrapOf, TrapDirs, Formed;
    if ops != [] {
      assert ops[0] in ops;
      assert forall op :: op in ops[1..] ==> op in ops;
      StepHead(s, owner, logs, ops[0]);
      var owner1, logs1 := StepKeeps(s, owner, logs, support, ops[0]);
      RunHead(Step(s, ops[0]).value, owner1, logs1, support, ops[1..]);
    }
  }

  /** After every run FAT entry 0 holds the media type 0xF8 with all higher bits set, entry 1 the end
      marker of the root directory. */
  lemma {:induction false} ReservedEntries(g: Geo, header: seq<byte>, longNames: bool, ops: seq<Op>)
    requires g.Accepted() && |header| == 512 && ProperOps(ops)
    ensures Runnable(InitialState(g, header, longNames))
    ensures Run(InitialState(g, header, longNames), ops).Ok? ==>
      var fat := Run(InitialState(g, header, longNames), ops).value.fs.vol.fat;
      && |fat| == g.DataSectors() / g.sectorsPerCluster + 2
      && fat[0] == (if |fat| < 4085 then 0xFF8 else 0xFFF8)
      && fat[1] == (if |fat| < 4085 then 0xFFF else 0xFFFF)
  {
    hide CoreInv, LogInv, AllHeld, ShortNames, Run, IdealRun, TrapsOf, TrapDirs, Alpha, Formed;
    var s := InitialState(g, header, longNames);
    InitialInv(g, header, longNames, true);
    RunnableInv(s, [0, 0], [[]], true);
    FreshHead(g, header);
    if Run(s, ops).Ok? {
      RunHead(s, [0, 0], [[]], true, ops);
      var owner, logs := RunKeeps(s, [0, 0], [[]], true, ops);
      RootLinked(Run(s, ops).value, owner, logs);
    }
  }

  lemma FreshHead(g: Geo, header: seq<byte>)
    requires g.Accepted() && |header| == 512
    ensures var s := FreshState(g, header);
      && |s.vol.fat| == g.DataSectors() / g.sectorsPerCluster + 2
      && s.vol.fat[0] == (if |s.vol.fat| < 4085 then 0xFF8 else 0xFFF8)
      && s.eoc == (if |s.vol.fat| < 4085 then 0xFFF else 0xFFFF)
  {
    FreshChainInv(g, header);
    FreshCounters(g, header);
    FatHoldsEveryEntry(g, 0);
    hide BootSectorImage.EmptyImage, Volume.View;
  }

  lemma RootLinked(t: FsState, owner: seq<nat>, logs: seq<seq<Record>>)
    requires CoreInv(t, owner, logs)
    ensures |t.fs.vol.fat| > 1 && t.fs.vol.fat[1] == t.fs.eoc
  {
    assert Linked(t.fs, 1);
  }
}
