/** When the public operations succeed, and how many clusters they use up. */
module Progress {
  import opened Bytes
  import opened Geometry
  import opened Outcome
  import opened FatChains
  import opened DirectoryRecords
  import opened LongNames
  import opened NameTree
  import opened FileSystem
  import opened FileSystemInvariant
  import opened FileSystemSteps
  import opened FileSystemRuns
  import opened Aliases
  import opened ImageRuns

  // ---- what an operation needs ----

  /** Clusters that were never allocated. */
  function Left(s: FsState): int { |s.fs.next| - 1 - s.fs.free }

  /** Entries that are marked empty. */
  function FreeCount(entries: seq<Slot>, taken: set<Slot>): nat {
    if entries == [] then 0 else (if entries[0] in taken then 0 else 1) + FreeCount(entries[1..], taken)
  }

  /** Clusters a directory with `free` empty entries must grow by to take `m` records. */
  function Growth(free: nat, perCluster: nat, m: nat): nat
    requires perCluster > 0
  {
    if m <= free then 0 else CeilDiv(m - free, perCluster)
  }

  /** The records find a place: the root directory does not grow, any other one as long as
      clusters are left. */
  predicate RoomFor(s: FsState, d: nat, m: nat, left: int)
    requires IsDirectory(s, d) && s.fs.sectorSize >= 32
  {
    var free := FreeCount(s.place[d].entries, s.taken);
    if d == 0 then m <= free else Growth(free, s.fs.sectorSize / 32, m) <= left
  }

  function GrowthFor(s: FsState, d: nat, m: nat): nat
    requires IsDirectory(s, d) && s.fs.sectorSize >= 32
  {
    if d == 0 then 0 else Growth(FreeCount(s.place[d].entries, s.taken), s.fs.sectorSize / 32, m)
  }

  /** None of the letters a to z. */
  predicate NoLowerCase(s: seq<byte>) {
    forall c :: c in s ==> !('a' <= c as char <= 'z')
  }

  /** A name that keeps to the short record has no lower case, and without long names it has to fit; a
      long one has at most 126 older siblings with the same beginning. */
  predicate NameAccepted(s: FsState, d: nat, name: seq<byte>, ext: seq<byte>)
    requires d < |s.tree| && Ids(s.tree, s.tree[d].entities)
  {
    if KeepsName(s.longNames, TNode(name, ext, false, [])) then
      NoLowerCase(name) && NoLowerCase(ext) && |name| <= 8 && |ext| <= 3
    else |Alike(s.tree, s.tree[d].entities, name, |s.tree[d].entities|)| <= 126
  }

  /** One record; for a long name one more for every 13 characters of the full name or part of them. */
  function RecordCount(longNames: bool, name: seq<byte>, ext: seq<byte>): nat {
    if KeepsName(longNames, TNode(name, ext, false, [])) then 1
    else 1 + CeilDiv(|name| + (if ext == [] then 0 else 1 + |ext|), 13)
  }

  predicate CanCreate(s: FsState, name: seq<byte>, ext: seq<byte>, path: seq<seq<byte>>, clusters: nat)
    requires Formed(s) && s.fs.sectorSize >= 32
  {
    && clusters <= Left(s)
    && Target(s.tree, path).Ok?
    && var d := Target(s.tree, path).value;
       && Ids(s.tree, s.tree[d].entities) && NameAccepted(s, d, name, ext)
       && RoomFor(s, d, RecordCount(s.longNames, name, ext), Left(s) - clusters)
  }

  /** The caller's check before an operation. */
  predicate Possible(s: FsState, op: Op)
    requires Formed(s) && s.fs.sectorSize >= 32
  {
    match op
    case CreateFile(name, ext, path, isEmpty, _) => CanCreate(s, name, ext, path, if isEmpty then 0 else 1)
    case CreateDirectory(name, path, _) => CanCreate(s, name, [], path, 1)
    case WriteContent(path, content) =>
      && Search(s.tree, path, 0).Ok?
      && var f := Search(s.tree, path, 0).value;
         && IsFile(s, f) && |content| < 0x1_0000_0000
         && (if s.place[f].first.None? then content == []
             else RequiredClusters(s.fs.sectorSize, |content|) - 1 <= Left(s))
  }

  /** Clusters used up by an operation that succeeds. */
  function Cost(s: FsState, op: Op): nat
    requires Formed(s) && s.fs.sectorSize >= 32 && Possible(s, op)
  {
    match op
    case CreateFile(name, ext, path, isEmpty, _) =>
      (if isEmpty then 0 else 1) + GrowthFor(s, Target(s.tree, path).value, RecordCount(s.longNames, name, ext))
    case CreateDirectory(name, path, _) =>
      1 + GrowthFor(s, Target(s.tree, path).value, RecordCount(s.longNames, name, []))
    case WriteContent(path, content) =>
      var count := RequiredClusters(s.fs.sectorSize, |content|);
      if s.place[Search(s.tree, path, 0).value].first.None? || count <= 1 then 0 else count - 1
  }

  // ---- entries ----

  lemma {:induction false} FreeCountIs(entries: seq<Slot>, taken: set<Slot>, u: nat)
    requires u <= |entries|
    requires forall i :: 0 <= i < u ==> entries[i] in taken
    requires forall i :: u <= i < |entries| ==> entries[i] !in taken
    ensures FreeCount(entries, taken) == |entries| - u
    decreases |entries|
  {
    if entries == [] {
    } else {
      FreeCountIs(entries[1..], taken, if u > 0 then u - 1 else 0);
    }
  }

  lemma FreeCountOf(s: FsState, owner: seq<nat>, logs: seq<seq<Record>>, d: nat)
    requires CoreInv(s, owner, logs) && IsDirectory(s, d)
    ensures d < |logs| && |logs[d]| <= |s.place[d].entries|
    ensures FreeCount(s.place[d].entries, s.taken) == |s.place[d].entries| - |logs[d]|
  {
    hide FileOk, TreeOk, SlotRecord, Mask, FreeCount;
    assert DirOk(s.fs, owner, s.taken, s.place[d], d, logs[d]);
    FreeCountIs(s.place[d].entries, s.taken, |logs[d]|);
  }

  lemma GrowthStep(perCluster: nat, m: nat)
    requires perCluster > 0 && m > 0
    ensures Growth(0, perCluster, m) == 1 + Growth(perCluster - 1, perCluster, m - 1)
  {
    if m <= perCluster {
      Quotient(m + perCluster - 1, perCluster, 1);
    } else {
      var q := CeilDiv(m - perCluster, perCluster);
      CeilDivCovers(m - perCluster, perCluster);
      assert (q + 1) * perCluster == q * perCluster + perCluster;
      CeilDivIs(m, perCluster, q + 1);
      assert (m - 1) - (perCluster - 1) == m - perCluster;
    }
  }

  lemma CeilDivIs(a: nat, k: nat, q: nat)
    requires k > 0 && a <= q * k < a + k
    ensures CeilDiv(a, k) == q
  {
    Quotient(a + k - 1, k, q);
  }

  lemma SizesOf(s: FsState, owner: seq<nat>, logs: seq<seq<Record>>)
    requires CoreInv(s, owner, logs)
    ensures s.fs.sectorSize >= 64 && s.fs.sectorSize % 32 == 0 && Left(s) >= 0
    ensures ChainInv(s.fs) && Owned(s.fs, owner)
  {
  }

  /** Obtaining an entry fails exactly if none is free and the directory cannot grow. */
  lemma ObtainSucceeds(s: FsState, owner: seq<nat>, logs: seq<seq<Record>>, d: nat)
    requires CoreInv(s, owner, logs) && IsDirectory(s, d) && d < |logs| && Formed(s)
    ensures var free := |s.place[d].entries| - |logs[d]|;
      && (ObtainEntry(s, d).Ok? <==> free > 0 || (d != 0 && Left(s) > 0))
      && (ObtainEntry(s, d).Ok? ==>
           var t := ObtainEntry(s, d).value.0;
           && IsDirectory(t, d) && t.fs.sectorSize == s.fs.sectorSize && |t.fs.next| == |s.fs.next|
           && t.fs.free == (if free > 0 then s.fs.free else s.fs.free + 1)
           && |t.place[d].entries| == |s.place[d].entries| + (if free > 0 then 0 else s.fs.sectorSize / 32))
  {
    hide CoreInv, FindFreeEntry, FindFreeCluster, ChainInv, Owned, LastCluster, Link, TreeOk;
    LogCount(s, owner, logs);
    SizesOf(s, owner, logs);
    FreeEntry(s, owner, logs, d);
    FindFreeEffect(s.fs, owner, d);
    if |logs[d]| == |s.place[d].entries| && d != 0 && Left(s) > 0 {
      ExtendKeeps(s, owner, logs, d);
      var t := ExtendDirectory(s, d).value;
      LogCount(t, owner + [d], logs);
      FreeEntry(t, owner + [d], logs, d);
      ExtendSizes(s, owner, d);
    }
  }

  lemma ExtendSizes(s: FsState, owner: seq<nat>, d: nat)
    requires Formed(s) && IsDirectory(s, d) && ExtendDirectory(s, d).Ok?
    requires ChainInv(s.fs) && Owned(s.fs, owner)
    ensures var t := ExtendDirectory(s, d).value;
      && t.fs.free == s.fs.free + 1 && |t.place[d].entries| == |s.place[d].entries| + s.fs.sectorSize / 32
  {
    ExtendDirectoryIs(s, d);
    FindFreeEffect(s.fs, owner, d);
    hide ChainInv, Owned, FindFreeCluster, TreeOk, LastCluster;
  }

  lemma {:induction false} PlaceUnfolds(s: FsState, d: nat, recs: seq<Record>)
    requires Formed(s) && IsDirectory(s, d) && recs != []
    ensures ObtainEntry(s, d).Err? ==> PlaceRecords(s, d, recs).Err?
    ensures ObtainEntry(s, d).Ok? ==>
      var (t, slot) := ObtainEntry(s, d).value;
      var u := AllocateEntry(t, slot, recs[0]);
      && Formed(u) && IsDirectory(u, d) && u.fs.free == t.fs.free && u.place == t.place
      && u.fs.sectorSize == t.fs.sectorSize && u.fs.next == t.fs.next
      && PlaceRecords(s, d, recs) == if |recs| == 1 then Ok((u, slot)) else PlaceRecords(u, d, recs[1..])
  {
    hide ObtainEntry, TreeOk;
  }

  /** The records of an object find a place exactly if there is room for them, and use up exactly
      the clusters the directory grows by. */
  lemma {:induction false} PlaceSucceeds(s: FsState, owner: seq<nat>, logs: seq<seq<Record>>, d: nat, recs: seq<Record>)
    requires CoreInv(s, owner, logs) && Formed(s) && IsDirectory(s, d) && recs != [] && d < |logs|
    requires forall r :: r in recs ==> Mask(r) == r
    ensures s.fs.sectorSize >= 64
    ensures var free := |s.place[d].entries| - |logs[d]|;
      && free >= 0
      && var growth := Growth(free, s.fs.sectorSize / 32, |recs|);
         && (PlaceRecords(s, d, recs).Ok? <==> if d == 0 then |recs| <= free else growth <= Left(s))
         && (PlaceRecords(s, d, recs).Ok? ==>
              && PlaceRecords(s, d, recs).value.0.fs.free == s.fs.free + (if d == 0 then 0 else growth)
              && |PlaceRecords(s, d, recs).value.0.fs.next| == |s.fs.next|)
    decreases |recs|
  {
    hide CoreInv, ObtainEntry, AllocateEntry, PlaceRecords, SlotRecord, Mask, SameReads, Grew, Growth, Formed;
    SizesOf(s, owner, logs);
    FreeCountOf(s, owner, logs, d);
    PlaceUnfolds(s, d, recs);
    ObtainSucceeds(s, owner, logs, d);
    var per := s.fs.sectorSize / 32;
    var free: nat := |s.place[d].entries| - |logs[d]|;
    GrowthBase(free, per, |recs|);
    if free == 0 {
      GrowthStep(per, |recs|);
    }
    if ObtainEntry(s, d).Ok? {
      var (t, slot) := ObtainEntry(s, d).value;
      var owner1 := ObtainKeeps(s, owner, logs, d);
      assert recs[0] in recs;
      RecordKeeps(t, owner1, logs, d, recs[0]);
      var u := AllocateEntry(t, slot, recs[0]);
      if |recs| == 1 {
        GrowthBase(if free > 0 then free - 1 else per - 1, per, 0);
      } else {
        var logs1 := logs[d := logs[d] + [recs[0]]];
        assert forall r :: r in recs[1..] ==> r in recs;
        PlaceSucceeds(u, owner1, logs1, d, recs[1..]);
      }
    }
  }

  lemma GrowthBase(free: nat, perCluster: nat, m: nat)
    requires perCluster > 0
    ensures m <= free ==> Growth(free, perCluster, m) == 0
    ensures m > free ==> Growth(free, perCluster, m) >= 1
    ensures free > 0 && m > 0 ==> Growth(free, perCluster, m) == Growth(free - 1, perCluster, m - 1)
  {
    if m > free {
      CeilDivCovers(m - free, perCluster);
    }
  }

  // ---- names ----

  /** The records of a new object can be built exactly if its name is accepted. */
  lemma {:induction false} RecordsBuilt(s: FsState, d: nat, name: seq<byte>, ext: seq<byte>, attr: byte, cluster: nat,
                                        stamp: Stamp)
    requires d < |s.tree| && Ids(s.tree, s.tree[d].entities)
    requires stamp.Fits() && cluster < 0x1_0000 && |BuildName(name, ext)| <= 255
    ensures var recs := EntryRecords(s.longNames, CountPrefix(s.tree, s.tree[d].entities, name), name, ext, attr,
      cluster, stamp);
      && (recs.Ok? <==> NameAccepted(s, d, name, ext))
      && (recs.Ok? ==> |recs.value| == RecordCount(s.longNames, name, ext))
  {
    KeptNames(s.longNames, TNode(name, ext, false, []));
    var entities := s.tree[d].entities;
    assert entities[..|entities|] == entities;
    CountIsSize(s.tree, entities, name, |entities|);
    UpperCaseIs(name);
    UpperCaseIs(ext);
    LongCount(name, ext);
    hide CountPrefix, IsValidSfn, Upper, BuildEntry, LongRecord, Checksum, AliasName, AliasExt, LfnFullName,
      EntriesCount, KeepsName, NoLowerCase, Alike, CeilDiv;
  }

  /** `string == string.upper()` */
  lemma UpperCaseIs(s: seq<byte>)
    ensures IsValidFatfsName(s) <==> NoLowerCase(s)
  {
    if NoLowerCase(s) {
      assert forall i :: 0 <= i < |s| ==> s[i] in s;
    } else {
      var c :| c in s && 'a' <= c as char <= 'z';
      var i :| 0 <= i < |s| && s[i] == c;
      assert Upper(s)[i] != s[i];
    }
  }

  /** The long records of a name, the zero behind it included. */
  lemma LongCount(name: seq<byte>, ext: seq<byte>)
    ensures EntriesCount(LfnFullName(BuildName(name, ext))) ==
      CeilDiv(|name| + (if ext == [] then 0 else 1 + |ext|), 13)
  {
    var n := |BuildName(name, ext)|;
    var q, m := n / 13, n % 13;
    assert n == 13 * q + m;
  }

  // ---- create_file and create_directory ----

  /** `allocate_object` succeeds exactly if a cluster is left for the object, the path leads to a
      directory, the name is accepted and its records find a place. */
  lemma AllocateSucceeds(s: FsState, owner: seq<nat>, logs: seq<seq<Record>>, name: seq<byte>, ext: seq<byte>,
                         attr: byte, path: seq<seq<byte>>, isEmpty: bool, stamp: Stamp)
    requires CoreInv(s, owner, logs) && Formed(s) && |s.fs.next| <= 0x1_0000 && s.fs.sectorSize >= 32
    requires stamp.Fits() && |BuildName(name, ext)| <= 255 && attr != ATTR_LONG_NAME
    ensures var r := AllocateObject(s, name, ext, attr, path, isEmpty, stamp);
      var clusters := if isEmpty then 0 else 1;
      && (r.Ok? <==> CanCreate(s, name, ext, path, clusters))
      && (r.Ok? ==>
           && r.value.0.fs.free == s.fs.free + clusters
                + GrowthFor(s, Target(s.tree, path).value, RecordCount(s.longNames, name, ext))
           && |r.value.0.fs.next| == |s.fs.next|)
  {
    hide CoreInv, Target, EntryRecords, PlaceRecords, CountPrefix, AllocateObject, FindFreeCluster, TreeOk,
      NameAccepted,
      RecordCount, FreeCount, Growth, ChainInv, Owned, Formed;
    SizesOf(s, owner, logs);
    FormedSizes(s);
    FindFreeEffect(s.fs, owner, |s.tree|);
    AllocateStages(s, name, ext, attr, path, isEmpty, stamp);
    if (isEmpty || Left(s) > 0) && Target(s.tree, path).Ok? {
      var d := Target(s.tree, path).value;
      var s1, owner1 := ClusterStage(s, owner, logs, isEmpty);
      var cluster := if isEmpty then 0 else FindFreeCluster(s.fs).value.1;
      RecordsBuilt(s, d, name, ext, attr, cluster, stamp);
      var recs := EntryRecords(s.longNames, CountPrefix(s.tree, s.tree[d].entities, name), name, ext, attr, cluster,
        stamp);
      if recs.Ok? {
        EntryRecordsFacts(s.longNames, CountPrefix(s.tree, s.tree[d].entities, name), name, ext, attr, cluster, stamp);
        FreeCountOf(s1, owner1, logs, d);
        PlaceSucceeds(s1, owner1, logs, d, recs.value);
      }
    }
  }

  lemma FormedSizes(s: FsState)
    requires Formed(s)
    ensures TreeOk(s.tree) && |s.tree| == |s.place| > 0 && Shaped(s.fs)
  {
  }

  lemma DotRecordBuilt(longNames: bool, name: seq<byte>, cluster: nat)
    requires (name == [DOT] || name == [DOT, DOT]) && cluster < 0x1_0000
    ensures DotRecord(longNames, name, cluster).Ok?
  {
    assert Upper(name) == name && Upper([]) == [];
  }

  /** A new directory has room for its two dot links. */
  lemma DotsFit(s: FsState, owner: seq<nat>, logs: seq<seq<Record>>, n: nat, head: nat, parentHead: nat)
    requires CoreInv(s, owner, logs) && Formed(s) && IsDirectory(s, n) && n != 0 && n < |logs| && logs[n] == []
    requires |s.place[n].entries| >= 2 && head < 0x1_0000 && parentHead < 0x1_0000
    ensures InitDirectory(s, n, head, parentHead).Ok?
    ensures InitDirectory(s, n, head, parentHead).value.fs.free == s.fs.free
    ensures |InitDirectory(s, n, head, parentHead).value.fs.next| == |s.fs.next|
  {
    hide CoreInv, DotRecord, PlaceRecords, Mask, Growth, Formed;
    SizesOf(s, owner, logs);
    DotRecordBuilt(s.longNames, [DOT], head);
    DotRecordBuilt(s.longNames, [DOT, DOT], parentHead);
    DotMask(s.longNames, [DOT], head);
    DotMask(s.longNames, [DOT, DOT], parentHead);
    var recs := [DotRecord(s.longNames, [DOT], head).value, DotRecord(s.longNames, [DOT, DOT], parentHead).value];
    PlaceSucceeds(s, owner, logs, n, recs);
    GrowthBase(|s.place[n].entries|, s.fs.sectorSize / 32, 2);
  }

  lemma NewDirectorySucceeds(s: FsState, owner: seq<nat>, logs: seq<seq<Record>>, name: seq<byte>,
                             path: seq<seq<byte>>, stamp: Stamp)
    requires CoreInv(s, owner, logs) && Formed(s) && |s.fs.next| <= 0x1_0000 && s.fs.sectorSize >= 32
    requires stamp.Fits() && |name| <= 255
    ensures NewDirectory(s, name, path, stamp).Ok? <==>
      AllocateObject(s, name, [], ATTR_DIRECTORY, path, false, stamp).Ok?
    ensures NewDirectory(s, name, path, stamp).Ok? ==>
      && NewDirectory(s, name, path, stamp).value.fs.free
           == AllocateObject(s, name, [], ATTR_DIRECTORY, path, false, stamp).value.0.fs.free
      && |NewDirectory(s, name, path, stamp).value.fs.next| == |s.fs.next|
  {
    hide CoreInv, AllocateObject, InitDirectory, CreateEntries, TreeOk, Formed, DotRecord;
    if AllocateObject(s, name, [], ATTR_DIRECTORY, path, false, stamp).Ok? {
      var owner2, logs2 := NewDirectoryReady(s, owner, logs, name, path, stamp);
      var (t, first, slot, d) := AllocateObject(s, name, [], ATTR_DIRECTORY, path, false, stamp).value;
      var p := DirPlace(first.value, CreateEntries(t.fs.vol.area, first.value));
      FormedSizes(t);
      var u := AddObject(t, d, name, [], p);
      NewDirEntries(u, owner2, logs2, |t.tree|);
      DotsFit(u, owner2, logs2, |t.tree|, first.value, t.place[d].head);
    }
  }

  /** The entries of one cluster are at least two. */
  lemma NewDirEntries(s: FsState, owner: seq<nat>, logs: seq<seq<Record>>, n: nat)
    requires CoreInv(s, owner, logs) && IsDirectory(s, n) && n != 0
    requires s.place[n].entries == CreateEntries(s.fs.vol.area, s.place[n].head)
    ensures |s.place[n].entries| >= 2
  {
    hide FileOk, TreeOk, SlotRecord, Mask, Chain, SlotsOf;
    assert DirOk(s.fs, owner, s.taken, s.place[n], n, logs[n]);
  }

  // ---- write_content ----

  lemma WriteFileSucceeds(s: FsState, owner: seq<nat>, logs: seq<seq<Record>>, f: nat, content: seq<byte>)
    requires CoreInv(s, owner, logs) && Formed(s) && IsFile(s, f) && s.fs.sectorSize > 0
    ensures var count := RequiredClusters(s.fs.sectorSize, |content|);
      var none := s.place[f].first.None?;
      && (WriteFile(s, f, content).Ok? <==>
           |content| < 0x1_0000_0000 && (if none then content == [] else count - 1 <= Left(s)))
      && (WriteFile(s, f, content).Ok? ==>
           && WriteFile(s, f, content).value.fs.free == s.fs.free + (if none || count <= 1 then 0 else count - 1)
           && |WriteFile(s, f, content).value.fs.next| == |s.fs.next|)
  {
    hide CoreInv, AllocateChain, SetRecord, WriteParts, SlotRecord, ReadFile, RequiredClusters, WithSize, SplitContent,
      SizeOf, Chain, ChainInv, Owned, Formed;
    SizesOf(s, owner, logs);
    FileIds(s, owner, logs, f);
    var count := RequiredClusters(s.fs.sectorSize, |content|);
    if s.place[f].first.None? {
      WriteNothing(s, f, content);
    } else {
      AllocateChainEffect(s.fs, owner, s.place[f].first.value, count);
      if |content| < 0x1_0000_0000 && AllocateChain(s.fs, s.place[f].first.value, count).Ok? {
        WriteParted(s, owner, logs, f, content);
      } else {
        WriteRefused(s, f, content);
      }
    }
  }

  lemma FileIds(s: FsState, owner: seq<nat>, logs: seq<seq<Record>>, f: nat)
    requires CoreInv(s, owner, logs) && IsFile(s, f)
    ensures s.place[f].first.Some? ==> 2 <= s.place[f].first.value <= s.fs.free
  {
    hide DirOk, TreeOk, SlotRecord;
    assert FileOk(s.fs, owner, s.taken, s.place[f], f);
  }

  lemma WriteRefused(s: FsState, f: nat, content: seq<byte>)
    requires Formed(s) && IsFile(s, f) && s.fs.sectorSize > 0 && s.place[f].first.Some?
    requires |content| >= 0x1_0000_0000
          || AllocateChain(s.fs, s.place[f].first.value, RequiredClusters(s.fs.sectorSize, |content|)).Err?
    ensures WriteFile(s, f, content).Err?
  {
    hide AllocateChain, SetRecord, WriteParts, SlotRecord, RequiredClusters, WithSize, SplitContent;
  }

  /** Without a first cluster exactly the empty content can be written. */
  lemma WriteNothing(s: FsState, f: nat, content: seq<byte>)
    requires Formed(s) && IsFile(s, f) && s.fs.sectorSize > 0 && s.place[f].first.None?
    ensures WriteFile(s, f, content).Ok? <==> content == []
    ensures WriteFile(s, f, content).Ok? ==>
      WriteFile(s, f, content).value.fs.free == s.fs.free && |WriteFile(s, f, content).value.fs.next| == |s.fs.next|
  {
    hide WriteParts, SlotRecord, RequiredClusters, WithSize, SplitContent, WithRecord;
    NoCluster(s.fs.sectorSize, content);
  }

  /** With enough clusters allocated, the parts are written. */
  lemma WriteParted(s: FsState, owner: seq<nat>, logs: seq<seq<Record>>, f: nat, content: seq<byte>)
    requires CoreInv(s, owner, logs) && Formed(s) && IsFile(s, f) && s.place[f].first.Some? && s.fs.sectorSize > 0
    requires |content| < 0x1_0000_0000
    requires s.place[f].first.value < |s.fs.next|
    requires AllocateChain(s.fs, s.place[f].first.value, RequiredClusters(s.fs.sectorSize, |content|)).Ok?
    ensures WriteFile(s, f, content).Ok?
    ensures var t := AllocateChain(s.fs, s.place[f].first.value, RequiredClusters(s.fs.sectorSize, |content|)).value;
      WriteFile(s, f, content).value.fs.free == t.free && |WriteFile(s, f, content).value.fs.next| == |t.next|
  {
    hide CoreInv, AllocateChain, SetRecord, WriteParts, SlotRecord, ReadFile, RequiredClusters, WithSize, SplitContent,
      SizeOf, Chain, TreeOk;
    var FilePlace(entry, first) := s.place[f];
    var count := RequiredClusters(s.fs.sectorSize, |content|);
    var owner2 := ChainStage(s, owner, logs, f, count);
    var s1 := s.(fs := AllocateChain(s.fs, first.value, count).value);
    SizeStage(s1, owner2, logs, f, |content|);
    var r := WithSize(SlotRecord(s1.fs.vol.area, entry), |content|);
    var s2 := s1.(fs := SetRecord(s1.fs, entry, r));
    SectorSizeKept(s1.fs, entry, r);
    PartsStage(s2, owner2, logs, f, content);
    PartsFree(s2.fs, first, SplitContent(content, s2.fs.sectorSize));
  }

  /** Writing parts allocates nothing. */
  lemma {:induction false} PartsFree(s: FatState, current: Option<nat>, parts: seq<seq<byte>>)
    requires Shaped(s) && WriteParts(s, current, parts).Ok?
    ensures WriteParts(s, current, parts).value.free == s.free
    decreases |parts|
  {
    if parts == [] {
    } else {
      var c := current.value;
      var t := s.(vol := s.vol.(area := s.vol.area[c := Splice(s.vol.area[c], 0, parts[0])]));
      PartsFree(t, s.next[c], parts[1..]);
    }
  }

  // ---- main results ----

  /** In every state of the invariant an operation succeeds exactly if the caller's check passes,
      and then uses up exactly its cost in clusters. */
  lemma StepSucceeds(s: FsState, owner: seq<nat>, logs: seq<seq<Record>>, op: Op)
    requires CoreInv(s, owner, logs) && Formed(s) && |s.fs.next| <= 0x1_0000 && s.fs.sectorSize >= 32 && op.Proper()
    ensures Step(s, op).Ok? <==> Possible(s, op)
    ensures Step(s, op).Ok? ==> Left(Step(s, op).value) == Left(s) - Cost(s, op)
  {
    hide CoreInv, Formed, CanCreate, AllocateObject, WriteFile, InitDirectory, Search, NewDirectory, RecordCount,
      GrowthFor, RequiredClusters;
    FormedSizes(s);
    match op
    case CreateFile(name, ext, path, isEmpty, stamp) =>
      AllocateSucceeds(s, owner, logs, name, ext, ATTR_ARCHIVE, path, isEmpty, stamp);
    case CreateDirectory(name, path, stamp) =>
      AllocateSucceeds(s, owner, logs, name, [], ATTR_DIRECTORY, path, false, stamp);
      NewDirectorySucceeds(s, owner, logs, name, path, stamp);
    case WriteContent(path, content) =>
      if Search(s.tree, path, 0).Ok? {
        var f := Search(s.tree, path, 0).value;
        KindsAgree(s, f);
        if IsFile(s, f) {
          WriteFileSucceeds(s, owner, logs, f, content);
        }
      }
  }

  lemma KindsAgree(s: FsState, f: nat)
    requires Formed(s) && f < |s.tree|
    ensures IsFile(s, f) <==> !s.tree[f].isDir
  {
  }

  /** After any run from a fresh volume: the next operation succeeds exactly if the caller's check
      passes, at the stated cost. */
  lemma {:induction false} NextSucceeds(g: Geo, header: seq<byte>, longNames: bool, ops: seq<Op>, op: Op)
    requires g.Accepted() && |header| == 512 && ProperOps(ops) && op.Proper()
    ensures Runnable(InitialState(g, header, longNames))
    ensures Run(InitialState(g, header, longNames), ops).Ok? ==>
      var t := Run(InitialState(g, header, longNames), ops).value;
      && Runnable(t) && t.fs.sectorSize >= 32
      && (Step(t, op).Ok? <==> Possible(t, op))
      && (Step(t, op).Ok? ==> Left(Step(t, op).value) == Left(t) - Cost(t, op))
  {
    hide CoreInv, Run, InitialState, Step, Possible, Cost, IdealRun, TrapsOf, Alpha, Formed;
    var s := InitialState(g, header, longNames);
    InitialInv(g, header, longNames, true);
    RunnableInv(s, [0, 0], [[]], true);
    if Run(s, ops).Ok? {
      var owner, logs := RunKeeps(s, [0, 0], [[]], true, ops);
      var t := Run(s, ops).value;
      SizesOf(t, owner, logs);
      LogCount(t, owner, logs);
      StepSucceeds(t, owner, logs, op);
    }
  }
}
