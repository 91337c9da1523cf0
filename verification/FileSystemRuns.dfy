/** Every operation keeps the invariant and does to the files read back from the volume what the
    ideal file system does to its contents; so does every run. */
module FileSystemRuns {
  import opened Bytes
  import opened Outcome
  import opened FatChains
  import opened DirectoryRecords
  import opened LongNames
  import opened NameTree
  import opened FileSystem
  import opened FileSystemInvariant
  import opened FileSystemSteps

  /** The ideal file system that the volume represents: every content is read from the volume. */
  function Alpha(s: FsState): (i: Ideal)
    requires Formed(s)
    ensures i.Ok() && i.tree == s.tree
  {
    Ideal(s.tree, seq(|s.tree|, i requires 0 <= i < |s.tree| =>
      if s.place[i].DirPlace? then [] else ReadFile(s.fs.vol, s.place[i].entry)))
  }

  // ---- the records of a new object ----

  lemma ZeroSize(r: Record)
    requires SizeOf(r) == 0 && AttrOf(r) != ATTR_LONG_NAME
    ensures Mask(r) == r
  {
    Le32Inverse(r[28..32]);
    assert r[28..32] == Le32(0) == [0, 0, 0, 0];
    assert r == r[..28] + r[28..32];
  }

  lemma LongRecordAttr(piece: seq<byte>, order: nat, checksum: byte, isLast: bool)
    requires |piece| <= CHARS_PER_ENTRY && order < 0x40
    ensures AttrOf(LongRecord(piece, order, checksum, isLast)) == ATTR_LONG_NAME
  {
  }

  lemma LongRecordsAttr(full: seq<byte>, checksum: byte)
    requires |full| <= 255
    ensures forall r :: r in LongRecords(full, checksum) ==> AttrOf(r) == ATTR_LONG_NAME
  {
    var lfn := LfnFullName(full);
    var count := EntriesCount(lfn);
    forall j | 0 <= j < count
      ensures AttrOf(LongRecords(full, checksum)[j]) == ATTR_LONG_NAME
    {
      LongRecordAttr(Piece(lfn, count - 1 - j), count - j, checksum, j == 0);
    }
  }

  /** The records of an object end with a short record of its kind, naming its first cluster. */
  lemma EntryRecordsFacts(longNames: bool, siblings: nat, name: seq<byte>, ext: seq<byte>, attr: byte,
                          cluster: nat, stamp: Stamp)
    requires stamp.Fits() && cluster < 0x1_0000 && |BuildName(name, ext)| <= 255 && attr != ATTR_LONG_NAME
    requires EntryRecords(longNames, siblings, name, ext, attr, cluster, stamp).Ok?
    ensures var recs := EntryRecords(longNames, siblings, name, ext, attr, cluster, stamp).value;
      var r := recs[|recs| - 1];
      && (forall x :: x in recs ==> Mask(x) == x)
      && IsShort(r) && AttrOf(r) == attr && ClusterOf(r) == cluster && SizeOf(r) == 0
      && (forall i :: 0 <= i < |recs| - 1 ==> AttrOf(recs[i]) == ATTR_LONG_NAME)
  {
    hide ShortRecord, LongRecords, Mask, IsShort, AttrOf, ClusterOf, SizeOf;
    var recs := EntryRecords(longNames, siblings, name, ext, attr, cluster, stamp).value;
    if !longNames || IsValidSfn(name, ext) {
      ShortRecordFields(longNames, name, ext, attr, cluster, stamp, true, false);
      ZeroSize(recs[0]);
    } else {
      var aliasName, aliasExt := AliasName(name, siblings + 1), AliasExt(ext);
      var checksum := Checksum(aliasName + aliasExt);
      ShortRecordFields(longNames, aliasName, aliasExt, attr, cluster, stamp, false, true);
      ZeroSize(recs[|recs| - 1]);
      LongRecordsAttr(BuildName(name, ext), checksum);
      forall x | x in recs
        ensures Mask(x) == x
      {
        if x in LongRecords(BuildName(name, ext), checksum) {
          LongMask(x);
        }
      }
    }
  }

  lemma LongMask(r: Record)
    requires AttrOf(r) == ATTR_LONG_NAME
    ensures Mask(r) == r
  {
  }

  // ---- adding the object ----

  lemma AddKeepsOthers(t: FsState, owner: seq<nat>, logs: seq<seq<Record>>, d: nat, name: seq<byte>,
                       ext: seq<byte>, p: Place)
    requires CoreInv(t, owner, logs) && IsDirectory(t, d) && First(p) < |t.fs.next|
    requires p.DirPlace? ==> DirOk(t.fs, owner, t.taken, p, |t.tree|, [])
    requires p.FilePlace? ==> FileOk(t.fs, owner, t.taken, p, |t.tree|)
    requires p.FilePlace? ==> forall g :: 0 <= g < |t.tree| && t.place[g].FilePlace? ==> t.place[g].entry != p.entry
    ensures CoreInv(AddObject(t, d, name, ext, p), owner, logs + [[]])
  {
    hide DirOk, FileOk, TreeOk;
    var u := AddObject(t, d, name, ext, p);
    assert u.fs == t.fs;
    var n := |t.tree|;
    forall x | 0 <= x < |u.tree|
      ensures u.tree[x].isDir == u.place[x].DirPlace?
      ensures u.tree[x].isDir ==> DirOk(u.fs, owner, u.taken, u.place[x], x, (logs + [[]])[x])
      ensures !u.tree[x].isDir ==> FileOk(u.fs, owner, u.taken, u.place[x], x)
    {
      if x < n {
        assert t.tree[x].isDir ==> DirOk(t.fs, owner, t.taken, t.place[x], x, logs[x]);
        assert !t.tree[x].isDir ==> FileOk(t.fs, owner, t.taken, t.place[x], x);
      }
    }
    assert TakenOk(u.fs, owner, u.taken, u.tree);
  }

  lemma NewDirOk(fs: FatState, owner: seq<nat>, taken: set<Slot>, head: nat, n: nat)
    requires ChainInv(fs) && Owned(fs, owner) && 2 <= head <= fs.free && owner[head] == n && n != 0
    requires fs.vol.fat[head] == fs.eoc && fs.vol.area[head] == Zeros(fs.sectorSize)
    requires forall x: Slot :: x in taken ==> x.cluster != head
    ensures DirOk(fs, owner, taken, DirPlace(head, CreateEntries(fs.vol.area, head)), n, [])
  {
    hide SlotsOf, CreateEntries, SlotRecord;
    assert Linked(fs, head);
    OneClusterChain(fs, head);
    SlotsOfOne(fs.vol.area, head);
    ZeroSlots(fs.vol.area, head);
  }

  // ---- create_file and create_directory ----

  /** What `allocate_object` leaves behind. */
  ghost predicate Placed(s: FsState, t: FsState, owner2: seq<nat>, logs: seq<seq<Record>>, recs: seq<Record>,
                         first: Option<nat>, slot: Slot, d: nat)
  {
    && |logs| == |s.tree| && d < |logs|
    && CoreInv(t, owner2, logs[d := logs[d] + recs]) && SameReads(s, t) && IsDirectory(t, d)
    && t.tree == s.tree && t.longNames == s.longNames
    && (forall i :: 0 <= i < |s.place| && i != d ==> t.place[i] == s.place[i])
    && |s.place| == |t.place| && IsDirectory(s, d) && s.place[d].entries <= t.place[d].entries
    && t.place[d].head == s.place[d].head
    && slot in t.taken && slot !in s.taken
    && recs != [] && SlotRecord(t.fs.vol.area, slot) == recs[|recs| - 1]
    && |logs[d]| + |recs| <= |t.place[d].entries| && slot == t.place[d].entries[|logs[d]| + |recs| - 1]
    && (first.Some? ==>
         && 2 <= first.value <= t.fs.free && owner2[first.value] == |s.tree|
         && t.fs.vol.fat[first.value] == t.fs.eoc && t.fs.vol.area[first.value] == Zeros(t.fs.sectorSize))
  }

  /** What `allocate_object` leaves behind, with the records it wrote. */
  ghost predicate Allocated(s: FsState, t: FsState, owner2: seq<nat>, logs: seq<seq<Record>>, recs: seq<Record>,
                            first: Option<nat>, slot: Slot, d: nat, name: seq<byte>, ext: seq<byte>, attr: byte,
                            stamp: Stamp)
  {
    && Placed(s, t, owner2, logs, recs, first, slot, d)
    && Formed(s) && stamp.Fits() && |BuildName(name, ext)| <= 255 && Ids(s.tree, s.tree[d].entities)
    && First(FilePlace(slot, first)) < 0x1_0000
    && EntryRecords(s.longNames, CountPrefix(s.tree, s.tree[d].entities, name), name, ext, attr,
                    First(FilePlace(slot, first)), stamp) == Ok(recs)
  }

  lemma AllocateObjectKeeps(s: FsState, owner: seq<nat>, logs: seq<seq<Record>>, name: seq<byte>, ext: seq<byte>,
                            attr: byte, path: seq<seq<byte>>, isEmpty: bool, stamp: Stamp)
    returns (owner2: seq<nat>, recs: seq<Record>)
    requires Formed(s) && |s.fs.next| <= 0x1_0000
    requires CoreInv(s, owner, logs) && stamp.Fits() && |BuildName(name, ext)| <= 255 && attr != ATTR_LONG_NAME
    requires AllocateObject(s, name, ext, attr, path, isEmpty, stamp).Ok?
    ensures var (t, first, slot, d) := AllocateObject(s, name, ext, attr, path, isEmpty, stamp).value;
      && Allocated(s, t, owner2, logs, recs, first, slot, d, name, ext, attr, stamp)
      && Target(s.tree, path) == Ok(d)
      && (first.Some? <==> !isEmpty)
  {
    hide CoreInv, Target, EntryRecords, PlaceRecords, CountPrefix, SlotRecord, ReadFile, Mask,
      AllocateObject, FindFreeCluster, TreeOk;
    LogCount(s, owner, logs);
    AllocateObjectIs(s, name, ext, attr, path, isEmpty, stamp);
    var (t, first, slot, d) := AllocateObject(s, name, ext, attr, path, isEmpty, stamp).value;
    var s1, owner1 := ClusterStage(s, owner, logs, isEmpty);
    var siblings, cluster := CountPrefix(s.tree, s.tree[d].entities, name), First(FilePlace(slot, first));
    recs := EntryRecords(s.longNames, siblings, name, ext, attr, cluster, stamp).value;
    EntryRecordsFacts(s.longNames, siblings, name, ext, attr, cluster, stamp);
    owner2 := PlaceKeeps(s1, owner1, logs, d, recs);
    LogCount(t, owner2, logs[d := logs[d] + recs]);
    hide Formed, SameReads;
    SameReadsTransitive(s, s1, t);
  }

  /** The cluster for the new object, if it gets one. */
  lemma ClusterStage(s: FsState, owner: seq<nat>, logs: seq<seq<Record>>, isEmpty: bool)
    returns (s1: FsState, owner1: seq<nat>)
    requires CoreInv(s, owner, logs) && Formed(s) && (!isEmpty ==> FindFreeCluster(s.fs).Ok?)
    ensures s1 == if isEmpty then s else s.(fs := FindFreeCluster(s.fs).value.0)
    ensures CoreInv(s1, owner1, logs) && SameReads(s, s1)
    ensures !isEmpty ==> var id := FindFreeCluster(s.fs).value.1;
      && 2 <= id == s1.fs.free && id < |owner1| && owner1[id] == |s.tree|
      && s1.fs.vol.fat[id] == s1.fs.eoc && s1.fs.vol.area[id] == Zeros(s1.fs.sectorSize)
  {
    hide CoreInv, FindFreeCluster, ReadFile;
    LogCount(s, owner, logs);
    s1, owner1 := s, owner;
    if isEmpty {
      SelfStep(s, owner, logs, |s.tree|);
    } else {
      AllocKeeps(s, owner, logs, |s.tree|);
      FreshFacts(s, owner, logs);
      s1, owner1 := s.(fs := FindFreeCluster(s.fs).value.0), owner + [|s.tree|];
    }
  }

  lemma {:induction false} AllocateObjectIs(s: FsState, name: seq<byte>, ext: seq<byte>, attr: byte,
                                            path: seq<seq<byte>>, isEmpty: bool, stamp: Stamp)
    requires Formed(s) && |s.fs.next| <= 0x1_0000 && stamp.Fits() && |BuildName(name, ext)| <= 255
    requires AllocateObject(s, name, ext, attr, path, isEmpty, stamp).Ok?
    ensures var (t, first, slot, d) := AllocateObject(s, name, ext, attr, path, isEmpty, stamp).value;
      && Target(s.tree, path) == Ok(d) && d < |s.tree|
      && Ids(s.tree, s.tree[d].entities)
      && (isEmpty ==> first == None)
      && (!isEmpty ==> FindFreeCluster(s.fs).Ok? && first == Some(FindFreeCluster(s.fs).value.1))
      && var s1 := if isEmpty then s else s.(fs := FindFreeCluster(s.fs).value.0);
      && Formed(s1) && IsDirectory(s1, d)
      && First(FilePlace(slot, first)) < 0x1_0000
      && var recs := EntryRecords(s.longNames, CountPrefix(s.tree, s.tree[d].entities, name), name, ext, attr,
                                  First(FilePlace(slot, first)), stamp);
      recs.Ok? && PlaceRecords(s1, d, recs.value) == Ok((t, slot))
  {
    hide PlaceRecords, ObtainEntry, EntryRecords, CountPrefix, Target, AllocateObject, FindFreeCluster, Formed;
    AllocateStages(s, name, ext, attr, path, isEmpty, stamp);
  }

  lemma FreshFacts(s: FsState, owner: seq<nat>, logs: seq<seq<Record>>)
    requires CoreInv(s, owner, logs) && FindFreeCluster(s.fs).Ok?
    ensures var (t, id) := FindFreeCluster(s.fs).value;
      && 2 <= id == t.free && id < 0x1_0000 && |owner| == id
      && t.vol.fat[id] == t.eoc && t.vol.area[id] == Zeros(t.sectorSize)
  {
    FindFreeEffect(s.fs, owner, 0);
  }

  lemma AlphaAfterAdd(s: FsState, t: FsState, d: nat, name: seq<byte>, ext: seq<byte>, p: Place)
    requires Formed(s) && Formed(t) && t.tree == s.tree && d < |s.tree| && First(p) < |t.fs.next|
    requires |s.place| == |t.place| && SameReads(s, t)
    requires p.FilePlace? ==> ReadFile(t.fs.vol, p.entry) == []
    ensures Alpha(AddObject(t, d, name, ext, p)) ==
      Ideal(AddNode(s.tree, d, TNode(name, ext, p.DirPlace?, [])), Alpha(s).contents + [[]])
  {
    hide ReadFile;
    var u := AddObject(t, d, name, ext, p);
    assert forall i :: 0 <= i < |s.place| ==> t.place[i].DirPlace? == s.place[i].DirPlace?;
    assert Alpha(u).contents == Alpha(s).contents + [[]];
  }

  /** What creation does to the places of the objects. */
  ghost predicate NodeAdded(s: FsState, t: FsState, logs: seq<seq<Record>>, recs: seq<Record>, d: nat) {
    && |t.place| == |s.place| + 1 && t.longNames == s.longNames && |logs| == |s.place| && d < |s.place|
    && (forall i :: 0 <= i < |s.place| && i != d ==> t.place[i] == s.place[i])
    && IsDirectory(s, d) && IsDirectory(t, d) && t.place[d].head == s.place[d].head
    && s.place[d].entries <= t.place[d].entries
    && |logs[d]| + |recs| <= |t.place[d].entries|
  }

  /** What creation of `node` in directory `d` leaves behind: the invariant, one more node with empty
      content, and the records `recs` in the directory; `dots` are the new directory's own. */
  ghost predicate ObjectCreated(s: FsState, t: FsState, owner2: seq<nat>, logs: seq<seq<Record>>, recs: seq<Record>,
                                dots: seq<Record>, d: nat, node: TNode, stamp: Stamp)
  {
    && Formed(s) && Formed(t) && |logs| == |s.tree| && d < |s.tree| && Ids(s.tree, s.tree[d].entities)
    && stamp.Fits() && |BuildName(node.name, node.ext)| <= 255
    && CoreInv(t, owner2, logs[d := logs[d] + recs] + [dots])
    && t.tree == AddNode(s.tree, d, node)
    && Alpha(t) == Ideal(t.tree, Alpha(s).contents + [[]])
    && NodeAdded(s, t, logs, recs, d)
    && First(t.place[|s.tree|]) < 0x1_0000 && t.place[|s.tree|].DirPlace? == node.isDir
    && EntryRecords(s.longNames, CountPrefix(s.tree, s.tree[d].entities, node.name), node.name, node.ext,
                    if node.isDir then ATTR_DIRECTORY else ATTR_ARCHIVE, First(t.place[|s.tree|]), stamp) == Ok(recs)
    && recs != []
  }

  lemma NewFileKeeps(s: FsState, owner: seq<nat>, logs: seq<seq<Record>>, name: seq<byte>, ext: seq<byte>,
                     path: seq<seq<byte>>, isEmpty: bool, stamp: Stamp)
    returns (owner2: seq<nat>, recs: seq<Record>, d: nat)
    requires Formed(s) && |s.fs.next| <= 0x1_0000
    requires CoreInv(s, owner, logs) && stamp.Fits() && |BuildName(name, ext)| <= 255
    requires NewFile(s, name, ext, path, isEmpty, stamp).Ok?
    ensures Formed(s) && |logs| == |s.tree| && Target(s.tree, path) == Ok(d)
    ensures var t := NewFile(s, name, ext, path, isEmpty, stamp).value;
      && ObjectCreated(s, t, owner2, logs, recs, [], d, TNode(name, ext, false, []), stamp)
      && t.place[|s.tree|].entry == t.place[d].entries[|logs[d]| + |recs| - 1]
  {
    hide Base, TakenOk, Objects, Target, AllocateObject, EntryRecords, CountPrefix, SlotRecord, ReadFile, Mask, Alpha;
    LogCount(s, owner, logs);
    owner2, recs := AllocateObjectKeeps(s, owner, logs, name, ext, ATTR_ARCHIVE, path, isEmpty, stamp);
    var (t, first, slot, dd) := AllocateObject(s, name, ext, ATTR_ARCHIVE, path, isEmpty, stamp).value;
    d := dd;
    var p := FilePlace(slot, first);
    EntryRecordsFacts(s.longNames, CountPrefix(s.tree, s.tree[d].entities, name), name, ext, ATTR_ARCHIVE, First(p),
      stamp);
    NewFileOk(s, t, owner, owner2, logs, recs, first, slot, d);
    LogCount(t, owner2, logs[d := logs[d] + recs]);
    AddKeepsOthers(t, owner2, logs[d := logs[d] + recs], d, name, ext, p);
    AlphaAfterAdd(s, t, d, name, ext, p);
  }

  lemma NewFileOk(s: FsState, t: FsState, owner: seq<nat>, owner2: seq<nat>, logs: seq<seq<Record>>,
                  recs: seq<Record>, first: Option<nat>, slot: Slot, d: nat)
    requires CoreInv(s, owner, logs) && Placed(s, t, owner2, logs, recs, first, slot, d)
    requires var r := recs[|recs| - 1];
      IsShort(r) && AttrOf(r) == ATTR_ARCHIVE && ClusterOf(r) == First(FilePlace(slot, first)) && SizeOf(r) == 0
    ensures Base(t, owner2) && FileOk(t.fs, owner2, t.taken, FilePlace(slot, first), |t.tree|)
    ensures forall g :: 0 <= g < |t.tree| && t.place[g].FilePlace? ==> t.place[g].entry != slot
    ensures ReadFile(t.fs.vol, slot) == []
  {
    hide DirOk, TreeOk, SlotRecord, TakenOk;
    forall g | 0 <= g < |t.tree| && t.place[g].FilePlace?
      ensures t.place[g].entry != slot
    {
      assert t.place[g] == s.place[g];
      assert FileOk(s.fs, owner, s.taken, s.place[g], g);
    }
  }

  /** `new_directory` in terms of its parts. */
  lemma NewDirectoryIs(s: FsState, name: seq<byte>, path: seq<seq<byte>>, stamp: Stamp)
    requires Formed(s) && |s.fs.next| <= 0x1_0000 && stamp.Fits() && |name| <= 255
    requires NewDirectory(s, name, path, stamp).Ok?
    ensures AllocateObject(s, name, [], ATTR_DIRECTORY, path, false, stamp).Ok?
    ensures var (t, first, slot, d) := AllocateObject(s, name, [], ATTR_DIRECTORY, path, false, stamp).value;
      && first.Some? && first.value < 0x1_0000 && Formed(t) && d < |t.tree| && t.place[d].DirPlace?
      && t.place[d].head < 0x1_0000
      && var u := AddObject(t, d, name, [], DirPlace(first.value, CreateEntries(t.fs.vol.area, first.value)));
         && IsDirectory(u, |t.tree|)
         && var dot := DotRecord(s.longNames, [DOT], first.value);
            var dotDot := DotRecord(s.longNames, [DOT, DOT], t.place[d].head);
            && dot.Ok? && dotDot.Ok?
            && var placed := PlaceRecords(u, |t.tree|, [dot.value, dotDot.value]);
               placed.Ok? && NewDirectory(s, name, path, stamp).value == placed.value.0
  {
    hide AllocateObject, PlaceRecords, DotRecord, CreateEntries, Search, TreeOk;
    var (t, first, slot, d) := AllocateObject(s, name, [], ATTR_DIRECTORY, path, false, stamp).value;
    assert First(t.place[d]) < |t.fs.next|;
  }

  lemma NewDirectoryKeeps(s: FsState, owner: seq<nat>, logs: seq<seq<Record>>, name: seq<byte>,
                          path: seq<seq<byte>>, stamp: Stamp)
    returns (owner2: seq<nat>, recs: seq<Record>, d: nat, dots: seq<Record>)
    requires Formed(s) && |s.fs.next| <= 0x1_0000
    requires CoreInv(s, owner, logs) && stamp.Fits() && |name| <= 255
    requires NewDirectory(s, name, path, stamp).Ok?
    ensures Formed(s) && |logs| == |s.tree| && Target(s.tree, path) == Ok(d)
    ensures var t := NewDirectory(s, name, path, stamp).value;
      && ObjectCreated(s, t, owner2, logs, recs, dots, d, TNode(name, [], true, []), stamp)
      && s.place[d].head < 0x1_0000
      && |dots| == 2
      && DotRecord(s.longNames, [DOT], First(t.place[|s.tree|])) == Ok(dots[0])
      && DotRecord(s.longNames, [DOT, DOT], s.place[d].head) == Ok(dots[1])
  {
    hide TakenOk, Objects, Target, AllocateObject, EntryRecords, CountPrefix, SlotRecord, ReadFile, Mask, Alpha,
      PlaceRecords, DotRecord, CreateEntries, Base, NewDirectory, AddObject, TreeOk;
    LogCount(s, owner, logs);
    NewDirectoryIs(s, name, path, stamp);
    owner2, recs := AllocateObjectKeeps(s, owner, logs, name, [], ATTR_DIRECTORY, path, false, stamp);
    var (t, first, slot, dd) := AllocateObject(s, name, [], ATTR_DIRECTORY, path, false, stamp).value;
    d := dd;
    var logs1, n := logs[d := logs[d] + recs], |s.tree|;
    LogCount(t, owner2, logs1);
    var p := DirPlace(first.value, CreateEntries(t.fs.vol.area, first.value));
    NewDirPlaceOk(s, t, owner2, logs, recs, first, slot, d);
    AddKeepsOthers(t, owner2, logs1, d, name, [], p);
    AlphaAfterAdd(s, t, d, name, [], p);
    var u := AddObject(t, d, name, [], p);
    var dot := DotRecord(s.longNames, [DOT], first.value).value;
    var dotDot := DotRecord(s.longNames, [DOT, DOT], t.place[d].head).value;
    dots := [dot, dotDot];
    DotMask(s.longNames, [DOT], first.value);
    DotMask(s.longNames, [DOT, DOT], t.place[d].head);
    owner2 := PlaceKeeps(u, owner2, logs1 + [[]], n, dots);
    AppendDots(logs1, dots);
    AlphaAfterDots(u, PlaceRecords(u, n, dots).value.0, n);
  }

  lemma AppendDots(logs: seq<seq<Record>>, dots: seq<Record>)
    ensures var l: seq<seq<Record>> := logs + [[]];
      l[|logs| := l[|logs|] + dots] == logs + [dots]
  {
    var l: seq<seq<Record>> := logs + [[]];
    assert l[|logs|] == [] && [] + dots == dots;
  }

  lemma NewDirPlaceOk(s: FsState, t: FsState, owner2: seq<nat>, logs: seq<seq<Record>>,
                      recs: seq<Record>, first: Option<nat>, slot: Slot, d: nat)
    requires Placed(s, t, owner2, logs, recs, first, slot, d) && first.Some? && |s.tree| > 0
    ensures Base(t, owner2)
    ensures var p := DirPlace(first.value, CreateEntries(t.fs.vol.area, first.value));
      DirOk(t.fs, owner2, t.taken, p, |t.tree|, []) && First(p) < |t.fs.next|
  {
    hide DirOk, FileOk, TreeOk, SlotRecord;
    NewDirOk(t.fs, owner2, t.taken, first.value, |t.tree|);
  }

  lemma DotMask(longNames: bool, name: seq<byte>, cluster: nat)
    requires cluster < 0x1_0000 && DotRecord(longNames, name, cluster).Ok?
    ensures Mask(DotRecord(longNames, name, cluster).value) == DotRecord(longNames, name, cluster).value
  {
    ShortRecordFields(longNames, name, [], ATTR_DIRECTORY, cluster, DEFAULT_STAMP, false, false);
    ZeroSize(DotRecord(longNames, name, cluster).value);
  }

  lemma AlphaAfterDots(u: FsState, v: FsState, n: nat)
    requires Formed(u) && Formed(v) && v.tree == u.tree && SameReads(u, v) && |v.place| == |u.place|
    requires forall i :: 0 <= i < |u.place| ==> v.place[i].DirPlace? == u.place[i].DirPlace?
    ensures Alpha(v) == Alpha(u)
  {
    hide ReadFile;
    assert Alpha(v).contents == Alpha(u).contents;
  }

  /** After `allocate_object`, the new directory can be added and initialised. */
  lemma NewDirectoryReady(s: FsState, owner: seq<nat>, logs: seq<seq<Record>>, name: seq<byte>, path: seq<seq<byte>>,
                          stamp: Stamp)
    returns (owner2: seq<nat>, logs2: seq<seq<Record>>)
    requires CoreInv(s, owner, logs) && stamp.Fits() && |name| <= 255
    requires Formed(s) && |s.fs.next| <= 0x1_0000
    requires AllocateObject(s, name, [], ATTR_DIRECTORY, path, false, stamp).Ok?
    ensures var (t, first, slot, d) := AllocateObject(s, name, [], ATTR_DIRECTORY, path, false, stamp).value;
      var p := DirPlace(first.value, CreateEntries(t.fs.vol.area, first.value));
      && 1 <= first.value < |t.fs.next| <= 0x1_0000 && t.place[d].head < 0x1_0000
      && Formed(t) && d < |t.tree|
      && CoreInv(AddObject(t, d, name, [], p), owner2, logs2)
      && IsDirectory(AddObject(t, d, name, [], p), |t.tree|)
      && |logs2| == |t.tree| + 1 && logs2[|t.tree|] == []
  {
    hide AllocateObject, Base, TakenOk, Objects, CreateEntries, Target, EntryRecords, DirOk;
    LogCount(s, owner, logs);
    var recs;
    owner2, recs := AllocateObjectKeeps(s, owner, logs, name, [], ATTR_DIRECTORY, path, false, stamp);
    var (t, first, slot, d) := AllocateObject(s, name, [], ATTR_DIRECTORY, path, false, stamp).value;
    var logs1 := logs[d := logs[d] + recs];
    LogCount(t, owner2, logs1);
    assert First(t.place[d]) < |t.fs.next|;
    NewDirPlaceOk(s, t, owner2, logs, recs, first, slot, d);
    AddKeepsOthers(t, owner2, logs1, d, name, [], DirPlace(first.value, CreateEntries(t.fs.vol.area, first.value)));
    logs2 := logs1 + [[]];
  }

  // ---- write_content ----

  ghost predicate ReadsOthers(s: FsState, t: FsState, f: nat) {
    && t.place == s.place
    && forall g :: 0 <= g < |s.place| && g != f && s.place[g].FilePlace? ==>
         ReadFile(t.fs.vol, s.place[g].entry) == ReadFile(s.fs.vol, s.place[g].entry)
  }

  lemma FileFacts(s: FsState, owner: seq<nat>, logs: seq<seq<Record>>, f: nat)
    requires CoreInv(s, owner, logs) && IsFile(s, f)
    ensures FileOk(s.fs, owner, s.taken, s.place[f], f)
    ensures var e := s.place[f].entry;
      && ValidSlot(s.fs.vol.area, e) && 1 <= e.cluster <= s.fs.free
      && owner[e.cluster] < |s.tree| && s.tree[owner[e.cluster]].isDir && owner[e.cluster] != f
      && !s.tree[f].isDir && |s.tree| == |s.place|
      && IsShort(SlotRecord(s.fs.vol.area, e))
  {
    hide DirOk, TreeOk;
    assert FileOk(s.fs, owner, s.taken, s.place[f], f);
  }

  /** Stage 1: `allocate_chain` replaces what follows the first cluster. */
  lemma ChainStage(s: FsState, owner: seq<nat>, logs: seq<seq<Record>>, f: nat, count: nat) returns (owner2: seq<nat>)
    requires CoreInv(s, owner, logs) && IsFile(s, f) && s.place[f].first.Some?
    requires AllocateChain(s.fs, s.place[f].first.value, count).Ok?
    ensures var id := s.place[f].first.value;
      var t := s.(fs := AllocateChain(s.fs, id, count).value);
      && CoreInv(t, owner2, logs) && ReadsOthers(s, t, f)
      && 2 <= id <= t.fs.free && count <= |Chain(t.fs.vol.fat, id)|
      && t.fs.sectorSize == s.fs.sectorSize
  {
    hide DirOk, TreeOk, ReadFile, SlotRecord, Chain;
    FileFacts(s, owner, logs, f);
    var id := s.place[f].first.value;
    var t := s.(fs := AllocateChain(s.fs, id, count).value);
    var extra := if count <= 1 then 0 else count - 1;
    AllocateChainEffect(s.fs, owner, id, count);
    owner2 := owner + Copies(owner[id], extra);
    ChainTouches(s, t, owner, owner2, logs, f, id, extra);
    FrameFileStep(s, t, owner, owner2, logs, f);
  }

  lemma ChainTouches(s: FsState, t: FsState, owner: seq<nat>, owner2: seq<nat>, logs: seq<seq<Record>>,
                     f: nat, id: nat, extra: nat)
    requires CoreInv(s, owner, logs) && IsFile(s, f) && FileOk(s.fs, owner, s.taken, s.place[f], f)
    requires t == s.(fs := t.fs) && ChainInv(t.fs) && Owned(t.fs, owner2) && owner <= owner2
    requires 2 <= id <= s.fs.free && owner[id] == f && Appended(s.fs, t.fs, id, extra)
    ensures Base(t, owner2) && OnlyTouches(s, t, owner, owner2, f)
    ensures FileOk(t.fs, owner2, t.taken, t.place[f], f)
  {
    hide DirOk, TreeOk, ReadFile, Objects, Chain;
    assert forall x :: x in s.taken ==> 1 <= x.cluster <= s.fs.free;
    assert forall x :: x in s.taken ==> SlotRecord(t.fs.vol.area, x) == SlotRecord(s.fs.vol.area, x);
    assert t.fs.vol.area[0] == s.fs.vol.area[0] && t.fs.vol.area[1] == s.fs.vol.area[1];
  }

  lemma WithSizeMask(r: Record, n: nat)
    requires IsShort(r) && AttrOf(r) == ATTR_ARCHIVE && n < 0x1_0000_0000
    ensures Mask(WithSize(r, n)) == Mask(r)
  {
    SizeFields(r, n);
  }

  /** Stage 2: the size field of the file's record. */
  lemma SizeStage(s: FsState, owner: seq<nat>, logs: seq<seq<Record>>, f: nat, n: nat)
    requires CoreInv(s, owner, logs) && IsFile(s, f) && n < 0x1_0000_0000
    requires n == 0 || s.place[f].first.Some?
    ensures var e := s.place[f].entry;
      var t := s.(fs := SetRecord(s.fs, e, WithSize(SlotRecord(s.fs.vol.area, e), n)));
      && CoreInv(t, owner, logs) && ReadsOthers(s, t, f) && SizeOf(SlotRecord(t.fs.vol.area, e)) == n
      && t.fs.vol.fat == s.fs.vol.fat && t.fs.next == s.fs.next && t.fs.free == s.fs.free
  {
    hide DirOk, FileOk, TreeOk, SlotRecord, ReadFile, Mask, IsShort, AttrOf, SizeOf;
    FileFacts(s, owner, logs, f);
    var e := s.place[f].entry;
    var r := SlotRecord(s.fs.vol.area, e);
    var t := s.(fs := SetRecord(s.fs, e, WithSize(r, n)));
    FileRecord(s.fs, owner, s.taken, s.place[f], f);
    SizeFields(r, n);
    WithSizeMask(r, n);
    SetRecordEffect(s.fs, owner, e, WithSize(r, n));
    forall x | 0 <= x < |s.tree| && s.tree[x].isDir
      ensures DirOk(t.fs, owner, t.taken, t.place[x], x, logs[x])
    {
      assert DirOk(s.fs, owner, s.taken, s.place[x], x, logs[x]);
      SizeDirOk(s.fs, t.fs, owner, s.taken, s.place[x], x, logs[x], e, WithSize(r, n));
    }
    forall g | 0 <= g < |s.tree| && !s.tree[g].isDir
      ensures FileOk(t.fs, owner, t.taken, t.place[g], g)
      ensures g != f ==> ReadFile(t.fs.vol, s.place[g].entry) == ReadFile(s.fs.vol, s.place[g].entry)
    {
      assert FileOk(s.fs, owner, s.taken, s.place[g], g);
      if g != f {
        assert s.place[g].entry != e;
        FileFrame(s.fs, t.fs, owner, owner, s.taken, t.taken, s.place[g], g);
      } else {
        SizeFileOk(s.fs, t.fs, owner, s.taken, s.place[f], f, n);
      }
    }
  }

  lemma FileRecord(fs: FatState, owner: seq<nat>, taken: set<Slot>, p: Place, f: nat)
    requires ChainInv(fs) && |owner| == fs.free + 1 && FileOk(fs, owner, taken, p, f)
    ensures p.entry in taken
    ensures var r := SlotRecord(fs.vol.area, p.entry);
      IsShort(r) && AttrOf(r) == ATTR_ARCHIVE && ClusterOf(r) == First(p)
  {
  }

  lemma SizeFileOk(fs: FatState, fs2: FatState, owner: seq<nat>, taken: set<Slot>, p: Place, f: nat, n: nat)
    requires ChainInv(fs) && ChainInv(fs2) && |owner| == fs.free + 1 && fs2.free == fs.free
    requires FileOk(fs, owner, taken, p, f) && n < 0x1_0000_0000 && (n == 0 || p.first.Some?)
    requires SlotRecord(fs2.vol.area, p.entry) == WithSize(SlotRecord(fs.vol.area, p.entry), n)
    ensures FileOk(fs2, owner, taken, p, f)
  {
    SizeFields(SlotRecord(fs.vol.area, p.entry), n);
  }

  lemma SizeDirOk(fs: FatState, fs2: FatState, owner: seq<nat>, taken: set<Slot>, p: Place, d: nat,
                  log: seq<Record>, e: Slot, r: Record)
    requires ChainInv(fs) && Owned(fs, owner) && DirOk(fs, owner, taken, p, d, log) && e in taken
    requires ValidSlot(fs.vol.area, e) && Mask(r) == Mask(SlotRecord(fs.vol.area, e)) && fs2 == SetRecord(fs, e, r)
    ensures ChainInv(fs2) && DirOk(fs2, owner, taken, p, d, log)
  {
    hide ChainInv, SlotsOf, Chain, SlotRecord, Mask;
    SetRecordEffect(fs, owner, e, r);
    AreaLengths(fs.vol.area, fs2.vol.area);
    SlotsFrame(fs.vol.area, fs2.vol.area, Chain(fs.vol.fat, p.head));
  }

  /** Stage 3: the parts of the content. */
  lemma {:induction false} PartsStage(s: FsState, owner: seq<nat>, logs: seq<seq<Record>>, f: nat, content: seq<byte>)
    requires CoreInv(s, owner, logs) && IsFile(s, f) && s.place[f].first.Some?
    requires SizeOf(SlotRecord(s.fs.vol.area, s.place[f].entry)) == |content|
    requires RequiredClusters(s.fs.sectorSize, |content|) <= |Chain(s.fs.vol.fat, s.place[f].first.value)|
    ensures var id := s.place[f].first.value;
      var r := WriteParts(s.fs, Some(id), SplitContent(content, s.fs.sectorSize));
      r.Ok? && var t := s.(fs := r.value);
      && CoreInv(t, owner, logs) && ReadsOthers(s, t, f)
      && ReadFile(t.fs.vol, s.place[f].entry) == content
  {
    hide DirOk, TreeOk, SlotRecord, Chain, ReadFile, SplitContent, WriteParts;
    FileFacts(s, owner, logs, f);
    var id := s.place[f].first.value;
    SplitCount(content, s.fs.sectorSize);
    WriteEffect(s.fs, owner, id, content);
    var t := s.(fs := WriteParts(s.fs, Some(id), SplitContent(content, s.fs.sectorSize)).value);
    ChainProperties(s.fs, owner, id);
    AreaChangeKeepsInv(s.fs, owner, t.fs);
    PartsTouch(s, t, owner, logs, f, Chain(s.fs.vol.fat, id), content);
    FrameFileStep(s, t, owner, owner, logs, f);
    ReadsContent(t, s.place[f].entry, id, content);
  }

  lemma PartsTouch(s: FsState, t: FsState, owner: seq<nat>, logs: seq<seq<Record>>, f: nat, chain: seq<nat>,
                   content: seq<byte>)
    requires CoreInv(s, owner, logs) && IsFile(s, f) && FileOk(s.fs, owner, s.taken, s.place[f], f)
    requires !s.tree[f].isDir && t == s.(fs := t.fs) && Written(s.fs, t.fs, chain, content)
    requires ChainInv(t.fs) && Owned(t.fs, owner)
    requires forall c :: c in chain ==> 2 <= c <= s.fs.free && owner[c] == f
    ensures Base(t, owner) && OnlyTouches(s, t, owner, owner, f)
    ensures FileOk(t.fs, owner, t.taken, t.place[f], f)
    ensures SlotRecord(t.fs.vol.area, s.place[f].entry) == SlotRecord(s.fs.vol.area, s.place[f].entry)
  {
    hide DirOk, TreeOk, ReadFile, Objects, Concat;
    forall x | x in s.taken
      ensures SlotRecord(t.fs.vol.area, x) == SlotRecord(s.fs.vol.area, x)
    {
      assert x.cluster !in chain;
    }
  }

  lemma {:induction false} ReadsContent(t: FsState, e: Slot, id: nat, content: seq<byte>)
    requires SizeOf(SlotRecord(t.fs.vol.area, e)) == |content| && ClusterOf(SlotRecord(t.fs.vol.area, e)) == id
    requires Prefix(Concat(t.fs.vol.area, Chain(t.fs.vol.fat, id)), |content|) == content
    ensures ReadFile(t.fs.vol, e) == content
  {
  }

  lemma ReadsOthersTransitive(s: FsState, t: FsState, u: FsState, f: nat)
    requires ReadsOthers(s, t, f) && ReadsOthers(t, u, f)
    ensures ReadsOthers(s, u, f)
  {
  }

  lemma WriteKeeps(s: FsState, owner: seq<nat>, logs: seq<seq<Record>>, path: seq<seq<byte>>, content: seq<byte>)
    returns (owner2: seq<nat>)
    requires CoreInv(s, owner, logs) && WriteToFile(s, path, content).Ok?
    ensures var t := WriteToFile(s, path, content).value;
      && CoreInv(t, owner2, logs) && t == s.(fs := t.fs)
      && IdealStep(Alpha(s), WriteContent(path, content)) == Ok(Alpha(t))
  {
    hide Base, TakenOk, Objects, Search, WriteFile, ReadFile, Alpha;
    LogCount(s, owner, logs);
    SectorSizePositive(s, owner, logs);
    var f := Search(s.tree, path, 0).value;
    FileFirst(s, owner, logs, f);
    if s.place[f].first.Some? {
      owner2 := WriteSome(s, owner, logs, f, content);
    } else {
      owner2 := owner;
      WriteNone(s, owner, logs, f, content);
    }
    var t := WriteToFile(s, path, content).value;
    LogCount(t, owner2, logs);
    AlphaAfterWrite(s, t, f, content);
  }

  lemma WriteSome(s: FsState, owner: seq<nat>, logs: seq<seq<Record>>, f: nat, content: seq<byte>)
    returns (owner2: seq<nat>)
    requires CoreInv(s, owner, logs) && IsFile(s, f) && s.place[f].first.Some? && s.fs.sectorSize > 0
    requires WriteFile(s, f, content).Ok?
    ensures var t := WriteFile(s, f, content).value;
      && CoreInv(t, owner2, logs) && t == s.(fs := t.fs) && ReadsOthers(s, t, f)
      && ReadFile(t.fs.vol, s.place[f].entry) == content
  {
    hide Base, TakenOk, Objects, AllocateChain, SetRecord, WriteParts, SlotRecord, ReadFile, RequiredClusters,
      WithSize, SplitContent, SizeOf, Chain;
    LogCount(s, owner, logs);
    var FilePlace(entry, first) := s.place[f];
    var count := RequiredClusters(s.fs.sectorSize, |content|);
    owner2 := ChainStage(s, owner, logs, f, count);
    var s1 := s.(fs := AllocateChain(s.fs, first.value, count).value);
    SizeStage(s1, owner2, logs, f, |content|);
    var r := WithSize(SlotRecord(s1.fs.vol.area, entry), |content|);
    var s2 := s1.(fs := SetRecord(s1.fs, entry, r));
    ReadsOthersTransitive(s, s1, s2, f);
    SectorSizeKept(s1.fs, entry, r);
    PartsStage(s2, owner2, logs, f, content);
    var t := s2.(fs := WriteParts(s2.fs, first, SplitContent(content, s2.fs.sectorSize)).value);
    ReadsOthersTransitive(s, s2, t, f);
  }

  lemma WriteNone(s: FsState, owner: seq<nat>, logs: seq<seq<Record>>, f: nat, content: seq<byte>)
    requires CoreInv(s, owner, logs) && IsFile(s, f) && s.place[f].first.None? && s.fs.sectorSize > 0
    requires WriteFile(s, f, content).Ok?
    ensures var t := WriteFile(s, f, content).value;
      && CoreInv(t, owner, logs) && t == s.(fs := t.fs) && ReadsOthers(s, t, f)
      && ReadFile(t.fs.vol, s.place[f].entry) == content
  {
    hide Base, TakenOk, Objects, SetRecord, WriteParts, SlotRecord, ReadFile, RequiredClusters, WithSize, SplitContent;
    LogCount(s, owner, logs);
    var entry := s.place[f].entry;
    NoCluster(s.fs.sectorSize, content);
    SectorSizeKept(s.fs, entry, WithSize(SlotRecord(s.fs.vol.area, entry), |content|));
    assert content == [];
    SizeStage(s, owner, logs, f, 0);
    EmptyWrite(s.fs, entry);
  }

  lemma SectorSizePositive(s: FsState, owner: seq<nat>, logs: seq<seq<Record>>)
    requires CoreInv(s, owner, logs)
    ensures s.fs.sectorSize > 0
  {
  }

  lemma SectorSizeKept(fs: FatState, e: Slot, r: Record)
    ensures SetRecord(fs, e, r).sectorSize == fs.sectorSize && SetRecord(fs, e, r).vol.fat == fs.vol.fat
    ensures Shaped(fs) ==> Shaped(SetRecord(fs, e, r))
  {
  }

  lemma FileFirst(s: FsState, owner: seq<nat>, logs: seq<seq<Record>>, f: nat)
    requires CoreInv(s, owner, logs) && f < |s.tree| && !s.tree[f].isDir
    ensures IsFile(s, f)
    ensures s.place[f].first.Some? ==> s.place[f].first.value < |s.fs.next|
  {
  }

  /** Without a first cluster only the empty content can be written, and then nothing is. */
  lemma {:induction false} NoCluster(sectorSize: nat, content: seq<byte>)
    requires sectorSize > 0
    ensures content == [] ==> SplitContent(content, sectorSize) == [] && RequiredClusters(sectorSize, 0) == 0
    ensures content != [] ==> forall s: FatState {:trigger WriteParts(s, None, SplitContent(content, sectorSize))} ::
      Shaped(s) ==> WriteParts(s, None, SplitContent(content, sectorSize)).Err?
    ensures forall s: FatState {:trigger WriteParts(s, None, [])} :: Shaped(s) ==> WriteParts(s, None, []) == Ok(s)
  {
    DivisionStep(sectorSize, 0);
    SplitCount(content, sectorSize);
    if content != [] {
      DivisionStep(sectorSize, |content|);
      assert SplitContent(content, sectorSize) != [];
    }
  }

  lemma EmptyWrite(fs: FatState, e: Slot)
    ensures var t := SetRecord(fs, e, WithSize(SlotRecord(fs.vol.area, e), 0));
      SizeOf(SlotRecord(t.vol.area, e)) == 0 ==> ReadFile(t.vol, e) == []
  {
  }

  lemma AlphaAfterWrite(s: FsState, t: FsState, f: nat, content: seq<byte>)
    requires Formed(s) && Formed(t) && t == s.(fs := t.fs) && IsFile(s, f) && ReadsOthers(s, t, f)
    requires ReadFile(t.fs.vol, s.place[f].entry) == content
    ensures Alpha(t) == Ideal(s.tree, Alpha(s).contents[f := content])
  {
    hide ReadFile;
    assert Alpha(t).contents == Alpha(s).contents[f := content];
  }
}
