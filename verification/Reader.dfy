/** The reader of `fatfsparse.py` on a whole volume with long-name support fixed on or off; module
    Traversal adds the flag that is switched on while reading. */
module Reader {
  import opened Bytes
  import opened Volume
  import opened FatChains
  import opened DirectoryRecords
  import opened LongNames
  import opened NameTree
  import opened FileSystem
  import opened FileSystemInvariant
  import opened FileSystemRuns
  import opened DirectoryListing

  /** What the reader creates on the host. */
  datatype Tree =
    | FileTree(name: Text, content: seq<byte>)
    | DirTree(name: Text, children: seq<Tree>)

  // ---- the reader, from the bytes of the volume alone ----

  function RecordsOf(content: seq<byte>): (r: seq<Record>)
    ensures |r| == |content| / 32
  {
    seq(|content| / 32, i requires 0 <= i < |content| / 32 => content[32 * i..32 * i + 32])
  }

  /** The bytes of a directory: the root area, or the chained content of its first cluster. */
  function DirContent(vol: Vol, cluster: nat): seq<byte> {
    if cluster == 1 then AreaOf(vol.area, 1) else Concat(vol.area, Chain(vol.fat, cluster))
  }

  /** Parsing a padded string drops its trailing zero bytes; the checksum then needs all eleven
      characters (otherwise indexing them raises). */
  predicate ChecksumDefined(r: Record) {
    |StripTrailing(NameField(r), 0)| + |StripTrailing(ExtField(r), 0)| == MAX_NAME_SIZE + MAX_EXT_SIZE
  }

  function ReadContent(vol: Vol, r: Record): seq<byte> {
    if SizeOf(r) > 0 then Prefix(Concat(vol.area, Chain(vol.fat, ClusterOf(r))), SizeOf(r)) else []
  }

  predicate IsDotName(name: Text) {
    name == [0x2e] || name == [0x2e, 0x2e]
  }

  /** Reading from record `k` on; None when it raises, or when directories are nested deeper than
      `depth`. */
  function ReadFrom(vol: Vol, recs: seq<Record>, k: nat, support: bool, depth: nat): Option<seq<Tree>>
    decreases depth, |recs| - k
  {
    if k >= |recs| then Some([])
    else if !Parses(recs[k]) || AttrOf(recs[k]) == 0 then ReadFrom(vol, recs, k + 1, support, depth)
    else if !ChecksumDefined(recs[k]) then None
    else
      var name := ObjName(recs, k, support);
      var rest := ReadFrom(vol, recs, k + 1, support, depth);
      if AttrOf(recs[k]) == ATTR_ARCHIVE then
        if rest.None? then None else Some([FileTree(name, ReadContent(vol, recs[k]))] + rest.value)
      else if AttrOf(recs[k]) == ATTR_DIRECTORY && !IsDotName(name) then
        if depth == 0 then None
        else
          var children := ReadFrom(vol, RecordsOf(DirContent(vol, ClusterOf(recs[k]))), 0, support, depth - 1);
          if children.None? || rest.None? then None else Some([DirTree(name, children.value)] + rest.value)
      else rest
  }

  function ReadTree(vol: Vol, support: bool, depth: nat): Option<seq<Tree>> {
    ReadFrom(vol, RecordsOf(DirContent(vol, 1)), 0, support, depth)
  }

  // ---- the tree it should find ----

  function IdealFrom(i: Ideal, longNames: bool, d: nat, j: nat): seq<Tree>
    requires i.Ok() && d < |i.tree|
    decreases |i.tree| - d, |i.tree[d].entities| - j
  {
    if j >= |i.tree[d].entities| then []
    else
      var e := i.tree[d].entities[j];
      assert e in i.tree[d].entities;
      var name := Display(longNames, i.tree[e].name, i.tree[e].ext);
      [if i.tree[e].isDir then DirTree(name, IdealFrom(i, longNames, e, 0)) else FileTree(name, i.contents[e])]
        + IdealFrom(i, longNames, d, j + 1)
  }

  /** The whole ideal tree below the root. */
  function IdealTree(i: Ideal, longNames: bool): seq<Tree>
    requires i.Ok()
  {
    IdealFrom(i, longNames, 0, 0)
  }

  /** No directory has a name that reads as a link to itself or to its parent. */
  predicate NoDotNames(longNames: bool, tree: seq<TNode>) {
    forall e :: 0 < e < |tree| && tree[e].isDir ==> !IsDotName(Display(longNames, tree[e].name, tree[e].ext))
  }

  /** A long-name record that parses as a short one: the reader raises on it. */
  predicate Trap(r: Record) {
    AttrOf(r) == ATTR_LONG_NAME && Parses(r)
  }

  /** The directories that hold a trap. */
  function TrapDirs(logs: seq<seq<Record>>): set<nat> {
    set d: nat | d < |logs| && exists r :: r in logs[d] && Trap(r)
  }

  /** A trap lies in directory `d` or below, outside every directory that reads as a dot link. */
  predicate TrapShown(longNames: bool, tree: seq<TNode>, traps: set<nat>, d: nat)
    requires TreeOk(tree) && d < |tree|
    decreases |tree| - d
  {
    d in traps || exists j :: 0 <= j < |tree[d].entities| && ShownDir(longNames, tree, d, j)
                              && TrapShown(longNames, tree, traps, tree[d].entities[j])
  }

  /** Entity `j` of directory `d` is a directory that does not read as a dot link. */
  predicate ShownDir(longNames: bool, tree: seq<TNode>, d: nat, j: nat)
    requires TreeOk(tree) && d < |tree| && j < |tree[d].entities|
    ensures d < tree[d].entities[j] < |tree|
  {
    assert tree[d].entities[j] in tree[d].entities;
    var e := tree[tree[d].entities[j]];
    e.isDir && !IsDotName(Display(longNames, e.name, e.ext))
  }

  /** Trees without the directories that read as dot links, and without what is in them. */
  function WithoutDots(ts: seq<Tree>): seq<Tree> {
    if ts == [] then []
    else if ts[0].FileTree? then [ts[0]] + WithoutDots(ts[1..])
    else if IsDotName(ts[0].name) then WithoutDots(ts[1..])
    else [DirTree(ts[0].name, WithoutDots(ts[0].children))] + WithoutDots(ts[1..])
  }

  lemma {:induction false} WithoutDotsOne(t: Tree, ts: seq<Tree>)
    ensures WithoutDots([t] + ts) ==
      if t.FileTree? then [t] + WithoutDots(ts)
      else if IsDotName(t.name) then WithoutDots(ts)
      else [DirTree(t.name, WithoutDots(t.children))] + WithoutDots(ts)
  {
    assert ([t] + ts)[1..] == ts;
  }

  // ---- the records of a directory, as read ----

  /** The record of every entry, in order. */
  function EntryRecordsOf(area: seq<seq<byte>>, entries: seq<Slot>): (r: seq<Record>)
    ensures |r| == |entries|
  {
    seq(|entries|, i requires 0 <= i < |entries| => SlotRecord(area, entries[i]))
  }

  lemma ReadRecords(s: FsState, owner: seq<nat>, logs: seq<seq<Record>>, d: nat)
    requires CoreInv(s, owner, logs) && IsDirectory(s, d)
    ensures RecordsOf(DirContent(s.fs.vol, s.place[d].head)) == EntryRecordsOf(s.fs.vol.area, s.place[d].entries)
    ensures SameNames(EntryRecordsOf(s.fs.vol.area, s.place[d].entries), logs[d], |logs[d]|)
    ensures forall i :: |logs[d]| <= i < |s.place[d].entries| ==>
      EntryRecordsOf(s.fs.vol.area, s.place[d].entries)[i] == Zeros(32)
  {
    hide FileOk, TreeOk, SlotRecord, Mask, ReadFile;
    var p := s.place[d];
    assert DirOk(s.fs, owner, s.taken, p, d, logs[d]);
    RecordsAreSlots(s.fs, owner, p.head);
    MaskTwice(s.fs.vol.area, p.entries, logs[d]);
  }

  lemma MaskTwice(area: seq<seq<byte>>, entries: seq<Slot>, log: seq<Record>)
    requires |log| <= |entries| && forall i :: 0 <= i < |log| ==> Mask(SlotRecord(area, entries[i])) == log[i]
    ensures SameNames(EntryRecordsOf(area, entries), log, |log|)
  {
    hide SlotRecord, Mask;
    forall i | 0 <= i < |log|
      ensures Mask(EntryRecordsOf(area, entries)[i]) == Mask(log[i])
    {
      MaskIdempotent(SlotRecord(area, entries[i]));
    }
  }

  lemma MaskIdempotent(r: Record)
    ensures Mask(Mask(r)) == Mask(r)
  {
  }

  lemma {:induction false} RecordsAreSlots(fs: FatState, owner: seq<nat>, head: nat)
    requires ChainInv(fs) && Owned(fs, owner) && 1 <= head <= fs.free
    requires fs.sectorSize % 32 == 0 && |fs.vol.area[1]| % 32 == 0
    ensures RecordsOf(DirContent(fs.vol, head))
      == EntryRecordsOf(fs.vol.area, SlotsOf(fs.vol.area, Chain(fs.vol.fat, head)))
  {
    hide SlotRecord, SlotsOf, Chain, Concat;
    var chain := Chain(fs.vol.fat, head);
    ChainProperties(fs, owner, head);
    RootChain(fs);
    var content := Concat(fs.vol.area, chain);
    assert content == DirContent(fs.vol, head);
    var slots := SlotsOf(fs.vol.area, chain);
    assert forall c :: c in chain ==> |AreaOf(fs.vol.area, c)| % 32 == 0;
    ContentLength(fs.vol.area, chain);
    forall i | 0 <= i < |slots|
      ensures RecordsOf(content)[i] == EntryRecordsOf(fs.vol.area, slots)[i]
    {
      SlotContent(fs.vol.area, chain, i);
    }
  }

  lemma RootChain(fs: FatState)
    requires ChainInv(fs)
    ensures Concat(fs.vol.area, Chain(fs.vol.fat, 1)) == fs.vol.area[1]
  {
    assert Linked(fs, 1);
    OneClusterChain(fs, 1);
    assert Concat(fs.vol.area, [1]) == fs.vol.area[1] + Concat(fs.vol.area, []);
  }

  // ---- one record ----

  lemma CleanRecord(a: Record, b: Record)
    requires Mask(a) == Mask(b) && IsObject(b) && CleanName(b)
    ensures Parses(a) && ChecksumDefined(a) && AttrOf(a) == AttrOf(b)
  {
    MaskedFields(a, b, 0);
    assert forall i :: 0 <= i < 11 ==> a[i] == a[..28][i] && b[i] == b[..28][i];
    assert NameField(a)[7] == a[7] && ExtField(a)[2] == a[10];
    assert StripTrailing(NameField(a), 0) == NameField(a);
    assert StripTrailing(ExtField(a), 0) == ExtField(a);
  }

  lemma ParsesSame(a: Record, b: Record)
    requires Mask(a) == Mask(b)
    ensures Parses(a) == Parses(b) && AttrOf(a) == AttrOf(b) && a[10] == b[10]
  {
    MaskedFields(a, b, 0);
    assert forall i :: 0 <= i < 11 ==> a[i] == a[..28][i] && b[i] == b[..28][i];
  }

  lemma TrapRaises(a: Record, b: Record)
    requires Mask(a) == Mask(b) && LongShape(b) && Trap(b)
    ensures Parses(a) && !ChecksumDefined(a) && AttrOf(a) != 0
  {
    ParsesSame(a, b);
    assert ExtField(a)[2] == 0;
    assert |StripTrailing(ExtField(a), 0)| <= 2;
  }

  // ---- the theorem ----

  /** How many entities stand before record `k`. */
  function Passed(log: seq<Record>, k: nat, d: nat): nat {
    var n := |Listing(log, if k < |log| then k else |log|)|;
    if n < Dots(d) then 0 else n - Dots(d)
  }

  lemma {:induction false} ListingPrefix(log: seq<Record>, m: nat, n: nat)
    requires m <= n <= |log|
    ensures Listing(log, m) <= Listing(log, n)
    decreases n
  {
    if m < n {
      ListingPrefix(log, m, n - 1);
    }
  }

  lemma ShapeOf(log: seq<Record>, k: nat)
    requires k < |log| && Shapes(log)
    ensures IsObject(log[k]) ==> CleanName(log[k])
    ensures !IsObject(log[k]) ==> LongShape(log[k])
  {
    assert log[k] in log;
  }

  /** Record `k` of the log, if it is an object, is a dot link or the record of the next entity. */
  lemma ObjectAt(longNames: bool, support: bool, tree: seq<TNode>, place: seq<Place>, log: seq<Record>, d: nat, k: nat)
    requires TreeOk(tree) && |place| == |tree| && d < |tree| && place[d].DirPlace?
    requires LogOk(longNames, support, tree, place, log, d) && k < |log|
    ensures IsObject(log[k]) ==>
      var i := |Listing(log, k)|;
      && CleanName(log[k])
      && |Listing(log, k + 1)| == i + 1
      && (i < Dots(d) ==> AttrOf(log[k]) == ATTR_DIRECTORY && IsDotName(ObjName(log, k, support)))
      && (i >= Dots(d) ==>
           && i - Dots(d) < |tree[d].entities|
           && var e := tree[d].entities[i - Dots(d)];
              e in tree[d].entities && d < e < |tree|
                && Lists(longNames, support, tree[e], place[e], log, place[d].entries, k))
    ensures !IsObject(log[k]) ==> LongShape(log[k]) && Listing(log, k + 1) == Listing(log, k)
  {
    hide Lists, ObjName, CleanName, IsShort, Announced, LongShape, Shapes, IsObject;
    ShapeOf(log, k);
    var l := Listing(log, |log|);
    ListingPrefix(log, k + 1, |log|);
    if IsObject(log[k]) {
      var i := |Listing(log, k)|;
      assert l[i] == Listing(log, k + 1)[i] == k;
      if i >= Dots(d) {
        var e := tree[d].entities[i - Dots(d)];
        assert e in tree[d].entities;
      }
    }
  }

  lemma AllPassed(longNames: bool, support: bool, tree: seq<TNode>, place: seq<Place>, log: seq<Record>, d: nat, k: nat)
    requires TreeOk(tree) && |place| == |tree| && d < |tree| && place[d].DirPlace?
    requires LogOk(longNames, support, tree, place, log, d) && k >= |log|
    ensures Passed(log, k, d) == |tree[d].entities|
  {
  }

  /** One turn of the reader's loop. */
  lemma ReadOne(vol: Vol, recs: seq<Record>, k: nat, support: bool, depth: nat)
    requires k < |recs|
    ensures !Parses(recs[k]) || AttrOf(recs[k]) == 0 ==>
      ReadFrom(vol, recs, k, support, depth) == ReadFrom(vol, recs, k + 1, support, depth)
    ensures Parses(recs[k]) && AttrOf(recs[k]) != 0 && !ChecksumDefined(recs[k]) ==>
      ReadFrom(vol, recs, k, support, depth) == None
    ensures var rest := ReadFrom(vol, recs, k + 1, support, depth);
      Parses(recs[k]) && ChecksumDefined(recs[k]) && rest.Some? ==>
        && (AttrOf(recs[k]) == ATTR_ARCHIVE ==>
             ReadFrom(vol, recs, k, support, depth)
               == Some([FileTree(ObjName(recs, k, support), ReadContent(vol, recs[k]))] + rest.value))
        && (AttrOf(recs[k]) == ATTR_DIRECTORY && IsDotName(ObjName(recs, k, support)) ==>
             ReadFrom(vol, recs, k, support, depth) == rest)
        && (AttrOf(recs[k]) == ATTR_DIRECTORY && !IsDotName(ObjName(recs, k, support)) && depth > 0 ==>
             var children := ReadFrom(vol, RecordsOf(DirContent(vol, ClusterOf(recs[k]))), 0, support, depth - 1);
             children.Some? ==>
               ReadFrom(vol, recs, k, support, depth)
                 == Some([DirTree(ObjName(recs, k, support), children.value)] + rest.value))
  {
    hide Parses, ChecksumDefined, ObjName, ReadContent, IsDotName, RecordsOf, DirContent;
  }

  lemma IdealOne(i: Ideal, longNames: bool, d: nat, j: nat)
    requires i.Ok() && d < |i.tree| && j < |i.tree[d].entities|
    ensures var e := i.tree[d].entities[j];
      && d < e < |i.tree|
      && var name := Display(longNames, i.tree[e].name, i.tree[e].ext);
         IdealFrom(i, longNames, d, j) ==
           [if i.tree[e].isDir then DirTree(name, IdealFrom(i, longNames, e, 0)) else FileTree(name, i.contents[e])]
             + IdealFrom(i, longNames, d, j + 1)
  {
    hide Display;
    assert i.tree[d].entities[j] in i.tree[d].entities;
  }

  /** Reading from record `k` on gives the entities whose records stand there. */
  lemma {:induction false} ReadFromIs(s: FsState, owner: seq<nat>, logs: seq<seq<Record>>, support: bool, d: nat,
                                      k: nat, depth: nat)
    requires CoreInv(s, owner, logs) && LogInv(s, logs, support)
    requires IsDirectory(s, d) && d + depth + 1 >= |s.tree|
    requires !TrapShown(s.longNames, s.tree, TrapDirs(logs), d)
    ensures ReadFrom(s.fs.vol, EntryRecordsOf(s.fs.vol.area, s.place[d].entries), k, support, depth)
      == Some(WithoutDots(IdealFrom(Alpha(s), s.longNames, d, Passed(logs[d], k, d))))
    decreases depth, |s.place[d].entries| - k, 1
  {
    hide CoreInv, LogOk, Lists, Listing, Alpha, SlotRecord, ObjName, Mask, Display, IsDotName, Parses, ChecksumDefined,
      IsObject, CleanName, ReadFrom, IdealFrom, TrapShown, WithoutDots;
    CoreFacts(s, owner, logs);
    var log := logs[d];
    var recs := EntryRecordsOf(s.fs.vol.area, s.place[d].entries);
    ReadRecords(s, owner, logs, d);
    assert LogOk(s.longNames, support, s.tree, s.place, log, d);
    if k >= |recs| {
      AllPassed(s.longNames, support, s.tree, s.place, log, d, k);
      NothingLeft(s, recs, k, support, depth, d);
    } else {
      ReadOne(s.fs.vol, recs, k, support, depth);
      ReadFromIs(s, owner, logs, support, d, k + 1, depth);
      if k >= |log| {
        ZeroRecord();
      } else {
        ObjectAt(s.longNames, support, s.tree, s.place, log, d, k);
        assert Mask(recs[k]) == Mask(log[k]);
        if !IsObject(log[k]) {
          ParsesSame(recs[k], log[k]);
          NoTrapHere(s.longNames, s.tree, logs, d, k);
        } else {
          ReadObjectIs(s, owner, logs, support, d, k, depth);
        }
      }
    }
  }

  lemma {:induction false} NothingLeft(s: FsState, recs: seq<Record>, k: nat, support: bool, depth: nat, d: nat)
    requires Formed(s) && k >= |recs| && d < |s.tree|
    ensures ReadFrom(s.fs.vol, recs, k, support, depth) == Some([])
    ensures WithoutDots(IdealFrom(Alpha(s), s.longNames, d, |s.tree[d].entities|)) == []
  {
  }

  lemma {:induction false} NoTrapHere(longNames: bool, tree: seq<TNode>, logs: seq<seq<Record>>, d: nat, k: nat)
    requires TreeOk(tree) && |logs| == |tree| && d < |tree| && k < |logs[d]|
    requires !TrapShown(longNames, tree, TrapDirs(logs), d)
    ensures !Trap(logs[d][k])
  {
    hide Trap;
    assert logs[d][k] in logs[d];
  }

  lemma {:induction false} NoTrapBelow(longNames: bool, tree: seq<TNode>, traps: set<nat>, d: nat, j: nat)
    requires TreeOk(tree) && d < |tree| && j < |tree[d].entities|
    requires !TrapShown(longNames, tree, traps, d) && ShownDir(longNames, tree, d, j)
    ensures !TrapShown(longNames, tree, traps, tree[d].entities[j])
  {
  }

  /** The turn that meets the record of an object. */
  lemma {:induction false} ReadObjectIs(s: FsState, owner: seq<nat>, logs: seq<seq<Record>>, support: bool, d: nat,
                                        k: nat, depth: nat)
    requires CoreInv(s, owner, logs) && LogInv(s, logs, support)
    requires IsDirectory(s, d) && d + depth + 1 >= |s.tree|
    requires !TrapShown(s.longNames, s.tree, TrapDirs(logs), d)
    requires k < |logs[d]| <= |s.place[d].entries| && IsObject(logs[d][k])
    requires ReadFrom(s.fs.vol, EntryRecordsOf(s.fs.vol.area, s.place[d].entries), k + 1, support, depth)
      == Some(WithoutDots(IdealFrom(Alpha(s), s.longNames, d, Passed(logs[d], k + 1, d))))
    ensures ReadFrom(s.fs.vol, EntryRecordsOf(s.fs.vol.area, s.place[d].entries), k, support, depth)
      == Some(WithoutDots(IdealFrom(Alpha(s), s.longNames, d, Passed(logs[d], k, d))))
    decreases depth, |s.place[d].entries| - k, 0
  {
    hide CoreInv, LogOk, Lists, Listing, Alpha, SlotRecord, ObjName, Mask, Display, IsDotName, Parses, ChecksumDefined,
      IsObject, CleanName, ReadFrom, IdealFrom, ReadContent, RecordsOf, DirContent, TrapShown, WithoutDots;
    CoreFacts(s, owner, logs);
    var log := logs[d];
    var recs := EntryRecordsOf(s.fs.vol.area, s.place[d].entries);
    ReadRecords(s, owner, logs, d);
    ReadOne(s.fs.vol, recs, k, support, depth);
    ObjectAt(s.longNames, support, s.tree, s.place, log, d, k);
    CleanRecord(recs[k], log[k]);
    ObjNameSame(recs, log, k, support);
    var i := |Listing(log, k)|;
    if i >= Dots(d) {
      var e := s.tree[d].entities[i - Dots(d)];
      EntityRead(s, owner, logs, support, d, k, e);
      IdealOne(Alpha(s), s.longNames, d, i - Dots(d));
      WithoutDotsOne(IdealFrom(Alpha(s), s.longNames, d, i - Dots(d))[0],
                     IdealFrom(Alpha(s), s.longNames, d, i - Dots(d) + 1));
      if ShownDir(s.longNames, s.tree, d, i - Dots(d)) {
        NoTrapBelow(s.longNames, s.tree, TrapDirs(logs), d, i - Dots(d));
        ReadRecords(s, owner, logs, e);
        ReadFromIs(s, owner, logs, support, e, 0, depth - 1);
        NonePassed(logs[e], e);
      }
    }
  }

  lemma ZeroRecord()
    ensures AttrOf(Zeros(32)) == 0
  {
  }

  lemma NonePassed(log: seq<Record>, d: nat)
    ensures Passed(log, 0, d) == 0
  {
  }

  lemma CoreFacts(s: FsState, owner: seq<nat>, logs: seq<seq<Record>>)
    requires CoreInv(s, owner, logs)
    ensures Formed(s) && |logs| == |s.tree| == |s.place| && |s.fs.vol.area| == |s.fs.next| <= 0x1_0000
  {
  }

  /** What the record of an entity says. */
  lemma EntityRead(s: FsState, owner: seq<nat>, logs: seq<seq<Record>>, support: bool, d: nat, k: nat, e: nat)
    requires CoreInv(s, owner, logs) && IsDirectory(s, d) && k < |logs[d]| && d < e < |s.tree|
    requires |logs[d]| <= |s.place[d].entries|
    requires Lists(s.longNames, support, s.tree[e], s.place[e], logs[d], s.place[d].entries, k)
    ensures var r := EntryRecordsOf(s.fs.vol.area, s.place[d].entries)[k];
      && (s.tree[e].isDir <==> AttrOf(logs[d][k]) == ATTR_DIRECTORY)
      && (!s.tree[e].isDir <==> AttrOf(logs[d][k]) == ATTR_ARCHIVE)
      && ObjName(logs[d], k, support) == Display(s.longNames, s.tree[e].name, s.tree[e].ext)
      && (s.tree[e].isDir ==> IsDirectory(s, e) && ClusterOf(r) == s.place[e].head)
      && (!s.tree[e].isDir ==> ReadContent(s.fs.vol, r) == Alpha(s).contents[e])
  {
    hide DirOk, FileOk, TreeOk, ObjName, Display, IsDotName, Concat, Chain;
    var r := EntryRecordsOf(s.fs.vol.area, s.place[d].entries)[k];
    ReadRecords(s, owner, logs, d);
    MaskedFields(r, logs[d][k], 0);
    if !s.tree[e].isDir {
      assert s.place[e].entry == s.place[d].entries[k];
      assert r == SlotRecord(s.fs.vol.area, s.place[e].entry);
    }
  }

  lemma RootHead(s: FsState, owner: seq<nat>, logs: seq<seq<Record>>)
    requires CoreInv(s, owner, logs)
    ensures IsDirectory(s, 0) && s.place[0].head == 1
  {
    assert s.tree[0].isDir;
    assert DirOk(s.fs, owner, s.taken, s.place[0], 0, logs[0]);
  }

  // ---- and if a record is a trap, the reader raises ----

  /** If the reader raises on later records, it raises. */
  lemma RaisesEarlier(vol: Vol, recs: seq<Record>, k: nat, support: bool, depth: nat)
    requires k < |recs| && ReadFrom(vol, recs, k + 1, support, depth).None?
    ensures ReadFrom(vol, recs, k, support, depth).None?
  {
    hide Parses, ChecksumDefined, ObjName, ReadContent, IsDotName, RecordsOf, DirContent;
  }

  lemma {:induction false} RaisesFromStart(vol: Vol, recs: seq<Record>, k: nat, support: bool, depth: nat)
    requires k < |recs| && ReadFrom(vol, recs, k, support, depth).None?
    ensures ReadFrom(vol, recs, 0, support, depth).None?
    decreases k
  {
    hide ReadFrom;
    if k > 0 {
      RaisesEarlier(vol, recs, k - 1, support, depth);
      RaisesFromStart(vol, recs, k - 1, support, depth);
    }
  }

  ghost predicate HeldBy(tree: seq<TNode>, e: nat, p: nat, j: nat) {
    p < e && p < |tree| && tree[p].isDir && j < |tree[p].entities| && tree[p].entities[j] == e
  }

  ghost predicate Held(tree: seq<TNode>, e: nat) {
    exists p, j :: HeldBy(tree, e, p, j)
  }

  /** Every object but the root is held by a directory created before it. */
  ghost predicate AllHeld(tree: seq<TNode>) {
    forall e :: 0 < e < |tree| ==> Held(tree, e)
  }

  /** The reader raises in directory `d`. */
  ghost predicate Raises(s: FsState, support: bool, d: nat)
    requires Formed(s) && IsDirectory(s, d)
  {
    forall depth: nat :: ReadFrom(s.fs.vol, RecordsOf(DirContent(s.fs.vol, s.place[d].head)), 0, support, depth).None?
  }

  lemma TrapRaisesHere(s: FsState, owner: seq<nat>, logs: seq<seq<Record>>, support: bool, d: nat, k: nat)
    requires CoreInv(s, owner, logs) && LogInv(s, logs, support)
    requires IsDirectory(s, d) && k < |logs[d]| && Trap(logs[d][k])
    ensures Raises(s, support, d)
  {
    hide CoreInv, LogOk, ReadFrom, SlotRecord, Mask, Parses, ChecksumDefined, LongShape, IsObject;
    CoreFacts(s, owner, logs);
    ReadRecords(s, owner, logs, d);
    var recs := EntryRecordsOf(s.fs.vol.area, s.place[d].entries);
    assert LogOk(s.longNames, support, s.tree, s.place, logs[d], d);
    TrapIsLong(s.longNames, support, s.tree, s.place, logs[d], d, k);
    assert Mask(recs[k]) == Mask(logs[d][k]);
    TrapRaises(recs[k], logs[d][k]);
    forall depth: nat
      ensures ReadFrom(s.fs.vol, recs, 0, support, depth).None?
    {
      ReadOne(s.fs.vol, recs, k, support, depth);
      RaisesFromStart(s.fs.vol, recs, k, support, depth);
    }
  }

  lemma TrapIsLong(longNames: bool, support: bool, tree: seq<TNode>, place: seq<Place>, log: seq<Record>, d: nat,
                   k: nat)
    requires TreeOk(tree) && |place| == |tree| && d < |tree| && place[d].DirPlace?
    requires LogOk(longNames, support, tree, place, log, d) && k < |log| && Trap(log[k])
    ensures LongShape(log[k])
  {
    assert log[k] in log;
  }

  /** A parent raises when its child does. */
  lemma RaisesAbove(s: FsState, owner: seq<nat>, logs: seq<seq<Record>>, support: bool, d: nat, j: nat)
    requires CoreInv(s, owner, logs) && LogInv(s, logs, support)
    requires IsDirectory(s, d) && d < |s.tree| && j < |s.tree[d].entities| && ShownDir(s.longNames, s.tree, d, j)
    requires IsDirectory(s, s.tree[d].entities[j])
    requires Raises(s, support, s.tree[d].entities[j])
    ensures Raises(s, support, d)
  {
    hide CoreInv, LogOk, ReadFrom, SlotRecord, Mask, Parses, ChecksumDefined, IsObject, CleanName, Lists, Listing,
      ObjName, IsDotName, Display, RecordsOf, DirContent;
    CoreFacts(s, owner, logs);
    ReadRecords(s, owner, logs, d);
    var e := s.tree[d].entities[j];
    var recs, log := EntryRecordsOf(s.fs.vol.area, s.place[d].entries), logs[d];
    assert LogOk(s.longNames, support, s.tree, s.place, log, d);
    var k := EntityPosition(s.longNames, support, s.tree, s.place, log, d, j);
    EntityRead(s, owner, logs, support, d, k, e);
    CleanRecord(recs[k], log[k]);
    ObjNameSame(recs, log, k, support);
    forall depth: nat
      ensures ReadFrom(s.fs.vol, recs, 0, support, depth).None?
    {
      DirRaises(s.fs.vol, recs, k, support, depth);
      RaisesFromStart(s.fs.vol, recs, k, support, depth);
    }
  }

  lemma DirRaises(vol: Vol, recs: seq<Record>, k: nat, support: bool, depth: nat)
    requires k < |recs| && Parses(recs[k]) && AttrOf(recs[k]) == ATTR_DIRECTORY && !IsDotName(ObjName(recs, k, support))
    requires depth > 0 ==> ReadFrom(vol, RecordsOf(DirContent(vol, ClusterOf(recs[k]))), 0, support, depth - 1).None?
    ensures ReadFrom(vol, recs, k, support, depth).None?
  {
    hide Parses, ChecksumDefined, ObjName, ReadContent, IsDotName, RecordsOf, DirContent;
  }

  lemma EntityPosition(longNames: bool, support: bool, tree: seq<TNode>, place: seq<Place>, log: seq<Record>, d: nat,
                       j: nat)
    returns (k: nat)
    requires TreeOk(tree) && |place| == |tree| && d < |tree| && place[d].DirPlace?
    requires LogOk(longNames, support, tree, place, log, d) && j < |tree[d].entities|
    ensures var e := tree[d].entities[j];
      d < e < |tree| && k < |log| && IsObject(log[k]) && CleanName(log[k])
      && Lists(longNames, support, tree[e], place[e], log, place[d].entries, k)
  {
    hide Lists, ObjName, IsObject, CleanName, LongShape, IsShort;
    k := Listing(log, |log|)[Dots(d) + j];
    assert tree[d].entities[j] in tree[d].entities;
    ObjectAt(longNames, support, tree, place, log, d, k);
  }

  /** The record of a file always parses, so that its size can be updated. */
  lemma FileRecordParses(s: FsState, owner: seq<nat>, logs: seq<seq<Record>>, support: bool, f: nat)
    requires CoreInv(s, owner, logs) && LogInv(s, logs, support) && AllHeld(s.tree) && IsFile(s, f)
    ensures Parses(SlotRecord(s.fs.vol.area, s.place[f].entry))
  {
    hide CoreInv, LogOk, SlotRecord, Mask, Parses, ChecksumDefined, IsObject, CleanName, Listing, ObjName, Display;
    CoreFacts(s, owner, logs);
    assert f > 0 && Held(s.tree, f);
    var p: nat, j: nat :| HeldBy(s.tree, f, p, j);
    ReadRecords(s, owner, logs, p);
    assert LogOk(s.longNames, support, s.tree, s.place, logs[p], p);
    var k := EntityPosition(s.longNames, support, s.tree, s.place, logs[p], p, j);
    CleanRecord(EntryRecordsOf(s.fs.vol.area, s.place[p].entries)[k], logs[p][k]);
  }

  /** A trap that is not hidden below a dot name makes the reader raise. */
  lemma {:induction false} TrapShownRaises(s: FsState, owner: seq<nat>, logs: seq<seq<Record>>, support: bool, d: nat)
    requires CoreInv(s, owner, logs) && LogInv(s, logs, support)
    requires d < |s.tree| && IsDirectory(s, d) && TrapShown(s.longNames, s.tree, TrapDirs(logs), d)
    ensures Raises(s, support, d)
    decreases |s.tree| - d
  {
    hide CoreInv, LogInv, Raises, TreeOk, Trap;
    CoreFacts(s, owner, logs);
    if d in TrapDirs(logs) {
      var r :| r in logs[d] && Trap(r);
      var k :| 0 <= k < |logs[d]| && logs[d][k] == r;
      TrapRaisesHere(s, owner, logs, support, d, k);
    } else {
      var j :| 0 <= j < |s.tree[d].entities| && ShownDir(s.longNames, s.tree, d, j)
               && TrapShown(s.longNames, s.tree, TrapDirs(logs), s.tree[d].entities[j]);
      KindIs(s, s.tree[d].entities[j]);
      TrapShownRaises(s, owner, logs, support, s.tree[d].entities[j]);
      RaisesAbove(s, owner, logs, support, d, j);
    }
  }

  lemma KindIs(s: FsState, e: nat)
    requires Formed(s) && e < |s.tree|
    ensures IsDirectory(s, e) <==> s.tree[e].isDir
  {
  }

  /** What the reader finds in a volume, exactly: it raises if a trap lies outside every directory that
      reads as a dot link; otherwise it finds the ideal tree without those directories. */
  lemma ReadTreeExactly(s: FsState, owner: seq<nat>, logs: seq<seq<Record>>, support: bool, depth: nat)
    requires CoreInv(s, owner, logs) && LogInv(s, logs, support)
    requires depth + 1 >= |s.tree|
    ensures TreeOk(s.tree)
    ensures ReadTree(s.fs.vol, support, depth) ==
      if TrapShown(s.longNames, s.tree, TrapDirs(logs), 0) then None
      else Some(WithoutDots(IdealTree(Alpha(s), s.longNames)))
  {
    hide LogInv, Raises, Alpha, DirOk, FileOk, TreeOk, TrapShown, WithoutDots, IdealFrom, ReadFrom;
    CoreFacts(s, owner, logs);
    RootHead(s, owner, logs);
    if TrapShown(s.longNames, s.tree, TrapDirs(logs), 0) {
      TrapShownRaises(s, owner, logs, support, 0);
      RootRaises(s, support, depth);
    } else {
      ReadRecords(s, owner, logs, 0);
      ReadFromIs(s, owner, logs, support, 0, 0, depth);
      NonePassed(logs[0], 0);
    }
  }

  lemma RootRaises(s: FsState, support: bool, depth: nat)
    requires Formed(s) && IsDirectory(s, 0) && s.place[0].head == 1 && Raises(s, support, 0)
    ensures ReadTree(s.fs.vol, support, depth) == None
  {
  }
}
