/** The invariant of the file system and the steps that keep it. */
module FileSystemInvariant {
  import opened Bytes
  import opened Volume
  import opened FatChains
  import opened DirectoryRecords
  import opened NameTree
  import opened FileSystem

  // ---- the entries of a directory are the slots of its chain ----

  function SlotsOf(area: seq<seq<byte>>, chain: seq<nat>): seq<Slot> {
    if chain == [] then [] else CreateEntries(area, chain[0]) + SlotsOf(area, chain[1..])
  }

  lemma {:induction false} SlotsMember(area: seq<seq<byte>>, chain: seq<nat>)
    ensures forall s :: s in SlotsOf(area, chain) ==> s.cluster in chain && s.index < |AreaOf(area, s.cluster)| / 32
  {
    if chain != [] {
      SlotsMember(area, chain[1..]);
    }
  }

  lemma SlotIsValid(area: seq<seq<byte>>, s: Slot)
    requires s.index < |AreaOf(area, s.cluster)| / 32
    ensures ValidSlot(area, s)
  {
  }

  lemma {:induction false} SlotsDistinct(area: seq<seq<byte>>, chain: seq<nat>)
    requires forall i, j :: 0 <= i < j < |chain| ==> chain[i] < chain[j]
    ensures forall i, j :: 0 <= i < j < |SlotsOf(area, chain)| ==> SlotsOf(area, chain)[i] != SlotsOf(area, chain)[j]
  {
    if chain != [] {
      var head, tail := CreateEntries(area, chain[0]), SlotsOf(area, chain[1..]);
      SlotsDistinct(area, chain[1..]);
      SlotsMember(area, chain[1..]);
      assert chain[0] !in chain[1..];
      assert forall i :: 0 <= i < |tail| ==> tail[i] in tail;
      assert SlotsOf(area, chain) == head + tail;
    }
  }

  lemma {:induction false} SlotsAppend(area: seq<seq<byte>>, a: seq<nat>, b: seq<nat>)
    ensures SlotsOf(area, a + b) == SlotsOf(area, a) + SlotsOf(area, b)
  {
    hide SlotsOf, Concat, CreateEntries;
    if a == [] {
      assert a + b == b;
      NoSlots(area);
    } else {
      SlotsAppend(area, a[1..], b);
      assert (a + b)[0] == a[0] && (a + b)[1..] == a[1..] + b;
      SlotsUnfold(area, a);
      SlotsUnfold(area, a + b);
      SlotsRegrouped(CreateEntries(area, a[0]), SlotsOf(area, a[1..]), SlotsOf(area, b));
    }
  }

  lemma SlotsRegrouped(x: seq<Slot>, y: seq<Slot>, z: seq<Slot>)
    ensures x + (y + z) == (x + y) + z
  {
  }

  /** The list of slots depends on the area lengths only. */
  lemma {:induction false} SlotsFrame(a1: seq<seq<byte>>, a2: seq<seq<byte>>, chain: seq<nat>)
    requires forall c :: c in chain ==> |AreaOf(a1, c)| == |AreaOf(a2, c)|
    ensures SlotsOf(a1, chain) == SlotsOf(a2, chain)
  {
    if chain != [] {
      SlotsFrame(a1, a2, chain[1..]);
      assert chain[0] in chain;
    }
  }

  lemma SlicesOf(first: seq<byte>, rest: seq<byte>, k: nat)
    requires |first| % 32 == 0 && 32 * k + 32 <= |first| + |rest|
    ensures 32 * k < |first| ==>
      32 * k + 32 <= |first| && (first + rest)[32 * k..32 * k + 32] == first[32 * k..32 * k + 32]
    ensures 32 * k >= |first| ==>
      (first + rest)[32 * k..32 * k + 32] == rest[32 * k - |first|..32 * k - |first| + 32]
  {
  }

  lemma {:induction false} SlotsUnfold(area: seq<seq<byte>>, chain: seq<nat>)
    requires chain != []
    ensures SlotsOf(area, chain) == CreateEntries(area, chain[0]) + SlotsOf(area, chain[1..])
    ensures Concat(area, chain) == AreaOf(area, chain[0]) + Concat(area, chain[1..])
  {
  }

  /** A slot of one cluster is a part of its area. */
  lemma SlotInArea(area: seq<seq<byte>>, c: nat, k: nat)
    requires k < |CreateEntries(area, c)|
    ensures 32 * k + 32 <= |AreaOf(area, c)|
    ensures SlotRecord(area, CreateEntries(area, c)[k]) == AreaOf(area, c)[32 * k..32 * k + 32]
  {
  }

  lemma WholeSlots(area: seq<seq<byte>>, c: nat)
    requires |AreaOf(area, c)| % 32 == 0
    ensures |AreaOf(area, c)| == 32 * |CreateEntries(area, c)|
  {
  }

  lemma {:induction false} ContentLength(area: seq<seq<byte>>, chain: seq<nat>)
    requires forall c :: c in chain ==> |AreaOf(area, c)| % 32 == 0
    ensures |Concat(area, chain)| == 32 * |SlotsOf(area, chain)|
    decreases |chain|
  {
    hide AreaOf;
    if chain != [] {
      assert chain[0] in chain;
      WholeSlots(area, chain[0]);
      ContentLength(area, chain[1..]);
    }
  }

  /** The i-th entry slot is bytes 32i to 32i + 32 of the directory's chained content. */
  lemma {:induction false} SlotContent(area: seq<seq<byte>>, chain: seq<nat>, k: nat)
    requires forall c :: c in chain ==> |AreaOf(area, c)| % 32 == 0
    requires k < |SlotsOf(area, chain)|
    ensures |Concat(area, chain)| == 32 * |SlotsOf(area, chain)|
    ensures SlotRecord(area, SlotsOf(area, chain)[k]) == Concat(area, chain)[32 * k..32 * k + 32]
    decreases |chain|
  {
    hide Concat, SlotRecord, AreaOf, CreateEntries, SlotsOf;
    ContentLength(area, chain);
    if chain == [] {
      NoSlots(area);
    } else {
      SlotsUnfold(area, chain);
      var head := CreateEntries(area, chain[0]);
      assert chain[0] in chain;
      WholeSlots(area, chain[0]);
      ContentLength(area, chain[1..]);
      SlicesOf(AreaOf(area, chain[0]), Concat(area, chain[1..]), k);
      if k < |head| {
        SlotInArea(area, chain[0], k);
      } else {
        SlotContent(area, chain[1..], k - |head|);
      }
    }
  }

  lemma {:induction false} NoSlots(area: seq<seq<byte>>)
    ensures SlotsOf(area, []) == []
  {
  }

  lemma {:induction false} FindFreeIs(entries: seq<Slot>, taken: set<Slot>, u: nat)
    requires u <= |entries|
    requires forall i :: 0 <= i < u ==> entries[i] in taken
    requires u < |entries| ==> entries[u] !in taken
    ensures FindFreeEntry(entries, taken) == if u < |entries| then Some(entries[u]) else None
  {
    if u > 0 {
      assert entries[0] in taken;
      FindFreeIs(entries[1..], taken, u - 1);
    }
  }

  // ---- reading a file from the volume ----

  /** The reader's view of a file: size and first cluster from its directory record, the chain
      from the FAT, the bytes from the data region. */
  function ReadFile(vol: Vol, entry: Slot): seq<byte> {
    var r := SlotRecord(vol.area, entry);
    if SizeOf(r) == 0 then [] else Prefix(Concat(vol.area, Chain(vol.fat, ClusterOf(r))), SizeOf(r))
  }

  /** A record without its size field, which is the only field that ever changes. */
  function Mask(r: Record): Record {
    if AttrOf(r) == ATTR_LONG_NAME then r else r[..28] + [0, 0, 0, 0]
  }

  // ---- the invariant ----

  /** Directory `d`: its entries are the slots of its chain; the first `|log|` of them are taken
      and hold the records in `log`; the others are free and zero. */
  predicate DirOk(fs: FatState, owner: seq<nat>, taken: set<Slot>, p: Place, d: nat, log: seq<Record>)
    requires ChainInv(fs) && |owner| == fs.free + 1
  {
    && p.DirPlace? && 1 <= p.head <= fs.free && owner[p.head] == d && (p.head == 1 <==> d == 0)
    && p.entries == SlotsOf(fs.vol.area, Chain(fs.vol.fat, p.head))
    && |log| <= |p.entries|
    && (forall i :: 0 <= i < |log| ==>
         p.entries[i] in taken && Mask(SlotRecord(fs.vol.area, p.entries[i])) == log[i])
    && (forall i :: |log| <= i < |p.entries| ==>
         p.entries[i] !in taken && SlotRecord(fs.vol.area, p.entries[i]) == Zeros(32))
  }

  /** File `f`: its record on disk names its first cluster, which was allocated for it. */
  predicate FileOk(fs: FatState, owner: seq<nat>, taken: set<Slot>, p: Place, f: nat)
    requires ChainInv(fs) && |owner| == fs.free + 1
  {
    && p.FilePlace? && p.entry in taken
    && (p.first.Some? ==> 2 <= p.first.value <= fs.free && owner[p.first.value] == f)
    && var r := SlotRecord(fs.vol.area, p.entry);
       IsShort(r) && AttrOf(r) == ATTR_ARCHIVE && ClusterOf(r) == First(p) && (p.first.None? ==> SizeOf(r) == 0)
  }

  /** Taken entries lie in clusters of directories. */
  predicate TakenOk(fs: FatState, owner: seq<nat>, taken: set<Slot>, tree: seq<TNode>)
    requires |owner| == fs.free + 1
  {
    forall s :: s in taken ==>
      && 1 <= s.cluster <= fs.free && ValidSlot(fs.vol.area, s)
      && owner[s.cluster] < |tree| && tree[owner[s.cluster]].isDir
  }

  predicate Base(s: FsState, owner: seq<nat>) {
    && Formed(s) && ChainInv(s.fs) && Owned(s.fs, owner)
    && owner[1] == 0 && |s.fs.next| <= 0x1_0000
    && s.fs.sectorSize % 32 == 0 && s.fs.sectorSize >= 64 && |s.fs.vol.area[1]| % 32 == 0
  }

  ghost predicate Objects(s: FsState, owner: seq<nat>, logs: seq<seq<Record>>)
    requires Base(s, owner)
  {
    && |logs| == |s.tree|
    && (forall d :: 0 <= d < |s.tree| && s.tree[d].isDir ==> DirOk(s.fs, owner, s.taken, s.place[d], d, logs[d]))
    && (forall f :: 0 <= f < |s.tree| && !s.tree[f].isDir ==> FileOk(s.fs, owner, s.taken, s.place[f], f))
    && (forall f, g :: 0 <= f < g < |s.tree| && !s.tree[f].isDir && !s.tree[g].isDir ==>
         s.place[f].entry != s.place[g].entry)
  }

  ghost predicate CoreInv(s: FsState, owner: seq<nat>, logs: seq<seq<Record>>) {
    Base(s, owner) && TakenOk(s.fs, owner, s.taken, s.tree) && Objects(s, owner, logs)
  }

  // ---- frames ----

  lemma DirFrame(fs1: FatState, fs2: FatState, owner1: seq<nat>, owner2: seq<nat>, taken1: set<Slot>,
                 taken2: set<Slot>, p: Place, d: nat, log: seq<Record>)
    requires ChainInv(fs1) && Owned(fs1, owner1) && ChainInv(fs2) && |owner2| == fs2.free + 1
    requires owner1 <= owner2 && SameFor(fs1, fs2, owner1, d)
    requires forall s: Slot :: 1 <= s.cluster <= fs1.free && owner1[s.cluster] == d ==> (s in taken1 <==> s in taken2)
    requires DirOk(fs1, owner1, taken1, p, d, log)
    ensures DirOk(fs2, owner2, taken2, p, d, log)
  {
    var chain := Chain(fs1.vol.fat, p.head);
    ContentFrame(fs1, fs2, owner1, p.head);
    ChainProperties(fs1, owner1, p.head);
    SlotsFrame(fs1.vol.area, fs2.vol.area, chain);
    SlotsMember(fs1.vol.area, chain);
    forall i | 0 <= i < |p.entries|
      ensures SlotRecord(fs2.vol.area, p.entries[i]) == SlotRecord(fs1.vol.area, p.entries[i])
      ensures p.entries[i] in taken1 <==> p.entries[i] in taken2
    {
      assert p.entries[i] in SlotsOf(fs1.vol.area, chain);
    }
  }

  lemma FileFrame(fs1: FatState, fs2: FatState, owner1: seq<nat>, owner2: seq<nat>, taken1: set<Slot>,
                  taken2: set<Slot>, p: Place, f: nat)
    requires ChainInv(fs1) && Owned(fs1, owner1) && ChainInv(fs2) && |owner2| == fs2.free + 1
    requires owner1 <= owner2 && SameFor(fs1, fs2, owner1, f) && taken1 <= taken2
    requires FileOk(fs1, owner1, taken1, p, f)
    requires SlotRecord(fs2.vol.area, p.entry) == SlotRecord(fs1.vol.area, p.entry)
    ensures FileOk(fs2, owner2, taken2, p, f)
    ensures ReadFile(fs2.vol, p.entry) == ReadFile(fs1.vol, p.entry)
  {
    if p.first.Some? {
      ContentFrame(fs1, fs2, owner1, p.first.value);
    }
  }

  /** `t` differs from `s` only in fresh clusters, in what belongs to `d`, and in free entries. */
  ghost predicate OnlyTouches(s: FsState, t: FsState, owner: seq<nat>, owner2: seq<nat>, d: nat)
    requires Base(s, owner) && Base(t, owner2)
  {
    && owner <= owner2 && t.tree == s.tree && |t.fs.next| == |s.fs.next|
    && (forall i :: 0 <= i < |s.place| && i != d ==> t.place[i] == s.place[i])
    && (forall c :: 1 <= c <= s.fs.free && owner[c] != d ==>
         t.fs.vol.fat[c] == s.fs.vol.fat[c] && t.fs.vol.area[c] == s.fs.vol.area[c])
    && s.taken <= t.taken
    && (forall x :: x in s.taken ==> SlotRecord(t.fs.vol.area, x) == SlotRecord(s.fs.vol.area, x))
    && (forall x :: x in t.taken && x !in s.taken ==>
         1 <= x.cluster <= t.fs.free && ValidSlot(t.fs.vol.area, x) && owner2[x.cluster] == d)
    && (forall c :: 0 <= c < |s.fs.vol.area| ==> |t.fs.vol.area[c]| == |s.fs.vol.area[c]|)
  }

  ghost predicate SameReads(s: FsState, t: FsState) {
    |s.place| <= |t.place| && forall f :: 0 <= f < |s.place| && s.place[f].FilePlace? ==>
      t.place[f].FilePlace? && ReadFile(t.fs.vol, t.place[f].entry) == ReadFile(s.fs.vol, s.place[f].entry)
  }

  lemma FrameDir(s: FsState, t: FsState, owner: seq<nat>, owner2: seq<nat>, logs: seq<seq<Record>>, d: nat, x: nat)
    requires CoreInv(s, owner, logs) && Base(t, owner2) && OnlyTouches(s, t, owner, owner2, d)
    requires d >= |s.tree| ==> t.taken == s.taken
    requires x < |s.tree| && s.tree[x].isDir && x != d
    ensures DirOk(t.fs, owner2, t.taken, t.place[x], x, logs[x])
  {
    hide DirOk, FileOk, ReadFile, TreeOk;
    assert DirOk(s.fs, owner, s.taken, s.place[x], x, logs[x]);
    DirFrame(s.fs, t.fs, owner, owner2, s.taken, t.taken, s.place[x], x, logs[x]);
  }

  lemma FrameFile(s: FsState, t: FsState, owner: seq<nat>, owner2: seq<nat>, logs: seq<seq<Record>>, d: nat, f: nat)
    requires CoreInv(s, owner, logs) && Base(t, owner2) && OnlyTouches(s, t, owner, owner2, d)
    requires f < |s.tree| && !s.tree[f].isDir && f != d
    ensures t.place[f] == s.place[f]
    ensures FileOk(t.fs, owner2, t.taken, t.place[f], f)
    ensures s.place[f].FilePlace?
    ensures ReadFile(t.fs.vol, s.place[f].entry) == ReadFile(s.fs.vol, s.place[f].entry)
  {
    hide DirOk, ReadFile, TreeOk;
    assert FileOk(s.fs, owner, s.taken, s.place[f], f);
    FileFrame(s.fs, t.fs, owner, owner2, s.taken, t.taken, s.place[f], f);
  }

  lemma FrameTaken(s: FsState, t: FsState, owner: seq<nat>, owner2: seq<nat>, d: nat)
    requires Base(s, owner) && Base(t, owner2) && OnlyTouches(s, t, owner, owner2, d)
    requires TakenOk(s.fs, owner, s.taken, s.tree)
    requires (d < |s.tree| && s.tree[d].isDir) || t.taken == s.taken
    ensures TakenOk(t.fs, owner2, t.taken, t.tree)
  {
    hide TreeOk, SlotRecord;
  }

  /** What is left to show after a step that only touches directory `d` (or, if `d` is not an
      object yet, nothing): that directory itself. */
  lemma FrameStep(s: FsState, t: FsState, owner: seq<nat>, owner2: seq<nat>, logs: seq<seq<Record>>,
                  logs2: seq<seq<Record>>, d: nat)
    requires CoreInv(s, owner, logs) && Base(t, owner2) && OnlyTouches(s, t, owner, owner2, d)
    requires |logs2| == |logs| && forall i :: 0 <= i < |logs| && i != d ==> logs2[i] == logs[i]
    requires d < |s.tree| ==> s.tree[d].isDir && DirOk(t.fs, owner2, t.taken, t.place[d], d, logs2[d])
    requires d >= |s.tree| ==> t.taken == s.taken
    ensures CoreInv(t, owner2, logs2)
    ensures SameReads(s, t)
  {
    hide DirOk, FileOk, ReadFile, TreeOk, TakenOk;
    FrameTaken(s, t, owner, owner2, d);
    forall x | 0 <= x < |s.tree| && s.tree[x].isDir
      ensures DirOk(t.fs, owner2, t.taken, t.place[x], x, logs2[x])
    {
      if x != d {
        FrameDir(s, t, owner, owner2, logs, d, x);
      }
    }
    forall f | 0 <= f < |s.tree| && !s.tree[f].isDir
      ensures t.place[f] == s.place[f]
      ensures FileOk(t.fs, owner2, t.taken, t.place[f], f)
      ensures s.place[f].FilePlace?
      ensures ReadFile(t.fs.vol, s.place[f].entry) == ReadFile(s.fs.vol, s.place[f].entry)
    {
      FrameFile(s, t, owner, owner2, logs, d, f);
    }
  }

  /** The same for a step that only touches what belongs to file `f`. */
  lemma FrameFileStep(s: FsState, t: FsState, owner: seq<nat>, owner2: seq<nat>, logs: seq<seq<Record>>, f: nat)
    requires CoreInv(s, owner, logs) && Base(t, owner2) && OnlyTouches(s, t, owner, owner2, f)
    requires t.taken == s.taken && t.place == s.place
    requires f < |s.tree| && !s.tree[f].isDir && FileOk(t.fs, owner2, t.taken, t.place[f], f)
    ensures CoreInv(t, owner2, logs)
    ensures forall g :: 0 <= g < |s.tree| && g != f && !s.tree[g].isDir ==>
      s.place[g].FilePlace? && ReadFile(t.fs.vol, s.place[g].entry) == ReadFile(s.fs.vol, s.place[g].entry)
  {
    hide DirOk, FileOk, ReadFile, TreeOk, TakenOk;
    FrameTaken(s, t, owner, owner2, f);
    forall x | 0 <= x < |s.tree| && s.tree[x].isDir
      ensures DirOk(t.fs, owner2, t.taken, t.place[x], x, logs[x])
    {
      FrameDir(s, t, owner, owner2, logs, f, x);
    }
    forall g | 0 <= g < |s.tree| && !s.tree[g].isDir && g != f
      ensures FileOk(t.fs, owner2, t.taken, t.place[g], g)
      ensures s.place[g].FilePlace?
      ensures ReadFile(t.fs.vol, s.place[g].entry) == ReadFile(s.fs.vol, s.place[g].entry)
    {
      FrameFile(s, t, owner, owner2, logs, f, g);
    }
  }
}
