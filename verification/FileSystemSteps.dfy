/** The steps of the operations on directories, one lemma each: what they keep and what they add. */
module FileSystemSteps {
  import opened Bytes
  import opened FatChains
  import opened DirectoryRecords
  import opened NameTree
  import opened FileSystem
  import opened FileSystemInvariant

  /** `t` is `s` after some growth of directory `d`. */
  ghost predicate Grew(s: FsState, t: FsState, owner: seq<nat>, owner2: seq<nat>, d: nat) {
    && t.tree == s.tree && t.longNames == s.longNames && owner <= owner2 && s.taken <= t.taken
    && |t.place| == |s.place| && |t.fs.next| == |s.fs.next| && t.fs.sectorSize == s.fs.sectorSize
    && |t.fs.vol.fat| == |t.fs.vol.area| == |s.fs.vol.area| == |s.fs.vol.fat| && t.fs.eoc == s.fs.eoc
    && (forall i :: 0 <= i < |s.place| && i != d ==> t.place[i] == s.place[i])
    && (d < |s.place| && s.place[d].DirPlace? ==>
         t.place[d].DirPlace? && t.place[d].head == s.place[d].head && s.place[d].entries <= t.place[d].entries)
    && (forall c :: 1 <= c < |owner| && c < |s.fs.vol.fat| && owner[c] != d ==>
         t.fs.vol.fat[c] == s.fs.vol.fat[c] && t.fs.vol.area[c] == s.fs.vol.area[c])
  }

  lemma GrewTransitive(s: FsState, t: FsState, u: FsState, owner: seq<nat>, owner2: seq<nat>, owner3: seq<nat>, d: nat)
    requires Grew(s, t, owner, owner2, d) && Grew(t, u, owner2, owner3, d)
    ensures Grew(s, u, owner, owner3, d)
  {
  }

  lemma SameReadsTransitive(s: FsState, t: FsState, u: FsState)
    requires SameReads(s, t) && SameReads(t, u)
    ensures SameReads(s, u)
  {
  }

  // ---- a fresh cluster for an object that does not exist yet ----

  lemma AllocKeeps(s: FsState, owner: seq<nat>, logs: seq<seq<Record>>, who: nat)
    requires CoreInv(s, owner, logs) && who >= |s.tree| && FindFreeCluster(s.fs).Ok?
    ensures var t := s.(fs := FindFreeCluster(s.fs).value.0);
      && CoreInv(t, owner + [who], logs) && SameReads(s, t) && Grew(s, t, owner, owner + [who], who)
  {
    hide DirOk, FileOk, ReadFile, TreeOk, Objects;
    FindFreeEffect(s.fs, owner, who);
    var t := s.(fs := FindFreeCluster(s.fs).value.0);
    assert forall x :: x in s.taken ==> x.cluster <= s.fs.free;
    FrameStep(s, t, owner, owner + [who], logs, logs, who);
  }

  // ---- a directory grows by one cluster ----

  lemma {:induction false} LastIsChainEnd(fs: FatState, id: nat)
    requires ChainInv(fs) && 1 <= id <= fs.free
    ensures LastCluster(fs.next, id) == Chain(fs.vol.fat, id)[|Chain(fs.vol.fat, id)| - 1]
    decreases |fs.next| - id
  {
    assert Linked(fs, id);
    if fs.next[id].Some? {
      LastIsChainEnd(fs, fs.next[id].value);
    }
  }

  lemma {:induction false} ChainGrows(fs: FatState, fs2: FatState, owner: seq<nat>, head: nat)
    requires ChainInv(fs) && ChainInv(fs2) && Owned(fs, owner) && 1 <= head <= fs.free
    requires LastCluster(fs.next, head) <= fs.free && Appended(fs, fs2, LastCluster(fs.next, head), 1)
    ensures Chain(fs2.vol.fat, head) == Chain(fs.vol.fat, head) + [fs.free + 1]
    decreases |fs.next| - head
  {
    assert Linked(fs, head);
    if fs.next[head].Some? {
      var n := fs.next[head].value;
      LastIsChainEnd(fs, n);
      ChainProperties(fs, owner, n);
      ChainGrows(fs, fs2, owner, n);
      assert fs2.vol.fat[head] == n;
      assert Chain(fs2.vol.fat, head) == [head] + Chain(fs2.vol.fat, n);
    } else {
      OneClusterChain(fs, head);
      assert Range(fs.free + 1, 1) == [fs.free + 1];
    }
  }

  lemma {:induction false} ExtendEntries(fs: FatState, fs2: FatState, owner: seq<nat>, head: nat)
    requires ChainInv(fs) && ChainInv(fs2) && Owned(fs, owner) && 1 <= head <= fs.free && fs.sectorSize >= 64
    requires LastCluster(fs.next, head) <= fs.free && Appended(fs, fs2, LastCluster(fs.next, head), 1)
    ensures var added := CreateEntries(fs2.vol.area, fs.free + 1);
      && SlotsOf(fs2.vol.area, Chain(fs2.vol.fat, head)) == SlotsOf(fs.vol.area, Chain(fs.vol.fat, head)) + added
      && |added| >= 2
      && forall x :: x in added ==> x.cluster == fs.free + 1 && SlotRecord(fs2.vol.area, x) == Zeros(32)
  {
    hide SlotsOf, Chain, CreateEntries, Linked, LastCluster;
    var id, chain := fs.free + 1, Chain(fs.vol.fat, head);
    ChainGrows(fs, fs2, owner, head);
    ChainProperties(fs, owner, head);
    SlotsAppend(fs2.vol.area, chain, [id]);
    SlotsOfOne(fs2.vol.area, id);
    SlotsFrame(fs.vol.area, fs2.vol.area, chain);
    assert fs2.vol.area[id] == Zeros(fs.sectorSize);
    ZeroSlots(fs2.vol.area, id);
  }

  lemma {:induction false} SlotsOfOne(area: seq<seq<byte>>, c: nat)
    ensures SlotsOf(area, [c]) == CreateEntries(area, c)
  {
    assert SlotsOf(area, [c]) == CreateEntries(area, c) + SlotsOf(area, [c][1..]);
  }

  lemma ZeroSlots(area: seq<seq<byte>>, c: nat)
    requires c < |area| && area[c] == Zeros(|area[c]|)
    ensures forall x :: x in CreateEntries(area, c) ==> x.cluster == c && SlotRecord(area, x) == Zeros(32)
    ensures |area[c]| >= 64 ==> |CreateEntries(area, c)| >= 2
  {
    forall i | 0 <= i < |CreateEntries(area, c)|
      ensures SlotRecord(area, CreateEntries(area, c)[i]) == Zeros(32)
    {
      assert CreateEntries(area, c)[i] == Slot(c, i);
    }
  }

  lemma ExtendDirOk(fs: FatState, fs2: FatState, owner: seq<nat>, taken: set<Slot>, p: Place, d: nat, log: seq<Record>)
    requires ChainInv(fs) && Owned(fs, owner) && ChainInv(fs2) && d != 0 && fs.sectorSize >= 64
    requires DirOk(fs, owner, taken, p, d, log)
    requires LastCluster(fs.next, p.head) <= fs.free && Appended(fs, fs2, LastCluster(fs.next, p.head), 1)
    requires forall s: Slot :: s in taken ==> s.cluster <= fs.free
    ensures var p2 := p.(entries := p.entries + CreateEntries(fs2.vol.area, fs.free + 1));
      DirOk(fs2, owner + [d], taken, p2, d, log) && |p2.entries| > |p.entries|
  {
    hide SlotsOf, Chain, CreateEntries, Mask, Linked;
    var area, area2 := fs.vol.area, fs2.vol.area;
    ExtendEntries(fs, fs2, owner, p.head);
    ChainProperties(fs, owner, p.head);
    SlotsMember(area, Chain(fs.vol.fat, p.head));
    var entries := p.entries + CreateEntries(area2, fs.free + 1);
    forall i | 0 <= i < |entries|
      ensures i < |p.entries| ==> SlotRecord(area2, entries[i]) == SlotRecord(area, p.entries[i])
      ensures i >= |p.entries| ==> entries[i] !in taken && SlotRecord(area2, entries[i]) == Zeros(32)
    {
      if i < |p.entries| {
        assert p.entries[i] in SlotsOf(area, Chain(fs.vol.fat, p.head));
        assert area2[p.entries[i].cluster] == area[p.entries[i].cluster];
      } else {
        assert entries[i] in CreateEntries(area2, fs.free + 1);
      }
    }
  }

  lemma ExtendDirectoryIs(s: FsState, d: nat)
    requires Formed(s) && IsDirectory(s, d) && ExtendDirectory(s, d).Ok?
    ensures d != 0 && FindFreeCluster(s.fs).Ok?
    ensures var (t0, id) := FindFreeCluster(s.fs).value;
      var last := LastCluster(s.fs.next, s.place[d].head);
      && last < |t0.next|
      && ExtendDirectory(s, d).value == s.(fs := Link(t0, last, id),
           place := s.place[d := s.place[d].(entries := s.place[d].entries + CreateEntries(t0.vol.area, id))])
  {
  }

  lemma ExtendKeeps(s: FsState, owner: seq<nat>, logs: seq<seq<Record>>, d: nat)
    requires CoreInv(s, owner, logs) && IsDirectory(s, d) && ExtendDirectory(s, d).Ok?
    ensures var t := ExtendDirectory(s, d).value;
      && CoreInv(t, owner + [d], logs) && SameReads(s, t) && Grew(s, t, owner, owner + [d], d)
      && |t.place[d].entries| > |s.place[d].entries|
      && t.taken == s.taken
  {
    hide DirOk, FileOk, ReadFile, TreeOk, ExtendDirectory, FindFreeCluster, Grew, OnlyTouches, Chain, LastCluster;
    var p := s.place[d];
    ExtendDirectoryIs(s, d);
    var t := ExtendDirectory(s, d).value;
    assert DirOk(s.fs, owner, s.taken, p, d, logs[d]);
    DirHead(s.fs, owner, s.taken, p, d, logs[d]);
    LastIsChainEnd(s.fs, p.head);
    ChainProperties(s.fs, owner, p.head);
    var last := LastCluster(s.fs.next, p.head);
    FindFreeEffect(s.fs, owner, d);
    AppendOne(s.fs, owner, last);
    assert forall x :: x in s.taken ==> x.cluster <= s.fs.free;
    ExtendDirOk(s.fs, t.fs, owner, s.taken, p, d, logs[d]);
    ExtendTouches(s, t, owner, logs, d, last);
    FrameStep(s, t, owner, owner + [d], logs, logs, d);
  }

  lemma DirHead(fs: FatState, owner: seq<nat>, taken: set<Slot>, p: Place, d: nat, log: seq<Record>)
    requires ChainInv(fs) && |owner| == fs.free + 1 && DirOk(fs, owner, taken, p, d, log)
    ensures p.DirPlace? && 1 <= p.head <= fs.free && owner[p.head] == d && (p.head == 1 <==> d == 0)
    ensures p.entries == SlotsOf(fs.vol.area, Chain(fs.vol.fat, p.head)) && |log| <= |p.entries|
  {
  }

  lemma ExtendTouches(s: FsState, t: FsState, owner: seq<nat>, logs: seq<seq<Record>>, d: nat, last: nat)
    requires CoreInv(s, owner, logs) && IsDirectory(s, d) && 2 <= last <= s.fs.free && owner[last] == d
    requires ChainInv(t.fs) && Owned(t.fs, owner + [d]) && Appended(s.fs, t.fs, last, 1)
    requires Formed(t) && t.tree == s.tree && t.taken == s.taken && t.longNames == s.longNames
    requires |t.place| == |s.place| && forall i :: 0 <= i < |s.place| && i != d ==> t.place[i] == s.place[i]
    requires t.place[d].DirPlace? && t.place[d].head == s.place[d].head && s.place[d].entries <= t.place[d].entries
    ensures Base(t, owner + [d])
    ensures OnlyTouches(s, t, owner, owner + [d], d)
    ensures Grew(s, t, owner, owner + [d], d)
  {
    hide DirOk, FileOk, ReadFile, TreeOk, Objects, Chain;
    assert forall x :: x in s.taken ==> x.cluster <= s.fs.free;
    assert forall c :: 0 <= c < |s.fs.vol.area| ==> |t.fs.vol.area[c]| == |s.fs.vol.area[c]| by {
      assert t.fs.vol.area[0] == s.fs.vol.area[0] && t.fs.vol.area[1] == s.fs.vol.area[1];
    }
  }

  // ---- a record is written into the first free entry ----

  lemma RecordAfter(area: seq<seq<byte>>, slot: Slot, r: Record, x: Slot)
    requires ValidSlot(area, slot)
    ensures SlotRecord(WithRecord(area, slot, r), x) == if x == slot then r else SlotRecord(area, x)
  {
    var a := WithRecord(area, slot, r);
    if x.cluster == slot.cluster && ValidSlot(area, x) {
      var at := 32 * slot.index;
      if x.index < slot.index {
        SpliceOutside(area[x.cluster], at, r, 32 * x.index, 32 * x.index + 32);
      } else if x.index > slot.index {
        SpliceOutside(area[x.cluster], at, r, 32 * x.index, 32 * x.index + 32);
      } else {
        SpliceInside(area[x.cluster], at, r, at, at + 32);
        assert Splice(area[x.cluster][at..at + 32], 0, r) == r;
      }
    }
  }

  /** Writing a record keeps the chain invariant and changes no other record. */
  lemma SetRecordEffect(fs: FatState, owner: seq<nat>, slot: Slot, r: Record)
    requires ChainInv(fs) && Owned(fs, owner) && ValidSlot(fs.vol.area, slot)
    ensures ChainInv(SetRecord(fs, slot, r)) && Owned(SetRecord(fs, slot, r), owner)
    ensures forall x ::
      SlotRecord(SetRecord(fs, slot, r).vol.area, x) == if x == slot then r else SlotRecord(fs.vol.area, x)
    ensures forall c :: 0 <= c < |fs.vol.area| && c != slot.cluster ==>
      SetRecord(fs, slot, r).vol.area[c] == fs.vol.area[c]
  {
    hide ChainInv, Owned, SlotRecord;
    AreaChangeKeepsInv(fs, owner, SetRecord(fs, slot, r));
    forall x
      ensures SlotRecord(SetRecord(fs, slot, r).vol.area, x) == if x == slot then r else SlotRecord(fs.vol.area, x)
    {
      RecordAfter(fs.vol.area, slot, r, x);
    }
  }

  lemma RecordDirOk(fs: FatState, owner: seq<nat>, taken: set<Slot>, p: Place, d: nat, log: seq<Record>, r: Record)
    requires ChainInv(fs) && Owned(fs, owner) && DirOk(fs, owner, taken, p, d, log)
    requires |log| < |p.entries| && Mask(r) == r && ValidSlot(fs.vol.area, p.entries[|log|])
    ensures var slot := p.entries[|log|];
      && ChainInv(SetRecord(fs, slot, r)) && Owned(SetRecord(fs, slot, r), owner)
      && DirOk(SetRecord(fs, slot, r), owner, taken + {slot}, p, d, log + [r])
  {
    hide Chain, SlotsOf, ChainInv, Mask, SlotRecord;
    var slot := p.entries[|log|];
    var fs2 := SetRecord(fs, slot, r);
    SetRecordEffect(fs, owner, slot, r);
    ChainProperties(fs, owner, p.head);
    SlotsDistinct(fs.vol.area, Chain(fs.vol.fat, p.head));
    AreaLengths(fs.vol.area, fs2.vol.area);
    SlotsFrame(fs.vol.area, fs2.vol.area, Chain(fs.vol.fat, p.head));
  }

  lemma AreaLengths(a1: seq<seq<byte>>, a2: seq<seq<byte>>)
    requires |a1| == |a2| && forall c :: 0 <= c < |a1| ==> |a1[c]| == |a2[c]|
    ensures forall c: nat :: |AreaOf(a1, c)| == |AreaOf(a2, c)|
  {
  }

  /** The first free entry of a directory, seen from the invariant. */
  lemma FreeEntry(s: FsState, owner: seq<nat>, logs: seq<seq<Record>>, d: nat)
    requires CoreInv(s, owner, logs) && IsDirectory(s, d)
    ensures |logs[d]| <= |s.place[d].entries|
    ensures FindFreeEntry(s.place[d].entries, s.taken) ==
      if |logs[d]| < |s.place[d].entries| then Some(s.place[d].entries[|logs[d]|]) else None
    ensures |logs[d]| < |s.place[d].entries| ==>
      var slot := s.place[d].entries[|logs[d]|];
      && ValidSlot(s.fs.vol.area, slot) && slot !in s.taken && 1 <= slot.cluster <= s.fs.free
      && owner[slot.cluster] == d
  {
    hide FileOk, ReadFile, TreeOk, SlotRecord, Mask;
    var p, u := s.place[d], |logs[d]|;
    assert DirOk(s.fs, owner, s.taken, p, d, logs[d]);
    FindFreeIs(p.entries, s.taken, u);
    if u < |p.entries| {
      SlotsMember(s.fs.vol.area, Chain(s.fs.vol.fat, p.head));
      ChainProperties(s.fs, owner, p.head);
      assert p.entries[u] in SlotsOf(s.fs.vol.area, Chain(s.fs.vol.fat, p.head));
      SlotIsValid(s.fs.vol.area, p.entries[u]);
    }
  }

  lemma RecordKeeps(s: FsState, owner: seq<nat>, logs: seq<seq<Record>>, d: nat, r: Record)
    requires CoreInv(s, owner, logs) && IsDirectory(s, d) && |logs[d]| < |s.place[d].entries| && Mask(r) == r
    ensures var slot := s.place[d].entries[|logs[d]|];
      var t := AllocateEntry(s, slot, r);
      && CoreInv(t, owner, logs[d := logs[d] + [r]]) && SameReads(s, t) && Grew(s, t, owner, owner, d)
      && SlotRecord(t.fs.vol.area, slot) == r && slot !in s.taken
  {
    hide DirOk, FileOk, ReadFile, TreeOk, SlotRecord, Mask;
    var p := s.place[d];
    var slot := p.entries[|logs[d]|];
    var t := AllocateEntry(s, slot, r);
    FreeEntry(s, owner, logs, d);
    assert DirOk(s.fs, owner, s.taken, p, d, logs[d]);
    SetRecordEffect(s.fs, owner, slot, r);
    RecordDirOk(s.fs, owner, s.taken, p, d, logs[d], r);
    FrameStep(s, t, owner, owner, logs, logs[d := logs[d] + [r]], d);
  }

  // ---- find_free_entry or chain_directory ----

  lemma ObtainKeeps(s: FsState, owner: seq<nat>, logs: seq<seq<Record>>, d: nat) returns (owner2: seq<nat>)
    requires CoreInv(s, owner, logs) && IsDirectory(s, d) && ObtainEntry(s, d).Ok?
    ensures var (t, slot) := ObtainEntry(s, d).value;
      && CoreInv(t, owner2, logs) && SameReads(s, t) && Grew(s, t, owner, owner2, d)
      && IsDirectory(t, d) && t.taken == s.taken
      && |logs[d]| < |t.place[d].entries| && slot == t.place[d].entries[|logs[d]|]
  {
    hide CoreInv, SameReads, FindFreeEntry, ExtendDirectory;
    LogCount(s, owner, logs);
    FreeEntry(s, owner, logs, d);
    if |logs[d]| < |s.place[d].entries| {
      owner2 := owner;
      SelfStep(s, owner, logs, d);
    } else {
      owner2 := owner + [d];
      ExtendKeeps(s, owner, logs, d);
      FreeEntry(ExtendDirectory(s, d).value, owner2, logs, d);
    }
  }

  lemma SelfStep(s: FsState, owner: seq<nat>, logs: seq<seq<Record>>, d: nat)
    requires CoreInv(s, owner, logs)
    ensures SameReads(s, s) && Grew(s, s, owner, owner, d)
  {
  }

  // ---- the records of an object are written one after another ----

  lemma {:induction false} PlaceKeeps(s: FsState, owner: seq<nat>, logs: seq<seq<Record>>, d: nat, recs: seq<Record>)
    returns (owner2: seq<nat>)
    requires CoreInv(s, owner, logs) && IsDirectory(s, d) && recs != [] && PlaceRecords(s, d, recs).Ok?
    requires forall r :: r in recs ==> Mask(r) == r
    ensures var (t, slot) := PlaceRecords(s, d, recs).value;
      && |logs| == |s.tree| && d < |logs|
      && CoreInv(t, owner2, logs[d := logs[d] + recs]) && SameReads(s, t) && Grew(s, t, owner, owner2, d)
      && IsDirectory(t, d)
      && |logs[d]| + |recs| <= |t.place[d].entries|
      && slot == t.place[d].entries[|logs[d]| + |recs| - 1]
      && SlotRecord(t.fs.vol.area, slot) == recs[|recs| - 1] && slot in t.taken && slot !in s.taken
    decreases |recs|
  {
    hide CoreInv, SameReads, ObtainEntry, AllocateEntry, Grew, SlotRecord, Mask;
    LogCount(s, owner, logs);
    var owner1 := ObtainKeeps(s, owner, logs, d);
    var (t, slot) := ObtainEntry(s, d).value;
    assert recs[0] in recs;
    RecordKeeps(t, owner1, logs, d, recs[0]);
    var u := AllocateEntry(t, slot, recs[0]);
    var logs1 := logs[d := logs[d] + [recs[0]]];
    SameReadsTransitive(s, t, u);
    GrewTransitive(s, t, u, owner, owner1, owner1, d);
    GrewEntries(t, u, owner1, owner1, d, slot, recs[0]);
    LogCount(u, owner1, logs1);
    if |recs| == 1 {
      owner2 := owner1;
      assert recs == [recs[0]];
    } else {
      owner2 := PlaceKeeps(u, owner1, logs1, d, recs[1..]);
      var v := PlaceRecords(u, d, recs[1..]).value.0;
      assert logs1[d := logs1[d] + recs[1..]] == logs[d := logs[d] + recs] by {
        assert (logs[d] + [recs[0]]) + recs[1..] == logs[d] + recs;
      }
      SameReadsTransitive(s, u, v);
      GrewTransitive(s, u, v, owner, owner1, owner2, d);
    }
  }

  lemma LogCount(s: FsState, owner: seq<nat>, logs: seq<seq<Record>>)
    requires CoreInv(s, owner, logs)
    ensures Formed(s) && |logs| == |s.tree| == |s.place| && |s.fs.next| <= 0x1_0000 && |owner| == s.fs.free + 1
  {
  }

  lemma GrewEntries(t: FsState, u: FsState, owner1: seq<nat>, owner2: seq<nat>, d: nat, slot: Slot, r: Record)
    requires IsDirectory(t, d) && u == AllocateEntry(t, slot, r)
    ensures IsDirectory(u, d) && u.place == t.place && u.taken == t.taken + {slot}
  {
  }
}
