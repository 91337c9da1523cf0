/** The class FATFS of `fatfsgen.py` with the methods of Directory and File, working on the bytes
    of the image. Objects are kept in tables by id; every method is proved to do, on the view of
    the image, what the operation of FileSystem does. */
module Fatfs {
  import opened Bytes
  import opened Geometry
  import opened Volume
  import opened BootSectorImage
  import opened Outcome
  import opened FatChains
  import opened FatTableObject
  import opened DirectoryRecords
  import opened LongNames
  import opened NameTree
  import opened Paths
  import opened FileSystem
  import opened FileSystemInvariant
  import opened FileSystemSteps
  import opened FileSystemRuns
  import opened DirectoryListing
  import opened Aliases
  import opened Reader
  import opened ImageRuns

  lemma {:induction false} FindFreeStep(entries: seq<Slot>, taken: set<Slot>, i: nat)
    requires i < |entries|
    ensures entries[i] !in taken ==> FindFreeEntry(entries[i..], taken) == Some(entries[i])
    ensures entries[i] in taken ==> FindFreeEntry(entries[i..], taken) == FindFreeEntry(entries[i + 1..], taken)
  {
    assert entries[i..][1..] == entries[i + 1..];
  }

  lemma {:induction false} LookupStep(tree: seq<TNode>, entities: seq<nat>, full: seq<byte>, i: nat)
    requires Ids(tree, entities) && i < |entities|
    ensures Ids(tree, entities[i..]) && Ids(tree, entities[i + 1..]) && entities[i] < |tree|
    ensures Lookup(tree, entities[i..], full) ==
      if BuildName(tree[entities[i]].name, tree[entities[i]].ext) == full then Some(entities[i])
      else Lookup(tree, entities[i + 1..], full)
  {
    assert entities[i] in entities;
    var here, after := entities[i..], entities[i + 1..];
    assert forall x :: x in here ==> x in entities;
    assert forall x :: x in after ==> x in entities;
    assert entities[i..][1..] == entities[i + 1..];
  }

  lemma {:induction false} SearchAll(tree: seq<TNode>, path: seq<seq<byte>>, current: nat)
    requires TreeOk(tree) && current < |tree|
    ensures path != [] ==> forall e: nat :: Search(tree, path, current) == Ok(e) <==> LeadsFrom(tree, current, path, e)
  {
    hide LeadsFrom, Search;
    if path != [] {
      forall e: nat
        ensures Search(tree, path, current) == Ok(e) <==> LeadsFrom(tree, current, path, e)
      {
        SearchIff(tree, path, current, e);
      }
    }
  }

  lemma TargetAll(tree: seq<TNode>, path: seq<seq<byte>>)
    requires TreeOk(tree)
    ensures forall d: nat :: Target(tree, path) == Ok(d) <==> Leads(tree, path, d) && d < |tree| && tree[d].isDir
  {
    hide LeadsFrom, Target;
    forall d: nat
      ensures Target(tree, path) == Ok(d) <==> Leads(tree, path, d) && d < |tree| && tree[d].isDir
    {
      TargetIff(tree, path, d);
    }
  }

  /** The record of a new object, in the slot it got in the directory that the path leads to, bears the
      object's short name, numbered after its older siblings, and holds its kind, cluster and time stamp. */
  ghost predicate RecordWritten(s: FsState, t: FsState, name: seq<byte>, ext: seq<byte>, attr: byte,
                                path: seq<seq<byte>>, stamp: Stamp, first: Option<nat>, slot: Slot, d: nat)
  {
    && Describes(SlotRecord(t.fs.vol.area, slot), attr, if first.Some? then first.value else 0, stamp)
    && d < |s.tree| && s.tree[d].isDir && Leads(s.tree, path, d)
    && var node, entities := TNode(name, ext, false, []), s.tree[d].entities;
       Bears(SlotRecord(t.fs.vol.area, slot),
             if KeepsName(s.longNames, node) then name
             else Start(name, 6) + [0x7e, 1 + |Alike(s.tree, entities, name, |entities|)|],
             Extension(s.longNames, node))
  }

  lemma AllocatedBears(s: FsState, owner: seq<nat>, logs: seq<seq<Record>>, name: seq<byte>, ext: seq<byte>, attr: byte,
                       path: seq<seq<byte>>, isEmpty: bool, stamp: Stamp)
    requires Formed(s) && |s.fs.next| <= 0x1_0000
    requires CoreInv(s, owner, logs) && stamp.Fits() && |BuildName(name, ext)| <= 255 && attr != ATTR_LONG_NAME
    requires FileSystem.AllocateObject(s, name, ext, attr, path, isEmpty, stamp).Ok?
    ensures var (t, first, slot, d) := FileSystem.AllocateObject(s, name, ext, attr, path, isEmpty, stamp).value;
      RecordWritten(s, t, name, ext, attr, path, stamp, first, slot, d)
  {
    hide CoreInv, FileSystem.AllocateObject, EntryRecords, CountPrefix, SlotRecord, Target, LeadsFrom, Bears, Start,
      KeepsName, Alike, Extension, TreeOk, Describes;
    FormedTree(s);
    var owner2, recs := AllocateObjectKeeps(s, owner, logs, name, ext, attr, path, isEmpty, stamp);
    var (t, first, slot, d) := FileSystem.AllocateObject(s, name, ext, attr, path, isEmpty, stamp).value;
    TargetIff(s.tree, path, d);
    var node, entities := TNode(name, ext, false, []), s.tree[d].entities;
    NewBears(s.longNames, CountPrefix(s.tree, entities, name), node, attr, First(FilePlace(slot, first)), stamp);
    CountIsSize(s.tree, entities, name, |entities|);
    assert entities[..|entities|] == entities;
  }

  /** The object `node` was added to the directory that the path leads to, with empty content. */
  ghost predicate Created(i: Ideal, j: Ideal, path: seq<seq<byte>>, node: TNode) {
    exists d: nat :: d < |i.tree| && i.tree[d].isDir && Leads(i.tree, path, d)
      && j.tree == AddNode(i.tree, d, node) && j.contents == i.contents + [[]]
  }

  /** The file that the path leads to got the content; nothing else changed. */
  ghost predicate Rewritten(i: Ideal, j: Ideal, path: seq<seq<byte>>, content: seq<byte>) {
    exists f: nat :: f < |i.tree| == |i.contents| && !i.tree[f].isDir && Leads(i.tree, path, f)
      && j.tree == i.tree && j.contents == i.contents[f := content]
  }

  lemma StepMeans(i: Ideal, op: Op, j: Ideal)
    requires i.Ok() && IdealStep(i, op) == Ok(j)
    ensures !op.WriteContent? ==> Created(i, j, op.path, NodeOf(op))
    ensures op.WriteContent? ==> Rewritten(i, j, op.path, op.content)
  {
    hide IdealStep, LeadsFrom;
    if op.WriteContent? {
      var f := WriteMeans(i, op);
    } else {
      var d := CreateMeans(i, op);
    }
  }

  class FATFS {
    const fat: FAT
    const longNames: bool
    var tree: seq<TNode>
    var place: seq<Place>
    var taken: set<Slot>
    ghost var owner: seq<nat>
    ghost var logs: seq<seq<Record>>

    ghost predicate Valid()
      reads this, fat, fat.boot.image
    {
      fat.Valid() && FsInv(State(), owner, logs, true)
    }

    /** The file system that the object and the image stand for. */
    ghost function State(): (s: FsState)
      requires fat.Valid()
      reads this, fat, fat.boot.image
      ensures s.fs == fat.State() && s.longNames == longNames && s.tree == tree && s.place == place && s.taken == taken
    {
      FsState(fat.State(), longNames, tree, place, taken)
    }

    /** `FATFS.__init__` on an empty image */
    constructor Create(g: Geo, header: seq<byte>, longNamesEnabled: bool)
      requires g.Accepted() && |header| == 512
      ensures Valid() && fresh(fat) && fresh(fat.boot.image)
      ensures fat.boot.geo == g && State() == InitialState(g, header, longNamesEnabled)
      ensures fat.boot.image[..512] == header
    {
      var boot := new BootSectorState.CreateEmpty(g, header);
      ghost var img := boot.image[..];
      ghost var others := boot.Others();
      fat := new FAT.Init(boot, header);
      longNames := longNamesEnabled;
      tree := EmptyIdeal().tree;
      new;
      hide FreshState, BootSectorState.Contents, BootSectorState.Others, Geo.Accepted, FsInv;
      Layout(g);
      var root := fat.boot.ReadArea(1);
      place := [DirPlace(1, seq(|root| / 32, i requires i >= 0 => Slot(1, i)))];
      taken := {};
      owner, logs := [0, 0], [[]];
      assert State() == InitialState(g, header, longNames);
      InitialInv(g, header, longNames, true);
      HeaderKept(g, header, img, fat.boot.image[..]);
    }

    /** `find_free_entry` */
    method FindFreeEntry(d: nat) returns (r: Option<Slot>)
      requires fat.Valid() && IsDirectory(State(), d)
      ensures r == FileSystem.FindFreeEntry(place[d].entries, taken)
    {
      var entries := place[d].entries;
      for i := 0 to |entries|
        invariant FileSystem.FindFreeEntry(entries, taken) == FileSystem.FindFreeEntry(entries[i..], taken)
      {
        FindFreeStep(entries, taken, i);
        if entries[i] !in taken {
          return Some(entries[i]);
        }
      }
      return None;
    }

    /** The walk of `_extend_directory` over the in-memory clusters. */
    method WalkToLast(head: nat) returns (current: nat)
      requires fat.Valid() && head < |fat.next|
      ensures current == LastCluster(fat.next, head)
    {
      current := head;
      while current < |fat.next| && fat.next[current].Some? && current < fat.next[current].value < |fat.next|
        invariant current < |fat.next|
        invariant LastCluster(fat.next, head) == LastCluster(fat.next, current)
        decreases |fat.next| - current
      {
        current := fat.next[current].value;
      }
    }

    /** `_extend_directory` */
    method ExtendDirectory(d: nat) returns (r: Result<()>)
      requires fat.Valid() && Formed(State()) && IsDirectory(State(), d)
      modifies this`place, fat, fat.boot.image
      ensures fat.Valid() && fat.boot.Others() == old(fat.boot.Others())
      ensures match FileSystem.ExtendDirectory(old(State()), d)
        case Err(e) => r == Err(e)
        case Ok(t) => r == Ok(()) && State() == t
    {
      hide BootSectorState.Contents, BootSectorState.Others, FatChains.FindFreeCluster, Link, Formed,
        FileSystem.ExtendDirectory, LastCluster, Geo.Accepted, Geo.Clusters, Geo.Size;
      ghost var s := State();
      ExtendUnfold(s, d);
      if d == 0 {
        return Err(RootFull);
      }
      var last := WalkToLast(place[d].head);
      var free := fat.FindFreeCluster();
      if free.Err? {
        return Err(free.error);
      }
      fat.SetNext(last, free.value);
      var area := fat.boot.ReadArea(free.value);
      var added := seq(|area| / 32, i requires i >= 0 => Slot(free.value, i));
      assert added == CreateEntries(fat.State().vol.area, free.value);
      place := place[d := place[d].(entries := place[d].entries + added)];
      return Ok(());
    }

    /** `find_free_entry() or chain_directory()` */
    method ObtainEntry(d: nat) returns (r: Result<Slot>)
      requires fat.Valid() && Formed(State()) && IsDirectory(State(), d)
      modifies this`place, fat, fat.boot.image
      ensures fat.Valid() && fat.boot.Others() == old(fat.boot.Others())
      ensures match FileSystem.ObtainEntry(old(State()), d)
        case Err(e) => r == Err(e)
        case Ok((t, slot)) => r == Ok(slot) && State() == t
    {
      hide BootSectorState.Contents, BootSectorState.Others, FileSystem.FindFreeEntry, FileSystem.ExtendDirectory,
        Formed, Geo.Accepted;
      var free := FindFreeEntry(d);
      if free.Some? {
        return Ok(free.value);
      }
      var extended := ExtendDirectory(d);
      if extended.Err? {
        return Err(extended.error);
      }
      free := FindFreeEntry(d);
      if free.Some? {
        return Ok(free.value);
      }
      return Err(NoFreeSpace);
    }

    /** The image part of `allocate_entry`: clean the entry, then write the record. */
    method AllocateEntry(slot: Slot, r: Record)
      requires fat.Valid() && ValidSlot(State().fs.vol.area, slot) && slot.cluster >= 1
      modifies this`taken, fat.boot.image
      ensures fat.Valid() && fat.boot.Others() == old(fat.boot.Others())
      ensures State() == FileSystem.AllocateEntry(old(State()), slot, r)
    {
      hide BootSectorState.Others, Geo.Accepted, Geo.Clusters;
      ghost var area := State().fs.vol.area[slot.cluster];
      AreaSize(fat.boot, slot.cluster);
      fat.boot.WriteArea(slot.cluster, 32 * slot.index, Zeros(32));
      fat.boot.WriteArea(slot.cluster, 32 * slot.index, r);
      assert Splice(Splice(area, 32 * slot.index, Zeros(32)), 32 * slot.index, r) == Splice(area, 32 * slot.index, r);
      taken := taken + {slot};
    }

    /** The record loop of `allocate_long_name_object`, from an entry already obtained; a short-named
        object has one record. */
    method PlaceRecords(d: nat, entry: Slot, recs: seq<Record>, ghost o: seq<nat>, ghost l: seq<seq<Record>>)
      returns (r: Result<Slot>)
      requires fat.Valid() && CoreInv(State(), o, l) && Formed(State()) && IsDirectory(State(), d) && recs != []
      requires FileSystem.ObtainEntry(State(), d) == Ok((State(), entry))
      requires forall x :: x in recs ==> Mask(x) == x
      modifies this`place, this`taken, fat, fat.boot.image
      ensures fat.Valid() && fat.boot.Others() == old(fat.boot.Others())
      ensures match FileSystem.PlaceRecords(old(State()), d, recs)
        case Err(e) => r == Err(e)
        case Ok((t, slot)) => r == Ok(slot) && State() == t
    {
      hide BootSectorState.Contents, BootSectorState.Others, FileSystem.ObtainEntry, FileSystem.AllocateEntry,
        FileSystem.PlaceRecords, Base, TakenOk, Objects, Formed, Geo.Accepted, Mask, SlotRecord;
      ghost var s0 := State();
      ghost var owner1, logs1 := o, l;
      LogCount(s0, o, l);
      var i := 0;
      var slot := entry;
      assert recs[0..] == recs;
      while i < |recs|
        invariant 0 <= i <= |recs| && fat.Valid() && fat.boot.Others() == old(fat.boot.Others())
        invariant CoreInv(State(), owner1, logs1) && IsDirectory(State(), d) && Formed(State())
        invariant i < |recs| ==> FileSystem.ObtainEntry(State(), d) == Ok((State(), slot))
        invariant if i < |recs|
          then FileSystem.PlaceRecords(s0, d, recs) == FileSystem.PlaceRecords(State(), d, recs[i..])
          else FileSystem.PlaceRecords(s0, d, recs) == Ok((State(), slot))
      {
        ghost var s := State();
        PlaceUnfold(s, d, recs, i);
        ObtainKept(s, owner1, logs1, d);
        assert recs[i] in recs;
        RecordKeeps(s, owner1, logs1, d, recs[i]);
        AllocateEntry(slot, recs[i]);
        GrewEntries(s, State(), owner1, owner1, d, slot, recs[i]);
        logs1 := logs1[d := logs1[d] + [recs[i]]];
        LogCount(State(), owner1, logs1);
        i := i + 1;
        if i < |recs| {
          ghost var u := State();
          PlaceUnfold(u, d, recs, i);
          r := ObtainEntry(d);
          if r.Err? {
            return;
          }
          slot := r.value;
          ObtainedAgain(u, d);
          owner1 := ObtainKeeps(u, owner1, logs1, d);
          LogCount(State(), owner1, logs1);
        }
      }
      return Ok(slot);
    }

    /** `lookup_entity` */
    method LookupEntity(d: nat, full: seq<byte>) returns (r: Option<nat>)
      requires d < |tree| && Ids(tree, tree[d].entities)
      ensures r == Lookup(tree, tree[d].entities, full)
    {
      var entities := tree[d].entities;
      assert entities[0..] == entities;
      for i := 0 to |entities|
        invariant Ids(tree, entities[i..])
        invariant Lookup(tree, entities, full) == Lookup(tree, entities[i..], full)
      {
        LookupStep(tree, entities, full, i);
        var e := entities[i];
        if BuildName(tree[e].name, tree[e].ext) == full {
          return Some(e);
        }
      }
      return None;
    }

    /** `recursive_search` */
    method RecursiveSearch(path: seq<seq<byte>>, current: nat) returns (r: Result<nat>)
      requires TreeOk(tree) && current < |tree|
      ensures r == Search(tree, path, current)
      ensures path != [] ==> forall e: nat :: r == Ok(e) <==> LeadsFrom(tree, current, path, e)
      decreases |path|
    {
      hide LeadsFrom;
      SearchAll(tree, path, current);
      if path == [] {
        return Err(EmptyPath);
      }
      if !tree[current].isDir {
        return Err(NotADirectory);
      }
      var (name, ext) := SplitName(path[0]);
      var e := LookupEntity(current, BuildName(name, ext));
      if e.None? {
        return Err(NotFound);
      }
      if |path| == 1 {
        return Ok(e.value);
      }
      r := RecursiveSearch(path[1..], e.value);
    }

    /** The target directory of a new object */
    method FindTarget(path: seq<seq<byte>>) returns (r: Result<nat>)
      requires TreeOk(tree)
      ensures r == Target(tree, path)
      ensures forall d: nat :: r == Ok(d) <==> Leads(tree, path, d) && d < |tree| && tree[d].isDir
    {
      hide LeadsFrom;
      TargetAll(tree, path);
      if path == [] {
        return Ok(0);
      }
      r := RecursiveSearch(path, 0);
      if r.Ok? && !tree[r.value].isDir {
        return Err(NotADirectory);
      }
    }

    /** `allocate_object`; the entry and the target directory are returned. */
    method AllocateObject(name: seq<byte>, ext: seq<byte>, attr: byte, path: seq<seq<byte>>, isEmpty: bool,
                          stamp: Stamp)
      returns (r: Result<(Option<nat>, Slot, nat)>)
      requires Valid() && stamp.Fits() && |BuildName(name, ext)| <= 255 && attr != ATTR_LONG_NAME
      modifies this`place, this`taken, fat, fat.boot.image
      ensures fat.Valid() && fat.boot.Others() == old(fat.boot.Others())
      ensures Runnable(old(State()))
      ensures match FileSystem.AllocateObject(old(State()), name, ext, attr, path, isEmpty, stamp)
        case Err(e) => r == Err(e)
        case Ok((t, first, slot, d)) => r == Ok((first, slot, d)) && State() == t
      ensures r.Ok? ==>
        RecordWritten(old(State()), State(), name, ext, attr, path, stamp, r.value.0, r.value.1, r.value.2)
    {
      hide BootSectorState.Contents, BootSectorState.Others, FileSystem.PlaceRecords, EntryRecords, CountPrefix,
        Base, TakenOk, Objects, Geo.Accepted, Mask, SlotRecord, LogInv, AllHeld, ShortNames, Search,
        FatChains.FindFreeCluster, FileSystem.ObtainEntry, Formed, FileSystem.AllocateObject, Target, Leads,
        RecordWritten;
      ghost var s := State();
      LogCount(s, owner, logs);
      FormedTree(s);
      RunnableInv(s, owner, logs, true);
      AllocateStages(s, name, ext, attr, path, isEmpty, stamp);
      var first: Option<nat> := None;
      ghost var owner1 := owner;
      if !isEmpty {
        var free := fat.FindFreeCluster();
        if free.Err? {
          return Err(free.error);
        }
        first := Some(free.value);
        AllocKeeps(s, owner, logs, |s.tree|);
        FreshFacts(s, owner, logs);
        owner1 := owner + [|s.tree|];
      }
      var d := FindTarget(path);
      if d.Err? {
        return Err(d.error);
      }
      ghost var s1 := State();
      var entry := ObtainEntry(d.value);
      if entry.Err? {
        return Err(entry.error);
      }
      ObtainedAgain(s1, d.value);
      owner1 := ObtainKeeps(s1, owner1, logs, d.value);
      LogCount(State(), owner1, logs);
      var cluster := if first.Some? then first.value else 0;
      var siblings := CountPrefix(tree, tree[d.value].entities, name);
      var recs := EntryRecords(longNames, siblings, name, ext, attr, cluster, stamp);
      if recs.Err? {
        return Err(recs.error);
      }
      EntryRecordsFacts(longNames, siblings, name, ext, attr, cluster, stamp);
      var slot := PlaceRecords(d.value, entry.value, recs.value, owner1, logs);
      if slot.Err? {
        return Err(slot.error);
      }
      AllocatedBears(s, owner, logs, name, ext, attr, path, isEmpty, stamp);
      return Ok((first, slot.value, d.value));
    }

    /** `target_dir.entities.append(...)` of a new object */
    method AppendObject(d: nat, name: seq<byte>, ext: seq<byte>, p: Place)
      requires fat.Valid() && Formed(State()) && d < |tree| && First(p) < |fat.next|
      modifies this`tree, this`place
      ensures fat.Valid() && State() == AddObject(old(State()), d, name, ext, p)
    {
      var node := TNode(name, ext, p.DirPlace?, []);
      tree := tree[d := tree[d].(entities := tree[d].entities + [|tree|])] + [node];
      place := place + [p];
    }

    /** `new_file` */
    method NewFile(name: seq<byte>, ext: seq<byte>, path: seq<seq<byte>>, isEmpty: bool, stamp: Stamp)
      returns (r: Result<()>)
      requires Valid() && stamp.Fits() && |BuildName(name, ext)| <= 255
      modifies this`tree, this`place, this`taken, fat, fat.boot.image
      ensures fat.Valid() && fat.boot.Others() == old(fat.boot.Others())
      ensures Runnable(old(State()))
      ensures match FileSystem.NewFile(old(State()), name, ext, path, isEmpty, stamp)
        case Err(e) => r == Err(e)
        case Ok(t) => r == Ok(()) && State() == t
    {
      hide BootSectorState.Contents, BootSectorState.Others, FileSystem.AllocateObject, AddObject, FsInv, Formed,
        Geo.Accepted;
      var a := AllocateObject(name, ext, ATTR_ARCHIVE, path, isEmpty, stamp);
      if a.Err? {
        return Err(a.error);
      }
      var (first, slot, d) := a.value;
      NextPositive(State());
      AppendObject(d, name, ext, FilePlace(slot, first));
      return Ok(());
    }

    /** `create_entries` for one cluster */
    method ListEntries(c: nat) returns (entries: seq<Slot>)
      requires fat.Valid() && 1 <= c < fat.boot.geo.Clusters()
      ensures entries == CreateEntries(fat.State().vol.area, c)
    {
      var area := fat.boot.ReadArea(c);
      entries := seq(|area| / 32, i requires i >= 0 => Slot(c, i));
    }

    /** `init_directory` of a directory other than the root */
    method InitDirectory(n: nat, head: nat, parentHead: nat, ghost o: seq<nat>, ghost l: seq<seq<Record>>)
      returns (r: Result<()>)
      requires fat.Valid() && CoreInv(State(), o, l) && IsDirectory(State(), n) && head < 0x1_0000
        && parentHead < 0x1_0000
      modifies this`place, this`taken, fat, fat.boot.image
      ensures fat.Valid() && fat.boot.Others() == old(fat.boot.Others())
      ensures Formed(old(State()))
      ensures match FileSystem.InitDirectory(old(State()), n, head, parentHead)
        case Err(e) => r == Err(e)
        case Ok(t) => r == Ok(()) && State() == t
    {
      hide BootSectorState.Contents, BootSectorState.Others, Formed, Geo.Accepted, CoreInv, FileSystem.PlaceRecords,
        DotRecord, Mask;
      LogCount(State(), o, l);
      var dot := DotRecord(longNames, [DOT], head);
      if dot.Err? {
        return Err(dot.error);
      }
      var dotDot := DotRecord(longNames, [DOT, DOT], parentHead);
      if dotDot.Err? {
        return Err(dotDot.error);
      }
      DotMask(longNames, [DOT], head);
      DotMask(longNames, [DOT, DOT], parentHead);
      ghost var s := State();
      NoEntry(s, n);
      var entry := ObtainEntry(n);
      if entry.Err? {
        return Err(entry.error);
      }
      ObtainedAgain(s, n);
      ghost var owner1 := ObtainKeeps(s, o, l, n);
      LogCount(State(), owner1, l);
      var placed := PlaceRecords(n, entry.value, [dot.value, dotDot.value], owner1, l);
      if placed.Err? {
        return Err(placed.error);
      }
      return Ok(());
    }

    /** `new_directory` */
    method NewDirectory(name: seq<byte>, path: seq<seq<byte>>, stamp: Stamp) returns (r: Result<()>)
      requires Valid() && stamp.Fits() && |name| <= 255
      modifies this`tree, this`place, this`taken, fat, fat.boot.image
      ensures fat.Valid() && fat.boot.Others() == old(fat.boot.Others())
      ensures Runnable(old(State()))
      ensures match FileSystem.NewDirectory(old(State()), name, path, stamp)
        case Err(e) => r == Err(e)
        case Ok(t) => r == Ok(()) && State() == t
    {
      hide BootSectorState.Contents, BootSectorState.Others, FileSystem.AllocateObject, AddObject, Formed, Geo.Accepted,
        Base, TakenOk, Objects, LogInv, AllHeld, ShortNames, FileSystem.InitDirectory, Placed, CreateEntries,
        FileSystem.NewDirectory, Search;
      ghost var s := State();
      LogCount(s, owner, logs);
      RunnableInv(s, owner, logs, true);
      FormedTree(s);
      DirectoryStages(s, name, path, stamp);
      if path != [] {
        var parent := RecursiveSearch(path, 0);
        if parent.Err? {
          return Err(parent.error);
        }
      }
      var a := AllocateObject(name, [], ATTR_DIRECTORY, path, false, stamp);
      if a.Err? {
        return Err(a.error);
      }
      var (first, slot, d) := a.value;
      ghost var t := State();
      ghost var owner2, logs2 := NewDirectoryReady(s, owner, logs, name, path, stamp);
      var entries := ListEntries(first.value);
      var parentHead := place[d].head;
      AppendObject(d, name, [], DirPlace(first.value, entries));
      r := InitDirectory(|tree| - 1, first.value, parentHead, owner2, logs2);
    }

    /** `update_content_size` */
    method UpdateSize(slot: Slot, size: nat)
      requires fat.Valid() && ValidSlot(State().fs.vol.area, slot) && slot.cluster >= 1 && size < 0x1_0000_0000
      requires Parses(SlotRecord(State().fs.vol.area, slot))
      modifies fat.boot.image
      ensures fat.Valid() && fat.boot.Others() == old(fat.boot.Others())
      ensures fat.State()
        == SetRecord(old(fat.State()), slot, WithSize(SlotRecord(old(fat.State()).vol.area, slot), size))
    {
      hide BootSectorState.Others, Geo.Accepted, Geo.Clusters;
      AreaSize(fat.boot, slot.cluster);
      var area := fat.boot.ReadArea(slot.cluster);
      var record: Record := area[32 * slot.index..32 * slot.index + 32];
      UpdateContentSize(record, size);
      var updated := BuildEntry(ParseEntry(record).value.(size := size));
      fat.boot.WriteArea(slot.cluster, 32 * slot.index, updated);
    }

    /** The loop of `File.write` */
    method WriteParts(first: Option<nat>, parts: seq<seq<byte>>) returns (r: Result<()>)
      requires fat.Valid()
      requires first.Some? ==> first.value >= 1 && FatChains.WriteParts(fat.State(), first, parts).Ok?
      requires forall c :: 0 <= c < |fat.next| && fat.next[c].Some? ==> fat.next[c].value >= 1
      modifies fat.boot.image
      ensures fat.Valid() && fat.boot.Others() == old(fat.boot.Others())
      ensures match FatChains.WriteParts(old(fat.State()), first, parts)
        case Err(e) => r == Err(e)
        case Ok(t) => r == Ok(()) && fat.State() == t
    {
      hide BootSectorState.Contents, BootSectorState.Others, FatChains.WriteParts, Geo.Accepted, Geo.Clusters,
        Geo.AreaLength;
      ghost var s0 := fat.State();
      var current := first;
      var i: nat := 0;
      assert parts[0..] == parts;
      while i < |parts|
        invariant 0 <= i <= |parts| && fat.Valid() && fat.boot.Others() == old(fat.boot.Others())
        invariant fat.State().next == s0.next
        invariant FatChains.WriteParts(s0, first, parts) == FatChains.WriteParts(fat.State(), current, parts[i..])
        invariant current.Some? ==> current.value >= 1
        invariant first.Some? ==> FatChains.WriteParts(s0, first, parts).Ok?
        invariant first.None? ==> i == 0 && current.None?
      {
        PartsUnfold(fat.State(), current, parts, i);
        if current.None? {
          return Err(NoFreeSpace);
        }
        var c := current.value;
        AreaSize(fat.boot, c);
        fat.boot.WriteArea(c, 0, parts[i]);
        current := fat.next[c];
        i := i + 1;
      }
      assert parts[i..] == [];
      PartsDone(fat.State(), current);
      return Ok(());
    }

    /** `split_content_into_sectors` */
    method SplitIntoSectors(content: seq<byte>) returns (parts: seq<seq<byte>>)
      requires fat.boot.geo.sectorSize > 0
      ensures parts == SplitContent(content, fat.boot.geo.sectorSize)
    {
      var size := fat.boot.geo.sectorSize;
      var count := RequiredClusters(size, |content|);
      parts := [];
      var start: nat := 0;
      SplitCount(content, size);
      assert content[0..] == content;
      for i := 0 to count
        invariant start <= |content| && |parts| == i
        invariant SplitContent(content, size) == parts + SplitContent(content[start..], size)
        invariant |SplitContent(content[start..], size)| == count - i
      {
        SplitStep(content[start..], size);
        var end := if start + size <= |content| then start + size else |content|;
        SplitHead(content[start..], size);
        assert content[start..][..end - start] == content[start..end]
          && content[start..][end - start..] == content[end..];
        parts := parts + [content[start..end]];
        start := end;
      }
      assert SplitContent(content[start..], size) == [];
    }

    /** `write_to_file` once the file is found */
    method WriteFile(f: nat, content: seq<byte>) returns (r: Result<()>)
      requires Valid() && IsFile(State(), f)
      modifies fat, fat.boot.image
      ensures fat.Valid() && fat.boot.Others() == old(fat.boot.Others())
      ensures Runnable(old(State()))
      ensures match FileSystem.WriteFile(old(State()), f, content)
        case Err(e) => r == Err(e)
        case Ok(t) => r == Ok(()) && State() == t
    {
      hide BootSectorState.Contents, BootSectorState.Others, Geo.Accepted, Geo.Clusters, Base, TakenOk, Objects, LogInv,
        AllHeld, ShortNames, FatChains.WriteParts, FatChains.FindFreeCluster, FatChains.AllocateChain, SetRecord,
        SplitContent, RequiredClusters, SlotRecord,
        IsShort, WithSize, SizeOf, Formed, Chain;
      ghost var s := State();
      LogCount(s, owner, logs);
      RunnableInv(s, owner, logs, true);
      FileFacts(s, owner, logs, f);
      FileFirst(s, owner, logs, f);
      var FilePlace(entry, first) := place[f];
      var count := RequiredClusters(fat.boot.geo.sectorSize, |content|);
      ghost var owner2 := owner;
      if first.Some? {
        var chained := fat.AllocateChain(first.value, count);
        if chained.Err? {
          return Err(chained.error);
        }
        owner2 := ChainStage(s, owner, logs, f, count);
      } else if count > 1 {
        var free := fat.FindFreeCluster();
        return Err(if free.Ok? then NoFirstCluster else free.error);
      }
      if |content| >= 0x1_0000_0000 {
        return Err(TooLarge);
      }
      ghost var s1 := State();
      FileFacts(s1, owner2, logs, f);
      FileParses(s, s1, owner2, logs, f);
      UpdateSize(entry, |content|);
      ghost var s2 := State();
      NextIsData(s1, owner2, logs);
      SectorSizeKept(s1.fs, entry, WithSize(SlotRecord(s1.fs.vol.area, entry), |content|));
      if first.Some? {
        SizeStage(s1, owner2, logs, f, |content|);
        PartsStage(s2, owner2, logs, f, content);
      }
      var parts := SplitIntoSectors(content);
      SplitParts(content, fat.boot.geo.sectorSize);
      r := WriteParts(first, parts);
    }

    // ---- the decorated public operations ----

    /** `create_file` */
    method CreateFile(name: seq<byte>, ext: seq<byte>, path: seq<seq<byte>>, isEmpty: bool, stamp: Stamp)
      returns (r: Result<()>)
      requires Valid() && Op.CreateFile(name, ext, path, isEmpty, stamp).Proper()
      modifies this, fat, fat.boot.image
      ensures fat.Valid() && Runnable(old(State()))
      ensures match Step(old(State()), Op.CreateFile(name, ext, path, isEmpty, stamp))
        case Err(e) => r == Err(e)
        case Ok(t) => r == Ok(()) && Valid() && State() == t && Mirrored(fat.boot.geo, fat.boot.image[..])
      ensures r.Ok? ==> Created(old(Alpha(State())), Alpha(State()), path, TNode(name, ext, false, []))
      ensures BootSectorOf(fat.boot.geo, fat.boot.image[..]) == old(BootSectorOf(fat.boot.geo, fat.boot.image[..]))
    {
      hide BootSectorState.Contents, FsInv, Geo.Accepted, Formed, Mirrored, BootSectorOf, Alpha, Created;
      ghost var s := State();
      RunnableInv(s, owner, logs, true);
      ghost var img := fat.boot.image[..];
      r := NewFile(name, ext, path, isEmpty, stamp);
      BootSectorKept(fat.boot.geo, img, fat.boot.image[..]);
      if r.Ok? {
        Conclude(s, Op.CreateFile(name, ext, path, isEmpty, stamp));
      }
    }

    /** `create_directory` */
    method CreateDirectory(name: seq<byte>, path: seq<seq<byte>>, stamp: Stamp) returns (r: Result<()>)
      requires Valid() && Op.CreateDirectory(name, path, stamp).Proper()
      modifies this, fat, fat.boot.image
      ensures fat.Valid() && Runnable(old(State()))
      ensures match Step(old(State()), Op.CreateDirectory(name, path, stamp))
        case Err(e) => r == Err(e)
        case Ok(t) => r == Ok(()) && Valid() && State() == t && Mirrored(fat.boot.geo, fat.boot.image[..])
      ensures r.Ok? ==> Created(old(Alpha(State())), Alpha(State()), path, TNode(name, [], true, []))
      ensures BootSectorOf(fat.boot.geo, fat.boot.image[..]) == old(BootSectorOf(fat.boot.geo, fat.boot.image[..]))
    {
      hide BootSectorState.Contents, FsInv, Geo.Accepted, Formed, Mirrored, BootSectorOf, Alpha, Created;
      ghost var s := State();
      RunnableInv(s, owner, logs, true);
      ghost var img := fat.boot.image[..];
      r := NewDirectory(name, path, stamp);
      BootSectorKept(fat.boot.geo, img, fat.boot.image[..]);
      if r.Ok? {
        Conclude(s, Op.CreateDirectory(name, path, stamp));
      }
    }

    /** `write_content` */
    method WriteContent(path: seq<seq<byte>>, content: seq<byte>) returns (r: Result<()>)
      requires Valid()
      modifies this, fat, fat.boot.image
      ensures fat.Valid() && Runnable(old(State()))
      ensures match Step(old(State()), Op.WriteContent(path, content))
        case Err(e) => r == Err(e)
        case Ok(t) => r == Ok(()) && Valid() && State() == t && Mirrored(fat.boot.geo, fat.boot.image[..])
      ensures r.Ok? ==> Rewritten(old(Alpha(State())), Alpha(State()), path, content)
      ensures BootSectorOf(fat.boot.geo, fat.boot.image[..]) == old(BootSectorOf(fat.boot.geo, fat.boot.image[..]))
    {
      hide BootSectorState.Contents, FsInv, Geo.Accepted, FileSystem.WriteFile, Search, Mirrored, BootSectorOf, Alpha,
        Rewritten, LeadsFrom;
      ghost var s := State();
      RunnableInv(s, owner, logs, true);
      ghost var img := fat.boot.image[..];
      var f := RecursiveSearch(path, 0);
      if f.Err? {
        return Err(f.error);
      }
      if tree[f.value].isDir {
        return Err(NotAFile);
      }
      r := WriteFile(f.value, content);
      BootSectorKept(fat.boot.geo, img, fat.boot.image[..]);
      if r.Ok? {
        Conclude(s, Op.WriteContent(path, content));
      }
    }

    /** The operation that began in state `s` was a step; the decorator runs. */
    method Conclude(ghost s: FsState, ghost op: Op)
      requires fat.Valid() && FsInv(s, owner, logs, true) && op.Proper() && Runnable(s)
      requires Step(s, op) == Ok(State())
      modifies this`owner, this`logs, fat.boot.image
      ensures Valid() && State() == old(State()) && Mirrored(fat.boot.geo, fat.boot.image[..])
      ensures !op.WriteContent? ==> Created(Alpha(s), Alpha(State()), op.path, NodeOf(op))
      ensures op.WriteContent? ==> Rewritten(Alpha(s), Alpha(State()), op.path, op.content)
      ensures BootSectorOf(fat.boot.geo, fat.boot.image[..]) == old(BootSectorOf(fat.boot.geo, fat.boot.image[..]))
    {
      hide FsInv, BootSectorState.Contents, Step, Geo.Accepted, Formed, Mirrored, BootSectorOf, Alpha, IdealStep,
        Created, Rewritten;
      owner, logs := StepKeeps(s, owner, logs, true, op);
      StepMeans(Alpha(s), op, Alpha(State()));
      Finish();
    }

    /** What the decorator does after an operation that returned. */
    method Finish()
      requires Valid()
      modifies fat.boot.image
      ensures Valid() && State() == old(State()) && Mirrored(fat.boot.geo, fat.boot.image[..])
      ensures BootSectorOf(fat.boot.geo, fat.boot.image[..]) == old(BootSectorOf(fat.boot.geo, fat.boot.image[..]))
    {
      hide FsInv, BootSectorState.Contents;
      ghost var before := fat.State();
      fat.boot.DuplicateFat();
      assert fat.State() == before;
    }

    /** The reader's part of `traverse_folder_tree` for one file. */
    method ReadBack(f: nat) returns (content: seq<byte>)
      requires Valid() && IsFile(State(), f)
      ensures Formed(State()) && content == Alpha(State()).contents[f]
    {
      hide BootSectorState.Contents, Geo.Accepted, Geo.Clusters, LogInv, AllHeld, ShortNames, DirOk, Chain, Concat;
      ghost var s := State();
      LogCount(s, owner, logs);
      FileFacts(s, owner, logs, f);
      var entry := place[f].entry;
      var area := fat.boot.ReadArea(entry.cluster);
      var record: Record := area[32 * entry.index..32 * entry.index + 32];
      content := [];
      if SizeOf(record) > 0 {
        InvChainEnds(s.fs, ClusterOf(record));
        content := fat.GetChainedContent(ClusterOf(record), Some(SizeOf(record)));
      }
    }
  }

  /** The bytes before the first FAT. */
  function BootSectorOf(g: Geo, img: seq<byte>): seq<byte>
    requires Sized(g, img)
  {
    Layout(g);
    img[..g.FatStart()]
  }

  lemma BootSectorKept(g: Geo, img: seq<byte>, now: seq<byte>)
    requires Sized(g, img) && Sized(g, now) && Rest(g, now) == Rest(g, img)
    ensures BootSectorOf(g, now) == BootSectorOf(g, img)
  {
    Layout(g);
    assert BootSectorOf(g, now) == Rest(g, now)[..g.FatStart()];
    assert BootSectorOf(g, img) == Rest(g, img)[..g.FatStart()];
  }

  lemma {:induction false} SplitHead(content: seq<byte>, size: nat)
    requires size > 0 && content != []
    ensures SplitContent(content, size) != []
    ensures |SplitContent(content, size)[0]| == if size <= |content| then size else |content|
  {
  }

  lemma NextIsData(s: FsState, owner: seq<nat>, logs: seq<seq<Record>>)
    requires CoreInv(s, owner, logs)
    ensures forall c :: 0 <= c < |s.fs.next| && s.fs.next[c].Some? ==> s.fs.next[c].value >= 1
    ensures forall e, r :: SetRecord(s.fs, e, r).next == s.fs.next
  {
    forall c | 0 <= c < |s.fs.next| && s.fs.next[c].Some?
      ensures s.fs.next[c].value >= 1
    {
      assert Linked(s.fs, c);
    }
  }

  lemma PartsUnfold(s: FatState, current: Option<nat>, parts: seq<seq<byte>>, i: nat)
    requires Shaped(s) && i < |parts|
    ensures current.None? ==> FatChains.WriteParts(s, current, parts[i..]) == Err(NoFreeSpace)
    ensures FatChains.WriteParts(s, current, parts[i..]).Ok? ==>
      && current.Some? && current.value < |s.next| && |parts[i]| <= |s.vol.area[current.value]|
      && var c := current.value;
         var t := s.(vol := s.vol.(area := s.vol.area[c := Splice(s.vol.area[c], 0, parts[i])]));
         Shaped(t) && FatChains.WriteParts(s, current, parts[i..]) == FatChains.WriteParts(t, s.next[c], parts[i + 1..])
  {
    assert parts[i..][0] == parts[i] && parts[i..][1..] == parts[i + 1..];
  }

  lemma {:induction false} PartsDone(s: FatState, current: Option<nat>)
    requires Shaped(s)
    ensures FatChains.WriteParts(s, current, []) == Ok(s)
  {
  }

  lemma NextPositive(s: FsState)
    requires Formed(s)
    ensures |s.fs.next| > 0
  {
    assert First(s.place[0]) < |s.fs.next|;
  }

  /** While clusters are allocated for it, the record of a file parses. */
  lemma FileParses(s: FsState, s1: FsState, owner2: seq<nat>, logs: seq<seq<Record>>, f: nat)
    requires Formed(s) && |logs| == |s.tree| && LogInv(s, logs, true) && AllHeld(s.tree)
    requires CoreInv(s1, owner2, logs) && s1 == s.(fs := s1.fs) && IsFile(s1, f)
    ensures Parses(SlotRecord(s1.fs.vol.area, s1.place[f].entry))
  {
    hide LogOk, AllHeld, ShortNames, Parses, SlotRecord, CoreInv;
    LogCount(s1, owner2, logs);
    FileRecordParses(s1, owner2, logs, true, f);
  }

  lemma FormedTree(s: FsState)
    requires Formed(s)
    ensures TreeOk(s.tree)
  {
  }

  /** An entry that is there without growth is the first unused slot. */
  lemma ObtainKept(s: FsState, owner: seq<nat>, logs: seq<seq<Record>>, d: nat)
    requires CoreInv(s, owner, logs) && Formed(s) && IsDirectory(s, d) && FileSystem.ObtainEntry(s, d).Ok?
    requires FileSystem.ObtainEntry(s, d).value.0 == s
    ensures d < |logs| && |logs[d]| < |s.place[d].entries|
    ensures var slot := FileSystem.ObtainEntry(s, d).value.1;
      && slot == s.place[d].entries[|logs[d]|]
      && ValidSlot(s.fs.vol.area, slot) && slot.cluster >= 1
  {
    hide CoreInv, FileSystem.ObtainEntry;
    LogCount(s, owner, logs);
    var owner2 := ObtainKeeps(s, owner, logs, d);
    FreeEntry(s, owner, logs, d);
  }

  lemma {:induction false} PlaceUnfold(s: FsState, d: nat, recs: seq<Record>, i: nat)
    requires Formed(s) && IsDirectory(s, d) && i < |recs|
    ensures FileSystem.ObtainEntry(s, d).Err? ==>
      FileSystem.PlaceRecords(s, d, recs[i..]) == Err(FileSystem.ObtainEntry(s, d).error)
    ensures FileSystem.ObtainEntry(s, d).Ok? ==>
      var p := FileSystem.ObtainEntry(s, d).value;
      var u := FileSystem.AllocateEntry(p.0, p.1, recs[i]);
      && Formed(u) && IsDirectory(u, d)
      && (i + 1 == |recs| ==> FileSystem.PlaceRecords(s, d, recs[i..]) == Ok((u, p.1)))
      && (i + 1 < |recs| ==> FileSystem.PlaceRecords(s, d, recs[i..]) == FileSystem.PlaceRecords(u, d, recs[i + 1..]))
  {
    assert recs[i..][1..] == recs[i + 1..];
  }

  lemma AreaSize(b: BootSectorState, c: nat)
    requires b.Valid() && 1 <= c < b.geo.Clusters()
    ensures |b.Contents().area[c]| == b.geo.AreaLength(c)
  {
  }

  lemma ExtendUnfold(s: FsState, d: nat)
    requires Formed(s) && IsDirectory(s, d)
    ensures s.place[d].head < |s.fs.next|
    ensures d == 0 ==> FileSystem.ExtendDirectory(s, d) == Err(RootFull)
    ensures d != 0 ==> match FatChains.FindFreeCluster(s.fs)
      case Err(e) => FileSystem.ExtendDirectory(s, d) == Err(e)
      case Ok((t, id)) =>
        var last := LastCluster(s.fs.next, s.place[d].head);
        && last < |t.vol.fat| == |t.next| == |s.fs.next| && 1 <= id < |t.next|
        && Link(t, last, id).vol.area == t.vol.area
        && FileSystem.ExtendDirectory(s, d) == Ok(s.(fs := Link(t, last, id),
             place := s.place[d := s.place[d].(entries := s.place[d].entries + CreateEntries(t.vol.area, id))]))
  {
    assert s.tree[d].isDir;
    assert First(s.place[d]) == s.place[d].head;
  }

  lemma HeaderKept(g: Geo, header: seq<byte>, img: seq<byte>, now: seq<byte>)
    requires g.Accepted() && |header| == 512 && img == EmptyImage(g, header)
    requires Sized(g, now) && Rest(g, now) == Rest(g, img)
    ensures |now| >= 512 && now[..512] == header
  {
    Layout(g);
    assert now[..512] == Rest(g, now)[..512];
    assert img[..512] == Rest(g, img)[..512];
  }
}
