/** Files and directories on the volume: `fatfs_utils/fs_object.py` and the public operations of
    `fatfsgen.py`, on the abstract volume. */
module FileSystem {
  import opened Bytes
  import opened Outcome
  import opened FatChains
  import opened DirectoryRecords
  import opened LongNames
  import opened NameTree

  /** An Entry object: number `index` in the directory cluster `cluster`. */
  datatype Slot = Slot(cluster: nat, index: nat)

  /** Where the object with the same id in the name tree lives: its own entry and first cluster,
      and for a directory the list `entries`. */
  datatype Place =
    | FilePlace(entry: Slot, first: Option<nat>)
    | DirPlace(head: nat, entries: seq<Slot>)

  /** `taken` holds the entries whose `_is_empty` flag is off. */
  datatype FsState = FsState(
    fs: FatState,
    longNames: bool,
    tree: seq<TNode>,
    place: seq<Place>,
    taken: set<Slot>)

  // ---- records in slots ----

  predicate ValidSlot(area: seq<seq<byte>>, slot: Slot) {
    slot.cluster < |area| && 32 * slot.index + 32 <= |area[slot.cluster]|
  }

  function SlotRecord(area: seq<seq<byte>>, slot: Slot): Record {
    if ValidSlot(area, slot) then area[slot.cluster][32 * slot.index..32 * slot.index + 32] else Zeros(32)
  }

  function WithRecord(area: seq<seq<byte>>, slot: Slot, r: Record): (a: seq<seq<byte>>)
    ensures |a| == |area|
    ensures forall c :: 0 <= c < |area| ==> |a[c]| == |area[c]|
  {
    if ValidSlot(area, slot) then area[slot.cluster := Splice(area[slot.cluster], 32 * slot.index, r)] else area
  }

  function SetRecord(fs: FatState, slot: Slot, r: Record): FatState {
    fs.(vol := fs.vol.(area := WithRecord(fs.vol.area, slot, r)))
  }

  /** `create_entries` for one cluster of the directory */
  function CreateEntries(area: seq<seq<byte>>, c: nat): (e: seq<Slot>)
    ensures |e| == |AreaOf(area, c)| / 32
    ensures forall i :: 0 <= i < |e| ==> e[i] == Slot(c, i)
  {
    seq(|AreaOf(area, c)| / 32, i requires i >= 0 => Slot(c, i))
  }

  // ---- the Directory methods ----

  /** `find_free_entry` */
  function FindFreeEntry(entries: seq<Slot>, taken: set<Slot>): (r: Option<Slot>)
    ensures r.Some? ==> r.value in entries && r.value !in taken
  {
    if entries == [] then None
    else if entries[0] !in taken then Some(entries[0])
    else FindFreeEntry(entries[1..], taken)
  }

  /** The walk of `_extend_directory` to the last in-memory cluster. */
  function LastCluster(next: seq<Option<nat>>, c: nat): (r: nat)
    ensures c < |next| ==> r < |next|
    decreases |next| - c
  {
    if c < |next| && next[c].Some? && c < next[c].value < |next| then LastCluster(next, next[c].value) else c
  }

  predicate Formed(s: FsState) {
    && Shaped(s.fs) && TreeOk(s.tree) && |s.place| == |s.tree|
    && (forall i :: 0 <= i < |s.tree| ==> (s.place[i].DirPlace? <==> s.tree[i].isDir))
    && (forall i :: 0 <= i < |s.tree| ==> First(s.place[i]) < |s.fs.next|)
  }

  /** The first cluster of an object; 0 for a file without one. */
  function First(p: Place): nat {
    match p
    case DirPlace(head, _) => head
    case FilePlace(_, first) => if first.Some? then first.value else 0
  }

  /** Every operation keeps the geometry and the mode. */
  predicate SameVolume(s: FsState, t: FsState) {
    t.longNames == s.longNames && |t.fs.next| == |s.fs.next| && t.fs.sectorSize == s.fs.sectorSize
  }

  /** What the operations on entries keep. */
  predicate Kept(s: FsState, t: FsState) {
    t.tree == s.tree && SameVolume(s, t)
  }

  predicate IsDirectory(s: FsState, d: nat) {
    d < |s.place| && s.place[d].DirPlace?
  }

  /** `_extend_directory`. The root directory does not grow in this model. */
  function ExtendDirectory(s: FsState, d: nat): (r: Result<FsState>)
    requires Formed(s) && IsDirectory(s, d)
    ensures r.Ok? ==> Formed(r.value) && IsDirectory(r.value, d) && Kept(s, r.value)
  {
    if d == 0 then Err(RootFull)
    else
      var (t, id) :- FindFreeCluster(s.fs);
      var last := LastCluster(s.fs.next, s.place[d].head);
      var grown := s.place[d].(entries := s.place[d].entries + CreateEntries(t.vol.area, id));
      Ok(s.(fs := Link(t, last, id), place := s.place[d := grown]))
  }

  /** `find_free_entry() or chain_directory()` */
  function ObtainEntry(s: FsState, d: nat): (r: Result<(FsState, Slot)>)
    requires Formed(s) && IsDirectory(s, d)
    ensures r.Ok? ==> Formed(r.value.0) && IsDirectory(r.value.0, d) && Kept(s, r.value.0)
  {
    match FindFreeEntry(s.place[d].entries, s.taken)
    case Some(slot) => Ok((s, slot))
    case None =>
      var t :- ExtendDirectory(s, d);
      match FindFreeEntry(t.place[d].entries, t.taken)
      case Some(slot) => Ok((t, slot))
      case None => Err(NoFreeSpace)
  }

  /** The image part of `allocate_entry` */
  function AllocateEntry(s: FsState, slot: Slot, r: Record): FsState {
    s.(fs := SetRecord(s.fs, slot, r), taken := s.taken + {slot})
  }

  /** Records written one after another into free entries; the last entry is the object's own. */
  function PlaceRecords(s: FsState, d: nat, recs: seq<Record>): (r: Result<(FsState, Slot)>)
    requires Formed(s) && IsDirectory(s, d) && recs != []
    ensures r.Ok? ==> Formed(r.value.0) && IsDirectory(r.value.0, d) && Kept(s, r.value.0)
    decreases |recs|
  {
    var (t, slot) :- ObtainEntry(s, d);
    var u := AllocateEntry(t, slot, recs[0]);
    if |recs| == 1 then Ok((u, slot)) else PlaceRecords(u, d, recs[1..])
  }

  /** An entry that was obtained is obtained again as long as nothing is written to it. */
  lemma {:induction false} ObtainedAgain(s: FsState, d: nat)
    requires Formed(s) && IsDirectory(s, d) && ObtainEntry(s, d).Ok?
    ensures var (t, slot) := ObtainEntry(s, d).value;
      && ObtainEntry(t, d) == Ok((t, slot))
      && forall recs :: recs != [] ==> PlaceRecords(t, d, recs) == PlaceRecords(s, d, recs)
  {
    hide ExtendDirectory, FindFreeEntry, AllocateEntry, Formed;
  }

  lemma {:induction false} NoEntry(s: FsState, d: nat)
    requires Formed(s) && IsDirectory(s, d)
    ensures ObtainEntry(s, d).Err? ==>
      forall recs :: recs != [] ==> PlaceRecords(s, d, recs) == Err(ObtainEntry(s, d).error)
  {
    hide ObtainEntry, AllocateEntry, Formed;
  }

  /** `build_lfn_unique_entry_name_order` without the limit check */
  function CountPrefix(tree: seq<TNode>, entities: seq<nat>, name: seq<byte>): nat
    requires Ids(tree, entities)
  {
    if entities == [] then 0
    else
      assert entities[0] in entities;
      assert forall x :: x in entities[1..] ==> x in entities;
      (if Clip(tree[entities[0]].name, 0, 6) == Clip(name, 0, 6) then 1 else 0)
        + CountPrefix(tree, entities[1..], name)
  }

  /** The records of a new object: one short record, or the long records and their alias. */
  function EntryRecords(longNames: bool, siblings: nat, name: seq<byte>, ext: seq<byte>, attr: byte,
                        cluster: nat, stamp: Stamp): (r: Result<seq<Record>>)
    requires stamp.Fits() && cluster < 0x1_0000 && |BuildName(name, ext)| <= 255
    ensures r.Ok? ==> r.value != []
  {
    if !longNames || IsValidSfn(name, ext) then
      var short :- ShortRecord(longNames, name, ext, attr, cluster, stamp, true, false);
      Ok([short])
    else if siblings + 1 > MAXIMAL_FILES_SAME_PREFIX then Err(NoFreeCluster)
    else
      var aliasName, aliasExt := AliasName(name, siblings + 1), AliasExt(ext);
      var short :- ShortRecord(longNames, aliasName, aliasExt, attr, cluster, stamp, false, true);
      Ok(LongRecords(BuildName(name, ext), Checksum(aliasName + aliasExt)) + [short])
  }

  /** `allocate_object`. The first entry is obtained before the name is looked at. */
  function AllocateObject(s: FsState, name: seq<byte>, ext: seq<byte>, attr: byte, path: seq<seq<byte>>,
                          isEmpty: bool, stamp: Stamp): (r: Result<(FsState, Option<nat>, Slot, nat)>)
    requires Formed(s) && |s.fs.next| <= 0x1_0000 && stamp.Fits() && |BuildName(name, ext)| <= 255
    ensures r.Ok? ==> Formed(r.value.0) && IsDirectory(r.value.0, r.value.3) && Kept(s, r.value.0)
    ensures r.Ok? ==> Target(s.tree, path) == Ok(r.value.3)
    ensures r.Ok? && r.value.1.Some? ==> r.value.1.value < |s.fs.next|
    ensures r.Ok? && !isEmpty ==> r.value.1.Some?
  {
    var (fs1, first) :- if isEmpty then Ok((s.fs, None))
      else match FindFreeCluster(s.fs) case Ok((t, id)) => Ok((t, Some(id))) case Err(e) => Err(e);
    var s1 := s.(fs := fs1);
    var d :- Target(s.tree, path);
    var (entered, entry) :- ObtainEntry(s1, d);
    var cluster := if first.Some? then first.value else 0;
    var recs :- EntryRecords(s.longNames, CountPrefix(s.tree, s.tree[d].entities, name), name, ext, attr,
                             cluster, stamp);
    var (t, slot) :- PlaceRecords(entered, d, recs);
    Ok((t, first, slot, d))
  }

  /** `allocate_object` stage by stage; the records are placed as from the state before the entry
      was obtained. */
  lemma {:induction false} AllocateStages(s: FsState, name: seq<byte>, ext: seq<byte>, attr: byte, path: seq<seq<byte>>,
                                          isEmpty: bool, stamp: Stamp)
    requires Formed(s) && |s.fs.next| <= 0x1_0000 && stamp.Fits() && |BuildName(name, ext)| <= 255
    ensures var r := AllocateObject(s, name, ext, attr, path, isEmpty, stamp);
      var f, target := FindFreeCluster(s.fs), Target(s.tree, path);
      && (!isEmpty && f.Err? ==> r == Err(f.error))
      && ((isEmpty || f.Ok?) && target.Err? ==> r == Err(target.error))
      && ((isEmpty || f.Ok?) && target.Ok? ==>
           var d, s1 := target.value, if isEmpty then s else s.(fs := f.value.0);
           var first := if isEmpty then None else Some(f.value.1);
           var cluster := if isEmpty then 0 else f.value.1;
           && Formed(s1) && IsDirectory(s1, d) && Ids(s.tree, s.tree[d].entities) && cluster < 0x1_0000
           && var entry := ObtainEntry(s1, d);
              var recs := EntryRecords(s.longNames, CountPrefix(s.tree, s.tree[d].entities, name), name, ext, attr,
                                       cluster, stamp);
              && (entry.Err? ==> r == Err(entry.error))
              && (entry.Ok? && recs.Err? ==> r == Err(recs.error))
              && (recs.Ok? ==> r == match PlaceRecords(s1, d, recs.value)
                                    case Err(e) => Err(e)
                                    case Ok((t, slot)) => Ok((t, first, slot, d))))
  {
    hide PlaceRecords, ObtainEntry, EntryRecords, CountPrefix, Search;
    if (isEmpty || FindFreeCluster(s.fs).Ok?) && Target(s.tree, path).Ok? {
      var d := Target(s.tree, path).value;
      var s1 := if isEmpty then s else s.(fs := FindFreeCluster(s.fs).value.0);
      NoEntry(s1, d);
      if ObtainEntry(s1, d).Ok? {
        ObtainedAgain(s1, d);
      }
    }
  }

  /** The new object becomes the last entity of its directory. */
  function AddObject(s: FsState, d: nat, name: seq<byte>, ext: seq<byte>, p: Place): (t: FsState)
    requires Formed(s) && d < |s.tree| && First(p) < |s.fs.next|
    ensures Formed(t) && |t.tree| == |s.tree| + 1 && t.fs == s.fs && t.longNames == s.longNames
    ensures t.place == s.place + [p]
  {
    var node := TNode(name, ext, p.DirPlace?, []);
    AddNodeOk(s.tree, d, node);
    s.(tree := AddNode(s.tree, d, node), place := s.place + [p])
  }

  /** `new_file` */
  function NewFile(s: FsState, name: seq<byte>, ext: seq<byte>, path: seq<seq<byte>>, isEmpty: bool,
                   stamp: Stamp): (r: Result<FsState>)
    requires Formed(s) && |s.fs.next| <= 0x1_0000 && stamp.Fits() && |BuildName(name, ext)| <= 255
    ensures r.Ok? ==> Formed(r.value) && SameVolume(s, r.value)
  {
    var (t, first, slot, d) :- AllocateObject(s, name, ext, ATTR_ARCHIVE, path, isEmpty, stamp);
    Ok(AddObject(t, d, name, ext, FilePlace(slot, first)))
  }

  /** The record of `.` or `..` */
  function DotRecord(longNames: bool, name: seq<byte>, cluster: nat): (r: Result<Record>)
    requires cluster < 0x1_0000
  {
    ShortRecord(longNames, name, [], ATTR_DIRECTORY, cluster, DEFAULT_STAMP, false, false)
  }

  /** `create_directory` with `new_directory`: the parent is looked for before anything is allocated. */
  function NewDirectory(s: FsState, name: seq<byte>, path: seq<seq<byte>>, stamp: Stamp): (r: Result<FsState>)
    requires Formed(s) && |s.fs.next| <= 0x1_0000 && stamp.Fits() && |name| <= 255
    ensures r.Ok? ==> Formed(r.value) && SameVolume(s, r.value)
  {
    var parent :- if path == [] then Ok(0) else Search(s.tree, path, 0);
    var (t, first, slot, d) :- AllocateObject(s, name, [], ATTR_DIRECTORY, path, false, stamp);
    var p := DirPlace(first.value, CreateEntries(t.fs.vol.area, first.value));
    InitDirectory(AddObject(t, d, name, [], p), |t.tree|, first.value, t.place[d].head)
  }

  /** `init_directory` of a directory that is not the root: its links to itself and its parent. */
  function InitDirectory(s: FsState, n: nat, head: nat, parentHead: nat): (r: Result<FsState>)
    requires Formed(s) && IsDirectory(s, n) && head < 0x1_0000 && parentHead < 0x1_0000
    ensures r.Ok? ==> Formed(r.value) && Kept(s, r.value)
  {
    var dot :- DotRecord(s.longNames, [DOT], head);
    var dotDot :- DotRecord(s.longNames, [DOT, DOT], parentHead);
    var (v, _) :- PlaceRecords(s, n, [dot, dotDot]);
    Ok(v)
  }

  /** `create_directory` stage by stage. */
  lemma {:induction false} DirectoryStages(s: FsState, name: seq<byte>, path: seq<seq<byte>>, stamp: Stamp)
    requires Formed(s) && |s.fs.next| <= 0x1_0000 && stamp.Fits() && |name| <= 255
    ensures var r := NewDirectory(s, name, path, stamp);
      var parent := if path == [] then Ok(0) else Search(s.tree, path, 0);
      var a := AllocateObject(s, name, [], ATTR_DIRECTORY, path, false, stamp);
      && (parent.Err? ==> r == Err(parent.error))
      && (parent.Ok? && a.Err? ==> r == Err(a.error))
      && (parent.Ok? && a.Ok? ==>
           var (t, first, slot, d) := a.value;
           && first.Some? && first.value < 0x1_0000 && t.place[d].head < 0x1_0000
           && var u := AddObject(t, d, name, [], DirPlace(first.value, CreateEntries(t.fs.vol.area, first.value)));
              IsDirectory(u, |t.tree|) && r == InitDirectory(u, |t.tree|, first.value, t.place[d].head))
  {
    hide AllocateObject, InitDirectory, CreateEntries, Search, TreeOk;
  }

  predicate IsFile(s: FsState, f: nat) {
    f < |s.place| && s.place[f].FilePlace?
  }

  /** `write_to_file` once the file is found: allocate the chain, record the size, write the parts.
      A size that does not fit the size field cannot be recorded. */
  function WriteFile(s: FsState, f: nat, content: seq<byte>): (r: Result<FsState>)
    requires Formed(s) && s.fs.sectorSize > 0 && IsFile(s, f)
    ensures r.Ok? ==> Formed(r.value) && SameVolume(s, r.value)
  {
    var FilePlace(entry, first) := s.place[f];
    var count := RequiredClusters(s.fs.sectorSize, |content|);
    var t :- if first.Some? then AllocateChain(s.fs, first.value, count)
      else if count <= 1 then Ok(s.fs)
      else match FindFreeCluster(s.fs) case Ok(_) => Err(NoFirstCluster) case Err(e) => Err(e);
    if |content| >= 0x1_0000_0000 then Err(TooLarge)
    else
      var u := SetRecord(t, entry, WithSize(SlotRecord(t.vol.area, entry), |content|));
      var v :- WriteParts(u, first, SplitContent(content, s.fs.sectorSize));
      Ok(s.(fs := v))
  }

  /** `write_to_file` */
  function WriteToFile(s: FsState, path: seq<seq<byte>>, content: seq<byte>): (r: Result<FsState>)
    requires Formed(s) && s.fs.sectorSize > 0
    ensures r.Ok? ==> Formed(r.value) && SameVolume(s, r.value)
  {
    var f :- Search(s.tree, path, 0);
    if s.tree[f].isDir then Err(NotAFile) else WriteFile(s, f, content)
  }

  /** The public operations of FATFS. */
  function Step(s: FsState, op: Op): (r: Result<FsState>)
    requires Formed(s) && s.fs.sectorSize > 0 && |s.fs.next| <= 0x1_0000 && op.Proper()
    ensures r.Ok? ==> Formed(r.value) && SameVolume(s, r.value)
  {
    match op
    case CreateFile(name, ext, path, isEmpty, stamp) => NewFile(s, name, ext, path, isEmpty, stamp)
    case CreateDirectory(name, path, stamp) => NewDirectory(s, name, path, stamp)
    case WriteContent(path, content) => WriteToFile(s, path, content)
  }
}
