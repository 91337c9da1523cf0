/** The listing of every directory stays the list of its entities, in order and by name. */
module ListingRuns {
  import opened Bytes
  import opened Outcome
  import opened DirectoryRecords
  import opened LongNames
  import opened NameTree
  import opened FileSystem
  import opened FileSystemRuns
  import opened DirectoryListing

  /** Creation leaves the existing objects as they are, but for the growth of directory `d`. */
  ghost predicate OldObjectsKept(tree: seq<TNode>, tree2: seq<TNode>, place: seq<Place>, place2: seq<Place>) {
    && |place| == |tree| <= |tree2| == |place2|
    && (forall e :: 0 <= e < |tree| ==>
         && tree2[e].name == tree[e].name && tree2[e].ext == tree[e].ext && tree2[e].isDir == tree[e].isDir
         && tree[e].entities <= tree2[e].entities
         && First(place2[e]) == First(place[e]) && (place2[e].FilePlace? ==> place2[e] == place[e])
         && (place[e].DirPlace? ==> place2[e].DirPlace? && place[e].entries <= place2[e].entries))
  }

  lemma {:induction false} OldListsKept(longNames: bool, support: bool, tree: seq<TNode>, tree2: seq<TNode>,
                                        place: seq<Place>, place2: seq<Place>, log: seq<Record>, more: seq<Record>,
                                        x: nat, j: nat)
    requires TreeOk(tree) && TreeOk(tree2) && OldObjectsKept(tree, tree2, place, place2)
    requires x < |tree| && place[x].DirPlace? && LogOk(longNames, support, tree, place, log, x)
    requires j < |tree[x].entities|
    ensures |Listing(log, |log|)| == Dots(x) + |tree[x].entities|
    ensures var e := tree[x].entities[j];
      && e == tree2[x].entities[j] && e in tree2[x].entities && e < |tree|
      && Lists(longNames, support, tree2[e], place2[e], log + more, place2[x].entries, Listing(log, |log|)[Dots(x) + j])
  {
    hide Listing, Lists;
    var e := tree[x].entities[j];
    var k := Listing(log, |log|)[Dots(x) + j];
    assert Lists(longNames, support, tree[e], place[e], log, place[x].entries, k);
    ListsFrame(longNames, support, tree[e], tree2[e], place[e], place2[e], log, more,
               place[x].entries, place2[x].entries, k);
  }

  lemma {:induction false} DotsKept(support: bool, log: seq<Record>, more: seq<Record>, d: nat, n: nat)
    requires |Listing(log, |log|)| == 2 + n
    requires var l := Listing(log, |log|);
      && AttrOf(log[l[0]]) == AttrOf(log[l[1]]) == ATTR_DIRECTORY
      && ObjName(log, l[0], support) == [DOT] && ObjName(log, l[1], support) == [DOT, DOT]
    ensures var l := Listing(log, |log|);
      && AttrOf((log + more)[l[0]]) == AttrOf((log + more)[l[1]]) == ATTR_DIRECTORY
      && ObjName(log + more, l[0], support) == [DOT] && ObjName(log + more, l[1], support) == [DOT, DOT]
  {
    var l := Listing(log, |log|);
    ObjNameSame(log, log + more, l[0], support);
    ObjNameSame(log, log + more, l[1], support);
  }

  /** A directory that gets nothing. */
  lemma OtherDirKept(longNames: bool, support: bool, tree: seq<TNode>, tree2: seq<TNode>, place: seq<Place>,
                     place2: seq<Place>, log: seq<Record>, x: nat)
    requires TreeOk(tree) && TreeOk(tree2) && OldObjectsKept(tree, tree2, place, place2)
    requires x < |tree| && place[x].DirPlace? && LogOk(longNames, support, tree, place, log, x)
    requires tree2[x].entities == tree[x].entities
    ensures LogOk(longNames, support, tree2, place2, log, x)
  {
    hide Listing, Lists, ObjName;
    assert log + [] == log;
    var l := Listing(log, |log|);
    forall j {:trigger tree2[x].entities[j]} | 0 <= j < |tree2[x].entities|
      ensures var e := tree2[x].entities[j];
        && e in tree2[x].entities && e < |tree2|
        && Lists(longNames, support, tree2[e], place2[e], log, place2[x].entries, l[Dots(x) + j])
    {
      OldListsKept(longNames, support, tree, tree2, place, place2, log, [], x, j);
    }
  }

  lemma {:induction false} NewEntityListed(longNames: bool, support: bool, tree: seq<TNode>, tree2: seq<TNode>,
                                           place: seq<Place>, place2: seq<Place>, log: seq<Record>, recs: seq<Record>,
                                           x: nat, j: nat)
    requires TreeOk(tree) && TreeOk(tree2) && OldObjectsKept(tree, tree2, place, place2)
    requires x < |tree| && place[x].DirPlace? && LogOk(longNames, support, tree, place, log, x)
    requires |tree2| > |tree| && tree2[x].entities == tree[x].entities + [|tree|]
    requires |Listing(log, |log|)| == Dots(x) + |tree[x].entities|
    requires Listing(log + recs, |log + recs|) == Listing(log, |log|) + [|log| + |recs| - 1]
    requires Lists(longNames, support, tree2[|tree|], place2[|tree|], log + recs, place2[x].entries, |log| + |recs| - 1)
    requires j < |tree2[x].entities|
    ensures var e := tree2[x].entities[j];
      && e in tree2[x].entities && e < |tree2|
      && Lists(longNames, support, tree2[e], place2[e], log + recs, place2[x].entries,
                  Listing(log + recs, |log + recs|)[Dots(x) + j])
  {
    hide Listing, Lists, ObjName, Shapes, Announced, IsObject;
    if j < |tree[x].entities| {
      OldListsKept(longNames, support, tree, tree2, place, place2, log, recs, x, j);
    }
  }

  lemma {:induction false} EntitiesListed(longNames: bool, support: bool, tree: seq<TNode>, tree2: seq<TNode>,
                                          place: seq<Place>, place2: seq<Place>, log: seq<Record>, recs: seq<Record>,
                                          x: nat)
    requires TreeOk(tree) && TreeOk(tree2) && OldObjectsKept(tree, tree2, place, place2)
    requires x < |tree| && place[x].DirPlace? && LogOk(longNames, support, tree, place, log, x)
    requires |tree2| > |tree| && tree2[x].entities == tree[x].entities + [|tree|]
    requires |Listing(log, |log|)| == Dots(x) + |tree[x].entities|
    requires Listing(log + recs, |log + recs|) == Listing(log, |log|) + [|log| + |recs| - 1]
    requires Lists(longNames, support, tree2[|tree|], place2[|tree|], log + recs, place2[x].entries, |log| + |recs| - 1)
    ensures forall j {:trigger tree2[x].entities[j]} :: 0 <= j < |tree2[x].entities| ==>
      var e := tree2[x].entities[j];
      && e in tree2[x].entities && e < |tree2|
      && Lists(longNames, support, tree2[e], place2[e], log + recs, place2[x].entries,
               Listing(log + recs, |log + recs|)[Dots(x) + j])
  {
    hide Listing, Lists, ObjName, LogOk;
    forall j {:trigger tree2[x].entities[j]} | 0 <= j < |tree2[x].entities|
      ensures var e := tree2[x].entities[j];
        && e in tree2[x].entities && e < |tree2|
        && Lists(longNames, support, tree2[e], place2[e], log + recs, place2[x].entries,
                 Listing(log + recs, |log + recs|)[Dots(x) + j])
    {
      NewEntityListed(longNames, support, tree, tree2, place, place2, log, recs, x, j);
    }
  }

  lemma GrownDir(tree: seq<TNode>, tree2: seq<TNode>, place: seq<Place>, place2: seq<Place>, x: nat)
    requires TreeOk(tree) && TreeOk(tree2) && OldObjectsKept(tree, tree2, place, place2) && x < |tree|
    requires place[x].DirPlace?
    ensures |place2| == |tree2| && x < |place2| && place2[x].DirPlace?
  {
  }

  /** The directory that gets the new object. */
  lemma TargetDirGrows(longNames: bool, support: bool, tree: seq<TNode>, tree2: seq<TNode>, place: seq<Place>,
                       place2: seq<Place>, log: seq<Record>, recs: seq<Record>, x: nat)
    requires TreeOk(tree) && TreeOk(tree2) && OldObjectsKept(tree, tree2, place, place2)
    requires x < |tree| && place[x].DirPlace? && LogOk(longNames, support, tree, place, log, x)
    requires |tree2| > |tree| && tree2[x].entities == tree[x].entities + [|tree|]
    requires recs != [] && IsObject(recs[|recs| - 1])
    requires forall i :: 0 <= i < |recs| - 1 ==> AttrOf(recs[i]) == ATTR_LONG_NAME
    requires NewShapes(longNames, recs)
    requires Lists(longNames, support, tree2[|tree|], place2[|tree|], log + recs, place2[x].entries, |log| + |recs| - 1)
    ensures LogOk(longNames, support, tree2, place2, log + recs, x)
  {
    hide Listing, Lists, ObjName, Shapes, Announced, IsObject, TreeOk, AttrOf, OldObjectsKept;
    GrownDir(tree, tree2, place, place2, x);
    ListingAppend(log, recs);
    ShapesAppend(longNames, log, recs);
    AnnouncedAppend(longNames, log, recs);
    if x != 0 {
      DotsKept(support, log, recs, x, |tree[x].entities|);
    }
    EntitiesListed(longNames, support, tree, tree2, place, place2, log, recs, x);
  }

  lemma AnnouncedAppend(longNames: bool, log: seq<Record>, recs: seq<Record>)
    requires Announced(log) && NewShapes(longNames, recs) && recs != [] && IsObject(recs[|recs| - 1])
    requires forall i :: 0 <= i < |recs| - 1 ==> AttrOf(recs[i]) == ATTR_LONG_NAME
    requires !longNames ==> forall r :: r in log ==> AttrOf(r) != ATTR_LONG_NAME
    ensures Announced(log + recs)
  {
    hide Shapes;
    var all := log + recs;
    forall k | 0 <= k < |all| && IsObject(all[k])
      ensures AnnouncedAt(all, k)
    {
      if k < |log| {
        assert AnnouncedAt(log, k);
        assert forall i :: 0 <= i <= k ==> all[i] == log[i];
      } else {
        assert all[k] == recs[k - |log|];
        assert k == |all| - 1;
        if |recs| > 1 {
          assert all[k - 1] == recs[|recs| - 2];
        }
      }
    }
  }

  lemma ShapesAppend(longNames: bool, log: seq<Record>, recs: seq<Record>)
    requires Shapes(log) && Shapes(recs) && recs != [] && IsObject(recs[|recs| - 1])
    requires !longNames ==> |recs| == 1 && forall r :: r in log ==> AttrOf(r) != ATTR_LONG_NAME
    ensures Shapes(log + recs)
    ensures !longNames ==> forall r :: r in log + recs ==> AttrOf(r) != ATTR_LONG_NAME
  {
    forall r | r in log + recs
      ensures r in log || r in recs
    {
    }
    if !longNames {
      assert forall r :: r in recs ==> r == recs[0];
    }
  }

  /** A new directory lists its two dot links. */
  lemma NewDirLists(longNames: bool, support: bool, tree: seq<TNode>, place: seq<Place>, n: nat, head: nat,
                    parentHead: nat, dots: seq<Record>)
    requires TreeOk(tree) && |place| == |tree| && 0 < n < |tree| && place[n].DirPlace? && tree[n].entities == []
    requires head < 0x1_0000 && parentHead < 0x1_0000 && |dots| == 2
    requires DotRecord(longNames, [DOT], head) == Ok(dots[0])
    requires DotRecord(longNames, [DOT, DOT], parentHead) == Ok(dots[1])
    ensures LogOk(longNames, support, tree, place, dots, n)
  {
    hide ObjName, Lists, DotRecord, ShortRecord, Listing, IsShort;
    DotObject(longNames, [DOT], head);
    DotObject(longNames, [DOT, DOT], parentHead);
    TwoObjects(dots);
    DotName(longNames, support, [], [DOT], head);
    DotName(longNames, support, [dots[0]], [DOT, DOT], parentHead);
    assert [] + [dots[0]] == dots[..1] && [dots[0]] + [dots[1]] == dots;
    ObjNameSame([dots[0]], dots, 0, support);
  }

  /** A dot link is the clean record of a directory. */
  lemma DotObject(longNames: bool, name: seq<byte>, cluster: nat)
    requires name == [DOT] || name == [DOT, DOT]
    requires cluster < 0x1_0000 && DotRecord(longNames, name, cluster).Ok?
    ensures var r := DotRecord(longNames, name, cluster).value;
      IsObject(r) && CleanName(r) && AttrOf(r) == ATTR_DIRECTORY
  {
    ShortRecordFields(longNames, name, [], ATTR_DIRECTORY, cluster, DEFAULT_STAMP, false, false);
    ShortRecordClean(longNames, name, [], ATTR_DIRECTORY, cluster, DEFAULT_STAMP, false, false);
  }

  lemma {:induction false} TwoObjects(dots: seq<Record>)
    requires |dots| == 2 && IsObject(dots[0]) && IsObject(dots[1])
    ensures Listing(dots, 2) == [0, 1]
  {
    assert Listing(dots, 0) == [];
    assert Listing(dots, 1) == [0];
  }

  lemma DotName(longNames: bool, support: bool, before: seq<Record>, name: seq<byte>, cluster: nat)
    requires name == [DOT] || name == [DOT, DOT]
    requires cluster < 0x1_0000 && DotRecord(longNames, name, cluster).Ok?
    requires forall r :: r in before ==> AttrOf(r) != ATTR_LONG_NAME
    ensures ObjName(before + [DotRecord(longNames, name, cluster).value], |before|, support) == name
  {
    ShortNameRead(longNames, before, name, [], ATTR_DIRECTORY, cluster, DEFAULT_STAMP, false, support);
    assert StripTrailing(name, SPACE) == name && StripTrailing([], SPACE) == [];
  }

  lemma AddedObjects(s: FsState, t: FsState, logs: seq<seq<Record>>, recs: seq<Record>, d: nat, node: TNode)
    requires Formed(s) && Formed(t) && NodeAdded(s, t, logs, recs, d) && t.tree == AddNode(s.tree, d, node)
    ensures OldObjectsKept(s.tree, t.tree, s.place, t.place)
  {
  }

  lemma ObjectsKeepListing(s: FsState, t: FsState, logs: seq<seq<Record>>, recs: seq<Record>, d: nat, node: TNode,
                           support: bool, dots: seq<Record>)
    requires Formed(s) && Formed(t) && |logs| == |s.tree| && LogInv(s, logs, support)
    requires NodeAdded(s, t, logs, recs, d) && t.tree == AddNode(s.tree, d, node) && node.entities == []
    requires recs != [] && IsObject(recs[|recs| - 1]) && NewShapes(s.longNames, recs)
    requires forall i :: 0 <= i < |recs| - 1 ==> AttrOf(recs[i]) == ATTR_LONG_NAME
    requires Lists(s.longNames, support, node, t.place[|s.tree|], logs[d] + recs, t.place[d].entries,
                   |logs[d]| + |recs| - 1)
    requires node.isDir ==> LogOk(s.longNames, support, t.tree, t.place, dots, |s.tree|)
    requires !node.isDir ==> dots == []
    ensures LogInv(t, logs[d := logs[d] + recs] + [dots], support)
  {
    hide LogOk, Lists, Listing;
    var n := |s.tree|;
    var logs2 := logs[d := logs[d] + recs] + [dots];
    AddedObjects(s, t, logs, recs, d, node);
    forall x | 0 <= x < |t.tree| && t.tree[x].isDir
      ensures LogOk(t.longNames, support, t.tree, t.place, logs2[x], x)
    {
      if x == d {
        assert LogOk(s.longNames, support, s.tree, s.place, logs[x], x);
        TargetDirGrows(s.longNames, support, s.tree, t.tree, s.place, t.place, logs[x], recs, x);
      } else if x < n {
        assert LogOk(s.longNames, support, s.tree, s.place, logs[x], x);
        OtherDirKept(s.longNames, support, s.tree, t.tree, s.place, t.place, logs[x], x);
      }
    }
  }

  lemma ShortModeRecords(longNames: bool, siblings: nat, name: seq<byte>, ext: seq<byte>, attr: byte, cluster: nat,
                         stamp: Stamp)
    requires stamp.Fits() && cluster < 0x1_0000 && |BuildName(name, ext)| <= 255
    requires EntryRecords(longNames, siblings, name, ext, attr, cluster, stamp).Ok?
    ensures !longNames ==> |EntryRecords(longNames, siblings, name, ext, attr, cluster, stamp).value| == 1
  {
  }

  lemma NoLongRecords(s: FsState, logs: seq<seq<Record>>, support: bool, d: nat)
    requires Formed(s) && |logs| == |s.tree| && LogInv(s, logs, support) && IsDirectory(s, d) && !s.longNames
    ensures forall r :: r in logs[d] ==> AttrOf(r) != ATTR_LONG_NAME
  {
    assert LogOk(s.longNames, support, s.tree, s.place, logs[d], d);
  }

  lemma {:induction false} NewEntityLists(s: FsState, logs: seq<seq<Record>>, support: bool, d: nat, name: seq<byte>,
                                          ext: seq<byte>, isDir: bool, p: Place, recs: seq<Record>, entries: seq<Slot>,
                                          stamp: Stamp)
    requires Formed(s) && |logs| == |s.tree| && LogInv(s, logs, support) && IsDirectory(s, d)
    requires s.longNames ==> support
    requires Ascii(name) && Ascii(ext) && |BuildName(name, ext)| <= 255 && stamp.Fits() && First(p) < 0x1_0000
    requires EntryRecords(s.longNames, CountPrefix(s.tree, s.tree[d].entities, name), name, ext,
                          if isDir then ATTR_DIRECTORY else ATTR_ARCHIVE, First(p), stamp) == Ok(recs)
    requires |logs[d]| + |recs| <= |entries| && (p.FilePlace? ==> p.entry == entries[|logs[d]| + |recs| - 1])
    ensures recs != [] && IsObject(recs[|recs| - 1]) && NewShapes(s.longNames, recs)
    ensures forall i :: 0 <= i < |recs| - 1 ==> AttrOf(recs[i]) == ATTR_LONG_NAME
    ensures Lists(s.longNames, support, TNode(name, ext, isDir, []), p, logs[d] + recs, entries, |logs[d]| + |recs| - 1)
  {
    hide EntryRecords, CountPrefix, ObjName, Display, IsShort, AttrOf, ClusterOf, LogInv, NewShapes;
    var attr := if isDir then ATTR_DIRECTORY else ATTR_ARCHIVE;
    var siblings := CountPrefix(s.tree, s.tree[d].entities, name);
    EntryRecordsFacts(s.longNames, siblings, name, ext, attr, First(p), stamp);
    ShortModeRecords(s.longNames, siblings, name, ext, attr, First(p), stamp);
    NewRecordShapes(s.longNames, siblings, name, ext, attr, First(p), stamp);
    if !s.longNames {
      NoLongRecords(s, logs, support, d);
    }
    NewNameRead(s.longNames, logs[d], siblings, name, ext, attr, First(p), stamp, support);
    assert (logs[d] + recs)[|logs[d]| + |recs| - 1] == recs[|recs| - 1];
  }
}
