/** Names after every run: which paths lead to an object, and the short names on the volume. */
module NameRuns {
  import opened Bytes
  import opened Geometry
  import opened Outcome
  import opened DirectoryRecords
  import opened NameTree
  import opened Paths
  import opened FileSystem
  import opened FileSystemInvariant
  import opened FileSystemRuns
  import opened DirectoryListing
  import opened Aliases
  import opened Reader
  import opened ImageRuns

  /** The object that `op` creates within a run, found by its path at the end of the run. Exactly those
      paths lead to it whose last part asks for its full name and whose parts before lead to the
      directory that the path of `op` leads to; none, if an older entity of that directory has the
      name. If it is a file, what the volume holds for it is what was last written by such a path. */
  lemma FoundByPath(g: Geo, header: seq<byte>, longNames: bool, before: seq<Op>, op: Op, after: seq<Op>,
                    path: seq<seq<byte>>)
    returns (d: nat)
    requires g.Accepted() && |header| == 512 && ProperOps(before + ([op] + after)) && !op.WriteContent?
    requires Runnable(InitialState(g, header, longNames))
    requires Run(InitialState(g, header, longNames), before + ([op] + after)).Ok?
    ensures IdealRun(EmptyIdeal(), before).Ok?
    ensures var tree, t := IdealRun(EmptyIdeal(), before).value.tree,
        Run(InitialState(g, header, longNames), before + ([op] + after)).value;
      var n := |tree|;
      && d < n && tree[d].isDir && Leads(tree, op.path, d) && Leads(t.tree, op.path, d)
      && n < |t.tree| && t.tree[n].(entities := []) == NodeOf(op) && n in t.tree[d].entities
      && (Leads(t.tree, path, n) <==> NewPath(tree, d, NodeOf(op), path))
      && (!t.tree[n].isDir ==>
           && n < |t.place| && t.place[n].FilePlace?
           && LastWritten(t.tree, before + ([op] + after), n, [], ReadFile(t.fs.vol, t.place[n].entry)))
  {
    hide Run, IdealRun, InitialState, LastWritten, LeadsFrom, NewPath, ReadFile;
    var all := before + ([op] + after);
    RoundTrip(g, header, longNames, all);
    RunSplit(EmptyIdeal(), before, [op] + after);
    var i := IdealRun(EmptyIdeal(), before).value;
    d := CreatedFound(i, op, after, path);
    var t := Run(InitialState(g, header, longNames), all).value;
    assert (i.tree[d].entities + [|i.tree|])[|i.tree[d].entities|] == |i.tree|;
    assert t.tree[d].entities[|i.tree[d].entities|] == |i.tree|;
    PlacesOfTree(t);
  }

  lemma PlacesOfTree(t: FsState)
    requires Runnable(t)
    ensures |t.place| == |t.tree|
  {
  }

  // ---- short names ----

  /** The object records of directory `d`, in order, as the volume holds them. */
  function ObjectRecords(s: FsState, d: nat): (r: seq<Record>)
    requires IsDirectory(s, d)
  {
    var recs := RecordsOf(DirContent(s.fs.vol, s.place[d].head));
    var l := Listing(recs, |recs|);
    seq(|l|, k requires 0 <= k < |l| => recs[l[k]])
  }

  lemma VolumeBears(s: FsState, owner: seq<nat>, logs: seq<seq<Record>>, support: bool, d: nat)
    requires FsInv(s, owner, logs, support) && IsDirectory(s, d)
    ensures d < |s.tree| && Ids(s.tree, s.tree[d].entities)
    ensures |ObjectRecords(s, d)| == Dots(d) + |s.tree[d].entities|
    ensures forall k :: 0 <= k < |ObjectRecords(s, d)| ==>
      BearsAt(s.longNames, s.tree, d, k, ObjectRecords(s, d)[k])
  {
    hide CoreInv, LogInv, AllHeld, Listing, RecordsOf, DirContent, BearsAt, EntryRecordsOf;
    CoreFacts(s, owner, logs);
    ReadRecords(s, owner, logs, d);
    var recs, log := RecordsOf(DirContent(s.fs.vol, s.place[d].head)), logs[d];
    ListingSame(recs, log, |log|);
    RestIsEmpty(recs, |log|);
    ListingSkips(recs, |log|, |recs|);
    var l := Listing(log, |log|);
    forall k | 0 <= k < |l|
      ensures BearsAt(s.longNames, s.tree, d, k, recs[l[k]])
    {
      assert BearsAt(s.longNames, s.tree, d, k, log[l[k]]);
      SameBears(s.longNames, s.tree, d, k, log[l[k]], recs[l[k]]);
    }
  }

  lemma RestIsEmpty(recs: seq<Record>, m: nat)
    requires forall i :: m <= i < |recs| ==> recs[i] == Zeros(32)
    ensures forall i :: m <= i < |recs| ==> !IsObject(recs[i])
  {
  }

  lemma SameBears(longNames: bool, tree: seq<TNode>, d: nat, k: nat, r: Record, q: Record)
    requires d < |tree| && Ids(tree, tree[d].entities) && k < Dots(d) + |tree[d].entities|
    requires Mask(r) == Mask(q) && BearsAt(longNames, tree, d, k, r)
    ensures BearsAt(longNames, tree, d, k, q)
  {
    MaskedFields(r, q, 0);
  }

  /** Short names after every run. The object records of a directory on the volume are those of its
      links and entities, in order, and each bears the short name of its object. Two of them have the same
      eleven bytes exactly if their names and their extensions are the same but for blanks at the end. */
  lemma {:induction false} ShortNamesOnVolume(g: Geo, header: seq<byte>, longNames: bool, ops: seq<Op>, d: nat, k: nat,
                                              l: nat)
    requires g.Accepted() && |header| == 512 && ProperOps(ops)
    requires Runnable(InitialState(g, header, longNames)) && Run(InitialState(g, header, longNames), ops).Ok?
    requires IsDirectory(Run(InitialState(g, header, longNames), ops).value, d)
    ensures var t := Run(InitialState(g, header, longNames), ops).value;
      && d < |t.tree| && Ids(t.tree, t.tree[d].entities)
      && var r := ObjectRecords(t, d);
         && |r| == Dots(d) + |t.tree[d].entities|
         && (k < |r| ==> BearsAt(longNames, t.tree, d, k, r[k]))
         && (k < |r| && l < |r| ==>
              (r[k][..11] == r[l][..11] <==>
                && SameButBlanks(BaseOf(longNames, t.tree, d, k), BaseOf(longNames, t.tree, d, l))
                && SameButBlanks(ExtensionOf(longNames, t.tree, d, k), ExtensionOf(longNames, t.tree, d, l))))
  {
    hide FsInv, Run, InitialState, Runnable, IdealRun, Alpha, ObjectRecords, BaseOf, ExtensionOf, SameButBlanks, Bears,
      TrapsOf, TrapDirs;
    var s := InitialState(g, header, longNames);
    InitialInv(g, header, longNames, true);
    InitialMode(g, header, longNames);
    var owner, logs := RunKeeps(s, [0, 0], [[]], true, ops);
    var t := Run(s, ops).value;
    VolumeBears(t, owner, logs, true, d);
    var r := ObjectRecords(t, d);
    if k < |r| && l < |r| {
      assert BearsAt(longNames, t.tree, d, k, r[k]) && BearsAt(longNames, t.tree, d, l, r[l]);
      ClashIff(r[k], r[l], BaseOf(longNames, t.tree, d, k), BaseOf(longNames, t.tree, d, l),
               ExtensionOf(longNames, t.tree, d, k), ExtensionOf(longNames, t.tree, d, l));
    }
  }

  /** Aliases after every run. The short records of two long-named siblings whose names begin with the same six
      characters differ. Those of any two long-named siblings are the same exactly if one name begins with one
      more tilde than the other, their numbers are 126 and 32, and their extensions are the same but for blanks. */
  lemma {:induction false} AliasesUnique(g: Geo, header: seq<byte>, longNames: bool, ops: seq<Op>, d: nat, i: nat,
                                         j: nat)
    requires g.Accepted() && |header| == 512 && ProperOps(ops)
    requires Runnable(InitialState(g, header, longNames)) && Run(InitialState(g, header, longNames), ops).Ok?
    requires var t := Run(InitialState(g, header, longNames), ops).value;
      && IsDirectory(t, d) && d < |t.tree| && i < j < |t.tree[d].entities|
      && t.tree[d].entities[i] < |t.tree| && t.tree[d].entities[j] < |t.tree|
      && !KeepsName(longNames, t.tree[t.tree[d].entities[i]]) && !KeepsName(longNames, t.tree[t.tree[d].entities[j]])
    ensures var t := Run(InitialState(g, header, longNames), ops).value;
      var r, entities := ObjectRecords(t, d), t.tree[d].entities;
      var a, b := t.tree[entities[i]], t.tree[entities[j]];
      var m, n := 1 + |Alike(t.tree, entities, a.name, i)|, 1 + |Alike(t.tree, entities, b.name, j)|;
      && |r| == Dots(d) + |entities|
      && (r[Dots(d) + i][..11] == r[Dots(d) + j][..11] <==>
           && (OneMoreTilde(a.name, m, b.name, n) || OneMoreTilde(b.name, n, a.name, m))
           && SameButBlanks(Extension(longNames, a), Extension(longNames, b)))
      && (Start(a.name, 6) == Start(b.name, 6) ==> r[Dots(d) + i][..11] != r[Dots(d) + j][..11])
  {
    hide Run, InitialState, Runnable, ObjectRecords, SameButBlanks, Start, Alike, KeepsName, BearsAt;
    ShortNamesOnVolume(g, header, longNames, ops, d, Dots(d) + i, Dots(d) + j);
    var t := Run(InitialState(g, header, longNames), ops).value;
    LongNamesClash(longNames, t.tree, t.tree[d].entities, i, j);
  }
}
