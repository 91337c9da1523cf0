/** The folder that `traverse_folder_tree` of `fatfsparse.py` makes on the host, and when it is the
    folder of the file system. */
module HostFolder {
  import opened Bytes
  import opened Volume
  import opened DirectoryRecords
  import opened LongNames
  import opened NameTree
  import opened FileSystem
  import opened FileSystemInvariant
  import opened FileSystemRuns
  import opened DirectoryListing
  import opened Reader
  import opened Traversal

  /** What stands under a name in a host directory. */
  datatype Node = FileNode(content: seq<byte>) | FolderNode(entries: map<Text, Node>)

  type Folder = map<Text, Node>

  /** A name that can stand in a host directory: one path component, not a link. */
  predicate HostName(name: Text) {
    name != [] && SEPARATOR as nat !in name && !IsDotName(name)
  }

  /** The folder after making `ts` in a directory that holds `made`. `open` for writing empties a file
      that is there and raises on a directory; `os.makedirs` raises if anything is there. A path that
      is no single component is never an entry of this directory: whatever it does counts as a failure. */
  function Make(ts: seq<Tree>, made: Folder): (r: Option<Folder>)
    ensures r.Some? ==> made.Keys <= r.value.Keys
  {
    if ts == [] then Some(made)
    else if !HostName(ts[0].name) then None
    else
      match ts[0]
      case FileTree(name, content) =>
        if name in made && made[name].FolderNode? then None
        else Make(ts[1..], made[name := FileNode(content)])
      case DirTree(name, children) =>
        if name in made then None
        else
          var inner := Make(children, map[]);
          if inner.None? then None else Make(ts[1..], made[name := FolderNode(inner.value)])
  }

  /** The folder the reader makes of a volume; None when reading or making raises. */
  function ParseFolder(vol: Vol, option: bool, depth: nat): Option<Folder> {
    var ts := ParseTree(vol, option, depth);
    if ts.None? then None else Make(ts.value, map[])
  }

  // ---- what is made, exactly ----

  /** `ts[k]` cannot be made after what comes before it: no host directory can hold its name, or the name
      is taken and not both are files, or making its children raises. */
  predicate BadAt(ts: seq<Tree>, k: nat)
    requires k < |ts|
  {
    || !HostName(ts[k].name)
    || (exists j :: 0 <= j < k && ts[j].name == ts[k].name && !(ts[j].FileTree? && ts[k].FileTree?))
    || (ts[k].DirTree? && MakeRaises(ts[k].children))
  }

  predicate MakeRaises(ts: seq<Tree>) {
    exists k :: 0 <= k < |ts| && BadAt(ts, k)
  }

  /** The entry that a tree stands for. */
  function NodeOf(t: Tree): Node
    requires t.DirTree? ==> Make(t.children, map[]).Some?
  {
    if t.FileTree? then FileNode(t.content) else FolderNode(Make(t.children, map[]).value)
  }

  predicate LastOf(ts: seq<Tree>, k: nat, n: nat)
    requires k < n <= |ts|
  {
    forall j :: k < j < n ==> ts[j].name != ts[k].name
  }

  /** `made` holds the names of the first `n` trees, under each name the last tree called so. */
  ghost predicate Holds(ts: seq<Tree>, n: nat, made: Folder)
    requires n <= |ts|
  {
    && (forall k :: 0 <= k < n ==> ts[k].name in made)
    && (forall name :: name in made ==> exists k :: 0 <= k < n && ts[k].name == name && LastOf(ts, k, n))
    && (forall k :: 0 <= k < n && LastOf(ts, k, n) ==>
         (ts[k].DirTree? ==> Make(ts[k].children, map[]).Some?) && made[ts[k].name] == NodeOf(ts[k]))
  }

  lemma LastMore(ts: seq<Tree>, k: nat, n: nat)
    requires k <= n < |ts|
    ensures LastOf(ts, k, n + 1) <==> k == n || (LastOf(ts, k, n) && ts[n].name != ts[k].name)
  {
  }

  lemma HoldsMore(ts: seq<Tree>, n: nat, made: Folder)
    requires n < |ts| && Holds(ts, n, made) && (ts[n].DirTree? ==> Make(ts[n].children, map[]).Some?)
    ensures Holds(ts, n + 1, made[ts[n].name := NodeOf(ts[n])])
  {
    hide Make, NodeOf, LastOf;
    var more := made[ts[n].name := NodeOf(ts[n])];
    LastMore(ts, n, n);
    forall name | name in more
      ensures exists k :: 0 <= k < n + 1 && ts[k].name == name && LastOf(ts, k, n + 1)
    {
      if name != ts[n].name {
        var k :| 0 <= k < n && ts[k].name == name && LastOf(ts, k, n);
        LastMore(ts, k, n);
      }
    }
    forall k | 0 <= k < n + 1 && LastOf(ts, k, n + 1)
      ensures (ts[k].DirTree? ==> Make(ts[k].children, map[]).Some?) && more[ts[k].name] == NodeOf(ts[k])
    {
      LastMore(ts, k, n);
    }
  }

  /** One tree made in a folder that holds those before it. */
  lemma MakeNext(ts: seq<Tree>, n: nat, made: Folder)
    requires n < |ts| && Holds(ts, n, made)
    requires forall j, k :: 0 <= j < k < n && ts[j].name == ts[k].name ==> ts[j].FileTree? && ts[k].FileTree?
    requires ts[n].DirTree? ==> (Make(ts[n].children, map[]).None? <==> MakeRaises(ts[n].children))
    ensures BadAt(ts, n) ==> Make(ts[n..], made) == None
    ensures !BadAt(ts, n) ==>
      && (ts[n].DirTree? ==> Make(ts[n].children, map[]).Some?)
      && Make(ts[n..], made) == Make(ts[n + 1..], made[ts[n].name := NodeOf(ts[n])])
  {
    hide HostName, MakeRaises;
    assert ts[n..][0] == ts[n] && ts[n..][1..] == ts[n + 1..];
    if ts[n].name in made {
      var k :| 0 <= k < n && ts[k].name == ts[n].name && LastOf(ts, k, n);
      if j :| 0 <= j < n && ts[j].name == ts[n].name && !(ts[j].FileTree? && ts[n].FileTree?) {
        assert j == k || (j < k && ts[j].FileTree? && ts[k].FileTree?);
      }
    }
  }

  lemma {:induction false} MakePrefix(ts: seq<Tree>, n: nat) returns (made: Folder)
    requires n <= |ts| && forall k :: 0 <= k < n ==> !BadAt(ts, k)
    ensures Make(ts, map[]) == Make(ts[n..], made) && Holds(ts, n, made)
    decreases ts, n
  {
    hide BadAt, Make, Holds;
    if n == 0 {
      made := map[];
      assert ts[0..] == ts;
      NothingHeld(ts);
    } else {
      var before := MakePrefix(ts, n - 1);
      if ts[n - 1].DirTree? {
        MakeExactly(ts[n - 1].children);
      }
      FilesOnly(ts, n - 1);
      MakeNext(ts, n - 1, before);
      HoldsMore(ts, n - 1, before);
      made := before[ts[n - 1].name := NodeOf(ts[n - 1])];
    }
  }

  lemma NothingHeld(ts: seq<Tree>)
    ensures Holds(ts, 0, map[])
  {
  }

  lemma {:induction false} FilesOnly(ts: seq<Tree>, n: nat)
    requires n <= |ts| && forall k :: 0 <= k < n ==> !BadAt(ts, k)
    ensures forall j, k :: 0 <= j < k < n && ts[j].name == ts[k].name ==> ts[j].FileTree? && ts[k].FileTree?
  {
    hide HostName, MakeRaises;
    forall j, k | 0 <= j < k < n && ts[j].name == ts[k].name
      ensures ts[j].FileTree? && ts[k].FileTree?
    {
      assert !BadAt(ts, k);
    }
  }

  /** Making raises exactly if some tree is bad where it stands; otherwise the folder has one entry per
      name, the last tree called so. */
  lemma {:induction false} MakeExactly(ts: seq<Tree>)
    ensures Make(ts, map[]).None? <==> MakeRaises(ts)
    ensures Make(ts, map[]).Some? ==> Holds(ts, |ts|, Make(ts, map[]).value)
    decreases ts, |ts| + 1
  {
    hide BadAt, Make, Holds;
    if MakeRaises(ts) {
      var n := FirstBad(ts);
      var made := MakePrefix(ts, n);
      if ts[n].DirTree? {
        MakeExactly(ts[n].children);
      }
      FilesOnly(ts, n);
      MakeNext(ts, n, made);
    } else {
      var made := MakePrefix(ts, |ts|);
      assert ts[|ts|..] == [];
      MakeNothing(made);
    }
  }

  lemma FirstBad(ts: seq<Tree>) returns (n: nat)
    requires MakeRaises(ts)
    ensures n < |ts| && BadAt(ts, n) && forall k :: 0 <= k < n ==> !BadAt(ts, k)
  {
    hide BadAt;
    n := 0;
    while !BadAt(ts, n)
      invariant n < |ts| && forall k :: 0 <= k < n ==> !BadAt(ts, k)
      invariant exists k :: n <= k < |ts| && BadAt(ts, k)
      decreases |ts| - n
    {
      n := n + 1;
    }
  }

  lemma {:induction false} MakeNothing(made: Folder)
    ensures Make([], made) == Some(made)
  {
  }

  // ---- the folder it should be ----

  /** The name an entity of directory `d` is shown under. */
  function NameOf(i: Ideal, longNames: bool, d: nat, j: nat): Text
    requires i.Ok() && d < |i.tree| && j < |i.tree[d].entities|
  {
    assert i.tree[d].entities[j] in i.tree[d].entities;
    var e := i.tree[i.tree[d].entities[j]];
    Display(longNames, e.name, e.ext)
  }

  /** The names of the first `n` entities of directory `d`. */
  ghost function Names(i: Ideal, longNames: bool, d: nat, n: nat): set<Text>
    requires i.Ok() && d < |i.tree| && n <= |i.tree[d].entities|
  {
    set j | 0 <= j < n :: NameOf(i, longNames, d, j)
  }

  /** `node` is object `e`: a file with its content, a directory with its whole folder. */
  ghost predicate ShowsObject(i: Ideal, longNames: bool, e: nat, node: Node)
    requires i.Ok() && e < |i.tree|
    decreases |i.tree| - e, 1
  {
    if i.tree[e].isDir then node.FolderNode? && Mirrors(i, longNames, e, |i.tree[e].entities|, node.entries)
    else node == FileNode(i.contents[e])
  }

  /** `made` holds the first `n` entities of directory `d`, each as an entry of its own under its
      name, and nothing else. */
  ghost predicate Mirrors(i: Ideal, longNames: bool, d: nat, n: nat, made: Folder)
    requires i.Ok() && d < |i.tree| && n <= |i.tree[d].entities|
    decreases |i.tree| - d, 0
  {
    && |made| == n && made.Keys == Names(i, longNames, d, n)
    && forall j :: 0 <= j < n ==>
         var e, name := i.tree[d].entities[j], NameOf(i, longNames, d, j);
         && e in i.tree[d].entities && name in Names(i, longNames, d, n)
         && ShowsObject(i, longNames, e, made[name])
  }

  /** The folder of the ideal file system. */
  ghost predicate IsFolderOf(i: Ideal, longNames: bool, made: Folder)
    requires i.Ok()
  {
    Mirrors(i, longNames, 0, |i.tree[0].entities|, made)
  }

  /** There is only one such folder. */
  lemma {:induction false} FolderUnique(i: Ideal, longNames: bool, d: nat, n: nat, a: Folder, b: Folder)
    requires i.Ok() && d < |i.tree| && n <= |i.tree[d].entities|
    requires Mirrors(i, longNames, d, n, a) && Mirrors(i, longNames, d, n, b)
    ensures a == b
    decreases |i.tree| - d
  {
    hide NameOf, TreeOk;
    forall name | name in a
      ensures name in b && a[name] == b[name]
    {
      assert name in Names(i, longNames, d, n);
      var j :| 0 <= j < n && NameOf(i, longNames, d, j) == name;
      EntryUnique(i, longNames, d, n, a, b, j);
    }
    assert a.Keys == b.Keys;
  }

  lemma {:induction false} EntryUnique(i: Ideal, longNames: bool, d: nat, n: nat, a: Folder, b: Folder, j: nat)
    requires i.Ok() && d < |i.tree| && j < n <= |i.tree[d].entities|
    requires Mirrors(i, longNames, d, n, a) && Mirrors(i, longNames, d, n, b)
    ensures var name := NameOf(i, longNames, d, j); name in a && name in b && a[name] == b[name]
    decreases |i.tree| - d, 0
  {
    hide NameOf, Names;
    var e, name := i.tree[d].entities[j], NameOf(i, longNames, d, j);
    assert e in i.tree[d].entities && ShowsObject(i, longNames, e, a[name]) && ShowsObject(i, longNames, e, b[name]);
    if i.tree[e].isDir {
      FolderUnique(i, longNames, e, |i.tree[e].entities|, a[name].entries, b[name].entries);
    }
  }

  /** Every object of directory `d` is shown under a name that a host directory can hold, and no two
      under the same. */
  predicate GoodNamesIn(i: Ideal, longNames: bool, d: nat)
    requires i.Ok() && d < |i.tree|
  {
    && (forall j :: 0 <= j < |i.tree[d].entities| ==> HostName(NameOf(i, longNames, d, j)))
    && forall j, k :: 0 <= j < k < |i.tree[d].entities| ==> NameOf(i, longNames, d, j) != NameOf(i, longNames, d, k)
  }

  /** The caller's check: it looks at the names alone. */
  predicate GoodNames(i: Ideal, longNames: bool)
    requires i.Ok()
  {
    forall d :: 0 <= d < |i.tree| && i.tree[d].isDir ==> GoodNamesIn(i, longNames, d)
  }

  // ---- good names make the folder ----

  lemma OneKeyMore(made: Folder, name: Text, node: Node)
    requires name !in made
    ensures made[name := node].Keys == made.Keys + {name} && |made[name := node]| == |made| + 1
  {
  }

  lemma MirrorsMore(i: Ideal, longNames: bool, d: nat, n: nat, made: Folder, node: Node)
    requires i.Ok() && d < |i.tree| && n < |i.tree[d].entities| && Mirrors(i, longNames, d, n, made)
    requires NameOf(i, longNames, d, n) !in made && i.tree[d].entities[n] < |i.tree|
    requires ShowsObject(i, longNames, i.tree[d].entities[n], node)
    ensures Mirrors(i, longNames, d, n + 1, made[NameOf(i, longNames, d, n) := node])
  {
    hide NameOf, ShowsObject, TreeOk, Names;
    var last := NameOf(i, longNames, d, n);
    NamesStep(i, longNames, d, n);
    OneKeyMore(made, last, node);
    assert i.tree[d].entities[n] in i.tree[d].entities;
  }

  lemma NamesStep(i: Ideal, longNames: bool, d: nat, n: nat)
    requires i.Ok() && d < |i.tree| && n < |i.tree[d].entities|
    ensures Names(i, longNames, d, n + 1) == Names(i, longNames, d, n) + {NameOf(i, longNames, d, n)}
  {
    hide NameOf, TreeOk;
  }

  lemma MakeFirst(ts: seq<Tree>, made: Folder)
    requires ts != [] && HostName(ts[0].name) && ts[0].name !in made
    ensures ts[0].FileTree? ==> Make(ts, made) == Make(ts[1..], made[ts[0].name := FileNode(ts[0].content)])
    ensures ts[0].DirTree? && Make(ts[0].children, map[]).Some? ==>
      Make(ts, made) == Make(ts[1..], made[ts[0].name := FolderNode(Make(ts[0].children, map[]).value)])
  {
  }

  lemma {:induction false} MakesFolder(i: Ideal, longNames: bool, d: nat, n: nat, made: Folder)
    requires i.Ok() && GoodNames(i, longNames) && d < |i.tree| && i.tree[d].isDir
    requires n <= |i.tree[d].entities| && Mirrors(i, longNames, d, n, made)
    ensures var r := Make(IdealFrom(i, longNames, d, n), made);
      r.Some? && Mirrors(i, longNames, d, |i.tree[d].entities|, r.value)
    decreases |i.tree| - d, |i.tree[d].entities| - n
  {
    hide Display, HostName, Mirrors, Make, IdealFrom, GoodNamesIn;
    if n == |i.tree[d].entities| {
      NothingToMake(i, longNames, d, made);
    } else {
      IdealOne(i, longNames, d, n);
      var e, name := i.tree[d].entities[n], NameOf(i, longNames, d, n);
      assert GoodNamesIn(i, longNames, d);
      NewName(i, longNames, d, n, made);
      var ts := IdealFrom(i, longNames, d, n);
      assert ts[1..] == IdealFrom(i, longNames, d, n + 1);
      MakeFirst(ts, made);
      var node := FileNode(i.contents[e]);
      if i.tree[e].isDir {
        NothingMade(i, longNames, e);
        MakesFolder(i, longNames, e, 0, map[]);
        node := FolderNode(Make(IdealFrom(i, longNames, e, 0), map[]).value);
      }
      MirrorsMore(i, longNames, d, n, made, node);
      MakesFolder(i, longNames, d, n + 1, made[name := node]);
    }
  }

  lemma {:induction false} NothingToMake(i: Ideal, longNames: bool, d: nat, made: Folder)
    requires i.Ok() && d < |i.tree|
    ensures Make(IdealFrom(i, longNames, d, |i.tree[d].entities|), made) == Some(made)
  {
  }

  lemma {:induction false} NothingMade(i: Ideal, longNames: bool, d: nat)
    requires i.Ok() && d < |i.tree|
    ensures Mirrors(i, longNames, d, 0, map[])
  {
  }

  lemma {:induction false} NewName(i: Ideal, longNames: bool, d: nat, n: nat, made: Folder)
    requires i.Ok() && d < |i.tree| && n < |i.tree[d].entities| && GoodNamesIn(i, longNames, d)
    requires Mirrors(i, longNames, d, n, made)
    ensures HostName(NameOf(i, longNames, d, n)) && NameOf(i, longNames, d, n) !in made
  {
    hide NameOf, HostName;
  }

  // ---- and the folder shows that the names are good ----

  /** Every name in the folder and below is a host name. */
  predicate HostFolder(m: Folder) {
    forall name :: name in m ==> HostName(name) && HostNode(m[name])
  }

  predicate HostNode(n: Node) {
    match n
    case FileNode(_) => true
    case FolderNode(entries) => forall name :: name in entries ==> HostName(name) && HostNode(entries[name])
  }

  lemma {:induction false} MadeIsHost(ts: seq<Tree>, made: Folder)
    requires HostFolder(made) && Make(ts, made).Some?
    ensures HostFolder(Make(ts, made).value)
  {
    hide HostName;
    if ts != [] {
      match ts[0]
      case FileTree(name, content) =>
        MadeIsHost(ts[1..], made[name := FileNode(content)]);
      case DirTree(name, children) =>
        MadeIsHost(children, map[]);
        MadeIsHost(ts[1..], made[name := FolderNode(Make(children, map[]).value)]);
    }
  }

  lemma SizeAdded<T>(s: set<T>, x: T)
    ensures |s + {x}| == if x in s then |s| else |s| + 1
  {
    if x in s {
      assert s + {x} == s;
    }
  }

  lemma {:induction false} NamesCount(i: Ideal, longNames: bool, d: nat, n: nat)
    requires i.Ok() && d < |i.tree| && n <= |i.tree[d].entities|
    ensures |Names(i, longNames, d, n)| <= n
  {
    hide NameOf, TreeOk;
    if n > 0 {
      NamesCount(i, longNames, d, n - 1);
      NamesStep(i, longNames, d, n - 1);
    }
  }

  /** As many names as entities means that no name occurs twice. */
  lemma {:induction false} NamesDistinct(i: Ideal, longNames: bool, d: nat, n: nat)
    requires i.Ok() && d < |i.tree| && n <= |i.tree[d].entities| && |Names(i, longNames, d, n)| == n
    ensures forall j, k :: 0 <= j < k < n ==> NameOf(i, longNames, d, j) != NameOf(i, longNames, d, k)
  {
    hide NameOf, TreeOk;
    if n > 0 {
      var before, last := Names(i, longNames, d, n - 1), NameOf(i, longNames, d, n - 1);
      NamesStep(i, longNames, d, n - 1);
      NamesCount(i, longNames, d, n - 1);
      SizeAdded(before, last);
      NamesDistinct(i, longNames, d, n - 1);
    }
  }

  lemma {:induction false} MirrorShowsNames(i: Ideal, longNames: bool, d: nat, made: Folder)
    requires i.Ok() && d < |i.tree| && Mirrors(i, longNames, d, |i.tree[d].entities|, made) && HostFolder(made)
    ensures GoodNamesIn(i, longNames, d)
  {
    hide NameOf, HostName, HostNode, TreeOk, ShowsObject;
    NamesDistinct(i, longNames, d, |i.tree[d].entities|);
  }

  /** The folder of a directory, found in the folder of the directory that holds it. */
  lemma FolderBelow(i: Ideal, longNames: bool, above: Folder, p: nat, j: nat) returns (m: Folder)
    requires i.Ok() && p < |i.tree| && Mirrors(i, longNames, p, |i.tree[p].entities|, above) && HostFolder(above)
    requires j < |i.tree[p].entities| && i.tree[p].entities[j] < |i.tree| && i.tree[i.tree[p].entities[j]].isDir
    ensures var e := i.tree[p].entities[j]; Mirrors(i, longNames, e, |i.tree[e].entities|, m) && HostFolder(m)
  {
    hide NameOf, HostName, TreeOk, Names;
    var node := above[NameOf(i, longNames, p, j)];
    assert ShowsObject(i, longNames, i.tree[p].entities[j], node);
    assert HostNode(node);
    m := node.entries;
  }

  /** The folder of a directory, found in the folder of the whole file system. */
  lemma {:induction false} FolderAt(i: Ideal, longNames: bool, made: Folder, e: nat) returns (m: Folder)
    requires i.Ok() && AllHeld(i.tree) && IsFolderOf(i, longNames, made) && HostFolder(made)
    requires e < |i.tree| && i.tree[e].isDir
    ensures Mirrors(i, longNames, e, |i.tree[e].entities|, m) && HostFolder(m)
    decreases e
  {
    hide NameOf, HostName, AllHeld, Mirrors, HostFolder, TreeOk;
    if e == 0 {
      m := made;
    } else {
      assert Held(i.tree, e) by { HeldFromAll(i.tree, e); }
      var p: nat, j: nat :| HeldBy(i.tree, e, p, j);
      var above := FolderAt(i, longNames, made, p);
      m := FolderBelow(i, longNames, above, p, j);
    }
  }

  lemma HeldFromAll(tree: seq<TNode>, e: nat)
    requires AllHeld(tree) && 0 < e < |tree|
    ensures Held(tree, e)
  {
  }

  lemma {:induction false} FolderShowsNames(i: Ideal, longNames: bool, ts: seq<Tree>)
    requires i.Ok() && AllHeld(i.tree) && Make(ts, map[]).Some? && IsFolderOf(i, longNames, Make(ts, map[]).value)
    ensures GoodNames(i, longNames)
  {
    hide Make, HostFolder, Mirrors, AllHeld, IsFolderOf;
    var made := Make(ts, map[]).value;
    EmptyIsHost();
    MadeIsHost(ts, map[]);
    forall d | 0 <= d < |i.tree| && i.tree[d].isDir
      ensures GoodNamesIn(i, longNames, d)
    {
      var m := FolderAt(i, longNames, made, d);
      MirrorShowsNames(i, longNames, d, m);
    }
  }

  lemma EmptyIsHost()
    ensures HostFolder(map[])
  {
  }

  /** Good names are no dot names. */
  lemma GoodNamesNoDots(i: Ideal, longNames: bool)
    requires i.Ok() && AllHeld(i.tree) && GoodNames(i, longNames)
    ensures NoDotNames(longNames, i.tree)
  {
    hide Display, IsDotName, AllHeld;
    forall e | 0 < e < |i.tree| && i.tree[e].isDir
      ensures !IsDotName(Display(longNames, i.tree[e].name, i.tree[e].ext))
    {
      HeldFromAll(i.tree, e);
      var p: nat, j: nat :| HeldBy(i.tree, e, p, j);
      assert GoodNamesIn(i, longNames, p) && HostName(NameOf(i, longNames, p, j));
    }
  }

  // ---- the theorem ----

  lemma RootIsDirectory(i: Ideal)
    requires i.Ok()
    ensures |i.tree| > 0 && i.tree[0].isDir
  {
  }

  /** The reader makes the folder of the file system exactly when no record is a trap and the names
      are good. */
  lemma ParseFolderIff(s: FsState, owner: seq<nat>, logs: seq<seq<Record>>, option: bool, depth: nat)
    requires CoreInv(s, owner, logs) && LogInv(s, logs, true) && AllHeld(s.tree)
    requires depth + 1 >= |s.tree|
    ensures var made := ParseFolder(s.fs.vol, option, depth);
      (made.Some? && IsFolderOf(Alpha(s), s.longNames, made.value)) <==>
        TrapDirs(logs) == {} && GoodNames(Alpha(s), s.longNames)
  {
    hide LogInv, NoDotNames, AllHeld, TrapDirs, DirOk, FileOk, TreeOk, ParseTree, Make, Mirrors, GoodNames, Alpha,
      IdealFrom;
    CoreFacts(s, owner, logs);
    var i, longNames := Alpha(s), s.longNames;
    RootIsDirectory(i);
    ParseTreeIff(s, owner, logs, option, depth);
    if TrapDirs(logs) == {} && GoodNames(i, longNames) {
      GoodNamesNoDots(i, longNames);
      NothingMade(i, longNames, 0);
      MakesFolder(i, longNames, 0, 0, map[]);
    } else if ParseFolder(s.fs.vol, option, depth).Some? {
      var ts := ParseTree(s.fs.vol, option, depth).value;
      if IsFolderOf(i, longNames, Make(ts, map[]).value) {
        FolderShowsNames(i, longNames, ts);
        GoodNamesNoDots(i, longNames);
      }
    }
  }
}
