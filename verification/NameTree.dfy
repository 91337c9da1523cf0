/** The directory tree as the user sees it: names, and an ideal file system without an image.
    Path search is `recursive_search` and `lookup_entity` of `fatfs_utils/fs_object.py`. */
module NameTree {
  import opened Bytes
  import opened Outcome
  import opened DirectoryRecords
  import opened LongNames

  /** `/`, which separates the parts of a path on the host. */
  const SEPARATOR: byte := 0x2f

  /** A File or Directory object, by name; `entities` are the ids of the objects it holds. The
      root directory has id 0, and objects get their ids in the order of creation. */
  datatype TNode = TNode(name: seq<byte>, ext: seq<byte>, isDir: bool, entities: seq<nat>)

  /** Something other than dots stands behind the last separator. */
  predicate HasStem(s: seq<byte>) {
    s != [] && s[|s| - 1] != SEPARATOR && (s[|s| - 1] != DOT || HasStem(s[..|s| - 1]))
  }

  /** The dot at which `os.path.splitext` cuts: the last one, if it comes behind the last separator
      and something other than dots stands between them. */
  function LastDot(s: seq<byte>): (i: Option<nat>)
    ensures i.Some? ==> i.value < |s| && s[i.value] == DOT
  {
    if s == [] || s[|s| - 1] == SEPARATOR then None
    else if s[|s| - 1] == DOT then if HasStem(s[..|s| - 1]) then Some(|s| - 1) else None
    else LastDot(s[..|s| - 1])
  }

  /** `split_to_name_and_extension` */
  function SplitName(full: seq<byte>): (seq<byte>, seq<byte>) {
    match LastDot(full)
    case None => (full, [])
    case Some(i) => (full[..i], full[i + 1..])
  }

  predicate TreeOk(tree: seq<TNode>) {
    && tree != [] && tree[0].isDir
    && (forall i :: 0 <= i < |tree| ==> forall e :: e in tree[i].entities ==> i < e < |tree|)
  }

  predicate Ids(tree: seq<TNode>, entities: seq<nat>) {
    forall x :: x in entities ==> 0 <= x < |tree|
  }

  /** `lookup_entity`: the first entity of that full name */
  function Lookup(tree: seq<TNode>, entities: seq<nat>, full: seq<byte>): (e: Option<nat>)
    requires Ids(tree, entities)
    ensures e.Some? ==> e.value in entities
  {
    if entities == [] then None
    else
      assert entities[0] in entities;
      if BuildName(tree[entities[0]].name, tree[entities[0]].ext) == full then Some(entities[0])
      else
        assert forall x :: x in entities[1..] ==> x in entities;
        Lookup(tree, entities[1..], full)
  }

  /** `recursive_search` */
  function Search(tree: seq<TNode>, path: seq<seq<byte>>, current: nat): (r: Result<nat>)
    requires TreeOk(tree) && current < |tree|
    ensures r.Ok? ==> r.value < |tree|
    decreases |path|
  {
    if path == [] then Err(EmptyPath)
    else if !tree[current].isDir then Err(NotADirectory)
    else
      var (name, ext) := SplitName(path[0]);
      match Lookup(tree, tree[current].entities, BuildName(name, ext))
      case None => Err(NotFound)
      case Some(e) => if |path| == 1 then Ok(e) else Search(tree, path[1..], e)
  }

  /** The directory a new object goes to: the root for an empty path. */
  function Target(tree: seq<TNode>, path: seq<seq<byte>>): (r: Result<nat>)
    requires TreeOk(tree)
    ensures r.Ok? ==> r.value < |tree| && tree[r.value].isDir
  {
    if path == [] then Ok(0)
    else
      var d :- Search(tree, path, 0);
      if tree[d].isDir then Ok(d) else Err(NotADirectory)
  }

  function AddNode(tree: seq<TNode>, d: nat, node: TNode): (t: seq<TNode>)
    requires d < |tree|
    ensures |t| == |tree| + 1
  {
    tree[d := tree[d].(entities := tree[d].entities + [|tree|])] + [node]
  }

  lemma AddNodeOk(tree: seq<TNode>, d: nat, node: TNode)
    requires TreeOk(tree) && d < |tree| && node.entities == []
    ensures TreeOk(AddNode(tree, d, node))
  {
    var t := AddNode(tree, d, node);
    forall i, e | 0 <= i < |t| && e in t[i].entities
      ensures i < e < |t|
    {
      if i == d {
        assert e in tree[d].entities || e == |tree|;
      } else if i < |tree| {
        assert e in tree[i].entities;
      }
    }
  }

  datatype Op =
    | CreateFile(name: seq<byte>, ext: seq<byte>, path: seq<seq<byte>>, isEmpty: bool, stamp: Stamp)
    | CreateDirectory(name: seq<byte>, path: seq<seq<byte>>, stamp: Stamp)
    | WriteContent(path: seq<seq<byte>>, content: seq<byte>)
  {
    /** Names are ASCII and at most 255 characters long; time stamps are packed 16-bit fields. */
    predicate Proper() {
      match this
      case CreateFile(name, ext, _, _, stamp) =>
        Ascii(name) && Ascii(ext) && |BuildName(name, ext)| <= 255 && stamp.Fits()
      case CreateDirectory(name, _, stamp) => Ascii(name) && |name| <= 255 && stamp.Fits()
      case WriteContent(_, _) => true
    }
  }

  // ---- the ideal file system ----

  /** The tree and, for each file, the content last written to it. */
  datatype Ideal = Ideal(tree: seq<TNode>, contents: seq<seq<byte>>) {
    predicate Ok() { TreeOk(tree) && |contents| == |tree| }
  }

  /** Only the root directory, which is called A. */
  function EmptyIdeal(): (i: Ideal)
    ensures i.Ok()
  {
    Ideal([TNode([0x41], [], true, [])], [[]])
  }

  function IdealStep(i: Ideal, op: Op): (r: Result<Ideal>)
    requires i.Ok()
    ensures r.Ok? ==> r.value.Ok()
  {
    match op
    case CreateFile(name, ext, path, _, _) =>
      var d :- Target(i.tree, path);
      var node := TNode(name, ext, false, []);
      AddNodeOk(i.tree, d, node);
      Ok(Ideal(AddNode(i.tree, d, node), i.contents + [[]]))
    case CreateDirectory(name, path, _) =>
      var d :- Target(i.tree, path);
      var node := TNode(name, [], true, []);
      AddNodeOk(i.tree, d, node);
      Ok(Ideal(AddNode(i.tree, d, node), i.contents + [[]]))
    case WriteContent(path, content) =>
      var f :- Search(i.tree, path, 0);
      if i.tree[f].isDir then Err(NotAFile) else Ok(i.(contents := i.contents[f := content]))
  }

  function IdealRun(i: Ideal, ops: seq<Op>): (r: Result<Ideal>)
    requires i.Ok()
    ensures r.Ok? ==> r.value.Ok()
    decreases |ops|
  {
    if ops == [] then Ok(i)
    else
      var j :- IdealStep(i, ops[0]);
      IdealRun(j, ops[1..])
  }
}
