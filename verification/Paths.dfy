/** Where paths lead, said without the search: along directories, each time to the first entity that
    is called as the path says. The paths of an object never change once it is created, and the
    content of a file is what was last written through one of its paths. */
module Paths {
  import opened Bytes
  import opened Outcome
  import opened LongNames
  import opened NameTree

  // ---- what a part of a path asks for ----

  /** Behind the last slash there is something other than dots. */
  ghost predicate Stem(s: seq<byte>) {
    exists k :: 0 <= k < |s| && s[k] != 0x2e && NoSlash(s, k)
  }

  predicate NoSlash(s: seq<byte>, k: nat) {
    forall m :: k <= m < |s| ==> s[m] != 0x2f
  }

  /** The full name that a part of a path asks for: the part itself, without a last dot that has a
      stem before it. */
  ghost function Meant(part: seq<byte>): seq<byte> {
    if part != [] && part[|part| - 1] == 0x2e && Stem(part[..|part| - 1]) then part[..|part| - 1] else part
  }

  lemma {:induction false} StemIs(s: seq<byte>)
    ensures HasStem(s) <==> Stem(s)
  {
    if s != [] {
      var init := s[..|s| - 1];
      StemIs(init);
      if s[|s| - 1] != 0x2f && s[|s| - 1] != 0x2e {
        assert NoSlash(s, |s| - 1);
      } else if s[|s| - 1] == 0x2e && Stem(init) {
        var k :| 0 <= k < |init| && init[k] != 0x2e && NoSlash(init, k);
        assert s[k] == init[k];
        assert NoSlash(s, k);
      }
      if Stem(s) {
        var k :| 0 <= k < |s| && s[k] != 0x2e && NoSlash(s, k);
        assert k < |init| ==> init[k] != 0x2e && NoSlash(init, k);
      }
    }
  }

  /** Where a name is split: at its last dot, if a stem comes before it and no slash after it. */
  lemma {:induction false} LastDotIs(s: seq<byte>)
    ensures var i := LastDot(s);
      && (i.Some? ==>
           && s[i.value] == 0x2e && Stem(s[..i.value])
           && forall m :: i.value < m < |s| ==> s[m] !in {0x2e, 0x2f})
      && (i.None? ==> forall m :: 0 <= m < |s| && s[m] == 0x2e && NoSlash(s, m) ==> !Stem(s[..m]))
  {
    if s != [] {
      var init, last := s[..|s| - 1], s[|s| - 1];
      LastDotIs(init);
      StemIs(init);
      forall m | 0 <= m < |init|
        ensures init[..m] == s[..m]
      {
      }
      if LastDot(s).None? {
        forall m | 0 <= m < |s| && s[m] == 0x2e && NoSlash(s, m)
          ensures !Stem(s[..m])
        {
          if last == 0x2e {
            assert s[..|s| - 1] == init;
            if m < |s| - 1 && Stem(s[..m]) {
              StemGoesOn(s, m);
            }
          } else {
            assert m < |init| && NoSlash(init, m);
          }
        }
      }
    }
  }

  /** A stem is still a stem when more follows without a slash. */
  lemma StemGoesOn(s: seq<byte>, m: nat)
    requires m < |s| && Stem(s[..m]) && NoSlash(s, m)
    ensures Stem(s[..|s| - 1])
  {
    var a, b := s[..m], s[..|s| - 1];
    var k :| 0 <= k < |a| && a[k] != 0x2e && NoSlash(a, k);
    assert b[k] == a[k];
    forall x | k <= x < |b|
      ensures b[x] != 0x2f
    {
      if x < m {
        assert a[x] == b[x];
      } else {
        assert b[x] == s[x];
      }
    }
    assert NoSlash(b, k);
  }

  /** Splitting a name and building it again gives what the name means. */
  lemma SplitMeans(part: seq<byte>)
    ensures var (name, ext) := SplitName(part);
      && BuildName(name, ext) == Meant(part)
      && (ext != [] ==> Stem(name) && forall c :: c in ext ==> c !in {0x2e, 0x2f})
  {
    LastDotIs(part);
    var dot := LastDot(part);
    if dot.Some? {
      var i := dot.value;
      assert part == part[..i] + [0x2e] + part[i + 1..];
      if i < |part| - 1 {
        assert part[|part| - 1] != 0x2e;
      }
      var ext := part[i + 1..];
      assert forall c :: c in ext ==> c !in {0x2e, 0x2f};
    } else if part != [] && part[|part| - 1] == 0x2e {
      assert NoSlash(part, |part| - 1);
    }
  }

  /** Every name is what some part of a path means. */
  lemma SomePartMeans(full: seq<byte>) returns (part: seq<byte>)
    ensures Meant(part) == full && part == if Meant(full) == full then full else full + [0x2e]
  {
    if Meant(full) == full {
      part := full;
    } else {
      part := full + [0x2e];
      assert part[..|full|] == full;
      var init := full[..|full| - 1];
      var k :| 0 <= k < |init| && init[k] != 0x2e && NoSlash(init, k);
      assert full[k] == init[k] && NoSlash(full, k);
    }
  }

  // ---- where a path leads ----

  /** The full name of the object is `full`. */
  predicate Called(node: TNode, full: seq<byte>) {
    if node.ext == [] then full == node.name else full == node.name + [0x2e] + node.ext
  }

  predicate NoneCalled(tree: seq<TNode>, entities: seq<nat>, full: seq<byte>) {
    forall x :: x in entities && x < |tree| ==> !Called(tree[x], full)
  }

  /** `e` is the first of the entities called `full`. */
  ghost predicate FirstCalled(tree: seq<TNode>, entities: seq<nat>, full: seq<byte>, e: nat) {
    exists j :: 0 <= j < |entities| && entities[j] == e < |tree| && Called(tree[e], full)
      && NoneCalled(tree, entities[..j], full)
  }

  /** The ids follow the path: each but the last is a directory, and the next one is its first entity
      that is called as the path says. */
  ghost predicate Follows(tree: seq<TNode>, path: seq<seq<byte>>, ids: seq<nat>) {
    && |ids| == |path| + 1
    && (forall k :: 0 <= k < |ids| ==> ids[k] < |tree|)
    && forall k :: 0 <= k < |path| ==> Next(tree, path[k], ids[k], ids[k + 1])
  }

  ghost predicate Next(tree: seq<TNode>, part: seq<byte>, d: nat, e: nat)
    requires d < |tree|
  {
    tree[d].isDir && FirstCalled(tree, tree[d].entities, Meant(part), e)
  }

  /** From object `d` the path leads to object `e`. */
  ghost predicate LeadsFrom(tree: seq<TNode>, d: nat, path: seq<seq<byte>>, e: nat) {
    exists ids: seq<nat> :: Follows(tree, path, ids) && ids[0] == d && ids[|path|] == e
  }

  /** From the root the path leads to object `e`. */
  ghost predicate Leads(tree: seq<TNode>, path: seq<seq<byte>>, e: nat) { LeadsFrom(tree, 0, path, e) }

  // ---- the search finds where the path leads ----

  lemma CalledIs(node: TNode, full: seq<byte>)
    ensures Called(node, full) <==> BuildName(node.name, node.ext) == full
  {
  }

  lemma NotTheHead(tree: seq<TNode>, entities: seq<nat>, full: seq<byte>)
    requires Ids(tree, entities) && entities != [] && entities[0] < |tree| && !Called(tree[entities[0]], full)
    ensures NoneCalled(tree, entities[1..], full) ==> NoneCalled(tree, entities, full)
    ensures forall e :: FirstCalled(tree, entities[1..], full, e) ==> FirstCalled(tree, entities, full, e)
  {
    hide Called;
    var head, rest := entities[0], entities[1..];
    assert entities == [head] + rest;
    forall e | FirstCalled(tree, rest, full, e)
      ensures FirstCalled(tree, entities, full, e)
    {
      var j :| 0 <= j < |rest| && rest[j] == e && NoneCalled(tree, rest[..j], full);
      assert entities[..j + 1] == [head] + rest[..j];
      assert entities[j + 1] == e;
    }
  }

  lemma {:induction false} LookupIs(tree: seq<TNode>, entities: seq<nat>, full: seq<byte>)
    requires Ids(tree, entities)
    ensures match Lookup(tree, entities, full)
      case Some(e) => FirstCalled(tree, entities, full, e)
      case None => NoneCalled(tree, entities, full)
  {
    if entities != [] {
      var head, rest := entities[0], entities[1..];
      assert head in entities;
      assert forall x :: x in rest ==> x in entities;
      CalledIs(tree[head], full);
      LookupIs(tree, rest, full);
      if Called(tree[head], full) {
        assert NoneCalled(tree, entities[..0], full);
      } else {
        NotTheHead(tree, entities, full);
      }
    }
  }

  lemma FirstOnce(tree: seq<TNode>, entities: seq<nat>, full: seq<byte>, a: nat, b: nat)
    requires FirstCalled(tree, entities, full, a) && FirstCalled(tree, entities, full, b)
    ensures a == b
  {
    var i :| 0 <= i < |entities| && entities[i] == a && NoneCalled(tree, entities[..i], full);
    var j :| 0 <= j < |entities| && entities[j] == b && NoneCalled(tree, entities[..j], full);
    InPrefix(entities, i, j);
    InPrefix(entities, j, i);
  }

  lemma InPrefix(s: seq<nat>, i: int, j: int)
    requires 0 <= i < |s| && 0 <= j < |s|
    ensures i < j ==> s[i] in s[..j]
  {
    if i < j {
      assert s[..j][i] == s[i];
    }
  }

  /** Part by part. */
  lemma LeadsFirst(tree: seq<TNode>, d: nat, path: seq<seq<byte>>, e: nat, mid: nat)
    requires path != [] && d < |tree| && Next(tree, path[0], d, mid) && LeadsFrom(tree, mid, path[1..], e)
    ensures LeadsFrom(tree, d, path, e)
  {
    var ids: seq<nat> :| Follows(tree, path[1..], ids) && ids[0] == mid && ids[|path| - 1] == e;
    var all := [d] + ids;
    forall k | 0 <= k < |path|
      ensures Next(tree, path[k], all[k], all[k + 1])
    {
      if k > 0 {
        assert Next(tree, path[1..][k - 1], ids[k - 1], ids[k]);
      }
    }
    assert Follows(tree, path, all);
  }

  lemma LeadsNowhere(tree: seq<TNode>, d: nat, e: nat)
    ensures LeadsFrom(tree, d, [], e) <==> d == e < |tree|
  {
    if d == e < |tree| {
      assert Follows(tree, [], [d]);
    }
  }

  lemma {:induction false} LeadsOnce(tree: seq<TNode>, d: nat, path: seq<seq<byte>>, a: nat, b: nat)
    requires LeadsFrom(tree, d, path, a) && LeadsFrom(tree, d, path, b)
    ensures a == b
  {
    var x: seq<nat> :| Follows(tree, path, x) && x[0] == d && x[|path|] == a;
    var y: seq<nat> :| Follows(tree, path, y) && y[0] == d && y[|path|] == b;
    for k := 0 to |path|
      invariant x[k] == y[k]
    {
      assert Next(tree, path[k], x[k], x[k + 1]) && Next(tree, path[k], y[k], y[k + 1]);
      FirstOnce(tree, tree[x[k]].entities, Meant(path[k]), x[k + 1], y[k + 1]);
    }
  }

  /** The path leads to `e`, and from there its next part leads on to nothing. */
  ghost predicate Stuck(tree: seq<TNode>, d: nat, path: seq<seq<byte>>, k: nat, e: nat, error: Error) {
    && k < |path| && e < |tree| && LeadsFrom(tree, d, path[..k], e)
    && if tree[e].isDir then error == NotFound && NoneCalled(tree, tree[e].entities, Meant(path[k]))
       else error == NotADirectory
  }

  lemma {:induction false} SearchStep(tree: seq<TNode>, path: seq<seq<byte>>, current: nat)
    requires TreeOk(tree) && current < |tree| && path != []
    ensures !tree[current].isDir ==> Search(tree, path, current) == Err(NotADirectory)
    ensures tree[current].isDir ==> match Lookup(tree, tree[current].entities, Meant(path[0]))
      case None => Search(tree, path, current) == Err(NotFound)
      case Some(e) => Search(tree, path, current) == if |path| == 1 then Ok(e) else Search(tree, path[1..], e)
  {
    SplitMeans(path[0]);
    hide Meant, Lookup;
  }

  lemma StuckLater(tree: seq<TNode>, d: nat, path: seq<seq<byte>>, mid: nat, k: nat, e: nat, error: Error)
    requires path != [] && d < |tree| && Next(tree, path[0], d, mid) && Stuck(tree, mid, path[1..], k, e, error)
    ensures Stuck(tree, d, path, k + 1, e, error)
  {
    hide LeadsFrom, Meant, NoneCalled, Next;
    assert path[..k + 1][1..] == path[1..][..k];
    LeadsFirst(tree, d, path[..k + 1], e, mid);
  }

  /** Where a search ends: at the object that the path leads to, or with the error for the place
      where it gets stuck. */
  lemma {:induction false} SearchEnds(tree: seq<TNode>, path: seq<seq<byte>>, current: nat)
    requires TreeOk(tree) && current < |tree| && path != []
    ensures match Search(tree, path, current)
      case Ok(e) => LeadsFrom(tree, current, path, e)
      case Err(error) => exists k: nat, e: nat :: Stuck(tree, current, path, k, e, error)
    decreases |path|
  {
    hide LeadsFrom, Meant, Lookup, NoneCalled, FirstCalled, Search;
    SearchStep(tree, path, current);
    LeadsNowhere(tree, current, current);
    assert path[..0] == [];
    if !tree[current].isDir {
      assert Stuck(tree, current, path, 0, current, NotADirectory);
    } else {
      LookupIs(tree, tree[current].entities, Meant(path[0]));
      var found := Lookup(tree, tree[current].entities, Meant(path[0]));
      if found.None? {
        assert Stuck(tree, current, path, 0, current, NotFound);
      } else if |path| == 1 {
        LeadsNowhere(tree, found.value, found.value);
        LeadsFirst(tree, current, path, found.value, found.value);
      } else {
        SearchEnds(tree, path[1..], found.value);
        match Search(tree, path[1..], found.value)
        case Ok(e) => LeadsFirst(tree, current, path, e, found.value);
        case Err(error) =>
          var k: nat, e: nat :| Stuck(tree, found.value, path[1..], k, e, error);
          StuckLater(tree, current, path, found.value, k, e, error);
      }
    }
  }

  /** A path that leads somewhere leads on at each of its parts. */
  lemma LeadsOn(tree: seq<TNode>, d: nat, path: seq<seq<byte>>, e: nat, k: nat) returns (x: nat, y: nat)
    requires LeadsFrom(tree, d, path, e) && k < |path|
    ensures x < |tree| && LeadsFrom(tree, d, path[..k], x) && Next(tree, path[k], x, y)
  {
    var ids: seq<nat> :| Follows(tree, path, ids) && ids[0] == d && ids[|path|] == e;
    x, y := ids[k], ids[k + 1];
    var before := ids[..k + 1];
    forall i | 0 <= i < k
      ensures Next(tree, path[..k][i], before[i], before[i + 1])
    {
      assert Next(tree, path[i], ids[i], ids[i + 1]);
    }
    assert Follows(tree, path[..k], before);
  }

  lemma NextCalled(tree: seq<TNode>, part: seq<byte>, d: nat, e: nat)
    requires d < |tree| && Next(tree, part, d, e)
    ensures tree[d].isDir && !NoneCalled(tree, tree[d].entities, Meant(part))
  {
  }

  /** So it is nowhere stuck. */
  lemma StuckNowhere(tree: seq<TNode>, d: nat, path: seq<seq<byte>>, a: nat, k: nat, e: nat, error: Error)
    requires LeadsFrom(tree, d, path, a)
    ensures !Stuck(tree, d, path, k, e, error)
  {
    if k < |path| && LeadsFrom(tree, d, path[..k], e) {
      var x, y := LeadsOn(tree, d, path, a, k);
      LeadsOnce(tree, d, path[..k], x, e);
      NextCalled(tree, path[k], x, y);
    }
  }

  /** The search succeeds with `e` if and only if the path leads to `e`. */
  lemma {:induction false} SearchIff(tree: seq<TNode>, path: seq<seq<byte>>, current: nat, e: nat)
    requires TreeOk(tree) && current < |tree| && path != []
    ensures Search(tree, path, current) == Ok(e) <==> LeadsFrom(tree, current, path, e)
  {
    hide LeadsFrom, Stuck, Search;
    SearchEnds(tree, path, current);
    if LeadsFrom(tree, current, path, e) {
      match Search(tree, path, current)
      case Ok(f) => LeadsOnce(tree, current, path, e, f);
      case Err(error) =>
        var k: nat, x: nat :| Stuck(tree, current, path, k, x, error);
        StuckNowhere(tree, current, path, e, k, x, error);
    }
  }

  /** The target of a new object is the directory that the path leads to, the root for no path. */
  lemma TargetIff(tree: seq<TNode>, path: seq<seq<byte>>, d: nat)
    requires TreeOk(tree)
    ensures Target(tree, path) == Ok(d) <==> Leads(tree, path, d) && d < |tree| && tree[d].isDir
  {
    hide LeadsFrom, Search;
    if path == [] {
      LeadsNowhere(tree, 0, d);
    } else {
      SearchIff(tree, path, 0, d);
    }
  }

  // ---- paths when an object is added ----

  /** The last part of a path. */
  lemma LeadsLast(tree: seq<TNode>, d: nat, path: seq<seq<byte>>, x: nat, e: nat)
    requires path != [] && x < |tree|
    requires LeadsFrom(tree, d, path[..|path| - 1], x) && Next(tree, path[|path| - 1], x, e)
    ensures LeadsFrom(tree, d, path, e)
  {
    var init := path[..|path| - 1];
    var ids: seq<nat> :| Follows(tree, init, ids) && ids[0] == d && ids[|init|] == x;
    var all := ids + [e];
    forall k | 0 <= k < |path|
      ensures Next(tree, path[k], all[k], all[k + 1])
    {
      if k < |init| {
        assert Next(tree, init[k], ids[k], ids[k + 1]);
      }
    }
    assert Follows(tree, path, all);
  }

  lemma FirstThere(tree: seq<TNode>, entities: seq<nat>, full: seq<byte>, e: nat)
    ensures FirstCalled(tree, entities, full, e) ==> e in entities && e < |tree|
  {
  }

  /** Older entities go before the new one. */
  lemma FirstAfterAdd(tree: seq<TNode>, t: seq<TNode>, es: seq<nat>, full: seq<byte>, e: nat)
    requires Ids(tree, es) && |t| == |tree| + 1
    requires forall x :: 0 <= x < |tree| ==> t[x].name == tree[x].name && t[x].ext == tree[x].ext
    ensures FirstCalled(t, es, full, e) <==> FirstCalled(tree, es, full, e)
    ensures FirstCalled(t, es + [|tree|], full, e) <==>
      if e < |tree| then FirstCalled(tree, es, full, e)
      else e == |tree| && Called(t[e], full) && NoneCalled(tree, es, full)
  {
    var more := es + [|tree|];
    forall j | 0 <= j <= |es|
      ensures more[..j] == es[..j]
      ensures NoneCalled(t, es[..j], full) == NoneCalled(tree, es[..j], full)
    {
      assert forall x :: x in es[..j] ==> x in es;
      assert forall x :: x in es[..j] ==> x < |tree| && Called(t[x], full) == Called(tree[x], full);
    }
    assert es[..|es|] == es;
    assert forall j :: 0 <= j < |es| ==> es[j] in es && more[j] == es[j];
    hide Called;
    if e < |tree| && FirstCalled(tree, es, full, e) {
      var j :| 0 <= j < |es| && es[j] == e && NoneCalled(tree, es[..j], full);
      assert more[j] == e;
    }
    if e == |tree| && Called(t[e], full) && NoneCalled(tree, es, full) {
      assert more[|es|] == e && NoneCalled(t, more[..|es|], full);
    }
  }

  /** A path to a new object `node` of directory `d`: its last part asks for the object, no older
      entity is called so, and the parts before lead to the directory. */
  ghost predicate NewPath(tree: seq<TNode>, d: nat, node: TNode, path: seq<seq<byte>>)
    requires d < |tree|
  {
    && path != [] && Leads(tree, path[..|path| - 1], d)
    && Called(node, Meant(path[|path| - 1])) && NoneCalled(tree, tree[d].entities, Meant(path[|path| - 1]))
  }

  lemma NextAfterAdd(tree: seq<TNode>, d: nat, node: TNode, part: seq<byte>, x: nat, e: nat)
    requires TreeOk(tree) && d < |tree| && tree[d].isDir && node.entities == [] && x <= |tree|
    ensures Next(AddNode(tree, d, node), part, x, e) <==>
      x < |tree|
      && if e < |tree| then Next(tree, part, x, e)
         else e == |tree| && x == d && Called(node, Meant(part)) && NoneCalled(tree, tree[d].entities, Meant(part))
  {
    var t := AddNode(tree, d, node);
    if x < |tree| {
      FirstAfterAdd(tree, t, tree[x].entities, Meant(part), e);
      FirstThere(tree, tree[x].entities, Meant(part), e);
    }
  }

  /** Adding an object leaves all paths as they are and adds those to the new object. */
  lemma {:induction false} LeadsAfterAdd(tree: seq<TNode>, d: nat, node: TNode, path: seq<seq<byte>>, e: nat)
    requires TreeOk(tree) && d < |tree| && tree[d].isDir && node.entities == []
    ensures Leads(AddNode(tree, d, node), path, e) <==>
      if e < |tree| then Leads(tree, path, e) else e == |tree| && NewPath(tree, d, node, path)
    decreases |path|
  {
    hide LeadsFrom, Next, Called, NoneCalled, Meant, AddNode;
    var t := AddNode(tree, d, node);
    if path == [] {
      LeadsNowhere(tree, 0, e);
      LeadsNowhere(t, 0, e);
    } else {
      var init, last := path[..|path| - 1], path[|path| - 1];
      if Leads(t, path, e) {
        var x, y := LeadsOn(t, 0, path, e, |path| - 1);
        LeadsLast(t, 0, path, x, y);
        LeadsOnce(t, 0, path, e, y);
        LeadsAfterAdd(tree, d, node, init, x);
        NextAfterAdd(tree, d, node, last, x, e);
        if e < |tree| {
          LeadsLast(tree, 0, path, x, e);
        }
      }
      if e < |tree| && Leads(tree, path, e) {
        var x, y := LeadsOn(tree, 0, path, e, |path| - 1);
        LeadsLast(tree, 0, path, x, y);
        LeadsOnce(tree, 0, path, e, y);
        LeadsAfterAdd(tree, d, node, init, x);
        NextAfterAdd(tree, d, node, last, x, e);
        LeadsLast(t, 0, path, x, e);
      }
      if e == |tree| && NewPath(tree, d, node, path) {
        LeadsAfterAdd(tree, d, node, init, d);
        NextAfterAdd(tree, d, node, last, d, e);
        LeadsLast(t, 0, path, d, e);
      }
    }
  }

  // ---- runs of the ideal file system ----

  /** The object that the operation creates. */
  function NodeOf(op: Op): TNode
    requires !op.WriteContent?
  {
    match op
    case CreateFile(name, ext, _, _, _) => TNode(name, ext, false, [])
    case CreateDirectory(name, _, _) => TNode(name, [], true, [])
  }

  /** Creation puts the object into the directory that the path of the operation leads to, last. */
  lemma CreateMeans(i: Ideal, op: Op) returns (d: nat)
    requires i.Ok() && !op.WriteContent? && IdealStep(i, op).Ok?
    ensures d < |i.tree| && i.tree[d].isDir && Leads(i.tree, op.path, d)
    ensures IdealStep(i, op) == Ok(Ideal(AddNode(i.tree, d, NodeOf(op)), i.contents + [[]]))
  {
    d := Target(i.tree, op.path).value;
    TargetIff(i.tree, op.path, d);
  }

  /** Writing replaces the content of the file that the path leads to. */
  lemma WriteMeans(i: Ideal, op: Op) returns (f: nat)
    requires i.Ok() && op.WriteContent? && IdealStep(i, op).Ok?
    ensures f < |i.tree| && !i.tree[f].isDir && Leads(i.tree, op.path, f)
    ensures IdealStep(i, op) == Ok(Ideal(i.tree, i.contents[f := op.content]))
  {
    f := Search(i.tree, op.path, 0).value;
    SearchIff(i.tree, op.path, 0, f);
  }

  /** No operation changes a path, or the names and kinds, of the objects there were. */
  ghost predicate PathsKept(i: Ideal, j: Ideal) {
    && |i.tree| <= |j.tree|
    && (forall e :: 0 <= e < |i.tree| ==>
         && j.tree[e].name == i.tree[e].name && j.tree[e].ext == i.tree[e].ext && j.tree[e].isDir == i.tree[e].isDir
         && i.tree[e].entities <= j.tree[e].entities)
    && forall path, e: nat :: e < |i.tree| ==> (Leads(j.tree, path, e) <==> Leads(i.tree, path, e))
  }

  lemma StepKeepsPaths(i: Ideal, op: Op)
    requires i.Ok() && IdealStep(i, op).Ok?
    ensures PathsKept(i, IdealStep(i, op).value)
  {
    hide LeadsFrom, IdealStep;
    if op.WriteContent? {
      var f := WriteMeans(i, op);
    } else {
      var d := CreateMeans(i, op);
      forall path, e: nat | e < |i.tree|
        ensures Leads(AddNode(i.tree, d, NodeOf(op)), path, e) <==> Leads(i.tree, path, e)
      {
        LeadsAfterAdd(i.tree, d, NodeOf(op), path, e);
      }
    }
  }

  /** So on every run every path that led to an object leads to it, and no other path ever does. */
  lemma {:induction false} RunKeepsPaths(i: Ideal, ops: seq<Op>)
    requires i.Ok() && IdealRun(i, ops).Ok?
    ensures PathsKept(i, IdealRun(i, ops).value)
    decreases |ops|
  {
    hide IdealStep, LeadsFrom;
    if ops != [] {
      StepKeepsPaths(i, ops[0]);
      RunKeepsPaths(IdealStep(i, ops[0]).value, ops[1..]);
    }
  }

  lemma {:induction false} RunSplit(i: Ideal, before: seq<Op>, after: seq<Op>)
    requires i.Ok()
    ensures IdealRun(i, before + after).Ok? ==> IdealRun(i, before).Ok?
    ensures IdealRun(i, before).Ok? ==> IdealRun(i, before + after) == IdealRun(IdealRun(i, before).value, after)
    decreases |before|
  {
    hide IdealStep;
    if before == [] {
      assert before + after == after;
    } else {
      assert (before + after)[0] == before[0] && (before + after)[1..] == before[1..] + after;
      if IdealStep(i, before[0]).Ok? {
        RunSplit(IdealStep(i, before[0]).value, before[1..], after);
      }
    }
  }

  /** Where a created object is found. On every run, from its creation to the end, exactly these paths
      lead to it: those whose last part asks for its full name, and whose parts before lead to the
      directory it was created in; none, if an older entity of that directory is called so. */
  lemma CreatedFound(i: Ideal, op: Op, after: seq<Op>, path: seq<seq<byte>>) returns (d: nat)
    requires i.Ok() && !op.WriteContent? && IdealRun(i, [op] + after).Ok?
    ensures d < |i.tree| && i.tree[d].isDir && Leads(i.tree, op.path, d)
    ensures var t, n := IdealRun(i, [op] + after).value.tree, |i.tree|;
      && n < |t| && t[n].name == NodeOf(op).name && t[n].ext == NodeOf(op).ext && t[n].isDir == NodeOf(op).isDir
      && i.tree[d].entities + [n] <= t[d].entities
      && Leads(t, op.path, d)
      && (Leads(t, path, n) <==> NewPath(i.tree, d, NodeOf(op), path))
  {
    hide IdealStep, LeadsFrom;
    d := CreateMeans(i, op);
    var n := |i.tree|;
    assert ([op] + after)[1..] == after;
    var j := IdealStep(i, op).value;
    StepKeepsPaths(i, op);
    RunKeepsPaths(j, after);
    LeadsAfterAdd(i.tree, d, NodeOf(op), path, n);
    var t := IdealRun(j, after).value.tree;
    assert Leads(t, op.path, d) <==> Leads(j.tree, op.path, d);
    assert Leads(t, path, n) <==> Leads(j.tree, path, n);
    assert t[d].entities[..|j.tree[d].entities|] == j.tree[d].entities;
  }

  /** In particular the path of the operation and the full name lead to it if the name does not lose
      its last dot and no older entity bears it. */
  lemma CreatedReached(i: Ideal, op: Op, after: seq<Op>) returns (d: nat)
    requires i.Ok() && !op.WriteContent? && IdealRun(i, [op] + after).Ok?
    ensures d < |i.tree| && i.tree[d].isDir && Leads(i.tree, op.path, d)
    ensures var full := BuildName(NodeOf(op).name, NodeOf(op).ext);
      Leads(IdealRun(i, [op] + after).value.tree, op.path + [full], |i.tree|) <==>
        Meant(full) == full && NoneCalled(i.tree, i.tree[d].entities, full)
  {
    var full := BuildName(NodeOf(op).name, NodeOf(op).ext);
    var path := op.path + [full];
    d := CreatedFound(i, op, after, path);
    hide LeadsFrom, Meant, NoneCalled;
    assert path[..|path| - 1] == op.path && path[|path| - 1] == full;
    CalledIs(NodeOf(op), full);
    CalledIs(NodeOf(op), Meant(full));
  }

  // ---- what is read at a path ----

  /** `op` writes to the object that its path leads to in `tree`, which is `f`. */
  ghost predicate WritesTo(tree: seq<TNode>, op: Op, f: nat) {
    op.WriteContent? && Leads(tree, op.path, f)
  }

  ghost predicate NoneWrites(tree: seq<TNode>, ops: seq<Op>, f: nat) {
    forall op :: op in ops ==> !WritesTo(tree, op, f)
  }

  /** `content` is what the last of the operations that write to `f` writes; without one it is `first`. */
  ghost predicate LastWritten(tree: seq<TNode>, ops: seq<Op>, f: nat, first: seq<byte>, content: seq<byte>) {
    || (NoneWrites(tree, ops, f) && content == first)
    || exists k :: 0 <= k < |ops| && WritesTo(tree, ops[k], f) && ops[k].content == content
         && NoneWrites(tree, ops[k + 1..], f)
  }

  lemma LastOfRest(tree: seq<TNode>, ops: seq<Op>, f: nat, first: seq<byte>, next: seq<byte>, content: seq<byte>)
    requires ops != [] && LastWritten(tree, ops[1..], f, next, content)
    requires if WritesTo(tree, ops[0], f) then next == ops[0].content else next == first
    ensures LastWritten(tree, ops, f, first, content)
  {
    hide LeadsFrom;
    var rest := ops[1..];
    if NoneWrites(tree, rest, f) && content == next {
      if WritesTo(tree, ops[0], f) {
        assert ops[0 + 1..] == rest;
      } else {
        assert ops == [ops[0]] + rest;
      }
    } else {
      var k :| 0 <= k < |rest| && WritesTo(tree, rest[k], f) && rest[k].content == content
        && NoneWrites(tree, rest[k + 1..], f);
      assert ops[k + 1] == rest[k] && ops[k + 1 + 1..] == rest[k + 1..];
    }
  }

  /** One operation, with paths of the final tree: a write changes the file that its path leads to. */
  lemma StepWrites(i: Ideal, op: Op, tree: seq<TNode>, f: nat)
    requires i.Ok() && IdealStep(i, op).Ok? && f < |IdealStep(i, op).value.tree|
    requires forall path, e: nat :: e < |IdealStep(i, op).value.tree| ==>
      (Leads(tree, path, e) <==> Leads(IdealStep(i, op).value.tree, path, e))
    ensures var j := IdealStep(i, op).value;
      j.contents[f] == if WritesTo(tree, op, f) then op.content else if f < |i.tree| then i.contents[f] else []
  {
    hide IdealStep, LeadsFrom;
    if op.WriteContent? {
      var g := WriteMeans(i, op);
      if WritesTo(tree, op, f) {
        LeadsOnce(i.tree, 0, op.path, f, g);
      }
    } else {
      var d := CreateMeans(i, op);
    }
  }

  /** The content of an object at the end of a run, by paths: what was last written through a path
      that leads to it, or what it was at the start. */
  lemma {:induction false} ContentByPath(i: Ideal, ops: seq<Op>, f: nat)
    requires i.Ok() && IdealRun(i, ops).Ok? && f < |IdealRun(i, ops).value.tree|
    ensures var j := IdealRun(i, ops).value;
      LastWritten(j.tree, ops, f, if f < |i.tree| then i.contents[f] else [], j.contents[f])
    decreases |ops|
  {
    hide IdealStep, LeadsFrom, LastWritten;
    var j := IdealRun(i, ops).value;
    if ops == [] {
      NothingWritten(j.tree, f, i.contents[f]);
    } else {
      var i1 := IdealStep(i, ops[0]).value;
      RunKeepsPaths(i1, ops[1..]);
      ContentByPath(i1, ops[1..], f);
      var first, next := if f < |i.tree| then i.contents[f] else [], if f < |i1.tree| then i1.contents[f] else [];
      StepKeepsPaths(i, ops[0]);
      if f < |i1.tree| {
        StepWrites(i, ops[0], j.tree, f);
      } else {
        NotWritten(i, ops[0], j.tree, f);
      }
      LastOfRest(j.tree, ops, f, first, next, j.contents[f]);
    }
  }

  lemma NothingWritten(tree: seq<TNode>, f: nat, first: seq<byte>)
    ensures LastWritten(tree, [], f, first, first)
  {
  }

  /** An operation does not write to what is created later. */
  lemma NotWritten(i: Ideal, op: Op, tree: seq<TNode>, f: nat)
    requires i.Ok() && IdealStep(i, op).Ok? && f >= |IdealStep(i, op).value.tree|
    requires forall path, e: nat :: e < |IdealStep(i, op).value.tree| ==>
      (Leads(tree, path, e) <==> Leads(IdealStep(i, op).value.tree, path, e))
    ensures !WritesTo(tree, op, f)
  {
    hide IdealStep, LeadsFrom;
    if op.WriteContent? {
      var g := WriteMeans(i, op);
      assert Leads(tree, op.path, g);
      if Leads(tree, op.path, f) {
        LeadsOnce(tree, 0, op.path, f, g);
      }
    }
  }
}
