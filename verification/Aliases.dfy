/** The short names of the objects of a directory: the eleven characters in front of each short record,
    as the volume holds them, and when two of them are the same. */
module Aliases {
  import opened Bytes
  import opened Outcome
  import opened DirectoryRecords
  import opened LongNames
  import opened NameTree
  import opened FileSystem
  import opened DirectoryListing
  import opened ListingRuns

  // ---- the short names of a directory ----

  /** The name stands in its short record as it is: always without long names, otherwise if it has at
      most eight and three characters and none of these. */
  predicate KeepsName(longNames: bool, node: TNode) {
    !longNames || (|node.name| <= 8 && |node.ext| <= 3 && forall c :: c in node.name ==> c as char !in ".+,;=[]")
  }

  /** The first `n` characters. */
  function Start(s: seq<byte>, n: nat): seq<byte> { if |s| <= n then s else s[..n] }

  /** The positions before `n` of the entities whose names begin with the same six characters; a
      shorter name is alike only to itself. */
  function Alike(tree: seq<TNode>, entities: seq<nat>, name: seq<byte>, n: nat): set<nat> {
    set m: nat | m < n && m < |entities| && entities[m] < |tree| && Start(tree[entities[m]].name, 6) == Start(name, 6)
  }

  /** The characters of the short name of entity `j`: its own name, or six characters of it, a tilde and
      a character that counts the older entities alike to it, from 1 on. */
  function ShortBase(longNames: bool, tree: seq<TNode>, entities: seq<nat>, j: nat): seq<int>
    requires Ids(tree, entities) && j < |entities|
  {
    assert entities[j] in entities;
    var node := tree[entities[j]];
    if KeepsName(longNames, node) then node.name
    else Start(node.name, 6) + [0x7e, 1 + |Alike(tree, entities, node.name, j)|]
  }

  function Extension(longNames: bool, node: TNode): seq<int> {
    if KeepsName(longNames, node) then node.ext else Start(node.ext, 3)
  }

  /** The same for object record `k` of directory `d`, which begins with its links to itself and to
      the parent unless it is the root. */
  function BaseOf(longNames: bool, tree: seq<TNode>, d: nat, k: nat): seq<int>
    requires d < |tree| && Ids(tree, tree[d].entities) && k < Dots(d) + |tree[d].entities|
  {
    if k < Dots(d) then if k == 0 then [0x2e] else [0x2e, 0x2e]
    else ShortBase(longNames, tree, tree[d].entities, k - Dots(d))
  }

  function ExtensionOf(longNames: bool, tree: seq<TNode>, d: nat, k: nat): seq<int>
    requires d < |tree| && Ids(tree, tree[d].entities) && k < Dots(d) + |tree[d].entities|
  {
    if k < Dots(d) then []
    else
      assert tree[d].entities[k - Dots(d)] in tree[d].entities;
      Extension(longNames, tree[tree[d].entities[k - Dots(d)]])
  }

  /** The field holds the text and blanks behind it. */
  predicate Padded(field: seq<byte>, text: seq<int>) {
    |text| <= |field| && forall i :: 0 <= i < |field| ==> field[i] == if i < |text| then text[i] else 0x20
  }

  /** The eleven name bytes of the record. */
  predicate Bears(r: Record, base: seq<int>, ext: seq<int>) { Padded(r[..8], base) && Padded(r[8..11], ext) }

  ghost predicate BearsAll(longNames: bool, tree: seq<TNode>, log: seq<Record>, d: nat)
    requires d < |tree| && Ids(tree, tree[d].entities)
  {
    var l := Listing(log, |log|);
    && |l| == Dots(d) + |tree[d].entities|
    && forall k :: 0 <= k < |l| ==> BearsAt(longNames, tree, d, k, log[l[k]])
  }

  /** The record bears the short name of object record `k`. */
  predicate BearsAt(longNames: bool, tree: seq<TNode>, d: nat, k: nat, r: Record)
    requires d < |tree| && Ids(tree, tree[d].entities) && k < Dots(d) + |tree[d].entities|
  {
    Bears(r, BaseOf(longNames, tree, d, k), ExtensionOf(longNames, tree, d, k))
  }

  /** In every directory every object record bears the short name of its object. */
  ghost predicate ShortNames(s: FsState, logs: seq<seq<Record>>) {
    && |logs| == |s.tree|
    && forall d :: 0 <= d < |s.tree| && s.tree[d].isDir ==>
         Ids(s.tree, s.tree[d].entities) && BearsAll(s.longNames, s.tree, logs[d], d)
  }

  // ---- the order character counts a set ----

  lemma SameStart(a: seq<byte>, b: seq<byte>)
    ensures Clip(a, 0, 6) == Clip(b, 0, 6) <==> Start(a, 6) == Start(b, 6)
    ensures Start(a, 6) == Start(b, 6) <==> a == b || (|a| >= 6 && |b| >= 6 && a[..6] == b[..6])
  {
  }

  lemma {:induction false} CountLast(tree: seq<TNode>, entities: seq<nat>, name: seq<byte>)
    requires Ids(tree, entities) && entities != []
    ensures var n := |entities| - 1;
      && Ids(tree, entities[..n]) && entities[n] < |tree|
      && CountPrefix(tree, entities, name) == CountPrefix(tree, entities[..n], name)
           + if Start(tree[entities[n]].name, 6) == Start(name, 6) then 1 else 0
    decreases |entities|
  {
    var n := |entities| - 1;
    assert entities[0] in entities && entities[n] in entities;
    assert forall x :: x in entities[..n] ==> x in entities;
    assert forall x :: x in entities[1..] ==> x in entities;
    SameStart(tree[entities[0]].name, name);
    if n > 0 {
      CountLast(tree, entities[1..], name);
      assert entities[1..][..n - 1] == entities[..n][1..];
    } else {
      assert entities[1..] == [] && entities[..n] == [];
    }
  }

  /** The number of siblings alike, as the size of a set. */
  lemma {:induction false} CountIsSize(tree: seq<TNode>, entities: seq<nat>, name: seq<byte>, n: nat)
    requires Ids(tree, entities) && n <= |entities|
    ensures Ids(tree, entities[..n]) && CountPrefix(tree, entities[..n], name) == |Alike(tree, entities, name, n)|
    decreases n
  {
    assert forall x :: x in entities[..n] ==> x in entities;
    if n == 0 {
      assert Alike(tree, entities, name, 0) == {};
    } else {
      CountIsSize(tree, entities, name, n - 1);
      CountLast(tree, entities[..n], name);
      assert entities[..n][..n - 1] == entities[..n - 1] && entities[..n][n - 1] == entities[n - 1];
      hide Alike, CountPrefix, Start;
      AlikeStep(tree, entities, name, n - 1);
    }
  }

  lemma AlikeStep(tree: seq<TNode>, entities: seq<nat>, name: seq<byte>, n: nat)
    requires Ids(tree, entities) && n < |entities| && entities[n] < |tree|
    ensures |Alike(tree, entities, name, n + 1)| == |Alike(tree, entities, name, n)|
      + if Start(tree[entities[n]].name, 6) == Start(name, 6) then 1 else 0
  {
    var fewer := Alike(tree, entities, name, n);
    var here := Start(tree[entities[n]].name, 6) == Start(name, 6);
    hide Start;
    assert Alike(tree, entities, name, n + 1) == if here then fewer + {n} else fewer;
  }

  // ---- when two short names are the same ----

  /** Equal but for blanks at the end. */
  predicate SameButBlanks(a: seq<int>, b: seq<int>) {
    && (forall i :: 0 <= i < |a| && i < |b| ==> a[i] == b[i])
    && (forall i :: |b| <= i < |a| ==> a[i] == 0x20)
    && (forall i :: |a| <= i < |b| ==> b[i] == 0x20)
  }

  lemma PaddedSame(f: seq<byte>, g: seq<byte>, a: seq<int>, b: seq<int>)
    requires Padded(f, a) && Padded(g, b) && |f| == |g|
    ensures f == g <==> SameButBlanks(a, b)
  {
    if f == g {
      assert forall i :: 0 <= i < |a| ==> a[i] == f[i];
      assert forall i :: 0 <= i < |b| ==> b[i] == g[i];
    }
  }

  /** Two records bear the same eleven bytes exactly if their names and extensions are equal but for
      blanks at the end. */
  lemma ClashIff(r: Record, q: Record, a: seq<int>, b: seq<int>, x: seq<int>, y: seq<int>)
    requires Bears(r, a, x) && Bears(q, b, y)
    ensures r[..11] == q[..11] <==> SameButBlanks(a, b) && SameButBlanks(x, y)
  {
    PaddedSame(r[..8], q[..8], a, b);
    PaddedSame(r[8..11], q[8..11], x, y);
    hide SameButBlanks;
    assert r[..11] == r[..8] + r[8..11] && q[..11] == q[..8] + q[8..11];
    assert r[..8] == r[..11][..8] && q[..8] == q[..11][..8];
    assert r[8..11] == r[..11][8..] && q[8..11] == q[..11][8..];
  }

  /** The exact condition for two aliases: the same characters and number, or one begins with one more
      tilde than the other and their numbers are those of the blank and the tilde. */
  predicate AliasesClash(p: seq<int>, m: int, q: seq<int>, n: int) {
    || (p == q && m == n)
    || (q == p + [0x7e] && m == 0x7e && n == 0x20)
    || (p == q + [0x7e] && n == 0x7e && m == 0x20)
  }

  lemma AliasesClashIff(p: seq<int>, m: int, q: seq<int>, n: int)
    ensures SameButBlanks(p + [0x7e, m], q + [0x7e, n]) <==> AliasesClash(p, m, q, n)
  {
    var a, b := p + [0x7e, m], q + [0x7e, n];
    if SameButBlanks(a, b) {
      assert a[|p|] == 0x7e && a[|p| + 1] == m && b[|q|] == 0x7e && b[|q| + 1] == n;
      assert forall i :: 0 <= i < |p| ==> a[i] == p[i];
      assert forall i :: 0 <= i < |q| ==> b[i] == q[i];
      assert |p| == |q| || |q| == |p| + 1 || |p| == |q| + 1;
      if |q| == |p| + 1 {
        assert q == p + [0x7e];
      } else if |p| == |q| + 1 {
        assert p == q + [0x7e];
      } else {
        assert p == q;
      }
    }
  }

  /** Of two entities alike the younger has the greater number. */
  lemma YoungerCountsMore(tree: seq<TNode>, entities: seq<nat>, i: nat, j: nat)
    requires Ids(tree, entities) && i < j < |entities| && entities[i] < |tree| && entities[j] < |tree|
    requires Start(tree[entities[i]].name, 6) == Start(tree[entities[j]].name, 6)
    ensures |Alike(tree, entities, tree[entities[i]].name, i)| < |Alike(tree, entities, tree[entities[j]].name, j)|
  {
    var a := Alike(tree, entities, tree[entities[i]].name, i);
    var b := Alike(tree, entities, tree[entities[j]].name, j);
    Smaller(a, b, i);
  }

  lemma Smaller(a: set<nat>, b: set<nat>, x: nat)
    requires a <= b && x in b && x !in a
    ensures |a| < |b|
  {
    Fewer(a, b - {x});
  }

  lemma {:induction false} Fewer(a: set<nat>, b: set<nat>)
    requires a <= b
    ensures |a| <= |b|
    decreases |a|
  {
    if a != {} {
      var x :| x in a;
      Fewer(a - {x}, b - {x});
    }
  }

  /** `b` begins with one more tilde than `a`, and the numbers are the codes of the tilde and the blank. */
  predicate OneMoreTilde(a: seq<byte>, m: int, b: seq<byte>, n: int) {
    Start(b, 6) == Start(a, 6) + [0x7e] && m == 0x7e && n == 0x20
  }

  /** Two long-named entities, the first one older: their names are the same but for blanks exactly if
      one of them begins with one more tilde than the other and their numbers are 126 and 32. So those
      with the same beginning differ. */
  lemma LongNamesClash(longNames: bool, tree: seq<TNode>, entities: seq<nat>, i: nat, j: nat)
    requires Ids(tree, entities) && i < j < |entities| && entities[i] < |tree| && entities[j] < |tree|
    requires !KeepsName(longNames, tree[entities[i]]) && !KeepsName(longNames, tree[entities[j]])
    ensures var a, b := tree[entities[i]].name, tree[entities[j]].name;
      var m, n := 1 + |Alike(tree, entities, a, i)|, 1 + |Alike(tree, entities, b, j)|;
      && (SameButBlanks(ShortBase(longNames, tree, entities, i), ShortBase(longNames, tree, entities, j)) <==>
           OneMoreTilde(a, m, b, n) || OneMoreTilde(b, n, a, m))
      && (Start(a, 6) == Start(b, 6) ==>
           !SameButBlanks(ShortBase(longNames, tree, entities, i), ShortBase(longNames, tree, entities, j)))
  {
    var a, b := tree[entities[i]].name, tree[entities[j]].name;
    var m, n := 1 + |Alike(tree, entities, a, i)|, 1 + |Alike(tree, entities, b, j)|;
    hide SameButBlanks, KeepsName, Start, Alike;
    AliasesClashIff(Start(a, 6), m, Start(b, 6), n);
    if Start(a, 6) == Start(b, 6) {
      YoungerCountsMore(tree, entities, i, j);
    }
  }

  // ---- the name that a reader shows ----

  /** `t` is `s` without the blanks at its end. */
  predicate Trimmed(s: seq<byte>, t: seq<byte>) {
    && t <= s && (forall i :: |t| <= i < |s| ==> s[i] == 0x20)
    && (t != [] ==> t[|t| - 1] != 0x20)
  }

  lemma {:induction false} StripTrims(s: seq<byte>)
    ensures Trimmed(s, StripTrailing(s, SPACE))
  {
    if s != [] && s[|s| - 1] == SPACE {
      StripTrims(s[..|s| - 1]);
    }
  }

  /** A name that keeps to its short record is shown as it is, without the blanks at the end of either
      part; a long name is shown with every upper-case letter in lower case. */
  lemma ShownAs(longNames: bool, node: TNode)
    ensures var shown := Display(longNames, node.name, node.ext);
      var full := node.name + (if node.ext == [] then [] else [0x2e] + node.ext);
      if KeepsName(longNames, node) then
        exists name, ext :: Trimmed(node.name, name) && Trimmed(node.ext, ext)
          && shown == name + (if ext == [] then [] else [0x2e] + ext)
      else
        |shown| == |full|
        && forall k :: 0 <= k < |full| ==>
             shown[k] == (if 'A' <= full[k] as char <= 'Z' then full[k] + 32 else full[k])
             && !('A' <= shown[k] as char <= 'Z')
  {
    KeptNames(longNames, node);
    StripTrims(node.name);
    StripTrims(node.ext);
    hide StripTrailing, IsValidSfn, KeepsName, Trimmed;
  }

  // ---- creation writes the short name ----

  lemma PadIsPadded(s: seq<byte>, size: nat)
    requires |s| <= size
    ensures Padded(PadString(s, size), s)
  {
  }

  lemma KeptNames(longNames: bool, node: TNode)
    ensures KeepsName(longNames, node) <==> !longNames || IsValidSfn(node.name, node.ext)
  {
    assert forall c :: c in node.name ==> (c as char in ".+,;=[]" <==> c in {0x2e, 0x2b, 0x2c, 0x3b, 0x3d, 0x5b, 0x5d});
  }

  lemma StartIsClip(s: seq<byte>, n: nat)
    ensures Start(s, n) == Clip(s, 0, n)
  {
  }

  lemma NewBears(longNames: bool, siblings: nat, node: TNode, attr: byte, cluster: nat, stamp: Stamp)
    requires stamp.Fits() && cluster < 0x1_0000 && |BuildName(node.name, node.ext)| <= 255
    requires EntryRecords(longNames, siblings, node.name, node.ext, attr, cluster, stamp).Ok?
    ensures var recs := EntryRecords(longNames, siblings, node.name, node.ext, attr, cluster, stamp).value;
      Bears(recs[|recs| - 1],
            if KeepsName(longNames, node) then node.name else Start(node.name, 6) + [0x7e, siblings + 1],
            Extension(longNames, node))
    ensures var recs := EntryRecords(longNames, siblings, node.name, node.ext, attr, cluster, stamp).value;
      Describes(recs[|recs| - 1], attr, cluster, stamp)
  {
    hide LongRecords, Checksum, IsValidSfn, KeepsName, Clip, Start, Padded, PadString, Describes;
    var name, ext := node.name, node.ext;
    KeptNames(longNames, node);
    if KeepsName(longNames, node) {
      ShortLengths(longNames, name, ext, attr, cluster, stamp);
      ShortRecordFields(longNames, name, ext, attr, cluster, stamp, true, false);
      ShortRecordDescribes(longNames, name, ext, attr, cluster, stamp, true, false);
      PadIsPadded(name, 8);
      PadIsPadded(ext, 3);
    } else {
      var alias := Clip(name, 0, 6) + [0x7e, siblings + 1];
      ShortRecordFields(longNames, AliasName(name, siblings + 1), AliasExt(ext), attr, cluster, stamp, false, true);
      ShortRecordDescribes(longNames, AliasName(name, siblings + 1), AliasExt(ext), attr, cluster, stamp, false, true);
      StartIsClip(name, 6);
      StartIsClip(ext, 3);
      AliasLengths(name, ext);
      PadIsPadded(alias, 8);
      PadIsPadded(Clip(ext, 0, 3), 3);
      PadTwice(alias, 8);
      PadTwice(Clip(ext, 0, 3), 3);
    }
  }

  lemma AliasLengths(name: seq<byte>, ext: seq<byte>)
    ensures |Clip(name, 0, 6)| <= 6 && |Clip(ext, 0, 3)| <= 3
  {
  }

  lemma PadTwice(s: seq<byte>, size: nat)
    ensures PadString(PadString(s, size), size) == PadString(s, size)
  {
  }

  lemma DotBears(longNames: bool, name: seq<byte>, cluster: nat)
    requires |name| <= 8 && cluster < 0x1_0000 && DotRecord(longNames, name, cluster).Ok?
    ensures Bears(DotRecord(longNames, name, cluster).value, name, [])
  {
    ShortRecordFields(longNames, name, [], ATTR_DIRECTORY, cluster, DEFAULT_STAMP, false, false);
    hide Padded, PadString;
    PadIsPadded(name, 8);
    PadIsPadded([], 3);
  }

  /** Older objects keep their short names. */
  lemma OldBears(longNames: bool, tree: seq<TNode>, t: seq<TNode>, x: nat, k: nat)
    requires TreeOk(tree) && TreeOk(t) && x < |tree| <= |t| && tree[x].entities <= t[x].entities
    requires forall e :: 0 <= e < |tree| ==> t[e].name == tree[e].name && t[e].ext == tree[e].ext
    requires k < Dots(x) + |tree[x].entities|
    ensures BaseOf(longNames, t, x, k) == BaseOf(longNames, tree, x, k)
    ensures ExtensionOf(longNames, t, x, k) == ExtensionOf(longNames, tree, x, k)
  {
    if k >= Dots(x) {
      var j := k - Dots(x);
      var e := tree[x].entities[j];
      assert e in tree[x].entities && e == t[x].entities[j];
      hide Start;
      var before, now := tree[x].entities, t[x].entities;
      assert forall m :: 0 <= m <= j ==> before[m] in before && now[m] == before[m];
      assert Alike(t, t[x].entities, t[e].name, j) == Alike(tree, tree[x].entities, tree[e].name, j);
    }
  }

  lemma OldRecordsBear(longNames: bool, tree: seq<TNode>, t: seq<TNode>, log: seq<Record>, x: nat)
    requires TreeOk(tree) && TreeOk(t) && x < |tree| <= |t| && tree[x].entities == t[x].entities
    requires forall e :: 0 <= e < |tree| ==> t[e].name == tree[e].name && t[e].ext == tree[e].ext
    requires BearsAll(longNames, tree, log, x)
    ensures BearsAll(longNames, t, log, x)
  {
    hide Listing, BearsAt;
    var l := Listing(log, |log|);
    forall k | 0 <= k < |l|
      ensures BearsAt(longNames, t, x, k, log[l[k]])
    {
      StillBears(longNames, tree, t, x, k, log[l[k]]);
    }
  }

  /** The new entity is the youngest. */
  lemma {:induction false} NewBase(longNames: bool, tree: seq<TNode>, d: nat, node: TNode)
    requires TreeOk(tree) && d < |tree|
    ensures var t, entities := AddNode(tree, d, node), tree[d].entities;
      && Ids(tree, entities) && Ids(t, t[d].entities) && t[d].entities == entities + [|tree|]
      && BaseOf(longNames, t, d, Dots(d) + |entities|) ==
           (if KeepsName(longNames, node) then node.name
            else Start(node.name, 6) + [0x7e, CountPrefix(tree, entities, node.name) + 1])
      && ExtensionOf(longNames, t, d, Dots(d) + |entities|) == Extension(longNames, node)
  {
    var t, entities := AddNode(tree, d, node), tree[d].entities;
    var n := |entities|;
    CountIsSize(tree, entities, node.name, n);
    assert entities[..n] == entities;
    assert t[d].entities == entities + [|tree|] && t[|tree|] == node;
    hide Start, KeepsName, CountPrefix;
    assert forall m :: 0 <= m < n ==> entities[m] in entities && t[d].entities[m] == entities[m];
    assert Alike(t, t[d].entities, node.name, n) == Alike(tree, entities, node.name, n);
  }

  /** One more record, which bears its name. */
  lemma {:induction false} OneMoreBears(longNames: bool, tree: seq<TNode>, t: seq<TNode>, d: nat, log: seq<Record>,
                                        all: seq<Record>, last: nat)
    requires TreeOk(tree) && TreeOk(t) && d < |tree| <= |t| && |t[d].entities| == |tree[d].entities| + 1
    requires tree[d].entities <= t[d].entities
    requires forall e :: 0 <= e < |tree| ==> t[e].name == tree[e].name && t[e].ext == tree[e].ext
    requires BearsAll(longNames, tree, log, d) && log <= all && last < |all|
    requires Listing(all, |all|) == Listing(log, |log|) + [last]
    requires BearsAt(longNames, t, d, Dots(d) + |tree[d].entities|, all[last])
    ensures BearsAll(longNames, t, all, d)
  {
    hide Listing, BearsAt;
    var l, l2 := Listing(log, |log|), Listing(all, |all|);
    forall k | 0 <= k < |l2|
      ensures BearsAt(longNames, t, d, k, all[l2[k]])
    {
      if k < |l| {
        assert BearsAt(longNames, tree, d, k, log[l[k]]);
        StillBears(longNames, tree, t, d, k, log[l[k]]);
      }
    }
  }

  lemma StillBears(longNames: bool, tree: seq<TNode>, t: seq<TNode>, x: nat, k: nat, r: Record)
    requires TreeOk(tree) && TreeOk(t) && x < |tree| <= |t| && tree[x].entities <= t[x].entities
    requires forall e :: 0 <= e < |tree| ==> t[e].name == tree[e].name && t[e].ext == tree[e].ext
    requires k < Dots(x) + |tree[x].entities| && BearsAt(longNames, tree, x, k, r)
    ensures BearsAt(longNames, t, x, k, r)
  {
    hide BaseOf, ExtensionOf, Bears;
    OldBears(longNames, tree, t, x, k);
  }

  lemma NodeKept(tree: seq<TNode>, d: nat, node: TNode)
    requires TreeOk(tree) && d < |tree| && node.entities == []
    ensures var t := AddNode(tree, d, node);
      && TreeOk(t) && t[d].entities == tree[d].entities + [|tree|]
      && forall e :: 0 <= e < |tree| ==> t[e].name == tree[e].name && t[e].ext == tree[e].ext
  {
    AddNodeOk(tree, d, node);
  }

  /** The directory that gets the new object. */
  lemma {:induction false} NewRecordBears(longNames: bool, tree: seq<TNode>, d: nat, node: TNode, log: seq<Record>,
                                          recs: seq<Record>, attr: byte, cluster: nat, stamp: Stamp)
    requires TreeOk(tree) && d < |tree| && tree[d].isDir && node.entities == []
    requires BearsAll(longNames, tree, log, d) && recs != [] && IsObject(recs[|recs| - 1])
    requires forall i :: 0 <= i < |recs| - 1 ==> AttrOf(recs[i]) == ATTR_LONG_NAME
    requires stamp.Fits() && cluster < 0x1_0000 && |BuildName(node.name, node.ext)| <= 255
    requires EntryRecords(longNames, CountPrefix(tree, tree[d].entities, node.name), node.name, node.ext, attr, cluster,
                          stamp) == Ok(recs)
    ensures Ids(AddNode(tree, d, node), AddNode(tree, d, node)[d].entities)
    ensures BearsAll(longNames, AddNode(tree, d, node), log + recs, d)
  {
    hide Listing, Bears, BaseOf, ExtensionOf, EntryRecords, CountPrefix, IsObject, BearsAll, AddNode, AttrOf, Dots;
    NodeKept(tree, d, node);
    NewBears(longNames, CountPrefix(tree, tree[d].entities, node.name), node, attr, cluster, stamp);
    NewBase(longNames, tree, d, node);
    ListingAppend(log, recs);
    var last := |log| + |recs| - 1;
    assert (log + recs)[last] == recs[|recs| - 1];
    OneMoreBears(longNames, tree, AddNode(tree, d, node), d, log, log + recs, last);
  }

  /** A new directory begins with its links. */
  lemma DotsBear(longNames: bool, tree: seq<TNode>, n: nat, head: nat, parentHead: nat, dots: seq<Record>)
    requires 0 < n < |tree| && tree[n].entities == [] && |dots| == 2
    requires head < 0x1_0000 && parentHead < 0x1_0000
    requires DotRecord(longNames, [DOT], head) == Ok(dots[0])
    requires DotRecord(longNames, [DOT, DOT], parentHead) == Ok(dots[1])
    ensures Ids(tree, []) && BearsAll(longNames, tree, dots, n)
  {
    hide DotRecord, Bears, Listing, IsObject;
    DotObject(longNames, [DOT], head);
    DotObject(longNames, [DOT, DOT], parentHead);
    TwoObjects(dots);
    DotBears(longNames, [DOT], head);
    DotBears(longNames, [DOT, DOT], parentHead);
  }

  /** Nothing but names and the records matters. */
  lemma ShortNamesStay(s: FsState, t: FsState, logs: seq<seq<Record>>)
    requires ShortNames(s, logs) && t.tree == s.tree && t.longNames == s.longNames
    ensures ShortNames(t, logs)
  {
  }

  /** Creation keeps the short names and gives the new object its own. */
  lemma CreationBears(s: FsState, t: FsState, logs: seq<seq<Record>>, recs: seq<Record>, d: nat, node: TNode,
                      dots: seq<Record>, attr: byte, cluster: nat, stamp: Stamp)
    requires Formed(s) && Formed(t) && ShortNames(s, logs) && d < |s.tree| && s.tree[d].isDir && node.entities == []
    requires t.tree == AddNode(s.tree, d, node) && t.longNames == s.longNames
    requires recs != [] && IsObject(recs[|recs| - 1])
    requires forall i :: 0 <= i < |recs| - 1 ==> AttrOf(recs[i]) == ATTR_LONG_NAME
    requires stamp.Fits() && cluster < 0x1_0000 && |BuildName(node.name, node.ext)| <= 255
    requires Ids(s.tree, s.tree[d].entities)
    requires EntryRecords(s.longNames, CountPrefix(s.tree, s.tree[d].entities, node.name), node.name, node.ext, attr,
                          cluster, stamp) == Ok(recs)
    requires node.isDir ==> Ids(t.tree, []) && BearsAll(s.longNames, t.tree, dots, |s.tree|)
    ensures ShortNames(t, logs[d := logs[d] + recs] + [dots])
  {
    hide BearsAll, EntryRecords, CountPrefix, IsObject;
    var logs2 := logs[d := logs[d] + recs] + [dots];
    forall x | 0 <= x < |t.tree| && t.tree[x].isDir
      ensures Ids(t.tree, t.tree[x].entities) && BearsAll(t.longNames, t.tree, logs2[x], x)
    {
      if x == d {
        NewRecordBears(s.longNames, s.tree, d, node, logs[d], recs, attr, cluster, stamp);
      } else if x < |s.tree| {
        OldRecordsBear(s.longNames, s.tree, t.tree, logs[x], x);
      }
    }
  }
}
