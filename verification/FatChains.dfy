/** Clusters and cluster chains: the behaviour of `fatfs_utils/fat.py` and of `File.write` on
    the abstract volume. */
module FatChains {
  import opened Bytes
  import opened Volume
  import opened Outcome

  /** `next[c]` is `next_cluster` of the in-memory cluster object `c`; `free` is
      `_first_free_cluster_id`; `eoc` is the end-of-chain marker. */
  datatype FatState = FatState(eoc: nat, sectorSize: nat, vol: Vol, next: seq<Option<nat>>, free: nat)

  // ---- operations ----

  /** `find_free_cluster` */
  function FindFreeCluster(s: FatState): (r: Result<(FatState, nat)>)
    requires |s.vol.fat| == |s.vol.area|
  {
    var id := s.free + 1;
    if id >= |s.vol.fat| then Err(NoFreeCluster)
    else if s.vol.fat[id] != 0 then Err(NoFreeCluster)
    else Ok((s.(vol := Vol(s.vol.fat[id := s.eoc], s.vol.area[id := Zeros(|s.vol.area[id]|)]), free := id), id))
  }

  /** `current.next_cluster = n; current.set_in_fat(n)` */
  function Link(s: FatState, c: nat, n: nat): FatState
    requires c < |s.vol.fat| == |s.next|
  {
    s.(vol := s.vol.(fat := s.vol.fat[c := n]), next := s.next[c := Some(n)])
  }

  predicate Shaped(s: FatState) {
    |s.vol.fat| == |s.vol.area| == |s.next|
  }

  /** `allocate_chain`: append `size - 1` fresh clusters behind `current`. */
  function AllocateChain(s: FatState, current: nat, size: nat): (r: Result<FatState>)
    requires Shaped(s) && current < |s.next|
    ensures r.Ok? ==> Shaped(r.value) && |r.value.next| == |s.next| && r.value.sectorSize == s.sectorSize
    decreases size
  {
    if size <= 1 then Ok(s)
    else
      var (t, id) :- FindFreeCluster(s);
      AllocateChain(Link(t, current, id), id, size - 1)
  }

  /** `split_content_into_sectors` */
  function SplitContent(content: seq<byte>, sectorSize: nat): seq<seq<byte>>
    requires sectorSize > 0
    decreases |content|
  {
    if content == [] then []
    else if |content| <= sectorSize then [content]
    else [content[..sectorSize]] + SplitContent(content[sectorSize..], sectorSize)
  }

  /** The loop of `File.write`: one part per cluster, walking the in-memory chain. A part never
      exceeds its sector and a link never leaves the cluster list (WriteEffect). */
  function WriteParts(s: FatState, current: Option<nat>, parts: seq<seq<byte>>): (r: Result<FatState>)
    requires Shaped(s)
    ensures r.Ok? ==> Shaped(r.value) && r.value.next == s.next && r.value.sectorSize == s.sectorSize
    decreases |parts|
  {
    if parts == [] then Ok(s)
    else if current.None? || current.value >= |s.next| || |parts[0]| > |s.vol.area[current.value]| then Err(NoFreeSpace)
    else
      var c := current.value;
      var t := s.(vol := s.vol.(area := s.vol.area[c := Splice(s.vol.area[c], 0, parts[0])]));
      WriteParts(t, s.next[c], parts[1..])
  }

  // ---- what a chain is on disk ----

  /** The clusters visited by `get_chained_content` from `id`. The bounds only serve termination:
      in every state of ChainInv a link that is not the end marker satisfies them. */
  function Chain(fat: seq<nat>, id: nat): (c: seq<nat>)
    ensures |c| > 0 && c[0] == id
    decreases |fat| - id
  {
    if id < |fat| && id < fat[id] < |fat| then [id] + Chain(fat, fat[id]) else [id]
  }

  function AreaOf(area: seq<seq<byte>>, c: nat): seq<byte> {
    if c < |area| then area[c] else []
  }

  function Concat(area: seq<seq<byte>>, chain: seq<nat>): seq<byte> {
    if chain == [] then [] else AreaOf(area, chain[0]) + Concat(area, chain[1..])
  }

  function Prefix(content: seq<byte>, size: nat): seq<byte> {
    if size <= |content| then content[..size] else content
  }

  // ---- invariant ----

  /** Links on disk and in memory agree, all of them lead to a larger id inside the allocated
      range, everything above the frontier is free. */
  predicate ChainInv(s: FatState) {
    && Shaped(s)
    && 2 <= |s.next| <= s.eoc
    && s.sectorSize > 0
    && 1 <= s.free < |s.next|
    && s.next[0] == None && s.next[1] == None
    && (forall c :: 1 <= c <= s.free ==> Linked(s, c))
    && (forall c :: s.free < c < |s.next| ==> s.vol.fat[c] == 0 && s.next[c] == None)
    && (forall c :: 2 <= c < |s.next| ==> |s.vol.area[c]| == s.sectorSize)
  }

  predicate Linked(s: FatState, c: nat)
    requires Shaped(s) && 1 <= c < |s.next|
  {
    if s.next[c].None? then s.vol.fat[c] == s.eoc
    else s.vol.fat[c] == s.next[c].value && c < s.next[c].value <= s.free
  }

  /** `owner[c]` is the file or directory that cluster `c` was allocated for. */
  predicate Owned(s: FatState, owner: seq<nat>)
    requires ChainInv(s)
  {
    && |owner| == s.free + 1
    && forall c :: 1 <= c <= s.free && s.next[c].Some? ==> Linked(s, c) && owner[s.next[c].value] == owner[c]
  }

  /** A chain climbs strictly, stays in the allocated range, belongs to one owner, and ends at
      the end marker: `get_chained_content` terminates on it. */
  lemma {:induction false} ChainProperties(s: FatState, owner: seq<nat>, id: nat)
    requires ChainInv(s) && Owned(s, owner) && 1 <= id <= s.free
    ensures forall c :: c in Chain(s.vol.fat, id) ==> id <= c <= s.free && owner[c] == owner[id]
    ensures forall i, j :: 0 <= i < j < |Chain(s.vol.fat, id)| ==> Chain(s.vol.fat, id)[i] < Chain(s.vol.fat, id)[j]
    ensures var last := Chain(s.vol.fat, id)[|Chain(s.vol.fat, id)| - 1];
      last <= s.free && s.vol.fat[last] == s.eoc && s.next[last] == None
    decreases |s.next| - id
  {
    assert Linked(s, id);
    if s.next[id].Some? {
      var n := s.next[id].value;
      ChainProperties(s, owner, n);
      assert Chain(s.vol.fat, id) == [id] + Chain(s.vol.fat, n);
    }
  }

  /** No two objects share a cluster. */
  lemma {:induction false} ChainsOfOwnersDisjoint(s: FatState, owner: seq<nat>, a: nat, b: nat)
    requires ChainInv(s) && Owned(s, owner) && 1 <= a <= s.free && 1 <= b <= s.free
    requires owner[a] != owner[b]
    ensures forall c :: c in Chain(s.vol.fat, a) ==> c !in Chain(s.vol.fat, b)
  {
    ChainProperties(s, owner, a);
    ChainProperties(s, owner, b);
  }

  /** `s2` gives the clusters of `who` the same links and bytes as `s1`. */
  predicate SameFor(s1: FatState, s2: FatState, owner: seq<nat>, who: nat)
    requires ChainInv(s1) && ChainInv(s2) && |owner| == s1.free + 1
  {
    && |s1.next| == |s2.next|
    && forall c :: 1 <= c <= s1.free && owner[c] == who ==>
         s1.vol.fat[c] == s2.vol.fat[c] && s1.vol.area[c] == s2.vol.area[c]
  }

  /** Chains and contents depend only on the owner's own clusters. */
  lemma {:induction false} ContentFrame(s1: FatState, s2: FatState, owner: seq<nat>, id: nat)
    requires ChainInv(s1) && Owned(s1, owner) && ChainInv(s2) && 1 <= id <= s1.free
    requires SameFor(s1, s2, owner, owner[id])
    ensures Chain(s2.vol.fat, id) == Chain(s1.vol.fat, id)
    ensures Concat(s2.vol.area, Chain(s1.vol.fat, id)) == Concat(s1.vol.area, Chain(s1.vol.fat, id))
    decreases |s1.next| - id
  {
    assert Linked(s1, id);
    if s1.next[id].Some? {
      var n := s1.next[id].value;
      ContentFrame(s1, s2, owner, n);
      assert Chain(s1.vol.fat, id)[1..] == Chain(s1.vol.fat, n);
    }
  }

  // ---- allocation ----

  /** `find_free_cluster` fails exactly when the cluster list is exhausted: the "not empty" guard
      never fires, and the id it returns was never allocated before. */
  lemma FindFreeEffect(s: FatState, owner: seq<nat>, who: nat)
    requires ChainInv(s) && Owned(s, owner)
    ensures FindFreeCluster(s).Ok? <==> s.free + 1 < |s.next|
    ensures FindFreeCluster(s).Err? ==> FindFreeCluster(s).error == NoFreeCluster
    ensures FindFreeCluster(s).Ok? ==>
      var (t, id) := FindFreeCluster(s).value;
      && id == t.free == s.free + 1 && s.vol.fat[id] == 0
      && ChainInv(t) && Owned(t, owner + [who])
      && t.next == s.next && t.sectorSize == s.sectorSize && t.eoc == s.eoc
      && t.vol.fat == s.vol.fat[id := s.eoc]
      && t.vol.area == s.vol.area[id := Zeros(s.sectorSize)]
  {
    if s.free + 1 < |s.next| {
      var (t, id) := FindFreeCluster(s).value;
      forall c | 1 <= c <= t.free
        ensures Linked(t, c)
        ensures t.next[c].Some? ==> (owner + [who])[t.next[c].value] == (owner + [who])[c]
      {
        if c < id {
          assert Linked(s, c);
        }
      }
    }
  }

  /** Linking a cluster to a later one of the same owner, whatever its previous link was. */
  lemma LinkKeepsInv(s: FatState, owner: seq<nat>, c: nat, n: nat)
    requires ChainInv(s) && Owned(s, owner)
    requires 2 <= c < n <= s.free && owner[c] == owner[n]
    ensures ChainInv(Link(s, c, n)) && Owned(Link(s, c, n), owner)
  {
    var t := Link(s, c, n);
    forall k | 1 <= k <= t.free
      ensures Linked(t, k)
      ensures t.next[k].Some? ==> owner[t.next[k].value] == owner[k]
    {
      assert Linked(s, k);
    }
  }

  function Range(lo: nat, n: nat): (r: seq<nat>)
    ensures |r| == n
  {
    seq(n, i => lo + i)
  }

  lemma RangeStep(lo: nat, n: nat)
    requires n > 0
    ensures Range(lo, n) == [lo] + Range(lo + 1, n - 1)
  {
  }

  lemma {:induction false} OneClusterChain(s: FatState, id: nat)
    requires ChainInv(s) && 1 <= id <= s.free && s.next[id].None?
    ensures Chain(s.vol.fat, id) == [id]
  {
    assert Linked(s, id);
  }

  function Copies(who: nat, n: nat): (r: seq<nat>)
    ensures |r| == n
  {
    seq(n, _ => who)
  }

  lemma CopiesStep(owner: seq<nat>, who: nat, n: nat)
    requires n > 0
    ensures (owner + [who]) + Copies(who, n - 1) == owner + Copies(who, n)
  {
  }

  /** `t` is `s` with `extra` fresh clusters of zeros behind `current`. */
  predicate Appended(s: FatState, t: FatState, current: nat, extra: nat)
    requires Shaped(s) && Shaped(t) && 0 < s.free < |s.next| && current <= s.free
  {
    && t.free == s.free + extra && |t.next| == |s.next| && t.free < |t.next|
    && t.sectorSize == s.sectorSize && t.eoc == s.eoc
    && (forall c :: 0 <= c <= s.free ==> t.vol.area[c] == s.vol.area[c])
    && (forall c :: 0 <= c <= s.free && c != current ==> t.vol.fat[c] == s.vol.fat[c] && t.next[c] == s.next[c])
    && (forall c :: s.free < c <= t.free ==> t.vol.area[c] == Zeros(s.sectorSize))
    && (if extra == 0 then t == s else Chain(t.vol.fat, current) == [current] + Range(s.free + 1, extra))
  }

  /** One turn of the loop of `allocate_chain`. */
  lemma AppendOne(s: FatState, owner: seq<nat>, current: nat)
    requires ChainInv(s) && Owned(s, owner) && 2 <= current <= s.free && s.free + 1 < |s.next|
    ensures FindFreeCluster(s).Ok?
    ensures var (t0, id) := FindFreeCluster(s).value;
      var t := Link(t0, current, id);
      && id == s.free + 1
      && ChainInv(t) && Owned(t, owner + [owner[current]])
      && t.next[id] == None && t.vol.fat[current] == id
      && Appended(s, t, current, 1)
  {
    var who := owner[current];
    FindFreeEffect(s, owner, who);
    var (t0, id) := FindFreeCluster(s).value;
    LinkKeepsInv(t0, owner + [who], current, id);
    var t := Link(t0, current, id);
    OneClusterChain(t, id);
    assert Chain(t.vol.fat, current) == [current] + Chain(t.vol.fat, id);
    assert Range(s.free + 1, 1) == [id];
  }

  lemma OwnerCovers(s: FatState, owner: seq<nat>)
    requires ChainInv(s) && Owned(s, owner)
    ensures |owner| == s.free + 1
  {
  }

  /** `allocate_chain` succeeds exactly when enough clusters are left. It replaces whatever
      followed `current` by fresh clusters of the same owner, and touches nothing else. */
  lemma {:induction false} AllocateChainEffect(s: FatState, owner: seq<nat>, current: nat, size: nat)
    requires ChainInv(s) && Owned(s, owner) && 2 <= current <= s.free
    ensures AllocateChain(s, current, size).Ok? <==> size <= 1 || s.free + size - 1 < |s.next|
    ensures AllocateChain(s, current, size).Err? ==> AllocateChain(s, current, size).error == NoFreeCluster
    ensures AllocateChain(s, current, size).Ok? ==>
      var t := AllocateChain(s, current, size).value;
      var extra := if size <= 1 then 0 else size - 1;
      && ChainInv(t) && Owned(t, owner + Copies(owner[current], extra))
      && Appended(s, t, current, extra)
    decreases size
  {
    hide FindFreeCluster, Chain, Linked, Owned;
    OwnerCovers(s, owner);
    if size <= 1 {
      assert owner + Copies(owner[current], 0) == owner;
    } else {
      FindFreeEffect(s, owner, owner[current]);
      if s.free + 1 < |s.next| {
        AppendOne(s, owner, current);
        var (t0, id) := FindFreeCluster(s).value;
        var t1 := Link(t0, current, id);
        AllocateChainEffect(t1, owner + [owner[current]], id, size - 1);
        if AllocateChain(t1, id, size - 1).Ok? {
          AppendMore(s, t1, AllocateChain(t1, id, size - 1).value, current, size - 2);
          CopiesStep(owner, owner[current], size - 1);
        }
      }
    }
  }

  lemma AppendMore(s: FatState, t1: FatState, t: FatState, current: nat, more: nat)
    requires ChainInv(s) && ChainInv(t1) && ChainInv(t) && 2 <= current <= s.free
    requires Appended(s, t1, current, 1) && t1.vol.fat[current] == t1.free && t1.next[t1.free] == None
    requires Appended(t1, t, t1.free, more)
    ensures Appended(s, t, current, more + 1)
  {
    var id := t1.free;
    OneClusterChain(t1, id);
    RangeStep(id, more + 1);
    if more == 0 {
      assert Range(id + 1, 0) == [];
    }
    assert Chain(t.vol.fat, id) == Range(id, more + 1);
    assert t.vol.fat[current] == id;
    assert Chain(t.vol.fat, current) == [current] + Chain(t.vol.fat, id);
    if more > 0 {
      assert t.vol.area[id] == t1.vol.area[id];
    }
  }

  /** Allocating one cluster after another. */
  function AllocateTimes(s: FatState, k: nat): (r: Result<FatState>)
    requires |s.vol.fat| == |s.vol.area|
    ensures r.Ok? ==> |r.value.vol.fat| == |r.value.vol.area|
    decreases k
  {
    if k == 0 then Ok(s)
    else
      var (t, _) :- FindFreeCluster(s);
      AllocateTimes(t, k - 1)
  }

  /** Conservation: `k` allocations succeed exactly when `k` clusters are left, and then exactly
      the ids up to the new frontier are allocated. */
  lemma {:induction false} AllocationsUntilExhausted(s: FatState, owner: seq<nat>, k: nat)
    requires ChainInv(s) && Owned(s, owner)
    ensures AllocateTimes(s, k).Ok? <==> s.free + k < |s.next|
    ensures AllocateTimes(s, k).Ok? ==>
      var t := AllocateTimes(s, k).value;
      && t.free == s.free + k && |t.vol.fat| == |s.vol.fat|
      && forall c :: 1 <= c < |t.vol.fat| ==> (t.vol.fat[c] != 0 <==> c <= t.free)
    decreases k
  {
    if k == 0 {
      forall c | 1 <= c <= s.free
        ensures s.vol.fat[c] != 0
      {
        assert Linked(s, c);
      }
    } else {
      FindFreeEffect(s, owner, 0);
      if s.free + 1 < |s.next| {
        AllocationsUntilExhausted(FindFreeCluster(s).value.0, owner + [0], k - 1);
      }
    }
  }

  // ---- writing ----

  lemma {:induction false} SplitParts(content: seq<byte>, sectorSize: nat)
    requires sectorSize > 0
    ensures forall p :: p in SplitContent(content, sectorSize) ==> 0 < |p| <= sectorSize
    decreases |content|
  {
    if |content| > sectorSize {
      SplitParts(content[sectorSize..], sectorSize);
    }
  }

  /** `required_clusters_count` */
  function RequiredClusters(sectorSize: nat, length: nat): nat
    requires sectorSize > 0
  {
    (length + sectorSize - 1) / sectorSize
  }

  lemma {:induction false} SplitCount(content: seq<byte>, sectorSize: nat)
    requires sectorSize > 0
    ensures |SplitContent(content, sectorSize)| == RequiredClusters(sectorSize, |content|)
    decreases |content|
  {
    if content == [] {
      DivisionStep(sectorSize, 0);
    } else if |content| <= sectorSize {
      DivisionStep(sectorSize, |content|);
    } else {
      SplitCount(content[sectorSize..], sectorSize);
      DivisionStep(sectorSize, |content|);
    }
  }

  lemma DivisionStep(k: nat, n: nat)
    requires k > 0
    ensures n == 0 ==> RequiredClusters(k, n) == 0
    ensures 0 < n <= k ==> RequiredClusters(k, n) == 1
    ensures n > k ==> RequiredClusters(k, n) == 1 + RequiredClusters(k, n - k)
  {
    if n == 0 {
      Quotient(k - 1, k, 0);
    } else if n <= k {
      Quotient(n + k - 1, k, 1);
    } else {
      var q := RequiredClusters(k, n - k);
      Quotient(n + k - 1, k, 1 + q);
    }
  }

  lemma Quotient(a: nat, k: nat, q: nat)
    requires k > 0 && q * k <= a < q * k + k
    ensures a / k == q
  {
    var d, r := a / k, a % k;
    assert a == d * k + r && 0 <= r < k;
    if d < q {
      Times(d + 1, q, k);
    } else if d > q {
      Times(q + 1, d, k);
    }
  }

  lemma Times(a: nat, b: nat, k: nat)
    requires a <= b
    ensures a * k <= b * k
  {
    assert b * k == a * k + (b - a) * k;
  }

  /** Writing the parts of `content` into a chain that is long enough succeeds, changes only the
      bytes of that chain, and reading the chain back up to the length gives `content`. */
  predicate Written(s: FatState, t: FatState, chain: seq<nat>, content: seq<byte>)
    requires Shaped(s)
  {
    && t == s.(vol := s.vol.(area := t.vol.area))
    && |t.vol.area| == |s.vol.area|
    && (forall c :: 0 <= c < |s.vol.area| ==> |t.vol.area[c]| == |s.vol.area[c]|)
    && (forall c :: 0 <= c < |s.vol.area| && c !in chain ==> t.vol.area[c] == s.vol.area[c])
    && Prefix(Concat(t.vol.area, chain), |content|) == content
  }

  lemma {:induction false} WriteEffect(s: FatState, owner: seq<nat>, id: nat, content: seq<byte>)
    requires ChainInv(s) && Owned(s, owner) && 2 <= id <= s.free
    requires |SplitContent(content, s.sectorSize)| <= |Chain(s.vol.fat, id)|
    ensures forall p :: p in SplitContent(content, s.sectorSize) ==> |p| <= s.sectorSize
    ensures var r := WriteParts(s, Some(id), SplitContent(content, s.sectorSize));
      r.Ok? && Written(s, r.value, Chain(s.vol.fat, id), content)
    decreases |content|
  {
    hide SplitContent, Prefix, Concat, Linked, Written;
    var parts := SplitContent(content, s.sectorSize);
    SplitStep(content, s.sectorSize);
    SplitParts(content, s.sectorSize);
    if content == [] {
      NothingWritten(s, Some(id), Chain(s.vol.fat, id));
    } else {
      ClusterFacts(s, owner, id);
      var t := s.(vol := s.vol.(area := s.vol.area[id := Splice(s.vol.area[id], 0, parts[0])]));
      assert parts[0] in parts;
      AreaChangeKeepsInv(s, owner, t);
      var rest := content[|parts[0]|..];
      if s.next[id].None? {
        assert parts[1..] == [] && rest == [] && [id] + [] == Chain(s.vol.fat, id);
        NothingWritten(t, None, []);
        WrittenHere(s, t, id, [], parts[0], rest);
      } else {
        var n := s.next[id].value;
        ChainProperties(s, owner, n);
        WriteEffect(t, owner, n, rest);
        WrittenHere(s, WriteParts(t, Some(n), parts[1..]).value, id, Chain(s.vol.fat, n), parts[0], rest);
      }
    }
  }

  lemma {:induction false} NothingWritten(s: FatState, current: Option<nat>, chain: seq<nat>)
    requires Shaped(s)
    ensures WriteParts(s, current, []) == Ok(s) && Written(s, s, chain, [])
  {
  }

  lemma {:induction false} SplitStep(content: seq<byte>, sectorSize: nat)
    requires sectorSize > 0
    ensures content == [] ==> SplitContent(content, sectorSize) == []
    ensures content != [] ==>
      var parts := SplitContent(content, sectorSize);
      && parts != [] && |parts[0]| <= |content| && parts[0] == content[..|parts[0]|]
      && content == parts[0] + content[|parts[0]|..]
      && parts[1..] == SplitContent(content[|parts[0]|..], sectorSize)
      && (|parts| == 1 ==> content[|parts[0]|..] == [])
      && (content[|parts[0]|..] != [] ==> |parts[0]| == sectorSize)
  {
    if content != [] {
      var parts := SplitContent(content, sectorSize);
      if |content| <= sectorSize {
        assert parts == [content];
      } else {
        var head, tail := content[..sectorSize], content[sectorSize..];
        SplitFirst(content, sectorSize);
        hide SplitContent;
        SplitNotEmpty(tail, sectorSize);
        assert parts[0] == head && parts[1..] == SplitContent(tail, sectorSize);
      }
    }
  }

  lemma {:induction false} SplitFirst(content: seq<byte>, sectorSize: nat)
    requires 0 < sectorSize < |content|
    ensures SplitContent(content, sectorSize)
      == [content[..sectorSize]] + SplitContent(content[sectorSize..], sectorSize)
  {
  }

  lemma {:induction false} SplitNotEmpty(content: seq<byte>, sectorSize: nat)
    requires sectorSize > 0 && content != []
    ensures SplitContent(content, sectorSize) != []
  {
  }

  lemma {:induction false} ClusterFacts(s: FatState, owner: seq<nat>, id: nat)
    requires ChainInv(s) && Owned(s, owner) && 2 <= id <= s.free
    ensures Shaped(s) && id < |s.next| && |s.vol.area[id]| == s.sectorSize
    ensures s.next[id].None? ==> Chain(s.vol.fat, id) == [id]
    ensures s.next[id].Some? ==>
      var n := s.next[id].value;
      id < n <= s.free && Chain(s.vol.fat, id) == [id] + Chain(s.vol.fat, n) && id !in Chain(s.vol.fat, n)
  {
    assert Linked(s, id);
    if s.next[id].None? {
      OneClusterChain(s, id);
    } else {
      ChainProperties(s, owner, s.next[id].value);
    }
  }

  lemma WrittenHere(s: FatState, u: FatState, id: nat, tail: seq<nat>, part: seq<byte>, rest: seq<byte>)
    requires Shaped(s) && 2 <= id < |s.next| && |s.vol.area[id]| == s.sectorSize && |part| <= s.sectorSize
    requires id !in tail && (rest == [] || |part| == s.sectorSize)
    requires Written(s.(vol := s.vol.(area := s.vol.area[id := Splice(s.vol.area[id], 0, part)])), u, tail, rest)
    ensures Written(s, u, [id] + tail, part + rest)
  {
    var chain := [id] + tail;
    assert u.vol.area[id] == Splice(s.vol.area[id], 0, part);
    assert Concat(u.vol.area, chain) == u.vol.area[id] + Concat(u.vol.area, tail) by {
      assert chain[1..] == tail;
    }
    WrittenPrefix(u.vol.area[id], Concat(u.vol.area, tail), part, rest);
    forall c | 0 <= c < |s.vol.area| && c !in chain
      ensures u.vol.area[c] == s.vol.area[c]
    {
      assert c !in tail && c != id;
    }
  }

  lemma AreaChangeKeepsInv(s: FatState, owner: seq<nat>, t: FatState)
    requires ChainInv(s) && Owned(s, owner)
    requires t == s.(vol := s.vol.(area := t.vol.area)) && |t.vol.area| == |s.vol.area|
    requires forall c :: 0 <= c < |s.vol.area| ==> |t.vol.area[c]| == |s.vol.area[c]|
    ensures ChainInv(t) && Owned(t, owner)
  {
    forall c | 1 <= c <= s.free
      ensures Linked(t, c)
      ensures t.next[c].Some? ==> owner[t.next[c].value] == owner[c]
    {
      assert Linked(s, c);
    }
  }

  lemma WrittenPrefix(sector: seq<byte>, tail: seq<byte>, part: seq<byte>, rest: seq<byte>)
    requires |part| <= |sector| && sector[..|part|] == part
    requires rest == [] || |part| == |sector|
    requires Prefix(tail, |rest|) == rest
    ensures Prefix(sector + tail, |part| + |rest|) == part + rest
  {
    if rest != [] {
      assert |rest| <= |tail|;
      assert (sector + tail)[..|part| + |rest|] == sector + tail[..|rest|];
    }
  }
}
