/** The class FAT of `fatfs_utils/fat.py`, working on the bytes of the image. Its methods are
    proved against the operations of FatChains through the view of the image. */
module FatTableObject {
  import opened Bytes
  import opened Geometry
  import opened Volume
  import opened BootSectorImage
  import opened Outcome
  import opened FatChains

  /** The FAT values of the two reserved entries of a new volume. */
  function InitialBlock(g: Geo): nat
    requires g.Accepted()
  {
    if g.Bits() == FAT12 then 0xFF8 else 0xFFF8
  }

  /** A new volume: nothing allocated but the root directory, which is cluster 1. */
  function FreshState(g: Geo, header: seq<byte>): (s: FatState)
    requires g.Accepted() && |header| == 512
  {
    var v := View(g, EmptyImage(g, header));
    Layout(g);
    FatState(g.Eoc(), g.sectorSize,
             Vol(v.fat[0 := InitialBlock(g)][1 := g.Eoc()], v.area[1 := Zeros(g.AreaLength(1))]),
             seq(g.Clusters(), _ => None), 1)
  }

  /** The state a new volume starts in satisfies the chain invariant, owned by the root (0). */
  lemma FreshChainInv(g: Geo, header: seq<byte>)
    requires g.Accepted() && |header| == 512
    ensures ChainInv(FreshState(g, header)) && Owned(FreshState(g, header), [0, 0])
    ensures |FreshState(g, header).next| == g.DataSectors() / g.sectorsPerCluster + 2
    ensures FreshState(g, header).vol.area[1] == Zeros(g.AreaLength(1))
  {
    hide View, EmptyImage, Geo.Accepted;
    EmptyImageView(g, header);
    Layout(g);
    FatHoldsEveryEntry(g, g.Clusters() - 1);
    SectorPositive(g);
  }

  /** On a fresh volume exactly as many allocations succeed as the data region has clusters, and
      after `k` of them the entries in use are those up to `k + 1`. */
  lemma {:induction false} FreshAllocations(g: Geo, header: seq<byte>, k: nat)
    requires g.Accepted() && |header| == 512
    ensures ChainInv(FreshState(g, header))
    ensures AllocateTimes(FreshState(g, header), k).Ok? <==> k <= g.DataSectors() / g.sectorsPerCluster
    ensures AllocateTimes(FreshState(g, header), k).Ok? ==>
      var t := AllocateTimes(FreshState(g, header), k).value;
      && |t.vol.fat| == g.Clusters()
      && forall c :: 1 <= c < |t.vol.fat| ==> (t.vol.fat[c] != 0 <==> c <= k + 1)
  {
    FreshChainInv(g, header);
    FreshCounters(g, header);
    hide FreshState;
    AllocationsUntilExhausted(FreshState(g, header), [0, 0], k);
  }

  lemma FreshCounters(g: Geo, header: seq<byte>)
    requires g.Accepted() && |header| == 512
    ensures FreshState(g, header).free == 1 && |FreshState(g, header).vol.fat| == g.Clusters()
  {
    hide EmptyImage, Geo.Accepted;
    Layout(g);
  }

  lemma SectorPositive(g: Geo)
    requires g.Accepted()
    ensures g.sectorSize >= 512 && g.sectorSize % 32 == 0
  {
  }

  /** A chain that `get_chained_content` can follow to its end marker. */
  ghost predicate ChainEnds(fat: seq<nat>, eoc: nat, id: nat) {
    var chain := Chain(fat, id);
    chain[|chain| - 1] < |fat| && fat[chain[|chain| - 1]] == eoc
  }

  lemma InvChainEnds(s: FatState, id: nat)
    requires ChainInv(s) && 1 <= id <= s.free
    ensures ChainEnds(s.vol.fat, s.eoc, id)
  {
    ChainProperties(s, Copies(0, s.free + 1), id);
  }

  lemma {:induction false} ChainEndsStep(fat: seq<nat>, eoc: nat, id: nat)
    requires ChainEnds(fat, eoc, id) && |fat| <= eoc
    ensures id < |fat|
    ensures fat[id] == eoc ==> Chain(fat, id) == [id]
    ensures fat[id] != eoc ==>
      && id < fat[id] < |fat| && Chain(fat, id) == [id] + Chain(fat, fat[id])
      && ChainEnds(fat, eoc, fat[id])
  {
  }

  lemma AllocateChainStep(s: FatState, current: nat, size: nat)
    requires Shaped(s) && current < |s.next| && size > 1
    ensures match FatChains.FindFreeCluster(s)
      case Err(e) => FatChains.AllocateChain(s, current, size) == Err(e)
      case Ok((t, id)) =>
        && Shaped(t) && id < |t.next| == |s.next|
        && Shaped(Link(t, current, id))
        && FatChains.AllocateChain(s, current, size) == FatChains.AllocateChain(Link(t, current, id), id, size - 1)
  {
  }

  lemma {:induction false} AllocateChainDone(s: FatState, current: nat, size: nat)
    requires Shaped(s) && current < |s.next| && size <= 1
    ensures FatChains.AllocateChain(s, current, size) == Ok(s)
  {
  }

  lemma {:induction false} ConcatNone(area: seq<seq<byte>>)
    ensures Concat(area, []) == []
  {
  }

  lemma {:induction false} ConcatTail(area: seq<seq<byte>>, chain: seq<nat>)
    requires chain != [] && chain[0] < |area|
    ensures Concat(area, chain) == area[chain[0]] + Concat(area, chain[1..])
  {
  }

  class FAT {
    const boot: BootSectorState
    var next: seq<Option<nat>>
    var firstFree: nat

    ghost predicate Valid()
      reads this
    {
      boot.Valid() && |next| == boot.geo.Clusters() && firstFree >= 1
    }

    ghost function State(): (s: FatState)
      requires Valid()
      reads this, boot.image
      ensures Shaped(s)
    {
      FatState(boot.geo.Eoc(), boot.geo.sectorSize, boot.Contents(), next, firstFree)
    }

    /** `FAT.__init__` on a new image: reserved entry, then the root directory. */
    constructor Init(b: BootSectorState, ghost header: seq<byte>)
      requires b.Valid() && |header| == 512 && b.image[..] == EmptyImage(b.geo, header)
      modifies b.image
      ensures boot == b && Valid()
      ensures State() == FreshState(b.geo, header)
      ensures b.Others() == old(b.Others())
    {
      boot := b;
      next := seq(b.geo.Clusters(), _ => None);
      firstFree := 1;
      new;
      Layout(b.geo);
      FatHoldsEveryEntry(b.geo, 0);
      b.SetInFat(0, InitialBlock(b.geo));
      b.AllocateCluster(1);
    }

    /** `FAT.__init__` on an image that exists; nothing is written. */
    constructor Open(b: BootSectorState)
      requires b.Valid()
      ensures boot == b && Valid()
    {
      boot := b;
      next := seq(b.geo.Clusters(), _ => None);
      firstFree := 1;
    }

    /** `find_free_cluster` */
    method FindFreeCluster() returns (r: Result<nat>)
      requires Valid()
      modifies this`firstFree, boot.image
      ensures Valid() && next == old(next) && boot.Others() == old(boot.Others())
      ensures match FatChains.FindFreeCluster(old(State()))
        case Err(e) => r == Err(e) && State() == old(State())
        case Ok((t, id)) => r == Ok(id) && State() == t
    {
      if firstFree + 1 >= boot.geo.Clusters() {
        return Err(NoFreeCluster);
      }
      var id := firstFree + 1;
      var value := boot.GetFromFat(id);
      if value != 0 {
        return Err(NoFreeCluster);
      }
      boot.AllocateCluster(id);
      firstFree := id;
      return Ok(id);
    }

    /** `current.next_cluster = n` and `current.set_in_fat(n)` */
    method SetNext(current: nat, n: nat)
      requires Valid() && current < boot.geo.Clusters() && n < boot.geo.Clusters()
      modifies this`next, boot.image
      ensures Valid() && boot.Others() == old(boot.Others())
      ensures State() == Link(old(State()), current, n)
    {
      FatHoldsEveryEntry(boot.geo, n);
      next := next[current := Some(n)];
      boot.SetInFat(current, n);
    }

    /** `allocate_chain` */
    method AllocateChain(first: nat, size: nat) returns (r: Result<()>)
      requires Valid() && first < boot.geo.Clusters()
      modifies this, boot.image
      ensures Valid() && boot.Others() == old(boot.Others())
      ensures match FatChains.AllocateChain(old(State()), first, size)
        case Err(e) => r == Err(e)
        case Ok(t) => r == Ok(()) && State() == t
    {
      hide BootSectorState.Contents, BootSectorState.Others, FatChains.FindFreeCluster, FatChains.AllocateChain, Link,
        Geo.Accepted, Geo.Clusters, Geo.Eoc, Geo.Size;
      var current: nat := first;
      var i: nat := 0;
      while i < size - 1
        invariant 0 <= i <= size && (i <= size - 1 || i == 0)
        invariant Valid() && current < boot.geo.Clusters() && boot.Others() == old(boot.Others())
        invariant FatChains.AllocateChain(old(State()), first, size)
          == FatChains.AllocateChain(State(), current, size - i)
      {
        ghost var before := State();
        AllocateChainStep(before, current, size - i);
        var free := FindFreeCluster();
        if free.Err? {
          return Err(free.error);
        }
        SetNext(current, free.value);
        current := free.value;
        i := i + 1;
      }
      AllocateChainDone(State(), current, size - i);
      return Ok(());
    }

    /** `get_chained_content`; the size is absent for a directory. */
    method GetChainedContent(id: nat, size: Option<nat>) returns (content: seq<byte>)
      requires Valid() && id >= 2
      requires ChainEnds(boot.Contents().fat, boot.geo.Eoc(), id)
      ensures var whole := Concat(boot.Contents().area, Chain(boot.Contents().fat, id));
        content == if size.None? then whole else Prefix(whole, size.value)
    {
      hide BootSectorState.Contents, ChainEnds, Concat, Chain, Geo.Accepted, Geo.Clusters, Geo.Eoc, Geo.Size, AreaOf;
      ghost var fat, area, eoc := boot.Contents().fat, boot.Contents().area, boot.geo.Eoc();
      Layout(boot.geo);
      FatHoldsEveryEntry(boot.geo, boot.geo.Clusters() - 1);
      ghost var whole := Concat(area, Chain(fat, id));
      var current := id;
      ChainEndsStep(fat, eoc, current);
      ConcatTail(area, Chain(fat, current));
      content := boot.ReadArea(current);
      var value := boot.GetFromFat(current);
      while value != boot.geo.Eoc()
        invariant id <= current < |fat| && value == fat[current]
        invariant ChainEnds(fat, eoc, current)
        invariant whole == content + Concat(area, Chain(fat, current)[1..])
        decreases |fat| - current
      {
        ChainEndsStep(fat, eoc, current);
        current := value;
        ChainEndsStep(fat, eoc, current);
        var part := boot.ReadArea(current);
        ConcatTail(area, Chain(fat, current));
        content := content + part;
        value := boot.GetFromFat(current);
      }
      ChainEndsStep(fat, eoc, current);
      assert Chain(fat, current)[1..] == [];
      ConcatNone(area);
      assert content == whole;
      if size.Some? && size.value <= |content| {
        content := content[..size.value];
      }
    }
  }
}
