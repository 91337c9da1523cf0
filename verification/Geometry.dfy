/** Geometry of a FAT12/FAT16 volume with one reserved sector:
    `fatfs_utils/utils.py`, `fatfs_utils/fatfs_state.py`, `Cluster.compute_cluster_data_address`. */
module Geometry {
  const FAT12: nat := 12
  const FAT16: nat := 16
  const FAT32: nat := 32
  const FAT12_MAX_CLUSTERS: nat := 4085
  const FAT16_MAX_CLUSTERS: nat := 65525
  const RESERVED_CLUSTERS_COUNT: nat := 2

  function FatType(clusters: int): nat {
    if clusters < FAT12_MAX_CLUSTERS then FAT12
    else if clusters <= FAT16_MAX_CLUSTERS then FAT16
    else FAT32
  }

  /** Bytes reserved for one FAT when it is sized for `count` clusters. */
  function FatSizeBytes(count: nat): nat {
    var halves := FatType(count) / 4;
    if FatType(count) == FAT16 then count * 2 + halves else (count * 3 + 1) / 2 + halves
  }

  function CeilDiv(a: nat, b: nat): nat
    requires b > 0
  {
    (a + b - 1) / b
  }

  lemma CeilDivCovers(a: nat, b: nat)
    requires b > 0
    ensures a <= CeilDiv(a, b) * b < a + b
  {
    var q, r := (a + b - 1) / b, (a + b - 1) % b;
    assert a + b - 1 == q * b + r;
  }

  datatype Geo = Geo(
    sectorSize: nat,
    sectorsPerCluster: nat,
    fatTables: nat,
    rootSectors: nat,
    sectorsCount: nat)
  {
    /** What the constructors let through: an allowed sector size, a total sector count that is
        not FAT32, and a data region that is not of negative size (otherwise the cluster list
        has no root cluster and `FAT.__init__` raises). */
    predicate Accepted() {
      && sectorSize in {512, 1024, 2048, 4096}
      && sectorsPerCluster > 0 && fatTables > 0 && rootSectors > 0
      && FatType(sectorsCount) != FAT32
      && DataSectors() >= 0
    }

    function SectorsPerFat(): nat {
      if sectorSize == 0 then 0 else CeilDiv(FatSizeBytes(sectorsCount), sectorSize)
    }

    function FatSectors(): nat { SectorsPerFat() * fatTables }

    function NonDataSectors(): nat { 1 + FatSectors() + rootSectors }

    function DataSectors(): int { sectorsCount - NonDataSectors() }

    /** Number of FAT entries, the two reserved ones included. */
    function Clusters(): nat
      requires Accepted()
    {
      DataSectors() / sectorsPerCluster + RESERVED_CLUSTERS_COUNT
    }

    function Bits(): nat
      requires Accepted()
    {
      FatType(Clusters())
    }

    /** The end-of-chain marker written by `allocate_cluster`. */
    function Eoc(): nat
      requires Accepted()
    {
      if Bits() == FAT12 then 0xFFF else 0xFFFF
    }

    function Size(): nat { sectorsCount * sectorSize }
    function FatStart(): nat { sectorSize }
    function FatLength(): nat { SectorsPerFat() * sectorSize }
    function RootStart(): nat { (1 + FatSectors()) * sectorSize }
    function DataStart(): nat { NonDataSectors() * sectorSize }

    /** `compute_cluster_data_address`: cluster 1 is the root directory; any other cluster is one
        sector of the data region, whatever `sectorsPerCluster` is. */
    function AreaStart(id: nat): nat
      requires id >= 1
    {
      if id == 1 then RootStart() else sectorSize * (id - 2) + DataStart()
    }

    /** `get_dir_size`: the number of bytes `allocate_cluster` clears. */
    function AreaLength(id: nat): nat {
      if id == 1 then rootSectors * sectorSize else sectorSize
    }
  }

  /** The FAT is sized from the number of sectors, so possibly under FAT16 rules while the
      entries are packed under FAT12 rules. There is always room: every entry's two bytes lie
      inside the FAT, and every cluster number is below the reserved markers of its own type. */
  lemma FatHoldsEveryEntry(g: Geo, i: nat)
    requires g.Accepted() && i < g.Clusters()
    ensures g.Bits() == FAT12 || g.Bits() == FAT16
    ensures g.Bits() * i / 8 + 1 < g.FatLength()
    ensures g.Bits() == FAT12 ==> i < 0xFF7
    ensures g.Bits() == FAT16 ==> i < 0xFFF7
    ensures i < g.Eoc()
  {
    ClustersBelowSectors(g);
    CeilDivCovers(FatSizeBytes(g.sectorsCount), g.sectorSize);
  }

  /** A FAT takes the fewest sectors that hold its bytes: for fewer than 4085 sectors of the volume one
      and a half bytes each, rounded up, and three more, otherwise two bytes each and four more. */
  lemma FatSized(g: Geo) returns (bytes: nat)
    requires g.Accepted()
    ensures g.sectorsCount < 4085 ==> 3 * g.sectorsCount <= 2 * (bytes - 3) <= 3 * g.sectorsCount + 1
    ensures g.sectorsCount >= 4085 ==> bytes == 2 * g.sectorsCount + 4
    ensures (g.SectorsPerFat() - 1) * g.sectorSize < bytes <= g.SectorsPerFat() * g.sectorSize
  {
    bytes := FatSizeBytes(g.sectorsCount);
    CeilDivCovers(bytes, g.sectorSize);
  }

  /** Of the sizes that the program offers exactly those are accepted that have at most 65525 sectors and
      room for the boot sector, the FATs and the root directory. */
  lemma AcceptedExactly(g: Geo, bytes: nat)
    requires g.sectorSize in {512, 1024, 2048, 4096}
    requires g.sectorsPerCluster > 0 && g.fatTables > 0 && g.rootSectors > 0
    requires bytes == if g.sectorsCount < 4085 then (3 * g.sectorsCount + 1) / 2 + 3 else 2 * g.sectorsCount + 4
    ensures g.Accepted() <==>
      g.sectorsCount <= 65525 && g.sectorsCount >= 1 + CeilDiv(bytes, g.sectorSize) * g.fatTables + g.rootSectors
  {
    if g.sectorsCount <= 65525 {
      assert FatSizeBytes(g.sectorsCount) == bytes;
    }
  }

  lemma ClustersBelowSectors(g: Geo)
    requires g.Accepted()
    ensures g.Clusters() - 2 <= g.DataSectors()
    ensures g.SectorsPerFat() >= 1 && g.FatSectors() >= g.SectorsPerFat()
    ensures 2 <= g.Clusters() <= g.sectorsCount
  {
    QuotientBelow(g.DataSectors(), g.sectorsPerCluster);
    CeilDivCovers(FatSizeBytes(g.sectorsCount), g.sectorSize);
    MulMonotone(g.SectorsPerFat(), 1, g.fatTables);
  }

  lemma QuotientBelow(d: nat, k: nat)
    requires k > 0
    ensures d / k <= d
  {
    var q := d / k;
    assert d == q * k + d % k;
    MulMonotone(q, 1, k);
  }

  /** Region order: boot sector, FATs, root directory, data sectors, end of the image. */
  lemma RegionsInOrder(g: Geo)
    requires g.Accepted()
    ensures g.FatStart() + g.FatLength() * g.fatTables == g.RootStart()
    ensures g.FatLength() * g.fatTables >= g.FatLength()
    ensures g.RootStart() + g.AreaLength(1) == g.DataStart()
    ensures g.DataStart() + g.DataSectors() * g.sectorSize == g.Size()
  {
    RegionArithmetic(g.sectorSize, g.SectorsPerFat(), g.fatTables, g.rootSectors, g.DataSectors());
    MulMonotone(g.FatLength(), 1, g.fatTables);
  }

  lemma RegionArithmetic(s: nat, p: nat, n: nat, r: nat, d: int)
    ensures s + (p * s) * n == (1 + p * n) * s
    ensures (1 + p * n) * s + r * s == (1 + p * n + r) * s
    ensures (1 + p * n + r) * s + d * s == (1 + p * n + r + d) * s
  {
    assert (p * s) * n == (p * n) * s;
  }

  /** Every area lies between the FATs and the end of the image ... */
  lemma AreaInBounds(g: Geo, id: nat)
    requires g.Accepted() && 1 <= id < g.Clusters()
    ensures g.FatStart() + g.FatLength() <= g.RootStart() <= g.AreaStart(id)
    ensures g.AreaStart(id) + g.AreaLength(id) <= g.Size()
  {
    RegionsInOrder(g);
    ClustersBelowSectors(g);
    DataInBounds(g.sectorSize, id, g.DataSectors());
    assert id == 1 ==> g.AreaStart(id) == g.RootStart();
    assert id >= 2 ==> g.AreaStart(id) == g.DataStart() + g.sectorSize * (id - 2);
    hide Geo.Accepted, Geo.Clusters, Geo.RootStart, Geo.DataStart, Geo.FatLength, Geo.Size, Geo.DataSectors,
      Geo.AreaStart;
    assert id >= 2 ==> g.AreaLength(id) == g.sectorSize;
  }

  /** Cluster `id` ends with sector `id - 2` of the data region. */
  lemma DataInBounds(size: nat, id: nat, sectors: nat)
    ensures 0 <= sectors * size
    ensures 2 <= id <= sectors + 1 ==> 0 <= size * (id - 2) && size * (id - 2) + size <= sectors * size
  {
    if 2 <= id <= sectors + 1 {
      MulMonotone(size, id - 2 + 1, sectors);
      assert size * (id - 2) + size == size * (id - 2 + 1);
    }
  }

  /** ... and areas of different clusters do not overlap. */
  lemma AreasDisjoint(g: Geo, a: nat, b: nat)
    requires g.Accepted() && 1 <= a < b
    ensures g.AreaStart(a) + g.AreaLength(a) <= g.AreaStart(b)
  {
    RegionsInOrder(g);
    if a >= 2 {
      MulMonotone(g.sectorSize, a - 2 + 1, b - 2);
      assert g.sectorSize * (a - 2) + g.sectorSize == g.sectorSize * (a - 2 + 1);
    }
  }

  /** The root area stands behind the FATs, cluster 2 behind the root area, and every further cluster one
      sector behind the cluster before it. */
  lemma AreasInOrder(g: Geo, id: nat)
    requires g.Accepted() && id >= 2
    ensures g.AreaStart(1) == (1 + g.SectorsPerFat() * g.fatTables) * g.sectorSize
    ensures g.AreaStart(2) == g.AreaStart(1) + g.rootSectors * g.sectorSize
    ensures g.AreaStart(id + 1) == g.AreaStart(id) + g.sectorSize
  {
    RegionsInOrder(g);
    assert g.sectorSize * (id - 1) == g.sectorSize * (id - 2) + g.sectorSize;
  }

  /** The region boundaries of an accepted geometry, in order. */
  lemma Layout(g: Geo)
    requires g.Accepted()
    ensures 2 <= g.Clusters()
    ensures 512 <= g.FatStart() && g.FatStart() + g.FatLength() <= g.RootStart()
    ensures g.AreaStart(1) == g.RootStart()
    ensures g.RootStart() + g.AreaLength(1) == g.DataStart() <= g.Size()
  {
    hide Geo.Clusters, Geo.FatLength, Geo.AreaLength, Geo.DataStart, Geo.Size, Geo.RootStart;
    ClustersBelowSectors(g);
    RegionsInOrder(g);
    AreaInBounds(g, 1);
    MulMonotone(g.sectorSize, 0, g.DataSectors());
  }

  lemma MulMonotone(k: nat, a: nat, b: nat)
    requires a <= b
    ensures k * a <= k * b
  {
    assert k * b == k * a + k * (b - a);
  }
}
