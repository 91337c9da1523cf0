/** The mutable image and the operations of `Cluster` on it: `fatfs_utils/cluster.py`,
    `generate_boot_sector` of `fatfs_utils/boot_sector.py`, `duplicate_fat` of `fatfsgen.py`.
    A `Cluster` object is represented by its id; there is one per id in the source. */
module BootSectorImage {
  import opened Bytes
  import opened Geometry
  import opened Volume
  import FatTable

  /** The image of a new volume: header, padding, empty FATs, empty root, data region of 0xff. */
  function EmptyImage(g: Geo, header: seq<byte>): (img: seq<byte>)
    requires g.Accepted() && |header| == 512
    ensures Sized(g, img)
  {
    RegionsInOrder(g);
    EmptyImageLength(g);
    header + Zeros(g.sectorSize - 512) + Zeros(g.FatLength() * g.fatTables)
      + Zeros(g.AreaLength(1)) + Repeated(0xff, g.DataSectors() * g.sectorSize)
  }

  lemma EmptyImageLength(g: Geo)
    requires g.Accepted()
    ensures g.FatLength() * g.fatTables >= 0 && g.DataSectors() * g.sectorSize >= 0
    ensures 512 + (g.sectorSize - 512) + g.FatLength() * g.fatTables + g.AreaLength(1)
      + g.DataSectors() * g.sectorSize == g.Size()
  {
    hide Geo.FatLength, Geo.AreaLength, Geo.Size, Geo.RootStart, Geo.DataStart;
    RegionsInOrder(g);
    MulMonotone(g.sectorSize, 0, g.DataSectors());
  }

  /** Every FAT entry of a new volume is free, the root is zero, the data sectors are 0xff. */
  lemma EmptyImageView(g: Geo, header: seq<byte>)
    requires g.Accepted() && |header| == 512
    ensures var v := View(g, EmptyImage(g, header));
      && (forall c :: 0 <= c < g.Clusters() ==> v.fat[c] == 0)
      && v.area[1] == Zeros(g.AreaLength(1))
      && (forall c :: 2 <= c < g.Clusters() ==> v.area[c] == Repeated(0xff, g.AreaLength(c)))
  {
    var img := EmptyImage(g, header);
    Layout(g);
    EmptyRegions(g, header);
    var t := FatBytes(g, img);
    EntriesInTable(g, t);
    forall c | 0 <= c < g.Clusters()
      ensures FatTable.Get(t, g.Bits(), c) == 0
    {
      FatHoldsEveryEntry(g, c);
      ZeroTable(t, g.Bits(), c);
    }
    forall c | 2 <= c < g.Clusters()
      ensures AreaBytes(g, img, c) == Repeated(0xff, g.AreaLength(c))
    {
      AreaInBounds(g, c);
      AreasDisjoint(g, 1, c);
    }
  }

  lemma ZeroTable(t: seq<byte>, bits: nat, c: nat)
    requires FatTable.InTable(t, bits, c) && forall i :: 0 <= i < |t| ==> t[i] == 0
    ensures FatTable.Get(t, bits, c) == 0
  {
  }

  lemma EmptyRegions(g: Geo, header: seq<byte>)
    requires g.Accepted() && |header| == 512
    ensures var img := EmptyImage(g, header);
      && (forall i :: 0 <= i < g.FatLength() ==> FatBytes(g, img)[i] == 0)
      && (1 < g.Clusters() && AreaBytes(g, img, 1) == Zeros(g.AreaLength(1)))
      && (forall i :: g.DataStart() <= i < g.Size() ==> img[i] == 0xff)
  {
    hide Geo.FatLength, Geo.AreaLength, Geo.Size, Geo.DataStart, Geo.Clusters, Geo.RootStart;
    RegionsInOrder(g);
    Layout(g);
    EmptyImageLength(g);
  }

  predicate InSecondFat(g: Geo, i: int) {
    g.fatTables == 2 && g.FatStart() + g.FatLength() <= i < g.FatStart() + 2 * g.FatLength()
  }

  /** With two FATs, the second is a copy of the first. */
  predicate Mirrored(g: Geo, img: seq<byte>)
    requires Sized(g, img)
  {
    g.fatTables == 2 ==>
      && g.FatStart() + 2 * g.FatLength() <= |img|
      && img[g.FatStart() + g.FatLength()..g.FatStart() + 2 * g.FatLength()] == FatBytes(g, img)
  }

  lemma SecondFatBounds(g: Geo)
    requires g.Accepted() && g.fatTables == 2
    ensures g.FatStart() + 2 * g.FatLength() == g.RootStart() <= g.Size()
  {
    hide Geo.FatLength, Geo.RootStart, Geo.Size, Geo.AreaLength, Geo.DataStart;
    RegionsInOrder(g);
    Layout(g);
  }

  /** Copying the first FAT over the second changes nothing of the volume. */
  lemma CopyKeepsView(g: Geo, img: seq<byte>)
    requires Sized(g, img) && g.fatTables == 2
    ensures g.FatStart() + 2 * g.FatLength() == g.RootStart() <= |img|
    ensures var r := Splice(img, g.FatStart() + g.FatLength(), FatBytes(g, img));
      && View(g, r) == View(g, img) && Mirrored(g, r) && r[..g.FatStart()] == img[..g.FatStart()]
  {
    hide FatTable.Table, Geo.Accepted, Geo.AreaStart, Geo.AreaLength, Geo.Clusters, Geo.FatStart, Geo.FatLength,
      Geo.RootStart;
    Layout(g);
    SecondFatBounds(g);
    var at, d := g.FatStart() + g.FatLength(), FatBytes(g, img);
    var r := Splice(img, at, d);
    SpliceOutside(img, at, d, g.FatStart(), at);
    assert FatBytes(g, r) == FatBytes(g, img);
    forall c | 1 <= c < g.Clusters()
      ensures AreaBytes(g, r, c) == AreaBytes(g, img, c)
    {
      AreaInBounds(g, c);
      SpliceOutside(img, at, d, g.AreaStart(c), g.AreaStart(c) + g.AreaLength(c));
    }
    assert View(g, r).area == View(g, img).area;
  }

  class BootSectorState {
    const geo: Geo
    const image: array<byte>

    ghost predicate Valid() {
      geo.Accepted() && image.Length == geo.Size()
    }

    ghost function Contents(): (v: Vol)
      requires Valid()
      reads image
      ensures |v.fat| == |v.area| == geo.Clusters()
    {
      View(geo, image[..])
    }

    ghost function Others(): seq<byte>
      requires Valid()
      reads image
    {
      Rest(geo, image[..])
    }

    constructor CreateEmpty(g: Geo, header: seq<byte>)
      requires g.Accepted() && |header| == 512
      ensures Valid() && fresh(image) && geo == g
      ensures image[..] == EmptyImage(g, header)
    {
      geo := g;
      var content := EmptyImage(g, header);
      image := new byte[|content|](i requires 0 <= i < |content| => content[i]);
      new;
      assert image[..] == content;
    }

    /** The state around an image that exists. */
    constructor Load(g: Geo, content: seq<byte>)
      requires Sized(g, content)
      ensures Valid() && fresh(image) && geo == g && image[..] == content
    {
      geo := g;
      image := new byte[|content|](i requires 0 <= i < |content| => content[i]);
      new;
      assert image[..] == content;
    }

    /** `binary_image[at : at + |data|] = data` */
    method Assign(at: nat, data: seq<byte>)
      requires at + |data| <= image.Length
      modifies image
      ensures image[..] == Splice(old(image[..]), at, data)
    {
      forall i | 0 <= i < |data| {
        image[at + i] := data[i];
      }
      assert forall i :: 0 <= i < image.Length ==> image[i] == Splice(old(image[..]), at, data)[i];
    }

    method GetFromFat(id: nat) returns (v: nat)
      requires Valid() && id < geo.Clusters()
      ensures v == Contents().fat[id]
    {
      EntriesInTable(geo, FatBytes(geo, image[..]));
      Layout(geo);
      FatHoldsEveryEntry(geo, id);
      var p := geo.FatStart() + FatTable.EntryByte(geo.Bits(), id);
      var lo: int, hi: int := image[p], image[p + 1];
      assert FatBytes(geo, image[..])[p - geo.FatStart()] == lo;
      assert FatBytes(geo, image[..])[p + 1 - geo.FatStart()] == hi;
      if geo.Bits() == FAT12 {
        if 12 * id % 8 == 0 {
          v := lo + hi % 16 * 256;
        } else {
          v := lo / 16 + hi * 16;
        }
      } else {
        v := lo + hi * 256;
      }
    }

    method SetInFat(id: nat, value: nat)
      requires Valid() && id < geo.Clusters() && ValueFits(geo, value)
      modifies image
      ensures Contents() == old(Contents()).(fat := old(Contents()).fat[id := value])
      ensures Others() == old(Others())
    {
      hide Geo.Accepted, Geo.Clusters, Geo.Size, View, Rest, Splice;
      ghost var was: seq<byte> := image[..];
      ghost var t := FatBytes(geo, was);
      EntriesInTable(geo, t);
      Layout(geo);
      FatHoldsEveryEntry(geo, id);
      var p := geo.FatStart() + FatTable.EntryByte(geo.Bits(), id);
      var h := FatTable.SplitByHalfByte(value);
      assert t[p - geo.FatStart()] == image[p] && t[p + 1 - geo.FatStart()] == image[p + 1];
      if geo.Bits() == FAT12 {
        if 12 * id % 8 == 0 {
          image[p] := FatTable.BuildByte(h.1, h.0);
          image[p + 1] := FatTable.SetLsb(image[p + 1], h.2);
        } else {
          image[p] := FatTable.SetMsb(image[p], h.0);
          image[p + 1] := FatTable.BuildByte(h.2, h.1);
        }
      } else {
        image[p], image[p + 1] := value % 256, value / 256;
      }
      ghost var a: byte, b: byte := image[p], image[p + 1];
      TwoByteUpdate(was, geo.FatStart(), t, p - geo.FatStart(), a, b);
      assert image[..] == was[p := a][p + 1 := b];
      assert image[..] == WithFatEntry(geo, was, id, value);
      ViewAfterSetInFat(geo, was, id, value);
    }

    /** Slice assignment inside the area of a cluster. */
    method WriteArea(c: nat, off: nat, data: seq<byte>)
      requires Valid() && 1 <= c < geo.Clusters() && off + |data| <= geo.AreaLength(c)
      modifies image
      ensures Contents()
        == old(Contents()).(area := old(Contents()).area[c := Splice(old(Contents()).area[c], off, data)])
      ensures Others() == old(Others())
    {
      hide Geo.Accepted, Geo.AreaStart, Geo.AreaLength, Geo.Clusters, View, Rest, Splice;
      AreaInBounds(geo, c);
      ViewAfterAreaWrite(geo, image[..], c, off, data);
      Assign(geo.AreaStart(c) + off, data);
    }

    method ReadArea(c: nat) returns (b: seq<byte>)
      requires Valid() && 1 <= c < geo.Clusters()
      ensures b == Contents().area[c]
    {
      AreaInBounds(geo, c);
      b := image[geo.AreaStart(c)..geo.AreaStart(c) + geo.AreaLength(c)];
      assert b == AreaBytes(geo, image[..], c);
    }

    /** `duplicate_fat`: with two FATs, copy the first over the second; no other byte changes. */
    method DuplicateFat()
      requires Valid()
      modifies image
      ensures Mirrored(geo, image[..]) && Contents() == old(Contents())
      ensures forall i :: 0 <= i < image.Length && !InSecondFat(geo, i) ==> image[i] == old(image[i])
      ensures image[..geo.FatStart()] == old(image[..geo.FatStart()])
    {
      if geo.fatTables == 2 {
        SecondFatBounds(geo);
        var fatStart := 1 * geo.sectorSize;
        var shift := geo.SectorsPerFat() * geo.sectorSize;
        ghost var was := image[..];
        CopyKeepsView(geo, was);
        Assign(fatStart + shift, image[fatStart..fatStart + shift]);
        assert image[..] == Splice(was, geo.FatStart() + geo.FatLength(), FatBytes(geo, was));
        forall i | 0 <= i < image.Length && !InSecondFat(geo, i)
          ensures image[i] == was[i]
        {
          SpliceAt(was, geo.FatStart() + geo.FatLength(), FatBytes(geo, was), i);
        }
      }
    }

    /** `allocate_cluster`: mark the cluster as the end of a chain and clear its area. */
    method AllocateCluster(id: nat)
      requires Valid() && 1 <= id < geo.Clusters()
      modifies image
      ensures Contents()
        == Vol(old(Contents()).fat[id := geo.Eoc()], old(Contents()).area[id := Zeros(geo.AreaLength(id))])
      ensures Others() == old(Others())
    {
      SetInFat(id, geo.Eoc());
      ghost var area := Contents().area[id];
      WriteArea(id, 0, Zeros(geo.AreaLength(id)));
      assert Splice(area, 0, Zeros(geo.AreaLength(id))) == Zeros(geo.AreaLength(id));
    }
  }

  lemma TwoByteUpdate(s: seq<byte>, start: nat, t: seq<byte>, q: nat, a: byte, b: byte)
    requires start + |t| <= |s| && q + 1 < |t| && t == s[start..start + |t|]
    ensures s[start + q := a][start + q + 1 := b] == Splice(s, start, t[q := a][q + 1 := b])
  {
  }
}
