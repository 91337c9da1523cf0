/** The image as a volume: a table of FAT entries and one byte area per cluster.
    `View` reads this abstract form off the bytes; every write to the image is proved to be the
    matching update of the view. */
module Volume {
  import opened Bytes
  import opened Geometry
  import FatTable

  /** `fat[c]` is the FAT entry of cluster `c`, `area[c]` its bytes; `area[1]` is the root
      directory and `area[0]` (no bytes belong to entry 0) is empty. */
  datatype Vol = Vol(fat: seq<nat>, area: seq<seq<byte>>)

  predicate Sized(g: Geo, img: seq<byte>) {
    g.Accepted() && |img| == g.Size()
  }

  function FatBytes(g: Geo, img: seq<byte>): (t: seq<byte>)
    requires Sized(g, img)
    ensures |t| == g.FatLength()
  {
    Layout(g);
    img[g.FatStart()..g.FatStart() + g.FatLength()]
  }

  /** Everything the file system does not manage through the view: the boot sector and the FAT
      copies after the first. */
  function Rest(g: Geo, img: seq<byte>): (r: seq<byte>)
    requires Sized(g, img)
  {
    Layout(g);
    img[..g.FatStart()] + img[g.FatStart() + g.FatLength()..g.RootStart()]
  }

  function AreaBytes(g: Geo, img: seq<byte>, c: nat): (b: seq<byte>)
    requires Sized(g, img) && 1 <= c < g.Clusters()
    ensures |b| == g.AreaLength(c)
  {
    AreaInBounds(g, c);
    img[g.AreaStart(c)..g.AreaStart(c) + g.AreaLength(c)]
  }

  lemma EntriesInTable(g: Geo, t: seq<byte>)
    requires g.Accepted() && |t| == g.FatLength()
    ensures forall i :: 0 <= i < g.Clusters() ==> FatTable.InTable(t, g.Bits(), i)
  {
    forall i | 0 <= i < g.Clusters()
      ensures FatTable.InTable(t, g.Bits(), i)
    {
      FatHoldsEveryEntry(g, i);
    }
  }

  function FatView(g: Geo, img: seq<byte>): (f: seq<nat>)
    requires Sized(g, img)
    ensures |f| == g.Clusters()
  {
    EntriesInTable(g, FatBytes(g, img));
    FatTable.Table(FatBytes(g, img), g.Bits(), g.Clusters())
  }

  function View(g: Geo, img: seq<byte>): (v: Vol)
    requires Sized(g, img)
    ensures |v.fat| == |v.area| == g.Clusters()
    ensures forall c :: 1 <= c < g.Clusters() ==> v.area[c] == AreaBytes(g, img, c)
  {
    Vol(FatView(g, img),
        seq(g.Clusters(), c requires 0 <= c < g.Clusters() => if c == 0 then [] else AreaBytes(g, img, c)))
  }

  predicate ValueFits(g: Geo, value: nat)
    requires g.Accepted()
  {
    value <= g.Eoc()
  }

  /** The image after `set_in_fat`. */
  function WithFatEntry(g: Geo, img: seq<byte>, id: nat, value: nat): (r: seq<byte>)
    requires Sized(g, img) && id < g.Clusters() && ValueFits(g, value)
    ensures Sized(g, r)
  {
    EntriesInTable(g, FatBytes(g, img));
    FatHoldsEveryEntry(g, id);
    Layout(g);
    Splice(img, g.FatStart(), FatTable.Set(FatBytes(g, img), g.Bits(), id, value))
  }

  /** Setting a FAT entry changes that entry of the view and nothing else. */
  lemma ViewAfterSetInFat(g: Geo, img: seq<byte>, id: nat, value: nat)
    requires Sized(g, img) && id < g.Clusters() && ValueFits(g, value)
    ensures var v := View(g, img);
      View(g, WithFatEntry(g, img, id, value)) == v.(fat := v.fat[id := value])
    ensures Rest(g, WithFatEntry(g, img, id, value)) == Rest(g, img)
  {
    hide FatTable.Set, FatTable.Table, FatTable.InTable, Geo.Accepted, Geo.AreaStart, Geo.AreaLength, Geo.Clusters,
      Geo.FatStart, Geo.FatLength, Geo.RootStart, Geo.Bits, Splice;
    var t := FatBytes(g, img);
    EntriesInTable(g, t);
    FatHoldsEveryEntry(g, id);
    Layout(g);
    var t' := FatTable.Set(t, g.Bits(), id, value);
    var r := WithFatEntry(g, img, id, value);
    SetFatRegion(g, img, t');
    FatTable.TableAfterSet(t, g.Bits(), g.Clusters(), id, value);
    assert FatView(g, r) == FatView(g, img)[id := value];
    assert View(g, r).area == View(g, img).area;
  }

  lemma SetFatRegion(g: Geo, img: seq<byte>, t: seq<byte>)
    requires Sized(g, img) && |t| == g.FatLength()
    requires g.FatStart() + g.FatLength() <= g.Size()
    ensures var r := Splice(img, g.FatStart(), t);
      && FatBytes(g, r) == t
      && Rest(g, r) == Rest(g, img)
      && forall c :: 1 <= c < g.Clusters() ==> AreaBytes(g, r, c) == AreaBytes(g, img, c)
  {
    hide Geo.Accepted, Geo.AreaStart, Geo.AreaLength, Geo.Clusters, Geo.FatStart, Geo.FatLength, Geo.RootStart;
    var r := Splice(img, g.FatStart(), t);
    Layout(g);
    forall c | 1 <= c < g.Clusters()
      ensures AreaBytes(g, r, c) == AreaBytes(g, img, c)
    {
      AreaInBounds(g, c);
      SpliceOutside(img, g.FatStart(), t, g.AreaStart(c), g.AreaStart(c) + g.AreaLength(c));
    }
  }

  /** Writing inside one area changes that area of the view and nothing else. */
  lemma ViewAfterAreaWrite(g: Geo, img: seq<byte>, c: nat, off: nat, d: seq<byte>)
    requires Sized(g, img) && 1 <= c < g.Clusters() && off + |d| <= g.AreaLength(c)
    ensures g.AreaStart(c) + off + |d| <= |img|
    ensures var v := View(g, img);
      View(g, Splice(img, g.AreaStart(c) + off, d)) == v.(area := v.area[c := Splice(v.area[c], off, d)])
    ensures Rest(g, Splice(img, g.AreaStart(c) + off, d)) == Rest(g, img)
  {
    hide FatTable.Table, Geo.Accepted, Geo.AreaStart, Geo.AreaLength, Geo.Clusters, Geo.FatStart, Geo.FatLength,
      Geo.RootStart, Splice;
    Layout(g);
    AreaInBounds(g, c);
    var at := g.AreaStart(c) + off;
    var r := Splice(img, at, d);
    SpliceOutside(img, at, d, 0, g.FatStart());
    SpliceOutside(img, at, d, g.FatStart(), g.FatStart() + g.FatLength());
    SpliceOutside(img, at, d, g.FatStart() + g.FatLength(), g.RootStart());
    assert FatBytes(g, r) == FatBytes(g, img);
    SpliceInside(img, at, d, g.AreaStart(c), g.AreaStart(c) + g.AreaLength(c));
    forall b | 1 <= b < g.Clusters() && b != c
      ensures AreaBytes(g, r, b) == AreaBytes(g, img, b)
    {
      AreaInBounds(g, b);
      if b < c {
        AreasDisjoint(g, b, c);
      } else {
        AreasDisjoint(g, c, b);
      }
      SpliceOutside(img, at, d, g.AreaStart(b), g.AreaStart(b) + g.AreaLength(b));
    }
    assert View(g, r).area == View(g, img).area[c := Splice(View(g, img).area[c], off, d)];
  }
}
