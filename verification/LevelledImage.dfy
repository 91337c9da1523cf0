/** `fatfsparse.py` on a partition with wear levelling: `wl_fatfsgen.py` around an image that FATFS built,
    and back. */
module LevelledImage {
  import opened Bytes
  import opened Geometry
  import opened Volume
  import opened BootSectorImage
  import opened DirectoryListing
  import opened FileSystem
  import opened FileSystemInvariant
  import opened Reader
  import opened Traversal
  import opened Fatfs
  import opened FatParser
  import W = WearLevelling

  /** The program with the wear-levelling layer enabled: remove the layer, then read. The geometry is
      that of the boot sector. */
  method ReadLevelled(image: seq<byte>, g: Geo, option: bool, depth: nat) returns (r: Option<seq<Tree>>)
    requires W.Removed(image).Some? ==>
      var plain := W.Removed(image).value;
      Sized(g, plain) && Followable(View(g, plain), g.Eoc(), RecordsOf(DirContent(View(g, plain), 1)), depth)
    ensures match W.Removed(image)
      case None => r == None
      case Some(plain) => Sized(g, plain) && r == ParseTree(View(g, plain), option, depth)
  {
    hide W.Removed, Followable, ParseTree, RecordsOf, View;
    var plain := W.RemoveWl(image);
    if plain.None? {
      return None;
    }
    var boot := new BootSectorState.Load(g, plain.value);
    r := ParseImage(boot, option, depth);
  }

  /** Reading a partition whose layer was moved `moveCount` times around an image that FATFS built. */
  method ReadMoved(fs: FATFS, sectors: nat, moveCount: nat, dummyPos: nat, dummy: seq<byte>, state1: seq<byte>,
                   state2: seq<byte>, config: seq<byte>, n: nat, option: bool, depth: nat)
    returns (r: Option<seq<Tree>>)
    requires fs.Valid() && fs.fat.boot.geo.Size() == sectors * W.SECTOR
    requires moveCount <= sectors && dummyPos <= sectors && n == W.StateSectors(sectors + 2 + 2 * n)
    requires |dummy| == W.SECTOR && |config| == W.SECTOR && |state2| == n * W.SECTOR
    requires W.StateCopy(state1, n * W.SECTOR, moveCount, dummyPos)
    ensures Formed(fs.State()) && |fs.logs| == |fs.tree| && ReadExactly(fs.State(), fs.logs, depth, r)
  {
    hide Followable, ParseTree, RecordsOf, CoreInv, LogInv, AllHeld, ReadExactly, View, W.Removed,
      W.Layout, W.Rotated, W.StateSectors, W.StateCopy;
    CoreFacts(fs.State(), fs.owner, fs.logs);
    InvReadable(fs.State(), fs.owner, fs.logs, option, depth);
    var plain := fs.fat.boot.image[..];
    W.RemovalUndoesLayout(plain, sectors, moveCount, dummyPos, dummy, state1, state2, config, n);
    W.RotatedLength(plain, moveCount);
    var image := W.Layout(W.Rotated(plain, moveCount), dummyPos, dummy, state1, state2, config);
    r := ReadLevelled(image, fs.fat.boot.geo, option, depth);
  }

  /** The generator and the reader: an image that FATFS built, wrapped by WLFATFS, is read as without
      the layer. */
  method LevelAndRead(fs: FATFS, size: nat, version: nat, deviceId: nat, crc: nat, configHeader: seq<byte>,
                      option: bool, depth: nat)
    returns (r: Option<seq<Tree>>)
    requires fs.Valid() && size / W.SECTOR < 0x1_0000_0000
    requires fs.fat.boot.geo.Size() + (2 + 2 * W.StateSectors(size / W.SECTOR)) * W.SECTOR
      == size / W.SECTOR * W.SECTOR
    requires version < 0x1_0000_0000 && deviceId < 0x1_0000_0000 && crc < 0x1_0000_0000
    requires |configHeader| == W.CONFIG_HEADER_SIZE
    ensures Formed(fs.State()) && |fs.logs| == |fs.tree| && ReadExactly(fs.State(), fs.logs, depth, r)
  {
    hide Followable, ParseTree, RecordsOf, CoreInv, LogInv, AllHeld, ReadExactly, View, W.Removed;
    CoreFacts(fs.State(), fs.owner, fs.logs);
    InvReadable(fs.State(), fs.owner, fs.logs, option, depth);
    var levelled := new W.WLFATFS(size, fs.fat.boot.image[..]);
    levelled.InitWl(version, deviceId, crc, configHeader);
    r := ReadLevelled(levelled.image, fs.fat.boot.geo, option, depth);
  }
}
