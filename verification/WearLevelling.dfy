/** The wear-levelling wrapper of `wl_fatfsgen.py` and its removal. All sizes are multiples of
    the 4096-byte wear-levelling sector. */
module WearLevelling {
  import opened Bytes

  const SECTOR: nat := 0x1000
  const STATE_HEADER_SIZE: nat := 64
  const STATE_RECORD_SIZE: nat := 16
  const CONFIG_HEADER_SIZE: nat := 48
  const UPDATE_RATE: nat := 16

  // ---- Python slices with negative bounds ----

  /** `s[-k:]`; for `k == 0` this is the whole of `s` */
  function LastBytes(s: seq<byte>, k: nat): seq<byte> {
    if k == 0 || k >= |s| then s else s[|s| - k..]
  }

  /** `s[:-k]`; for `k == 0` this is empty */
  function WithoutLast(s: seq<byte>, k: nat): seq<byte> {
    if k == 0 || k >= |s| then [] else s[..|s| - k]
  }

  /** `s[:hi]` for any bound; a negative one counts from the end */
  function Upto(s: seq<byte>, hi: int): seq<byte> {
    if hi >= |s| then s else if hi >= 0 then s[..hi] else WithoutLast(s, -hi)
  }

  /** `s[lo:hi]` for non-negative bounds */
  function Slice(s: seq<byte>, lo: nat, hi: nat): seq<byte> {
    if lo >= |s| || hi <= lo then [] else if hi >= |s| then s[lo..] else s[lo..hi]
  }

  /** Sectors of one copy of the state: a header and one record per sector of the partition. */
  function StateSectors(totalSectors: nat): (n: nat)
    ensures SECTOR * n >= STATE_HEADER_SIZE + STATE_RECORD_SIZE * totalSectors
  {
    (STATE_HEADER_SIZE + STATE_RECORD_SIZE * totalSectors + SECTOR - 1) / SECTOR
  }

  // ---- the state header ----

  /** The fields of the state header that the program reads or writes. */
  datatype StateHeader = StateHeader(pos: nat, maxPos: nat, moveCount: nat, accessCount: nat, maxCount: nat,
                                     blockSize: nat, version: nat, deviceId: nat)
  {
    predicate Fits() {
      && pos < 0x1_0000_0000 && maxPos < 0x1_0000_0000 && moveCount < 0x1_0000_0000 && accessCount < 0x1_0000_0000
      && maxCount < 0x1_0000_0000 && blockSize < 0x1_0000_0000 && version < 0x1_0000_0000 && deviceId < 0x1_0000_0000
    }
  }

  /** `WL_STATE_T_DATA.build` */
  function BuildState(h: StateHeader): (b: seq<byte>)
    requires h.Fits()
    ensures |b| == 60
  {
    Le32(h.pos) + Le32(h.maxPos) + Le32(h.moveCount) + Le32(h.accessCount) + Le32(h.maxCount) + Le32(h.blockSize)
      + Le32(h.version) + Le32(h.deviceId) + Zeros(28)
  }

  /** `WL_STATE_T_DATA.parse`; absent when parsing raises. */
  function ParseState(b: seq<byte>): Option<StateHeader> {
    if |b| < 60 || b[32..60] != Zeros(28) then None
    else
      Some(StateHeader(FromLe32(b[0..4]), FromLe32(b[4..8]), FromLe32(b[8..12]), FromLe32(b[12..16]),
                       FromLe32(b[16..20]), FromLe32(b[20..24]), FromLe32(b[24..28]), FromLe32(b[28..32])))
  }

  function ParseMoveCount(b: seq<byte>): Option<nat> {
    if ParseState(b).None? then None else Some(ParseState(b).value.moveCount)
  }

  /** A built header parses back to its fields, whatever follows. */
  lemma StateRoundTrip(h: StateHeader, rest: seq<byte>)
    requires h.Fits()
    ensures ParseState(BuildState(h) + rest) == Some(h)
  {
    hide Le32, FromLe32;
    var b := BuildState(h) + rest;
    assert b[0..4] == Le32(h.pos) && b[4..8] == Le32(h.maxPos) && b[8..12] == Le32(h.moveCount);
    assert b[12..16] == Le32(h.accessCount) && b[16..20] == Le32(h.maxCount) && b[20..24] == Le32(h.blockSize);
    assert b[24..28] == Le32(h.version) && b[28..32] == Le32(h.deviceId) && b[32..60] == Zeros(28);
    Le32RoundTrip(h.pos);
    Le32RoundTrip(h.maxPos);
    Le32RoundTrip(h.moveCount);
    Le32RoundTrip(h.accessCount);
    Le32RoundTrip(h.maxCount);
    Le32RoundTrip(h.blockSize);
    Le32RoundTrip(h.version);
    Le32RoundTrip(h.deviceId);
  }

  /** The other way round: a header that parses is built again from its fields, byte for byte. */
  lemma StateRebuilt(b: seq<byte>)
    requires ParseState(b).Some?
    ensures ParseState(b).value.Fits() && BuildState(ParseState(b).value) == b[..60]
  {
    hide Le32, FromLe32;
    Le32Back(b[0..4]);
    Le32Back(b[4..8]);
    Le32Back(b[8..12]);
    Le32Back(b[12..16]);
    Le32Back(b[16..20]);
    Le32Back(b[20..24]);
    Le32Back(b[24..28]);
    Le32Back(b[28..32]);
    assert b[..60] == b[0..4] + b[4..8] + b[8..12] + b[12..16] + b[16..20] + b[20..24] + b[24..28] + b[28..32]
      + b[32..60];
  }

  lemma Le32Back(b: seq<byte>)
    requires |b| == 4
    ensures Le32(FromLe32(b)) == b
  {
    assert FromLe32(b) % 0x1_0000 == FromLe16(b[..2]) && FromLe32(b) / 0x1_0000 == FromLe16(b[2..]);
    assert b == b[..2] + b[2..];
  }

  // ---- removal ----

  predicate IsRecord(b: seq<byte>, i: nat) {
    Slice(b, i, i + STATE_RECORD_SIZE) != Repeated(0xff, STATE_RECORD_SIZE)
  }

  /** Records from offset `i` up to the first blank one. */
  function CountRecords(b: seq<byte>, i: nat, end: nat): nat
    decreases end - i
  {
    if i < end && IsRecord(b, i) then 1 + CountRecords(b, i + STATE_RECORD_SIZE, end) else 0
  }

  /** The sectors in front of the state, without the dummy sector, in their original order. */
  function Reordered(image: seq<byte>, records: nat, stateBytes: nat, moveCount: nat): seq<byte> {
    var joined := Slice(image, 0, records * SECTOR) + Slice(image, records * SECTOR + SECTOR, |image|);
    var data := Upto(joined, |joined| - (SECTOR + 2 * stateBytes));
    LastBytes(data, moveCount * SECTOR) + WithoutLast(data, moveCount * SECTOR)
  }

  /** `remove_wl`; None when the state header cannot be parsed. */
  method RemoveWl(image: seq<byte>) returns (r: Option<seq<byte>>)
    ensures r == Removed(image)
  {
    hide ParseMoveCount, Reordered, LastBytes, StateSectors, IsRecord;
    var totalSectors := |image| / SECTOR;
    var stateBytes := StateSectors(totalSectors) * SECTOR;
    var wlBytes := stateBytes * 2 + SECTOR;
    var configuration := LastBytes(image, wlBytes);
    var moveCount := ParseMoveCount(configuration);
    if moveCount.None? {
      return None;
    }
    var records := 0;
    var i := STATE_HEADER_SIZE;
    while i < stateBytes && IsRecord(configuration, i)
      invariant CountRecords(configuration, STATE_HEADER_SIZE, stateBytes)
        == records + CountRecords(configuration, i, stateBytes)
      decreases stateBytes - i
    {
      records := records + 1;
      i := i + STATE_RECORD_SIZE;
    }
    return Some(Reordered(image, records, stateBytes, moveCount.value));
  }

  /** What `remove_wl` computes. */
  function Removed(image: seq<byte>): Option<seq<byte>> {
    var stateBytes := StateSectors(|image| / SECTOR) * SECTOR;
    var configuration := LastBytes(image, stateBytes * 2 + SECTOR);
    match ParseMoveCount(configuration)
    case None => None
    case Some(moveCount) =>
      Some(Reordered(image, CountRecords(configuration, STATE_HEADER_SIZE, stateBytes), stateBytes, moveCount))
  }

  // ---- the layout of a partition with wear levelling ----

  /** One copy of the state: a header with the move count, then exactly `dummyPos` records. */
  ghost predicate StateCopy(state: seq<byte>, stateBytes: nat, moveCount: nat, dummyPos: nat) {
    && |state| == stateBytes && ParseMoveCount(state) == Some(moveCount)
    && STATE_HEADER_SIZE + STATE_RECORD_SIZE * dummyPos + STATE_RECORD_SIZE <= stateBytes
    && (forall k :: 0 <= k < dummyPos ==> IsRecord(state, STATE_HEADER_SIZE + STATE_RECORD_SIZE * k))
    && !IsRecord(state, STATE_HEADER_SIZE + STATE_RECORD_SIZE * dummyPos)
  }

  /** The plain image, rotated by `moveCount` sectors. */
  function Rotated(plain: seq<byte>, moveCount: nat): seq<byte>
    requires moveCount * SECTOR <= |plain|
  {
    plain[moveCount * SECTOR..] + plain[..moveCount * SECTOR]
  }

  /** The rotated image with the dummy sector at `dummyPos`, two state copies and the configuration. */
  function Layout(rotated: seq<byte>, dummyPos: nat, dummy: seq<byte>, state1: seq<byte>, state2: seq<byte>,
                  config: seq<byte>): seq<byte>
    requires dummyPos * SECTOR <= |rotated|
  {
    rotated[..dummyPos * SECTOR] + dummy + rotated[dummyPos * SECTOR..] + state1 + state2 + config
  }

  lemma SameRecord(state: seq<byte>, b: seq<byte>, at: nat)
    requires state <= b && at + STATE_RECORD_SIZE <= |state|
    ensures IsRecord(b, at) == IsRecord(state, at)
  {
    assert Slice(b, at, at + STATE_RECORD_SIZE) == Slice(state, at, at + STATE_RECORD_SIZE);
  }

  lemma CountStep(b: seq<byte>, i: nat, end: nat)
    requires i < end
    ensures CountRecords(b, i, end) == if IsRecord(b, i) then 1 + CountRecords(b, i + STATE_RECORD_SIZE, end) else 0
  {
  }

  lemma {:induction false} RecordsCounted(state: seq<byte>, b: seq<byte>, end: nat, dummyPos: nat, k: nat)
    requires state <= b && end == |state| && k <= dummyPos
    requires STATE_HEADER_SIZE + STATE_RECORD_SIZE * dummyPos + STATE_RECORD_SIZE <= end
    requires forall j :: 0 <= j < dummyPos ==> IsRecord(state, STATE_HEADER_SIZE + STATE_RECORD_SIZE * j)
    requires !IsRecord(state, STATE_HEADER_SIZE + STATE_RECORD_SIZE * dummyPos)
    ensures CountRecords(b, STATE_HEADER_SIZE + STATE_RECORD_SIZE * k, end) == dummyPos - k
    decreases dummyPos - k
  {
    hide IsRecord, CountRecords;
    var at := STATE_HEADER_SIZE + STATE_RECORD_SIZE * k;
    SameRecord(state, b, at);
    CountStep(b, at, end);
    if k < dummyPos {
      assert IsRecord(state, STATE_HEADER_SIZE + STATE_RECORD_SIZE * k);
      RecordsCounted(state, b, end, dummyPos, k + 1);
    }
  }

  lemma Unrotated(plain: seq<byte>, moveCount: nat)
    requires moveCount * SECTOR <= |plain|
    ensures var r := Rotated(plain, moveCount);
      LastBytes(r, moveCount * SECTOR) + WithoutLast(r, moveCount * SECTOR) == plain
  {
    var k := moveCount * SECTOR;
    var r := Rotated(plain, moveCount);
    if 0 < k < |plain| {
      assert LastBytes(r, k) == plain[..k] && WithoutLast(r, k) == plain[k..];
    } else {
      assert r == plain;
    }
  }

  lemma DummyRemoved(rotated: seq<byte>, dummyPos: nat, dummy: seq<byte>, tail: seq<byte>, image: seq<byte>)
    requires dummyPos * SECTOR <= |rotated| && |dummy| == SECTOR
    requires image == rotated[..dummyPos * SECTOR] + dummy + rotated[dummyPos * SECTOR..] + tail
    ensures Slice(image, 0, dummyPos * SECTOR) + Slice(image, dummyPos * SECTOR + SECTOR, |image|) == rotated + tail
  {
    var p := dummyPos * SECTOR;
    assert Slice(image, 0, p) == rotated[..p];
    assert Slice(image, p + SECTOR, |image|) == rotated[p..] + tail;
    assert rotated[..p] + (rotated[p..] + tail) == rotated + tail;
  }

  /** Removal undoes the layout: for every plain image, every move count up to its number of
      sectors and every dummy position recorded by the state, whatever the dummy sector, the
      second copy and the configuration hold. */
  lemma RemovalUndoesLayout(plain: seq<byte>, sectors: nat, moveCount: nat, dummyPos: nat, dummy: seq<byte>,
                            state1: seq<byte>, state2: seq<byte>, config: seq<byte>, n: nat)
    requires |plain| == sectors * SECTOR && moveCount <= sectors && dummyPos <= sectors
    requires n == StateSectors(sectors + 2 + 2 * n)
    requires |dummy| == SECTOR && |config| == SECTOR && |state2| == n * SECTOR
    requires StateCopy(state1, n * SECTOR, moveCount, dummyPos)
    ensures Removed(Layout(Rotated(plain, moveCount), dummyPos, dummy, state1, state2, config)) == Some(plain)
  {
    hide ParseMoveCount, IsRecord, CountRecords, StateSectors, Slice, LastBytes, WithoutLast, Rotated, Layout;
    RotatedLength(plain, moveCount);
    var rotated := Rotated(plain, moveCount);
    var image := Layout(rotated, dummyPos, dummy, state1, state2, config);
    var tail := state1 + state2 + config;
    LayoutParts(rotated, sectors, dummyPos, dummy, state1, state2, config, n);
    HeaderFromTail(state1, tail, moveCount);
    RecordsCounted(state1, tail, n * SECTOR, dummyPos, 0);
    DummyRemoved(rotated, dummyPos, dummy, tail, image);
    assert (rotated + tail)[..|rotated|] == rotated;
    Unrotated(plain, moveCount);
  }

  lemma RotatedLength(plain: seq<byte>, moveCount: nat)
    requires moveCount * SECTOR <= |plain|
    ensures |Rotated(plain, moveCount)| == |plain|
  {
  }

  lemma LayoutParts(rotated: seq<byte>, sectors: nat, dummyPos: nat, dummy: seq<byte>, state1: seq<byte>,
                    state2: seq<byte>, config: seq<byte>, n: nat)
    requires |rotated| == sectors * SECTOR && dummyPos <= sectors
    requires |dummy| == SECTOR && |config| == SECTOR && |state1| == |state2| == n * SECTOR
    ensures var image := Layout(rotated, dummyPos, dummy, state1, state2, config);
      var tail := state1 + state2 + config;
      && |image| == (sectors + 2 + 2 * n) * SECTOR && |image| / SECTOR == sectors + 2 + 2 * n
      && |tail| == n * SECTOR * 2 + SECTOR
      && image == rotated[..dummyPos * SECTOR] + dummy + rotated[dummyPos * SECTOR..] + tail
      && LastBytes(image, |tail|) == tail
  {
  }

  lemma HeaderFromTail(state: seq<byte>, tail: seq<byte>, moveCount: nat)
    requires state <= tail && ParseMoveCount(state) == Some(moveCount)
    ensures ParseMoveCount(tail) == Some(moveCount)
  {
    assert tail[32..60] == state[32..60] && tail[8..12] == state[8..12];
  }

  /** What stands where in an unmoved layout: the dummy sector, the plain image, two equal copies of the
      state and the configuration. */
  lemma LayoutSlices(plain: seq<byte>, dummy: seq<byte>, state: seq<byte>, config: seq<byte>, image: seq<byte>)
    requires image == Layout(Rotated(plain, 0), 0, dummy, state, state, config)
    ensures var first := |dummy| + |plain|;
      && |image| == first + 2 * |state| + |config|
      && image[..|dummy|] == dummy && image[|dummy|..first] == plain
      && image[first..first + |state|] == state && image[first + |state|..first + 2 * |state|] == state
      && image[first + 2 * |state|..] == config
  {
    assert Rotated(plain, 0) == plain && plain[..0] == [];
    assert image == dummy + plain + state + state + config;
  }

  lemma WindowIn(s: seq<byte>, lo: nat, hi: nat, i: nat, j: nat)
    requires lo <= hi <= |s| && i <= j <= hi - lo
    ensures s[lo..hi][i..j] == s[lo + i..lo + j]
  {
    var a, b := s[lo..hi][i..j], s[lo + i..lo + j];
    assert |a| == |b| && forall k :: 0 <= k < |a| ==> a[k] == b[k];
  }

  /** From `at` on the image holds these 32-bit numbers. */
  predicate HoldsNumbers(image: seq<byte>, at: nat, numbers: seq<nat>) {
    forall k :: 0 <= k < |numbers| ==>
      at + 4 * k + 4 <= |image| && FromLe32(image[at + 4 * k..at + 4 * k + 4]) == numbers[k]
  }

  /** The fields of a built header, one after another. */
  lemma BuiltNumbers(h: StateHeader)
    requires h.Fits()
    ensures HoldsNumbers(BuildState(h), 0, [h.pos, h.maxPos, h.moveCount, h.accessCount, h.maxCount, h.blockSize,
                                            h.version, h.deviceId])
    ensures BuildState(h)[32..60] == Zeros(28)
  {
    StateRoundTrip(h, []);
    hide BuildState, FromLe32;
    assert BuildState(h) + [] == BuildState(h);
  }

  lemma NumbersMoved(b: seq<byte>, image: seq<byte>, at: nat, numbers: seq<nat>)
    requires HoldsNumbers(b, 0, numbers) && at + |b| <= |image| && image[at..at + |b|] == b
    ensures HoldsNumbers(image, at, numbers)
  {
    forall k | 0 <= k < |numbers|
      ensures at + 4 * k + 4 <= |image| && image[at + 4 * k..at + 4 * k + 4] == b[4 * k..4 * k + 4]
    {
      WindowIn(image, at, at + |b|, 4 * k, 4 * k + 4);
    }
  }

  /** The fields of a state, read where it stands. */
  lemma StateFields(h: StateHeader, crc: nat, state: seq<byte>, image: seq<byte>, at: nat)
    requires h.Fits() && crc < 0x1_0000_0000 && 64 <= |state| && at + |state| <= |image|
    requires state == BuildState(h) + Le32(crc) + Repeated(0xff, |state| - 64)
    requires image[at..at + |state|] == state
    ensures HoldsNumbers(image, at, [h.pos, h.maxPos, h.moveCount, h.accessCount, h.maxCount, h.blockSize, h.version,
                                     h.deviceId])
    ensures image[at + 32..at + 60] == Zeros(28) && FromLe32(image[at + 60..at + 64]) == crc
    ensures image[at + 64..at + |state|] == Repeated(0xff, |state| - 64)
  {
    hide BuildState, Le32, FromLe32, Repeated, HoldsNumbers;
    BuiltNumbers(h);
    WindowIn(image, at, at + |state|, 0, 60);
    assert state[..60] == BuildState(h);
    NumbersMoved(BuildState(h), image, at, [h.pos, h.maxPos, h.moveCount, h.accessCount, h.maxCount, h.blockSize,
                                            h.version, h.deviceId]);
    WindowIn(image, at, at + |state|, 32, 60);
    assert state[32..60] == BuildState(h)[32..60];
    WindowIn(image, at, at + |state|, 60, 64);
    assert state[60..64] == Le32(crc);
    Le32RoundTrip(crc);
    WindowIn(image, at, at + |state|, 64, |state|);
    assert state[64..] == Repeated(0xff, |state| - 64);
  }

  /** The pieces in the order they are added are the layout without moves. */
  lemma Unmoved(plain: seq<byte>, dummy: seq<byte>, state: seq<byte>, header: seq<byte>, blank: seq<byte>)
    ensures Layout(Rotated(plain, 0), 0, dummy, state, state, header + blank)
      == dummy + plain + state + state + header + blank
  {
    assert Rotated(plain, 0) == plain;
    assert plain[..0] + dummy == dummy;
    assert (dummy + plain + state + state) + (header + blank) == (dummy + plain + state + state) + header + blank;
  }

  /** The partition byte by byte: a blank sector, the plain image, two equal states of `half` bytes and the
      configuration. A state is a header for a partition that was never written to, and blank records. */
  ghost predicate LayerWritten(image: seq<byte>, plain: seq<byte>, half: nat, version: nat, deviceId: nat, crc: nat,
                               configHeader: seq<byte>)
  {
    var first := 4096 + |plain|;
    && half >= 4096 && |image| == first + 2 * half + 4096
    && image[..4096] == Repeated(0xff, 4096) && image[4096..first] == plain
    && image[first..first + half] == image[first + half..first + 2 * half]
    && HoldsNumbers(image, first, [0, |plain| / 4096 + 1, 0, 0, 16, 4096, version, deviceId])
    && image[first + 32..first + 60] == Zeros(28)
    && FromLe32(image[first + 60..first + 64]) == crc
    && image[first + 64..first + half] == Repeated(0xff, half - 64)
    && image[first + 2 * half..] == configHeader + Repeated(0xff, 4048)
  }

  lemma LayerIs(image: seq<byte>, plain: seq<byte>, state: seq<byte>, h: StateHeader, crc: nat, configHeader: seq<byte>)
    requires h.Fits() && crc < 0x1_0000_0000 && 4096 <= |state|
    requires h == StateHeader(0, |plain| / 4096 + 1, 0, 0, 16, 4096, h.version, h.deviceId)
    requires state == BuildState(h) + Le32(crc) + Repeated(0xff, |state| - 64)
    requires |configHeader| == 48
    requires image == Layout(Rotated(plain, 0), 0, Repeated(0xff, 4096), state, state,
                             configHeader + Repeated(0xff, 4048))
    ensures LayerWritten(image, plain, |state|, h.version, h.deviceId, crc, configHeader)
  {
    hide Layout, Rotated, Repeated, FromLe32, HoldsNumbers, BuildState, Le32;
    LayoutSlices(plain, Repeated(0xff, 4096), state, configHeader + Repeated(0xff, 4048), image);
    StateFields(h, crc, state, image, 4096 + |plain|);
  }

  // ---- the generator ----

  /** The class WLFATFS around a finished plain image. Checksums and ids are arguments. */
  class WLFATFS {
    const partitionSize: nat
    const plain: seq<byte>
    var image: seq<byte>

    function TotalSectors(): nat { partitionSize / SECTOR }

    function PlainSectors(): int { TotalSectors() - (2 + 2 * StateSectors(TotalSectors())) }

    /** The plain file system was generated for the sectors that wear levelling leaves. */
    predicate Valid() {
      PlainSectors() >= 0 && |plain| == PlainSectors() * SECTOR && TotalSectors() < 0x1_0000_0000
    }

    constructor (size: nat, plainImage: seq<byte>)
      ensures partitionSize == size && plain == plainImage
    {
      partitionSize := size;
      plain := plainImage;
      image := plainImage;
    }

    method AddDummySector()
      modifies this
      ensures image == Repeated(0xff, SECTOR) + old(image)
    {
      image := Repeated(0xff, SECTOR) + image;
    }

    /** The header of a partition that was never written to. */
    function InitialHeader(version: nat, deviceId: nat): StateHeader
      requires Valid()
    {
      StateHeader(0, PlainSectors() + 1, 0, 0, UPDATE_RATE, SECTOR, version, deviceId)
    }

    function StateSector(version: nat, deviceId: nat, crc: nat): (b: seq<byte>)
      requires Valid() && version < 0x1_0000_0000 && deviceId < 0x1_0000_0000 && crc < 0x1_0000_0000
      ensures |b| == StateSectors(TotalSectors()) * SECTOR >= SECTOR
      ensures b == BuildState(InitialHeader(version, deviceId)) + Le32(crc) + Repeated(0xff, |b| - STATE_HEADER_SIZE)
    {
      BuildState(InitialHeader(version, deviceId)) + Le32(crc)
        + Repeated(0xff, (SECTOR - STATE_HEADER_SIZE) + (StateSectors(TotalSectors()) - 1) * SECTOR)
    }

    method AddStateSectors(version: nat, deviceId: nat, crc: nat)
      requires Valid() && version < 0x1_0000_0000 && deviceId < 0x1_0000_0000 && crc < 0x1_0000_0000
      modifies this
      ensures image == old(image) + StateSector(version, deviceId, crc) + StateSector(version, deviceId, crc)
    {
      var state := StateSector(version, deviceId, crc);
      image := image + (state + state);
      assert image == old(image) + state + state;
    }

    method AddConfigSector(header: seq<byte>)
      requires |header| == CONFIG_HEADER_SIZE
      modifies this
      ensures image == old(image) + header + Repeated(0xff, SECTOR - CONFIG_HEADER_SIZE)
    {
      image := image + (header + Repeated(0xff, SECTOR - CONFIG_HEADER_SIZE));
      assert image == old(image) + header + Repeated(0xff, SECTOR - CONFIG_HEADER_SIZE);
    }

    /** `init_wl`: removing the layer from its result gives the plain image back. */
    method InitWl(version: nat, deviceId: nat, crc: nat, configHeader: seq<byte>)
      requires Valid() && version < 0x1_0000_0000 && deviceId < 0x1_0000_0000 && crc < 0x1_0000_0000
      requires |configHeader| == CONFIG_HEADER_SIZE
      modifies this
      ensures |image| == TotalSectors() * SECTOR
      ensures image == Layout(Rotated(plain, 0), 0, Repeated(0xff, SECTOR), StateSector(version, deviceId, crc),
        StateSector(version, deviceId, crc), configHeader + Repeated(0xff, SECTOR - CONFIG_HEADER_SIZE))
      ensures Removed(image) == Some(plain)
      ensures LayerWritten(image, plain, 4096 * StateSectors(TotalSectors()), version, deviceId, crc, configHeader)
    {
      hide Layout, Rotated, StateSectors, StateCopy, StateSector, Removed, Repeated, LayerWritten;
      image := plain;
      AddDummySector();
      AddStateSectors(version, deviceId, crc);
      AddConfigSector(configHeader);
      ghost var blank := Repeated(0xff, SECTOR - CONFIG_HEADER_SIZE);
      ghost var config := configHeader + blank;
      ghost var state := StateSector(version, deviceId, crc);
      ghost var dummy := Repeated(0xff, SECTOR);
      InitialState(version, deviceId, crc);
      Unmoved(plain, dummy, state, configHeader, blank);
      assert |image| == SECTOR + PlainSectors() * SECTOR + 2 * (StateSectors(TotalSectors()) * SECTOR) + SECTOR;
      RemovalUndoesLayout(plain, PlainSectors(), 0, 0, dummy, state, state, config, StateSectors(TotalSectors()));
      LayerIs(image, plain, state, InitialHeader(version, deviceId), crc, configHeader);
    }

    lemma InitialState(version: nat, deviceId: nat, crc: nat)
      requires Valid() && version < 0x1_0000_0000 && deviceId < 0x1_0000_0000 && crc < 0x1_0000_0000
      ensures StateCopy(StateSector(version, deviceId, crc), StateSectors(TotalSectors()) * SECTOR, 0, 0)
    {
      var state := StateSector(version, deviceId, crc);
      var h := InitialHeader(version, deviceId);
      var blank := Repeated(0xff, (SECTOR - STATE_HEADER_SIZE) + (StateSectors(TotalSectors()) - 1) * SECTOR);
      StateRoundTrip(h, Le32(crc) + blank);
      assert state == BuildState(h) + (Le32(crc) + blank);
      assert Slice(state, 64, 80) == Repeated(0xff, 16);
    }
  }
}
