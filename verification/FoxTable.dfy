/** The table of nearby devices of `main/fox_hunter.c`, and what a history of sightings leaves in it. */
module FoxTable {
  import opened Bytes

  const FOX_NEARBY_MAX := 40
  const DEVICE_NAME_LEN := 32
  const HIT_COUNT_MAX := 65535

  type Int8 = x: int | -128 <= x < 128
  type UInt16 = x: int | 0 <= x < 0x1_0000
  type UInt32 = x: int | 0 <= x < 0x1_0000_0000
  type Mac = m: seq<byte> | |m| == 6 witness [0, 0, 0, 0, 0, 0]

  /** The fields of `ble_device_t` that the fox hunter uses; `name` is the C string without its NUL. */
  datatype Device = Device(mac: Mac, name: seq<byte>, rssi: Int8, rssiBest: Int8,
                           firstSeen: UInt32, lastSeen: UInt32, hitCount: UInt16)

  /** One call of the scan callback that got the lock. */
  datatype Sighting = Sighting(mac: Mac, rssi: Int8, name: seq<byte>, time: UInt32)

  function UpToNul(s: seq<byte>): seq<byte> {
    if s == [] || s[0] == 0 then [] else [s[0]] + UpToNul(s[1..])
  }

  /** The name as `name_str` holds it. */
  function NameStr(name: seq<byte>): seq<byte> {
    UpToNul(if |name| < DEVICE_NAME_LEN - 1 then name else name[..DEVICE_NAME_LEN - 1])
  }

  /** The name up to its first zero byte, cut to 31 bytes, and nothing less. */
  lemma {:induction false} NameStrIs(name: seq<byte>)
    ensures var n := NameStr(name);
      && n <= name && |n| <= 31 && 0 !in n
      && (|n| == 31 || |n| == |name| || name[|n|] == 0)
  {
    UpToNulIs(if |name| < DEVICE_NAME_LEN - 1 then name else name[..DEVICE_NAME_LEN - 1]);
  }

  lemma {:induction false} UpToNulIs(s: seq<byte>)
    ensures var n := UpToNul(s); n <= s && 0 !in n && (|n| < |s| ==> s[|n|] == 0)
  {
    if s != [] && s[0] != 0 {
      UpToNulIs(s[1..]);
      assert s == [s[0]] + s[1..];
    }
  }

  function Fresh(s: Sighting): Device {
    Device(s.mac, NameStr(s.name), s.rssi, s.rssi, s.time, s.time, 1)
  }

  function Refreshed(d: Device, s: Sighting): Device {
    d.(rssi := s.rssi,
       rssiBest := if s.rssi > d.rssiBest then s.rssi else d.rssiBest,
       lastSeen := s.time,
       hitCount := if d.hitCount < HIT_COUNT_MAX then d.hitCount + 1 else d.hitCount,
       name := if NameStr(s.name) != [] && d.name == [] then NameStr(s.name) else d.name)
  }

  /** The first entry with this address, or the length of the table. */
  function IndexOf(t: seq<Device>, mac: Mac): (i: nat)
    ensures i <= |t| && (i < |t| ==> t[i].mac == mac)
    ensures forall k :: 0 <= k < i ==> t[k].mac != mac
  {
    if t == [] || t[0].mac == mac then 0 else 1 + IndexOf(t[1..], mac)
  }

  /** The first entry among the first `n` that was seen least recently. */
  function Stalest(t: seq<Device>, n: nat): (v: nat)
    requires 0 < n <= |t|
    ensures v < n
    ensures forall k :: 0 <= k < n ==> t[v].lastSeen <= t[k].lastSeen
    ensures forall k :: 0 <= k < v ==> t[v].lastSeen < t[k].lastSeen
  {
    if n == 1 then 0
    else
      var v := Stalest(t, n - 1);
      if t[n - 1].lastSeen < t[v].lastSeen then n - 1 else v
  }

  /** The table after one sighting. */
  function Sighted(t: seq<Device>, s: Sighting): (r: seq<Device>)
    requires |t| <= FOX_NEARBY_MAX
    ensures |t| <= |r| <= FOX_NEARBY_MAX
  {
    var i := IndexOf(t, s.mac);
    if i < |t| then t[i := Refreshed(t[i], s)]
    else if |t| < FOX_NEARBY_MAX then t + [Fresh(s)]
    else
      var v := Stalest(t, |t|);
      if t[v].lastSeen < s.time then t[v := Fresh(s)] else t
  }

  /** The table after a history that starts from the empty table. */
  function TableOf(h: seq<Sighting>): (t: seq<Device>)
    ensures |t| <= FOX_NEARBY_MAX
  {
    if h == [] then [] else Sighted(TableOf(h[..|h| - 1]), h[|h| - 1])
  }

  lemma {:induction false} TableMore(h: seq<Sighting>, s: Sighting)
    ensures TableOf(h + [s]) == Sighted(TableOf(h), s)
  {
    assert (h + [s])[..|h|] == h;
  }

  // ---- the most recently seen addresses of a history ----

  predicate Increasing(h: seq<Sighting>) {
    forall i, j :: 0 <= i < j < |h| ==> h[i].time < h[j].time
  }

  function Seen(h: seq<Sighting>): set<Mac> {
    set s | s in h :: s.mac
  }

  /** The addresses seen after the last sighting of `m`. */
  function After(h: seq<Sighting>, m: Mac): set<Mac> {
    if h == [] || h[|h| - 1].mac == m then {} else After(h[..|h| - 1], m) + {h[|h| - 1].mac}
  }

  /** `m` is one of the 40 most recently seen distinct addresses. */
  predicate Held(h: seq<Sighting>, m: Mac) {
    m in Seen(h) && |After(h, m)| < 40
  }

  /** The sightings of `m` since it was last not among the most recent ones. */
  function Stay(h: seq<Sighting>, m: Mac): seq<Sighting> {
    if h == [] || !Held(h, m) then []
    else
      var before := Stay(h[..|h| - 1], m);
      if h[|h| - 1].mac == m then before + [h[|h| - 1]] else before
  }

  /** The first name that is not empty. */
  function FirstName(stay: seq<Sighting>): seq<byte> {
    if stay == [] then []
    else
      var name := FirstName(stay[..|stay| - 1]);
      if name == [] then NameStr(stay[|stay| - 1].name) else name
  }

  /** The entry sums up the sightings: last time and strength, best strength, saturating count. */
  predicate Describes(d: Device, m: Mac, stay: seq<Sighting>) {
    && stay != [] && d.mac == m
    && d.firstSeen == stay[0].time && d.lastSeen == stay[|stay| - 1].time && d.rssi == stay[|stay| - 1].rssi
    && (forall i :: 0 <= i < |stay| ==> stay[i].rssi <= d.rssiBest)
    && (exists i :: 0 <= i < |stay| && stay[i].rssi == d.rssiBest)
    && d.hitCount == (if |stay| < 65535 then |stay| else 65535)
    && d.name == FirstName(stay)
  }

  function Macs(t: seq<Device>): set<Mac> {
    set d | d in t :: d.mac
  }

  predicate Distinct(t: seq<Device>) {
    forall i, j :: 0 <= i < j < |t| ==> t[i].mac != t[j].mac
  }

  /** The table holds exactly the most recently seen addresses, each once, each with its record. */
  ghost predicate Tracks(h: seq<Sighting>, t: seq<Device>) {
    && |t| <= FOX_NEARBY_MAX && Distinct(t)
    && (forall m: Mac :: m in Macs(t) <==> Held(h, m))
    && forall i :: 0 <= i < |t| ==> Describes(t[i], t[i].mac, Stay(h, t[i].mac))
  }

  // ---- sets ----

  lemma {:induction false} SubsetSize<T>(a: set<T>, b: set<T>)
    requires a <= b
    ensures |a| <= |b|
    decreases |a|
  {
    if a != {} {
      var x :| x in a;
      SubsetSize(a - {x}, b - {x});
    }
  }

  lemma {:induction false} DistinctSize(t: seq<Device>)
    requires Distinct(t)
    ensures |Macs(t)| == |t|
    decreases |t|
  {
    if t == [] {
      assert Macs(t) == {};
    } else {
      var n := |t| - 1;
      var p, d := t[..n], t[n];
      assert t == p + [d];
      DistinctSize(p);
      LastIsNew(t);
      MacsAdd(p, d);
    }
  }

  lemma LastIsNew(t: seq<Device>)
    requires Distinct(t) && t != []
    ensures t[|t| - 1].mac !in Macs(t[..|t| - 1])
  {
    forall d | d in t[..|t| - 1]
      ensures d.mac != t[|t| - 1].mac
    {
      var i :| 0 <= i < |t| - 1 && t[..|t| - 1][i] == d;
    }
  }

  lemma MacsAdd(t: seq<Device>, d: Device)
    ensures Macs(t + [d]) == Macs(t) + {d.mac}
  {
    assert forall x :: x in t + [d] <==> x in t || x == d;
  }

  // ---- recency ----

  /** The position of the last sighting of `m`. */
  function LastAt(h: seq<Sighting>, m: Mac): (i: nat)
    requires m in Seen(h)
    ensures i < |h| && h[i].mac == m
    ensures forall k :: i < k < |h| ==> h[k].mac != m
  {
    var n := |h| - 1;
    assert h == h[..n] + [h[n]];
    if h[n].mac == m then n else LastAt(h[..n], m)
  }

  lemma SeenMore(h: seq<Sighting>, s: Sighting)
    ensures Seen(h + [s]) == Seen(h) + {s.mac}
  {
    assert forall x :: x in h + [s] <==> x in h || x == s;
  }

  lemma {:induction false} AfterMore(h: seq<Sighting>, s: Sighting, m: Mac)
    ensures After(h + [s], m) == if s.mac == m then {} else After(h, m) + {s.mac}
  {
    assert (h + [s])[..|h|] == h;
  }

  lemma {:induction false} AfterMeans(h: seq<Sighting>, m: Mac, z: Mac)
    requires m in Seen(h)
    ensures z in After(h, m) <==> z in Seen(h) && LastAt(h, z) > LastAt(h, m)
    decreases |h|
  {
    var n := |h| - 1;
    assert h == h[..n] + [h[n]];
    SeenMore(h[..n], h[n]);
    AfterMore(h[..n], h[n], m);
    if h[n].mac != m {
      AfterMeans(h[..n], m, z);
    }
  }

  /** Whatever was seen after a held address is held. */
  lemma {:induction false} HeldAfter(h: seq<Sighting>, m: Mac)
    requires Held(h, m)
    ensures m !in After(h, m)
    ensures forall z :: z in After(h, m) ==> Held(h, z)
  {
    AfterMeans(h, m, m);
    forall z | z in After(h, m)
      ensures Held(h, z)
    {
      AfterMeans(h, m, z);
      forall y | y in After(h, z)
        ensures y in After(h, m)
      {
        AfterMeans(h, z, y);
        AfterMeans(h, m, y);
      }
      SubsetSize(After(h, z), After(h, m));
    }
  }

  lemma {:induction false} HeldMore(h: seq<Sighting>, s: Sighting, m: Mac)
    ensures m == s.mac ==> Held(h + [s], m)
    ensures m != s.mac ==> (Held(h + [s], m) <==> m in Seen(h) && |After(h, m) + {s.mac}| < FOX_NEARBY_MAX)
    ensures m != s.mac && Held(h + [s], m) ==> Held(h, m)
  {
    SeenMore(h, s);
    AfterMore(h, s, m);
    SubsetSize(After(h, m), After(h, m) + {s.mac});
  }

  lemma {:induction false} StayMore(h: seq<Sighting>, s: Sighting, m: Mac)
    requires Held(h + [s], m)
    ensures Stay(h + [s], m) == if s.mac == m then Stay(h, m) + [s] else Stay(h, m)
  {
    assert (h + [s])[..|h|] == h;
  }

  // ---- the record of a stay ----

  /** A stay ends with the last sighting. */
  lemma {:induction false} StayEnds(h: seq<Sighting>, m: Mac)
    requires Held(h, m)
    ensures Stay(h, m) != [] && Stay(h, m)[|Stay(h, m)| - 1] == h[LastAt(h, m)]
    decreases |h|
  {
    var n := |h| - 1;
    assert h == h[..n] + [h[n]];
    HeldMore(h[..n], h[n], m);
    if h[n].mac != m {
      StayEnds(h[..n], m);
    }
  }

  lemma {:induction false} OfMore(h: seq<Sighting>, s: Sighting, m: Mac)
    ensures Of(h + [s], m) == if s.mac == m then Of(h, m) + [s] else Of(h, m)
  {
    assert (h + [s])[..|h|] == h;
  }

  lemma HeldNotEmpty(h: seq<Sighting>, m: Mac)
    requires Held(h, m)
    ensures h != []
  {
  }

  lemma {:induction false} NotHeldNoStay(h: seq<Sighting>, m: Mac)
    requires !Held(h, m)
    ensures Stay(h, m) == [] && Of([], m) == []
  {
  }

  /** A stay begins where the address was not held before, and it was held ever since. */
  lemma {:induction false} StayIsMaximal(h: seq<Sighting>, m: Mac) returns (start: nat)
    requires Held(h, m)
    ensures start < |h| && !Held(h[..start], m)
    ensures forall n :: start < n <= |h| ==> Held(h[..n], m)
    ensures Stay(h, m) == Of(h[start..], m)
    decreases |h|
  {
    hide After, Seen, Stay, Of, Held;
    HeldNotEmpty(h, m);
    var n := |h| - 1;
    var p, s := h[..n], h[n];
    assert h == p + [s] && h[..|h|] == h;
    StayMore(p, s, m);
    if Held(p, m) {
      start := StayIsMaximal(p, m);
      assert forall k :: start < k < |h| ==> h[..k] == p[..k];
      assert h[..start] == p[..start];
      assert h[start..] == p[start..] + [s];
      OfMore(p[start..], s, m);
    } else {
      HeldMore(p, s, m);
      start := n;
      NotHeldNoStay(p, m);
      assert h[n..] == [] + [s];
      OfMore([], s, m);
    }
  }

  /** The sightings of `m`. */
  function Of(h: seq<Sighting>, m: Mac): seq<Sighting> {
    if h == [] then []
    else
      var before := Of(h[..|h| - 1], m);
      if h[|h| - 1].mac == m then before + [h[|h| - 1]] else before
  }

  lemma DescribesFresh(s: Sighting)
    ensures Describes(Fresh(s), s.mac, [s])
  {
    assert [s][..0] == [];
    assert FirstName([s]) == NameStr(s.name);
    assert [s][0].rssi == Fresh(s).rssiBest;
  }

  lemma DescribesMore(d: Device, stay: seq<Sighting>, s: Sighting)
    requires Describes(d, s.mac, stay)
    ensures Describes(Refreshed(d, s), s.mac, stay + [s])
  {
    var more := stay + [s];
    assert more[..|stay|] == stay;
    var i :| 0 <= i < |stay| && stay[i].rssi == d.rssiBest;
    assert more[i].rssi == d.rssiBest && more[|stay|] == s;
  }

  // ---- one sighting ----

  lemma MacsAt(t: seq<Device>, m: Mac)
    ensures m in Macs(t) <==> exists i :: 0 <= i < |t| && t[i].mac == m
  {
    if m in Macs(t) {
      var d :| d in t && d.mac == m;
      var i :| 0 <= i < |t| && t[i] == d;
      assert t[i].mac == m;
    }
  }

  /** Every other entry of the table was seen after the stalest one. */
  lemma {:induction false} AfterStalest(h: seq<Sighting>, t: seq<Device>, v: nat, z: Mac)
    requires Tracks(h, t) && Increasing(h) && v < |t| && v == Stalest(t, |t|) && z in Macs(t) && z != t[v].mac
    ensures z in Seen(h) && t[v].mac in Seen(h) && LastAt(h, z) > LastAt(h, t[v].mac)
  {
    hide Tracks, Stay, Macs, After, Held, Seen;
    var stale := t[v].mac;
    EntryHeld(h, t, v);
    var k := Place(h, t, z);
    EntryHeld(h, t, k);
    assert t[v].lastSeen <= t[k].lastSeen;
  }

  /** An entry was last seen at the last sighting of its address. */
  lemma {:induction false} EntryHeld(h: seq<Sighting>, t: seq<Device>, v: nat)
    requires Tracks(h, t) && v < |t|
    ensures t[v].mac in Macs(t) && t[v].mac in Seen(h) && Held(h, t[v].mac)
    ensures t[v].lastSeen == h[LastAt(h, t[v].mac)].time
  {
    assert t[v] in t && t[v].mac in Macs(t);
    StayEnds(h, t[v].mac);
    hide Stay, After, LastAt;
  }

  lemma TwoFewer<T>(a: set<T>, b: set<T>, x: T, y: T, z: T)
    requires a <= b && x in b && y in b && x != y && x !in a && y !in a
    ensures |a + {z}| < |b|
  {
    SubsetSize(a, b - {x} - {y});
  }

  /** A new address in a full table drops the stalest entry ... */
  lemma {:induction false} StalestDropped(h: seq<Sighting>, t: seq<Device>, s: Sighting, v: nat)
    requires Tracks(h, t) && Increasing(h) && |t| == FOX_NEARBY_MAX && v == Stalest(t, |t|) && s.mac !in Macs(t)
    ensures !Held(h + [s], t[v].mac)
  {
    hide After, Stay, Held, Seen, Macs, Describes, LastAt;
    var stale := t[v].mac;
    EntryHeld(h, t, v);
    DistinctSize(t);
    HeldMore(h, s, stale);
    var macs := Macs(t);
    forall z | z in macs - {stale}
      ensures z in After(h, stale)
    {
      AfterStalest(h, t, v, z);
      AfterMeans(h, stale, z);
    }
    hide Tracks;
    SubsetSize(macs - {stale} + {s.mac}, After(h, stale) + {s.mac});
  }

  /** ... and no other. */
  lemma {:induction false} OthersKept(h: seq<Sighting>, t: seq<Device>, s: Sighting, v: nat, m: Mac)
    requires Tracks(h, t) && Increasing(h) && |t| == FOX_NEARBY_MAX && v == Stalest(t, |t|) && s.mac !in Macs(t)
    requires m != s.mac && m in Macs(t) && m != t[v].mac
    ensures Held(h + [s], m)
  {
    hide After, Stay, Held, Seen, Macs, Describes, LastAt, Distinct, Increasing;
    var stale := t[v].mac;
    EntryHeld(h, t, v);
    DistinctSize(t);
    HeldMore(h, s, m);
    HeldAfter(h, m);
    AfterStalest(h, t, v, m);
    AfterMeans(h, m, stale);
    var macs, after := Macs(t), After(h, m);
    assert forall z :: z in after ==> z in macs;
    hide Tracks;
    TwoFewer(after, macs, stale, m, s.mac);
  }

  lemma {:induction false} HeldAfterEviction(h: seq<Sighting>, t: seq<Device>, s: Sighting, v: nat, m: Mac)
    requires Tracks(h, t) && Increasing(h) && |t| == FOX_NEARBY_MAX && v == Stalest(t, |t|) && s.mac !in Macs(t)
    requires m != s.mac
    ensures Held(h + [s], m) <==> m in Macs(t) && m != t[v].mac
  {
    HeldMore(h, s, m);
    if m == t[v].mac {
      StalestDropped(h, t, s, v);
    } else if m in Macs(t) {
      OthersKept(h, t, s, v, m);
    }
  }

  lemma Place(h: seq<Sighting>, t: seq<Device>, m: Mac) returns (i: nat)
    requires Tracks(h, t) && m in Macs(t)
    ensures i < |t| && t[i].mac == m && Held(h, m) && Describes(t[i], m, Stay(h, m))
  {
    MacsAt(t, m);
    i :| 0 <= i < |t| && t[i].mac == m;
  }

  lemma HeldSeen(h: seq<Sighting>, m: Mac)
    ensures Held(h, m) ==> m in Seen(h)
  {
  }

  lemma OneFewer<T>(a: set<T>, b: set<T>, x: T, z: T)
    requires a <= b && x in b && x !in a && x != z
    ensures z in b ==> |a + {z}| < |b|
    ensures |a + {z}| <= |b|
  {
    SubsetSize(a, b - {x});
    if z in b {
      SubsetSize(a + {z}, b - {x});
    }
  }

  /** While there is room, nothing is dropped. */
  lemma HeldWithRoom(h: seq<Sighting>, t: seq<Device>, s: Sighting, m: Mac)
    requires Tracks(h, t) && m != s.mac && (|t| < FOX_NEARBY_MAX || s.mac in Macs(t))
    ensures Held(h + [s], m) <==> m in Macs(t)
  {
    hide After, Stay, Held, Seen, Macs, Describes, Distinct;
    DistinctSize(t);
    HeldMore(h, s, m);
    HeldSeen(h, m);
    if m in Macs(t) {
      HeldAfter(h, m);
      var macs, after := Macs(t), After(h, m);
      assert forall z :: z in after ==> z in macs;
      hide Tracks;
      OneFewer(after, macs, m, s.mac);
    }
  }

  lemma MacsUpdate(t: seq<Device>, i: nat, d: Device)
    requires Distinct(t) && i < |t| && (d.mac == t[i].mac || d.mac !in Macs(t))
    ensures Macs(t[i := d]) == Macs(t) - {t[i].mac} + {d.mac}
    ensures Distinct(t[i := d])
  {
    var u := t[i := d];
    forall m: Mac
      ensures m in Macs(u) <==> m in Macs(t) - {t[i].mac} + {d.mac}
    {
      MacsAt(t, m);
      MacsAt(u, m);
      if m in Macs(u) {
        var k :| 0 <= k < |u| && u[k].mac == m;
        assert k != i ==> t[k].mac == m;
      }
      if m in Macs(t) && m != t[i].mac {
        var k :| 0 <= k < |t| && t[k].mac == m;
        assert u[k].mac == m;
      }
      assert u[i].mac == d.mac;
    }
    forall j, k | 0 <= j < k < |u|
      ensures u[j].mac != u[k].mac
    {
      MacsAt(t, d.mac);
    }
  }

  lemma MacsAppend(t: seq<Device>, d: Device)
    requires Distinct(t) && d.mac !in Macs(t)
    ensures Macs(t + [d]) == Macs(t) + {d.mac} && Distinct(t + [d])
  {
    MacsAdd(t, d);
    MacsAt(t, d.mac);
  }

  /** The record that the sighting leaves for its own address. */
  lemma {:induction false} RecordOfSighted(h: seq<Sighting>, t: seq<Device>, s: Sighting)
    requires Tracks(h, t)
    ensures var i := IndexOf(t, s.mac);
      Describes(if i < |t| then Refreshed(t[i], s) else Fresh(s), s.mac, Stay(h + [s], s.mac))
  {
    var i := IndexOf(t, s.mac);
    HeldMore(h, s, s.mac);
    StayMore(h, s, s.mac);
    MacsAt(t, s.mac);
    if i < |t| {
      DescribesMore(t[i], Stay(h, s.mac), s);
    } else {
      assert Stay(h, s.mac) == [];
      DescribesFresh(s);
    }
  }

  lemma {:induction false} RecordOfOther(h: seq<Sighting>, t: seq<Device>, s: Sighting, i: nat)
    requires Tracks(h, t) && i < |t| && t[i].mac != s.mac && Held(h + [s], t[i].mac)
    ensures Describes(t[i], t[i].mac, Stay(h + [s], t[i].mac))
  {
    StayMore(h, s, t[i].mac);
  }

  lemma EarlierIncreasing(h: seq<Sighting>, s: Sighting)
    requires Increasing(h + [s])
    ensures Increasing(h)
  {
    assert forall a :: 0 <= a < |h| ==> (h + [s])[a] == h[a];
  }

  /** The addresses after one sighting, and that each of them occurs once. */
  lemma {:induction false} SightedMacs(t: seq<Device>, s: Sighting)
    requires Distinct(t) && |t| <= FOX_NEARBY_MAX
    ensures var r := Sighted(t, s);
      && Distinct(r)
      && Macs(r) == if s.mac in Macs(t) || |t| < FOX_NEARBY_MAX then Macs(t) + {s.mac}
                    else if t[Stalest(t, |t|)].lastSeen < s.time then Macs(t) - {t[Stalest(t, |t|)].mac} + {s.mac}
                    else Macs(t)
  {
    var i := IndexOf(t, s.mac);
    MacsAt(t, s.mac);
    hide Macs;
    if i < |t| {
      MacsUpdate(t, i, Refreshed(t[i], s));
    } else if |t| < FOX_NEARBY_MAX {
      MacsAppend(t, Fresh(s));
    } else {
      MacsUpdate(t, Stalest(t, |t|), Fresh(s));
    }
  }

  lemma SightedHolds(h: seq<Sighting>, t: seq<Device>, s: Sighting, m: Mac)
    requires Tracks(h, t) && Increasing(h + [s])
    ensures m in Macs(Sighted(t, s)) <==> Held(h + [s], m)
  {
    var r := Sighted(t, s);
    SightedMacs(t, s);
    EarlierIncreasing(h, s);
    hide Sighted, Macs, Held, After, Stay;
    HeldMore(h, s, m);
    if |t| < FOX_NEARBY_MAX || s.mac in Macs(t) {
      if m != s.mac {
        HeldWithRoom(h, t, s, m);
      }
    } else {
      var v := Stalest(t, |t|);
      StalestIsPast(h, t, s, v);
      if m != s.mac {
        HeldAfterEviction(h, t, s, v, m);
      }
    }
  }

  /** The entries after one sighting: its own, and old ones. */
  lemma {:induction false} SightedEntries(t: seq<Device>, s: Sighting, k: nat)
    requires |t| <= FOX_NEARBY_MAX && Distinct(t) && k < |Sighted(t, s)|
    ensures var r, i := Sighted(t, s), IndexOf(t, s.mac);
      || (r[k].mac == s.mac && r[k] == if i < |t| then Refreshed(t[i], s) else Fresh(s))
      || (k < |t| && r[k] == t[k] && t[k].mac != s.mac)
      || (r == t && i == |t|)
  {
    var i := IndexOf(t, s.mac);
  }

  lemma {:induction false} SightedRecords(h: seq<Sighting>, t: seq<Device>, s: Sighting, k: nat)
    requires Tracks(h, t) && Increasing(h + [s]) && k < |Sighted(t, s)|
    requires Distinct(Sighted(t, s)) && Held(h + [s], Sighted(t, s)[k].mac)
    ensures var r := Sighted(t, s); Describes(r[k], r[k].mac, Stay(h + [s], r[k].mac))
  {
    var r := Sighted(t, s);
    SightedEntries(t, s, k);
    hide Sighted, Macs, Held, After, Stay, Describes;
    RecordOfSighted(h, t, s);
    if r[k].mac != s.mac {
      RecordOfOther(h, t, s, k);
    }
  }

  /** One sighting later the table holds the most recent addresses again. */
  lemma SightedTracks(h: seq<Sighting>, t: seq<Device>, s: Sighting)
    requires Tracks(h, t) && Increasing(h + [s])
    ensures Tracks(h + [s], Sighted(t, s))
  {
    var r := Sighted(t, s);
    SightedMacs(t, s);
    hide Sighted, Held, After, Stay, Describes;
    forall m: Mac
      ensures m in Macs(r) <==> Held(h + [s], m)
    {
      SightedHolds(h, t, s, m);
    }
    forall k | 0 <= k < |r|
      ensures Describes(r[k], r[k].mac, Stay(h + [s], r[k].mac))
    {
      assert r[k] in r && r[k].mac in Macs(r);
      SightedRecords(h, t, s, k);
    }
  }

  /** Every entry was last seen before a later sighting. */
  lemma StalestIsPast(h: seq<Sighting>, t: seq<Device>, s: Sighting, v: nat)
    requires Tracks(h, t) && Increasing(h + [s]) && v < |t|
    ensures t[v].lastSeen < s.time
  {
    assert t[v] in t && t[v].mac in Macs(t);
    StayEnds(h, t[v].mac);
    var k := LastAt(h, t[v].mac);
    assert (h + [s])[k] == h[k] && (h + [s])[|h|] == s;
  }

  // ---- every history ----

  /** With strictly increasing times the table is, after every history, the most recently seen
      addresses with their records. */
  lemma {:induction false} TableTracks(h: seq<Sighting>)
    requires Increasing(h)
    ensures Tracks(h, TableOf(h))
    decreases |h|
  {
    if h == [] {
      assert forall m: Mac :: !Held(h, m);
    } else {
      var p := h[..|h| - 1];
      assert h == p + [h[|h| - 1]];
      TableTracks(p);
      SightedTracks(p, TableOf(p), h[|h| - 1]);
    }
  }

  /** No address occurs twice, whatever the times. */
  lemma {:induction false} TableDistinct(h: seq<Sighting>)
    ensures Distinct(TableOf(h))
    decreases |h|
  {
    if h != [] {
      TableDistinct(h[..|h| - 1]);
      SightedMacs(TableOf(h[..|h| - 1]), h[|h| - 1]);
    }
  }

  /** The table holds only addresses that were seen, and all of them as long as it is not full. */
  lemma {:induction false} NothingDropped(h: seq<Sighting>)
    ensures Macs(TableOf(h)) <= Seen(h)
    ensures |TableOf(h)| < 40 ==> Macs(TableOf(h)) == Seen(h)
    decreases |h|
  {
    if h == [] {
    } else {
      var p, s := h[..|h| - 1], h[|h| - 1];
      assert h == p + [s];
      hide Sighted, Macs;
      NothingDropped(p);
      SeenMore(p, s);
      TableDistinct(p);
      SightedMacs(TableOf(p), s);
    }
  }

  /** It is full as soon as there were enough addresses. */
  lemma {:induction false} TableSize(h: seq<Sighting>)
    ensures |TableOf(h)| == if |Seen(h)| < 40 then |Seen(h)| else 40
  {
    hide Seen, Macs;
    TableDistinct(h);
    DistinctSize(TableOf(h));
    NothingDropped(h);
    SubsetSize(Macs(TableOf(h)), Seen(h));
  }
}
