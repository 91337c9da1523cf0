/** The table of nearby devices for the times that `uptime_ms` gives, which may repeat, and what its
    records mean for any times at all. */
module FoxRecency {
  import opened FoxTable

  // ---- records ----

  /** The sightings of `m` since it last entered the table. */
  function Visit(h: seq<Sighting>, m: Mac): seq<Sighting> {
    if h == [] || m !in Macs(TableOf(h)) then []
    else
      var before := Visit(h[..|h| - 1], m);
      if h[|h| - 1].mac == m then before + [h[|h| - 1]] else before
  }

  lemma {:induction false} VisitMore(h: seq<Sighting>, s: Sighting, m: Mac)
    ensures m in Macs(Sighted(TableOf(h), s)) ==>
      Visit(h + [s], m) == if s.mac == m then Visit(h, m) + [s] else Visit(h, m)
    ensures m !in Macs(Sighted(TableOf(h), s)) ==> Visit(h + [s], m) == []
  {
    hide TableOf, Sighted, Macs;
    TableMore(h, s);
    assert (h + [s])[..|h|] == h;
  }

  lemma {:induction false} NoVisit(h: seq<Sighting>, m: Mac)
    requires m !in Macs(TableOf(h))
    ensures Visit(h, m) == []
  {
  }

  /** Every entry sums up the sightings since its address entered the table. */
  ghost predicate Described(h: seq<Sighting>, t: seq<Device>) {
    forall k :: 0 <= k < |t| ==> Describes(t[k], t[k].mac, Visit(h, t[k].mac))
  }

  lemma {:induction false} SightedDescribed(h: seq<Sighting>, s: Sighting, k: nat)
    requires Described(h, TableOf(h)) && Distinct(TableOf(h)) && k < |Sighted(TableOf(h), s)|
    ensures var d := Sighted(TableOf(h), s)[k]; Describes(d, d.mac, Visit(h + [s], d.mac))
  {
    hide TableOf, Sighted, Macs, Visit, Describes;
    var t, r := TableOf(h), Sighted(TableOf(h), s);
    var i := IndexOf(t, s.mac);
    SightedEntries(t, s, k);
    MacsAt(r, r[k].mac);
    VisitMore(h, s, r[k].mac);
    if r[k].mac == s.mac && i < |t| {
      DescribesMore(t[i], Visit(h, s.mac), s);
    } else if r[k].mac == s.mac && r != t {
      MacsAt(t, s.mac);
      NoVisit(h, s.mac);
      DescribesFresh(s);
      assert [] + [s] == [s];
    }
  }

  /** After every history, whatever the times. */
  lemma {:induction false} TableDescribed(h: seq<Sighting>)
    ensures Described(h, TableOf(h))
    decreases |h|
  {
    hide Macs, Visit, Describes, Sighted;
    if h != [] {
      var p, s := h[..|h| - 1], h[|h| - 1];
      assert h == p + [s];
      TableDescribed(p);
      TableDistinct(p);
      forall k | 0 <= k < |TableOf(h)|
        ensures Describes(TableOf(h)[k], TableOf(h)[k].mac, Visit(h, TableOf(h)[k].mac))
      {
        SightedDescribed(p, s, k);
      }
    }
  }

  /** A visit begins where the address was not in the table, and it was there ever since. */
  lemma {:induction false} VisitIsMaximal(h: seq<Sighting>, m: Mac) returns (start: nat)
    requires m in Macs(TableOf(h))
    ensures start < |h| && m !in Macs(TableOf(h[..start]))
    ensures forall n :: start < n <= |h| ==> m in Macs(TableOf(h[..n]))
    ensures Visit(h, m) == Of(h[start..], m)
    decreases |h|
  {
    hide TableOf, Sighted, Macs, Visit, Of;
    NotEmpty(h, m);
    var n := |h| - 1;
    var p, s := h[..n], h[n];
    assert h == p + [s] && h[..|h|] == h;
    TableMore(p, s);
    VisitMore(p, s, m);
    if m in Macs(TableOf(p)) {
      start := VisitIsMaximal(p, m);
      assert forall k :: start < k < |h| ==> h[..k] == p[..k];
      assert h[..start] == p[..start];
      assert h[start..] == p[start..] + [s];
      OfMore(p[start..], s, m);
    } else {
      start := n;
      NoVisit(p, m);
      OnlyOwnEnters(TableOf(p), s, m);
      OfNothing(m);
      assert h[n..] == [] + [s];
      OfMore([], s, m);
    }
  }

  lemma {:induction false} NotEmpty(h: seq<Sighting>, m: Mac)
    requires m in Macs(TableOf(h))
    ensures h != []
  {
  }

  lemma {:induction false} OfNothing(m: Mac)
    ensures Of([], m) == []
  {
  }

  lemma OnlyOwnEnters(t: seq<Device>, s: Sighting, m: Mac)
    requires |t| <= FOX_NEARBY_MAX && m in Macs(Sighted(t, s)) && m !in Macs(t)
    ensures m == s.mac
  {
    var r := Sighted(t, s);
    MacsAt(r, m);
    var k :| 0 <= k < |r| && r[k].mac == m;
    MacsAt(t, m);
    assert k < |t| && t[k].mac == m ==> m in Macs(t);
  }

  // ---- recency ----

  predicate NonDecreasing(h: seq<Sighting>) {
    forall i, j :: 0 <= i < j < |h| ==> h[i].time <= h[j].time
  }

  function LastTime(h: seq<Sighting>, m: Mac): UInt32
    requires m in Seen(h)
  {
    h[LastAt(h, m)].time
  }

  lemma LastTimeMore(h: seq<Sighting>, s: Sighting, m: Mac)
    requires m in Seen(h + [s])
    ensures m == s.mac ==> LastTime(h + [s], m) == s.time
    ensures m != s.mac ==> m in Seen(h) && LastTime(h + [s], m) == LastTime(h, m)
  {
    SeenMore(h, s);
    assert (h + [s])[..|h|] == h;
  }

  /** Every entry was last seen at the last sighting of its address. */
  ghost predicate UpToDate(h: seq<Sighting>, t: seq<Device>) {
    forall k :: 0 <= k < |t| ==> t[k].mac in Seen(h) && t[k].lastSeen == LastTime(h, t[k].mac)
  }

  /** What is not in the table was not seen later than anything in it. */
  ghost predicate LeavesOlder(h: seq<Sighting>, t: seq<Device>) {
    forall m, k :: m in Seen(h) && m !in Macs(t) && 0 <= k < |t| ==> LastTime(h, m) <= t[k].lastSeen
  }

  lemma SightedUpToDate(h: seq<Sighting>, t: seq<Device>, s: Sighting)
    requires |t| <= FOX_NEARBY_MAX && Distinct(t) && UpToDate(h, t)
    ensures UpToDate(h + [s], Sighted(t, s))
  {
    hide Seen, LastTime;
    SeenMore(h, s);
    var r := Sighted(t, s);
    forall k | 0 <= k < |r|
      ensures r[k].mac in Seen(h + [s]) && r[k].lastSeen == LastTime(h + [s], r[k].mac)
    {
      SightedEntries(t, s, k);
      LastTimeMore(h, s, r[k].mac);
    }
  }

  /** An entry of a known device or one that stays. */
  lemma NotEarlier(h: seq<Sighting>, t: seq<Device>, s: Sighting, k: nat)
    requires |t| <= FOX_NEARBY_MAX && UpToDate(h, t) && NonDecreasing(h + [s]) && k < |t|
    ensures t[k].lastSeen <= s.time
  {
    hide Seen;
    var i := LastAt(h, t[k].mac);
    assert (h + [s])[i] == h[i] && (h + [s])[|h|] == s;
  }

  /** A known address is refreshed. */
  lemma {:induction false} RefreshLeavesOlder(h: seq<Sighting>, t: seq<Device>, s: Sighting, m: Mac, k: nat)
    requires |t| <= FOX_NEARBY_MAX && UpToDate(h, t) && LeavesOlder(h, t) && NonDecreasing(h + [s])
    requires m in Seen(h) && m !in Macs(t) && IndexOf(t, s.mac) < |t| && k < |Sighted(t, s)|
    ensures LastTime(h, m) <= Sighted(t, s)[k].lastSeen
  {
    hide Seen, LastTime, Macs, NonDecreasing, IndexOf, UpToDate;
    NotEarlier(h, t, s, IndexOf(t, s.mac));
    assert LastTime(h, m) <= t[k].lastSeen;
  }

  /** A new address meets a full table. */
  lemma {:induction false} EvictionLeavesOlder(h: seq<Sighting>, t: seq<Device>, s: Sighting, m: Mac, k: nat)
    requires |t| == FOX_NEARBY_MAX && UpToDate(h, t) && LeavesOlder(h, t)
    requires m in Seen(h) && IndexOf(t, s.mac) == |t| && k < |Sighted(t, s)|
    requires m !in Macs(t) || m == t[Stalest(t, |t|)].mac
    ensures t[Stalest(t, |t|)].lastSeen < s.time || m !in Macs(t) ==> LastTime(h, m) <= Sighted(t, s)[k].lastSeen
  {
    hide Seen, LastTime, Macs, IndexOf;
    var v := Stalest(t, |t|);
    assert t[v].lastSeen <= t[k].lastSeen;
    if m !in Macs(t) {
      assert LastTime(h, m) <= t[v].lastSeen && LastTime(h, m) <= t[k].lastSeen;
    }
  }

  /** The address left out was out before, was just evicted, or is the one that found no place. */
  lemma SightedLeavesOlder(h: seq<Sighting>, t: seq<Device>, s: Sighting, m: Mac, k: nat)
    requires |t| <= FOX_NEARBY_MAX && Distinct(t) && UpToDate(h, t) && LeavesOlder(h, t) && NonDecreasing(h + [s])
    requires |t| < FOX_NEARBY_MAX ==> Macs(t) == Seen(h)
    requires m in Seen(h + [s]) && m !in Macs(Sighted(t, s)) && k < |Sighted(t, s)|
    ensures LastTime(h + [s], m) <= Sighted(t, s)[k].lastSeen
  {
    hide Seen, LastTime, Macs, UpToDate, LeavesOlder, NonDecreasing, Distinct, IndexOf;
    SeenMore(h, s);
    SightedMacs(t, s);
    LastTimeMore(h, s, m);
    MacsAt(t, s.mac);
    if IndexOf(t, s.mac) < |t| {
      RefreshLeavesOlder(h, t, s, m, k);
    } else if m != s.mac {
      EvictionLeavesOlder(h, t, s, m, k);
    } else {
      assert t[Stalest(t, |t|)].lastSeen <= t[k].lastSeen;
    }
  }

  /** With times that never decrease the table is, after every history, a choice of the most recently
      seen addresses, every one up to date; FoxTable.TableSize says how many. */
  lemma {:induction false} TableRecent(h: seq<Sighting>)
    ensures UpToDate(h, TableOf(h))
    ensures NonDecreasing(h) ==> LeavesOlder(h, TableOf(h))
    decreases |h|
  {
    if h != [] {
      var p, s := h[..|h| - 1], h[|h| - 1];
      assert h == p + [s];
      TableRecent(p);
      TableDistinct(p);
      TableMore(p, s);
      NothingDropped(p);
      SightedUpToDate(p, TableOf(p), s);
      if NonDecreasing(h) {
        EarlierNonDecreasing(p, s);
        hide Sighted, TableOf, Seen, LastTime, Macs, Distinct, NonDecreasing, UpToDate;
        forall m, k | m in Seen(h) && m !in Macs(TableOf(h)) && 0 <= k < |TableOf(h)|
          ensures LastTime(h, m) <= TableOf(h)[k].lastSeen
        {
          SightedLeavesOlder(p, TableOf(p), s, m, k);
        }
      }
    }
  }

  lemma EarlierNonDecreasing(h: seq<Sighting>, s: Sighting)
    requires NonDecreasing(h + [s])
    ensures NonDecreasing(h)
  {
    assert forall a :: 0 <= a < |h| ==> (h + [s])[a] == h[a];
  }
}
