/** The mutable state of `main/fox_hunter.c` and its in-place loops, proved against the table and
    the selections. */
module FoxHunter {
  import opened Bytes
  import opened FoxTable
  import opened FoxRecency
  import opened FoxSelection

  class Hunter {
    const nearby: array<Device>
    var nearbyCount: nat
    var registry: seq<Mac>
    var target: Option<Mac>
    var targetFound: bool
    var rssi: int
    var rssiBest: int
    var registryOpen: bool
    ghost var history: seq<Sighting>   // the sightings since the mode was started

    ghost predicate Valid()
      reads this, nearby
    {
      nearby.Length == FOX_NEARBY_MAX && nearbyCount <= FOX_NEARBY_MAX && Table() == TableOf(history)
    }

    function Table(): (t: seq<Device>)
      requires nearbyCount <= nearby.Length
      reads this`nearbyCount, nearby
      ensures |t| == nearbyCount
    {
      nearby[..nearbyCount]
    }

    constructor ()
      ensures Valid() && history == [] && registry == [] && target == None && fresh(nearby)
    {
      var d := Device([0, 0, 0, 0, 0, 0], [], 0, 0, 0, 0, 0);
      nearby := new Device[FOX_NEARBY_MAX](_ => d);
      nearbyCount := 0;
      registry := [];
      target := None;
      targetFound := false;
      rssi := -100;
      rssiBest := -100;
      registryOpen := false;
      history := [];
    }

    /** Entering the mode empties the table. */
    method Start()
      requires Valid()
      modifies this`nearbyCount, this`history
      ensures Valid() && history == [] && Table() == []
    {
      nearbyCount := 0;
      history := [];
    }

    /** The search for the address. */
    method FindNearby(addr: Mac) returns (idx: nat)
      requires Valid()
      ensures idx == IndexOf(Table(), addr)
    {
      hide TableOf;
      idx := 0;
      while idx < nearbyCount && nearby[idx].mac != addr
        invariant idx <= nearbyCount
        invariant forall k :: 0 <= k < idx ==> Table()[k].mac != addr
      {
        idx := idx + 1;
      }
    }

    /** The search for the entry to evict. */
    method FindVictim() returns (victim: nat)
      requires Valid() && nearbyCount > 0
      ensures victim == Stalest(Table(), nearbyCount)
    {
      hide TableOf;
      victim := 0;
      var oldest := nearby[0].lastSeen;
      var i := 1;
      while i < nearbyCount
        invariant 1 <= i <= nearbyCount && victim == Stalest(Table(), i) && oldest == Table()[victim].lastSeen
      {
        if nearby[i].lastSeen < oldest {
          oldest := nearby[i].lastSeen;
          victim := i;
        }
        i := i + 1;
      }
    }

    /** `fox_scan_cb` from the lock on. */
    method ScanCb(addr: Mac, strength: Int8, name: seq<byte>, now: UInt32)
      requires Valid()
      modifies this`nearbyCount, this`history, nearby
      ensures Valid() && history == old(history) + [Sighting(addr, strength, name, now)]
      ensures Described(history, Table()) && UpToDate(history, Table())
      ensures NonDecreasing(history) ==> LeavesOlder(history, Table())
      ensures Increasing(history) ==> Tracks(history, Table())
    {
      hide TableOf, Tracks, Increasing, NameStr, IndexOf, Stalest, Described, UpToDate, LeavesOlder, NonDecreasing;
      ghost var s := Sighting(addr, strength, name, now);
      ghost var t := Table();
      var nameStr := NameStr(name);
      var idx := FindNearby(addr);
      if idx < nearbyCount {
        var d := nearby[idx];
        d := d.(rssi := strength);
        if strength > d.rssiBest { d := d.(rssiBest := strength); }
        d := d.(lastSeen := now);
        if d.hitCount < HIT_COUNT_MAX { d := d.(hitCount := d.hitCount + 1); }
        if nameStr != [] && d.name == [] { d := d.(name := nameStr); }
        nearby[idx] := d;
        assert Table() == t[idx := Refreshed(t[idx], s)];
      } else if nearbyCount < FOX_NEARBY_MAX {
        nearby[nearbyCount] := Device(addr, nameStr, strength, strength, now, now, 1);
        nearbyCount := nearbyCount + 1;
        assert Table() == t + [Fresh(s)];
      } else {
        var victim := FindVictim();
        if nearby[victim].lastSeen < now {
          nearby[victim] := Device(addr, nameStr, strength, strength, now, now, 1);
          assert Table() == t[victim := Fresh(s)];
        }
      }
      TableMore(history, s);
      history := history + [s];
      TableDescribed(history);
      TableRecent(history);
      if Increasing(history) {
        TableTracks(history);
      }
    }

    /** The inner loop that looks for the weakest device chosen so far. */
    method FindWeakest(outIdx: array<nat>, count: nat) returns (weakest: nat)
      requires Valid() && 0 < count <= outIdx.Length && Indices(NearbyKeys(Table()), outIdx[..count])
      ensures weakest == Weakest(NearbyKeys(Table()), outIdx[..count], count)
    {
      hide TableOf;
      weakest := 0;
      var j := 1;
      while j < count
        invariant 1 <= j <= count && weakest == Weakest(NearbyKeys(Table()), outIdx[..count], j)
      {
        var a, b := nearby[outIdx[j]], nearby[outIdx[weakest]];
        if a.rssi < b.rssi || (a.rssi == b.rssi && a.rssiBest < b.rssiBest) {
          weakest := j;
        }
        j := j + 1;
      }
    }

    /** `fox_build_likely_nearby_locked` */
    method BuildLikelyNearby(outIdx: array<nat>, outMax: nat, now: UInt32) returns (count: nat)
      requires Valid() && 0 < outMax <= outIdx.Length
      modifies outIdx
      ensures count <= outMax && outIdx[..count] == NearbyIdx(Table(), now, outMax)
    {
      hide TableOf, Weakest, Exchange;
      ghost var keys := NearbyKeys(Table());
      count := 0;
      for i := 0 to nearbyCount
        invariant count <= outMax
        invariant outIdx[..count] == Gather(Table(), now, outMax, i)
      {
        ghost var chosen := outIdx[..count];
        var d := nearby[i];
        if Age(d, now) > FOX_NEARBY_RECENT_MS { continue; }
        if d.rssi < -95 { continue; }
        if count < outMax {
          outIdx[count] := i;
          count := count + 1;
          assert outIdx[..count] == chosen + [i];
          continue;
        }
        var weakest := FindWeakest(outIdx, count);
        var w := nearby[outIdx[weakest]];
        if d.rssi > w.rssi || (d.rssi == w.rssi && d.rssiBest > w.rssiBest) {
          outIdx[weakest] := i;
          assert outIdx[..count] == chosen[weakest := i];
        }
      }
      ExchangeSort(outIdx, count);
    }

    /** The two loops that sort the nearby section. */
    method ExchangeSort(outIdx: array<nat>, count: nat)
      requires Valid() && count <= outIdx.Length && Indices(NearbyOrder(Table()), outIdx[..count])
      modifies outIdx
      ensures outIdx[..count] == Exchange(NearbyOrder(Table()), old(outIdx[..count]), 0)
    {
      hide TableOf, Settle;
      ghost var keys := NearbyOrder(Table());
      ghost var goal := Exchange(keys, outIdx[..count], 0);
      var i := 0;
      while i + 1 < count
        invariant i <= count && Indices(keys, outIdx[..count]) && Exchange(keys, outIdx[..count], i) == goal
      {
        SettleRound(outIdx, count, i);
        i := i + 1;
      }
    }

    /** One round of it: position `i` against every later one. */
    method SettleRound(outIdx: array<nat>, count: nat, i: nat)
      requires Valid() && i < count <= outIdx.Length && Indices(NearbyOrder(Table()), outIdx[..count])
      modifies outIdx
      ensures Indices(NearbyOrder(Table()), outIdx[..count])
      ensures outIdx[..count] == Settle(NearbyOrder(Table()), old(outIdx[..count]), i, i + 1)
    {
      hide TableOf, NearbyOrder, Less, Settle;
      ghost var keys := NearbyOrder(Table());
      ghost var settled := Settle(keys, outIdx[..count], i, i + 1);
      var j := i + 1;
      while j < count
        invariant i < j <= count && Indices(keys, outIdx[..count])
        invariant Settle(keys, outIdx[..count], i, j) == settled
      {
        ghost var s := outIdx[..count];
        NearbyCompare(Table(), s[i], s[j]);
        SettleNext(keys, s, i, j);
        var a, b := nearby[outIdx[i]], nearby[outIdx[j]];
        var swap := false;
        if b.rssi > a.rssi { swap := true; }
        else if b.rssi == a.rssi && b.rssiBest > a.rssiBest { swap := true; }
        else if b.rssi == a.rssi && b.rssiBest == a.rssiBest && b.hitCount > a.hitCount { swap := true; }
        assert swap <==> Less(keys[s[i]], keys[s[j]]);
        if swap {
          outIdx[i], outIdx[j] := outIdx[j], outIdx[i];
          assert outIdx[..count] == Swap(s, i, j);
        }
        j := j + 1;
      }
      SettleEnd(keys, outIdx[..count], i);
    }

    /** `fox_idx_in_list` */
    method InList(list: array<nat>, listCount: nat, value: nat) returns (found: bool)
      requires listCount <= list.Length
      ensures found <==> value in list[..listCount]
    {
      for i := 0 to listCount
        invariant value !in list[..i]
      {
        if list[i] == value { return true; }
      }
      return false;
    }

    /** `fox_build_likely_following_locked`: the candidates ... */
    method CollectFollowing(candIdx: array<nat>, candScore: array<int>, exclude: array<nat>, excludeCount: nat,
                            now: UInt32)
      returns (candCount: nat)
      requires Valid() && excludeCount <= exclude.Length && candIdx != exclude
      requires candIdx.Length == candScore.Length == FOX_NEARBY_MAX
      modifies candIdx, candScore
      ensures Ranked(FollowKeys(Table(), now), candIdx, candScore, candCount)
      ensures candIdx[..candCount] == Candidates(FollowKeys(Table(), now), Items(exclude[..excludeCount]), nearbyCount)
    {
      hide TableOf, FollowScore, FollowKeys, Candidates, Less, Eligible, Items, NoRepeat;
      NoCandidates(FollowKeys(Table(), now), Items(exclude[..excludeCount]));
      ghost var keys, excluded := FollowKeys(Table(), now), Items(exclude[..excludeCount]);
      candCount := 0;
      for i := 0 to nearbyCount
        invariant candCount <= i && candIdx[..candCount] == Candidates(keys, excluded, i)
        invariant forall k :: 0 <= k < candCount ==> candIdx[k] < i && candScore[k] == keys[candIdx[k]].first
      {
        ghost var s := candIdx[..candCount];
        CandidatesNext(keys, excluded, i);
        FollowCompare(Table(), now, i, i);
        InItems(exclude[..excludeCount], i);
        var skip := InList(exclude, excludeCount, i);
        if skip { continue; }
        var score := FollowScore(nearby[i], now);
        if score == INT32_MIN { continue; }
        candIdx[candCount] := i;
        candScore[candCount] := score;
        candCount := candCount + 1;
        assert candIdx[..candCount] == s + [i];
      }
    }

    /** ... the best of the rest ... */
    method BestFollowing(candIdx: array<nat>, candScore: array<int>, candCount: nat, i: nat, now: UInt32)
      returns (best: nat)
      requires Valid() && i < candCount && Ranked(FollowKeys(Table(), now), candIdx, candScore, candCount)
      ensures best == Best(FollowKeys(Table(), now), candIdx[..candCount], i, candCount)
    {
      hide TableOf, FollowScore, FollowKeys, Less, Best;
      best := i;
      BestFirst(FollowKeys(Table(), now), candIdx[..candCount], i);
      for j := i + 1 to candCount
        invariant i <= best < candCount && best == Best(FollowKeys(Table(), now), candIdx[..candCount], i, j)
      {
        FollowCompare(Table(), now, candIdx[best], candIdx[j]);
        FollowCompare(Table(), now, candIdx[j], candIdx[best]);
        BestNext(FollowKeys(Table(), now), candIdx[..candCount], i, j);
        if candScore[j] > candScore[best] {
          best := j;
        } else if candScore[j] == candScore[best] {
          var dj, db := nearby[candIdx[j]], nearby[candIdx[best]];
          if dj.rssi > db.rssi || (dj.rssi == db.rssi && dj.hitCount > db.hitCount) {
            best := j;
          }
        }
      }
    }

    /** ... sorted, and the prefix that fits. */
    method BuildLikelyFollowing(outIdx: array<nat>, outMax: nat, exclude: array<nat>, excludeCount: nat, now: UInt32)
      returns (count: nat)
      requires Valid() && outMax <= outIdx.Length && excludeCount <= exclude.Length && outIdx != exclude
      modifies outIdx
      ensures count <= outMax
      ensures outIdx[..count] == Section(FollowKeys(Table(), now), Items(exclude[..excludeCount]), outMax)
    {
      hide TableOf, Best, FollowKeys, Items, Candidates, Swap, Less;
      ghost var keys := FollowKeys(Table(), now);
      var candIdx, candScore := new nat[FOX_NEARBY_MAX], new int[FOX_NEARBY_MAX];
      var candCount := CollectFollowing(candIdx, candScore, exclude, excludeCount, now);
      var i := 0;
      ghost var goal := SelectSort(keys, candIdx[..candCount], 0);
      while i + 1 < candCount
        invariant i <= candCount && Ranked(keys, candIdx, candScore, candCount)
        invariant SelectSort(keys, candIdx[..candCount], i) == goal
      {
        var best := BestFollowing(candIdx, candScore, candCount, i, now);
        SwapRanked(keys, candIdx, candScore, candCount, i, best);
        i := i + 1;
      }
      count := CopyOut(outIdx, outMax, candIdx, candCount);
      assert candIdx[..candCount][..count] == candIdx[..count];
    }

    /** `fox_build_detected_locked`: the candidates ... */
    method CollectDetected(candIdx: array<nat>, candScore: array<int>, excludeA: array<nat>, countA: nat,
                           excludeB: array<nat>, countB: nat, now: UInt32)
      returns (candCount: nat)
      requires Valid() && countA <= excludeA.Length && countB <= excludeB.Length
      requires candIdx != excludeA && candIdx != excludeB && candIdx.Length == candScore.Length == FOX_NEARBY_MAX
      modifies candIdx, candScore
      ensures Ranked(DetectedKeys(Table(), now), candIdx, candScore, candCount)
      ensures candIdx[..candCount] ==
        Candidates(DetectedKeys(Table(), now), Items(excludeA[..countA]) + Items(excludeB[..countB]), nearbyCount)
    {
      hide TableOf, DetectedScore, DetectedKeys, Candidates, Less, Eligible, Items, NoRepeat, Age;
      NoCandidates(DetectedKeys(Table(), now), Items(excludeA[..countA]) + Items(excludeB[..countB]));
      ghost var keys, excluded := DetectedKeys(Table(), now), Items(excludeA[..countA]) + Items(excludeB[..countB]);
      candCount := 0;
      for i := 0 to nearbyCount
        invariant candCount <= i && candIdx[..candCount] == Candidates(keys, excluded, i)
        invariant forall k :: 0 <= k < candCount ==> candIdx[k] < i && candScore[k] == keys[candIdx[k]].first
      {
        ghost var s := candIdx[..candCount];
        CandidatesNext(keys, excluded, i);
        DetectedCompare(Table(), now, i, i);
        InItems(excludeA[..countA], i);
        InItems(excludeB[..countB], i);
        var skip := InList(excludeA, countA, i);
        if skip { continue; }
        skip := InList(excludeB, countB, i);
        if skip { continue; }
        var score := DetectedScore(nearby[i], now);
        if score == INT32_MIN { continue; }
        candIdx[candCount] := i;
        candScore[candCount] := score;
        candCount := candCount + 1;
        assert candIdx[..candCount] == s + [i];
      }
    }

    /** ... the best of the rest ... */
    method BestDetected(candIdx: array<nat>, candScore: array<int>, candCount: nat, i: nat, now: UInt32)
      returns (best: nat)
      requires Valid() && i < candCount && Ranked(DetectedKeys(Table(), now), candIdx, candScore, candCount)
      ensures best == Best(DetectedKeys(Table(), now), candIdx[..candCount], i, candCount)
    {
      hide TableOf, DetectedScore, DetectedKeys, Less, Best, Age;
      best := i;
      BestFirst(DetectedKeys(Table(), now), candIdx[..candCount], i);
      for j := i + 1 to candCount
        invariant i <= best < candCount && best == Best(DetectedKeys(Table(), now), candIdx[..candCount], i, j)
      {
        DetectedCompare(Table(), now, candIdx[best], candIdx[j]);
        DetectedCompare(Table(), now, candIdx[j], candIdx[best]);
        BestNext(DetectedKeys(Table(), now), candIdx[..candCount], i, j);
        if candScore[j] > candScore[best] {
          best := j;
        } else if candScore[j] == candScore[best] {
          var dj, db := nearby[candIdx[j]], nearby[candIdx[best]];
          var ageJ, ageB := Age(dj, now), Age(db, now);
          if ageJ < ageB || (ageJ == ageB && dj.rssi > db.rssi) {
            best := j;
          }
        }
      }
    }

    /** ... sorted, and the prefix that fits. */
    method BuildDetected(outIdx: array<nat>, outMax: nat, excludeA: array<nat>, countA: nat,
                         excludeB: array<nat>, countB: nat, now: UInt32)
      returns (count: nat)
      requires Valid() && outMax <= outIdx.Length && countA <= excludeA.Length && countB <= excludeB.Length
      requires outIdx != excludeA && outIdx != excludeB
      modifies outIdx
      ensures count <= outMax
      ensures outIdx[..count] ==
        Section(DetectedKeys(Table(), now), Items(excludeA[..countA]) + Items(excludeB[..countB]), outMax)
    {
      hide TableOf, Best, DetectedKeys, Items, Candidates, Swap, Less;
      ghost var keys := DetectedKeys(Table(), now);
      var candIdx, candScore := new nat[FOX_NEARBY_MAX], new int[FOX_NEARBY_MAX];
      var candCount := CollectDetected(candIdx, candScore, excludeA, countA, excludeB, countB, now);
      var i := 0;
      ghost var goal := SelectSort(keys, candIdx[..candCount], 0);
      while i + 1 < candCount
        invariant i <= candCount && Ranked(keys, candIdx, candScore, candCount)
        invariant SelectSort(keys, candIdx[..candCount], i) == goal
      {
        var best := BestDetected(candIdx, candScore, candCount, i, now);
        SwapRanked(keys, candIdx, candScore, candCount, i, best);
        i := i + 1;
      }
      count := CopyOut(outIdx, outMax, candIdx, candCount);
      assert candIdx[..candCount][..count] == candIdx[..count];
    }

    /** `fox_build_candidate_snapshot_locked`, and the three calls of the view count. */
    method BuildSnapshot(now: UInt32) returns (snap: Snapshot)
      requires Valid()
      ensures snap == SnapshotOf(Table(), now)
    {
      var nearbyIdx := new nat[FOX_NEARBY_SECTION_MAX];
      var followingIdx := new nat[FOX_FOLLOWING_SECTION_MAX];
      var detectedIdx := new nat[FOX_DETECTED_SECTION_MAX];
      var n := BuildLikelyNearby(nearbyIdx, FOX_NEARBY_SECTION_MAX, now);
      var f := BuildLikelyFollowing(followingIdx, FOX_FOLLOWING_SECTION_MAX, nearbyIdx, n, now);
      var d := BuildDetected(detectedIdx, FOX_DETECTED_SECTION_MAX, nearbyIdx, n, followingIdx, f, now);
      snap := Snapshot(nearbyIdx[..n], followingIdx[..f], detectedIdx[..d]);
    }

    /** `fox_hunter_registry_view_count`, the lock obtained */
    method RegistryViewCount(now: UInt32) returns (count: nat)
      requires Valid()
      ensures count == |Screen(|registry|, SnapshotOf(Table(), now))|
    {
      var snap := BuildSnapshot(now);
      count := |registry| + |snap.nearby| + |snap.following| + |snap.detected|;
    }

    /** The address of a row of the screen. */
    function MacOf(item: Item): Mac
      requires nearbyCount <= nearby.Length
      requires match item case Saved(i) => i < |registry| case Candidate(d) => d < nearbyCount
      reads this, nearby
    {
      match item
      case Saved(i) => registry[i]
      case Candidate(d) => nearby[d].mac
    }

    /** `fox_hunter_set_target` */
    method SetTarget(mac: Mac)
      modifies this`target, this`targetFound, this`rssi, this`rssiBest
      ensures target == Some(mac) && !targetFound && rssi == -100 && rssiBest == -100
    {
      target := Some(mac);
      targetFound := false;
      rssi := -100;
      rssiBest := -100;
    }

    /** `fox_hunter_registry_select_view_index`, the lock obtained: an index on the screen makes that
        row the target and closes the screen, any other index does nothing. */
    method SelectViewIndex(index: int, now: UInt32)
      requires Valid()
      modifies this`target, this`targetFound, this`rssi, this`rssiBest, this`registryOpen
      ensures Valid()
      ensures var rows := Screen(|registry|, SnapshotOf(Table(), now));
        if 0 <= index < |rows| then
          && (match rows[index] case Saved(i) => i < |registry| case Candidate(d) => d < nearbyCount)
          && target == Some(MacOf(rows[index])) && !targetFound && !registryOpen
        else
          unchanged(this)
    {
      hide TableOf, SnapshotOf;
      if index < 0 { return; }
      if index < |registry| {
        SetTarget(registry[index]);
        registryOpen := false;
        return;
      }
      var local := index - |registry|;
      var snap := BuildSnapshot(now);
      SnapshotInTable(Table(), now);
      if local < |snap.nearby| {
        SelectDevice(snap.nearby[local]);
      } else {
        var follow := local - |snap.nearby|;
        if follow < |snap.following| {
          SelectDevice(snap.following[follow]);
        } else {
          var detected := follow - |snap.following|;
          if detected < |snap.detected| {
            SelectDevice(snap.detected[detected]);
          }
        }
      }
    }

    method SelectDevice(device: nat)
      requires Valid() && device < nearbyCount
      modifies this`target, this`targetFound, this`rssi, this`rssiBest, this`registryOpen
      ensures target == Some(nearby[device].mac) && !targetFound && !registryOpen
    {
      SetTarget(nearby[device].mac);
      registryOpen := false;
    }
  }

  lemma BestFirst(keys: seq<Key>, s: seq<nat>, i: nat)
    requires i < |s| && Indices(keys, s)
    ensures Best(keys, s, i, i + 1) == i
  {
  }

  lemma {:induction false} SettleEnd(keys: seq<Key>, s: seq<nat>, i: nat)
    requires i < |s| && Indices(keys, s)
    ensures Settle(keys, s, i, |s|) == s
  {
  }

  lemma {:induction false} NoCandidates(keys: seq<Key>, excluded: set<nat>)
    ensures Candidates(keys, excluded, 0) == []
  {
  }

  /** The parallel arrays of a selection sort agree with the keys. */
  ghost predicate Ranked(keys: seq<Key>, candIdx: array<nat>, candScore: array<int>, candCount: nat)
    reads candIdx, candScore
  {
    && candCount <= candIdx.Length == candScore.Length
    && Indices(keys, candIdx[..candCount])
    && forall k :: 0 <= k < candCount ==> candScore[k] == keys[candIdx[k]].first
  }

  /** The swap that ends a round of a selection sort. */
  method SwapRanked(ghost keys: seq<Key>, candIdx: array<nat>, candScore: array<int>, candCount: nat, i: nat, best: nat)
    requires Ranked(keys, candIdx, candScore, candCount) && i < candCount && best < candCount
    modifies candIdx, candScore
    ensures Ranked(keys, candIdx, candScore, candCount)
    ensures candIdx[..candCount] == Swap(old(candIdx[..candCount]), i, best)
  {
    if best != i {
      candIdx[i], candIdx[best] := candIdx[best], candIdx[i];
      candScore[i], candScore[best] := candScore[best], candScore[i];
    }
  }

  /** The prefix that fits goes to the caller. */
  method CopyOut(outIdx: array<nat>, outMax: nat, candIdx: array<nat>, candCount: nat) returns (count: nat)
    requires outMax <= outIdx.Length && candCount <= candIdx.Length && outIdx != candIdx
    modifies outIdx
    ensures count == AtMost(outMax, candCount) && outIdx[..count] == candIdx[..count]
  {
    count := if candCount < outMax then candCount else outMax;
    for i := 0 to count
      invariant outIdx[..i] == candIdx[..i]
    {
      outIdx[i] := candIdx[i];
    }
  }
}
