/** The three candidate sections of `main/fox_hunter.c` as selections of table indices. */
module FoxSelection {
  import opened FoxTable

  const INT32_MIN := -0x8000_0000
  const FOX_NEARBY_SECTION_MAX := 4
  const FOX_FOLLOWING_SECTION_MAX := 4
  const FOX_DETECTED_SECTION_MAX := 6
  const FOX_NEARBY_RECENT_MS := 8000
  const FOX_FOLLOWING_RECENT_MS := 12000
  const FOX_FOLLOWING_MIN_SEEN_MS := 20000
  const FOX_DETECTED_RECENT_MS := 30000

  // ---- keys and scores ----

  /** Compared field by field, the first difference decides. */
  datatype Key = Key(first: int, second: int, third: int)

  predicate Less(a: Key, b: Key) {
    || a.first < b.first
    || (a.first == b.first && a.second < b.second)
    || (a.first == b.first && a.second == b.second && a.third < b.third)
  }

  function Age(d: Device, now: UInt32): (age: int)
    ensures age >= 0
  {
    if now > d.lastSeen then now - d.lastSeen else 0
  }

  function Clamp(x: int, lo: int, hi: int): int {
    if x < lo then lo else if x > hi then hi else x
  }

  predicate Nearby(d: Device, now: UInt32) {
    Age(d, now) <= FOX_NEARBY_RECENT_MS && d.rssi >= -95
  }

  /** Seen for long, often, lately and at some time from near. */
  predicate Following(d: Device, now: UInt32) {
    && Age(d, now) <= FOX_FOLLOWING_RECENT_MS
    && d.lastSeen - d.firstSeen >= FOX_FOLLOWING_MIN_SEEN_MS
    && d.hitCount >= 4
    && (d.rssi >= -82 || d.rssiBest >= -78)
  }

  /** The sentinel marks exactly the devices that do not qualify: no score reaches it. */
  function FollowScore(d: Device, now: UInt32): (score: int)
    ensures score == INT32_MIN <==> !Following(d, now)
    ensures Following(d, now) <==>
      && now - d.lastSeen <= 12000 && d.lastSeen - d.firstSeen >= 20000 && d.hitCount >= 4
      && (d.rssi >= -82 || d.rssiBest >= -78)
    ensures Following(d, now) ==> -29 <= score <= 4150
  {
    var age := Age(d, now);
    var seen := if d.lastSeen > d.firstSeen then d.lastSeen - d.firstSeen else 0;
    if age > FOX_FOLLOWING_RECENT_MS then INT32_MIN
    else if seen < FOX_FOLLOWING_MIN_SEEN_MS then INT32_MIN
    else if d.hitCount < 4 then INT32_MIN
    else if d.rssi < -82 && d.rssiBest < -78 then INT32_MIN
    else
      SeenPoints(seen) + Clamp(d.rssi + 95, 0, 80) * 3 + Clamp(d.rssiBest + 95, 0, 80) * 2 + HitPoints(d.hitCount)
        - AgePenalty(age)
  }

  /** Four points a second, up to 900 seconds. */
  function SeenPoints(ms: nat): int { (if ms / 1000 > 900 then 900 else ms / 1000) * 4 }

  /** A quarter of the hits, up to 600 hits. */
  function HitPoints(hits: nat): int { (if hits > 600 then 600 else hits) / 4 }

  /** Three points a quarter of a second, up to 120 quarters. */
  function AgePenalty(ms: nat): int { (if ms / 250 > 120 then 120 else ms / 250) * 3 }

  function DetectedScore(d: Device, now: UInt32): (score: int)
    ensures score == INT32_MIN <==> now - d.lastSeen > 30000
    ensures score != INT32_MIN ==> 0 <= score <= 1270
  {
    var age := Age(d, now);
    if age > FOX_DETECTED_RECENT_MS then INT32_MIN
    else
      var recency := if 300 - age / 100 < 0 then 0 else 300 - age / 100;
      var hitScore := if d.hitCount > 200 then 200 else d.hitCount;
      recency * 3 + Clamp(d.rssi + 100, 0, 85) * 2 + hitScore
  }

  /** The bounds of the scores are reached: every part of a score can get its full weight, and none
      gets more. */
  lemma ScoreBoundsReached(mac: Mac)
    ensures var near := Device(mac, [], -15, -15, 0, 900000, 600);
      var far := Device(mac, [], -128, -78, 0, 20000, 4);
      FollowScore(near, 900000) == 4150 && FollowScore(far, 32000) == -29
    ensures var near := Device(mac, [], -15, -15, 0, 900000, 200);
      var far := Device(mac, [], -128, -128, 0, 0, 0);
      DetectedScore(near, 900000) == 1270 && DetectedScore(far, 30000) == 0
  {
  }

  // ---- what the scores count, step by step ----

  /** How many points a step is worth. Together with one value, such as -29 above, the steps say what
      the score is: three points a dB between -95 and -15, two for each dB of the best signal, one
      for every fourth hit below 600. */
  lemma FollowBySignal(d: Device, e: Device, now: UInt32)
    requires Following(d, now)
    ensures d.rssi < 127 && e == d.(rssi := d.rssi + 1) ==>
      FollowScore(e, now) == FollowScore(d, now) + if -95 <= d.rssi < -15 then 3 else 0
    ensures d.rssiBest < 127 && e == d.(rssiBest := d.rssiBest + 1) ==>
      FollowScore(e, now) == FollowScore(d, now) + if -95 <= d.rssiBest < -15 then 2 else 0
    ensures d.hitCount < 65535 && e == d.(hitCount := d.hitCount + 1) ==>
      FollowScore(e, now) == FollowScore(d, now) + if e.hitCount % 4 == 0 && e.hitCount <= 600 then 1 else 0
  {
    hide SeenPoints, AgePenalty;
  }

  /** Four points for every whole second between the first and the last sighting, up to 900. */
  lemma FollowBySpan(d: Device, e: Device, now: UInt32)
    requires Following(d, now) && d.firstSeen > 0 && e == d.(firstSeen := d.firstSeen - 1)
    ensures var span := d.lastSeen - e.firstSeen;
      FollowScore(e, now) == FollowScore(d, now) + if span % 1000 == 0 && span <= 900000 then 4 else 0
  {
    SecondsStep(d.lastSeen - d.firstSeen);
    hide SeenPoints, HitPoints, AgePenalty;
  }

  lemma SecondsStep(ms: nat)
    ensures SeenPoints(ms + 1) == SeenPoints(ms) + if (ms + 1) % 1000 == 0 && ms + 1 <= 900000 then 4 else 0
  {
  }

  /** Three points less for every quarter of a second since the last sighting; a last sighting that
      seems to lie ahead, the time having wrapped, counts as just now. */
  lemma FollowByAge(d: Device, now: UInt32, next: UInt32)
    requires Following(d, next) && next == now + 1
    ensures Following(d, now) && FollowScore(d, next) ==
      FollowScore(d, now) - if next > d.lastSeen && (next - d.lastSeen) % 250 == 0 then 3 else 0
  {
    if next > d.lastSeen {
      QuartersStep(next - d.lastSeen - 1);
    }
    hide SeenPoints, HitPoints, AgePenalty;
  }

  lemma QuartersStep(ms: nat)
    requires ms < 12000
    ensures AgePenalty(ms + 1) == AgePenalty(ms) + if (ms + 1) % 250 == 0 then 3 else 0
  {
  }

  /** The same for the detected score, for any device: two points a dB between -100 and -15, one for
      each hit up to 200, three less for every tenth of a second. */
  lemma DetectedSteps(d: Device, e: Device, now: UInt32, next: UInt32)
    requires now - d.lastSeen <= 30000
    ensures d.rssi < 127 && e == d.(rssi := d.rssi + 1) ==>
      DetectedScore(e, now) == DetectedScore(d, now) + if -100 <= d.rssi < -15 then 2 else 0
    ensures d.hitCount < 65535 && e == d.(hitCount := d.hitCount + 1) ==>
      DetectedScore(e, now) == DetectedScore(d, now) + if e.hitCount <= 200 then 1 else 0
    ensures next == now + 1 && next - d.lastSeen <= 30000 ==>
      DetectedScore(d, next) == DetectedScore(d, now)
        - if next > d.lastSeen && (next - d.lastSeen) % 100 == 0 then 3 else 0
  {
    if next == now + 1 && 0 < next - d.lastSeen <= 30000 {
      TenthsStep(next - d.lastSeen - 1);
    }
  }

  lemma TenthsStep(ms: nat)
    ensures (ms + 1) / 100 == ms / 100 + if (ms + 1) % 100 == 0 then 1 else 0
  {
  }

  /** Nothing but these numbers matters. */
  lemma ScoresDependOn(d: Device, e: Device, now: UInt32, later: UInt32, k: nat)
    requires e.rssi == d.rssi && e.rssiBest == d.rssiBest && e.hitCount == d.hitCount
    requires e.lastSeen == d.lastSeen + k && e.firstSeen == d.firstSeen + k && later == now + k
    ensures FollowScore(e, later) == FollowScore(d, now) && DetectedScore(e, later) == DetectedScore(d, now)
  {
  }

  /** With everything else equal, a stronger signal, a better best signal, more hits, a longer
      observation or a younger sighting never lowers the score of a device that is followed. */
  lemma FollowScoreMonotone(d: Device, e: Device, now: UInt32)
    requires Following(d, now)
    requires d.rssi <= e.rssi && d.rssiBest <= e.rssiBest && d.hitCount <= e.hitCount
    requires e.lastSeen - e.firstSeen >= d.lastSeen - d.firstSeen && Age(e, now) <= Age(d, now)
    ensures Following(e, now) && FollowScore(d, now) <= FollowScore(e, now)
  {
    PartsMonotone(d.lastSeen - d.firstSeen, e.lastSeen - e.firstSeen, d.hitCount, e.hitCount, Age(e, now), Age(d, now));
    hide SeenPoints, HitPoints, AgePenalty, Age;
  }

  lemma PartsMonotone(seenD: nat, seenE: nat, hitsD: nat, hitsE: nat, ageE: nat, ageD: nat)
    requires seenD <= seenE && hitsD <= hitsE && ageE <= ageD
    ensures SeenPoints(seenD) <= SeenPoints(seenE) && HitPoints(hitsD) <= HitPoints(hitsE)
    ensures AgePenalty(ageE) <= AgePenalty(ageD)
  {
  }

  function NearbyKey(d: Device): Key { Key(d.rssi, d.rssiBest, 0) }

  function NearbyKeys(t: seq<Device>): (keys: seq<Key>)
    ensures |keys| == |t|
  {
    seq(|t|, i requires 0 <= i < |t| => NearbyKey(t[i]))
  }

  /** The order of the nearby section breaks ties by the number of hits. */
  function NearbyOrder(t: seq<Device>): (keys: seq<Key>)
    ensures |keys| == |t|
  {
    seq(|t|, i requires 0 <= i < |t| => Key(t[i].rssi, t[i].rssiBest, t[i].hitCount))
  }

  function FollowKeys(t: seq<Device>, now: UInt32): (keys: seq<Key>)
    ensures |keys| == |t|
  {
    seq(|t|, i requires 0 <= i < |t| => Key(FollowScore(t[i], now), t[i].rssi, t[i].hitCount))
  }

  /** Among equal scores the younger sighting wins, then the stronger signal. */
  function DetectedKeys(t: seq<Device>, now: UInt32): (keys: seq<Key>)
    ensures |keys| == |t|
  {
    seq(|t|, i requires 0 <= i < |t| => Key(DetectedScore(t[i], now), -Age(t[i], now), t[i].rssi))
  }

  /** The comparisons of the sorting loops are those of the keys. */
  lemma NearbyCompare(t: seq<Device>, x: nat, y: nat)
    requires x < |t| && y < |t|
    ensures Less(NearbyOrder(t)[x], NearbyOrder(t)[y]) <==>
      || t[x].rssi < t[y].rssi
      || (t[x].rssi == t[y].rssi && t[x].rssiBest < t[y].rssiBest)
      || (t[x].rssi == t[y].rssi && t[x].rssiBest == t[y].rssiBest && t[x].hitCount < t[y].hitCount)
  {
  }

  lemma FollowCompare(t: seq<Device>, now: UInt32, x: nat, y: nat)
    requires x < |t| && y < |t|
    ensures FollowKeys(t, now)[x].first == FollowScore(t[x], now)
    ensures Less(FollowKeys(t, now)[x], FollowKeys(t, now)[y]) <==>
      || FollowScore(t[x], now) < FollowScore(t[y], now)
      || (FollowScore(t[x], now) == FollowScore(t[y], now)
          && (t[x].rssi < t[y].rssi || (t[x].rssi == t[y].rssi && t[x].hitCount < t[y].hitCount)))
  {
  }

  lemma DetectedCompare(t: seq<Device>, now: UInt32, x: nat, y: nat)
    requires x < |t| && y < |t|
    ensures DetectedKeys(t, now)[x].first == DetectedScore(t[x], now)
    ensures Less(DetectedKeys(t, now)[x], DetectedKeys(t, now)[y]) <==>
      || DetectedScore(t[x], now) < DetectedScore(t[y], now)
      || (DetectedScore(t[x], now) == DetectedScore(t[y], now)
          && (Age(t[y], now) < Age(t[x], now) || (Age(t[x], now) == Age(t[y], now) && t[x].rssi < t[y].rssi)))
  {
  }

  // ---- what a section has to be ----

  predicate NoRepeat(s: seq<nat>) {
    forall i, j :: 0 <= i < j < |s| ==> s[i] != s[j]
  }

  function Items(s: seq<nat>): set<nat> {
    set x | x in s
  }

  predicate Indices(keys: seq<Key>, s: seq<nat>) {
    forall i :: 0 <= i < |s| ==> s[i] < |keys|
  }

  function AtMost(max: nat, n: nat): nat {
    if n < max then n else max
  }

  /** `s` is a maximal choice of at most `max` of the eligible indices: nothing left out beats
      anything chosen, and only a lack of room leaves anything out. */
  ghost predicate Top(keys: seq<Key>, eligible: set<nat>, max: nat, s: seq<nat>) {
    && NoRepeat(s) && Items(s) <= eligible && Indices(keys, s)
    && |s| == AtMost(max, |eligible|)
    && forall x, i :: x in eligible && x !in s && x < |keys| && 0 <= i < |s| ==> !Less(keys[s[i]], keys[x])
  }

  predicate Sorted(keys: seq<Key>, s: seq<nat>)
    requires Indices(keys, s)
  {
    forall i, j :: 0 <= i < j < |s| ==> !Less(keys[s[i]], keys[s[j]])
  }

  // ---- set and sequence facts ----

  lemma {:induction false} ItemsSize(s: seq<nat>)
    requires NoRepeat(s)
    ensures |Items(s)| == |s|
    decreases |s|
  {
    if s == [] {
    } else {
      var n := |s| - 1;
      ItemsSize(s[..n]);
      assert s == s[..n] + [s[n]];
      assert Items(s) == Items(s[..n]) + {s[n]};
    }
  }

  function Swap(s: seq<nat>, i: nat, j: nat): (r: seq<nat>)
    requires i < |s| && j < |s|
    ensures |r| == |s|
  {
    s[i := s[j]][j := s[i]]
  }

  lemma SwapKeeps(s: seq<nat>, i: nat, j: nat)
    requires i < |s| && j < |s| && NoRepeat(s)
    ensures NoRepeat(Swap(s, i, j)) && Items(Swap(s, i, j)) == Items(s)
  {
    var r := Swap(s, i, j);
    forall x: nat
      ensures x in r <==> x in s
    {
      if x in s {
        var k :| 0 <= k < |s| && s[k] == x;
        assert r[if k == i then j else if k == j then i else k] == x;
      }
    }
  }

  /** The first `i` positions are final: nothing behind one of them beats it. */
  predicate Settled(keys: seq<Key>, s: seq<nat>, i: nat)
    requires Indices(keys, s)
  {
    forall a, b :: 0 <= a < i && a < b < |s| ==> !Less(keys[s[a]], keys[s[b]])
  }

  /** Position `i` beats every position behind it up to `n`. */
  predicate Leads(keys: seq<Key>, s: seq<nat>, i: nat, n: nat)
    requires Indices(keys, s) && n <= |s|
  {
    forall b :: i < b < n ==> !Less(keys[s[i]], keys[s[b]])
  }

  // ---- nearby: keep the strongest, then exchange sort ----

  /** The first of the weakest among the first `n` chosen. */
  function Weakest(keys: seq<Key>, chosen: seq<nat>, n: nat): (w: nat)
    requires 0 < n <= |chosen| && Indices(keys, chosen)
    ensures w < n
    ensures forall k :: 0 <= k < n ==> !Less(keys[chosen[k]], keys[chosen[w]])
  {
    if n == 1 then 0
    else
      var w := Weakest(keys, chosen, n - 1);
      if Less(keys[chosen[n - 1]], keys[chosen[w]]) then n - 1 else w
  }

  /** The indices kept after the first `n` devices. */
  function Gather(t: seq<Device>, now: UInt32, max: nat, n: nat): (chosen: seq<nat>)
    requires n <= |t| && max > 0
    ensures |chosen| <= max
    ensures forall i :: 0 <= i < |chosen| ==> chosen[i] < n
  {
    if n == 0 then []
    else
      var chosen := Gather(t, now, max, n - 1);
      if !Nearby(t[n - 1], now) then chosen
      else Keep(NearbyKeys(t), chosen, max, n - 1)
  }

  /** Take `x` while there is room, afterwards only in place of something weaker. */
  function Keep(keys: seq<Key>, chosen: seq<nat>, max: nat, x: nat): (r: seq<nat>)
    requires max > 0 && Indices(keys, chosen) && x < |keys| && |chosen| <= max
    ensures |r| <= max && forall i :: 0 <= i < |r| ==> r[i] == x || r[i] in chosen
  {
    if |chosen| < max then chosen + [x]
    else
      var w := Weakest(keys, chosen, |chosen|);
      if Less(keys[chosen[w]], keys[x]) then chosen[w := x] else chosen
  }

  lemma SettleNext(keys: seq<Key>, s: seq<nat>, i: nat, j: nat)
    requires i < j < |s| && Indices(keys, s)
    ensures Settle(keys, s, i, j) == Settle(keys, if Less(keys[s[i]], keys[s[j]]) then Swap(s, i, j) else s, i, j + 1)
  {
  }

  /** The inner loop of the exchange sort, from position `j` on. */
  function Settle(keys: seq<Key>, s: seq<nat>, i: nat, j: nat): (r: seq<nat>)
    requires i < j <= |s| && Indices(keys, s)
    ensures |r| == |s| && Indices(keys, r)
    decreases |s| - j
  {
    if j == |s| then s
    else Settle(keys, if Less(keys[s[i]], keys[s[j]]) then Swap(s, i, j) else s, i, j + 1)
  }

  function Exchange(keys: seq<Key>, s: seq<nat>, i: nat): (r: seq<nat>)
    requires Indices(keys, s)
    ensures |r| == |s| && Indices(keys, r)
    decreases |s| - i
  {
    if i + 1 >= |s| then s else Exchange(keys, Settle(keys, s, i, i + 1), i + 1)
  }

  function NearbyIdx(t: seq<Device>, now: UInt32, max: nat): (s: seq<nat>)
    requires max > 0
    ensures Indices(NearbyOrder(t), s)
  {
    Exchange(NearbyOrder(t), Gather(t, now, max, |t|), 0)
  }

  function NearbyEligible(t: seq<Device>, now: UInt32, n: nat): set<nat>
    requires n <= |t|
  {
    set i: nat | i < n && Nearby(t[i], now)
  }

  lemma EligibleMore(t: seq<Device>, now: UInt32, n: nat)
    requires 0 < n <= |t|
    ensures NearbyEligible(t, now, n) ==
            if Nearby(t[n - 1], now) then NearbyEligible(t, now, n - 1) + {n - 1} else NearbyEligible(t, now, n - 1)
    ensures n - 1 !in NearbyEligible(t, now, n - 1)
  {
  }

  lemma LessOrders(a: Key, b: Key, c: Key)
    ensures Less(a, b) ==> !Less(b, a)
    ensures Less(a, b) && !Less(a, c) ==> !Less(b, c)
  {
  }

  /** Replacing the weakest by something stronger keeps the choice maximal. */
  lemma ReplaceWeakest(keys: seq<Key>, eligible: set<nat>, max: nat, s: seq<nat>, w: nat, x: nat)
    requires Top(keys, eligible, max, s) && |s| == max && w < |s| && x !in eligible && x < |keys|
    requires forall k :: 0 <= k < |s| ==> !Less(keys[s[k]], keys[s[w]])
    requires Less(keys[s[w]], keys[x])
    requires forall y :: y in eligible ==> y < |keys|
    ensures Top(keys, eligible + {x}, max, s[w := x])
  {
    hide Less;
    var r := s[w := x];
    assert forall k :: 0 <= k < |s| && k != w ==> s[k] == r[k] && r[k] in r;
    forall y, i | y in eligible + {x} && y !in r && 0 <= i < |r|
      ensures !Less(keys[r[i]], keys[y])
    {
      assert r[w] == x;
      LessOrders(keys[s[w]], keys[x], keys[y]);
      if y in s {
        var k :| 0 <= k < |s| && s[k] == y;
      }
    }
    assert forall i :: 0 <= i < |r| ==> r[i] == x || r[i] == s[i];
    assert forall i :: 0 <= i < |s| ==> s[i] in Items(s);
  }

  lemma {:induction false} GatherIsTop(t: seq<Device>, now: UInt32, max: nat, n: nat)
    requires n <= |t| && max > 0
    ensures Top(NearbyKeys(t), NearbyEligible(t, now, n), max, Gather(t, now, max, n))
    decreases n
  {
    hide Top, NearbyEligible, Keep, NearbyKeys, Nearby;
    EligibleBounds(t, now, n);
    if n == 0 {
      NothingIsTop(NearbyKeys(t), max);
    } else {
      GatherIsTop(t, now, max, n - 1);
      EligibleMore(t, now, n);
      EligibleBounds(t, now, n - 1);
      GatherStep(NearbyKeys(t), NearbyEligible(t, now, n - 1), max, Gather(t, now, max, n - 1), n - 1);
    }
  }

  lemma NothingIsTop(keys: seq<Key>, max: nat)
    ensures Top(keys, {}, max, [])
  {
  }

  lemma EligibleBounds(t: seq<Device>, now: UInt32, n: nat)
    requires n <= |t|
    ensures |NearbyKeys(t)| == |t| && forall y :: y in NearbyEligible(t, now, n) ==> y < n
    ensures n == 0 ==> NearbyEligible(t, now, n) == {}
  {
  }

  /** One more eligible index, whether it is kept or not. */
  lemma GatherStep(keys: seq<Key>, eligible: set<nat>, max: nat, s: seq<nat>, x: nat)
    requires Top(keys, eligible, max, s) && max > 0 && x !in eligible && x < |keys|
    requires forall y :: y in eligible ==> y < |keys|
    ensures Top(keys, eligible + {x}, max, Keep(keys, s, max, x))
  {
    if |s| < max {
      GatherRoom(keys, eligible, max, s, x);
    } else {
      GatherFull(keys, eligible, max, s, x);
    }
  }

  lemma GatherRoom(keys: seq<Key>, eligible: set<nat>, max: nat, s: seq<nat>, x: nat)
    requires Top(keys, eligible, max, s) && |s| < max && x !in eligible && x < |keys|
    ensures Top(keys, eligible + {x}, max, s + [x])
  {
    assert forall i :: 0 <= i < |s| ==> s[i] in Items(s);
    ItemsSize(s);
    EqualSets(Items(s), eligible);
    assert Items(s + [x]) == Items(s) + {x};
    assert forall y :: y in eligible + {x} ==> y in s + [x];
  }

  lemma GatherFull(keys: seq<Key>, eligible: set<nat>, max: nat, s: seq<nat>, x: nat)
    requires Top(keys, eligible, max, s) && |s| >= max > 0 && x !in eligible && x < |keys|
    requires forall y :: y in eligible ==> y < |keys|
    ensures Top(keys, eligible + {x}, max, Keep(keys, s, max, x))
  {
    assert forall i :: 0 <= i < |s| ==> s[i] in Items(s);
    var w := Weakest(keys, s, |s|);
    if Less(keys[s[w]], keys[x]) {
      ReplaceWeakest(keys, eligible, max, s, w, x);
    } else {
      KeptTop(keys, eligible, max, s, w, x);
    }
  }

  lemma KeptTop(keys: seq<Key>, eligible: set<nat>, max: nat, s: seq<nat>, w: nat, x: nat)
    requires Top(keys, eligible, max, s) && |s| == max && w < |s| && x !in eligible && x < |keys|
    requires forall k :: 0 <= k < |s| ==> !Less(keys[s[k]], keys[s[w]])
    requires !Less(keys[s[w]], keys[x])
    ensures Top(keys, eligible + {x}, max, s)
  {
    assert |eligible + {x}| == |eligible| + 1;
  }

  lemma EqualSets(a: set<nat>, b: set<nat>)
    requires a <= b && |a| == |b|
    ensures a == b
  {
    SubsetSize(b - a, {});
    assert b == a + (b - a);
  }

  /** After one comparison position `i` beats one position more. */
  lemma SettleStep(keys: seq<Key>, s: seq<nat>, i: nat, j: nat)
    requires i < j < |s| && Indices(keys, s) && Settled(keys, s, i) && Leads(keys, s, i, j)
    ensures var next := if Less(keys[s[i]], keys[s[j]]) then Swap(s, i, j) else s;
      Settled(keys, next, i) && Leads(keys, next, i, j + 1)
  {
    var next := if Less(keys[s[i]], keys[s[j]]) then Swap(s, i, j) else s;
    forall b | i < b < j + 1
      ensures !Less(keys[next[i]], keys[next[b]])
    {
    }
    hide Less;
    assert forall b :: 0 <= b < |s| && b != i && b != j ==> next[b] == s[b];
    forall a, b | 0 <= a < i && a < b < |s|
      ensures !Less(keys[next[a]], keys[next[b]])
    {
      var c := if next == s then b else if b == i then j else if b == j then i else b;
      assert next[a] == s[a] && next[b] == s[c];
    }
  }

  /** The inner loop makes position `i` final. */
  lemma {:induction false} SettleSettles(keys: seq<Key>, s: seq<nat>, i: nat, j: nat)
    requires i < j <= |s| && Indices(keys, s) && NoRepeat(s)
    requires Settled(keys, s, i) && Leads(keys, s, i, j)
    ensures var r := Settle(keys, s, i, j); NoRepeat(r) && Items(r) == Items(s) && Settled(keys, r, i + 1)
    decreases |s| - j
  {
    hide Less, Items, NoRepeat, Settled, Leads;
    if j < |s| {
      SwapKeeps(s, i, j);
      SettleStep(keys, s, i, j);
      SettleSettles(keys, if Less(keys[s[i]], keys[s[j]]) then Swap(s, i, j) else s, i, j + 1);
    } else {
      SettledMore(keys, s, i);
    }
  }

  lemma SettledMore(keys: seq<Key>, s: seq<nat>, i: nat)
    requires i < |s| && Indices(keys, s) && Settled(keys, s, i) && Leads(keys, s, i, |s|)
    ensures Settled(keys, s, i + 1)
  {
    hide Less;
  }

  lemma {:induction false} ExchangeSorts(keys: seq<Key>, s: seq<nat>, i: nat)
    requires Indices(keys, s) && NoRepeat(s) && Settled(keys, s, i)
    ensures var r := Exchange(keys, s, i); NoRepeat(r) && Items(r) == Items(s) && Sorted(keys, r)
    decreases |s| - i
  {
    hide Less, Items, NoRepeat, Settle;
    if i + 1 < |s| {
      SettleSettles(keys, s, i, i + 1);
      ExchangeSorts(keys, Settle(keys, s, i, i + 1), i + 1);
    }
  }

  lemma SameItemsTop(keys: seq<Key>, eligible: set<nat>, max: nat, s: seq<nat>, r: seq<nat>)
    requires Top(keys, eligible, max, s) && NoRepeat(r) && Items(r) == Items(s) && |r| == |s| && Indices(keys, r)
    ensures Top(keys, eligible, max, r)
  {
    forall x, i | x in eligible && x !in r && x < |keys| && 0 <= i < |r|
      ensures !Less(keys[r[i]], keys[x])
    {
      assert r[i] in Items(r) && x !in Items(r);
      var k :| 0 <= k < |s| && s[k] == r[i];
    }
  }

  /** The nearby section: the strongest recent devices, sorted. */
  lemma NearbyIsTop(t: seq<Device>, now: UInt32, max: nat)
    requires max > 0
    ensures Top(NearbyKeys(t), NearbyEligible(t, now, |t|), max, NearbyIdx(t, now, max))
    ensures Sorted(NearbyOrder(t), NearbyIdx(t, now, max))
  {
    GatherIsTop(t, now, max, |t|);
    var g := Gather(t, now, max, |t|);
    ExchangeSorts(NearbyOrder(t), g, 0);
    SameItemsTop(NearbyKeys(t), NearbyEligible(t, now, |t|), max, g, NearbyIdx(t, now, max));
  }

  // ---- following and detected: all candidates, selection sort, prefix ----

  /** The candidates among the first `n` devices: scored, and not in a section before. */
  function Candidates(keys: seq<Key>, excluded: set<nat>, n: nat): (s: seq<nat>)
    requires n <= |keys|
    ensures |s| <= n
    ensures forall i :: 0 <= i < |s| ==> s[i] < n
    ensures NoRepeat(s)
    ensures Items(s) == Eligible(keys, excluded, n)
  {
    if n == 0 then []
    else
      var s := Candidates(keys, excluded, n - 1);
      assert Items(s + [n - 1]) == Items(s) + {n - 1};
      if n - 1 in excluded || keys[n - 1].first == INT32_MIN then s else s + [n - 1]
  }

  lemma InItems(s: seq<nat>, x: nat)
    ensures x in Items(s) <==> x in s
  {
  }

  lemma {:induction false} CandidatesNext(keys: seq<Key>, excluded: set<nat>, i: nat)
    requires i < |keys|
    ensures Candidates(keys, excluded, i + 1) ==
      if i in excluded || keys[i].first == INT32_MIN then Candidates(keys, excluded, i)
      else Candidates(keys, excluded, i) + [i]
    ensures |Candidates(keys, excluded, i)| <= i
  {
  }

  function Eligible(keys: seq<Key>, excluded: set<nat>, n: nat): set<nat>
    requires n <= |keys|
  {
    set i: nat | i < n && i !in excluded && keys[i].first != INT32_MIN
  }

  /** The first of the best positions from `i` on, before `n`. */
  function Best(keys: seq<Key>, s: seq<nat>, i: nat, n: nat): (b: nat)
    requires i < n <= |s| && Indices(keys, s)
    ensures i <= b < n
    ensures forall k :: i <= k < n ==> !Less(keys[s[b]], keys[s[k]])
    decreases n
  {
    if n == i + 1 then i
    else
      var b := Best(keys, s, i, n - 1);
      if Less(keys[s[b]], keys[s[n - 1]]) then n - 1 else b
  }

  function SelectSort(keys: seq<Key>, s: seq<nat>, i: nat): (r: seq<nat>)
    requires Indices(keys, s)
    ensures |r| == |s| && Indices(keys, r)
    decreases |s| - i
  {
    if i + 1 >= |s| then s else SelectSort(keys, Swap(s, i, Best(keys, s, i, |s|)), i + 1)
  }

  function Section(keys: seq<Key>, excluded: set<nat>, max: nat): (s: seq<nat>)
    ensures Indices(keys, s)
  {
    var sorted := SelectSort(keys, Candidates(keys, excluded, |keys|), 0);
    sorted[..AtMost(max, |sorted|)]
  }

  /** With the best of the rest swapped in, position `i` is final. */
  lemma BestSettles(keys: seq<Key>, s: seq<nat>, i: nat, b: nat)
    requires i <= b < |s| && Indices(keys, s) && Settled(keys, s, i)
    requires forall k :: i <= k < |s| ==> !Less(keys[s[b]], keys[s[k]])
    ensures Settled(keys, Swap(s, i, b), i + 1)
  {
    hide Less;
    var r := Swap(s, i, b);
    forall x, y | 0 <= x < i + 1 && x < y < |r|
      ensures !Less(keys[r[x]], keys[r[y]])
    {
      var from := if y == b then i else if y == i then b else y;
      assert r[y] == s[from];
      assert r[x] == if x == i then s[b] else s[x];
    }
  }

  lemma BestNext(keys: seq<Key>, s: seq<nat>, i: nat, n: nat)
    requires i < n < |s| && Indices(keys, s)
    ensures var b := Best(keys, s, i, n);
      Best(keys, s, i, n + 1) == if Less(keys[s[b]], keys[s[n]]) then n else b
  {
  }

  lemma {:induction false} SelectSorts(keys: seq<Key>, s: seq<nat>, i: nat)
    requires Indices(keys, s) && NoRepeat(s) && Settled(keys, s, i)
    ensures var r := SelectSort(keys, s, i); NoRepeat(r) && Items(r) == Items(s) && Sorted(keys, r)
    decreases |s| - i
  {
    hide Less, Items, NoRepeat;
    if i + 1 < |s| {
      var b := Best(keys, s, i, |s|);
      SwapKeeps(s, i, b);
      BestSettles(keys, s, i, b);
      hide Swap, Settled;
      SelectSorts(keys, Swap(s, i, b), i + 1);
    }
  }

  /** A section is a maximal choice of its candidates, best first. */
  lemma SectionIsTop(keys: seq<Key>, excluded: set<nat>, max: nat)
    ensures Top(keys, Eligible(keys, excluded, |keys|), max, Section(keys, excluded, max))
    ensures Sorted(keys, Section(keys, excluded, max))
  {
    var all := Candidates(keys, excluded, |keys|);
    SelectSorts(keys, all, 0);
    var sorted := SelectSort(keys, all, 0);
    ItemsSize(all);
    var s := Section(keys, excluded, max);
    assert forall i :: 0 <= i < |s| ==> s[i] == sorted[i] && sorted[i] in Items(sorted);
    forall x, i | x in Items(sorted) && x !in s && 0 <= i < |s|
      ensures !Less(keys[s[i]], keys[x])
    {
      var k :| 0 <= k < |sorted| && sorted[k] == x;
    }
  }

  // ---- the snapshot ----

  datatype Snapshot = Snapshot(nearby: seq<nat>, following: seq<nat>, detected: seq<nat>)

  function SnapshotOf(t: seq<Device>, now: UInt32): Snapshot {
    var nearby := NearbyIdx(t, now, FOX_NEARBY_SECTION_MAX);
    var following := Section(FollowKeys(t, now), Items(nearby), FOX_FOLLOWING_SECTION_MAX);
    var detected := Section(DetectedKeys(t, now), Items(nearby) + Items(following), FOX_DETECTED_SECTION_MAX);
    Snapshot(nearby, following, detected)
  }

  function FollowingEligible(t: seq<Device>, now: UInt32, taken: set<nat>): set<nat> {
    set i: nat | i < |t| && i !in taken && Following(t[i], now)
  }

  function DetectedEligible(t: seq<Device>, now: UInt32, taken: set<nat>): set<nat> {
    set i: nat | i < |t| && i !in taken && Age(t[i], now) <= FOX_DETECTED_RECENT_MS
  }

  /** Every section is the sorted top of the devices that qualify and are not shown above it, and
      no device is shown twice. */
  lemma SnapshotSections(t: seq<Device>, now: UInt32)
    ensures var snap := SnapshotOf(t, now);
      && Top(NearbyKeys(t), NearbyEligible(t, now, |t|), FOX_NEARBY_SECTION_MAX, snap.nearby)
      && Sorted(NearbyOrder(t), snap.nearby)
      && Top(FollowKeys(t, now), FollowingEligible(t, now, Items(snap.nearby)), FOX_FOLLOWING_SECTION_MAX,
             snap.following)
      && Sorted(FollowKeys(t, now), snap.following)
      && Top(DetectedKeys(t, now), DetectedEligible(t, now, Items(snap.nearby) + Items(snap.following)),
             FOX_DETECTED_SECTION_MAX, snap.detected)
      && Sorted(DetectedKeys(t, now), snap.detected)
      && NoRepeat(snap.nearby + snap.following + snap.detected)
  {
    var snap := SnapshotOf(t, now);
    NearbyIsTop(t, now, FOX_NEARBY_SECTION_MAX);
    var two := Items(snap.nearby) + Items(snap.following);
    SectionIsTop(FollowKeys(t, now), Items(snap.nearby), FOX_FOLLOWING_SECTION_MAX);
    SectionIsTop(DetectedKeys(t, now), two, FOX_DETECTED_SECTION_MAX);
    assert FollowingEligible(t, now, Items(snap.nearby)) == Eligible(FollowKeys(t, now), Items(snap.nearby), |t|);
    assert DetectedEligible(t, now, two) == Eligible(DetectedKeys(t, now), two, |t|);
    SectionsApart(snap.nearby, snap.following, snap.detected);
  }

  lemma SectionsApart(a: seq<nat>, b: seq<nat>, c: seq<nat>)
    requires NoRepeat(a) && NoRepeat(b) && NoRepeat(c)
    requires Items(a) !! Items(b) && Items(a) + Items(b) !! Items(c)
    ensures NoRepeat(a + b + c)
  {
    assert forall i :: 0 <= i < |a| ==> a[i] in Items(a);
    assert forall i :: 0 <= i < |b| ==> b[i] in Items(b);
    assert forall i :: 0 <= i < |c| ==> c[i] in Items(c);
  }

  // ---- the sections in terms of the fields of the devices ----

  predicate NoWeaker(d: Device, e: Device) {
    d.rssi > e.rssi || (d.rssi == e.rssi && d.rssiBest >= e.rssiBest)
  }

  predicate NoWeakerOrRarer(d: Device, e: Device) {
    NoWeaker(d, e) && (d.rssi == e.rssi && d.rssiBest == e.rssiBest ==> d.hitCount >= e.hitCount)
  }

  lemma NearbyComparisons(t: seq<Device>, i: nat, j: nat)
    requires i < |t| && j < |t|
    ensures !Less(NearbyKeys(t)[i], NearbyKeys(t)[j]) <==> NoWeaker(t[i], t[j])
    ensures !Less(NearbyOrder(t)[i], NearbyOrder(t)[j]) <==> NoWeakerOrRarer(t[i], t[j])
  {
  }

  lemma ChosenByKeys(t: seq<Device>, eligible: set<nat>, max: nat, s: seq<nat>)
    requires Top(NearbyKeys(t), eligible, max, s) && forall x :: x in eligible ==> x < |t|
    ensures forall i :: 0 <= i < |s| ==> s[i] in eligible
    ensures forall i, x :: 0 <= i < |s| && x in eligible && x !in s ==> NoWeaker(t[s[i]], t[x])
  {
    hide Less, NoWeaker, NearbyKeys;
    TopMembers(NearbyKeys(t), eligible, max, s);
    forall i, x | 0 <= i < |s| && x in eligible && x !in s
      ensures NoWeaker(t[s[i]], t[x])
    {
      NearbyComparisons(t, s[i], x);
    }
  }

  lemma OrderedByKeys(t: seq<Device>, s: seq<nat>)
    requires Indices(NearbyOrder(t), s) && Sorted(NearbyOrder(t), s)
    ensures forall i, j :: 0 <= i < j < |s| ==> NoWeakerOrRarer(t[s[i]], t[s[j]])
  {
    hide Less, NoWeakerOrRarer, NearbyOrder;
    forall i, j | 0 <= i < j < |s|
      ensures NoWeakerOrRarer(t[s[i]], t[s[j]])
    {
      NearbyComparisons(t, s[i], s[j]);
    }
  }

  /** The nearby section: of the devices seen within 8 seconds with at least -95 dBm the four strongest,
      ties by the best signal, shown in this order, then by hits. */
  lemma NearbyShown(t: seq<Device>, now: UInt32)
    ensures var s := SnapshotOf(t, now).nearby;
      var fit := set i: nat | i < |t| && now - t[i].lastSeen <= 8000 && t[i].rssi >= -95;
      && |s| == (if |fit| < 4 then |fit| else 4)
      && (forall i :: 0 <= i < |s| ==> s[i] in fit)
      && (forall i, x :: 0 <= i < |s| && x in fit && x !in s ==> NoWeaker(t[s[i]], t[x]))
      && (forall i, j :: 0 <= i < j < |s| ==> NoWeakerOrRarer(t[s[i]], t[s[j]]))
  {
    NearbyIsTop(t, now, 4);
    var s := SnapshotOf(t, now).nearby;
    var fit := set i: nat | i < |t| && now - t[i].lastSeen <= 8000 && t[i].rssi >= -95;
    assert fit == NearbyEligible(t, now, |t|);
    hide NearbyIdx, NearbyEligible, FollowKeys, DetectedKeys, Section, NearbyOrder, NearbyKeys, Less, NoWeaker,
      NoWeakerOrRarer, Sorted;
    ChosenByKeys(t, fit, 4, s);
    OrderedByKeys(t, s);
  }

  lemma TopMembers(keys: seq<Key>, eligible: set<nat>, max: nat, s: seq<nat>)
    requires Top(keys, eligible, max, s)
    ensures forall i :: 0 <= i < |s| ==> s[i] in eligible
  {
    assert forall i :: 0 <= i < |s| ==> s[i] in Items(s);
  }

  /** The following section: of the devices not shown above and seen within 12 seconds, for 20 seconds, at
      least four times, with -82 dBm now or -78 at best, the four with the highest scores, in this order,
      ties by signal, then by hits. */
  lemma FollowingShown(t: seq<Device>, now: UInt32)
    ensures var snap := SnapshotOf(t, now);
      var s := snap.following;
      var fit := set i: nat | i < |t| && i !in snap.nearby && now - t[i].lastSeen <= 12000
        && t[i].lastSeen - t[i].firstSeen >= 20000 && t[i].hitCount >= 4 && (t[i].rssi >= -82 || t[i].rssiBest >= -78);
      && |s| == (if |fit| < 4 then |fit| else 4)
      && (forall i :: 0 <= i < |s| ==> s[i] in fit)
      && (forall i, x :: 0 <= i < |s| && x in fit && x !in s ==> NoLessFollowed(t[s[i]], t[x], now))
      && (forall i, j :: 0 <= i < j < |s| ==> NoLessFollowed(t[s[i]], t[s[j]], now))
  {
    SnapshotSections(t, now);
    var snap := SnapshotOf(t, now);
    var s := snap.following;
    var fit := set i: nat | i < |t| && i !in snap.nearby && now - t[i].lastSeen <= 12000
      && t[i].lastSeen - t[i].firstSeen >= 20000 && t[i].hitCount >= 4 && (t[i].rssi >= -82 || t[i].rssiBest >= -78);
    assert fit == FollowingEligible(t, now, Items(snap.nearby)) by {
      hide FollowScore, SnapshotOf, Top, Sorted, NoRepeat;
      assert forall i: nat :: i < |t| ==> (FollowScore(t[i], now) == INT32_MIN <==> !Following(t[i], now));
    }
    hide SnapshotOf, FollowingEligible, DetectedEligible, FollowScore, Following, FollowKeys;
    TopMembers(FollowKeys(t, now), fit, 4, s);
    forall i: nat, j: nat | i < |t| && j < |t| && !Less(FollowKeys(t, now)[i], FollowKeys(t, now)[j])
      ensures NoLessFollowed(t[i], t[j], now)
    {
      FollowCompare(t, now, i, j);
    }
    hide Less, NoLessFollowed;
  }

  predicate NoLessFollowed(d: Device, e: Device, now: UInt32) {
    || FollowScore(d, now) > FollowScore(e, now)
    || (FollowScore(d, now) == FollowScore(e, now)
        && (d.rssi > e.rssi || (d.rssi == e.rssi && d.hitCount >= e.hitCount)))
  }

  /** The detected section: of the other devices seen within 30 seconds the six with the highest scores, in
      this order, ties by the later sighting, then by signal. Sightings that seem to lie ahead are all
      just now. */
  lemma DetectedShown(t: seq<Device>, now: UInt32)
    ensures var snap := SnapshotOf(t, now);
      var s := snap.detected;
      var fit := set i: nat | i < |t| && i !in snap.nearby && i !in snap.following && now - t[i].lastSeen <= 30000;
      && |s| == (if |fit| < 6 then |fit| else 6)
      && (forall i :: 0 <= i < |s| ==> s[i] in fit)
      && (forall i, x :: 0 <= i < |s| && x in fit && x !in s ==> NoLessDetected(t[s[i]], t[x], now))
      && (forall i, j :: 0 <= i < j < |s| ==> NoLessDetected(t[s[i]], t[s[j]], now))
  {
    SnapshotSections(t, now);
    var snap := SnapshotOf(t, now);
    var s := snap.detected;
    var fit := set i: nat | i < |t| && i !in snap.nearby && i !in snap.following && now - t[i].lastSeen <= 30000;
    assert fit == DetectedEligible(t, now, Items(snap.nearby) + Items(snap.following)) by {
      hide SnapshotOf, Top, Sorted, NoRepeat;
    }
    hide SnapshotOf, FollowingEligible, DetectedEligible, DetectedScore, DetectedKeys, Age;
    TopMembers(DetectedKeys(t, now), fit, 6, s);
    forall i: nat, j: nat | i < |t| && j < |t| && !Less(DetectedKeys(t, now)[i], DetectedKeys(t, now)[j])
      ensures NoLessDetected(t[i], t[j], now)
    {
      DetectedOrder(t, now, i, j);
    }
    hide Less, NoLessDetected;
  }

  predicate NoLessDetected(d: Device, e: Device, now: UInt32) {
    || DetectedScore(d, now) > DetectedScore(e, now)
    || (DetectedScore(d, now) == DetectedScore(e, now)
        && if d.lastSeen >= now && e.lastSeen >= now then d.rssi >= e.rssi
           else d.lastSeen > e.lastSeen || (d.lastSeen == e.lastSeen && d.rssi >= e.rssi))
  }

  lemma DetectedOrder(t: seq<Device>, now: UInt32, i: nat, j: nat)
    requires i < |t| && j < |t| && !Less(DetectedKeys(t, now)[i], DetectedKeys(t, now)[j])
    ensures NoLessDetected(t[i], t[j], now)
  {
    hide DetectedScore;
    DetectedCompare(t, now, i, j);
  }

  /** The sections hold positions of the table. */
  lemma SnapshotInTable(t: seq<Device>, now: UInt32)
    ensures var snap := SnapshotOf(t, now);
      && (forall k :: 0 <= k < |snap.nearby| ==> snap.nearby[k] < |t|)
      && (forall k :: 0 <= k < |snap.following| ==> snap.following[k] < |t|)
      && forall k :: 0 <= k < |snap.detected| ==> snap.detected[k] < |t|
  {
    hide NearbyIdx, Section, FollowKeys, DetectedKeys, NearbyOrder;
    var snap := SnapshotOf(t, now);
    assert Indices(NearbyOrder(t), snap.nearby);
    assert Indices(FollowKeys(t, now), snap.following);
    assert Indices(DetectedKeys(t, now), snap.detected);
  }

  // ---- the view index ----

  /** What a row of the registry screen stands for. */
  datatype Item = Saved(entry: nat) | Candidate(device: nat)

  function ViewCount(registryCount: nat, snap: Snapshot): nat {
    registryCount + |snap.nearby| + |snap.following| + |snap.detected|
  }

  /** The branches of the selection by view index. */
  function ViewItem(registryCount: nat, snap: Snapshot, index: int): (item: seq<Item>)
    ensures |item| <= 1
  {
    if index < 0 then []
    else if index < registryCount then [Saved(index)]
    else
      var local := index - registryCount;
      if 0 <= local < |snap.nearby| then [Candidate(snap.nearby[local])]
      else
        var follow := local - |snap.nearby|;
        if 0 <= follow < |snap.following| then [Candidate(snap.following[follow])]
        else
          var detected := follow - |snap.following|;
          if 0 <= detected < |snap.detected| then [Candidate(snap.detected[detected])] else []
  }

  /** The screen from top to bottom. */
  function Screen(registryCount: nat, snap: Snapshot): (rows: seq<Item>)
    ensures |rows| == ViewCount(registryCount, snap)
  {
    var devices := snap.nearby + snap.following + snap.detected;
    seq(registryCount, i requires 0 <= i => Saved(i))
      + seq(|devices|, i requires 0 <= i < |devices| => Candidate(devices[i]))
  }

  /** The indices below the count, and no others, select the rows of the screen in order; no two
      of them select the same thing. */
  lemma ViewIsScreen(t: seq<Device>, now: UInt32, registryCount: nat, index: int)
    ensures var snap := SnapshotOf(t, now);
      var rows := Screen(registryCount, snap);
      && ViewItem(registryCount, snap, index)
        == (if 0 <= index < ViewCount(registryCount, snap) then [rows[index]] else [])
      && forall i, j :: 0 <= i < j < |rows| ==> rows[i] != rows[j]
  {
    SnapshotSections(t, now);
    var snap := SnapshotOf(t, now);
    hide SnapshotOf, Top, Sorted;
    RowAt(registryCount, snap, index);
    RowsDiffer(registryCount, snap);
  }

  lemma RowAt(registryCount: nat, snap: Snapshot, index: int)
    ensures var rows := Screen(registryCount, snap);
      ViewItem(registryCount, snap, index) == (if 0 <= index < |rows| then [rows[index]] else [])
  {
  }

  lemma RowsDiffer(registryCount: nat, snap: Snapshot)
    requires NoRepeat(snap.nearby + snap.following + snap.detected)
    ensures var rows := Screen(registryCount, snap); forall i, j :: 0 <= i < j < |rows| ==> rows[i] != rows[j]
  {
    var devices := snap.nearby + snap.following + snap.detected;
    var rows := Screen(registryCount, snap);
    assert forall i :: 0 <= i < |rows| ==>
      rows[i] == if i < registryCount then Saved(i) else Candidate(devices[i - registryCount]);
  }
}
