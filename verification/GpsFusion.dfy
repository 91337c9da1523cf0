/** The fused position pins of `main/web_server.c`, over real numbers. */
module GpsFusion {
  const SAMPLES_MAX := 65535

  datatype Sample = Sample(lat: real, lon: real, rssi: int)

  /** A position with the accuracy circle that is shown for it. */
  datatype Pin = Pin(lat: real, lon: real, weightSum: real, samples: nat, radius: real)

  /** `approx_distance_m`, whatever it computes. */
  type Distance = (real, real, real, real) -> real

  function Clamp(v: real, lo: real, hi: real): real {
    if v < lo then lo else if v > hi then hi else v
  }

  function Norm(rssi: int): (n: real)
    ensures 0.0 <= n <= 1.0
  {
    Clamp((rssi as real + 95.0) / 50.0, 0.0, 1.0)
  }

  /** `rssi_weight_from_dbm` */
  function Weight(rssi: int): (w: real)
    ensures 0.35 <= w <= 2.0
  {
    0.35 + Norm(rssi) * 1.65
  }

  /** `assumed_radius_from_rssi` */
  function AssumedRadius(rssi: int, droneMode: bool): real {
    if droneMode then 55.0 + (1.0 - Norm(rssi)) * 245.0 else 6.0 + (1.0 - Norm(rssi)) * 64.0
  }

  function CountUp(samples: nat): nat { if samples < SAMPLES_MAX then samples + 1 else samples }

  /** The mean of `x` with weight `v` and `y` with weight `w`. */
  function Mean(x: real, v: real, y: real, w: real): real
    requires v + w != 0.0
  {
    (x * v + y * w) / (v + w)
  }

  /** `y` with share `alpha`, `x` with the rest. */
  function Blend(x: real, y: real, alpha: real): real {
    x * (1.0 - alpha) + y * alpha
  }

  function FoxRadius(radius: real, rssi: int, d: real): real {
    var instant := AssumedRadius(rssi, false) + d * 0.42;
    Clamp(radius * 0.78 + instant * 0.22, 6.0, 110.0)
  }

  function SkyRadius(radius: real, rssi: int, d: real): real {
    var instant := AssumedRadius(rssi, true) + d * 0.90;
    Clamp(radius * 0.72 + instant * 0.28, 40.0, 500.0)
  }

  /** `update_fox_fused_pin` */
  function FoxStep(dist: Distance, p: Pin, s: Sample): Pin {
    var w := Weight(s.rssi);
    if p.samples == 0 || p.weightSum <= 0.0 then
      Pin(s.lat, s.lon, w, 1, Clamp(AssumedRadius(s.rssi, false), 6.0, 90.0))
    else
      Pin(Mean(p.lat, p.weightSum, s.lat, w), Mean(p.lon, p.weightSum, s.lon, w), p.weightSum + w,
          CountUp(p.samples), FoxRadius(p.radius, s.rssi, dist(p.lat, p.lon, s.lat, s.lon)))
  }

  function Alpha(rssi: int): (alpha: real)
    ensures 0.676 <= alpha <= 0.9
  {
    Clamp(0.62 + Weight(rssi) * 0.16, 0.62, 0.90)
  }

  /** `update_sky_fused_pin` */
  function SkyStep(dist: Distance, p: Pin, s: Sample): Pin {
    if p.samples == 0 then
      Pin(s.lat, s.lon, p.weightSum, 1, Clamp(AssumedRadius(s.rssi, true), 40.0, 320.0))
    else
      Pin(Blend(p.lat, s.lat, Alpha(s.rssi)), Blend(p.lon, s.lon, Alpha(s.rssi)), p.weightSum,
          CountUp(p.samples), SkyRadius(p.radius, s.rssi, dist(p.lat, p.lon, s.lat, s.lon)))
  }

  /** The state of the application before any sample. */
  const NO_PIN := Pin(0.0, 0.0, 0.0, 0, 0.0)

  function FoxAfter(dist: Distance, log: seq<Sample>): Pin {
    if log == [] then NO_PIN else FoxStep(dist, FoxAfter(dist, log[..|log| - 1]), log[|log| - 1])
  }

  function SkyAfter(dist: Distance, log: seq<Sample>): Pin {
    if log == [] then NO_PIN else SkyStep(dist, SkyAfter(dist, log[..|log| - 1]), log[|log| - 1])
  }

  // ---- the batch answer ----

  datatype Term = One | Lat | Lon

  function Value(s: Sample, t: Term): real {
    match t
    case One => Weight(s.rssi)
    case Lat => Weight(s.rssi) * s.lat
    case Lon => Weight(s.rssi) * s.lon
  }

  /** The sum of weights, or of weighted coordinates, over all samples at once. */
  function Sum(log: seq<Sample>, t: Term): real {
    if log == [] then 0.0 else Sum(log[..|log| - 1], t) + Value(log[|log| - 1], t)
  }

  lemma MeanTimes(x: real, v: real, y: real, w: real)
    requires v + w > 0.0
    ensures Mean(x, v, y, w) * (v + w) == x * v + y * w
  {
    var a, b := x * v + y * w, v + w;
    assert (a / b) * b == a;
  }

  lemma MeanStep(x: real, v: real, y: real, w: real, sum: real, term: real)
    requires v + w > 0.0 && x * v == sum && w * y == term
    ensures Mean(x, v, y, w) * (v + w) == sum + term
  {
    MeanTimes(x, v, y, w);
  }

  lemma {:induction false} FoxCounts(dist: Distance, log: seq<Sample>)
    ensures FoxAfter(dist, log).samples == if |log| < 65535 then |log| else 65535
    ensures log != [] ==> FoxAfter(dist, log).weightSum > 0.0
    decreases |log|
  {
    if log != [] {
      FoxCounts(dist, log[..|log| - 1]);
      hide Mean, FoxRadius, Weight;
    }
  }

  lemma {:induction false} FoxFirst(dist: Distance, log: seq<Sample>)
    requires |log| == 1
    ensures var p := FoxAfter(dist, log);
      && p == Pin(log[0].lat, log[0].lon, Weight(log[0].rssi), 1, Clamp(AssumedRadius(log[0].rssi, false), 6.0, 90.0))
      && Sum(log, One) == Weight(log[0].rssi)
      && Sum(log, Lat) == Weight(log[0].rssi) * log[0].lat
      && Sum(log, Lon) == Weight(log[0].rssi) * log[0].lon
  {
    assert log[..0] == [];
    assert forall t :: Sum([], t) == 0.0;
  }

  lemma {:induction false} FoxNext(dist: Distance, log: seq<Sample>)
    requires |log| > 1 && FoxAfter(dist, log[..|log| - 1]).samples > 0
      && FoxAfter(dist, log[..|log| - 1]).weightSum > 0.0
    ensures var p, q, s := FoxAfter(dist, log[..|log| - 1]), FoxAfter(dist, log), log[|log| - 1];
      var w := Weight(s.rssi);
      && q.lat == Mean(p.lat, p.weightSum, s.lat, w) && q.lon == Mean(p.lon, p.weightSum, s.lon, w)
      && q.weightSum == p.weightSum + w && q.samples == CountUp(p.samples)
      && 6.0 <= q.radius <= 110.0
  {
    hide Mean, Weight;
  }

  lemma {:induction false} SumNext(log: seq<Sample>, t: Term)
    requires log != []
    ensures Sum(log, t) == Sum(log[..|log| - 1], t) + Value(log[|log| - 1], t)
  {
  }

  predicate IsMean(x: real, weight: real, sum: real) { x * weight == sum }

  lemma MeanKept(x: real, v: real, y: real, w: real, sum: real, term: real)
    requires v + w > 0.0 && IsMean(x, v, sum) && w * y == term
    ensures IsMean(Mean(x, v, y, w), v + w, sum + term)
  {
    MeanStep(x, v, y, w, sum, term);
  }

  lemma {:induction false} FoxSums(dist: Distance, log: seq<Sample>)
    requires log != []
    ensures var p := FoxAfter(dist, log);
      && p.weightSum == Sum(log, One) >= 0.35
      && IsMean(p.lat, p.weightSum, Sum(log, Lat)) && IsMean(p.lon, p.weightSum, Sum(log, Lon))
      && 6.0 <= p.radius <= 110.0
    decreases |log|
  {
    if |log| == 1 {
      FoxFirst(dist, log);
    } else {
      var before, s := log[..|log| - 1], log[|log| - 1];
      FoxSums(dist, before);
      FoxCounts(dist, before);
      FoxNext(dist, log);
      SumNext(log, One);
      SumNext(log, Lat);
      SumNext(log, Lon);
      hide FoxAfter, Mean, Weight, Sum, CountUp, IsMean;
      var p, w := FoxAfter(dist, before), Weight(s.rssi);
      MeanKept(p.lat, p.weightSum, s.lat, w, Sum(before, Lat), Value(s, Lat));
      MeanKept(p.lon, p.weightSum, s.lon, w, Sum(before, Lon), Value(s, Lon));
    }
  }

  /** The fox pin is the weighted mean of every sample so far. */
  lemma {:induction false} FoxIsWeightedMean(dist: Distance, log: seq<Sample>)
    requires log != []
    ensures var p := FoxAfter(dist, log);
      && p.weightSum == Sum(log, One) && Sum(log, One) >= 0.35
      && p.lat * p.weightSum == Sum(log, Lat)
      && p.lon * p.weightSum == Sum(log, Lon)
      && p.samples == (if |log| < 65535 then |log| else 65535)
      && 6.0 <= p.radius <= 110.0
  {
    hide FoxAfter, Sum;
    FoxSums(dist, log);
    FoxCounts(dist, log);
  }

  /** Sums do not see the order of the samples. */
  lemma {:induction false} SumIgnoresOrder(a: seq<Sample>, b: seq<Sample>, t: Term)
    requires multiset(a) == multiset(b)
    ensures Sum(a, t) == Sum(b, t)
    decreases |a|
  {
    hide Sum, Value;
    if a == [] {
      assert |multiset(b)| == |b|;
      assert b == [];
    } else {
      var n := |a| - 1;
      var x := a[n];
      assert a == a[..n] + [x];
      assert x in multiset(b);
      var i :| 0 <= i < |b| && b[i] == x;
      assert b == b[..i] + [x] + b[i + 1..];
      var rest := b[..i] + b[i + 1..];
      assert multiset(a) == multiset(a[..n]) + multiset{x};
      assert multiset(b) == multiset(rest) + multiset{x};
      assert multiset(a[..n]) == multiset(a) - multiset{x};
      assert multiset(rest) == multiset(b) - multiset{x};
      SumIgnoresOrder(a[..n], rest, t);
      SumWithout(b, i, t);
      SumNext(a, t);
    }
  }

  lemma {:induction false} SumWithout(log: seq<Sample>, i: nat, t: Term)
    requires i < |log|
    ensures Sum(log, t) == Sum(log[..i] + log[i + 1..], t) + Value(log[i], t)
    decreases |log|
  {
    var n := |log| - 1;
    if i == n {
      assert log[..i] + log[i + 1..] == log[..n];
    } else {
      SumWithout(log[..n], i, t);
      var rest := log[..i] + log[i + 1..];
      assert rest[..n - 1] == log[..n][..i] + log[..n][i + 1..];
      assert rest[n - 1] == log[n];
    }
  }

  lemma SameQuotient(x: real, y: real, w: real, v: real)
    requires w > 0.0 && x * w == v && y * w == v
    ensures x == y
  {
    assert (x - y) * w == 0.0;
  }

  /** In whatever order the same samples arrive, the fox pin ends up in the same place. */
  lemma {:induction false} FoxIgnoresOrder(dist: Distance, a: seq<Sample>, b: seq<Sample>)
    requires a != [] && multiset(a) == multiset(b)
    ensures var p, q := FoxAfter(dist, a), FoxAfter(dist, b);
      p.lat == q.lat && p.lon == q.lon && p.weightSum == q.weightSum && p.samples == q.samples
  {
    hide FoxAfter, Sum;
    assert |multiset(a)| == |a| && |multiset(b)| == |b|;
    FoxIsWeightedMean(dist, a);
    FoxIsWeightedMean(dist, b);
    SumIgnoresOrder(a, b, One);
    SumIgnoresOrder(a, b, Lat);
    SumIgnoresOrder(a, b, Lon);
    var p, q := FoxAfter(dist, a), FoxAfter(dist, b);
    SameQuotient(p.lat, q.lat, p.weightSum, Sum(a, Lat));
    SameQuotient(p.lon, q.lon, p.weightSum, Sum(a, Lon));
  }

  /** A stronger signal weighs more and assumes a smaller circle: in between linearly, below -95 and
      above -45 dBm like there. */
  lemma StrongerIsNearer(weak: int, strong: int, droneMode: bool)
    requires weak <= strong
    ensures Weight(weak) <= Weight(strong) && Alpha(weak) <= Alpha(strong)
    ensures AssumedRadius(strong, droneMode) <= AssumedRadius(weak, droneMode)
    ensures weak <= -95 ==>
      Weight(weak) == 0.35 && AssumedRadius(weak, false) == 70.0 && AssumedRadius(weak, true) == 300.0
    ensures -95 <= weak <= -45 ==>
      var above := (weak + 95) as real;
      && Weight(weak) == 0.35 + 0.033 * above
      && AssumedRadius(weak, false) == 70.0 - 1.28 * above && AssumedRadius(weak, true) == 300.0 - 4.9 * above
    ensures strong >= -45 ==>
      Weight(strong) == 2.0 && AssumedRadius(strong, false) == 6.0 && AssumedRadius(strong, true) == 55.0
  {
    assert Norm(weak) <= Norm(strong);
  }

  /** The share of a new sample in the sky pin: from 0.676 linearly up to nine tenths. */
  lemma ShareIs(rssi: int)
    ensures rssi <= -95 ==> Alpha(rssi) == 0.676
    ensures -95 <= rssi <= -53 ==> Alpha(rssi) == 0.676 + 0.00528 * (rssi + 95) as real
    ensures rssi >= -52 ==> Alpha(rssi) == 0.9
  {
    StrongerIsNearer(rssi, rssi, true);
    hide Norm, Weight;
    if -95 <= rssi <= -45 {
      var above := (rssi + 95) as real;
      assert 0.62 + Weight(rssi) * 0.16 == 0.676 + 0.00528 * above;
    }
  }

  // ---- bounds ----

  predicate Within(log: seq<Sample>, south: real, north: real, west: real, east: real) {
    forall i :: 0 <= i < |log| ==> south <= log[i].lat <= north && west <= log[i].lon <= east
  }

  lemma Product(a: real, b: real)
    requires a >= 0.0 && b >= 0.0
    ensures a * b >= 0.0
  {
  }

  lemma SignOf(a: real, b: real)
    requires b > 0.0 && a * b >= 0.0
    ensures a >= 0.0
  {
  }

  /** A weighted mean of two values lies between bounds of both. */
  lemma MeanBetween(x: real, v: real, y: real, w: real, lo: real, hi: real)
    requires v > 0.0 && w > 0.0 && lo <= x <= hi && lo <= y <= hi
    ensures lo <= Mean(x, v, y, w) <= hi
  {
    var m := Mean(x, v, y, w);
    MeanTimes(x, v, y, w);
    hide Mean;
    Product(x - lo, v);
    Product(y - lo, w);
    Product(hi - x, v);
    Product(hi - y, w);
    assert (m - lo) * (v + w) == (x - lo) * v + (y - lo) * w;
    assert (hi - m) * (v + w) == (hi - x) * v + (hi - y) * w;
    SignOf(m - lo, v + w);
    SignOf(hi - m, v + w);
  }

  /** The fox pin lies in the box of its samples. */
  lemma {:induction false} FoxInRange(dist: Distance, log: seq<Sample>, south: real, north: real, west: real,
                                      east: real)
    requires log != [] && Within(log, south, north, west, east)
    ensures var p := FoxAfter(dist, log); south <= p.lat <= north && west <= p.lon <= east
    decreases |log|
  {
    if |log| == 1 {
      FoxFirst(dist, log);
    } else {
      var before, s := log[..|log| - 1], log[|log| - 1];
      FoxInRange(dist, before, south, north, west, east);
      FoxIsWeightedMean(dist, before);
      FoxNext(dist, log);
      hide FoxAfter, Mean, Weight, Sum;
      var p, w := FoxAfter(dist, before), Weight(s.rssi);
      MeanBetween(p.lat, p.weightSum, s.lat, w, south, north);
      MeanBetween(p.lon, p.weightSum, s.lon, w, west, east);
    }
  }

  lemma BlendBetween(x: real, y: real, alpha: real, lo: real, hi: real)
    requires 0.0 <= alpha <= 1.0 && lo <= x <= hi && lo <= y <= hi
    ensures lo <= Blend(x, y, alpha) <= hi
  {
    Product(x - lo, 1.0 - alpha);
    Product(y - lo, alpha);
    Product(hi - x, 1.0 - alpha);
    Product(hi - y, alpha);
    var b := Blend(x, y, alpha);
    assert b - lo == (x - lo) * (1.0 - alpha) + (y - lo) * alpha;
    assert hi - b == (hi - x) * (1.0 - alpha) + (hi - y) * alpha;
  }

  lemma {:induction false} SkyFirst(dist: Distance, log: seq<Sample>)
    requires |log| == 1
    ensures SkyAfter(dist, log)
      == Pin(log[0].lat, log[0].lon, 0.0, 1, Clamp(AssumedRadius(log[0].rssi, true), 40.0, 320.0))
  {
    assert log[..0] == [];
  }

  lemma {:induction false} SkyNext(dist: Distance, log: seq<Sample>)
    requires |log| > 1
    ensures var p, q, s := SkyAfter(dist, log[..|log| - 1]), SkyAfter(dist, log), log[|log| - 1];
      && q.lat == Blend(p.lat, s.lat, Alpha(s.rssi)) && q.lon == Blend(p.lon, s.lon, Alpha(s.rssi))
      && q.samples == CountUp(p.samples) && 40.0 <= q.radius <= 500.0
  {
    SkyCounts(dist, log[..|log| - 1]);
    hide Blend, Alpha;
  }

  lemma {:induction false} SkyCounts(dist: Distance, log: seq<Sample>)
    requires log != []
    ensures SkyAfter(dist, log).samples > 0
  {
  }

  /** The sky pin lies in the box of its samples, its radius in its own limits. */
  lemma {:induction false} SkyInRange(dist: Distance, log: seq<Sample>, south: real, north: real, west: real,
                                      east: real)
    requires log != [] && Within(log, south, north, west, east)
    ensures var p := SkyAfter(dist, log); south <= p.lat <= north && west <= p.lon <= east && 40.0 <= p.radius <= 500.0
    ensures SkyAfter(dist, log).samples == (if |log| < 65535 then |log| else 65535)
    decreases |log|
  {
    if |log| == 1 {
      SkyFirst(dist, log);
    } else {
      var before, s := log[..|log| - 1], log[|log| - 1];
      SkyInRange(dist, before, south, north, west, east);
      SkyNext(dist, log);
      hide SkyAfter, Alpha, Blend;
      var p := SkyAfter(dist, before);
      BlendBetween(p.lat, s.lat, Alpha(s.rssi), south, north);
      BlendBetween(p.lon, s.lon, Alpha(s.rssi), west, east);
    }
  }

  // ---- convergence of the sky pin ----

  function Abs(x: real): real { if x < 0.0 then -x else x }

  function Power(base: real, n: nat): real {
    if n == 0 then 1.0 else base * Power(base, n - 1)
  }

  /** `n` samples at the same place. */
  predicate AllAt(log: seq<Sample>, lat: real, lon: real) {
    forall i :: 0 <= i < |log| ==> log[i].lat == lat && log[i].lon == lon
  }

  lemma Shrinks(x: real, y: real, alpha: real, bound: real)
    requires 0.676 <= alpha <= 1.0 && Abs(x - y) <= bound
    ensures Abs(Blend(x, y, alpha) - y) <= 0.324 * bound
  {
    var d, r := Abs(x - y), 1.0 - alpha;
    assert Blend(x, y, alpha) - y == (x - y) * r;
    Product(d, r);
    Product(d, 0.324 - r);
    assert d * (0.324 - r) == 0.324 * d - d * r;
    assert (x - y) * r == if x < y then -(d * r) else d * r;
  }

  /** What is left of a distance after `n` samples. */
  function Left(n: nat, start: real): real { Power(0.324, n) * start }

  lemma NothingLost(start: real)
    ensures Left(0, start) == start
  {
  }

  lemma ShrinksAgain(x: real, y: real, alpha: real, n: nat, start: real)
    requires 0.676 <= alpha <= 1.0 && Abs(x - y) <= Left(n, start)
    ensures Abs(Blend(x, y, alpha) - y) <= Left(n + 1, start)
  {
    Shrinks(x, y, alpha, Left(n, start));
    assert Power(0.324, n + 1) == 0.324 * Power(0.324, n);
    hide Blend, Abs, Power;
    assert 0.324 * (Power(0.324, n) * start) == (0.324 * Power(0.324, n)) * start;
  }

  lemma {:induction false} SkyShrinks(dist: Distance, log: seq<Sample>, more: seq<Sample>, lat: real, lon: real)
    requires log != [] && AllAt(more, lat, lon)
    ensures var p, q := SkyAfter(dist, log), SkyAfter(dist, log + more);
      Abs(q.lat - lat) <= Left(|more|, Abs(p.lat - lat)) && Abs(q.lon - lon) <= Left(|more|, Abs(p.lon - lon))
    decreases |more|
  {
    hide SkyAfter, Alpha, Blend, Left;
    if more == [] {
      assert log + more == log;
      NothingLost(Abs(SkyAfter(dist, log).lat - lat));
      NothingLost(Abs(SkyAfter(dist, log).lon - lon));
    } else {
      var n := |more| - 1;
      var prior, s := log + more[..n], more[n];
      SkyShrinks(dist, log, more[..n], lat, lon);
      assert log + more == prior + [s] && (prior + [s])[..|prior|] == prior;
      SkyNext(dist, prior + [s]);
      hide Abs;
      var p, q := SkyAfter(dist, log), SkyAfter(dist, prior);
      ShrinksAgain(q.lat, lat, Alpha(s.rssi), n, Abs(p.lat - lat));
      ShrinksAgain(q.lon, lon, Alpha(s.rssi), n, Abs(p.lon - lon));
    }
  }

  /** Repeated samples at one place pull the sky pin there: each leaves at most 0.324 of the
      distance that was left, wherever the pin was before. */
  lemma {:induction false} SkyConverges(dist: Distance, log: seq<Sample>, more: seq<Sample>, lat: real, lon: real)
    requires log != [] && AllAt(more, lat, lon)
    ensures var p, q := SkyAfter(dist, log), SkyAfter(dist, log + more);
      && Abs(q.lat - lat) <= Power(0.324, |more|) * Abs(p.lat - lat)
      && Abs(q.lon - lon) <= Power(0.324, |more|) * Abs(p.lon - lon)
  {
    hide SkyAfter, Abs, Power;
    SkyShrinks(dist, log, more, lat, lon);
  }

  // ---- convergence of the radii ----

  /** The circle that sample `s` calls for: assumed from its strength, wider by a share of the distance
      from the pin there was. */
  predicate CallsFor(dist: Distance, p: Pin, s: Sample, droneMode: bool, radius: real) {
    var d := dist(p.lat, p.lon, s.lat, s.lon);
    radius == AssumedRadius(s.rssi, droneMode) + (if droneMode then 0.9 else 0.42) * d
  }

  /** A blend of two values within the limits stays within them. */
  lemma RadiusStep(radius: real, target: real, share: real, lo: real, hi: real)
    requires lo <= radius <= hi && lo <= target <= hi && 0.0 <= share <= 1.0
    ensures var next := radius * (1.0 - share) + target * share;
      Clamp(next, lo, hi) == next && next - target == (1.0 - share) * (radius - target)
  {
    BlendBetween(radius, target, share, lo, hi);
  }

  /** The first sample sets the assumed radius. */
  lemma FirstRadius(dist: Distance, s: Sample)
    ensures FoxAfter(dist, [s]).radius == AssumedRadius(s.rssi, false)
    ensures SkyAfter(dist, [s]).radius == AssumedRadius(s.rssi, true)
  {
    FoxFirst(dist, [s]);
    SkyFirst(dist, [s]);
    StrongerIsNearer(s.rssi, s.rssi, true);
    hide FoxAfter, SkyAfter, Norm;
  }

  /** `y` is what `n` steps that each leave the share `base` leave of `x`. */
  predicate Shrunk(base: real, n: nat, x: real, y: real) { y == Power(base, n) * x }

  lemma ShrunkMore(base: real, n: nat, x: real, y: real, z: real)
    requires Shrunk(base, n, x, y) && z == base * y
    ensures Shrunk(base, n + 1, x, z)
  {
    assert Power(base, n + 1) == base * Power(base, n);
    hide Power;
    assert base * (Power(base, n) * x) == (base * Power(base, n)) * x;
  }

  lemma ShrunkNot(base: real, x: real)
    ensures Shrunk(base, 0, x, x)
  {
  }

  lemma {:induction false} FoxRadiusNext(dist: Distance, log: seq<Sample>, s: Sample, target: real)
    requires log != [] && 6.0 <= target <= 110.0 && CallsFor(dist, FoxAfter(dist, log), s, false, target)
    ensures FoxAfter(dist, log + [s]).radius - target == 0.78 * (FoxAfter(dist, log).radius - target)
  {
    FoxMore(dist, log, s);
    FoxIsWeightedMean(dist, log);
    FoxCounts(dist, log);
    var p := FoxAfter(dist, log);
    RadiusStep(p.radius, target, 0.22, 6.0, 110.0);
    hide FoxAfter, Sum, AssumedRadius, Mean, Weight;
  }

  lemma {:induction false} SkyRadiusNext(dist: Distance, log: seq<Sample>, s: Sample, target: real)
    requires log != [] && 40.0 <= target <= 500.0 && CallsFor(dist, SkyAfter(dist, log), s, true, target)
    ensures SkyAfter(dist, log + [s]).radius - target == 0.72 * (SkyAfter(dist, log).radius - target)
  {
    assert (log + [s])[..|log|] == log;
    SkyRadiusBounds(dist, log);
    SkyCounts(dist, log);
    var p := SkyAfter(dist, log);
    RadiusStep(p.radius, target, 0.28, 40.0, 500.0);
    hide AssumedRadius, Blend, Alpha;
  }

  lemma {:induction false} SkyRadiusBounds(dist: Distance, log: seq<Sample>)
    requires log != []
    ensures 40.0 <= SkyAfter(dist, log).radius <= 500.0
  {
    if |log| == 1 {
      SkyFirst(dist, log);
    } else {
      SkyNext(dist, log);
    }
  }

  lemma {:induction false} FoxRadiusShrinks(dist: Distance, log: seq<Sample>, more: seq<Sample>, target: real)
    requires log != [] && 6.0 <= target <= 110.0
    requires forall k :: 0 <= k < |more| ==> CallsFor(dist, FoxAfter(dist, log + more[..k]), more[k], false, target)
    ensures Shrunk(0.78, |more|, FoxAfter(dist, log).radius - target, FoxAfter(dist, log + more).radius - target)
    decreases |more|
  {
    hide FoxAfter, CallsFor, Shrunk;
    var x := FoxAfter(dist, log).radius - target;
    if more == [] {
      assert log + more == log;
      ShrunkNot(0.78, x);
    } else {
      var n := |more| - 1;
      var prior, s := log + more[..n], more[n];
      assert forall k :: 0 <= k < n ==> more[..n][..k] == more[..k] && more[..n][k] == more[k];
      FoxRadiusShrinks(dist, log, more[..n], target);
      assert log + more == prior + [s];
      FoxRadiusNext(dist, prior, s, target);
      ShrunkMore(0.78, n, x, FoxAfter(dist, prior).radius - target, FoxAfter(dist, log + more).radius - target);
    }
  }

  /** While every sample calls for the same circle, the radius approaches it: `n` samples leave exactly
      0.78 to the power `n` of the difference. */
  lemma {:induction false} FoxRadiusConverges(dist: Distance, log: seq<Sample>, more: seq<Sample>, target: real)
    requires log != [] && 6.0 <= target <= 110.0
    requires forall k :: 0 <= k < |more| ==> CallsFor(dist, FoxAfter(dist, log + more[..k]), more[k], false, target)
    ensures FoxAfter(dist, log + more).radius - target == Power(0.78, |more|) * (FoxAfter(dist, log).radius - target)
  {
    hide FoxAfter, CallsFor, Power;
    FoxRadiusShrinks(dist, log, more, target);
  }

  lemma {:induction false} SkyRadiusShrinks(dist: Distance, log: seq<Sample>, more: seq<Sample>, target: real)
    requires log != [] && 40.0 <= target <= 500.0
    requires forall k :: 0 <= k < |more| ==> CallsFor(dist, SkyAfter(dist, log + more[..k]), more[k], true, target)
    ensures Shrunk(0.72, |more|, SkyAfter(dist, log).radius - target, SkyAfter(dist, log + more).radius - target)
    decreases |more|
  {
    hide SkyAfter, CallsFor, Shrunk;
    var x := SkyAfter(dist, log).radius - target;
    if more == [] {
      assert log + more == log;
      ShrunkNot(0.72, x);
    } else {
      var n := |more| - 1;
      var prior, s := log + more[..n], more[n];
      assert forall k :: 0 <= k < n ==> more[..n][..k] == more[..k] && more[..n][k] == more[k];
      SkyRadiusShrinks(dist, log, more[..n], target);
      assert log + more == prior + [s];
      SkyRadiusNext(dist, prior, s, target);
      ShrunkMore(0.72, n, x, SkyAfter(dist, prior).radius - target, SkyAfter(dist, log + more).radius - target);
    }
  }

  /** The same for the sky pin with 0.72. */
  lemma {:induction false} SkyRadiusConverges(dist: Distance, log: seq<Sample>, more: seq<Sample>, target: real)
    requires log != [] && 40.0 <= target <= 500.0
    requires forall k :: 0 <= k < |more| ==> CallsFor(dist, SkyAfter(dist, log + more[..k]), more[k], true, target)
    ensures SkyAfter(dist, log + more).radius - target == Power(0.72, |more|) * (SkyAfter(dist, log).radius - target)
  {
    hide SkyAfter, CallsFor, Power;
    SkyRadiusShrinks(dist, log, more, target);
  }

  lemma {:induction false} FoxMore(dist: Distance, log: seq<Sample>, s: Sample)
    ensures FoxAfter(dist, log + [s]) == FoxStep(dist, FoxAfter(dist, log), s)
  {
    assert (log + [s])[..|log|] == log;
  }

  // ---- the fields ----

  /** The fields of the application state that hold the two pins. */
  class FusedPins {
    const dist: Distance
    var foxLat: real
    var foxLon: real
    var foxWeightSum: real
    var foxSamples: nat
    var foxRadius: real
    var skyLat: real
    var skyLon: real
    var skySamples: nat
    var skyRadius: real
    ghost var foxLog: seq<Sample>
    ghost var skyLog: seq<Sample>

    function FoxPin(): Pin
      reads this
    {
      Pin(foxLat, foxLon, foxWeightSum, foxSamples, foxRadius)
    }

    function SkyPin(): Pin
      reads this
    {
      Pin(skyLat, skyLon, 0.0, skySamples, skyRadius)
    }

    ghost predicate Valid()
      reads this
    {
      FoxPin() == FoxAfter(dist, foxLog) && SkyPin() == SkyAfter(dist, skyLog)
    }

    constructor (d: Distance)
      ensures Valid() && foxLog == [] && skyLog == [] && dist == d
    {
      dist := d;
      foxLat, foxLon, foxWeightSum, foxSamples, foxRadius := 0.0, 0.0, 0.0, 0, 0.0;
      skyLat, skyLon, skySamples, skyRadius := 0.0, 0.0, 0, 0.0;
      foxLog, skyLog := [], [];
    }

    /** `update_fox_fused_pin` */
    method UpdateFox(lat: real, lon: real, rssi: int)
      requires Valid()
      modifies this`foxLat, this`foxLon, this`foxWeightSum, this`foxSamples, this`foxRadius, this`foxLog
      ensures Valid() && foxLog == old(foxLog) + [Sample(lat, lon, rssi)]
    {
      hide FoxAfter, Weight, AssumedRadius, Clamp, Mean, FoxRadius;
      ghost var s := Sample(lat, lon, rssi);
      FoxMore(dist, foxLog, s);
      foxLog := foxLog + [s];
      var w := Weight(rssi);
      if foxSamples == 0 || foxWeightSum <= 0.0 {
        foxLat := lat;
        foxLon := lon;
        foxWeightSum := w;
        foxSamples := 1;
        foxRadius := Clamp(AssumedRadius(rssi, false), 6.0, 90.0);
      } else {
        var prevLat, prevLon, prevW := foxLat, foxLon, foxWeightSum;
        var nextW := prevW + w;
        foxLat := Mean(prevLat, prevW, lat, w);
        foxLon := Mean(prevLon, prevW, lon, w);
        foxWeightSum := nextW;
        if foxSamples < SAMPLES_MAX { foxSamples := foxSamples + 1; }
        foxRadius := FoxRadius(foxRadius, rssi, dist(prevLat, prevLon, lat, lon));
      }
    }

    /** `update_sky_fused_pin` */
    method UpdateSky(lat: real, lon: real, rssi: int)
      requires Valid()
      modifies this`skyLat, this`skyLon, this`skySamples, this`skyRadius, this`skyLog
      ensures Valid() && skyLog == old(skyLog) + [Sample(lat, lon, rssi)]
    {
      hide Weight, AssumedRadius, Clamp, Blend, SkyRadius, Alpha;
      ghost var s := Sample(lat, lon, rssi);
      assert (skyLog + [s])[..|skyLog|] == skyLog;
      skyLog := skyLog + [s];
      if skySamples == 0 {
        skyLat := lat;
        skyLon := lon;
        skySamples := 1;
        skyRadius := Clamp(AssumedRadius(rssi, true), 40.0, 320.0);
        return;
      }
      var prevLat, prevLon := skyLat, skyLon;
      var alpha := Alpha(rssi);
      skyLat := Blend(prevLat, lat, alpha);
      skyLon := Blend(prevLon, lon, alpha);
      if skySamples < SAMPLES_MAX { skySamples := skySamples + 1; }
      skyRadius := SkyRadius(skyRadius, rssi, dist(prevLat, prevLon, lat, lon));
    }
  }
}
