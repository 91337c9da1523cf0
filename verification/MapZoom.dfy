/** The zoom resolver of `main/map_tile.c`: coverage score and choice of a level. */
module MapZoom {
  const MAP_TILE_SIZE := 256.0
  const INT32_MAX := 0x7FFF_FFFF

  /** Bounds of the cached tiles of one zoom level. */
  datatype Level = Level(zoom: int, minX: int, maxX: int, minY: int, maxY: int)

  /** Where the centre of the view lies on the pixel plane of a level: the projection of
      latitude and longitude is not modelled. */
  datatype Centre = Centre(px: real, py: real)

  // ---- what covering and overlapping mean ----

  /** The pixel at the centre lies on the cached tiles, as far as the bounds tell; a tile is 256
      pixels wide and high. */
  predicate CentreCovered(level: Level, c: Centre) {
    && 256.0 * level.minX as real <= c.px < 256.0 * (level.maxX + 1) as real
    && 256.0 * level.minY as real <= c.py < 256.0 * (level.maxY + 1) as real
  }

  /** A pixel column (or row) of the view, counted from its left (or upper) edge. */
  function ViewPixel(centre: real, size: int, offset: int): real {
    centre - size as real / 2.0 + offset as real
  }

  /** A tile column (or row) that begins no later than the last pixel of the view and ends behind
      the first one. */
  predicate InView(tile: int, centre: real, size: int) {
    && 256.0 * tile as real <= ViewPixel(centre, size, size - 1)
    && ViewPixel(centre, size, 0) < 256.0 * (tile + 1) as real
  }

  /** The cached tiles in view. */
  ghost function TilesInView(level: Level, c: Centre, w: int, h: int): set<(int, int)> {
    set x: int, y: int |
      level.minX <= x <= level.maxX && level.minY <= y <= level.maxY && InView(x, c.px, w) && InView(y, c.py, h) ::
        (x, y)
  }

  // ---- level_view_coverage_score ----

  function TileAt(pixel: real): int { (pixel / MAP_TILE_SIZE).Floor }

  /** Tile `t` holds the pixels from 256 t on and below 256 (t + 1). */
  lemma TileHolds(pixel: real, t: int)
    ensures 256.0 * t as real <= pixel <==> t <= TileAt(pixel)
    ensures pixel < 256.0 * (t + 1) as real <==> TileAt(pixel) <= t
  {
    assert (pixel / MAP_TILE_SIZE) * 256.0 == pixel;
  }

  /** Covering and overlapping in tile numbers. */
  lemma CoveredByTiles(level: Level, c: Centre)
    ensures CentreCovered(level, c) <==>
      level.minX <= TileAt(c.px) <= level.maxX && level.minY <= TileAt(c.py) <= level.maxY
  {
    hide TileAt;
    TileHolds(c.px, level.minX);
    TileHolds(c.px, level.maxX);
    TileHolds(c.py, level.minY);
    TileHolds(c.py, level.maxY);
  }

  lemma ViewByTiles(tile: int, centre: real, size: int)
    ensures InView(tile, centre, size) <==>
      TileAt(ViewPixel(centre, size, 0)) <= tile <= TileAt(ViewPixel(centre, size, size - 1))
  {
    hide TileAt, ViewPixel;
    TileHolds(ViewPixel(centre, size, 0), tile);
    TileHolds(ViewPixel(centre, size, size - 1), tile);
  }

  function Max(a: int, b: int): int { if a > b then a else b }
  function Min(a: int, b: int): int { if a < b then a else b }

  /** `level_view_coverage_score`; the second component is `*out_center_covered`. */
  function CoverageScore(level: Level, c: Centre, w: int, h: int): (r: (int, bool)) {
    if w <= 0 || h <= 0 then (-1, false)
    else
      var originX, originY := c.px - w as real / 2.0, c.py - h as real / 2.0;
      var x0, y0 := TileAt(originX), TileAt(originY);
      var x1, y1 := TileAt(originX + w as real - 1.0), TileAt(originY + h as real - 1.0);
      var tx, ty := TileAt(c.px), TileAt(c.py);
      var covered := tx >= level.minX && tx <= level.maxX && ty >= level.minY && ty <= level.maxY;
      var ox0, ox1 := Max(x0, level.minX), Min(x1, level.maxX);
      var oy0, oy1 := Max(y0, level.minY), Min(y1, level.maxY);
      if ox1 < ox0 || oy1 < oy0 then (if covered then 1 else 0, covered)
      else ((ox1 - ox0 + 1) * (oy1 - oy0 + 1) + (if covered then 8 else 0), covered)
  }

  /** `overlap_tiles` of the resolver. */
  function OverlapTiles(score: (int, bool)): int {
    Max(score.0 - (if score.1 then 8 else 0), 0)
  }

  function Range(lo: int, hi: int): (r: set<int>)
    ensures forall x: int :: x in r <==> lo <= x <= hi
    ensures |r| == if hi < lo then 0 else hi - lo + 1
    decreases hi - lo
  {
    if hi < lo then {} else Range(lo, hi - 1) + {hi}
  }

  lemma Member<T>(s: set<T>) returns (x: T)
    requires s != {}
    ensures x in s
  {
    x :| x in s;
  }

  ghost function Pairs(a: set<int>, b: set<int>): set<(int, int)> {
    set x, y | x in a && y in b :: (x, y)
  }

  lemma {:induction false} PairsSize(a: set<int>, b: set<int>)
    ensures |Pairs(a, b)| == |a| * |b|
    decreases |a|
  {
    hide Pairs;
    if a == {} {
      NoPairs(b);
    } else {
      var x := Member(a);
      var rest := a - {x};
      PairsSize(rest, b);
      RowSize(x, b);
      PairsSplit(a, x, b);
      OneRowMore(|rest|, |b|);
    }
  }

  lemma NoPairs(b: set<int>)
    ensures Pairs({}, b) == {}
  {
  }

  lemma OneRowMore(rows: nat, columns: nat)
    ensures (rows + 1) * columns == rows * columns + columns
  {
  }

  lemma PairsSplit(a: set<int>, x: int, b: set<int>)
    requires x in a
    ensures Pairs(a, b) == Pairs(a - {x}, b) + Pairs({x}, b) && Pairs(a - {x}, b) !! Pairs({x}, b)
  {
  }

  lemma {:induction false} RowSize(x: int, b: set<int>)
    ensures |Pairs({x}, b)| == |b|
    decreases |b|
  {
    if b == {} {
      assert Pairs({x}, b) == {};
    } else {
      var y := Member(b);
      RowSize(x, b - {y});
      assert Pairs({x}, b) == Pairs({x}, b - {y}) + {(x, y)};
    }
  }

  /** The cached columns (or rows) in view. */
  function Span(centre: real, size: int, lo: int, hi: int): (int, int) {
    (Max(TileAt(ViewPixel(centre, size, 0)), lo), Min(TileAt(ViewPixel(centre, size, size - 1)), hi))
  }

  lemma ViewEdges(centre: real, size: int)
    ensures ViewPixel(centre, size, 0) == centre - size as real / 2.0
    ensures ViewPixel(centre, size, size - 1) == centre - size as real / 2.0 + size as real - 1.0
  {
  }

  lemma ScoreOfSpans(level: Level, c: Centre, w: int, h: int)
    requires w > 0 && h > 0
    ensures var x, y := Span(c.px, w, level.minX, level.maxX), Span(c.py, h, level.minY, level.maxY);
      var score := CoverageScore(level, c, w, h);
      && score.1 == CentreCovered(level, c)
      && score.0 == if x.1 < x.0 || y.1 < y.0 then (if score.1 then 1 else 0)
                    else (x.1 - x.0 + 1) * (y.1 - y.0 + 1) + (if score.1 then 8 else 0)
  {
    ViewEdges(c.px, w);
    ViewEdges(c.py, h);
    CoveredByTiles(level, c);
    hide TileAt, ViewPixel, CentreCovered;
  }

  lemma InSpan(tile: int, centre: real, size: int, lo: int, hi: int)
    ensures lo <= tile <= hi && InView(tile, centre, size) <==>
      tile in Range(Span(centre, size, lo, hi).0, Span(centre, size, lo, hi).1)
  {
    ViewByTiles(tile, centre, size);
    hide TileAt, ViewPixel, InView;
  }

  lemma TilesOfSpans(level: Level, c: Centre, w: int, h: int)
    ensures var x, y := Span(c.px, w, level.minX, level.maxX), Span(c.py, h, level.minY, level.maxY);
      TilesInView(level, c, w, h) == Pairs(Range(x.0, x.1), Range(y.0, y.1))
  {
    hide InView, Span, Range;
    forall x: int, y: int
      ensures (x, y) in TilesInView(level, c, w, h) <==>
        level.minX <= x <= level.maxX && level.minY <= y <= level.maxY && InView(x, c.px, w) && InView(y, c.py, h)
    {
    }
    var x, y := Span(c.px, w, level.minX, level.maxX), Span(c.py, h, level.minY, level.maxY);
    var columns, rows := Range(x.0, x.1), Range(y.0, y.1);
    forall p: (int, int)
      ensures p in TilesInView(level, c, w, h) <==> p in Pairs(columns, rows)
    {
      InSpan(p.0, c.px, w, level.minX, level.maxX);
      InSpan(p.1, c.py, h, level.minY, level.maxY);
    }
  }

  /** The score counts: the number of cached tiles in view, plus 8 if the centre is covered, and 1
      for a covered centre without a tile in view. The flag says whether the centre is covered, and
      `overlap_tiles` is the number again. */
  lemma CoverageCounts(level: Level, c: Centre, w: int, h: int)
    requires w > 0 && h > 0
    ensures var score := CoverageScore(level, c, w, h);
      var tiles := |TilesInView(level, c, w, h)|;
      && score.1 == CentreCovered(level, c)
      && score.0 == (if tiles > 0 then tiles + (if score.1 then 8 else 0) else if score.1 then 1 else 0)
      && OverlapTiles(score) == tiles
  {
    hide TileAt, ViewPixel, Span, CoverageScore, TilesInView, Pairs, CentreCovered, Range;
    var x, y := Span(c.px, w, level.minX, level.maxX), Span(c.py, h, level.minY, level.maxY);
    ScoreOfSpans(level, c, w, h);
    TilesOfSpans(level, c, w, h);
    TilesCount(x, y);
  }

  /** The number of cells of a rectangle. */
  lemma TilesCount(x: (int, int), y: (int, int))
    ensures |Pairs(Range(x.0, x.1), Range(y.0, y.1))| ==
      if x.1 < x.0 || y.1 < y.0 then 0 else (x.1 - x.0 + 1) * (y.1 - y.0 + 1)
    ensures x.0 <= x.1 && y.0 <= y.1 ==> (x.1 - x.0 + 1) * (y.1 - y.0 + 1) > 0
  {
    var a, b := Range(x.0, x.1), Range(y.0, y.1);
    PairsSize(a, b);
    hide Range, Pairs;
    if x.1 < x.0 {
      assert |a| * |b| == 0;
    } else if y.1 < y.0 {
      assert |a| * |b| == 0;
    } else {
      Positive(x.1 - x.0 + 1, y.1 - y.0 + 1);
    }
  }

  lemma Positive(a: int, b: int)
    requires a > 0 && b > 0
    ensures a * b > 0
  {
  }

  // ---- centre coverage against overlap ----

  lemma TileMonotone(a: real, b: real)
    requires a <= b
    ensures TileAt(a) <= TileAt(b)
  {
    assert a / MAP_TILE_SIZE <= b / MAP_TILE_SIZE;
  }

  /** The centre tile of a view that is at least two pixels wide is in view. Of a view of one pixel
      it is the tile half a pixel before the centre that is in view. */
  lemma CentreInView(centre: real, size: int)
    requires size > 0
    ensures size >= 2 ==> InView(TileAt(centre), centre, size)
    ensures size == 1 ==> forall t :: InView(t, centre, size) <==> t == TileAt(centre - 0.5)
    ensures TileAt(centre - 0.5) <= TileAt(centre)
  {
    hide InView;
    TileMonotone(centre - 0.5, centre);
    if size >= 2 {
      TileMonotone(ViewPixel(centre, size, 0), centre);
      TileMonotone(centre, ViewPixel(centre, size, size - 1));
      ViewByTiles(TileAt(centre), centre, size);
    } else {
      forall t
        ensures InView(t, centre, size) <==> t == TileAt(centre - 0.5)
      {
        ViewByTiles(t, centre, size);
      }
    }
  }

  /** When a level that covers the centre has a tile in view: always for views of 2 x 2 or more,
      and for a side of one pixel exactly if the pixel half a pixel before the centre is cached. */
  lemma CentreOverlap(level: Level, c: Centre, w: int, h: int)
    requires w > 0 && h > 0 && CentreCovered(level, c)
    ensures TilesInView(level, c, w, h) != {} <==>
      && (w >= 2 || c.px - 0.5 >= 256.0 * level.minX as real)
      && (h >= 2 || c.py - 0.5 >= 256.0 * level.minY as real)
  {
    CentreInView(c.px, w);
    CentreInView(c.py, h);
    CoveredByTiles(level, c);
    TileHolds(c.px - 0.5, level.minX);
    TileHolds(c.py - 0.5, level.minY);
    hide TileAt, ViewPixel, InView, CentreCovered;
    var x := if w >= 2 then TileAt(c.px) else TileAt(c.px - 0.5);
    var y := if h >= 2 then TileAt(c.py) else TileAt(c.py - 0.5);
    if x >= level.minX && y >= level.minY {
      assert (x, y) in TilesInView(level, c, w, h);
    }
    forall p | p in TilesInView(level, c, w, h)
      ensures (w >= 2 || TileAt(c.px - 0.5) >= level.minX) && (h >= 2 || TileAt(c.py - 0.5) >= level.minY)
    {
      assert InView(p.0, c.px, w) && InView(p.1, c.py, h);
    }
  }

  /** A view one pixel wide on the left edge of the only cached tile shows none of it. */
  lemma OnePixelViewMisses() returns (level: Level, c: Centre)
    ensures CentreCovered(level, c) && TilesInView(level, c, 1, 2) == {}
  {
    level, c := Level(5, 3, 3, 3, 3), Centre(768.0, 800.0);
    CentreOverlap(level, c, 1, 2);
  }

  // ---- map_tile_resolve_view_zoom ----

  /** `abs` of the difference */
  function Distance(zoom: int, requested: int): nat {
    if zoom < requested then requested - zoom else zoom - requested
  }

  /** Nearer to the request, or as near and higher. */
  predicate Better(a: int, b: int, requested: int) {
    Distance(a, requested) < Distance(b, requested) || (Distance(a, requested) == Distance(b, requested) && a > b)
  }

  /** The levels the choice is made from: those that cover the centre, if there is none those with
      a tile in view, if there is none all of them. */
  ghost predicate Preferred(levels: seq<Level>, centres: seq<Centre>, w: int, h: int, i: nat)
    requires |levels| == |centres| && i < |levels|
  {
    if exists j :: 0 <= j < |levels| && CentreCovered(levels[j], centres[j]) then CentreCovered(levels[i], centres[i])
    else if exists j :: 0 <= j < |levels| && TilesInView(levels[j], centres[j], w, h) != {} then
      TilesInView(levels[i], centres[i], w, h) != {}
    else true
  }

  /** `at` is the best of the first `n` levels that satisfy `member`. */
  ghost predicate BestOf(levels: seq<Level>, requested: int, member: seq<bool>, n: nat, at: int) {
    && n <= |levels| == |member|
    && 0 <= at < n && member[at]
    && forall j :: 0 <= j < n && member[j] ==> !Better(levels[j].zoom, levels[at].zoom, requested)
  }

  /** One more level: the best so far stays the best, or the new level is. */
  lemma BestNext(levels: seq<Level>, requested: int, member: seq<bool>, n: nat, at: int, found: bool)
    requires n < |levels| == |member| && 0 <= at < |levels|
    requires if found then BestOf(levels, requested, member, n, at) else forall j :: 0 <= j < n ==> !member[j]
    ensures member[n] && (!found || !Better(levels[at].zoom, levels[n].zoom, requested)) ==>
      BestOf(levels, requested, member, n + 1, n)
    ensures found && (!member[n] || !Better(levels[n].zoom, levels[at].zoom, requested)) ==>
      BestOf(levels, requested, member, n + 1, at)
  {
  }

  /** What being the best means in integers. */
  lemma BestWins(levels: seq<Level>, requested: int, member: seq<bool>, at: int)
    requires 0 <= at < |levels|
    ensures BestOf(levels, requested, member, |levels|, at) ==>
      var zoom := levels[at].zoom;
      && |member| == |levels| && member[at]
      && forall j :: 0 <= j < |levels| && member[j] ==>
           if zoom >= requested then !(2 * requested - zoom < levels[j].zoom < zoom)
           else !(zoom < levels[j].zoom <= 2 * requested - zoom)
  {
    if BestOf(levels, requested, member, |levels|, at) {
      assert forall j :: 0 <= j < |levels| && member[j] ==> !Better(levels[j].zoom, levels[at].zoom, requested);
    }
  }

  ghost function Covering(levels: seq<Level>, centres: seq<Centre>): (m: seq<bool>)
    requires |levels| == |centres|
    ensures |m| == |levels|
  {
    seq(|levels|, j requires 0 <= j < |levels| => CentreCovered(levels[j], centres[j]))
  }

  ghost function Overlapping(levels: seq<Level>, centres: seq<Centre>, w: int, h: int): (m: seq<bool>)
    requires |levels| == |centres|
    ensures |m| == |levels|
  {
    seq(|levels|, j requires 0 <= j < |levels| => TilesInView(levels[j], centres[j], w, h) != {})
  }

  /** `map_tile_resolve_view_zoom` on the cached levels: no preferred level lies nearer to the
      request than the zoom chosen, and none lies as near above it. */
  method ResolveViewZoom(requested: int, levels: seq<Level>, centres: seq<Centre>, w: int, h: int) returns (zoom: int)
    requires |levels| == |centres|
    ensures levels == [] || w <= 0 || h <= 0 ==> zoom == requested
    ensures levels != [] && w > 0 && h > 0 ==>
      exists i :: 0 <= i < |levels| && zoom == levels[i].zoom && Preferred(levels, centres, w, h, i)
    ensures w > 0 && h > 0 ==>
      forall j :: 0 <= j < |levels| && Preferred(levels, centres, w, h, j) ==>
        if zoom >= requested then !(2 * requested - zoom < levels[j].zoom < zoom)
        else !(zoom < levels[j].zoom <= 2 * requested - zoom)
  {
    hide TileAt, CoverageScore, CentreCovered, TilesInView, OverlapTiles, BestOf;
    var bestCenterZoom, bestCenterDistance, bestCenterOverlap, bestCenterFound := requested, INT32_MAX, -1, false;
    var bestOverlapZoom, bestOverlapDistance, bestOverlapTiles, bestOverlapFound := requested, INT32_MAX, -1, false;
    var fallbackZoom, fallbackScore, fallbackDistance := requested, -1, INT32_MAX;
    if |levels| == 0 { return requested; }
    ghost var covering, overlapping := Covering(levels, centres), Overlapping(levels, centres, w, h);
    ghost var all := seq(|levels|, j => true);
    ghost var centreAt, overlapAt, fallbackAt := 0, 0, 0;
    for i := 0 to |levels|
      invariant 0 <= centreAt < |levels| && 0 <= overlapAt < |levels| && 0 <= fallbackAt < |levels|
      invariant w <= 0 || h <= 0 ==> !bestCenterFound && !bestOverlapFound && fallbackZoom == requested
      invariant w > 0 && h > 0 && bestCenterFound ==>
        BestOf(levels, requested, covering, i, centreAt) && levels[centreAt].zoom == bestCenterZoom
        && bestCenterDistance == Distance(bestCenterZoom, requested)
      invariant w > 0 && h > 0 && !bestCenterFound ==> forall j :: 0 <= j < i ==> !covering[j]
      invariant w > 0 && h > 0 && bestOverlapFound ==>
        BestOf(levels, requested, overlapping, i, overlapAt) && levels[overlapAt].zoom == bestOverlapZoom
        && bestOverlapDistance == Distance(bestOverlapZoom, requested)
      invariant w > 0 && h > 0 && !bestOverlapFound ==> forall j :: 0 <= j < i ==> !overlapping[j]
      invariant w > 0 && h > 0 && i == 0 ==> fallbackScore == -1
      invariant w > 0 && h > 0 && !bestCenterFound && !bestOverlapFound && i > 0 ==>
        BestOf(levels, requested, all, i, fallbackAt) && levels[fallbackAt].zoom == fallbackZoom
        && fallbackDistance == Distance(fallbackZoom, requested) && fallbackScore == 0
    {
      var scored := CoverageScore(levels[i], centres[i], w, h);
      var score, centerCovered := scored.0, scored.1;
      var distance := Distance(levels[i].zoom, requested);
      var overlapTiles := score - (if centerCovered then 8 else 0);
      if overlapTiles < 0 { overlapTiles := 0; }
      if score < 0 {
        ScoreSign(levels[i], centres[i], w, h);
        continue;
      }
      ScoreMeans(levels[i], centres[i], w, h);
      BestNext(levels, requested, covering, i, centreAt, bestCenterFound);
      BestNext(levels, requested, overlapping, i, overlapAt, bestOverlapFound);
      if !bestCenterFound && !bestOverlapFound {
        BestNext(levels, requested, all, i, fallbackAt, i > 0);
      }
      if centerCovered {
        if !bestCenterFound
           || distance < bestCenterDistance
           || (distance == bestCenterDistance && levels[i].zoom > bestCenterZoom)
           || (distance == bestCenterDistance && levels[i].zoom == bestCenterZoom && overlapTiles > bestCenterOverlap)
        {
          bestCenterFound := true;
          bestCenterDistance := distance;
          bestCenterOverlap := overlapTiles;
          bestCenterZoom := levels[i].zoom;
          centreAt := i;
        }
      }
      if overlapTiles > 0 {
        if !bestOverlapFound
           || distance < bestOverlapDistance
           || (distance == bestOverlapDistance && levels[i].zoom > bestOverlapZoom)
           || (distance == bestOverlapDistance && levels[i].zoom == bestOverlapZoom && overlapTiles > bestOverlapTiles)
        {
          bestOverlapFound := true;
          bestOverlapDistance := distance;
          bestOverlapTiles := overlapTiles;
          bestOverlapZoom := levels[i].zoom;
          overlapAt := i;
        }
      }
      if score > fallbackScore
         || (score == fallbackScore && distance < fallbackDistance)
         || (score == fallbackScore && distance == fallbackDistance && levels[i].zoom > fallbackZoom)
      {
        fallbackScore := score;
        fallbackDistance := distance;
        fallbackZoom := levels[i].zoom;
        fallbackAt := i;
      }
    }
    if w > 0 && h > 0 {
      Choice(levels, centres, w, h);
    }
    BestWins(levels, requested, covering, centreAt);
    BestWins(levels, requested, overlapping, overlapAt);
    BestWins(levels, requested, all, fallbackAt);
    if bestCenterFound { return bestCenterZoom; }
    if bestOverlapFound { return bestOverlapZoom; }
    return fallbackZoom;
  }

  lemma ScoreSign(level: Level, c: Centre, w: int, h: int)
    ensures CoverageScore(level, c, w, h).0 < 0 <==> w <= 0 || h <= 0
  {
    if w > 0 && h > 0 {
      CoverageCounts(level, c, w, h);
    }
  }

  /** What the resolver reads off a score that is not negative. */
  lemma ScoreMeans(level: Level, c: Centre, w: int, h: int)
    requires CoverageScore(level, c, w, h).0 >= 0
    ensures w > 0 && h > 0
    ensures var score := CoverageScore(level, c, w, h);
      && score.1 == CentreCovered(level, c)
      && (score.0 - (if score.1 then 8 else 0) > 0 <==> TilesInView(level, c, w, h) != {})
      && (score.0 == 0 <==> !CentreCovered(level, c) && TilesInView(level, c, w, h) == {})
  {
    ScoreSign(level, c, w, h);
    CoverageCounts(level, c, w, h);
  }

  /** The levels the choice is made from, by the two flags. */
  lemma Choice(levels: seq<Level>, centres: seq<Centre>, w: int, h: int)
    requires |levels| == |centres|
    ensures var covering, overlapping := Covering(levels, centres), Overlapping(levels, centres, w, h);
      forall i :: 0 <= i < |levels| ==>
        (Preferred(levels, centres, w, h, i) <==>
          if true in covering then covering[i] else if true in overlapping then overlapping[i] else true)
  {
    var covering, overlapping := Covering(levels, centres), Overlapping(levels, centres, w, h);
    hide CentreCovered, TilesInView;
    assert true in covering <==> exists j :: 0 <= j < |levels| && CentreCovered(levels[j], centres[j]) by {
      assert forall j :: 0 <= j < |levels| ==> covering[j] == CentreCovered(levels[j], centres[j]);
    }
    assert true in overlapping <==> exists j :: 0 <= j < |levels| && TilesInView(levels[j], centres[j], w, h) != {} by {
      assert forall j :: 0 <= j < |levels| ==> overlapping[j] == (TilesInView(levels[j], centres[j], w, h) != {});
    }
  }
}
