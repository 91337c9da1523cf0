/** PNG row filters: `png_unfilter_row` of `main/map_tile.c` and section 6 of RFC 2083. */
module PngFilters {
  import opened Bytes

  function Abs(x: int): nat { if x < 0 then -x else x }

  /** The Paeth predictor, with ties broken in the order left, above, upper left. */
  function Paeth(a: byte, b: byte, c: byte): byte {
    var left: int, above: int, corner: int := a, b, c;
    var p := left + above - corner;
    var pa, pb, pc := Abs(p - left), Abs(p - above), Abs(p - corner);
    if pa <= pb && pa <= pc then a else if pb <= pc then b else c
  }

  /** The predictor of a filter type; unknown types predict nothing. */
  function Predictor(filter: byte, a: byte, b: byte, c: byte): byte {
    match filter
    case 1 => a
    case 2 => b
    case 3 => (var left: int, above: int := a, b; (left + above) / 2)
    case 4 => Paeth(a, b, c)
    case _ => 0
  }

  /** The byte `bpp` positions to the left, or 0. */
  function Left(row: seq<byte>, i: nat, bpp: nat): byte
    requires i < |row|
  {
    if i >= bpp then row[i - bpp] else 0
  }

  /** The byte above, or 0 when there is no previous row. */
  function Above(prev: Option<seq<byte>>, i: nat): byte {
    if prev.Some? && i < |prev.value| then prev.value[i] else 0
  }

  function Corner(prev: Option<seq<byte>>, i: nat, bpp: nat): byte {
    if i >= bpp then Above(prev, i - bpp) else 0
  }

  /** What the predictor of byte `i` is for the unfiltered row `raw`. */
  function Prediction(filter: byte, raw: seq<byte>, prev: Option<seq<byte>>, bpp: nat, i: nat): byte
    requires i < |raw|
  {
    Predictor(filter, Left(raw, i, bpp), Above(prev, i), Corner(prev, i, bpp))
  }

  function AddByte(x: byte, y: byte): byte {
    var a: int, b: int := x, y;
    (a + b) % 256
  }

  function SubByte(x: byte, y: byte): byte {
    var a: int, b: int := x, y;
    (a - b) % 256
  }

  lemma AddSub(x: byte, y: byte)
    ensures AddByte(SubByte(x, y), y) == x
  {
  }

  /** The encoder's side (RFC 2083, section 6): subtract the prediction, modulo 256. */
  function Filtered(filter: byte, raw: seq<byte>, prev: Option<seq<byte>>, bpp: nat): (f: seq<byte>)
    ensures |f| == |raw|
  {
    seq(|raw|, i requires 0 <= i < |raw| => SubByte(raw[i], Prediction(filter, raw, prev, bpp, i)))
  }

  /** Byte `i` of `raw` is byte `i` of `f` plus its prediction, for all `i` below `n`. */
  ghost predicate UndoneUpTo(filter: byte, f: seq<byte>, raw: seq<byte>, prev: Option<seq<byte>>, bpp: nat, n: nat) {
    && |raw| == |f| && n <= |raw|
    && forall i :: 0 <= i < n ==> raw[i] == AddByte(f[i], Prediction(filter, raw, prev, bpp, i))
  }

  /** The decoder's side, from the filtered bytes alone. */
  function Unfiltered(filter: byte, f: seq<byte>, prev: Option<seq<byte>>, bpp: nat): (raw: seq<byte>)
    requires bpp > 0
    ensures |raw| == |f|
  {
    if f == [] then []
    else
      var n := |f| - 1;
      var head := Unfiltered(filter, f[..n], prev, bpp);
      var left := if n >= bpp then head[n - bpp] else 0;
      head + [AddByte(f[n], Predictor(filter, left, Above(prev, n), Corner(prev, n, bpp)))]
  }

  lemma {:induction false} UnfilteredUndoes(filter: byte, f: seq<byte>, prev: Option<seq<byte>>, bpp: nat)
    requires bpp > 0
    ensures UndoneUpTo(filter, f, Unfiltered(filter, f, prev, bpp), prev, bpp, |f|)
    decreases |f|
  {
    if f != [] {
      var n := |f| - 1;
      var head, raw := Unfiltered(filter, f[..n], prev, bpp), Unfiltered(filter, f, prev, bpp);
      UnfilteredUndoes(filter, f[..n], prev, bpp);
      forall i | 0 <= i < n
        ensures raw[i] == AddByte(f[i], Prediction(filter, raw, prev, bpp, i))
      {
        assert head[i] == AddByte(f[..n][i], Prediction(filter, head, prev, bpp, i));
      }
    }
  }

  /** The filtered bytes determine the row. */
  lemma {:induction false} UndoneIsUnique(filter: byte, f: seq<byte>, x: seq<byte>, y: seq<byte>,
                                          prev: Option<seq<byte>>, bpp: nat, n: nat)
    requires bpp > 0 && UndoneUpTo(filter, f, x, prev, bpp, n) && UndoneUpTo(filter, f, y, prev, bpp, n)
    ensures x[..n] == y[..n]
    decreases n
  {
    if n > 0 {
      UndoneIsUnique(filter, f, x, y, prev, bpp, n - 1);
      assert forall i :: 0 <= i < n - 1 ==> x[i] == x[..n - 1][i] && y[i] == y[..n - 1][i];
      assert Left(x, n - 1, bpp) == Left(y, n - 1, bpp);
    }
  }

  /** Unfiltering inverts the standard filters: for every filter type, every row, every previous
      row or none, and every number of bytes per pixel. So a filtered row satisfies the decoding
      equations below with the row it was made from. */
  lemma {:induction false} UnfilterInvertsFilter(filter: byte, raw: seq<byte>, prev: Option<seq<byte>>, bpp: nat)
    requires bpp > 0
    ensures Unfiltered(filter, Filtered(filter, raw, prev, bpp), prev, bpp) == raw
    ensures (prev.Some? ==> |prev.value| == |raw|) ==> Decodes(filter, Filtered(filter, raw, prev, bpp), raw, prev, bpp)
  {
    hide Decodes;
    var f := Filtered(filter, raw, prev, bpp);
    UnfilteredUndoes(filter, f, prev, bpp);
    forall i | 0 <= i < |raw|
      ensures raw[i] == AddByte(f[i], Prediction(filter, raw, prev, bpp, i))
    {
      AddSub(raw[i], Prediction(filter, raw, prev, bpp, i));
    }
    var back := Unfiltered(filter, f, prev, bpp);
    UndoneIsUnique(filter, f, raw, back, prev, bpp, |raw|);
    assert raw[..|raw|] == raw && back[..|raw|] == back;
    if prev.Some? ==> |prev.value| == |raw| {
      UnfilteredDecodes(filter, f, prev, bpp);
    }
  }

  lemma SubAdd(a: byte, b: byte)
    ensures SubByte(AddByte(a, b), b) == a
  {
  }

  /** Every row has exactly one filtered form of each type, so filtering inverts unfiltering too. */
  lemma {:induction false} FilterInvertsUnfilter(filter: byte, f: seq<byte>, prev: Option<seq<byte>>, bpp: nat)
    requires bpp > 0
    ensures Filtered(filter, Unfiltered(filter, f, prev, bpp), prev, bpp) == f
  {
    var raw := Unfiltered(filter, f, prev, bpp);
    UnfilteredUndoes(filter, f, prev, bpp);
    hide Unfiltered, Prediction, AddByte, SubByte;
    forall i | 0 <= i < |f|
      ensures SubByte(raw[i], Prediction(filter, raw, prev, bpp, i)) == f[i]
    {
      SubAdd(f[i], Prediction(filter, raw, prev, bpp, i));
    }
  }

  // ---- the decoding equations of RFC 2083, apart from the code ----

  /** `q` is the nearest of left, above and upper left to left + above - upper left, the first of them
      if several are as near. */
  ghost predicate NearestOf(left: int, above: int, corner: int, q: int) {
    var p, candidates := left + above - corner, [left, above, corner];
    exists k :: 0 <= k < 3 && q == candidates[k]
      && (forall j :: 0 <= j < 3 ==> Gap(p, q) <= Gap(p, candidates[j]))
      && (forall j :: 0 <= j < k ==> Gap(p, q) < Gap(p, candidates[j]))
  }

  /** The distance of two numbers. */
  function Gap(x: int, y: int): (d: int)
    ensures d == x - y || d == y - x
    ensures d >= 0
  {
    if x >= y then x - y else y - x
  }

  /** What is to be added to a filtered byte, given its neighbours. */
  ghost predicate Predicts(filter: byte, left: int, above: int, corner: int, q: int) {
    && (filter == 1 ==> q == left)
    && (filter == 2 ==> q == above)
    && (filter == 3 ==> 2 * q <= left + above <= 2 * q + 1)
    && (filter == 4 ==> NearestOf(left, above, corner, q))
    && (filter == 0 || filter > 4 ==> q == 0)
  }

  /** `y` is `x` plus what the neighbours predict, modulo 256. */
  ghost predicate Decoded(filter: byte, x: int, y: int, left: int, above: int, corner: int) {
    exists q: int :: Predicts(filter, left, above, corner, q) && 0 <= q < 256 && (y == x + q || y == x + q - 256)
  }

  /** So is byte `i` of `raw` for byte `i` of `f`. Left of the row and above the first one are zeros. */
  ghost predicate DecodesAt(filter: byte, f: seq<byte>, raw: seq<byte>, prev: Option<seq<byte>>, bpp: nat, i: nat)
    requires i < |f| == |raw| && (prev.Some? ==> |prev.value| == |raw|)
  {
    Decoded(filter, f[i], raw[i],
            if i < bpp then 0 else raw[i - bpp],
            if prev.None? then 0 else prev.value[i],
            if prev.None? || i < bpp then 0 else prev.value[i - bpp])
  }

  ghost predicate Decodes(filter: byte, f: seq<byte>, raw: seq<byte>, prev: Option<seq<byte>>, bpp: nat) {
    && |raw| == |f| && (prev.Some? ==> |prev.value| == |raw|)
    && forall i :: 0 <= i < |f| ==> DecodesAt(filter, f, raw, prev, bpp, i)
  }

  lemma PaethIsNearest(a: byte, b: byte, c: byte)
    ensures NearestOf(a, b, c, Paeth(a, b, c))
  {
    var left: int, above: int, corner: int := a, b, c;
    var candidates := [left, above, corner];
    var q: int := Paeth(a, b, c);
    var k := if q == left then 0 else if q == above then 1 else 2;
    assert q == candidates[k];
  }

  lemma PredictorPredicts(filter: byte, a: byte, b: byte, c: byte)
    ensures Predicts(filter, a, b, c, Predictor(filter, a, b, c))
  {
    hide NearestOf, Paeth;
    PaethIsNearest(a, b, c);
  }

  lemma SumOfBytes(x: byte, y: byte)
    ensures AddByte(x, y) == x as int + y || AddByte(x, y) == x as int + y - 256
  {
  }

  /** What the code leaves satisfies the equations. */
  lemma {:induction false} UnfilteredDecodes(filter: byte, f: seq<byte>, prev: Option<seq<byte>>, bpp: nat)
    requires bpp > 0 && (prev.Some? ==> |prev.value| == |f|)
    ensures Decodes(filter, f, Unfiltered(filter, f, prev, bpp), prev, bpp)
  {
    hide Unfiltered, Predictor, Predicts, Decoded;
    var raw := Unfiltered(filter, f, prev, bpp);
    UnfilteredUndoes(filter, f, prev, bpp);
    forall i | 0 <= i < |f|
      ensures DecodesAt(filter, f, raw, prev, bpp, i)
    {
      var left, above, corner := Left(raw, i, bpp), Above(prev, i), Corner(prev, i, bpp);
      PredictorPredicts(filter, left, above, corner);
      PredictedDecodes(filter, f[i], left, above, corner);
    }
  }

  lemma PredictedDecodes(filter: byte, x: byte, a: byte, b: byte, c: byte)
    ensures Decoded(filter, x, AddByte(x, Predictor(filter, a, b, c)), a, b, c)
  {
    hide Predicts;
    var q: int := Predictor(filter, a, b, c);
    PredictorPredicts(filter, a, b, c);
    SumOfBytes(x, q);
  }

  lemma PredictsOne(filter: byte, left: int, above: int, corner: int, q: int, r: int)
    requires Predicts(filter, left, above, corner, q) && Predicts(filter, left, above, corner, r)
    ensures q == r
  {
    if filter == 4 {
      NearestIsOne(left, above, corner, q, r);
    }
  }

  lemma NearestIsOne(left: int, above: int, corner: int, q: int, r: int)
    requires NearestOf(left, above, corner, q) && NearestOf(left, above, corner, r)
    ensures q == r
  {
    var p, candidates := left + above - corner, [left, above, corner];
    var k :| 0 <= k < 3 && q == candidates[k]
      && (forall j :: 0 <= j < 3 ==> Gap(p, q) <= Gap(p, candidates[j]))
      && (forall j :: 0 <= j < k ==> Gap(p, q) < Gap(p, candidates[j]));
    var l :| 0 <= l < 3 && r == candidates[l]
      && (forall j :: 0 <= j < 3 ==> Gap(p, r) <= Gap(p, candidates[j]))
      && (forall j :: 0 <= j < l ==> Gap(p, r) < Gap(p, candidates[j]));
    hide Gap;
    assert k == l;
  }

  /** And nothing else does: the equations have one solution. */
  lemma {:induction false} DecodesOnce(filter: byte, f: seq<byte>, x: seq<byte>, y: seq<byte>,
                                       prev: Option<seq<byte>>, bpp: nat, n: nat)
    requires bpp > 0 && Decodes(filter, f, x, prev, bpp) && Decodes(filter, f, y, prev, bpp) && n <= |f|
    ensures x[..n] == y[..n]
    decreases n
  {
    hide Predicts, Decoded;
    if n > 0 {
      var i := n - 1;
      DecodesOnce(filter, f, x, y, prev, bpp, i);
      assert forall k :: 0 <= k < i ==> x[k] == x[..i][k] && y[k] == y[..i][k];
      assert DecodesAt(filter, f, x, prev, bpp, i) && DecodesAt(filter, f, y, prev, bpp, i);
      var left: int := if i < bpp then 0 else x[i - bpp];
      var above: int := if prev.None? then 0 else prev.value[i];
      var corner: int := if prev.None? || i < bpp then 0 else prev.value[i - bpp];
      DecodedOnce(filter, f[i], x[i], y[i], left, above, corner);
    }
  }

  lemma DecodedOnce(filter: byte, x: int, y: byte, z: byte, left: int, above: int, corner: int)
    requires Decoded(filter, x, y, left, above, corner) && Decoded(filter, x, z, left, above, corner)
    ensures y == z
  {
    hide Predicts;
    var q: int :| Predicts(filter, left, above, corner, q) && 0 <= q < 256 && (y == x + q || y == x + q - 256);
    var r: int :| Predicts(filter, left, above, corner, r) && 0 <= r < 256 && (z == x + r || z == x + r - 256);
    PredictsOne(filter, left, above, corner, q, r);
  }

  // ---- in place: the row is row[1..], behind the filter byte; the previous row likewise ----

  ghost function PrevRow(prev: array?<byte>): Option<seq<byte>>
    reads prev
  {
    if prev == null || prev.Length == 0 then None else Some(prev[1..])
  }

  /** One turn of a loop: byte `i` of the row gets its prediction added. */
  lemma AfterByte(filter: byte, f: seq<byte>, before: seq<byte>, after: seq<byte>, prev: Option<seq<byte>>, bpp: nat,
                  i: nat)
    requires bpp > 0 && i < |f| && UndoneUpTo(filter, f, before, prev, bpp, i)
    requires forall k :: i <= k < |f| ==> before[k] == f[k]
    requires after == before[i := AddByte(before[i], Prediction(filter, before, prev, bpp, i))]
    ensures UndoneUpTo(filter, f, after, prev, bpp, i + 1)
    ensures forall k :: i + 1 <= k < |f| ==> after[k] == f[k]
  {
    forall k | 0 <= k < i + 1
      ensures Left(after, k, bpp) == Left(before, k, bpp)
    {
    }
  }

  lemma {:induction false} Done(filter: byte, f: seq<byte>, raw: seq<byte>, prev: Option<seq<byte>>, bpp: nat)
    requires bpp > 0 && UndoneUpTo(filter, f, raw, prev, bpp, |f|)
    ensures raw == Unfiltered(filter, f, prev, bpp)
    ensures (prev.Some? ==> |prev.value| == |f|) ==> Decodes(filter, f, raw, prev, bpp)
  {
    if prev.Some? ==> |prev.value| == |f| {
      UnfilteredDecodes(filter, f, prev, bpp);
    }
    hide Predictor, Decodes;
    var back := Unfiltered(filter, f, prev, bpp);
    UnfilteredUndoes(filter, f, prev, bpp);
    UndoneIsUnique(filter, f, raw, back, prev, bpp, |f|);
    assert raw[..|f|] == raw && back[..|f|] == back;
  }

  method UnfilterSub(row: array<byte>, ghost prev: Option<seq<byte>>, bpp: nat)
    requires bpp > 0 && row.Length > 0
    modifies row
    ensures row[0] == old(row[0]) && row[1..] == Unfiltered(1, old(row[1..]), prev, bpp)
    ensures (prev.Some? ==> |prev.value| == row.Length - 1) ==> Decodes(1, old(row[1..]), row[1..], prev, bpp)
  {
    hide Decodes;
    ghost var f: seq<byte> := row[1..];
    var n := row.Length - 1;
    var i := if bpp < n then bpp else n;
    assert UndoneUpTo(1, f, row[1..], prev, bpp, i);
    while i < n
      invariant 0 <= i <= n && row[0] == old(row[0])
      invariant UndoneUpTo(1, f, row[1..], prev, bpp, i)
      invariant i < n ==> i >= bpp
      invariant forall k :: i <= k < n ==> row[1..][k] == f[k]
    {
      ghost var before: seq<byte> := row[1..];
      row[1 + i] := AddByte(row[1 + i], row[1 + i - bpp]);
      assert row[1..] == before[i := AddByte(before[i], before[i - bpp])];
      AfterByte(1, f, before, row[1..], prev, bpp, i);
      i := i + 1;
    }
    Done(1, f, row[1..], prev, bpp);
  }

  method UnfilterUp(row: array<byte>, prev: array?<byte>, bpp: nat)
    requires bpp > 0 && row.Length > 0 && prev != row && (prev != null ==> prev.Length == row.Length)
    modifies row
    ensures row[0] == old(row[0]) && row[1..] == Unfiltered(2, old(row[1..]), PrevRow(prev), bpp)
    ensures Decodes(2, old(row[1..]), row[1..], if prev == null then None else Some(prev[1..]), bpp)
  {
    hide Decodes;
    ghost var f: seq<byte>, p := row[1..], PrevRow(prev);
    var n := row.Length - 1;
    if prev != null {
      var i := 0;
      while i < n
        invariant 0 <= i <= n && row[0] == old(row[0]) && PrevRow(prev) == p
        invariant UndoneUpTo(2, f, row[1..], p, bpp, i)
        invariant forall k :: i <= k < n ==> row[1..][k] == f[k]
      {
        ghost var before: seq<byte> := row[1..];
        row[1 + i] := AddByte(row[1 + i], prev[1 + i]);
        assert row[1..] == before[i := AddByte(before[i], Above(p, i))];
        AfterByte(2, f, before, row[1..], p, bpp, i);
        i := i + 1;
      }
    }
    Done(2, f, row[1..], p, bpp);
  }

  method UnfilterAverage(row: array<byte>, prev: array?<byte>, bpp: nat)
    requires bpp > 0 && row.Length > 0 && prev != row && (prev != null ==> prev.Length == row.Length)
    modifies row
    ensures row[0] == old(row[0]) && row[1..] == Unfiltered(3, old(row[1..]), PrevRow(prev), bpp)
    ensures Decodes(3, old(row[1..]), row[1..], if prev == null then None else Some(prev[1..]), bpp)
  {
    hide Decodes;
    ghost var f: seq<byte>, p := row[1..], PrevRow(prev);
    var n := row.Length - 1;
    var i := 0;
    while i < n
      invariant 0 <= i <= n && row[0] == old(row[0]) && PrevRow(prev) == p
      invariant UndoneUpTo(3, f, row[1..], p, bpp, i)
      invariant forall k :: i <= k < n ==> row[1..][k] == f[k]
    {
      ghost var before: seq<byte> := row[1..];
      var a: int := if i >= bpp then row[1 + i - bpp] else 0;
      var b: int := if prev != null then prev[1 + i] else 0;
      row[1 + i] := AddByte(row[1 + i], (a + b) / 2);
      assert row[1..] == before[i := AddByte(before[i], Prediction(3, before, p, bpp, i))];
      AfterByte(3, f, before, row[1..], p, bpp, i);
      i := i + 1;
    }
    Done(3, f, row[1..], p, bpp);
  }

  method UnfilterPaeth(row: array<byte>, prev: array?<byte>, bpp: nat)
    requires bpp > 0 && row.Length > 0 && prev != row && (prev != null ==> prev.Length == row.Length)
    modifies row
    ensures row[0] == old(row[0]) && row[1..] == Unfiltered(4, old(row[1..]), PrevRow(prev), bpp)
    ensures Decodes(4, old(row[1..]), row[1..], if prev == null then None else Some(prev[1..]), bpp)
  {
    hide Decodes;
    ghost var f: seq<byte>, p := row[1..], PrevRow(prev);
    var n := row.Length - 1;
    var i := 0;
    while i < n
      invariant 0 <= i <= n && row[0] == old(row[0]) && PrevRow(prev) == p
      invariant UndoneUpTo(4, f, row[1..], p, bpp, i)
      invariant forall k :: i <= k < n ==> row[1..][k] == f[k]
    {
      ghost var before: seq<byte> := row[1..];
      var a: byte := if i >= bpp then row[1 + i - bpp] else 0;
      var b: byte := if prev != null then prev[1 + i] else 0;
      var c: byte := if prev != null && i >= bpp then prev[1 + i - bpp] else 0;
      row[1 + i] := AddByte(row[1 + i], Paeth(a, b, c));
      assert row[1..] == before[i := AddByte(before[i], Prediction(4, before, p, bpp, i))];
      AfterByte(4, f, before, row[1..], p, bpp, i);
      i := i + 1;
    }
    Done(4, f, row[1..], p, bpp);
  }

  /** `png_unfilter_row` */
  method UnfilterRow(filter: byte, row: array<byte>, prev: array?<byte>, bpp: nat)
    requires bpp > 0 && row.Length > 0 && prev != row && (prev != null ==> prev.Length == row.Length)
    modifies row
    ensures row[0] == old(row[0]) && row[1..] == Unfiltered(filter, old(row[1..]), PrevRow(prev), bpp)
    ensures Decodes(filter, old(row[1..]), row[1..], if prev == null then None else Some(prev[1..]), bpp)
  {
    hide Decodes;
    match filter
    case 1 => UnfilterSub(row, PrevRow(prev), bpp);
    case 2 => UnfilterUp(row, prev, bpp);
    case 3 => UnfilterAverage(row, prev, bpp);
    case 4 => UnfilterPaeth(row, prev, bpp);
    case _ =>
      Done(filter, row[1..], row[1..], PrevRow(prev), bpp);
  }
}
