/** The chunk-fed row assembler: `png_feed_bytes` of `main/map_tile.c`. */
module PngStream {
  import opened Bytes
  import opened PngFilters

  /** Image and crop parameters of the context; `convert` turns the bytes of one pixel into the
      pixel that is blitted. */
  datatype View = View(width: nat, bpp: nat, srcX0: int, srcY0: int, outW: int, outH: int, dstX0: int, dstY0: int,
                       convert: seq<byte> -> nat)
  {
    predicate Ok() { bpp > 0 }

    /** A scanline in the stream: filter byte and pixel data. */
    function FullRow(): (n: nat)
      ensures n >= 1
    {
      1 + bpp * width
    }

    /** The first row below the crop region. */
    function Limit(): int { srcY0 + outH }

    predicate Visible(y: int) { srcY0 <= y < Limit() }
  }

  /** One call of the display: a row of pixels at a position. */
  datatype Blit = Blit(x: int, y: int, pixels: seq<nat>)

  // ---- what a stream decodes to ----

  /** The complete scanlines of a stream, unfiltered. */
  function Decode(v: View, stream: seq<byte>, prev: Option<seq<byte>>): seq<seq<byte>>
    requires v.Ok()
    decreases |stream|
  {
    if |stream| < v.FullRow() then []
    else
      var row := Unfiltered(stream[0], stream[1..v.FullRow()], prev, v.bpp);
      [row] + Decode(v, stream[v.FullRow()..], Some(row))
  }

  /** The pixel at column `i` of the crop: black outside the image (a complete row holds every
      pixel of its width, see PixelInRow). */
  function PixelAt(v: View, row: seq<byte>, i: nat): nat {
    var sx := v.srcX0 + i;
    if sx < 0 || sx >= v.width || sx * v.bpp + v.bpp > |row| then 0
    else
      v.convert(row[sx * v.bpp..sx * v.bpp + v.bpp])
  }

  lemma PixelInRow(v: View, sx: nat)
    requires sx < v.width
    ensures sx * v.bpp + v.bpp <= v.FullRow() - 1
  {
    Below(sx, v.width, v.bpp);
  }

  lemma Below(a: nat, b: nat, k: nat)
    requires a < b
    ensures a * k + k <= k * b
  {
    var d := b - a - 1;
    assert k * b == k * a + k + k * d;
  }

  function CropRow(v: View, row: seq<byte>): (pixels: seq<nat>)
    ensures |pixels| == if v.outW > 0 then v.outW else 0
  {
    seq(if v.outW > 0 then v.outW else 0, i requires i >= 0 => PixelAt(v, row, i))
  }

  /** The blits for the first `n` scanlines: the visible ones, top to bottom. */
  function Drawn(v: View, rows: seq<seq<byte>>, n: nat): seq<Blit>
    requires n <= |rows|
  {
    if n == 0 then []
    else
      var blit := if v.Visible(n - 1) then [Blit(v.dstX0, v.dstY0 + (n - 1 - v.srcY0), CropRow(v, rows[n - 1]))]
        else [];
      Drawn(v, rows, n - 1) + blit
  }

  lemma DrawnStep(v: View, rows: seq<seq<byte>>, n: nat)
    requires n < |rows|
    ensures Drawn(v, rows, n + 1) == Drawn(v, rows, n)
      + (if v.Visible(n) then [Blit(v.dstX0, v.dstY0 + (n - v.srcY0), CropRow(v, rows[n]))] else [])
  {
  }

  /** What must be on the display after the stream `stream`. */
  function Picture(v: View, stream: seq<byte>): seq<Blit>
    requires v.Ok()
  {
    var rows := Decode(v, stream, None);
    Drawn(v, rows, |rows|)
  }

  // ---- each visible row once, in order ----

  /** The `k`-th blit is visible row `k`: cropped, at its place, and there are no others. */
  lemma {:induction false} EachVisibleRowOnce(v: View, rows: seq<seq<byte>>, n: nat)
    requires n <= |rows|
    ensures var first := if v.srcY0 < 0 then 0 else v.srcY0;
      var last := if n < v.Limit() then n else v.Limit();
      && |Drawn(v, rows, n)| == (if first < last then last - first else 0)
      && forall k :: 0 <= k < |Drawn(v, rows, n)| ==>
           Drawn(v, rows, n)[k] == Blit(v.dstX0, v.dstY0 + (first + k - v.srcY0), CropRow(v, rows[first + k]))
    decreases n
  {
    if n > 0 {
      EachVisibleRowOnce(v, rows, n - 1);
    }
  }

  lemma {:induction false} DrawnPrefix(v: View, a: seq<seq<byte>>, b: seq<seq<byte>>, n: nat)
    requires n <= |a| && a <= b
    ensures Drawn(v, a, n) == Drawn(v, b, n)
    decreases n
  {
    if n > 0 {
      DrawnPrefix(v, a, b, n - 1);
    }
  }

  /** Rows at or below the limit add nothing. */
  lemma {:induction false} DrawnStops(v: View, rows: seq<seq<byte>>, m: nat, n: nat)
    requires v.Limit() <= m <= n <= |rows|
    ensures Drawn(v, rows, n) == Drawn(v, rows, m)
    decreases n
  {
    if m < n {
      DrawnStops(v, rows, m, n - 1);
    }
  }

  // ---- streams made of whole scanlines ----

  /** The stream is a number of complete scanlines. */
  predicate Whole(v: View, stream: seq<byte>)
    decreases |stream|
  {
    stream == [] || (|stream| >= v.FullRow() && Whole(v, stream[v.FullRow()..]))
  }

  function LastRow(rows: seq<seq<byte>>, prev: Option<seq<byte>>): Option<seq<byte>> {
    if rows == [] then prev else Some(rows[|rows| - 1])
  }

  lemma {:induction false} DecodeStep(v: View, s: seq<byte>, prev: Option<seq<byte>>)
    requires v.Ok() && |s| >= v.FullRow()
    ensures var row := Unfiltered(s[0], s[1..v.FullRow()], prev, v.bpp);
      Decode(v, s, prev) == [row] + Decode(v, s[v.FullRow()..], Some(row))
  {
  }

  lemma LastOfMore(row: seq<byte>, rest: seq<seq<byte>>, prev: Option<seq<byte>>)
    ensures LastRow([row] + rest, prev) == LastRow(rest, Some(row))
  {
  }

  lemma NoRows(prev: Option<seq<byte>>)
    ensures LastRow([], prev) == prev
  {
  }

  lemma {:induction false} DecodeEmpty(v: View, prev: Option<seq<byte>>)
    requires v.Ok()
    ensures Decode(v, [], prev) == []
  {
  }

  /** The first scanline of `head + tail` is the first scanline of `head`. */
  lemma DecodeFirst(v: View, head: seq<byte>, tail: seq<byte>, prev: Option<seq<byte>>)
    returns (row: seq<byte>, after: seq<byte>)
    requires v.Ok() && head != [] && Whole(v, head)
    ensures |after| < |head| && Whole(v, after)
    ensures Decode(v, head, prev) == [row] + Decode(v, after, Some(row))
    ensures Decode(v, head + tail, prev) == [row] + Decode(v, after + tail, Some(row))
  {
    var n: nat := v.FullRow();
    assert |head| >= n && Whole(v, head[n..]);
    hide View.FullRow, Unfiltered, Whole, Decode;
    assert (head + tail)[1..n] == head[1..n] && (head + tail)[0] == head[0];
    assert (head + tail)[n..] == head[n..] + tail;
    row := Unfiltered(head[0], head[1..n], prev, v.bpp);
    after := head[n..];
    DecodeStep(v, head, prev);
    DecodeStep(v, head + tail, prev);
  }

  lemma Regroup(row: seq<byte>, rest: seq<seq<byte>>, more: seq<seq<byte>>)
    ensures [row] + (rest + more) == ([row] + rest) + more
  {
  }

  /** Decoding goes on behind whole scanlines with the last of them as the previous row. */
  lemma {:induction false} DecodeAppend(v: View, head: seq<byte>, tail: seq<byte>, prev: Option<seq<byte>>)
    requires v.Ok() && Whole(v, head)
    ensures var rows := Decode(v, head, prev);
      Decode(v, head + tail, prev) == rows + Decode(v, tail, LastRow(rows, prev))
    decreases |head|
  {
    if head == [] {
      DecodeEmpty(v, prev);
      NoRows(prev);
      assert head + tail == tail;
    } else {
      var row, after := DecodeFirst(v, head, tail, prev);
      DecodeAppend(v, after, tail, Some(row));
      hide Decode, LastRow, Whole;
      var rest := Decode(v, after, Some(row));
      LastOfMore(row, rest, prev);
      Regroup(row, rest, Decode(v, tail, LastRow(rest, Some(row))));
    }
  }

  lemma {:induction false} WholeAppend(v: View, head: seq<byte>, line: seq<byte>)
    requires Whole(v, head) && |line| == v.FullRow()
    ensures Whole(v, head + line)
    decreases |head|
  {
    if head == [] {
      assert head + line == line && line[v.FullRow()..] == [];
    } else {
      WholeAppend(v, head[v.FullRow()..], line);
      assert (head + line)[v.FullRow()..] == head[v.FullRow()..] + line;
    }
  }

  lemma {:induction false} DecodeOne(v: View, line: seq<byte>, prev: Option<seq<byte>>)
    requires v.Ok() && |line| == v.FullRow()
    ensures Decode(v, line, prev) == [Unfiltered(line[0], line[1..], prev, v.bpp)]
  {
    assert line[1..v.FullRow()] == line[1..] && line[v.FullRow()..] == [];
  }

  /** A stream that begins with whole scanlines down to the limit has its picture already. */
  lemma {:induction false} PictureComplete(v: View, head: seq<byte>, stream: seq<byte>)
    requires v.Ok() && Whole(v, head) && head <= stream && |Decode(v, head, None)| >= v.Limit()
    ensures Picture(v, stream) == Picture(v, head)
  {
    var tail := stream[|head|..];
    assert stream == head + tail;
    DecodeAppend(v, head, tail, None);
    var a, b := Decode(v, head, None), Decode(v, stream, None);
    DrawnPrefix(v, a, b, |a|);
    DrawnStops(v, b, |a|, |b|);
  }

  lemma {:induction false} PicturePartial(v: View, head: seq<byte>, part: seq<byte>)
    requires v.Ok() && Whole(v, head) && |part| < v.FullRow()
    ensures Picture(v, head + part) == Picture(v, head)
  {
    DecodeAppend(v, head, part, None);
    assert Decode(v, head + part, None) == Decode(v, head, None);
  }

  /** One more scanline. */
  lemma {:induction false} PictureNext(v: View, head: seq<byte>, line: seq<byte>)
    requires v.Ok() && Whole(v, head) && |line| == v.FullRow()
    ensures Whole(v, head + line)
    ensures var rows := Decode(v, head, None);
      var row := Unfiltered(line[0], line[1..], LastRow(rows, None), v.bpp);
      && Decode(v, head + line, None) == rows + [row]
      && Picture(v, head + line) == Picture(v, head)
           + (if v.Visible(|rows|) then [Blit(v.dstX0, v.dstY0 + (|rows| - v.srcY0), CropRow(v, row))] else [])
  {
    hide View.FullRow, Unfiltered, CropRow, Whole;
    WholeAppend(v, head, line);
    DecodeAppend(v, head, line, None);
    var rows := Decode(v, head, None);
    DecodeOne(v, line, LastRow(rows, None));
    hide Decode, Drawn;
    var more := Decode(v, head + line, None);
    DrawnPrefix(v, rows, more, |rows|);
    DrawnStep(v, more, |rows|);
  }

  // ---- what the picture shows, pixel by pixel ----

  /** Row `k` decodes scanline `k` of the stream, which begins with its filter byte, given the row
      before it; a scanline is one byte longer than `width` pixels of `bpp` bytes. */
  ghost predicate RowOf(v: View, stream: seq<byte>, prev: Option<seq<byte>>, rows: seq<seq<byte>>, k: nat)
    requires k < |rows|
  {
    var n := 1 + v.bpp * v.width;
    && n * k + n <= |stream| && |rows[k]| == v.bpp * v.width
    && Decodes(stream[n * k], stream[n * k + 1..n * k + n], rows[k], if k == 0 then prev else Some(rows[k - 1]), v.bpp)
  }

  /** The rows decode the stream up to an incomplete scanline. */
  ghost predicate RowsOf(v: View, stream: seq<byte>, prev: Option<seq<byte>>, rows: seq<seq<byte>>) {
    && (forall k :: 0 <= k < |rows| ==> RowOf(v, stream, prev, rows, k))
    && (1 + v.bpp * v.width) * |rows| <= |stream| < (1 + v.bpp * v.width) * (|rows| + 1)
  }

  lemma OneLineOn(n: nat, k: nat)
    ensures n * (k + 1) == n * k + n
  {
  }

  lemma RowBehind(v: View, stream: seq<byte>, prev: Option<seq<byte>>, row: seq<byte>, rest: seq<seq<byte>>, k: nat)
    requires |stream| >= 1 + v.bpp * v.width && k < |rest|
    requires RowOf(v, stream[1 + v.bpp * v.width..], Some(row), rest, k)
    ensures RowOf(v, stream, prev, [row] + rest, k + 1)
  {
    hide Decodes;
    var n := 1 + v.bpp * v.width;
    OneLineOn(n, k);
    SameLine(stream, n, n * k);
  }

  /** The scanline at `at` of what follows the first one. */
  lemma SameLine(stream: seq<byte>, n: nat, at: nat)
    requires n > 0 && at + n <= |stream| - n
    ensures stream[n..][at] == stream[at + n]
    ensures stream[n..][at + 1..at + n] == stream[at + n + 1..at + n + n]
  {
    var a, b := stream[n..][at + 1..at + n], stream[at + n + 1..at + n + n];
    assert |a| == |b| && forall i :: 0 <= i < |a| ==> a[i] == b[i];
  }

  lemma {:induction false} DecodedRows(v: View, stream: seq<byte>, prev: Option<seq<byte>>)
    requires v.Ok() && (prev.Some? ==> |prev.value| == v.bpp * v.width)
    ensures RowsOf(v, stream, prev, Decode(v, stream, prev))
    decreases |stream|
  {
    hide RowOf, Unfiltered, Decodes;
    var n := 1 + v.bpp * v.width;
    if |stream| >= n {
      var f, tail := stream[1..n], stream[n..];
      var row := Unfiltered(stream[0], f, prev, v.bpp);
      DecodedRows(v, tail, Some(row));
      var rest := Decode(v, tail, Some(row));
      FirstRow(v, stream, prev, rest);
      forall k | 0 <= k < |[row] + rest|
        ensures RowOf(v, stream, prev, [row] + rest, k)
      {
        if k > 0 {
          RowBehind(v, stream, prev, row, rest, k - 1);
        }
      }
      OneLineOn(n, |rest|);
      OneLineOn(n, |rest| + 1);
    }
  }

  lemma {:induction false} FirstRow(v: View, stream: seq<byte>, prev: Option<seq<byte>>, rest: seq<seq<byte>>)
    requires v.Ok() && |stream| >= 1 + v.bpp * v.width && (prev.Some? ==> |prev.value| == v.bpp * v.width)
    ensures var row := Unfiltered(stream[0], stream[1..1 + v.bpp * v.width], prev, v.bpp);
      RowOf(v, stream, prev, [row] + rest, 0) && |row| == v.bpp * v.width
  {
    hide Decodes;
    UnfilteredDecodes(stream[0], stream[1..1 + v.bpp * v.width], prev, v.bpp);
  }

  /** The blit shows row `y`: at its place on the display, pixel by pixel the converted pixels of its
      columns, black outside the image. */
  ghost predicate Shows(v: View, row: seq<byte>, y: int, blit: Blit) {
    && blit.x == v.dstX0 && blit.y == v.dstY0 + (y - v.srcY0)
    && |blit.pixels| == (if v.outW > 0 then v.outW else 0)
    && forall i :: 0 <= i < |blit.pixels| ==> PixelShown(v, row, v.srcX0 + i, blit.pixels[i])
  }

  predicate PixelShown(v: View, row: seq<byte>, x: int, pixel: nat) {
    if 0 <= x < v.width then x * v.bpp + v.bpp <= |row| && pixel == v.convert(row[x * v.bpp..x * v.bpp + v.bpp])
    else pixel == 0
  }

  lemma CropShows(v: View, row: seq<byte>, y: int)
    requires |row| == v.bpp * v.width
    ensures Shows(v, row, y, Blit(v.dstX0, v.dstY0 + (y - v.srcY0), CropRow(v, row)))
  {
    hide CropRow, PixelShown, PixelAt;
    var pixels := CropRow(v, row);
    forall i | 0 <= i < |pixels|
      ensures PixelShown(v, row, v.srcX0 + i, pixels[i])
    {
      CropPixel(v, row, i);
    }
  }

  lemma CropPixel(v: View, row: seq<byte>, i: nat)
    requires |row| == v.bpp * v.width && i < v.outW
    ensures PixelShown(v, row, v.srcX0 + i, CropRow(v, row)[i])
  {
    if 0 <= v.srcX0 + i < v.width {
      PixelInRow(v, v.srcX0 + i);
    }
  }

  /** The picture of a stream in terms of its bytes: the decoded rows from `srcY0` on, `outH` of them
      as far as there are so many, one blit each, top to bottom. */
  lemma PictureShows(v: View, stream: seq<byte>) returns (rows: seq<seq<byte>>)
    requires v.Ok()
    ensures RowsOf(v, stream, None, rows)
    ensures var first := if v.srcY0 < 0 then 0 else v.srcY0;
      var last := if |rows| < v.srcY0 + v.outH then |rows| else v.srcY0 + v.outH;
      && |Picture(v, stream)| == (if first < last then last - first else 0)
      && forall k :: 0 <= k < |Picture(v, stream)| ==> Shows(v, rows[first + k], first + k, Picture(v, stream)[k])
  {
    rows := Decode(v, stream, None);
    DecodedRows(v, stream, None);
    EachVisibleRowOnce(v, rows, |rows|);
    hide Decodes, Drawn, CropRow, Shows;
    var first := if v.srcY0 < 0 then 0 else v.srcY0;
    assert |rows| < v.Limit() || |rows| >= v.Limit();
    forall k | 0 <= k < |Picture(v, stream)|
      ensures Shows(v, rows[first + k], first + k, Picture(v, stream)[k])
    {
      assert RowOf(v, stream, None, rows, first + k);
      CropShows(v, rows[first + k], first + k);
    }
  }

  // ---- the context ----

  class PngContext {
    const view: View
    var rowCur: array<byte>
    var rowPrev: array<byte>
    var rowPos: nat
    var currentRow: nat
    var blits: seq<Blit>
    ghost var fed: seq<byte>     // every byte ever passed in
    ghost var head: seq<byte>    // the whole scanlines of it that were assembled before the limit

    /** After the bytes `bytes`: below the limit the buffers hold the state of the stream, the
        current row possibly complete; once the limit is reached only the picture matters. */
    ghost predicate Holds(bytes: seq<byte>)
      reads this, rowCur, rowPrev
    {
      && view.Ok() && rowCur != rowPrev && rowCur.Length == rowPrev.Length == view.FullRow()
      && rowPos <= view.FullRow()
      && Whole(view, head) && head <= bytes
      && blits == Picture(view, head)
      && var rows := Decode(view, head, None);
         if |rows| >= view.Limit() then currentRow >= view.Limit()
         else
           && currentRow == |rows|
           && bytes == head + rowCur[..rowPos]
           && (currentRow > 0 ==> LastRow(rows, None) == Some(rowPrev[1..]))
    }

    ghost predicate After(bytes: seq<byte>)
      reads this, rowCur, rowPrev
    {
      Holds(bytes) && rowPos < view.FullRow()
    }

    ghost predicate Valid()
      reads this, rowCur, rowPrev
    {
      After(fed)
    }

    constructor (v: View)
      requires v.Ok()
      ensures Valid() && view == v && fed == [] && blits == [] && fresh(rowCur) && fresh(rowPrev)
    {
      view := v;
      rowCur := new byte[v.FullRow()](_ => 0);
      rowPrev := new byte[v.FullRow()](_ => 0);
      rowPos := 0;
      currentRow := 0;
      blits := [];
      fed := [];
      head := [];
    }

    /** Wherever the stream was cut so far, the display shows the picture of the whole of it. */
    lemma ShowsPicture()
      requires Valid()
      ensures blits == Picture(view, fed)
    {
      if |Decode(view, head, None)| >= view.Limit() {
        PictureComplete(view, head, fed);
      } else {
        PicturePartial(view, head, rowCur[..rowPos]);
      }
    }

    /** "Full row ready": unfilter, draw if visible, swap the buffers. */
    method FinishRow()
      requires view.Ok() && rowCur != rowPrev && rowCur.Length == rowPrev.Length == view.FullRow()
      modifies this`rowCur, this`rowPrev, this`rowPos, this`currentRow, this`blits, rowCur
      ensures rowPos == 0 && currentRow == old(currentRow) + 1
      ensures rowCur == old(rowPrev) && rowPrev == old(rowCur)
      ensures rowPrev[1..] == Unfiltered(old(rowCur[0]), old(rowCur[1..]),
        if old(currentRow) > 0 then Some(old(rowPrev[1..])) else None, view.bpp)
      ensures blits == old(blits) +
        if view.Visible(old(currentRow))
        then [Blit(view.dstX0, view.dstY0 + (old(currentRow) - view.srcY0), CropRow(view, rowPrev[1..]))] else []
    {
      rowPos := 0;
      var filter := rowCur[0];
      var above: array?<byte> := if currentRow > 0 then rowPrev else null;
      UnfilterRow(filter, rowCur, above, view.bpp);
      var y := currentRow;
      if y >= view.srcY0 && y < view.srcY0 + view.outH {
        var lcdY := view.dstY0 + (y - view.srcY0);
        var pixels := DrawRow();
        blits := blits + [Blit(view.dstX0, lcdY, pixels)];
      }
      var tmp := rowPrev;
      rowPrev := rowCur;
      rowCur := tmp;
      currentRow := currentRow + 1;
    }

    /** The pixel loop over the visible columns. */
    method DrawRow() returns (pixels: seq<nat>)
      requires view.Ok() && rowCur.Length == view.FullRow()
      ensures pixels == CropRow(view, rowCur[1..])
    {
      pixels := [];
      var i := 0;
      while i < view.outW
        invariant 0 <= i && (i <= view.outW || i == 0) && |pixels| == i
        invariant forall k :: 0 <= k < i ==> pixels[k] == PixelAt(view, rowCur[1..], k)
      {
        var sx := view.srcX0 + i;
        if sx < 0 || sx >= view.width {
          pixels := pixels + [0];
        } else {
          PixelInRow(view, sx);
          assert rowCur[1..][sx * view.bpp..sx * view.bpp + view.bpp]
            == rowCur[1 + sx * view.bpp..1 + sx * view.bpp + view.bpp];
          pixels := pixels + [view.convert(rowCur[1 + sx * view.bpp..1 + sx * view.bpp + view.bpp])];
        }
        i := i + 1;
      }
    }

    /** The copy into the current row. */
    method CopyIn(part: seq<byte>, ghost bytes: seq<byte>)
      requires Holds(bytes) && |part| <= view.FullRow() - rowPos
      modifies this`rowPos, rowCur
      ensures Holds(bytes + part) && rowPos == old(rowPos) + |part|
    {
      hide View.FullRow, Decode, Picture, Whole;
      forall k | 0 <= k < |part| {
        rowCur[rowPos + k] := part[k];
      }
      assert rowCur[..rowPos + |part|] == old(rowCur[..rowPos]) + part;
      assert rowPrev[1..] == old(rowPrev[1..]);
      rowPos := rowPos + |part|;
    }

    /** A complete row is finished and counted. */
    method Complete(ghost bytes: seq<byte>)
      requires Holds(bytes) && rowPos == view.FullRow()
      modifies this`rowCur, this`rowPrev, this`rowPos, this`currentRow, this`blits, this`head, rowCur
      ensures After(bytes) && rowPos == 0
      ensures {rowCur, rowPrev} == old({rowCur, rowPrev})
      ensures currentRow >= view.Limit() ==> |Decode(view, head, None)| >= view.Limit()
    {
      hide View.FullRow, Decode, Picture, CropRow, Unfiltered, Whole;
      ghost var rows := Decode(view, head, None);
      ghost var line := rowCur[..];
      assert line[1..] == rowCur[1..];
      FinishRow();
      if |rows| < view.Limit() {
        PictureNext(view, head, line);
        assert bytes == head + line;
        head := head + line;
        assert rowCur[..0] == [] && head + [] == head;
      }
    }

    /** `png_feed_bytes` */
    method Feed(data: seq<byte>)
      requires Valid()
      modifies this, rowCur, rowPrev
      ensures Valid() && fed == old(fed) + data
      ensures {rowCur, rowPrev} == old({rowCur, rowPrev})
      ensures blits == Picture(view, old(fed) + data)
    {
      hide View.FullRow, Decode, Picture, Whole, LastRow;
      ghost var before := fed;
      var pos := 0;
      assert before + data[..0] == before;
      while pos < |data|
        invariant 0 <= pos <= |data| && After(before + data[..pos]) && fed == before
        invariant {rowCur, rowPrev} == old({rowCur, rowPrev})
        decreases |data| - pos
      {
        var need := view.FullRow() - rowPos;
        var take := if |data| - pos < need then |data| - pos else need;
        CopyIn(data[pos..pos + take], before + data[..pos]);
        assert (before + data[..pos]) + data[pos..pos + take] == before + data[..pos + take];
        pos := pos + take;
        if rowPos < view.FullRow() {
          continue;
        }
        Complete(before + data[..pos]);
        if currentRow >= view.Limit() {
          break;
        }
      }
      assert before + data[..pos] <= before + data;
      assert pos == |data| ==> data[..pos] == data;
      fed := before + data;
      ShowsPicture();
    }

    /** A whole stream in any number of pieces. */
    method FeedAll(chunks: seq<seq<byte>>)
      requires Valid() && fed == []
      modifies this, rowCur, rowPrev
      ensures Valid() && fed == Joined(chunks)
      ensures blits == Picture(view, Joined(chunks))
    {
      hide View.FullRow, Decode, Picture, Whole, LastRow;
      var i := 0;
      ghost var cur, prev := rowCur, rowPrev;
      while i < |chunks|
        invariant 0 <= i <= |chunks| && Valid() && {rowCur, rowPrev} == {cur, prev}
        invariant fed == Joined(chunks[..i])
      {
        assert chunks[..i + 1][..i] == chunks[..i];
        Feed(chunks[i]);
        i := i + 1;
      }
      assert chunks[..i] == chunks;
      ShowsPicture();
    }
  }

  /** The concatenation of the chunks. */
  function Joined(chunks: seq<seq<byte>>): seq<byte> {
    if chunks == [] then [] else Joined(chunks[..|chunks| - 1]) + chunks[|chunks| - 1]
  }
}
