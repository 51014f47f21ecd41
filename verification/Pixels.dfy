/** What filling and plotting do to a buffer of pixels, as values. A pixel is one word; its
    index is that of the line times the words per line, plus the place in the line. */
module Pixels {
  import opened Bits
  import opened Lines

  function Index(ppl: int, x: int, y: int): int {
    y * ppl + x
  }

  lemma IndexInside(ppl: int, height: int, x: int, y: int)
    requires 0 <= x < ppl && 0 <= y < height
    ensures 0 <= Index(ppl, x, y) < ppl * height
  {
    assert y * ppl <= (height - 1) * ppl;
    assert (height - 1) * ppl == height * ppl - ppl;
  }

  lemma IndexInjective(ppl: int, x: int, y: int, x': int, y': int)
    requires 0 <= x < ppl && 0 <= x' < ppl && Index(ppl, x, y) == Index(ppl, x', y')
    ensures x == x' && y == y'
  {
    DivModUnique(Index(ppl, x, y), ppl, y, x);
    DivModUnique(Index(ppl, x', y'), ppl, y', x');
  }

  lemma NextLine(ppl: int, x: int, y: int)
    ensures Index(ppl, x, y + 1) == Index(ppl, x, y) + ppl
  {
  }

  // ---- rectangles: h rows of w words each, the first at `start`, `stride` words apart ----

  function NotNegative(n: int): nat {
    if n < 0 then 0 else n
  }

  /** w words from `start` on get the color. */
  function PaintRow(buf: seq<u32>, start: int, w: nat, color: u32): (after: seq<u32>)
    requires w > 0 ==> 0 <= start && start + w <= |buf|
    ensures |after| == |buf|
    decreases w
  {
    if w == 0 then buf else PaintRow(buf, start, w - 1, color)[start + w - 1 := color]
  }

  ghost predicate Fits(size: nat, start: int, stride: int, w: nat, h: nat)
    decreases h
  {
    h > 0 ==> 0 <= start && start + w <= size && w <= stride && Fits(size, start + stride, stride, w, h - 1)
  }

  function Filled(buf: seq<u32>, start: int, stride: int, w: nat, h: nat, color: u32): (after: seq<u32>)
    requires Fits(|buf|, start, stride, w, h)
    ensures |after| == |buf|
    decreases h
  {
    if h == 0 then buf else Filled(PaintRow(buf, start, w, color), start + stride, stride, w, h - 1, color)
  }

  /** w words from `start` on. */
  function Cells(start: int, w: nat): (cells: set<int>)
    ensures forall i :: i in cells <==> start <= i < start + w
    decreases w
  {
    if w == 0 then {} else Cells(start, w - 1) + {start + w - 1}
  }

  /** The words of a rectangle. */
  function Rect(start: int, stride: int, w: nat, h: nat): (cells: set<int>)
    decreases h
  {
    if h == 0 then {} else Cells(start, w) + Rect(start + stride, stride, w, h - 1)
  }

  lemma {:induction false} PaintRowExactly(buf: seq<u32>, start: int, w: nat, color: u32, i: int)
    requires 0 <= start && start + w <= |buf| && 0 <= i < |buf|
    ensures PaintRow(buf, start, w, color)[i] == if i in Cells(start, w) then color else buf[i]
    decreases w
  {
    if w == 0 {
    } else {
      PaintRowExactly(buf, start, w - 1, color, i);
    }
  }

  /** The words of the rectangle get the color, every other word of the buffer stays. */
  lemma {:induction false} FilledExactly(buf: seq<u32>, start: int, stride: int, w: nat, h: nat, color: u32, i: int)
    requires Fits(|buf|, start, stride, w, h) && 0 <= i < |buf|
    ensures Filled(buf, start, stride, w, h, color)[i] == if i in Rect(start, stride, w, h) then color else buf[i]
    decreases h
  {
    if h == 0 {
    } else {
      PaintRowExactly(buf, start, w, color, i);
      FilledExactly(PaintRow(buf, start, w, color), start + stride, stride, w, h - 1, color, i);
    }
  }

  lemma InRow(ppl: int, px: int, row: int, w: nat, x: int, y: int)
    requires 0 <= px && px + w <= ppl && 0 <= x < ppl
    ensures Index(ppl, px, row) <= Index(ppl, x, y) < Index(ppl, px, row) + w <==> y == row && px <= x < px + w
  {
    var i, first := Index(ppl, x, y), Index(ppl, px, row);
    if first <= i < first + w {
      IndexInjective(ppl, x, y, px + (i - first), row);
    }
  }

  lemma FirstRowOrBelow(start: int, stride: int, w: nat, h: nat, i: int)
    requires h > 0
    ensures i in Rect(start, stride, w, h) <==> start <= i < start + w || i in Rect(start + stride, stride, w, h - 1)
  {
  }

  /** These words are the pixels from (px, py) to (px + w - 1, py + h - 1). */
  lemma {:induction false} RectIsRectangle(ppl: int, px: int, py: int, w: nat, h: nat, x: int, y: int)
    requires 0 <= px && px + w <= ppl && 0 <= x < ppl
    ensures Index(ppl, x, y) in Rect(Index(ppl, px, py), ppl, w, h) <==> px <= x < px + w && py <= y < py + h
    decreases h
  {
    if h == 0 {
    } else {
      FirstRowOrBelow(Index(ppl, px, py), ppl, w, h, Index(ppl, x, y));
      NextLine(ppl, px, py);
      RectIsRectangle(ppl, px, py + 1, w, h - 1, x, y);
      InRow(ppl, px, py, w, x, y);
    }
  }

  lemma {:induction false} RectangleFits(size: nat, ppl: int, px: int, py: int, w: nat, h: nat)
    requires 0 <= px && 0 <= py && px + w <= ppl && (py + h) * ppl <= size
    ensures Fits(size, Index(ppl, px, py), ppl, w, h)
    decreases h
  {
    if h == 0 {
    } else {
      assert (py + 1) * ppl <= (py + h) * ppl;
      assert (py + 1) * ppl == py * ppl + ppl && py * ppl >= 0;
      NextLine(ppl, px, py);
      RectangleFits(size, ppl, px, py + 1, w, h - 1);
    }
  }

  /** w taken h times. */
  function Times(w: nat, h: nat): nat {
    if h == 0 then 0 else w + Times(w, h - 1)
  }

  lemma {:induction false} TimesIsProduct(w: nat, h: nat)
    ensures Times(w, h) == w * h
  {
    if h == 0 {
    } else {
      TimesIsProduct(w, h - 1);
      assert w * h == w + w * (h - 1);
    }
  }

  function CountedCells(start: int, w: nat): (cells: set<int>)
    ensures cells == Cells(start, w) && |cells| == w
    decreases w
  {
    if w == 0 then {} else CountedCells(start, w - 1) + {start + w - 1}
  }

  function CountedRect(start: int, stride: int, w: nat, h: nat): (cells: set<int>)
    requires w <= stride
    ensures cells == Rect(start, stride, w, h) && |cells| == Times(w, h)
    ensures forall i | i in cells :: i >= start
    decreases h
  {
    if h == 0 then {}
    else
      var row, below := CountedCells(start, w), CountedRect(start + stride, stride, w, h - 1);
      assert row !! below;
      row + below
  }

  /** There are w * h of them. */
  lemma RectCount(start: int, stride: int, w: nat, h: nat)
    requires w <= stride
    ensures |Rect(start, stride, w, h)| == w * h
  {
    assert CountedRect(start, stride, w, h) == Rect(start, stride, w, h);
    TimesIsProduct(w, h);
  }

  // ---- points ----

  ghost predicate AllInside(size: nat, ppl: int, points: seq<Point>) {
    forall k | 0 <= k < |points| :: 0 <= Index(ppl, points[k].x, points[k].y) < size
  }

  function Plotted(buf: seq<u32>, ppl: int, points: seq<Point>, color: u32): (after: seq<u32>)
    requires AllInside(|buf|, ppl, points)
    ensures |after| == |buf|
    decreases |points|
  {
    if points == [] then buf
    else
      var n := |points| - 1;
      Plotted(buf, ppl, points[..n], color)[Index(ppl, points[n].x, points[n].y) := color]
  }

  ghost predicate Hit(ppl: int, points: seq<Point>, i: int) {
    exists k :: 0 <= k < |points| && i == Index(ppl, points[k].x, points[k].y)
  }

  lemma HitLast(ppl: int, points: seq<Point>, i: int)
    requires points != []
    ensures var n := |points| - 1;
            Hit(ppl, points, i) <==> Hit(ppl, points[..n], i) || i == Index(ppl, points[n].x, points[n].y)
  {
    var n := |points| - 1;
    if Hit(ppl, points, i) {
      var k :| 0 <= k < |points| && i == Index(ppl, points[k].x, points[k].y);
      if k < n {
        assert points[..n][k] == points[k];
      }
    }
    if Hit(ppl, points[..n], i) {
      var k :| 0 <= k < n && i == Index(ppl, points[..n][k].x, points[..n][k].y);
      assert points[k] == points[..n][k];
    }
  }

  /** The words of the points get the color, every other word of the buffer stays. */
  lemma {:induction false} PlottedExactly(buf: seq<u32>, ppl: int, points: seq<Point>, color: u32, i: int)
    requires AllInside(|buf|, ppl, points) && 0 <= i < |buf|
    ensures Plotted(buf, ppl, points, color)[i] == if Hit(ppl, points, i) then color else buf[i]
    decreases |points|
  {
    if points == [] {
    } else {
      PlottedExactly(buf, ppl, points[..|points| - 1], color, i);
      HitLast(ppl, points, i);
    }
  }

  /** A pixel is hit exactly when it is one of the points. */
  lemma HitIsPoint(ppl: int, points: seq<Point>, x: int, y: int)
    requires 0 <= x < ppl && forall k | 0 <= k < |points| :: 0 <= points[k].x < ppl
    ensures Hit(ppl, points, Index(ppl, x, y)) <==> Point(x, y) in points
  {
    if Hit(ppl, points, Index(ppl, x, y)) {
      var k :| 0 <= k < |points| && Index(ppl, x, y) == Index(ppl, points[k].x, points[k].y);
      IndexInjective(ppl, x, y, points[k].x, points[k].y);
      assert points[k] == Point(x, y);
    }
    if Point(x, y) in points {
      var k :| 0 <= k < |points| && points[k] == Point(x, y);
      assert Index(ppl, x, y) == Index(ppl, points[k].x, points[k].y);
    }
  }

  // ---- the same, pixel by pixel ----

  /** A pixel of a line of the buffer, whether on the screen or behind its right edge. */
  predicate HasPixel(buf: seq<u32>, ppl: int, x: int, y: int) {
    0 <= x < ppl && 0 <= y && y * ppl + x < |buf|
  }

  lemma PixelIndex(ppl: int, x: int, y: int)
    requires 0 <= x < ppl && 0 <= y
    ensures 0 <= y * ppl + x == Index(ppl, x, y)
  {
  }

  function PixelOf(buf: seq<u32>, ppl: int, x: int, y: int): u32
    requires HasPixel(buf, ppl, x, y)
  {
    PixelIndex(ppl, x, y);
    buf[y * ppl + x]
  }

  /** The pixels of the rectangle have the color, all others are as before. */
  ghost predicate RectDrawn(before: seq<u32>, after: seq<u32>, ppl: int, px: int, py: int, w: int, h: int, color: u32) {
    && |after| == |before|
    && (forall x, y | HasPixel(before, ppl, x, y) ::
          PixelOf(after, ppl, x, y) ==
          if px <= x < px + w && py <= y < py + h then color else PixelOf(before, ppl, x, y))
  }

  lemma FilledIsDrawn(before: seq<u32>, ppl: int, px: int, py: int, w: nat, h: nat, color: u32)
    requires 0 <= px && px + w <= ppl && Fits(|before|, Index(ppl, px, py), ppl, w, h)
    ensures RectDrawn(before, Filled(before, Index(ppl, px, py), ppl, w, h, color), ppl, px, py, w, h, color)
  {
    var after := Filled(before, Index(ppl, px, py), ppl, w, h, color);
    forall x, y | HasPixel(before, ppl, x, y)
      ensures PixelOf(after, ppl, x, y) ==
              if px <= x < px + w && py <= y < py + h then color else PixelOf(before, ppl, x, y)
    {
      PixelIndex(ppl, x, y);
      FilledExactly(before, Index(ppl, px, py), ppl, w, h, color, Index(ppl, x, y));
      RectIsRectangle(ppl, px, py, w, h, x, y);
    }
  }

  /** The points have the color, all other pixels are as before. */
  ghost predicate PointsDrawn(before: seq<u32>, after: seq<u32>, ppl: int, points: seq<Point>, color: u32) {
    && |after| == |before|
    && (forall x, y | HasPixel(before, ppl, x, y) ::
          PixelOf(after, ppl, x, y) == if Point(x, y) in points then color else PixelOf(before, ppl, x, y))
  }

  lemma PlottedIsDrawn(before: seq<u32>, ppl: int, points: seq<Point>, color: u32)
    requires AllInside(|before|, ppl, points) && forall k | 0 <= k < |points| :: 0 <= points[k].x < ppl
    ensures PointsDrawn(before, Plotted(before, ppl, points, color), ppl, points, color)
  {
    var after := Plotted(before, ppl, points, color);
    forall x, y | HasPixel(before, ppl, x, y)
      ensures PixelOf(after, ppl, x, y) == if Point(x, y) in points then color else PixelOf(before, ppl, x, y)
    {
      PixelIndex(ppl, x, y);
      PlottedExactly(before, ppl, points, color, Index(ppl, x, y));
      HitIsPoint(ppl, points, x, y);
    }
  }
}
