/** Drawing into a frame buffer: range checks, points, rectangles and lines. */
module Graphics {
  import opened Bits
  import opened Results
  import opened Lines
  import opened Pixels

  class Bitmap {
    const width: int
    const height: int
    const pixelsPerLine: int
    /** One word per pixel: a pixel has four bytes. */
    const buf: array<u32>

    /** The buffer holds every line. */
    ghost predicate Valid() {
      height > 0 && pixelsPerLine > 0 ==> pixelsPerLine * height <= buf.Length
    }

    predicate IsInXRange(px: int) {
      0 <= px < (if width <= pixelsPerLine then width else pixelsPerLine)
    }

    predicate IsInYRange(py: int) {
      0 <= py < height
    }

    lemma PixelInside(x: int, y: int)
      requires Valid() && IsInXRange(x) && IsInYRange(y)
      ensures 0 <= Index(pixelsPerLine, x, y) < buf.Length
    {
      IndexInside(pixelsPerLine, height, x, y);
    }

    /** The pixel's place in the buffer, if it is on the screen. */
    method PixelAt(x: int, y: int) returns (i: Option<int>)
      requires Valid()
      ensures i == if 0 <= x < width && x < pixelsPerLine && 0 <= y < height then Some(y * pixelsPerLine + x) else None
      ensures i.Some? ==> 0 <= i.value < buf.Length
    {
      if IsInXRange(x) && IsInYRange(y) {
        PixelInside(x, y);
        return Some(y * pixelsPerLine + x);
      }
      return None;
    }

    method UncheckedDrawPoint(color: u32, x: int, y: int)
      requires 0 <= Index(pixelsPerLine, x, y) < buf.Length
      modifies buf
      ensures buf[..] == old(buf[..])[Index(pixelsPerLine, x, y) := color]
    {
      buf[y * pixelsPerLine + x] := color;
    }

    method DrawPoint(color: u32, x: int, y: int) returns (r: Result<()>)
      requires Valid()
      modifies buf
      ensures if 0 <= x < width && x < pixelsPerLine && 0 <= y < height
              then r == Ok(()) && 0 <= y * pixelsPerLine + x < buf.Length
                   && buf[..] == old(buf[..])[y * pixelsPerLine + x := color]
              else r == Err("out of range") && buf[..] == old(buf[..])
    {
      var i := PixelAt(x, y);
      if i.None? {
        return Err("out of range");
      }
      buf[i.value] := color;
      return Ok(());
    }

    predicate RectInRange(px: int, py: int, w: int, h: int) {
      IsInXRange(px) && IsInYRange(py) && IsInXRange(px + w - 1) && IsInYRange(py + h - 1)
    }

    lemma RectInside(px: int, py: int, w: int, h: int)
      requires Valid() && RectInRange(px, py, w, h)
      ensures px + NotNegative(w) <= pixelsPerLine
      ensures Fits(buf.Length, Index(pixelsPerLine, px, py), pixelsPerLine, NotNegative(w), NotNegative(h))
    {
      LinesFit(py + NotNegative(h), height, pixelsPerLine);
      RectangleFits(buf.Length, pixelsPerLine, px, py, NotNegative(w), NotNegative(h));
    }

    static lemma LinesFit(lines: int, height: int, ppl: int)
      requires 0 <= lines <= height && 0 <= ppl
      ensures lines * ppl <= ppl * height
    {
    }

    /** One line of the rectangle. */
    method FillRow(color: u32, px: int, y: int, w: int)
      requires NotNegative(w) > 0 ==> 0 <= Index(pixelsPerLine, px, y) && Index(pixelsPerLine, px, y) + w <= buf.Length
      modifies buf
      ensures buf[..] == PaintRow(old(buf[..]), Index(pixelsPerLine, px, y), NotNegative(w), color)
    {
      ghost var before := buf[..];
      var x := px;
      while x < px + w
        invariant px <= x <= px + NotNegative(w)
        invariant buf[..] == PaintRow(before, Index(pixelsPerLine, px, y), x - px, color)
      {
        UncheckedDrawPoint(color, x, y);
        x := x + 1;
      }
    }

    /** Fails, and draws nothing, exactly when a corner is off the screen. */
    method FillRect(color: u32, px: int, py: int, w: int, h: int) returns (r: Result<()>)
      requires Valid()
      modifies buf
      ensures r.Ok? <==>
              && 0 <= px < width && px < pixelsPerLine && 0 <= py < height
              && 0 <= px + w - 1 < width && px + w - 1 < pixelsPerLine && 0 <= py + h - 1 < height
      ensures r.Err? ==> r == Err("out of range") && buf[..] == old(buf[..])
      ensures r.Ok? ==> RectDrawn(old(buf[..]), buf[..], pixelsPerLine, px, py, w, h, color)
      ensures r.Ok? ==>
                && Fits(buf.Length, Index(pixelsPerLine, px, py), pixelsPerLine, NotNegative(w), NotNegative(h))
                && buf[..] == Filled(old(buf[..]), Index(pixelsPerLine, px, py), pixelsPerLine,
                                     NotNegative(w), NotNegative(h), color)
    {
      if !IsInXRange(px) || !IsInYRange(py) || !IsInXRange(px + w - 1) || !IsInYRange(py + h - 1) {
        return Err("out of range");
      }
      RectInside(px, py, w, h);
      ghost var before, start := buf[..], Index(pixelsPerLine, px, py);
      var y := py;
      while y < py + h
        invariant py <= y <= py + NotNegative(h)
        invariant Fits(buf.Length, Index(pixelsPerLine, px, y), pixelsPerLine, NotNegative(w), NotNegative(py + h - y))
        invariant Filled(buf[..], Index(pixelsPerLine, px, y), pixelsPerLine, NotNegative(w), NotNegative(py + h - y), color)
               == Filled(before, start, pixelsPerLine, NotNegative(w), NotNegative(h), color)
      {
        FillRow(color, px, y, w);
        NextLine(pixelsPerLine, px, y);
        y := y + 1;
      }
      FilledIsDrawn(before, pixelsPerLine, px, py, NotNegative(w), NotNegative(h), color);
      return Ok(());
    }

    /** The first call of `init_display`: the whole screen is filled, and it cannot fail. */
    method FillScreen(color: u32) returns (r: Result<()>)
      requires Valid() && 0 < width <= pixelsPerLine && 0 < height
      modifies buf
      ensures r.Ok? && RectDrawn(old(buf[..]), buf[..], pixelsPerLine, 0, 0, width, height, color)
    {
      r := FillRect(color, 0, 0, width, height);
    }

    predicate LineInRange(p: Point, q: Point) {
      IsInXRange(p.x) && IsInXRange(q.x) && IsInYRange(p.y) && IsInYRange(q.y)
    }

    /** A line between points on the screen stays on the screen. */
    lemma LineInside(p: Point, q: Point, k: nat)
      requires Valid() && LineInRange(p, q) && k < Extent(p, q)
      ensures IsInXRange(PointAt(p, q, k).x) && IsInYRange(PointAt(p, q, k).y)
      ensures 0 <= Index(pixelsPerLine, PointAt(p, q, k).x, PointAt(p, q, k).y) < buf.Length
    {
      LinePointInBox(p, q, k);
      PixelInside(PointAt(p, q, k).x, PointAt(p, q, k).y);
    }

    lemma LineAllInside(p: Point, q: Point, n: nat)
      requires Valid() && LineInRange(p, q) && n <= Extent(p, q)
      ensures AllInside(buf.Length, pixelsPerLine, Line(p, q, n))
    {
      forall k | 0 <= k < n ensures 0 <= Index(pixelsPerLine, Line(p, q, n)[k].x, Line(p, q, n)[k].y) < buf.Length {
        LineAt(p, q, n, k);
        LineInside(p, q, k);
      }
    }

    ghost predicate HasPlotted(before: seq<u32>, p: Point, q: Point, n: nat, color: u32)
      reads buf
    {
      && |before| == buf.Length && AllInside(|before|, pixelsPerLine, Line(p, q, n))
      && buf[..] == Plotted(before, pixelsPerLine, Line(p, q, n), color)
    }

    lemma LineIsDrawn(before: seq<u32>, p: Point, q: Point, color: u32)
      requires Valid() && LineInRange(p, q) && HasPlotted(before, p, q, Extent(p, q), color)
      ensures PointsDrawn(before, buf[..], pixelsPerLine, Line(p, q, Extent(p, q)), color)
    {
      var points := Line(p, q, Extent(p, q));
      forall k | 0 <= k < |points| ensures 0 <= points[k].x < pixelsPerLine {
        LineAt(p, q, Extent(p, q), k);
        LineInside(p, q, k);
      }
      PlottedIsDrawn(before, pixelsPerLine, points, color);
    }

    lemma PlotsOneMore(before: seq<u32>, p: Point, q: Point, n: nat, color: u32)
      requires |before| == buf.Length && AllInside(|before|, pixelsPerLine, Line(p, q, n + 1))
      requires 0 <= Index(pixelsPerLine, PointAt(p, q, n).x, PointAt(p, q, n).y) < |before|
      ensures AllInside(|before|, pixelsPerLine, Line(p, q, n))
      ensures Plotted(before, pixelsPerLine, Line(p, q, n + 1), color)
           == Plotted(before, pixelsPerLine, Line(p, q, n), color)
                [Index(pixelsPerLine, PointAt(p, q, n).x, PointAt(p, q, n).y) := color]
    {
      assert Line(p, q, n + 1)[..n] == Line(p, q, n);
      forall k | 0 <= k < n
        ensures 0 <= Index(pixelsPerLine, Line(p, q, n)[k].x, Line(p, q, n)[k].y) < |before|
      {
        assert Line(p, q, n + 1)[k] == Line(p, q, n)[k];
      }
    }

    /** Draws point n of the line. */
    method DrawNext(color: u32, p: Point, q: Point, n: nat, at: Point, ghost before: seq<u32>) returns (r: Result<()>)
      requires Valid() && LineInRange(p, q) && n < Extent(p, q) && at == PointAt(p, q, n)
      requires HasPlotted(before, p, q, n, color)
      modifies buf
      ensures r == Ok(()) && HasPlotted(before, p, q, n + 1, color)
    {
      LineInside(p, q, n);
      LineAllInside(p, q, n + 1);
      PlotsOneMore(before, p, q, n, color);
      r := DrawPoint(color, at.x, at.y);
    }

    /** Fails, and draws nothing, exactly when an end is off the screen; otherwise draws the
        points of the line. */
    method DrawLine(color: u32, x0: int, y0: int, x1: int, y1: int) returns (r: Result<()>)
      requires Valid()
      modifies buf
      ensures r.Ok? <==>
              && 0 <= x0 < width && x0 < pixelsPerLine && 0 <= y0 < height
              && 0 <= x1 < width && x1 < pixelsPerLine && 0 <= y1 < height
      ensures r.Err? ==> r == Err("out of range") && buf[..] == old(buf[..])
      ensures r.Ok? ==>
                HasPlotted(old(buf[..]), Point(x0, y0), Point(x1, y1), Extent(Point(x0, y0), Point(x1, y1)), color)
      ensures r.Ok? ==>
                var p, q := Point(x0, y0), Point(x1, y1);
                PointsDrawn(old(buf[..]), buf[..], pixelsPerLine, Line(p, q, Extent(p, q)), color)
    {
      ghost var before := buf[..];
      if !IsInXRange(x0) || !IsInXRange(x1) || !IsInYRange(y0) || !IsInYRange(y1) {
        return Err("out of range");
      }
      if Abs(x1 - x0) >= Abs(y1 - y0) {
        r := DrawAlongX(color, Point(x0, y0), Point(x1, y1));
      } else {
        r := DrawAlongY(color, Point(x0, y0), Point(x1, y1));
      }
      LineIsDrawn(before, Point(x0, y0), Point(x1, y1), color);
    }

    /** One step along the x axis. */
    method StepAlongX(color: u32, p: Point, q: Point, rx: nat, ghost before: seq<u32>) returns (r: Result<()>)
      requires Valid() && LineInRange(p, q) && Abs(q.x - p.x) >= Abs(q.y - p.y) && rx < Extent(p, q)
      requires HasPlotted(before, p, q, rx, color)
      modifies buf
      ensures r == Ok(()) && HasPlotted(before, p, q, rx + 1, color)
    {
      var ry := CalcSlopePoint(Abs(q.x - p.x), Abs(q.y - p.y), rx);
      PointOnX(p, q, Abs(q.x - p.x), Abs(q.y - p.y), rx, ry);
      if ry.Some? {
        var at := Point(p.x + rx * Signum(q.x - p.x), p.y + ry.value * Signum(q.y - p.y));
        r := DrawNext(color, p, q, rx, at, before);
      }
    }

    method DrawAlongX(color: u32, p: Point, q: Point) returns (r: Result<()>)
      requires Valid() && LineInRange(p, q) && Abs(q.x - p.x) >= Abs(q.y - p.y)
      modifies buf
      ensures r == Ok(()) && HasPlotted(old(buf[..]), p, q, Extent(p, q), color)
    {
      ghost var before := buf[..];
      var rx, dx := 0, Abs(q.x - p.x);
      while rx < dx
        invariant 0 <= rx <= dx && HasPlotted(before, p, q, rx, color)
      {
        r := StepAlongX(color, p, q, rx, before);
        if r.Err? {
          return;
        }
        rx := rx + 1;
      }
      return Ok(());
    }

    /** One step along the y axis. */
    method StepAlongY(color: u32, p: Point, q: Point, ry: nat, ghost before: seq<u32>) returns (r: Result<()>)
      requires Valid() && LineInRange(p, q) && Abs(q.x - p.x) < Abs(q.y - p.y) && ry < Extent(p, q)
      requires HasPlotted(before, p, q, ry, color)
      modifies buf
      ensures r == Ok(()) && HasPlotted(before, p, q, ry + 1, color)
    {
      var rx := CalcSlopePoint(Abs(q.y - p.y), Abs(q.x - p.x), ry);
      PointOnY(p, q, Abs(q.x - p.x), Abs(q.y - p.y), ry, rx);
      if rx.Some? {
        var at := Point(p.x + rx.value * Signum(q.x - p.x), p.y + ry * Signum(q.y - p.y));
        r := DrawNext(color, p, q, ry, at, before);
      }
    }

    method DrawAlongY(color: u32, p: Point, q: Point) returns (r: Result<()>)
      requires Valid() && LineInRange(p, q) && Abs(q.x - p.x) < Abs(q.y - p.y)
      modifies buf
      ensures r == Ok(()) && HasPlotted(old(buf[..]), p, q, Extent(p, q), color)
    {
      ghost var before := buf[..];
      var ry, dy := 0, Abs(q.y - p.y);
      while ry < dy
        invariant 0 <= ry <= dy && HasPlotted(before, p, q, ry, color)
      {
        r := StepAlongY(color, p, q, ry, before);
        if r.Err? {
          return;
        }
        ry := ry + 1;
      }
      return Ok(());
    }
  }

  lemma PointOnX(p: Point, q: Point, dx: int, dy: int, rx: nat, ry: Option<int>)
    requires dx == Abs(q.x - p.x) && dy == Abs(q.y - p.y) && dx >= dy && rx < dx && ry == CalcSlopePoint(dx, dy, rx)
    ensures ry.Some?
    ensures PointAt(p, q, rx) == Point(p.x + rx * Signum(q.x - p.x), p.y + ry.value * Signum(q.y - p.y))
  {
    SlopeRounds(dx, dy, rx);
  }

  lemma PointOnY(p: Point, q: Point, dx: int, dy: int, ry: nat, rx: Option<int>)
    requires dx == Abs(q.x - p.x) && dy == Abs(q.y - p.y) && dx < dy && ry < dy && rx == CalcSlopePoint(dy, dx, ry)
    ensures rx.Some?
    ensures PointAt(p, q, ry) == Point(p.x + rx.value * Signum(q.x - p.x), p.y + ry * Signum(q.y - p.y))
  {
    SlopeRounds(dy, dx, ry);
  }
}
