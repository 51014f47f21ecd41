/** The points of a line on the pixel grid. */
module Lines {
  import opened Bits
  import opened Results

  /** Division that truncates toward zero. */
  function TruncDiv(a: int, b: int): int
    requires b != 0
  {
    if (a >= 0) == (b > 0) then Abs(a) / Abs(b) else -(Abs(a) / Abs(b))
  }

  function Abs(x: int): nat {
    if x < 0 then -x else x
  }

  function Signum(x: int): int {
    if x < 0 then -1 else if x == 0 then 0 else 1
  }

  function CalcSlopePoint(da: int, db: int, ia: int): Option<int> {
    if da < db then None
    else if da == 0 then Some(0)
    else if 0 <= ia <= da then Some(TruncDiv(TruncDiv(2 * db * ia + da, da), 2))
    else None
  }

  // ---- rounding ----

  /** r is db * ia / da rounded to the nearest integer, halves up. */
  ghost predicate Rounds(da: int, db: int, ia: int, r: int) {
    2 * da * r <= 2 * (db * ia) + da < 2 * da * (r + 1)
  }

  lemma LessByScaling(d: int, a: int, b: int)
    requires d > 0 && d * a < d * b
    ensures a < b
  {
    if a >= b {
      Scaled(d, b, a);
    }
  }

  lemma DivTwice(x: int, d: int)
    requires d > 0 && x >= 0
    ensures 2 * d * (x / d / 2) <= x < 2 * d * (x / d / 2 + 1)
  {
    var q := x / d;
    var r := q / 2;
    assert d * q <= x < d * (q + 1);
    assert 2 * r <= q <= 2 * r + 1;
    Scaled(d, 2 * r, q);
    Scaled(d, q + 1, 2 * (r + 1));
    MulAssoc(d, 2, r);
    MulAssoc(d, 2, r + 1);
  }

  lemma Scaled(d: int, a: int, b: int)
    requires d > 0 && a <= b
    ensures d * a <= d * b
  {
  }

  lemma ProductNotNegative(a: int, b: int)
    requires a >= 0 && b >= 0
    ensures a * b >= 0
  {
  }

  /** The result is within half a pixel of the true height. */
  lemma SlopeRounds(da: int, db: int, ia: int)
    requires 0 <= db <= da && 0 < da && 0 <= ia <= da
    ensures CalcSlopePoint(da, db, ia).Some? && Rounds(da, db, ia, CalcSlopePoint(da, db, ia).value)
  {
    ProductNotNegative(db, ia);
    MulAssoc(2, db, ia);
    var x := 2 * db * ia + da;
    assert x == 2 * (db * ia) + da >= 0;
    assert x / da >= 0;
    assert CalcSlopePoint(da, db, ia) == Some(x / da / 2);
    DivTwice(x, da);
  }

  /** What `flat_map` makes of the steps 0 to n - 1: the pairs of a step and its result, where
      there is one. */
  function StepsWithResult(da: int, db: int, n: nat): seq<(int, int)> {
    if n == 0 then []
    else
      var r := CalcSlopePoint(da, db, n - 1);
      StepsWithResult(da, db, n - 1) + (if r.Some? then [(n - 1, r.value)] else [])
  }

  /** In the range the loops of `draw_line` run over no step is dropped: there is one pair per
      step, in order, with the rounded height of that step. */
  lemma {:induction false} NoStepDropped(da: int, db: int, n: nat)
    requires 0 <= db <= da && n <= da
    ensures |StepsWithResult(da, db, n)| == n
    ensures forall k | 0 <= k < n ::
              var pair := StepsWithResult(da, db, n)[k]; pair.0 == k && Rounds(da, db, k, pair.1)
  {
    if n == 0 {
    } else {
      NoStepDropped(da, db, n - 1);
      SlopeRounds(da, db, n - 1);
    }
  }

  lemma RoundsInside(da: int, db: int, ia: int, r: int)
    requires 0 <= db <= da && 0 < da && 0 <= ia <= da && Rounds(da, db, ia, r)
    ensures 0 <= r <= db && (ia == 0 ==> r == 0) && (ia == da ==> r == db)
  {
    ProductNotNegative(db, ia);
    LessByScaling(2 * da, 0, r + 1);
    assert db * ia <= db * da by {
      if db > 0 {
        Scaled(db, ia, da);
      }
    }
    assert 2 * da * db == 2 * (db * da);
    assert 2 * da * (db + 1) == 2 * da * db + 2 * da;
    LessByScaling(2 * da, r, db + 1);
    if ia == 0 {
      LessByScaling(2 * da, r, 1);
    }
    if ia == da {
      LessByScaling(2 * da, db, r + 1);
    }
  }

  lemma RoundsAdvance(da: int, db: int, ia: int, r: int, next: int)
    requires 0 <= db <= da && 0 < da && 0 <= ia && Rounds(da, db, ia, r) && Rounds(da, db, ia + 1, next)
    ensures r <= next <= r + 1
  {
    assert db * (ia + 1) == db * ia + db;
    assert 2 * da * (r + 2) == 2 * da * (r + 1) + 2 * da;
    LessByScaling(2 * da, next, r + 2);
    LessByScaling(2 * da, r, next + 1);
  }

  // ---- points ----

  datatype Point = Point(x: int, y: int)

  function Slope(da: int, db: int, ia: int): int {
    var s := CalcSlopePoint(da, db, ia);
    if s.Some? then s.value else 0
  }

  lemma SlopeInside(da: int, db: int, k: nat)
    requires 0 <= db <= da && 0 < da && k <= da
    ensures 0 <= Slope(da, db, k) <= db && (k == 0 ==> Slope(da, db, k) == 0) && (k == da ==> Slope(da, db, k) == db)
  {
    SlopeRounds(da, db, k);
    RoundsInside(da, db, k, Slope(da, db, k));
  }

  lemma SlopeAdvances(da: int, db: int, k: nat)
    requires 0 <= db <= da && 0 < da && k < da
    ensures Slope(da, db, k) <= Slope(da, db, k + 1) <= Slope(da, db, k) + 1
  {
    SlopeRounds(da, db, k);
    SlopeRounds(da, db, k + 1);
    RoundsAdvance(da, db, k, Slope(da, db, k), Slope(da, db, k + 1));
  }

  function Max(a: int, b: int): int {
    if a >= b then a else b
  }

  /** How many points a line has: its end is not one of them. */
  function Extent(p: Point, q: Point): nat {
    Max(Abs(q.x - p.x), Abs(q.y - p.y))
  }

  function PointAt(p: Point, q: Point, k: nat): Point {
    var dx, sx := Abs(q.x - p.x), Signum(q.x - p.x);
    var dy, sy := Abs(q.y - p.y), Signum(q.y - p.y);
    if dx >= dy then Point(p.x + k * sx, p.y + Slope(dx, dy, k) * sy)
    else Point(p.x + Slope(dy, dx, k) * sx, p.y + k * sy)
  }

  /** The first n points. */
  function Line(p: Point, q: Point, n: nat): (points: seq<Point>)
    ensures |points| == n
  {
    if n == 0 then [] else Line(p, q, n - 1) + [PointAt(p, q, n - 1)]
  }

  lemma {:induction false} LineAt(p: Point, q: Point, n: nat, k: nat)
    requires k < n
    ensures Line(p, q, n)[k] == PointAt(p, q, k)
  {
    if k == n - 1 {
    } else {
      LineAt(p, q, n - 1, k);
    }
  }

  ghost predicate Between(a: int, x: int, b: int) {
    a <= x <= b || b <= x <= a
  }

  lemma StepsBetween(a: int, b: int, k: nat)
    requires k <= Abs(b - a)
    ensures Between(a, a + k * Signum(b - a), b)
    ensures k == Abs(b - a) ==> a + k * Signum(b - a) == b
  {
  }

  /** Along the longer axis one step per point, along the shorter one the slope. */
  lemma OnSegment(a: int, a': int, b: int, b': int, k: nat, x: int, y: int)
    requires 0 < Abs(a' - a) && Abs(b' - b) <= Abs(a' - a) && k <= Abs(a' - a)
    requires x == a + k * Signum(a' - a) && y == b + Slope(Abs(a' - a), Abs(b' - b), k) * Signum(b' - b)
    ensures Between(a, x, a') && Between(b, y, b')
    ensures (k == 0 ==> x == a && y == b) && (k == Abs(a' - a) ==> x == a' && y == b')
  {
    SlopeInside(Abs(a' - a), Abs(b' - b), k);
    StepsBetween(a, a', k);
    StepsBetween(b, b', Slope(Abs(a' - a), Abs(b' - b), k));
  }

  lemma LinePointInBox(p: Point, q: Point, k: nat)
    requires k <= Extent(p, q) && Extent(p, q) > 0
    ensures Between(p.x, PointAt(p, q, k).x, q.x) && Between(p.y, PointAt(p, q, k).y, q.y)
    ensures k == 0 ==> PointAt(p, q, k) == p
    ensures k == Extent(p, q) ==> PointAt(p, q, k) == q
  {
    var at := PointAt(p, q, k);
    if Abs(q.x - p.x) >= Abs(q.y - p.y) {
      OnSegment(p.x, q.x, p.y, q.y, k, at.x, at.y);
    } else {
      OnSegment(p.y, q.y, p.x, q.x, k, at.y, at.x);
    }
  }

  ghost predicate Neighbours(a: Point, b: Point) {
    a != b && Abs(a.x - b.x) <= 1 && Abs(a.y - b.y) <= 1
  }

  lemma StepDifference(a: int, s: int, i: int, j: int)
    requires -1 <= s <= 1 && 0 <= j - i <= 1
    ensures Abs((a + j * s) - (a + i * s)) <= 1
    ensures j == i + 1 && s != 0 ==> a + j * s != a + i * s
  {
  }

  /** Consecutive points touch, and the last one touches the end. */
  lemma ConsecutivePointsTouch(p: Point, q: Point, k: nat)
    requires k < Extent(p, q)
    ensures Neighbours(PointAt(p, q, k), PointAt(p, q, k + 1))
  {
    var dx, dy := Abs(q.x - p.x), Abs(q.y - p.y);
    var sx, sy := Signum(q.x - p.x), Signum(q.y - p.y);
    if dx >= dy {
      SlopeAdvances(dx, dy, k);
      StepDifference(p.x, sx, k, k + 1);
      StepDifference(p.y, sy, Slope(dx, dy, k), Slope(dx, dy, k + 1));
    } else {
      SlopeAdvances(dy, dx, k);
      StepDifference(p.x, sx, Slope(dy, dx, k), Slope(dy, dx, k + 1));
      StepDifference(p.y, sy, k, k + 1);
    }
  }

  /** No point is drawn twice, and the end is not drawn. */
  lemma PointsDistinct(p: Point, q: Point, i: nat, j: nat)
    requires i < j <= Extent(p, q)
    ensures PointAt(p, q, i) != PointAt(p, q, j)
  {
    var s := if Abs(q.x - p.x) >= Abs(q.y - p.y) then Signum(q.x - p.x) else Signum(q.y - p.y);
    assert s == 1 || s == -1;
    assert i * s != j * s;
  }

  /** Measured along the shorter axis, every point is within half a pixel of the line from p to q. */
  lemma WithinHalfPixel(p: Point, q: Point, k: nat)
    requires k < Extent(p, q)
    ensures var dx, dy := q.x - p.x, q.y - p.y;
            var at := PointAt(p, q, k);
            2 * Abs((at.y - p.y) * dx - (at.x - p.x) * dy) <= Max(Abs(dx), Abs(dy))
  {
    var dx, dy := q.x - p.x, q.y - p.y;
    if Abs(dx) >= Abs(dy) {
      SlopeRounds(Abs(dx), Abs(dy), k);
      HalfPixel(dx, dy, k, Slope(Abs(dx), Abs(dy), k));
    } else {
      SlopeRounds(Abs(dy), Abs(dx), k);
      HalfPixel(dy, dx, k, Slope(Abs(dy), Abs(dx), k));
    }
  }

  lemma HalfPixel(da: int, db: int, k: nat, r: int)
    requires 0 < Abs(da) && Abs(db) <= Abs(da) && Rounds(Abs(da), Abs(db), k, r)
    ensures 2 * Abs((r * Signum(db)) * da - (k * Signum(da)) * db) <= Abs(da)
  {
    var a, b := Abs(da), Abs(db);
    var e := r * a - k * b;
    RoundingError(a, b, k, r);
    SignsFactorOut(r, k, a, b, Signum(da), Signum(db), e);
    assert da == a * Signum(da) && db == b * Signum(db);
  }

  lemma RoundingError(a: int, b: int, k: int, r: int)
    requires Rounds(a, b, k, r)
    ensures -a <= 2 * (r * a - k * b) <= a
  {
    assert 2 * a * r == 2 * (r * a) && 2 * (b * k) == 2 * (k * b) && 2 * a * (r + 1) == 2 * (r * a) + 2 * a;
  }

  lemma SignsFactorOut(r: int, k: int, a: int, b: int, sa: int, sb: int, e: int)
    requires -1 <= sa <= 1 && -1 <= sb <= 1 && e == r * a - k * b
    ensures Abs((r * sb) * (a * sa) - (k * sa) * (b * sb)) <= Abs(e)
  {
    Rearrange(r, a, sb, sa);
    Rearrange(k, b, sa, sb);
    var s := sa * sb;
    assert r * a * s - k * b * s == e * s;
    assert s == -1 || s == 0 || s == 1 by {
      assert sa == 0 || sa == 1 || sa == -1;
    }
  }

  lemma Rearrange(r: int, a: int, s: int, t: int)
    ensures (r * s) * (a * t) == r * a * (t * s)
  {
  }
}
