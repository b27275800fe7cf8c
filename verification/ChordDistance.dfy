/** The distance of path compaction: how far a vertex sits off a chord, squared.

    The program compares `dist > worst` and `worst > epsilon` with non-negative distances, so
    comparing the squares takes the same branches; a negative epsilon, which every distance
    exceeds, is a case of its own. */
module ChordDistance {
  import opened Arith

  datatype Point = Point(x: real, y: real)

  // The square of the 1e-12 below which a chord counts as a single point.
  const FLAT_SQUARED := 0.000000000000000000000001

  function ChordSquared(a: Point, b: Point): real {
    (b.x - a.x) * (b.x - a.x) + (b.y - a.y) * (b.y - a.y)
  }

  /** The square of the code's own distance: to the point `a` when the chord is degenerate,
      else to the infinite line through `a` and `b`. */
  function Deviation(a: Point, b: Point, p: Point): (d: real)
    ensures d >= 0.0
  {
    var (dx, dy) := (b.x - a.x, b.y - a.y);
    var (ux, uy) := (p.x - a.x, p.y - a.y);
    var norm := ChordSquared(a, b);
    if norm < FLAT_SQUARED then
      ux * ux + uy * uy
    else
      var cross := dy * ux - dx * uy;
      assert cross * cross >= 0.0;
      QuotientNotNegative(cross * cross, norm);
      cross * cross / norm
  }

  /** The squared distance from `p` to the point `t` of the way from `a` to `b`, on or beyond the
      chord. */
  function DistanceAt(a: Point, b: Point, p: Point, t: real): real {
    var (dx, dy) := (b.x - a.x, b.y - a.y);
    var (ex, ey) := (p.x - a.x - t * dx, p.y - a.y - t * dy);
    ex * ex + ey * ey
  }

  /** The identity behind the distance to a line: with `d` the chord and `u` the way to the point,
      |d|^2 |u - t d|^2 = (d x u)^2 + (d . u - t |d|^2)^2. */
  lemma LineIdentity(dx: real, dy: real, ux: real, uy: real, t: real)
    ensures (dx * dx + dy * dy) * ((ux - t * dx) * (ux - t * dx) + (uy - t * dy) * (uy - t * dy))
      == (dy * ux - dx * uy) * (dy * ux - dx * uy)
       + (dx * ux + dy * uy - t * (dx * dx + dy * dy)) * (dx * ux + dy * uy - t * (dx * dx + dy * dy))
  {
  }

  lemma QuotientAtMost(c: real, n: real, d: real)
    requires n > 0.0 && n * d >= c
    ensures c / n <= d
  {
    var q := c / n;
    assert n * q == c;
    if q > d {
      StrictlyScaled(d, q, n);
    }
  }

  lemma QuotientExactly(c: real, n: real, d: real)
    requires n > 0.0 && n * d == c
    ensures c / n == d
  {
  }

  lemma SquareNotNegative(x: real)
    ensures x * x >= 0.0
  {
  }

  /** For a chord that is not degenerate the deviation is no more than the squared distance to any
      point of the infinite line through its ends. */
  lemma DeviationIsLeast(a: Point, b: Point, p: Point, t: real)
    requires ChordSquared(a, b) >= FLAT_SQUARED
    ensures Deviation(a, b, p) <= DistanceAt(a, b, p, t)
  {
    var (dx, dy) := (b.x - a.x, b.y - a.y);
    var (ux, uy) := (p.x - a.x, p.y - a.y);
    var norm, cross := ChordSquared(a, b), dy * ux - dx * uy;
    LineIdentity(dx, dy, ux, uy, t);
    SquareNotNegative(dx * ux + dy * uy - t * (dx * dx + dy * dy));
    QuotientAtMost(cross * cross, norm, DistanceAt(a, b, p, t));
  }

  /** And it is reached, at the foot of the perpendicular. */
  lemma DeviationIsReached(a: Point, b: Point, p: Point) returns (t: real)
    requires ChordSquared(a, b) >= FLAT_SQUARED
    ensures Deviation(a, b, p) == DistanceAt(a, b, p, t)
  {
    var (dx, dy) := (b.x - a.x, b.y - a.y);
    var (ux, uy) := (p.x - a.x, p.y - a.y);
    var norm, cross := ChordSquared(a, b), dy * ux - dx * uy;
    t := (dx * ux + dy * uy) / norm;
    LineIdentity(dx, dy, ux, uy, t);
    assert dx * ux + dy * uy - t * norm == 0.0;
    QuotientExactly(cross * cross, norm, DistanceAt(a, b, p, t));
  }

  /** `worst > epsilon`, on squares. */
  predicate Exceeds(squared: real, epsilon: real) {
    epsilon < 0.0 || squared > epsilon * epsilon
  }

  /** The point is within epsilon of the chord: of some point of the infinite line through `a` and
      `b`, or of `a` itself when the chord is degenerate. Said without the distance the code computes. */
  ghost predicate Near(a: Point, b: Point, p: Point, epsilon: real) {
    exists t: real :: NearAt(a, b, p, epsilon, t)
  }

  predicate NearAt(a: Point, b: Point, p: Point, epsilon: real, t: real) {
    (ChordSquared(a, b) < 0.000000000001 * 0.000000000001 ==> t == 0.0) && DistanceAt(a, b, p, t) <= epsilon * epsilon
  }

  /** The code's test tells exactly the points that are not near; as it holds of every epsilon, it
      leaves no choice of the distance. */
  lemma TooFarIff(a: Point, b: Point, p: Point, epsilon: real)
    requires epsilon >= 0.0
    ensures Exceeds(Deviation(a, b, p), epsilon) <==> !Near(a, b, p, epsilon)
  {
    if ChordSquared(a, b) < FLAT_SQUARED {
      assert DistanceAt(a, b, p, 0.0) == Deviation(a, b, p);
      assert NearAt(a, b, p, epsilon, 0.0) <==> !Exceeds(Deviation(a, b, p), epsilon);
    } else {
      var foot := DeviationIsReached(a, b, p);
      assert NearAt(a, b, p, epsilon, foot) <==> !Exceeds(Deviation(a, b, p), epsilon);
      if t: real :| NearAt(a, b, p, epsilon, t) {
        DeviationIsLeast(a, b, p, t);
      }
    }
  }

  /** What compaction needs of a distance: how far a point is off a chord, and when that is too far. */
  datatype Metric = Metric(off: (Point, Point, Point) -> real, over: real -> bool)

  ghost predicate ValidMetric(metric: Metric) {
    && (forall a, b, p :: metric.off(a, b, p) >= 0.0)
    && (forall x, y :: x <= y && metric.over(x) ==> metric.over(y))
  }

  /** The program's own. */
  function CodeMetric(epsilon: real): Metric {
    Metric(Deviation, d => Exceeds(d, epsilon))
  }

  lemma CodeMetricValid(epsilon: real)
    ensures ValidMetric(CodeMetric(epsilon))
  {
    forall a, b, p
      ensures CodeMetric(epsilon).off(a, b, p) >= 0.0
    {
      assert CodeMetric(epsilon).off(a, b, p) == Deviation(a, b, p);
    }
  }
}
