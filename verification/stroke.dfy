/** Stroke subdivision of the reveal trail: how many stamps a frame paints
    between the previous and the current pointer position, and where. */
module Stroke {

  /** A position in device pixels. */
  datatype Point = Point(x: real, y: real)

  /** Squared Euclidean distance; the source takes its square root, which the
      model leaves to the caller (see Frame in module Reveal). */
  function SqDist(a: Point, b: Point): (d: real)
    ensures d >= 0.0
  {
    (b.x - a.x) * (b.x - a.x) + (b.y - a.y) * (b.y - a.y)
  }

  /** `Math.ceil`, built from Floor: the least integer not below x. */
  function Ceil(x: real): (n: int)
    ensures x <= n as real < x + 1.0
  {
    -((-x).Floor)
  }

  /** `Math.max(1, Math.ceil(dist / (r * 0.25)))`: the least positive whole
      number of quarter radii that is at least dist. */
  function Steps(dist: real, r: real): (n: nat)
    requires r > 0.0 && dist >= 0.0
    ensures n >= 1
    ensures n as real >= dist / (r * 0.25)
    ensures n == 1 || n as real - 1.0 < dist / (r * 0.25)
  {
    var c := Ceil(dist / (r * 0.25));
    if c > 1 then c else 1
  }

  /** The steps' quarter radii laid end to end cover the stroke. */
  lemma StepsCover(dist: real, r: real)
    requires r > 0.0 && dist >= 0.0
    ensures Steps(dist, r) as real * (r * 0.25) >= dist
  {
    var q := r * 0.25;
    DivMul(dist, q);
    MulMono(dist / q, Steps(dist, r) as real, q);
  }

  lemma MulMono(a: real, b: real, q: real)
    requires a <= b && q > 0.0
    ensures a * q <= b * q
  {
  }

  /** The point at parameter t on the segment from `from` to `to`, written as
      the source writes it: `px + dx * t`, `py + dy * t`. */
  function Lerp(from: Point, to: Point, t: real): (p: Point)
    ensures t == 0.0 ==> p == from
    ensures t == 1.0 ==> p == to
  {
    Point(from.x + (to.x - from.x) * t, from.y + (to.y - from.y) * t)
  }

  /** The stamp centres of one stroke: `t = i / steps` for `i = 0 .. steps`. */
  function Path(from: Point, to: Point, steps: nat): seq<Point>
    requires steps >= 1
  {
    seq(steps + 1, i requires 0 <= i <= steps => Lerp(from, to, i as real / steps as real))
  }

  /** The loop `for (let i = 0; i <= steps; i++)` of the frame callback,
      collecting the centres it stamps at. */
  method StrokePoints(from: Point, to: Point, steps: nat) returns (pts: seq<Point>)
    requires steps >= 1
    ensures pts == Path(from, to, steps)
  {
    var dx := to.x - from.x;
    var dy := to.y - from.y;
    pts := [];
    var i := 0;
    while i <= steps
      invariant 0 <= i <= steps + 1
      invariant |pts| == i
      invariant forall k :: 0 <= k < i ==> pts[k] == Lerp(from, to, k as real / steps as real)
    {
      var t := i as real / steps as real;
      pts := pts + [Point(from.x + dx * t, from.y + dy * t)];
      i := i + 1;
    }
  }

  /** The stroke starts at the previous position (t = 0) and ends at the
      current one (t = 1), with one more centre than segments. */
  lemma PathEnds(from: Point, to: Point, steps: nat)
    requires steps >= 1
    ensures |Path(from, to, steps)| == steps + 1
    ensures Path(from, to, steps)[0] == from
    ensures Path(from, to, steps)[steps] == to
  {
    assert 0 as real / steps as real == 0.0;
    assert steps as real / steps as real == 1.0;
  }

  /** Consecutive centres are evenly spaced: each step moves by the whole
      displacement divided by the number of steps. */
  lemma PathStep(from: Point, to: Point, steps: nat, i: nat)
    requires steps >= 1 && i < steps
    ensures Path(from, to, steps)[i + 1].x - Path(from, to, steps)[i].x == (to.x - from.x) / steps as real
    ensures Path(from, to, steps)[i + 1].y - Path(from, to, steps)[i].y == (to.y - from.y) / steps as real
  {
    var n := steps as real;
    var dx, dy := to.x - from.x, to.y - from.y;
    assert (i + 1) as real / n - i as real / n == 1.0 / n;
    assert dx * ((i + 1) as real / n) - dx * (i as real / n) == dx * (1.0 / n);
    assert dy * ((i + 1) as real / n) - dy * (i as real / n) == dy * (1.0 / n);
  }

  /** Coverage continuity: when dist is the length of the stroke, no two
      consecutive stamp centres are more than a quarter radius apart. */
  lemma PathGap(from: Point, to: Point, dist: real, r: real, i: nat)
    requires r > 0.0 && dist >= 0.0 && dist * dist == SqDist(from, to)
    requires i < Steps(dist, r)
    ensures SqDist(Path(from, to, Steps(dist, r))[i], Path(from, to, Steps(dist, r))[i + 1])
            <= (r * 0.25) * (r * 0.25)
  {
    var steps := Steps(dist, r);
    var n, q := steps as real, r * 0.25;
    StepsCover(dist, r);
    var dx, dy := to.x - from.x, to.y - from.y;
    assert dist * dist == dx * dx + dy * dy;
    PathStep(from, to, steps, i);
    SegmentGap(Path(from, to, steps)[i], Path(from, to, steps)[i + 1], dx, dy, dist, n, q);
  }

  /** One segment of a stroke cut into n equal pieces is no longer than q. */
  lemma SegmentGap(a: Point, b: Point, dx: real, dy: real, dist: real, n: real, q: real)
    requires n >= 1.0 && q > 0.0 && dist >= 0.0
    requires dist * dist == dx * dx + dy * dy && dist <= n * q
    requires b.x - a.x == dx / n && b.y - a.y == dy / n
    ensures SqDist(a, b) <= q * q
  {
    GapBound(dx, dy, dist, n, q);
  }

  /** The arithmetic core of PathGap: a displacement of length dist cut into
      n pieces, with dist <= n * q, gives pieces no longer than q. */
  lemma GapBound(dx: real, dy: real, dist: real, n: real, q: real)
    requires n >= 1.0 && q > 0.0 && dist >= 0.0
    requires dist * dist == dx * dx + dy * dy && dist <= n * q
    ensures (dx / n) * (dx / n) + (dy / n) * (dy / n) <= q * q
  {
    var gx, gy := dx / n, dy / n;
    DivMul(dx, n);
    DivMul(dy, n);
    assert (gx * gx + gy * gy) * (n * n) == dist * dist by {
      assert (gx * gx) * (n * n) == (gx * n) * (gx * n) == dx * dx;
      assert (gy * gy) * (n * n) == (gy * n) * (gy * n) == dy * dy;
    }
    assert dist * dist <= (q * q) * (n * n) by {
      SquareMono(dist, n * q);
    }
    CancelPos(gx * gx + gy * gy, q * q, n * n);
  }

  lemma SquareMono(a: real, b: real)
    requires 0.0 <= a <= b
    ensures a * a <= b * b
  {
    MulMono(a, b, b + 1.0);
  }

  lemma CancelPos(x: real, y: real, m: real)
    requires m > 0.0 && x * m <= y * m
    ensures x <= y
  {
  }

  lemma DivMul(a: real, q: real)
    requires q != 0.0
    ensures (a / q) * q == a
  {
  }

  /** A stroke whose ends coincide stamps only at that one point: no segment
      is drawn from a stale position. */
  lemma PathStill(p: Point, steps: nat)
    requires steps >= 1
    ensures forall k :: 0 <= k < |Path(p, p, steps)| ==> Path(p, p, steps)[k] == p
  {
  }
}
