/** Points, segments and the canvas commands that Flot's plotting functions issue. */
module PlotGeometry {
  datatype Option<+T> = None | Some(value: T)

  datatype Point = Point(x: real, y: real)

  datatype Segment = Segment(from: Point, to: Point)

  /** An axis as the plotting functions see it: its range and its data-to-canvas mapping. */
  datatype AxisView = AxisView(min: real, max: real, p2c: real -> real)

  datatype Command = BeginPath | MoveTo(p: Point) | LineTo(p: Point) | Fill | Stroke

  /** Flat data: `pointsize` consecutive entries per point, all null for a gap. Reading outside the
      array yields null, as in JavaScript. */
  type FlatData = seq<Option<real>>

  function At(points: FlatData, i: int): Option<real> {
    if 0 <= i < |points| then points[i] else None
  }

  function Rows(points: FlatData, ps: nat): nat
    requires ps > 0
  {
    |points| / ps
  }

  /** Point k has all its coordinates, or is a gap. */
  ghost predicate RowComplete(points: FlatData, ps: nat, k: nat) {
    At(points, k * ps).Some? ==> forall i :: k * ps <= i < k * ps + ps ==> At(points, i).Some?
  }

  /** What processData leaves behind: whole points, each complete or a gap. */
  ghost predicate WellFormed(points: FlatData, ps: nat) {
    && 2 <= ps && |points| % ps == 0
    && forall k :: 0 <= k < Rows(points, ps) ==> RowComplete(points, ps, k)
  }

  lemma Scale(a: int, b: int, n: nat)
    ensures a <= b ==> a * n <= b * n
    ensures (a + 1) * n == a * n + n && (a - 1) * n == a * n - n
  {
  }

  lemma RowsFill(points: FlatData, ps: nat)
    requires WellFormed(points, ps)
    ensures |points| == Rows(points, ps) * ps
    ensures points == [] ==> Rows(points, ps) == 0
  {
  }

  lemma RowBounds(points: FlatData, ps: nat, k: nat)
    requires WellFormed(points, ps) && k * ps < |points|
    ensures k < Rows(points, ps) && k * ps + ps <= |points|
  {
    var rows := Rows(points, ps);
    RowsFill(points, ps);
    Scale(rows, k, ps);
    Scale(k + 1, rows, ps);
  }

  /** The k-th point, if it is not a gap and lies inside the array. */
  function Vertex(points: FlatData, ps: nat, k: int): Option<Point> {
    match (At(points, k * ps), At(points, k * ps + 1))
    case (Some(x), Some(y)) => Some(Point(x, y))
    case _ => None
  }

  function Swap(p: Point): Point {
    Point(p.y, p.x)
  }

  function SwapSegment(s: Segment): Segment {
    Segment(Swap(s.from), Swap(s.to))
  }

  /** The value a fraction t of the way from a to b. */
  function Mix(a: real, b: real, t: real): real {
    a + t * (b - a)
  }

  /** The point a fraction t of the way along a segment. */
  ghost function Along(s: Segment, t: real): Point {
    Point(Mix(s.from.x, s.to.x, t), Mix(s.from.y, s.to.y, t))
  }

  /** p lies on the segment, between fractions r and q of the way along it. */
  ghost predicate Within(p: Point, s: Segment, r: real, q: real) {
    exists t: real :: r <= t <= q && p == Along(s, t)
  }

  ghost predicate OnSegment(p: Point, s: Segment) {
    Within(p, s, 0.0, 1.0)
  }
}
