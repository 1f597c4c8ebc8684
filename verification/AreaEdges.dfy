/** What the edges of plotLineArea look like: the y cuts bend them so that they follow the limits of the y axis
    wherever the data lies beyond. */
module AreaEdges {
  import opened PlotGeometry
  import opened LineClipping
  import opened AreaSweep

  function ClampY(v: real, y: AxisView): real {
    if v < y.min then y.min else if v > y.max then y.max else v
  }

  ghost predicate OnPath(q: Point, points: seq<Point>) {
    exists k :: 0 <= k < |points| - 1 && OnSegment(q, Segment(points[k], points[k + 1]))
  }

  /** q is a point of the edge, moved vertically into the y range. */
  ghost predicate OnClampedEdge(q: Point, s: Segment, y: AxisView) {
    exists t: real :: 0.0 <= t <= 1.0 && q == Point(Along(s, t).x, ClampY(Along(s, t).y, y))
  }

  // ---------------------------------------------------------------- level pieces

  function Level(s: Segment, h: real): Segment {
    Segment(Point(s.from.x, h), Point(s.to.x, h))
  }

  lemma AlongLevel(s: Segment, h: real, t: real)
    ensures Along(Level(s, h), t) == Point(Along(s, t).x, h)
  {
  }

  ghost predicate AtHeight(q: Point, s: Segment, h: real, r: real, e: real) {
    exists t: real :: r <= t <= e && q == Point(Along(s, t).x, h)
  }

  lemma LevelPiece(s: Segment, h: real, r: real, e: real, q: Point)
    requires 0.0 <= r <= e <= 1.0
    ensures OnSegment(q, Segment(Point(Along(s, r).x, h), Point(Along(s, e).x, h))) <==> AtHeight(q, s, h, r, e)
  {
    AlongLevel(s, h, r);
    AlongLevel(s, h, e);
    Piece(Level(s, h), r, e, q);
    if Within(q, Level(s, h), r, e) {
      var t: real :| r <= t <= e && q == Along(Level(s, h), t);
      AlongLevel(s, h, t);
    }
    if AtHeight(q, s, h, r, e) {
      var t: real :| r <= t <= e && q == Point(Along(s, t).x, h);
      AlongLevel(s, h, t);
    }
  }

  // ---------------------------------------------------------------- an edge that is partly inside

  /** Before fraction a and after fraction b the edge is clamped to one height, between them it is not. */
  ghost predicate Parts(s: Segment, y: AxisView, a: real, b: real) {
    && 0.0 <= a <= b <= 1.0
    && (forall t: real :: 0.0 <= t <= a ==> ClampY(Along(s, t).y, y) == Along(s, a).y)
    && (forall t: real :: a <= t <= b ==> ClampY(Along(s, t).y, y) == Along(s, t).y)
    && (forall t: real :: b <= t <= 1.0 ==> ClampY(Along(s, t).y, y) == Along(s, b).y)
  }

  lemma ClampedInParts(s: Segment, y: AxisView, a: real, b: real, q: Point)
    requires Parts(s, y, a, b)
    ensures OnClampedEdge(q, s, y) <==>
      AtHeight(q, s, Along(s, a).y, 0.0, a) || Within(q, s, a, b) || AtHeight(q, s, Along(s, b).y, b, 1.0)
  {
    if OnClampedEdge(q, s, y) {
      var t: real :| 0.0 <= t <= 1.0 && q == Point(Along(s, t).x, ClampY(Along(s, t).y, y));
    }
  }

  /** An end that is as far left or right as the edge itself needs no level piece. */
  lemma NoLevelPiece(s: Segment, h: real, r: real, e: real, q: Point)
    requires 0.0 <= r <= e <= 1.0 && Along(s, r).x == Along(s, e).x
    ensures AtHeight(q, s, h, r, e) <==> q == Point(Along(s, e).x, h)
  {
    var end := Point(Along(s, e).x, h);
    LevelPiece(s, h, r, e, q);
    if OnSegment(q, Segment(end, end)) {
      var t: real :| 0.0 <= t <= 1.0 && q == Along(Segment(end, end), t);
      MixBetween(end.x, end.x, t);
      MixBetween(end.y, end.y, t);
    }
    if q == end {
      assert q == Point(Along(s, e).x, h);
    }
  }

  lemma OnEnds(c: Segment)
    ensures OnSegment(c.from, c) && OnSegment(c.to, c)
  {
    Ends(c);
    assert c.from == Along(c, 0.0) && c.to == Along(c, 1.0);
  }

  /** What a path of up to six points consists of. */
  lemma PathPieces(s: Segment, c: Segment, q: Point)
    ensures OnPath(q, CutPoints(s, c)) <==>
      || (c.from.x != s.from.x && OnSegment(q, Segment(Point(s.from.x, c.from.y), c.from)))
      || OnSegment(q, c)
      || (c.to.x != s.to.x && OnSegment(q, Segment(c.to, Point(s.to.x, c.to.y))))
  {
    var points := CutPoints(s, c);
    var n := if c.from.x != s.from.x then 1 else 0;
    assert points[n] == c.from && points[n + 1] == c.to;
    assert c.from.x != s.from.x ==> points[0] == Point(s.from.x, c.from.y);
    assert c.to.x != s.to.x ==> |points| == n + 4 && points[n + 2] == c.to && points[n + 3] == Point(s.to.x, c.to.y);
    OnEnds(c);
    AtPoint(c.to, q);
    if OnSegment(q, c) {
      assert OnSegment(q, Segment(points[n], points[n + 1]));
    }
    if c.from.x != s.from.x && OnSegment(q, Segment(Point(s.from.x, c.from.y), c.from)) {
      assert OnSegment(q, Segment(points[0], points[0 + 1]));
    }
    if c.to.x != s.to.x && OnSegment(q, Segment(c.to, Point(s.to.x, c.to.y))) {
      assert OnSegment(q, Segment(points[n + 2], points[n + 2 + 1]));
    }
  }

  /** The second of two equal points adds nothing to a path. */
  lemma AtPoint(p: Point, q: Point)
    ensures OnSegment(q, Segment(p, p)) <==> q == p
  {
    OnEnds(Segment(p, p));
    if OnSegment(q, Segment(p, p)) {
      var t: real :| 0.0 <= t <= 1.0 && q == Along(Segment(p, p), t);
      MixBetween(p.x, p.x, t);
      MixBetween(p.y, p.y, t);
    }
  }

  lemma CutPathIsClamped(s: Segment, y: AxisView, a: real, b: real, q: Point)
    requires Parts(s, y, a, b)
    ensures OnPath(q, CutPoints(s, Segment(Along(s, a), Along(s, b)))) <==> OnClampedEdge(q, s, y)
  {
    var c := Segment(Along(s, a), Along(s, b));
    Ends(s);
    ClampedInParts(s, y, a, b, q);
    PathPieces(s, c, q);
    Piece(s, a, b, q);
    OnEnds(c);
    if c.from.x != s.from.x {
      LevelPiece(s, c.from.y, 0.0, a, q);
    } else {
      NoLevelPiece(s, c.from.y, 0.0, a, q);
    }
    if c.to.x != s.to.x {
      LevelPiece(s, c.to.y, b, 1.0, q);
    } else {
      NoLevelPiece(s, c.to.y, b, 1.0, q);
    }
  }

  // ---------------------------------------------------------------- where the cuts are

  /** The fraction at which the edge reaches a height. */
  function Fraction(s: Segment, h: real): real
    requires s.from.y != s.to.y
  {
    (h - s.from.y) / (s.to.y - s.from.y)
  }

  lemma ReachesHeight(s: Segment, h: real)
    requires s.from.y < h <= s.to.y || s.from.y <= h < s.to.y || s.to.y < h <= s.from.y || s.to.y <= h < s.from.y
    ensures 0.0 <= Fraction(s, h) <= 1.0 && Along(s, Fraction(s, h)) == CutAt(s, h)
  {
    FractionBounds(h - s.from.y, s.to.y - s.from.y);
    DivCancel(h - s.from.y, s.to.y - s.from.y);
  }

  /** A height is reached once only. */
  lemma SameHeight(s: Segment, t: real, u: real)
    requires s.from.y != s.to.y && Along(s, t).y == Along(s, u).y
    ensures t == u
  {
    MixDifference(s.from.y, s.to.y, t, u);
    MulSign(t - u, s.to.y - s.from.y);
  }

  /** Cutting a piece of the edge cuts the edge. */
  lemma CutPiece(s: Segment, r: real, e: real, h: real)
    requires s.from.y != s.to.y && 0.0 <= r <= e <= 1.0
    requires
      var (p, q) := (Along(s, r), Along(s, e));
      p.y < h <= q.y || p.y <= h < q.y || q.y < h <= p.y || q.y <= h < p.y
    requires s.from.y < h <= s.to.y || s.from.y <= h < s.to.y || s.to.y < h <= s.from.y || s.to.y <= h < s.from.y
    ensures CutAt(Segment(Along(s, r), Along(s, e)), h) == Along(s, Fraction(s, h))
    ensures r <= Fraction(s, h) <= e
  {
    var piece := Segment(Along(s, r), Along(s, e));
    var u := Fraction(piece, h);
    ReachesHeight(piece, h);
    AlongPiece(s, r, e, u);
    MixBetween(r, e, u);
    ReachesHeight(s, h);
    SameHeight(s, Mix(r, e, u), Fraction(s, h));
  }

  /** Heights along the edge are in the order of its ends. */
  lemma HeightOrder(s: Segment, t: real, u: real)
    requires t <= u
    ensures s.from.y <= s.to.y ==> Along(s, t).y <= Along(s, u).y
    ensures s.from.y >= s.to.y ==> Along(s, t).y >= Along(s, u).y
  {
    MixDifference(s.from.y, s.to.y, u, t);
    if s.from.y <= s.to.y {
      MulNonNegative(u - t, s.to.y - s.from.y);
    }
    if s.from.y >= s.to.y {
      MulNonNegative(u - t, s.from.y - s.to.y);
      Factor(0.0, u - t, s.from.y - s.to.y);
      assert (u - t) * (s.to.y - s.from.y) == -((u - t) * (s.from.y - s.to.y));
    }
  }

  /** Which heights an edge has before, between and behind two of its points. */
  lemma HeightsAround(s: Segment, y: AxisView, a: real, b: real)
    requires y.min <= y.max && 0.0 <= a <= b <= 1.0
    requires y.min <= Along(s, a).y <= y.max && y.min <= Along(s, b).y <= y.max
    requires a == 0.0 || Along(s, a).y == if s.from.y <= s.to.y then y.min else y.max
    requires b == 1.0 || Along(s, b).y == if s.from.y <= s.to.y then y.max else y.min
    ensures Parts(s, y, a, b)
  {
    forall t: real | 0.0 <= t <= 1.0
      ensures t <= a ==> ClampY(Along(s, t).y, y) == Along(s, a).y
      ensures a <= t <= b ==> ClampY(Along(s, t).y, y) == Along(s, t).y
      ensures b <= t ==> ClampY(Along(s, t).y, y) == Along(s, b).y
    {
      if t <= a {
        HeightOrder(s, t, a);
      }
      if a <= t <= b {
        HeightOrder(s, a, t);
        HeightOrder(s, t, b);
      }
      if b <= t {
        HeightOrder(s, b, t);
      }
    }
  }

  /** The two cuts of an edge that is partly inside the y range leave just the part that is. */
  lemma RisingParts(s: Segment, y: AxisView) returns (a: real, b: real)
    requires y.min <= y.max && s.from.y < s.to.y && s.to.y > y.min && s.from.y < y.max
    ensures Parts(s, y, a, b) && CutHigh(CutLow(s, y.min), y.max) == Segment(Along(s, a), Along(s, b))
  {
    a, b := 0.0, 1.0;
    Ends(s);
    if s.from.y < y.min {
      a := Fraction(s, y.min);
      ReachesHeight(s, y.min);
    }
    assert CutLow(s, y.min) == Segment(Along(s, a), Along(s, 1.0));
    if s.to.y > y.max {
      b := Fraction(s, y.max);
      ReachesHeight(s, y.max);
      CutPiece(s, a, 1.0, y.max);
    }
    HeightsAround(s, y, a, b);
  }

  lemma FallingParts(s: Segment, y: AxisView) returns (a: real, b: real)
    requires y.min <= y.max && s.from.y > s.to.y && s.from.y > y.min && s.to.y < y.max
    ensures Parts(s, y, a, b) && CutHigh(CutLow(s, y.min), y.max) == Segment(Along(s, a), Along(s, b))
  {
    a, b := 0.0, 1.0;
    Ends(s);
    if s.to.y < y.min {
      b := Fraction(s, y.min);
      ReachesHeight(s, y.min);
    }
    assert CutLow(s, y.min) == Segment(Along(s, 0.0), Along(s, b));
    if s.from.y > y.max {
      a := Fraction(s, y.max);
      ReachesHeight(s, y.max);
      CutPiece(s, 0.0, b, y.max);
    }
    HeightsAround(s, y, a, b);
  }

  lemma LevelParts(s: Segment, y: AxisView)
    requires y.min < s.from.y == s.to.y < y.max
    ensures Parts(s, y, 0.0, 1.0) && CutHigh(CutLow(s, y.min), y.max) == Segment(Along(s, 0.0), Along(s, 1.0))
  {
    Ends(s);
    HeightsAround(s, y, 0.0, 1.0);
  }

  // ---------------------------------------------------------------- the whole edge

  /** An edge that is nowhere inside follows the limit. */
  lemma OutsideIsClamped(s: Segment, y: AxisView, h: real, q: Point)
    requires y.min <= y.max
    requires (h == y.max && s.from.y >= h && s.to.y >= h) || (h == y.min && s.from.y <= h && s.to.y <= h)
    ensures OnPath(q, [Point(s.from.x, h), Point(s.to.x, h)]) <==> OnClampedEdge(q, s, y)
  {
    var points := [Point(s.from.x, h), Point(s.to.x, h)];
    Ends(s);
    LevelPiece(s, h, 0.0, 1.0, q);
    forall t: real | 0.0 <= t <= 1.0
      ensures ClampY(Along(s, t).y, y) == h
    {
      HeightOrder(s, 0.0, t);
      HeightOrder(s, t, 1.0);
    }
    if OnSegment(q, Segment(points[0], points[1])) {
      assert OnSegment(q, Segment(points[0], points[0 + 1]));
    }
  }

  /** In data coordinates the points lineTo is called with trace the edge, already clipped in x, moved
      vertically into the y range: nothing else, and nothing is missing. */
  lemma EdgeIsClamped(s: Segment, y: AxisView, q: Point)
    requires y.min <= y.max
    ensures OnPath(q, EdgePoints(s, y)) <==> OnClampedEdge(q, s, y)
  {
    if s.from.y >= y.max && s.to.y >= y.max {
      OutsideIsClamped(s, y, y.max, q);
    } else if s.from.y <= y.min && s.to.y <= y.min {
      OutsideIsClamped(s, y, y.min, q);
    } else {
      var a, b := 0.0, 1.0;
      if s.from.y < s.to.y {
        a, b := RisingParts(s, y);
      } else if s.from.y > s.to.y {
        a, b := FallingParts(s, y);
      } else {
        LevelParts(s, y);
      }
      CutPathIsClamped(s, y, a, b, q);
    }
  }

  /** The commands are these points on the canvas, from one end of the edge to the other. */
  lemma EdgeSpansX(s: Segment, x: AxisView, y: AxisView)
    ensures
      var points := EdgePoints(s, y);
      && |points| >= 2 && points[0].x == s.from.x && points[|points| - 1].x == s.to.x
      && |EdgeCommands(s, x, y)| == |points|
      && forall k :: 0 <= k < |points| ==>
           EdgeCommands(s, x, y)[k] == LineTo(Point(x.p2c(points[k].x), y.p2c(points[k].y)))
  {
  }

  // ---------------------------------------------------------------- what a pair of rows looks like

  function ClampX(v: real, x: AxisView): real {
    if v < x.min then x.min else if v > x.max then x.max else v
  }

  /** q is a point of the segment that is inside the x range, moved vertically into the y range. */
  ghost predicate Shows(q: Point, s: Segment, x: AxisView, y: AxisView) {
    exists p :: OnSegment(p, s) && x.min <= p.x <= x.max && q == Point(p.x, ClampY(p.y, y))
  }

  lemma ClampedIsShown(s: Segment, x: AxisView, y: AxisView, q: Point)
    requires ClipX(s, x).Some?
    ensures OnClampedEdge(q, ClipX(s, x).value, y) <==> Shows(q, s, x, y)
  {
    var c := ClipX(s, x).value;
    if OnClampedEdge(q, c, y) {
      var t: real :| 0.0 <= t <= 1.0 && q == Point(Along(c, t).x, ClampY(Along(c, t).y, y));
      assert OnSegment(Along(c, t), c);
      ClipXExact(s, x, Along(c, t));
    }
    if Shows(q, s, x, y) {
      var p :| OnSegment(p, s) && x.min <= p.x <= x.max && q == Point(p.x, ClampY(p.y, y));
      ClipXExact(s, x, p);
      var t: real :| 0.0 <= t <= 1.0 && p == Along(c, t);
      assert q == Point(Along(c, t).x, ClampY(Along(c, t).y, y));
    }
  }

  /** The commands are lines to these points on the canvas. */
  predicate DrawsAlong(cmds: seq<Command>, points: seq<Point>, x: AxisView, y: AxisView) {
    && |cmds| == |points|
    && forall i :: 0 <= i < |cmds| ==> cmds[i] == LineTo(Point(x.p2c(points[i].x), y.p2c(points[i].y)))
  }

  /** The points run from one end of the segment to the other, as far as these are inside both ranges. */
  predicate RunsAlong(points: seq<Point>, s: Segment, x: AxisView, y: AxisView) {
    && |points| >= 2
    && points[0].x == ClampX(s.from.x, x) && points[|points| - 1].x == ClampX(s.to.x, x)
    && (s.from.x == s.to.x ==> points[0].y == ClampY(s.from.y, y) && points[|points| - 1].y == ClampY(s.to.y, y))
  }

  /** What a segment of the data turns into: nothing if no point of it is inside the x range; otherwise lines along
      a path that consists of exactly those points, moved vertically into the y range. */
  ghost predicate DrawnAs(edge: Option<seq<Command>>, s: Segment, x: AxisView, y: AxisView) {
    match edge
    case None => forall p :: OnSegment(p, s) ==> !(x.min <= p.x <= x.max)
    case Some(cmds) =>
      && (exists p :: OnSegment(p, s) && x.min <= p.x <= x.max)
      && exists points :: DrawsAlong(cmds, points, x, y) && RunsAlong(points, s, x, y)
                          && forall q :: OnPath(q, points) <==> Shows(q, s, x, y)
  }

  lemma EdgePointsRun(s: Segment, x: AxisView, y: AxisView)
    requires x.min <= x.max && y.min <= y.max && ClipX(s, x).Some?
    ensures RunsAlong(EdgePoints(ClipX(s, x).value, y), s, x, y)
  {
    ClipXEnds(s, x);
    EdgeSpansX(ClipX(s, x).value, x, y);
    if s.from.x == s.to.x {
      VerticalEdge(s, y);
    }
  }

  /** A vertical edge keeps its x when it is cut. */
  lemma VerticalEdge(s: Segment, y: AxisView)
    requires y.min <= y.max && s.from.x == s.to.x
    ensures
      var points := EdgePoints(s, y);
      points[0].y == ClampY(s.from.y, y) && points[|points| - 1].y == ClampY(s.to.y, y)
  {
    forall t: real
      ensures Mix(s.from.x, s.to.x, t) == s.from.x
    {
      MixDifference(s.from.x, s.to.x, t, 0.0);
      MixEnds(s.from.x, s.to.x);
    }
  }

  lemma EdgeIsDrawn(s: Segment, x: AxisView, y: AxisView)
    requires x.min <= x.max && y.min <= y.max
    ensures DrawnAs(Commands(ClipX(s, x), x, y), s, x, y)
  {
    match ClipX(s, x)
    case None =>
      forall p | OnSegment(p, s)
        ensures !(x.min <= p.x <= x.max)
      {
        ClipXExact(s, x, p);
      }
    case Some(c) =>
      OnEnds(c);
      ClipXExact(s, x, c.from);
      var points := EdgePoints(c, y);
      EdgeSpansX(c, x, y);
      EdgePointsRun(s, x, y);
      forall q
        ensures OnPath(q, points) <==> Shows(q, s, x, y)
      {
        EdgeIsClamped(c, y, q);
        ClampedIsShown(s, x, y, q);
      }
      assert DrawsAlong(Commands(ClipX(s, x), x, y).value, points, x, y);
  }

  /** The whole of what is drawn for two neighbouring rows: on the way there the segment between their tops, on the
      way back the one between their bottoms, and to open an area a move to the point of the y range that is nearest
      to zero, at the first row's place. */
  lemma RowsAreDrawn(rows: seq<Option<Row>>, k: nat, x: AxisView, y: AxisView)
    requires x.min <= x.max && y.min <= y.max && k + 1 < |rows| && rows[k].Some? && rows[k + 1].Some?
    ensures
      var (o, r, n) := (OutlineOf(rows, x, y), rows[k].value, rows[k + 1].value);
      && DrawnAs(o.Top(k), Segment(Point(r.x, r.top), Point(n.x, n.top)), x, y)
      && DrawnAs(o.Bottom(k), Segment(Point(n.x, n.bottom), Point(r.x, r.bottom)), x, y)
      && (o.Top(k).Some? ==>
            o.Opening(k) == [BeginPath, MoveTo(Point(x.p2c(ClampX(r.x, x)), y.p2c(Baseline(y))))])
  {
    var r, n := rows[k].value, rows[k + 1].value;
    EdgeOfOutline(rows, x, y, k);
    EdgeIsDrawn(Segment(Point(r.x, r.top), Point(n.x, n.top)), x, y);
    EdgeIsDrawn(Segment(Point(n.x, n.bottom), Point(r.x, r.bottom)), x, y);
    if TopEdge(rows, k, x).Some? {
      ClipXEnds(Segment(Point(r.x, r.top), Point(n.x, n.top)), x);
    }
  }

  lemma BaselineIsNearestZero(y: AxisView, v: real)
    requires y.min <= v <= y.max
    ensures y.min <= Baseline(y) <= y.max
    ensures (if Baseline(y) < 0.0 then -Baseline(y) else Baseline(y)) <= (if v < 0.0 then -v else v)
  {
  }

  /** Nothing is drawn for a pair of rows of which one is a gap. */
  lemma GapsAreNotDrawn(rows: seq<Option<Row>>, k: int, x: AxisView, y: AxisView)
    requires !(0 <= k < |rows| - 1 && rows[k].Some? && rows[k + 1].Some?)
    ensures OutlineOf(rows, x, y).Top(k).None? && OutlineOf(rows, x, y).Bottom(k).None?
  {
    EdgeOfOutline(rows, x, y, k);
  }
}
