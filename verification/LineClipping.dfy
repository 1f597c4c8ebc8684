/** plotLine of jquery.flot.js: each segment of a line is clipped to the axis ranges and drawn, with no
    moveTo when a segment starts where the previous one ended. */
module LineClipping {
  import opened PlotGeometry

  // ---------------------------------------------------------------- clipping one segment

  /** The new end point where a segment meets the height `bound`. */
  function CutAt(s: Segment, bound: real): Point
    requires s.from.y != s.to.y
  {
    Point(Mix(s.from.x, s.to.x, (bound - s.from.y) / (s.to.y - s.from.y)), bound)
  }

  /** The part of a segment with y at least `min`. */
  function ClipYMin(s: Segment, min: real): Option<Segment> {
    if s.from.y <= s.to.y && s.from.y < min then
      if s.to.y < min then None else Some(Segment(CutAt(s, min), s.to))
    else if s.to.y <= s.from.y && s.to.y < min then
      if s.from.y < min then None else Some(Segment(s.from, CutAt(s, min)))
    else Some(s)
  }

  /** The part of a segment with y at most `max`. */
  function ClipYMax(s: Segment, max: real): Option<Segment> {
    if s.from.y >= s.to.y && s.from.y > max then
      if s.to.y > max then None else Some(Segment(CutAt(s, max), s.to))
    else if s.to.y >= s.from.y && s.to.y > max then
      if s.from.y > max then None else Some(Segment(s.from, CutAt(s, max)))
    else Some(s)
  }

  function ClipXMin(s: Segment, min: real): Option<Segment> {
    match ClipYMin(SwapSegment(s), min)
    case None => None
    case Some(t) => Some(SwapSegment(t))
  }

  function ClipXMax(s: Segment, max: real): Option<Segment> {
    match ClipYMax(SwapSegment(s), max)
    case None => None
    case Some(t) => Some(SwapSegment(t))
  }

  /** The four cuts in the order plotLine makes them. */
  function Clip(s: Segment, x: AxisView, y: AxisView): Option<Segment> {
    match ClipYMin(s, y.min)
    case None => None
    case Some(s1) =>
      match ClipYMax(s1, y.max)
      case None => None
      case Some(s2) =>
        match ClipXMin(s2, x.min)
        case None => None
        case Some(s3) => ClipXMax(s3, x.max)
  }

  ghost predicate OnPart(p: Point, s: Option<Segment>) {
    s.Some? && OnSegment(p, s.value)
  }

  ghost predicate InBox(p: Point, x: AxisView, y: AxisView) {
    x.min <= p.x <= x.max && y.min <= p.y <= y.max
  }

  // ---------------------------------------------------------------- exactness

  lemma DivCancel(a: real, b: real)
    requires b != 0.0
    ensures a / b * b == a
  {
  }

  lemma MulSign(a: real, b: real)
    ensures a > 0.0 && b > 0.0 ==> a * b > 0.0
    ensures a < 0.0 && b > 0.0 ==> a * b < 0.0
    ensures a > 0.0 && b < 0.0 ==> a * b < 0.0
    ensures a < 0.0 && b < 0.0 ==> a * b > 0.0
  {
  }

  lemma MulNonNegative(a: real, b: real)
    requires a >= 0.0 && b >= 0.0
    ensures a * b >= 0.0
  {
  }

  lemma FractionBounds(a: real, b: real)
    requires b != 0.0 && (if b > 0.0 then 0.0 <= a <= b else b <= a <= 0.0)
    ensures 0.0 <= a / b <= 1.0
  {
    var q := a / b;
    DivCancel(a, b);
    MulSign(q, b);
    Factor(q, 1.0, b);
    MulSign(q - 1.0, b);
  }

  lemma Factor(t: real, c: real, d: real)
    ensures (t - c) * d == t * d - c * d
  {
  }

  lemma MixEnds(a: real, b: real)
    ensures Mix(a, b, 0.0) == a && Mix(a, b, 1.0) == b
  {
  }

  lemma MixReversed(a: real, b: real, t: real)
    ensures Mix(a, b, t) == Mix(b, a, 1.0 - t)
  {
    Factor(1.0, t, a - b);
    assert t * (b - a) == -(t * (a - b)) by {
      Factor(0.0, t, a - b);
      assert (0.0 - t) * (a - b) == t * (b - a);
    }
  }

  lemma MixBetween(a: real, b: real, t: real)
    requires a <= b && 0.0 <= t <= 1.0
    ensures a <= Mix(a, b, t) <= b
  {
    MulNonNegative(t, b - a);
    MulNonNegative(1.0 - t, b - a);
    Factor(1.0, t, b - a);
  }

  /** How far apart the values at two fractions are. */
  lemma MixDifference(a: real, b: real, t: real, c: real)
    ensures Mix(a, b, t) - Mix(a, b, c) == (t - c) * (b - a)
  {
    Factor(t, c, b - a);
  }

  /** A fraction of a piece is a fraction of the whole. */
  lemma MixPiece(a: real, b: real, r: real, q: real, u: real)
    ensures Mix(Mix(a, b, r), Mix(a, b, q), u) == Mix(a, b, Mix(r, q, u))
  {
    MixDifference(a, b, q, r);
    var d := b - a;
    assert u * ((q - r) * d) == u * (q - r) * d;
    assert (r + u * (q - r)) * d == r * d + u * (q - r) * d;
  }

  lemma AlongPiece(s: Segment, r: real, q: real, u: real)
    ensures Along(Segment(Along(s, r), Along(s, q)), u) == Along(s, Mix(r, q, u))
  {
    MixPiece(s.from.x, s.to.x, r, q, u);
    MixPiece(s.from.y, s.to.y, r, q, u);
  }

  /** The fraction of [r, q] at which t lies. */
  lemma FractionOf(r: real, q: real, t: real) returns (u: real)
    requires r <= t <= q
    ensures 0.0 <= u <= 1.0 && Mix(r, q, u) == t
  {
    if r == q {
      u := 0.0;
      MixEnds(r, q);
    } else {
      u := (t - r) / (q - r);
      FractionBounds(t - r, q - r);
      DivCancel(t - r, q - r);
    }
  }

  /** Sub-segments: the piece between fractions r and q holds exactly the points at fractions in [r, q]. */
  lemma Piece(s: Segment, r: real, q: real, p: Point)
    requires 0.0 <= r <= q <= 1.0
    ensures OnSegment(p, Segment(Along(s, r), Along(s, q))) <==> Within(p, s, r, q)
  {
    var piece := Segment(Along(s, r), Along(s, q));
    if OnSegment(p, piece) {
      var u: real :| 0.0 <= u <= 1.0 && p == Along(piece, u);
      AlongPiece(s, r, q, u);
      MixBetween(r, q, u);
    }
    if Within(p, s, r, q) {
      var t: real :| r <= t <= q && p == Along(s, t);
      var u := FractionOf(r, q, t);
      AlongPiece(s, r, q, u);
      assert p == Along(piece, u);
    }
  }

  /** Which side of `bound` the value at fraction t lies on, if `bound` is reached at fraction c. */
  lemma SideOfCrossing(a: real, b: real, bound: real, c: real, t: real)
    requires a != b && Mix(a, b, c) == bound
    ensures a < b ==> (Mix(a, b, t) >= bound <==> t >= c) && (Mix(a, b, t) <= bound <==> t <= c)
    ensures a > b ==> (Mix(a, b, t) >= bound <==> t <= c) && (Mix(a, b, t) <= bound <==> t >= c)
  {
    MixDifference(a, b, t, c);
    MulSign(t - c, b - a);
  }

  /** Where a segment that is not level crosses the height `bound`, and what lies on either side. */
  lemma Crossing(s: Segment, bound: real, p: Point) returns (c: real)
    requires s.from.y < bound <= s.to.y || s.from.y <= bound < s.to.y
          || s.to.y < bound <= s.from.y || s.to.y <= bound < s.from.y
    ensures 0.0 <= c <= 1.0 && Along(s, c) == CutAt(s, bound)
    ensures Within(p, s, c, 1.0) <==> OnSegment(p, s) && if s.from.y < s.to.y then p.y >= bound else p.y <= bound
    ensures Within(p, s, 0.0, c) <==> OnSegment(p, s) && if s.from.y < s.to.y then p.y <= bound else p.y >= bound
  {
    c := (bound - s.from.y) / (s.to.y - s.from.y);
    FractionBounds(bound - s.from.y, s.to.y - s.from.y);
    DivCancel(bound - s.from.y, s.to.y - s.from.y);
    BeyondCrossing(s, bound, c, p);
    BeforeCrossing(s, bound, c, p);
  }

  lemma BeyondCrossing(s: Segment, bound: real, c: real, p: Point)
    requires 0.0 <= c <= 1.0 && s.from.y != s.to.y && Along(s, c).y == bound
    ensures Within(p, s, c, 1.0) <==> OnSegment(p, s) && if s.from.y < s.to.y then p.y >= bound else p.y <= bound
  {
    if Within(p, s, c, 1.0) {
      var t: real :| c <= t <= 1.0 && p == Along(s, t);
      SideOfCrossing(s.from.y, s.to.y, bound, c, t);
    } else if OnSegment(p, s) {
      var t: real :| 0.0 <= t <= 1.0 && p == Along(s, t);
      SideOfCrossing(s.from.y, s.to.y, bound, c, t);
    }
  }

  lemma BeforeCrossing(s: Segment, bound: real, c: real, p: Point)
    requires 0.0 <= c <= 1.0 && s.from.y != s.to.y && Along(s, c).y == bound
    ensures Within(p, s, 0.0, c) <==> OnSegment(p, s) && if s.from.y < s.to.y then p.y <= bound else p.y >= bound
  {
    if Within(p, s, 0.0, c) {
      var t: real :| 0.0 <= t <= c && p == Along(s, t);
      SideOfCrossing(s.from.y, s.to.y, bound, c, t);
    } else if OnSegment(p, s) {
      var t: real :| 0.0 <= t <= 1.0 && p == Along(s, t);
      SideOfCrossing(s.from.y, s.to.y, bound, c, t);
    }
  }

  lemma Ends(s: Segment)
    ensures Along(s, 0.0) == s.from && Along(s, 1.0) == s.to
  {
    MixEnds(s.from.x, s.to.x);
    MixEnds(s.from.y, s.to.y);
  }

  /** A segment cut where it crosses `bound` keeps the points on one side of it. */
  lemma CutFrom(s: Segment, bound: real, p: Point)
    requires s.from.y < bound <= s.to.y || s.to.y <= bound < s.from.y
    ensures OnSegment(p, Segment(CutAt(s, bound), s.to)) <==>
      OnSegment(p, s) && if s.from.y < s.to.y then p.y >= bound else p.y <= bound
  {
    var c := Crossing(s, bound, p);
    Piece(s, c, 1.0, p);
    Ends(s);
  }

  lemma CutTo(s: Segment, bound: real, p: Point)
    requires s.from.y <= bound < s.to.y || s.to.y < bound <= s.from.y
    ensures OnSegment(p, Segment(s.from, CutAt(s, bound))) <==>
      OnSegment(p, s) && if s.from.y < s.to.y then p.y <= bound else p.y >= bound
  {
    var c := Crossing(s, bound, p);
    Piece(s, 0.0, c, p);
    Ends(s);
  }

  lemma HeightOn(s: Segment, p: Point)
    ensures OnSegment(p, s) ==> s.from.y <= p.y <= s.to.y || s.to.y <= p.y <= s.from.y
  {
    if OnSegment(p, s) {
      var t: real :| 0.0 <= t <= 1.0 && p == Along(s, t);
      if s.from.y <= s.to.y {
        MixBetween(s.from.y, s.to.y, t);
      } else {
        MixReversed(s.from.y, s.to.y, t);
        MixBetween(s.to.y, s.from.y, 1.0 - t);
      }
    }
  }

  lemma ClipYMinExact(s: Segment, min: real, p: Point)
    ensures OnPart(p, ClipYMin(s, min)) <==> OnSegment(p, s) && p.y >= min
  {
    HeightOn(s, p);
    if s.from.y < min <= s.to.y {
      CutFrom(s, min, p);
    } else if s.to.y < min <= s.from.y {
      CutTo(s, min, p);
    }
  }

  lemma ClipYMaxExact(s: Segment, max: real, p: Point)
    ensures OnPart(p, ClipYMax(s, max)) <==> OnSegment(p, s) && p.y <= max
  {
    HeightOn(s, p);
    if s.to.y <= max < s.from.y {
      CutFrom(s, max, p);
    } else if s.from.y <= max < s.to.y {
      CutTo(s, max, p);
    }
  }

  lemma OnSwapped(p: Point, s: Segment)
    ensures OnSegment(Swap(p), SwapSegment(s)) <==> OnSegment(p, s)
  {
    if OnSegment(p, s) {
      var t: real :| 0.0 <= t <= 1.0 && p == Along(s, t);
      assert Swap(p) == Along(SwapSegment(s), t);
    }
    if OnSegment(Swap(p), SwapSegment(s)) {
      var t: real :| 0.0 <= t <= 1.0 && Swap(p) == Along(SwapSegment(s), t);
      assert p == Along(s, t);
    }
  }

  lemma ClipXMinExact(s: Segment, min: real, p: Point)
    ensures OnPart(p, ClipXMin(s, min)) <==> OnSegment(p, s) && p.x >= min
  {
    ClipYMinExact(SwapSegment(s), min, Swap(p));
    OnSwapped(p, s);
    var part := ClipYMin(SwapSegment(s), min);
    if part.Some? {
      OnSwapped(p, SwapSegment(part.value));
    }
  }

  lemma ClipXMaxExact(s: Segment, max: real, p: Point)
    ensures OnPart(p, ClipXMax(s, max)) <==> OnSegment(p, s) && p.x <= max
  {
    ClipYMaxExact(SwapSegment(s), max, Swap(p));
    OnSwapped(p, s);
    var part := ClipYMax(SwapSegment(s), max);
    if part.Some? {
      OnSwapped(p, SwapSegment(part.value));
    }
  }

  /** Clipping keeps precisely the points of the segment inside the box, whatever the box; so a segment
      is skipped if and only if none of its points is inside. */
  lemma ClipExact(s: Segment, x: AxisView, y: AxisView, p: Point)
    ensures OnPart(p, Clip(s, x, y)) <==> OnSegment(p, s) && InBox(p, x, y)
  {
    ClipYMinExact(s, y.min, p);
    var s1 := ClipYMin(s, y.min);
    if s1.Some? {
      ClipYMaxExact(s1.value, y.max, p);
      var s2 := ClipYMax(s1.value, y.max);
      if s2.Some? {
        ClipXMinExact(s2.value, x.min, p);
        var s3 := ClipXMin(s2.value, x.min);
        if s3.Some? {
          ClipXMaxExact(s3.value, x.max, p);
        }
      }
    }
  }

  lemma ClipNoneIffOutside(s: Segment, x: AxisView, y: AxisView)
    ensures Clip(s, x, y).None? <==> forall p :: OnSegment(p, s) ==> !InBox(p, x, y)
  {
    forall p
      ensures OnPart(p, Clip(s, x, y)) <==> OnSegment(p, s) && InBox(p, x, y)
    {
      ClipExact(s, x, y, p);
    }
    if Clip(s, x, y).Some? {
      var part := Clip(s, x, y).value;
      Ends(part);
      assert OnSegment(part.from, part);
      assert OnPart(part.from, Clip(s, x, y));
    }
  }

  // ---------------------------------------------------------------- drawing a whole line

  /** The segments between adjacent points, gaps left out, of the first n points. */
  function Segments(points: FlatData, ps: nat, n: nat): seq<Segment> {
    if n < 2 then []
    else
      Segments(points, ps, n - 1) +
      match (Vertex(points, ps, n - 2), Vertex(points, ps, n - 1))
      case (Some(a), Some(b)) => [Segment(a, b)]
      case _ => []
  }

  function ClipAll(segments: seq<Segment>, x: AxisView, y: AxisView): seq<Segment> {
    if segments == [] then []
    else
      var last := |segments| - 1;
      ClipAll(segments[..last], x, y) +
      match Clip(segments[last], x, y)
      case None => []
      case Some(s) => [s]
  }

  /** Canvas coordinates of a data point. */
  function ToCanvas(p: Point, x: AxisView, y: AxisView, xoffset: real, yoffset: real): Point {
    Point(x.p2c(p.x) + xoffset, y.p2c(p.y) + yoffset)
  }

  function OnCanvas(segments: seq<Segment>, x: AxisView, y: AxisView, xoffset: real, yoffset: real): seq<Segment> {
    seq(|segments|, i requires 0 <= i < |segments| =>
      Segment(ToCanvas(segments[i].from, x, y, xoffset, yoffset), ToCanvas(segments[i].to, x, y, xoffset, yoffset)))
  }

  /** Where the canvas pen is after some commands. */
  function Pen(log: seq<Command>): Option<Point> {
    if log == [] then None
    else
      match log[|log| - 1]
      case BeginPath => None
      case MoveTo(p) => Some(p)
      case LineTo(p) => Some(p)
      case _ => Pen(log[..|log| - 1])
  }

  /** The segments that the commands add to the path. */
  function Strokes(log: seq<Command>): seq<Segment> {
    if log == [] then []
    else
      var before := log[..|log| - 1];
      match (log[|log| - 1], Pen(before))
      case (LineTo(p), Some(q)) => Strokes(before) + [Segment(q, p)]
      case _ => Strokes(before)
  }

  lemma LineToAdds(log: seq<Command>, p: Point)
    ensures Pen(log + [LineTo(p)]) == Some(p)
    ensures Pen(log).Some? ==> Strokes(log + [LineTo(p)]) == Strokes(log) + [Segment(Pen(log).value, p)]
  {
    assert (log + [LineTo(p)])[..|log|] == log;
  }

  lemma OtherAddsNothing(log: seq<Command>, c: Command)
    requires !c.LineTo?
    ensures Strokes(log + [c]) == Strokes(log)
    ensures c.MoveTo? ==> Pen(log + [c]) == Some(c.p)
    ensures c.BeginPath? ==> Pen(log + [c]) == None
  {
    assert (log + [c])[..|log|] == log;
  }

  lemma ClipAllAppend(segments: seq<Segment>, s: Segment, x: AxisView, y: AxisView)
    ensures ClipAll(segments + [s], x, y) ==
      ClipAll(segments, x, y) + match Clip(s, x, y) case None => [] case Some(t) => [t]
  {
    assert (segments + [s])[..|segments|] == segments;
  }

  // The four blocks of plotLine's loop body that move an end point or skip the segment.

  method CutYMin(s: Segment, min: real) returns (visible: bool, r: Segment)
    ensures visible == ClipYMin(s, min).Some? && (visible ==> r == ClipYMin(s, min).value)
  {
    var a, b := s.from, s.to;
    if a.y <= b.y && a.y < min {
      if b.y < min {
        return false, s;
      }
      a := CutAt(s, min);
    } else if b.y <= a.y && b.y < min {
      if a.y < min {
        return false, s;
      }
      b := CutAt(s, min);
    }
    return true, Segment(a, b);
  }

  method CutYMax(s: Segment, max: real) returns (visible: bool, r: Segment)
    ensures visible == ClipYMax(s, max).Some? && (visible ==> r == ClipYMax(s, max).value)
  {
    var a, b := s.from, s.to;
    if a.y >= b.y && a.y > max {
      if b.y > max {
        return false, s;
      }
      a := CutAt(s, max);
    } else if b.y >= a.y && b.y > max {
      if a.y > max {
        return false, s;
      }
      b := CutAt(s, max);
    }
    return true, Segment(a, b);
  }

  method CutXMin(s: Segment, min: real) returns (visible: bool, r: Segment)
    ensures visible == ClipXMin(s, min).Some? && (visible ==> r == ClipXMin(s, min).value)
  {
    var a, b := s.from, s.to;
    if a.x <= b.x && a.x < min {
      if b.x < min {
        return false, s;
      }
      a := Swap(CutAt(SwapSegment(s), min));
    } else if b.x <= a.x && b.x < min {
      if a.x < min {
        return false, s;
      }
      b := Swap(CutAt(SwapSegment(s), min));
    }
    return true, Segment(a, b);
  }

  method CutXMax(s: Segment, max: real) returns (visible: bool, r: Segment)
    ensures visible == ClipXMax(s, max).Some? && (visible ==> r == ClipXMax(s, max).value)
  {
    var a, b := s.from, s.to;
    if a.x >= b.x && a.x > max {
      if b.x > max {
        return false, s;
      }
      a := Swap(CutAt(SwapSegment(s), max));
    } else if b.x >= a.x && b.x > max {
      if a.x > max {
        return false, s;
      }
      b := Swap(CutAt(SwapSegment(s), max));
    }
    return true, Segment(a, b);
  }

  method ClipInPlace(s: Segment, x: AxisView, y: AxisView) returns (visible: bool, r: Segment)
    ensures visible == Clip(s, x, y).Some? && (visible ==> r == Clip(s, x, y).value)
  {
    visible, r := CutYMin(s, y.min);
    if visible {
      visible, r := CutYMax(r, y.max);
    }
    if visible {
      visible, r := CutXMin(r, x.min);
    }
    if visible {
      visible, r := CutXMax(r, x.max);
    }
  }

  /** The commands that add a segment to a path that has come to `prev`: no moveTo if the segment starts there. */
  function Extension(prev: Option<Point>, s: Segment, x: AxisView, y: AxisView, dx: real, dy: real): seq<Command> {
    (if prev == Some(s.from) then [] else [MoveTo(ToCanvas(s.from, x, y, dx, dy))])
    + [LineTo(ToCanvas(s.to, x, y, dx, dy))]
  }

  function LastEnd(segments: seq<Segment>): Option<Point> {
    if segments == [] then None else Some(segments[|segments| - 1].to)
  }

  function PathOf(segments: seq<Segment>, x: AxisView, y: AxisView, dx: real, dy: real): seq<Command> {
    if segments == [] then [BeginPath]
    else
      var last := |segments| - 1;
      PathOf(segments[..last], x, y, dx, dy) + Extension(LastEnd(segments[..last]), segments[last], x, y, dx, dy)
  }

  lemma ExtensionDraws(log: seq<Command>, prev: Option<Point>, s: Segment, x: AxisView, y: AxisView, dx: real, dy: real)
    requires prev.Some? ==> Pen(log) == Some(ToCanvas(prev.value, x, y, dx, dy))
    ensures
      var log' := log + Extension(prev, s, x, y, dx, dy);
      && Strokes(log') == Strokes(log) + [Segment(ToCanvas(s.from, x, y, dx, dy), ToCanvas(s.to, x, y, dx, dy))]
      && Pen(log') == Some(ToCanvas(s.to, x, y, dx, dy))
  {
    var from, to := MoveTo(ToCanvas(s.from, x, y, dx, dy)), LineTo(ToCanvas(s.to, x, y, dx, dy));
    if prev == Some(s.from) {
      assert Extension(prev, s, x, y, dx, dy) == [to];
      LineToAdds(log, to.p);
    } else {
      assert log + Extension(prev, s, x, y, dx, dy) == (log + [from]) + [to];
      OtherAddsNothing(log, from);
      LineToAdds(log + [from], to.p);
    }
  }

  /** The commands draw the segments, in order, and leave the pen at the end of the last. */
  ghost predicate Draws(log: seq<Command>, segments: seq<Segment>, x: AxisView, y: AxisView, dx: real, dy: real) {
    && Strokes(log) == OnCanvas(segments, x, y, dx, dy)
    && (segments != [] ==> Pen(log) == Some(ToCanvas(segments[|segments| - 1].to, x, y, dx, dy)))
  }

  lemma DrawsOneMore(log: seq<Command>, segments: seq<Segment>, s: Segment, x: AxisView, y: AxisView, dx: real, dy: real)
    requires Draws(log, segments, x, y, dx, dy)
    ensures Draws(log + Extension(LastEnd(segments), s, x, y, dx, dy), segments + [s], x, y, dx, dy)
  {
    ExtensionDraws(log, LastEnd(segments), s, x, y, dx, dy);
    assert OnCanvas(segments + [s], x, y, dx, dy) ==
      OnCanvas(segments, x, y, dx, dy) + [Segment(ToCanvas(s.from, x, y, dx, dy), ToCanvas(s.to, x, y, dx, dy))];
  }

  lemma BeginsEmpty(x: AxisView, y: AxisView, dx: real, dy: real)
    ensures Draws([BeginPath], [], x, y, dx, dy)
  {
    assert [BeginPath][..0] == [];
  }

  /** Leaving out a moveTo to where the pen already is changes nothing: each segment is drawn, in order. */
  lemma {:induction false} PathDraws(segments: seq<Segment>, x: AxisView, y: AxisView, dx: real, dy: real)
    ensures Draws(PathOf(segments, x, y, dx, dy), segments, x, y, dx, dy)
  {
    if segments == [] {
      BeginsEmpty(x, y, dx, dy);
    } else {
      var last := |segments| - 1;
      PathDraws(segments[..last], x, y, dx, dy);
      DrawsOneMore(PathOf(segments[..last], x, y, dx, dy), segments[..last], segments[last], x, y, dx, dy);
      assert segments[..last] + [segments[last]] == segments;
    }
  }

  /** moveTo only if the path is not already there, then lineTo. */
  method DrawSegment(log: seq<Command>, prev: Option<Point>, r: Segment, x: AxisView, y: AxisView, dx: real, dy: real)
    returns (log': seq<Command>)
    ensures log' == log + Extension(prev, r, x, y, dx, dy)
  {
    log' := log;
    if prev != Some(r.from) {
      log' := log' + [MoveTo(ToCanvas(r.from, x, y, dx, dy))];
    }
    log' := log' + [LineTo(ToCanvas(r.to, x, y, dx, dy))];
  }

  /** What is visible of the line through the first k points. */
  function Visible(points: FlatData, ps: nat, k: nat, x: AxisView, y: AxisView): seq<Segment> {
    ClipAll(Segments(points, ps, k), x, y)
  }

  lemma PathAppend(segments: seq<Segment>, s: Segment, x: AxisView, y: AxisView, dx: real, dy: real)
    ensures PathOf(segments + [s], x, y, dx, dy) ==
      PathOf(segments, x, y, dx, dy) + Extension(LastEnd(segments), s, x, y, dx, dy)
    ensures LastEnd(segments + [s]) == Some(s.to)
  {
    assert (segments + [s])[..|segments|] == segments;
  }

  /** What one more point adds to the clipped line. */
  lemma OneMorePoint(points: FlatData, ps: nat, k: nat, x: AxisView, y: AxisView)
    requires k >= 1
    ensures
      var (a, b) := (Vertex(points, ps, k - 1), Vertex(points, ps, k));
      Visible(points, ps, k + 1, x, y) ==
        if a.None? || b.None? then Visible(points, ps, k, x, y)
        else
          match Clip(Segment(a.value, b.value), x, y)
          case None => Visible(points, ps, k, x, y)
          case Some(t) => Visible(points, ps, k, x, y) + [t]
  {
    var (a, b) := (Vertex(points, ps, k - 1), Vertex(points, ps, k));
    if a.Some? && b.Some? {
      ClipAllAppend(Segments(points, ps, k), Segment(a.value, b.value), x, y);
    } else {
      assert Segments(points, ps, k + 1) == Segments(points, ps, k);
    }
  }

  /** One iteration of plotLine's loop. */
  method DrawTo(points: FlatData, ps: nat, i: nat, ghost k: nat, log: seq<Command>, prev: Option<Point>,
                x: AxisView, y: AxisView, dx: real, dy: real)
    returns (log': seq<Command>, prev': Option<Point>)
    requires 2 <= ps <= i && i + ps <= |points| && 1 <= k
    requires points[i].Some? ==> points[i + 1].Some?
    requires points[i - ps].Some? ==> points[i - ps + 1].Some?
    requires Vertex(points, ps, k) == if points[i].Some? then Some(Point(points[i].value, points[i + 1].value)) else None
    requires Vertex(points, ps, k - 1) ==
      if points[i - ps].Some? then Some(Point(points[i - ps].value, points[i - ps + 1].value)) else None
    requires log == PathOf(Visible(points, ps, k, x, y), x, y, dx, dy)
    requires prev == LastEnd(Visible(points, ps, k, x, y))
    ensures log' == PathOf(Visible(points, ps, k + 1, x, y), x, y, dx, dy)
    ensures prev' == LastEnd(Visible(points, ps, k + 1, x, y))
  {
    OneMorePoint(points, ps, k, x, y);
    log', prev' := log, prev;
    if points[i - ps].Some? && points[i].Some? {
      var s := Segment(Point(points[i - ps].value, points[i - ps + 1].value), Point(points[i].value, points[i + 1].value));
      var visible, r := ClipInPlace(s, x, y);
      if visible {
        PathAppend(Visible(points, ps, k, x, y), r, x, y, dx, dy);
        log' := DrawSegment(log, prev, r, x, y, dx, dy);
        prev' := Some(r.to);
      }
    }
  }

  /** The point at flat index i, which is that of row k; its x alone tells whether it is a gap. */
  lemma VertexAt(points: FlatData, ps: nat, k: nat, i: nat)
    requires WellFormed(points, ps) && i == k * ps && i < |points|
    ensures k < Rows(points, ps) && i + ps <= |points|
    ensures points[i].Some? ==> points[i + 1].Some?
    ensures Vertex(points, ps, k) == if points[i].Some? then Some(Point(points[i].value, points[i + 1].value)) else None
  {
    RowBounds(points, ps, k);
    assert RowComplete(points, ps, k);
    if points[i].Some? {
      assert At(points, i + 1).Some?;
    }
  }

  /** One path, which consists of exactly the visible parts of the line, in order, and is stroked at the end. */
  method PlotLine(points: FlatData, ps: nat, xoffset: real, yoffset: real, axisx: AxisView, axisy: AxisView)
    returns (log: seq<Command>)
    requires WellFormed(points, ps)
    ensures
      var visible := Visible(points, ps, Rows(points, ps), axisx, axisy);
      && log == PathOf(visible, axisx, axisy, xoffset, yoffset) + [Stroke]
      && Strokes(log) == OnCanvas(visible, axisx, axisy, xoffset, yoffset)
  {
    var prev: Option<Point> := None;
    log := [BeginPath];
    ghost var k := 1;
    var i := ps;
    while i < |points|
      invariant i == k * ps && 1 <= k && (points != [] ==> k <= Rows(points, ps))
      invariant log == PathOf(Visible(points, ps, k, axisx, axisy), axisx, axisy, xoffset, yoffset)
      invariant prev == LastEnd(Visible(points, ps, k, axisx, axisy))
    {
      Scale(k, k, ps);
      VertexAt(points, ps, k - 1, i - ps);
      VertexAt(points, ps, k, i);
      log, prev := DrawTo(points, ps, i, k, log, prev, axisx, axisy, xoffset, yoffset);
      i := i + ps;
      k := k + 1;
    }
    AllRows(points, ps, k);
    PathDraws(Visible(points, ps, Rows(points, ps), axisx, axisy), axisx, axisy, xoffset, yoffset);
    OtherAddsNothing(log, Stroke);
    log := log + [Stroke];
  }

  lemma AllRows(points: FlatData, ps: nat, k: nat)
    requires WellFormed(points, ps) && |points| <= k * ps && 1 <= k && (points != [] ==> k <= Rows(points, ps))
    ensures Segments(points, ps, k) == Segments(points, ps, Rows(points, ps))
  {
    RowsFill(points, ps);
    if points == [] {
      GapsOnly(points, ps, k);
    } else {
      Scale(k + 1, Rows(points, ps), ps);
    }
  }

  lemma GapsOnly(points: FlatData, ps: nat, k: nat)
    requires points == []
    ensures Segments(points, ps, k) == []
  {
  }

  /** What is drawn is the part of the line inside the plot area, nothing more and nothing less. */
  lemma {:induction false} DrawnIsVisiblePart(segments: seq<Segment>, x: AxisView, y: AxisView, p: Point)
    ensures (exists s :: s in ClipAll(segments, x, y) && OnSegment(p, s)) <==>
      InBox(p, x, y) && exists s :: s in segments && OnSegment(p, s)
  {
    if segments != [] {
      var last := |segments| - 1;
      DrawnIsVisiblePart(segments[..last], x, y, p);
      ClipExact(segments[last], x, y, p);
      assert forall s :: s in segments <==> s in segments[..last] || s == segments[last];
    }
  }
}
