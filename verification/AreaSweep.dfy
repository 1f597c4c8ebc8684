/** plotLineArea of jquery.flot.js: one loop sweeps forwards along the top edge of each stretch of points,
    turns at a gap, and sweeps backwards along the bottom edge before filling. */
module AreaSweep {
  import opened PlotGeometry
  import opened LineClipping
  import opened AreaOutline

  // ---------------------------------------------------------------- one edge

  function ClipX(s: Segment, x: AxisView): Option<Segment> {
    match ClipXMin(s, x.min)
    case None => None
    case Some(t) => ClipXMax(t, x.max)
  }

  function LineToData(x: real, y: real, axisx: AxisView, axisy: AxisView): Command {
    LineTo(Point(axisx.p2c(x), axisy.p2c(y)))
  }

  /** The y cuts of plotLineArea: like plotLine's, but without skipping. */
  function CutLow(s: Segment, min: real): Segment {
    if s.from.y <= s.to.y && s.from.y < min && s.to.y >= min then Segment(CutAt(s, min), s.to)
    else if s.to.y <= s.from.y && s.to.y < min && s.from.y >= min then Segment(s.from, CutAt(s, min))
    else s
  }

  function CutHigh(s: Segment, max: real): Segment {
    if s.from.y >= s.to.y && s.from.y > max && s.to.y <= max then Segment(CutAt(s, max), s.to)
    else if s.to.y >= s.from.y && s.to.y > max && s.from.y <= max then Segment(s.from, CutAt(s, max))
    else s
  }

  /** The points, in data coordinates, along which an edge already clipped in x is drawn. */
  function EdgePoints(s: Segment, y: AxisView): seq<Point> {
    if s.from.y >= y.max && s.to.y >= y.max then [Point(s.from.x, y.max), Point(s.to.x, y.max)]
    else if s.from.y <= y.min && s.to.y <= y.min then [Point(s.from.x, y.min), Point(s.to.x, y.min)]
    else CutPoints(s, CutHigh(CutLow(s, y.min), y.max))
  }

  /** Level pieces, where there are any, before and after the part c of the edge that is inside the y range. */
  function CutPoints(s: Segment, c: Segment): seq<Point> {
    (if c.from.x != s.from.x then [Point(s.from.x, c.from.y)] else [])
    + [c.from, c.to]
    + (if c.to.x != s.to.x then [c.to, Point(s.to.x, c.to.y)] else [])
  }

  function EdgeCommands(s: Segment, x: AxisView, y: AxisView): seq<Command> {
    var points := EdgePoints(s, y);
    seq(|points|, i requires 0 <= i < |points| => LineToData(points[i].x, points[i].y, x, y))
  }

  // ---------------------------------------------------------------- the outline of a data set

  /** A data point: x, and the y of the top and of the bottom edge there. */
  datatype Row = Row(x: real, top: real, bottom: real)

  /** The rows of the flat array; None for a gap. */
  function Decode(points: FlatData, ps: nat): seq<Option<Row>>
    requires ps > 0
  {
    seq(Rows(points, ps), k requires 0 <= k < Rows(points, ps) =>
      match (At(points, k * ps), At(points, k * ps + 1), At(points, k * ps + 2))
      case (Some(x), Some(top), Some(bottom)) => Some(Row(x, top, bottom))
      case _ => None)
  }

  /** The baseline: 0 moved into the y range. */
  function Baseline(y: AxisView): real {
    var b := if y.min > 0.0 then y.min else 0.0;
    if b < y.max then b else y.max
  }

  function TopEdge(rows: seq<Option<Row>>, k: int, x: AxisView): Option<Segment> {
    if 0 <= k < |rows| - 1 && rows[k].Some? && rows[k + 1].Some? then
      var (r, q) := (rows[k].value, rows[k + 1].value);
      ClipX(Segment(Point(r.x, r.top), Point(q.x, q.top)), x)
    else None
  }

  function BottomEdge(rows: seq<Option<Row>>, k: int, x: AxisView): Option<Segment> {
    if 0 <= k < |rows| - 1 && rows[k].Some? && rows[k + 1].Some? then
      var (r, q) := (rows[k].value, rows[k + 1].value);
      ClipX(Segment(Point(q.x, q.bottom), Point(r.x, r.bottom)), x)
    else None
  }

  function Commands(edge: Option<Segment>, x: AxisView, y: AxisView): Option<seq<Command>> {
    match edge
    case None => None
    case Some(s) => Some(EdgeCommands(s, x, y))
  }

  /** Begin a path on the baseline below the start of the edge. */
  function OpenAt(edge: Option<Segment>, x: AxisView, y: AxisView): seq<Command> {
    match edge
    case None => []
    case Some(s) => [BeginPath, MoveTo(Point(x.p2c(s.from.x), y.p2c(Baseline(y))))]
  }

  function GapsOf(rows: seq<Option<Row>>): seq<bool> {
    seq(|rows|, k requires 0 <= k < |rows| => rows[k].None?)
  }

  function OutlineOf(rows: seq<Option<Row>>, x: AxisView, y: AxisView): Outline {
    Outline(
      GapsOf(rows),
      seq(|rows|, k => Commands(TopEdge(rows, k, x), x, y)),
      seq(|rows|, k => Commands(BottomEdge(rows, k, x), x, y)),
      seq(|rows|, k => OpenAt(TopEdge(rows, k, x), x, y)))
  }

  function Max(a: real, b: real): real {
    if a >= b then a else b
  }

  /** Whether an edge is out of the x range depends on its two x values only, not on their order. */
  lemma ClipXVisible(s: Segment, x: AxisView)
    ensures ClipX(s, x).None? <==>
      || (s.from.x < x.min && s.to.x < x.min)
      || (Max(s.from.x, x.min) > x.max && Max(s.to.x, x.min) > x.max)
  {
    var t := ClipXMin(s, x.min);
    if t.Some? {
      assert t.value.from.x == Max(s.from.x, x.min) && t.value.to.x == Max(s.to.x, x.min);
    }
  }

  /** Clipping in x keeps precisely the points of the edge inside the x range. */
  lemma ClipXExact(s: Segment, x: AxisView, p: Point)
    ensures OnPart(p, ClipX(s, x)) <==> OnSegment(p, s) && x.min <= p.x <= x.max
  {
    ClipXMinExact(s, x.min, p);
    var t := ClipXMin(s, x.min);
    if t.Some? {
      ClipXMaxExact(t.value, x.max, p);
    }
  }

  /** Where a clipped edge begins and ends. */
  lemma ClipXEnds(s: Segment, x: AxisView)
    requires x.min <= x.max && ClipX(s, x).Some?
    ensures
      var t := ClipX(s, x).value;
      && t.from.x == (if s.from.x < x.min then x.min else if s.from.x > x.max then x.max else s.from.x)
      && t.to.x == (if s.to.x < x.min then x.min else if s.to.x > x.max then x.max else s.to.x)
      && (s.from.x == s.to.x ==> t == s)
  {
  }

  /** Top and bottom edges of a pair of rows are there, and visible, together. */
  lemma EdgesAgree(rows: seq<Option<Row>>, k: int, x: AxisView)
    ensures TopEdge(rows, k, x).None? <==> BottomEdge(rows, k, x).None?
    ensures TopEdge(rows, k, x).Some? ==> 0 <= k < |rows| - 1 && rows[k].Some? && rows[k + 1].Some?
  {
    if 0 <= k < |rows| - 1 && rows[k].Some? && rows[k + 1].Some? {
      var r, q := rows[k].value, rows[k + 1].value;
      ClipXVisible(Segment(Point(r.x, r.top), Point(q.x, q.top)), x);
      ClipXVisible(Segment(Point(q.x, q.bottom), Point(r.x, r.bottom)), x);
    }
  }

  lemma OutlineIsValid(rows: seq<Option<Row>>, x: AxisView, y: AxisView)
    ensures OutlineOf(rows, x, y).Valid()
  {
    var o := OutlineOf(rows, x, y);
    forall k | 0 <= k < |rows|
      ensures o.tops[k].None? <==> o.bottoms[k].None?
      ensures o.tops[k].Some? ==> !o.Gap(k) && !o.Gap(k + 1)
    {
      EdgesAgree(rows, k, x);
      OutlineAt(rows, x, y, k);
    }
  }

  lemma OutlineAt(rows: seq<Option<Row>>, x: AxisView, y: AxisView, k: int)
    ensures
      var o := OutlineOf(rows, x, y);
      && (o.Gap(k) <==> !(0 <= k < |rows|) || rows[k].None?) && (o.Gap(k + 1) <==> !(0 <= k + 1 < |rows|) || rows[k + 1].None?)
      && (0 <= k < |rows| ==>
            && (o.tops[k].None? <==> TopEdge(rows, k, x).None?) && (o.bottoms[k].None? <==> BottomEdge(rows, k, x).None?))
  {
  }

  lemma OutlineIsProper(rows: seq<Option<Row>>, x: AxisView, y: AxisView)
    ensures Proper(OutlineOf(rows, x, y))
  {
    var c := OutlineOf(rows, x, y);
    forall k
      ensures c.Top(k).Some? ==> OnlyLines(c.Top(k).value) && IsOpening(c.Opening(k))
      ensures c.Bottom(k).Some? ==> OnlyLines(c.Bottom(k).value)
    {
      EdgeOfOutline(rows, x, y, k);
      CommandsAreLines(TopEdge(rows, k, x), x, y);
      CommandsAreLines(BottomEdge(rows, k, x), x, y);
    }
  }

  lemma CommandsAreLines(edge: Option<Segment>, x: AxisView, y: AxisView)
    ensures Commands(edge, x, y).Some? ==> OnlyLines(Commands(edge, x, y).value) && IsOpening(OpenAt(edge, x, y))
  {
  }

  /** What plotLineArea issues is a sequence of complete paths. */
  lemma EveryPathIsFilled(rows: seq<Option<Row>>, x: AxisView, y: AxisView)
    ensures AfterCommands(NoPath, OutlineOf(rows, x, y).Areas(0)) == NoPath
  {
    OutlineIsProper(rows, x, y);
    AreasAreClosed(OutlineOf(rows, x, y), 0);
  }

  // ---------------------------------------------------------------- the loop over the flat array

  ghost predicate Drawable(points: FlatData, ps: nat) {
    WellFormed(points, ps) && 3 <= ps
  }

  lemma DecodeAt(points: FlatData, ps: nat, k: int)
    requires Drawable(points, ps)
    ensures
      var rows := Decode(points, ps);
      if 0 <= k < |rows| && rows[k].Some? then
        && At(points, k * ps) == Some(rows[k].value.x)
        && At(points, k * ps + 1) == Some(rows[k].value.top) && At(points, k * ps + 2) == Some(rows[k].value.bottom)
      else At(points, k * ps).None?
  {
    RowsFill(points, ps);
    Scale(k + 1, 0, ps);
    Scale(Rows(points, ps), k, ps);
    if 0 <= k < Rows(points, ps) {
      assert RowComplete(points, ps, k);
    }
  }

  /** The locals of the loop. */
  datatype Sweep = Sweep(i: int, step: int, ypos: nat, areaOpen: bool, segmentStart: int, segmentEnd: int)

  /** The rows that the loop's flat indices stand for. */
  ghost predicate Agree(ps: nat, t: Sweep, p: Position) {
    && t.i == p.k * ps && t.segmentStart == p.a * ps
    && (t.areaOpen && t.step < 0 ==> t.segmentEnd == p.e * ps)
    && (if t.step > 0 then t.step == ps && t.ypos == 1 else t.step == 0 - ps && t.ypos == 2 && t.areaOpen)
  }

  ghost predicate Swept(c: Outline, log: seq<Command>, t: Sweep, p: Position) {
    if !t.areaOpen then Closed(c, log, p)
    else if t.step > 0 then Forward(c, log, p)
    else Backward(c, log, p)
  }

  /** The row the next edge leads to. */
  ghost function Next(t: Sweep, p: Position): int {
    if t.step > 0 then p.k + 1 else p.k - 1
  }

  /** One iteration moves the sweep on: later stretch, or from forwards to backwards, or further that way. */
  ghost predicate Advances(t: Sweep, p: Position, t': Sweep, p': Position) {
    || p.a < p'.a
    || (p.a == p'.a && t.step > 0 > t'.step)
    || (p.a == p'.a && t.step == t'.step && if t.step > 0 then p.k < p'.k else p'.k < p.k)
  }

  /** How flat indices compare when they stand for rows. */
  lemma Indices(points: FlatData, ps: nat, k: int, a: int)
    requires Drawable(points, ps)
    ensures (k + 1) * ps == k * ps + ps && (k - 1) * ps == k * ps - ps
    ensures k * ps > |points| + ps <==> k > Rows(points, ps) + 1
    ensures (k - 1) * ps == a * ps - ps <==> k == a
  {
    var rows := Rows(points, ps);
    RowsFill(points, ps);
    Scale(k, k, ps);
    Scale(rows, rows, ps);
    SameScale(k, rows + 1, ps);
    SameScale(k, a, ps);
  }

  lemma SameScale(a: int, b: int, n: nat)
    requires n > 0
    ensures a < b ==> a * n < b * n
    ensures a > b ==> a * n > b * n
  {
    Scale(a + 1, b, n);
    Scale(b + 1, a, n);
    Scale(a, a, n);
    Scale(b, b, n);
  }

  /** What the sweep has reached: a turning point, the end of the reverse sweep, or just another edge. */
  datatype Ahead = TurningPoint | SweepDone | AnotherEdge

  /** The tests at the head of the loop body, and what they mean in rows. */
  method LookAhead(points: FlatData, ps: nat, c: Outline, t: Sweep, ghost p: Position) returns (ahead: Ahead)
    requires Drawable(points, ps) && c.gaps == GapsOf(Decode(points, ps))
    requires Agree(ps, t, p) && (t.areaOpen && t.step > 0 ==> !c.Gap(p.k))
    ensures t.i + t.step == Next(t, p) * ps
    ensures ahead ==
      if t.areaOpen && t.step > 0 && c.Gap(p.k + 1) then TurningPoint
      else if t.step < 0 && p.k == p.a then SweepDone
      else AnotherEdge
  {
    Indices(points, ps, p.k, p.a);
    DecodeAt(points, ps, p.k);
    DecodeAt(points, ps, Next(t, p));
    var i := t.i + t.step;
    if t.areaOpen {
      if t.step > 0 && At(points, i - t.step).Some? && At(points, i).None? {
        return TurningPoint;
      }
      if t.step < 0 && i == t.segmentStart + t.step {
        return SweepDone;
      }
    }
    return AnotherEdge;
  }

  /** Reads the edge that ends at flat index i, clips it in x, and works out its commands. */
  method EdgeAhead(points: FlatData, ps: nat, x: AxisView, y: AxisView, t: Sweep, ghost p: Position)
    returns (edge: Option<Segment>)
    requires Drawable(points, ps) && Agree(ps, t, p) && t.i + t.step == Next(t, p) * ps
    ensures edge == if t.step > 0 then TopEdge(Decode(points, ps), p.k, x) else BottomEdge(Decode(points, ps), p.k - 1, x)
  {
    DecodeAt(points, ps, p.k);
    DecodeAt(points, ps, Next(t, p));
    var i := t.i + t.step;
    var x1, y1 := At(points, i - t.step), At(points, i - t.step + t.ypos);
    var x2, y2 := At(points, i), At(points, i + t.ypos);
    if x1.None? || x2.None? {
      return None;
    }
    return ClipX(Segment(Point(x1.value, y1.value), Point(x2.value, y2.value)), x);
  }

  /** Skips an invisible edge, opens an area at a visible one, or draws the edge. */
  method SweepEdge(c: Outline, log: seq<Command>, t: Sweep, ghost p: Position, edge: Option<seq<Command>>,
                   opening: seq<Command>)
    returns (log': seq<Command>, t': Sweep, ghost p': Position)
    requires c.Valid() && Swept(c, log, t, p)
    requires !t.areaOpen ==> t.step > 0 && p.k <= |c.gaps| + 1
    requires t.areaOpen ==> if t.step > 0 then !c.Gap(p.k + 1) else p.k > p.a
    requires edge == if t.step > 0 then c.Top(p.k) else c.Bottom(p.k - 1)
    requires !t.areaOpen ==> opening == c.Opening(p.k)
    ensures Swept(c, log', t', p') && p'.k == Next(t, p) && p'.a == p.a && (t.step < 0 ==> p'.e == p.e)
    ensures t' == t.(i := t.i + t.step, areaOpen := t.areaOpen || edge.Some?)
  {
    p' := p.(k := Next(t, p));
    if t.areaOpen {
      if t.step > 0 {
        SweepTop(c, log, p);
      } else {
        SweepBottom(c, log, p);
      }
      log' := log + Draw(edge);
    } else if edge.None? {
      SweepSkips(c, log, p);
      log' := log;
    } else {
      SweepOpens(c, log, p);
      log' := log + (opening + Draw(edge));
      p' := p'.(o := p.k, e := c.RunEnd(p.k + 1));
    }
    t' := t.(i := t.i + t.step, areaOpen := t.areaOpen || edge.Some?);
  }

  /** The turning point: record the end of the stretch and reverse. */
  function Turned(t: Sweep): Sweep {
    Sweep(t.i + t.step, -t.step, 2, true, t.segmentStart, t.i + t.step)
  }

  /** After the fill: restart forwards behind the gap. */
  function Restarted(t: Sweep): Sweep {
    Sweep(t.segmentEnd - t.step, -t.step, 1, false, t.segmentEnd - t.step, t.segmentEnd)
  }

  lemma TurnedAgrees(points: FlatData, ps: nat, t: Sweep, p: Position)
    requires Drawable(points, ps) && Agree(ps, t, p) && t.step > 0 && p.e == p.k + 1
    ensures Agree(ps, Turned(t), p.(k := p.k + 1))
  {
    Indices(points, ps, p.k, p.a);
  }

  lemma RestartedAgrees(points: FlatData, ps: nat, t: Sweep, p: Position)
    requires Drawable(points, ps) && Agree(ps, t, p) && t.step < 0
    ensures Agree(ps, Restarted(t), p.(k := p.e + 1, a := p.e + 1))
  {
    Indices(points, ps, p.e, p.a);
  }

  lemma MovedAgrees(ps: nat, t: Sweep, p: Position, t': Sweep, p': Position)
    requires Agree(ps, t, p) && t.i + t.step == Next(t, p) * ps
    requires p'.k == Next(t, p) && p'.a == p.a && (t.step < 0 ==> p'.e == p.e)
    requires t' == t.(i := t.i + t.step, areaOpen := t'.areaOpen) && (t.areaOpen ==> t'.areaOpen)
    ensures Agree(ps, t', p')
  {
  }

  lemma SweptFacts(c: Outline, log: seq<Command>, t: Sweep, p: Position)
    requires Swept(c, log, t, p)
    ensures t.areaOpen && t.step > 0 ==> !c.Gap(p.k) && 0 <= p.k < |c.gaps|
    ensures t.areaOpen && t.step <= 0 ==> p.k >= p.a
  {
  }

  /** The edge the loop reads is the one of the outline. */
  lemma EdgeOfOutline(rows: seq<Option<Row>>, x: AxisView, y: AxisView, k: int)
    ensures
      var c := OutlineOf(rows, x, y);
      && c.Top(k) == Commands(TopEdge(rows, k, x), x, y)
      && c.Bottom(k) == Commands(BottomEdge(rows, k, x), x, y)
      && c.Opening(k) == OpenAt(TopEdge(rows, k, x), x, y)
  {
  }

  /** One iteration of the loop, past its exit test. */
  method Iterate(points: FlatData, ps: nat, x: AxisView, y: AxisView, c: Outline, log: seq<Command>, t: Sweep,
                 ghost p: Position)
    returns (log': seq<Command>, t': Sweep, ghost p': Position)
    requires Drawable(points, ps) && c == OutlineOf(Decode(points, ps), x, y)
    requires Agree(ps, t, p) && Swept(c, log, t, p) && (t.step > 0 ==> p.k <= |c.gaps| + 1)
    ensures Agree(ps, t', p') && Swept(c, log', t', p') && Advances(t, p, t', p')
  {
    SweptFacts(c, log, t, p);
    OutlineIsValid(Decode(points, ps), x, y);
    var ahead := LookAhead(points, ps, c, t, p);
    match ahead
    case TurningPoint =>
      SweepTurns(c, log, p);
      TurnedAgrees(points, ps, t, p);
      log', t', p' := log, Turned(t), p.(k := p.k + 1);
    case SweepDone =>
      SweepFills(c, log, p);
      RestartedAgrees(points, ps, t, p);
      log', t', p' := log + [Fill], Restarted(t), p.(k := p.e + 1, a := p.e + 1);
    case AnotherEdge =>
      var edge := EdgeAhead(points, ps, x, y, t, p);
      EdgeOfOutline(Decode(points, ps), x, y, if t.step > 0 then p.k else p.k - 1);
      log', t', p' := SweepEdge(c, log, t, p, Commands(edge, x, y), OpenAt(edge, x, y));
      MovedAgrees(ps, t, p, t', p');
  }

  /** The sweep: forwards while `step` is positive, backwards while it is negative. It ends, and draws for
      every stretch of points exactly one path, filled before the next one begins. */
  method PlotLineArea(points: FlatData, ps: nat, axisx: AxisView, axisy: AxisView) returns (log: seq<Command>)
    requires Drawable(points, ps)
    ensures log == OutlineOf(Decode(points, ps), axisx, axisy).Areas(0)
    ensures AfterCommands(NoPath, log) == NoPath
  {
    EveryPathIsFilled(Decode(points, ps), axisx, axisy);
    var c := OutlineOf(Decode(points, ps), axisx, axisy);
    var t := Sweep(0, ps, 1, false, 0, 0);
    ghost var p := Position(0, 0, 0, 0);
    log := [];
    assert log + c.Areas(0) == c.Areas(0);
    while true
      invariant Agree(ps, t, p) && Swept(c, log, t, p)
      decreases |c.gaps| + 3 - p.a, t.step > 0, if t.step > 0 then |c.gaps| + 3 - p.k else p.k - p.a
    {
      Indices(points, ps, p.k, p.a);
      SweptFacts(c, log, t, p);
      if t.step > 0 && t.i > |points| + t.step {
        Halt(c, log, p);
        break;
      }
      ghost var t0, p0 := t, p;
      log, t, p := Iterate(points, ps, axisx, axisy, c, log, t, p);
      assert Advances(t0, p0, t, p);
    }
  }
}
