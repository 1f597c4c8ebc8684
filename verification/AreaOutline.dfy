/** What plotLineArea of jquery.flot.js draws, stretch by stretch, and how its sweep, forwards to a gap and
    back, produces it. Edges are just command sequences here. */
module AreaOutline {
  import opened PlotGeometry

  // ---------------------------------------------------------------- what the sweep should draw

  /** What there is to draw, row by row: whether the row is a gap, and for the pair of this row and the next
      the commands of its top edge (left to right), of its bottom edge (right to left) and those that open an
      area there; no edge commands if either row is a gap or the pair is outside the x range. */
  datatype Outline = Outline(gaps: seq<bool>, tops: seq<Option<seq<Command>>>, bottoms: seq<Option<seq<Command>>>,
                             openings: seq<seq<Command>>) {
    ghost predicate Valid() {
      && |tops| == |bottoms| == |openings| == |gaps|
      && (forall k :: 0 <= k < |gaps| ==> (tops[k].None? <==> bottoms[k].None?))
      && (forall k :: 0 <= k < |gaps| && tops[k].Some? ==> !Gap(k) && !Gap(k + 1))
    }

    predicate Gap(k: int) {
      k < 0 || k >= |gaps| || gaps[k]
    }

    function Top(k: int): Option<seq<Command>> {
      if 0 <= k < |tops| then tops[k] else None
    }

    function Bottom(k: int): Option<seq<Command>> {
      if 0 <= k < |bottoms| then bottoms[k] else None
    }

    function Opening(k: int): seq<Command> {
      if 0 <= k < |openings| then openings[k] else []
    }

    /** Top edges from row k up to the gap at row e. */
    function TopPath(k: nat, e: nat): seq<Command>
      decreases e - k
    {
      if k >= e then [] else Draw(Top(k)) + TopPath(k + 1, e)
    }

    /** Bottom edges from row k back to row o. */
    function BottomPath(o: nat, k: int): seq<Command>
      decreases k - o
    {
      if k <= o then [] else Draw(Bottom(k - 1)) + BottomPath(o, k - 1)
    }

    /** The first gap at row k or later; the row after the last one counts as a gap. */
    function RunEnd(k: nat): (e: nat)
      ensures k <= e
      decreases |gaps| - k
    {
      if Gap(k) then k else RunEnd(k + 1)
    }

    /** One closed path per stretch of points, from its first visible edge on: begin at the baseline, along
        the top to the end of the stretch, back along the bottom, fill. */
    function Areas(k: nat): seq<Command>
      decreases |gaps| - k
    {
      if k >= |gaps| then []
      else if Top(k).None? then Areas(k + 1)
      else
        var e := RunEnd(k + 1);
        Opening(k) + (TopPath(k, e) + (BottomPath(k, e) + ([Fill] + Areas(e + 1))))
    }
  }

  function Draw(edge: Option<seq<Command>>): seq<Command> {
    match edge
    case None => []
    case Some(cmds) => cmds
  }

  // ---------------------------------------------------------------- every stretch has its area

  /** Areas(k) ends with what is drawn from row a on, if row a is the first after a gap. */
  lemma {:induction false} StretchesApart(c: Outline, k: nat, a: nat) returns (before: seq<Command>)
    requires c.Valid() && k <= a && (a == k || c.Gap(a - 1)) && a < |c.gaps|
    ensures c.Areas(k) == before + c.Areas(a)
    decreases a - k
  {
    if k == a {
      before := [];
    } else if c.Top(k).None? {
      before := StretchesApart(c, k + 1, a);
    } else {
      assert c.tops[k].Some?;
      var e := c.RunEnd(k + 1);
      EndsBefore(c, k + 1, a - 1);
      before := StretchesApart(c, e + 1, a);
      before := Joined(c, c.Opening(k), c.TopPath(k, e), c.BottomPath(k, e), before, c.Areas(a));
    }
  }

  lemma Joined(c: Outline, opening: seq<Command>, top: seq<Command>, bottom: seq<Command>, before: seq<Command>,
               rest: seq<Command>)
    returns (all: seq<Command>)
    ensures opening + (top + (bottom + ([Fill] + (before + rest)))) == all + rest
  {
    all := opening + (top + (bottom + ([Fill] + before)));
  }

  /** No stretch of points reaches beyond a gap. */
  lemma {:induction false} EndsBefore(c: Outline, k: nat, g: nat)
    requires k <= g && c.Gap(g)
    ensures c.RunEnd(k) <= g
    decreases g - k
  {
    if !c.Gap(k) {
      EndsBefore(c, k + 1, g);
    }
  }

  lemma {:induction false} SkipsInvisible(c: Outline, a: nat, o: nat)
    requires a <= o < |c.gaps| && forall j :: a <= j < o ==> c.Top(j).None?
    ensures c.Areas(a) == c.Areas(o)
    decreases o - a
  {
    if a < o {
      SkipsInvisible(c, a + 1, o);
    }
  }

  /** However the data is interrupted, each stretch of points between gaps with an edge to show gets its own area:
      from its first visible edge o along all tops to the end e of the stretch and back along all bottoms. */
  lemma StretchIsDrawn(c: Outline, a: nat, o: nat, e: nat) returns (before: seq<Command>, after: seq<Command>)
    requires c.Valid() && a <= o < e && c.Gap(a - 1) && c.Gap(e) && forall j :: a <= j < e ==> !c.Gap(j)
    requires c.Top(o).Some? && forall j :: a <= j < o ==> c.Top(j).None?
    ensures c.Areas(0) ==
      before + (c.Opening(o) + (c.TopPath(o, e) + (c.BottomPath(o, e) + ([Fill] + after))))
  {
    after := c.Areas(e + 1);
    StretchEnd(c, o + 1, e);
    AreaStarts(c, o, e);
    before := FirstVisible(c, a, o);
  }

  lemma AreaStarts(c: Outline, o: nat, e: nat)
    requires c.Top(o).Some? && o < |c.gaps| && c.RunEnd(o + 1) == e
    ensures c.Areas(o) == c.Opening(o) + (c.TopPath(o, e) + (c.BottomPath(o, e) + ([Fill] + c.Areas(e + 1))))
  {
  }

  lemma FirstVisible(c: Outline, a: nat, o: nat) returns (before: seq<Command>)
    requires c.Valid() && a <= o < |c.gaps| && c.Gap(a - 1) && forall j :: a <= j < o ==> c.Top(j).None?
    ensures c.Areas(0) == before + c.Areas(o)
  {
    before := StretchesApart(c, 0, a);
    SkipsInvisible(c, a, o);
  }

  lemma {:induction false} StretchEnd(c: Outline, k: nat, e: nat)
    requires k <= e && c.Gap(e) && forall j :: k <= j < e ==> !c.Gap(j)
    ensures c.RunEnd(k) == e
    decreases e - k
  {
    if k < e {
      StretchEnd(c, k + 1, e);
    }
  }

  // ---------------------------------------------------------------- the sweep

  lemma Shift(log: seq<Command>, cmds: seq<Command>, rest: seq<Command>)
    ensures (log + cmds) + rest == log + (cmds + rest)
  {
  }

  /** What is left to draw while the bottom of an area opened at row o is swept, row k having been reached. */
  ghost function RestBackward(c: Outline, k: int, o: nat, e: nat): seq<Command> {
    c.BottomPath(o, k) + ([Fill] + c.Areas(e + 1))
  }

  /** What is left to draw while its top is swept. */
  ghost function RestForward(c: Outline, k: nat, o: nat, e: nat): seq<Command> {
    c.TopPath(k, e) + RestBackward(c, e, o, e)
  }

  lemma TopAdvances(c: Outline, k: nat, o: nat, e: nat)
    requires k < e
    ensures RestForward(c, k, o, e) == Draw(c.Top(k)) + RestForward(c, k + 1, o, e)
  {
    Shift(Draw(c.Top(k)), c.TopPath(k + 1, e), RestBackward(c, e, o, e));
  }

  lemma BackAdvances(c: Outline, k: int, o: nat, e: nat)
    requires k <= o ==> c.Bottom(k - 1).None?
    ensures RestBackward(c, k, o, e) == Draw(c.Bottom(k - 1)) + RestBackward(c, k - 1, o, e)
  {
    if k > o {
      Shift(Draw(c.Bottom(k - 1)), c.BottomPath(o, k - 1), [Fill] + c.Areas(e + 1));
    } else {
      assert Draw(c.Bottom(k - 1)) == [];
      assert c.BottomPath(o, k) == c.BottomPath(o, k - 1) == [];
    }
  }

  lemma AreasOpens(c: Outline, k: nat)
    requires k < |c.gaps| && c.Top(k).Some?
    ensures
      var e := c.RunEnd(k + 1);
      c.Areas(k) == (c.Opening(k) + Draw(c.Top(k))) + RestForward(c, k + 1, k, e)
  {
    var e := c.RunEnd(k + 1);
    TopAdvances(c, k, k, e);
    Shift(c.Opening(k), Draw(c.Top(k)), RestForward(c, k + 1, k, e));
  }

  lemma {:induction false} RunEndIsGap(c: Outline, k: nat)
    ensures c.Gap(c.RunEnd(k)) && (k <= |c.gaps| ==> c.RunEnd(k) <= |c.gaps|)
    decreases |c.gaps| - k
  {
    if !c.Gap(k) {
      RunEndIsGap(c, k + 1);
    }
  }

  lemma RunEndNext(c: Outline, k: nat)
    requires !c.Gap(k)
    ensures c.RunEnd(k) == c.RunEnd(k + 1)
    ensures if c.Gap(k + 1) then c.RunEnd(k) == k + 1 else c.RunEnd(k) > k + 1
  {
    assert !c.Gap(k + 1) ==> c.RunEnd(k + 1) == c.RunEnd(k + 2);
  }

  ghost predicate Invisible(c: Outline, a: nat, k: int) {
    forall j :: a <= j < k ==> c.Top(j).None?
  }

  /** The loop's state in rows: k is the row reached, a the first row of the stretch being swept, o the
      opening edge, e the gap that ends it. */
  datatype Position = Position(k: int, a: nat, o: nat, e: nat)

  ghost predicate Closed(c: Outline, log: seq<Command>, p: Position) {
    && p.a <= p.k <= |c.gaps| + 2 && Invisible(c, p.a, p.k)
    && log + c.Areas(p.k) == c.Areas(0)
  }

  ghost predicate Forward(c: Outline, log: seq<Command>, p: Position) {
    && p.a <= p.o < p.k < p.e <= |c.gaps| && Invisible(c, p.a, p.o)
    && p.e == c.RunEnd(p.k) && !c.Gap(p.k)
    && log + RestForward(c, p.k, p.o, p.e) == c.Areas(0)
  }

  ghost predicate Backward(c: Outline, log: seq<Command>, p: Position) {
    && p.a <= p.o < p.e <= |c.gaps| && Invisible(c, p.a, p.o)
    && p.a <= p.k <= p.e && c.Gap(p.e)
    && log + RestBackward(c, p.k, p.o, p.e) == c.Areas(0)
  }

  /** The area starts here: the first visible edge of its stretch. */
  lemma SweepOpens(c: Outline, log: seq<Command>, p: Position)
    requires c.Valid() && Closed(c, log, p) && c.Top(p.k).Some?
    ensures Forward(c, log + (c.Opening(p.k) + Draw(c.Top(p.k))), Position(p.k + 1, p.a, p.k, c.RunEnd(p.k + 1)))
  {
    assert c.tops[p.k].Some?;
    RunEndIsGap(c, p.k + 1);
    AreasOpens(c, p.k);
    Shift(log, c.Opening(p.k) + Draw(c.Top(p.k)), RestForward(c, p.k + 1, p.k, c.RunEnd(p.k + 1)));
  }

  lemma SweepSkips(c: Outline, log: seq<Command>, p: Position)
    requires Closed(c, log, p) && c.Top(p.k).None? && p.k <= |c.gaps| + 1
    ensures Closed(c, log, p.(k := p.k + 1))
  {
  }

  lemma SweepTop(c: Outline, log: seq<Command>, p: Position)
    requires Forward(c, log, p) && !c.Gap(p.k + 1)
    ensures Forward(c, log + Draw(c.Top(p.k)), p.(k := p.k + 1))
  {
    RunEndNext(c, p.k);
    DrawsTop(c, log, p.k, p.o, p.e);
  }

  lemma DrawsTop(c: Outline, log: seq<Command>, k: nat, o: nat, e: nat)
    requires k < e
    ensures (log + Draw(c.Top(k))) + RestForward(c, k + 1, o, e) == log + RestForward(c, k, o, e)
  {
    TopAdvances(c, k, o, e);
    Shift(log, Draw(c.Top(k)), RestForward(c, k + 1, o, e));
  }

  lemma SweepTurns(c: Outline, log: seq<Command>, p: Position)
    requires c.Valid() && Forward(c, log, p) && c.Gap(p.k + 1)
    ensures p.e == p.k + 1 && Backward(c, log, p.(k := p.k + 1))
  {
    RunEndNext(c, p.k);
    TurnsAtGap(c, p.k, p.o);
    TurnsBackward(c, log, p);
  }

  lemma TurnsBackward(c: Outline, log: seq<Command>, p: Position)
    requires Forward(c, log, p) && c.Gap(p.k + 1) && p.e == p.k + 1
    requires RestForward(c, p.k, p.o, p.k + 1) == RestBackward(c, p.k + 1, p.o, p.k + 1)
    ensures Backward(c, log, p.(k := p.k + 1))
  {
  }

  lemma TurnsAtGap(c: Outline, k: nat, o: nat)
    requires c.Valid() && c.Gap(k + 1)
    ensures RestForward(c, k, o, k + 1) == RestBackward(c, k + 1, o, k + 1)
  {
    NothingAtGap(c, k);
    TopAtEnd(c, k, o);
  }

  lemma NothingAtGap(c: Outline, k: nat)
    requires c.Valid() && c.Gap(k + 1)
    ensures c.Top(k).None?
  {
    assert k < |c.gaps| ==> c.tops[k] == c.Top(k);
  }

  lemma TopAtEnd(c: Outline, k: nat, o: nat)
    requires c.Top(k).None?
    ensures RestForward(c, k, o, k + 1) == RestBackward(c, k + 1, o, k + 1)
  {
    assert c.TopPath(k + 1, k + 1) == [];
    assert c.TopPath(k, k + 1) == Draw(c.Top(k)) + c.TopPath(k + 1, k + 1) == [];
  }

  lemma SweepBottom(c: Outline, log: seq<Command>, p: Position)
    requires c.Valid() && Backward(c, log, p) && p.k > p.a
    ensures Backward(c, log + Draw(c.Bottom(p.k - 1)), p.(k := p.k - 1))
  {
    assert p.k <= p.o ==> c.tops[p.k - 1] == c.Top(p.k - 1) == None;
    DrawsBottom(c, log, p.k, p.o, p.e);
  }

  lemma DrawsBottom(c: Outline, log: seq<Command>, k: int, o: nat, e: nat)
    requires k <= o ==> c.Bottom(k - 1).None?
    ensures (log + Draw(c.Bottom(k - 1))) + RestBackward(c, k - 1, o, e) == log + RestBackward(c, k, o, e)
  {
    BackAdvances(c, k, o, e);
    Shift(log, Draw(c.Bottom(k - 1)), RestBackward(c, k - 1, o, e));
  }

  lemma SweepFills(c: Outline, log: seq<Command>, p: Position)
    requires Backward(c, log, p) && p.k == p.a
    ensures Closed(c, log + [Fill], p.(k := p.e + 1, a := p.e + 1))
  {
    BottomAtEnd(c, p.k, p.o, p.e);
    Shift(log, [Fill], c.Areas(p.e + 1));
  }

  lemma BottomAtEnd(c: Outline, k: nat, o: nat, e: nat)
    requires k <= o
    ensures RestBackward(c, k, o, e) == [Fill] + c.Areas(e + 1)
  {
  }

  lemma Halt(c: Outline, log: seq<Command>, p: Position)
    requires Closed(c, log, p) && p.k >= |c.gaps|
    ensures log == c.Areas(0)
  {
    assert log + [] == log;
  }

  // ---------------------------------------------------------------- every path is filled exactly once

  datatype PathState = NoPath | Begun | Drawing | Broken

  /** begin, move, lines, fill: the only order in which a path may be built. */
  function AfterCommand(state: PathState, cmd: Command): PathState {
    match (state, cmd)
    case (NoPath, BeginPath) => Begun
    case (Begun, MoveTo(_)) => Drawing
    case (Drawing, LineTo(_)) => Drawing
    case (Drawing, Fill) => NoPath
    case _ => Broken
  }

  function AfterCommands(state: PathState, cmds: seq<Command>): PathState
    decreases |cmds|
  {
    if cmds == [] then state else AfterCommands(AfterCommand(state, cmds[0]), cmds[1..])
  }

  lemma {:induction false} AfterAppend(state: PathState, a: seq<Command>, b: seq<Command>)
    ensures AfterCommands(state, a + b) == AfterCommands(AfterCommands(state, a), b)
    decreases |a|
  {
    if a == [] {
      assert a + b == b;
    } else {
      assert (a + b)[1..] == a[1..] + b;
      AfterAppend(AfterCommand(state, a[0]), a[1..], b);
    }
  }

  ghost predicate OnlyLines(cmds: seq<Command>) {
    forall i :: 0 <= i < |cmds| ==> cmds[i].LineTo?
  }

  lemma {:induction false} LinesKeepDrawing(cmds: seq<Command>)
    requires OnlyLines(cmds)
    ensures AfterCommands(Drawing, cmds) == Drawing
    decreases |cmds|
  {
    if cmds != [] {
      LinesKeepDrawing(cmds[1..]);
    }
  }

  ghost predicate IsOpening(cmds: seq<Command>) {
    |cmds| == 2 && cmds[0].BeginPath? && cmds[1].MoveTo?
  }

  /** Edges are lines, and an area is opened by beginning a path and moving to its start. */
  ghost predicate Proper(c: Outline) {
    && (forall k :: c.Top(k).Some? ==> OnlyLines(c.Top(k).value) && IsOpening(c.Opening(k)))
    && (forall k :: c.Bottom(k).Some? ==> OnlyLines(c.Bottom(k).value))
  }

  lemma {:induction false} TopPathLines(c: Outline, k: nat, e: nat)
    requires Proper(c)
    ensures OnlyLines(c.TopPath(k, e))
    decreases e - k
  {
    if k < e {
      TopPathLines(c, k + 1, e);
    }
  }

  lemma {:induction false} BottomPathLines(c: Outline, o: nat, k: int)
    requires Proper(c)
    ensures OnlyLines(c.BottomPath(o, k))
    decreases k - o
  {
    if k > o {
      BottomPathLines(c, o, k - 1);
    }
  }

  /** Every path that is opened is filled exactly once, before the next is opened and before the end. */
  lemma {:induction false} AreasAreClosed(c: Outline, k: nat)
    requires Proper(c)
    ensures AfterCommands(NoPath, c.Areas(k)) == NoPath
    decreases |c.gaps| - k
  {
    if k < |c.gaps| {
      if c.Top(k).None? {
        AreasAreClosed(c, k + 1);
      } else {
        var e := c.RunEnd(k + 1);
        AreasAreClosed(c, e + 1);
        OneAreaIsClosed(c.Opening(k), c.TopPath(k, e), c.BottomPath(k, e), c.Areas(e + 1)) by {
          TopPathLines(c, k, e);
          BottomPathLines(c, k, e);
        }
      }
    }
  }

  lemma OneAreaIsClosed(opening: seq<Command>, top: seq<Command>, bottom: seq<Command>, rest: seq<Command>)
    requires IsOpening(opening)
    requires OnlyLines(top) && OnlyLines(bottom)
    ensures AfterCommands(NoPath, opening + (top + (bottom + ([Fill] + rest)))) == AfterCommands(NoPath, rest)
  {
    AfterAppend(NoPath, opening, top + (bottom + ([Fill] + rest)));
    assert AfterCommands(NoPath, opening) == AfterCommands(Begun, opening[1..]) == Drawing;
    AfterAppend(Drawing, top, bottom + ([Fill] + rest));
    LinesKeepDrawing(top);
    AfterAppend(Drawing, bottom, [Fill] + rest);
    LinesKeepDrawing(bottom);
    AfterAppend(Drawing, [Fill], rest);
  }
}
