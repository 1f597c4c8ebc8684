/** How Flot's processData copies a series: every value is cleaned, incomplete points become gaps, and with
    lines.steps a middle point is inserted, in place, wherever two points differ in both coordinates. */
module StepInsertion {
  import AxisRange
  import opened DataExtents
  import opened PlotGeometry

  /** A value of the user's data as `+val` sees it. */
  datatype Raw = Null | NotANumber | Finite(v: real) | PosInfinity | NegInfinity

  /** A point of the user's data: null, or an array that may be too short or too long. */
  type Datum = Option<seq<Raw>>

  type Row = seq<Option<real>>

  function Coordinate(p: seq<Raw>, m: nat): Raw {
    if m < |p| then p[m] else Null
  }

  function Number(val: Raw): Option<real> {
    match val
    case Null => None
    case NotANumber => None
    case Finite(v) => Some(v)
    case PosInfinity => Some(FAKE_INFINITY)
    case NegInfinity => Some(-FAKE_INFINITY)
  }

  function Cleaned(val: Raw, f: Format): Option<real> {
    if Number(val).None? then f.defaultValue else Number(val)
  }

  predicate Missing(val: Raw, f: Format) {
    Number(val).None? && f.required
  }

  /** The point is a gap: it is null, or lacks a required coordinate. */
  predicate IsGap(p: Datum, format: seq<Format>) {
    p.None? || exists m :: 0 <= m < |format| && Missing(Coordinate(p.value, m), format[m])
  }

  function Gap(ps: nat): Row {
    seq(ps, m => None)
  }

  function Entries(p: seq<Raw>, format: seq<Format>): Row {
    seq(|format|, m requires 0 <= m < |format| => Cleaned(Coordinate(p, m), format[m]))
  }

  function CleanRow(p: Datum, format: seq<Format>): Row {
    if IsGap(p, format) then Gap(|format|)
    else Entries(p.value, format)
  }

  /** The test before a middle point is inserted between two rows. */
  predicate NeedsStep(before: Row, row: Row)
    requires |before| >= 2 && |row| >= 2
  {
    before[0].Some? && before[0] != row[0] && before[1] != row[1]
  }

  function MiddleRow(before: Row, row: Row): Row
    requires |before| >= 2 && |row| >= 2
  {
    row[1 := before[1]]
  }

  ghost predicate Aligned(rows: seq<Row>, ps: nat) {
    forall k :: 0 <= k < |rows| ==> |rows[k]| == ps
  }

  /** The rows that processData leaves for `data`. */
  function CopiedRows(format: seq<Format>, data: seq<Datum>, steps: bool): (rows: seq<Row>)
    requires |format| >= 2
    ensures Aligned(rows, |format|) && (data == [] <==> rows == [])
  {
    if data == [] then []
    else
      var p := data[|data| - 1];
      var before := CopiedRows(format, data[..|data| - 1], steps);
      before + NewRows(format, before, p, steps)
  }

  /** What one more point of the data adds to the rows before it. */
  function NewRows(format: seq<Format>, before: seq<Row>, p: Datum, steps: bool): (rows: seq<Row>)
    requires |format| >= 2 && Aligned(before, |format|)
  {
    var row := CleanRow(p, format);
    if Steps(format, before, p, steps) then [MiddleRow(before[|before| - 1], row), row] else [row]
  }

  predicate Steps(format: seq<Format>, before: seq<Row>, p: Datum, steps: bool)
    requires |format| >= 2 && Aligned(before, |format|)
  {
    steps && !IsGap(p, format) && before != [] && NeedsStep(before[|before| - 1], CleanRow(p, format))
  }

  // ---------------------------------------------------------------- the staircase

  function VertexOf(row: Row): Option<Point>
    requires |row| >= 2
  {
    if row[0].Some? && row[1].Some? then Some(Point(row[0].value, row[1].value)) else None
  }

  predicate Level(v: Option<Point>, w: Option<Point>) {
    v.Some? && w.Some? ==> v.value.x == w.value.x || v.value.y == w.value.y
  }

  /** With steps on, two neighbouring points that both exist differ in at most one coordinate. */
  lemma {:induction false} StepsMakeStaircase(format: seq<Format>, data: seq<Datum>, k: nat)
    requires |format| >= 2 && k + 1 < |CopiedRows(format, data, true)|
    ensures Level(VertexOf(CopiedRows(format, data, true)[k]), VertexOf(CopiedRows(format, data, true)[k + 1]))
    decreases |data|
  {
    var p := data[|data| - 1];
    var before := CopiedRows(format, data[..|data| - 1], true);
    if k + 1 < |before| {
      StepsMakeStaircase(format, data[..|data| - 1], k);
    }
  }

  // ---------------------------------------------------------------- the points of the data survive

  /** Where the row of each point of the data ends up. */
  function Positions(format: seq<Format>, data: seq<Datum>, steps: bool): (at: seq<nat>)
    requires |format| >= 2
    ensures |at| == |data|
  {
    if data == [] then []
    else Positions(format, data[..|data| - 1], steps) + [|CopiedRows(format, data, steps)| - 1]
  }

  /** The cleaned points are, in order, a subsequence of the rows that starts with the first and ends with
      the last; between neighbours there is nothing, or exactly one row with the new point's values but the
      old point's y. */
  ghost predicate Interleaved(format: seq<Format>, data: seq<Datum>, rows: seq<Row>, at: seq<nat>, steps: bool)
    requires |format| >= 2
  {
    && |at| == |data| && Aligned(rows, |format|)
    && (data == [] ==> rows == [])
    && (data != [] ==> at[0] == 0 && at[|at| - 1] == |rows| - 1)
    && (forall j :: 0 <= j < |data| ==> Lands(format, data[j], rows, at[j]))
    && (forall j :: 0 < j < |data| ==> Between(format, data[j], rows, at[j - 1], at[j], steps))
  }

  ghost predicate Lands(format: seq<Format>, p: Datum, rows: seq<Row>, i: nat) {
    i < |rows| && rows[i] == CleanRow(p, format)
  }

  ghost predicate Between(format: seq<Format>, p: Datum, rows: seq<Row>, i: nat, k: nat, steps: bool)
    requires |format| >= 2 && Aligned(rows, |format|)
  {
    && i < k < |rows|
    && if steps && !IsGap(p, format) && rows[i][0] != None && rows[i][0] != rows[k][0] && rows[i][1] != rows[k][1]
       then k == i + 2 && forall m :: 0 <= m < |format| ==> rows[i + 1][m] == if m == 1 then rows[i][m] else rows[k][m]
       else k == i + 1
  }

  lemma {:induction false} DataSurvives(format: seq<Format>, data: seq<Datum>, steps: bool)
    requires |format| >= 2
    ensures Interleaved(format, data, CopiedRows(format, data, steps), Positions(format, data, steps), steps)
    decreases |data|
  {
    if data != [] {
      var front := data[..|data| - 1];
      DataSurvives(format, front, steps);
      OneMoreSurvives(format, front, data[|data| - 1], CopiedRows(format, front, steps), Positions(format, front, steps), steps);
      assert front + [data[|data| - 1]] == data;
    }
  }

  lemma OneMoreSurvives(format: seq<Format>, data: seq<Datum>, p: Datum, rows: seq<Row>, at: seq<nat>, steps: bool)
    requires |format| >= 2 && Interleaved(format, data, rows, at, steps) && (data != [] ==> rows != [])
    ensures
      var rows' := rows + NewRows(format, rows, p, steps);
      Interleaved(format, data + [p], rows', at + [|rows'| - 1], steps)
  {
    LastLands(format, rows, p, steps);
    if rows != [] {
      LastBetween(format, rows, p, steps);
    }
    StillInterleaved(format, data, p, rows, NewRows(format, rows, p, steps), at, steps);
  }

  lemma StillInterleaved(format: seq<Format>, data: seq<Datum>, p: Datum, rows: seq<Row>, more: seq<Row>, at: seq<nat>,
                         steps: bool)
    requires |format| >= 2 && Interleaved(format, data, rows, at, steps)
    requires Aligned(more, |format|) && more != [] && (data == [] ==> |more| == 1) && (data != [] ==> rows != [])
    requires Lands(format, p, rows + more, |rows + more| - 1)
    requires rows != [] ==> Between(format, p, rows + more, |rows| - 1, |rows + more| - 1, steps)
    ensures Interleaved(format, data + [p], rows + more, at + [|rows + more| - 1], steps)
  {
    var all, at' := data + [p], at + [|rows + more| - 1];
    forall j | 0 <= j < |all| ensures Lands(format, all[j], rows + more, at'[j]) {
      if j < |data| {
        assert Lands(format, data[j], rows, at[j]);
      }
    }
    forall j | 0 < j < |all| ensures Between(format, all[j], rows + more, at'[j - 1], at'[j], steps) {
      if j < |data| {
        BetweenStays(format, data[j], rows, more, at[j - 1], at[j], steps);
      }
    }
  }

  lemma LastLands(format: seq<Format>, before: seq<Row>, p: Datum, steps: bool)
    requires |format| >= 2 && Aligned(before, |format|)
    ensures
      var rows := before + NewRows(format, before, p, steps);
      Lands(format, p, rows, |rows| - 1)
  {
  }

  lemma BetweenStays(format: seq<Format>, p: Datum, rows: seq<Row>, more: seq<Row>, i: nat, k: nat, steps: bool)
    requires |format| >= 2 && Aligned(rows, |format|) && Aligned(more, |format|)
    requires Between(format, p, rows, i, k, steps)
    ensures Between(format, p, rows + more, i, k, steps)
  {
  }

  lemma LastBetween(format: seq<Format>, before: seq<Row>, p: Datum, steps: bool)
    requires |format| >= 2 && Aligned(before, |format|) && before != []
    ensures
      var rows := before + NewRows(format, before, p, steps);
      Between(format, p, rows, |before| - 1, |rows| - 1, steps)
  {
  }

  // ---------------------------------------------------------------- the flat array

  function Flat(rows: seq<Row>): FlatData {
    if rows == [] then [] else Flat(rows[..|rows| - 1]) + rows[|rows| - 1]
  }

  lemma {:induction false} FlatAt(rows: seq<Row>, ps: nat)
    requires Aligned(rows, ps)
    ensures |Flat(rows)| == |rows| * ps
    ensures forall k, m :: 0 <= k < |rows| && 0 <= m < ps ==> At(Flat(rows), k * ps + m) == rows[k][m]
    decreases |rows|
  {
    if rows != [] {
      var front := rows[..|rows| - 1];
      FlatAt(front, ps);
      Scale(|front|, |rows|, ps);
      forall k, m | 0 <= k < |rows| && 0 <= m < ps ensures At(Flat(rows), k * ps + m) == rows[k][m] {
        FlatAtOne(rows, ps, k, m);
      }
    }
  }

  lemma FlatAtOne(rows: seq<Row>, ps: nat, k: nat, m: nat)
    requires Aligned(rows, ps) && k < |rows| && m < ps && |Flat(rows[..|rows| - 1])| == (|rows| - 1) * ps
    requires k < |rows| - 1 ==> At(Flat(rows[..|rows| - 1]), k * ps + m) == rows[k][m]
    ensures At(Flat(rows), k * ps + m) == rows[k][m]
  {
    Scale(k + 1, |rows| - 1, ps);
    Scale(k, |rows| - 1, ps);
    Scale(0, k, ps);
  }

  /** The point lacks a coordinate that is required, or it is not a number. */
  ghost predicate LacksRequired(p: seq<Raw>, format: seq<Format>) {
    exists m :: 0 <= m < |format| && format[m].required && (m >= |p| || p[m] == Null || p[m] == NotANumber)
  }

  lemma GapsLackRequired(p: seq<Raw>, format: seq<Format>)
    ensures IsGap(Some(p), format) <==> LacksRequired(p, format)
  {
    if LacksRequired(p, format) {
      var m :| 0 <= m < |format| && format[m].required && (m >= |p| || p[m] == Null || p[m] == NotANumber);
      assert Missing(Coordinate(p, m), format[m]);
    }
  }

  /** What is left of coordinate m of a point: a finite value unchanged, an infinity with its sign, the default if it is
      missing but not required; nothing at all of a gap. */
  ghost predicate Stored(p: Datum, format: seq<Format>, m: nat, entry: Option<real>)
    requires m < |format|
  {
    if p.None? || LacksRequired(p.value, format) then entry == None
    else
      match if m < |p.value| then p.value[m] else Null
      case Finite(v) => entry == Some(v)
      case PosInfinity => entry == Some(FAKE_INFINITY)
      case NegInfinity => entry == Some(-FAKE_INFINITY)
      case _ => entry == format[m].defaultValue
  }

  function FlatIndex(k: nat, ps: nat, m: nat): int {
    k * ps + m
  }

  lemma CleanRowStores(p: Datum, format: seq<Format>, m: nat)
    requires m < |format|
    ensures Stored(p, format, m, CleanRow(p, format)[m])
  {
    if p.Some? {
      GapsLackRequired(p.value, format);
    }
  }

  /** Each point of the data is found in the flat array, where Positions says. */
  lemma ValuesSurvive(format: seq<Format>, data: seq<Datum>, steps: bool, j: nat, m: nat)
    requires |format| >= 2 && j < |data| && m < |format|
    ensures
      var points := Flat(CopiedRows(format, data, steps));
      var i := FlatIndex(Positions(format, data, steps)[j], |format|, m);
      0 <= i < |points| && Stored(data[j], format, m, points[i])
  {
    PositionLands(format, data, steps, j);
    StoredAt(CopiedRows(format, data, steps), format, data[j], Positions(format, data, steps)[j], m);
  }

  lemma PositionLands(format: seq<Format>, data: seq<Datum>, steps: bool, j: nat)
    requires |format| >= 2 && j < |data|
    ensures Lands(format, data[j], CopiedRows(format, data, steps), Positions(format, data, steps)[j])
  {
    DataSurvives(format, data, steps);
  }

  lemma StoredAt(rows: seq<Row>, format: seq<Format>, p: Datum, i: nat, m: nat)
    requires Aligned(rows, |format|) && Lands(format, p, rows, i) && m < |format|
    ensures 0 <= FlatIndex(i, |format|, m) < |Flat(rows)|
    ensures Stored(p, format, m, Flat(rows)[FlatIndex(i, |format|, m)])
  {
    CleanRowStores(p, format, m);
    InFlat(rows, |format|, i, m);
  }

  lemma InFlat(rows: seq<Row>, ps: nat, k: nat, m: nat)
    requires Aligned(rows, ps) && k < |rows| && m < ps
    ensures 0 <= k * ps + m < |Flat(rows)| && Flat(rows)[k * ps + m] == rows[k][m]
  {
    FlatAt(rows, ps);
    Scale(k + 1, |rows|, ps);
    Scale(k, k, ps);
    Scale(0, k, ps);
    assert At(Flat(rows), k * ps + m) == rows[k][m];
  }

  lemma NewRowsFlat(format: seq<Format>, rows: seq<Row>, p: Datum, steps: bool)
    requires |format| >= 2 && Aligned(rows, |format|)
    ensures
      var row := CleanRow(p, format);
      Flat(rows + NewRows(format, rows, p, steps)) ==
      if Steps(format, rows, p, steps) then Flat(rows) + MiddleRow(rows[|rows| - 1], row) + row else Flat(rows) + row
  {
    var row := CleanRow(p, format);
    if Steps(format, rows, p, steps) {
      FlatPushTwo(rows, MiddleRow(rows[|rows| - 1], row), row);
    } else {
      FlatPush(rows, row);
    }
  }

  lemma FlatPushTwo(rows: seq<Row>, a: Row, b: Row)
    ensures Flat(rows + [a, b]) == Flat(rows) + a + b
  {
    FlatPush(rows, a);
    FlatPush(rows + [a], b);
    assert rows + [a, b] == rows + [a] + [b];
  }

  lemma LastRowOfFlat(rows: seq<Row>, ps: nat)
    requires ps > 0 && Aligned(rows, ps)
    ensures rows == [] <==> Flat(rows) == []
    ensures rows != [] ==> ps <= |Flat(rows)| && Flat(rows)[|Flat(rows)| - ps..] == rows[|rows| - 1]
  {
  }

  lemma FlatPush(rows: seq<Row>, row: Row)
    ensures Flat(rows + [row]) == Flat(rows) + row
  {
    assert (rows + [row])[..|rows|] == rows;
  }

  predicate Complete(row: Row) {
    forall m :: 0 <= m < |row| ==> row[m].Some?
  }

  /** Every coordinate after x is required or has a default. */
  predicate NeverPartial(format: seq<Format>) {
    forall m :: 0 < m < |format| ==> format[m].required || format[m].defaultValue.Some?
  }

  lemma {:induction false} RowsAreComplete(format: seq<Format>, data: seq<Datum>, steps: bool, k: nat)
    requires |format| >= 2 && NeverPartial(format) && k < |CopiedRows(format, data, steps)|
    requires CopiedRows(format, data, steps)[k][0].Some?
    ensures Complete(CopiedRows(format, data, steps)[k])
    decreases |data|
  {
    var front := data[..|data| - 1];
    var before := CopiedRows(format, front, steps);
    if k < |before| {
      RowsAreComplete(format, front, steps, k);
    } else {
      if before != [] && before[|before| - 1][0] != None {
        RowsAreComplete(format, front, steps, |before| - 1);
      }
      NewRowsAreComplete(format, before, data[|data| - 1], steps);
    }
  }

  lemma NewRowsAreComplete(format: seq<Format>, before: seq<Row>, p: Datum, steps: bool)
    requires |format| >= 2 && NeverPartial(format) && Aligned(before, |format|)
    requires before != [] && before[|before| - 1][0] != None ==> Complete(before[|before| - 1])
    ensures forall row :: row in NewRows(format, before, p, steps) && row[0] != None ==> Complete(row)
  {
  }

  /** The array is well-formed input for the line and area drawing. */
  lemma CopyIsWellFormed(format: seq<Format>, data: seq<Datum>, steps: bool)
    requires |format| >= 2 && NeverPartial(format)
    ensures WellFormed(Flat(CopiedRows(format, data, steps)), |format|)
  {
    var ps := |format|;
    var rows := CopiedRows(format, data, steps);
    var points := Flat(rows);
    FlatAt(rows, ps);
    ExactRows(|rows|, ps);
    forall k | 0 <= k < Rows(points, ps) ensures RowComplete(points, ps, k) {
      assert At(points, k * ps + 0) == rows[k][0];
      if rows[k][0].Some? {
        RowsAreComplete(format, data, steps, k);
        forall i | k * ps <= i < k * ps + ps ensures At(points, i).Some? {
          assert At(points, k * ps + (i - k * ps)) == rows[k][i - k * ps];
        }
      }
    }
  }

  /** A point at which an optional coordinate without a default is missing. */
  function PartialPoint(ps: nat, m: nat): Datum {
    Some(seq(ps, i => if i == m then Null else Finite(0.0)))
  }

  lemma OnePoint(format: seq<Format>, p: Datum)
    requires |format| >= 2
    ensures Flat(CopiedRows(format, [p], false)) == CleanRow(p, format)
  {
    var row := CleanRow(p, format);
    assert [p][..0] == [];
    assert CopiedRows(format, [p], false) == [row];
    assert [row][..0] == [];
  }

  lemma OneRowIncomplete(row: FlatData, m: nat)
    requires 0 < m < |row| && row[0] != None && row[m] == None
    ensures !WellFormed(row, |row|)
  {
    ExactRows(1, |row|);
    assert !RowComplete(row, |row|, 0) by {
      assert At(row, m) == None;
    }
  }

  lemma {:induction false} PartialRow(format: seq<Format>, m: nat)
    requires 0 < m < |format| && !format[m].required && format[m].defaultValue.None?
    ensures
      var row := CleanRow(PartialPoint(|format|, m), format);
      |row| == |format| && row[0] != None && row[m] == None
  {
    var p := PartialPoint(|format|, m);
    forall i | 0 <= i < |format| ensures !Missing(Coordinate(p.value, i), format[i]) {
    }
    assert !IsGap(p, format);
  }

  lemma {:induction false} PartialPointBreaks(format: seq<Format>, m: nat)
    requires 0 < m < |format| && !format[m].required && format[m].defaultValue.None?
    ensures !WellFormed(Flat(CopiedRows(format, [PartialPoint(|format|, m)], false)), |format|)
  {
    PartialRow(format, m);
    OnePoint(format, PartialPoint(|format|, m));
    OneRowIncomplete(CleanRow(PartialPoint(|format|, m), format), m);
  }

  ghost predicate CopiesWell(format: seq<Format>, data: seq<Datum>, steps: bool)
    requires |format| >= 2
  {
    WellFormed(Flat(CopiedRows(format, data, steps)), |format|)
  }

  /** Exactly the formats without an optional coordinate that lacks a default yield well-formed arrays from
      all data; the built-in formats are of that kind. */
  lemma WellFormedExactly(format: seq<Format>)
    requires |format| >= 2
    ensures (forall data, steps :: CopiesWell(format, data, steps)) <==> NeverPartial(format)
    ensures forall filled, horizontal, autoscale :: NeverPartial(BuiltInFormat(filled, horizontal, autoscale))
  {
    if NeverPartial(format) {
      forall data, steps ensures CopiesWell(format, data, steps) {
        CopyIsWellFormed(format, data, steps);
      }
    } else {
      PartialFormatBreaks(format);
    }
  }

  lemma PartialFormatBreaks(format: seq<Format>)
    requires |format| >= 2 && !NeverPartial(format)
    ensures exists data, steps :: !CopiesWell(format, data, steps)
  {
    var m :| 0 < m < |format| && !format[m].required && format[m].defaultValue.None?;
    PartialPointBreaks(format, m);
    assert !CopiesWell(format, [PartialPoint(|format|, m)], false);
  }

  /** The format of a series without a hook; bars and filled lines have a third coordinate. */
  function BuiltInFormat(filled: bool, horizontal: bool, autoscale: bool): seq<Format> {
    [Format(true, false, true, None, None), Format(false, true, true, None, None)] +
    if filled then [Format(horizontal, !horizontal, false, Some(0.0), Some(autoscale))] else []
  }

  lemma ExactRows(n: nat, ps: nat)
    requires ps > 0
    ensures n * ps % ps == 0 && n * ps / ps == n
  {
    var q, r := n * ps / ps, n * ps % ps;
    assert (n - q) * ps == r by {
      Distribute(n, q, ps);
    }
    Scale(1, n - q, ps);
    Scale(n - q, -1, ps);
  }

  lemma Distribute(a: int, b: int, n: nat)
    ensures (a - b) * n == a * n - b * n
  {
  }

  /** The staircase as the drawing functions see it. */
  lemma FlatStaircase(format: seq<Format>, data: seq<Datum>, k: nat)
    requires |format| >= 2 && k + 1 < |CopiedRows(format, data, true)|
    ensures
      var points := Flat(CopiedRows(format, data, true));
      Level(Vertex(points, |format|, k), Vertex(points, |format|, k + 1))
  {
    var rows := CopiedRows(format, data, true);
    FlatAt(rows, |format|);
    StepsMakeStaircase(format, data, k);
    FlatVertex(rows, |format|, k);
    FlatVertex(rows, |format|, k + 1);
  }

  lemma FlatVertex(rows: seq<Row>, ps: nat, k: nat)
    requires ps >= 2 && Aligned(rows, ps) && k < |rows|
    ensures Vertex(Flat(rows), ps, k) == VertexOf(rows[k])
  {
    FlatAt(rows, ps);
    assert At(Flat(rows), k * ps + 0) == rows[k][0];
    assert At(Flat(rows), k * ps + 1) == rows[k][1];
  }

  // ---------------------------------------------------------------- the extents after the first pass

  /** The coordinates of points that became gaps, where their entries ask for it. */
  function FirstPass(e: Extents, data: seq<Datum>, format: seq<Format>): Extents {
    if data == [] then e
    else AfterPoint(FirstPass(e, data[..|data| - 1], format), data[|data| - 1], format)
  }

  function AfterPoint(e: Extents, p: Datum, format: seq<Format>): Extents {
    if p.Some? && IsGap(p, format) then GapRow(e, Entries(p.value, format), format, |format|) else e
  }

  lemma {:induction false} FirstPassWidens(e: Extents, data: seq<Datum>, format: seq<Format>)
    ensures BothWiden(e, FirstPass(e, data, format))
    decreases |data|
  {
    if data != [] {
      var before, p := FirstPass(e, data[..|data| - 1], format), data[|data| - 1];
      FirstPassWidens(e, data[..|data| - 1], format);
      if p.Some? {
        GapRowWidens(before, Entries(p.value, format), format, |format|);
      }
      WidensTransitive(e, before, AfterPoint(before, p, format), None, Format(false, false, false, None, None));
    }
  }

  /** The coordinate m of a point that became a gap counts if its entry asks for it. */
  predicate CountsInGap(data: seq<Datum>, format: seq<Format>, j: nat, m: nat, v: real, x: bool) {
    && j < |data| && data[j].Some? && IsGap(data[j], format)
    && GapValue(Entries(data[j].value, format), format, m, v, x)
  }

  lemma {:induction false} FirstPassCovers(e: Extents, data: seq<Datum>, format: seq<Format>, j: nat, m: nat, v: real,
                                           x: bool)
    requires CountsInGap(data, format, j, m, v, x) && v != FAKE_INFINITY && v != -FAKE_INFINITY
    ensures
      var e' := FirstPass(e, data, format);
      Covers(if x then e'.x else e'.y, v)
    decreases |data|
  {
    var before, p := FirstPass(e, data[..|data| - 1], format), data[|data| - 1];
    if j < |data| - 1 {
      FirstPassCovers(e, data[..|data| - 1], format, j, m, v, x);
      if p.Some? {
        GapRowWidens(before, Entries(p.value, format), format, |format|);
      }
    } else {
      GapRowCovers(before, Entries(p.value, format), format, |format|, m, v, x);
    }
  }

  ghost predicate FromGaps(data: seq<Datum>, format: seq<Format>, v: Option<real>, x: bool) {
    v.Some? && exists j, m :: CountsInGap(data, format, j, m, v.value, x)
  }

  ghost predicate MovedByGaps(e: Extents, e': Extents, data: seq<Datum>, format: seq<Format>) {
    && (e'.x.min == e.x.min || FromGaps(data, format, e'.x.min, true))
    && (e'.x.max == e.x.max || FromGaps(data, format, e'.x.max, true))
    && (e'.y.min == e.y.min || FromGaps(data, format, e'.y.min, false))
    && (e'.y.max == e.y.max || FromGaps(data, format, e'.y.max, false))
  }

  /** Only such coordinates move the extents in the first pass; points that are copied do not. */
  lemma {:induction false} FirstPassIsTight(e: Extents, data: seq<Datum>, format: seq<Format>)
    ensures MovedByGaps(e, FirstPass(e, data, format), data, format)
    decreases |data|
  {
    if data != [] {
      var front, p := data[..|data| - 1], data[|data| - 1];
      FirstPassIsTight(e, front, format);
      if p.Some? {
        GapRowIsTight(FirstPass(e, front, format), Entries(p.value, format), format, |format|);
      }
      var e' := FirstPass(e, data, format);
      GapsGrow(front, p, format, e'.x.min, true);
      GapsGrow(front, p, format, e'.x.max, true);
      GapsGrow(front, p, format, e'.y.min, false);
      GapsGrow(front, p, format, e'.y.max, false);
      assert front + [p] == data;
    }
  }

  /** Neither pass lets an infinity in. */
  lemma {:induction false} ExtentsStayBounded(e: Extents, data: seq<Datum>, format: seq<Format>, points: FlatData)
    requires Bounded(e) && format != []
    ensures Bounded(FirstPass(e, data, format)) && Bounded(SecondPass(FirstPass(e, data, format), points, format))
    decreases |data|
  {
    if data != [] {
      var front, p := data[..|data| - 1], data[|data| - 1];
      ExtentsStayBounded(e, front, format, points);
      if p.Some? {
        GapRowKeepsBounded(FirstPass(e, front, format), Entries(p.value, format), format, |format|);
      }
    }
    SecondPassKeepsBounded(FirstPass(e, data, format), points, format);
  }

  lemma GapsGrow(front: seq<Datum>, p: Datum, format: seq<Format>, v: Option<real>, x: bool)
    ensures FromGaps(front, format, v, x) ==> FromGaps(front + [p], format, v, x)
    ensures p.Some? && IsGap(p, format) && OccursInGap(Entries(p.value, format), format, v, x) ==>
      FromGaps(front + [p], format, v, x)
  {
    if FromGaps(front, format, v, x) {
      var j, m :| CountsInGap(front, format, j, m, v.value, x);
      assert CountsInGap(front + [p], format, j, m, v.value, x);
    }
    if p.Some? && IsGap(p, format) && OccursInGap(Entries(p.value, format), format, v, x) {
      var m :| GapValue(Entries(p.value, format), format, m, v.value, x);
      assert CountsInGap(front + [p], format, |front|, m, v.value, x);
    }
  }

  lemma NoGapCoordinates(e: Extents, format: seq<Format>, n: nat)
    requires n <= |format|
    ensures GapRow(e, [], format, n) == e
  {
  }

  // ---------------------------------------------------------------- the loop

  class Datapoints {
    var points: FlatData
    var axes: Extents
    const format: seq<Format>

    constructor (format: seq<Format>)
      ensures points == [] && axes == NOTHING && this.format == format
    {
      this.format := format;
      points, axes := [], NOTHING;
    }

    /** points[i] = val, which may extend the array by one. */
    method Put(i: nat, val: Option<real>)
      requires i <= |points|
      modifies this`points
      ensures points == if i < |old(points)| then old(points)[i := val] else old(points) + [val]
    {
      points := if i < |points| then points[i := val] else points + [val];
    }

    /** Appends the cleaned values of one point at k and reports whether it has to be a gap. */
    method CleanPoint(p: seq<Raw>, k: nat) returns (nullify: bool)
      requires k == |points|
      modifies this`points
      ensures points == old(points) + Entries(p, format)
      ensures nullify <==> IsGap(Some(p), format)
    {
      nullify := false;
      for m := 0 to |format|
        invariant |points| == k + m
        invariant points[..k] == old(points)
        invariant forall i :: 0 <= i < m ==> points[k + i] == Cleaned(Coordinate(p, i), format[i])
        invariant nullify <==> exists i :: 0 <= i < m && Missing(Coordinate(p, i), format[i])
      {
        var val := Number(Coordinate(p, m));
        if val.None? {
          if format[m].required {
            assert Missing(Coordinate(p, m), format[m]);
            nullify := true;
          }
          val := format[m].defaultValue;
        }
        Put(k + m, val);
      }
    }

    /** Turns the point at k, if it was copied at all, into a gap; its coordinates may still widen the axes. */
    method Nullify(k: nat)
      requires |points| == k || |points| == k + |format|
      modifies this`points, this`axes
      ensures points == old(points[..k]) + Gap(|format|)
      ensures axes == GapRow(old(axes), old(points[k..]), format, |format|)
    {
      ghost var row := points[k..];
      for m := 0 to |format|
        invariant |points| == |old(points)| || |points| == k + m
        invariant k + m <= |points| <= k + |format|
        invariant points[..k] == old(points[..k])
        invariant forall i :: k <= i < k + m ==> points[i] == None
        invariant forall i :: k + m <= i < |points| && i < |old(points)| ==> points[i] == old(points)[i]
        invariant row != [] ==> |points| == |old(points)|
        invariant row == [] ==> |points| == k + m
        invariant axes == GapRow(old(axes), row, format, m)
      {
        var val := if k + m < |points| then points[k + m] else None;
        assert val == At(row, m);
        if val.Some? {
          UpdateAxes(val.value, format[m]);
        }
        Put(k + m, None);
      }
    }

    /** The extents are updated for one coordinate of a gap. */
    method UpdateAxes(val: real, f: Format)
      modifies this`axes
      ensures axes == GapCoordinate(old(axes), Some(val), f)
    {
      if f.autoscale == Some(true) {
        if f.x {
          axes := axes.(x := UpdateAxis(axes.x, Some(val), Some(val)));
        }
        if f.y {
          axes := axes.(y := UpdateAxis(axes.y, Some(val), Some(val)));
        }
      }
    }

    /** Copies the point at k one point further and gives it the y of the point before. */
    method InsertMiddle(k: nat)
      requires |format| >= 2 && |points| == k + |format| && |format| <= k
      modifies this`points
      ensures points == old(points[..k]) + MiddleRow(old(points[k - |format|..k]), old(points[k..])) + old(points[k..])
    {
      var ps := |format|;
      for m := 0 to ps
        invariant |points| == k + ps + m
        invariant points[..k + ps] == old(points)
        invariant forall i :: k + ps <= i < k + ps + m ==> points[i] == old(points)[i - ps]
      {
        Put(k + ps + m, points[k + m]);
      }
      Put(k + 1, points[k - ps + 1]);
      assert points[k + ps..] == old(points[k..]);
    }

    /** The first pass over one series. */
    method ProcessData(data: seq<Datum>, insertSteps: bool)
      requires |format| >= 2 && points == []
      modifies this`points, this`axes
      ensures points == Flat(CopiedRows(format, data, insertSteps))
      ensures axes == FirstPass(old(axes), data, format)
    {
      var ps := |format|;
      var k := 0;
      for j := 0 to |data|
        invariant k == |points| && points == Flat(CopiedRows(format, data[..j], insertSteps))
        invariant axes == FirstPass(old(axes), data[..j], format)
      {
        ghost var rows := CopiedRows(format, data[..j], insertSteps);
        assert data[..j + 1][..j] == data[..j];
        k := CopyPoint(data[j], k, insertSteps, rows);
      }
      assert data[..|data|] == data;
    }

    /** One iteration of the copying loop; returns where the next point goes. */
    method CopyPoint(p: Datum, k: nat, insertSteps: bool, ghost rows: seq<Row>) returns (k': nat)
      requires |format| >= 2 && k == |points| && Aligned(rows, |format|) && points == Flat(rows)
      modifies this`points, this`axes
      ensures k' == |points|
      ensures points == Flat(rows + NewRows(format, rows, p, insertSteps))
      ensures axes == AfterPoint(old(axes), p, format)
    {
      NewRowsFlat(format, rows, p, insertSteps);
      LastRowOfFlat(rows, |format|);
      var ps := |format|;
      k' := k;
      var nullify := p.None?;
      if p.Some? {
        nullify := CleanPoint(p.value, k);
      }
      if nullify {
        NoGapCoordinates(axes, format, ps);
        Nullify(k);
      } else if insertSteps && k > 0 && points[k - ps].Some? && points[k - ps] != points[k] &&
                points[k - ps + 1] != points[k + 1]
      {
        InsertMiddle(k);
        k' := k + ps;
      }
      k' := k' + ps;
    }

    /** The second pass over one series. */
    method FindExtents()
      requires |format| >= 2 && WellFormed(points, |format|)
      modifies this`axes
      ensures axes == SecondPass(old(axes), points, format)
    {
      var ps := |format|;
      var found := NOTHING;
      var j: nat := 0;
      ghost var k: nat := 0;
      while j < |points|
        invariant j == k * ps && k <= Rows(points, ps) && axes == old(axes)
        invariant found == AddPoints(points, format, k)
      {
        RowBounds(points, ps, k);
        Scale(k, k, ps);
        if points[j].Some? {
          found := AddTo(found, j);
        }
        j := j + ps;
        k := k + 1;
      }
      AllRowsSeen(points, ps, k);
      axes := Extents(UpdateAxis(axes.x, found.x.min, found.x.max), UpdateAxis(axes.y, found.y.min, found.y.max));
    }

    /** The inner loop for the point at j. */
    method AddTo(found: Extents, j: nat) returns (found': Extents)
      requires j + |format| <= |points|
      ensures found' == AddPoint(found, points, j, format, |format|)
    {
      found' := found;
      for m := 0 to |format|
        invariant found' == AddPoint(found, points, j, format, m)
      {
        var val, f := points[j + m], format[m];
        if val.Some? && Counts(val.value, f) {
          if f.x {
            found' := found'.(x := Extended(found'.x, val.value));
          }
          if f.y {
            found' := found'.(y := Extended(found'.y, val.value));
          }
        }
      }
    }
  }

  lemma AllRowsSeen(points: FlatData, ps: nat, k: nat)
    requires WellFormed(points, ps) && |points| <= k * ps && k <= Rows(points, ps)
    ensures k == Rows(points, ps)
  {
    RowsFill(points, ps);
    Scale(k + 1, Rows(points, ps), ps);
  }

  lemma FlatRow(rows: seq<Row>, ps: nat, k: nat, m: nat)
    requires 0 < ps && Aligned(rows, ps) && k < |rows| && m < ps
    ensures Rows(Flat(rows), ps) == |rows|
    ensures At(Flat(rows), k * ps) == rows[k][0] && At(Flat(rows), k * ps + m) == rows[k][m]
  {
    FlatAt(rows, ps);
    ExactRows(|rows|, ps);
    assert At(Flat(rows), k * ps + 0) == rows[k][0];
  }

  /** Both passes over a series, and whatever other series widen afterwards: every coordinate of every point
      copied, if it counts, lies within the extents of its axis, and so in any automatic range made from them. */
  lemma PointsAreShown(format: seq<Format>, data: seq<Datum>, steps: bool, e: Extents, final: Extents,
                       o: AxisRange.Options, k: nat, m: nat)
    requires |format| >= 2 && NeverPartial(format) && m < |format| && k < |CopiedRows(format, data, steps)|
    requires AxisRange.FractionalMargin(o) && o.min.None? && o.max.None?
    requires BothWiden(SecondPass(FirstPass(e, data, format), Flat(CopiedRows(format, data, steps)), format), final)
    requires
      var row := CopiedRows(format, data, steps)[k];
      && row[0] != None && format[m].autoscale != Some(false)
      && row[m] != None && row[m] != Some(FAKE_INFINITY) && row[m] != Some(-FAKE_INFINITY)
    ensures
      var v := CoordinateOf(CopiedRows(format, data, steps)[k], m);
      && (format[m].x ==> InRange(v, AxisRange.RangeOf(o, final.x.min, final.x.max)))
      && (format[m].y ==> InRange(v, AxisRange.RangeOf(o, final.y.min, final.y.max)))
  {
    var rows := CopiedRows(format, data, steps);
    var points := Flat(rows);
    var e1 := FirstPass(e, data, format);
    FlatRow(rows, |format|, k, m);
    RowsAreComplete(format, data, steps, k);
    SecondPassCovers(e1, points, format, k, m);
    var v, e2 := CoordinateOf(rows[k], m), SecondPass(e1, points, format);
    WidensTransitive(e2, e2, final, Some(v), format[m]);
    if format[m].x {
      CoveredIsShown(o, final.x, v);
    }
    if format[m].y {
      CoveredIsShown(o, final.y, v);
    }
  }

  function CoordinateOf(row: Row, m: nat): real {
    if m < |row| && row[m] != None then row[m].value else 0.0
  }

  predicate InRange(v: real, r: AxisRange.Range) {
    r.min <= v <= r.max
  }
}
