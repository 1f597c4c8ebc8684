/** The extents of the data that Flot's processData collects on the axes: coordinates of gaps in the first pass,
    those of the points in the second. */
module DataExtents {
  import opened PlotGeometry
  import AxisRange

  /** Number.MAX_VALUE, which is (2^53 - 1) * 2^971. */
  const FAKE_INFINITY: real := 179769313486231570814527423731704356798070567525844996598917476803157260780028538760589558632766878171540458953514382464234321326889464182768467546703537516986049910576551282076245490090389328944075868508455133942304583236903222948165808559332123348274797826204144723168738177180919299881250404026184124858368.0

  /** An entry of the series' format; all entries are numbers. `autoscale` may be undefined. */
  datatype Format = Format(x: bool, y: bool, required: bool, defaultValue: Option<real>, autoscale: Option<bool>)

  /** datamin and datamax of an axis; None is the sentry, and in the end null. */
  datatype Extent = Extent(min: Option<real>, max: Option<real>)

  datatype Extents = Extents(x: Extent, y: Extent)

  const NOTHING := Extents(Extent(None, None), Extent(None, None))

  function Lower(a: Option<real>, v: real): Option<real> {
    if a.None? || v < a.value then Some(v) else a
  }

  function Higher(a: Option<real>, v: real): Option<real> {
    if a.None? || v > a.value then Some(v) else a
  }

  function UpdateAxis(e: Extent, min: Option<real>, max: Option<real>): Extent {
    Extent(if min.Some? && min.value != -FAKE_INFINITY then Lower(e.min, min.value) else e.min,
           if max.Some? && max.value != FAKE_INFINITY then Higher(e.max, max.value) else e.max)
  }

  // ---------------------------------------------------------------- the first pass: coordinates of gaps

  function GapCoordinate(e: Extents, val: Option<real>, f: Format): Extents {
    if val.None? || f.autoscale != Some(true) then e
    else Extents(if f.x then UpdateAxis(e.x, val, val) else e.x, if f.y then UpdateAxis(e.y, val, val) else e.y)
  }

  /** The first n coordinates of a point that becomes a gap; a point that is null has none. */
  function GapRow(e: Extents, row: FlatData, format: seq<Format>, n: nat): Extents
    requires n <= |format|
  {
    if n == 0 then e else GapCoordinate(GapRow(e, row, format, n - 1), At(row, n - 1), format[n - 1])
  }

  // ---------------------------------------------------------------- the second pass: coordinates of points

  /** Whether a coordinate counts for the extents. */
  predicate Counts(val: real, f: Format) {
    f.autoscale != Some(false) && val != FAKE_INFINITY && val != -FAKE_INFINITY
  }

  function Extended(e: Extent, v: real): Extent {
    Extent(Lower(e.min, v), Higher(e.max, v))
  }

  function AddCoordinate(e: Extents, val: Option<real>, f: Format): Extents {
    if val.None? || !Counts(val.value, f) then e
    else Extents(if f.x then Extended(e.x, val.value) else e.x, if f.y then Extended(e.y, val.value) else e.y)
  }

  /** The first n coordinates of the point at flat index i. */
  function AddPoint(e: Extents, points: FlatData, i: int, format: seq<Format>, n: nat): Extents
    requires n <= |format|
  {
    if n == 0 then e else AddCoordinate(AddPoint(e, points, i, format, n - 1), At(points, i + n - 1), format[n - 1])
  }

  /** The first k points. */
  function AddPoints(points: FlatData, format: seq<Format>, k: nat): Extents {
    if k == 0 then NOTHING
    else
      var before := AddPoints(points, format, k - 1);
      var i := (k - 1) * |format|;
      if At(points, i).None? then before else AddPoint(before, points, i, format, |format|)
  }

  function SeriesExtents(points: FlatData, format: seq<Format>): Extents
    requires format != []
  {
    AddPoints(points, format, Rows(points, |format|))
  }

  /** The axes after the second pass over one series. */
  function SecondPass(e: Extents, points: FlatData, format: seq<Format>): Extents
    requires format != []
  {
    var s := SeriesExtents(points, format);
    Extents(UpdateAxis(e.x, s.x.min, s.x.max), UpdateAxis(e.y, s.y.min, s.y.max))
  }

  // ---------------------------------------------------------------- what the extents cover

  predicate Covers(e: Extent, v: real) {
    e.min.Some? && e.max.Some? && e.min.value <= v <= e.max.value
  }

  /** e' covers everything that e covers. */
  predicate Widens(e: Extent, e': Extent) {
    && (e.min.Some? ==> e'.min.Some? && e'.min.value <= e.min.value)
    && (e.max.Some? ==> e'.max.Some? && e'.max.value >= e.max.value)
  }

  predicate BothWiden(e: Extents, e': Extents) {
    Widens(e.x, e'.x) && Widens(e.y, e'.y)
  }

  /** A coordinate that counts is covered on the axes it belongs to. */
  predicate CoversCoordinate(e: Extents, val: Option<real>, f: Format) {
    val.Some? && f.autoscale != Some(false) && val.value != FAKE_INFINITY && val.value != -FAKE_INFINITY ==>
      (f.x ==> Covers(e.x, val.value)) && (f.y ==> Covers(e.y, val.value))
  }

  lemma WidensTransitive(a: Extents, b: Extents, c: Extents, val: Option<real>, f: Format)
    requires BothWiden(b, c)
    ensures BothWiden(a, b) ==> BothWiden(a, c)
    ensures CoversCoordinate(b, val, f) ==> CoversCoordinate(c, val, f)
  {
  }

  /** The first pass only ever widens the extents. */
  lemma {:induction false} GapRowWidens(e: Extents, row: FlatData, format: seq<Format>, n: nat)
    requires n <= |format|
    ensures BothWiden(e, GapRow(e, row, format, n))
  {
    if n > 0 {
      GapRowWidens(e, row, format, n - 1);
    }
  }

  /** v is the coordinate m of a gap, whose entry asks for scaling, on the x axis or on the y axis. */
  predicate GapValue(row: FlatData, format: seq<Format>, m: nat, v: real, x: bool) {
    && m < |format| && At(row, m) == Some(v) && format[m].autoscale == Some(true)
    && if x then format[m].x else format[m].y
  }

  /** A gap's coordinate that asks for scaling is covered, unless it stands for infinity. */
  lemma {:induction false} GapRowCovers(e: Extents, row: FlatData, format: seq<Format>, n: nat, m: nat, v: real, x: bool)
    requires m < n <= |format| && GapValue(row, format, m, v, x) && v != FAKE_INFINITY && v != -FAKE_INFINITY
    ensures
      var e' := GapRow(e, row, format, n);
      Covers(if x then e'.x else e'.y, v)
  {
    if m < n - 1 {
      GapRowCovers(e, row, format, n - 1, m, v, x);
    }
  }

  /** No bound is ever the value that stands for an infinity on its side. */
  predicate Bounded(e: Extents) {
    && e.x.min != Some(-FAKE_INFINITY) && e.x.max != Some(FAKE_INFINITY)
    && e.y.min != Some(-FAKE_INFINITY) && e.y.max != Some(FAKE_INFINITY)
  }

  lemma {:induction false} GapRowKeepsBounded(e: Extents, row: FlatData, format: seq<Format>, n: nat)
    requires n <= |format| && Bounded(e)
    ensures Bounded(GapRow(e, row, format, n))
  {
    if n > 0 {
      GapRowKeepsBounded(e, row, format, n - 1);
    }
  }

  ghost predicate OccursInGap(row: FlatData, format: seq<Format>, v: Option<real>, x: bool) {
    v.Some? && exists m :: GapValue(row, format, m, v.value, x)
  }

  /** What a gap moves a bound to is one of its coordinates that ask for scaling. */
  ghost predicate MovedByGap(e: Extents, e': Extents, row: FlatData, format: seq<Format>) {
    && (e'.x.min == e.x.min || OccursInGap(row, format, e'.x.min, true))
    && (e'.x.max == e.x.max || OccursInGap(row, format, e'.x.max, true))
    && (e'.y.min == e.y.min || OccursInGap(row, format, e'.y.min, false))
    && (e'.y.max == e.y.max || OccursInGap(row, format, e'.y.max, false))
  }

  lemma {:induction false} GapRowIsTight(e: Extents, row: FlatData, format: seq<Format>, n: nat)
    requires n <= |format|
    ensures MovedByGap(e, GapRow(e, row, format, n), row, format)
  {
    if n > 0 {
      GapRowIsTight(e, row, format, n - 1);
      var val, f := At(row, n - 1), format[n - 1];
      if val.Some? && f.autoscale == Some(true) {
        assert f.x ==> GapValue(row, format, n - 1, val.value, true);
        assert f.y ==> GapValue(row, format, n - 1, val.value, false);
      }
    }
  }

  lemma {:induction false} AddPointCovers(e: Extents, points: FlatData, i: int, format: seq<Format>, n: nat)
    requires n <= |format|
    ensures BothWiden(e, AddPoint(e, points, i, format, n))
    ensures forall m :: 0 <= m < n ==> CoversCoordinate(AddPoint(e, points, i, format, n), At(points, i + m), format[m])
  {
    if n > 0 {
      var before := AddPoint(e, points, i, format, n - 1);
      var after := AddPoint(e, points, i, format, n);
      AddPointCovers(e, points, i, format, n - 1);
      CoordinateCovered(before, At(points, i + n - 1), format[n - 1]);
      forall m | 0 <= m < n - 1 ensures CoversCoordinate(after, At(points, i + m), format[m]) {
        WidensTransitive(e, before, after, At(points, i + m), format[m]);
      }
    }
  }

  lemma CoordinateCovered(e: Extents, val: Option<real>, f: Format)
    ensures BothWiden(e, AddCoordinate(e, val, f)) && CoversCoordinate(AddCoordinate(e, val, f), val, f)
  {
  }

  /** Every coordinate of the points that counts lies in the series' extents. */
  lemma {:induction false} AddPointsCover(points: FlatData, format: seq<Format>, k: nat, j: nat, m: nat)
    requires j < k && m < |format| && At(points, j * |format|).Some?
    ensures CoversCoordinate(AddPoints(points, format, k), At(points, j * |format| + m), format[m])
  {
    var before, i := AddPoints(points, format, k - 1), (k - 1) * |format|;
    AddPointCovers(before, points, i, format, |format|);
    if j < k - 1 {
      AddPointsCover(points, format, k - 1, j, m);
      WidensTransitive(before, before, AddPoint(before, points, i, format, |format|), At(points, j * |format| + m), format[m]);
    }
  }

  // ---------------------------------------------------------------- the extents are tight

  /** v is a coordinate that counts, on the x axis or on the y axis. */
  ghost predicate Contributes(points: FlatData, i: int, m: nat, format: seq<Format>, v: real, x: bool) {
    && m < |format| && At(points, i + m) == Some(v)
    && format[m].autoscale != Some(false) && v != FAKE_INFINITY && v != -FAKE_INFINITY
    && if x then format[m].x else format[m].y
  }

  ghost predicate Occurs(points: FlatData, format: seq<Format>, v: Option<real>, x: bool) {
    v.Some? ==> exists i, m :: Contributes(points, i, m, format, v.value, x)
  }

  /** Every bound is one of the coordinates. */
  ghost predicate FromData(e: Extents, points: FlatData, format: seq<Format>) {
    && Occurs(points, format, e.x.min, true) && Occurs(points, format, e.x.max, true)
    && Occurs(points, format, e.y.min, false) && Occurs(points, format, e.y.max, false)
  }

  lemma CoordinateOccurs(e: Extents, points: FlatData, i: int, m: nat, format: seq<Format>)
    requires FromData(e, points, format) && m < |format|
    ensures FromData(AddCoordinate(e, At(points, i + m), format[m]), points, format)
  {
    var val := At(points, i + m);
    if val.Some? && Counts(val.value, format[m]) {
      assert format[m].x ==> Contributes(points, i, m, format, val.value, true);
      assert format[m].y ==> Contributes(points, i, m, format, val.value, false);
    }
  }

  lemma {:induction false} AddPointOccurs(e: Extents, points: FlatData, i: int, format: seq<Format>, n: nat)
    requires n <= |format| && FromData(e, points, format)
    ensures FromData(AddPoint(e, points, i, format, n), points, format)
  {
    if n > 0 {
      AddPointOccurs(e, points, i, format, n - 1);
      CoordinateOccurs(AddPoint(e, points, i, format, n - 1), points, i, n - 1, format);
    }
  }

  lemma {:induction false} AddPointsOccur(points: FlatData, format: seq<Format>, k: nat)
    ensures FromData(AddPoints(points, format, k), points, format)
  {
    if k > 0 {
      AddPointsOccur(points, format, k - 1);
      AddPointOccurs(AddPoints(points, format, k - 1), points, (k - 1) * |format|, format, |format|);
    }
  }

  lemma OccursIsFinite(points: FlatData, format: seq<Format>, v: Option<real>, x: bool)
    requires Occurs(points, format, v, x)
    ensures v != Some(FAKE_INFINITY) && v != Some(-FAKE_INFINITY)
  {
    if v.Some? {
      var i, m :| Contributes(points, i, m, format, v.value, x);
    }
  }

  // ---------------------------------------------------------------- both passes

  predicate Finite(e: Extent) {
    e.min != Some(-FAKE_INFINITY) && e.max != Some(FAKE_INFINITY)
  }

  lemma SeriesIsFinite(points: FlatData, format: seq<Format>)
    requires format != []
    ensures Finite(SeriesExtents(points, format).x) && Finite(SeriesExtents(points, format).y)
  {
    var s := SeriesExtents(points, format);
    AddPointsOccur(points, format, Rows(points, |format|));
    OccursIsFinite(points, format, s.x.min, true);
    OccursIsFinite(points, format, s.x.max, true);
    OccursIsFinite(points, format, s.y.min, false);
    OccursIsFinite(points, format, s.y.max, false);
  }

  lemma UpdateWidens(e: Extent, s: Extent)
    requires Finite(s)
    ensures Widens(e, UpdateAxis(e, s.min, s.max)) && Widens(s, UpdateAxis(e, s.min, s.max))
  {
  }

  /** After the second pass the axes cover what they covered before, and every coordinate of the series that
      counts: all but the values that stand for infinity and those of entries that are not to be scaled. */
  lemma SecondPassCovers(e: Extents, points: FlatData, format: seq<Format>, k: nat, m: nat)
    requires m < |format| && k < Rows(points, |format|) && At(points, k * |format|).Some?
    ensures CoversCoordinate(SecondPass(e, points, format), At(points, k * |format| + m), format[m])
    ensures BothWiden(e, SecondPass(e, points, format))
  {
    var s := SeriesExtents(points, format);
    AddPointsCover(points, format, Rows(points, |format|), k, m);
    SeriesIsFinite(points, format);
    UpdateWidens(e.x, s.x);
    UpdateWidens(e.y, s.y);
    WidensTransitive(s, s, SecondPass(e, points, format), At(points, k * |format| + m), format[m]);
  }

  lemma SecondPassKeepsBounded(e: Extents, points: FlatData, format: seq<Format>)
    requires format != [] && Bounded(e)
    ensures Bounded(SecondPass(e, points, format))
  {
  }

  /** Nothing else moves the extents: a bound that is new is a coordinate of the series. */
  lemma SecondPassIsTight(e: Extents, points: FlatData, format: seq<Format>)
    requires format != []
    ensures
      var e' := SecondPass(e, points, format);
      && (e'.x.min == e.x.min || Occurs(points, format, e'.x.min, true))
      && (e'.x.max == e.x.max || Occurs(points, format, e'.x.max, true))
      && (e'.y.min == e.y.min || Occurs(points, format, e'.y.min, false))
      && (e'.y.max == e.y.max || Occurs(points, format, e'.y.max, false))
  {
    AddPointsOccur(points, format, Rows(points, |format|));
  }

  /** An automatic range made from extents shows every value they cover. */
  lemma CoveredIsShown(o: AxisRange.Options, e: Extent, v: real)
    requires AxisRange.FractionalMargin(o) && o.min.None? && o.max.None? && Covers(e, v)
    ensures
      var r := AxisRange.RangeOf(o, e.min, e.max);
      r.min <= v <= r.max && r.min < r.max
  {
    AxisRange.AutomaticRangeContainsData(o, e.min.value, e.max.value);
  }
}
