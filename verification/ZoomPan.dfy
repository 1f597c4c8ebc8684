/** Zooming and panning in Flot's navigate plug-in, over linear axes of a plot of fixed size. */
module ZoomPan {
  import opened PlotGeometry
  import opened AxisRange

  /** A linear axis as it is drawn: along the width or (upside down) the height of the plot. */
  datatype View = View(vertical: bool, size: real, range: Range)

  predicate Drawable(v: View) {
    v.size > 0.0 && v.range.min != v.range.max
  }

  predicate Upright(v: View) {
    v.size > 0.0 && v.range.min < v.range.max
  }

  // ---------------------------------------------------------------- canvas and data coordinates

  function Abs(x: real): real {
    if x < 0.0 then -x else x
  }

  function Min(a: real, b: real): real {
    if a <= b then a else b
  }

  function Max(a: real, b: real): real {
    if a <= b then b else a
  }

  /** setTransformationHelpers: canvas units per data unit, negative on a y axis. */
  function ScaleOf(v: View): real
    requires Drawable(v)
  {
    var s := v.size / Abs(v.range.max - v.range.min);
    if v.vertical then -s else s
  }

  function OriginOf(v: View): real {
    if v.vertical then Max(v.range.max, v.range.min) else Min(v.range.max, v.range.min)
  }

  function P2C(v: View, p: real): real
    requires Drawable(v)
  {
    (p - OriginOf(v)) * ScaleOf(v)
  }

  lemma ScaleSign(v: View)
    requires Drawable(v)
    ensures if v.vertical then ScaleOf(v) < 0.0 else ScaleOf(v) > 0.0
  {
    Positive(v.size, Abs(v.range.max - v.range.min));
  }

  function C2P(v: View, c: real): real
    requires Drawable(v)
  {
    ScaleSign(v);
    OriginOf(v) + c / ScaleOf(v)
  }

  /** The two mappings are inverse to each other. */
  lemma MappingsAreInverse(v: View, p: real, c: real)
    requires Drawable(v)
    ensures C2P(v, P2C(v, p)) == p && P2C(v, C2P(v, c)) == c
  {
    ScaleSign(v);
    TimesThenDivided(p - OriginOf(v), ScaleOf(v));
    TimesThenDivided(c, ScaleOf(v));
  }

  lemma TimesThenDivided(a: real, b: real)
    requires b != 0.0
    ensures a * b / b == a && a / b * b == a
  {
  }

  /** Data units per canvas unit. */
  function UnitOf(v: View): real
    requires Upright(v)
  {
    (v.range.max - v.range.min) / v.size
  }

  /** The data distance of a pixel from the pixel that shows min on an x axis, and max on a y axis. */
  function Offset(v: View, c: real): real
    requires Upright(v)
  {
    c * UnitOf(v)
  }

  /** On an upright axis the canvas runs from min to max, or from max to min on a y axis. */
  lemma CanvasToData(v: View, c: real)
    requires Upright(v)
    ensures Drawable(v)
    ensures C2P(v, c) == if v.vertical then v.range.max - Offset(v, c) else v.range.min + Offset(v, c)
  {
    ScaleSign(v);
    Reciprocal(c, v.size, v.range.max - v.range.min);
  }

  lemma Reciprocal(c: real, a: real, b: real)
    requires a > 0.0 && b > 0.0
    ensures a / b > 0.0 && c / (a / b) == c * (b / a) && c / -(a / b) == -(c * (b / a))
  {
    var q, r := a / b, b / a;
    assert q * r == 1.0;
    assert c / q * q == c;
    assert c / q == c / q * (q * r) == c * r;
    assert c / -q == -(c / q);
  }

  // ---------------------------------------------------------------- zooming

  /** zoomRange or panRange: `false` forbids the operation, null (or a null entry) leaves it free. */
  datatype Limits = Forbidden | Within(lo: Option<real>, hi: Option<real>)

  function Width(r: Range): real {
    r.max - r.min
  }

  /** The stretch of canvas that will fill the plot: of `size / amount`, with c at the same fraction. */
  function WindowLow(size: real, c: real, amount: real): real
    requires size != 0.0 && amount != 0.0
  {
    c - c / size * size / amount
  }

  function WindowHigh(size: real, c: real, amount: real): real
    requires size != 0.0 && amount != 0.0
  {
    c + (1.0 - c / size) * size / amount
  }

  function Sorted(a: real, b: real): Range {
    if a > b then Range(b, a) else Range(a, b)
  }

  function ZoomWindow(v: View, c: real, amount: real): Range
    requires Drawable(v) && amount != 0.0
  {
    Sorted(C2P(v, WindowLow(v.size, c, amount)), C2P(v, WindowHigh(v.size, c, amount)))
  }

  function Clamped(r: Range, pr: Limits): Range {
    if pr.Forbidden? then r
    else Range(if pr.lo.Some? && r.min < pr.lo.value then pr.lo.value else r.min,
               if pr.hi.Some? && r.max > pr.hi.value then pr.hi.value else r.max)
  }

  predicate Admits(zr: Limits, width: real) {
    zr.Within? && !(zr.lo.Some? && width < zr.lo.value) && !(zr.hi.Some? && width > zr.hi.value)
  }

  /** The range that plot.zoom sets on an axis, or None if it leaves the axis alone. */
  function Zoomed(v: View, zr: Limits, pr: Limits, c: real, amount: real): Option<Range>
    requires Drawable(v) && amount != 0.0
  {
    var r := Clamped(ZoomWindow(v, c, amount), pr);
    if Admits(zr, Width(r)) then Some(r) else None
  }

  lemma WindowSize(size: real, c: real, amount: real)
    requires size > 0.0 && amount != 0.0
    ensures WindowLow(size, c, amount) == c - c * Inverse(amount)
    ensures WindowHigh(size, c, amount) == c + (size - c) * Inverse(amount)
  {
    var f := c / size;
    assert f * size == c;
    assert (1.0 - f) * size == size - c;
    DividedBy(c, amount);
    DividedBy(size - c, amount);
  }

  lemma DividedBy(a: real, b: real)
    requires b != 0.0
    ensures a / b == a * (1.0 / b)
  {
  }

  function Inverse(amount: real): real
    requires amount != 0.0
  {
    1.0 / amount
  }

  /** Data units per canvas unit once zoomed. */
  function ZoomedUnit(v: View, amount: real): real
    requires Upright(v) && amount != 0.0
  {
    Inverse(amount) * UnitOf(v)
  }

  /** The window in data units: it starts `start` and ends `end` beyond the start of the canvas. */
  predicate WindowFrom(v: View, r: Range, c: real, unit: real, start: real, end: real)
    requires Upright(v)
  {
    && end - start == unit * v.size > 0.0 && start + c * unit == Offset(v, c)
    && r == if v.vertical then Range(v.range.max - end, v.range.max - start)
            else Range(v.range.min + start, v.range.min + end)
  }

  lemma WindowInData(v: View, c: real, amount: real) returns (start: real, end: real)
    requires Upright(v) && amount > 0.0
    ensures WindowFrom(v, ZoomWindow(v, c, amount), c, ZoomedUnit(v, amount), start, end)
  {
    var lo, hi, k := WindowEnds(v, c, amount);
    start, end := SortedWindow(v, ZoomWindow(v, c, amount), c, lo, hi, k, ZoomedUnit(v, amount));
  }

  lemma WindowEnds(v: View, c: real, amount: real) returns (lo: real, hi: real, k: real)
    requires Upright(v) && amount > 0.0
    ensures k > 0.0 && lo == c - c * k && hi == c + (v.size - c) * k && ZoomedUnit(v, amount) == k * UnitOf(v)
    ensures ZoomWindow(v, c, amount) == Sorted(C2P(v, lo), C2P(v, hi))
  {
    lo, hi, k := WindowLow(v.size, c, amount), WindowHigh(v.size, c, amount), Inverse(amount);
    WindowSize(v.size, c, amount);
    Positive(1.0, amount);
  }

  lemma SortedWindow(v: View, r: Range, c: real, lo: real, hi: real, k: real, unit: real) returns (start: real, end: real)
    requires Upright(v) && k > 0.0 && lo == c - c * k && hi == c + (v.size - c) * k
    requires r == Sorted(C2P(v, lo), C2P(v, hi)) && unit == k * UnitOf(v)
    ensures WindowFrom(v, r, c, unit, start, end)
  {
    start, end := Offset(v, lo), Offset(v, hi);
    CanvasToData(v, lo);
    CanvasToData(v, hi);
    Positive(Width(v.range), v.size);
    Stretch(c, v.size, k, UnitOf(v));
  }

  /** What zooming by a positive amount means: the width is divided by it, and the data point under pixel c
      stays there. */
  predicate ZoomedBy(v: View, w: View, c: real, amount: real) {
    && Upright(v) && Upright(w) && w.vertical == v.vertical && w.size == v.size
    && Width(w.range) * amount == Width(v.range) && C2P(w, c) == C2P(v, c)
  }

  lemma ZoomDividesWidth(v: View, c: real, amount: real)
    requires Upright(v) && amount > 0.0
    ensures
      var v' := v.(range := ZoomWindow(v, c, amount));
      && Upright(v') && UnitOf(v') == ZoomedUnit(v, amount)
      && Width(v'.range) * amount == Width(v.range)
  {
    var start, end := WindowInData(v, c, amount);
    var v' := v.(range := ZoomWindow(v, c, amount));
    UnitFromWidth(v', ZoomedUnit(v, amount));
    ShrunkWidth(v, v', amount);
  }

  lemma ZoomKeepsCenter(v: View, c: real, amount: real)
    requires Upright(v) && amount > 0.0
    ensures ZoomedBy(v, v.(range := ZoomWindow(v, c, amount)), c, amount)
  {
    var start, end := WindowInData(v, c, amount);
    ZoomDividesWidth(v, c, amount);
    CenterStays(v, v.(range := ZoomWindow(v, c, amount)), c, start, ZoomedUnit(v, amount));
  }

  /** A view whose unit is `unit` and that starts `start` beyond another one agrees with it at pixel c. */
  lemma CenterStays(v: View, v': View, c: real, start: real, unit: real)
    requires Upright(v) && Upright(v') && v'.vertical == v.vertical && UnitOf(v') == unit
    requires start + c * unit == Offset(v, c)
    requires if v.vertical then v'.range.max == v.range.max - start else v'.range.min == v.range.min + start
    ensures Drawable(v) && Drawable(v')
    ensures C2P(v', c) == C2P(v, c)
  {
    OffsetFromUnit(v', c, unit);
    CanvasToData(v, c);
    CanvasToData(v', c);
  }

  lemma UnitFromWidth(v: View, unit: real)
    requires Upright(v) && Width(v.range) == unit * v.size
    ensures UnitOf(v) == unit
  {
    UnitTimesSize(v);
    SameUnit(v.size, UnitOf(v), unit);
  }

  lemma OffsetFromUnit(v: View, c: real, unit: real)
    requires Upright(v) && UnitOf(v) == unit
    ensures Offset(v, c) == c * unit
  {
  }

  lemma ShrunkWidth(v: View, v': View, amount: real)
    requires Upright(v) && Upright(v') && amount > 0.0 && v'.size == v.size
    requires UnitOf(v') == ZoomedUnit(v, amount)
    ensures Width(v'.range) * amount == Width(v.range)
  {
    UnitTimesSize(v);
    UnitTimesSize(v');
    Shrunk(UnitOf(v), v.size, 1.0 / amount, amount);
  }

  lemma UnitTimesSize(v: View)
    requires Upright(v)
    ensures UnitOf(v) * v.size == Width(v.range)
  {
  }

  /** The two ends of the stretched canvas, in data units: their distance, and how they lie about c. */
  lemma Stretch(c: real, size: real, k: real, u: real)
    requires size > 0.0 && k > 0.0 && u > 0.0
    ensures (c + (size - c) * k) * u - (c - c * k) * u == k * u * size > 0.0
    ensures (c - c * k) * u + c * (k * u) == c * u
  {
    assert (c + (size - c) * k) - (c - c * k) == k * size;
    assert k * u > 0.0;
  }

  lemma Shrunk(unit: real, size: real, k: real, amount: real)
    requires amount != 0.0 && k == 1.0 / amount
    ensures k * unit * size * amount == unit * size
  {
    assert k * amount == 1.0;
    assert k * unit * size * amount == k * amount * (unit * size);
  }

  lemma SameUnit(size: real, u: real, u': real)
    requires size > 0.0 && u * size == u' * size
    ensures u == u'
  {
    Ordered(u, u', size);
    Ordered(u', u, size);
  }

  /** A view is determined by its width and by the data point it shows at one pixel. */
  lemma ViewIsDetermined(v: View, w: View, c: real)
    requires Upright(v) && Upright(w) && v.vertical == w.vertical && v.size == w.size
    requires Drawable(v) && Drawable(w)
    requires Width(v.range) == Width(w.range) && C2P(v, c) == C2P(w, c)
    ensures v == w
  {
    UnitTimesSize(v);
    UnitFromWidth(w, UnitOf(v));
    OffsetFromUnit(w, c, UnitOf(v));
    CanvasToData(v, c);
    CanvasToData(w, c);
  }

  /** Zooming by an amount and then by its inverse at the same pixel leads back. */
  lemma ZoomBack(v: View, w: View, x: View, c: real, amount: real)
    requires amount > 0.0 && ZoomedBy(v, w, c, amount) && ZoomedBy(w, x, c, 1.0 / amount)
    ensures x == v
  {
    BackToWidth(Width(v.range), Width(w.range), Width(x.range), amount);
    ViewIsDetermined(x, v, c);
  }

  lemma BackToWidth(w0: real, w1: real, w2: real, k: real)
    requires k > 0.0 && w1 * k == w0 && w2 * (1.0 / k) == w1
    ensures w2 == w0
  {
    assert 1.0 / k * k == 1.0;
    assert w2 * (1.0 / k) * k == w2 * (1.0 / k * k);
  }

  /** Data point p lies in the range, and on its edge only if pixel c is on that edge of the plot. */
  predicate Holds(v: View, r: Range, p: real, c: real) {
    && r.min <= p <= r.max
    && (0.0 < c ==> if v.vertical then p < r.max else r.min < p)
    && (c < v.size ==> if v.vertical then r.min < p else p < r.max)
  }

  /** The data point under a pixel of the plot lies in the range drawn. */
  lemma RangeHoldsPixel(v: View, c: real)
    requires Upright(v) && 0.0 <= c <= v.size
    ensures Holds(v, v.range, C2P(v, c), c)
  {
    CanvasToData(v, c);
    OffsetInRange(v, c);
  }

  /** It lies in the zoomed window as well. */
  lemma WindowHoldsCenter(v: View, c: real, amount: real)
    requires Upright(v) && amount > 0.0 && 0.0 <= c <= v.size
    ensures Holds(v, ZoomWindow(v, c, amount), C2P(v, c), c)
  {
    var start, end := WindowInData(v, c, amount);
    PixelInWindow(v, ZoomWindow(v, c, amount), c, ZoomedUnit(v, amount), start, end);
  }

  lemma PixelInWindow(v: View, r: Range, c: real, unit: real, start: real, end: real)
    requires Upright(v) && 0.0 <= c <= v.size && WindowFrom(v, r, c, unit, start, end)
    ensures Holds(v, r, C2P(v, c), c)
  {
    CanvasToData(v, c);
    AroundCenter(start, end, Offset(v, c), c, v.size, unit);
  }

  lemma OffsetInRange(v: View, c: real)
    requires Upright(v) && 0.0 <= c <= v.size
    ensures 0.0 <= Offset(v, c) <= Width(v.range)
    ensures 0.0 < c ==> 0.0 < Offset(v, c)
    ensures c < v.size ==> Offset(v, c) < Width(v.range)
  {
    UnitTimesSize(v);
    Positive(Width(v.range), v.size);
    Part(c, v.size, UnitOf(v));
  }

  lemma AroundCenter(lo: real, hi: real, center: real, c: real, size: real, unit: real)
    requires 0.0 <= c <= size && 0.0 < size && hi - lo == unit * size > 0.0 && lo + c * unit == center
    ensures lo <= center <= hi
    ensures 0.0 < c ==> lo < center
    ensures c < size ==> center < hi
  {
    assert 0.0 < unit;
    Part(c, size, unit);
  }

  lemma Part(c: real, size: real, unit: real)
    requires 0.0 <= c <= size && 0.0 < size && 0.0 < unit
    ensures 0.0 <= c * unit <= unit * size
    ensures 0.0 < c ==> 0.0 < c * unit
    ensures c < size ==> c * unit < unit * size
  {
    assert (size - c) * unit == unit * size - c * unit;
  }

  predicate Inside(r: Range, pr: Limits) {
    pr.Within? ==> (pr.lo.Some? ==> pr.lo.value <= r.min) && (pr.hi.Some? ==> r.max <= pr.hi.value)
  }

  /** A zoom about a pixel of the plot, from a view inside panRange, sets a proper range inside panRange and
      zoomRange that still holds the data point under the pixel, or leaves the axis alone. */
  lemma ZoomStaysInside(v: View, zr: Limits, pr: Limits, c: real, amount: real)
    requires Upright(v) && amount > 0.0 && 0.0 <= c <= v.size && Inside(v.range, pr)
    ensures
      match Zoomed(v, zr, pr, c, amount)
      case None => true
      case Some(r) => r.min < r.max && r.min <= C2P(v, c) <= r.max && Inside(r, pr) && Admits(zr, Width(r))
    ensures Zoomed(v, zr, pr, c, amount).None? <==> !Admits(zr, Width(Clamped(ZoomWindow(v, c, amount), pr)))
  {
    RangeHoldsPixel(v, c);
    WindowHoldsCenter(v, c, amount);
    ClampedHolds(v, ZoomWindow(v, c, amount), pr, C2P(v, c), c);
  }

  /** The zoomed window in terms of the data point under the pixel: both ends move towards it, or away from it,
      by the same factor. */
  lemma WindowAboutPoint(v: View, c: real, amount: real)
    requires Upright(v) && amount > 0.0
    ensures
      var p := C2P(v, c);
      ZoomWindow(v, c, amount) == Range(p - (p - v.range.min) / amount, p + (v.range.max - p) / amount)
  {
    var start, end := WindowInData(v, c, amount);
    AboutPoint(v, ZoomWindow(v, c, amount), c, amount, start, end);
  }

  lemma AboutPoint(v: View, r: Range, c: real, amount: real, start: real, end: real)
    requires Upright(v) && amount > 0.0 && WindowFrom(v, r, c, ZoomedUnit(v, amount), start, end)
    ensures
      var p := C2P(v, c);
      r == Range(p - Share(p - v.range.min, amount), p + Share(v.range.max - p, amount))
  {
    CanvasToData(v, c);
    Shares(v, c, amount);
    RangeAboutPoint(v, r, C2P(v, c), c, ZoomedUnit(v, amount), start, end, amount);
  }

  function Share(x: real, amount: real): real
    requires amount != 0.0
  {
    x / amount
  }

  lemma SharesAdd(a: real, b: real, amount: real)
    requires amount != 0.0
    ensures Share(a, amount) + Share(b, amount) == Share(a + b, amount)
  {
  }

  lemma ShareOfUnit(c: real, size: real, unit: real, amount: real)
    requires amount != 0.0
    ensures c * ((1.0 / amount) * unit) == Share(c * unit, amount)
    ensures (1.0 / amount) * unit * size == Share(unit * size, amount)
  {
    DividedBy(c * unit, amount);
    DividedBy(unit * size, amount);
    var k := 1.0 / amount;
    assert c * (k * unit) == c * unit * k;
    assert k * unit * size == unit * size * k;
  }

  lemma Shares(v: View, c: real, amount: real)
    requires Upright(v) && amount != 0.0
    ensures c * ZoomedUnit(v, amount) == Share(Offset(v, c), amount)
    ensures ZoomedUnit(v, amount) * v.size == Share(Width(v.range), amount)
  {
    ShareOfUnit(c, v.size, UnitOf(v), amount);
    UnitTimesSize(v);
  }

  lemma RangeAboutPoint(v: View, r: Range, p: real, c: real, unit: real, start: real, end: real, amount: real)
    requires Upright(v) && amount != 0.0 && WindowFrom(v, r, c, unit, start, end)
    requires p == if v.vertical then v.range.max - Offset(v, c) else v.range.min + Offset(v, c)
    requires c * unit == Share(Offset(v, c), amount) && unit * v.size == Share(Width(v.range), amount)
    ensures r == Range(p - Share(p - v.range.min, amount), p + Share(v.range.max - p, amount))
  {
    SharesAdd(p - v.range.min, v.range.max - p, amount);
  }

  /** The two ends of the stretched canvas in data units, for an amount of either sign. */
  lemma StretchedEnds(c: real, size: real, amount: real, unit: real)
    requires amount != 0.0
    ensures (c - c * Inverse(amount)) * unit == c * unit - Share(c * unit, amount)
    ensures (c + (size - c) * Inverse(amount)) * unit == c * unit + Share(unit * size - c * unit, amount)
  {
    var k := Inverse(amount);
    DividedBy(c * unit, amount);
    DividedBy(unit * size - c * unit, amount);
    assert c * k * unit == c * unit * k;
    assert (size - c) * k * unit == (size - c) * unit * k;
  }

  lemma LowEnd(v: View, c: real, amount: real)
    requires Upright(v) && amount != 0.0
    ensures
      var p := C2P(v, c);
      C2P(v, WindowLow(v.size, c, amount)) ==
        if v.vertical then p + Share(v.range.max - p, amount) else p - Share(p - v.range.min, amount)
  {
    WindowSize(v.size, c, amount);
    StretchedEnds(c, v.size, amount, UnitOf(v));
    CanvasToData(v, c);
    CanvasToData(v, WindowLow(v.size, c, amount));
  }

  lemma HighOffset(v: View, c: real, amount: real)
    requires Upright(v) && amount != 0.0
    ensures Offset(v, WindowHigh(v.size, c, amount)) == Offset(v, c) + Share(Width(v.range) - Offset(v, c), amount)
  {
    WindowSize(v.size, c, amount);
    StretchedEnds(c, v.size, amount, UnitOf(v));
    UnitTimesSize(v);
  }

  lemma HighEnd(v: View, c: real, amount: real)
    requires Upright(v) && amount != 0.0
    ensures
      var p := C2P(v, c);
      C2P(v, WindowHigh(v.size, c, amount)) ==
        if v.vertical then p - Share(p - v.range.min, amount) else p + Share(v.range.max - p, amount)
  {
    HighOffset(v, c, amount);
    CanvasToData(v, c);
    CanvasToData(v, WindowHigh(v.size, c, amount));
    assert Width(v.range) - Offset(v, c) == if v.vertical then C2P(v, c) - v.range.min else v.range.max - C2P(v, c);
  }

  /** The ends of the window for any amount; a negative one turns the window round its data point. */
  lemma WindowOfAnyAmount(v: View, c: real, amount: real)
    requires Upright(v) && amount != 0.0
    ensures
      var p := C2P(v, c);
      ZoomWindow(v, c, amount) == Sorted(p - Share(p - v.range.min, amount), p + Share(v.range.max - p, amount))
  {
    LowEnd(v, c, amount);
    HighEnd(v, c, amount);
  }

  /** What plot.zoom does to an axis, with p the data point under the pixel: the ends move to p +- their distance from p
      divided by the amount, but not beyond panRange; the axis is left alone exactly if zooming it is forbidden or the
      range that results is narrower than zoomRange's first number or wider than its second. */
  lemma ZoomSetsExactly(v: View, zr: Limits, pr: Limits, c: real, amount: real)
    requires Upright(v) && amount != 0.0
    ensures
      var p := C2P(v, c);
      var (a, b) := (p - (p - v.range.min) / amount, p + (v.range.max - p) / amount);
      var (low, high) := if amount > 0.0 then (a, b) else (b, a);
      var min := if pr.Within? && pr.lo.Some? && pr.lo.value > low then pr.lo.value else low;
      var max := if pr.Within? && pr.hi.Some? && pr.hi.value < high then pr.hi.value else high;
      Zoomed(v, zr, pr, c, amount) ==
        if zr.Forbidden? || (zr.lo.Some? && max - min < zr.lo.value) || (zr.hi.Some? && max - min > zr.hi.value) then None
        else Some(Range(min, max))
  {
    WindowOfAnyAmount(v, c, amount);
    EndsInOrder(v, C2P(v, c), amount);
  }

  lemma EndsInOrder(v: View, p: real, amount: real)
    requires v.range.min < v.range.max && amount != 0.0
    ensures
      var (a, b) := (p - (p - v.range.min) / amount, p + (v.range.max - p) / amount);
      if amount > 0.0 then a < b else b < a
  {
    SharesAdd(p - v.range.min, v.range.max - p, amount);
    SignOfShare(v.range.max - v.range.min, amount);
  }

  lemma SignOfShare(w: real, amount: real)
    requires w > 0.0 && amount != 0.0
    ensures if amount > 0.0 then Share(w, amount) > 0.0 else Share(w, amount) < 0.0
  {
    assert Share(w, amount) * amount == w;
  }

  /** From any view: the clamps, made one after the other, leave a proper range exactly if neither limit of
      panRange lies on or beyond the end that the zoom moves to, and the limits are the right way round. */
  lemma ZoomIsProperExactly(v: View, zr: Limits, pr: Limits, c: real, amount: real)
    requires Upright(v) && amount > 0.0 && Zoomed(v, zr, pr, c, amount).Some?
    ensures
      var r, p := Zoomed(v, zr, pr, c, amount).value, C2P(v, c);
      r.min < r.max <==> (pr.Within? ==>
        && (pr.lo.Some? ==> pr.lo.value < p + (v.range.max - p) / amount)
        && (pr.hi.Some? ==> p - (p - v.range.min) / amount < pr.hi.value)
        && (pr.lo.Some? && pr.hi.Some? ==> pr.lo.value < pr.hi.value))
  {
    ZoomDividesWidth(v, c, amount);
    WindowAboutPoint(v, c, amount);
    ClampedProper(ZoomWindow(v, c, amount), pr);
  }

  lemma ClampedProper(w: Range, pr: Limits)
    requires w.min < w.max
    ensures Clamped(w, pr).min < Clamped(w, pr).max <==> (pr.Within? ==>
      && (pr.lo.Some? ==> pr.lo.value < w.max) && (pr.hi.Some? ==> w.min < pr.hi.value)
      && (pr.lo.Some? && pr.hi.Some? ==> pr.lo.value < pr.hi.value))
  {
  }

  /** A view of [10, 20] and a panRange of [0, 1]: zooming in by 2 at the middle sets min above max. */
  lemma ZoomCanInvert()
    ensures
      var v, pr := View(false, 100.0, Range(10.0, 20.0)), Within(Some(0.0), Some(1.0));
      && Upright(v)
      && Zoomed(v, Within(None, None), pr, 50.0, 2.0) == Some(Range(12.5, 1.0))
  {
    var v := View(false, 100.0, Range(10.0, 20.0));
    CanvasToData(v, 50.0);
    WindowAboutPoint(v, 50.0, 2.0);
  }

  lemma ClampedHolds(v: View, w: Range, pr: Limits, p: real, c: real)
    requires v.size > 0.0 && Inside(v.range, pr) && Holds(v, v.range, p, c) && Holds(v, w, p, c)
    ensures
      var r := Clamped(w, pr);
      r.min < r.max && r.min <= p <= r.max && Inside(r, pr)
  {
  }

  // ---------------------------------------------------------------- panning

  function Moved(r: Range, d: real): Range {
    Range(r.min + d, r.max + d)
  }

  /** Both ends of the axis, moved by d pixels. */
  function Shifted(v: View, d: real): Range
    requires Drawable(v)
  {
    Range(C2P(v, P2C(v, v.range.min) + d), C2P(v, P2C(v, v.range.max) + d))
  }

  /** "Check whether we hit the wall": the lower one first. */
  function Walled(r: Range, pr: Limits): Range {
    if pr.Forbidden? then r
    else
      var r1 := if pr.lo.Some? && pr.lo.value > r.min then Moved(r, pr.lo.value - r.min) else r;
      if pr.hi.Some? && pr.hi.value < r1.max then Moved(r1, pr.hi.value - r1.max) else r1
  }

  /** The range that plot.pan sets on an axis, or None if it leaves the axis alone. */
  function Panned(v: View, pr: Limits, d: real): Option<Range>
    requires Drawable(v)
  {
    if pr.Forbidden? then None else Some(Walled(Shifted(v, d), pr))
  }

  lemma ShiftedIsMoved(v: View, d: real)
    requires Drawable(v)
    ensures ScaleOf(v) != 0.0 && Shifted(v, d) == Moved(v.range, d / ScaleOf(v))
  {
    ScaleSign(v);
    DividedSum(v.range.min - OriginOf(v), d, ScaleOf(v));
    DividedSum(v.range.max - OriginOf(v), d, ScaleOf(v));
  }

  lemma DividedSum(a: real, d: real, s: real)
    requires s != 0.0
    ensures (a * s + d) / s == a + d / s
  {
    TimesThenDivided(a, s);
    assert (a * s + d) / s == a * s / s + d / s;
  }

  /** Panning keeps the width, and keeps the range inside panRange exactly if it fits. */
  lemma PanKeepsWidth(v: View, pr: Limits, d: real)
    requires Drawable(v) && pr.Within?
    ensures
      var r := Panned(v, pr, d).value;
      && Width(r) == Width(v.range)
      && (Inside(r, pr) <==> (pr.lo.Some? && pr.hi.Some? ==> Width(v.range) <= pr.hi.value - pr.lo.value))
  {
    ShiftedIsMoved(v, d);
  }

  /** A pan that hits no wall moves every data point by d pixels, along the axis as it is drawn; one that
      does ends at a wall. */
  lemma PanMovesPoints(v: View, pr: Limits, d: real, c: real)
    requires Drawable(v) && pr.Within?
    ensures
      var r := Panned(v, pr, d).value;
      && Drawable(v.(range := r))
      && (Inside(Shifted(v, d), pr) ==> C2P(v.(range := r), c) == C2P(v, c + d))
      && (!Inside(Shifted(v, d), pr) ==> (pr.lo.Some? && r.min == pr.lo.value) || (pr.hi.Some? && r.max == pr.hi.value))
  {
    ShiftedIsMoved(v, d);
    PanKeepsWidth(v, pr, d);
    if Inside(Shifted(v, d), pr) {
      assert Panned(v, pr, d).value == Shifted(v, d);
      SumDivided(c, d, ScaleOf(v));
    }
  }

  lemma SumDivided(c: real, d: real, s: real)
    requires s != 0.0
    ensures (c + d) / s == c / s + d / s
  {
  }

  /** The whole plot shows the whole range, and d pixels their share of it. */
  lemma OffsetIsShare(v: View, d: real)
    requires Upright(v)
    ensures Offset(v, d) * v.size == d * (v.range.max - v.range.min)
  {
    UnitTimesSize(v);
    var unit := UnitOf(v);
    assert d * unit * v.size == d * (unit * v.size);
  }

  lemma PanDistance(v: View, d: real)
    requires Upright(v)
    ensures Shifted(v, d) == Moved(v.range, if v.vertical then -Offset(v, d) else Offset(v, d))
  {
    ShiftedIsMoved(v, d);
    Reciprocal(d, v.size, v.range.max - v.range.min);
  }

  /** What plot.pan does to an axis: the range moves by what d pixels show, up on an x axis and down on a y axis,
      but its min not below the lower wall, and then its max not above the upper one; its width stays. */
  lemma PanSetsExactly(v: View, pr: Limits, d: real)
    requires Upright(v)
    ensures
      var width := v.range.max - v.range.min;
      var moved := if v.vertical then v.range.min - Offset(v, d) else v.range.min + Offset(v, d);
      var min := if pr.Within? && pr.lo.Some? && pr.lo.value > moved then pr.lo.value else moved;
      var max := if pr.Within? && pr.hi.Some? && pr.hi.value < min + width then pr.hi.value else min + width;
      Panned(v, pr, d) == if pr.Forbidden? then None else Some(Range(max - width, max))
  {
    PanDistance(v, d);
    if pr.Within? {
      WalledExactly(v.range, if v.vertical then -Offset(v, d) else Offset(v, d), pr);
    }
  }

  lemma WalledExactly(r: Range, d: real, pr: Limits)
    requires pr.Within?
    ensures
      var (width, moved) := (r.max - r.min, r.min + d);
      var min := if pr.lo.Some? && pr.lo.value > moved then pr.lo.value else moved;
      var max := if pr.hi.Some? && pr.hi.value < min + width then pr.hi.value else min + width;
      Walled(Moved(r, d), pr) == Range(max - width, max)
  {
  }

  // ---------------------------------------------------------------- an axis of the plot

  datatype Settings = Settings(options: Options, zoomRange: Limits, panRange: Limits, datamin: Option<real>,
                               datamax: Option<real>)

  datatype AxisState = AxisState(view: View, settings: Settings)

  /** The axis is drawn with the range its options ask for. */
  predicate Drawn(a: AxisState) {
    && a.view.size > 0.0 && a.view.range.min != a.view.range.max
    && (a.settings.options.min.Some? && a.settings.options.max.Some? ==>
        a.view.range == RangeOf(a.settings.options, a.settings.datamin, a.settings.datamax))
  }

  /** plot.setupGrid after options.min and options.max may have been written. */
  function Redrawn(a: AxisState, r: Option<Range>): AxisState {
    if r.None? then a
    else
      var o := a.settings.options.(min := Some(r.value.min), max := Some(r.value.max));
      AxisState(a.view.(range := RangeOf(o, a.settings.datamin, a.settings.datamax)), a.settings.(options := o))
  }

  lemma RedrawnIsDrawn(a: AxisState, r: Option<Range>)
    requires Drawn(a)
    ensures Drawn(Redrawn(a, r))
    ensures r.Some? && r.value.min != r.value.max ==> Redrawn(a, r).view == a.view.(range := r.value)
  {
  }

  function AfterZoom(a: AxisState, c: real, amount: real): (a': AxisState)
    requires Drawn(a) && amount != 0.0
    ensures Drawn(a')
  {
    Redrawn(a, Zoomed(a.view, a.settings.zoomRange, a.settings.panRange, c, amount))
  }

  /** `amount || default`. */
  function Effective(amount: Option<real>, default: real): real {
    if amount.Some? && amount.value != 0.0 then amount.value else default
  }

  /** plot.zoomOut inverts the amount before it calls plot.zoom. */
  function Inverted(amount: Option<real>, default: real): Option<real>
    requires default != 0.0
  {
    Some(1.0 / Effective(amount, default))
  }

  /** A range that lies inside panRange and is neither narrower nor wider than zoomRange allows. */
  predicate Unhindered(a: AxisState, r: Range) {
    var zr := a.settings.zoomRange;
    && Inside(r, a.settings.panRange)
    && zr.Within? && (zr.lo.Some? ==> zr.lo.value <= r.max - r.min) && (zr.hi.Some? ==> r.max - r.min <= zr.hi.value)
  }

  /** Zooming by `amount` and out again by the same amount at the same pixel restores the axis, if neither
      the zoomed range nor the one to return to meets a limit (or if zooming is off for the axis). */
  lemma ZoomOutRestores(a: AxisState, c: real, amount: Option<real>, default: real)
    requires Drawn(a) && Upright(a.view) && default != 0.0 && Effective(amount, default) > 0.0
    requires
      || a.settings.zoomRange.Forbidden?
      || (Unhindered(a, ZoomWindow(a.view, c, Effective(amount, default))) && Unhindered(a, a.view.range))
    ensures
      var zoomed := AfterZoom(a, c, Effective(amount, default));
      && Drawn(zoomed) && Effective(Inverted(amount, default), default) != 0.0
      && AfterZoom(zoomed, c, Effective(Inverted(amount, default), default)).view == a.view
  {
    var k := Effective(amount, default);
    Positive(1.0, k);
    if a.settings.zoomRange.Within? {
      var a1 := AfterZoom(a, c, k);
      FreeZoom(a, c, k);
      ZoomKeepsCenter(a.view, c, k);
      ZoomKeepsCenter(a1.view, c, 1.0 / k);
      ZoomBack(a.view, a1.view, a1.view.(range := ZoomWindow(a1.view, c, 1.0 / k)), c, k);
      FreeZoom(a1, c, 1.0 / k);
    }
  }

  lemma FreeZoom(a: AxisState, c: real, amount: real)
    requires Drawn(a) && Upright(a.view) && amount > 0.0 && Unhindered(a, ZoomWindow(a.view, c, amount))
    ensures
      var zoomed := AfterZoom(a, c, amount);
      && zoomed.view == a.view.(range := ZoomWindow(a.view, c, amount)) && Drawn(zoomed)
      && zoomed.settings.zoomRange == a.settings.zoomRange && zoomed.settings.panRange == a.settings.panRange
  {
    ZoomDividesWidth(a.view, c, amount);
    RedrawnIsDrawn(a, Some(ZoomWindow(a.view, c, amount)));
  }

  /** An axis after plot.zoom: unchanged, or drawn with the range that was set, all else as it was. */
  lemma ZoomedAxis(a: AxisState, c: real, amount: real)
    requires Drawn(a) && amount != 0.0
    ensures
      var r := Zoomed(a.view, a.settings.zoomRange, a.settings.panRange, c, amount);
      var a' := AfterZoom(a, c, amount);
      && (r.None? ==> a' == a)
      && (r.Some? ==>
            && a'.settings == a.settings.(options := a.settings.options.(min := Some(r.value.min), max := Some(r.value.max)))
            && a'.view.vertical == a.view.vertical && a'.view.size == a.view.size
            && (r.value.min != r.value.max ==> a'.view.range == r.value))
  {
    RedrawnIsDrawn(a, Zoomed(a.view, a.settings.zoomRange, a.settings.panRange, c, amount));
  }

  function AfterPan(a: AxisState, d: real): (a': AxisState)
    requires Drawn(a)
    ensures Drawn(a')
  {
    Redrawn(a, Panned(a.view, a.settings.panRange, d))
  }

  // ---------------------------------------------------------------- the plot

  class NavAxis {
    const vertical: bool
    const size: real
    const zoomRange: Limits
    const panRange: Limits
    const datamin: Option<real>
    const datamax: Option<real>
    var options: Options
    var min: real
    var max: real

    ghost function State(): AxisState
      reads this
    {
      AxisState(View(vertical, size, Range(min, max)), Settings(options, zoomRange, panRange, datamin, datamax))
    }

    constructor (a: AxisState)
      requires Drawn(a)
      ensures State() == a
    {
      vertical, size, min, max := a.view.vertical, a.view.size, a.view.range.min, a.view.range.max;
      zoomRange, panRange := a.settings.zoomRange, a.settings.panRange;
      datamin, datamax, options := a.settings.datamin, a.settings.datamax, a.settings.options;
    }

    /** The ends of the zoomed window in data coordinates, the smaller one first. */
    method ZoomedWindow(c: real, amount: real) returns (lo: real, hi: real)
      requires Drawn(State()) && amount != 0.0
      ensures Range(lo, hi) == ZoomWindow(State().view, c, amount)
    {
      var v := View(vertical, size, Range(min, max));
      lo := C2P(v, WindowLow(size, c, amount));
      hi := C2P(v, WindowHigh(size, c, amount));
      if lo > hi {
        lo, hi := hi, lo;
      }
    }

    /** The callback of plot.zoom for one axis. */
    method Zoom(c: real, amount: real)
      requires Drawn(State()) && amount != 0.0
      modifies this
      ensures State() == AfterZoom(old(State()), c, amount)
    {
      if zoomRange.Forbidden? {
        return;
      }
      var lo, hi := ZoomedWindow(c, amount);
      if panRange.Within? {
        if panRange.lo.Some? && lo < panRange.lo.value {
          lo := panRange.lo.value;
        }
        if panRange.hi.Some? && hi > panRange.hi.value {
          hi := panRange.hi.value;
        }
      }
      var range := hi - lo;
      if (zoomRange.lo.Some? && range < zoomRange.lo.value) || (zoomRange.hi.Some? && range > zoomRange.hi.value) {
        return;
      }
      options := options.(min := Some(lo), max := Some(hi));
      Redraw();
    }

    /** The callback of plot.pan for one axis. */
    method Pan(delta: real)
      requires Drawn(State())
      modifies this
      ensures State() == AfterPan(old(State()), delta)
    {
      var v := View(vertical, size, Range(min, max));
      var lo := C2P(v, P2C(v, min) + delta);
      var hi := C2P(v, P2C(v, max) + delta);
      if panRange.Forbidden? {
        return;
      }
      if panRange.lo.Some? && panRange.lo.value > lo {
        var d := panRange.lo.value - lo;
        lo, hi := lo + d, hi + d;
      }
      if panRange.hi.Some? && panRange.hi.value < hi {
        var d := panRange.hi.value - hi;
        lo, hi := lo + d, hi + d;
      }
      options := options.(min := Some(lo), max := Some(hi));
      Redraw();
    }

    /** setupGrid for an axis whose bounds are both set. */
    method Redraw()
      requires options.min.Some? && options.max.Some?
      modifies this`min, this`max
      ensures Range(min, max) == RangeOf(options, datamin, datamax)
    {
      var r := RangeOf(options, datamin, datamax);
      min, max := r.min, r.max;
    }
  }

  class Plot {
    const axes: seq<NavAxis>
    const width: real
    const height: real
    const amount: real

    /** Every x axis is as long as the plot is wide, and every y axis as long as it is high. */
    ghost predicate Valid()
      reads axes
    {
      && (forall i, k :: 0 <= i < k < |axes| ==> axes[i] != axes[k])
      && amount != 0.0 && forall k :: 0 <= k < |axes| ==>
        Drawn(axes[k].State()) && axes[k].size == if axes[k].vertical then height else width
    }

    constructor (axes: seq<NavAxis>, width: real, height: real, amount: real)
      ensures this.axes == axes && this.width == width && this.height == height && this.amount == amount
    {
      this.axes, this.width, this.height, this.amount := axes, width, height, amount;
    }

    function CenterOf(center: Option<Point>, vertical: bool): real {
      var c := if center.Some? then center.value else Point(width / 2.0, height / 2.0);
      if vertical then c.y else c.x
    }

    /** Without a center the plot is zoomed about the middle of every axis. */
    lemma DefaultCenterIsMiddle(k: nat)
      requires Valid() && k < |axes|
      ensures CenterOf(None, axes[k].vertical) == axes[k].size / 2.0
    {
    }

    /** Every axis is zoomed about its coordinate of the center, or about its own middle if there is none, by the
        amount given, or by the default if there is none or it is zero. */
    method Zoom(center: Option<Point>, amount: Option<real>)
      requires Valid()
      modifies axes
      ensures Valid()
      ensures forall k :: 0 <= k < |axes| ==>
                axes[k].State() == AfterZoom(old(axes[k].State()),
                  if center.None? then axes[k].size / 2.0 else if axes[k].vertical then center.value.y else center.value.x,
                  if amount.None? || amount.value == 0.0 then this.amount else amount.value)
    {
      var factor := Effective(amount, this.amount);
      for k := 0 to |axes|
        invariant forall i :: 0 <= i < k ==>
                    axes[i].State() == AfterZoom(old(axes[i].State()), CenterOf(center, axes[i].vertical), factor)
        invariant forall i :: k <= i < |axes| ==> axes[i].State() == old(axes[i].State())
      {
        axes[k].Zoom(CenterOf(center, axes[k].vertical), factor);
      }
    }

    /** The same by the inverse of that amount. */
    method ZoomOut(center: Option<Point>, amount: Option<real>)
      requires Valid()
      modifies axes
      ensures Valid()
      ensures forall k :: 0 <= k < |axes| ==>
                axes[k].State() == AfterZoom(old(axes[k].State()),
                  if center.None? then axes[k].size / 2.0 else if axes[k].vertical then center.value.y else center.value.x,
                  1.0 / if amount.None? || amount.value == 0.0 then this.amount else amount.value)
    {
      var args := Effective(amount, this.amount);
      Zoom(center, Some(1.0 / args));
    }

    method Pan(left: Option<real>, top: Option<real>)
      requires Valid()
      modifies axes
      ensures Valid()
      ensures forall k :: 0 <= k < |axes| ==>
                axes[k].State() == AfterPan(old(axes[k].State()), if axes[k].vertical then Plus(top) else Plus(left))
    {
      for k := 0 to |axes|
        invariant forall i :: 0 <= i < k ==>
                    axes[i].State() == AfterPan(old(axes[i].State()), if axes[i].vertical then Plus(top) else Plus(left))
        invariant forall i :: k <= i < |axes| ==> axes[i].State() == old(axes[i].State())
      {
        axes[k].Pan(if axes[k].vertical then Plus(top) else Plus(left));
      }
    }
  }
}
