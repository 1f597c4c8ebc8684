/** From the data's extent to an axis with ticks in Flot: setRange, setupTickGeneration with its tick
    generator, and snapRangeToTicks, over exact real arithmetic. */
module AxisRange {
  import opened PlotGeometry

  /** What an axis' options say; a null option is None. */
  datatype Options = Options(min: Option<real>, max: Option<real>, autoscaleMargin: Option<real>,
                             tickDecimals: Option<int>, minTickSize: Option<real>, tickSize: Option<real>)

  datatype Range = Range(min: real, max: real)

  // ---------------------------------------------------------------- the range

  /** `+val`: null counts as zero. */
  function Plus(val: Option<real>): real {
    if val.Some? then val.value else 0.0
  }

  function OrElse(option: Option<real>, data: Option<real>): real {
    if option.Some? then option.value else Plus(data)
  }

  function RangeOf(o: Options, datamin: Option<real>, datamax: Option<real>): Range {
    var min := OrElse(o.min, datamin);
    var max := OrElse(o.max, datamax);
    var delta := max - min;
    if delta == 0.0 then
      var widen := if max == 0.0 then 1.0 else 0.01;
      Range(if o.min.None? then min - widen else min, if o.max.None? || o.min.Some? then max + widen else max)
    else if o.autoscaleMargin.Some? then
      var added := delta * o.autoscaleMargin.value;
      Range(if o.min.None? then LowerBound(min - added, datamin) else min,
            if o.max.None? then UpperBound(max + added, datamax) else max)
    else Range(min, max)
  }

  /** Data that is nowhere negative gets no negative lower bound. */
  function LowerBound(min: real, datamin: Option<real>): real {
    if min < 0.0 && datamin.Some? && datamin.value >= 0.0 then 0.0 else min
  }

  function UpperBound(max: real, datamax: Option<real>): real {
    if max > 0.0 && datamax.Some? && datamax.value <= 0.0 then 0.0 else max
  }

  predicate FractionalMargin(o: Options) {
    o.autoscaleMargin.Some? ==> o.autoscaleMargin.value >= 0.0
  }

  lemma ProductSign(delta: real, margin: real)
    requires margin >= 0.0
    ensures delta >= 0.0 ==> delta * margin >= 0.0
    ensures delta <= 0.0 ==> delta * margin <= 0.0
  {
  }

  /** The range has positive width exactly if the bounds it starts from are not the wrong way round; that
      they are equal does no harm. */
  lemma PositiveWidthExactly(o: Options, datamin: Option<real>, datamax: Option<real>)
    requires FractionalMargin(o)
    ensures
      RangeOf(o, datamin, datamax).min < RangeOf(o, datamin, datamax).max <==>
      OrElse(o.min, datamin) <= OrElse(o.max, datamax)
  {
    if o.autoscaleMargin.Some? {
      ProductSign(OrElse(o.max, datamax) - OrElse(o.min, datamin), o.autoscaleMargin.value);
    }
  }

  /** An automatic range contains the data, and does not cross zero unless the data does or is constant. */
  lemma AutomaticRangeContainsData(o: Options, datamin: real, datamax: real)
    requires FractionalMargin(o) && o.min.None? && o.max.None? && datamin <= datamax
    ensures
      var r := RangeOf(o, Some(datamin), Some(datamax));
      && r.min <= datamin && datamax <= r.max && r.min < r.max
      && (datamin != datamax && datamin >= 0.0 ==> r.min >= 0.0)
      && (datamin != datamax && datamax <= 0.0 ==> r.max <= 0.0)
  {
    if o.autoscaleMargin.Some? {
      ProductSign(datamax - datamin, o.autoscaleMargin.value);
    }
  }

  /** The margin's share of the width. */
  function Margin(width: real, margin: Option<real>): real {
    if margin.Some? then width * margin.value else 0.0
  }

  /** How far an automatic bound moves away from the data if the margin is `added`: not beyond zero, which the data
      has at a distance of `zero` if it lies on one side of it. */
  function Room(added: real, zero: Option<real>): real {
    if zero.Some? && added > zero.value then zero.value else added
  }

  /** How far each automatic bound lies from the data, and that a bound that is set stays: only if both are set to the
      same value is the upper one moved. With no data at all the data counts as zero. */
  lemma BoundsExactly(o: Options, datamin: Option<real>, datamax: Option<real>)
    requires FractionalMargin(o) && OrElse(o.min, datamin) <= OrElse(o.max, datamax)
    ensures
      var (lo, hi) := (OrElse(o.min, datamin), OrElse(o.max, datamax));
      var r := RangeOf(o, datamin, datamax);
      var flat := if hi == 0.0 then 1.0 else 0.01;
      var added := Margin(hi - lo, o.autoscaleMargin);
      var below := if datamin.Some? && datamin.value >= 0.0 then Some(datamin.value) else None;
      var above := if datamax.Some? && datamax.value <= 0.0 then Some(-datamax.value) else None;
      && (o.min.None? ==> r.min == lo - if lo == hi then flat else Room(added, below))
      && (o.max.None? ==> r.max == hi + if lo == hi then flat else Room(added, above))
      && (o.min.Some? ==> r.min == o.min.value)
      && (o.max.Some? ==> r.max == o.max.value + if lo == hi && o.min.Some? then flat else 0.0)
  {
    var lo, hi := OrElse(o.min, datamin), OrElse(o.max, datamax);
    if o.autoscaleMargin.Some? {
      ProductSign(hi - lo, o.autoscaleMargin.value);
    }
    if lo < hi {
      MarginRange(o, datamin, datamax, lo, hi, Margin(hi - lo, o.autoscaleMargin));
    }
  }

  /** The range in terms of the margin added. */
  lemma MarginRange(o: Options, datamin: Option<real>, datamax: Option<real>, lo: real, hi: real, added: real)
    requires lo == OrElse(o.min, datamin) && hi == OrElse(o.max, datamax) && lo < hi
    requires added == Margin(hi - lo, o.autoscaleMargin)
    ensures RangeOf(o, datamin, datamax) ==
      Range(if o.min.None? && o.autoscaleMargin.Some? then LowerBound(lo - added, datamin) else lo,
            if o.max.None? && o.autoscaleMargin.Some? then UpperBound(hi + added, datamax) else hi)
  {
  }

  // ---------------------------------------------------------------- powers of ten

  /** x * 10^e. */
  function Shift(x: real, e: int): real
    decreases if e >= 0 then e else -e
  {
    if e == 0 then x else if e > 0 then 10.0 * Shift(x, e - 1) else Shift(x, e + 1) / 10.0
  }

  lemma NextShift(x: real, e: int)
    ensures Shift(x, e + 1) == 10.0 * Shift(x, e)
  {
  }

  lemma {:induction false} ShiftTwice(x: real, a: int, b: int)
    ensures Shift(Shift(x, a), b) == Shift(x, a + b)
    decreases if b >= 0 then b else -b
  {
    if b > 0 {
      ShiftTwice(x, a, b - 1);
      NextShift(x, a + b - 1);
    } else if b < 0 {
      ShiftTwice(x, a, b + 1);
      NextShift(x, a + b);
    }
  }

  /** Shifting keeps the order of any two multiples. */
  lemma {:induction false} ShiftKeepsOrder(m: real, x: real, n: real, y: real, e: int)
    ensures m * x < n * y ==> m * Shift(x, e) < n * Shift(y, e)
    ensures m * x <= n * y ==> m * Shift(x, e) <= n * Shift(y, e)
    decreases if e >= 0 then e else -e
  {
    if e > 0 {
      ShiftKeepsOrder(m, x, n, y, e - 1);
      OneShiftKeepsOrder(m, x, n, y, e - 1);
    }
    if e < 0 {
      ShiftKeepsOrder(m, x, n, y, e + 1);
      OneShiftKeepsOrder(m, x, n, y, e);
    }
  }

  lemma OneShiftKeepsOrder(m: real, x: real, n: real, y: real, e: int)
    ensures m * Shift(x, e) < n * Shift(y, e) <==> m * Shift(x, e + 1) < n * Shift(y, e + 1)
    ensures m * Shift(x, e) <= n * Shift(y, e) <==> m * Shift(x, e + 1) <= n * Shift(y, e + 1)
  {
    NextShift(x, e);
    NextShift(y, e);
    TenfoldOrder(m, Shift(x, e), Shift(x, e + 1), n, Shift(y, e), Shift(y, e + 1));
  }

  lemma TenfoldOrder(m: real, x: real, x10: real, n: real, y: real, y10: real)
    requires x10 == 10.0 * x && y10 == 10.0 * y
    ensures m * x < n * y <==> m * x10 < n * y10
    ensures m * x <= n * y <==> m * x10 <= n * y10
  {
    assert m * x10 == 10.0 * (m * x);
    assert n * y10 == 10.0 * (n * y);
  }

  predicate IsWhole(x: real) {
    x == x.Floor as real
  }

  lemma {:induction false} WholeShift(x: real, e: nat)
    requires IsWhole(x)
    ensures IsWhole(Shift(x, e))
  {
    if e > 0 {
      WholeShift(x, e - 1);
      assert Shift(x, e) == (10 * Shift(x, e - 1).Floor) as real;
    }
  }

  /** Math.floor(Math.log(d) / Math.LN10): the decade of d. */
  function FloorLog10(d: real): (e: int)
    requires d > 0.0
    decreases d < 1.0, if d >= 1.0 then d.Floor else (1.0 / d).Floor
  {
    if d >= 10.0 then 1 + FloorLog10(d / 10.0)
    else if d >= 1.0 then 0
    else
      assert 1.0 / (d * 10.0) == 1.0 / d / 10.0;
      FloorLog10(d * 10.0) - 1
  }

  /** Without its decade a number lies between 1 and 10. */
  lemma {:induction false} DecadeFits(d: real)
    requires d > 0.0
    ensures 1.0 <= Shift(d, -FloorLog10(d)) < 10.0
    decreases d < 1.0, if d >= 1.0 then d.Floor else (1.0 / d).Floor
  {
    if d >= 10.0 {
      DecadeFits(d / 10.0);
      ShiftTwice(d, -1, -FloorLog10(d / 10.0));
    } else if d < 1.0 {
      assert 1.0 / (d * 10.0) == 1.0 / d / 10.0;
      DecadeFits(d * 10.0);
      ShiftTwice(d, 1, -FloorLog10(d * 10.0));
    }
  }

  /** Only one decade does that. */
  lemma DecadeIsUnique(d: real, e: int)
    requires d > 0.0 && 1.0 <= Shift(d, -e) < 10.0
    ensures e == FloorLog10(d)
  {
    var f := FloorLog10(d);
    DecadeFits(d);
    if e < f {
      ShiftTwice(d, -f, f - e);
      ShiftedBeyond(Shift(d, -f), f - e);
    }
    if f < e {
      ShiftTwice(d, -e, e - f);
      ShiftedBeyond(Shift(d, -e), e - f);
    }
  }

  lemma {:induction false} ShiftedBeyond(x: real, n: nat)
    requires x >= 1.0 && n > 0
    ensures Shift(x, n) >= 10.0
  {
    if n > 1 {
      ShiftedBeyond(x, n - 1);
    }
  }

  // ---------------------------------------------------------------- the tick size

  /** One of the steps 1, 2, 2.5, 5 and 10; 2.5 takes an extra decimal, which may not be available. */
  function Step(norm: real, extraDecimal: bool): real {
    if norm < 1.5 then 1.0
    else if norm < 3.0 then if TakesExtraDecimal(norm, extraDecimal) then 2.5 else 2.0
    else if norm < 7.5 then 5.0
    else 10.0
  }

  predicate TakesExtraDecimal(norm: real, extraDecimal: bool) {
    2.25 < norm < 3.0 && extraDecimal
  }

  /** The decimals that fit the decade of delta, capped at the option. */
  function Decimals(delta: real, maxDec: Option<int>): int
    requires delta > 0.0
  {
    var dec := -FloorLog10(delta);
    if maxDec.Some? && dec > maxDec.value then maxDec.value else dec
  }

  function ExtraDecimal(dec: int, maxDec: Option<int>): bool {
    maxDec.None? || dec + 1 <= maxDec.value
  }

  /** The size before minTickSize and tickSize are considered: dividing by 10^-dec and multiplying with it
      again are shifts. */
  function NiceSize(delta: real, maxDec: Option<int>): real
    requires delta > 0.0
  {
    var dec := Decimals(delta, maxDec);
    Shift(Step(Shift(delta, dec), ExtraDecimal(dec, maxDec)), -dec)
  }

  function TickDecimals(delta: real, maxDec: Option<int>): int
    requires delta > 0.0
  {
    var dec := Decimals(delta, maxDec);
    var decimals :=
      if maxDec.Some? then maxDec.value
      else if TakesExtraDecimal(Shift(delta, dec), ExtraDecimal(dec, maxDec)) then dec + 1
      else dec;
    if decimals > 0 then decimals else 0
  }

  function TickSize(delta: real, o: Options): real
    requires delta > 0.0
  {
    var nice := NiceSize(delta, o.tickDecimals);
    var size := if o.minTickSize.Some? && nice < o.minTickSize.value then o.minTickSize.value else nice;
    if o.tickSize.Some? && o.tickSize.value != 0.0 then o.tickSize.value else size
  }

  lemma StepFits(norm: real, extraDecimal: bool)
    requires norm < 10.0
    ensures 2.0 * norm < 3.0 * Step(norm, extraDecimal)
    ensures norm >= 1.0 ==> 3.0 * Step(norm, extraDecimal) <= 5.0 * norm
  {
  }

  /** The step is the least of 1, 2, 5 and 10 that is more than two thirds of the norm; but between 2.25 and 3 it is
      2.5, if there may be one more decimal. */
  lemma StepIsLeast(norm: real, extraDecimal: bool)
    requires norm < 15.0
    ensures
      var step := Step(norm, extraDecimal);
      if 2.25 < norm < 3.0 && extraDecimal then step == 2.5
      else
        && step in [1.0, 2.0, 5.0, 10.0] && 2.0 * norm < 3.0 * step
        && forall t :: t in [1.0, 2.0, 5.0, 10.0] && t < step ==> 3.0 * t <= 2.0 * norm
  {
  }

  /** A tick size that is set is used; otherwise the nice size, or the smallest one allowed if that is larger. */
  lemma TickSizeOptions(delta: real, o: Options)
    requires delta > 0.0
    ensures
      var size, nice := TickSize(delta, o), NiceSize(delta, o.tickDecimals);
      if o.tickSize.Some? && o.tickSize.value != 0.0 then size == o.tickSize.value
      else
        && size >= nice && (o.minTickSize.Some? ==> size >= o.minTickSize.value)
        && (size == nice || Some(size) == o.minTickSize)
  {
  }

  /** The norm is below 10, and at least 1 unless the decimals are capped. */
  lemma NormRange(delta: real, maxDec: Option<int>)
    requires delta > 0.0
    ensures Shift(delta, Decimals(delta, maxDec)) < 10.0
    ensures maxDec.None? ==> 1.0 <= Shift(delta, Decimals(delta, maxDec))
  {
    DecadeFits(delta);
    ShiftDown(delta, Decimals(delta, maxDec), -FloorLog10(delta));
  }

  lemma {:induction false} ShiftDown(x: real, a: int, b: int)
    requires a <= b && Shift(x, b) < 10.0
    ensures Shift(x, a) < 10.0
    decreases b - a
  {
    if a < b {
      NextShift(x, b - 1);
      ShiftDown(x, a, b - 1);
    }
  }

  /** The size is more than two thirds of the ideal distance; it is at most five thirds of it, unless the
      decimals are capped. */
  lemma NiceSizeFits(delta: real, maxDec: Option<int>)
    requires delta > 0.0
    ensures 2.0 * delta < 3.0 * NiceSize(delta, maxDec)
    ensures maxDec.None? ==> 3.0 * NiceSize(delta, maxDec) <= 5.0 * delta
  {
    var dec := Decimals(delta, maxDec);
    var norm := Shift(delta, dec);
    var step := Step(norm, ExtraDecimal(dec, maxDec));
    NormRange(delta, maxDec);
    StepFits(norm, ExtraDecimal(dec, maxDec));
    ShiftTwice(delta, dec, -dec);
    ShiftKeepsOrder(2.0, norm, 3.0, step, -dec);
    ShiftKeepsOrder(3.0, step, 5.0, norm, -dec);
  }

  /** The decimals shown suffice: scaled by that many tens, the size is a whole number. */
  lemma DecimalsSuffice(delta: real, maxDec: Option<int>)
    requires delta > 0.0
    ensures IsWhole(Shift(NiceSize(delta, maxDec), TickDecimals(delta, maxDec)))
  {
    var dec, shown := Decimals(delta, maxDec), TickDecimals(delta, maxDec);
    var step := Step(Shift(delta, dec), ExtraDecimal(dec, maxDec));
    ShiftTwice(step, -dec, shown);
    WholeStep(step, shown - dec);
  }

  /** The decimals asked for are used, if not negative. Without that option one decimal fewer would not do, unless
      none is shown or the step is 10. */
  lemma DecimalsAreNeeded(delta: real, maxDec: Option<int>)
    requires delta > 0.0
    ensures maxDec.Some? ==> TickDecimals(delta, maxDec) == if maxDec.value > 0 then maxDec.value else 0
    ensures maxDec.None? && TickDecimals(delta, maxDec) > 0 && Shift(delta, -FloorLog10(delta)) < 7.5 ==>
      !IsWhole(Shift(NiceSize(delta, maxDec), TickDecimals(delta, maxDec) - 1))
  {
    var dec, shown := Decimals(delta, maxDec), TickDecimals(delta, maxDec);
    var step := Step(Shift(delta, dec), ExtraDecimal(dec, maxDec));
    if maxDec.None? && shown > 0 && Shift(delta, dec) < 7.5 {
      ShiftTwice(step, -dec, shown - 1);
      assert Shift(step, -1) == step / 10.0;
      NotWhole(step);
    }
  }

  lemma NotWhole(step: real)
    requires step in {1.0, 2.0, 2.5, 5.0}
    ensures !IsWhole(step / 10.0) && (step == 2.5 ==> !IsWhole(step))
  {
  }

  /** Scaling by a power of ten makes a step whole, if an extra ten is there for a step of 2.5. */
  lemma WholeStep(step: real, e: nat)
    requires step in {1.0, 2.0, 2.5, 5.0, 10.0} && (step == 2.5 ==> e > 0)
    ensures IsWhole(Shift(step, e))
  {
    if step == 2.5 {
      ShiftTwice(step, 1, e - 1);
      WholeShift(25.0, e - 1);
    } else {
      WholeShift(step, e);
    }
  }

  // ---------------------------------------------------------------- the ticks

  function FloorInBase(n: real, base: real): real
    requires base != 0.0
  {
    base * (n / base).Floor as real
  }

  function Multiple(m: int, x: real): real {
    m as real * x
  }

  lemma MultiplesAdd(m: int, n: int, x: real)
    ensures Multiple(m, x) + Multiple(n, x) == Multiple(m + n, x)
    ensures Multiple(0, x) == 0.0 && Multiple(1, x) == x
  {
    assert (m + n) as real == m as real + n as real;
  }

  function TickAt(start: real, size: real, k: int): real {
    start + Multiple(k, size)
  }

  lemma NextTick(start: real, size: real, k: int)
    ensures TickAt(start, size, k + 1) == TickAt(start, size, k) + size && TickAt(start, size, 0) == start
  {
    MultiplesAdd(k, 1, size);
  }

  /** floorInBase finds the multiple of the base in reach below n. */
  lemma FloorInBaseIsBelow(n: real, base: real)
    requires base > 0.0
    ensures FloorInBase(n, base) <= n < FloorInBase(n, base) + base
    ensures FloorInBase(n, base) == Multiple((n / base).Floor, base)
  {
    var f := (n / base).Floor;
    Divided(n, base);
    ScaledFloor(n / base, f, base);
    MultiplesAdd(f, 1, base);
    Commute(base, f as real);
    Commute(base, n / base);
  }

  lemma ScaledFloor(q: real, f: int, base: real)
    requires base > 0.0 && f as real <= q < f as real + 1.0
    ensures Multiple(f, base) <= q * base < Multiple(f + 1, base)
  {
    Ordered(f as real, q, base);
    Ordered(q, f as real + 1.0, base);
    assert (f as real + 1.0) * base == Multiple(f + 1, base);
  }

  lemma Commute(a: real, b: real)
    ensures a * b == b * a
  {
  }

  lemma Ordered(x: real, y: real, m: real)
    requires m > 0.0
    ensures x < y <==> x * m < y * m
    ensures x <= y <==> x * m <= y * m
  {
    if x < y {
      assert (y - x) * m > 0.0;
    }
    if y < x {
      assert (x - y) * m > 0.0;
    }
  }

  /** A tick below max has an index below this bound. */
  function LastIndex(start: real, size: real, max: real): int
    requires size > 0.0
  {
    ((max - start) / size).Floor
  }

  lemma IndexIsBounded(start: real, size: real, max: real, k: int)
    requires size > 0.0 && TickAt(start, size, k) < max
    ensures k <= LastIndex(start, size, max)
  {
    var q := (max - start) / size;
    Divided(max - start, size);
    Commute(q, size);
    Ordered(k as real, q, size);
  }

  /** Equally spaced multiples of `size` of which the first is the last one not above min, and the last is
      the first one not below max. */
  ghost predicate TickRow(ticks: seq<real>, min: real, max: real, size: real)
    requires size > 0.0
  {
    && ticks != []
    && (forall k :: 0 <= k < |ticks| ==> ticks[k] == TickAt(FloorInBase(min, size), size, k))
    && (forall k :: 0 <= k < |ticks| - 1 ==> ticks[k] < max)
    && max <= ticks[|ticks| - 1]
  }

  /** The row starts at or below min, but not a whole tick below it. */
  lemma RowStart(ticks: seq<real>, min: real, max: real, size: real)
    requires size > 0.0 && TickRow(ticks, min, max, size)
    ensures ticks[0] <= min < ticks[0] + size
    ensures min < max ==> |ticks| >= 2
  {
    FloorInBaseIsBelow(min, size);
    NextTick(FloorInBase(min, size), size, 0);
  }

  /** Fewer ticks than one and a half times the number asked for, plus three. */
  lemma TickCount(ticks: seq<real>, min: real, max: real, size: real, noTicks: real, delta: real)
    requires size > 0.0 && TickRow(ticks, min, max, size) && noTicks > 0.0
    requires noTicks * delta == max - min && 2.0 * delta < 3.0 * size
    ensures 2.0 * |ticks| as real < 3.0 * noTicks + 6.0
  {
    var n := |ticks|;
    if n >= 2 {
      RowSpan(ticks, min, max, size);
      assert (n - 3) as real * size == Multiple(n - 3, size);
      CountBound((n - 3) as real, size, noTicks, delta);
    }
  }

  /** All but the last tick and the parts of ticks at both ends lie between min and max. */
  lemma RowSpan(ticks: seq<real>, min: real, max: real, size: real)
    requires size > 0.0 && TickRow(ticks, min, max, size) && |ticks| >= 2
    ensures Multiple(|ticks| - 3, size) < max - min
  {
    var n, start := |ticks|, FloorInBase(min, size);
    RowStart(ticks, min, max, size);
    NextTick(start, size, 0);
    assert ticks[n - 2] == TickAt(start, size, n - 2);
    MultiplesAdd(n - 3, 1, size);
  }

  lemma CountBound(k: real, size: real, noTicks: real, delta: real)
    requires size > 0.0 && noTicks > 0.0 && 2.0 * delta < 3.0 * size && k * size < noTicks * delta
    ensures 2.0 * k < 3.0 * noTicks
  {
    Ordered(2.0 * delta, 3.0 * size, noTicks);
    assert 2.0 * k * size < 3.0 * noTicks * size;
    Ordered(2.0 * k, 3.0 * noTicks, size);
  }

  lemma {:induction false} ShiftOfMultiple(m: int, x: real, e: nat)
    ensures Shift(Multiple(m, x), e) == Multiple(m, Shift(x, e))
  {
    if e > 0 {
      ShiftOfMultiple(m, x, e - 1);
      TenfoldMultiple(m, Shift(x, e - 1));
    }
  }

  lemma TenfoldMultiple(m: int, x: real)
    ensures 10.0 * Multiple(m, x) == Multiple(m, 10.0 * x)
  {
  }

  lemma WholeMultiple(m: int, x: real)
    requires IsWhole(x)
    ensures IsWhole(Multiple(m, x))
  {
    assert Multiple(m, x) == (m * x.Floor) as real;
  }

  lemma MultipleShiftsWhole(m: int, x: real, e: nat)
    requires IsWhole(Shift(x, e))
    ensures IsWhole(Shift(Multiple(m, x), e))
  {
    ShiftOfMultiple(m, x, e);
    WholeMultiple(m, Shift(x, e));
  }

  lemma TickIsMultiple(ticks: seq<real>, min: real, max: real, size: real, k: nat) returns (m: int)
    requires size > 0.0 && TickRow(ticks, min, max, size) && k < |ticks|
    ensures ticks[k] == Multiple(m, size)
  {
    var n := (min / size).Floor;
    m := n + k;
    FloorInBaseIsBelow(min, size);
    MultiplesAdd(n, k, size);
  }

  /** Every tick of a nice size can be labelled exactly with the decimals chosen. */
  lemma TickLabelsAreExact(ticks: seq<real>, min: real, max: real, delta: real, maxDec: Option<int>, k: nat)
    requires delta > 0.0 && NiceSize(delta, maxDec) > 0.0
    requires TickRow(ticks, min, max, NiceSize(delta, maxDec)) && k < |ticks|
    ensures IsWhole(Shift(ticks[k], TickDecimals(delta, maxDec)))
  {
    var m := TickIsMultiple(ticks, min, max, NiceSize(delta, maxDec), k);
    DecimalsSuffice(delta, maxDec);
    MultipleShiftsWhole(m, NiceSize(delta, maxDec), TickDecimals(delta, maxDec));
  }

  // ---------------------------------------------------------------- snapping, and the whole way

  function Snapped(o: Options, r: Range, ticks: seq<real>): Range {
    if (o.autoscaleMargin.Some? && o.autoscaleMargin.value != 0.0) && |ticks| > 0 then
      Range(if o.min.None? && ticks[0] < r.min then ticks[0] else r.min,
            if o.max.None? && |ticks| > 1 && ticks[|ticks| - 1] > r.max then ticks[|ticks| - 1] else r.max)
    else r
  }

  /** Snapping moves only bounds that are automatic, and only with a margin: those out to the outermost ticks. */
  lemma SnapsFreeBounds(o: Options, r: Range, ticks: seq<real>)
    requires |ticks| >= 2 && ticks[0] <= r.min && r.max <= ticks[|ticks| - 1]
    ensures
      var final := Snapped(o, r, ticks);
      var snaps := o.autoscaleMargin.Some? && o.autoscaleMargin.value != 0.0;
      && final.min == (if snaps && o.min.None? then ticks[0] else r.min)
      && final.max == (if snaps && o.max.None? then ticks[|ticks| - 1] else r.max)
  {
  }

  predicate Automatic(o: Options) {
    o.min.None? && o.max.None? && (o.tickSize.None? || o.tickSize.value == 0.0) && FractionalMargin(o)
  }

  /** With everything automatic the final range has positive width and contains the data, the ticks cover it,
      its ends are ticks if there is a margin, and there are not too many ticks. */
  lemma AutomaticAxis(o: Options, datamin: real, datamax: real, noTicks: real, ticks: seq<real>)
    requires Automatic(o) && datamin <= datamax && noTicks > 0.0
    requires
      var r := RangeOf(o, Some(datamin), Some(datamax));
      var delta := (r.max - r.min) / noTicks;
      delta > 0.0 && TickSize(delta, o) > 0.0 && TickRow(ticks, r.min, r.max, TickSize(delta, o))
    ensures
      var final := Snapped(o, RangeOf(o, Some(datamin), Some(datamax)), ticks);
      && |ticks| >= 2 && 2.0 * |ticks| as real < 3.0 * noTicks + 6.0
      && final.min < final.max && final.min <= datamin && datamax <= final.max
      && SnapsTo(o, RangeOf(o, Some(datamin), Some(datamax)), ticks, final)
  {
    var r := RangeOf(o, Some(datamin), Some(datamax));
    var delta := (r.max - r.min) / noTicks;
    AutomaticRangeContainsData(o, datamin, datamax);
    DistanceFits(o, r.max - r.min, noTicks, delta);
    CoveringTicks(o, r, TickSize(delta, o), delta, noTicks, ticks);
  }

  /** The distance adds up to the width, and the size is more than two thirds of it. */
  lemma DistanceFits(o: Options, width: real, noTicks: real, delta: real)
    requires noTicks > 0.0 && delta == width / noTicks && delta > 0.0 && (o.tickSize.None? || o.tickSize.value == 0.0)
    ensures noTicks * delta == width && 2.0 * delta < 3.0 * TickSize(delta, o)
  {
    Divided(width, noTicks);
    NiceSizeFits(delta, o.tickDecimals);
  }

  lemma CoveringTicks(o: Options, r: Range, size: real, delta: real, noTicks: real, ticks: seq<real>)
    requires o.min.None? && o.max.None? && r.min < r.max && noTicks > 0.0
    requires size > 0.0 && TickRow(ticks, r.min, r.max, size)
    requires noTicks * delta == r.max - r.min && 2.0 * delta < 3.0 * size
    ensures |ticks| >= 2 && 2.0 * |ticks| as real < 3.0 * noTicks + 6.0
    ensures SnapsTo(o, r, ticks, Snapped(o, r, ticks))
  {
    TickCount(ticks, r.min, r.max, size, noTicks, delta);
    RowStart(ticks, r.min, r.max, size);
    SnappingCovers(o, r, ticks);
  }

  predicate SnapsTo(o: Options, r: Range, ticks: seq<real>, final: Range)
    requires ticks != []
  {
    && final.min <= r.min && r.max <= final.max && ticks[0] <= final.min && final.max <= ticks[|ticks| - 1]
    && (o.autoscaleMargin.Some? && o.autoscaleMargin.value != 0.0 ==>
        final.min == ticks[0] && final.max == ticks[|ticks| - 1])
  }

  lemma SnappingCovers(o: Options, r: Range, ticks: seq<real>)
    requires o.min.None? && o.max.None? && r.min < r.max && |ticks| >= 2
    requires ticks[0] <= r.min && r.max <= ticks[|ticks| - 1]
    ensures SnapsTo(o, r, ticks, Snapped(o, r, ticks))
  {
  }

  lemma Divided(a: real, b: real)
    requires b != 0.0
    ensures b * (a / b) == a
  {
  }

  /** The distance and size that the last lemma asks for are there. */
  lemma AutomaticSizeIsPositive(o: Options, datamin: real, datamax: real, noTicks: real)
    requires Automatic(o) && datamin <= datamax && noTicks > 0.0
    ensures
      var r := RangeOf(o, Some(datamin), Some(datamax));
      var delta := (r.max - r.min) / noTicks;
      delta > 0.0 && TickSize(delta, o) > 0.0
  {
    var r := RangeOf(o, Some(datamin), Some(datamax));
    AutomaticRangeContainsData(o, datamin, datamax);
    Positive(r.max - r.min, noTicks);
    NiceSizeFits((r.max - r.min) / noTicks, o.tickDecimals);
  }

  lemma Positive(a: real, b: real)
    requires a > 0.0 && b > 0.0
    ensures a / b > 0.0
  {
  }

  class Axis {
    const options: Options
    var datamin: Option<real>
    var datamax: Option<real>
    var min: real
    var max: real
    var delta: real
    var tickSize: real
    var tickDecimals: int
    var ticks: seq<real>

    constructor (options: Options, datamin: Option<real>, datamax: Option<real>)
      ensures this.options == options && this.datamin == datamin && this.datamax == datamax
    {
      this.options := options;
      this.datamin := datamin;
      this.datamax := datamax;
      min, max, delta, tickSize, tickDecimals, ticks := 0.0, 0.0, 0.0, 0.0, 0, [];
    }

    method SetRange()
      modifies this`min, this`max
      ensures Range(min, max) == RangeOf(options, datamin, datamax)
    {
      var lo := if options.min.Some? then options.min.value else Plus(datamin);
      var hi := if options.max.Some? then options.max.value else Plus(datamax);
      var d := hi - lo;
      if d == 0.0 {
        var widen := if hi == 0.0 then 1.0 else 0.01;
        if options.min.None? {
          lo := lo - widen;
        }
        if options.max.None? || options.min.Some? {
          hi := hi + widen;
        }
      } else if options.autoscaleMargin.Some? {
        var added := d * options.autoscaleMargin.value;
        if options.min.None? {
          lo := lo - added;
          if lo < 0.0 && datamin.Some? && datamin.value >= 0.0 {
            lo := 0.0;
          }
        }
        if options.max.None? {
          hi := hi + added;
          if hi > 0.0 && datamax.Some? && datamax.value <= 0.0 {
            hi := 0.0;
          }
        }
      }
      min := lo;
      max := hi;
    }

    /** noTicks is the number of ticks asked for, or estimated from the size of the canvas. */
    method SetupTickGeneration(noTicks: real)
      requires noTicks > 0.0 && min < max
      modifies this`delta, this`tickSize, this`tickDecimals
      ensures delta == (max - min) / noTicks && delta > 0.0
      ensures tickSize == TickSize(delta, options) && tickDecimals == TickDecimals(delta, options.tickDecimals)
    {
      Positive(max - min, noTicks);
      delta := (max - min) / noTicks;
      var dec := -FloorLog10(delta);
      var maxDec := options.tickDecimals;
      if maxDec.Some? && dec > maxDec.value {
        dec := maxDec.value;
      }
      var decade := dec;
      var norm := Shift(delta, decade);
      var size;
      if norm < 1.5 {
        size := 1.0;
      } else if norm < 3.0 {
        size := 2.0;
        if norm > 2.25 && (maxDec.None? || dec + 1 <= maxDec.value) {
          size := 2.5;
          dec := dec + 1;
        }
      } else if norm < 7.5 {
        size := 5.0;
      } else {
        size := 10.0;
      }
      size := Shift(size, -decade);
      if options.minTickSize.Some? && size < options.minTickSize.value {
        size := options.minTickSize.value;
      }
      var decimals := if maxDec.Some? then maxDec.value else dec;
      tickDecimals := if decimals > 0 then decimals else 0;
      tickSize := if options.tickSize.Some? && options.tickSize.value != 0.0 then options.tickSize.value else size;
    }

    /** The tick generator: pushes ticks until one is not below max, or repeats the one before. */
    method GenerateTicks()
      requires tickSize > 0.0
      modifies this`ticks
      ensures TickRow(ticks, min, max, tickSize)
    {
      ticks := [];
      var start := FloorInBase(min, tickSize);
      var i := 0;
      var prev: Option<real>, v: Option<real> := None, None;
      var more := true;
      ghost var last := LastIndex(start, tickSize, max);
      while more
        invariant |ticks| == i && (i == 0 ==> more && v == None)
        invariant forall k :: 0 <= k < i ==> ticks[k] == TickAt(start, tickSize, k)
        invariant forall k :: 0 <= k < i - 1 ==> ticks[k] < max
        invariant i > 0 ==> v == Some(ticks[i - 1]) && (more <==> ticks[i - 1] < max)
        invariant more && i > 0 ==> i - 1 <= last
        decreases more, if i == 0 then 1 else 0, last - i
      {
        prev := v;
        var next := TickAt(start, tickSize, i);
        v := Some(next);
        ticks := ticks + [next];
        NextTick(start, tickSize, i - 1);
        if next < max {
          IndexIsBounded(start, tickSize, max, i);
        }
        i := i + 1;
        more := next < max && v != prev;
      }
    }

    method SnapRangeToTicks()
      modifies this`min, this`max
      ensures Range(min, max) == Snapped(options, Range(old(min), old(max)), ticks)
    {
      if options.autoscaleMargin.Some? && options.autoscaleMargin.value != 0.0 && |ticks| > 0 {
        if options.min.None? && ticks[0] < min {
          min := ticks[0];
        }
        if options.max.None? && |ticks| > 1 && ticks[|ticks| - 1] > max {
          max := ticks[|ticks| - 1];
        }
      }
    }

    /** What setupGrid does with an axis whose settings are all automatic. */
    method Setup(noTicks: real)
      requires Automatic(options) && datamin.Some? && datamax.Some? && datamin.value <= datamax.value && noTicks > 0.0
      modifies this`min, this`max, this`delta, this`tickSize, this`tickDecimals, this`ticks
      ensures min < max && min <= datamin.value && datamax.value <= max
      ensures |ticks| >= 2 && 2.0 * |ticks| as real < 3.0 * noTicks + 6.0
      ensures ticks[0] <= min && max <= ticks[|ticks| - 1]
      ensures options.autoscaleMargin.Some? && options.autoscaleMargin.value != 0.0 ==>
                min == ticks[0] && max == ticks[|ticks| - 1]
      ensures tickSize > 0.0 && forall k :: 0 <= k < |ticks| ==> ticks[k] == TickAt(ticks[0], tickSize, k)
    {
      SetRange();
      AutomaticRangeContainsData(options, datamin.value, datamax.value);
      AutomaticSizeIsPositive(options, datamin.value, datamax.value, noTicks);
      SetupTickGeneration(noTicks);
      GenerateTicks();
      AutomaticAxis(options, datamin.value, datamax.value, noTicks, ticks);
      NextTick(FloorInBase(min, tickSize), tickSize, 0);
      SnapRangeToTicks();
    }
  }
}
