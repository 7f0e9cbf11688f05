/** Axis ticks over exact reals: a round step, and the multiples of it that span the data. */
module AxisTicks {
  import opened Reals

  function Pow10(e: int): (p: real)
    ensures p > 0.0
    decreases if e < 0 then -e else e
  {
    if e == 0 then 1.0 else if e > 0 then 10.0 * Pow10(e - 1) else Pow10(e + 1) / 10.0
  }

  lemma Pow10Next(e: int)
    ensures Pow10(e + 1) == 10.0 * Pow10(e)
  {
  }

  /** The decimal exponent: the floor of the logarithm to base ten. */
  function Exponent(x: real): (e: int)
    requires x > 0.0
    ensures Pow10(e) <= x < Pow10(e + 1)
    decreases x < 1.0, if x >= 1.0 then x.Floor else (1.0 / x).Floor
  {
    if x >= 10.0 then
      assert x / 10.0 >= 1.0 && (x / 10.0).Floor < x.Floor;
      var e := Exponent(x / 10.0);
      Pow10Next(e);
      Pow10Next(e + 1);
      e + 1
    else if x < 1.0 then
      Shrinks(x);
      var e := Exponent(x * 10.0);
      Pow10Next(e - 1);
      Pow10Next(e);
      e - 1
    else
      assert Pow10(1) == 10.0;
      0
  }

  lemma Shrinks(x: real)
    requires 0.0 < x < 1.0
    ensures x * 10.0 < 1.0 ==> (1.0 / (x * 10.0)).Floor < (1.0 / x).Floor
  {
    var y := 1.0 / x;
    assert y * x == 1.0;
    assert 1.0 / (x * 10.0) == y / 10.0;
    if x * 10.0 < 1.0 {
      assert y > 10.0;
    }
  }

  /** Rounds a range to one, two, five or ten times a power of ten: upward, or to the nearest. */
  function NiceNum(range: real, round: bool): (r: real)
    requires range >= 0.0
    ensures r > 0.0
  {
    var x := if range == 0.0 then 1.0 else range;
    var scale := Pow10(Exponent(x));
    var f := x / scale;
    NiceFactor(f, round) * scale
  }

  lemma Leading(x: real)
    requires x > 0.0
    ensures var scale := Pow10(Exponent(x)); 1.0 <= x / scale < 10.0 && Times(x / scale, scale) == x
  {
    var scale := Pow10(Exponent(x));
    Pow10Next(Exponent(x));
    hide Pow10, Exponent, Times;
    var f := x / scale;
    TimesQuotient(x, scale);
    TimesOne(scale);
    TimesLinear(10.0, 10.0, 1.0, 0.0, 0.0, scale);
    TimesOrders(1.0, f, scale);
    TimesOrders(10.0, f, scale);
  }

  lemma TimesOne(c: real)
    ensures Times(1.0, c) == c
  {
  }

  /** The leading factor of a rounded number. */
  function NiceFactor(f: real, round: bool): real {
    if round then (if f < 1.5 then 1.0 else if f < 3.0 then 2.0 else if f < 7.0 then 5.0 else 10.0)
    else (if f <= 1.0 then 1.0 else if f <= 2.0 then 2.0 else if f <= 5.0 then 5.0 else 10.0)
  }

  lemma NiceNumScales(x: real, round: bool)
    requires x > 0.0
    ensures var scale := Pow10(Exponent(x)); NiceNum(x, round) == Times(NiceFactor(x / scale, round), scale)
  {
  }

  /** Rounding up never undershoots, and overshoots by less than two and a half times. */
  lemma RoundedUp(x: real)
    requires x > 0.0
    ensures x <= NiceNum(x, false) < 2.5 * x
  {
    hide Pow10, Exponent, Times, NiceNum;
    Leading(x);
    NiceNumScales(x, false);
    var scale := Pow10(Exponent(x));
    var f := x / scale;
    var nf := NiceFactor(f, false);
    TimesOrders(f, nf, scale);
    var bound := 2.5 * f;
    TimesLinear(bound, 2.5, f, 0.0, f, scale);
    TimesOrders(bound, nf, scale);
  }

  /** Rounding to the nearest stays between two thirds and five thirds. */
  lemma RoundedNear(x: real)
    requires x > 0.0
    ensures 2.0 * x < 3.0 * NiceNum(x, true) <= 5.0 * x
  {
    hide Pow10, Exponent, Times, NiceNum;
    Leading(x);
    NiceNumScales(x, true);
    var scale := Pow10(Exponent(x));
    var f := x / scale;
    var nf := NiceFactor(f, true);
    var lower, thrice, upper := 2.0 * f, 3.0 * nf, 5.0 * f;
    TimesLinear(lower, 2.0, f, 0.0, f, scale);
    TimesLinear(thrice, 3.0, nf, 0.0, f, scale);
    TimesLinear(upper, 5.0, f, 0.0, f, scale);
    TimesOrders(thrice, lower, scale);
    TimesOrders(thrice, upper, scale);
  }

  // Which numbers come out, said without the leading factor.

  /** One, two or five times a power of ten. */
  ghost predicate IsNice(x: real) {
    exists e: int :: x == Pow10(e) || x == 2.0 * Pow10(e) || x == 5.0 * Pow10(e)
  }

  lemma {:induction false} Pow10Order(d: int, e: int)
    requires d <= e
    ensures Pow10(d) <= Pow10(e)
    decreases e - d
  {
    if d < e {
      Pow10Order(d, e - 1);
      Pow10Next(e - 1);
    }
  }

  lemma Pow10Orders(d: int, e: int)
    ensures d < e <==> Pow10(d) < Pow10(e)
    ensures d < e ==> 10.0 * Pow10(d) <= Pow10(e)
  {
    hide Pow10;
    Pow10Next(d);
    if d < e { Pow10Order(d + 1, e); } else { Pow10Order(e, d); }
  }

  lemma ExponentIs(x: real, e: int)
    requires Pow10(e) <= x < 10.0 * Pow10(e)
    ensures Exponent(x) == e
  {
    hide Pow10, Exponent;
    Pow10Next(e);
    Pow10Next(Exponent(x));
    Pow10Orders(e, Exponent(x) + 1);
    Pow10Orders(Exponent(x), e + 1);
  }

  lemma Multiples(c: real)
    ensures Times(1.0, c) == c && Times(1.5, c) == 1.5 * c && Times(2.0, c) == 2.0 * c && Times(3.0, c) == 3.0 * c
    ensures Times(5.0, c) == 5.0 * c && Times(7.0, c) == 7.0 * c && Times(10.0, c) == 10.0 * c
  {
  }

  /** Both roundings by comparison with multiples of the power of ten below. */
  lemma ByComparison(x: real)
    requires x > 0.0
    ensures var p := Pow10(Exponent(x));
      && p <= x < 10.0 * p
      && NiceNum(x, true) == (if x < 1.5 * p then p else if x < 3.0 * p then 2.0 * p else if x < 7.0 * p then 5.0 * p else 10.0 * p)
      && NiceNum(x, false) == (if x <= p then p else if x <= 2.0 * p then 2.0 * p else if x <= 5.0 * p then 5.0 * p else 10.0 * p)
  {
    hide Pow10, Exponent, Times, NiceNum;
    Leading(x);
    NiceNumScales(x, true);
    NiceNumScales(x, false);
    Pow10Next(Exponent(x));
    var p := Pow10(Exponent(x));
    var f := x / p;
    Multiples(p);
    TimesOrders(1.5, f, p);
    TimesOrders(3.0, f, p);
    TimesOrders(7.0, f, p);
    TimesOrders(f, 1.0, p);
    TimesOrders(f, 2.0, p);
    TimesOrders(f, 5.0, p);
  }

  /** Whatever is rounded, and either way, the result is one, two or five times a power of ten. */
  lemma RoundedIsNice(x: real, round: bool)
    requires x >= 0.0
    ensures IsNice(NiceNum(x, round))
  {
    var y := if x == 0.0 then 1.0 else x;
    ByComparison(y);
    var e := Exponent(y);
    Pow10Next(e);
    assert NiceNum(x, round) == NiceNum(y, round);
    hide NiceNum, Exponent, Pow10;
    assert Pow10(e + 1) == 10.0 * Pow10(e);
  }

  /** Rounding up gives the least such number that is not below what is rounded. */
  lemma RoundedUpIsLeast(x: real, n: real)
    requires x > 0.0 && IsNice(n) && x <= n
    ensures NiceNum(x, false) <= n
  {
    hide NiceNum, Exponent, Pow10;
    var d :| n == Pow10(d) || n == 2.0 * Pow10(d) || n == 5.0 * Pow10(d);
    ByComparison(x);
    Pow10Orders(Exponent(x), d);
    Pow10Orders(d, Exponent(x));
  }

  /** Such a number is rounded to itself, either way. */
  lemma NiceIsKept(n: real, round: bool)
    requires IsNice(n)
    ensures n > 0.0 && NiceNum(n, round) == n
  {
    hide NiceNum, Exponent, Pow10;
    var d :| n == Pow10(d) || n == 2.0 * Pow10(d) || n == 5.0 * Pow10(d);
    ExponentIs(n, d);
    ByComparison(n);
  }

  /** Rounding, either way, keeps the order. */
  lemma RoundingIsMonotone(x: real, y: real, round: bool)
    requires 0.0 < x <= y
    ensures NiceNum(x, round) <= NiceNum(y, round)
  {
    hide NiceNum, Exponent, Pow10;
    ByComparison(x);
    ByComparison(y);
    Pow10Orders(Exponent(x), Exponent(y));
    Pow10Orders(Exponent(y), Exponent(x));
  }

  /**
   Rounding to the nearest changes over at 1.5, 3 and 7 times a power of ten; the spans cover every
   positive number, so this says what each is rounded to.
   */
  lemma RoundedNearExactly(x: real, e: int)
    requires 0.7 * Pow10(e) <= x < 7.0 * Pow10(e)
    ensures NiceNum(x, true)
         == if x < 1.5 * Pow10(e) then Pow10(e) else if x < 3.0 * Pow10(e) then 2.0 * Pow10(e) else 5.0 * Pow10(e)
  {
    hide NiceNum, Exponent, Pow10;
    Pow10Next(e - 1);
    if x >= Pow10(e) { ExponentIs(x, e); } else { ExponentIs(x, e - 1); }
    ByComparison(x);
  }

  /** A number, or the result of arithmetic that has none. */
  datatype Float = NaN | Number(value: real)

  /**
   `niceNum` on any argument: zero counts as one, and so does NaN, since both are false; a negative
   range has no logarithm.
   */
  function NiceFloat(range: Float, round: bool): Float {
    if range.NaN? then Number(NiceNum(0.0, round))
    else if range.value < 0.0 then NaN
    else Number(NiceNum(range.value, round))
  }

  function Ceil(x: real): int { -((-x).Floor) }

  function Abs(x: real): real { if x < 0.0 then -x else x }

  /** An empty range is widened by one each way. */
  function Low(min: real, max: real): real { if min == max then min - 1.0 else min }
  function High(min: real, max: real): real { if min == max then max + 1.0 else max }

  /** How many intervals the caller asks for; never fewer than one. */
  function Intervals(count: int): nat { if count - 1 > 1 then count - 1 else 1 }

  /** The step; when the minimum exceeds the maximum the range is NaN, and NaN rounds to one. */
  function TickStep(min: real, max: real, count: int): (step: real)
    ensures step > 0.0
  {
    StepFor(High(min, max) - Low(min, max), count)
  }

  function StepFor(width: real, count: int): (step: real)
    ensures step > 0.0
  {
    if width < 0.0 then NiceNum(0.0, true)
    else NiceNum(NiceNum(width, false) / Intervals(count) as real, true)
  }

  /** With the minimum above the maximum the step is one, whatever the data. */
  lemma InvertedStepIsOne(min: real, max: real, count: int)
    requires min > max
    ensures TickStep(min, max, count) == 1.0
  {
    assert Pow10(0) == 1.0 && Pow10(1) == 10.0;
    assert Exponent(1.0) == 0;
    assert NiceFactor(1.0, true) == 1.0;
  }

  function FirstTick(lo: real, step: real): int
    requires step > 0.0
  {
    (lo / step).Floor
  }

  function LastTick(hi: real, step: real): int
    requires step > 0.0
  {
    Ceil(hi / step)
  }

  /** Tick number `i` counted from zero on the axis. */
  function Tick(step: real, i: int): real { Times(i as real, step) }

  method NiceTicks(min: real, max: real, count: int) returns (ticks: seq<real>)
    ensures var step := TickStep(min, max, count);
      var (first, last) := (FirstTick(Low(min, max), step), LastTick(High(min, max), step));
      && |ticks| == (if first <= last then last - first + 1 else 0)
      && forall i | 0 <= i < |ticks| :: ticks[i] == Tick(step, first + i)
  {
    hide Pow10, Exponent, NiceNum, NiceFloat, ShareOf, StepOf, StepFor, Times, Tick, FirstTick, LastTick, Snapped;
    var lo, hi := min, max;
    if lo == hi { lo, hi := lo - 1.0, hi + 1.0; }
    var share := ShareOf(NiceFloat(Number(hi - lo), false), count);
    StepIsRounded(lo, hi, count);
    var step := StepOf(share);
    var gmin := FirstTick(lo, step) as real * step;
    var gmax := LastTick(hi, step) as real * step;
    ghost var first, last := FirstTick(lo, step), LastTick(hi, step);
    TickIsProduct(step, first);
    TickIsProduct(step, last);
    ticks := [];
    var v := gmin;
    while v <= gmax + step * 0.5
      invariant v == Tick(step, first + |ticks|) && (ticks == [] || first + |ticks| <= last + 1)
      invariant forall i | 0 <= i < |ticks| :: ticks[i] == Tick(step, first + i)
      decreases last + 1 - first - |ticks|
    {
      ghost var i := first + |ticks|;
      TickOrder(step, i, last);
      assert i <= last;
      TinyTickIsZero(step, i);
      TickNext(step, i);
      ticks := ticks + [Snapped(v, step)];
      v := v + step;
      assert first + |ticks| == i + 1;
    }
    TickOrder(step, first + |ticks|, last);
  }

  function ShareOf(range: Float, count: int): Float {
    if range.NaN? then NaN else Number(range.value / Intervals(count) as real)
  }

  lemma StepIsRounded(lo: real, hi: real, count: int)
    ensures var share := ShareOf(NiceFloat(Number(hi - lo), false), count);
            (share.NaN? || share.value >= 0.0) && StepOf(share) == StepFor(hi - lo, count)
  {
    hide NiceNum;
  }

  /** The rounding of a share of the range that is NaN or not negative always is a number. */
  function StepOf(share: Float): (step: real)
    requires share.NaN? || share.value >= 0.0
    ensures step > 0.0
  {
    NiceFloat(share, true).value
  }

  /** A value that is tiny next to the step counts as zero. */
  function Snapped(v: real, step: real): real {
    if Abs(v) < step * 0.000000001 then 0.0 else v
  }

  lemma TickIsProduct(step: real, i: int)
    ensures Tick(step, i) == i as real * step
  {
  }

  lemma TickNext(step: real, i: int)
    ensures Tick(step, i + 1) == Tick(step, i) + step
  {
    hide Times;
    TimesOne(step);
    TimesLinear((i + 1) as real, 1.0, i as real, 1.0, 1.0, step);
  }

  /** The half step of slack in the loop's guard lets in the last tick and nothing beyond. */
  lemma TickOrder(step: real, i: int, last: int)
    requires step > 0.0
    ensures Tick(step, i) <= Tick(step, last) + step * 0.5 <==> i <= last
  {
    hide Times;
    TimesOne(step);
    var limit := last as real + 0.5;
    TimesLinear(limit, 1.0, last as real, 0.5, 1.0, step);
    TimesOrders(i as real, limit, step);
  }

  /** In exact arithmetic only the zero tick is snapped to zero. */
  lemma TinyTickIsZero(step: real, i: int)
    requires step > 0.0
    ensures Snapped(Tick(step, i), step) == Tick(step, i)
  {
    hide Times;
    TimesOne(step);
    TimesLinear(0.0, 0.0, 0.0, 0.0, 0.0, step);
    TimesLinear(-1.0, -1.0, 1.0, 0.0, 0.0, step);
    TimesOrders(1.0, i as real, step);
    TimesOrders(i as real, -1.0, step);
  }

  /** The outermost ticks enclose the data, each by less than a step. */
  lemma OutermostTicks(lo: real, hi: real, step: real)
    requires step > 0.0 && lo < hi
    ensures var (first, last) := (FirstTick(lo, step), LastTick(hi, step));
      && Tick(step, first) <= lo < Tick(step, first + 1)
      && Tick(step, last - 1) < hi <= Tick(step, last)
      && first < last
  {
    hide Times;
    var x, y := lo / step, hi / step;
    var first, last := x.Floor, Ceil(y);
    TimesQuotient(lo, step);
    TimesQuotient(hi, step);
    TimesOrders(first as real, x, step);
    TimesOrders((first + 1) as real, x, step);
    TimesOrders(y, (last - 1) as real, step);
    TimesOrders(y, last as real, step);
    TimesOrders(last as real, first as real, step);
  }

  /**
   The ticks are consecutive multiples of a nice step, from at or below the data to at or above it, each
   end by less than a step, and their number is close to what was asked for.
   */
  lemma TicksSpanTheData(min: real, max: real, count: int)
    requires min <= max
    ensures var step := TickStep(min, max, count);
      var (lo, hi) := if min == max then (min - 1.0, max + 1.0) else (min, max);
      var wanted := (if count > 2 then count - 1 else 1) as real;
      var (first, last) := (FirstTick(lo, step), LastTick(hi, step));
      && IsNice(step)
      && Tick(step, first) <= lo < Tick(step, first + 1)
      && Tick(step, last - 1) < hi <= Tick(step, last)
      && 6.0 * wanted / 25.0 + 1.0 < (last - first + 1) as real < 1.5 * wanted + 3.0
  {
    hide NiceNum, IsNice;
    var lo, hi, wanted := Low(min, max), High(min, max), Intervals(count) as real;
    var range := NiceNum(hi - lo, false);
    var step := TickStep(min, max, count);
    var first, last := FirstTick(lo, step), LastTick(hi, step);
    RoundedUp(hi - lo);
    RoundedNear(range / wanted);
    RoundedIsNice(range / wanted, true);
    Quotients(range, wanted);
    OutermostTicks(lo, hi, step);
    // range is about `wanted` steps
    hide Times;
    var each := range / wanted;
    TimesQuotient(range, wanted);
    var lower, thrice, upper := 2.0 * each, 3.0 * step, 5.0 * each;
    TimesLinear(lower, 2.0, each, 0.0, each, wanted);
    TimesLinear(thrice, 3.0, step, 0.0, each, wanted);
    TimesLinear(upper, 5.0, each, 0.0, each, wanted);
    TimesOrders(thrice, lower, wanted);
    TimesOrders(thrice, upper, wanted);
    TimesCommutes(step, wanted);
    Counted(step, first, last, wanted, hi - lo, range);
  }

  /**
   The step is determined: round the width of the data up to the least nice number, divide by the
   intervals asked for, and take the nice number whose span that falls into.
   */
  lemma StepExactly(min: real, max: real, count: int, up: real, e: int)
    requires min <= max
    requires var width := if min == max then 2.0 else max - min;
      IsNice(up) && width <= up && forall n | IsNice(n) && width <= n :: up <= n
    requires 0.7 * Pow10(e) <= up / (if count > 2 then count - 1 else 1) as real < 7.0 * Pow10(e)
    ensures var (share, p) := (up / (if count > 2 then count - 1 else 1) as real, Pow10(e));
      TickStep(min, max, count) == if share < 1.5 * p then p else if share < 3.0 * p then 2.0 * p else 5.0 * p
  {
    hide NiceNum, Pow10, IsNice;
    var width := High(min, max) - Low(min, max);
    RoundedIsNice(width, false);
    RoundedUp(width);
    RoundedUpIsLeast(width, up);
    assert NiceNum(width, false) == up;
    RoundedNearExactly(up / Intervals(count) as real, e);
  }

  lemma TimesCommutes(x: real, y: real)
    ensures Times(x, y) == Times(y, x)
  {
  }

  lemma Counted(step: real, first: int, last: int, wanted: real, width: real, range: real)
    requires step > 0.0 && width <= range < 2.5 * width
    requires 2.0 * range < 3.0 * Times(wanted, step) <= 5.0 * range
    requires Tick(step, last) - Tick(step, first) >= width > Tick(step, last - 1) - Tick(step, first + 1)
    ensures 6.0 * wanted / 25.0 + 1.0 < (last - first + 1) as real < 1.5 * wanted + 3.0
  {
    hide Times;
    var outer, inner := (last - first) as real, (last - first - 2) as real;
    TimesLinear(outer, 1.0, last as real, -1.0, first as real, step);
    TimesLinear(inner, 1.0, (last - 1) as real, -1.0, (first + 1) as real, step);
    var lower, upper := 0.24 * wanted, 1.5 * wanted;
    TimesLinear(lower, 0.24, wanted, 0.0, wanted, step);
    TimesLinear(upper, 1.5, wanted, 0.0, wanted, step);
    TimesOrders(outer, lower, step);
    TimesOrders(upper, inner, step);
  }
}
