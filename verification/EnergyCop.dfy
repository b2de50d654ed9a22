/** The COP of a range of samples, and how it relates to the COP of the samples themselves. */
module EnergyCop {
  import opened Words
  import opened HistorySamples
  import opened EnergyPairs

  /** The totals of all adjacent pairs. */
  function EnergyOver(samples: seq<Sample>, groupFilter: int, lower: int, upper: int): Totals {
    var n := |samples|;
    if n < 2 then NO_ENERGY
    else AddEnergyPair(samples[n - 2], samples[n - 1], groupFilter, lower, upper,
                       EnergyOver(samples[..n - 1], groupFilter, lower, upper)).1
  }

  /** `calculateEnergy`, over the retained samples in order. */
  method CalculateEnergy(samples: seq<Sample>, first: nat, last: nat, groupFilter: int, lower: int, upper: int)
    returns (totals: Totals)
    ensures totals == if first < last < |samples| then EnergyOver(samples[first..last + 1], groupFilter, lower, upper)
            else NO_ENERGY
  {
    totals := NO_ENERGY;
    if |samples| < 2 || first >= |samples| || last >= |samples| || first >= last { return; }
    var previous := samples[first];
    var offset := first + 1;
    while offset <= last
      invariant first < offset <= last + 1
      invariant previous == samples[offset - 1]
      invariant totals == EnergyOver(samples[first..offset], groupFilter, lower, upper)
    {
      assert samples[first..offset + 1][..offset - first] == samples[first..offset];
      var (added, after) := AddEnergyPair(previous, samples[offset], groupFilter, lower, upper, totals);
      totals := after;
      previous := samples[offset];
      offset := offset + 1;
    }
  }

  /** `instantaneousCop`. */
  function InstantaneousCop(s: Sample): Option<real> {
    if EfficiencyGroup(s) == 0 || s.thermalPower.None? || s.electricalPower.None? then None
    else
      var thermal, electrical := Kw100(s.thermalPower.value), s.electricalPower.value;
      if thermal <= 0.1 || electrical < 100 then None else Some(thermal / Kw1000(electrical))
  }

  /** `totalsCop`. */
  function TotalsCop(t: Totals): Option<real> {
    if t.intervals == 0 || t.thermal <= 0.0 || t.electrical <= 0.0 then None else Some(t.thermal / t.electrical)
  }

  // ----- the mediant argument

  /** How much the first and the last power count between the fractions f and g of d seconds. */
  function FirstWeight(d: int, f: real, g: real): real {
    d as real / 7200.0 * ((g - f) * (2.0 - (f + g)))
  }

  function LastWeight(d: int, f: real, g: real): real {
    d as real / 7200.0 * ((g - f) * (f + g))
  }

  lemma WeightsAreNonNegative(d: int, f: real, g: real)
    requires 0 <= d && 0.0 <= f <= g <= 1.0
    ensures FirstWeight(d, f, g) >= 0.0 && LastWeight(d, f, g) >= 0.0
  {
    ProductStaysPositive(g - f, 2.0 - (f + g));
    ProductStaysPositive(g - f, f + g);
    ProductStaysPositive(d as real / 7200.0, (g - f) * (2.0 - (f + g)));
    ProductStaysPositive(d as real / 7200.0, (g - f) * (f + g));
  }

  lemma SquaresDiffer(f: real, g: real)
    ensures (g - f) * (f + g) == g * g - f * f
    ensures (g - f) * (2.0 - (f + g)) == 2.0 * g - 2.0 * f - (g * g - f * f)
  {
  }

  lemma WeightedSum(c: real, p0: real, p1: real, f: real, g: real, ff: real, gg: real, v: real, w: real)
    requires w == gg - ff && v == 2.0 * g - 2.0 * f - w
    ensures c * (2.0 * p0 * g + (p1 - p0) * gg) - c * (2.0 * p0 * f + (p1 - p0) * ff) == c * v * p0 + c * w * p1
  {
    calc {
      c * (2.0 * p0 * g + (p1 - p0) * gg) - c * (2.0 * p0 * f + (p1 - p0) * ff);
      c * (p0 * (2.0 * g - 2.0 * f) + (p1 - p0) * (gg - ff));
      { assert p0 * (2.0 * g - 2.0 * f) == p0 * v + p0 * w; }
      c * (p0 * v + p1 * w);
      c * v * p0 + c * w * p1;
    }
  }

  /** Energy is a weighted sum of the two powers. */
  lemma EnergyIsWeighted(p0: real, p1: real, d: int, f: real, g: real)
    ensures EnergyBetween(p0, p1, d, f, g) == FirstWeight(d, f, g) * p0 + LastWeight(d, f, g) * p1
  {
    SquaresDiffer(f, g);
    WeightedSum(d as real / 7200.0, p0, p1, f, g, f * f, g * g, (g - f) * (2.0 - (f + g)), (g - f) * (f + g));
  }

  lemma WholeQuotients(x: real)
    requires x > 0.0
    ensures x / x == 1.0 && 0.0 / x == 0.0
  {
  }

  /** A constant power over the whole interval. */
  lemma FlatEnergy(p: real, t0: int, t1: int, lower: int, upper: int)
    requires lower <= t0 < t1 <= upper
    ensures ClippedEnergy(p, p, t0, t1, lower, upper) == (t1 - t0) as real / 3600.0 * p
  {
    WholeQuotients((t1 - t0) as real);
    EnergyIsWeighted(p, p, t1 - t0, 0.0, 1.0);
  }

  predicate InRatio(a: real, b: real, lo: real, hi: real) {
    lo * b <= a <= hi * b
  }

  lemma RatiosAdd(a: real, b: real, c: real, d: real, lo: real, hi: real)
    requires InRatio(a, b, lo, hi) && InRatio(c, d, lo, hi)
    ensures InRatio(a + c, b + d, lo, hi)
  {
    assert lo * (b + d) == lo * b + lo * d;
    assert hi * (b + d) == hi * b + hi * d;
  }

  lemma RatioScales(w: real, a: real, b: real, lo: real, hi: real)
    requires w >= 0.0 && InRatio(a, b, lo, hi)
    ensures InRatio(w * a, w * b, lo, hi)
  {
    ProductStaysPositive(w, a - lo * b);
    ProductStaysPositive(w, hi * b - a);
    assert w * (a - lo * b) == w * a - lo * (w * b);
    assert w * (hi * b - a) == hi * (w * b) - w * a;
  }

  lemma WeightsKeepRatio(v: real, w: real, a0: real, a1: real, b0: real, b1: real, lo: real, hi: real)
    requires v >= 0.0 && w >= 0.0 && InRatio(a0, b0, lo, hi) && InRatio(a1, b1, lo, hi)
    ensures InRatio(v * a0 + w * a1, v * b0 + w * b1, lo, hi)
  {
    RatioScales(v, a0, b0, lo, hi);
    RatioScales(w, a1, b1, lo, hi);
    RatiosAdd(v * a0, v * b0, w * a1, w * b1, lo, hi);
  }

  lemma BetweenInRatio(a0: real, a1: real, b0: real, b1: real, lo: real, hi: real, d: int, f: real, g: real)
    requires 0 <= d && 0.0 <= f <= g <= 1.0 && InRatio(a0, b0, lo, hi) && InRatio(a1, b1, lo, hi)
    ensures InRatio(EnergyBetween(a0, a1, d, f, g), EnergyBetween(b0, b1, d, f, g), lo, hi)
  {
    WeightsAreNonNegative(d, f, g);
    EnergyIsWeighted(a0, a1, d, f, g);
    EnergyIsWeighted(b0, b1, d, f, g);
    WeightsKeepRatio(FirstWeight(d, f, g), LastWeight(d, f, g), a0, a1, b0, b1, lo, hi);
  }

  lemma FractionsAreOrdered(a: int, b: int, t0: int, t1: int)
    requires t0 <= a <= b <= t1 && t0 < t1
    ensures 0.0 <= Fraction(a, t0, t1) <= Fraction(b, t0, t1) <= 1.0
  {
    FractionBounds(a, t0, t1);
    FractionBounds(b, t0, t1);
    assert (a - t0) as real <= (b - t0) as real;
  }

  /** Powers in a fixed ratio range keep their energies in that range. */
  lemma EnergiesInRatio(a0: real, a1: real, b0: real, b1: real, lo: real, hi: real, t0: int, t1: int, lower: int,
                        upper: int)
    requires t0 < t1 && lower < upper
    requires InRatio(a0, b0, lo, hi) && InRatio(a1, b1, lo, hi)
    ensures InRatio(ClippedEnergy(a0, a1, t0, t1, lower, upper), ClippedEnergy(b0, b1, t0, t1, lower, upper), lo, hi)
  {
    if lower < t1 && t0 < upper {
      FractionsAreOrdered(Later(t0, lower), Earlier(t1, upper), t0, t1);
      BetweenInRatio(a0, a1, b0, b1, lo, hi, t1 - t0,
                     Fraction(Later(t0, lower), t0, t1), Fraction(Earlier(t1, upper), t0, t1));
    }
  }

  predicate Counts(samples: seq<Sample>, i: nat, groupFilter: int, lower: int, upper: int) {
    i + 1 < |samples| && Linked(samples[i], samples[i + 1], groupFilter) &&
      Overlaps(samples[i], samples[i + 1], lower, upper)
  }

  predicate CopWithin(s: Sample, lo: real, hi: real) {
    InstantaneousCop(s).Some? ==> lo <= InstantaneousCop(s).value <= hi
  }

  /** Every counted pair adds thermal energy exactly when it adds electrical energy. */
  ghost predicate BothOrNone(samples: seq<Sample>, groupFilter: int, lower: int, upper: int) {
    forall i: nat :: Counts(samples, i, groupFilter, lower, upper) ==>
      (ThermalUsable(samples[i], samples[i + 1]) <==> ElectricalUsable(samples[i], samples[i + 1]))
  }

  ghost predicate PairsWithin(samples: seq<Sample>, groupFilter: int, lower: int, upper: int, lo: real, hi: real) {
    forall i: nat :: Counts(samples, i, groupFilter, lower, upper) ==>
      CopWithin(samples[i], lo, hi) && CopWithin(samples[i + 1], lo, hi)
  }

  lemma RatioOfSample(s: Sample, lo: real, hi: real)
    requires InstantaneousCop(s).Some? && CopWithin(s, lo, hi)
    ensures InRatio(Kw100(s.thermalPower.value), Kw1000(s.electricalPower.value), lo, hi)
  {
    var a, b := Kw100(s.thermalPower.value), Kw1000(s.electricalPower.value);
    assert a / b * b == a;
    ProductStaysPositive(a / b - lo, b);
    ProductStaysPositive(hi - a / b, b);
  }

  lemma PairInRatio(previous: Sample, current: Sample, groupFilter: int, lower: int, upper: int, lo: real, hi: real)
    requires lower < upper && CopWithin(previous, lo, hi) && CopWithin(current, lo, hi)
    requires ThermalUsable(previous, current) <==> ElectricalUsable(previous, current)
    ensures InRatio(ThermalIn(previous, current, groupFilter, lower, upper),
                    ElectricalIn(previous, current, groupFilter, lower, upper), lo, hi)
  {
    if Linked(previous, current, groupFilter) && ThermalUsable(previous, current) {
      RatioOfSample(previous, lo, hi);
      RatioOfSample(current, lo, hi);
      var a0, a1 := Kw100(previous.thermalPower.value), Kw100(current.thermalPower.value);
      var b0, b1 := Kw1000(previous.electricalPower.value), Kw1000(current.electricalPower.value);
      EnergiesInRatio(a0, a1, b0, b1, lo, hi, previous.timestamp, current.timestamp, lower, upper);
      assert ThermalIn(previous, current, groupFilter, lower, upper) ==
        ClippedEnergy(a0, a1, previous.timestamp, current.timestamp, lower, upper);
    } else {
      assert InRatio(0.0, 0.0, lo, hi);
    }
  }

  lemma {:induction false} RangeInRatio(samples: seq<Sample>, groupFilter: int, lower: int, upper: int, lo: real,
                                        hi: real)
    requires lower < upper && BothOrNone(samples, groupFilter, lower, upper)
    requires PairsWithin(samples, groupFilter, lower, upper, lo, hi)
    ensures
      var t := EnergyOver(samples, groupFilter, lower, upper);
      InRatio(t.thermal, t.electrical, lo, hi)
  {
    var n := |samples|;
    if n >= 2 {
      var init := samples[..n - 1];
      forall i: nat | Counts(init, i, groupFilter, lower, upper)
        ensures Counts(samples, i, groupFilter, lower, upper) && init[i] == samples[i] && init[i + 1] == samples[i + 1]
      {
      }
      RangeInRatio(init, groupFilter, lower, upper, lo, hi);
      LastPairInRatio(samples, EnergyOver(init, groupFilter, lower, upper), groupFilter, lower, upper, lo, hi);
    }
  }

  lemma LastPairInRatio(samples: seq<Sample>, before: Totals, groupFilter: int, lower: int, upper: int, lo: real,
                        hi: real)
    requires lower < upper && BothOrNone(samples, groupFilter, lower, upper) && |samples| >= 2
    requires PairsWithin(samples, groupFilter, lower, upper, lo, hi)
    requires InRatio(before.thermal, before.electrical, lo, hi)
    ensures
      var t := AddEnergyPair(samples[|samples| - 2], samples[|samples| - 1], groupFilter, lower, upper, before).1;
      InRatio(t.thermal, t.electrical, lo, hi)
  {
    var previous, current := samples[|samples| - 2], samples[|samples| - 1];
    if Counts(samples, |samples| - 2, groupFilter, lower, upper) {
      PairAddsItsEnergy(previous, current, groupFilter, lower, upper, before);
      PairInRatio(previous, current, groupFilter, lower, upper, lo, hi);
      RatiosAdd(before.thermal, before.electrical, ThermalIn(previous, current, groupFilter, lower, upper),
                ElectricalIn(previous, current, groupFilter, lower, upper), lo, hi);
    }
  }

  /**
   The energy COP of a range lies between the smallest and the largest COP of the samples involved,
   whatever the clipping window, as long as every counted pair adds both energies or none.
   */
  lemma CopLiesBetweenSampleCops(samples: seq<Sample>, groupFilter: int, lower: int, upper: int, lo: real, hi: real)
    requires lower < upper && BothOrNone(samples, groupFilter, lower, upper)
    requires PairsWithin(samples, groupFilter, lower, upper, lo, hi)
    ensures
      var cop := TotalsCop(EnergyOver(samples, groupFilter, lower, upper));
      cop.Some? ==> lo <= cop.value <= hi
  {
    RangeInRatio(samples, groupFilter, lower, upper, lo, hi);
    var t := EnergyOver(samples, groupFilter, lower, upper);
    if t.electrical > 0.0 {
      RatioBounds(t.thermal, t.electrical, lo, hi);
    }
  }

  lemma RatioBounds(a: real, b: real, lo: real, hi: real)
    requires b > 0.0 && InRatio(a, b, lo, hi)
    ensures lo <= a / b <= hi
  {
    var cop := a / b;
    assert cop * b == a;
    if cop < lo {
      PositiveProduct(lo - cop, b);
    }
    if cop > hi {
      PositiveProduct(cop - hi, b);
    }
  }

  lemma PositiveProduct(a: real, b: real)
    requires a > 0.0 && b > 0.0
    ensures a * b > 0.0
  {
  }

  // ----- the exact condition at steady powers

  /** How long a pair is observed in the window with usable readings of the heat, or of the power. */
  function Observed(previous: Sample, current: Sample, groupFilter: int, lower: int, upper: int, thermal: bool): int {
    if Linked(previous, current, groupFilter) && Overlaps(previous, current, lower, upper) &&
       (if thermal then ThermalUsable(previous, current) else ElectricalUsable(previous, current))
    then Earlier(current.timestamp, upper) - Later(previous.timestamp, lower) else 0
  }

  function ObservedOver(samples: seq<Sample>, groupFilter: int, lower: int, upper: int, thermal: bool): int {
    var n := |samples|;
    if n < 2 then 0
    else ObservedOver(samples[..n - 1], groupFilter, lower, upper, thermal) +
         Observed(samples[n - 2], samples[n - 1], groupFilter, lower, upper, thermal)
  }

  /** All usable readings of the heat, and of the power, are the same. */
  predicate Steady(samples: seq<Sample>, heat: int, power: int) {
    forall k :: 0 <= k < |samples| ==> SteadySample(samples[k], heat, power)
  }

  /** A usable reading: more than 0.1 kW of heat, or at least 100 W of electricity. */
  predicate Usable(s: Sample, thermal: bool) {
    if thermal then s.thermalPower.Some? && Kw100(s.thermalPower.value) > 0.1
    else s.electricalPower.Some? && s.electricalPower.value >= 100
  }

  predicate SteadySample(s: Sample, heat: int, power: int) {
    && (Usable(s, true) ==> s.thermalPower.value == heat)
    && (Usable(s, false) ==> s.electricalPower.value == power)
  }

  /** What a steady power gives in this many seconds. */
  function SteadyOver(p: real, seconds: int): real {
    p * (seconds as real / 3600.0)
  }

  lemma SteadyClipped(p: real, t0: int, t1: int, lower: int, upper: int)
    requires t0 < t1 && lower < t1 && t0 < upper
    ensures ClippedEnergy(p, p, t0, t1, lower, upper) == SteadyOver(p, Earlier(t1, upper) - Later(t0, lower))
  {
    var a, b := Later(t0, lower), Earlier(t1, upper);
    TrapezoidTelescopes(p, p, t0, t1, a, b);
    assert PowerAt(p, p, Fraction(a, t0, t1)) == p && PowerAt(p, p, Fraction(b, t0, t1)) == p;
    assert Trapezoid(p, p, b - a) == p * ((b - a) as real / 3600.0);
  }

  lemma SteadyPair(previous: Sample, current: Sample, groupFilter: int, lower: int, upper: int, heat: int, power: int)
    requires lower < upper && SteadySample(previous, heat, power) && SteadySample(current, heat, power)
    ensures ThermalIn(previous, current, groupFilter, lower, upper) ==
            SteadyOver(Kw100(heat), Observed(previous, current, groupFilter, lower, upper, true))
    ensures ElectricalIn(previous, current, groupFilter, lower, upper) ==
            SteadyOver(Kw1000(power), Observed(previous, current, groupFilter, lower, upper, false))
  {
    if Linked(previous, current, groupFilter) && Overlaps(previous, current, lower, upper) {
      SteadyClipped(Kw100(heat), previous.timestamp, current.timestamp, lower, upper);
      SteadyClipped(Kw1000(power), previous.timestamp, current.timestamp, lower, upper);
    }
  }

  lemma SecondsAdd(p: real, a: int, b: int)
    ensures SteadyOver(p, a) + SteadyOver(p, b) == SteadyOver(p, a + b)
  {
  }

  lemma SteadyLastPair(before: Totals, previous: Sample, current: Sample, groupFilter: int, lower: int, upper: int,
                       heat: int, power: int, x: int, y: int)
    requires lower < upper && SteadySample(previous, heat, power) && SteadySample(current, heat, power)
    requires before.thermal == SteadyOver(Kw100(heat), x) && before.electrical == SteadyOver(Kw1000(power), y)
    ensures
      var t := AddEnergyPair(previous, current, groupFilter, lower, upper, before).1;
      && t.thermal == SteadyOver(Kw100(heat), x + Observed(previous, current, groupFilter, lower, upper, true))
      && t.electrical == SteadyOver(Kw1000(power), y + Observed(previous, current, groupFilter, lower, upper, false))
  {
    PairAddsItsEnergy(previous, current, groupFilter, lower, upper, before);
    SteadyPair(previous, current, groupFilter, lower, upper, heat, power);
    SecondsAdd(Kw100(heat), x, Observed(previous, current, groupFilter, lower, upper, true));
    SecondsAdd(Kw1000(power), y, Observed(previous, current, groupFilter, lower, upper, false));
  }

  /** At steady powers the energies are the powers over the observed times. */
  lemma {:induction false} SteadyEnergy(samples: seq<Sample>, groupFilter: int, lower: int, upper: int, heat: int,
                                        power: int)
    requires lower < upper && Steady(samples, heat, power)
    ensures
      var t := EnergyOver(samples, groupFilter, lower, upper);
      && t.thermal == SteadyOver(Kw100(heat), ObservedOver(samples, groupFilter, lower, upper, true))
      && t.electrical == SteadyOver(Kw1000(power), ObservedOver(samples, groupFilter, lower, upper, false))
  {
    var n := |samples|;
    if n >= 2 {
      var earlier := samples[..n - 1];
      SteadyEnergy(earlier, groupFilter, lower, upper, heat, power);
      var x, y := ObservedOver(earlier, groupFilter, lower, upper, true),
                  ObservedOver(earlier, groupFilter, lower, upper, false);
      SteadyLastPair(EnergyOver(earlier, groupFilter, lower, upper), samples[n - 2], samples[n - 1], groupFilter,
                     lower, upper, heat, power, x, y);
    }
  }

  lemma QuotientOfProducts(a: real, b: real, x: real, y: real, cop: real)
    requires b > 0.0 && y > 0.0 && cop * (b * y) == a * x
    ensures a > 0.0 ==> (cop * b == a <==> x == y)
  {
    assert cop * (b * y) == (cop * b) * y;
    if cop * b == a && a > 0.0 {
      assert a * y == a * x;
      assert a * (y - x) == 0.0;
    }
    if x == y {
      assert (cop * b - a) * y == 0.0;
    }
  }

  lemma RatioIsCop(a: real, b: real, cop: real)
    requires b > 0.0
    ensures cop == a / b <==> cop * b == a
  {
    assert a / b * b == a;
    if cop * b == a {
      assert (cop - a / b) * b == 0.0;
    }
  }

  lemma PositiveFactor(b: real, y: real)
    requires b > 0.0 && b * y > 0.0
    ensures y > 0.0
  {
    if y <= 0.0 {
      ProductStaysPositive(b, -y);
    }
  }

  /** The ratio of two steady energies is that of the powers exactly when the times are the same. */
  lemma SteadyRatio(a: real, b: real, x: int, y: int, thermal: real, electrical: real)
    requires a > 0.0 && b > 0.0 && thermal == SteadyOver(a, x) && electrical == SteadyOver(b, y) && electrical > 0.0
    ensures thermal / electrical == a / b <==> x == y
  {
    var hx, hy, cop := x as real / 3600.0, y as real / 3600.0, thermal / electrical;
    PositiveFactor(b, hy);
    assert cop * electrical == thermal;
    QuotientOfProducts(a, b, hx, hy, cop);
    RatioIsCop(a, b, cop);
  }

  /**
   At steady powers every sample with a COP has the same one, and the range has it too if and only if heat and power
   are observed for the same time: any difference between the one-sided pairs of the two kinds moves it away.
   */
  lemma SteadyCopExactly(samples: seq<Sample>, groupFilter: int, lower: int, upper: int, heat: int, power: int)
    requires lower < upper && Steady(samples, heat, power) && heat > 10 && power >= 100
    ensures
      var cop := TotalsCop(EnergyOver(samples, groupFilter, lower, upper));
      cop.Some? ==>
        (cop == Some(Kw100(heat) / Kw1000(power)) <==>
         ObservedOver(samples, groupFilter, lower, upper, true) ==
           ObservedOver(samples, groupFilter, lower, upper, false))
    ensures forall s :: s in samples && InstantaneousCop(s).Some? ==>
            InstantaneousCop(s) == Some(Kw100(heat) / Kw1000(power))
  {
    var t := EnergyOver(samples, groupFilter, lower, upper);
    SteadyEnergy(samples, groupFilter, lower, upper, heat, power);
    if t.electrical > 0.0 {
      SteadyRatio(Kw100(heat), Kw1000(power), ObservedOver(samples, groupFilter, lower, upper, true),
                  ObservedOver(samples, groupFilter, lower, upper, false), t.thermal, t.electrical);
    }
  }

  const NO_EXTRA := Extra(None, None, None, None, None, None, None, None, None, None, None, None, None, None, None,
                          None, None, None, None)

  /** A heating sample with 2 kW of heat. */
  function Example(timestamp: nat, electrical: Option<int>): Sample {
    Sample(0, 1, timestamp, 0, true, true, true, false, false, 1, 0, 2, 0, None, Some(200), electrical, NO_EXTRA)
  }

  /** 2 kW of heat and 1 kW of electricity for a minute; without a reading at the end the electricity does not count. */
  lemma ExampleMinute(t: nat, before: Totals, metered: bool)
    requires t + 60 < FOREVER
    ensures
      var reading := if metered then Some(1000) else None;
      var after := AddEnergyPair(Example(t, Some(1000)), Example(t + 60, reading), 1, 0, FOREVER, before).1;
      && after.thermal == before.thermal + 1.0 / 30.0
      && after.electrical == before.electrical + (if metered then 1.0 / 60.0 else 0.0)
      && after.intervals == before.intervals + (if metered then 1 else 0)
  {
    var reading := if metered then Some(1000) else None;
    FlatEnergy(2.0, t, t + 60, 0, FOREVER);
    FlatEnergy(1.0, t, t + 60, 0, FOREVER);
    PairAddsItsEnergy(Example(t, Some(1000)), Example(t + 60, reading), 1, 0, FOREVER, before);
  }

  lemma EnergyOfOneMore(samples: seq<Sample>, s: Sample, groupFilter: int, lower: int, upper: int)
    requires samples != []
    ensures EnergyOver(samples + [s], groupFilter, lower, upper) ==
            AddEnergyPair(samples[|samples| - 1], s, groupFilter, lower, upper,
                          EnergyOver(samples, groupFilter, lower, upper)).1
  {
    assert (samples + [s])[..|samples|] == samples;
  }

  /**
   Without that condition the bound fails, at any time t: three samples, the last without a power meter reading, give
   twice their COP.
   */
  lemma OneSidedPairBreaksTheBound(t: nat)
    requires t + 120 < FOREVER
    ensures
      var samples := [Example(t, Some(1000)), Example(t + 60, Some(1000)), Example(t + 120, None)];
      && TotalsCop(EnergyOver(samples, 1, 0, FOREVER)) == Some(4.0)
      && (forall s :: s in samples && InstantaneousCop(s).Some? ==> InstantaneousCop(s) == Some(2.0))
  {
    var a, b, c := Example(t, Some(1000)), Example(t + 60, Some(1000)), Example(t + 120, None);
    var first := AddEnergyPair(a, b, 1, 0, FOREVER, NO_ENERGY).1;
    ExampleMinute(t, NO_ENERGY, true);
    ExampleMinute(t + 60, first, false);
    EnergyOfOneMore([a], b, 1, 0, FOREVER);
    EnergyOfOneMore([a, b], c, 1, 0, FOREVER);
    assert [a] + [b] == [a, b] && [a, b] + [c] == [a, b, c];
  }
}
