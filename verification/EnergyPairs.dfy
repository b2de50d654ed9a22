/** Energy of a pair of adjacent samples: trapezoid integration of the interpolated power, clipped to a time window. */
module EnergyPairs {
  import opened Words
  import opened HistorySamples

  const MAX_GAP := 600
  const FOREVER := 0xFFFF_FFFF

  datatype Totals = Totals(thermal: real, electrical: real, intervals: nat)

  const NO_ENERGY := Totals(0.0, 0.0, 0)

  // ----- one power curve

  /** How far t lies between t0 and t1. */
  function Fraction(t: int, t0: int, t1: int): real
    requires t0 < t1
  {
    (t - t0) as real / (t1 - t0) as real
  }

  function PowerAt(p0: real, p1: real, fraction: real): real {
    p0 + (p1 - p0) * fraction
  }

  function Trapezoid(p0: real, p1: real, elapsed: int): real {
    (p0 + p1) * 0.5 * (elapsed as real / 3600.0)
  }

  /** `diagnosticsIntegratePower`: the energy added, or None when it refuses. */
  function IntegratePower(p0: real, p1: real, elapsed: int): Option<real> {
    if p0 < 0.0 || p1 < 0.0 || elapsed == 0 || elapsed > 86400 then None
    else Some(Trapezoid(p0, p1, elapsed))
  }

  /** Energy up to the fraction f of the way from p0 to p1 over d seconds. */
  function Primitive(p0: real, p1: real, d: int, f: real): real {
    d as real / 7200.0 * (2.0 * p0 * f + (p1 - p0) * (f * f))
  }

  /** The trapezoid between two fractions is a difference of the primitive, so trapezoids telescope. */
  lemma TrapezoidTelescopes(p0: real, p1: real, t0: int, t1: int, a: int, b: int)
    requires t0 < t1
    ensures
      var fa, fb := Fraction(a, t0, t1), Fraction(b, t0, t1);
      Trapezoid(PowerAt(p0, p1, fa), PowerAt(p0, p1, fb), b - a) ==
      Primitive(p0, p1, t1 - t0, fb) - Primitive(p0, p1, t1 - t0, fa)
  {
    var d := (t1 - t0) as real;
    var fa, fb := Fraction(a, t0, t1), Fraction(b, t0, t1);
    assert (b - a) as real == d * (fb - fa) by {
      assert d * fa == (a - t0) as real && d * fb == (b - t0) as real;
    }
    var c := d / 7200.0;
    assert 0.5 * ((b - a) as real / 3600.0) == c * (fb - fa);
    PolynomialStep(p0, p1 - p0, c, fa, fb);
  }

  lemma PolynomialStep(p: real, r: real, c: real, fa: real, fb: real)
    ensures (p + r * fa + (p + r * fb)) * (c * (fb - fa)) ==
            c * (2.0 * p * fb + r * (fb * fb)) - c * (2.0 * p * fa + r * (fa * fa))
  {
    calc {
      (p + r * fa + (p + r * fb)) * (c * (fb - fa));
      c * ((2.0 * p + r * (fa + fb)) * (fb - fa));
      { assert (2.0 * p + r * (fa + fb)) * (fb - fa) == 2.0 * p * (fb - fa) + r * ((fa + fb) * (fb - fa)); }
      { assert (fa + fb) * (fb - fa) == fb * fb - fa * fa; }
      c * (2.0 * p * (fb - fa) + r * (fb * fb - fa * fa));
      c * (2.0 * p * fb + r * (fb * fb)) - c * (2.0 * p * fa + r * (fa * fa));
    }
  }

  lemma PowerStaysPositive(p0: real, p1: real, f: real)
    requires p0 > 0.0 && p1 > 0.0 && 0.0 <= f <= 1.0
    ensures PowerAt(p0, p1, f) > 0.0
  {
    if p1 >= p0 {
      ProductStaysPositive(p1 - p0, f);
    } else {
      ProductStaysPositive(p0 - p1, 1.0 - f);
      assert p0 + (p1 - p0) * f == p1 + (p0 - p1) * (1.0 - f);
    }
  }

  lemma ProductStaysPositive(a: real, b: real)
    requires a >= 0.0 && b >= 0.0
    ensures a * b >= 0.0
  {
  }

  // ----- one pair

  /** The two samples bound an observed interval in which one efficiency group ran. */
  predicate Linked(previous: Sample, current: Sample, groupFilter: int) {
    && previous.timeValid && current.timeValid
    && previous.bootId == current.bootId && previous.electricalSource == current.electricalSource
    && previous.timestamp < current.timestamp <= previous.timestamp + MAX_GAP
    && EfficiencyGroup(previous) != 0 && EfficiencyGroup(previous) == EfficiencyGroup(current)
    && (groupFilter == 0 || EfficiencyGroup(current) == groupFilter)
  }

  predicate Overlaps(previous: Sample, current: Sample, lower: int, upper: int) {
    lower < current.timestamp && previous.timestamp < upper
  }

  function Later(a: int, b: int): int {
    if a < b then b else a
  }

  function Earlier(a: int, b: int): int {
    if a > b then b else a
  }

  /** Thermal power above 0.1 kW at both ends. */
  predicate ThermalUsable(previous: Sample, current: Sample) {
    && previous.thermalPower.Some? && current.thermalPower.Some?
    && Kw100(previous.thermalPower.value) > 0.1 && Kw100(current.thermalPower.value) > 0.1
  }

  /** Electrical power of at least 100 W at both ends. */
  predicate ElectricalUsable(previous: Sample, current: Sample) {
    && previous.electricalPower.Some? && current.electricalPower.Some?
    && previous.electricalPower.value >= 100 && current.electricalPower.value >= 100
  }

  function Kw100(x: int): real {
    x as real / 100.0
  }

  function Kw1000(x: int): real {
    x as real / 1000.0
  }

  /** `addEnergyPair`: whether anything was added, and the new totals. */
  function AddEnergyPair(previous: Sample, current: Sample, groupFilter: int, lower: int, upper: int,
                         totals: Totals): (bool, Totals) {
    if !Linked(previous, current, groupFilter) || !Overlaps(previous, current, lower, upper) then (false, totals)
    else
      var t0, t1 := previous.timestamp, current.timestamp;
      var start, stop := Later(t0, lower), Earlier(t1, upper);
      var f, g := Fraction(start, t0, t1), Fraction(stop, t0, t1);
      var thermal :=
        if !ThermalUsable(previous, current) then None
        else
          var p0, p1 := Kw100(previous.thermalPower.value), Kw100(current.thermalPower.value);
          IntegratePower(PowerAt(p0, p1, f), PowerAt(p0, p1, g), Wrap32(stop - start));
      var electrical :=
        if !ElectricalUsable(previous, current) then None
        else
          var p0, p1 := Kw1000(previous.electricalPower.value), Kw1000(current.electricalPower.value);
          IntegratePower(PowerAt(p0, p1, f), PowerAt(p0, p1, g), Wrap32(stop - start));
      (thermal.Some? || electrical.Some?,
       Totals(totals.thermal + (if thermal.Some? then thermal.value else 0.0),
              totals.electrical + (if electrical.Some? then electrical.value else 0.0),
              totals.intervals + if thermal.Some? && electrical.Some? then 1 else 0))
  }

  // ----- what a pair contributes to a window

  /** Energy between the fractions f and g of the way. */
  function EnergyBetween(p0: real, p1: real, d: int, f: real, g: real): real {
    Primitive(p0, p1, d, g) - Primitive(p0, p1, d, f)
  }

  /** The energy of a power curve inside the window, by its primitive. */
  function ClippedEnergy(p0: real, p1: real, t0: int, t1: int, lower: int, upper: int): real
    requires t0 < t1
  {
    if t1 <= lower || upper <= t0 then 0.0
    else EnergyBetween(p0, p1, t1 - t0, Fraction(Later(t0, lower), t0, t1), Fraction(Earlier(t1, upper), t0, t1))
  }

  /** Cutting a window anywhere neither loses nor adds energy. */
  lemma ClippedEnergySplits(p0: real, p1: real, t0: int, t1: int, lower: int, cut: int, upper: int)
    requires t0 < t1 && lower <= cut <= upper
    ensures ClippedEnergy(p0, p1, t0, t1, lower, cut) + ClippedEnergy(p0, p1, t0, t1, cut, upper) ==
            ClippedEnergy(p0, p1, t0, t1, lower, upper)
  {
  }

  function ThermalIn(previous: Sample, current: Sample, groupFilter: int, lower: int, upper: int): real {
    if Linked(previous, current, groupFilter) && ThermalUsable(previous, current)
    then ClippedEnergy(Kw100(previous.thermalPower.value), Kw100(current.thermalPower.value),
                       previous.timestamp, current.timestamp, lower, upper)
    else 0.0
  }

  function ElectricalIn(previous: Sample, current: Sample, groupFilter: int, lower: int, upper: int): real {
    if Linked(previous, current, groupFilter) && ElectricalUsable(previous, current)
    then ClippedEnergy(Kw1000(previous.electricalPower.value), Kw1000(current.electricalPower.value),
                       previous.timestamp, current.timestamp, lower, upper)
    else 0.0
  }

  lemma FractionBounds(t: int, t0: int, t1: int)
    requires t0 <= t <= t1 && t0 < t1
    ensures 0.0 <= Fraction(t, t0, t1) <= 1.0
  {
    assert (t - t0) as real <= (t1 - t0) as real;
  }

  lemma TrapezoidBetween(p0: real, p1: real, t0: int, t1: int, a: int, b: int)
    requires p0 > 0.0 && p1 > 0.0 && t0 <= a < b <= t1 <= t0 + MAX_GAP
    ensures IntegratePower(PowerAt(p0, p1, Fraction(a, t0, t1)), PowerAt(p0, p1, Fraction(b, t0, t1)), b - a) ==
            Some(Primitive(p0, p1, t1 - t0, Fraction(b, t0, t1)) - Primitive(p0, p1, t1 - t0, Fraction(a, t0, t1)))
  {
    var pa, pb := PowerAt(p0, p1, Fraction(a, t0, t1)), PowerAt(p0, p1, Fraction(b, t0, t1));
    FractionBounds(a, t0, t1);
    FractionBounds(b, t0, t1);
    PowerStaysPositive(p0, p1, Fraction(a, t0, t1));
    PowerStaysPositive(p0, p1, Fraction(b, t0, t1));
    assert IntegratePower(pa, pb, b - a) == Some(Trapezoid(pa, pb, b - a));
    TrapezoidTelescopes(p0, p1, t0, t1, a, b);
  }

  lemma TrapezoidIsClippedEnergy(p0: real, p1: real, t0: int, t1: int, lower: int, upper: int)
    requires p0 > 0.0 && p1 > 0.0 && t0 < t1 <= t0 + MAX_GAP && lower < t1 && t0 < upper && lower < upper
    ensures
      var start, stop := Later(t0, lower), Earlier(t1, upper);
      IntegratePower(PowerAt(p0, p1, Fraction(start, t0, t1)), PowerAt(p0, p1, Fraction(stop, t0, t1)),
                     Wrap32(stop - start)) ==
      Some(ClippedEnergy(p0, p1, t0, t1, lower, upper))
  {
    var start, stop := Later(t0, lower), Earlier(t1, upper);
    WrapOfSmall(stop - start);
    TrapezoidBetween(p0, p1, t0, t1, start, stop);
  }

  /** The pair is counted for heat and for electricity. */
  predicate CountsBoth(previous: Sample, current: Sample, groupFilter: int, lower: int, upper: int) {
    && Linked(previous, current, groupFilter) && Overlaps(previous, current, lower, upper)
    && ThermalUsable(previous, current) && ElectricalUsable(previous, current)
  }

  /** The pair adds exactly its clipped trapezoids, and counts as an interval when it adds both. */
  lemma PairAddsItsEnergy(previous: Sample, current: Sample, groupFilter: int, lower: int, upper: int, totals: Totals)
    requires lower < upper
    ensures
      var (added, after) := AddEnergyPair(previous, current, groupFilter, lower, upper, totals);
      && after.thermal == totals.thermal + ThermalIn(previous, current, groupFilter, lower, upper)
      && after.electrical == totals.electrical + ElectricalIn(previous, current, groupFilter, lower, upper)
      && after.intervals == totals.intervals + if CountsBoth(previous, current, groupFilter, lower, upper) then 1 else 0
  {
    if Linked(previous, current, groupFilter) && Overlaps(previous, current, lower, upper) {
      if ThermalUsable(previous, current) {
        TrapezoidIsClippedEnergy(Kw100(previous.thermalPower.value), Kw100(current.thermalPower.value),
                                 previous.timestamp, current.timestamp, lower, upper);
      }
      if ElectricalUsable(previous, current) {
        TrapezoidIsClippedEnergy(Kw1000(previous.electricalPower.value), Kw1000(current.electricalPower.value),
                                 previous.timestamp, current.timestamp, lower, upper);
      }
    }
  }

  /** Only the part of the window inside the pair matters. */
  lemma OnlyOverlapCounts(previous: Sample, current: Sample, groupFilter: int, lower: int, upper: int)
    requires lower < upper
    ensures
      var lo, hi := Later(lower, previous.timestamp), Earlier(upper, current.timestamp);
      && ThermalIn(previous, current, groupFilter, lower, upper) ==
         (if lo < hi then ThermalIn(previous, current, groupFilter, lo, hi) else 0.0)
      && ElectricalIn(previous, current, groupFilter, lower, upper) ==
         (if lo < hi then ElectricalIn(previous, current, groupFilter, lo, hi) else 0.0)
  {
  }
}
