/** What a pair of samples is worth, from its readings, times and flags alone. */
module EnergyMeaning {
  import opened Words
  import opened HistorySamples
  import opened EnergyPairs
  import opened DailyEnergy

  // ----- which pairs count

  /** The compressor runs without defrosting, for this purpose: 1 is heating, 2 is hot water. */
  predicate RunsFor(s: Sample, purpose: int) {
    && s.compressor && !s.defrost && s.operatingMode in {1, 3, 4, 5, 7}
    && purpose == if s.dhwActive then 2 else 1
  }

  /** Two samples of one boot and one meter, at most ten minutes apart, that ran for the same purpose. */
  predicate Together(p: Sample, c: Sample, purpose: int) {
    && p.timeValid && c.timeValid && p.bootId == c.bootId && p.electricalSource == c.electricalSource
    && 0 < c.timestamp - p.timestamp <= 600
    && (exists either :: either in {1, 2} && RunsFor(p, either) && RunsFor(c, either) && purpose in {0, either})
  }

  predicate MoreThan(v: Option<int>, bound: int) {
    v.Some? && v.value > bound
  }

  lemma GroupExactly(s: Sample, purpose: int)
    requires purpose in {1, 2}
    ensures EfficiencyGroup(s) == purpose <==> RunsFor(s, purpose)
  {
  }

  lemma LinkedExactly(p: Sample, c: Sample, purpose: int)
    requires purpose in {0, 1, 2}
    ensures Linked(p, c, purpose) <==> Together(p, c, purpose)
  {
    GroupExactly(p, 1);
    GroupExactly(p, 2);
    GroupExactly(c, 1);
    GroupExactly(c, 2);
  }

  lemma PowersExactly(p: Sample, c: Sample)
    ensures ThermalUsable(p, c) <==> MoreThan(p.thermalPower, 10) && MoreThan(c.thermalPower, 10)
    ensures ElectricalUsable(p, c) <==> MoreThan(p.electricalPower, 99) && MoreThan(c.electricalPower, 99)
  {
  }

  // ----- how much

  /** The value at time t on the straight line from v0 at t0 to v1 at t1, times the length of the line. */
  function OnLine(v0: int, v1: int, t0: int, t1: int, t: int): int {
    v0 * (t1 - t) + v1 * (t - t0)
  }

  /** Energy in kWh under that line from a to b, for values of which so many make a kilowatt. */
  predicate IsUnderLine(energy: real, v0: int, v1: int, t0: int, t1: int, a: int, b: int, perKilowatt: real) {
    energy * (7200.0 * perKilowatt * (t1 - t0) as real) ==
    ((OnLine(v0, v1, t0, t1, a) + OnLine(v0, v1, t0, t1, b)) * (b - a)) as real
  }

  /** A power of p kW is stored as v. */
  predicate IsStored(p: real, v: int, perKilowatt: real) {
    p * perKilowatt == v as real
  }

  lemma PowerOnLine(p0: real, p1: real, v0: int, v1: int, t0: int, t1: int, t: int, perKilowatt: real)
    requires t0 < t1 && IsStored(p0, v0, perKilowatt) && IsStored(p1, v1, perKilowatt)
    ensures PowerAt(p0, p1, Fraction(t, t0, t1)) * (perKilowatt * (t1 - t0) as real) ==
            OnLine(v0, v1, t0, t1, t) as real
  {
    var d := (t1 - t0) as real;
    var f := Fraction(t, t0, t1);
    assert f * d == (t - t0) as real;
    LineAlgebra(p0, p1, perKilowatt, f, d);
    Products(v0, v1, t0, t1, t);
  }

  lemma Scaled(v: int, unit: real)
    requires unit > 0.0
    ensures IsStored(v as real / unit, v, unit)
  {
  }

  lemma LineAlgebra(p0: real, p1: real, unit: real, f: real, d: real)
    ensures (p0 + (p1 - p0) * f) * (unit * d) == p0 * unit * d + (p1 * unit - p0 * unit) * (f * d)
  {
    calc {
      (p0 + (p1 - p0) * f) * (unit * d);
      p0 * (unit * d) + (p1 - p0) * f * (unit * d);
      { assert (p1 - p0) * f * (unit * d) == (p1 - p0) * unit * (f * d); }
      { assert (p1 - p0) * unit == p1 * unit - p0 * unit; }
      p0 * unit * d + (p1 * unit - p0 * unit) * (f * d);
    }
  }

  lemma Products(v0: int, v1: int, t0: int, t1: int, t: int)
    ensures v0 as real * (t1 - t0) as real + (v1 as real - v0 as real) * (t - t0) as real ==
            OnLine(v0, v1, t0, t1, t) as real
  {
    assert OnLine(v0, v1, t0, t1, t) == v0 * (t1 - t0) + (v1 - v0) * (t - t0);
  }

  lemma TrapezoidUnderLine(p0: real, p1: real, v0: int, v1: int, t0: int, t1: int, a: int, b: int, perKilowatt: real)
    requires t0 < t1 && IsStored(p0, v0, perKilowatt) && IsStored(p1, v1, perKilowatt)
    ensures IsUnderLine(EnergyBetween(p0, p1, t1 - t0, Fraction(a, t0, t1), Fraction(b, t0, t1)), v0, v1, t0, t1, a, b,
                        perKilowatt)
  {
    var fa, fb := Fraction(a, t0, t1), Fraction(b, t0, t1);
    var pa, pb := PowerAt(p0, p1, fa), PowerAt(p0, p1, fb);
    var qa, qb := OnLine(v0, v1, t0, t1, a), OnLine(v0, v1, t0, t1, b);
    TrapezoidTelescopes(p0, p1, t0, t1, a, b);
    PowerOnLine(p0, p1, v0, v1, t0, t1, a, perKilowatt);
    PowerOnLine(p0, p1, v0, v1, t0, t1, b, perKilowatt);
    ScaledTrapezoid(pa, pb, b - a, perKilowatt * (t1 - t0) as real, qa, qb);
    Regrouped(Trapezoid(pa, pb, b - a), perKilowatt, (t1 - t0) as real);
  }

  lemma Regrouped(energy: real, unit: real, d: real)
    ensures energy * (7200.0 * unit * d) == energy * (7200.0 * (unit * d))
  {
    assert 7200.0 * unit * d == 7200.0 * (unit * d);
  }

  lemma ScaledTrapezoid(pa: real, pb: real, elapsed: int, scale: real, qa: int, qb: int)
    requires pa * scale == qa as real && pb * scale == qb as real
    ensures Trapezoid(pa, pb, elapsed) * (7200.0 * scale) == ((qa + qb) * elapsed) as real
  {
    TrapezoidAlgebra(pa, pb, elapsed as real, scale);
    RealProduct(qa + qb, elapsed);
  }

  lemma RealProduct(x: int, y: int)
    ensures x as real * y as real == (x * y) as real
  {
  }

  lemma TrapezoidAlgebra(pa: real, pb: real, elapsed: real, scale: real)
    ensures (pa + pb) * 0.5 * (elapsed / 3600.0) * (7200.0 * scale) == (pa * scale + pb * scale) * elapsed
  {
    assert (pa + pb) * scale == pa * scale + pb * scale;
  }

  lemma LineStaysPositive(v0: int, v1: int, t0: int, t1: int, t: int)
    requires v0 > 0 && v1 > 0 && t0 <= t <= t1 && t0 < t1
    ensures OnLine(v0, v1, t0, t1, t) > 0
  {
    if t < t1 {
      assert v0 * (t1 - t) > 0 && v1 * (t - t0) >= 0;
    } else {
      assert v1 * (t1 - t0) > 0;
    }
  }

  lemma EnergyIsPositive(energy: real, v0: int, v1: int, t0: int, t1: int, a: int, b: int, perKilowatt: real)
    requires v0 > 0 && v1 > 0 && t0 <= a < b <= t1 && perKilowatt > 0.0
    requires IsUnderLine(energy, v0, v1, t0, t1, a, b, perKilowatt)
    ensures energy > 0.0
  {
    LineStaysPositive(v0, v1, t0, t1, a);
    LineStaysPositive(v0, v1, t0, t1, b);
    var sum, scale := OnLine(v0, v1, t0, t1, a) + OnLine(v0, v1, t0, t1, b), 7200.0 * perKilowatt * (t1 - t0) as real;
    assert sum * (b - a) > 0 && scale > 0.0;
    if energy <= 0.0 {
      assert energy * scale <= 0.0;
    }
  }

  /** The energy of a line between a and b, if it counts: positive, and the area under the line; else 0. */
  predicate IsEnergy(energy: real, counts: bool, v0: Option<int>, v1: Option<int>, t0: int, t1: int, a: int, b: int,
                     perKilowatt: real)
    requires counts ==> v0.Some? && v1.Some?
  {
    if counts then energy > 0.0 && IsUnderLine(energy, v0.value, v1.value, t0, t1, a, b, perKilowatt) else energy == 0.0
  }

  lemma ClippedIsEnergy(v0: int, v1: int, t0: int, t1: int, a: int, b: int, perKilowatt: real)
    requires v0 > 0 && v1 > 0 && t0 <= a < b <= t1 && perKilowatt > 0.0
    ensures
      var p0, p1 := v0 as real / perKilowatt, v1 as real / perKilowatt;
      var energy := EnergyBetween(p0, p1, t1 - t0, Fraction(a, t0, t1), Fraction(b, t0, t1));
      IsEnergy(energy, true, Some(v0), Some(v1), t0, t1, a, b, perKilowatt)
  {
    var p0, p1 := v0 as real / perKilowatt, v1 as real / perKilowatt;
    Scaled(v0, perKilowatt);
    Scaled(v1, perKilowatt);
    TrapezoidUnderLine(p0, p1, v0, v1, t0, t1, a, b, perKilowatt);
    EnergyIsPositive(EnergyBetween(p0, p1, t1 - t0, Fraction(a, t0, t1), Fraction(b, t0, t1)), v0, v1, t0, t1, a, b,
                     perKilowatt);
  }

  /**
   A pair is worth heat in a window exactly when it belongs together, overlaps the window, and both of its thermal
   powers, kept in 10 W, are above 100 W; then it is worth the area under the straight line between them. Electricity
   likewise, kept in W, from 100 W on.
   */
  lemma EnergyExactly(p: Sample, c: Sample, purpose: int, lower: int, upper: int)
    requires lower < upper && purpose in {0, 1, 2}
    ensures
      var a := if p.timestamp < lower then lower else p.timestamp;
      var b := if c.timestamp > upper then upper else c.timestamp;
      var counts := Together(p, c, purpose) && a < b;
      && IsEnergy(ThermalIn(p, c, purpose, lower, upper),
                  counts && MoreThan(p.thermalPower, 10) && MoreThan(c.thermalPower, 10),
                  p.thermalPower, c.thermalPower, p.timestamp, c.timestamp, a, b, 100.0)
      && IsEnergy(ElectricalIn(p, c, purpose, lower, upper),
                  counts && MoreThan(p.electricalPower, 99) && MoreThan(c.electricalPower, 99),
                  p.electricalPower, c.electricalPower, p.timestamp, c.timestamp, a, b, 1000.0)
  {
    LinkedExactly(p, c, purpose);
    PowersExactly(p, c);
    var t0, t1 := p.timestamp, c.timestamp;
    var a, b := Later(t0, lower), Earlier(t1, upper);
    if Linked(p, c, purpose) && a < b {
      if ThermalUsable(p, c) {
        ClippedIsEnergy(p.thermalPower.value, c.thermalPower.value, t0, t1, a, b, 100.0);
      }
      if ElectricalUsable(p, c) {
        ClippedIsEnergy(p.electricalPower.value, c.electricalPower.value, t0, t1, a, b, 1000.0);
      }
    }
  }

  // ----- degree days and compressor time

  /** The mean outside temperature, in tenths of a degree, times 2. */
  function TwiceMean(p: Sample, c: Sample): int
    requires p.outside.Some? && c.outside.Some?
  {
    p.outside.value + c.outside.value
  }

  /**
   Degree-days are the degrees that the mean of the two outside temperatures lacks to the base, for the seconds of the
   interval in the window, as a part of 86400; compressor time is those seconds if the later sample runs it.
   */
  lemma OtherMeasuresExactly(p: Sample, c: Sample, base: real, lower: int, upper: int)
    ensures
      var a := if p.timestamp < lower then lower else p.timestamp;
      var b := if c.timestamp > upper then upper else c.timestamp;
      var counts := p.timeValid && c.timestamp <= p.timestamp + 600 && a < b;
      && Share(p, c, base, lower, upper, CompressorSeconds) == (if counts && c.compressor then (b - a) as real else 0.0)
      && Share(p, c, base, lower, upper, DegreeDaysSum) * 86400.0 ==
         if counts && p.outside.Some? && c.outside.Some? && base > TwiceMean(p, c) as real / 20.0
         then (base - TwiceMean(p, c) as real / 20.0) * (b - a) as real else 0.0
  {
    var a, b := Later(p.timestamp, lower), Earlier(c.timestamp, upper);
    if p.outside.Some? && c.outside.Some? && a < b {
      var o0, o1 := Degrees10(p.outside.value), Degrees10(c.outside.value);
      assert (o0 + o1) * 0.5 == TwiceMean(p, c) as real / 20.0;
      DegreeDaysAlgebra(base - (o0 + o1) * 0.5, (b - a) as real);
    }
  }

  lemma DegreeDaysAlgebra(missing: real, seconds: real)
    ensures missing * (seconds / 3600.0) / 24.0 * 86400.0 == missing * seconds
  {
    assert missing * (seconds / 3600.0) == missing * seconds / 3600.0;
  }

  /** A day's heating counts the pairs of purpose 1, its hot water those of purpose 2, each inside the day. */
  lemma SharesExactly(p: Sample, c: Sample, base: real, lower: int, upper: int)
    requires lower < upper
    ensures Share(p, c, base, lower, upper, HeatThermal) == ThermalIn(p, c, 1, lower, upper)
    ensures Share(p, c, base, lower, upper, HeatElectrical) == ElectricalIn(p, c, 1, lower, upper)
    ensures Share(p, c, base, lower, upper, DhwThermal) == ThermalIn(p, c, 2, lower, upper)
    ensures Share(p, c, base, lower, upper, DhwElectrical) == ElectricalIn(p, c, 2, lower, upper)
  {
    OnlyOverlapCounts(p, c, 1, lower, upper);
    OnlyOverlapCounts(p, c, 2, lower, upper);
  }
}
