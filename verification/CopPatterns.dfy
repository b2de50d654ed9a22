/**
 For which patterns of usable readings the COP of a range is bounded by the COP of its samples, whatever the powers.
 */
module CopPatterns {
  import opened Words
  import opened HistorySamples
  import opened EnergyPairs
  import opened EnergyCop

  /** The samples differ in nothing but the values of usable readings. */
  predicate SameButPowers(a: Sample, b: Sample) {
    && b == a.(thermalPower := b.thermalPower, electricalPower := b.electricalPower)
    && (Usable(a, true) <==> Usable(b, true)) && (Usable(a, false) <==> Usable(b, false))
    && (!Usable(a, true) ==> a.thermalPower == b.thermalPower)
    && (!Usable(a, false) ==> a.electricalPower == b.electricalPower)
  }

  /** The same samples, with any powers in the usable readings. */
  predicate SamePattern(a: seq<Sample>, b: seq<Sample>) {
    |a| == |b| && forall k :: 0 <= k < |a| ==> SameButPowers(a[k], b[k])
  }

  /** Whatever range holds the COP of the samples involved holds that of the whole. */
  ghost predicate CopBounded(samples: seq<Sample>, groupFilter: int, lower: int, upper: int) {
    forall lo: real, hi: real :: PairsWithin(samples, groupFilter, lower, upper, lo, hi) ==>
      CopOfRangeWithin(samples, groupFilter, lower, upper, lo, hi)
  }

  predicate CopOfRangeWithin(samples: seq<Sample>, groupFilter: int, lower: int, upper: int, lo: real, hi: real) {
    var cop := TotalsCop(EnergyOver(samples, groupFilter, lower, upper));
    cop.Some? ==> lo <= cop.value <= hi
  }

  /** The COP is bounded for all powers. */
  ghost predicate AlwaysBounded(samples: seq<Sample>, groupFilter: int, lower: int, upper: int) {
    forall b: seq<Sample> :: SamePattern(samples, b) ==> CopBounded(b, groupFilter, lower, upper)
  }

  // ----- what the pattern decides

  lemma SamePairs(p: Sample, c: Sample, q: Sample, e: Sample, groupFilter: int)
    requires SameButPowers(p, q) && SameButPowers(c, e)
    ensures Linked(p, c, groupFilter) <==> Linked(q, e, groupFilter)
    ensures ThermalUsable(p, c) <==> ThermalUsable(q, e)
    ensures ElectricalUsable(p, c) <==> ElectricalUsable(q, e)
  {
    assert ThermalUsable(p, c) <==> Usable(p, true) && Usable(c, true);
    assert ThermalUsable(q, e) <==> Usable(q, true) && Usable(e, true);
    assert ElectricalUsable(p, c) <==> Usable(p, false) && Usable(c, false);
    assert ElectricalUsable(q, e) <==> Usable(q, false) && Usable(e, false);
  }

  lemma SameBothOrNone(a: seq<Sample>, b: seq<Sample>, groupFilter: int, lower: int, upper: int)
    requires SamePattern(a, b) && BothOrNone(a, groupFilter, lower, upper)
    ensures BothOrNone(b, groupFilter, lower, upper)
  {
    forall i: nat | Counts(b, i, groupFilter, lower, upper)
      ensures ThermalUsable(b[i], b[i + 1]) <==> ElectricalUsable(b[i], b[i + 1])
    {
      SamePairs(a[i], a[i + 1], b[i], b[i + 1], groupFilter);
      assert Counts(a, i, groupFilter, lower, upper);
    }
  }

  lemma {:induction false} SameIntervals(a: seq<Sample>, b: seq<Sample>, groupFilter: int, lower: int, upper: int)
    requires SamePattern(a, b) && lower < upper
    ensures EnergyOver(a, groupFilter, lower, upper).intervals == EnergyOver(b, groupFilter, lower, upper).intervals
  {
    var n := |a|;
    if n >= 2 {
      var c, d := a[..n - 1], b[..n - 1];
      SameIntervals(c, d, groupFilter, lower, upper);
      SamePairs(a[n - 2], a[n - 1], b[n - 2], b[n - 1], groupFilter);
      PairAddsItsEnergy(a[n - 2], a[n - 1], groupFilter, lower, upper, EnergyOver(c, groupFilter, lower, upper));
      PairAddsItsEnergy(b[n - 2], b[n - 1], groupFilter, lower, upper, EnergyOver(d, groupFilter, lower, upper));
    }
  }

  lemma ObservedIsTime(p: Sample, c: Sample, groupFilter: int, lower: int, upper: int, thermal: bool)
    requires lower < upper
    ensures Observed(p, c, groupFilter, lower, upper, thermal) >= 0
    ensures CountsBoth(p, c, groupFilter, lower, upper) ==> Observed(p, c, groupFilter, lower, upper, thermal) > 0
  {
  }

  /** Heat and electricity are observed for some time as soon as one interval has both. */
  lemma {:induction false} IntervalsTakeTime(samples: seq<Sample>, groupFilter: int, lower: int, upper: int,
                                             thermal: bool)
    requires lower < upper
    ensures ObservedOver(samples, groupFilter, lower, upper, thermal) >= 0
    ensures EnergyOver(samples, groupFilter, lower, upper).intervals > 0 ==>
              ObservedOver(samples, groupFilter, lower, upper, thermal) > 0
  {
    var n := |samples|;
    if n >= 2 {
      var earlier := samples[..n - 1];
      IntervalsTakeTime(earlier, groupFilter, lower, upper, thermal);
      ObservedIsTime(samples[n - 2], samples[n - 1], groupFilter, lower, upper, thermal);
      PairAddsItsEnergy(samples[n - 2], samples[n - 1], groupFilter, lower, upper,
                        EnergyOver(earlier, groupFilter, lower, upper));
    }
  }

  // ----- more power is more energy

  function Reading(s: Sample, thermal: bool): int
    requires Usable(s, thermal)
  {
    if thermal then s.thermalPower.value else s.electricalPower.value
  }

  function EnergyOf(t: Totals, thermal: bool): real {
    if thermal then t.thermal else t.electrical
  }

  function EnergyIn(p: Sample, c: Sample, groupFilter: int, lower: int, upper: int, thermal: bool): real {
    if thermal then ThermalIn(p, c, groupFilter, lower, upper) else ElectricalIn(p, c, groupFilter, lower, upper)
  }

  /** b has at least the heat (or the electricity) of a, and otherwise the same readings. */
  predicate AtLeast(a: Sample, b: Sample, thermal: bool) {
    && SameButPowers(a, b)
    && (if thermal then a.electricalPower == b.electricalPower else a.thermalPower == b.thermalPower)
    && (Usable(a, thermal) ==> Reading(a, thermal) <= Reading(b, thermal))
  }

  predicate More(a: Sample, b: Sample, thermal: bool) {
    AtLeast(a, b, thermal) && Usable(a, thermal) && Reading(a, thermal) < Reading(b, thermal)
  }

  lemma WeightsArePositive(d: int, f: real, g: real)
    requires 0 < d && 0.0 <= f < g <= 1.0
    ensures FirstWeight(d, f, g) > 0.0 && LastWeight(d, f, g) > 0.0
  {
    var hours, part, first, last := d as real / 7200.0, g - f, 2.0 - (f + g), f + g;
    PositiveProduct(part, first);
    PositiveProduct(part, last);
    PositiveProduct(hours, part * first);
    PositiveProduct(hours, part * last);
  }

  lemma FractionsDiffer(a: int, b: int, t0: int, t1: int)
    requires t0 <= a < b <= t1
    ensures 0.0 <= Fraction(a, t0, t1) < Fraction(b, t0, t1) <= 1.0
  {
    FractionsAreOrdered(a, b, t0, t1);
    var x, y, d := (a - t0) as real, (b - t0) as real, (t1 - t0) as real;
    assert x / d * d == x && y / d * d == y;
  }

  lemma WeightedRises(v: real, w: real, p0: real, p1: real, q0: real, q1: real)
    requires v > 0.0 && w > 0.0 && p0 <= q0 && p1 <= q1
    ensures v * p0 + w * p1 <= v * q0 + w * q1
    ensures p0 < q0 || p1 < q1 ==> v * p0 + w * p1 < v * q0 + w * q1
  {
    if p0 < q0 {
      PositiveProduct(v, q0 - p0);
    }
    if p1 < q1 {
      PositiveProduct(w, q1 - p1);
    }
    assert v * (q0 - p0) == v * q0 - v * p0;
    assert w * (q1 - p1) == w * q1 - w * p1;
  }

  lemma BetweenRises(p0: real, p1: real, q0: real, q1: real, d: int, f: real, g: real)
    requires 0 < d && 0.0 <= f < g <= 1.0 && p0 <= q0 && p1 <= q1
    ensures EnergyBetween(p0, p1, d, f, g) <= EnergyBetween(q0, q1, d, f, g)
    ensures p0 < q0 || p1 < q1 ==> EnergyBetween(p0, p1, d, f, g) < EnergyBetween(q0, q1, d, f, g)
  {
    WeightsArePositive(d, f, g);
    EnergyIsWeighted(p0, p1, d, f, g);
    EnergyIsWeighted(q0, q1, d, f, g);
    WeightedRises(FirstWeight(d, f, g), LastWeight(d, f, g), p0, p1, q0, q1);
  }

  lemma CurveRises(p0: real, p1: real, q0: real, q1: real, t0: int, t1: int, lower: int, upper: int)
    requires p0 <= q0 && p1 <= q1 && t0 < t1 && lower < t1 && t0 < upper && lower < upper
    ensures ClippedEnergy(p0, p1, t0, t1, lower, upper) <= ClippedEnergy(q0, q1, t0, t1, lower, upper)
    ensures p0 < q0 || p1 < q1 ==>
              ClippedEnergy(p0, p1, t0, t1, lower, upper) < ClippedEnergy(q0, q1, t0, t1, lower, upper)
  {
    var a, b := Later(t0, lower), Earlier(t1, upper);
    FractionsDiffer(a, b, t0, t1);
    BetweenRises(p0, p1, q0, q1, t1 - t0, Fraction(a, t0, t1), Fraction(b, t0, t1));
  }

  function Kw(x: int, thermal: bool): real {
    if thermal then Kw100(x) else Kw1000(x)
  }

  lemma EnergyOfReadings(p: Sample, c: Sample, groupFilter: int, lower: int, upper: int, thermal: bool)
    ensures EnergyIn(p, c, groupFilter, lower, upper, thermal) ==
            if Linked(p, c, groupFilter) && Usable(p, thermal) && Usable(c, thermal)
            then ClippedEnergy(Kw(Reading(p, thermal), thermal), Kw(Reading(c, thermal), thermal), p.timestamp,
                               c.timestamp, lower, upper)
            else 0.0
  {
  }

  /** The pair is counted for this kind, and one of its ends has more. */
  predicate GainsMore(p: Sample, c: Sample, q: Sample, e: Sample, groupFilter: int, lower: int, upper: int,
                      thermal: bool) {
    && Linked(p, c, groupFilter) && Overlaps(p, c, lower, upper) && Usable(p, thermal) && Usable(c, thermal)
    && (More(p, q, thermal) || More(c, e, thermal))
  }

  lemma PairRises(p: Sample, c: Sample, q: Sample, e: Sample, groupFilter: int, lower: int, upper: int, thermal: bool)
    requires lower < upper && AtLeast(p, q, thermal) && AtLeast(c, e, thermal)
    ensures EnergyIn(p, c, groupFilter, lower, upper, thermal) <= EnergyIn(q, e, groupFilter, lower, upper, thermal)
    ensures GainsMore(p, c, q, e, groupFilter, lower, upper, thermal) ==>
              EnergyIn(p, c, groupFilter, lower, upper, thermal) < EnergyIn(q, e, groupFilter, lower, upper, thermal)
  {
    SamePairs(p, c, q, e, groupFilter);
    EnergyOfReadings(p, c, groupFilter, lower, upper, thermal);
    EnergyOfReadings(q, e, groupFilter, lower, upper, thermal);
    if Linked(p, c, groupFilter) && Usable(p, thermal) && Usable(c, thermal) && Overlaps(p, c, lower, upper) {
      CurveRises(Kw(Reading(p, thermal), thermal), Kw(Reading(c, thermal), thermal), Kw(Reading(q, thermal), thermal),
                 Kw(Reading(e, thermal), thermal), p.timestamp, c.timestamp, lower, upper);
    }
  }

  lemma OtherPairStays(p: Sample, c: Sample, q: Sample, e: Sample, groupFilter: int, lower: int, upper: int,
                       thermal: bool)
    requires AtLeast(p, q, thermal) && AtLeast(c, e, thermal)
    ensures EnergyIn(p, c, groupFilter, lower, upper, !thermal) == EnergyIn(q, e, groupFilter, lower, upper, !thermal)
  {
    SamePairs(p, c, q, e, groupFilter);
  }

  predicate AllAtLeast(a: seq<Sample>, b: seq<Sample>, thermal: bool) {
    |a| == |b| && forall k :: 0 <= k < |a| ==> AtLeast(a[k], b[k], thermal)
  }

  /** Pair i gains more. */
  predicate PairHasMore(a: seq<Sample>, b: seq<Sample>, i: nat, groupFilter: int, lower: int, upper: int,
                        thermal: bool)
    requires |a| == |b|
  {
    i + 1 < |a| && GainsMore(a[i], a[i + 1], b[i], b[i + 1], groupFilter, lower, upper, thermal)
  }

  /** One energy has not fallen, and the other is the same. */
  predicate Risen(t: Totals, r: Totals, thermal: bool) {
    EnergyOf(t, thermal) <= EnergyOf(r, thermal) && EnergyOf(t, !thermal) == EnergyOf(r, !thermal)
  }

  lemma PairAdds(p: Sample, c: Sample, groupFilter: int, lower: int, upper: int, t: Totals, thermal: bool)
    requires lower < upper
    ensures EnergyOf(AddEnergyPair(p, c, groupFilter, lower, upper, t).1, thermal) ==
            EnergyOf(t, thermal) + EnergyIn(p, c, groupFilter, lower, upper, thermal)
  {
    PairAddsItsEnergy(p, c, groupFilter, lower, upper, t);
  }

  /** One more pair keeps the order, and makes it strict if the pair is counted and has more. */
  lemma OnePairRises(p: Sample, c: Sample, q: Sample, e: Sample, t: Totals, r: Totals, groupFilter: int, lower: int,
                     upper: int, thermal: bool)
    requires lower < upper && AtLeast(p, q, thermal) && AtLeast(c, e, thermal) && Risen(t, r, thermal)
    ensures
      var t', r' := AddEnergyPair(p, c, groupFilter, lower, upper, t).1,
                    AddEnergyPair(q, e, groupFilter, lower, upper, r).1;
      && Risen(t', r', thermal)
      && (EnergyOf(t, thermal) < EnergyOf(r, thermal) || GainsMore(p, c, q, e, groupFilter, lower, upper, thermal) ==>
            EnergyOf(t', thermal) < EnergyOf(r', thermal))
  {
    PairAdds(p, c, groupFilter, lower, upper, t, thermal);
    PairAdds(q, e, groupFilter, lower, upper, r, thermal);
    PairAdds(p, c, groupFilter, lower, upper, t, !thermal);
    PairAdds(q, e, groupFilter, lower, upper, r, !thermal);
    PairRises(p, c, q, e, groupFilter, lower, upper, thermal);
    OtherPairStays(p, c, q, e, groupFilter, lower, upper, thermal);
  }

  lemma LastPairAdds(samples: seq<Sample>, groupFilter: int, lower: int, upper: int)
    requires |samples| >= 2
    ensures
      var n := |samples|;
      EnergyOver(samples, groupFilter, lower, upper) ==
      AddEnergyPair(samples[n - 2], samples[n - 1], groupFilter, lower, upper,
                    EnergyOver(samples[..n - 1], groupFilter, lower, upper)).1
  {
  }

  lemma SamePairHasMore(a: seq<Sample>, b: seq<Sample>, i: nat, groupFilter: int, lower: int, upper: int,
                        thermal: bool)
    requires |a| == |b| && i + 2 < |a|
    ensures PairHasMore(a, b, i, groupFilter, lower, upper, thermal) <==>
            PairHasMore(a[..|a| - 1], b[..|b| - 1], i, groupFilter, lower, upper, thermal)
  {
  }

  /** The one energy rises, strictly if some counted pair has more, and the other does not change. */
  lemma {:induction false} EnergyRises(a: seq<Sample>, b: seq<Sample>, i: nat, groupFilter: int, lower: int,
                                       upper: int, thermal: bool)
    requires lower < upper && AllAtLeast(a, b, thermal)
    ensures
      var t, r := EnergyOver(a, groupFilter, lower, upper), EnergyOver(b, groupFilter, lower, upper);
      && Risen(t, r, thermal)
      && (PairHasMore(a, b, i, groupFilter, lower, upper, thermal) ==> EnergyOf(t, thermal) < EnergyOf(r, thermal))
  {
    var n := |a|;
    if n >= 2 {
      LastPairAdds(a, groupFilter, lower, upper);
      LastPairAdds(b, groupFilter, lower, upper);
      var t, r := EnergyOver(a[..n - 1], groupFilter, lower, upper), EnergyOver(b[..n - 1], groupFilter, lower, upper);
      EnergyRises(a[..n - 1], b[..n - 1], i, groupFilter, lower, upper, thermal);
      OnePairRises(a[n - 2], a[n - 1], b[n - 2], b[n - 1], t, r, groupFilter, lower, upper, thermal);
      if i + 2 < n {
        SamePairHasMore(a, b, i, groupFilter, lower, upper, thermal);
      }
    }
  }

  // ----- powers that break the bound

  /** Every usable reading replaced: 2 kW of heat, 1 kW of electricity. */
  function SteadyOne(s: Sample): Sample {
    s.(thermalPower := if Usable(s, true) then Some(200) else s.thermalPower,
       electricalPower := if Usable(s, false) then Some(1000) else s.electricalPower)
  }

  function AsSteady(samples: seq<Sample>): (r: seq<Sample>)
    ensures |r| == |samples| && forall k :: 0 <= k < |r| ==> r[k] == SteadyOne(samples[k])
  {
    seq(|samples|, k requires 0 <= k < |samples| => SteadyOne(samples[k]))
  }

  /** One more kilowatt of heat, or of electricity. */
  function Boosted(s: Sample, thermal: bool): Sample {
    if thermal then s.(thermalPower := Some(300)) else s.(electricalPower := Some(2000))
  }

  lemma SteadyIsSamePattern(samples: seq<Sample>)
    ensures SamePattern(samples, AsSteady(samples)) && Steady(AsSteady(samples), 200, 1000)
  {
    forall k | 0 <= k < |samples|
      ensures SameButPowers(samples[k], AsSteady(samples)[k]) && SteadySample(AsSteady(samples)[k], 200, 1000)
    {
    }
  }

  /** A steady sample has a COP of 2, or none. */
  lemma SteadyCop(s: Sample)
    requires SteadySample(s, 200, 1000)
    ensures CopWithin(s, 2.0, 2.0)
  {
    assert InstantaneousCop(s).Some? ==> Usable(s, true) && Usable(s, false);
    assert Kw100(200) / Kw1000(1000) == 2.0;
  }

  lemma SteadyPairsWithin(samples: seq<Sample>, groupFilter: int, lower: int, upper: int)
    requires Steady(samples, 200, 1000)
    ensures PairsWithin(samples, groupFilter, lower, upper, 2.0, 2.0)
  {
    forall i: nat | Counts(samples, i, groupFilter, lower, upper)
      ensures CopWithin(samples[i], 2.0, 2.0) && CopWithin(samples[i + 1], 2.0, 2.0)
    {
      SteadyCop(samples[i]);
      SteadyCop(samples[i + 1]);
    }
  }

  lemma PositiveTime(seconds: int)
    requires seconds > 0
    ensures SteadyOver(Kw100(200), seconds) > 0.0 && SteadyOver(Kw1000(1000), seconds) > 0.0
  {
    PositiveProduct(2.0, seconds as real / 3600.0);
  }

  /** At 2 kW and 1 kW both energies are positive as soon as one interval has both. */
  lemma SteadyTotals(samples: seq<Sample>, groupFilter: int, lower: int, upper: int)
    requires lower < upper && Steady(samples, 200, 1000)
    requires EnergyOver(samples, groupFilter, lower, upper).intervals > 0
    ensures
      var t := EnergyOver(samples, groupFilter, lower, upper);
      t.thermal > 0.0 && t.electrical > 0.0
  {
    SteadyEnergy(samples, groupFilter, lower, upper, 200, 1000);
    IntervalsTakeTime(samples, groupFilter, lower, upper, true);
    IntervalsTakeTime(samples, groupFilter, lower, upper, false);
    PositiveTime(ObservedOver(samples, groupFilter, lower, upper, true));
    PositiveTime(ObservedOver(samples, groupFilter, lower, upper, false));
  }

  lemma OnlyOneCop(t: Totals)
    requires t.intervals > 0 && t.thermal > 0.0 && t.electrical > 0.0
    ensures TotalsCop(t) == Some(2.0) <==> t.thermal == 2.0 * t.electrical
  {
    RatioIsCop(t.thermal, t.electrical, 2.0);
  }

  /** Samples whose COP is 2 or none, and a range with another COP. */
  lemma Unbounded(samples: seq<Sample>, groupFilter: int, lower: int, upper: int)
    requires PairsWithin(samples, groupFilter, lower, upper, 2.0, 2.0)
    requires
      var t := EnergyOver(samples, groupFilter, lower, upper);
      t.intervals > 0 && t.thermal > 0.0 && t.electrical > 0.0 && t.thermal != 2.0 * t.electrical
    ensures !CopBounded(samples, groupFilter, lower, upper)
  {
    OnlyOneCop(EnergyOver(samples, groupFilter, lower, upper));
    assert !CopOfRangeWithin(samples, groupFilter, lower, upper, 2.0, 2.0);
  }

  /** Sample j has a usable reading of the one kind only, and pair i, of which it is an end, counts for that kind. */
  predicate OneSided(samples: seq<Sample>, i: nat, j: nat, groupFilter: int, lower: int, upper: int, thermal: bool) {
    && Counts(samples, i, groupFilter, lower, upper) && i <= j <= i + 1
    && Usable(samples[i], thermal) && Usable(samples[i + 1], thermal) && !Usable(samples[j], !thermal)
  }

  /** More power in such a sample adds energy of the one kind, and gives the sample no COP. */
  lemma BoostedSample(a: seq<Sample>, i: nat, j: nat, groupFilter: int, lower: int, upper: int, thermal: bool)
    requires Steady(a, 200, 1000) && OneSided(a, i, j, groupFilter, lower, upper, thermal)
    ensures
      var b := a[j := Boosted(a[j], thermal)];
      && AllAtLeast(a, b, thermal) && PairHasMore(a, b, i, groupFilter, lower, upper, thermal)
      && SamePattern(a, b) && PairsWithin(b, groupFilter, lower, upper, 2.0, 2.0)
  {
    var b := a[j := Boosted(a[j], thermal)];
    assert More(a[j], b[j], thermal);
    forall k | 0 <= k < |a| ensures AtLeast(a[k], b[k], thermal) {
    }
    forall k | 0 <= k < |b| ensures CopWithin(b[k], 2.0, 2.0) {
      if k == j {
        assert InstantaneousCop(b[j]).None?;
      } else {
        SteadyCop(a[k]);
      }
    }
  }

  lemma BoostBreaksTheBound(a: seq<Sample>, i: nat, j: nat, groupFilter: int, lower: int, upper: int, thermal: bool)
    requires lower < upper && Steady(a, 200, 1000) && OneSided(a, i, j, groupFilter, lower, upper, thermal)
    requires
      var t := EnergyOver(a, groupFilter, lower, upper);
      t.intervals > 0 && t.thermal == 2.0 * t.electrical
    ensures
      var b := a[j := Boosted(a[j], thermal)];
      SamePattern(a, b) && !CopBounded(b, groupFilter, lower, upper)
  {
    var b := a[j := Boosted(a[j], thermal)];
    BoostedSample(a, i, j, groupFilter, lower, upper, thermal);
    SteadyTotals(a, groupFilter, lower, upper);
    EnergyRises(a, b, i, groupFilter, lower, upper, thermal);
    SameIntervals(a, b, groupFilter, lower, upper);
    Unbounded(b, groupFilter, lower, upper);
  }

  lemma SamePatternJoins(a: seq<Sample>, b: seq<Sample>, c: seq<Sample>)
    requires SamePattern(a, b) && SamePattern(b, c)
    ensures SamePattern(a, c)
  {
    forall k | 0 <= k < |a| ensures SameButPowers(a[k], c[k]) {
      assert SameButPowers(a[k], b[k]) && SameButPowers(b[k], c[k]);
    }
  }

  lemma SteadyIsOneSided(samples: seq<Sample>, i: nat, j: nat, groupFilter: int, lower: int, upper: int, thermal: bool)
    requires OneSided(samples, i, j, groupFilter, lower, upper, thermal)
    ensures OneSided(AsSteady(samples), i, j, groupFilter, lower, upper, thermal)
  {
    var a := AsSteady(samples);
    assert SameButPowers(samples[i], a[i]) && SameButPowers(samples[i + 1], a[i + 1]);
    SamePairs(samples[i], samples[i + 1], a[i], a[i + 1], groupFilter);
  }

  lemma UnboundedPattern(samples: seq<Sample>, b: seq<Sample>, groupFilter: int, lower: int, upper: int)
    requires SamePattern(samples, b) && !CopBounded(b, groupFilter, lower, upper)
    ensures !AlwaysBounded(samples, groupFilter, lower, upper)
  {
  }

  /** With a counted one-sided pair and an interval, some powers push the COP of the range past those of the samples. */
  lemma OneSidedPairIsUnbounded(samples: seq<Sample>, i: nat, j: nat, groupFilter: int, lower: int, upper: int,
                                thermal: bool)
    requires lower < upper && OneSided(samples, i, j, groupFilter, lower, upper, thermal)
    requires EnergyOver(samples, groupFilter, lower, upper).intervals > 0
    ensures !AlwaysBounded(samples, groupFilter, lower, upper)
  {
    var a := AsSteady(samples);
    var t := EnergyOver(a, groupFilter, lower, upper);
    SteadyIsSamePattern(samples);
    SameIntervals(samples, a, groupFilter, lower, upper);
    SteadyTotals(a, groupFilter, lower, upper);
    if t.thermal == 2.0 * t.electrical {
      var b := a[j := Boosted(a[j], thermal)];
      SteadyIsOneSided(samples, i, j, groupFilter, lower, upper, thermal);
      BoostBreaksTheBound(a, i, j, groupFilter, lower, upper, thermal);
      SamePatternJoins(samples, a, b);
      UnboundedPattern(samples, b, groupFilter, lower, upper);
    } else {
      SteadyPairsWithin(a, groupFilter, lower, upper);
      Unbounded(a, groupFilter, lower, upper);
      UnboundedPattern(samples, a, groupFilter, lower, upper);
    }
  }

  /** A counted pair that adds only one energy has an end without a usable reading of the other. */
  lemma HalfUsablePair(samples: seq<Sample>, i: nat, groupFilter: int, lower: int, upper: int)
    requires Counts(samples, i, groupFilter, lower, upper)
    requires ThermalUsable(samples[i], samples[i + 1]) != ElectricalUsable(samples[i], samples[i + 1])
    ensures
      var thermal := ThermalUsable(samples[i], samples[i + 1]);
      OneSided(samples, i, if Usable(samples[i], !thermal) then i + 1 else i, groupFilter, lower, upper, thermal)
  {
  }

  lemma SamePatternIsBounded(samples: seq<Sample>, b: seq<Sample>, groupFilter: int, lower: int, upper: int)
    requires lower < upper && SamePattern(samples, b)
    requires BothOrNone(samples, groupFilter, lower, upper) ||
             EnergyOver(samples, groupFilter, lower, upper).intervals == 0
    ensures CopBounded(b, groupFilter, lower, upper)
  {
    SameIntervals(samples, b, groupFilter, lower, upper);
    forall lo: real, hi: real | PairsWithin(b, groupFilter, lower, upper, lo, hi)
      ensures CopOfRangeWithin(b, groupFilter, lower, upper, lo, hi)
    {
      if BothOrNone(samples, groupFilter, lower, upper) {
        SameBothOrNone(samples, b, groupFilter, lower, upper);
        CopLiesBetweenSampleCops(b, groupFilter, lower, upper, lo, hi);
      }
    }
  }

  /**
   A pattern of usable readings keeps the COP of the range within those of its samples for all powers if and only if
   every counted pair adds both energies or none, or no pair adds both.
   */
  lemma PatternBoundsCopExactly(samples: seq<Sample>, groupFilter: int, lower: int, upper: int)
    requires lower < upper
    ensures AlwaysBounded(samples, groupFilter, lower, upper) <==>
            || BothOrNone(samples, groupFilter, lower, upper)
            || EnergyOver(samples, groupFilter, lower, upper).intervals == 0
  {
    if BothOrNone(samples, groupFilter, lower, upper) ||
       EnergyOver(samples, groupFilter, lower, upper).intervals == 0 {
      forall b: seq<Sample> | SamePattern(samples, b) ensures CopBounded(b, groupFilter, lower, upper) {
        SamePatternIsBounded(samples, b, groupFilter, lower, upper);
      }
    } else {
      var i: nat :| Counts(samples, i, groupFilter, lower, upper) &&
                    ThermalUsable(samples[i], samples[i + 1]) != ElectricalUsable(samples[i], samples[i + 1]);
      var thermal := ThermalUsable(samples[i], samples[i + 1]);
      HalfUsablePair(samples, i, groupFilter, lower, upper);
      OneSidedPairIsUnbounded(samples, i, if Usable(samples[i], !thermal) then i + 1 else i, groupFilter, lower, upper,
                              thermal);
    }
  }
}
