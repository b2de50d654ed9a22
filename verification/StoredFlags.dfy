/** What storing a sample does to its flags, which a row does not carry, and so to the energy that replay counts. */
module StoredFlags {
  import opened Words
  import opened HistorySamples
  import opened CsvNumbers
  import opened HistoryCsv
  import opened EnergyPairs
  import opened DailyEnergy
  import opened HistoryReplay
  import opened ReplayOfBoots
  import EnergyCop

  const STATE_UNKNOWN := 0
  const STATE_STANDBY := 1
  const STATE_CIRCULATION := 5

  // ----- the flags of a new sample

  /** The topics that decide the flags; None when a topic cannot be read. The frequency is in Hz. */
  datatype Topics = Topics(forceDhw: Option<int>, valve: Option<int>, hz: Option<real>)

  predicate HeaterOn(s: Sample) {
    s.extra.internalHeater == Some(true) || s.extra.externalHeater == Some(true)
  }

  function StateOf(s: Sample): nat {
    if s.defrost then STATE_DEFROST
    else if s.valveState == 1 && (s.compressor || HeaterOn(s)) then STATE_DHW
    else if s.compressor then STATE_HEATING
    else if !s.heatpump then STATE_UNKNOWN
    else if s.extra.flow.Some? && s.extra.flow.value > 20 then STATE_CIRCULATION
    else STATE_STANDBY
  }

  /** The flags and the state are those that `makeSample` derives. */
  ghost predicate Made(s: Sample, r: Topics) {
    && (r.hz.Some? ==> r.hz.value >= 0.0)
    && s.extra.compressorHz == (if r.hz.None? then None else Some(ScaledUnsigned(r.hz.value, 1)))
    && s.compressor == (r.hz.Some? && r.hz.value > 0.5)
    && s.valveState == (if r.valve.None? then 0 else Clamped(r.valve.value, 0, 255))
    && s.dhwActive == ((r.forceDhw.Some? && r.forceDhw.value != 0) || r.valve == Some(1))
    && s.operatingState == StateOf(s)
  }

  predicate CountedMode(mode: nat) {
    mode == 1 || mode == 3 || mode == 4 || mode == 5 || mode == 7
  }

  /** DHW is forced while the valve is not on DHW, or not there yet. */
  predicate Forced(s: Sample) {
    s.compressor && s.dhwActive && s.valveState != 1
  }

  /** The compressor runs at a frequency that rounds to 0.5 Hz. */
  predicate BarelyRuns(r: Topics) {
    r.hz.Some? && 0.5 < r.hz.value < 0.55
  }

  /** A heater alone makes DHW, with no reading of the frequency. */
  predicate HeaterOnly(s: Sample, r: Topics) {
    r.hz.None? && s.valveState == 1 && HeaterOn(s)
  }

  predicate GroupSurvives(s: Sample) {
    EfficiencyGroup(Restored(s)) == EfficiencyGroup(s)
  }

  lemma TenthsOfHz(hz: real)
    requires hz >= 0.0
    ensures ScaledUnsigned(hz, 1) > 5 <==> hz >= 0.55
  {
    assert Pow10(1) == 10;
    assert Times(hz, 1) == hz * 10.0;
  }

  lemma MadeCompressor(s: Sample, r: Topics)
    requires Made(s, r)
    ensures r.hz.Some? ==> Restored(s).compressor == (r.hz.value >= 0.55)
    ensures r.hz.None? ==> !s.compressor && Restored(s).compressor == (s.defrost || HeaterOnly(s, r))
  {
    if r.hz.Some? {
      TenthsOfHz(r.hz.value);
    }
  }

  /** Storing keeps the efficiency group of a sample, except in three cases of a counted mode without defrost. */
  lemma GroupSurvivesUnless(s: Sample, r: Topics)
    requires Made(s, r)
    ensures GroupSurvives(s) <==>
            !(CountedMode(s.operatingMode) && !s.defrost && (BarelyRuns(r) || HeaterOnly(s, r) || Forced(s)))
  {
    MadeCompressor(s, r);
    assert r.valve == Some(1) ==> s.valveState == 1;
    assert s.valveState == 1 ==> r.valve == Some(1);
    assert Restored(s).dhwActive == (s.valveState == 1);
  }

  /** Forced DHW turns into heating; nothing turns into DHW except for a heater without a frequency reading. */
  predicate LosesOnlyDhw(s: Sample) {
    GroupSurvives(s) || (EfficiencyGroup(s) == 2 && EfficiencyGroup(Restored(s)) == 1)
  }

  lemma ForcedDhwBecomesHeating(s: Sample, r: Topics)
    requires Made(s, r) && !BarelyRuns(r) && !HeaterOnly(s, r)
    ensures LosesOnlyDhw(s)
    ensures CountedMode(s.operatingMode) && !s.defrost && Forced(s) ==>
            EfficiencyGroup(s) == 2 && EfficiencyGroup(Restored(s)) == 1
  {
    MadeCompressor(s, r);
    GroupSurvivesUnless(s, r);
    assert s.valveState == 1 ==> r.valve == Some(1);
  }

  // ----- one pair

  /** The group in which a pair is counted; 0 when it is not. */
  function CountedGroup(p: Sample, c: Sample): int {
    if Linked(p, c, 0) then EfficiencyGroup(c) else 0
  }

  predicate PairSurvives(p: Sample, c: Sample) {
    CountedGroup(Restored(p), Restored(c)) == CountedGroup(p, c)
  }

  function HeatingOf(thermal: bool): Measure {
    if thermal then HeatThermal else HeatElectrical
  }

  function DhwOf(thermal: bool): Measure {
    if thermal then DhwThermal else DhwElectrical
  }

  /** The power is known at both ends, and part of the interval lies in the window. */
  predicate Powered(p: Sample, c: Sample, lower: int, upper: int, thermal: bool) {
    && (if thermal then ThermalUsable(p, c) else ElectricalUsable(p, c))
    && Later(p.timestamp, lower) < Earlier(c.timestamp, upper)
  }

  /** The energy of an interval in the window, whatever its group. */
  function PairEnergy(p: Sample, c: Sample, lower: int, upper: int, thermal: bool): real
  {
    var lo, hi := Later(p.timestamp, lower), Earlier(c.timestamp, upper);
    if !Powered(p, c, lower, upper, thermal) then 0.0
    else if thermal
    then ClippedEnergy(Kw100(p.thermalPower.value), Kw100(c.thermalPower.value), p.timestamp, c.timestamp, lo, hi)
    else ClippedEnergy(Kw1000(p.electricalPower.value), Kw1000(c.electricalPower.value), p.timestamp, c.timestamp, lo,
      hi)
  }

  lemma SharesByGroup(p: Sample, c: Sample, base: real, lower: int, upper: int, thermal: bool)
    ensures Share(p, c, base, lower, upper, HeatingOf(thermal)) ==
            if CountedGroup(p, c) == 1 then PairEnergy(p, c, lower, upper, thermal) else 0.0
    ensures Share(p, c, base, lower, upper, DhwOf(thermal)) ==
            if CountedGroup(p, c) == 2 then PairEnergy(p, c, lower, upper, thermal) else 0.0
  {
    assert Linked(p, c, 1) <==> CountedGroup(p, c) == 1;
    assert Linked(p, c, 2) <==> CountedGroup(p, c) == 2;
  }

  lemma SameEnergyRestored(p: Sample, c: Sample, lower: int, upper: int, thermal: bool)
    ensures PairEnergy(Restored(p), Restored(c), lower, upper, thermal) == PairEnergy(p, c, lower, upper, thermal)
  {
  }

  lemma PositiveTrapezoid(p0: real, p1: real, elapsed: int)
    requires p0 > 0.0 && p1 > 0.0 && elapsed > 0
    ensures Trapezoid(p0, p1, elapsed) > 0.0
  {
    EnergyCop.PositiveProduct((p0 + p1) * 0.5, elapsed as real / 3600.0);
  }

  lemma CurveIsPositive(p0: real, p1: real, t0: int, t1: int, lo: int, hi: int)
    requires p0 > 0.0 && p1 > 0.0 && t0 <= lo < hi <= t1
    ensures ClippedEnergy(p0, p1, t0, t1, lo, hi) > 0.0
  {
    var f, g := Fraction(lo, t0, t1), Fraction(hi, t0, t1);
    FractionBounds(lo, t0, t1);
    FractionBounds(hi, t0, t1);
    PowerStaysPositive(p0, p1, f);
    PowerStaysPositive(p0, p1, g);
    PositiveTrapezoid(PowerAt(p0, p1, f), PowerAt(p0, p1, g), hi - lo);
    TrapezoidTelescopes(p0, p1, t0, t1, lo, hi);
  }

  lemma PoweredIsPositive(p: Sample, c: Sample, lower: int, upper: int, thermal: bool)
    ensures PairEnergy(p, c, lower, upper, thermal) >= 0.0
    ensures PairEnergy(p, c, lower, upper, thermal) > 0.0 <==> Powered(p, c, lower, upper, thermal)
  {
    if Powered(p, c, lower, upper, thermal) {
      var lo, hi := Later(p.timestamp, lower), Earlier(c.timestamp, upper);
      if thermal {
        CurveIsPositive(Kw100(p.thermalPower.value), Kw100(c.thermalPower.value), p.timestamp, c.timestamp, lo, hi);
      } else {
        CurveIsPositive(Kw1000(p.electricalPower.value), Kw1000(c.electricalPower.value), p.timestamp, c.timestamp,
          lo, hi);
      }
    }
  }

  /** A pair keeps its heating and DHW energy if and only if it keeps the group it is counted in, or has no energy. */
  lemma EnergySurvivesExactly(p: Sample, c: Sample, base: real, lower: int, upper: int, thermal: bool)
    ensures
      var heating, dhw := HeatingOf(thermal), DhwOf(thermal);
      && Share(Restored(p), Restored(c), base, lower, upper, heating) == Share(p, c, base, lower, upper, heating)
      && Share(Restored(p), Restored(c), base, lower, upper, dhw) == Share(p, c, base, lower, upper, dhw)
      <==> PairSurvives(p, c) || !Powered(p, c, lower, upper, thermal)
  {
    SharesByGroup(p, c, base, lower, upper, thermal);
    SharesByGroup(Restored(p), Restored(c), base, lower, upper, thermal);
    SameEnergyRestored(p, c, lower, upper, thermal);
    PoweredIsPositive(p, c, lower, upper, thermal);
  }

  /** If storing only loses DHW, a pair can only gain heating and lose DHW. */
  lemma EnergyMovesOneWay(p: Sample, c: Sample, base: real, lower: int, upper: int, thermal: bool)
    requires p.timeValid && c.timeValid && LosesOnlyDhw(p) && LosesOnlyDhw(c)
    ensures Share(Restored(p), Restored(c), base, lower, upper, HeatingOf(thermal)) >=
            Share(p, c, base, lower, upper, HeatingOf(thermal))
    ensures Share(Restored(p), Restored(c), base, lower, upper, DhwOf(thermal)) <=
            Share(p, c, base, lower, upper, DhwOf(thermal))
  {
    SharesByGroup(p, c, base, lower, upper, thermal);
    SharesByGroup(Restored(p), Restored(c), base, lower, upper, thermal);
    SameEnergyRestored(p, c, lower, upper, thermal);
    PoweredIsPositive(p, c, lower, upper, thermal);
  }

  // ----- sums over adjacent samples

  function AllRestored(samples: seq<Sample>): (r: seq<Sample>)
    ensures |r| == |samples| && forall k :: 0 <= k < |samples| ==> r[k] == Restored(samples[k])
  {
    seq(|samples|, k requires 0 <= k < |samples| => Restored(samples[k]))
  }

  lemma RestoredSnoc(samples: seq<Sample>, s: Sample)
    ensures AllRestored(samples + [s]) == AllRestored(samples) + [Restored(s)]
  {
  }

  lemma RestoredJoined(a: seq<Sample>, b: seq<Sample>)
    ensures AllRestored(a + b) == AllRestored(a) + AllRestored(b)
  {
  }

  /** Every pair of adjacent samples keeps its group or has no energy in the window. */
  predicate PairsSurvive(samples: seq<Sample>, lower: int, upper: int, thermal: bool) {
    forall k :: 0 < k < |samples| ==> PairKeepsEnergy(samples[k - 1], samples[k], lower, upper, thermal)
  }

  predicate PairKeepsEnergy(p: Sample, c: Sample, lower: int, upper: int, thermal: bool) {
    PairSurvives(p, c) || !Powered(p, c, lower, upper, thermal)
  }

  predicate NewPairSurvives(p: Option<Sample>, c: Sample, lower: int, upper: int, thermal: bool) {
    p.None? || PairKeepsEnergy(p.value, c, lower, upper, thermal)
  }

  lemma PairsSurviveSnoc(samples: seq<Sample>, s: Sample, lower: int, upper: int, thermal: bool)
    ensures PairsSurvive(samples + [s], lower, upper, thermal) <==>
            PairsSurvive(samples, lower, upper, thermal) && NewPairSurvives(LastOf(samples), s, lower, upper, thermal)
  {
    var all := samples + [s];
    assert forall k :: 0 <= k < |samples| ==> all[k] == samples[k];
    if PairsSurvive(all, lower, upper, thermal) {
      forall k | 0 < k < |samples| ensures PairKeepsEnergy(samples[k - 1], samples[k], lower, upper, thermal) {
        assert PairKeepsEnergy(all[k - 1], all[k], lower, upper, thermal);
      }
      if samples != [] {
        assert PairKeepsEnergy(all[|samples| - 1], all[|samples|], lower, upper, thermal);
      }
    }
  }

  /** The last interval of a run, live and restored. */
  lemma LastInterval(samples: seq<Sample>, s: Sample, base: real, lower: int, upper: int, thermal: bool)
    ensures
      var heating, dhw := HeatingOf(thermal), DhwOf(thermal);
      && NewShare(LastOf(AllRestored(samples)), Restored(s), base, lower, upper, heating) ==
         NewShare(LastOf(samples), s, base, lower, upper, heating)
      && NewShare(LastOf(AllRestored(samples)), Restored(s), base, lower, upper, dhw) ==
         NewShare(LastOf(samples), s, base, lower, upper, dhw)
      <==> NewPairSurvives(LastOf(samples), s, lower, upper, thermal)
  {
    if samples != [] {
      EnergySurvivesExactly(samples[|samples| - 1], s, base, lower, upper, thermal);
    }
  }

  lemma LastIntervalMovesOneWay(samples: seq<Sample>, s: Sample, base: real, lower: int, upper: int, thermal: bool)
    requires samples != [] ==> samples[|samples| - 1].timeValid && s.timeValid
    requires samples != [] ==> LosesOnlyDhw(samples[|samples| - 1]) && LosesOnlyDhw(s)
    ensures NewShare(LastOf(AllRestored(samples)), Restored(s), base, lower, upper, HeatingOf(thermal)) >=
            NewShare(LastOf(samples), s, base, lower, upper, HeatingOf(thermal))
    ensures NewShare(LastOf(AllRestored(samples)), Restored(s), base, lower, upper, DhwOf(thermal)) <=
            NewShare(LastOf(samples), s, base, lower, upper, DhwOf(thermal))
  {
    if samples != [] {
      EnergyMovesOneWay(samples[|samples| - 1], s, base, lower, upper, thermal);
    }
  }

  predicate SameEnergy(samples: seq<Sample>, base: real, lower: int, upper: int, thermal: bool) {
    && AdjacentSum(AllRestored(samples), base, lower, upper, HeatingOf(thermal)) ==
       AdjacentSum(samples, base, lower, upper, HeatingOf(thermal))
    && AdjacentSum(AllRestored(samples), base, lower, upper, DhwOf(thermal)) ==
       AdjacentSum(samples, base, lower, upper, DhwOf(thermal))
  }

  lemma SumsGrow(samples: seq<Sample>, s: Sample, base: real, lower: int, upper: int, m: Measure)
    ensures AdjacentSum(samples + [s], base, lower, upper, m) ==
            AdjacentSum(samples, base, lower, upper, m) + NewShare(LastOf(samples), s, base, lower, upper, m)
    ensures AdjacentSum(AllRestored(samples + [s]), base, lower, upper, m) ==
            AdjacentSum(AllRestored(samples), base, lower, upper, m) +
            NewShare(LastOf(AllRestored(samples)), Restored(s), base, lower, upper, m)
  {
    AdjacentSumSnoc(samples, s, base, lower, upper, m);
    AdjacentSumSnoc(AllRestored(samples), Restored(s), base, lower, upper, m);
    RestoredSnoc(samples, s);
  }

  lemma SurvivingStep(samples: seq<Sample>, s: Sample, base: real, lower: int, upper: int, thermal: bool)
    requires SameEnergy(samples, base, lower, upper, thermal) &&
             NewPairSurvives(LastOf(samples), s, lower, upper, thermal)
    ensures SameEnergy(samples + [s], base, lower, upper, thermal)
  {
    SumsGrow(samples, s, base, lower, upper, HeatingOf(thermal));
    SumsGrow(samples, s, base, lower, upper, DhwOf(thermal));
    LastInterval(samples, s, base, lower, upper, thermal);
  }

  /** Stored samples keep their heating and DHW energy when every pair keeps its group. */
  lemma {:induction false} SurvivingPairsKeepEnergy(samples: seq<Sample>, base: real, lower: int, upper: int,
                                                    thermal: bool)
    requires PairsSurvive(samples, lower, upper, thermal)
    ensures SameEnergy(samples, base, lower, upper, thermal)
  {
    if samples != [] {
      var earlier, s := samples[..|samples| - 1], samples[|samples| - 1];
      assert samples == earlier + [s];
      PairsSurviveSnoc(earlier, s, lower, upper, thermal);
      SurvivingPairsKeepEnergy(earlier, base, lower, upper, thermal);
      SurvivingStep(earlier, s, base, lower, upper, thermal);
    }
  }

  /** What storing can do to a run at worst: heating grows and DHW shrinks. */
  predicate MovesOneWay(samples: seq<Sample>, base: real, lower: int, upper: int, thermal: bool) {
    && AdjacentSum(AllRestored(samples), base, lower, upper, HeatingOf(thermal)) >=
       AdjacentSum(samples, base, lower, upper, HeatingOf(thermal))
    && AdjacentSum(AllRestored(samples), base, lower, upper, DhwOf(thermal)) <=
       AdjacentSum(samples, base, lower, upper, DhwOf(thermal))
  }

  lemma MovingStep(samples: seq<Sample>, s: Sample, base: real, lower: int, upper: int, thermal: bool)
    requires samples != [] ==> samples[|samples| - 1].timeValid && s.timeValid
    requires samples != [] ==> LosesOnlyDhw(samples[|samples| - 1]) && LosesOnlyDhw(s)
    requires MovesOneWay(samples, base, lower, upper, thermal)
    ensures MovesOneWay(samples + [s], base, lower, upper, thermal)
    ensures SameEnergy(samples + [s], base, lower, upper, thermal) <==>
            SameEnergy(samples, base, lower, upper, thermal) &&
              NewPairSurvives(LastOf(samples), s, lower, upper, thermal)
  {
    SumsGrow(samples, s, base, lower, upper, HeatingOf(thermal));
    SumsGrow(samples, s, base, lower, upper, DhwOf(thermal));
    LastInterval(samples, s, base, lower, upper, thermal);
    LastIntervalMovesOneWay(samples, s, base, lower, upper, thermal);
  }

  /**
   When storing only loses DHW, the stored samples have at least the heating and at most the DHW energy, and
   exactly the same if and only if every pair keeps its group.
   */
  lemma {:induction false} EnergySurvivesExactlyInSums(samples: seq<Sample>, base: real, lower: int, upper: int,
                                                       thermal: bool)
    requires AllTimed(samples) && forall k :: 0 <= k < |samples| ==> LosesOnlyDhw(samples[k])
    ensures MovesOneWay(samples, base, lower, upper, thermal)
    ensures SameEnergy(samples, base, lower, upper, thermal) <==> PairsSurvive(samples, lower, upper, thermal)
  {
    if samples != [] {
      var earlier, s := samples[..|samples| - 1], samples[|samples| - 1];
      assert samples == earlier + [s];
      PairsSurviveSnoc(earlier, s, lower, upper, thermal);
      EnergySurvivesExactlyInSums(earlier, base, lower, upper, thermal);
      assert s == samples[|earlier|];
      MovingStep(earlier, s, base, lower, upper, thermal);
    }
  }

  /** Pairs of samples that keep their groups keep the pair's group. */
  lemma GroupsKeepPairs(samples: seq<Sample>, lower: int, upper: int, thermal: bool)
    requires AllTimed(samples) && forall k :: 0 <= k < |samples| ==> GroupSurvives(samples[k])
    ensures PairsSurvive(samples, lower, upper, thermal)
  {
    forall k | 0 < k < |samples| ensures PairSurvives(samples[k - 1], samples[k]) {
      assert GroupSurvives(samples[k - 1]) && GroupSurvives(samples[k]);
    }
  }

  lemma OtherShareSurvives(samples: seq<Sample>, s: Sample, base: real, lower: int, upper: int, m: Measure)
    requires AllTimed(samples) && !IsEnergy(m)
    requires m.CompressorSeconds? ==> Restored(s).compressor == s.compressor
    ensures NewShare(LastOf(AllRestored(samples)), Restored(s), base, lower, upper, m) ==
            NewShare(LastOf(samples), s, base, lower, upper, m)
  {
  }

  /** Degree-days do not depend on the flags, and compressor time on the compressor's alone. */
  lemma {:induction false} OtherMeasuresSurvive(samples: seq<Sample>, base: real, lower: int, upper: int, m: Measure)
    requires AllTimed(samples) && !IsEnergy(m)
    requires m.CompressorSeconds? ==> forall k :: 0 <= k < |samples| ==>
             Restored(samples[k]).compressor == samples[k].compressor
    ensures AdjacentSum(AllRestored(samples), base, lower, upper, m) == AdjacentSum(samples, base, lower, upper, m)
  {
    if samples != [] {
      var earlier, s := samples[..|samples| - 1], samples[|samples| - 1];
      assert samples == earlier + [s];
      OtherMeasuresSurvive(earlier, base, lower, upper, m);
      OtherShareSurvives(earlier, s, base, lower, upper, m);
      SumsGrow(earlier, s, base, lower, upper, m);
    }
  }
}
