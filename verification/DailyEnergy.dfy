/** Daily summaries: the live accounting that splits intervals at local midnight. */
module DailyEnergy {
  import opened Words
  import opened HistorySamples
  import opened EnergyPairs

  // ----- local days

  /** `recordedEnergyLocalDayStart`, which asks libc; 0 means that there is no local day. */
  type DayStart = nat -> nat

  /** Local midnights: a day starts no later than its times, reaches back to its start, and days are ordered. */
  ghost predicate LocalDays(day: DayStart) {
    && (forall t: nat :: day(t) <= t)
    && (forall s: nat, t: nat :: day(s) <= t <= s ==> day(t) == day(s))
    && (forall s: nat, t: nat :: s <= t ==> day(s) <= day(t))
  }

  /** No whole day fits between two samples of one interval: every day lasts more than 600 seconds. */
  ghost predicate LongDays(day: DayStart) {
    forall s: nat, m: nat, t: nat :: s <= m <= t <= s + MAX_GAP ==> day(m) == day(s) || day(m) == day(t)
  }

  /** The day that starts at d ends just before u. */
  ghost predicate DayEnds(day: DayStart, d: nat, u: nat) {
    d < u && forall t: nat :: day(t) == d <==> d <= t < u
  }

  // ----- amounts

  /** The amounts that splitting must conserve. */
  datatype Measure = HeatThermal | HeatElectrical | DhwThermal | DhwElectrical | DegreeDaysSum | CompressorSeconds

  datatype Summary = Summary(
    valid: bool,
    dayStart: nat,
    heatingDegreeDays: real,
    heating: Totals,
    dhw: Totals,
    compressorSeconds: int,
    compressorStarts: nat,
    outsideMinimum: Option<real>,
    outsideMaximum: Option<real>,
    outsideSum: real,
    outsideSamples: nat)

  function NewSummary(dayStart: nat): Summary {
    Summary(dayStart != 0, dayStart, 0.0, NO_ENERGY, NO_ENERGY, 0, 0, None, None, 0.0, 0)
  }

  function Recorded(s: Summary, m: Measure): real {
    match m
    case HeatThermal => s.heating.thermal
    case HeatElectrical => s.heating.electrical
    case DhwThermal => s.dhw.thermal
    case DhwElectrical => s.dhw.electrical
    case DegreeDaysSum => s.heatingDegreeDays
    case CompressorSeconds => s.compressorSeconds as real
  }

  /** `diagnosticsHeatingDegreeDays`. */
  function DegreeDays(base: real, previousOutside: real, currentOutside: real, elapsed: int): real {
    if elapsed == 0 || elapsed > 86400 then 0.0
    else
      var missing := base - (previousOutside + currentOutside) * 0.5;
      (if missing > 0.0 then missing else 0.0) * (elapsed as real / 3600.0) / 24.0
  }

  function Degrees10(x: int): real {
    x as real / 10.0
  }

  /** Outside temperature statistics; samples of other days do not count. */
  function WithOutside(s: Summary, sample: Sample, sampleDay: nat): Summary {
    if sampleDay != s.dayStart || sample.outside.None? then s
    else
      var t := Degrees10(sample.outside.value);
      s.(outsideSum := s.outsideSum + t, outsideSamples := s.outsideSamples + 1,
         outsideMinimum := if s.outsideMinimum.None? || t < s.outsideMinimum.value then Some(t) else s.outsideMinimum,
         outsideMaximum := if s.outsideMaximum.None? || t > s.outsideMaximum.value then Some(t) else s.outsideMaximum)
  }

  /** `accumulateDailySample`. */
  function Accumulate(s: Summary, previous: Option<Sample>, sample: Sample, base: real, day: DayStart): Summary {
    var sampleDay := day(sample.timestamp);
    var r := WithOutside(s, sample, sampleDay);
    if previous.None? || !previous.value.timeValid then r
    else
      var p := previous.value;
      if sample.timestamp <= p.timestamp || sample.timestamp - p.timestamp > MAX_GAP then r
      else
        var upper := if sampleDay > s.dayStart then sampleDay else sample.timestamp;
        var lower := if p.timestamp < s.dayStart then s.dayStart else p.timestamp;
        if upper <= lower then r
        else
          var degreeDays :=
            if p.outside.Some? && sample.outside.Some?
            then DegreeDays(base, Degrees10(p.outside.value), Degrees10(sample.outside.value), upper - lower) else 0.0;
          var started := sampleDay == s.dayStart && sample.compressor && !p.compressor;
          r.(heatingDegreeDays := s.heatingDegreeDays + degreeDays,
             heating := AddEnergyPair(p, sample, 1, s.dayStart, upper, s.heating).1,
             dhw := AddEnergyPair(p, sample, 2, s.dayStart, upper, s.dhw).1,
             compressorSeconds := s.compressorSeconds + (if sample.compressor then upper - lower else 0),
             compressorStarts := s.compressorStarts + if started then 1 else 0)
  }

  // ----- what a pair of samples is worth in a window of time

  /** What the interval between two samples is worth between the times lo and hi inside it. */
  function Between(p: Sample, c: Sample, base: real, lo: int, hi: int, m: Measure): real {
    match m
    case HeatThermal => ThermalIn(p, c, 1, lo, hi)
    case HeatElectrical => ElectricalIn(p, c, 1, lo, hi)
    case DhwThermal => ThermalIn(p, c, 2, lo, hi)
    case DhwElectrical => ElectricalIn(p, c, 2, lo, hi)
    case DegreeDaysSum =>
      if p.outside.Some? && c.outside.Some?
      then DegreeDays(base, Degrees10(p.outside.value), Degrees10(c.outside.value), hi - lo) else 0.0
    case CompressorSeconds => if c.compressor then (hi - lo) as real else 0.0
  }

  /** What the interval between two samples is worth inside the window [lower, upper). */
  function Share(p: Sample, c: Sample, base: real, lower: int, upper: int, m: Measure): real {
    var lo, hi := Later(p.timestamp, lower), Earlier(c.timestamp, upper);
    if !p.timeValid || c.timestamp > p.timestamp + MAX_GAP || hi <= lo then 0.0 else Between(p, c, base, lo, hi, m)
  }

  /** The whole interval, unsplit. */
  function Whole(p: Sample, c: Sample, base: real, m: Measure): real {
    Share(p, c, base, 0, FOREVER, m)
  }

  lemma DegreeDaysAdd(base: real, o0: real, o1: real, a: int, b: int)
    requires 0 <= a && 0 <= b && a + b <= MAX_GAP
    ensures DegreeDays(base, o0, o1, a) + DegreeDays(base, o0, o1, b) == DegreeDays(base, o0, o1, a + b)
  {
  }

  /** Cutting an interval anywhere conserves every amount. */
  lemma ShareSplits(p: Sample, c: Sample, base: real, lower: int, cut: int, upper: int, m: Measure)
    requires lower <= cut <= upper
    ensures Share(p, c, base, lower, cut, m) + Share(p, c, base, cut, upper, m) == Share(p, c, base, lower, upper, m)
  {
    var lo, hi := Later(p.timestamp, lower), Earlier(c.timestamp, upper);
    var whole := Share(p, c, base, lower, upper, m);
    if hi <= lo || cut <= lo {
      assert Share(p, c, base, lower, cut, m) == 0.0;
      assert Share(p, c, base, cut, upper, m) == whole;
    } else if hi <= cut {
      assert Share(p, c, base, lower, cut, m) == whole;
      assert Share(p, c, base, cut, upper, m) == 0.0;
    } else if p.timeValid && c.timestamp <= p.timestamp + MAX_GAP {
      BetweenSplits(p, c, base, lo, cut, hi, m);
    }
  }

  lemma BetweenSplits(p: Sample, c: Sample, base: real, lo: int, cut: int, hi: int, m: Measure)
    requires p.timestamp <= lo <= cut <= hi <= c.timestamp <= p.timestamp + MAX_GAP
    ensures Between(p, c, base, lo, cut, m) + Between(p, c, base, cut, hi, m) == Between(p, c, base, lo, hi, m)
  {
    EnergiesSplit(p, c, 1, lo, cut, hi);
    EnergiesSplit(p, c, 2, lo, cut, hi);
    if p.outside.Some? && c.outside.Some? {
      DegreeDaysAdd(base, Degrees10(p.outside.value), Degrees10(c.outside.value), cut - lo, hi - cut);
    }
  }

  lemma EnergiesSplit(previous: Sample, current: Sample, groupFilter: int, lo: int, cut: int, hi: int)
    requires lo <= cut <= hi
    ensures ThermalIn(previous, current, groupFilter, lo, cut) + ThermalIn(previous, current, groupFilter, cut, hi) ==
            ThermalIn(previous, current, groupFilter, lo, hi)
    ensures ElectricalIn(previous, current, groupFilter, lo, cut) +
            ElectricalIn(previous, current, groupFilter, cut, hi) ==
            ElectricalIn(previous, current, groupFilter, lo, hi)
  {
    if Linked(previous, current, groupFilter) {
      if ThermalUsable(previous, current) {
        ClippedEnergySplits(Kw100(previous.thermalPower.value), Kw100(current.thermalPower.value),
                            previous.timestamp, current.timestamp, lo, cut, hi);
      }
      if ElectricalUsable(previous, current) {
        ClippedEnergySplits(Kw1000(previous.electricalPower.value), Kw1000(current.electricalPower.value),
                            previous.timestamp, current.timestamp, lo, cut, hi);
      }
    }
  }

  /** The end of the window in which a summary counts an interval. */
  function WindowEnd(s: Summary, sample: Sample, day: DayStart): nat {
    if day(sample.timestamp) > s.dayStart then day(sample.timestamp) else sample.timestamp
  }

  /** One accumulated sample adds the share of its interval that falls into the summary's day, and nothing else. */
  lemma AccumulateAddsShare(s: Summary, previous: Option<Sample>, sample: Sample, base: real, day: DayStart, m: Measure)
    requires LocalDays(day)
    ensures
      var r := Accumulate(s, previous, sample, base, day);
      && r.dayStart == s.dayStart && r.valid == s.valid
      && Recorded(r, m) == Recorded(s, m) + if previous.None? then 0.0
         else Share(previous.value, sample, base, s.dayStart, WindowEnd(s, sample, day), m)
  {
    if previous.Some? {
      var p, upper := previous.value, WindowEnd(s, sample, day);
      var lower := Later(p.timestamp, s.dayStart);
      if p.timeValid && p.timestamp < sample.timestamp <= p.timestamp + MAX_GAP && lower < upper {
        EnergyInWindow(p, sample, 1, s.dayStart, upper, s.heating);
        EnergyInWindow(p, sample, 2, s.dayStart, upper, s.dhw);
      }
    }
  }

  lemma EnergyInWindow(p: Sample, c: Sample, groupFilter: int, lower: int, upper: int, totals: Totals)
    requires Later(p.timestamp, lower) < Earlier(c.timestamp, upper)
    ensures
      var lo, hi := Later(p.timestamp, lower), Earlier(c.timestamp, upper);
      var after := AddEnergyPair(p, c, groupFilter, lower, upper, totals).1;
      && after.thermal == totals.thermal + ThermalIn(p, c, groupFilter, lo, hi)
      && after.electrical == totals.electrical + ElectricalIn(p, c, groupFilter, lo, hi)
  {
    PairAddsItsEnergy(p, c, groupFilter, lower, upper, totals);
    OnlyOverlapCounts(p, c, groupFilter, lower, upper);
  }
}
