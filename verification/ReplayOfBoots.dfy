/** Replay against live accounting: what the samples of several boots are worth, and what lies between the boots. */
module ReplayOfBoots {
  import opened Words
  import opened HistorySamples
  import opened EnergyPairs
  import opened DailyEnergy
  import opened HistoryReplay
  import opened RepeatedSeconds
  import EnergyCop
  import LiveAccounting

  // ----- replay against live accounting

  function Flattened(boots: seq<seq<Sample>>): seq<Sample> {
    if boots == [] then [] else Flattened(boots[..|boots| - 1]) + boots[|boots| - 1]
  }

  /** Every boot has its own id and takes only samples that live accounting accepts. */
  ghost predicate DistinctBoots(boots: seq<seq<Sample>>, day: DayStart) {
    && (forall i :: 0 <= i < |boots| ==> OneBoot(boots[i], day))
    && (forall i, j, k, n :: 0 <= i < j < |boots| && 0 <= k < |boots[i]| && 0 <= n < |boots[j]| ==>
          boots[i][k].bootId != boots[j][n].bootId)
  }

  predicate OneBoot(samples: seq<Sample>, day: DayStart) {
    forall k :: 0 <= k < |samples| ==>
      samples[k].bootId == samples[0].bootId && LiveAccounting.Accepted(samples[k], day)
  }

  predicate IsEnergy(m: Measure) {
    m.HeatThermal? || m.HeatElectrical? || m.DhwThermal? || m.DhwElectrical?
  }

  function Taken(samples: seq<Sample>): (events: seq<LiveAccounting.Event>)
    ensures |events| == |samples|
    ensures forall k :: 0 <= k < |samples| ==> events[k] == LiveAccounting.SampleTaken(samples[k])
  {
    seq(|samples|, k requires 0 <= k < |samples| => LiveAccounting.SampleTaken(samples[k]))
  }

  /** Live accounting just after a reboot: every day on record is over, except that of a recovered summary. */
  ghost predicate NewBoot(a: LiveAccounting.Accounting, samples: seq<Sample>, day: DayStart) {
    && a.previous.None? && LiveAccounting.Live(a, day)
    && (samples != [] ==> LiveAccounting.InOrder(a, LiveAccounting.SampleTaken(samples[0]), day))
  }

  const FRESH_BOOT := LiveAccounting.Accounting(NewSummary(0), None, map[])

  /** What live accounting has on record for a day at the end of one boot. */
  function LiveRecord(samples: seq<Sample>, base: real, day: DayStart, d: nat, m: Measure): real {
    LiveAccounting.RecordedOn(LiveAccounting.After(FRESH_BOOT, Taken(samples), base, day), d, m)
  }

  function LiveRecords(boots: seq<seq<Sample>>, base: real, day: DayStart, d: nat, m: Measure): real {
    if boots == [] then 0.0
    else LiveRecords(boots[..|boots| - 1], base, day, d, m) + LiveRecord(boots[|boots| - 1], base, day, d, m)
  }

  lemma OrderedSnoc(a: LiveAccounting.Accounting, before: seq<LiveAccounting.Event>, e: LiveAccounting.Event,
                    base: real, day: DayStart)
    requires LiveAccounting.Ordered(a, before, base, day)
    requires LiveAccounting.InOrder(LiveAccounting.After(a, before, base, day), e, day)
    ensures LiveAccounting.Ordered(a, before + [e], base, day)
  {
    var events := before + [e];
    assert events[..|before|] == before;
    assert forall k :: 0 <= k < |before| ==> events[..k] == before[..k] && events[k] == before[k];
  }

  lemma ShorterBoot(a: LiveAccounting.Accounting, samples: seq<Sample>, day: DayStart)
    requires NewBoot(a, samples, day) && OneBoot(samples, day) && InTimeOrder(samples) && samples != []
    ensures
      var earlier := samples[..|samples| - 1];
      NewBoot(a, earlier, day) && OneBoot(earlier, day) && InTimeOrder(earlier) &&
        samples == earlier + [samples[|samples| - 1]]
  {
  }

  lemma TakenSnoc(samples: seq<Sample>, sample: Sample)
    ensures Taken(samples + [sample]) == Taken(samples) + [LiveAccounting.SampleTaken(sample)]
  {
  }

  lemma AfterSnoc(a: LiveAccounting.Accounting, before: seq<LiveAccounting.Event>, e: LiveAccounting.Event, base: real,
                  day: DayStart)
    ensures LiveAccounting.After(a, before + [e], base, day) ==
            LiveAccounting.Step(LiveAccounting.After(a, before, base, day), e, base, day)
  {
    assert (before + [e])[..|before|] == before;
  }

  /** The next sample of a boot is in order. */
  lemma NextIsInOrder(b: LiveAccounting.Accounting, p: Sample, sample: Sample, day: DayStart)
    requires LocalDays(day) && LiveAccounting.Live(b, day) && b.previous == Some(p) && p.timestamp <= sample.timestamp
    ensures LiveAccounting.InOrder(b, LiveAccounting.SampleTaken(sample), day)
  {
  }

  lemma OneMoreTaken(b: LiveAccounting.Accounting, sample: Sample, base: real, day: DayStart)
    requires LocalDays(day) && LiveAccounting.Live(b, day) && LiveAccounting.Accepted(sample, day)
    requires LiveAccounting.InOrder(b, LiveAccounting.SampleTaken(sample), day)
    ensures
      var c := LiveAccounting.Step(b, LiveAccounting.SampleTaken(sample), base, day);
      LiveAccounting.Live(c, day) && c.previous == Some(sample)
  {
    LiveAccounting.StepKeepsLive(b, LiveAccounting.SampleTaken(sample), base, day);
  }

  /** A boot's live run is in order and remembers its last sample. */
  lemma {:induction false} LiveRunIsOrdered(a: LiveAccounting.Accounting, samples: seq<Sample>, base: real,
                                            day: DayStart)
    requires NewBoot(a, samples, day) && LocalDays(day) && OneBoot(samples, day) && InTimeOrder(samples)
    ensures
      var b := LiveAccounting.After(a, Taken(samples), base, day);
      LiveAccounting.Live(b, day) && b.previous == LastOf(samples) && (samples == [] ==> b == a)
    ensures LiveAccounting.Ordered(a, Taken(samples), base, day)
  {
    if samples != [] {
      var earlier, sample := samples[..|samples| - 1], samples[|samples| - 1];
      var e := LiveAccounting.SampleTaken(sample);
      ShorterBoot(a, samples, day);
      LiveRunIsOrdered(a, earlier, base, day);
      var b := LiveAccounting.After(a, Taken(earlier), base, day);
      if earlier != [] {
        NextIsInOrder(b, earlier[|earlier| - 1], sample, day);
      }
      OneMoreTaken(b, sample, base, day);
      TakenSnoc(earlier, sample);
      AfterSnoc(a, Taken(earlier), e, base, day);
      OrderedSnoc(a, Taken(earlier), e, base, day);
    }
  }

  lemma PairSumSnoc(a: LiveAccounting.Accounting, before: seq<LiveAccounting.Event>, e: LiveAccounting.Event,
                    base: real, day: DayStart, lower: int, upper: int, m: Measure)
    ensures LiveAccounting.PairSum(a, before + [e], base, day, lower, upper, m) ==
            LiveAccounting.PairSum(a, before, base, day, lower, upper, m) +
            LiveAccounting.Added(LiveAccounting.After(a, before, base, day), e, base, day, lower, upper, m)
  {
    assert (before + [e])[..|before|] == before;
  }

  lemma LiveRunGrows(a: LiveAccounting.Accounting, samples: seq<Sample>, sample: Sample, base: real, day: DayStart,
                     lower: int, upper: int, m: Measure)
    requires LiveAccounting.Accepted(sample, day)
    requires LiveAccounting.After(a, Taken(samples), base, day).previous == LastOf(samples)
    requires LiveAccounting.PairSum(a, Taken(samples), base, day, lower, upper, m) ==
             AdjacentSum(samples, base, lower, upper, m)
    ensures LiveAccounting.PairSum(a, Taken(samples + [sample]), base, day, lower, upper, m) ==
            AdjacentSum(samples + [sample], base, lower, upper, m)
  {
    PairSumSnoc(a, Taken(samples), LiveAccounting.SampleTaken(sample), base, day, lower, upper, m);
    AdjacentSumSnoc(samples, sample, base, lower, upper, m);
    assert Taken(samples + [sample]) == Taken(samples) + [LiveAccounting.SampleTaken(sample)];
  }

  /** The reference sum of a boot's live run is the one over adjacent samples. */
  lemma {:induction false} LiveRunIsAdjacentSum(a: LiveAccounting.Accounting, samples: seq<Sample>, base: real,
                                                day: DayStart, lower: int, upper: int, m: Measure)
    requires NewBoot(a, samples, day) && LocalDays(day) && OneBoot(samples, day) && InTimeOrder(samples)
    ensures LiveAccounting.PairSum(a, Taken(samples), base, day, lower, upper, m) ==
            AdjacentSum(samples, base, lower, upper, m)
  {
    if samples != [] {
      var earlier, sample := samples[..|samples| - 1], samples[|samples| - 1];
      ShorterBoot(a, samples, day);
      LiveRunIsAdjacentSum(a, earlier, base, day, lower, upper, m);
      LiveRunIsOrdered(a, earlier, base, day);
      LiveRunGrows(a, earlier, sample, base, day, lower, upper, m);
    }
  }

  lemma LiveRecordIsAdjacentSum(samples: seq<Sample>, base: real, day: DayStart, d: nat, u: nat, m: Measure)
    requires LocalDays(day) && LongDays(day) && DayEnds(day, d, u) && d != 0
    requires OneBoot(samples, day) && InTimeOrder(samples)
    ensures LiveRecord(samples, base, day, d, m) == AdjacentSum(samples, base, d, u, m)
  {
    LiveRunIsOrdered(FRESH_BOOT, samples, base, day);
    LiveRunIsAdjacentSum(FRESH_BOOT, samples, base, day, d, u, m);
    LiveAccounting.EveryDayIsExact(FRESH_BOOT, Taken(samples), base, day, d, u, m);
  }

  lemma LiveRecordsSnoc(boots: seq<seq<Sample>>, boot: seq<Sample>, base: real, day: DayStart, d: nat, m: Measure)
    ensures LiveRecords(boots + [boot], base, day, d, m) ==
            LiveRecords(boots, base, day, d, m) + LiveRecord(boot, base, day, d, m)
  {
    assert (boots + [boot])[..|boots|] == boots;
  }

  // ----- across reboots

  /** The interval that a boot's first sample closes, if a sample was stored before it. */
  function Crossing(earlier: seq<Sample>, boot: seq<Sample>, base: real, lower: int, upper: int, m: Measure): real {
    if boot == [] then 0.0 else NewShare(LastOf(earlier), boot[0], base, lower, upper, m)
  }

  /** What the intervals between the boots are worth. */
  function Crossings(boots: seq<seq<Sample>>, base: real, lower: int, upper: int, m: Measure): real {
    if boots == [] then 0.0
    else
      var earlier := boots[..|boots| - 1];
      Crossings(earlier, base, lower, upper, m) +
        Crossing(Flattened(earlier), boots[|boots| - 1], base, lower, upper, m)
  }

  lemma BootJoins(a: seq<Sample>, b: seq<Sample>, base: real, lower: int, upper: int, m: Measure)
    ensures AdjacentSum(a + b, base, lower, upper, m) ==
            AdjacentSum(a, base, lower, upper, m) + Crossing(a, b, base, lower, upper, m) +
              AdjacentSum(b, base, lower, upper, m)
  {
    if b == [] {
      assert a + b == a;
    } else {
      JoinedRunsAdd(a, b, base, lower, upper, m);
    }
  }

  ghost predicate AllBoots(boots: seq<seq<Sample>>, day: DayStart) {
    forall i :: 0 <= i < |boots| ==> OneBoot(boots[i], day)
  }

  /** All samples together are worth what the boots recorded, and the intervals between them. */
  lemma {:induction false} BootsAdd(boots: seq<seq<Sample>>, base: real, day: DayStart, d: nat, u: nat, m: Measure)
    requires LocalDays(day) && LongDays(day) && DayEnds(day, d, u) && d != 0
    requires AllBoots(boots, day) && InTimeOrder(Flattened(boots))
    ensures AdjacentSum(Flattened(boots), base, d, u, m) ==
            LiveRecords(boots, base, day, d, m) + Crossings(boots, base, d, u, m)
  {
    if boots != [] {
      var earlier, boot := boots[..|boots| - 1], boots[|boots| - 1];
      assert boots == earlier + [boot];
      assert Flattened(boots) == Flattened(earlier) + boot;
      OrderedParts(Flattened(earlier), boot);
      LiveRecordsSnoc(earlier, boot, base, day, d, m);
      BootsAdd(earlier, base, day, d, u, m);
      BootJoins(Flattened(earlier), boot, base, d, u, m);
      LiveRecordIsAdjacentSum(boot, base, day, d, u, m);
    }
  }

  /**
   For every measure, replaying the samples of all boots reports what live accounting had on record over all boots,
   what the intervals between the boots are worth, and what the seconds with several samples change.
   */
  lemma ReplayAddsCrossings(boots: seq<seq<Sample>>, today: nat, stored: map<nat, Summary>, base: real, day: DayStart,
                            d: nat, u: nat, m: Measure)
    requires LocalDays(day) && LongDays(day) && DayEnds(day, d, u) && d != 0 && d !in stored
    requires AllBoots(boots, day) && InTimeOrder(Flattened(boots))
    ensures Reported(Finished(Replayed(Flattened(boots), today, stored, base, day), today), today, d, m) ==
            LiveRecords(boots, base, day, d, m) + Crossings(boots, base, d, u, m) +
            Repeats(Flattened(boots), base, d, u, m)
  {
    RecoveredDaysAreExact(Flattened(boots), today, stored, base, day, d, u, m);
    KeptIsWorth(Flattened(boots), base, d, u, m);
    BootsAdd(boots, base, day, d, u, m);
  }

  // ----- energy

  lemma {:induction false} BootIdsOf(boots: seq<seq<Sample>>, other: seq<Sample>)
    requires forall i, k, n :: 0 <= i < |boots| && 0 <= k < |boots[i]| && 0 <= n < |other| ==>
               boots[i][k].bootId != other[n].bootId
    ensures forall k, n :: 0 <= k < |Flattened(boots)| && 0 <= n < |other| ==>
            Flattened(boots)[k].bootId != other[n].bootId
  {
    if boots != [] {
      BootIdsOf(boots[..|boots| - 1], other);
    }
  }

  /** No energy is counted across a reboot. */
  lemma {:induction false} CrossingsHaveNoEnergy(boots: seq<seq<Sample>>, base: real, day: DayStart, lower: int,
                                                 upper: int, m: Measure)
    requires DistinctBoots(boots, day) && IsEnergy(m)
    ensures Crossings(boots, base, lower, upper, m) == 0.0
  {
    if boots != [] {
      CrossingsHaveNoEnergy(boots[..|boots| - 1], base, day, lower, upper, m);
      BootIdsOf(boots[..|boots| - 1], boots[|boots| - 1]);
    }
  }

  /**
   So for heating and DHW energy the replay of unchanged samples reports the live records if every second with several
   samples agrees; if no such second gains, never more than they are, and them only if all agree.
   */
  lemma UnchangedReplayEqualsLive(boots: seq<seq<Sample>>, today: nat, stored: map<nat, Summary>, base: real,
                                  day: DayStart, d: nat, u: nat, m: Measure)
    requires LocalDays(day) && LongDays(day) && DayEnds(day, d, u) && d != 0 && d !in stored && IsEnergy(m)
    requires DistinctBoots(boots, day) && InTimeOrder(Flattened(boots))
    ensures
      var reported := Reported(Finished(Replayed(Flattened(boots), today, stored, base, day), today), today, d, m);
      var live, samples := LiveRecords(boots, base, day, d, m), Flattened(boots);
      && reported == live + Repeats(samples, base, d, u, m)
      && (RepeatsAgree(samples, base, d, u, m) ==> reported == live)
      && (RepeatsOnlyLose(samples, base, d, u, m) ==>
            reported <= live && (reported == live <==> RepeatsAgree(samples, base, d, u, m)))
  {
    var samples := Flattened(boots);
    ReplayAddsCrossings(boots, today, stored, base, day, d, u, m);
    CrossingsHaveNoEnergy(boots, base, day, d, u, m);
    if RepeatsAgree(samples, base, d, u, m) {
      AgreeingRepeats(samples, base, d, u, m);
    }
    if RepeatsOnlyLose(samples, base, d, u, m) {
      RepeatsExactly(samples, base, d, u, m);
    }
  }

  lemma RepeatedSecondReplayed(a: Sample, b: Sample, c: Sample, today: nat, stored: map<nat, Summary>, base: real,
                               day: DayStart, d: nat, u: nat, m: Measure)
    requires LocalDays(day) && LongDays(day) && DayEnds(day, d, u) && d != 0 && d !in stored
    requires a.timestamp == b.timestamp < c.timestamp
    ensures Reported(Finished(Replayed([a, b, c], today, stored, base, day), today), today, d, m) ==
            Share(a, c, base, d, u, m)
  {
    RecoveredDaysAreExact([a, b, c], today, stored, base, day, d, u, m);
    KeptOfRepeated(a, b, c);
    PairSum(a, c, base, d, u, m);
  }

  lemma RepeatedSecondRecorded(a: Sample, b: Sample, c: Sample, base: real, day: DayStart, d: nat, u: nat, m: Measure)
    requires LocalDays(day) && LongDays(day) && DayEnds(day, d, u) && d != 0
    requires OneBoot([a, b, c], day) && a.timestamp == b.timestamp < c.timestamp
    ensures LiveRecords([[a, b, c]], base, day, d, m) == Share(b, c, base, d, u, m)
  {
    var samples := [a, b, c];
    RepeatedInOrder(a, b, c);
    OneBootRecords(samples, base, day, d, u, m);
    TripleSum(a, b, c, base, d, u, m);
  }

  lemma RepeatedInOrder(a: Sample, b: Sample, c: Sample)
    requires a.timestamp == b.timestamp < c.timestamp
    ensures InTimeOrder([a, b, c])
  {
  }

  /** Two samples in one second: replay counts the next interval from the first, live accounting from the second. */
  lemma RepeatedSecondIsReplayedFromFirst(a: Sample, b: Sample, c: Sample, today: nat, stored: map<nat, Summary>,
                                          base: real, day: DayStart, d: nat, u: nat, m: Measure)
    requires LocalDays(day) && LongDays(day) && DayEnds(day, d, u) && d != 0 && d !in stored
    requires OneBoot([a, b, c], day) && a.timestamp == b.timestamp < c.timestamp
    ensures Reported(Finished(Replayed([a, b, c], today, stored, base, day), today), today, d, m) ==
            Share(a, c, base, d, u, m)
    ensures LiveRecords([[a, b, c]], base, day, d, m) == Share(b, c, base, d, u, m)
  {
    RepeatedSecondReplayed(a, b, c, today, stored, base, day, d, u, m);
    RepeatedSecondRecorded(a, b, c, base, day, d, u, m);
  }

  lemma KeptOfRepeated(a: Sample, b: Sample, c: Sample)
    requires a.timestamp == b.timestamp < c.timestamp
    ensures Kept([a, b, c]) == [a, c]
  {
    assert [a, b, c][..2] == [a, b] && [a, b][..1] == [a] && [a][..0] == [];
    assert Kept([a]) == [a];
    assert Kept([a, b]) == [a];
  }

  /** So energy is lost when the compressor starts between the two samples of a second. */
  lemma RepeatedSecondLosesEnergy(a: Sample, b: Sample, c: Sample, today: nat, stored: map<nat, Summary>, base: real,
                                  day: DayStart, d: nat, u: nat, m: Measure)
    requires LocalDays(day) && LongDays(day) && DayEnds(day, d, u) && d != 0 && d !in stored && IsEnergy(m)
    requires OneBoot([a, b, c], day) && a.timestamp == b.timestamp < c.timestamp && !a.compressor
    ensures Reported(Finished(Replayed([a, b, c], today, stored, base, day), today), today, d, m) == 0.0
    ensures LiveRecords([[a, b, c]], base, day, d, m) == Share(b, c, base, d, u, m)
  {
    RepeatedSecondIsReplayedFromFirst(a, b, c, today, stored, base, day, d, u, m);
  }

  // ----- compressor time and degree-days, which have no boot check

  /** Boot k starts with a sample that follows a stored one. */
  predicate Follows(boots: seq<seq<Sample>>, k: nat) {
    k < |boots| && boots[k] != [] && Flattened(boots[..k]) != []
  }

  function LastBefore(boots: seq<seq<Sample>>, k: nat): Sample
    requires Follows(boots, k)
  {
    var earlier := Flattened(boots[..k]);
    earlier[|earlier| - 1]
  }

  /** The part of the interval between two samples that lies in the window is short enough to count. */
  predicate Bridged(p: Sample, c: Sample, lower: int, upper: int) {
    && p.timeValid && c.timestamp <= p.timestamp + MAX_GAP
    && Later(p.timestamp, lower) < Earlier(c.timestamp, upper)
  }

  /** Such an interval is worth something. */
  predicate Counted(p: Sample, c: Sample, base: real, m: Measure) {
    match m
    case CompressorSeconds => c.compressor
    case DegreeDaysSum =>
      p.outside.Some? && c.outside.Some? && base > (Degrees10(p.outside.value) + Degrees10(c.outside.value)) * 0.5
    case _ => false
  }

  lemma SpentTimeIsPositive(p: Sample, c: Sample, base: real, lower: int, upper: int, m: Measure)
    requires !IsEnergy(m)
    ensures Share(p, c, base, lower, upper, m) >= 0.0
    ensures Share(p, c, base, lower, upper, m) == 0.0 <==> !(Bridged(p, c, lower, upper) && Counted(p, c, base, m))
  {
    var lo, hi := Later(p.timestamp, lower), Earlier(c.timestamp, upper);
    if Bridged(p, c, lower, upper) && m.DegreeDaysSum? && p.outside.Some? && c.outside.Some? {
      DegreeDaysArePositive(base, Degrees10(p.outside.value), Degrees10(c.outside.value), hi - lo);
    }
  }

  lemma DegreeDaysArePositive(base: real, o0: real, o1: real, elapsed: int)
    requires 0 < elapsed <= MAX_GAP
    ensures DegreeDays(base, o0, o1, elapsed) >= 0.0
    ensures DegreeDays(base, o0, o1, elapsed) == 0.0 <==> base <= (o0 + o1) * 0.5
  {
    var missing, hours := base - (o0 + o1) * 0.5, elapsed as real / 3600.0;
    if missing > 0.0 {
      EnergyCop.PositiveProduct(missing, hours);
    }
  }

  /** The reboot before boot k is counted in the window. */
  predicate RebootCounts(boots: seq<seq<Sample>>, k: nat, base: real, lower: int, upper: int, m: Measure) {
    && Follows(boots, k)
    && Bridged(LastBefore(boots, k), boots[k][0], lower, upper) && Counted(LastBefore(boots, k), boots[k][0], base, m)
  }

  ghost predicate NoRebootCounts(boots: seq<seq<Sample>>, base: real, lower: int, upper: int, m: Measure) {
    forall k: nat :: !RebootCounts(boots, k, base, lower, upper, m)
  }

  lemma SameReboot(boots: seq<seq<Sample>>, k: nat, base: real, lower: int, upper: int, m: Measure)
    requires k + 1 < |boots|
    ensures RebootCounts(boots[..|boots| - 1], k, base, lower, upper, m) <==>
            RebootCounts(boots, k, base, lower, upper, m)
  {
    assert boots[..|boots| - 1][..k] == boots[..k];
  }

  lemma LastRebootSplits(boots: seq<seq<Sample>>, base: real, lower: int, upper: int, m: Measure)
    requires boots != []
    ensures NoRebootCounts(boots, base, lower, upper, m) <==>
            NoRebootCounts(boots[..|boots| - 1], base, lower, upper, m) &&
              !RebootCounts(boots, |boots| - 1, base, lower, upper, m)
  {
    var earlier, n := boots[..|boots| - 1], |boots| - 1;
    forall k: nat | k < n
      ensures RebootCounts(earlier, k, base, lower, upper, m) <==> RebootCounts(boots, k, base, lower, upper, m)
    {
      SameReboot(boots, k, base, lower, upper, m);
    }
    assert forall k: nat :: k >= n ==> !RebootCounts(earlier, k, base, lower, upper, m);
    if NoRebootCounts(earlier, base, lower, upper, m) && !RebootCounts(boots, n, base, lower, upper, m) {
      forall k: nat ensures !RebootCounts(boots, k, base, lower, upper, m) {
        assert k < n || k == n || !Follows(boots, k);
        assert k < n ==> !RebootCounts(earlier, k, base, lower, upper, m);
      }
    }
    if NoRebootCounts(boots, base, lower, upper, m) {
      forall k: nat ensures !RebootCounts(earlier, k, base, lower, upper, m) {
        assert !RebootCounts(boots, k, base, lower, upper, m);
      }
    }
  }

  lemma {:induction false} CrossingsArePositive(boots: seq<seq<Sample>>, base: real, lower: int, upper: int, m: Measure)
    requires !IsEnergy(m)
    ensures Crossings(boots, base, lower, upper, m) >= 0.0
    ensures Crossings(boots, base, lower, upper, m) == 0.0 <==> NoRebootCounts(boots, base, lower, upper, m)
  {
    if boots != [] {
      var n, earlier := |boots| - 1, boots[..|boots| - 1];
      CrossingsArePositive(earlier, base, lower, upper, m);
      LastRebootSplits(boots, base, lower, upper, m);
      if Follows(boots, n) {
        SpentTimeIsPositive(LastBefore(boots, n), boots[n][0], base, lower, upper, m);
      }
    }
  }

  /**
   Compressor time and degree-days of a replayed day are at least the live records, and equal to them if and only
   if no reboot counts: each lasts longer than 600 seconds, lies outside the day, or ends with the compressor off
   (with outside temperatures unknown or not below the base, respectively). For degree-days the seconds with several
   samples have to agree; for compressor time they always do.
   */
  lemma RebootsCountExactly(boots: seq<seq<Sample>>, today: nat, stored: map<nat, Summary>, base: real, day: DayStart,
                            d: nat, u: nat, m: Measure)
    requires LocalDays(day) && LongDays(day) && DayEnds(day, d, u) && d != 0 && d !in stored && !IsEnergy(m)
    requires AllBoots(boots, day) && InTimeOrder(Flattened(boots))
    requires m.DegreeDaysSum? ==> RepeatsAgree(Flattened(boots), base, d, u, m)
    ensures
      var reported := Reported(Finished(Replayed(Flattened(boots), today, stored, base, day), today), today, d, m);
      && reported >= LiveRecords(boots, base, day, d, m)
      && (reported == LiveRecords(boots, base, day, d, m) <==> NoRebootCounts(boots, base, d, u, m))
  {
    ReplayAddsCrossings(boots, today, stored, base, day, d, u, m);
    CrossingsArePositive(boots, base, d, u, m);
    if m.CompressorSeconds? {
      BootsAreTimed(boots, day);
      CompressorTimeAgrees(Flattened(boots), base, d, u);
    }
    AgreeingRepeats(Flattened(boots), base, d, u, m);
  }

  predicate AllTimed(samples: seq<Sample>) {
    forall k :: 0 <= k < |samples| ==> samples[k].timeValid
  }

  lemma {:induction false} BootsAreTimed(boots: seq<seq<Sample>>, day: DayStart)
    requires AllBoots(boots, day)
    ensures AllTimed(Flattened(boots))
  {
    if boots != [] {
      BootsAreTimed(boots[..|boots| - 1], day);
      assert OneBoot(boots[|boots| - 1], day);
    }
  }

  /** A short reboot while the compressor runs is counted as running time, which live accounting never records. */
  lemma RebootCountsAsRunning(p: Sample, c: Sample, today: nat, stored: map<nat, Summary>, base: real, day: DayStart,
                              d: nat, u: nat)
    requires LocalDays(day) && LongDays(day) && DayEnds(day, d, u) && d != 0 && d !in stored
    requires p.timeValid && c.timeValid && c.compressor && day(p.timestamp) == d == day(c.timestamp)
    requires p.timestamp < c.timestamp <= p.timestamp + MAX_GAP && p.bootId != c.bootId
    ensures Reported(Finished(Replayed([p, c], today, stored, base, day), today), today, d, CompressorSeconds) ==
            (c.timestamp - p.timestamp) as real
    ensures LiveRecords([[p], [c]], base, day, d, CompressorSeconds) == 0.0
  {
    TwoReplayed(p, c, today, stored, base, day, d, u, CompressorSeconds);
    TwoBootsRecordNothing(p, c, base, day, d, u, CompressorSeconds);
  }

  lemma PairSum(p: Sample, c: Sample, base: real, lower: int, upper: int, m: Measure)
    ensures AdjacentSum([p, c], base, lower, upper, m) == Share(p, c, base, lower, upper, m)
  {
    assert [p, c][..1] == [p];
  }

  lemma TripleSum(p: Sample, c1: Sample, c2: Sample, base: real, lower: int, upper: int, m: Measure)
    ensures AdjacentSum([p, c1, c2], base, lower, upper, m) ==
            Share(p, c1, base, lower, upper, m) + Share(c1, c2, base, lower, upper, m)
  {
    PairSum(p, c1, base, lower, upper, m);
    assert [p, c1, c2][..2] == [p, c1];
  }

  /** A single boot. */
  lemma OneBootRecords(samples: seq<Sample>, base: real, day: DayStart, d: nat, u: nat, m: Measure)
    requires LocalDays(day) && LongDays(day) && DayEnds(day, d, u) && d != 0
    requires OneBoot(samples, day) && InTimeOrder(samples)
    ensures LiveRecords([samples], base, day, d, m) == AdjacentSum(samples, base, d, u, m)
  {
    LiveRecordIsAdjacentSum(samples, base, day, d, u, m);
    LiveRecordsSnoc([], samples, base, day, d, m);
    assert [] + [samples] == [samples];
  }

  lemma TwoReplayed(p: Sample, c: Sample, today: nat, stored: map<nat, Summary>, base: real, day: DayStart,
                    d: nat, u: nat, m: Measure)
    requires LocalDays(day) && LongDays(day) && DayEnds(day, d, u) && d != 0 && d !in stored
    requires p.timestamp < c.timestamp
    ensures Reported(Finished(Replayed([p, c], today, stored, base, day), today), today, d, m) ==
            Share(p, c, base, d, u, m)
  {
    RecoveredDaysAreExact([p, c], today, stored, base, day, d, u, m);
    IncreasingKeepsAll([p, c]);
    PairSum(p, c, base, d, u, m);
  }

  lemma TwoBootsRecordNothing(p: Sample, c: Sample, base: real, day: DayStart, d: nat, u: nat, m: Measure)
    requires LocalDays(day) && LongDays(day) && DayEnds(day, d, u) && d != 0
    requires LiveAccounting.Accepted(p, day) && LiveAccounting.Accepted(c, day)
    ensures LiveRecords([[p], [c]], base, day, d, m) == 0.0
  {
    OneBootRecords([p], base, day, d, u, m);
    LiveRecordIsAdjacentSum([c], base, day, d, u, m);
    LiveRecordsSnoc([[p]], [c], base, day, d, m);
    assert [[p]] + [[c]] == [[p], [c]];
  }
}
