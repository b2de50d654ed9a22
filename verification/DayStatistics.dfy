/** The outside temperatures and compressor starts of a day, from the samples that were taken on it. */
module DayStatistics {
  import opened Words
  import opened HistorySamples
  import opened DailyEnergy
  import opened LiveAccounting

  /** The samples taken since the day changed last, and the one before them. */
  datatype DayLog = DayLog(before: Option<Sample>, samples: seq<Sample>)

  function LastOf(log: DayLog): Option<Sample> {
    if log.samples == [] then log.before else Some(log.samples[|log.samples| - 1])
  }

  /** A sample with a valid time goes to the log of its day. */
  function Logged(log: DayLog, s: Sample, day: DayStart): DayLog {
    if !s.timeValid || day(s.timestamp) == 0 then log
    else if log.samples != [] && day(log.samples[0].timestamp) == day(s.timestamp)
    then log.(samples := log.samples + [s])
    else DayLog(LastOf(log), [s])
  }

  function LogOf(events: seq<Event>, day: DayStart): DayLog
    decreases |events|
  {
    if events == [] then DayLog(None, [])
    else
      var earlier := LogOf(events[..|events| - 1], day);
      match events[|events| - 1]
      case SampleTaken(s) => Logged(earlier, s, day)
      case ClockSeen(now) => earlier
  }

  function Boot(): Accounting {
    Accounting(NewSummary(0), None, map[])
  }

  // ----- temperatures

  /** How many of the samples have an outside temperature, and the sum of these in tenths of a degree. */
  function Readings(samples: seq<Sample>): (r: (nat, int))
    ensures r.0 == 0 <==> forall k :: 0 <= k < |samples| ==> samples[k].outside.None?
  {
    if samples == [] then (0, 0)
    else
      var earlier, last := Readings(samples[..|samples| - 1]), samples[|samples| - 1];
      if last.outside.None? then earlier else (earlier.0 + 1, earlier.1 + last.outside.value)
  }

  /** One of the samples has this temperature. */
  predicate Occurs(samples: seq<Sample>, t: real) {
    exists k :: 0 <= k < |samples| && samples[k].outside.Some? && t == samples[k].outside.value as real / 10.0
  }

  predicate AllAtLeast(samples: seq<Sample>, t: real) {
    forall k :: 0 <= k < |samples| && samples[k].outside.Some? ==> samples[k].outside.value as real / 10.0 >= t
  }

  predicate AllAtMost(samples: seq<Sample>, t: real) {
    forall k :: 0 <= k < |samples| && samples[k].outside.Some? ==> samples[k].outside.value as real / 10.0 <= t
  }

  /** The least and the greatest outside temperature of the samples, if they have any. */
  predicate AreExtremes(samples: seq<Sample>, least: Option<real>, greatest: Option<real>) {
    && (least.Some? <==> Readings(samples).0 > 0) && (greatest.Some? <==> Readings(samples).0 > 0)
    && (least.Some? ==> Occurs(samples, least.value) && AllAtLeast(samples, least.value))
    && (greatest.Some? ==> Occurs(samples, greatest.value) && AllAtMost(samples, greatest.value))
  }

  /** The temperatures of a summary are those of these samples. */
  predicate HasTemperatures(s: Summary, samples: seq<Sample>) {
    && s.outsideSamples == Readings(samples).0 && s.outsideSum == Readings(samples).1 as real / 10.0
    && AreExtremes(samples, s.outsideMinimum, s.outsideMaximum)
  }

  lemma StillOccurs(samples: seq<Sample>, s: Sample, t: real)
    ensures Occurs(samples, t) ==> Occurs(samples + [s], t)
    ensures s.outside.Some? ==> Occurs(samples + [s], s.outside.value as real / 10.0)
  {
    var longer := samples + [s];
    assert longer[|samples|] == s;
    if Occurs(samples, t) {
      var k :| 0 <= k < |samples| && samples[k].outside.Some? && t == samples[k].outside.value as real / 10.0;
      assert longer[k] == samples[k];
    }
  }

  lemma OneMoreReading(samples: seq<Sample>, s: Sample)
    ensures
      var earlier := Readings(samples);
      Readings(samples + [s]) == if s.outside.None? then earlier else (earlier.0 + 1, earlier.1 + s.outside.value)
  {
    assert (samples + [s])[..|samples|] == samples;
  }

  lemma OneMoreTemperature(r: Summary, samples: seq<Sample>, s: Sample)
    requires HasTemperatures(r, samples)
    ensures HasTemperatures(WithOutside(r, s, r.dayStart), samples + [s])
  {
    OneMoreReading(samples, s);
    if r.outsideMinimum.Some? {
      StillOccurs(samples, s, r.outsideMinimum.value);
      StillOccurs(samples, s, r.outsideMaximum.value);
    } else {
      StillOccurs(samples, s, 0.0);
    }
  }

  // ----- compressor starts

  /** The compressor is on, was off at most ten minutes before, and the day began before this sample. */
  predicate IsStart(p: Option<Sample>, c: Sample, dayStart: nat) {
    && p.Some? && c.compressor && !p.value.compressor
    && 0 < c.timestamp - p.value.timestamp <= 600 && c.timestamp > dayStart
  }

  function Starts(log: DayLog, dayStart: nat): nat
    decreases |log.samples|
  {
    if log.samples == [] then 0
    else
      var n := |log.samples| - 1;
      var earlier := log.(samples := log.samples[..n]);
      Starts(earlier, dayStart) + if IsStart(LastOf(earlier), log.samples[n], dayStart) then 1 else 0
  }

  lemma OneMoreStart(log: DayLog, s: Sample, dayStart: nat)
    ensures Starts(log.(samples := log.samples + [s]), dayStart) ==
            Starts(log, dayStart) + if IsStart(LastOf(log), s, dayStart) then 1 else 0
  {
    assert (log.samples + [s])[..|log.samples|] == log.samples;
  }

  // ----- over runs

  /** What a summary says about the day of the log. */
  predicate Describes(a: Accounting, log: DayLog, day: DayStart) {
    && a.previous == LastOf(log) && (a.previous.Some? ==> a.previous.value.timeValid)
    && (a.summary.valid <==> log.samples != [])
    && (a.summary.valid ==>
          && (forall k :: 0 <= k < |log.samples| ==> day(log.samples[k].timestamp) == a.summary.dayStart)
          && HasTemperatures(a.summary, log.samples)
          && a.summary.compressorStarts == Starts(log, a.summary.dayStart))
  }

  lemma AccumulateDescribes(r: Summary, log: DayLog, s: Sample, base: real, day: DayStart)
    requires day(s.timestamp) == r.dayStart && HasTemperatures(r, log.samples)
    requires r.compressorStarts == Starts(log, r.dayStart)
    requires LastOf(log).Some? ==> LastOf(log).value.timeValid
    ensures
      var after := Accumulate(r, LastOf(log), s, base, day);
      && HasTemperatures(after, log.samples + [s])
      && after.compressorStarts == Starts(log.(samples := log.samples + [s]), r.dayStart)
      && after.valid == r.valid && after.dayStart == r.dayStart
  {
    OneMoreTemperature(r, log.samples, s);
    OneMoreStart(log, s, r.dayStart);
  }

  lemma SameDayDescribes(a: Accounting, log: DayLog, s: Sample, base: real, day: DayStart)
    requires Describes(a, log, day) && s.timeValid && day(s.timestamp) != 0
    requires a.summary.valid && a.summary.dayStart == day(s.timestamp)
    ensures Describes(UpdateStep(a, s, base, day), Logged(log, s, day), day)
  {
    AccumulateDescribes(a.summary, log, s, base, day);
  }

  lemma NewDayDescribes(a: Accounting, log: DayLog, s: Sample, base: real, day: DayStart)
    requires Describes(a, log, day) && s.timeValid && day(s.timestamp) != 0
    requires !a.summary.valid || a.summary.dayStart != day(s.timestamp)
    ensures Describes(UpdateStep(a, s, base, day), Logged(log, s, day), day)
  {
    var d := day(s.timestamp);
    AccumulateDescribes(NewSummary(d), DayLog(LastOf(log), []), s, base, day);
    assert [] + [s] == [s];
    assert UpdateStep(a, s, base, day).summary == Accumulate(NewSummary(d), a.previous, s, base, day);
    assert Logged(log, s, day) == DayLog(LastOf(log), [s]);
  }

  lemma SampleDescribes(a: Accounting, log: DayLog, s: Sample, base: real, day: DayStart)
    requires Describes(a, log, day)
    ensures Describes(UpdateStep(a, s, base, day), Logged(log, s, day), day)
  {
    if !s.timeValid || day(s.timestamp) == 0 {
    } else if a.summary.valid && a.summary.dayStart == day(s.timestamp) {
      SameDayDescribes(a, log, s, base, day);
    } else {
      NewDayDescribes(a, log, s, base, day);
    }
  }

  /**
   At every point of a run the current summary counts, sums and bounds the outside temperatures of exactly the samples
   taken since the day changed, and counts their compressor starts. A start in the first second of a day is not counted.
   */
  lemma {:induction false} DayIsDescribed(events: seq<Event>, base: real, day: DayStart)
    ensures Describes(After(Boot(), events, base, day), LogOf(events, day), day)
    decreases |events|
  {
    if events != [] {
      var n := |events| - 1;
      DayIsDescribed(events[..n], base, day);
      if events[n].SampleTaken? {
        SampleDescribes(After(Boot(), events[..n], base, day), LogOf(events[..n], day), events[n].sample, base, day);
      }
    }
  }
}
