/** Replay of stored samples after a reboot: the days without a summary file are recomputed. */
module HistoryReplay {
  import opened Words
  import opened HistorySamples
  import opened DailyEnergy
  import LiveAccounting

  /**
   `DailyRecovery` and what it produces: daily is what it put into `dailySummary`, written holds the
   summary files it wrote.
   */
  datatype Recovery = Recovery(
    summary: Summary,
    previous: Option<Sample>,
    completed: bool,
    daily: Option<Summary>,
    written: map<nat, Summary>)

  const NOTHING_RECOVERED := Recovery(NewSummary(0), None, false, None, map[])

  /** `readCompletedDailySummary`: the totals of a summary file, if the day has one. */
  function ReadCompleted(d: nat, stored: map<nat, Summary>): Summary {
    if d in stored
    then NewSummary(d).(heating := stored[d].heating, dhw := stored[d].dhw,
                        heatingDegreeDays := stored[d].heatingDegreeDays)
    else NewSummary(d)
  }

  /** `finishRecoveredDay`. */
  function Finished(r: Recovery, today: nat): Recovery {
    if !r.summary.valid then r
    else if r.summary.dayStart == today then r.(daily := Some(r.summary))
    else if !r.completed then r.(written := r.written[r.summary.dayStart := r.summary])
    else r
  }

  /** The part of `recoverDailySample` that closes one day and opens the next. */
  function NextDay(r: Recovery, sample: Sample, today: nat, stored: map<nat, Summary>, base: real,
                   day: DayStart): Recovery {
    var d := day(sample.timestamp);
    Finished(Closed(r, sample, base, day), today).(summary := ReadCompleted(d, stored), completed := d in stored)
  }

  /** The old day with its share of the interval that crosses midnight. */
  function Closed(r: Recovery, sample: Sample, base: real, day: DayStart): Recovery {
    if r.summary.valid && !r.completed then r.(summary := Accumulate(r.summary, r.previous, sample, base, day)) else r
  }

  /** `recoverDailySample`. */
  function RecoverStep(r: Recovery, sample: Sample, today: nat, stored: map<nat, Summary>, base: real,
                       day: DayStart): Recovery {
    if r.previous.Some? && sample.timestamp <= r.previous.value.timestamp then r
    else
      var q :=
        if !r.summary.valid || r.summary.dayStart != day(sample.timestamp)
        then NextDay(r, sample, today, stored, base, day) else r;
      q.(summary := if q.completed then q.summary else Accumulate(q.summary, r.previous, sample, base, day),
         previous := Some(sample))
  }

  function Replayed(samples: seq<Sample>, today: nat, stored: map<nat, Summary>, base: real, day: DayStart): Recovery {
    if samples == [] then NOTHING_RECOVERED
    else
      var earlier := Replayed(samples[..|samples| - 1], today, stored, base, day);
      RecoverStep(earlier, samples[|samples| - 1], today, stored, base, day)
  }

  class DailyRecovery {
    const base: real
    const day: DayStart
    const today: nat
    const stored: map<nat, Summary>
    var summary: Summary
    var previous: Option<Sample>
    var completed: bool
    var dailySummary: Option<Summary>
    var written: map<nat, Summary>

    ghost function State(): Recovery
      reads this
    {
      Recovery(summary, previous, completed, dailySummary, written)
    }

    constructor (base: real, day: DayStart, today: nat, stored: map<nat, Summary>)
      ensures State() == NOTHING_RECOVERED
      ensures this.base == base && this.day == day && this.today == today && this.stored == stored
    {
      this.base, this.day, this.today, this.stored := base, day, today, stored;
      summary, previous, completed, dailySummary, written := NewSummary(0), None, false, None, map[];
    }

    method FinishDay()
      modifies this`dailySummary, this`written
      ensures State() == Finished(old(State()), today)
    {
      if !summary.valid { return; }
      if summary.dayStart == today {
        dailySummary := Some(summary);
      } else if !completed {
        written := written[summary.dayStart := summary];
      }
    }

    method RecoverSample(sample: Sample)
      modifies this
      ensures State() == RecoverStep(old(State()), sample, today, stored, base, day)
    {
      if previous.Some? && sample.timestamp <= previous.value.timestamp { return; }
      var d := day(sample.timestamp);
      if !summary.valid || summary.dayStart != d {
        if summary.valid && !completed {
          summary := Accumulate(summary, previous, sample, base, day);
        }
        FinishDay();
        summary := ReadCompleted(d, stored);
        completed := d in stored;
      }
      if !completed {
        summary := Accumulate(summary, previous, sample, base, day);
      }
      previous := Some(sample);
    }
  }

  // ----- the independent reference

  /** The samples that are not skipped: each later than all before it. */
  function Kept(samples: seq<Sample>): seq<Sample> {
    if samples == [] then []
    else
      var kept, last := Kept(samples[..|samples| - 1]), samples[|samples| - 1];
      if kept != [] && last.timestamp <= kept[|kept| - 1].timestamp then kept else kept + [last]
  }

  /** What the intervals between adjacent samples are worth in a window. */
  function AdjacentSum(samples: seq<Sample>, base: real, lower: int, upper: int, m: Measure): real {
    if |samples| < 2 then 0.0
    else
      AdjacentSum(samples[..|samples| - 1], base, lower, upper, m) +
      Share(samples[|samples| - 2], samples[|samples| - 1], base, lower, upper, m)
  }

  function NewShare(previous: Option<Sample>, sample: Sample, base: real, lower: int, upper: int, m: Measure): real {
    if previous.None? then 0.0 else Share(previous.value, sample, base, lower, upper, m)
  }

  function LastOf(samples: seq<Sample>): Option<Sample> {
    if samples == [] then None else Some(samples[|samples| - 1])
  }

  lemma AdjacentSumSnoc(samples: seq<Sample>, sample: Sample, base: real, lower: int, upper: int, m: Measure)
    ensures AdjacentSum(samples + [sample], base, lower, upper, m) ==
            AdjacentSum(samples, base, lower, upper, m) + NewShare(LastOf(samples), sample, base, lower, upper, m)
  {
    assert (samples + [sample])[..|samples|] == samples;
  }

  /** Joining two stretches adds nothing but the interval between them. */
  lemma {:induction false} JoinedRunsAdd(a: seq<Sample>, b: seq<Sample>, base: real, lower: int, upper: int, m: Measure)
    requires b != []
    ensures AdjacentSum(a + b, base, lower, upper, m) ==
            AdjacentSum(a, base, lower, upper, m) + NewShare(LastOf(a), b[0], base, lower, upper, m) +
            AdjacentSum(b, base, lower, upper, m)
  {
    var c, last := b[..|b| - 1], b[|b| - 1];
    AdjacentSumSnoc(a + c, last, base, lower, upper, m);
    AdjacentSumSnoc(c, last, base, lower, upper, m);
    assert a + b == a + c + [last] && b == c + [last];
    if c == [] {
      assert a + c == a;
    } else {
      JoinedRunsAdd(a, c, base, lower, upper, m);
    }
  }

  predicate Increasing(samples: seq<Sample>) {
    forall i, j :: 0 <= i < j < |samples| ==> samples[i].timestamp < samples[j].timestamp
  }

  lemma OrderedParts(a: seq<Sample>, b: seq<Sample>)
    requires InTimeOrder(a + b)
    ensures InTimeOrder(a) && InTimeOrder(b)
  {
    assert forall i :: 0 <= i < |a| ==> a[i] == (a + b)[i];
    assert forall i :: 0 <= i < |b| ==> b[i] == (a + b)[|a| + i];
  }

  lemma {:induction false} IncreasingKeepsAll(samples: seq<Sample>)
    requires Increasing(samples)
    ensures Kept(samples) == samples
  {
    if samples != [] {
      IncreasingKeepsAll(samples[..|samples| - 1]);
    }
  }

  /** What a finished recovery reports for a day. */
  function Reported(r: Recovery, today: nat, d: nat, m: Measure): real {
    if d == today then if r.daily.Some? then Recorded(r.daily.value, m) else 0.0
    else if d in r.written then Recorded(r.written[d], m)
    else 0.0
  }

  // ----- invariant

  ghost predicate ReplayInv(r: Recovery, today: nat, stored: map<nat, Summary>, day: DayStart) {
    && (r.previous.None? ==> !r.summary.valid)
    && (r.previous.Some? ==>
          && r.summary.dayStart == day(r.previous.value.timestamp)
          && (r.summary.valid <==> r.summary.dayStart != 0)
          && r.completed == (r.summary.dayStart in stored))
    && (r.daily.Some? ==> r.previous.Some? && today < r.summary.dayStart)
    && (forall d :: d in r.written ==> r.previous.Some? && d < r.summary.dayStart && d !in stored)
  }

  lemma StepKeepsReplay(r: Recovery, sample: Sample, today: nat, stored: map<nat, Summary>, base: real, day: DayStart)
    requires LocalDays(day) && ReplayInv(r, today, stored, day)
    ensures ReplayInv(RecoverStep(r, sample, today, stored, base, day), today, stored, day)
  {
    var d := day(sample.timestamp);
    AccumulateAddsShare(r.summary, r.previous, sample, base, day, HeatThermal);
    AccumulateAddsShare(ReadCompleted(d, stored), r.previous, sample, base, day, HeatThermal);
  }

  /** The first sample opens its day with nothing. */
  lemma FirstSampleAddsNothing(r: Recovery, sample: Sample, today: nat, stored: map<nat, Summary>, base: real,
                               day: DayStart, d: nat, m: Measure)
    requires LocalDays(day) && ReplayInv(r, today, stored, day) && r.previous.None? && d != 0 && d !in stored
    ensures Reported(Finished(RecoverStep(r, sample, today, stored, base, day), today), today, d, m) ==
            Reported(Finished(r, today), today, d, m)
  {
    AccumulateAddsShare(NewSummary(day(sample.timestamp)), None, sample, base, day, m);
  }

  lemma SameDayReplayed(r: Recovery, sample: Sample, today: nat, stored: map<nat, Summary>, base: real, day: DayStart,
                        d: nat, u: nat, m: Measure)
    requires LocalDays(day) && LongDays(day) && DayEnds(day, d, u) && d != 0 && d !in stored
    requires ReplayInv(r, today, stored, day) && r.previous.Some? && r.previous.value.timestamp < sample.timestamp
    requires r.summary.valid && r.summary.dayStart == day(sample.timestamp)
    ensures Reported(Finished(RecoverStep(r, sample, today, stored, base, day), today), today, d, m) ==
            Reported(Finished(r, today), today, d, m) + Share(r.previous.value, sample, base, d, u, m)
  {
    AccumulateAddsShare(r.summary, r.previous, sample, base, day, m);
    LiveAccounting.DayWindow(r.previous.value, sample, base, day, d, u, m);
  }

  lemma ClosingAddsShare(r: Recovery, sample: Sample, today: nat, stored: map<nat, Summary>, base: real,
                         day: DayStart, d: nat, m: Measure)
    requires LocalDays(day) && ReplayInv(r, today, stored, day) && d != 0 && d !in stored && r.previous.Some?
    requires r.summary.dayStart < day(sample.timestamp)
    ensures Reported(Finished(Closed(r, sample, base, day), today), today, d, m) ==
            Reported(Finished(r, today), today, d, m) +
            if d == r.summary.dayStart then Share(r.previous.value, sample, base, d, day(sample.timestamp), m) else 0.0
  {
    AccumulateAddsShare(r.summary, r.previous, sample, base, day, m);
  }

  lemma OpeningAddsShare(r: Recovery, sample: Sample, today: nat, stored: map<nat, Summary>, base: real,
                         day: DayStart, d: nat, m: Measure)
    requires LocalDays(day) && ReplayInv(r, today, stored, day) && d != 0 && d !in stored && r.previous.Some?
    requires r.summary.dayStart < day(sample.timestamp) && r.previous.value.timestamp < sample.timestamp
    ensures Reported(Finished(RecoverStep(r, sample, today, stored, base, day), today), today, d, m) ==
            Reported(Finished(Closed(r, sample, base, day), today), today, d, m) +
            if d == day(sample.timestamp) then Share(r.previous.value, sample, base, d, sample.timestamp, m) else 0.0
  {
    AccumulateAddsShare(r.summary, r.previous, sample, base, day, m);
    AccumulateAddsShare(NewSummary(day(sample.timestamp)), r.previous, sample, base, day, m);
  }

  lemma NextDayReplayed(r: Recovery, sample: Sample, today: nat, stored: map<nat, Summary>, base: real, day: DayStart,
                        d: nat, u: nat, m: Measure)
    requires LocalDays(day) && LongDays(day) && DayEnds(day, d, u) && d != 0 && d !in stored
    requires ReplayInv(r, today, stored, day) && r.previous.Some? && r.previous.value.timestamp < sample.timestamp
    requires r.summary.dayStart != day(sample.timestamp)
    ensures Reported(Finished(RecoverStep(r, sample, today, stored, base, day), today), today, d, m) ==
            Reported(Finished(r, today), today, d, m) + Share(r.previous.value, sample, base, d, u, m)
  {
    ClosingAddsShare(r, sample, today, stored, base, day, d, m);
    OpeningAddsShare(r, sample, today, stored, base, day, d, m);
    LiveAccounting.DayWindow(r.previous.value, sample, base, day, d, u, m);
  }

  /** Samples of the time before the first local day are never reported. */
  lemma DaylessReplayed(r: Recovery, sample: Sample, today: nat, stored: map<nat, Summary>, base: real, day: DayStart,
                        d: nat, u: nat, m: Measure)
    requires LocalDays(day) && LongDays(day) && DayEnds(day, d, u) && d != 0 && d !in stored
    requires ReplayInv(r, today, stored, day) && r.previous.Some? && r.previous.value.timestamp < sample.timestamp
    requires !r.summary.valid && day(sample.timestamp) == 0
    ensures Reported(Finished(RecoverStep(r, sample, today, stored, base, day), today), today, d, m) ==
            Reported(Finished(r, today), today, d, m) + Share(r.previous.value, sample, base, d, u, m)
  {
    AccumulateAddsShare(NewSummary(0), r.previous, sample, base, day, m);
    AccumulateAddsShare(ReadCompleted(0, stored), r.previous, sample, base, day, m);
    LiveAccounting.DayWindow(r.previous.value, sample, base, day, d, u, m);
  }

  lemma StepReplayed(r: Recovery, sample: Sample, today: nat, stored: map<nat, Summary>, base: real, day: DayStart,
                     d: nat, u: nat, m: Measure)
    requires LocalDays(day) && LongDays(day) && DayEnds(day, d, u) && d != 0 && d !in stored
    requires ReplayInv(r, today, stored, day)
    ensures Reported(Finished(RecoverStep(r, sample, today, stored, base, day), today), today, d, m) ==
            Reported(Finished(r, today), today, d, m) + NewShare(r.previous, sample, base, d, u, m)
  {
    if r.previous.None? {
      FirstSampleAddsNothing(r, sample, today, stored, base, day, d, m);
    } else if r.previous.value.timestamp < sample.timestamp {
      if r.summary.valid && r.summary.dayStart == day(sample.timestamp) {
        SameDayReplayed(r, sample, today, stored, base, day, d, u, m);
      } else if r.summary.dayStart == day(sample.timestamp) {
        DaylessReplayed(r, sample, today, stored, base, day, d, u, m);
      } else {
        NextDayReplayed(r, sample, today, stored, base, day, d, u, m);
      }
    }
  }

  lemma KeptAdds(samples: seq<Sample>, base: real, lower: int, upper: int, m: Measure)
    requires samples != []
    ensures
      var kept, sample := Kept(samples[..|samples| - 1]), samples[|samples| - 1];
      AdjacentSum(Kept(samples), base, lower, upper, m) ==
      AdjacentSum(kept, base, lower, upper, m) + NewShare(LastOf(kept), sample, base, lower, upper, m)
  {
    AdjacentSumSnoc(Kept(samples[..|samples| - 1]), samples[|samples| - 1], base, lower, upper, m);
  }

  /** Every day without a summary file is recomputed as exactly the adjacent kept samples clipped to that day. */
  lemma {:induction false} RecoveredDaysAreExact(samples: seq<Sample>, today: nat, stored: map<nat, Summary>,
                                                 base: real, day: DayStart, d: nat, u: nat, m: Measure)
    requires LocalDays(day) && LongDays(day) && DayEnds(day, d, u) && d != 0 && d !in stored
    ensures
      var r := Replayed(samples, today, stored, base, day);
      && ReplayInv(r, today, stored, day)
      && r.previous == LastOf(Kept(samples))
      && Reported(Finished(r, today), today, d, m) == AdjacentSum(Kept(samples), base, d, u, m)
  {
    if samples != [] {
      var earlier, sample := samples[..|samples| - 1], samples[|samples| - 1];
      RecoveredDaysAreExact(earlier, today, stored, base, day, d, u, m);
      var r := Replayed(earlier, today, stored, base, day);
      StepKeepsReplay(r, sample, today, stored, base, day);
      StepReplayed(r, sample, today, stored, base, day, d, u, m);
      KeptAdds(samples, base, d, u, m);
    }
  }

  // ----- completed days

  predicate SameTotals(s: Summary, t: Summary) {
    s.heating == t.heating && s.dhw == t.dhw && s.heatingDegreeDays == t.heatingDegreeDays
  }

  /** A day with a summary file is never written again, and its samples are never added to its totals. */
  lemma {:induction false} CompletedDaysStay(samples: seq<Sample>, today: nat, stored: map<nat, Summary>, base: real,
                                             day: DayStart)
    requires LocalDays(day)
    ensures
      var r := Replayed(samples, today, stored, base, day);
      var f := Finished(r, today);
      && ReplayInv(r, today, stored, day)
      && (r.previous.Some? && r.completed ==> SameTotals(r.summary, stored[r.summary.dayStart]))
      && (forall d :: d in f.written ==> d !in stored)
      && (f.daily.Some? && today in stored ==> SameTotals(f.daily.value, stored[today]))
  {
    if samples != [] {
      var earlier, sample := samples[..|samples| - 1], samples[|samples| - 1];
      CompletedDaysStay(earlier, today, stored, base, day);
      StepKeepsReplay(Replayed(earlier, today, stored, base, day), sample, today, stored, base, day);
    }
  }
}
