/** The running daily accounting, and what it records over whole runs. */
module LiveAccounting {
  import opened Words
  import opened HistorySamples
  import opened EnergyPairs
  import opened DailyEnergy

  /** archive holds the summary file of each day; writing a day again replaces its file. */
  datatype Accounting = Accounting(summary: Summary, previous: Option<Sample>, archive: map<nat, Summary>)

  predicate Accepted(sample: Sample, day: DayStart) {
    sample.timeValid && day(sample.timestamp) != 0
  }

  /** Before the sample is added: a first summary, a rollover that closes the old day, or the current summary. */
  function Opened(a: Accounting, sample: Sample, base: real, day: DayStart): Accounting {
    var d := day(sample.timestamp);
    if !a.summary.valid then a.(summary := NewSummary(d))
    else if a.summary.dayStart != d then
      a.(summary := NewSummary(d),
         archive := a.archive[a.summary.dayStart := Accumulate(a.summary, a.previous, sample, base, day)])
    else a
  }

  /** `updateDailySummary`. */
  function UpdateStep(a: Accounting, sample: Sample, base: real, day: DayStart): Accounting {
    if !Accepted(sample, day) then a
    else
      var b := Opened(a, sample, base, day);
      b.(summary := Accumulate(b.summary, a.previous, sample, base, day), previous := Some(sample))
  }

  /** The main loop writes an expired summary before the sample that will split its last interval arrives. */
  function ClockStep(a: Accounting, now: nat, day: DayStart): Accounting {
    if a.summary.valid && a.summary.dayStart < day(now)
    then a.(archive := a.archive[a.summary.dayStart := a.summary]) else a
  }

  class DailyAccounting {
    const base: real
    const day: DayStart
    var dailySummary: Summary
    var previousDailySample: Option<Sample>
    var archive: map<nat, Summary>

    ghost function State(): Accounting
      reads this
    {
      Accounting(dailySummary, previousDailySample, archive)
    }

    constructor (base: real, day: DayStart)
      ensures State() == Accounting(NewSummary(0), None, map[]) && this.base == base && this.day == day
    {
      this.base, this.day := base, day;
      dailySummary, previousDailySample, archive := NewSummary(0), None, map[];
    }

    method PersistDailySummary()
      modifies this`archive
      ensures archive == old(archive)[dailySummary.dayStart := dailySummary]
    {
      archive := archive[dailySummary.dayStart := dailySummary];
    }

    /** `updateDailySummary`: an interval across midnight is added to both days. */
    method UpdateDailySummary(sample: Sample)
      modifies this
      ensures State() == UpdateStep(old(State()), sample, base, day)
    {
      if !sample.timeValid { return; }
      var dayStart := day(sample.timestamp);
      if dayStart == 0 { return; }
      if !dailySummary.valid {
        dailySummary := NewSummary(dayStart);
      } else if dailySummary.dayStart != dayStart {
        dailySummary := Accumulate(dailySummary, previousDailySample, sample, base, day);
        assert dailySummary.dayStart == old(dailySummary).dayStart;
        PersistDailySummary();
        dailySummary := NewSummary(dayStart);
      }
      dailySummary := Accumulate(dailySummary, previousDailySample, sample, base, day);
      previousDailySample := Some(sample);
    }

    method ObserveClock(now: nat)
      modifies this`archive
      ensures State() == ClockStep(old(State()), now, day)
    {
      if dailySummary.valid && dailySummary.dayStart < day(now) {
        PersistDailySummary();
      }
    }
  }

  // ----- runs

  datatype Event = SampleTaken(sample: Sample) | ClockSeen(now: nat)

  function Step(a: Accounting, e: Event, base: real, day: DayStart): Accounting {
    match e
    case SampleTaken(sample) => UpdateStep(a, sample, base, day)
    case ClockSeen(now) => ClockStep(a, now, day)
  }

  function After(a: Accounting, events: seq<Event>, base: real, day: DayStart): Accounting
    decreases |events|
  {
    if events == [] then a
    else Step(After(a, events[..|events| - 1], base, day), events[|events| - 1], base, day)
  }

  /** Accepted samples never go back in time, nor to a day that an earlier boot has closed. */
  ghost predicate Ordered(a: Accounting, events: seq<Event>, base: real, day: DayStart) {
    forall k :: 0 <= k < |events| ==> InOrder(After(a, events[..k], base, day), events[k], day)
  }

  ghost predicate InOrder(a: Accounting, e: Event, day: DayStart) {
    e.SampleTaken? && Accepted(e.sample, day) ==>
      && (a.previous.Some? ==> a.previous.value.timestamp <= e.sample.timestamp)
      && (a.summary.valid ==> a.summary.dayStart <= day(e.sample.timestamp))
      && (!a.summary.valid ==> forall d :: d in a.archive ==> d < day(e.sample.timestamp))
  }

  /** The current summary belongs to the day of the previous sample, and no later day has been archived. */
  ghost predicate Live(a: Accounting, day: DayStart) {
    && (a.previous.Some? ==> a.summary.valid && day(a.previous.value.timestamp) == a.summary.dayStart)
    && (a.summary.valid ==> a.summary.dayStart != 0)
    && (a.summary.valid ==> forall d :: d in a.archive ==> d <= a.summary.dayStart)
  }

  /** What is on record for a day: the current summary, else its archived file. */
  function RecordedOn(a: Accounting, d: nat, m: Measure): real {
    if a.summary.valid && a.summary.dayStart == d then Recorded(a.summary, m)
    else if d in a.archive then Recorded(a.archive[d], m)
    else 0.0
  }

  /** What this event adds to the sum over adjacent accepted samples, clipped to a window. */
  function Added(a: Accounting, e: Event, base: real, day: DayStart, lower: int, upper: int, m: Measure): real {
    if e.SampleTaken? && Accepted(e.sample, day) && a.previous.Some?
    then Share(a.previous.value, e.sample, base, lower, upper, m) else 0.0
  }

  /** The independent reference: all adjacent accepted samples of the run, clipped to a window. */
  function PairSum(a: Accounting, events: seq<Event>, base: real, day: DayStart, lower: int, upper: int,
                   m: Measure): real
    decreases |events|
  {
    if events == [] then 0.0
    else
      var earlier := events[..|events| - 1];
      PairSum(a, earlier, base, day, lower, upper, m) +
      Added(After(a, earlier, base, day), events[|events| - 1], base, day, lower, upper, m)
  }

  // ----- the share of a day

  /** The window in which the code counts an interval for one of its days is that day, as far as the interval goes. */
  lemma DayWindow(p: Sample, c: Sample, base: real, day: DayStart, d: nat, u: nat, m: Measure)
    requires LocalDays(day) && LongDays(day) && DayEnds(day, d, u) && p.timestamp <= c.timestamp
    ensures d == day(c.timestamp) ==> Share(p, c, base, d, c.timestamp, m) == Share(p, c, base, d, u, m)
    ensures d == day(p.timestamp) != day(c.timestamp) ==>
              Share(p, c, base, d, day(c.timestamp), m) == Share(p, c, base, d, u, m)
    ensures d != day(p.timestamp) && d != day(c.timestamp) ==> Share(p, c, base, d, u, m) == 0.0
  {
    if c.timestamp <= p.timestamp + MAX_GAP {
      if d == day(p.timestamp) != day(c.timestamp) {
        NextMidnight(p.timestamp, c.timestamp, day, d, u);
      } else if d != day(p.timestamp) && d != day(c.timestamp) {
        var lo := Later(p.timestamp, d);
        if lo < Earlier(c.timestamp, u) {
          assert day(lo) == d;
        }
      }
    }
  }

  lemma NextMidnight(s: nat, t: nat, day: DayStart, d: nat, u: nat)
    requires LocalDays(day) && LongDays(day) && DayEnds(day, d, u)
    requires s <= t <= s + MAX_GAP && day(s) == d != day(t)
    ensures day(t) == u
  {
    var next := day(t);
    assert day(next) == next && next <= t;
    assert u <= next;
    assert day(u) != d;
    assert s < u <= t;
  }

  lemma SameDayAddsShare(a: Accounting, sample: Sample, base: real, day: DayStart, d: nat, u: nat, m: Measure)
    requires LocalDays(day) && LongDays(day) && DayEnds(day, d, u) && d != 0
    requires Live(a, day) && InOrder(a, SampleTaken(sample), day) && Accepted(sample, day)
    requires a.previous.Some? && a.summary.dayStart == day(sample.timestamp)
    ensures RecordedOn(UpdateStep(a, sample, base, day), d, m) ==
            RecordedOn(a, d, m) + Added(a, SampleTaken(sample), base, day, d, u, m)
  {
    AccumulateAddsShare(a.summary, a.previous, sample, base, day, m);
    DayWindow(a.previous.value, sample, base, day, d, u, m);
    var b := UpdateStep(a, sample, base, day);
    assert b.archive == a.archive && b.summary == Accumulate(a.summary, a.previous, sample, base, day);
  }

  lemma RolloverAddsShare(a: Accounting, sample: Sample, base: real, day: DayStart, d: nat, u: nat, m: Measure)
    requires LocalDays(day) && LongDays(day) && DayEnds(day, d, u) && d != 0
    requires Live(a, day) && InOrder(a, SampleTaken(sample), day) && Accepted(sample, day)
    requires a.previous.Some? && a.summary.dayStart != day(sample.timestamp)
    ensures RecordedOn(UpdateStep(a, sample, base, day), d, m) ==
            RecordedOn(a, d, m) + Added(a, SampleTaken(sample), base, day, d, u, m)
  {
    AccumulateAddsShare(a.summary, a.previous, sample, base, day, m);
    AccumulateAddsShare(NewSummary(day(sample.timestamp)), a.previous, sample, base, day, m);
    DayWindow(a.previous.value, sample, base, day, d, u, m);
    var b := UpdateStep(a, sample, base, day);
    assert b.archive == a.archive[a.summary.dayStart := Accumulate(a.summary, a.previous, sample, base, day)];
  }

  /** Each event adds to every day exactly its share of the new interval. */
  lemma StepAddsShare(a: Accounting, e: Event, base: real, day: DayStart, d: nat, u: nat, m: Measure)
    requires LocalDays(day) && LongDays(day) && DayEnds(day, d, u) && d != 0
    requires Live(a, day) && InOrder(a, e, day)
    ensures RecordedOn(Step(a, e, base, day), d, m) == RecordedOn(a, d, m) + Added(a, e, base, day, d, u, m)
  {
    if e.SampleTaken? && Accepted(e.sample, day) {
      if a.previous.None? {
        AccumulateAddsShare(Opened(a, e.sample, base, day).summary, a.previous, e.sample, base, day, m);
        AccumulateAddsShare(a.summary, a.previous, e.sample, base, day, m);
      } else if a.summary.dayStart == day(e.sample.timestamp) {
        SameDayAddsShare(a, e.sample, base, day, d, u, m);
      } else {
        RolloverAddsShare(a, e.sample, base, day, d, u, m);
      }
    }
  }

  lemma StepKeepsLive(a: Accounting, e: Event, base: real, day: DayStart)
    requires LocalDays(day) && Live(a, day) && InOrder(a, e, day)
    ensures Live(Step(a, e, base, day), day)
  {
    if e.SampleTaken? && Accepted(e.sample, day) {
      AccumulateAddsShare(Opened(a, e.sample, base, day).summary, a.previous, e.sample, base, day, HeatThermal);
    }
  }

  lemma OrderedPrefix(a: Accounting, events: seq<Event>, base: real, day: DayStart)
    requires events != [] && Ordered(a, events, base, day)
    ensures Ordered(a, events[..|events| - 1], base, day)
    ensures InOrder(After(a, events[..|events| - 1], base, day), events[|events| - 1], day)
  {
    var earlier := events[..|events| - 1];
    assert forall k :: 0 <= k < |earlier| ==> earlier[..k] == events[..k] && earlier[k] == events[k];
  }

  /**
   Over any run whose clock does not go back, the record of every day is exactly the sum over adjacent
   samples clipped to that day, on top of what was on record at the start.
   */
  lemma {:induction false} EveryDayIsExact(a: Accounting, events: seq<Event>, base: real, day: DayStart, d: nat,
                                           u: nat, m: Measure)
    requires LocalDays(day) && LongDays(day) && DayEnds(day, d, u) && d != 0
    requires Live(a, day) && Ordered(a, events, base, day)
    ensures Live(After(a, events, base, day), day)
    ensures RecordedOn(After(a, events, base, day), d, m) ==
            RecordedOn(a, d, m) + PairSum(a, events, base, day, d, u, m)
    decreases |events|
  {
    if events != [] {
      var earlier, e := events[..|events| - 1], events[|events| - 1];
      OrderedPrefix(a, events, base, day);
      EveryDayIsExact(a, earlier, base, day, d, u, m);
      StepKeepsLive(After(a, earlier, base, day), e, base, day);
      StepAddsShare(After(a, earlier, base, day), e, base, day, d, u, m);
    }
  }

  // ----- conservation

  /** The days a run has recorded, after one more sample of day d. */
  function WithDay(days: seq<nat>, d: nat): seq<nat> {
    if days != [] && days[|days| - 1] == d then days else days + [d]
  }

  /** The days a run has recorded, in order. */
  function DaysOf(a: Accounting, events: seq<Event>, base: real, day: DayStart): seq<nat>
    decreases |events|
  {
    if events == [] then if a.summary.valid then [a.summary.dayStart] else []
    else
      var days := DaysOf(a, events[..|events| - 1], base, day);
      var now := After(a, events, base, day).summary;
      if now.valid then WithDay(days, now.dayStart) else days
  }

  function SumOver(a: Accounting, days: seq<nat>, m: Measure): real {
    if days == [] then 0.0 else SumOver(a, days[..|days| - 1], m) + RecordedOn(a, days[|days| - 1], m)
  }

  ghost predicate DaysInv(a: Accounting, days: seq<nat>) {
    && (forall i, j :: 0 <= i < j < |days| ==> days[i] < days[j])
    && (a.summary.valid <==> days != [])
    && (days != [] ==> days[|days| - 1] == a.summary.dayStart)
  }

  /** Days whose records agree have the same sum. */
  lemma {:induction false} SameRecordsSameSum(a: Accounting, b: Accounting, days: seq<nat>, m: Measure)
    requires forall i :: 0 <= i < |days| ==> RecordedOn(a, days[i], m) == RecordedOn(b, days[i], m)
    ensures SumOver(a, days, m) == SumOver(b, days, m)
  {
    if days != [] {
      SameRecordsSameSum(a, b, days[..|days| - 1], m);
    }
  }

  /** The whole interval is the sum of its shares in the two days it touches. */
  lemma WholeIsBothShares(p: Sample, c: Sample, base: real, day: DayStart, m: Measure)
    requires LocalDays(day) && p.timestamp <= c.timestamp < FOREVER
    ensures day(p.timestamp) == day(c.timestamp) ==>
              Share(p, c, base, day(p.timestamp), c.timestamp, m) == Whole(p, c, base, m)
    ensures day(p.timestamp) < day(c.timestamp) ==>
              Share(p, c, base, day(p.timestamp), day(c.timestamp), m) +
              Share(p, c, base, day(c.timestamp), c.timestamp, m) ==
              Whole(p, c, base, m)
  {
    var d0, d1 := day(p.timestamp), day(c.timestamp);
    assert Share(p, c, base, d0, c.timestamp, m) == Whole(p, c, base, m);
    if d0 < d1 {
      ShareSplits(p, c, base, d0, d1, c.timestamp, m);
    }
  }

  lemma SameDayConserves(a: Accounting, days: seq<nat>, sample: Sample, base: real, day: DayStart, m: Measure)
    requires LocalDays(day) && Live(a, day) && DaysInv(a, days) && days != []
    requires InOrder(a, SampleTaken(sample), day) && Accepted(sample, day) && sample.timestamp < FOREVER
    requires a.summary.dayStart == day(sample.timestamp)
    ensures SumOver(UpdateStep(a, sample, base, day), days, m) ==
            SumOver(a, days, m) + Added(a, SampleTaken(sample), base, day, 0, FOREVER, m)
  {
    var b, past := UpdateStep(a, sample, base, day), days[..|days| - 1];
    AccumulateAddsShare(a.summary, a.previous, sample, base, day, m);
    if a.previous.Some? {
      WholeIsBothShares(a.previous.value, sample, base, day, m);
    }
    assert b.archive == a.archive && b.summary.dayStart == a.summary.dayStart;
    assert forall i :: 0 <= i < |past| ==> past[i] < a.summary.dayStart;
    SameRecordsSameSum(a, b, past, m);
  }

  lemma RolloverConserves(a: Accounting, days: seq<nat>, sample: Sample, base: real, day: DayStart, m: Measure)
    requires LocalDays(day) && Live(a, day) && DaysInv(a, days) && days != []
    requires InOrder(a, SampleTaken(sample), day) && Accepted(sample, day) && sample.timestamp < FOREVER
    requires a.summary.dayStart != day(sample.timestamp)
    ensures SumOver(UpdateStep(a, sample, base, day), days + [day(sample.timestamp)], m) ==
            SumOver(a, days, m) + Added(a, SampleTaken(sample), base, day, 0, FOREVER, m)
  {
    var b, past := UpdateStep(a, sample, base, day), days[..|days| - 1];
    var d0, d1 := a.summary.dayStart, day(sample.timestamp);
    AccumulateAddsShare(a.summary, a.previous, sample, base, day, m);
    AccumulateAddsShare(NewSummary(d1), a.previous, sample, base, day, m);
    if a.previous.Some? {
      WholeIsBothShares(a.previous.value, sample, base, day, m);
    }
    assert b.archive == a.archive[d0 := Accumulate(a.summary, a.previous, sample, base, day)];
    assert forall i :: 0 <= i < |past| ==> past[i] < d0;
    SameRecordsSameSum(a, b, past, m);
    assert (days + [d1])[..|days|] == days;
    assert SumOver(b, days, m) == SumOver(b, past, m) + RecordedOn(b, d0, m);
  }

  lemma StepKeepsDays(a: Accounting, days: seq<nat>, e: Event, base: real, day: DayStart)
    requires LocalDays(day) && Live(a, day) && DaysInv(a, days) && InOrder(a, e, day)
    ensures
      var b := Step(a, e, base, day);
      DaysInv(b, if b.summary.valid then WithDay(days, b.summary.dayStart) else days)
  {
    if e.SampleTaken? && Accepted(e.sample, day) {
      AccumulateAddsShare(Opened(a, e.sample, base, day).summary, a.previous, e.sample, base, day, HeatThermal);
    }
  }

  lemma StepConserves(a: Accounting, days: seq<nat>, e: Event, base: real, day: DayStart, m: Measure)
    requires LocalDays(day) && Live(a, day) && DaysInv(a, days) && InOrder(a, e, day)
    requires e.SampleTaken? ==> e.sample.timestamp < FOREVER
    ensures
      var b := Step(a, e, base, day);
      var more := if b.summary.valid then WithDay(days, b.summary.dayStart) else days;
      SumOver(b, more, m) == SumOver(a, days, m) + Added(a, e, base, day, 0, FOREVER, m)
  {
    var b := Step(a, e, base, day);
    if e.SampleTaken? && Accepted(e.sample, day) {
      AccumulateAddsShare(Opened(a, e.sample, base, day).summary, a.previous, e.sample, base, day, m);
      if days == [] {
        var d := day(e.sample.timestamp);
        assert SumOver(b, [d], m) == SumOver(b, [], m) + RecordedOn(b, d, m);
      } else if a.summary.dayStart == day(e.sample.timestamp) {
        SameDayConserves(a, days, e.sample, base, day, m);
      } else {
        RolloverConserves(a, days, e.sample, base, day, m);
      }
    } else {
      SameRecordsSameSum(a, b, days, m);
    }
  }

  /** Timestamps fit in 32 bits. */
  predicate SmallTimes(events: seq<Event>) {
    forall k :: 0 <= k < |events| && events[k].SampleTaken? ==> events[k].sample.timestamp < FOREVER
  }

  /**
   Splitting at midnight conserves: over any run whose clock does not go back, the records of all days
   together are the unsplit sum over adjacent samples, on top of what the first day started with.
   */
  lemma {:induction false} SplittingConserves(a: Accounting, events: seq<Event>, base: real, day: DayStart, m: Measure)
    requires LocalDays(day) && Live(a, day) && Ordered(a, events, base, day) && SmallTimes(events)
    ensures Live(After(a, events, base, day), day)
    ensures DaysInv(After(a, events, base, day), DaysOf(a, events, base, day))
    ensures SumOver(After(a, events, base, day), DaysOf(a, events, base, day), m) ==
            SumOver(a, DaysOf(a, [], base, day), m) + PairSum(a, events, base, day, 0, FOREVER, m)
    decreases |events|
  {
    if events != [] {
      var earlier, e := events[..|events| - 1], events[|events| - 1];
      OrderedPrefix(a, events, base, day);
      SplittingConserves(a, earlier, base, day, m);
      var b, days := After(a, earlier, base, day), DaysOf(a, earlier, base, day);
      StepKeepsLive(b, e, base, day);
      StepKeepsDays(b, days, e, base, day);
      StepConserves(b, days, e, base, day, m);
    }
  }
}
