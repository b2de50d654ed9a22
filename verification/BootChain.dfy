/** A chain of boots: each recovers the days from the files of all earlier boots and goes on counting. */
module BootChain {
  import opened Words
  import opened HistorySamples
  import opened DailyEnergy
  import opened HistoryReplay
  import opened ReplayOfBoots
  import opened StoredFlags
  import opened StoredReplay
  import opened SkippedRows
  import opened ReplayedFiles
  import opened RecoveredTails
  import LiveAccounting

  /** One boot: when it recovers, the files it finds, and what happens afterwards. */
  datatype Boot = Boot(now: nat, files: seq<DayFile>, events: seq<LiveAccounting.Event>)

  /** The samples after one more event. */
  function WithEvent(samples: seq<Sample>, e: LiveAccounting.Event): seq<Sample> {
    if e.SampleTaken? then samples + [e.sample] else samples
  }

  function SamplesIn(events: seq<LiveAccounting.Event>): seq<Sample> {
    if events == [] then [] else WithEvent(SamplesIn(events[..|events| - 1]), events[|events| - 1])
  }

  lemma SamplesSnoc(before: seq<LiveAccounting.Event>, e: LiveAccounting.Event)
    ensures SamplesIn(before + [e]) == WithEvent(SamplesIn(before), e)
  {
    assert (before + [e])[..|before|] == before;
  }

  function AllSamples(boots: seq<Boot>): seq<Sample> {
    if boots == [] then [] else AllSamples(boots[..|boots| - 1]) + SamplesIn(boots[|boots| - 1].events)
  }

  /** What a successful restore leaves: the summary of today, no previous sample, and the summary files. */
  function Resumed(r: Recovery, today: nat, archive: map<nat, Summary>): LiveAccounting.Accounting {
    var f := Finished(r, today);
    LiveAccounting.Accounting(if f.daily.Some? then f.daily.value else NewSummary(0), None, archive + f.written)
  }

  /** `restoreEnergyHistory` on the files. */
  function Recovered(archive: map<nat, Summary>, files: seq<DayFile>, now: nat, base: real,
                     day: DayStart): LiveAccounting.Accounting {
    Resumed(StoredReplay.Recovered(Parts(files, now, archive, base, day), now, archive, base, day), day(now), archive)
  }

  function BootAfter(archive: map<nat, Summary>, b: Boot, base: real, day: DayStart): LiveAccounting.Accounting {
    LiveAccounting.After(Recovered(archive, b.files, b.now, base, day), b.events, base, day)
  }

  /** The accounting at the end of the last boot. */
  function Chain(boots: seq<Boot>, base: real, day: DayStart): LiveAccounting.Accounting {
    if boots == [] then FRESH_BOOT
    else BootAfter(Chain(boots[..|boots| - 1], base, day).archive, boots[|boots| - 1], base, day)
  }

  function TimeOf(e: LiveAccounting.Event): nat {
    match e
    case SampleTaken(sample) => sample.timestamp
    case ClockSeen(now) => now
  }

  /** The last time that is known after the events, the first being t. */
  function LastKnown(t: nat, events: seq<LiveAccounting.Event>): nat {
    if events == [] then t else TimeOf(events[|events| - 1])
  }

  function LastTime(boots: seq<Boot>): nat {
    if boots == [] then 0 else LastKnown(boots[|boots| - 1].now, boots[|boots| - 1].events)
  }

  /** The clock does not go back, and accounting accepts the samples. */
  ghost predicate Runs(t: nat, events: seq<LiveAccounting.Event>, day: DayStart) {
    forall k :: 0 <= k < |events| ==> GoesOn(LastKnown(t, events[..k]), events[k], day)
  }

  predicate GoesOn(t: nat, e: LiveAccounting.Event, day: DayStart) {
    t <= TimeOf(e) && (e.SampleTaken? ==> LiveAccounting.Accepted(e.sample, day))
  }

  /** The files can be read and hold the rows of these samples, each in a file of its day or a later one. */
  ghost predicate Stores(files: seq<DayFile>, seen: seq<Sample>, now: nat, day: DayStart) {
    AllReadable(files) && exists rows :: RowsOf(files, rows, seen, now, day)
  }

  ghost predicate RowsOf(files: seq<DayFile>, rows: seq<seq<StoredRow>>, seen: seq<Sample>, now: nat, day: DayStart) {
    Hold(files, rows, now) && DaysFit(files, rows, day) && Flattened(Boots(rows)) == seen
  }

  predicate OtherIds(a: seq<Sample>, b: seq<Sample>) {
    forall i, j :: 0 <= i < |a| && 0 <= j < |b| ==> a[i].bootId != b[j].bootId
  }

  /** The boot has an id of its own, goes on after the time t, and finds the rows of all earlier samples. */
  ghost predicate FollowsBoots(seen: seq<Sample>, t: nat, b: Boot, day: DayStart) {
    && t <= b.now && Runs(b.now, b.events, day) && Stores(b.files, seen, b.now, day)
    && OtherIds(seen, SamplesIn(b.events))
  }

  ghost predicate InOrder(boots: seq<Boot>, day: DayStart) {
    boots != [] ==>
      var earlier := boots[..|boots| - 1];
      InOrder(earlier, day) && FollowsBoots(AllSamples(earlier), LastTime(earlier), boots[|boots| - 1], day)
  }

  // ----- what every step keeps

  /** Only days that are over are in the archive. */
  ghost predicate ArchiveIsPast(archive: map<nat, Summary>, today: nat) {
    forall d :: d in archive ==> d < today
  }

  predicate NotLater(samples: seq<Sample>, t: nat) {
    forall k :: 0 <= k < |samples| ==> samples[k].timestamp <= t
  }

  /** The day of each sample has a summary file, or is that of the current summary. */
  predicate OnRecord(a: LiveAccounting.Accounting, samples: seq<Sample>, day: DayStart) {
    forall k :: 0 <= k < |samples| ==> DayOnRecord(a, day(samples[k].timestamp))
  }

  predicate DayOnRecord(a: LiveAccounting.Accounting, d: nat) {
    d != 0 && (d in a.archive || (a.summary.valid && a.summary.dayStart == d))
  }

  /** A current summary that was written early is still the one in its file. */
  predicate SummaryIsWritten(a: LiveAccounting.Accounting) {
    a.summary.valid && a.summary.dayStart in a.archive ==> a.archive[a.summary.dayStart] == a.summary
  }

  /** The accounting at time t, after the samples seen. */
  ghost predicate Sound(a: LiveAccounting.Accounting, seen: seq<Sample>, t: nat, day: DayStart) {
    && LiveAccounting.Live(a, day) && ArchiveIsPast(a.archive, day(t)) && SummaryIsWritten(a)
    && (a.summary.valid ==> a.summary.dayStart <= day(t))
    && (a.previous.Some? ==> a.previous.value.timestamp <= t)
    && NotLater(seen, t) && InTimeOrder(seen) && OnRecord(a, seen, day)
  }

  lemma SoundIsInOrder(a: LiveAccounting.Accounting, seen: seq<Sample>, t: nat, e: LiveAccounting.Event, day: DayStart)
    requires LocalDays(day) && Sound(a, seen, t, day) && GoesOn(t, e, day)
    ensures LiveAccounting.InOrder(a, e, day)
  {
  }

  lemma SampleKeepsRecord(a: LiveAccounting.Accounting, seen: seq<Sample>, t: nat, sample: Sample, base: real,
                          day: DayStart)
    requires LocalDays(day) && Sound(a, seen, t, day) && GoesOn(t, LiveAccounting.SampleTaken(sample), day)
    ensures
      var b := LiveAccounting.UpdateStep(a, sample, base, day);
      && ArchiveIsPast(b.archive, day(sample.timestamp)) && b.summary.valid
      && b.summary.dayStart == day(sample.timestamp) && b.previous == Some(sample)
      && forall d :: DayOnRecord(a, d) ==> DayOnRecord(b, d)
  {
    var started := LiveAccounting.Opened(a, sample, base, day);
    AccumulateAddsShare(started.summary, a.previous, sample, base, day, HeatThermal);
  }

  lemma SampleKeepsSound(a: LiveAccounting.Accounting, seen: seq<Sample>, t: nat, sample: Sample, base: real,
                         day: DayStart)
    requires LocalDays(day) && Sound(a, seen, t, day) && GoesOn(t, LiveAccounting.SampleTaken(sample), day)
    ensures Sound(LiveAccounting.UpdateStep(a, sample, base, day), seen + [sample], sample.timestamp, day)
  {
    SoundIsInOrder(a, seen, t, LiveAccounting.SampleTaken(sample), day);
    LiveAccounting.StepKeepsLive(a, LiveAccounting.SampleTaken(sample), base, day);
    SampleKeepsRecord(a, seen, t, sample, base, day);
  }

  lemma ClockKeepsSound(a: LiveAccounting.Accounting, seen: seq<Sample>, t: nat, now: nat, day: DayStart)
    requires LocalDays(day) && Sound(a, seen, t, day) && t <= now
    ensures Sound(LiveAccounting.ClockStep(a, now, day), seen, now, day)
  {
    assert day(t) <= day(now);
  }

  lemma EventKeepsSound(a: LiveAccounting.Accounting, seen: seq<Sample>, t: nat, e: LiveAccounting.Event, base: real,
                        day: DayStart)
    requires LocalDays(day) && Sound(a, seen, t, day) && GoesOn(t, e, day)
    ensures Sound(LiveAccounting.Step(a, e, base, day), WithEvent(seen, e), TimeOf(e), day)
  {
    match e
    case SampleTaken(sample) => SampleKeepsSound(a, seen, t, sample, base, day);
    case ClockSeen(now) => ClockKeepsSound(a, seen, t, now, day);
  }

  lemma RunsBefore(t: nat, events: seq<LiveAccounting.Event>, day: DayStart)
    requires events != [] && Runs(t, events, day)
    ensures
      var earlier := events[..|events| - 1];
      Runs(t, earlier, day) && GoesOn(LastKnown(t, earlier), events[|events| - 1], day)
  {
    var earlier := events[..|events| - 1];
    forall k | 0 <= k < |earlier| ensures GoesOn(LastKnown(t, earlier[..k]), earlier[k], day) {
      assert earlier[..k] == events[..k];
    }
  }

  /** A boot's run is in order and keeps the accounting sound. */
  ghost predicate RunIsSound(a: LiveAccounting.Accounting, seen: seq<Sample>, t: nat,
                             events: seq<LiveAccounting.Event>, base: real, day: DayStart) {
    && Sound(LiveAccounting.After(a, events, base, day), seen + SamplesIn(events), LastKnown(t, events), day)
    && LiveAccounting.Ordered(a, events, base, day)
  }

  lemma OneMoreSound(a: LiveAccounting.Accounting, seen: seq<Sample>, t: nat, before: seq<LiveAccounting.Event>,
                     e: LiveAccounting.Event, base: real, day: DayStart)
    requires LocalDays(day) && RunIsSound(a, seen, t, before, base, day) && GoesOn(LastKnown(t, before), e, day)
    ensures RunIsSound(a, seen, t, before + [e], base, day)
  {
    var b, more := LiveAccounting.After(a, before, base, day), seen + SamplesIn(before);
    SoundIsInOrder(b, more, LastKnown(t, before), e, day);
    EventKeepsSound(b, more, LastKnown(t, before), e, base, day);
    OrderedSnoc(a, before, e, base, day);
    AfterSnoc(a, before, e, base, day);
    SamplesSnoc(before, e);
    assert WithEvent(more, e) == seen + WithEvent(SamplesIn(before), e);
  }

  lemma {:induction false} RunKeepsSound(a: LiveAccounting.Accounting, seen: seq<Sample>, t: nat,
                                         events: seq<LiveAccounting.Event>, base: real, day: DayStart)
    requires LocalDays(day) && Sound(a, seen, t, day) && Runs(t, events, day)
    ensures RunIsSound(a, seen, t, events, base, day)
  {
    if events == [] {
      assert seen + [] == seen;
    } else {
      var earlier, e := events[..|events| - 1], events[|events| - 1];
      RunsBefore(t, events, day);
      RunKeepsSound(a, seen, t, earlier, base, day);
      OneMoreSound(a, seen, t, earlier, e, base, day);
      assert earlier + [e] == events;
    }
  }

  // ----- what recovery keeps

  /** Where replay stands: at the last stored sample, with files of days before it. */
  lemma RecoveryEnds(archive: map<nat, Summary>, files: seq<DayFile>, seen: seq<Sample>, now: nat, base: real,
                     day: DayStart)
    requires LocalDays(day) && Stores(files, seen, now, day) && InTimeOrder(seen)
    ensures
      var r := StoredReplay.Recovered(Parts(files, now, archive, base, day), now, archive, base, day);
      && ReplayInv(r, day(now), archive, day) && (r.previous.None? <==> seen == [])
      && (seen != [] ==> r.previous.value.timestamp == seen[|seen| - 1].timestamp)
  {
    var rows :| RowsOf(files, rows, seen, now, day);
    var parts := Parts(files, now, archive, base, day);
    PartsOfStored(files, rows, now, archive, base, day);
    VisitedIsFollowed(parts);
    LastReplayed(VisitedOf(parts), day(now), archive, base, day);
    CompletedDaysStay(VisitedOf(parts), day(now), archive, base, day);
    RestoredTimes(seen);
    SameEnd(AllOf(parts), VisitedOf(parts));
  }

  lemma SameEnd(all: seq<Sample>, visited: seq<Sample>)
    requires LastOf(all) == LastOf(visited)
    ensures all == [] <==> visited == []
    ensures all != [] ==> visited[|visited| - 1] == all[|all| - 1]
  {
  }

  /** Replay stands at the time of the last of samples in order. */
  lemma {:induction false} LastReplayed(samples: seq<Sample>, today: nat, stored: map<nat, Summary>, base: real,
                                        day: DayStart)
    requires InTimeOrder(samples)
    ensures
      var r := Replayed(samples, today, stored, base, day);
      && (r.previous.None? <==> samples == [])
      && (samples != [] ==> r.previous.value.timestamp == samples[|samples| - 1].timestamp)
  {
    if samples != [] {
      var earlier, last := samples[..|samples| - 1], samples[|samples| - 1];
      LastReplayed(earlier, today, stored, base, day);
      assert earlier != [] ==> earlier[|earlier| - 1].timestamp <= last.timestamp;
    }
  }

  /** Past days in files, and only today as current summary. */
  ghost predicate PastOnly(a: LiveAccounting.Accounting, archive: map<nat, Summary>, today: nat) {
    && a.previous.None? && ArchiveIsPast(a.archive, today) && archive.Keys <= a.archive.Keys
    && (a.summary.valid ==> a.summary.dayStart == today != 0)
  }

  /** What a recovery that stands in the day e leaves. */
  lemma ResumedIsPast(r: Recovery, e: nat, today: nat, archive: map<nat, Summary>, day: DayStart)
    requires ReplayInv(r, today, archive, day) && ArchiveIsPast(archive, today)
    requires r.previous.Some? && day(r.previous.value.timestamp) == e != 0 && e <= today
    ensures PastOnly(Resumed(r, today, archive), archive, today) && DayOnRecord(Resumed(r, today, archive), e)
  {
  }

  lemma NothingResumed(r: Recovery, today: nat, archive: map<nat, Summary>, day: DayStart)
    requires ReplayInv(r, today, archive, day) && ArchiveIsPast(archive, today) && r.previous.None?
    ensures PastOnly(Resumed(r, today, archive), archive, today)
  {
  }

  lemma RecoveryIsPast(archive: map<nat, Summary>, files: seq<DayFile>, seen: seq<Sample>, now: nat, base: real,
                       day: DayStart)
    requires LocalDays(day) && Stores(files, seen, now, day) && InTimeOrder(seen) && NotLater(seen, now)
    requires ArchiveIsPast(archive, day(now)) && (seen != [] ==> day(seen[|seen| - 1].timestamp) != 0)
    ensures
      var a := Recovered(archive, files, now, base, day);
      PastOnly(a, archive, day(now)) && (seen != [] ==> DayOnRecord(a, day(seen[|seen| - 1].timestamp)))
  {
    RecoveryEnds(archive, files, seen, now, base, day);
    var r := StoredReplay.Recovered(Parts(files, now, archive, base, day), now, archive, base, day);
    if seen == [] {
      NothingResumed(r, day(now), archive, day);
    } else {
      ResumedIsPast(r, day(seen[|seen| - 1].timestamp), day(now), archive, day);
    }
  }

  lemma LastIsOnRecord(a: LiveAccounting.Accounting, seen: seq<Sample>, t: nat, day: DayStart)
    requires Sound(a, seen, t, day) && seen != []
    ensures DayOnRecord(a, day(seen[|seen| - 1].timestamp))
  {
  }

  /** Recovery from the files of all earlier boots, after a sound accounting. */
  lemma RecoveryAfterSound(a: LiveAccounting.Accounting, files: seq<DayFile>, seen: seq<Sample>, t: nat, now: nat,
                           base: real, day: DayStart)
    requires LocalDays(day) && Sound(a, seen, t, day) && t <= now && Stores(files, seen, now, day)
    ensures NotLater(seen, now) && ArchiveIsPast(a.archive, day(now))
    ensures
      var b := Recovered(a.archive, files, now, base, day);
      PastOnly(b, a.archive, day(now)) && (seen != [] ==> DayOnRecord(b, day(seen[|seen| - 1].timestamp)))
  {
    assert day(t) <= day(now);
    if seen != [] {
      LastIsOnRecord(a, seen, t, day);
    }
    RecoveryIsPast(a.archive, files, seen, now, base, day);
  }

  /** A day that has samples but no summary file is the last one. */
  lemma OpenDayIsLast(a: LiveAccounting.Accounting, seen: seq<Sample>, t: nat, day: DayStart, d: nat)
    requires LocalDays(day) && Sound(a, seen, t, day) && d !in a.archive
    ensures StillOpen(a.archive, seen, day, d)
    ensures !OffDay(seen, day, d) ==> d == day(seen[|seen| - 1].timestamp)
  {
    if !OffDay(seen, day, d) {
      var k :| 0 <= k < |seen| && day(seen[k].timestamp) == d;
      var last := seen[|seen| - 1];
      assert DayOnRecord(a, d) && DayOnRecord(a, day(last.timestamp));
      assert seen[k].timestamp <= last.timestamp;
      forall i | 0 <= i < |seen| ensures day(seen[i].timestamp) <= d {
        assert DayOnRecord(a, day(seen[i].timestamp));
      }
    }
  }

  /** Every day on record stays on record. */
  lemma RecordIsKept(a: LiveAccounting.Accounting, b: LiveAccounting.Accounting, seen: seq<Sample>, t: nat,
                     day: DayStart)
    requires LocalDays(day) && Sound(a, seen, t, day) && a.archive.Keys <= b.archive.Keys
    requires seen != [] ==> DayOnRecord(b, day(seen[|seen| - 1].timestamp))
    ensures OnRecord(b, seen, day)
  {
    forall k | 0 <= k < |seen| ensures DayOnRecord(b, day(seen[k].timestamp)) {
      var d := day(seen[k].timestamp);
      assert DayOnRecord(a, d);
      if d !in a.archive {
        OpenDayIsLast(a, seen, t, day, d);
      }
    }
  }

  /** A recovery from the files of all earlier boots is sound. */
  lemma RecoveryIsSound(a: LiveAccounting.Accounting, files: seq<DayFile>, seen: seq<Sample>, t: nat, now: nat,
                        base: real, day: DayStart)
    requires LocalDays(day) && Sound(a, seen, t, day) && t <= now && Stores(files, seen, now, day)
    ensures Sound(Recovered(a.archive, files, now, base, day), seen, now, day)
  {
    RecoveryAfterSound(a, files, seen, t, now, base, day);
    RecordIsKept(a, Recovered(a.archive, files, now, base, day), seen, t, day);
  }

  lemma {:induction false} ChainIsSound(boots: seq<Boot>, base: real, day: DayStart)
    requires LocalDays(day) && InOrder(boots, day)
    ensures Sound(Chain(boots, base, day), AllSamples(boots), LastTime(boots), day)
  {
    if boots != [] {
      var earlier, b := boots[..|boots| - 1], boots[|boots| - 1];
      var a, seen, t := Chain(earlier, base, day), AllSamples(earlier), LastTime(earlier);
      ChainIsSound(earlier, base, day);
      RecoveryIsSound(a, b.files, seen, t, b.now, base, day);
      RunKeepsSound(Recovered(a.archive, b.files, b.now, base, day), seen, b.now, b.events, base, day);
    }
  }

  // ----- energy

  lemma ResumedReports(r: Recovery, today: nat, archive: map<nat, Summary>, day: DayStart, d: nat, m: Measure)
    requires ReplayInv(r, today, archive, day) && d !in archive
    requires r.previous.Some? ==> day(r.previous.value.timestamp) <= today
    ensures LiveAccounting.RecordedOn(Resumed(r, today, archive), d, m) == Reported(Finished(r, today), today, d, m)
  {
  }

  /** Recovery puts on record what it reports, where no file is authoritative. */
  lemma RecoveryReports(archive: map<nat, Summary>, files: seq<DayFile>, seen: seq<Sample>, now: nat, base: real,
                        day: DayStart, d: nat, m: Measure)
    requires LocalDays(day) && Stores(files, seen, now, day) && InTimeOrder(seen) && NotLater(seen, now)
    requires d !in archive
    ensures LiveAccounting.RecordedOn(Recovered(archive, files, now, base, day), d, m) ==
            ReportedFrom(files, now, archive, base, day, d, m)
  {
    RecoveryEnds(archive, files, seen, now, base, day);
    var r := StoredReplay.Recovered(Parts(files, now, archive, base, day), now, archive, base, day);
    ResumedReports(r, day(now), archive, day, d, m);
  }

  /** The day that is still open is recomputed from the files. */
  lemma OpenDayRecovered(a: LiveAccounting.Accounting, files: seq<DayFile>, seen: seq<Sample>, t: nat, now: nat,
                         base: real, day: DayStart, d: nat, u: nat, m: Measure)
    requires LocalDays(day) && LongDays(day) && DayEnds(day, d, u) && d != 0 && d !in a.archive
    requires Sound(a, seen, t, day) && t <= now && Stores(files, seen, now, day)
    requires SecondsAgree(AllRestored(seen), base, d, u, m)
    ensures LiveAccounting.RecordedOn(Recovered(a.archive, files, now, base, day), d, m) ==
            AdjacentSum(AllRestored(seen), base, d, u, m)
  {
    var rows :| RowsOf(files, rows, seen, now, day);
    OpenDayIsLast(a, seen, t, day, d);
    OpenDayIsExact(files, rows, now, a.archive, base, day, d, u, m);
    RecoveryReports(a.archive, files, seen, now, base, day, d, m);
  }

  lemma ResumedKeeps(r: Recovery, a: LiveAccounting.Accounting, today: nat, d: nat, m: Measure)
    requires PastOnly(Resumed(r, today, a.archive), a.archive, today) && d in a.archive && SummaryIsWritten(a)
    requires forall e :: e in Finished(r, today).written ==> e !in a.archive
    ensures LiveAccounting.RecordedOn(Resumed(r, today, a.archive), d, m) == LiveAccounting.RecordedOn(a, d, m)
  {
  }

  /** Days with a summary file keep it, early or not. */
  lemma ClosedDayKept(a: LiveAccounting.Accounting, files: seq<DayFile>, seen: seq<Sample>, t: nat, now: nat,
                      base: real, day: DayStart, d: nat, m: Measure)
    requires LocalDays(day) && Sound(a, seen, t, day) && t <= now && Stores(files, seen, now, day) && d in a.archive
    ensures LiveAccounting.RecordedOn(Recovered(a.archive, files, now, base, day), d, m) ==
            LiveAccounting.RecordedOn(a, d, m)
  {
    var parts := Parts(files, now, a.archive, base, day);
    RecoveryAfterSound(a, files, seen, t, now, base, day);
    CompletedDaysStay(VisitedOf(parts), day(now), a.archive, base, day);
    ResumedKeeps(StoredReplay.Recovered(parts, now, a.archive, base, day), a, day(now), d, m);
  }

  /** The conditions under which storing and replaying the samples keeps this energy. */
  ghost predicate SurvivesStoring(seen: seq<Sample>, base: real, lower: int, upper: int, thermal: bool, m: Measure) {
    PairsSurvive(seen, lower, upper, thermal) && SecondsAgree(AllRestored(seen), base, lower, upper, m)
  }

  /** Recovery keeps the energy of every day on record. */
  lemma RecoveryKeepsEnergy(a: LiveAccounting.Accounting, files: seq<DayFile>, seen: seq<Sample>, t: nat, now: nat,
                            base: real, day: DayStart, d: nat, u: nat, thermal: bool, m: Measure)
    requires LocalDays(day) && LongDays(day) && DayEnds(day, d, u) && d != 0
    requires Sound(a, seen, t, day) && t <= now && Stores(files, seen, now, day)
    requires (m == HeatingOf(thermal) || m == DhwOf(thermal)) && SurvivesStoring(seen, base, d, u, thermal, m)
    requires LiveAccounting.RecordedOn(a, d, m) == AdjacentSum(seen, base, d, u, m)
    ensures LiveAccounting.RecordedOn(Recovered(a.archive, files, now, base, day), d, m) ==
            AdjacentSum(seen, base, d, u, m)
  {
    if d in a.archive {
      ClosedDayKept(a, files, seen, t, now, base, day, d, m);
    } else {
      OpenDayRecovered(a, files, seen, t, now, base, day, d, u, m);
      SurvivingPairsKeepEnergy(seen, base, d, u, thermal);
    }
  }

  /** The run so far remembers its last sample and is worth its adjacent samples. */
  predicate RunIsWorth(a: LiveAccounting.Accounting, events: seq<LiveAccounting.Event>, base: real, day: DayStart,
                       lower: int, upper: int, m: Measure) {
    && LiveAccounting.After(a, events, base, day).previous == LastOf(SamplesIn(events))
    && LiveAccounting.PairSum(a, events, base, day, lower, upper, m) ==
       AdjacentSum(SamplesIn(events), base, lower, upper, m)
  }

  lemma OneMoreEvent(a: LiveAccounting.Accounting, before: seq<LiveAccounting.Event>, e: LiveAccounting.Event,
                     base: real, day: DayStart, lower: int, upper: int, m: Measure)
    requires RunIsWorth(a, before, base, day, lower, upper, m)
    requires e.SampleTaken? ==> LiveAccounting.Accepted(e.sample, day)
    ensures RunIsWorth(a, before + [e], base, day, lower, upper, m)
  {
    AfterSnoc(a, before, e, base, day);
    PairSumSnoc(a, before, e, base, day, lower, upper, m);
    SamplesSnoc(before, e);
    if e.SampleTaken? {
      AdjacentSumSnoc(SamplesIn(before), e.sample, base, lower, upper, m);
    }
  }

  /** The reference sum of a run is that over its adjacent samples. */
  lemma {:induction false} RunIsAdjacentSum(a: LiveAccounting.Accounting, t: nat, events: seq<LiveAccounting.Event>,
                                            base: real, day: DayStart, lower: int, upper: int, m: Measure)
    requires a.previous.None? && Runs(t, events, day)
    ensures RunIsWorth(a, events, base, day, lower, upper, m)
  {
    if events != [] {
      var earlier, e := events[..|events| - 1], events[|events| - 1];
      RunsBefore(t, events, day);
      RunIsAdjacentSum(a, t, earlier, base, day, lower, upper, m);
      OneMoreEvent(a, earlier, e, base, day, lower, upper, m);
      assert earlier + [e] == events;
    }
  }

  /** No energy is counted between boots. */
  lemma NoEnergyBetween(seen: seq<Sample>, samples: seq<Sample>, base: real, lower: int, upper: int, m: Measure)
    requires IsEnergy(m) && OtherIds(seen, samples)
    ensures AdjacentSum(seen + samples, base, lower, upper, m) ==
            AdjacentSum(seen, base, lower, upper, m) + AdjacentSum(samples, base, lower, upper, m)
  {
    BootJoins(seen, samples, base, lower, upper, m);
  }

  /** One more boot adds its own energy to every day. */
  lemma BootAddsItsRun(a: LiveAccounting.Accounting, seen: seq<Sample>, t: nat, b: Boot, base: real, day: DayStart,
                       d: nat, u: nat, m: Measure)
    requires LocalDays(day) && LongDays(day) && DayEnds(day, d, u) && d != 0
    requires Sound(a, seen, t, day) && FollowsBoots(seen, t, b, day)
    ensures LiveAccounting.RecordedOn(BootAfter(a.archive, b, base, day), d, m) ==
            LiveAccounting.RecordedOn(Recovered(a.archive, b.files, b.now, base, day), d, m) +
            AdjacentSum(SamplesIn(b.events), base, d, u, m)
  {
    var r := Recovered(a.archive, b.files, b.now, base, day);
    RecoveryIsSound(a, b.files, seen, t, b.now, base, day);
    RunKeepsSound(r, seen, b.now, b.events, base, day);
    LiveAccounting.EveryDayIsExact(r, b.events, base, day, d, u, m);
    RunIsAdjacentSum(r, b.now, b.events, base, day, d, u, m);
  }

  lemma OneBootIsExact(a: LiveAccounting.Accounting, seen: seq<Sample>, t: nat, b: Boot, base: real, day: DayStart,
                       d: nat, u: nat, thermal: bool, m: Measure)
    requires LocalDays(day) && LongDays(day) && DayEnds(day, d, u) && d != 0
    requires Sound(a, seen, t, day) && FollowsBoots(seen, t, b, day)
    requires (m == HeatingOf(thermal) || m == DhwOf(thermal)) && SurvivesStoring(seen, base, d, u, thermal, m)
    requires LiveAccounting.RecordedOn(a, d, m) == AdjacentSum(seen, base, d, u, m)
    ensures LiveAccounting.RecordedOn(BootAfter(a.archive, b, base, day), d, m) ==
            AdjacentSum(seen + SamplesIn(b.events), base, d, u, m)
  {
    RecoveryKeepsEnergy(a, b.files, seen, t, b.now, base, day, d, u, thermal, m);
    BootAddsItsRun(a, seen, t, b, base, day, d, u, m);
    NoEnergyBetween(seen, SamplesIn(b.events), base, d, u, m);
  }

  lemma SurvivesBefore(a: seq<Sample>, b: seq<Sample>, base: real, lower: int, upper: int, thermal: bool, m: Measure)
    requires SurvivesStoring(a + b, base, lower, upper, thermal, m)
    ensures SurvivesStoring(a, base, lower, upper, thermal, m)
  {
    RestoredJoined(a, b);
    SecondsAgreeBefore(AllRestored(a), AllRestored(b), base, lower, upper, m);
    forall k | 0 < k < |a| ensures PairKeepsEnergy(a[k - 1], a[k], lower, upper, thermal) {
      assert PairKeepsEnergy((a + b)[k - 1], (a + b)[k], lower, upper, thermal);
    }
  }

  /** The energy on record for the day is that of all samples of these boots. */
  predicate Exact(boots: seq<Boot>, base: real, day: DayStart, d: nat, u: nat, m: Measure) {
    LiveAccounting.RecordedOn(Chain(boots, base, day), d, m) == AdjacentSum(AllSamples(boots), base, d, u, m)
  }

  /**
   After any number of boots, each recovering from the files of all earlier ones, with past days read from their tails
   only and summaries written early or late, the energy on record for every day is that of all adjacent samples clipped
   to the day: nothing is lost at a reboot, and nothing is counted twice.
   */
  lemma {:induction false} ChainIsExact(boots: seq<Boot>, base: real, day: DayStart, d: nat, u: nat, thermal: bool,
                                        m: Measure)
    requires LocalDays(day) && LongDays(day) && DayEnds(day, d, u) && d != 0 && InOrder(boots, day)
    requires m == HeatingOf(thermal) || m == DhwOf(thermal)
    requires SurvivesStoring(AllSamples(boots), base, d, u, thermal, m)
    ensures Exact(boots, base, day, d, u, m)
  {
    if boots != [] {
      var earlier, b := boots[..|boots| - 1], boots[|boots| - 1];
      SurvivesBefore(AllSamples(earlier), SamplesIn(b.events), base, d, u, thermal, m);
      ChainIsExact(earlier, base, day, d, u, thermal, m);
      ChainIsSound(earlier, base, day);
      var a, seen, t := Chain(earlier, base, day), AllSamples(earlier), LastTime(earlier);
      OneBootIsExact(a, seen, t, b, base, day, d, u, thermal, m);
    }
  }
}
