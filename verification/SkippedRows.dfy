/**
 What replay reports of the stored samples: what the skipped rows and the re-derived flags change, and when nothing.
 */
module SkippedRows {
  import opened Words
  import opened HistorySamples
  import opened EnergyPairs
  import opened DailyEnergy
  import opened HistoryReplay
  import opened RepeatedSeconds
  import opened ReplayOfBoots
  import opened StoredFlags
  import opened StoredReplay

  // ----- what the skipped samples of a file are worth

  /** The intervals of the skipped samples, less the interval that replay sees in their place. */
  function Missed(previous: Option<Sample>, part: Part, base: real, lower: int, upper: int, m: Measure): real {
    if part.skipped == [] || part.visited == [] then 0.0
    else
      NewShare(previous, part.skipped[0], base, lower, upper, m) + AdjacentSum(part.skipped, base, lower, upper, m) +
      Share(part.skipped[|part.skipped| - 1], part.visited[0], base, lower, upper, m) -
      NewShare(previous, part.visited[0], base, lower, upper, m)
  }

  function MissedIn(parts: seq<Part>, base: real, lower: int, upper: int, m: Measure): real {
    if parts == [] then 0.0
    else
      var earlier := parts[..|parts| - 1];
      MissedIn(earlier, base, lower, upper, m) +
        Missed(LastOf(AllOf(earlier)), parts[|parts| - 1], base, lower, upper, m)
  }

  /** The tail of a file holds a sample. */
  predicate TailSeen(part: Part) {
    part.skipped != [] ==> part.visited != []
  }

  lemma PartAdds(all: seq<Sample>, seen: seq<Sample>, part: Part, base: real, lower: int, upper: int, m: Measure)
    requires LastOf(all) == LastOf(seen) && TailSeen(part)
    ensures AdjacentSum(all + (part.skipped + part.visited), base, lower, upper, m) -
            AdjacentSum(all, base, lower, upper, m) ==
            AdjacentSum(seen + part.visited, base, lower, upper, m) - AdjacentSum(seen, base, lower, upper, m) +
            Missed(LastOf(all), part, base, lower, upper, m)
    ensures LastOf(all + (part.skipped + part.visited)) == LastOf(seen + part.visited)
  {
    BootJoins(seen, part.visited, base, lower, upper, m);
    BootJoins(all, part.skipped + part.visited, base, lower, upper, m);
    BootJoins(part.skipped, part.visited, base, lower, upper, m);
    if part.skipped == [] {
      assert part.skipped + part.visited == part.visited;
    }
  }

  /** All stored samples are worth what the visited ones are worth, and what the skipped ones are. */
  lemma {:induction false} SkippedRowsAreMissed(parts: seq<Part>, base: real, lower: int, upper: int, m: Measure)
    requires forall k :: 0 <= k < |parts| ==> TailSeen(parts[k])
    ensures LastOf(AllOf(parts)) == LastOf(VisitedOf(parts))
    ensures AdjacentSum(AllOf(parts), base, lower, upper, m) ==
            AdjacentSum(VisitedOf(parts), base, lower, upper, m) + MissedIn(parts, base, lower, upper, m)
  {
    if parts != [] {
      var earlier, part := parts[..|parts| - 1], parts[|parts| - 1];
      SkippedRowsAreMissed(earlier, base, lower, upper, m);
      PartAdds(AllOf(earlier), VisitedOf(earlier), part, base, lower, upper, m);
    }
  }

  // ----- skipped samples of other days

  lemma OffDayShare(p: Sample, c: Sample, base: real, day: DayStart, d: nat, u: nat, m: Measure)
    requires LocalDays(day) && LongDays(day) && DayEnds(day, d, u)
    requires day(p.timestamp) != d && day(c.timestamp) != d && p.timestamp <= c.timestamp
    ensures Share(p, c, base, d, u, m) == 0.0
  {
    assert day(d) == d;
    assert p.timestamp < d && u <= c.timestamp ==> c.timestamp > p.timestamp + MAX_GAP;
  }

  /** No sample is on the day that starts at d. */
  predicate OffDay(samples: seq<Sample>, day: DayStart, d: nat) {
    forall k :: 0 <= k < |samples| ==> day(samples[k].timestamp) != d
  }

  lemma {:induction false} OffDayRun(samples: seq<Sample>, base: real, day: DayStart, d: nat, u: nat, m: Measure)
    requires LocalDays(day) && LongDays(day) && DayEnds(day, d, u)
    requires InTimeOrder(samples) && OffDay(samples, day, d)
    ensures AdjacentSum(samples, base, d, u, m) == 0.0
  {
    if |samples| >= 2 {
      OffDayRun(samples[..|samples| - 1], base, day, d, u, m);
      OffDayShare(samples[|samples| - 2], samples[|samples| - 1], base, day, d, u, m);
    }
  }

  /** The skipped samples, and the first one visited behind them, are of other days. */
  predicate SkipsOtherDays(part: Part, day: DayStart, d: nat) {
    part.skipped != [] ==> part.visited != [] && OffDay(part.skipped + part.visited[..1], day, d)
  }

  /** The first interval into a file is worth the same with and without the skipped samples. */
  predicate FirstIntervalKept(previous: Option<Sample>, part: Part, base: real, lower: int, upper: int, m: Measure) {
    part.skipped != [] && part.visited != [] ==>
      NewShare(previous, part.skipped[0], base, lower, upper, m) ==
        NewShare(previous, part.visited[0], base, lower, upper, m)
  }

  /** The neighbours in a cut file are in order. */
  lemma CutInOrder(part: Part, day: DayStart, d: nat)
    requires SkipsOtherDays(part, day, d) && InTimeOrder(part.skipped + part.visited) && part.skipped != []
    ensures InTimeOrder(part.skipped) && OffDay(part.skipped, day, d) && day(part.visited[0].timestamp) != d
    ensures part.skipped[|part.skipped| - 1].timestamp <= part.visited[0].timestamp
  {
    var s, n := part.skipped + part.visited[..1], |part.skipped|;
    OrderedParts(part.skipped, part.visited);
    assert forall k :: 0 <= k < n ==> s[k] == part.skipped[k];
    assert s[n] == part.visited[0];
    assert (part.skipped + part.visited)[n] == part.visited[0];
    assert (part.skipped + part.visited)[n - 1] == part.skipped[n - 1];
  }

  /** Then only the first interval into the file can be missed. */
  lemma OnlyFirstIntervalIsMissed(previous: Option<Sample>, part: Part, base: real, day: DayStart, d: nat, u: nat,
                                  m: Measure)
    requires LocalDays(day) && LongDays(day) && DayEnds(day, d, u)
    requires SkipsOtherDays(part, day, d) && InTimeOrder(part.skipped + part.visited)
    ensures Missed(previous, part, base, d, u, m) == 0.0 <==> FirstIntervalKept(previous, part, base, d, u, m)
  {
    if part.skipped != [] {
      CutInOrder(part, day, d);
      OffDayRun(part.skipped, base, day, d, u, m);
      OffDayShare(part.skipped[|part.skipped| - 1], part.visited[0], base, day, d, u, m);
    }
  }

  predicate Before(samples: seq<Sample>, t: nat) {
    forall k :: 0 <= k < |samples| ==> samples[k].timestamp < t
  }

  /** The first interval into file k is kept. */
  predicate FileKept(parts: seq<Part>, k: nat, base: real, lower: int, upper: int, m: Measure)
    requires k < |parts|
  {
    FirstIntervalKept(LastOf(AllOf(parts[..k])), parts[k], base, lower, upper, m)
  }

  predicate AllFilesKept(parts: seq<Part>, base: real, lower: int, upper: int, m: Measure) {
    forall k :: 0 <= k < |parts| ==> FileKept(parts, k, base, lower, upper, m)
  }

  lemma SameFileKept(parts: seq<Part>, k: nat, base: real, lower: int, upper: int, m: Measure)
    requires k + 1 < |parts|
    ensures FileKept(parts[..|parts| - 1], k, base, lower, upper, m) <==> FileKept(parts, k, base, lower, upper, m)
  {
    assert parts[..|parts| - 1][..k] == parts[..k];
  }

  lemma FilesKeptSnoc(parts: seq<Part>, base: real, lower: int, upper: int, m: Measure)
    requires parts != []
    ensures AllFilesKept(parts, base, lower, upper, m) <==>
            && AllFilesKept(parts[..|parts| - 1], base, lower, upper, m)
            && FileKept(parts, |parts| - 1, base, lower, upper, m)
  {
    var earlier, n := parts[..|parts| - 1], |parts| - 1;
    if AllFilesKept(parts, base, lower, upper, m) {
      forall k | 0 <= k < n ensures FileKept(earlier, k, base, lower, upper, m) {
        assert FileKept(parts, k, base, lower, upper, m);
        SameFileKept(parts, k, base, lower, upper, m);
      }
      assert FileKept(parts, n, base, lower, upper, m);
    }
    if AllFilesKept(earlier, base, lower, upper, m) && FileKept(parts, n, base, lower, upper, m) {
      forall k | 0 <= k < |parts| ensures FileKept(parts, k, base, lower, upper, m) {
        if k < n {
          assert FileKept(earlier, k, base, lower, upper, m);
          SameFileKept(parts, k, base, lower, upper, m);
        }
      }
    }
  }

  ghost predicate AllSkipOtherDays(parts: seq<Part>, day: DayStart, d: nat) {
    forall k :: 0 <= k < |parts| ==> SkipsOtherDays(parts[k], day, d)
  }

  lemma FirstIntervalBefore(previous: Option<Sample>, part: Part, base: real, day: DayStart, d: nat, u: nat, m: Measure)
    requires DayEnds(day, d, u) && SkipsOtherDays(part, day, d) && Before(part.skipped + part.visited, u)
    ensures FirstIntervalKept(previous, part, base, d, u, m)
  {
    if part.skipped != [] {
      var s := part.skipped + part.visited[..1];
      assert s[0] == part.skipped[0] && s[|part.skipped|] == part.visited[0];
      assert (part.skipped + part.visited)[0] == part.skipped[0];
      assert (part.skipped + part.visited)[|part.skipped|] == part.visited[0];
      assert day(part.skipped[0].timestamp) != d && day(part.visited[0].timestamp) != d;
    }
  }

  /** Files that end before the day miss nothing of it. */
  lemma {:induction false} EarlierFilesMissNothing(parts: seq<Part>, base: real, day: DayStart, d: nat, u: nat,
                                                   m: Measure)
    requires LocalDays(day) && LongDays(day) && DayEnds(day, d, u)
    requires InTimeOrder(AllOf(parts)) && AllSkipOtherDays(parts, day, d) && Before(AllOf(parts), u)
    ensures MissedIn(parts, base, d, u, m) == 0.0 && AllFilesKept(parts, base, d, u, m)
  {
    if parts != [] {
      var earlier, part := parts[..|parts| - 1], parts[|parts| - 1];
      BeforeParts(AllOf(earlier), part.skipped + part.visited, u);
      OrderedParts(AllOf(earlier), part.skipped + part.visited);
      EarlierFilesMissNothing(earlier, base, day, d, u, m);
      FirstIntervalBefore(LastOf(AllOf(earlier)), part, base, day, d, u, m);
      OnlyFirstIntervalIsMissed(LastOf(AllOf(earlier)), part, base, day, d, u, m);
      FilesKeptSnoc(parts, base, d, u, m);
    }
  }

  lemma BeforeParts(a: seq<Sample>, b: seq<Sample>, t: nat)
    requires Before(a + b, t)
    ensures Before(a, t) && Before(b, t)
  {
    assert forall k :: 0 <= k < |a| ==> a[k] == (a + b)[k];
    assert forall k :: 0 <= k < |b| ==> b[k] == (a + b)[|a| + k];
  }

  /** An interval worth something starts before the day ends, and so do all samples before it. */
  lemma WorthlessOrBefore(samples: seq<Sample>, c: Sample, base: real, d: nat, u: nat, m: Measure)
    requires InTimeOrder(samples)
    ensures NewShare(LastOf(samples), c, base, d, u, m) == 0.0 || Before(samples, u)
  {
    if samples != [] && samples[|samples| - 1].timestamp < u {
      assert forall k :: 0 <= k < |samples| ==> samples[k].timestamp <= samples[|samples| - 1].timestamp;
    }
  }

  /** Nothing of the day is missed if and only if the first interval into every file is kept. */
  lemma {:induction false} MissedExactly(parts: seq<Part>, base: real, day: DayStart, d: nat, u: nat, m: Measure)
    requires LocalDays(day) && LongDays(day) && DayEnds(day, d, u)
    requires InTimeOrder(AllOf(parts)) && AllSkipOtherDays(parts, day, d)
    ensures MissedIn(parts, base, d, u, m) == 0.0 <==> AllFilesKept(parts, base, d, u, m)
  {
    if parts != [] {
      var earlier, part := parts[..|parts| - 1], parts[|parts| - 1];
      OrderedParts(AllOf(earlier), part.skipped + part.visited);
      MissedExactly(earlier, base, day, d, u, m);
      FilesKeptSnoc(parts, base, d, u, m);
      OnlyFirstIntervalIsMissed(LastOf(AllOf(earlier)), part, base, day, d, u, m);
      if !FileKept(parts, |parts| - 1, base, d, u, m) {
        WorthlessOrBefore(AllOf(earlier), part.skipped[0], base, d, u, m);
        WorthlessOrBefore(AllOf(earlier), part.visited[0], base, d, u, m);
        EarlierFilesMissNothing(earlier, base, day, d, u, m);
      }
    }
  }

  /**
   A recomputed day is the adjacent stored samples clipped to it, less what was missed, and with what the seconds with
   several samples change. When no skipped sample is on the day and these seconds agree, it is exact if and only if the
   first interval into every file is kept: the file is not cut to its tail, or its first sample is in the tail, or the
   interval to that sample is worth what the interval to the tail is (nothing, if the tail begins more than 600 seconds
   later).
   */
  lemma TailVisitIsExact(parts: seq<Part>, today: nat, stored: map<nat, Summary>, base: real, day: DayStart,
                         d: nat, u: nat, m: Measure)
    requires LocalDays(day) && LongDays(day) && DayEnds(day, d, u) && d != 0 && d !in stored
    requires InTimeOrder(AllOf(parts)) && forall k :: 0 <= k < |parts| ==> TailSeen(parts[k])
    ensures
      var reported := Reported(Finished(Replayed(VisitedOf(parts), today, stored, base, day), today), today, d, m);
      var whole := AdjacentSum(AllOf(parts), base, d, u, m);
      && reported == whole - MissedIn(parts, base, d, u, m) + Repeats(VisitedOf(parts), base, d, u, m)
      && (AllSkipOtherDays(parts, day, d) && RepeatsAgree(VisitedOf(parts), base, d, u, m) ==>
            (reported == whole <==> AllFilesKept(parts, base, d, u, m)))
  {
    VisitIsWorth(parts, today, stored, base, day, d, u, m);
    if AllSkipOtherDays(parts, day, d) && RepeatsAgree(VisitedOf(parts), base, d, u, m) {
      MissedExactly(parts, base, day, d, u, m);
      AgreeingRepeats(VisitedOf(parts), base, d, u, m);
    }
  }

  lemma VisitIsWorth(parts: seq<Part>, today: nat, stored: map<nat, Summary>, base: real, day: DayStart,
                     d: nat, u: nat, m: Measure)
    requires LocalDays(day) && LongDays(day) && DayEnds(day, d, u) && d != 0 && d !in stored
    requires forall k :: 0 <= k < |parts| ==> TailSeen(parts[k])
    ensures
      Reported(Finished(Replayed(VisitedOf(parts), today, stored, base, day), today), today, d, m) ==
      AdjacentSum(AllOf(parts), base, d, u, m) - MissedIn(parts, base, d, u, m) +
      Repeats(VisitedOf(parts), base, d, u, m)
  {
    RecoveredDaysAreExact(VisitedOf(parts), today, stored, base, day, d, u, m);
    KeptIsWorth(VisitedOf(parts), base, d, u, m);
    SkippedRowsAreMissed(parts, base, d, u, m);
  }

  /** Among samples of other days no second matters. */
  lemma OffDayJoin(p: Option<Sample>, next: Sample, base: real, day: DayStart, d: nat, u: nat, m: Measure)
    requires LocalDays(day) && LongDays(day) && DayEnds(day, d, u) && day(next.timestamp) != d
    requires p.None? || p.value.timestamp <= next.timestamp
    requires p.None? || day(p.value.timestamp) != d || p.value.timestamp + MAX_GAP < next.timestamp
    ensures NewShare(p, next, base, d, u, m) == 0.0
  {
    if p.Some? && day(p.value.timestamp) != d {
      OffDayShare(p.value, next, base, day, d, u, m);
    }
  }

  lemma KeptAlone(p: Sample)
    ensures Kept([p]) == [p]
  {
    assert [p][..0] == [];
  }

  /** The last kept sample of p and what follows it is p, or follows it. */
  lemma KeptAfter(p: Sample, vs: seq<Sample>)
    requires InTimeOrder([p] + vs) && (vs != [] ==> p.timestamp < vs[0].timestamp)
    ensures
      var kept := Kept([p] + vs);
      && kept != [] && kept[|kept| - 1].timestamp == ([p] + vs)[|vs|].timestamp
      && if vs == [] then kept[|kept| - 1] == p else kept[|kept| - 1] in vs
  {
    var all := [p] + vs;
    KeptEndsInTime(all);
    if vs == [] {
      assert all == [p];
      KeptAlone(p);
    } else {
      var last := Kept(all)[|Kept(all)| - 1];
      assert all[1] == vs[0] && all[1].timestamp <= all[|vs|].timestamp;
      assert last in all && last.timestamp > p.timestamp;
    }
  }

  /** What a day ends with is worth nothing if what follows is of other days and begins more than 600 seconds later. */
  lemma {:induction false} FarRunIsWorthless(p: Sample, vs: seq<Sample>, base: real, day: DayStart, d: nat, u: nat,
                                             m: Measure)
    requires LocalDays(day) && LongDays(day) && DayEnds(day, d, u)
    requires InTimeOrder([p] + vs) && OffDay(vs, day, d) && (vs != [] ==> p.timestamp + MAX_GAP < vs[0].timestamp)
    ensures AdjacentSum(Kept([p] + vs), base, d, u, m) == 0.0
  {
    var all := [p] + vs;
    if vs == [] {
      assert all == [p];
      KeptAlone(p);
    } else {
      var earlier, last := vs[..|vs| - 1], vs[|vs| - 1];
      assert all[..|vs|] == [p] + earlier && [p] + earlier + [last] == all;
      OrderedParts([p] + earlier, [last]);
      FarRunIsWorthless(p, earlier, base, day, d, u, m);
      KeptAfter(p, earlier);
      KeptAdds(all, base, d, u, m);
      assert all[|vs| - 1].timestamp <= last.timestamp;
      OffDayJoin(LastOf(Kept([p] + earlier)), last, base, day, d, u, m);
    }
  }

  /**
   A day without a summary file loses the interval into the next file when that is cut and its tail begins more than
   600 seconds later: cs are skipped, vs are visited.
   */
  lemma TailLosesFirstInterval(p: Sample, cs: seq<Sample>, vs: seq<Sample>, today: nat, stored: map<nat, Summary>,
                               base: real, day: DayStart, d: nat, u: nat, m: Measure)
    requires LocalDays(day) && LongDays(day) && DayEnds(day, d, u) && d != 0 && d !in stored
    requires cs != [] && vs != [] && OffDay(cs + vs, day, d) && p.timestamp + MAX_GAP < vs[0].timestamp
    requires OneBoot([p] + (cs + vs), day) && InTimeOrder([p] + (cs + vs))
    ensures Reported(Finished(Replayed([p] + vs, today, stored, base, day), today), today, d, m) == 0.0
    ensures LiveRecords([[p] + (cs + vs)], base, day, d, m) == Share(p, cs[0], base, d, u, m)
  {
    VisitedRunInOrder(p, cs, vs, day, d);
    RecoveredDaysAreExact([p] + vs, today, stored, base, day, d, u, m);
    FarRunIsWorthless(p, vs, base, day, d, u, m);
    DayEndRecorded(p, cs + vs, base, day, d, u, m);
    assert (cs + vs)[0] == cs[0];
  }

  /** For one: the compressor time up to midnight is on record, and lost. */
  lemma RunningPastMidnightIsLost(p: Sample, cs: seq<Sample>, vs: seq<Sample>, today: nat, stored: map<nat, Summary>,
                                  base: real, day: DayStart, d: nat, u: nat)
    requires LocalDays(day) && LongDays(day) && DayEnds(day, d, u) && d != 0 && d !in stored
    requires cs != [] && vs != [] && OffDay(cs + vs, day, d) && p.timestamp + MAX_GAP < vs[0].timestamp
    requires OneBoot([p] + (cs + vs), day) && InTimeOrder([p] + (cs + vs))
    requires day(p.timestamp) == d && u <= cs[0].timestamp <= p.timestamp + MAX_GAP && cs[0].compressor
    ensures Reported(Finished(Replayed([p] + vs, today, stored, base, day), today), today, d, CompressorSeconds) == 0.0
    ensures LiveRecords([[p] + (cs + vs)], base, day, d, CompressorSeconds) == (u - p.timestamp) as real > 0.0
  {
    TailLosesFirstInterval(p, cs, vs, today, stored, base, day, d, u, CompressorSeconds);
    assert ([p] + (cs + vs))[0] == p;
  }

  lemma VisitedRunInOrder(p: Sample, cs: seq<Sample>, vs: seq<Sample>, day: DayStart, d: nat)
    requires OffDay(cs + vs, day, d) && InTimeOrder([p] + (cs + vs))
    ensures OffDay(vs, day, d) && InTimeOrder([p] + vs)
  {
    var all := [p] + (cs + vs);
    assert forall k :: 0 <= k < |vs| ==> vs[k] == (cs + vs)[|cs| + k] == all[1 + |cs| + k];
    assert all[0] == p;
  }

  /** The last sample of a day, and samples of other days: the interval between them is all the day has. */
  lemma DayEndRecorded(p: Sample, later: seq<Sample>, base: real, day: DayStart, d: nat, u: nat, m: Measure)
    requires LocalDays(day) && LongDays(day) && DayEnds(day, d, u) && d != 0
    requires later != [] && OffDay(later, day, d) && OneBoot([p] + later, day) && InTimeOrder([p] + later)
    ensures LiveRecords([[p] + later], base, day, d, m) == Share(p, later[0], base, d, u, m)
  {
    OneBootRecords([p] + later, base, day, d, u, m);
    JoinedRunsAdd([p], later, base, d, u, m);
    OrderedParts([p], later);
    OffDayRun(later, base, day, d, u, m);
  }

  // ----- long files, wherever the day's samples are

  lemma SharesArePositive(p: Sample, c: Sample, base: real, lower: int, upper: int, m: Measure)
    ensures Share(p, c, base, lower, upper, m) >= 0.0
  {
    if IsEnergy(m) {
      var thermal := m.HeatThermal? || m.DhwThermal?;
      SharesByGroup(p, c, base, lower, upper, thermal);
      PoweredIsPositive(p, c, lower, upper, thermal);
    } else {
      SpentTimeIsPositive(p, c, base, lower, upper, m);
    }
  }

  predicate Worthless(samples: seq<Sample>, base: real, lower: int, upper: int, m: Measure) {
    forall k :: 0 < k < |samples| ==> Share(samples[k - 1], samples[k], base, lower, upper, m) == 0.0
  }

  lemma WorthlessSnoc(samples: seq<Sample>, s: Sample, base: real, lower: int, upper: int, m: Measure)
    ensures Worthless(samples + [s], base, lower, upper, m) <==>
            Worthless(samples, base, lower, upper, m) && NewShare(LastOf(samples), s, base, lower, upper, m) == 0.0
  {
    var all := samples + [s];
    forall k | 0 < k < |samples|
      ensures Share(all[k - 1], all[k], base, lower, upper, m) ==
              Share(samples[k - 1], samples[k], base, lower, upper, m)
    {
    }
    if samples != [] {
      assert Share(all[|samples| - 1], all[|samples|], base, lower, upper, m) ==
             NewShare(LastOf(samples), s, base, lower, upper, m);
    }
  }

  lemma {:induction false} RunsArePositive(samples: seq<Sample>, base: real, lower: int, upper: int, m: Measure)
    ensures AdjacentSum(samples, base, lower, upper, m) >= 0.0
    ensures AdjacentSum(samples, base, lower, upper, m) == 0.0 <==> Worthless(samples, base, lower, upper, m)
  {
    if samples != [] {
      var earlier, s := samples[..|samples| - 1], samples[|samples| - 1];
      assert samples == earlier + [s];
      RunsArePositive(earlier, base, lower, upper, m);
      AdjacentSumSnoc(earlier, s, base, lower, upper, m);
      WorthlessSnoc(earlier, s, base, lower, upper, m);
      if earlier != [] {
        SharesArePositive(earlier[|earlier| - 1], s, base, lower, upper, m);
      }
    }
  }

  /** The tail begins more than 600 seconds after the last sample before the file. */
  predicate FarTail(previous: Option<Sample>, part: Part) {
    && TailSeen(part)
    && (part.skipped != [] && previous.Some? ==> previous.value.timestamp + MAX_GAP < part.visited[0].timestamp)
  }

  /** The samples whose intervals are skipped, with their neighbours. */
  function SkippedRun(previous: Option<Sample>, part: Part): seq<Sample> {
    if part.skipped == [] || part.visited == [] then []
    else (if previous.None? then [] else [previous.value]) + part.skipped + [part.visited[0]]
  }

  lemma FarTailMissesTheRun(previous: Option<Sample>, part: Part, base: real, lower: int, upper: int, m: Measure)
    requires FarTail(previous, part)
    ensures Missed(previous, part, base, lower, upper, m) ==
            AdjacentSum(SkippedRun(previous, part), base, lower, upper, m)
  {
    if part.skipped != [] {
      var first := if previous.None? then [] else [previous.value];
      BootJoins(first, part.skipped, base, lower, upper, m);
      AdjacentSumSnoc(first + part.skipped, part.visited[0], base, lower, upper, m);
    }
  }

  predicate FarFile(parts: seq<Part>, k: nat)
    requires k < |parts|
  {
    FarTail(LastOf(AllOf(parts[..k])), parts[k])
  }

  ghost predicate FarTails(parts: seq<Part>) {
    forall k :: 0 <= k < |parts| ==> FarFile(parts, k)
  }

  predicate FileWorthless(parts: seq<Part>, k: nat, base: real, lower: int, upper: int, m: Measure)
    requires k < |parts|
  {
    Worthless(SkippedRun(LastOf(AllOf(parts[..k])), parts[k]), base, lower, upper, m)
  }

  /** No skipped interval of the first n files is worth anything. */
  predicate WorthlessBefore(parts: seq<Part>, n: nat, base: real, lower: int, upper: int, m: Measure)
    requires n <= |parts|
  {
    n == 0 ||
    (WorthlessBefore(parts, n - 1, base, lower, upper, m) && FileWorthless(parts, n - 1, base, lower, upper, m))
  }

  predicate NothingSkipped(parts: seq<Part>, base: real, lower: int, upper: int, m: Measure) {
    WorthlessBefore(parts, |parts|, base, lower, upper, m)
  }

  lemma MissedNext(parts: seq<Part>, n: nat, base: real, lower: int, upper: int, m: Measure)
    requires n < |parts|
    ensures MissedIn(parts[..n + 1], base, lower, upper, m) ==
            MissedIn(parts[..n], base, lower, upper, m) +
            Missed(LastOf(AllOf(parts[..n])), parts[n], base, lower, upper, m)
  {
    assert parts[..n + 1][..n] == parts[..n];
  }

  /** A file with a far tail misses nothing if and only if its skipped intervals are worth nothing. */
  lemma FarFileMisses(parts: seq<Part>, n: nat, base: real, lower: int, upper: int, m: Measure)
    requires n < |parts| && FarFile(parts, n)
    ensures
      var missed := Missed(LastOf(AllOf(parts[..n])), parts[n], base, lower, upper, m);
      missed >= 0.0 && (missed == 0.0 <==> FileWorthless(parts, n, base, lower, upper, m))
  {
    var previous := LastOf(AllOf(parts[..n]));
    FarTailMissesTheRun(previous, parts[n], base, lower, upper, m);
    RunsArePositive(SkippedRun(previous, parts[n]), base, lower, upper, m);
  }

  /** The first n files can only miss, and they miss nothing exactly when no skipped interval is worth anything. */
  predicate MissedAsSaid(parts: seq<Part>, n: nat, base: real, lower: int, upper: int, m: Measure)
    requires n <= |parts|
  {
    var missed := MissedIn(parts[..n], base, lower, upper, m);
    missed >= 0.0 && (missed == 0.0 <==> WorthlessBefore(parts, n, base, lower, upper, m))
  }

  lemma OneMoreFarTail(parts: seq<Part>, n: nat, base: real, lower: int, upper: int, m: Measure)
    requires n < |parts| && FarFile(parts, n) && MissedAsSaid(parts, n, base, lower, upper, m)
    ensures MissedAsSaid(parts, n + 1, base, lower, upper, m)
  {
    FarFileMisses(parts, n, base, lower, upper, m);
    MissedNext(parts, n, base, lower, upper, m);
  }

  /** Far tails can only miss, and they miss nothing if and only if every skipped interval is worth nothing. */
  lemma {:induction false} FarTailsMissExactly(parts: seq<Part>, n: nat, base: real, lower: int, upper: int, m: Measure)
    requires n <= |parts| && FarTails(parts)
    ensures MissedAsSaid(parts, n, base, lower, upper, m)
  {
    if n > 0 {
      FarTailsMissExactly(parts, n - 1, base, lower, upper, m);
      assert FarFile(parts, n - 1);
      OneMoreFarTail(parts, n - 1, base, lower, upper, m);
    }
  }

  /**
   With far tails, when the seconds with several samples agree, a recomputed day is at most the adjacent stored samples
   clipped to it, and exactly that if and only if no skipped interval is worth anything in the day, even if samples of
   the day were stored in the next day's file.
   */
  lemma FarTailVisitIsExact(parts: seq<Part>, today: nat, stored: map<nat, Summary>, base: real, day: DayStart,
                            d: nat, u: nat, m: Measure)
    requires LocalDays(day) && LongDays(day) && DayEnds(day, d, u) && d != 0 && d !in stored
    requires FarTails(parts) && RepeatsAgree(VisitedOf(parts), base, d, u, m)
    ensures
      var reported := Reported(Finished(Replayed(VisitedOf(parts), today, stored, base, day), today), today, d, m);
      var whole := AdjacentSum(AllOf(parts), base, d, u, m);
      reported <= whole && (reported == whole <==> NothingSkipped(parts, base, d, u, m))
  {
    forall k | 0 <= k < |parts| ensures TailSeen(parts[k]) {
      assert FarFile(parts, k);
    }
    VisitIsWorth(parts, today, stored, base, day, d, u, m);
    FarTailsMissExactly(parts, |parts|, base, d, u, m);
    assert parts[..|parts|] == parts;
    AgreeingRepeats(VisitedOf(parts), base, d, u, m);
  }
}
