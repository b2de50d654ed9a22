/** A recovery in which the files that are cut to their tails belong to days that are over. */
module RecoveredTails {
  import opened Words
  import opened HistorySamples
  import opened DailyEnergy
  import opened HistoryReplay
  import opened RepeatedSeconds
  import opened ReplayOfBoots
  import opened StoredFlags
  import opened StoredReplay
  import opened SkippedRows
  import opened ReplayedFiles

  // ----- repeated seconds among visited samples

  /** Whichever sample of a second the next interval is counted from, it is worth the same. */
  ghost predicate SecondsAgree(samples: seq<Sample>, base: real, lower: int, upper: int, m: Measure) {
    forall i, k :: 0 <= i < k < |samples| && samples[i].timestamp == samples[k - 1].timestamp ==>
      Share(samples[i], samples[k], base, lower, upper, m) == Share(samples[k - 1], samples[k], base, lower, upper, m)
  }

  /** The last kept sample is one of the samples of the last second. */
  lemma KeptLast(samples: seq<Sample>) returns (i: nat)
    requires samples != [] && InTimeOrder(samples)
    ensures i < |samples| && samples[i].timestamp == samples[|samples| - 1].timestamp
    ensures LastOf(Kept(samples)) == Some(samples[i])
  {
    KeptEndsInTime(samples);
    var kept := Kept(samples);
    var p := kept[|kept| - 1];
    assert p in samples;
    i :| 0 <= i < |samples| && samples[i] == p;
  }

  /** Sample next, which follows both all and the visited samples. */
  lemma NextAgrees(all: seq<Sample>, visited: seq<Sample>, next: Sample, base: real, lower: int, upper: int, m: Measure)
    requires InTimeOrder(visited) && LastOf(all) == LastOf(visited) && forall v :: v in visited ==> v in all
    requires SecondsAgree(all + [next], base, lower, upper, m)
    ensures Rejoined(visited, next, base, lower, upper, m) == 0.0
  {
    if visited != [] {
      var i := KeptLast(visited);
      assert visited[i] in visited;
      var j :| 0 <= j < |all| && all[j] == visited[i];
      var longer, k := all + [next], |all|;
      assert longer[j] == all[j] && longer[k - 1] == all[k - 1] && longer[k] == next;
      assert Share(longer[j], longer[k], base, lower, upper, m) ==
             Share(longer[k - 1], longer[k], base, lower, upper, m);
    }
  }

  lemma SecondsAgreeBefore(a: seq<Sample>, b: seq<Sample>, base: real, lower: int, upper: int, m: Measure)
    requires SecondsAgree(a + b, base, lower, upper, m)
    ensures SecondsAgree(a, base, lower, upper, m)
  {
    var all := a + b;
    forall i, k | 0 <= i < k < |a| && a[i].timestamp == a[k - 1].timestamp
      ensures Share(a[i], a[k], base, lower, upper, m) == Share(a[k - 1], a[k], base, lower, upper, m)
    {
      assert all[i] == a[i] && all[k] == a[k] && all[k - 1] == a[k - 1];
    }
  }

  /** The visited samples stem from all samples, in order, and come to the same end. */
  ghost predicate Followed(all: seq<Sample>, visited: seq<Sample>) {
    && InTimeOrder(all) && InTimeOrder(visited) && LastOf(all) == LastOf(visited)
    && forall v :: v in visited ==> v in all
  }

  lemma FollowedSnoc(all: seq<Sample>, visited: seq<Sample>, next: Sample)
    requires Followed(all, visited) && InTimeOrder(all + [next])
    ensures Followed(all + [next], visited + [next])
  {
    var longer := all + [next];
    forall i | 0 <= i < |visited| ensures visited[i].timestamp <= next.timestamp {
      assert visited[i] in visited;
      var j :| 0 <= j < |all| && all[j] == visited[i];
      assert longer[j] == all[j] && longer[|all|] == next;
    }
    forall v | v in visited + [next] ensures v in all + [next] {
    }
  }

  lemma RepeatsSnoc(samples: seq<Sample>, s: Sample, base: real, lower: int, upper: int, m: Measure)
    ensures Repeats(samples + [s], base, lower, upper, m) ==
            Repeats(samples, base, lower, upper, m) + Rejoined(samples, s, base, lower, upper, m)
  {
    assert (samples + [s])[..|samples|] == samples;
  }

  /** A file that is visited whole adds nothing to what the repeated seconds change. */
  lemma {:induction false} WholeFileAgrees(all: seq<Sample>, visited: seq<Sample>, run: seq<Sample>, base: real,
                                           lower: int, upper: int, m: Measure)
    requires Followed(all, visited) && InTimeOrder(all + run) && SecondsAgree(all + run, base, lower, upper, m)
    ensures Repeats(visited + run, base, lower, upper, m) == Repeats(visited, base, lower, upper, m)
    ensures Followed(all + run, visited + run)
  {
    if run == [] {
      assert visited + run == visited && all + run == all;
    } else {
      var earlier, s := run[..|run| - 1], run[|run| - 1];
      assert all + run == (all + earlier) + [s] && visited + run == (visited + earlier) + [s];
      OrderedParts(all + earlier, [s]);
      SecondsAgreeBefore(all + earlier, [s], base, lower, upper, m);
      WholeFileAgrees(all, visited, earlier, base, lower, upper, m);
      NextAgrees(all + earlier, visited + earlier, s, base, lower, upper, m);
      RepeatsSnoc(visited + earlier, s, base, lower, upper, m);
      FollowedSnoc(all + earlier, visited + earlier, s);
    }
  }

  lemma JoinedInOrder(a: seq<Sample>, b: seq<Sample>)
    requires InTimeOrder(a) && InTimeOrder(b)
    requires forall v, w :: v in a && w in b ==> v.timestamp <= w.timestamp
    ensures InTimeOrder(a + b)
  {
    forall i, j | 0 <= i < j < |a + b| ensures (a + b)[i].timestamp <= (a + b)[j].timestamp {
      if i < |a| <= j {
        assert a[i] in a && b[j - |a|] in b;
      }
    }
  }

  lemma RunsAreOrdered(a: seq<Sample>, b: seq<Sample>, v: Sample, w: Sample)
    requires InTimeOrder(a + b) && v in a && w in b
    ensures v.timestamp <= w.timestamp
  {
    var i :| 0 <= i < |a| && a[i] == v;
    var j :| 0 <= j < |b| && b[j] == w;
    assert (a + b)[i] == v && (a + b)[|a| + j] == w;
  }

  lemma FollowedTail(all: seq<Sample>, visited: seq<Sample>, part: Part)
    requires Followed(all, visited) && InTimeOrder(all + (part.skipped + part.visited)) && TailSeen(part)
    ensures Followed(all + (part.skipped + part.visited), visited + part.visited)
  {
    var run := part.skipped + part.visited;
    OrderedParts(all, run);
    OrderedParts(part.skipped, part.visited);
    forall v, w | v in visited && w in part.visited ensures v.timestamp <= w.timestamp {
      assert w in run;
      RunsAreOrdered(all, run, v, w);
    }
    JoinedInOrder(visited, part.visited);
    TailComesToEnd(all, visited, part);
  }

  lemma TailComesToEnd(all: seq<Sample>, visited: seq<Sample>, part: Part)
    requires LastOf(all) == LastOf(visited) && TailSeen(part)
    ensures LastOf(all + (part.skipped + part.visited)) == LastOf(visited + part.visited)
  {
    var run := part.skipped + part.visited;
    if part.visited == [] {
      assert all + run == all && visited + part.visited == visited;
    } else {
      assert (all + run)[|all + run| - 1] == part.visited[|part.visited| - 1];
    }
  }

  /** What is visited of the files stems from all of them. */
  lemma {:induction false} VisitedIsFollowed(parts: seq<Part>)
    requires InTimeOrder(AllOf(parts)) && forall k :: 0 <= k < |parts| ==> TailSeen(parts[k])
    ensures Followed(AllOf(parts), VisitedOf(parts))
  {
    if parts != [] {
      var earlier, part := parts[..|parts| - 1], parts[|parts| - 1];
      OrderedParts(AllOf(earlier), part.skipped + part.visited);
      VisitedIsFollowed(earlier);
      FollowedTail(AllOf(earlier), VisitedOf(earlier), part);
    }
  }

  // ----- when only past days are cut

  /** All samples up to the end of file k are of other days. */
  predicate OtherDaysUpTo(parts: seq<Part>, k: nat, day: DayStart, d: nat)
    requires k < |parts|
  {
    OffDay(AllOf(parts[..k + 1]), day, d)
  }

  /** Every file that is cut ends before the day. */
  ghost predicate OnlyPastCut(parts: seq<Part>, day: DayStart, d: nat) {
    forall k :: 0 <= k < |parts| && parts[k].skipped != [] ==> OtherDaysUpTo(parts, k, day, d)
  }

  lemma PastCutBefore(parts: seq<Part>, n: nat, day: DayStart, d: nat)
    requires n <= |parts| && OnlyPastCut(parts, day, d)
    ensures OnlyPastCut(parts[..n], day, d)
  {
    forall k | 0 <= k < n && parts[k].skipped != [] ensures OtherDaysUpTo(parts[..n], k, day, d) {
      assert OtherDaysUpTo(parts, k, day, d);
      assert parts[..n][..k + 1] == parts[..k + 1];
    }
  }

  lemma LastIsPast(parts: seq<Part>, day: DayStart, d: nat)
    requires parts != [] && OnlyPastCut(parts, day, d) && parts[|parts| - 1].skipped != []
    ensures OffDay(AllOf(parts), day, d)
  {
    assert OtherDaysUpTo(parts, |parts| - 1, day, d);
    assert parts[..|parts|] == parts;
  }

  lemma OffDayFollowed(all: seq<Sample>, visited: seq<Sample>, day: DayStart, d: nat)
    requires Followed(all, visited) && OffDay(all, day, d)
    ensures OffDay(visited, day, d)
  {
    forall k | 0 <= k < |visited| ensures day(visited[k].timestamp) != d {
      assert visited[k] in visited;
      var j :| 0 <= j < |all| && all[j] == visited[k];
    }
  }

  /** Among samples of other days nothing is counted, whatever is kept of them. */
  lemma {:induction false} OffDayKept(samples: seq<Sample>, base: real, day: DayStart, d: nat, u: nat, m: Measure)
    requires LocalDays(day) && LongDays(day) && DayEnds(day, d, u)
    requires InTimeOrder(samples) && OffDay(samples, day, d)
    ensures Repeats(samples, base, d, u, m) == 0.0
  {
    if samples != [] {
      var earlier, s := samples[..|samples| - 1], samples[|samples| - 1];
      OffDayKept(earlier, base, day, d, u, m);
      OffDayJoin(LastOf(earlier), s, base, day, d, u, m);
      if earlier != [] {
        var i := KeptLast(earlier);
        OffDayJoin(Some(earlier[i]), s, base, day, d, u, m);
      }
    }
  }

  /** Nothing of the day is missed, and its repeated seconds agree. */
  ghost predicate Untouched(parts: seq<Part>, base: real, d: nat, u: nat, m: Measure) {
    MissedIn(parts, base, d, u, m) == 0.0 && Repeats(VisitedOf(parts), base, d, u, m) == 0.0
  }

  lemma CutFileUntouched(parts: seq<Part>, base: real, day: DayStart, d: nat, u: nat, m: Measure)
    requires LocalDays(day) && LongDays(day) && DayEnds(day, d, u)
    requires InTimeOrder(AllOf(parts)) && OffDay(AllOf(parts), day, d)
    requires forall k :: 0 <= k < |parts| ==> TailSeen(parts[k])
    ensures Untouched(parts, base, d, u, m)
  {
    VisitedIsFollowed(parts);
    OffDayFollowed(AllOf(parts), VisitedOf(parts), day, d);
    OffDayRun(AllOf(parts), base, day, d, u, m);
    OffDayRun(VisitedOf(parts), base, day, d, u, m);
    OffDayKept(VisitedOf(parts), base, day, d, u, m);
    SkippedRowsAreMissed(parts, base, d, u, m);
  }

  lemma WholeFileMissesNothing(earlier: seq<Part>, part: Part, base: real, lower: int, upper: int, m: Measure)
    requires part.skipped == []
    ensures MissedIn(earlier + [part], base, lower, upper, m) == MissedIn(earlier, base, lower, upper, m)
  {
    assert (earlier + [part])[..|earlier|] == earlier;
  }

  lemma WholeFileUntouched(earlier: seq<Part>, part: Part, base: real, d: nat, u: nat, m: Measure)
    requires part.skipped == [] && InTimeOrder(AllOf(earlier) + part.visited)
    requires forall k :: 0 <= k < |earlier| ==> TailSeen(earlier[k])
    requires SecondsAgree(AllOf(earlier) + part.visited, base, d, u, m) && Untouched(earlier, base, d, u, m)
    ensures Untouched(earlier + [part], base, d, u, m)
  {
    var all, visited := AllOf(earlier), VisitedOf(earlier);
    OrderedParts(all, part.visited);
    VisitedIsFollowed(earlier);
    WholeFileAgrees(all, visited, part.visited, base, d, u, m);
    VisitedSnoc(earlier, part);
    WholeFileMissesNothing(earlier, part, base, d, u, m);
  }

  /** If only files that end before the day are cut, nothing of the day is missed. */
  lemma {:induction false} PastCutsMissNothing(parts: seq<Part>, base: real, day: DayStart, d: nat, u: nat, m: Measure)
    requires LocalDays(day) && LongDays(day) && DayEnds(day, d, u)
    requires InTimeOrder(AllOf(parts)) && SecondsAgree(AllOf(parts), base, d, u, m) && OnlyPastCut(parts, day, d)
    requires forall k :: 0 <= k < |parts| ==> TailSeen(parts[k])
    ensures Untouched(parts, base, d, u, m)
  {
    if parts != [] {
      var earlier, part := parts[..|parts| - 1], parts[|parts| - 1];
      if part.skipped != [] {
        LastIsPast(parts, day, d);
        CutFileUntouched(parts, base, day, d, u, m);
      } else {
        var run := part.skipped + part.visited;
        assert run == part.visited && parts == earlier + [part];
        OrderedParts(AllOf(earlier), run);
        PastCutBefore(parts, |parts| - 1, day, d);
        SecondsAgreeBefore(AllOf(earlier), run, base, d, u, m);
        PastCutsMissNothing(earlier, base, day, d, u, m);
        WholeFileUntouched(earlier, part, base, d, u, m);
      }
    }
  }

  // ----- which files are cut

  /** Every sample is in a file of its own day or of a later one: a flush writes to the file of its own day. */
  predicate DaysFit(files: seq<DayFile>, rows: seq<seq<StoredRow>>, day: DayStart) {
    && |files| == |rows|
    && forall k :: 0 <= k < |files| ==> RowsFit(files[k], rows[k], day)
  }

  predicate RowsFit(f: DayFile, rows: seq<StoredRow>, day: DayStart) {
    forall i :: 0 <= i < |rows| ==> day(rows[i].sample.timestamp) <= f.day
  }

  /** No sample is on the day, or the day comes after all days on record and is the last one with samples. */
  ghost predicate StillOpen(stored: map<nat, Summary>, seen: seq<Sample>, day: DayStart, d: nat) {
    || OffDay(seen, day, d)
    || ((forall e :: e in stored ==> e < d) && forall k :: 0 <= k < |seen| ==> day(seen[k].timestamp) <= d)
  }

  lemma OpenBefore(stored: map<nat, Summary>, a: seq<Sample>, b: seq<Sample>, day: DayStart, d: nat)
    requires StillOpen(stored, a + b, day, d)
    ensures StillOpen(stored, a, day, d)
  {
    var all := a + b;
    assert forall k :: 0 <= k < |a| ==> all[k] == a[k];
  }

  lemma {:induction false} PreviousIsVisited(samples: seq<Sample>, today: nat, stored: map<nat, Summary>, base: real,
                                             day: DayStart)
    ensures
      var r := Replayed(samples, today, stored, base, day);
      r.previous.Some? ==> r.previous.value in samples
  {
    if samples != [] {
      PreviousIsVisited(samples[..|samples| - 1], today, stored, base, day);
    }
  }

  /** A day that replay has closed is before that of a visited sample. */
  lemma WrittenIsPast(samples: seq<Sample>, today: nat, stored: map<nat, Summary>, base: real, day: DayStart, d: nat)
    requires LocalDays(day) && forall k :: 0 <= k < |samples| ==> day(samples[k].timestamp) <= d
    ensures forall e :: e in Replayed(samples, today, stored, base, day).written ==> e < d
  {
    CompletedDaysStay(samples, today, stored, base, day);
    PreviousIsVisited(samples, today, stored, base, day);
  }

  lemma RestoredTimes(samples: seq<Sample>)
    ensures forall k :: 0 <= k < |samples| ==> AllRestored(samples)[k].timestamp == samples[k].timestamp
  {
  }

  lemma RestoredDays(samples: seq<Sample>, day: DayStart, d: nat)
    ensures OffDay(samples, day, d) ==> OffDay(AllRestored(samples), day, d)
  {
    RestoredTimes(samples);
  }

  /** A file that is cut is of a day before the open one. */
  lemma CutFileIsPast(f: DayFile, visited: seq<Sample>, seen: seq<Sample>, today: nat, stored: map<nat, Summary>,
                      base: real, day: DayStart, d: nat)
    requires LocalDays(day) && StillOpen(stored, seen, day, d) && !OffDay(seen, day, d)
    requires forall v :: v in visited ==> v in AllRestored(seen)
    requires Completed(f, Replayed(visited, today, stored, base, day).written, today, stored)
    ensures f.day < d
  {
    RestoredTimes(seen);
    forall k | 0 <= k < |visited| ensures day(visited[k].timestamp) <= d {
      assert visited[k] in AllRestored(seen);
    }
    WrittenIsPast(visited, today, stored, base, day, d);
  }

  /** Then all samples up to its end are of other days. */
  lemma PastFileEndsBefore(a: seq<Sample>, f: DayFile, rows: seq<StoredRow>, day: DayStart, d: nat)
    requires LocalDays(day) && rows != [] && RowsFit(f, rows, day) && f.day < d
    requires InTimeOrder(a + SamplesOf(rows))
    ensures OffDay(a + SamplesOf(rows), day, d)
  {
    var all, last := a + SamplesOf(rows), rows[|rows| - 1].sample;
    assert all[|all| - 1] == last;
    forall k | 0 <= k < |all| ensures day(all[k].timestamp) < d {
      assert all[k].timestamp <= last.timestamp;
    }
  }

  /** The files hold these rows, in time order. */
  ghost predicate Stored(files: seq<DayFile>, rows: seq<seq<StoredRow>>, now: nat, day: DayStart) {
    Hold(files, rows, now) && DaysFit(files, rows, day) && InTimeOrder(Flattened(Boots(rows)))
  }

  lemma StoredBefore(files: seq<DayFile>, rows: seq<seq<StoredRow>>, now: nat, day: DayStart)
    requires Stored(files, rows, now, day) && files != []
    ensures
      var n := |files| - 1;
      && Stored(files[..n], rows[..n], now, day)
      && Flattened(Boots(rows)) == Flattened(Boots(rows[..n])) + SamplesOf(rows[n])
  {
    var n := |files| - 1;
    assert Boots(rows)[..n] == Boots(rows[..n]);
    OrderedParts(Flattened(Boots(rows[..n])), SamplesOf(rows[n]));
  }

  lemma PartsOfStored(files: seq<DayFile>, rows: seq<seq<StoredRow>>, now: nat, stored: map<nat, Summary>, base: real,
                      day: DayStart)
    requires Stored(files, rows, now, day)
    ensures
      var parts := Parts(files, now, stored, base, day);
      && AllOf(parts) == AllRestored(Flattened(Boots(rows))) && InTimeOrder(AllOf(parts))
      && forall k :: 0 <= k < |parts| ==> TailSeen(parts[k])
  {
    FilesHoldRestored(files, rows, CompletedFiles(files, now, stored, base, day), now);
    RestoredInOrder(Flattened(Boots(rows)));
  }

  lemma OnlyPastCutSnoc(parts: seq<Part>, part: Part, day: DayStart, d: nat)
    requires OnlyPastCut(parts, day, d)
    requires part.skipped != [] ==> OffDay(AllOf(parts + [part]), day, d)
    ensures OnlyPastCut(parts + [part], day, d)
  {
    var longer := parts + [part];
    forall k | 0 <= k < |longer| && longer[k].skipped != [] ensures OtherDaysUpTo(longer, k, day, d) {
      if k < |parts| {
        assert OtherDaysUpTo(parts, k, day, d);
        assert longer[..k + 1] == parts[..k + 1];
      } else {
        assert longer[..k + 1] == longer;
      }
    }
  }

  /** Nothing is skipped of a file that is not completed, nor of one without rows. */
  lemma SkippedOnlyIfCompleted(f: DayFile, rows: seq<StoredRow>, completed: bool, now: nat)
    requires Holds(f, rows, now) && PartOf(f, completed, now).skipped != []
    ensures completed && rows != []
  {
    PartHoldsRows(f, rows, completed, now);
    assert f.lines[..0] == [];
  }

  /** The last file, if it is cut, ends before the day. */
  lemma LastCutIsPast(files: seq<DayFile>, rows: seq<seq<StoredRow>>, f: DayFile, row: seq<StoredRow>, now: nat,
                      stored: map<nat, Summary>, base: real, day: DayStart, d: nat)
    requires LocalDays(day) && Stored(files, rows, now, day) && Holds(f, row, now) && RowsFit(f, row, day)
    requires var seen := Flattened(Boots(rows)) + SamplesOf(row);
             InTimeOrder(seen) && StillOpen(stored, seen, day, d)
    requires var earlier := Parts(files, now, stored, base, day);
             var completed := Completed(f, StoredReplay.Recovered(earlier, now, stored, base, day).written, day(now),
               stored);
             PartOf(f, completed, now).skipped != []
    ensures OffDay(Flattened(Boots(rows)) + SamplesOf(row), day, d)
  {
    var before := Flattened(Boots(rows));
    var seen, earlier := before + SamplesOf(row), Parts(files, now, stored, base, day);
    if !OffDay(seen, day, d) {
      var completed := Completed(f, StoredReplay.Recovered(earlier, now, stored, base, day).written, day(now), stored);
      SkippedOnlyIfCompleted(f, row, completed, now);
      PartsOfStored(files, rows, now, stored, base, day);
      VisitedIsFollowed(earlier);
      RestoredJoined(before, SamplesOf(row));
      CutFileIsPast(f, VisitedOf(earlier), seen, day(now), stored, base, day, d);
      PastFileEndsBefore(before, f, row, day, d);
    }
  }

  lemma OneMoreFile(files: seq<DayFile>, rows: seq<seq<StoredRow>>, f: DayFile, row: seq<StoredRow>, now: nat,
                    stored: map<nat, Summary>, base: real, day: DayStart, d: nat)
    requires LocalDays(day) && Stored(files, rows, now, day) && Holds(f, row, now) && RowsFit(f, row, day)
    requires var seen := Flattened(Boots(rows)) + SamplesOf(row);
             InTimeOrder(seen) && StillOpen(stored, seen, day, d)
    requires OnlyPastCut(Parts(files, now, stored, base, day), day, d)
    ensures OnlyPastCut(Parts(files + [f], now, stored, base, day), day, d)
  {
    var earlier := Parts(files, now, stored, base, day);
    var completed := Completed(f, StoredReplay.Recovered(earlier, now, stored, base, day).written, day(now), stored);
    var part, seen := PartOf(f, completed, now), Flattened(Boots(rows)) + SamplesOf(row);
    PartsSnoc(files, f, now, stored, base, day);
    if part.skipped != [] {
      LastCutIsPast(files, rows, f, row, now, stored, base, day, d);
      PartsOfStored(files, rows, now, stored, base, day);
      PartHoldsRows(f, row, completed, now);
      RestoredJoined(Flattened(Boots(rows)), SamplesOf(row));
      RestoredDays(seen, day, d);
      assert (earlier + [part])[..|earlier|] == earlier;
    }
    OnlyPastCutSnoc(earlier, part, day, d);
  }

  lemma Unsnoc<T>(s: seq<T>)
    requires s != []
    ensures s[..|s| - 1] + [s[|s| - 1]] == s
  {
  }

  lemma {:induction false} RunsBefore(runs: seq<seq<Sample>>, n: nat) returns (later: seq<Sample>)
    requires n <= |runs|
    ensures Flattened(runs) == Flattened(runs[..n]) + later
  {
    if n == |runs| {
      assert runs[..n] == runs;
      later := [];
    } else {
      var last := |runs| - 1;
      later := RunsBefore(runs[..last], n);
      assert runs[..last][..n] == runs[..n];
      later := later + runs[last];
    }
  }

  lemma StoredFirst(files: seq<DayFile>, rows: seq<seq<StoredRow>>, n: nat, now: nat, stored: map<nat, Summary>,
                    day: DayStart, d: nat)
    requires Stored(files, rows, now, day) && StillOpen(stored, Flattened(Boots(rows)), day, d) && n <= |files|
    ensures Stored(files[..n], rows[..n], now, day) && StillOpen(stored, Flattened(Boots(rows[..n])), day, d)
  {
    var later := RunsBefore(Boots(rows), n);
    assert Boots(rows)[..n] == Boots(rows[..n]);
    var before := Flattened(Boots(rows[..n]));
    OrderedParts(before, later);
    OpenBefore(stored, before, later, day, d);
  }

  lemma LastFile(files: seq<DayFile>, rows: seq<seq<StoredRow>>, now: nat, stored: map<nat, Summary>, base: real,
                 day: DayStart, d: nat)
    requires LocalDays(day) && Stored(files, rows, now, day) && StillOpen(stored, Flattened(Boots(rows)), day, d)
    requires files != [] && OnlyPastCut(Parts(files[..|files| - 1], now, stored, base, day), day, d)
    ensures OnlyPastCut(Parts(files, now, stored, base, day), day, d)
  {
    var n := |files| - 1;
    StoredBefore(files, rows, now, day);
    OneMoreFile(files[..n], rows[..n], files[n], rows[n], now, stored, base, day, d);
    Unsnoc(files);
  }

  /** Of the first n files only those that end before the day are cut. */
  ghost predicate PastCutAmong(files: seq<DayFile>, n: nat, now: nat, stored: map<nat, Summary>, base: real,
                               day: DayStart, d: nat)
    requires n <= |files|
  {
    OnlyPastCut(Parts(files[..n], now, stored, base, day), day, d)
  }

  lemma PastCutAmongMore(files: seq<DayFile>, rows: seq<seq<StoredRow>>, n: nat, now: nat, stored: map<nat, Summary>,
                         base: real, day: DayStart, d: nat)
    requires LocalDays(day) && Stored(files, rows, now, day) && StillOpen(stored, Flattened(Boots(rows)), day, d)
    requires n < |files| && PastCutAmong(files, n, now, stored, base, day, d)
    ensures PastCutAmong(files, n + 1, now, stored, base, day, d)
  {
    StoredFirst(files, rows, n + 1, now, stored, day, d);
    assert files[..n + 1][..n] == files[..n];
    LastFile(files[..n + 1], rows[..n + 1], now, stored, base, day, d);
  }

  lemma {:induction false} PastCutAmongAll(files: seq<DayFile>, rows: seq<seq<StoredRow>>, n: nat, now: nat,
                                           stored: map<nat, Summary>, base: real, day: DayStart, d: nat)
    requires LocalDays(day) && Stored(files, rows, now, day) && StillOpen(stored, Flattened(Boots(rows)), day, d)
    requires n <= |files|
    ensures PastCutAmong(files, n, now, stored, base, day, d)
  {
    if n > 0 {
      PastCutAmongAll(files, rows, n - 1, now, stored, base, day, d);
      PastCutAmongMore(files, rows, n - 1, now, stored, base, day, d);
    }
  }

  /** While a day is still open, only files that end before it are cut. */
  lemma CutsArePast(files: seq<DayFile>, rows: seq<seq<StoredRow>>, now: nat, stored: map<nat, Summary>, base: real,
                    day: DayStart, d: nat)
    requires LocalDays(day) && Stored(files, rows, now, day) && StillOpen(stored, Flattened(Boots(rows)), day, d)
    ensures OnlyPastCut(Parts(files, now, stored, base, day), day, d)
  {
    PastCutAmongAll(files, rows, |files|, now, stored, base, day, d);
    assert files[..|files|] == files;
  }

  /**
   The visit of all files, past days cut to their tails: a day that is still open is reported as all stored samples
   clipped to it.
   */
  lemma OpenDayIsExact(files: seq<DayFile>, rows: seq<seq<StoredRow>>, now: nat, stored: map<nat, Summary>, base: real,
                       day: DayStart, d: nat, u: nat, m: Measure)
    requires LocalDays(day) && LongDays(day) && DayEnds(day, d, u) && d != 0 && d !in stored
    requires Stored(files, rows, now, day) && StillOpen(stored, Flattened(Boots(rows)), day, d)
    requires SecondsAgree(AllRestored(Flattened(Boots(rows))), base, d, u, m)
    ensures ReportedFrom(files, now, stored, base, day, d, m) ==
            AdjacentSum(AllRestored(Flattened(Boots(rows))), base, d, u, m)
  {
    var parts := Parts(files, now, stored, base, day);
    PartsOfStored(files, rows, now, stored, base, day);
    CutsArePast(files, rows, now, stored, base, day, d);
    PastCutsMissNothing(parts, base, day, d, u, m);
    VisitIsWorth(parts, day(now), stored, base, day, d, u, m);
  }
}
