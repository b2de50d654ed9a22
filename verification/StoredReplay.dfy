/** Replay as it reads the files: which rows it visits, what the skipped rows are worth, and what the flags change. */
module StoredReplay {
  import opened Words
  import opened HistorySamples
  import opened HistoryCsv
  import opened DailyEnergy
  import opened HistoryReplay
  import opened ReplayOfBoots

  const TAIL := 1024

  /**
   A dated file of the history directory: its date as a number, its day, and its lines without their ends; readable
   if reading comes to the end of the file, and otherwise lines are those read before it failed.
   */
  datatype DayFile = DayFile(date: nat, day: nat, lines: seq<string>, readable: bool)

  // ----- the tail of a completed day

  function Bytes(lines: seq<string>): nat {
    if lines == [] then 0 else |lines[0]| + 1 + Bytes(lines[1..])
  }

  /** The lines up to the one that holds the byte 1024 bytes before the end, which is thrown away whole. */
  function TailStart(lines: seq<string>): (k: nat)
    ensures k <= |lines|
  {
    if Bytes(lines) < TAIL then 0 else 1 + TailStart(lines[1..])
  }

  /** The tail is the lines of which fewer than 1024 bytes are left. */
  lemma {:induction false} TailIsExact(lines: seq<string>, k: nat)
    requires k <= |lines|
    ensures TailStart(lines) <= k <==> Bytes(lines[k..]) < TAIL
  {
    if k == 0 {
      assert lines[k..] == lines;
    } else {
      assert lines[1..][k - 1..] == lines[k..];
      TailIsExact(lines[1..], k - 1);
      BytesShrink(lines, k);
    }
  }

  lemma {:induction false} BytesShrink(lines: seq<string>, k: nat)
    requires k <= |lines|
    ensures Bytes(lines[k..]) <= Bytes(lines)
  {
    if k == 0 {
      assert lines[k..] == lines;
    } else {
      assert lines[1..][k - 1..] == lines[k..];
      BytesShrink(lines[1..], k - 1);
    }
  }

  predicate Completed(f: DayFile, written: map<nat, Summary>, today: nat, stored: map<nat, Summary>) {
    f.day < today && (f.day in stored || f.day in written)
  }

  function SkippedLines(f: DayFile, completed: bool): (k: nat)
    ensures k <= |f.lines|
  {
    if completed && Bytes(f.lines) > TAIL then TailStart(f.lines) else 0
  }

  /** Line i is visited unless its file is completed, longer than 1024 bytes, and has 1024 bytes or more from it on. */
  lemma SkipsExactly(f: DayFile, completed: bool, i: nat)
    requires i <= |f.lines|
    ensures SkippedLines(f, completed) <= i <==>
            !completed || Bytes(f.lines) <= 1024 || Bytes(f.lines[i..]) < 1024
  {
    TailIsExact(f.lines, i);
  }

  // ----- what is visited

  function Readable(line: string, now: nat): (r: seq<Sample>)
    ensures |r| <= 1
  {
    var s := ParseRow(line);
    if s.Some? && s.value.timestamp <= now then [s.value] else []
  }

  function Reader(now: nat): string -> seq<Sample> {
    line => Readable(line, now)
  }

  function Mapped(lines: seq<string>, read: string -> seq<Sample>): (r: seq<seq<Sample>>)
    ensures |r| == |lines| && forall i :: 0 <= i < |lines| ==> r[i] == read(lines[i])
  {
    seq(|lines|, i requires 0 <= i < |lines| => read(lines[i]))
  }

  /** What a reader of single lines makes of all of them. */
  function ReadAll(lines: seq<string>, read: string -> seq<Sample>): seq<Sample> {
    Flattened(Mapped(lines, read))
  }

  function Parsed(lines: seq<string>, now: nat): seq<Sample> {
    ReadAll(lines, Reader(now))
  }

  /** The samples of one file: those that are skipped, then those that are visited. */
  datatype Part = Part(skipped: seq<Sample>, visited: seq<Sample>)

  function Cut(lines: seq<string>, k: nat, read: string -> seq<Sample>): Part
    requires k <= |lines|
  {
    Part(ReadAll(lines[..k], read), ReadAll(lines[k..], read))
  }

  function PartOf(f: DayFile, completed: bool, now: nat): Part {
    Cut(f.lines, SkippedLines(f, completed), Reader(now))
  }

  function AllOf(parts: seq<Part>): seq<Sample> {
    if parts == [] then [] else AllOf(parts[..|parts| - 1]) + (parts[|parts| - 1].skipped + parts[|parts| - 1].visited)
  }

  function VisitedOf(parts: seq<Part>): seq<Sample> {
    if parts == [] then [] else VisitedOf(parts[..|parts| - 1]) + parts[|parts| - 1].visited
  }

  function Recovered(parts: seq<Part>, now: nat, stored: map<nat, Summary>, base: real, day: DayStart): Recovery {
    Replayed(VisitedOf(parts), day(now), stored, base, day)
  }

  /** The parts of the files, given which of them are completed. */
  function PartsOf(files: seq<DayFile>, completed: seq<bool>, now: nat): (parts: seq<Part>)
    requires |completed| == |files|
    ensures |parts| == |files| && forall k :: 0 <= k < |files| ==> parts[k] == PartOf(files[k], completed[k], now)
  {
    seq(|files|, k requires 0 <= k < |files| => PartOf(files[k], completed[k], now))
  }

  /** `visitRecoveryHistory`: a file is completed if its day has a summary file by then. */
  function CompletedFiles(files: seq<DayFile>, now: nat, stored: map<nat, Summary>, base: real,
                          day: DayStart): (completed: seq<bool>)
    ensures |completed| == |files|
  {
    if files == [] then []
    else
      var earlier, f := files[..|files| - 1], files[|files| - 1];
      var completed := CompletedFiles(earlier, now, stored, base, day);
      completed + [Completed(f, Recovered(PartsOf(earlier, completed, now), now, stored, base, day).written, day(now),
        stored)]
  }

  function Parts(files: seq<DayFile>, now: nat, stored: map<nat, Summary>, base: real,
                 day: DayStart): (parts: seq<Part>)
    ensures |parts| == |files|
  {
    PartsOf(files, CompletedFiles(files, now, stored, base, day), now)
  }

  /** The files that are opened: up to the first that cannot be read to its end. */
  function Opened(files: seq<DayFile>): seq<DayFile> {
    if files == [] then [] else if !files[0].readable then [files[0]] else [files[0]] + Opened(files[1..])
  }

  ghost predicate InDateOrder(files: seq<DayFile>) {
    && (forall i :: 0 <= i < |files| ==> files[i].date > 0)
    && (forall i, j :: 0 <= i < j < |files| ==> files[i].date < files[j].date)
  }

  predicate AllReadable(files: seq<DayFile>) {
    forall i :: 0 <= i < |files| ==> files[i].readable
  }

  lemma {:induction false} OpenedStops(files: seq<DayFile>, k: nat)
    requires k < |files| && !files[k].readable && AllReadable(files[..k])
    ensures Opened(files) == files[..k + 1]
  {
    if k > 0 {
      assert files[1..][..k - 1] == files[..k][1..];
      assert files[..k][0] == files[0];
      OpenedStops(files[1..], k - 1);
      assert files[..k + 1] == [files[0]] + files[1..][..k];
    }
  }

  lemma {:induction false} OpenedAll(files: seq<DayFile>)
    requires AllReadable(files)
    ensures Opened(files) == files
  {
    if files != [] {
      OpenedAll(files[1..]);
      assert files == [files[0]] + files[1..];
    }
  }

  /** The visit has come to the last file. */
  lemma VisitEnds(files: seq<DayFile>, done: seq<DayFile>)
    requires done <= files && |done| == |files| && AllReadable(done)
    ensures AllReadable(files) && Opened(files) == done
  {
    assert done == files;
    OpenedAll(files);
  }

  /** The visit comes to one more file. */
  lemma VisitGoesOn(files: seq<DayFile>, done: seq<DayFile>, f: DayFile)
    requires done <= files && |done| < |files| && f == files[|done|] && AllReadable(done)
    ensures done + [f] <= files && (f.readable ==> AllReadable(done + [f]))
    ensures !f.readable ==> !AllReadable(files) && Opened(files) == done + [f]
  {
    assert files[..|done|] == done && files[..|done| + 1] == done + [f];
    if !f.readable {
      OpenedStops(files, |done|);
    }
  }

  // ----- reading the directory

  /** One scan of the directory: the file with the least date after the given one. */
  method NextFile(dir: seq<DayFile>, afterDate: nat) returns (next: Option<DayFile>)
    ensures next.None? <==> forall f :: f in dir ==> f.date <= afterDate
    ensures next.Some? ==> next.value in dir && next.value.date > afterDate
    ensures next.Some? ==> forall f :: f in dir && f.date > afterDate ==> next.value.date <= f.date
  {
    next := None;
    for i := 0 to |dir|
      invariant next.None? <==> forall f :: f in dir[..i] ==> f.date <= afterDate
      invariant next.Some? ==> next.value in dir && next.value.date > afterDate
      invariant next.Some? ==> forall f :: f in dir[..i] && f.date > afterDate ==> next.value.date <= f.date
    {
      assert dir[..i + 1] == dir[..i] + [dir[i]];
      if dir[i].date > afterDate && (next.None? || dir[i].date < next.value.date) {
        next := Some(dir[i]);
      }
    }
    assert dir[..|dir|] == dir;
  }

  lemma FlattenedOneMore(lines: seq<string>, i: nat, read: string -> seq<Sample>)
    requires i < |lines|
    ensures Flattened(Mapped(lines[..i + 1], read)) == Flattened(Mapped(lines[..i], read)) + read(lines[i])
  {
    assert Mapped(lines[..i + 1], read)[..i] == Mapped(lines[..i], read);
  }

  lemma ParsedOneMore(before: seq<Sample>, lines: seq<string>, i: nat, now: nat)
    requires i < |lines|
    ensures before + Parsed(lines[..i + 1], now) == before + Parsed(lines[..i], now) + Readable(lines[i], now)
  {
    FlattenedOneMore(lines, i, Reader(now));
  }

  lemma ReplayedOneMore(before: seq<Sample>, s: Sample, today: nat, stored: map<nat, Summary>, base: real,
                        day: DayStart)
    ensures Replayed(before + [s], today, stored, base, day) ==
            RecoverStep(Replayed(before, today, stored, base, day), s, today, stored, base, day)
  {
    assert (before + [s])[..|before|] == before;
  }

  /** The recovery after the given samples. */
  ghost predicate Has(recovery: DailyRecovery, samples: seq<Sample>)
    reads recovery
  {
    recovery.State() == Replayed(samples, recovery.today, recovery.stored, recovery.base, recovery.day)
  }

  /** Reads one line, after the samples in before. */
  method VisitLine(line: string, now: nat, recovery: DailyRecovery, ghost before: seq<Sample>)
    requires Has(recovery, before)
    modifies recovery
    ensures Has(recovery, before + Readable(line, now))
  {
    var sample := ParseStoredSample(line);
    if sample.Some? && sample.value.timestamp <= now {
      ReplayedOneMore(before, sample.value, recovery.today, recovery.stored, recovery.base, recovery.day);
      recovery.RecoverSample(sample.value);
    } else {
      assert before + [] == before;
    }
  }

  /** Reads the lines of one file, after the samples in before. */
  method VisitFile(f: DayFile, now: nat, recovery: DailyRecovery, ghost before: seq<Sample>)
    requires Has(recovery, before)
    modifies recovery
    ensures Has(recovery, before +
            PartOf(f, Completed(f, old(recovery.written), recovery.today, recovery.stored), now).visited)
  {
    var completed := Completed(f, recovery.written, recovery.today, recovery.stored);
    var lines := f.lines[SkippedLines(f, completed)..];
    ghost var seen := before;
    for i := 0 to |lines|
      invariant seen == before + Parsed(lines[..i], now)
      invariant Has(recovery, seen)
    {
      ParsedOneMore(before, lines, i, now);
      VisitLine(lines[i], now, recovery, seen);
      seen := seen + Readable(lines[i], now);
    }
    assert lines[..|lines|] == lines;
  }

  lemma SameFiles(dir: seq<DayFile>, files: seq<DayFile>, f: DayFile)
    requires multiset(dir) == multiset(files)
    ensures f in dir <==> f in files
  {
    assert f in dir <==> f in multiset(dir);
    assert f in files <==> f in multiset(files);
  }

  /** After k files the scan finds the next in date order. */
  lemma NextInOrder(dir: seq<DayFile>, files: seq<DayFile>, k: nat, next: Option<DayFile>)
    requires InDateOrder(files) && multiset(dir) == multiset(files) && k <= |files|
    requires var afterDate := if k == 0 then 0 else files[k - 1].date;
             && (next.None? <==> forall f :: f in dir ==> f.date <= afterDate)
             && (next.Some? ==> next.value in dir && next.value.date > afterDate)
             && (next.Some? ==> forall f :: f in dir && f.date > afterDate ==> next.value.date <= f.date)
    ensures next == if k < |files| then Some(files[k]) else None
  {
    if next.Some? {
      SameFiles(dir, files, next.value);
      var j :| 0 <= j < |files| && files[j] == next.value;
      assert j >= k;
    }
    if k < |files| {
      SameFiles(dir, files, files[k]);
    }
  }

  lemma VisitedSnoc(parts: seq<Part>, part: Part)
    ensures VisitedOf(parts + [part]) == VisitedOf(parts) + part.visited
  {
    assert (parts + [part])[..|parts|] == parts;
  }

  lemma PartsOfSnoc(files: seq<DayFile>, completed: seq<bool>, f: DayFile, c: bool, now: nat)
    requires |completed| == |files|
    ensures PartsOf(files + [f], completed + [c], now) == PartsOf(files, completed, now) + [PartOf(f, c, now)]
  {
  }

  lemma CompletedSnoc(files: seq<DayFile>, f: DayFile, now: nat, stored: map<nat, Summary>, base: real, day: DayStart)
    ensures
      var c := Completed(f, Recovered(Parts(files, now, stored, base, day), now, stored, base, day).written, day(now),
        stored);
      CompletedFiles(files + [f], now, stored, base, day) == CompletedFiles(files, now, stored, base, day) + [c]
  {
    assert (files + [f])[..|files|] == files;
  }

  lemma PartsSnoc(files: seq<DayFile>, f: DayFile, now: nat, stored: map<nat, Summary>, base: real, day: DayStart)
    ensures
      var earlier := Parts(files, now, stored, base, day);
      Parts(files + [f], now, stored, base, day) ==
      earlier + [PartOf(f, Completed(f, Recovered(earlier, now, stored, base, day).written, day(now), stored), now)]
  {
    var c := Completed(f, Recovered(Parts(files, now, stored, base, day), now, stored, base, day).written, day(now),
      stored);
    CompletedSnoc(files, f, now, stored, base, day);
    PartsOfSnoc(files, CompletedFiles(files, now, stored, base, day), f, c, now);
  }

  lemma OneMorePart(files: seq<DayFile>, f: DayFile, now: nat, stored: map<nat, Summary>, base: real, day: DayStart)
    ensures
      var earlier := Parts(files, now, stored, base, day);
      var completed := Completed(f, Recovered(earlier, now, stored, base, day).written, day(now), stored);
      VisitedOf(Parts(files + [f], now, stored, base, day)) == VisitedOf(earlier) + PartOf(f, completed, now).visited
  {
    var earlier := Parts(files, now, stored, base, day);
    var completed := Completed(f, Recovered(earlier, now, stored, base, day).written, day(now), stored);
    PartsSnoc(files, f, now, stored, base, day);
    VisitedSnoc(earlier, PartOf(f, completed, now));
  }

  /**
   The next file is read from its tail on if and only if it is longer than a kilobyte and its day is over and has a
   summary file, from before or written while the earlier files were read; else all of its rows are read.
   */
  lemma CutExactly(files: seq<DayFile>, f: DayFile, now: nat, stored: map<nat, Summary>, base: real, day: DayStart)
    ensures
      var earlier := Parts(files, now, stored, base, day);
      var written := Recovered(earlier, now, stored, base, day).written;
      var over := f.day < day(now) && (f.day in stored || f.day in written);
      VisitedOf(Parts(files + [f], now, stored, base, day)) == VisitedOf(earlier) +
        Parsed(if over && Bytes(f.lines) > 1024 then f.lines[TailStart(f.lines)..] else f.lines, now)
  {
    OneMorePart(files, f, now, stored, base, day);
    assert f.lines[0..] == f.lines;
  }

  /** The samples visited in the files. */
  ghost function VisitedIn(files: seq<DayFile>, now: nat, recovery: DailyRecovery): seq<Sample> {
    VisitedOf(Parts(files, now, recovery.stored, recovery.base, recovery.day))
  }

  /** The recovery after visiting these files. */
  ghost predicate HasVisited(recovery: DailyRecovery, files: seq<DayFile>, now: nat)
    reads recovery
  {
    Has(recovery, VisitedIn(files, now, recovery)) && recovery.today == recovery.day(now)
  }

  /** Finds and visits the next file in date order, after those in done. */
  method VisitNext(dir: seq<DayFile>, afterDate: nat, ghost files: seq<DayFile>, ghost done: seq<DayFile>, now: nat,
                   recovery: DailyRecovery)
    returns (next: Option<DayFile>)
    requires InDateOrder(files) && multiset(dir) == multiset(files) && done <= files
    requires afterDate == if done == [] then 0 else done[|done| - 1].date
    requires HasVisited(recovery, done, now)
    modifies recovery
    ensures next == if |done| < |files| then Some(files[|done|]) else None
    ensures HasVisited(recovery, if next.Some? then done + [next.value] else done, now)
  {
    next := NextFile(dir, afterDate);
    NextInOrder(dir, files, |done|, next);
    if next.Some? {
      var f := next.value;
      OneMorePart(done, f, now, recovery.stored, recovery.base, recovery.day);
      VisitFile(f, now, recovery, VisitedIn(done, now, recovery));
    }
  }

  lemma NothingVisited(now: nat, recovery: DailyRecovery)
    requires Has(recovery, []) && recovery.today == recovery.day(now)
    ensures HasVisited(recovery, [], now)
  {
  }

  /** One turn of the visit: on to the next file, or the end of the visit. */
  method VisitTurn(dir: seq<DayFile>, afterDate: nat, ghost files: seq<DayFile>, ghost done: seq<DayFile>, now: nat,
                   recovery: DailyRecovery)
    returns (next: Option<DayFile>)
    requires InDateOrder(files) && multiset(dir) == multiset(files) && done <= files && AllReadable(done)
    requires afterDate == if done == [] then 0 else done[|done| - 1].date
    requires HasVisited(recovery, done, now)
    modifies recovery
    ensures next.Some? ==> done + [next.value] <= files
    ensures next.Some? && next.value.readable ==>
              AllReadable(done + [next.value]) && HasVisited(recovery, done + [next.value], now)
    ensures next.None? || !next.value.readable ==>
              HasVisited(recovery, Opened(files), now) && (AllReadable(files) <==> next.None?)
  {
    next := VisitNext(dir, afterDate, files, done, now, recovery);
    if next.None? {
      VisitEnds(files, done);
    } else {
      VisitGoesOn(files, done, next.value);
    }
  }

  /** Visits every file in the order of dates, whatever the order of the directory, up to one that cannot be read. */
  method VisitRecoveryHistory(dir: seq<DayFile>, ghost files: seq<DayFile>, now: nat, recovery: DailyRecovery)
    returns (read: bool)
    requires InDateOrder(files) && multiset(dir) == multiset(files)
    requires Has(recovery, []) && recovery.today == recovery.day(now)
    modifies recovery
    ensures read <==> AllReadable(files)
    ensures HasVisited(recovery, Opened(files), now)
  {
    var afterDate := 0;
    ghost var done: seq<DayFile> := [];
    NothingVisited(now, recovery);
    while true
      invariant done <= files && AllReadable(done)
      invariant afterDate == if done == [] then 0 else done[|done| - 1].date
      invariant HasVisited(recovery, done, now)
      decreases |files| - |done|
    {
      var next := VisitTurn(dir, afterDate, files, done, now, recovery);
      if next.None? { return true; }
      if !next.value.readable { return false; }
      afterDate := next.value.date;
      done := done + [next.value];
    }
  }

  /** `restoreEnergyHistory`: only when every file could be read is the last day finished. */
  method RestoreEnergyHistory(dir: seq<DayFile>, ghost files: seq<DayFile>, now: nat, recovery: DailyRecovery)
    returns (restored: bool)
    requires InDateOrder(files) && multiset(dir) == multiset(files)
    requires recovery.State() == NOTHING_RECOVERED && recovery.today == recovery.day(now)
    modifies recovery
    ensures restored <==> AllReadable(files)
    ensures
      var r := Replayed(VisitedIn(Opened(files), now, recovery), recovery.today, recovery.stored, recovery.base,
        recovery.day);
      recovery.State() == if restored then Finished(r, recovery.today) else r
  {
    restored := VisitRecoveryHistory(dir, files, now, recovery);
    if restored {
      recovery.FinishDay();
    }
  }
}
