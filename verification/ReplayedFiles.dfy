/** The files of several boots, replayed: when a day is reported exactly as live accounting had it on record. */
module ReplayedFiles {
  import opened HistorySamples
  import opened HistoryCsv
  import EnergyPairs
  import opened DailyEnergy
  import opened HistoryReplay
  import opened RepeatedSeconds
  import opened ReplayOfBoots
  import opened StoredFlags
  import opened StoredReplay
  import opened SkippedRows

  /** The buffer into which a line is read. */
  const LINE_BUFFER := 512

  datatype StoredRow = StoredRow(sample: Sample, texts: Uninterpreted)

  function Line(row: StoredRow): string {
    PrintRow(row.sample, row.texts)
  }

  /** A row that can be written, fits the buffer and carries a time up to now. */
  predicate Writable(row: StoredRow, now: nat) {
    && Storable(row.sample) && CommaFree(row.texts) && FIRST_TIMESTAMP <= row.sample.timestamp <= now
    && |Line(row)| + 1 < LINE_BUFFER
  }

  predicate AllWritable(rows: seq<StoredRow>, now: nat) {
    forall i :: 0 <= i < |rows| ==> Writable(rows[i], now)
  }

  function LinesOf(rows: seq<StoredRow>): (lines: seq<string>)
    ensures |lines| == |rows| && forall i :: 0 <= i < |rows| ==> lines[i] == Line(rows[i])
  {
    seq(|rows|, i requires 0 <= i < |rows| => Line(rows[i]))
  }

  function SamplesOf(rows: seq<StoredRow>): (samples: seq<Sample>)
    ensures |samples| == |rows| && forall i :: 0 <= i < |rows| ==> samples[i] == rows[i].sample
  {
    seq(|rows|, i requires 0 <= i < |rows| => rows[i].sample)
  }

  lemma RowIsRestored(row: StoredRow, now: nat)
    requires Writable(row, now)
    ensures Readable(Line(row), now) == [Restored(row.sample)]
  {
    RowRoundTrip(row.sample, row.texts);
  }

  lemma {:induction false} FlattenedJoined(a: seq<seq<Sample>>, b: seq<seq<Sample>>)
    ensures Flattened(a + b) == Flattened(a) + Flattened(b)
  {
    if b == [] {
      assert a + b == a;
    } else {
      var c, last := b[..|b| - 1], b[|b| - 1];
      assert (a + b)[..|a + b| - 1] == a + c;
      FlattenedJoined(a, c);
      assert Flattened(a) + Flattened(c) + last == Flattened(a) + (Flattened(c) + last);
    }
  }

  lemma {:induction false} FlattenedOnes(shown: seq<seq<Sample>>, samples: seq<Sample>)
    requires |shown| == |samples| && forall i :: 0 <= i < |shown| ==> shown[i] == [samples[i]]
    ensures Flattened(shown) == samples
  {
    if shown != [] {
      var n := |shown| - 1;
      FlattenedOnes(shown[..n], samples[..n]);
      assert samples == samples[..n] + [samples[n]];
    }
  }

  /** A header line, which `parseStoredHistorySample` refuses. */
  predicate IsHeader(line: string) {
    HEADER_START <= line && |line| + 1 < LINE_BUFFER
  }

  /** The file is a header and the rows. */
  ghost predicate Holds(f: DayFile, rows: seq<StoredRow>, now: nat) {
    AllWritable(rows, now) && exists header :: IsHeader(header) && f.lines == [header] + LinesOf(rows)
  }

  lemma ReadJoined(a: seq<string>, b: seq<string>, read: string -> seq<Sample>)
    ensures ReadAll(a + b, read) == ReadAll(a, read) + ReadAll(b, read)
  {
    FlattenedJoined(Mapped(a, read), Mapped(b, read));
    assert Mapped(a + b, read) == Mapped(a, read) + Mapped(b, read);
  }

  /** A cut loses no line. */
  lemma CutJoins(lines: seq<string>, k: nat, read: string -> seq<Sample>)
    requires k <= |lines|
    ensures var part := Cut(lines, k, read); part.skipped + part.visited == ReadAll(lines, read)
  {
    ReadJoined(lines[..k], lines[k..], read);
    assert lines[..k] + lines[k..] == lines;
  }

  /** A cut before a readable last line, or before all lines, shows a sample. */
  lemma CutIsSeen(lines: seq<string>, k: nat, read: string -> seq<Sample>)
    requires k == 0 || (k < |lines| && read(lines[|lines| - 1]) != [])
    ensures k <= |lines| && TailSeen(Cut(lines, k, read))
  {
    if k == 0 {
      assert Mapped(lines[..0], read) == [];
    } else {
      assert Mapped(lines[k..], read)[|lines| - 1 - k] == read(lines[|lines| - 1]);
    }
  }

  lemma HeaderIsNoRow(header: string, now: nat)
    requires IsHeader(header)
    ensures Parsed([header], now) == []
  {
    assert Readable(header, now) == [];
    assert Mapped([header], Reader(now)) == [[]];
    assert Flattened([[]]) == [];
  }

  lemma RowsParse(rows: seq<StoredRow>, now: nat)
    requires AllWritable(rows, now)
    ensures Parsed(LinesOf(rows), now) == AllRestored(SamplesOf(rows))
  {
    var shown := Mapped(LinesOf(rows), Reader(now));
    forall i | 0 <= i < |rows| ensures shown[i] == [AllRestored(SamplesOf(rows))[i]] {
      RowIsRestored(rows[i], now);
    }
    FlattenedOnes(shown, AllRestored(SamplesOf(rows)));
  }

  /** A written file parses to the restored samples of its rows. */
  lemma RowsParseBack(f: DayFile, rows: seq<StoredRow>, now: nat)
    requires Holds(f, rows, now)
    ensures Parsed(f.lines, now) == AllRestored(SamplesOf(rows))
  {
    var header :| IsHeader(header) && f.lines == [header] + LinesOf(rows);
    RowsParse(rows, now);
    HeaderIsNoRow(header, now);
    ReadJoined([header], LinesOf(rows), Reader(now));
  }

  lemma BytesOfOne(line: string)
    ensures Bytes([line]) == |line| + 1
  {
    assert [line][1..] == [];
  }

  /** The last line is short, and is a row if there are any. */
  lemma LastLine(f: DayFile, rows: seq<StoredRow>, now: nat)
    requires Holds(f, rows, now)
    ensures f.lines != [] && Bytes([f.lines[|f.lines| - 1]]) < TAIL
    ensures rows != [] ==> Readable(f.lines[|f.lines| - 1], now) != []
    ensures rows == [] ==> |f.lines| == 1
  {
    var header :| IsHeader(header) && f.lines == [header] + LinesOf(rows);
    BytesOfOne(f.lines[|f.lines| - 1]);
    if rows != [] {
      assert f.lines[|f.lines| - 1] == Line(rows[|rows| - 1]);
      RowIsRestored(rows[|rows| - 1], now);
    }
  }

  lemma TailHasLastLine(f: DayFile, completed: bool)
    requires f.lines != [] && Bytes([f.lines[|f.lines| - 1]]) < TAIL
    ensures SkippedLines(f, completed) < |f.lines|
  {
    var n := |f.lines| - 1;
    assert f.lines[n..] == [f.lines[n]];
    TailIsExact(f.lines, n);
  }

  lemma OneLineIsNotCut(f: DayFile, completed: bool)
    requires |f.lines| == 1 && Bytes([f.lines[0]]) < TAIL
    ensures SkippedLines(f, completed) == 0
  {
    assert f.lines == [f.lines[0]];
  }

  lemma CutBeforeLastRow(f: DayFile, rows: seq<StoredRow>, completed: bool, now: nat)
    requires Holds(f, rows, now)
    ensures
      var k := SkippedLines(f, completed);
      k == 0 || (k < |f.lines| && Reader(now)(f.lines[|f.lines| - 1]) != [])
  {
    LastLine(f, rows, now);
    if rows == [] {
      OneLineIsNotCut(f, completed);
    } else {
      TailHasLastLine(f, completed);
    }
  }

  /** A file that is cut to its tail still shows its last row. */
  lemma TailShowsLastRow(f: DayFile, rows: seq<StoredRow>, completed: bool, now: nat)
    requires Holds(f, rows, now)
    ensures TailSeen(PartOf(f, completed, now))
  {
    CutBeforeLastRow(f, rows, completed, now);
    CutIsSeen(f.lines, SkippedLines(f, completed), Reader(now));
  }

  // ----- all files

  function Boots(rows: seq<seq<StoredRow>>): (samples: seq<seq<Sample>>)
    ensures |samples| == |rows| && forall k :: 0 <= k < |rows| ==> samples[k] == SamplesOf(rows[k])
  {
    seq(|rows|, k requires 0 <= k < |rows| => SamplesOf(rows[k]))
  }

  ghost predicate Hold(files: seq<DayFile>, rows: seq<seq<StoredRow>>, now: nat) {
    |files| == |rows| && forall k :: 0 <= k < |rows| ==> Holds(files[k], rows[k], now)
  }

  lemma PartHoldsRows(f: DayFile, rows: seq<StoredRow>, completed: bool, now: nat)
    requires Holds(f, rows, now)
    ensures
      var part := PartOf(f, completed, now);
      part.skipped + part.visited == AllRestored(SamplesOf(rows)) && TailSeen(part)
  {
    CutJoins(f.lines, SkippedLines(f, completed), Reader(now));
    RowsParseBack(f, rows, now);
    TailShowsLastRow(f, rows, completed, now);
  }

  lemma {:induction false} AllOfRuns(parts: seq<Part>, runs: seq<seq<Sample>>)
    requires |parts| == |runs| && forall k :: 0 <= k < |parts| ==> parts[k].skipped + parts[k].visited == runs[k]
    ensures AllOf(parts) == Flattened(runs)
  {
    if parts != [] {
      AllOfRuns(parts[..|parts| - 1], runs[..|runs| - 1]);
    }
  }

  function RestoredRuns(runs: seq<seq<Sample>>): (r: seq<seq<Sample>>)
    ensures |r| == |runs| && forall k :: 0 <= k < |runs| ==> r[k] == AllRestored(runs[k])
  {
    seq(|runs|, k requires 0 <= k < |runs| => AllRestored(runs[k]))
  }

  lemma {:induction false} RestoringJoinedRuns(runs: seq<seq<Sample>>)
    ensures Flattened(RestoredRuns(runs)) == AllRestored(Flattened(runs))
  {
    if runs != [] {
      var earlier, last := runs[..|runs| - 1], runs[|runs| - 1];
      RestoringJoinedRuns(earlier);
      RestoredJoined(Flattened(earlier), last);
      assert RestoredRuns(runs)[..|runs| - 1] == RestoredRuns(earlier);
    }
  }

  /** Whichever files are cut, they hold the restored samples, in order, and every tail shows a sample. */
  lemma FilesHoldRestored(files: seq<DayFile>, rows: seq<seq<StoredRow>>, completed: seq<bool>, now: nat)
    requires Hold(files, rows, now) && |completed| == |files|
    ensures
      var parts := PartsOf(files, completed, now);
      && AllOf(parts) == AllRestored(Flattened(Boots(rows)))
      && forall k :: 0 <= k < |parts| ==> TailSeen(parts[k])
  {
    var parts, runs := PartsOf(files, completed, now), RestoredRuns(Boots(rows));
    forall k | 0 <= k < |parts| ensures parts[k].skipped + parts[k].visited == runs[k] && TailSeen(parts[k]) {
      PartHoldsRows(files[k], rows[k], completed[k], now);
    }
    AllOfRuns(parts, runs);
    RestoringJoinedRuns(Boots(rows));
  }

  // ----- replay against live accounting

  /** The samples of all boots are in the files, in order. */
  ghost predicate FilesOf(files: seq<DayFile>, rows: seq<seq<StoredRow>>, boots: seq<seq<Sample>>, now: nat,
                          day: DayStart) {
    && Hold(files, rows, now) && Flattened(Boots(rows)) == Flattened(boots)
    && DistinctBoots(boots, day) && InTimeOrder(Flattened(boots))
  }

  /** What a successful restore reports. */
  function ReportedFrom(files: seq<DayFile>, now: nat, stored: map<nat, Summary>, base: real, day: DayStart,
                        d: nat, m: Measure): real {
    Reported(Finished(Recovered(Parts(files, now, stored, base, day), now, stored, base, day), day(now)), day(now), d,
      m)
  }

  lemma RestoredInOrder(samples: seq<Sample>)
    requires InTimeOrder(samples)
    ensures InTimeOrder(AllRestored(samples))
  {
  }

  lemma PartsOfFiles(files: seq<DayFile>, rows: seq<seq<StoredRow>>, boots: seq<seq<Sample>>, now: nat,
                     stored: map<nat, Summary>, base: real, day: DayStart)
    requires FilesOf(files, rows, boots, now, day)
    ensures
      var parts := Parts(files, now, stored, base, day);
      && AllOf(parts) == AllRestored(Flattened(boots)) && InTimeOrder(AllOf(parts))
      && forall k :: 0 <= k < |parts| ==> TailSeen(parts[k])
  {
    FilesHoldRestored(files, rows, CompletedFiles(files, now, stored, base, day), now);
    RestoredInOrder(Flattened(boots));
  }

  /**
   For every measure: what replay reports is what live accounting had on record, what lies between the boots, what the
   re-derived flags and the seconds with several samples change, less what is skipped.
   */
  lemma ReplayOfFiles(files: seq<DayFile>, rows: seq<seq<StoredRow>>, boots: seq<seq<Sample>>, now: nat,
                      stored: map<nat, Summary>, base: real, day: DayStart, d: nat, u: nat, m: Measure)
    requires LocalDays(day) && LongDays(day) && DayEnds(day, d, u) && d != 0 && d !in stored
    requires FilesOf(files, rows, boots, now, day)
    ensures
      var samples, parts := Flattened(boots), Parts(files, now, stored, base, day);
      ReportedFrom(files, now, stored, base, day, d, m) ==
      LiveRecords(boots, base, day, d, m) + Crossings(boots, base, d, u, m) +
      (AdjacentSum(AllRestored(samples), base, d, u, m) - AdjacentSum(samples, base, d, u, m)) -
      MissedIn(parts, base, d, u, m) + Repeats(VisitedOf(parts), base, d, u, m)
  {
    PartsOfFiles(files, rows, boots, now, stored, base, day);
    VisitIsWorth(Parts(files, now, stored, base, day), day(now), stored, base, day, d, u, m);
    BootsAdd(boots, base, day, d, u, m);
  }

  /**
   Nothing that is skipped counts: the first interval into every file is kept, or all skipped intervals are worthless.
   */
  ghost predicate NothingLost(parts: seq<Part>, base: real, day: DayStart, d: nat, u: nat, m: Measure) {
    || (AllSkipOtherDays(parts, day, d) && AllFilesKept(parts, base, d, u, m))
    || (FarTails(parts) && NothingSkipped(parts, base, d, u, m))
  }

  /** Either the skipped samples are of other days, or the tails begin far behind. */
  ghost predicate PlainTails(parts: seq<Part>, day: DayStart, d: nat) {
    AllSkipOtherDays(parts, day, d) || FarTails(parts)
  }

  lemma LostExactly(parts: seq<Part>, base: real, day: DayStart, d: nat, u: nat, m: Measure)
    requires LocalDays(day) && LongDays(day) && DayEnds(day, d, u)
    requires InTimeOrder(AllOf(parts)) && PlainTails(parts, day, d)
    ensures MissedIn(parts, base, d, u, m) == 0.0 <==> NothingLost(parts, base, day, d, u, m)
  {
    if AllSkipOtherDays(parts, day, d) {
      MissedExactly(parts, base, day, d, u, m);
    }
    if FarTails(parts) {
      FarTailsMissExactly(parts, |parts|, base, d, u, m);
      assert parts[..|parts|] == parts;
    }
  }

  /** For energy: what the flags and the seconds with several samples change, less what is skipped. */
  lemma EnergyOfFiles(files: seq<DayFile>, rows: seq<seq<StoredRow>>, boots: seq<seq<Sample>>, now: nat,
                      stored: map<nat, Summary>, base: real, day: DayStart, d: nat, u: nat, m: Measure)
    requires LocalDays(day) && LongDays(day) && DayEnds(day, d, u) && d != 0 && d !in stored && IsEnergy(m)
    requires FilesOf(files, rows, boots, now, day)
    ensures
      var samples, parts := Flattened(boots), Parts(files, now, stored, base, day);
      ReportedFrom(files, now, stored, base, day, d, m) - LiveRecords(boots, base, day, d, m) ==
      AdjacentSum(AllRestored(samples), base, d, u, m) - AdjacentSum(samples, base, d, u, m) -
      MissedIn(parts, base, d, u, m) + Repeats(VisitedOf(parts), base, d, u, m)
  {
    ReplayOfFiles(files, rows, boots, now, stored, base, day, d, u, m);
    CrossingsHaveNoEnergy(boots, base, day, d, u, m);
  }

  lemma FlagsChangeNothing(boots: seq<seq<Sample>>, base: real, d: nat, u: nat, thermal: bool, m: Measure)
    requires PairsSurvive(Flattened(boots), d, u, thermal)
    requires m == HeatingOf(thermal) || m == DhwOf(thermal)
    ensures AdjacentSum(AllRestored(Flattened(boots)), base, d, u, m) == AdjacentSum(Flattened(boots), base, d, u, m)
  {
    SurvivingPairsKeepEnergy(Flattened(boots), base, d, u, thermal);
  }

  /** The parts are plain, and the seconds with several visited samples agree. */
  ghost predicate PlainVisit(parts: seq<Part>, base: real, day: DayStart, d: nat, u: nat, m: Measure) {
    PlainTails(parts, day, d) && RepeatsAgree(VisitedOf(parts), base, d, u, m)
  }

  /** In a plain visit the repeated seconds change nothing, and what is skipped is worth nothing if nothing is lost. */
  lemma PlainVisitLoses(files: seq<DayFile>, rows: seq<seq<StoredRow>>, boots: seq<seq<Sample>>, now: nat,
                        stored: map<nat, Summary>, base: real, day: DayStart, d: nat, u: nat, m: Measure)
    requires LocalDays(day) && LongDays(day) && DayEnds(day, d, u) && FilesOf(files, rows, boots, now, day)
    requires PlainVisit(Parts(files, now, stored, base, day), base, day, d, u, m)
    ensures
      var parts := Parts(files, now, stored, base, day);
      && Repeats(VisitedOf(parts), base, d, u, m) == 0.0
      && (MissedIn(parts, base, d, u, m) == 0.0 <==> NothingLost(parts, base, day, d, u, m))
  {
    var parts := Parts(files, now, stored, base, day);
    PartsOfFiles(files, rows, boots, now, stored, base, day);
    LostExactly(parts, base, day, d, u, m);
    AgreeingRepeats(VisitedOf(parts), base, d, u, m);
  }

  lemma OnlyMissedIsLost(files: seq<DayFile>, rows: seq<seq<StoredRow>>, boots: seq<seq<Sample>>, now: nat,
                         stored: map<nat, Summary>, base: real, day: DayStart, d: nat, u: nat, thermal: bool,
                         m: Measure)
    requires LocalDays(day) && LongDays(day) && DayEnds(day, d, u) && d != 0 && d !in stored
    requires FilesOf(files, rows, boots, now, day)
    requires PlainVisit(Parts(files, now, stored, base, day), base, day, d, u, m)
    requires PairsSurvive(Flattened(boots), d, u, thermal) && (m == HeatingOf(thermal) || m == DhwOf(thermal))
    ensures ReportedFrom(files, now, stored, base, day, d, m) ==
            LiveRecords(boots, base, day, d, m) - MissedIn(Parts(files, now, stored, base, day), base, d, u, m)
  {
    EnergyOfFiles(files, rows, boots, now, stored, base, day, d, u, m);
    FlagsChangeNothing(boots, base, d, u, thermal, m);
    PlainVisitLoses(files, rows, boots, now, stored, base, day, d, u, m);
  }

  /**
   If the flags of every pair survive and the visit is plain, the heating and DHW energy of a replayed day is what live
   accounting had on record if and only if nothing that counts was skipped.
   */
  lemma ReplayEqualsLive(files: seq<DayFile>, rows: seq<seq<StoredRow>>, boots: seq<seq<Sample>>, now: nat,
                         stored: map<nat, Summary>, base: real, day: DayStart, d: nat, u: nat, thermal: bool,
                         m: Measure)
    requires LocalDays(day) && LongDays(day) && DayEnds(day, d, u) && d != 0 && d !in stored
    requires FilesOf(files, rows, boots, now, day)
    requires PlainVisit(Parts(files, now, stored, base, day), base, day, d, u, m)
    requires PairsSurvive(Flattened(boots), d, u, thermal) && (m == HeatingOf(thermal) || m == DhwOf(thermal))
    ensures ReportedFrom(files, now, stored, base, day, d, m) == LiveRecords(boots, base, day, d, m) <==>
            NothingLost(Parts(files, now, stored, base, day), base, day, d, u, m)
  {
    OnlyMissedIsLost(files, rows, boots, now, stored, base, day, d, u, thermal, m);
    PlainVisitLoses(files, rows, boots, now, stored, base, day, d, u, m);
  }

  /** A plain visit that loses nothing reports what the restored samples are worth. */
  lemma NothingLostKeeps(files: seq<DayFile>, rows: seq<seq<StoredRow>>, boots: seq<seq<Sample>>, now: nat,
                         stored: map<nat, Summary>, base: real, day: DayStart, d: nat, u: nat, m: Measure)
    requires LocalDays(day) && LongDays(day) && DayEnds(day, d, u) && d != 0 && d !in stored && IsEnergy(m)
    requires FilesOf(files, rows, boots, now, day)
    requires PlainVisit(Parts(files, now, stored, base, day), base, day, d, u, m)
    requires NothingLost(Parts(files, now, stored, base, day), base, day, d, u, m)
    ensures ReportedFrom(files, now, stored, base, day, d, m) - LiveRecords(boots, base, day, d, m) ==
            AdjacentSum(AllRestored(Flattened(boots)), base, d, u, m) - AdjacentSum(Flattened(boots), base, d, u, m)
  {
    EnergyOfFiles(files, rows, boots, now, stored, base, day, d, u, m);
    PlainVisitLoses(files, rows, boots, now, stored, base, day, d, u, m);
  }

  /** The visit is plain and loses nothing, for heating and for DHW. */
  ghost predicate LosesNoEnergy(parts: seq<Part>, base: real, day: DayStart, d: nat, u: nat, thermal: bool) {
    && PlainVisit(parts, base, day, d, u, HeatingOf(thermal)) && NothingLost(parts, base, day, d, u, HeatingOf(thermal))
    && PlainVisit(parts, base, day, d, u, DhwOf(thermal)) && NothingLost(parts, base, day, d, u, DhwOf(thermal))
  }

  /**
   If the visit loses nothing and storing only loses DHW, both energies are those on record if and only if every pair
   survives.
   */
  lemma FlagsDecide(files: seq<DayFile>, rows: seq<seq<StoredRow>>, boots: seq<seq<Sample>>, now: nat,
                    stored: map<nat, Summary>, base: real, day: DayStart, d: nat, u: nat, thermal: bool)
    requires LocalDays(day) && LongDays(day) && DayEnds(day, d, u) && d != 0 && d !in stored
    requires FilesOf(files, rows, boots, now, day)
    requires LosesNoEnergy(Parts(files, now, stored, base, day), base, day, d, u, thermal)
    requires forall k :: 0 <= k < |Flattened(boots)| ==> LosesOnlyDhw(Flattened(boots)[k])
    ensures
      var heating, dhw := ReportedFrom(files, now, stored, base, day, d, HeatingOf(thermal)),
                          ReportedFrom(files, now, stored, base, day, d, DhwOf(thermal));
      var liveHeating, liveDhw := LiveRecords(boots, base, day, d, HeatingOf(thermal)),
                                  LiveRecords(boots, base, day, d, DhwOf(thermal));
      && heating >= liveHeating && dhw <= liveDhw
      && (heating == liveHeating && dhw == liveDhw <==> PairsSurvive(Flattened(boots), d, u, thermal))
  {
    BootsAreTimed(boots, day);
    NothingLostKeeps(files, rows, boots, now, stored, base, day, d, u, HeatingOf(thermal));
    NothingLostKeeps(files, rows, boots, now, stored, base, day, d, u, DhwOf(thermal));
    EnergySurvivesExactlyInSums(Flattened(boots), base, d, u, thermal);
  }

  // ----- a file that is cut

  lemma LinesFrom(rows: seq<StoredRow>, k: nat)
    requires k <= |rows|
    ensures LinesOf(rows)[k..] == LinesOf(rows[k..])
  {
  }

  lemma DroppedHeader(header: string, lines: seq<string>, k: nat)
    requires k <= |lines|
    ensures ([header] + lines)[k + 1..] == lines[k..]
  {
  }

  lemma WritableFrom(rows: seq<StoredRow>, k: nat, now: nat)
    requires k <= |rows| && AllWritable(rows, now)
    ensures AllWritable(rows[k..], now)
  {
    forall i | 0 <= i < |rows[k..]| ensures Writable(rows[k..][i], now) {
      assert rows[k..][i] == rows[k + i];
    }
  }

  lemma SuffixOfRows(f: DayFile, rows: seq<StoredRow>, k: nat, now: nat)
    requires Holds(f, rows, now) && k <= |rows|
    ensures |f.lines| == |rows| + 1 && Parsed(f.lines[k + 1..], now) == AllRestored(SamplesOf(rows[k..]))
  {
    var header :| IsHeader(header) && f.lines == [header] + LinesOf(rows);
    DroppedHeader(header, LinesOf(rows), k);
    LinesFrom(rows, k);
    WritableFrom(rows, k, now);
    RowsParse(rows[k..], now);
  }

  lemma FirstIsNotCompleted(e: DayFile, now: nat, stored: map<nat, Summary>, base: real, day: DayStart)
    requires e.day !in stored
    ensures CompletedFiles([e], now, stored, base, day) == [false]
  {
    CompletedSnoc([], e, now, stored, base, day);
    assert [] + [e] == [e];
  }

  lemma SummaryDecides(f: DayFile, written: map<nat, Summary>, today: nat, stored: map<nat, Summary>)
    requires f.day in stored && f.day < today
    ensures Completed(f, written, today, stored)
  {
  }

  lemma PastFileIsCompleted(files: seq<DayFile>, f: DayFile, now: nat, stored: map<nat, Summary>, base: real,
                            day: DayStart)
    requires f.day in stored && f.day < day(now)
    ensures CompletedFiles(files + [f], now, stored, base, day) ==
            CompletedFiles(files, now, stored, base, day) + [true]
  {
    var r := StoredReplay.Recovered(Parts(files, now, stored, base, day), now, stored, base, day);
    CompletedSnoc(files, f, now, stored, base, day);
    SummaryDecides(f, r.written, day(now), stored);
  }

  lemma SecondIsCompleted(e: DayFile, f: DayFile, now: nat, stored: map<nat, Summary>, base: real, day: DayStart)
    requires e.day !in stored && f.day in stored && f.day < day(now)
    ensures CompletedFiles([e, f], now, stored, base, day) == [false, true]
  {
    var one := [e];
    FirstIsNotCompleted(e, now, stored, base, day);
    PastFileIsCompleted(one, f, now, stored, base, day);
    assert one + [f] == [e, f];
  }

  lemma VisitedOfTwo(a: Part, b: Part)
    ensures VisitedOf([a, b]) == a.visited + b.visited
  {
    VisitedSnoc([], a);
    VisitedSnoc([a], b);
    assert [] + [a] == [a] && [a] + [b] == [a, b];
  }

  lemma PartsOfTwo(e: DayFile, f: DayFile, now: nat, stored: map<nat, Summary>, base: real, day: DayStart)
    requires e.day !in stored && f.day in stored && f.day < day(now)
    ensures Parts([e, f], now, stored, base, day) == [PartOf(e, false, now), PartOf(f, true, now)]
  {
    SecondIsCompleted(e, f, now, stored, base, day);
  }

  lemma VisitedParts(e: DayFile, f: DayFile, now: nat, stored: map<nat, Summary>, base: real, day: DayStart)
    requires e.day !in stored && f.day in stored && f.day < day(now)
    ensures VisitedOf(Parts([e, f], now, stored, base, day)) ==
            PartOf(e, false, now).visited + PartOf(f, true, now).visited
  {
    PartsOfTwo(e, f, now, stored, base, day);
    VisitedOfTwo(PartOf(e, false, now), PartOf(f, true, now));
  }

  lemma SamplesFrom(rows: seq<StoredRow>, k: nat)
    requires k <= |rows|
    ensures SamplesOf(rows[k..]) == SamplesOf(rows)[k..]
  {
  }

  lemma VisitedRows(e: DayFile, f: DayFile, row: StoredRow, rows: seq<StoredRow>, k: nat, now: nat)
    requires Holds(e, [row], now) && Holds(f, rows, now) && SkippedLines(f, true) == k && 0 < k <= |rows|
    ensures PartOf(e, false, now).visited + PartOf(f, true, now).visited ==
            [Restored(row.sample)] + AllRestored(SamplesOf(rows[k - 1..]))
  {
    RowsParseBack(e, [row], now);
    assert e.lines[0..] == e.lines;
    assert AllRestored(SamplesOf([row])) == [Restored(row.sample)];
    SuffixOfRows(f, rows, k - 1, now);
  }

  lemma AfterCut(p: Sample, samples: seq<Sample>, k: nat, day: DayStart, d: nat)
    requires k < |samples| && OffDay(samples, day, d) && InTimeOrder([p] + samples)
    ensures
      var tail := AllRestored(samples[k..]);
      OffDay(tail, day, d) && InTimeOrder([Restored(p)] + tail) && tail[0].timestamp == samples[k].timestamp
  {
    var tail := AllRestored(samples[k..]);
    forall j | 0 <= j < |tail| ensures tail[j].timestamp == samples[k + j].timestamp >= p.timestamp {
      assert ([p] + samples)[k + j + 1] == samples[k + j] && ([p] + samples)[0] == p;
    }
    OrderedParts([p], samples);
    forall i, j | 0 <= i < j < |tail| ensures tail[i].timestamp <= tail[j].timestamp {
      assert samples[k + i].timestamp <= samples[k + j].timestamp;
    }
  }

  /** What recovery makes of the last sample of a day and a far tail. */
  lemma FarTailReplayed(p: Sample, tail: seq<Sample>, today: nat, stored: map<nat, Summary>, base: real, day: DayStart,
                        d: nat, u: nat, m: Measure)
    requires LocalDays(day) && LongDays(day) && DayEnds(day, d, u) && d != 0 && d !in stored
    requires InTimeOrder([p] + tail) && OffDay(tail, day, d)
    requires tail != [] ==> p.timestamp + EnergyPairs.MAX_GAP < tail[0].timestamp
    ensures Reported(Finished(Replayed([p] + tail, today, stored, base, day), today), today, d, m) == 0.0
  {
    RecoveredDaysAreExact([p] + tail, today, stored, base, day, d, u, m);
    FarRunIsWorthless(p, tail, base, day, d, u, m);
  }

  /** The samples that are visited in a file of one row and a file that is cut. */
  lemma VisitedInTwo(e: DayFile, f: DayFile, row: StoredRow, rows: seq<StoredRow>, now: nat,
                     stored: map<nat, Summary>, base: real, day: DayStart)
    requires Holds(e, [row], now) && Holds(f, rows, now) && 0 < SkippedLines(f, true) <= |rows|
    requires e.day !in stored && f.day in stored && f.day < day(now)
    ensures VisitedOf(Parts([e, f], now, stored, base, day)) ==
            [Restored(row.sample)] + AllRestored(SamplesOf(rows)[SkippedLines(f, true) - 1..])
  {
    var k := SkippedLines(f, true);
    VisitedParts(e, f, now, stored, base, day);
    VisitedRows(e, f, row, rows, k, now);
    SamplesFrom(rows, k - 1);
  }

  /**
   The files themselves: a day whose only row is that of p, and a past day with a summary whose file is cut behind its
   first row, the tail beginning more than 600 seconds after p. The day is reported without the interval that live
   accounting had on record.
   */
  lemma CutFileLosesFirstInterval(e: DayFile, f: DayFile, row: StoredRow, rows: seq<StoredRow>, now: nat,
                                  stored: map<nat, Summary>, base: real, day: DayStart, d: nat, u: nat, m: Measure)
    requires LocalDays(day) && LongDays(day) && DayEnds(day, d, u) && d != 0 && d !in stored
    requires Holds(e, [row], now) && Holds(f, rows, now) && e.day == d && f.day in stored && f.day < day(now)
    requires var samples, k := SamplesOf(rows), SkippedLines(f, true);
             && 1 < k <= |rows| && row.sample.timestamp + EnergyPairs.MAX_GAP < samples[k - 1].timestamp
             && OffDay(samples, day, d) && OneBoot([row.sample] + samples, day) && InTimeOrder([row.sample] + samples)
    ensures ReportedFrom([e, f], now, stored, base, day, d, m) == 0.0
    ensures LiveRecords([[row.sample] + SamplesOf(rows)], base, day, d, m) ==
            Share(row.sample, SamplesOf(rows)[0], base, d, u, m)
  {
    var p, samples, k := row.sample, SamplesOf(rows), SkippedLines(f, true);
    VisitedInTwo(e, f, row, rows, now, stored, base, day);
    AfterCut(p, samples, k - 1, day, d);
    FarTailReplayed(Restored(p), AllRestored(samples[k - 1..]), day(now), stored, base, day, d, u, m);
    DayEndRecorded(p, samples, base, day, d, u, m);
  }

  // ----- forced DHW

  /** A sample of forced DHW: the compressor runs in a counted mode, and the valve is not on DHW. */
  ghost predicate ForcedDhw(s: Sample, r: Topics) {
    && Made(s, r) && r.hz.Some? && r.hz.value >= 0.55
    && CountedMode(s.operatingMode) && !s.defrost && Forced(s)
  }

  lemma PairOfForcedDhw(p: Sample, c: Sample, rp: Topics, rc: Topics)
    requires ForcedDhw(p, rp) && ForcedDhw(c, rc)
    requires p.timeValid && c.timeValid && p.bootId == c.bootId && p.electricalSource == c.electricalSource
    requires p.timestamp < c.timestamp <= p.timestamp + EnergyPairs.MAX_GAP
    ensures CountedGroup(p, c) == 2 && CountedGroup(Restored(p), Restored(c)) == 1
  {
    ForcedDhwBecomesHeating(p, rp);
    ForcedDhwBecomesHeating(c, rc);
  }

  /** Forced DHW is DHW energy while it is recorded, and heating energy when its rows are replayed. */
  lemma ForcedDhwIsReplayedAsHeating(p: Sample, c: Sample, rp: Topics, rc: Topics, today: nat,
                                     stored: map<nat, Summary>, base: real, day: DayStart, d: nat, u: nat)
    requires LocalDays(day) && LongDays(day) && DayEnds(day, d, u) && d != 0 && d !in stored
    requires ForcedDhw(p, rp) && ForcedDhw(c, rc) && OneBoot([p, c], day) && p.electricalSource == c.electricalSource
    requires p.timestamp < c.timestamp <= p.timestamp + EnergyPairs.MAX_GAP && Powered(p, c, d, u, true)
    ensures
      var replayed := Finished(Replayed([Restored(p), Restored(c)], today, stored, base, day), today);
      && Reported(replayed, today, d, HeatThermal) == LiveRecords([[p, c]], base, day, d, DhwThermal) > 0.0
      && Reported(replayed, today, d, DhwThermal) == LiveRecords([[p, c]], base, day, d, HeatThermal) == 0.0
  {
    assert [p, c][0] == p && [p, c][1] == c;
    PairOfForcedDhw(p, c, rp, rc);
    SharesByGroup(p, c, base, d, u, true);
    SharesByGroup(Restored(p), Restored(c), base, d, u, true);
    SameEnergyRestored(p, c, d, u, true);
    PoweredIsPositive(p, c, d, u, true);
    TwoReplayed(Restored(p), Restored(c), today, stored, base, day, d, u, HeatThermal);
    TwoReplayed(Restored(p), Restored(c), today, stored, base, day, d, u, DhwThermal);
    PairRecorded(p, c, base, day, d, u, HeatThermal);
    PairRecorded(p, c, base, day, d, u, DhwThermal);
  }

  lemma PairRecorded(p: Sample, c: Sample, base: real, day: DayStart, d: nat, u: nat, m: Measure)
    requires LocalDays(day) && LongDays(day) && DayEnds(day, d, u) && d != 0
    requires OneBoot([p, c], day) && p.timestamp < c.timestamp
    ensures LiveRecords([[p, c]], base, day, d, m) == Share(p, c, base, d, u, m)
  {
    OneBootRecords([p, c], base, day, d, u, m);
    PairSum(p, c, base, d, u, m);
  }
}
