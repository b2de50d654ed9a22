/** Flushes with any number of stores in between: which retained samples are then never written. */
module FlushSchedules {
  import opened HistorySamples
  import opened Rings
  import opened SampleFlush
  import opened FlushRuns
  import opened FlushExactness

  // ----- schedules

  function Stores(r: Recorder, samples: seq<Sample>): (after: Recorder)
    requires Shaped(r)
    ensures Shaped(after) && after.sequence == r.sequence + |samples|
    ensures after.count == if r.count + |samples| < MAX_SAMPLES then r.count + |samples| else MAX_SAMPLES
    ensures after == r.(buf := after.buf, start := after.start, count := after.count, sequence := after.sequence)
  {
    if samples == [] then r else StoreStep(Stores(r, samples[..|samples| - 1]), samples[|samples| - 1])
  }

  /** The first n reads; gaps[i] is stored just before slot i is read. */
  function ReadsAmong(r: Recorder, gaps: seq<seq<Sample>>, n: nat): (after: Recorder)
    requires Shaped(r) && r.writer.Writing? && r.writer.offset == 0 && n <= |gaps| == r.writer.localCount
    ensures Shaped(after) && after.writer.Writing? && after.writer.offset == n && after.flushed == r.flushed
    ensures after.writer.localCount == r.writer.localCount && after.writer.localStart == r.writer.localStart
    ensures after.sequence == r.sequence + Total(gaps, n)
    ensures after.count == if r.count + Total(gaps, n) < MAX_SAMPLES then r.count + Total(gaps, n) else MAX_SAMPLES
  {
    if n == 0 then r else ReadStep(Stores(ReadsAmong(r, gaps, n - 1), gaps[n - 1]))
  }

  /** How many samples are stored in the first n gaps. */
  function Total(gaps: seq<seq<Sample>>, n: nat): nat
    requires n <= |gaps|
  {
    if n == 0 then 0 else Total(gaps, n - 1) + |gaps[n - 1]|
  }

  /** The stores during one flush: before its first look at the oldest slot, before each read, and before it closes. */
  datatype Schedule = Schedule(early: seq<Sample>, gaps: seq<seq<Sample>>, late: seq<Sample>)

  /** The stores that happen before slot o is read. */
  function StoresBefore(s: Schedule, o: nat): nat
    requires o < |s.gaps|
  {
    |s.early| + Total(s.gaps, o + 1)
  }

  function AllStores(s: Schedule): nat {
    |s.early| + Total(s.gaps, |s.gaps|) + |s.late|
  }

  function Looked(r: Recorder, s: Schedule): (w: Recorder)
    requires Ready(r)
    ensures Shaped(w) && w.writer == Writing(r.start, r.count, 0, w.flushed) && w.file == r.file
    ensures w.sequence == r.sequence + |s.early|
  {
    OldestStep(Stores(BeginStep(r, true, true), s.early))
  }

  function FlushAmong(r: Recorder, s: Schedule): (after: Recorder)
    requires Ready(r) && |s.gaps| == r.count
    ensures Shaped(after) && after.sequence == r.sequence + AllStores(s)
    ensures after.count == if r.count + AllStores(s) < MAX_SAMPLES then r.count + AllStores(s) else MAX_SAMPLES
  {
    CloseStep(Stores(ReadsAmong(Looked(r, s), s.gaps, r.count), s.late), true)
  }

  // ----- what a slot holds

  /** The number of the oldest retained sample. */
  function Base(r: Recorder): nat
    requires Ready(r)
  {
    r.sequence - r.count + 1
  }

  /** The newest number up to s in the slot that first held x. */
  function Latest(x: nat, s: nat): (n: nat)
    requires x <= s
    ensures x <= n <= s < n + MAX_SAMPLES
  {
    s - (s - x) % MAX_SAMPLES
  }

  lemma LatestIsUnique(x: nat, s: nat, n: nat)
    requires x <= n <= s
    ensures Latest(x, s) == n <==> s < n + MAX_SAMPLES && (n - x) % MAX_SAMPLES == 0
  {
    var k := (s - x) / MAX_SAMPLES;
    assert s - x == k * MAX_SAMPLES + (s - x) % MAX_SAMPLES;
    if s < n + MAX_SAMPLES && (n - x) % MAX_SAMPLES == 0 {
      var j := (n - x) / MAX_SAMPLES;
      assert s - x == j * MAX_SAMPLES + (s - n);
    }
  }

  lemma LatestSteps(x: nat, s: nat)
    requires x <= s
    ensures Latest(x, s + 1) == if (s + 1 - x) % MAX_SAMPLES == 0 then s + 1 else Latest(x, s)
  {
  }

  /** Where the next store goes, and what the slots of the flush hold. */
  ghost predicate Aligned(q: Recorder, r: Recorder) {
    && Ready(r) && Shaped(q) && Retains(q) && q.sequence >= r.sequence
    && Slot(q.start, q.count, MAX_SAMPLES) == Slot(r.start, (q.sequence + 1 - Base(r)) % MAX_SAMPLES, MAX_SAMPLES)
    && forall o :: 0 <= o < r.count ==> q.buf[Slot(r.start, o, MAX_SAMPLES)].sequence == Latest(Base(r) + o, q.sequence)
  }

  lemma ModStep(y: int)
    ensures (y + 1) % MAX_SAMPLES == if y % MAX_SAMPLES == MAX_SAMPLES - 1 then 0 else y % MAX_SAMPLES + 1
  {
  }

  lemma NextSlotAligned(q: Recorder, r: Recorder, sample: Sample)
    requires Aligned(q, r)
    ensures
      var a := StoreStep(q, sample);
      Slot(a.start, a.count, MAX_SAMPLES) == Slot(r.start, (a.sequence + 1 - Base(r)) % MAX_SAMPLES, MAX_SAMPLES)
  {
    var a, y := StoreStep(q, sample), q.sequence + 1 - Base(r);
    ModStep(y);
    var here := Slot(q.start, q.count, MAX_SAMPLES);
    assert Slot(a.start, a.count, MAX_SAMPLES) == Slot(here, 1, MAX_SAMPLES);
    assert here == Slot(r.start, y % MAX_SAMPLES, MAX_SAMPLES);
  }

  lemma SlotAfterStore(q: Recorder, r: Recorder, sample: Sample, o: nat)
    requires Aligned(q, r) && o < r.count
    ensures StoreStep(q, sample).buf[Slot(r.start, o, MAX_SAMPLES)].sequence == Latest(Base(r) + o, q.sequence + 1)
  {
    var written := (q.sequence + 1 - Base(r)) % MAX_SAMPLES;
    LatestSteps(Base(r) + o, q.sequence);
    SlotOfNumber(q.sequence + 1 - Base(r), o);
    if o < written {
      SlotsDiffer(r.start, o, written, MAX_SAMPLES);
    } else if written < o {
      SlotsDiffer(r.start, written, o, MAX_SAMPLES);
    }
  }

  lemma StoreAligned(q: Recorder, r: Recorder, sample: Sample)
    requires Aligned(q, r)
    ensures Aligned(StoreStep(q, sample), r)
  {
    StoreRetains(q, sample);
    NextSlotAligned(q, r, sample);
    forall o | 0 <= o < r.count
      ensures StoreStep(q, sample).buf[Slot(r.start, o, MAX_SAMPLES)].sequence == Latest(Base(r) + o, q.sequence + 1)
    {
      SlotAfterStore(q, r, sample, o);
    }
  }

  lemma SlotOfNumber(y: int, o: nat)
    requires o < MAX_SAMPLES
    ensures (y - o) % MAX_SAMPLES == 0 <==> y % MAX_SAMPLES == o
  {
  }

  lemma {:induction false} StoresAligned(q: Recorder, r: Recorder, samples: seq<Sample>)
    requires Aligned(q, r)
    ensures Aligned(Stores(q, samples), r)
  {
    if samples != [] {
      StoresAligned(q, r, samples[..|samples| - 1]);
      StoreAligned(Stores(q, samples[..|samples| - 1]), r, samples[|samples| - 1]);
    }
  }

  lemma SameSlotsAligned(q: Recorder, after: Recorder, r: Recorder)
    requires Aligned(q, r) && Shaped(after) && SameSlots(q, after)
    ensures Aligned(after, r)
  {
    SameRing(q, after);
  }

  lemma StartAligned(r: Recorder)
    requires Ready(r)
    ensures Aligned(BeginStep(r, true, true), r)
  {
    var begun := BeginStep(r, true, true);
    SameRing(r, begun);
    forall o | 0 <= o < r.count
      ensures begun.buf[Slot(r.start, o, MAX_SAMPLES)].sequence == Latest(Base(r) + o, r.sequence)
    {
      assert Contents(r)[o].sequence == Base(r) + o;
    }
  }

  /** The number above which the flush writes. */
  function Floor(r: Recorder, s: Schedule): nat
    requires Ready(r)
  {
    var oldest := Latest(Base(r), r.sequence + |s.early|);
    if r.flushed < oldest - 1 then oldest - 1 else r.flushed
  }

  lemma FloorIsLooked(q: Recorder, r: Recorder, s: Schedule)
    requires Aligned(q, r) && q.writer == Opened(r.start, r.count) && q.flushed == r.flushed
    requires q.sequence == r.sequence + |s.early|
    ensures OldestStep(q).flushed == Floor(r, s) && SameSlots(q, OldestStep(q))
  {
    assert q.buf[Slot(r.start, 0, MAX_SAMPLES)].sequence == Latest(Base(r) + 0, q.sequence);
  }

  lemma LookedAt(r: Recorder, s: Schedule)
    requires Ready(r)
    ensures Aligned(Looked(r, s), r) && Looked(r, s).flushed == Floor(r, s)
  {
    var begun := BeginStep(r, true, true);
    StartAligned(r);
    StoresAligned(begun, r, s.early);
    FloorIsLooked(Stores(begun, s.early), r, s);
    SameSlotsAligned(Stores(begun, s.early), Looked(r, s), r);
  }

  // ----- what the reads see and write

  /** The number that the flush reads in slot o. */
  function Seen(r: Recorder, s: Schedule, o: nat): nat
    requires Ready(r) && o < r.count == |s.gaps|
  {
    Latest(Base(r) + o, r.sequence + StoresBefore(s, o))
  }

  predicate SeenIn(r: Recorder, s: Schedule, n: nat, x: nat)
    requires Ready(r) && n <= r.count == |s.gaps|
  {
    exists o :: 0 <= o < n && Seen(r, s, o) == x
  }

  function NewestSeen(r: Recorder, s: Schedule, n: nat): (newest: nat)
    requires Ready(r) && n <= r.count == |s.gaps|
    ensures newest >= Floor(r, s) && forall o :: 0 <= o < n ==> Seen(r, s, o) <= newest
    ensures newest == Floor(r, s) || SeenIn(r, s, n, newest)
  {
    if n == 0 then Floor(r, s)
    else
      var newest, last := NewestSeen(r, s, n - 1), Seen(r, s, n - 1);
      if last > newest then last else newest
  }

  /** n reads have written the numbers above the floor that they saw. */
  ghost predicate ReadSoFar(q: Recorder, r: Recorder, s: Schedule, n: nat) {
    && Aligned(q, r) && |s.gaps| == r.count && n <= r.count
    && q.writer == Writing(r.start, r.count, n, NewestSeen(r, s, n)) && q.flushed == Floor(r, s)
    && forall x: nat :: InFile(q.file, x) <==> InFile(r.file, x) || (x > Floor(r, s) && SeenIn(r, s, n, x))
  }

  lemma SeenInMore(r: Recorder, s: Schedule, n: nat, x: nat)
    requires Ready(r) && n < r.count == |s.gaps|
    ensures SeenIn(r, s, n + 1, x) <==> SeenIn(r, s, n, x) || Seen(r, s, n) == x
  {
  }

  lemma ReadSlot(q: Recorder, r: Recorder, s: Schedule, n: nat)
    requires ReadSoFar(q, r, s, n) && n < r.count && q.sequence == r.sequence + StoresBefore(s, n)
    ensures q.buf[Slot(r.start, n, MAX_SAMPLES)].sequence == Seen(r, s, n)
  {
  }

  lemma FileAfterRead(file: seq<Sample>, here: Sample, r: Recorder, s: Schedule, n: nat, x: nat)
    requires Ready(r) && n < r.count == |s.gaps| && here.sequence == Seen(r, s, n)
    requires InFile(file, x) <==> InFile(r.file, x) || (x > Floor(r, s) && SeenIn(r, s, n, x))
    ensures
      var after := if here.sequence <= Floor(r, s) then file else file + [here];
      InFile(after, x) <==> InFile(r.file, x) || (x > Floor(r, s) && SeenIn(r, s, n + 1, x))
  {
    SeenInMore(r, s, n, x);
    InLongerFile(file, here, x);
  }

  lemma FileOfRead(q: Recorder, r: Recorder, s: Schedule, n: nat, x: nat)
    requires ReadSoFar(q, r, s, n) && n < r.count && q.sequence == r.sequence + StoresBefore(s, n)
    ensures InFile(ReadStep(q).file, x) <==> InFile(r.file, x) || (x > Floor(r, s) && SeenIn(r, s, n + 1, x))
  {
    ReadSlot(q, r, s, n);
    FileAfterRead(q.file, q.buf[Slot(r.start, n, MAX_SAMPLES)], r, s, n, x);
  }

  lemma ReadAligned(q: Recorder, r: Recorder)
    requires Aligned(q, r) && Shaped(q) && q.writer.Writing? && q.writer.offset < q.writer.localCount
    requires Shaped(ReadStep(q))
    ensures Aligned(ReadStep(q), r)
  {
    SameSlotsAligned(q, ReadStep(q), r);
  }

  lemma NewestAfterRead(r: Recorder, s: Schedule, n: nat)
    requires Ready(r) && n < r.count == |s.gaps|
    ensures
      var newest, here := NewestSeen(r, s, n), Seen(r, s, n);
      NewestSeen(r, s, n + 1) == if here > Floor(r, s) && here > newest then here else newest
  {
  }

  lemma WriterAfterRead(q: Recorder, r: Recorder, s: Schedule, n: nat)
    requires ReadSoFar(q, r, s, n) && n < r.count && q.sequence == r.sequence + StoresBefore(s, n)
    ensures
      var after := ReadStep(q);
      && Aligned(after, r) && after.flushed == Floor(r, s)
      && after.writer == Writing(r.start, r.count, n + 1, NewestSeen(r, s, n + 1))
  {
    ReadSlot(q, r, s, n);
    NewestAfterRead(r, s, n);
    ReadAligned(q, r);
  }

  lemma OneReadAmong(q: Recorder, r: Recorder, s: Schedule, n: nat)
    requires ReadSoFar(q, r, s, n) && n < r.count && q.sequence == r.sequence + StoresBefore(s, n)
    ensures ReadSoFar(ReadStep(q), r, s, n + 1)
  {
    var after := ReadStep(q);
    WriterAfterRead(q, r, s, n);
    forall x: nat
      ensures InFile(after.file, x) <==> InFile(r.file, x) || (x > Floor(r, s) && SeenIn(r, s, n + 1, x))
    {
      FileOfRead(q, r, s, n, x);
    }
  }

  lemma StoresKeepReads(q: Recorder, r: Recorder, s: Schedule, n: nat, samples: seq<Sample>)
    requires ReadSoFar(q, r, s, n)
    ensures ReadSoFar(Stores(q, samples), r, s, n)
  {
    StoresAligned(q, r, samples);
  }

  lemma NothingReadYet(r: Recorder, s: Schedule)
    requires Ready(r) && r.count == |s.gaps|
    ensures ReadSoFar(Looked(r, s), r, s, 0)
  {
    LookedAt(r, s);
  }

  lemma OneGap(q: Recorder, r: Recorder, s: Schedule, n: nat)
    requires ReadSoFar(q, r, s, n) && n < r.count && q.sequence == r.sequence + |s.early| + Total(s.gaps, n)
    ensures ReadSoFar(ReadStep(Stores(q, s.gaps[n])), r, s, n + 1)
  {
    StoresKeepReads(q, r, s, n, s.gaps[n]);
    OneReadAmong(Stores(q, s.gaps[n]), r, s, n);
  }

  lemma {:induction false} ReadsAmongSee(r: Recorder, s: Schedule, n: nat)
    requires Ready(r) && n <= r.count == |s.gaps|
    ensures ReadSoFar(ReadsAmong(Looked(r, s), s.gaps, n), r, s, n)
  {
    if n == 0 {
      NothingReadYet(r, s);
    } else {
      ReadsAmongSee(r, s, n - 1);
      OneGap(ReadsAmong(Looked(r, s), s.gaps, n - 1), r, s, n - 1);
    }
  }

  /** The ring still holds number n. */
  predicate Retained(r: Recorder, n: nat) {
    r.sequence - r.count < n <= r.sequence
  }

  /** Retained, not written, and now counted as flushed: it will never be written. */
  predicate Lost(r: Recorder, after: Recorder, n: nat) {
    r.flushed < n <= after.flushed && Retained(after, n) && !InFile(after.file, n)
  }

  /** What a flush leaves, whatever is stored meanwhile. */
  lemma FlushAmongLeaves(r: Recorder, s: Schedule)
    requires Ready(r) && |s.gaps| == r.count
    ensures
      var after := FlushAmong(r, s);
      && after.flushed == NewestSeen(r, s, r.count)
      && Retains(after)
      && forall n: nat :: n > r.flushed ==> (InFile(after.file, n) <==> n > Floor(r, s) && SeenIn(r, s, r.count, n))
  {
    ReadsAmongSee(r, s, r.count);
    var q := ReadsAmong(Looked(r, s), s.gaps, r.count);
    StoresAligned(q, r, s.late);
    SameRing(Stores(q, s.late), FlushAmong(r, s));
    forall n: nat | n > r.flushed ensures !InFile(r.file, n) {
    }
  }

  /** Number n was in its slot when that slot was read. */
  predicate InSlotWhenRead(r: Recorder, s: Schedule, n: nat)
    requires Ready(r) && |s.gaps| == r.count && Base(r) <= n
  {
    var o := (n - Base(r)) % MAX_SAMPLES;
    o < r.count && n <= r.sequence + StoresBefore(s, o) < n + MAX_SAMPLES
  }

  lemma SeenInItsSlot(r: Recorder, s: Schedule, n: nat)
    requires Ready(r) && |s.gaps| == r.count && Base(r) <= n
    ensures SeenIn(r, s, r.count, n) <==> InSlotWhenRead(r, s, n)
  {
    var slot := (n - Base(r)) % MAX_SAMPLES;
    forall o | 0 <= o < r.count
      ensures Seen(r, s, o) == n <==> o == slot && n <= r.sequence + StoresBefore(s, o) < n + MAX_SAMPLES
    {
      SlotOfNumber(n - Base(r), o);
      var x, now := Base(r) + o, r.sequence + StoresBefore(s, o);
      if x <= n <= now {
        LatestIsUnique(x, now, n);
      }
    }
    if InSlotWhenRead(r, s, n) {
      assert Seen(r, s, slot) == n;
    }
  }

  /**
   However many samples are stored meanwhile: a retained sample that was due is lost if and only if its number is not
   above the newest one read, and it was either not in its slot when that slot was read or not above the floor.
   */
  lemma LostExactly(r: Recorder, s: Schedule, n: nat)
    requires Ready(r) && |s.gaps| == r.count && r.flushed < n && Retained(FlushAmong(r, s), n)
    ensures Base(r) <= n
    ensures Lost(r, FlushAmong(r, s), n) <==>
            n <= NewestSeen(r, s, r.count) && !(n > Floor(r, s) && InSlotWhenRead(r, s, n))
  {
    FlushAmongLeaves(r, s);
    SeenInItsSlot(r, s, n);
  }

  // ----- fewer stores than slots

  ghost predicate NothingLost(r: Recorder, after: Recorder) {
    forall n: nat :: !Lost(r, after, n)
  }

  /** The stores have come round to slot o before it is read. */
  predicate Overtaken(r: Recorder, s: Schedule, o: nat)
    requires o < |s.gaps|
  {
    StoresBefore(s, o) > MAX_SAMPLES - r.count + o
  }

  ghost predicate NoneOvertaken(r: Recorder, s: Schedule) {
    forall o :: 0 <= o < |s.gaps| ==> !Overtaken(r, s, o)
  }

  /** The overtaken slots are the first ones. */
  ghost predicate FirstOvertaken(r: Recorder, s: Schedule) {
    forall o, p :: 0 <= o < p < |s.gaps| && Overtaken(r, s, p) ==> Overtaken(r, s, o)
  }

  lemma {:induction false} TotalGrows(gaps: seq<seq<Sample>>, a: nat, b: nat)
    requires a <= b <= |gaps|
    ensures Total(gaps, a) <= Total(gaps, b)
  {
    if a < b {
      TotalGrows(gaps, a, b - 1);
    }
  }

  lemma StoresBeforeBounds(s: Schedule, o: nat)
    requires o < |s.gaps|
    ensures |s.early| <= StoresBefore(s, o) <= AllStores(s)
  {
    TotalGrows(s.gaps, o + 1, |s.gaps|);
  }

  /** With fewer stores than slots, a slot holds its first sample or the one that overtook it. */
  lemma SeenValue(r: Recorder, s: Schedule, o: nat)
    requires Ready(r) && o < r.count == |s.gaps| && AllStores(s) < MAX_SAMPLES
    ensures Seen(r, s, o) == if Overtaken(r, s, o) then Base(r) + o + MAX_SAMPLES else Base(r) + o
  {
    StoresBeforeBounds(s, o);
  }

  lemma FloorValue(r: Recorder, s: Schedule)
    requires Ready(r) && |s.early| < MAX_SAMPLES
    ensures |s.early| <= MAX_SAMPLES - r.count ==>
            Floor(r, s) == if r.flushed < Base(r) - 1 then Base(r) - 1 else r.flushed
    ensures |s.early| > MAX_SAMPLES - r.count ==> Floor(r, s) == r.sequence + MAX_SAMPLES - r.count
  {
  }

  lemma UntouchedLosesNothing(r: Recorder, s: Schedule)
    requires Ready(r) && |s.gaps| == r.count && AllStores(s) < MAX_SAMPLES && NoneOvertaken(r, s)
    ensures NothingLost(r, FlushAmong(r, s))
  {
    FlushAmongLeaves(r, s);
    StoresBeforeBounds(s, 0);
    assert !Overtaken(r, s, 0);
    FloorValue(r, s);
    forall n: nat ensures !Lost(r, FlushAmong(r, s), n) {
      if r.flushed < n <= NewestSeen(r, s, r.count) && Retained(FlushAmong(r, s), n) {
        forall o | 0 <= o < r.count ensures Seen(r, s, o) == Base(r) + o {
          SeenValue(r, s, o);
        }
        assert Seen(r, s, n - Base(r)) == n;
      }
    }
  }

  /** The slot of a sample stored during the flush. */
  lemma SlotOfStored(r: Recorder, s: Schedule, k: nat)
    requires Ready(r) && |s.gaps| == r.count && k < r.count && AllStores(s) < MAX_SAMPLES
    ensures r.count < MAX_SAMPLES && k == 0 ==> !InSlotWhenRead(r, s, r.sequence + 1)
    ensures r.count == MAX_SAMPLES && !Overtaken(r, s, k) ==> !InSlotWhenRead(r, s, r.sequence + 1 + k)
  {
    assert r.count < MAX_SAMPLES ==> r.count % MAX_SAMPLES == r.count;
    assert r.count == MAX_SAMPLES ==> (r.count + k) % MAX_SAMPLES == k;
    assert r.sequence + 1 + k - Base(r) == r.count + k;
  }

  /** An overtaken slot hides every number that is not above what it holds and that is not written. */
  lemma OvertakenHides(r: Recorder, s: Schedule, o: nat, n: nat)
    requires Ready(r) && o < r.count == |s.gaps| && AllStores(s) < MAX_SAMPLES && Overtaken(r, s, o)
    requires Base(r) <= n <= Base(r) + o + MAX_SAMPLES && r.flushed < n && Retained(FlushAmong(r, s), n)
    requires !(n > Floor(r, s) && InSlotWhenRead(r, s, n))
    ensures Lost(r, FlushAmong(r, s), n)
  {
    SeenValue(r, s, o);
    LostExactly(r, s, n);
  }

  /** With free slots, the samples stored into them are hidden behind one that overtook. */
  lemma FreeSlotsAreHidden(r: Recorder, s: Schedule, o: nat)
    requires Ready(r) && o < r.count == |s.gaps| && AllStores(s) < MAX_SAMPLES && r.count < MAX_SAMPLES &&
             Overtaken(r, s, o)
    ensures Lost(r, FlushAmong(r, s), r.sequence + 1)
  {
    SlotOfStored(r, s, 0);
    StoresBeforeBounds(s, o);
    OvertakenHides(r, s, o, r.sequence + 1);
  }

  /** A sample stored behind the reader is hidden by one stored in front of it. */
  lemma StoredBehindIsHidden(r: Recorder, s: Schedule, o: nat, p: nat)
    requires Ready(r) && o < p < r.count == |s.gaps| && AllStores(s) < MAX_SAMPLES && r.count == MAX_SAMPLES
    requires Overtaken(r, s, p) && !Overtaken(r, s, o)
    ensures Lost(r, FlushAmong(r, s), r.sequence + 1 + o)
  {
    SlotOfStored(r, s, o);
    StoresBeforeBounds(s, p);
    OvertakenHides(r, s, p, r.sequence + 1 + o);
  }

  /** An early store over the oldest sample hides all the others that were due. */
  lemma EarlyStoreHidesAll(r: Recorder, s: Schedule, n: nat)
    requires Ready(r) && |s.gaps| == r.count == MAX_SAMPLES && AllStores(s) < MAX_SAMPLES && s.early != []
    requires r.flushed < n <= r.sequence && Retained(FlushAmong(r, s), n)
    ensures Lost(r, FlushAmong(r, s), n)
  {
    StoresBeforeBounds(s, 0);
    FloorValue(r, s);
    OvertakenHides(r, s, 0, n);
  }

  lemma FirstOvertakenLosesNothing(r: Recorder, s: Schedule)
    requires Ready(r) && |s.gaps| == r.count == MAX_SAMPLES && AllStores(s) < MAX_SAMPLES
    requires FirstOvertaken(r, s) && (s.early == [] || r.flushed == r.sequence)
    ensures NothingLost(r, FlushAmong(r, s))
  {
    FlushAmongLeaves(r, s);
    FloorValue(r, s);
    forall n: nat ensures !Lost(r, FlushAmong(r, s), n) {
      if r.flushed < n <= NewestSeen(r, s, r.count) && Retained(FlushAmong(r, s), n) {
        if n <= r.sequence {
          RetainedIsSeen(r, s, n);
        } else {
          StoredIsSeen(r, s, n);
        }
      }
    }
  }

  lemma RetainedIsSeen(r: Recorder, s: Schedule, n: nat)
    requires Ready(r) && |s.gaps| == r.count == MAX_SAMPLES && AllStores(s) < MAX_SAMPLES
    requires n <= r.sequence && Retained(FlushAmong(r, s), n)
    ensures SeenIn(r, s, r.count, n)
  {
    var o := n - Base(r);
    StoresBeforeBounds(s, o);
    SeenValue(r, s, o);
    assert Seen(r, s, o) == n;
  }

  lemma StoredIsSeen(r: Recorder, s: Schedule, n: nat)
    requires Ready(r) && |s.gaps| == r.count == MAX_SAMPLES && AllStores(s) < MAX_SAMPLES && FirstOvertaken(r, s)
    requires Floor(r, s) <= r.sequence < n <= NewestSeen(r, s, r.count)
    ensures SeenIn(r, s, r.count, n)
  {
    var newest := NewestSeen(r, s, r.count);
    var p :| 0 <= p < r.count && Seen(r, s, p) == newest;
    SeenValue(r, s, p);
    var o := n - r.sequence - 1;
    SeenValue(r, s, o);
    assert o < p ==> Overtaken(r, s, o);
    assert Seen(r, s, o) == n;
  }

  /**
   With fewer stores than slots during a flush, no retained sample is lost if and only if the stores never overtake
   the reader, or the ring is full, the overtaken slots are its first ones, and there was no store before the first
   look at the oldest slot (or nothing was due).
   */
  lemma LosesNothingExactly(r: Recorder, s: Schedule)
    requires Ready(r) && |s.gaps| == r.count && AllStores(s) < MAX_SAMPLES
    ensures NothingLost(r, FlushAmong(r, s)) <==>
            || NoneOvertaken(r, s)
            || (r.count == MAX_SAMPLES && FirstOvertaken(r, s) && (s.early == [] || r.flushed == r.sequence))
  {
    if NoneOvertaken(r, s) {
      UntouchedLosesNothing(r, s);
    } else {
      var o :| 0 <= o < |s.gaps| && Overtaken(r, s, o);
      if r.count < MAX_SAMPLES {
        FreeSlotsAreHidden(r, s, o);
      } else if !FirstOvertaken(r, s) {
        var a, b :| 0 <= a < b < |s.gaps| && Overtaken(r, s, b) && !Overtaken(r, s, a);
        StoredBehindIsHidden(r, s, a, b);
      } else if s.early != [] && r.flushed < r.sequence {
        EarlyStoreHidesAll(r, s, r.sequence);
      } else {
        FirstOvertakenLosesNothing(r, s);
      }
    }
  }

  // ----- one and two stores

  /** A single store loses something in exactly one case. */
  lemma OneStoreLosesOnlyEarly(r: Recorder, s: Schedule)
    requires Ready(r) && |s.gaps| == r.count && AllStores(s) == 1
    ensures NothingLost(r, FlushAmong(r, s)) <==> !(s.early != [] && r.count == MAX_SAMPLES && r.flushed < r.sequence)
  {
    LosesNothingExactly(r, s);
    forall o | 0 <= o < r.count ensures Overtaken(r, s, o) ==> r.count == MAX_SAMPLES && o == 0 {
      StoresBeforeBounds(s, o);
    }
    StoresBeforeBounds(s, 0);
    assert s.early != [] && r.count == MAX_SAMPLES ==> Overtaken(r, s, 0);
  }

  /** Two samples are stored between the first two reads. */
  function BetweenTheFirstReads(a: Sample, b: Sample): (s: Schedule)
    ensures |s.gaps| == MAX_SAMPLES
  {
    Schedule([], seq(MAX_SAMPLES, i => if i == 1 then [a, b] else []), [])
  }

  lemma {:induction false} OnlyOneGap(gaps: seq<seq<Sample>>, n: nat)
    requires 2 <= n <= |gaps| && forall i :: 0 <= i < |gaps| && i != 1 ==> gaps[i] == []
    ensures Total(gaps, 1) == 0 && Total(gaps, n) == |gaps[1]|
  {
    if n > 2 {
      OnlyOneGap(gaps, n - 1);
    } else {
      assert Total(gaps, 1) == Total(gaps, 0) + |gaps[0]|;
    }
  }

  /**
   A full ring: the first slot is read, one sample is stored over it, another over the second slot, and the flush
   goes on. The first of the two is retained, was never written, and counts as flushed.
   */
  lemma TwoStoresLoseOne(r: Recorder, a: Sample, b: Sample)
    requires Ready(r) && r.count == MAX_SAMPLES
    ensures
      var after := FlushAmong(r, BetweenTheFirstReads(a, b));
      && after.flushed == r.sequence + 2
      && Retained(after, r.sequence + 1) && !InFile(after.file, r.sequence + 1)
  {
    var s := BetweenTheFirstReads(a, b);
    OnlyOneGap(s.gaps, 2);
    OnlyOneGap(s.gaps, MAX_SAMPLES);
    StoredBehindIsHidden(r, s, 0, 1);
    FlushAmongLeaves(r, s);
    FloorValue(r, s);
    SeenValue(r, s, 1);
    forall o | 0 <= o < r.count ensures Seen(r, s, o) <= r.sequence + 2 {
      StoresBeforeBounds(s, o);
    }
  }

  // ----- schedules are runs

  function StoreEvents(samples: seq<Sample>): (events: seq<Event>)
    ensures |events| == |samples| && forall i :: 0 <= i < |samples| ==> events[i] == Store(samples[i])
  {
    seq(|samples|, i requires 0 <= i < |samples| => Store(samples[i]))
  }

  function ReadEvents(gaps: seq<seq<Sample>>, n: nat): seq<Event>
    requires n <= |gaps|
  {
    if n == 0 then [] else ReadEvents(gaps, n - 1) + StoreEvents(gaps[n - 1]) + [Read]
  }

  function LookEvents(s: Schedule): seq<Event> {
    [Begin(true, true)] + StoreEvents(s.early) + [Oldest]
  }

  /** The events of one flush with these stores. */
  function Events(s: Schedule): seq<Event> {
    LookEvents(s) + ReadEvents(s.gaps, |s.gaps|) + StoreEvents(s.late) + [Close(true)]
  }

  lemma AfterSnoc(r: Recorder, events: seq<Event>, e: Event)
    requires Shaped(r)
    ensures After(r, events + [e]) == Step(After(r, events), e)
  {
    assert (events + [e])[..|events|] == events;
  }

  lemma MoreStoreEvents(events: seq<Event>, samples: seq<Sample>)
    requires samples != []
    ensures
      var n := |samples| - 1;
      events + StoreEvents(samples) == events + StoreEvents(samples[..n]) + [Store(samples[n])]
  {
  }

  lemma {:induction false} AfterStores(r: Recorder, events: seq<Event>, samples: seq<Sample>)
    requires Shaped(r)
    ensures After(r, events + StoreEvents(samples)) == Stores(After(r, events), samples)
  {
    if samples == [] {
      assert events + StoreEvents(samples) == events;
    } else {
      var n := |samples| - 1;
      var before := events + StoreEvents(samples[..n]);
      AfterStores(r, events, samples[..n]);
      AfterSnoc(r, before, Store(samples[n]));
      MoreStoreEvents(events, samples);
    }
  }

  lemma AfterGap(r: Recorder, before: seq<Event>, q: Recorder, gap: seq<Sample>)
    requires Shaped(r) && After(r, before) == q && q.writer.Writing? && q.writer.offset < q.writer.localCount
    ensures After(r, before + StoreEvents(gap) + [Read]) == ReadStep(Stores(q, gap))
  {
    AfterStores(r, before, gap);
    AfterSnoc(r, before + StoreEvents(gap), Read);
  }

  lemma MoreReadEvents(before: seq<Event>, gaps: seq<seq<Sample>>, n: nat)
    requires 0 < n <= |gaps|
    ensures before + ReadEvents(gaps, n) == before + ReadEvents(gaps, n - 1) + StoreEvents(gaps[n - 1]) + [Read]
  {
  }

  lemma {:induction false} AfterReads(r: Recorder, before: seq<Event>, w: Recorder, gaps: seq<seq<Sample>>, n: nat)
    requires Shaped(r) && After(r, before) == w
    requires Shaped(w) && w.writer.Writing? && w.writer.offset == 0 && n <= |gaps| == w.writer.localCount
    ensures After(r, before + ReadEvents(gaps, n)) == ReadsAmong(w, gaps, n)
  {
    if n == 0 {
      assert before + ReadEvents(gaps, 0) == before;
    } else {
      AfterReads(r, before, w, gaps, n - 1);
      AfterGap(r, before + ReadEvents(gaps, n - 1), ReadsAmong(w, gaps, n - 1), gaps[n - 1]);
      MoreReadEvents(before, gaps, n);
    }
  }

  lemma AfterLook(r: Recorder, s: Schedule)
    requires Ready(r)
    ensures After(r, LookEvents(s)) == Looked(r, s)
  {
    AfterSnoc(r, [], Begin(true, true));
    assert [] + [Begin(true, true)] == [Begin(true, true)];
    AfterStores(r, [Begin(true, true)], s.early);
    AfterSnoc(r, [Begin(true, true)] + StoreEvents(s.early), Oldest);
  }

  lemma AfterRest(r: Recorder, before: seq<Event>, q: Recorder, late: seq<Sample>)
    requires Shaped(r) && After(r, before) == q && q.writer.Writing? && q.writer.offset == q.writer.localCount
    ensures After(r, before + StoreEvents(late) + [Close(true)]) == CloseStep(Stores(q, late), true)
  {
    AfterStores(r, before, late);
    AfterSnoc(r, before + StoreEvents(late), Close(true));
  }

  /** A flush with stores in between is a run of the recorder. */
  lemma ScheduleIsARun(r: Recorder, s: Schedule)
    requires Ready(r) && |s.gaps| == r.count
    ensures After(r, Events(s)) == FlushAmong(r, s)
  {
    AfterLook(r, s);
    AfterReads(r, LookEvents(s), Looked(r, s), s.gaps, r.count);
    AfterRest(r, LookEvents(s) + ReadEvents(s.gaps, r.count), ReadsAmong(Looked(r, s), s.gaps, r.count), s.late);
  }
}
