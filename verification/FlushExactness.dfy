/** Which retained samples a flush writes when nothing is stored meanwhile. */
module FlushExactness {
  import opened HistorySamples
  import opened Rings
  import opened SampleFlush
  import opened FlushRuns

  /** The samples with a number above `flushed`, in order. */
  function Newer(samples: seq<Sample>, flushed: nat): seq<Sample> {
    if samples == [] then []
    else Newer(samples[..|samples| - 1], flushed) + if samples[|samples| - 1].sequence > flushed
      then [samples[|samples| - 1]] else []
  }

  function Highest(samples: seq<Sample>, floor: nat): (h: nat)
    ensures h >= floor
  {
    if samples == [] then floor
    else
      var h, last := Highest(samples[..|samples| - 1], floor), samples[|samples| - 1].sequence;
      if last > h then last else h
  }

  lemma OneMoreNewer(a: seq<Sample>, x: Sample, flushed: nat, floor: nat)
    ensures Newer(a + [x], flushed) == Newer(a, flushed) + if x.sequence > flushed then [x] else []
    ensures Highest(a + [x], floor) == if x.sequence > Highest(a, floor) then x.sequence else Highest(a, floor)
  {
    assert (a + [x])[..|a|] == a;
  }

  lemma {:induction false} NewerJoins(a: seq<Sample>, b: seq<Sample>, flushed: nat)
    ensures Newer(a + b, flushed) == Newer(a, flushed) + Newer(b, flushed)
  {
    if b == [] {
      assert a + b == a;
    } else {
      NewerJoins(a, b[..|b| - 1], flushed);
      assert (a + b)[..|a + b| - 1] == a + b[..|b| - 1];
    }
  }

  predicate Consecutive(samples: seq<Sample>, first: nat) {
    forall k :: 0 <= k < |samples| ==> samples[k].sequence == first + k
  }

  /** How many of the consecutive samples from `first` on are flushed. */
  function FlushedCount(first: nat, count: nat, flushed: nat): (n: nat)
    ensures n <= count
  {
    if flushed < first then 0 else if flushed - first + 1 < count then flushed - first + 1 else count
  }

  lemma {:induction false} AllNewer(samples: seq<Sample>, flushed: nat)
    requires forall k :: 0 <= k < |samples| ==> samples[k].sequence > flushed
    ensures Newer(samples, flushed) == samples
  {
    if samples != [] {
      AllNewer(samples[..|samples| - 1], flushed);
    }
  }

  lemma {:induction false} NoneNewer(samples: seq<Sample>, flushed: nat)
    requires forall k :: 0 <= k < |samples| ==> samples[k].sequence <= flushed
    ensures Newer(samples, flushed) == []
  {
    if samples != [] {
      NoneNewer(samples[..|samples| - 1], flushed);
    }
  }

  /** Of consecutively numbered samples, the newer ones are a suffix. */
  lemma {:induction false} NewerIsSuffix(samples: seq<Sample>, first: nat, flushed: nat)
    requires Consecutive(samples, first)
    ensures Newer(samples, flushed) == samples[FlushedCount(first, |samples|, flushed)..]
  {
    var skip := FlushedCount(first, |samples|, flushed);
    assert samples == samples[..skip] + samples[skip..];
    NewerJoins(samples[..skip], samples[skip..], flushed);
    NoneNewer(samples[..skip], flushed);
    AllNewer(samples[skip..], flushed);
  }

  lemma {:induction false} LastIsHighest(samples: seq<Sample>, first: nat, floor: nat)
    requires Consecutive(samples, first)
    ensures Highest(samples, floor) == if samples == [] || first + |samples| - 1 <= floor then floor
            else first + |samples| - 1
  {
    if samples != [] {
      LastIsHighest(samples[..|samples| - 1], first, floor);
    }
  }

  // ----- a stretch of reads

  /** What the slots of the flush hold now. */
  function SlotsNow(r: Recorder): seq<Sample>
    requires Shaped(r) && (r.writer.Opened? || r.writer.Writing?)
  {
    Ring(r.buf, r.writer.localStart, r.writer.localCount)
  }

  lemma OneRead(q: Recorder, file: seq<Sample>, before: seq<Sample>, floor: nat)
    requires Shaped(q) && q.writer.Writing? && q.writer.offset < q.writer.localCount && q.flushed <= floor
    requires q.file == file + Newer(before, q.flushed) && q.writer.newest == Highest(before, floor)
    ensures
      var more := before + [SlotsNow(q)[q.writer.offset]];
      && ReadStep(q).file == file + Newer(more, q.flushed)
      && ReadStep(q).writer.newest == Highest(more, floor)
  {
    OneMoreNewer(before, SlotsNow(q)[q.writer.offset], q.flushed, floor);
  }

  /** What the next n reads see. */
  function NextSlots(r: Recorder, n: nat): seq<Sample>
    requires Shaped(r) && r.writer.Writing? && r.writer.offset + n <= r.writer.localCount
  {
    SlotsNow(r)[r.writer.offset..r.writer.offset + n]
  }

  lemma OneMoreSlot(r: Recorder, n: nat)
    requires Shaped(r) && r.writer.Writing? && r.writer.offset + n < r.writer.localCount
    ensures NextSlots(r, n + 1) == NextSlots(r, n) + [SlotsNow(r)[r.writer.offset + n]]
    ensures SlotsNow(Reads(r, n)) == SlotsNow(r)
  {
  }

  /** The next n reads wrote what they saw above the flushed number. */
  predicate WroteNewer(r: Recorder, q: Recorder, seen: seq<Sample>) {
    r.writer.Writing? && q.writer.Writing? &&
    q.file == r.file + Newer(seen, r.flushed) && q.writer.newest == Highest(seen, r.writer.newest)
  }

  lemma OneMoreRead(r: Recorder, q: Recorder, seen: seq<Sample>, x: Sample)
    requires Shaped(q) && q.writer.Writing? && q.writer.offset < q.writer.localCount && q.flushed == r.flushed
    requires x == SlotsNow(q)[q.writer.offset]
    requires WroteNewer(r, q, seen) && r.flushed <= r.writer.newest
    ensures WroteNewer(r, ReadStep(q), seen + [x])
  {
    OneRead(q, r.file, seen, r.writer.newest);
  }

  /** The first n of them. */
  predicate WroteFirst(r: Recorder, n: nat)
    requires Shaped(r) && r.writer.Writing? && r.writer.offset + n <= r.writer.localCount
  {
    WroteNewer(r, Reads(r, n), NextSlots(r, n))
  }

  lemma NextRead(r: Recorder, n: nat)
    requires Shaped(r) && r.writer.Writing? && r.writer.offset + n < r.writer.localCount && r.flushed <= r.writer.newest
    requires WroteFirst(r, n)
    ensures WroteFirst(r, n + 1)
  {
    var q := Reads(r, n);
    var x := SlotsNow(r)[r.writer.offset + n];
    OneMoreSlot(r, n);
    assert x == SlotsNow(q)[q.writer.offset];
    OneMoreRead(r, q, NextSlots(r, n), x);
  }

  lemma {:induction false} ReadsWroteNewer(r: Recorder, n: nat)
    requires Shaped(r) && r.writer.Writing? && r.writer.offset + n <= r.writer.localCount &&
             r.flushed <= r.writer.newest
    ensures WroteFirst(r, n)
  {
    if n > 0 {
      ReadsWroteNewer(r, n - 1);
      NextRead(r, n - 1);
    }
  }

  lemma ReadsWriteNewer(r: Recorder, n: nat)
    requires Shaped(r) && r.writer.Writing? && r.writer.offset + n <= r.writer.localCount &&
             r.flushed <= r.writer.newest
    ensures Reads(r, n).file == r.file + Newer(NextSlots(r, n), r.flushed)
    ensures Reads(r, n).writer.newest == Highest(NextSlots(r, n), r.writer.newest)
  {
    ReadsWroteNewer(r, n);
  }

  lemma AllNextSlots(r: Recorder)
    requires Shaped(r) && r.writer.Writing?
    ensures NextSlots(r, r.writer.localCount - r.writer.offset) == SlotsNow(r)[r.writer.offset..]
    ensures r.writer.offset == 0 ==> NextSlots(r, r.writer.localCount) == SlotsNow(r)
  {
  }

  // ----- flushes

  /** A flush can start and has something to look at. */
  ghost predicate Ready(r: Recorder) {
    WriterInv(r) && r.writer.Idle? && r.active && r.count > 0
  }

  /** The flush reached its slots; nothing retained was overwritten yet. */
  function Writing0(r: Recorder): Recorder
    requires Ready(r)
  {
    OldestStep(BeginStep(r, true, true))
  }

  lemma StartsAtOldest(r: Recorder)
    requires Ready(r)
    ensures
      var w := Writing0(r);
      && Shaped(w) && w.writer.Writing? && w.writer.offset == 0 && w.writer.localCount == r.count &&
         w.writer.localStart == r.start
      && SlotsNow(w) == Contents(r)
      && Consecutive(Contents(r), r.sequence - r.count + 1)
      && w.flushed == w.writer.newest == (if r.flushed < r.sequence - r.count then r.sequence - r.count else r.flushed)
  {
    assert Contents(r)[0] == r.buf[r.start];
  }

  /** Counting evicted samples as flushed hides no retained one, and the last retained sample is the newest. */
  lemma WholeFlush(r: Recorder)
    requires Ready(r)
    ensures Newer(Contents(r), Writing0(r).flushed) == Newer(Contents(r), r.flushed)
    ensures Highest(Contents(r), Writing0(r).flushed) == r.sequence
  {
    StartsAtOldest(r);
    NewerIsSuffix(Contents(r), r.sequence - r.count + 1, r.flushed);
    NewerIsSuffix(Contents(r), r.sequence - r.count + 1, Writing0(r).flushed);
    LastIsHighest(Contents(r), r.sequence - r.count + 1, Writing0(r).flushed);
  }

  /** Without stores in between, a flush writes every retained sample above the flushed number, once and in order. */
  lemma FlushIsExact(r: Recorder)
    requires Ready(r)
    ensures
      var after := Flush(r, true, true, true);
      && after.file == r.file + Newer(Contents(r), r.flushed)
      && after.flushed == r.sequence
      && after.buf == r.buf && after.start == r.start && after.count == r.count
  {
    var w := Writing0(r);
    StartsAtOldest(r);
    WholeFlush(r);
    ReadsWriteNewer(w, r.count);
    AllNextSlots(w);
  }

  /** The writer's steps leave the ring as it is. */
  predicate SameSlots(r: Recorder, after: Recorder) {
    after.buf == r.buf && after.start == r.start && after.count == r.count && after.sequence == r.sequence
  }
}
