/** What the sample ring retains, and what reaches the SD card, over whole runs. */
module FlushRuns {
  import opened HistorySamples
  import opened Rings
  import opened SampleFlush

  // ----- retention

  function Newest(samples: seq<Sample>): seq<Sample> {
    if |samples| <= MAX_SAMPLES then samples else samples[|samples| - MAX_SAMPLES..]
  }

  lemma StoreInFreeSlot(r: Recorder, sample: Sample)
    requires Shaped(r) && r.count < MAX_SAMPLES
    ensures Contents(StoreStep(r, sample)) == Contents(r) + [sample.(sequence := r.sequence + 1)]
  {
    Push(r.buf, r.start, r.count, sample.(sequence := r.sequence + 1));
  }

  lemma StoreOverOldest(r: Recorder, sample: Sample)
    requires Shaped(r) && r.count == MAX_SAMPLES
    ensures StoreStep(r, sample).buf == r.buf[r.start := sample.(sequence := r.sequence + 1)]
    ensures Contents(StoreStep(r, sample)) == Contents(r)[1..] + [sample.(sequence := r.sequence + 1)]
  {
    Overwrite(r.buf, r.start, sample.(sequence := r.sequence + 1));
  }

  /** A store appends; only a full ring drops its oldest sample. */
  lemma StoreAppends(r: Recorder, sample: Sample)
    requires Shaped(r)
    ensures Contents(StoreStep(r, sample)) == Newest(Contents(r) + [sample.(sequence := r.sequence + 1)])
  {
    var s := sample.(sequence := r.sequence + 1);
    if r.count < MAX_SAMPLES {
      StoreInFreeSlot(r, sample);
    } else {
      StoreOverOldest(r, sample);
      assert (Contents(r) + [s])[1..] == Contents(r)[1..] + [s];
    }
  }

  /** The ring holds the newest samples, numbered consecutively up to the current number. */
  ghost predicate Retains(r: Recorder)
    requires Shaped(r)
  {
    && r.count <= r.sequence
    && (r.count < MAX_SAMPLES ==> r.start == 0)
    && forall k :: 0 <= k < r.count ==> Contents(r)[k].sequence == r.sequence - r.count + 1 + k
  }

  lemma StoreRetains(r: Recorder, sample: Sample)
    requires Shaped(r) && Retains(r)
    ensures Retains(StoreStep(r, sample))
  {
    if r.count < MAX_SAMPLES {
      StoreInFreeSlot(r, sample);
    } else {
      StoreOverOldest(r, sample);
    }
  }

  function Blank(buf: seq<Sample>, active: bool): Recorder {
    Recorder(buf, 0, 0, 0, 0, active, Idle, [])
  }

  function After(r: Recorder, events: seq<Event>): (after: Recorder)
    requires Shaped(r)
    ensures Shaped(after)
    decreases |events|
  {
    if events == [] then r else Step(After(r, events[..|events| - 1]), events[|events| - 1])
  }

  /** The stored samples, numbered, after one more event. */
  function WithStored(all: seq<Sample>, e: Event): seq<Sample> {
    if e.Store? then all + [e.sample.(sequence := |all| + 1)] else all
  }

  /** The samples a run stores, numbered from 1. */
  function Stored(events: seq<Event>): seq<Sample> {
    if events == [] then [] else WithStored(Stored(events[..|events| - 1]), events[|events| - 1])
  }

  /** The ring holds exactly the newest of all stored samples. */
  ghost predicate HoldsNewest(r: Recorder, all: seq<Sample>) {
    Shaped(r) && Retains(r) && r.sequence == |all| && Contents(r) == Newest(all)
  }

  lemma SameRing(r: Recorder, after: Recorder)
    requires Shaped(r) && Shaped(after)
    requires after.buf == r.buf && after.start == r.start && after.count == r.count && after.sequence == r.sequence
    ensures Contents(after) == Contents(r)
    ensures Retains(r) <==> Retains(after)
  {
  }

  lemma StoreHoldsNewest(r: Recorder, all: seq<Sample>, sample: Sample)
    requires HoldsNewest(r, all)
    ensures HoldsNewest(StoreStep(r, sample), all + [sample.(sequence := |all| + 1)])
  {
    StoreRetains(r, sample);
    StoreAppends(r, sample);
    NewestOfMore(all, sample.(sequence := r.sequence + 1));
  }

  lemma StepHoldsNewest(r: Recorder, all: seq<Sample>, e: Event)
    requires HoldsNewest(r, all)
    ensures HoldsNewest(Step(r, e), WithStored(all, e))
  {
    if e.Store? {
      StoreHoldsNewest(r, all, e.sample);
    } else {
      SameRing(r, Step(r, e));
    }
  }

  /** After any run of a new ring: exactly the last 1440 stored samples, in order, with consecutive numbers. */
  lemma {:induction false} RingHoldsTheNewest(buf: seq<Sample>, active: bool, events: seq<Event>)
    requires |buf| == MAX_SAMPLES
    ensures HoldsNewest(After(Blank(buf, active), events), Stored(events))
  {
    if events != [] {
      RingHoldsTheNewest(buf, active, events[..|events| - 1]);
      StepHoldsNewest(After(Blank(buf, active), events[..|events| - 1]), Stored(events[..|events| - 1]),
                      events[|events| - 1]);
    }
  }

  lemma NewestOfMore(samples: seq<Sample>, s: Sample)
    ensures Newest(Newest(samples) + [s]) == Newest(samples + [s])
  {
  }

  // ----- nothing is written twice

  /** The number of the sample in a slot that has been used. */
  function Number(r: Recorder, k: nat): nat
    requires Shaped(r) && (r.writer.Opened? || r.writer.Writing?) && k < r.writer.localCount
  {
    r.buf[Slot(r.writer.localStart, k, MAX_SAMPLES)].sequence
  }

  predicate UsedSlot(r: Recorder, i: nat) {
    r.count == MAX_SAMPLES || i < r.count
  }

  /** In a ring that retains the newest samples, used slots hold different samples. */
  lemma UsedSlotsDiffer(r: Recorder, i: nat, j: nat)
    requires Shaped(r) && Retains(r) && i < MAX_SAMPLES && j < MAX_SAMPLES && i != j && UsedSlot(r, i) && UsedSlot(r, j)
    ensures r.buf[i].sequence != r.buf[j].sequence
  {
    var a := if i >= r.start then i - r.start else i + MAX_SAMPLES - r.start;
    var b := if j >= r.start then j - r.start else j + MAX_SAMPLES - r.start;
    assert Slot(r.start, a, MAX_SAMPLES) == i && Slot(r.start, b, MAX_SAMPLES) == j;
    assert Contents(r)[a] == r.buf[i] && Contents(r)[b] == r.buf[j];
  }

  predicate InFile(file: seq<Sample>, number: nat) {
    exists k :: 0 <= k < |file| && file[k].sequence == number
  }

  ghost predicate NoRepeats(file: seq<Sample>) {
    forall i, j :: 0 <= i < j < |file| ==> file[i].sequence != file[j].sequence
  }

  ghost predicate AtMost(file: seq<Sample>, number: nat) {
    forall k :: 0 <= k < |file| ==> file[k].sequence <= number
  }

  /** Slots that the flush has not read yet hold nothing that it would write and that is already in the file. */
  ghost predicate UnreadIsNew(r: Recorder)
    requires Shaped(r) && r.writer.Writing?
  {
    forall k :: r.writer.offset <= k < r.writer.localCount && Number(r, k) > r.flushed ==> !InFile(r.file, Number(r, k))
  }

  ghost predicate WriterInv(r: Recorder) {
    && Shaped(r) && Retains(r) && NoRepeats(r.file) && AtMost(r.file, r.sequence) && r.flushed <= r.sequence
    && (r.writer.Idle? || r.writer.Opened? ==> r.active ==> AtMost(r.file, r.flushed))
    && (r.writer.Opened? || r.writer.Writing? ==>
          r.active && (r.count < MAX_SAMPLES ==> r.writer.localStart == 0 && r.writer.localCount <= r.count))
    && (r.writer.Writing? ==>
          AtMost(r.file, r.writer.newest) && r.flushed <= r.writer.newest <= r.sequence && UnreadIsNew(r))
  }

  lemma SnapshotSlotIsUsed(r: Recorder, k: nat)
    requires WriterInv(r) && (r.writer.Opened? || r.writer.Writing?) && k < r.writer.localCount
    ensures UsedSlot(r, Slot(r.writer.localStart, k, MAX_SAMPLES))
  {
  }

  lemma StoreKeeps(r: Recorder, sample: Sample)
    requires WriterInv(r)
    ensures WriterInv(StoreStep(r, sample))
  {
    StoreRetains(r, sample);
    var after := StoreStep(r, sample);
    if r.writer.Writing? {
      forall k | r.writer.offset <= k < r.writer.localCount && Number(after, k) > r.flushed
        ensures !InFile(r.file, Number(after, k))
      {
        assert Number(after, k) == r.sequence + 1 || Number(after, k) == Number(r, k);
      }
    }
  }

  lemma OldestKeeps(r: Recorder)
    requires WriterInv(r) && r.writer.Opened?
    ensures WriterInv(OldestStep(r))
  {
    var after := OldestStep(r);
    SameRing(r, after);
    SnapshotSlotIsUsed(r, 0);
    NumberIsKnown(r, r.writer.localStart);
    assert AtMost(after.file, after.flushed);
  }

  lemma InLongerFile(file: seq<Sample>, s: Sample, number: nat)
    ensures InFile(file + [s], number) <==> InFile(file, number) || s.sequence == number
  {
    var more := file + [s];
    assert more[|file|] == s;
    forall k | 0 <= k < |file| ensures more[k] == file[k] {
    }
  }

  lemma ReadKeeps(r: Recorder)
    requires WriterInv(r) && r.writer.Writing? && r.writer.offset < r.writer.localCount
    ensures WriterInv(ReadStep(r))
  {
    var w, after := r.writer, ReadStep(r);
    var here := Slot(w.localStart, w.offset, MAX_SAMPLES);
    SameRing(r, after);
    SnapshotSlotIsUsed(r, w.offset);
    NumberIsKnown(r, here);
    assert r.buf[here].sequence > r.flushed ==> !InFile(r.file, Number(r, w.offset));
    forall k | w.offset < k < w.localCount && Number(after, k) > after.flushed
      ensures !InFile(after.file, Number(after, k))
    {
      assert !InFile(r.file, Number(r, k));
      SnapshotSlotIsUsed(r, k);
      SlotsDiffer(w.localStart, w.offset, k, MAX_SAMPLES);
      UsedSlotsDiffer(r, here, Slot(w.localStart, k, MAX_SAMPLES));
      InLongerFile(r.file, r.buf[here], Number(r, k));
    }
  }

  lemma NumberIsKnown(r: Recorder, i: nat)
    requires Shaped(r) && Retains(r) && i < MAX_SAMPLES && UsedSlot(r, i)
    ensures 1 <= r.buf[i].sequence <= r.sequence
  {
    var a := if i >= r.start then i - r.start else i + MAX_SAMPLES - r.start;
    assert Slot(r.start, a, MAX_SAMPLES) == i;
    assert Contents(r)[a] == r.buf[i];
  }

  lemma StepKeeps(r: Recorder, e: Event)
    requires WriterInv(r)
    ensures WriterInv(Step(r, e))
  {
    match e
    case Store(sample) => StoreKeeps(r, sample);
    case Begin(dateKnown, opens) => SameRing(r, Step(r, e));
    case Oldest => if r.writer.Opened? { OldestKeeps(r); }
    case Read => if r.writer.Writing? && r.writer.offset < r.writer.localCount { ReadKeeps(r); }
    case Close(succeeds) => SameRing(r, Step(r, e));
  }

  /** However stores interleave with the writer's steps, no sample is ever written twice in one boot. */
  lemma {:induction false} NeverWrittenTwice(buf: seq<Sample>, active: bool, events: seq<Event>)
    requires |buf| == MAX_SAMPLES
    ensures WriterInv(After(Blank(buf, active), events))
    ensures NoRepeats(After(Blank(buf, active), events).file)
    decreases |events|
  {
    if events != [] {
      NeverWrittenTwice(buf, active, events[..|events| - 1]);
      StepKeeps(After(Blank(buf, active), events[..|events| - 1]), events[|events| - 1]);
    }
  }
}
