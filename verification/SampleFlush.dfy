/** The sample ring in memory and the writer task that appends its samples to the SD card. */
module SampleFlush {
  import opened HistorySamples
  import opened Rings

  const MAX_SAMPLES := 1440

  /** Where the writer task is: it takes the history lock once per step. */
  datatype Writer =
    | Idle
    | Opened(localStart: nat, localCount: nat)
    | Writing(localStart: nat, localCount: nat, offset: nat, newest: nat)

  /** sequence is `sampleSequence`, flushed is `sdFlushedSequence`, file holds the rows written in this boot. */
  datatype Recorder = Recorder(
    buf: seq<Sample>,
    start: nat,
    count: nat,
    sequence: nat,
    flushed: nat,
    active: bool,
    writer: Writer,
    file: seq<Sample>)

  ghost predicate Shaped(r: Recorder) {
    && |r.buf| == MAX_SAMPLES && r.start < MAX_SAMPLES && r.count <= MAX_SAMPLES
    && (r.writer.Opened? || r.writer.Writing? ==>
          r.writer.localStart < MAX_SAMPLES && 0 < r.writer.localCount <= MAX_SAMPLES)
    && (r.writer.Writing? ==> r.writer.offset <= r.writer.localCount)
  }

  /** The retained samples, oldest first. */
  function Contents(r: Recorder): seq<Sample>
    requires Shaped(r)
  {
    Ring(r.buf, r.start, r.count)
  }

  // ----- steps, each under one lock

  datatype Event =
    | Store(sample: Sample)
    | Begin(dateKnown: bool, opens: bool)
    | Oldest
    | Read
    | Close(succeeds: bool)

  /** `storeSample`, with the next sequence number. */
  function StoreStep(r: Recorder, sample: Sample): Recorder
    requires Shaped(r)
  {
    var index := Slot(r.start, r.count, MAX_SAMPLES);
    r.(buf := r.buf[index := sample.(sequence := r.sequence + 1)],
       sequence := r.sequence + 1,
       count := if r.count < MAX_SAMPLES then r.count + 1 else r.count,
       start := if r.count < MAX_SAMPLES then r.start else Slot(r.start, 1, MAX_SAMPLES))
  }

  /** `writeSdSamples` up to the open file; a file that does not open ends logging for this boot. */
  function BeginStep(r: Recorder, dateKnown: bool, opens: bool): Recorder {
    if !r.active || r.count == 0 || !dateKnown then r
    else if !opens then r.(active := false)
    else r.(writer := Opened(r.start, r.count))
  }

  /** A flush begins if there are samples and the date is known; a file that does not open then ends logging. */
  lemma BeginsExactly(r: Recorder, dateKnown: bool, opens: bool)
    requires r.writer.Idle?
    ensures
      var after, wanted := BeginStep(r, dateKnown, opens), r.active && r.count > 0 && dateKnown;
      && (after.writer == if wanted && opens then Opened(r.start, r.count) else Idle)
      && (after.active <==> r.active && (wanted ==> opens)) && after.file == r.file && after.flushed == r.flushed
  {
  }

  /** Samples that were overwritten before the flush count as flushed. */
  function OldestStep(r: Recorder): Recorder
    requires Shaped(r) && r.writer.Opened?
  {
    var oldest: int := r.buf[r.writer.localStart].sequence;
    var flushed := if r.flushed < oldest - 1 then oldest - 1 else r.flushed;
    r.(flushed := flushed, writer := Writing(r.writer.localStart, r.writer.localCount, 0, flushed))
  }

  function ReadStep(r: Recorder): Recorder
    requires Shaped(r) && r.writer.Writing? && r.writer.offset < r.writer.localCount
  {
    var w := r.writer;
    var sample := r.buf[Slot(w.localStart, w.offset, MAX_SAMPLES)];
    if sample.sequence <= r.flushed then r.(writer := w.(offset := w.offset + 1))
    else
      var newest := if sample.sequence > w.newest then sample.sequence else w.newest;
      r.(file := r.file + [sample], writer := w.(offset := w.offset + 1, newest := newest))
  }

  /** A file that does not close ends logging for this boot. */
  function CloseStep(r: Recorder, succeeds: bool): Recorder
    requires r.writer.Writing?
  {
    if succeeds then r.(flushed := r.writer.newest, writer := Idle) else r.(active := false, writer := Idle)
  }

  function Step(r: Recorder, e: Event): (after: Recorder)
    requires Shaped(r)
    ensures Shaped(after)
  {
    match e
    case Store(sample) => StoreStep(r, sample)
    case Begin(dateKnown, opens) => if r.writer.Idle? then BeginStep(r, dateKnown, opens) else r
    case Oldest => if r.writer.Opened? then OldestStep(r) else r
    case Read => if r.writer.Writing? && r.writer.offset < r.writer.localCount then ReadStep(r) else r
    case Close(succeeds) =>
      if r.writer.Writing? && r.writer.offset == r.writer.localCount then CloseStep(r, succeeds) else r
  }

  class HistoryRecorder {
    const samples: array<Sample>
    var sampleStart: nat
    var sampleCount: nat
    var sampleSequence: nat
    var sdFlushedSequence: nat
    var sdActive: bool
    var writer: Writer
    var file: seq<Sample>

    ghost function State(): Recorder
      reads this, samples
    {
      Recorder(samples[..], sampleStart, sampleCount, sampleSequence, sdFlushedSequence, sdActive, writer, file)
    }

    ghost predicate Valid()
      reads this, samples
    {
      Shaped(State())
    }

    constructor (blank: Sample, sdActive: bool)
      ensures Valid() && fresh(samples)
      ensures State() == Recorder(samples[..], 0, 0, 0, 0, sdActive, Idle, [])
    {
      samples := new Sample[MAX_SAMPLES](_ => blank);
      sampleStart, sampleCount, sampleSequence, sdFlushedSequence := 0, 0, 0, 0;
      this.sdActive, writer, file := sdActive, Idle, [];
    }

    method StoreSample(sample: Sample)
      requires Valid()
      modifies this`sampleStart, this`sampleCount, this`sampleSequence, samples
      ensures Valid() && State() == StoreStep(old(State()), sample)
    {
      sampleSequence := sampleSequence + 1;
      var index := (sampleStart + sampleCount) % MAX_SAMPLES;
      if sampleCount < MAX_SAMPLES {
        sampleCount := sampleCount + 1;
      } else {
        sampleStart := (sampleStart + 1) % MAX_SAMPLES;
      }
      samples[index] := sample.(sequence := sampleSequence);
    }

    method BeginFlush(dateKnown: bool, opens: bool)
      requires Valid() && writer.Idle?
      modifies this`writer, this`sdActive
      ensures Valid() && State() == BeginStep(old(State()), dateKnown, opens)
    {
      if !sdActive || sampleCount == 0 || !dateKnown { return; }
      if !opens {
        sdActive := false;
        return;
      }
      writer := Opened(sampleStart, sampleCount);
    }

    method SkipOverwritten()
      requires Valid() && writer.Opened?
      modifies this`writer, this`sdFlushedSequence
      ensures Valid() && State() == OldestStep(old(State()))
    {
      var oldest: int := samples[writer.localStart].sequence;
      if sdFlushedSequence < oldest - 1 {
        sdFlushedSequence := oldest - 1;
      }
      writer := Writing(writer.localStart, writer.localCount, 0, sdFlushedSequence);
    }

    method WriteSlot()
      requires Valid() && writer.Writing? && writer.offset < writer.localCount
      modifies this`writer, this`file
      ensures Valid() && State() == ReadStep(old(State()))
    {
      var sample := samples[(writer.localStart + writer.offset) % MAX_SAMPLES];
      if sample.sequence > sdFlushedSequence {
        file := file + [sample];
        if sample.sequence > writer.newest {
          writer := writer.(newest := sample.sequence);
        }
      }
      writer := writer.(offset := writer.offset + 1);
    }

    method CloseFile(succeeds: bool)
      requires Valid() && writer.Writing? && writer.offset == writer.localCount
      modifies this`writer, this`sdFlushedSequence, this`sdActive
      ensures Valid() && State() == CloseStep(old(State()), succeeds)
    {
      if succeeds {
        sdFlushedSequence := writer.newest;
      } else {
        sdActive := false;
      }
      writer := Idle;
    }

    /** The loop over the slots of one flush. */
    method WriteSlots()
      requires Valid() && writer.Writing? && writer.offset == 0
      modifies this
      ensures Valid() && State() == Reads(old(State()), old(writer).localCount)
    {
      ghost var r := State();
      while writer.offset < writer.localCount
        invariant Valid() && writer.Writing? && r.writer.Writing? && Shaped(r)
        invariant writer.localCount == r.writer.localCount
        invariant State() == Reads(r, writer.offset)
        decreases writer.localCount - writer.offset
      {
        WriteSlot();
      }
    }

    /** `writeSdSamples` without a store in between: one flush from start to end. */
    method WriteSamples(dateKnown: bool, opens: bool, succeeds: bool)
      requires Valid() && writer.Idle?
      modifies this
      ensures Valid()
      ensures State() == Flush(old(State()), dateKnown, opens, succeeds)
    {
      BeginFlush(dateKnown, opens);
      if writer.Idle? { return; }
      SkipOverwritten();
      WriteSlots();
      CloseFile(succeeds);
    }
  }

  /** n reads in a row. */
  function Reads(r: Recorder, n: nat): (after: Recorder)
    requires Shaped(r) && r.writer.Writing? && r.writer.offset + n <= r.writer.localCount
    ensures Shaped(after) && after.writer.Writing? && after.writer.offset == r.writer.offset + n
    ensures after.writer.localCount == r.writer.localCount && after.writer.localStart == r.writer.localStart
    ensures after == r.(file := after.file, writer := after.writer)
  {
    if n == 0 then r else ReadStep(Reads(r, n - 1))
  }

  function Flush(r: Recorder, dateKnown: bool, opens: bool, succeeds: bool): Recorder
    requires Shaped(r) && r.writer.Idle?
  {
    var begun := BeginStep(r, dateKnown, opens);
    if begun.writer.Idle? then begun
    else
      var writing := OldestStep(begun);
      CloseStep(Reads(writing, writing.writer.localCount), succeeds)
  }
}
