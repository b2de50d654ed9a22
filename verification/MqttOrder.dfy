/**
 Ordering and pacing of the command queue over whole runs: one slot per name, distinct sequence
 numbers, oldest first, at least seven seconds between sends, and a queue that only drains.
 */
module MqttOrder {
  import opened Words
  import opened HeatpumpFrames
  import opened MqttCommands
  import opened MqttRuns

  // ----- one slot per name, distinct sequence numbers

  predicate NamesUnique(slots: seq<Pending>) {
    forall i, j :: 0 <= i < j < |slots| && slots[i].active && slots[j].active ==> slots[i].name != slots[j].name
  }

  predicate Numbered(slots: seq<Pending>, issued: nat) {
    && (forall i :: 0 <= i < |slots| && slots[i].active ==> 0 < slots[i].sequence <= issued)
    && (forall i, j :: 0 <= i < j < |slots| && slots[i].active && slots[j].active ==>
          slots[i].sequence != slots[j].sequence)
  }

  /** The sequence counter wraps after 2^32 numbers; the order claims hold until then. */
  predicate TableInv(g: Run) {
    && NamesUnique(g.queue.slots)
    && g.queue.sequence == Wrap32(g.issued)
    && (g.issued < TWO_32 ==> Numbered(g.queue.slots, g.issued))
  }

  /** A placed request takes the slot of its name, or a free one while no slot has its name. */
  lemma PlaceKeepsNames(slots: seq<Pending>, k: nat, p: Pending)
    requires NamesUnique(slots) && p.active && Place(slots, p) == Queued(k) && k < |slots|
    ensures NamesUnique(slots[k := p])
  {
    var named := FirstNamed(slots, p.name, 0);
    assert named < |slots| ==> named == k;
  }

  lemma PlaceKeepsNumbers(slots: seq<Pending>, k: nat, p: Pending, issued: nat)
    requires k < |slots| && Numbered(slots, issued) && p.sequence == issued + 1
    ensures Numbered(slots[k := p], issued + 1)
  {
  }

  lemma PlaceKeepsTable(g: Run, o: Outcome, p: Pending)
    requires Shaped(g) && TableInv(g) && p.active && o == Place(g.queue.slots, p) && o.Queued?
    ensures
      var n := Wrap32(g.queue.sequence + 1);
      var slots := g.queue.slots[o.slot := p.(sequence := n)];
      NamesUnique(slots) && n == Wrap32(g.issued + 1) && (g.issued + 1 < TWO_32 ==> Numbered(slots, g.issued + 1))
  {
    var q := p.(sequence := Wrap32(g.queue.sequence + 1));
    WrapOfSum(g.issued, 1);
    PlaceKeepsNames(g.queue.slots, o.slot, p);
    SameNamesUnique(g.queue.slots[o.slot := p], g.queue.slots[o.slot := q]);
    if g.issued + 1 < TWO_32 {
      WrapOfSmall(g.issued + 1);
      PlaceKeepsNumbers(g.queue.slots, o.slot, q, g.issued);
    }
  }

  /** Names, numbers and activity decide. */
  lemma SameNamesUnique(a: seq<Pending>, b: seq<Pending>)
    requires NamesUnique(a) && |a| == |b|
    requires forall i :: 0 <= i < |a| ==> a[i].name == b[i].name && (b[i].active ==> a[i].active)
    ensures NamesUnique(b)
  {
  }

  lemma SameNumbers(a: seq<Pending>, b: seq<Pending>, issued: nat)
    requires Numbered(a, issued) && |a| == |b|
    requires forall i :: 0 <= i < |a| ==> a[i].sequence == b[i].sequence && (b[i].active ==> a[i].active)
    ensures Numbered(b, issued)
  {
  }

  lemma {:induction false} RetryCountGrows(slots: seq<Pending>, i: nat, j: nat, now: uint32)
    requires i < j <= |slots|
    ensures RetryCount(slots, i, now) + (if WillRetry(slots[i], now) then 1 else 0) <= RetryCount(slots, j, now)
    decreases j
  {
    if i + 1 < j {
      RetryCountGrows(slots, i, j - 1, now);
    }
  }

  /** Before the counter wraps, a retried slot gets a number above all issued so far; others keep theirs. */
  lemma TimeoutNumber(slots: seq<Pending>, i: nat, now: uint32, issued: nat)
    requires i < |slots| && issued + RetryCount(slots, |slots|, now) < TWO_32
    ensures
      var p := TimedOutSlot(slots, i, now, Wrap32(issued));
      && p.name == slots[i].name
      && (p.active ==> slots[i].active)
      && p.sequence == (if WillRetry(slots[i], now) then issued + RetryCount(slots, i, now) + 1 else slots[i].sequence)
      && (WillRetry(slots[i], now) ==> p.sequence <= issued + RetryCount(slots, |slots|, now))
  {
    RetryCountGrows(slots, i, |slots|, now);
    WrapOfSmall(issued);
    if WillRetry(slots[i], now) {
      WrapOfSmall(issued + RetryCount(slots, i, now) + 1);
    }
  }

  lemma TimeoutsKeepNumbers(slots: seq<Pending>, now: uint32, issued: nat)
    requires Numbered(slots, issued) && issued + RetryCount(slots, |slots|, now) < TWO_32
    ensures Numbered(TimeoutPass(slots, now, Wrap32(issued)), issued + RetryCount(slots, |slots|, now))
  {
    var t := TimeoutPass(slots, now, Wrap32(issued));
    forall i | 0 <= i < |slots| && t[i].active ensures 0 < t[i].sequence <= issued + RetryCount(slots, |slots|, now) {
      TimeoutNumber(slots, i, now, issued);
    }
    forall i, j | 0 <= i < j < |slots| && t[i].active && t[j].active ensures t[i].sequence != t[j].sequence {
      TimeoutNumber(slots, i, now, issued);
      TimeoutNumber(slots, j, now, issued);
      RetryCountGrows(slots, i, j, now);
    }
  }

  lemma TimeoutsKeepNames(slots: seq<Pending>, now: uint32, sequence: uint32)
    requires NamesUnique(slots)
    ensures NamesUnique(TimeoutPass(slots, now, sequence))
  {
    var t := TimeoutPass(slots, now, sequence);
    assert forall i :: 0 <= i < |slots| ==> t[i] == TimedOutSlot(slots, i, now, sequence);
  }

  lemma TimeoutsKeepTable(g: Run, now: uint32)
    requires Shaped(g) && TableInv(g)
    ensures
      var t := AfterTimeouts(g.queue, now);
      var issued := g.issued + RetryCount(g.queue.slots, QUEUE_SIZE, now);
      NamesUnique(t.slots) && t.sequence == Wrap32(issued) && (issued < TWO_32 ==> Numbered(t.slots, issued))
  {
    WrapOfSum(g.issued, RetryCount(g.queue.slots, QUEUE_SIZE, now));
    TimeoutsKeepNames(g.queue.slots, now, g.queue.sequence);
    if g.issued + RetryCount(g.queue.slots, QUEUE_SIZE, now) < TWO_32 {
      TimeoutsKeepNumbers(g.queue.slots, now, g.issued);
    }
  }

  lemma UpdateKeepsTable(slots: seq<Pending>, i: nat, p: Pending, issued: nat)
    requires i < |slots| && NamesUnique(slots)
    requires p.name == slots[i].name && p.sequence == slots[i].sequence && (p.active ==> slots[i].active)
    ensures NamesUnique(slots[i := p])
    ensures Numbered(slots, issued) ==> Numbered(slots[i := p], issued)
  {
  }

  lemma LoopKeepsTable(g: Run, sendOk: bool)
    requires Shaped(g) && TableInv(g)
    ensures TableInv(Step(g, LoopRuns(sendOk)))
  {
    var now := Wrap32(g.clock);
    TimeoutsKeepTable(g, now);
    var t, h, i := AfterTimeouts(g.queue, now), Step(g, LoopRuns(sendOk)), Attempt(g.queue, now);
    assert h.issued == g.issued + RetryCount(g.queue.slots, QUEUE_SIZE, now);
    if i >= 0 {
      UpdateKeepsTable(t.slots, i, h.queue.slots[i], h.issued);
      assert h.queue.slots == t.slots[i := h.queue.slots[i]];
    }
  }

  lemma ConfirmKeepsTable(g: Run, frame: Frame)
    requires Shaped(g) && TableInv(g)
    ensures TableInv(Step(g, FrameArrives(frame)))
  {
    var slots, after := g.queue.slots, ConfirmAll(g.queue.slots, frame);
    forall i | 0 <= i < QUEUE_SIZE
      ensures after[i].name == slots[i].name && after[i].sequence == slots[i].sequence
      ensures after[i].active ==> slots[i].active
    {
      assert after[i] == ConfirmSlot(slots[i], frame);
    }
    SameNamesUnique(slots, after);
    if g.issued < TWO_32 {
      SameNumbers(slots, after, g.issued);
    }
  }

  lemma RequestKeepsTable(g: Run, r: Request, data: Option<Frame>, dataAt: uint32, waitTime: nat)
    requires Shaped(g) && TableInv(g)
    ensures TableInv(Step(g, RequestArrives(r, data, dataAt, waitTime)))
  {
    var now := Wrap32(g.clock);
    var o := QueueOutcome(g.queue, r, data, dataAt, waitTime, now);
    if o.Queued? {
      PlaceKeepsTable(g, o, Prepared(r, data, dataAt, waitTime, now));
    }
  }

  lemma StepKeepsTable(g: Run, e: Event)
    requires Shaped(g) && TableInv(g)
    ensures TableInv(Step(g, e))
  {
    match e
    case Tick(ms) =>
    case RequestArrives(r, data, dataAt, waitTime) => RequestKeepsTable(g, r, data, dataAt, waitTime);
    case FrameArrives(frame) => ConfirmKeepsTable(g, frame);
    case LoopRuns(sendOk) => LoopKeepsTable(g, sendOk);
  }

  // ----- pacing

  /** Successful sends are at least GAP_MS apart in true time, and the wrapped clock remembers the last one. */
  predicate PacedInv(g: Run) {
    && (forall k :: 0 <= k < |g.sendTimes| - 1 ==> g.sendTimes[k] + GAP_MS <= g.sendTimes[k + 1])
    && (g.queue.commandWasSent <==> g.sendTimes != [])
    && (g.sendTimes != [] ==>
          var last := g.sendTimes[|g.sendTimes| - 1];
          last <= g.clock && g.queue.lastSendAt == Wrap32(last))
  }

  lemma LoopKeepsPace(g: Run, sendOk: bool)
    requires Shaped(g) && PacedInv(g)
    ensures PacedInv(Step(g, LoopRuns(sendOk)))
  {
    if g.sendTimes != [] {
      ElapsedIsAtMostTrueTime(g.clock, g.sendTimes[|g.sendTimes| - 1]);
    }
  }

  lemma StepKeepsPace(g: Run, e: Event)
    requires Shaped(g) && PacedInv(g)
    ensures PacedInv(Step(g, e))
  {
    if e.LoopRuns? {
      LoopKeepsPace(g, e.sendOk);
    }
  }

  /** One slot per name, distinct numbers and the send gap, at every reachable state. */
  lemma {:induction false} TableOverRuns(clock: nat, events: seq<Event>)
    ensures TableInv(After(Boot(clock), events))
    ensures PacedInv(After(Boot(clock), events))
    decreases |events|
  {
    if events != [] {
      var g := After(Boot(clock), events[..|events| - 1]);
      TableOverRuns(clock, events[..|events| - 1]);
      StepKeepsTable(g, events[|events| - 1]);
      StepKeepsPace(g, events[|events| - 1]);
    }
  }

  // ----- oldest first

  /** The waiting slots with a smaller sequence number than slot i. */
  function AheadOf(slots: seq<Pending>, i: nat): set<int>
    requires i < |slots|
  {
    set j | 0 <= j < |slots| && slots[j].active && slots[j].waitingToSend && slots[j].sequence < slots[i].sequence
  }

  /** Slot i waits, and this event neither replaces, renumbers nor attempts it; if the loop runs, it is due. */
  predicate WaitsThrough(g: Run, e: Event, i: nat)
    requires Shaped(g) && i < QUEUE_SIZE
  {
    var p, q := g.queue.slots[i], Step(g, e).queue.slots[i];
    && p.active && p.waitingToSend && q.active && q.waitingToSend && q.sequence == p.sequence
    && (e.LoopRuns? ==> Due(p, Wrap32(g.clock)) && Attempt(g.queue, Wrap32(g.clock)) != i)
  }

  function SendsOf(g: Run, e: Event): nat
    requires Shaped(g)
  {
    |Step(g, e).sendTimes| - |g.sendTimes|
  }

  lemma SubsetIsSmaller(a: set<int>, b: set<int>)
    requires a <= b
    ensures |a| <= |b|
  {
    assert b == a + (b - a);
  }

  lemma TimeoutsKeepLine(slots: seq<Pending>, now: uint32, issued: nat, i: nat)
    requires i < |slots| && Numbered(slots, issued) && issued + RetryCount(slots, |slots|, now) < TWO_32
    requires slots[i].active && slots[i].waitingToSend
    ensures AheadOf(TimeoutPass(slots, now, Wrap32(issued)), i) <= AheadOf(slots, i)
  {
    var t := TimeoutPass(slots, now, Wrap32(issued));
    assert t[i] == TimedOutSlot(slots, i, now, Wrap32(issued)) == slots[i];
    forall j | j in AheadOf(t, i) ensures j in AheadOf(slots, i) {
      TimeoutNumber(slots, j, now, issued);
    }
  }

  lemma LoopShortensLine(g: Run, sendOk: bool, i: nat)
    requires Shaped(g) && TableInv(g) && i < QUEUE_SIZE && WaitsThrough(g, LoopRuns(sendOk), i)
    requires Step(g, LoopRuns(sendOk)).issued < TWO_32
    ensures
      var h := Step(g, LoopRuns(sendOk));
      |AheadOf(h.queue.slots, i)| + SendsOf(g, LoopRuns(sendOk)) <= |AheadOf(g.queue.slots, i)|
  {
    var now := Wrap32(g.clock);
    var after := Step(g, LoopRuns(sendOk)).queue.slots;
    var t := AfterTimeouts(g.queue, now);
    TimeoutsKeepLine(g.queue.slots, now, g.issued, i);
    assert t.slots[i] == TimedOutSlot(g.queue.slots, i, now, g.queue.sequence);
    TimeoutsKeepTable(g, now);
    var line := AheadOf(t.slots, i);
    SubsetIsSmaller(line, AheadOf(g.queue.slots, i));
    var next := Attempt(g.queue, now);
    if next >= 0 && sendOk {
      assert t.slots[next].sequence != t.slots[i].sequence;
      assert next in line;
      assert AheadOf(after, i) <= line - {next};
      SubsetIsSmaller(AheadOf(after, i), line - {next});
    } else {
      assert AheadOf(after, i) <= line;
      SubsetIsSmaller(AheadOf(after, i), line);
    }
  }

  lemma FrameKeepsLine(slots: seq<Pending>, frame: Frame, i: nat)
    requires i < |slots|
    ensures AheadOf(ConfirmAll(slots, frame), i) <= AheadOf(slots, i)
  {
    var after := ConfirmAll(slots, frame);
    assert after[i].sequence == slots[i].sequence;
    forall j | j in AheadOf(after, i) ensures j in AheadOf(slots, i) {
      assert after[j] == ConfirmSlot(slots[j], frame);
    }
  }

  /** A new request gets the highest number, so it goes behind all others. */
  lemma RequestKeepsLine(g: Run, e: Event, i: nat)
    requires Shaped(g) && TableInv(g) && i < QUEUE_SIZE && e.RequestArrives? && WaitsThrough(g, e, i)
    requires Step(g, e).issued < TWO_32
    ensures AheadOf(Step(g, e).queue.slots, i) <= AheadOf(g.queue.slots, i)
  {
    var h := Step(g, e);
    StepKeepsTable(g, e);
    var o := QueueOutcome(g.queue, e.request, e.data, e.dataAt, e.waitTime, Wrap32(g.clock));
    if o.Queued? {
      assert h.queue.slots[o.slot].sequence == h.issued > g.issued >= h.queue.slots[i].sequence;
    }
  }

  lemma StepShortensLine(g: Run, e: Event, i: nat)
    requires Shaped(g) && TableInv(g) && i < QUEUE_SIZE && WaitsThrough(g, e, i)
    requires Step(g, e).issued < TWO_32
    ensures |AheadOf(Step(g, e).queue.slots, i)| + SendsOf(g, e) <= |AheadOf(g.queue.slots, i)|
  {
    match e
    case LoopRuns(sendOk) => LoopShortensLine(g, sendOk, i);
    case FrameArrives(frame) =>
      FrameKeepsLine(g.queue.slots, frame, i);
      SubsetIsSmaller(AheadOf(ConfirmAll(g.queue.slots, frame), i), AheadOf(g.queue.slots, i));
    case RequestArrives(r, data, dataAt, waitTime) =>
      RequestKeepsLine(g, e, i);
      SubsetIsSmaller(AheadOf(Step(g, e).queue.slots, i), AheadOf(g.queue.slots, i));
    case Tick(ms) =>
  }

  /** Slot i waits through every event of the run from g. */
  predicate WaitsAllAlong(g: Run, events: seq<Event>, i: nat)
    requires Shaped(g) && i < QUEUE_SIZE
  {
    forall k :: 0 <= k < |events| ==> WaitsThrough(After(g, events[..k]), events[k], i)
  }

  /**
   While a due request waits for its turn, each successful send of another request uses up one place
   of the line ahead of it; so at most nine other requests are sent before its own attempt.
   */
  lemma {:induction false} AtMostNineSendsWhileWaiting(g: Run, events: seq<Event>, i: nat)
    requires Shaped(g) && TableInv(g) && i < QUEUE_SIZE && WaitsAllAlong(g, events, i)
    requires After(g, events).issued < TWO_32
    ensures TableInv(After(g, events))
    ensures |After(g, events).sendTimes| + |AheadOf(After(g, events).queue.slots, i)| <=
            |g.sendTimes| + |AheadOf(g.queue.slots, i)|
    ensures |After(g, events).sendTimes| - |g.sendTimes| <= 9
    decreases |events|
  {
    if events != [] {
      var earlier := events[..|events| - 1];
      forall k | 0 <= k < |earlier| ensures WaitsThrough(After(g, earlier[..k]), earlier[k], i) {
        assert earlier[..k] == events[..k];
        assert WaitsThrough(After(g, events[..k]), events[k], i);
      }
      var h := After(g, earlier);
      assert WaitsThrough(After(g, events[..|events| - 1]), events[|events| - 1], i);
      AtMostNineSendsWhileWaiting(g, earlier, i);
      StepShortensLine(h, events[|events| - 1], i);
      StepKeepsTable(h, events[|events| - 1]);
    }
    NineOthers(g.queue.slots, i);
  }

  lemma NineOthers(slots: seq<Pending>, i: nat)
    requires i < |slots| == QUEUE_SIZE
    ensures |AheadOf(slots, i)| <= 9
  {
    var others := {0, 1, 2, 3, 4, 5, 6, 7, 8, 9} - {i as int};
    assert |others| == 9;
    SubsetIsSmaller(AheadOf(slots, i), others);
  }
}
