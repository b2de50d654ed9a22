/**
 Whole runs of the command queue.  A run carries, next to the queue, the true unbounded clock, the
 number of sequence numbers issued since boot, the successful sends of the request in each slot, and
 the true times of all successful sends.
 */
module MqttRuns {
  import opened Words
  import opened HeatpumpFrames
  import opened MqttCommands

  datatype Run = Run(queue: QueueState, clock: nat, issued: nat, sends: seq<nat>, sendTimes: seq<nat>)

  datatype Event =
    | Tick(ms: nat)
    | RequestArrives(request: Request, data: Option<Frame>, dataAt: uint32, waitTime: nat)
    | FrameArrives(frame: Frame)
    | LoopRuns(sendOk: bool)

  predicate Shaped(g: Run) {
    |g.queue.slots| == QUEUE_SIZE && |g.sends| == QUEUE_SIZE
  }

  function Boot(clock: nat): (g: Run)
    ensures Shaped(g)
  {
    Run(QueueState(seq(QUEUE_SIZE, _ => EmptySlot()), 0, 0, false), clock, 0, seq(QUEUE_SIZE, _ => 0), [])
  }

  function Step(g: Run, e: Event): (h: Run)
    requires Shaped(g)
    ensures Shaped(h)
  {
    var now := Wrap32(g.clock);
    match e
    case Tick(ms) => g.(clock := g.clock + ms)
    case RequestArrives(r, data, dataAt, waitTime) =>
      var o := QueueOutcome(g.queue, r, data, dataAt, waitTime, now);
      if !o.Queued? then g
      else
        g.(queue := QueueStep(g.queue, r, data, dataAt, waitTime, now), issued := g.issued + 1,
           sends := g.sends[o.slot := 0])
    case FrameArrives(frame) => g.(queue := ConfirmStep(g.queue, frame))
    case LoopRuns(sendOk) =>
      var i := Attempt(g.queue, now);
      var h := g.(queue := ProcessStep(g.queue, now, sendOk),
                  issued := g.issued + RetryCount(g.queue.slots, QUEUE_SIZE, now));
      if i == -1 || !sendOk then h
      else h.(sends := g.sends[i := g.sends[i] + 1], sendTimes := g.sendTimes + [g.clock])
  }

  function After(g: Run, events: seq<Event>): (h: Run)
    requires Shaped(g)
    ensures Shaped(h)
    decreases |events|
  {
    if events == [] then g else Step(After(g, events[..|events| - 1]), events[|events| - 1])
  }

  // ----- one slot

  /** Expectation e and its command byte: cleared exactly when confirmed, else still the wanted value. */
  predicate ByteTracks(e: Expectation, bytes: seq<byte>) {
    && e.commandByte < |bytes| && IsCurveByte(e.commandByte) && e.topic == CurveTopic(e.commandByte)
    && (e.confirmed <==> bytes[e.commandByte] == 0)
    && (!e.confirmed ==> bytes[e.commandByte] == e.desired + 128)
  }

  predicate BytesTrack(es: seq<Expectation>, bytes: seq<byte>) {
    && (forall i :: 0 <= i < |es| ==> ByteTracks(es[i], bytes))
    && (forall i, j :: 0 <= i < j < |es| ==> es[i].commandByte < es[j].commandByte)
  }

  predicate CurveBytesTrack(p: Pending) {
    BytesTrack(p.expectations, p.command)
  }

  /** What every slot keeps, given how often its request has been sent. */
  predicate SlotInv(p: Pending, sends: nat) {
    && p.retries <= MAX_RETRIES
    && sends <= MAX_RETRIES + 1
    && |p.expectations| <= MAX_EXPECTATIONS
    && (p.name.SetCurves? ==> CurveBytesTrack(p))
    && (p.active ==>
          && sends == p.retries + (if p.waitingToSend then 0 else 1)
          && (p.wasSent <==> sends > 0)
          && (!p.waitingToSend ==> p.expectations != [])
          && (p.expectations != [] ==> UnconfirmedCount(p.expectations) > 0))
  }

  function Measure(p: Pending): int {
    2 * (MAX_RETRIES - p.retries) + if p.waitingToSend then 1 else 0
  }

  lemma {:induction false} CurveExpectationsTrack(bytes: seq<byte>)
    ensures BytesTrack(CurveExpectations(bytes), bytes)
  {
    if bytes != [] {
      var earlier := bytes[..|bytes| - 1];
      CurveExpectationsTrack(earlier);
      var es := CurveExpectations(earlier);
      assert forall i :: 0 <= i < |es| ==> ByteTracks(es[i], earlier) && ByteTracks(es[i], bytes);
    }
  }

  lemma IncomingInv(r: Request, now: uint32)
    ensures r.name.SetCurves? ==> CurveBytesTrack(Incoming(r, now))
  {
    CurveExpectationsTrack(r.encoded);
  }

  /** A frame confirms an expectation exactly when it clears the byte, whatever the frame says. */
  lemma ApplyKnownTracks(p: Pending, frame: Frame)
    requires CurveBytesTrack(p)
    ensures CurveBytesTrack(ApplyKnown(p, frame))
  {
    var q := ApplyKnown(p, frame);
    forall i | 0 <= i < |q.expectations|
      ensures ByteTracks(q.expectations[i], q.command)
    {
      var e := p.expectations[i];
      assert ByteTracks(e, p.command);
      if frame.bytes[0] == 0x71 {
        assert q.expectations[i] == Mark(p.name, e, frame);
        if ClearsByte(p.name, p.expectations, frame, e.commandByte) {
          var k :| 0 <= k < |p.expectations| && p.expectations[k].commandByte == e.commandByte &&
                   NewlyMet(p.name, p.expectations[k], frame);
          assert k == i;
        }
      }
    }
  }

  // ----- each event keeps the slot invariant

  lemma PreparedInv(r: Request, data: Option<Frame>, dataAt: uint32, waitTime: nat, now: uint32, sequence: uint32)
    requires var es := Prepared(r, data, dataAt, waitTime, now).expectations;
      es != [] ==> UnconfirmedCount(es) != 0
    ensures SlotInv(Prepared(r, data, dataAt, waitTime, now).(sequence := sequence), 0)
  {
    IncomingInv(r, now);
    if r.name.SetCurves? && IsFresh(data, dataAt, waitTime, now) {
      ApplyKnownTracks(Incoming(r, now), data.value);
    }
  }

  lemma ConfirmKeeps(p: Pending, sends: nat, frame: Frame)
    requires SlotInv(p, sends)
    ensures SlotInv(ConfirmSlot(p, frame), sends)
  {
    if p.active && p.expectations != [] && p.name.SetCurves? {
      ApplyKnownTracks(p, frame);
    }
  }

  lemma TimeoutKeeps(p: Pending, sends: nat, now: uint32, sequence: uint32)
    requires SlotInv(p, sends)
    ensures SlotInv(AfterTimeout(p, now, sequence), sends)
    ensures TimedOut(p, now) && AfterTimeout(p, now, sequence).active ==>
      Measure(AfterTimeout(p, now, sequence)) == Measure(p) - 1
  {
  }

  lemma SendKeeps(p: Pending, sends: nat, now: uint32)
    requires SlotInv(p, sends) && Due(p, now)
    ensures SlotInv(AfterSend(p, now), sends + 1)
    ensures Measure(AfterSend(p, now)) == Measure(p) - 1
  {
  }

  predicate AllSlots(g: Run)
    requires Shaped(g)
  {
    forall i :: 0 <= i < QUEUE_SIZE ==> SlotInv(g.queue.slots[i], g.sends[i])
  }

  lemma StepKeepsSlots(g: Run, e: Event)
    requires Shaped(g) && AllSlots(g)
    ensures AllSlots(Step(g, e))
  {
    var now := Wrap32(g.clock);
    var h := Step(g, e);
    match e
    case Tick(ms) =>
    case RequestArrives(r, data, dataAt, waitTime) =>
      if h != g {
        PreparedInv(r, data, dataAt, waitTime, now, h.queue.sequence);
      }
    case FrameArrives(frame) =>
      forall i | 0 <= i < QUEUE_SIZE ensures SlotInv(h.queue.slots[i], h.sends[i]) {
        ConfirmKeeps(g.queue.slots[i], g.sends[i], frame);
      }
    case LoopRuns(sendOk) =>
      LoopKeepsSlots(g, sendOk);
  }

  /** What a loop pass makes of one slot and its count of sends. */
  lemma LoopSlot(g: Run, sendOk: bool, i: nat)
    requires Shaped(g) && i < QUEUE_SIZE
    ensures
      var h, now := Step(g, LoopRuns(sendOk)), Wrap32(g.clock);
      var p, attempted := TimedOutSlot(g.queue.slots, i, now, g.queue.sequence), Attempt(g.queue, now) == i;
      && (attempted ==> Due(p, now))
      && h.queue.slots[i] == (if !attempted then p else if sendOk then AfterSend(p, now)
                              else p.(nextSendAt := Wrap32(now + QUEUE_RETRY_MS)))
      && h.sends[i] == g.sends[i] + if attempted && sendOk then 1 else 0
  {
    var now := Wrap32(g.clock);
    assert AfterTimeouts(g.queue, now).slots[i] == TimedOutSlot(g.queue.slots, i, now, g.queue.sequence);
  }

  lemma DelayKeeps(p: Pending, sends: nat, at: uint32)
    requires SlotInv(p, sends)
    ensures SlotInv(p.(nextSendAt := at), sends)
  {
  }

  lemma LoopKeepsSlot(g: Run, sendOk: bool, i: nat)
    requires Shaped(g) && i < QUEUE_SIZE && SlotInv(g.queue.slots[i], g.sends[i])
    ensures var h := Step(g, LoopRuns(sendOk)); SlotInv(h.queue.slots[i], h.sends[i])
  {
    var now := Wrap32(g.clock);
    var p := TimedOutSlot(g.queue.slots, i, now, g.queue.sequence);
    TimeoutKeeps(g.queue.slots[i], g.sends[i], now, Wrap32(g.queue.sequence + RetryCount(g.queue.slots, i, now) + 1));
    LoopSlot(g, sendOk, i);
    if Attempt(g.queue, now) == i {
      if sendOk {
        SendKeeps(p, g.sends[i], now);
      } else {
        DelayKeeps(p, g.sends[i], Wrap32(now + QUEUE_RETRY_MS));
      }
    }
  }

  lemma LoopKeepsSlots(g: Run, sendOk: bool)
    requires Shaped(g) && AllSlots(g)
    ensures AllSlots(Step(g, LoopRuns(sendOk)))
  {
    var h := Step(g, LoopRuns(sendOk));
    forall i | 0 <= i < QUEUE_SIZE ensures SlotInv(h.queue.slots[i], h.sends[i]) {
      LoopKeepsSlot(g, sendOk, i);
    }
  }

  /**
   Over any run, every slot keeps its bounds: at most four successful sends of the request it holds,
   never idle without something to wait for, and SetCurves bytes cleared exactly as confirmed.
   */
  lemma {:induction false} SlotsOverRuns(clock: nat, events: seq<Event>)
    ensures AllSlots(After(Boot(clock), events))
    decreases |events|
  {
    if events != [] {
      SlotsOverRuns(clock, events[..|events| - 1]);
      StepKeepsSlots(After(Boot(clock), events[..|events| - 1]), events[|events| - 1]);
    }
  }
}
