/**
 What a slot has lived through since its request arrived: the request, the frames seen, and the true times that decide
 about sending it. By this history, which bytes are sent, when a request is confirmed, and when it is sent again.
 */
module MqttHistory {
  import opened Words
  import opened HeatpumpFrames
  import opened MqttCommands
  import opened MqttReports
  import opened MqttRuns
  import opened MqttOrder
  import opened MqttProgress
  import opened MqttRequests

  /**
   The request taken last into a slot, the frames seen since (a fresh one at its arrival included), the time from which
   it may be sent, and the time of its last successful send.
   */
  datatype Held = Held(request: Request, frames: seq<Frame>, dueAt: nat, sentAt: nat)

  function Taken(e: Event, clock: nat): Held
    requires e.RequestArrives?
  {
    var current := IsFresh(e.data, e.dataAt, e.waitTime, Wrap32(clock));
    Held(e.request, if current then [e.data.value] else [], clock, 0)
  }

  /** A loop pass: sent, put off for a second, put back into the line, or untouched. */
  function AfterLoop(h: Held, g: Run, sendOk: bool, i: nat): Held
    requires Shaped(g) && i < QUEUE_SIZE
  {
    if Attempt(g.queue, Wrap32(g.clock)) == i then
      if sendOk then h.(sentAt := g.clock) else h.(dueAt := g.clock + 1000)
    else if !g.queue.slots[i].waitingToSend then h.(dueAt := g.clock)
    else h
  }

  function Next(h: Option<Held>, g: Run, e: Event, i: nat): Option<Held>
    requires Shaped(g) && i < QUEUE_SIZE
  {
    if TakesSlot(g, e, i) then Some(Taken(e, g.clock))
    else if h.None? then None
    else
      match e
      case FrameArrives(frame) => Some(h.value.(frames := h.value.frames + [frame]))
      case LoopRuns(sendOk) => Some(AfterLoop(h.value, g, sendOk, i))
      case _ => h
  }

  function HeldIn(clock: nat, events: seq<Event>, i: nat): Option<Held>
    requires i < QUEUE_SIZE
    decreases |events|
  {
    if events == [] then None
    else
      var earlier := events[..|events| - 1];
      Next(HeldIn(clock, earlier, i), After(Boot(clock), earlier), events[|events| - 1], i)
  }

  // ----- what the slot knows

  /** Some frame has reported the value. */
  predicate SomeReports(frames: seq<Frame>, name: Name, topic: int, value: int) {
    exists j :: 0 <= j < |frames| && Reports(frames[j], name, topic, value)
  }

  /** The expectation with its flag as the frames say. */
  function Flagged(e: Expectation, name: Name, frames: seq<Frame>): Expectation {
    e.(confirmed := SomeReports(frames, name, e.topic, e.desired))
  }

  predicate FlagsKnown(p: Pending, r: Request, frames: seq<Frame>) {
    && |p.expectations| == |ExpectationsFor(r)|
    && forall k :: 0 <= k < |p.expectations| ==> p.expectations[k] == Flagged(ExpectationsFor(r)[k], r.name, frames)
  }

  /** A confirmed expectation for this byte. */
  predicate ByteConfirmed(p: Pending, b: nat) {
    b > 0 && exists k :: 0 <= k < |p.expectations| && p.expectations[k].commandByte == b && p.expectations[k].confirmed
  }

  predicate BytesKnown(p: Pending, r: Request) {
    forall b :: 0 <= b < COMMAND_SIZE ==> p.command[b] == if ByteConfirmed(p, b) then 0 else r.encoded[b]
  }

  predicate TimesFit(p: Pending, h: Held, clock: nat) {
    && (p.waitingToSend ==> p.nextSendAt == Wrap32(h.dueAt) && h.dueAt <= clock + 1000)
    && (!p.waitingToSend ==> p.sentAt == Wrap32(h.sentAt) && h.sentAt <= clock)
  }

  predicate Answers(p: Pending, h: Held, clock: nat) {
    && h.request.known && 0 < h.request.length <= COMMAND_SIZE
    && p.name == h.request.name && p.length == h.request.length
    && FlagsKnown(p, h.request, h.frames) && BytesKnown(p, h.request) && TimesFit(p, h, clock)
  }

  predicate SlotAnswers(p: Pending, h: Option<Held>, clock: nat) {
    p.active ==> h.Some? && Answers(p, h.value, clock)
  }

  lemma OneMoreFrame(frames: seq<Frame>, frame: Frame, name: Name, topic: int, value: int)
    ensures SomeReports(frames + [frame], name, topic, value) <==>
            SomeReports(frames, name, topic, value) || Reports(frame, name, topic, value)
  {
    var longer := frames + [frame];
    if SomeReports(frames, name, topic, value) {
      var j :| 0 <= j < |frames| && Reports(frames[j], name, topic, value);
      assert longer[j] == frames[j];
    }
    if Reports(frame, name, topic, value) {
      assert longer[|frames|] == frame;
    }
  }

  lemma OneFrame(frame: Frame, name: Name, topic: int, value: int)
    ensures SomeReports([frame], name, topic, value) <==> Reports(frame, name, topic, value)
    ensures !SomeReports([], name, topic, value)
  {
    assert [frame][0] == frame;
  }

  // ----- arrival

  lemma TakenFlags(r: Request, data: Option<Frame>, dataAt: uint32, waitTime: nat, clock: nat)
    ensures
      var now := Wrap32(clock);
      var frames := if IsFresh(data, dataAt, waitTime, now) then [data.value] else [];
      FlagsKnown(Prepared(r, data, dataAt, waitTime, now), r, frames)
  {
    var now := Wrap32(clock);
    var p := Prepared(r, data, dataAt, waitTime, now);
    var frames := if IsFresh(data, dataAt, waitTime, now) then [data.value] else [];
    PreparedWants(r, data, dataAt, waitTime, now);
    forall k | 0 <= k < |p.expectations|
      ensures p.expectations[k] == Flagged(ExpectationsFor(r)[k], r.name, frames)
    {
      PreparedConfirms(r, data, dataAt, waitTime, now, k);
      if IsFresh(data, dataAt, waitTime, now) {
        OneFrame(data.value, r.name, ExpectationsFor(r)[k].topic, ExpectationsFor(r)[k].desired);
      }
    }
  }

  /** A frame clears the bytes of the expectations that it confirms. */
  lemma FrameClears(p: Pending, frame: Frame, r: Request)
    requires p.active && BytesKnown(p, r)
    ensures BytesKnown(ConfirmSlot(p, frame), r)
  {
    var q := ConfirmSlot(p, frame);
    forall b: nat | b < COMMAND_SIZE ensures q.command[b] == if ByteConfirmed(q, b) then 0 else r.encoded[b] {
      ByteAfterFrame(p, frame, b);
    }
  }

  lemma ByteAfterFrame(p: Pending, frame: Frame, b: nat)
    requires p.active && b < COMMAND_SIZE
    ensures
      var q := ConfirmSlot(p, frame);
      var clears := frame.bytes[0] == 0x71 && ClearsByte(p.name, p.expectations, frame, b);
      && (ByteConfirmed(q, b) <==> ByteConfirmed(p, b) || clears)
      && q.command[b] == if clears then 0 else p.command[b]
  {
    var q := ConfirmSlot(p, frame);
    forall k | 0 <= k < |p.expectations|
      ensures |q.expectations| == |p.expectations|
      ensures q.expectations[k].commandByte == p.expectations[k].commandByte
      ensures q.expectations[k].confirmed <==>
              p.expectations[k].confirmed || (frame.bytes[0] == 0x71 && NewlyMet(p.name, p.expectations[k], frame))
    {
      FrameConfirms(p, frame, k);
    }
    if ByteConfirmed(p, b) {
      var k :| 0 <= k < |p.expectations| && p.expectations[k].commandByte == b && p.expectations[k].confirmed;
      assert q.expectations[k].confirmed;
    }
    if frame.bytes[0] == 0x71 && ClearsByte(p.name, p.expectations, frame, b) {
      var k :| 0 <= k < |p.expectations| && p.expectations[k].commandByte == b &&
               NewlyMet(p.name, p.expectations[k], frame);
      assert q.expectations[k].confirmed;
    }
  }

  lemma NewBytes(r: Request, now: uint32)
    ensures BytesKnown(Incoming(r, now), r)
  {
    var p := Incoming(r, now);
    forall k | 0 <= k < |p.expectations| ensures !p.expectations[k].confirmed {
      NewExpectationsAreOpen(r, k);
    }
  }

  lemma TakenBytes(r: Request, data: Option<Frame>, dataAt: uint32, waitTime: nat, now: uint32)
    ensures BytesKnown(Prepared(r, data, dataAt, waitTime, now), r)
  {
    var p := Incoming(r, now);
    NewBytes(r, now);
    if IsFresh(data, dataAt, waitTime, now) {
      FrameClears(p, data.value, r);
      AppliedAlone(p, data.value);
    }
  }

  /** Confirming and striking off differ only in whether the slot is freed. */
  lemma AppliedAlone(p: Pending, frame: Frame)
    requires p.active
    ensures ApplyKnown(p, frame).expectations == ConfirmSlot(p, frame).expectations
    ensures ApplyKnown(p, frame).command == ConfirmSlot(p, frame).command
  {
    if p.expectations == [] {
      var q := ApplyKnown(p, frame);
      assert forall b :: 0 <= b < COMMAND_SIZE ==> q.command[b] == p.command[b];
      assert q.command == p.command;
    }
  }

  lemma TakenAnswers(e: Event, clock: nat, sequence: uint32)
    requires e.RequestArrives? && e.request.known && 0 < e.request.length <= COMMAND_SIZE
    ensures Answers(Prepared(e.request, e.data, e.dataAt, e.waitTime, Wrap32(clock)).(sequence := sequence),
                    Taken(e, clock), clock)
  {
    TakenFlags(e.request, e.data, e.dataAt, e.waitTime, clock);
    TakenBytes(e.request, e.data, e.dataAt, e.waitTime, Wrap32(clock));
    PreparedWants(e.request, e.data, e.dataAt, e.waitTime, Wrap32(clock));
  }

  // ----- every event

  lemma FrameKeepsFlags(p: Pending, frame: Frame, r: Request, frames: seq<Frame>)
    requires p.active && p.name == r.name && FlagsKnown(p, r, frames)
    ensures FlagsKnown(ConfirmSlot(p, frame), r, frames + [frame])
  {
    var q := ConfirmSlot(p, frame);
    forall k | 0 <= k < |p.expectations|
      ensures |q.expectations| == |p.expectations|
      ensures q.expectations[k] == Flagged(ExpectationsFor(r)[k], r.name, frames + [frame])
    {
      FrameConfirms(p, frame, k);
      OneMoreFrame(frames, frame, r.name, p.expectations[k].topic, p.expectations[k].desired);
    }
  }

  lemma FrameKeepsAnswers(p: Pending, frame: Frame, h: Held, clock: nat)
    requires p.active && Answers(p, h, clock)
    ensures Answers(ConfirmSlot(p, frame), h.(frames := h.frames + [frame]), clock)
  {
    FrameKeepsFlags(p, frame, h.request, h.frames);
    FrameClears(p, frame, h.request);
  }

  /** The same request, with other times. */
  lemma SameRequestAnswers(p: Pending, q: Pending, h: Held, k: Held, clock: nat)
    requires Answers(p, h, clock) && TimesFit(q, k, clock)
    requires q.name == p.name && q.length == p.length && q.expectations == p.expectations && q.command == p.command
    requires k.request == h.request && k.frames == h.frames
    ensures Answers(q, k, clock)
  {
    forall b: nat | b < COMMAND_SIZE ensures ByteConfirmed(q, b) <==> ByteConfirmed(p, b) {
    }
  }

  lemma LoopKeepsAnswers(g: Run, sendOk: bool, i: nat, h: Held)
    requires Shaped(g) && i < QUEUE_SIZE && g.queue.slots[i].active && Answers(g.queue.slots[i], h, g.clock)
    ensures
      var q := Step(g, LoopRuns(sendOk)).queue.slots[i];
      q.active ==> Answers(q, AfterLoop(h, g, sendOk, i), g.clock)
  {
    var p, q := g.queue.slots[i], Step(g, LoopRuns(sendOk)).queue.slots[i];
    LoopSlot(g, sendOk, i);
    WrapOfSum(g.clock, 1000);
    if q.active {
      SameRequestAnswers(p, q, h, AfterLoop(h, g, sendOk, i), g.clock);
    }
  }

  lemma ArrivalAnswers(g: Run, e: Event, i: nat)
    requires Shaped(g) && i < QUEUE_SIZE && e.RequestArrives? && TakesSlot(g, e, i)
    ensures Answers(Step(g, e).queue.slots[i], Taken(e, g.clock), g.clock)
  {
    TakenAnswers(e, g.clock, Wrap32(g.queue.sequence + 1));
  }

  lemma EventKeepsAnswers(g: Run, e: Event, i: nat, h: Option<Held>)
    requires Shaped(g) && i < QUEUE_SIZE && SlotAnswers(g.queue.slots[i], h, g.clock)
    ensures SlotAnswers(Step(g, e).queue.slots[i], Next(h, g, e, i), Step(g, e).clock)
  {
    match e
    case Tick(ms) =>
    case RequestArrives(r, data, dataAt, waitTime) =>
      if TakesSlot(g, e, i) {
        ArrivalAnswers(g, e, i);
      }
    case FrameArrives(frame) =>
      if g.queue.slots[i].active {
        FrameKeepsAnswers(g.queue.slots[i], frame, h.value, g.clock);
      }
    case LoopRuns(sendOk) =>
      LoopSlot(g, sendOk, i);
      if g.queue.slots[i].active {
        LoopKeepsAnswers(g, sendOk, i, h.value);
      }
  }

  /** At every reachable state an active slot agrees with its history. */
  lemma {:induction false} AnswersOverRuns(clock: nat, events: seq<Event>, i: nat)
    requires i < QUEUE_SIZE
    ensures
      var g := After(Boot(clock), events);
      SlotAnswers(g.queue.slots[i], HeldIn(clock, events, i), g.clock)
    decreases |events|
  {
    if events != [] {
      var earlier := events[..|events| - 1];
      AnswersOverRuns(clock, earlier, i);
      EventKeepsAnswers(After(Boot(clock), earlier), events[|events| - 1], i, HeldIn(clock, earlier, i));
    }
  }

  // ----- what is sent

  /** Byte b of what is still to be sent: a curve value that some frame has reported is left out. */
  function ByteLeft(h: Held, b: nat): byte
    requires b < COMMAND_SIZE
  {
    var wanted := h.request.encoded[b];
    if h.request.name == SetCurves && IsCurveByte(b) && wanted != 0 &&
       SomeReports(h.frames, SetCurves, CurveTopic(b), wanted as int - 128) then 0
    else wanted
  }

  lemma ConfirmedByteLeft(p: Pending, h: Held, clock: nat, b: nat)
    requires Answers(p, h, clock) && b < COMMAND_SIZE
    ensures p.command[b] == ByteLeft(h, b)
  {
    var r := h.request;
    if r.name == SetCurves {
      if ByteConfirmed(p, b) {
        var k :| 0 <= k < |p.expectations| && p.expectations[k].commandByte == b && p.expectations[k].confirmed;
        ExpectedIsCurveByte(r.encoded, k);
      }
      if IsCurveByte(b) && r.encoded[b] != 0 {
        var k := CurveByteIsExpected(r.encoded, b);
        assert p.expectations[k] == Flagged(ExpectationsFor(r)[k], r.name, h.frames);
      }
    }
  }

  /**
   What is handed to the sender, at any attempt: the length and the bytes of the request that the slot took last,
   without the curve values that some frame has reported since.
   */
  lemma SentBytes(clock: nat, events: seq<Event>, i: nat)
    requires i < QUEUE_SIZE && Attempt(After(Boot(clock), events).queue, Wrap32(After(Boot(clock), events).clock)) == i
    ensures
      var g, h := After(Boot(clock), events), HeldIn(clock, events, i);
      var p := AfterTimeouts(g.queue, Wrap32(g.clock)).slots[i];
      && h.Some? && p.length == h.value.request.length
      && forall b :: 0 <= b < COMMAND_SIZE ==> p.command[b] == ByteLeft(h.value, b)
  {
    var g, h := After(Boot(clock), events), HeldIn(clock, events, i);
    var p := AfterTimeouts(g.queue, Wrap32(g.clock)).slots[i];
    AnswersOverRuns(clock, events, i);
    AttemptIsActive(g, i);
    forall b | 0 <= b < COMMAND_SIZE ensures p.command[b] == ByteLeft(h.value, b) {
      ConfirmedByteLeft(g.queue.slots[i], h.value, g.clock, b);
    }
  }

  lemma AttemptIsActive(g: Run, i: nat)
    requires Shaped(g) && i < QUEUE_SIZE && Attempt(g.queue, Wrap32(g.clock)) == i
    ensures
      var p, now := AfterTimeouts(g.queue, Wrap32(g.clock)).slots[i], Wrap32(g.clock);
      && Due(p, now) && p == TimedOutSlot(g.queue.slots, i, now, g.queue.sequence)
      && g.queue.slots[i].active && p.command == g.queue.slots[i].command && p.length == g.queue.slots[i].length
  {
    LoopSlot(g, true, i);
  }

  // ----- when a frame frees a slot

  /**
   A frame frees a verifiable request if and only if every value it asks for has been reported by this frame or by some
   frame since the request arrived.
   */
  lemma FreedExactly(clock: nat, events: seq<Event>, frame: Frame, i: nat)
    requires i < QUEUE_SIZE && After(Boot(clock), events).queue.slots[i].active
    ensures
      var g, h := After(Boot(clock), events), HeldIn(clock, events, i);
      && h.Some?
      && (!Step(g, FrameArrives(frame)).queue.slots[i].active <==>
          && Verifiable(h.value.request)
          && forall topic, value :: Asks(h.value.request, topic, value) ==>
               SomeReports(h.value.frames + [frame], h.value.request.name, topic, value))
  {
    var g, h := After(Boot(clock), events), HeldIn(clock, events, i);
    AnswersOverRuns(clock, events, i);
    NothingAsked(h.value.request);
    var p := g.queue.slots[i];
    assert Step(g, FrameArrives(frame)).queue.slots[i] == ConfirmSlot(p, frame);
    if p.expectations != [] {
      FrameKeepsFlags(p, frame, h.value.request, h.value.frames);
      AllFlagged(ConfirmSlot(p, frame), h.value.request, h.value.frames + [frame]);
    }
  }

  /** Nothing is open exactly when all that is asked for has been reported. */
  lemma AllFlagged(p: Pending, r: Request, frames: seq<Frame>)
    requires FlagsKnown(p, r, frames)
    ensures UnconfirmedCount(p.expectations) == 0 <==>
            forall topic, value :: Asks(r, topic, value) ==> SomeReports(frames, r.name, topic, value)
  {
    if UnconfirmedCount(p.expectations) == 0 {
      forall topic, value | Asks(r, topic, value) ensures SomeReports(frames, r.name, topic, value) {
        ExpectationsAsk(r, topic, value);
        var k :| 0 <= k < |ExpectationsFor(r)| && ExpectationsFor(r)[k].topic == topic &&
                 ExpectationsFor(r)[k].desired == value;
        assert p.expectations[k].confirmed;
      }
    }
    if forall topic, value :: Asks(r, topic, value) ==> SomeReports(frames, r.name, topic, value) {
      forall k | 0 <= k < |p.expectations| ensures p.expectations[k].confirmed {
        var e := ExpectationsFor(r)[k];
        ExpectationsAsk(r, e.topic, e.desired);
        assert Asks(r, e.topic, e.desired);
      }
    }
  }

  // ----- when a request is sent again, or given up

  /** 30 seconds have passed since the last send, by a clock that comes round after 2^32 ms. */
  predicate Overdue(p: Pending, h: Held, clock: nat) {
    !p.waitingToSend && (clock - h.sentAt) % 0x1_0000_0000 >= 30000
  }

  lemma OverdueExactly(p: Pending, h: Held, clock: nat, sends: nat)
    requires p.active && SlotInv(p, sends) && Answers(p, h, clock)
    ensures TimedOut(p, Wrap32(clock)) <==> Overdue(p, h, clock)
  {
    if !p.waitingToSend {
      SentIsVerifiable(p, sends);
      WrappedDifference(clock, h.sentAt);
    }
  }

  /**
   A request that was sent and is not confirmed is left alone for 30 seconds; then it is given up if and only if it was
   sent four times, and otherwise tried again.
   */
  lemma TimesOutExactly(clock: nat, events: seq<Event>, sendOk: bool, i: nat)
    requires i < QUEUE_SIZE && After(Boot(clock), events).queue.slots[i].active
    requires !After(Boot(clock), events).queue.slots[i].waitingToSend
    ensures
      var g, h := After(Boot(clock), events), HeldIn(clock, events, i);
      var p, q := g.queue.slots[i], Step(g, LoopRuns(sendOk)).queue.slots[i];
      && h.Some?
      && (!Overdue(p, h.value, g.clock) ==> q == p)
      && (!q.active <==> Overdue(p, h.value, g.clock) && g.sends[i] == 4)
      && (q.active && q.retries == p.retries + 1 <==> Overdue(p, h.value, g.clock) && g.sends[i] < 4)
  {
    var g, h := After(Boot(clock), events), HeldIn(clock, events, i);
    AnswersOverRuns(clock, events, i);
    SlotsOverRuns(clock, events);
    assert SlotInv(g.queue.slots[i], g.sends[i]);
    OverdueExactly(g.queue.slots[i], h.value, g.clock, g.sends[i]);
    LoopSlot(g, sendOk, i);
  }

  // ----- when something is sent

  /** Nothing was sent in the last seven seconds. */
  predicate QuietFor7Seconds(g: Run) {
    g.sendTimes == [] || (g.clock - g.sendTimes[|g.sendTimes| - 1]) % 0x1_0000_0000 >= 7000
  }

  /** The request may be sent now: its time has come, or its last send has timed out and it has sends left. */
  predicate MayBeSent(p: Pending, h: Held, clock: nat, sends: nat) {
    && p.active
    && if p.waitingToSend then (clock - h.dueAt) % 0x1_0000_0000 < 0x8000_0000
       else Overdue(p, h, clock) && sends < 4
  }

  lemma GapExactly(g: Run)
    requires PacedInv(g)
    ensures GapOpen(g.queue, Wrap32(g.clock)) <==> QuietFor7Seconds(g)
  {
    if g.sendTimes != [] {
      ElapsedIsAtMostTrueTime(g.clock, g.sendTimes[|g.sendTimes| - 1]);
    }
  }

  lemma DueExactly(g: Run, i: nat, h: Option<Held>)
    requires Shaped(g) && i < QUEUE_SIZE && SlotInv(g.queue.slots[i], g.sends[i])
    requires SlotAnswers(g.queue.slots[i], h, g.clock)
    ensures
      var now := Wrap32(g.clock);
      Due(TimedOutSlot(g.queue.slots, i, now, g.queue.sequence), now) <==>
      h.Some? && MayBeSent(g.queue.slots[i], h.value, g.clock, g.sends[i])
  {
    var p, now := g.queue.slots[i], Wrap32(g.clock);
    if p.active {
      OverdueExactly(p, h.value, g.clock, g.sends[i]);
      WrappedDifference(g.clock, h.value.dueAt);
    }
  }

  /** A pass sends a request if and only if nothing was sent for seven seconds and some request may be sent. */
  lemma SendsExactly(clock: nat, events: seq<Event>)
    ensures
      var g := After(Boot(clock), events);
      Attempt(g.queue, Wrap32(g.clock)) != -1 <==>
      && QuietFor7Seconds(g)
      && exists i: nat :: i < QUEUE_SIZE && var h := HeldIn(clock, events, i);
           h.Some? && MayBeSent(g.queue.slots[i], h.value, g.clock, g.sends[i])
  {
    var g := After(Boot(clock), events);
    var now := Wrap32(g.clock);
    TableOverRuns(clock, events);
    SlotsOverRuns(clock, events);
    GapExactly(g);
    var t := AfterTimeouts(g.queue, now);
    forall i: nat | i < QUEUE_SIZE
      ensures var h := HeldIn(clock, events, i);
        Due(t.slots[i], now) <==> h.Some? && MayBeSent(g.queue.slots[i], h.value, g.clock, g.sends[i])
    {
      AnswersOverRuns(clock, events, i);
      assert SlotInv(g.queue.slots[i], g.sends[i]);
      DueExactly(g, i, HeldIn(clock, events, i));
    }
  }
}
