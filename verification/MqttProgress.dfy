/** Why requests end, and why the queue cannot be kept busy forever by the requests it holds. */
module MqttProgress {
  import opened Words
  import opened HeatpumpFrames
  import opened MqttCommands
  import opened MqttRuns
  import opened MqttOrder
  import opened MqttReports

  /** The send time of a waiting request is at most a second ahead of the true clock; a sent one was sent before it. */
  ghost predicate TimesKnown(p: Pending, clock: nat) {
    p.active ==>
      if p.waitingToSend then exists t: nat :: t <= clock + QUEUE_RETRY_MS && p.nextSendAt == Wrap32(t)
      else exists t: nat :: t <= clock && p.sentAt == Wrap32(t)
  }

  ghost predicate AllTimesKnown(g: Run)
    requires Shaped(g)
  {
    forall i :: 0 <= i < QUEUE_SIZE ==> TimesKnown(g.queue.slots[i], g.clock)
  }

  lemma LaterTimesKnown(p: Pending, clock: nat, later: nat)
    requires TimesKnown(p, clock) && clock <= later
    ensures TimesKnown(p, later)
  {
  }

  lemma TimeoutTimesKnown(p: Pending, clock: nat, sequence: uint32)
    requires TimesKnown(p, clock)
    ensures TimesKnown(AfterTimeout(p, Wrap32(clock), sequence), clock)
  {
  }

  lemma PreparedTimesKnown(r: Request, data: Option<Frame>, dataAt: uint32, waitTime: nat, clock: nat, sequence: uint32)
    ensures TimesKnown(Prepared(r, data, dataAt, waitTime, Wrap32(clock)).(sequence := sequence), clock)
  {
    assert Prepared(r, data, dataAt, waitTime, Wrap32(clock)).nextSendAt == Wrap32(clock);
  }

  lemma LoopKeepsSlotTimes(g: Run, sendOk: bool, i: nat)
    requires Shaped(g) && AllTimesKnown(g) && i < QUEUE_SIZE
    ensures TimesKnown(Step(g, LoopRuns(sendOk)).queue.slots[i], g.clock)
  {
    var now := Wrap32(g.clock);
    WrapOfSum(g.clock, QUEUE_RETRY_MS);
    TimeoutTimesKnown(g.queue.slots[i], g.clock, Wrap32(g.queue.sequence + RetryCount(g.queue.slots, i, now) + 1));
    assert AfterTimeouts(g.queue, now).slots[i] == TimedOutSlot(g.queue.slots, i, now, g.queue.sequence);
  }

  lemma LoopKeepsTimes(g: Run, sendOk: bool)
    requires Shaped(g) && AllTimesKnown(g)
    ensures AllTimesKnown(Step(g, LoopRuns(sendOk)))
  {
    var h := Step(g, LoopRuns(sendOk));
    forall i | 0 <= i < QUEUE_SIZE ensures TimesKnown(h.queue.slots[i], g.clock) {
      LoopKeepsSlotTimes(g, sendOk, i);
    }
  }

  lemma StepKeepsTimes(g: Run, e: Event)
    requires Shaped(g) && AllTimesKnown(g)
    ensures AllTimesKnown(Step(g, e))
  {
    var now, h := Wrap32(g.clock), Step(g, e);
    match e
    case Tick(ms) =>
      forall i | 0 <= i < QUEUE_SIZE ensures TimesKnown(h.queue.slots[i], h.clock) {
        LaterTimesKnown(g.queue.slots[i], g.clock, h.clock);
      }
    case RequestArrives(r, data, dataAt, waitTime) =>
      PreparedTimesKnown(r, data, dataAt, waitTime, g.clock, Wrap32(g.queue.sequence + 1));
    case FrameArrives(frame) =>
      forall i | 0 <= i < QUEUE_SIZE ensures TimesKnown(h.queue.slots[i], h.clock) {
        assert h.queue.slots[i] == ConfirmSlot(g.queue.slots[i], frame);
        assert TimesKnown(g.queue.slots[i], g.clock);
      }
    case LoopRuns(sendOk) => LoopKeepsTimes(g, sendOk);
  }

  lemma {:induction false} TimesOverRuns(clock: nat, events: seq<Event>)
    ensures AllTimesKnown(After(Boot(clock), events))
    decreases |events|
  {
    if events != [] {
      TimesOverRuns(clock, events[..|events| - 1]);
      StepKeepsTimes(After(Boot(clock), events[..|events| - 1]), events[|events| - 1]);
    }
  }

  /** From the true time t on, for 2^31 ms. */
  ghost predicate DueFrom(p: Pending, t: nat) {
    forall later: nat :: t <= later < t + TWO_31 ==> Due(p, Wrap32(later))
  }

  /** From 30 seconds after the true time t on, until the tick counter comes round. */
  ghost predicate TimesOutFrom(p: Pending, t: nat) {
    forall later: nat :: t + CONFIRM_TIMEOUT_MS <= later < t + TWO_32 ==> TimedOut(p, Wrap32(later))
  }

  lemma WaitingBecomesDue(p: Pending, t: nat)
    requires p.active && p.waitingToSend && p.nextSendAt == Wrap32(t)
    ensures DueFrom(p, t)
  {
    forall later: nat | t <= later < t + TWO_31 ensures Due(p, Wrap32(later)) {
      ElapsedIsAtMostTrueTime(later, t);
    }
  }

  lemma MeasuredTime(later: nat, t: nat)
    requires t <= later < t + TWO_32
    ensures Elapsed(Wrap32(later), Wrap32(t)) == later - t
  {
    ElapsedIsAtMostTrueTime(later, t);
  }

  lemma SentIsVerifiable(p: Pending, sends: nat)
    requires SlotInv(p, sends) && p.active && !p.waitingToSend
    ensures p.wasSent && p.expectations != []
  {
  }

  lemma SentTimesOut(p: Pending, t: nat)
    requires p.active && !p.waitingToSend && p.wasSent && p.expectations != [] && p.sentAt == Wrap32(t)
    ensures TimesOutFrom(p, t)
  {
    forall later: nat | t + CONFIRM_TIMEOUT_MS <= later < t + TWO_32 ensures TimedOut(p, Wrap32(later)) {
      MeasuredTime(later, t);
    }
  }

  /**
   No reachable slot is stuck: a waiting request is due within a second of true time, and a sent one has timed out
   30 seconds after its last send.
   */
  lemma NeverStuck(clock: nat, events: seq<Event>, i: nat)
    requires i < QUEUE_SIZE
    ensures
      var g := After(Boot(clock), events);
      var p := g.queue.slots[i];
      && (p.active && p.waitingToSend ==> exists t: nat :: t <= g.clock + QUEUE_RETRY_MS && DueFrom(p, t))
      && (p.active && !p.waitingToSend ==> exists t: nat :: t <= g.clock && TimesOutFrom(p, t))
  {
    var g := After(Boot(clock), events);
    var p := g.queue.slots[i];
    SlotsOverRuns(clock, events);
    TimesOverRuns(clock, events);
    assert SlotInv(p, g.sends[i]) && TimesKnown(p, g.clock);
    if p.active && p.waitingToSend {
      var t: nat :| t <= g.clock + QUEUE_RETRY_MS && p.nextSendAt == Wrap32(t);
      WaitingBecomesDue(p, t);
    } else if p.active {
      var t: nat :| t <= g.clock && p.sentAt == Wrap32(t);
      SentIsVerifiable(p, g.sends[i]);
      SentTimesOut(p, t);
    }
  }

  /** A new request takes slot i. */
  predicate TakesSlot(g: Run, e: Event, i: nat) {
    e.RequestArrives? && QueueOutcome(g.queue, e.request, e.data, e.dataAt, e.waitTime, Wrap32(g.clock)) == Queued(i)
  }

  /** The slot still holds the same request; only bytes and expectations that a frame confirmed may have changed. */
  predicate StillHeld(p: Pending, q: Pending) {
    q.active && q.name == p.name && q.length == p.length && |q.expectations| == |p.expectations|
  }

  /** The frame reports every value that is still open. */
  predicate LeavesNothingOpen(p: Pending, frame: Frame) {
    forall e :: e in p.expectations && !e.confirmed ==> Reports(frame, p.name, e.topic, e.desired)
  }

  /** The request is confirmed by a frame, given up after its fourth send, or sent without a way to verify it. */
  predicate IsDone(g: Run, e: Event, i: nat)
    requires Shaped(g) && i < QUEUE_SIZE
  {
    var p, now := g.queue.slots[i], Wrap32(g.clock);
    || (e.FrameArrives? && p.expectations != [] && LeavesNothingOpen(p, e.frame))
    || (e.LoopRuns? && TimedOut(p, now) && g.sends[i] == MAX_RETRIES + 1)
    || (e.LoopRuns? && e.sendOk && p.expectations == [] && Attempt(g.queue, now) == i)
  }

  lemma FrameEnds(g: Run, frame: Frame, i: nat)
    requires Shaped(g) && i < QUEUE_SIZE && g.queue.slots[i].active
    ensures
      var p, q := g.queue.slots[i], Step(g, FrameArrives(frame)).queue.slots[i];
      (!q.active <==> IsDone(g, FrameArrives(frame), i)) && (q.active ==> StillHeld(p, q))
  {
    var p := g.queue.slots[i];
    assert Step(g, FrameArrives(frame)).queue.slots[i] == ConfirmSlot(p, frame);
    if p.expectations != [] {
      FrameFrees(p, frame);
    }
  }

  lemma LoopEnds(g: Run, sendOk: bool, i: nat)
    requires Shaped(g) && i < QUEUE_SIZE && g.queue.slots[i].active && SlotInv(g.queue.slots[i], g.sends[i])
    ensures
      var p, q := g.queue.slots[i], Step(g, LoopRuns(sendOk)).queue.slots[i];
      (!q.active <==> IsDone(g, LoopRuns(sendOk), i)) && (q.active ==> StillHeld(p, q))
  {
    var now := Wrap32(g.clock);
    assert AfterTimeouts(g.queue, now).slots[i] == TimedOutSlot(g.queue.slots, i, now, g.queue.sequence);
  }

  lemma RequestEnds(g: Run, e: Event, i: nat)
    requires Shaped(g) && i < QUEUE_SIZE && g.queue.slots[i].active && e.RequestArrives?
    ensures
      var p, q := g.queue.slots[i], Step(g, e).queue.slots[i];
      q.active && if TakesSlot(g, e, i) then e.request.name == p.name == q.name else q == p
  {
    var p := Prepared(e.request, e.data, e.dataAt, e.waitTime, Wrap32(g.clock));
    assert p.active && p.name == e.request.name;
  }

  /**
   A request leaves its slot exactly when a newer one of its name takes the slot, or when it is done: confirmed, given
   up after its fourth send, or sent unverifiable. Otherwise the slot still holds it.
   */
  lemma WhyARequestEnds(g: Run, e: Event, i: nat)
    requires Shaped(g) && AllSlots(g) && i < QUEUE_SIZE && g.queue.slots[i].active
    ensures
      var p, q := g.queue.slots[i], Step(g, e).queue.slots[i];
      && (!q.active <==> IsDone(g, e, i))
      && (q.active ==> if TakesSlot(g, e, i) then e.request.name == p.name == q.name else StillHeld(p, q))
  {
    assert SlotInv(g.queue.slots[i], g.sends[i]);
    match e
    case Tick(ms) =>
    case RequestArrives(r, data, dataAt, waitTime) => RequestEnds(g, e, i);
    case FrameArrives(frame) => FrameEnds(g, frame, i);
    case LoopRuns(sendOk) => LoopEnds(g, sendOk, i);
  }

  /** Sends and timeouts still possible for the request of a slot, plus one while it is active. */
  function SlotWork(p: Pending): int {
    if p.active then 1 + Measure(p) else 0
  }

  function Work(slots: seq<Pending>): int {
    if slots == [] then 0 else Work(slots[..|slots| - 1]) + SlotWork(slots[|slots| - 1])
  }

  lemma {:induction false} WorkIsMonotone(a: seq<Pending>, b: seq<Pending>)
    requires |a| == |b| && forall i :: 0 <= i < |a| ==> SlotWork(b[i]) <= SlotWork(a[i])
    ensures Work(b) <= Work(a)
    ensures (exists i :: 0 <= i < |a| && SlotWork(b[i]) < SlotWork(a[i])) ==> Work(b) < Work(a)
  {
    if a != [] {
      var m := |a| - 1;
      WorkIsMonotone(a[..m], b[..m]);
      if i :| 0 <= i < |a| && SlotWork(b[i]) < SlotWork(a[i]) {
        if i < m {
          assert SlotWork(b[..m][i]) < SlotWork(a[..m][i]);
        }
      }
    }
  }

  lemma {:induction false} WorkIsBounded(slots: seq<Pending>)
    requires forall i :: 0 <= i < |slots| ==> 0 <= slots[i].retries <= MAX_RETRIES
    ensures 0 <= Work(slots) <= 8 * |slots|
  {
    if slots != [] {
      WorkIsBounded(slots[..|slots| - 1]);
    }
  }

  predicate Accepts(g: Run, e: Event) {
    e.RequestArrives? && QueueOutcome(g.queue, e.request, e.data, e.dataAt, e.waitTime, Wrap32(g.clock)).Queued?
  }

  lemma TimeoutWork(g: Run, now: uint32)
    requires Shaped(g) && AllSlots(g)
    ensures
      var slots, t := g.queue.slots, AfterTimeouts(g.queue, now).slots;
      && Work(t) <= Work(slots)
      && ((exists i :: 0 <= i < QUEUE_SIZE && TimedOut(slots[i], now)) ==> Work(t) < Work(slots))
  {
    var slots, t := g.queue.slots, AfterTimeouts(g.queue, now).slots;
    forall i | 0 <= i < QUEUE_SIZE
      ensures SlotWork(t[i]) <= SlotWork(slots[i]) && (TimedOut(slots[i], now) ==> SlotWork(t[i]) < SlotWork(slots[i]))
    {
      assert SlotInv(slots[i], g.sends[i]);
      assert t[i] == TimedOutSlot(slots, i, now, g.queue.sequence);
    }
    WorkIsMonotone(slots, t);
  }

  lemma SendWork(t: seq<Pending>, i: nat, now: uint32)
    requires i < |t| && Due(t[i], now) && t[i].retries <= MAX_RETRIES
    ensures Work(t[i := AfterSend(t[i], now)]) < Work(t)
  {
    var after := t[i := AfterSend(t[i], now)];
    assert SlotWork(after[i]) < SlotWork(t[i]);
    WorkIsMonotone(t, after);
  }

  /** A loop pass pays one unit of work for a successful send, and at least one if anything timed out. */
  lemma LoopWork(g: Run, sendOk: bool)
    requires Shaped(g) && AllSlots(g)
    ensures
      var h, now := Step(g, LoopRuns(sendOk)), Wrap32(g.clock);
      && Work(h.queue.slots) + SendsOf(g, LoopRuns(sendOk)) <= Work(g.queue.slots)
      && ((exists i :: 0 <= i < QUEUE_SIZE && TimedOut(g.queue.slots[i], now)) ==>
         Work(h.queue.slots) < Work(g.queue.slots))
  {
    var now := Wrap32(g.clock);
    TimeoutWork(g, now);
    var t, next := AfterTimeouts(g.queue, now).slots, Attempt(g.queue, now);
    if next >= 0 {
      assert SlotInv(g.queue.slots[next], g.sends[next]);
      assert t[next] == TimedOutSlot(g.queue.slots, next, now, g.queue.sequence);
      if sendOk {
        SendWork(t, next, now);
      } else {
        WorkIsMonotone(t, Step(g, LoopRuns(sendOk)).queue.slots);
      }
    }
  }

  lemma StepWork(g: Run, e: Event)
    requires Shaped(g) && AllSlots(g) && !Accepts(g, e)
    ensures Work(Step(g, e).queue.slots) + SendsOf(g, e) <= Work(g.queue.slots)
  {
    if e.LoopRuns? {
      LoopWork(g, e.sendOk);
    } else if e.FrameArrives? {
      var after := Step(g, e).queue.slots;
      forall i | 0 <= i < QUEUE_SIZE ensures SlotWork(after[i]) <= SlotWork(g.queue.slots[i]) {
        assert SlotInv(g.queue.slots[i], g.sends[i]);
        assert after[i] == ConfirmSlot(g.queue.slots[i], e.frame);
      }
      WorkIsMonotone(g.queue.slots, after);
    }
  }

  lemma WorkOfSlots(g: Run)
    requires Shaped(g) && AllSlots(g)
    ensures 0 <= Work(g.queue.slots) <= 8 * QUEUE_SIZE
  {
    forall i | 0 <= i < QUEUE_SIZE ensures 0 <= g.queue.slots[i].retries <= MAX_RETRIES {
      assert SlotInv(g.queue.slots[i], g.sends[i]);
    }
    WorkIsBounded(g.queue.slots);
  }

  /** Event k of the run is an accepted request. */
  predicate AcceptedAt(g: Run, events: seq<Event>, k: nat)
    requires Shaped(g) && k < |events|
  {
    Accepts(After(g, events[..k]), events[k])
  }

  /** No event of the run is an accepted request. */
  predicate NothingAccepted(g: Run, events: seq<Event>)
    requires Shaped(g)
  {
    forall k :: 0 <= k < |events| ==> !AcceptedAt(g, events, k)
  }

  lemma SameEvent(g: Run, events: seq<Event>, k: nat)
    requires Shaped(g) && k + 1 < |events|
    ensures AcceptedAt(g, events[..|events| - 1], k) <==> AcceptedAt(g, events, k)
  {
    assert events[..|events| - 1][..k] == events[..k];
  }

  lemma NothingAcceptedEarlier(g: Run, events: seq<Event>)
    requires Shaped(g) && NothingAccepted(g, events) && events != []
    ensures NothingAccepted(g, events[..|events| - 1])
    ensures !Accepts(After(g, events[..|events| - 1]), events[|events| - 1])
  {
    var n := |events| - 1;
    forall k | 0 <= k < n ensures !AcceptedAt(g, events[..n], k) {
      SameEvent(g, events, k);
      assert !AcceptedAt(g, events, k);
    }
    assert !AcceptedAt(g, events, n);
  }

  lemma {:induction false} SendsArePaidFor(g: Run, events: seq<Event>)
    requires Shaped(g) && AllSlots(g) && NothingAccepted(g, events)
    ensures AllSlots(After(g, events))
    ensures |After(g, events).sendTimes| + Work(After(g, events).queue.slots) <= |g.sendTimes| + Work(g.queue.slots)
    decreases |events|
  {
    if events != [] {
      var earlier, e := events[..|events| - 1], events[|events| - 1];
      NothingAcceptedEarlier(g, events);
      SendsArePaidFor(g, earlier);
      StepWork(After(g, earlier), e);
      StepKeepsSlots(After(g, earlier), e);
    }
  }

  /** Without newly accepted requests, the sends of a whole run are paid for by the work queued at its start. */
  lemma QueueDrains(g: Run, events: seq<Event>)
    requires Shaped(g) && AllSlots(g) && NothingAccepted(g, events)
    ensures AllSlots(After(g, events))
    ensures |After(g, events).sendTimes| + Work(After(g, events).queue.slots) <= |g.sendTimes| + Work(g.queue.slots)
    ensures |After(g, events).sendTimes| <= |g.sendTimes| + 8 * QUEUE_SIZE
  {
    SendsArePaidFor(g, events);
    WorkOfSlots(g);
    WorkOfSlots(After(g, events));
  }

  /**
   The order claims need the counter not to have wrapped: after 2^32 - 1 numbers, a request queued last
   gets number 0 and is sent before an older one that is due as well.
   */
  lemma WrappedCounterSendsNewestFirst(g: Run, r: Request)
    requires Shaped(g) && g.issued == TWO_32 - 1 && TableInv(g) && GapOpen(g.queue, Wrap32(g.clock))
    requires g.queue.slots[0].active && g.queue.slots[0].waitingToSend && g.queue.slots[0].nextSendAt == Wrap32(g.clock)
    requires forall i :: 1 <= i < QUEUE_SIZE ==> !g.queue.slots[i].active
    requires r.known && 0 < r.length <= COMMAND_SIZE && r.name != g.queue.slots[0].name && r.name.Other? &&
             r.confirmTopic < 0
    ensures
      var h := Step(g, RequestArrives(r, None, 0, 0));
      h.issued == TWO_32 && h.queue.slots[1].active && Attempt(h.queue, Wrap32(h.clock)) == 1
  {
    var now := Wrap32(g.clock);
    var p := Prepared(r, None, 0, 0, now);
    var slots := g.queue.slots;
    assert FirstNamed(slots, p.name, 0) == QUEUE_SIZE;
    assert FirstFree(slots, 0) == 1;
    var h := Step(g, RequestArrives(r, None, 0, 0));
    assert h.queue.slots == slots[1 := p.(sequence := 0)];
    var t := AfterTimeouts(h.queue, now).slots;
    assert forall i :: 0 <= i < QUEUE_SIZE ==> t[i] == TimedOutSlot(h.queue.slots, i, now, h.queue.sequence);
    assert Due(t[0], now) && Due(t[1], now) && 0 < t[0].sequence;
  }
}
