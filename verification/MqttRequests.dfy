/** What becomes of a request when it arrives, by what it asks for and what the slots want. */
module MqttRequests {
  import opened Words
  import opened HeatpumpFrames
  import opened MqttCommands
  import opened MqttReports
  import opened MqttRuns
  import opened MqttOrder

  // ----- the same wishes

  /** Curve expectations in the order of their bytes, with the topics of these bytes. */
  predicate InByteOrder(es: seq<Expectation>) {
    && (forall i :: 0 <= i < |es| ==> IsCurveByte(es[i].commandByte) && es[i].topic == CurveTopic(es[i].commandByte))
    && (forall i, j :: 0 <= i < j < |es| ==> es[i].commandByte < es[j].commandByte)
  }

  predicate WantedIn(es: seq<Expectation>, topic: int, value: int) {
    exists k :: 0 <= k < |es| && es[k].topic == topic && es[k].desired == value
  }

  ghost predicate SameWishes(a: seq<Expectation>, b: seq<Expectation>) {
    forall topic, value :: WantedIn(a, topic, value) <==> WantedIn(b, topic, value)
  }

  predicate SameList(a: seq<Expectation>, b: seq<Expectation>) {
    |a| == |b| && forall k :: 0 <= k < |a| ==> a[k].topic == b[k].topic && a[k].desired == b[k].desired
  }

  lemma OneTopicPerByte(b: nat, c: nat)
    requires IsCurveByte(b) && IsCurveByte(c) && CurveTopic(b) == CurveTopic(c)
    ensures b == c
  {
    CurveTablesAgree(b);
    CurveTablesAgree(c);
  }

  lemma FindWanted(es: seq<Expectation>, topic: int, value: int) returns (k: nat)
    requires WantedIn(es, topic, value)
    ensures k < |es| && es[k].topic == topic && es[k].desired == value
  {
    k :| 0 <= k < |es| && es[k].topic == topic && es[k].desired == value;
  }

  /** The last wish of one list is the last of the other. */
  lemma SameLast(a: seq<Expectation>, b: seq<Expectation>)
    requires InByteOrder(a) && InByteOrder(b) && SameWishes(a, b) && a != [] && b != []
    ensures a[|a| - 1].commandByte <= b[|b| - 1].commandByte
    ensures a[|a| - 1].commandByte == b[|b| - 1].commandByte ==> a[|a| - 1].desired == b[|b| - 1].desired
  {
    var x := a[|a| - 1];
    assert WantedIn(a, x.topic, x.desired);
    var j := FindWanted(b, x.topic, x.desired);
    OneTopicPerByte(x.commandByte, b[j].commandByte);
  }

  lemma WantedEarlier(a: seq<Expectation>, topic: int, value: int)
    requires InByteOrder(a) && a != []
    ensures WantedIn(a[..|a| - 1], topic, value) <==> WantedIn(a, topic, value) && topic != a[|a| - 1].topic
  {
    var n := |a| - 1;
    if WantedIn(a[..n], topic, value) {
      var k := FindWanted(a[..n], topic, value);
      assert a[k].topic == topic && a[k].desired == value;
      if topic == a[n].topic {
        OneTopicPerByte(a[k].commandByte, a[n].commandByte);
        assert false;
      }
    }
    if WantedIn(a, topic, value) && topic != a[n].topic {
      var k := FindWanted(a, topic, value);
      assert a[..n][k] == a[k];
    }
  }

  lemma {:induction false} SameWishesSameList(a: seq<Expectation>, b: seq<Expectation>)
    requires InByteOrder(a) && InByteOrder(b) && SameWishes(a, b)
    ensures SameList(a, b)
  {
    if a == [] {
      NoWishes(a, b);
    } else if b == [] {
      NoWishes(b, a);
    } else {
      var c, d := a[..|a| - 1], b[..|b| - 1];
      SameLast(a, b);
      SameLast(b, a);
      forall topic, value ensures WantedIn(c, topic, value) <==> WantedIn(d, topic, value) {
        WantedEarlier(a, topic, value);
        WantedEarlier(b, topic, value);
      }
      SameWishesSameList(c, d);
      assert a == c + [a[|a| - 1]] && b == d + [b[|b| - 1]];
    }
  }

  lemma FirstIsWanted(es: seq<Expectation>)
    requires es != []
    ensures WantedIn(es, es[0].topic, es[0].desired)
  {
  }

  lemma NoWishes(a: seq<Expectation>, b: seq<Expectation>)
    requires SameWishes(a, b) && a == []
    ensures b == []
  {
    if b != [] {
      FirstIsWanted(b);
    }
  }

  lemma SameListSameWishes(a: seq<Expectation>, b: seq<Expectation>)
    requires SameList(a, b)
    ensures SameWishes(a, b)
  {
    forall topic, value ensures WantedIn(a, topic, value) <==> WantedIn(b, topic, value) {
      if WantedIn(a, topic, value) {
        var k := FindWanted(a, topic, value);
        assert b[k].topic == topic && b[k].desired == value;
      }
      if WantedIn(b, topic, value) {
        var k := FindWanted(b, topic, value);
        assert a[k].topic == topic && a[k].desired == value;
      }
    }
  }

  // ----- slots of reachable states

  /** What the expectations of a slot look like: in byte order for curves, else at most one. */
  predicate Orderly(p: Pending) {
    if p.name == SetCurves then InByteOrder(p.expectations) else |p.expectations| <= 1
  }

  predicate Settled(slots: seq<Pending>) {
    NamesUnique(slots) && forall i :: 0 <= i < |slots| ==> Orderly(slots[i])
  }

  lemma CurveExpectationsInOrder(r: Request)
    requires r.name == SetCurves
    ensures InByteOrder(ExpectationsFor(r))
  {
    CurveExpectationsTrack(r.encoded);
    assert forall i :: 0 <= i < |ExpectationsFor(r)| ==> ByteTracks(ExpectationsFor(r)[i], r.encoded);
  }

  /** Preparing keeps what is wanted. */
  lemma PreparedWants(r: Request, data: Option<Frame>, dataAt: uint32, waitTime: nat, now: uint32)
    ensures
      var p := Prepared(r, data, dataAt, waitTime, now);
      && p.active && p.name == r.name && p.length == r.length && SameList(p.expectations, ExpectationsFor(r))
      && (p.expectations == [] ==> p.command == r.encoded)
      && Orderly(p)
  {
    if r.name == SetCurves {
      CurveExpectationsInOrder(r);
    }
    var p, es := Prepared(r, data, dataAt, waitTime, now), ExpectationsFor(r);
    if p.expectations == [] {
      assert forall b :: 0 <= b < COMMAND_SIZE ==> p.command[b] == r.encoded[b];
    }
  }

  lemma OrderlyAfterFrame(p: Pending, frame: Frame)
    requires Orderly(p)
    ensures Orderly(ConfirmSlot(p, frame))
  {
  }

  lemma OrderlyStep(g: Run, e: Event)
    requires Shaped(g) && forall i :: 0 <= i < QUEUE_SIZE ==> Orderly(g.queue.slots[i])
    ensures forall i :: 0 <= i < QUEUE_SIZE ==> Orderly(Step(g, e).queue.slots[i])
  {
    match e
    case Tick(ms) =>
    case RequestArrives(r, data, dataAt, waitTime) => PreparedWants(r, data, dataAt, waitTime, Wrap32(g.clock));
    case FrameArrives(frame) =>
      forall i | 0 <= i < QUEUE_SIZE ensures Orderly(Step(g, e).queue.slots[i]) {
        OrderlyAfterFrame(g.queue.slots[i], frame);
      }
    case LoopRuns(sendOk) =>
      forall i | 0 <= i < QUEUE_SIZE ensures Orderly(Step(g, e).queue.slots[i]) {
        LoopSlot(g, sendOk, i);
      }
  }

  lemma {:induction false} OrderlyOverRuns(clock: nat, events: seq<Event>)
    ensures forall i :: 0 <= i < QUEUE_SIZE ==> Orderly(After(Boot(clock), events).queue.slots[i])
    decreases |events|
  {
    if events != [] {
      OrderlyOverRuns(clock, events[..|events| - 1]);
      OrderlyStep(After(Boot(clock), events[..|events| - 1]), events[|events| - 1]);
    }
  }

  lemma SettledOverRuns(clock: nat, events: seq<Event>)
    ensures Settled(After(Boot(clock), events).queue.slots)
  {
    TableOverRuns(clock, events);
    OrderlyOverRuns(clock, events);
  }

  // ----- the outcome of a request

  /** The request can be executed: a known name, a length that fits, and for curves at least one value. */
  ghost predicate Executable(r: Request) {
    r.known && 0 < r.length <= 110 && (r.name == SetCurves ==> Verifiable(r))
  }

  /** A fresh frame reports every value that is asked for. */
  ghost predicate Reported(r: Request, data: Option<Frame>, dataAt: uint32, waitTime: nat, now: uint32) {
    && Verifiable(r) && IsFresh(data, dataAt, waitTime, now)
    && forall topic, value :: Asks(r, topic, value) ==> Reports(data.value, r.name, topic, value)
  }

  /** The slot holds this request: the same wishes, or, if there are none, the same bytes. */
  ghost predicate HoldsRequest(p: Pending, r: Request) {
    && p.active && p.name == r.name && WantsWhatIsAsked(p, r)
    && (!Verifiable(r) ==> forall b :: 0 <= b < p.length && b < 110 ==> p.command[b] == r.encoded[b])
  }

  lemma WantsAsAsked(p: Pending, r: Request)
    ensures WantsWhatIsAsked(p, r) <==> SameWishes(p.expectations, ExpectationsFor(r))
  {
    forall topic, value
      ensures Wants(p, topic, value) <==> WantedIn(p.expectations, topic, value)
      ensures Asks(r, topic, value) <==> WantedIn(ExpectationsFor(r), topic, value)
    {
      ExpectationsAsk(r, topic, value);
    }
  }

  lemma SameWishesExactly(p: Pending, r: Request)
    requires Orderly(p) && p.name == r.name
    ensures SameWishes(p.expectations, ExpectationsFor(r)) <==> SameList(p.expectations, ExpectationsFor(r))
  {
    var a, b := p.expectations, ExpectationsFor(r);
    if SameList(a, b) {
      SameListSameWishes(a, b);
    }
    if SameWishes(a, b) {
      if r.name == SetCurves {
        CurveExpectationsInOrder(r);
        SameWishesSameList(a, b);
      } else {
        FewWishesSameList(a, b);
      }
    }
  }

  lemma FewWishesSameList(a: seq<Expectation>, b: seq<Expectation>)
    requires SameWishes(a, b) && |a| <= 1 && |b| <= 1
    ensures SameList(a, b)
  {
    if a == [] {
      NoWishes(a, b);
    } else if b == [] {
      NoWishes(b, a);
    } else {
      assert WantedIn(a, a[0].topic, a[0].desired);
      var k := FindWanted(b, a[0].topic, a[0].desired);
    }
  }

  /** The comparison of the code finds out whether the slot holds the request. */
  lemma SameRequestExactly(p: Pending, r: Request, data: Option<Frame>, dataAt: uint32, waitTime: nat, now: uint32)
    requires p.active && Orderly(p)
    ensures SameRequest(p, Prepared(r, data, dataAt, waitTime, now)) <==> HoldsRequest(p, r)
  {
    var q := Prepared(r, data, dataAt, waitTime, now);
    PreparedWants(r, data, dataAt, waitTime, now);
    if p.name == r.name {
      WantsAsAsked(p, r);
      SameWishesExactly(p, r);
      NothingAsked(r);
      assert SameList(p.expectations, q.expectations) <==> SameList(p.expectations, ExpectationsFor(r));
    }
  }

  /** All values are confirmed at once exactly when a fresh frame reports all that is asked for. */
  lemma ReportedExactly(r: Request, data: Option<Frame>, dataAt: uint32, waitTime: nat, now: uint32)
    ensures
      var es := Prepared(r, data, dataAt, waitTime, now).expectations;
      es != [] && UnconfirmedCount(es) == 0 <==> Reported(r, data, dataAt, waitTime, now)
  {
    var es, p := ExpectationsFor(r), Prepared(r, data, dataAt, waitTime, now);
    NothingAsked(r);
    forall k | 0 <= k < |es|
      ensures |p.expectations| == |es|
      ensures p.expectations[k].confirmed <==>
              IsFresh(data, dataAt, waitTime, now) && Reports(data.value, r.name, es[k].topic, es[k].desired)
    {
      PreparedConfirms(r, data, dataAt, waitTime, now, k);
    }
    if Reported(r, data, dataAt, waitTime, now) {
      forall k | 0 <= k < |es| ensures Reports(data.value, r.name, es[k].topic, es[k].desired) {
        ExpectationsAsk(r, es[k].topic, es[k].desired);
      }
    }
    if p.expectations != [] && UnconfirmedCount(p.expectations) == 0 {
      forall topic, value | Asks(r, topic, value) ensures Reports(data.value, r.name, topic, value) {
        ExpectationsAsk(r, topic, value);
      }
    }
  }

  lemma NewExpectationsAreOpen(r: Request, k: nat)
    requires k < |ExpectationsFor(r)|
    ensures !ExpectationsFor(r)[k].confirmed
  {
    if r.name == SetCurves {
      ExpectedIsCurveByte(r.encoded, k);
    }
  }

  lemma PreparedConfirms(r: Request, data: Option<Frame>, dataAt: uint32, waitTime: nat, now: uint32, k: nat)
    requires k < |ExpectationsFor(r)|
    ensures
      var e, p := ExpectationsFor(r)[k], Prepared(r, data, dataAt, waitTime, now);
      && |p.expectations| == |ExpectationsFor(r)|
      && p.expectations[k] ==
         e.(confirmed := IsFresh(data, dataAt, waitTime, now) && Reports(data.value, r.name, e.topic, e.desired))
  {
    NewExpectationsAreOpen(r, k);
    if IsFresh(data, dataAt, waitTime, now) {
      FrameConfirms(Incoming(r, now), data.value, k);
      var p := ApplyKnown(Incoming(r, now), data.value);
      assert p.expectations[k] == ConfirmSlot(Incoming(r, now), data.value).expectations[k];
    }
  }

  predicate Named(p: Pending, name: Name) {
    p.active && p.name == name
  }

  /** With unique names, the slot that is found is the only one of its name. */
  lemma FoundIsOnly(slots: seq<Pending>, name: Name, i: nat)
    requires NamesUnique(slots) && i < |slots| && Named(slots[i], name)
    ensures FirstNamed(slots, name, 0) == i
  {
    assert FirstNamed(slots, name, 0) <= i;
  }

  lemma PlaceExactly(slots: seq<Pending>, r: Request, data: Option<Frame>, dataAt: uint32, waitTime: nat, now: uint32)
    requires Settled(slots)
    ensures
      var o := Place(slots, Prepared(r, data, dataAt, waitTime, now));
      && (o.AlreadyPending? <==> exists i :: 0 <= i < |slots| && HoldsRequest(slots[i], r))
      && (o.QueueFull? <==> forall i :: 0 <= i < |slots| ==> slots[i].active && slots[i].name != r.name)
      && (o.AlreadyPending? || o.QueueFull? || (o.Queued? && o.slot < |slots|))
      && (o.Queued? ==> if slots[o.slot].active then slots[o.slot].name == r.name
                        else forall i :: 0 <= i < |slots| ==> !Named(slots[i], r.name))
  {
    var p := Prepared(r, data, dataAt, waitTime, now);
    PreparedWants(r, data, dataAt, waitTime, now);
    var k := FirstNamed(slots, r.name, 0);
    if k < |slots| {
      SameRequestExactly(slots[k], r, data, dataAt, waitTime, now);
      if i :| 0 <= i < |slots| && HoldsRequest(slots[i], r) {
        FoundIsOnly(slots, r.name, i);
      }
    } else {
      assert forall i :: 0 <= i < |slots| ==> !Named(slots[i], r.name);
    }
  }

  /** The request is executable and not reported already. */
  ghost predicate Pends(r: Request, data: Option<Frame>, dataAt: uint32, waitTime: nat, now: uint32) {
    Executable(r) && !Reported(r, data, dataAt, waitTime, now)
  }

  /**
   Every outcome, by its exact condition. In a reachable table a request is ignored as pending if and only if the slot
   of its name wants the very same values (without any, if it has the same bytes), and it is refused for lack of room
   if and only if ten requests of other names are pending.
   */
  lemma OutcomeMeans(s: QueueState, r: Request, data: Option<Frame>, dataAt: uint32, waitTime: nat, now: uint32)
    requires Settled(s.slots)
    ensures
      var o, pends := QueueOutcome(s, r, data, dataAt, waitTime, now), Pends(r, data, dataAt, waitTime, now);
      && (o.NotHandled? <==> !r.known)
      && (o.InvalidValue? <==> r.known && !(0 < r.length <= 110))
      && (o.EmptyCurves? <==> r.known && 0 < r.length <= 110 && r.name == SetCurves && !Verifiable(r))
      && (o.AlreadyReported? <==> Executable(r) && Reported(r, data, dataAt, waitTime, now))
      && (o.AlreadyPending? <==> pends && exists i :: 0 <= i < |s.slots| && HoldsRequest(s.slots[i], r))
      && (o.QueueFull? <==> pends && forall i :: 0 <= i < |s.slots| ==> s.slots[i].active && s.slots[i].name != r.name)
  {
    NothingAsked(r);
    ReportedExactly(r, data, dataAt, waitTime, now);
    PlaceExactly(s.slots, r, data, dataAt, waitTime, now);
  }

  /** In particular for a single value: pending already means that an active slot of that name wants this value. */
  lemma SingleValuePending(clock: nat, events: seq<Event>, r: Request, data: Option<Frame>, dataAt: uint32,
                           waitTime: nat, now: uint32)
    requires r.name != SetCurves && r.confirmTopic >= 0 && Pends(r, data, dataAt, waitTime, now)
    ensures
      var s := After(Boot(clock), events).queue;
      QueueOutcome(s, r, data, dataAt, waitTime, now).AlreadyPending? <==>
      exists i :: 0 <= i < |s.slots| && Named(s.slots[i], r.name) &&
                  Wants(s.slots[i], r.confirmTopic, ToInt16(r.payload))
  {
    var s := After(Boot(clock), events).queue;
    SettledOverRuns(clock, events);
    OutcomeMeans(s, r, data, dataAt, waitTime, now);
    assert Asks(r, r.confirmTopic, ToInt16(r.payload));
    forall i | 0 <= i < |s.slots| && Named(s.slots[i], r.name)
      ensures HoldsRequest(s.slots[i], r) <==> Wants(s.slots[i], r.confirmTopic, ToInt16(r.payload))
    {
      OneWish(s.slots[i], r);
    }
  }

  lemma OneWish(p: Pending, r: Request)
    requires Orderly(p) && r.name == p.name != SetCurves && r.confirmTopic >= 0
    ensures WantsWhatIsAsked(p, r) <==> Wants(p, r.confirmTopic, ToInt16(r.payload))
  {
    assert Asks(r, r.confirmTopic, ToInt16(r.payload));
    if Wants(p, r.confirmTopic, ToInt16(r.payload)) {
      forall topic, value ensures Wants(p, topic, value) <==> Asks(r, topic, value) {
        if Wants(p, topic, value) {
          assert p.expectations[0].topic == topic && p.expectations[0].desired == value;
        }
      }
    }
  }

  lemma PlacedHolds(r: Request, data: Option<Frame>, dataAt: uint32, waitTime: nat, now: uint32, n: uint32)
    ensures HoldsRequest(Prepared(r, data, dataAt, waitTime, now).(sequence := n), r)
  {
    var p := Prepared(r, data, dataAt, waitTime, now).(sequence := n);
    PreparedWants(r, data, dataAt, waitTime, now);
    SameListSameWishes(p.expectations, ExpectationsFor(r));
    WantsAsAsked(p, r);
    NothingAsked(r);
  }

  lemma HeldAfterStep(s: QueueState, r: Request, data: Option<Frame>, dataAt: uint32, waitTime: nat, now: uint32)
    requires Settled(s.slots) && Pends(r, data, dataAt, waitTime, now)
    requires !QueueOutcome(s, r, data, dataAt, waitTime, now).QueueFull?
    ensures
      var after := QueueStep(s, r, data, dataAt, waitTime, now).slots;
      exists i :: 0 <= i < |after| && HoldsRequest(after[i], r)
  {
    OutcomeMeans(s, r, data, dataAt, waitTime, now);
    var o, after := QueueOutcome(s, r, data, dataAt, waitTime, now), QueueStep(s, r, data, dataAt, waitTime, now).slots;
    if o.Queued? {
      PlacedHolds(r, data, dataAt, waitTime, now, Wrap32(s.sequence + 1));
      assert HoldsRequest(after[o.slot], r);
    }
  }

  /**
   End to end: after an executable request that is neither reported already nor refused for lack of room, the slot of
   its name wants exactly what it asks for.
   */
  lemma RequestIsHeld(clock: nat, events: seq<Event>, r: Request, data: Option<Frame>, dataAt: uint32, waitTime: nat,
                      now: uint32)
    requires Pends(r, data, dataAt, waitTime, now)
    requires
      var slots := After(Boot(clock), events).queue.slots;
      exists i :: 0 <= i < |slots| && (!slots[i].active || slots[i].name == r.name)
    ensures
      var after := QueueStep(After(Boot(clock), events).queue, r, data, dataAt, waitTime, now).slots;
      exists i :: 0 <= i < |after| && HoldsRequest(after[i], r)
  {
    var s := After(Boot(clock), events).queue;
    SettledOverRuns(clock, events);
    OutcomeMeans(s, r, data, dataAt, waitTime, now);
    HeldAfterStep(s, r, data, dataAt, waitTime, now);
  }
}
