/** What a frame has to say for a wanted value to count as reported. */
module MqttReports {
  import opened Words
  import opened HeatpumpFrames
  import opened MqttCommands

  /**
   A main frame in which the topic reads the value; operating mode 2 is also read as 7 and 6 as 8 (automatic with the
   current direction), holiday mode 1 also as 2 (scheduled).
   */
  predicate Reports(frame: Frame, name: Name, topic: int, value: int) {
    && frame.bytes[0] == 0x71
    && var reading := ReadTopic(frame, topic);
       || reading == value
       || (name == SetOperationMode && value == 2 && reading == 7)
       || (name == SetOperationMode && value == 6 && reading == 8)
       || (name == SetHolidayMode && value == 1 && reading == 2)
  }

  /** A frame confirms exactly the open expectations whose value it reports, and changes nothing else about them. */
  lemma FrameConfirms(p: Pending, frame: Frame, k: nat)
    requires p.active && k < |p.expectations|
    ensures
      var e, q := p.expectations[k], ConfirmSlot(p, frame);
      && |q.expectations| == |p.expectations|
      && q.expectations[k] == e.(confirmed := e.confirmed || Reports(frame, p.name, e.topic, e.desired))
  {
    var e := p.expectations[k];
    if frame.bytes[0] == 0x71 {
      assert ApplyKnown(p, frame).expectations[k] == Mark(p.name, e, frame);
    }
  }

  /** A frame frees a slot exactly when it reports every value that is still open. */
  lemma FrameFrees(p: Pending, frame: Frame)
    requires p.active && p.expectations != []
    ensures !ConfirmSlot(p, frame).active <==>
            forall k :: 0 <= k < |p.expectations| ==>
              var e := p.expectations[k]; e.confirmed || Reports(frame, p.name, e.topic, e.desired)
  {
    var q := ApplyKnown(p, frame);
    forall k | 0 <= k < |p.expectations|
      ensures |q.expectations| == |p.expectations|
      ensures
        var e := p.expectations[k];
        q.expectations[k].confirmed == (e.confirmed || Reports(frame, p.name, e.topic, e.desired))
    {
      FrameConfirms(p, frame, k);
    }
  }

  /**
   In true time a frame is fresh if and only if it is a main frame that did not arrive at tick 0 and is at most a minute
   old, or at most four times the wait time if that is longer.
   */
  lemma FreshMeans(frame: Frame, dataAt: nat, waitTime: nat, now: nat)
    requires dataAt <= now < dataAt + TWO_32 && waitTime * 4000 < TWO_32
    ensures IsFresh(Some(frame), Wrap32(dataAt), waitTime, Wrap32(now)) <==>
            && frame.bytes[..4] == [0x71, 0xC8, 0x01, 0x10] && dataAt % 0x1_0000_0000 != 0
            && (now - dataAt <= 60000 || now - dataAt <= 4000 * waitTime)
  {
    ElapsedIsAtMostTrueTime(now, dataAt);
    WrapOfSmall(waitTime * 4000);
    var start := frame.bytes[..4];
    assert start[0] == frame.bytes[0] && start[1] == frame.bytes[1];
    assert start[2] == frame.bytes[2] && start[3] == frame.bytes[3];
  }

  // ----- what a request asks for

  /** The request asks for this value of this topic. */
  ghost predicate Asks(r: Request, topic: int, value: int) {
    if r.name == SetCurves then exists b :: AsksByte(r, b, topic, value)
    else r.confirmTopic >= 0 && topic == r.confirmTopic && value == ToInt16(r.payload)
  }

  /** A curve byte that is not 0 asks for the value 128 below it. */
  predicate AsksByte(r: Request, b: int, topic: int, value: int) {
    && IsCurveByte(b) && r.encoded[b] != 0
    && topic == CurveTopic(b) && value == r.encoded[b] as int - 128
  }

  ghost predicate Verifiable(r: Request) {
    exists topic, value :: Asks(r, topic, value)
  }

  /** The slot wants this value of this topic. */
  predicate Wants(p: Pending, topic: int, value: int) {
    exists k :: 0 <= k < |p.expectations| && p.expectations[k].topic == topic && p.expectations[k].desired == value
  }

  /** The slot wants exactly what the request asks for. */
  ghost predicate WantsWhatIsAsked(p: Pending, r: Request) {
    forall topic, value :: Wants(p, topic, value) <==> Asks(r, topic, value)
  }

  /** An expectation for byte b of a curve command. */
  predicate ForByte(e: Expectation, bytes: seq<byte>, b: int) {
    && 0 <= b < |bytes| && IsCurveByte(b) && bytes[b] != 0
    && e == Expectation(CurveTopic(b), b, bytes[b] as int - 128, false)
  }

  lemma {:induction false} CurveByteIsExpected(bytes: seq<byte>, b: nat) returns (k: nat)
    requires b < |bytes| && IsCurveByte(b) && bytes[b] != 0
    ensures k < |CurveExpectations(bytes)| && ForByte(CurveExpectations(bytes)[k], bytes, b)
  {
    var last := |bytes| - 1;
    if b == last {
      k := |CurveExpectations(bytes[..last])|;
    } else {
      k := CurveByteIsExpected(bytes[..last], b);
    }
  }

  lemma {:induction false} ExpectedIsCurveByte(bytes: seq<byte>, k: nat)
    requires k < |CurveExpectations(bytes)|
    ensures var e := CurveExpectations(bytes)[k]; ForByte(e, bytes, e.commandByte)
  {
    var last := |bytes| - 1;
    if k < |CurveExpectations(bytes[..last])| {
      ExpectedIsCurveByte(bytes[..last], k);
    }
  }

  /** The expectations of a new request are what it asks for. */
  lemma ExpectationsAsk(r: Request, topic: int, value: int)
    ensures Asks(r, topic, value) <==>
            exists k :: 0 <= k < |ExpectationsFor(r)| &&
              ExpectationsFor(r)[k].topic == topic && ExpectationsFor(r)[k].desired == value
  {
    if r.name == SetCurves {
      if b :| AsksByte(r, b, topic, value) {
        var k := CurveByteIsExpected(r.encoded, b);
        assert ExpectationsFor(r)[k].topic == topic;
      }
      if k :| 0 <= k < |ExpectationsFor(r)| && ExpectationsFor(r)[k].topic == topic &&
              ExpectationsFor(r)[k].desired == value {
        ExpectedIsCurveByte(r.encoded, k);
        assert AsksByte(r, ExpectationsFor(r)[k].commandByte, topic, value);
      }
    } else if r.confirmTopic >= 0 {
      assert ExpectationsFor(r)[0].topic == r.confirmTopic;
    }
  }

  lemma NothingAsked(r: Request)
    ensures ExpectationsFor(r) == [] <==> !Verifiable(r)
  {
    if ExpectationsFor(r) != [] {
      var e := ExpectationsFor(r)[0];
      ExpectationsAsk(r, e.topic, e.desired);
      assert Asks(r, e.topic, e.desired);
    }
    if topic, value :| Asks(r, topic, value) {
      ExpectationsAsk(r, topic, value);
    }
  }
}
