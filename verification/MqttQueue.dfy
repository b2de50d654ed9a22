/** The queue as the controller keeps it: a fixed array of slots changed in place. */
module MqttQueue {
  import opened Words
  import opened HeatpumpFrames
  import opened MqttCommands

  class CommandQueue {
    const slots: array<Pending>
    var sequence: uint32
    var lastSendAt: uint32
    var commandWasSent: bool

    ghost predicate Valid()
      reads this, slots
    {
      slots.Length == QUEUE_SIZE && BytesInCommand(slots[..])
    }

    ghost function State(): QueueState
      reads this, slots
    {
      QueueState(slots[..], sequence, lastSendAt, commandWasSent)
    }

    constructor ()
      ensures Valid() && fresh(slots)
      ensures State() == QueueState(seq(QUEUE_SIZE, _ => EmptySlot()), 0, 0, false)
    {
      slots := new Pending[QUEUE_SIZE](_ => EmptySlot());
      sequence, lastSendAt, commandWasSent := 0, 0, false;
    }

    /** The request as it would be queued, with what a fresh frame reports struck off. */
    method Prepare(r: Request, data: Option<Frame>, dataAt: uint32, waitTime: nat, now: uint32) returns (p: Pending)
      ensures p == Prepared(r, data, dataAt, waitTime, now)
      ensures forall i :: 0 <= i < |p.expectations| ==> p.expectations[i].commandByte < COMMAND_SIZE
    {
      p := Incoming(r, now);
      if IsFresh(data, dataAt, waitTime, now) {
        p := ApplyKnownState(p, data.value);
      }
    }

    /** Writes a request into the slot that the scan finds, with the next number. */
    method Insert(incoming: Pending) returns (outcome: Outcome)
      requires Valid()
      requires forall i :: 0 <= i < |incoming.expectations| ==> incoming.expectations[i].commandByte < COMMAND_SIZE
      modifies this`sequence, slots
      ensures Valid() && outcome == Place(old(slots[..]), incoming)
      ensures sequence == if outcome.Queued? then Wrap32(old(sequence) + 1) else old(sequence)
      ensures slots[..] == if outcome.Queued? then old(slots[..])[outcome.slot := incoming.(sequence := sequence)]
                           else old(slots[..])
    {
      outcome := FindSlot(incoming);
      if outcome.Queued? {
        sequence := Wrap32(sequence + 1);
        slots[outcome.slot] := incoming.(sequence := sequence);
      }
    }

    /** `queue_mqtt_heatpump_command`: one scan finds the slot to replace or the first free one. */
    method Queue(r: Request, data: Option<Frame>, dataAt: uint32, waitTime: nat, now: uint32) returns (outcome: Outcome)
      requires Valid()
      modifies this, slots
      ensures Valid()
      ensures outcome == QueueOutcome(old(State()), r, data, dataAt, waitTime, now)
      ensures State() == QueueStep(old(State()), r, data, dataAt, waitTime, now)
    {
      if !r.known { return NotHandled; }
      if r.length == 0 || r.length > COMMAND_SIZE { return InvalidValue; }
      if r.name.SetCurves? && ExpectationsFor(r) == [] { return EmptyCurves; }
      var incoming := Prepare(r, data, dataAt, waitTime, now);
      if incoming.expectations != [] && UnconfirmedCount(incoming.expectations) == 0 { return AlreadyReported; }
      PlacedOutcome(State(), r, data, dataAt, waitTime, now, incoming);
      outcome := Insert(incoming);
    }

    static lemma PlacedOutcome(s: QueueState, r: Request, data: Option<Frame>, dataAt: uint32, waitTime: nat,
                               now: uint32,
                               p: Pending)
      requires r.known && 0 < r.length <= COMMAND_SIZE && (r.name.SetCurves? ==> ExpectationsFor(r) != [])
      requires p == Prepared(r, data, dataAt, waitTime, now)
      requires p.expectations == [] || UnconfirmedCount(p.expectations) != 0
      ensures
        var o, n := Place(s.slots, p), Wrap32(s.sequence + 1);
        && QueueOutcome(s, r, data, dataAt, waitTime, now) == o
        && QueueStep(s, r, data, dataAt, waitTime, now) ==
           if o.Queued? then s.(slots := s.slots[o.slot := p.(sequence := n)], sequence := n) else s
    {
    }

    /** The scan over the table: the slot of the same name decides, else the first free slot is taken. */
    method FindSlot(incoming: Pending) returns (outcome: Outcome)
      requires Valid()
      ensures outcome == Place(slots[..], incoming)
    {
      var free := -1;
      var i := 0;
      while i < slots.Length && !(slots[i].active && slots[i].name == incoming.name)
        invariant 0 <= i <= slots.Length
        invariant FirstNamed(slots[..], incoming.name, 0) == FirstNamed(slots[..], incoming.name, i)
        invariant free == -1 || (0 <= free < i && FirstFree(slots[..], 0) == free)
        invariant free == -1 ==> FirstFree(slots[..], 0) == FirstFree(slots[..], i)
      {
        if !slots[i].active && free == -1 { free := i; }
        i := i + 1;
      }
      if i < slots.Length {
        return if SameRequest(slots[i], incoming) then AlreadyPending else Queued(i);
      }
      return if free == -1 then QueueFull else Queued(free);
    }

    /** `applyKnownState`: sets flags and clears command bytes one expectation at a time. */
    method ApplyKnownState(p: Pending, frame: Frame) returns (q: Pending)
      requires forall i :: 0 <= i < |p.expectations| ==> p.expectations[i].commandByte < COMMAND_SIZE
      ensures q == ApplyKnown(p, frame)
    {
      if frame.bytes[0] != 0x71 { return p; }
      var es, command := p.expectations, p.command;
      var i := 0;
      while i < |p.expectations|
        invariant 0 <= i <= |p.expectations| == |es|
        invariant forall k :: 0 <= k < i ==> es[k] == Mark(p.name, p.expectations[k], frame)
        invariant forall k :: i <= k < |es| ==> es[k] == p.expectations[k]
        invariant command == Cleared(p.name, p.expectations[..i], p.command, frame)
      {
        ClearedSnoc(p, i, frame);
        if NewlyMet(p.name, es[i], frame) {
          if es[i].commandByte > 0 {
            command := command[es[i].commandByte := 0];
          }
          es := es[i := es[i].(confirmed := true)];
        }
        i := i + 1;
      }
      assert p.expectations[..i] == p.expectations;
      assert es == Confirmed(p.name, p.expectations, frame);
      q := p.(expectations := es, command := command);
    }

    /** One more expectation clears at most its own byte. */
    static lemma ClearedSnoc(p: Pending, i: nat, frame: Frame)
      requires i < |p.expectations| && p.expectations[i].commandByte < COMMAND_SIZE
      ensures
        var before := Cleared(p.name, p.expectations[..i], p.command, frame);
        var e := p.expectations[i];
        Cleared(p.name, p.expectations[..i + 1], p.command, frame) ==
          if NewlyMet(p.name, e, frame) && e.commandByte > 0 then before[e.commandByte := 0] else before
    {
      var shorter, longer := p.expectations[..i], p.expectations[..i + 1];
      assert longer == shorter + [p.expectations[i]];
      forall b | 0 <= b < COMMAND_SIZE
        ensures ClearsByte(p.name, longer, frame, b) <==>
          (ClearsByte(p.name, shorter, frame, b) ||
           (b > 0 && p.expectations[i].commandByte == b && NewlyMet(p.name, p.expectations[i], frame)))
      {
        if ClearsByte(p.name, shorter, frame, b) {
          var k :| 0 <= k < i && shorter[k].commandByte == b && NewlyMet(p.name, shorter[k], frame);
          assert longer[k] == shorter[k];
        }
        if b > 0 && p.expectations[i].commandByte == b && NewlyMet(p.name, p.expectations[i], frame) {
          assert longer[i] == p.expectations[i];
        }
      }
    }

    /** `confirm_mqtt_heatpump_commands`. */
    method Confirm(frame: Frame)
      requires Valid()
      modifies slots
      ensures Valid() && State() == ConfirmStep(old(State()), frame)
    {
      var i := 0;
      while i < slots.Length
        invariant 0 <= i <= slots.Length
        invariant forall j :: 0 <= j < i ==> slots[j] == ConfirmSlot(old(slots[j]), frame)
        invariant forall j :: i <= j < slots.Length ==> slots[j] == old(slots[j])
      {
        if slots[i].active && slots[i].expectations != [] {
          var p := ApplyKnownState(slots[i], frame);
          if UnconfirmedCount(p.expectations) == 0 {
            p := p.(active := false);
          }
          slots[i] := p;
        }
        i := i + 1;
      }
      assert slots[..] == ConfirmAll(old(slots[..]), frame);
    }

    /** One turn of the timeout loop. */
    method ProcessTimeout(i: nat, now: uint32)
      requires Valid() && i < slots.Length
      modifies slots, `sequence
      ensures Valid()
      ensures slots[..] == old(slots[..])[i := AfterTimeout(old(slots[i]), now, Wrap32(old(sequence) + 1))]
      ensures sequence == if WillRetry(old(slots[i]), now) then Wrap32(old(sequence) + 1) else old(sequence)
    {
      if TimedOut(slots[i], now) {
        if slots[i].retries >= MAX_RETRIES {
          slots[i] := slots[i].(active := false);
        } else {
          sequence := Wrap32(sequence + 1);
          slots[i] := slots[i].(retries := slots[i].retries + 1, waitingToSend := true,
                                nextSendAt := now, sequence := sequence);
        }
      }
    }

    /** The slots once the first k have had their turn. */
    static ghost function TurnedFirst(before: seq<Pending>, k: nat, now: uint32, first: uint32): (r: seq<Pending>)
      ensures |r| == |before|
    {
      seq(|before|, j requires 0 <= j < |before| => if j < k then TimedOutSlot(before, j, now, first) else before[j])
    }

    /** The number given out last before turn i. */
    static ghost function NumberBefore(before: seq<Pending>, i: nat, now: uint32, first: uint32): uint32
      requires i <= |before|
    {
      Wrap32(first + RetryCount(before, i, now))
    }

    /** Turn i is a timeout with the number after those given out before. */
    static lemma NextTurn(before: seq<Pending>, i: nat, now: uint32, first: uint32, here: uint32)
      requires i < |before| && here == NumberBefore(before, i, now, first)
      ensures TurnedFirst(before, i, now, first)[i] == before[i]
      ensures TurnedFirst(before, i + 1, now, first) ==
              TurnedFirst(before, i, now, first)[i := AfterTimeout(before[i], now, Wrap32(here + 1))]
      ensures NumberBefore(before, i + 1, now, first) == if WillRetry(before[i], now) then Wrap32(here + 1) else here
    {
      WrapOfSum(first + RetryCount(before, i, now), 1);
    }

    /** One turn of the loop, as far as the slots and the number go. */
    method ProcessTurn(i: nat, now: uint32, ghost before: seq<Pending>, ghost first: uint32)
      requires Valid() && i < slots.Length == |before|
      requires slots[..] == TurnedFirst(before, i, now, first) && sequence == NumberBefore(before, i, now, first)
      modifies slots, `sequence
      ensures Valid()
      ensures slots[..] == TurnedFirst(before, i + 1, now, first) && sequence == NumberBefore(before, i + 1, now, first)
    {
      NextTurn(before, i, now, first, sequence);
      assert slots[i] == slots[..][i];
      ProcessTimeout(i, now);
    }

    /** The timeout loop of `process_mqtt_heatpump_commands`. */
    method ProcessTimeouts(now: uint32)
      requires Valid()
      modifies slots, `sequence
      ensures Valid() && State() == AfterTimeouts(old(State()), now)
    {
      ghost var before, first := slots[..], sequence;
      assert TurnedFirst(before, 0, now, first) == before;
      for i := 0 to slots.Length
        invariant Valid()
        invariant slots[..] == TurnedFirst(before, i, now, first) && sequence == NumberBefore(before, i, now, first)
      {
        ProcessTurn(i, now, before, first);
      }
      assert slots[..] == TimeoutPass(before, now, first);
    }

    /** The search for the next slot to send. */
    method FindNext(now: uint32) returns (next: int)
      requires Valid()
      ensures next == Select(slots[..], slots.Length, now)
    {
      next := -1;
      var i := 0;
      while i < slots.Length
        invariant 0 <= i <= slots.Length
        invariant next == Select(slots[..], i, now)
      {
        if Due(slots[i], now) && (next == -1 || slots[i].sequence < slots[next].sequence) {
          next := i;
        }
        i := i + 1;
      }
    }

    /** `process_mqtt_heatpump_commands`; attempted is the slot, and command and length are what the sender is given. */
    method Process(now: uint32, sendOk: bool) returns (attempted: int, command: Command, length: nat)
      requires Valid()
      modifies this, slots
      ensures Valid() && State() == ProcessStep(old(State()), now, sendOk)
      ensures attempted == Attempt(old(State()), now)
      ensures attempted != -1 ==>
        var p := AfterTimeouts(old(State()), now).slots[attempted];
        command == p.command && length == p.length
    {
      attempted, command, length := -1, ZeroCommand(), 0;
      ProcessTimeouts(now);
      if commandWasSent && Elapsed(now, lastSendAt) < GAP_MS { return; }
      attempted := FindNext(now);
      if attempted == -1 { return; }
      command, length := slots[attempted].command, slots[attempted].length;
      if !sendOk {
        slots[attempted] := slots[attempted].(nextSendAt := Wrap32(now + QUEUE_RETRY_MS));
        return;
      }
      var next := slots[attempted].(waitingToSend := false, wasSent := true, sentAt := now);
      lastSendAt, commandWasSent := now, true;
      if next.expectations == [] {
        next := next.(active := false);
      }
      slots[attempted] := next;
    }
  }
}
