/**
 The confirmed MQTT command queue as a specification on values: what queueing, confirming and
 processing do to the table of pending commands.
 */
module MqttCommands {
  import opened Words
  import opened HeatpumpFrames

  const GAP_MS := 7000
  const CONFIRM_TIMEOUT_MS := 30000
  const QUEUE_RETRY_MS := 1000
  const MAX_RETRIES := 3
  const QUEUE_SIZE := 10
  const MAX_EXPECTATIONS := 16

  /** The command names the queue code treats specially, and all others. */
  datatype Name = SetCurves | SetOperationMode | SetHolidayMode | Other(text: string)

  datatype Expectation = Expectation(topic: int, commandByte: nat, desired: int, confirmed: bool)

  datatype Pending = Pending(
    active: bool,
    waitingToSend: bool,
    wasSent: bool,
    length: nat,
    retries: nat,
    expectations: seq<Expectation>,
    sentAt: uint32,
    nextSendAt: uint32,
    sequence: uint32,
    name: Name,
    command: Command)

  function EmptySlot(): Pending {
    Pending(false, false, false, 0, 0, [], 0, 0, 0, Other(""), ZeroCommand())
  }

  datatype QueueState = QueueState(slots: seq<Pending>, sequence: uint32, lastSendAt: uint32, commandWasSent: bool)

  /**
   An MQTT request after table lookup: `known` says the topic names a command, `confirmTopic` is its
   row of commandConfirmations (-1 for none), `length` and `encoded` are what the encoder produced,
   `payload` is the integer value of the message.
   */
  datatype Request = Request(known: bool, name: Name, confirmTopic: int, payload: int, length: nat, encoded: Command)

  datatype Outcome =
    | NotHandled | InvalidValue | EmptyCurves | AlreadyReported | AlreadyPending | QueueFull | Queued(slot: nat)

  // ----- expectations

  /** `expectationMatches`. */
  predicate Matches(name: Name, e: Expectation, frame: Frame) {
    var actual := ReadTopic(frame, e.topic);
    || (name.SetOperationMode? && ((e.desired == 2 && actual == 7) || (e.desired == 6 && actual == 8)))
    || (name.SetHolidayMode? && e.desired == 1 && actual == 2)
    || actual == e.desired
  }

  /** One expectation for every curve byte set in this prefix of a command, in table order. */
  function CurveExpectations(bytes: seq<byte>): (es: seq<Expectation>)
    ensures |es| <= CurveBytesBelow(|bytes|)
    ensures forall i :: 0 <= i < |es| ==> es[i].commandByte < |bytes|
  {
    if bytes == [] then []
    else
      var last := |bytes| - 1;
      var earlier := CurveExpectations(bytes[..last]);
      if IsCurveByte(last) && bytes[last] != 0
      then earlier + [Expectation(CurveTopic(last), last, bytes[last] as int - 128, false)]
      else earlier
  }

  /** `addExpectations`. */
  function ExpectationsFor(r: Request): (es: seq<Expectation>)
    ensures |es| <= MAX_EXPECTATIONS
    ensures forall i :: 0 <= i < |es| ==> es[i].commandByte < COMMAND_SIZE
  {
    if r.name.SetCurves? then CurveExpectations(r.encoded)
    else if r.confirmTopic >= 0 then [Expectation(r.confirmTopic, 0, ToInt16(r.payload), false)]
    else []
  }

  function UnconfirmedCount(es: seq<Expectation>): (n: nat)
    ensures n == 0 <==> forall i :: 0 <= i < |es| ==> es[i].confirmed
  {
    if es == [] then 0
    else UnconfirmedCount(es[..|es| - 1]) + if es[|es| - 1].confirmed then 0 else 1
  }

  /** Every cleared byte lies inside the command. */
  predicate BytesInCommand(slots: seq<Pending>) {
    forall i, k :: 0 <= i < |slots| && 0 <= k < |slots[i].expectations| ==>
      slots[i].expectations[k].commandByte < COMMAND_SIZE
  }

  predicate NewlyMet(name: Name, e: Expectation, frame: Frame) {
    !e.confirmed && Matches(name, e, frame)
  }

  function Mark(name: Name, e: Expectation, frame: Frame): Expectation {
    e.(confirmed := e.confirmed || Matches(name, e, frame))
  }

  /** Expectation flags after a frame: confirmed stays confirmed, a reported value becomes confirmed. */
  function Confirmed(name: Name, es: seq<Expectation>, frame: Frame): (r: seq<Expectation>)
    ensures |r| == |es|
  {
    seq(|es|, i requires 0 <= i < |es| => Mark(name, es[i], frame))
  }

  predicate ClearsByte(name: Name, es: seq<Expectation>, frame: Frame, b: nat) {
    b > 0 && exists i :: 0 <= i < |es| && es[i].commandByte == b && NewlyMet(name, es[i], frame)
  }

  /** Command bytes after a frame: the byte of every newly met expectation is cleared. */
  function Cleared(name: Name, es: seq<Expectation>, command: Command, frame: Frame): Command {
    seq(COMMAND_SIZE, b requires 0 <= b < COMMAND_SIZE =>
      if ClearsByte(name, es, frame, b) then 0 else command[b])
  }

  /** `applyKnownState` for a frame that is present. */
  function ApplyKnown(p: Pending, frame: Frame): Pending {
    if frame.bytes[0] != 0x71 then p
    else p.(expectations := Confirmed(p.name, p.expectations, frame),
            command := Cleared(p.name, p.expectations, p.command, frame))
  }

  /** `sameRequest`: same name and same wanted values, or same bytes when nothing is verifiable. */
  predicate SameRequest(left: Pending, right: Pending) {
    && left.name == right.name
    && |left.expectations| == |right.expectations|
    && (if left.expectations == []
        then forall b :: 0 <= b < left.length && b < COMMAND_SIZE ==> left.command[b] == right.command[b]
        else forall i :: 0 <= i < |left.expectations| ==>
          left.expectations[i].topic == right.expectations[i].topic &&
          left.expectations[i].desired == right.expectations[i].desired)
  }

  // ----- queueing a request

  function Incoming(r: Request, now: uint32): Pending {
    Pending(true, true, false, r.length, 0, ExpectationsFor(r), 0, now, 0, r.name, r.encoded)
  }

  /** The incoming request after a fresh frame has struck off what is already reported. */
  function Prepared(r: Request, data: Option<Frame>, dataAt: uint32, waitTime: nat, now: uint32): Pending {
    var p := Incoming(r, now);
    if IsFresh(data, dataAt, waitTime, now) then ApplyKnown(p, data.value) else p
  }

  /** First index from `k` on whose slot is active under this name; |slots| when there is none. */
  function FirstNamed(slots: seq<Pending>, name: Name, k: nat): (i: nat)
    requires k <= |slots|
    ensures k <= i <= |slots|
    ensures i < |slots| ==> slots[i].active && slots[i].name == name
    ensures forall j :: k <= j < i ==> !(slots[j].active && slots[j].name == name)
    decreases |slots| - k
  {
    if k == |slots| || (slots[k].active && slots[k].name == name) then k else FirstNamed(slots, name, k + 1)
  }

  function FirstFree(slots: seq<Pending>, k: nat): (i: nat)
    requires k <= |slots|
    ensures k <= i <= |slots|
    ensures i < |slots| ==> !slots[i].active
    ensures forall j :: k <= j < i ==> slots[j].active
    decreases |slots| - k
  {
    if k == |slots| || !slots[k].active then k else FirstFree(slots, k + 1)
  }

  function Place(slots: seq<Pending>, incoming: Pending): Outcome {
    var i := FirstNamed(slots, incoming.name, 0);
    if i < |slots| then
      if SameRequest(slots[i], incoming) then AlreadyPending else Queued(i)
    else
      var f := FirstFree(slots, 0);
      if f < |slots| then Queued(f) else QueueFull
  }

  function QueueOutcome(s: QueueState, r: Request, data: Option<Frame>, dataAt: uint32, waitTime: nat,
                        now: uint32): (o: Outcome)
    ensures o.Queued? ==> o.slot < |s.slots|
  {
    if !r.known then NotHandled
    else if r.length == 0 || r.length > COMMAND_SIZE then InvalidValue
    else if r.name.SetCurves? && ExpectationsFor(r) == [] then EmptyCurves
    else
      var p := Prepared(r, data, dataAt, waitTime, now);
      if p.expectations != [] && UnconfirmedCount(p.expectations) == 0 then AlreadyReported
      else Place(s.slots, p)
  }

  /** `queue_mqtt_heatpump_command`. */
  function QueueStep(s: QueueState, r: Request, data: Option<Frame>, dataAt: uint32, waitTime: nat,
                     now: uint32): QueueState {
    var o := QueueOutcome(s, r, data, dataAt, waitTime, now);
    if !o.Queued? then s
    else
      var n := Wrap32(s.sequence + 1);
      s.(slots := s.slots[o.slot := Prepared(r, data, dataAt, waitTime, now).(sequence := n)], sequence := n)
  }

  // ----- confirming from a received frame

  function ConfirmSlot(p: Pending, frame: Frame): Pending {
    if !p.active || p.expectations == [] then p
    else
      var q := ApplyKnown(p, frame);
      if UnconfirmedCount(q.expectations) == 0 then q.(active := false) else q
  }

  function ConfirmAll(slots: seq<Pending>, frame: Frame): seq<Pending> {
    seq(|slots|, i requires 0 <= i < |slots| => ConfirmSlot(slots[i], frame))
  }

  /** `confirm_mqtt_heatpump_commands`. */
  function ConfirmStep(s: QueueState, frame: Frame): QueueState {
    s.(slots := ConfirmAll(s.slots, frame))
  }

  // ----- timeouts and sending

  predicate TimedOut(p: Pending, now: uint32) {
    && p.active && !p.waitingToSend && p.wasSent && p.expectations != []
    && Elapsed(now, p.sentAt) >= CONFIRM_TIMEOUT_MS
  }

  predicate WillRetry(p: Pending, now: uint32) {
    TimedOut(p, now) && p.retries < MAX_RETRIES
  }

  function AfterTimeout(p: Pending, now: uint32, sequence: uint32): Pending {
    if WillRetry(p, now) then
      p.(retries := p.retries + 1, waitingToSend := true, nextSendAt := now, sequence := sequence)
    else if TimedOut(p, now) then p.(active := false)
    else p
  }

  /** How many of the first k slots are re-queued by the timeout pass. */
  function RetryCount(slots: seq<Pending>, k: nat, now: uint32): (n: nat)
    requires k <= |slots|
    ensures n <= k
  {
    if k == 0 then 0 else RetryCount(slots, k - 1, now) + if WillRetry(slots[k - 1], now) then 1 else 0
  }

  function TimedOutSlot(slots: seq<Pending>, i: nat, now: uint32, sequence: uint32): Pending
    requires i < |slots|
  {
    AfterTimeout(slots[i], now, Wrap32(sequence + RetryCount(slots, i, now) + 1))
  }

  /** Every timed-out slot is re-queued with the next sequence number, or given up. */
  function TimeoutPass(slots: seq<Pending>, now: uint32, sequence: uint32): (r: seq<Pending>)
    ensures |r| == |slots|
  {
    seq(|slots|, i requires 0 <= i < |slots| => TimedOutSlot(slots, i, now, sequence))
  }

  predicate Due(p: Pending, now: uint32) {
    p.active && p.waitingToSend && Reached(now, p.nextSendAt)
  }

  /** The due slot with the least sequence number among the first k; -1 when none is due. */
  function Select(slots: seq<Pending>, k: nat, now: uint32): (i: int)
    requires k <= |slots|
    ensures -1 <= i < k
    ensures i >= 0 ==> Due(slots[i], now)
    ensures i >= 0 ==> forall j :: 0 <= j < k && Due(slots[j], now) ==> slots[i].sequence <= slots[j].sequence
    ensures i == -1 ==> forall j :: 0 <= j < k ==> !Due(slots[j], now)
  {
    if k == 0 then -1
    else
      var best := Select(slots, k - 1, now);
      if Due(slots[k - 1], now) && (best == -1 || slots[k - 1].sequence < slots[best].sequence) then k - 1 else best
  }

  predicate GapOpen(s: QueueState, now: uint32) {
    !s.commandWasSent || Elapsed(now, s.lastSendAt) >= GAP_MS
  }

  function AfterTimeouts(s: QueueState, now: uint32): QueueState {
    s.(slots := TimeoutPass(s.slots, now, s.sequence),
       sequence := Wrap32(s.sequence + RetryCount(s.slots, |s.slots|, now)))
  }

  /** The slot handed to the sender by this pass; -1 for none. */
  function Attempt(s: QueueState, now: uint32): (i: int)
    ensures -1 <= i < |s.slots|
  {
    var t := AfterTimeouts(s, now);
    if GapOpen(s, now) then Select(t.slots, |t.slots|, now) else -1
  }

  function AfterSend(p: Pending, now: uint32): Pending {
    p.(waitingToSend := false, wasSent := true, sentAt := now, active := p.active && p.expectations != [])
  }

  /** `process_mqtt_heatpump_commands`; sendOk is what send_command answers. */
  function ProcessStep(s: QueueState, now: uint32, sendOk: bool): QueueState {
    var t := AfterTimeouts(s, now);
    var i := Attempt(s, now);
    if i == -1 then t
    else if !sendOk then
      t.(slots := t.slots[i := t.slots[i].(nextSendAt := Wrap32(now + QUEUE_RETRY_MS))])
    else
      t.(slots := t.slots[i := AfterSend(t.slots[i], now)], lastSendAt := now, commandWasSent := true)
  }
}
