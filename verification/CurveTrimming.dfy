/**
 Leaving out unchanged values before a command is sent.  A zero byte in a command means "keep the current
 setting", so a byte that would rewrite the reported value may be cleared.
 */
module CurveTrimming {
  import opened Words
  import opened HeatpumpFrames
  import opened MqttCommands
  import opened MqttReports
  import opened MqttRuns

  /** The setting of byte b after the heat pump, reporting this frame, has received this command. */
  function SettingAfter(frame: Frame, command: seq<byte>, b: nat): byte
    requires b < |command| && b < FRAME_SIZE
  {
    if command[b] != 0 then command[b] else frame.bytes[b]
  }

  /** Byte b is a curve value inside the sent part of the command. */
  predicate Requested(command: seq<byte>, length: nat, b: nat) {
    IsCurveByte(b) && b < length <= |command| && command[b] != 0
  }

  /** The pump already reports the value of byte b. */
  predicate Unchanged(command: seq<byte>, length: nat, frame: Frame, b: nat) {
    Requested(command, length, b) && ReadTopic(frame, CurveTopic(b)) == command[b] as int - 128
  }

  /** The table has 16 rows; RowByte gives the command byte of a row. */
  const CURVE_ROWS: nat := 16

  function RowByte(k: nat): nat {
    if k < 8 then 75 + k else 78 + k
  }

  function RequestedRows(command: seq<byte>, length: nat, k: nat): (n: nat)
    ensures n == 0 <==> forall j :: 0 <= j < k ==> !Requested(command, length, RowByte(j))
  {
    if k == 0 then 0
    else RequestedRows(command, length, k - 1) + if Requested(command, length, RowByte(k - 1)) then 1 else 0
  }

  function UnchangedRows(command: seq<byte>, length: nat, frame: Frame, k: nat): (n: nat)
    ensures n <= RequestedRows(command, length, k)
    ensures n == RequestedRows(command, length, k) <==>
      forall j :: 0 <= j < k && Requested(command, length, RowByte(j)) ==> Unchanged(command, length, frame, RowByte(j))
  {
    if k == 0 then 0
    else
      UnchangedRows(command, length, frame, k - 1) +
      if Unchanged(command, length, frame, RowByte(k - 1)) then 1 else 0
  }

  function TrimmedByte(command: seq<byte>, length: nat, frame: Frame, b: nat): byte
    requires b < |command|
  {
    if Unchanged(command, length, frame, b) then 0 else command[b]
  }

  function Trimmed(command: seq<byte>, length: nat, frame: Frame): (t: seq<byte>)
    ensures |t| == |command|
  {
    seq(|command|, b requires 0 <= b < |command| => TrimmedByte(command, length, frame, b))
  }

  /** The answer of `heatpump_command_has_changes` for a SetCurves command. */
  predicate CurvesHaveChanges(command: seq<byte>, length: nat, report: Option<Frame>) {
    var requested := RequestedRows(command, length, CURVE_ROWS);
    requested != 0 && (report.Some? ==> UnchangedRows(command, length, report.value, CURVE_ROWS) != requested)
  }

  /** The same answer for any other command. */
  predicate OtherHasChanges(name: Name, confirmTopic: int, payload: int, report: Option<Frame>) {
    report.Some? && confirmTopic >= 0 ==>
      !Matches(name, Expectation(confirmTopic, 0, ToInt16(payload), false), report.value)
  }

  function FreshFrame(data: Option<Frame>, dataAt: uint32, waitTime: nat, now: uint32): Option<Frame> {
    if IsFresh(data, dataAt, waitTime, now) then data else None
  }

  /** The row of the table that holds a curve byte. */
  lemma RowOf(b: nat) returns (k: nat)
    requires IsCurveByte(b)
    ensures k < CURVE_ROWS && RowByte(k) == b
  {
    k := if b <= 82 then b - 75 else b - 78;
  }

  /** `heatpump_command_has_changes`: clears omitted curve bytes in place. */
  method HasChanges(name: Name, confirmTopic: int, payload: int, data: Option<Frame>, dataAt: uint32, waitTime: nat,
                    now: uint32, command: array<byte>, length: nat) returns (send: bool)
    requires length <= command.Length
    modifies command
    ensures
      var report := FreshFrame(data, dataAt, waitTime, now);
      var was := old(command[..]);
      if length == 0 then send && command[..] == was
      else if name.SetCurves? then
        && send == CurvesHaveChanges(was, length, report)
        && command[..] == (if report.Some? then Trimmed(was, length, report.value) else was)
      else send == OtherHasChanges(name, confirmTopic, payload, report) && command[..] == was
  {
    if length == 0 { return true; }
    ghost var was := command[..];
    if !name.SetCurves? {
      if !IsFresh(data, dataAt, waitTime, now) { return true; }
      if confirmTopic < 0 { return true; }
      return !Matches(name, Expectation(confirmTopic, 0, ToInt16(payload), false), data.value);
    }
    var requested := CountRequested(command, length);
    if requested == 0 {
      if IsFresh(data, dataAt, waitTime, now) {
        NothingRequested(was, length, data.value);
      }
      return false;
    }
    if !IsFresh(data, dataAt, waitTime, now) { return true; }
    var omitted := ClearUnchanged(command, length, data.value);
    send := omitted != requested;
  }

  lemma NothingRequested(command: seq<byte>, length: nat, frame: Frame)
    requires RequestedRows(command, length, CURVE_ROWS) == 0
    ensures Trimmed(command, length, frame) == command
  {
    forall b | 0 <= b < |command| ensures TrimmedByte(command, length, frame, b) == command[b] {
      if Requested(command, length, b) {
        var k := RowOf(b);
      }
    }
  }

  method CountRequested(command: array<byte>, length: nat) returns (requested: nat)
    requires length <= command.Length
    ensures requested == RequestedRows(command[..], length, CURVE_ROWS)
  {
    requested := 0;
    for k := 0 to CURVE_ROWS
      invariant requested == RequestedRows(command[..], length, k)
    {
      if RowByte(k) < length && command[RowByte(k)] != 0 { requested := requested + 1; }
    }
  }

  /** The command once the rows below byte n have been visited. */
  function TrimmedBelow(command: seq<byte>, length: nat, frame: Frame, n: nat): (t: seq<byte>)
    ensures |t| == |command|
  {
    seq(|command|, b requires 0 <= b < |command| =>
      if b < n then TrimmedByte(command, length, frame, b) else command[b])
  }

  lemma NextRow(command: seq<byte>, length: nat, frame: Frame, k: nat)
    requires k < CURVE_ROWS && length <= |command|
    ensures
      var before, b := TrimmedBelow(command, length, frame, RowByte(k)), RowByte(k);
      TrimmedBelow(command, length, frame, RowByte(k + 1)) ==
        if Unchanged(command, length, frame, b) then before[b := 0] else before
  {
    var before, b := TrimmedBelow(command, length, frame, RowByte(k)), RowByte(k);
    var after := TrimmedBelow(command, length, frame, RowByte(k + 1));
    forall c | 0 <= c < |command| && c != b ensures after[c] == before[c] {
    }
  }

  lemma AllRows(command: seq<byte>, length: nat, frame: Frame)
    ensures TrimmedBelow(command, length, frame, RowByte(0)) == command
    ensures TrimmedBelow(command, length, frame, RowByte(CURVE_ROWS)) == Trimmed(command, length, frame)
  {
  }

  /** One row of the table: its byte is cleared if the frame reports the same value. */
  method ClearRow(command: array<byte>, length: nat, frame: Frame, k: nat, ghost was: seq<byte>)
    returns (omits: bool)
    requires k < CURVE_ROWS && length <= command.Length && |was| == command.Length
    requires command[..] == TrimmedBelow(was, length, frame, RowByte(k))
    modifies command
    ensures command[..] == TrimmedBelow(was, length, frame, RowByte(k + 1))
    ensures omits <==> Unchanged(was, length, frame, RowByte(k))
  {
    var b := RowByte(k);
    NextRow(was, length, frame, k);
    assert b < length ==> command[..][b] == was[b];
    omits := false;
    if b < length && command[b] != 0 {
      if ReadTopic(frame, CurveTopic(b)) == command[b] as int - 128 {
        command[b] := 0;
        omits := true;
      }
    }
  }

  method ClearUnchanged(command: array<byte>, length: nat, frame: Frame) returns (omitted: nat)
    requires length <= command.Length
    modifies command
    ensures command[..] == Trimmed(old(command[..]), length, frame)
    ensures omitted == UnchangedRows(old(command[..]), length, frame, CURVE_ROWS)
  {
    ghost var was := command[..];
    omitted := 0;
    AllRows(was, length, frame);
    for k := 0 to CURVE_ROWS
      invariant omitted == UnchangedRows(was, length, frame, k)
      invariant command[..] == TrimmedBelow(was, length, frame, RowByte(k))
    {
      var omits := ClearRow(command, length, frame, k, was);
      if omits { omitted := omitted + 1; }
    }
  }

  /**
   Trimming preserves meaning: whatever the frame reports, the trimmed command leaves the pump in the same
   settings as the original, and every curve byte still sent changes one.
   */
  lemma TrimmingPreservesMeaning(command: seq<byte>, length: nat, frame: Frame, b: nat)
    requires b < |command| && b < FRAME_SIZE
    ensures SettingAfter(frame, Trimmed(command, length, frame), b) == SettingAfter(frame, command, b)
    ensures Requested(Trimmed(command, length, frame), length, b) ==> SettingAfter(frame, command, b) != frame.bytes[b]
    ensures !IsCurveByte(b) || length <= b ==> Trimmed(command, length, frame)[b] == command[b]
  {
    CurveTablesAgree(b);
  }

  /** With a fresh frame a SetCurves command is skipped exactly when it would change no setting. */
  lemma SkippedExactlyWhenNothingChanges(command: seq<byte>, length: nat, frame: Frame)
    requires length <= |command| <= FRAME_SIZE
    ensures CurvesHaveChanges(command, length, Some(frame)) <==>
      exists b :: 0 <= b < length && IsCurveByte(b) && SettingAfter(frame, command, b) != frame.bytes[b]
  {
    if CurvesHaveChanges(command, length, Some(frame)) {
      var j :| 0 <= j < CURVE_ROWS && Requested(command, length, RowByte(j)) &&
               !Unchanged(command, length, frame, RowByte(j));
      CurveTablesAgree(RowByte(j));
      assert SettingAfter(frame, command, RowByte(j)) != frame.bytes[RowByte(j)];
    }
    if b :| 0 <= b < length && IsCurveByte(b) && SettingAfter(frame, command, b) != frame.bytes[b] {
      CurveTablesAgree(b);
      var j := RowOf(b);
      assert Requested(command, length, RowByte(j)) && !Unchanged(command, length, frame, RowByte(j));
    }
  }

  /** Without a fresh frame it is sent exactly when it sets some curve value. */
  lemma SentUnseenExactly(command: seq<byte>, length: nat)
    requires length <= |command|
    ensures CurvesHaveChanges(command, length, None) <==>
            exists b :: 0 <= b < length && IsCurveByte(b) && command[b] != 0
  {
    if CurvesHaveChanges(command, length, None) {
      var j :| 0 <= j < CURVE_ROWS && Requested(command, length, RowByte(j));
      assert IsCurveByte(RowByte(j)) && command[RowByte(j)] != 0;
    }
    if b :| 0 <= b < length && IsCurveByte(b) && command[b] != 0 {
      var j := RowOf(b);
      assert Requested(command, length, RowByte(j));
    }
  }

  /** Any other command is skipped exactly when a fresh frame reports the value that it asks for. */
  lemma OtherSkippedExactly(name: Name, confirmTopic: int, payload: int, data: Option<Frame>, dataAt: uint32,
                            waitTime: nat, now: uint32)
    ensures !OtherHasChanges(name, confirmTopic, payload, FreshFrame(data, dataAt, waitTime, now)) <==>
            && confirmTopic >= 0 && IsFresh(data, dataAt, waitTime, now)
            && Reports(data.value, name, confirmTopic, ToInt16(payload))
  {
  }

  /** The same holds inside the queue: striking off what a frame reports never changes what the command sets. */
  lemma QueueTrimmingPreservesMeaning(p: Pending, frame: Frame, b: nat)
    requires CurveBytesTrack(p) && p.name.SetCurves? && b < COMMAND_SIZE
    ensures SettingAfter(frame, ApplyKnown(p, frame).command, b) == SettingAfter(frame, p.command, b)
  {
    if frame.bytes[0] == 0x71 && ClearsByte(p.name, p.expectations, frame, b) {
      var k :| 0 <= k < |p.expectations| && p.expectations[k].commandByte == b &&
               NewlyMet(p.name, p.expectations[k], frame);
      assert ByteTracks(p.expectations[k], p.command);
      CurveTablesAgree(b);
    }
  }
}
