/**
 Frames reported by the heat pump, and the table that ties each SetCurves command byte to the
 topic that reports it.
 */
module HeatpumpFrames {
  import opened Words

  const FRAME_SIZE := 203
  const COMMAND_SIZE := 110

  /** `reading` stands for the decoders of the topics that are not curve bytes. */
  datatype RawFrame = RawFrame(bytes: seq<byte>, reading: int -> int)

  type Frame = f: RawFrame | |f.bytes| == FRAME_SIZE
    witness RawFrame(seq(FRAME_SIZE, _ => 0), (topic: int) => 0)

  type Command = c: seq<byte> | |c| == COMMAND_SIZE witness seq(COMMAND_SIZE, _ => 0)

  function ZeroCommand(): Command {
    seq(COMMAND_SIZE, _ => 0)
  }

  /**
   The curve values come in four blocks (zone 1 heat, zone 2 heat, zone 1 cool, zone 2 cool) of target
   high, target low, outside low, outside high.  Topics number the two outside values the other way round.
   */
  function SwapOutside(offset: int): int {
    if offset < 2 then offset else 5 - offset
  }

  /** curveConfirmations as a function: the topic confirmed for a command byte, -1 for other bytes. */
  function CurveTopic(commandByte: int): int {
    if 75 <= commandByte <= 78 then 29 + SwapOutside(commandByte - 75)
    else if 79 <= commandByte <= 82 then 82 + SwapOutside(commandByte - 79)
    else if 86 <= commandByte <= 89 then 72 + SwapOutside(commandByte - 86)
    else if 90 <= commandByte <= 93 then 86 + SwapOutside(commandByte - 90)
    else -1
  }

  predicate IsCurveByte(commandByte: int) {
    75 <= commandByte <= 82 || 86 <= commandByte <= 93
  }

  /** How many curve bytes lie below position n. */
  function CurveBytesBelow(n: int): int {
    if n <= 75 then 0 else if n <= 83 then n - 75 else if n <= 86 then 8 else if n <= 94 then n - 78 else 16
  }

  /** topicBytes for the curve topics: the frame byte that reports a topic, -1 for any other topic. */
  function CurveTopicByte(topic: int): int {
    if 29 <= topic <= 32 then 75 + SwapOutside(topic - 29)
    else if 72 <= topic <= 75 then 86 + SwapOutside(topic - 72)
    else if 82 <= topic <= 85 then 79 + SwapOutside(topic - 82)
    else if 86 <= topic <= 89 then 90 + SwapOutside(topic - 86)
    else -1
  }

  /** `getDataValue(data, topic).toInt()`. */
  function ReadTopic(frame: Frame, topic: int): int {
    var b := CurveTopicByte(topic);
    if b >= 0 then frame.bytes[b] - 128 else (frame.reading)(topic)
  }

  predicate HeaderIsMain(frame: Frame) {
    frame.bytes[0] == 0x71 && frame.bytes[1] == 0xC8 && frame.bytes[2] == 0x01 && frame.bytes[3] == 0x10
  }

  function MaximumAge(waitTime: nat): uint32 {
    var configured := Wrap32(waitTime * 4000);
    if configured < 60000 then 60000 else configured
  }

  /** `currentDataIsFresh`; `data` is None for a null pointer. */
  predicate IsFresh(data: Option<Frame>, dataAt: uint32, waitTime: nat, now: uint32) {
    data.Some? && dataAt != 0 && HeaderIsMain(data.value) && Elapsed(now, dataAt) <= MaximumAge(waitTime)
  }

  /** The rows of `curveConfirmations`. */
  lemma CurveRowsAsListed()
    ensures CurveTopic(75) == 29 && CurveTopic(76) == 30 && CurveTopic(77) == 32 && CurveTopic(78) == 31
    ensures CurveTopic(79) == 82 && CurveTopic(80) == 83 && CurveTopic(81) == 85 && CurveTopic(82) == 84
    ensures CurveTopic(86) == 72 && CurveTopic(87) == 73 && CurveTopic(88) == 75 && CurveTopic(89) == 74
    ensures CurveTopic(90) == 86 && CurveTopic(91) == 87 && CurveTopic(92) == 89 && CurveTopic(93) == 88
  {
  }

  /** The two tables agree: every curve value is reported in the frame byte that sets it. */
  lemma CurveTablesAgree(commandByte: int)
    ensures CurveTopic(commandByte) >= 0 <==> IsCurveByte(commandByte)
    ensures IsCurveByte(commandByte) ==> CurveTopicByte(CurveTopic(commandByte)) == commandByte
  {
  }

  /** The topic of a curve byte reads as the byte of the frame less 128. */
  lemma CurveValueIsReported(frame: Frame, commandByte: nat)
    requires IsCurveByte(commandByte)
    ensures ReadTopic(frame, CurveTopic(commandByte)) == frame.bytes[commandByte] as int - 128
  {
    CurveTablesAgree(commandByte);
  }
}
