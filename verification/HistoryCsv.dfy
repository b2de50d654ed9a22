/** Stored samples: the CSV row of a sample, and the parser that reads it back. */
module HistoryCsv {
  import opened Words
  import opened HistorySamples
  import opened CsvNumbers

  const FIRST_TIMESTAMP := 1704067200
  const COLUMNS := 32
  const FEWEST_COLUMNS := 26

  const STATE_HEATING := 2
  const STATE_DHW := 3
  const STATE_DEFROST := 4
  const LAST_STATE := 6

  // ----- lines and fields

  function Joined(fields: seq<string>): string
    requires fields != []
  {
    if |fields| == 1 then fields[0] else fields[0] + [','] + Joined(fields[1..])
  }

  function Split(line: string): (fields: seq<string>)
    ensures fields != []
    decreases |line|
  {
    var i := Find(line, ',');
    [line[..i]] + if i == |line| then [] else Split(line[i + 1..])
  }

  lemma Regrouped(a: seq<string>, x: string, b: seq<string>)
    ensures a + ([x] + b) == a + [x] + b
  {
  }

  /** Cuts the line at its separators; a line of more than 32 fields is refused. */
  method SplitFields(line: string) returns (fields: seq<string>, ok: bool)
    ensures ok <==> |Split(line)| <= COLUMNS
    ensures ok ==> fields == Split(line)
  {
    fields := [];
    var cursor := line;
    while true
      invariant |fields| < COLUMNS && fields + Split(cursor) == Split(line)
      decreases |cursor|
    {
      var separator := Find(cursor, ',');
      Regrouped(fields, cursor[..separator], if separator == |cursor| then [] else Split(cursor[separator + 1..]));
      fields := fields + [cursor[..separator]];
      if separator == |cursor| { return fields, true; }
      if |fields| == COLUMNS { return fields, false; }
      cursor := cursor[separator + 1..];
    }
  }

  lemma FirstField(front: string, back: string)
    requires ',' !in front
    ensures Split(front + [','] + back) == [front] + Split(back)
    ensures Split(front) == [front]
  {
    FindAfter(front, ',', back);
    var line := front + [','] + back;
    assert line[..|front|] == front && line[|front| + 1..] == back;
    assert front[..|front|] == front;
  }

  lemma JoinedFront(fields: seq<string>)
    requires |fields| > 1
    ensures Joined(fields) == fields[0] + [','] + Joined(fields[1..])
  {
  }

  lemma {:induction false} SplitOfJoined(fields: seq<string>)
    requires fields != [] && forall k :: 0 <= k < |fields| ==> ',' !in fields[k]
    ensures Split(Joined(fields)) == fields
  {
    if |fields| == 1 {
      FirstField(fields[0], "");
      assert fields == [fields[0]];
    } else {
      var rest := fields[1..];
      JoinedFront(fields);
      FirstField(fields[0], Joined(rest));
      SplitOfJoined(rest);
      assert fields == [fields[0]] + rest;
    }
  }

  // ----- printing

  /** Text that the row carries and that this model does not interpret: the zone 1 request, its meaning and the COP. */
  datatype Uninterpreted = Uninterpreted(request: string, semantic: string, cop: string)

  predicate CommaFree(u: Uninterpreted) {
    ',' !in u.request && ',' !in u.semantic && ',' !in u.cop
  }

  function Fixed(v: Option<int>, places: nat): string {
    if v.None? then "" else PrintFixed(v.value, places)
  }

  function Flag(v: Option<bool>): string {
    if v.None? then "" else if v.value then "1" else "0"
  }

  /** The numeric readings of a row. */
  predicate IsReading(column: nat) {
    1 <= column <= 17 || column == 28 || column == 29
  }

  predicate IsSigned(column: nat) {
    1 <= column <= 8 || column == 12 || column == 28
  }

  /** Decimals of a reading: 0.1 degrees, Hz and A, 0.01 l/min and kW, W as kW, and rpm. */
  function Places(column: nat): nat {
    if column == 11 then 0 else if column == 9 || column == 12 then 2 else if 13 <= column <= 17 then 3 else 1
  }

  function StoredReading(s: Sample, column: nat): Option<int>
    requires IsReading(column)
  {
    if column == 1 then s.outside
    else if column == 2 then s.extra.inlet
    else if column == 3 then s.extra.outlet
    else if column == 4 then s.extra.target
    else if column == 5 then s.extra.dhw
    else if column == 6 then s.extra.dhwTarget
    else if column == 7 then s.extra.room
    else if column == 8 then s.extra.roomTarget
    else if column == 9 then s.extra.flow
    else if column == 10 then s.extra.compressorHz
    else if column == 11 then s.extra.pumpRpm
    else if column == 12 then s.thermalPower
    else if column == 13 then s.electricalPower
    else if column == 14 then s.extra.heatProduction
    else if column == 15 then s.extra.heatConsumption
    else if column == 16 then s.extra.dhwProduction
    else if column == 17 then s.extra.dhwConsumption
    else if column == 28 then s.extra.evaOutlet
    else s.extra.compressorCurrent
  }

  /** The columns of a row, in the order of the header line. */
  function Column(s: Sample, u: Uninterpreted, column: nat): string {
    if IsReading(column) then Fixed(StoredReading(s, column), Places(column))
    else if column == 0 then Digits(s.timestamp)
    else if column == 18 then u.request
    else if column == 19 then u.semantic
    else if column == 20 then Fixed(s.extra.curveShift, 0)
    else if column == 21 then Digits(s.operatingMode)
    else if column == 22 then Digits(s.valveState)
    else if column == 23 then Digits(s.operatingState)
    else if column == 24 then Digits(if s.defrost then 1 else 0)
    else if column == 25 then u.cop
    else if column == 26 then Flag(s.extra.internalHeater)
    else if column == 27 then Flag(s.extra.externalHeater)
    else if column == 30 then Digits(s.bootId)
    else Digits(s.electricalSource)
  }

  function Row(s: Sample, u: Uninterpreted): (fields: seq<string>)
    ensures |fields| == COLUMNS && forall i :: 0 <= i < COLUMNS ==> fields[i] == Column(s, u, i)
  {
    seq(COLUMNS, i requires 0 <= i < COLUMNS => Column(s, u, i))
  }

  function PrintRow(s: Sample, u: Uninterpreted): string {
    Joined(Row(s, u))
  }

  // ----- parsing

  function ReadSigned(text: string, places: nat): Option<int> {
    var v := ParseFloat(text);
    if v.None? then None else Some(ScaledSigned(v.value, places))
  }

  function ReadUnsigned(text: string, places: nat): Option<int> {
    var v := ParseFloat(text);
    if v.None? || v.value < 0.0 then None else Some(ScaledUnsigned(v.value, places))
  }

  /** Digits up to 127, else any whole number from -127 to 127. */
  function ReadShift(text: string): Option<int> {
    var n, v := ParseUnsigned(text, 127), ParseFloat(text);
    if n.Some? then Some(n.value)
    else if v.Some? && -127.0 <= v.value <= 127.0 && v.value == Lround(v.value) as real then Some(Lround(v.value))
    else None
  }

  function ReadSmall(text: string, maximum: nat): nat {
    var n := ParseUnsigned(text, maximum);
    if n.Some? then n.value else 0
  }

  function ReadFlag(text: string): Option<bool> {
    var n := ParseUnsigned(text, 1);
    if n.None? then None else Some(n.value != 0)
  }

  /** Columns after the 26th may be missing. */
  function Field(fields: seq<string>, i: nat): string {
    if i < |fields| then fields[i] else ""
  }

  function ParsedReading(f: seq<string>, column: nat): Option<int> {
    if !IsReading(column) then None
    else if IsSigned(column) then ReadSigned(Field(f, column), Places(column))
    else ReadUnsigned(Field(f, column), Places(column))
  }

  function ParsedReadings(f: seq<string>): (r: seq<Option<int>>)
    ensures |r| == COLUMNS && forall i :: 0 <= i < COLUMNS ==> r[i] == ParsedReading(f, i)
  {
    seq(COLUMNS, i requires 0 <= i < COLUMNS => ParsedReading(f, i))
  }

  /** What the columns 20 to 27, 30 and 31 say. */
  datatype Settings = Settings(
    timestamp: nat,
    bootId: nat,
    electricalSource: nat,
    mode: nat,
    valve: nat,
    state: nat,
    defrost: bool,
    curveShift: Option<int>,
    internalHeater: Option<bool>,
    externalHeater: Option<bool>)

  /** Flags that are derived from the readings, not stored. */
  function CompressorRuns(hz: Option<int>, state: nat): bool {
    if hz.Some? then hz.value > 5 else state == STATE_HEATING || state == STATE_DHW || state == STATE_DEFROST
  }

  function ParsedSettings(f: seq<string>): Option<Settings>
    requires |f| >= FEWEST_COLUMNS
  {
    var timestamp, boot, source :=
      ParseUnsigned(f[0], TWO_32 - 1), ParseUnsigned(Field(f, 30), TWO_32 - 1), ParseUnsigned(Field(f, 31), 255);
    if timestamp.None? || timestamp.value < FIRST_TIMESTAMP then None
    else if (|f| > 30 && boot.None?) || (|f| > 31 && source.None?) then None
    else
      Some(Settings(timestamp.value, if boot.Some? then boot.value else 0, if source.Some? then source.value else 0,
                    ReadSmall(f[21], 255), ReadSmall(f[22], 255), ReadSmall(f[23], LAST_STATE),
                    ReadSmall(f[24], 1) != 0, ReadShift(f[20]), ReadFlag(Field(f, 26)), ReadFlag(Field(f, 27))))
  }

  function ExtraOf(r: seq<Option<int>>, t: Settings): Extra
    requires |r| == COLUMNS
  {
    Extra(r[2], r[3], r[4], r[5], r[6], r[7], r[8], r[9], r[10], r[11], r[14], r[15], r[16], r[17], r[28], r[29],
          t.curveShift, t.internalHeater, t.externalHeater)
  }

  function SampleOf(r: seq<Option<int>>, t: Settings): Sample
    requires |r| == COLUMNS
  {
    Sample(0, t.bootId, t.timestamp, 0, true, CompressorRuns(r[10], t.state), t.state != 0,
           t.state == STATE_DHW || t.valve == 1, t.defrost || t.state == STATE_DEFROST,
           t.mode, t.valve, t.state, t.electricalSource, r[1], r[12], r[13], ExtraOf(r, t))
  }

  /** The part of `parseStoredHistorySample` behind the field split. */
  function ParseFields(f: seq<string>): Option<Sample>
    requires |f| >= FEWEST_COLUMNS
  {
    var settings := ParsedSettings(f);
    if settings.None? then None else Some(SampleOf(ParsedReadings(f), settings.value))
  }

  const HEADER_START := "timestamp,"

  /** `parseStoredHistorySample`. */
  function ParseRow(line: string): Option<Sample> {
    var fields := Split(line);
    if HEADER_START <= line || |fields| > COLUMNS || |fields| < FEWEST_COLUMNS then None else ParseFields(fields)
  }

  method ParseStoredSample(line: string) returns (sample: Option<Sample>)
    ensures sample == ParseRow(line)
  {
    if HEADER_START <= line { return None; }
    var fields, ok := SplitFields(line);
    if !ok || |fields| < FEWEST_COLUMNS { return None; }
    return ParseFields(fields);
  }

  // ----- round trip

  predicate Int16(v: Option<int>) {
    v.Some? ==> -32768 <= v.value <= 32767
  }

  predicate UInt16(v: Option<int>) {
    v.Some? ==> 0 <= v.value <= 65535
  }

  /** The field widths of `HistorySample`, and the operating states there are. */
  predicate Storable(s: Sample) {
    && s.timestamp < TWO_32 && s.bootId < TWO_32
    && s.operatingMode < 256 && s.valveState < 256 && s.electricalSource < 256
    && s.operatingState <= LAST_STATE
    && (forall i :: 0 <= i < COLUMNS && IsReading(i) ==>
          if IsSigned(i) then Int16(StoredReading(s, i)) else UInt16(StoredReading(s, i)))
    && (s.extra.curveShift.Some? ==> -128 <= s.extra.curveShift.value <= 127)
  }

  /** What a stored sample is after a reboot. */
  function Restored(s: Sample): Sample {
    s.(sequence := 0, uptimeSeconds := 0, timeValid := true,
       compressor := CompressorRuns(s.extra.compressorHz, s.operatingState),
       heatpump := s.operatingState != 0,
       dhwActive := s.operatingState == STATE_DHW || s.valveState == 1,
       defrost := s.defrost || s.operatingState == STATE_DEFROST,
       extra := s.extra.(curveShift := if s.extra.curveShift == Some(-128) then None else s.extra.curveShift))
  }

  lemma EmptyIsNoNumber(maximum: nat)
    ensures ParseFloat("") == None && ParseUnsigned("", maximum) == None
  {
  }

  lemma SignedColumn(v: Option<int>, places: nat)
    requires Int16(v)
    ensures ReadSigned(Fixed(v, places), places) == v
  {
    EmptyIsNoNumber(0);
    if v.Some? {
      var x := ReadBack(v.value, places);
    }
  }

  lemma UnsignedColumn(v: Option<int>, places: nat)
    requires UInt16(v)
    ensures ReadUnsigned(Fixed(v, places), places) == v
  {
    EmptyIsNoNumber(0);
    if v.Some? {
      var x := ReadBack(v.value, places);
    }
  }

  lemma SmallColumn(n: nat, maximum: nat)
    requires n <= maximum < TWO_32
    ensures ParseUnsigned(Digits(n), maximum) == Some(n) && ReadSmall(Digits(n), maximum) == n
  {
    UnsignedRoundTrip(n, maximum);
  }

  lemma FlagColumn(v: Option<bool>)
    ensures ReadFlag(Flag(v)) == v
  {
    EmptyIsNoNumber(1);
    SmallColumn(0, 1);
    SmallColumn(1, 1);
    assert Digits(0) == "0" && Digits(1) == "1";
  }

  lemma UnsignedOfShift(x: int)
    requires -128 <= x <= 127
    ensures ParseUnsigned(PrintFixed(x, 0), 127) == if x < 0 then None else Some(x)
  {
    assert Printed(Absolute(x), 0) == Digits(Absolute(x));
    if x < 0 {
      NegativeIsNotUnsigned(-x, 127);
    } else {
      UnsignedRoundTrip(x, 127);
    }
  }

  lemma ShiftFromParts(text: string, x: int, v: real)
    requires -128 <= x <= 127 && v == x as real
    requires ParseUnsigned(text, 127) == (if x < 0 then None else Some(x)) && ParseFloat(text) == Some(v)
    ensures ReadShift(text) == if x == -128 then None else Some(x)
  {
    LroundOfInteger(x);
  }

  lemma ShiftColumn(v: Option<int>)
    requires v.Some? ==> -128 <= v.value <= 127
    ensures ReadShift(Fixed(v, 0)) == if v == Some(-128) then None else v
  {
    if v.None? {
      EmptyIsNoNumber(127);
    } else {
      UnsignedOfShift(v.value);
      var x := ReadBack(v.value, 0);
      ShiftFromParts(PrintFixed(v.value, 0), v.value, x);
    }
  }

  function StoredReadings(s: Sample): (r: seq<Option<int>>)
    ensures |r| == COLUMNS
    ensures forall i :: 0 <= i < COLUMNS ==> r[i] == if IsReading(i) then StoredReading(s, i) else None
  {
    seq(COLUMNS, i requires 0 <= i < COLUMNS => if IsReading(i) then StoredReading(s, i) else None)
  }

  lemma ReadingRoundTrip(s: Sample, u: Uninterpreted, i: nat)
    requires Storable(s) && i < COLUMNS && IsReading(i)
    ensures ParsedReading(Row(s, u), i) == StoredReading(s, i)
  {
    assert Field(Row(s, u), i) == Fixed(StoredReading(s, i), Places(i));
    if IsSigned(i) {
      SignedColumn(StoredReading(s, i), Places(i));
    } else {
      UnsignedColumn(StoredReading(s, i), Places(i));
    }
  }

  lemma ReadingsRoundTrip(s: Sample, u: Uninterpreted)
    requires Storable(s)
    ensures ParsedReadings(Row(s, u)) == StoredReadings(s)
  {
    forall i | 0 <= i < COLUMNS && IsReading(i) ensures ParsedReading(Row(s, u), i) == StoredReading(s, i) {
      ReadingRoundTrip(s, u, i);
    }
  }

  function StoredSettings(s: Sample): Settings {
    Settings(s.timestamp, s.bootId, s.electricalSource, s.operatingMode, s.valveState, s.operatingState, s.defrost,
             if s.extra.curveShift == Some(-128) then None else s.extra.curveShift,
             s.extra.internalHeater, s.extra.externalHeater)
  }

  /** The texts of the columns that are no readings. */
  ghost predicate SettingTexts(f: seq<string>, s: Sample) {
    && |f| == COLUMNS && f[0] == Digits(s.timestamp) && f[30] == Digits(s.bootId) && f[31] == Digits(s.electricalSource)
    && f[21] == Digits(s.operatingMode) && f[22] == Digits(s.valveState) && f[23] == Digits(s.operatingState)
    && f[24] == Digits(if s.defrost then 1 else 0) && f[20] == Fixed(s.extra.curveShift, 0)
    && f[26] == Flag(s.extra.internalHeater) && f[27] == Flag(s.extra.externalHeater)
  }

  lemma RowHasSettingTexts(s: Sample, u: Uninterpreted)
    ensures SettingTexts(Row(s, u), s)
  {
  }

  lemma SettingsFromTexts(f: seq<string>, s: Sample)
    requires Storable(s) && SettingTexts(f, s)
    ensures ParsedSettings(f) == if s.timestamp < FIRST_TIMESTAMP then None else Some(StoredSettings(s))
  {
    SmallColumn(s.timestamp, TWO_32 - 1);
    SmallColumn(s.bootId, TWO_32 - 1);
    SmallColumn(s.electricalSource, 255);
    SmallColumn(s.operatingMode, 255);
    SmallColumn(s.valveState, 255);
    SmallColumn(s.operatingState, LAST_STATE);
    SmallColumn(if s.defrost then 1 else 0, 1);
    ShiftColumn(s.extra.curveShift);
    FlagColumn(s.extra.internalHeater);
    FlagColumn(s.extra.externalHeater);
  }

  lemma SettingsRoundTrip(s: Sample, u: Uninterpreted)
    requires Storable(s)
    ensures ParsedSettings(Row(s, u)) == if s.timestamp < FIRST_TIMESTAMP then None else Some(StoredSettings(s))
  {
    RowHasSettingTexts(s, u);
    SettingsFromTexts(Row(s, u), s);
  }

  lemma StoredIsRestored(s: Sample)
    ensures SampleOf(StoredReadings(s), StoredSettings(s)) == Restored(s)
  {
    assert ExtraOf(StoredReadings(s), StoredSettings(s)) == Restored(s).extra;
  }

  lemma FieldsRoundTrip(s: Sample, u: Uninterpreted)
    requires Storable(s)
    ensures ParseFields(Row(s, u)) == if s.timestamp < FIRST_TIMESTAMP then None else Some(Restored(s))
  {
    SettingsRoundTrip(s, u);
    ReadingsRoundTrip(s, u);
    StoredIsRestored(s);
  }

  lemma ColumnsHaveNoComma(s: Sample, u: Uninterpreted, i: nat)
    requires CommaFree(u)
    ensures ',' !in Column(s, u, i)
  {
    forall n: nat ensures ',' !in Digits(n) {
      SignIsNoDigit(Digits(n));
    }
    forall x: int, places: nat ensures ',' !in PrintFixed(x, places) {
      UnsignedOfPrinted(x, places);
    }
  }

  lemma RowSplits(s: Sample, u: Uninterpreted)
    requires CommaFree(u)
    ensures Split(PrintRow(s, u)) == Row(s, u)
  {
    forall i | 0 <= i < COLUMNS ensures ',' !in Row(s, u)[i] {
      ColumnsHaveNoComma(s, u, i);
    }
    SplitOfJoined(Row(s, u));
  }

  lemma RowIsNoHeader(s: Sample, u: Uninterpreted)
    ensures !(HEADER_START <= PrintRow(s, u))
  {
    assert Row(s, u)[0] == Digits(s.timestamp);
    assert IsDigit(PrintRow(s, u)[0]);
    assert HEADER_START[0] == 't';
  }

  /**
   A printed row parses back to the same sample: all readings with their validity, heaters, mode, valve, state,
   defrost, boot and source. It is refused exactly when its timestamp lies before 2024.
   */
  lemma RowRoundTrip(s: Sample, u: Uninterpreted)
    requires Storable(s) && CommaFree(u)
    ensures ParseRow(PrintRow(s, u)) == if s.timestamp < FIRST_TIMESTAMP then None else Some(Restored(s))
  {
    RowSplits(s, u);
    RowIsNoHeader(s, u);
    FieldsRoundTrip(s, u);
  }

  /** Writing a restored sample again loses nothing more. */
  lemma RestoringTwice(s: Sample, u: Uninterpreted)
    requires Storable(s) && CommaFree(u) && s.timestamp >= FIRST_TIMESTAMP
    ensures ParseRow(PrintRow(Restored(s), u)) == Some(Restored(s))
  {
    forall i | 0 <= i < COLUMNS && IsReading(i) ensures StoredReading(Restored(s), i) == StoredReading(s, i) {
    }
    RowRoundTrip(Restored(s), u);
  }
}
