/** Which column of a row carries which reading, and in what unit. */
module HistoryUnits {
  import opened Words
  import opened HistorySamples
  import opened CsvNumbers
  import opened HistoryCsv

  // ----- printed rows

  /** The digits of a number that is written with so many decimals. */
  function DigitsOf(body: string, decimals: nat): string
    requires |body| > decimals
  {
    if decimals == 0 then body else body[..|body| - decimals - 1] + body[|body| - decimals..]
  }

  /** The text is x / 10^decimals: a minus sign if it is negative, and the digits of x with a point before the last. */
  predicate Writes(text: string, x: int, decimals: nat) {
    && text != "" && (text[0] == '-' <==> x < 0)
    && var body := if x < 0 then text[1..] else text;
       && |body| > decimals && (decimals > 0 ==> body[|body| - decimals - 1] == '.')
       && AllDigits(DigitsOf(body, decimals)) && Value(DigitsOf(body, decimals)) == if x < 0 then -x else x
  }

  /** The text is empty without a value; else it is the value with so many decimals. */
  predicate Shows(text: string, v: Option<int>, decimals: nat) {
    if v.None? then text == "" else Writes(text, v.value, decimals)
  }

  /** The text reads as this whole number. */
  predicate Tells(text: string, n: nat) {
    ParseUnsigned(text, n) == Some(n)
  }

  lemma BodyWrites(n: nat, decimals: nat)
    ensures
      var body := Printed(n, decimals);
      && |body| > decimals && body[0] != '-' && (decimals > 0 ==> body[|body| - decimals - 1] == '.')
      && AllDigits(DigitsOf(body, decimals)) && Value(DigitsOf(body, decimals)) == n
  {
    var whole, last, body := Digits(Whole(n, decimals)), LastDigits(n, decimals), Printed(n, decimals);
    AllDigitsHaveTheValue(n, decimals);
    assert body[0] == whole[0] && IsDigit(whole[0]);
    if decimals == 0 {
      assert DigitsOf(body, decimals) == whole + last;
    } else {
      assert body == whole + ['.'] + last;
      assert body[..|whole|] == whole && body[|whole| + 1..] == last;
    }
  }

  lemma FixedShows(v: Option<int>, decimals: nat)
    ensures Shows(Fixed(v, decimals), v, decimals)
  {
    if v.Some? {
      var body := Printed(Absolute(v.value), decimals);
      BodyWrites(Absolute(v.value), decimals);
      assert v.value < 0 ==> ("-" + body)[1..] == body;
    }
  }

  /** Water temperatures to a tenth of a degree. */
  predicate ShowsWater(f: seq<string>, s: Sample)
    requires |f| == 32
  {
    var x := s.extra;
    && Shows(f[2], x.inlet, 1) && Shows(f[3], x.outlet, 1) && Shows(f[4], x.target, 1)
    && Shows(f[5], x.dhw, 1) && Shows(f[6], x.dhwTarget, 1)
  }

  /** The other temperatures to a tenth of a degree. */
  predicate ShowsAir(f: seq<string>, s: Sample)
    requires |f| == 32
  {
    var x := s.extra;
    Shows(f[1], s.outside, 1) && Shows(f[7], x.room, 1) && Shows(f[8], x.roomTarget, 1) && Shows(f[28], x.evaOutlet, 1)
  }

  /** Flow to 0.01 l/min, frequency to 0.1 Hz, pump speed in rpm, current to 0.1 A. */
  predicate ShowsMachine(f: seq<string>, s: Sample)
    requires |f| == 32
  {
    var x := s.extra;
    && Shows(f[9], x.flow, 2) && Shows(f[10], x.compressorHz, 1) && Shows(f[11], x.pumpRpm, 0)
    && Shows(f[29], x.compressorCurrent, 1)
  }

  /** In kW: the thermal power, stored in units of 10 W, and the electrical power, stored in W. */
  predicate ShowsPowers(f: seq<string>, s: Sample)
    requires |f| == 32
  {
    Shows(f[12], s.thermalPower, 2) && Shows(f[13], s.electricalPower, 3)
  }

  /** In kW: what the pump reports of its production and consumption, stored in W. */
  predicate ShowsEstimates(f: seq<string>, s: Sample)
    requires |f| == 32
  {
    var x := s.extra;
    && Shows(f[14], x.heatProduction, 3) && Shows(f[15], x.heatConsumption, 3)
    && Shows(f[16], x.dhwProduction, 3) && Shows(f[17], x.dhwConsumption, 3)
  }

  /** The clock, the state of the machine and where the sample comes from. */
  predicate ShowsSettings(f: seq<string>, s: Sample)
    requires |f| == 32
  {
    && Tells(f[0], s.timestamp) && Tells(f[21], s.operatingMode) && Tells(f[22], s.valveState)
    && Tells(f[23], s.operatingState) && Tells(f[24], if s.defrost then 1 else 0)
    && Tells(f[30], s.bootId) && Tells(f[31], s.electricalSource)
    && TellsFlag(f[26], s.extra.internalHeater) && TellsFlag(f[27], s.extra.externalHeater)
    && Shows(f[20], s.extra.curveShift, 0)
  }

  predicate TellsFlag(text: string, v: Option<bool>) {
    if v.None? then text == "" else Tells(text, if v.value then 1 else 0)
  }

  lemma WaterInUnits(f: seq<string>, s: Sample)
    requires |f| == 32 && f[2] == Fixed(s.extra.inlet, 1) && f[3] == Fixed(s.extra.outlet, 1)
    requires f[4] == Fixed(s.extra.target, 1) && f[5] == Fixed(s.extra.dhw, 1) && f[6] == Fixed(s.extra.dhwTarget, 1)
    ensures ShowsWater(f, s)
  {
    FixedShows(s.extra.inlet, 1);
    FixedShows(s.extra.outlet, 1);
    FixedShows(s.extra.target, 1);
    FixedShows(s.extra.dhw, 1);
    FixedShows(s.extra.dhwTarget, 1);
  }

  lemma AirInUnits(f: seq<string>, s: Sample)
    requires |f| == 32 && f[1] == Fixed(s.outside, 1) && f[7] == Fixed(s.extra.room, 1)
    requires f[8] == Fixed(s.extra.roomTarget, 1) && f[28] == Fixed(s.extra.evaOutlet, 1)
    ensures ShowsAir(f, s)
  {
    FixedShows(s.outside, 1);
    FixedShows(s.extra.room, 1);
    FixedShows(s.extra.roomTarget, 1);
    FixedShows(s.extra.evaOutlet, 1);
  }

  lemma MachineInUnits(f: seq<string>, s: Sample)
    requires |f| == 32 && f[9] == Fixed(s.extra.flow, 2) && f[10] == Fixed(s.extra.compressorHz, 1)
    requires f[11] == Fixed(s.extra.pumpRpm, 0) && f[29] == Fixed(s.extra.compressorCurrent, 1)
    ensures ShowsMachine(f, s)
  {
    FixedShows(s.extra.flow, 2);
    FixedShows(s.extra.compressorHz, 1);
    FixedShows(s.extra.pumpRpm, 0);
    FixedShows(s.extra.compressorCurrent, 1);
  }

  lemma PowersInUnits(f: seq<string>, s: Sample)
    requires |f| == 32 && f[12] == Fixed(s.thermalPower, 2) && f[13] == Fixed(s.electricalPower, 3)
    ensures ShowsPowers(f, s)
  {
    FixedShows(s.thermalPower, 2);
    FixedShows(s.electricalPower, 3);
  }

  lemma EstimatesInUnits(f: seq<string>, s: Sample)
    requires |f| == 32 && f[14] == Fixed(s.extra.heatProduction, 3) && f[15] == Fixed(s.extra.heatConsumption, 3)
    requires f[16] == Fixed(s.extra.dhwProduction, 3) && f[17] == Fixed(s.extra.dhwConsumption, 3)
    ensures ShowsEstimates(f, s)
  {
    FixedShows(s.extra.heatProduction, 3);
    FixedShows(s.extra.heatConsumption, 3);
    FixedShows(s.extra.dhwProduction, 3);
    FixedShows(s.extra.dhwConsumption, 3);
  }

  lemma ReadingText(s: Sample, u: Uninterpreted, column: nat, v: Option<int>, places: nat)
    requires column < COLUMNS && IsReading(column) && v == StoredReading(s, column) && places == Places(column)
    ensures Row(s, u)[column] == Fixed(v, places)
  {
    assert Row(s, u)[column] == Column(s, u, column);
  }

  lemma RowShowsWater(s: Sample, u: Uninterpreted)
    ensures ShowsWater(Row(s, u), s)
  {
    var x := s.extra;
    ReadingText(s, u, 2, x.inlet, 1);
    ReadingText(s, u, 3, x.outlet, 1);
    ReadingText(s, u, 4, x.target, 1);
    ReadingText(s, u, 5, x.dhw, 1);
    ReadingText(s, u, 6, x.dhwTarget, 1);
    WaterInUnits(Row(s, u), s);
  }

  lemma RowShowsAir(s: Sample, u: Uninterpreted)
    ensures ShowsAir(Row(s, u), s)
  {
    var x := s.extra;
    ReadingText(s, u, 1, s.outside, 1);
    ReadingText(s, u, 7, x.room, 1);
    ReadingText(s, u, 8, x.roomTarget, 1);
    ReadingText(s, u, 28, x.evaOutlet, 1);
    AirInUnits(Row(s, u), s);
  }

  lemma RowShowsMachine(s: Sample, u: Uninterpreted)
    ensures ShowsMachine(Row(s, u), s)
  {
    var x := s.extra;
    ReadingText(s, u, 9, x.flow, 2);
    ReadingText(s, u, 10, x.compressorHz, 1);
    ReadingText(s, u, 11, x.pumpRpm, 0);
    ReadingText(s, u, 29, x.compressorCurrent, 1);
    MachineInUnits(Row(s, u), s);
  }

  lemma RowShowsPowers(s: Sample, u: Uninterpreted)
    ensures ShowsPowers(Row(s, u), s)
  {
    ReadingText(s, u, 12, s.thermalPower, 2);
    ReadingText(s, u, 13, s.electricalPower, 3);
    PowersInUnits(Row(s, u), s);
  }

  lemma HeatTexts(s: Sample, u: Uninterpreted)
    ensures Row(s, u)[14] == Fixed(s.extra.heatProduction, 3) && Row(s, u)[15] == Fixed(s.extra.heatConsumption, 3)
  {
    ReadingText(s, u, 14, s.extra.heatProduction, 3);
    ReadingText(s, u, 15, s.extra.heatConsumption, 3);
  }

  lemma DhwTexts(s: Sample, u: Uninterpreted)
    ensures Row(s, u)[16] == Fixed(s.extra.dhwProduction, 3) && Row(s, u)[17] == Fixed(s.extra.dhwConsumption, 3)
  {
    ReadingText(s, u, 16, s.extra.dhwProduction, 3);
    ReadingText(s, u, 17, s.extra.dhwConsumption, 3);
  }

  lemma RowShowsEstimates(s: Sample, u: Uninterpreted)
    ensures ShowsEstimates(Row(s, u), s)
  {
    HeatTexts(s, u);
    DhwTexts(s, u);
    EstimatesInUnits(Row(s, u), s);
  }

  lemma DigitsTell(n: nat)
    requires n < TWO_32
    ensures Tells(Digits(n), n)
  {
    UnsignedRoundTrip(n, n);
  }

  lemma FlagTells(v: Option<bool>)
    ensures TellsFlag(Flag(v), v)
  {
    DigitsTell(0);
    DigitsTell(1);
    assert Digits(0) == "0" && Digits(1) == "1";
  }

  lemma SettingsInUnits(f: seq<string>, s: Sample)
    requires Storable(s) && SettingTexts(f, s)
    ensures ShowsSettings(f, s)
  {
    DigitsTell(s.timestamp);
    DigitsTell(s.operatingMode);
    DigitsTell(s.valveState);
    DigitsTell(s.operatingState);
    DigitsTell(if s.defrost then 1 else 0);
    DigitsTell(s.bootId);
    DigitsTell(s.electricalSource);
    FlagTells(s.extra.internalHeater);
    FlagTells(s.extra.externalHeater);
    FixedShows(s.extra.curveShift, 0);
  }

  lemma RowShowsSettings(s: Sample, u: Uninterpreted)
    requires Storable(s)
    ensures ShowsSettings(Row(s, u), s)
  {
    RowHasSettingTexts(s, u);
    SettingsInUnits(Row(s, u), s);
  }

  /** Every reading of a row. */
  predicate ShowsReadings(f: seq<string>, s: Sample)
    requires |f| == 32
  {
    ShowsWater(f, s) && ShowsAir(f, s) && ShowsMachine(f, s) && ShowsPowers(f, s) && ShowsEstimates(f, s)
  }

  lemma RowShowsReadings(s: Sample, u: Uninterpreted)
    ensures ShowsReadings(Row(s, u), s)
  {
    RowShowsWater(s, u);
    RowShowsAir(s, u);
    RowShowsMachine(s, u);
    RowShowsPowers(s, u);
    RowShowsEstimates(s, u);
  }

  /** Every field of a printed row shows the value of its column, in its unit and with its number of decimals. */
  lemma PrintedInUnits(s: Sample, u: Uninterpreted)
    requires CommaFree(u) && Storable(s)
    ensures
      var f := Split(PrintRow(s, u));
      && |f| == 32 && ShowsReadings(f, s) && ShowsSettings(f, s)
      && f[18] == u.request && f[19] == u.semantic && f[25] == u.cop
  {
    RowSplits(s, u);
    RowShowsReadings(s, u);
    RowShowsSettings(s, u);
  }

  // ----- parsed rows

  /** The nearest whole number, halves away from zero. */
  predicate RoundsTo(y: real, n: int) {
    if y >= 0.0 then n as real <= y + 0.5 < n as real + 1.0 else n as real - 1.0 < y - 0.5 <= n as real
  }

  /** The nearest number that the field can hold. */
  predicate Fits(y: real, n: int, low: int, high: int) {
    || (low <= n <= high && RoundsTo(y, n))
    || (n == low && y < low as real)
    || (n == high && y > high as real)
  }

  /** The reading of this number, in that unit; text that is no number is no reading. */
  predicate IsRead(x: Option<real>, v: Option<int>, unit: real) {
    if x.None? then v == None else v.Some? && Fits(x.value * unit, v.value, -32768, 32767)
  }

  predicate Reads(text: string, v: Option<int>, unit: real) {
    IsRead(ParseFloat(text), v, unit)
  }

  /** The same for a reading that cannot be negative: a negative number is no reading. */
  predicate IsReadUnsigned(x: Option<real>, v: Option<int>, unit: real) {
    if x.None? || x.value < 0.0 then v == None else v.Some? && Fits(x.value * unit, v.value, 0, 65535)
  }

  predicate ReadsUnsigned(text: string, v: Option<int>, unit: real) {
    IsReadUnsigned(ParseFloat(text), v, unit)
  }

  lemma Units()
    ensures Pow10(0) == 1 && Pow10(1) == 10 && Pow10(2) == 100 && Pow10(3) == 1000
  {
  }

  lemma ScaledFits(value: real, places: nat, unit: real)
    requires unit == Pow10(places) as real
    ensures Fits(value * unit, ScaledSigned(value, places), -32768, 32767)
    ensures Fits(value * unit, ScaledUnsigned(value, places), 0, 65535)
  {
    var y := value * unit;
    assert Times(value, places) == y;
    RoundedFits(y, -32768, 32767);
    RoundedFits(y, 0, 65535);
  }

  lemma RoundedFits(y: real, low: int, high: int)
    requires low <= 0 < high
    ensures Fits(y, Clamped(Lround(y), low, high), low, high)
  {
    assert RoundsTo(y, Lround(y));
  }

  lemma FittingIsRead(x: real, signed: int, unsigned: int, unit: real)
    requires Fits(x * unit, signed, -32768, 32767) && Fits(x * unit, unsigned, 0, 65535)
    ensures IsRead(Some(x), Some(signed), unit)
    ensures x >= 0.0 ==> IsReadUnsigned(Some(x), Some(unsigned), unit)
  {
  }

  lemma NumberReads(x: real, places: nat, unit: real)
    requires unit == Pow10(places) as real
    ensures IsRead(Some(x), Some(ScaledSigned(x, places)), unit)
    ensures x >= 0.0 ==> IsReadUnsigned(Some(x), Some(ScaledUnsigned(x, places)), unit)
  {
    ScaledFits(x, places, unit);
    FittingIsRead(x, ScaledSigned(x, places), ScaledUnsigned(x, places), unit);
  }

  lemma ReadingReads(f: seq<string>, column: nat, unit: real)
    requires IsReading(column) && unit == Pow10(Places(column)) as real
    ensures IsSigned(column) ==> Reads(Field(f, column), ParsedReading(f, column), unit)
    ensures !IsSigned(column) ==> ReadsUnsigned(Field(f, column), ParsedReading(f, column), unit)
  {
    var text := Field(f, column);
    if ParseFloat(text).Some? {
      NumberReads(ParseFloat(text).value, Places(column), unit);
    }
  }

  /** A row that is taken gives every reading in the unit of its column; columns that are missing give none. */
  lemma ParsedInUnits(line: string)
    requires ParseRow(line).Some?
    ensures
      var s, fields := ParseRow(line).value, Split(line);
      var x, eva := s.extra, if |fields| > 28 then fields[28] else "";
      var current := if |fields| > 29 then fields[29] else "";
      && 26 <= |fields| <= 32
      && Reads(fields[1], s.outside, 10.0) && Reads(fields[2], x.inlet, 10.0) && Reads(fields[3], x.outlet, 10.0)
      && Reads(fields[4], x.target, 10.0) && Reads(fields[5], x.dhw, 10.0) && Reads(fields[6], x.dhwTarget, 10.0)
      && Reads(fields[7], x.room, 10.0) && Reads(fields[8], x.roomTarget, 10.0)
      && ReadsUnsigned(fields[9], x.flow, 100.0) && ReadsUnsigned(fields[10], x.compressorHz, 10.0)
      && ReadsUnsigned(fields[11], x.pumpRpm, 1.0) && Reads(fields[12], s.thermalPower, 100.0)
      && ReadsUnsigned(fields[13], s.electricalPower, 1000.0) && ReadsUnsigned(fields[14], x.heatProduction, 1000.0)
      && ReadsUnsigned(fields[15], x.heatConsumption, 1000.0) && ReadsUnsigned(fields[16], x.dhwProduction, 1000.0)
      && ReadsUnsigned(fields[17], x.dhwConsumption, 1000.0)
      && Reads(eva, x.evaOutlet, 10.0) && ReadsUnsigned(current, x.compressorCurrent, 10.0)
  {
    var f := Split(line);
    Units();
    forall column: nat | 1 <= column <= 8 || column == 28
      ensures Reads(Field(f, column), ParsedReading(f, column), 10.0)
    {
      ReadingReads(f, column, 10.0);
    }
    ReadingReads(f, 9, 100.0);
    ReadingReads(f, 10, 10.0);
    ReadingReads(f, 11, 1.0);
    ReadingReads(f, 12, 100.0);
    forall column: nat | 13 <= column <= 17
      ensures ReadsUnsigned(Field(f, column), ParsedReading(f, column), 1000.0)
    {
      ReadingReads(f, column, 1000.0);
    }
    ReadingReads(f, 29, 10.0);
  }

  /** The number that the text tells. */
  predicate TellsUpTo(text: string, maximum: nat, n: nat) {
    ParseUnsigned(text, maximum) == Some(n)
  }

  lemma SettingsTaken(f: seq<string>)
    requires 26 <= |f| <= 32
    ensures ParsedSettings(f).Some? <==>
            && (exists t :: 1704067200 <= t && TellsUpTo(f[0], 0xFFFF_FFFF, t))
            && (|f| > 30 ==> exists boot :: TellsUpTo(f[30], 0xFFFF_FFFF, boot))
            && (|f| == 32 ==> exists source :: TellsUpTo(f[31], 255, source))
  {
    var timestamp := ParseUnsigned(f[0], TWO_32 - 1);
    var boot, source := ParseUnsigned(Field(f, 30), TWO_32 - 1), ParseUnsigned(Field(f, 31), 255);
    assert timestamp.Some? ==> TellsUpTo(f[0], 0xFFFF_FFFF, timestamp.value);
    assert |f| > 30 && boot.Some? ==> TellsUpTo(f[30], 0xFFFF_FFFF, boot.value);
    assert |f| > 31 && source.Some? ==> TellsUpTo(f[31], 255, source.value);
  }

  /**
   A row is taken if and only if it is no header, has 26 to 32 fields, is not from before 2024, and its boot number and
   power source, where they are there, can be read.
   */
  lemma TakenExactly(line: string)
    ensures
      var f := Split(line);
      ParseRow(line).Some? <==>
      && !("timestamp," <= line) && 26 <= |f| <= 32
      && (exists t :: 1704067200 <= t && TellsUpTo(f[0], 0xFFFF_FFFF, t))
      && (|f| > 30 ==> exists boot :: TellsUpTo(f[30], 0xFFFF_FFFF, boot))
      && (|f| == 32 ==> exists source :: TellsUpTo(f[31], 255, source))
  {
    var f := Split(line);
    if 26 <= |f| <= 32 {
      SettingsTaken(f);
    }
  }

  /** The flags follow from the readings and states. */
  predicate FlagsFollow(s: Sample) {
    var hz := s.extra.compressorHz;
    && s.timeValid && s.sequence == 0
    && (s.compressor <==> if hz.Some? then hz.value > 5 else s.operatingState in {2, 3, 4})
    && (s.dhwActive <==> s.operatingState == 3 || s.valveState == 1)
    && (s.operatingState == 4 ==> s.defrost) && (s.heatpump <==> s.operatingState != 0)
  }

  lemma FlagsOfParts(r: seq<Option<int>>, t: Settings)
    requires |r| == COLUMNS
    ensures FlagsFollow(SampleOf(r, t))
  {
  }

  lemma FlagsOfTaken(line: string)
    requires ParseRow(line).Some?
    ensures FlagsFollow(ParseRow(line).value)
  {
    var f := Split(line);
    FlagsOfParts(ParsedReadings(f), ParsedSettings(f).value);
  }
}
