/**
 Recorded samples.  A reading and its validity bit are one Option; powers are 0.01 kW and W, temperatures 0.1 degrees.
 */
module HistorySamples {
  import opened Words

  datatype Sample = Sample(
    sequence: nat,
    bootId: nat,
    timestamp: nat,
    uptimeSeconds: nat,
    timeValid: bool,
    compressor: bool,
    heatpump: bool,
    dhwActive: bool,
    defrost: bool,
    operatingMode: nat,
    valveState: nat,
    operatingState: nat,
    electricalSource: nat,
    outside: Option<int>,
    thermalPower: Option<int>,
    electricalPower: Option<int>,
    extra: Extra)

  /** The readings that energy accounting does not use. */
  datatype Extra = Extra(
    inlet: Option<int>,
    outlet: Option<int>,
    target: Option<int>,
    dhw: Option<int>,
    dhwTarget: Option<int>,
    room: Option<int>,
    roomTarget: Option<int>,
    flow: Option<int>,
    compressorHz: Option<int>,
    pumpRpm: Option<int>,
    heatProduction: Option<int>,
    heatConsumption: Option<int>,
    dhwProduction: Option<int>,
    dhwConsumption: Option<int>,
    evaOutlet: Option<int>,
    compressorCurrent: Option<int>,
    curveShift: Option<int>,
    internalHeater: Option<bool>,
    externalHeater: Option<bool>)

  /** `efficiencyGroup`: 1 = heating, 2 = DHW, 0 = not counted. */
  function EfficiencyGroup(s: Sample): int {
    if !s.compressor || s.defrost then 0
    else if s.operatingMode == 1 || s.operatingMode == 3 then if s.dhwActive then 2 else 1
    else if s.operatingMode == 4 || s.operatingMode == 5 || s.operatingMode == 7 then if s.dhwActive then 2 else 1
    else 0
  }

  predicate InTimeOrder(samples: seq<Sample>) {
    forall i, j :: 0 <= i < j < |samples| ==> samples[i].timestamp <= samples[j].timestamp
  }
}
