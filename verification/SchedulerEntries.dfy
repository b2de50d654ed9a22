/** Schedule entries, the local clock they are compared with, and what makes an entry due. */
module SchedulerEntries {
  import opened Words
  import opened ConditionExpressions

  const MAX_ENTRIES := 24
  const MAX_ACTIONS := 4
  const MAX_CONDITIONS := 4
  const MAX_NAME := 32
  const NEVER: uint32 := 0xFFFF_FFFF

  datatype ActionType =
    | ForceDhwOn | ForceDhwOff | HeatpumpOn | HeatpumpOff | SetOperationMode | SetDhwTarget
    | SetHeatCurveShift | SetZ1HeatingWaterTarget | SetZ1RoomTarget | SetZ1Request | SetQuietMode

  datatype Action = Action(kind: ActionType, value: int)

  datatype Entry = Entry(
    id: nat,
    enabled: bool,
    name: string,
    dayMask: nat,
    hour: nat,
    minute: nat,
    actions: seq<Action>,
    conditions: seq<Condition>,
    lastExecutionKey: uint32)

  datatype Clock = Clock(valid: bool, year: nat, yearDay: nat, weekDay: nat, hour: nat, minute: nat)

  /** `schedulerBasicEntryValid`. */
  predicate BasicEntryValid(dayMask: nat, hour: nat, minute: nat) {
    0 < dayMask <= 0x7F && hour <= 23 && minute <= 59
  }

  /** `validateAction`. */
  predicate ValidAction(a: Action) {
    match a.kind
    case SetOperationMode => 0 <= a.value <= 6
    case SetDhwTarget => 40 <= a.value <= 75
    case SetHeatCurveShift => -5 <= a.value <= 5
    case SetZ1HeatingWaterTarget => 20 <= a.value <= 100
    case SetZ1RoomTarget => 10 <= a.value <= 35
    case SetQuietMode => 0 <= a.value <= 3
    case _ => true
  }

  /** `validateEntry`; condition sources are left to the value reader. */
  predicate ValidEntry(e: Entry) {
    && 0 < |e.name| <= MAX_NAME
    && BasicEntryValid(e.dayMask, e.hour, e.minute)
    && 0 < |e.actions| <= MAX_ACTIONS
    && (forall i :: 0 <= i < |e.actions| ==> ValidAction(e.actions[i]))
    && |e.conditions| <= MAX_CONDITIONS
    && (forall i :: 0 <= i < |e.conditions| ==> -100.0 <= e.conditions[i].expected <= 200.0)
  }

  /** `dayMask & (1 << weekDay)`, Monday = 0. */
  predicate OnDay(dayMask: nat, weekDay: nat) {
    var bit :=
      if weekDay == 0 then 1 else if weekDay == 1 then 2 else if weekDay == 2 then 4 else if weekDay == 3 then 8
      else if weekDay == 4 then 16 else if weekDay == 5 then 32 else 64;
    dayMask / bit % 2 == 1
  }

  /** `schedulerMinuteKey`; the sum is formed in 32 bits. */
  function MinuteKey(c: Clock): uint32 {
    Wrap32((c.year * 366 + c.yearDay) * 1440 + c.hour * 60 + c.minute)
  }

  /** Weekday mask and time of day match. */
  predicate Matches(e: Entry, c: Clock) {
    && c.valid && BasicEntryValid(e.dayMask, e.hour, e.minute) && c.weekDay <= 6
    && OnDay(e.dayMask, c.weekDay) && e.hour == c.hour && e.minute == c.minute
  }

  /** `schedulerDueNow`. */
  predicate DueNow(e: Entry, c: Clock) {
    Matches(e, c) && e.lastExecutionKey != MinuteKey(c)
  }

  /** What one pass of `checkSchedules` does to the execution key of an entry. */
  function Claimed(e: Entry, c: Clock): Entry {
    if DueNow(e, c) then e.(lastExecutionKey := MinuteKey(c)) else e
  }

  // ----- the minute key

  predicate WellFormed(c: Clock) {
    c.yearDay < 366 && c.weekDay <= 6 && c.hour < 24 && c.minute < 60
  }

  function DayNumber(c: Clock): nat {
    c.year * 366 + c.yearDay
  }

  function MinuteOfDay(c: Clock): nat {
    c.hour * 60 + c.minute
  }

  /** Up to the year 8148 keys do not wrap: they order minutes, tell them apart, and are never NEVER. */
  lemma MinuteKeyOrdersMinutes(c: Clock, d: Clock)
    requires WellFormed(c) && WellFormed(d) && c.year <= 8148 && d.year <= 8148
    ensures MinuteKey(c) == DayNumber(c) * 1440 + MinuteOfDay(c) < NEVER
    ensures MinuteKey(c) < MinuteKey(d) <==>
      c.year < d.year || (c.year == d.year &&
        (c.yearDay < d.yearDay || (c.yearDay == d.yearDay &&
          (c.hour < d.hour || (c.hour == d.hour && c.minute < d.minute)))))
    ensures MinuteKey(c) == MinuteKey(d) <==>
      c.year == d.year && c.yearDay == d.yearDay && c.hour == d.hour && c.minute == d.minute
  {
    KeyValue(c);
    KeyValue(d);
    assert DayNumber(c) < DayNumber(d) <==> c.year < d.year || (c.year == d.year && c.yearDay < d.yearDay);
    assert MinuteOfDay(c) < MinuteOfDay(d) <==> c.hour < d.hour || (c.hour == d.hour && c.minute < d.minute);
  }

  lemma KeyValue(c: Clock)
    requires WellFormed(c) && c.year <= 8148
    ensures MinuteKey(c) == DayNumber(c) * 1440 + MinuteOfDay(c) < NEVER
  {
    assert DayNumber(c) <= 8148 * 366 + 365;
    WrapOfSmall(DayNumber(c) * 1440 + MinuteOfDay(c));
  }
}
