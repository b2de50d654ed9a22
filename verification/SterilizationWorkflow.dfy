/**
 The dashboard's sterilization workflow: it switches the pump to DHW-only mode, forces a sterilization
 cycle and gives the operating mode back.
 */
module SterilizationWorkflow {
  import opened Words
  import opened HeatpumpFrames
  import opened MqttCommands
  import opened CurveTrimming

  const TOP_OPERATION_MODE := 4
  const TOP_DHW_TARGET := 9
  const TOP_DHW_TEMP := 10
  const TOP_STERILIZATION := 69
  const DHW_ONLY_MODE := 3

  datatype Kind = NoWorkflow | Sterilization
  datatype Stage = Idle | WaitForce | Active | WaitRestore

  datatype Workflow = Workflow(
    kind: Kind,
    stage: Stage,
    previousMode: int,
    modeChanged: bool,
    observedActive: bool,
    nextActionAt: uint32,
    forceSentAt: uint32)

  const READY := Workflow(NoWorkflow, Idle, -1, false, false, 0, 0)

  /** What one step can see: settings, the last frame and its age, the clock, and whether a send succeeds. */
  datatype Env = Env(listenOnly: bool, frame: Frame, dataAt: uint32, waitTime: nat, now: uint32, sendOk: bool)

  datatype Command = ModeCommand(value: int) | ForceCommand(value: int)

  datatype Event = Start | Cancel | Process

  /** `heatpump_command_has_changes` says no: a fresh frame already reports the value. */
  predicate ReportedAlready(c: Command, env: Env) {
    var report := FreshFrame(Some(env.frame), env.dataAt, env.waitTime, env.now);
    match c
    case ModeCommand(value) => !OtherHasChanges(SetOperationMode, TOP_OPERATION_MODE, value, report)
    case ForceCommand(value) => !OtherHasChanges(Other("SetForceSterilization"), TOP_STERILIZATION, value, report)
  }

  /** `dashboardWorkflowSendCommand`: done if already reported, else if the sender takes it. */
  predicate Accepted(c: Command, env: Env) {
    ReportedAlready(c, env) || env.sendOk
  }

  function Topic(env: Env, topic: int): int {
    ReadTopic(env.frame, topic)
  }

  /** The mode to give back: the reported mode with the automatic sub-modes folded. */
  function ReportedMode(env: Env): int {
    var mode := Topic(env, TOP_OPERATION_MODE);
    if mode == 7 then 2 else if mode == 8 then 6 else mode
  }

  predicate CanStart(w: Workflow, env: Env) {
    && !env.listenOnly && HeaderIsMain(env.frame) && w.kind.NoWorkflow?
    && Topic(env, TOP_STERILIZATION) == 0 && 0 <= ReportedMode(env) <= 6
  }

  /** The commands a step tries to send, in order; there is never more than one. */
  function Commands(w: Workflow, e: Event, env: Env): (c: seq<Command>)
    ensures |c| <= 1
  {
    match e
    case Start => if CanStart(w, env) && ReportedMode(env) != DHW_ONLY_MODE then [ModeCommand(DHW_ONLY_MODE)] else []
    case Cancel => if w.kind.Sterilization? && w.stage.Active? then [ForceCommand(0)] else []
    case Process =>
      if w.kind.NoWorkflow? then []
      else if w.stage.WaitForce? && Reached(env.now, w.nextActionAt) then [ForceCommand(1)]
      else if w.stage.WaitRestore? && Reached(env.now, w.nextActionAt) && RestoresMode(w)
        then [ModeCommand(w.previousMode)]
      else []
  }

  predicate RestoresMode(w: Workflow) {
    w.modeChanged && 0 <= w.previousMode <= 6
  }

  function Restoring(w: Workflow, env: Env, delayMs: nat): Workflow {
    w.(stage := WaitRestore, nextActionAt := Wrap32(env.now + delayMs))
  }

  /** `dashboardWorkflowStartSterilization`. */
  function StartStep(w: Workflow, env: Env): Workflow {
    if !CanStart(w, env) then w
    else
      var mode := ReportedMode(env);
      var changes := mode != DHW_ONLY_MODE;
      if changes && !Accepted(ModeCommand(DHW_ONLY_MODE), env) then READY
      else Workflow(Sterilization, WaitForce, mode, changes, false, Wrap32(env.now + if changes then 2500 else 250), 0)
  }

  /** `dashboardWorkflowCancelSterilization`; switching the force off is tried once, whatever comes of it. */
  function CancelStep(w: Workflow, env: Env): Workflow {
    if !w.kind.Sterilization? || w.stage.WaitRestore? then w else Restoring(w, env, 10000)
  }

  function ActiveStep(w: Workflow, env: Env): Workflow {
    var reported := Topic(env, TOP_STERILIZATION);
    var seen := w.(observedActive := w.observedActive || reported == 1);
    if !seen.observedActive && Elapsed(env.now, w.forceSentAt) > 60000 then Restoring(seen, env, 1000)
    else if seen.observedActive && reported == 0 && Topic(env, TOP_DHW_TEMP) + 2 >= Topic(env, TOP_DHW_TARGET)
    then Restoring(seen, env, 10000)
    else seen
  }

  /** `processDashboardWorkflow`. */
  function ProcessingStep(w: Workflow, env: Env): Workflow {
    if w.kind.NoWorkflow? then w
    else if w.stage.WaitForce? && Reached(env.now, w.nextActionAt) then
      if Accepted(ForceCommand(1), env) then w.(stage := Active, forceSentAt := env.now) else Restoring(w, env, 1000)
    else if w.stage.Active? && HeaderIsMain(env.frame) then ActiveStep(w, env)
    else if w.stage.WaitRestore? && Reached(env.now, w.nextActionAt) then
      if RestoresMode(w) && !Accepted(ModeCommand(w.previousMode), env)
      then w.(nextActionAt := Wrap32(env.now + 5000)) else READY
    else w
  }

  function Step(w: Workflow, e: Event, env: Env): Workflow {
    match e
    case Start => StartStep(w, env)
    case Cancel => CancelStep(w, env)
    case Process => ProcessingStep(w, env)
  }

  // ----- the workflow record, changed in place

  class DashboardWorkflow {
    var kind: Kind
    var stage: Stage
    var previousMode: int
    var modeChanged: bool
    var observedActive: bool
    var nextActionAt: uint32
    var forceSentAt: uint32

    ghost function State(): Workflow
      reads this
    {
      Workflow(kind, stage, previousMode, modeChanged, observedActive, nextActionAt, forceSentAt)
    }

    constructor ()
      ensures State() == READY
    {
      kind, stage, previousMode := NoWorkflow, Idle, -1;
      modeChanged, observedActive, nextActionAt, forceSentAt := false, false, 0, 0;
    }

    method Reset()
      modifies this
      ensures State() == READY
    {
      kind, stage, previousMode := NoWorkflow, Idle, -1;
      modeChanged, observedActive, nextActionAt, forceSentAt := false, false, 0, 0;
    }

    /** `dashboardWorkflowSendCommand`. */
    method SendCommand(c: Command, env: Env) returns (ok: bool)
      ensures ok == Accepted(c, env)
    {
      if ReportedAlready(c, env) { return true; }
      ok := env.sendOk;
    }

    method ScheduleRestore(delayMs: nat, env: Env)
      modifies this
      ensures State() == Restoring(old(State()), env, delayMs)
    {
      stage := WaitRestore;
      nextActionAt := Wrap32(env.now + delayMs);
    }

    /** tried lists the messages that the step hands to `dashboardWorkflowSendCommand`. */
    method StartSterilization(env: Env) returns (started: bool, tried: seq<Command>)
      modifies this
      ensures State() == StartStep(old(State()), env)
      ensures started <==> CanStart(old(State()), env) && State().kind.Sterilization?
      ensures tried == Commands(old(State()), Start, env)
    {
      started, tried := false, [];
      if env.listenOnly || !HeaderIsMain(env.frame) || kind != NoWorkflow { return; }
      if Topic(env, TOP_STERILIZATION) != 0 { return; }
      var currentMode := Topic(env, TOP_OPERATION_MODE);
      if currentMode == 7 { currentMode := 2; }
      if currentMode == 8 { currentMode := 6; }
      if currentMode < 0 || currentMode > 6 { return; }
      kind, stage, previousMode := Sterilization, WaitForce, currentMode;
      modeChanged, observedActive, forceSentAt := currentMode != DHW_ONLY_MODE, false, 0;
      if modeChanged {
        tried := [ModeCommand(DHW_ONLY_MODE)];
        var ok := SendCommand(ModeCommand(DHW_ONLY_MODE), env);
        if !ok {
          Reset();
          return;
        }
      }
      nextActionAt := Wrap32(env.now + if modeChanged then 2500 else 250);
      started := true;
    }

    method CancelSterilization(env: Env) returns (running: bool, tried: seq<Command>)
      modifies this
      ensures State() == CancelStep(old(State()), env)
      ensures running == old(kind).Sterilization?
      ensures tried == Commands(old(State()), Cancel, env)
    {
      running, tried := kind == Sterilization, [];
      if !running || stage == WaitRestore { return; }
      if stage == Active {
        tried := [ForceCommand(0)];
        var ok := SendCommand(ForceCommand(0), env);
      }
      ScheduleRestore(10000, env);
    }

    method ProcessWorkflow(env: Env) returns (tried: seq<Command>)
      modifies this
      ensures State() == ProcessingStep(old(State()), env)
      ensures tried == Commands(old(State()), Process, env)
    {
      tried := [];
      if kind == NoWorkflow { return; }
      if stage == WaitForce && Reached(env.now, nextActionAt) {
        tried := [ForceCommand(1)];
        var ok := SendCommand(ForceCommand(1), env);
        if ok {
          stage, forceSentAt := Active, env.now;
        } else {
          ScheduleRestore(1000, env);
        }
        return;
      }
      if stage == Active && HeaderIsMain(env.frame) {
        ProcessActive(env);
        return;
      }
      if stage == WaitRestore && Reached(env.now, nextActionAt) {
        if modeChanged && 0 <= previousMode <= 6 {
          tried := [ModeCommand(previousMode)];
          var ok := SendCommand(ModeCommand(previousMode), env);
          if !ok {
            nextActionAt := Wrap32(env.now + 5000);
            return;
          }
        }
        Reset();
      }
    }

    method ProcessActive(env: Env)
      modifies this
      ensures State() == ActiveStep(old(State()), env)
    {
      var actualState := Topic(env, TOP_STERILIZATION);
      if actualState == 1 { observedActive := true; }
      if !observedActive && Elapsed(env.now, forceSentAt) > 60000 {
        ScheduleRestore(1000, env);
        return;
      }
      if observedActive && actualState == 0 && Topic(env, TOP_DHW_TEMP) + 2 >= Topic(env, TOP_DHW_TARGET) {
        ScheduleRestore(10000, env);
      }
    }
  }
}

/** Whole runs of the workflow, and the scheduler actions it holds off. */
module WorkflowRuns {
  import opened Words
  import opened HeatpumpFrames
  import opened MqttCommands
  import opened CurveTrimming
  import opened SchedulerEntries
  import opened SchedulerQueue
  import W = SterilizationWorkflow

  /**
   forced counts the attempts to switch the force on since the current workflow started; switched tells
   that DHW-only mode was accepted for it; original is the mode the pump reported when it started.
   */
  datatype Run = Run(workflow: W.Workflow, forced: nat, switched: bool, original: int)

  function Boot(): Run {
    Run(W.READY, 0, false, -1)
  }

  function Step(g: Run, e: W.Event, env: W.Env): Run {
    var w := W.Step(g.workflow, e, env);
    if e.Start? && g.workflow.kind.NoWorkflow? && w.kind.Sterilization? then
      Run(w, 0, W.Commands(g.workflow, e, env) == [W.ModeCommand(W.DHW_ONLY_MODE)], W.ReportedMode(env))
    else
      var forced := if W.Commands(g.workflow, e, env) == [W.ForceCommand(1)] then g.forced + 1 else g.forced;
      Run(w, forced, g.switched, g.original)
  }

  function After(steps: seq<(W.Event, W.Env)>): Run
    decreases |steps|
  {
    if steps == [] then Boot()
    else
      var last := steps[|steps| - 1];
      Step(After(steps[..|steps| - 1]), last.0, last.1)
  }

  predicate Inv(g: Run) {
    var w := g.workflow;
    && (w.kind.NoWorkflow? <==> w.stage.Idle?)
    && g.forced <= 1
    && (w.stage.WaitForce? ==> g.forced == 0)
    && (w.kind.Sterilization? ==>
          && w.previousMode == g.original && 0 <= w.previousMode <= 6
          && (w.modeChanged <==> w.previousMode != W.DHW_ONLY_MODE)
          && (w.modeChanged <==> g.switched))
  }

  lemma StepKeepsInv(g: Run, e: W.Event, env: W.Env)
    requires Inv(g)
    ensures Inv(Step(g, e, env))
  {
  }

  /** At every reachable state no workflow means idle, and the force was switched on at most once. */
  lemma {:induction false} InvOverRuns(steps: seq<(W.Event, W.Env)>)
    ensures Inv(After(steps))
    decreases |steps|
  {
    if steps != [] {
      InvOverRuns(steps[..|steps| - 1]);
      StepKeepsInv(After(steps[..|steps| - 1]), steps[|steps| - 1].0, steps[|steps| - 1].1);
    }
  }

  /** The pump was told, or freshly reported, this operating mode in this step. */
  predicate ModeGiven(w: W.Workflow, e: W.Event, env: W.Env, mode: int) {
    && W.Commands(w, e, env) == [W.ModeCommand(mode)]
    && (env.sendOk || (IsFresh(Some(env.frame), env.dataAt, env.waitTime, env.now) && W.ReportedMode(env) == mode))
  }

  lemma ModeIsGivenBackFrom(g: Run, e: W.Event, env: W.Env)
    requires Inv(g) && g.workflow.kind.Sterilization? && Step(g, e, env).workflow.kind.NoWorkflow? && g.switched
    ensures 0 <= g.original <= 6 && g.original != W.DHW_ONLY_MODE && ModeGiven(g.workflow, e, env, g.original)
  {
  }

  /**
   The borrowed mode is given back: over any run, a workflow that switched the mode becomes idle only in a
   step that sends the mode reported at its start, or in which a fresh frame reports that mode already.
   */
  lemma ModeIsGivenBack(steps: seq<(W.Event, W.Env)>, e: W.Event, env: W.Env)
    ensures
      var g := After(steps);
      g.workflow.kind.Sterilization? && Step(g, e, env).workflow.kind.NoWorkflow? && g.switched ==>
        0 <= g.original <= 6 && g.original != W.DHW_ONLY_MODE && ModeGiven(g.workflow, e, env, g.original)
  {
    var g := After(steps);
    InvOverRuns(steps);
    if g.workflow.kind.Sterilization? && Step(g, e, env).workflow.kind.NoWorkflow? && g.switched {
      ModeIsGivenBackFrom(g, e, env);
    }
  }

  // ----- what the scheduler may do meanwhile

  /** The topic an action is compared with, and the value it wants; None for actions without one. */
  function StateTopic(a: Action): Option<(int, int)> {
    match a.kind
    case ForceDhwOn => Some((2, 1))
    case ForceDhwOff => Some((2, 0))
    case HeatpumpOn => Some((0, 1))
    case HeatpumpOff => Some((0, 0))
    case SetOperationMode => Some((4, a.value))
    case SetDhwTarget => Some((9, a.value))
    case SetQuietMode => Some((18, a.value))
    case _ => None
  }

  function CommandName(a: Action): Name {
    match a.kind
    case ForceDhwOn => Other("SetForceDHW")
    case ForceDhwOff => Other("SetForceDHW")
    case HeatpumpOn => Other("SetHeatpump")
    case HeatpumpOff => Other("SetHeatpump")
    case SetOperationMode => Name.SetOperationMode
    case SetDhwTarget => Other("SetDHWTemp")
    case _ => Other("SetQuietMode")
  }

  /** The current value of the topic equals the wanted one, with the automatic modes folded. */
  predicate AlreadyThere(a: Action, env: W.Env) {
    && StateTopic(a).Some?
    && IsFresh(Some(env.frame), env.dataAt, env.waitTime, env.now)
    && var current := ReadTopic(env.frame, StateTopic(a).value.0);
       (if a.kind.SetOperationMode? then W.ReportedMode(env) else current) == StateTopic(a).value.1
  }

  /** The frame shows what the action would set. */
  predicate Shows(frame: Frame, a: Action) {
    || (a.kind == HeatpumpOff && ReadTopic(frame, 0) == 0) || (a.kind == HeatpumpOn && ReadTopic(frame, 0) == 1)
    || (a.kind == ForceDhwOff && ReadTopic(frame, 2) == 0) || (a.kind == ForceDhwOn && ReadTopic(frame, 2) == 1)
    || (a.kind == SetDhwTarget && ReadTopic(frame, 9) == a.value)
    || (a.kind == SetQuietMode && ReadTopic(frame, 18) == a.value)
    || (a.kind == ActionType.SetOperationMode &&
          var mode := ReadTopic(frame, 4);
          (mode == a.value && mode !in {7, 8}) || (mode == 7 && a.value == 2) || (mode == 8 && a.value == 6))
  }

  lemma AlreadyThereExactly(a: Action, env: W.Env)
    ensures AlreadyThere(a, env) <==>
            IsFresh(Some(env.frame), env.dataAt, env.waitTime, env.now) && Shows(env.frame, a)
  {
  }

  /** What an action led to: its result, and whether a command went out to the pump. */
  datatype Effect = Effect(result: Result, sent: bool)

  /**
   `schedulerDispatchAction`.  delegated is the answer of the curve-shift and water-target code, encoded
   says whether the encoder accepts the value.
   */
  function DispatchAction(w: W.Workflow, a: Action, env: W.Env, delegated: Effect, encoded: bool): Effect {
    if env.listenOnly then Effect(Failed, false)
    else if a.kind.SetZ1Request? then Effect(Failed, false)
    else if a.kind.SetHeatCurveShift? || a.kind.SetZ1RoomTarget? || a.kind.SetZ1HeatingWaterTarget? then delegated
    else if AlreadyThere(a, env) then Effect(NoChange, false)
    else if !w.kind.NoWorkflow? then Effect(Busy, false)
    else if !encoded then Effect(Failed, false)
    else
      var target := StateTopic(a).value;
      var report := FreshFrame(Some(env.frame), env.dataAt, env.waitTime, env.now);
      if !OtherHasChanges(CommandName(a), target.0, target.1, report) then Effect(NoChange, false)
      else if env.sendOk then Effect(Executed, true)
      else Effect(Failed, false)
  }

  /** The actions that could disturb a sterilization: on/off, mode, forced DHW, DHW target, quiet mode. */
  predicate Guarded(a: Action) {
    a.kind.ForceDhwOn? || a.kind.ForceDhwOff? || a.kind.HeatpumpOn? || a.kind.HeatpumpOff? ||
    a.kind.SetOperationMode? || a.kind.SetDhwTarget? || a.kind.SetQuietMode?
  }

  /** In any reachable state in which the workflow is not idle, the scheduler sends none of the guarded commands. */
  lemma {:induction false} SchedulerHoldsOff(steps: seq<(W.Event, W.Env)>, a: Action, env: W.Env, delegated: Effect,
                                             encoded: bool)
    requires !After(steps).workflow.stage.Idle? && Guarded(a)
    ensures
      var effect := DispatchAction(After(steps).workflow, a, env, delegated, encoded);
      && !effect.sent
      && effect.result == if env.listenOnly then Failed else if AlreadyThere(a, env) then NoChange else Busy
  {
    InvOverRuns(steps);
  }

  /**
   Once idle, a guarded action sends its command exactly when the encoder and the sender take it and no fresh frame
   reports its value; the check behind the encoder stops nothing more.
   */
  lemma SchedulerResumes(w: W.Workflow, a: Action, env: W.Env, delegated: Effect, encoded: bool)
    requires w.kind.NoWorkflow? && Guarded(a) && ValidAction(a) && !env.listenOnly
    ensures
      var effect := DispatchAction(w, a, env, delegated, encoded);
      && (effect.sent <==> env.sendOk && encoded && !AlreadyThere(a, env))
      && effect.result == (if AlreadyThere(a, env) then NoChange else if env.sendOk && encoded then Executed
         else Failed)
  {
    assert ToInt16(a.value) == a.value || !(a.kind.SetOperationMode? || a.kind.SetDhwTarget? || a.kind.SetQuietMode?);
    assert ToInt16(0) == 0 && ToInt16(1) == 1;
  }

  // ----- how old the excusing report may be

  /** A frame of this age is fresh. */
  predicate FreshAt(frame: Frame, dataAt: nat, waitTime: nat, now: nat) {
    dataAt <= now < dataAt + TWO_32 && IsFresh(Some(frame), Wrap32(dataAt), waitTime, Wrap32(now))
  }

  /**
   Every fresh frame is newer than the switch of the mode exactly when that switch is longer ago than the maximum age.
   */
  lemma FreshReportIsNewer(frame: Frame, switchedAt: nat, waitTime: nat, now: nat)
    requires HeaderIsMain(frame) && switchedAt <= now < switchedAt + TWO_32 && Wrap32(switchedAt) != 0
    ensures (forall dataAt: nat :: FreshAt(frame, dataAt, waitTime, now) ==> dataAt > switchedAt) <==>
            now - switchedAt > MaximumAge(waitTime)
  {
    forall dataAt: nat | dataAt <= now < dataAt + TWO_32
      ensures Elapsed(Wrap32(now), Wrap32(dataAt)) == now - dataAt
    {
      ElapsedIsAtMostTrueTime(now, dataAt);
    }
    assert now - switchedAt <= MaximumAge(waitTime) ==> FreshAt(frame, switchedAt, waitTime, now);
  }

  /** A step at a true time, with the true time of the frame it sees. */
  datatype Moment = Moment(event: W.Event, env: W.Env, now: nat, dataAt: nat)

  /** The counters show these times, and the frame is less than one round of the counter old. */
  predicate Clocked(m: Moment) {
    && m.env.now == Wrap32(m.now) && m.env.dataAt == Wrap32(m.dataAt)
    && m.dataAt <= m.now < m.dataAt + TWO_32
  }

  function StepsOf(moments: seq<Moment>): (steps: seq<(W.Event, W.Env)>)
    ensures |steps| == |moments|
    ensures forall k :: 0 <= k < |steps| ==> steps[k] == (moments[k].event, moments[k].env)
  {
    seq(|moments|, k requires 0 <= k < |moments| => (moments[k].event, moments[k].env))
  }

  /** The step starts a workflow, and its switch to DHW-only mode is sent or reported already. */
  predicate Switches(g: Run, m: Moment) {
    && g.workflow.kind.NoWorkflow? && m.event.Start?
    && W.Commands(g.workflow, m.event, m.env) == [W.ModeCommand(W.DHW_ONLY_MODE)]
    && W.Accepted(W.ModeCommand(W.DHW_ONLY_MODE), m.env)
  }

  /** The true time of the last such step. */
  function SwitchedAt(moments: seq<Moment>): nat {
    if moments == [] then 0
    else
      var earlier, m := moments[..|moments| - 1], moments[|moments| - 1];
      if Switches(After(StepsOf(earlier)), m) then m.now else SwitchedAt(earlier)
  }

  lemma StepsSnoc(moments: seq<Moment>)
    requires moments != []
    ensures
      var earlier, m := moments[..|moments| - 1], moments[|moments| - 1];
      After(StepsOf(moments)) == Step(After(StepsOf(earlier)), m.event, m.env)
  {
    assert StepsOf(moments)[..|moments| - 1] == StepsOf(moments[..|moments| - 1]);
  }

  /** A workflow that has switched the mode did so in this step, or was running before it. */
  lemma SwitchedNowOrBefore(g: Run, m: Moment)
    requires var h := Step(g, m.event, m.env); h.workflow.kind.Sterilization? && h.switched
    ensures Switches(g, m) || (g.workflow.kind.Sterilization? && g.switched)
  {
  }

  /** It did so in step k of the run, at that time. */
  lemma {:induction false} SwitchIsInRun(moments: seq<Moment>) returns (k: nat)
    requires var g := After(StepsOf(moments)); g.workflow.kind.Sterilization? && g.switched
    ensures k < |moments| && Switches(After(StepsOf(moments[..k])), moments[k]) &&
            SwitchedAt(moments) == moments[k].now
  {
    var n := |moments| - 1;
    StepsSnoc(moments);
    var earlier, m := moments[..n], moments[n];
    SwitchedNowOrBefore(After(StepsOf(earlier)), m);
    if Switches(After(StepsOf(earlier)), m) {
      k := n;
    } else {
      k := SwitchIsInRun(earlier);
      assert earlier[..k] == moments[..k];
    }
  }

  /** The workflow becomes idle in this step because a fresh frame already reports the mode it gives back. */
  predicate Excused(g: Run, m: Moment) {
    && g.workflow.kind.Sterilization? && g.switched && Step(g, m.event, m.env).workflow.kind.NoWorkflow?
    && W.ReportedAlready(W.ModeCommand(g.original), m.env)
  }

  /** The frame that excuses the sender is fresh and reports the mode. */
  lemma ExcuseIsFresh(g: Run, m: Moment)
    requires Inv(g) && Excused(g, m)
    ensures IsFresh(Some(m.env.frame), m.env.dataAt, m.env.waitTime, m.env.now)
    ensures W.ReportedMode(m.env) == g.original
  {
    ModeIsGivenBackFrom(g, m.event, m.env);
    var mode := g.original;
    assert ToInt16(mode) == mode;
  }

  lemma FreshIsYoung(m: Moment)
    requires Clocked(m) && IsFresh(Some(m.env.frame), m.env.dataAt, m.env.waitTime, m.env.now)
    ensures m.now - m.dataAt <= MaximumAge(m.env.waitTime)
  {
    ElapsedIsAtMostTrueTime(m.now, m.dataAt);
  }

  /**
   Over any run: a workflow that becomes idle without sending, longer after its switch than the maximum age of a
   frame, does so on a frame that is newer than the switch and reports the original mode.
   */
  lemma LateExcuseIsNewer(moments: seq<Moment>, m: Moment)
    requires Clocked(m) && Excused(After(StepsOf(moments)), m)
    requires m.now - SwitchedAt(moments) > MaximumAge(m.env.waitTime)
    ensures m.dataAt > SwitchedAt(moments) && W.ReportedMode(m.env) == After(StepsOf(moments)).original
  {
    InvOverRuns(StepsOf(moments));
    ExcuseIsFresh(After(StepsOf(moments)), m);
    FreshIsYoung(m);
  }

  /** Start, cancel and the restore ten seconds later, all with the same frame. */
  function CancelledRun(frame: Frame, at: nat, waitTime: nat, sendOk: bool): seq<(W.Event, W.Env)> {
    [(W.Start, EnvAt(frame, at, waitTime, at, true)), (W.Cancel, EnvAt(frame, at, waitTime, at + 1, sendOk)),
     (W.Process, EnvAt(frame, at, waitTime, at + 10001, sendOk))]
  }

  function EnvAt(frame: Frame, dataAt: nat, waitTime: nat, now: nat, sendOk: bool): W.Env {
    W.Env(false, frame, Wrap32(dataAt), waitTime, Wrap32(now), sendOk)
  }

  /** A frame from which a sterilization starts with a switch of the mode. */
  predicate SwitchesMode(frame: Frame) {
    && HeaderIsMain(frame) && ReadTopic(frame, W.TOP_STERILIZATION) == 0
    && 0 <= ReadTopic(frame, W.TOP_OPERATION_MODE) <= 6 && ReadTopic(frame, W.TOP_OPERATION_MODE) != W.DHW_ONLY_MODE
  }

  lemma FrameStaysFresh(frame: Frame, at: nat, waitTime: nat, now: nat)
    requires HeaderIsMain(frame) && 0 < at <= now <= at + 60000 < TWO_32
    ensures IsFresh(Some(frame), Wrap32(at), waitTime, Wrap32(now))
  {
    ElapsedIsAtMostTrueTime(now, at);
    WrapOfSmall(at);
  }

  /**
   A frame from before the switch can excuse the restore: the workflow ends idle though DHW-only mode was accepted
   and, in the last step, the sender is not asked to give the mode back.
   */
  lemma OldReportExcusesRestore(frame: Frame, at: nat, waitTime: nat, sendOk: bool)
    requires SwitchesMode(frame) && 0 < at && at + 60000 < TWO_32
    ensures
      var steps := CancelledRun(frame, at, waitTime, sendOk);
      && After(steps[..2]).switched && After(steps[..2]).workflow.stage.WaitRestore?
      && After(steps).workflow == W.READY
      && W.ReportedAlready(W.ModeCommand(After(steps).original), steps[2].1)
  {
    var steps := CancelledRun(frame, at, waitTime, sendOk);
    FrameStaysFresh(frame, at, waitTime, at);
    FrameStaysFresh(frame, at, waitTime, at + 10001);
    WrapOfSmall(at);
    WrapOfSmall(at + 1);
    WrapOfSmall(at + 10001);
    assert steps[..2][..1] == [steps[0]] && steps[..1][..0] == [] && steps[..2] == [steps[0], steps[1]];
    StartsWaiting(frame, at, waitTime);
    assert After([steps[0]]) == Step(Boot(), W.Start, steps[0].1);
    assert After(steps[..2]) == Step(After([steps[0]]), W.Cancel, steps[1].1);
    assert After(steps) == Step(After(steps[..2]), W.Process, steps[2].1);
  }

  lemma StartsWaiting(frame: Frame, at: nat, waitTime: nat)
    requires SwitchesMode(frame)
    ensures
      var g := Step(Boot(), W.Start, EnvAt(frame, at, waitTime, at, true));
      && g.switched && g.workflow.kind.Sterilization? && g.workflow.stage.WaitForce? && g.workflow.modeChanged
      && g.workflow.previousMode == g.original == ReadTopic(frame, W.TOP_OPERATION_MODE)
  {
  }
}
