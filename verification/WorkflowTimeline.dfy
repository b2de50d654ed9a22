/**
 When each step of a sterilization happens, told by the frames, times and commands of the run so far: nothing here
 speaks of the fields in which the workflow remembers what it has seen.
 */
module WorkflowTimeline {
  import opened Words
  import opened HeatpumpFrames
  import opened MqttCommands
  import opened MqttReports
  import opened CurveTrimming
  import opened WorkflowRuns
  import W = SterilizationWorkflow

  /** The workflow before step n of the run. */
  function At(run: seq<Moment>, n: nat): W.Workflow
    requires n <= |run|
  {
    if n == 0 then W.READY else W.Step(At(run, n - 1), run[n - 1].event, run[n - 1].env)
  }

  function StageAt(run: seq<Moment>, n: nat): W.Stage
    requires n <= |run|
  {
    At(run, n).stage
  }

  /** What step n tried to send. */
  function Tried(run: seq<Moment>, n: nat): seq<W.Command>
    requires n < |run|
  {
    W.Commands(At(run, n), run[n].event, run[n].env)
  }

  /** These are the runs of the workflow. */
  lemma {:induction false} AtIsAfter(run: seq<Moment>, n: nat)
    requires n <= |run|
    ensures At(run, n) == After(StepsOf(run[..n])).workflow
  {
    if n > 0 {
      AtIsAfter(run, n - 1);
      StepsSnoc(run[..n]);
      assert run[..n][..n - 1] == run[..n - 1];
    }
  }

  /** The counter shows the true time. */
  predicate OnTime(m: Moment) {
    m.env.now == m.now % 0x1_0000_0000
  }

  predicate Timed(run: seq<Moment>) {
    forall k :: 0 <= k < |run| ==> OnTime(run[k])
  }

  /** Step k brought the workflow to this stage, and it has stayed there up to step n. */
  ghost predicate Since(run: seq<Moment>, n: nat, k: nat, stage: W.Stage)
    requires n <= |run|
  {
    k < n && StageAt(run, k) != stage && forall j :: k < j <= n ==> StageAt(run, j) == stage
  }

  lemma SinceOnce(run: seq<Moment>, n: nat, k: nat, j: nat, stage: W.Stage)
    requires n <= |run| && Since(run, n, k, stage) && Since(run, n, j, stage)
    ensures k == j
  {
  }

  lemma {:induction false} NothingRunsAtRest(run: seq<Moment>, n: nat)
    requires n <= |run|
    ensures At(run, n).kind.NoWorkflow? <==> StageAt(run, n).Idle?
  {
    AtIsAfter(run, n);
    InvOverRuns(StepsOf(run[..n]));
  }

  // ----- time and messages

  /** So much time has gone by, as a clock sees it that comes round every 49 days. */
  predicate Passed(now: nat, at: nat, delayMs: nat) {
    (now - at - delayMs) % 0x1_0000_0000 < 0x8000_0000
  }

  lemma ReachedExactly(now: nat, at: nat, delayMs: nat)
    ensures Reached(Wrap32(now), Wrap32(at + delayMs)) <==> Passed(now, at, delayMs)
  {
    WrappedDifference(now, at + delayMs);
  }

  lemma DelayFromCounter(m: Moment, delayMs: nat)
    requires OnTime(m)
    ensures Wrap32(m.env.now + delayMs) == Wrap32(m.now + delayMs)
  {
    WrapOfSum(m.now, delayMs);
  }

  /** The mode command is taken by the sender, or a fresh frame already reports the mode. */
  predicate TakesMode(env: W.Env, mode: int) {
    env.sendOk || (IsFresh(Some(env.frame), env.dataAt, env.waitTime, env.now) &&
                   Reports(env.frame, SetOperationMode, 4, mode))
  }

  predicate TakesForce(env: W.Env, value: int) {
    env.sendOk || (IsFresh(Some(env.frame), env.dataAt, env.waitTime, env.now) &&
                   Reports(env.frame, Other("SetForceSterilization"), 69, value))
  }

  lemma AcceptedExactly(env: W.Env, value: int)
    requires 0 <= value <= 6
    ensures W.Accepted(W.ModeCommand(value), env) <==> TakesMode(env, value)
    ensures W.Accepted(W.ForceCommand(value), env) <==> TakesForce(env, value)
  {
    var data := Some(env.frame);
    OtherSkippedExactly(SetOperationMode, 4, value, data, env.dataAt, env.waitTime, env.now);
    OtherSkippedExactly(Other("SetForceSterilization"), 69, value, data, env.dataAt, env.waitTime, env.now);
    assert ToInt16(value) == value;
  }

  // ----- the start

  /** The pump is in this mode; 7 and 8 are the automatic modes 2 and 6 with their current direction. */
  predicate InMode(frame: Frame, mode: int) {
    var reading := ReadTopic(frame, 4);
    || (reading == mode && 0 <= mode <= 6)
    || (reading == 7 && mode == 2) || (reading == 8 && mode == 6)
  }

  /** The pump may be asked, sends frames, reports no sterilization, and is in this mode. */
  predicate ReadyToStart(env: W.Env, mode: int) {
    !env.listenOnly && HeaderIsMain(env.frame) && ReadTopic(env.frame, 69) == 0 && InMode(env.frame, mode)
  }

  lemma ModeExactly(env: W.Env, mode: int)
    ensures InMode(env.frame, mode) <==> mode == W.ReportedMode(env) && 0 <= mode <= 6
  {
  }

  /**
   A workflow starts if and only if none is running, the pump is ready and in a known mode, and it takes DHW-only mode
   unless it is in it; that is all that is sent.
   */
  lemma StartsExactly(run: seq<Moment>, n: nat, mode: int)
    requires n < |run| && run[n].event.Start?
    ensures StageAt(run, n).Idle? && ReadyToStart(run[n].env, mode) ==>
              && Tried(run, n) == (if mode == 3 then [] else [W.ModeCommand(3)])
              && StageAt(run, n + 1) == if mode == 3 || TakesMode(run[n].env, 3) then W.WaitForce else W.Idle
    ensures !StageAt(run, n).Idle? || (forall known :: !ReadyToStart(run[n].env, known)) ==>
              At(run, n + 1) == At(run, n) && Tried(run, n) == []
  {
    var env := run[n].env;
    NothingRunsAtRest(run, n);
    AcceptedExactly(env, 3);
    ModeExactly(env, mode);
    if W.CanStart(At(run, n), env) {
      ModeExactly(env, W.ReportedMode(env));
      assert ReadyToStart(env, W.ReportedMode(env));
    }
  }

  /** Step s started the workflow that is running before step n, when the pump was in this mode. */
  ghost predicate StartedIn(run: seq<Moment>, n: nat, s: nat, mode: int)
    requires n <= |run|
  {
    && s < n && StageAt(run, s).Idle? && run[s].event.Start? && ReadyToStart(run[s].env, mode)
    && forall j :: s < j <= n ==> !StageAt(run, j).Idle?
  }

  /** A running workflow was started from the mode it remembers. */
  lemma {:induction false} RunningSince(run: seq<Moment>, n: nat) returns (s: nat)
    requires n <= |run| && !StageAt(run, n).Idle?
    ensures StartedIn(run, n, s, At(run, n).previousMode)
    ensures At(run, n).modeChanged <==> At(run, n).previousMode != 3
  {
    NothingRunsAtRest(run, n - 1);
    if StageAt(run, n - 1).Idle? {
      s := n - 1;
      ModeExactly(run[s].env, W.ReportedMode(run[s].env));
    } else {
      s := RunningSince(run, n - 1);
    }
  }

  // ----- waiting to force

  /** The delay between the start and the force. */
  function ForceDelay(env: W.Env): nat {
    if InMode(env.frame, 3) then 250 else 2500
  }

  lemma WaitsForForce(run: seq<Moment>, n: nat)
    requires n < |run| && Timed(run) && !StageAt(run, n).WaitForce? && StageAt(run, n + 1).WaitForce?
    ensures run[n].event.Start? && !At(run, n + 1).observedActive
    ensures At(run, n + 1).nextActionAt == Wrap32(run[n].now + ForceDelay(run[n].env))
  {
    NothingRunsAtRest(run, n);
    DelayFromCounter(run[n], 2500);
    DelayFromCounter(run[n], 250);
    ModeExactly(run[n].env, 3);
  }

  lemma {:induction false} WaitingSince(run: seq<Moment>, n: nat) returns (k: nat)
    requires n <= |run| && Timed(run) && StageAt(run, n).WaitForce?
    ensures Since(run, n, k, W.WaitForce) && run[k].event.Start? && !At(run, n).observedActive
    ensures At(run, n).nextActionAt == Wrap32(run[k].now + ForceDelay(run[k].env))
  {
    if StageAt(run, n - 1).WaitForce? {
      k := WaitingSince(run, n - 1);
      NothingRunsAtRest(run, n - 1);
    } else {
      k := n - 1;
      WaitsForForce(run, k);
    }
  }

  /**
   The force is switched on in the first loop step 250 ms after the start, or 2500 ms if the mode was switched; taken,
   the sterilization is active, refused, the mode is given back. Before that only a cancel ends the wait.
   */
  lemma ForcesExactly(run: seq<Moment>, n: nat) returns (k: nat)
    requires n < |run| && Timed(run) && StageAt(run, n).WaitForce?
    ensures Since(run, n, k, W.WaitForce) && run[k].event.Start?
    ensures
      var m := run[n];
      if m.event.Cancel? then StageAt(run, n + 1).WaitRestore? && Tried(run, n) == []
      else if m.event.Process? && Passed(m.now, run[k].now, ForceDelay(run[k].env)) then
        && Tried(run, n) == [W.ForceCommand(1)]
        && StageAt(run, n + 1) == if TakesForce(m.env, 1) then W.Active else W.WaitRestore
      else At(run, n + 1) == At(run, n) && Tried(run, n) == []
  {
    k := WaitingSince(run, n);
    NothingRunsAtRest(run, n);
    AcceptedExactly(run[n].env, 1);
    ReachedExactly(run[n].now, run[k].now, ForceDelay(run[k].env));
  }

  // ----- while the sterilization is active

  /** A loop step in which a main frame reports the sterilization as running. */
  predicate SeesItRun(m: Moment) {
    m.event.Process? && HeaderIsMain(m.env.frame) && ReadTopic(m.env.frame, 69) == 1
  }

  /** Some step between k and n saw it run. */
  ghost predicate SeenRunning(run: seq<Moment>, k: nat, n: nat)
    requires n <= |run|
  {
    exists j :: k < j < n && SeesItRun(run[j])
  }

  lemma SeenLonger(run: seq<Moment>, k: nat, n: nat)
    requires k < n < |run|
    ensures SeenRunning(run, k, n + 1) <==> SeenRunning(run, k, n) || SeesItRun(run[n])
  {
    if j :| k < j < n + 1 && SeesItRun(run[j]) {
      assert j < n || j == n;
    }
  }

  lemma ForcedNow(run: seq<Moment>, n: nat)
    requires n < |run| && Timed(run) && !StageAt(run, n).Active? && StageAt(run, n + 1).Active?
    ensures run[n].event.Process? && Tried(run, n) == [W.ForceCommand(1)]
    ensures At(run, n + 1).forceSentAt == Wrap32(run[n].now) && !At(run, n + 1).observedActive
  {
    NothingRunsAtRest(run, n);
    if StageAt(run, n).WaitForce? {
      var k := WaitingSince(run, n);
    }
  }

  lemma StaysActive(run: seq<Moment>, n: nat)
    requires n < |run| && StageAt(run, n).Active? && StageAt(run, n + 1).Active?
    ensures At(run, n + 1).forceSentAt == At(run, n).forceSentAt
    ensures At(run, n + 1).observedActive <==> At(run, n).observedActive || SeesItRun(run[n])
  {
    NothingRunsAtRest(run, n);
  }

  /** What the workflow remembers while active is when the force was taken, and whether a step since has seen it run. */
  lemma {:induction false} ActiveSince(run: seq<Moment>, n: nat) returns (k: nat)
    requires n <= |run| && Timed(run) && StageAt(run, n).Active?
    ensures Since(run, n, k, W.Active) && run[k].event.Process? && Tried(run, k) == [W.ForceCommand(1)]
    ensures At(run, n).forceSentAt == Wrap32(run[k].now)
    ensures At(run, n).observedActive <==> SeenRunning(run, k, n)
  {
    if StageAt(run, n - 1).Active? {
      k := ActiveSince(run, n - 1);
      StaysActive(run, n - 1);
      SeenLonger(run, k, n - 1);
    } else {
      k := n - 1;
      ForcedNow(run, k);
    }
  }

  /** It has been seen to run, is now reported as ended, and the water is within 2 degrees of its target. */
  ghost predicate HasRun(run: seq<Moment>, k: nat, n: nat)
    requires n < |run|
  {
    var frame := run[n].env.frame;
    SeenRunning(run, k, n) && ReadTopic(frame, 69) == 0 && ReadTopic(frame, 10) + 2 >= ReadTopic(frame, 9)
  }

  /** It has not been seen to run, and the force is more than a minute ago. */
  ghost predicate NeverRan(run: seq<Moment>, k: nat, n: nat)
    requires k < n < |run|
  {
    !SeenRunning(run, k, n) && ReadTopic(run[n].env.frame, 69) != 1 && (run[n].now - run[k].now) % 0x1_0000_0000 > 60000
  }

  /**
   A sterilization that was forced in step k ends if and only if it is cancelled, which tries to switch the force off,
   or a loop step has a main frame and either it has run since the force and is done, or it has not been seen to run for
   more than a minute. Any other step sends nothing and leaves it active.
   */
  lemma EndsExactly(run: seq<Moment>, n: nat) returns (k: nat)
    requires n < |run| && Timed(run) && StageAt(run, n).Active?
    ensures Since(run, n, k, W.Active) && run[k].event.Process? && Tried(run, k) == [W.ForceCommand(1)]
    ensures
      var m := run[n];
      && Tried(run, n) == (if m.event.Cancel? then [W.ForceCommand(0)] else [])
      && (StageAt(run, n + 1).Active? || StageAt(run, n + 1).WaitRestore?)
      && (StageAt(run, n + 1).WaitRestore? <==>
            m.event.Cancel? ||
            (m.event.Process? && HeaderIsMain(m.env.frame) && (HasRun(run, k, n) || NeverRan(run, k, n))))
  {
    k := ActiveSince(run, n);
    NothingRunsAtRest(run, n);
    WrappedDifference(run[n].now, run[k].now);
  }

  // ----- giving the mode back

  /** How long the workflow waits after step k before it gives the mode back. */
  ghost predicate WaitsFor(run: seq<Moment>, k: nat, delayMs: nat)
    requires k < |run|
  {
    delayMs ==
      if StageAt(run, k).WaitRestore? then 5000
      else if run[k].event.Cancel? || (StageAt(run, k).Active? && RanBefore(run, k)) then 10000
      else 1000
  }

  /** The sterilization that is active before step n has been seen to run. */
  ghost predicate RanBefore(run: seq<Moment>, n: nat)
    requires n <= |run|
  {
    exists f :: Since(run, n, f, W.Active) && SeenRunning(run, f, n)
  }

  lemma RanExactly(run: seq<Moment>, n: nat)
    requires n <= |run| && Timed(run) && StageAt(run, n).Active?
    ensures At(run, n).observedActive <==> RanBefore(run, n)
  {
    var k := ActiveSince(run, n);
    if f :| Since(run, n, f, W.Active) && SeenRunning(run, f, n) {
      SinceOnce(run, n, k, f, W.Active);
    }
  }

  /** Step t began the wait for the restore, or was refused the mode; since then nothing has been tried. */
  ghost predicate QuietSince(run: seq<Moment>, n: nat, t: nat)
    requires n <= |run|
  {
    && t < n && (StageAt(run, t).WaitRestore? ==> Tried(run, t) != [])
    && (forall j :: t < j <= n ==> StageAt(run, j).WaitRestore?)
    && (forall j :: t < j < n ==> Tried(run, j) == [])
  }

  lemma RefusalWaits(run: seq<Moment>, k: nat)
    requires k < |run| && Timed(run) && StageAt(run, k).WaitRestore? && StageAt(run, k + 1).WaitRestore?
    requires Tried(run, k) != []
    ensures At(run, k + 1).nextActionAt == Wrap32(run[k].now + 5000)
  {
    NothingRunsAtRest(run, k);
    DelayFromCounter(run[k], 5000);
  }

  /** A wait that begins after a cancel, after a completed run, or after a force that was refused or came to nothing. */
  lemma EndWaits(run: seq<Moment>, k: nat)
    requires k < |run| && Timed(run) && !StageAt(run, k).WaitRestore? && StageAt(run, k + 1).WaitRestore?
    ensures
      var ended := run[k].event.Cancel? || (StageAt(run, k).Active? && At(run, k).observedActive);
      At(run, k + 1).nextActionAt == Wrap32(run[k].now + if ended then 10000 else 1000)
  {
    NothingRunsAtRest(run, k);
    DelayFromCounter(run[k], 10000);
    DelayFromCounter(run[k], 1000);
  }

  /** The wait that step k begins. */
  lemma WaitBegins(run: seq<Moment>, k: nat) returns (delayMs: nat)
    requires k < |run| && Timed(run) && StageAt(run, k + 1).WaitRestore?
    requires StageAt(run, k).WaitRestore? ==> Tried(run, k) != []
    ensures WaitsFor(run, k, delayMs) && At(run, k + 1).nextActionAt == Wrap32(run[k].now + delayMs)
  {
    if StageAt(run, k).WaitRestore? {
      RefusalWaits(run, k);
      delayMs := 5000;
    } else {
      EndWaits(run, k);
      if StageAt(run, k).Active? {
        RanExactly(run, k);
      }
      delayMs := if run[k].event.Cancel? || (StageAt(run, k).Active? && RanBefore(run, k)) then 10000 else 1000;
    }
  }

  lemma {:induction false} RestoringSince(run: seq<Moment>, n: nat) returns (t: nat, delayMs: nat)
    requires n <= |run| && Timed(run) && StageAt(run, n).WaitRestore?
    ensures QuietSince(run, n, t) && WaitsFor(run, t, delayMs)
    ensures At(run, n).nextActionAt == Wrap32(run[t].now + delayMs)
  {
    if StageAt(run, n - 1).WaitRestore? && Tried(run, n - 1) == [] {
      t, delayMs := RestoringSince(run, n - 1);
      NothingRunsAtRest(run, n - 1);
    } else {
      t := n - 1;
      delayMs := WaitBegins(run, t);
    }
  }

  /**
   The mode is given back in the first loop step that long after the wait began or the mode was refused: the mode that
   the pump was in when the workflow started, unless that was DHW-only mode. Taken, or with nothing to give back, the
   workflow is over; refused, it waits again. No other step sends anything or ends the workflow.
   */
  lemma RestoresExactly(run: seq<Moment>, n: nat) returns (s: nat, mode: int, t: nat, delayMs: nat)
    requires n < |run| && Timed(run) && StageAt(run, n).WaitRestore?
    ensures StartedIn(run, n, s, mode) && QuietSince(run, n, t) && WaitsFor(run, t, delayMs)
    ensures
      var m := run[n];
      if m.event.Process? && Passed(m.now, run[t].now, delayMs) then
        && Tried(run, n) == (if mode == 3 then [] else [W.ModeCommand(mode)])
        && StageAt(run, n + 1) == if mode == 3 || TakesMode(m.env, mode) then W.Idle else W.WaitRestore
      else At(run, n + 1) == At(run, n) && Tried(run, n) == []
  {
    s := RunningSince(run, n);
    mode := At(run, n).previousMode;
    t, delayMs := RestoringSince(run, n);
    NothingRunsAtRest(run, n);
    ModeExactly(run[s].env, mode);
    AcceptedExactly(run[n].env, mode);
    ReachedExactly(run[n].now, run[t].now, delayMs);
  }

  // ----- a force that was taken is not forgotten

  /** The sterilization forced in step k was ended in step e, for one of the three reasons. */
  ghost predicate EndedIn(run: seq<Moment>, k: nat, e: nat)
    requires k < e < |run|
  {
    || (run[e].event.Cancel? && Tried(run, e) == [W.ForceCommand(0)])
    || (run[e].event.Process? && HeaderIsMain(run[e].env.frame) && (HasRun(run, k, e) || NeverRan(run, k, e)))
  }

  /** The step behind the last one in which the sterilization forced in step k was still active. */
  lemma {:induction false} ActiveUpTo(run: seq<Moment>, k: nat, n: nat) returns (e: nat)
    requires k < n <= |run| && !StageAt(run, k).Active? && StageAt(run, k + 1).Active? && !StageAt(run, n).Active?
    ensures k < e < n && Since(run, e, k, W.Active) && !StageAt(run, e + 1).Active?
    decreases n
  {
    if j :| k < j < n && !StageAt(run, j).Active? {
      e := ActiveUpTo(run, k, j);
    } else {
      e := n - 1;
    }
  }

  /**
   If the force was taken in step k and the workflow is over by step n, then some step between them tried to switch the
   force off, or saw the sterilization done after it had been seen to run, or saw that it never ran within a minute.
   */
  lemma ForceIsEnded(run: seq<Moment>, k: nat, n: nat) returns (e: nat)
    requires k < n <= |run| && Timed(run)
    requires !StageAt(run, k).Active? && StageAt(run, k + 1).Active? && StageAt(run, n).Idle?
    ensures k < e < n && EndedIn(run, k, e)
  {
    e := ActiveUpTo(run, k, n);
    var f := EndsExactly(run, e);
    SinceOnce(run, e, k, f, W.Active);
  }
}
