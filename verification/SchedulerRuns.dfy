/**
 Whole runs of the action queue.  Every accepted group gets the next place in a history, which records
 the results its actions were given and how many actions were dropped without being attempted.
 */
module SchedulerRuns {
  import opened Words
  import opened SchedulerEntries
  import opened SchedulerQueue
  import opened SchedulerSteps

  datatype Record = Record(group: Group, results: seq<Result>, dropped: nat)

  /** attempts lists (place in the history, action index) of every attempt, in time order; times their true times. */
  datatype Run = Run(
    queue: seq<Group>,
    lastDispatchAt: uint32,
    enabled: bool,
    clock: nat,
    history: seq<Record>,
    attempts: seq<(nat, nat)>,
    times: seq<nat>)

  datatype Event =
    | Tick(ms: nat)
    | Toggle(enabled: bool)
    | Enqueue(group: Group)
    | Dispatch(guardOk: bool, answer: Result)
    | ClockLost

  function Boot(clock: nat): Run {
    Run([], 0, true, clock, [], [], [])
  }

  /** The place in the history of the group at the head of the queue. */
  function HeadPlace(g: Run): int {
    |g.history| - |g.queue|
  }

  function WithResult(r: Record, result: Result): Record {
    var left := |r.group.actions| - |r.results| - 1;
    Record(r.group, r.results + [result], if Continues(result) || left < 0 then r.dropped else left)
  }

  /** A cancelled group loses its remaining actions. */
  function WithRestDropped(r: Record): Record {
    var left := |r.group.actions| - |r.results|;
    r.(dropped := if left < 0 then 0 else left)
  }

  function CancelledFrom(history: seq<Record>, place: int): (h: seq<Record>)
    ensures |h| == |history|
  {
    seq(|history|, t requires 0 <= t < |history| => if t < place then history[t] else WithRestDropped(history[t]))
  }

  predicate Dispatches(g: Run) {
    g.queue != [] && IntervalOpen(g.lastDispatchAt, Wrap32(g.clock))
  }

  function DispatchHead(g: Run, guardOk: bool, answer: Result): (h: Run)
    requires 0 <= HeadPlace(g) && g.queue != []
    ensures |h.queue| <= |g.queue| && |h.history| == |g.history|
  {
    var place := HeadPlace(g);
    var result := HeadResult(g.queue[0], g.enabled, guardOk, answer);
    g.(queue := Advanced(g.queue, result),
       lastDispatchAt := Wrap32(g.clock),
       history := g.history[place := WithResult(g.history[place], result)],
       attempts := g.attempts + [(place as nat, g.queue[0].nextAction)],
       times := g.times + [g.clock])
  }

  function Step(g: Run, e: Event): (h: Run)
    requires |g.queue| <= |g.history|
    ensures |h.queue| <= |h.history|
  {
    match e
    case Tick(ms) => g.(clock := g.clock + ms)
    case Toggle(enabled) => g.(enabled := enabled)
    case Enqueue(group) =>
      if |g.queue| >= MAX_ENTRIES then g
      else g.(queue := Enqueued(g.queue, group), history := g.history + [Record(group, [], 0)])
    case Dispatch(guardOk, answer) => if Dispatches(g) then DispatchHead(g, guardOk, answer) else g
    case ClockLost => g.(queue := [], history := CancelledFrom(g.history, HeadPlace(g)))
  }

  /** Groups arrive at their first action with between one and four actions. */
  predicate ValidEvent(e: Event) {
    e.Enqueue? ==> ValidGroup(e.group) && e.group.nextAction == 0
  }

  // ----- what every record and the queue keep

  /** The results are those of a prefix of the actions, and only the last of them may stop the group. */
  predicate RecordInv(r: Record) {
    && |r.results| + r.dropped <= |r.group.actions|
    && (forall k :: 0 <= k < |r.results| - 1 ==> Continues(r.results[k]))
  }

  /** Nothing is left to do: every action was attempted, stopped or cancelled. */
  predicate Closed(r: Record) {
    |r.results| + r.dropped == |r.group.actions|
  }

  /** A pending group has been attempted up to its next action, always with a continuing result. */
  predicate Pending(r: Record, q: Group) {
    && ValidGroup(q)
    && r.group.actions == q.actions && r.group.automation == q.automation
    && |r.results| == q.nextAction && r.dropped == 0
    && (forall k :: 0 <= k < |r.results| ==> Continues(r.results[k]))
  }

  predicate HistoryInv(g: Run) {
    && |g.queue| <= |g.history| && |g.queue| <= MAX_ENTRIES
    && (forall t :: 0 <= t < |g.history| ==> RecordInv(g.history[t]))
    && (forall t :: 0 <= t < HeadPlace(g) ==> Closed(g.history[t]))
    && (forall i :: 0 <= i < |g.queue| ==> Pending(g.history[HeadPlace(g) + i], g.queue[i]))
    && (forall i :: 1 <= i < |g.queue| ==> g.queue[i].nextAction == 0)
  }

  /** One attempt follows another: the next action of the same group, or the first action of a later one. */
  predicate Follows(a: (nat, nat), b: (nat, nat)) {
    (b.0 == a.0 && b.1 == a.1 + 1) || (a.0 < b.0 && b.1 == 0)
  }

  predicate OrderInv(g: Run)
    requires |g.queue| <= |g.history|
  {
    && (forall k :: 0 <= k < |g.attempts| - 1 ==> Follows(g.attempts[k], g.attempts[k + 1]))
    && (g.attempts != [] ==>
          var last := g.attempts[|g.attempts| - 1];
          last.0 <= HeadPlace(g) && (last.0 == HeadPlace(g) && g.queue != [] ==> g.queue[0].nextAction == last.1 + 1))
    && (g.queue != [] && g.queue[0].nextAction > 0 ==>
       g.attempts != [] && g.attempts[|g.attempts| - 1].0 == HeadPlace(g))
    && (g.attempts != [] && g.queue == [] ==> g.attempts[|g.attempts| - 1].0 < HeadPlace(g))
  }

  predicate PaceInv(g: Run) {
    && (forall k :: 0 <= k < |g.times| - 1 ==>
          g.times[k] + DISPATCH_INTERVAL_MS <= g.times[k + 1] || Wrap32(g.times[k]) == 0)
    && (g.times == [] ==> g.lastDispatchAt == 0)
    && (g.times != [] ==> g.times[|g.times| - 1] <= g.clock && g.lastDispatchAt == Wrap32(g.times[|g.times| - 1]))
  }

  lemma HeadRecord(r: Record, q: Group, result: Result)
    requires Pending(r, q)
    ensures RecordInv(WithResult(r, result))
    ensures Closed(WithResult(r, result)) || (Continues(result) && q.nextAction + 1 < |q.actions|)
    ensures Continues(result) && q.nextAction + 1 < |q.actions| ==>
              Pending(WithResult(r, result), q.(nextAction := q.nextAction + 1))
  {
  }

  lemma HeadAfterDispatch(g: Run, guardOk: bool, answer: Result)
    requires HistoryInv(g) && g.queue != []
    ensures
      var r := DispatchHead(g, guardOk, answer).history[HeadPlace(g)];
      RecordInv(r) && (|DispatchHead(g, guardOk, answer).queue| < |g.queue| ==> Closed(r))
  {
    var place := HeadPlace(g);
    assert Pending(g.history[place + 0], g.queue[0]);
    HeadRecord(g.history[place], g.queue[0], HeadResult(g.queue[0], g.enabled, guardOk, answer));
  }

  lemma PendingAfterDispatch(g: Run, guardOk: bool, answer: Result, i: nat)
    requires HistoryInv(g) && g.queue != [] && i < |DispatchHead(g, guardOk, answer).queue|
    ensures var h := DispatchHead(g, guardOk, answer); Pending(h.history[HeadPlace(h) + i], h.queue[i])
  {
    var h, place := DispatchHead(g, guardOk, answer), HeadPlace(g);
    if |h.queue| < |g.queue| {
      assert Pending(g.history[place + (i + 1)], g.queue[i + 1]);
    } else {
      assert Pending(g.history[place + i], g.queue[i]);
      HeadRecord(g.history[place], g.queue[0], HeadResult(g.queue[0], g.enabled, guardOk, answer));
    }
  }

  lemma DispatchKeepsHistory(g: Run, guardOk: bool, answer: Result)
    requires HistoryInv(g) && g.queue != []
    ensures HistoryInv(DispatchHead(g, guardOk, answer))
  {
    var h := DispatchHead(g, guardOk, answer);
    HeadAfterDispatch(g, guardOk, answer);
    forall i | 0 <= i < |h.queue| ensures Pending(h.history[HeadPlace(h) + i], h.queue[i]) {
      PendingAfterDispatch(g, guardOk, answer, i);
    }
  }

  lemma EnqueueKeepsHistory(g: Run, group: Group)
    requires HistoryInv(g) && ValidEvent(Enqueue(group)) && |g.queue| < MAX_ENTRIES
    ensures HistoryInv(Step(g, Enqueue(group)))
  {
    var h := Step(g, Enqueue(group));
    assert HeadPlace(h) == HeadPlace(g);
    forall i | 0 <= i < |h.queue| ensures Pending(h.history[HeadPlace(h) + i], h.queue[i]) {
      if i < |g.queue| {
        assert Pending(g.history[HeadPlace(g) + i], g.queue[i]);
      }
    }
  }

  lemma CancelKeepsHistory(g: Run)
    requires HistoryInv(g)
    ensures HistoryInv(Step(g, ClockLost))
  {
    var h := Step(g, ClockLost);
    forall t | 0 <= t < |h.history| ensures RecordInv(h.history[t]) && Closed(h.history[t]) {
      if t >= HeadPlace(g) {
        assert Pending(g.history[HeadPlace(g) + (t - HeadPlace(g))], g.queue[t - HeadPlace(g)]);
      }
    }
  }

  lemma StepKeepsHistory(g: Run, e: Event)
    requires HistoryInv(g) && ValidEvent(e)
    ensures HistoryInv(Step(g, e))
  {
    match e
    case Tick(ms) =>
    case Toggle(enabled) =>
    case Enqueue(group) => if |g.queue| < MAX_ENTRIES { EnqueueKeepsHistory(g, group); }
    case Dispatch(guardOk, answer) => if Dispatches(g) { DispatchKeepsHistory(g, guardOk, answer); }
    case ClockLost => CancelKeepsHistory(g);
  }

  lemma DispatchKeepsOrder(g: Run, guardOk: bool, answer: Result)
    requires HistoryInv(g) && OrderInv(g) && g.queue != []
    ensures OrderInv(DispatchHead(g, guardOk, answer))
  {
    var h := DispatchHead(g, guardOk, answer);
    assert h.attempts == g.attempts + [(HeadPlace(g) as nat, g.queue[0].nextAction)];
    if |h.queue| > 0 && |h.queue| < |g.queue| {
      assert h.queue[0] == g.queue[1];
    }
  }

  lemma StepKeepsOrder(g: Run, e: Event)
    requires HistoryInv(g) && OrderInv(g) && ValidEvent(e)
    ensures HistoryInv(Step(g, e)) && OrderInv(Step(g, e))
  {
    StepKeepsHistory(g, e);
    if e.Dispatch? && Dispatches(g) {
      DispatchKeepsOrder(g, e.guardOk, e.answer);
    }
  }

  lemma DispatchKeepsPace(g: Run, guardOk: bool, answer: Result)
    requires PaceInv(g) && |g.queue| <= |g.history| && Dispatches(g)
    ensures PaceInv(DispatchHead(g, guardOk, answer))
  {
    if g.times != [] {
      ElapsedIsAtMostTrueTime(g.clock, g.times[|g.times| - 1]);
    }
  }

  lemma StepKeepsPace(g: Run, e: Event)
    requires PaceInv(g) && |g.queue| <= |g.history|
    ensures PaceInv(Step(g, e))
  {
    if e.Dispatch? && Dispatches(g) {
      DispatchKeepsPace(g, e.guardOk, e.answer);
    }
  }

  /** A run from boot; an invalid event is skipped. */
  function After(clock: nat, events: seq<Event>): (g: Run)
    ensures |g.queue| <= |g.history|
    decreases |events|
  {
    if events == [] then Boot(clock)
    else
      var earlier := After(clock, events[..|events| - 1]);
      if ValidEvent(events[|events| - 1]) then Step(earlier, events[|events| - 1]) else earlier
  }

  /**
   Over any run: groups are served in the order they were accepted and are not interleaved; what a group
   was given is a prefix of its list in which only the last result may stop it; and every action of every
   accepted group was attempted, was dropped when its group stopped or was cancelled, or is still pending.
   */
  lemma {:induction false} GroupsAreServedInOrder(clock: nat, events: seq<Event>)
    ensures HistoryInv(After(clock, events))
    ensures OrderInv(After(clock, events))
    decreases |events|
  {
    if events != [] {
      GroupsAreServedInOrder(clock, events[..|events| - 1]);
      if ValidEvent(events[|events| - 1]) {
        StepKeepsOrder(After(clock, events[..|events| - 1]), events[|events| - 1]);
      }
    }
  }

  /** Attempts are at least two seconds apart in true time, except after one made at tick 0. */
  lemma {:induction false} DispatchesArePaced(clock: nat, events: seq<Event>)
    ensures PaceInv(After(clock, events))
    decreases |events|
  {
    if events != [] {
      DispatchesArePaced(clock, events[..|events| - 1]);
      if ValidEvent(events[|events| - 1]) {
        StepKeepsPace(After(clock, events[..|events| - 1]), events[|events| - 1]);
      }
    }
  }

  predicate Agrees(s: Scheduler, g: Run) {
    s.queue == g.queue && s.enabled == g.enabled && s.lastDispatchAt == g.lastDispatchAt
  }

  /**
   A run does with its queue exactly what the manager does: it queues, dispatches and, with an invalid clock, cancels.
   */
  lemma RunsActLikeTheManager(g: Run, s: Scheduler, e: Entry, guardOk: bool, answer: Result, c: Clock, hasReader: bool,
                              read: Reader)
    requires |g.queue| <= |g.history| && Agrees(s, g)
    ensures Agrees(s.(queue := Enqueued(s.queue, GroupOf(e))), Step(g, Enqueue(GroupOf(e))))
    ensures Agrees(DispatchStep(s, Wrap32(g.clock), guardOk, answer), Step(g, Dispatch(guardOk, answer)))
    ensures !c.valid ==>
              Agrees(LoopStep(s, c, Wrap32(g.clock), hasReader, read, guardOk, answer), Step(g, ClockLost))
  {
  }

  lemma AfterOneMore(clock: nat, events: seq<Event>, e: Event)
    requires ValidEvent(e)
    ensures After(clock, events + [e]) == Step(After(clock, events), e)
  {
    assert (events + [e])[..|events|] == events;
  }

  lemma DispatchAtTickZero(g: Run)
    requires g.queue != [] && |g.queue| <= |g.history| && g.lastDispatchAt == 0 && g.clock == TWO_32
    ensures
      var h := Step(g, Dispatch(true, Executed));
      && h.lastDispatchAt == 0 && h.times == g.times + [TWO_32] && h.clock == TWO_32
      && (|g.queue[0].actions| == g.queue[0].nextAction + 1 ==> |h.queue| == |g.queue| - 1)
  {
  }

  lemma Queues(g: Run, group: Group)
    requires |g.queue| <= |g.history| && |g.queue| < MAX_ENTRIES
    ensures
      var h := Step(g, Enqueue(group));
      h.queue == g.queue + [group] && h.times == g.times && h.lastDispatchAt == g.lastDispatchAt && h.clock == g.clock
  {
  }

  lemma TwoQueued(clock: nat, first: Group, second: Group)
    requires ValidEvent(Enqueue(first)) && ValidEvent(Enqueue(second))
    ensures
      var g := After(clock, [Enqueue(first), Enqueue(second)]);
      g.queue == [first, second] && g.times == [] && g.lastDispatchAt == 0 && g.clock == clock
  {
    var a, b := Enqueue(first), Enqueue(second);
    AfterOneMore(clock, [], a);
    AfterOneMore(clock, [a], b);
    assert [] + [a] == [a] && [a] + [b] == [a, b];
    Queues(Boot(clock), first);
    Queues(After(clock, [a]), second);
  }

  lemma TwoQueuedAtTickZero(clock: nat, first: Group, second: Group)
    requires clock < TWO_32 && ValidEvent(Enqueue(first)) && ValidEvent(Enqueue(second))
    ensures
      var g := After(clock, [Enqueue(first), Enqueue(second), Tick(TWO_32 - clock)]);
      g.queue == [first, second] && g.times == [] && g.lastDispatchAt == 0 && g.clock == TWO_32
  {
    var queued, tick := [Enqueue(first), Enqueue(second)], Tick(TWO_32 - clock);
    TwoQueued(clock, first, second);
    AfterOneMore(clock, queued, tick);
    assert queued + [tick] == [Enqueue(first), Enqueue(second), tick];
  }

  /** The exception is real: an attempt at tick 0 is forgotten, and the next one follows in the same instant. */
  lemma TickZeroIsForgotten(clock: nat, first: Group, second: Group)
    requires clock < TWO_32
    requires ValidGroup(first) && first.nextAction == 0 && |first.actions| == 1
    requires ValidGroup(second) && second.nextAction == 0
    ensures
      var events := [Enqueue(first), Enqueue(second), Tick(TWO_32 - clock), Dispatch(true, Executed),
        Dispatch(true, Executed)];
      After(clock, events).times == [TWO_32, TWO_32]
  {
    var start, d := [Enqueue(first), Enqueue(second), Tick(TWO_32 - clock)], Dispatch(true, Executed);
    TwoQueuedAtTickZero(clock, first, second);
    AfterOneMore(clock, start, d);
    AfterOneMore(clock, start + [d], d);
    assert start + [d] + [d] == [Enqueue(first), Enqueue(second), Tick(TWO_32 - clock), d, d];
    DispatchAtTickZero(After(clock, start));
    DispatchAtTickZero(After(clock, start + [d]));
  }
}
