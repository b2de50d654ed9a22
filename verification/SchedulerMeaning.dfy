/** What a check of the schedules queues, and what a dispatch does, by the entries, the clock and the answers alone. */
module SchedulerMeaning {
  import opened Words
  import opened ConditionExpressions
  import opened SchedulerEntries
  import opened SchedulerTable
  import opened SchedulerQueue
  import opened SchedulerSteps
  import opened SchedulerRuns

  // ----- which entries are queued

  /** Bit number day of the mask. */
  predicate InMask(mask: nat, day: nat) {
    if day == 0 then mask % 2 == 1 else InMask(mask / 2, day - 1)
  }

  lemma DayOfMask(mask: nat, day: nat)
    requires day <= 6
    ensures OnDay(mask, day) <==> InMask(mask, day)
  {
    var m1 := mask / 2;
    var m2 := m1 / 2;
    var m3 := m2 / 2;
    var m4 := m3 / 2;
    var m5 := m4 / 2;
    assert mask / 4 == m2 && mask / 8 == m3 && mask / 16 == m4 && mask / 32 == m5 && mask / 64 == m5 / 2;
    Shift(mask, day);
    Shift(m1, day - 1);
    Shift(m2, day - 2);
    Shift(m3, day - 3);
    Shift(m4, day - 4);
    Shift(m5, day - 5);
  }

  lemma Shift(mask: nat, day: int)
    ensures day == 0 ==> (InMask(mask, 0) <==> mask % 2 == 1)
    ensures day > 0 ==> (InMask(mask, day) <==> InMask(mask / 2, day - 1))
    ensures day == 1 ==> (InMask(mask, 1) <==> mask / 2 % 2 == 1)
  {
  }

  /** A valid clock shows the entry's time on one of its weekdays. */
  predicate AtItsTime(e: Entry, c: Clock) {
    && c.valid && c.weekDay <= 6 && 0 < e.dayMask < 128 && InMask(e.dayMask, c.weekDay)
    && c.hour == e.hour <= 23 && c.minute == e.minute <= 59
  }

  /** The entry has no conditions, or they can be read and hold. */
  ghost predicate ConditionsPass(e: Entry, i: nat, hasReader: bool, read: Reader) {
    var readings := seq(|e.conditions|, j requires 0 <= j < |e.conditions| => read(i, j));
    e.conditions == [] || (hasReader && exists a :: RunHolds(e.conditions, readings, a))
  }

  /** Entry i is enabled, it is its time, it was not executed in this minute, and its conditions pass. */
  ghost predicate Selected(s: Scheduler, i: nat, c: Clock, hasReader: bool, read: Reader)
    requires i < |s.entries|
  {
    var e := s.entries[i];
    e.enabled && AtItsTime(e, c) && e.lastExecutionKey != MinuteKey(c) && ConditionsPass(e, i, hasReader, read)
  }

  /** The group stands for the entry: its id, all its actions, none of them done. */
  predicate Carries(g: Group, e: Entry) {
    g.entryId == e.id && g.actions == e.actions && g.nextAction == 0 && (g.automation <==> e.id == 0)
  }

  predicate Ascending(chosen: seq<nat>) {
    forall x, y :: 0 <= x < y < |chosen| ==> chosen[x] < chosen[y]
  }

  /** Of the first k entries exactly the chosen ones were queued behind what was there. */
  ghost predicate Queues(s: Scheduler, k: nat, c: Clock, hasReader: bool, read: Reader, queue: seq<Group>,
                         chosen: seq<nat>)
    requires k <= |s.entries|
  {
    && Ascending(chosen) && |queue| == |s.queue| + |chosen| && queue[..|s.queue|] == s.queue
    && (forall x :: 0 <= x < |chosen| ==> chosen[x] < k && Selected(s, chosen[x], c, hasReader, read))
    && (forall x :: 0 <= x < |chosen| ==> Carries(queue[|s.queue| + x], s.entries[chosen[x]]))
    && (forall i: nat :: i < k && Selected(s, i, c, hasReader, read) && i !in chosen ==> LeftOut(i, chosen, queue))
  }

  /** There was no room any more when entry i had its turn. */
  predicate LeftOut(i: nat, chosen: seq<nat>, queue: seq<Group>) {
    |queue| >= 24 && forall x :: 0 <= x < |chosen| ==> chosen[x] < i
  }

  /** The entry once its minute has been looked at. */
  function MarkedAsDone(e: Entry, c: Clock): Entry {
    if AtItsTime(e, c) then e.(lastExecutionKey := MinuteKey(c)) else e
  }

  lemma TimeExactly(e: Entry, c: Clock)
    ensures DueNow(e, c) <==> AtItsTime(e, c) && e.lastExecutionKey != MinuteKey(c)
  {
    if c.weekDay <= 6 {
      DayOfMask(e.dayMask, c.weekDay);
    }
  }

  lemma ConditionsExactly(e: Entry, i: nat, hasReader: bool, read: Reader)
    ensures Allowed(e, i, hasReader, read) <==> ConditionsPass(e, i, hasReader, read)
  {
    var readings := seq(|e.conditions|, j requires 0 <= j < |e.conditions| => read(i, j));
    assert Readings(e, i, read) == readings;
    if e.conditions != [] {
      PassesExactly(e.conditions, readings);
    }
  }

  lemma FiresExactly(s: Scheduler, i: nat, c: Clock, hasReader: bool, read: Reader)
    requires i < |s.entries|
    ensures Fires(s.entries[i], i, s.enabled, c, hasReader, read) <==>
            s.enabled && Selected(s, i, c, hasReader, read)
  {
    TimeExactly(s.entries[i], c);
    ConditionsExactly(s.entries[i], i, hasReader, read);
  }

  /** While there is room, every selected entry so far was queued. */
  lemma NoneLeftOut(s: Scheduler, k: nat, c: Clock, hasReader: bool, read: Reader, queue: seq<Group>,
                    chosen: seq<nat>)
    requires k <= |s.entries| && Queues(s, k, c, hasReader, read, queue, chosen) && |queue| < 24
    ensures forall i: nat :: i < k && Selected(s, i, c, hasReader, read) ==> i in chosen
  {
  }

  lemma CarriesItsEntry(e: Entry)
    ensures Carries(GroupOf(e), e)
  {
  }

  lemma OneMoreQueued(s: Scheduler, k: nat, c: Clock, hasReader: bool, read: Reader, queue: seq<Group>,
                      chosen: seq<nat>)
    requires k < |s.entries| && Queues(s, k, c, hasReader, read, queue, chosen)
    requires Selected(s, k, c, hasReader, read) && |queue| < 24
    ensures Queues(s, k + 1, c, hasReader, read, queue + [GroupOf(s.entries[k])], chosen + [k])
  {
    var more, longer := chosen + [k], queue + [GroupOf(s.entries[k])];
    NoneLeftOut(s, k, c, hasReader, read, queue, chosen);
    CarriesItsEntry(s.entries[k]);
    assert more[|chosen|] == k;
    forall i: nat | i < k && i in chosen ensures i in more {
      var x :| 0 <= x < |chosen| && chosen[x] == i;
      assert more[x] == i;
    }
    assert longer[..|s.queue|] == queue[..|s.queue|];
  }

  lemma NothingMoreQueued(s: Scheduler, k: nat, c: Clock, hasReader: bool, read: Reader, queue: seq<Group>,
                          chosen: seq<nat>)
    requires k < |s.entries| && Queues(s, k, c, hasReader, read, queue, chosen)
    requires !Selected(s, k, c, hasReader, read) || |queue| >= 24
    ensures Queues(s, k + 1, c, hasReader, read, queue, chosen)
  {
  }

  lemma {:induction false} QueuedSoFar(s: Scheduler, k: nat, c: Clock, hasReader: bool, read: Reader)
    returns (chosen: seq<nat>)
    requires k <= |s.entries| && s.enabled
    ensures Queues(s, k, c, hasReader, read, QueueAfter(s, k, c, hasReader, read), chosen)
  {
    if k == 0 {
      chosen := [];
    } else {
      chosen := QueuedSoFar(s, k - 1, c, hasReader, read);
      var queue := QueueAfter(s, k - 1, c, hasReader, read);
      FiresExactly(s, k - 1, c, hasReader, read);
      if Selected(s, k - 1, c, hasReader, read) && |queue| < 24 {
        OneMoreQueued(s, k - 1, c, hasReader, read, queue, chosen);
        chosen := chosen + [k - 1];
      } else {
        NothingMoreQueued(s, k - 1, c, hasReader, read, queue, chosen);
      }
    }
  }

  /** Exactly the selected entries were queued, as long as there was room. */
  ghost predicate QueuesSelected(s: Scheduler, c: Clock, hasReader: bool, read: Reader, queue: seq<Group>) {
    exists chosen :: Queues(s, |s.entries|, c, hasReader, read, queue, chosen)
  }

  lemma SelectedAreQueued(s: Scheduler, c: Clock, hasReader: bool, read: Reader)
    requires s.enabled
    ensures QueuesSelected(s, c, hasReader, read, QueueAfter(s, |s.entries|, c, hasReader, read))
  {
    var chosen := QueuedSoFar(s, |s.entries|, c, hasReader, read);
  }

  lemma {:induction false} PausedQueuesNothing(s: Scheduler, k: nat, c: Clock, hasReader: bool, read: Reader)
    requires k <= |s.entries| && !s.enabled
    ensures QueueAfter(s, k, c, hasReader, read) == s.queue
  {
    if k > 0 {
      PausedQueuesNothing(s, k - 1, c, hasReader, read);
    }
  }

  /**
   A check while the scheduler is paused queues nothing. Otherwise it appends, in the order of the table, one group for
   every entry that is selected, as long as there is room; each carries the entry's id and all its actions. Paused or
   not, every entry whose time it is is marked as executed in this minute, and nothing else changes.
   */
  lemma CheckQueuesExactly(s: Scheduler, c: Clock, hasReader: bool, read: Reader)
    ensures
      var t := CheckStep(s, c, hasReader, read);
      && (!s.enabled ==> t.queue == s.queue)
      && (s.enabled ==> QueuesSelected(s, c, hasReader, read, t.queue))
      && t.enabled == s.enabled && t.lastChecked == s.lastChecked && t.lastDispatchAt == s.lastDispatchAt
      && |t.entries| == |s.entries|
      && forall i :: 0 <= i < |s.entries| ==> t.entries[i] == MarkedAsDone(s.entries[i], c)
  {
    if s.enabled {
      SelectedAreQueued(s, c, hasReader, read);
    } else {
      PausedQueuesNothing(s, |s.entries|, c, hasReader, read);
    }
    forall i | 0 <= i < |s.entries|
      ensures Claimed(s.entries[i], c) == MarkedAsDone(s.entries[i], c)
    {
      TimeExactly(s.entries[i], c);
    }
  }

  // ----- edits

  /**
   An edit replaces everything about its entry but the minute in which it was executed last, and no other entry; so an
   entry that is edited in the minute in which it was executed does not run again in that minute.
   */
  lemma EditDoesNotRepeat(s: Scheduler, e: Entry, t: Scheduler, i: nat, c: Clock, hasReader: bool, read: Reader)
    requires TableInv(s.entries) && e.id != 0 && Upserted(s.entries, e, t.entries)
    requires i < |s.entries| && s.entries[i].id == e.id
    ensures |t.entries| == |s.entries| && t.entries[i].(lastExecutionKey := e.lastExecutionKey) == e
    ensures forall j :: 0 <= j < |s.entries| && j != i ==> t.entries[j] == s.entries[j]
    ensures s.entries[i].lastExecutionKey == MinuteKey(c) ==> !Selected(t, i, c, hasReader, read)
  {
    var k :| 0 <= k < |s.entries| && s.entries[k].id == e.id &&
             t.entries == s.entries[k := e.(lastExecutionKey := s.entries[k].lastExecutionKey)];
    assert k == i;
  }

  // ----- what a dispatch does

  /** The last attempt is two seconds ago, by a clock that comes round; an attempt at tick 0 is not remembered. */
  predicate MayDispatch(g: Run) {
    g.times == [] || g.times[|g.times| - 1] % 0x1_0000_0000 == 0 ||
    (g.clock - g.times[|g.times| - 1]) % 0x1_0000_0000 >= 2000
  }

  lemma IntervalExactly(g: Run)
    requires PaceInv(g)
    ensures IntervalOpen(g.lastDispatchAt, Wrap32(g.clock)) <==> MayDispatch(g)
  {
    if g.times != [] {
      ElapsedIsAtMostTrueTime(g.clock, g.times[|g.times| - 1]);
    }
  }

  /** The action counts as done, so the group may go on. */
  predicate Done(r: Result) {
    r == Executed || r == NoChange
  }

  /** The head group after this result: at its next action, or gone. */
  predicate GoesOn(was: seq<Group>, now: seq<Group>, r: Result)
    requires was != []
  {
    var head := was[0];
    if Done(r) && head.nextAction + 1 < |head.actions| then
      && |now| == |was| && now[1..] == was[1..]
      && now[0] == Group(head.entryId, head.actions, head.nextAction + 1, head.automation)
    else now == was[1..]
  }

  lemma HeadGoesOn(queue: seq<Group>, r: Result)
    requires queue != []
    ensures GoesOn(queue, Advanced(queue, r), r)
  {
  }

  /** The head action was attempted with this result, and the run remembers it. */
  predicate Attempts(g: Run, h: Run, result: Result)
    requires g.queue != [] && |g.queue| <= |g.history|
  {
    var place, head := |g.history| - |g.queue|, g.queue[0];
    && GoesOn(g.queue, h.queue, result)
    && |h.history| == |g.history| && h.history[place].results == g.history[place].results + [result]
    && h.attempts == g.attempts + [(place, head.nextAction)] && h.times == g.times + [g.clock]
  }

  lemma HeadIsAttempted(g: Run, guardOk: bool, answer: Result)
    requires g.queue != [] && |g.queue| <= |g.history|
    ensures Attempts(g, DispatchHead(g, guardOk, answer),
                     if (g.enabled || g.queue[0].automation) && guardOk then answer else Failed)
  {
    HeadGoesOn(g.queue, HeadResult(g.queue[0], g.enabled, guardOk, answer));
  }

  /**
   A dispatch attempts the next action of the oldest group if and only if there is one and the last attempt was two
   seconds ago. The dispatcher's answer counts only if the scheduler is enabled, or the group is an automation, and its
   guard agrees; otherwise the action has failed. A failed or busy action ends its group.
   */
  lemma DispatchExactly(clock: nat, events: seq<Event>, guardOk: bool, answer: Result)
    ensures
      var g := After(clock, events);
      var h := Step(g, Dispatch(guardOk, answer));
      if g.queue == [] || !MayDispatch(g) then h == g
      else Attempts(g, h, if (g.enabled || g.queue[0].automation) && guardOk then answer else Failed)
  {
    var g := After(clock, events);
    DispatchesArePaced(clock, events);
    IntervalExactly(g);
    if g.queue != [] {
      HeadIsAttempted(g, guardOk, answer);
    }
  }

  // ----- the loop as events of a run

  /** The run after these groups have been queued. */
  function WithQueued(g: Run, groups: seq<Group>): (h: Run)
    requires |g.queue| <= |g.history|
    ensures |h.queue| <= |h.history|
    decreases |groups|
  {
    if groups == [] then g else Step(WithQueued(g, groups[..|groups| - 1]), Enqueue(groups[|groups| - 1]))
  }

  lemma {:induction false} QueuedInOrder(g: Run, groups: seq<Group>)
    requires |g.queue| <= |g.history| && |g.queue| + |groups| <= 24
    ensures
      var h := WithQueued(g, groups);
      && h.queue == g.queue + groups && h.clock == g.clock
      && h.enabled == g.enabled && h.lastDispatchAt == g.lastDispatchAt
    decreases |groups|
  {
    if groups != [] {
      QueuedInOrder(g, groups[..|groups| - 1]);
      assert groups == groups[..|groups| - 1] + [groups[|groups| - 1]];
    }
  }

  lemma {:induction false} CheckAppends(s: Scheduler, k: nat, c: Clock, hasReader: bool, read: Reader)
    requires k <= |s.entries| && |s.queue| <= 24
    ensures
      var queue := QueueAfter(s, k, c, hasReader, read);
      |s.queue| <= |queue| <= 24 && queue[..|s.queue|] == s.queue
  {
    if k > 0 {
      CheckAppends(s, k - 1, c, hasReader, read);
    }
  }

  /** The groups that this call of the loop queues: those of the check, in a minute that was not checked before. */
  function NewGroups(s: Scheduler, c: Clock, hasReader: bool, read: Reader): seq<Group> {
    if MinuteKey(c) == s.lastChecked then []
    else
      var queue := CheckStep(s, c, hasReader, read).queue;
      if |s.queue| <= |queue| then queue[|s.queue|..] else []
  }

  lemma CheckedMinute(s: Scheduler, c: Clock, hasReader: bool, read: Reader)
    requires |s.queue| <= 24
    ensures
      var after, groups := AfterCheck(s, c, hasReader, read), NewGroups(s, c, hasReader, read);
      && |s.queue| + |groups| <= 24 && after.queue == s.queue + groups
      && after.enabled == s.enabled && after.lastDispatchAt == s.lastDispatchAt
  {
    CheckAppends(s, |s.entries|, c, hasReader, read);
    LaterCheckedSame(s, |s.entries|, MinuteKey(c), c, hasReader, read);
  }

  /** After a call of the loop with a valid clock this minute is checked, and entries whose time it is are marked. */
  lemma LoopMarksTheMinute(s: Scheduler, c: Clock, now: uint32, hasReader: bool, read: Reader, guardOk: bool,
                           answer: Result)
    requires c.valid
    ensures
      var t := LoopStep(s, c, now, hasReader, read, guardOk, answer);
      && t.lastChecked == MinuteKey(c) && t.enabled == s.enabled && |t.entries| == |s.entries|
      && forall i :: 0 <= i < |s.entries| ==>
           t.entries[i] == if MinuteKey(c) == s.lastChecked then s.entries[i] else MarkedAsDone(s.entries[i], c)
  {
    if MinuteKey(c) != s.lastChecked {
      CheckQueuesExactly(s.(lastChecked := MinuteKey(c)), c, hasReader, read);
    }
  }

  lemma DispatchesAgree(s: Scheduler, g: Run, guardOk: bool, answer: Result)
    requires |g.queue| <= |g.history| && Agrees(s, g)
    ensures Agrees(DispatchStep(s, Wrap32(g.clock), guardOk, answer), Step(g, Dispatch(guardOk, answer)))
  {
  }

  /** With a valid clock, a call of the loop queues the groups of a new minute one by one and then dispatches once. */
  lemma LoopIsARun(g: Run, s: Scheduler, c: Clock, hasReader: bool, read: Reader, guardOk: bool, answer: Result)
    requires |g.queue| <= |g.history| && |g.queue| <= 24 && Agrees(s, g) && c.valid
    ensures Agrees(LoopStep(s, c, Wrap32(g.clock), hasReader, read, guardOk, answer),
                   Step(WithQueued(g, NewGroups(s, c, hasReader, read)), Dispatch(guardOk, answer)))
  {
    var groups, after := NewGroups(s, c, hasReader, read), AfterCheck(s, c, hasReader, read);
    CheckedMinute(s, c, hasReader, read);
    QueuedInOrder(g, groups);
    DispatchesAgree(after, WithQueued(g, groups), guardOk, answer);
  }

  lemma {:induction false} LaterCheckedSame(s: Scheduler, k: nat, key: uint32, c: Clock, hasReader: bool, read: Reader)
    requires k <= |s.entries|
    ensures QueueAfter(s.(lastChecked := key), k, c, hasReader, read) == QueueAfter(s, k, c, hasReader, read)
  {
    if k > 0 {
      LaterCheckedSame(s, k - 1, key, c, hasReader, read);
    }
  }
}
