/** The queue of action groups as a specification on sequences. */
module SchedulerQueue {
  import opened Words
  import opened SchedulerEntries

  const DISPATCH_INTERVAL_MS := 2000

  datatype Result = Executed | NoChange | Busy | Failed

  /** `automation` groups (entry id 0) run even while the scheduler is disabled. */
  datatype Group = Group(entryId: nat, actions: seq<Action>, nextAction: nat, automation: bool)

  function GroupOf(e: Entry): Group {
    Group(e.id, e.actions, 0, e.id == 0)
  }

  predicate ValidGroup(g: Group) {
    0 < |g.actions| <= MAX_ACTIONS && g.nextAction < |g.actions|
  }

  predicate QueueInv(queue: seq<Group>) {
    |queue| <= MAX_ENTRIES && forall i :: 0 <= i < |queue| ==> ValidGroup(queue[i])
  }

  /** `schedulerSequenceContinues`. */
  predicate Continues(r: Result) {
    r.Executed? || r.NoChange?
  }

  /** `schedulerDispatchReady` for a non-empty queue; tick 0 means "never dispatched". */
  predicate IntervalOpen(lastDispatchAt: uint32, now: uint32) {
    lastDispatchAt == 0 || Elapsed(now, lastDispatchAt) >= DISPATCH_INTERVAL_MS
  }

  /** A full queue refuses the group. */
  function Enqueued(queue: seq<Group>, g: Group): seq<Group> {
    if |queue| < MAX_ENTRIES then queue + [g] else queue
  }

  /** The head group moves to its next action, or leaves the queue at its end or at the first stopping result. */
  function Advanced(queue: seq<Group>, r: Result): seq<Group>
    requires queue != []
  {
    var head := queue[0];
    if Continues(r) && head.nextAction + 1 < |head.actions|
    then [head.(nextAction := head.nextAction + 1)] + queue[1..]
    else queue[1..]
  }

  /** What the dispatcher, the guard and the enabled flag make of the head action. */
  function HeadResult(head: Group, enabled: bool, guardOk: bool, answer: Result): Result {
    if (!head.automation && !enabled) || !guardOk then Failed else answer
  }
}

/** One scheduler as a value, and what each of its steps does to it. */
module SchedulerSteps {
  import opened Words
  import opened ConditionExpressions
  import opened SchedulerEntries
  import opened SchedulerQueue

  datatype Scheduler = Scheduler(
    entries: seq<Entry>,
    queue: seq<Group>,
    enabled: bool,
    lastChecked: uint32,
    lastDispatchAt: uint32)

  /** read(i, j) is the reading for condition j of entry i; None when it is unavailable. */
  type Reader = (nat, nat) -> Option<real>

  function Readings(e: Entry, i: nat, read: Reader): (r: seq<Option<real>>)
    ensures |r| == |e.conditions|
  {
    seq(|e.conditions|, j requires 0 <= j < |e.conditions| => read(i, j))
  }

  /** The conditions of entry i let it run. */
  predicate Allowed(e: Entry, i: nat, hasReader: bool, read: Reader) {
    e.conditions == [] || (hasReader && Passes(e.conditions, Readings(e, i, read)))
  }

  /** Entry i, with contents e, is queued by this pass. */
  predicate Fires(e: Entry, i: nat, enabled: bool, c: Clock, hasReader: bool, read: Reader) {
    DueNow(e, c) && enabled && e.enabled && Allowed(e, i, hasReader, read)
  }

  /** The queue after the first k entries have been looked at. */
  function QueueAfter(s: Scheduler, k: nat, c: Clock, hasReader: bool, read: Reader): seq<Group>
    requires k <= |s.entries|
  {
    if k == 0 then s.queue
    else
      var earlier := QueueAfter(s, k - 1, c, hasReader, read);
      if Fires(s.entries[k - 1], k - 1, s.enabled, c, hasReader, read)
      then Enqueued(earlier, GroupOf(s.entries[k - 1])) else earlier
  }

  /** The entries once the first k have been looked at. */
  function ClaimedFirst(entries: seq<Entry>, k: nat, c: Clock): (r: seq<Entry>)
    ensures |r| == |entries|
  {
    seq(|entries|, i requires 0 <= i < |entries| => if i < k then Claimed(entries[i], c) else entries[i])
  }

  /** The scheduler once the first k entries have been looked at. */
  function CheckedFirst(s: Scheduler, k: nat, c: Clock, hasReader: bool, read: Reader): Scheduler
    requires k <= |s.entries|
  {
    s.(entries := ClaimedFirst(s.entries, k, c), queue := QueueAfter(s, k, c, hasReader, read))
  }

  /** The scheduler after a look at entry i. */
  function CheckedOne(s: Scheduler, i: nat, c: Clock, hasReader: bool, read: Reader): Scheduler
    requires i < |s.entries|
  {
    var e := s.entries[i];
    s.(entries := s.entries[i := Claimed(e, c)],
       queue := if Fires(e, i, s.enabled, c, hasReader, read) then Enqueued(s.queue, GroupOf(e)) else s.queue)
  }

  lemma CheckNext(s: Scheduler, k: nat, c: Clock, hasReader: bool, read: Reader)
    requires k < |s.entries|
    ensures CheckedFirst(s, k + 1, c, hasReader, read) ==
            CheckedOne(CheckedFirst(s, k, c, hasReader, read), k, c, hasReader, read)
  {
    assert ClaimedFirst(s.entries, k, c)[k] == s.entries[k];
    assert ClaimedFirst(s.entries, k + 1, c) == ClaimedFirst(s.entries, k, c)[k := Claimed(s.entries[k], c)];
  }

  lemma NothingChecked(s: Scheduler, c: Clock, hasReader: bool, read: Reader)
    ensures CheckedFirst(s, 0, c, hasReader, read) == s
  {
    assert ClaimedFirst(s.entries, 0, c) == s.entries;
  }

  /** `checkSchedules`. */
  function CheckStep(s: Scheduler, c: Clock, hasReader: bool, read: Reader): Scheduler {
    CheckedFirst(s, |s.entries|, c, hasReader, read)
  }

  predicate Ready(s: Scheduler, now: uint32) {
    s.queue != [] && IntervalOpen(s.lastDispatchAt, now)
  }

  /** `dispatchNext`. */
  function DispatchStep(s: Scheduler, now: uint32, guardOk: bool, answer: Result): Scheduler {
    if !Ready(s, now) then s
    else s.(queue := Advanced(s.queue, HeadResult(s.queue[0], s.enabled, guardOk, answer)), lastDispatchAt := now)
  }

  /** `loop`: an invalid clock cancels everything pending; a new minute is checked; then one action may go out. */
  function LoopStep(s: Scheduler, c: Clock, now: uint32, hasReader: bool, read: Reader, guardOk: bool,
                    answer: Result): Scheduler {
    if !c.valid then s.(queue := [])
    else DispatchStep(AfterCheck(s, c, hasReader, read), now, guardOk, answer)
  }

  function AfterCheck(s: Scheduler, c: Clock, hasReader: bool, read: Reader): Scheduler {
    if MinuteKey(c) == s.lastChecked then s else CheckStep(s.(lastChecked := MinuteKey(c)), c, hasReader, read)
  }
}
