/** The scheduler as the controller keeps it: two fixed arrays and a few counters changed in place. */
module SchedulerManager {
  import opened Words
  import opened Rings
  import opened ConditionExpressions
  import opened SchedulerEntries
  import opened SchedulerTable
  import opened SchedulerQueue
  import opened SchedulerSteps

  const NO_ENTRY := Entry(0, false, "", 0, 0, 0, [], [], 0)
  const NO_GROUP := Group(0, [], 0, false)

  class Manager {
    const entries: array<Entry>
    const pending: array<Group>
    var count: nat
    var pendingStart: nat
    var pendingCount: nat
    var enabled: bool
    var lastCheckedMinuteKey: uint32
    var lastDispatchAt: uint32

    ghost predicate Valid()
      reads this, entries, pending
    {
      && entries.Length == MAX_ENTRIES && pending.Length == MAX_ENTRIES
      && count <= MAX_ENTRIES
      && pendingStart < MAX_ENTRIES && pendingCount <= MAX_ENTRIES
      && TableInv(entries[..count])
      && QueueInv(Ring(pending[..], pendingStart, pendingCount))
    }

    ghost function Entries(): seq<Entry>
      requires Valid()
      reads this, entries, pending
    {
      entries[..count]
    }

    ghost function Queue(): seq<Group>
      requires Valid()
      reads this, entries, pending
    {
      Ring(pending[..], pendingStart, pendingCount)
    }

    ghost function State(): Scheduler
      requires Valid()
      reads this, entries, pending
    {
      Scheduler(Entries(), Queue(), enabled, lastCheckedMinuteKey, lastDispatchAt)
    }

    constructor ()
      ensures Valid() && fresh(entries) && fresh(pending)
      ensures State() == Scheduler([], [], true, NEVER, 0)
    {
      entries := new Entry[MAX_ENTRIES](_ => NO_ENTRY);
      pending := new Group[MAX_ENTRIES](_ => NO_GROUP);
      count, pendingStart, pendingCount := 0, 0, 0;
      enabled, lastCheckedMinuteKey, lastDispatchAt := true, NEVER, 0;
    }

    // ----- the table

    method FindIndex(id: nat) returns (index: int)
      requires Valid()
      ensures index == -1 ==> id !in Ids(Entries())
      ensures index != -1 ==> 0 <= index < count && entries[index].id == id
    {
      index := 0;
      while index < count
        invariant 0 <= index <= count
        invariant forall j :: 0 <= j < index ==> entries[j].id != id
      {
        if entries[index].id == id { return; }
        index := index + 1;
      }
      index := -1;
    }

    /** `nextId`: the least unused id; a table of 24 entries never runs out of ids. */
    method NextId() returns (id: nat)
      requires Valid()
      ensures 0 < id <= MAX_ID && id !in Ids(Entries())
      ensures forall smaller :: 0 < smaller < id ==> smaller in Ids(Entries())
    {
      id := 1;
      while id <= MAX_ID
        invariant 1 <= id <= MAX_ID + 1
        invariant forall smaller :: 0 < smaller < id ==> smaller in Ids(Entries())
      {
        var index := FindIndex(id);
        if index == -1 { return; }
        assert Entries()[index].id == id;
        id := id + 1;
      }
      SomeIdIsFree(Entries());
      assert false;
    }

    /** `upsert`; parsed is the entry read from the request, saveOk what the file system answers. */
    method Upsert(parsed: Option<Entry>, saveOk: bool) returns (ok: bool)
      requires Valid() && (parsed.Some? ==> parsed.value.id <= MAX_ID)
      modifies this`count, entries
      ensures Valid()
      ensures ok <==> saveOk && parsed.Some? && Acceptable(old(Entries()), parsed.value)
      ensures ok ==> Upserted(old(Entries()), parsed.value, Entries())
      ensures !ok ==> Entries() == old(Entries())
      ensures Queue() == old(Queue())
    {
      ok := false;
      if parsed.None? || !ValidEntry(parsed.value) || UsesLegacyZone1(parsed.value) { return; }
      var entry := parsed.value;
      var index := -1;
      if entry.id != 0 {
        index := FindIndex(entry.id);
        if index == -1 { return; }
        assert Entries()[index].id in Ids(Entries());
      }
      ghost var before := Entries();
      if index == -1 {
        if count >= MAX_ENTRIES { return; }
        var id := NextId();
        entries[count] := entry.(id := id);
        count := count + 1;
        assert entries[..count] == before + [entry.(id := id)];
        assert Upserted(before, entry, entries[..count]);
        if !saveOk {
          count := count - 1;
          assert entries[..count] == before;
          return;
        }
      } else {
        var previous := entries[index];
        entries[index] := entry.(lastExecutionKey := previous.lastExecutionKey);
        assert entries[..count] == before[index := entry.(lastExecutionKey := before[index].lastExecutionKey)];
        assert Upserted(before, entry, entries[..count]);
        if !saveOk {
          entries[index] := previous;
          assert entries[..count] == before;
          return;
        }
      }
      UpsertKeepsTable(before, entry, entries[..count]);
      ok := true;
    }

    /** Undoes a removal. */
    method PutBack(index: nat, removed: Entry, ghost before: seq<Entry>)
      requires entries.Length == MAX_ENTRIES && index < |before| <= MAX_ENTRIES && removed == before[index]
      requires count == |before| - 1 && entries[..count] == Removed(before, index)
      modifies this`count, entries
      ensures count == |before| && entries[..count] == before
    {
      ShiftRight(index, removed);
      InsertedBack(before, index);
    }

    /** `remove`: shifts the tail left, and back right when saving fails. */
    method Remove(id: nat, saveOk: bool) returns (ok: bool)
      requires Valid()
      modifies this`count, entries
      ensures Valid()
      ensures ok <==> saveOk && id in old(Ids(Entries()))
      ensures ok ==> exists i :: 0 <= i < |old(Entries())| && old(Entries())[i].id == id &&
                                 Entries() == Removed(old(Entries()), i)
      ensures !ok ==> Entries() == old(Entries())
      ensures Queue() == old(Queue())
    {
      ok := false;
      var index := FindIndex(id);
      if index == -1 { return; }
      ghost var before := Entries();
      assert before[index].id == id;
      var removed := entries[index];
      ShiftLeft(index);
      if !saveOk {
        PutBack(index, removed, before);
        return;
      }
      RemoveKeepsTable(before, index);
      ok := true;
    }

    static lemma RemovedAt(was: seq<Entry>, index: nat, now: seq<Entry>)
      requires index < |was| && |now| == |was| - 1
      requires forall j :: 0 <= j < index ==> now[j] == was[j]
      requires forall j :: index <= j < |now| ==> now[j] == was[j + 1]
      ensures now == Removed(was, index)
    {
    }

    method ShiftLeft(index: nat)
      requires entries.Length == MAX_ENTRIES && index < count <= MAX_ENTRIES
      modifies this`count, entries
      ensures count == old(count) - 1
      ensures entries[..count] == Removed(old(entries[..count]), index)
    {
      ghost var was := entries[..count];
      var i := index;
      while i + 1 < count
        invariant index <= i < count == |was|
        invariant forall j :: 0 <= j < index ==> entries[j] == was[j]
        invariant forall j :: index <= j < i ==> entries[j] == was[j + 1]
        invariant forall j :: i < j < count ==> entries[j] == was[j]
      {
        entries[i] := entries[i + 1];
        i := i + 1;
      }
      count := count - 1;
      RemovedAt(was, index, entries[..count]);
    }

    static lemma InsertedAt(was: seq<Entry>, index: nat, e: Entry, now: seq<Entry>)
      requires index <= |was| && |now| == |was| + 1 && now[index] == e
      requires forall j :: 0 <= j < index ==> now[j] == was[j]
      requires forall j :: index <= j < |was| ==> was[j] == now[j + 1]
      ensures now == Inserted(was, index, e)
    {
    }

    method ShiftRight(index: nat, removed: Entry)
      requires entries.Length == MAX_ENTRIES && index <= count < MAX_ENTRIES
      modifies this`count, entries
      ensures count == old(count) + 1
      ensures entries[..count] == Inserted(old(entries[..count]), index, removed)
    {
      ghost var was := entries[..count];
      var i := count;
      while i > index
        invariant index <= i <= count == |was|
        invariant forall j :: 0 <= j < i ==> entries[j] == was[j]
        invariant forall j :: i <= j < |was| ==> was[j] == entries[j + 1]
      {
        entries[i] := entries[i - 1];
        i := i - 1;
      }
      entries[index] := removed;
      count := count + 1;
      InsertedAt(was, index, removed, entries[..count]);
    }

    /** `setEnabled`. */
    method SetEnabled(wanted: bool, saveOk: bool) returns (ok: bool)
      requires Valid()
      modifies this`enabled
      ensures Valid() && ok == saveOk
      ensures enabled == if ok then wanted else old(enabled)
    {
      var previous := enabled;
      enabled := wanted;
      if !saveOk { enabled := previous; }
      ok := saveOk;
    }

    /** `load`. */
    method Load(file: StoredFile) returns (ok: bool)
      requires entries.Length == MAX_ENTRIES && pending.Length == MAX_ENTRIES
      requires file.Stored? ==>
                 forall i :: 0 <= i < |file.entries| && file.entries[i].Some? ==> file.entries[i].value.id <= MAX_ID
      modifies this`count, this`pendingStart, this`pendingCount, this`enabled, entries
      ensures Valid() && Queue() == []
      ensures ok <==> file.Absent? || file.Stored?
      ensures enabled <==> file.Absent? || file.Unreadable? || (file.Stored? && file.enabled)
      ensures Entries() == if file.Stored? then LoadedTable(file.entries, |file.entries|) else []
    {
      count, pendingStart, pendingCount := 0, 0, 0;
      enabled := true;
      match file
      case Absent => return true;
      case Unreadable => return false;
      case BadVersion =>
        enabled := false;
        return false;
      case Stored(storedEnabled, stored) =>
        enabled := storedEnabled;
        LoadAll(stored);
        ok := true;
    }

    /** The loop of `load`. */
    method LoadAll(stored: seq<Option<Entry>>)
      requires Valid() && Entries() == []
      requires forall i :: 0 <= i < |stored| && stored[i].Some? ==> stored[i].value.id <= MAX_ID
      modifies this`count, entries
      ensures Valid() && Queue() == old(Queue()) && Entries() == LoadedTable(stored, |stored|)
    {
      ghost var queue, table := Queue(), Entries();
      var k := 0;
      while k < |stored| && count < MAX_ENTRIES
        invariant 0 <= k <= |stored| && Valid() && Queue() == queue
        invariant Entries() == table == LoadedTable(stored, k)
      {
        LoadedNext(stored, k);
        LoadOne(stored[k]);
        table := LoadedTable(stored, k + 1);
        k := k + 1;
      }
      if k < |stored| {
        FullTableStopsLoading(stored, k, |stored|);
      }
    }

    static lemma LoadedNext(stored: seq<Option<Entry>>, k: nat)
      requires k < |stored|
      ensures
        var table := LoadedTable(stored, k);
        |table| < MAX_ENTRIES ==>
          LoadedTable(stored, k + 1) == table + if Loadable(table, stored[k]) then [AsLoaded(stored[k].value)] else []
    {
    }

    /** One turn of the loop of `load`. */
    method LoadOne(stored: Option<Entry>)
      requires Valid() && count < MAX_ENTRIES && (stored.Some? ==> stored.value.id <= MAX_ID)
      modifies this`count, entries
      ensures Valid() && Queue() == old(Queue())
      ensures Entries() == old(Entries()) + if Loadable(old(Entries()), stored) then [AsLoaded(stored.value)] else []
    {
      if stored.None? || !ValidEntry(stored.value) || stored.value.id == 0 { return; }
      var index := FindIndex(stored.value.id);
      if index != -1 {
        assert Entries()[index].id in Ids(Entries());
        return;
      }
      ghost var before := Entries();
      LoadKeepsTable(before, stored.value);
      entries[count] := AsLoaded(stored.value);
      count := count + 1;
      assert entries[..count] == before + [AsLoaded(stored.value)];
    }

    // ----- the queue

    /** `enqueue`. */
    method Enqueue(group: Group) returns (ok: bool)
      requires Valid() && ValidGroup(group)
      modifies this`pendingCount, pending
      ensures Valid() && Entries() == old(Entries())
      ensures ok == (|old(Queue())| < MAX_ENTRIES)
      ensures Queue() == Enqueued(old(Queue()), group)
    {
      if pendingCount >= MAX_ENTRIES { return false; }
      var index := (pendingStart + pendingCount) % MAX_ENTRIES;
      assert index == Slot(pendingStart, pendingCount, MAX_ENTRIES);
      Push(pending[..], pendingStart, pendingCount, group);
      pending[index] := group;
      pendingCount := pendingCount + 1;
      assert pending[..] == old(pending[..])[index := group];
      ok := true;
    }

    /**
     `dispatchNext`; attempted tells whether the head action was taken up, result with what result, and asked the
     action the dispatcher was called with.
     */
    method DispatchNext(now: uint32, guardOk: bool, answer: Result)
      returns (attempted: bool, result: Result, asked: Option<Action>)
      requires Valid()
      modifies this`pendingStart, this`pendingCount, this`lastDispatchAt, pending
      ensures Valid() && State() == DispatchStep(old(State()), now, guardOk, answer)
      ensures attempted == Ready(old(State()), now)
      ensures attempted ==> result == HeadResult(old(Queue()[0]), enabled, guardOk, answer)
      ensures asked.Some? <==> attempted && guardOk && (enabled || old(Queue()[0]).automation)
      ensures asked.Some? ==>
        var head := old(Queue()[0]);
        head.nextAction < |head.actions| && asked.value == head.actions[head.nextAction] && result == answer
    {
      if pendingCount == 0 || !IntervalOpen(lastDispatchAt, now) { return false, Failed, None; }
      lastDispatchAt := now;
      attempted, result, asked := true, Failed, None;
      var head := pending[pendingStart];
      assert head == Queue()[0];
      if (head.automation || enabled) && guardOk {
        result, asked := answer, Some(head.actions[head.nextAction]);
      }
      Advance(result);
    }

    /** The end of `dispatchNext`: on to the next action of the head group, or to the next group. */
    method Advance(result: Result)
      requires Valid() && Queue() != []
      modifies this`pendingStart, this`pendingCount, pending
      ensures Valid() && Entries() == old(Entries())
      ensures Queue() == Advanced(old(Queue()), result)
    {
      var group := pending[pendingStart];
      if Continues(result) && group.nextAction + 1 < |group.actions| {
        var next := group.(nextAction := group.nextAction + 1);
        ghost var buf := pending[..];
        ReplaceHead(buf, pendingStart, pendingCount, next);
        pending[pendingStart] := next;
        assert pending[..] == buf[pendingStart := next];
      } else {
        var gone := TakeHead();
      }
    }

    /** The head group leaves the ring. */
    method TakeHead() returns (head: Group)
      requires Valid() && Queue() != []
      modifies this`pendingStart, this`pendingCount
      ensures Valid() && old(Queue()) == [head] + Queue()
    {
      Pop(pending[..], pendingStart, pendingCount);
      head := pending[pendingStart];
      pendingStart := (pendingStart + 1) % MAX_ENTRIES;
      pendingCount := pendingCount - 1;
    }

    static lemma MoveOver(front: seq<Group>, left: seq<Group>, head: Group, rest: seq<Group>)
      requires left == [head] + rest
      ensures front + left == front + [head] + rest
    {
    }

    /** `cancelPending`; cancelled lists the groups in the order their observers hear of it. */
    method CancelPending() returns (cancelled: seq<Group>)
      requires Valid()
      modifies this`pendingStart, this`pendingCount
      ensures Valid() && Queue() == [] && cancelled == old(Queue())
    {
      cancelled := [];
      ghost var was, left := Queue(), Queue();
      while pendingCount > 0
        invariant Valid() && left == Queue() && cancelled + left == was
      {
        var head := TakeHead();
        MoveOver(cancelled, left, head, Queue());
        cancelled := cancelled + [head];
        left := Queue();
      }
      pendingStart := 0;
    }

    /** `checkSchedules`. */
    method CheckSchedules(c: Clock, hasReader: bool, read: Reader)
      requires Valid()
      modifies this`pendingCount, entries, pending
      ensures Valid() && State() == CheckStep(old(State()), c, hasReader, read)
    {
      ghost var was := State();
      NothingChecked(was, c, hasReader, read);
      var i := 0;
      while i < count
        invariant 0 <= i <= count == |was.entries|
        invariant Valid() && State() == CheckedFirst(was, i, c, hasReader, read)
      {
        CheckNext(was, i, c, hasReader, read);
        CheckOne(i, c, hasReader, read);
        i := i + 1;
      }
    }

    /** One turn of the loop of `checkSchedules`. */
    method CheckOne(i: nat, c: Clock, hasReader: bool, read: Reader)
      requires Valid() && i < count
      modifies this`pendingCount, entries, pending
      ensures Valid() && State() == CheckedOne(old(State()), i, c, hasReader, read)
    {
      var entry := entries[i];
      if !DueNow(entry, c) {
        assert Entries() == Entries()[i := Claimed(entry, c)];
        return;
      }
      entries[i] := Claimed(entry, c);
      ClaimKeepsTable(old(Entries()), i, c);
      assert Entries() == old(Entries())[i := Claimed(entry, c)];
      if !enabled || !entry.enabled { return; }
      var pass := EvaluateCondition(entry.conditions, Readings(entry, i, read), hasReader);
      if !pass { return; }
      var queued := Enqueue(GroupOf(entry));
    }

    static lemma ClaimKeepsTable(table: seq<Entry>, i: nat, c: Clock)
      requires TableInv(table) && i < |table|
      ensures TableInv(table[i := Claimed(table[i], c)])
    {
    }

    /** `loop`. */
    method Loop(c: Clock, now: uint32, hasReader: bool, read: Reader, guardOk: bool, answer: Result)
      requires Valid()
      modifies this, entries, pending
      ensures Valid() && State() == LoopStep(old(State()), c, now, hasReader, read, guardOk, answer)
    {
      if !c.valid {
        var cancelled := CancelPending();
        return;
      }
      if MinuteKey(c) != lastCheckedMinuteKey {
        lastCheckedMinuteKey := MinuteKey(c);
        CheckSchedules(c, hasReader, read);
      }
      var attempted, result, asked := DispatchNext(now, guardOk, answer);
    }

    /** `runNow`: runs disabled entries too, but nothing while the scheduler is disabled; index is the entry it ran. */
    method RunNow(id: nat, hasReader: bool, read: Reader) returns (ok: bool, index: int)
      requires Valid()
      modifies this`pendingCount, pending
      ensures Valid() && Entries() == old(Entries())
      ensures index == -1 ==> !ok && Queue() == old(Queue()) && (!enabled || id !in Ids(Entries()))
      ensures index != -1 ==> enabled && 0 <= index < |Entries()| && Entries()[index].id == id
      ensures index != -1 ==>
        var allowed := Allowed(Entries()[index], index, hasReader, read);
        && Queue() == (if allowed then Enqueued(old(Queue()), GroupOf(Entries()[index])) else old(Queue()))
        && ok == (allowed ==> |old(Queue())| < MAX_ENTRIES)
    {
      if !enabled { return false, -1; }
      index := FindIndex(id);
      if index == -1 { return false, -1; }
      var entry := entries[index];
      assert entry == Entries()[index];
      var pass := EvaluateCondition(entry.conditions, Readings(entry, index, read), hasReader);
      if !pass { return true, index; }
      ok := Enqueue(GroupOf(entry));
    }
  }
}
