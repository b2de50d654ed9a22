/** The schedule table as a specification on sequences: ids, edits and what a failed save leaves behind. */
module SchedulerTable {
  import opened Words
  import opened SchedulerEntries

  const MAX_ID := 255

  /** Ids in use are 1..255 and no two entries share one. */
  predicate UniqueIds(entries: seq<Entry>) {
    && (forall i :: 0 <= i < |entries| ==> 0 < entries[i].id <= MAX_ID)
    && (forall i, j :: 0 <= i < j < |entries| ==> entries[i].id != entries[j].id)
  }

  predicate TableInv(entries: seq<Entry>) {
    && |entries| <= MAX_ENTRIES
    && UniqueIds(entries)
    && (forall i :: 0 <= i < |entries| ==> ValidEntry(entries[i]))
  }

  function Ids(entries: seq<Entry>): set<nat> {
    set i | 0 <= i < |entries| :: entries[i].id
  }

  lemma {:induction false} FewIds(entries: seq<Entry>)
    ensures |Ids(entries)| <= |entries|
  {
    if entries != [] {
      var init := entries[..|entries| - 1];
      FewIds(init);
      assert Ids(entries) == Ids(init) + {entries[|entries| - 1].id};
    }
  }

  lemma {:induction false} ManyNumbers(n: nat, numbers: set<nat>)
    requires forall id :: 1 <= id <= n ==> id in numbers
    ensures n <= |numbers|
  {
    if n > 0 {
      ManyNumbers(n - 1, numbers - {n});
    }
  }

  /** Fewer than 255 entries never use up the ids 1..255. */
  lemma SomeIdIsFree(entries: seq<Entry>)
    requires |entries| < MAX_ID
    ensures exists id :: 1 <= id <= MAX_ID && id !in Ids(entries)
  {
    FewIds(entries);
    if forall id :: 1 <= id <= MAX_ID ==> id in Ids(entries) {
      ManyNumbers(MAX_ID, Ids(entries));
    }
  }

  /** Legacy Zone 1 requests are kept only so that old files can be read. */
  predicate UsesLegacyZone1(e: Entry) {
    exists i :: 0 <= i < |e.actions| && (e.actions[i].kind.SetZ1RoomTarget? || e.actions[i].kind.SetZ1Request?)
  }

  /** What `upsert` accepts, before it tries to save. */
  predicate Acceptable(entries: seq<Entry>, e: Entry) {
    && ValidEntry(e) && !UsesLegacyZone1(e)
    && (if e.id == 0 then |entries| < MAX_ENTRIES else e.id in Ids(entries))
  }

  /** A valid entry without legacy requests is accepted if it is new and there is room, or replaces an entry. */
  lemma AcceptableExactly(entries: seq<Entry>, e: Entry)
    ensures Acceptable(entries, e) <==>
            && ValidEntry(e)
            && (forall i :: 0 <= i < |e.actions| ==> e.actions[i].kind !in {SetZ1RoomTarget, SetZ1Request})
            && (if e.id == 0 then |entries| < 24 else exists i :: 0 <= i < |entries| && entries[i].id == e.id)
  {
    forall i | 0 <= i < |e.actions|
      ensures e.actions[i].kind in {SetZ1RoomTarget, SetZ1Request} <==>
              e.actions[i].kind.SetZ1RoomTarget? || e.actions[i].kind.SetZ1Request?
    {
    }
  }

  function Removed(entries: seq<Entry>, index: nat): seq<Entry>
    requires index < |entries|
  {
    entries[..index] + entries[index + 1..]
  }

  function Inserted(entries: seq<Entry>, index: nat, e: Entry): seq<Entry>
    requires index <= |entries|
  {
    entries[..index] + [e] + entries[index..]
  }

  lemma InsertedBack(entries: seq<Entry>, index: nat)
    requires index < |entries|
    ensures Inserted(Removed(entries, index), index, entries[index]) == entries
  {
  }

  /** A new entry goes to the end under an unused id; an edit keeps the place and the execution key. */
  ghost predicate Upserted(before: seq<Entry>, e: Entry, after: seq<Entry>) {
    if e.id == 0 then
      |before| < MAX_ENTRIES && exists id :: 0 < id <= MAX_ID && id !in Ids(before) && after == before + [e.(id := id)]
    else
      exists i :: 0 <= i < |before| && before[i].id == e.id &&
        after == before[i := e.(lastExecutionKey := before[i].lastExecutionKey)]
  }

  lemma UpsertKeepsTable(before: seq<Entry>, e: Entry, after: seq<Entry>)
    requires TableInv(before) && ValidEntry(e) && e.id <= MAX_ID && Upserted(before, e, after)
    ensures TableInv(after)
  {
    if e.id == 0 {
      var id :| 0 < id <= MAX_ID && id !in Ids(before) && after == before + [e.(id := id)];
      assert forall i :: 0 <= i < |before| ==> before[i].id in Ids(before);
    }
  }

  lemma RemoveKeepsTable(before: seq<Entry>, index: nat)
    requires TableInv(before) && index < |before|
    ensures TableInv(Removed(before, index))
    ensures before[index].id !in Ids(Removed(before, index))
    ensures Ids(Removed(before, index)) == Ids(before) - {before[index].id}
  {
    var after := Removed(before, index);
    assert forall i :: 0 <= i < |after| ==> after[i] == before[if i < index then i else i + 1];
    forall i | 0 <= i < |before| && i != index ensures before[i].id in Ids(after) {
      assert before[i] == after[if i < index then i else i - 1];
    }
  }

  // ----- loading

  /** The stored file: absent, unreadable, of an unknown version, or a list whose invalid entries are None. */
  datatype StoredFile = Absent | Unreadable | BadVersion | Stored(enabled: bool, entries: seq<Option<Entry>>)

  predicate Loadable(entries: seq<Entry>, stored: Option<Entry>) {
    stored.Some? && ValidEntry(stored.value) && 0 < stored.value.id <= MAX_ID && stored.value.id !in Ids(entries)
  }

  /** An entry that uses a legacy request is loaded disabled; a loaded entry has never been executed. */
  function AsLoaded(e: Entry): Entry {
    e.(enabled := e.enabled && !UsesLegacyZone1(e), lastExecutionKey := NEVER)
  }

  /** The table after the first k stored entries. */
  function LoadedTable(stored: seq<Option<Entry>>, k: nat): (entries: seq<Entry>)
    requires k <= |stored|
    ensures |entries| <= MAX_ENTRIES
  {
    if k == 0 then []
    else
      var earlier := LoadedTable(stored, k - 1);
      if |earlier| < MAX_ENTRIES && Loadable(earlier, stored[k - 1])
      then earlier + [AsLoaded(stored[k - 1].value)] else earlier
  }

  lemma LoadKeepsTable(table: seq<Entry>, e: Entry)
    requires TableInv(table) && |table| < MAX_ENTRIES && Loadable(table, Some(e))
    ensures TableInv(table + [AsLoaded(e)])
  {
    assert forall i :: 0 <= i < |table| ==> table[i].id in Ids(table);
  }

  lemma {:induction false} LoadedTableIsValid(stored: seq<Option<Entry>>, k: nat)
    requires k <= |stored|
    ensures TableInv(LoadedTable(stored, k))
  {
    if k > 0 {
      LoadedTableIsValid(stored, k - 1);
      var earlier := LoadedTable(stored, k - 1);
      if |earlier| < MAX_ENTRIES && Loadable(earlier, stored[k - 1]) {
        LoadKeepsTable(earlier, stored[k - 1].value);
      }
    }
  }

  /** A full table stops the load, so later entries change nothing. */
  lemma {:induction false} FullTableStopsLoading(stored: seq<Option<Entry>>, j: nat, k: nat)
    requires j <= k <= |stored| && |LoadedTable(stored, j)| == MAX_ENTRIES
    ensures LoadedTable(stored, k) == LoadedTable(stored, j)
  {
    if j < k {
      FullTableStopsLoading(stored, j, k - 1);
    }
  }

  // ----- saving and loading

  /** `save` writes the entries in order. */
  function Saved(table: seq<Entry>): (stored: seq<Option<Entry>>)
    ensures |stored| == |table| && forall i :: 0 <= i < |table| ==> stored[i] == Some(table[i])
  {
    seq(|table|, i requires 0 <= i < |table| => Some(table[i]))
  }

  /** The loaded entry is the saved one, not yet executed, and switched off if it asks for a legacy zone 1 request. */
  predicate ComesBack(e: Entry, loaded: Entry) {
    var legacy := exists i :: 0 <= i < |e.actions| && e.actions[i].kind in {SetZ1RoomTarget, SetZ1Request};
    loaded == e.(enabled := e.enabled && !legacy, lastExecutionKey := 0xFFFF_FFFF)
  }

  lemma LoadedComesBack(e: Entry)
    ensures ComesBack(e, AsLoaded(e))
  {
    if UsesLegacyZone1(e) {
      var i :| 0 <= i < |e.actions| && (e.actions[i].kind.SetZ1RoomTarget? || e.actions[i].kind.SetZ1Request?);
      assert e.actions[i].kind in {SetZ1RoomTarget, SetZ1Request};
    }
  }

  /** The first k entries came back. */
  predicate FirstComeBack(table: seq<Entry>, k: nat, loaded: seq<Entry>)
    requires k <= |table|
  {
    |loaded| == k && forall i :: 0 <= i < k ==> ComesBack(table[i], loaded[i])
  }

  lemma NextComesBack(table: seq<Entry>, k: nat, loaded: seq<Entry>)
    requires TableInv(table) && k < |table| && FirstComeBack(table, k, loaded)
    ensures Loadable(loaded, Some(table[k])) && FirstComeBack(table, k + 1, loaded + [AsLoaded(table[k])])
  {
    LoadedComesBack(table[k]);
    forall i | 0 <= i < k ensures loaded[i].id != table[k].id {
      assert ComesBack(table[i], loaded[i]);
    }
  }

  /** A valid table that was saved is loaded back whole and in order. */
  lemma {:induction false} SavedTableComesBack(table: seq<Entry>, k: nat)
    requires TableInv(table) && k <= |table|
    ensures FirstComeBack(table, k, LoadedTable(Saved(table), k))
  {
    if k > 0 {
      SavedTableComesBack(table, k - 1);
      NextComesBack(table, k - 1, LoadedTable(Saved(table), k - 1));
    }
  }
}
