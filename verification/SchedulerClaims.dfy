/**
 How often one entry is claimed within a boot.  The loop looks at the table once per new minute key;
 wall-clock hours may repeat, but the local day never goes back.
 */
module SchedulerClaims {
  import opened Words
  import opened SchedulerEntries
  import opened SchedulerQueue
  import opened SchedulerSteps

  /** What the loop remembers about one entry, and the keys at which the entry was claimed. */
  datatype Claims = Claims(lastChecked: uint32, entry: Entry, keys: seq<uint32>)

  /** One call of `loop`, seen from one entry of the table. */
  function Pass(s: Claims, c: Clock): Claims {
    if !c.valid || MinuteKey(c) == s.lastChecked then s
    else if DueNow(s.entry, c) then Claims(MinuteKey(c), Claimed(s.entry, c), s.keys + [MinuteKey(c)])
    else s.(lastChecked := MinuteKey(c))
  }

  /** A pass is what `loop` does to entry i, whatever happens to the queue. */
  lemma LoopIsAPass(s: Scheduler, i: nat, keys: seq<uint32>, c: Clock, now: uint32, hasReader: bool, read: Reader,
                    guardOk: bool, answer: Result)
    requires i < |s.entries|
    ensures
      var t := LoopStep(s, c, now, hasReader, read, guardOk, answer);
      var p := Pass(Claims(s.lastChecked, s.entries[i], keys), c);
      |t.entries| == |s.entries| && t.entries[i] == p.entry && t.lastChecked == p.lastChecked
  {
    if c.valid && MinuteKey(c) != s.lastChecked {
      assert ClaimedFirst(s.entries, |s.entries|, c)[i] == Claimed(s.entries[i], c);
    }
  }

  function Passes(s: Claims, clocks: seq<Clock>): Claims
    decreases |clocks|
  {
    if clocks == [] then s else Pass(Passes(s, clocks[..|clocks| - 1]), clocks[|clocks| - 1])
  }

  /** Valid readings are calendar times up to 8148, a day has one weekday, and the day never goes back. */
  predicate CalendarRun(clocks: seq<Clock>) {
    && (forall i :: 0 <= i < |clocks| && clocks[i].valid ==> WellFormed(clocks[i]) && clocks[i].year <= 8148)
    && (forall i, j :: 0 <= i < j < |clocks| && clocks[i].valid && clocks[j].valid ==>
          && DayNumber(clocks[i]) <= DayNumber(clocks[j])
          && (DayNumber(clocks[i]) == DayNumber(clocks[j]) ==> clocks[i].weekDay == clocks[j].weekDay))
  }

  /** An entry as it enters the table: never executed, nothing claimed yet. */
  function Fresh(e: Entry, lastChecked: uint32): Claims {
    Claims(lastChecked, e.(lastExecutionKey := NEVER), [])
  }

  predicate Increasing(keys: seq<uint32>) {
    forall i, j :: 0 <= i < j < |keys| ==> keys[i] < keys[j]
  }

  /** Some valid clock of the run has this key and matches the entry. */
  predicate ClaimedAtAMatch(e: Entry, clocks: seq<Clock>, key: uint32) {
    exists i :: 0 <= i < |clocks| && Matches(e, clocks[i]) && MinuteKey(clocks[i]) == key
  }

  predicate SeenKey(clocks: seq<Clock>, key: uint32) {
    exists i :: 0 <= i < |clocks| && clocks[i].valid && MinuteKey(clocks[i]) == key
  }

  predicate RunInv(e: Entry, lastChecked: uint32, clocks: seq<Clock>, s: Claims) {
    && s.entry == e.(lastExecutionKey := if s.keys == [] then NEVER else s.keys[|s.keys| - 1])
    && Increasing(s.keys)
    && (forall k :: k in s.keys ==> ClaimedAtAMatch(e, clocks, k))
    && (s.lastChecked == lastChecked || SeenKey(clocks, s.lastChecked))
    && (forall i :: 0 <= i < |clocks| && Matches(e, clocks[i]) && MinuteKey(clocks[i]) != lastChecked ==>
          MinuteKey(clocks[i]) in s.keys)
  }

  /** Clocks of one minute agree on everything an entry is matched against. */
  lemma SameKeySameMatch(e: Entry, clocks: seq<Clock>, i: nat, j: nat)
    requires CalendarRun(clocks) && i < |clocks| && j < |clocks| && clocks[i].valid && clocks[j].valid
    requires MinuteKey(clocks[i]) == MinuteKey(clocks[j])
    ensures Matches(e, clocks[i]) <==> Matches(e, clocks[j])
  {
    MinuteKeyOrdersMinutes(clocks[i], clocks[j]);
  }

  /** A new match is no earlier than any claim: the entry has one time of day and the day never goes back. */
  lemma ClaimsPrecede(e: Entry, clocks: seq<Clock>, key: uint32)
    requires CalendarRun(clocks) && clocks != [] && Matches(e, clocks[|clocks| - 1])
    requires ClaimedAtAMatch(e, clocks[..|clocks| - 1], key)
    ensures key <= MinuteKey(clocks[|clocks| - 1])
  {
    var earlier, last := clocks[..|clocks| - 1], clocks[|clocks| - 1];
    var i :| 0 <= i < |earlier| && Matches(e, earlier[i]) && MinuteKey(earlier[i]) == key;
    assert earlier[i] == clocks[i];
    KeyValue(clocks[i]);
    KeyValue(last);
  }

  /** What held over the earlier clocks still holds, except that the newest clock may be unclaimed. */
  lemma CarryOver(e: Entry, lastChecked: uint32, clocks: seq<Clock>, s: Claims)
    requires clocks != [] && RunInv(e, lastChecked, clocks[..|clocks| - 1], s)
    ensures forall k :: k in s.keys ==> ClaimedAtAMatch(e, clocks, k)
    ensures s.lastChecked == lastChecked || SeenKey(clocks, s.lastChecked)
    ensures forall i :: 0 <= i < |clocks| - 1 && Matches(e, clocks[i]) && MinuteKey(clocks[i]) != lastChecked ==>
              MinuteKey(clocks[i]) in s.keys
  {
    var earlier := clocks[..|clocks| - 1];
    assert forall i :: 0 <= i < |earlier| ==> earlier[i] == clocks[i];
    forall k | k in s.keys ensures ClaimedAtAMatch(e, clocks, k) {
      var i :| 0 <= i < |earlier| && Matches(e, earlier[i]) && MinuteKey(earlier[i]) == k;
      assert Matches(e, clocks[i]);
    }
    if i :| 0 <= i < |earlier| && earlier[i].valid && MinuteKey(earlier[i]) == s.lastChecked {
      assert clocks[i].valid;
    }
  }

  /** The minute was looked at before: then the entry was claimed in it already, if it matches. */
  lemma RepeatedMinute(e: Entry, lastChecked: uint32, clocks: seq<Clock>, s: Claims)
    requires CalendarRun(clocks) && clocks != [] && RunInv(e, lastChecked, clocks[..|clocks| - 1], s)
    requires var c := clocks[|clocks| - 1]; Matches(e, c) && MinuteKey(c) == s.lastChecked != lastChecked
    ensures s.lastChecked in s.keys
  {
    var earlier := clocks[..|clocks| - 1];
    var i :| 0 <= i < |earlier| && earlier[i].valid && MinuteKey(earlier[i]) == s.lastChecked;
    assert earlier[i] == clocks[i];
    SameKeySameMatch(e, clocks, i, |clocks| - 1);
    assert MinuteKey(earlier[i]) in s.keys;
  }

  /** A claim extends the increasing list of keys. */
  lemma ClaimExtends(e: Entry, lastChecked: uint32, clocks: seq<Clock>, s: Claims)
    requires CalendarRun(clocks) && clocks != [] && RunInv(e, lastChecked, clocks[..|clocks| - 1], s)
    requires Matches(e, clocks[|clocks| - 1])
    ensures DueNow(s.entry, clocks[|clocks| - 1]) <==> MinuteKey(clocks[|clocks| - 1]) !in s.keys
    ensures forall k :: k in s.keys ==> k <= MinuteKey(clocks[|clocks| - 1])
  {
    var c := clocks[|clocks| - 1];
    KeyValue(c);
    forall k | k in s.keys ensures k <= MinuteKey(c) {
      assert ClaimedAtAMatch(e, clocks[..|clocks| - 1], k);
      ClaimsPrecede(e, clocks, k);
    }
    LastIsLargest(s.keys);
    if s.keys != [] {
      assert s.keys[|s.keys| - 1] in s.keys;
    }
  }

  lemma ClaimKeepsIncreasing(keys: seq<uint32>, key: uint32)
    requires Increasing(keys) && key !in keys && forall k :: k in keys ==> k <= key
    ensures Increasing(keys + [key])
  {
    assert forall i :: 0 <= i < |keys| ==> keys[i] in keys;
  }

  /** A new minute that matches is claimed, or was claimed when the hour was first lived through. */
  lemma MatchedPass(e: Entry, lastChecked: uint32, clocks: seq<Clock>, s: Claims)
    requires CalendarRun(clocks) && clocks != [] && RunInv(e, lastChecked, clocks[..|clocks| - 1], s)
    requires var c := clocks[|clocks| - 1]; Matches(e, c) && MinuteKey(c) != s.lastChecked
    ensures
      var t, key := Pass(s, clocks[|clocks| - 1]), MinuteKey(clocks[|clocks| - 1]);
      && key in t.keys && Increasing(t.keys) && t.lastChecked == key
      && (t.keys == s.keys || t.keys == s.keys + [key])
      && t.entry == e.(lastExecutionKey := if t.keys == [] then NEVER else t.keys[|t.keys| - 1])
  {
    var c := clocks[|clocks| - 1];
    ClaimExtends(e, lastChecked, clocks, s);
    if DueNow(s.entry, c) {
      ClaimKeepsIncreasing(s.keys, MinuteKey(c));
    }
  }

  lemma PassKeepsRunInv(e: Entry, lastChecked: uint32, clocks: seq<Clock>, s: Claims)
    requires CalendarRun(clocks) && clocks != []
    requires RunInv(e, lastChecked, clocks[..|clocks| - 1], s)
    ensures RunInv(e, lastChecked, clocks, Pass(s, clocks[|clocks| - 1]))
  {
    var c := clocks[|clocks| - 1];
    CarryOver(e, lastChecked, clocks, s);
    assert c.valid ==> SeenKey(clocks, MinuteKey(c));
    if Matches(e, c) {
      assert ClaimedAtAMatch(e, clocks, MinuteKey(c));
      if MinuteKey(c) != s.lastChecked {
        MatchedPass(e, lastChecked, clocks, s);
      } else if s.lastChecked != lastChecked {
        RepeatedMinute(e, lastChecked, clocks, s);
      }
    }
  }

  lemma LastIsLargest(keys: seq<uint32>)
    requires Increasing(keys)
    ensures forall k :: k in keys ==> k <= keys[|keys| - 1]
  {
  }

  lemma {:induction false} RunKeepsInv(e: Entry, lastChecked: uint32, clocks: seq<Clock>)
    requires CalendarRun(clocks)
    ensures RunInv(e, lastChecked, clocks, Passes(Fresh(e, lastChecked), clocks))
    decreases |clocks|
  {
    if clocks != [] {
      var earlier := clocks[..|clocks| - 1];
      assert CalendarRun(earlier);
      RunKeepsInv(e, lastChecked, earlier);
      PassKeepsRunInv(e, lastChecked, clocks, Passes(Fresh(e, lastChecked), earlier));
    }
  }

  /**
   Over any run an entry is claimed at most once per local minute, only in minutes it matches, and in
   every matching minute the loop saw, unless that minute had been checked before the entry was there.
   */
  lemma ClaimedExactlyOncePerMinute(e: Entry, lastChecked: uint32, clocks: seq<Clock>)
    requires CalendarRun(clocks)
    ensures
      var keys := Passes(Fresh(e, lastChecked), clocks).keys;
      && (forall i, j :: 0 <= i < j < |keys| ==> keys[i] != keys[j])
      && (forall k :: k in keys ==> ClaimedAtAMatch(e, clocks, k))
      && (forall i :: 0 <= i < |clocks| && Matches(e, clocks[i]) && MinuteKey(clocks[i]) != lastChecked ==>
            MinuteKey(clocks[i]) in keys)
  {
    RunKeepsInv(e, lastChecked, clocks);
  }
}
