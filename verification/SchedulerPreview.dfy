/** The "next action" shown for the schedule: a search over eight weekdays against the due test itself. */
module SchedulerPreview {
  import opened Words
  import opened SchedulerEntries

  datatype Next = Next(dayOffset: nat, minutes: nat, index: nat)

  function EntryMinutes(e: Entry): nat {
    e.hour * 60 + e.minute
  }

  /** Entry i is a candidate on the day dayOffset days ahead. */
  predicate Candidate(entries: seq<Entry>, c: Clock, dayOffset: nat, i: nat) {
    && i < |entries| && entries[i].enabled
    && OnDay(entries[i].dayMask, (c.weekDay + dayOffset) % 7)
    && (dayOffset == 0 ==> EntryMinutes(entries[i]) > MinuteOfDay(c))
  }

  predicate Sooner(dayOffset: nat, minutes: nat, than: Next) {
    dayOffset < than.dayOffset || (dayOffset == than.dayOffset && minutes < than.minutes)
  }

  /** Position (dayOffset, i) has been visited by the two loops when they stand at (d, k). */
  predicate Visited(dayOffset: nat, i: nat, d: nat, k: nat) {
    dayOffset < d || (dayOffset == d && i < k)
  }

  /** The first of the best candidates among the visited positions; None if there was none. */
  ghost predicate BestSoFar(entries: seq<Entry>, c: Clock, d: nat, k: nat, best: Option<Next>) {
    && (best.Some? ==>
          var b := best.value;
          && Candidate(entries, c, b.dayOffset, b.index) && b.minutes == EntryMinutes(entries[b.index])
          && Visited(b.dayOffset, b.index, d, k))
    && (forall dayOffset: nat, i: nat :: Visited(dayOffset, i, d, k) && Candidate(entries, c, dayOffset, i) ==>
          && best.Some? && !Sooner(dayOffset, EntryMinutes(entries[i]), best.value)
          && (dayOffset == best.value.dayOffset && EntryMinutes(entries[i]) == best.value.minutes ==>
             best.value.index <= i))
  }

  /** The search in `toJson`. */
  method FindNext(entries: seq<Entry>, c: Clock) returns (best: Option<Next>)
    ensures BestSoFar(entries, c, 8, 0, best)
  {
    best := None;
    var d := 0;
    while d <= 7
      invariant 0 <= d <= 8
      invariant BestSoFar(entries, c, d, 0, best)
    {
      var k := 0;
      while k < |entries|
        invariant 0 <= k <= |entries|
        invariant BestSoFar(entries, c, d, k, best)
      {
        if Candidate(entries, c, d, k) &&
           (best.None? || Sooner(d, EntryMinutes(entries[k]), best.value)) {
          best := Some(Next(d, EntryMinutes(entries[k]), k));
        }
        k := k + 1;
      }
      d := d + 1;
    }
  }

  // ----- against the due test

  /** The clock `minutes` later, on a calendar of 24-hour days. */
  function Later(c: Clock, minutes: nat): Clock {
    var t := MinuteOfDay(c) + minutes;
    Clock(true, c.year, c.yearDay, (c.weekDay + t / 1440) % 7, t % 1440 / 60, t % 1440 % 60)
  }

  predicate DueAt(e: Entry, c: Clock) {
    e.enabled && Matches(e, c)
  }

  /** How many minutes ahead a candidate lies. */
  function MinutesAhead(c: Clock, dayOffset: nat, minutes: nat): int {
    dayOffset * 1440 + minutes - MinuteOfDay(c)
  }

  /** An entry is due `ahead` minutes from now exactly when it is a candidate of that day at that minute. */
  lemma DueIsCandidate(entries: seq<Entry>, c: Clock, ahead: nat, i: nat)
    requires WellFormed(c) && ahead > 0 && i < |entries| && ValidEntry(entries[i])
    ensures
      var dayOffset := (MinuteOfDay(c) + ahead) / 1440;
      DueAt(entries[i], Later(c, ahead)) <==>
        Candidate(entries, c, dayOffset, i) && MinutesAhead(c, dayOffset, EntryMinutes(entries[i])) == ahead
  {
    var t := MinuteOfDay(c) + ahead;
    SameMinute(entries[i], t % 1440);
  }

  lemma SameMinute(e: Entry, m: nat)
    requires e.minute < 60
    ensures EntryMinutes(e) == m <==> e.hour == m / 60 && e.minute == m % 60
  {
  }

  /** A candidate of day d comes due MinutesAhead later. */
  lemma CandidateIsDue(entries: seq<Entry>, c: Clock, dayOffset: nat, i: nat)
    requires WellFormed(c) && i < |entries| && ValidEntry(entries[i]) && Candidate(entries, c, dayOffset, i)
    ensures MinutesAhead(c, dayOffset, EntryMinutes(entries[i])) > 0
    ensures DueAt(entries[i], Later(c, MinutesAhead(c, dayOffset, EntryMinutes(entries[i]))))
  {
    var ahead := MinutesAhead(c, dayOffset, EntryMinutes(entries[i]));
    assert EntryMinutes(entries[i]) < 1440;
    assert (MinuteOfDay(c) + ahead) / 1440 == dayOffset;
    DueIsCandidate(entries, c, ahead, i);
  }

  /** A valid mask has a day among the next seven, so an enabled entry is a candidate within the week. */
  lemma EveryEntryIsACandidate(entries: seq<Entry>, c: Clock, i: nat) returns (dayOffset: nat)
    requires WellFormed(c) && i < |entries| && ValidEntry(entries[i]) && entries[i].enabled
    ensures dayOffset <= 7 && Candidate(entries, c, dayOffset, i)
  {
    var day := SomeDay(entries[i].dayMask);
    dayOffset := DaysUntil(c.weekDay, day);
    if dayOffset == 0 && EntryMinutes(entries[i]) <= MinuteOfDay(c) {
      dayOffset := 7;
    }
  }

  lemma DaysUntil(weekDay: nat, day: nat) returns (dayOffset: nat)
    requires weekDay <= 6 && day <= 6
    ensures dayOffset <= 6 && (weekDay + dayOffset) % 7 == day && (weekDay + 7) % 7 == weekDay
    ensures dayOffset == 0 <==> weekDay == day
  {
    dayOffset := if weekDay <= day then day - weekDay else day + 7 - weekDay;
  }

  lemma SomeDay(dayMask: nat) returns (day: nat)
    requires 0 < dayMask <= 0x7F
    ensures day <= 6 && OnDay(dayMask, day)
  {
    day := if dayMask % 2 == 1 then 0
           else if dayMask / 2 % 2 == 1 then 1
           else if dayMask / 4 % 2 == 1 then 2
           else if dayMask / 8 % 2 == 1 then 3
           else if dayMask / 16 % 2 == 1 then 4
           else if dayMask / 32 % 2 == 1 then 5
           else 6;
  }

  predicate AllValid(entries: seq<Entry>) {
    forall i :: 0 <= i < |entries| ==> ValidEntry(entries[i])
  }

  /**
   The preview is right: it names the first minute strictly after now at which any enabled entry is due,
   at most seven days ahead; and it shows nothing exactly when no entry is enabled.
   */
  lemma PreviewIsFirstDue(entries: seq<Entry>, c: Clock, best: Option<Next>)
    requires WellFormed(c) && AllValid(entries) && BestSoFar(entries, c, 8, 0, best)
    ensures best.None? <==> forall i :: 0 <= i < |entries| ==> !entries[i].enabled
    ensures best.Some? ==>
      var b := best.value;
      var ahead := MinutesAhead(c, b.dayOffset, b.minutes);
      && 0 < ahead <= 7 * 1440
      && DueAt(entries[b.index], Later(c, ahead))
      && forall earlier, i :: 0 < earlier < ahead && 0 <= i < |entries| ==> !DueAt(entries[i], Later(c, earlier))
  {
    forall i | 0 <= i < |entries| && entries[i].enabled ensures best.Some? {
      var d := EveryEntryIsACandidate(entries, c, i);
      assert Visited(d, i, 8, 0);
    }
    if best.Some? {
      FirstDue(entries, c, best.value);
    }
  }

  /** On the same weekday a week ahead it comes no later than now, or today would have been chosen. */
  lemma BestIsWithinWeek(entries: seq<Entry>, c: Clock, b: Next)
    requires WellFormed(c) && AllValid(entries) && BestSoFar(entries, c, 8, 0, Some(b))
    ensures b.dayOffset < 7 || (b.dayOffset == 7 && b.minutes <= MinuteOfDay(c))
  {
    if b.dayOffset == 7 && b.minutes > MinuteOfDay(c) {
      assert Candidate(entries, c, 0, b.index) && Visited(0, b.index, 8, 0);
      assert Sooner(0, b.minutes, b);
    }
  }

  /** The chosen minute comes later than now, and within seven days. */
  lemma BestIsAhead(entries: seq<Entry>, c: Clock, b: Next)
    requires WellFormed(c) && AllValid(entries) && BestSoFar(entries, c, 8, 0, Some(b))
    ensures 0 < MinutesAhead(c, b.dayOffset, b.minutes) <= 7 * 1440
    ensures DueAt(entries[b.index], Later(c, MinutesAhead(c, b.dayOffset, b.minutes)))
  {
    CandidateIsDue(entries, c, b.dayOffset, b.index);
    BestIsWithinWeek(entries, c, b);
  }

  lemma FirstDue(entries: seq<Entry>, c: Clock, b: Next)
    requires WellFormed(c) && AllValid(entries) && BestSoFar(entries, c, 8, 0, Some(b))
    ensures
      var ahead := MinutesAhead(c, b.dayOffset, b.minutes);
      && 0 < ahead <= 7 * 1440
      && DueAt(entries[b.index], Later(c, ahead))
      && forall earlier, i :: 0 < earlier < ahead && 0 <= i < |entries| ==> !DueAt(entries[i], Later(c, earlier))
  {
    BestIsAhead(entries, c, b);
    var ahead := MinutesAhead(c, b.dayOffset, b.minutes);
    forall earlier, i | 0 < earlier < ahead && 0 <= i < |entries| ensures !DueAt(entries[i], Later(c, earlier)) {
      if DueAt(entries[i], Later(c, earlier)) {
        NothingSooner(entries, c, b, earlier, i);
      }
    }
  }

  lemma NothingSooner(entries: seq<Entry>, c: Clock, b: Next, earlier: nat, i: nat)
    requires WellFormed(c) && AllValid(entries) && BestSoFar(entries, c, 8, 0, Some(b)) && i < |entries|
    requires 0 < earlier <= 7 * 1440 && DueAt(entries[i], Later(c, earlier))
    ensures MinutesAhead(c, b.dayOffset, b.minutes) <= earlier
  {
    DueIsCandidate(entries, c, earlier, i);
    var d := (MinuteOfDay(c) + earlier) / 1440;
    assert Visited(d, i, 8, 0);
    assert EntryMinutes(entries[b.index]) < 1440;
  }
}
