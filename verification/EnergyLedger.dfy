/** The fallback energy ledger: session deltas, booked to the day and to one month. */
module EnergyLedger {
  import opened Words

  datatype RecordedEnergy = RecordedEnergy(electrical: real, heat: real)

  /** A live reading; None stands for a value that is not finite. */
  datatype Live = Live(electrical: Option<real>, heat: Option<real>)

  datatype Month = Month(year: int, month: int, energy: RecordedEnergy)

  datatype Ledger = Ledger(
    months: seq<Month>,
    dayStart: nat,
    today: RecordedEnergy,
    sessionDay: nat,
    sessionEnergy: RecordedEnergy)

  const NOTHING := RecordedEnergy(0.0, 0.0)

  /** The two amounts of a record. */
  datatype Part = Electrical | Heat

  function Of(e: RecordedEnergy, part: Part): real {
    if part.Electrical? then e.electrical else e.heat
  }

  /** `RecordedEnergy::valid`. */
  predicate Valid(live: Live) {
    live.electrical.Some? && live.electrical.value >= 0.0 && live.heat.Some? && live.heat.value >= 0.0
  }

  function Recorded(live: Live): RecordedEnergy
    requires Valid(live)
  {
    RecordedEnergy(live.electrical.value, live.heat.value)
  }

  /** `RecordedEnergy::add`. */
  function Added(a: RecordedEnergy, b: RecordedEnergy): RecordedEnergy {
    RecordedEnergy(a.electrical + b.electrical, a.heat + b.heat)
  }

  function Growth(now: real, before: real): real {
    if now > before then now - before else 0.0
  }

  // ----- updates

  /** One call of `update`. */
  datatype LiveUpdate = LiveUpdate(day: nat, year: int, month: int, live: Live)

  predicate Counts(u: LiveUpdate) {
    u.day != 0 && Valid(u.live)
  }

  /** What an update adds. */
  function Delta(l: Ledger, u: LiveUpdate): RecordedEnergy {
    if !Counts(u) then NOTHING
    else
      var session := if l.sessionDay != u.day then NOTHING else l.sessionEnergy;
      RecordedEnergy(Growth(u.live.electrical.value, session.electrical), Growth(u.live.heat.value, session.heat))
  }

  predicate IsMonth(period: Month, year: int, month: int) {
    period.year == year && period.month == month
  }

  /** Adds to the first entry of the month, or appends an entry. */
  function Booked(months: seq<Month>, year: int, month: int, delta: RecordedEnergy): seq<Month> {
    if months == [] then [Month(year, month, delta)]
    else if IsMonth(months[0], year, month) then [months[0].(energy := Added(months[0].energy, delta))] + months[1..]
    else [months[0]] + Booked(months[1..], year, month, delta)
  }

  /** The first i entries belong to other months. */
  ghost predicate BooksFrom(months: seq<Month>, i: nat, year: int, month: int, delta: RecordedEnergy)
    requires i <= |months|
  {
    Booked(months, year, month, delta) == months[..i] + Booked(months[i..], year, month, delta)
  }

  lemma BookingAtStart(months: seq<Month>, year: int, month: int, delta: RecordedEnergy)
    ensures BooksFrom(months, 0, year, month, delta)
  {
    assert months[0..] == months;
    assert months[..0] + Booked(months, year, month, delta) == Booked(months, year, month, delta);
  }

  lemma BookingAt(months: seq<Month>, i: nat, year: int, month: int, delta: RecordedEnergy)
    requires i < |months| && BooksFrom(months, i, year, month, delta)
    ensures IsMonth(months[i], year, month) ==>
              Booked(months, year, month, delta) == months[i := months[i].(energy := Added(months[i].energy, delta))]
    ensures !IsMonth(months[i], year, month) ==> BooksFrom(months, i + 1, year, month, delta)
  {
    var rest := months[i..];
    assert rest[0] == months[i] && rest[1..] == months[i + 1..];
    assert months[..i + 1] == months[..i] + [months[i]];
  }

  lemma BookingAtEnd(months: seq<Month>, year: int, month: int, delta: RecordedEnergy)
    requires BooksFrom(months, |months|, year, month, delta)
    ensures Booked(months, year, month, delta) == months + [Month(year, month, delta)]
  {
    assert months[..|months|] == months && months[|months|..] == [];
  }

  function UpdateStep(l: Ledger, u: LiveUpdate): Ledger {
    if !Counts(u) then l
    else
      var delta := Delta(l, u);
      Ledger(Booked(l.months, u.year, u.month, delta), u.day,
             Added(if l.dayStart != u.day then NOTHING else l.today, delta),
             u.day, Recorded(u.live))
  }

  /** An update counts unless it has no day or a missing or negative value; it becomes the last reading of the day. */
  lemma UpdateCountsExactly(l: Ledger, u: LiveUpdate)
    ensures
      var missing := exists part :: LiveAmount(u.live, part).None? || LiveAmount(u.live, part).value < 0.0;
      if u.day == 0 || missing then UpdateStep(l, u) == l
      else
        var after := UpdateStep(l, u);
        && after.sessionDay == after.dayStart == u.day
        && forall part :: LiveAmount(u.live, part) == Some(Of(after.sessionEnergy, part))
  {
    assert LiveAmount(u.live, Electrical) == u.live.electrical && LiveAmount(u.live, Heat) == u.live.heat;
  }

  function LiveAmount(live: Live, part: Part): Option<real> {
    if part.Heat? then live.heat else live.electrical
  }

  /** `forMonth`: the first entry of the month. */
  function ForMonth(months: seq<Month>, year: int, month: int): RecordedEnergy {
    if months == [] then NOTHING
    else if IsMonth(months[0], year, month) then months[0].energy
    else ForMonth(months[1..], year, month)
  }

  /** `forYear`: all entries of the year. */
  function ForYear(months: seq<Month>, year: int): RecordedEnergy {
    if months == [] then NOTHING
    else
      var earlier := ForYear(months[..|months| - 1], year);
      var last := months[|months| - 1];
      if last.year == year then Added(earlier, last.energy) else earlier
  }

  class RecordedEnergyLedger {
    var months: seq<Month>
    var dayStart: nat
    var today: RecordedEnergy
    var sessionDay: nat
    var sessionEnergy: RecordedEnergy

    function State(): Ledger
      reads this
    {
      Ledger(months, dayStart, today, sessionDay, sessionEnergy)
    }

    constructor ()
      ensures State() == Ledger([], 0, NOTHING, 0, NOTHING)
    {
      months, dayStart, today, sessionDay, sessionEnergy := [], 0, NOTHING, 0, NOTHING;
    }

    method Update(day: nat, year: int, month: int, live: Live)
      modifies this
      ensures State() == UpdateStep(old(State()), LiveUpdate(day, year, month, live))
    {
      if day == 0 || !Valid(live) { return; }
      if sessionDay != day {
        sessionDay, sessionEnergy := day, NOTHING;
      }
      var delta := RecordedEnergy(Growth(live.electrical.value, sessionEnergy.electrical),
                                  Growth(live.heat.value, sessionEnergy.heat));
      sessionEnergy := Recorded(live);
      if dayStart != day {
        dayStart, today := day, NOTHING;
      }
      today := Added(today, delta);
      BookingAtStart(months, year, month, delta);
      ghost var booked := State();
      var i := 0;
      while i < |months|
        invariant 0 <= i <= |months| && State() == booked
        invariant BooksFrom(months, i, year, month, delta)
      {
        BookingAt(months, i, year, month, delta);
        if IsMonth(months[i], year, month) {
          months := months[i := months[i].(energy := Added(months[i].energy, delta))];
          return;
        }
        i := i + 1;
      }
      BookingAtEnd(months, year, month, delta);
      months := months + [Month(year, month, delta)];
    }

    method MonthTotal(year: int, month: int) returns (e: RecordedEnergy)
      ensures e == ForMonth(months, year, month)
    {
      for i := 0 to |months|
        invariant ForMonth(months[i..], year, month) == ForMonth(months, year, month)
      {
        if IsMonth(months[i], year, month) { return months[i].energy; }
      }
      return NOTHING;
    }

    method YearTotal(year: int) returns (e: RecordedEnergy)
      ensures e == ForYear(months, year)
    {
      e := NOTHING;
      for i := 0 to |months|
        invariant e == ForYear(months[..i], year)
      {
        assert months[..i + 1][..i] == months[..i];
        if months[i].year == year {
          e := Added(e, months[i].energy);
        }
      }
      assert months[..|months|] == months;
    }
  }

  // ----- months

  predicate UniqueKeys(months: seq<Month>) {
    forall i, j :: 0 <= i < j < |months| ==> !IsMonth(months[i], months[j].year, months[j].month)
  }

  predicate HasMonth(months: seq<Month>, year: int, month: int) {
    exists i :: 0 <= i < |months| && IsMonth(months[i], year, month)
  }

  function Total(months: seq<Month>, part: Part): real {
    if months == [] then 0.0 else Of(months[0].energy, part) + Total(months[1..], part)
  }

  lemma {:induction false} BookingReachesOneMonth(months: seq<Month>, year: int, month: int, delta: RecordedEnergy,
                                                  y: int, m: int, part: Part)
    ensures Of(ForMonth(Booked(months, year, month, delta), y, m), part) ==
            Of(ForMonth(months, y, m), part) + if y == year && m == month then Of(delta, part) else 0.0
    ensures Total(Booked(months, year, month, delta), part) == Total(months, part) + Of(delta, part)
  {
    if months != [] && !IsMonth(months[0], year, month) {
      BookingReachesOneMonth(months[1..], year, month, delta, y, m, part);
    } else if months == [] {
      assert Total([Month(year, month, delta)][1..], part) == 0.0;
    } else {
      assert Booked(months, year, month, delta)[1..] == months[1..];
    }
  }

  lemma {:induction false} BookingKeepsKeys(months: seq<Month>, year: int, month: int, delta: RecordedEnergy)
    requires UniqueKeys(months)
    ensures UniqueKeys(Booked(months, year, month, delta))
    ensures forall y, m :: HasMonth(Booked(months, year, month, delta), y, m) <==>
              HasMonth(months, y, m) || (y == year && m == month)
  {
    var after := Booked(months, year, month, delta);
    if months == [] {
      assert IsMonth(after[0], year, month);
    } else {
      KeysOfFirst(months);
      KeysOfFirst(after);
      if IsMonth(months[0], year, month) {
        assert after[1..] == months[1..];
      } else {
        BookingKeepsKeys(months[1..], year, month, delta);
        assert after[1..] == Booked(months[1..], year, month, delta);
      }
    }
  }

  lemma KeysOfFirst(months: seq<Month>)
    requires months != []
    ensures forall y, m :: HasMonth(months, y, m) <==> IsMonth(months[0], y, m) || HasMonth(months[1..], y, m)
    ensures UniqueKeys(months) <==> UniqueKeys(months[1..]) && !HasMonth(months[1..], months[0].year, months[0].month)
  {
    var rest := months[1..];
    assert forall i :: 0 <= i < |rest| ==> rest[i] == months[i + 1];
    forall y, m | HasMonth(months, y, m) && !IsMonth(months[0], y, m) ensures HasMonth(rest, y, m) {
      var i :| 0 <= i < |months| && IsMonth(months[i], y, m);
      assert IsMonth(rest[i - 1], y, m);
    }
    forall y, m | HasMonth(rest, y, m) ensures HasMonth(months, y, m) {
      var i :| 0 <= i < |rest| && IsMonth(rest[i], y, m);
      assert IsMonth(months[i + 1], y, m);
    }
    if UniqueKeys(months) {
      forall i | 0 <= i < |rest| ensures !IsMonth(rest[i], months[0].year, months[0].month) {
        assert !IsMonth(months[0], months[i + 1].year, months[i + 1].month);
      }
    }
    if UniqueKeys(rest) && !HasMonth(rest, months[0].year, months[0].month) {
      forall i, j | 0 <= i < j < |months| ensures !IsMonth(months[i], months[j].year, months[j].month) {
        assert months[j] == rest[j - 1];
        if i > 0 {
          assert months[i] == rest[i - 1];
        }
      }
    }
  }

  // ----- years

  function MonthSum(months: seq<Month>, year: int, upTo: nat, part: Part): real {
    if upTo == 0 then 0.0 else MonthSum(months, year, upTo - 1, part) + Of(ForMonth(months, year, upTo), part)
  }

  predicate CalendarMonths(months: seq<Month>) {
    forall i :: 0 <= i < |months| ==> 1 <= months[i].month <= 12
  }

  lemma {:induction false} MonthSumOfMore(months: seq<Month>, last: Month, year: int, upTo: nat, part: Part)
    requires !HasMonth(months, last.year, last.month)
    ensures MonthSum(months + [last], year, upTo, part) ==
            MonthSum(months, year, upTo, part) +
            if last.year == year && 1 <= last.month <= upTo then Of(last.energy, part) else 0.0
  {
    if upTo > 0 {
      MonthSumOfMore(months, last, year, upTo - 1, part);
      ForMonthOfMore(months, last, year, upTo, part);
    }
  }

  lemma {:induction false} ForMonthOfMore(months: seq<Month>, last: Month, year: int, month: int, part: Part)
    requires !HasMonth(months, last.year, last.month)
    ensures Of(ForMonth(months + [last], year, month), part) ==
            Of(ForMonth(months, year, month), part) + if IsMonth(last, year, month) then Of(last.energy, part) else 0.0
  {
    if months != [] {
      KeysOfFirst(months);
      ForMonthOfMore(months[1..], last, year, month, part);
      assert (months + [last])[1..] == months[1..] + [last];
    }
  }

  lemma {:induction false} NoMonthsNoSum(year: int, upTo: nat, part: Part)
    ensures MonthSum([], year, upTo, part) == 0.0
  {
    if upTo > 0 {
      NoMonthsNoSum(year, upTo - 1, part);
    }
  }

  /** The year is the sum of its twelve months. */
  lemma {:induction false} YearIsSumOfMonths(months: seq<Month>, year: int, part: Part)
    requires UniqueKeys(months) && CalendarMonths(months)
    ensures Of(ForYear(months, year), part) == MonthSum(months, year, 12, part)
  {
    if months == [] {
      NoMonthsNoSum(year, 12, part);
    } else {
      var earlier, last := months[..|months| - 1], months[|months| - 1];
      YearIsSumOfMonths(earlier, year, part);
      MonthSumOfMore(earlier, last, year, 12, part);
      assert earlier + [last] == months;
    }
  }

  // ----- runs

  function After(l: Ledger, updates: seq<LiveUpdate>): Ledger
    decreases |updates|
  {
    if updates == [] then l else UpdateStep(After(l, updates[..|updates| - 1]), updates[|updates| - 1])
  }

  /** The deltas of a run that are stamped with a month, or with any month. */
  function DeltaSum(l: Ledger, updates: seq<LiveUpdate>, wanted: LiveUpdate -> bool, part: Part): real
    decreases |updates|
  {
    if updates == [] then 0.0
    else
      var earlier, u := updates[..|updates| - 1], updates[|updates| - 1];
      DeltaSum(l, earlier, wanted, part) + if wanted(u) then Of(Delta(After(l, earlier), u), part) else 0.0
  }

  function StampedWith(year: int, month: int): LiveUpdate -> bool {
    (u: LiveUpdate) => u.year == year && u.month == month
  }

  function Any(): LiveUpdate -> bool {
    (u: LiveUpdate) => true
  }

  /** Keys stay unique, every delta reaches its own month and no other, and the archive grows by exactly the deltas. */
  lemma {:induction false} LedgerConserves(l: Ledger, updates: seq<LiveUpdate>, year: int, month: int, part: Part)
    requires UniqueKeys(l.months)
    ensures UniqueKeys(After(l, updates).months)
    ensures Of(ForMonth(After(l, updates).months, year, month), part) ==
            Of(ForMonth(l.months, year, month), part) + DeltaSum(l, updates, StampedWith(year, month), part)
    ensures Total(After(l, updates).months, part) == Total(l.months, part) + DeltaSum(l, updates, Any(), part)
    decreases |updates|
  {
    if updates != [] {
      var earlier, u := updates[..|updates| - 1], updates[|updates| - 1];
      LedgerConserves(l, earlier, year, month, part);
      var a := After(l, earlier);
      if Counts(u) {
        BookingKeepsKeys(a.months, u.year, u.month, Delta(a, u));
        BookingReachesOneMonth(a.months, u.year, u.month, Delta(a, u), year, month, part);
      }
    }
  }

  /** Repeating an update changes nothing. */
  lemma RepeatingAddsNothing(l: Ledger, u: LiveUpdate)
    ensures UpdateStep(UpdateStep(l, u), u) == UpdateStep(l, u)
  {
    if Counts(u) {
      BookingNothing(l.months, u.year, u.month, Delta(l, u));
    }
  }

  lemma {:induction false} BookingNothing(months: seq<Month>, year: int, month: int, delta: RecordedEnergy)
    ensures Booked(Booked(months, year, month, delta), year, month, NOTHING) == Booked(months, year, month, delta)
  {
    if months != [] && !IsMonth(months[0], year, month) {
      BookingNothing(months[1..], year, month, delta);
    }
  }

  // ----- one session day

  /** Updates of one local day. */
  predicate SessionOf(updates: seq<LiveUpdate>, day: nat) {
    forall k :: 0 <= k < |updates| ==> updates[k].day == day && Counts(updates[k])
  }

  function LiveOf(u: LiveUpdate, part: Part): real
    requires Counts(u)
  {
    Of(Recorded(u.live), part)
  }

  /** By how much the live value fell, in total. */
  function Drops(updates: seq<LiveUpdate>, day: nat, part: Part): real
    requires SessionOf(updates, day)
  {
    if |updates| < 2 then 0.0
    else
      Drops(updates[..|updates| - 1], day, part) +
      Growth(LiveOf(updates[|updates| - 2], part), LiveOf(updates[|updates| - 1], part))
  }

  predicate NeverFalls(updates: seq<LiveUpdate>, day: nat, part: Part)
    requires SessionOf(updates, day)
  {
    forall k :: 0 < k < |updates| ==> LiveOf(updates[k - 1], part) <= LiveOf(updates[k], part)
  }

  lemma {:induction false} NoDropsExactly(updates: seq<LiveUpdate>, day: nat, part: Part)
    requires SessionOf(updates, day)
    ensures Drops(updates, day, part) >= 0.0
    ensures Drops(updates, day, part) == 0.0 <==> NeverFalls(updates, day, part)
  {
    if |updates| >= 2 {
      var earlier, last := updates[..|updates| - 1], |updates| - 1;
      NoDropsExactly(earlier, day, part);
      assert forall k :: 0 <= k < last ==> earlier[k] == updates[k];
      assert NeverFalls(updates, day, part) <==>
             NeverFalls(earlier, day, part) && LiveOf(updates[last - 1], part) <= LiveOf(updates[last], part);
    }
  }

  /** What the ledger has for the day when a session starts: the saved day, or nothing. */
  function AtStart(l: Ledger, day: nat, part: Part): real {
    if l.dayStart == day then Of(l.today, part) else 0.0
  }

  lemma {:induction false} SessionRuns(l: Ledger, updates: seq<LiveUpdate>, day: nat, part: Part)
    requires l.sessionDay != day && updates != [] && SessionOf(updates, day)
    ensures
      var a := After(l, updates);
      && a.dayStart == day && a.sessionDay == day && Of(a.sessionEnergy, part) == LiveOf(updates[|updates| - 1], part)
      && Of(a.today, part) == AtStart(l, day, part) + LiveOf(updates[|updates| - 1], part) + Drops(updates, day, part)
  {
    var earlier, u := updates[..|updates| - 1], updates[|updates| - 1];
    if earlier != [] {
      SessionRuns(l, earlier, day, part);
      assert earlier[|earlier| - 1] == updates[|updates| - 2];
    }
  }

  /**
   A session adds to the day exactly its last live value, if and only if the live value never falls.
   A session starts with the first sample of a day, and again after a reboot.
   */
  lemma {:induction false} SessionAddsItsLastLiveValue(l: Ledger, updates: seq<LiveUpdate>, day: nat, part: Part)
    requires l.sessionDay != day && updates != [] && SessionOf(updates, day)
    ensures Of(After(l, updates).today, part) == AtStart(l, day, part) + LiveOf(updates[|updates| - 1], part) <==>
            NeverFalls(updates, day, part)
  {
    SessionRuns(l, updates, day, part);
    NoDropsExactly(updates, day, part);
  }
}
