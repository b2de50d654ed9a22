/** The history chart: the retained samples of a range, grouped into at most maxPoints points. */
module RamDownsampling {
  import opened Words
  import opened HistorySamples
  import opened EnergyPairs
  import EnergyCop

  /** One clock reading: the wall clock, if it is set, and the uptime. */
  datatype HistoryClock = HistoryClock(valid: bool, timestamp: nat, uptime: nat)

  /** One chart point: the samples that are averaged for it, and its energy. */
  datatype Point = Point(members: seq<Sample>, energy: Totals)

  /** `sampleInRange`. */
  predicate InRange(s: Sample, range: nat, clock: HistoryClock) {
    range == 0 ||
    (if s.timeValid && clock.valid then s.timestamp <= clock.timestamp <= s.timestamp + range
     else s.uptimeSeconds <= clock.uptime <= s.uptimeSeconds + range)
  }

  /** Without a range all samples count; else those that are no older than it, by the wall clock where both have it. */
  lemma InRangeExactly(s: Sample, range: nat, clock: HistoryClock)
    ensures
      var age := if s.timeValid && clock.valid then clock.timestamp - s.timestamp else clock.uptime - s.uptimeSeconds;
      InRange(s, range, clock) <==> range == 0 || 0 <= age <= range
  {
  }

  function Matching(samples: seq<Sample>, range: nat, clock: HistoryClock): (r: seq<Sample>)
    ensures |r| <= |samples|
  {
    if samples == [] then []
    else
      var last := samples[|samples| - 1];
      Matching(samples[..|samples| - 1], range, clock) + if InRange(last, range, clock) then [last] else []
  }

  lemma {:induction false} MatchingGrows(samples: seq<Sample>, k: nat, range: nat, clock: HistoryClock)
    requires k <= |samples|
    ensures |Matching(samples[..k], range, clock)| <= |Matching(samples, range, clock)|
  {
    if k < |samples| {
      MatchingGrows(samples[..|samples| - 1], k, range, clock);
      assert samples[..|samples| - 1][..k] == samples[..k];
    } else {
      assert samples[..k] == samples;
    }
  }

  /** The amounts in energy totals. */
  datatype Part = Thermal | Electrical | Intervals

  function Amount(t: Totals, part: Part): real {
    match part
    case Thermal => t.thermal
    case Electrical => t.electrical
    case Intervals => t.intervals as real
  }

  /** What a pair adds does not depend on the totals it is added to. */
  lemma PairAddsTheSame(p: Sample, c: Sample, groupFilter: int, lower: int, upper: int, t: Totals, u: Totals,
                        part: Part)
    ensures Amount(AddEnergyPair(p, c, groupFilter, lower, upper, t).1, part) - Amount(t, part) ==
            Amount(AddEnergyPair(p, c, groupFilter, lower, upper, u).1, part) - Amount(u, part)
  {
  }

  function Members(points: seq<Point>): seq<Sample> {
    if points == [] then [] else Members(points[..|points| - 1]) + points[|points| - 1].members
  }

  function Energy(points: seq<Point>, part: Part): real {
    if points == [] then 0.0 else Energy(points[..|points| - 1], part) + Amount(points[|points| - 1].energy, part)
  }

  lemma Snoc(points: seq<Point>, p: Point)
    ensures Members(points + [p]) == Members(points) + p.members
    ensures forall part :: Energy(points + [p], part) == Energy(points, part) + Amount(p.energy, part)
  {
    assert (points + [p])[..|points|] == points;
  }

  /** The whole matching sequence, as one stretch. */
  function WholeEnergy(samples: seq<Sample>): Totals {
    EnergyCop.EnergyOver(samples, 0, 0, FOREVER)
  }

  /** Groups of the smallest size that needs no more than maxPoints of them. */
  function GroupSize(matching: nat, maxPoints: nat): (step: nat)
    requires maxPoints >= 1
    ensures step >= 1 && matching <= maxPoints * step
    ensures step == 1 || maxPoints * (step - 1) < matching
  {
    var step := if matching > maxPoints then (matching + maxPoints - 1) / maxPoints else 1;
    assert maxPoints * ((matching + maxPoints - 1) / maxPoints) >= matching;
    step
  }

  /** Every point but the last has exactly `step` samples, and the last has at least one and at most `step`. */
  predicate EvenlyGrouped(points: seq<Point>, step: nat) {
    && (forall i :: 0 <= i < |points| - 1 ==> |points[i].members| == step)
    && (points != [] ==> 0 < |points[|points| - 1].members| <= step)
  }

  lemma {:induction false} CountOfGroups(points: seq<Point>, step: nat)
    requires forall i :: 0 <= i < |points| ==> |points[i].members| == step
    ensures |Members(points)| == |points| * step
  {
    if points != [] {
      CountOfGroups(points[..|points| - 1], step);
      assert (|points| - 1) * step + step == |points| * step;
    }
  }

  lemma TooManyGroups(groups: nat, step: nat, matching: nat, maxPoints: nat)
    requires groups * step < matching <= maxPoints * step
    ensures groups < maxPoints
  {
    ProductsAreOrdered(maxPoints, groups, step);
  }

  lemma ProductsAreOrdered(a: nat, b: nat, k: nat)
    ensures a <= b ==> a * k <= b * k
  {
  }

  /**
   The sample loop of `handleHistoryApi`: at most maxPoints points, every matching sample in exactly one
   of them and in order, and their energies sum to the energy of the whole matching sequence.
   */
  method HistoryPoints(samples: seq<Sample>, range: nat, clock: HistoryClock,
                       maxPoints: nat) returns (points: seq<Point>)
    requires maxPoints >= 1
    ensures |points| <= maxPoints
    ensures Members(points) == Matching(samples, range, clock)
    ensures EvenlyGrouped(points, GroupSize(|Matching(samples, range, clock)|, maxPoints))
    ensures forall part :: Energy(points, part) == Amount(WholeEnergy(Matching(samples, range, clock)), part)
  {
    var matching := CountMatching(samples, range, clock);
    var step := GroupSize(matching, maxPoints);
    points := [];
    var matchedIndex, previous, members, energy := 0, None, [], NO_ENERGY;
    ghost var taken: seq<Sample> := [];
    for offset := 0 to |samples|
      invariant taken == Matching(samples[..offset], range, clock)
      invariant matchedIndex == |taken| <= matching
      invariant Partial(points, members, energy, previous, taken)
      invariant |members| < step && (matchedIndex == matching ==> members == [])
      invariant Progress(points, step, matchedIndex, matching)
      invariant |points| <= maxPoints
    {
      MatchingNext(samples, offset, range, clock);
      var sample := samples[offset];
      if InRange(sample, range, clock) {
        SampleTaken(points, members, energy, previous, taken, sample);
        taken := taken + [sample];
        members := members + [sample];
        if previous.Some? {
          energy := AddEnergyPair(previous.value, sample, 0, 0, FOREVER, energy).1;
        }
        previous := Some(sample);
        matchedIndex := matchedIndex + 1;
        if |members| >= step || matchedIndex == matching {
          GroupEnds(points, Point(members, energy), step, matchedIndex, matching, maxPoints);
          PointAdded(points, members, energy, previous, taken);
          points := points + [Point(members, energy)];
          members, energy := [], NO_ENERGY;
        }
      }
    }
    assert samples[..|samples|] == samples;
  }

  lemma MatchingNext(samples: seq<Sample>, offset: nat, range: nat, clock: HistoryClock)
    requires offset < |samples|
    ensures Matching(samples[..offset + 1], range, clock) ==
            Matching(samples[..offset], range, clock) +
            if InRange(samples[offset], range, clock) then [samples[offset]] else []
    ensures |Matching(samples[..offset + 1], range, clock)| <= |Matching(samples, range, clock)|
  {
    assert samples[..offset + 1][..offset] == samples[..offset];
    MatchingGrows(samples, offset + 1, range, clock);
  }

  /** Points so far and the open group together hold what was taken, and its energy. */
  ghost predicate Partial(points: seq<Point>, members: seq<Sample>, energy: Totals, previous: Option<Sample>,
                          taken: seq<Sample>) {
    && Members(points) + members == taken
    && previous == (if taken == [] then None else Some(taken[|taken| - 1]))
    && (members == [] ==> energy == NO_ENERGY)
    && forall part :: Energy(points, part) + Amount(energy, part) == Amount(WholeEnergy(taken), part)
  }

  lemma SampleTaken(points: seq<Point>, members: seq<Sample>, energy: Totals, previous: Option<Sample>,
                    taken: seq<Sample>, sample: Sample)
    requires Partial(points, members, energy, previous, taken)
    ensures
      var more := if previous.Some? then AddEnergyPair(previous.value, sample, 0, 0, FOREVER, energy).1 else energy;
      Partial(points, members + [sample], more, Some(sample), taken + [sample])
  {
    EnergyGrows(taken, sample, previous, energy);
    assert Members(points) + (members + [sample]) == taken + [sample];
  }

  lemma PointAdded(points: seq<Point>, members: seq<Sample>, energy: Totals, previous: Option<Sample>,
                   taken: seq<Sample>)
    requires Partial(points, members, energy, previous, taken)
    ensures Partial(points + [Point(members, energy)], [], NO_ENERGY, previous, taken)
  {
    Snoc(points, Point(members, energy));
  }

  method CountMatching(samples: seq<Sample>, range: nat, clock: HistoryClock) returns (matching: nat)
    ensures matching == |Matching(samples, range, clock)|
  {
    matching := 0;
    for offset := 0 to |samples|
      invariant matching == |Matching(samples[..offset], range, clock)|
    {
      MatchingNext(samples, offset, range, clock);
      if InRange(samples[offset], range, clock) {
        matching := matching + 1;
      }
    }
    assert samples[..|samples|] == samples;
  }

  /** Only the last point may be short, and only when nothing is left. */
  predicate Progress(points: seq<Point>, step: nat, matched: nat, matching: nat) {
    && EvenlyGrouped(points, step)
    && (matched < matching ==> forall i :: 0 <= i < |points| ==> |points[i].members| == step)
  }

  lemma GroupEnds(points: seq<Point>, p: Point, step: nat, matched: nat, matching: nat, maxPoints: nat)
    requires 0 < matched <= matching <= maxPoints * step
    requires Progress(points, step, matched - 1, matching)
    requires 0 < |p.members| <= step && (|p.members| == step || matched == matching)
    requires |Members(points)| + |p.members| == matched
    ensures Progress(points + [p], step, matched, matching)
    ensures |points| < maxPoints
  {
    CountOfGroups(points, step);
    TooManyGroups(|points|, step, matching, maxPoints);
  }

  lemma EnergyGrows(before: seq<Sample>, sample: Sample, previous: Option<Sample>, energy: Totals)
    requires previous == if before == [] then None else Some(before[|before| - 1])
    ensures forall part ::
              Amount(WholeEnergy(before + [sample]), part) - Amount(WholeEnergy(before), part) ==
              (if previous.None? then 0.0
               else Amount(AddEnergyPair(previous.value, sample, 0, 0, FOREVER, energy).1, part) - Amount(energy, part))
  {
    assert (before + [sample])[..|before|] == before;
    if previous.Some? {
      forall part
        ensures Amount(AddEnergyPair(previous.value, sample, 0, 0, FOREVER, energy).1, part) - Amount(energy, part) ==
                 Amount(AddEnergyPair(previous.value, sample, 0, 0, FOREVER, WholeEnergy(before)).1, part) -
                 Amount(WholeEnergy(before), part)
      {
        PairAddsTheSame(previous.value, sample, 0, 0, FOREVER, energy, WholeEnergy(before), part);
      }
    }
  }
}
