/** The chart of stored history: time buckets over a stream of samples, with a fixed number of output slots. */
module StoredDownsampling {
  import opened Words
  import opened HistorySamples
  import opened EnergyPairs
  import opened EnergyCop
  import opened RamDownsampling

  const MAX_DISPLAY_POINTS := 72
  const NO_BUCKET := 0xFFFF

  /** A requested period and the number of display points. */
  datatype Period = Period(lower: nat, upper: nat, maxPoints: nat)

  predicate ValidPeriod(p: Period) {
    p.lower < p.upper <= p.lower + 90 * 86400 && 1 <= p.maxPoints <= MAX_DISPLAY_POINTS
  }

  /** `StoredHistoryOutput`; members are the samples in the open aggregate. */
  datatype Output = Output(
    activeBucket: nat,
    members: seq<Sample>,
    energy: Totals,
    bucketPrevious: Option<Sample>,
    points: seq<Point>,
    previous: Option<Sample>,
    heating: Totals,
    dhw: Totals)

  /** All bytes cleared, so the active bucket is 0 and not its initializer. */
  const CLEARED := Output(0, [], NO_ENERGY, None, [], None, NO_ENERGY, NO_ENERGY)

  predicate Visited(s: Sample, p: Period) {
    p.lower <= s.timestamp <= p.upper
  }

  /** The time bucket of a sample; the end of the period belongs to the last bucket. */
  function Bucket(s: Sample, p: Period): (b: nat)
    requires ValidPeriod(p) && Visited(s, p)
    ensures b < p.maxPoints
  {
    var b := Scaled(s.timestamp - p.lower, p.maxPoints, p.upper - p.lower);
    if b >= p.maxPoints then p.maxPoints - 1 else b
  }

  function Scaled(elapsed: nat, points: nat, span: nat): nat
    requires span > 0
  {
    var product: nat := elapsed * points;
    product / span
  }

  /** Bucket b covers the times from b to b + 1 parts of the period, the last one also its end. */
  lemma BucketExactly(s: Sample, p: Period, b: nat)
    requires ValidPeriod(p) && Visited(s, p)
    ensures
      var elapsed, span := s.timestamp - p.lower, p.upper - p.lower;
      Bucket(s, p) == b <==>
        if elapsed == span then b == p.maxPoints - 1 else b * span <= elapsed * p.maxPoints < (b + 1) * span
  {
    var elapsed, span, points := s.timestamp - p.lower, p.upper - p.lower, p.maxPoints;
    if elapsed == span {
      ScaledAtEnd(points, span);
    } else {
      ScaledStaysBelow(elapsed, points, span);
      QuotientExactly(elapsed * points, span, b);
    }
  }

  lemma ScaledAtEnd(points: nat, span: nat)
    requires span > 0
    ensures Scaled(span, points, span) == points
  {
    QuotientExactly(span * points, span, points);
  }

  lemma ScaledStaysBelow(elapsed: nat, points: nat, span: nat)
    requires elapsed < span && points > 0
    ensures Scaled(elapsed, points, span) < points
  {
    SmallerProduct(elapsed, span, points);
    QuotientBelow(elapsed * points, span, points);
  }

  lemma SmallerProduct(x: nat, y: nat, k: nat)
    requires x < y && k > 0
    ensures x * k < y * k
  {
    ProductsAreOrdered(x + 1, y, k);
  }

  lemma QuotientBelow(a: nat, d: nat, q: nat)
    requires d > 0 && a < d * q
    ensures a / d < q
  {
    var whole := a / d;
    if whole >= q {
      ProductsAreOrdered(q, whole, d);
    }
  }

  lemma QuotientExactly(a: nat, d: nat, q: nat)
    requires d > 0
    ensures a / d == q <==> q * d <= a < (q + 1) * d
  {
    var r := a - a / d * d;
    if q < a / d {
      ProductsAreOrdered(q + 1, a / d, d);
    } else if q > a / d {
      ProductsAreOrdered(a / d + 1, q, d);
    }
  }

  /** `finishStoredHistoryBucket`. */
  function FinishBucket(o: Output, maxPoints: nat): Output {
    if o.members == [] || |o.points| >= maxPoints then o
    else
      o.(points := o.points + [Point(o.members, o.energy)], members := [], energy := NO_ENERGY,
         bucketPrevious := None)
  }

  function AddPair(previous: Option<Sample>, sample: Sample, groupFilter: int, p: Period, totals: Totals): Totals {
    if previous.None? then totals else AddEnergyPair(previous.value, sample, groupFilter, p.lower, p.upper, totals).1
  }

  /** `aggregateStoredHistorySample`. */
  function AddStored(o: Output, s: Sample, p: Period): Output
    requires ValidPeriod(p) && Visited(s, p)
  {
    var b := Bucket(s, p);
    var q := if o.activeBucket != NO_BUCKET && b != o.activeBucket then FinishBucket(o, p.maxPoints) else o;
    q.(heating := AddPair(o.previous, s, 1, p, o.heating), dhw := AddPair(o.previous, s, 2, p, o.dhw),
       previous := Some(s),
       activeBucket := b, members := q.members + [s], energy := AddPair(q.bucketPrevious, s, 0, p, q.energy),
       bucketPrevious := Some(s))
  }

  predicate AllVisited(samples: seq<Sample>, p: Period) {
    forall k :: 0 <= k < |samples| ==> Visited(samples[k], p)
  }

  function Collected(samples: seq<Sample>, p: Period): Output
    requires ValidPeriod(p) && AllVisited(samples, p)
  {
    if samples == [] then CLEARED else AddStored(Collected(samples[..|samples| - 1], p), samples[|samples| - 1], p)
  }

  class StoredHistoryOutput {
    const period: Period
    var activeBucket: nat
    var members: seq<Sample>
    var energy: Totals
    var bucketPrevious: Option<Sample>
    var points: seq<Point>
    var previous: Option<Sample>
    var heating: Totals
    var dhw: Totals

    ghost function State(): Output
      reads this
    {
      Output(activeBucket, members, energy, bucketPrevious, points, previous, heating, dhw)
    }

    constructor (period: Period)
      ensures State() == CLEARED && this.period == period
    {
      this.period := period;
      activeBucket, members, energy, bucketPrevious, points := 0, [], NO_ENERGY, None, [];
      previous, heating, dhw := None, NO_ENERGY, NO_ENERGY;
    }

    method Finish()
      modifies this
      ensures State() == FinishBucket(old(State()), period.maxPoints)
    {
      if members == [] || |points| >= period.maxPoints { return; }
      points := points + [Point(members, energy)];
      members, energy, bucketPrevious := [], NO_ENERGY, None;
    }

    method Add(sample: Sample)
      requires ValidPeriod(period) && Visited(sample, period)
      modifies this
      ensures State() == AddStored(old(State()), sample, period)
    {
      if previous.Some? {
        heating := AddEnergyPair(previous.value, sample, 1, period.lower, period.upper, heating).1;
        dhw := AddEnergyPair(previous.value, sample, 2, period.lower, period.upper, dhw).1;
      }
      previous := Some(sample);
      var bucket := Bucket(sample, period);
      if activeBucket != NO_BUCKET && bucket != activeBucket {
        Finish();
      }
      if activeBucket != bucket {
        activeBucket := bucket;
      }
      members := members + [sample];
      if bucketPrevious.Some? {
        energy := AddEnergyPair(bucketPrevious.value, sample, 0, period.lower, period.upper, energy).1;
      }
      bucketPrevious := Some(sample);
    }

    /** Visits the stored samples of the period in file order. */
    method Visit(samples: seq<Sample>)
      requires ValidPeriod(period) && AllVisited(samples, period) && State() == CLEARED
      modifies this
      ensures State() == FinishBucket(Collected(samples, period), period.maxPoints)
    {
      for i := 0 to |samples|
        invariant State() == Collected(samples[..i], period)
      {
        assert samples[..i + 1][..i] == samples[..i];
        Add(samples[i]);
      }
      assert samples[..|samples|] == samples;
      Finish();
    }
  }

  // ----- the independent reference: maximal runs of samples in one bucket

  function LastBucket(samples: seq<Sample>, p: Period): nat
    requires ValidPeriod(p) && AllVisited(samples, p) && samples != []
  {
    Bucket(samples[|samples| - 1], p)
  }

  function BucketRuns(samples: seq<Sample>, p: Period): (runs: seq<seq<Sample>>)
    requires ValidPeriod(p) && AllVisited(samples, p)
    ensures runs == [] <==> samples == []
  {
    if samples == [] then []
    else
      var earlier, s := samples[..|samples| - 1], samples[|samples| - 1];
      var runs := BucketRuns(earlier, p);
      if earlier != [] && LastBucket(earlier, p) == Bucket(s, p)
      then runs[..|runs| - 1] + [runs[|runs| - 1] + [s]]
      else runs + [[s]]
  }

  function MemberLists(points: seq<Point>): (r: seq<seq<Sample>>)
    ensures |r| == |points| && forall k :: 0 <= k < |r| ==> r[k] == points[k].members
  {
    seq(|points|, k requires 0 <= k < |points| => points[k].members)
  }

  /** Each point carries the energy of its own samples. */
  predicate OwnEnergy(points: seq<Point>, p: Period) {
    forall k :: 0 <= k < |points| ==> points[k].energy == EnergyOver(points[k].members, 0, p.lower, p.upper)
  }

  ghost predicate CollectInv(o: Output, samples: seq<Sample>, runs: seq<seq<Sample>>, p: Period)
    requires ValidPeriod(p) && AllVisited(samples, p)
  {
    && OwnEnergy(o.points, p)
    && (samples == [] ==> o == CLEARED)
    && (samples != [] ==> o.members != [] && o.activeBucket == LastBucket(samples, p) && |runs| > 0)
    && (samples != [] && |runs| <= p.maxPoints ==>
          && MemberLists(o.points) == runs[..|runs| - 1] && o.members == runs[|runs| - 1]
          && o.bucketPrevious == Some(o.members[|o.members| - 1])
          && o.energy == EnergyOver(o.members, 0, p.lower, p.upper))
    && (|runs| > p.maxPoints ==> MemberLists(o.points) == runs[..p.maxPoints])
  }

  lemma EnergyOfOneMore(members: seq<Sample>, s: Sample, p: Period)
    ensures EnergyOver(members + [s], 0, p.lower, p.upper) ==
            AddPair(if members == [] then None else Some(members[|members| - 1]), s, 0, p,
                    EnergyOver(members, 0, p.lower, p.upper))
  {
    assert (members + [s])[..|members|] == members;
  }

  lemma SameBucketKeeps(o: Output, samples: seq<Sample>, runs: seq<seq<Sample>>, s: Sample, p: Period)
    requires ValidPeriod(p) && AllVisited(samples + [s], p) && AllVisited(samples, p) && Visited(s, p) && samples != []
    requires CollectInv(o, samples, runs, p) && LastBucket(samples, p) == Bucket(s, p)
    ensures CollectInv(AddStored(o, s, p), samples + [s], runs[..|runs| - 1] + [runs[|runs| - 1] + [s]], p)
  {
    EnergyOfOneMore(o.members, s, p);
    var more := runs[..|runs| - 1] + [runs[|runs| - 1] + [s]];
    if |runs| > p.maxPoints {
      assert more[..p.maxPoints] == runs[..p.maxPoints];
    } else {
      assert more[..|runs| - 1] == runs[..|runs| - 1];
    }
  }

  lemma NewBucketKeeps(o: Output, samples: seq<Sample>, runs: seq<seq<Sample>>, s: Sample, p: Period)
    requires ValidPeriod(p) && AllVisited(samples + [s], p) && AllVisited(samples, p) && Visited(s, p) && samples != []
    requires CollectInv(o, samples, runs, p) && LastBucket(samples, p) != Bucket(s, p)
    ensures CollectInv(AddStored(o, s, p), samples + [s], runs + [[s]], p)
  {
    var more := runs + [[s]];
    var q := FinishBucket(o, p.maxPoints);
    assert more[..|runs|] == runs;
    if |runs| <= p.maxPoints {
      assert |o.points| == |runs| - 1;
      assert MemberLists(q.points) == runs;
    } else {
      assert more[..p.maxPoints] == runs[..p.maxPoints];
      assert |o.points| == p.maxPoints;
    }
  }

  lemma {:induction false} CollectKeeps(samples: seq<Sample>, p: Period)
    requires ValidPeriod(p) && AllVisited(samples, p)
    ensures CollectInv(Collected(samples, p), samples, BucketRuns(samples, p), p)
  {
    if samples != [] {
      var earlier, s := samples[..|samples| - 1], samples[|samples| - 1];
      assert samples == earlier + [s];
      CollectKeeps(earlier, p);
      if earlier == [] {
        assert EnergyOver([s], 0, p.lower, p.upper) == NO_ENERGY;
      } else if LastBucket(earlier, p) == Bucket(s, p) {
        SameBucketKeeps(Collected(earlier, p), earlier, BucketRuns(earlier, p), s, p);
      } else {
        NewBucketKeeps(Collected(earlier, p), earlier, BucketRuns(earlier, p), s, p);
      }
    }
  }

  lemma FinishedPoints(o: Output, samples: seq<Sample>, runs: seq<seq<Sample>>, p: Period)
    requires ValidPeriod(p) && AllVisited(samples, p) && CollectInv(o, samples, runs, p)
    requires samples == [] ==> runs == []
    ensures
      var points := FinishBucket(o, p.maxPoints).points;
      && MemberLists(points) == (if |runs| <= p.maxPoints then runs else runs[..p.maxPoints])
      && OwnEnergy(points, p)
  {
    if samples != [] && |runs| <= p.maxPoints {
      assert |o.points| == |runs| - 1;
      assert MemberLists(o.points + [Point(o.members, o.energy)]) == runs[..|runs| - 1] + [runs[|runs| - 1]];
    } else if samples != [] {
      assert |o.points| == p.maxPoints;
    }
  }

  /** The points are the first maxPoints bucket runs, each with the energy of its own samples. */
  lemma {:induction false} PointsAreBucketRuns(samples: seq<Sample>, p: Period)
    requires ValidPeriod(p) && AllVisited(samples, p)
    ensures
      var points, runs := FinishBucket(Collected(samples, p), p.maxPoints).points, BucketRuns(samples, p);
      && MemberLists(points) == (if |runs| <= p.maxPoints then runs else runs[..p.maxPoints])
      && OwnEnergy(points, p)
  {
    CollectKeeps(samples, p);
    FinishedPoints(Collected(samples, p), samples, BucketRuns(samples, p), p);
  }

  function Flat(runs: seq<seq<Sample>>): seq<Sample> {
    if runs == [] then [] else Flat(runs[..|runs| - 1]) + runs[|runs| - 1]
  }

  lemma FlatSnoc(runs: seq<seq<Sample>>, run: seq<Sample>)
    ensures Flat(runs + [run]) == Flat(runs) + run
  {
    assert (runs + [run])[..|runs|] == runs;
  }

  predicate NoneEmpty(runs: seq<seq<Sample>>) {
    forall k :: 0 <= k < |runs| ==> runs[k] != []
  }

  lemma RunGrows(runs: seq<seq<Sample>>, s: Sample)
    requires runs != [] && NoneEmpty(runs)
    ensures
      var more := runs[..|runs| - 1] + [runs[|runs| - 1] + [s]];
      NoneEmpty(more) && Flat(more) == Flat(runs) + [s]
  {
    var first, last := runs[..|runs| - 1], runs[|runs| - 1];
    FlatSnoc(first, last + [s]);
    assert Flat(runs) == Flat(first) + last;
  }

  lemma RunStarts(runs: seq<seq<Sample>>, s: Sample)
    requires NoneEmpty(runs)
    ensures NoneEmpty(runs + [[s]]) && Flat(runs + [[s]]) == Flat(runs) + [s]
  {
    FlatSnoc(runs, [s]);
  }

  /** The runs split the sample sequence, and none is empty. */
  lemma {:induction false} RunsAreAllSamples(samples: seq<Sample>, p: Period)
    requires ValidPeriod(p) && AllVisited(samples, p)
    ensures Flat(BucketRuns(samples, p)) == samples && NoneEmpty(BucketRuns(samples, p))
  {
    if samples != [] {
      var earlier, s := samples[..|samples| - 1], samples[|samples| - 1];
      RunsAreAllSamples(earlier, p);
      var runs := BucketRuns(earlier, p);
      assert samples == earlier + [s];
      if earlier != [] && LastBucket(earlier, p) == Bucket(s, p) {
        RunGrows(runs, s);
      } else {
        RunStarts(runs, s);
      }
    }
  }

  lemma {:induction false} FlatOfPrefix(runs: seq<seq<Sample>>, k: nat)
    requires k <= |runs| && forall i :: 0 <= i < |runs| ==> runs[i] != []
    ensures |Flat(runs[..k])| <= |Flat(runs)|
    ensures k < |runs| ==> |Flat(runs[..k])| < |Flat(runs)|
  {
    if k < |runs| {
      FlatOfPrefix(runs[..|runs| - 1], k);
      assert runs[..|runs| - 1][..k] == runs[..k];
    } else {
      assert runs[..k] == runs;
    }
  }

  /** The points hold every sample, once and in order, exactly when there are no more bucket runs than slots. */
  lemma EverySampleIsShown(samples: seq<Sample>, p: Period)
    requires ValidPeriod(p) && AllVisited(samples, p)
    ensures Flat(MemberLists(FinishBucket(Collected(samples, p), p.maxPoints).points)) == samples <==>
            |BucketRuns(samples, p)| <= p.maxPoints
  {
    PointsAreBucketRuns(samples, p);
    RunsAreAllSamples(samples, p);
    var runs := BucketRuns(samples, p);
    if |runs| > p.maxPoints {
      FlatOfPrefix(runs, p.maxPoints);
    }
  }

  // ----- time order

  lemma LaterBucket(s: Sample, t: Sample, p: Period)
    requires ValidPeriod(p) && Visited(s, p) && Visited(t, p) && s.timestamp <= t.timestamp
    ensures Bucket(s, p) <= Bucket(t, p)
  {
    ProductsAreOrdered(s.timestamp - p.lower, t.timestamp - p.lower, p.maxPoints);
    QuotientsAreOrdered((s.timestamp - p.lower) * p.maxPoints, (t.timestamp - p.lower) * p.maxPoints,
                        p.upper - p.lower);
  }

  lemma QuotientsAreOrdered(a: nat, b: nat, d: nat)
    requires a <= b && d > 0
    ensures a / d <= b / d
  {
    var x, y := a / d, b / d;
    assert x * d <= a && b < (y + 1) * d;
    ProductsAreOrdered(y + 1, x, d);
  }

  lemma {:induction false} FewRunsInTimeOrder(samples: seq<Sample>, p: Period)
    requires ValidPeriod(p) && AllVisited(samples, p) && InTimeOrder(samples) && samples != []
    ensures |BucketRuns(samples, p)| <= LastBucket(samples, p) + 1
  {
    var earlier, s := samples[..|samples| - 1], samples[|samples| - 1];
    if earlier != [] {
      FewRunsInTimeOrder(earlier, p);
      LaterBucket(earlier[|earlier| - 1], s, p);
    }
  }

  /** For time-ordered samples the slot guard never fires: nothing is lost. */
  lemma {:induction false} TimeOrderedSamplesAreAllShown(samples: seq<Sample>, p: Period)
    requires ValidPeriod(p) && AllVisited(samples, p) && InTimeOrder(samples)
    ensures
      var points := FinishBucket(Collected(samples, p), p.maxPoints).points;
      && Flat(MemberLists(points)) == samples
      && |points| <= p.maxPoints
      && (forall k :: 0 <= k < |points| ==> points[k].members != [])
      && OwnEnergy(points, p)
  {
    EverySampleIsShown(samples, p);
    PointsAreBucketRuns(samples, p);
    RunsAreAllSamples(samples, p);
    if samples != [] {
      FewRunsInTimeOrder(samples, p);
    }
  }

  /** Another bucket starts another run. */
  lemma OneMoreRun(samples: seq<Sample>, p: Period)
    requires ValidPeriod(p) && AllVisited(samples, p) && samples != []
    requires |samples| > 1 ==> Bucket(samples[|samples| - 2], p) != Bucket(samples[|samples| - 1], p)
    ensures |BucketRuns(samples, p)| == |BucketRuns(samples[..|samples| - 1], p)| + 1
  {
  }

  lemma ThreeRuns(samples: seq<Sample>, p: Period)
    requires ValidPeriod(p) && AllVisited(samples, p) && |samples| == 3
    requires Bucket(samples[0], p) != Bucket(samples[1], p) && Bucket(samples[1], p) != Bucket(samples[2], p)
    ensures |BucketRuns(samples, p)| == 3
  {
    var two := samples[..2];
    var one := two[..1];
    OneMoreRun(samples, p);
    OneMoreRun(two, p);
    OneMoreRun(one, p);
  }

  /** A clock that was set back can lose samples, at any time t: here the third of three, in a chart of two points. */
  lemma ClockSetBackLosesSamples(s: Sample, t: nat)
    ensures
      var a, b := s.(timestamp := t), s.(timestamp := t + 90);
      var p := Period(t, t + 100, 2);
      Flat(MemberLists(FinishBucket(Collected([a, b, a], p), 2).points)) != [a, b, a]
  {
    var a, b, p := s.(timestamp := t), s.(timestamp := t + 90), Period(t, t + 100, 2);
    assert Bucket(a, p) == 0 && Bucket(b, p) == 1;
    ThreeRuns([a, b, a], p);
    EverySampleIsShown([a, b, a], p);
  }

  /** The range totals are the energies of the whole stream, per group. */
  lemma {:induction false} RangeTotalsAreWhole(samples: seq<Sample>, p: Period)
    requires ValidPeriod(p) && AllVisited(samples, p)
    ensures
      var o := Collected(samples, p);
      && o.previous == (if samples == [] then None else Some(samples[|samples| - 1]))
      && o.heating == EnergyOver(samples, 1, p.lower, p.upper)
      && o.dhw == EnergyOver(samples, 2, p.lower, p.upper)
  {
    if samples != [] {
      RangeTotalsAreWhole(samples[..|samples| - 1], p);
    }
  }
}
