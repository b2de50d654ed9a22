/**
 Seconds that hold several samples: replay keeps the first of them and goes on from it, live accounting takes all of
 them and goes on from the last.
 */
module RepeatedSeconds {
  import opened HistorySamples
  import opened DailyEnergy
  import opened HistoryReplay

  /** What changes when the interval to the next sample begins with the last kept sample, not with the last one. */
  function Rejoined(before: seq<Sample>, next: Sample, base: real, lower: int, upper: int, m: Measure): real {
    NewShare(LastOf(Kept(before)), next, base, lower, upper, m) - NewShare(LastOf(before), next, base, lower, upper, m)
  }

  function Repeats(samples: seq<Sample>, base: real, lower: int, upper: int, m: Measure): real {
    if samples == [] then 0.0
    else
      var earlier, s := samples[..|samples| - 1], samples[|samples| - 1];
      Repeats(earlier, base, lower, upper, m) + Rejoined(earlier, s, base, lower, upper, m)
  }

  /** The kept samples are worth what all are, and what the repeated seconds change. */
  lemma {:induction false} KeptIsWorth(samples: seq<Sample>, base: real, lower: int, upper: int, m: Measure)
    ensures AdjacentSum(Kept(samples), base, lower, upper, m) ==
            AdjacentSum(samples, base, lower, upper, m) + Repeats(samples, base, lower, upper, m)
  {
    if samples != [] {
      var earlier, s := samples[..|samples| - 1], samples[|samples| - 1];
      KeptIsWorth(earlier, base, lower, upper, m);
      KeptAdds(samples, base, lower, upper, m);
      AdjacentSumSnoc(earlier, s, base, lower, upper, m);
      assert samples == earlier + [s];
    }
  }

  /** Sample k continues the last kept sample as it continues the sample before it. */
  predicate JoinAgrees(samples: seq<Sample>, k: nat, base: real, lower: int, upper: int, m: Measure)
    requires k < |samples|
  {
    Rejoined(samples[..k], samples[k], base, lower, upper, m) == 0.0
  }

  /** In every second with several samples, the first and the last lead to the next second with the same amount. */
  ghost predicate RepeatsAgree(samples: seq<Sample>, base: real, lower: int, upper: int, m: Measure) {
    forall k :: 0 <= k < |samples| ==> JoinAgrees(samples, k, base, lower, upper, m)
  }

  /** No second leads on with more from its first sample than from its last. */
  ghost predicate RepeatsOnlyLose(samples: seq<Sample>, base: real, lower: int, upper: int, m: Measure) {
    forall k :: 0 <= k < |samples| ==> Rejoined(samples[..k], samples[k], base, lower, upper, m) <= 0.0
  }

  lemma RejoinedEarlier(samples: seq<Sample>, k: nat, base: real, lower: int, upper: int, m: Measure)
    requires k + 1 < |samples|
    ensures var earlier := samples[..|samples| - 1];
      Rejoined(earlier[..k], earlier[k], base, lower, upper, m) ==
      Rejoined(samples[..k], samples[k], base, lower, upper, m)
  {
    assert samples[..|samples| - 1][..k] == samples[..k];
  }

  lemma AgreeSnoc(samples: seq<Sample>, base: real, lower: int, upper: int, m: Measure)
    requires samples != []
    ensures RepeatsAgree(samples, base, lower, upper, m) <==>
            && RepeatsAgree(samples[..|samples| - 1], base, lower, upper, m)
            && JoinAgrees(samples, |samples| - 1, base, lower, upper, m)
  {
    var earlier := samples[..|samples| - 1];
    forall k | 0 <= k < |earlier|
      ensures JoinAgrees(earlier, k, base, lower, upper, m) <==> JoinAgrees(samples, k, base, lower, upper, m)
    {
      RejoinedEarlier(samples, k, base, lower, upper, m);
    }
    if RepeatsAgree(earlier, base, lower, upper, m) && JoinAgrees(samples, |earlier|, base, lower, upper, m) {
      forall k | 0 <= k < |samples| ensures JoinAgrees(samples, k, base, lower, upper, m) {
        assert k < |earlier| ==> JoinAgrees(earlier, k, base, lower, upper, m);
      }
    }
    if RepeatsAgree(samples, base, lower, upper, m) {
      forall k | 0 <= k < |earlier| ensures JoinAgrees(earlier, k, base, lower, upper, m) {
        assert JoinAgrees(samples, k, base, lower, upper, m);
      }
      assert JoinAgrees(samples, |earlier|, base, lower, upper, m);
    }
  }

  lemma {:induction false} AgreeingRepeats(samples: seq<Sample>, base: real, lower: int, upper: int, m: Measure)
    requires RepeatsAgree(samples, base, lower, upper, m)
    ensures Repeats(samples, base, lower, upper, m) == 0.0
  {
    if samples != [] {
      AgreeSnoc(samples, base, lower, upper, m);
      AgreeingRepeats(samples[..|samples| - 1], base, lower, upper, m);
    }
  }

  lemma LoseSnoc(samples: seq<Sample>, base: real, lower: int, upper: int, m: Measure)
    requires samples != [] && RepeatsOnlyLose(samples, base, lower, upper, m)
    ensures RepeatsOnlyLose(samples[..|samples| - 1], base, lower, upper, m)
    ensures Rejoined(samples[..|samples| - 1], samples[|samples| - 1], base, lower, upper, m) <= 0.0
  {
    var earlier := samples[..|samples| - 1];
    forall k | 0 <= k < |earlier| ensures Rejoined(earlier[..k], earlier[k], base, lower, upper, m) <= 0.0 {
      RejoinedEarlier(samples, k, base, lower, upper, m);
    }
  }

  /** If no second gains, the kept samples are worth at most what all are, and exactly that if and only if all agree. */
  lemma {:induction false} RepeatsExactly(samples: seq<Sample>, base: real, lower: int, upper: int, m: Measure)
    requires RepeatsOnlyLose(samples, base, lower, upper, m)
    ensures Repeats(samples, base, lower, upper, m) <= 0.0
    ensures Repeats(samples, base, lower, upper, m) == 0.0 <==> RepeatsAgree(samples, base, lower, upper, m)
  {
    if samples != [] {
      LoseSnoc(samples, base, lower, upper, m);
      RepeatsExactly(samples[..|samples| - 1], base, lower, upper, m);
      AgreeSnoc(samples, base, lower, upper, m);
    }
  }

  // ----- when repeats cannot matter

  /** Distinct seconds are all kept. */
  lemma DistinctSecondsAgree(samples: seq<Sample>, base: real, lower: int, upper: int, m: Measure)
    requires Increasing(samples)
    ensures RepeatsAgree(samples, base, lower, upper, m)
  {
    forall k | 0 <= k < |samples| ensures JoinAgrees(samples, k, base, lower, upper, m) {
      IncreasingKeepsAll(samples[..k]);
    }
  }

  /** Replay stands at the time of the last sample. */
  lemma {:induction false} KeptEndsInTime(samples: seq<Sample>)
    requires InTimeOrder(samples)
    ensures Kept(samples) == [] <==> samples == []
    ensures samples != [] ==> Kept(samples)[|Kept(samples)| - 1].timestamp == samples[|samples| - 1].timestamp
    ensures forall k :: 0 <= k < |Kept(samples)| ==> Kept(samples)[k] in samples
  {
    if samples != [] {
      KeptEndsInTime(samples[..|samples| - 1]);
    }
  }

  /** Compressor time depends on the later sample of an interval alone, so it never suffers. */
  lemma CompressorTimeAgrees(samples: seq<Sample>, base: real, lower: int, upper: int)
    requires InTimeOrder(samples) && forall k :: 0 <= k < |samples| ==> samples[k].timeValid
    ensures RepeatsAgree(samples, base, lower, upper, CompressorSeconds)
  {
    forall k | 0 <= k < |samples| ensures JoinAgrees(samples, k, base, lower, upper, CompressorSeconds) {
      KeptEndsInTime(samples[..k]);
    }
  }
}
