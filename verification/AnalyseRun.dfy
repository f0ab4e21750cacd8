/** From measured observations to a ranked report, step by step as Run does it. */
module AnalyseRun {
  import opened Orders
  import opened Report
  import opened Bootstrap
  import opened RealScores
  import Scoring
  import opened Divergence
  import MarkDivergence
  import opened Ranking

  /** The draws a target's own seed gives for a number of samples. */
  type Draw = (string, nat) -> seq<seq<nat>>

  ghost predicate Drawable(drawn: Draw) {
    forall id, n :: Scoring.Draws(drawn(id, n), n)
  }

  function SampleCount(r: TargetResult): nat {
    |Scoring.SamplesOf(r.observations, |r.observations|)|
  }

  /** A target with the statistics its own observations give. */
  ghost predicate Summarised(drawn: Draw, timeout: real, r: TargetResult)
    requires Drawable(drawn)
  {
    r.stats == Scoring.StatisticsOf(r, timeout, drawn(r.target.id, SampleCount(r)))
  }

  /** Sorting the indexes by value is one order a library sort may leave. */
  lemma SortedIndexes(values: seq<real>)
    ensures SortedOrder(values, Sort(Identity(|values|), ByValue(values, Exact().le)), Exact().le)
  {
    var identity, le := Identity(|values|), Exact().le;
    var order := Sort(identity, ByValue(values, le));
    SortMultiset(identity, ByValue(values, le));
    PickSort(values, identity, le);
    assert Pick(values, identity) == values;
    SortAscending(values, le);
  }

  method Summarise(drawn: Draw, timeout: real, codeName: int -> string, r: TargetResult)
    returns (s: TargetResult, codes: map<string, nat>)
    requires Drawable(drawn)
    ensures Summarised(drawn, timeout, s) && s.(stats := r.stats) == r
    ensures Scoring.CodesCounted(r.observations, codeName, codes, |r.observations|)
  {
    hide Scoring.StatisticsOf, SortedOrder, Scoring.SamplesOf, Scoring.CodesCounted;
    var samples := Scoring.SamplesOf(r.observations, |r.observations|);
    var latencies := Latencies(samples, |samples|);
    SortedIndexes(latencies);
    var order := Sort(Identity(|latencies|), ByValue(latencies, Exact().le));
    var stats;
    stats, codes := Scoring.CalculateStatistics(r, timeout, codeName, order, drawn(r.target.id, SampleCount(r)));
    s := r.(stats := stats);
    StatisticsIgnoreStatistics(r, s, timeout, drawn(r.target.id, SampleCount(r)));
  }

  lemma StatisticsIgnoreStatistics(r: TargetResult, s: TargetResult, timeout: real, draws: seq<seq<nat>>)
    requires Scoring.Draws(draws, SampleCount(r)) && s == r.(stats := s.stats)
    ensures Scoring.StatisticsOf(s, timeout, draws) == Scoring.StatisticsOf(r, timeout, draws)
  {
  }

  /** A target's interval is never inverted, whatever was measured and drawn. */
  lemma SummarisedInterval(drawn: Draw, timeout: real, r: TargetResult)
    requires Drawable(drawn) && Summarised(drawn, timeout, r)
    ensures r.stats.ciLow <= r.stats.ciHigh
  {
    hide RealScore, Interval, RealPercentile;
    var samples := Scoring.SamplesOf(r.observations, |r.observations|);
    var draws := drawn(r.target.id, SampleCount(r));
    assert Scoring.Draws(draws, |samples|);
    IntervalOrdered(samples, timeout, draws);
  }

  lemma SummarisedIntervals(drawn: Draw, timeout: real, results: seq<TargetResult>)
    requires Drawable(drawn) && forall i :: 0 <= i < |results| ==> Summarised(drawn, timeout, results[i])
    ensures ValidIntervals(results)
  {
    forall i | 0 <= i < |results| ensures results[i].stats.ciLow <= results[i].stats.ciHigh {
      SummarisedInterval(drawn, timeout, results[i]);
    }
  }

  // ----- inside the measured range -----

  lemma {:induction false} LatenciesInRange(samples: seq<Sample<real>>, k: nat, lo: real, hi: real)
    requires k <= |samples|
    requires forall x :: x in Latencies(samples, k) ==> lo <= x <= hi
    ensures forall i :: 0 <= i < k && samples[i].Answered? ==> lo <= samples[i].latency <= hi
  {
    if k > 0 {
      var front, all := Latencies(samples, k - 1), Latencies(samples, k);
      if samples[k - 1].Answered? {
        assert all == front + [samples[k - 1].latency];
        assert samples[k - 1].latency in all;
      }
      forall x | x in front ensures lo <= x <= hi {
        assert x in all;
      }
      LatenciesInRange(samples, k - 1, lo, hi);
    }
  }

  lemma EndsBound(values: seq<real>, x: real)
    requires x in values
    ensures var s := Scoring.Ordered(values); s[0] <= x <= s[|s| - 1]
  {
    var s := Scoring.Ordered(values);
    SortAscending(values, Exact().le);
    SortMultiset(values, Exact().le);
    SameElements(values, s);
    var j := Find(s, x);
    assert Ascending(s, Exact().le);
    assert Exact().le(s[0], s[j]) || j == 0;
    assert Exact().le(s[j], s[|s| - 1]) || j == |s| - 1;
  }

  /** A rankable target without a scoring failure has its interval inside the range
      of latencies it was scored on. */
  lemma IntervalInRange(drawn: Draw, timeout: real, r: TargetResult)
    requires Drawable(drawn) && Summarised(drawn, timeout, r) && 0.0 <= timeout
    requires var samples := Scoring.SamplesOf(r.observations, |r.observations|);
             samples != [] && forall i :: 0 <= i < |samples| ==> samples[i].Answered?
    ensures r.stats.latency.min <= r.stats.ciLow && r.stats.ciHigh <= r.stats.latency.max
  {
    hide RealScore, Interval, RealPercentile, Scoring.SamplesOf;
    var samples := Scoring.SamplesOf(r.observations, |r.observations|);
    var draws := drawn(r.target.id, SampleCount(r));
    assert Scoring.Draws(draws, |samples|);
    var latencies := Latencies(samples, |samples|);
    var sorted := Scoring.Ordered(latencies);
    AllAnswered(samples, |samples|);
    assert |latencies| > 0;
    var lo, hi := sorted[0], sorted[|sorted| - 1];
    forall x | x in latencies ensures lo <= x <= hi {
      EndsBound(latencies, x);
    }
    LatenciesInRange(samples, |samples|, lo, hi);
    IntervalBounds(samples, timeout, draws, lo, hi);
  }

  // ----- the steps over the results, in place -----

  /** markDivergence, then the statistics of every target and its response codes. */
  method AnalyseGroup(results: array<TargetResult>, timeout: real, drawn: Draw, codeName: int -> string)
    returns (details: seq<MarkDivergence.Detail>, codes: seq<map<string, nat>>)
    requires Drawable(drawn)
    modifies results
    ensures |codes| == results.Length
    ensures forall i :: 0 <= i < results.Length ==>
              Scoring.CodesCounted(results[i].observations, codeName, codes[i], |results[i].observations|)
    ensures forall i :: 0 <= i < results.Length ==> Summarised(drawn, timeout, results[i])
    ensures forall i :: 0 <= i < results.Length ==>
              results[i].(stats := old(results[i]).stats) == MarkDivergent(old(results[..]))[i]
  {
    hide Summarised, Marked, AllVotes, KeysIn, Scoring.CodesCounted;
    codes := [];
    ghost var was := results[..];
    details := MarkDivergence.MarkDivergence(results);
    ghost var marked := results[..];
    assert marked == MarkDivergent(was);
    for i := 0 to results.Length
      invariant forall j :: 0 <= j < i ==> Summarised(drawn, timeout, results[j])
      invariant forall j :: 0 <= j < i ==> results[j].(stats := marked[j].stats) == marked[j]
      invariant forall j :: i <= j < results.Length ==> results[j] == marked[j]
      invariant |codes| == i
      invariant forall j :: 0 <= j < i ==>
                  Scoring.CodesCounted(results[j].observations, codeName, codes[j], |results[j].observations|)
    {
      var s, own := Summarise(drawn, timeout, codeName, results[i]);
      results[i] := s;
      codes := codes + [own];
    }
    forall i | 0 <= i < results.Length ensures results[i].(stats := was[i].stats) == MarkDivergent(was)[i] {
      MarkingKeepsStatistics(was, i);
    }
  }

  lemma MarkingKeepsStatistics(was: seq<TargetResult>, i: nat)
    requires i < |was|
    ensures MarkDivergent(was)[i].stats == was[i].stats
  {
    hide AllVotes, KeysIn;
  }

  /** makeRankings on results whose statistics were derived from their observations:
      nothing has to be asked about their intervals. */
  method RankReport(results: array<TargetResult>, timeout: real, drawn: Draw, visited: seq<string>)
    returns (rankings: seq<Ranking>)
    requires Drawable(drawn) && Listing(results[..], visited)
    requires forall i :: 0 <= i < results.Length ==> Summarised(drawn, timeout, results[i])
    modifies results
    ensures rankings == Rankings(old(results[..]), timeout, visited)
    ensures forall i :: 0 <= i < results.Length ==> Flagged(old(results[..]), timeout, i, results[i])
  {
    hide *;
    SummarisedIntervals(drawn, timeout, results[..]);
    rankings := MakeRankings(results, timeout, visited);
  }
}
