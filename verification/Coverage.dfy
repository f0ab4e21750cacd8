/** What the percentiles are worth: how many of the thousand replicates lie outside a
    confidence interval, and what every percentile of an evenly spaced list is. */
module Coverage {
  import opened Orders
  import opened Bootstrap
  import opened RealScores
  import opened Report
  import Scoring

  // ----- counting values -----

  function Counted(s: seq<real>, keep: real -> bool): nat {
    |Filter(s, keep, |s|)|
  }

  /** How many values are less than x, at most x, more than x, at least x. */
  function Under(s: seq<real>, x: real): nat {
    Counted(s, y => y < x)
  }

  function UpTo(s: seq<real>, x: real): nat {
    Counted(s, y => y <= x)
  }

  function Over(s: seq<real>, x: real): nat {
    Counted(s, y => y > x)
  }

  function From(s: seq<real>, x: real): nat {
    Counted(s, y => y >= x)
  }

  lemma {:induction false} FilterFront(s: seq<real>, keep: real -> bool, m: nat, k: nat)
    requires m <= k <= |s|
    ensures (forall i :: m <= i < k ==> !keep(s[i])) ==> |Filter(s, keep, k)| <= m
    ensures (forall i :: 0 <= i < m ==> keep(s[i])) ==> |Filter(s, keep, k)| >= m
    ensures (forall i :: 0 <= i < m ==> !keep(s[i])) ==> |Filter(s, keep, k)| <= k - m
    ensures (forall i :: m <= i < k ==> keep(s[i])) ==> |Filter(s, keep, k)| >= k - m
  {
    if k > m {
      FilterFront(s, keep, m, k - 1);
    } else if k > 0 {
      FilterAllOrNone(s, keep, k);
    }
  }

  lemma {:induction false} FilterAllOrNone(s: seq<real>, keep: real -> bool, k: nat)
    requires k <= |s|
    ensures |Filter(s, keep, k)| <= k
    ensures (forall i :: 0 <= i < k ==> keep(s[i])) ==> |Filter(s, keep, k)| == k
    ensures (forall i :: 0 <= i < k ==> !keep(s[i])) ==> |Filter(s, keep, k)| == 0
  {
    if k > 0 { FilterAllOrNone(s, keep, k - 1); }
  }

  lemma CountedSorted(s: seq<real>, keep: real -> bool)
    ensures Counted(Sort(s, Exact().le), keep) == Counted(s, keep)
  {
    SortMultiset(s, Exact().le);
    FilterPermutation(s, Sort(s, Exact().le), keep);
    SameElements(Filter(s, keep, |s|), Filter(Sort(s, Exact().le), keep, |s|));
  }

  // ----- the outer percentiles of a thousand values -----

  lemma OuterPlaces()
    ensures var p := RealPosition(1000, P025); p.lower == 24 && p.upper == 25
    ensures var q := RealPosition(1000, P975); q.lower == 974 && q.upper == 975
  {
    assert Location(1000, P025) == 24.975 && Location(1000, P975) == 974.025;
  }

  /** Of a thousand values at most 25 lie outside either outer percentile, and at least
      25 lie at or outside it. */
  lemma OuterPercentilesCover(values: seq<real>)
    requires |values| == 1000
    ensures var low := RealPercentile(Sort(values, Exact().le), P025); Under(values, low) <= 25 <= UpTo(values, low)
    ensures var high := RealPercentile(Sort(values, Exact().le), P975); Over(values, high) <= 25 <= From(values, high)
  {
    hide RealPercentile, RealPosition, Under, UpTo, Over, From;
    var s := Sort(values, Exact().le);
    SortedIncreasing(values);
    OuterPlaces();
    PercentileBetween(s, P025);
    PercentileBetween(s, P975);
    CoverLow(values, RealPercentile(s, P025));
    CoverHigh(values, RealPercentile(s, P975));
  }

  lemma CoverLow(values: seq<real>, low: real)
    requires |values| == 1000
    requires var s := Sort(values, Exact().le); Increasing(s) && s[24] <= low <= s[25]
    ensures Under(values, low) <= 25 <= UpTo(values, low)
  {
    hide Sort;
    FewUnder(values, low, 25);
    ManyUpTo(values, low, 25);
  }

  lemma CoverHigh(values: seq<real>, high: real)
    requires |values| == 1000
    requires var s := Sort(values, Exact().le); Increasing(s) && s[974] <= high <= s[975]
    ensures Over(values, high) <= 25 <= From(values, high)
  {
    hide Sort;
    FewOver(values, high, 975);
    ManyFrom(values, high, 975);
  }

  lemma FewUnder(values: seq<real>, x: real, m: nat)
    requires var s := Sort(values, Exact().le); Increasing(s) && m < |s| == |values| && x <= s[m]
    ensures Under(values, x) <= m
  {
    hide Sort;
    CountedSorted(values, y => y < x);
    FilterFront(Sort(values, Exact().le), y => y < x, m, |values|);
  }

  lemma ManyUpTo(values: seq<real>, x: real, m: nat)
    requires var s := Sort(values, Exact().le); Increasing(s) && 0 < m <= |s| == |values| && s[m - 1] <= x
    ensures UpTo(values, x) >= m
  {
    hide Sort;
    CountedSorted(values, y => y <= x);
    FilterFront(Sort(values, Exact().le), y => y <= x, m, |values|);
  }

  lemma FewOver(values: seq<real>, x: real, m: nat)
    requires var s := Sort(values, Exact().le); Increasing(s) && 0 < m <= |s| == |values| && s[m - 1] <= x
    ensures Over(values, x) <= |values| - m
  {
    hide Sort;
    CountedSorted(values, y => y > x);
    FilterFront(Sort(values, Exact().le), y => y > x, m, |values|);
  }

  lemma ManyFrom(values: seq<real>, x: real, m: nat)
    requires var s := Sort(values, Exact().le); Increasing(s) && m < |s| == |values| && x <= s[m]
    ensures From(values, x) >= |values| - m
  {
    hide Sort;
    CountedSorted(values, y => y >= x);
    FilterFront(Sort(values, Exact().le), y => y >= x, m, |values|);
  }

  /** The scores of the replicates, in the order they are drawn. */
  function ReplicateScores(samples: seq<Sample<real>>, timeout: real, draws: seq<seq<nat>>): (r: seq<real>)
    requires forall i :: 0 <= i < |draws| ==> Below(draws[i], |samples|)
    ensures |r| == |draws|
  {
    seq(|draws|, i requires 0 <= i < |draws| => RealScore(Resample(samples, draws[i], |draws[i]|), timeout))
  }

  lemma ReplicateScoresAre(samples: seq<Sample<real>>, timeout: real, draws: seq<seq<nat>>)
    requires forall i :: 0 <= i < |draws| ==> Below(draws[i], |samples|)
    ensures Lawful(Exact()) && ReplicateScores(samples, timeout, draws) == Scores(Exact(), samples, timeout, draws)
  {
    hide Score, Resample;
    ExactLawful();
  }

  /** The interval of a target: of the thousand replicates' scores, in the order they
      were drawn, at most 25 lie below it and at most 25 above, and at least 25 reach
      each end from outside. */
  lemma IntervalCovers(samples: seq<Sample<real>>, timeout: real, draws: seq<seq<nat>>)
    requires |samples| >= 2 && |draws| == 1000 && forall i :: 0 <= i < |draws| ==> Below(draws[i], |samples|)
    ensures var ci, scores := Interval(samples, timeout, draws), ReplicateScores(samples, timeout, draws);
            && Under(scores, ci.0) <= 25 <= UpTo(scores, ci.0)
            && Over(scores, ci.1) <= 25 <= From(scores, ci.1)
  {
    hide RealPercentile, Interval, ReplicateScores, Scores, Under, UpTo, Over, From;
    ReplicateScoresAre(samples, timeout, draws);
    IntervalIsPercentiles(samples, timeout, draws);
    OuterPercentilesCover(ReplicateScores(samples, timeout, draws));
  }

  /** The same for the interval of a paired comparison, over the medians of the
      resampled differences. */
  lemma PairedIntervalCovers(deltas: seq<real>, draws: seq<seq<nat>>)
    requires deltas != [] && |draws| == 1000 && forall i :: 0 <= i < |draws| ==> Below(draws[i], |deltas|)
    ensures var ci, medians := PairedInterval(deltas, draws), RealMedians(deltas, draws);
            && Under(medians, ci.0) <= 25 <= UpTo(medians, ci.0)
            && Over(medians, ci.1) <= 25 <= From(medians, ci.1)
  {
    hide RealPercentile, PairedInterval, RealMedians, Under, UpTo, Over, From;
    PairedIntervalIsPercentiles(deltas, draws);
    OuterPercentilesCover(RealMedians(deltas, draws));
  }

  // ----- the median and the spread -----

  lemma MiddlePlace(n: nat)
    requires n >= 1
    ensures var p := RealPosition(n, P50); p.lower == (n - 1) / 2 && p.upper == n / 2
  {
    var x := Location(n, P50);
    assert x == (n - 1) as real / 2.0;
    if n % 2 == 1 {
      assert x == ((n - 1) / 2) as real;
    } else {
      assert x == ((n - 1) / 2) as real + 0.5;
    }
  }

  /** At most half of some values lie below their median, and at most half above. */
  lemma MedianSplits(values: seq<real>)
    requires values != []
    ensures var median := RealPercentile(Sort(values, Exact().le), P50);
            Under(values, median) <= |values| / 2 && Over(values, median) <= |values| / 2
  {
    hide Under, Over, RealPercentile, RealPosition, Sort;
    var s, n := Sort(values, Exact().le), |values|;
    SortedIncreasing(values);
    MiddlePlace(n);
    PercentileBetween(s, P50);
    FewUnder(values, RealPercentile(s, P50), n / 2);
    FewOver(values, RealPercentile(s, P50), n - n / 2);
  }

  function Distance(x: real, y: real): real {
    if x >= y then x - y else y - x
  }

  lemma {:induction false} FilterDistances(s: seq<real>, others: seq<real>, keep: real -> bool, wanted: real -> bool,
                                           k: nat)
    requires k <= |s| == |others| && forall i :: 0 <= i < |s| ==> keep(s[i]) == wanted(others[i])
    ensures |Filter(s, keep, k)| == |Filter(others, wanted, k)|
  {
    if k > 0 { FilterDistances(s, others, keep, wanted, k - 1); }
  }

  /** The deviation published beside the median: at most half of the scored latencies are
      nearer to the median than it says, and at most half are further away. */
  lemma DeviationSplits(result: TargetResult, timeout: real, draws: seq<seq<nat>>)
    requires var samples := Scoring.SamplesOf(result.observations, |result.observations|);
             Scoring.Draws(draws, |samples|) && Latencies(samples, |samples|) != []
    ensures var l, samples := Scoring.StatisticsOf(result, timeout, draws).latency,
                              Scoring.SamplesOf(result.observations, |result.observations|);
            var latencies := Latencies(samples, |samples|);
            && Under(latencies, l.median) <= |latencies| / 2 && Over(latencies, l.median) <= |latencies| / 2
            && Counted(latencies, x => Distance(x, l.median) < l.mad) <= |latencies| / 2
            && Counted(latencies, x => Distance(x, l.median) > l.mad) <= |latencies| / 2
  {
    hide RealPercentile, Interval, RealScore, Scoring.LatencyOf, Latencies;
    var samples := Scoring.SamplesOf(result.observations, |result.observations|);
    SpreadOf(samples, result.cold);
  }

  lemma SpreadOf(samples: seq<Sample<real>>, cold: seq<ColdObservation>)
    requires Latencies(samples, |samples|) != []
    ensures var l, latencies := Scoring.LatencyOf(samples, cold), Latencies(samples, |samples|);
            && Under(latencies, l.median) <= |latencies| / 2 && Over(latencies, l.median) <= |latencies| / 2
            && Counted(latencies, x => Distance(x, l.median) < l.mad) <= |latencies| / 2
            && Counted(latencies, x => Distance(x, l.median) > l.mad) <= |latencies| / 2
  {
    hide RealPercentile, Latencies, Sort, Scoring.ColdLatencies;
    var l, latencies := Scoring.LatencyOf(samples, cold), Latencies(samples, |samples|);
    var sorted := Sort(latencies, Exact().le);
    var deviations := Scoring.Deviations(sorted, l.median);
    MedianSplits(latencies);
    MedianSplits(deviations);
    SpreadCounts(latencies, l.median, l.mad);
  }

  lemma SpreadCounts(latencies: seq<real>, median: real, mad: real)
    ensures var sorted := Sort(latencies, Exact().le);
            && Under(Scoring.Deviations(sorted, median), mad) == Counted(latencies, x => Distance(x, median) < mad)
            && Over(Scoring.Deviations(sorted, median), mad) == Counted(latencies, x => Distance(x, median) > mad)
  {
    hide Sort;
    var sorted := Sort(latencies, Exact().le);
    var deviations := Scoring.Deviations(sorted, median);
    FilterDistances(deviations, sorted, y => y < mad, x => Distance(x, median) < mad, |sorted|);
    FilterDistances(deviations, sorted, y => y > mad, x => Distance(x, median) > mad, |sorted|);
    CountedSorted(latencies, x => Distance(x, median) < mad);
    CountedSorted(latencies, x => Distance(x, median) > mad);
  }

  // ----- evenly spaced values -----

  /** n values from a on, d apart. */
  function Progression(a: real, d: real, n: nat): (s: seq<real>)
    ensures |s| == n && forall i :: 0 <= i < n ==> s[i] == a + d * i as real
  {
    seq(n, i requires 0 <= i < n => a + d * i as real)
  }

  /** What stands x places into an even spacing. */
  function Along(a: real, d: real, x: real): real {
    a + d * x
  }

  lemma ProgressionAlong(a: real, d: real, n: nat)
    ensures var s := Progression(a, d, n); forall i :: 0 <= i < n ==> s[i] == Along(a, d, i as real)
  {
  }

  lemma PercentileOfProgression(a: real, d: real, n: nat, level: Level)
    requires n >= 1
    ensures RealPercentile(Progression(a, d, n), level) == Along(a, d, Location(n, level))
  {
    hide RealPosition, Location, Interpolate, Along, Progression;
    var s, p := Progression(a, d, n), RealPosition(n, level);
    Placed(n, level);
    ProgressionAlong(a, d, n);
    SpacedEvenly(a, d, p.lower, Location(n, level));
  }

  /** Where a percentile stands among n values, between two neighbours or on one. */
  lemma Placed(n: nat, level: Level)
    requires n >= 1
    ensures var p, x := RealPosition(n, level), Location(n, level);
            && (n == 1 ==> x == 0.0)
            && (p.lower == p.upper ==> x == p.lower as real)
            && (p.lower != p.upper ==> p.upper == p.lower + 1 && p.weight == x - p.lower as real)
  {
    var x := Location(n, level);
    assert x.Floor as real <= x < x.Floor as real + 1.0;
  }

  lemma SpacedEvenly(a: real, d: real, i: nat, x: real)
    ensures Interpolate(Along(a, d, i as real), Along(a, d, (i + 1) as real), x - i as real) == Along(a, d, x)
  {
    var low, high := a + d * i as real, a + d * (i + 1) as real;
    assert high - low == d by { assert d * (i + 1) as real == d * i as real + d; }
    assert d * (x - i as real) == d * x - d * i as real;
  }

  /** The percentiles of n evenly spaced values: the median half way, the 95th
      percentile nineteen twentieths of the way, the outer ones a fortieth from either
      end. */
  lemma PercentilesAreShares(a: real, d: real, n: nat)
    requires n >= 1
    ensures var s, span := Progression(a, d, n), d * (n - 1) as real;
            && RealPercentile(s, P50) == a + span / 2.0
            && RealPercentile(s, P95) == a + span * 19.0 / 20.0
            && RealPercentile(s, P025) == a + span / 40.0
            && RealPercentile(s, P975) == a + span * 39.0 / 40.0
  {
    hide RealPercentile;
    PercentileOfProgression(a, d, n, P50);
    PercentileOfProgression(a, d, n, P95);
    PercentileOfProgression(a, d, n, P025);
    PercentileOfProgression(a, d, n, P975);
    var m := (n - 1) as real;
    assert d * (0.50 * m) == d * m / 2.0 && d * (0.95 * m) == d * m * 19.0 / 20.0;
    assert d * (0.025 * m) == d * m / 40.0 && d * (0.975 * m) == d * m * 39.0 / 40.0;
  }

  // ----- the score -----

  /** The score of evenly spaced latencies, in whatever order they were measured, among
      which some queries failed: six tenths of the median, four tenths of the 95th
      percentile, and the timeout for the share that failed. */
  lemma ScoreOfProgression(samples: seq<Sample<real>>, timeout: real, a: real, d: real, n: nat, failed: nat)
    requires n >= 1 && 0.0 <= d && |samples| == n + failed
    requires multiset(Latencies(samples, |samples|)) == multiset(Progression(a, d, n))
    ensures RealScore(samples, timeout) ==
            a + d * (n - 1) as real * 17.0 / 25.0 + failed as real / (n + failed) as real * timeout
  {
    hide RealPercentile, RealScore, Composite, Rate, Progression, Sort, Latencies, Failures;
    var latencies, s := Latencies(samples, |samples|), Progression(a, d, n);
    SameElements(latencies, s);
    LatenciesAndFailures(samples, |samples|);
    SortedProgression(latencies, a, d, n);
    ScoreFormula(samples, timeout);
    PercentilesAreShares(a, d, n);
    Weighted(a, d * (n - 1) as real, failed, n + failed, timeout);
  }

  lemma SortedProgression(latencies: seq<real>, a: real, d: real, n: nat)
    requires 0.0 <= d && multiset(latencies) == multiset(Progression(a, d, n))
    ensures Sort(latencies, Exact().le) == Progression(a, d, n)
  {
    ProgressionRises(a, d, n);
    SortUnique(latencies, Progression(a, d, n), Exact().le);
  }

  lemma Weighted(a: real, span: real, failed: nat, total: nat, timeout: real)
    requires total > 0
    ensures Composite(a + span / 2.0, a + span * 19.0 / 20.0, Rate(failed, total), timeout) ==
            a + span * 17.0 / 25.0 + failed as real / total as real * timeout
  {
  }

  lemma ProgressionRises(a: real, d: real, n: nat)
    requires 0.0 <= d
    ensures Ascending(Progression(a, d, n), Exact().le)
  {
    var s := Progression(a, d, n);
    forall i, j | 0 <= i < j < n ensures s[i] <= s[j] {
      Product(d, (j - i) as real);
      assert d * (j - i) as real == d * j as real - d * i as real;
    }
  }

  // ----- a target's statistics -----

  /** The statistics of a target whose scored latencies and whose cold ones are each
      evenly spaced, in whatever order they were measured. */
  lemma StatisticsOfProgression(result: TargetResult, timeout: real, draws: seq<seq<nat>>,
                                a: real, d: real, n: nat, x: real, y: real, m: nat)
    requires var samples := Scoring.SamplesOf(result.observations, |result.observations|);
             && Scoring.Draws(draws, |samples|) && n >= 1 && m >= 1 && 0.0 <= d && 0.0 <= y
             && multiset(Latencies(samples, |samples|)) == multiset(Progression(a, d, n))
    requires multiset(ColdSuccesses(result.cold)) == multiset(Progression(x, y, m))
    ensures var s, span := Scoring.StatisticsOf(result, timeout, draws), d * (n - 1) as real;
            && s.latency.median == a + span / 2.0 && s.latency.p95 == a + span * 19.0 / 20.0
            && s.latency.min == a && s.latency.max == a + span
            && s.latency.coldMedian == x + y * (m - 1) as real / 2.0
  {
    hide Scoring.LatencyOf, Interval, RealScore, Latencies, ColdSuccesses, Progression;
    var samples := Scoring.SamplesOf(result.observations, |result.observations|);
    LatencyOfProgression(samples, result.cold, a, d, n, x, y, m);
  }

  lemma LatencyOfProgression(samples: seq<Sample<real>>, cold: seq<ColdObservation>, a: real, d: real, n: nat,
                             x: real, y: real, m: nat)
    requires n >= 1 && m >= 1 && 0.0 <= d && 0.0 <= y
    requires multiset(Latencies(samples, |samples|)) == multiset(Progression(a, d, n))
    requires multiset(ColdSuccesses(cold)) == multiset(Progression(x, y, m))
    ensures var l, span := Scoring.LatencyOf(samples, cold), d * (n - 1) as real;
            && l.median == a + span / 2.0 && l.p95 == a + span * 19.0 / 20.0
            && l.min == a && l.max == a + span && l.coldMedian == x + y * (m - 1) as real / 2.0
  {
    hide *;
    SortedProgression(Latencies(samples, |samples|), a, d, n);
    SortedProgression(ColdSuccesses(cold), x, y, m);
    ProgressionSpans(a, d, n);
    ProgressionSpans(x, y, m);
    LatencyOfSpans(samples, cold, a, d * (n - 1) as real, x, y * (m - 1) as real);
  }

  /** The list runs over span from a on, its percentiles in their places. */
  ghost predicate Spans(s: seq<real>, a: real, span: real) {
    && s != [] && s[0] == a && s[|s| - 1] == a + span
    && RealPercentile(s, P50) == a + span / 2.0 && RealPercentile(s, P95) == a + span * 19.0 / 20.0
  }

  lemma ProgressionSpans(a: real, d: real, n: nat)
    requires n >= 1
    ensures Spans(Progression(a, d, n), a, d * (n - 1) as real)
  {
    hide RealPercentile;
    PercentilesAreShares(a, d, n);
    assert Progression(a, d, n)[n - 1] == a + d * (n - 1) as real;
  }

  lemma LatencyOfSpans(samples: seq<Sample<real>>, cold: seq<ColdObservation>, a: real, span: real, x: real,
                       width: real)
    requires Spans(Sort(Latencies(samples, |samples|), Exact().le), a, span)
    requires Spans(Sort(ColdSuccesses(cold), Exact().le), x, width)
    ensures var l := Scoring.LatencyOf(samples, cold);
            && l.median == a + span / 2.0 && l.p95 == a + span * 19.0 / 20.0
            && l.min == a && l.max == a + span && l.coldMedian == x + width / 2.0
  {
    hide RealPercentile, Latencies, ColdSuccesses, Sort, Scoring.LatencyOf;
    LatencyOfSorted(samples, cold, Sort(Latencies(samples, |samples|), Exact().le),
                    Sort(ColdSuccesses(cold), Exact().le));
  }

  lemma LatencyOfSorted(samples: seq<Sample<real>>, cold: seq<ColdObservation>, warm: seq<real>, cool: seq<real>)
    requires warm == Sort(Latencies(samples, |samples|), Exact().le) && warm != []
    requires cool == Sort(ColdSuccesses(cold), Exact().le)
    ensures var l := Scoring.LatencyOf(samples, cold);
            && l.median == RealPercentile(warm, P50) && l.p95 == RealPercentile(warm, P95)
            && l.min == warm[0] && l.max == warm[|warm| - 1] && l.coldMedian == RealPercentile(cool, P50)
  {
    hide RealPercentile, Latencies, ColdSuccesses, Sort, Scoring.Deviations, Scoring.ColdLatencies;
    ColdAre(cold, |cold|);
  }

  /** The latencies of the cold observations that succeeded. */
  function ColdSuccesses(cold: seq<ColdObservation>): (r: seq<real>) {
    if cold == [] then []
    else
      var front, last := cold[..|cold| - 1], cold[|cold| - 1];
      ColdSuccesses(front) + if last.success then [last.latency] else []
  }

  lemma {:induction false} ColdAre(cold: seq<ColdObservation>, k: nat)
    requires k <= |cold|
    ensures Scoring.ColdLatencies(cold, k) == ColdSuccesses(cold[..k])
    ensures cold[..|cold|] == cold
  {
    if k > 0 {
      ColdAre(cold, k - 1);
      assert cold[..k][..k - 1] == cold[..k - 1] && cold[..k][k - 1] == cold[k - 1];
    }
  }

  /** A target's interval covers all but the outermost of a thousand replicates, and its
      score is that of its samples. */
  lemma TargetIntervalCovers(result: TargetResult, timeout: real, draws: seq<seq<nat>>)
    requires var samples := Scoring.SamplesOf(result.observations, |result.observations|);
             Scoring.Draws(draws, |samples|) && |samples| >= 2 && Latencies(samples, |samples|) != []
    ensures var s, samples := Scoring.StatisticsOf(result, timeout, draws),
                              Scoring.SamplesOf(result.observations, |result.observations|);
            var scores := ReplicateScores(samples, timeout, draws);
            && |scores| == 1000 && s.score == RealScore(samples, timeout)
            && Under(scores, s.ciLow) <= 25 <= UpTo(scores, s.ciLow)
            && Over(scores, s.ciHigh) <= 25 <= From(scores, s.ciHigh)
  {
    hide RealScore, Interval, Under, UpTo, Over, From, ReplicateScores, Scoring.LatencyOf, Latencies;
    IntervalCovers(Scoring.SamplesOf(result.observations, |result.observations|), timeout, draws);
  }

  /** The rates are shares of all queries, but failures of the score a share of what was
      scored; and who is recommended. */
  lemma RatesSpelledOut(result: TargetResult, timeout: real, draws: seq<seq<nat>>)
    requires var samples := Scoring.SamplesOf(result.observations, |result.observations|);
             Scoring.Draws(draws, |samples|) && samples != []
    ensures var s, n := Scoring.StatisticsOf(result, timeout, draws), |result.observations| as real;
            var samples, c := Scoring.SamplesOf(result.observations, |result.observations|), s.counts;
            && n > 0.0 && c == Scoring.CountsOfObservations(result.observations)
            && s.rates.success * n == c.successes as real && s.rates.failure * n == c.failures as real
            && s.rates.usable * n == c.usableResponses as real && s.rates.answer * n == c.answers as real
            && s.rates.resolverFailure * n == c.resolverFailures as real
            && s.rates.scoringFailure * |samples| as real == Failures(samples, |samples|) as real
            && (s.recommended <==> !result.target.local && !result.incomplete && c.scored >= 20 &&
                                   100.0 * c.usableResponses as real >= 99.0 * n)
  {
    hide RealPercentile, Interval, RealScore, Scoring.LatencyOf, Scoring.Number, Scoring.SamplesOf, Scoring.RateOf;
    var obs := result.observations;
    var c, samples := Scoring.CountsOfObservations(obs), Scoring.SamplesOf(obs, |obs|);
    Scoring.SamplesMatchCounts(obs, |obs|);
    NoSamplesOfNone(obs);
    RateMeans(c.successes, |obs|);
    RateMeans(c.failures, |obs|);
    RateMeans(c.usableResponses, |obs|);
    RateMeans(c.answers, |obs|);
    RateMeans(c.resolverFailures, |obs|);
    RateMeans(Failures(samples, |samples|), |samples|);
    Shares(c.usableResponses, |obs|);
  }

  lemma NoSamplesOfNone(obs: seq<Observation>)
    ensures obs == [] ==> Scoring.SamplesOf(obs, |obs|) == []
  {
  }

  lemma RateMeans(k: nat, n: nat)
    requires n > 0
    ensures Scoring.RateOf(k, n) * n as real == k as real
  {
  }

  lemma Shares(k: nat, n: nat)
    requires n > 0
    ensures Scoring.RateOf(k, n) >= 0.99 <==> 100.0 * k as real >= 99.0 * n as real
  {
    var q := k as real / n as real;
    assert q * n as real == k as real;
    SameSign(q - 0.99, n as real);
    assert (q - 0.99) * n as real == q * n as real - 0.99 * n as real;
  }
}
