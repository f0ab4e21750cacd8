/** The bootstrap over exact arithmetic: what the interval's bounds mean once
    rounding is set aside. */
module RealScores {
  import opened Orders
  import opened Bootstrap

  function Value(level: Level): real {
    match level
    case P025 => 0.025
    case P50 => 0.50
    case P95 => 0.95
    case P975 => 0.975
  }

  function Ceil(x: real): int {
    -((-x).Floor)
  }

  function Location(n: nat, level: Level): (x: real)
    requires n >= 1
    ensures 0.0 <= x <= (n - 1) as real
  {
    Value(level) * (n - 1) as real
  }

  function RealPosition(n: nat, level: Level): (p: Position<real>)
    ensures n >= 1 ==> p.lower <= p.upper < n
  {
    if n == 0 then Position(0, 0, 0.0)
    else
      var location := Location(n, level);
      Position(location.Floor, Ceil(location), location - location.Floor as real)
  }

  function Rate(k: nat, n: nat): real {
    if n == 0 then 0.0 else k as real / n as real
  }

  function Composite(median: real, p95: real, failureRate: real, timeout: real): real {
    0.60 * median + 0.40 * p95 + failureRate * timeout
  }

  function Interpolate(lower: real, upper: real, weight: real): real {
    lower + (upper - lower) * weight
  }

  function Exact(): Arithmetic<real, real> {
    Arithmetic((x: real, y: real) => x <= y, 0.0, RealPosition, Interpolate, Rate, Composite)
  }

  lemma ExactLawful()
    ensures Lawful(Exact())
  {
  }

  ghost predicate Increasing(s: seq<real>) {
    forall i, j :: 0 <= i <= j < |s| ==> s[i] <= s[j]
  }

  ghost predicate Within(s: seq<real>, lo: real, hi: real) {
    forall i :: 0 <= i < |s| ==> lo <= s[i] <= hi
  }

  function RealPercentile(sorted: seq<real>, level: Level): real {
    ExactLawful();
    Percentile(Exact(), sorted, level)
  }

  lemma InterpolateWithin(lower: real, upper: real, weight: real)
    requires lower <= upper && 0.0 <= weight <= 1.0
    ensures lower <= Interpolate(lower, upper, weight) <= upper
  {
    Product(upper - lower, weight);
    Product(upper - lower, 1.0 - weight);
    assert (upper - lower) * (1.0 - weight) == (upper - lower) - (upper - lower) * weight;
  }

  lemma Product(x: real, y: real)
    requires 0.0 <= x && 0.0 <= y
    ensures 0.0 <= x * y
  {
  }

  lemma InterpolateMonotone(lower: real, upper: real, w: real, v: real)
    requires lower <= upper && w <= v
    ensures Interpolate(lower, upper, w) <= Interpolate(lower, upper, v)
  {
    Product(upper - lower, v - w);
    assert (upper - lower) * (v - w) == (upper - lower) * v - (upper - lower) * w;
  }

  lemma PercentileBetween(sorted: seq<real>, level: Level)
    requires |sorted| > 0 && Increasing(sorted)
    ensures var p := RealPosition(|sorted|, level);
            sorted[p.lower] <= RealPercentile(sorted, level) <= sorted[p.upper]
  {
    var p := RealPosition(|sorted|, level);
    if |sorted| > 1 && p.lower != p.upper {
      InterpolateWithin(sorted[p.lower], sorted[p.upper], p.weight);
    }
  }

  /** A percentile of bounded values keeps the bounds. */
  lemma PercentileWithin(sorted: seq<real>, level: Level, lo: real, hi: real)
    requires |sorted| > 0 && Increasing(sorted) && Within(sorted, lo, hi)
    ensures lo <= RealPercentile(sorted, level) <= hi
  {
    PercentileBetween(sorted, level);
  }

  lemma LocationMonotone(n: nat, a: Level, b: Level)
    requires n >= 1 && Value(a) <= Value(b)
    ensures Location(n, a) <= Location(n, b)
  {
    Product(Value(b) - Value(a), (n - 1) as real);
    assert (Value(b) - Value(a)) * (n - 1) as real == Location(n, b) - Location(n, a);
  }

  /** A higher percentile is never a smaller value. */
  lemma PercentileMonotone(sorted: seq<real>, a: Level, b: Level)
    requires |sorted| > 0 && Increasing(sorted) && Value(a) <= Value(b)
    ensures RealPercentile(sorted, a) <= RealPercentile(sorted, b)
  {
    var n := |sorted|;
    LocationMonotone(n, a, b);
    hide Location;
    var p, q := RealPosition(n, a), RealPosition(n, b);
    PercentileBetween(sorted, a);
    PercentileBetween(sorted, b);
    if p.lower == q.lower && n > 1 {
      if p.lower != p.upper {
        assert q.lower != q.upper && q.upper == p.upper;
        InterpolateMonotone(sorted[p.lower], sorted[p.upper], p.weight, q.weight);
      }
    } else if n > 1 {
      assert p.upper <= q.lower;
    }
  }

  lemma SortedIncreasing(s: seq<real>)
    ensures Increasing(Sort(s, Exact().le))
  {
    var le := Exact().le;
    SortAscending(s, le);
  }

  lemma SortedWithin(s: seq<real>, lo: real, hi: real)
    requires Within(s, lo, hi)
    ensures Within(Sort(s, Exact().le), lo, hi)
  {
    var r := Sort(s, Exact().le);
    SortMultiset(s, Exact().le);
    SameElements(s, r);
    forall i | 0 <= i < |r| ensures lo <= r[i] <= hi {
      assert r[i] in r;
    }
  }

  // ----- the confidence interval -----

  function Interval(samples: seq<Sample<real>>, timeout: real, draws: seq<seq<nat>>): (real, real)
    requires forall i :: 0 <= i < |draws| ==> Below(draws[i], |samples|)
  {
    ExactLawful();
    ResampledInterval(Exact(), samples, timeout, draws)
  }

  /** The sorted scores of all replicates. */
  function SortedScores(samples: seq<Sample<real>>, timeout: real, draws: seq<seq<nat>>): seq<real>
    requires forall i :: 0 <= i < |draws| ==> Below(draws[i], |samples|)
  {
    ExactLawful();
    Sort(Scores(Exact(), samples, timeout, draws), Exact().le)
  }

  lemma IntervalIsPercentiles(samples: seq<Sample<real>>, timeout: real, draws: seq<seq<nat>>)
    requires |samples| >= 2 && forall i :: 0 <= i < |draws| ==> Below(draws[i], |samples|)
    ensures var sorted := SortedScores(samples, timeout, draws);
            Interval(samples, timeout, draws) == (RealPercentile(sorted, P025), RealPercentile(sorted, P975))
  {
    ExactLawful();
  }

  function RealScore(samples: seq<Sample<real>>, timeout: real): real {
    ExactLawful();
    Score(Exact(), samples, timeout)
  }

  lemma OuterPercentiles(values: seq<real>)
    requires values != []
    ensures RealPercentile(Sort(values, Exact().le), P025) <= RealPercentile(Sort(values, Exact().le), P975)
  {
    hide RealPercentile;
    SortedIncreasing(values);
    PercentileMonotone(Sort(values, Exact().le), P025, P975);
  }

  /** Every rankable target has CILow <= CIHigh. */
  lemma IntervalOrdered(samples: seq<Sample<real>>, timeout: real, draws: seq<seq<nat>>)
    requires |draws| > 0 && forall i :: 0 <= i < |draws| ==> Below(draws[i], |samples|)
    ensures Interval(samples, timeout, draws).0 <= Interval(samples, timeout, draws).1
  {
    ExactLawful();
    if |samples| >= 2 {
      hide RealPercentile, Interval, Scores;
      IntervalIsPercentiles(samples, timeout, draws);
      OuterPercentiles(Scores(Exact(), samples, timeout, draws));
    }
  }

  /** Every answered sample took between lo and hi. */
  ghost predicate LatenciesWithin(samples: seq<Sample<real>>, lo: real, hi: real) {
    forall i :: 0 <= i < |samples| && samples[i].Answered? ==> lo <= samples[i].latency <= hi
  }

  lemma {:induction false} CollectedWithin(samples: seq<Sample<real>>, k: nat, lo: real, hi: real)
    requires k <= |samples| && LatenciesWithin(samples, lo, hi)
    ensures Within(Latencies(samples, k), lo, hi)
  {
    if k > 0 { CollectedWithin(samples, k - 1, lo, hi); }
  }

  lemma CompositeWithin(median: real, p95: real, rate: real, timeout: real, lo: real, hi: real)
    requires lo <= median <= hi && lo <= p95 <= hi && 0.0 <= rate <= 1.0 && 0.0 <= timeout
    ensures lo <= Composite(median, p95, rate, timeout) <= hi + timeout
    ensures rate == 0.0 ==> Composite(median, p95, rate, timeout) <= hi
  {
    assert 0.0 <= rate * timeout <= 1.0 * timeout;
  }

  lemma RateBounds(k: nat, n: nat)
    requires k <= n && n > 0
    ensures 0.0 <= Rate(k, n) <= 1.0
    ensures k == 0 ==> Rate(k, n) == 0.0
    ensures k == n ==> Rate(k, n) == 1.0
  {
    QuotientBounds(k as real, n as real);
  }

  lemma QuotientBounds(x: real, y: real)
    requires 0.0 <= x <= y && y > 0.0
    ensures 0.0 <= x / y <= 1.0
    ensures x == 0.0 ==> x / y == 0.0
    ensures x == y ==> x / y == 1.0
  {
    var q := x / y;
    assert q * y == x && (q - 1.0) * y == q * y - y;
    SameSign(q, y);
    SameSign(q - 1.0, y);
  }

  lemma SameSign(a: real, y: real)
    requires y > 0.0
    ensures a > 0.0 <==> a * y > 0.0
    ensures a < 0.0 <==> a * y < 0.0
  {
  }

  function SortedLatencies(samples: seq<Sample<real>>): seq<real> {
    Sort(Latencies(samples, |samples|), Exact().le)
  }

  lemma ScoreFormula(samples: seq<Sample<real>>, timeout: real)
    requires samples != []
    ensures var sorted := SortedLatencies(samples);
            RealScore(samples, timeout) ==
            Composite(RealPercentile(sorted, P50), RealPercentile(sorted, P95),
                      Rate(Failures(samples, |samples|), |samples|), timeout)
  {
    ExactLawful();
  }

  lemma AllFailedScore(samples: seq<Sample<real>>, timeout: real)
    requires samples != [] && Latencies(samples, |samples|) == []
    ensures RealScore(samples, timeout) == timeout
  {
    ScoreFormula(samples, timeout);
    LatenciesAndFailures(samples, |samples|);
    assert SortedLatencies(samples) == [];
    RateBounds(|samples|, |samples|);
  }

  lemma PercentilesWithin(samples: seq<Sample<real>>, lo: real, hi: real)
    requires Latencies(samples, |samples|) != [] && LatenciesWithin(samples, lo, hi)
    ensures lo <= RealPercentile(SortedLatencies(samples), P50) <= hi
    ensures lo <= RealPercentile(SortedLatencies(samples), P95) <= hi
  {
    hide RealPercentile;
    CollectedWithin(samples, |samples|, lo, hi);
    OrderStatisticWithin(Latencies(samples, |samples|), P50, lo, hi);
    OrderStatisticWithin(Latencies(samples, |samples|), P95, lo, hi);
  }

  /** A score without failures lies among its latencies; each failure costs at
      most the timeout, and an all-failure list scores exactly the timeout. */
  lemma ScoreBounds(samples: seq<Sample<real>>, timeout: real, lo: real, hi: real)
    requires samples != [] && LatenciesWithin(samples, lo, hi) && 0.0 <= timeout
    ensures Latencies(samples, |samples|) != [] ==> lo <= RealScore(samples, timeout) <= hi + timeout
    ensures Failures(samples, |samples|) == 0 ==> lo <= RealScore(samples, timeout) <= hi
    ensures Latencies(samples, |samples|) == [] ==> RealScore(samples, timeout) == timeout
  {
    hide *;
    var n := |samples|;
    LatenciesAndFailures(samples, n);
    var failures := Failures(samples, n);
    if Latencies(samples, n) == [] {
      AllFailedScore(samples, timeout);
    } else {
      ScoreFormula(samples, timeout);
      PercentilesWithin(samples, lo, hi);
      RateBounds(failures, n);
      var sorted := SortedLatencies(samples);
      CompositeWithin(RealPercentile(sorted, P50), RealPercentile(sorted, P95), Rate(failures, n), timeout, lo, hi);
    }
  }

  lemma {:induction false} ResampleFrom(samples: seq<Sample<real>>, draw: seq<nat>, m: nat)
    requires Below(draw, |samples|) && m <= |draw|
    ensures forall i :: 0 <= i < m ==> Resample(samples, draw, m)[i] == samples[draw[i]]
  {
    if m > 0 { ResampleFrom(samples, draw, m - 1); }
  }

  lemma {:induction false} AllAnswered(samples: seq<Sample<real>>, k: nat)
    requires k <= |samples| && forall i :: 0 <= i < |samples| ==> samples[i].Answered?
    ensures Failures(samples, k) == 0
  {
    if k > 0 { AllAnswered(samples, k - 1); }
  }

  /** The bounds of one replicate's score follow from the samples'. */
  lemma ReplicateBounds(samples: seq<Sample<real>>, timeout: real, draw: seq<nat>, lo: real, hi: real)
    requires draw != [] && Below(draw, |samples|) && LatenciesWithin(samples, lo, hi) && 0.0 <= timeout
    ensures var score := RealScore(Resample(samples, draw, |draw|), timeout);
            && (0.0 <= lo <= hi ==> 0.0 <= score <= hi + timeout)
            && ((forall i :: 0 <= i < |samples| ==> samples[i].Answered?) ==> lo <= score <= hi)
  {
    var resample := Resample(samples, draw, |draw|);
    assert LatenciesWithin(resample, lo, hi) by { ResampleFrom(samples, draw, |draw|); }
    ScoreBounds(resample, timeout, lo, hi);
    if forall i :: 0 <= i < |samples| ==> samples[i].Answered? {
      assert forall i :: 0 <= i < |resample| ==> resample[i].Answered? by { ResampleFrom(samples, draw, |draw|); }
      AllAnswered(resample, |resample|);
    }
  }

  /** The interval keeps any bounds that every replicate's score keeps. */
  lemma IntervalKeeps(samples: seq<Sample<real>>, timeout: real, draws: seq<seq<nat>>, lo: real, hi: real)
    requires |draws| > 0 && forall i :: 0 <= i < |draws| ==> Below(draws[i], |samples|)
    requires forall i :: 0 <= i < |draws| ==> lo <= RealScore(Resample(samples, draws[i], |draws[i]|), timeout) <= hi
    requires |samples| >= 2
    ensures lo <= Interval(samples, timeout, draws).0 && Interval(samples, timeout, draws).1 <= hi
  {
    ExactLawful();
    IntervalIsPercentiles(samples, timeout, draws);
    var scores := Scores(Exact(), samples, timeout, draws);
    forall i | 0 <= i < |scores| ensures lo <= scores[i] <= hi {
      assert scores[i] == RealScore(Resample(samples, draws[i], |draws[i]|), timeout);
    }
    OrderStatisticWithin(scores, P025, lo, hi);
    OrderStatisticWithin(scores, P975, lo, hi);
  }

  lemma OrderStatisticWithin(s: seq<real>, level: Level, lo: real, hi: real)
    requires |s| > 0 && Within(s, lo, hi)
    ensures lo <= RealPercentile(Sort(s, Exact().le), level) <= hi
  {
    SortedIncreasing(s);
    SortedWithin(s, lo, hi);
    PercentileWithin(Sort(s, Exact().le), level, lo, hi);
  }

  /** With no scoring failure the whole interval lies between the fastest and the
      slowest sample; in any case it is not negative and failures widen it by at
      most the timeout. */
  lemma IntervalBounds(samples: seq<Sample<real>>, timeout: real, draws: seq<seq<nat>>, lo: real, hi: real)
    requires |draws| > 0 && samples != [] && LatenciesWithin(samples, lo, hi) && 0.0 <= timeout
    requires forall i :: 0 <= i < |draws| ==> |draws[i]| == |samples| && Below(draws[i], |samples|)
    ensures (forall i :: 0 <= i < |samples| ==> samples[i].Answered?) ==>
              lo <= Interval(samples, timeout, draws).0 && Interval(samples, timeout, draws).1 <= hi
    ensures 0.0 <= lo <= hi ==>
              0.0 <= Interval(samples, timeout, draws).0 && Interval(samples, timeout, draws).1 <= hi + timeout
  {
    ExactLawful();
    var answered := forall i :: 0 <= i < |samples| ==> samples[i].Answered?;
    if |samples| < 2 {
      LatenciesAndFailures(samples, 1);
      ScoreBounds(samples, timeout, lo, hi);
      if answered { AllAnswered(samples, 1); }
    } else {
      forall i | 0 <= i < |draws|
        ensures var score := RealScore(Resample(samples, draws[i], |draws[i]|), timeout);
                (answered ==> lo <= score <= hi) && (0.0 <= lo <= hi ==> 0.0 <= score <= hi + timeout)
      {
        ReplicateBounds(samples, timeout, draws[i], lo, hi);
      }
      if answered { IntervalKeeps(samples, timeout, draws, lo, hi); }
      if 0.0 <= lo <= hi { IntervalKeeps(samples, timeout, draws, 0.0, hi + timeout); }
    }
  }

  // ----- negation: the other side of a paired comparison -----

  function Negate(s: seq<real>): (r: seq<real>)
    ensures |r| == |s| && forall i :: 0 <= i < |s| ==> r[i] == -s[i]
  {
    seq(|s|, i requires 0 <= i < |s| => -s[i])
  }

  function Mirror(s: seq<real>): (r: seq<real>)
    ensures |r| == |s| && forall i :: 0 <= i < |s| ==> r[i] == -s[|s| - 1 - i]
  {
    seq(|s|, i requires 0 <= i < |s| => -s[|s| - 1 - i])
  }

  /** The percentile at the same distance from the other end. */
  function Opposite(level: Level): Level
    requires level != P95
  {
    match level
    case P025 => P975
    case P50 => P50
    case P975 => P025
  }

  lemma FloorMirror(x: real, m: int)
    ensures (m as real - x).Floor == m - Ceil(x)
    ensures Ceil(x) == x.Floor || Ceil(x) == x.Floor + 1
  {
  }

  lemma OppositeLocation(n: nat, level: Level)
    requires n >= 1 && level != P95
    ensures Location(n, Opposite(level)) == (n - 1) as real - Location(n, level)
  {
    assert Value(Opposite(level)) == 1.0 - Value(level);
    var m := (n - 1) as real;
    assert (1.0 - Value(level)) * m == m - Value(level) * m;
  }

  /** A position x steps from the bottom of m mirrors one m - x steps up. */
  lemma MirroredPosition(x: real, m: int)
    ensures var y := m as real - x;
            y.Floor == m - Ceil(x) && Ceil(y) == m - x.Floor
            && (x.Floor != Ceil(x) ==> y - y.Floor as real == 1.0 - (x - x.Floor as real))
  {
    var y := m as real - x;
    FloorMirror(x, m);
    FloorMirror(y, m);
    assert m as real - y == x;
  }

  lemma OppositePosition(n: nat, level: Level)
    requires n >= 1 && level != P95
    ensures var p, q := RealPosition(n, level), RealPosition(n, Opposite(level));
            q.lower == n - 1 - p.upper && q.upper == n - 1 - p.lower
            && (p.lower != p.upper ==> q.weight == 1.0 - p.weight)
  {
    hide Location, Value;
    OppositeLocation(n, level);
    MirroredPosition(Location(n, level), n - 1);
  }

  lemma InterpolateMirror(l: real, u: real, w: real)
    ensures Interpolate(-u, -l, 1.0 - w) == -Interpolate(l, u, w)
  {
    assert (-l + u) * (1.0 - w) == (u - l) - (u - l) * w;
  }

  lemma PercentileMirror(sorted: seq<real>, level: Level)
    requires level != P95
    ensures RealPercentile(Mirror(sorted), Opposite(level)) == -RealPercentile(sorted, level)
  {
    hide RealPosition, Interpolate;
    var n := |sorted|;
    if n > 1 {
      OppositePosition(n, level);
      var p := RealPosition(n, level);
      if p.lower != p.upper {
        InterpolateMirror(sorted[p.lower], sorted[p.upper], p.weight);
      }
    }
  }

  lemma {:induction false} NegateInsert(x: real, s: seq<real>, le: (real, real) -> bool)
    ensures multiset(Negate(Insert(x, s, le))) == multiset{-x} + multiset(Negate(s))
  {
    if s == [] {
      assert Negate([x]) == [-x];
    } else if le(x, s[0]) {
      assert Negate([x] + s) == [-x] + Negate(s);
    } else {
      NegateInsert(x, s[1..], le);
      assert Negate(s) == [-s[0]] + Negate(s[1..]);
      assert Negate(Insert(x, s, le)) == [-s[0]] + Negate(Insert(x, s[1..], le));
    }
  }

  lemma {:induction false} NegateSort(s: seq<real>, le: (real, real) -> bool)
    ensures multiset(Negate(Sort(s, le))) == multiset(Negate(s))
  {
    if s == [] {
      assert Sort(s, le) == [];
    } else {
      var rest := Sort(s[1..], le);
      assert Sort(s, le) == Insert(s[0], rest, le);
      NegateSort(s[1..], le);
      NegateInsert(s[0], rest, le);
      NegateTail(s);
    }
  }

  lemma NegateTail(s: seq<real>)
    requires s != []
    ensures multiset(Negate(s)) == multiset{-s[0]} + multiset(Negate(s[1..]))
  {
    assert Negate(s) == [-s[0]] + Negate(s[1..]);
  }

  lemma {:induction false} ReverseMultiset(s: seq<real>)
    ensures multiset(Mirror(s)) == multiset(Negate(s))
  {
    if s != [] {
      ReverseMultiset(s[1..]);
      MirrorTail(s);
      NegateTail(s);
    }
  }

  lemma MirrorTail(s: seq<real>)
    requires s != []
    ensures multiset(Mirror(s)) == multiset(Mirror(s[1..])) + multiset{-s[0]}
  {
    assert Mirror(s) == Mirror(s[1..]) + [-s[0]];
  }

  /** Sorting the negated values is reading the sorted values backwards, negated. */
  lemma SortMirror(s: seq<real>)
    ensures Sort(Negate(s), Exact().le) == Mirror(Sort(s, Exact().le))
  {
    var le := Exact().le;
    var sorted := Sort(s, le);
    SortAscending(s, le);
    NegateSort(s, le);
    ReverseMultiset(sorted);
    SortUnique(Negate(s), Mirror(sorted), le);
  }

  /** A percentile of the negated values is the negated opposite percentile; the
      median is exactly antisymmetric. */
  lemma PercentileAntisymmetric(s: seq<real>, level: Level)
    requires level != P95
    ensures RealPercentile(Sort(Negate(s), Exact().le), Opposite(level)) == -RealPercentile(Sort(s, Exact().le), level)
  {
    SortMirror(s);
    PercentileMirror(Sort(s, Exact().le), level);
  }

  function PairedInterval(deltas: seq<real>, draws: seq<seq<nat>>): (real, real)
    requires forall i :: 0 <= i < |draws| ==> Below(draws[i], |deltas|)
  {
    ExactLawful();
    ResampledMedianInterval(Exact(), deltas, draws)
  }

  function RealMedians(deltas: seq<real>, draws: seq<seq<nat>>): (r: seq<real>)
    requires forall i :: 0 <= i < |draws| ==> Below(draws[i], |deltas|)
    ensures |r| == |draws|
  {
    ExactLawful();
    Medians(Exact(), deltas, draws)
  }

  lemma PairedIntervalIsPercentiles(deltas: seq<real>, draws: seq<seq<nat>>)
    requires deltas != [] && forall i :: 0 <= i < |draws| ==> Below(draws[i], |deltas|)
    ensures var sorted := Sort(RealMedians(deltas, draws), Exact().le);
            PairedInterval(deltas, draws) == (RealPercentile(sorted, P025), RealPercentile(sorted, P975))
  {
    ExactLawful();
  }

  /** The draws that read a list from its other end. */
  function MirroredDraws(draws: seq<seq<nat>>, n: nat): (r: seq<seq<nat>>)
    requires forall i :: 0 <= i < |draws| ==> Below(draws[i], n)
    ensures |r| == |draws| && forall i :: 0 <= i < |r| ==> |r[i]| == |draws[i]| && Below(r[i], n)
    ensures forall i, j :: 0 <= i < |r| && 0 <= j < |r[i]| ==> r[i][j] == n - 1 - draws[i][j]
  {
    seq(|draws|, i requires 0 <= i < |draws| => MirroredDraw(draws[i], n))
  }

  function MirroredDraw(draw: seq<nat>, n: nat): (r: seq<nat>)
    requires Below(draw, n)
    ensures |r| == |draw| && Below(r, n) && forall j :: 0 <= j < |r| ==> r[j] == n - 1 - draw[j]
  {
    seq(|draw|, j requires 0 <= j < |draw| => n - 1 - draw[j])
  }

  /** Mirroring is its own inverse, so every list of draws is some list's mirror. */
  lemma DrawsMirrorBack(draws: seq<seq<nat>>, n: nat)
    requires forall i :: 0 <= i < |draws| ==> Below(draws[i], n)
    ensures MirroredDraws(MirroredDraws(draws, n), n) == draws
  {
    var back := MirroredDraws(MirroredDraws(draws, n), n);
    forall i | 0 <= i < |draws| ensures back[i] == draws[i] {
      assert forall j :: 0 <= j < |draws[i]| ==> back[i][j] == draws[i][j];
    }
  }

  lemma {:induction false} ResampleMirror(s: seq<real>, draw: seq<nat>, m: nat)
    requires Below(draw, |s|) && m <= |draw|
    ensures Resample(Mirror(s), MirroredDraw(draw, |s|), m) == Negate(Resample(s, draw, m))
  {
    if m > 0 { ResampleMirror(s, draw, m - 1); }
  }

  lemma MediansMirror(s: seq<real>, draws: seq<seq<nat>>)
    requires forall i :: 0 <= i < |draws| ==> Below(draws[i], |s|)
    ensures RealMedians(Mirror(s), MirroredDraws(draws, |s|)) == Negate(RealMedians(s, draws))
  {
    var a, mirrored, reversed := Exact(), Mirror(s), MirroredDraws(draws, |s|);
    ExactLawful();
    forall i | 0 <= i < |draws|
      ensures RealMedians(mirrored, reversed)[i] == -RealMedians(s, draws)[i]
    {
      var resample := Resample(s, draws[i], |draws[i]|);
      ResampleMirror(s, draws[i], |draws[i]|);
      assert reversed[i] == MirroredDraw(draws[i], |s|);
      PercentileAntisymmetric(resample, P50);
      assert RealMedians(s, draws)[i] == RealPercentile(Sort(resample, a.le), P50);
      assert RealMedians(mirrored, reversed)[i] == RealPercentile(Sort(Negate(resample), a.le), P50);
    }
  }

  /** The paired interval of the mirrored list under the mirrored draws is the
      interval negated, with its ends exchanged. */
  lemma PairedIntervalMirrored(s: seq<real>, draws: seq<seq<nat>>)
    requires forall i :: 0 <= i < |draws| ==> Below(draws[i], |s|)
    ensures var there, back := PairedInterval(s, draws), PairedInterval(Mirror(s), MirroredDraws(draws, |s|));
            back.0 == -there.1 && back.1 == -there.0
  {
    if s != [] {
      PairedIntervalIsPercentiles(s, draws);
      PairedIntervalIsPercentiles(Mirror(s), MirroredDraws(draws, |s|));
      MediansMirror(s, draws);
      PercentileAntisymmetric(RealMedians(s, draws), P025);
      PercentileAntisymmetric(RealMedians(s, draws), P975);
    }
  }

  lemma {:induction false} ResampleOfOne(s: seq<real>, draw: seq<nat>, m: nat, j: nat)
    requires Below(draw, |s|) && m <= |draw| && j < |s| && forall k :: 0 <= k < |draw| ==> draw[k] == j
    ensures Within(Resample(s, draw, m), s[j], s[j])
  {
    if m > 0 { ResampleOfOne(s, draw, m - 1, j); }
  }

  lemma SortedOfOne(s: seq<real>, level: Level, x: real)
    requires s != [] && Within(s, x, x)
    ensures RealPercentile(Sort(s, Exact().le), level) == x
  {
    var sorted := Sort(s, Exact().le);
    SortedIncreasing(s);
    SortMultiset(s, Exact().le);
    SameElements(s, sorted);
    forall i | 0 <= i < |sorted| ensures x <= sorted[i] <= x {
      assert sorted[i] in s;
    }
    PercentileWithin(sorted, level, x, x);
  }

  lemma {:induction false} ResampleWithin(s: seq<real>, draw: seq<nat>, m: nat, lo: real, hi: real)
    requires Below(draw, |s|) && m <= |draw| && Within(s, lo, hi)
    ensures Within(Resample(s, draw, m), lo, hi)
  {
    if m > 0 { ResampleWithin(s, draw, m - 1, lo, hi); }
  }

  /** The paired interval lies between any bounds of the differences. */
  lemma PairedIntervalWithin(s: seq<real>, draws: seq<seq<nat>>, lo: real, hi: real)
    requires s != [] && Within(s, lo, hi) && draws != []
    requires forall i :: 0 <= i < |draws| ==> draws[i] != [] && Below(draws[i], |s|)
    ensures lo <= PairedInterval(s, draws).0 <= hi && lo <= PairedInterval(s, draws).1 <= hi
  {
    hide RealPercentile, PairedInterval;
    var medians := RealMedians(s, draws);
    forall i | 0 <= i < |medians| ensures lo <= medians[i] <= hi {
      MedianWithin(s, draws, i, lo, hi);
    }
    PairedIntervalIsPercentiles(s, draws);
    OrderStatisticWithin(medians, P025, lo, hi);
    OrderStatisticWithin(medians, P975, lo, hi);
  }

  lemma MedianWithin(s: seq<real>, draws: seq<seq<nat>>, i: nat, lo: real, hi: real)
    requires forall k :: 0 <= k < |draws| ==> Below(draws[k], |s|)
    requires Within(s, lo, hi) && i < |draws| && draws[i] != []
    ensures lo <= RealMedians(s, draws)[i] <= hi
  {
    ExactLawful();
    ResampleWithin(s, draws[i], |draws[i]|, lo, hi);
    OrderStatisticWithin(Resample(s, draws[i], |draws[i]|), P50, lo, hi);
  }

  /** When every draw picks one place, the interval is that difference alone. */
  lemma PairedIntervalOfOne(s: seq<real>, draws: seq<seq<nat>>, j: nat)
    requires j < |s| && draws != [] && forall i :: 0 <= i < |draws| ==> Below(draws[i], |s|) && draws[i] != []
    requires forall i, k :: 0 <= i < |draws| && 0 <= k < |draws[i]| ==> draws[i][k] == j
    ensures PairedInterval(s, draws) == (s[j], s[j])
  {
    var medians := RealMedians(s, draws);
    ExactLawful();
    forall i | 0 <= i < |medians| ensures s[j] <= medians[i] <= s[j] {
      ResampleOfOne(s, draws[i], |draws[i]|, j);
      SortedOfOne(Resample(s, draws[i], |draws[i]|), P50, s[j]);
    }
    PairedIntervalIsPercentiles(s, draws);
    SortedOfOne(medians, P025, s[j]);
    SortedOfOne(medians, P975, s[j]);
  }
}
