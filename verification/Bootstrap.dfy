/** The percentile bootstrap. Each replicate's percentiles are read off rank
    counts; the theorems say the interval is the one that sorting every resample
    gives, for any arithmetic with an ascending order on its values. */
module Bootstrap {
  import opened Orders

  const BOOTSTRAP_ITERATIONS: nat := 1000

  /** The percentiles the engine asks for. */
  datatype Level = P025 | P50 | P95 | P975

  datatype Position<+W> = Position(lower: nat, upper: nat, weight: W)

  /** The operations on measured values. Nothing about rounding is assumed. */
  datatype Arithmetic<!F, !W> = Arithmetic(
    le: (F, F) -> bool,
    zero: F,
    position: (nat, Level) -> Position<W>,
    interpolate: (F, F, W) -> F,
    rate: (nat, nat) -> F,
    composite: (F, F, F, F) -> F)

  /** Values are totally ordered (equal values are interchangeable) and a
      percentile of n values lies between two of their positions. */
  ghost predicate Lawful<F(!new), W>(a: Arithmetic<F, W>) {
    && TotalOrder(a.le)
    && (forall n: nat, level: Level :: n >= 1 ==>
         a.position(n, level).lower <= a.position(n, level).upper < n)
  }

  function Percentile<F(!new), W>(a: Arithmetic<F, W>, sorted: seq<F>, level: Level): F
    requires Lawful(a)
  {
    if |sorted| == 0 then a.zero
    else if |sorted| == 1 then sorted[0]
    else
      var p := a.position(|sorted|, level);
      if p.lower == p.upper then sorted[p.lower]
      else a.interpolate(sorted[p.lower], sorted[p.upper], p.weight)
  }

  // ----- samples and their score -----

  datatype Sample<+F> = Answered(latency: F) | Failed

  /** The latencies among the first k samples. */
  function Latencies<F>(samples: seq<Sample<F>>, k: nat): (r: seq<F>)
    requires k <= |samples|
  {
    if k == 0 then []
    else if samples[k - 1].Answered? then Latencies(samples, k - 1) + [samples[k - 1].latency]
    else Latencies(samples, k - 1)
  }

  function Failures<F>(samples: seq<Sample<F>>, k: nat): nat
    requires k <= |samples|
  {
    if k == 0 then 0 else Failures(samples, k - 1) + if samples[k - 1].Answered? then 0 else 1
  }

  lemma {:induction false} LatenciesAndFailures<F>(samples: seq<Sample<F>>, k: nat)
    requires k <= |samples|
    ensures |Latencies(samples, k)| + Failures(samples, k) == k
  {
    if k > 0 { LatenciesAndFailures(samples, k - 1); }
  }

  lemma {:induction false} LatenciesSame<F>(samples: seq<Sample<F>>, others: seq<Sample<F>>, k: nat)
    requires k <= |samples| && k <= |others| && forall i :: 0 <= i < k ==> samples[i] == others[i]
    ensures Latencies(samples, k) == Latencies(others, k)
  {
    if k > 0 { LatenciesSame(samples, others, k - 1); }
  }

  lemma {:induction false} LatenciesPrefix<F>(samples: seq<Sample<F>>, k: nat, n: nat)
    requires k <= n <= |samples|
    ensures Latencies(samples, k) <= Latencies(samples, n)
  {
    if k < n { LatenciesPrefix(samples, k, n - 1); }
  }

  /** The documented score formula over one set of samples. */
  function Score<F(!new), W>(a: Arithmetic<F, W>, samples: seq<Sample<F>>, timeout: F): F
    requires Lawful(a)
  {
    if samples == [] then a.zero
    else
      var sorted := Sort(Latencies(samples, |samples|), a.le);
      a.composite(Percentile(a, sorted, P50), Percentile(a, sorted, P95),
                  a.rate(Failures(samples, |samples|), |samples|), timeout)
  }

  /** The point estimate's loop over the samples. */
  method ScoreFromSamples<F(!new), W>(a: Arithmetic<F, W>, samples: seq<Sample<F>>, timeout: F) returns (score: F)
    requires Lawful(a)
    ensures score == Score(a, samples, timeout)
  {
    if |samples| == 0 { return a.zero; }
    var latencies, failures := [], 0;
    for i := 0 to |samples|
      invariant latencies == Latencies(samples, i) && failures == Failures(samples, i)
    {
      match samples[i]
      case Answered(latency) => latencies := latencies + [latency];
      case Failed => failures := failures + 1;
    }
    var sorted := Sort(latencies, a.le);
    score := a.composite(Percentile(a, sorted, P50), Percentile(a, sorted, P95), a.rate(failures, |samples|), timeout);
  }

  // ----- resampling -----

  /** The samples the first m draws picked. */
  function Resample<T>(samples: seq<T>, draw: seq<nat>, m: nat): (r: seq<T>)
    requires Below(draw, |samples|) && m <= |draw|
    ensures |r| == m
  {
    if m == 0 then [] else Resample(samples, draw, m - 1) + [samples[draw[m - 1]]]
  }

  function Scores<F(!new), W>(a: Arithmetic<F, W>, samples: seq<Sample<F>>, timeout: F,
                              draws: seq<seq<nat>>): (r: seq<F>)
    requires Lawful(a)
    requires forall i :: 0 <= i < |draws| ==> Below(draws[i], |samples|)
    ensures |r| == |draws|
  {
    seq(|draws|, i requires 0 <= i < |draws| => Score(a, Resample(samples, draws[i], |draws[i]|), timeout))
  }

  /** The interval by definition: score every resample, sort the scores. */
  function ResampledInterval<F(!new), W>(a: Arithmetic<F, W>, samples: seq<Sample<F>>, timeout: F,
                                         draws: seq<seq<nat>>): (F, F)
    requires Lawful(a)
    requires forall i :: 0 <= i < |draws| ==> Below(draws[i], |samples|)
  {
    if |samples| < 2 then (Score(a, samples, timeout), Score(a, samples, timeout))
    else
      var scores := Sort(Scores(a, samples, timeout, draws), a.le);
      (Percentile(a, scores, P025), Percentile(a, scores, P975))
  }

  function Medians<F(!new), W>(a: Arithmetic<F, W>, deltas: seq<F>, draws: seq<seq<nat>>): (r: seq<F>)
    requires Lawful(a)
    requires forall i :: 0 <= i < |draws| ==> Below(draws[i], |deltas|)
    ensures |r| == |draws|
  {
    seq(|draws|, i requires 0 <= i < |draws| => Percentile(a, Sort(Resample(deltas, draws[i], |draws[i]|), a.le), P50))
  }

  /** The paired interval by definition: the median of every sorted resample. */
  function ResampledMedianInterval<F(!new), W>(a: Arithmetic<F, W>, deltas: seq<F>, draws: seq<seq<nat>>): (F, F)
    requires Lawful(a)
    requires forall i :: 0 <= i < |draws| ==> Below(draws[i], |deltas|)
  {
    if deltas == [] then (a.zero, a.zero)
    else
      var medians := Sort(Medians(a, deltas, draws), a.le);
      (Percentile(a, medians, P025), Percentile(a, medians, P975))
  }

  // ----- rank counts -----

  /** How many of the first m draws landed on rank r. */
  function CountOf(ranks: seq<int>, draw: seq<nat>, m: nat, r: int): nat
    requires Below(draw, |ranks|) && m <= |draw|
  {
    if m == 0 then 0
    else CountOf(ranks, draw, m - 1, r) + if ranks[draw[m - 1]] == r then 1 else 0
  }

  function CountsOf(ranks: seq<int>, draw: seq<nat>, m: nat, n: nat): (r: seq<nat>)
    requires Below(draw, |ranks|) && m <= |draw|
    ensures |r| == n
  {
    seq(n, r => CountOf(ranks, draw, m, r))
  }

  function Repeat<F>(x: F, n: nat): (r: seq<F>)
    ensures |r| == n && forall i :: 0 <= i < n ==> r[i] == x
  {
    seq(n, _ => x)
  }

  /** The multiset that holds sorted[r] counts[r] times for the first k ranks,
      in ascending order of rank. */
  function Expand<F>(sorted: seq<F>, counts: seq<nat>, k: nat): (r: seq<F>)
    requires k <= |sorted| == |counts|
  {
    if k == 0 then []
    else Expand(sorted, counts, k - 1) + Repeat(sorted[k - 1], counts[k - 1])
  }

  lemma {:induction false} ExpandZero<F>(sorted: seq<F>, counts: seq<nat>, k: nat)
    requires k <= |sorted| == |counts| && forall r :: 0 <= r < |counts| ==> counts[r] == 0
    ensures Expand(sorted, counts, k) == []
  {
    if k > 0 { ExpandZero(sorted, counts, k - 1); }
  }

  lemma {:induction false} ExpandSame<F>(sorted: seq<F>, counts: seq<nat>, more: seq<nat>, k: nat)
    requires k <= |sorted| == |counts| == |more| && forall r :: 0 <= r < k ==> counts[r] == more[r]
    ensures Expand(sorted, counts, k) == Expand(sorted, more, k)
  {
    if k > 0 { ExpandSame(sorted, counts, more, k - 1); }
  }

  /** Counting one more of rank r inserts one sorted[r] into the expansion. */
  lemma {:induction false} ExpandIncrement<F>(sorted: seq<F>, counts: seq<nat>, more: seq<nat>, r: nat, k: nat)
    returns (before: seq<F>, after: seq<F>)
    requires r < k <= |sorted| == |counts| && more == counts[r := counts[r] + 1]
    ensures Expand(sorted, counts, k) == before + after
    ensures Expand(sorted, more, k) == before + [sorted[r]] + after
  {
    if r < k - 1 {
      before, after := ExpandIncrement(sorted, counts, more, r, k - 1);
      after := after + Repeat(sorted[k - 1], counts[k - 1]);
    } else {
      ExpandSame(sorted, counts, more, r);
      before, after := Expand(sorted, counts, k), [];
      assert Repeat(sorted[r], counts[r] + 1) == Repeat(sorted[r], counts[r]) + [sorted[r]];
    }
  }

  lemma Insertion<T>(before: seq<T>, x: T, after: seq<T>)
    ensures multiset(before + [x] + after) == multiset(before + after) + multiset{x}
  {
  }

  lemma {:induction false} ExpandFrom<F>(sorted: seq<F>, counts: seq<nat>, k: nat, j: nat)
    requires k <= |sorted| == |counts| && j < |Expand(sorted, counts, k)|
    ensures exists m :: 0 <= m < k && sorted[m] == Expand(sorted, counts, k)[j]
  {
    if j < |Expand(sorted, counts, k - 1)| {
      ExpandFrom(sorted, counts, k - 1, j);
    } else {
      assert Expand(sorted, counts, k)[j] == sorted[k - 1];
    }
  }

  lemma {:induction false} ExpandAscending<F>(sorted: seq<F>, counts: seq<nat>, k: nat, le: (F, F) -> bool)
    requires k <= |sorted| == |counts| && Ascending(sorted, le)
    requires forall x :: x in sorted ==> le(x, x)
    ensures Ascending(Expand(sorted, counts, k), le)
  {
    if k > 0 {
      var front, all := Expand(sorted, counts, k - 1), Expand(sorted, counts, k);
      ExpandAscending(sorted, counts, k - 1, le);
      forall i, j | 0 <= i < j < |all| ensures le(all[i], all[j]) {
        if i < |front| <= j {
          ExpandFrom(sorted, counts, k - 1, i);
          var m :| 0 <= m < k - 1 && sorted[m] == front[i];
          assert le(sorted[m], sorted[k - 1]);
        } else if |front| <= i {
          assert all[i] == sorted[k - 1] && all[j] == sorted[k - 1];
        }
      }
    }
  }

  /** ranks[i] is a position in sorted that holds sample i's latency, or -1. */
  ghost predicate RanksOf<F>(samples: seq<Sample<F>>, sorted: seq<F>, ranks: seq<int>) {
    && |ranks| == |samples|
    && forall i :: 0 <= i < |samples| ==>
         if samples[i].Answered? then 0 <= ranks[i] < |sorted| && sorted[ranks[i]] == samples[i].latency
         else ranks[i] == -1
  }

  lemma CountsStep(ranks: seq<int>, draw: seq<nat>, m: nat, n: nat)
    requires m < |draw| && Below(draw, |ranks|)
    ensures var rank, before := ranks[draw[m]], CountsOf(ranks, draw, m, n);
            CountsOf(ranks, draw, m + 1, n) == if 0 <= rank < n then before[rank := before[rank] + 1] else before
  {
  }

  lemma ResampleStep<F>(samples: seq<Sample<F>>, draw: seq<nat>, m: nat)
    requires Below(draw, |samples|) && m < |draw|
    ensures Latencies(Resample(samples, draw, m + 1), m + 1) ==
            if samples[draw[m]].Answered? then Latencies(Resample(samples, draw, m), m) + [samples[draw[m]].latency]
            else Latencies(Resample(samples, draw, m), m)
  {
    LatenciesSame(Resample(samples, draw, m + 1), Resample(samples, draw, m), m);
  }

  lemma HoldsOneMore<F>(sorted: seq<F>, counts: seq<nat>, more: seq<nat>, held: seq<F>, extended: seq<F>, r: nat)
    requires |sorted| == |counts| && r < |counts| && more == counts[r := counts[r] + 1]
    requires extended == held + [sorted[r]]
    requires multiset(Expand(sorted, counts, |sorted|)) == multiset(held)
    ensures multiset(Expand(sorted, more, |sorted|)) == multiset(extended)
  {
    var before, after := ExpandIncrement(sorted, counts, more, r, |sorted|);
    Insertion(before, sorted[r], after);
  }

  /** The counts after m draws hold exactly the latencies those draws picked. */
  lemma {:induction false} CountsHoldResample<F>(samples: seq<Sample<F>>, sorted: seq<F>, ranks: seq<int>,
                                                 draw: seq<nat>, m: nat)
    requires RanksOf(samples, sorted, ranks) && Below(draw, |samples|) && m <= |draw|
    ensures multiset(Expand(sorted, CountsOf(ranks, draw, m, |sorted|), |sorted|)) ==
              multiset(Latencies(Resample(samples, draw, m), m))
  {
    if m == 0 {
      ExpandZero(sorted, CountsOf(ranks, draw, 0, |sorted|), |sorted|);
    } else {
      var k := m - 1;
      CountsHoldResample(samples, sorted, ranks, draw, k);
      CountsStep(ranks, draw, k, |sorted|);
      ResampleStep(samples, draw, k);
      if samples[draw[k]].Answered? {
        HoldsOneMore(sorted, CountsOf(ranks, draw, k, |sorted|), CountsOf(ranks, draw, m, |sorted|),
                     Latencies(Resample(samples, draw, k), k), Latencies(Resample(samples, draw, m), m),
                     ranks[draw[k]]);
      }
    }
  }

  /** The fast form refines the simple one: reading the counts in rank order is
      sorting the resample. */
  lemma CountsAreSortedResample<F(!new)>(samples: seq<Sample<F>>, sorted: seq<F>, ranks: seq<int>, draw: seq<nat>,
                                         le: (F, F) -> bool)
    requires TotalOrder(le) && Ascending(sorted, le)
    requires RanksOf(samples, sorted, ranks) && Below(draw, |samples|)
    ensures Expand(sorted, CountsOf(ranks, draw, |draw|, |sorted|), |sorted|) ==
            Sort(Latencies(Resample(samples, draw, |draw|), |draw|), le)
  {
    var counted := Expand(sorted, CountsOf(ranks, draw, |draw|, |sorted|), |sorted|);
    CountsHoldResample(samples, sorted, ranks, draw, |draw|);
    ExpandAscending(sorted, CountsOf(ranks, draw, |draw|, |sorted|), |sorted|, le);
    SortUnique(Latencies(Resample(samples, draw, |draw|), |draw|), counted, le);
  }

  // ----- reading positions off the counts -----

  lemma {:induction false} ExpandPrefix<F>(sorted: seq<F>, counts: seq<nat>, k: nat, n: nat)
    requires k <= n <= |sorted| == |counts|
    ensures Expand(sorted, counts, k) <= Expand(sorted, counts, n)
  {
    if k < n { ExpandPrefix(sorted, counts, k, n - 1); }
  }

  /** Position i falls in rank k's run. */
  lemma ExpandAt<F>(sorted: seq<F>, counts: seq<nat>, k: nat, i: nat)
    requires k < |sorted| == |counts|
    requires |Expand(sorted, counts, k)| <= i < |Expand(sorted, counts, k + 1)|
    ensures i < |Expand(sorted, counts, |sorted|)| && Expand(sorted, counts, |sorted|)[i] == sorted[k]
  {
    ExpandPrefix(sorted, counts, k + 1, |sorted|);
  }

  /** The values at positions lower <= upper of the counted multiset, found in one
      walk. The bounds checks and the termination of both loops are the claim that
      the walk never runs off the counts. */
  method CountedValues<F>(sorted: seq<F>, counts: array<nat>, lower: nat, upper: nat)
    returns (lowerValue: F, upperValue: F)
    requires |sorted| == counts.Length
    requires lower <= upper < |Expand(sorted, counts[..], |sorted|)|
    ensures lowerValue == Expand(sorted, counts[..], |sorted|)[lower]
    ensures upperValue == Expand(sorted, counts[..], |sorted|)[upper]
  {
    ghost var c := counts[..];
    ghost var n := counts.Length;
    var rank, seen := 0, counts[0];
    while lower >= seen
      invariant 0 <= rank < n && seen == |Expand(sorted, c, rank + 1)|
      invariant |Expand(sorted, c, rank)| <= lower
      decreases n - rank
    {
      if rank + 1 == n { assert false; }
      rank := rank + 1;
      seen := seen + counts[rank];
    }
    ExpandAt(sorted, c, rank, lower);
    lowerValue := sorted[rank];
    while upper >= seen
      invariant 0 <= rank < n && seen == |Expand(sorted, c, rank + 1)|
      invariant |Expand(sorted, c, rank)| <= upper
      decreases n - rank
    {
      if rank + 1 == n { assert false; }
      rank := rank + 1;
      seen := seen + counts[rank];
    }
    ExpandAt(sorted, c, rank, upper);
    upperValue := sorted[rank];
  }

  method CountedPercentile<F(!new), W>(a: Arithmetic<F, W>, sorted: seq<F>, counts: array<nat>, total: nat,
                                       level: Level)
    returns (value: F)
    requires Lawful(a) && |sorted| == counts.Length
    requires total == |Expand(sorted, counts[..], |sorted|)|
    ensures value == Percentile(a, Expand(sorted, counts[..], |sorted|), level)
  {
    if total == 0 { return a.zero; }
    var p := a.position(total, level);
    var lowerValue, upperValue := CountedValues(sorted, counts, p.lower, p.upper);
    if p.lower == p.upper { return lowerValue; }
    value := a.interpolate(lowerValue, upperValue, p.weight);
  }

  // ----- ranking the values -----

  /** What a library sort of the indexes leaves: some permutation, ascending by
      value. An unstable sort may leave equal values either way round. */
  ghost predicate SortedOrder<F>(values: seq<F>, order: seq<nat>, le: (F, F) -> bool) {
    && multiset(order) == multiset(Identity(|values|))
    && Below(order, |values|)
    && Ascending(Pick(values, order), le)
  }

  method RankValues<F(!new)>(values: seq<F>, order: seq<nat>, le: (F, F) -> bool)
    returns (sorted: seq<F>, ranks: seq<nat>)
    requires TotalOrder(le) && SortedOrder(values, order, le)
    ensures sorted == Sort(values, le)
    ensures |ranks| == |values|
    ensures forall i :: 0 <= i < |values| ==> ranks[i] < |sorted| && sorted[ranks[i]] == values[i]
    ensures forall i, j :: 0 <= i < j < |values| ==> ranks[i] != ranks[j]
  {
    SameElements(order, Identity(|values|));
    sorted := [];
    ranks := seq(|values|, _ => 0);
    for rank := 0 to |order|
      invariant sorted == Pick(values, order)[..rank] && |ranks| == |values|
      invariant forall k :: 0 <= k < rank ==> ranks[order[k]] < rank && order[ranks[order[k]]] == order[k]
    {
      sorted := sorted + [values[order[rank]]];
      ranks := ranks[order[rank] := rank];
    }
    forall i | 0 <= i < |values| ensures ranks[i] < |sorted| && order[ranks[i]] == i {
      assert i == Identity(|values|)[i];
      assert i in order;
    }
    PickMultiset(values, order, Identity(|values|));
    assert Pick(values, Identity(|values|)) == values;
    assert sorted == Pick(values, order);
    SortUnique(values, sorted, le);
  }

  // ----- the bootstrap loops -----

  /** ranks[i] for a sample: the rank of its latency, or -1 for a failure. */
  method SampleRanks<F>(samples: seq<Sample<F>>, ghost sorted: seq<F>, latencyRanks: seq<nat>) returns (ranks: seq<int>)
    requires |latencyRanks| == |Latencies(samples, |samples|)|
    requires forall i :: 0 <= i < |latencyRanks| ==>
               latencyRanks[i] < |sorted| && sorted[latencyRanks[i]] == Latencies(samples, |samples|)[i]
    ensures RanksOf(samples, sorted, ranks)
  {
    ranks := [];
    var successes := 0;
    for index := 0 to |samples|
      invariant successes == |Latencies(samples, index)|
      invariant RanksOf(samples[..index], sorted, ranks)
    {
      LatenciesPrefix(samples, index + 1, |samples|);
      if samples[index].Answered? {
        assert Latencies(samples, index + 1)[successes] == samples[index].latency;
        ranks := ranks + [latencyRanks[successes]];
        successes := successes + 1;
      } else {
        ranks := ranks + [-1];
      }
    }
    assert samples[..|samples|] == samples;
  }

  method Clear(counts: array<nat>)
    modifies counts
    ensures forall k :: 0 <= k < counts.Length ==> counts[k] == 0
  {
    for r := 0 to counts.Length
      invariant forall k :: 0 <= k < r ==> counts[k] == 0
    {
      counts[r] := 0;
    }
  }

  /** The drawing loop: count every rank drawn, and how many draws had one. */
  method CountDraws<F>(ghost samples: seq<Sample<F>>, ghost sorted: seq<F>, ranks: seq<int>, counts: array<nat>,
                       draw: seq<nat>)
    returns (drawn: nat)
    requires RanksOf(samples, sorted, ranks) && counts.Length == |sorted| && Below(draw, |samples|)
    requires forall k :: 0 <= k < counts.Length ==> counts[k] == 0
    modifies counts
    ensures counts[..] == CountsOf(ranks, draw, |draw|, |sorted|)
    ensures drawn == |Latencies(Resample(samples, draw, |draw|), |draw|)| <= |draw|
  {
    drawn := 0;
    assert counts[..] == CountsOf(ranks, draw, 0, |sorted|);
    assert Latencies(Resample(samples, draw, 0), 0) == [];
    hide CountsOf, CountOf, Resample, Latencies;
    for j := 0 to |draw|
      invariant counts[..] == CountsOf(ranks, draw, j, |sorted|) && drawn <= j
      invariant drawn == |Latencies(Resample(samples, draw, j), j)|
    {
      ghost var before := counts[..];
      CountsStep(ranks, draw, j, |sorted|);
      ResampleStep(samples, draw, j);
      var rank := ranks[draw[j]];
      assert samples[draw[j]].Answered? <==> rank >= 0;
      if rank >= 0 {
        counts[rank] := counts[rank] + 1;
        assert counts[..] == before[rank := before[rank] + 1];
        drawn := drawn + 1;
      }
    }
  }

  /** A replicate's score is a function of its counts alone. */
  lemma ReplicateIsResample<F(!new), W>(a: Arithmetic<F, W>, samples: seq<Sample<F>>, sorted: seq<F>, ranks: seq<int>,
                                        draw: seq<nat>, timeout: F)
    requires Lawful(a) && Ascending(sorted, a.le) && RanksOf(samples, sorted, ranks)
    requires |draw| == |samples| > 0 && Below(draw, |samples|)
    ensures var counted := Expand(sorted, CountsOf(ranks, draw, |draw|, |sorted|), |sorted|);
            && |counted| == |Latencies(Resample(samples, draw, |draw|), |draw|)| <= |samples|
            && Score(a, Resample(samples, draw, |draw|), timeout) ==
               a.composite(Percentile(a, counted, P50), Percentile(a, counted, P95),
                           a.rate(|samples| - |counted|, |samples|), timeout)
  {
    CountsAreSortedResample(samples, sorted, ranks, draw, a.le);
    LatenciesAndFailures(Resample(samples, draw, |draw|), |draw|);
  }

  /** One replicate of bootstrapCI: clear the counts, draw, read the score. */
  method ReplicateScore<F(!new), W>(a: Arithmetic<F, W>, ghost samples: seq<Sample<F>>, size: nat, timeout: F,
                                    sorted: seq<F>, ranks: seq<int>, counts: array<nat>, draw: seq<nat>)
    returns (score: F)
    requires Lawful(a) && size == |samples| > 0 && Ascending(sorted, a.le) && RanksOf(samples, sorted, ranks)
    requires counts.Length == |sorted| && |draw| == size && Below(draw, size)
    modifies counts
    ensures score == Score(a, Resample(samples, draw, |draw|), timeout)
  {
    Clear(counts);
    var drawn := CountDraws(samples, sorted, ranks, counts, draw);
    ReplicateIsResample(a, samples, sorted, ranks, draw, timeout);
    score := CountedScore(a, sorted, counts, drawn, size, timeout);
  }

  method CountedScore<F(!new), W>(a: Arithmetic<F, W>, sorted: seq<F>, counts: array<nat>, drawn: nat, size: nat,
                                  timeout: F)
    returns (score: F)
    requires Lawful(a) && |sorted| == counts.Length && drawn <= size
    requires drawn == |Expand(sorted, counts[..], |sorted|)|
    ensures var counted := Expand(sorted, counts[..], |sorted|);
            score == a.composite(Percentile(a, counted, P50), Percentile(a, counted, P95), a.rate(size - drawn, size),
                                 timeout)
  {
    var failureRate := a.rate(size - drawn, size);
    var median := CountedPercentile(a, sorted, counts, drawn, P50);
    var p95 := CountedPercentile(a, sorted, counts, drawn, P95);
    score := a.composite(median, p95, failureRate, timeout);
  }

  method ReplicateScores<F(!new), W>(a: Arithmetic<F, W>, ghost samples: seq<Sample<F>>, size: nat, timeout: F,
                                     sorted: seq<F>, ranks: seq<int>, draws: seq<seq<nat>>) returns (scores: seq<F>)
    requires Lawful(a) && size == |samples| > 0 && Ascending(sorted, a.le) && RanksOf(samples, sorted, ranks)
    requires forall i :: 0 <= i < |draws| ==> |draws[i]| == size && Below(draws[i], size)
    ensures scores == Scores(a, samples, timeout, draws)
  {
    var counts := new nat[|sorted|];
    scores := [];
    for iteration := 0 to |draws|
      invariant |scores| == iteration
      invariant forall i :: 0 <= i < iteration ==>
                  scores[i] == Score(a, Resample(samples, draws[i], |draws[i]|), timeout)
    {
      var score := ReplicateScore(a, samples, size, timeout, sorted, ranks, counts, draws[iteration]);
      scores := scores + [score];
    }
  }

  /** bootstrapCI: for every sample list, every order an unstable sort may leave
      and every sequence of draws, the counted interval is the resampled one. */
  method BootstrapCI<F(!new), W>(a: Arithmetic<F, W>, samples: seq<Sample<F>>, timeout: F, order: seq<nat>,
                                 draws: seq<seq<nat>>)
    returns (low: F, high: F)
    requires Lawful(a) && SortedOrder(Latencies(samples, |samples|), order, a.le)
    requires |draws| == BOOTSTRAP_ITERATIONS
    requires forall i :: 0 <= i < |draws| ==> |draws[i]| == |samples| && Below(draws[i], |samples|)
    ensures (low, high) == ResampledInterval(a, samples, timeout, draws)
  {
    if |samples| < 2 {
      var score := ScoreFromSamples(a, samples, timeout);
      return score, score;
    }
    var latencies := Latencies(samples, |samples|);
    var sorted, latencyRanks := RankValues(latencies, order, a.le);
    var ranks := SampleRanks(samples, sorted, latencyRanks);
    SortAscending(latencies, a.le);
    var scores := ReplicateScores(a, samples, |samples|, timeout, sorted, ranks, draws);
    scores := Sort(scores, a.le);
    low, high := Percentile(a, scores, P025), Percentile(a, scores, P975);
  }

  // ----- the paired form -----

  function AsSamples<F>(deltas: seq<F>): (r: seq<Sample<F>>)
    ensures |r| == |deltas| && forall i :: 0 <= i < |r| ==> r[i] == Answered(deltas[i])
  {
    seq(|deltas|, i requires 0 <= i < |deltas| => Answered(deltas[i]))
  }

  lemma {:induction false} PairedResample<F>(deltas: seq<F>, draw: seq<nat>, m: nat)
    requires Below(draw, |deltas|) && m <= |draw|
    ensures Latencies(Resample(AsSamples(deltas), draw, m), m) == Resample(deltas, draw, m)
  {
    if m > 0 {
      PairedResample(deltas, draw, m - 1);
      ResampleStep(AsSamples(deltas), draw, m - 1);
    }
  }

  method CountPairedDraws(n: nat, ranks: seq<nat>, counts: array<nat>, draw: seq<nat>)
    requires counts.Length == n && Below(draw, |ranks|)
    requires forall i :: 0 <= i < |ranks| ==> ranks[i] < n
    modifies counts
    ensures counts[..] == CountsOf(ranks, draw, |draw|, n)
  {
    Clear(counts);
    assert counts[..] == CountsOf(ranks, draw, 0, n);
    for j := 0 to |draw|
      invariant counts[..] == CountsOf(ranks, draw, j, n)
    {
      CountsStep(ranks, draw, j, n);
      counts[ranks[draw[j]]] := counts[ranks[draw[j]]] + 1;
    }
  }

  method ReplicateMedian<F(!new), W>(a: Arithmetic<F, W>, ghost deltas: seq<F>, sorted: seq<F>, ranks: seq<nat>,
                                     counts: array<nat>, draw: seq<nat>) returns (median: F)
    requires Lawful(a) && |ranks| == |deltas| && Ascending(sorted, a.le)
    requires forall i :: 0 <= i < |deltas| ==> ranks[i] < |sorted| && sorted[ranks[i]] == deltas[i]
    requires counts.Length == |sorted| && |draw| == |deltas| && Below(draw, |deltas|)
    modifies counts
    ensures median == Percentile(a, Sort(Resample(deltas, draw, |draw|), a.le), P50)
  {
    CountPairedDraws(|sorted|, ranks, counts, draw);
    assert Expand(sorted, counts[..], |sorted|) == Sort(Resample(deltas, draw, |draw|), a.le) by {
      PairedResample(deltas, draw, |draw|);
      CountsAreSortedResample(AsSamples(deltas), sorted, ranks, draw, a.le);
    }
    median := CountedPercentile(a, sorted, counts, |ranks|, P50);
  }

  method ReplicateMedians<F(!new), W>(a: Arithmetic<F, W>, ghost deltas: seq<F>, sorted: seq<F>, ranks: seq<nat>,
                                      draws: seq<seq<nat>>) returns (medians: seq<F>)
    requires Lawful(a) && |ranks| == |deltas| && Ascending(sorted, a.le)
    requires forall i :: 0 <= i < |deltas| ==> ranks[i] < |sorted| && sorted[ranks[i]] == deltas[i]
    requires forall i :: 0 <= i < |draws| ==> |draws[i]| == |deltas| && Below(draws[i], |deltas|)
    ensures medians == Medians(a, deltas, draws)
  {
    var counts := new nat[|sorted|];
    medians := [];
    for iteration := 0 to |draws|
      invariant |medians| == iteration
      invariant forall i :: 0 <= i < iteration ==>
                  medians[i] == Percentile(a, Sort(Resample(deltas, draws[i], |draws[i]|), a.le), P50)
    {
      var median := ReplicateMedian(a, deltas, sorted, ranks, counts, draws[iteration]);
      medians := medians + [median];
    }
  }

  /** bootstrapPairedCI equals the sorted median of every resample. */
  method BootstrapPairedCI<F(!new), W>(a: Arithmetic<F, W>, deltas: seq<F>, order: seq<nat>, draws: seq<seq<nat>>)
    returns (low: F, high: F)
    requires Lawful(a) && SortedOrder(deltas, order, a.le)
    requires |draws| == BOOTSTRAP_ITERATIONS
    requires forall i :: 0 <= i < |draws| ==> |draws[i]| == |deltas| && Below(draws[i], |deltas|)
    ensures (low, high) == ResampledMedianInterval(a, deltas, draws)
  {
    if |deltas| == 0 { return a.zero, a.zero; }
    var sorted, ranks := RankValues(deltas, order, a.le);
    SortAscending(deltas, a.le);
    var medians := ReplicateMedians(a, deltas, sorted, ranks, draws);
    medians := Sort(medians, a.le);
    low, high := Percentile(a, medians, P025), Percentile(a, medians, P975);
  }
}
