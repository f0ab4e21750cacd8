/** The published table: one effect per ranked target, each against the rank-one
    target of its protocol. */
module EffectTable {
  import opened Orders
  import opened Text
  import opened Report
  import opened Bootstrap
  import opened RealScores
  import Scoring
  import opened Ranking
  import opened PairedEffects

  datatype Delta = Delta(median: real, ciLow: real, ciHigh: real, indistinguishable: bool)

  const NO_DELTA := Delta(0.0, 0.0, 0.0, false)

  datatype Effect = Effect(protocol: string, policy: string, targetId: string, referenceId: string, reference: bool,
                           samples: nat, delta: Delta, reason: string)

  /** What the table depends on besides the results: how queries and policies are
      named, and the draws each comparison's own seed gives. */
  datatype Basis = Basis(key: Query -> string, policyName: string -> string,
                         drawn: (string, string, nat) -> seq<seq<nat>>)

  ghost predicate Drawable(b: Basis) {
    forall reference, target, n :: Draws(b.drawn(reference, target, n), n)
  }

  ghost predicate Draws(draws: seq<seq<nat>>, n: nat) {
    |draws| == BOOTSTRAP_ITERATIONS && forall i :: 0 <= i < |draws| ==> |draws[i]| == n && Below(draws[i], n)
  }

  // ----- the paired differences as a function of the two targets -----

  /** A target's sampled keys, in the order they were first measured. */
  function FirstSeen(obs: seq<Observation>, key: Query -> string, k: nat): seq<string>
    requires k <= |obs|
  {
    if k == 0 then []
    else
      var front, o := FirstSeen(obs, key, k - 1), obs[k - 1];
      if Pairable(o) && key(o.query) !in front then front + [key(o.query)] else front
  }

  lemma {:induction false} FirstSeenVisits(obs: seq<Observation>, key: Query -> string, k: nat)
    requires k <= |obs|
    ensures Visits(Samples(obs, key, k), FirstSeen(obs, key, k))
  {
    if k > 0 { FirstSeenVisits(obs, key, k - 1); }
  }

  function KeysOf(result: TargetResult, key: Query -> string): seq<string> {
    FirstSeen(result.observations, key, |result.observations|)
  }

  function Deltas(target: TargetResult, reference: TargetResult, key: Query -> string): seq<real> {
    var a, b, visited := SamplesOf(target, key), SamplesOf(reference, key), KeysOf(target, key);
    FirstSeenVisits(target.observations, key, |target.observations|);
    OrderedKeysShared(a, b, visited);
    Differences(a, b, OrderedKeys(a, b, visited))
  }

  /** Whatever order the sample map is visited in, the differences are the same. */
  lemma DeltasOfAnyVisit(target: TargetResult, reference: TargetResult, key: Query -> string, visited: seq<string>)
    requires Visits(SamplesOf(target, key), visited)
    ensures var a, b := SamplesOf(target, key), SamplesOf(reference, key);
            AllShared(a, b, OrderedKeys(a, b, visited)) &&
            Differences(a, b, OrderedKeys(a, b, visited)) == Deltas(target, reference, key)
  {
    var a, b := SamplesOf(target, key), SamplesOf(reference, key);
    FirstSeenVisits(target.observations, key, |target.observations|);
    FirstSeenVisits(reference.observations, key, |reference.observations|);
    OrderedKeysShared(a, b, visited);
    SameKeys(a, b, visited, KeysOf(reference, key));
    SameKeys(a, b, KeysOf(target, key), KeysOf(reference, key));
  }

  /** pairedLatencyDeltas(a, b) is the pointwise negation of pairedLatencyDeltas(b, a). */
  lemma DeltasAntisymmetric(target: TargetResult, reference: TargetResult, key: Query -> string)
    ensures Deltas(reference, target, key) == Negate(Deltas(target, reference, key))
  {
    FirstSeenVisits(target.observations, key, |target.observations|);
    FirstSeenVisits(reference.observations, key, |reference.observations|);
    DeltasNegated(target, reference, key, KeysOf(target, key), KeysOf(reference, key));
  }

  // ----- one effect -----

  function DeltaOf(deltas: seq<real>, draws: seq<seq<nat>>): Delta
    requires deltas != [] && Draws(draws, |deltas|)
  {
    var sorted := Scoring.Ordered(deltas);
    var interval := PairedInterval(sorted, draws);
    Delta(RealPercentile(sorted, P50), interval.0, interval.1, interval.0 <= 0.0 <= interval.1)
  }

  function EffectOf(b: Basis, target: TargetResult, reference: TargetResult): Effect
    requires Drawable(b)
  {
    var id, rid := target.target.id, reference.target.id;
    var deltas := Deltas(target, reference, b.key);
    var blank := Effect(target.target.protocol, b.policyName(target.target.policy), id, rid, id == rid, |deltas|,
                        NO_DELTA, "");
    if id == rid then blank.(reason := if deltas == [] then "no scored samples" else "")
    else if deltas == [] then blank.(reason := "no shared scored samples")
    else if |deltas| < Scoring.MINIMUM_RECOMMENDED_SAMPLES then blank.(reason := "insufficient paired samples")
    else blank.(delta := DeltaOf(deltas, b.drawn(rid, id, |deltas|)))
  }

  lemma IdentityIsSorted(deltas: seq<real>)
    requires Ascending(deltas, Exact().le)
    ensures SortedOrder(deltas, Identity(|deltas|), Exact().le)
  {
    assert Pick(deltas, Identity(|deltas|)) == deltas;
  }

  lemma ExactTotal(s: seq<real>)
    ensures TotalOn(Exact().le, s)
  {
  }

  method PairEffect(b: Basis, target: TargetResult, reference: TargetResult, visited: seq<string>)
    returns (effect: Effect)
    requires Drawable(b) && Visits(SamplesOf(target, b.key), visited)
    ensures effect == EffectOf(b, target, reference)
  {
    var id, rid := target.target.id, reference.target.id;
    var deltas := PairedLatencyDeltas(target, reference, b.key, visited);
    DeltasOfAnyVisit(target, reference, b.key, visited);
    effect := Effect(target.target.protocol, b.policyName(target.target.policy), id, rid, id == rid, |deltas|,
                     NO_DELTA, "");
    if effect.reference {
      if |deltas| == 0 { effect := effect.(reason := "no scored samples"); }
      return;
    }
    if |deltas| == 0 {
      return effect.(reason := "no shared scored samples");
    }
    if |deltas| < Scoring.MINIMUM_RECOMMENDED_SAMPLES {
      return effect.(reason := "insufficient paired samples");
    }
    var delta := PairedDelta(deltas, b.drawn(rid, id, |deltas|));
    effect := effect.(delta := delta);
  }

  method PairedDelta(deltas: seq<real>, draws: seq<seq<nat>>) returns (delta: Delta)
    requires deltas != [] && Draws(draws, |deltas|)
    ensures delta == DeltaOf(deltas, draws)
  {
    var sorted := Scoring.Ordered(deltas);
    ExactLawful();
    ExactTotal(deltas);
    SortAscending(deltas, Exact().le);
    IdentityIsSorted(sorted);
    var low, high := BootstrapPairedCI(Exact(), sorted, Identity(|sorted|), draws);
    delta := Delta(RealPercentile(sorted, P50), low, high, low <= 0.0 <= high);
  }

  /** A comparison is published with an interval exactly when it has no reason not
      to be, and then the interval is not inverted and the verdict is about zero. */
  lemma EffectPublishes(b: Basis, target: TargetResult, reference: TargetResult)
    requires Drawable(b) && target.target.id != reference.target.id
    ensures var e := EffectOf(b, target, reference);
            && (e.reason == "" <==> e.samples >= Scoring.MINIMUM_RECOMMENDED_SAMPLES)
            && (e.reason != "" ==> e.delta == NO_DELTA)
            && e.delta.ciLow <= e.delta.ciHigh
            && (e.reason == "" ==> (e.delta.indistinguishable <==> !(0.0 < e.delta.ciLow || e.delta.ciHigh < 0.0)))
  {
    hide RealPercentile, Deltas, RealMedians;
    var deltas := Deltas(target, reference, b.key);
    if |deltas| >= Scoring.MINIMUM_RECOMMENDED_SAMPLES {
      var draws := b.drawn(reference.target.id, target.target.id, |deltas|);
      assert Draws(draws, |deltas|);
      PairedIntervalOrdered(Scoring.Ordered(deltas), draws);
    }
  }

  /** What an effect says of itself: whose it is, and why it has no interval. */
  lemma EffectSpelledOut(b: Basis, target: TargetResult, reference: TargetResult)
    requires Drawable(b)
    ensures var e, n := EffectOf(b, target, reference), |Deltas(target, reference, b.key)|;
            && e.protocol == target.target.protocol && e.policy == b.policyName(target.target.policy)
            && e.targetId == target.target.id && e.referenceId == reference.target.id && e.samples == n
            && (e.reference <==> e.targetId == e.referenceId)
            && e.reason == (if e.reference then (if n == 0 then "no scored samples" else "")
                            else if n == 0 then "no shared scored samples"
                            else if n < 20 then "insufficient paired samples"
                            else "")
  {
    hide Deltas, DeltaOf;
  }

  /** The same comparison from the other side. */
  function Turned(d: Delta): Delta {
    Delta(-d.median, -d.ciHigh, -d.ciLow, d.indistinguishable)
  }

  /** Swapping the two sides of a comparison negates its differences. The median
      changes sign whatever is drawn; the whole interval is mirrored when the draws
      of one side mirror those of the other. */
  lemma DeltaTurned(deltas: seq<real>, draws: seq<seq<nat>>, others: seq<seq<nat>>)
    requires deltas != [] && Draws(draws, |deltas|) && Draws(others, |deltas|)
    ensures DeltaOf(Negate(deltas), others).median == -DeltaOf(deltas, draws).median
    ensures others == MirroredDraws(draws, |deltas|) ==>
              DeltaOf(Negate(deltas), others) == Turned(DeltaOf(deltas, draws))
  {
    hide RealPercentile, PairedInterval, Negate, Mirror, MirroredDraws;
    SortMirror(deltas);
    PercentileAntisymmetric(deltas, P50);
    PairedIntervalMirrored(Scoring.Ordered(deltas), draws);
  }

  /** Equal draws on both sides would not do: the differences are sorted before they
      are drawn from, so the same draw reads the other end of the list. */
  lemma LowEndIs(sorted: seq<real>, deltas: seq<real>, draws: seq<seq<nat>>)
    requires deltas != [] && Draws(draws, |deltas|) && sorted == Scoring.Ordered(deltas)
    requires forall i, k :: 0 <= i < |draws| && 0 <= k < |draws[i]| ==> draws[i][k] == 0
    ensures DeltaOf(deltas, draws).ciLow == DeltaOf(deltas, draws).ciHigh == sorted[0]
  {
    hide RealPercentile, PairedInterval;
    PairedIntervalOfOne(sorted, draws, 0);
  }

  lemma EqualDrawsDoNotTurn() returns (deltas: seq<real>, draws: seq<seq<nat>>)
    ensures deltas != [] && Draws(draws, |deltas|)
    ensures DeltaOf(Negate(deltas), draws) != Turned(DeltaOf(deltas, draws))
  {
    deltas := [0.0, 1.0];
    draws := seq(BOOTSTRAP_ITERATIONS, _ => [0, 0]);
    hide DeltaOf;
    TwoInOrder();
    LowEndIs(deltas, deltas, draws);
    LowEndIs([-1.0, 0.0], Negate(deltas), draws);
  }

  lemma TwoInOrder()
    ensures Scoring.Ordered([0.0, 1.0]) == [0.0, 1.0]
    ensures Scoring.Ordered(Negate([0.0, 1.0])) == [-1.0, 0.0]
  {
    SortUnique([0.0, 1.0], [0.0, 1.0], Exact().le);
    SortMirror([0.0, 1.0]);
    assert Mirror([0.0, 1.0]) == [-1.0, 0.0];
  }

  /** Two targets compared both ways: as many samples, the same reason, the median
      negated, and the interval too when the two seeds' draws mirror each other. */
  lemma EffectTurned(b: Basis, target: TargetResult, reference: TargetResult)
    requires Drawable(b) && target.target.id != reference.target.id
    ensures var there, back := EffectOf(b, target, reference), EffectOf(b, reference, target);
            var id, rid, n := target.target.id, reference.target.id, there.samples;
            && back.samples == n && back.reason == there.reason
            && back.delta.median == -there.delta.median
            && (b.drawn(id, rid, n) == MirroredDraws(b.drawn(rid, id, n), n) ==>
                  back.delta == if there.reason == "" then Turned(there.delta) else NO_DELTA)
  {
    hide Deltas, DeltaOf;
    var deltas := Deltas(target, reference, b.key);
    var id, rid := target.target.id, reference.target.id;
    DeltasAntisymmetric(target, reference, b.key);
    if |deltas| >= Scoring.MINIMUM_RECOMMENDED_SAMPLES {
      assert Draws(b.drawn(rid, id, |deltas|), |deltas|) && Draws(b.drawn(id, rid, |deltas|), |deltas|);
      DeltaTurned(deltas, b.drawn(rid, id, |deltas|), b.drawn(id, rid, |deltas|));
    }
  }

  /** The least and the greatest of some differences. */
  lemma {:induction false} Bounds(deltas: seq<real>, k: nat) returns (i: nat, j: nat)
    requires 0 < k <= |deltas|
    ensures i < k && j < k && forall m :: 0 <= m < k ==> deltas[i] <= deltas[m] <= deltas[j]
  {
    i, j := k - 1, k - 1;
    if k > 1 {
      var a, b := Bounds(deltas, k - 1);
      if deltas[a] < deltas[i] { i := a; }
      if deltas[b] > deltas[j] { j := b; }
    }
  }

  lemma DeltaWithin(deltas: seq<real>, draws: seq<seq<nat>>, lo: real, hi: real)
    requires deltas != [] && Draws(draws, |deltas|) && Within(deltas, lo, hi)
    ensures var d := DeltaOf(deltas, draws); lo <= d.median <= hi && lo <= d.ciLow <= hi && lo <= d.ciHigh <= hi
  {
    hide RealPercentile, PairedInterval;
    SortedWithin(deltas, lo, hi);
    OrderStatisticWithin(deltas, P50, lo, hi);
    PairedIntervalWithin(Scoring.Ordered(deltas), draws, lo, hi);
  }

  /** The target took longer than the reference on every query both answered with the
      same class. */
  predicate SlowerThroughout(b: Basis, target: TargetResult, reference: TargetResult) {
    var x, y := SamplesOf(target, b.key), SamplesOf(reference, b.key);
    forall key :: key in x.Keys && key in y.Keys && x[key].responseClass == y[key].responseClass ==>
                    x[key].latency > y[key].latency
  }

  lemma SlowerDeltas(b: Basis, target: TargetResult, reference: TargetResult)
    requires SlowerThroughout(b, target, reference)
    ensures forall i :: 0 <= i < |Deltas(target, reference, b.key)| ==> Deltas(target, reference, b.key)[i] > 0.0
  {
    hide SamplesOf, KeysOf, OrderedKeys;
    var x, y, visited := SamplesOf(target, b.key), SamplesOf(reference, b.key), KeysOf(target, b.key);
    assert Distinct(visited) by { KeysOfVisits(target, b.key); }
    OrderedKeysShared(x, y, visited);
  }

  lemma KeysOfVisits(target: TargetResult, key: Query -> string)
    ensures Visits(SamplesOf(target, key), KeysOf(target, key))
  {
    FirstSeenVisits(target.observations, key, |target.observations|);
  }

  /** A published difference is the target's time less the reference's: whoever is slower
      on every shared query has a positive median and an interval above zero. */
  lemma SlowerIsPositive(b: Basis, target: TargetResult, reference: TargetResult)
    requires Drawable(b) && target.target.id != reference.target.id && SlowerThroughout(b, target, reference)
    ensures var e := EffectOf(b, target, reference);
            e.reason == "" ==> 0.0 < e.delta.median && 0.0 < e.delta.ciLow && !e.delta.indistinguishable
  {
    hide Deltas, DeltaOf, SlowerThroughout, RealPercentile;
    var deltas := Deltas(target, reference, b.key);
    if |deltas| >= Scoring.MINIMUM_RECOMMENDED_SAMPLES {
      var draws := b.drawn(reference.target.id, target.target.id, |deltas|);
      assert Draws(draws, |deltas|);
      SlowerDeltas(b, target, reference);
      var i, j := Bounds(deltas, |deltas|);
      DeltaWithin(deltas, draws, deltas[i], deltas[j]);
      AboveZero(deltas, draws);
    }
  }

  lemma AboveZero(deltas: seq<real>, draws: seq<seq<nat>>)
    requires deltas != [] && Draws(draws, |deltas|)
    ensures var d := DeltaOf(deltas, draws); d.indistinguishable <==> d.ciLow <= 0.0 <= d.ciHigh
  {
    hide RealPercentile, PairedInterval;
  }

  lemma PairedIntervalOrdered(deltas: seq<real>, draws: seq<seq<nat>>)
    requires deltas != [] && draws != [] && forall i :: 0 <= i < |draws| ==> Below(draws[i], |deltas|)
    ensures PairedInterval(deltas, draws).0 <= PairedInterval(deltas, draws).1
  {
    hide RealPercentile, RealMedians, PairedInterval;
    PairedIntervalIsPercentiles(deltas, draws);
    OuterPercentiles(RealMedians(deltas, draws));
  }

  // ----- the effects of one protocol -----

  /** The comparable targets of a protocol by rank, and each one's effect against
      the first. */
  function ProtocolEffects(b: Basis, results: seq<TargetResult>, rankings: seq<Ranking>,
                           protocol: string): (r: seq<Effect>)
    requires Drawable(b)
    ensures |r| == |Group(results, protocol)|
  {
    var order := Sort(Group(results, protocol), ByRank(rankings, |results|));
    seq(|order|, i requires 0 <= i < |order| => EffectOf(b, order[i], order[0]))
  }

  /** The comparable targets the way calculatePairedEffects collects them. */
  method CollectComparable(results: seq<TargetResult>, protocol: string) returns (group: seq<TargetResult>)
    ensures group == Group(results, protocol)
  {
    group := [];
    for k := 0 to |results|
      invariant group == Filter(results, InGroup(protocol), k)
    {
      var r := results[k];
      if r.incomplete || r.stats.counts.scored == 0 || r.target.local || r.target.protocol != protocol { continue; }
      group := group + [r];
    }
  }

  method CompareProtocol(b: Basis, results: seq<TargetResult>, rankings: seq<Ranking>, protocol: string)
    returns (effects: seq<Effect>)
    requires Drawable(b)
    ensures effects == ProtocolEffects(b, results, rankings, protocol)
  {
    hide EffectOf, Draws, Drawable, EffectLe;
    var group := CollectComparable(results, protocol);
    var order := Sort(group, ByRank(rankings, |results|));
    effects := [];
    for i := 0 to |order|
      invariant effects == ProtocolEffects(b, results, rankings, protocol)[..i]
    {
      FirstSeenVisits(order[i].observations, b.key, |order[i].observations|);
      var effect := PairEffect(b, order[i], order[0], KeysOf(order[i], b.key));
      effects := effects + [effect];
    }
  }

  /** An effect answers a ranking: same target, and it is the reference exactly
      when the ranking is the first. */
  predicate Answers(e: Effect, x: Ranking) {
    e.protocol == x.protocol && e.targetId == x.targetId && (e.reference <==> x.rank == 1)
  }

  /** The effects come in the presented order, all against its first target. */
  lemma EffectsInPresentedOrder(b: Basis, results: seq<TargetResult>, timeout: real, visited: seq<string>,
                                protocol: string)
    requires Drawable(b) && DistinctIds(results) && Listing(results, visited)
    ensures var effects := ProtocolEffects(b, results, Rankings(results, timeout, visited), protocol);
            var presented := Presented(Group(results, protocol), timeout);
            && |effects| == |presented|
            && forall i :: 0 <= i < |effects| ==> effects[i] == EffectOf(b, presented[i], presented[0])
  {
    hide ByRank, Rankings, Presented, EffectOf, Drawable, Group;
    EffectsFollowRanks(results, timeout, visited, protocol);
  }

  lemma EffectNames(b: Basis, target: TargetResult, reference: TargetResult)
    requires Drawable(b)
    ensures var e := EffectOf(b, target, reference);
            && e.protocol == target.target.protocol && e.targetId == target.target.id
            && e.referenceId == reference.target.id && e.reference == (target.target.id == reference.target.id)
  {
    hide Deltas, DeltaOf;
  }

  lemma PresentedProtocol(results: seq<TargetResult>, timeout: real, protocol: string, i: nat)
    requires i < |Presented(Group(results, protocol), timeout)|
    ensures Presented(Group(results, protocol), timeout)[i].target.protocol == protocol
  {
    hide TieGroup, Remaining;
    TieAtPlace(Group(results, protocol), timeout, i);
    GroupElements(results, protocol);
  }

  /** A protocol's effects are its rankings, place by place, all of them against
      the rank-one target. */
  lemma EffectsAnswerRankings(b: Basis, results: seq<TargetResult>, timeout: real, visited: seq<string>,
                              protocol: string)
    requires Drawable(b) && DistinctIds(results) && Listing(results, visited)
    ensures var effects := ProtocolEffects(b, results, Rankings(results, timeout, visited), protocol);
            var own := ProtocolRankings(results, timeout, protocol);
            && |effects| == |own|
            && forall i :: 0 <= i < |own| ==> Answers(effects[i], own[i]) && effects[i].referenceId == own[0].targetId
  {
    hide ProtocolEffects, Rankings, Presented, TieAt, EffectOf, Drawable, Listing, Group;
    var presented := Presented(Group(results, protocol), timeout);
    var effects := ProtocolEffects(b, results, Rankings(results, timeout, visited), protocol);
    var own := ProtocolRankings(results, timeout, protocol);
    EffectsInPresentedOrder(b, results, timeout, visited, protocol);
    RanksAreBijection(results, timeout, protocol);
    forall i | 0 <= i < |own| ensures Answers(effects[i], own[i]) && effects[i].referenceId == own[0].targetId {
      PresentedProtocol(results, timeout, protocol, i);
      RankingOfProtocol(results, timeout, protocol, own[i]);
      EffectNames(b, presented[i], presented[0]);
    }
  }

  // ----- the table of all protocols -----

  function EffectParts(b: Basis, results: seq<TargetResult>, rankings: seq<Ranking>,
                       protocols: seq<string>): (r: seq<seq<Effect>>)
    requires Drawable(b)
    ensures |r| == |protocols|
  {
    seq(|protocols|, i requires 0 <= i < |protocols| => ProtocolEffects(b, results, rankings, protocols[i]))
  }

  function Unsorted(b: Basis, results: seq<TargetResult>, rankings: seq<Ranking>, protocols: seq<string>): seq<Effect>
    requires Drawable(b)
  {
    Flatten(EffectParts(b, results, rankings, protocols), |protocols|)
  }

  predicate TableLe(x: Effect, y: Effect) {
    if x.protocol != y.protocol then StringLe(x.protocol, y.protocol)
    else if x.policy != y.policy then StringLe(x.policy, y.policy)
    else StringLe(x.targetId, y.targetId)
  }

  /** The table comes by protocol, then by policy, then by target ID. */
  lemma TableLeMeans(x: Effect, y: Effect)
    ensures TableLe(x, y) <==>
            || (x.protocol != y.protocol && StringLe(x.protocol, y.protocol))
            || (x.protocol == y.protocol && x.policy != y.policy && StringLe(x.policy, y.policy))
            || (x.protocol == y.protocol && x.policy == y.policy && StringLe(x.targetId, y.targetId))
  {
    StringOrder();
  }

  function Table(b: Basis, results: seq<TargetResult>, rankings: seq<Ranking>, protocols: seq<string>): seq<Effect>
    requires Drawable(b)
  {
    Sort(Unsorted(b, results, rankings, protocols), TableLe)
  }

  method CalculatePairedEffects(b: Basis, results: seq<TargetResult>, rankings: seq<Ranking>, protocols: seq<string>)
    returns (effects: seq<Effect>)
    requires Drawable(b)
    ensures effects == Table(b, results, rankings, protocols)
  {
    hide ProtocolEffects, Draws, Drawable;
    effects := [];
    for k := 0 to |protocols|
      invariant effects == Flatten(EffectParts(b, results, rankings, protocols), k)
    {
      var part := CompareProtocol(b, results, rankings, protocols[k]);
      effects := effects + part;
    }
    effects := Sort(effects, TableLe);
  }

  /** Concatenations of parts that match place by place match place by place. */
  lemma {:induction false} FlattenAnswers(effects: seq<seq<Effect>>, rankings: seq<seq<Ranking>>, k: nat)
    requires |effects| == |rankings| && k <= |effects|
    requires forall j :: 0 <= j < |effects| ==> |effects[j]| == |rankings[j]|
    requires forall j, i :: 0 <= j < |effects| && 0 <= i < |effects[j]| ==> Answers(effects[j][i], rankings[j][i])
    ensures |Flatten(effects, k)| == |Flatten(rankings, k)|
    ensures forall i :: 0 <= i < |Flatten(effects, k)| ==> Answers(Flatten(effects, k)[i], Flatten(rankings, k)[i])
  {
    if k > 0 { FlattenAnswers(effects, rankings, k - 1); }
  }

  lemma UnsortedAnswers(b: Basis, results: seq<TargetResult>, timeout: real, visited: seq<string>)
    requires Drawable(b) && DistinctIds(results) && Listing(results, visited)
    ensures var effects := Unsorted(b, results, Rankings(results, timeout, visited), visited);
            var all := Concat(results, timeout, visited);
            |effects| == |all| && forall i :: 0 <= i < |all| ==> Answers(effects[i], all[i])
  {
    hide ProtocolEffects, ProtocolRankings, Drawable, Rankings, Listing;
    var rankings := Rankings(results, timeout, visited);
    var effects, parts := EffectParts(b, results, rankings, visited), Parts(results, timeout, visited);
    forall j | 0 <= j < |visited|
      ensures |effects[j]| == |parts[j]|
      ensures forall i :: 0 <= i < |effects[j]| ==> Answers(effects[j][i], parts[j][i])
    {
      EffectsAnswerRankings(b, results, timeout, visited, visited[j]);
    }
    FlattenAnswers(effects, parts, |visited|);
  }

  /** No two rankings name one target. */
  lemma RankedOnce(results: seq<TargetResult>, timeout: real, visited: seq<string>, i: nat, j: nat)
    requires DistinctIds(results) && Listing(results, visited)
    requires i < j < |Concat(results, timeout, visited)|
    ensures Concat(results, timeout, visited)[i].targetId != Concat(results, timeout, visited)[j].targetId
  {
    hide Concat, Listing;
    var all := Concat(results, timeout, visited);
    if all[i].targetId == all[j].targetId {
      SameTarget(results, timeout, visited, all[i], all[j]);
      RepeatedElement(all, i, j);
      ListedAtMostOnce(results, timeout, visited, all[i]);
    }
  }

  lemma SameTarget(results: seq<TargetResult>, timeout: real, visited: seq<string>, x: Ranking, y: Ranking)
    requires DistinctIds(results) && Listing(results, visited)
    requires x in Concat(results, timeout, visited) && y in Concat(results, timeout, visited) &&
             x.targetId == y.targetId
    ensures x == y
  {
    hide Concat, ProtocolRankings, Listing;
    var all := Concat(results, timeout, visited);
    SortMultiset(all, RankingLe);
    SameElements(all, Rankings(results, timeout, visited));
    RankingOfConcat(results, timeout, visited, x);
    RankingOfId(results, timeout, visited, x.protocol, x, y);
  }

  lemma ListedAtMostOnce(results: seq<TargetResult>, timeout: real, visited: seq<string>, x: Ranking)
    requires DistinctIds(results) && Listing(results, visited)
    ensures multiset(Concat(results, timeout, visited))[x] <= 1
  {
    hide Concat, Listing, Presented, TieAt;
    ListingDistinct(results, visited);
    ConcatCount(results, timeout, visited, x);
    RanksAreBijection(results, timeout, x.protocol);
    DistinctCount(ProtocolRankings(results, timeout, x.protocol), x);
  }

  lemma EffectsDistinct(b: Basis, results: seq<TargetResult>, timeout: real, visited: seq<string>, x: Effect, y: Effect)
    requires Drawable(b) && DistinctIds(results) && Listing(results, visited)
    requires x in Unsorted(b, results, Rankings(results, timeout, visited), visited)
    requires y in Unsorted(b, results, Rankings(results, timeout, visited), visited)
    requires x.targetId == y.targetId
    ensures x == y
  {
    hide Unsorted, Concat, Rankings, Drawable;
    var all := Unsorted(b, results, Rankings(results, timeout, visited), visited);
    UnsortedAnswers(b, results, timeout, visited);
    var i := Find(all, x);
    var j := Find(all, y);
    if i < j { RankedOnce(results, timeout, visited, i, j); }
    if j < i { RankedOnce(results, timeout, visited, j, i); }
  }

  /** The table has one effect per ranked target and nothing else. */
  lemma OneEffectPerRankedTarget(b: Basis, results: seq<TargetResult>, timeout: real, visited: seq<string>)
    requires Drawable(b) && DistinctIds(results) && Listing(results, visited)
    ensures var rankings := Rankings(results, timeout, visited);
            var table := Table(b, results, rankings, visited);
            && |table| == |rankings|
            && (forall i, j :: 0 <= i < j < |table| ==> table[i].targetId != table[j].targetId)
            && (forall e :: e in table ==> exists x :: x in rankings && Answers(e, x))
            && (forall x :: x in rankings ==> exists e :: e in table && Answers(e, x))
  {
    hide Unsorted, Concat, Drawable, Listing;
    var rankings := Rankings(results, timeout, visited);
    var all, unsorted := Concat(results, timeout, visited), Unsorted(b, results, rankings, visited);
    var table := Table(b, results, rankings, visited);
    UnsortedAnswers(b, results, timeout, visited);
    SortMultiset(all, RankingLe);
    SortMultiset(unsorted, TableLe);
    SameElements(all, rankings);
    SameElements(unsorted, table);
    forall e | e in table ensures exists x :: x in rankings && Answers(e, x) {
      var i := Find(unsorted, e);
      assert all[i] in all;
    }
    forall x | x in rankings ensures exists e :: e in table && Answers(e, x) {
      var i := Find(all, x);
      assert unsorted[i] in unsorted;
    }
    forall i, j | 0 <= i < j < |table| ensures table[i].targetId != table[j].targetId {
      TableDistinct(b, results, timeout, visited, i, j);
    }
  }

  lemma TableDistinct(b: Basis, results: seq<TargetResult>, timeout: real, visited: seq<string>, i: nat, j: nat)
    requires Drawable(b) && DistinctIds(results) && Listing(results, visited)
    requires i < j < |Table(b, results, Rankings(results, timeout, visited), visited)|
    ensures var table := Table(b, results, Rankings(results, timeout, visited), visited);
            table[i].targetId != table[j].targetId
  {
    hide Unsorted, Concat, Rankings, Drawable, Listing;
    var rankings := Rankings(results, timeout, visited);
    var unsorted, table := Unsorted(b, results, rankings, visited), Table(b, results, rankings, visited);
    if table[i].targetId == table[j].targetId {
      SortMultiset(unsorted, TableLe);
      SameElements(unsorted, table);
      assert table[i] in table && table[j] in table;
      EffectsDistinct(b, results, timeout, visited, table[i], table[j]);
      RepeatedElement(table, i, j);
      UnsortedAnswers(b, results, timeout, visited);
      forall m, n | 0 <= m < n < |unsorted| ensures unsorted[m] != unsorted[n] {
        RankedOnce(results, timeout, visited, m, n);
      }
      DistinctCount(unsorted, table[i]);
    }
  }

  /** A reference in the table is the target its protocol ranks first. */
  lemma ReferenceIsFirst(b: Basis, results: seq<TargetResult>, timeout: real, visited: seq<string>, e: Effect)
    requires Drawable(b) && DistinctIds(results) && Listing(results, visited)
    requires e in Table(b, results, Rankings(results, timeout, visited), visited) && e.reference
    ensures var own := ProtocolRankings(results, timeout, e.protocol); own != [] && e.targetId == own[0].targetId
  {
    hide Table, Drawable, Listing, Rankings, Concat, ProtocolRankings;
    OneEffectPerRankedTarget(b, results, timeout, visited);
    var x :| x in Rankings(results, timeout, visited) && Answers(e, x);
    RankOneIsFirst(results, timeout, visited, e.protocol, x);
  }

  lemma RankOneIsFirst(results: seq<TargetResult>, timeout: real, visited: seq<string>, protocol: string, x: Ranking)
    requires x in Rankings(results, timeout, visited) && x.protocol == protocol && x.rank == 1
    ensures ProtocolRankings(results, timeout, protocol) != []
    ensures x == ProtocolRankings(results, timeout, protocol)[0]
  {
    SortMultiset(Concat(results, timeout, visited), RankingLe);
    SameElements(Concat(results, timeout, visited), Rankings(results, timeout, visited));
    RankingOfConcat(results, timeout, visited, x);
    RankingOfProtocol(results, timeout, protocol, x);
  }

  /** Each protocol with a comparable target has a reference in the table, the
      target ranked first. */
  lemma FirstIsReference(b: Basis, results: seq<TargetResult>, timeout: real, visited: seq<string>, protocol: string)
    returns (reference: Effect)
    requires Drawable(b) && DistinctIds(results) && Listing(results, visited)
    requires Group(results, protocol) != []
    ensures reference in Table(b, results, Rankings(results, timeout, visited), visited)
    ensures reference.protocol == protocol && reference.reference
    ensures Presented(Group(results, protocol), timeout) != []
    ensures reference.targetId == Presented(Group(results, protocol), timeout)[0].target.id
  {
    hide Table, Drawable, Listing, Rankings, Presented, TieAt, Group;
    RanksAreBijection(results, timeout, protocol);
    SameElements(Presented(Group(results, protocol), timeout), Group(results, protocol));
    var own := ProtocolRankings(results, timeout, protocol);
    assert own[0] in own;
    OwnRankingListed(results, timeout, visited, protocol, own[0]);
    OneEffectPerRankedTarget(b, results, timeout, visited);
    var e :| e in Table(b, results, Rankings(results, timeout, visited), visited) && Answers(e, own[0]);
    reference := e;
  }

  /** And it has only that one. */
  lemma OneReference(b: Basis, results: seq<TargetResult>, timeout: real, visited: seq<string>, x: Effect, y: Effect)
    requires Drawable(b) && DistinctIds(results) && Listing(results, visited)
    requires var table := Table(b, results, Rankings(results, timeout, visited), visited); x in table && y in table
    requires x.reference && y.reference && x.protocol == y.protocol
    ensures x == y
  {
    hide Table, Drawable, Listing, Rankings, ProtocolRankings;
    var table := Table(b, results, Rankings(results, timeout, visited), visited);
    ReferenceIsFirst(b, results, timeout, visited, x);
    ReferenceIsFirst(b, results, timeout, visited, y);
    var i := Find(table, x);
    var j := Find(table, y);
    if i < j { TableDistinct(b, results, timeout, visited, i, j); }
    if j < i { TableDistinct(b, results, timeout, visited, j, i); }
  }
}
