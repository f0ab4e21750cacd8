/** Paired latency differences against each protocol's best ranked target. */
module PairedEffects {
  import opened Orders
  import opened Text
  import opened Report
  import opened Bootstrap
  import opened RealScores
  import Scoring
  import opened Ranking

  // ----- pairing two targets' observations -----

  datatype PairedSample = PairedSample(latency: real, responseClass: string)

  /** An ordinary warm sample: usable, agreeing with its peers, no reconnect. */
  predicate Pairable(o: Observation) {
    Scoring.Usable(o) && !o.divergent && !o.reconnected && o.latency >= 0.0
  }

  /** The first pairable observation of every key among the first k. */
  function Samples(obs: seq<Observation>, key: Query -> string, k: nat): map<string, PairedSample>
    requires k <= |obs|
  {
    if k == 0 then map[]
    else
      var front, o := Samples(obs, key, k - 1), obs[k - 1];
      if Pairable(o) && key(o.query) !in front
      then front[key(o.query) := PairedSample(o.latency, Scoring.ResponseClassName(o.responseClass))]
      else front
  }

  function SamplesOf(result: TargetResult, key: Query -> string): map<string, PairedSample> {
    Samples(result.observations, key, |result.observations|)
  }

  method PairedObservationSamples(result: TargetResult, key: Query -> string)
    returns (samples: map<string, PairedSample>)
    ensures samples == SamplesOf(result, key)
  {
    samples := map[];
    for i := 0 to |result.observations|
      invariant samples == Samples(result.observations, key, i)
    {
      var o := result.observations[i];
      if !Scoring.Usable(o) || o.divergent || o.reconnected || o.latency < 0.0 { continue; }
      if key(o.query) !in samples {
        samples := samples[key(o.query) := PairedSample(o.latency, Scoring.ResponseClassName(o.responseClass))];
      }
    }
  }

  /** The sample of a key is the first ordinary one: a response of worth that agrees with
      its peers, follows no reconnect, and took no negative time. */
  lemma {:induction false} SampleIsFirst(obs: seq<Observation>, key: Query -> string, k: nat, name: string)
    requires k <= |obs|
    ensures name !in Samples(obs, key, k) <==> forall i :: 0 <= i < k ==> !Ordinary(obs[i], key, name)
    ensures name in Samples(obs, key, k) ==>
              exists i :: 0 <= i < k && Ordinary(obs[i], key, name) &&
                          (forall j :: 0 <= j < i ==> !Ordinary(obs[j], key, name)) &&
                          Samples(obs, key, k)[name].latency == obs[i].latency &&
                          Samples(obs, key, k)[name].responseClass ==
                            (if obs[i].responseClass == "" then "unknown" else obs[i].responseClass)
  {
    if k > 0 { SampleIsFirst(obs, key, k - 1, name); }
  }

  predicate Ordinary(o: Observation, key: Query -> string, name: string) {
    key(o.query) == name && Scoring.Worth(o) && !o.divergent && !o.reconnected && o.latency >= 0.0
  }

  /** A key both sides answered with the same class of answer. */
  predicate Shared(a: map<string, PairedSample>, b: map<string, PairedSample>, key: string) {
    key in a && key in b && a[key].responseClass == b[key].responseClass
  }

  /** Any order in which a map's keys may be visited. */
  ghost predicate Visits(m: map<string, PairedSample>, visited: seq<string>) {
    Distinct(visited) && forall key :: key in visited <==> key in m
  }

  function SharedKeys(a: map<string, PairedSample>, b: map<string, PairedSample>, visited: seq<string>,
                      k: nat): seq<string>
    requires k <= |visited|
  {
    if k == 0 then []
    else if Shared(a, b, visited[k - 1]) then SharedKeys(a, b, visited, k - 1) + [visited[k - 1]]
    else SharedKeys(a, b, visited, k - 1)
  }

  lemma {:induction false} SharedKeysElements(a: map<string, PairedSample>, b: map<string, PairedSample>,
                                              visited: seq<string>, k: nat, key: string)
    requires k <= |visited| && Distinct(visited)
    ensures key in SharedKeys(a, b, visited, k) <==> Shared(a, b, key) && key in visited[..k]
    ensures multiset(SharedKeys(a, b, visited, k))[key] <= 1
  {
    if k > 0 {
      SharedKeysElements(a, b, visited, k - 1, key);
      assert visited[..k] == visited[..k - 1] + [visited[k - 1]];
      assert visited[k - 1] !in visited[..k - 1];
    }
  }

  function OrderedKeys(a: map<string, PairedSample>, b: map<string, PairedSample>, visited: seq<string>): seq<string> {
    Sort(SharedKeys(a, b, visited, |visited|), StringLe)
  }

  /** The two sides visit their own maps, in any order, and still agree on the
      ordered list of shared keys. */
  lemma SameKeys(a: map<string, PairedSample>, b: map<string, PairedSample>, va: seq<string>, vb: seq<string>)
    requires Visits(a, va) && Visits(b, vb)
    ensures OrderedKeys(a, b, va) == OrderedKeys(b, a, vb)
    ensures forall key :: key in OrderedKeys(a, b, va) <==> Shared(a, b, key)
  {
    var s, t := SharedKeys(a, b, va, |va|), SharedKeys(b, a, vb, |vb|);
    assert va[..|va|] == va && vb[..|vb|] == vb;
    forall key ensures multiset(s)[key] == multiset(t)[key] && (key in s <==> Shared(a, b, key)) {
      SharedKeysElements(a, b, va, |va|, key);
      SharedKeysElements(b, a, vb, |vb|, key);
      assert key in s <==> key in multiset(s);
      assert key in t <==> key in multiset(t);
    }
    assert multiset(s) == multiset(t);
    StringOrder();
    assert TotalOn(StringLe, s);
    SortPermutation(s, t, StringLe);
    SortMultiset(s, StringLe);
    SameElements(s, OrderedKeys(a, b, va));
  }

  ghost predicate AllShared(a: map<string, PairedSample>, b: map<string, PairedSample>, keys: seq<string>) {
    forall i :: 0 <= i < |keys| ==> Shared(a, b, keys[i])
  }

  function Differences(a: map<string, PairedSample>, b: map<string, PairedSample>, keys: seq<string>): (r: seq<real>)
    requires AllShared(a, b, keys)
    ensures |r| == |keys|
  {
    seq(|keys|, i requires 0 <= i < |keys| => a[keys[i]].latency - b[keys[i]].latency)
  }

  /** pairedLatencyDeltas, as the list the method below builds. */
  method PairedLatencyDeltas(target: TargetResult, reference: TargetResult, key: Query -> string, visited: seq<string>)
    returns (deltas: seq<real>)
    requires Visits(SamplesOf(target, key), visited)
    ensures var a, b := SamplesOf(target, key), SamplesOf(reference, key);
            var keys := OrderedKeys(a, b, visited);
            AllShared(a, b, keys) && deltas == Differences(a, b, keys)
  {
    var a := PairedObservationSamples(target, key);
    var b := PairedObservationSamples(reference, key);
    var keys := [];
    for k := 0 to |visited|
      invariant keys == SharedKeys(a, b, visited, k)
    {
      if visited[k] !in b || b[visited[k]].responseClass != a[visited[k]].responseClass { continue; }
      keys := keys + [visited[k]];
    }
    keys := Sort(keys, StringLe);
    OrderedKeysShared(a, b, visited);
    deltas := [];
    for i := 0 to |keys|
      invariant deltas == Differences(a, b, keys)[..i]
    {
      deltas := deltas + [a[keys[i]].latency - b[keys[i]].latency];
    }
  }

  lemma OrderedKeysShared(a: map<string, PairedSample>, b: map<string, PairedSample>, visited: seq<string>)
    requires Distinct(visited)
    ensures AllShared(a, b, OrderedKeys(a, b, visited))
  {
    var s, t := SharedKeys(a, b, visited, |visited|), OrderedKeys(a, b, visited);
    SortMultiset(s, StringLe);
    SameElements(s, t);
    forall i | 0 <= i < |t| ensures Shared(a, b, t[i]) {
      assert t[i] in s;
      SharedKeysElements(a, b, visited, |visited|, t[i]);
    }
  }

  /** Swapping target and reference negates every paired difference, in place. */
  lemma DeltasNegated(target: TargetResult, reference: TargetResult, key: Query -> string, vt: seq<string>,
                      vr: seq<string>)
    requires Visits(SamplesOf(target, key), vt) && Visits(SamplesOf(reference, key), vr)
    ensures var a, b := SamplesOf(target, key), SamplesOf(reference, key);
            var there, back := OrderedKeys(a, b, vt), OrderedKeys(b, a, vr);
            && there == back && AllShared(a, b, there) && AllShared(b, a, there)
            && Differences(b, a, back) == Negate(Differences(a, b, there))
  {
    var a, b := SamplesOf(target, key), SamplesOf(reference, key);
    SameKeys(a, b, vt, vr);
    OrderedKeysShared(a, b, vt);
    OrderedKeysShared(b, a, vr);
  }

  /** So the median delta is exactly antisymmetric. */
  lemma MedianDeltaAntisymmetric(target: TargetResult, reference: TargetResult, key: Query -> string, vt: seq<string>,
                                 vr: seq<string>,
                                 there: seq<real>, back: seq<real>)
    requires Visits(SamplesOf(target, key), vt) && Visits(SamplesOf(reference, key), vr)
    requires var a, b := SamplesOf(target, key), SamplesOf(reference, key);
             && AllShared(a, b, OrderedKeys(a, b, vt)) && there == Differences(a, b, OrderedKeys(a, b, vt))
             && AllShared(b, a, OrderedKeys(b, a, vr)) && back == Differences(b, a, OrderedKeys(b, a, vr))
    ensures RealPercentile(Scoring.Ordered(back), P50) == -RealPercentile(Scoring.Ordered(there), P50)
  {
    DeltasNegated(target, reference, key, vt, vr);
    PercentileAntisymmetric(there, P50);
  }

  // ----- one effect per ranked target -----

  /** The rank a target's ID has in the rankings, 0 when it has none. The last
      entry for an ID wins, as it does in a map that is filled in order. */
  function RankOf(rankings: seq<Ranking>, k: nat, id: string): nat
    requires k <= |rankings|
  {
    if k == 0 then 0
    else if rankings[k - 1].targetId == id then rankings[k - 1].rank
    else RankOf(rankings, k - 1, id)
  }

  /** The order effects are compared in: rank, unranked last, then score and ID. */
  function SortRank(rankings: seq<Ranking>, results: nat, id: string): nat {
    var rank := RankOf(rankings, |rankings|, id);
    if rank == 0 then results + 1 else rank
  }

  predicate EffectLe(rankings: seq<Ranking>, results: nat, x: TargetResult, y: TargetResult) {
    var a, b := SortRank(rankings, results, x.target.id), SortRank(rankings, results, y.target.id);
    if a != b then a < b else ScoreLe(x, y)
  }

  function ByRank(rankings: seq<Ranking>, results: nat): (TargetResult, TargetResult) -> bool {
    (x: TargetResult, y: TargetResult) => EffectLe(rankings, results, x, y)
  }

  lemma {:induction false} RankFound(rankings: seq<Ranking>, k: nat, i: nat)
    requires i < k <= |rankings|
    requires forall j :: 0 <= j < |rankings| && rankings[j].targetId == rankings[i].targetId ==>
               rankings[j] == rankings[i]
    ensures RankOf(rankings, k, rankings[i].targetId) == rankings[i].rank
  {
    if rankings[k - 1].targetId != rankings[i].targetId { RankFound(rankings, k - 1, i); }
  }

  /** In the rankings of all protocols an ID stands for one target, so looking it
      up gives that target's place. */
  lemma PresentedRank(results: seq<TargetResult>, timeout: real, visited: seq<string>, protocol: string, i: nat)
    requires DistinctIds(results) && Listing(results, visited)
    requires i < |Presented(Group(results, protocol), timeout)|
    ensures var r := Presented(Group(results, protocol), timeout)[i];
            var rankings := Rankings(results, timeout, visited);
            RankOf(rankings, |rankings|, r.target.id) == i + 1
  {
    hide TieGroup, Remaining, TieAt, Member;
    var rankings, own := Rankings(results, timeout, visited), ProtocolRankings(results, timeout, protocol);
    var r := Presented(Group(results, protocol), timeout)[i];
    var x := own[i];
    assert x.targetId == r.target.id && x.rank == i + 1 && x in own;
    OwnRankingListed(results, timeout, visited, protocol, x);
    var j := Find(rankings, x);
    forall m | 0 <= m < |rankings| && rankings[m].targetId == x.targetId ensures rankings[m] == x {
      assert rankings[m] in rankings;
      RankingOfId(results, timeout, visited, protocol, x, rankings[m]);
    }
    RankFound(rankings, |rankings|, j);
  }

  lemma OwnRankingListed(results: seq<TargetResult>, timeout: real, visited: seq<string>, protocol: string, x: Ranking)
    requires Listing(results, visited) && x in ProtocolRankings(results, timeout, protocol)
    ensures x in Rankings(results, timeout, visited)
  {
    var i := RankedTarget(results, timeout, protocol, x);
    RankingOfProtocol(results, timeout, protocol, x);
    ListingElements(results, visited, protocol);
    ListingDistinct(results, visited);
    ConcatCount(results, timeout, visited, x);
    SortMultiset(Concat(results, timeout, visited), RankingLe);
    assert x in multiset(Rankings(results, timeout, visited));
  }

  /** A ranking names an eligible target of its own protocol. */
  lemma RankedTarget(results: seq<TargetResult>, timeout: real, protocol: string, x: Ranking) returns (i: nat)
    requires x in ProtocolRankings(results, timeout, protocol)
    ensures i < |results| && Member(protocol, results[i]) && results[i].target.id == x.targetId
  {
    RankingOfProtocol(results, timeout, protocol, x);
    var group := Group(results, protocol);
    var presented := Presented(group, timeout);
    TieAtPlace(group, timeout, x.rank - 1);
    GroupElements(results, protocol);
    i := Find(results, presented[x.rank - 1]);
  }

  lemma RankingOfId(results: seq<TargetResult>, timeout: real, visited: seq<string>, protocol: string, x: Ranking,
                    y: Ranking)
    requires DistinctIds(results) && x in ProtocolRankings(results, timeout, protocol)
    requires y in Rankings(results, timeout, visited) && y.targetId == x.targetId
    ensures y == x
  {
    SortMultiset(Concat(results, timeout, visited), RankingLe);
    SameElements(Concat(results, timeout, visited), Rankings(results, timeout, visited));
    RankingOfConcat(results, timeout, visited, y);
    var i := RankedTarget(results, timeout, protocol, x);
    var j := RankedTarget(results, timeout, y.protocol, y);
    assert i == j;
    RankingOfProtocol(results, timeout, protocol, x);
    RankingOfProtocol(results, timeout, protocol, y);
    RanksAreBijection(results, timeout, protocol);
  }

  lemma RankOrder(results: seq<TargetResult>, rankings: seq<Ranking>, s: seq<TargetResult>)
    requires DistinctIds(results) && forall r :: r in s ==> r in results
    ensures TotalOn(ByRank(rankings, |results|), s)
  {
    ScoreOrder(results, s);
    var le := ByRank(rankings, |results|);
    forall x, y, z | x in s && y in s && z in s && le(x, y) && le(y, z) ensures le(x, z) {
    }
  }

  /** Sorting a protocol's comparable targets by rank gives the presented order,
      so the reference is the rank-one target. */
  lemma EffectsFollowRanks(results: seq<TargetResult>, timeout: real, visited: seq<string>, protocol: string)
    requires DistinctIds(results) && Listing(results, visited)
    ensures Sort(Group(results, protocol), ByRank(Rankings(results, timeout, visited), |results|)) ==
            Presented(Group(results, protocol), timeout)
  {
    var rankings := Rankings(results, timeout, visited);
    var group := Group(results, protocol);
    var presented := Presented(group, timeout);
    var le := ByRank(rankings, |results|);
    PresentedMultiset(group, timeout);
    GroupElements(results, protocol);
    RankOrder(results, rankings, group);
    forall i, j | 0 <= i < j < |presented| ensures le(presented[i], presented[j]) {
      PresentedRank(results, timeout, visited, protocol, i);
      PresentedRank(results, timeout, visited, protocol, j);
    }
    SortUnique(group, presented, le);
  }
}
