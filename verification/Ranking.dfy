/** Ranking the comparable targets of each protocol: a strict score order picks
    one leader, the targets whose intervals overlap the leader's form the only
    tie group, and the tie group is shown first. */
module Ranking {
  import opened Orders
  import opened Text
  import opened Report

  datatype Ranking = Ranking(protocol: string, targetId: string, rank: nat, tie: bool)

  predicate Eligible(r: TargetResult) {
    r.stats.counts.scored > 0 && !r.incomplete && !r.target.local
  }

  // ----- the orders -----

  predicate ScoreLe(x: TargetResult, y: TargetResult) {
    x.stats.score < y.stats.score || (x.stats.score == y.stats.score && StringLe(x.target.id, y.target.id))
  }

  function TieOrderKey(s: Statistics, timeout: real): real {
    0.60 * s.latency.median + s.rates.scoringFailure * timeout
  }

  predicate TieLe(timeout: real, x: TargetResult, y: TargetResult) {
    var a, b := TieOrderKey(x.stats, timeout), TieOrderKey(y.stats, timeout);
    a < b || (a == b && (x.stats.latency.median < y.stats.latency.median ||
                         (x.stats.latency.median == y.stats.latency.median && StringLe(x.target.id, y.target.id))))
  }

  function ByTie(timeout: real): (TargetResult, TargetResult) -> bool {
    (x: TargetResult, y: TargetResult) => TieLe(timeout, x, y)
  }

  predicate RankingLe(x: Ranking, y: Ranking) {
    if x.protocol != y.protocol then StringLe(x.protocol, y.protocol) else x.rank <= y.rank
  }

  /** The interval a target is compared by; a missing one is its score. */
  function Low(s: Statistics): real {
    if s.ciLow == 0.0 && s.ciHigh == 0.0 && s.score != 0.0 then s.score else s.ciLow
  }

  function High(s: Statistics): real {
    if s.ciLow == 0.0 && s.ciHigh == 0.0 && s.score != 0.0 then s.score else s.ciHigh
  }

  predicate Overlap(left: Statistics, right: Statistics) {
    Low(left) <= High(right) && Low(right) <= High(left)
  }

  // ----- the specification -----

  predicate Member(protocol: string, r: TargetResult) {
    Eligible(r) && r.target.protocol == protocol
  }

  function InGroup(protocol: string): TargetResult -> bool {
    (r: TargetResult) => Member(protocol, r)
  }

  function Group(results: seq<TargetResult>, protocol: string): seq<TargetResult> {
    Filter(results, InGroup(protocol), |results|)
  }

  function Ties(leader: TargetResult): TargetResult -> bool {
    (r: TargetResult) => Overlap(leader.stats, r.stats)
  }

  function Apart(leader: TargetResult): TargetResult -> bool {
    (r: TargetResult) => !Overlap(leader.stats, r.stats)
  }

  function ByScore(group: seq<TargetResult>): (r: seq<TargetResult>)
    ensures |r| == |group|
  {
    Sort(group, ScoreLe)
  }

  function TieGroup(group: seq<TargetResult>, timeout: real): seq<TargetResult>
    requires group != []
  {
    var sorted := ByScore(group);
    Sort(Filter(sorted, Ties(sorted[0]), |sorted|), ByTie(timeout))
  }

  function Remaining(group: seq<TargetResult>): seq<TargetResult>
    requires group != []
  {
    var sorted := ByScore(group);
    Filter(sorted, Apart(sorted[0]), |sorted|)
  }

  function Presented(group: seq<TargetResult>, timeout: real): seq<TargetResult> {
    if group == [] then [] else TieGroup(group, timeout) + Remaining(group)
  }

  /** The tie flag at one place of the presented order. */
  predicate TieAt(group: seq<TargetResult>, timeout: real, place: nat)
    requires group != []
  {
    place < |TieGroup(group, timeout)| && |TieGroup(group, timeout)| > 1
  }

  function ProtocolRankings(results: seq<TargetResult>, timeout: real, protocol: string): seq<Ranking> {
    var group := Group(results, protocol);
    var order := Presented(group, timeout);
    seq(|order|, i requires 0 <= i < |order| =>
      Ranking(protocol, order[i].target.id, i + 1, TieAt(group, timeout, i)))
  }

  function Parts(results: seq<TargetResult>, timeout: real, protocols: seq<string>): (r: seq<seq<Ranking>>)
    ensures |r| == |protocols|
  {
    seq(|protocols|, i requires 0 <= i < |protocols| => ProtocolRankings(results, timeout, protocols[i]))
  }

  function Concat(results: seq<TargetResult>, timeout: real, protocols: seq<string>): seq<Ranking> {
    Flatten(Parts(results, timeout, protocols), |protocols|)
  }

  function Rankings(results: seq<TargetResult>, timeout: real, protocols: seq<string>): seq<Ranking> {
    Sort(Concat(results, timeout, protocols), RankingLe)
  }

  /** The protocols of the first k results' eligible targets, each once. */
  function Protocols(results: seq<TargetResult>, k: nat): seq<string>
    requires k <= |results|
  {
    if k == 0 then []
    else
      var front, p := Protocols(results, k - 1), results[k - 1].target.protocol;
      if Eligible(results[k - 1]) && p !in front then front + [p] else front
  }

  /** Any order in which the map of protocol groups may be visited. */
  ghost predicate Listing(results: seq<TargetResult>, visited: seq<string>) {
    multiset(visited) == multiset(Protocols(results, |results|))
  }

  lemma {:induction false} ProtocolsDistinct(results: seq<TargetResult>, k: nat)
    requires k <= |results|
    ensures Distinct(Protocols(results, k))
  {
    if k > 0 { ProtocolsDistinct(results, k - 1); }
  }

  lemma {:induction false} ProtocolsElements(results: seq<TargetResult>, k: nat, p: string)
    requires k <= |results|
    ensures p in Protocols(results, k) <==> exists i :: 0 <= i < k && Member(p, results[i])
  {
    if k > 0 {
      ProtocolsElements(results, k - 1, p);
      if p in Protocols(results, k) && p !in Protocols(results, k - 1) { assert Member(p, results[k - 1]); }
    }
  }

  lemma ListingDistinct(results: seq<TargetResult>, visited: seq<string>)
    requires Listing(results, visited)
    ensures Distinct(visited)
  {
    ProtocolsDistinct(results, |results|);
    DistinctRearranged(Protocols(results, |results|), visited);
  }

  lemma ListingElements(results: seq<TargetResult>, visited: seq<string>, p: string)
    requires Listing(results, visited)
    ensures p in visited <==> exists i :: 0 <= i < |results| && Member(p, results[i])
  {
    ProtocolsElements(results, |results|, p);
    SameElements(Protocols(results, |results|), visited);
  }

  // ----- the group and its orders -----

  lemma GroupElements(results: seq<TargetResult>, protocol: string)
    ensures forall r :: r in Group(results, protocol) <==> Member(protocol, r) && r in results
  {
    FilterElements(results, InGroup(protocol), |results|);
  }

  lemma ScoreOrder(results: seq<TargetResult>, s: seq<TargetResult>)
    requires DistinctIds(results) && forall r :: r in s ==> r in results
    ensures TotalOn(ScoreLe, s)
  {
    StringOrder();
    forall x, y | x in s && y in s && ScoreLe(x, y) && ScoreLe(y, x) ensures x == y {
      var i :| 0 <= i < |results| && results[i] == x;
      var j :| 0 <= j < |results| && results[j] == y;
    }
    forall x, y, z | x in s && y in s && z in s && ScoreLe(x, y) && ScoreLe(y, z) ensures ScoreLe(x, z) {
    }
  }

  lemma TieOrder(results: seq<TargetResult>, s: seq<TargetResult>, timeout: real)
    requires DistinctIds(results) && forall r :: r in s ==> r in results
    ensures TotalOn(ByTie(timeout), s)
  {
    StringOrder();
    var le := ByTie(timeout);
    forall x, y | x in s && y in s && le(x, y) && le(y, x) ensures x == y {
      var i :| 0 <= i < |results| && results[i] == x;
      var j :| 0 <= j < |results| && results[j] == y;
    }
    forall x, y, z | x in s && y in s && z in s && le(x, y) && le(y, z) ensures le(x, z) {
    }
  }

  lemma ByScoreElements(group: seq<TargetResult>)
    ensures forall r :: r in ByScore(group) <==> r in group
    ensures multiset(ByScore(group)) == multiset(group)
  {
    SortMultiset(group, ScoreLe);
    SameElements(ByScore(group), group);
  }

  lemma TieGroupElements(group: seq<TargetResult>, timeout: real)
    requires group != []
    ensures forall r :: r in TieGroup(group, timeout) <==> r in group && Overlap(ByScore(group)[0].stats, r.stats)
    ensures forall r :: r in Remaining(group) <==> r in group && !Overlap(ByScore(group)[0].stats, r.stats)
  {
    var sorted := ByScore(group);
    ByScoreElements(group);
    var tied := Filter(sorted, Ties(sorted[0]), |sorted|);
    FilterElements(sorted, Ties(sorted[0]), |sorted|);
    FilterElements(sorted, Apart(sorted[0]), |sorted|);
    SortMultiset(tied, ByTie(timeout));
    SameElements(TieGroup(group, timeout), tied);
  }

  /** Presenting a group rearranges it: nobody is lost or listed twice. */
  lemma PresentedMultiset(group: seq<TargetResult>, timeout: real)
    ensures multiset(Presented(group, timeout)) == multiset(group)
  {
    if group != [] {
      var sorted := ByScore(group);
      ByScoreElements(group);
      FilterSplit(sorted, Ties(sorted[0]), Apart(sorted[0]), |sorted|);
      assert sorted[..|sorted|] == sorted;
      SortMultiset(Filter(sorted, Ties(sorted[0]), |sorted|), ByTie(timeout));
    }
  }

  // ----- what the rankings promise -----

  /** A target overlaps itself exactly when its interval is not inverted. */
  lemma SelfOverlap(s: Statistics)
    ensures Overlap(s, s) <==> s.ciLow <= s.ciHigh
  {
  }

  /** The leader joins its own tie group, so the group has a first element. */
  lemma LeaderInTieGroup(group: seq<TargetResult>, timeout: real)
    requires group != [] && forall r :: r in group ==> r.stats.ciLow <= r.stats.ciHigh
    ensures ByScore(group)[0] in TieGroup(group, timeout) && |TieGroup(group, timeout)| > 0
  {
    ByScoreElements(group);
    var leader := ByScore(group)[0];
    assert leader in ByScore(group);
    SelfOverlap(leader.stats);
    TieGroupElements(group, timeout);
  }

  /** The group is empty exactly when no member overlaps the leader; without the
      bound on intervals one target alone is enough. */
  lemma TieGroupEmpty(group: seq<TargetResult>, timeout: real)
    requires group != []
    ensures TieGroup(group, timeout) == [] <==>
            forall r :: r in group ==> !Overlap(ByScore(group)[0].stats, r.stats)
    ensures |group| == 1 && group[0].stats.ciLow > group[0].stats.ciHigh ==> TieGroup(group, timeout) == []
  {
    TieGroupElements(group, timeout);
    ByScoreElements(group);
    var tied := TieGroup(group, timeout);
    assert tied != [] ==> tied[0] in tied;
    if |group| == 1 {
      assert ByScore(group)[0] in ByScore(group);
      assert ByScore(group)[0] == group[0];
    }
  }

  function Ids(results: seq<TargetResult>): (r: seq<string>)
    ensures |r| == |results| && forall i :: 0 <= i < |r| ==> r[i] == results[i].target.id
  {
    seq(|results|, i requires 0 <= i < |results| => results[i].target.id)
  }

  lemma DistinctResults(results: seq<TargetResult>)
    requires DistinctIds(results)
    ensures Distinct(results)
  {
  }

  /** One protocol's ranks are a bijection of its eligible targets onto 1..n: the
      rank at each place is its position, and the places hold each eligible target
      exactly once. */
  lemma RanksAreBijection(results: seq<TargetResult>, timeout: real, protocol: string)
    requires DistinctIds(results)
    ensures var order := Presented(Group(results, protocol), timeout);
            var rankings := ProtocolRankings(results, timeout, protocol);
            && multiset(order) == multiset(Group(results, protocol))
            && |rankings| == |Group(results, protocol)|
            && (forall i :: 0 <= i < |rankings| ==>
                  rankings[i].rank == i + 1 && rankings[i].targetId == order[i].target.id)
            && (forall i, j :: 0 <= i < j < |rankings| ==> rankings[i].targetId != rankings[j].targetId)
  {
    var group := Group(results, protocol);
    var order := Presented(group, timeout);
    PresentedMultiset(group, timeout);
    SameElements(order, group);
    GroupElements(results, protocol);
    forall i, j | 0 <= i < j < |order| ensures order[i].target.id != order[j].target.id {
      if order[i].target.id == order[j].target.id {
        assert order[i] in group && order[j] in group;
        assert order[i] == order[j];
        RepeatedElement(order, i, j);
        DistinctResults(results);
        GroupCountAtMostOne(results, protocol, order[i]);
      }
    }
  }

  lemma GroupCountAtMostOne(results: seq<TargetResult>, protocol: string, r: TargetResult)
    requires Distinct(results)
    ensures multiset(Group(results, protocol))[r] <= 1
  {
    FilterCount(results, InGroup(protocol), |results|, r);
    DistinctCount(results, r);
    assert results[..|results|] == results;
  }

  /** Tie is set exactly on the targets that overlap the leader, when there are at
      least two of them. */
  predicate TieFlag(group: seq<TargetResult>, timeout: real, r: TargetResult) {
    group != [] && Overlap(ByScore(group)[0].stats, r.stats) && |TieGroup(group, timeout)| > 1
  }

  lemma TieAtPlace(group: seq<TargetResult>, timeout: real, i: nat)
    requires group != [] && i < |Presented(group, timeout)|
    ensures var r := Presented(group, timeout)[i];
            && r in group
            && TieAt(group, timeout, i) == TieFlag(group, timeout, r)
            && (i < |TieGroup(group, timeout)| <==> Overlap(ByScore(group)[0].stats, r.stats))
  {
    TieGroupElements(group, timeout);
    var tied, rest := TieGroup(group, timeout), Remaining(group);
    if i < |tied| {
      assert tied[i] in tied;
    } else {
      assert rest[i - |tied|] in rest;
    }
  }

  /** The flags a reader sees are the definition's, and everyone who overlaps the
      leader comes before everyone who does not. */
  lemma TiesComeFirst(results: seq<TargetResult>, timeout: real, protocol: string, i: nat, j: nat)
    requires i < j < |ProtocolRankings(results, timeout, protocol)|
    ensures var group := Group(results, protocol);
            var order, leader := Presented(group, timeout), ByScore(group)[0].stats;
            var rankings := ProtocolRankings(results, timeout, protocol);
            && (rankings[i].tie <==> TieFlag(group, timeout, order[i]))
            && (rankings[j].tie <==> TieFlag(group, timeout, order[j]))
            && (Overlap(leader, order[j].stats) ==> Overlap(leader, order[i].stats))
  {
    TieAtPlace(Group(results, protocol), timeout, i);
    TieAtPlace(Group(results, protocol), timeout, j);
  }

  /** Inside the tie group the order is by key, median and ID; outside it is the
      strict score order. */
  lemma PresentedOrders(results: seq<TargetResult>, timeout: real, protocol: string)
    requires DistinctIds(results) && Group(results, protocol) != []
    ensures var group := Group(results, protocol);
            Ascending(TieGroup(group, timeout), ByTie(timeout)) && Ascending(Remaining(group), ScoreLe)
  {
    var group := Group(results, protocol);
    var sorted := ByScore(group);
    GroupElements(results, protocol);
    ByScoreElements(group);
    ScoreOrder(results, group);
    SortAscending(group, ScoreLe);
    FilterAscending(sorted, Apart(sorted[0]), ScoreLe, |sorted|);
    FilterElements(sorted, Ties(sorted[0]), |sorted|);
    TieOrder(results, Filter(sorted, Ties(sorted[0]), |sorted|), timeout);
    SortAscending(Filter(sorted, Ties(sorted[0]), |sorted|), ByTie(timeout));
  }

  lemma {:induction false} FilterAscending<T(!new)>(s: seq<T>, keep: T -> bool, le: (T, T) -> bool, k: nat)
    requires k <= |s| && Ascending(s, le)
    ensures Ascending(Filter(s, keep, k), le)
  {
    if k > 0 {
      FilterAscending(s, keep, le, k - 1);
      FilterElements(s, keep, k - 1);
      var front := Filter(s, keep, k - 1);
      forall i | 0 <= i < |front| ensures le(front[i], s[k - 1]) {
        assert front[i] in front;
        var j :| 0 <= j < k - 1 && s[j] == front[i];
        assert le(s[j], s[k - 1]);
      }
    }
  }

  /** Interval overlap is not transitive, which is why one leader anchors the tie
      group: a overlaps b and b overlaps c, yet a and c are apart. */
  lemma OverlapNotTransitive(s: Statistics)
    ensures var a := s.(ciLow := 1.0, ciHigh := 3.0);
            var b := s.(ciLow := 2.0, ciHigh := 5.0);
            var c := s.(ciLow := 4.0, ciHigh := 6.0);
            Overlap(a, b) && Overlap(b, c) && !Overlap(a, c)
  {
  }

  // ----- the rankings in the terms of the report -----

  /** The interval is missing: it is empty at zero although there is a score. */
  predicate NoInterval(s: Statistics) {
    s.ciLow == 0.0 && s.ciHigh == 0.0 && s.score != 0.0
  }

  /** Two targets' intervals meet; a missing one is the score alone. */
  predicate Meet(x: Statistics, y: Statistics) {
    if NoInterval(x) && NoInterval(y) then x.score == y.score
    else if NoInterval(x) then y.ciLow <= x.score <= y.ciHigh
    else if NoInterval(y) then x.ciLow <= y.score <= x.ciHigh
    else x.ciLow <= y.ciHigh && y.ciLow <= x.ciHigh
  }

  /** x scores less than y, or as much and its ID is not the later one. */
  predicate Ahead(x: TargetResult, y: TargetResult) {
    x.stats.score <= y.stats.score && (x.stats.score == y.stats.score ==> StringLe(x.target.id, y.target.id))
  }

  /** What ties are ordered by, ten times over: the median counts six tenths of itself
      and the failures their share of the timeout. */
  function TenfoldKey(s: Statistics, timeout: real): real {
    6.0 * s.latency.median + 10.0 * s.rates.scoringFailure * timeout
  }

  predicate TieAhead(timeout: real, x: TargetResult, y: TargetResult) {
    var a, b := TenfoldKey(x.stats, timeout), TenfoldKey(y.stats, timeout);
    && a <= b
    && (a == b ==> x.stats.latency.median <= y.stats.latency.median)
    && (a == b && x.stats.latency.median == y.stats.latency.median ==> StringLe(x.target.id, y.target.id))
  }

  lemma OrdersSpelledOut(timeout: real, x: TargetResult, y: TargetResult)
    ensures ScoreLe(x, y) <==> Ahead(x, y)
    ensures TieLe(timeout, x, y) <==> TieAhead(timeout, x, y)
    ensures Overlap(x.stats, y.stats) <==> Meet(x.stats, y.stats)
  {
  }

  /** The rankings of a protocol. leader is the member of the group with the least
      score, and the least ID among those. The first t places are exactly the members
      whose intervals meet the leader's, ordered as ties are; the others follow, never
      falling in score. The places say the rank, and Tie is set on the first t when
      there are at least two of them. */
  lemma RankingsSpelledOut(results: seq<TargetResult>, timeout: real, protocol: string)
    returns (leader: TargetResult, t: nat, order: seq<TargetResult>)
    requires DistinctIds(results) && Group(results, protocol) != []
    ensures multiset(order) == multiset(Group(results, protocol)) && t <= |order|
    ensures forall r :: r in order <==>
              r in results && r.target.protocol == protocol && r.stats.counts.scored > 0 && !r.incomplete &&
              !r.target.local
    ensures leader in order && forall i :: 0 <= i < |order| ==> Ahead(leader, order[i])
    ensures forall i :: 0 <= i < |order| ==> (i < t <==> Meet(leader.stats, order[i].stats))
    ensures forall i, j :: t <= i < j < |order| ==> Ahead(order[i], order[j])
    ensures forall i, j :: 0 <= i < j < t ==> TieAhead(timeout, order[i], order[j])
    ensures var rankings := ProtocolRankings(results, timeout, protocol);
            && |rankings| == |order|
            && forall i :: 0 <= i < |order| ==>
                 rankings[i] == Ranking(protocol, order[i].target.id, i + 1, i < t && t > 1)
  {
    hide ScoreLe, TieLe, Overlap, Ahead, TieAhead, Meet, TieGroup, Remaining, ByScore;
    var group := Group(results, protocol);
    order, t, leader := Presented(group, timeout), |TieGroup(group, timeout)|, ByScore(group)[0];
    PresentedMultiset(group, timeout);
    SameElements(order, group);
    GroupElements(results, protocol);
    PresentedOrders(results, timeout, protocol);
    LeaderIsLeast(results, protocol, leader);
    forall i | 0 <= i < |order| ensures Ahead(leader, order[i]) && (i < t <==> Meet(leader.stats, order[i].stats)) {
      assert order[i] in group;
      OrdersSpelledOut(timeout, leader, order[i]);
      TieAtPlace(group, timeout, i);
    }
    var tied, rest := TieGroup(group, timeout), Remaining(group);
    forall i, j | t <= i < j < |order| ensures Ahead(order[i], order[j]) {
      OrdersSpelledOut(timeout, order[i], order[j]);
      assert order[i] == rest[i - t] && order[j] == rest[j - t];
    }
    forall i, j | 0 <= i < j < t ensures TieAhead(timeout, order[i], order[j]) {
      OrdersSpelledOut(timeout, order[i], order[j]);
      assert order[i] == tied[i] && order[j] == tied[j] && ByTie(timeout)(tied[i], tied[j]);
    }
  }

  lemma LeaderIsLeast(results: seq<TargetResult>, protocol: string, leader: TargetResult)
    requires DistinctIds(results) && Group(results, protocol) != []
    requires leader == ByScore(Group(results, protocol))[0]
    ensures leader in Group(results, protocol)
    ensures forall r :: r in Group(results, protocol) ==> ScoreLe(leader, r)
  {
    hide ScoreLe;
    var group := Group(results, protocol);
    GroupElements(results, protocol);
    ScoreOrder(results, group);
    ByScoreElements(group);
    SortAscending(group, ScoreLe);
    assert ByScore(group)[0] in ByScore(group);
    assert TotalOn(ScoreLe, ByScore(group));
    forall r | r in group ensures ScoreLe(leader, r) {
      HeadIsLeast(ByScore(group), r, ScoreLe);
    }
  }

  // ----- independence of the input order -----

  lemma GroupPermutation(results: seq<TargetResult>, others: seq<TargetResult>, timeout: real, protocol: string)
    requires DistinctIds(results) && multiset(results) == multiset(others)
    ensures Presented(Group(results, protocol), timeout) == Presented(Group(others, protocol), timeout)
    ensures ProtocolRankings(results, timeout, protocol) == ProtocolRankings(others, timeout, protocol)
  {
    var group, other := Group(results, protocol), Group(others, protocol);
    FilterPermutation(results, others, InGroup(protocol));
    SameElements(group, other);
    GroupElements(results, protocol);
    ScoreOrder(results, group);
    SortPermutation(group, other, ScoreLe);
  }

  lemma RankingOfProtocol(results: seq<TargetResult>, timeout: real, protocol: string, x: Ranking)
    requires x in ProtocolRankings(results, timeout, protocol)
    ensures x.protocol == protocol
    ensures var own := ProtocolRankings(results, timeout, protocol); 1 <= x.rank <= |own| && own[x.rank - 1] == x
  {
    var own := ProtocolRankings(results, timeout, protocol);
    var i :| 0 <= i < |own| && own[i] == x;
  }

  lemma RankingOfConcat(results: seq<TargetResult>, timeout: real, protocols: seq<string>, x: Ranking)
    requires x in Concat(results, timeout, protocols)
    ensures x in ProtocolRankings(results, timeout, x.protocol) && x.protocol in protocols
  {
    var parts := Parts(results, timeout, protocols);
    var j := FlattenMember(parts, |protocols|, x);
    RankingOfProtocol(results, timeout, protocols[j], x);
  }

  lemma RankingAntisymmetric(results: seq<TargetResult>, timeout: real, protocols: seq<string>, x: Ranking, y: Ranking)
    requires x in Concat(results, timeout, protocols) && y in Concat(results, timeout, protocols)
    requires x.protocol == y.protocol && x.rank == y.rank
    ensures x == y
  {
    RankingOfConcat(results, timeout, protocols, x);
    RankingOfConcat(results, timeout, protocols, y);
    RankingOfProtocol(results, timeout, x.protocol, x);
    RankingOfProtocol(results, timeout, y.protocol, y);
  }

  lemma RankingOrder(results: seq<TargetResult>, timeout: real, protocols: seq<string>)
    ensures TotalOn(RankingLe, Concat(results, timeout, protocols))
  {
    StringOrder();
    var all := Concat(results, timeout, protocols);
    forall x, y | x in all && y in all && RankingLe(x, y) && RankingLe(y, x) ensures x == y {
      RankingAntisymmetric(results, timeout, protocols, x, y);
    }
    forall x, y, z | x in all && y in all && z in all && RankingLe(x, y) && RankingLe(y, z) ensures RankingLe(x, z) {
    }
  }

  /** A ranking occurs as often as in its own protocol's part, if that is listed. */
  lemma ConcatCount(results: seq<TargetResult>, timeout: real, protocols: seq<string>, x: Ranking)
    requires Distinct(protocols)
    ensures multiset(Concat(results, timeout, protocols))[x] ==
            if x.protocol in protocols then multiset(ProtocolRankings(results, timeout, x.protocol))[x] else 0
  {
    var parts := Parts(results, timeout, protocols);
    forall j | 0 <= j < |parts| && x in parts[j] ensures protocols[j] == x.protocol {
      RankingOfProtocol(results, timeout, protocols[j], x);
    }
    if x.protocol in protocols {
      var owner :| 0 <= owner < |protocols| && protocols[owner] == x.protocol;
      FlattenCount(parts, |parts|, x, owner);
    } else if x in Concat(results, timeout, protocols) {
      RankingOfConcat(results, timeout, protocols, x);
    }
  }

  lemma ConcatPermutation(results: seq<TargetResult>, timeout: real, ps: seq<string>, qs: seq<string>)
    requires Distinct(ps) && Distinct(qs) && forall p :: p in ps <==> p in qs
    ensures multiset(Concat(results, timeout, ps)) == multiset(Concat(results, timeout, qs))
  {
    var a, b := multiset(Concat(results, timeout, ps)), multiset(Concat(results, timeout, qs));
    forall x ensures a[x] == b[x] {
      ConcatCount(results, timeout, ps, x);
      ConcatCount(results, timeout, qs, x);
    }
  }

  lemma ConcatSame(results: seq<TargetResult>, others: seq<TargetResult>, timeout: real, ps: seq<string>)
    requires DistinctIds(results) && multiset(results) == multiset(others)
    ensures Concat(results, timeout, ps) == Concat(others, timeout, ps)
  {
    forall i | 0 <= i < |ps| ensures Parts(results, timeout, ps)[i] == Parts(others, timeout, ps)[i] {
      GroupPermutation(results, others, timeout, ps[i]);
    }
    assert Parts(results, timeout, ps) == Parts(others, timeout, ps);
  }

  /** With distinct IDs the rankings do not depend on the order of the results nor
      on the order in which the protocol map is visited. */
  lemma RankingsInvariant(results: seq<TargetResult>, others: seq<TargetResult>, timeout: real, ps: seq<string>,
                          qs: seq<string>)
    requires DistinctIds(results) && multiset(results) == multiset(others)
    requires Listing(results, ps) && Listing(others, qs)
    ensures Rankings(results, timeout, ps) == Rankings(others, timeout, qs)
  {
    SameElements(results, others);
    ListingDistinct(results, ps);
    ListingDistinct(others, qs);
    forall p ensures p in ps <==> p in qs {
      ListingElements(results, ps, p);
      ListingElements(others, qs, p);
      assert (exists i :: 0 <= i < |results| && Member(p, results[i])) <==> (exists r :: r in results && Member(p, r));
      assert (exists i :: 0 <= i < |others| && Member(p, others[i])) <==> (exists r :: r in others && Member(p, r));
    }
    ConcatPermutation(results, timeout, ps, qs);
    ConcatSame(results, others, timeout, qs);
    RankingOrder(results, timeout, ps);
    SortPermutation(Concat(results, timeout, ps), Concat(others, timeout, qs), RankingLe);
  }

  /** The rankings of a run are those of its protocols, each protocol's in a row: by
      protocol name, and within a protocol by rank from one. */
  lemma RankingsListed(results: seq<TargetResult>, timeout: real, visited: seq<string>)
    requires DistinctIds(results) && Listing(results, visited)
    ensures var all := Rankings(results, timeout, visited);
            && (forall x :: x in all <==> x in ProtocolRankings(results, timeout, x.protocol))
            && forall i, j :: 0 <= i < j < |all| ==>
                 || (all[i].protocol != all[j].protocol && StringLe(all[i].protocol, all[j].protocol))
                 || (all[i].protocol == all[j].protocol && all[i].rank <= all[j].rank)
  {
    hide ProtocolRankings, Listing;
    var concat, all := Concat(results, timeout, visited), Rankings(results, timeout, visited);
    ListingDistinct(results, visited);
    RankingOrder(results, timeout, visited);
    SortAscending(concat, RankingLe);
    SortMultiset(concat, RankingLe);
    SameElements(concat, all);
    forall x ensures x in all <==> x in ProtocolRankings(results, timeout, x.protocol) {
      ConcatCount(results, timeout, visited, x);
      assert x in all <==> x in multiset(concat);
      assert x in ProtocolRankings(results, timeout, x.protocol) <==>
             x in multiset(ProtocolRankings(results, timeout, x.protocol));
      if x in ProtocolRankings(results, timeout, x.protocol) { RankedProtocol(results, timeout, x.protocol); }
      ListingElements(results, visited, x.protocol);
    }
  }

  lemma RankedProtocol(results: seq<TargetResult>, timeout: real, protocol: string)
    requires ProtocolRankings(results, timeout, protocol) != []
    ensures exists i :: 0 <= i < |results| && Member(protocol, results[i])
  {
    hide TieGroup, Remaining;
    var group := Group(results, protocol);
    GroupElements(results, protocol);
    assert group[0] in group;
  }

  // ----- the loops -----

  predicate SameButTie(x: TargetResult, y: TargetResult, tie: bool) {
    y == x.(stats := x.stats.(tie := tie))
  }

  ghost predicate GroupIndexes(results: seq<TargetResult>, protocol: string, indexes: seq<nat>) {
    && Below(indexes, |results|)
    && Distinct(indexes)
    && Pick(results, indexes) == Group(results, protocol)
    && forall i :: 0 <= i < |results| && Member(protocol, results[i]) ==> i in indexes
  }

  /** byProtocol: the indexes of one protocol's eligible targets, in order. */
  method CollectGroup(results: seq<TargetResult>, protocol: string) returns (indexes: seq<nat>)
    ensures GroupIndexes(results, protocol, indexes)
  {
    indexes := [];
    for i := 0 to |results|
      invariant Below(indexes, i) && Distinct(indexes)
      invariant Pick(results, indexes) == Filter(results, InGroup(protocol), i)
      invariant forall k :: 0 <= k < i && Member(protocol, results[k]) ==> k in indexes
    {
      if Member(protocol, results[i]) {
        assert Pick(results, indexes + [i]) == Pick(results, indexes) + [results[i]];
        indexes := indexes + [i];
      }
    }
  }

  /** The leader's overlapping members, and the rest, each in score order. */
  method SplitGroup(results: seq<TargetResult>, leader: TargetResult, indexes: seq<nat>)
    returns (tieGroup: seq<nat>, remaining: seq<nat>)
    requires Below(indexes, |results|)
    ensures tieGroup == Filter(indexes, KeepByValue(results, Ties(leader)), |indexes|)
    ensures remaining == Filter(indexes, KeepByValue(results, Apart(leader)), |indexes|)
  {
    tieGroup, remaining := [], [];
    for k := 0 to |indexes|
      invariant tieGroup == Filter(indexes, KeepByValue(results, Ties(leader)), k)
      invariant remaining == Filter(indexes, KeepByValue(results, Apart(leader)), k)
    {
      if Overlap(leader.stats, results[indexes[k]].stats) {
        tieGroup := tieGroup + [indexes[k]];
      } else {
        remaining := remaining + [indexes[k]];
      }
    }
  }

  /** The presented order of one group, as indexes. The library sorts are any
      sorts: with distinct IDs both orders are total, so there is one result. */
  method OrderGroup(results: seq<TargetResult>, timeout: real, ghost group: seq<TargetResult>, indexes: seq<nat>)
    returns (order: seq<nat>, ties: nat)
    requires Below(indexes, |results|) && Pick(results, indexes) == group && group != []
    ensures Below(order, |results|) && Pick(results, order) == Presented(group, timeout)
    ensures ties == |TieGroup(group, timeout)| <= |order|
    ensures multiset(order) == multiset(indexes)
  {
    hide *;
    var sorted := Sort(indexes, ByValue(results, ScoreLe));
    SortedIndexes(results, group, indexes);
    var tieGroup, remaining := SplitGroup(results, results[sorted[0]], sorted);
    var tied := Sort(tieGroup, ByValue(results, ByTie(timeout)));
    SortMultiset(tieGroup, ByValue(results, ByTie(timeout)));
    TiedIndexes(results, timeout, group, sorted, tieGroup, tied);
    RemainingIndexes(results, group, sorted, remaining);
    order, ties := tied + remaining, |tied|;
    PresentedIndexes(results, timeout, group, tied, remaining);
    SplitKeepsAll(results, results[sorted[0]], sorted, tieGroup, remaining, tied);
  }

  lemma PresentedIndexes(results: seq<TargetResult>, timeout: real, group: seq<TargetResult>, tied: seq<nat>,
                         remaining: seq<nat>)
    requires Below(tied, |results|) && Below(remaining, |results|) && group != []
    requires Pick(results, tied) == TieGroup(group, timeout) && Pick(results, remaining) == Remaining(group)
    ensures Below(tied + remaining, |results|) && Pick(results, tied + remaining) == Presented(group, timeout)
  {
    assert Pick(results, tied + remaining) == Pick(results, tied) + Pick(results, remaining);
  }

  lemma SortedIndexes(results: seq<TargetResult>, group: seq<TargetResult>, indexes: seq<nat>)
    requires Below(indexes, |results|) && Pick(results, indexes) == group
    ensures var sorted := Sort(indexes, ByValue(results, ScoreLe));
            Below(sorted, |results|) && Pick(results, sorted) == ByScore(group) && multiset(sorted) == multiset(indexes)
  {
    PickSort(results, indexes, ScoreLe);
    SortMultiset(indexes, ByValue(results, ScoreLe));
  }

  lemma TiedIndexes(results: seq<TargetResult>, timeout: real, group: seq<TargetResult>, sorted: seq<nat>,
                    tieGroup: seq<nat>, tied: seq<nat>)
    requires group != [] && Below(sorted, |results|) && Pick(results, sorted) == ByScore(group)
    requires tieGroup == Filter(sorted, KeepByValue(results, Ties(results[sorted[0]])), |sorted|)
    requires tied == Sort(tieGroup, ByValue(results, ByTie(timeout)))
    ensures Below(tied, |results|) && Pick(results, tied) == TieGroup(group, timeout)
  {
    assert results[sorted[0]] == Pick(results, sorted)[0];
    PickFilter(results, sorted, Ties(results[sorted[0]]), |sorted|);
    PickSort(results, tieGroup, ByTie(timeout));
  }

  lemma RemainingIndexes(results: seq<TargetResult>, group: seq<TargetResult>, sorted: seq<nat>, remaining: seq<nat>)
    requires group != [] && Below(sorted, |results|) && Pick(results, sorted) == ByScore(group)
    requires remaining == Filter(sorted, KeepByValue(results, Apart(results[sorted[0]])), |sorted|)
    ensures Below(remaining, |results|) && Pick(results, remaining) == Remaining(group)
  {
    assert results[sorted[0]] == Pick(results, sorted)[0];
    PickFilter(results, sorted, Apart(results[sorted[0]]), |sorted|);
  }

  lemma SplitKeepsAll(results: seq<TargetResult>, leader: TargetResult, sorted: seq<nat>, tieGroup: seq<nat>,
                      remaining: seq<nat>, tied: seq<nat>)
    requires Below(sorted, |results|) && multiset(tied) == multiset(tieGroup)
    requires tieGroup == Filter(sorted, KeepByValue(results, Ties(leader)), |sorted|)
    requires remaining == Filter(sorted, KeepByValue(results, Apart(leader)), |sorted|)
    ensures multiset(tied + remaining) == multiset(sorted)
  {
    FilterSplit(sorted, KeepByValue(results, Ties(leader)), KeepByValue(results, Apart(leader)), |sorted|);
    assert sorted[..|sorted|] == sorted;
  }

  /** Number the presented order and set the tie flags in place. */
  method NumberOrder(results: array<TargetResult>, protocol: string, order: seq<nat>, ties: nat)
    returns (rankings: seq<Ranking>)
    requires Below(order, results.Length) && Distinct(order) && 0 < ties <= |order|
    modifies results
    ensures |rankings| == |order|
    ensures forall k :: 0 <= k < |order| ==>
              && rankings[k] == Ranking(protocol, old(results[order[k]]).target.id, k + 1, k < ties && ties > 1)
              && SameButTie(old(results[order[k]]), results[order[k]], k < ties && ties > 1)
    ensures forall i :: 0 <= i < results.Length && i !in order ==> results[i] == old(results[i])
  {
    var leaderTie := ties > 1;
    rankings := [];
    for rank := 0 to |order|
      invariant |rankings| == rank
      invariant forall k :: 0 <= k < rank ==>
                  && rankings[k] == Ranking(protocol, old(results[order[k]]).target.id, k + 1, k < ties && leaderTie)
                  && SameButTie(old(results[order[k]]), results[order[k]], k < ties && leaderTie)
      invariant forall k :: rank <= k < |order| ==> results[order[k]] == old(results[order[k]])
      invariant forall i :: 0 <= i < results.Length && i !in order ==> results[i] == old(results[i])
    {
      var index := order[rank];
      var tie := rank < ties && leaderTie;
      results[index] := results[index].(stats := results[index].stats.(tie := tie));
      rankings := rankings + [Ranking(protocol, results[index].target.id, rank + 1, tie)];
    }
    // The first of the tie group exists because the leader overlaps itself.
    var first := order[0];
    results[first] := results[first].(stats := results[first].stats.(tie := leaderTie));
    rankings := rankings[0 := rankings[0].(tie := leaderTie)];
  }

  /** One protocol's turn. */
  method RankProtocol(results: array<TargetResult>, timeout: real, protocol: string, indexes: seq<nat>,
                      ghost was: seq<TargetResult>)
    returns (rankings: seq<Ranking>)
    requires |was| == results.Length && GroupIndexes(was, protocol, indexes) && indexes != []
    requires ValidIntervals(was)
    requires forall i :: i in indexes ==> results[i] == was[i]
    modifies results
    ensures rankings == ProtocolRankings(was, timeout, protocol)
    ensures forall i :: 0 <= i < |was| && i in indexes ==>
              SameButTie(was[i], results[i], TieFlag(Group(was, protocol), timeout, was[i]))
    ensures forall i :: 0 <= i < |was| && i !in indexes ==> results[i] == old(results[i])
  {
    ghost var group := Group(was, protocol);
    GroupIntervals(was, protocol);
    assert Pick(results[..], indexes) == group;
    hide Group, Presented, TieGroup, ByScore, Overlap, TieFlag, Remaining;
    var order, ties := OrderGroup(results[..], timeout, group, indexes);
    DistinctRearranged(indexes, order);
    LeaderInTieGroup(group, timeout);
    PickedUnchanged(was, results[..], indexes, order);
    rankings := NumberOrder(results, protocol, order, ties);
    RankingsOfOrder(was, timeout, protocol, order, rankings);
    assert forall i :: i in indexes <==> i in order by { SameElements(order, indexes); }
    forall i | 0 <= i < |was| && i in indexes
      ensures SameButTie(was[i], results[i], TieFlag(group, timeout, was[i]))
    {
      var k :| 0 <= k < |order| && order[k] == i;
      TieAtPlace(group, timeout, k);
      assert Pick(was, order)[k] == was[i];
    }
  }

  lemma GroupIntervals(was: seq<TargetResult>, protocol: string)
    requires ValidIntervals(was)
    ensures forall r :: r in Group(was, protocol) ==> r.stats.ciLow <= r.stats.ciHigh
  {
    GroupElements(was, protocol);
  }

  lemma RankingsOfOrder(was: seq<TargetResult>, timeout: real, protocol: string, order: seq<nat>,
                        rankings: seq<Ranking>)
    requires Below(order, |was|) && Group(was, protocol) != []
    requires Pick(was, order) == Presented(Group(was, protocol), timeout) && |rankings| == |order|
    requires var ties := |TieGroup(Group(was, protocol), timeout)|;
             forall k :: 0 <= k < |order| ==>
               rankings[k] == Ranking(protocol, was[order[k]].target.id, k + 1, k < ties && ties > 1)
    ensures rankings == ProtocolRankings(was, timeout, protocol)
  {
    var presented := Presented(Group(was, protocol), timeout);
    assert forall k :: 0 <= k < |order| ==> presented[k] == was[order[k]];
  }

  lemma PickedUnchanged(was: seq<TargetResult>, now: seq<TargetResult>, indexes: seq<nat>, order: seq<nat>)
    requires |was| == |now| && Below(indexes, |was|) && Below(order, |was|)
    requires multiset(indexes) == multiset(order)
    requires forall k :: 0 <= k < |indexes| ==> now[indexes[k]] == was[indexes[k]]
    ensures Pick(was, order) == Pick(now, order)
    ensures forall k :: 0 <= k < |order| ==> now[order[k]] == was[order[k]]
  {
    SameElements(order, indexes);
    forall k | 0 <= k < |order| ensures now[order[k]] == was[order[k]] {
      assert order[k] in indexes;
    }
  }

  /** Rankable targets have intervals that are not inverted. */
  ghost predicate ValidIntervals(results: seq<TargetResult>) {
    forall i :: 0 <= i < |results| && Eligible(results[i]) ==> results[i].stats.ciLow <= results[i].stats.ciHigh
  }

  method VisitProtocol(results: array<TargetResult>, timeout: real, visited: seq<string>, k: nat,
                       was: seq<TargetResult>)
    returns (part: seq<Ranking>)
    requires Listing(was, visited) && k < |visited| && ValidIntervals(was) && |was| == results.Length
    requires VisitedUpTo(was, timeout, visited, k, results[..])
    modifies results
    ensures part == ProtocolRankings(was, timeout, visited[k])
    ensures VisitedUpTo(was, timeout, visited, k + 1, results[..])
  {
    var indexes := CollectGroup(was, visited[k]);
    VisitedNotEmpty(was, visited, k, indexes);
    IndexesAreMembers(was, visited[k], indexes);
    ghost var before := results[..];
    ListingDistinct(was, visited);
    MembersUntouched(was, timeout, visited, k, indexes, before);
    part := RankProtocol(results, timeout, visited[k], indexes, was);
    VisitStep(was, timeout, visited, k, indexes, before, results[..]);
  }

  /** makeRankings: whatever order the protocol map is visited in, the rankings
      are the specified ones and exactly the ranked targets' tie flags change. */
  method MakeRankings(results: array<TargetResult>, timeout: real, visited: seq<string>)
    returns (rankings: seq<Ranking>)
    requires Listing(results[..], visited) && ValidIntervals(results[..])
    modifies results
    ensures rankings == Rankings(old(results[..]), timeout, visited)
    ensures forall i :: 0 <= i < results.Length ==> Flagged(old(results[..]), timeout, i, results[i])
  {
    hide *;
    var was := results[..];
    rankings := [];
    NothingVisited(was, timeout, visited);
    for k := 0 to |visited|
      invariant rankings == Flatten(Parts(was, timeout, visited), k)
      invariant VisitedUpTo(was, timeout, visited, k, results[..])
    {
      var part := VisitProtocol(results, timeout, visited, k, was);
      ConcatStep(was, timeout, visited, k);
      rankings := rankings + part;
    }
    rankings := Sort(rankings, RankingLe);
    RankingsAreSorted(was, timeout, visited);
    AllVisited(was, timeout, visited, results[..]);
  }

  lemma NothingVisited(was: seq<TargetResult>, timeout: real, visited: seq<string>)
    ensures VisitedUpTo(was, timeout, visited, 0, was)
    ensures Flatten(Parts(was, timeout, visited), 0) == []
  {
  }

  lemma ConcatStep(was: seq<TargetResult>, timeout: real, visited: seq<string>, k: nat)
    requires k < |visited|
    ensures Flatten(Parts(was, timeout, visited), k + 1) ==
            Flatten(Parts(was, timeout, visited), k) + ProtocolRankings(was, timeout, visited[k])
  {
  }

  lemma RankingsAreSorted(was: seq<TargetResult>, timeout: real, visited: seq<string>)
    ensures Rankings(was, timeout, visited) == Sort(Flatten(Parts(was, timeout, visited), |visited|), RankingLe)
  {
  }

  /** After k protocols, exactly their members carry their flags. */
  ghost predicate VisitedUpTo(was: seq<TargetResult>, timeout: real, visited: seq<string>, k: nat,
                              now: seq<TargetResult>)
    requires k <= |visited|
  {
    && |now| == |was|
    && forall i :: 0 <= i < |was| ==>
         if was[i].target.protocol in visited[..k] then Flagged(was, timeout, i, now[i]) else now[i] == was[i]
  }

  lemma MembersUntouched(was: seq<TargetResult>, timeout: real, visited: seq<string>, k: nat, indexes: seq<nat>,
                         before: seq<TargetResult>)
    requires k < |visited| && Distinct(visited) && VisitedUpTo(was, timeout, visited, k, before) &&
             Below(indexes, |was|)
    requires forall i :: 0 <= i < |was| ==> (i in indexes <==> Member(visited[k], was[i]))
    ensures forall i :: i in indexes ==> i < |was| && before[i] == was[i]
  {
    forall i | i in indexes ensures i < |was| && before[i] == was[i] {
      assert visited[k] !in visited[..k];
    }
  }

  lemma VisitStep(was: seq<TargetResult>, timeout: real, visited: seq<string>, k: nat, indexes: seq<nat>,
                  before: seq<TargetResult>, now: seq<TargetResult>)
    requires k < |visited| && VisitedUpTo(was, timeout, visited, k, before) && |now| == |was|
    requires forall i :: 0 <= i < |was| ==> (i in indexes <==> Member(visited[k], was[i]))
    requires forall i :: 0 <= i < |was| && i in indexes ==>
               SameButTie(was[i], now[i], TieFlag(Group(was, visited[k]), timeout, was[i]))
    requires forall i :: 0 <= i < |was| && i !in indexes ==> now[i] == before[i]
    ensures VisitedUpTo(was, timeout, visited, k + 1, now)
  {
    assert visited[..k + 1] == visited[..k] + [visited[k]];
  }

  lemma AllVisited(was: seq<TargetResult>, timeout: real, visited: seq<string>, now: seq<TargetResult>)
    requires Listing(was, visited) && VisitedUpTo(was, timeout, visited, |visited|, now)
    ensures forall i :: 0 <= i < |was| ==> Flagged(was, timeout, i, now[i])
  {
    assert visited[..|visited|] == visited;
    forall i | 0 <= i < |was| ensures Flagged(was, timeout, i, now[i]) {
      if Eligible(was[i]) {
        assert Member(was[i].target.protocol, was[i]);
        ListingElements(was, visited, was[i].target.protocol);
      }
    }
  }

  /** What a visit leaves of result i: a ranked target's tie flag is set to the
      definition's, and nothing else changes. */
  ghost predicate Flagged(was: seq<TargetResult>, timeout: real, i: nat, now: TargetResult)
    requires i < |was|
  {
    if Eligible(was[i]) then SameButTie(was[i], now, TieFlag(Group(was, was[i].target.protocol), timeout, was[i]))
    else now == was[i]
  }

  lemma IndexesAreMembers(results: seq<TargetResult>, protocol: string, indexes: seq<nat>)
    requires GroupIndexes(results, protocol, indexes)
    ensures forall i :: 0 <= i < |results| ==> (i in indexes <==> Member(protocol, results[i]))
  {
    GroupElements(results, protocol);
    forall i | 0 <= i < |results| && i in indexes ensures Member(protocol, results[i]) {
      var k :| 0 <= k < |indexes| && indexes[k] == i;
      assert Pick(results, indexes)[k] in Group(results, protocol);
    }
  }

  lemma VisitedNotEmpty(results: seq<TargetResult>, visited: seq<string>, k: nat, indexes: seq<nat>)
    requires Listing(results, visited) && k < |visited| && GroupIndexes(results, visited[k], indexes)
    ensures indexes != []
  {
    ListingElements(results, visited, visited[k]);
  }
}
