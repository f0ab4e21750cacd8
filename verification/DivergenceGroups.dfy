/** Who votes with whom: the marking in terms of names, types and declared policies,
    and what makes two of those the same. */
module DivergenceGroups {
  import opened Orders
  import opened Text
  import opened Report
  import opened Divergence
  import Scoring

  // ----- policies are marked apart -----

  function OfPolicy(policy: string): TargetResult -> bool {
    (r: TargetResult) => PolicyName(r.target.policy) == policy
  }

  /** The results of one policy, in order. */
  function SamePolicy(results: seq<TargetResult>, policy: string): seq<TargetResult> {
    Filter(results, OfPolicy(policy), |results|)
  }

  lemma {:induction false} RowOfOtherPolicy(t: Target, obs: seq<Observation>, k: nat, b: Ballot)
    requires k <= |obs| && PolicyName(t.policy) != b.key.policy
    ensures RowVotes(t, obs, k)[b] == 0
  {
    if k > 0 {
      hide QueryName, PolicyName;
      RowOfOtherPolicy(t, obs, k - 1, b);
    }
  }

  /** Results that cannot have cast a ballot may be left out when it is counted. */
  lemma {:induction false} VotesOfKept(results: seq<TargetResult>, keep: TargetResult -> bool, n: nat, b: Ballot)
    requires n <= |results| && forall r :: r in results && !keep(r) ==> ResultVotes(r)[b] == 0
    ensures Votes(results, n)[b] == Votes(Filter(results, keep, n), |Filter(results, keep, n)|)[b]
  {
    hide ResultVotes, Votes;
    if n == 0 {
      NoVotes(results);
      NoVotes(Filter(results, keep, 0));
    } else {
      VotesOfKept(results, keep, n - 1, b);
      VotesNext(results, n);
      assert results[n - 1] in results;
      if keep(results[n - 1]) { VotesLast(Filter(results, keep, n - 1), results[n - 1]); }
    }
  }

  lemma NoVotes(results: seq<TargetResult>)
    ensures Votes(results, 0) == multiset{}
  {
  }

  lemma VotesNext(results: seq<TargetResult>, n: nat)
    requires 0 < n <= |results|
    ensures Votes(results, n) == Votes(results, n - 1) + ResultVotes(results[n - 1])
  {
  }

  lemma VotesLast(front: seq<TargetResult>, r: TargetResult)
    ensures Votes(front + [r], |front| + 1) == Votes(front, |front|) + ResultVotes(r)
  {
    VotesPrefix(front + [r], front, |front|);
  }

  lemma NoVoteHere(r: TargetResult, b: Ballot)
    requires PolicyName(r.target.policy) != b.key.policy
    ensures ResultVotes(r)[b] == 0
  {
    RowOfOtherPolicy(r.target, r.observations, |r.observations|, b);
  }

  /** The verdict on a query depends on its own ballots alone. */
  lemma VerdictOfBallots(votes: multiset<Ballot>, others: multiset<Ballot>, key: Key)
    requires forall c :: votes[Ballot(key, c)] == others[Ballot(key, c)]
    ensures VerdictOf(votes, key) == VerdictOf(others, key)
  {
    assert Contested(votes, key) <==> Contested(others, key) by {
      assert forall c :: Ballot(key, c) in votes <==> Ballot(key, c) in others;
    }
    assert forall c :: Leads(votes, key, c) <==> Leads(others, key, c);
    if c :| Contested(votes, key) && Leads(votes, key, c) {
      LeaderIsUnique(votes, key, c);
      LeaderIsUnique(others, key, c);
    }
  }

  /** A target is marked exactly as if only the targets of its own policy had been
      measured: other policies have no say. */
  lemma PoliciesAreMarkedApart(results: seq<TargetResult>, i: nat, m: nat)
    requires i < |results|
    requires var own := SamePolicy(results, PolicyName(results[i].target.policy)); m < |own| && own[m] == results[i]
    ensures var own := SamePolicy(results, PolicyName(results[i].target.policy));
            MarkDivergent(results)[i] == MarkDivergent(own)[m]
  {
    var own := SamePolicy(results, PolicyName(results[i].target.policy));
    var there, here := MarkDivergent(results)[i], MarkDivergent(own)[m];
    forall j | 0 <= j < |results[i].observations| ensures there.observations[j] == here.observations[j] {
      MarkedApart(results, i, m, j);
    }
    assert there.observations == here.observations;
  }

  lemma MarkedApart(results: seq<TargetResult>, i: nat, m: nat, j: nat)
    requires i < |results| && j < |results[i].observations|
    requires var own := SamePolicy(results, PolicyName(results[i].target.policy)); m < |own| && own[m] == results[i]
    ensures var own := SamePolicy(results, PolicyName(results[i].target.policy));
            MarkDivergent(results)[i].observations[j] == MarkDivergent(own)[m].observations[j]
  {
    hide MarkDivergent, Votes, VerdictOf, PolicyName, QueryName, SamePolicy;
    var own := SamePolicy(results, PolicyName(results[i].target.policy));
    var key := KeyOf(results[i].target, results[i].observations[j]);
    MarkedIsVerdict(results, i, j);
    MarkedIsVerdict(own, m, j);
    forall c ensures AllVotes(results)[Ballot(key, c)] == AllVotes(own)[Ballot(key, c)] {
      OwnVotes(results, Ballot(key, c));
    }
    VerdictOfBallots(AllVotes(results), AllVotes(own), key);
  }

  lemma OwnVotes(results: seq<TargetResult>, b: Ballot)
    ensures AllVotes(results)[b] == AllVotes(SamePolicy(results, b.key.policy))[b]
  {
    hide Votes, ResultVotes, PolicyName;
    forall r | r in results && !OfPolicy(b.key.policy)(r) ensures ResultVotes(r)[b] == 0 {
      NoVoteHere(r, b);
    }
    VotesOfKept(results, OfPolicy(b.key.policy), |results|, b);
  }

  // ----- who is compared with whom -----

  /** Two successes answer one question under one policy. */
  predicate Comparable(s: Target, x: Observation, t: Target, y: Observation) {
    && x.success && y.success
    && QueryName(x.query.name) == QueryName(y.query.name) && x.query.qtype == y.query.qtype
    && PolicyName(s.policy) == PolicyName(t.policy)
  }

  function ClassOf(o: Observation): string {
    if o.responseClass == "" then "unknown" else o.responseClass
  }

  predicate Differ(results: seq<TargetResult>, i: nat, j: nat, m: nat, n: nat)
    requires i < |results| && j < |results[i].observations|
  {
    && m < |results| && n < |results[m].observations|
    && var x, y := results[i].observations[j], results[m].observations[n];
       Comparable(results[i].target, x, results[m].target, y) && ClassOf(x) != ClassOf(y)
  }

  lemma {:induction false} RowBallot(t: Target, obs: seq<Observation>, k: nat, b: Ballot) returns (j: nat)
    requires k <= |obs| && b in RowVotes(t, obs, k)
    ensures j < k && obs[j].success && BallotOf(t, obs[j]) == b
  {
    hide QueryName, PolicyName;
    if b in RowVotes(t, obs, k - 1) {
      j := RowBallot(t, obs, k - 1, b);
    } else {
      j := k - 1;
    }
  }

  lemma {:induction false} BallotPlace(results: seq<TargetResult>, k: nat, b: Ballot) returns (i: nat, j: nat)
    requires k <= |results| && b in Votes(results, k)
    ensures i < k && j < |results[i].observations| && results[i].observations[j].success
    ensures BallotOf(results[i].target, results[i].observations[j]) == b
  {
    hide ResultVotes;
    if b in Votes(results, k - 1) {
      i, j := BallotPlace(results, k - 1, b);
    } else {
      i, j := ResultBallot(results, k - 1, b);
    }
  }

  lemma ResultBallot(results: seq<TargetResult>, i: nat, b: Ballot) returns (m: nat, j: nat)
    requires i < |results| && b in ResultVotes(results[i])
    ensures m == i && j < |results[i].observations| && results[i].observations[j].success
    ensures BallotOf(results[i].target, results[i].observations[j]) == b
  {
    m := i;
    j := RowBallot(results[i].target, results[i].observations, |results[i].observations|, b);
  }

  /** A query one place answers is contested exactly when another place answers the same
      name and type under the same policy with another class. */
  lemma ContestedByPlace(results: seq<TargetResult>, i: nat, j: nat)
    requires i < |results| && j < |results[i].observations| && results[i].observations[j].success
    ensures Contested(AllVotes(results), KeyOf(results[i].target, results[i].observations[j])) <==>
            exists m: nat, n: nat :: Differ(results, i, j, m, n)
  {
    hide Votes, QueryName, PolicyName;
    var votes, key := AllVotes(results), KeyOf(results[i].target, results[i].observations[j]);
    var own := BallotOf(results[i].target, results[i].observations[j]).class_;
    VotesOfPlace(results, i, j);
    if Contested(votes, key) {
      var c, d :| c != d && Ballot(key, c) in votes && Ballot(key, d) in votes;
      var m, n := BallotPlace(results, |results|, Ballot(key, if c == own then d else c));
      assert Differ(results, i, j, m, n);
    }
    if m: nat, n: nat :| Differ(results, i, j, m, n) {
      VotesOfPlace(results, m, n);
    }
  }

  ghost predicate Flagged(results: seq<TargetResult>, i: nat, j: nat) {
    i < |results| && j < |results[i].observations| && MarkDivergent(results)[i].observations[j].divergent
  }

  lemma FlaggedIs(results: seq<TargetResult>, i: nat, j: nat)
    requires i < |results| && j < |results[i].observations|
    ensures var o, votes := results[i].observations[j], AllVotes(results);
            var key := KeyOf(results[i].target, o);
            Flagged(results, i, j) <==>
              o.success && Contested(votes, key) && !Leads(votes, key, Scoring.ResponseClassName(o.responseClass))
  {
    FlagsAreExact(results, i, j);
  }

  /** A success is flagged only because somebody answered the same name and type under
      the same policy differently; and of two such answers at least one is flagged. */
  lemma FlaggedByPolicy(results: seq<TargetResult>, i: nat, j: nat)
    requires i < |results| && j < |results[i].observations|
    ensures Flagged(results, i, j) ==>
              results[i].observations[j].success && exists m: nat, n: nat :: Differ(results, i, j, m, n)
    ensures forall m: nat, n: nat :: Differ(results, i, j, m, n) ==> Flagged(results, i, j) || Flagged(results, m, n)
  {
    hide Flagged, Votes, QueryName, PolicyName, Contested, Leads, Differ;
    FlaggedIs(results, i, j);
    if results[i].observations[j].success { ContestedByPlace(results, i, j); }
    forall m: nat, n: nat | Differ(results, i, j, m, n)
      ensures Flagged(results, i, j) || Flagged(results, m, n)
    {
      OneIsFlagged(results, i, j, m, n);
    }
  }

  lemma OneIsFlagged(results: seq<TargetResult>, i: nat, j: nat, m: nat, n: nat)
    requires i < |results| && j < |results[i].observations| && Differ(results, i, j, m, n)
    ensures Flagged(results, i, j) || Flagged(results, m, n)
  {
    hide Flagged, Votes, QueryName, PolicyName, Contested, Leads;
    var key, votes := KeyOf(results[i].target, results[i].observations[j]), AllVotes(results);
    assert KeyOf(results[m].target, results[m].observations[n]) == key;
    FlaggedIs(results, i, j);
    FlaggedIs(results, m, n);
    VotesOfPlace(results, i, j);
    VotesOfPlace(results, m, n);
    var c, d := ClassOf(results[i].observations[j]), ClassOf(results[m].observations[n]);
    if Contested(votes, key) ==> Leads(votes, key, c) && Leads(votes, key, d) { OneClass(votes, key, c, d); }
  }

  // ----- when two names or policies are the same -----

  /** Two declared policies are one exactly when they differ at most in case and in the
      spaces around them; no policy at all is the policy "unspecified". */
  lemma PoliciesAreSame(a: string, s: string, b: string, c: string, t: string, d: string)
    requires AllSpaces(a) && Tidy(s) && AllSpaces(b) && AllSpaces(c) && Tidy(t) && AllSpaces(d)
    ensures s != "" && t != "" ==> (PolicyName(a + s + b) == PolicyName(c + t + d) <==> SameLetters(s, t))
    ensures PolicyName(a + b) == "unspecified"
  {
    TrimSpaceMeans(a, s, b);
    TrimSpaceMeans(c, t, d);
    TrimSpaceMeans(a, "", b);
    assert a + "" + b == a + b;
    LowerMeans(s, t);
    assert s != "" ==> Lower(s) != "";
    assert t != "" ==> Lower(t) != "";
  }

  lemma QueryNameOf(a: string, s: string, b: string)
    requires AllSpaces(a) && Tidy(s) && AllSpaces(b) && (s != "" ==> s[|s| - 1] != '.')
    ensures QueryName(a + s + b) == QueryName(a + (s + ".") + b) == Lower(s)
  {
    TrimSpaceMeans(a, s, b);
    assert Tidy(s + ".");
    TrimSpaceMeans(a, s + ".", b);
    assert (s + ".")[..|s|] == s;
  }

  /** Two query names are one exactly when they differ at most in case, in the spaces
      around them and in one trailing dot. */
  lemma QueriesAreSame(a: string, s: string, b: string, c: string, t: string, d: string)
    requires AllSpaces(a) && Tidy(s) && AllSpaces(b) && (s != "" ==> s[|s| - 1] != '.')
    requires AllSpaces(c) && Tidy(t) && AllSpaces(d) && (t != "" ==> t[|t| - 1] != '.')
    ensures QueryName(a + s + b) == QueryName(c + t + d) <==> SameLetters(s, t)
    ensures QueryName(a + (s + ".") + b) == QueryName(a + s + b)
  {
    QueryNameOf(a, s, b);
    QueryNameOf(c, t, d);
    LowerMeans(s, t);
  }
}
