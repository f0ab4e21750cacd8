/** Marking divergent answers: one plurality vote per query and declared policy. */
module Divergence {
  import opened Orders
  import opened Text
  import opened Report
  import Scoring

  /** What a vote is about: the normalised name, the type and the policy. */
  datatype Key = Key(name: string, qtype: nat, policy: string)

  datatype Ballot = Ballot(key: Key, class_: string)

  datatype Verdict = Unanimous | Baseline(class_: string) | Ambiguous

  const AMBIGUOUS := "ambiguous"

  // ----- the specification -----

  function PolicyName(policy: string): string {
    var p := Lower(TrimSpace(policy));
    if p == "" then "unspecified" else p
  }

  function QueryName(name: string): string {
    Lower(TrimDot(TrimSpace(name)))
  }

  function KeyOf(t: Target, o: Observation): Key {
    Key(QueryName(o.query.name), o.query.qtype, PolicyName(t.policy))
  }

  function BallotOf(t: Target, o: Observation): Ballot {
    Ballot(KeyOf(t, o), Scoring.ResponseClassName(o.responseClass))
  }

  /** The ballots the first k observations of a target cast; only successes vote. */
  ghost function RowVotes(t: Target, obs: seq<Observation>, k: nat): multiset<Ballot>
    requires k <= |obs|
  {
    if k == 0 then multiset{}
    else RowVotes(t, obs, k - 1) + (if obs[k - 1].success then multiset{BallotOf(t, obs[k - 1])} else multiset{})
  }

  ghost function ResultVotes(r: TargetResult): multiset<Ballot> {
    RowVotes(r.target, r.observations, |r.observations|)
  }

  ghost function Votes(results: seq<TargetResult>, n: nat): multiset<Ballot>
    requires n <= |results|
  {
    if n == 0 then multiset{} else Votes(results, n - 1) + ResultVotes(results[n - 1])
  }

  ghost function AllVotes(results: seq<TargetResult>): multiset<Ballot> {
    Votes(results, |results|)
  }

  /** Somebody answered the query differently from somebody else. */
  ghost predicate Contested(votes: multiset<Ballot>, key: Key) {
    exists c, d :: c != d && Ballot(key, c) in votes && Ballot(key, d) in votes
  }

  /** A class that beats every other class. */
  ghost predicate Leads(votes: multiset<Ballot>, key: Key, c: string) {
    forall d :: d != c ==> votes[Ballot(key, d)] < votes[Ballot(key, c)]
  }

  ghost function VerdictOf(votes: multiset<Ballot>, key: Key): Verdict {
    if !Contested(votes, key) then Unanimous
    else if exists c :: Leads(votes, key, c) then
      var c :| Leads(votes, key, c);
      Baseline(c)
    else Ambiguous
  }

  lemma LeaderIsUnique(votes: multiset<Ballot>, key: Key, c: string)
    requires Contested(votes, key) && Leads(votes, key, c)
    ensures VerdictOf(votes, key) == Baseline(c)
  {
    var d :| Leads(votes, key, d);
    assert VerdictOf(votes, key).Baseline?;
    var e := VerdictOf(votes, key).class_;
    assert Leads(votes, key, e);
  }

  function Reset(o: Observation): Observation {
    o.(divergent := false, baseline := "")
  }

  function Applied(o: Observation, v: Verdict): Observation {
    match v
    case Unanimous => Reset(o)
    case Baseline(c) => o.(divergent := Scoring.ResponseClassName(o.responseClass) != c, baseline := c)
    case Ambiguous => o.(divergent := true, baseline := AMBIGUOUS)
  }

  /** One observation, once the queries in done have been voted on. */
  ghost function MarkedObservation(votes: multiset<Ballot>, done: set<Key>, t: Target, o: Observation): Observation {
    if o.success && KeyOf(t, o) in done then Applied(o, VerdictOf(votes, KeyOf(t, o))) else Reset(o)
  }

  ghost function Marked(votes: multiset<Ballot>, done: set<Key>, r: TargetResult): TargetResult {
    r.(observations := seq(|r.observations|, j requires 0 <= j < |r.observations| =>
      MarkedObservation(votes, done, r.target, r.observations[j])))
  }

  ghost function MarkedAll(votes: multiset<Ballot>, done: set<Key>, results: seq<TargetResult>): seq<TargetResult> {
    seq(|results|, i requires 0 <= i < |results| => Marked(votes, done, results[i]))
  }

  ghost function KeysIn(votes: multiset<Ballot>): set<Key> {
    set b | b in votes :: b.key
  }

  /** What markDivergence leaves. */
  ghost function MarkDivergent(results: seq<TargetResult>): seq<TargetResult> {
    MarkedAll(AllVotes(results), KeysIn(AllVotes(results)), results)
  }

  // ----- who votes -----

  lemma {:induction false} RowVoteCast(t: Target, obs: seq<Observation>, k: nat, j: nat)
    requires j < k <= |obs| && obs[j].success
    ensures BallotOf(t, obs[j]) in RowVotes(t, obs, k)
  {
    if j < k - 1 { RowVoteCast(t, obs, k - 1, j); }
  }

  lemma {:induction false} VoteCast(results: seq<TargetResult>, n: nat, i: nat, j: nat)
    requires i < n <= |results| && j < |results[i].observations| && results[i].observations[j].success
    ensures BallotOf(results[i].target, results[i].observations[j]) in Votes(results, n)
  {
    if i < n - 1 {
      VoteCast(results, n - 1, i, j);
    } else {
      RowVoteCast(results[i].target, results[i].observations, |results[i].observations|, j);
    }
  }

  /** Every success is voted on, so it carries its query's verdict. */
  lemma MarkedIsVerdict(results: seq<TargetResult>, i: nat, j: nat)
    requires i < |results| && j < |results[i].observations|
    ensures var o := results[i].observations[j];
            var marked := MarkDivergent(results)[i].observations[j];
            && (!o.success ==> marked == Reset(o))
            && (o.success ==> marked == Applied(o, VerdictOf(AllVotes(results), KeyOf(results[i].target, o))))
  {
    hide VerdictOf, Votes;
    var o := results[i].observations[j];
    if o.success {
      VoteCast(results, |results|, i, j);
      assert BallotOf(results[i].target, o).key in KeysIn(AllVotes(results));
    }
  }

  // ----- what the marking promises -----

  /** Failures are never flagged; a success is flagged exactly when its query is
      contested and its own class does not lead. */
  lemma FlagsAreExact(results: seq<TargetResult>, i: nat, j: nat)
    requires i < |results| && j < |results[i].observations|
    ensures var o, votes := results[i].observations[j], AllVotes(results);
            var key := KeyOf(results[i].target, o);
            MarkDivergent(results)[i].observations[j].divergent <==>
              o.success && Contested(votes, key) && !Leads(votes, key, Scoring.ResponseClassName(o.responseClass))
  {
    hide MarkDivergent, AllVotes, KeyOf;
    MarkedIsVerdict(results, i, j);
    var o, votes := results[i].observations[j], AllVotes(results);
    var key := KeyOf(results[i].target, o);
    var class_ := Scoring.ResponseClassName(o.responseClass);
    if Contested(votes, key) && Leads(votes, key, class_) { LeaderIsUnique(votes, key, class_); }
  }

  /** Marking touches the two marks of an observation and nothing else. A success of a
      contested query carries the leading class, or the word for a tie; any other
      observation carries no mark, whatever it carried before. */
  lemma MarksSpelledOut(results: seq<TargetResult>, i: nat, j: nat)
    requires i < |results| && j < |results[i].observations|
    ensures var o, m, votes := results[i].observations[j], MarkDivergent(results)[i].observations[j], AllVotes(results);
            var key := KeyOf(results[i].target, o);
            && m.(divergent := false, baseline := "") == o.(divergent := false, baseline := "")
            && (!(o.success && Contested(votes, key)) ==> !m.divergent && m.baseline == "")
            && (o.success && Contested(votes, key) ==>
                  if exists c :: Leads(votes, key, c) then
                    && Leads(votes, key, m.baseline)
                    && (m.divergent <==> (if o.responseClass == "" then "unknown" else o.responseClass) != m.baseline)
                  else m.divergent && m.baseline == "ambiguous")
  {
    hide MarkDivergent, AllVotes, KeyOf;
    MarkedIsVerdict(results, i, j);
  }

  /** On a tie for the top, which is all a contested query without a leader can
      be, every success of the query is flagged. */
  lemma TieFlagsAll(results: seq<TargetResult>, i: nat, j: nat)
    requires i < |results| && j < |results[i].observations| && results[i].observations[j].success
    requires VerdictOf(AllVotes(results), KeyOf(results[i].target, results[i].observations[j])) == Ambiguous
    ensures var marked := MarkDivergent(results)[i].observations[j]; marked.divergent && marked.baseline == AMBIGUOUS
  {
    MarkedIsVerdict(results, i, j);
  }

  /** Any two successes of one query and policy that stay unflagged gave the same
      class of answer. */
  lemma UnflaggedAgree(results: seq<TargetResult>, i: nat, j: nat, m: nat, n: nat)
    requires i < |results| && j < |results[i].observations|
    requires m < |results| && n < |results[m].observations|
    requires var marked := MarkDivergent(results);
             var x, y := marked[i].observations[j], marked[m].observations[n];
             && x.success && y.success && !x.divergent && !y.divergent
             && KeyOf(marked[i].target, x) == KeyOf(marked[m].target, y)
    ensures var marked := MarkDivergent(results);
            Scoring.ResponseClassName(marked[i].observations[j].responseClass) ==
            Scoring.ResponseClassName(marked[m].observations[n].responseClass)
  {
    hide AllVotes, KeyOf, Marked, Contested, Leads;
    MarkingKeepsQueries(results, i, j);
    MarkingKeepsQueries(results, m, n);
    var x, y, votes := results[i].observations[j], results[m].observations[n], AllVotes(results);
    var key := KeyOf(results[i].target, x);
    FlagsAreExact(results, i, j);
    FlagsAreExact(results, m, n);
    VotesOfPlace(results, i, j);
    VotesOfPlace(results, m, n);
    OneClass(votes, key, Scoring.ResponseClassName(x.responseClass), Scoring.ResponseClassName(y.responseClass));
  }

  lemma MarkingKeepsQueries(results: seq<TargetResult>, i: nat, j: nat)
    requires i < |results| && j < |results[i].observations|
    ensures var marked := MarkDivergent(results);
            var x, y := results[i].observations[j], marked[i].observations[j];
            && y.success == x.success && y.responseClass == x.responseClass
            && KeyOf(marked[i].target, y) == KeyOf(results[i].target, x)
  {
    hide VerdictOf, Votes, QueryName, PolicyName;
    MarkedIsVerdict(results, i, j);
  }

  lemma OneClass(votes: multiset<Ballot>, key: Key, c: string, d: string)
    requires Ballot(key, c) in votes && Ballot(key, d) in votes
    requires !Contested(votes, key) || (Leads(votes, key, c) && Leads(votes, key, d))
    ensures c == d
  {
  }

  lemma VotesOfPlace(results: seq<TargetResult>, i: nat, j: nat)
    requires i < |results| && j < |results[i].observations|
    ensures results[i].observations[j].success ==>
              BallotOf(results[i].target, results[i].observations[j]) in AllVotes(results)
  {
    if results[i].observations[j].success { VoteCast(results, |results|, i, j); }
  }

  // ----- ties -----

  ghost function ClassesOf(votes: multiset<Ballot>, key: Key): set<string> {
    set b | b in votes && b.key == key :: b.class_
  }

  ghost predicate Tops(votes: multiset<Ballot>, key: Key, classes: set<string>, c: string) {
    forall d :: d in classes ==> votes[Ballot(key, d)] <= votes[Ballot(key, c)]
  }

  lemma TopClass(votes: multiset<Ballot>, key: Key, classes: set<string>) returns (c: string)
    requires classes != {}
    ensures c in classes && Tops(votes, key, classes, c)
  {
    var d :| d in classes;
    c := d;
    var rest := classes - {d};
    if rest != {} {
      var e := TopClass(votes, key, rest);
      if votes[Ballot(key, e)] > votes[Ballot(key, d)] { c := e; }
      forall f | f in classes ensures votes[Ballot(key, f)] <= votes[Ballot(key, c)] {
        assert f == d || f in rest;
      }
    } else {
      assert forall f :: f in classes ==> f == d || f in rest;
    }
  }

  /** A contested query without a leader has two classes level at the top. */
  lemma AmbiguousIsTie(votes: multiset<Ballot>, key: Key) returns (c: string, d: string)
    requires VerdictOf(votes, key) == Ambiguous
    ensures c != d && votes[Ballot(key, c)] == votes[Ballot(key, d)] > 0
    ensures Tops(votes, key, ClassesOf(votes, key), c)
  {
    var classes := ClassesOf(votes, key);
    var x, y :| x != y && Ballot(key, x) in votes && Ballot(key, y) in votes;
    assert Ballot(key, x).class_ in classes;
    c := TopClass(votes, key, classes);
    assert !Leads(votes, key, c);
    d :| d != c && votes[Ballot(key, d)] >= votes[Ballot(key, c)];
    assert votes[Ballot(key, x)] <= votes[Ballot(key, c)];
    assert Ballot(key, d).class_ in classes;
  }

  // ----- idempotence -----

  lemma {:induction false} RowVotesUnmoved(t: Target, obs: seq<Observation>, others: seq<Observation>, k: nat)
    requires |obs| == |others| && k <= |obs|
    requires forall j :: 0 <= j < k ==>
               obs[j].success == others[j].success && BallotOf(t, obs[j]) == BallotOf(t, others[j])
    ensures RowVotes(t, obs, k) == RowVotes(t, others, k)
  {
    if k > 0 { RowVotesUnmoved(t, obs, others, k - 1); }
  }

  lemma {:induction false} VotesUnmoved(results: seq<TargetResult>, others: seq<TargetResult>, n: nat)
    requires |results| == |others| && n <= |results|
    requires forall i :: 0 <= i < n ==> ResultVotes(results[i]) == ResultVotes(others[i])
    ensures Votes(results, n) == Votes(others, n)
  {
    if n > 0 { VotesUnmoved(results, others, n - 1); }
  }

  /** Marking moves no vote. */
  lemma MarkingKeepsVotes(votes: multiset<Ballot>, done: set<Key>, results: seq<TargetResult>)
    ensures AllVotes(MarkedAll(votes, done, results)) == AllVotes(results)
  {
    hide VerdictOf, QueryName, PolicyName;
    var marked := MarkedAll(votes, done, results);
    forall i | 0 <= i < |results| ensures ResultVotes(marked[i]) == ResultVotes(results[i]) {
      RowVotesUnmoved(results[i].target, marked[i].observations, results[i].observations, |results[i].observations|);
    }
    VotesUnmoved(marked, results, |results|);
  }

  lemma AppliedTwice(o: Observation, v: Verdict)
    ensures Applied(Applied(o, v), v) == Applied(o, v) && Applied(Reset(o), v) == Applied(o, v)
  {
  }

  lemma MarkedTwice(votes: multiset<Ballot>, done: set<Key>, r: TargetResult)
    ensures Marked(votes, done, Marked(votes, done, r)) == Marked(votes, done, r)
  {
    hide VerdictOf, QueryName, PolicyName;
    var once := Marked(votes, done, r);
    var twice := Marked(votes, done, once);
    forall j | 0 <= j < |r.observations| ensures twice.observations[j] == once.observations[j] {
      var o := r.observations[j];
      assert KeyOf(r.target, once.observations[j]) == KeyOf(r.target, o);
      AppliedTwice(o, VerdictOf(votes, KeyOf(r.target, o)));
    }
    assert twice.observations == once.observations;
  }

  /** Marking a marked run changes nothing. */
  lemma MarkingIsIdempotent(results: seq<TargetResult>)
    ensures MarkDivergent(MarkDivergent(results)) == MarkDivergent(results)
  {
    hide Marked, AllVotes;
    var votes := AllVotes(results);
    var once := MarkDivergent(results);
    MarkingKeepsVotes(votes, KeysIn(votes), results);
    forall i | 0 <= i < |results| ensures MarkDivergent(once)[i] == once[i] {
      MarkedTwice(votes, KeysIn(votes), results[i]);
    }
  }

  // ----- independence of the target order -----

  lemma {:induction false} VotesWithout(s: seq<TargetResult>, n: nat, j: nat)
    requires j < n <= |s|
    ensures Votes(s, n) == Votes(s[..j] + s[j + 1..], n - 1) + ResultVotes(s[j])
  {
    hide ResultVotes;
    var t := s[..j] + s[j + 1..];
    if j == n - 1 {
      VotesPrefix(s, t, n - 1);
    } else {
      VotesWithout(s, n - 1, j);
      assert t[n - 2] == s[n - 1];
      assert Votes(t, n - 1) == Votes(t, n - 2) + ResultVotes(s[n - 1]);
    }
  }

  lemma {:induction false} VotesPrefix(s: seq<TargetResult>, t: seq<TargetResult>, n: nat)
    requires n <= |s| && n <= |t| && s[..n] == t[..n]
    ensures Votes(s, n) == Votes(t, n)
  {
    if n > 0 {
      assert s[..n][n - 1] == t[..n][n - 1];
      assert s[..n - 1] == s[..n][..n - 1] && t[..n - 1] == t[..n][..n - 1];
      VotesPrefix(s, t, n - 1);
    }
  }

  lemma {:induction false} VotesOfPermutation(s: seq<TargetResult>, t: seq<TargetResult>)
    requires multiset(s) == multiset(t)
    ensures AllVotes(s) == AllVotes(t)
  {
    hide ResultVotes, Votes;
    SameElements(s, t);
    if s == [] {
      assert t == [];
    } else {
      var j := Find(t, s[0]);
      var s', t' := s[..0] + s[1..], t[..j] + t[j + 1..];
      Without(s, 0);
      Without(t, j);
      Cancel(multiset(s'), multiset(t'), s[0]);
      VotesOfPermutation(s', t');
      VotesWithout(s, |s|, 0);
      VotesWithout(t, |t|, j);
    }
  }

  /** A target is marked the same way wherever it stands among the others. */
  lemma MarkingIgnoresOrder(results: seq<TargetResult>, others: seq<TargetResult>, i: nat, j: nat)
    requires multiset(results) == multiset(others)
    requires i < |results| && j < |others| && results[i] == others[j]
    ensures MarkDivergent(results)[i] == MarkDivergent(others)[j]
  {
    hide Marked, AllVotes;
    VotesOfPermutation(results, others);
  }
}
