/** The loops of markDivergence, over the results in place. */
module MarkDivergence {
  import opened Orders
  import opened Text
  import opened Report
  import opened Divergence
  import Scoring

  /** One success of a query group: where it is, and its class of answer. */
  datatype Place = Place(result: nat, index: nat, class_: string)

  datatype Detail = Detail(key: Key, compared: nat, baseline: string, ambiguous: bool, classes: map<string, nat>)

  // ----- the groups -----

  /** The successes of one query among the first k of target i's observations. */
  function RowPlaces(r: TargetResult, i: nat, k: nat, key: Key): seq<Place>
    requires k <= |r.observations|
  {
    if k == 0 then []
    else
      var front, o := RowPlaces(r, i, k - 1, key), r.observations[k - 1];
      if o.success && KeyOf(r.target, o) == key
      then front + [Place(i, k - 1, Scoring.ResponseClassName(o.responseClass))]
      else front
  }

  function PlacesOf(results: seq<TargetResult>, n: nat, key: Key): seq<Place>
    requires n <= |results|
  {
    if n == 0 then []
    else PlacesOf(results, n - 1, key) + RowPlaces(results[n - 1], n - 1, |results[n - 1].observations|, key)
  }

  function Group(results: seq<TargetResult>, key: Key): seq<Place> {
    PlacesOf(results, |results|, key)
  }

  function Count(group: seq<Place>, c: string, k: nat): nat
    requires k <= |group|
  {
    if k == 0 then 0 else Count(group, c, k - 1) + if group[k - 1].class_ == c then 1 else 0
  }

  lemma {:induction false} CountAppend(a: seq<Place>, b: seq<Place>, c: string, k: nat)
    requires k <= |b|
    ensures Count(a + b, c, |a| + k) == Count(a, c, |a|) + Count(b, c, k)
  {
    if k > 0 {
      CountAppend(a, b, c, k - 1);
    } else {
      CountPrefix(a, a + b, c, |a|);
    }
  }

  lemma {:induction false} CountPrefix(a: seq<Place>, b: seq<Place>, c: string, k: nat)
    requires k <= |a| && k <= |b| && forall i :: 0 <= i < k ==> a[i] == b[i]
    ensures Count(a, c, k) == Count(b, c, k)
  {
    if k > 0 { CountPrefix(a, b, c, k - 1); }
  }

  lemma {:induction false} RowCount(r: TargetResult, i: nat, k: nat, key: Key, c: string)
    requires k <= |r.observations|
    ensures var row := RowPlaces(r, i, k, key);
            Count(row, c, |row|) == RowVotes(r.target, r.observations, k)[Ballot(key, c)]
  {
    if k > 0 {
      hide *;
      var front, o := RowPlaces(r, i, k - 1, key), r.observations[k - 1];
      RowCount(r, i, k - 1, key, c);
      RowStep(r, i, k, key, c);
      CountOne(front, Place(i, k - 1, BallotOf(r.target, o).class_), c);
    }
  }

  lemma RowStep(r: TargetResult, i: nat, k: nat, key: Key, c: string)
    requires 0 < k <= |r.observations|
    ensures var front, o := RowPlaces(r, i, k - 1, key), r.observations[k - 1];
            var before, ballot := RowVotes(r.target, r.observations, k - 1), BallotOf(r.target, o);
            && RowPlaces(r, i, k, key) ==
                 (if o.success && ballot.key == key then front + [Place(i, k - 1, ballot.class_)] else front)
            && RowVotes(r.target, r.observations, k)[Ballot(key, c)] ==
               before[Ballot(key, c)] + if o.success && ballot.key == key && ballot.class_ == c then 1 else 0
  {
  }

  lemma CountOne(group: seq<Place>, p: Place, c: string)
    ensures Count(group + [p], c, |group + [p]|) == Count(group, c, |group|) + if p.class_ == c then 1 else 0
  {
    CountPrefix(group, group + [p], c, |group|);
  }

  /** Counting a group's places counts its ballots. */
  lemma {:induction false} GroupCount(results: seq<TargetResult>, n: nat, key: Key, c: string)
    requires n <= |results|
    ensures var group := PlacesOf(results, n, key);
            Count(group, c, |group|) == Votes(results, n)[Ballot(key, c)]
  {
    hide *;
    if n == 0 {
      EmptyGroup(results, key, c);
    } else {
      var r := results[n - 1];
      var front, row := PlacesOf(results, n - 1, key), RowPlaces(r, n - 1, |r.observations|, key);
      GroupCount(results, n - 1, key, c);
      RowCount(r, n - 1, |r.observations|, key, c);
      CountAppend(front, row, c, |row|);
      GroupStep(results, n, key);
    }
  }

  lemma EmptyGroup(results: seq<TargetResult>, key: Key, c: string)
    ensures Count(PlacesOf(results, 0, key), c, |PlacesOf(results, 0, key)|) == Votes(results, 0)[Ballot(key, c)]
  {
  }

  lemma GroupStep(results: seq<TargetResult>, n: nat, key: Key)
    requires 0 < n <= |results|
    ensures var r := results[n - 1];
            && PlacesOf(results, n, key) == PlacesOf(results, n - 1, key) + RowPlaces(r, n - 1, |r.observations|, key)
            && Votes(results, n) == Votes(results, n - 1) + RowVotes(r.target, r.observations, |r.observations|)
  {
  }

  /** The place of one observation. */
  function PlaceAt(results: seq<TargetResult>, i: nat, j: nat): Place
    requires i < |results| && j < |results[i].observations|
  {
    Place(i, j, Scoring.ResponseClassName(results[i].observations[j].responseClass))
  }

  predicate InGroup(results: seq<TargetResult>, key: Key, i: nat, j: nat)
    requires i < |results| && j < |results[i].observations|
  {
    results[i].observations[j].success && KeyOf(results[i].target, results[i].observations[j]) == key
  }

  predicate Valid(results: seq<TargetResult>, p: Place) {
    p.result < |results| && p.index < |results[p.result].observations|
  }

  lemma {:induction false} RowElements(r: TargetResult, i: nat, k: nat, key: Key, p: Place)
    requires k <= |r.observations|
    ensures p in RowPlaces(r, i, k, key) <==>
            p.result == i && p.index < k && r.observations[p.index].success &&
            KeyOf(r.target, r.observations[p.index]) == key &&
            p.class_ == Scoring.ResponseClassName(r.observations[p.index].responseClass)
  {
    if k > 0 { RowElements(r, i, k - 1, key, p); }
  }

  lemma {:induction false} GroupElements(results: seq<TargetResult>, n: nat, key: Key, p: Place)
    requires n <= |results|
    ensures p in PlacesOf(results, n, key) <==>
            p.result < n && Valid(results, p) && InGroup(results, key, p.result, p.index) &&
            p == PlaceAt(results, p.result, p.index)
  {
    if n > 0 {
      GroupElements(results, n - 1, key, p);
      RowElements(results[n - 1], n - 1, |results[n - 1].observations|, key, p);
    }
  }

  // ----- the vote -----

  ghost predicate Tallies(group: seq<Place>, votes: multiset<Ballot>, key: Key) {
    forall c :: Count(group, c, |group|) == votes[Ballot(key, c)]
  }

  ghost predicate IsTally(counts: map<string, nat>, votes: multiset<Ballot>, key: Key) {
    forall c :: (c in counts <==> Ballot(key, c) in votes) && (c in counts ==> counts[c] == votes[Ballot(key, c)])
  }

  method CountClasses(group: seq<Place>, ghost votes: multiset<Ballot>, ghost key: Key)
    returns (counts: map<string, nat>)
    requires Tallies(group, votes, key)
    ensures IsTally(counts, votes, key)
  {
    counts := map[];
    for k := 0 to |group|
      invariant forall c :: c in counts <==> Count(group, c, k) > 0
      invariant forall c :: c in counts ==> counts[c] == Count(group, c, k)
    {
      var c := group[k].class_;
      counts := counts[c := (if c in counts then counts[c] else 0) + 1];
    }
  }

  method Highest(counts: map<string, nat>) returns (top: nat)
    ensures forall c :: c in counts ==> counts[c] <= top
    ensures counts != map[] ==> exists c :: c in counts && counts[c] == top
  {
    top := 0;
    var rest := counts.Keys;
    while rest != {}
      invariant rest <= counts.Keys
      invariant forall c :: c in counts && c !in rest ==> counts[c] <= top
      invariant top == 0 || exists c :: c in counts && counts[c] == top
      decreases |rest|
    {
      var c :| c in rest;
      if counts[c] > top { top := counts[c]; }
      rest := rest - {c};
    }
    if counts != map[] && top == 0 {
      var c :| c in counts;
      assert counts[c] == top;
    }
  }

  method ClassesAt(counts: map<string, nat>, top: nat) returns (classes: seq<string>)
    ensures Distinct(classes) && forall c :: c in classes <==> c in counts && counts[c] == top
  {
    classes := [];
    var rest := counts.Keys;
    while rest != {}
      invariant rest <= counts.Keys
      invariant Distinct(classes)
      invariant forall c :: c in classes <==> c in counts && c !in rest && counts[c] == top
      decreases |rest|
    {
      var c :| c in rest;
      if counts[c] == top { classes := classes + [c]; }
      rest := rest - {c};
    }
  }

  lemma TwoKeys(counts: map<string, nat>, c: string, d: string)
    requires c in counts && d in counts && c != d
    ensures |counts| > 1
  {
    assert {c, d} <= counts.Keys;
    assert counts.Keys == {c, d} + (counts.Keys - {c, d});
    assert |counts.Keys| == |{c, d}| + |counts.Keys - {c, d}|;
  }

  lemma OneKey(counts: map<string, nat>)
    requires forall c, d :: c in counts && d in counts ==> c == d
    ensures |counts| <= 1
  {
    if counts != map[] {
      var c :| c in counts;
      assert counts.Keys == {c};
      assert |counts.Keys| == 1;
    }
  }

  lemma CountsContested(counts: map<string, nat>, votes: multiset<Ballot>, key: Key)
    requires IsTally(counts, votes, key)
    ensures |counts| <= 1 <==> !Contested(votes, key)
  {
    if Contested(votes, key) {
      var c, d :| c != d && Ballot(key, c) in votes && Ballot(key, d) in votes;
      TwoKeys(counts, c, d);
    } else {
      OneKey(counts);
    }
  }

  /** The verdict on one group, from its class counts. */
  method Judge(group: seq<Place>, ghost votes: multiset<Ballot>, ghost key: Key)
    returns (verdict: Verdict, counts: map<string, nat>)
    requires Tallies(group, votes, key)
    ensures verdict == VerdictOf(votes, key) && IsTally(counts, votes, key)
  {
    hide Tallies, IsTally, Contested, Leads, VerdictOf;
    counts := CountClasses(group, votes, key);
    CountsContested(counts, votes, key);
    if |counts| <= 1 {
      UncontestedIsUnanimous(votes, key);
      return Unanimous, counts;
    }
    var top := Highest(counts);
    var classes := ClassesAt(counts, top);
    classes := SortedClasses(counts, top, classes);
    WinnersDecide(counts, votes, key, top, classes);
    if |classes| == 1 {
      verdict := Baseline(classes[0]);
    } else {
      verdict := Ambiguous;
    }
  }

  method SortedClasses(counts: map<string, nat>, top: nat, classes: seq<string>) returns (sorted: seq<string>)
    requires Distinct(classes) && forall c :: c in classes <==> c in counts && counts[c] == top
    ensures Distinct(sorted) && forall c :: c in sorted <==> c in counts && counts[c] == top
  {
    sorted := Sort(classes, StringLe);
    SortMultiset(classes, StringLe);
    SameElements(classes, sorted);
    DistinctRearranged(classes, sorted);
  }

  lemma UncontestedIsUnanimous(votes: multiset<Ballot>, key: Key)
    requires !Contested(votes, key)
    ensures VerdictOf(votes, key) == Unanimous
  {
  }

  lemma WinnersDecide(counts: map<string, nat>, votes: multiset<Ballot>, key: Key, top: nat, classes: seq<string>)
    requires IsTally(counts, votes, key) && Contested(votes, key)
    requires forall c :: c in counts ==> counts[c] <= top
    requires exists c :: c in counts && counts[c] == top
    requires Distinct(classes) && forall c :: c in classes <==> c in counts && counts[c] == top
    ensures classes != []
    ensures VerdictOf(votes, key) == if |classes| == 1 then Baseline(classes[0]) else Ambiguous
  {
    var w :| w in counts && counts[w] == top;
    assert w in classes && classes[0] in classes;
    if |classes| == 1 {
      var c := classes[0];
      forall d | d != c ensures votes[Ballot(key, d)] < votes[Ballot(key, c)] {
        assert d !in classes;
      }
      assert Leads(votes, key, c);
      LeaderIsUnique(votes, key, c);
    } else {
      assert classes[1] in classes && classes[0] != classes[1];
      forall c ensures !Leads(votes, key, c) {
        var rival := if c == classes[0] then classes[1] else classes[0];
        assert votes[Ballot(key, rival)] == top;
        assert c in counts ==> counts[c] <= top;
      }
    }
  }

  // ----- writing one verdict -----

  function At(results: seq<TargetResult>, p: Place): Observation
    requires Valid(results, p)
  {
    results[p.result].observations[p.index]
  }

  function Put(results: seq<TargetResult>, p: Place, o: Observation): seq<TargetResult>
    requires Valid(results, p)
  {
    var r := results[p.result];
    results[p.result := r.(observations := r.observations[p.index := o])]
  }

  /** What the marking loop does to one success: it never clears a flag. */
  function Flag(o: Observation, class_: string, v: Verdict): Observation {
    match v
    case Unanimous => o
    case Baseline(c) => o.(baseline := c, divergent := o.divergent || class_ != c)
    case Ambiguous => o.(divergent := true, baseline := AMBIGUOUS)
  }

  ghost predicate SameShape(s: seq<TargetResult>, t: seq<TargetResult>) {
    |s| == |t| && forall i :: 0 <= i < |s| ==>
      |s[i].observations| == |t[i].observations| && s[i].(observations := []) == t[i].(observations := [])
  }

  ghost predicate ValidPlaces(results: seq<TargetResult>, group: seq<Place>) {
    forall k :: 0 <= k < |group| ==> Valid(results, group[k])
  }

  ghost function FlagAll(results: seq<TargetResult>, group: seq<Place>, v: Verdict, k: nat): (r: seq<TargetResult>)
    requires k <= |group| && ValidPlaces(results, group)
    ensures SameShape(r, results)
  {
    if k == 0 then results
    else
      var front, p := FlagAll(results, group, v, k - 1), group[k - 1];
      Put(front, p, Flag(At(front, p), p.class_, v))
  }

  method MarkGroup(results: array<TargetResult>, group: seq<Place>, verdict: Verdict)
    requires ValidPlaces(results[..], group)
    modifies results
    ensures results[..] == FlagAll(old(results[..]), group, verdict, |group|)
  {
    ghost var was := results[..];
    for k := 0 to |group|
      invariant results[..] == FlagAll(was, group, verdict, k)
    {
      ghost var now := results[..];
      var p := group[k];
      assert Valid(now, p);
      var r := results[p.result];
      var current := r.observations[p.index];
      match verdict {
        case Unanimous =>
        case Baseline(c) =>
          current := current.(baseline := c);
          if p.class_ != c { current := current.(divergent := true); }
        case Ambiguous =>
          current := current.(divergent := true, baseline := AMBIGUOUS);
      }
      results[p.result] := r.(observations := r.observations[p.index := current]);
      assert results[..] == Put(now, p, current);
    }
  }

  lemma FlagApplies(o: Observation, v: Verdict)
    ensures var class_ := Scoring.ResponseClassName(o.responseClass);
            && Flag(Applied(o, v), class_, v) == Applied(o, v)
            && Flag(Reset(o), class_, v) == Applied(Reset(o), v)
  {
  }

  /** The group's places are reset, and carry their own class of answer. */
  ghost predicate Clean(results: seq<TargetResult>, group: seq<Place>)
    requires ValidPlaces(results, group)
  {
    forall p :: p in group ==>
      At(results, p) == Reset(At(results, p)) && p.class_ == Scoring.ResponseClassName(At(results, p).responseClass)
  }

  /** After k places: the places seen carry the verdict, the others are as before. */
  lemma {:induction false} FlaggedAt(results: seq<TargetResult>, group: seq<Place>, v: Verdict, k: nat, q: Place)
    requires k <= |group| && ValidPlaces(results, group) && Valid(results, q)
    requires Clean(results, group)
    requires q.class_ == Scoring.ResponseClassName(At(results, q).responseClass)
    ensures At(FlagAll(results, group, v, k), q) ==
              if q in group[..k] then Applied(At(results, q), v) else At(results, q)
  {
    hide *;
    if k == 0 {
      NoneFlagged(results, group, v);
    } else {
      var p, front := group[k - 1], FlagAll(results, group, v, k - 1);
      FlaggedAt(results, group, v, k - 1, q);
      FlagAllStep(results, group, v, k, q);
      SeenStep(group, k, q);
      if p.result == q.result && p.index == q.index {
        CleanPlace(results, group, k - 1, q);
        FlagApplies(At(results, q), v);
      }
    }
  }

  lemma SeenStep(group: seq<Place>, k: nat, q: Place)
    requires 0 < k <= |group|
    ensures q in group[..k] <==> q in group[..k - 1] || q == group[k - 1]
  {
    assert group[..k] == group[..k - 1] + [group[k - 1]];
  }

  lemma CleanPlace(results: seq<TargetResult>, group: seq<Place>, k: nat, q: Place)
    requires k < |group| && ValidPlaces(results, group) && Clean(results, group) && Valid(results, q)
    requires q.class_ == Scoring.ResponseClassName(At(results, q).responseClass)
    requires group[k].result == q.result && group[k].index == q.index
    ensures group[k] == q && At(results, q) == Reset(At(results, q))
  {
    assert group[k] in group;
  }

  lemma NoneFlagged(results: seq<TargetResult>, group: seq<Place>, v: Verdict)
    requires ValidPlaces(results, group)
    ensures FlagAll(results, group, v, 0) == results
  {
  }

  lemma FlagAllStep(results: seq<TargetResult>, group: seq<Place>, v: Verdict, k: nat, q: Place)
    requires 0 < k <= |group| && ValidPlaces(results, group) && Valid(results, q)
    ensures var p, front := group[k - 1], FlagAll(results, group, v, k - 1);
            && Valid(front, q) && Valid(front, p) && Valid(FlagAll(results, group, v, k), q)
            && At(FlagAll(results, group, v, k), q) ==
               if p.result == q.result && p.index == q.index then Flag(At(front, p), p.class_, v) else At(front, q)
  {
    hide Flag;
    var p, front := group[k - 1], FlagAll(results, group, v, k - 1);
    PutAt(front, p, Flag(At(front, p), p.class_, v), q);
  }

  lemma PutAt(s: seq<TargetResult>, p: Place, o: Observation, q: Place)
    requires Valid(s, p) && Valid(s, q)
    ensures Valid(Put(s, p, o), q)
    ensures At(Put(s, p, o), q) == if p.result == q.result && p.index == q.index then o else At(s, q)
  {
  }

  /** Marking one more query's group completes it. */
  lemma GroupMarked(votes: multiset<Ballot>, done: set<Key>, was: seq<TargetResult>, key: Key)
    requires key !in done
    ensures ValidPlaces(MarkedAll(votes, done, was), Group(was, key))
    ensures FlagAll(MarkedAll(votes, done, was), Group(was, key), VerdictOf(votes, key), |Group(was, key)|) ==
            MarkedAll(votes, done + {key}, was)
  {
    hide VerdictOf, Marked, FlagAll, MarkedObservation;
    GroupIsReset(votes, done, was, key);
    var before, group, v := MarkedAll(votes, done, was), Group(was, key), VerdictOf(votes, key);
    var after := FlagAll(before, group, v, |group|);
    forall i | 0 <= i < |was| ensures after[i] == Marked(votes, done + {key}, was[i]) {
      MarkedShape(votes, done, was[i]);
      forall j | 0 <= j < |was[i].observations|
        ensures after[i].observations[j] ==
                  MarkedObservation(votes, done + {key}, was[i].target, was[i].observations[j])
      {
        PlaceMarked(votes, done, was, key, i, j);
      }
      SameRow(votes, done, done + {key}, was[i], after[i]);
    }
  }

  /** A query not voted on yet is still as the reset left it. */
  lemma GroupIsReset(votes: multiset<Ballot>, done: set<Key>, was: seq<TargetResult>, key: Key)
    requires key !in done
    ensures ValidPlaces(MarkedAll(votes, done, was), Group(was, key))
    ensures Clean(MarkedAll(votes, done, was), Group(was, key))
  {
    hide VerdictOf, KeyOf, PlacesOf;
    var before, group := MarkedAll(votes, done, was), Group(was, key);
    forall p | p in group
      ensures Valid(before, p) && At(before, p) == Reset(At(before, p))
      ensures p.class_ == Scoring.ResponseClassName(At(before, p).responseClass)
    {
      GroupElements(was, |was|, key, p);
    }
  }

  lemma PlaceMarked(votes: multiset<Ballot>, done: set<Key>, was: seq<TargetResult>, key: Key, i: nat, j: nat)
    requires key !in done && i < |was| && j < |was[i].observations|
    requires ValidPlaces(MarkedAll(votes, done, was), Group(was, key))
    ensures var before, group := MarkedAll(votes, done, was), Group(was, key);
            var after := FlagAll(before, group, VerdictOf(votes, key), |group|);
            && |after| == |was| && |after[i].observations| == |was[i].observations|
            && after[i].observations[j] == MarkedObservation(votes, done + {key}, was[i].target, was[i].observations[j])
  {
    hide VerdictOf, KeyOf, FlagAll, PlacesOf;
    var before, group, v := MarkedAll(votes, done, was), Group(was, key), VerdictOf(votes, key);
    var q := PlaceAt(was, i, j);
    GroupIsReset(votes, done, was, key);
    GroupElements(was, |was|, key, q);
    MarkedKeepsClass(votes, done, was[i].target, was[i].observations[j]);
    assert At(before, q) == MarkedObservation(votes, done, was[i].target, was[i].observations[j]);
    FlaggedAt(before, group, v, |group|, q);
    assert group[..|group|] == group;
  }

  lemma MarkedKeepsClass(votes: multiset<Ballot>, done: set<Key>, t: Target, o: Observation)
    ensures MarkedObservation(votes, done, t, o).responseClass == o.responseClass
    ensures forall v :: Applied(Reset(o), v) == Applied(o, v)
  {
    hide VerdictOf;
  }

  lemma MarkedShape(votes: multiset<Ballot>, done: set<Key>, r: TargetResult)
    ensures |Marked(votes, done, r).observations| == |r.observations|
  {
  }

  lemma SameRow(votes: multiset<Ballot>, done: set<Key>, more: set<Key>, r: TargetResult, after: TargetResult)
    requires |after.observations| == |r.observations|
    requires after.(observations := []) == Marked(votes, done, r).(observations := [])
    requires forall j :: 0 <= j < |r.observations| ==>
      after.observations[j] == MarkedObservation(votes, more, r.target, r.observations[j])
    ensures after == Marked(votes, more, r)
  {
    hide MarkedObservation;
    assert after.observations == Marked(votes, more, r).observations;
  }

  // ----- collecting the groups -----

  function ResetPrefix(obs: seq<Observation>, k: nat): (r: seq<Observation>)
    ensures |r| == |obs|
  {
    seq(|obs|, j requires 0 <= j < |obs| => if j < k then Reset(obs[j]) else obs[j])
  }

  function ResetResult(r: TargetResult): TargetResult {
    r.(observations := ResetPrefix(r.observations, |r.observations|))
  }

  function ResetResults(results: seq<TargetResult>, n: nat): (r: seq<TargetResult>)
    ensures |r| == |results|
  {
    seq(|results|, i requires 0 <= i < |results| => if i < n then ResetResult(results[i]) else results[i])
  }

  /** The groups hold exactly the non-empty lists given by the specification. */
  ghost predicate Grouped(groups: map<Key, seq<Place>>, places: Key -> seq<Place>) {
    forall key :: (key in groups <==> places(key) != []) && (key in groups ==> groups[key] == places(key))
  }

  ghost function RowSoFar(results: seq<TargetResult>, i: nat, k: nat): Key -> seq<Place>
    requires i < |results| && k <= |results[i].observations|
  {
    (key: Key) => PlacesOf(results, i, key) + RowPlaces(results[i], i, k, key)
  }

  method CollectRow(r: TargetResult, i: nat, groups: map<Key, seq<Place>>, ghost was: seq<TargetResult>)
    returns (reset: TargetResult, all: map<Key, seq<Place>>)
    requires i < |was| && was[i] == r && Grouped(groups, RowSoFar(was, i, 0))
    ensures reset == ResetResult(r) && Grouped(all, RowSoFar(was, i, |r.observations|))
  {
    hide KeyOf, Scoring.ResponseClassName;
    var observations := r.observations;
    all := groups;
    for j := 0 to |observations|
      invariant observations == ResetPrefix(r.observations, j)
      invariant Grouped(all, RowSoFar(was, i, j))
    {
      var o := r.observations[j];
      observations := observations[j := Reset(o)];
      if !o.success {
        SkipFailure(was, i, j, all);
        continue;
      }
      var key := KeyOf(r.target, o);
      var place := Place(i, j, Scoring.ResponseClassName(o.responseClass));
      AddSuccess(was, i, j, all);
      all := all[key := (if key in all then all[key] else []) + [place]];
    }
    reset := r.(observations := observations);
  }

  lemma SkipFailure(was: seq<TargetResult>, i: nat, j: nat, groups: map<Key, seq<Place>>)
    requires i < |was| && j < |was[i].observations| && !was[i].observations[j].success
    requires Grouped(groups, RowSoFar(was, i, j))
    ensures Grouped(groups, RowSoFar(was, i, j + 1))
  {
    forall key ensures RowSoFar(was, i, j + 1)(key) == RowSoFar(was, i, j)(key) {
    }
  }

  lemma AddSuccess(was: seq<TargetResult>, i: nat, j: nat, groups: map<Key, seq<Place>>)
    requires i < |was| && j < |was[i].observations| && was[i].observations[j].success
    requires Grouped(groups, RowSoFar(was, i, j))
    ensures var o := was[i].observations[j];
            var key, place := KeyOf(was[i].target, o), Place(i, j, Scoring.ResponseClassName(o.responseClass));
            Grouped(groups[key := (if key in groups then groups[key] else []) + [place]], RowSoFar(was, i, j + 1))
  {
    hide KeyOf, Scoring.ResponseClassName;
    var o := was[i].observations[j];
    var key, place := KeyOf(was[i].target, o), Place(i, j, Scoring.ResponseClassName(o.responseClass));
    forall other ensures RowSoFar(was, i, j + 1)(other) ==
                         if other == key then RowSoFar(was, i, j)(other) + [place] else RowSoFar(was, i, j)(other) {
    }
  }

  /** Resets every flag and groups the successes by query and policy. */
  method Collect(results: array<TargetResult>) returns (groups: map<Key, seq<Place>>)
    modifies results
    ensures results[..] == ResetResults(old(results[..]), results.Length)
    ensures GroupsOf(old(results[..]), groups)
  {
    ghost var was := results[..];
    groups := map[];
    NothingGrouped(was);
    for i := 0 to results.Length
      invariant results[..] == ResetResults(was, i)
      invariant GroupedUpTo(was, i, groups)
    {
      hide ResetResult, Grouped;
      RowStarts(was, i, groups);
      var reset;
      reset, groups := CollectRow(results[i], i, groups, was);
      results[i] := reset;
      RowEnds(was, i, groups);
    }
    AllGrouped(was, groups);
  }

  ghost predicate GroupedUpTo(was: seq<TargetResult>, n: nat, groups: map<Key, seq<Place>>)
    requires n <= |was|
  {
    forall key :: (key in groups <==> PlacesOf(was, n, key) != []) &&
                  (key in groups ==> groups[key] == PlacesOf(was, n, key))
  }

  ghost predicate GroupsOf(was: seq<TargetResult>, groups: map<Key, seq<Place>>) {
    forall key :: (key in groups <==> key in KeysIn(AllVotes(was))) &&
                  (key in groups ==> groups[key] == Group(was, key))
  }

  lemma NothingGrouped(was: seq<TargetResult>)
    ensures GroupedUpTo(was, 0, map[]) && ResetResults(was, 0) == was
  {
  }

  lemma RowStarts(was: seq<TargetResult>, i: nat, groups: map<Key, seq<Place>>)
    requires i < |was| && GroupedUpTo(was, i, groups)
    ensures Grouped(groups, RowSoFar(was, i, 0))
  {
    forall key ensures RowSoFar(was, i, 0)(key) == PlacesOf(was, i, key) {
    }
  }

  lemma RowEnds(was: seq<TargetResult>, i: nat, groups: map<Key, seq<Place>>)
    requires i < |was| && Grouped(groups, RowSoFar(was, i, |was[i].observations|))
    ensures GroupedUpTo(was, i + 1, groups)
  {
    forall key ensures RowSoFar(was, i, |was[i].observations|)(key) == PlacesOf(was, i + 1, key) {
    }
  }

  lemma AllGrouped(was: seq<TargetResult>, groups: map<Key, seq<Place>>)
    requires GroupedUpTo(was, |was|, groups)
    ensures GroupsOf(was, groups)
  {
    hide PlacesOf, Votes;
    forall key ensures key in groups <==> key in KeysIn(AllVotes(was)) {
      GroupIsEmpty(was, key);
    }
  }

  lemma GroupIsEmpty(was: seq<TargetResult>, key: Key)
    ensures Group(was, key) == [] <==> key !in KeysIn(AllVotes(was))
  {
    hide PlacesOf, Votes;
    var group, votes := Group(was, key), AllVotes(was);
    if group != [] {
      var c := group[0].class_;
      CountOccurs(group, |group|, 0);
      GroupCount(was, |was|, key, c);
      assert Ballot(key, c) in votes;
      assert Ballot(key, c).key in KeysIn(votes);
    } else if key in KeysIn(votes) {
      var b :| b in votes && b.key == key;
      GroupCount(was, |was|, key, b.class_);
    }
  }

  lemma {:induction false} CountOccurs(group: seq<Place>, k: nat, i: nat)
    requires i < k <= |group|
    ensures Count(group, group[i].class_, k) > 0
  {
    if i < k - 1 { CountOccurs(group, k - 1, i); }
  }

  lemma ResetIsUnmarked(votes: multiset<Ballot>, was: seq<TargetResult>)
    ensures ResetResults(was, |was|) == MarkedAll(votes, {}, was)
  {
    hide KeyOf;
    forall i | 0 <= i < |was| ensures ResetResult(was[i]) == Marked(votes, {}, was[i]) {
      assert ResetResult(was[i]).observations == Marked(votes, {}, was[i]).observations;
    }
  }

  // ----- the whole pass -----

  predicate KeyLe(x: Key, y: Key) {
    if x.name != y.name then StringLe(x.name, y.name)
    else if x.qtype != y.qtype then x.qtype < y.qtype
    else StringLe(x.policy, y.policy)
  }

  /** Queries come by name, then by the number of their type, then by policy. */
  lemma KeyLeMeans(x: Key, y: Key)
    ensures KeyLe(x, y) <==>
            || (x.name != y.name && StringLe(x.name, y.name))
            || (x.name == y.name && x.qtype < y.qtype)
            || (x.name == y.name && x.qtype == y.qtype && StringLe(x.policy, y.policy))
  {
    StringOrder();
  }

  lemma KeyOrder()
    ensures TotalOrder(KeyLe)
  {
    StringOrder();
  }

  /** The map's keys, visited in any order and then sorted. */
  method SortedKeys(groups: map<Key, seq<Place>>) returns (keys: seq<Key>)
    ensures Distinct(keys) && Ascending(keys, KeyLe) && forall key :: key in keys <==> key in groups
  {
    var visited: seq<Key> := [];
    var rest := groups.Keys;
    while rest != {}
      invariant rest <= groups.Keys
      invariant Distinct(visited) && forall key :: key in visited <==> key in groups && key !in rest
      decreases |rest|
    {
      var key :| key in rest;
      visited := visited + [key];
      rest := rest - {key};
    }
    keys := Sort(visited, KeyLe);
    SortMultiset(visited, KeyLe);
    SameElements(visited, keys);
    DistinctRearranged(visited, keys);
    KeyOrder();
    SortAscending(visited, KeyLe);
  }

  /** The published entry of one contested query. */
  ghost predicate Describes(d: Detail, was: seq<TargetResult>, votes: multiset<Ballot>) {
    && Contested(votes, d.key)
    && IsTally(d.classes, votes, d.key)
    && d.compared == |Group(was, d.key)|
    && d.ambiguous == (VerdictOf(votes, d.key) == Ambiguous)
    && d.baseline == (match VerdictOf(votes, d.key) case Baseline(c) => c case _ => "")
  }

  function DetailOf(key: Key, compared: nat, verdict: Verdict, counts: map<string, nat>): Detail {
    Detail(key, compared, if verdict.Baseline? then verdict.class_ else "", verdict == Ambiguous, counts)
  }

  ghost predicate DetailsUpTo(details: seq<Detail>, was: seq<TargetResult>, votes: multiset<Ballot>, keys: seq<Key>,
                              m: nat)
    requires m <= |keys|
  {
    && (forall d :: d in details ==> Describes(d, was, votes) && d.key in keys[..m])
    && (forall k :: 0 <= k < m && Contested(votes, keys[k]) ==> exists d :: d in details && d.key == keys[k])
    && (forall a, b :: 0 <= a < b < |details| ==>
          details[a].key != details[b].key && KeyLe(details[a].key, details[b].key))
  }

  ghost function First(keys: seq<Key>, m: nat): set<Key>
    requires m <= |keys|
  {
    set key | key in keys[..m]
  }

  /** The votes of the first j of some classes, added up. */
  function ClassSum(group: seq<Place>, classes: seq<string>, j: nat, k: nat): nat
    requires j <= |classes| && k <= |group|
  {
    if j == 0 then 0 else ClassSum(group, classes, j - 1, k) + Count(group, classes[j - 1], k)
  }

  lemma {:induction false} ClassSumStep(group: seq<Place>, classes: seq<string>, j: nat, k: nat)
    requires j <= |classes| && k < |group| && Distinct(classes)
    ensures ClassSum(group, classes, j, k + 1) ==
            ClassSum(group, classes, j, k) + if group[k].class_ in classes[..j] then 1 else 0
  {
    if j > 0 {
      ClassSumStep(group, classes, j - 1, k);
      assert classes[..j] == classes[..j - 1] + [classes[j - 1]];
      assert classes[j - 1] !in classes[..j - 1];
    }
  }

  lemma {:induction false} ClassSumIs(group: seq<Place>, classes: seq<string>, k: nat)
    requires k <= |group| && Distinct(classes) && forall i :: 0 <= i < |group| ==> group[i].class_ in classes
    ensures ClassSum(group, classes, |classes|, k) == k
  {
    if k == 0 {
      ClassSumZero(group, classes, |classes|);
    } else {
      ClassSumIs(group, classes, k - 1);
      ClassSumStep(group, classes, |classes|, k - 1);
      assert classes[..|classes|] == classes;
    }
  }

  lemma {:induction false} ClassSumZero(group: seq<Place>, classes: seq<string>, j: nat)
    requires j <= |classes|
    ensures ClassSum(group, classes, j, 0) == 0
  {
    if j > 0 { ClassSumZero(group, classes, j - 1); }
  }

  /** The numbers of a tally in the order listed, added up. */
  function TallySum(tally: map<string, nat>, listed: seq<string>, j: nat): nat
    requires j <= |listed| && forall c :: c in listed ==> c in tally
  {
    if j == 0 then 0
    else
      assert listed[j - 1] in listed;
      TallySum(tally, listed, j - 1) + tally[listed[j - 1]]
  }

  lemma {:induction false} TallySumIs(group: seq<Place>, tally: map<string, nat>, listed: seq<string>, j: nat)
    requires j <= |listed| && forall c :: c in listed ==> c in tally && tally[c] == Count(group, c, |group|)
    ensures TallySum(tally, listed, j) == ClassSum(group, listed, j, |group|)
  {
    if j > 0 {
      TallySumIs(group, tally, listed, j - 1);
      assert listed[j - 1] in listed;
    }
  }

  /** A published entry adds up: what was compared is the sum of its classes. */
  lemma DetailAddsUp(d: Detail, was: seq<TargetResult>, listed: seq<string>)
    requires Describes(d, was, AllVotes(was)) && Distinct(listed) && forall c :: c in listed <==> c in d.classes
    ensures d.compared == TallySum(d.classes, listed, |listed|)
  {
    hide PlacesOf, Votes, Contested, VerdictOf;
    var group := Group(was, d.key);
    GroupTallies(was, d.key);
    forall i | 0 <= i < |group| ensures group[i].class_ in listed {
      CountOccurs(group, |group|, i);
      GroupCount(was, |was|, d.key, group[i].class_);
    }
    forall c | c in listed ensures c in d.classes && d.classes[c] == Count(group, c, |group|) {
      GroupCount(was, |was|, d.key, c);
    }
    TallySumIs(group, d.classes, listed, |listed|);
    ClassSumIs(group, listed, |group|);
  }

  /** One query's turn: judge it, mark it, and describe it when it is contested. */
  method MarkQuery(results: array<TargetResult>, key: Key, group: seq<Place>, details: seq<Detail>,
                   ghost was: seq<TargetResult>, ghost keys: seq<Key>, ghost m: nat) returns (more: seq<Detail>)
    requires m < |keys| && keys[m] == key && group == Group(was, key)
    requires Distinct(keys) && Ascending(keys, KeyLe)
    requires results[..] == MarkedAll(AllVotes(was), First(keys, m), was)
    requires DetailsUpTo(details, was, AllVotes(was), keys, m)
    modifies results
    ensures results[..] == MarkedAll(AllVotes(was), First(keys, m + 1), was)
    ensures DetailsUpTo(more, was, AllVotes(was), keys, m + 1)
  {
    hide MarkedAll, FlagAll, VerdictOf, Contested, DetailsUpTo, Describes, AllVotes, Ascending, PlacesOf, IsTally,
         KeyLe, ValidPlaces;
    ghost var votes := AllVotes(was);
    ghost var done := First(keys, m);
    GroupTallies(was, key);
    var verdict, counts := Judge(group, votes, key);
    assert key !in done;
    assert First(keys, m + 1) == done + {key} by {
      assert keys[..m + 1] == keys[..m] + [key];
    }
    GroupMarked(votes, done, was, key);
    if verdict == Unanimous {
      UnanimousMarksNothing(results[..], group);
      SkipDetail(details, was, votes, keys, m);
      return details;
    }
    MarkGroup(results, group, verdict);
    more := details + [DetailOf(key, |group|, verdict, counts)];
    AddDetail(details, was, votes, keys, m, verdict, counts);
  }

  lemma GroupTallies(was: seq<TargetResult>, key: Key)
    ensures Tallies(Group(was, key), AllVotes(was), key)
  {
    hide PlacesOf, Votes, Count;
    forall c ensures Count(Group(was, key), c, |Group(was, key)|) == AllVotes(was)[Ballot(key, c)] {
      GroupCount(was, |was|, key, c);
    }
  }

  lemma UnanimousMarksNothing(results: seq<TargetResult>, group: seq<Place>)
    requires ValidPlaces(results, group)
    ensures FlagAll(results, group, Unanimous, |group|) == results
  {
    NothingFlagged(results, group, |group|);
  }

  lemma {:induction false} NothingFlagged(results: seq<TargetResult>, group: seq<Place>, k: nat)
    requires ValidPlaces(results, group) && k <= |group|
    ensures FlagAll(results, group, Unanimous, k) == results
  {
    if k > 0 {
      NothingFlagged(results, group, k - 1);
      PutSame(results, group[k - 1]);
    }
  }

  lemma PutSame(results: seq<TargetResult>, p: Place)
    requires Valid(results, p)
    ensures Put(results, p, At(results, p)) == results
  {
    var r := results[p.result];
    assert r.observations[p.index := At(results, p)] == r.observations;
  }

  lemma SkipDetail(details: seq<Detail>, was: seq<TargetResult>, votes: multiset<Ballot>, keys: seq<Key>, m: nat)
    requires m < |keys| && DetailsUpTo(details, was, votes, keys, m) && VerdictOf(votes, keys[m]) == Unanimous
    ensures DetailsUpTo(details, was, votes, keys, m + 1)
  {
    hide Describes, Contested, KeyLe;
    assert keys[..m + 1] == keys[..m] + [keys[m]];
    UnanimousIsUncontested(votes, keys[m]);
  }

  lemma UnanimousIsUncontested(votes: multiset<Ballot>, key: Key)
    ensures VerdictOf(votes, key) == Unanimous <==> !Contested(votes, key)
  {
  }

  lemma AddDetail(details: seq<Detail>, was: seq<TargetResult>, votes: multiset<Ballot>, keys: seq<Key>, m: nat,
                  verdict: Verdict, counts: map<string, nat>)
    requires m < |keys| && DetailsUpTo(details, was, votes, keys, m)
    requires Distinct(keys) && Ascending(keys, KeyLe)
    requires verdict == VerdictOf(votes, keys[m]) && verdict != Unanimous && IsTally(counts, votes, keys[m])
    ensures DetailsUpTo(details + [DetailOf(keys[m], |Group(was, keys[m])|, verdict, counts)], was, votes, keys, m + 1)
  {
    hide VerdictOf, Contested, PlacesOf, IsTally, KeyLe;
    var d := DetailOf(keys[m], |Group(was, keys[m])|, verdict, counts);
    var more := details + [d];
    UnanimousIsUncontested(votes, keys[m]);
    assert keys[..m + 1] == keys[..m] + [keys[m]];
    assert Describes(d, was, votes);
    forall a | 0 <= a < |details| ensures details[a].key != keys[m] && KeyLe(details[a].key, keys[m]) {
      assert details[a] in details;
      var k :| 0 <= k < m && keys[..m][k] == details[a].key;
      assert keys[k] == details[a].key;
    }
    forall k | 0 <= k < m + 1 && Contested(votes, keys[k]) ensures exists e :: e in more && e.key == keys[k] {
      if k == m {
        assert d in more;
      } else {
        var e :| e in details && e.key == keys[k];
        assert e in more;
      }
    }
  }

  /** markDivergence: the flags are the specification's, whatever order the groups
      come in, and the details list every contested query once, in key order. */
  method MarkDivergence(results: array<TargetResult>) returns (details: seq<Detail>)
    modifies results
    ensures results[..] == MarkDivergent(old(results[..]))
    ensures var was, votes := old(results[..]), AllVotes(old(results[..]));
            && (forall d :: d in details ==> Describes(d, was, votes))
            && (forall key :: Contested(votes, key) ==> exists d :: d in details && d.key == key)
            && (forall a, b :: 0 <= a < b < |details| ==>
                  details[a].key != details[b].key && KeyLe(details[a].key, details[b].key))
  {
    hide MarkedAll, AllVotes, PlacesOf, Describes, Contested, DetailsUpTo, KeyLe, KeysIn;
    ghost var was := results[..];
    ghost var votes := AllVotes(was);
    var groups := Collect(results);
    ResetIsUnmarked(votes, was);
    var keys := SortedKeys(groups);
    details := [];
    NoDetails(was, votes, keys);
    assert First(keys, 0) == {};
    for m := 0 to |keys|
      invariant results[..] == MarkedAll(votes, First(keys, m), was)
      invariant DetailsUpTo(details, was, votes, keys, m)
    {
      assert keys[m] in keys;
      details := MarkQuery(results, keys[m], groups[keys[m]], details, was, keys, m);
    }
    assert First(keys, |keys|) == KeysIn(votes) by {
      assert keys[..|keys|] == keys;
    }
    AllDetails(details, was, votes, keys);
  }

  lemma NoDetails(was: seq<TargetResult>, votes: multiset<Ballot>, keys: seq<Key>)
    ensures DetailsUpTo([], was, votes, keys, 0)
  {
  }

  lemma AllDetails(details: seq<Detail>, was: seq<TargetResult>, votes: multiset<Ballot>, keys: seq<Key>)
    requires DetailsUpTo(details, was, votes, keys, |keys|)
    requires forall key :: key in keys <==> key in KeysIn(votes)
    ensures forall d :: d in details ==> Describes(d, was, votes)
    ensures forall key :: Contested(votes, key) ==> exists d :: d in details && d.key == key
    ensures forall a, b :: 0 <= a < b < |details| ==>
              details[a].key != details[b].key && KeyLe(details[a].key, details[b].key)
  {
    hide Describes, KeyLe;
    forall key | Contested(votes, key) ensures exists d :: d in details && d.key == key {
      var c, d :| c != d && Ballot(key, c) in votes && Ballot(key, d) in votes;
      assert Ballot(key, c).key in KeysIn(votes);
      var k :| 0 <= k < |keys| && keys[k] == key;
    }
  }
}
