/** Building the query list, and the end-to-end promise of cache-miss mode. */
module BuildQueries {
  import opened Orders
  import opened Report
  import opened CacheGroups
  import opened CacheMiss

  /** What a shuffle draws: at each place, an earlier place or itself. */
  ghost predicate Draws(draws: seq<nat>, n: nat) {
    |draws| == n && forall i :: 0 <= i < n ==> draws[i] <= i
  }

  /** rand.Shuffle as a function: swaps from the last place down to place 1. */
  function ShuffleFrom<T>(s: seq<T>, draws: seq<nat>, i: nat): (r: seq<T>)
    requires Draws(draws, |s|) && i <= |s|
    ensures |r| == |s|
    decreases i
  {
    if i <= 1 then s else ShuffleFrom(Swap(s, i - 1, draws[i - 1]), draws, i - 1)
  }

  function Swap<T>(s: seq<T>, i: nat, j: nat): (r: seq<T>)
    requires i < |s| && j < |s|
    ensures |r| == |s|
  {
    s[i := s[j]][j := s[i]]
  }

  method Shuffle<T>(a: array<T>, draws: seq<nat>)
    requires Draws(draws, a.Length)
    modifies a
    ensures a[..] == ShuffleFrom(old(a[..]), draws, a.Length)
  {
    var i := a.Length;
    while i > 1
      invariant 0 <= i <= a.Length
      invariant ShuffleFrom(a[..], draws, i) == ShuffleFrom(old(a[..]), draws, a.Length)
    {
      ghost var before := a[..];
      i := i - 1;
      a[i], a[draws[i]] := a[draws[i]], a[i];
      assert a[..] == Swap(before, i, draws[i]);
    }
  }

  /** A shuffle only rearranges. */
  lemma {:induction false} ShuffleKeepsAll<T>(s: seq<T>, draws: seq<nat>, i: nat)
    requires Draws(draws, |s|) && i <= |s|
    ensures multiset(ShuffleFrom(s, draws, i)) == multiset(s)
    decreases i
  {
    if i > 1 {
      ShuffleKeepsAll(Swap(s, i - 1, draws[i - 1]), draws, i - 1);
      assert multiset(Swap(s, i - 1, draws[i - 1])) == multiset(s);
    }
  }

  // ----- every order can be drawn -----

  /** For every rearrangement there are draws that give it. */
  lemma {:induction false} EveryOrderIsDrawn<T>(s: seq<T>, t: seq<T>, i: nat) returns (draws: seq<nat>)
    requires |s| == |t| && i <= |s| && multiset(s[..i]) == multiset(t[..i]) && s[i..] == t[i..]
    ensures Draws(draws, |s|) && ShuffleFrom(s, draws, i) == t
    decreases i
  {
    hide Swap, ShuffleFrom;
    if i <= 1 {
      draws := seq(|s|, _ => 0);
      FrontOfOne(s, t, i);
      ShuffleStep(s, draws, i);
    } else {
      SameElements(s[..i], t[..i]);
      assert t[..i][i - 1] == t[i - 1];
      var j := Orders.Find(s[..i], t[i - 1]);
      var next := Swap(s, i - 1, j);
      SwapsIntoPlace(s, t, i, j);
      var rest := EveryOrderIsDrawn(next, t, i - 1);
      draws := rest[i - 1 := j];
      DrawsBelow(next, rest, draws, i - 1);
      ShuffleStep(s, draws, i);
    }
  }

  lemma ShuffleStep<T>(s: seq<T>, draws: seq<nat>, i: nat)
    requires Draws(draws, |s|) && i <= |s|
    ensures ShuffleFrom(s, draws, i) ==
            if i <= 1 then s else ShuffleFrom(Swap(s, i - 1, draws[i - 1]), draws, i - 1)
  {
  }

  lemma FrontOfOne<T>(s: seq<T>, t: seq<T>, i: nat)
    requires |s| == |t| && i <= |s| && i <= 1 && multiset(s[..i]) == multiset(t[..i]) && s[i..] == t[i..]
    ensures s == t
  {
    assert s == s[..i] + s[i..] && t == t[..i] + t[i..];
    if i == 1 {
      assert s[..1][0] in multiset(t[..1]);
    }
  }

  lemma SwapsIntoPlace<T>(s: seq<T>, t: seq<T>, i: nat, j: nat)
    requires |s| == |t| && 1 < i <= |s| && j < i && s[j] == t[i - 1]
    requires multiset(s[..i]) == multiset(t[..i]) && s[i..] == t[i..]
    ensures var next := Swap(s, i - 1, j);
            multiset(next[..i - 1]) == multiset(t[..i - 1]) && next[i - 1..] == t[i - 1..]
  {
    var next := Swap(s, i - 1, j);
    SwapInFront(s, i, j);
    LastOfFront(next, i);
    LastOfFront(t, i);
    Cancel(multiset(next[..i - 1]), multiset(t[..i - 1]), t[i - 1]);
  }

  lemma SwapInFront<T>(s: seq<T>, i: nat, j: nat)
    requires 1 < i <= |s| && j < i
    ensures var next := Swap(s, i - 1, j); multiset(next[..i]) == multiset(s[..i]) && next[i..] == s[i..]
  {
    assert Swap(s, i - 1, j)[..i] == Swap(s[..i], i - 1, j);
  }

  lemma LastOfFront<T>(s: seq<T>, i: nat)
    requires 0 < i <= |s|
    ensures multiset(s[..i]) == multiset(s[..i - 1]) + multiset{s[i - 1]} && s[i - 1..] == [s[i - 1]] + s[i..]
  {
    assert s[..i] == s[..i - 1] + [s[i - 1]];
  }

  /** Only the draws below a place matter for what happens below it. */
  lemma {:induction false} DrawsBelow<T>(s: seq<T>, draws: seq<nat>, others: seq<nat>, i: nat)
    requires Draws(draws, |s|) && Draws(others, |s|) && i <= |s| && forall k :: 0 <= k < i ==> draws[k] == others[k]
    ensures ShuffleFrom(s, draws, i) == ShuffleFrom(s, others, i)
    decreases i
  {
    if i > 1 { DrawsBelow(Swap(s, i - 1, draws[i - 1]), draws, others, i - 1); }
  }

  /** What a place is given by its own draw stays there. */
  lemma {:induction false} PlaceIsFinal<T>(s: seq<T>, draws: seq<nat>, i: nat, k: nat)
    requires Draws(draws, |s|) && i <= k < |s|
    ensures ShuffleFrom(s, draws, i)[k] == s[k]
    decreases i
  {
    if i > 1 { PlaceIsFinal(Swap(s, i - 1, draws[i - 1]), draws, i - 1, k); }
  }

  /** Over distinct elements different draws give different orders. So the draws of a
      shuffle and the orders of its list answer each other one to one: drawing evenly
      makes every order as likely as any other. */
  lemma {:induction false} DrawsAreTold<T>(s: seq<T>, draws: seq<nat>, others: seq<nat>, i: nat, k: nat)
    requires Draws(draws, |s|) && Draws(others, |s|) && Distinct(s) && i <= |s| && 1 <= k < i
    requires ShuffleFrom(s, draws, i) == ShuffleFrom(s, others, i)
    ensures draws[k] == others[k]
    decreases i
  {
    var a, b := Swap(s, i - 1, draws[i - 1]), Swap(s, i - 1, others[i - 1]);
    PlaceIsFinal(a, draws, i - 1, i - 1);
    PlaceIsFinal(b, others, i - 1, i - 1);
    assert s[draws[i - 1]] == s[others[i - 1]];
    if k < i - 1 {
      SwapDistinct(s, i - 1, draws[i - 1]);
      DrawsAreTold(a, draws, others, i - 1, k);
    }
  }

  lemma SwapDistinct<T>(s: seq<T>, i: nat, j: nat)
    requires Distinct(s) && i < |s| && j < |s|
    ensures Distinct(Swap(s, i, j))
  {
  }

  // ----- the list of questions -----

  /** The query of place i in the full list: every type of a name, then the next name. */
  function Asked(source: seq<string>, types: seq<nat>, k: nat): seq<Query>
    requires k <= |source|
  {
    if k == 0 then [] else Asked(source, types, k - 1) + AskedOf(source[k - 1], types, |types|)
  }

  function AskedOf(name: string, types: seq<nat>, k: nat): (r: seq<Query>)
    requires k <= |types|
    ensures |r| == k && forall i :: 0 <= i < k ==> r[i] == Query(name, types[i])
  {
    if k == 0 then [] else AskedOf(name, types, k - 1) + [Query(name, types[k - 1])]
  }

  /** One question per name; the types take turns. */
  function AskedOnce(source: seq<string>, types: seq<nat>, k: nat): (r: seq<Query>)
    requires k <= |source| && types != []
    ensures |r| == k && forall i :: 0 <= i < k ==> r[i] == Query(source[i], types[i % |types|])
  {
    if k == 0 then [] else AskedOnce(source, types, k - 1) + [Query(source[k - 1], types[(k - 1) % |types|])]
  }

  lemma AskedOfMember(name: string, types: seq<nat>, q: Query)
    ensures q in AskedOf(name, types, |types|) <==> q.name == name && q.qtype in types
  {
    if q.name == name && q.qtype in types {
      var i := Orders.Find(types, q.qtype);
      assert AskedOf(name, types, |types|)[i] == q;
    }
  }

  lemma {:induction false} AskedMember(source: seq<string>, types: seq<nat>, k: nat, q: Query)
    requires k <= |source|
    ensures q in Asked(source, types, k) <==> q.name in source[..k] && q.qtype in types
  {
    if k > 0 {
      AskedMember(source, types, k - 1, q);
      AskedOfMember(source[k - 1], types, q);
      AskedStep(source, types, k);
      TakeOneMore(source, k);
      hide Asked, AskedOf;
      InEither(Asked(source, types, k - 1), AskedOf(source[k - 1], types, |types|), q);
      InEither(source[..k - 1], [source[k - 1]], q.name);
    }
  }

  lemma AskedStep(source: seq<string>, types: seq<nat>, k: nat)
    requires 0 < k <= |source|
    ensures Asked(source, types, k) == Asked(source, types, k - 1) + AskedOf(source[k - 1], types, |types|)
  {
    hide AskedOf;
  }

  lemma TakeOneMore<T>(s: seq<T>, k: nat)
    requires 0 < k <= |s|
    ensures s[..k] == s[..k - 1] + [s[k - 1]]
  {
  }

  lemma DistinctJoined<T>(a: seq<T>, b: seq<T>)
    requires Distinct(a) && Distinct(b) && forall x :: x in a ==> x !in b
    ensures Distinct(a + b)
  {
    forall i, j | 0 <= i < |a| && 0 <= j < |b| ensures a[i] != b[j] {
      assert a[i] in a;
    }
  }

  lemma InEither<T>(a: seq<T>, b: seq<T>, x: T)
    ensures x in a + b <==> x in a || x in b
  {
  }

  lemma OneMoreRow(k: nat, m: nat)
    requires k > 0
    ensures k * m == (k - 1) * m + m
  {
  }

  lemma {:induction false} AskedLength(source: seq<string>, types: seq<nat>, k: nat)
    requires k <= |source|
    ensures |Asked(source, types, k)| == k * |types|
  {
    if k > 0 {
      hide Asked, AskedOf;
      AskedStep(source, types, k);
      AskedLength(source, types, k - 1);
      OneMoreRow(k, |types|);
    }
  }

  lemma NextNameIsNew(source: seq<string>, types: seq<nat>, k: nat, q: Query)
    requires 0 < k <= |source| && Distinct(source) && q in Asked(source, types, k - 1)
    ensures q !in AskedOf(source[k - 1], types, |types|)
  {
    hide Asked, AskedOf;
    AskedMember(source, types, k - 1, q);
    AskedOfMember(source[k - 1], types, q);
    var m := Orders.Find(source[..k - 1], q.name);
    assert source[m] == q.name;
  }

  lemma AskedOfDistinct(name: string, types: seq<nat>)
    requires Distinct(types)
    ensures Distinct(AskedOf(name, types, |types|))
  {
  }

  lemma {:induction false} AskedDistinct(source: seq<string>, types: seq<nat>, k: nat)
    requires k <= |source| && Distinct(source) && Distinct(types)
    ensures Distinct(Asked(source, types, k))
  {
    if k > 0 {
      AskedDistinct(source, types, k - 1);
      AskedStep(source, types, k);
      hide Asked, AskedOf;
      var front, last := Asked(source, types, k - 1), AskedOf(source[k - 1], types, |types|);
      forall q | q in front ensures q !in last {
        NextNameIsNew(source, types, k, q);
      }
      AskedOfDistinct(source[k - 1], types);
      DistinctJoined(front, last);
    }
  }

  /** The settings of a run and the draws its seed gives. sample must be positive
      unless full is set. */
  datatype Options = Options(sample: nat, full: bool, types: seq<nat>, cacheMiss: bool,
                             sourceDraws: seq<nat>, queryDraws: seq<nat>)

  function SampleSize(o: Options, names: nat): (n: nat)
    ensures n <= names
  {
    if o.full || o.sample > names then names else o.sample
  }

  ghost predicate Drawn(o: Options, names: seq<string>) {
    && o.types != [] && Draws(o.sourceDraws, |names|)
    && Draws(o.queryDraws, |Listed(o, ShuffleFrom(names, o.sourceDraws, |names|))|)
  }

  /** The queries of the sampled names, before they are shuffled. */
  function Listed(o: Options, source: seq<string>): seq<Query>
    requires o.types != []
  {
    var count := SampleSize(o, |source|);
    if o.cacheMiss then AskedOnce(source, o.types, count) else Asked(source, o.types, count)
  }

  /** The query list of a run. */
  function Queries(o: Options, names: seq<string>): seq<Query>
    requires Drawn(o, names)
  {
    var listed := Listed(o, ShuffleFrom(names, o.sourceDraws, |names|));
    ShuffleFrom(listed, o.queryDraws, |listed|)
  }

  /** buildQueries, after the names are normalised. */
  method BuildQueries(names: seq<string>, o: Options) returns (queries: seq<Query>)
    requires Drawn(o, names)
    ensures queries == Queries(o, names)
  {
    var source := Shuffled(names, o.sourceDraws);
    var listed := ListQueries(source, SampleSize(o, |source|), o.types, o.cacheMiss);
    queries := Shuffled(listed, o.queryDraws);
  }

  method Shuffled<T>(s: seq<T>, draws: seq<nat>) returns (r: seq<T>)
    requires Draws(draws, |s|)
    ensures r == ShuffleFrom(s, draws, |s|)
  {
    var a := new T[|s|](i requires 0 <= i < |s| => s[i]);
    assert a[..] == s;
    Shuffle(a, draws);
    r := a[..];
  }

  method ListQueries(source: seq<string>, count: nat, types: seq<nat>, cacheMiss: bool) returns (list: seq<Query>)
    requires count <= |source| && types != []
    ensures list == if cacheMiss then AskedOnce(source, types, count) else Asked(source, types, count)
  {
    list := [];
    if cacheMiss {
      for index := 0 to count
        invariant list == AskedOnce(source, types, index)
      {
        list := list + [Query(source[index], types[index % |types|])];
      }
      return;
    }
    for index := 0 to count
      invariant list == Asked(source, types, index)
    {
      ghost var before := list;
      for t := 0 to |types|
        invariant list == before + AskedOf(source[index], types, t)
      {
        list := list + [Query(source[index], types[t])];
      }
    }
  }

  /** The sampled names: the first so many of a rearrangement. */
  lemma QueriesAreListed(o: Options, names: seq<string>)
    requires Drawn(o, names)
    ensures var source := ShuffleFrom(names, o.sourceDraws, |names|);
            && multiset(source) == multiset(names)
            && multiset(Queries(o, names)) == multiset(Listed(o, source))
  {
    hide ShuffleFrom, Listed;
    var source := ShuffleFrom(names, o.sourceDraws, |names|);
    ShuffleKeepsAll(names, o.sourceDraws, |names|);
    ShuffleKeepsAll(Listed(o, source), o.queryDraws, |Listed(o, source)|);
  }

  /** How many names are sampled, and how many questions that makes. In cache-miss mode
      the sampled names are asked one type each, the types taking turns. */
  lemma QuestionsSpelledOut(o: Options, names: seq<string>, q: Query)
    requires Drawn(o, names)
    ensures var source, n := ShuffleFrom(names, o.sourceDraws, |names|), |names|;
            var count := if !o.full && o.sample < n then o.sample else n;
            && |Queries(o, names)| == (if o.cacheMiss then count else count * |o.types|)
            && (q in Queries(o, names) <==>
                  if o.cacheMiss then exists i :: 0 <= i < count && q == Query(source[i], o.types[i % |o.types|])
                  else q.name in source[..count] && q.qtype in o.types)
  {
    hide Queries, ShuffleFrom;
    QueriesAreListed(o, names);
    var source := ShuffleFrom(names, o.sourceDraws, |names|);
    var count := SampleSize(o, |names|);
    ShuffleLength(o, names);
    SameElements(Queries(o, names), Listed(o, source));
    if !o.cacheMiss {
      hide Asked;
      AskedLength(source, o.types, count);
      AskedMember(source, o.types, count, q);
    } else {
      AskedOnceMember(source, o.types, count, q);
    }
  }

  lemma ShuffleLength(o: Options, names: seq<string>)
    requires Drawn(o, names)
    ensures |ShuffleFrom(names, o.sourceDraws, |names|)| == |names|
  {
  }

  lemma AskedOnceMember(source: seq<string>, types: seq<nat>, count: nat, q: Query)
    requires types != [] && count <= |source|
    ensures q in AskedOnce(source, types, count) <==>
            exists i :: 0 <= i < count && q == Query(source[i], types[i % |types|])
  {
    hide AskedOnce;
    var asked := AskedOnce(source, types, count);
    if i :| 0 <= i < count && q == Query(source[i], types[i % |types|]) {
      assert asked[i] == q;
    }
  }

  /** In cache-miss mode no name is in the list twice, for any selection of types. */
  lemma EachNameOnce(o: Options, names: seq<string>, p: nat, q: nat)
    requires Drawn(o, names) && o.cacheMiss && Distinct(names)
    requires p < |Queries(o, names)| && q < |Queries(o, names)| &&
             Queries(o, names)[p].name == Queries(o, names)[q].name
    ensures p == q
  {
    hide Queries, ShuffleFrom;
    QueriesAreListed(o, names);
    var source := ShuffleFrom(names, o.sourceDraws, |names|);
    DistinctRearranged(names, source);
    AskedOnceApart(source, o.types, SampleSize(o, |source|), Queries(o, names), p, q);
  }

  lemma AskedOnceApart(source: seq<string>, types: seq<nat>, count: nat, queries: seq<Query>, p: nat, q: nat)
    requires types != [] && count <= |source| && Distinct(source)
    requires multiset(queries) == multiset(AskedOnce(source, types, count))
    requires p < |queries| && q < |queries| && queries[p].name == queries[q].name
    ensures p == q
  {
    var asked := AskedOnce(source, types, count);
    AskedOnceDistinct(source, types, count);
    hide AskedOnce;
    DistinctRearranged(asked, queries);
    SameElements(queries, asked);
    assert queries[p] in asked && queries[q] in asked;
    var i := Orders.Find(asked, queries[p]);
    var j := Orders.Find(asked, queries[q]);
    assert source[i] == source[j];
  }

  lemma AskedOnceDistinct(source: seq<string>, types: seq<nat>, count: nat)
    requires types != [] && count <= |source| && Distinct(source)
    ensures Distinct(AskedOnce(source, types, count))
  {
    var asked := AskedOnce(source, types, count);
    forall i, j | 0 <= i < j < |asked| ensures asked[i] != asked[j] {
      assert source[i] != source[j];
    }
  }

  /** Outside cache-miss mode every sampled name is asked every type, once. */
  lemma EveryTypeOnce(o: Options, names: seq<string>, q: Query)
    requires Drawn(o, names) && !o.cacheMiss && Distinct(names) && Distinct(o.types)
    ensures var source := ShuffleFrom(names, o.sourceDraws, |names|);
            var count := SampleSize(o, |names|);
            && |Queries(o, names)| == count * |o.types|
            && multiset(Queries(o, names))[q] == if q.name in source[..count] && q.qtype in o.types then 1 else 0
  {
    hide Queries, ShuffleFrom;
    QueriesAreListed(o, names);
    var source := ShuffleFrom(names, o.sourceDraws, |names|);
    var count := SampleSize(o, |names|);
    DistinctRearranged(names, source);
    AskedMember(source, o.types, count, q);
    AskedLength(source, o.types, count);
    AskedDistinct(source, o.types, count);
    DistinctCount(Asked(source, o.types, count), q);
    SameElements(Queries(o, names), Asked(source, o.types, count));
  }

  /** One measured exchange: which kept endpoint, and which query. */
  datatype Exchange = Exchange(endpoint: nat, query: nat)

  /** A chain of shared names links the declared profiles of the two endpoints. */
  ghost predicate SameServer(profiles: seq<Profile>, canonical: string -> string, e: Endpoint, f: Endpoint) {
    exists i, j :: 0 <= i < |profiles| && 0 <= j < |profiles| && profiles[i].id == e.resolver.id &&
                   profiles[j].id == f.resolver.id && OneServer(profiles, canonical, i, j)
  }

  /** Over a whole cache-miss run, two measured exchanges that ask one name at
      endpoints linked by any chain of cache keys are the same exchange. s is what
      CacheMissTargets makes of the profiles. */
  lemma NoQuestionTwice(profiles: seq<Profile>, canonical: string -> string, s: Selection, o: Options,
                        names: seq<string>,
                        x: Exchange, y: Exchange)
    requires Valid(s) && Declares(profiles, s.declared) && CachesAreServers(profiles, canonical, s)
    requires Drawn(o, names) && o.cacheMiss && Distinct(names)
    requires x.endpoint < |Kept(s)| && y.endpoint < |Kept(s)|
    requires SameServer(profiles, canonical, Kept(s)[x.endpoint], Kept(s)[y.endpoint])
    requires x.query < |Queries(o, names)| && y.query < |Queries(o, names)|
    requires Queries(o, names)[x.query].name == Queries(o, names)[y.query].name
    ensures x == y
  {
    hide OneServer, Keeps, Queries;
    EachNameOnce(o, names, x.query, y.query);
    var kept := KeptIndexes(s, |s.targets|);
    var i, j := kept[x.endpoint], kept[y.endpoint];
    assert i in kept && j in kept && s.cache[i] == s.cache[j];
    var only := OneKeptPerCache(s, i);
    KeptElements(s, |s.targets|);
    assert i == only && j == only;
  }
}
