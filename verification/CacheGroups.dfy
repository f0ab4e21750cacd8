/** Grouping resolver profiles by the cache they reach: an in-place union-find
    whose result is the transitive closure of sharing a cache key. */
module CacheGroups {
  import opened Orders

  /** The cache keys of every profile, in declared order. */
  type Keys = seq<seq<string>>

  // ----- the definition -----

  ghost predicate Shares(keys: Keys, i: nat, j: nat) {
    i < |keys| && j < |keys| && exists key :: key in keys[i] && key in keys[j]
  }

  /** A chain of profiles, each sharing a key with the next. */
  ghost predicate Chain(keys: Keys, path: seq<nat>) {
    && path != []
    && (forall m :: 0 <= m < |path| ==> path[m] < |keys|)
    && forall m :: 0 <= m < |path| - 1 ==> Shares(keys, path[m], path[m + 1])
  }

  ghost predicate Linked(keys: Keys, i: nat, j: nat) {
    exists path :: Chain(keys, path) && path[0] == i && path[|path| - 1] == j
  }

  lemma LinkedToSelf(keys: Keys, i: nat)
    requires i < |keys|
    ensures Linked(keys, i, i)
  {
    assert Chain(keys, [i]) && [i][0] == i;
  }

  lemma LinkedByKey(keys: Keys, i: nat, j: nat)
    requires Shares(keys, i, j)
    ensures Linked(keys, i, j)
  {
    assert Chain(keys, [i, j]) && [i, j][0] == i;
  }

  lemma LinkedBack(keys: Keys, i: nat, j: nat)
    requires Linked(keys, i, j)
    ensures Linked(keys, j, i)
  {
    var path :| Chain(keys, path) && path[0] == i && path[|path| - 1] == j;
    var back := seq(|path|, m requires 0 <= m < |path| => path[|path| - 1 - m]);
    forall m | 0 <= m < |back| - 1 ensures Shares(keys, back[m], back[m + 1]) {
      assert Shares(keys, path[|path| - 2 - m], path[|path| - 2 - m + 1]);
    }
    assert Chain(keys, back) && back[0] == j;
  }

  lemma LinkedOn(keys: Keys, i: nat, j: nat, k: nat)
    requires Linked(keys, i, j) && Linked(keys, j, k)
    ensures Linked(keys, i, k)
  {
    var p :| Chain(keys, p) && p[0] == i && p[|p| - 1] == j;
    var q :| Chain(keys, q) && q[0] == j && q[|q| - 1] == k;
    var path := p + q[1..];
    forall m | 0 <= m < |path| - 1 ensures Shares(keys, path[m], path[m + 1]) {
      if m >= |p| - 1 {
        var n := m - (|p| - 1);
        assert path[m] == q[n] && path[m + 1] == q[n + 1];
      }
    }
    assert Chain(keys, path) && path[0] == i;
  }

  /** What the result must be: each profile's earliest linked profile. */
  ghost predicate IsGrouping(keys: Keys, root: seq<nat>) {
    && |root| == |keys|
    && (forall i, j :: 0 <= i < |root| && 0 <= j < |root| ==> (root[i] == root[j] <==> Linked(keys, i, j)))
    && (forall i :: 0 <= i < |root| ==> Linked(keys, i, root[i]))
    && (forall i, j :: 0 <= i < |root| && Linked(keys, i, j) ==> root[i] <= j)
  }

  /** There is only one grouping, and it depends on which keys each profile has,
      not on their order. */
  lemma GroupingIsUnique(keys: Keys, others: Keys, root: seq<nat>, other: seq<nat>)
    requires |keys| == |others|
    requires forall i, key :: 0 <= i < |keys| ==> (key in keys[i] <==> key in others[i])
    requires IsGrouping(keys, root) && IsGrouping(others, other)
    ensures root == other
  {
    forall i, j ensures Shares(keys, i, j) == Shares(others, i, j) {
    }
    forall path ensures Chain(keys, path) == Chain(others, path) {
    }
    forall i, j ensures Linked(keys, i, j) == Linked(others, i, j) {
    }
    forall i | 0 <= i < |root| ensures root[i] == other[i] {
      assert Linked(keys, i, root[i]) && Linked(others, i, other[i]);
      assert root[i] <= other[i] && other[i] <= root[i];
    }
  }

  // ----- the forest -----

  /** Parents never come after their children, so following them ends. */
  ghost predicate Forest(root: seq<nat>) {
    forall i :: 0 <= i < |root| ==> root[i] <= i
  }

  ghost function Rep(root: seq<nat>, i: nat): (r: nat)
    requires Forest(root) && i < |root|
    ensures r <= i && root[r] == r
  {
    if root[i] == i then i else Rep(root, root[i])
  }

  /** A parent link is only ever made between linked profiles. */
  ghost predicate Sound(keys: Keys, root: seq<nat>) {
    && |root| == |keys| && Forest(root)
    && forall i :: 0 <= i < |root| ==> Linked(keys, i, root[i])
  }

  lemma {:induction false} RepLinked(keys: Keys, root: seq<nat>, i: nat)
    requires Sound(keys, root) && i < |root|
    ensures Linked(keys, i, Rep(root, i))
  {
    if root[i] == i {
      LinkedToSelf(keys, i);
    } else {
      RepLinked(keys, root, root[i]);
      LinkedOn(keys, i, root[i], Rep(root, i));
    }
  }

  /** Hanging one root under an earlier one merges exactly the two trees. */
  lemma {:induction false} UnionRep(root: seq<nat>, earlier: nat, later: nat, i: nat)
    requires Forest(root) && i < |root| && earlier <= later < |root|
    requires root[later] == later && root[earlier] == earlier
    ensures Forest(root[later := earlier])
    ensures Rep(root[later := earlier], i) == if Rep(root, i) == later then earlier else Rep(root, i)
  {
    if root[i] != i { UnionRep(root, earlier, later, root[i]); }
  }

  /** Shortening a path to the root changes no representative. */
  lemma {:induction false} CompressRep(root: seq<nat>, at: nat, i: nat)
    requires Forest(root) && i < |root| && at < |root|
    ensures Forest(root[at := Rep(root, at)])
    ensures Rep(root[at := Rep(root, at)], i) == Rep(root, i)
  {
    var after := root[at := Rep(root, at)];
    if i == at {
      RootStays(root, after, at);
    } else if root[i] != i {
      CompressRep(root, at, root[i]);
    }
  }

  lemma RootStays(root: seq<nat>, after: seq<nat>, at: nat)
    requires Forest(root) && at < |root| && after == root[at := Rep(root, at)] && Forest(after)
    ensures Rep(after, at) == Rep(root, at)
  {
    var r := Rep(root, at);
    assert after[r] == r;
    assert Rep(after, r) == r;
  }

  // ----- the keys seen so far -----

  /** Key number m of profile i has been looked at. */
  ghost predicate Seen(keys: Keys, i: nat, m: nat, p: nat, key: string) {
    p < |keys| && ((p < i && key in keys[p]) || (p == i && m <= |keys[p]| && key in keys[p][..m]))
  }

  /** Everybody seen with a key is in the tree of the key's owner. */
  ghost predicate Covered(keys: Keys, root: seq<nat>, owner: map<string, nat>, i: nat, m: nat)
    requires |root| == |keys| && Forest(root)
  {
    && (forall key :: key in owner ==> owner[key] < |keys| && Seen(keys, i, m, owner[key], key))
    && (forall p: nat, key :: Seen(keys, i, m, p, key) ==>
          key in owner && owner[key] < |keys| && Rep(root, p) == Rep(root, owner[key]))
  }

  // ----- the loops -----

  method Find(root: array<nat>, index: nat) returns (r: nat)
    requires Forest(root[..]) && index < root.Length
    ensures r < root.Length && r == Rep(root[..], index)
  {
    r := index;
    while root[r] != r
      invariant r < root.Length && Rep(root[..], r) == Rep(root[..], index)
      decreases r
    {
      r := root[r];
    }
  }

  /** One more profile seen with a key somebody owns: their trees become one. */
  method Union(keys: Keys, root: array<nat>, first: nat, index: nat)
    requires Sound(keys, root[..]) && first < root.Length && index < root.Length && Shares(keys, first, index)
    modifies root
    ensures Sound(keys, root[..])
    ensures Rep(root[..], first) == Rep(root[..], index)
    ensures forall p, q :: 0 <= p < |keys| && 0 <= q < |keys| && Rep(old(root[..]), p) == Rep(old(root[..]), q) ==>
              Rep(root[..], p) == Rep(root[..], q)
  {
    ghost var was := root[..];
    var earlier: nat := Find(root, first);
    var later: nat := Find(root, index);
    RepsLinked(keys, was, first, index);
    if later < earlier { earlier, later := later, earlier; }
    root[later] := earlier;
    assert Linked(keys, later, earlier);
    assert root[..] == was[later := earlier];
    forall p | 0 <= p < |keys| ensures Rep(root[..], p) == if Rep(was, p) == later then earlier else Rep(was, p) {
      UnionRep(was, earlier, later, p);
    }
  }

  lemma RepsLinked(keys: Keys, root: seq<nat>, first: nat, index: nat)
    requires Sound(keys, root) && first < |root| && index < |root| && Shares(keys, first, index)
    ensures Linked(keys, Rep(root, first), Rep(root, index)) && Linked(keys, Rep(root, index), Rep(root, first))
  {
    RepLinked(keys, root, first);
    RepLinked(keys, root, index);
    LinkedByKey(keys, first, index);
    LinkedBack(keys, first, Rep(root, first));
    LinkedOn(keys, Rep(root, first), first, index);
    LinkedOn(keys, Rep(root, first), index, Rep(root, index));
    LinkedBack(keys, Rep(root, first), Rep(root, index));
  }

  /** cacheGroups. */
  method CacheGroups(keys: Keys) returns (root: array<nat>)
    ensures fresh(root) && IsGrouping(keys, root[..])
  {
    root := new nat[|keys|](i => i);
    SelfRoots(keys, root[..]);
    var owner: map<string, nat> := map[];
    for i := 0 to |keys|
      invariant Sound(keys, root[..]) && Covered(keys, root[..], owner, i, 0)
    {
      hide Linked, Rep, Covered;
      for m := 0 to |keys[i]|
        invariant Sound(keys, root[..]) && Covered(keys, root[..], owner, i, m)
      {
        var key := keys[i][m];
        if key !in owner {
          OwnerAdded(keys, root[..], owner, i, m);
          owner := owner[key := i];
        } else {
          OwnerShares(keys, root[..], owner, i, m);
          ghost var was := root[..];
          Union(keys, root, owner[key], i);
          KeyCovered(keys, was, root[..], owner, i, m);
        }
      }
      ProfileCovered(keys, root[..], owner, i);
    }
    ghost var forest := root[..];
    Flatten(root);
    GroupingFromReps(keys, forest, root[..], owner);
  }

  lemma SelfRoots(keys: Keys, root: seq<nat>)
    requires |root| == |keys| && forall i :: 0 <= i < |root| ==> root[i] == i
    ensures Sound(keys, root) && Covered(keys, root, map[], 0, 0)
  {
    forall i | 0 <= i < |root| ensures Linked(keys, i, root[i]) {
      LinkedToSelf(keys, i);
    }
  }

  lemma SeenNext(keys: Keys, i: nat, m: nat, p: nat, key: string)
    requires i < |keys| && m < |keys[i]|
    ensures Seen(keys, i, m + 1, p, key) <==> Seen(keys, i, m, p, key) || (p == i && key == keys[i][m])
    ensures Seen(keys, i, m + 1, p, key) ==> p < |keys|
  {
    assert keys[i][..m + 1] == keys[i][..m] + [keys[i][m]];
  }

  lemma OwnerAdded(keys: Keys, root: seq<nat>, owner: map<string, nat>, i: nat, m: nat)
    requires i < |keys| && m < |keys[i]| && |root| == |keys| && Forest(root)
    requires Covered(keys, root, owner, i, m) && keys[i][m] !in owner
    ensures Covered(keys, root, owner[keys[i][m] := i], i, m + 1)
  {
    hide Seen;
    var next, added := m + 1, owner[keys[i][m] := i];
    forall key | key in added ensures added[key] < |keys| && Seen(keys, i, next, added[key], key) {
      SeenNext(keys, i, m, added[key], key);
    }
    forall p: nat, key | Seen(keys, i, next, p, key)
      ensures p < |keys| && key in added && added[key] < |keys| && Rep(root, p) == Rep(root, added[key])
    {
      SeenNext(keys, i, m, p, key);
    }
  }

  lemma OwnerShares(keys: Keys, root: seq<nat>, owner: map<string, nat>, i: nat, m: nat)
    requires i < |keys| && m < |keys[i]| && |root| == |keys| && Forest(root)
    requires Covered(keys, root, owner, i, m) && keys[i][m] in owner
    ensures owner[keys[i][m]] < |keys| && Shares(keys, owner[keys[i][m]], i)
  {
    var key := keys[i][m];
    assert key in keys[i] && key in keys[owner[key]];
  }

  lemma KeyCovered(keys: Keys, was: seq<nat>, root: seq<nat>, owner: map<string, nat>, i: nat, m: nat)
    requires i < |keys| && m < |keys[i]| && |root| == |was| == |keys| && Forest(root) && Forest(was)
    requires Covered(keys, was, owner, i, m) && keys[i][m] in owner && owner[keys[i][m]] < |keys|
    requires Rep(root, owner[keys[i][m]]) == Rep(root, i)
    requires forall p, q :: 0 <= p < |keys| && 0 <= q < |keys| && Rep(was, p) == Rep(was, q) ==>
               Rep(root, p) == Rep(root, q)
    ensures Covered(keys, root, owner, i, m + 1)
  {
    hide Seen, Rep;
    var next := m + 1;
    forall key | key in owner ensures owner[key] < |keys| && Seen(keys, i, next, owner[key], key) {
      SeenNext(keys, i, m, owner[key], key);
    }
    forall p: nat, key | Seen(keys, i, next, p, key)
      ensures p < |keys| && key in owner && owner[key] < |keys| && Rep(root, p) == Rep(root, owner[key])
    {
      SeenNext(keys, i, m, p, key);
    }
  }

  lemma ProfileCovered(keys: Keys, root: seq<nat>, owner: map<string, nat>, i: nat)
    requires i < |keys| && |root| == |keys| && Forest(root)
    requires Covered(keys, root, owner, i, |keys[i]|)
    ensures Covered(keys, root, owner, i + 1, 0)
  {
    hide Rep;
    var next, all := i + 1, |keys[i]|;
    assert keys[i][..all] == keys[i];
    forall key | key in owner ensures owner[key] < |keys| && Seen(keys, next, 0, owner[key], key) {
      assert Seen(keys, i, all, owner[key], key);
    }
    forall p: nat, key | Seen(keys, next, 0, p, key)
      ensures key in owner && owner[key] < |keys| && Rep(root, p) == Rep(root, owner[key])
    {
      assert Seen(keys, i, all, p, key);
    }
  }

  lemma SharersTogether(keys: Keys, root: seq<nat>, owner: map<string, nat>, i: nat, j: nat)
    requires |root| == |keys| && Forest(root) && Covered(keys, root, owner, |keys|, 0) && Shares(keys, i, j)
    ensures Rep(root, i) == Rep(root, j)
  {
    var key :| key in keys[i] && key in keys[j];
    assert Seen(keys, |keys|, 0, i, key) && Seen(keys, |keys|, 0, j, key);
  }

  lemma {:induction false} ChainTogether(keys: Keys, root: seq<nat>, owner: map<string, nat>, path: seq<nat>)
    requires |root| == |keys| && Forest(root) && Covered(keys, root, owner, |keys|, 0) && Chain(keys, path)
    ensures Rep(root, path[0]) == Rep(root, path[|path| - 1])
  {
    if |path| > 1 {
      var rest := path[..|path| - 1];
      assert Chain(keys, rest);
      ChainTogether(keys, root, owner, rest);
      assert Shares(keys, path[|path| - 2], path[|path| - 2 + 1]);
      SharersTogether(keys, root, owner, path[|path| - 2], path[|path| - 1]);
    }
  }

  lemma LinkedTogether(keys: Keys, root: seq<nat>, owner: map<string, nat>, i: nat, j: nat)
    requires Sound(keys, root) && Covered(keys, root, owner, |keys|, 0) && i < |keys|
    ensures Linked(keys, i, j) <==> j < |keys| && Rep(root, i) == Rep(root, j)
  {
    if Linked(keys, i, j) {
      var path :| Chain(keys, path) && path[0] == i && path[|path| - 1] == j;
      ChainTogether(keys, root, owner, path);
    }
    if j < |keys| && Rep(root, i) == Rep(root, j) {
      RepLinked(keys, root, i);
      RepLinked(keys, root, j);
      LinkedBack(keys, j, Rep(root, j));
      LinkedOn(keys, i, Rep(root, i), j);
    }
  }

  /** Following every profile to its root gives the grouping. */
  lemma GroupingFromReps(keys: Keys, root: seq<nat>, reps: seq<nat>, owner: map<string, nat>)
    requires Sound(keys, root) && Covered(keys, root, owner, |keys|, 0)
    requires |reps| == |root| && forall i :: 0 <= i < |reps| ==> reps[i] == Rep(root, i)
    ensures IsGrouping(keys, reps)
  {
    hide Linked, Rep, Covered;
    forall i, j | 0 <= i < |reps| && 0 <= j < |reps| ensures reps[i] == reps[j] <==> Linked(keys, i, j) {
      LinkedTogether(keys, root, owner, i, j);
    }
    forall i | 0 <= i < |reps| ensures Linked(keys, i, reps[i]) {
      RepLinked(keys, root, i);
    }
    forall i, j | 0 <= i < |reps| && Linked(keys, i, j) ensures reps[i] <= j {
      LinkedTogether(keys, root, owner, i, j);
    }
  }

  /** The last loop: every profile points at its root. */
  method Flatten(root: array<nat>)
    requires Forest(root[..])
    modifies root
    ensures Forest(root[..])
    ensures forall i :: 0 <= i < root.Length ==> root[i] == Rep(old(root[..]), i) && Rep(root[..], i) == root[i]
  {
    ghost var was := root[..];
    for index := 0 to root.Length
      invariant Forest(root[..])
      invariant forall i :: 0 <= i < root.Length ==> Rep(root[..], i) == Rep(was, i)
      invariant forall i :: 0 <= i < index ==> root[i] == Rep(was, i)
    {
      ghost var now := root[..];
      var r := Find(root, index);
      root[index] := r;
      assert root[..] == now[index := Rep(now, index)];
      forall i | 0 <= i < root.Length ensures Rep(root[..], i) == Rep(now, i) {
        CompressRep(now, index, i);
      }
    }
  }
}
