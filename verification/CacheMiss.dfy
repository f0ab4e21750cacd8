/** Cache-miss mode: one endpoint per cache, each generated name asked once. */
module CacheMiss {
  import opened Orders
  import opened Text
  import opened Report
  import opened CacheGroups

  // ----- profiles, endpoints and their cache keys -----

  /** host is the DoH URL's host name, empty when the URL has none. */
  datatype Spec = Spec(host: string, serverName: string)

  datatype Profile = Profile(id: string, addresses: seq<string>, transports: map<string, Spec>)

  datatype Endpoint = Endpoint(resolver: Profile, protocol: string, address: string)

  datatype Drop = Drop(target: Endpoint, instead: Endpoint)

  /** The names by which a profile's server is reached. */
  ghost predicate IsCacheKey(p: Profile, canonical: string -> string, key: string) {
    || (exists a :: a in p.addresses && canonical(a) == key)
    || (exists protocol :: protocol in p.transports && IsTransportKey(p.transports[protocol], protocol, canonical, key))
  }

  predicate IsTransportKey(spec: Spec, protocol: string, canonical: string -> string, key: string) {
    && (protocol == "doh" || protocol == "dot" || protocol == "doq")
    && ((protocol == "doh" && spec.host != "" && canonical(spec.host) == key) ||
        (TrimSpace(spec.serverName) != "" && canonical(TrimSpace(spec.serverName)) == key))
  }

  /** The name of an encrypted transport, when the profile configures one. */
  ghost predicate ServerNamed(p: Profile, canonical: string -> string, protocol: string, key: string) {
    protocol in p.transports && var name := TrimSpace(p.transports[protocol].serverName);
    name != "" && canonical(name) == key
  }

  /** The keys of a profile are its addresses, the host of its DoH URL, and the server
      names of its encrypted transports; UDP and TCP name nothing. */
  lemma CacheKeysSpelledOut(p: Profile, canonical: string -> string, key: string)
    ensures IsCacheKey(p, canonical, key) <==>
            || (exists a :: a in p.addresses && canonical(a) == key)
            || ("doh" in p.transports && p.transports["doh"].host != "" && canonical(p.transports["doh"].host) == key)
            || ServerNamed(p, canonical, "doh", key)
            || ServerNamed(p, canonical, "dot", key)
            || ServerNamed(p, canonical, "doq", key)
  {
    hide TrimSpace;
    if "doh" in p.transports && IsTransportKey(p.transports["doh"], "doh", canonical, key) {
    } else if "dot" in p.transports && IsTransportKey(p.transports["dot"], "dot", canonical, key) {
    } else if "doq" in p.transports && IsTransportKey(p.transports["doq"], "doq", canonical, key) {
    }
  }

  /** Drops repeats from a sorted list. */
  function Compact(s: seq<string>, k: nat): seq<string>
    requires k <= |s|
  {
    if k == 0 then []
    else if k > 1 && s[k - 1] == s[k - 2] then Compact(s, k - 1)
    else Compact(s, k - 1) + [s[k - 1]]
  }

  lemma {:induction false} CompactSorted(s: seq<string>, k: nat)
    requires k <= |s| && Ascending(s, StringLe)
    ensures forall x :: x in Compact(s, k) <==> x in s[..k]
    ensures Ascending(Compact(s, k), StringLe) && Distinct(Compact(s, k))
  {
    if k > 0 {
      CompactSorted(s, k - 1);
      assert s[..k] == s[..k - 1] + [s[k - 1]];
      var front := Compact(s, k - 1);
      forall i | 0 <= i < |front| ensures StringLe(front[i], s[k - 1]) {
        assert front[i] in s[..k - 1];
        var j :| 0 <= j < k - 1 && s[..k - 1][j] == front[i];
        assert StringLe(s[j], s[k - 1]);
      }
      if k > 1 {
        assert s[k - 2] in s[..k - 1];
        if s[k - 1] != s[k - 2] && s[k - 1] in front { RepeatsAreAdjacent(s, k); }
      }
    }
  }

  lemma RepeatsAreAdjacent(s: seq<string>, k: nat)
    requires 1 < k <= |s| && Ascending(s, StringLe) && s[k - 1] in s[..k - 1]
    ensures s[k - 1] == s[k - 2]
  {
    var j :| 0 <= j < k - 1 && s[..k - 1][j] == s[k - 1];
    if j < k - 2 {
      assert StringLe(s[j], s[k - 2]) && StringLe(s[k - 2], s[k - 1]);
      StringLeAntisymmetric(s[k - 1], s[k - 2]);
    }
  }

  /** One of the first k transports walked gives the key. */
  ghost predicate KeyAmong(p: Profile, canonical: string -> string, visited: seq<string>, k: nat, key: string)
    requires k <= |visited|
  {
    exists j :: 0 <= j < k && visited[j] in p.transports &&
                IsTransportKey(p.transports[visited[j]], visited[j], canonical, key)
  }

  function SortCompact(all: seq<string>): (r: seq<string>)
    ensures forall x :: x in r <==> x in all
    ensures Ascending(r, StringLe) && Distinct(r)
  {
    var sorted := Sort(all, StringLe);
    StringOrder();
    SortAscending(all, StringLe);
    SortMultiset(all, StringLe);
    SameElements(all, sorted);
    CompactSorted(sorted, |sorted|);
    assert sorted[..|sorted|] == sorted;
    Compact(sorted, |sorted|)
  }

  /** CacheKeys: the keys sorted and without repeats. visited is the order the
      transport map happens to be walked in. */
  method CacheKeys(p: Profile, canonical: string -> string, visited: seq<string>) returns (keys: seq<string>)
    requires forall protocol :: protocol in visited <==> protocol in p.transports
    ensures forall key :: key in keys <==> IsCacheKey(p, canonical, key)
    ensures Ascending(keys, StringLe) && Distinct(keys)
  {
    var all := [];
    for i := 0 to |p.addresses|
      invariant forall key :: key in all <==> exists j :: 0 <= j < i && canonical(p.addresses[j]) == key
    {
      all := all + [canonical(p.addresses[i])];
    }
    ghost var addresses := all;
    for i := 0 to |visited|
      invariant forall key :: key in all <==> key in addresses || KeyAmong(p, canonical, visited, i, key)
    {
      ghost var before := all;
      var protocol := visited[i];
      assert protocol in p.transports;
      var spec := p.transports[protocol];
      if protocol != "doh" && protocol != "dot" && protocol != "doq" { continue; }
      if protocol == "doh" && spec.host != "" { all := all + [canonical(spec.host)]; }
      var serverName := TrimSpace(spec.serverName);
      if serverName != "" { all := all + [canonical(serverName)]; }
      assert forall key :: key in all <==> key in before || IsTransportKey(spec, protocol, canonical, key);
    }
    keys := SortCompact(all);
  }

  /** So the keys do not depend on the order of the transport map. */
  lemma CacheKeysUnique(p: Profile, canonical: string -> string, keys: seq<string>, others: seq<string>)
    requires forall key :: key in keys <==> IsCacheKey(p, canonical, key)
    requires forall key :: key in others <==> IsCacheKey(p, canonical, key)
    requires Ascending(keys, StringLe) && Distinct(keys) && Ascending(others, StringLe) && Distinct(others)
    ensures keys == others
  {
    StringOrder();
    DistinctPermutation(keys, others);
    AscendingUnique(keys, others, StringLe);
  }

  // ----- the preference -----

  function ProtocolRank(protocol: string): nat {
    if protocol == "udp" then 0
    else if protocol == "tcp" then 1
    else if protocol == "doh" then 2
    else if protocol == "dot" then 3
    else if protocol == "doq" then 4
    else 5
  }

  function CompareStrings(a: string, b: string): int {
    if a == b then 0 else if StringLe(a, b) then -1 else 1
  }

  function CompareProtocols(a: string, b: string): int {
    if ProtocolRank(a) == ProtocolRank(b) then CompareStrings(a, b) else ProtocolRank(a) - ProtocolRank(b)
  }

  /** Earliest declared profile, then documented protocol order, then earliest
      address. */
  predicate Prefers(declared: map<string, nat>, candidate: Endpoint, current: Endpoint)
    requires candidate.resolver.id in declared && current.resolver.id in declared
  {
    var a, b := declared[candidate.resolver.id], declared[current.resolver.id];
    var order := CompareProtocols(candidate.protocol, current.protocol);
    if a != b then a < b
    else if order != 0 then order < 0
    else IndexOf(candidate.resolver.addresses, candidate.address) < IndexOf(current.resolver.addresses, current.address)
  }

  lemma CompareProtocolsOrder(a: string, b: string, c: string)
    ensures CompareProtocols(a, b) == 0 <==> a == b
    ensures (CompareProtocols(a, b) < 0) == (CompareProtocols(b, a) > 0)
    ensures CompareProtocols(a, b) < 0 && CompareProtocols(b, c) < 0 ==> CompareProtocols(a, c) < 0
  {
    StringOrder();
  }

  lemma PrefersOn(declared: map<string, nat>, a: Endpoint, b: Endpoint, c: Endpoint)
    requires a.resolver.id in declared && b.resolver.id in declared && c.resolver.id in declared
    ensures Prefers(declared, a, b) ==> !Prefers(declared, b, a)
    ensures Prefers(declared, a, b) && Prefers(declared, b, c) ==> Prefers(declared, a, c)
    ensures !Prefers(declared, a, b) && Prefers(declared, c, b) ==> !Prefers(declared, a, c)
  {
    hide CompareProtocols, IndexOf;
    CompareProtocolsOrder(a.protocol, b.protocol, c.protocol);
    CompareProtocolsOrder(b.protocol, c.protocol, a.protocol);
    CompareProtocolsOrder(a.protocol, c.protocol, b.protocol);
    CompareProtocolsOrder(c.protocol, b.protocol, a.protocol);
    CompareProtocolsOrder(b.protocol, a.protocol, c.protocol);
    CompareProtocolsOrder(c.protocol, a.protocol, b.protocol);
  }

  // ----- the selection, as a function -----

  /** The selected endpoints, and for each of them its cache. */
  datatype Selection = Selection(declared: map<string, nat>, targets: seq<Endpoint>, cache: seq<nat>)

  ghost predicate Valid(s: Selection) {
    |s.cache| == |s.targets| && forall i :: 0 <= i < |s.targets| ==> s.targets[i].resolver.id in s.declared
  }

  /** The choice for one cache after the first k endpoints, -1 before any. */
  function Best(s: Selection, cache: nat, k: nat): (b: int)
    requires Valid(s) && k <= |s.targets|
    ensures -1 <= b < k
  {
    if k == 0 then -1
    else
      var b := Best(s, cache, k - 1);
      if s.cache[k - 1] == cache && (b < 0 || Prefers(s.declared, s.targets[k - 1], s.targets[b])) then k - 1 else b
  }

  predicate Keeps(s: Selection, i: nat)
    requires Valid(s) && i < |s.targets|
  {
    Best(s, s.cache[i], |s.targets|) == i
  }

  function KeptIndexes(s: Selection, k: nat): (r: seq<nat>)
    requires Valid(s) && k <= |s.targets|
    ensures Below(r, k)
  {
    if k == 0 then []
    else if Keeps(s, k - 1) then KeptIndexes(s, k - 1) + [k - 1]
    else KeptIndexes(s, k - 1)
  }

  function DroppedIndexes(s: Selection, k: nat): (r: seq<nat>)
    requires Valid(s) && k <= |s.targets|
    ensures Below(r, k)
  {
    if k == 0 then []
    else if Keeps(s, k - 1) then DroppedIndexes(s, k - 1)
    else DroppedIndexes(s, k - 1) + [k - 1]
  }

  function Kept(s: Selection): seq<Endpoint>
    requires Valid(s)
  {
    Pick(s.targets, KeptIndexes(s, |s.targets|))
  }

  lemma {:induction false} BestIsPreferred(s: Selection, cache: nat, k: nat)
    requires Valid(s) && k <= |s.targets|
    ensures var b := Best(s, cache, k);
            && (b < 0 <==> forall i :: 0 <= i < k ==> s.cache[i] != cache)
            && (b >= 0 ==> s.cache[b] == cache)
            && forall i :: 0 <= i < k && s.cache[i] == cache ==> !Prefers(s.declared, s.targets[i], s.targets[b])
  {
    if k > 0 {
      hide Prefers;
      BestIsPreferred(s, cache, k - 1);
      var b := Best(s, cache, k - 1);
      PrefersOn(s.declared, s.targets[k - 1], s.targets[k - 1], s.targets[k - 1]);
      if s.cache[k - 1] == cache && b >= 0 && Prefers(s.declared, s.targets[k - 1], s.targets[b]) {
        forall i | 0 <= i < k - 1 && s.cache[i] == cache ensures !Prefers(s.declared, s.targets[i], s.targets[k - 1]) {
          PrefersOn(s.declared, s.targets[i], s.targets[b], s.targets[k - 1]);
        }
      }
    }
  }

  lemma {:induction false} KeptElements(s: Selection, k: nat)
    requires Valid(s) && k <= |s.targets|
    ensures forall i :: i in KeptIndexes(s, k) <==> 0 <= i < k && Keeps(s, i)
    ensures forall a, b :: 0 <= a < b < |KeptIndexes(s, k)| ==> KeptIndexes(s, k)[a] < KeptIndexes(s, k)[b]
  {
    if k > 0 {
      hide Keeps;
      KeptElements(s, k - 1);
    }
  }

  lemma {:induction false} DroppedElements(s: Selection, k: nat)
    requires Valid(s) && k <= |s.targets|
    ensures forall i :: i in DroppedIndexes(s, k) <==> 0 <= i < k && !Keeps(s, i)
    ensures forall a, b :: 0 <= a < b < |DroppedIndexes(s, k)| ==> DroppedIndexes(s, k)[a] < DroppedIndexes(s, k)[b]
  {
    if k > 0 {
      hide Keeps;
      DroppedElements(s, k - 1);
    }
  }

  // ----- what the selection promises -----

  /** Every endpoint is kept or dropped, once, and both lists keep its place. */
  lemma KeptAndDroppedPartition(s: Selection, i: nat)
    requires Valid(s) && i < |s.targets|
    ensures var kept, dropped := KeptIndexes(s, |s.targets|), DroppedIndexes(s, |s.targets|);
            && ((i in kept) != (i in dropped))
            && (forall a, b :: 0 <= a < b < |kept| ==> kept[a] < kept[b])
            && (forall a, b :: 0 <= a < b < |dropped| ==> dropped[a] < dropped[b])
            && Below(kept, |s.targets|) && Below(dropped, |s.targets|)
  {
    hide Keeps;
    KeptElements(s, |s.targets|);
    DroppedElements(s, |s.targets|);
  }

  /** Exactly one endpoint of each cache is kept, and no endpoint of the cache is
      preferred to it. */
  lemma OneKeptPerCache(s: Selection, i: nat) returns (kept: nat)
    requires Valid(s) && i < |s.targets|
    ensures kept in KeptIndexes(s, |s.targets|) && kept < |s.targets| && s.cache[kept] == s.cache[i]
    ensures kept == Best(s, s.cache[i], |s.targets|)
    ensures !Prefers(s.declared, s.targets[i], s.targets[kept])
    ensures forall j :: j in KeptIndexes(s, |s.targets|) && s.cache[j] == s.cache[i] ==> j == kept
  {
    hide Prefers;
    BestIsPreferred(s, s.cache[i], |s.targets|);
    kept := Best(s, s.cache[i], |s.targets|);
    KeptElements(s, |s.targets|);
  }

  /** With every endpoint listed once the kept one is strictly preferred. */
  lemma KeptIsStrictlyPreferred(s: Selection, i: nat, kept: nat)
    requires Valid(s) && i < |s.targets| && kept == Best(s, s.cache[i], |s.targets|) && kept != i
    requires s.targets[i].resolver == s.targets[kept].resolver ||
             s.declared[s.targets[i].resolver.id] != s.declared[s.targets[kept].resolver.id]
    requires s.targets[i] != s.targets[kept] && s.targets[i].address in s.targets[i].resolver.addresses
    ensures Prefers(s.declared, s.targets[kept], s.targets[i])
  {
    var x, y := s.targets[i], s.targets[kept];
    BestIsPreferred(s, s.cache[i], |s.targets|);
    CompareProtocolsOrder(x.protocol, y.protocol, x.protocol);
    IndexFinds(x.resolver.addresses, x.address);
    IndexFinds(y.resolver.addresses, y.address);
  }

  // ----- which endpoint is kept, in the catalog's own terms -----

  /** The transports in the documented order. */
  const DOCUMENTED := ["udp", "tcp", "doh", "dot", "doq"]

  /** a stands no later than b in the list, at its first place. */
  ghost predicate NoLater(list: seq<string>, a: string, b: string) {
    forall m :: 0 <= m < |list| && list[m] == b ==> exists l :: 0 <= l <= m && list[l] == a
  }

  /** a comes no later than b: in the documented order, unknown ones last, by name. */
  ghost predicate ProtocolNoLater(a: string, b: string) {
    if b in DOCUMENTED then NoLater(DOCUMENTED, a, b) else a in DOCUMENTED || StringLe(a, b)
  }

  lemma ProtocolPlaces(a: string, b: string)
    requires CompareProtocols(a, b) <= 0
    ensures ProtocolNoLater(a, b)
  {
    StringOrder();
    if b in DOCUMENTED {
      var m := Orders.Find(DOCUMENTED, b);
      assert DOCUMENTED[ProtocolRank(b)] == b && ProtocolRank(a) <= ProtocolRank(b);
      assert DOCUMENTED[ProtocolRank(a)] == a;
    }
  }

  /** The endpoint kept for a cache is the earliest of it: no endpoint of the cache
      belongs to a profile declared earlier; none of the same profile has a protocol
      documented earlier; and none of the same profile and protocol an address declared
      earlier. */
  lemma KeptIsEarliest(s: Selection, kept: nat, i: nat)
    requires Valid(s) && i < |s.targets| && kept in KeptIndexes(s, |s.targets|) && kept < |s.targets|
    requires s.cache[kept] == s.cache[i]
    ensures var k, e := s.targets[kept], s.targets[i];
            var a, b := s.declared[k.resolver.id], s.declared[e.resolver.id];
            && a <= b
            && (a == b ==> ProtocolNoLater(k.protocol, e.protocol))
            && (a == b && k.protocol == e.protocol && k.address in k.resolver.addresses &&
                k.resolver.addresses == e.resolver.addresses ==>
                  NoLater(k.resolver.addresses, k.address, e.address))
  {
    var k, e := s.targets[kept], s.targets[i];
    KeptElements(s, |s.targets|);
    BestIsPreferred(s, s.cache[i], |s.targets|);
    CompareProtocolsOrder(k.protocol, e.protocol, k.protocol);
    CompareProtocolsOrder(e.protocol, k.protocol, e.protocol);
    hide KeptIndexes, Best;
    assert !Prefers(s.declared, e, k);
    if s.declared[k.resolver.id] == s.declared[e.resolver.id] {
      ProtocolPlaces(k.protocol, e.protocol);
      IndexFinds(k.resolver.addresses, k.address);
      IndexFinds(e.resolver.addresses, e.address);
    }
  }

  // ----- the selection, as the code makes it -----

  /** The keys CacheKeys gives each profile. */
  ghost predicate AreCacheKeys(profiles: seq<Profile>, canonical: string -> string, keys: Keys) {
    && |keys| == |profiles|
    && forall i, key :: 0 <= i < |profiles| ==> (key in keys[i] <==> IsCacheKey(profiles[i], canonical, key))
  }

  /** Two profiles are reached by one name. */
  ghost predicate ShareName(profiles: seq<Profile>, canonical: string -> string, i: nat, j: nat) {
    i < |profiles| && j < |profiles| &&
    exists key :: IsCacheKey(profiles[i], canonical, key) && IsCacheKey(profiles[j], canonical, key)
  }

  /** A chain of profiles, each reached by a name the next is reached by too. */
  ghost predicate NameChain(profiles: seq<Profile>, canonical: string -> string, path: seq<nat>) {
    && path != []
    && (forall m :: 0 <= m < |path| ==> path[m] < |profiles|)
    && forall m :: 0 <= m < |path| - 1 ==> ShareName(profiles, canonical, path[m], path[m + 1])
  }

  ghost predicate OneServer(profiles: seq<Profile>, canonical: string -> string, i: nat, j: nat) {
    exists path :: NameChain(profiles, canonical, path) && path[0] == i && path[|path| - 1] == j
  }

  lemma LinkedIsOneServer(profiles: seq<Profile>, canonical: string -> string, keys: Keys, i: nat, j: nat)
    requires AreCacheKeys(profiles, canonical, keys)
    ensures Linked(keys, i, j) <==> OneServer(profiles, canonical, i, j)
  {
    hide IsCacheKey;
    forall a: nat, b: nat ensures Shares(keys, a, b) == ShareName(profiles, canonical, a, b) {
      if Shares(keys, a, b) {
        var key :| key in keys[a] && key in keys[b];
        assert IsCacheKey(profiles[a], canonical, key);
      }
    }
    forall path ensures Chain(keys, path) == NameChain(profiles, canonical, path) {
    }
  }

  ghost predicate Declares(profiles: seq<Profile>, declared: map<string, nat>) {
    && (forall i :: 0 <= i < |profiles| ==> profiles[i].id in declared && declared[profiles[i].id] == i)
    && forall id :: id in declared ==> declared[id] < |profiles| && profiles[declared[id]].id == id
  }

  /** Two endpoints have one cache exactly when a chain of shared names links their
      profiles. */
  ghost predicate CachesAreServers(profiles: seq<Profile>, canonical: string -> string, s: Selection)
    requires Valid(s)
  {
    forall i, j :: 0 <= i < |s.targets| && 0 <= j < |s.targets| ==>
      (s.cache[i] == s.cache[j] <==>
       OneServer(profiles, canonical, s.declared[s.targets[i].resolver.id], s.declared[s.targets[j].resolver.id]))
  }

  ghost predicate IsChoice(s: Selection, chosen: map<nat, nat>, k: nat)
    requires Valid(s) && k <= |s.targets|
  {
    forall c: nat :: (c in chosen <==> Best(s, c, k) >= 0) && (c in chosen ==> chosen[c] == Best(s, c, k))
  }

  function DropsOf(s: Selection, k: nat): seq<Drop>
    requires Valid(s) && k <= |s.targets|
  {
    if k == 0 then []
    else if Keeps(s, k - 1) then DropsOf(s, k - 1)
    else
      var b := Best(s, s.cache[k - 1], |s.targets|);
      DropsOf(s, k - 1) + if b >= 0 then [Drop(s.targets[k - 1], s.targets[b])] else []
  }

  /** Each dropped endpoint names the kept one of its own cache. */
  lemma {:induction false} DropsNameTheKept(s: Selection, k: nat)
    requires Valid(s) && k <= |s.targets|
    ensures var drops, dropped := DropsOf(s, k), DroppedIndexes(s, k);
            && |drops| == |dropped|
            && forall m :: 0 <= m < |drops| ==>
                 && drops[m].target == s.targets[dropped[m]]
                 && var b := Best(s, s.cache[dropped[m]], |s.targets|);
                    b >= 0 && drops[m].instead == s.targets[b] && b in KeptIndexes(s, |s.targets|) &&
                    s.cache[b] == s.cache[dropped[m]]
  {
    if k > 0 {
      DropsNameTheKept(s, k - 1);
      var kept := OneKeptPerCache(s, k - 1);
    }
  }

  /** The orders in which the profiles' transport maps happen to be walked. */
  ghost predicate Walks(profiles: seq<Profile>, visits: seq<seq<string>>) {
    |visits| == |profiles| && forall i :: 0 <= i < |profiles| ==> Walked(profiles[i], visits[i])
  }

  ghost predicate Walked(p: Profile, visited: seq<string>) {
    forall protocol :: protocol in visited <==> protocol in p.transports
  }

  method AllCacheKeys(profiles: seq<Profile>, canonical: string -> string, visits: seq<seq<string>>)
    returns (keys: Keys)
    requires Walks(profiles, visits)
    ensures AreCacheKeys(profiles, canonical, keys)
  {
    hide IsCacheKey;
    keys := [];
    for i := 0 to |profiles|
      invariant |keys| == i
      invariant forall j, key :: 0 <= j < i ==> (key in keys[j] <==> IsCacheKey(profiles[j], canonical, key))
    {
      assert Walked(profiles[i], visits[i]);
      var own := CacheKeys(profiles[i], canonical, visits[i]);
      keys := keys + [own];
    }
  }

  /** The endpoints a run keeps and the ones it drops. The caches are those of the
      profiles' own keys, whatever order the transport maps are walked in. */
  method CacheMissTargets(profiles: seq<Profile>, canonical: string -> string, visits: seq<seq<string>>,
                          targets: seq<Endpoint>)
    returns (kept: seq<Endpoint>, dropped: seq<Drop>, s: Selection)
    requires Walks(profiles, visits)
    requires forall i, j :: 0 <= i < j < |profiles| ==> profiles[i].id != profiles[j].id
    requires forall t :: t in targets ==> exists i :: 0 <= i < |profiles| && profiles[i].id == t.resolver.id
    ensures Valid(s) && s.targets == targets
    ensures Declares(profiles, s.declared) && CachesAreServers(profiles, canonical, s)
    ensures kept == Kept(s) && dropped == DropsOf(s, |targets|)
  {
    hide IsGrouping, AreCacheKeys, Walks;
    var declared := DeclaredOrder(profiles);
    var keys := AllCacheKeys(profiles, canonical, visits);
    assert |keys| == |profiles| by { SameNumber(profiles, canonical, keys); }
    forall i | 0 <= i < |targets| ensures targets[i].resolver.id in declared {
      assert targets[i] in targets;
    }
    var caches := CacheGroups.CacheGroups(keys);
    var group := caches[..];
    GroupedPairs(keys, group);
    var cache := seq(|targets|, i requires 0 <= i < |targets| => group[declared[targets[i].resolver.id]]);
    s := Selection(declared, targets, cache);
    CachesFollowKeys(profiles, canonical, keys, group, s);
    var chosen := Choose(declared, caches, targets, s);
    kept, dropped := Partition(declared, caches, targets, chosen, s);
  }

  method DeclaredOrder(profiles: seq<Profile>) returns (declared: map<string, nat>)
    requires forall i, j :: 0 <= i < j < |profiles| ==> profiles[i].id != profiles[j].id
    ensures Declares(profiles, declared)
  {
    declared := map[];
    for i := 0 to |profiles|
      invariant forall j :: 0 <= j < i ==> profiles[j].id in declared && declared[profiles[j].id] == j
      invariant forall id :: id in declared ==> declared[id] < i && profiles[declared[id]].id == id
    {
      declared := declared[profiles[i].id := i];
    }
  }

  lemma GroupedPairs(keys: Keys, group: seq<nat>)
    requires IsGrouping(keys, group)
    ensures |group| == |keys|
    ensures forall i, j :: 0 <= i < |keys| && 0 <= j < |keys| ==> (group[i] == group[j] <==> Linked(keys, i, j))
  {
    hide Linked;
  }

  lemma SameNumber(profiles: seq<Profile>, canonical: string -> string, keys: Keys)
    requires AreCacheKeys(profiles, canonical, keys)
    ensures |keys| == |profiles|
  {
  }

  lemma CachesFollowKeys(profiles: seq<Profile>, canonical: string -> string, keys: Keys, group: seq<nat>, s: Selection)
    requires Valid(s) && AreCacheKeys(profiles, canonical, keys) && |group| == |keys|
    requires forall i, j :: 0 <= i < |keys| && 0 <= j < |keys| ==> (group[i] == group[j] <==> Linked(keys, i, j))
    requires forall id :: id in s.declared ==> s.declared[id] < |group|
    requires forall i :: 0 <= i < |s.targets| ==> s.cache[i] == group[s.declared[s.targets[i].resolver.id]]
    ensures CachesAreServers(profiles, canonical, s)
  {
    hide AreCacheKeys, OneServer, Linked;
    forall i, j | 0 <= i < |s.targets| && 0 <= j < |s.targets|
      ensures s.cache[i] == s.cache[j] <==>
              OneServer(profiles, canonical, s.declared[s.targets[i].resolver.id], s.declared[s.targets[j].resolver.id])
    {
      LinkedIsOneServer(profiles, canonical, keys, s.declared[s.targets[i].resolver.id],
                        s.declared[s.targets[j].resolver.id]);
    }
  }

  method Choose(declared: map<string, nat>, caches: array<nat>, targets: seq<Endpoint>, ghost s: Selection)
    returns (chosen: map<nat, nat>)
    requires Valid(s) && s.targets == targets && s.declared == declared
    requires forall id :: id in declared ==> declared[id] < caches.Length
    requires forall i :: 0 <= i < |targets| ==> s.cache[i] == caches[declared[targets[i].resolver.id]]
    ensures IsChoice(s, chosen, |targets|)
  {
    hide Prefers;
    chosen := map[];
    for i := 0 to |targets|
      invariant IsChoice(s, chosen, i)
    {
      var cache := caches[declared[targets[i].resolver.id]];
      if cache !in chosen || Prefers(declared, targets[i], targets[chosen[cache]]) {
        chosen := chosen[cache := i];
      }
    }
  }

  method Partition(declared: map<string, nat>, caches: array<nat>, targets: seq<Endpoint>, chosen: map<nat, nat>,
                   ghost s: Selection)
    returns (kept: seq<Endpoint>, dropped: seq<Drop>)
    requires Valid(s) && s.targets == targets && s.declared == declared
    requires forall id :: id in declared ==> declared[id] < caches.Length
    requires forall i :: 0 <= i < |targets| ==> s.cache[i] == caches[declared[targets[i].resolver.id]]
    requires IsChoice(s, chosen, |targets|)
    ensures kept == Kept(s) && dropped == DropsOf(s, |targets|)
  {
    hide Prefers, Best;
    kept, dropped := [], [];
    for i := 0 to |targets|
      invariant kept == Pick(targets, KeptIndexes(s, i))
      invariant dropped == DropsOf(s, i)
    {
      BestIsPreferred(s, s.cache[i], |targets|);
      var measured := chosen[caches[declared[targets[i].resolver.id]]];
      if measured == i {
        kept := kept + [targets[i]];
        continue;
      }
      dropped := dropped + [Drop(targets[i], targets[measured])];
    }
  }
}
