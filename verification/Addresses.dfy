/** Normalising bootstrap addresses, and the dial plan built from them. parse is
    what the IP parser makes of a text: its canonical spelling, or nothing. */
module Addresses {
  import opened Orders
  import opened Text
  import opened Wrappers

  datatype Result<T> = Ok(value: T) | Rejected(entry: nat)

  /** Drops one pair of brackets, as around an IPv6 literal. */
  function Unbracket(s: string): string {
    if |s| >= 2 && s[0] == '[' && s[|s| - 1] == ']' then s[1..|s| - 1] else s
  }

  function Clean(address: string): string {
    Unbracket(TrimSpace(address))
  }

  function CanonicalKey(parse: string -> Option<string>, address: string): string {
    var a := Clean(address);
    match parse(a)
    case Some(ip) => "ip:" + ip
    case None => "host:" + Lower(TrimDot(a))
  }

  /** Spaces around an address are dropped, and one pair of brackets inside them. */
  lemma CleanSpelledOut(l: string, s: string, r: string)
    requires AllSpaces(l) && Tidy(s) && AllSpaces(r)
    ensures Clean(l + ("[" + s + "]") + r) == s
    ensures (s != "" ==> s[0] != '[') ==> Clean(l + s + r) == s
  {
    var bracketed := "[" + s + "]";
    TrimSpaceMeans(l, bracketed, r);
    TrimSpaceMeans(l, s, r);
    assert bracketed[1..|bracketed| - 1] == s;
  }

  /** Two addresses are one exactly when both are the same IP address, however it is
      spelled, or both are host names that differ at most in case and a trailing dot. */
  lemma KeysSpelledOut(parse: string -> Option<string>, a: string, b: string)
    ensures var x, y := Clean(a), Clean(b);
            CanonicalKey(parse, a) == CanonicalKey(parse, b) <==>
            if parse(x).Some? then parse(y) == parse(x)
            else parse(y).None? && SameLetters(TrimDot(x), TrimDot(y))
  {
    hide Clean, TrimDot, Lower;
    var x, y := Clean(a), Clean(b);
    LowerMeans(TrimDot(x), TrimDot(y));
    var p, q := CanonicalKey(parse, a), CanonicalKey(parse, b);
    assert p[0] == (if parse(x).Some? then 'i' else 'h') && q[0] == if parse(y).Some? then 'i' else 'h';
    if parse(x).Some? && parse(y).Some? {
      assert p[3..] == parse(x).value && q[3..] == parse(y).value;
    } else if parse(x).None? && parse(y).None? {
      assert p[5..] == Lower(TrimDot(x)) && q[5..] == Lower(TrimDot(y));
    }
  }

  // ----- normalizeBootstrapAddresses -----

  /** The first address of every key among the first k entries. */
  function Normalized(addresses: seq<string>, parse: string -> Option<string>, k: nat): seq<string>
    requires k <= |addresses|
  {
    if k == 0 then []
    else
      var front, a := Normalized(addresses, parse, k - 1), Clean(addresses[k - 1]);
      if CanonicalKey(parse, a) in Keys(front, parse) then front else front + [a]
  }

  function Keys(addresses: seq<string>, parse: string -> Option<string>): (r: seq<string>)
    ensures |r| == |addresses| && forall i :: 0 <= i < |r| ==> r[i] == CanonicalKey(parse, addresses[i])
  {
    seq(|addresses|, i requires 0 <= i < |addresses| => CanonicalKey(parse, addresses[i]))
  }

  method NormalizeBootstrapAddresses(addresses: seq<string>, parse: string -> Option<string>)
    returns (r: Result<seq<string>>)
    ensures r.Ok? <==> forall i :: 0 <= i < |addresses| ==> parse(Clean(addresses[i])).Some?
    ensures r.Ok? ==> r.value == Normalized(addresses, parse, |addresses|)
    ensures r.Rejected? ==> r.entry < |addresses| && parse(Clean(addresses[r.entry])).None? &&
                            forall i :: 0 <= i < r.entry ==> parse(Clean(addresses[i])).Some?
  {
    hide CanonicalKey, Clean, Keys, Normalized;
    NothingNormalized(addresses, parse);
    var normalized: seq<string> := [];
    var seen: set<string> := {};
    for index := 0 to |addresses|
      invariant forall i :: 0 <= i < index ==> parse(Clean(addresses[i])).Some?
      invariant normalized == Normalized(addresses, parse, index)
      invariant forall key :: key in seen <==> key in Keys(normalized, parse)
    {
      var address := Clean(addresses[index]);
      if parse(address).None? { return Rejected(index); }
      var key := CanonicalKey(parse, address);
      NormalizedNext(addresses, parse, index + 1);
      NormalizedStep(addresses, parse, index + 1);
      if key in seen { continue; }
      seen := seen + {key};
      normalized := normalized + [address];
    }
    r := Ok(normalized);
  }

  /** Which candidates are kept: an entry is dropped exactly when an earlier one is the
      same address, and the others keep their order. */
  lemma NormalizedSpelledOut(addresses: seq<string>, parse: string -> Option<string>, k: nat)
    requires k < |addresses|
    ensures var front, a := Normalized(addresses, parse, k), Clean(addresses[k]);
            Normalized(addresses, parse, k + 1) ==
              if exists i :: 0 <= i < k && CanonicalKey(parse, Clean(addresses[i])) == CanonicalKey(parse, a) then front
              else front + [a]
  {
    hide CanonicalKey, Clean, Keys;
    NormalizedNext(addresses, parse, k + 1);
    var front, key := Normalized(addresses, parse, k), CanonicalKey(parse, Clean(addresses[k]));
    if key in Keys(front, parse) {
      var m := Find(Keys(front, parse), key);
      var i := CandidateIsEntry(addresses, parse, k, front[m]);
    }
    if i :| 0 <= i < k && CanonicalKey(parse, Clean(addresses[i])) == key {
      EveryEntryIsKept(addresses, parse, k, i);
    }
  }

  /** The plan dials the candidates in order, or the target's own address when there are
      none, each at the port; a literal with colons stands in brackets. */
  lemma DialPlanSpelledOut(target: string, bootstraps: seq<string>, port: string)
    requires AllPlain(bootstraps) && Plain(target)
    ensures var plan, hosts := DialPlan(target, bootstraps, port), if bootstraps == [] then [target] else bootstraps;
            && |plan| == |hosts|
            && forall i :: 0 <= i < |hosts| ==> plan[i] == InBrackets(hosts[i]) + ":" + port
  {
    hide JoinHostPort, Joined, Plain;
    var hosts := if bootstraps == [] then [target] else bootstraps;
    PlainJoined(hosts, port, |hosts|);
    assert hosts[..|hosts|] == hosts;
    forall i | 0 <= i < |hosts| ensures JoinHostPort(hosts[i], port) == InBrackets(hosts[i]) + ":" + port {
      JoinSpelledOut(hosts[i], port);
    }
  }

  function InBrackets(host: string): string {
    if ':' in host then "[" + host + "]" else host
  }

  lemma JoinSpelledOut(host: string, port: string)
    ensures JoinHostPort(host, port) == InBrackets(host) + ":" + port
  {
    assert "[" + host + "]:" + port == "[" + host + "]" + ":" + port;
  }

  lemma KeysAppend(addresses: seq<string>, parse: string -> Option<string>, address: string)
    ensures Keys(addresses + [address], parse) == Keys(addresses, parse) + [CanonicalKey(parse, address)]
  {
  }

  lemma NothingNormalized(addresses: seq<string>, parse: string -> Option<string>)
    ensures Normalized(addresses, parse, 0) == [] && Keys([], parse) == []
  {
  }

  lemma NormalizedNext(addresses: seq<string>, parse: string -> Option<string>, k: nat)
    requires 0 < k <= |addresses|
    ensures var front, a := Normalized(addresses, parse, k - 1), Clean(addresses[k - 1]);
            Normalized(addresses, parse, k) ==
              if CanonicalKey(parse, a) in Keys(front, parse) then front else front + [a]
  {
  }

  lemma NormalizedStep(addresses: seq<string>, parse: string -> Option<string>, k: nat)
    requires 0 < k <= |addresses|
    ensures var front := Keys(Normalized(addresses, parse, k - 1), parse);
            var key := CanonicalKey(parse, Clean(addresses[k - 1]));
            Keys(Normalized(addresses, parse, k), parse) == if key in front then front else front + [key]
  {
    hide CanonicalKey, Clean;
    KeysAppend(Normalized(addresses, parse, k - 1), parse, Clean(addresses[k - 1]));
  }

  lemma {:induction false} KeysAreDistinct(addresses: seq<string>, parse: string -> Option<string>, k: nat)
    requires k <= |addresses|
    ensures Distinct(Keys(Normalized(addresses, parse, k), parse))
  {
    if k > 0 {
      hide Normalized, CanonicalKey, Clean, Keys;
      KeysAreDistinct(addresses, parse, k - 1);
      NormalizedStep(addresses, parse, k);
    }
  }

  /** No entry is lost: its key is kept by some candidate. */
  lemma {:induction false} EveryEntryIsKept(addresses: seq<string>, parse: string -> Option<string>, k: nat, i: nat)
    requires i < k <= |addresses|
    ensures CanonicalKey(parse, Clean(addresses[i])) in Keys(Normalized(addresses, parse, k), parse)
  {
    hide Normalized, CanonicalKey, Clean, Keys;
    NormalizedStep(addresses, parse, k);
    if i < k - 1 { EveryEntryIsKept(addresses, parse, k - 1, i); }
  }

  /** The candidates are distinct, in fact as addresses and not only as text. */
  lemma BootstrapsAreDistinct(addresses: seq<string>, parse: string -> Option<string>)
    ensures var r := Normalized(addresses, parse, |addresses|);
            Distinct(Keys(r, parse)) && Distinct(r)
  {
    hide Normalized, CanonicalKey;
    KeysAreDistinct(addresses, parse, |addresses|);
    var r := Normalized(addresses, parse, |addresses|);
    forall i, j | 0 <= i < j < |r| ensures r[i] != r[j] {
      assert Keys(r, parse)[i] != Keys(r, parse)[j];
    }
  }

  lemma {:induction false} CandidateIsEntry(addresses: seq<string>, parse: string -> Option<string>, k: nat, a: string)
    returns (i: nat)
    requires k <= |addresses| && a in Normalized(addresses, parse, k)
    ensures i < k && a == Clean(addresses[i])
  {
    hide CanonicalKey, Clean, Keys;
    if a in Normalized(addresses, parse, k - 1) {
      i := CandidateIsEntry(addresses, parse, k - 1, a);
    } else {
      i := k - 1;
    }
  }

  // ----- newDialPlan -----

  /** host:port, the host in brackets when it has a colon. port is its digits. */
  function JoinHostPort(host: string, port: string): string {
    if ':' in host then "[" + host + "]:" + port else host + ":" + port
  }

  function JoinAddress(host: string, port: string): string {
    JoinHostPort(Clean(host), port)
  }

  /** The addresses a plan dials: the bootstrap candidates, or the target itself. */
  function DialPlan(target: string, bootstraps: seq<string>, port: string): seq<string> {
    var candidates := if bootstraps == [] then [target] else bootstraps;
    Joined(candidates, port, |candidates|)
  }

  function Joined(candidates: seq<string>, port: string, k: nat): seq<string>
    requires k <= |candidates|
  {
    if k == 0 then []
    else
      var front, candidate := Joined(candidates, port, k - 1), TrimSpace(candidates[k - 1]);
      if candidate == "" then front else front + [JoinAddress(candidate, port)]
  }

  /** Joining the same port keeps different hosts different. */
  lemma JoinIsInjective(a: string, b: string, port: string)
    requires JoinHostPort(a, port) == JoinHostPort(b, port)
    requires '[' !in a && '[' !in b
    ensures a == b
  {
    var x, y := JoinHostPort(a, port), JoinHostPort(b, port);
    if ':' in a && ':' in b {
      assert a == x[1..|x| - |port| - 2] && b == y[1..|y| - |port| - 2];
    } else if ':' !in a && ':' !in b {
      assert a == x[..|x| - |port| - 1] && b == y[..|y| - |port| - 1];
    } else if ':' in a {
      BracketLeads(a, b, port);
    } else {
      BracketLeads(b, a, port);
    }
  }

  lemma BracketLeads(a: string, b: string, port: string)
    requires ':' in a && ':' !in b && '[' !in b
    ensures JoinHostPort(a, port) != JoinHostPort(b, port)
  {
    assert JoinHostPort(a, port)[0] == '[';
    if b == "" {
      assert JoinHostPort(b, port)[0] == ':';
    } else {
      assert JoinHostPort(b, port)[0] == b[0];
    }
  }

  /** Text without spaces around it or brackets, as an IP literal is. */
  predicate Plain(address: string) {
    address != "" && TrimSpace(address) == address && Unbracket(address) == address && '[' !in address
  }

  ghost predicate AllPlain(candidates: seq<string>) {
    forall i :: 0 <= i < |candidates| ==> Plain(candidates[i])
  }

  function JoinAll(candidates: seq<string>, port: string): (r: seq<string>)
    ensures |r| == |candidates| && forall i :: 0 <= i < |r| ==> r[i] == JoinHostPort(candidates[i], port)
  {
    seq(|candidates|, i requires 0 <= i < |candidates| => JoinHostPort(candidates[i], port))
  }

  lemma {:induction false} PlainJoined(candidates: seq<string>, port: string, k: nat)
    requires k <= |candidates| && AllPlain(candidates)
    ensures Joined(candidates, port, k) == JoinAll(candidates[..k], port)
  {
    hide JoinHostPort, TrimSpace, Unbracket;
    if k > 0 {
      PlainJoined(candidates, port, k - 1);
      assert Plain(candidates[k - 1]);
      assert candidates[..k] == candidates[..k - 1] + [candidates[k - 1]];
    }
  }

  /** So the plan over normalised candidates dials each address once: with a parser
      that accepts only plain text, no dial address is repeated. */
  lemma PlanIsDistinct(addresses: seq<string>, parse: string -> Option<string>, target: string, port: string)
    requires addresses != [] && forall i :: 0 <= i < |addresses| ==> parse(Clean(addresses[i])).Some?
    requires forall a :: parse(a).Some? ==> Plain(a)
    ensures Distinct(DialPlan(target, Normalized(addresses, parse, |addresses|), port))
  {
    hide JoinHostPort, Normalized, CanonicalKey, Clean, Plain;
    var r := Normalized(addresses, parse, |addresses|);
    BootstrapsAreDistinct(addresses, parse);
    forall i | 0 <= i < |r| ensures Plain(r[i]) {
      var at := CandidateIsEntry(addresses, parse, |addresses|, r[i]);
    }
    EveryEntryIsKept(addresses, parse, |addresses|, 0);
    assert r != [];
    PlainJoined(r, port, |r|);
    assert r[..|r|] == r;
    forall i, j | 0 <= i < j < |r| ensures JoinHostPort(r[i], port) != JoinHostPort(r[j], port) {
      PlainApart(r[i], r[j], port);
    }
  }

  lemma PlainApart(a: string, b: string, port: string)
    requires Plain(a) && Plain(b) && a != b
    ensures JoinHostPort(a, port) != JoinHostPort(b, port)
  {
    hide JoinHostPort;
    if JoinHostPort(a, port) == JoinHostPort(b, port) { JoinIsInjective(a, b, port); }
  }
}
