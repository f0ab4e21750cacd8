/** Where a reconnect starts: the sticky rotation over connection candidates and
    DoQ's own rotation over a hostname's resolved addresses. */
module Rotation {
  import opened Orders

  // ----- the plan's order -----

  /** The plan with one address moved to the front. */
  function Preferring(addresses: seq<string>, address: string): (r: seq<string>)
    ensures |r| == |addresses|
  {
    IndexFinds(addresses, address);
    var i := IndexOf(addresses, address);
    if i < 0 then addresses else [addresses[i]] + addresses[..i] + addresses[i + 1..]
  }

  /** The next place of a list of n, wrapping around. */
  function Wrap(i: nat, n: nat): (r: nat)
    requires i < n
    ensures r == if i + 1 < n then i + 1 else 0
  {
    (i + 1) % n
  }

  /** The candidate after address. */
  function After(addresses: seq<string>, address: string): string {
    IndexFinds(addresses, address);
    var i := IndexOf(addresses, address);
    if i < 0 then address else addresses[Wrap(i, |addresses|)]
  }

  lemma PreferringFound(addresses: seq<string>, address: string, i: nat)
    requires i < |addresses| && i == IndexOf(addresses, address)
    ensures Preferring(addresses, address) == [addresses[i]] + (addresses[..i] + addresses[i + 1..])
  {
    hide IndexOf;
  }

  /** Preferring only rearranges; the preferred candidate leads, and taking it away
      leaves the others in their configured order. */
  lemma PreferringKeepsAll(addresses: seq<string>, address: string)
    ensures multiset(Preferring(addresses, address)) == multiset(addresses)
    ensures address in addresses ==>
              exists i :: 0 <= i < |addresses| && addresses[i] == address &&
                          Preferring(addresses, address)[0] == address &&
                          Preferring(addresses, address)[1..] == addresses[..i] + addresses[i + 1..]
    ensures address !in addresses ==> Preferring(addresses, address) == addresses
  {
    IndexFinds(addresses, address);
    if address in addresses {
      hide Preferring, IndexOf;
      var i := IndexOf(addresses, address);
      PreferringFound(addresses, address, i);
      Without(addresses, i);
      assert Preferring(addresses, address)[1..] == addresses[..i] + addresses[i + 1..];
    }
  }

  lemma AfterStays(addresses: seq<string>, address: string)
    ensures address in addresses ==> After(addresses, address) in addresses
  {
    IndexFinds(addresses, address);
  }

  // ----- rotating -----

  /** Where the attempt after m timed-out ones starts. */
  function Walk(addresses: seq<string>, start: string, m: nat): string {
    if m == 0 then start else After(addresses, Walk(addresses, start, m - 1))
  }

  /** The starts of m consecutive attempts that all run out of time. */
  function Starts(addresses: seq<string>, start: string, m: nat): (r: seq<string>)
    ensures |r| == m && forall i :: 0 <= i < m ==> r[i] == Walk(addresses, start, i)
  {
    seq(m, i requires 0 <= i < m => Walk(addresses, start, i))
  }

  /** m places on from place i of a list of n. */
  function Turn(i: nat, m: nat, n: nat): (r: nat)
    requires i < n && m <= n
    ensures r < n
  {
    if i + m < n then i + m else i + m - n
  }

  lemma {:induction false} WalkRotates(addresses: seq<string>, i: nat, m: nat)
    requires Distinct(addresses) && i < |addresses| && m <= |addresses|
    ensures Walk(addresses, addresses[i], m) == addresses[Turn(i, m, |addresses|)]
  {
    if m > 0 {
      hide Wrap;
      WalkRotates(addresses, i, m - 1);
      IndexInDistinct(addresses, Turn(i, m - 1, |addresses|));
    }
  }

  /** k timed-out attempts in a row over k distinct addresses start at each address
      exactly once, wherever the first one starts. */
  lemma EachStartsOnce(addresses: seq<string>, start: string)
    requires Distinct(addresses) && start in addresses
    ensures multiset(Starts(addresses, start, |addresses|)) == multiset(addresses)
  {
    hide Walk, IndexOf;
    var n, starts := |addresses|, Starts(addresses, start, |addresses|);
    IndexFinds(addresses, start);
    var i := IndexOf(addresses, start);
    forall m | 0 <= m < n ensures starts[m] == addresses[Turn(i, m, n)] {
      WalkRotates(addresses, i, m);
    }
    forall x ensures x in starts <==> x in addresses {
      if x in addresses {
        var j := Find(addresses, x);
        var m := if j >= i then j - i else j + n - i;
        assert starts[m] == addresses[Turn(i, m, n)];
      }
    }
    DistinctPermutation(starts, addresses);
  }

  // ----- lists with repeats -----

  /** The first place whose address already stands earlier, |s| when there is none. */
  function FirstRepeat(s: seq<string>, k: nat): (j: nat)
    requires k <= |s|
    ensures j <= k
    ensures j < k ==> s[j] in s[..j]
    ensures forall m :: 0 <= m < j ==> s[m] !in s[..m]
  {
    if k == 0 then 0
    else
      var j := FirstRepeat(s, k - 1);
      if j < k - 1 then j else if s[k - 1] in s[..k - 1] then k - 1 else k
  }

  /** Every address is started at within |s| timed-out attempts, from every start. */
  ghost predicate Covers(s: seq<string>) {
    forall a, b :: a in s && b in s ==> exists m :: 0 <= m < |s| && Walk(s, a, m) == b
  }

  /** The front of the list that the walk can stay in: the places before the first
      repeat, which must lead back to the very first address and leave nobody out. */
  ghost predicate ClosesUp(s: seq<string>) {
    var j := FirstRepeat(s, |s|);
    (j < |s| ==> s[j] == s[0]) && forall b :: b in s ==> b in s[..j]
  }

  lemma FrontStep(s: seq<string>, i: nat)
    requires i < FirstRepeat(s, |s|)
    ensures IndexOf(s, s[i]) == i && After(s, s[i]) == s[Wrap(i, |s|)]
  {
    IndexFinds(s, s[i]);
  }

  lemma FrontTurn(s: seq<string>, i: nat, m: nat)
    requires s != [] && ClosesUp(s) && i < FirstRepeat(s, |s|) && 0 < m <= FirstRepeat(s, |s|)
    ensures After(s, s[Turn(i, m - 1, FirstRepeat(s, |s|))]) == s[Turn(i, m, FirstRepeat(s, |s|))]
  {
    hide FirstRepeat, After;
    FrontStep(s, Turn(i, m - 1, FirstRepeat(s, |s|)));
  }

  /** With a front that closes up, the walk goes round the front. */
  lemma {:induction false} WalkInFront(s: seq<string>, i: nat, m: nat)
    requires s != [] && ClosesUp(s) && i < FirstRepeat(s, |s|) && m <= FirstRepeat(s, |s|)
    ensures Walk(s, s[i], m) == s[Turn(i, m, FirstRepeat(s, |s|))]
  {
    if m > 0 {
      hide *;
      WalkInFront(s, i, m - 1);
      FrontTurn(s, i, m);
      WalkStep(s, s[i], m - 1);
    }
  }

  /** A walk from inside a cycle i..j-1 never leaves it. */
  lemma {:induction false} WalkInCycle(s: seq<string>, i: nat, m: nat) returns (at: nat)
    requires i < FirstRepeat(s, |s|) < |s| && s[FirstRepeat(s, |s|)] == s[i]
    ensures i <= at < FirstRepeat(s, |s|) && Walk(s, s[i], m) == s[at]
  {
    if m == 0 {
      at := i;
    } else {
      hide FirstRepeat, Wrap, After;
      var before := WalkInCycle(s, i, m - 1);
      FrontStep(s, before);
      at := if before + 1 < FirstRepeat(s, |s|) then before + 1 else i;
    }
  }

  lemma ClosedCovers(s: seq<string>, a: string, b: string) returns (m: nat)
    requires s != [] && ClosesUp(s) && a in s && b in s
    ensures m < |s| && Walk(s, a, m) == b
  {
    hide FirstRepeat;
    var j := FirstRepeat(s, |s|);
    var i := Find(s[..j], a);
    var k := Find(s[..j], b);
    m := if k >= i then k - i else k + j - i;
    WalkInFront(s, i, m);
  }

  lemma CoveredCloses(s: seq<string>)
    requires s != [] && Covers(s)
    ensures ClosesUp(s)
  {
    hide FirstRepeat, Walk;
    var j := FirstRepeat(s, |s|);
    if j == |s| {
      assert s[..j] == s;
    } else {
      var i := Find(s[..j], s[j]);
      forall b | b in s ensures b in s[i..j] {
        assert s[i] in s;
        var m :| 0 <= m < |s| && Walk(s, s[i], m) == b;
        var at := WalkInCycle(s, i, m);
        assert s[i..j][at - i] == b;
      }
      CycleFromStart(s, i);
    }
  }

  /** The walk reaches every address from every start exactly when the list closes
      up. A list without repeats always does. */
  lemma WalkCoversExactly(s: seq<string>)
    requires s != []
    ensures Covers(s) <==> ClosesUp(s)
    ensures Distinct(s) ==> ClosesUp(s)
  {
    hide Walk;
    if ClosesUp(s) {
      forall a, b | a in s && b in s ensures exists m :: 0 <= m < |s| && Walk(s, a, m) == b {
        var m := ClosedCovers(s, a, b);
      }
    }
    if Covers(s) { CoveredCloses(s); }
    if Distinct(s) {
      var j := FirstRepeat(s, |s|);
      if j < |s| {
        var i := Find(s[..j], s[j]);
      } else {
        assert s[..j] == s;
      }
    }
  }

  lemma FrontIsNew(s: seq<string>, at: nat)
    requires at < FirstRepeat(s, |s|)
    ensures at > 0 ==> s[at] != s[0]
  {
    if at > 0 { assert s[..at][0] == s[0]; }
  }

  lemma InLonger(s: seq<string>, i: nat, j: nat, b: string)
    requires i <= j <= |s| && b in s[i..j]
    ensures b in s[..j]
  {
    assert s[..j] == s[..i] + s[i..j];
  }

  lemma CycleFromStart(s: seq<string>, i: nat)
    requires i < FirstRepeat(s, |s|) < |s| && s[FirstRepeat(s, |s|)] == s[i]
    requires forall b :: b in s ==> b in s[i..FirstRepeat(s, |s|)]
    ensures ClosesUp(s)
  {
    hide FirstRepeat;
    var j := FirstRepeat(s, |s|);
    assert s[0] in s;
    var k := Find(s[i..j], s[0]);
    FrontIsNew(s, i + k);
    forall b | b in s ensures b in s[..j] {
      InLonger(s, i, j, b);
    }
  }

  /** With an address listed twice in a row the walk never gets past it. */
  lemma {:induction false} WalkStaysPut(s: seq<string>, m: nat)
    requires |s| > 1 && s[0] == s[1]
    ensures Walk(s, s[0], m) == s[0]
  {
    if m > 0 {
      WalkStaysPut(s, m - 1);
      IndexFinds(s, s[0]);
    }
  }

  // ----- one attempt -----

  /** How one dial goes; expired is whether the caller's deadline has passed by then. */
  datatype Dial = Connected | DialFailed(expired: bool)

  datatype Resolution = Literals(addresses: seq<string>) | Unresolved(expired: bool)

  datatype Dialled = Hit(address: string) | OutOfTime | AllFailed

  /** Dialling a list in order until one connects or the time is up. */
  function DialFrom(ordered: seq<string>, dials: seq<Dial>, at: nat): Dialled
    requires |dials| == |ordered| && at <= |ordered|
    decreases |ordered| - at
  {
    if at == |ordered| then AllFailed
    else match dials[at]
         case Connected => Hit(ordered[at])
         case DialFailed(expired) => if expired then OutOfTime else DialFrom(ordered, dials, at + 1)
  }

  lemma {:induction false} HitIsListed(ordered: seq<string>, dials: seq<Dial>, at: nat)
    requires |dials| == |ordered| && at <= |ordered|
    ensures var d := DialFrom(ordered, dials, at); (d.Hit? ==> d.address in ordered) && (d.OutOfTime? ==> ordered != [])
    decreases |ordered| - at
  {
    if at < |ordered| && dials[at] == DialFailed(false) { HitIsListed(ordered, dials, at + 1); }
  }

  method DialInOrder(ordered: seq<string>, dials: seq<Dial>) returns (d: Dialled)
    requires |dials| == |ordered|
    ensures d == DialFrom(ordered, dials, 0)
  {
    for at := 0 to |ordered|
      invariant DialFrom(ordered, dials, 0) == DialFrom(ordered, dials, at)
    {
      if dials[at].Connected? { return Hit(ordered[at]); }
      if dials[at].expired { return OutOfTime; }
    }
    d := AllFailed;
  }

  // ----- stream sessions -----

  /** late is the look at the deadline after every candidate has failed. */
  datatype StreamAttempt = StreamAttempt(dials: seq<Dial>, late: bool)

  predicate TimedOut(d: Dialled, late: bool) {
    d.OutOfTime? || (d.AllFailed? && late)
  }

  function StreamStart(plan: seq<string>, start: string, a: StreamAttempt): string
    requires |a.dials| == |plan|
  {
    var d := DialFrom(Preferring(plan, start), a.dials, 0);
    if d.Hit? then d.address else if TimedOut(d, a.late) then After(plan, start) else start
  }

  class StreamSession {
    const plan: seq<string>
    var start: string

    constructor (plan: seq<string>, start: string)
      ensures this.plan == plan && this.start == start
    {
      this.plan, this.start := plan, start;
    }

    method Reopen(a: StreamAttempt) returns (d: Dialled)
      requires |a.dials| == |plan|
      modifies this
      ensures d == DialFrom(Preferring(plan, old(start)), a.dials, 0)
      ensures start == StreamStart(plan, old(start), a)
    {
      d := DialInOrder(Preferring(plan, start), a.dials);
      if d.Hit? {
        start := d.address;
      } else if d.OutOfTime? || a.late {
        start := After(plan, start);
      }
    }
  }

  /** What an attempt does to the preferred start: a connection moves it to the candidate
      it reached, and the next attempt dials that one first; running out of time moves it
      one candidate on; failing everywhere in time leaves it. */
  lemma StreamStartMoves(plan: seq<string>, start: string, a: StreamAttempt, k: nat)
    requires |a.dials| == |plan| && start in plan
    requires k <= |plan| && forall i :: 0 <= i < k ==> a.dials[i] == DialFailed(false)
    ensures var order, next := Preferring(plan, start), StreamStart(plan, start, a);
            && (k < |plan| && a.dials[k].Connected? ==> next == order[k] && Preferring(plan, next)[0] == order[k])
            && (k < |plan| && a.dials[k] == DialFailed(true) ==> next == After(plan, start))
            && (k == |plan| ==> next == if a.late then After(plan, start) else start)
  {
    hide Preferring, After;
    var order := Preferring(plan, start);
    DialSkips(order, a.dials, k);
    if k < |plan| && a.dials[k].Connected? {
      PreferringKeepsAll(plan, start);
      SameElements(order, plan);
      assert order[k] in order;
      PreferringKeepsAll(plan, order[k]);
    }
  }

  lemma {:induction false} DialSkips(ordered: seq<string>, dials: seq<Dial>, k: nat)
    requires |dials| == |ordered| && k <= |ordered| && forall i :: 0 <= i < k ==> dials[i] == DialFailed(false)
    ensures DialFrom(ordered, dials, 0) == DialFrom(ordered, dials, k)
  {
    if k > 0 { DialSkips(ordered, dials, k - 1); }
  }

  /** The candidate after another stands right behind it, the first one behind the last. */
  lemma AfterIsNext(plan: seq<string>, i: nat)
    requires Distinct(plan) && i < |plan|
    ensures After(plan, plan[i]) == if i == |plan| - 1 then plan[0] else plan[i + 1]
  {
    IndexInDistinct(plan, i);
  }

  ghost predicate Sized(n: nat, attempts: seq<StreamAttempt>) {
    forall i :: 0 <= i < |attempts| ==> |attempts[i].dials| == n
  }

  /** The preferred start of a session after m attempts. */
  ghost function StreamStarts(plan: seq<string>, start: string, attempts: seq<StreamAttempt>, m: nat): string
    requires m <= |attempts| && Sized(|plan|, attempts)
  {
    if m == 0 then start else StreamStart(plan, StreamStarts(plan, start, attempts, m - 1), attempts[m - 1])
  }

  /** Attempt i runs out of time. */
  ghost predicate RunsOut(plan: seq<string>, start: string, attempts: seq<StreamAttempt>, i: nat)
    requires i < |attempts| && Sized(|plan|, attempts)
  {
    TimedOut(DialFrom(Preferring(plan, StreamStarts(plan, start, attempts, i)), attempts[i].dials, 0), attempts[i].late)
  }

  lemma OneAttempt(plan: seq<string>, start: string, a: StreamAttempt)
    requires |a.dials| == |plan| && start in plan
    ensures StreamStart(plan, start, a) in plan
  {
    hide Preferring, After, DialFrom;
    HitIsListed(Preferring(plan, start), a.dials, 0);
    PreferringKeepsAll(plan, start);
    SameElements(Preferring(plan, start), plan);
    AfterStays(plan, start);
  }

  /** Whatever the attempts meet, the preferred start is one of the candidates, and
      an attempt dials it first. */
  lemma {:induction false} StartIsCandidate(plan: seq<string>, start: string, attempts: seq<StreamAttempt>, m: nat)
    requires start in plan && m <= |attempts| && Sized(|plan|, attempts)
    ensures var s := StreamStarts(plan, start, attempts, m); s in plan && Preferring(plan, s)[0] == s
  {
    hide StreamStart, Preferring;
    if m > 0 {
      StartIsCandidate(plan, start, attempts, m - 1);
      OneAttempt(plan, StreamStarts(plan, start, attempts, m - 1), attempts[m - 1]);
    }
    PreferringKeepsAll(plan, StreamStarts(plan, start, attempts, m));
  }

  lemma TimedOutMovesOn(plan: seq<string>, start: string, attempts: seq<StreamAttempt>, m: nat)
    requires m < |attempts| && Sized(|plan|, attempts) && RunsOut(plan, start, attempts, m)
    ensures StreamStarts(plan, start, attempts, m + 1) == After(plan, StreamStarts(plan, start, attempts, m))
  {
  }

  lemma WalkStep(addresses: seq<string>, start: string, m: nat)
    ensures Walk(addresses, start, 0) == start
    ensures Walk(addresses, start, m + 1) == After(addresses, Walk(addresses, start, m))
  {
  }

  lemma {:induction false} TimeoutsWalk(plan: seq<string>, start: string, attempts: seq<StreamAttempt>, m: nat)
    requires m <= |attempts| && Sized(|plan|, attempts)
    requires forall i :: 0 <= i < m ==> RunsOut(plan, start, attempts, i)
    ensures StreamStarts(plan, start, attempts, m) == Walk(plan, start, m)
  {
    if m > 0 {
      hide *;
      TimeoutsWalk(plan, start, attempts, m - 1);
      TimedOutMovesOn(plan, start, attempts, m - 1);
      WalkStep(plan, start, m - 1);
    }
  }

  /** What each of as many attempts as there are candidates dials first. */
  ghost function StreamFirsts(plan: seq<string>, start: string, attempts: seq<StreamAttempt>): (r: seq<string>)
    requires |attempts| == |plan| && Sized(|plan|, attempts)
    ensures |r| == |plan|
    ensures forall i :: 0 <= i < |r| ==> r[i] == Preferring(plan, StreamStarts(plan, start, attempts, i))[0]
  {
    seq(|plan|, i requires 0 <= i < |plan| => Preferring(plan, StreamStarts(plan, start, attempts, i))[0])
  }

  /** k timed-out reconnects in a row over k distinct candidates dial each of them
      first exactly once. */
  lemma StickyReopenCoversAll(plan: seq<string>, start: string, attempts: seq<StreamAttempt>)
    requires Distinct(plan) && start in plan && |attempts| == |plan| && Sized(|plan|, attempts)
    requires forall i :: 0 <= i < |attempts| ==> RunsOut(plan, start, attempts, i)
    ensures multiset(StreamFirsts(plan, start, attempts)) == multiset(plan)
  {
    hide Preferring, StreamStarts, Walk, RunsOut, StreamFirsts;
    var first := StreamFirsts(plan, start, attempts);
    forall i | 0 <= i < |plan| ensures first[i] == Walk(plan, start, i) {
      StartIsCandidate(plan, start, attempts, i);
      TimeoutsWalk(plan, start, attempts, i);
    }
    assert first == Starts(plan, start, |plan|);
    EachStartsOnce(plan, start);
  }

  // ----- DoQ sessions -----

  /** What each candidate resolves to, and how each dial of its addresses goes, in
      the order the attempt makes them. */
  datatype DoqAttempt = DoqAttempt(resolutions: seq<Resolution>, dials: seq<seq<Dial>>, late: bool)

  ghost predicate Fits(n: nat, a: DoqAttempt) {
    && |a.resolutions| == |a.dials| == n
    && forall c :: 0 <= c < n && a.resolutions[c].Literals? ==> |a.dials[c]| == |a.resolutions[c].addresses|
  }

  datatype Opened = Opened(candidate: string, expired: bool, connected: bool, reached: string)

  /** doqFactory.open from candidate c on: what it returns and the preference it
      leaves. */
  function OpenFrom(order: seq<string>, a: DoqAttempt, reached: string, c: nat): Opened
    requires Fits(|order|, a) && c <= |order|
    decreases |order| - c
  {
    if c == |order| then Opened("", false, false, reached)
    else match a.resolutions[c]
         case Unresolved(expired) =>
           if expired then Opened("", true, false, reached) else OpenFrom(order, a, reached, c + 1)
         case Literals(addresses) =>
           var ordered := Preferring(addresses, reached);
           match DialFrom(ordered, a.dials[c], 0)
           case Hit(literal) => Opened(order[c], false, true, literal)
           case OutOfTime =>
             HitIsListed(ordered, a.dials[c], 0);
             Opened("", true, false, After(addresses, ordered[0]))
           case AllFailed => OpenFrom(order, a, reached, c + 1)
  }

  function Reconnected(plan: seq<string>, start: string, reached: string, a: DoqAttempt): (r: (string, string))
    requires Fits(|plan|, a)
  {
    var o := OpenFrom(Preferring(plan, start), a, reached, 0);
    (if o.connected then o.candidate else if o.expired || a.late then After(plan, start) else start, o.reached)
  }

  class DoqSession {
    const plan: seq<string>
    var start: string
    var reached: string

    constructor (plan: seq<string>, start: string, reached: string)
      ensures this.plan == plan && this.start == start && this.reached == reached
    {
      this.plan, this.start, this.reached := plan, start, reached;
    }

    method Open(order: seq<string>, a: DoqAttempt) returns (o: Opened)
      requires Fits(|order|, a)
      modifies this`reached
      ensures o == OpenFrom(order, a, old(reached), 0) && reached == o.reached
    {
      for c := 0 to |order|
        invariant reached == old(reached)
        invariant OpenFrom(order, a, reached, 0) == OpenFrom(order, a, reached, c)
      {
        match a.resolutions[c] {
          case Unresolved(expired) =>
            if expired { return Opened("", true, false, reached); }
          case Literals(addresses) =>
            var ordered := Preferring(addresses, reached);
            var d := DialInOrder(ordered, a.dials[c]);
            HitIsListed(ordered, a.dials[c], 0);
            if d.Hit? {
              reached := d.address;
              return Opened(order[c], false, true, reached);
            }
            if d.OutOfTime? {
              reached := After(addresses, ordered[0]);
              return Opened("", true, false, reached);
            }
        }
      }
      o := Opened("", false, false, reached);
    }

    method Reconnect(a: DoqAttempt) returns (o: Opened)
      requires Fits(|plan|, a)
      modifies this
      ensures o == OpenFrom(Preferring(plan, old(start)), a, old(reached), 0)
      ensures (start, reached) == Reconnected(plan, old(start), old(reached), a)
    {
      o := Open(Preferring(plan, start), a);
      if o.connected {
        start := o.candidate;
      } else if o.expired || a.late {
        start := After(plan, start);
      }
    }
  }

  ghost predicate AllFit(n: nat, attempts: seq<DoqAttempt>) {
    forall i :: 0 <= i < |attempts| ==> Fits(n, attempts[i])
  }

  /** start and reached after m attempts. */
  ghost function Session(plan: seq<string>, start: string, reached: string, attempts: seq<DoqAttempt>,
                         m: nat): (string, string)
    requires m <= |attempts| && AllFit(|plan|, attempts)
  {
    if m == 0 then (start, reached)
    else
      var s := Session(plan, start, reached, attempts, m - 1);
      Reconnected(plan, s.0, s.1, attempts[m - 1])
  }

  /** One hostname, resolved to the same addresses every time, running out of time
      while dialling, whichever address used the time up. */
  ghost predicate RunsOutDialling(addresses: seq<string>, reached: string, a: DoqAttempt) {
    && Fits(1, a) && a.resolutions[0] == Literals(addresses)
    && DialFrom(Preferring(addresses, reached), a.dials[0], 0) == OutOfTime
  }

  /** The address attempt m dials first. */
  ghost function FirstDialled(host: string, addresses: seq<string>, start: string, reached: string,
                              attempts: seq<DoqAttempt>, m: nat): string
    requires addresses != [] && m <= |attempts| && AllFit(1, attempts)
  {
    Preferring(addresses, Session([host], start, reached, attempts, m).1)[0]
  }

  /** What each of n attempts dials first. */
  ghost function FirstsDialled(host: string, addresses: seq<string>, start: string, reached: string,
                               attempts: seq<DoqAttempt>, n: nat): (r: seq<string>)
    requires addresses != [] && n <= |attempts| + 1 && AllFit(1, attempts)
    ensures |r| == n
    ensures forall i :: 0 <= i < n ==> r[i] == FirstDialled(host, addresses, start, reached, attempts, i)
  {
    seq(n, i requires 0 <= i < n => FirstDialled(host, addresses, start, reached, attempts, i))
  }

  ghost predicate AllRunOut(host: string, addresses: seq<string>, start: string, reached: string,
                            attempts: seq<DoqAttempt>, m: nat)
    requires m <= |attempts| && AllFit(1, attempts)
  {
    forall i :: 0 <= i < m ==> RunsOutDialling(addresses, Session([host], start, reached, attempts, i).1, attempts[i])
  }

  lemma FirstIsPreferred(addresses: seq<string>, reached: string)
    requires addresses != []
    ensures Preferring(addresses, reached)[0] == if reached in addresses then reached else addresses[0]
  {
    PreferringKeepsAll(addresses, reached);
  }

  lemma OneHostname(host: string, addresses: seq<string>, start: string, reached: string, a: DoqAttempt)
    requires addresses != [] && RunsOutDialling(addresses, reached, a)
    ensures Reconnected([host], start, reached, a).1 == After(addresses, Preferring(addresses, reached)[0])
  {
  }

  /** Running out of time moves the first address dialled to the one after it, in
      the resolver's order. */
  lemma DoqMovesOn(host: string, addresses: seq<string>, start: string, reached: string, attempts: seq<DoqAttempt>,
                   m: nat)
    requires addresses != [] && m < |attempts| && AllFit(1, attempts)
    requires RunsOutDialling(addresses, Session([host], start, reached, attempts, m).1, attempts[m])
    ensures FirstDialled(host, addresses, start, reached, attempts, m + 1) ==
            After(addresses, FirstDialled(host, addresses, start, reached, attempts, m))
  {
    hide After, Preferring, Reconnected, RunsOutDialling;
    var s := Session([host], start, reached, attempts, m);
    OneHostname(host, addresses, s.0, s.1, attempts[m]);
    var first := Preferring(addresses, s.1)[0];
    FirstIsPreferred(addresses, s.1);
    AfterStays(addresses, first);
    FirstIsPreferred(addresses, After(addresses, first));
  }

  /** Addresses that follow each other are the walk from the first. */
  lemma {:induction false} ChainWalks(addresses: seq<string>, firsts: seq<string>, m: nat)
    requires m < |firsts| && forall i :: 0 <= i < |firsts| - 1 ==> firsts[i + 1] == After(addresses, firsts[i])
    ensures firsts[m] == Walk(addresses, firsts[0], m)
  {
    hide After;
    if m > 0 { ChainWalks(addresses, firsts, m - 1); }
  }

  /** While attempts run out of time, what they dial first walks round the list. */
  lemma DoqWalks(host: string, addresses: seq<string>, start: string, reached: string, attempts: seq<DoqAttempt>,
                 m: nat)
    requires addresses != [] && m <= |attempts| && AllFit(1, attempts)
    requires AllRunOut(host, addresses, start, reached, attempts, m)
    ensures FirstDialled(host, addresses, start, reached, attempts, m) ==
            Walk(addresses, FirstDialled(host, addresses, start, reached, attempts, 0), m)
  {
    hide FirstDialled, FirstsDialled, Walk, After, RunsOutDialling, Session;
    var firsts := FirstsDialled(host, addresses, start, reached, attempts, m + 1);
    forall i | 0 <= i < m ensures firsts[i + 1] == After(addresses, firsts[i]) {
      DoqMovesOn(host, addresses, start, reached, attempts, i);
    }
    ChainWalks(addresses, firsts, m);
  }

  /** With k distinct addresses behind one hostname, any k reconnects that resolve
      and then run out of time dialling dial each address first exactly once. */
  lemma DoqCoversAll(host: string, addresses: seq<string>, start: string, reached: string, attempts: seq<DoqAttempt>)
    requires addresses != [] && Distinct(addresses) && |attempts| == |addresses| && AllFit(1, attempts)
    requires AllRunOut(host, addresses, start, reached, attempts, |attempts|)
    ensures multiset(FirstsDialled(host, addresses, start, reached, attempts, |addresses|)) == multiset(addresses)
  {
    hide FirstDialled, FirstsDialled, Walk, RunsOutDialling, Session;
    var first := FirstsDialled(host, addresses, start, reached, attempts, |addresses|);
    FirstIsListed(host, addresses, start, reached, attempts);
    forall i | 0 <= i < |addresses| ensures first[i] == Walk(addresses, first[0], i) {
      DoqWalks(host, addresses, start, reached, attempts, i);
    }
    assert first == Starts(addresses, first[0], |addresses|);
    EachStartsOnce(addresses, first[0]);
  }

  lemma FirstIsListed(host: string, addresses: seq<string>, start: string, reached: string, attempts: seq<DoqAttempt>)
    requires addresses != [] && AllFit(1, attempts)
    ensures FirstDialled(host, addresses, start, reached, attempts, 0) in addresses
  {
    FirstIs(host, addresses, start, reached, attempts);
  }

  /** Whatever the attempts meet short of a connection, each of n addresses is the
      first dialled of some attempt among n that run out of time. */
  ghost predicate DialsAll(host: string, addresses: seq<string>, start: string) {
    forall reached, attempts, b ::
      && AllFit(1, attempts) && |attempts| == |addresses|
      && AllRunOut(host, addresses, start, reached, attempts, |attempts|)
      && b in addresses
      ==> DialsFirst(host, addresses, start, reached, attempts, b)
  }

  ghost predicate DialsFirst(host: string, addresses: seq<string>, start: string, reached: string,
                             attempts: seq<DoqAttempt>, b: string)
    requires AllFit(1, attempts)
  {
    exists m :: 0 <= m < |addresses| && m <= |attempts| &&
                FirstDialled(host, addresses, start, reached, attempts, m) == b
  }

  /** An attempt whose first dial uses all the time. */
  function Stalled(addresses: seq<string>): DoqAttempt {
    DoqAttempt([Literals(addresses)], [seq(|addresses|, _ => DialFailed(true))], true)
  }

  lemma StalledRunsOut(host: string, addresses: seq<string>, start: string, reached: string, attempts: seq<DoqAttempt>)
    requires addresses != [] && forall i :: 0 <= i < |attempts| ==> attempts[i] == Stalled(addresses)
    ensures AllFit(1, attempts) && AllRunOut(host, addresses, start, reached, attempts, |attempts|)
  {
    hide Session, Preferring;
  }

  /** The promise made for the rotation, that n timed-out attempts dial each of the n
      addresses first whatever was preferred before, holds exactly when the list
      closes up. */
  lemma CoversExactly(host: string, addresses: seq<string>, start: string)
    requires addresses != []
    ensures DialsAll(host, addresses, start) <==> ClosesUp(addresses)
    ensures Distinct(addresses) ==> ClosesUp(addresses)
  {
    hide ClosesUp, Walk, FirstDialled, AllRunOut, DialsFirst;
    WalkCoversExactly(addresses);
    if ClosesUp(addresses) {
      forall reached, attempts, b |
        && AllFit(1, attempts) && |attempts| == |addresses|
        && AllRunOut(host, addresses, start, reached, attempts, |attempts|)
        && b in addresses
        ensures DialsFirst(host, addresses, start, reached, attempts, b)
      {
        CoveredIsDialled(host, addresses, start, reached, attempts, b);
      }
    }
    if DialsAll(host, addresses, start) {
      forall a, b | a in addresses && b in addresses
        ensures exists m :: 0 <= m < |addresses| && Walk(addresses, a, m) == b
      {
        var m := DialledIsCovered(host, addresses, start, a, b);
      }
    }
  }

  lemma CoveredIsDialled(host: string, addresses: seq<string>, start: string, reached: string,
                         attempts: seq<DoqAttempt>, b: string)
    requires addresses != [] && Covers(addresses) && b in addresses && AllFit(1, attempts) && |attempts| == |addresses|
    requires AllRunOut(host, addresses, start, reached, attempts, |attempts|)
    ensures DialsFirst(host, addresses, start, reached, attempts, b)
  {
    hide Walk, FirstDialled, RunsOutDialling, Session;
    FirstIsListed(host, addresses, start, reached, attempts);
    var a := FirstDialled(host, addresses, start, reached, attempts, 0);
    var m :| 0 <= m < |addresses| && Walk(addresses, a, m) == b;
    DoqWalks(host, addresses, start, reached, attempts, m);
  }

  lemma DialledIsCovered(host: string, addresses: seq<string>, start: string, a: string, b: string) returns (m: nat)
    requires a in addresses && b in addresses && DialsAll(host, addresses, start)
    ensures m < |addresses| && Walk(addresses, a, m) == b
  {
    hide Walk, FirstDialled, RunsOutDialling, Session;
    var attempts := seq(|addresses|, _ => Stalled(addresses));
    StalledRunsOut(host, addresses, start, a, attempts);
    assert DialsFirst(host, addresses, start, a, attempts, b);
    m :| 0 <= m < |addresses| && m <= |attempts| && FirstDialled(host, addresses, start, a, attempts, m) == b;
    DoqWalks(host, addresses, start, a, attempts, m);
    FirstIs(host, addresses, start, a, attempts);
  }

  lemma FirstIs(host: string, addresses: seq<string>, start: string, reached: string, attempts: seq<DoqAttempt>)
    requires addresses != [] && AllFit(1, attempts)
    ensures FirstDialled(host, addresses, start, reached, attempts, 0) ==
              if reached in addresses then reached else addresses[0]
  {
    hide Preferring;
    FirstIsPreferred(addresses, reached);
  }

  /** A list that starts with a repeat never gets past its first address, unless a
      later one was preferred before. */
  lemma {:induction false} RepeatSticks(host: string, addresses: seq<string>, start: string, reached: string,
                                        attempts: seq<DoqAttempt>, m: nat)
    requires |addresses| > 1 && addresses[0] == addresses[1] && (reached == addresses[0] || reached !in addresses)
    requires m <= |attempts| && AllFit(1, attempts) && AllRunOut(host, addresses, start, reached, attempts, m)
    ensures FirstDialled(host, addresses, start, reached, attempts, m) == addresses[0]
  {
    hide FirstDialled, AllRunOut, Walk;
    FirstIs(host, addresses, start, reached, attempts);
    DoqWalks(host, addresses, start, reached, attempts, m);
    WalkStaysPut(addresses, m);
  }

  /** A repeat can hide an address for good: here the third address is never dialled
      first, however many attempts run out of time, unless it was already preferred. */
  lemma {:induction false} RepeatHidesAddress(host: string, start: string, reached: string,
                                              attempts: seq<DoqAttempt>, m: nat)
    requires reached != "b" && m <= |attempts| && AllFit(1, attempts)
    requires AllRunOut(host, ["a", "a", "b"], start, reached, attempts, m)
    ensures FirstDialled(host, ["a", "a", "b"], start, reached, attempts, m) == "a"
  {
    hide FirstDialled, AllRunOut;
    RepeatSticks(host, ["a", "a", "b"], start, reached, attempts, m);
  }

  /** Candidate c of an attempt settles nothing: its name does not resolve in time, or none
      of its addresses connects, with time left. */
  predicate PassedOver(order: seq<string>, a: DoqAttempt, reached: string, c: nat)
    requires Fits(|order|, a) && c < |order|
  {
    match a.resolutions[c]
    case Unresolved(expired) => !expired
    case Literals(addresses) => DialFrom(Preferring(addresses, reached), a.dials[c], 0) == AllFailed
  }

  lemma {:induction false} OpenSkips(order: seq<string>, a: DoqAttempt, reached: string, k: nat)
    requires Fits(|order|, a) && k <= |order| && forall c :: 0 <= c < k ==> PassedOver(order, a, reached, c)
    ensures OpenFrom(order, a, reached, 0) == OpenFrom(order, a, reached, k)
  {
    if k > 0 {
      hide Preferring, DialFrom, After;
      OpenSkips(order, a, reached, k - 1);
      assert PassedOver(order, a, reached, k - 1);
    }
  }

  /** What a reconnect leaves, by the first candidate that settles it. A name that runs out
      of time while it resolves moves the start on and leaves the preferred address; an
      address reached becomes preferred, and its candidate the start; running out of time
      while dialling moves both on; and when every candidate fails, the start moves on only
      if time is up by then. */
  lemma DoqReconnectSpelledOut(plan: seq<string>, start: string, reached: string, a: DoqAttempt, k: nat)
    requires Fits(|plan|, a) && k <= |plan|
    requires forall c :: 0 <= c < k ==> PassedOver(Preferring(plan, start), a, reached, c)
    ensures var order, r := Preferring(plan, start), Reconnected(plan, start, reached, a);
            && (k == |plan| ==> r == (if a.late then After(plan, start) else start, reached))
            && (k < |plan| && a.resolutions[k] == Unresolved(true) ==> r == (After(plan, start), reached))
            && (k < |plan| && a.resolutions[k].Literals? ==>
                  var addresses := a.resolutions[k].addresses;
                  var dialled := Preferring(addresses, reached);
                  match DialFrom(dialled, a.dials[k], 0)
                  case Hit(literal) => r == (order[k], literal)
                  case OutOfTime => dialled != [] && r == (After(plan, start), After(addresses, dialled[0]))
                  case AllFailed => true)
  {
    hide DialFrom, After;
    OpenSkips(Preferring(plan, start), a, reached, k);
    if k < |plan| && a.resolutions[k].Literals? {
      HitIsListed(Preferring(a.resolutions[k].addresses, reached), a.dials[k], 0);
    }
  }

  /** A connection moves the preference to the address it reached, and the next
      attempt dials that one first. */
  lemma SuccessSticks(host: string, addresses: seq<string>, start: string, reached: string, a: DoqAttempt)
    requires Fits(1, a) && a.resolutions[0] == Literals(addresses)
    requires DialFrom(Preferring(addresses, reached), a.dials[0], 0).Hit?
    ensures var d := DialFrom(Preferring(addresses, reached), a.dials[0], 0);
            && Reconnected([host], start, reached, a) == (host, d.address)
            && d.address in addresses && Preferring(addresses, d.address)[0] == d.address
  {
    hide DialFrom;
    var d := DialFrom(Preferring(addresses, reached), a.dials[0], 0);
    HitIsListed(Preferring(addresses, reached), a.dials[0], 0);
    PreferringKeepsAll(addresses, reached);
    SameElements(Preferring(addresses, reached), addresses);
    FirstIsPreferred(addresses, d.address);
    OnlyCandidate(host, start);
  }

  lemma OnlyCandidate(host: string, start: string)
    ensures Preferring([host], start) == [host]
  {
    PreferringKeepsAll([host], start);
  }
}
