/** Who owns a DoH session's connections: the session tracks every TCP connection
    it dials, the HTTP transport dials on its own goroutines, even after Close, and
    either may close a connection at any time. */
module DoHConnections {

  /** Where one dial goroutine stands. It may dial several candidates in turn. */
  datatype Hook =
    | Asking                    // about to take the pending connection
    | Dialling                  // waiting for a TCP connection
    | Shaking(conn: nat)        // tracked, TLS handshake running
    | Failing(conn: nat)        // handshake failed, about to close it
    | Recording(conn: nat)      // handshake done, about to record it
    | Refused(conn: nat)        // the session was closed, about to close it
    | Ended

  /** Close has not run, is closing what it took over, or has returned. */
  datatype Closer = NotYet | Sweeping(left: set<nat>) | Returned

  /** conns is the session's map; dropped are connections somebody has removed from
      it and is about to close; shut are those whose TCP connection is closed.
      handed is set once Open has returned the session. */
  datatype State = State(
    next: nat,
    conns: set<nat>,
    dropped: set<nat>,
    shut: set<nat>,
    pending: set<nat>,
    closed: bool,
    handed: bool,
    hooks: map<nat, Hook>,
    closer: Closer)

  const INIT := State(0, {}, {}, {}, {}, false, false, map[0 := Dialling], NotYet)

  /** Hook 0 is Open's own dial. */
  const OPENER: nat := 0

  // ----- the steps -----

  /** A hook appears when the transport dials; it asks for the pending connection. */
  predicate Start(s: State, t: State, h: nat) {
    s.handed && h !in s.hooks && t == s.(hooks := s.hooks[h := Asking])
  }

  predicate TakePending(s: State, t: State, h: nat) {
    h in s.hooks && s.hooks[h].Asking? &&
    if s.pending != {} then t == s.(pending := {}, hooks := s.hooks[h := Ended])
    else t == s.(hooks := s.hooks[h := Dialling])
  }

  /** A TCP connection is made and tracked. */
  predicate Track(s: State, t: State, h: nat) {
    h in s.hooks && s.hooks[h].Dialling? &&
    t == s.(next := s.next + 1, conns := s.conns + {s.next}, hooks := s.hooks[h := Shaking(s.next)])
  }

  /** No more candidates, or the context is over. */
  predicate GiveUp(s: State, t: State, h: nat) {
    h in s.hooks && s.hooks[h].Dialling? && t == s.(hooks := s.hooks[h := Ended])
  }

  predicate Shake(s: State, t: State, h: nat) {
    h in s.hooks && s.hooks[h].Shaking? &&
    var c := s.hooks[h].conn;
    t == s.(hooks := s.hooks[h := Recording(c)]) || t == s.(hooks := s.hooks[h := Failing(c)])
  }

  /** Open keeps its connection for the first exchange; a later dial is recorded,
      or refused when the session is closed. */
  predicate Record(s: State, t: State, h: nat) {
    h in s.hooks && s.hooks[h].Recording? &&
    var c := s.hooks[h].conn;
    if h == OPENER then t == s.(pending := {c}, handed := true, hooks := s.hooks[h := Ended])
    else if s.closed then t == s.(hooks := s.hooks[h := Refused(c)])
    else t == s.(hooks := s.hooks[h := Ended])
  }

  /** The hook closes its own connection: a failed handshake goes on to the next
      candidate, a refused connection ends the dial. */
  predicate CloseOwn(s: State, t: State, h: nat) {
    h in s.hooks && (s.hooks[h].Failing? || s.hooks[h].Refused?) &&
    var c := s.hooks[h].conn;
    t == s.(conns := s.conns - {c}, dropped := s.dropped + {c},
            hooks := s.hooks[h := if s.hooks[h].Failing? then Dialling else Ended])
  }

  /** The transport closes a connection of its own accord. */
  predicate TransportCloses(s: State, t: State, c: nat) {
    c < s.next && t == s.(conns := s.conns - {c}, dropped := s.dropped + {c})
  }

  /** The second half of a connection's Close: the TCP connection itself. */
  predicate Shut(s: State, t: State, c: nat) {
    c in s.dropped && t == s.(dropped := s.dropped - {c}, shut := s.shut + {c})
  }

  /** The locked part of Close: mark, forget the pending one, take the map. */
  predicate CloseStarts(s: State, t: State) {
    s.handed && s.closer.NotYet? && t == s.(closed := true, pending := {}, closer := Sweeping(s.conns), conns := {})
  }

  predicate CloseOne(s: State, t: State, c: nat) {
    s.closer.Sweeping? && c in s.closer.left &&
    t == s.(conns := s.conns - {c}, dropped := s.dropped + {c}, closer := Sweeping(s.closer.left - {c}))
  }

  predicate CloseReturns(s: State, t: State) {
    s.closer == Sweeping({}) && t == s.(closer := Returned)
  }

  predicate HookStep(s: State, t: State, h: nat) {
    Start(s, t, h) || TakePending(s, t, h) || Track(s, t, h) || GiveUp(s, t, h) || Shake(s, t, h) || Record(s, t, h) ||
    CloseOwn(s, t, h)
  }

  predicate ConnStep(s: State, t: State, c: nat) {
    TransportCloses(s, t, c) || Shut(s, t, c) || CloseOne(s, t, c)
  }

  ghost predicate Step(s: State, t: State) {
    || (exists h :: HookStep(s, t, h))
    || (exists c :: ConnStep(s, t, c))
    || CloseStarts(s, t)
    || CloseReturns(s, t)
  }

  // ----- the invariant -----

  predicate Holds(hook: Hook, c: nat) {
    (hook.Shaking? || hook.Failing? || hook.Recording? || hook.Refused?) && hook.conn == c
  }

  predicate Left(closer: Closer, c: nat) {
    closer.Sweeping? && c in closer.left
  }

  /** Every connection ever tracked is in the map, or on its way to being closed, or
      closed. */
  ghost predicate Owned(s: State) {
    forall c :: 0 <= c < s.next ==> c in s.conns || c in s.dropped || c in s.shut || Left(s.closer, c)
  }

  /** After Close a connection in the map has a dial that will still close it. */
  ghost predicate Minded(s: State) {
    s.closed ==> forall c :: c in s.conns ==> exists h :: h in s.hooks && Holds(s.hooks[h], c)
  }

  ghost predicate Inv(s: State) {
    && Owned(s)
    && Minded(s)
    && (forall c :: c in s.conns ==> c < s.next)
    && (forall h :: h in s.hooks && !s.hooks[h].Asking? && !s.hooks[h].Dialling? && !s.hooks[h].Ended? ==>
          s.hooks[h].conn < s.next)
    && (s.closed ==> s.handed && !s.closer.NotYet? && s.pending == {})
    && (!s.closed ==> s.closer.NotYet?)
    && (OPENER in s.hooks && (s.handed ==> s.hooks[OPENER].Ended?))
    && (forall h :: h in s.hooks && s.hooks[h].Refused? ==> s.closed)
    && (!s.handed ==>
          (forall h :: h in s.hooks ==> h == OPENER) && forall c :: c in s.conns ==> Holds(s.hooks[OPENER], c))
  }

  lemma InitOk()
    ensures Inv(INIT)
  {
  }

  /** A hook's step leaves every mapped connection with a dial that will close it. */
  lemma MindedKeeps(s: State, t: State, h: nat)
    requires Inv(s) && HookStep(s, t, h)
    ensures Minded(t)
  {
    hide Owned;
    forall c | t.closed && c in t.conns ensures exists g :: g in t.hooks && Holds(t.hooks[g], c) {
      if Track(s, t, h) && c == s.next {
        assert Holds(t.hooks[h], c);
      } else {
        var g :| g in s.hooks && Holds(s.hooks[g], c);
        assert g in t.hooks && Holds(t.hooks[g], c);
      }
    }
  }

  lemma OwnedKeeps(s: State, t: State, h: nat)
    requires Inv(s) && HookStep(s, t, h)
    ensures Owned(t)
  {
    hide Minded;
  }

  lemma HookKeeps(s: State, t: State, h: nat)
    requires Inv(s) && HookStep(s, t, h)
    ensures Inv(t)
  {
    MindedKeeps(s, t, h);
    OwnedKeeps(s, t, h);
    hide Minded, Owned;
  }

  lemma ConnKeeps(s: State, t: State, c: nat)
    requires Inv(s) && ConnStep(s, t, c)
    ensures Inv(t)
  {
  }

  lemma StepKeeps(s: State, t: State)
    requires Inv(s) && Step(s, t)
    ensures Inv(t)
  {
    hide HookStep, ConnStep;
    if h :| HookStep(s, t, h) {
      HookKeeps(s, t, h);
    } else if c :| ConnStep(s, t, c) {
      ConnKeeps(s, t, c);
    }
  }

  ghost predicate Run(trace: seq<State>) {
    && trace != [] && trace[0] == INIT
    && forall k :: 0 < k < |trace| ==> Step(trace[k - 1], trace[k])
  }

  lemma {:induction false} RunKeeps(trace: seq<State>, k: nat)
    requires Run(trace) && k < |trace|
    ensures Inv(trace[k])
  {
    hide Inv, Step;
    if k == 0 {
      InitOk();
    } else {
      RunKeeps(trace, k - 1);
      StepKeeps(trace[k - 1], trace[k]);
    }
  }

  /** Close has returned, and no dial and no connection's Close is still running. */
  ghost predicate Settled(s: State) {
    s.closer.Returned? && s.dropped == {} && forall h :: h in s.hooks ==> s.hooks[h].Ended?
  }

  /** For every interleaving, including dials that finish after Close: once Close has
      returned and the dials in flight have ended, every connection ever tracked is
      closed and the map is empty. */
  lemma NothingLeaks(trace: seq<State>, k: nat)
    requires Run(trace) && k < |trace| && Settled(trace[k])
    ensures trace[k].conns == {} && forall c :: 0 <= c < trace[k].next ==> c in trace[k].shut
  {
    hide Step;
    RunKeeps(trace, k);
  }

  /** An Open that fails leaves nothing behind either. */
  lemma FailedOpenLeavesNothing(trace: seq<State>, k: nat)
    requires Run(trace) && k < |trace|
    requires !trace[k].handed && OPENER in trace[k].hooks && trace[k].hooks[OPENER].Ended? && trace[k].dropped == {}
    ensures trace[k].conns == {} && forall c :: 0 <= c < trace[k].next ==> c in trace[k].shut
  {
    hide Step;
    RunKeeps(trace, k);
  }

  /** Nobody uses the connection any more: it is not in the map, and its Close has
      begun or is done. */
  predicate Dropped(s: State, c: nat) {
    c < s.next && c !in s.conns && (c in s.dropped || c in s.shut)
  }

  /** The connection is still in the hands of dial h, or it has been dropped. */
  predicate HeldOrDropped(s: State, h: nat, c: nat) {
    (h in s.hooks && Holds(s.hooks[h], c)) || Dropped(s, c)
  }

  /** A dial about to record the connection does not get to. */
  predicate OnlyRefused(s: State, t: State, h: nat, c: nat) {
    h in s.hooks && s.hooks[h] == Recording(c) ==> h in t.hooks && t.hooks[h] in {Recording(c), Refused(c)}
  }

  lemma LateStep(s: State, t: State, h: nat, c: nat)
    requires Inv(s) && Step(s, t) && s.closed && HeldOrDropped(s, h, c)
    ensures t.closed && HeldOrDropped(t, h, c)
    ensures OnlyRefused(s, t, h, c)
  {
    hide Owned, Minded;
  }

  /** A dial that is in its handshake when Close runs never leaves its connection in
      use. From then on, as long as the dial has not ended, it holds the connection;
      and when it lets go, the connection is out of the map and being closed, for good.
      Once the handshake is done the only way on is to be refused. */
  lemma {:induction false} LateDialIsRefused(trace: seq<State>, j: nat, k: nat, h: nat, c: nat)
    requires Run(trace) && j <= k < |trace| && trace[j].closed && h in trace[j].hooks && Holds(trace[j].hooks[h], c)
    ensures trace[k].closed && HeldOrDropped(trace[k], h, c)
    ensures k + 1 < |trace| ==> OnlyRefused(trace[k], trace[k + 1], h, c)
  {
    hide Inv, Step, HeldOrDropped, OnlyRefused;
    if j < k {
      LateDialIsRefused(trace, j, k - 1, h, c);
      RunKeeps(trace, k - 1);
      LateStep(trace[k - 1], trace[k], h, c);
    } else {
      HoldsNow(trace[k], h, c);
    }
    if k + 1 < |trace| {
      RunKeeps(trace, k);
      LateStep(trace[k], trace[k + 1], h, c);
    }
  }

  lemma HoldsNow(s: State, h: nat, c: nat)
    requires h in s.hooks && Holds(s.hooks[h], c)
    ensures HeldOrDropped(s, h, c)
  {
  }
}
