/** The scheduler never hangs: some goroutine can always move until the run is
    done, and every move but a cancellation brings the end closer. */
module SchedulerProgress {
  import opened Orders
  import opened Report
  import opened Runner
  import opened Scheduler

  // ----- what is left to do -----

  /** Stages left: each query round counts three. */
  function Phase(c: Config, stage: Stage): nat {
    var all := |c.queries|;
    match stage
    case ColdLoop => 3 * all + 8
    case ColdSelect => 3 * all + 8
    case ColdWait => 3 * all + 8
    case Warm(_) => 3 * all + 7
    case Prepared => 3 * all + 6
    case RoundStart(q) => 3 + (if q < all then 3 * (all - q) else 0) + 2
    case RoundLoop(q, _) => 3 + (if q < all then 3 * (all - q) else 0) + 1
    case RoundSelect(q, _) => 3 + (if q < all then 3 * (all - q) else 0) + 1
    case RoundWait(q, _) => 3 + (if q < all then 3 * (all - q) else 0) + 1
    case RoundEnd(q) => 3 + (if q < all then 3 * (all - q) else 0)
    case Dnssec(_) => 2
    case Finishing(_) => 1
    case Done => 0
  }

  /** Runners the stage has still to hand out. */
  function Waiting(n: nat, m: Main): nat {
    match m.stage
    case ColdLoop => if m.dispatched < n then 2 * (n - m.dispatched) + 2 else 2
    case ColdSelect => if m.dispatched < n then 2 * (n - m.dispatched) + 1 else 1
    case Warm(queue) => |queue|
    case RoundLoop(_, next) => if next < |m.ready| then 2 * (|m.ready| - next) + 2 else 2
    case RoundSelect(_, next) => if next < |m.ready| then 2 * (|m.ready| - next) + 1 else 1
    case Dnssec(queue) => |queue|
    case _ => 0
  }

  function Rank(t: Task): nat {
    match t
    case Create => 14
    case ColdCheck(probe) => 3 * (if probe < PROBES then PROBES - probe else 0) + 3
    case ColdOpen(probe) => 3 * (if probe < PROBES then PROBES - probe else 0) + 2
    case ColdAsk(probe) => 3 * (if probe < PROBES then PROBES - probe else 0) + 1
    case WarmStart => 12
    case WarmOpen => 11
    case WarmCheck(name) => 2 * (if name < WARMUPS then WARMUPS - name else 0) + 2
    case WarmAsk(name) => 2 * (if name < WARMUPS then WARMUPS - name else 0) + 1
    case Measure => 2
    case Asking => 1
    case ProbeStart => 3
    case ProbeSigned => 2
    case ProbeBogus => 1
  }

  function SlotRank(slot: Slot): nat {
    if slot.Busy? then Rank(slot.task) else 0
  }

  /** Steps the workers have still to take. */
  function Pending(slots: seq<Slot>, k: nat): nat
    requires k <= |slots|
  {
    if k == 0 then 0 else Pending(slots, k - 1) + SlotRank(slots[k - 1])
  }

  predicate Closer(c: Config, n: nat, t: State, s: State) {
    var p, q := Phase(c, t.main.stage), Phase(c, s.main.stage);
    var w, v := Waiting(n, t.main), Waiting(n, s.main);
    p < q || (p == q && (w < v || (w == v && Pending(t.slots, |t.slots|) < Pending(s.slots, |s.slots|))))
  }

  // ----- every step brings the end closer -----

  lemma {:induction false} PendingChange(slots: seq<Slot>, k: nat, w: nat, slot: Slot)
    requires k <= |slots| && w < |slots|
    ensures Pending(slots[w := slot], k) + (if w < k then SlotRank(slots[w]) else 0) ==
            Pending(slots, k) + if w < k then SlotRank(slot) else 0
  {
    if k > 0 { PendingChange(slots, k - 1, w, slot); }
  }

  lemma AdvanceRanks(c: Config, m: Main, query: Query, i: nat, t: Task, r: Runner, now: Reading)
    requires TaskOk(c, m, i, t, r)
    ensures var next := Advance(c, query, t, r, now).next; next.Go? ==> Rank(next.task) < Rank(t)
    ensures Rank(t) > 0
  {
  }

  lemma WorkCloser(c: Config, n: nat, s: State, w: nat, ok: bool)
    requires Inv(c, n, s) && w < |s.slots| && s.slots[w].Busy? && s.slots[w].runner < |s.runners|
    ensures Closer(c, n, Worked(c, s, w, ok), s)
  {
    hide TaskOk, RestOk, Advance, Samples, Rank, Pending, Phase, Waiting;
    var slot := s.slots[w];
    assert HeldOk(c, s.main, s.runners, slot);
    AdvanceRanks(c, s.main, RoundQuery(c, s.main.stage), slot.runner, slot.task, s.runners[slot.runner],
                 Reading(s.main.cancelled, ok));
    PendingChange(s.slots, |s.slots|, w, Worked(c, s, w, ok).slots[w]);
  }

  /** Every step of a run but a cancellation makes what is left strictly smaller,
      so a run cannot go on for ever. */
  lemma StepCloser(c: Config, n: nat, s: State, t: State)
    requires Inv(c, n, s) && Step(c, s, t) && !CancelStep(s, t)
    ensures Closer(c, n, t, s)
  {
    hide SlotsOk, Samples, Pending, Rank;
    if WorkStep(c, s, t) {
      var w, ok :| 0 <= w < |s.slots| && s.slots[w].Busy? && s.slots[w].runner < |s.runners| &&
                   t == Worked(c, s, w, ok);
      WorkCloser(c, n, s, w, ok);
    } else if ColdStep(c, s, t) {
      ColdCloser(c, n, s, t);
    } else if WarmStep(c, s, t) {
      WarmCloser(c, n, s, t);
    } else if RoundStep(c, s, t) {
      RoundCloser(c, n, s, t);
    } else {
      LastCloser(c, n, s, t);
    }
  }

  lemma ColdCloser(c: Config, n: nat, s: State, t: State)
    requires Inv(c, n, s) && ColdStep(c, s, t)
    ensures Closer(c, n, t, s)
  {
    hide SlotsOk, Samples, Pending;
  }

  lemma WarmCloser(c: Config, n: nat, s: State, t: State)
    requires Inv(c, n, s) && WarmStep(c, s, t)
    ensures Closer(c, n, t, s)
  {
    hide SlotsOk, Samples, Pending;
  }

  lemma RoundCloser(c: Config, n: nat, s: State, t: State)
    requires Inv(c, n, s) && RoundStep(c, s, t)
    ensures Closer(c, n, t, s)
  {
    hide SlotsOk, Samples, Pending;
  }

  lemma LastCloser(c: Config, n: nat, s: State, t: State)
    requires Inv(c, n, s) && LastStep(c, s, t)
    ensures Closer(c, n, t, s)
  {
    hide SlotsOk, Samples, Pending;
  }

  // ----- somebody can always move -----

  lemma PoolNotEmpty(c: Config, n: nat, m: Main)
    requires MainOk(c, n, m)
    requires (m.stage.ColdSelect? || m.stage.RoundSelect? ||
              ((m.stage.Warm? || m.stage.Dnssec?) && m.stage.queue != []))
    ensures PoolSize(c, n, m) > 0
  {
    if m.stage.Warm? { assert m.stage.queue[0] < n; }
    if m.stage.Dnssec? { assert m.stage.queue[0] in m.ready; }
  }

  /** With every worker idle the main goroutine can move. */
  lemma MainMoves(c: Config, n: nat, s: State) returns (t: State)
    requires Inv(c, n, s) && Quiet(s.slots) && !s.main.stage.Done?
    ensures Step(c, s, t) && Closer(c, n, t, s)
  {
    hide Inv, WorkStep, CancelStep, Closer;
    var m := s.main;
    InvMain(c, n, s);
    match m.stage {
      case ColdLoop =>
        t := At(s, if m.dispatched == |s.runners| || m.cancelled then ColdWait else ColdSelect);
        ColdCloser(c, n, s, t);
      case ColdSelect =>
        PoolNotEmpty(c, n, m);
        t := ColdSent(s, 0);
        assert s.slots[0].Idle?;
        assert ColdStep(c, s, t);
        ColdCloser(c, n, s, t);
      case ColdWait =>
        t := if m.cancelled then Collected(s.(runners := AbortUnfinished(s.runners, m.dispatched)))
             else At(s.(slots := IdlePool(Workers(c.concurrency, |s.runners|))), Warm(Identity(|s.runners|)));
        ColdCloser(c, n, s, t);
      case Warm(queue) =>
        if queue == [] {
          t := Collected(s);
        } else {
          PoolNotEmpty(c, n, m);
          t := At(Hand(s, 0, queue[0], WarmStart), Warm(queue[1..]));
          assert s.slots[0].Idle?;
        }
        assert WarmStep(c, s, t);
        WarmCloser(c, n, s, t);
      case Prepared =>
        t := At(s, if m.cancelled then Finishing(0) else RoundStart(0));
        WarmCloser(c, n, s, t);
      case _ =>
        t := RoundMoves(c, n, s);
    }
  }

  lemma InvMain(c: Config, n: nat, s: State)
    requires Inv(c, n, s)
    ensures MainOk(c, n, s.main) && |s.runners| == n && |s.slots| == PoolSize(c, n, s.main)
  {
    hide SlotsOk;
  }

  lemma RoundMoves(c: Config, n: nat, s: State) returns (t: State)
    requires Inv(c, n, s) && Quiet(s.slots)
    requires var m := s.main;
             !(m.stage.ColdLoop? || m.stage.ColdSelect? || m.stage.ColdWait? || m.stage.Warm? || m.stage.Prepared? ||
               m.stage.Done?)
    ensures Step(c, s, t) && Closer(c, n, t, s)
  {
    hide Inv, WorkStep, CancelStep, Closer, ColdStep, WarmStep;
    var m := s.main;
    InvMain(c, n, s);
    match m.stage {
      case RoundStart(q) =>
        t := if q >= |c.queries| then
               (if c.dnssec && m.ready != [] && !m.cancelled
                then At(s.(slots := IdlePool(Workers(c.concurrency, |m.ready|))), Dnssec(m.ready))
                else At(s, Finishing(q)))
             else if m.ready == [] then At(s, RoundEnd(q))
             else At(s.(slots := IdlePool(Workers(c.concurrency, |m.ready|)), inRound := 0), RoundLoop(q, 0));
        RoundCloser(c, n, s, t);
      case RoundLoop(q, next) =>
        t := At(s, if next >= |m.ready| || m.cancelled then RoundWait(q, next) else RoundSelect(q, next));
        RoundCloser(c, n, s, t);
      case RoundSelect(q, next) =>
        PoolNotEmpty(c, n, m);
        t := At(Hand(s, 0, m.ready[next], Measure), RoundLoop(q, next + 1));
        assert s.slots[0].Idle?;
        assert RoundStep(c, s, t);
        RoundCloser(c, n, s, t);
      case RoundWait(q, next) =>
        t := RoundClosed(s, q, next);
        RoundCloser(c, n, s, t);
      case RoundEnd(q) =>
        t := At(s, if m.cancelled then Finishing(q) else RoundStart(q + 1));
        RoundCloser(c, n, s, t);
      case Dnssec(queue) =>
        if queue == [] {
          t := At(s.(slots := []), Finishing(|c.queries|));
        } else {
          PoolNotEmpty(c, n, m);
          t := At(Hand(s, 0, queue[0], ProbeStart), Dnssec(queue[1..]));
          assert s.slots[0].Idle?;
        }
        assert LastStep(c, s, t);
        LastCloser(c, n, s, t);
      case Finishing(q) =>
        t := At(s.(runners := if m.cancelled then AbortAll(s.runners, m.ready) else s.runners), Done);
        LastCloser(c, n, s, t);
    }
  }

  /** Until the run is done, somebody can move, with or without a cancellation. */
  lemma NeverStuck(c: Config, n: nat, s: State) returns (t: State)
    requires Inv(c, n, s) && !s.main.stage.Done?
    ensures Step(c, s, t) && Closer(c, n, t, s)
  {
    hide TaskOk, RestOk, Samples, MainOk, Closer;
    if Quiet(s.slots) {
      t := MainMoves(c, n, s);
    } else {
      var w :| 0 <= w < |s.slots| && s.slots[w].Busy?;
      assert HeldOk(c, s.main, s.runners, s.slots[w]);
      t := Worked(c, s, w, true);
      WorkCloser(c, n, s, w, true);
    }
  }

  /** So from any moment of any run there is a way to the end. */
  lemma ReachesDone(c: Config, n: nat, trace: seq<State>) returns (more: seq<State>)
    requires Run(c, n, trace)
    ensures Run(c, n, more) && trace <= more && more[|more| - 1].main.stage.Done?
    decreases Phase(c, trace[|trace| - 1].main.stage), Waiting(n, trace[|trace| - 1].main),
              Pending(trace[|trace| - 1].slots, |trace[|trace| - 1].slots|)
  {
    hide Inv, Step, Init, Phase, Waiting, Pending;
    var s := trace[|trace| - 1];
    if s.main.stage.Done? {
      more := trace;
    } else {
      RunKeeps(c, n, trace, |trace| - 1);
      var t := NeverStuck(c, n, s);
      more := ReachesDone(c, n, trace + [t]);
    }
  }
}
