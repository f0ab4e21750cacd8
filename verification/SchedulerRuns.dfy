/** What every run of the scheduler promises, whatever the interleaving and
    wherever the cancellation lands. */
module SchedulerRuns {
  import opened Orders
  import opened Text
  import opened Report
  import opened Runner
  import opened Scheduler

  // ----- what is reported -----

  datatype Reported = Reported(id: string, runner: Runner)

  /** Every target the group was given, in target-ID order. */
  function Results(targets: seq<string>, s: State): (r: seq<Reported>)
    requires |targets| == |s.runners|
    ensures |r| == |targets|
  {
    var ids := Sort(targets, StringLe);
    seq(|ids|, i requires 0 <= i < |ids| =>
      Reported(ids[i], if i < s.main.dispatched then s.runners[i] else Abort(NEW)))
  }

  predicate Complete(c: Config, r: Runner) {
    !r.incomplete && r.openError == Clean && InQueryOrder(c, r) && |r.observations| == |c.queries|
  }

  predicate FailedToOpen(c: Config, r: Runner) {
    && !r.incomplete && r.openError == OpenFailure && |r.observations| == |c.queries|
    && forall k :: 0 <= k < |c.queries| ==> r.observations[k] == Sample(c.queries[k], false)
  }

  predicate Interrupted(c: Config, r: Runner) {
    r.incomplete && r.openError == Interruption && InQueryOrder(c, r)
  }

  /** A runner is either at rest or in some worker's hands. */
  lemma Accounted(c: Config, n: nat, s: State, i: nat) returns (held: bool, w: nat)
    requires Inv(c, n, s) && i < n
    ensures !held ==> RestOk(c, s.main, i, s.runners[i])
    ensures held ==>
              w < |s.slots| && s.slots[w].Busy? && s.slots[w].runner == i && HeldOk(c, s.main, s.runners, s.slots[w])
  {
    hide RestOk, TaskOk;
    if Free(s.slots, i) {
      held, w := false, 0;
    } else {
      var v :| 0 <= v < |s.slots| && s.slots[v].Busy? && s.slots[v].runner == i;
      held, w := true, v;
    }
  }

  /** Exactly one of the three. */
  predicate ExactlyOne(c: Config, r: Runner) {
    && (Complete(c, r) || FailedToOpen(c, r) || Interrupted(c, r))
    && !(Complete(c, r) && FailedToOpen(c, r))
    && !(Complete(c, r) && Interrupted(c, r))
    && !(FailedToOpen(c, r) && Interrupted(c, r))
  }

  lemma RestReported(c: Config, m: Main, i: nat, r: Runner)
    requires m.stage.Done? && RestOk(c, m, i, r) && (i in m.ready ==> i < m.dispatched)
    ensures var reported := if i < m.dispatched then r else Abort(NEW);
            ExactlyOne(c, reported) && (Interrupted(c, reported) ==> m.cancelled)
  {
  }

  /** When a run ends, each target is reported once, in ID order, and each result
      is exactly one of complete, failed to open, and interrupted; only a cancelled
      run has interrupted ones. */
  lemma EveryTargetReported(c: Config, targets: seq<string>, trace: seq<State>, i: nat)
    requires Run(c, |targets|, trace) && trace[|trace| - 1].main.stage.Done? && i < |targets|
    ensures |trace[|trace| - 1].runners| == |targets|
    ensures var s := trace[|trace| - 1];
            var all := Results(targets, s);
            && Ascending(Ids(all), StringLe) && multiset(Ids(all)) == multiset(targets)
            && ExactlyOne(c, all[i].runner)
            && (Interrupted(c, all[i].runner) ==> s.main.cancelled)
  {
    hide Inv, RestOk, Step, Init, ExactlyOne, Interrupted;
    var s := trace[|trace| - 1];
    RunKeeps(c, |targets|, trace, |trace| - 1);
    InvFacts(c, |targets|, s);
    assert Ids(Results(targets, s)) == Sort(targets, StringLe);
    StringOrder();
    SortAscending(targets, StringLe);
    SortMultiset(targets, StringLe);
    DoneAtRest(c, |targets|, s, i);
    RestReported(c, s.main, i, s.runners[i]);
  }

  function Ids(all: seq<Reported>): (r: seq<string>)
    ensures |r| == |all|
  {
    seq(|all|, i requires 0 <= i < |all| => all[i].id)
  }

  lemma InvFacts(c: Config, n: nat, s: State)
    requires Inv(c, n, s)
    ensures |s.runners| == n && s.main.dispatched <= n
    ensures forall i :: i in s.main.ready ==> 0 <= i < s.main.dispatched
  {
    hide SlotsOk;
  }

  lemma DoneAtRest(c: Config, n: nat, s: State, i: nat)
    requires Inv(c, n, s) && s.main.stage.Done? && i < n
    ensures RestOk(c, s.main, i, s.runners[i])
  {
    hide RestOk;
    var held, w := Accounted(c, n, s, i);
  }

  // ----- results only grow, and finished ones stay -----

  lemma AdvanceGrows(c: Config, m: Main, query: Query, i: nat, t: Task, r: Runner, now: Reading)
    requires TaskOk(c, m, i, t, r)
    ensures r.observations <= Advance(c, query, t, r, now).runner.observations
    ensures r.finished ==> Advance(c, query, t, r, now).runner == r
  {
  }

  /** A step of the main goroutine, or a cancellation: it may abort runners nobody
      holds, and that is all it does to them. */
  lemma MainOnlyAborts(c: Config, s: State, t: State, i: nat)
    requires Step(c, s, t) && !WorkStep(c, s, t) && i < |s.runners|
    ensures |t.runners| == |s.runners|
    ensures t.runners[i] == s.runners[i] ||
            (t.runners[i] == Abort(s.runners[i]) &&
             ((s.main.stage.ColdWait? && !s.runners[i].finished) ||
              (s.main.stage.RoundWait? && Quiet(s.slots) && i in s.main.ready) ||
              (s.main.stage.Finishing? && i in s.main.ready)))
  {
    hide ReadyList, Abort, Workers;
    if s.main.stage.RoundWait? && s.main.stage.next <= |s.main.ready| {
      assert s.main.ready == s.main.ready[..s.main.stage.next] + s.main.ready[s.main.stage.next..];
    }
  }

  /** No step drops or rewrites a sample, and a finished target is left as it is,
      even by a cancellation. */
  lemma StepGrows(c: Config, n: nat, s: State, t: State, i: nat)
    requires Inv(c, n, s) && Step(c, s, t) && i < n
    ensures |t.runners| == n
    ensures s.runners[i].observations <= t.runners[i].observations
    ensures s.runners[i].finished ==> t.runners[i] == s.runners[i]
  {
    hide TaskOk, RestOk, Advance, Samples, Step;
    if WorkStep(c, s, t) {
      var w, ok :| 0 <= w < |s.slots| && s.slots[w].Busy? && s.slots[w].runner < |s.runners| &&
                   t == Worked(c, s, w, ok);
      var slot := s.slots[w];
      assert HeldOk(c, s.main, s.runners, slot);
      AdvanceGrows(c, s.main, RoundQuery(c, s.main.stage), slot.runner, slot.task, s.runners[slot.runner],
                   Reading(s.main.cancelled, ok));
    } else {
      MainOnlyAborts(c, s, t, i);
      if s.runners[i].finished { FinishedIsFinal(c, n, s, i); }
    }
  }

  /** When the main goroutine aborts a finished target, it was aborted already. */
  lemma FinishedIsFinal(c: Config, n: nat, s: State, i: nat)
    requires Inv(c, n, s) && i < n && s.runners[i].finished
    ensures ((s.main.stage.RoundWait? && Quiet(s.slots)) || s.main.stage.Finishing?) && i in s.main.ready ==>
              Abort(s.runners[i]) == s.runners[i]
  {
    hide Samples;
    if s.main.stage.Finishing? { NobodyBusy(c, s.main, s.runners, s.slots); }
    if Quiet(s.slots) { QuietRest(c, s.main, s.runners, s.slots, i); }
  }

  /** So a target that failed to open, or was aborted, is never touched again. */
  lemma {:induction false} SamplesKept(c: Config, n: nat, trace: seq<State>, j: nat, k: nat, i: nat)
    requires Run(c, n, trace) && j <= k < |trace| && i < n
    ensures |trace[j].runners| == |trace[k].runners| == n
    ensures trace[j].runners[i].observations <= trace[k].runners[i].observations
    ensures trace[j].runners[i].finished ==> trace[k].runners[i] == trace[j].runners[i]
  {
    hide Inv, Step, Init;
    RunKeeps(c, n, trace, j);
    InvFacts(c, n, trace[j]);
    if j < k {
      SamplesKept(c, n, trace, j, k - 1, i);
      RunKeeps(c, n, trace, k - 1);
      StepGrows(c, n, trace[k - 1], trace[k], i);
    }
  }

  // ----- safety at every moment of a run -----

  predicate ColdWork(t: Task) {
    t.Create? || t.ColdCheck? || t.ColdOpen? || t.ColdAsk?
  }

  predicate WarmWork(t: Task) {
    t.WarmStart? || t.WarmOpen? || t.WarmCheck? || t.WarmAsk?
  }

  /** No warm session is being prepared while any cold phase is unfinished: every
      target has been dispatched and no worker is still on a cold task. */
  lemma NoWarmBeforeColdIsOver(c: Config, n: nat, trace: seq<State>, k: nat, w: nat, v: nat)
    requires Run(c, n, trace) && k < |trace| && w < |trace[k].slots| && v < |trace[k].slots|
    requires trace[k].slots[w].Busy? && WarmWork(trace[k].slots[w].task)
    ensures trace[k].main.dispatched == n
    ensures trace[k].slots[v].Busy? ==> !ColdWork(trace[k].slots[v].task)
  {
    hide Step, Init, Samples, RestOk;
    RunKeeps(c, n, trace, k);
    assert HeldOk(c, trace[k].main, trace[k].runners, trace[k].slots[w]);
    assert HeldOk(c, trace[k].main, trace[k].runners, trace[k].slots[v]);
  }

  /** The runners the first k workers hold. */
  function HeldBy(slots: seq<Slot>, k: nat): (held: set<nat>)
    requires k <= |slots|
    ensures |held| <= k
  {
    if k == 0 then {}
    else HeldBy(slots, k - 1) + if slots[k - 1].Busy? then {slots[k - 1].runner} else {}
  }

  lemma {:induction false} HeldByElements(slots: seq<Slot>, k: nat, i: nat)
    requires k <= |slots|
    ensures i in HeldBy(slots, k) <==> exists w :: 0 <= w < k && slots[w].Busy? && slots[w].runner == i
  {
    if k > 0 { HeldByElements(slots, k - 1, i); }
  }

  /** At most Concurrency runners are in flight, and never more than there are. */
  lemma InFlightBounded(c: Config, n: nat, trace: seq<State>, k: nat)
    requires Run(c, n, trace) && k < |trace|
    ensures var slots := trace[k].slots;
            && (forall i: nat :: i in HeldBy(slots, |slots|) <==> !Free(slots, i))
            && |HeldBy(slots, |slots|)| <= (if c.concurrency <= 0 then 1 else c.concurrency)
            && |HeldBy(slots, |slots|)| <= n
  {
    hide Step, Init, Samples, SlotsOk;
    RunKeeps(c, n, trace, k);
    var slots := trace[k].slots;
    forall i: nat ensures i in HeldBy(slots, |slots|) <==> !Free(slots, i) {
      HeldByElements(slots, |slots|, i);
    }
    ReadyFits(trace[k].main.ready, n);
  }

  function Fewer(a: int, b: int): int {
    if a < b then a else b
  }

  /** The pools are as large as they may be: while targets are prepared there is a worker
      for each of them, up to Concurrency but at least one; in a round and while probing
      there is one for each ready target, up to the same limit. */
  lemma PoolIsFull(c: Config, n: nat, trace: seq<State>, k: nat)
    requires Run(c, n, trace) && k < |trace|
    ensures var m, limit := trace[k].main, if c.concurrency < 1 then 1 else c.concurrency;
            && (Preparing(m.stage) ==> |trace[k].slots| == Fewer(limit, n))
            && (m.stage.RoundLoop? || m.stage.RoundSelect? || m.stage.RoundWait? || m.stage.Dnssec? ==>
                  |trace[k].slots| == Fewer(limit, |m.ready|))
  {
    hide Step, Init, Samples, SlotsOk;
    RunKeeps(c, n, trace, k);
  }

  lemma ReadyFits(ready: seq<nat>, n: nat)
    requires Distinct(ready) && forall k :: 0 <= k < |ready| ==> ready[k] < n
    ensures |ready| <= n
  {
    if ready == [] {
      return;
    }
    assert ready[0] < n;
    if n - 1 in ready {
      var j := Find(ready, n - 1);
      var rest := ready[..j] + ready[j + 1..];
      ReadyFits(rest, n - 1);
    } else {
      forall k | 0 <= k < |ready| ensures ready[k] < n - 1 {
        assert ready[k] in ready;
      }
      ReadyFits(ready, n - 1);
    }
  }

  /** No runner is held by two workers. */
  lemma OneHolder(c: Config, n: nat, trace: seq<State>, k: nat, w: nat, v: nat)
    requires Run(c, n, trace) && k < |trace| && w < |trace[k].slots| && v < |trace[k].slots|
    requires trace[k].slots[w].Busy? && trace[k].slots[v].Busy? && trace[k].slots[w].runner == trace[k].slots[v].runner
    ensures w == v
  {
    hide Step, Init, Samples, RestOk, TaskOk;
    RunKeeps(c, n, trace, k);
  }

  /** How many samples every ready runner has at least. */
  function Floor(c: Config, m: Main): nat {
    match m.stage
    case RoundStart(q) => q
    case RoundLoop(q, _) => q
    case RoundSelect(q, _) => q
    case RoundWait(q, _) => q
    case RoundEnd(q) => q
    case Dnssec(_) => |c.queries|
    case Finishing(q) => q
    case Done => |c.queries|
    case _ => 0
  }

  lemma ReadySamples(c: Config, n: nat, s: State, i: nat)
    requires Inv(c, n, s) && i < n && s.runners[i].ready
    ensures Floor(c, s.main) <= |s.runners[i].observations| <= Floor(c, s.main) + 1
  {
    hide Samples, InQueryOrder;
    var held, w := Accounted(c, n, s, i);
  }

  /** Two ready runners never differ by more than one sample. */
  lemma RoundsAreFair(c: Config, n: nat, trace: seq<State>, k: nat, i: nat, j: nat)
    requires Run(c, n, trace) && k < |trace| && i < n && j < n
    requires |trace[k].runners| == n && trace[k].runners[i].ready && trace[k].runners[j].ready
    ensures |trace[k].runners[i].observations| <= |trace[k].runners[j].observations| + 1
  {
    hide Step, Init, Inv;
    RunKeeps(c, n, trace, k);
    ReadySamples(c, n, trace[k], i);
    ReadySamples(c, n, trace[k], j);
  }

  /** Outside a round completedExchanges is the number of samples the ready list
      has; inside one, the shared counter makes up the difference. */
  lemma ExchangesCounted(c: Config, n: nat, trace: seq<State>, k: nat)
    requires Run(c, n, trace) && k < |trace|
    ensures var s := trace[k];
            && s.total + s.inRound == Samples(s.runners, s.main.ready, |s.main.ready|)
            && (!s.main.stage.RoundLoop? && !s.main.stage.RoundSelect? && !s.main.stage.RoundWait? ==>
                  s.total == Samples(s.runners, s.main.ready, |s.main.ready|))
  {
    hide Step, Init, Samples, SlotsOk;
    RunKeeps(c, n, trace, k);
  }

  // ----- DNSSEC -----

  predicate ProbeWork(t: Task) {
    t.ProbeStart? || t.ProbeSigned? || t.ProbeBogus?
  }

  /** A worker probes only once every round is over: each ready runner has all its
      samples, and nobody is measuring. */
  lemma ProbesComeLast(c: Config, n: nat, trace: seq<State>, k: nat, w: nat, i: nat)
    requires Run(c, n, trace) && k < |trace| && w < |trace[k].slots|
    requires trace[k].slots[w].Busy? && ProbeWork(trace[k].slots[w].task)
    ensures |trace[k].runners| == n
    ensures i in trace[k].main.ready ==> i < n && |trace[k].runners[i].observations| == |c.queries|
    ensures forall v :: 0 <= v < |trace[k].slots| && trace[k].slots[v].Busy? ==> ProbeWork(trace[k].slots[v].task)
  {
    hide Step, Init, Samples;
    RunKeeps(c, n, trace, k);
    var s := trace[k];
    assert HeldOk(c, s.main, s.runners, s.slots[w]);
    assert s.main.stage.Dnssec?;
    forall v | 0 <= v < |s.slots| && s.slots[v].Busy? ensures ProbeWork(s.slots[v].task) {
      assert HeldOk(c, s.main, s.runners, s.slots[v]);
    }
    if i in s.main.ready {
      var held, v := Accounted(c, n, s, i);
    }
  }

  lemma AdvanceProbes(c: Config, m: Main, query: Query, i: nat, t: Task, r: Runner, now: Reading)
    requires TaskOk(c, m, i, t, r)
    ensures var after := Advance(c, query, t, r, now).runner;
            && (m.stage.Dnssec? ==> after.observations == r.observations)
            && (after.verdict && !r.verdict ==> m.stage.Dnssec? && !now.cancelled && |r.observations| == |c.queries|)
  {
  }

  /** While the probes run, no step changes a sample. A target only gets a verdict
      while they run, when the run is not cancelled and all its queries were asked. */
  lemma ProbesChangeNoSample(c: Config, n: nat, s: State, t: State, i: nat)
    requires Inv(c, n, s) && Step(c, s, t) && i < n
    ensures |t.runners| == n
    ensures s.main.stage.Dnssec? ==> t.runners[i].observations == s.runners[i].observations
    ensures t.runners[i].verdict && !s.runners[i].verdict ==>
              s.main.stage.Dnssec? && !s.main.cancelled && |s.runners[i].observations| == |c.queries|
  {
    hide TaskOk, RestOk, Advance, Samples, Step;
    if WorkStep(c, s, t) {
      var w, ok :| 0 <= w < |s.slots| && s.slots[w].Busy? && s.slots[w].runner < |s.runners| &&
                   t == Worked(c, s, w, ok);
      var slot := s.slots[w];
      assert HeldOk(c, s.main, s.runners, slot);
      AdvanceProbes(c, s.main, RoundQuery(c, s.main.stage), slot.runner, slot.task, s.runners[slot.runner],
                    Reading(s.main.cancelled, ok));
    } else {
      MainOnlyAborts(c, s, t, i);
    }
  }

  // ----- after a cancellation -----

  predicate OnTheNetwork(t: Task) {
    t.ColdOpen? || t.ColdAsk? || t.WarmOpen? || t.WarmAsk? || t.Asking? || t.ProbeSigned? || t.ProbeBogus?
  }

  /** Worker w is on the network after the step, in a call it was not in before. */
  predicate StartsCall(s: State, t: State, w: nat) {
    && w < |t.slots| && t.slots[w].Busy? && OnTheNetwork(t.slots[w].task)
    && !(w < |s.slots| && s.slots[w] == t.slots[w])
  }

  /** The step is worker w going on where the code does not look at the cancellation:
      its cold session has just opened, or it has just taken a warm job. */
  predicate GoesOn(c: Config, s: State, t: State, w: nat) {
    && w < |s.slots| && s.slots[w].Busy? && s.slots[w].runner < |s.runners|
    && (s.slots[w].task.ColdOpen? || (s.slots[w].task.WarmStart? && !s.runners[s.slots[w].runner].finished))
    && t == Worked(c, s, w, true)
  }

  lemma AdvanceAfterCancel(c: Config, query: Query, t: Task, r: Runner, ok: bool)
    ensures var next := Advance(c, query, t, r, Reading(true, ok)).next;
            next.Go? && OnTheNetwork(next.task) <==> (t.ColdOpen? && ok) || (t.WarmStart? && !r.finished)
    ensures t.WarmStart? ==> Advance(c, query, t, r, Reading(true, ok)) == Advance(c, query, t, r, Reading(true, true))
    ensures var next := Advance(c, query, t, r, Reading(true, ok)).next; next.Go? ==> next.task != t
  {
  }

  /** The main goroutine only ever hands work out or replaces an idle pool. */
  lemma MainStartsNoCall(c: Config, s: State, t: State, w: nat)
    requires Step(c, s, t) && !WorkStep(c, s, t)
    ensures !StartsCall(s, t, w)
  {
    hide ReadyList, Workers, AbortAll, AbortUnfinished, WorkStep;
    assert ColdStep(c, s, t) || WarmStep(c, s, t) || RoundStep(c, s, t) || LastStep(c, s, t) || CancelStep(s, t);
    if RoundStep(c, s, t) {
      hide ColdStep, WarmStep, LastStep;
    } else {
      hide RoundStep;
    }
  }

  predicate Preparing(stage: Stage) {
    stage.ColdLoop? || stage.ColdSelect? || stage.ColdWait? || stage.Warm?
  }

  /** A worker only goes on while sessions are prepared, for a target without samples. */
  lemma GoesOnEarly(c: Config, n: nat, s: State, t: State, w: nat)
    requires Inv(c, n, s) && GoesOn(c, s, t, w)
    ensures Preparing(s.main.stage) && s.runners[s.slots[w].runner].observations == []
  {
    hide RestOk, Samples;
    assert HeldOk(c, s.main, s.runners, s.slots[w]);
  }

  lemma WorkAfterCancel(c: Config, s: State, v: nat, ok: bool, w: nat)
    requires v < |s.slots| && s.slots[v].Busy? && s.slots[v].runner < |s.runners| && s.main.cancelled
    ensures StartsCall(s, Worked(c, s, v, ok), w) <==> GoesOn(c, s, Worked(c, s, v, ok), w)
  {
    hide Advance;
    var i, t := s.slots[v].runner, Worked(c, s, v, ok);
    AdvanceAfterCancel(c, RoundQuery(c, s.main.stage), s.slots[v].task, s.runners[i], ok);
    AdvanceAfterCancel(c, RoundQuery(c, s.main.stage), s.slots[v].task, s.runners[i], true);
    if GoesOn(c, s, t, w) {
      AdvanceAfterCancel(c, RoundQuery(c, s.main.stage), s.slots[w].task, s.runners[s.slots[w].runner], true);
    }
  }

  lemma StepStartsCall(c: Config, s: State, t: State, w: nat)
    requires Step(c, s, t) && s.main.cancelled
    ensures StartsCall(s, t, w) <==> GoesOn(c, s, t, w)
  {
    hide Advance, Step;
    if WorkStep(c, s, t) {
      var v, ok :| 0 <= v < |s.slots| && s.slots[v].Busy? && s.slots[v].runner < |s.runners| &&
                   t == Worked(c, s, v, ok);
      WorkAfterCancel(c, s, v, ok, w);
    } else {
      MainStartsNoCall(c, s, t, w);
    }
  }

  /** In every run, once it is cancelled, a step starts a network call exactly when
      it is a worker going on in one of those two places. No dispatch, no round, no
      warm-up query and no probe starts one; and none starts once the sessions are
      prepared, or for a target that has a sample. */
  lemma CallsAfterCancel(c: Config, n: nat, trace: seq<State>, k: nat, w: nat)
    requires Run(c, n, trace) && k + 1 < |trace| && trace[k].main.cancelled
    ensures StartsCall(trace[k], trace[k + 1], w) <==> GoesOn(c, trace[k], trace[k + 1], w)
    ensures StartsCall(trace[k], trace[k + 1], w) ==>
              Preparing(trace[k].main.stage) && trace[k].runners[trace[k].slots[w].runner].observations == []
  {
    hide Advance, Step;
    StepStartsCall(c, trace[k], trace[k + 1], w);
    if GoesOn(c, trace[k], trace[k + 1], w) {
      RunKeeps(c, n, trace, k);
      GoesOnEarly(c, n, trace[k], trace[k + 1], w);
    }
  }

  // ----- at most one such call each -----

  predicate LastCall(t: Task) {
    t.ColdAsk? || t.WarmOpen? || t.WarmCheck?
  }

  predicate HeldFor(slots: seq<Slot>, w: nat, i: nat) {
    w < |slots| && slots[w].Busy? && slots[w].runner == i && LastCall(slots[w].task)
  }

  /** The target is finished, or in its last call. */
  predicate Spent(s: State, i: nat) {
    i < |s.runners| && (s.runners[i].finished || exists w: nat :: w < |s.slots| && HeldFor(s.slots, w, i))
  }

  /** The main goroutine takes nothing out of a worker's hands. */
  lemma MainKeepsBusy(c: Config, n: nat, s: State, t: State, w: nat)
    requires Inv(c, n, s) && Step(c, s, t) && !WorkStep(c, s, t) && w < |s.slots| && s.slots[w].Busy?
    ensures w < |t.slots| && t.slots[w] == s.slots[w]
  {
    hide ReadyList, Workers, AbortAll, AbortUnfinished, RestOk, Samples, WorkStep;
    assert HeldOk(c, s.main, s.runners, s.slots[w]);
  }

  lemma LastAdvance(c: Config, m: Main, query: Query, i: nat, t: Task, r: Runner, ok: bool)
    requires TaskOk(c, m, i, t, r) && m.cancelled && (LastCall(t) || r.finished)
    ensures var move := Advance(c, query, t, r, Reading(true, ok));
            move.runner.finished || (move.next.Go? && LastCall(move.next.task))
  {
  }

  lemma SpentStays(c: Config, n: nat, s: State, t: State, i: nat)
    requires Inv(c, n, s) && Step(c, s, t) && s.main.cancelled && Spent(s, i)
    ensures Spent(t, i)
  {
    hide TaskOk, RestOk, Advance, Samples, Step, LastCall;
    if WorkStep(c, s, t) {
      var v, ok :| 0 <= v < |s.slots| && s.slots[v].Busy? && s.slots[v].runner < |s.runners| &&
                   t == Worked(c, s, v, ok);
      assert HeldOk(c, s.main, s.runners, s.slots[v]);
      if s.slots[v].runner == i {
        LastAdvance(c, s.main, RoundQuery(c, s.main.stage), i, s.slots[v].task, s.runners[i], ok);
        assert t.runners[i].finished || HeldFor(t.slots, v, i);
      } else if !s.runners[i].finished {
        var w: nat :| w < |s.slots| && HeldFor(s.slots, w, i);
        assert HeldFor(t.slots, w, i);
      }
    } else {
      MainOnlyAborts(c, s, t, i);
      if !s.runners[i].finished {
        var w: nat :| w < |s.slots| && HeldFor(s.slots, w, i);
        MainKeepsBusy(c, n, s, t, w);
        assert HeldFor(t.slots, w, i);
      }
    }
  }

  lemma StepStaysCancelled(c: Config, s: State, t: State)
    requires Step(c, s, t) && s.main.cancelled
    ensures t.main.cancelled
  {
    hide ReadyList, Workers, AbortAll, AbortUnfinished, Advance;
  }

  lemma {:induction false} SpentForGood(c: Config, n: nat, trace: seq<State>, j: nat, k: nat, i: nat)
    requires Run(c, n, trace) && j <= k < |trace| && trace[j].main.cancelled && Spent(trace[j], i)
    ensures trace[k].main.cancelled && Spent(trace[k], i)
  {
    hide Inv, Step, Init, Spent;
    if j < k {
      SpentForGood(c, n, trace, j, k - 1, i);
      RunKeeps(c, n, trace, k - 1);
      StepStaysCancelled(c, trace[k - 1], trace[k]);
      SpentStays(c, n, trace[k - 1], trace[k], i);
    }
  }

  lemma GoneOn(c: Config, n: nat, s: State, t: State, w: nat)
    requires Inv(c, n, s) && GoesOn(c, s, t, w) && s.main.cancelled
    ensures Spent(t, s.slots[w].runner) && !Spent(s, s.slots[w].runner)
  {
    hide RestOk, Samples;
    assert HeldOk(c, s.main, s.runners, s.slots[w]);
    assert HeldFor(t.slots, w, s.slots[w].runner);
  }

  /** After a cancellation every target starts at most one more network call. */
  lemma OneCallEach(c: Config, n: nat, trace: seq<State>, j: nat, k: nat, w: nat, v: nat)
    requires Run(c, n, trace) && j < k && k + 1 < |trace| && trace[j].main.cancelled
    requires StartsCall(trace[j], trace[j + 1], w) && StartsCall(trace[k], trace[k + 1], v)
    ensures w < |trace[j].slots| && trace[j].slots[w].Busy? && v < |trace[k].slots| && trace[k].slots[v].Busy?
    ensures trace[j].slots[w].runner != trace[k].slots[v].runner
  {
    hide Inv, Init, Step, Spent, Worked;
    CallsAfterCancel(c, n, trace, j, w);
    RunKeeps(c, n, trace, j);
    GoneOn(c, n, trace[j], trace[j + 1], w);
    StepStaysCancelled(c, trace[j], trace[j + 1]);
    SpentForGood(c, n, trace, j + 1, k, trace[j].slots[w].runner);
    CallsAfterCancel(c, n, trace, k, v);
    RunKeeps(c, n, trace, k);
    GoneOn(c, n, trace[k], trace[k + 1], v);
  }

  // ----- both places are reached -----

  /** A run over one target, with its only worker. */
  function OneTarget(stage: Stage, cancelled: bool, dispatched: nat, r: Runner, slot: Slot): State {
    State(Main(stage, cancelled, dispatched, []), [r], [slot], 0, 0)
  }

  /** The run goes on with one more step. */
  ghost predicate EndsAt(c: Config, trace: seq<State>, s: State) {
    Run(c, 1, trace) && trace[|trace| - 1] == s
  }

  lemma GoOn(c: Config, trace: seq<State>, s: State, t: State) returns (longer: seq<State>)
    requires EndsAt(c, trace, s) && Step(c, s, t)
    ensures EndsAt(c, longer, t) && longer == trace + [t]
  {
    hide Step, Init;
    longer := trace + [t];
  }

  /** The worker takes a step on the target that counts no sample. */
  lemma WorkOn(c: Config, trace: seq<State>, s: State, ok: bool, t: State) returns (longer: seq<State>)
    requires EndsAt(c, trace, s) && |s.slots| == |s.runners| == 1 && s.slots[0].Busy? && s.slots[0].runner == 0
    requires t == Worked(c, s, 0, ok)
    ensures EndsAt(c, longer, t) && longer == trace + [t]
  {
    hide Worked, Init;
    assert WorkStep(c, s, t);
    longer := GoOn(c, trace, s, t);
  }

  lemma CancelLands(c: Config, s: State)
    ensures Step(c, s, s.(main := s.main.(cancelled := true)))
  {
  }

  /** The target after so many cold probes that could not open a session. */
  function Tried(probes: nat): Runner {
    NEW.(cold := seq(probes, _ => false))
  }

  function Opening(probe: nat, cancelled: bool): State {
    OneTarget(ColdLoop, cancelled, 1, Tried(probe), Busy(0, ColdOpen(probe)))
  }

  /** The target is in the hands of the worker, before its first cold probe. */
  lemma ReachesColdCheck(c: Config) returns (trace: seq<State>)
    ensures EndsAt(c, trace, OneTarget(ColdLoop, false, 1, Tried(0), Busy(0, ColdCheck(0))))
  {
    hide Run;
    var start := OneTarget(ColdLoop, false, 0, NEW, Idle);
    var offered := OneTarget(ColdSelect, false, 0, NEW, Idle);
    var handed := OneTarget(ColdLoop, false, 1, NEW, Busy(0, Create));
    assert Init(c, 1) == start && handed == ColdSent(offered, 0) && Tried(0) == NEW;
    RunStarts(c);
    trace := GoOn(c, [start], start, offered);
    trace := GoOn(c, trace, offered, handed);
    trace := WorkOn(c, trace, handed, true, OneTarget(ColdLoop, false, 1, Tried(0), Busy(0, ColdCheck(0))));
  }

  lemma RunStarts(c: Config)
    ensures EndsAt(c, [Init(c, 1)], Init(c, 1))
  {
  }

  /** The worker is about to open a cold session, for the first probe or a later one. */
  lemma {:induction false} ReachesColdOpen(c: Config, probe: nat) returns (trace: seq<State>)
    requires probe < PROBES
    ensures EndsAt(c, trace, Opening(probe, false))
  {
    hide Run, Init, Step;
    var checking := OneTarget(ColdLoop, false, 1, Tried(probe), Busy(0, ColdCheck(probe)));
    if probe == 0 {
      trace := ReachesColdCheck(c);
    } else {
      trace := ReachesColdOpen(c, probe - 1);
      assert Tried(probe).cold == Tried(probe - 1).cold + [false];
      trace := WorkOn(c, trace, Opening(probe - 1, false), false, checking);
    }
    trace := WorkOn(c, trace, checking, true, Opening(probe, false));
  }

  /** The cancellation lands while a cold session is opening: the open succeeds, and
      the worker sends its query all the same. */
  lemma ColdQueryAfterCancel(c: Config) returns (trace: seq<State>, k: nat)
    ensures Run(c, 1, trace) && |trace| == k + 2 && trace[k].main.cancelled
    ensures |trace[k].slots| == 1 && trace[k].slots[0] == Busy(0, ColdOpen(0))
    ensures StartsCall(trace[k], trace[k + 1], 0)
  {
    hide Run, Init, Step;
    trace := ReachesColdOpen(c, 0);
    CancelLands(c, Opening(0, false));
    trace := GoOn(c, trace, Opening(0, false), Opening(0, true));
    trace := WorkOn(c, trace, Opening(0, true), true, OneTarget(ColdLoop, true, 1, Tried(0), Busy(0, ColdAsk(0))));
    k := |trace| - 2;
  }

  /** The cold phase is over and the target's warm job is queued. */
  lemma ReachesWarmQueue(c: Config) returns (trace: seq<State>)
    ensures EndsAt(c, trace, OneTarget(Warm([0]), false, 1, Tried(PROBES), Idle))
  {
    hide Run, Init;
    trace := ReachesColdOpen(c, PROBES - 1);
    var rested := OneTarget(ColdLoop, false, 1, Tried(PROBES), Idle);
    var waiting := OneTarget(ColdWait, false, 1, Tried(PROBES), Idle);
    assert Tried(PROBES).cold == Tried(PROBES - 1).cold + [false];
    trace := WorkOn(c, trace, Opening(PROBES - 1, false), false, rested);
    trace := GoOn(c, trace, rested, waiting);
    assert Identity(1) == [0] && IdlePool(1) == [Idle];
    trace := GoOn(c, trace, waiting, OneTarget(Warm([0]), false, 1, Tried(PROBES), Idle));
  }

  lemma TakesWarmJob(c: Config, r: Runner)
    ensures Step(c, OneTarget(Warm([0]), true, 1, r, Idle), OneTarget(Warm([]), true, 1, r, Busy(0, WarmStart)))
  {
    var s := OneTarget(Warm([0]), true, 1, r, Idle);
    var queue: seq<nat> := s.main.stage.queue;
    assert queue[1..] == [];
    assert OneTarget(Warm([]), true, 1, r, Busy(0, WarmStart)) == At(Hand(s, 0, queue[0], WarmStart), Warm(queue[1..]));
  }

  /** The cancellation lands while warm jobs are queued: a worker still takes one and
      opens its warm session. */
  lemma WarmOpenAfterCancel(c: Config) returns (trace: seq<State>, k: nat)
    ensures Run(c, 1, trace) && k > 0 && |trace| == k + 2 && trace[k - 1].main.cancelled && trace[k].main.cancelled
    ensures trace[k - 1].main.stage == Warm([0]) && trace[k - 1].slots == [Idle]
    ensures |trace[k].slots| == 1 && trace[k].slots[0] == Busy(0, WarmStart)
    ensures StartsCall(trace[k], trace[k + 1], 0)
  {
    hide Init, Step;
    trace := ReachesWarmQueue(c);
    var r := Tried(PROBES);
    var queued, cancelled := OneTarget(Warm([0]), false, 1, r, Idle), OneTarget(Warm([0]), true, 1, r, Idle);
    var taken := OneTarget(Warm([]), true, 1, r, Busy(0, WarmStart));
    CancelLands(c, queued);
    TakesWarmJob(c, r);
    trace := GoOn(c, trace, queued, cancelled);
    trace := GoOn(c, trace, cancelled, taken);
    trace := WorkOn(c, trace, taken, true, OneTarget(Warm([]), true, 1, r, Busy(0, WarmOpen)));
    k := |trace| - 2;
  }
}
