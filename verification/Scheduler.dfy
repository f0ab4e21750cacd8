/** The fair scheduler of one protocol group: the main goroutine, its pools of
    workers, and a cancellation that may land between any two steps. */
module Scheduler {
  import opened Orders
  import opened Text
  import opened Report
  import opened Runner

  datatype Slot = Idle | Busy(runner: nat, task: Task)

  /** Where the main goroutine stands. A -Loop stage is about to look at the
      cancellation, a -Select stage offers work to a worker or the cancellation,
      and a -Wait stage has closed the jobs and waits for the workers. */
  datatype Stage =
    | ColdLoop
    | ColdSelect
    | ColdWait
    | Warm(queue: seq<nat>)
    | Prepared
    | RoundStart(q: nat)
    | RoundLoop(q: nat, next: nat)
    | RoundSelect(q: nat, next: nat)
    | RoundWait(q: nat, next: nat)
    | RoundEnd(q: nat)
    | Dnssec(queue: seq<nat>)
    | Finishing(q: nat)
    | Done

  /** dispatched counts the targets handed to a cold worker; ready lists the
      runners that take part in the rounds, in target-ID order. */
  datatype Main = Main(stage: Stage, cancelled: bool, dispatched: nat, ready: seq<nat>)

  /** inRound is the counter the workers of one round share; total is
      completedExchanges. */
  datatype State = State(main: Main, runners: seq<Runner>, slots: seq<Slot>, inRound: nat, total: nat)

  // ----- the step relation -----

  function Workers(concurrency: int, jobs: nat): nat {
    var limit := if concurrency <= 0 then 1 else concurrency;
    if limit > jobs then jobs else limit
  }

  function IdlePool(workers: nat): (s: seq<Slot>)
    ensures |s| == workers && forall w :: 0 <= w < workers ==> s[w] == Idle
  {
    seq(workers, w requires 0 <= w < workers => Idle)
  }

  predicate Quiet(slots: seq<Slot>) {
    forall w :: 0 <= w < |slots| ==> slots[w].Idle?
  }

  /** The indexes, among the first k runners, of the ready ones. */
  function ReadyList(runners: seq<Runner>, k: nat): seq<nat>
    requires k <= |runners|
  {
    if k == 0 then []
    else if runners[k - 1].ready then ReadyList(runners, k - 1) + [k - 1]
    else ReadyList(runners, k - 1)
  }

  /** Aborts the listed runners. */
  function AbortAll(runners: seq<Runner>, which: seq<nat>): (r: seq<Runner>)
    ensures |r| == |runners|
  {
    seq(|runners|, i requires 0 <= i < |runners| => if i in which then Abort(runners[i]) else runners[i])
  }

  /** Aborts the dispatched runners that are not finished. */
  function AbortUnfinished(runners: seq<Runner>, dispatched: nat): (r: seq<Runner>)
    ensures |r| == |runners|
  {
    seq(|runners|, i requires 0 <= i < |runners| =>
      if i < dispatched && !runners[i].finished then Abort(runners[i]) else runners[i])
  }

  function At(s: State, stage: Stage): State {
    s.(main := s.main.(stage := stage))
  }

  /** Back from prepareTargets: the scheduler lists the ready runners. */
  function Collected(s: State): State {
    s.(main := s.main.(stage := Prepared, ready := ReadyList(s.runners, |s.runners|)), slots := [])
  }

  function Hand(s: State, w: nat, runner: nat, task: Task): State
    requires w < |s.slots|
  {
    s.(slots := s.slots[w := Busy(runner, task)])
  }

  function Init(c: Config, n: nat): State {
    State(Main(ColdLoop, false, 0, []), seq(n, i requires 0 <= i < n => NEW), IdlePool(Workers(c.concurrency, n)), 0, 0)
  }

  predicate ColdStep(c: Config, s: State, t: State) {
    var m := s.main;
    match m.stage
    case ColdLoop => t == At(s, if m.dispatched == |s.runners| || m.cancelled then ColdWait else ColdSelect)
    case ColdSelect =>
      || (m.cancelled && t == At(s, ColdWait))
      || exists w :: 0 <= w < |s.slots| && s.slots[w].Idle? && t == ColdSent(s, w)
    case ColdWait =>
      Quiet(s.slots) &&
      t == if m.cancelled then Collected(s.(runners := AbortUnfinished(s.runners, m.dispatched)))
           else At(s.(slots := IdlePool(Workers(c.concurrency, |s.runners|))), Warm(Identity(|s.runners|)))
    case _ => false
  }

  function ColdSent(s: State, w: nat): State
    requires w < |s.slots|
  {
    var t := Hand(s, w, s.main.dispatched, Create);
    t.(main := s.main.(stage := ColdLoop, dispatched := s.main.dispatched + 1))
  }

  predicate WarmStep(c: Config, s: State, t: State) {
    var m := s.main;
    match m.stage
    case Warm(queue) =>
      if queue == [] then Quiet(s.slots) && t == Collected(s)
      else
        exists w :: 0 <= w < |s.slots| && s.slots[w].Idle? &&
                    t == At(Hand(s, w, queue[0], WarmStart), Warm(queue[1..]))
    case Prepared => t == At(s, if m.cancelled then Finishing(0) else RoundStart(0))
    case _ => false
  }

  predicate RoundStep(c: Config, s: State, t: State) {
    var m := s.main;
    match m.stage
    case RoundStart(q) =>
      if q >= |c.queries| then
        t == if c.dnssec && m.ready != [] && !m.cancelled
             then At(s.(slots := IdlePool(Workers(c.concurrency, |m.ready|))), Dnssec(m.ready))
             else At(s, Finishing(q))
      else if m.ready == [] then t == At(s, RoundEnd(q))
      else t == At(s.(slots := IdlePool(Workers(c.concurrency, |m.ready|)), inRound := 0), RoundLoop(q, 0))
    case RoundLoop(q, next) =>
      t == At(s, if next >= |m.ready| || m.cancelled then RoundWait(q, next) else RoundSelect(q, next))
    case RoundSelect(q, next) =>
      || (m.cancelled && t == At(s, RoundWait(q, next)))
      || (next < |m.ready| &&
          exists w :: 0 <= w < |s.slots| && s.slots[w].Idle? &&
                      t == At(Hand(s, w, m.ready[next], Measure), RoundLoop(q, next + 1)))
    case RoundWait(q, next) =>
      next <= |m.ready| && Quiet(s.slots) && t == RoundClosed(s, q, next)
    case RoundEnd(q) => t == At(s, if m.cancelled then Finishing(q) else RoundStart(q + 1))
    case _ => false
  }

  /** The round's workers are gone: abort who was never dispatched, return the count. */
  function RoundClosed(s: State, q: nat, next: nat): State
    requires next <= |s.main.ready|
  {
    var runners := if s.main.cancelled then AbortAll(s.runners, s.main.ready[next..]) else s.runners;
    At(s.(runners := runners, slots := [], total := s.total + s.inRound, inRound := 0), RoundEnd(q))
  }

  predicate LastStep(c: Config, s: State, t: State) {
    var m := s.main;
    match m.stage
    case Dnssec(queue) =>
      if queue == [] then Quiet(s.slots) && t == At(s.(slots := []), Finishing(|c.queries|))
      else
        exists w :: 0 <= w < |s.slots| && s.slots[w].Idle? &&
                    t == At(Hand(s, w, queue[0], ProbeStart), Dnssec(queue[1..]))
    case Finishing(q) =>
      t == At(s.(runners := if m.cancelled then AbortAll(s.runners, m.ready) else s.runners), Done)
    case _ => false
  }

  /** The query a round is asking. */
  function RoundQuery(c: Config, stage: Stage): Query {
    if (stage.RoundLoop? || stage.RoundSelect? || stage.RoundWait?) && stage.q < |c.queries| then c.queries[stage.q]
    else Query("", 0)
  }

  /** Worker w takes one step; ok is what the network did. */
  function Worked(c: Config, s: State, w: nat, ok: bool): State
    requires w < |s.slots| && s.slots[w].Busy? && s.slots[w].runner < |s.runners|
  {
    var i := s.slots[w].runner;
    var move := Advance(c, RoundQuery(c, s.main.stage), s.slots[w].task, s.runners[i], Reading(s.main.cancelled, ok));
    s.(runners := s.runners[i := move.runner],
       slots := s.slots[w := if move.next.Rest? then Idle else Busy(i, move.next.task)],
       inRound := s.inRound + if move.counted then 1 else 0)
  }

  predicate WorkStep(c: Config, s: State, t: State) {
    exists w, ok :: 0 <= w < |s.slots| && s.slots[w].Busy? && s.slots[w].runner < |s.runners| &&
                    t == Worked(c, s, w, ok)
  }

  predicate CancelStep(s: State, t: State) {
    t == s.(main := s.main.(cancelled := true))
  }

  predicate Step(c: Config, s: State, t: State) {
    || ColdStep(c, s, t)
    || WarmStep(c, s, t)
    || RoundStep(c, s, t)
    || LastStep(c, s, t)
    || WorkStep(c, s, t)
    || CancelStep(s, t)
  }

  // ----- what a runner looks like -----

  /** A name and type per sample, in query order. */
  predicate InQueryOrder(c: Config, r: Runner) {
    |r.observations| <= |c.queries| && forall k :: 0 <= k < |r.observations| ==> r.observations[k].query == c.queries[k]
  }

  predicate Fresh(r: Runner) {
    r.(cold := []) == NEW
  }

  predicate OpenFailed(c: Config, r: Runner) {
    r.(cold := []) == Runner(false, true, false, OpenFailure, Unanswered(c.queries), [], false)
  }

  predicate Aborted(c: Config, r: Runner) {
    && !r.ready && r.finished && r.incomplete && r.openError == Interruption && InQueryOrder(c, r)
    && (r.verdict ==> |r.observations| == |c.queries|)
  }

  predicate Ready(c: Config, r: Runner, k: nat) {
    && r.ready && !r.finished && !r.incomplete && r.openError == Clean && InQueryOrder(c, r) && |r.observations| == k
    && (r.verdict ==> k == |c.queries|)
  }

  predicate Settled(c: Config, cancelled: bool, r: Runner) {
    Fresh(r) || OpenFailed(c, r) || (Aborted(c, r) && cancelled && r.observations == [])
  }

  predicate Warmed(c: Config, cancelled: bool, r: Runner) {
    Ready(c, r, 0) || OpenFailed(c, r) || (Aborted(c, r) && cancelled && r.observations == [])
  }

  /** Ready with k samples, or cut short with k or fewer by one. */
  predicate Measured(c: Config, cancelled: bool, r: Runner, low: nat, high: nat) {
    (Ready(c, r, high) || (Aborted(c, r) && cancelled && low <= |r.observations| <= high))
  }

  predicate Other(c: Config, cancelled: bool, dispatched: nat, i: nat, r: Runner) {
    if i >= dispatched then r == NEW && cancelled
    else OpenFailed(c, r) || (Aborted(c, r) && cancelled && r.observations == [])
  }

  /** What holds of a runner that no worker holds. */
  predicate RestOk(c: Config, m: Main, i: nat, r: Runner) {
    match m.stage
    case ColdLoop => if i < m.dispatched then Settled(c, m.cancelled, r) else r == NEW
    case ColdSelect => if i < m.dispatched then Settled(c, m.cancelled, r) else r == NEW
    case ColdWait => if i < m.dispatched then Settled(c, m.cancelled, r) else r == NEW
    case Warm(queue) => if i in queue then Settled(c, m.cancelled, r) else Warmed(c, m.cancelled, r)
    case Prepared => if i in m.ready then Ready(c, r, 0) else Other(c, m.cancelled, m.dispatched, i, r)
    case RoundStart(q) => if i in m.ready then Ready(c, r, q) else Other(c, m.cancelled, m.dispatched, i, r)
    case RoundLoop(q, next) => InRoundOk(c, m, i, r, q, next)
    case RoundSelect(q, next) => InRoundOk(c, m, i, r, q, next)
    case RoundWait(q, next) => InRoundOk(c, m, i, r, q, next)
    case RoundEnd(q) => if i in m.ready then Measured(c, m.cancelled, r, q, q + 1)
                        else Other(c, m.cancelled, m.dispatched, i, r)
    case Dnssec(queue) => if i in m.ready then Ready(c, r, |c.queries|) else Other(c, m.cancelled, m.dispatched, i, r)
    case Finishing(q) =>
      if i in m.ready then Measured(c, m.cancelled, r, q, q + 1) || Measured(c, m.cancelled, r, q, q)
      else Other(c, m.cancelled, m.dispatched, i, r)
    case Done =>
      if i in m.ready then Ready(c, r, |c.queries|) || (Aborted(c, r) && m.cancelled)
      else Other(c, m.cancelled, m.dispatched, i, r)
  }

  predicate InRoundOk(c: Config, m: Main, i: nat, r: Runner, q: nat, next: nat) {
    next <= |m.ready| &&
    if i in m.ready[next..] then Ready(c, r, q)
    else if i in m.ready[..next] then Measured(c, m.cancelled, r, q, q + 1) && (r.ready ==> |r.observations| == q + 1)
    else Other(c, m.cancelled, m.dispatched, i, r)
  }

  predicate ColdTask(t: Task) {
    t.Create? || ((t.ColdCheck? || t.ColdOpen? || t.ColdAsk?) && t.probe < PROBES)
  }

  predicate WarmTask(t: Task) {
    t.WarmOpen? || ((t.WarmCheck? || t.WarmAsk?) && t.name < WARMUPS)
  }

  predicate ProbeTask(t: Task) {
    t.ProbeStart? || t.ProbeSigned? || t.ProbeBogus?
  }

  /** What holds of a runner a worker holds, and of what the worker is doing. */
  predicate TaskOk(c: Config, m: Main, i: nat, t: Task, r: Runner) {
    match m.stage
    case ColdLoop => i < m.dispatched && ColdTask(t) && Fresh(r)
    case ColdSelect => i < m.dispatched && ColdTask(t) && Fresh(r)
    case ColdWait => i < m.dispatched && ColdTask(t) && Fresh(r)
    case Warm(queue) => i !in queue && ((t.WarmStart? && Settled(c, m.cancelled, r)) || (WarmTask(t) && Fresh(r)))
    case RoundLoop(q, next) => next <= |m.ready| && i in m.ready[..next] && (t.Measure? || t.Asking?) && Ready(c, r, q)
    case RoundSelect(q, next) => next <= |m.ready| && i in m.ready[..next] && (t.Measure? || t.Asking?) &&
                                 Ready(c, r, q)
    case RoundWait(q, next) => next <= |m.ready| && i in m.ready[..next] && (t.Measure? || t.Asking?) && Ready(c, r, q)
    case Dnssec(queue) => i in m.ready && i !in queue && ProbeTask(t) && Ready(c, r, |c.queries|)
    case _ => false
  }

  ghost predicate MainOk(c: Config, n: nat, m: Main) {
    && m.dispatched <= n
    && (m.dispatched < n ==> m.cancelled || m.stage.ColdLoop? || m.stage.ColdSelect?)
    && Distinct(m.ready) && (forall k :: 0 <= k < |m.ready| ==> m.ready[k] < m.dispatched)
    && match m.stage
       case ColdLoop => m.ready == []
       case ColdSelect => m.ready == [] && m.dispatched < n
       case ColdWait => m.ready == []
       case Warm(queue) =>
         m.ready == [] && m.dispatched == n && Distinct(queue) && forall k :: 0 <= k < |queue| ==> queue[k] < n
       case Prepared => true
       case RoundStart(q) => q <= |c.queries|
       case RoundLoop(q, next) => q < |c.queries| && next <= |m.ready|
       case RoundSelect(q, next) => q < |c.queries| && next < |m.ready|
       case RoundWait(q, next) => q < |c.queries| && next <= |m.ready| && (next < |m.ready| ==> m.cancelled)
       case RoundEnd(q) => q < |c.queries|
       case Dnssec(queue) => Distinct(queue) && forall k :: 0 <= k < |queue| ==> queue[k] in m.ready
       case Finishing(q) => q <= |c.queries| && (q < |c.queries| ==> m.cancelled)
       case Done => true
  }

  predicate Free(slots: seq<Slot>, i: nat) {
    forall w :: 0 <= w < |slots| && slots[w].Busy? ==> slots[w].runner != i
  }

  predicate HeldOk(c: Config, m: Main, runners: seq<Runner>, slot: Slot) {
    slot.Busy? ==> slot.runner < |runners| && TaskOk(c, m, slot.runner, slot.task, runners[slot.runner])
  }

  ghost predicate SlotsOk(c: Config, m: Main, runners: seq<Runner>, slots: seq<Slot>) {
    && (forall w :: 0 <= w < |slots| ==> HeldOk(c, m, runners, slots[w]))
    && (forall w, v :: 0 <= w < v < |slots| && slots[w].Busy? && slots[v].Busy? ==> slots[w].runner != slots[v].runner)
    && (forall i :: 0 <= i < |runners| && Free(slots, i) ==> RestOk(c, m, i, runners[i]))
  }

  /** How many workers the stage's pool has. */
  function PoolSize(c: Config, n: nat, m: Main): nat {
    match m.stage
    case ColdLoop => Workers(c.concurrency, n)
    case ColdSelect => Workers(c.concurrency, n)
    case ColdWait => Workers(c.concurrency, n)
    case Warm(_) => Workers(c.concurrency, n)
    case RoundLoop(_, _) => Workers(c.concurrency, |m.ready|)
    case RoundSelect(_, _) => Workers(c.concurrency, |m.ready|)
    case RoundWait(_, _) => Workers(c.concurrency, |m.ready|)
    case Dnssec(_) => Workers(c.concurrency, |m.ready|)
    case _ => 0
  }

  /** The samples of the listed runners. */
  function Samples(runners: seq<Runner>, which: seq<nat>, k: nat): nat
    requires k <= |which|
  {
    if k == 0 then 0
    else Samples(runners, which, k - 1) + if which[k - 1] < |runners| then |runners[which[k - 1]].observations| else 0
  }

  ghost predicate Inv(c: Config, n: nat, s: State) {
    && |s.runners| == n
    && MainOk(c, n, s.main)
    && SlotsOk(c, s.main, s.runners, s.slots)
    && |s.slots| == PoolSize(c, n, s.main)
    && s.total + s.inRound == Samples(s.runners, s.main.ready, |s.main.ready|)
    && (s.inRound > 0 ==> s.main.stage.RoundLoop? || s.main.stage.RoundSelect? || s.main.stage.RoundWait?)
  }

  // ----- moving the invariant along -----

  lemma QuietRest(c: Config, m: Main, runners: seq<Runner>, slots: seq<Slot>, i: nat)
    requires SlotsOk(c, m, runners, slots) && Quiet(slots) && i < |runners|
    ensures RestOk(c, m, i, runners[i])
  {
    assert Free(slots, i);
  }

  lemma AllAtRest(c: Config, m: Main, runners: seq<Runner>, slots: seq<Slot>)
    requires Quiet(slots)
    requires forall i :: 0 <= i < |runners| ==> RestOk(c, m, i, runners[i])
    ensures SlotsOk(c, m, runners, slots)
  {
    hide RestOk, TaskOk;
  }

  lemma NobodyBusy(c: Config, m: Main, runners: seq<Runner>, slots: seq<Slot>)
    requires SlotsOk(c, m, runners, slots)
    requires !(m.stage.ColdLoop? || m.stage.ColdSelect? || m.stage.ColdWait? || m.stage.Warm?)
    requires !(m.stage.RoundLoop? || m.stage.RoundSelect? || m.stage.RoundWait? || m.stage.Dnssec?)
    ensures Quiet(slots)
  {
    hide RestOk;
  }

  /** The main goroutine moves on while workers keep what they hold. */
  lemma Moved(c: Config, m: Main, after: Main, runners: seq<Runner>, slots: seq<Slot>)
    requires SlotsOk(c, m, runners, slots)
    requires forall i :: 0 <= i < |runners| && RestOk(c, m, i, runners[i]) ==> RestOk(c, after, i, runners[i])
    requires forall w :: 0 <= w < |slots| && HeldOk(c, m, runners, slots[w]) ==> HeldOk(c, after, runners, slots[w])
    ensures SlotsOk(c, after, runners, slots)
  {
    hide RestOk, TaskOk;
  }

  /** An idle worker is handed a runner nobody holds. */
  lemma Handed(c: Config, m: Main, after: Main, runners: seq<Runner>, slots: seq<Slot>, w: nat, runner: nat, task: Task)
    requires SlotsOk(c, m, runners, slots)
    requires w < |slots| && slots[w].Idle? && runner < |runners| && Free(slots, runner)
    requires TaskOk(c, after, runner, task, runners[runner])
    requires forall i :: 0 <= i < |runners| && i != runner && RestOk(c, m, i, runners[i]) ==>
               RestOk(c, after, i, runners[i])
    requires forall v :: 0 <= v < |slots| && HeldOk(c, m, runners, slots[v]) ==> HeldOk(c, after, runners, slots[v])
    ensures SlotsOk(c, after, runners, slots[w := Busy(runner, task)])
  {
    hide RestOk, TaskOk;
    var now := slots[w := Busy(runner, task)];
    forall i | 0 <= i < |runners| && Free(now, i) ensures RestOk(c, after, i, runners[i]) {
      assert now[w].runner != i;
      forall v | 0 <= v < |slots| && slots[v].Busy? ensures slots[v].runner != i {
        assert now[v] == slots[v];
      }
      assert Free(slots, i);
    }
  }

  // ----- one worker step -----

  /** What a step leaves of the one runner it touches. */
  predicate StepOk(c: Config, m: Main, i: nat, r: Runner, move: Move) {
    && (if move.next.Rest? then RestOk(c, m, i, move.runner) else TaskOk(c, m, i, move.next.task, move.runner))
    && (i in m.ready ==> |move.runner.observations| == |r.observations| + if move.counted then 1 else 0)
    && (move.counted ==> i in m.ready)
  }

  lemma ColdWorked(c: Config, m: Main, i: nat, t: Task, r: Runner, now: Reading)
    requires m.stage.ColdLoop? || m.stage.ColdSelect? || m.stage.ColdWait?
    requires TaskOk(c, m, i, t, r) && now.cancelled == m.cancelled && m.ready == []
    ensures StepOk(c, m, i, r, Advance(c, RoundQuery(c, m.stage), t, r, now))
  {
  }

  lemma WarmWorked(c: Config, m: Main, i: nat, t: Task, r: Runner, now: Reading)
    requires m.stage.Warm?
    requires TaskOk(c, m, i, t, r) && now.cancelled == m.cancelled && m.ready == []
    ensures StepOk(c, m, i, r, Advance(c, RoundQuery(c, m.stage), t, r, now))
  {
  }

  lemma RoundWorked(c: Config, m: Main, i: nat, t: Task, r: Runner, now: Reading)
    requires m.stage.RoundLoop? || m.stage.RoundSelect? || m.stage.RoundWait?
    requires TaskOk(c, m, i, t, r) && now.cancelled == m.cancelled
    requires m.stage.q < |c.queries| && Distinct(m.ready)
    ensures StepOk(c, m, i, r, Advance(c, RoundQuery(c, m.stage), t, r, now))
  {
    assert i !in m.ready[m.stage.next..] by {
      var k :| 0 <= k < m.stage.next && m.ready[..m.stage.next][k] == i;
      assert m.ready[k] == i;
    }
    assert i in m.ready;
  }

  lemma DnssecWorked(c: Config, m: Main, i: nat, t: Task, r: Runner, now: Reading)
    requires m.stage.Dnssec?
    requires TaskOk(c, m, i, t, r) && now.cancelled == m.cancelled
    ensures StepOk(c, m, i, r, Advance(c, RoundQuery(c, m.stage), t, r, now))
  {
  }

  lemma TaskWorked(c: Config, n: nat, m: Main, i: nat, t: Task, r: Runner, now: Reading)
    requires MainOk(c, n, m) && TaskOk(c, m, i, t, r) && now.cancelled == m.cancelled
    ensures var move := Advance(c, RoundQuery(c, m.stage), t, r, now);
            && StepOk(c, m, i, r, move)
            && (move.counted ==> m.stage.RoundLoop? || m.stage.RoundSelect? || m.stage.RoundWait?)
  {
    if m.stage.ColdLoop? || m.stage.ColdSelect? || m.stage.ColdWait? {
      ColdWorked(c, m, i, t, r, now);
    } else if m.stage.Warm? {
      WarmWorked(c, m, i, t, r, now);
    } else if m.stage.Dnssec? {
      DnssecWorked(c, m, i, t, r, now);
    } else {
      RoundWorked(c, m, i, t, r, now);
    }
  }

  lemma SlotWorked(c: Config, m: Main, runners: seq<Runner>, slots: seq<Slot>, w: nat, move: Move)
    requires SlotsOk(c, m, runners, slots) && w < |slots| && slots[w].Busy? && slots[w].runner < |runners|
    requires var i := slots[w].runner;
             if move.next.Rest? then RestOk(c, m, i, move.runner) else TaskOk(c, m, i, move.next.task, move.runner)
    ensures var i := slots[w].runner;
            SlotsOk(c, m, runners[i := move.runner],
                    slots[w := if move.next.Rest? then Idle else Busy(i, move.next.task)])
  {
    hide RestOk, TaskOk;
    var i := slots[w].runner;
    var now, after := slots[w := if move.next.Rest? then Idle else Busy(i, move.next.task)], runners[i := move.runner];
    if move.next.Go? {
      assert now[w].runner == i;
      assert !Free(now, i);
    }
    forall j | 0 <= j < |runners| && Free(now, j) ensures RestOk(c, m, j, after[j]) {
      if j != i {
        forall v | 0 <= v < |slots| && slots[v].Busy? ensures slots[v].runner != j {
          assert v != w ==> now[v] == slots[v];
        }
        assert Free(slots, j);
      }
    }
  }

  lemma {:induction false} SamplesChange(runners: seq<Runner>, which: seq<nat>, k: nat, i: nat, r: Runner, more: nat)
    requires k <= |which| && Distinct(which) && i < |runners|
    requires i in which ==> |r.observations| == |runners[i].observations| + more
    ensures Samples(runners[i := r], which, k) == Samples(runners, which, k) + if i in which[..k] then more else 0
  {
    if k > 0 {
      SamplesChange(runners, which, k - 1, i, r, more);
      assert which[..k] == which[..k - 1] + [which[k - 1]];
      if which[k - 1] == i { assert i !in which[..k - 1]; }
    }
  }

  lemma WorkKeeps(c: Config, n: nat, s: State, w: nat, ok: bool)
    requires Inv(c, n, s) && w < |s.slots| && s.slots[w].Busy? && s.slots[w].runner < |s.runners|
    ensures Inv(c, n, Worked(c, s, w, ok))
  {
    hide RestOk, TaskOk, Advance, Samples, RoundQuery;
    var i := s.slots[w].runner;
    var now := Reading(s.main.cancelled, ok);
    var move := Advance(c, RoundQuery(c, s.main.stage), s.slots[w].task, s.runners[i], now);
    TaskWorked(c, n, s.main, i, s.slots[w].task, s.runners[i], now);
    SlotWorked(c, s.main, s.runners, s.slots, w, move);
    var ready := s.main.ready;
    SamplesChange(s.runners, ready, |ready|, i, move.runner, if move.counted then 1 else 0);
    assert ready[..|ready|] == ready;
  }

  // ----- cancellation -----

  lemma RestCancelled(c: Config, m: Main, i: nat, r: Runner)
    requires RestOk(c, m, i, r)
    ensures RestOk(c, m.(cancelled := true), i, r)
  {
  }

  lemma TaskCancelled(c: Config, m: Main, i: nat, t: Task, r: Runner)
    requires TaskOk(c, m, i, t, r)
    ensures TaskOk(c, m.(cancelled := true), i, t, r)
  {
  }

  lemma CancelKeeps(c: Config, n: nat, s: State)
    requires Inv(c, n, s)
    ensures Inv(c, n, s.(main := s.main.(cancelled := true)))
  {
    hide RestOk, TaskOk, Samples;
    var m := s.main;
    forall i | 0 <= i < |s.runners| && RestOk(c, m, i, s.runners[i])
      ensures RestOk(c, m.(cancelled := true), i, s.runners[i])
    {
      RestCancelled(c, m, i, s.runners[i]);
    }
    forall w | 0 <= w < |s.slots| && HeldOk(c, m, s.runners, s.slots[w])
      ensures HeldOk(c, m.(cancelled := true), s.runners, s.slots[w])
    {
      var slot := s.slots[w];
      if slot.Busy? { TaskCancelled(c, m, slot.runner, slot.task, s.runners[slot.runner]); }
    }
    Moved(c, m, m.(cancelled := true), s.runners, s.slots);
  }

  // ----- the main goroutine's steps -----

  /** A stage change that asks the same of every runner and worker. */
  lemma Relabelled(c: Config, n: nat, s: State, stage: Stage)
    requires Inv(c, n, s) && MainOk(c, n, s.main.(stage := stage))
    requires s.inRound > 0 ==> stage.RoundLoop? || stage.RoundSelect? || stage.RoundWait?
    requires PoolSize(c, n, s.main.(stage := stage)) == |s.slots|
    requires forall i :: 0 <= i < n && RestOk(c, s.main, i, s.runners[i]) ==>
               RestOk(c, s.main.(stage := stage), i, s.runners[i])
    requires forall w :: 0 <= w < |s.slots| && HeldOk(c, s.main, s.runners, s.slots[w]) ==>
                         HeldOk(c, s.main.(stage := stage), s.runners, s.slots[w])
    ensures Inv(c, n, At(s, stage))
  {
    hide RestOk, TaskOk, HeldOk, Samples;
    Moved(c, s.main, s.main.(stage := stage), s.runners, s.slots);
  }

  lemma ColdLoopKeeps(c: Config, n: nat, s: State, t: State)
    requires Inv(c, n, s) && s.main.stage.ColdLoop? && ColdStep(c, s, t)
    ensures Inv(c, n, t)
  {
    hide Samples, Settled, Fresh;
    Relabelled(c, n, s, t.main.stage);
  }

  lemma ColdSelectKeeps(c: Config, n: nat, s: State, t: State)
    requires Inv(c, n, s) && s.main.stage.ColdSelect? && ColdStep(c, s, t)
    ensures Inv(c, n, t)
  {
    hide Samples, Settled;
    var m := s.main;
    if m.cancelled && t == At(s, ColdWait) {
      Relabelled(c, n, s, ColdWait);
    } else {
      var w :| 0 <= w < |s.slots| && s.slots[w].Idle? && t == ColdSent(s, w);
      forall v | 0 <= v < |s.slots| && s.slots[v].Busy? ensures s.slots[v].runner != m.dispatched {
        assert HeldOk(c, m, s.runners, s.slots[v]);
      }
      assert Free(s.slots, m.dispatched);
      Handed(c, m, t.main, s.runners, s.slots, w, m.dispatched, Create);
    }
  }

  lemma ColdWaitKeeps(c: Config, n: nat, s: State, t: State)
    requires Inv(c, n, s) && s.main.stage.ColdWait? && ColdStep(c, s, t)
    ensures Inv(c, n, t)
  {
    var m := s.main;
    forall i | 0 <= i < n
      ensures if i < m.dispatched then Settled(c, m.cancelled, s.runners[i]) else s.runners[i] == NEW
    {
      QuietRest(c, m, s.runners, s.slots, i);
    }
    assert s.total == 0;
    if m.cancelled {
      var runners := AbortUnfinished(s.runners, m.dispatched);
      forall i | 0 <= i < n ensures !runners[i].ready && Other(c, m.cancelled, m.dispatched, i, runners[i]) {
      }
      NobodyReady(runners, n);
      CollectedKeeps(c, n, s.(runners := runners));
    } else {
      forall i | 0 <= i < n ensures RestOk(c, t.main, i, t.runners[i]) {
        assert Identity(n)[i] == i;
      }
      AllAtRest(c, t.main, t.runners, t.slots);
    }
  }

  lemma {:induction false} NobodyReady(runners: seq<Runner>, k: nat)
    requires k <= |runners| && forall i :: 0 <= i < k ==> !runners[i].ready
    ensures ReadyList(runners, k) == []
  {
    if k > 0 { NobodyReady(runners, k - 1); }
  }

  lemma {:induction false} ReadyListed(runners: seq<Runner>, k: nat)
    requires k <= |runners|
    ensures forall i :: i in ReadyList(runners, k) <==> 0 <= i < k && runners[i].ready
    ensures forall a, b :: 0 <= a < b < |ReadyList(runners, k)| ==> ReadyList(runners, k)[a] < ReadyList(runners, k)[b]
  {
    if k > 0 {
      ReadyListed(runners, k - 1);
      var front := ReadyList(runners, k - 1);
      forall a | 0 <= a < |front| ensures front[a] < k - 1 {
        assert front[a] in front;
      }
    }
  }

  /** Collecting the ready list keeps the invariant, and the list is empty of samples. */
  lemma CollectedKeeps(c: Config, n: nat, s: State)
    requires |s.runners| == n && s.total + s.inRound == 0
    requires s.main.dispatched <= n && (s.main.dispatched < n ==> s.main.cancelled)
    requires forall i :: 0 <= i < n ==>
      Ready(c, s.runners[i], 0) ||
      (!s.runners[i].ready && Other(c, s.main.cancelled, s.main.dispatched, i, s.runners[i]))
    requires forall i :: s.main.dispatched <= i < n ==> !s.runners[i].ready
    ensures Inv(c, n, Collected(s))
  {
    hide Samples;
    var t := Collected(s);
    var ready := t.main.ready;
    ReadyListed(s.runners, n);
    forall k | 0 <= k < |ready| ensures ready[k] < s.main.dispatched && |s.runners[ready[k]].observations| == 0 {
      assert ready[k] in ready;
    }
    forall i | 0 <= i < n ensures RestOk(c, t.main, i, s.runners[i]) {
    }
    AllAtRest(c, t.main, s.runners, []);
    NoSamples(s.runners, ready, |ready|);
  }

  lemma {:induction false} NoSamples(runners: seq<Runner>, which: seq<nat>, k: nat)
    requires k <= |which|
    requires forall j :: 0 <= j < |which| ==> which[j] < |runners| && |runners[which[j]].observations| == 0
    ensures Samples(runners, which, k) == 0
  {
    if k > 0 { NoSamples(runners, which, k - 1); }
  }

  lemma WarmKeeps(c: Config, n: nat, s: State, t: State)
    requires Inv(c, n, s) && s.main.stage.Warm? && WarmStep(c, s, t)
    ensures Inv(c, n, t)
  {
    var m, queue := s.main, s.main.stage.queue;
    assert s.total + s.inRound == 0;
    if queue == [] {
      forall i | 0 <= i < n ensures Warmed(c, m.cancelled, s.runners[i]) {
        QuietRest(c, m, s.runners, s.slots, i);
      }
      CollectedKeeps(c, n, s);
    } else {
      var w :| 0 <= w < |s.slots| && s.slots[w].Idle? && t == At(Hand(s, w, queue[0], WarmStart), Warm(queue[1..]));
      TakenKeeps(c, n, s, w, WarmStart);
      assert t.main == m.(stage := Warm(queue[1..]));
    }
  }

  /** A worker takes the head of the warm queue. */
  lemma TakenKeeps(c: Config, n: nat, s: State, w: nat, task: Task)
    requires Inv(c, n, s) && s.main.stage.Warm? && s.main.stage.queue != [] && task == WarmStart
    requires w < |s.slots| && s.slots[w].Idle?
    ensures Inv(c, n, At(Hand(s, w, s.main.stage.queue[0], task), Warm(s.main.stage.queue[1..])))
  {
    hide Samples, Settled, Warmed;
    var m, queue := s.main, s.main.stage.queue;
    var head, rest := queue[0], queue[1..];
    var after := m.(stage := Warm(rest));
    assert forall i :: i in queue <==> i == head || i in rest;
    assert head !in rest;
    forall v | 0 <= v < |s.slots| && s.slots[v].Busy? ensures s.slots[v].runner != head {
      assert HeldOk(c, m, s.runners, s.slots[v]);
    }
    assert Free(s.slots, head);
    Handed(c, m, after, s.runners, s.slots, w, head, task);
  }

  lemma PreparedKeeps(c: Config, n: nat, s: State, t: State)
    requires Inv(c, n, s) && s.main.stage.Prepared? && WarmStep(c, s, t)
    ensures Inv(c, n, t)
  {
    hide Samples, InQueryOrder;
    NobodyBusy(c, s.main, s.runners, s.slots);
    Relabelled(c, n, s, t.main.stage);
  }

  lemma RoundStartKeeps(c: Config, n: nat, s: State, t: State)
    requires Inv(c, n, s) && s.main.stage.RoundStart? && RoundStep(c, s, t)
    ensures Inv(c, n, t)
  {
    hide Samples, InQueryOrder;
    var m, q := s.main, s.main.stage.q;
    NobodyBusy(c, m, s.runners, s.slots);
    if q < |c.queries| && m.ready == [] {
      Relabelled(c, n, s, RoundEnd(q));
    } else if q >= |c.queries| && !(c.dnssec && m.ready != [] && !m.cancelled) {
      Relabelled(c, n, s, Finishing(q));
    } else {
      forall i | 0 <= i < n ensures RestOk(c, t.main, i, t.runners[i]) {
        QuietRest(c, m, s.runners, s.slots, i);
        assert m.ready[0..] == m.ready && m.ready[..0] == [];
      }
      AllAtRest(c, t.main, t.runners, t.slots);
    }
  }

  lemma RoundLoopKeeps(c: Config, n: nat, s: State, t: State)
    requires Inv(c, n, s) && s.main.stage.RoundLoop? && RoundStep(c, s, t)
    ensures Inv(c, n, t)
  {
    hide Samples, InQueryOrder, Ready, Measured, Other;
    Relabelled(c, n, s, t.main.stage);
  }

  lemma RoundSelectKeeps(c: Config, n: nat, s: State, t: State)
    requires Inv(c, n, s) && s.main.stage.RoundSelect? && RoundStep(c, s, t)
    ensures Inv(c, n, t)
  {
    hide Samples, InQueryOrder, Ready, Measured, Other;
    var m, q, next := s.main, s.main.stage.q, s.main.stage.next;
    if m.cancelled && t == At(s, RoundWait(q, next)) {
      Relabelled(c, n, s, RoundWait(q, next));
    } else {
      var w :| 0 <= w < |s.slots| && s.slots[w].Idle? &&
               t == At(Hand(s, w, m.ready[next], Measure), RoundLoop(q, next + 1));
      DispatchKeeps(c, n, s, w);
    }
  }

  lemma ReadySplit(ready: seq<nat>, next: nat)
    requires next < |ready| && Distinct(ready)
    ensures ready[next] in ready[next..] && ready[next] !in ready[..next] && ready[next] in ready[..next + 1]
    ensures forall i :: i != ready[next] ==> (i in ready[next..] <==> i in ready[next + 1..])
    ensures forall i :: i != ready[next] ==> (i in ready[..next] <==> i in ready[..next + 1])
  {
    assert ready[next..] == [ready[next]] + ready[next + 1..];
    assert ready[..next + 1] == ready[..next] + [ready[next]];
  }

  lemma DispatchKeeps(c: Config, n: nat, s: State, w: nat)
    requires Inv(c, n, s) && s.main.stage.RoundSelect?
    requires w < |s.slots| && s.slots[w].Idle?
    ensures var m := s.main;
            Inv(c, n, At(Hand(s, w, m.ready[m.stage.next], Measure), RoundLoop(m.stage.q, m.stage.next + 1)))
  {
    hide Samples, InQueryOrder, Ready, Measured, Other;
    var m, q, next := s.main, s.main.stage.q, s.main.stage.next;
    var head, after := m.ready[next], m.(stage := RoundLoop(q, next + 1));
    ReadySplit(m.ready, next);
    forall v | 0 <= v < |s.slots| && s.slots[v].Busy? ensures s.slots[v].runner != head {
      assert HeldOk(c, m, s.runners, s.slots[v]);
    }
    assert Free(s.slots, head);
    assert RestOk(c, m, head, s.runners[head]);
    Handed(c, m, after, s.runners, s.slots, w, head, Measure);
  }

  lemma AbortSamples(runners: seq<Runner>, after: seq<Runner>, which: seq<nat>, k: nat)
    requires k <= |which| && |runners| == |after|
    requires forall i :: 0 <= i < |runners| ==> |after[i].observations| == |runners[i].observations|
    ensures Samples(after, which, k) == Samples(runners, which, k)
  {
  }

  lemma AbortedKeeps(c: Config, r: Runner, k: nat)
    requires Ready(c, r, k) || Aborted(c, r)
    ensures Aborted(c, Abort(r)) && Abort(r).observations == r.observations
  {
  }

  /** The end of a round for one runner: aborted if it was never dispatched. */
  lemma ClosedRunner(c: Config, m: Main, i: nat, r: Runner)
    requires m.stage.RoundWait? && m.stage.next <= |m.ready| && (m.stage.next < |m.ready| ==> m.cancelled)
    requires RestOk(c, m, i, r)
    ensures var after := if m.cancelled && i in m.ready[m.stage.next..] then Abort(r) else r;
            RestOk(c, m.(stage := RoundEnd(m.stage.q)), i, after)
  {
    hide InQueryOrder, Other;
    var next := m.stage.next;
    assert m.ready == m.ready[..next] + m.ready[next..];
    assert i in m.ready <==> i in m.ready[..next] || i in m.ready[next..];
    if i in m.ready[next..] { AbortedKeeps(c, r, m.stage.q); }
  }

  lemma FinishedRunner(c: Config, m: Main, i: nat, r: Runner)
    requires m.stage.Finishing? && (m.stage.q < |c.queries| ==> m.cancelled) && m.stage.q <= |c.queries|
    requires RestOk(c, m, i, r)
    ensures RestOk(c, m.(stage := Done), i, if m.cancelled && i in m.ready then Abort(r) else r)
  {
    hide Other;
    if m.cancelled && i in m.ready { AbortedKeeps(c, r, |r.observations|); }
  }

  lemma RoundWaitKeeps(c: Config, n: nat, s: State, t: State)
    requires Inv(c, n, s) && s.main.stage.RoundWait? && RoundStep(c, s, t)
    ensures Inv(c, n, t)
  {
    hide Samples, RestOk;
    var m, q, next := s.main, s.main.stage.q, s.main.stage.next;
    forall i | 0 <= i < n ensures RestOk(c, t.main, i, t.runners[i]) {
      QuietRest(c, m, s.runners, s.slots, i);
      ClosedRunner(c, m, i, s.runners[i]);
    }
    AllAtRest(c, t.main, t.runners, t.slots);
    AbortSamples(s.runners, t.runners, m.ready, |m.ready|);
  }

  lemma RoundEndKeeps(c: Config, n: nat, s: State, t: State)
    requires Inv(c, n, s) && s.main.stage.RoundEnd? && RoundStep(c, s, t)
    ensures Inv(c, n, t)
  {
    hide Samples, InQueryOrder, Other;
    NobodyBusy(c, s.main, s.runners, s.slots);
    Relabelled(c, n, s, t.main.stage);
  }

  lemma DnssecKeeps(c: Config, n: nat, s: State, t: State)
    requires Inv(c, n, s) && s.main.stage.Dnssec? && LastStep(c, s, t)
    ensures Inv(c, n, t)
  {
    hide Samples, InQueryOrder, Other;
    var m, queue := s.main, s.main.stage.queue;
    if queue == [] {
      forall i | 0 <= i < n ensures RestOk(c, t.main, i, t.runners[i]) {
        QuietRest(c, m, s.runners, s.slots, i);
      }
      AllAtRest(c, t.main, t.runners, t.slots);
    } else {
      var w :| 0 <= w < |s.slots| && s.slots[w].Idle? && t == At(Hand(s, w, queue[0], ProbeStart), Dnssec(queue[1..]));
      ProbeTakenKeeps(c, n, s, w);
    }
  }

  lemma ProbeTakenKeeps(c: Config, n: nat, s: State, w: nat)
    requires Inv(c, n, s) && s.main.stage.Dnssec? && s.main.stage.queue != []
    requires w < |s.slots| && s.slots[w].Idle?
    ensures Inv(c, n, At(Hand(s, w, s.main.stage.queue[0], ProbeStart), Dnssec(s.main.stage.queue[1..])))
  {
    hide Samples, Other, Ready;
    var m, queue := s.main, s.main.stage.queue;
    var head, rest := queue[0], queue[1..];
    var after := m.(stage := Dnssec(rest));
    assert head in m.ready && head !in rest;
    assert forall i :: i in queue <==> i == head || i in rest;
    forall v | 0 <= v < |s.slots| && s.slots[v].Busy? ensures s.slots[v].runner != head {
      assert HeldOk(c, m, s.runners, s.slots[v]);
    }
    assert Free(s.slots, head);
    assert RestOk(c, m, head, s.runners[head]);
    Handed(c, m, after, s.runners, s.slots, w, head, ProbeStart);
  }

  lemma FinishingKeeps(c: Config, n: nat, s: State, t: State)
    requires Inv(c, n, s) && s.main.stage.Finishing? && LastStep(c, s, t)
    ensures Inv(c, n, t)
  {
    hide Samples, RestOk;
    var m := s.main;
    NobodyBusy(c, m, s.runners, s.slots);
    forall i | 0 <= i < n ensures RestOk(c, t.main, i, t.runners[i]) {
      QuietRest(c, m, s.runners, s.slots, i);
      FinishedRunner(c, m, i, s.runners[i]);
    }
    AllAtRest(c, t.main, t.runners, t.slots);
    AbortSamples(s.runners, t.runners, m.ready, |m.ready|);
  }

  lemma InitOk(c: Config, n: nat)
    ensures Inv(c, n, Init(c, n))
  {
    var s := Init(c, n);
    AllAtRest(c, s.main, s.runners, s.slots);
  }

  /** Every step, by whoever takes it, keeps the invariant. */
  lemma StepKeeps(c: Config, n: nat, s: State, t: State)
    requires Inv(c, n, s) && Step(c, s, t)
    ensures Inv(c, n, t)
  {
    hide Inv, Worked, RoundClosed, ColdSent, Collected;
    if CancelStep(s, t) {
      CancelKeeps(c, n, s);
    } else if WorkStep(c, s, t) {
      var w, ok :| 0 <= w < |s.slots| && s.slots[w].Busy? && s.slots[w].runner < |s.runners| &&
                   t == Worked(c, s, w, ok);
      WorkKeeps(c, n, s, w, ok);
    } else {
      match s.main.stage
      case ColdLoop => ColdLoopKeeps(c, n, s, t);
      case ColdSelect => ColdSelectKeeps(c, n, s, t);
      case ColdWait => ColdWaitKeeps(c, n, s, t);
      case Warm(_) => WarmKeeps(c, n, s, t);
      case Prepared => PreparedKeeps(c, n, s, t);
      case RoundStart(_) => RoundStartKeeps(c, n, s, t);
      case RoundLoop(_, _) => RoundLoopKeeps(c, n, s, t);
      case RoundSelect(_, _) => RoundSelectKeeps(c, n, s, t);
      case RoundWait(_, _) => RoundWaitKeeps(c, n, s, t);
      case RoundEnd(_) => RoundEndKeeps(c, n, s, t);
      case Dnssec(_) => DnssecKeeps(c, n, s, t);
      case Finishing(_) => FinishingKeeps(c, n, s, t);
      case Done =>
    }
  }

  /** One run: from the start, one step after another. */
  ghost predicate Run(c: Config, n: nat, trace: seq<State>) {
    && trace != [] && trace[0] == Init(c, n)
    && forall k :: 0 < k < |trace| ==> Step(c, trace[k - 1], trace[k])
  }

  lemma {:induction false} RunKeeps(c: Config, n: nat, trace: seq<State>, k: nat)
    requires Run(c, n, trace) && k < |trace|
    ensures Inv(c, n, trace[k])
  {
    hide Inv, Step, Init;
    if k == 0 {
      InitOk(c, n);
    } else {
      RunKeeps(c, n, trace, k - 1);
      StepKeeps(c, n, trace[k - 1], trace[k]);
    }
  }
}
