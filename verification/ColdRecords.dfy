/** What the cold probes record: over every run of the scheduler, one entry per probe
    that went through, and three for every target that is measured. */
module ColdRecords {
  import opened Report
  import opened Runner
  import opened Scheduler
  import opened SchedulerRuns

  // ----- one entry at a time -----

  /** Worker w finishes a cold probe of target i: its session could not be opened, or
      its query has come back; answered is whether it was answered. */
  predicate ProbeEnds(c: Config, s: State, t: State, w: nat, i: nat, answered: bool) {
    && w < |s.slots| && s.slots[w].Busy? && s.slots[w].runner == i && i < |s.runners|
    && ((s.slots[w].task.ColdOpen? && !answered) || s.slots[w].task.ColdAsk?)
    && t == Worked(c, s, w, answered)
  }

  ghost predicate AnyProbeEnds(c: Config, s: State, t: State, i: nat, answered: bool) {
    exists w: nat :: w < |s.slots| && ProbeEnds(c, s, t, w, i, answered)
  }

  lemma AdvanceRecords(c: Config, query: Query, t: Task, r: Runner, now: Reading)
    ensures var after := Advance(c, query, t, r, now).runner;
            after.cold == r.cold + if t.ColdAsk? || (t.ColdOpen? && !now.ok) then [now.ok] else []
  {
  }

  /** No step drops or rewrites an entry, and a step adds one exactly when a worker
      ends a probe of the target: that probe's outcome. */
  lemma StepRecords(c: Config, n: nat, s: State, t: State, i: nat)
    requires Inv(c, n, s) && Step(c, s, t) && i < n
    ensures |t.runners| == n
    ensures t.runners[i].cold == s.runners[i].cold ||
            exists answered :: AnyProbeEnds(c, s, t, i, answered) && t.runners[i].cold == s.runners[i].cold + [answered]
    ensures forall w: nat, answered :: ProbeEnds(c, s, t, w, i, answered) ==>
              t.runners[i].cold == s.runners[i].cold + [answered]
  {
    hide TaskOk, RestOk, Advance, Samples, Step;
    forall w: nat, answered | ProbeEnds(c, s, t, w, i, answered)
      ensures t.runners[i].cold == s.runners[i].cold + [answered]
    {
      AdvanceRecords(c, RoundQuery(c, s.main.stage), s.slots[w].task, s.runners[i],
                     Reading(s.main.cancelled, answered));
    }
    if WorkStep(c, s, t) {
      var w, ok :| 0 <= w < |s.slots| && s.slots[w].Busy? && s.slots[w].runner < |s.runners| &&
                   t == Worked(c, s, w, ok);
      var slot := s.slots[w];
      AdvanceRecords(c, RoundQuery(c, s.main.stage), slot.task, s.runners[slot.runner], Reading(s.main.cancelled, ok));
      if slot.runner == i && t.runners[i].cold != s.runners[i].cold {
        assert ProbeEnds(c, s, t, w, i, ok);
        assert AnyProbeEnds(c, s, t, i, ok);
      }
    } else {
      MainOnlyAborts(c, s, t, i);
    }
  }

  /** So along a run entries are only ever added. */
  lemma {:induction false} EntriesKept(c: Config, n: nat, trace: seq<State>, j: nat, k: nat, i: nat)
    requires Run(c, n, trace) && j <= k < |trace| && i < n
    ensures |trace[j].runners| == |trace[k].runners| == n
    ensures trace[j].runners[i].cold <= trace[k].runners[i].cold
  {
    hide Inv, Step, Init, AnyProbeEnds, ProbeEnds;
    RunKeeps(c, n, trace, j);
    InvFacts(c, n, trace[j]);
    if j < k {
      EntriesKept(c, n, trace, j, k - 1, i);
      RunKeeps(c, n, trace, k - 1);
      StepRecords(c, n, trace[k - 1], trace[k], i);
    }
  }

  // ----- how many entries there are -----

  /** How many probes have ended when a worker stands at the task. */
  function Ended(t: Task): nat {
    match t
    case ColdCheck(probe) => probe
    case ColdOpen(probe) => probe
    case ColdAsk(probe) => probe
    case _ => 0
  }

  predicate AllEnded(r: Runner) {
    r.finished || |r.cold| == 3
  }

  predicate HeldEntries(runners: seq<Runner>, slot: Slot) {
    slot.Busy? && slot.runner < |runners| ==>
      if ColdWork(slot.task) then |runners[slot.runner].cold| == Ended(slot.task) else AllEnded(runners[slot.runner])
  }

  /** A worker in the cold phase has as many entries as probes behind it, and every
      target nobody holds any more has all three, or is finished. */
  ghost predicate EntriesOk(s: State) {
    && (forall w :: 0 <= w < |s.slots| ==> HeldEntries(s.runners, s.slots[w]))
    && (forall i :: 0 <= i < |s.runners| && i < s.main.dispatched && Free(s.slots, i) ==> AllEnded(s.runners[i]))
  }

  lemma AdvanceCounts(c: Config, m: Main, query: Query, i: nat, t: Task, r: Runner, now: Reading)
    requires TaskOk(c, m, i, t, r)
    requires if ColdWork(t) then |r.cold| == Ended(t) else AllEnded(r)
    ensures var move := Advance(c, query, t, r, now);
            if move.next.Go? && ColdWork(move.next.task) then |move.runner.cold| == Ended(move.next.task)
            else AllEnded(move.runner)
  {
  }

  lemma WorkCounts(c: Config, n: nat, s: State, w: nat, ok: bool)
    requires Inv(c, n, s) && EntriesOk(s) && w < |s.slots| && s.slots[w].Busy? && s.slots[w].runner < |s.runners|
    ensures EntriesOk(Worked(c, s, w, ok))
  {
    hide Advance, TaskOk, RestOk, Samples, AllEnded, Ended, ColdWork;
    var slot, t := s.slots[w], Worked(c, s, w, ok);
    assert HeldOk(c, s.main, s.runners, slot) && HeldEntries(s.runners, slot);
    AdvanceCounts(c, s.main, RoundQuery(c, s.main.stage), slot.runner, slot.task, s.runners[slot.runner],
                  Reading(s.main.cancelled, ok));
    forall v | 0 <= v < |t.slots| ensures HeldEntries(t.runners, t.slots[v]) {
      assert HeldEntries(s.runners, s.slots[v]);
    }
    forall i | 0 <= i < |t.runners| && i < t.main.dispatched && Free(t.slots, i) ensures AllEnded(t.runners[i]) {
      if i != slot.runner {
        forall v | 0 <= v < |s.slots| && s.slots[v].Busy? ensures s.slots[v].runner != i {
          assert t.slots[v] == s.slots[v] || v == w;
        }
        assert Free(s.slots, i);
      } else {
        assert t.slots[w].Idle?;
      }
    }
  }

  /** What a step of the main goroutine puts into a slot: a target that has had no
      probe yet, or one nobody holds. */
  predicate HandedOut(s: State, slot: Slot) {
    slot.Busy? && slot.runner < |s.runners| &&
    if slot.task.Create? then s.runners[slot.runner].cold == []
    else !ColdWork(slot.task) && slot.runner < s.main.dispatched && Free(s.slots, slot.runner)
  }

  /** The stage hands the slot out: the next target to probe, prepare or measure. */
  predicate HandsOut(m: Main, slot: Slot) {
    match m.stage
    case ColdSelect => slot == Busy(m.dispatched, Create)
    case Warm(queue) => queue != [] && slot == Busy(queue[0], WarmStart)
    case RoundSelect(_, next) => next < |m.ready| && slot == Busy(m.ready[next], Measure)
    case Dnssec(queue) => queue != [] && slot == Busy(queue[0], ProbeStart)
    case _ => false
  }

  lemma MainSlots(c: Config, s: State, t: State, w: nat)
    requires Step(c, s, t) && !WorkStep(c, s, t) && w < |t.slots| && t.slots[w].Busy?
    ensures (w < |s.slots| && t.slots[w] == s.slots[w]) || HandsOut(s.main, t.slots[w])
  {
    hide ReadyList, Workers, AbortAll, AbortUnfinished, WorkStep;
  }

  lemma MainHandsOut(c: Config, n: nat, s: State, t: State, w: nat)
    requires Inv(c, n, s) && Step(c, s, t) && !WorkStep(c, s, t) && w < |t.slots| && t.slots[w].Busy?
    ensures (w < |s.slots| && t.slots[w] == s.slots[w]) || HandedOut(s, t.slots[w])
  {
    hide Step, Samples, WorkStep;
    MainSlots(c, s, t, w);
    if !(w < |s.slots| && t.slots[w] == s.slots[w]) { OfferedIsFree(c, n, s, t.slots[w]); }
  }

  lemma OfferedIsFree(c: Config, n: nat, s: State, slot: Slot)
    requires Inv(c, n, s) && HandsOut(s.main, slot)
    ensures HandedOut(s, slot)
  {
    hide Samples, RestOk;
    forall v | 0 <= v < |s.slots| && s.slots[v].Busy? ensures s.slots[v].runner != slot.runner {
      assert HeldOk(c, s.main, s.runners, s.slots[v]);
    }
    assert Free(s.slots, slot.runner);
    if s.main.stage.ColdSelect? { UndispatchedIsNew(c, s); }
  }

  lemma UndispatchedIsNew(c: Config, s: State)
    requires SlotsOk(c, s.main, s.runners, s.slots) && s.main.stage.ColdSelect?
    requires s.main.dispatched < |s.runners| && Free(s.slots, s.main.dispatched)
    ensures s.runners[s.main.dispatched].cold == []
  {
  }

  /** A step of the main goroutine that dispatches a target hands it to a worker. */
  lemma MainDispatches(c: Config, n: nat, s: State, t: State, i: nat)
    requires Inv(c, n, s) && Step(c, s, t) && !WorkStep(c, s, t) && i < t.main.dispatched && Free(t.slots, i)
    ensures i < s.main.dispatched
  {
    hide ReadyList, Workers, AbortAll, AbortUnfinished, Samples, WorkStep, RestOk, TaskOk;
    if s.main.stage.ColdSelect? && t.main.dispatched != s.main.dispatched {
      var w :| 0 <= w < |s.slots| && s.slots[w].Idle? && t == ColdSent(s, w);
      assert t.slots[w].runner == s.main.dispatched;
    }
  }

  lemma MainCounts(c: Config, n: nat, s: State, t: State)
    requires Inv(c, n, s) && EntriesOk(s) && Step(c, s, t) && !WorkStep(c, s, t)
    ensures EntriesOk(t)
  {
    hide Inv, Step, WorkStep, AbortAll, HandedOut, Free;
    forall w | 0 <= w < |t.slots| ensures HeldEntries(t.runners, t.slots[w]) {
      if t.slots[w].Busy? && t.slots[w].runner < |t.runners| { SlotCounts(c, n, s, t, w); }
    }
    forall i | 0 <= i < |t.runners| && i < t.main.dispatched && Free(t.slots, i) ensures AllEnded(t.runners[i]) {
      RestCounts(c, n, s, t, i);
    }
  }

  lemma SlotCounts(c: Config, n: nat, s: State, t: State, w: nat)
    requires Inv(c, n, s) && EntriesOk(s) && Step(c, s, t) && !WorkStep(c, s, t)
    requires w < |t.slots| && t.slots[w].Busy? && t.slots[w].runner < |t.runners|
    ensures HeldEntries(t.runners, t.slots[w])
  {
    hide Step, WorkStep, TaskOk, RestOk, Samples;
    MainHandsOut(c, n, s, t, w);
    if w < |s.slots| && t.slots[w] == s.slots[w] {
      assert HeldOk(c, s.main, s.runners, s.slots[w]) && HeldEntries(s.runners, s.slots[w]);
    }
    MainOnlyAborts(c, s, t, t.slots[w].runner);
  }

  lemma RestCounts(c: Config, n: nat, s: State, t: State, i: nat)
    requires Inv(c, n, s) && EntriesOk(s) && Step(c, s, t) && !WorkStep(c, s, t)
    requires i < |t.runners| && i < t.main.dispatched && Free(t.slots, i)
    ensures AllEnded(t.runners[i])
  {
    hide Step, WorkStep, TaskOk, RestOk, Samples;
    MainDispatches(c, n, s, t, i);
    if !Free(s.slots, i) {
      var w :| 0 <= w < |s.slots| && s.slots[w].Busy? && s.slots[w].runner == i;
      MainKeepsBusy(c, n, s, t, w);
    }
    MainOnlyAborts(c, s, t, i);
  }

  lemma {:induction false} RunCounts(c: Config, n: nat, trace: seq<State>, k: nat)
    requires Run(c, n, trace) && k < |trace|
    ensures EntriesOk(trace[k])
  {
    hide Inv, Step, EntriesOk;
    if k == 0 {
      StartsWithout(c, n);
    } else {
      RunCounts(c, n, trace, k - 1);
      RunKeeps(c, n, trace, k - 1);
      if WorkStep(c, trace[k - 1], trace[k]) {
        var w, ok :| 0 <= w < |trace[k - 1].slots| && trace[k - 1].slots[w].Busy? &&
                     trace[k - 1].slots[w].runner < |trace[k - 1].runners| &&
                     trace[k] == Worked(c, trace[k - 1], w, ok);
        WorkCounts(c, n, trace[k - 1], w, ok);
      } else {
        MainCounts(c, n, trace[k - 1], trace[k]);
      }
    }
  }

  lemma StartsWithout(c: Config, n: nat)
    ensures EntriesOk(Init(c, n))
  {
  }

  /** When a run ends, every target that is reported complete has exactly three cold
      entries. */
  lemma CompleteHasThree(c: Config, targets: seq<string>, trace: seq<State>, i: nat)
    requires Run(c, |targets|, trace) && trace[|trace| - 1].main.stage.Done? && i < |targets|
    ensures |trace[|trace| - 1].runners| == |targets|
    ensures var reported := Results(targets, trace[|trace| - 1])[i].runner;
            Complete(c, reported) ==> |reported.cold| == 3
  {
    hide Inv, Step, Init, RestOk;
    var s := trace[|trace| - 1];
    RunKeeps(c, |targets|, trace, |trace| - 1);
    RunCounts(c, |targets|, trace, |trace| - 1);
    InvFacts(c, |targets|, s);
    DoneAtRest(c, |targets|, s, i);
    DoneIsFree(c, |targets|, s, i);
    CompleteIsReady(c, s.main, i, s.runners[i]);
  }

  lemma DoneIsFree(c: Config, n: nat, s: State, i: nat)
    requires Inv(c, n, s) && s.main.stage.Done?
    ensures Free(s.slots, i)
  {
    hide Samples;
    NobodyBusy(c, s.main, s.runners, s.slots);
  }

  lemma CompleteIsReady(c: Config, m: Main, i: nat, r: Runner)
    requires m.stage.Done? && RestOk(c, m, i, r)
    ensures Complete(c, if i < m.dispatched then r else Abort(NEW)) ==> i < m.dispatched && !r.finished
  {
  }
}
