/** One target's runner: its fields, what each step of a worker does to it, and
    the methods a worker calls. A reading is one look at the outside world, taken
    at the moment the code looks: whether the run is cancelled, and whether the
    network call that just returned succeeded. */
module Runner {
  import opened Report

  const PROBES: nat := 3
  const WARMUPS: nat := 3

  datatype Config = Config(queries: seq<Query>, concurrency: int, dnssec: bool)

  datatype Sample = Sample(query: Query, success: bool)

  datatype Diagnosis = Clean | OpenFailure | Interruption

  /** The fields of a runner and of the result it builds. */
  datatype Runner = Runner(ready: bool, finished: bool, incomplete: bool, openError: Diagnosis,
                           observations: seq<Sample>, cold: seq<bool>, verdict: bool)

  const NEW := Runner(false, false, false, Clean, [], [], false)

  datatype Reading = Reading(cancelled: bool, ok: bool)

  /** Where a worker stands in the call it is making for a runner. The -Open, -Ask
      and Probe- tasks are waiting on the network. */
  datatype Task =
    | Create
    | ColdCheck(probe: nat)
    | ColdOpen(probe: nat)
    | ColdAsk(probe: nat)
    | WarmStart
    | WarmOpen
    | WarmCheck(name: nat)
    | WarmAsk(name: nat)
    | Measure
    | Asking
    | ProbeStart
    | ProbeSigned
    | ProbeBogus

  datatype Next = Rest | Go(task: Task)

  datatype Move = Move(runner: Runner, next: Next, counted: bool)

  function Abort(r: Runner): Runner {
    r.(ready := false, finished := true, incomplete := true, openError := Interruption)
  }

  function Unanswered(queries: seq<Query>): (s: seq<Sample>)
    ensures |s| == |queries|
  {
    seq(|queries|, i requires 0 <= i < |queries| => Sample(queries[i], false))
  }

  function FailOpen(c: Config, r: Runner): Runner {
    r.(openError := OpenFailure, observations := Unanswered(c.queries), finished := true)
  }

  function AfterProbe(r: Runner, probe: nat, success: bool, cancelled: bool): Move {
    var probed := r.(cold := r.cold + [success]);
    if cancelled then Move(Abort(probed), Rest, false)
    else if probe + 1 == PROBES then Move(probed, Rest, false)
    else Move(probed, Go(ColdCheck(probe + 1)), false)
  }

  /** One step of a worker on a runner. */
  function Advance(c: Config, query: Query, t: Task, r: Runner, now: Reading): Move {
    match t
    case Create =>
      if now.ok then Move(r, Go(ColdCheck(0)), false)
      else if now.cancelled then Move(Abort(r), Rest, false)
      else Move(FailOpen(c, r), Rest, false)
    case ColdCheck(probe) =>
      if now.cancelled then Move(Abort(r), Rest, false) else Move(r, Go(ColdOpen(probe)), false)
    case ColdOpen(probe) =>
      if now.ok then Move(r, Go(ColdAsk(probe)), false) else AfterProbe(r, probe, false, now.cancelled)
    case ColdAsk(probe) =>
      AfterProbe(r, probe, now.ok, now.cancelled)
    case WarmStart =>
      if r.finished then Move(r, Rest, false) else Move(r, Go(WarmOpen), false)
    case WarmOpen =>
      if now.ok then Move(r, Go(WarmCheck(0)), false)
      else if now.cancelled then Move(Abort(r), Rest, false)
      else Move(FailOpen(c, r), Rest, false)
    case WarmCheck(name) =>
      if now.cancelled then Move(Abort(r), Rest, false) else Move(r, Go(WarmAsk(name)), false)
    case WarmAsk(name) =>
      if now.cancelled then Move(Abort(r), Rest, false)
      else if name + 1 == WARMUPS then Move(r.(ready := true), Rest, false)
      else Move(r, Go(WarmCheck(name + 1)), false)
    case Measure =>
      if r.finished || !r.ready then Move(r, Rest, false)
      else if now.cancelled then Move(Abort(r), Rest, false)
      else Move(r, Go(Asking), false)
    case Asking =>
      if now.cancelled then Move(Abort(r), Rest, false)
      else Move(r.(observations := r.observations + [Sample(query, now.ok)]), Rest, true)
    case ProbeStart =>
      if !c.dnssec || !r.ready || now.cancelled then Move(r, Rest, false) else Move(r, Go(ProbeSigned), false)
    case ProbeSigned =>
      if now.cancelled then Move(r, Rest, false) else Move(r, Go(ProbeBogus), false)
    case ProbeBogus =>
      if now.cancelled then Move(r, Rest, false) else Move(r.(verdict := true), Rest, false)
  }

  /** A worker left alone: it steps until it is done with the runner or the
      readings run out. */
  function Drive(c: Config, query: Query, t: Task, r: Runner, readings: seq<Reading>): Move
    decreases |readings|
  {
    if readings == [] then Move(r, Go(t), false)
    else
      var step := Advance(c, query, t, r, readings[0]);
      if step.next.Rest? then step else Drive(c, query, step.next.task, step.runner, readings[1..])
  }

  lemma DriveOne(c: Config, query: Query, t: Task, r: Runner, readings: seq<Reading>, at: nat)
    requires at < |readings|
    ensures var step := Advance(c, query, t, r, readings[at]);
            Drive(c, query, t, r, readings[at..]) ==
            if step.next.Rest? then step else Drive(c, query, step.next.task, step.runner, readings[at + 1..])
  {
    assert readings[at..][0] == readings[at] && readings[at..][1..] == readings[at + 1..];
  }

  /** Where the readings of a cold probe start, when every earlier one went through: a
      probe whose session does not open takes one reading less. */
  function ProbeAt(readings: seq<Reading>, probe: nat): (at: nat)
    requires |readings| >= 3 * probe
    ensures at <= 3 * probe
  {
    if probe == 0 then 0
    else
      var at := ProbeAt(readings, probe - 1);
      at + if readings[at + 1].ok then 3 else 2
  }

  /** The session of the probe opened and its query was answered. */
  predicate Answered(readings: seq<Reading>, probe: nat)
    requires |readings| >= 3 * (probe + 1)
  {
    var at := ProbeAt(readings, probe);
    readings[at + 1].ok && readings[at + 2].ok
  }

  /** The entries added to a list are what the first probes met, in order. */
  predicate RecordedSince(readings: seq<Reading>, before: seq<bool>, after: seq<bool>)
    requires |readings| >= 3 * PROBES
  {
    && before <= after && |after| <= |before| + PROBES
    && forall p :: |before| <= p < |after| ==> after[p] == Answered(readings, p - |before|)
  }

  lemma RecordedNone(readings: seq<Reading>, cold: seq<bool>)
    requires |readings| >= 3 * PROBES
    ensures RecordedSince(readings, cold, cold)
  {
  }

  lemma RecordedStep(readings: seq<Reading>, first: seq<bool>, before: seq<bool>, after: seq<bool>, probe: nat)
    requires |readings| >= 3 * PROBES && probe < PROBES && |before| == |first| + probe
    requires RecordedSince(readings, first, before)
    requires after == before || after == before + [Answered(readings, probe)]
    ensures RecordedSince(readings, first, after)
  {
    hide Answered;
  }

  lemma ProbeStep(readings: seq<Reading>, probe: nat)
    requires |readings| >= 3 * (probe + 1)
    ensures var at := ProbeAt(readings, probe);
            && ProbeAt(readings, probe + 1) == (if readings[at + 1].ok then at + 3 else at + 2)
            && Answered(readings, probe) == (readings[at + 1].ok && readings[at + 2].ok)
  {
  }

  lemma AbortFinishes(r: Runner)
    ensures Abort(r).finished && Abort(r).cold == r.cold
  {
  }

  /** The runner itself, with the fields its methods update. Its methods are proved
      to do what the steps of a worker do; each returns how many readings it took. */
  class TargetRunner {
    const config: Config
    var ready: bool
    var finished: bool
    var incomplete: bool
    var openError: Diagnosis
    var observations: seq<Sample>
    var cold: seq<bool>
    var verdict: bool

    constructor (c: Config, made: Reading)
      ensures config == c
      ensures Value() == Advance(c, Query("", 0), Create, NEW, made).runner
      ensures made.ok ==> !finished && observations == [] && openError == Clean
      ensures !made.ok && !made.cancelled ==>
                finished && !incomplete && openError == OpenFailure && observations == Unanswered(c.queries)
      ensures !made.ok && made.cancelled ==> finished && incomplete && openError == Interruption
      ensures !ready && !verdict && cold == []
    {
      config := c;
      ready, finished, incomplete, openError := false, false, false, Clean;
      observations, cold, verdict := [], [], false;
      new;
      if !made.ok {
        if made.cancelled {
          MarkAborted();
          return;
        }
        openError, observations, finished := OpenFailure, Unanswered(c.queries), true;
      }
    }

    ghost function Value(): Runner
      reads this
    {
      Runner(ready, finished, incomplete, openError, observations, cold, verdict)
    }

    method MarkAborted()
      modifies this
      ensures Value() == Abort(old(Value()))
    {
      ready, finished := false, true;
      incomplete, openError := true, Interruption;
    }

    /** One cold probe, from its check to its record. A probe that finds the run
        cancelled records nothing; any other records one entry, which is a success when
        its session opened and its query was answered. */
    method ColdProbe(probe: nat, readings: seq<Reading>, at: nat) returns (alive: bool, next: nat)
      requires probe < PROBES && at + 3 <= |readings| && !finished
      modifies this
      ensures at < next <= at + 3 && (alive ==> !finished) && (!alive ==> finished)
      ensures next == if readings[at].cancelled then at + 1 else if readings[at + 1].ok then at + 3 else at + 2
      ensures readings[at].cancelled ==> cold == old(cold)
      ensures !readings[at].cancelled ==> cold == old(cold) + [readings[at + 1].ok && readings[at + 2].ok]
      ensures alive <==> !readings[at].cancelled && !readings[next - 1].cancelled
      ensures Drive(config, Query("", 0), ColdCheck(probe), old(Value()), readings[at..]) ==
              if alive && probe + 1 < PROBES
              then Drive(config, Query("", 0), ColdCheck(probe + 1), Value(), readings[next..])
              else Move(Value(), Rest, false)
    {
      hide Drive, Abort;
      ghost var q, was := Query("", 0), Value();
      next := at + 1;
      DriveOne(config, q, ColdCheck(probe), was, readings, at);
      if readings[at].cancelled {
        MarkAborted();
        AbortFinishes(was);
        return false, next;
      }
      next := at + 2;
      DriveOne(config, q, ColdOpen(probe), was, readings, at + 1);
      var answered := false;
      if readings[at + 1].ok {
        next := at + 3;
        DriveOne(config, q, ColdAsk(probe), was, readings, at + 2);
        answered := readings[at + 2].ok;
      }
      cold := cold + [answered];
      if readings[next - 1].cancelled {
        ghost var probed := Value();
        MarkAborted();
        AbortFinishes(probed);
        return false, next;
      }
      alive := true;
    }

    method PrepareCold(readings: seq<Reading>) returns (ok: bool, taken: nat)
      requires |readings| >= 3 * PROBES
      modifies this
      ensures taken <= |readings|
      ensures old(finished) ==> !ok && Value() == old(Value())
      ensures !old(finished) ==>
                Drive(config, Query("", 0), ColdCheck(0), old(Value()), readings) == Move(Value(), Rest, false)
      ensures !old(finished) ==> (ok <==> !finished)
      ensures RecordedSince(readings, old(cold), cold)
      ensures ok ==> |cold| == |old(cold)| + 3
    {
      hide Drive, RecordedSince;
      RecordedNone(readings, cold);
      taken := 0;
      if finished { return false, 0; }
      ghost var q, was := Query("", 0), Value();
      assert readings[0..] == readings;
      ok := true;
      for probe := 0 to PROBES
        invariant taken <= 3 * probe && ok && !finished
        invariant taken == ProbeAt(readings, probe)
        invariant |cold| == |old(cold)| + probe && RecordedSince(readings, old(cold), cold)
        invariant Drive(config, q, ColdCheck(0), was, readings) ==
                  if probe < PROBES then Drive(config, q, ColdCheck(probe), Value(), readings[taken..])
                  else Move(Value(), Rest, false)
      {
        hide Answered, ProbeAt;
        ghost var before := cold;
        ProbeStep(readings, probe);
        ok, taken := ColdProbe(probe, readings, taken);
        RecordedStep(readings, old(cold), before, cold, probe);
        if !ok { return; }
      }
    }

    method PrepareWarm(readings: seq<Reading>) returns (ok: bool, taken: nat)
      requires |readings| >= 7
      modifies this
      ensures taken <= |readings|
      ensures old(finished) ==> !ok && Value() == old(Value())
      ensures !old(finished) ==>
                Drive(config, Query("", 0), WarmOpen, old(Value()), readings) == Move(Value(), Rest, false)
      ensures (ok ==> ready) && (!old(finished) ==> (ok <==> !finished))
      ensures ok ==> taken == 7 && readings[0].ok && forall k :: 1 <= k < 7 ==> !readings[k].cancelled
      ensures !old(finished) && !ok ==>
                if readings[0].ok || readings[0].cancelled
                then incomplete && openError == Interruption && exists k :: 0 <= k < |readings| && readings[k].cancelled
                else openError == OpenFailure && observations == Unanswered(config.queries)
    {
      hide Drive;
      taken := 0;
      if finished { return false, 0; }
      ghost var q, was := Query("", 0), Value();
      assert readings[0..] == readings;
      DriveOne(config, q, WarmOpen, Value(), readings, 0);
      taken := 1;
      if !readings[0].ok {
        if readings[0].cancelled {
          MarkAborted();
          return false, taken;
        }
        openError, observations, finished := OpenFailure, Unanswered(config.queries), true;
        return false, taken;
      }
      for name := 0 to WARMUPS
        invariant taken == 1 + 2 * name && Value() == was
        invariant readings[0].ok && forall k :: 1 <= k < taken ==> !readings[k].cancelled
        invariant name < WARMUPS ==>
                    Drive(config, q, WarmOpen, was, readings) ==
                      Drive(config, q, WarmCheck(name), Value(), readings[taken..])
        invariant name == WARMUPS ==>
                    Drive(config, q, WarmOpen, was, readings) == Move(was.(ready := true), Rest, false)
      {
        DriveOne(config, q, WarmCheck(name), Value(), readings, taken);
        taken := taken + 1;
        if readings[taken - 1].cancelled {
          MarkAborted();
          return false, taken;
        }
        DriveOne(config, q, WarmAsk(name), Value(), readings, taken);
        taken := taken + 1;
        if readings[taken - 1].cancelled {
          MarkAborted();
          return false, taken;
        }
      }
      ready := true;
      ok := true;
    }

    method MeasureQuery(query: Query, readings: seq<Reading>) returns (counted: bool)
      requires |readings| >= 2
      modifies this
      ensures Drive(config, query, Measure, old(Value()), readings) == Move(Value(), Rest, counted)
      ensures counted <==> !old(finished) && old(ready) && !readings[0].cancelled && !readings[1].cancelled
      ensures observations == old(observations) + if counted then [Sample(query, readings[1].ok)] else []
      ensures !old(finished) && old(ready) && !counted ==> finished && !ready && incomplete
      ensures counted || old(finished) || !old(ready) ==> ready == old(ready) && finished == old(finished)
    {
      hide Drive;
      ghost var was := Value();
      assert readings[0..] == readings;
      DriveOne(config, query, Measure, was, readings, 0);
      DriveOne(config, query, Asking, was, readings, 1);
      if finished || !ready { return false; }
      if readings[0].cancelled {
        MarkAborted();
        return false;
      }
      if readings[1].cancelled {
        MarkAborted();
        return false;
      }
      observations := observations + [Sample(query, readings[1].ok)];
      counted := true;
    }

    method ProbeDnssec(readings: seq<Reading>) returns (probed: bool)
      requires |readings| >= 3
      modifies this`verdict
      ensures Drive(config, Query("", 0), ProbeStart, old(Value()), readings) == Move(Value(), Rest, false)
      ensures probed <==>
                config.dnssec && ready && !readings[0].cancelled && !readings[1].cancelled && !readings[2].cancelled
      ensures verdict == (old(verdict) || probed)
    {
      hide Drive;
      ghost var q, was := Query("", 0), Value();
      assert readings[0..] == readings;
      DriveOne(config, q, ProbeStart, was, readings, 0);
      DriveOne(config, q, ProbeSigned, was, readings, 1);
      DriveOne(config, q, ProbeBogus, was, readings, 2);
      if !config.dnssec || !ready || readings[0].cancelled { return false; }
      if readings[1].cancelled { return false; }
      if readings[2].cancelled { return false; }
      verdict := true;
      probed := true;
    }
  }
}
