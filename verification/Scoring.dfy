/** A target's statistics, derived from its observations, and the laws its
    counts and rates obey whatever was measured. */
module Scoring {
  import opened Orders
  import opened Bootstrap
  import opened RealScores
  import opened Report

  const MINIMUM_RECOMMENDED_SAMPLES: nat := 20
  const MINIMUM_RECOMMENDED_SUCCESS_RATE: real := 0.99

  function ResponseClassName(class_: string): string {
    if class_ == "" then "unknown" else class_
  }

  predicate Usable(o: Observation) {
    && o.success && !o.truncated
    && (o.usable || (o.rcode == 0 && o.responseClass in ["", "answer", "nodata", "nxdomain"]))
  }

  /** What one observation contributes to the score. */
  datatype Treatment = Scored | LatencyExcluded | FailurePenalized

  function TreatmentOf(o: Observation): Treatment {
    Treat(o, Usable(o))
  }

  /** Valid divergent responses and responses right after a reconnect are not
      ordinary warm samples; unusable responses stay failures even when divergent. */
  function Treat(o: Observation, usable: bool): Treatment {
    if o.success && !o.truncated && usable then
      if o.divergent || o.reconnected then LatencyExcluded else Scored
    else FailurePenalized
  }

  // ----- counting -----

  /** The classes of observations the counts and their laws speak of. */
  datatype Class =
    | Everything
    | Succeeded
    | FailedQuery
    | WasTruncated
    | TruncatedSuccess
    | NotTruncatedSuccess
    | WholeSuccess
    | WasUsable
    | WasRefused
    | CarriedAnswer
    | Diverged
    | WasReconnected
    | Treated(treatment: Treatment)
    | NotScored
    | WithCode

  predicate In(o: Observation, c: Class) {
    match c
    case Everything => true
    case Succeeded => o.success
    case FailedQuery => !o.success
    case WasTruncated => o.truncated
    case TruncatedSuccess => o.success && o.truncated
    case NotTruncatedSuccess => !(o.success && o.truncated)
    case WholeSuccess => o.success && !o.truncated
    case WasUsable => Usable(o)
    case WasRefused => o.success && !o.truncated && !Usable(o)
    case CarriedAnswer => Usable(o) && o.responseClass == "answer"
    case Diverged => o.divergent
    case WasReconnected => o.reconnected
    case Treated(t) => TreatmentOf(o) == t
    case NotScored => TreatmentOf(o) != Scored
    case WithCode => HasCode(o)
  }

  /** A whole response that says anything about its response code. */
  predicate HasCode(o: Observation) {
    o.success && !o.truncated && (o.responseClass != "" || o.rcode != 0 || o.usable)
  }

  /** How many of the first k observations are in the class. */
  function Number(obs: seq<Observation>, c: Class, k: nat): nat
    requires k <= |obs|
  {
    if k == 0 then 0 else Number(obs, c, k - 1) + if In(obs[k - 1], c) then 1 else 0
  }

  /** How many of the first k observations carry the response code of that name. */
  function CodeNumber(obs: seq<Observation>, codeName: int -> string, code: string, k: nat): nat
    requires k <= |obs|
  {
    if k == 0 then 0
    else
      var hit := HasCode(obs[k - 1]) && codeName(obs[k - 1].rcode) == code;
      CodeNumber(obs, codeName, code, k - 1) + if hit then 1 else 0
  }

  /** The codes seen among the first k observations, each with its number. */
  ghost predicate CodesCounted(obs: seq<Observation>, codeName: int -> string, codes: map<string, nat>, k: nat)
    requires k <= |obs|
  {
    && (forall code :: code in codes <==> CodeNumber(obs, codeName, code, k) > 0)
    && forall code :: code in codes ==> codes[code] == CodeNumber(obs, codeName, code, k)
  }

  /** The score samples of the first k observations: excluded ones leave none. */
  function SamplesOf(obs: seq<Observation>, k: nat): seq<Sample<real>>
    requires k <= |obs|
  {
    if k == 0 then []
    else
      var front := SamplesOf(obs, k - 1);
      match TreatmentOf(obs[k - 1])
      case Scored => front + [Answered(obs[k - 1].latency)]
      case LatencyExcluded => front
      case FailurePenalized => front + [Failed]
  }

  /** The counts over the first k observations. */
  function CountsUpTo(obs: seq<Observation>, k: nat): Counts
    requires k <= |obs|
  {
    Counts(|obs|, Number(obs, Succeeded, k), Number(obs, FailedQuery, k), Number(obs, WasUsable, k),
           Number(obs, WasRefused, k), Number(obs, CarriedAnswer, k), Number(obs, Treated(Scored), k),
           Number(obs, Diverged, k), Number(obs, WasTruncated, k), Number(obs, WasReconnected, k))
  }

  function CountsOfObservations(obs: seq<Observation>): Counts {
    CountsUpTo(obs, |obs|)
  }

  function One(o: Observation, c: Class): nat {
    if In(o, c) then 1 else 0
  }

  lemma NumberStep(obs: seq<Observation>, c: Class, k: nat)
    requires k < |obs|
    ensures Number(obs, c, k + 1) == Number(obs, c, k) + One(obs[k], c)
  {
  }

  lemma ObservationStep(obs: seq<Observation>, k: nat)
    requires k < |obs|
    ensures Number(obs, Treated(Scored), k + 1) ==
            Number(obs, Treated(Scored), k) + if TreatmentOf(obs[k]) == Scored then 1 else 0
    ensures Number(obs, Treated(FailurePenalized), k + 1) ==
            Number(obs, Treated(FailurePenalized), k) + if TreatmentOf(obs[k]) == FailurePenalized then 1 else 0
    ensures SamplesOf(obs, k + 1) ==
            match TreatmentOf(obs[k])
            case Scored => SamplesOf(obs, k) + [Answered(obs[k].latency)]
            case LatencyExcluded => SamplesOf(obs, k)
            case FailurePenalized => SamplesOf(obs, k) + [Failed]
  {
  }

  /** The request counters of one observation. */
  method CountRequest(o: Observation) returns (success: nat, failure: nat, truncated: nat, reconnect: nat)
    ensures success == One(o, Succeeded) && failure == One(o, FailedQuery)
    ensures truncated == One(o, WasTruncated) && reconnect == One(o, WasReconnected)
  {
    success, failure, truncated, reconnect := 0, 0, 0, 0;
    if o.success { success := 1; }
    if !o.success { failure := 1; }
    if o.truncated { truncated := 1; }
    if o.reconnected { reconnect := 1; }
  }

  /** The response counters of one observation. */
  method CountResponse(o: Observation, usable: bool) returns (usableOne: nat, answer: nat, refused: nat, divergent: nat)
    requires usable == Usable(o)
    ensures usableOne == One(o, WasUsable) && answer == One(o, CarriedAnswer)
    ensures refused == One(o, WasRefused) && divergent == One(o, Diverged)
  {
    usableOne, answer, refused, divergent := 0, 0, 0, 0;
    if o.success && !o.truncated && usable {
      usableOne := 1;
      if ResponseClassName(o.responseClass) == "answer" { answer := 1; }
    }
    if o.success && !o.truncated && !usable { refused := 1; }
    if o.divergent { divergent := 1; }
  }

  /** The response-code counter of one observation. */
  method CountCode(obs: seq<Observation>, codeName: int -> string, codes: map<string, nat>, k: nat)
    returns (r: map<string, nat>)
    requires k < |obs| && CodesCounted(obs, codeName, codes, k)
    ensures CodesCounted(obs, codeName, r, k + 1)
  {
    r := codes;
    if HasCode(obs[k]) {
      var code := codeName(obs[k].rcode);
      r := r[code := (if code in r then r[code] else 0) + 1];
    }
  }

  /** The loop of calculateStatistics, one pass over the observations. */
  method CountObservations(obs: seq<Observation>, codeName: int -> string)
    returns (counts: Counts, samples: seq<Sample<real>>, scoringFailures: nat, codes: map<string, nat>)
    ensures CodesCounted(obs, codeName, codes, |obs|)
    ensures counts.total == |obs|
    ensures counts == CountsOfObservations(obs)
    ensures samples == SamplesOf(obs, |obs|)
    ensures scoringFailures == Number(obs, Treated(FailurePenalized), |obs|)
  {
    var successes, failures, truncated, reconnects := 0, 0, 0, 0;
    var usableResponses, answers, resolverFailures, divergent := 0, 0, 0, 0;
    var scored := 0;
    scoringFailures := 0;
    samples, codes := [], map[];
    for i := 0 to |obs|
      invariant successes == Number(obs, Succeeded, i) && failures == Number(obs, FailedQuery, i)
      invariant truncated == Number(obs, WasTruncated, i) && reconnects == Number(obs, WasReconnected, i)
      invariant usableResponses == Number(obs, WasUsable, i) && answers == Number(obs, CarriedAnswer, i)
      invariant resolverFailures == Number(obs, WasRefused, i) && divergent == Number(obs, Diverged, i)
      invariant scored == Number(obs, Treated(Scored), i)
      invariant scoringFailures == Number(obs, Treated(FailurePenalized), i)
      invariant samples == SamplesOf(obs, i)
      invariant CodesCounted(obs, codeName, codes, i)
    {
      hide Number, SamplesOf, In, One, TreatmentOf, CodesCounted;
      var o := obs[i];
      var usable := Usable(o);
      var s, f, t, r := CountRequest(o);
      var u, a, n, d := CountResponse(o, usable);
      NumberStep(obs, Succeeded, i);
      NumberStep(obs, FailedQuery, i);
      NumberStep(obs, WasTruncated, i);
      NumberStep(obs, WasReconnected, i);
      NumberStep(obs, WasUsable, i);
      NumberStep(obs, CarriedAnswer, i);
      NumberStep(obs, WasRefused, i);
      NumberStep(obs, Diverged, i);
      successes, failures, truncated, reconnects := successes + s, failures + f, truncated + t, reconnects + r;
      usableResponses, answers := usableResponses + u, answers + a;
      resolverFailures, divergent := resolverFailures + n, divergent + d;
      codes := CountCode(obs, codeName, codes, i);
      ObservationStep(obs, i);
      assert Treat(o, usable) == TreatmentOf(o) by { TreatmentIs(o); }
      match Treat(o, usable)
      case LatencyExcluded =>
      case Scored =>
        scored := scored + 1;
        samples := samples + [Answered(o.latency)];
      case FailurePenalized =>
        scoringFailures := scoringFailures + 1;
        samples := samples + [Failed];
    }
    counts := Counts(|obs|, successes, failures, usableResponses, resolverFailures, answers, scored, divergent,
                     truncated, reconnects);
  }

  lemma TreatmentIs(o: Observation)
    ensures TreatmentOf(o) == Treat(o, Usable(o))
  {
  }

  // ----- conservation -----

  /** A class of observations that splits in two is counted by its parts. */
  lemma {:induction false} NumberSplits(obs: seq<Observation>, p: Class, q: Class, r: Class, k: nat)
    requires k <= |obs|
    requires forall o :: o in obs ==> (In(o, p) <==> In(o, q) || In(o, r)) && !(In(o, q) && In(o, r))
    ensures Number(obs, p, k) == Number(obs, q, k) + Number(obs, r, k)
  {
    if k > 0 {
      NumberSplits(obs, p, q, r, k - 1);
      assert obs[k - 1] in obs;
    }
  }

  lemma {:induction false} NumberWithin(obs: seq<Observation>, p: Class, q: Class, k: nat)
    requires k <= |obs| && forall o :: o in obs ==> In(o, p) ==> In(o, q)
    ensures Number(obs, p, k) <= Number(obs, q, k) <= k
  {
    if k > 0 {
      NumberWithin(obs, p, q, k - 1);
      assert obs[k - 1] in obs;
    }
  }

  lemma {:induction false} NumberAll(obs: seq<Observation>, p: Class, k: nat)
    requires k <= |obs|
    ensures Number(obs, p, k) <= k
    ensures Number(obs, p, k) == k <==> forall i :: 0 <= i < k ==> In(obs[i], p)
  {
    if k > 0 { NumberAll(obs, p, k - 1); }
  }

  /** As the measured rounds build them: a truncated response is never a success. */
  ghost predicate AsMeasured(obs: seq<Observation>) {
    forall i :: 0 <= i < |obs| ==> !(obs[i].success && obs[i].truncated)
  }

  lemma SuccessOrFailure(obs: seq<Observation>, n: nat)
    requires n == |obs|
    ensures n == Number(obs, Succeeded, n) + Number(obs, FailedQuery, n)
  {
    NumberAll(obs, Everything, n);
    NumberSplits(obs, Everything, Succeeded, FailedQuery, n);
  }

  lemma TreatedOneWay(obs: seq<Observation>, n: nat)
    requires n == |obs|
    ensures n == Number(obs, Treated(Scored), n) + Number(obs, Treated(LatencyExcluded), n) +
            Number(obs, Treated(FailurePenalized), n)
  {
    NumberAll(obs, Everything, n);
    NumberSplits(obs, Everything, Treated(Scored), NotScored, n);
    NumberSplits(obs, NotScored, Treated(LatencyExcluded), Treated(FailurePenalized), n);
  }

  /** Every observation is a success or a failure, and every observation is
      scored, excluded or penalized. */
  lemma EveryObservationCounted(obs: seq<Observation>)
    ensures var c := CountsOfObservations(obs);
            && c.total == c.successes + c.failures
            && c.total == c.scored + Number(obs, Treated(LatencyExcluded), |obs|) +
               Number(obs, Treated(FailurePenalized), |obs|)
  {
    SuccessOrFailure(obs, |obs|);
    TreatedOneWay(obs, |obs|);
  }

  /** Usable and refused responses make up the successes exactly when no success
      was truncated, which is how the measured rounds build observations. */
  lemma SuccessesAccountedFor(obs: seq<Observation>)
    ensures var c := CountsOfObservations(obs);
            c.usableResponses + c.resolverFailures == c.successes <==> AsMeasured(obs)
  {
    var n := |obs|;
    NumberSplits(obs, WholeSuccess, WasUsable, WasRefused, n);
    NumberSplits(obs, Succeeded, WholeSuccess, TruncatedSuccess, n);
    NumberSplits(obs, Everything, TruncatedSuccess, NotTruncatedSuccess, n);
    NumberAll(obs, Everything, n);
    NumberAll(obs, NotTruncatedSuccess, n);
  }

  /** The numbers of the first j codes of a list, added up. */
  function CodeSum(obs: seq<Observation>, codeName: int -> string, codes: seq<string>, j: nat, k: nat): nat
    requires j <= |codes| && k <= |obs|
  {
    if j == 0 then 0 else CodeSum(obs, codeName, codes, j - 1, k) + CodeNumber(obs, codeName, codes[j - 1], k)
  }

  lemma {:induction false} CodeSumStep(obs: seq<Observation>, codeName: int -> string, codes: seq<string>, j: nat,
                                       k: nat)
    requires j <= |codes| && k < |obs| && Distinct(codes)
    ensures var hit := HasCode(obs[k]) && codeName(obs[k].rcode) in codes[..j];
            CodeSum(obs, codeName, codes, j, k + 1) == CodeSum(obs, codeName, codes, j, k) + if hit then 1 else 0
  {
    if j > 0 {
      hide HasCode;
      CodeSumStep(obs, codeName, codes, j - 1, k);
      assert codes[..j] == codes[..j - 1] + [codes[j - 1]];
      assert codes[j - 1] !in codes[..j - 1];
    }
  }

  lemma {:induction false} CodeSumIs(obs: seq<Observation>, codeName: int -> string, codes: seq<string>, k: nat)
    requires k <= |obs| && Distinct(codes)
    requires forall i :: 0 <= i < |obs| && HasCode(obs[i]) ==> codeName(obs[i].rcode) in codes
    ensures CodeSum(obs, codeName, codes, |codes|, k) == Number(obs, WithCode, k)
  {
    hide HasCode;
    if k == 0 {
      CodeSumZero(obs, codeName, codes, |codes|);
    } else {
      CodeSumIs(obs, codeName, codes, k - 1);
      CodeSumStep(obs, codeName, codes, |codes|, k - 1);
      assert codes[..|codes|] == codes;
    }
  }

  lemma {:induction false} CodeSumZero(obs: seq<Observation>, codeName: int -> string, codes: seq<string>, j: nat)
    requires j <= |codes|
    ensures CodeSum(obs, codeName, codes, j, 0) == 0
  {
    if j > 0 { CodeSumZero(obs, codeName, codes, j - 1); }
  }

  lemma {:induction false} CodeSeen(obs: seq<Observation>, codeName: int -> string, i: nat, k: nat)
    requires i < k <= |obs| && HasCode(obs[i])
    ensures CodeNumber(obs, codeName, codeName(obs[i].rcode), k) > 0
  {
    if i < k - 1 { CodeSeen(obs, codeName, i, k - 1); }
  }

  /** The response-code counts, listed once each, add up to the responses that carry a
      code; measured responses always name their class, so to the usable and refused
      responses together. */
  lemma CodesAddUp(obs: seq<Observation>, codeName: int -> string, codes: map<string, nat>, listed: seq<string>)
    requires CodesCounted(obs, codeName, codes, |obs|)
    requires Distinct(listed) && forall code :: code in listed <==> code in codes
    ensures CodeSum(obs, codeName, listed, |listed|, |obs|) == Number(obs, WithCode, |obs|)
    ensures var c := CountsOfObservations(obs);
            (forall o :: o in obs && o.success ==> o.responseClass != "") ==>
              CodeSum(obs, codeName, listed, |listed|, |obs|) == c.usableResponses + c.resolverFailures
  {
    forall i | 0 <= i < |obs| && HasCode(obs[i]) ensures codeName(obs[i].rcode) in listed {
      CodeSeen(obs, codeName, i, |obs|);
    }
    hide CodeSum, Number, HasCode, CodesCounted, In;
    CodeSumIs(obs, codeName, listed, |obs|);
    if forall o :: o in obs && o.success ==> o.responseClass != "" { NamedResponses(obs); }
  }

  lemma NamedResponses(obs: seq<Observation>)
    requires forall o :: o in obs && o.success ==> o.responseClass != ""
    ensures Number(obs, WithCode, |obs|) == Number(obs, WasUsable, |obs|) + Number(obs, WasRefused, |obs|)
  {
    NumberSplits(obs, WithCode, WasUsable, WasRefused, |obs|);
  }

  lemma CountsOrdered(obs: seq<Observation>)
    ensures var c := CountsOfObservations(obs);
            c.scored <= c.usableResponses <= c.successes <= c.total && c.answers <= c.usableResponses
            && c.failures <= c.total && c.resolverFailures <= c.successes
  {
    NumberWithin(obs, Treated(Scored), WasUsable, |obs|);
    NumberWithin(obs, CarriedAnswer, WasUsable, |obs|);
    NumberWithin(obs, WasUsable, Succeeded, |obs|);
    NumberWithin(obs, WasRefused, Succeeded, |obs|);
    NumberWithin(obs, FailedQuery, FailedQuery, |obs|);
  }

  lemma {:induction false} SamplesMatchCounts(obs: seq<Observation>, k: nat)
    requires k <= |obs|
    ensures var s := SamplesOf(obs, k);
            && |s| == Number(obs, Treated(Scored), k) + Number(obs, Treated(FailurePenalized), k)
            && Failures(s, |s|) == Number(obs, Treated(FailurePenalized), k)
            && |Latencies(s, |s|)| == Number(obs, Treated(Scored), k)
  {
    if k > 0 {
      SamplesMatchCounts(obs, k - 1);
      var s, t := SamplesOf(obs, k - 1), SamplesOf(obs, k);
      if |t| > |s| {
        LatenciesSame(s, t, |s|);
        LatenciesAndFailures(s, |s|);
        LatenciesAndFailures(t, |s|);
      }
    }
  }

  // ----- one more observation -----

  /** A whole response that is worth something: it says so, or it is NOERROR and an
      answer, no data, no such name, or of no recorded class. */
  predicate Worth(o: Observation) {
    && o.success && !o.truncated
    && (o.usable || (o.rcode == 0 && (o.responseClass == "" || o.responseClass == "answer" ||
                                      o.responseClass == "nodata" || o.responseClass == "nxdomain")))
  }

  predicate OrdinaryWarm(o: Observation) {
    Worth(o) && !o.divergent && !o.reconnected
  }

  function Tick(b: bool): nat {
    if b then 1 else 0
  }

  /** What one more observation adds to every counter and to the score's samples. A
      response of worth that diverges or follows a reconnect is counted, but neither
      scored nor held against the target; anything worthless is a failure of the score. */
  lemma OneMoreObservation(obs: seq<Observation>, o: Observation, codeName: int -> string, code: string)
    ensures var c, d := CountsOfObservations(obs), CountsOfObservations(obs + [o]);
            && d.total == c.total + 1
            && d.successes == c.successes + Tick(o.success) && d.failures == c.failures + Tick(!o.success)
            && d.truncated == c.truncated + Tick(o.truncated) && d.reconnects == c.reconnects + Tick(o.reconnected)
            && d.divergent == c.divergent + Tick(o.divergent)
            && d.usableResponses == c.usableResponses + Tick(Worth(o))
            && d.answers == c.answers + Tick(Worth(o) && o.responseClass == "answer")
            && d.resolverFailures == c.resolverFailures + Tick(o.success && !o.truncated && !Worth(o))
            && d.scored == c.scored + Tick(OrdinaryWarm(o))
    ensures SamplesOf(obs + [o], |obs| + 1) == SamplesOf(obs, |obs|) +
              (if OrdinaryWarm(o) then [Answered(o.latency)] else if Worth(o) then [] else [Failed])
    ensures CodeNumber(obs + [o], codeName, code, |obs| + 1) == CodeNumber(obs, codeName, code, |obs|) +
              Tick(o.success && !o.truncated && codeName(o.rcode) == code &&
                   (o.responseClass != "" || o.rcode != 0 || o.usable))
  {
    hide Number, SamplesOf, CodeNumber;
    NumberNext(obs, o, Succeeded);
    NumberNext(obs, o, FailedQuery);
    NumberNext(obs, o, WasTruncated);
    NumberNext(obs, o, WasReconnected);
    NumberNext(obs, o, Diverged);
    NumberNext(obs, o, WasUsable);
    NumberNext(obs, o, CarriedAnswer);
    NumberNext(obs, o, WasRefused);
    NumberNext(obs, o, Treated(Scored));
    SamplesNext(obs, o);
    CodesNext(obs, o, codeName, code);
    assert Worth(o) <==> Usable(o);
  }

  lemma {:induction false} NumberPrefix(obs: seq<Observation>, o: Observation, c: Class, k: nat)
    requires k <= |obs|
    ensures Number(obs + [o], c, k) == Number(obs, c, k)
  {
    if k > 0 { NumberPrefix(obs, o, c, k - 1); }
  }

  lemma NumberNext(obs: seq<Observation>, o: Observation, c: Class)
    ensures Number(obs + [o], c, |obs| + 1) == Number(obs, c, |obs|) + Tick(In(o, c))
  {
    hide In;
    NumberPrefix(obs, o, c, |obs|);
  }

  lemma {:induction false} SamplesPrefix(obs: seq<Observation>, o: Observation, k: nat)
    requires k <= |obs|
    ensures SamplesOf(obs + [o], k) == SamplesOf(obs, k)
  {
    if k > 0 { SamplesPrefix(obs, o, k - 1); }
  }

  lemma SamplesNext(obs: seq<Observation>, o: Observation)
    ensures SamplesOf(obs + [o], |obs| + 1) == SamplesOf(obs, |obs|) +
              match TreatmentOf(o)
              case Scored => [Answered(o.latency)]
              case LatencyExcluded => []
              case FailurePenalized => [Failed]
  {
    hide TreatmentOf;
    SamplesPrefix(obs, o, |obs|);
  }

  lemma {:induction false} CodesPrefix(obs: seq<Observation>, o: Observation, codeName: int -> string, code: string,
                                       k: nat)
    requires k <= |obs|
    ensures CodeNumber(obs + [o], codeName, code, k) == CodeNumber(obs, codeName, code, k)
  {
    if k > 0 { CodesPrefix(obs, o, codeName, code, k - 1); }
  }

  lemma CodesNext(obs: seq<Observation>, o: Observation, codeName: int -> string, code: string)
    ensures CodeNumber(obs + [o], codeName, code, |obs| + 1) ==
            CodeNumber(obs, codeName, code, |obs|) + Tick(HasCode(o) && codeName(o.rcode) == code)
  {
    hide HasCode;
    CodesPrefix(obs, o, codeName, code, |obs|);
  }

  // ----- the statistics -----

  function RateOf(k: nat, n: nat): real {
    if n == 0 then 0.0 else k as real / n as real
  }

  function Deviations(sorted: seq<real>, median: real): (r: seq<real>)
    ensures |r| == |sorted|
    ensures forall i :: 0 <= i < |r| ==> 0.0 <= r[i]
  {
    seq(|sorted|, i requires 0 <= i < |sorted| => if sorted[i] >= median then sorted[i] - median
                                                  else median - sorted[i])
  }

  function ColdLatencies(cold: seq<ColdObservation>, k: nat): seq<real>
    requires k <= |cold|
  {
    if k == 0 then []
    else if cold[k - 1].success then ColdLatencies(cold, k - 1) + [cold[k - 1].latency]
    else ColdLatencies(cold, k - 1)
  }

  function Ordered(values: seq<real>): (r: seq<real>)
    ensures |r| == |values|
  {
    Sort(values, Exact().le)
  }

  function RatesOf(counts: Counts, scoringFailures: nat, samples: nat): Rates {
    Rates(RateOf(counts.successes, counts.total), RateOf(counts.failures, counts.total),
          RateOf(counts.usableResponses, counts.total), RateOf(counts.answers, counts.total),
          RateOf(counts.resolverFailures, counts.total), RateOf(scoringFailures, samples))
  }

  function LatencyOf(samples: seq<Sample<real>>, cold: seq<ColdObservation>): Latency {
    var sorted, coldSorted := Ordered(Latencies(samples, |samples|)), Ordered(ColdLatencies(cold, |cold|));
    var coldMedian := RealPercentile(coldSorted, P50);
    if sorted == [] then Latency(0.0, 0.0, 0.0, 0.0, 0.0, coldMedian)
    else
      var median := RealPercentile(sorted, P50);
      Latency(median, RealPercentile(sorted, P95), sorted[0], sorted[|sorted| - 1],
              RealPercentile(Ordered(Deviations(sorted, median)), P50), coldMedian)
  }

  predicate RecommendedOf(result: TargetResult, counts: Counts, usableRate: real) {
    && !result.target.local && !result.incomplete
    && counts.scored >= MINIMUM_RECOMMENDED_SAMPLES && usableRate >= MINIMUM_RECOMMENDED_SUCCESS_RATE
  }

  /** Draws for one target: every replicate draws as many samples as there are. */
  ghost predicate Draws(draws: seq<seq<nat>>, n: nat) {
    |draws| == BOOTSTRAP_ITERATIONS && forall i :: 0 <= i < |draws| ==> |draws[i]| == n && Below(draws[i], n)
  }

  function StatisticsOf(result: TargetResult, timeout: real, draws: seq<seq<nat>>): Statistics
    requires Draws(draws, |SamplesOf(result.observations, |result.observations|)|)
  {
    var obs := result.observations;
    var counts, samples := CountsOfObservations(obs), SamplesOf(obs, |obs|);
    var rates := RatesOf(counts, Number(obs, Treated(FailurePenalized), |obs|), |samples|);
    var scores := Latencies(samples, |samples|) != [];
    var interval := if scores then Interval(samples, timeout, draws) else (0.0, 0.0);
    Statistics(counts, rates, LatencyOf(samples, result.cold),
               if scores then RealScore(samples, timeout) else 0.0,
               interval.0, interval.1, RecommendedOf(result, counts, rates.usable), false)
  }

  /** calculateStatistics; the response-code counts are kept beside the rest, by the
      names codeName gives them. order is what sorting the latencies for the bootstrap
      left; any ascending permutation gives the same statistics. */
  method CalculateStatistics(result: TargetResult, timeout: real, codeName: int -> string, order: seq<nat>,
                             draws: seq<seq<nat>>)
    returns (stats: Statistics, codes: map<string, nat>)
    requires Draws(draws, |SamplesOf(result.observations, |result.observations|)|)
    requires var samples := SamplesOf(result.observations, |result.observations|);
             SortedOrder(Latencies(samples, |samples|), order, Exact().le)
    ensures stats == StatisticsOf(result, timeout, draws)
    ensures CodesCounted(result.observations, codeName, codes, |result.observations|)
  {
    hide CodesCounted;
    var counts, samples, scoringFailures;
    counts, samples, scoringFailures, codes := CountObservations(result.observations, codeName);
    var rates := RatesOf(counts, scoringFailures, |samples|);
    var score, low, high := 0.0, 0.0, 0.0;
    ExactLawful();
    if |Latencies(samples, |samples|)| > 0 {
      score := ScoreFromSamples(Exact(), samples, timeout);
      low, high := BootstrapCI(Exact(), samples, timeout, order, draws);
    }
    stats := Statistics(counts, rates, LatencyOf(samples, result.cold), score, low, high,
                        RecommendedOf(result, counts, rates.usable), false);
  }

  // ----- what a report may publish -----

  /** The publisher's numeric checks on one target's statistics. */
  ghost predicate Publishable(s: Statistics) {
    && s.counts.total > 0
    && s.counts.successes + s.counts.failures == s.counts.total
    && s.counts.usableResponses <= s.counts.successes
    && s.counts.scored <= s.counts.usableResponses
    && 0.0 <= s.rates.success <= 1.0 && 0.0 <= s.rates.failure <= 1.0 && 0.0 <= s.rates.usable <= 1.0
    && 0.0 <= s.rates.resolverFailure <= 1.0 && 0.0 <= s.rates.scoringFailure <= 1.0
    && 0.0 <= s.latency.median && 0.0 <= s.latency.p95 && 0.0 <= s.latency.min && 0.0 <= s.latency.max
    && 0.0 <= s.latency.mad && 0.0 <= s.latency.coldMedian
    && 0.0 <= s.score && 0.0 <= s.ciLow && 0.0 <= s.ciHigh
  }

  ghost predicate TimesNonNegative(result: TargetResult) {
    && (forall i :: 0 <= i < |result.observations| ==> 0.0 <= result.observations[i].latency)
    && (forall i :: 0 <= i < |result.cold| ==> 0.0 <= result.cold[i].latency)
  }

  ghost predicate NonNegative(s: seq<real>) {
    forall i :: 0 <= i < |s| ==> 0.0 <= s[i]
  }

  lemma RateOfBounds(k: nat, n: nat)
    requires k <= n
    ensures 0.0 <= RateOf(k, n) <= 1.0
  {
    if n > 0 { QuotientBounds(k as real, n as real); }
  }

  lemma OrderedNonNegative(s: seq<real>)
    requires NonNegative(s)
    ensures NonNegative(Ordered(s)) && Increasing(Ordered(s))
  {
    SortMultiset(s, Exact().le);
    SameElements(s, Ordered(s));
    forall i | 0 <= i < |Ordered(s)| ensures 0.0 <= Ordered(s)[i] { assert Ordered(s)[i] in Ordered(s); }
    SortedIncreasing(s);
  }

  lemma PercentileNonNegative(s: seq<real>, level: Level)
    requires NonNegative(s)
    ensures 0.0 <= RealPercentile(Ordered(s), level)
  {
    OrderedNonNegative(s);
    if s != [] { PercentileBetween(Ordered(s), level); }
  }

  lemma {:induction false} SamplesNonNegative(obs: seq<Observation>, k: nat)
    requires k <= |obs| && forall i :: 0 <= i < |obs| ==> 0.0 <= obs[i].latency
    ensures forall i :: 0 <= i < |SamplesOf(obs, k)| && SamplesOf(obs, k)[i].Answered? ==>
              0.0 <= SamplesOf(obs, k)[i].latency
  {
    if k > 0 { SamplesNonNegative(obs, k - 1); }
  }

  /** A common upper bound of the answered samples. */
  lemma {:induction false} SlowestSample(samples: seq<Sample<real>>, k: nat) returns (hi: real)
    requires k <= |samples|
    ensures 0.0 <= hi && forall i :: 0 <= i < k && samples[i].Answered? ==> samples[i].latency <= hi
  {
    if k == 0 {
      hi := 0.0;
    } else {
      hi := SlowestSample(samples, k - 1);
      if samples[k - 1].Answered? && samples[k - 1].latency > hi { hi := samples[k - 1].latency; }
    }
  }

  lemma {:induction false} CollectedNonNegative(samples: seq<Sample<real>>, k: nat)
    requires k <= |samples| && forall i :: 0 <= i < |samples| && samples[i].Answered? ==> 0.0 <= samples[i].latency
    ensures NonNegative(Latencies(samples, k))
  {
    if k > 0 { CollectedNonNegative(samples, k - 1); }
  }

  lemma {:induction false} ColdNonNegative(cold: seq<ColdObservation>, k: nat)
    requires k <= |cold| && forall i :: 0 <= i < |cold| ==> 0.0 <= cold[i].latency
    ensures NonNegative(ColdLatencies(cold, k))
  {
    if k > 0 { ColdNonNegative(cold, k - 1); }
  }

  lemma LatencyNonNegative(samples: seq<Sample<real>>, cold: seq<ColdObservation>)
    requires forall i :: 0 <= i < |samples| && samples[i].Answered? ==> 0.0 <= samples[i].latency
    requires forall i :: 0 <= i < |cold| ==> 0.0 <= cold[i].latency
    ensures var l := LatencyOf(samples, cold);
            0.0 <= l.median && 0.0 <= l.p95 && 0.0 <= l.min && 0.0 <= l.max && 0.0 <= l.mad && 0.0 <= l.coldMedian
  {
    ColdNonNegative(cold, |cold|);
    PercentileNonNegative(ColdLatencies(cold, |cold|), P50);
    CollectedNonNegative(samples, |samples|);
    var latencies := Latencies(samples, |samples|);
    OrderedNonNegative(latencies);
    PercentileNonNegative(latencies, P50);
    PercentileNonNegative(latencies, P95);
    var median := RealPercentile(Ordered(latencies), P50);
    PercentileNonNegative(Deviations(Ordered(latencies), median), P50);
  }

  lemma ScoresNonNegative(samples: seq<Sample<real>>, timeout: real, draws: seq<seq<nat>>)
    requires Draws(draws, |samples|) && Latencies(samples, |samples|) != [] && 0.0 <= timeout
    requires forall i :: 0 <= i < |samples| && samples[i].Answered? ==> 0.0 <= samples[i].latency
    ensures 0.0 <= RealScore(samples, timeout)
    ensures 0.0 <= Interval(samples, timeout, draws).0 <= Interval(samples, timeout, draws).1
  {
    var hi := SlowestSample(samples, |samples|);
    LatenciesAndFailures(samples, |samples|);
    ScoreBounds(samples, timeout, 0.0, hi);
    IntervalBounds(samples, timeout, draws, 0.0, hi);
    IntervalOrdered(samples, timeout, draws);
  }

  /** Any measured target passes every numeric check of the publisher. */
  lemma StatisticsPublishable(result: TargetResult, timeout: real, draws: seq<seq<nat>>)
    requires Draws(draws, |SamplesOf(result.observations, |result.observations|)|)
    requires |result.observations| > 0 && TimesNonNegative(result) && 0.0 <= timeout
    ensures Publishable(StatisticsOf(result, timeout, draws))
    ensures StatisticsOf(result, timeout, draws).ciLow <= StatisticsOf(result, timeout, draws).ciHigh
  {
    var obs := result.observations;
    var n := |obs|;
    var c, samples := CountsOfObservations(obs), SamplesOf(obs, n);
    EveryObservationCounted(obs);
    CountsOrdered(obs);
    SamplesMatchCounts(obs, n);
    SamplesNonNegative(obs, n);
    LatencyNonNegative(samples, result.cold);
    RateOfBounds(c.successes, c.total);
    RateOfBounds(c.failures, c.total);
    RateOfBounds(c.usableResponses, c.total);
    RateOfBounds(c.resolverFailures, c.total);
    RateOfBounds(Number(obs, Treated(FailurePenalized), n), |samples|);
    if Latencies(samples, |samples|) != [] { ScoresNonNegative(samples, timeout, draws); }
  }
}
