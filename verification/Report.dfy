/** The measured data a report carries. Latencies and rates are exact. */
module Report {

  datatype Query = Query(name: string, qtype: nat)

  datatype Observation = Observation(
    query: Query,
    latency: real,
    success: bool,
    usable: bool,
    rcode: int,
    truncated: bool,
    responseClass: string,
    divergent: bool,
    baseline: string,
    reconnected: bool)

  datatype Target = Target(id: string, protocol: string, policy: string, local: bool)

  datatype Counts = Counts(
    total: nat,
    successes: nat,
    failures: nat,
    usableResponses: nat,
    resolverFailures: nat,
    answers: nat,
    scored: nat,
    divergent: nat,
    truncated: nat,
    reconnects: nat)

  datatype Rates = Rates(
    success: real,
    failure: real,
    usable: real,
    answer: real,
    resolverFailure: real,
    scoringFailure: real)

  datatype Latency = Latency(median: real, p95: real, min: real, max: real, mad: real, coldMedian: real)

  datatype Statistics = Statistics(
    counts: Counts,
    rates: Rates,
    latency: Latency,
    score: real,
    ciLow: real,
    ciHigh: real,
    recommended: bool,
    tie: bool)

  datatype ColdObservation = ColdObservation(latency: real, success: bool)

  datatype TargetResult = TargetResult(
    target: Target,
    observations: seq<Observation>,
    cold: seq<ColdObservation>,
    stats: Statistics,
    incomplete: bool)

  /** Target IDs name a resolver, an address and a protocol, so they are unique. */
  ghost predicate DistinctIds(results: seq<TargetResult>) {
    forall i, j :: 0 <= i < j < |results| ==> results[i].target.id != results[j].target.id
  }
}
