# SpeeDNS: a verified model of its engine

SpeeDNS measures DNS resolvers over UDP, TCP, DoH, DoT and DoQ and ranks them. Under
its I/O it holds several algorithms and protocols that finite tests cannot settle. This
project models them in Dafny, branch by branch, and proves what they promise on every
input, every run and every interleaving. `dafny verify dfyconfig.toml` checks all of it.

What is modelled, module by module:

- `Orders`, `Text`, `Wrappers`, `Report`: sorting, permutations and filtering over
  sequences, Go's string order and name normalisation, and the measured data.
- `Bootstrap`: the bootstrap that reads each replicate's percentiles off rank counts. It
  is proved equal to sorting every resample for any arithmetic and any list of draws; the
  interpolation, the percentile position and the composite score stay abstract.
- `RealScores`, `Coverage`, `Scoring`: the same scores over the reals, their bounds, how much
  of the bootstrap an interval covers, and the counts and rates a target's observations give.
- `Divergence`, `DivergenceGroups`, `MarkDivergence`: the plurality vote per query and policy,
  that no policy has a say in another's, and the in-place loops that cast it.
- `Ranking`, `PairedEffects`, `EffectTable`, `AnalyseRun`: the tie group around one leader,
  the paired latency table, and the steps of a run that lead to both.
- `Runner`, `Scheduler`, `SchedulerRuns`, `SchedulerProgress`, `ColdRecords`: a target's runner
  as a class, the fair scheduler as a step relation over workers, barriers, rounds and a
  cancellation that may land anywhere, what every run of it keeps, and what it records.
- `CacheGroups`, `CacheMiss`, `BuildQueries`: the union-find over cache keys, the selection
  of one endpoint per cache, and the query list.
- `Addresses`, `Rotation`: bootstrap normalisation, and where reconnects start.
- `DoHConnections`: which connections a DoH session still owns, for every interleaving.
- `CommitProtocol`: replacing an output file when any call may fail.
- `Compare`, `CompareLaws`, `DiffGate`: the diff of two reports and its gate.
- `Utf8`, `Escaping`: the decoder of section 4 of RFC 3629 and the escaping built on it.

Clocks, sockets and random numbers are parameters: a dial, an exchange or a file call
succeeds or fails as its argument says, a context is a flag that only ever becomes set, a
shuffle and a bootstrap are given as the indexes they draw, and Go's random map order is an
arbitrary order. Latencies, rates and scores are exact real numbers.

Three findings about the code itself:

- The comment on `doqFactory.open` says that within as many timed-out reconnects as there
  are addresses each has been dialled first. That holds for distinct addresses
  (`Rotation.DoqCoversAll`). A resolver list with a repeat can hide an address from every
  attempt (`Rotation.RepeatHidesAddress`); `Rotation.CoversExactly` says for which lists the
  promise holds, whatever was preferred before.
- `prepareTargets` says that no network activity begins after a cancellation. In every run
  a step after a cancellation starts a call exactly when a worker goes on from a cold
  session that has just opened, or from a warm job it has just taken
  (`SchedulerRuns.CallsAfterCancel`); `SchedulerRuns.ColdQueryAfterCancel` and
  `SchedulerRuns.WarmOpenAfterCancel` are runs that do, and each target starts at most one
  such call (`SchedulerRuns.OneCallEach`).
- Usable responses and resolver failures add up to the successes exactly when no success is
  marked truncated (`Scoring.SuccessesAccountedFor`), which is how `measure` builds them.

## Model

| member | source | states |
|---|---|---|
| `Bootstrap.CountedValues` | internal/benchmark/benchmark.go:1380-1392 | reading two places off rank counts never runs past the counts and gives the elements a sorted expansion has there |
| `Bootstrap.CountedPercentile` | internal/benchmark/benchmark.go:1366-1376 | a percentile read off counts is the percentile of the sorted expansion, for any arithmetic |
| `Bootstrap.RankValues` | internal/benchmark/benchmark.go:1399-1412 | the sorted values and each value's rank, whichever way an unstable sort leaves equal values |
| `Bootstrap.CountsHoldResample` | internal/benchmark/benchmark.go:1487-1510 | the rank counts of a replicate hold the resample's latencies as a multiset |
| `Bootstrap.CountsAreSortedResample` | internal/benchmark/benchmark.go:1462-1473 | expanding the counts in rank order gives the sorted resample |
| `Bootstrap.ReplicateIsResample` | internal/benchmark/benchmark.go:1501-1517 | the score computed from counts equals scoreFromSamples on the same resample, all-failure and single-success replicates included |
| `Bootstrap.ScoreFromSamples` | internal/benchmark/benchmark.go:1433-1454 | the loop computes the specified score of a sample list |
| `Bootstrap.BootstrapCI` | internal/benchmark/benchmark.go:1474-1520 | the interval equals the one obtained by sorting every resample, for every sample list and all draws |
| `Bootstrap.BootstrapPairedCI` | internal/benchmark/benchmark.go:1707-1724 | the paired interval equals the one over the sorted medians of every resample |
| `RealScores.PercentileBetween` | internal/benchmark/benchmark.go:1325-1337 | a percentile lies between the two neighbouring order statistics |
| `RealScores.PercentileMonotone` | internal/benchmark/benchmark.go:1354-1362 | a higher level gives a percentile at least as high |
| `RealScores.IntervalOrdered` | internal/benchmark/benchmark.go:1474-1520 | CILow <= CIHigh for every sample list and all draws |
| `RealScores.ScoreBounds` | internal/benchmark/benchmark.go:1423-1454 | a score lies in the latency range widened by the timeout for failures |
| `RealScores.AllFailedScore` | internal/benchmark/benchmark.go:1433-1454 | a list of failures only scores the timeout |
| `RealScores.IntervalBounds` | internal/benchmark/benchmark.go:1474-1520 | without a scoring failure the interval lies between the fastest and slowest sample; in any case it is non-negative and at most the slowest plus the timeout |
| `RealScores.PercentileAntisymmetric` | internal/benchmark/benchmark.go:1325-1337 | the median of negated values is the negated median |
| `RealScores.PairedIntervalMirrored` | internal/benchmark/benchmark.go:1707-1724 | over the sorted differences read backwards and negated, under draws that pick from the other end, the paired interval is negated and its ends exchanged |
| `Coverage.IntervalCovers` | internal/benchmark/benchmark.go:1474-1520 | of the thousand replicate scores at most 25 lie below CILow and at least 25 at or below it, and as many above CIHigh, counted in the order they are drawn |
| `Coverage.PairedIntervalCovers` | internal/benchmark/benchmark.go:1707-1724 | the same for a paired interval, over the medians of the resampled differences |
| `Coverage.TargetIntervalCovers` | internal/benchmark/benchmark.go:1284-1288 | the interval published for a target is one that covers so |
| `Coverage.PercentilesAreShares` | internal/benchmark/benchmark.go:1325-1362 | of n evenly spaced values the percentiles stand 1/2, 19/20, 1/40 and 39/40 of the way, between two values if need be |
| `Coverage.ScoreOfProgression` | internal/benchmark/benchmark.go:1423-1454 | the score of evenly spaced latencies and some failures, in whatever order: 0.6 of the median, 0.4 of the 95th percentile, and the timeout for the share that failed |
| `Coverage.StatisticsOfProgression` | internal/benchmark/benchmark.go:1264-1302 | median, 95th percentile, fastest, slowest and cold median of evenly spaced latencies, each in its own field |
| `Coverage.DeviationSplits` | internal/benchmark/benchmark.go:1264-1302 | at most half of the latencies lie on either side of the median, and at most half are nearer to it or further from it than the published deviation |
| `Coverage.RatesSpelledOut` | internal/benchmark/benchmark.go:1264-1302 | every rate is its own count over its own total, and a target is recommended iff it is neither local nor incomplete, has 20 scored responses, and 99 in 100 of its queries are usable |
| `Scoring.CountObservations` | internal/benchmark/benchmark.go:1214-1262 | the counting loop's ten counters, response-code counts, samples and failures are the specified ones |
| `Scoring.CalculateStatistics` | internal/benchmark/benchmark.go:1214-1302 | the statistics of one target and its response-code counts, independent of the order sorting leaves |
| `Scoring.CodesAddUp` | internal/benchmark/benchmark.go:1242-1244 | the response-code counts add up to the responses that carry a code, which for measured ones are the usable and refused responses together |
| `Scoring.EveryObservationCounted` | internal/benchmark/benchmark.go:1214-1262 | Total = Successes + Failures = Scored + scoring failures + latency-excluded responses |
| `Scoring.OneMoreObservation` | internal/benchmark/benchmark.go:1214-1262 | what one more observation adds to every counter, to the response codes and to the score samples, by its own fields |
| `Scoring.SuccessesAccountedFor` | internal/benchmark/benchmark.go:927-949 | UsableResponses + ResolverFailures = Successes if and only if no success is truncated |
| `Scoring.CountsOrdered` | internal/benchmark/benchmark.go:1214-1262 | Answers and Scored are at most UsableResponses, which are at most Successes |
| `Scoring.SamplesMatchCounts` | internal/benchmark/benchmark.go:1244-1262 | the score samples are the scored responses plus one failure per scoring failure |
| `Scoring.StatisticsPublishable` | scripts/publish-live-results.py:175-191 | statistics with a positive total pass the publisher's numeric checks, and the interval is not inverted |
| `Divergence.FlagsAreExact` | internal/benchmark/benchmark.go:1095-1150 | an observation is flagged iff it succeeded, its query is contested and its class does not lead; failures never are |
| `Divergence.TieFlagsAll` | internal/benchmark/benchmark.go:1139-1150 | on a tied plurality every success of the query is flagged as ambiguous |
| `Divergence.AmbiguousIsTie` | internal/benchmark/benchmark.go:1096-1116 | a contested query without a baseline has two different classes level at the top |
| `Divergence.UnflaggedAgree` | internal/benchmark/benchmark.go:1048-1160 | any two unflagged successes of one normalised name, type and policy have the same response class |
| `Divergence.MarkingIsIdempotent` | internal/benchmark/benchmark.go:1054-1160 | marking marked results changes nothing |
| `Divergence.MarkingIgnoresOrder` | internal/benchmark/benchmark.go:1054-1160 | a target is marked the same way wherever it stands among the others |
| `Divergence.MarksSpelledOut` | internal/benchmark/benchmark.go:1054-1150 | a success of a contested query carries the leading class or the word for a tie, any other observation no mark, and nothing but the marks changes |
| `DivergenceGroups.PoliciesAreMarkedApart` | internal/benchmark/benchmark.go:1048-1068 | a target is marked exactly as when only the targets of its own policy are there |
| `DivergenceGroups.FlaggedByPolicy` | internal/benchmark/benchmark.go:1048-1068 | a success is flagged only if another of the same name, type and policy has a different class, and of two such successes at least one is flagged |
| `DivergenceGroups.PoliciesAreSame` | internal/benchmark/benchmark.go:1166-1172 | two policies are one iff they differ at most in case and surrounding spaces; none at all is "unspecified" |
| `DivergenceGroups.QueriesAreSame` | internal/benchmark/benchmark.go:1162-1164 | two query names are one iff they differ at most in case, surrounding spaces and one trailing dot |
| `Text.TrimSpaceMeans` | internal/benchmark/benchmark.go:1162-1168 | trimming takes away exactly the spaces around a text |
| `Text.LowerMeans` | internal/benchmark/benchmark.go:1162-1168 | two texts become equal in lower case iff they differ in case alone |
| `Text.StringLeMeans` | internal/benchmark/benchmark.go:1083-1093 | one string comes before another iff it is a prefix or has the smaller character where they first differ |
| `MarkDivergence.GroupCount` | internal/benchmark/benchmark.go:1055-1080 | counting a collected group's classes counts the votes of its query |
| `MarkDivergence.Judge` | internal/benchmark/benchmark.go:1096-1130 | the verdict read off the class counts is the specified one, in any map order |
| `MarkDivergence.MarkGroup` | internal/benchmark/benchmark.go:1125-1150 | the marking loop of one group, in place |
| `MarkDivergence.GroupMarked` | internal/benchmark/benchmark.go:1125-1150 | marking one more group completes exactly its query and touches no other |
| `MarkDivergence.Collect` | internal/benchmark/benchmark.go:1055-1080 | every flag is reset and every success grouped under its query and policy |
| `MarkDivergence.MarkDivergence` | internal/benchmark/benchmark.go:1054-1160 | the whole pass leaves the specified flags, and the details describe each contested query once, in key order |
| `MarkDivergence.KeyLeMeans` | internal/benchmark/benchmark.go:1083-1092 | the details come by name, then type, then policy |
| `MarkDivergence.DetailAddsUp` | internal/benchmark/benchmark.go:1118-1124 | what a detail says was compared is the sum of its classes |
| `Ranking.LeaderInTieGroup` | internal/benchmark/benchmark.go:1759-1791 | with intervals that are not inverted the leader joins its own tie group, so its first element exists |
| `Ranking.TieGroupEmpty` | internal/benchmark/benchmark.go:1759-1791 | exactly when the tie group would be empty |
| `Ranking.SelfOverlap` | internal/benchmark/benchmark.go:1821-1831 | a target overlaps itself iff its interval is not inverted |
| `Ranking.OverlapNotTransitive` | internal/benchmark/benchmark.go:1821-1831 | overlap is not transitive, which is why one leader anchors the group |
| `Ranking.RanksAreBijection` | internal/benchmark/benchmark.go:1783-1792 | per protocol the ranks are a bijection of the eligible targets onto 1..n |
| `Ranking.TiesComeFirst` | internal/benchmark/benchmark.go:1759-1792 | Tie is set exactly on groups larger than one, and whoever overlaps the leader precedes whoever does not |
| `Ranking.PresentedOrders` | internal/benchmark/benchmark.go:1755-1819 | the tie group is ordered by its key, median and ID, the rest by score and ID |
| `Ranking.RankingsSpelledOut` | internal/benchmark/benchmark.go:1735-1831 | in the fields alone: the leader has the least score and then the least ID; the tie group is exactly the members whose interval meets its interval, ordered by six times the median plus ten times the failures' cost, then median, then ID; the rest never fall in score; and the ranking says rank and tie |
| `Ranking.RankingsListed` | internal/benchmark/benchmark.go:1794-1801 | the rankings of a run hold those of every protocol, by protocol name and then by rank |
| `Ranking.RankingsInvariant` | internal/benchmark/benchmark.go:1735-1801 | with distinct IDs the rankings do not depend on the order of the results or of the protocol map |
| `Ranking.MakeRankings` | internal/benchmark/benchmark.go:1735-1801 | the in-place method gives the specified rankings and sets exactly the ranked targets' tie flags |
| `AnalyseRun.IntervalInRange` | internal/benchmark/benchmark.go:1474-1520 | a rankable target without scoring failures has its interval inside [Min, Max] |
| `AnalyseRun.SummarisedIntervals` | internal/benchmark/benchmark.go:1214-1302 | statistics derived from observations never have inverted intervals |
| `AnalyseRun.AnalyseGroup` | internal/benchmark/benchmark.go:385-389 | a group is marked, then each target gets the statistics of its marked observations |
| `AnalyseRun.RankReport` | internal/benchmark/benchmark.go:391-395 | ranking such results needs no assumption about their intervals |
| `PairedEffects.PairedObservationSamples` | internal/benchmark/benchmark.go:1673-1689 | the first ordinary sample of every query |
| `PairedEffects.SampleIsFirst` | internal/benchmark/benchmark.go:1673-1689 | a query has a sample iff it has an ordinary observation, and the sample has the latency and class of the first |
| `PairedEffects.PairedLatencyDeltas` | internal/benchmark/benchmark.go:1654-1671 | one difference per query both targets answered with the same class, in key order |
| `PairedEffects.SameKeys` | internal/benchmark/benchmark.go:1654-1671 | both sides agree on the ordered list of shared queries, in any map order |
| `PairedEffects.DeltasNegated` | internal/benchmark/benchmark.go:1654-1671 | swapping the targets negates every difference in place |
| `PairedEffects.MedianDeltaAntisymmetric` | internal/benchmark/benchmark.go:1620-1622 | the median delta is exactly antisymmetric |
| `PairedEffects.EffectsFollowRanks` | internal/benchmark/benchmark.go:1564-1581 | sorting a protocol's targets by rank lookup gives the presented order |
| `EffectTable.DeltasAntisymmetric` | internal/benchmark/benchmark.go:1654-1671 | the differences as a function of two targets are antisymmetric |
| `EffectTable.PairEffect` | internal/benchmark/benchmark.go:1583-1625 | one effect, with its reason or its interval |
| `EffectTable.EffectSpelledOut` | internal/benchmark/benchmark.go:1583-1618 | whose effect it is, how many pairs it has and which reason it gives, from the two targets and the number of differences |
| `EffectTable.SlowerIsPositive` | internal/benchmark/benchmark.go:1654-1671 | a target slower on every shared query has a positive median and an interval above zero against the reference |
| `EffectTable.DeltaTurned` | internal/benchmark/benchmark.go:1619-1622 | swapping the sides negates the median whatever is drawn, and mirrors the interval when one side's draws mirror the other's |
| `EffectTable.EqualDrawsDoNotTurn` | internal/benchmark/benchmark.go:1619-1621 | differences and draws for which equal draws on both sides do not mirror the interval |
| `EffectTable.EffectTurned` | internal/benchmark/benchmark.go:1583-1625 | two targets compared both ways have as many samples, the same reason and opposite medians, and mirrored intervals under mirrored draws |
| `EffectTable.EffectPublishes` | internal/benchmark/benchmark.go:1596-1625 | an interval is published iff there are at least 20 paired samples; it is not inverted and the verdict is about zero |
| `EffectTable.EffectsAnswerRankings` | internal/benchmark/benchmark.go:1563-1626 | a protocol's effects are its rankings place by place, all against the rank-one target |
| `EffectTable.CalculatePairedEffects` | internal/benchmark/benchmark.go:1543-1636 | the loops build the specified table |
| `EffectTable.TableLeMeans` | internal/benchmark/benchmark.go:1626-1634 | the table comes by protocol, then policy, then target ID |
| `EffectTable.OneEffectPerRankedTarget` | internal/benchmark/benchmark.go:1543-1636 | the table has one effect per ranked target and nothing else |
| `EffectTable.FirstIsReference` | internal/benchmark/benchmark.go:1582-1596 | a protocol with a ranked target has a reference, the rank-one target |
| `EffectTable.OneReference` | internal/benchmark/benchmark.go:1582-1596 | and no second one |
| `Runner.TargetRunner.constructor` | internal/benchmark/benchmark.go:789-812 | a runner whose factory fails is open-failed, or aborted when cancelled |
| `Runner.TargetRunner.ColdProbe` | internal/benchmark/benchmark.go:826-862 | one probe adds exactly one entry, a success iff both its open and its query succeeded, and none when its check is cancelled |
| `Runner.TargetRunner.PrepareCold` | internal/benchmark/benchmark.go:821-865 | the cold method does what a worker's cold steps do, reading by reading; when it succeeds it has added three entries, each a success iff its open and its query were |
| `Runner.TargetRunner.PrepareWarm` | internal/benchmark/benchmark.go:867-901 | the warm method does what a worker's warm steps do |
| `Runner.TargetRunner.MeasureQuery` | internal/benchmark/benchmark.go:903-950 | one exchange appends exactly one sample when it counts, none otherwise |
| `Runner.TargetRunner.ProbeDnssec` | internal/benchmark/dnssec.go:131-157 | the probe gives a verdict only when both probes ran before any interrupt, and changes nothing else |
| `ColdRecords.StepRecords` | internal/benchmark/benchmark.go:821-865 | no step of a run drops or rewrites a cold entry, and one is added exactly when a worker ends a probe: a success iff it was an answered query |
| `ColdRecords.EntriesKept` | internal/benchmark/benchmark.go:821-865 | along every run the cold entries of a target only ever grow |
| `ColdRecords.CompleteHasThree` | internal/benchmark/benchmark.go:816-865 | every target a finished run reports complete has exactly three cold entries |
| `Scheduler.StepKeeps` | internal/benchmark/benchmark.go:483-765 | every step of every goroutine keeps the scheduler's invariant |
| `Scheduler.RunKeeps` | internal/benchmark/benchmark.go:483-765 | the invariant holds at every moment of every run |
| `SchedulerRuns.EveryTargetReported` | internal/benchmark/benchmark.go:559-589 | a finished run reports each target once in ID order, each exactly one of complete, open-failed and incomplete; only cancelled runs have incomplete ones |
| `SchedulerRuns.SamplesKept` | internal/benchmark/benchmark.go:600-716 | samples are never dropped or rewritten, and a target that failed to open or was aborted is never touched again |
| `SchedulerRuns.NoWarmBeforeColdIsOver` | internal/benchmark/benchmark.go:646-712 | no warm session is prepared while any cold phase is unfinished |
| `SchedulerRuns.InFlightBounded` | internal/benchmark/benchmark.go:718-748 | at most Concurrency runners are in flight |
| `SchedulerRuns.PoolIsFull` | internal/benchmark/benchmark.go:603-609 | and the pool is never smaller than it may be: one worker per target up to Concurrency, at least one |
| `SchedulerRuns.OneHolder` | internal/benchmark/benchmark.go:773-776 | no runner is held by two workers |
| `SchedulerRuns.RoundsAreFair` | internal/benchmark/benchmark.go:513-537 | two ready runners never differ by more than one sample |
| `SchedulerRuns.ExchangesCounted` | internal/benchmark/benchmark.go:510-537 | after every round completedExchanges is the number of samples of the ready runners |
| `SchedulerRuns.ProbesComeLast` | internal/benchmark/benchmark.go:538-557 | DNSSEC probes run only once every ready runner has all its samples |
| `SchedulerRuns.ProbesChangeNoSample` | internal/benchmark/dnssec.go:100-157 | probes change no sample, and a verdict needs an uncancelled run |
| `SchedulerRuns.CallsAfterCancel` | internal/benchmark/benchmark.go:651-656 | in every run, a step after a cancellation starts a network call iff it is a worker's, on a cold session that has just opened or on a warm job of an unfinished target; none starts once the sessions are prepared or for a target with a sample |
| `SchedulerRuns.ColdQueryAfterCancel` | internal/benchmark/benchmark.go:830-850 | a run that sends a cold query after the cancellation |
| `SchedulerRuns.WarmOpenAfterCancel` | internal/benchmark/benchmark.go:690-712 | a run that takes a queued warm job and opens its session after the cancellation |
| `SchedulerRuns.OneCallEach` | internal/benchmark/benchmark.go:816-968 | after a cancellation every target starts at most one more network call |
| `SchedulerProgress.StepCloser` | internal/benchmark/benchmark.go:483-765 | every step but a cancellation strictly lowers a well-founded measure, so no run goes on for ever |
| `SchedulerProgress.NeverStuck` | internal/benchmark/benchmark.go:483-765 | until the run is done some goroutine can move |
| `SchedulerProgress.ReachesDone` | internal/benchmark/benchmark.go:483-765 | from every moment of every run the end can be reached |
| `CacheGroups.Find` | cmd/speedns/main.go:351-356 | following parents ends at the representative, because roots never exceed their index |
| `CacheGroups.Union` | cmd/speedns/main.go:365-369 | the two trees become one and no others are merged |
| `CacheGroups.UnionRep` | cmd/speedns/main.go:365-369 | hanging the later root under the earlier one changes exactly the later tree's representative |
| `CacheGroups.CompressRep` | cmd/speedns/main.go:372-374 | pointing an entry at its root changes no representative |
| `CacheGroups.CacheGroups` | cmd/speedns/main.go:346-376 | two profiles get the same value iff a chain of shared keys links them, and it is the smallest index of the component |
| `CacheGroups.GroupingIsUnique` | cmd/speedns/main.go:337-345 | the grouping depends on which keys each profile has, not on their order |
| `CacheMiss.CacheKeys` | internal/catalog/catalog.go:547-567 | the keys are the addresses and trimmed TLS names, sorted and without repeats |
| `CacheMiss.CacheKeysUnique` | internal/catalog/catalog.go:543-567 | and do not depend on the order of the transport map |
| `CacheMiss.CacheKeysSpelledOut` | internal/catalog/catalog.go:547-567 | which names are keys: the addresses, the DoH host, and the server names of DoH, DoT and DoQ |
| `CacheMiss.CompareProtocolsOrder` | internal/catalog/catalog.go:53-59 | protocols are totally ordered, unknown ones by name |
| `CacheMiss.PrefersOn` | cmd/speedns/main.go:382-388 | the preference is a strict weak order |
| `CacheMiss.BestIsPreferred` | cmd/speedns/main.go:309-314 | the choice for a cache is an endpoint of it to which none is preferred |
| `CacheMiss.OneKeptPerCache` | cmd/speedns/main.go:302-327 | exactly one endpoint of each cache is kept |
| `CacheMiss.KeptIsStrictlyPreferred` | cmd/speedns/main.go:289-297 | with distinct endpoints the kept one is strictly preferred to every other |
| `CacheMiss.KeptIsEarliest` | cmd/speedns/main.go:289-297 | no endpoint of the cache is declared earlier than the kept one, has an earlier protocol of udp, tcp, doh, dot, doq in the same profile, or an earlier address under the same protocol |
| `CacheMiss.KeptAndDroppedPartition` | cmd/speedns/main.go:315-326 | every endpoint is kept or dropped, once, in order |
| `CacheMiss.DropsNameTheKept` | cmd/speedns/main.go:318-325 | each dropped endpoint names the kept one of its own cache |
| `CacheMiss.CacheMissTargets` | cmd/speedns/main.go:302-327 | the loops compute that selection, and two endpoints have one cache iff a chain of names links their profiles, by the keys CacheKeys gives them |
| `BuildQueries.Shuffle` | internal/benchmark/benchmark.go:451-453 | the in-place swaps are the specified shuffle for any draws |
| `BuildQueries.ShuffleKeepsAll` | internal/benchmark/benchmark.go:451-453 | a shuffle made of swaps only rearranges |
| `BuildQueries.EveryOrderIsDrawn` | internal/benchmark/benchmark.go:451-453 | every rearrangement has draws that give it |
| `BuildQueries.DrawsAreTold` | internal/benchmark/benchmark.go:451-453 | and over distinct elements only one list of draws, so even draws make every order as likely |
| `BuildQueries.BuildQueries` | internal/benchmark/benchmark.go:442-481 | the loops and both shuffles give the specified list |
| `BuildQueries.QueriesAreListed` | internal/benchmark/benchmark.go:451-480 | the list is a rearrangement of one question per sampled name, or of every type of every sampled name |
| `BuildQueries.QuestionsSpelledOut` | internal/benchmark/benchmark.go:442-480 | how many names are sampled, how many questions that makes, and which they are; in cache-miss mode the types take turns |
| `BuildQueries.EachNameOnce` | internal/benchmark/benchmark.go:458-472 | over distinct names, no name occurs twice in cache-miss mode, for any selection of types |
| `BuildQueries.EveryTypeOnce` | internal/benchmark/benchmark.go:473-480 | otherwise every sampled name is asked each type exactly once |
| `BuildQueries.NoQuestionTwice` | cmd/speedns/main.go:255-282 | over a cache-miss run no name is asked twice at endpoints whose declared profiles any chain of shared names links |
| `Addresses.NormalizeBootstrapAddresses` | internal/catalog/catalog.go:498-521 | accepted iff every entry is an IP literal, and the first bad entry is named |
| `Addresses.BootstrapsAreDistinct` | internal/catalog/catalog.go:510-519 | the candidates are distinct as addresses |
| `Addresses.EveryEntryIsKept` | internal/catalog/catalog.go:498-521 | no entry's address is lost |
| `Addresses.NormalizedSpelledOut` | internal/catalog/catalog.go:498-521 | an entry is dropped iff an earlier one is the same address, and the others keep their order |
| `Addresses.CleanSpelledOut` | internal/catalog/catalog.go:501-504 | surrounding spaces and one pair of brackets are dropped |
| `Addresses.KeysSpelledOut` | internal/catalog/catalog.go:523-532 | two addresses are one iff they are the same IP address, or host names that differ at most in case and one trailing dot |
| `Addresses.DialPlanSpelledOut` | internal/transport/transport.go:119-133 | the plan is the candidates in order, or the target's own address, at the port, with brackets around colons |
| `Addresses.PlanIsDistinct` | internal/transport/transport.go:119-133 | so the dial plan has no repeated address |
| `Rotation.PreferringKeepsAll` | internal/transport/transport.go:159-171 | the plan is rearranged: the preferred candidate leads, the others keep their order |
| `Rotation.EachStartsOnce` | internal/transport/transport.go:176-183 | stepping k times through k distinct addresses visits each once from any start |
| `Rotation.CoversExactly` | internal/transport/transport.go:1069-1080 | n timed-out attempts dial each of the n listed addresses first, whatever was preferred before, iff the list closes up before its first repeat; distinct lists do |
| `Rotation.RepeatSticks` | internal/transport/transport.go:1069-1080 | over any list that starts with a repeat every timed-out attempt dials the first address first, unless a later one was preferred before |
| `Rotation.RepeatHidesAddress` | internal/transport/transport.go:1069-1080 | over a list with a repeat no number of timed-out attempts ever dials the third address first |
| `Rotation.StreamSession.Reopen` | internal/transport/transport.go:195-205 | one reconnect and the start it leaves |
| `Rotation.StreamStartMoves` | internal/transport/transport.go:195-205 | a connection moves the start to the candidate it reached, which is dialled first next time; running out of time moves it one on; failing in time leaves it |
| `Rotation.StartIsCandidate` | internal/transport/transport.go:195-205 | the preferred start is always a candidate and is dialled first |
| `Rotation.StickyReopenCoversAll` | internal/transport/transport.go:185-205 | k timed-out reconnects over k distinct candidates start at each exactly once |
| `Rotation.DoqSession.Open` | internal/transport/transport.go:1081-1117 | what open returns and the preference it leaves |
| `Rotation.DoqSession.Reconnect` | internal/transport/transport.go:1149-1172 | the two rotations together |
| `Rotation.DoqReconnectSpelledOut` | internal/transport/transport.go:1081-1172 | what a reconnect leaves of both preferences, by the first candidate that settles it |
| `Rotation.DoqMovesOn` | internal/transport/transport.go:1112-1115 | an attempt that runs out of time moves the first dial one address on, whichever address used the time |
| `Rotation.DoqCoversAll` | internal/transport/transport.go:1069-1080 | k such attempts dial each of k distinct addresses first exactly once |
| `Rotation.SuccessSticks` | internal/transport/transport.go:1103-1106 | a connection moves the preference to the address it reached |
| `DoHConnections.StepKeeps` | internal/transport/transport.go:847-921 | every step of a dial, the transport or Close keeps the ownership invariant |
| `DoHConnections.NothingLeaks` | internal/transport/transport.go:1020-1038 | once Close has returned and the dials in flight have ended, every connection ever tracked is closed and the map is empty |
| `DoHConnections.FailedOpenLeavesNothing` | internal/transport/transport.go:732-745 | an Open that fails leaves no connection behind |
| `DoHConnections.LateDialIsRefused` | internal/transport/transport.go:906-921 | in every run, a dial in its handshake when Close runs is refused, never recorded, and once it lets go of its connection that is out of the map and being closed for good |
| `CommitProtocol.OutputFiles.CopyInPlace` | cmd/speedns/main.go:2073-2088 | at every byte the report is safe in the temporary file, and exactly when the copy succeeds |
| `CommitProtocol.OutputFiles.Commit` | cmd/speedns/main.go:2127-2195 | at every step the old file, the complete report or the complete temporary file exists; success means the destination is complete, an error that it is unchanged or the temporary file is kept; and exactly which failures lead to which error, so it succeeds iff nothing failed before and the rename or the copy goes through |
| `CommitProtocol.OutputFiles.Abandon` | cmd/speedns/main.go:2128-2138 | a discard never touches the destination |
| `CommitProtocol.Deliver` | cmd/speedns/main.go:2101-2196 | the same for a whole delivery, from the first chunk |
| `Compare.Gate` | internal/compare/gate.go:67-108 | no blocker iff neither run is cache-miss and every identity field is recorded in both and equal |
| `Compare.ComparableSpelledOut` | internal/compare/gate.go:39-108 | no blocker iff the runs agree on corpus mode, seed, sample size, queries, types, corpus, timeout, concurrency, family, DNSSEC and feature version, each against its own field |
| `Compare.VersionsSpelledOut` | internal/compare/gate.go:200-210 | a version counts by its first two parts, with or without a leading v |
| `Compare.FloorMeans` | internal/compare/findings.go:48-54 | the floor is a hundredth of the queries rounded up, two at least |
| `Compare.SortedUnion` | internal/compare/findings.go:233-261 | the keys of both sides, once each, sorted, in any map order |
| `Compare.DiffBuilder.AppendId` | internal/compare/findings.go:68-100 | what one target adds to the diff, by how it pairs |
| `Compare.Compare` | internal/compare/findings.go:58-108 | the whole diff |
| `CompareLaws.CompareIsSymmetric` | internal/compare/findings.go:58-108 | swapping the reports keeps the compared count, the sequence of (target, code), and the suppressions |
| `CompareLaws.SelfHasNoFindings` | internal/compare/findings.go:58-157 | a report against itself has no findings, and when it is comparable with itself |
| `CompareLaws.EveryTargetIsClassified` | internal/compare/findings.go:68-100 | what the diff says about a target tells which of compared, present in one run, redacted, local and incomplete it is, and Compared is the number of compared ones |
| `CompareLaws.EveryTargetIsCounted` | internal/compare/findings.go:68-100 | the numbers of the five kinds add up to the number of targets |
| `CompareLaws.PairingSpelledOut` | internal/compare/findings.go:68-100 | which of these a target is, from its two results |
| `CompareLaws.FindingsAreOrdered` | internal/compare/findings.go:101-106 | the findings come by target and then by code |
| `DiffGate.Evaluate` | internal/compare/require.go:27-70 | a condition holds iff no finding fails it |
| `DiffGate.ConditionsMeanWhatTheySay` | internal/compare/require.go:26-70 | each condition, evaluated over the findings, holds iff no target of the two reports is broken in its sense |
| `DiffGate.IdBroken` | internal/compare/require.go:193-205 | the findings about one target fail a condition iff the target itself is worse off |
| `DiffGate.BrokenSpelledOut` | internal/compare/require.go:26-70 | when each condition is broken at a target, from its two results |
| `DiffGate.NamesSpelledOut` | internal/compare/require.go:26-70 | the five names a gate accepts and what each stands for |
| `DiffGate.TargetDiffersExactly` | internal/compare/findings.go:110-157 | exactly when anything is reported about a paired target |
| `DiffGate.FindingsShow` | internal/compare/findings.go:110-157 | every finding about a pair shows the values its code names, the baseline first |
| `DiffGate.OneResponseIsNoise` | internal/compare/findings.go:40-54 | two results one response apart give no finding |
| `DiffGate.NothingIsSilent` | internal/compare/findings.go:159-214 | of one target: on equal totals a changed status or verdict has exactly one finding or named suppression, and an unchanged one none; on unequal totals the target says so and declines the rest |
| `DiffGate.DeclinedBecause` | internal/compare/findings.go:159-195 | which of the two reasons a changed status is declined for |
| `DiffGate.Require` | internal/compare/require.go:86-97 | an unknown condition is an error, otherwise every condition is evaluated |
| `DiffGate.Conditions` | internal/compare/require.go:126-144 | a refused diff evaluates nothing, a condition fails iff it does not hold, and passes iff it holds and something was compared |
| `DiffGate.RunDiff` | cmd/speedns/diff.go:48-114 | the command's verdict and its order |
| `DiffGate.SuccessMeansEvaluated` | cmd/speedns/diff.go:85-113 | with conditions, success iff the runs are comparable, something was compared and every condition holds |
| `DiffGate.NotComparedSummary` | internal/compare/require.go:150-177 | the counts per reason and of unpaired targets |
| `DiffGate.SummaryAddsUp` | internal/compare/require.go:146-177 | when nothing was compared these counts add up to the number of targets |
| `Utf8.DecodeIsEncoding` | internal/safetext/safetext.go:60-62 | what the decoder accepts is the encoding of a scalar value |
| `Utf8.DecodeUndoesEncode` | internal/safetext/safetext.go:60-62 | decoding undoes encoding, whatever follows |
| `Utf8.InvalidExactly` | internal/safetext/safetext.go:60-63 | a byte is rejected iff no scalar value's encoding starts there |
| `Utf8.RfcExamples` | internal/safetext/safetext.go:60-62 | the examples of section 7 of RFC 3629 |
| `Escaping.WriteRuneEscaped` | internal/safetext/safetext.go:131-141 | the digit buffer filled backwards holds the whole code point |
| `Escaping.HexRoundTrip` | internal/safetext/safetext.go:129-141 | its digits read back as the code point, at least four of them |
| `Escaping.Escape` | internal/safetext/safetext.go:54-75 | the loop and its fast path compute the specified escape |
| `Escaping.EscapedIsSafe` | internal/safetext/safetext.go:31-53 | for every byte string the result is valid UTF-8 without control, bidirectional or invisible characters |
| `Escaping.EscapedHoldsNone` | internal/safetext/safetext.go:31-53 | the result holds none of the twelve bidirectional controls, the unseen characters and the control characters, listed one by one |
| `Escaping.ListsAreComplete` | internal/safetext/safetext.go:89-121 | the ranges of the code are those lists exactly |
| `Escaping.EscapeByCharacter` | internal/safetext/safetext.go:54-75 | one character at a time is shown as it is, or by the digits of its code point, and the text goes on after it |
| `Escaping.EscapeByByte` | internal/safetext/safetext.go:54-75 | a byte that starts no character is shown by its two digits |
| `Escaping.UnchangedExactlyWhenSafe` | internal/safetext/safetext.go:46-53 | nothing changes iff the text is already safe |
| `Escaping.EscapeIsIdempotent` | internal/safetext/safetext.go:52-53 | escaping twice is escaping once |
| `Escaping.EscapeNeverShortens` | internal/safetext/safetext.go:48-51 | escaping never removes bytes |
| `Escaping.CsvCellIsGuarded` | internal/report/report.go:486-500 | a cell is safe text that starts neither a formula nor an escape sequence |
| `Escaping.CsvCellSpelledOut` | internal/report/report.go:486-500 | an apostrophe is put in front exactly when the escaped value starts with = + - @ or with an escape sequence |
| `Escaping.CsvCellIsIdempotent` | internal/report/report.go:486-500 | building a cell from a cell changes nothing |
| `Escaping.CsvCellOfEscaped` | internal/report/report.go:478-481 | csvCell(Escape(v)) = csvCell(v) |

## Left out

- Sockets, TLS, HTTP, QUIC and DNS packing: dials, handshakes and exchanges are arbitrary outcomes.
- IEEE rounding: `Bootstrap` is proved for any arithmetic; bounds and statistics are over exact reals.
- Hashing and random generators: seeds are opaque, draws and shuffles are arbitrary index lists.
- `Divergence.FlagsAreExact`: names and policies are normalised on ASCII letters and spaces only; Unicode case folding is not modelled.
- `Text.LowerMeans` and `Text.TrimSpaceMeans`: the same ASCII letters and spaces.
- `MarkDivergence.MarkDivergence`: the details omit the list of excluded observations, whose order Go leaves open for repeated queries.
- `Scoring.CalculateStatistics`: the response-code counts are a second result rather than a field, and the names of codes are given as a function.
- `CacheMiss.CacheKeys`: IP and URL parsing are given as a function and a field; host names are not parsed.
- `Addresses.PlanIsDistinct`: the IP parser is an arbitrary function that accepts only text without spaces or brackets.
- `CommitProtocol.Deliver`: destinations written in place from the start (pipes, devices, hard-linked files, descriptors) promise nothing about a failed write, and the classification of paths is not modelled.
- `Compare.Compare`: the wording of details, the disclosures and the warnings are omitted; a detail is a record of the values it shows.
- `DoHConnections.StepKeeps`: a step relation over the session's fields rather than a class, because its methods run concurrently.
- `Scheduler.StepKeeps`: a step relation for the same reason; the runner's own methods are the class in `Runner`, proved to take the same steps. Latencies and response fields of a sample are reduced to success or failure.
- `CacheMiss.CacheMissTargets`: catalog expansion itself is not modelled; the endpoints are any list over the declared profiles.
- `Runner.TargetRunner.MeasureQuery`: a sample is its query and whether it succeeded; the response's own fields are those of `Report.Observation`, which the statistics start from.
- `Runner.TargetRunner.ProbeDnssec`: a verdict is present or not; how two finished probes are classified is one branch each.
- The DNSSEC verdict's classification, warnings and report statuses: a reading settles them.
- The progress renderer, report tables, the JSON stream and terminal output.
- Stream and DoQ sessions after they are open: framing, query IDs and invalidation.
- Resolver discovery, YAML, URL and IDNA handling, signals and flags.
