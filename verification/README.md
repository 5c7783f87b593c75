# Depsera verification

Depsera monitors services and the dependencies they report. This project models the algorithmic and stateful parts of
the system and proves what they promise. `dafny verify dfyconfig.toml` checks all of it.

| files | component |
|---|---|
| EdgeRouter, EdgeRouterTheorems, EdgeRouterCoordinates | layer detection, respacing and lane assignment of the orthogonal edge router, and its gaps and lanes told by the nodes' own coordinates |
| GraphTraversal, Reachability | upstream and downstream search, related edges and isolation in the client's graph |
| DependencyGraph, GraphService, GraphInRows | the server's graph builder, external nodes, level-by-level traversal and graph scopes, and each graph told by the stored rows |
| AlertLimits, AlertService, AlertRuns, AlertBursts, AlertDelays, AlertDecisions | the alert engine with delay, flap protection, hourly limit and retries, its runs, and how every event of a run ends |
| PerKeyRateLimit, RateLimitNumbers | the token bucket for each API key, its runs, and what they grant in requests and milliseconds |
| ApiKeyUsage | the usage accumulator and its flush, and their runs |
| Fields, ManifestDiffer, ManifestSync, ManifestApply | field values and their texts, the manifest's three-way diff, its partition, and a diff after applying updates |
| DriftRoutes, DriftDecisions, DriftRuns | drift flags: accept, dismiss, reopen, bulk actions, sync upserts, what each decides and writes, and the next diff |
| SyncRuns, SyncAgain, SyncKeeps, SyncOutcomes, SyncRollbacks | runs of syncs and actions, a diff after a whole sync, what a sync leaves of rows and flags, and syncs that roll back or create nothing |
| StringMatchers | edit distance, similarity, token overlap |
| HistogramPercentiles, PercentileNumbers | percentiles of explicit-boundary histograms |
| HealthTimeline | segments of the health timeline |
| Common, StableSort | sequences, filters and the stable sort of `Array.prototype.sort` |

Code that changes things step by step is modelled by methods and classes, each proved equal to a specification function
of the inputs or of the old state; the theorems are about those functions and about runs of them. Clocks, random ids,
store answers, sender results, hashes, name normalisation, JSON and URL checks are inputs. A run handles one event after
another, as the single-threaded event loop does: an event's code up to its first `await` is one step.

## What the code does not promise

Each point names the lemmas: a concrete input, the exact condition, or both.

- A diff run again right after a sync is not always clean (`SyncAgain.DiffAgainAfterSync`, the exact condition).
  - Updating a row stores an explicit null `health_endpoint_format` as `default`, and quotes once more a
    `schema_config` given as JSON text, which the validator admits; every later diff takes either for a manual edit
    (`ManifestApply.DiffAgainAfterApply`, `NeverSettles`, `NullFormatNeverSettles`, `TextSchemaNeverSettles`).
  - Creating a row does the same, and drops the endpoint of an OTLP service and replaces a null `poll_interval_ms` by
    30000, or by 0 for OTLP, while the snapshot keeps what the manifest gave (`ClassifyCreated`,
    `OtlpEndpointIsReported`, `CreatedNullIntervalUndoesSyncs`).
- A null `poll_interval_ms`, or a null `health_endpoint` in an OTLP entry, over a row that has one rolls back every sync
  on the first sync of the row, or when it was not edited, or when the manifest wins, because the columns are required
  (`RollsBackExactlyWhenNullGiven`; `NullIntervalRollsBack`, `NullEndpointRollsBack`, `CreatedNullIntervalUndoesSyncs`).
  Besides that a whole sync rolls back exactly when an entry it would create has the key of a row of another
  configuration (`SyncRollsBackExactly`).
- The validator lets an OTLP entry do without an endpoint, but the check of its URL then throws, so the entry is never
  created; an OTLP entry with an endpoint is created without it and reported at once (`CreatedExactlyWhenPublic`,
  `NeverCreatedWithoutEndpoint`, `OtlpNeverCreatedInOrder`).
- The drift routes do not know `health_endpoint_format`: accepting such a flag closes it and writes nothing, and the
  next diff reports the field again (`FormatFlagWritesNothing`, `AcceptSettlesField`).
- A row that is back in the manifest keeps its open removal flag when everything the manifest gives otherwise is left
  as edited, because only updated and unchanged rows have theirs resolved (`RemovalFlagsAfterSync`).
- Status events are emitted only when a dependency's health flips, so with a delay configured, however short, no outage
  of an unmuted dependency is ever announced by a rule that admits warnings: the one event of each outage only starts the
  delay (`DelaySilencesOutages`, `DelaySilencesRecoveries`).
- Recoveries are warnings, so a critical-only rule drops them before the delay is reset, and an outage after a recovery
  counts the minutes from before it (`DelayHonouredExactlyWhenWarningsAdmitted`).
- A key counts as alerted once its delay is over, before flap protection and rate limit decide, so the recovery of an
  outage that was never announced can be announced (`UnannouncedOutageExactly`, `RecoveryOfUnannouncedOutage`,
  `RecoveriesFollowOutagesExactlyWhenCriticalOnly`).
- The hourly limit is per window, not per sliding hour: for every limit, up to twice the limit less one can fall into an
  hour, so only limits of 0 and 1 hold for every hour (`HourlyBoundTight`, `HourlyBoundAttained`,
  `HourlyLimitKeptExactlyUpToOne`).
- A percentile does not invert the cumulative count in a bucket without width, such as the first one when the first
  bound is 0 (`PercentileInvertsDistribution`, `FlatBucketDoesNotInvert`).
- A percentile is NaN for a histogram without bounds, and where its rank exceeds what the buckets up to the overflow one
  hold although further buckets hold it (`NaNExactlyWithoutBounds`).
- Edge ids joined with dashes are not unique for ids and types of any text: for some types two pairs of ends collide,
  exactly when source and target joined, with a dash after each, begin one the other (`EdgeIdsTellApartExactly`).  Ids
  made by the code never do, whatever the types (`GeneratedIdsTellApart`, `EveryRowDrawn`).
- `flush` splits an accumulator key correctly only for ids without the delimiter (`SplitUndoesJoin`).
- A flush that the store refuses loses its whole batch, so counts are conserved exactly when every refused flush found
  the accumulator empty (`CountsConservedExactly`).
- The builder checks only the source of an edge.  Its target is a node in the team's graph and in a service's subgraph,
  where rows are fetched for the services drawn (`GraphWellFormed`).  The full graph draws no active service marked
  external unless a row names it, but fetches its rows: it is well formed exactly when every active external service
  that owns a row is named by a row of an active service (`FullGraphWellFormedExactly`, `FullGraphOfExternalOwner`).
- Capacity plus rate times length bounds the accepted requests exactly when the key's bucket is not evicted: each update
  of a key's limit evicts it, even one to the same limit, and lends the client a full bucket
  (`CapacityAndRateBoundExactlyWithoutEvictions`, `EvictionsLendFully`, `AcceptedWithinAllowance`).

## Model

| member | source | states |
|---|---|---|
| EdgeRouter.DetectLayers | client/src/utils/edgeRouter.ts:28-52 | the layers are those of `LayersOf`: nodes in stable order of the primary coordinate, each joining the first layer within the tolerance or opening one at its own coordinate, layers sorted by position |
| EdgeRouter.BuildNodeLayerIndex | client/src/utils/edgeRouter.ts:55-64 | each listed id gets the number of its layer, the last one listing it |
| EdgeRouter.AssignEdgesToGaps | client/src/utils/edgeRouter.ts:67-88 | each gap lists exactly the edges whose ends are in different layers, the earlier being the gap's, in edge order; gaps in order of first mention |
| EdgeRouter.AdjustLayerSpacing | client/src/utils/edgeRouter.ts:101-154 | the result is `Respaced`, the function the respacing theorems are about; empty and single-layer inputs come back unchanged |
| EdgeRouter.ComputeMaxLanesPerGap | client/src/utils/edgeRouter.ts:159-175 | the result bounds the edges of every gap and some gap attains it (0 when none is used) |
| EdgeRouter.ComputeEdgeRoutes | client/src/utils/edgeRouter.ts:184-250 | the result is `Routes`, the function the routing theorems are about; no nodes or no edges give no lanes |
| EdgeRouterTheorems.EveryNodeInLayer | client/src/utils/edgeRouter.ts:28-52 | every node is in exactly one layer, which lists it and starts at most LAYER_TOLERANCE before it, and the index names that layer |
| EdgeRouterTheorems.LayersInStableOrder | client/src/utils/edgeRouter.ts:31-52 | read one after another the layers list every node once, by primary coordinate, and nodes with one coordinate in input order |
| EdgeRouterTheorems.SpacingKeepsLayers | client/src/utils/edgeRouter.ts:101-154 | detecting layers after respacing finds the same layers, same ids in the same order, at exactly the new positions |
| EdgeRouterTheorems.SpacingOfLayers | client/src/utils/edgeRouter.ts:119-129 | after respacing consecutive layers are exactly node size plus max(MIN_LAYER_GAP, edges * laneSpacing + 2 * padding) apart |
| EdgeRouterTheorems.SpacingKeepsOffsets | client/src/utils/edgeRouter.ts:140-153 | each node keeps its offset inside its layer |
| EdgeRouterTheorems.RespacedNode | client/src/utils/edgeRouter.ts:140-153 | respacing keeps the number and order of nodes, their ids and their cross-axis coordinates |
| EdgeRouterTheorems.SpacingIdempotent | client/src/utils/edgeRouter.ts:101-154 | respacing a second time changes nothing |
| EdgeRouterTheorems.RoutedExactly | client/src/utils/edgeRouter.ts:208-247 | for any input with unique ids, an edge gets a lane if and only if its ends are nodes of different layers |
| EdgeRouterTheorems.InterLayerEdgesGetLanes | client/src/utils/edgeRouter.ts:184-250 | after respacing, an edge gets a lane if and only if its ends are further apart on the primary axis than the tolerance |
| EdgeRouterTheorems.LanesClearBoxes | client/src/utils/edgeRouter.ts:227-246 | after respacing with the same spacing, every lane keeps padding plus half a lane from every node box, less the tolerance where a box sits past its layer position |
| EdgeRouterTheorems.DefaultLanesClearBoxes | client/src/utils/edgeRouter.ts:184-250 | with the default spacing every lane is at least the padding away from every node box of the graph |
| EdgeRouterTheorems.LanesApart | client/src/utils/edgeRouter.ts:240-246 | any two lanes, in one gap or in two, are at least laneSpacing apart |
| EdgeRouterTheorems.LanesFollowTargets | client/src/utils/edgeRouter.ts:213-246 | in one gap lanes follow the cross-axis order of the targets, then of the sources, at least laneSpacing apart |
| EdgeRouterCoordinates.LayersByCoordinate | client/src/utils/edgeRouter.ts:28-52 | a node starts at most 5 after the position of its layer, which is the coordinate of one of its nodes, and layers are more than 5 apart |
| EdgeRouterCoordinates.PositionsAreTheLayering | client/src/utils/edgeRouter.ts:28-52 | a list of positions more than 5 apart, each the coordinate of a node and one of them at most 5 before every node, exists only once: it is that of the layers |
| EdgeRouterCoordinates.GapsInNumbers | client/src/utils/edgeRouter.ts:119-129 | after respacing neighbouring layers are 100 (top to bottom) or 180 (left to right) plus the gap apart, which is 100, or n * laneSpacing + 2 * padding where that is more, for the n edges between the earlier of the two and any later layer |
| EdgeRouterCoordinates.DefaultGapsInNumbers | client/src/utils/edgeRouter.ts:4-10 | with the default spacing up to two lanes fit a gap of 100, and n more need 60 + 15 n |
| EdgeRouterCoordinates.LanesInNumbers | client/src/utils/edgeRouter.ts:227-246 | the k-th of n lanes of a gap lies (k - (n - 1) / 2) * laneSpacing from the middle between the boxes of the one layer and the next |
| EdgeRouterCoordinates.LanesByCoordinate | client/src/utils/edgeRouter.ts:213-246 | of two edges of a gap the one whose target, or with equal targets whose source, lies lower on the cross axis has its lane at least laneSpacing before the other's |
| EdgeRouterCoordinates.LevelLanesInGraphOrder | client/src/utils/edgeRouter.ts:213-246 | edges level in both take their lanes in the order of the edge list |
| StringMatchers.LevenshteinDistance | server/src/utils/stringMatchers.ts:93-130 | the matrix computation returns the length of the shortest insert/delete/substitute script from a to b |
| StringMatchers.NeighbourCells | server/src/utils/stringMatchers.ts:109-126 | neighbouring cells differ by at most one |
| StringMatchers.MatchTakesDiagonal | server/src/utils/stringMatchers.ts:111-113 | on a character match the diagonal is the three-way minimum, so taking it without a min loses nothing |
| StringMatchers.NoShorterScript | server/src/utils/stringMatchers.ts:93-130 | no edit script from a to b is shorter than the distance |
| StringMatchers.ShortestScript | server/src/utils/stringMatchers.ts:93-130 | some edit script attains the distance |
| StringMatchers.Triangle | server/src/utils/stringMatchers.ts:93-130 | the triangle inequality |
| StringMatchers.DistIsShortest | server/src/utils/stringMatchers.ts:93-130 | the recurrence is the minimum script length |
| StringMatchers.DistIsMetric | server/src/utils/stringMatchers.ts:93-130 | zero for equal texts only, symmetric, triangle inequality |
| StringMatchers.CalculateSimilarity | server/src/utils/stringMatchers.ts:138-145 | one minus distance over the longer length, the two shortcuts included |
| StringMatchers.SimilarityIsRatio | server/src/utils/stringMatchers.ts:138-145 | the similarity is between 0 and 1, is 1 for equal texts only, and is symmetric |
| StringMatchers.SimilarityInScripts | server/src/utils/stringMatchers.ts:138-145 | the similarity times the longer length is that length less the length of the shortest edit script |
| StringMatchers.CalculateTokenOverlap | server/src/utils/stringMatchers.ts:70-85 | common distinct tokens over the size of the smaller token set; 0 when a list is empty |
| StringMatchers.OverlapIsRatio | server/src/utils/stringMatchers.ts:70-85 | the overlap is between 0 and 1, 0 exactly for disjoint sets, 1 exactly when one set holds the other, and symmetric |
| StringMatchers.OverlapInCounts | server/src/utils/stringMatchers.ts:70-85 | the overlap times the size of the smaller set is the number of common tokens |
| HistogramPercentiles.Accumulate | server/src/utils/histogramPercentiles.ts:47-53 | entry k is the sum of the first k + 1 counts |
| HistogramPercentiles.InterpolatePercentile | server/src/utils/histogramPercentiles.ts:80-113 | for any bounds and buckets the early-return loop yields the interpolation in the first bucket whose cumulative count reaches the rank, or the fallback, scaled; NaN where a bound is missing |
| HistogramPercentiles.ComputePercentiles | server/src/utils/histogramPercentiles.ts:35-74 | zeros when empty; otherwise the rounded percentiles, minimum, maximum and average, with numbers p50 <= p95 <= p99 for well-formed histograms, whatever count is reported |
| HistogramPercentiles.FallbackCondition | server/src/utils/histogramPercentiles.ts:89-112 | the fallback is reached if and only if the rank exceeds the sum of the buckets |
| HistogramPercentiles.PercentileInsideBucket | server/src/utils/histogramPercentiles.ts:89-108 | for a well-formed histogram the covering bucket exists and is not empty, so neither the zero-bucket branch nor the fallback is reached, and the percentile lies inside it |
| HistogramPercentiles.NaNExactlyWithoutBounds | server/src/utils/histogramPercentiles.ts:90-112 | a percentile is NaN if and only if all buckets hold its rank and there is no bound, or the buckets up to the overflow one do not hold it |
| HistogramPercentiles.PercentileInvertsDistribution | server/src/utils/histogramPercentiles.ts:102-107 | the piecewise-linear cumulative count at the percentile is the rank if and only if the covering bucket is not the overflow one and has a width |
| HistogramPercentiles.FlatBucketDoesNotInvert | server/src/utils/histogramPercentiles.ts:92-107 | with a first bound of zero the median of one observation is 0, below which nothing lies |
| HistogramPercentiles.PercentileMonotone | server/src/utils/histogramPercentiles.ts:80-113 | a higher percentile is never smaller, whatever count is reported beside the buckets |
| HistogramPercentiles.PercentilesInOrder | server/src/utils/histogramPercentiles.ts:55-72 | the order survives scaling and rounding to two decimals |
| HistogramPercentiles.RoundIsClose | server/src/utils/histogramPercentiles.ts:65-73 | rounding moves a value by at most half a hundredth |
| PercentileNumbers.PercentileInNumbers | server/src/utils/histogramPercentiles.ts:41-113 | a percentile is the unit times the point at which its share of the reported count is reached: in the first bucket that holds it, in proportion between the bucket's bounds, 0 below the first and the last bound above the last; NaN exactly where such a bound is missing; the last bound when no bucket holds it |
| PercentileNumbers.SummaryInNumbers | server/src/utils/histogramPercentiles.ts:59-73 | extremes are scaled by the unit, the average is the sum times the unit over the count, and both are rounded to hundredths, halves upwards |
| PercentileNumbers.CountInNumbers | server/src/utils/histogramPercentiles.ts:41 | the count is the reported one, else the sum of the buckets |
| PerKeyRateLimit.TokenBucket.Refill | server/src/middleware/perKeyRateLimit.ts:55-59 | tokens grow by elapsed time times rate, capped at the capacity, and the refill time is now |
| PerKeyRateLimit.RateLimiter.EvictBucket | server/src/middleware/perKeyRateLimit.ts:17-19 | exactly the key's bucket is dropped |
| PerKeyRateLimit.RateLimiter.GetOrCreateBucket | server/src/middleware/perKeyRateLimit.ts:26-53 | the existing bucket, or a full new one for the effective rate, or none when the rate is unlimited; other buckets untouched |
| PerKeyRateLimit.RateLimiter.Handle | server/src/middleware/perKeyRateLimit.ts:71-161 | the decision, the headers, the logged warning, all buckets and all warning times afterwards are those of `Step` and `Answer`, the functions the run theorems are about |
| PerKeyRateLimit.TokensInRange | server/src/middleware/perKeyRateLimit.ts:55-136 | on every run with a clock that does not go back, whatever positive rates the key gets, 0 <= tokens <= capacity |
| PerKeyRateLimit.AcceptedWithinAllowance | server/src/middleware/perKeyRateLimit.ts:17-136 | over any interval of any run, whatever rates the key gets, at most the capacities of the buckets charged plus what each earned at its own rate are accepted |
| PerKeyRateLimit.AcceptedBound | server/src/middleware/perKeyRateLimit.ts:55-136 | for a key of one rate that is at most (evictions + 1) * capacity + rate * length |
| PerKeyRateLimit.EvictionsLendFully | server/src/routes/admin/apiKeyRateLimit.ts:30-38 | for every configuration, rate and k a run at one instant with k evictions has (k + 1) * capacity requests accepted |
| PerKeyRateLimit.CapacityAndRateBoundExactlyWithoutEvictions | server/src/middleware/perKeyRateLimit.ts:17-136 | capacity + rate * length bounds the accepted requests of all intervals with at most k evictions if and only if k is 0 |
| PerKeyRateLimit.SpacedClientNeverRejected | server/src/middleware/perKeyRateLimit.ts:105-136 | a client that spaces its requests at least 1/rate apart is never rejected |
| PerKeyRateLimit.RetryAfterSuffices | server/src/middleware/perKeyRateLimit.ts:110-136 | an otherwise idle client that waits the advertised Retry-After is accepted |
| PerKeyRateLimit.WarningsDebounced | server/src/middleware/perKeyRateLimit.ts:139-158 | over every run two warnings logged for one key are more than fifteen minutes apart |
| PerKeyRateLimit.OtherKeysDoNotMatter | server/src/middleware/perKeyRateLimit.ts:71-161 | a request or an eviction of one key leaves every other key's bucket alone |
| RateLimitNumbers.ChargedInWords | server/src/middleware/perKeyRateLimit.ts:21-24 | a request is charged outside development to a known key whose own rate is not 0, at its own rate or else the default |
| RateLimitNumbers.AcceptedInNumbers | server/src/middleware/perKeyRateLimit.ts:39-136 | over L milliseconds with k evictions a key of rate rpm has at most (k + 1) * c + rpm * L / 60000 requests accepted, c being the least integer with 60 * c >= rpm * burstSeconds; c + rpm * L / 60000 without evictions |
| RateLimitNumbers.SpacedInNumbers | server/src/middleware/perKeyRateLimit.ts:39-136 | a client that leaves at least 60000 / rpm milliseconds between requests is never rejected |
| RateLimitNumbers.ChargedToSome | server/src/middleware/perKeyRateLimit.ts:26-53 | a charged request is let through for free if and only if no bucket opened before serves and its key is granted 0, else it is charged to the bucket opened last, at the rate of that time |
| RateLimitNumbers.FindsSome | server/src/middleware/perKeyRateLimit.ts:55-136 | every charged request finds a number of tokens that is the least, over all charges to its bucket so far, of capacity plus rate times time less the requests accepted since |
| RateLimitNumbers.DecidedInUnits | server/src/middleware/perKeyRateLimit.ts:105-136 | it is accepted if and only if that is at least one token; otherwise Retry-After is the least number of seconds that earn the rest |
| RateLimitNumbers.HeadersInNumbers | server/src/middleware/perKeyRateLimit.ts:61-69 | the limit is the bucket's rate, the rest the whole tokens left, the reset the first second by which the bucket is full, and the warning is set if and only if the request was accepted and the share used has reached the threshold |
| RateLimitNumbers.WarningLoggedExactly | server/src/middleware/perKeyRateLimit.ts:139-158 | a warning is logged if and only if every earlier one of the key is more than 900000 ms old, and without any the clock is past 900000 |
| AlertLimits.FlapProtector.IsSuppressed | server/src/services/alerts/FlapProtector.ts:19-26 | suppressed if and only if the cooldown is positive and the key's last alert is younger |
| AlertLimits.FlapProtector.RecordAlert | server/src/services/alerts/FlapProtector.ts:32-34 | the key's time becomes now, the others stay |
| AlertLimits.AlertRateLimiter.GetOrCreateEntry | server/src/services/alerts/AlertRateLimiter.ts:39-51 | the entry of the window in force, stored; a new window when there is none or the hour is over |
| AlertLimits.AlertRateLimiter.IsLimited | server/src/services/alerts/AlertRateLimiter.ts:25-28 | limited if and only if the window's count has reached the limit; asking opens the window |
| AlertLimits.AlertRateLimiter.RecordAlert | server/src/services/alerts/AlertRateLimiter.ts:34-37 | the window's count grows by one |
| AlertService.AlertEngine.ProcessEvent | server/src/services/alerts/AlertService.ts:151-292 | the synchronous part up to the first await: state, outcome and history records are those of `Step` |
| AlertService.AlertEngine.SendToChannels | server/src/services/alerts/AlertService.ts:284-307 | each channel leaves exactly one record, and a retry is scheduled for exactly the channels whose registered sender did not succeed, in channel order |
| AlertService.AlertEngine.ScheduleRetry | server/src/services/alerts/AlertService.ts:394-423 | one pending retry for a registered sender, none otherwise |
| AlertService.AlertEngine.FireRetry | server/src/services/alerts/AlertService.ts:403-418 | the fired timer leaves the pending list, the others stay in order, a success is recorded and nothing is scheduled again |
| AlertService.AlertEngine.Shutdown | server/src/services/alerts/AlertService.ts:79-100 | all in-memory state and all pending retries are cleared |
| AlertService.OthersStay | server/src/services/alerts/AlertService.ts:405 | filtering by timer removes exactly one pending retry |
| AlertRuns.CooldownKept | server/src/services/alerts/AlertService.ts:246-281 | a dispatch that is no recovery comes at least its cooldown after every earlier dispatch for its key |
| AlertRuns.RecoveriesPass | server/src/services/alerts/AlertService.ts:181-282 | a recovery that reaches the delay check is dispatched or silent, never flap- or rate-suppressed; without a delay it is dispatched |
| AlertRuns.HourAccounted | server/src/services/alerts/AlertRateLimiter.ts:25-51 | the accounting invariant behind the hourly bounds holds after every step of every run |
| AlertRuns.WindowBound | server/src/services/alerts/AlertService.ts:265-282 | within a limiter window a team gets at most the limit of dispatches that are no recoveries |
| AlertRuns.HourlyBound | server/src/services/alerts/AlertService.ts:265-282 | in any half-open hour a team gets at most twice the limit of them |
| AlertRuns.HourlyBoundTight | server/src/services/alerts/AlertService.ts:265-282 | with limits of at least 1, at most twice the limit less one |
| AlertBursts.BurstDispatched | server/src/services/alerts/AlertService.ts:265-282 | poll errors of as many services as the window still allows are all dispatched and counted |
| AlertBursts.HourlyBoundAttained | server/src/services/alerts/AlertRateLimiter.ts:43-48 | for every limit L >= 1 a run dispatches 2L - 1 times within one hour |
| AlertBursts.HourlyLimitKeptExactlyUpToOne | server/src/services/alerts/AlertRateLimiter.ts:25-51 | over all runs with limit L every half-open hour has at most L dispatches that are no recoveries if and only if L <= 1 |
| AlertRuns.SentIsTracked | server/src/services/alerts/AlertService.ts:213-244 | delayAlertSent is a subset of the delayTracker keys on every run |
| AlertRuns.DelayHonoured | server/src/services/alerts/AlertService.ts:224-244 | an outage gets past a delay of N minutes only when an earlier one for its key is at least N minutes old and no recovery reached the delay check in between |
| AlertRuns.SilentExactlyBelowThreshold | server/src/services/alerts/AlertService.ts:213-223 | a recovery is silent if and only if a delay is configured, an outage was tracked since the last recovery and none of its events crossed the threshold |
| AlertDecisions.GatesInOrder | server/src/services/alerts/AlertService.ts:151-210 | which events stop before the delay check and how, by team, rules, severity, channels and mutes, and that every other is considered under the first rule that admits it |
| AlertDecisions.DelayInMinutes | server/src/services/alerts/AlertService.ts:224-244 | a change to unhealthy under a delay of N minutes starts the wait if and only if no outage lasts, waits if and only if every event of the lasting one is younger than N * 60000 ms, and otherwise gets past |
| AlertDecisions.OthersDoNotWait | server/src/services/alerts/AlertService.ts:224-244 | a poll error, and any outage under a rule without a delay, gets past |
| AlertDecisions.RecoveriesInWords | server/src/services/alerts/AlertService.ts:213-223 | a recovery is silent if and only if the rule has a delay and an outage lasts of which no event got past it, and is dispatched otherwise |
| AlertDecisions.CooldownInMinutes | server/src/services/alerts/AlertService.ts:246-263 | past the delay an event that is no recovery is suppressed by flap protection if and only if an earlier event of its dependency or service, recoveries included, was dispatched less than m * 60000 ms before, m being the rule's own minutes under custom thresholds, else the default |
| AlertDecisions.LimitInDispatches | server/src/services/alerts/AlertService.ts:265-277 | past flap protection it is rate-limited if and only if the team's window, opened less than 3600000 ms ago by an event that asked or was dispatched, has seen as many dispatches as the rule's own limit under custom thresholds, else the default |
| AlertDecisions.HistoryShows | server/src/services/alerts/AlertService.ts:184-276 | a muted or suppressed event leaves one record saying so for each channel in order, any other none before sending |
| AlertDecisions.RetriesInWords | server/src/services/alerts/AlertService.ts:284-307 | retries are scheduled for exactly the channels with a registered sender that failed or threw, in order |
| AlertDelays.AdmittingWarningsHonoursDelay | server/src/services/alerts/AlertService.ts:168-244 | for a rule that admits warnings and no mutes, an outage alert means continuously unhealthy for the delay |
| AlertDelays.DelayHonouredExactlyWhenWarningsAdmitted | server/src/services/alerts/AlertService.ts:168-244 | that promise holds over all runs of one rule if and only if the rule is not critical-only |
| AlertDelays.DelaySilencesOutages | server/src/services/alerts/AlertService.ts:224-232 | where status events alternate, a rule that admits warnings and has a delay never announces an outage of an unmuted dependency: each only starts the delay |
| AlertDelays.DelaySilencesRecoveries | server/src/services/alerts/AlertService.ts:213-223 | on such runs the recovery after an outage is silent |
| AlertDelays.UnannouncedOutageExactly | server/src/services/alerts/AlertService.ts:213-282 | with a delay and a tracked outage, a recovery is dispatched without any dispatched outage since the last recovery if and only if some event of the outage crossed the threshold and every one that did was flap- or rate-suppressed |
| AlertDelays.RecoveryOfUnannouncedOutage | server/src/services/alerts/AlertService.ts:242-277 | for every rule that admits warnings and has a delay, a run of alternating events in which the outage is rate-limited and its recovery announced |
| AlertDelays.RecoveriesFollowOutagesExactlyWhenCriticalOnly | server/src/services/alerts/AlertService.ts:168-277 | over the receivable runs of a rule with a delay, announced recoveries follow announced outages if and only if the rule is critical-only |
| ApiKeyUsage.UsageTracker.IncrementRejected | server/src/middleware/trackApiKeyUsage.ts:21-32 | one rejection more in the minute and the hour bucket of the key, nothing else changed |
| ApiKeyUsage.UsageTracker.TrackRequest | server/src/middleware/trackApiKeyUsage.ts:90-111 | one request more in both buckets; a request without a key counts nowhere |
| ApiKeyUsage.UsageTracker.Flush | server/src/middleware/trackApiKeyUsage.ts:34-56 | the accumulator empties; every store row gains exactly what was pending for it, or, when the store throws, the store stays and the error is passed on |
| ApiKeyUsage.SplitUndoesJoin | server/src/middleware/trackApiKeyUsage.ts:27-45 | splitting a joined map key gives its parts back if and only if the id has no delimiter |
| ApiKeyUsage.JoinUndoesSplit | server/src/middleware/trackApiKeyUsage.ts:41-45 | joining what was split gives the key back, and the parts before the last have no delimiter |
| ApiKeyUsage.CountsConserved | server/src/middleware/trackApiKeyUsage.ts:21-111 | at every point of every run, stored plus accumulated plus the batches lost to refused flushes is the number of events, per key and bucket |
| ApiKeyUsage.BatchesHold | server/src/middleware/trackApiKeyUsage.ts:34-56 | the store holds exactly the events of the batches whose flush went through, the accumulator those since the last flush |
| ApiKeyUsage.CountsConservedExactly | server/src/middleware/trackApiKeyUsage.ts:34-56 | stored plus accumulated is the number of events of every bucket if and only if every refused flush found the accumulator empty |
| ApiKeyUsage.MinuteBucketsSumToHourBucket | server/src/middleware/trackApiKeyUsage.ts:13-19 | at every point of every run, refused flushes included, the sixty minute buckets of an hour sum to its hour bucket |
| ApiKeyUsage.TallyInEvents | server/src/middleware/trackApiKeyUsage.ts:13-32 | a bucket's tally is the numbers of accepted and rejected requests of its key in the minute or hour it is named after |
| HealthTimeline.BuildSegments | client/src/components/Charts/HealthTimeline.tsx:34-106 | the segments are non-empty, contiguous from range start to now, as wide as their share, and show at each instant the state of the last transition at or before it, or the inverse of the first |
| HealthTimeline.BuildFromSorted | client/src/components/Charts/HealthTimeline.tsx:65-105 | the loop over sorted transitions keeps the same three properties |
| HealthTimeline.DurationsSumToRange | client/src/components/Charts/HealthTimeline.tsx:79-103 | the durations sum to the range |
| HealthTimeline.WidthsSumTo100 | client/src/components/Charts/HealthTimeline.tsx:86-101 | the widths sum to 100 |
| HealthTimeline.InstantInOneSegment | client/src/components/Charts/HealthTimeline.tsx:58-105 | every instant of the range lies in exactly one segment |
| HealthTimeline.RangeInNumbers | client/src/components/Charts/HealthTimeline.tsx:23-32 | the ranges are 86400000, 604800000 and 2592000000 ms, and a width is the percentage of the range |
| HealthTimeline.TimelineInTransitions | client/src/components/Charts/HealthTimeline.tsx:44-104 | the segment over an instant has the state of the latest transition by then, the last listed of those at one time, and before all the opposite of the earliest |
| HealthTimeline.CurrentInWords | client/src/components/Charts/HealthTimeline.tsx:44-52 | without transitions the whole range has the server's state, unknown unless it is healthy or unhealthy |
| Reachability.ReachableIsLeastClosed | server/src/services/graph/GraphService.ts:221-264 | the reachable set is the least set that holds the start and is closed under the arcs |
| Reachability.ReachesReversed | client/src/utils/graphTraversal.ts:35-55 | reaching in the reversed graph is being reached |
| GraphTraversal.GetUpstreamNodeIds | client/src/utils/graphTraversal.ts:10-30 | the queue loop ends, duplicates included, with exactly what the start reaches along edges |
| GraphTraversal.GetDownstreamNodeIds | client/src/utils/graphTraversal.ts:35-55 | the queue loop ends with exactly what reaches the start |
| GraphTraversal.UpstreamExact | client/src/utils/graphTraversal.ts:10-30 | `Upstream` is reachability by directed walks |
| GraphTraversal.DownstreamExact | client/src/utils/graphTraversal.ts:35-55 | `Downstream` is reachability to the node, and upstream in the reversed graph |
| GraphTraversal.GetRelatedNodeIds | client/src/utils/graphTraversal.ts:60-64 | ancestors and descendants of the node |
| GraphTraversal.GetRelatedNodeIdsFromEdge | client/src/utils/graphTraversal.ts:69-81 | what reaches the edge's source and what its target reaches; none for an unknown edge |
| GraphTraversal.GetRelatedEdgeIds | client/src/utils/graphTraversal.ts:86-132 | node selection before edge selection; the ids of edges inside one of the two chains |
| GraphTraversal.RelatedEdgesLieOnWalks | client/src/utils/graphTraversal.ts:94-107 | for a node exactly the edges on some directed walk that starts or ends there are selected |
| GraphTraversal.EdgesRelatedToEdgeLieOnWalks | client/src/utils/graphTraversal.ts:108-128 | for an edge exactly the edges on some directed walk through it are selected |
| GraphTraversal.GetIsolatedTree | client/src/utils/graphTraversal.ts:138-162 | none when the target cannot be resolved, otherwise the nodes and edges kept by the related ids, in order |
| GraphTraversal.IsolationIsInducedSubgraph | client/src/utils/graphTraversal.ts:138-162 | the result is the subgraph induced by the ancestors and descendants of the target |
| GraphTraversal.IsolationIdempotent | client/src/utils/graphTraversal.ts:138-162 | isolating the result again with the same target returns it unchanged |
| DependencyGraph.GroupByServiceId | server/src/utils/deduplication.ts:11-21 | each key's group is exactly its rows in order, and only keys with rows have a group |
| DependencyGraph.GroupUnassociatedDeps | server/src/services/graph/ExternalNodeBuilder.ts:35-59 | each normalised name with unassociated rows has one group: its rows in order, the first row's display name, the id made from the name |
| DependencyGraph.UnassociatedHasGroup | server/src/services/graph/ExternalNodeBuilder.ts:40-56 | every unassociated row is in the group of its own normalised name |
| DependencyGraph.GroupHasRow | server/src/services/graph/ExternalNodeBuilder.ts:40-56 | every group comes from some unassociated row |
| DependencyGraph.BuildNameToIdMap | server/src/services/graph/ExternalNodeBuilder.ts:130-136 | exactly the groups' names map to their ids |
| DependencyGraph.DependencyGraphBuilder.AddNode | server/src/services/graph/DependencyGraphBuilder.ts:32-79 | a node whose id is taken is ignored, any other is appended, and ids stay unique |
| DependencyGraph.DependencyGraphBuilder.AddEdge | server/src/services/graph/DependencyGraphBuilder.ts:102-128 | an edge is appended exactly when its source resolves to a node and its id is free; the source is the associated service, else the external node of the normalised name |
| DependencyGraph.AddEdges | server/src/services/graph/GraphService.ts:186-188 | after offering rows every edge draws some offered row, and every drawable row has an edge with its id |
| DependencyGraph.EdgeIdsTellApart | server/src/services/graph/DependencyGraphBuilder.ts:116 | equal edge ids mean equal source, target and type, whatever the types, when the sources and the owners have ids of one length |
| DependencyGraph.EdgeIdsTellApartExactly | server/src/services/graph/DependencyGraphBuilder.ts:116 | for types of any text the ids of edges with two pairs of ends never coincide if and only if the pairs are one or neither joined pair begins the other |
| GraphService.TraverseUpstream | server/src/services/graph/GraphService.ts:221-264 | ends on every store, cycles included; visited is exactly what the start reaches, every stored visited service is paired once with exactly its own rows, and the collected rows are theirs, each once |
| GraphService.NextFrontier | server/src/services/graph/GraphService.ts:254-262 | the associated services not yet visited, each once |
| GraphService.PairUp | server/src/services/graph/GraphService.ts:246-252 | each service of a level is paired with all its stored rows |
| GraphService.LevelAdvances | server/src/services/graph/GraphService.ts:229-263 | one level keeps the search invariant: everything seen is reachable and what visited services depend on is visited or in the frontier |
| GraphService.AddExternalNodes | server/src/services/graph/GraphService.ts:196-216 | one node for each unassociated name and the map from the name to it; no map without unassociated rows |
| GraphService.FindExternalServiceIds | server/src/services/graph/GraphService.ts:269-284 | the associated services that are no nodes yet, each once |
| GraphService.BuildGraph | server/src/services/graph/GraphService.ts:161-191 | the nodes are the services asked for, their stored providers and the external nodes, and the edges draw the rows |
| GraphService.GetFullGraph | server/src/services/graph/GraphService.ts:41-48 | the graph over the active services that are not external and over the rows of all active services, stored providers and external nodes included |
| GraphService.WellFormedExactlyWhenOwnersDrawn | server/src/services/graph/DependencyGraphBuilder.ts:102-128 | with ids as the code makes them, both ends of every edge are nodes if and only if the owner of every row that can be drawn is one |
| GraphService.FullGraphWellFormedExactly | server/src/stores/impl/DependencyStore.ts:87-113 | the full graph is well formed if and only if every active external service that owns a row is named by a row of an active service |
| GraphService.FullGraphOfExternalOwner | server/src/services/polling/otlpServiceResolver.ts:15-25 | a row pushed under the id of an active external service gives the full graph an edge to an id that is no node |
| GraphService.GetTeamGraph | server/src/services/graph/GraphService.ts:54-101 | empty for an unknown team or one without active services, otherwise a well-formed graph over them |
| GraphService.GetServiceSubgraph | server/src/services/graph/GraphService.ts:106-135 | a well-formed graph over exactly the stored services the start reaches and their rows |
| GraphService.GraphWellFormed | server/src/services/graph/DependencyGraphBuilder.ts:102-128 | unique node ids, unique edge ids, both ends of every edge among the nodes, no two edges with one source, target and type |
| GraphService.UnassociatedResolves | server/src/services/graph/DependencyGraphBuilder.ts:107-114 | an unassociated row resolves to the external node of its own normalised name, which is a node |
| GraphService.GeneratedIdsTellApart | server/src/services/graph/ExternalNodeBuilder.ts:27-30 | rows with ids as the code makes them, services' and external ones, share an edge id only with one source, owner and type |
| GraphService.EveryRowDrawn | server/src/services/graph/GraphService.ts:182-190 | no row with a drawn provider is lost, whatever its type: the graph has an edge with its provider, owner and type |
| GraphService.ProvidersReached | server/src/services/graph/GraphService.ts:254-262 | every provider the rows of a subgraph name was itself reached |
| GraphInRows.GroupInNames | server/src/services/graph/ExternalNodeBuilder.ts:35-62 | the group of a normalised name holds the unassociated rows whose canonical name, or else name, normalises to it, in order, under that text of the first, with the id external- and the hash of the name |
| GraphInRows.SourceInRows | server/src/services/graph/DependencyGraphBuilder.ts:102-114 | a row's edge starts at its associated service, else at the external node of its canonical or own name when some unassociated row has that name, else nowhere |
| GraphInRows.NamesakesShareSource | server/src/services/graph/DependencyGraphBuilder.ts:107-114 | two unassociated rows whose canonical names, or else names, normalise to one text have one source |
| GraphInRows.NodesInRows | server/src/services/graph/GraphService.ts:161-216 | the nodes of a graph are its services and the external nodes of its unassociated rows |
| GraphInRows.EdgesInRows | server/src/services/graph/DependencyGraphBuilder.ts:102-142 | every edge joins a row's source, if it is a node, to the row's owner under the joined id, every such row has an edge of its id, and no id is there twice |
| GraphInRows.EveryRowHasItsEdge | server/src/services/graph/DependencyGraphBuilder.ts:102-142 | with ids as the code makes them every such row has an edge of its own source, owner and type |
| GraphInRows.FullGraphInRows | server/src/services/graph/GraphService.ts:41-48 | the full graph is over the rows of active services; its nodes are the active services not external, the stored ones those rows name, and their external nodes |
| GraphInRows.TeamGraphInRows | server/src/services/graph/GraphService.ts:54-101 | a team's graph is over its active services, external or not, and their rows |
| GraphInRows.SubgraphInRows | server/src/services/graph/GraphService.ts:106-135 | a subgraph's nodes are the reached services that are stored and the external nodes of the reached services' rows |
| GraphInRows.ArcsInRows | server/src/services/graph/GraphService.ts:254-262 | reachability follows a row from its owner to the service it is associated with |
| ManifestDiffer.DiffManifest | server/src/services/manifest/ManifestDiffer.ts:35-84 | the filled result object is `DiffOf`, the function the manifest theorems are about |
| ManifestDiffer.DiffResult.DiffExistingService | server/src/services/manifest/ManifestDiffer.ts:92-181 | adds exactly the update, drift, keep-local and unchanged entries of one matched service |
| ManifestDiffer.ClassifyFields | server/src/services/manifest/ManifestDiffer.ts:105-154 | the field loop sorts the fields into the three lists by `Classify`, in order |
| ManifestDiffer.DiffResult.ApplyRemovalPolicy | server/src/services/manifest/ManifestDiffer.ts:186-202 | the service goes to the one list the policy names |
| ManifestSync.CreatedExactlyWhenUnmatched | server/src/services/manifest/ManifestDiffer.ts:63-74 | an entry is created if and only if no keyed service has its key |
| ManifestSync.LastOfKeyFound | server/src/services/manifest/ManifestDiffer.ts:51-57 | of rows with one key the last is the one an entry finds |
| ManifestSync.FieldLandsOnce | server/src/services/manifest/ManifestDiffer.ts:105-171 | in the whole diff a field of a matched service is updated, flagged or kept exactly as classified, never in two lists |
| ManifestSync.DiffIsThreeWayMerge | server/src/services/manifest/ManifestDiffer.ts:105-171 | the diff updates a differing field of a matched service if and only if it is a first sync, the database equals the snapshot, or the manifest wins; it flags or keeps an edited one by policy |
| ManifestSync.LandsOnlyThere | server/src/services/manifest/ManifestDiffer.ts:156-171 | whatever names a matched service in a list came from its own entry |
| ManifestSync.UnchangedExactlyWhenAllSkipped | server/src/services/manifest/ManifestDiffer.ts:173-180 | a matched service is unchanged if and only if no field differs |
| ManifestSync.RemovedOnceByPolicy | server/src/services/manifest/ManifestDiffer.ts:76-81 | the keyed services the manifest does not name form exactly the one removal list of the policy, in order |
| ManifestApply.BuildUpdateInput | server/src/services/manifest/ManifestSyncService.ts:515-522 | the columns an update sets are the changed fields with their update values |
| ManifestApply.UpdateRows | server/src/stores/impl/ServiceStore.ts:162-222 | the row with the id gets the columns and the whole snapshot, other rows stay; refused when a required column would be null |
| ManifestApply.ApplyUpdates | server/src/services/manifest/ManifestSyncService.ts:513-538 | all updates in order, or a rollback |
| ManifestApply.RollsBackExactlyWhenNullRequired | server/src/services/manifest/ManifestSyncService.ts:513-538 | a sync rolls back if and only if some update sets a required column to null |
| ManifestApply.RollsBackExactlyWhenNullGiven | server/src/services/manifest/ManifestSyncService.ts:684-700 | for a whole manifest: rollback if and only if some entry nulls the interval or endpoint of a matched row that has one, and the row is first synced or unedited or the manifest wins |
| ManifestApply.NullIntervalRollsBack | server/src/services/manifest/ManifestValidator.ts:249-263 | an interval turned into an explicit null reaches that, under every policy |
| ManifestApply.NullEndpointRollsBack | server/src/services/manifest/ManifestValidator.ts:212-219 | a polled service switched to OTLP with a null endpoint reaches that, under every policy |
| ManifestApply.RowAfter | server/src/services/manifest/ManifestSyncService.ts:513-538 | each row is changed by the one update that names it, if any |
| ManifestApply.ClassifyAgain | server/src/services/manifest/ManifestDiffer.ts:105-154 | the second classification of every field after its service's update, in terms of the first |
| ManifestApply.StoredAsGivenMeaning | server/src/services/manifest/ManifestSyncService.ts:684-700 | the stored update value has the manifest's text unless the format is an explicit null or the schema is a JSON text |
| ManifestApply.DiffAgainAfterApply | server/src/services/manifest/ManifestSyncService.ts:513-538 | a diff after applying all updates has no update and the same drift if and only if edits are kept local or every updated field is stored as given |
| ManifestApply.NeverSettles | server/src/services/manifest/ManifestSyncService.ts:513-538 | a field given as a null format or a JSON text, once a sync has updated it, is reported by the diff after every later round of syncs |
| ManifestApply.RoundsGoThrough | server/src/services/manifest/ManifestSyncService.ts:513-538 | the updates of a manifest without null intervals and endpoints never roll back, however often it is synced |
| ManifestApply.NullFormatNeverSettles | server/src/services/manifest/ManifestSyncService.ts:696-697 | a synced service whose manifest turns the format into an explicit null: updated once, and reported after every number of further rounds, none of which rolls back |
| ManifestApply.TextSchemaNeverSettles | server/src/services/manifest/ManifestSyncService.ts:694-695 | the same for a synced service whose manifest adds a schema as JSON text, whatever the text |
| Fields.ParseIntUndoesDecimal | server/src/routes/drifts/index.ts:128-132 | reading the text of an integer gives it back |
| Fields.ParseIntReads | server/src/routes/drifts/index.ts:91 | white space and one sign are skipped, digits read and what follows ignored; NaN without digits |
| Fields.ReadUndoesQuote | server/src/services/manifest/ManifestSyncService.ts:694-695 | a printed JSON text is quoted and reads back as the text |
| Fields.PlainIsPrinted | server/src/services/manifest/ManifestSyncService.ts:694-695 | a text without quotes, backslashes and control characters is printed as it is |
| Fields.FieldsByName | server/src/services/manifest/ManifestDiffer.ts:12-20 | each of the seven fields is read from its own part |
| DriftRoutes.DriftStore.AcceptDrift | server/src/routes/drifts/index.ts:218-305 | refused with the tables unchanged, or exactly the field, snapshot, status and polling effects of `Accept` |
| DriftRoutes.DriftStore.DismissDrift | server/src/routes/drifts/index.ts:307-337 | an open flag becomes dismissed, nothing else changes |
| DriftRoutes.DriftStore.ReopenDrift | server/src/routes/drifts/index.ts:339-367 | only a dismissed flag becomes pending again |
| DriftRoutes.DriftStore.BulkAccept | server/src/routes/drifts/index.ts:371-462 | tables, counts, errors and polling calls are those of accepting one by one left to right and skipping failures; no service it stops is restarted; bad id lists change nothing |
| DriftRoutes.DriftStore.BulkDismiss | server/src/routes/drifts/index.ts:464-511 | tables, counts and errors are those of dismissing one by one |
| DriftRoutes.DriftStore.UpsertFieldDrift | server/src/stores/impl/DriftFlagStore.ts:264-329 | the open flag of the field is updated, left dismissed for the same manifest value, reopened for another, or created |
| DriftDecisions.AcceptRefusedExactly | server/src/routes/drifts/index.ts:89-123 | when an accept is refused and why: not there or another team's; closed; an interval that is no integer from 5000 to 3600000, a schema that is no JSON or an endpoint that may not be polled; nothing for a required column; and when it goes through |
| DriftDecisions.AcceptInWords | server/src/routes/drifts/index.ts:128-258 | what it writes: the flag accepted; a removal stops the service and its polling; one of the six fields goes to column and snapshot, the interval as a number and the snapshot's schema parsed, and a health endpoint or an interval restarts polling; any other flag writes nothing |
| DriftDecisions.DismissAndReopenInWords | server/src/routes/drifts/index.ts:307-367 | dismissing and reopening, with each refusal, change the one status and nothing else |
| DriftDecisions.DetectInWords | server/src/stores/impl/DriftFlagStore.ts:264-329 | a drift found again refreshes the open flag but leaves one dismissed over the same text alone, and a new one raises a pending flag |
| DriftDecisions.BatchInSteps | server/src/routes/drifts/index.ts:371-462 | a bulk accept stops and restarts the services of exactly the steps that call for it, each step acting on what the ones before left |
| DriftDecisions.FlagIdsInWords | server/src/routes/drifts/index.ts:63-81 | one to a hundred ids, none empty |
| DriftRuns.AcceptWrites | server/src/routes/drifts/index.ts:236-258 | an accepted field change writes its own row and closes its own flag, and nothing else |
| DriftRuns.FormatFlagWritesNothing | server/src/routes/drifts/index.ts:18-25 | accepting a flag on the format closes it and writes no row |
| DriftRuns.AcceptedText | server/src/routes/drifts/index.ts:128-132 | the accepted value is stored with the text the manifest gives |
| DriftRuns.ClassifyAfterAccept | server/src/routes/drifts/index.ts:243-258 | what the differ finds for every field of the row after an accepted field |
| DriftRuns.RowsAfterAccept | server/src/routes/drifts/index.ts:236-258 | the rows the next diff reads after an accept: the accepted row replaced, or, for the format, the same rows |
| DriftRuns.AcceptSettlesField | server/src/routes/drifts/index.ts:218-305 | accepting the flag a manifest raised and diffing that manifest again no longer reports the field if and only if the route knows it; any other field of any service is reported as before if and only if it is of another service, or nothing was written, or its service had a snapshot, or it does not differ or is stored empty, or the manifest wins |
| SyncRuns.ManagedRowsStaySynced | server/src/services/manifest/ManifestSyncService.ts:468-667 | over every run of syncs, drift actions, edits and moves to other teams, rows with a manifest key keep a snapshot and a key belongs to one row of its team |
| SyncRuns.EditKeepsTidy | server/src/routes/services/update.ts:35-44 | an edit, moves to another team included, keeps that: the unique index rejects a move that meets the key |
| SyncRuns.AcceptSettlesReachableField | server/src/routes/drifts/index.ts:218-305 | in every state such runs reach from an unmanaged one, the accepted field is no longer reported if and only if the route knows it, and every other field of every service is reported as before |
| SyncRuns.TeamRowsUnique | server/src/services/manifest/ManifestSyncService.ts:413-416 | the rows of one team that a sync diffs have unique ids and keys |
| SyncAgain.ClassifyCreated | server/src/services/manifest/ManifestSyncService.ts:483-503 | the next diff skips a field of a created row if and only if it is absent or stored as an update would, with no endpoint or interval but 0 given for OTLP and no null interval otherwise; any other counts as edited |
| SyncAgain.SyncPhases | server/src/services/manifest/ManifestSyncService.ts:482-633 | a sync that goes through creates exactly the rows of the unmatched entries with a public URL, then updates, then does the rest |
| SyncAgain.FoundAfterSync | server/src/services/manifest/ManifestSyncService.ts:413-416 | after a sync each entry finds its row as its update left it, or the row created for it, or none when it names no public URL |
| SyncAgain.DiffAgainAfterSync | server/src/services/manifest/ManifestSyncService.ts:482-633 | after a whole sync that goes through, a diff of the rows read again has no update and the same drift if and only if edits are kept local or every updated and every created field is stored as given |
| SyncOutcomes.MatchedAfterSync | server/src/services/manifest/ManifestSyncService.ts:513-538 | after a sync that goes through, a row whose key the manifest names has the manifest's value, stored as its column stores it, in exactly the fields given otherwise that were not edited, or edited when the manifest wins, and the manifest as its snapshot when there is any |
| SyncOutcomes.CreatedAfterSync | server/src/services/manifest/ManifestSyncService.ts:483-511 | an entry without a row and with a public endpoint has an active row with these columns: no endpoint and interval 0 for OTLP, 30000 without an interval, the schema printed, the format default |
| SyncOutcomes.NewRowsInWords | server/src/services/manifest/ManifestSyncService.ts:491-503 | a new row of a manifest is refused if and only if its id is in use, its team has its key or a required column would be empty; one added by hand has no key and no snapshot |
| SyncOutcomes.DeactivatedAfterSync | server/src/services/manifest/ManifestSyncService.ts:560-573 | a row the manifest no longer names is inactive, otherwise as it was, its open flags are resolved and its others as they were, under the policy deactivate |
| SyncOutcomes.DeletedAfterSync | server/src/services/manifest/ManifestSyncService.ts:575-588 | it and its flags are gone under delete |
| SyncOutcomes.FlaggedAfterSync | server/src/services/manifest/ManifestSyncService.ts:590-601 | it is as it was under an open removal flag, a new one being pending, under flag |
| SyncOutcomes.OthersAfterSync | server/src/services/manifest/ManifestSyncService.ts:482-633 | every other row and its flags are as they were |
| SyncOutcomes.DriftTexts | server/src/services/manifest/ManifestDiffer.ts:131-152 | a drift entry for a field is there if and only if it is given otherwise, was edited and the policy flags, and it tells the manifest's text and the stored text |
| SyncOutcomes.DriftFlaggedAfterSync | server/src/services/manifest/ManifestSyncService.ts:540-558 | such a field has an open flag after the sync that tells both texts, or one that stays dismissed over the same manifest text |
| SyncOutcomes.RemovalFlagsAfterSync | server/src/services/manifest/ManifestSyncService.ts:616-633 | a row back in the manifest has its open removal flags resolved if a field was taken or none is given otherwise; else one stays open |
| SyncOutcomes.EditInWords | server/src/routes/services/update.ts:35-44 | an edit fails if and only if it nulls a required column or meets the key in the row's team, and sets exactly what it gives |
| SyncOutcomes.CleanupInWords | server/src/stores/impl/DriftFlagStore.ts:367-383 | the cleanup drops exactly the expired flags that are accepted or resolved |
| SyncRollbacks.OtlpEndpointIsReported | server/src/services/manifest/ManifestSyncService.ts:489-492 | an OTLP entry with an endpoint, every field of which an update would store as given, is reported after the sync that creates it |
| SyncRollbacks.NullGivenUndoesSync | server/src/services/manifest/ManifestSyncService.ts:482-633 | a whole sync whose manifest nulls a required column of a matched row, let through by the differ, leaves all tables as they were |
| SyncRollbacks.SyncRollsBackExactly | server/src/services/manifest/ManifestSyncService.ts:482-633 | with random ids that do not repeat a whole sync rolls back, and changes nothing, if and only if the manifest nulls a required column the differ would update, or an entry to be created has the key of another row of the team |
| SyncRollbacks.CreatedExactlyWhenPublic | server/src/services/manifest/ManifestSyncService.ts:383-402 | after a sync that goes through an entry without a row has one if and only if it names a public URL |
| SyncRollbacks.NeverCreatedWithoutEndpoint | server/src/utils/ssrf.ts:132-134 | over every run a key whose manifests give no endpoint gets no row |
| SyncRollbacks.OtlpNeverCreatedInOrder | server/src/services/manifest/ManifestSyncService.ts:489-500 | an OTLP entry without a row either stays without one or is reported by the next diff |
| SyncRollbacks.CreatedNullIntervalUndoesSyncs | server/src/services/manifest/ManifestSyncService.ts:494 | a polled entry with a null interval is created with the default, and under manifest_wins the next sync changes nothing |
| DriftRuns.AcceptedValueIsMergeBase | server/src/routes/drifts/index.ts:138-167 | the accepted field counts as unedited afterwards if and only if it is no schema or its JSON text survives parsing and printing |
| DriftRuns.AcceptEachCounts | server/src/routes/drifts/index.ts:377-436 | succeeded plus failed is the number of ids, and errors lists the failures |
| DriftRuns.DismissEachCounts | server/src/routes/drifts/index.ts:470-497 | the same for dismissing |
| DriftRuns.AcceptedOnce | server/src/routes/drifts/index.ts:230-232 | a repeated id is refused the second time |
| DriftRuns.StoppedServicesInactive | server/src/routes/drifts/index.ts:423-448 | every service a batch stops is inactive at its end |
| SyncRuns.ClosedFlagsStayClosed | server/src/stores/impl/DriftFlagStore.ts:166-380 | over every run of single and bulk actions, syncs, edits and cleanups a field of a service has at most one open flag, and a closed flag never changes again; it goes only with its service or by a cleanup that takes it in |

## Left out

- Floating point: coordinates, tokens, percentiles and widths are reals; only rounding to two decimals is modelled.
- Text: characters are Unicode scalars, so lengths count scalars and not UTF-16 units, and lower-casing and trimming are an input.
- AlertRuns.HourlyBound: recoveries are not counted against the limit, as in the code, although each of them raises the window's count.
- AlertService.AlertEngine.ProcessEvent: the lookups of service, rules, channels and mutes are one input answered at once, and `Date.now()` is read once for a step.
- AlertService.AlertEngine.SendToChannels: state changes by other events while a send is awaited are not interleaved; no theorem about a run depends on them.
- PerKeyRateLimit.RateLimiter.Handle: the X-RateLimit-Key header, the count of rejected requests in the usage accumulator and the texts of the body and the log are not modelled; a key's record is given with each request.
- ApiKeyUsage.UsageTracker.Flush: `bulkUpsert` is one transaction, so a flush that throws stores nothing; rows deleted with their key are not modelled.
- DependencyGraph.DependencyGraphBuilder.AddNode: node data (counts of healthy, unhealthy and skipped dependencies, inferred type, enrichment, `deduplicateById`) is not modelled, so service and external nodes are added alike.
- DependencyGraph.DependencyGraphBuilder.AddEdge: of the edge data only the type and the dependency id are modelled.
- GraphService.BuildGraph: stores are lists of rows with the filters of their queries; row order stands for the queries' own order.
- GraphService.GetTeamGraph: past its guards it is the full graph's construction over other rows, and is modelled as that.
- GraphService.EveryRowDrawn: is about ids as the code makes them (service ids of one length, none beginning with `external-`, hashes of one length), because edge ids are joined texts.
- Fields.FieldValue: objects are known by their JSON text, which parsing and printing again is taken to keep; numbers are integers, as the validator demands.
- ManifestApply.ApplyUpdates: is about the updates alone; the other operations of the transaction are in SyncRuns, SyncAgain and SyncRollbacks, and aliases, overrides and associations are not modelled.
- SyncRuns.ClosedFlagsStayClosed: random ids are taken not to repeat; which flags are old enough for the cleanup is an input.
- SyncRollbacks.SyncRollsBackExactly: random ids are taken not to repeat.
- ManifestApply.DiffAgainAfterApply: is about the update step, and entries of the value kinds the validator admits, with unique keys; SyncAgain.DiffAgainAfterSync is about the whole sync.
- DriftRoutes.DriftStore.AcceptDrift: flags name one of the seven fields or none; any other name behaves like the format field. Audit records and the reloaded response are not modelled, and polling calls are results.
- DriftRoutes.DriftStore.BulkAccept: the stores throw only for a null in a required column.
- HealthTimeline.BuildSegments: instants are milliseconds already parsed.
- Stop words, tokenising and host names, formatters, validators, senders, ELK layout, routes, sessions, SQL and migrations: not part of this model.
