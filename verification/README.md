# CFTM verification model

A Dafny model of the parts of the Cloudflare Tunnel Monitor whose correctness is spread over several
functions and over whole runs: the transition-only status history and everything read from it, the
event log, the probe quality chart, the notification cooldown, the API budget guard, paging, Access
coverage, request origins and the log ring buffer.

Time is an integer number of nanoseconds; table rows keep whole seconds, floored exactly as the store
floors them (`Clock`). Tables are sequences or maps that the methods reassign, a transaction is one
atomic step, and whatever the network, the database or the transport decides is a parameter. Floating
point figures are exact reals. A `hide` statement in a proof keeps a definition the proof does not need
away from the solver. Contracts that matter to a caller do not lean on the definitions the code runs on:
they speak of status names, event kinds, header fields, sample times and literal limits.

| file | what it models |
|---|---|
| `StatusLog`, `UptimeSpec` | a tunnel's log as the queries order it, the status in effect at every instant, healthy time as a count of instants |
| `Inventory`, `Stores` | one snapshot's effect on the tables; saving, querying, the uptime sweep, pruning |
| `Compression`, `Pruning`, `Retention` | one row per transition against one row per poll; what a prune changes; runs in which polls and prunes alternate |
| `Heartbeats` | the one-pass bar against its per-bucket meaning, and against uptime |
| `Events`, `Collectors` | the poll cycle and the events it writes |
| `EventSourcing`, `EventRetention` | replaying the event log, and what retention leaves of it |
| `QualitySpec`, `Quality`, `QualityRanks`, `QualityChart`, `Curves` | bucket statistics, ranks, the drawn paths and their geometry |
| `QualityFacts`, `QualityCard` | the whole quality card, in terms of the probe results and the interval alone |
| `Notify` | severity, dedup key, outbox and cooldown |
| `Budget`, `Paging` | the budget guard over runs of sends; walking pages |
| `Coverage` | findings per tunnel against the dashboard totals |
| `Origins` | folding, upserting and grouping request counts |
| `LogBuf` | the ring of recent log records |

Results that are not what one would first expect. Each gives the exact condition and, where a lemma is
named second, an input that fails:

- Log and table stay in step after a save if and only if no tunnel appears in the snapshot with a new
  status and then again with its stored one (`SaveIsConsistentIff`, `UnsettledMisleads`); distinct ids are
  enough (`DistinctRunIsSettled`).
- Pruning is invisible to `StatusAt` and `UptimeFor` only under the conditions of `PruneStatusIff` and
  `PruneUptimeIff`; `BaselineLost` is the family of tunnels that lose their baseline. The same over whole
  runs is `PrunedRunStatusIff`.
- The event log rebuilds the table until the first retention, unless the write of an event batch fails
  (`CycleKeepsSourcedIff`). After that it does so if and only if it still holds an event about every stored
  tunnel (`RetentionKeepsSourcedIff`, over whole runs `RunIsSourced`); a tunnel found before the cutoff that
  never moved since is forgotten (`RetentionForgets`).
- `docs/architecture.md` says a 429 is never retried. The code retries one whose body could not be read
  (`TooManyRetriedIff`, `TooManyIsRetried`); the model follows the code. With a negative reserve a recorded
  429 blocks nothing (`TooManyBlocksIff`).
- A dedup key stands for a single condition if and only if tunnel id, hostname and target state are free of
  `|` (`KeyUniqueIff`); otherwise `SeparatorsCollide` names another condition with the same key.
- Findings and dashboard totals agree if and only if no gap belongs to a tunnel that is not stored
  (`CoverageAgreesIff`, `OrphanIsCountedOnly`); saving and syncing keep it that way.
- With statuses outside the four known ones the bar shows trouble exactly under `BarShowsTroubleIff`; an
  unknown status that lasts means no uptime and no troubled beat (`UnknownIsInvisible`).

## Model

| member | source | states |
|---|---|---|
| StatusLog.SelectSorts | internal/store/uptime.go:16-20 | a history query returns exactly the matching rows, ordered by time and insertion |
| StatusLog.LatestIsStatusOf | internal/store/uptime.go:43-58 | the last row at or before t's second is the status in effect at the instant t |
| StatusLog.HistoryIsSuffix | internal/store/uptime.go:15-41 | a query from a second on returns the tail of the whole log that starts there |
| StatusLog.Segment | internal/store/uptime.go:91-98 | between two rows healthy time is the whole distance or nothing |
| StatusLog.HealthyIsSet | internal/store/uptime.go:91-112 | healthy time is the number of instants at which the status was "healthy" |
| StatusLog.HealthyAdditive | internal/store/uptime.go:91-111 | healthy time over adjacent windows adds up |
| UptimeSpec.RatioIsShare | internal/store/uptime.go:114-124 | the ratio lies in [0, 1] and is 1 exactly when every observed instant was healthy |
| UptimeSpec.AdjacentWindows | internal/store/uptime.go:62-125 | reported healthy time of two adjacent known windows equals that of their union |
| UptimeSpec.UptimeReports | internal/store/uptime.go:75-124 | the window, the number of rows that count and the number of instants at which the status was "healthy" |
| UptimeSpec.SameMeaningSameUptime | internal/store/uptime.go:62-125 | two logs with the same status at every instant report the same window and ratio |
| Inventory.LastOfIsMember | internal/store/queries.go:52-71 | the row kept for an id is its last occurrence, the only one when ids are distinct |
| Stores.Store.SaveTunnels | internal/store/queries.go:14-94 | tables after a save of any snapshot, row by row: first and last seen, one history row per news, what counts as added, and the removal cascade |
| Stores.Store.UpsertAll | internal/store/queries.go:24-72 | the upsert loop keeps first_seen and appends one row per transition |
| Stores.Store.RemoveMissing | internal/store/queries.go:74-89 | every unlisted tunnel is removed once with its ingress rows, in any map order |
| Stores.Store.ReplaceIngress | internal/store/queries.go:317-339 | only the given tunnel's rules are swapped |
| Stores.Store.StatusHistory | internal/store/uptime.go:15-41 | sorted, exactly the tunnel's rows since the second, and a tail of its whole log |
| Stores.UptimeQueries | internal/store/uptime.go:63-72 | the rows queried for a window skip nothing beyond its start |
| Stores.Store.StatusAt | internal/store/uptime.go:43-58 | the status in effect at an instant, or none |
| Stores.Store.UptimeFor | internal/store/uptime.go:62-125 | window, transitions and healthy ratio are the exact integral over the clamped window, counted instant by instant |
| Stores.Store.Summarize | internal/store/uptime.go:75-124 | the same from the two query results alone, boundary rows counted once |
| Stores.Store.SkipConsumed | internal/store/uptime.go:77-81 | exactly the rows up to the window start are dropped |
| Stores.Store.Integrate | internal/store/uptime.go:91-112 | the sweep counts the healthy instants and the transitions up to now |
| Stores.Store.Prune | internal/store/queries.go:628-642 | rows before the cutoff's second go, the others stay as often as they were, and every tunnel's log keeps its tail |
| Compression.LogExtend | internal/store/queries.go:43-50 | rows of one save extend a tunnel's log at its end |
| Compression.OwnEnds | internal/store/queries.go:35-50 | a save's last row for a tunnel is its last occurrence that differs from the stored status |
| Compression.SaveIsConsistentIff | internal/store/queries.go:14-94 | when one save keeps the last logged status equal to the stored one, if and only if |
| Compression.UnsettledMisleads | internal/store/queries.go:24-71 | a tunnel listed with a new and then its stored status leaves history and table at odds |
| Compression.DistinctRunIsSettled | internal/store/queries.go:24-71 | runs over listings without repeated ids meet the condition throughout |
| Compression.RunInvariant | internal/store/queries.go:14-94 | over any settled run the last logged status of each listed tunnel is the stored one |
| Compression.SeenOverRun | internal/store/queries.go:24-68 | over any run a tunnel was first seen at the poll that began its unbroken stretch of listings, and last at the last poll |
| Compression.CompressionPreservesStatus | internal/store/queries.go:12-50 | at every instant the transition log says what one row per poll would say |
| Compression.PollLogMeans | internal/store/uptime.go:43-58 | one row per poll says: the last snapshot at or before t's second that listed the tunnel |
| Compression.StatusAtIsLastListing | internal/store/uptime.go:43-58 | StatusAt over a whole run is the status of that snapshot; a vanished tunnel keeps its last |
| Compression.CompressionPreservesUptime | internal/store/uptime.go:60-125 | uptime window and ratio equal those over one row per poll |
| Pruning.PruneKeepsTail | internal/store/queries.go:628-642 | a prune cuts off the head of each tunnel's log |
| Pruning.PruneStatusIff | internal/store/queries.go:628-642 | when StatusAt is unchanged by a prune, if and only if |
| Pruning.PruneUptimeIff | internal/store/queries.go:628-642 | when UptimeFor is unchanged by a prune, if and only if |
| Pruning.PruneOtherwise | internal/store/uptime.go:82-89 | without a row to start from the window starts at the first retained row, or nothing is observed |
| Pruning.BaselineLost | internal/store/queries.go:631 | a tunnel whose only transition is older than the cutoff goes from full uptime to unobserved |
| Retention.PrunedRun | internal/store/queries.go:14-94 | over any alternation of polls and prunes: the tables of the unpruned run, its history cut once at the latest cutoff |
| Retention.PrunedRunStatusIff | internal/store/queries.go:628-642 | when StatusAt over such a run is still the last listing, if and only if |
| Heartbeats.WorstOfMore | internal/server/viewbuilder.go:826-831 | folding in one more status keeps the earliest of the worst |
| Heartbeats.BuildHeartbeats | internal/server/viewbuilder.go:776-831 | each beat, by status name, is the worst of the status carried in and the transitions in its bucket; without a known one it is the first |
| Heartbeats.Sweep | internal/server/viewbuilder.go:790-797 | the cursor stops behind the last change before the bucket's end |
| Heartbeats.ConsumedOnce | internal/server/viewbuilder.go:786-797 | each change before the end of the bar falls into exactly one bucket |
| Heartbeats.InEffectIsCandidate | internal/server/viewbuilder.go:759-808 | a status in effect at an instant of a bucket is among what its beat is chosen from |
| Heartbeats.WorstByName | internal/server/viewbuilder.go:811-831 | down before degraded before inactive before healthy, and the earliest when none of them occurs |
| Heartbeats.BeatCoversInstant | internal/server/viewbuilder.go:774-808 | no instant of a bucket is worse than its beat: a down instant shows down, a degraded one degraded or down, an inactive one no better |
| Heartbeats.DowntimeIsVisible | internal/server/viewbuilder.go:759-831 | a ratio below one forces an inactive, degraded or down beat |
| Heartbeats.HealthyBarIsFullUptime | internal/server/viewbuilder.go:759-831 | if every beat with data is healthy the ratio is one |
| Heartbeats.BarShowsTroubleIff | internal/server/viewbuilder.go:776-831 | for any statuses, when a beat is inactive, degraded or down, if and only if |
| Heartbeats.UnknownIsInvisible | internal/server/viewbuilder.go:811-824 | a lasting unknown status has uptime zero and shows as itself in every beat |
| Heartbeats.Heartbeats | internal/server/viewbuilder.go:759-772 | the bar of the last 24 hours in 48 half hours is drawn from the stored log |
| Collectors.TunnelEvents | internal/collector/collector.go:370-408 | event by event: one per added tunnel, then one per removed one, then one per change of a tunnel that was there before |
| Collectors.Collector.Poll | internal/collector/collector.go:161-196 | one cycle's tables and event batch under any failure, a lost event write included; ingress rows stay on stored tunnels |
| Collectors.Collector.SyncAll | internal/collector/collector.go:184-192 | the events of the syncs that succeed and of no other; success means every one did |
| Collectors.Collector.PollOnce | internal/collector/collector.go:120-156 | success means the listing arrived, was saved and every tunnel was synced; exactly what is appended to the event log, and the retention of every 120th cycle |
| Collectors.FailureIsReported | internal/collector/collector.go:131-147 | a cycle ends with one poll_failed event exactly when something failed and its write succeeds |
| Collectors.Collector.Run | internal/collector/collector.go:97-118 | whole runs from an empty database: tables and logs are those of the run theorems, and the last success is the last cycle in which nothing failed |
| EventSourcing.SaveEventsFit | internal/collector/collector.go:370-408 | a save's events fit its step, cover every difference and name no tunnel twice |
| EventSourcing.FittingEventsRebuild | internal/collector/collector.go:370-408 | such events rebuild the saved states and each names the state it leaves |
| EventSourcing.CycleKeepsSourcedIff | internal/collector/collector.go:161-196 | when the events of one cycle keep the replayed log equal to the table, before retention, if and only if |
| EventRetention.RetentionKeepsSourcedIff | internal/store/queries.go:628-642 | when what retention leaves of a log in time order rebuilds the table, if and only if |
| EventRetention.RetentionForgets | internal/store/queries.go:633 | a tunnel found before the cutoff that never moved since is missing from the replay |
| EventRetention.RunIsCutFrom | internal/collector/collector.go:120-196 | over any run with retention and event writes succeeding, the log is the recent part of a complete one that rebuilds the table truthfully |
| EventRetention.RunIsSourced | internal/collector/collector.go:120-196 | over such a run the log rebuilds the id-to-status map before the first cutoff, and later exactly while every stored tunnel has an event in it |
| QualitySpec.DescribesStep | internal/server/quality.go:100-143 | one sample changes its own bucket as accumulated, and no other bucket's description |
| QualitySpec.BucketsConserve | internal/server/quality.go:93-143 | every measure summed over the 288 buckets is its total over the window |
| QualitySpec.KindsPartition | internal/server/quality.go:106-122 | each sample is ok, failed or excluded |
| QualitySpec.SampleIsCovered | internal/server/quality.go:104 | a sample's one bucket covers its time, the last one including the end of the window |
| QualitySpec.UnbrokenIff | internal/server/quality.go:116-141 | a bucket is unbroken exactly when it holds only ok samples without a gap between them |
| QualitySpec.JoinedIff | internal/server/quality.go:193 | two neighbours connect exactly when their samples are contiguous; then a variation exists |
| QualityCard.BuildQuality | internal/server/quality.go:93-162 | every figure, bucket, point and join in terms of the results' classes, times and latencies and one and a half probe intervals |
| Quality.Classify | internal/server/quality.go:93-160 | the pass computes the figures and a description of every bucket |
| QualityFacts.PairMeans | internal/server/quality.go:99-141 | a pair is two consecutive ok samples at most one and a half intervals apart |
| QualityFacts.SummaryFacts | internal/server/quality.go:106-161 | counts, last sample, staleness, median, P95, mean variation and failure percentage of a window |
| QualityFacts.DescribedFacts | internal/server/quality.go:104-142 | what a bucket counts and adds up, over the samples of its five minutes |
| QualityFacts.ContiguousMeans | internal/server/quality.go:131-193 | contiguity of two neighbours, sample by sample |
| QualityFacts.WindowIs | internal/server/quality.go:100-103 | the window holds the results after its start and up to its end |
| Quality.AddToBucket | internal/server/quality.go:105-142 | what one sample does to its bucket |
| Quality.WindowSorted | internal/server/quality.go:100-103 | the window of time-ordered results is time-ordered |
| Quality.FiguresConserve | internal/server/quality.go:93-160 | samples split into the three kinds; figures equal the bucket sums, variation included |
| QualityRanks.Sorts | internal/server/quality.go:147 | sorting keeps the latencies and orders them |
| QualityRanks.P95IndexIsRank | internal/server/quality.go:150 | the percentile index in whole numbers, in range, not before the median |
| QualityRanks.P95IsRank | internal/server/quality.go:150 | at least 95% of the samples are at most the P95, fewer than 95% below it, and it is a sample |
| QualityRanks.MedianIsRank | internal/server/quality.go:149 | half the samples on either side of the median, which never exceeds the P95 |
| QualityChart.QualityGeometry | internal/server/quality.go:164-214 | scale, points and both paths equal their definition without running state |
| QualityCard.ScaleMeans | internal/server/quality.go:165-171 | the scale is the least multiple of ten that reaches everything drawn |
| QualityCard.PointsMean | internal/server/quality.go:178-211 | one point per non-empty bucket with its counts, in the middle of its column, zero at 190 and the scale at 20 |
| QualityCard.PathsMean | internal/server/quality.go:193-207 | each path runs through exactly the points that have its value, drawn from the point before exactly when the two are joined |
| QualityChart.DrawBucket | internal/server/quality.go:182-210 | a bucket's pieces join the coordinates of the bucket right before it |
| QualityChart.LatencyCurvesContinue | internal/server/quality.go:193-200 | every latency curve leaves horizontally from where the piece before it ended |
| QualityChart.VariationCurvesContinue | internal/server/quality.go:201-207 | the same for the variation path |
| QualityChart.ChartJoinsContiguous | internal/server/quality.go:178-193 | for time-ordered results a join means contiguous samples in two adjacent buckets, and the converse; a joined bucket has a variation |
| QualityChart.LevelsInOrder | internal/server/quality.go:129-130 | low, mean and high are ordered and within the scale |
| QualityChart.PointInFrame | internal/server/quality.go:172-204 | every level of a point lies inside the frame, in order |
| QualityChart.PathsInFrame | internal/server/quality.go:182-207 | every piece of both paths ends inside the frame |
| QualityChart.ChartInFrame | internal/server/quality.go:182-224 | no point of any drawn curve leaves the frame |
| QualityChart.PathsRunRight | internal/server/quality.go:182 | both paths run strictly from left to right |
| QualityChart.DrawnCurve | internal/server/quality.go:216-224 | along every drawn curve x strictly increases and y stays between its endpoints |
| Curves.CurveYBetween | internal/server/quality.go:221-223 | horizontal handles never overshoot either value |
| Curves.CurveXIncreases | internal/server/quality.go:221-223 | handles of a fifth of the distance never turn back |
| Notify.Dispatcher.constructor | internal/notify/dispatcher.go:32-43 | the configuration is usable whatever is given: warnings and an hour by default |
| Notify.Dispatcher.Dispatch | internal/notify/dispatcher.go:50-103 | the outbox after a batch under any failure; by kind and target state, every event that the threshold lets through is recorded or was recently, and no other event is |
| Notify.QualifiesByKind | internal/collector/events_meta.go:11-35 | which kinds and target states each threshold lets through, and how urgent each event is |
| Notify.Dispatcher.Deliver | internal/notify/dispatcher.go:78-103 | a failed delivery is recorded as such |
| Notify.BatchesAddUp | internal/notify/dispatcher.go:50-72 | dispatching batches one after the other is dispatching them at once |
| Notify.CooldownHolds | internal/store/notifications.go:41-49 | in any order and under any failure, entries with one key are more than a cooldown apart |
| Notify.NothingIsLost | internal/notify/dispatcher.go:55-70 | with the store working every qualifying event is recorded or recently announced |
| Notify.KeyUniqueIff | internal/notify/notify.go:74-79 | a key stands for one condition only if and only if none of its fields contains the separator |
| Notify.KeysNameConditions | internal/notify/notify.go:74-79 | between events with plain ids and hostnames equal keys mean equal conditions, whatever the target states |
| Notify.SeparatorsCollide | internal/notify/notify.go:76-79 | with the separator inside any field another condition has the same key |
| Budget.Client.Send | internal/cloudflare/client.go:180-205 | admission per API with its own reserve, attempts by status, body and context, and the quota recorded |
| Budget.Client.CheckBudget | internal/cloudflare/client.go:289-306 | when a send is admitted, with 25 requests in reserve on GraphQL and the configured number on REST |
| Budget.Client.RecordRateLimit | internal/cloudflare/client.go:308-339 | what a response records, header by header, on its own API only |
| Budget.TriesAttempted | internal/cloudflare/client.go:186-270 | which replies a second and a third attempt follow |
| Budget.TriesMeans | internal/cloudflare/client.go:186-204 | a send goes on exactly as long as attempts fail, invite another one and the pause holds |
| Budget.QuotasAreIsolated | internal/cloudflare/client.go:294-320 | interleaved REST and GraphQL calls do not affect each other's admissions |
| Budget.BlockedUntilReset | internal/cloudflare/client.go:289-306 | at or under the reserve no call is attempted before the reset, over any run |
| Budget.NothingAfterTooMany | internal/cloudflare/client.go:258-339 | a readable 429 ends its send and blocks that API until its reset |
| Budget.TooManyBlocksIff | internal/cloudflare/client.go:298-338 | the block holds until the reset exactly for a non-negative reserve |
| Budget.TooManyRetriedIff | internal/cloudflare/client.go:231-270 | when a 429 is followed by another attempt of its send, if and only if |
| Budget.TooManyIsRetried | internal/cloudflare/client.go:186-237 | a 429 whose body breaks off is attempted three times |
| Budget.OnlyRetriesAfterLowQuota | internal/cloudflare/client.go:181-205 | after a response at the reserve only this send's retries, at most two, go out |
| Budget.WindowKeepsReserve | internal/cloudflare/client.go:36-42 | a window starting above the reserve never drops below reserve - 2, that is 23 on GraphQL |
| Paging.ListAll | internal/cloudflare/client.go:432-456 | the first 2500 items in order, with no request beyond the one that shows the end |
| Paging.TightestLimit | internal/cloudflare/client.go:341-379 | the tightest remaining quota, and the reset last named on the way down to it |
| Coverage.CoveredHosts | internal/collector/health.go:235-240 | the lowercased domains of all applications |
| Coverage.EvaluateAccessCoverage | internal/collector/health.go:231-259 | one finding per HTTP rule with a hostname that no application names and that is not expected, none before an audit |
| Coverage.VisibleFindings | internal/server/viewbuilder.go:229-246 | exactly the muted findings are dropped |
| Coverage.EffectivePublic | internal/server/viewbuilder.go:109-122 | a host is public if and only if it is configured or a coverage finding about it is muted |
| Coverage.Unprotected | internal/server/viewbuilder.go:681-711 | in any order of the tunnels: which rules are gaps and which are public on purpose, as often as they occur, and with the covered ones all that could be covered |
| Coverage.ExactlyOne | internal/server/viewbuilder.go:692-706 | covered, expected and unexpected rules are, with multiplicity, exactly the HTTP rules with a hostname |
| Coverage.GapsAreVisible | internal/server/viewbuilder.go:109-122 | no gap is ever muted, since muting moves its host to the expected side |
| Coverage.VisibleAreListedGaps | internal/server/viewbuilder.go:282-299 | findings summed over the tunnels are the gaps of those tunnels |
| Coverage.CoverageAgreesIff | internal/server/viewbuilder.go:111-122 | findings and totals correspond one for one if and only if no gap is orphaned |
| Coverage.OrphanIsCountedOnly | internal/server/viewbuilder.go:692-706 | an orphaned gap counts in the totals and is shown nowhere |
| Coverage.NoOrphansAgree | internal/server/viewbuilder.go:282-299 | without orphaned ingress rows the two counts are equal after any mutes |
| Origins.SumPermutes | internal/store/origins.go:46-56 | sums do not depend on the order of the rows |
| Origins.SumFields | internal/store/origins.go:52-56 | sums add up field by field over the selected rows |
| Origins.SumByKey | internal/store/origins.go:51-54 | with one row per key, selecting a key reads that row |
| Origins.ToHTTPOrigins | internal/collector/origins.go:174-203 | one balanced row per served group, in order: refused from status 400 on, unplaced countries named XX |
| Origins.LoginOrigins | internal/collector/origins.go:137-172 | one balanced row per country with the sums of its attempts, allowed when they succeeded |
| Origins.OriginStore.ReplaceRequestOrigins | internal/store/origins.go:40-66 | one row per key, every selection sums to that of the input |
| Origins.ArrivalOrderIrrelevant | internal/store/origins.go:46-56 | stored counts do not depend on the order of arrival |
| Origins.CollectRequestOrigins | internal/collector/origins.go:44-85 | stored requests, allowed and denied equal the served and login traffic of the sources that answered; the old summary stays exactly when nothing arrived and something failed, or the write fails |
| Origins.FoldOrigins | internal/server/viewbuilder.go:333-361 | the display fold equals the GROUP BY over the shown rows |
| Origins.FoldIsGroupBy | internal/store/origins.go:98-127 | folding the rows in any order is the GROUP BY |
| Origins.CountryShares | internal/server/viewbuilder.go:385-392 | one line per country with its share, requests adding up to the total |
| Origins.OriginSummary | internal/server/viewbuilder.go:318-363 | the countries of the shown rows, with shares that add up to 100 when there is traffic |
| Origins.SharesAddUp | internal/server/viewbuilder.go:388-390 | shares add up to 100 when there is traffic |
| LogBuf.Buffer.constructor | internal/logbuf/logbuf.go:28-34 | an empty ring of the given size, or of 200 |
| LogBuf.Buffer.Add | internal/logbuf/logbuf.go:36-47 | the ring holds the last max records after every wrap-around |
| LogBuf.Buffer.Entries | internal/logbuf/logbuf.go:49-57 | the held records, oldest first |
| LogBuf.AroundUpdate | internal/logbuf/logbuf.go:41-46 | writing behind the newest record appends it and evicts the oldest when full |

## Left out

- HTTP transport, JSON, SQL text, migrations, templates, labels, configuration, release lookup: no property of their own here.
- Concurrent polls and sends: modelled serially, as the code makes no promise for a refresh that races the timer.
- The zero time: an instant in the first second of 1970 reads back as no time at all; instants are plain integers here.
- IEEE rounding: ratios, means and coordinates are exact reals, and path output is a list of pieces rather than text.
- Connectors, connections, Access applications and token tables: only the ingress rows of a removed tunnel are followed, the others are deleted by the same statement.
- Poll answers that list one tunnel twice: the event log theorems ask for distinct ids, which is what the API lists; the history theorems give the exact condition.
- Collectors.Collector.PollOnce: does not keep the last error's text, the duration or the poll_runs row, and does not hand events to the notification sink.
- EventRetention.RunIsSourced: assumes that event writes succeed and the clock does not go back; `CycleKeepsSourcedIff` says what a lost batch does. Events that other components append say nothing about which tunnels exist.
- Retention.PrunedRun: assumes that no cutoff lies after a later poll, which retention into the past ensures.
- Stores.Store.ReplaceIngress: does not report whether the rule set changed, which is a field comparison.
- Coverage.Unprotected: does not model the final sort by hostname, only which rules come out and how often.
- Origins.CountryShares: does not model the display order; last-seen times and the collection window are not kept.
- Splitting the rate limit headers into policies: text handling; Paging.TightestLimit starts from the parsed numbers.
- Origins.OriginSummary: does not produce the breakdowns per hostname, which repeat the fold over one hostname's rows.
- Origins.CollectRequestOrigins: does not model the events about new countries and the stored times of the collection.
- Notify.Dispatcher.Dispatch: does not build titles and bodies, which no decision reads.
- Findings other than uncovered hosts, probe scheduling and classification, capability records: each is settled by reading one branch.
- Unicode case folding: hostnames and countries fold ASCII letters only.
