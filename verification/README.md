# Verified core of the status server

A Dafny model of the parts of the status server whose correctness is not visible
from any single function: the per-IP rate limiter, the incident coalescer, the
subscriber delivery queue, the idempotency cache, the result aggregations, the
escalation engine and config seeding. `dafny verify dfyconfig.toml` checks the
whole project.

## Layout

| files | component |
|---|---|
| `RateLimiter`, `RateLimiterRuns`, `RateLimiterLaws`, `RateLimiterEviction` | token buckets, the idle janitor, client address selection |
| `CheckResults`, `Incidents`, `IncidentRuns`, `IncidentDetails`, `IncidentRaces`, `IncidentReopening`, `Coalescer` | result table, windowed evaluator, background sweep, purge, races |
| `Deliveries`, `DeliveryProtocol`, `DeliveryTheorems`, `DeliveryFailures`, `DeliveryRetention` | claim, dispatch and mark with any number of workers, both backends, crashes, purges |
| `Idempotency`, `SingleFlight`, `Replies` | composite keys and the lock, recheck, execute, store protocol |
| `DayStrip`, `Latency` | worst state per day, bucketed percentiles |
| `Escalation`, `EscalationLaws`, `EscalationLadder` | paging ladder, acknowledgement, spacing |
| `Seeding`, `SeedingLaws` | boot-time sync from configuration |
| `Common` | what several of them share |

State that the server updates in place is a class whose methods are proved equal
to specification functions; protocols are state machines over sequences of
events; the laws are lemmas over every such sequence.

## Main results

- **Rate limiter.** A check is allowed *if and only if* every window that ends at
  it and opens at an earlier check of the same address stays within
  capacity + refill × length (`AllowedIffEveryWindowFits`; on runs without eviction,
  for arbitrary clock readings, × climb of the clock, `AllowedIffEveryClimbFits`).
  From it follow the bound on any window, for an untrusted peer whatever headers it
  sends. Eviction with a threshold of at least 120 s changes no answer, and for every quota and
  every shorter threshold there is a run on which it does; which buckets exist is read
  off the history of checks and sweeps exactly. The retry delay is
  exact to the second and refused checks leave no trace.
- **Coalescer.** Although an evaluation reads ten results, a target has an open
  incident exactly when the latest equal adjacent pair of its *whole* history is a
  bad one, with probes of other targets, sweeps, re-evaluations and purges
  interleaved; and on every run whatsoever, with maintenance, unevaluated results and
  sweeps that apply windows read earlier, exactly when the last evaluation that saw an
  equal pair saw a bad one. No such run opens two incidents for a target. A sweep over
  distinct targets does not depend on their order, up to fresh identifiers.
- **Delivery queue.** For every interleaving of any number of workers with
  enqueuers, crashes and purges: exclusive claims, at most seven dispatches per
  row, final states that never change, conservation, a bound on the total work, at
  least 3780 s before dead-lettering (attained), and equal tables in both backends.
  A row is stranded exactly when its holder crashed, and then for good; a purge removes
  exactly what the history of marks and enqueues calls for.
- **Single flight.** For every interleaving of requests and evictions the number of
  handler executions for a key is given exactly. For each reply that any run gives, all
  later replies for the key before its next eviction are identical to it, on every
  continuation, if and only if the cache holds it.
- **Aggregations.** The in-memory fold and the grouped rank query give the same
  strip for every result list; latency buckets partition the window and their
  percentiles are ordered.
- **Escalation and seeding.** With acknowledgements, resolutions and reopenings at any
  point of an engine sweep, pages climb the ladder rung by rung, are spaced out and
  finite; no page follows an
  acknowledgement or resolution unless the sweep under way already holds the incident.
  A sync makes the store hold the configuration and
  removes no channel, target or page, and a second one creates nothing and only
  renumbers bindings.

## Where the code and its promises part

Each of these is kept as the code has it, with a lemma that shows it and, where one
exists, the exact condition.

- `MAX_ATTEMPTS` is compared with the count *before* the increment, so a row is
  dispatched seven times over at least 3780 s; the comment at
  `bin/status-server/src/subscriber_dispatch.rs:56-58` says six attempts in about
  five minutes (`DeadLetterTakesAnHour`; `DeadLetterRun` attains both numbers).
- A row left claimed by a crash is never reclaimed: `CrashRun` gives such a run,
  `StrandedIffHolderCrashed` the exact condition, `StrandedForever` the consequence.
- The comment at `bin/status-server/src/incident_writer.rs:86` says maintenance
  suppresses opening; the code suppresses closing as well (`EvaluateEffect`).
- `ended_at` is the oldest good result in the window, so a short outage can end
  before it started, with duration zero (`OutageEndsBeforeItStarts`; exact
  condition in `ClosedIncident`).
- Two evaluators that both look before either writes leave one open incident if and
  only if a single one would not have opened one (`SplitEvaluationKeepsOneIff`, run
  in `SplitEvaluationRun`). The background sweep applies windows it read earlier; it
  leaves a target open or not as a fresh evaluation would if and only if the old window
  calls for the same action (`StaleWindowAgreesIff`), leaves the same tables if and only
  if the details agree too (`StaleWindowEqualIff`), and otherwise can split one outage
  into two incidents (`StaleSweepSplitsAnOutage`, run in `StaleSweepRun`). A manual reopen
  keeps one open incident if and only if no other is open (`ReopenKeepsOneIff`, run in
  `ReopenRun`).
- A check that reads the clock before another check and takes the bucket after it
  winds the refill clock back (`StaleClockBreaksTheBound`). Whatever the readings, a
  bucket that is not evicted allows what the clock's climbs allow
  (`AllowedIffEveryClimbFits`), and that is the time between two checks exactly when the readings are in order
  (`ClimbIsSpanIff`). The laws about elapsed time therefore assume that checks reach
  one bucket in clock order; behind a sweep they may lag by its threshold minus 120 s
  (almost a day for the janitor's 24 h).
- An acknowledgement of an incident that an engine sweep has listed holds if and only if
  its turn pages nobody; otherwise the page goes out after it and the write-back erases
  it (`AckHoldsIffNoPage`). A resolution is likewise overtaken if and only if the engine
  has already looked the incident up and pages, and the deleted escalation state comes
  back (`ResolutionHoldsIffNoPage`; a run for both in `AckErasedRun`).
  `POST /incidents/{id}/acknowledge` never reaches the escalation state, although the
  engine's documentation says acknowledging stops paging
  (`ShortcutAckDoesNotSilence`).
- Replies with one idempotency key are not always identical: an oversize response and
  a handler error are returned but not stored, so the next request executes again and
  may get anything (`UnbackedReplyBindsNothing`, run in `UnstoredReplyIsForgotten`);
  `ReplyBindsIffBacked` is the exact condition, and `BackedIff` says which replies meet
  it.
- `bin/status-server/src/seed.rs:137` promises that existing items are skipped, but a
  sync rewrites the bindings of configured pages, so a public name, description or
  group that an operator set is lost (`BindingSurvivesIff`, input in
  `PublicNameIsLost`).
- The in-memory dashboard has no upper time bound, the DuckDB one has
  (`DashboardsAgreeIff`; `DashboardsDiffer` is an input on which they differ).
- DuckDB clears `sent_at` and a pending retry where the memory store leaves them
  (`MarksAgreeIff`); no row of a run can show it (`BackendsAgree`).

## Modelling decisions

- A reply counts as given when its content is settled: at the cache hit, the store,
  or the error.
- Clock readings are parameters of each step. Monotonic differences saturate at
  zero, as `Instant::duration_since` does.
- `f64` token counts, percentiles and bucket widths are `real`. Timestamps are
  integers (nanoseconds for results, seconds for deliveries and escalation).
- Identifiers are taken from a counter, which stands for fresh UUIDs.
- One claim, one mark, and the lookup and write of one evaluation are atomic, except in
  the lemma that splits the latter. Windows may be read at any earlier time; only the
  law of the full history, and the laws about a sweep as a whole, are about evaluations
  of current windows. An engine sweep is split into its listing, the lookup of each
  incident, and the page with the write-back; there is one engine.
- The outcome of a dispatch, header parsing, the SHA-256 digest (only its fixed
  length is used), cache eviction, hash-map iteration order and the rows returned
  by a grouped SQL query (any rows with the meaning of the query, in any order)
  are parameters or environment steps.

## Model

| member | source | states |
|---|---|---|
| RateLimiter.QuotaIsDerived | bin/status-server/src/rate_limit.rs:64-68 | refill is a sixtieth of the quota and capacity twice it, or two; exactly the positive quotas give a capacity that refills in 120 s |
| RateLimiter.IpRateLimiter.Build | bin/status-server/src/rate_limit.rs:104-114 | a limiter exists if and only if the quota is positive; it starts empty with the derived configuration |
| RateLimiter.IpRateLimiter.Check | bin/status-server/src/rate_limit.rs:119-147 | answer and whole new bucket map: only the address's own bucket changes, refilled, capped and charged when allowed |
| RateLimiter.IpRateLimiter.EvictIdle | bin/status-server/src/rate_limit.rs:157-165 | exactly the buckets idle for the threshold disappear, and their number is returned |
| RateLimiterEviction.BucketExistsIff | bin/status-server/src/rate_limit.rs:157-165 | an address has a bucket exactly when it was checked and every sweep since came before its last check was `idle` seconds old |
| RateLimiterEviction.SweepIsExact | bin/status-server/src/rate_limit.rs:157-165 | a sweep removes exactly the buckets whose last check is at least `idle` seconds old and leaves the others unchanged |
| RateLimiterRuns.AvailableAfterCharge | bin/status-server/src/rate_limit.rs:129-134 | what a charged bucket offers later |
| RateLimiterRuns.DenyKeepsAvailable | bin/status-server/src/rate_limit.rs:129-146 | a refused check leaves the bucket offering what it offered before, at every later time |
| RateLimiterRuns.EvictionSimulation | bin/status-server/src/rate_limit.rs:123-134 | simulation: a missing bucket stands for one that has refilled completely |
| RateLimiterRuns.EvictionIsInvisible | bin/status-server/src/cleanup.rs:101-108 | with a threshold of at least 120 s the janitor changes no answer and no delay on any run |
| RateLimiterRuns.OfferedBelowWindow | bin/status-server/src/rate_limit.rs:129-134 | no window permits less than the bucket offers |
| RateLimiterRuns.OfferedAttained | bin/status-server/src/rate_limit.rs:129-134 | a bucket that is not full offers exactly what some window permits |
| RateLimiterRuns.ClimbIsSpanIff | bin/status-server/src/rate_limit.rs:120-134 | the time the refill sees is never less than the span of the readings, and equals it exactly when they are in order |
| RateLimiterRuns.AllowedIffEveryClimbFits | bin/status-server/src/rate_limit.rs:119-147 | on runs without eviction, for arbitrary clock readings: a check is allowed if and only if every window ending at it fits capacity + refill × climb of the clock |
| RateLimiterRuns.AllowedIffEveryWindowFits | bin/status-server/src/rate_limit.rs:119-147 | a check is allowed if and only if every window ending at it fits capacity + refill × length |
| RateLimiterRuns.AllowedInWindowBound | bin/status-server/src/rate_limit.rs:119-165 | requests allowed to one address in any window of length T number at most capacity + refill × T |
| RateLimiterLaws.RetryArithmetic | bin/status-server/src/rate_limit.rs:139-145 | the delay is the least whole number of seconds, at least one, that refills a token |
| RateLimiterLaws.RetryDelayIsExact | bin/status-server/src/rate_limit.rs:135-146 | after a refusal with delay d no check up to d−1 s later passes, and the first one not preceded by an allowed check that waits d does |
| RateLimiterLaws.DroppingADeniedCheck | bin/status-server/src/rate_limit.rs:129-146 | leaving a refused check out of a run changes no later answer to anyone |
| RateLimiterLaws.ClientIpLaws | bin/status-server/src/rate_limit.rs:182-219 | headers count only behind a trusted proxy, a readable `Forwarded` wins, an unreadable one is ignored, without a readable header it is the peer |
| RateLimiterLaws.GuardFailsClosed | bin/status-server/src/rate_limit.rs:265-274 | a request without a socket address is refused and charged to nobody |
| RateLimiterLaws.AdmittedAreCharged | bin/status-server/src/rate_limit.rs:246-276 | what an untrusted peer gets through the guard is charged to its own address |
| RateLimiterLaws.UntrustedPeerIsBounded | bin/status-server/src/rate_limit.rs:182-219 | the window bound for a peer outside the trusted proxies, whatever headers anyone sends |
| RateLimiterLaws.EarlyEvictionShows | bin/status-server/src/rate_limit.rs:157-165 | for every quota and every threshold below 120 s some run shows the eviction |
| RateLimiterLaws.StaleClockBreaksTheBound | bin/status-server/src/rate_limit.rs:120-134 | a check with an old clock reading lets three requests of one instant pass a limit of two |
| CheckResults.RecordKeepsUnique | crates/storage/src/memory.rs:188-201 | one result per target and time: the new one present, its predecessor replaced, all others kept |
| CheckResults.RecordNewest | crates/storage/src/memory.rs:188-210 | a newer result goes to the head of its target's history and of no other |
| CheckResults.HistoryElements | crates/storage/src/memory.rs:203-210 | listing loses and invents nothing |
| CheckResults.HistorySorted | crates/storage/src/memory.rs:203-210 | listing is strictly newest first |
| CheckResults.PurgeTruncatesHistory | crates/storage/src/memory.rs:1295-1300 | a purge cuts every history off at the cutoff, nothing else |
| CheckResults.PurgeElements | crates/storage/src/memory.rs:1295-1300 | exactly the results before the cutoff are removed |
| Incidents.Run | bin/status-server/src/incident_writer.rs:124-127 | the run is maximal at the newest end of the window |
| Incidents.Oldest | bin/status-server/src/incident_writer.rs:131 | the oldest result of the class in the window |
| Incidents.FoundIsUnique | crates/storage/src/memory.rs:304-313 | with at most one open incident the lookup has one possible answer |
| Incidents.ApplyEffect | bin/status-server/src/incident_writer.rs:110-245 | which of the three outcomes happens, what it writes, that well-formedness and other targets are kept |
| Incidents.EvaluateEffect | bin/status-server/src/incident_writer.rs:81-97 | an evaluation does what the two newest results and the open incident call for, and nothing under maintenance |
| IncidentRuns.NeverTwoOpen | bin/status-server/src/incident_writer.rs:110-245 | on every run no target has two open incidents, however old the windows that evaluators apply |
| IncidentRuns.ReevaluationIsIdle | bin/status-server/src/incident_writer.rs:297-325 | evaluating again without new results changes nothing |
| IncidentRuns.PurgeCausesNothing | bin/status-server/src/cleanup.rs:166-173 | what an evaluator does after a purge it would have done without it |
| IncidentRuns.OpenIffLatestPairIsBad | bin/status-server/src/incident_writer.rs:119-129 | open exactly when the latest equal adjacent pair of the full history is bad |
| IncidentRuns.OpenIffLastPairSeenIsBad | bin/status-server/src/incident_writer.rs:297-325 | on every run, windows read earlier included: open exactly when the last evaluation outside maintenance that saw two equal newest results saw two bad ones |
| IncidentRuns.ClosedIncidentsStay | bin/status-server/src/incident_writer.rs:207-220 | no run changes a closed incident again |
| IncidentDetails.WindowIsTenNewest | bin/status-server/src/incident_writer.rs:91 | a window is the ten newest results of the target |
| IncidentDetails.OpenedIncident | bin/status-server/src/incident_writer.rs:129-150 | check count in 2..10 and exactly the trailing failures; start and status of one failing result; starts no later than the outage, and with it exactly when the window shows no earlier failure |
| IncidentDetails.ClosedIncident | bin/status-server/src/incident_writer.rs:207-220 | end time, and duration in whole seconds, zero if negative; the recovery exactly when the window shows no earlier good result, before the start exactly when it shows a good result from before |
| IncidentDetails.OutageLastsFiveMinutes | bin/status-server/src/incident_writer.rs:213 | an outage of 300.5 s is recorded as 300 s |
| IncidentDetails.SweepEffect | bin/status-server/src/incident_writer.rs:297-325 | a sweep does to each target what one evaluation of the starting tables would do, and nothing else |
| IncidentDetails.SweepOrderIsIrrelevant | bin/status-server/src/incident_writer.rs:309-323 | the order of the targets matters only for fresh identifiers |
| IncidentRaces.SplitEvaluationKeepsOneIff | bin/status-server/src/incident_writer.rs:122-151 | two lookups before two writes leave at most one open incident exactly when one evaluation would not open one; otherwise both inserts succeed |
| IncidentRaces.SplitEvaluationRun | crates/storage/src/memory.rs:220-227 | a run of two failing results that leaves incidents 0 and 1 open |
| IncidentRaces.WindowWasRead | bin/status-server/src/incident_writer.rs:307-311 | a window an evaluator holds was the target's window earlier in the run |
| IncidentRaces.StaleWindowAgreesIff | bin/status-server/src/incident_writer.rs:307-322 | applying it leaves the target open or not as a fresh evaluation would exactly when it calls for the same action |
| IncidentRaces.StaleWindowEqualIff | bin/status-server/src/incident_writer.rs:307-322 | it leaves the same tables exactly when also count, oldest failure or oldest good result agree |
| IncidentRaces.StaleSweepSplitsAnOutage | bin/status-server/src/incident_writer.rs:307-322 | if an outage began in between, the live incident is closed and the next evaluation opens another |
| IncidentRaces.StaleSweepRun | bin/status-server/src/incident_writer.rs:307-322 | Up Up, read, Down Down, apply: such a run |
| IncidentReopening.ReopenKeepsOneIff | crates/storage/src/memory.rs:1107-1119 | a manual reopen keeps one open incident if and only if no other is open |
| IncidentReopening.ReopenRun | crates/storage/src/memory.rs:1107-1119 | Up Down Down Up Up Down Down and a reopening of the first incident leave two open |
| IncidentReopening.ReopenUndoesClose | crates/storage/src/memory.rs:1107-1119 | a reopening undoes an automatic close completely and is refused for an open incident |
| IncidentReopening.EvaluationClosesOneAtATime | bin/status-server/src/incident_writer.rs:207-220 | with several open, each evaluation of a recovered target closes one that started last |
| IncidentDetails.OutageEndsBeforeItStarts | bin/status-server/src/incident_writer.rs:210-218 | the history Up Down Down Up Up ends its incident before it starts |
| Coalescer.Store.Record | crates/storage/src/memory.rs:188-201 | the in-place search and replace equals the specification |
| Coalescer.Store.FindOpenIncident | crates/storage/src/memory.rs:304-313 | some latest-started open incident, none only if none is open |
| Coalescer.Store.EvaluateTarget | bin/status-server/src/incident_writer.rs:81-245 | the tables become the specified ones and stay well formed |
| Coalescer.Store.ReadBatch | crates/storage/src/memory.rs:891-907 | the window of every listed target |
| Coalescer.Store.EvaluateResults | bin/status-server/src/incident_writer.rs:309-322 | applies a given window to the tables as they are now, and keeps them well formed |
| Coalescer.Store.BackgroundSweep | bin/status-server/src/incident_writer.rs:297-325 | reads all windows, then applies them one by one; alone, it equals one evaluation per target in turn |
| Coalescer.Store.DeleteOldCheckResults | crates/storage/src/memory.rs:1295-1300 | the purged table and the number of deleted rows |
| Deliveries.BackoffLaws | crates/storage/src/memory.rs:1228-1233 | backoff never shrinks and lies in 60..3600 s |
| Deliveries.MarksAgreeIff | crates/storage/src/duckdb.rs:2954-2972 | on which rows and statuses the two backends write the same row, exactly |
| Deliveries.ListPending | crates/storage/src/memory.rs:1172-1187 | at most the limit, and only claimable rows of the table |
| Deliveries.PendingIsFair | crates/storage/src/memory.rs:1183-1185 | oldest first; a claimable row is left out only of a full batch of rows at least as old |
| DeliveryRetention.BatchIsByAge | crates/storage/src/memory.rs:1184 | on every run a batch is in the order of enqueueing, ties included |
| Deliveries.Queue.Enqueue | crates/storage/src/memory.rs:1242-1269 | a fresh pending row at the end |
| Deliveries.Queue.Claim | crates/storage/src/memory.rs:1189-1205 | claims exactly a pending or due failed row and changes no other |
| Deliveries.Queue.Mark | crates/storage/src/memory.rs:1207-1240 | the marked table; reports whether the row exists |
| Deliveries.Queue.DeleteOld | crates/storage/src/memory.rs:1271-1284 | the purged table and the number of deleted rows |
| DeliveryRetention.PurgeIsExact | crates/storage/src/memory.rs:1271-1284 | on every run a purge removes exactly the sent rows last marked, and the dead-lettered rows enqueued, before the cutoff |
| Deliveries.Queue.TakeTurn | bin/status-server/src/subscriber_dispatch.rs:109-150 | claim, dispatch and mark of one listed row |
| Deliveries.Queue.Sweep | bin/status-server/src/subscriber_dispatch.rs:103-153 | the loop over the batch, whatever each dispatch returns |
| DeliveryProtocol.ClaimKeepsRowOk | crates/storage/src/memory.rs:1189-1205 | a claim happens only before the seventh attempt and after the backoff |
| DeliveryProtocol.MarkKeepsRowOk | bin/status-server/src/subscriber_dispatch.rs:120-148 | a mark fixes status, attempts and times, equally in both backends |
| DeliveryProtocol.ReachableInv | bin/status-server/src/subscriber_dispatch.rs:103-153 | the protocol invariant on every run |
| DeliveryProtocol.BackendsAgree | crates/storage/src/duckdb.rs:2872-2982 | on every run the two backends hold equal tables |
| DeliveryTheorems.ExclusiveAndBounded | bin/status-server/src/subscriber_dispatch.rs:109-150 | no row has two holders, and none is dispatched more than seven times |
| DeliveryTheorems.ClaimedRowsAreHeld | bin/status-server/src/subscriber_dispatch.rs:111-115 | without crashes every claimed row has its holder |
| DeliveryFailures.StrandedForever | crates/storage/src/memory.rs:1189-1205 | a claimed row without a holder is never claimed, marked or purged again |
| DeliveryFailures.StrandedIffHolderCrashed | bin/status-server/src/subscriber_dispatch.rs:109-150 | on every run a row is claimed without a holder exactly when the worker that held it has crashed |
| DeliveryFailures.CrashRun | crates/storage/src/memory.rs:1189-1205 | enqueue, claim, crash: a stranded row |
| DeliveryTheorems.TerminalIsFinal | crates/storage/src/memory.rs:1189-1240 | a sent or dead-lettered row never changes and is never claimed again |
| DeliveryTheorems.ClaimableIff | crates/storage/src/memory.rs:1193-1198 | on every run a row can be claimed exactly if never claimed before, or failed and its backoff since the last mark has passed |
| DeliveryTheorems.ClaimMeaning | crates/storage/src/memory.rs:1189-1205 | a claim changes the status of one row and nothing else |
| DeliveryTheorems.FinishMeaning | bin/status-server/src/subscriber_dispatch.rs:117-148 | on every run a dispatch leaves its row sent, to be retried after the backoff, or after six earlier attempts dead-lettered, and changes no other row |
| DeliveryTheorems.DeadLetterTakesAnHour | bin/status-server/src/subscriber_dispatch.rs:134-138 | seven attempts, the last claim at least 3780 s after the first mark |
| DeliveryFailures.DeadLetterRun | bin/status-server/src/subscriber_dispatch.rs:134-138 | a run with claims at 0, 60, 180, 420, 900, 1860 and 3780 s that only then is dead-lettered, so both bounds are attained |
| DeliveryTheorems.NoDeliveryIsLost | bin/status-server/src/cleanup.rs:119-129 | enqueued = pending + claimed + failed + sent + dead-lettered + purged, purged rows were final, status fixes the attempts |
| DeliveryTheorems.WorkIsBounded | bin/status-server/src/subscriber_dispatch.rs:109-150 | at most fourteen claims and marks per enqueued delivery on every run |
| DeliveryTheorems.SweepTurnIsARun | bin/status-server/src/subscriber_dispatch.rs:109-150 | a turn of the sweep loop is a claim and a finish of the protocol |
| DeliveryTheorems.SweepIsARun | bin/status-server/src/subscriber_dispatch.rs:103-153 | a whole sweep is a run of the protocol |
| Idempotency.TrimMeaning | bin/status-server/src/idempotency.rs:152-159 | trimming a header removes the blanks at both ends and nothing else |
| Idempotency.KeysMatchExactly | bin/status-server/src/idempotency.rs:86-89 | the composite key is key, colon, digest; two are equal exactly for the same trimmed key and the same digest, whatever characters the key contains |
| Idempotency.StoreThenLookup | bin/status-server/src/idempotency.rs:94-126 | round trip: after a store exactly the requests with the same trimmed key and digest get the response, if its body has at most 65536 bytes; all others get what they got before |
| Idempotency.Cache.Store | bin/status-server/src/idempotency.rs:102-126 | the same of the object in place: what every later lookup returns |
| SingleFlight.ReachableInv | bin/status-server/src/idempotency.rs:140-149 | on every interleaving locks, cache and the account of executions agree |
| SingleFlight.SingleFlight | bin/status-server/src/api/bulk.rs:42-62 | executions = evictions + not stored + cached + in progress, at most one request inside |
| Replies.RepliesAreIdentical | bin/status-server/src/api/bulk.rs:42-62 | after a reply that the cache holds, every reply for the key, errors included, is identical until the key is evicted |
| Replies.UnstoredReplyIsForgotten | bin/status-server/src/api/bulk.rs:59-62 | after an oversize or failed execution the next request executes again and may get any reply |
| Replies.BackedIff | bin/status-server/src/api/bulk.rs:42-62 | a reply is backed exactly if it was a cache hit or a success of at most 64 KiB |
| Replies.RejectedVisit | bin/status-server/src/api/bulk.rs:52-57 | a body that does not parse gets its error back and leaves nothing run, stored or locked |
| Replies.UnbackedReplyBindsNothing | bin/status-server/src/api/bulk.rs:52-62 | after any unbacked reply of any run the next request with the key can come back with any outcome |
| Replies.ReplyBindsIffBacked | bin/status-server/src/api/bulk.rs:42-62 | for each reply of any run: all later replies for the key before its eviction are identical, on every continuation, exactly if it is backed |
| DayStrip.DayMeaning | crates/storage/src/memory.rs:2030 | calendar days of 86 400 s from the epoch |
| DayStrip.MaxRank | crates/storage/src/duckdb.rs:2188-2202 | the greatest rank of a day, attained by a result, zero only without results |
| DayStrip.WorstMeaning | crates/storage/src/duckdb.rs:5037-5045 | what the strip shows in terms of the statuses that occurred |
| DayStrip.WorstIgnoresOrder | crates/storage/src/memory.rs:2026-2046 | the strip does not depend on the order of results |
| DayStrip.FoldIsWorst | crates/storage/src/memory.rs:1997-2036 | the fold equals the maximum rank form although the rank tables differ |
| DayStrip.Fill | crates/storage/src/memory.rs:2037-2045 | one entry per day of the window, missing days without data |
| DayStrip.Strip | crates/storage/src/memory.rs:2026-2046 | the in-memory strip is the worst state of each day |
| DayStrip.StripDated | crates/storage/src/memory.rs:2049-2074 | the same with its days |
| DayStrip.IndexRows | crates/storage/src/duckdb.rs:2081-2087 | the day table answers for exactly the rows of the query |
| DayStrip.Rollup | crates/storage/src/duckdb.rs:2054-2105 | one grouped pass gives every target the strip of its own results |
| DayStrip.DashboardsAgreeIff | crates/storage/src/memory.rs:831-834 | the two dashboards agree exactly when no later result of today is worse than what is shown |
| DayStrip.DashboardsDiffer | crates/storage/src/memory.rs:831-834 | an input shown as an outage in memory and as operational in DuckDB |
| Latency.PercentileLaws | crates/storage/src/memory.rs:1977-1994 | monotone in p, between minimum and maximum, one-sample case equal to the general formula |
| Latency.PercentileInterpolates | crates/storage/src/memory.rs:1985-1993 | a percentile lies on the line between its neighbours at rank p × (n − 1) |
| Latency.SortLaws | crates/storage/src/memory.rs:760 | sorted and a permutation |
| Latency.IndexFits | crates/storage/src/memory.rs:749-750 | a result lands in a bucket in range whose seconds include its own, the last one taking the rest |
| Latency.StartsAscend | crates/storage/src/memory.rs:756 | starts are the whole seconds of the offsets, do not decrease and begin with the window |
| Latency.BucketsSpanWindow | crates/storage/src/memory.rs:741-742 | n equal buckets span the whole seconds of the window, at least one |
| Latency.DurationsMeaning | crates/storage/src/memory.rs:745-752 | a bucket holds the durations of exactly its results |
| Latency.SummaryLaws | crates/storage/src/memory.rs:757-769 | no data without results, else p50 ≤ p95 ≤ p99 within the range of the durations |
| Latency.SummaryRanks | crates/storage/src/memory.rs:760-768 | the three percentiles interpolate at 0.5, 0.95 and 0.99 |
| Latency.CountsAddUp | crates/storage/src/memory.rs:745-752 | every result of the window is counted in exactly one bucket, the right edge included |
| Latency.Distribute | crates/storage/src/memory.rs:744-752 | the loop puts each duration into its bucket, in table order |
| Latency.LatencyBuckets | crates/storage/src/memory.rs:732-772 | n buckets with their summaries, starts in order, counts adding up to the window |
| Escalation.Store.ListDue | crates/storage/src/memory.rs:1767-1776 | exactly the unacknowledged due states, as they are now |
| Escalation.Store.AdvanceState | bin/status-server/src/escalation_engine.rs:135-238 | on every branch the lookup and write-back steps of the protocol |
| Escalation.Store.Sweep | bin/status-server/src/escalation_engine.rs:108-127 | a sweep is a listing and then one turn per listed state, in order |
| EscalationLaws.StepPages | bin/status-server/src/escalation_engine.rs:181-226 | which event pages an incident, with what page and new state; no other does |
| EscalationLaws.NoPageAfterAck | crates/storage/src/memory.rs:1767-1793 | once the state is acknowledged or gone and no sweep has it listed, the incident is never paged again |
| EscalationLaws.AckIsFinal | bin/status-server/src/api/incident_ops.rs:115-127 | an acknowledgement or resolution through the ops endpoint is followed by no page unless a sweep under way has the incident listed |
| EscalationLaws.NoPageWhileEnded | bin/status-server/src/escalation_engine.rs:157-166 | no page while the incident stays resolved, whichever way it was resolved, unless the engine had looked it up before |
| EscalationLaws.PagesAreSpacedOut | bin/status-server/src/escalation_engine.rs:208-217 | consecutive pages are at least the announced delay apart, for any ladder and whatever happens during sweeps |
| EscalationLadder.NextStepMeaning | crates/core/src/domain/escalation_policy.rs:155-175 | the first step above the level in the same round, else the first step in the next round while rounds are left, else exhausted |
| EscalationLadder.NextStepDescends | crates/core/src/domain/escalation_policy.rs:155-175 | each page uses up part of a finite ladder |
| EscalationLadder.PagesClimbTheLadder | bin/status-server/src/escalation_engine.rs:168-217 | on every run the k-th page of an incident is the k-th rung met when its ascending ladder is climbed round by round |
| EscalationLadder.FirstPageWaits | bin/status-server/src/incident_writer.rs:385-410 | no page before the opening time plus the first step's delay |
| EscalationLadder.PagesAreBounded | crates/core/src/domain/escalation_policy.rs:155-175 | at most one page per rung and round of the policy the incident was opened with, for any levels and delays; none without a policy |
| EscalationLaws.AckHoldsIffNoPage | bin/status-server/src/escalation_engine.rs:114-217 | an acknowledgement of a listed incident holds exactly if its turn pages nobody; otherwise the page is sent after it and it is erased |
| EscalationLaws.ResolutionHoldsIffNoPage | bin/status-server/src/escalation_engine.rs:144-217 | a resolution of a listed incident ends paging exactly if it was not yet looked up or its turn pages nobody; otherwise the page follows it and the state is restored |
| EscalationLaws.StateEndsIff | bin/status-server/src/escalation_engine.rs:144-194 | exactly when an escalation state disappears |
| EscalationLaws.ResolvedCannotBeAcked | crates/core/src/domain/incident.rs:711-716 | an acknowledgement of a resolved incident changes nothing |
| EscalationLaws.AckErasedRun | bin/status-server/src/escalation_engine.rs:135-217 | a run in which both fail |
| EscalationLaws.ShortcutAckDoesNotSilence | bin/status-server/src/api/incident_ops.rs:68-76 | every continuation after the acknowledge shortcut goes as without it |
| Seeding.Store.SyncConfiguredChannels | bin/status-server/src/seed.rs:139-161 | the synced channels and the identifier of every configured name |
| Seeding.Store.SyncConfiguredTargets | bin/status-server/src/seed.rs:163-221 | the synced targets and the name table over all targets |
| Seeding.Store.SyncConfiguredPages | bin/status-server/src/seed.rs:223-289 | pages created for unknown slugs, every page bound |
| Seeding.Store.BindTargets | bin/status-server/src/seed.rs:260-282 | every known target bound, numbered in iteration order |
| Seeding.Store.SyncFromConfig | bin/status-server/src/seed.rs:138-290 | the whole sync |
| SeedingLaws.SyncIsIdempotent | bin/status-server/src/seed.rs:136-290 | a second sync creates no channel, target or page and changes bindings at most in their numbers, for any two iteration orders |
| SeedingLaws.SyncIsComplete | bin/status-server/src/seed.rs:138-290 | every configured channel, target and page exists afterwards and every configured page lists every target; only configured entries are added; channels, targets and pages stay unchanged |
| SeedingLaws.SyncWritesBindings | bin/status-server/src/seed.rs:260-282 | bindings of synced pages to known targets hold the name, the group of its last entry or "General", and no public name or description; every other binding stays |
| SeedingLaws.BindingSurvivesIff | bin/status-server/src/seed.rs:264-282 | an existing binding survives, up to its number, exactly if the sync does not write it or it already is what the sync writes |
| SeedingLaws.PublicNameIsLost | bin/status-server/src/seed.rs:270-277 | an input on which a public name is lost |
| SeedingLaws.AlertsMeaning | bin/status-server/src/seed.rs:174-190 | a target alerts exactly its known channels, in order; the length differs exactly when a name is unknown |
| SeedingLaws.NewestNameCounts | bin/status-server/src/seed.rs:164-166 | of several targets with one name the newest counts |
| SeedingLaws.NewestSlugCounts | bin/status-server/src/seed.rs:224-226 | of several pages with one slug the newest counts |
| SeedingLaws.GroupMeaning | bin/status-server/src/seed.rs:261-268 | the group is that of the last entry of that name, or "General" |
| SeedingLaws.SyncNumbersBindings | bin/status-server/src/seed.rs:260-282 | on every configured page the i-th target has number i |
| SeedingLaws.SyncNumbersArePermutation | bin/status-server/src/seed.rs:260-282 | on a page without other bindings each binding is that of exactly one position of the order and carries its number, so the numbers are a permutation of 0..n−1 |

## Left out

- Floating-point rounding: token counts, percentiles and bucket widths are exact.
- Network probes, SSRF checks, TLS inspection and the sending of mail, webhooks and chat messages: only their success or failure matters here.
- The scheduler's intervals: due times are read and never advanced in `bin/status-server/src/scheduler.rs:218-272`, so there is no interval law to state.
- Parsing of `Forwarded` and `X-Forwarded-For`: an arbitrary function from header values to addresses.
- SHA-256, JSON, SQL execution and the cache's own eviction policy: parameters or environment steps.
- Storage failures: a failed mark is modelled as a crashed worker, and seeding assumes that creates succeed.
- Liveness of the queue: a crash strands a row, so only safety and bounded work are stated.
- Incident titles, error samples, severities, notification fan-out and silence rules: carried along by the code without influence on the transitions.
- Maintenance windows: whether a target is in one is a parameter of each evaluation.
- Changes to policies during an escalation run, and incidents deleted under the engine other than as an unknown identifier.
- DuckDB `latency_buckets` and the row order of its batch read: the memory versions are modelled.
- Unknown future variants of the status and state enumerations.
- Sessions, tokens, magic links, shares and the caches in front of storage are not modelled.
- Router, MCP server, Postgres skeleton, observability, assets and frontend.
