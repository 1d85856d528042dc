# Verified model of the release registry's stateful protocols and dense algorithms

A Dafny model of the parts of the registry whose correctness spans whole runs: the per-source alarm actor, the status
hub, the release stream, webhook delivery, the worker pools of the batch scripts, the keyset-paginated feeds, the
Eastern-day changelog windows, the CSV manifest, code-text escaping, alias sets, feed-depth assessment and the
changelog section splitter. Check it with `dafny verify dfyconfig.toml`.

How the model is laid out:

- Handlers of a Durable Object are methods of a class (`SourceActor.Actor`, `StatusHub.StatusHub`,
  `ReleaseHub.ReleaseHub`), each proved equal to a step function on values; the properties of whole runs are lemmas
  about those steps. Each handler is one atomic step, which is what the platform's input gates give storage handlers.
- Scripts' loops are methods with invariants, proved against a specification that is independent of the loop.
- The environment (clocks, D1 rows, the workflow service, delivery results, model output, the zone database) is a
  parameter. Instants are whole milliseconds; text is compared by code unit.

What the proofs say, hardest first:

- **Feed pagination** (`FeedCursor`, `FeedPages`). Under three-valued SQL logic all three renderings of the cursor
  predicate select exactly the rows strictly after the cursor, for exactly the rows whose key survives the wire format.
  Hence a client following `nextCursor` while the table changes under it sees strictly descending rows, none twice, and
  every row that was there throughout; merging the per-member queries of a collection keeps that.
- **Source actor** (`SourceActor`, `WorkflowIds`, `ScrapeLock`). One accepted workflow per 15-minute bucket over any
  run; an in-flight lease always names the latest accepted create, and the next create of a source that stays due needs
  an alarm, a window later, at which that very instance was finished or unknown; alarms, mirror and heartbeats agree.
- **Release stream** (`EventBuffer`, `ReleaseHub`). Resuming is lossless or announces a gap, a gap is announced exactly
  when an event was evicted, and reconnecting or paging any number of times yields the log itself.
- **Status hub** (`Sessions`, `Stdout`, `StatusHub`). A session's status is a simple fold with at most two changes;
  batched output reads back as the last 1000 lines, however flushes, reads and left-over timers interleave.
- **Webhooks** (`WebhookState`, `DeliveryQueue`). Every message is settled once; one notice per pause; and it is stated
  exactly, for every interleaving, when a pending decision to pause lands and when it still can.
- **Worker pools** (`WorkerPool`, `ContentRun`). Under every interleaving the pool is the pointwise map, in a fixed
  number of segments; each row of a generator run gets one outcome, one tally and its own content.
- **Changelog windows** (`Calendar`, `EasternDays`, `DraftWindow`). The two-offset probe finds the first instant of
  every Eastern day; the search bounds tile the window; successive runs tile the calendar.
- **Text and sets** (`Csv`, `Manifest`, `CodeText`, `Aliases`, `FeedDepth`, `Sections`). Round trips with their exact
  conditions, set reconciliation with global uniqueness, majority detection, and a determined partition.

Places where the code does less than it promises; the model keeps the code and states the exact condition:

- `scripts/upload-org-avatars.ts:333` puts the URL into the last original column when the table has `upload_status` but
  not `uploaded_url`, and a bare carriage return that the printer puts before a line end is lost
  (`Manifest.ManifestRoundTrip`, `Manifest.OverwritesLastColumn`).
- `packages/core-internal/src/webhook-delivery-state.ts:58-62` says a success in between always prevents a stale
  disable. A pending decision lands exactly when the row is on and the failures since the last success or re-enable are
  as many as it saw and began at the same instant (`WebhookState.FlipIffSameStreak`). So after a success or re-enable it
  lands only if a new streak takes its own stamp (`WebhookState.DisturbedNeverLands`), and at the deployed thresholds a
  run of ten or fifty more failures begun in that millisecond makes it land (`WebhookState.RebuiltWhereDeployed`).
- `/subscribe` with a cursor past the head sends events the cursor claims to have seen; with a cursor at most the head it
  never does, whatever is published (`ReleaseHub.LaterOnlyIff`, `ReleaseHub.FreshHubSeesOld`).
- `decodeHtmlEntities` gives back an escaped text exactly when nothing in the original could be decoded
  (`CodeText.RoundTripIff`, `CodeText.WrittenReferenceIsLost`); on every text escaping leaves the decoded form unchanged.

## Model

| member | source | states |
|---|---|---|
| `FeedCursor.CursorRoundTrip` | packages/core-internal/src/feed-cursor.ts:77-120 | A row's cursor parses back to the row's own key if and only if its parts are non-empty and free of the separator (an undated row has no date part). |
| `FeedCursor.LegacyKeys` | packages/core-internal/src/feed-cursor.ts:111-119 | The two- and one-part shapes parse to an id with or without a date, and to a date alone; without them there is no key. |
| `FeedCursor.TruthTables` | packages/core-internal/src/feed-cursor.ts:143-156 | A conjunction is true when both sides are and false when one is, a disjunction the other way round, with unknown in between. |
| `FeedCursor.RawIsInlined` | apps/api/src/utils.ts:473-521 | The raw placeholder text bound left to right is the inlined predicate of the shared renderer, for every cursor shape including the legacy ones. |
| `FeedCursor.KeysetIsExact` | packages/core-internal/src/feed-cursor.ts:138-157 | Under SQL's three-valued logic the placeholder, inlined and query-builder predicates each select exactly the rows strictly after the cursor row in feed order. |
| `FeedCursor.LatestSelectsSame` | packages/queries/src/releases.ts:115-126 | The query-builder predicate, which nests the tie-break differently, selects the same rows as the shared one for every cursor a client may send, legacy shapes included. |
| `FeedCursor.KeysetExactIff` | packages/core-internal/src/feed-cursor.ts:138-146 | The predicate is right about every possible row if and only if the cursor row's key survives the wire format. |
| `FeedCursor.BeforeTransitive` | packages/core-internal/src/collection-feed.ts:54-58 | The feed order is transitive across dated and undated rows. |
| `FeedCursor.BeforeTotal` | packages/core-internal/src/collection-feed.ts:54-58 | Two different row keys are always ordered. |
| `FeedPages.TopUnique` | packages/core-internal/src/collection-feed.ts:54-59 | ORDER BY with LIMIT has one possible answer over a set of rows. |
| `FeedPages.PageIsExact` | apps/mcp/src/tools.ts:730-741 | A served page is the first `limit` matching rows; it reports more if and only if more than `limit` rows match, and then, and only then, gives the cursor of its last row. |
| `FeedPages.WalkFrom` | apps/mcp/src/tools.ts:713-741 | From any cursor, over tables that may differ at each request: rows come out strictly descending, all after the cursor, and every row present throughout has come out or is still ahead of the next cursor. |
| `FeedPages.CompleteWalk` | apps/mcp/src/tools.ts:2159-2170 | A walk from the head that runs out of cursors is strictly descending, repeats nothing and contains every row that was present at each request. |
| `FeedPages.WalkOfOneTable` | apps/mcp/src/tools.ts:2159-2170 | Over an unchanging table the pages join to the whole table in feed order. |
| `FeedPages.WalkEnds` | apps/mcp/src/tools.ts:2159-2170 | Over an unchanging table no page of a walk is empty, the last included, so (pages - 1) times limit is below the number of rows; an empty table takes one page. |
| `FeedPages.AdmittedPageSize` | apps/mcp/src/mcp-agent.ts:607-613 | Every slice size the input schemas let through, absent or a whole number from 1 to 200, gives a page of exactly that size or the default, so at least 1. |
| `FeedPages.AdmittedWalk` | apps/mcp/src/tools.ts:666-741 | Hence following nextCursor to its end with any admitted slice size is strictly descending and complete, with no condition on the limit left. |
| `FeedPages.FeedLimitPositive` | apps/mcp/src/lib/pagination.ts:131-136 | For any number: 50 without a positive one, else its whole part, at most 200; and 0 exactly for a fraction strictly between 0 and 1, which the schemas reject. |
| `FeedPages.ZeroLimitStalls` | apps/mcp/src/tools.ts:730-741 | A page of size 0 would report more rows of a non-empty feed but give no row and no cursor: why the schemas must reject it. |
| `FeedPages.CompareIsBefore` | packages/core-internal/src/collection-feed.ts:63-76 | The in-memory comparator is the ORDER BY, and is 0 only for equal keys. |
| `FeedPages.MergeIsTop` | packages/core-internal/src/collection-feed.ts:141-164 | The first k of the sorted union of every chunk's first k are the first k of all chunks together. |
| `FeedPages.CollectionFeed` | packages/core-internal/src/collection-feed.ts:136-164 | The de-duplicate, sort and slice loop returns what one query over all members would. |
| `FeedPages.CollectionPage` | apps/mcp/src/tools.ts:2159-2170 | The merged feed cut at the limit is a page of one query over all members, so the walk theorems hold for the collection feed; it reports more exactly when more rows match. |
| `FetchPlan.DueTimeIffPolled` | packages/adapters/src/fetch-plan.ts:120-180 | A row has a due time exactly when it is polled and not paused, at 4 or 24 hours. |
| `FetchPlan.DueTimeIs` | packages/adapters/src/fetch-plan.ts:234-266 | In numbers: the backoff or now for a source never polled, else 4 hours (24 for low priority) after the last poll, or after now when that is unreadable, and not before the backoff. |
| `WorkflowIds.IdTextInjective` | apps/api/src/source-actor.ts:51-55 | The instance id text determines the source id and the bucket, whatever characters the source id has. |
| `WorkflowIds.WindowSeparatesBuckets` | apps/api/src/source-actor.ts:40-55 | Fires a safety window apart have increasing buckets. |
| `ScrapeLock.HoldsDisjoint` | apps/api/src/source-actor.ts:193-239 | Over any run of acquires and releases with a clock that does not go back, the hold intervals are disjoint and in order. |
| `ScrapeLock.RunFromStart` | apps/api/src/source-actor.ts:193-239 | Every run from a free lock keeps the invariant. |
| `ScrapeLock.AcquireFailsIffHeld` | apps/api/src/source-actor.ts:193-220 | An acquire fails exactly when a hold covers the moment; then nothing changes and the answer names that hold's session. |
| `ScrapeLock.ReleaseOnlyOwn` | apps/api/src/source-actor.ts:228-239 | A foreign release changes neither lock nor holds; the owner's ends its hold at once. |
| `SourceActor.FireValid` | apps/api/src/source-actor.ts:393-425 | A create keeps the ids known to the service equal to the distinct buckets of this source's accepted creates. |
| `SourceActor.StepValid` | apps/api/src/source-actor.ts:137-328 | Every handler, a crash after create, and other sources' creates keep the invariant of instance ids and of the stored source id. |
| `SourceActor.RunValid` | apps/api/src/source-actor.ts:241-328 | In every reachable state a pending alarm has its source id and all accepted instances lie in different buckets. |
| `SourceActor.CollisionIffSameBucket` | apps/api/src/source-actor.ts:405-424 | A create is refused as a duplicate exactly when this source already fired in this bucket. |
| `SourceActor.AlarmOutcome` | apps/api/src/source-actor.ts:241-328 | An alarm run ends with an alarm more than the slack ahead, or with none exactly for a row without local cadence; stored state and, when written, the mirror agree with it. |
| `SourceActor.AlarmBeforeDue` | apps/api/src/source-actor.ts:248-296 | A deleted source loses its state, one not polled is left without alarm and lease, one not due within 30 s waits for its due time and drops the lease but keeps the last create; none of them creates. |
| `SourceActor.SeedsSoon` | apps/api/src/source-actor.ts:152-174 | A seeded alarm fires within five minutes; a change always seeds; neither touches state or workflows. |
| `SourceActor.MirrorCatchesUp` | apps/api/src/source-actor.ts:478-500 | After any handler whose mirror write succeeds, the mirror is the pending alarm. |
| `SourceActor.HeartbeatsKeepAlarm` | apps/api/src/source-actor.ts:137-156 | Any number of unforced heartbeats before the minute is over leave alarm and state as they were. |
| `SourceActor.HeartbeatMovesIff` | apps/api/src/source-actor.ts:142-155 | A heartbeat moves the alarm exactly when there is none, it is a minute overdue, or the call is forced. |
| `SourceActor.InFlightNamesLatest` | apps/api/src/source-actor.ts:301-327 | Over any run without a crash between create and record, an in-flight flag comes with the time of the latest accepted create. |
| `SourceActor.LeaseHolds` | apps/api/src/source-actor.ts:298-309 | While the source stays due and each alarm is inside the window or told the run is alive, no alarm creates an instance and the lease stays. |
| `SourceActor.NextCreateNeedsEnd` | apps/api/src/source-actor.ts:363-391 | Between two creates of a source that stays due lies an alarm at least 15 minutes later at which the answer about exactly the earlier instance, if it could be asked for, was neither an error other than not-found nor one of the five live statuses. |
| `SourceActor.AlarmByAnswer` | apps/api/src/source-actor.ts:301-328 | For a leased, due source and each answer of the service: within 15 minutes, on a lookup error or on one of the five live statuses, no create, still in flight, next look in 15 minutes; otherwise a create, in flight anew until the tier interval is over, or on refusal no lease and again in ten minutes. |
| `SourceActor.AlarmUnleased` | apps/api/src/source-actor.ts:311-328 | Without a lease, or with one that has outlived its window and cannot be looked up, a due source is created at once unless binding, control plane or an earlier create of the same 15 minutes stand in the way. |
| `SourceActor.EndedLeaseFires` | apps/api/src/source-actor.ts:311-327 | The first due alarm past an ended lease creates, unless binding or control plane refuse; then it retries in ten minutes without a lease. |
| `SourceActor.Actor.EnsureScheduled` | apps/api/src/source-actor.ts:137-156 | The handler is the heartbeat step, returns the pending alarm, and reports seeding exactly when it set one. |
| `SourceActor.Actor.OnSourceChanged` | apps/api/src/source-actor.ts:165-175 | The handler is the change step: a new jittered alarm, mirrored. |
| `SourceActor.Actor.OnAlarm` | apps/api/src/source-actor.ts:241-328 | The handler with its branches in source order is the alarm step of the runs above and never touches the scrape lock. |
| `SourceActor.Actor.FireWorkflow` | apps/api/src/source-actor.ts:393-425 | A create is reported accepted exactly when binding and control plane are there and the id is new. |
| `SourceActor.Actor.ScheduleAtTime` | apps/api/src/source-actor.ts:428-458 | Alarm, state and mirror are set together. |
| `SourceActor.Actor.ClearSchedule` | apps/api/src/source-actor.ts:465-469 | State, alarm and mirror are cleared together. |
| `SourceActor.Actor.TearDown` | apps/api/src/source-actor.ts:503-510 | A deleted source loses alarm, state and mirror. |
| `SourceActor.Actor.TryAcquireScrapeLock` | apps/api/src/source-actor.ts:193-220 | The handler is the acquire step of the lock histories. |
| `SourceActor.Actor.ReleaseScrapeLock` | apps/api/src/source-actor.ts:228-239 | The handler is the release step of the lock histories. |
| `Sessions.StatusIsFold` | apps/api/src/status-hub.ts:366-508 | From any start to cleanup, through any history of any sessions, the stored session follows a five-phase fold. |
| `Sessions.FewStatusChanges` | apps/api/src/status-hub.ts:14-36 | A session changes status at most twice after a start, once after a timeout, never after a final status. |
| `Sessions.FinalIsFinal` | apps/api/src/status-hub.ts:27-36 | Complete, cancelled and reported errors keep status, text and source; the sweep's own guess may only become complete or cancelled. |
| `Sessions.StepFields` | apps/api/src/status-hub.ts:389-483 | What one event does to the other fields: progress replaces the active sources it names, finishing clears them and the error, an error on a running session sets text and given source. |
| `Sessions.SweepMarksSilent` | apps/api/src/status-hub.ts:526-536 | A sweep turns exactly the running sessions without an update for more than 15 minutes into the timeout error, and touches no other. |
| `Sessions.OthersAreLeft` | apps/api/src/status-hub.ts:366-508 | Every event but sweep and cleanup leaves all other sessions as they were. |
| `Sessions.NewRecords` | apps/api/src/status-hub.ts:368-388 | A start and an error of an unknown session make a fresh record and set a cleanup a day ahead when none is set. |
| `Sessions.DismissedIff` | apps/api/src/status-hub.ts:326-333 | A session is hidden exactly when it was dismissed since it started. |
| `Sessions.CancelledIff` | apps/api/src/status-hub.ts:266-286 | A session is asked to cancel exactly when a cancel came in while it was running. |
| `Sessions.StartedSession` | apps/api/src/status-hub.ts:368-388 | A started session follows the fold from running, with at most two changes. |
| `Sessions.CleanupIsScheduled` | apps/api/src/status-hub.ts:349-388 | A hub that holds a session always has its cleanup alarm set. |
| `Sessions.CleanupKeepsRetained` | apps/api/src/status-hub.ts:349-364 | After a cleanup exactly the sessions are there, unchanged, that are running or were last updated (else started) at most 2592000000 ms ago; the next cleanup is a day later. |
| `Sessions.RetainedSurvives` | apps/api/src/status-hub.ts:349-364 | A session that is running, or recent enough, at every cleanup of a run is there at its end. |
| `Stdout.LastOfLast` | apps/api/src/status-hub.ts:190-191 | Trimming at every flush keeps what one trim at the end would keep. |
| `Stdout.RunValid` | apps/api/src/status-hub.ts:169-195 | Every interleaving of lines, reads and timers keeps the stored lines plus the buffer equal to the trimmed log, and a timer for the buffer. |
| `Stdout.ReadIsLastLines` | apps/api/src/status-hub.ts:252-261 | A read returns exactly the last 1000 lines ever emitted for that session. |
| `Stdout.StoredWithinInterval` | apps/api/src/status-hub.ts:176-184 | A waiting line is never older than the flush interval and a timer due within it is live. |
| `Stdout.TimeGoesOn` | apps/api/src/status-hub.ts:176-180 | No reachable state blocks a line, a read or the clock: time goes on to any later moment, or to the next deadline, whose timer then fires. |
| `StatusHub.StatusHub.OnStart` | apps/api/src/status-hub.ts:368-388 | The handler is the start step, cleanup alarm included. |
| `StatusHub.StatusHub.OnProgress` | apps/api/src/status-hub.ts:389-415 | Progress touches a known session whatever its status, and only its activity and time. |
| `StatusHub.StatusHub.OnTerminal` | apps/api/src/status-hub.ts:427-455 | Complete and cancelled are the finish steps. |
| `StatusHub.StatusHub.OnError` | apps/api/src/status-hub.ts:463-505 | An error is the fail step: ignored on a finished session, a new record for an unknown one. |
| `StatusHub.StatusHub.RequestCancel` | apps/api/src/status-hub.ts:266-286 | A cancel marks only a running session and answers not found, not running with the status, or accepted. |
| `StatusHub.StatusHub.DismissSession` | apps/api/src/status-hub.ts:326-333 | Dismissing hides and keeps the record. |
| `StatusHub.StatusHub.GetSessions` | apps/api/src/status-hub.ts:521-540 | Reading sweeps every stale session and shows exactly the undismissed ones. |
| `StatusHub.StatusHub.OnCleanupAlarm` | apps/api/src/status-hub.ts:349-364 | The handler keeps exactly the running sessions and those updated within 30 days, unchanged; output goes exactly with its session. |
| `StatusHub.StatusHub.BufferStdoutLine` | apps/api/src/status-hub.ts:169-181 | Buffering is the emit step: one line appended and a timer started only when no handle is held. |
| `StatusHub.StatusHub.FlushStdout` | apps/api/src/status-hub.ts:183-195 | The loop merges and trims every buffered session and no other. |
| `StatusHub.StatusHub.OnFlushTimer` | apps/api/src/status-hub.ts:176-180 | A firing timer is the timer step. |
| `StatusHub.StatusHub.ReadStdout` | apps/api/src/status-hub.ts:252-261 | A read flushes only when that session has buffered lines and returns the stored ones. |
| `EventBuffer.KeyOrder` | packages/core-internal/src/release-event.ts:99-101 | The order of padded storage keys is the order of sequence numbers, up to the width. |
| `EventBuffer.AppendKeeps` | apps/api/src/events/buffer.ts:16-47 | Appending keeps the store equal to the newest events of the log, with head and oldest right. |
| `EventBuffer.OrderIsUnique` | apps/api/src/events/buffer.ts:56-60 | A strictly increasing enumeration of the keys is the listing order. |
| `EventBuffer.ReplayIsTail` | apps/api/src/events/buffer.ts:50-61 | Replay lists exactly the kept events after the cursor, oldest first. |
| `EventBuffer.GapIffEvicted` | apps/api/src/release-hub.ts:67-68 | The gap test holds exactly when an event after the cursor was evicted. |
| `ReleaseHub.RunValid` | apps/api/src/release-hub.ts:30-114 | Over any run of publishes, subscribes and closes each connection's inbox is its opening followed by a contiguous slice of the log. |
| `ReleaseHub.ResumeIsLossless` | apps/api/src/release-hub.ts:60-82 | With a cursor at most the head, a connection gets a gap notice or every later event once and in order across replay and live. |
| `ReleaseHub.GapAtJoin` | apps/api/src/release-hub.ts:66-76 | A connection is marked with a gap exactly when an event after its cursor was already evicted. |
| `ReleaseHub.HandshakeIs` | apps/api/src/release-hub.ts:60-82 | What a new connection is sent first: the head; then the gap with the oldest event still kept, exactly when one after the cursor is gone, else every event after the cursor. |
| `ReleaseHub.CursorPastHead` | apps/api/src/release-hub.ts:54-77 | A connection without a gap gets only events after its cursor if and only if the cursor was at most the head or nothing was published while it was open. |
| `ReleaseHub.LaterOnlyIff` | apps/api/src/release-hub.ts:54-82 | At subscribe time: every event that is ever sent, whatever happens afterwards, comes after the cursor if and only if the cursor is at most the head. |
| `ReleaseHub.PastHeadSeesOld` | apps/api/src/release-hub.ts:77-82 | Past the head the next published event is sent although the cursor claims it. |
| `ReleaseHub.FreshHubSeesOld` | apps/api/src/release-hub.ts:77-82 | A concrete case: an empty hub and cursor 7. |
| `ReleaseHub.ReconnectingSeesTheLog` | apps/api/src/release-hub.ts:49-85 | Reconnecting at the last number received, any number of times without a gap notice, collects the log, each event once. |
| `ReleaseHub.PageIsSlice` | apps/api/src/release-hub.ts:88-114 | Without a gap a page is the next events after the cursor, up to the clamped limit. |
| `ReleaseHub.PageIs` | apps/api/src/release-hub.ts:88-114 | Any page, gap or not: the head, the oldest kept event exactly when one after the cursor is gone, and the next kept events, as many as asked for within 1 and 500. |
| `ReleaseHub.PagingSeesTheLog` | apps/api/src/release-hub.ts:88-114 | Paging with any limit, while events are published and evicted, yields the same sequence as resuming. |
| `ReleaseHub.EmptyPageIsHead` | apps/api/src/release-hub.ts:106-109 | An empty page means the client has reached the head. |
| `ReleaseHub.ReleaseHub.AppendEvent` | apps/api/src/events/buffer.ts:16-47 | The in-place append is the append step. |
| `ReleaseHub.ReleaseHub.Publish` | apps/api/src/release-hub.ts:34-47 | Appending all and then fanning out is the publish step of the runs above. |
| `ReleaseHub.ReleaseHub.Subscribe` | apps/api/src/release-hub.ts:50-85 | The handshake loop is the subscribe step. |
| `ReleaseHub.ReleaseHub.Replay` | apps/api/src/release-hub.ts:88-114 | The endpoint returns the page the paging lemmas are about. |
| `WebhookState.NoticesAreFlips` | apps/webhooks/src/index.ts:249-285 | Over any interleaving, notices equal the consumers' enabled-to-disabled transitions, and are at most one more than re-enables. |
| `WebhookState.CountersAreStreak` | packages/core-internal/src/webhook-delivery-state.ts:25-53 | The stored counter and streak start are the number and first stamp of the failures since the last success or re-enable. |
| `WebhookState.PatchIs` | apps/api/src/webhooks/shared.ts:73-83 | Switching on starts the counters afresh, switching off keeps them. |
| `WebhookState.FlipIs` | packages/core-internal/src/webhook-delivery-state.ts:64-86 | A flip pauses the row, changes nothing else of it and sends one notice, exactly when the row is on with the counters that were seen; otherwise it leaves the row alone. |
| `WebhookState.DecidesIffEnough` | packages/core-internal/src/webhook-resilience.ts:55-73 | Over any run a failure leaves a pending decision if and only if the row is on and the failures in a row are enough: for a user 10, or 3 of which the first is at least 172800000 ms old; for an administrator the threshold. |
| `WebhookState.FlipIsEarned` | packages/core-internal/src/webhook-resilience.ts:55-73 | A pause that lands finds the failures in a row enough by those numbers at decision time, whatever happened to other consumers. |
| `WebhookState.StepValid` | packages/core-internal/src/webhook-delivery-state.ts:25-86 | With fresh streak stamps every step keeps pending decisions distinct and no newer than the row. |
| `WebhookState.DecisionFits` | apps/webhooks/src/index.ts:244-249 | A decision matches the row right after the failure that made it. |
| `WebhookState.FlipIffUndisturbed` | packages/core-internal/src/webhook-delivery-state.ts:64-86 | From decision to flip, over any run in which no new streak takes the stamp of the one seen: it lands if and only if every step in between is an attempt to flip by a consumer that saw other counters. |
| `WebhookState.FlipIffOnlyFlips` | packages/core-internal/src/webhook-delivery-state.ts:64-86 | Where pending decisions are distinct: if and only if every step in between is an attempt to flip. |
| `WebhookState.FlipIffSameStreak` | packages/core-internal/src/webhook-delivery-state.ts:42-84 | Over any run from creation and with any stamps: a pending decision lands if and only if the row is on and the failures since the last success or re-enable are as many as it saw and began at the same instant. |
| `WebhookState.LandsIffCanCatchUp` | packages/core-internal/src/webhook-delivery-state.ts:56-86 | A pending decision can still land in some continuation without a reused stamp if and only if the row is on, in the streak that was seen, and not past its count. |
| `WebhookState.DisturbedNeverLands` | packages/core-internal/src/webhook-delivery-state.ts:58-62 | After a success, re-enable, manual pause, deletion or further failure it lands only if a new streak takes its own stamp. |
| `WebhookState.RebuiltSnapshotFlips` | packages/core-internal/src/webhook-delivery-state.ts:72-79 | With a reused stamp a success in between prevents nothing, for every owner and every count that is due. |
| `WebhookState.RebuiltWhereDeployed` | packages/core-internal/src/webhook-resilience.ts:55-73 | In particular for ten failures of a user-owned row and fifty of an administrator row. |
| `DeliveryQueue.DeliverOne` | apps/webhooks/src/index.ts:198-293 | One message is acknowledged exactly when it is settled for good, retried after 6 s exactly when rate-limited, and notified exactly when its pause lands. |
| `DeliveryQueue.DeliverBatch` | apps/webhooks/src/index.ts:187-293 | Every message of a batch is settled once in order; without a signing key all are retried; notices name exactly the pausing messages. |
| `DeliveryQueue.WritesAreSteps` | apps/webhooks/src/index.ts:238-285 | What a delivery does to the row are steps of the interleaved protocol, and it pauses exactly when its flip step sends a notice. |
| `DeliveryQueue.WritesAre` | apps/webhooks/src/index.ts:203-292 | What a message writes: nothing unsent, the success, or the failure, with a flip exactly when the row is on and has now failed enough; it pauses exactly when the flip finds the row on with the same counters; only a transient failure or the rate limit leaves it unsettled. |
| `DeliveryQueue.DrainDeadLetters` | apps/webhooks/src/index.ts:131-153 | Every dead letter is acknowledged once and the summary has exactly the subscriptions of the batch with their counts. |
| `DeliveryQueue.CountIs` | apps/webhooks/src/index.ts:148-152 | A subscription is counted as many times as it has messages in the batch. |
| `WorkerPool.StepValid` | scripts/export-org-manifest.ts:201-206 | Any worker's next segment keeps claims distinct, results right and unclaimed items untouched. |
| `WorkerPool.RunLeft` | scripts/generate-release-content.ts:304-315 | Every interleaving takes exactly one segment per worker and per item. |
| `WorkerPool.RunNext` | scripts/generate-release-content.ts:308-309 | The cursor stands after the last claim, and where it moves before the test once more for each worker that has left. |
| `WorkerPool.PoolIsMap` | scripts/export-org-manifest.ts:194-209 | Under every interleaving of either claim loop: at most `limit` calls in flight, calls on 0, 1, 2 … once each, and at the end the pointwise results. |
| `WorkerPool.PoolEnds` | scripts/generate-release-content.ts:299-316 | The pool is over exactly after all those segments, and a worker leaves only when every item is claimed. |
| `WorkerPool.NoWorkers` | scripts/export-org-manifest.ts:207-208 | With limit 0 the pool returns at once with every result missing. |
| `WorkerPool.Pool.Resume` | scripts/export-org-manifest.ts:201-206 | One worker's in-place segment is the step of the interleaving model. |
| `ContentRun.CollectResults` | packages/ai/src/batch.ts:118-129 | The map holds, for each id, what the stream said last. |
| `ContentRun.LastIs` | packages/ai/src/batch.ts:125-127 | The last outcome of an id is that of a line about it with none about it after. |
| `ContentRun.EntryIs` | scripts/generate-release-content.ts:361-500 | A submitted row ends with content exactly when its last line says it succeeded, with that text and usage; any other submitted row has failed and an empty one is skipped at no cost. |
| `ContentRun.RunBatch` | scripts/generate-release-content.ts:347-507 | Each row gets exactly one entry, empty rows first and then the submitted ones in order, with its own outcome or the error for a missing line. |
| `ContentRun.RealtimeIsPerRow` | scripts/generate-release-content.ts:336-345 | However the realtime workers interleave, entry i is row i's own. |
| `ContentRun.Tally` | scripts/generate-release-content.ts:627-698 | The final loop's counters are the class counts; in an applied run written, skipped and failed add up to the rows. |
| `ContentRun.ClassesAre` | scripts/generate-release-content.ts:653-698 | The tallies count what failed, what was skipped, and in an applied run the rest. |
| `ContentRun.RunWrites` | scripts/generate-release-content.ts:675-698 | Whatever order the pooled writes land in, rows with content end with exactly it and all other rows keep theirs. |
| `Calendar.DayInRange` | scripts/changelog/draft-window.ts:11-13 | Every four-digit-year date has a day number that leads back to it. |
| `Calendar.DayNumberCounts` | scripts/changelog/draft-window.ts:11-13 | The day number is 0 at 1970-01-01 and one more at the next date of the Gregorian calendar. |
| `Calendar.CountedFromEpoch` | scripts/changelog/et-dates.ts:34 | Counting n dates on from 1970-01-01 leads to the date of day number n. |
| `Calendar.EpochIsDayZero` | scripts/changelog/et-dates.ts:34 | The text of the epoch is day 0. |
| `Calendar.DayCounts` | scripts/changelog/draft-window.ts:11-13 | The text one day on is the text of the next date. |
| `Calendar.IsoOrder` | scripts/changelog/compute-window.ts:59 | Comparing two dates as text (RFC 3339, section 5.6) compares them as dates. |
| `Calendar.DayOrder` | scripts/changelog/compute-window.ts:30 | Comparing two date texts compares their day numbers. |
| `Calendar.DayRoundTrip` | scripts/changelog/draft-window.ts:11-13 | Printing the day of a date text gives the text back. |
| `Calendar.AddDays` | scripts/changelog/draft-window.ts:11-13 | The text n days on is a date whose day number is n more. |
| `EasternDays.MidnightIsExact` | scripts/changelog/et-dates.ts:29-41 | For a zone of -4 and -5 hours that switches only at 02:00 the probe never fails, and local time reaches the day exactly from its answer on. |
| `EasternDays.MidnightStartsDay` | scripts/changelog/et-dates.ts:25-41 | The probe's answer is the first instant of that Eastern day. |
| `EasternDays.StartIsMidnight` | scripts/changelog/et-dates.ts:29-41 | The start of a day is its day count times 86400000 ms plus the 4 or 5 hours that the zone is behind at that instant. |
| `EasternDays.DayBracket` | scripts/changelog/et-dates.ts:25-41 | An instant falls on a day exactly between its midnight and the next. |
| `EasternDays.EtMidnightUtc` | scripts/changelog/et-dates.ts:32-41 | The two-offset loop returns the start of the day and does not fall through. |
| `EasternDays.DayBounds` | scripts/changelog/compute-window.ts:29-32 | The loop yields one bound per day, labelled with its date, from its midnight to the next. |
| `EasternDays.SearchOutputs` | scripts/changelog/compute-window.ts:27-38 | The bounds tile the search range with no gap or overlap, the range is exactly those days, one before `since` to `until`, and every bound is the UTC instant of its date at midnight. |
| `DraftWindow.WindowIsSpan` | scripts/changelog/draft-window.ts:15-29 | The text window is the day-number window, and the text comparison that skips a run decides the same. |
| `DraftWindow.RunsTile` | scripts/changelog/compute-window.ts:53-70 | Over any runs that draft their whole window, each day after the first section up to the last lies in exactly one window or reported skip, and no other day in any. |
| `DraftWindow.FirstRunsTile` | scripts/changelog/draft-window.ts:20-21 | From an empty changelog the tiling starts at the first run's yesterday. |
| `DraftWindow.WindowBounds` | scripts/changelog/draft-window.ts:20-28 | A window ends yesterday, has at most maxSpanDays + 1 days, starts after the last section unless capped, and a cap names the first skipped day. |
| `Csv.SplitCsvLine` | scripts/upload-org-avatars.ts:112-138 | The index loop computes the fields of the scanning specification. |
| `Csv.EscapeIs` | scripts/upload-org-avatars.ts:353-358 | A field without separator, quote or line feed is printed as it is, any other in quotes with one more character per quote. |
| `Csv.LineRoundTrip` | scripts/upload-org-avatars.ts:353-358 | Splitting a joined line of escaped fields gives the fields back, for every non-empty list of any text (RFC 4180, section 2). |
| `Csv.LineNoBreak` | scripts/upload-org-avatars.ts:347 | Fields without line feeds print as one line, with a separator when there are two or more. |
| `Csv.ChompLine` | scripts/upload-org-avatars.ts:322 | A printed line that loses a final carriage return is the line of the same fields, the last without its bare one. |
| `Manifest.LinesJoin` | scripts/upload-org-avatars.ts:322-350 | Splitting joined lines gives them back, each without one carriage return where a line feed follows, and a blank one for a final line end. |
| `Manifest.ParseCsv` | scripts/upload-org-avatars.ts:96-108 | The loops compute the rows of the specification: blank lines dropped, missing fields empty, a later duplicate column winning. |
| `Manifest.WriteManifest` | scripts/upload-org-avatars.ts:316-351 | The loops compute the printed text, with the column indices the code uses. |
| `Manifest.RowRoundTrip` | scripts/upload-org-avatars.ts:333-347 | One printed row reads back as the row with its two outcome columns set if and only if the outcome lands in them. |
| `Manifest.RowReadsBack` | scripts/upload-org-avatars.ts:336-350 | With line ends: if and only if the outcome lands and neither the last name nor, before a line end, the last cell ends in a bare carriage return. |
| `Manifest.KeepsFinalNewline` | scripts/upload-org-avatars.ts:323-350 | The printed text ends in a line feed exactly when the original does. |
| `Manifest.ManifestRoundTrip` | scripts/upload-org-avatars.ts:312-351 | For a table with a header line of distinct names, the printed manifest parses to the same rows, changed only in the two outcome columns and only where there is an outcome, for exactly the rows whose outcome lands and whose line ends keep their carriage returns. |
| `Manifest.ColumnsComeBack` | scripts/upload-org-avatars.ts:341-346 | For such a row: the outcome is in its two columns, without one they are as before or empty, and every other column is as it was. |
| `Manifest.OverwritesLastColumn` | scripts/upload-org-avatars.ts:333 | With a status column and no URL column the URL replaces the last original value and its own column stays empty. |
| `CodeText.EscapeIsSafe` | packages/adapters/src/feed.ts:883-888 | Escaped text has no raw angle bracket and no bare ampersand, and escaping it again changes nothing. |
| `CodeText.ReferenceIs` | packages/adapters/src/feed.ts:885 | What the escape leaves alone after an ampersand: a number sign or none, at least one ASCII letter or digit, a semicolon. |
| `CodeText.AmpUndone` | packages/adapters/src/feed.ts:1028 | The first decoding pass turns added ampersand references back and otherwise acts as on the original. |
| `CodeText.Commute` | packages/adapters/src/feed.ts:886-887 | Escaping an angle bracket commutes with replacing another reference. |
| `CodeText.DecodeOfEscape` | packages/adapters/src/feed.ts:1026-1036 | For every text, decoding the escaped text gives what decoding the text gives. |
| `CodeText.RoundTripIff` | packages/adapters/src/feed.ts:1026-1036 | Decoding undoes escaping if and only if none of the eight passes matches anywhere in the original text. |
| `CodeText.NamedReferences` | packages/adapters/src/feed.ts:1028-1033 | The six named references decode to their characters. |
| `CodeText.HexDecodes` | packages/adapters/src/feed.ts:1034 | Every hexadecimal reference decodes to the character of its digits. |
| `CodeText.DecimalDecodes` | packages/adapters/src/feed.ts:1035 | Every decimal reference but the named apostrophe decodes to the character of its digits. |
| `CodeText.PlainTextStays` | packages/adapters/src/feed.ts:1026-1036 | A text without an ampersand decodes to itself. |
| `CodeText.WrittenReferenceIsLost` | packages/adapters/src/feed.ts:1028-1029 | A concrete case: the text `&lt;` does not come back. |
| `CodeText.ReferenceFreeRoundTrip` | packages/adapters/src/feed.ts:884-885 | In particular for every text with no reference-shaped substring. |
| `Aliases.WantedIsInput` | apps/api/src/utils.ts:246 | The wanted domains are exactly the trimmed, non-empty input ones. |
| `Strings.TrimTrims` | apps/api/src/utils.ts:246 | Trimming takes white space off both ends, all of it, and nothing else. |
| `Strings.SpacesAre` | apps/api/src/utils.ts:246 | In ASCII white space is the space and the five control characters from tab to carriage return. |
| `Aliases.ConflictIffForeign` | apps/api/src/utils.ts:258-265 | A replacement fails exactly when a wanted domain has another owner; it names such a domain and changes nothing. |
| `Aliases.ReplaceUnique` | apps/api/src/utils.ts:267-283 | No replacement gives a domain two rows. |
| `Aliases.OthersUntouched` | apps/api/src/utils.ts:267-271 | Every other owner's rows are the same, in the same order. |
| `Aliases.OwnsExactlyWanted` | apps/api/src/utils.ts:252-283 | On success the owner has exactly the wanted domains, and keeps the rows of those it already had. |
| `Aliases.RunUnique` | packages/core/src/schema.ts:209-224 | Over any sequence of replacements each domain has at most one row. |
| `Aliases.ReplaceAgain` | apps/api/src/utils.ts:238-286 | A successful replacement repeated succeeds and changes nothing. |
| `Aliases.AliasTable.ReplaceAliases` | apps/api/src/utils.ts:238-286 | The statements on the table achieve all of that and keep the domain unique. |
| `FeedDepth.DominantBaseUnique` | packages/adapters/src/feed-depth.ts:94-102 | At most one page can hold three fifths of a batch. |
| `FeedDepth.EarlyExitIsSafe` | packages/adapters/src/feed-depth.ts:92 | Leaving on too few anchored links never misses a dominant page. |
| `FeedDepth.PermutationInvariant` | packages/adapters/src/feed-depth.ts:75-103 | The verdict does not depend on the order of the batch. |
| `FeedDepth.IsBatchAnchorFragment` | packages/adapters/src/feed-depth.ts:75-103 | The loops and frequency map answer true exactly when there are three links or more and some page has three fifths of them as fragments. |
| `FeedDepth.ThinCountIs` | packages/adapters/src/feed-depth.ts:29-34 | The thin items are those marked as summaries and those whose trimmed text is empty or shorter than asked for. |
| `FeedDepth.LinksAre` | packages/adapters/src/feed-depth.ts:121 | The links judged are the items' own, in order. |
| `FeedDepth.AssessFeedDepth` | packages/adapters/src/feed-depth.ts:113-126 | No verdict below three items; an anchored page takes precedence; otherwise three fifths of thin items decide. |
| `Sections.SplitAtHeadings` | scripts/backfill-changelog-tokens.ts:52-81 | The scanning loop's sections are non-empty, make up the content, and start exactly at 0 and at the H2 lines. |
| `Sections.SectionsDetermined` | scripts/backfill-changelog-tokens.ts:45-51 | Only one list of sections meets that description. |
| `Sections.TotalAdds` | scripts/backfill-changelog-tokens.ts:83-89 | The token total is a sum over the sections. |
| `Sections.ExactTokensBySection` | scripts/backfill-changelog-tokens.ts:52-90 | The total is the sum of the encoder's counts over the sections of the one such partition. |

## Left out

- FeedCursor.KeysetIsExact: does not claim exactness for the legacy one- and two-part cursor shapes, which break ties differently from the ORDER BY; they are modelled and only shown equal across the two text renderings.
- The old base64url feed token (`decodeReleaseCursor`) and the filters of the feed queries: they only choose the set of rows.
- JavaScript compares strings by UTF-16 unit and SQLite by UTF-8 byte; the two agree on the ISO stamps and ids of feed keys, and the model has one order.
- SourceActor.InFlightNamesLatest: excludes a crash between create and record, after which the recorded time is not the latest create; bucket distinctness (`SourceActor.RunValid`) is claimed there too.
- A create that the service accepted although its reply was lost is modelled only together with the loss of the whole run.
- SourceActor.LeaseHolds: does not cover a pause or a not-due alarm in between, where the code drops the lease.
- The per-source seed jitter is a parameter between 0 and five minutes; the hash that picks it is not modelled.
- The org drain notice at the start of an alarm, and the tier and backoff fields copied into the stored state for display.
- Session fields that no transition reads (progress counters, usage, results, warnings, logs), the order and the filters in which sessions are listed, and the broadcast to browsers.
- Stdout.ReadIsLastLines: assumes no cleanup of that session and no eviction of the object from memory, which would lose the buffer.
- Stdout.StoredWithinInterval: assumes punctual timers, as the clock of the model does not pass a live timer's deadline; a late timer adds its delay to the bound.
- Output lines carry their instant instead of the formatted time of day.
- Sequence numbers of 10^16 and more, where padded keys would no longer sort.
- Sockets that fail on send: a connection is open until its close step, and closing counts as the last thing sent.
- Query parameters arrive parsed: integer parsing of `since` and `limit` is not modelled.
- HTTP delivery, signing, rate-limit accounting, delivery analytics and the text of notices and pause reasons.
- DeliveryQueue.DeliverBatch: covers batches in which no dependency throws; an exception leaves the rest of the batch to the platform's redelivery.
- Subscription rows of a batch are the values each awaited call finds, so that other consumers can change them in between, and not one mutable table; what a delivery writes is its list of steps.
- WorkerPool.PoolIsMap: covers worker functions that do not throw; a rejection abandons the other workers in the source.
- The regular expressions that decide whether release content counts as empty; rows carry the answer. Model calls, polling and cost estimates.
- ContentRun.RunWrites: the writes themselves succeed; a failing write aborts the script.
- Years outside 0000 to 9999, and date texts that are not full dates.
- Formatting of UTC instants at second precision and of zone parts: the zone is an offset function and instants are numbers. Eastern offsets other than -4 and -5 hours before standard time are excluded by `EasternDays.SwitchesAtTwo`.
- Manifest.ManifestRoundTrip: requires a non-blank header line, distinct column names and no line feed in an outcome; a column named `__proto__` is an ordinary name here.
- Which avatars are uploaded, and the summary counters of that script.
- HTML parsing around code blocks, and entities other than the eight passes. A numeric reference decodes to an arbitrary single character chosen by its digits, so lone surrogates and overflow of `parseInt` need no model.
- Alias replacements that run concurrently: there the database's unique index rejects the second insert.
- The 100-parameter limit of D1 and ids generated for rows.
- Ratios in feed depth are exact; the source's floating-point quotients agree with them for batches below 2^50 items.
- URL parsing: a link is its base page and whether it has a fragment. The token encoder is a parameter.
- `relevance` scoring, media extraction, embeddings, route tables, authentication and rendering.
