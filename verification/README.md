# A verified model of the platform's event pipeline and its stateful components

This project models the backend of a multi-service platform in Dafny and proves what its components keep over whole
runs. `dafny verify dfyconfig.toml` checks everything.

The core is the event pipeline. Events are inserted into an outbox table and relayed to a sink with retries and
dead-lettering (`OutboxRelay`). An in-memory bus with a bounded outbox, an inbox per consumer and checkpoints
(`EventBus`) feeds projections that apply each event at most once and keep dead letters for replay (`Projection`). The
projections of two services fold the stream into read models over a record store (`Projectors`, `ReadModel`,
`RecordStore`, `Allocation`). Drift against the owner's tables is measured id by id (`Drift`), and a reconciler rebuilds on new drift
(`Reconcile`, `Rebuild`).

Around it stand the migration ledger (`Migrate`), the fixed-window rate limiter (`RateLimit`), worker leases and
lease-gated maintenance (`Leases`), the circuit breaker with retries (`Adapter`), labelled metrics (`Metrics`), route
matching, the route index and registration (`Paths`, `Routing`, `Choice`, `KeyedTable`, `RouteTable`, `RouteRegistry`),
the proxy-RBAC repository (`ProxyPolicies`, `ProxyPolicyRuns`, `ProxyRepository`) and the collapse of job lifecycles
(`Lifecycle`). `Contracts`, `Text` and `Decimal` hold shared values, string operations and decimal printing.

Code that updates fields or loops is modelled by classes and methods with loops; each is proved equal to a function on
values, and the properties over runs are proved of those functions.

Conventions: time is a parameter and never runs backwards; a mutex-guarded method, a single SQL statement and a handler
are atomic steps; failures of the sink, of SQL statements and of drift calls are parameters that range over every
possibility; one relayer works at a time. The schema is not part of this model: new outbox rows are pending with no
attempts, and event ids are unique.

## Findings

Where the code does not do what one would expect, the model follows the code; each finding names the results that state when it happens.

- A closed interval of one window holds at most 2*limit - 1 allowed requests, one less than two full quotas, because a
  counter is still live at the instant it expires (`RateLimit.SlidingBound`, `RateLimit.SlidingBoundIsTight`;
  backend/internal/platform/ratelimit.go:44-64).
- The direct adapter call sleeps once more than the proxied call, after the last failing attempt
  (`Adapter.ExternalAdapter.CallWithRetries`, `Adapter.ExternalAdapter.ProxyWithRetries`;
  backend/internal/platform/adapter.go:129-164, 193-218).
- The ID allocator does issue an id again: its numbers rise exactly as long as no allocation starts at the largest int64,
  where they wrap around to negative ones (`Allocation.RisesIff`). A record that carries the largest number makes every
  allocation repeat the same id until a record takes it (`Allocation.ReissuedAtOnceIff`,
  `RecordStore.LargestIdReissues`), and if only the retained mark was that high, numbering starts over at what is in use
  (`Allocation.StartsOver`; backend/internal/platform/store.go:50-87).
- The route index hides a matching route exactly for the patterns `Routing.Indexable` excludes: an unbraced catch-all in
  a segment that decides the bucket, any catch-all right after a leading `api`, or a parameter there unless the next
  segment is again `api` (`Routing.IndexAgreesIff`; backend/internal/platform/routing.go:53-65).
- A route that spells the path out can lose to one with the same segments and a catch-all behind them: both have the same
  specificity, so the one registered first is served (`Routing.AnsweringScore`, `RouteTable.LiteralRouteWins`). Segments
  behind a catch-all never match, yet they raise the specificity (`Routing.BehindCatchAll`;
  backend/internal/platform/routing.go:136-173, backend/internal/platform/app.go:270-298).
- Repeated parameter names in a pattern keep the last text only (`Routing.LastBindingWins`, `Routing.FillIff`;
  backend/internal/platform/routing.go:136-159).
- Two (consumer, event) pairs share a dead-letter key exactly when one consumer is the other followed by a colon and the
  start of the other's event id (`Projection.SharedKeyIff`). Dead letters follow the history in every run over a set of
  pairs iff no two of them do (`Projection.DeadLettersFollowIff`); otherwise one consumer's success deletes another's
  dead letter (`Projection.ClashLosesDeadLetter`). The platform's own consumers hold one colon each, so none of them
  clash, whatever the event ids (`Projection.PlatformRunKeepsInv`; backend/internal/platform/projection.go:139-173,
  backend/internal/services/clusterread/handler.go:21, backend/internal/services/dashboard/handler.go:21).
- A user can be kept out of a role by another role's member, exactly when both pairs compose to one id
  (`ProxyPolicyRuns.AddMemberIff`, `ProxyPolicyRuns.MemberIdCollision`;
  backend/internal/services/authorizationpolicy/authorization_policy_repository.go:652-675).
- An assignment can name a role that does not exist. Throughout a run role targets resolve exactly when no operation
  assigns a policy to a missing role (`ProxyPolicyRuns.TargetsResolveThroughoutIff`,
  `ProxyPolicyRuns.RoleTargetMayDangle`; backend/internal/services/authorizationpolicy/assignments.go:31-71).
- The reconciler's tick rebuilds once more for every tick whose second drift call failed, and that bound is reached; a
  tick whose first drift call failed never rebuilds (`Reconcile.RebuildsAtMostOnce`, `Reconcile.RebuildBoundIsReached`;
  backend/internal/platform/projection_reconcile.go:42-81). The drift functions of the two modelled families fail only
  without a store (backend/internal/services/clusterread/handler.go:700-702,
  backend/internal/services/dashboard/handler.go:294-296), so this is a property of the tick and not of those families.
- A further rebuild can change the read model again when two events share an id and the outbox was trimmed in between.
  For a given family it changes nothing, from every table, exactly when on every row what the retained stream does was
  already done by the first rebuild (`Rebuild.FurtherRebuildIdleIff`); never without trimming
  (`Rebuild.UntrimmedRebuildIsIdle`) or without repeated ids (`Rebuild.FurtherRebuildIsIdle`). In both families a
  repeated id can bring an older user update back over a newer one (`Rebuild.TrimmedRepeatUndoesUserUpdate`). Ids are
  generated unless a client chooses one, and neither the bus nor the ingest endpoint compares them with the events
  already published (backend/internal/platform/projection_reconcile.go:64-67, backend/internal/platform/events.go:34-43,
  176-193, backend/internal/platform/lease_events.go:31-48).

## Model

| member | source | states |
|---|---|---|
| `OutboxRelay.PoisonCannotBlock` | backend/internal/platform/events_postgres.go:161-232 | Without inserts, any run that holds 5*ceil(N/L) rounds without a lost status write, in any positions, over a table with N live rows and batch limit L >= 1 leaves every row published or dead-lettered, whatever the sink does |
| `OutboxRelay.AttemptsClearABatch` | backend/internal/platform/events_postgres.go:161-232 | Five or more rounds without a lost write remove the L oldest live rows from the live rows: the oldest-first order is what makes the bound hold |
| `OutboxRelay.OldestRowsExhausted` | backend/internal/platform/events_postgres.go:186-232 | A live row among the L oldest is attempted in every round, and each round without a lost write uses up an attempt, until the row is terminal |
| `OutboxRelay.BatchesIsCeiling` | backend/internal/platform/events_postgres.go:161-184 | The number of batches the drain argument counts is the rounded-up quotient N/L |
| `OutboxRelay.NoneLiveMeansAllTerminal` | backend/internal/platform/events_postgres.go:186-210 | No row is selectable exactly when every row is published or dead-lettered |
| `OutboxRelay.OlderFirst` | backend/internal/platform/events_postgres.go:186-210 | A live row left out of a batch was created later than every row in it, or at the same time with a greater id |
| `OutboxRelay.RunKeepsInv` | backend/internal/platform/events_postgres.go:161-355 | Over every run of inserts and rounds with failing sinks and lost status writes: unique ids in relay order, pending rows have 0 attempts, retry rows 1 to 4, dead letters exactly 5, and a published row was accepted at least once |
| `OutboxRelay.TerminalForever` | backend/internal/platform/events_postgres.go:161-355 | Published and dead-lettered rows never change again in any run, and no row ever disappears |
| `OutboxRelay.ExactlyOnceWithoutLostWrites` | backend/internal/platform/events_postgres.go:212-232 | If no status write is lost, the sink accepted a row exactly once when it is published and never otherwise |
| `OutboxRelay.InsertKeepsInv` | backend/internal/platform/events_postgres.go:302-329 | Inserting keeps the table invariant and all rows, and a repeated event id adds nothing |
| `OutboxRelay.InsertAddsPendingRow` | backend/internal/platform/events_postgres.go:302-329 | A new event adds one pending row without attempts; a known id adds nothing |
| `OutboxRelay.PostgresEventBus.InsertOutboxEvent` | backend/internal/platform/events_postgres.go:302-329 | Refuses incomplete metadata and unencodable payloads without effect; otherwise insert-or-ignore, which may fail before or after its effect |
| `OutboxRelay.PostgresEventBus.PendingRelayRows` | backend/internal/platform/events_postgres.go:186-210 | Returns the first min(limit, live) live rows, by creation time and then by id |
| `OutboxRelay.PostgresEventBus.RelayOutboxRow` | backend/internal/platform/events_postgres.go:212-232 | One attempt changes the one row with that id as its outcome says, and reports published, retried or dead-lettered exactly when the write was acknowledged |
| `OutboxRelay.PostgresEventBus.RelayBatch` | backend/internal/platform/events_postgres.go:161-184 | The loop performs exactly one round on the selected rows and accounts for each of them |
| `OutboxRelay.PostgresEventBus.RelayPending` | backend/internal/platform/events_postgres.go:161-184 | Selected = Published + Retried + DeadLetter + rows whose status write failed; the new table is one round; an error is reported iff some row failed |
| `OutboxRelay.CleanIff` | backend/internal/platform/events_postgres.go:161-184 | A round is free of errors iff every selected row was accepted and its status write acknowledged |
| `OutboxRelay.CountersAreSizes` | backend/internal/platform/events_postgres.go:161-184 | The counters are numbers of rows |
| `ReadModel.FoldRow` | backend/internal/services/clusterread/handler.go:594-622 | After any stream a row is decided by three facts of the stream alone: whether its last operation is a delete, whether it was deleted at all, and the last value of each field |
| `ReadModel.WrittenIsLastValue` | backend/internal/services/clusterread/handler.go:594-613 | The merged fields of a row are, field by field, the last values written since its last delete |
| `ReadModel.ReplaySuffixIdempotent` | backend/internal/services/clusterread/handler.go:594-622 | Replaying any suffix of a stream on the table the stream produced changes nothing |
| `ReadModel.ReplayHeals` | backend/internal/services/clusterread/handler.go:594-622 | From any corrupted table a replay removes every row whose last operation is a delete, restores every written field of every other touched row, and leaves untouched rows alone |
| `ReadModel.ReplayConvergesIff` | backend/internal/services/clusterread/handler.go:594-622 | Two tables become equal under a replay exactly when they agree on what the stream never overwrites |
| `ReadModel.StreamIdleIff` | backend/internal/services/clusterread/handler.go:594-622 | Replaying one stream on what another left changes nothing, from any table, exactly when on every row its last delete, its deletes and its written fields are already those of the other |
| `ReadModel.StreamReplayIdempotent` | backend/internal/services/clusterread/handler.go:521-652 | The same idempotence for streams of events under any event-to-row projection |
| `Projectors.ReconcilerEventsSkip` | backend/internal/services/clusterread/handler.go:521-592 | The events the reconciler publishes touch no read model of either family |
| `Projectors.UnprojectedName` | backend/internal/services/dashboard/handler.go:391-433 | No name of 23 letters, and none of 17 letters that starts with P, is projected by either family after lower-casing; the reconciler's two names are such |
| `Projectors.EntityEvents` | backend/internal/services/clusterread/handler.go:533-592 | For every entity of either family the event's name decides: created and updated store the row, deleted removes it, in the entity's resource |
| `Projectors.PolicyActions` | backend/internal/services/clusterread/handler.go:533-592 | Role changes of the proxy policies follow their action |
| `Projectors.GroupActions` | backend/internal/services/clusterread/handler.go:533-592 | A group change is a deletion iff it carries no new state and says so |
| `Projectors.NewStateIsProjected` | backend/internal/services/clusterread/handler.go:533-592 | An event that carries a new state is projected by that state's fields |
| `Projectors.DeletionRemoves` | backend/internal/services/clusterread/handler.go:615-622 | A deletion removes the row with the event's id, unless there is none or the event says it is not deleted |
| `Projectors.UpsertReadModel` | backend/internal/services/clusterread/handler.go:594-613 | The get-then-update-or-create sequence on the record store is one merge-upsert of the row with that id, or nothing without an id |
| `Projectors.DeleteReadModel` | backend/internal/services/dashboard/handler.go:463-470 | Deleting through the record store removes exactly the row with that id |
| `Projectors.ProjectEvent` | backend/internal/services/clusterread/handler.go:521-531 | Projecting an event applies exactly its row operation to the store |
| `Drift.BuildIndex` | backend/internal/services/clusterread/handler.go:698-768 | The loop builds the specified index |
| `Drift.IndexHoldsLastRow` | backend/internal/services/clusterread/handler.go:748-768 | An id is indexed iff it is not empty and some row has it, and its entry is the last such row under that id |
| `Drift.AddMissingAndStale` | backend/internal/services/clusterread/handler.go:698-768 | Lists, each once, exactly the ids only the owner has and the ids whose rows differ |
| `Drift.AddOrphans` | backend/internal/services/clusterread/handler.go:698-768 | Lists, each once, exactly the ids only the local table has |
| `Drift.PairDrift` | backend/internal/services/dashboard/handler.go:292-362 | Missing + Orphan + Stale is the number of ids on which the indexed tables differ |
| `Drift.FamilyDrift` | backend/internal/services/clusterread/handler.go:698-711 | Over all resource pairs of a family the missing, orphaned and stale findings are exactly those of the pairs, and their number is the sum of the differing ids |
| `Drift.NoFamilyDriftIff` | backend/internal/services/clusterread/handler.go:698-711 | A family has no drift iff every pair of indexed tables is equal |
| `Drift.ThreeParts` | backend/internal/services/clusterread/handler.go:698-768 | The differing ids split into three disjoint kinds |
| `Drift.NoDriftIff` | backend/internal/services/clusterread/handler.go:698-768 | The drift is zero iff the indexed tables are equal |
| `Drift.RowIdOfStored` | backend/internal/services/clusterread/handler.go:624-652 | A stored row is indexed under the id it carries, whatever its resource |
| `Drift.MemberRowId` | backend/internal/services/clusterread/handler.go:624-652 | A project member without an id is the project's id, a colon and the user's, in both families |
| `Drift.MembershipRowIds` | backend/internal/services/clusterread/handler.go:624-652 | Group memberships and role assignments without an id compose theirs from user and group, and role and user |
| `Drift.ReadModelIndexesByKey` | backend/internal/services/clusterread/handler.go:624-652 | In a read model built from any stream every row is indexed for drift under its own key |
| `Decimal.ScanFormat` | backend/internal/platform/store.go:57-87 | Zero-padded decimal printing and scanning round-trip for every int64 and width |
| `Decimal.FormatInjective` | backend/internal/platform/store.go:57-87 | Different numbers print differently, whatever the widths |
| `Decimal.PaddedToWidth` | backend/internal/platform/store.go:57-87 | Padding puts zeros behind the sign up to the width and never cuts |
| `Decimal.FormatExamples` | backend/internal/platform/store.go:57-87 | Decimal digits, most significant first |
| `Allocation.FirstPassBelowMax` | backend/internal/platform/store.go:57-87 | Below the largest int the number after the high-water mark is free, so the search loop exits on its first pass |
| `Allocation.FirstNumberIsBase` | backend/internal/platform/store.go:50-87 | The base is the first number of a fresh resource and prefix |
| `Allocation.IssuedAboveMarkIff` | backend/internal/platform/store.go:57-87 | An issued number is above the mark exactly when the mark is below the largest int |
| `Allocation.RisesIff` | backend/internal/platform/store.go:57-87 | Once a resource and prefix has issued an ordinary number, its numbers rise over the rest of any run exactly as long as no allocation starts at the largest int |
| `RecordStore.NeverReissued` | backend/internal/platform/store.go:57-87 | Over any interleaving with record changes, allocations that stay below the largest int issue strictly rising numbers and never the same id twice |
| `Allocation.ReissuedAtOnceIff` | backend/internal/platform/store.go:57-87 | The same allocation repeated issues the same number again exactly when the largest number is in use |
| `RecordStore.LargestIdReissues` | backend/internal/platform/store.go:57-87 | One record whose id carries the largest number, with any padding, makes allocations repeat a negative number |
| `Allocation.StartsOver` | backend/internal/platform/store.go:57-87 | When only the retained mark is at the largest int, numbering starts over after what is in use |
| `Allocation.PassesFit` | backend/internal/platform/store.go:57-87 | Failing passes try different numbers, so there are at most as many as ids in use and the loop ends even after the wrap |
| `RecordStore.Store.ScanMark` | backend/internal/platform/store.go:57-87 | The scan finds the largest number among ids with the prefix and the floor |
| `RecordStore.Store.Search` | backend/internal/platform/store.go:57-87 | The loop returns the first free number after the mark and its id, which is not in use |
| `RecordStore.Store.NextID` | backend/internal/platform/store.go:57-87 | Terminates, returns an id not in the resource, and records exactly the first free number after the high-water mark, also where that wraps around, for that resource and prefix only |
| `RecordStore.Store.Create` | backend/internal/platform/store.go:89-113 | Creates under the given or generated id unless taken; on a conflict nothing changes |
| `RecordStore.Store.Update` | backend/internal/platform/store.go:136-156 | A shallow merge into an existing record, nothing otherwise |
| `RecordStore.Store.Delete` | backend/internal/platform/store.go:158-166 | Removes exactly that record |
| `EventBus.RunRefines` | backend/internal/platform/events.go:34-193 | The trimmed outbox and checkpoints refine an unbounded history in every run |
| `EventBus.LagIsTrueBacklog` | backend/internal/platform/events.go:160-193 | Lag is min(events published since the last checkpoint, events retained), checkpoints stay within the outbox, and the outbox holds the last OUTBOX_LIMIT events |
| `EventBus.PublishRefines` | backend/internal/platform/events.go:34-43 | One publish with trimming keeps the refinement |
| `EventBus.SeenIff` | backend/internal/platform/events.go:45-74 | Over every run a consumer has seen exactly the events it consumed and was not made to forget since, whatever other consumers do |
| `EventBus.InMemoryBus.TrimOutbox` | backend/internal/platform/events.go:176-193 | The trim loop shifts every checkpoint by the dropped events; the clamp to the outbox length is never needed |
| `EventBus.InMemoryBus.Publish` | backend/internal/platform/events.go:34-43 | Refuses incomplete metadata without effect, otherwise appends and trims |
| `EventBus.InMemoryBus.Consume` | backend/internal/platform/events.go:45-59 | True exactly for the first call per consumer and event since the last reset |
| `EventBus.InMemoryBus.ResetConsumer` | backend/internal/platform/events.go:61-66 | Forgets the consumer's inbox and checkpoint and no other |
| `EventBus.InMemoryBus.ResetConsumerEvents` | backend/internal/platform/events.go:68-74 | Forgets exactly the listed events of that consumer |
| `EventBus.InMemoryBus.Checkpoint` | backend/internal/platform/events.go:160-164 | Moves the consumer's checkpoint to the end of the outbox |
| `Projection.RunKeepsInv` | backend/internal/platform/projection.go:109-241 | In every run of publishes, deliveries, replays and resets over pairs that share no key: a dead letter exists for (consumer, event) iff the latest apply failed, its attempt count is the failures since the last success, and the counters are those of the history |
| `Projection.PlatformRunKeepsInv` | backend/internal/platform/projection.go:109-241 | The same in every run of consumers named by a service, one colon and a name, as all of the platform's are, with any event ids |
| `Projection.TrailingMeansLatestFailed` | backend/internal/platform/projection.go:139-180 | The failures since the last success are positive iff the latest apply failed |
| `Projection.ConsumesAreAccounted` | backend/internal/platform/projection.go:109-137 | Applied + DeadLettered is the number of successful consume calls |
| `Projection.DeliverAllKeepsInv` | backend/internal/platform/projection.go:109-137 | A whole run over a stream keeps the invariant, even when consume calls fail |
| `Projection.DuplicatesHaveNoEffect` | backend/internal/platform/projection.go:109-137 | A stream with duplicate ids gives the same table, inbox, dead letters and counters as its de-duplication |
| `Projection.SecondRunIsIdle` | backend/internal/platform/projection.go:109-137 | An immediate second run applies nothing and changes nothing, whatever its handler |
| `Projection.RetriedOnlyAfterRelease` | backend/internal/platform/projection.go:109-137 | At most once: between two attempts of one event by one consumer, in any run, that very consumer was reset or replayed |
| `Projection.RunCatchesUpIff` | backend/internal/platform/projection.go:109-137 | A run whose consume calls all succeed leaves no lag and no pending replay; otherwise checkpoint and pending replay stay |
| `Projection.ReplayIsCounted` | backend/internal/platform/projection.go:224-241 | A replay is counted and pending exactly when the consumer has dead letters; no other consumer is affected |
| `Projection.ReplayRetriesExactly` | backend/internal/platform/projection.go:224-241 | Replay followed by a run attempts, once each, exactly the retained events that are dead-lettered or were never consumed |
| `Projection.SharedKeyIff` | backend/internal/platform/projection.go:139-173 | Two pairs share a dead-letter key exactly when they are equal, or one consumer is the other followed by a colon and the start of the other's event id |
| `Projection.EqualColonsNeverClash` | backend/internal/platform/projection.go:139-173 | Consumers with the same number of colons never share a key, whatever the event ids |
| `Projection.ColonFreeIdsNeverClash` | backend/internal/platform/projection.go:139-173 | Event ids without colons never share a key, whatever the consumers |
| `Projection.DeadLettersFollowIff` | backend/internal/platform/projection.go:109-180 | Dead letters follow the history in every run over a set of (consumer, event) pairs iff no two of them share a key |
| `Projection.ClashLosesDeadLetter` | backend/internal/platform/projection.go:109-180 | For any two pairs that share a key: after one is rejected and the other applied, the rejected event has no dead letter and a replay does not release it |
| `Projection.App.RunProjection` | backend/internal/platform/projection.go:109-137 | The loop over the outbox computes exactly the specified run |
| `Projection.App.DeliverOne` | backend/internal/platform/projection.go:109-137 | Consume, apply, then record the outcome; a failed consume call changes nothing |
| `Projection.App.DeadLetterEvent` | backend/internal/platform/projection.go:139-173 | Creates the dead letter or raises its attempt count, and tells whether it existed |
| `Projection.App.RecordDeadLetter` | backend/internal/platform/projection.go:69-77 | Counts a rejection, and a retry if a dead letter existed |
| `Projection.App.RecordApplied` | backend/internal/platform/projection.go:58-67 | Counts an application and resolves the dead letter |
| `Projection.App.DeadLetterIds` | backend/internal/platform/projection.go:224-241 | The scan of the dead-letter resource lists exactly the consumer's events |
| `Projection.App.ReplayProjection` | backend/internal/platform/projection.go:224-241 | Releases exactly the consumer's dead-lettered events and keeps the dead letters |
| `Reconcile.TickCalms` | backend/internal/platform/projection_reconcile.go:42-81 | After an error-free tick the residual is the last measured drift, and the next ticks have nothing to rebuild |
| `Reconcile.TickRebuildsIff` | backend/internal/platform/projection_reconcile.go:42-81 | A tick rebuilds exactly when it measures drift that is neither zero nor the residual |
| `Reconcile.TickPublishes` | backend/internal/platform/projection_reconcile.go:42-81 | A rebuilding tick publishes the drift and, once it has measured what is left, the rebuild; any other tick publishes nothing |
| `Reconcile.CalmForever` | backend/internal/platform/projection_reconcile.go:42-81 | From such a state no later tick rebuilds, whatever drift calls fail |
| `Reconcile.RebuildsAtMostOnce` | backend/internal/platform/projection_reconcile.go:42-81 | With a fixed stream and fixed owner rows, any run of ticks rebuilds at most once plus once per tick whose second drift call failed |
| `Reconcile.RebuildBoundIsReached` | backend/internal/platform/projection_reconcile.go:42-81 | For every number of failed second drift calls there are runs that rebuild that often plus once |
| `Rebuild.RebuildFolds` | backend/internal/platform/projection_reconcile.go:42-81 | A rebuild folds the retained stream, each event id at its first occurrence, into the table |
| `Rebuild.RebuildConverges` | backend/internal/platform/projection_reconcile.go:42-81 | Rebuilding again from the same stream changes nothing, whatever ids it repeats |
| `Rebuild.RebuildReachesOwnerIff` | backend/internal/platform/projection_reconcile.go:42-81 | If the owner's table is what the retained stream builds from nothing, a rebuild reaches it exactly when the old table held nothing the stream leaves alone |
| `Rebuild.ReplayIdleIff` | backend/internal/platform/projection_reconcile.go:42-81 | The best condition on events alone: replaying one stream of distinct events on what another left changes nothing for all projections and tables exactly when it is a suffix of the other |
| `Rebuild.FurtherRebuildIdleIff` | backend/internal/platform/projection_reconcile.go:42-81 | For a given family a further rebuild, after the reconciler published its own events, changes no table and so no drift exactly when on every row what the retained stream does was already done by the first rebuild |
| `Rebuild.SuffixIsIdle` | backend/internal/platform/projection_reconcile.go:42-81 | That holds for every family when what the further rebuild applies is a suffix of what the first one applied |
| `Rebuild.UntrimmedRebuildIsIdle` | backend/internal/platform/projection_reconcile.go:42-81 | It changes nothing as long as nothing is trimmed, however often event ids repeat |
| `Rebuild.FurtherRebuildIsIdle` | backend/internal/platform/projection_reconcile.go:42-81 | It changes nothing when no event id repeats, even from a stream trimmed in between |
| `Rebuild.TrimmedRepeatUndoesLaterWrite` | backend/internal/platform/events.go:176-193 | For any family and a full outbox x, y, z whose first two are trimmed between rebuilds: if z has the id of x and y and z write a field of one row, the further rebuild writes z's value over y's |
| `Rebuild.TrimmedRepeatUndoesUserUpdate` | backend/internal/services/clusterread/handler.go:533-613 | In both families such a repeat brings an older user update back over a newer one |
| `Reconcile.FamiliesIgnoreReconciler` | backend/internal/platform/projection_reconcile.go:42-81 | Both read-model families ignore the reconciler's own events |
| `Reconcile.ReconcileTask.RunTick` | backend/internal/platform/projection_reconcile.go:42-81 | The tick with its residual state computes exactly the specified step, on the application and bus objects |
| `Migrate.AttemptsKeepInv` | backend/internal/platform/migrate.go:89-146 | Over any reruns with a crash or error after any statement: each script commits at most once, a clean row means it committed exactly once, and at most one row is dirty |
| `Migrate.UnfinishedBlocksForever` | backend/internal/platform/migrate.go:385-469 | A committed but unfinished script has a dirty row, and every later run stops at it without effect |
| `Migrate.RerunAppliesNothing` | backend/internal/platform/migrate.go:89-146 | After a successful run a rerun of the same units skips them all and changes nothing |
| `Migrate.FaultFreeRunIff` | backend/internal/platform/migrate.go:89-146 | A run without faults succeeds exactly when no row is dirty and every unit is new or recorded with its checksum; it applies exactly the new units, each committed once and recorded clean, and leaves all else alone |
| `Migrate.RunUnitsRecordAll` | backend/internal/platform/migrate.go:89-146 | A successful run has recorded every unit and counts each once as applied or skipped |
| `Migrate.RunUnitsKeepInv` | backend/internal/platform/migrate.go:402-469 | A run keeps the ledger invariant and every clean row |
| `Migrate.MigrationRunner.ApplyMigrationUnit` | backend/internal/platform/migrate.go:402-469 | The statements of one unit, each of which may fail before or after its effect |
| `Migrate.MigrationRunner.ApplyMigrations` | backend/internal/platform/migrate.go:89-146 | The loop with its counters computes exactly the specified run |
| `RateLimit.SlidingBound` | backend/internal/platform/ratelimit.go:44-64 | For a key with one limit and window W, any closed interval of length W holds at most 2*limit - 1 allowed requests |
| `RateLimit.SlidingBoundIsTight` | backend/internal/platform/ratelimit.go:44-64 | For every positive limit and window some trace reaches 2*limit - 1 |
| `RateLimit.DeletionIsInvisible` | backend/internal/platform/ratelimit.go:58-64 | Deleting expired counters never changes a decision compared with a limiter that never deletes |
| `RateLimit.KeysAreIndependent` | backend/internal/platform/ratelimit.go:44-56 | A decision depends on earlier requests for the same key only |
| `RateLimit.DecisionCountsWindow` | backend/internal/platform/ratelimit.go:44-56 | For every trace: allowed iff the window of the request, itself included, holds at most `limit` requests of its key |
| `RateLimit.RateLimiter.DeleteExpired` | backend/internal/platform/ratelimit.go:58-64 | The loop removes exactly the expired counters |
| `RateLimit.RateLimiter.AllowWithin` | backend/internal/platform/ratelimit.go:44-56 | Counts the request and answers as the specified step does |
| `RateLimit.RateLimiter.Allow` | backend/internal/platform/ratelimit.go:40-42 | The same with the limiter's own limit and window |
| `Leases.AtMostOneHolder` | backend/internal/platform/worker.go:23-43 | At any time at most one worker can believe it holds an unexpired lease of a shard |
| `Leases.ClaimIsRecorded` | backend/internal/platform/worker.go:23-43 | A worker that believes so is the one the table names |
| `Leases.GrantedIff` | backend/internal/platform/worker.go:23-33 | An acquire succeeds exactly when no other worker holds the shard: a free, expired or own lease is granted |
| `Leases.TakeoverWaitsForTtl` | backend/internal/platform/worker.go:23-43 | Successive grants to different workers without a release are at least the first one's ttl apart |
| `Leases.DifferentWorkersKeepDistance` | backend/internal/platform/worker.go:23-43 | If a shard is only acquired with at least a given ttl, any two grants to different workers are that far apart |
| `Leases.WorkerLeases.TryAcquire` | backend/internal/platform/worker.go:23-33 | Grants iff the shard is free, expired or the caller's own, as the trace says |
| `Leases.WorkerLeases.Drop` | backend/internal/platform/worker.go:35-43 | Releases only the caller's own lease |
| `Leases.RunMaintenance` | backend/internal/platform/maintenance.go:101-113 | A task is started exactly when its lease was granted |
| `Adapter.BlockedIff` | backend/internal/platform/adapter.go:247-265 | Blocked at t iff the outcomes end in at least `threshold` failures and the last one is less than the open interval before t |
| `Adapter.BreakerTracksHistory` | backend/internal/platform/adapter.go:397-413 | The three breaker fields are functions of the recorded outcomes |
| `Adapter.BackoffTotal` | backend/internal/platform/adapter.go:193-218 | Doubling sleeps add up to base*(2^n - 1) |
| `Adapter.ExternalAdapter.constructor` | backend/internal/platform/adapter.go:106-127 | Retries and threshold are raised to one, a non-positive interval becomes thirty seconds |
| `Adapter.ExternalAdapter.Preflight` | backend/internal/platform/adapter.go:247-265 | Blocks an unconfigured adapter and, by history, an open circuit |
| `Adapter.ExternalAdapter.RecordSuccess` | backend/internal/platform/adapter.go:397-403 | Appends a success to the history the fields stand for |
| `Adapter.ExternalAdapter.RecordFailure` | backend/internal/platform/adapter.go:405-413 | Appends a failure to the history the fields stand for |
| `Adapter.ExternalAdapter.ProxyWithRetries` | backend/internal/platform/adapter.go:193-218 | Stops at the first good reply, the last attempt or a cancelled sleep; n attempts sleep base*(2^(n-1) - 1) in total |
| `Adapter.ExternalAdapter.Proxy` | backend/internal/platform/adapter.go:166-185 | Records exactly one outcome iff it gets past preflight and URL building; retries up to the limit, only if idempotent, until a response below 500 or a cancelled sleep |
| `Adapter.ExternalAdapter.CallWithRetries` | backend/internal/platform/adapter.go:129-164 | The direct call also sleeps after its last failing attempt: base*(2^n - 1) |
| `Adapter.ExternalAdapter.Invoke` | backend/internal/platform/adapter.go:129-164 | Records exactly one outcome iff it gets past preflight; the same retries |
| `Metrics.EscapeIsOnePass` | backend/internal/platform/metrics.go:238-243 | The three successive replacements equal a one-pass character escape |
| `Metrics.RenderRoundTrip` | backend/internal/platform/metrics.go:220-232 | Rendered labels with valid names can be read back exactly |
| `Metrics.SortedKeysUnique` | backend/internal/platform/metrics.go:220-232 | The sorted name list is unique, so the text depends on the label map only |
| `Metrics.LabelTextInjective` | backend/internal/platform/metrics.go:220-232 | Distinct label maps with valid names render to distinct text |
| `Metrics.SeparatorLeavesOdd` | backend/internal/platform/metrics.go:220-243 | After a separator in rendered labels the unescaped quotes are odd, while rendered labels as a whole have an even number |
| `Metrics.KeyInjective` | backend/internal/platform/metrics.go:102-135 | Two series never share a key, whatever their metric names: a separator in a label value leaves an odd number of quotes behind it |
| `Metrics.SeriesAreIndependent` | backend/internal/platform/metrics.go:102-135 | Over every run of calls each series holds what its own calls alone make of it |
| `Metrics.AcceptedIff` | backend/internal/platform/metrics.go:102-110 | A call has an effect if and only if its name holds more than spaces and its label names are valid |
| `Metrics.SetTakesEffect` | backend/internal/platform/metrics.go:122-135 | An accepted set stores exactly what was set, whatever was there |
| `Metrics.IncrementsAddUp` | backend/internal/platform/metrics.go:102-120 | n accepted increments in a row add n to what was there, or make a new counter of n, up to the largest 64-bit value |
| `Metrics.PrometheusLabels` | backend/internal/platform/metrics.go:220-232 | Refuses exactly the maps with an invalid name, otherwise returns the rendered text |
| `Metrics.Metrics.IncLabeledCounter` | backend/internal/platform/metrics.go:102-120 | Counts in one series, keeps its kind, and leaves every other label map of the metric alone |
| `Metrics.Metrics.SetLabeledMetric` | backend/internal/platform/metrics.go:122-135 | Sets one series and leaves every other label map of the metric alone |
| `Paths.PartsShape` | backend/internal/platform/routing.go:67-73 | Splitting loses only the outer slashes, and what it can return |
| `Paths.TrimTakesSlashes` | backend/internal/platform/routing.go:67-73 | Trimming takes slashes off both ends and nothing else |
| `Paths.PartsJoin` | backend/internal/platform/routing.go:136-139 | Proper segments survive joining and splitting |
| `Routing.ExtractPathParams` | backend/internal/platform/routing.go:136-159 | Matches iff the pattern covers the path up to its first catch-all; the slice there is always in range; the parameters are those of the match |
| `Routing.ParamNameIs` | backend/internal/platform/routing.go:136-159 | A parameter is named by what its braces hold, a catch-all by what stands before the dots |
| `Routing.LastBindingWins` | backend/internal/platform/routing.go:136-159 | Of several segments with one name the last one's text is kept |
| `Routing.FillIff` | backend/internal/platform/routing.go:136-159 | Putting the parameters back gives the path's segments exactly when repeated names agree |
| `Routing.FillRoundTrip` | backend/internal/platform/routing.go:136-159 | Then the filled pattern is the trimmed path, with a slash added only for an empty catch-all |
| `Routing.CanonicalPattern` | backend/internal/platform/routing.go:122-134 | The loop renames every parameter and every catch-all and nothing else |
| `Routing.CanonicalIff` | backend/internal/platform/routing.go:122-134 | The canonical form forgets exactly the names of parameters and braced catch-alls |
| `Routing.RouteSpecificity` | backend/internal/platform/routing.go:161-173 | The loop adds two for a literal, one for a parameter, nothing for a catch-all |
| `Routing.LiteralOverParameter` | backend/internal/platform/routing.go:161-173 | A literal segment is more specific than a parameter in its place, and a parameter than a catch-all |
| `Routing.AnsweringScore` | backend/internal/platform/routing.go:136-173 | An answering pattern scores at most two for each segment of the path, and that only if it spells the path out |
| `Routing.BehindCatchAll` | backend/internal/platform/routing.go:136-173 | Segments behind a catch-all do not matter for matching, yet count for the score |
| `Routing.EqualCanonical` | backend/internal/platform/routing.go:122-173 | Patterns with equal canonical form match the same paths with the same specificity and bucket |
| `Routing.IndexAgreesIff` | backend/internal/platform/routing.go:53-65 | The index offers a pattern for every path it matches exactly when a condition on its first three segments holds |
| `Routing.NotIndexable` | backend/internal/platform/routing.go:53-65 | Every other pattern has a matching path for which the index hides it |
| `Routing.OrdinaryIsIndexable` | backend/internal/platform/routing.go:53-65 | Whole-segment parameters and no parameter right after a leading api are enough |
| `RouteTable.RebuildFiles` | backend/internal/platform/routing.go:39-47 | A rebuilt index entry holds exactly the routes with its key, in table order |
| `RouteTable.DispatchAmongShown` | backend/internal/platform/app.go:270-298 | For every table: dispatch finds the best of the routes the index shows, ties going to the path's bucket and then to the earlier route, and nothing iff none is shown |
| `RouteTable.DispatchIsFullScan` | backend/internal/platform/app.go:270-298 | With indexable patterns dispatch finds a route iff some registered route answers, and then one of maximal specificity with the same tie-break |
| `RouteTable.LiteralRouteWins` | backend/internal/platform/app.go:270-298 | If a registered route spells the path out, the dispatched one does too, at most with an empty catch-all behind it: no route with a parameter wins over it |
| `RouteTable.NothingHiddenIff` | backend/internal/platform/routing.go:12-65 | A table hides no answering route from any request iff all its patterns are indexable |
| `KeyedTable.OffersHold` | backend/internal/platform/app.go:342-385 | Over any sequence of offers: one entry per key in order of first offer, held by the first offer or the latest override |
| `KeyedTable.KeysAreExact` | backend/internal/platform/app.go:342-385 | Entries have pairwise distinct keys and the key set is exactly theirs |
| `RouteRegistry.RegistrationsHold` | backend/internal/platform/app.go:342-385 | Over any sequence of registrations: distinct method plus canonical pattern, the recorded patterns are exactly those, each route the first offer or the latest override with a reason |
| `RouteRegistry.RegisterKeyInjective` | backend/internal/platform/app.go:342-375 | For methods without spaces a key stands for one method and one pattern up to parameter names |
| `RouteRegistry.OverridesIff` | backend/internal/platform/app.go:342-375 | A route replaces another only on purpose and with a reason that is not blank |
| `RouteRegistry.NoShadowedTwins` | backend/internal/platform/app.go:342-385 | No two registered routes of one method are the same pattern up to parameter names |
| `RouteRegistry.BestMatch` | backend/internal/platform/app.go:270-298 | The best-match loop keeps the first route of greatest specificity and the parameters of its match |
| `RouteRegistry.App.RebuildRouteIndex` | backend/internal/platform/routing.go:39-47 | The loop builds a fresh index of the routes |
| `RouteRegistry.App.ReplaceRegisteredRoute` | backend/internal/platform/app.go:377-385 | Replaces the first route with the key |
| `RouteRegistry.App.RegisterService` | backend/internal/platform/app.go:342-375 | Extends the catalogue always and the table only for an allowed service; the index always equals a fresh rebuild |
| `RouteRegistry.App.RouteCandidates` | backend/internal/platform/routing.go:12-22 | Own bucket, then wildcard bucket; a rebuild asked for by the fingerprint never changes the answer |
| `RouteRegistry.App.ServeServiceRoute` | backend/internal/platform/app.go:270-298 | Serves the dispatched route with its own parameters |
| `ProxyPolicies.RunKeepsInv` | backend/internal/services/authorizationpolicy/authorization_policy_repository.go:82-701 | In every run, with or without rollback on a conflict: rules and assignments name existing policies, memberships name existing roles, (policy, target type, target) and (role, user) are unique |
| `ProxyPolicies.StepKeepsInv` | backend/internal/services/authorizationpolicy/authorization_policy_repository.go:192-316 | Every single operation keeps that |
| `ProxyPolicyRuns.AddRulesIff` | backend/internal/services/authorizationpolicy/authorization_policy_repository.go:192-219 | Creating a policy's rules succeeds exactly when their ids are new and different |
| `ProxyPolicyRuns.CreatedPolicyStartsClean` | backend/internal/services/authorizationpolicy/authorization_policy_repository.go:192-219 | A created policy has exactly its rules and no assignment, whatever its id was used for before |
| `ProxyPolicyRuns.FailedCreation` | backend/internal/services/authorizationpolicy/authorization_policy_repository.go:192-219 | A creation that meets a taken id changes nothing in a transaction, and no other policy's rules without one |
| `ProxyPolicyRuns.ReplacementIsExact` | backend/internal/services/authorizationpolicy/authorization_policy_repository.go:223-260 | Replacing one policy's rules gives exactly the new ones and leaves every other policy's rules unchanged |
| `ProxyPolicyRuns.FailedReplacement` | backend/internal/services/authorizationpolicy/authorization_policy_repository.go:223-260 | A failed replacement changes nothing in a transaction, and no other policy's rules without one |
| `ProxyPolicyRuns.PlainUpdateIsExact` | backend/internal/services/authorizationpolicy/authorization_policy_repository.go:223-260 | Without a replacement an update merges into the policy's row and leaves everything else alone |
| `ProxyPolicyRuns.DeletePolicyIsExact` | backend/internal/services/authorizationpolicy/authorization_policy_repository.go:265-288 | Deleting a policy removes its row, its rules and its assignments, and nothing else |
| `ProxyPolicyRuns.DeleteRoleIsExact` | backend/internal/services/authorizationpolicy/authorization_policy_repository.go:292-316 | Deleting a role removes its row, its memberships and the assignments that target it, and nothing else |
| `ProxyPolicyRuns.RemovalsAreExact` | backend/internal/services/authorizationpolicy/authorization_policy_repository.go:452-464 | Unassigning a policy or a user removes exactly that pair |
| `ProxyPolicyRuns.AssignIsExact` | backend/internal/services/authorizationpolicy/authorization_policy_repository.go:414-438 | An assignment is there afterwards exactly if it was, or its policy exists and its id is free; nothing else changes |
| `ProxyPolicyRuns.AddMemberTouchesOneRow` | backend/internal/services/authorizationpolicy/authorization_policy_repository.go:652-675 | Adding a member adds at most that member and changes nothing else |
| `ProxyPolicyRuns.RoleWritesAreExact` | backend/internal/services/authorizationpolicy/authorization_policy_repository.go:557-588 | Creating a role keeps an existing row; updating merges into an existing row only |
| `ProxyPolicyRuns.UnnamedPolicyIsUntouched` | backend/internal/services/authorizationpolicy/authorization_policy_repository.go:82-316 | Over any run a policy and its rules change only through operations that name it |
| `ProxyPolicyRuns.PolicyNeverReseeded` | backend/internal/services/authorizationpolicy/authorization_policy_repository.go:82-112 | Once seeded, a deleted policy stays deleted until someone creates it by name |
| `ProxyPolicyRuns.PolicyDeletedForGood` | backend/internal/services/authorizationpolicy/authorization_policy_repository.go:265-288 | On a seeded store a deleted policy is gone and stays gone through any run that does not create it |
| `ProxyPolicyRuns.RoleNeverReseeded` | backend/internal/services/authorizationpolicy/authorization_policy_repository.go:482-504 | The same for roles |
| `ProxyPolicyRuns.RoleDeletedForGood` | backend/internal/services/authorizationpolicy/authorization_policy_repository.go:292-316 | The same for roles |
| `ProxyPolicyRuns.AssignmentNeverReseeded` | backend/internal/services/authorizationpolicy/authorization_policy_repository.go:337-369 | The same for assignments |
| `ProxyPolicyRuns.UnassignedForGood` | backend/internal/services/authorizationpolicy/authorization_policy_repository.go:452-464 | The same for assignments |
| `ProxyPolicyRuns.SeedingMarks` | backend/internal/services/authorizationpolicy/authorization_policy_repository.go:808-833 | Every seeding leaves its marker |
| `ProxyPolicyRuns.FirstSeedingIsComplete` | backend/internal/services/authorizationpolicy/authorization_policy_repository.go:82-112 | On a store without policies the first seeding writes every default policy with all its rules: no leftover rule can be in the way |
| `ProxyPolicyRuns.FirstRoleSeedingIsComplete` | backend/internal/services/authorizationpolicy/authorization_policy_repository.go:482-504 | On a store without roles the first seeding writes every default role |
| `ProxyPolicyRuns.FirstAssignmentSeedingIsComplete` | backend/internal/services/authorizationpolicy/authorization_policy_repository.go:337-369 | On a store without assignments the first seeding writes every default one whose policy and role are there |
| `ProxyPolicyRuns.SeedsOnlyIntoEmpty` | backend/internal/services/authorizationpolicy/authorization_policy_repository.go:82-112 | A store that already has policies or roles is only marked |
| `ProxyPolicyRuns.AddMemberIff` | backend/internal/services/authorizationpolicy/authorization_policy_repository.go:652-675 | Adding a member takes effect exactly when no other pair has the same composed id |
| `ProxyPolicyRuns.ColonFreeRolesAdd` | backend/internal/services/authorizationpolicy/authorization_policy_repository.go:652-675 | With colon-free role ids every addition takes effect |
| `ProxyPolicyRuns.MemberIdCollision` | backend/internal/services/authorizationpolicy/authorization_policy_repository.go:652-675 | A role id with a colon can keep another role's user out |
| `ProxyPolicyRuns.TargetsResolveIff` | backend/internal/services/authorizationpolicy/assignments.go:31-71 | One operation keeps all role targets resolved exactly when it is no effective assignment to a missing role |
| `ProxyPolicyRuns.TargetsResolveThroughoutIff` | backend/internal/services/authorizationpolicy/assignments.go:31-71 | Role targets resolve throughout a run exactly when none of its operations is such an assignment |
| `ProxyPolicyRuns.RoleTargetMayDangle` | backend/internal/services/authorizationpolicy/assignments.go:31-71 | For every role that is not a default one there is such an assignment, after the seeding the handler starts with |
| `ProxyRepository.DeleteWhere` | backend/internal/services/authorizationpolicy/authorization_policy_repository.go:265-288 | The list-and-delete loop removes exactly the qualifying rows |
| `ProxyRepository.FindRow` | backend/internal/services/authorizationpolicy/authorization_policy_repository.go:765-790 | The lookup loop finds a row iff there is one |
| `ProxyRepository.CreateRules` | backend/internal/services/authorizationpolicy/authorization_policy_repository.go:192-219 | The creation loop stops at the first taken id |
| `ProxyRepository.Repository.EnsureDefaultProxyPolicies` | backend/internal/services/authorizationpolicy/authorization_policy_repository.go:82-112 | Seeds once, only into an empty table, marker first |
| `ProxyRepository.Repository.EnsureDefaultProxyRoles` | backend/internal/services/authorizationpolicy/authorization_policy_repository.go:482-504 | The same for roles |
| `ProxyRepository.Repository.EnsureDefaultProxyAssignments` | backend/internal/services/authorizationpolicy/authorization_policy_repository.go:337-369 | Seeds policies and roles first, and only rows whose policy and role exist |
| `ProxyRepository.Repository.CreateProxyPolicy` | backend/internal/services/authorizationpolicy/authorization_policy_repository.go:192-219 | The new tables; success iff the id and the rule ids are free |
| `ProxyRepository.Repository.UpdateProxyPolicy` | backend/internal/services/authorizationpolicy/authorization_policy_repository.go:223-260 | Merge and optional replacement of the rules; success iff found and the rule ids are free |
| `ProxyRepository.Repository.DeleteProxyPolicyCascade` | backend/internal/services/authorizationpolicy/authorization_policy_repository.go:265-288 | Seeds the default policies if that never happened, then removes the policy with its rules and assignments and nothing else |
| `ProxyRepository.Repository.AssignPolicy` | backend/internal/services/authorizationpolicy/assignments.go:31-71 | Seeds all defaults if that never happened, then adds the assignment unless it exists, its policy does not, or the id is taken |
| `ProxyRepository.Repository.UnassignPolicy` | backend/internal/services/authorizationpolicy/authorization_policy_repository.go:452-464 | Deleting one row removes the pair |
| `ProxyRepository.Repository.CreateProxyRole` | backend/internal/services/authorizationpolicy/authorization_policy_repository.go:557-566 | Creates the role unless its id is taken |
| `ProxyRepository.Repository.UpdateProxyRole` | backend/internal/services/authorizationpolicy/authorization_policy_repository.go:579-588 | Merges into an existing role |
| `ProxyRepository.Repository.DeleteProxyRoleCascade` | backend/internal/services/authorizationpolicy/authorization_policy_repository.go:292-316 | Seeds the default roles if that never happened, then removes the role, its memberships and the assignments that target it, and nothing else |
| `ProxyRepository.Repository.AssignRoleUser` | backend/internal/services/authorizationpolicy/roles.go:152-190 | Seeds the default roles if that never happened, then adds the membership unless it exists, its role does not, or the composed id is taken |
| `ProxyRepository.Repository.UnassignRoleUser` | backend/internal/services/authorizationpolicy/authorization_policy_repository.go:689-701 | Deleting one row removes the pair |
| `Lifecycle.CollapseMeans` | backend/internal/platform/cluster/status.go:87-117 | Failed wins over running over queued over completed; the start is the earliest, the completion the latest; identity is the base's |
| `Lifecycle.ReasonIsOfFirst` | backend/internal/platform/cluster/status.go:87-117 | The reason is that of the first state with the resulting status |
| `Lifecycle.OrderDoesNotMatter` | backend/internal/platform/cluster/status.go:87-117 | Status and times depend only on the set of observed states |
| `Lifecycle.CollapseTimes` | backend/internal/platform/cluster/status.go:87-117 | Falling back to the chosen state's completion time never changes anything |
| `Lifecycle.TwoStagesAreOne` | backend/internal/platform/cluster/status.go:68-117 | Collapsing native objects first and then with the scheduler's objects equals collapsing all at once |
| `Lifecycle.CollapseLifecycleStatuses` | backend/internal/platform/cluster/status.go:87-117 | The loop and the branches compute the specified collapse |
| `Lifecycle.FirstLifecycleStatus` | backend/internal/platform/cluster/status.go:195-202 | Returns the first state with that status |

## Left out

- Redis, MinIO, LDAP, JWKS and OTLP clients, including the Redis bus, limiter and lease, whose steps are several round trips.
- HTTP middleware, proxying, header handling, OpenAPI output, configuration parsing, authentication and token handling.
- The Postgres advisory lock and file discovery of migrations: a run gets its ordered units and the lock as given (`ready`).
- Migrate: a script is one atomic statement batch that commits or not; the content of scripts is not modelled.
- Record versions and timestamps, and dead-letter fields other than consumer, event id and attempt count.
- Handlers that interleave: get-then-update sequences run one at a time, so the conflict branch of a concurrent create does not occur in `UpsertReadModel`.
- A failing projection handler leaves the read model as it was.
- The cross-service store decorator: dead letters and read models live in the plain local store.
- Authorization-policy image allow-lists: their delete by tag depends on current rows, so row-wise replay does not apply to it.
- Drift.FamilyDrift: the order of the reported findings is not modelled, and owner rows come as already fetched lists.
- Allocation.RisesIff: for positive bases, as every caller passes, and for stores that fit a Go map.
- Reconcile.RebuildsAtMostOnce: one reconciler per consumer, a fixed stream and fixed owner rows between ticks.
- Adapter: overflow of the backoff duration for very large attempt numbers, request building and response headers.
- RecordStore: the upper bound Go puts on a padding width.
- Metrics: histograms and request counters; strings are code points, with one code point standing for the separator byte 0xff.
- RouteTable.LiteralRouteWins: for patterns whose catch-alls are braced and last; `BehindCatchAll` shows what other patterns do.
- RouteRegistry: the resource and operation ids computed for a route, and the gateway's catalogue proxy routes, which use the same matching.
- RouteRegistry.App: the fingerprint of the route list is any function; its value never matters.
- ProxyPolicies: the seed tables are parameters with pairwise different rows; row timestamps, names and the check of duplicate names are left out, and rule, policy and assignment ids are given as chosen.
- ProxyPolicies: the in-memory store keeps what was written before a conflict, a transaction rolls back; both are covered by `rollback`.
- Lifecycle: the mapping of Kubernetes and Volcano objects to states is left out; it always yields one of the four statuses.
