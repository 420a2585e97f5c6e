# Forge control plane: a verified model

Forge is a control plane: a service catalog and a tenant registry over Postgres, an outbox relay
that turns committed changes into events, a provisioning saga, a migration runner, a Kubernetes
status writer and a rate limiter. This project models the stateful core of these parts in Dafny and
proves what they keep over every run.

`dafny verify dfyconfig.toml` checks everything.

## How the model is built

* **Commands.** `CatalogDomain` and `TenantDomain` hold the aggregates, as values and as the classes
  that update them in place. `CommandProtocol` interleaves any number of command transactions
  statement by statement under read-committed isolation: begin, load, apply, versioned update under
  the row lock, ownership history, outbox append, commit or rollback, with a lost acknowledgement
  possible. It also defines the simple machine `Serial`, which re-runs the committed commands one at
  a time. `CommandIdentity` proves what holds whatever If-Match numbers clients send: rows scan back,
  identity columns stay, keys are unique. `CommandSafety` proves that runs whose clients send only
  safe numbers commit a serial history; `CommandLog` and `CommandRuns` draw the consequences,
  `CommandEffects` says what each committed command did to which column, and `VersionTests` what a
  client's number does in every run.
  `Expectation` proves exactly which numbers are safe, and `OwnershipRuns` exactly which clock readings
  let the ownership history tile time. `SoloSteps` helps build runs. `CommandStore` is the application
  layer as it runs, with arbitrary interference between any two of its statements and while it waits
  for a lock.
* **Events.** `RelayProtocol` has any number of relay replicas, a bus with a deduplication window,
  and an adversary that fails publishes, crashes replicas, delays messages and loses commits.
  `RelayDrain` is the relay's own loops. `EndToEnd` puts commands and relays into one system, whose
  two parts are runs of the two protocols.
* **Reading.** `Pagination` shows that a keyset walk is filter-and-sort, `PageReads` reads one page,
  and `Timelines` walks pages while any commands commit; `ServiceListing` and `TenantListing` apply
  all three to the two tables.
* **Idempotent registration.** `Registration` interleaves keyed requests with each other and with all
  other commands; `Idempotency` proves exactly when a key has one answer.
* **The smaller cores.** `Saga` and `Provisioning` (tenant provisioning), `Migrations` and
  `MigrationRunner`, `StatusWriter`, `RateLimiter` and `RateBound`, and `Decimals` (version numbers in
  headers and file names).

Clocks, ids, the outcome of every remote call and all interference are parameters. A run of a method
class such as `CommandStore.Store` or `MigrationRunner.Migrator` is a run of its protocol, so the
theorems about runs speak about the methods.

Hypotheses that the theorems name: where versions matter (`CommandRuns`, `CommandSafety`,
`OwnershipRuns`, `EndToEnd.OutboxReplays`), an If-Match number was handed out for that aggregate
(`FromETag`), or more generally satisfies `SafeExpectation`; identity, uniqueness, listing, relaying,
idempotency and the methods of `CommandStore` assume nothing about these numbers, and
`Store.polite` says whether a run of those methods is one of the former. Wall-clock readings, of
application processes, database and bus, are arbitrary; `OwnershipRuns.OwnershipTilesTime` alone
assumes that they do not go back. The rate limiter measures with the monotonic clock of its own
process. `Registration.Sent` says which bodies clients send with which key;
every theorem about it is for all such relations.

## Where code and documentation part

* An If-Match number is compared with the row as it is at the update, not with the row the change was
  computed from. A number from the future can therefore lose an update, also of an aggregate that
  is only created later; `Expectation.ExpectationExact` says exactly which numbers can.
* The ownership history is stamped with application clocks. When one is set back before an earlier
  hand-over, the intervals overlap or begin before the service: `OwnershipRuns.TilesExactly` says
  exactly when they tile time, `OwnershipRuns.TilingCanBreak` gives a run in which they do not.
* The saga is documented to roll completed steps back. A failing step whose attempt took effect
  unreported is not compensated, and a resource the tenant already had is deleted by the rollback
  rather than restored: `Saga.LeftoversExactly` and `Saga.RestoredExactly`, with inputs in
  `Saga.FailingStepLeavesResource` and `Saga.RollbackDeletesWhatWasThere`.
* A tenant cursor does not carry the order it was issued for, unlike a service cursor. Sent with the
  other order it leads back over the rows already returned: `TenantListing.CursorUnderEitherOrder`,
  with an input in `TenantListing.OtherOrderGoesBack`.
* The rate limiter reads the clock twice per call, so evicting idle keys is invisible under a
  slightly stronger condition than "the bucket fills within the time to live":
  `RateLimiter.EvictionInvisibleExactly`.
* The migration runner does not check for an error after reading the applied versions. The database
  comes to no harm, as all theorems about it hold for incomplete reads, but a run whose read missed a
  recorded version of its files never gets past that file and ends in an error:
  `Migrations.MissedVersionBlocks`.

## Model

| member | source | states |
|---|---|---|
| `CommandRuns.Serializable` | internal/modules/catalog/app/commands.go:121-142 | after every interleaving, with any clock readings, re-running the committed commands one at a time in commit order gives exactly the committed rows and ownership history |
| `CommandRuns.NoLostUpdates` | internal/modules/catalog/adapters/postgres/repository.go:52-75 | every committed update replaced exactly the row it was computed from, and each aggregate and version was committed with one content |
| `CommandRuns.EventLogReplays` | internal/modules/catalog/domain/service.go:24-104 | the committed outbox rows that name an aggregate as their own are as many as its version, and folding their events in commit order, through unbroken From/To and PreviousTeam/NewTeam chains, gives its current state |
| `OwnershipRuns.OwnershipTilesTime` | internal/modules/catalog/adapters/postgres/repository.go:77-97 | with clocks that do not go back, the intervals cover every instant from creation on exactly once and none before, each naming the owner of the last write by then |
| `OwnershipRuns.OwnershipChained` | internal/modules/catalog/adapters/postgres/repository.go:77-97 | whatever the clocks read, a service has one open ownership interval, its row's owner; each interval begins where the one before ends, from creation on, with another owner |
| `OwnershipRuns.TilesExactly` | internal/modules/catalog/adapters/postgres/repository.go:77-97 | whatever the clocks read, after every run the intervals tile time from creation on if and only if no committed hand-over is stamped before the one it follows, and then each instant belongs to the owner of the last hand-over by then |
| `OwnershipRuns.SetBackBreaksTiling` | internal/modules/catalog/app/ports.go:37-41 | from every state with a service that is not final and not being written, a clock set back before an earlier hand-over breaks the tiling when the service is then handed to another owner, in a run in which everybody behaves |
| `OwnershipRuns.TilingCanBreak` | internal/modules/catalog/app/ports.go:37-41 | a run from the empty database, a service registered at 10 and handed over at 5, whose history does not tile time |
| `OwnershipRuns.StepKeepsStamps` | internal/modules/catalog/app/commands.go:121-142 | with clocks that do not go back, every statement keeps changes stamped no earlier than the row they were computed from |
| `CommandRuns.FinalRowsNeverChange` | internal/modules/tenant/domain/tenant.go:37-59 | a retired service or archived tenant row is the same in every later state |
| `CommandRuns.RowsGrow` | internal/modules/tenant/adapters/postgres/repository.go:40-57 | rows are never removed, never go back a version, and keep their key and creation time |
| `CommandRuns.ETagRunIsSafe` | internal/modules/catalog/app/commands.go:144-149 | clients that send only versions they were given satisfy the weaker condition the safety proof needs |
| `CommandEffects.CommittedEffects` | internal/modules/catalog/domain/service.go:51-90 | every committed change did to the row it replaced what its command says and no more: one of the seven lifecycle moves or four status moves, with somebody on call in production, or the new owner, or the new quota, one version on; and sent out exactly the event that says so |
| `CommandEffects.CommittedRegistrations` | internal/modules/catalog/domain/service.go:24-41 | every committed registration is version 1, experimental or active, with one clock reading, announced with its own columns |
| `CommandEffects.ExperimentalIsLeftOnce` | internal/modules/catalog/domain/values.go:45-50 | a committed service that has left experimental is never experimental in a later state |
| `CommandEffects.VersionsHandedOut` | internal/modules/catalog/api/handlers.go:227-229 | reading a row, or having a change of it acknowledged, hands out its version |
| `CommandEffects.NameCheckExactly` | internal/modules/catalog/app/commands.go:48-53 | the check before an insert lets a registration go on exactly if no service of that tenant and name, or no tenant of that slug, is committed |
| `VersionTests.CommitTestedVersion` | internal/modules/catalog/app/commands.go:144-149 | in every run, a committed change begun with a positive If-Match number replaced a row of exactly that version, and one begun without replaced a row of the version it had read |
| `VersionTests.OtherVersionRollsBack` | internal/modules/catalog/adapters/postgres/repository.go:52-75 | in every run, an update that finds another version rolls back and leaves no trace; one that goes on replaces the row it found |
| `CommandIdentity.StepKeepsInv` | internal/modules/catalog/app/commands.go:28-142 | whatever If-Match numbers clients send, every statement of every transaction keeps: rows scan back and sit under their own id, keys are unique, live transactions agree with the committed row on id, key and creation time, pending writes exclude each other |
| `CommandIdentity.NeverCorrupt` | internal/modules/catalog/adapters/postgres/repository.go:169-207 | after every run, every committed row scans back, to an aggregate that writes the same row: the corruption error is unreachable |
| `CommandIdentity.ProductionHasOnCall` | internal/modules/catalog/domain/service.go:51-80 | after every run, every committed service in production has an on-call reference |
| `CommandIdentity.KeysStayUnique` | internal/modules/catalog/adapters/postgres/repository.go:26-50 | after every run, no two services share tenant and name and no two tenants a slug, however registrations race, and each key was registered once |
| `CommandIdentity.RegistrationsDistinct` | internal/modules/catalog/app/commands.go:28-63 | two registrations in the log of any run differ in id and in unique key |
| `CommandIdentity.RunKeepsIdentity` | internal/modules/catalog/adapters/postgres/repository.go:52-75 | over every run a row stays, with its id, unique key and creation time, also when an update is lost |
| `CommandIdentity.OnlyCommitsLeaveTraces` | internal/modules/catalog/adapters/postgres/store.go:19-34 | no step but a commit changes rows, history or committed events |
| `CommandSafety.StepKeepsInv` | internal/modules/catalog/app/commands.go:121-149 | the invariant that makes commands serializable is kept by every statement of every transaction |
| `CommandSafety.UpdateFindsWhatWasRead` | internal/modules/catalog/app/commands.go:128-138 | whenever the version test passes, the row the update finds is the row that was loaded |
| `CommandLog.NoLostUpdateInLog` | internal/modules/catalog/app/commands.go:121-142 | in a serial log each change was decided on the row committed just before it and advanced it by one version or left it alone |
| `CommandLog.EventsReplayState` | internal/modules/tenant/domain/tenant.go:21-72 | the events of the writes to an aggregate, in any serial log, recount it: count, chains and final state |
| `CommandLog.ConcerningIsEventsOf` | internal/modules/catalog/adapters/postgres/outbox.go:24-38 | the events a consumer picks out of the outbox rows by the aggregate they name are those of the writes to that row |
| `CommandLog.HistoryFollowsLog` | internal/modules/catalog/adapters/postgres/repository.go:77-97 | the stored intervals are those of the committed writes, whatever the clocks read |
| `Expectation.ExpectationExact` | internal/modules/catalog/app/commands.go:144-149 | a number sent as If-Match is safe against every continuation if and only if it is not positive; or the row is there and the number is not beyond its committed version or the row is final; or the row is not there and the number is at most 1 or no key is left to create it with |
| `Expectation.GuessLosesUpdate` | internal/modules/tenant/app/commands.go:125-130 | for every other number on a row that is there, a run in which all other clients behave and an update is lost |
| `Expectation.LateGuessLosesUpdate` | internal/modules/tenant/app/commands.go:125-130 | the same for an aggregate that others create after the client began |
| `CommandStore.Store.Mutate` | internal/modules/catalog/app/commands.go:121-142 | with anything happening between statements and during lock waits, by clients sending any If-Match numbers and with any clock readings: Ok means committed exactly once, over a row of the version sent, or without one of the version read; a row of another version under a free lock is a VersionConflict; any error but a lost acknowledgement or an ended wait means not committed and is explained by the state in which the command gave up; and the whole is a run of the protocol |
| `CommandStore.Store.Register` | internal/modules/catalog/app/commands.go:28-63 | the same for registration, with the row and birth event of the validated input; a name conflict is reported only when a service of that tenant and name, a tenant of that slug or a row of that id is there, and always when the name was taken from the start |
| `CommandStore.Store.ApplyTo` | internal/modules/catalog/app/commands.go:72-119 | running a command on the in-memory aggregate and pulling its events is the decision the protocol takes |
| `CommandStore.Store.OutboxRowsFor` | internal/modules/catalog/adapters/postgres/outbox.go:24-38 | one outbox row per event, in order |
| `CatalogDomain.ServiceAggregate.ChangeOwnership` | internal/modules/catalog/domain/service.go:51-63 | updates the fields in place as the decision function says, or reports the broken rule and changes nothing; accepted exactly for a service that is not retired and, in production, an owner on call |
| `CatalogDomain.ServiceAggregate.ChangeLifecycle` | internal/modules/catalog/domain/service.go:65-80 | likewise; accepted exactly when there is nothing to change or the move is one of the seven of the table, with somebody on call in production |
| `CatalogDomain.ServiceAggregate.Retire` | internal/modules/catalog/domain/service.go:82-90 | likewise |
| `CatalogDomain.ServiceAggregate.PullEvents` | internal/modules/catalog/domain/service.go:100-104 | returns the recorded events and leaves none |
| `CatalogDomain.LifecycleExactly` | internal/modules/catalog/domain/service.go:65-80 | which changes of lifecycle are accepted, as literal pairs, which error each other one gets, and what an accepted one changes |
| `CatalogDomain.OwnershipChangeExactly` | internal/modules/catalog/domain/service.go:51-63 | the same for a change of owner, with its event |
| `CatalogDomain.RetireExactly` | internal/modules/catalog/domain/service.go:82-90 | every service can be retired, with an event the first time only |
| `CatalogDomain.DecideKeepsValid` | internal/modules/catalog/domain/service.go:51-90 | every accepted command keeps the aggregate valid, production with on-call included |
| `CatalogDomain.NameFixed` | internal/modules/catalog/domain/values.go:14-20 | a service name passes its own validation unchanged if and only if it is a trimmed label of at most 63 bytes |
| `CatalogDomain.NameExactly` | internal/modules/catalog/domain/values.go:14-20 | a name is trimmed first, and accepted exactly if what is left is a label of at most 63 characters |
| `CatalogDomain.OwnershipFixed` | internal/modules/catalog/domain/values.go:71-77 | likewise for ownership |
| `CatalogDomain.OwnershipExactly` | internal/modules/catalog/domain/values.go:71-77 | team and on-call reference are trimmed; rejected exactly when the team is white space |
| `TenantDomain.TenantAggregate.ChangeStatus` | internal/modules/tenant/domain/tenant.go:37-49 | updates the tenant in place as the decision function says, or changes nothing; accepted exactly when there is nothing to change or the move is one of the four of the table |
| `TenantDomain.TenantAggregate.UpdateQuota` | internal/modules/tenant/domain/tenant.go:51-59 | likewise; accepted exactly unless archived, and then the quota is the one asked for |
| `TenantDomain.TenantAggregate.Create` | internal/modules/tenant/domain/tenant.go:21-28 | an active tenant of version 1 with its birth event |
| `TenantDomain.StatusExactly` | internal/modules/tenant/domain/tenant.go:37-49 | which changes of status are accepted, as literal pairs, and what they change |
| `TenantDomain.QuotaExactly` | internal/modules/tenant/domain/tenant.go:51-59 | the quota of a tenant that is not archived is stored as asked and announced |
| `TenantDomain.NameFixed` | internal/modules/tenant/domain/values.go:12-18 | a tenant name passes its own validation unchanged if and only if it is canonical |
| `TenantDomain.NameExactly` | internal/modules/tenant/domain/values.go:12-18 | a name is trimmed first, and accepted exactly if 1 to 100 bytes are left |
| `TenantDomain.SlugFixed` | internal/modules/tenant/domain/values.go:25-31 | likewise for slugs |
| `TenantDomain.SlugExactly` | internal/modules/tenant/domain/values.go:25-31 | a slug is trimmed first, and accepted exactly if what is left is a label of at most 63 characters |
| `Text.LabelPattern` | internal/modules/catalog/domain/values.go:8-20 | the label predicate holds exactly of the strings the regular expression matches (RFC 1123 section 2.1 labels) |
| `Text.LabelCodes` | internal/modules/catalog/domain/values.go:8-10 | lower-case letters, digits and the hyphen, by code |
| `Text.TrimFixes` | internal/modules/catalog/domain/values.go:14-20 | trimming fixes exactly the trimmed strings and is idempotent |
| `Text.SpaceCodes` | internal/modules/catalog/domain/values.go:14-20 | the white space that is trimmed, code by code |
| `Text.ByteLenExactly` | internal/modules/tenant/domain/values.go:12-18 | lengths count the bytes of the UTF-8 encoding (RFC 3629 section 3), which decodes to the text |
| `Aggregates.RoundTrip` | internal/modules/tenant/adapters/postgres/repository.go:132-170 | writing a valid service or tenant and scanning the row gives it back |
| `Aggregates.StoredExactly` | internal/modules/catalog/adapters/postgres/repository.go:169-207 | the rows that scan back to themselves are exactly the rows of valid aggregates |
| `Aggregates.BuildServiceExactly` | internal/modules/catalog/app/commands.go:28-46 | the row and birth event of a service registration, column by column from its input, or the first input that is wrong |
| `Aggregates.BuildTenantExactly` | internal/modules/tenant/app/commands.go:25-43 | the same for a tenant |
| `Aggregates.ScanExactly` | internal/modules/catalog/adapters/postgres/repository.go:169-207 | which rows scan: exactly those whose columns the value objects accept; any other is reported as corrupt |
| `Aggregates.ScanColumns` | internal/modules/catalog/adapters/postgres/repository.go:169-207 | a scanned aggregate has the columns of its row |
| `OwnershipHistory.HistoryTilesTime` | internal/modules/catalog/adapters/postgres/repository.go:77-97 | with writes in clock order, exactly one interval holds each instant and names the owner as of then |
| `OwnershipHistory.TilesExactlyWhenInOrder` | internal/modules/catalog/adapters/postgres/repository.go:42-48 | without that order: intervals tile time if and only if no hand-over is stamped before the one it follows |
| `OwnershipHistory.HistoryOfHandovers` | internal/modules/catalog/adapters/postgres/repository.go:77-97 | writes that keep the owner leave no trace: the history of all writes is that of the hand-overs |
| `RelayProtocol.ReplicasExclude` | internal/relay/postgres.go:26-32 | live claims of different replicas share no row, and no row is marked published twice |
| `RelayProtocol.StoredBeforeMarked` | internal/relay/postgres.go:54-68 | the row a step marks was in the stream before that step: a message with the row's id, its own event as data, on the subject of its kind, one of seven literal ones |
| `RelayProtocol.CopiesApart` | internal/platform/events/events.go:35-63 | two stored copies of a row are at least two minutes apart, whatever the bus clock reads |
| `RelayProtocol.StoredOnceExactly` | internal/platform/events/events.go:35-63 | a stored row has a single copy if and only if every publish of it that arrived came within two minutes of the first |
| `RelayProtocol.StepKeepsInv` | internal/relay/postgres.go:19-70 | the invariant behind these is kept by every step of every replica and of the bus |
| `RelayProtocol.MessageConveys` | internal/relay/relay.go:52-74 | what is published of a row: its id, its own event, and prefix, dot and the type of the event as subject |
| `RelayDrain.OutboxRelay.ClaimBatch` | internal/relay/postgres.go:19-70 | the oldest rows, as many as the limit or all there are, are published in order; then either all of the batch was accepted by the bus and is marked and counted, or the error is returned and none is marked, unless the answer to a commit that took place was lost |
| `RelayDrain.OutboxRelay.DrainOnce` | internal/relay/relay.go:52-66 | always returns the number of rows it marked, short of a last batch whose commit answer was lost; without an error that is the whole backlog, each row sent once, oldest first, and accepted by the bus; it succeeds whenever publishes and commits do, from any state |
| `RelayDrain.OutboxRelay.constructor` | internal/relay/relay.go:40-48 | a batch size that is not positive is replaced, which is what makes draining end |
| `RelayDrain.BacklogOrder` | internal/relay/postgres.go:26-32 | the backlog is oldest first by created_at, ties by id |
| `RelayDrain.DrainedMeansPublished` | internal/relay/relay.go:52-66 | with an empty backlog and no live claim, every committed row is marked and its own event is in the stream under its id and subject |
| `EndToEnd.EveryMessageCommitted` | internal/modules/catalog/adapters/postgres/outbox.go:24-38 | over runs mixing commands and relays, each stream message carries, under the id of its outbox row and on the subject of its kind, an event a committed command emitted |
| `EndToEnd.NothingDisappears` | internal/modules/catalog/adapters/postgres/store.go:19-34 | the events of every commit are in the outbox now and in every later state |
| `EndToEnd.MarkedMeansStored` | internal/relay/postgres.go:54-68 | in every reachable state a row marked published is in the stream: its id, its own event, its subject |
| `EndToEnd.StoredEarlier` | internal/relay/postgres.go:54-68 | the row a step of the system newly marks was in the stream, id, event and subject, before that step |
| `EndToEnd.RelaysAreInvisible` | internal/relay/postgres.go:19-70 | what the database goes through is a run of the command protocol alone, so the command theorems hold with relays running |
| `EndToEnd.CommandsAreProducers` | internal/relay/postgres.go:19-70 | what the relays go through is a run of the relay protocol alone, each commit producing its outbox rows |
| `EndToEnd.RelayPartReachable` | internal/relay/postgres.go:19-70 | the relay part of a reachable system is reachable, so the relay theorems hold with commands running |
| `EndToEnd.OutboxReplays` | internal/modules/catalog/adapters/postgres/outbox.go:24-38 | the table the relays publish from holds exactly the log's rows, and the events in it that name an aggregate replay to its current state |
| `Ordering.ListingUnique` | internal/modules/catalog/adapters/postgres/repository.go:109-163 | there is exactly one sorted sequence of a set of keys |
| `Ordering.SeqLessExactly` | internal/modules/catalog/adapters/postgres/repository.go:122-139 | one sort value comes before another where they first differ, or if it ends there |
| `Pagination.WholeWalk` | internal/modules/catalog/adapters/postgres/repository.go:109-163 | following the next cursor over a fixed table ends and returns the matching keys exactly once each, sorted |
| `Pagination.WalkFromKey` | internal/modules/catalog/adapters/postgres/repository.go:109-163 | from any key of a listing, the walk under the same order is the rest of it and the walk under the other order is what came before, backwards |
| `Pagination.NoRowTwice` | internal/modules/catalog/adapters/postgres/repository.go:109-163 | over a changing table whose keys are never updated, no row is returned twice |
| `Pagination.StayersReturned` | internal/modules/catalog/adapters/postgres/repository.go:109-163 | a row present at every read is returned by the end of the walk |
| `PageReads.ReadPage` | internal/modules/catalog/adapters/postgres/repository.go:109-163 | one page: the scanned rows of the matching keys beyond the cursor, in order, and the next key exactly when more follow; with well-formed rows always a page |
| `Timelines.WalkDuringRun` | internal/modules/catalog/adapters/postgres/repository.go:109-163 | for any filter and any key made of identity columns, over successive states of any run: pages come in order, no row twice, and every row that matches at each read is returned |
| `ServiceListing.ListServices` | internal/modules/catalog/app/queries.go:28-43 | one page: every service returned has the tenant, lifecycle and tier asked for; they come by name or else creation, ascending only if asked, ties by id; at most the limit asked for, or 50 if that is not 1 to 200; the next cursor when more follow; an invalid cursor error exactly for an unreadable cursor or one of another sort or order, and a page otherwise when rows are well formed |
| `ServiceListing.PageExactly` | internal/modules/catalog/adapters/postgres/repository.go:109-163 | the same of any answer, and that a first page without a next one has every service that meets the query |
| `ServiceListing.CursorRoundTrip` | internal/modules/catalog/adapters/postgres/repository.go:213-243 | a cursor continues the listing it was issued for, also when sort and order are left to default, and is refused under any other sort or order |
| `ServiceListing.WalkDuringCommands` | internal/modules/catalog/adapters/postgres/repository.go:109-163 | paging while any commands commit returns services in order, none twice, and every service that matches at each read |
| `ServiceListing.CallsAreWalk` | internal/modules/catalog/app/queries.go:28-43 | successive calls, each with the cursor of the answer before and of a later state, are such a walk, and the services returned are the rows of its pages |
| `ServiceListing.ClientWalk` | internal/modules/catalog/adapters/postgres/repository.go:109-163 | whatever commands commit between the requests, a client that pages to the end gets only services with the tenant, lifecycle and tier asked for, none twice, and every service that has them at each read |
| `TenantListing.TenantWalk` | internal/modules/tenant/adapters/postgres/repository.go:69-128 | over a fixed table a walk over the tenants is their sorted listing |
| `TenantListing.ListTenants` | internal/modules/tenant/app/queries.go:28-41 | one page: every tenant returned has the status and plan asked for; they come by creation, ascending only if asked, ties by id; at most the limit asked for, or 50 if that is not 1 to 200; the next cursor when more follow; an invalid cursor error exactly for an unreadable cursor |
| `TenantListing.PageExactly` | internal/modules/tenant/adapters/postgres/repository.go:69-128 | the same of any answer, and that a first page without a next one has every tenant that meets the query |
| `TenantListing.WalkDuringCommands` | internal/modules/tenant/adapters/postgres/repository.go:69-128 | paging while any commands commit returns tenants in order, none twice, and every tenant that matches at each read |
| `TenantListing.CallsAreWalk` | internal/modules/tenant/app/queries.go:28-41 | successive calls, each with the cursor of the answer before and of a later state, are such a walk, and the tenants returned are the rows of its pages |
| `TenantListing.ClientWalk` | internal/modules/tenant/adapters/postgres/repository.go:69-128 | whatever commands commit between the requests, a client that pages to the end gets only tenants with the status and plan asked for, none twice, and every tenant that has them at each read |
| `TenantListing.CursorUnderEitherOrder` | internal/modules/tenant/adapters/postgres/repository.go:176-198 | a tenant cursor is accepted under either order; under its own the walk returns the rest of the listing, under the other exactly the tenants already returned, backwards, and none that lie ahead |
| `TenantListing.OtherOrderGoesBack` | internal/modules/tenant/adapters/postgres/repository.go:176-198 | three tenants, newest first: after a page of two, the other order returns the first of them again and never the third |
| `Saga.LeftoversExactly` | internal/provisioning/workflow.go:17-91 | for a tenant without prior resources, a failed run leaves a resource if and only if its compensation never took effect, or it is the failing step's own and took effect unreported |
| `Saga.FailingStepLeavesResource` | internal/provisioning/workflow.go:27-30 | a failing first step whose first attempt took effect unreported leaves its resource, whatever the other outcomes |
| `Saga.RestoredExactly` | internal/provisioning/workflow.go:80-91 | from any prior state: exactly when a resource comes back to what it was |
| `Saga.RollbackDeletesWhatWasThere` | internal/provisioning/workflow.go:80-91 | a tenant that already had the resource loses it when a later step fails and the rollback succeeds |
| `Saga.FailedRun` | internal/provisioning/workflow.go:17-91 | the exact state a failed run leaves, for step lists of any length and all outcomes |
| `Saga.CompletedRun` | internal/provisioning/workflow.go:17-67 | a run reported as done leaves each of its resources at its value |
| `Saga.OthersUntouched` | internal/provisioning/provisioner.go:53-120 | other tenants and other kinds are untouched |
| `Saga.RunsDoNotInterfere` | internal/provisioning/provisioner.go:53-120 | in any interleaving of runs, each tenant's resources end as its own run alone would leave them |
| `Saga.AttemptsEffect` | internal/provisioning/provisioner.go:53-120 | repeating an activity attempt changes nothing |
| `Saga.SagaIs` | internal/provisioning/workflow.go:17-91 | the operations of a run, retries included, amount to each step's effect once and each compensation's once |
| `Provisioning.Workflow.ProvisionTenant` | internal/provisioning/workflow.go:17-67 | succeeds exactly when all five activities are reported as done, and then the tenant has namespace, quota of the size asked for, DNS record and secret path; otherwise names the first that failed, and a tenant that had nothing has, map by map, exactly the leftovers; other tenants keep what they have; activities are called once each in order, then completed ones compensated once each in reverse |
| `Provisioning.StepsOfTenant` | internal/provisioning/workflow.go:31-63 | the five steps one by one, each resource with a step of its own |
| `Provisioning.Workflow.Compensate` | internal/provisioning/workflow.go:80-91 | every registered compensation is called once, latest first, whatever fails |
| `Provisioning.Workflow.AddCompensation` | internal/provisioning/workflow.go:76-78 | appends one compensation |
| `Provisioning.Workflow.Execute` | internal/provisioning/workflow.go:18-24 | an activity is attempted until reported as done, at most three times |
| `Provisioning.SimulatedProvisioner.CreateNamespace` | internal/provisioning/provisioner.go:53-60 | sets that resource and no other, and names it |
| `Provisioning.SimulatedProvisioner.DeleteNamespace` | internal/provisioning/provisioner.go:62-68 | removes that resource and no other |
| `Provisioning.SimulatedProvisioner.ApplyQuota` | internal/provisioning/provisioner.go:70-76 | sets that resource and no other |
| `Provisioning.SimulatedProvisioner.RemoveQuota` | internal/provisioning/provisioner.go:78-84 | removes that resource and no other |
| `Provisioning.SimulatedProvisioner.RegisterDNS` | internal/provisioning/provisioner.go:86-96 | sets that resource and no other, and names it |
| `Provisioning.SimulatedProvisioner.DeregisterDNS` | internal/provisioning/provisioner.go:98-104 | removes that resource and no other |
| `Provisioning.SimulatedProvisioner.CreateSecretPath` | internal/provisioning/provisioner.go:106-112 | sets that resource and no other |
| `Provisioning.SimulatedProvisioner.DeleteSecretPath` | internal/provisioning/provisioner.go:114-120 | removes that resource and no other |
| `Provisioning.UndosAt` | internal/provisioning/workflow.go:83-89 | the i-th compensation called is that of the i-th last completed step |
| `Migrations.CommittedOnce` | internal/platform/postgres/migrate.go:66-87 | over crashes, concurrent runners and incomplete reads, committed scripts and recorded versions correspond one to one |
| `Migrations.EachRunCommitsAPrefix` | internal/platform/postgres/migrate.go:27-88 | each run has committed a strictly ascending prefix of its own plan |
| `Migrations.CommitsInVersionOrder` | internal/platform/postgres/migrate.go:27-88 | when runners ship the same files, scripts commit in version order over the whole history and the recorded versions are always an initial segment |
| `Migrations.CompletedRunRecordsAll` | internal/platform/postgres/migrate.go:27-88 | a run that got through its plan leaves all its files recorded, even after an incomplete read |
| `Migrations.MissedVersionBlocks` | internal/platform/postgres/migrate.go:27-40 | a run that plans a version recorded when it started, because its read missed it, never gets past that file, whatever happens |
| `MigrationRunner.Migrator.Migrate` | internal/platform/postgres/migrate.go:18-88 | an invocation under interference, waiting while another runner holds a version, is a run of the protocol over the directory's files; no error means its plan is done, every script having run and every commit been acknowledged; a file without version means nothing was touched |
| `MigrationRunner.SuccessRecordsDirectory` | internal/platform/postgres/migrate.go:18-88 | after a successful invocation every file of the directory that ends in .up.sql has a number before its first underscore, and that version is recorded |
| `MigrationRunner.ReadPending` | internal/platform/postgres/migrate.go:50-63 | the files not read as applied, or an error exactly when a migration has no version |
| `MigrationRunner.SortByVersion` | internal/platform/postgres/migrate.go:64-64 | the same files, ascending by version |
| `MigrationRunner.VersionRoundTrip` | internal/platform/postgres/migrate.go:90-100 | the version of `<number>_<rest>` is the number, however it is padded |
| `MigrationRunner.VersionExactly` | internal/platform/postgres/migrate.go:90-100 | a name has a version exactly if a number stands before its first underscore |
| `MigrationRunner.UpExactly` | internal/platform/postgres/migrate.go:50-56 | the files considered are those whose names end in .up.sql |
| `StatusWriter.AlwaysCoherent` | internal/controller/application_controller.go:231-274 | over all runs of spec edits and reconcilers, with any clock readings: a written status has exactly one Available condition, True exactly when Ready, with reason, counts and generation of the status; Ready exactly if at least one replica and as many as the spec of that generation asks for were ready; and the reading at the latest change of phase |
| `StatusWriter.RepeatWritesNothing` | internal/controller/application_controller.go:251-257 | after a write the same inputs write nothing, for any reader at any time |
| `StatusWriter.Reconciler.UpdateStatus` | internal/controller/application_controller.go:231-274 | at most five attempts, and all five before a conflict is returned; without an error the flag says exactly whether this call wrote, and the status it wrote or found has the Deployment's counts, the phase they call for and the current generation; on an error it wrote at most once, and only if the answer to its update was lost |
| `StatusWriter.UnchangedExactly` | internal/controller/application_controller.go:251-257 | nothing is written exactly when phase, counts and generation are all up to date |
| `StatusWriter.SetCondition` | internal/controller/application_controller.go:355-369 | the loop computes the upsert |
| `StatusWriter.UpsertCounts` | internal/controller/application_controller.go:355-369 | setting a condition adds one of its kind only if there was none, and never another kind's |
| `StatusWriter.UpsertKeepsOthers` | internal/controller/application_controller.go:355-369 | conditions of other kinds keep place and content |
| `Registration.StepKeepsInv` | internal/platform/idempotency/idempotency.go:41-51 | first-writer-wins saving and racing registrations, among any other commands, keep every saved or answered response a committed registration of a body sent with its key |
| `Registration.SavedForGood` | internal/platform/idempotency/idempotency.go:41-51 | over every run, a saved response is never replaced |
| `Registration.RespondSaves` | internal/platform/idempotency/idempotency.go:41-51 | a response is saved for its key unless one is there, and for no other key |
| `Registration.Server.Register` | internal/modules/catalog/api/handlers.go:31-80 | lookup, effect, save and answer under interference: the answer is a replay exactly when a response was saved for the key, and is then that response; otherwise it is the row this body describes, registered by this request's transaction under a name free at the start, with or without a key; no answer is explained by the state in which the request gave up |
| `Idempotency.OneAnswerExactly` | internal/modules/catalog/api/handlers.go:43-79 | in every run all 201 answers for a key, fresh or replayed, are the same response, if and only if the valid bodies sent with it all ask for one name of one tenant |
| `Idempotency.OneBodyOneAnswer` | internal/modules/catalog/api/handlers.go:43-79 | a key sent with one body has one answer, in any interleaving and whatever other clients do |
| `Idempotency.TwoNamesTwoAnswers` | internal/modules/catalog/api/handlers.go:43-79 | for every two valid bodies that ask for different names, a run from the empty database in which one key gets both answers |
| `Idempotency.ReplayFitsExactly` | internal/platform/idempotency/idempotency.go:25-37 | in every run a replay changes no row and answers with a committed registration of a body sent with the key; it is what the replayed request asks for if and only if validation makes the two bodies equal |
| `RateLimiter.EvictionInvisibleExactly` | internal/platform/httpx/ratelimit.go:39-63 | for clock readings at most a gap apart, evicting idle keys is invisible on every schedule if and only if nothing is ever allowed or an idle bucket fills within the time to live less what the gap can cost |
| `RateLimiter.EvictionInvisibleWithOneReading` | internal/platform/httpx/ratelimit.go:39-63 | with one reading per call the condition is burst at most rps times ttl |
| `RateLimiter.AnswersAgree` | internal/platform/httpx/ratelimit.go:39-63 | under that condition the answers of the evicting and the never-evicting limiter are equal, for all keys |
| `RateBound.RateIsBounded` | internal/platform/httpx/ratelimit.go:39-49 | over any schedule of calls, a key is allowed at most its burst plus the rate times the span |
| `RateBound.SteadyCallsGoThrough` | internal/platform/httpx/ratelimit.go:39-49 | a key that keeps to the rate is never turned away, however much it has used before |
| `RateBound.BurstExactly` | internal/platform/httpx/ratelimit.go:39-49 | a new key may make its burst of calls at once, and not one more |
| `RateLimiter.KeyedLimiter.Allow` | internal/platform/httpx/ratelimit.go:39-49 | answers and updates the key's bucket, creating a full one when there is none |
| `RateLimiter.KeyedLimiter.Reap` | internal/platform/httpx/ratelimit.go:51-63 | removes exactly the entries not seen within the time to live, and is a sequence of single looks |
| `Decimals.ETagRoundTrip` | internal/modules/catalog/api/handlers.go:215-229 | the version in an ETag comes back from If-Match unchanged, bare or quoted |
| `Decimals.MatchNeedsDigit` | internal/modules/catalog/api/handlers.go:215-225 | a header without a digit expects no version |
| `Decimals.ParsePadded` | internal/modules/catalog/api/handlers.go:215-225 | a number, signed and padded or not, parses to its value exactly if that fits 64 bits |
| `Decimals.ParseAccepts` | internal/modules/catalog/api/handlers.go:215-225 | nothing else parses |

## Left out

- HTTP routing, JSON, middleware, configuration, metrics, logging, JWT verification: plumbing with no state invariant.
- SQL text, the query builder and its string search: the model starts from what the statements mean; row locks, unique constraints and read-committed visibility are the contract of Postgres assumed here.
- Cursor bytes, UUIDs and message payload bytes: cursors are an injective encoding (a readable cursor has a time or name and an id in it), ids are given, payloads are the event.
- Sub-microsecond truncation of timestamps by Postgres, and database collation: times are exact and text is ordered by code point.
- 64-bit overflow of versions and counters: integers are unbounded, except where text is parsed.
- Expiry of stream messages by age: the stream only grows.
- Publish order per aggregate: the relay orders by transaction start, not by commit, so no such theorem exists.
- Activity attempts that keep running after a later attempt or a compensation: attempts do not overlap. The provisioner's forced-failure hook is one of the possible outcomes.
- Lock waits that never end: a blocked statement of a command or a migration waits, as long as the caller's patience lasts, and then ends in the caller's error.
- Token buckets as floating point: tokens and times are real numbers.
- The printed message of the Available condition: the model keeps the pair of numbers it prints.
- Enforcement of the tenant quota on services: not wired in the code.
- Desired Deployment, Service and ConfigMap objects, dashboards and alerts: record construction.
- Read-only modules and transfer objects: field copying.
