# Verification of the multi-tenant backend

A Dafny model of the stateful core of the backend under `backend/src/erp`, and proofs about it:
the transactional outbox with its relay and inbox, the module catalogue and per-tenant enablement,
the tenant database router, the provisioning of tenant databases, and keyset paging.
`dafny verify dfyconfig.toml` verifies all of it.

## How the model is built

PostgreSQL appears as a few primitives: atomic commit and rollback, row locks, `SKIP LOCKED`,
insert on conflict. Code that works by changing things step by step is modelled twice. Once in its own form, as a class or
a method with loops, whose contract states the whole new state. And once as a transition system in
which any number of transactions, threads or processes interleave and may stop anywhere; the main
theorems are about every run of these systems. Lemmas tie the two together.

| file | what it holds |
|---|---|
| `Results.dfy`, `Ordering.dfy`, `KeyOrder.dfy` | outcomes as data; strict orders, the sorted listing of a set, pigeonhole |
| `DependencyGraph.dfy` | chains, reachability, cycles and levels of the `depends_on` relation, without mention of the sort |
| `ModuleCatalogs.dfy` | catalogue construction, the layered sort, the two closure queries |
| `TenantModules.dfy` | `enable`, `disable`, `require` as a class, and what they do to the enabled set |
| `ModuleChanges.dfy` | the same calls as interleaving transactions |
| `Registry.dfy` | the tenant row |
| `PoolNumbers.dfy`, `TenantRouter.dfy` | the router as a class, and its cache as an exact LRU of the calls made |
| `RouterThreads.dfy`, `RouterRefinement.dfy` | the router shared by threads, statement by statement; a call made alone is the sequential call |
| `OutboxTable.dfy`, `OutboxProgress.dfy` | the outbox rows, the claim, a committed pass; draining and bounded wait |
| `OutboxBudget.dfy`, `OutboxWait.dfy` | progress of any number of relays together: draining, and bounded wait |
| `OutboxRelay.dfy` | the relay and the multi-tenant pass as classes |
| `OutboxDelivery.dfy`, `EventInbox.dfy`, `EndToEndDelivery.dfy`, `RelayRefinement.dfy` | the delivery protocol end to end; the relay's own code is a run of it |
| `OutboxHistory.dfy` | which events a run delivers: those enqueued in a transaction that commits, and no others |
| `Provisioning.dfy`, `ProvisioningSafety.dfy` | provisioning as a step system over registry and servers, and its safety |
| `ProvisioningCalls.dfy`, `ProvisioningRecovery.dfy`, `ProvisioningConvergence.dfy` | one call from start to recorded outcome; crash recovery; convergence |
| `ProvisioningFaults.dfy` | what an operation that raises does to a call |
| `TenantProvisioner.dfy`, `UpgradeRounds.dfy` | the provisioner as a class; whom `upgrade_all` reaches, and that it treats each as if alone |
| `TenantAccess.dfy` | provisioning and routing together: which database a caller ends up connected to |
| `CompanyPages.dfy` | keyset pages and what following their cursors adds up to |

## Assumptions

- A statement issued once a row lock is held sees the latest committed state of the rows it reads.
- A claimed outbox row stays locked until its transaction ends, and a claim is one atomic statement.
- An insert on a dedup key waits for an open transaction that holds the same key.
- At most one provisioning call is at work on a tenant at a time.
- A migration runs in one transaction (`backend/src/erp/core/migrations.py:29-38`): it takes effect whole or not at all.
  Migrations form one line, and the head revision only moves forward from release to release.
- A consumer runs its handler in the transaction of `consume_once`, and only when that answered True.
- A transaction that reports an error has not committed, except in provisioning, where every operation and the recording
  of its outcome may raise after taking effect. In the delivery protocol a pass that commits and then loses its process is
  a committed pass.
- Disposing a pool never raises, and building one from a placement just read never fails; an exception there would leave
  a trimming or disposal loop half done.
- All relays of a database use the same `max_attempts`; one module catalogue is fixed for a run.
- `max_cached >= 1` and `limit >= 1`, and `batch_size >= 1` where progress is claimed.
- Identifiers handed out by the database (events, tenants) are new.

## Main results

- Delivery is exactly once end to end, over every interleaving of business transactions, crashing relays, redeliveries
  and consumers that roll back: `EndToEndDelivery.ExactlyOnce`, `DeliveryAccounting`. The rows of the outbox are exactly the
  events enqueued in a transaction that went on to commit: `OutboxHistory.EnqueuedThenCommitted`, `RowWasEnqueuedAndCommitted`.
- A relay drains, and an event behind failing ones is claimed within a computable number of passes:
  `OutboxProgress.RelayDrains`, `ClaimedWithinBound`; for any number of relays at once `OutboxBudget.CommitsAreBounded`,
  `OutboxWait.CommitsWhileWaiting`.
- The catalogue raises the cycle error exactly on cyclic manifests and otherwise has one canonical order:
  `ModuleCatalogs.Construct`, `LegalMeans`, `ListingOrderIsIrrelevant`.
- Every committed set of enabled modules is closed under dependencies, over every interleaving:
  `ModuleChanges.ReadersSeeClosedSets`; every run is serial, `RunIsSerial`; `enable` gives the least closed set and `disable` undoes it.
- The router is an exact LRU alone, loses and doubles no pool among threads, and the one refines the other:
  `TenantRouting.CacheIsFreshEnd`, `SamePoolIffRecent`, `RouterThreads.EveryPoolInOnePlace`, `RouterRefinement.CallAloneIsServe`.
- Provisioning converges after any failure, never re-creates a recorded database, and ready means bound to the tenant:
  `ProvisioningConvergence.CompleteConverges`, `ProvisioningSafety.NeverRecreatedEmpty`, `ReadyMeansMine`. Under any faults a
  call ends ready with everything established, or failed with its revision kept: `ProvisioningFaults.CompleteUnderFaults`.
- Whatever provisioning calls and router threads interleave, a caller asking for a tenant gets a live pool on a database
  that tenant owns: `TenantAccess.CallReachesOwnDatabase`.
- Paging refines reading the table, also while rows are inserted: `CompanyPages.WalkFromTheStart`, `InitialRowsExactlyOnce`.

## Where a promise needs a condition

- `complete` is documented as safe to re-run. It makes the tenant ready exactly when the state is recoverable
  (`ProvisioningRecovery.CompleteRecovers`): the server is known, and the database is either there, not ahead of this
  release and not bound to another tenant, or absent with no revision recorded. From every state that the calls can
  leave behind without a lost database this holds (`ProvisioningConvergence.CompleteConverges`).
  A `complete` refused because the database belongs to another tenant has by then granted it to the runtime roles and
  migrated it; the lemma says so.
- A new database admits everyone until the first statement of the grants has run. A `complete` that stops in between
  leaves it so (`ProvisioningFaults.CreatedButNotClosed`) until the next one closes it.
- `upgrade_all` promises that failures don't stop others. A failing upgrade does not; but the outcome is recorded outside
  the try block, and when that raises the round ends there, without outcomes (`UpgradeRounds.RecordingCanStopTheRound`).
  A ready tenant is visited exactly when no recording before it raises (`UpgradeRounds.VisitedIffReached`).
- A row inserted while a client is paging is returned exactly when its id lies beyond the cursor of the first
  request that could see it (`CompanyPages.InsertedRowReturnedIff`); rows present at the start are always returned once.
- The cycle error names more than the cycle: it lists exactly the keys on a cycle or leading into one
  (`ModuleCatalogs.TopologicalOrder`).

## Model

| member | source | states |
|---|---|---|
| `ModuleCatalogs.ValidateDependencies` | backend/src/erp/core/modules.py:65-74 | the first defect in declaration order, None if there is none; `ModuleCatalogs.AllSoundMeans` and `ErrorsAreTrue` say what a defect is in terms of the manifests alone |
| `ModuleCatalogs.FindDefect` | backend/src/erp/core/modules.py:33-34 | None exactly when all manifests are sound; otherwise the error of the first unsound manifest in listing order |
| `ModuleCatalogs.Fill` | backend/src/erp/core/modules.py:28-32 | succeeds exactly if no key is listed twice, and then maps each key to its manifest; otherwise the error names a key listed twice |
| `ModuleCatalogs.AllSoundMeans` | backend/src/erp/core/modules.py:65-74 | the per-dependency checks pass exactly if each declared dependency is the key of a listed manifest, a core one if the declaring module is core |
| `ModuleCatalogs.ErrorsAreTrue` | backend/src/erp/core/modules.py:27-88 | each error tells the truth about the manifests: a repeated key; a declared dependency no manifest has; a core module declaring an optional one; a round trip along declared dependencies |
| `ModuleCatalogs.RepeatWins` | backend/src/erp/core/modules.py:29-32 | the duplicate error names the first key that repeats, and any other error means that no key repeats |
| `ModuleCatalogs.UnmetWins` | backend/src/erp/core/modules.py:33-34 | a dependency error names the first unmet dependency of the first manifest that has one |
| `ModuleCatalogs.CycleComesLast` | backend/src/erp/core/modules.py:35 | the cycle error is raised only when every dependency is met |
| `ModuleCatalogs.TakeReady` | backend/src/erp/core/modules.py:83-87 | one round appends the ready keys, strikes them from the keys and from every remaining dependency set, and leaves strictly fewer keys |
| `ModuleCatalogs.RoundAdvances` | backend/src/erp/core/modules.py:79-87 | after n rounds the unsorted keys are exactly those from which a dependency chain of n edges starts, and the sorted ones stand by chain length, then key |
| `ModuleCatalogs.StuckMeansCycle` | backend/src/erp/core/modules.py:81-82 | if no remaining key is ready, the relation has a cycle, and the remaining keys are exactly those on a cycle or leading into one |
| `ModuleCatalogs.TopologicalOrder` | backend/src/erp/core/modules.py:76-88 | fails exactly when the relation has a cycle, naming the sorted keys on or leading into a cycle; otherwise returns the listing by longest dependency chain, then key |
| `KeyOrder.KeyLessMeans` | backend/src/erp/core/modules.py:80 | the order of keys is the dictionary order: a proper prefix first, otherwise the smaller character at the first difference |
| `ModuleCatalogs.Construct` | backend/src/erp/core/modules.py:27-35 | succeeds exactly on legal manifests with the canonical catalogue; otherwise raises the error of the earliest check that fails |
| `ModuleCatalogs.LegalMeans` | backend/src/erp/core/modules.py:27-35 | the manifests the constructor accepts are those with distinct keys, every dependency met and no round trip along declared dependencies |
| `ModuleCatalogs.ListingOrderIsIrrelevant` | backend/src/erp/core/modules.py:27-35 | any permutation of the manifests is legal or not alike and installs the same modules, so the catalogue and its order are the same |
| `DependencyGraph.LongChainMeetsCycle` | backend/src/erp/core/modules.py:81-82 | pigeonhole: a chain with as many edges as there are keys revisits a key, so it leads into a cycle |
| `DependencyGraph.DependenciesComeFirst` | backend/src/erp/core/modules.py:76-88 | in the enable order every key stands after everything it reaches, directly or not |
| `ModuleCatalogs.Dependencies` | backend/src/erp/core/modules.py:49-58 | the worklist ends and returns exactly the keys reachable over one or more edges, in enable order; an unknown key is an error |
| `ModuleCatalogs.Dependents` | backend/src/erp/core/modules.py:60-63 | exactly the keys that reach the given one, in enable order; an unknown key is an error |
| `ModuleCatalogs.DependentsAreConverse` | backend/src/erp/core/modules.py:49-63 | dependencies and dependents are converse relations, asymmetric, and never hold the key itself |
| `ModuleCatalogs.DependenciesAreOrdered` | backend/src/erp/core/modules.py:49-58 | the returned list holds each key once, each after everything it needs itself |
| `TenantModuleState.TenantModules.Require` | backend/src/erp/modules/platform/module_state.py:35-38 | no error exactly for enabled modules; a known disabled module and an unknown key raise different errors |
| `TenantModuleState.EnabledIs` | backend/src/erp/modules/platform/module_state.py:75-78 | a tenant can use a key exactly if it is installed and either core or stored as enabled for this tenant |
| `TenantModuleState.NoRowsMeansCore` | backend/src/erp/modules/platform/module_state.py:75-78 | a tenant without stored rows has exactly the core modules |
| `TenantModuleState.TenantModules.Enable` | backend/src/erp/modules/platform/module_state.py:40-60 | the result and the whole new table, error order included: unknown key, unknown tenant, missing dependencies without consent, else exactly the listed rows are switched on |
| `TenantModuleState.EnableRefusesIff` | backend/src/erp/modules/platform/module_state.py:50-55 | `enable` goes ahead exactly if the caller consents or everything the key reaches is enabled already; a refusal lists exactly the missing keys, in enable order |
| `TenantModuleState.TenantModules.Disable` | backend/src/erp/modules/platform/module_state.py:62-73 | the result and the whole new table: unknown key, core module, unknown tenant, blocking dependents, else the key alone is switched off if it was on |
| `TenantModuleState.DisableRefusesIff` | backend/src/erp/modules/platform/module_state.py:68-73 | `disable` of an optional key goes ahead exactly if no enabled key reaches it, and then switches off the key alone, if it was on; a refusal lists exactly the enabled keys that reach it, in enable order |
| `TenantModuleState.TenantModules.UpsertEach` | backend/src/erp/modules/platform/registry_repository.py:139-154 | the rows of one tenant written one by one, later writes to a key replacing earlier ones |
| `TenantModuleState.UpsertAllRows` | backend/src/erp/modules/platform/registry_repository.py:139-154 | row by row: the listed keys of that tenant have the flag written, every other row is as it was |
| `TenantModuleState.UpsertedEnabled` | backend/src/erp/modules/platform/module_state.py:75-78 | writing optional installed keys for one tenant changes what it can use by exactly those keys and nothing for any other tenant |
| `TenantModuleState.EnableAdds` | backend/src/erp/modules/platform/module_state.py:47-60 | an accepted `enable` adds the key and everything it reaches, and leaves other tenants as they were |
| `TenantModuleState.EnableGivesLeastClosure` | backend/src/erp/modules/platform/module_state.py:47-60 | the set after `enable` is the least dependency-closed set that holds the old set and the key |
| `TenantModuleState.EnableClosedAfterEachUpsert` | backend/src/erp/modules/platform/module_state.py:58-59 | the enabled set is closed after every single row that `enable` writes |
| `TenantModuleState.NewlyEnabledKeys` | backend/src/erp/modules/platform/module_state.py:51-57 | the returned list holds exactly the newly enabled keys, all optional, in enable order |
| `TenantModuleState.DisableAcceptedIffClosed` | backend/src/erp/modules/platform/module_state.py:68-73 | `disable` of an optional module is accepted exactly when what remains is closed |
| `TenantModuleState.DisableUndoesEnable` | backend/src/erp/modules/platform/module_state.py:40-73 | disabling the list `enable` returned, in reverse, is never refused and restores every tenant's enabled set |
| `TenantModuleState.DisableAllEndsAtCore` | backend/src/erp/modules/platform/module_state.py:62-78 | disabling all enabled optional modules in reverse catalogue order is never refused and ends at the core set |
| `ModuleChanges.CommitIsSequentialCall` | backend/src/erp/modules/platform/module_state.py:47-59 | each commit does to the latest committed rows what the same call alone would do to them: the call is accepted there and other tenants are untouched |
| `ModuleChanges.RunIsSerial` | backend/src/erp/modules/platform/module_state.py:40-84 | every interleaved run is equivalent to a serial one: the committed rows are the last of a chain in which each committed call, in commit order, is accepted and writes what it alone would write to the rows before it |
| `ModuleChanges.CommittedCallTookEffect` | backend/src/erp/modules/platform/module_state.py:40-73 | at its commit an `enable` has added its key and all it reaches to what its tenant can use, a `disable` has taken its key away, and no other tenant sees a change |
| `ModuleChanges.CallAloneIsARun` | backend/src/erp/modules/platform/module_state.py:40-73 | a call that would be accepted, for a known tenant whose lock is free, can run to its commit, and then the rows are those the sequential call writes |
| `ModuleChanges.NewTenantCanEnable` | backend/src/erp/modules/platform/module_state.py:40-60 | from any state a tenant can be registered and then given any installed module; it ends with the core modules, that one and all it needs, and no other tenant changes |
| `ModuleChanges.StopsAtAnyTime` | backend/src/erp/modules/platform/module_state.py:47-60 | an open call may end at any moment without having written a row |
| `ModuleChanges.RowsOfKnownTenants` | backend/src/erp/modules/platform/module_state.py:80-84 | only tenants that exist are ever locked, decided for or written rows for |
| `ModuleChanges.StepKeepsInvariant` | backend/src/erp/modules/platform/module_state.py:65-84 | every lock, read, decide, write, commit or rollback step keeps: committed sets closed, one lock holder a tenant, decisions still valid for the committed rows |
| `ModuleChanges.ReadersSeeClosedSets` | backend/src/erp/modules/platform/module_state.py:31-38 | in every reachable state a lock-free reader sees, for each enabled module, all its transitive dependencies and all core modules |
| `ModuleChanges.OwnWritesStayClosed` | backend/src/erp/modules/platform/module_state.py:57-59 | inside an open transaction the rows as its own statements see them are closed after each write |
| `TenantRouting.TenantDatabaseRouter.constructor` | backend/src/erp/modules/platform/tenant_db.py:31-46 | an empty cache with nothing built or disposed |
| `TenantRouting.TenantDatabaseRouter.ForTenant` | backend/src/erp/modules/platform/tenant_db.py:48-66 | on a hit the registry is not asked and nothing is built; on a miss the row decides: no row, a row that is not ready and an unknown server each give their own error and change nothing, otherwise one pool is built for this tenant at the place in its row; the pool returned stands at the fresh end; every pool stays accounted for |
| `Registry.PlacementIs` | backend/src/erp/modules/platform/tenant_db.py:85-92 | the four answers of a look-up, each exactly in terms of the row: absent, not ready, ready on an unknown server, ready on a known one, and then its own place |
| `TenantRouting.TenantDatabaseRouter.Trim` | backend/src/erp/modules/platform/tenant_db.py:63-65 | the eviction loop keeps exactly the `max_cached` freshest entries and disposes each pool it drops once |
| `TenantRouting.TenantDatabaseRouter.Evict` | backend/src/erp/modules/platform/tenant_db.py:72-76 | removes the tenant's entry alone and disposes its pool, if there was one |
| `TenantRouting.TenantDatabaseRouter.DisposeAll` | backend/src/erp/modules/platform/tenant_db.py:78-83 | empties the cache and disposes just the pools in it; every pool ever built has then been disposed exactly once |
| `TenantRouting.AccountedMeaning` | backend/src/erp/modules/platform/tenant_db.py:48-83 | each pool built is either cached or disposed, exactly once and never both; no other pool exists |
| `TenantRouting.CacheIsFreshEnd` | backend/src/erp/modules/platform/tenant_db.py:48-66 | after any run of successful calls the cached keys, in order, are the last `max_cached` distinct tenants by most recent call |
| `TenantRouting.CachedIffFewSince` | backend/src/erp/modules/platform/tenant_db.py:50-65 | a tenant is cached exactly when it was routed and fewer than `max_cached` other tenants were routed since |
| `TenantRouting.CacheInOrderOfUse` | backend/src/erp/modules/platform/tenant_db.py:52-65 | entries stand in order of last use, and there are min(tenants routed, `max_cached`) of them |
| `TenantRouting.SamePoolIffRecent` | backend/src/erp/modules/platform/tenant_db.py:48-66 | a repeated call returns the same pool exactly when fewer than `max_cached` distinct other tenants were routed in between |
| `RouterThreads.StepKeepsInvariant` | backend/src/erp/modules/platform/tenant_db.py:48-83 | every statement of every thread keeps: each pool in one place, one entry a tenant, a critical section only under the lock, a bounded cache when the lock is free |
| `RouterThreads.EveryPoolInOnePlace` | backend/src/erp/modules/platform/tenant_db.py:48-83 | in every interleaving each pool ever built is exactly once in flight, cached, removed awaiting disposal, or disposed |
| `RouterThreads.QuiescentMeansNoLeak` | backend/src/erp/modules/platform/tenant_db.py:63-83 | with no call under way, built minus disposed is exactly the cached pools, at most `max_cached` of them |
| `RouterThreads.ReturnedPoolIsLive` | backend/src/erp/modules/platform/tenant_db.py:50-66 | the pool a call returns is cached under the tenant asked for, and not disposed, at that moment, for hits, lost races and installs |
| `RouterThreads.ReturnedPoolIsOwn` | backend/src/erp/modules/platform/tenant_db.py:48-66 | in every interleaving a call for a tenant returns a pool built for that tenant, never another's |
| `RouterThreads.LockIsReleased` | backend/src/erp/modules/platform/tenant_db.py:57-65 | the lock holder is never stuck, each of its steps brings the release nearer, and no other thread's step postpones it |
| `RouterRefinement.CallAloneIsServe` | backend/src/erp/modules/platform/tenant_db.py:48-66 | from any reachable state with the lock free, the steps of one uninterrupted call end in the state of the sequential call, build a pool at the place found only on a miss, and return the entry at the fresh end |
| `RouterRefinement.FailedCallAlone` | backend/src/erp/modules/platform/tenant_db.py:50-54 | a call that misses and whose look-up raises ends with cache, pools and lock as they were |
| `RouterRefinement.EvictAlone` | backend/src/erp/modules/platform/tenant_db.py:72-76 | an uninterrupted `evict` ends in the state of the sequential one |
| `RouterRefinement.DisposeAllAlone` | backend/src/erp/modules/platform/tenant_db.py:78-83 | an uninterrupted `dispose_all` ends in the state of the sequential one |
| `OutboxTable.ClaimIsOldest` | backend/src/erp/modules/integration/repository.py:21-34 | whatever rows others hold locked, the listing's claim is what the query promises: undispatched, unlocked rows with attempts left, oldest first, at most a batch, and none older left out |
| `OutboxTable.ClaimByTime` | backend/src/erp/modules/integration/repository.py:21-34 | in the fields of the rows: claimed events are undispatched, unlocked and below the limit, stand by time and then id, and one left out means a full batch of earlier ones |
| `OutboxTable.ClaimedIffFewAhead` | backend/src/erp/modules/integration/repository.py:21-34 | an event is in any such claim exactly when it is claimable, not locked, and fewer than a batch of claimable, unlocked events stand ahead of it |
| `OutboxTable.PassEffect` | backend/src/erp/modules/integration/outbox.py:63-72 | a committed pass marks as many rows dispatched as calls were accepted and uses up at least one attempt for each claimed row |
| `OutboxTable.PassAt` | backend/src/erp/modules/integration/outbox.py:74-89 | row by row: claimable, unlocked rows within the batch get one attempt recorded, all others are unchanged |
| `OutboxProgress.RelayDrains` | backend/src/erp/modules/integration/outbox.py:63-72 | one relay alone: with no new events, after as many committed passes as attempts were left every row is dispatched or exhausted, and nothing changes any more |
| `OutboxProgress.PassesSpendBudget` | backend/src/erp/modules/integration/outbox.py:74-75 | one relay alone: each pass with a non-empty claim strictly lowers the sum of attempts left |
| `OutboxBudget.StepSpends` | backend/src/erp/modules/integration/outbox.py:63-89 | with any number of relays: no step but a business commit raises the sum of attempts left over committed rows, and a pass commit lowers it by at least the rows it claimed |
| `OutboxBudget.RelaysSpendBudget` | backend/src/erp/modules/integration/outbox.py:63-89 | with no new events, over any stretch of any run, lost passes and locked rows included, at most as many non-empty passes commit as there were attempts left |
| `OutboxBudget.CommitsAreBounded` | backend/src/erp/modules/integration/outbox.py:63-89 | over any whole run all relays together commit at most `max_attempts` non-empty passes for each committed event |
| `OutboxBudget.EmptyClaimMeansDrained` | backend/src/erp/modules/integration/outbox.py:63-72 | a claim that comes back empty with no pass open means every event is dispatched or exhausted, and stays so until new events are committed |
| `OutboxBudget.BudgetIsSum` | backend/src/erp/modules/integration/outbox.py:74-75 | the attempts left, summed over the ordered listing and over the table, are the same |
| `OutboxProgress.ClaimedNextIff` | backend/src/erp/modules/integration/repository.py:25-32 | in the ordered listing, with any rows locked: an event is in the next claim exactly when it is available and fewer than a batch of available rows stand ahead of it |
| `OutboxProgress.ClaimedWithinBound` | backend/src/erp/modules/integration/repository.py:21-34 | one relay alone, its passes all committing: with A attempts left ahead of it, a claimable event is claimed within floor(A / batch_size) + 1 passes, whatever the broker answers and whatever is committed behind it |
| `OutboxWait.StepKeepsWaiting` | backend/src/erp/modules/integration/repository.py:21-34 | with any number of relays: a claim that passes over a claimable, unlocked event is full of events ahead of it, and so is every pass begun while the event waits |
| `OutboxWait.CommitsWhileWaiting` | backend/src/erp/modules/integration/repository.py:21-34 | with any number of relays, lost passes and locked rows: if nothing is committed ahead of a claimable event that no pass holds, at most floor(A / batch_size) passes begun while it waits can commit |
| `OutboxWait.ClaimedOnceEnoughCommit` | backend/src/erp/modules/integration/repository.py:21-34 | hence once more passes begun since then have committed, one of the claims has taken the event |
| `OutboxRelays.OutboxRelay.Dispatch` | backend/src/erp/modules/integration/outbox.py:74-89 | one broker call; the attempt is counted whatever the answer, the dispatch mark is set exactly on acceptance and the error mark exactly on refusal, an old mark of either kind staying |
| `OutboxRelays.OutboxRelay.RunOnce` | backend/src/erp/modules/integration/outbox.py:63-72 | with any rows locked by others: every claimed event is offered once in claim order; on commit the table is exactly the pass's table and the count the accepted calls; a lost transaction leaves the table as it was, the calls standing |
| `OutboxRelays.FlushIsPass` | backend/src/erp/modules/integration/outbox.py:65-71 | writing the session's changed rows back by key gives the table that a pass over the ordered listing describes |
| `OutboxRelays.TenantOutboxRelay.Visit` | backend/src/erp/modules/integration/outbox.py:110-115 | a failing tenant is swallowed with its outbox unchanged; a committing one reports exactly its newly dispatched rows; either way the publish calls made are its claim in order and stand; other tenants are untouched |
| `OutboxRelays.TenantOutboxRelay.RunPass` | backend/src/erp/modules/integration/outbox.py:107-116 | each active tenant ends with its own committed pass or, if it failed, unchanged; the publish calls are those of each visit in turn, failed ones included; the total is the rows newly committed as dispatched |
| `OutboxRelays.ActiveIdsAre` | backend/src/erp/modules/platform/registry_repository.py:50-60 | the tenants visited are exactly those active and ready, by id |
| `OutboxRelays.DispatchedTotalIs` | backend/src/erp/modules/integration/outbox.py:107-116 | the total that a pass adds to counts the rows marked dispatched over the visited tenants, each once |
| `OutboxDelivery.SendStepKeeps` | backend/src/erp/modules/integration/outbox.py:36-89 | every enqueue, commit, rollback, claim, publish, pass commit or crash, by any number of relays, keeps the accounting of rows, passes and calls |
| `OutboxHistory.EnqueuedThenCommitted` | backend/src/erp/modules/integration/outbox.py:36-39 | in every interleaving an event enqueued in a transaction that later commits is a row from that commit on: the enqueued one, undispatched, with no attempts and no error, and never taken away again |
| `OutboxHistory.EnqueuedThenRolledBack` | backend/src/erp/modules/integration/outbox.py:30-39 | an event of a rolled-back transaction never becomes a row, is never offered to the broker and never reaches it |
| `OutboxHistory.RowWasEnqueuedAndCommitted` | backend/src/erp/modules/integration/outbox.py:30-39 | conversely every row of the outbox was enqueued by a transaction that stayed open until its commit |
| `OutboxHistory.EnqueueAndCommit` | backend/src/erp/modules/integration/outbox.py:36-39 | an event with a new id can be enqueued and committed at any moment, whatever relays and other transactions are doing, and is then the one row added |
| `OutboxHistory.LostAtAnyTime` | backend/src/erp/modules/integration/outbox.py:43-48 | a business transaction or a relay pass may be lost at any moment; committed rows and the calls made stay |
| `OutboxHistory.CallMayReachBroker` | backend/src/erp/modules/integration/outbox.py:82-88 | each publish call is for the next event its pass has claimed; an accepted one reaches the broker, one that raises may have |
| `EventInbox.ReceiveStepKeeps` | backend/src/erp/modules/integration/repository.py:43-57 | every consumer step, by any number of consumers, keeps one effect for each dedup record, committed and in flight |
| `EventInbox.ConsumerSession.ConsumeOnce` | backend/src/erp/modules/integration/outbox.py:125-136 | True exactly when the key was neither committed nor already claimed in this transaction, and then the key is claimed |
| `EventInbox.ConsumerSession.Deliver` | backend/src/erp/modules/integration/outbox.py:119-136 | a delivery in its own transaction: an already processed event changes nothing, a failing handler leaves no claim behind, otherwise one record and one effect are committed |
| `EventInbox.RetryMayProcess` | backend/src/erp/modules/integration/outbox.py:128-131 | after a handler's rollback the next transaction to claim the key does not wait and is answered True |
| `EndToEndDelivery.MessageMayBeConsumed` | backend/src/erp/modules/integration/outbox.py:119-136 | a message that has reached the broker can be taken by any consumer at any moment, unless another is at work on it, and then ends as one record and one effect, or, if the handler fails, as if nothing had happened |
| `EndToEndDelivery.ExactlyOnce` | backend/src/erp/modules/integration/outbox.py:119-136 | in every interleaving the committed effects of a (consumer, event) pair are 1 if its dedup row is committed and 0 otherwise, and exist only for events whose business transaction committed |
| `EndToEndDelivery.PublishedOnlyIfCommitted` | backend/src/erp/modules/integration/outbox.py:30-39 | a publish call is made only for an event of a committed business transaction, never for one still open or rolled back |
| `EndToEndDelivery.DeliveryAccounting` | backend/src/erp/modules/integration/outbox.py:63-89 | publish calls are the committed attempt count plus calls of lost and open passes; accepted ones are the dispatch mark plus those of lost and open passes; the error mark stands exactly if some committed attempt was refused; attempts never exceed the limit |
| `EndToEndDelivery.DispatchedIsDelivered` | backend/src/erp/modules/integration/outbox.py:42-48 | at least once: an event marked dispatched has reached the broker through an accepted call |
| `EndToEndDelivery.NoEventHeldTwice` | backend/src/erp/modules/integration/repository.py:25-32 | no event is ever held by two relays |
| `EndToEndDelivery.RowsOnlyAdvance` | backend/src/erp/modules/integration/outbox.py:74-89 | over any stretch of a run a committed row is kept, its attempts never fall, and once dispatched it never changes |
| `RelayRefinement.CommittedPassIsARun` | backend/src/erp/modules/integration/outbox.py:63-72 | whatever other passes are open: claim, publish calls in order and commit, as the relay's own code performs them, are steps of the protocol, make the same calls and end in the table that code computes |
| `RelayRefinement.LostPassIsARun` | backend/src/erp/modules/integration/outbox.py:43-48 | a pass lost after any number of its publish calls is a run of the protocol: those calls stand, the rows and the other passes are unchanged |
| `ProvisioningSafety.StepKeepsRunsSound` | backend/src/erp/modules/platform/provisioning.py:192-213 | every step keeps each call on its own tenant's database, creating only while no revision is recorded, and database names unique |
| `ProvisioningSafety.NeverRecreatedEmpty` | backend/src/erp/modules/platform/provisioning.py:199-205 | even with databases dropped at any moment: once a revision is recorded it stays recorded, and a database that is gone is never brought back by any later step |
| `ProvisioningSafety.NoCreateOnceRecorded` | backend/src/erp/modules/platform/provisioning.py:200-205 | once a revision is recorded for a tenant, no call of any tenant is ever about to create a database at its place |
| `ProvisioningSafety.RecordPersists` | backend/src/erp/modules/platform/registry_repository.py:62-76 | over any stretch of a run a tenant's row and place stay and its recorded revision never returns to none |
| `ProvisioningSafety.NewTenantRow` | backend/src/erp/modules/platform/provisioning.py:176-190 | registering adds one row: active, not ready, without revision or error, under a new id, all other rows as they were |
| `ProvisioningSafety.MayRegister` | backend/src/erp/modules/platform/provisioning.py:176-190 | a tenant can be registered whenever no row has its account number or its database name |
| `ProvisioningSafety.AtAnyTime` | backend/src/erp/modules/platform/provisioning.py:192-230 | a call may die at any operation, and a release may move the head forward under the calls at work |
| `ProvisioningSafety.UniqueThroughout` | backend/src/erp/modules/platform/registry_models.py:28-34 | in every run no two tenants share an account number or a database name |
| `ProvisioningSafety.ListedWasReady` | backend/src/erp/modules/platform/provisioning.py:215-220 | `upgrade_all` visits only tenants that were ready when it listed them, each at most once a listing |
| `ProvisioningSafety.StepKeepsReadyInvariant` | backend/src/erp/modules/platform/provisioning.py:192-230 | without drops every step keeps the truth of each recorded revision and of what each call has established so far |
| `ProvisioningSafety.ReadyMeansMine` | backend/src/erp/modules/platform/provisioning.py:206-230 | without drops a ready tenant's database exists, is bound to it and has reached the recorded revision, whatever stood on the servers at the start |
| `ProvisioningSafety.ReadyTenantsAreSeparate` | backend/src/erp/modules/platform/provisioning.py:83-93 | no two ready tenants share a physical database |
| `ProvisioningSafety.PlacementsAreOwn` | backend/src/erp/modules/platform/tenant_db.py:85-92 | in every run without drops, a placement the registry gives names a database owned by the tenant asked for |
| `ProvisioningSafety.FirstBindingStays` | backend/src/erp/modules/platform/provisioning.py:83-93 | without drops the first owner bound to a database is its owner for ever |
| `TenantAccess.StepKeepsInvariant` | backend/src/erp/modules/platform/tenant_db.py:48-66 | provisioning steps and router steps, in any order, keep every pool built and every placement read on a database bound to its own tenant |
| `TenantAccess.EveryPoolReachesItsTenant` | backend/src/erp/modules/platform/tenant_db.py:54-56 | without drops, in every interleaving of provisioning calls and router threads, every pool ever built connects to a database bound to the tenant it was built for, in every state from then on |
| `TenantAccess.CallReachesOwnDatabase` | backend/src/erp/modules/platform/tenant_db.py:48-66 | there, a call for a tenant, be it a hit, a miss or a lost race, returns a live pool built for that tenant whose database that tenant owns |
| `TenantAccess.RoutingIsFree` | backend/src/erp/modules/platform/tenant_db.py:85-92 | no provisioning call holds up a router thread: one that asks gets its placement whenever the row is ready on a known server |
| `TenantAccess.ProvisioningIsFree` | backend/src/erp/modules/platform/provisioning.py:192-230 | no router thread holds up a provisioning step |
| `ProvisioningCalls.DriveIsARun` | backend/src/erp/modules/platform/provisioning.py:192-213 | one call with any operations raising, before or after taking effect, recording included, is a run of the step system made of steps on that tenant only |
| `ProvisioningCalls.RecordingRaises` | backend/src/erp/modules/platform/provisioning.py:209-212 | if recording the outcome raises before taking effect, the call has done all its work on the server and the row is as it was; if after, the row too is as if it had not raised |
| `ProvisioningCalls.DriveIsLocal` | backend/src/erp/modules/platform/provisioning.py:192-230 | a call changes no other tenant's row, no other database and no other call |
| `ProvisioningCalls.DriveDependsOnOwn` | backend/src/erp/modules/platform/provisioning.py:192-230 | what a call does depends on its own row and database only |
| `ProvisioningRecovery.CompleteRecovers` | backend/src/erp/modules/platform/provisioning.py:192-213 | a failure-free `complete` ends ready exactly from recoverable states, in one explicit final state; otherwise the row records a failure with its revision kept, nothing is created, and what is left on the servers is stated exactly |
| `ProvisioningRecovery.CompleteIsIdempotent` | backend/src/erp/modules/platform/provisioning.py:192-213 | a second `complete` changes nothing |
| `ProvisioningRecovery.RetryAfterLostRecording` | backend/src/erp/modules/platform/provisioning.py:192-213 | a `complete` whose recording raised leaves everything but the row restored, and the next failure-free one restores the row |
| `ProvisioningRecovery.UpgradeEnds` | backend/src/erp/modules/platform/provisioning.py:220-229 | a failure-free visit ends ready at the head revision exactly when the database is there and not ahead; the owner is left alone |
| `ProvisioningFaults.FaultEndsTheCall` | backend/src/erp/modules/platform/provisioning.py:206-211 | the first operation that raises ends the call: its own effect stands if it took place, nothing more is done on the servers, and the row says failed with its revision kept |
| `ProvisioningFaults.UnmetFaults` | backend/src/erp/modules/platform/provisioning.py:192-213 | faults of operations a call does not get to make no difference |
| `ProvisioningFaults.CompleteUnderFaults` | backend/src/erp/modules/platform/provisioning.py:192-213 | for all faults but those of recording: `complete` ends ready exactly if the state was recoverable and no operation it got to raised; then the database is closed to PUBLIC, granted to every role, at the head and owned by the tenant; otherwise the row says failed and keeps its revision |
| `ProvisioningFaults.UpgradeUnderFaults` | backend/src/erp/modules/platform/provisioning.py:220-229 | likewise a visit of `upgrade_all`: ready at the head exactly if the database is there, not ahead, and no operation raised; otherwise failed with its revision kept |
| `ProvisioningFaults.LostDatabaseIsReported` | backend/src/erp/modules/platform/provisioning.py:199-211 | a database dropped after its revision was recorded is reported as a failure by every later `complete` that records its outcome; it is not re-created and nothing else on the servers changes |
| `ProvisioningFaults.CreatedButNotClosed` | backend/src/erp/modules/platform/provisioning.py:71-81 | a call that stops between creating the database and revoking leaves it open to PUBLIC, empty and unowned |
| `ProvisioningFaults.CompleteIsARun` | backend/src/erp/modules/platform/provisioning.py:192-213 | `complete` may be called for any tenant with no call at work on it, whatever its row says, and is a run of the step system |
| `ProvisioningFaults.UpgradeIsARun` | backend/src/erp/modules/platform/provisioning.py:215-230 | a visit to a listed tenant is a run of the step system, after which the tenant is off the list |
| `ProvisioningConvergence.CompleteConverges` | backend/src/erp/modules/platform/provisioning.py:176-213 | from any state the calls can leave behind, failed or killed at any operation, one failure-free `complete` ends with database granted, migrated and bound and the row ready without error; a second changes nothing |
| `TenantProvisioners.TenantProvisioner.Exists` | backend/src/erp/modules/platform/provisioning.py:66-69 | carries out the look of a call in the step system: the call goes on to grant, to create or to fail as the answer and the recorded revision say, and any answer given is true of the server |
| `TenantProvisioners.TenantProvisioner.Create` | backend/src/erp/modules/platform/provisioning.py:71-74 | the step system's create: fails on an existing database, may raise before or after taking effect |
| `TenantProvisioners.TenantProvisioner.EnsureExists` | backend/src/erp/modules/platform/provisioning.py:199-205 | a missing database is created only if no revision was ever recorded; a recorded one that is missing raises and nothing is created |
| `TenantProvisioners.TenantProvisioner.GrantConnect` | backend/src/erp/modules/platform/provisioning.py:76-81 | revoke and one grant a role, each statement taking effect on its own; stops at the first that raises |
| `TenantProvisioners.TenantProvisioner.Upgrade` | backend/src/erp/modules/platform/provisioning.py:118-125 | migrates in one piece to the head, then reads the revision back; refuses a missing database or one ahead of this release |
| `TenantProvisioners.TenantProvisioner.BindOwner` | backend/src/erp/modules/platform/provisioning.py:83-93 | inserts only if no binding exists and succeeds only if the binding is this tenant's |
| `TenantProvisioners.TenantProvisioner.Record` | backend/src/erp/modules/platform/provisioning.py:232-244 | carries out the last step of a call: its outcome in the row, unless recording raises, before or after taking effect |
| `Registry.RecordKeepsTheRest` | backend/src/erp/modules/platform/registry_repository.py:62-76 | other rows, the place, the account number and the tenant status are kept; status and error are set; a recorded revision changes only if a new one is given and never returns to none |
| `TenantProvisioners.TenantProvisioner.Complete` | backend/src/erp/modules/platform/provisioning.py:192-213 | unknown tenant changes nothing; otherwise the world after is that of the driven call for whatever faults occur, recording included, and the result is the revision the row now records, or an error if the call failed or its recording raised |
| `TenantProvisioners.CompleteAnswers` | backend/src/erp/modules/platform/provisioning.py:192-213 | `complete` answers with the head revision exactly if the state was recoverable, no operation it got to raised and recording did not; otherwise it raises |
| `TenantProvisioners.TenantProvisioner.Provision` | backend/src/erp/modules/platform/provisioning.py:176-190 | a taken account number or database name changes nothing; otherwise the new row stays even if completing it, or recording that, fails |
| `TenantProvisioners.TenantProvisioner.UpgradeAll` | backend/src/erp/modules/platform/provisioning.py:215-230 | visits the ready tenants in id order up to the first whose recording raises; reports outcomes exactly if none does, and then for each tenant what its row now records |
| `UpgradeRounds.RoundIsEachAlone` | backend/src/erp/modules/platform/provisioning.py:219-229 | a visited tenant's row and database end as if it had been the only one visited, whatever befalls the other visits |
| `UpgradeRounds.RoundLeavesOthers` | backend/src/erp/modules/platform/provisioning.py:217-220 | a tenant not visited keeps its row and its database |
| `UpgradeRounds.VisitedIffReached` | backend/src/erp/modules/platform/provisioning.py:220-229 | a ready tenant is visited exactly when no ready tenant before it, by id, meets a raising recording |
| `UpgradeRounds.RoundReaches` | backend/src/erp/modules/platform/provisioning.py:215-230 | for any faults: a reached tenant ends as after a visit of its own, one that is not reached is left as it was |
| `UpgradeRounds.RecordingCanStopTheRound` | backend/src/erp/modules/platform/provisioning.py:224-228 | a round in which recording the first outcome raises and the second tenant, which meets no fault, is not upgraded |
| `UpgradeRounds.UpgradeAllReaches` | backend/src/erp/modules/platform/provisioning.py:215-230 | a ready tenant that meets no fault and is reached is upgraded exactly when its database is there and not ahead, otherwise it ends failed with its revision kept; one that is not reached is unchanged |
| `CompanyPages.PageIsAStretch` | backend/src/erp/modules/platform/repository.py:21-29 | a page is the ordered stretch of the table from its cursor to the next; there is a next cursor exactly when more than `limit` rows were left, and then the page is full |
| `CompanyPages.WalkReadsTheTable` | backend/src/erp/modules/platform/repository.py:21-29 | from any cursor, following next_cursor concatenates to the rest of the table in id order |
| `CompanyPages.WalkFromTheStart` | backend/src/erp/modules/platform/repository.py:21-29 | from the start the walk yields every row in id order in the number of requests the next row bounds |
| `CompanyPages.RequestsForIsCeiling` | backend/src/erp/modules/platform/repository.py:21-29 | that number of requests is max(1, ceil(n / limit)) |
| `CompanyPages.PagesAscend` | backend/src/erp/modules/platform/repository.py:21-29 | rows on later pages have greater ids than rows on earlier ones, however the table changes in between, so none is returned twice |
| `CompanyPages.InitialRowsExactlyOnce` | backend/src/erp/modules/platform/repository.py:21-29 | with rows inserted and never deleted between requests, a walk that reaches a null cursor returns every row present at the start exactly once |
| `CompanyPages.InsertedRowReturnedIff` | backend/src/erp/modules/platform/repository.py:21-29 | such a walk returns a row inserted on the way exactly when its id lies beyond the cursor of the first request to see it |

## Left out

- Message contents, topics and tenant ids of events: an event is its id and its place in claim order; one tenant database is modelled at a time.
- Wall-clock values and error texts: a row is dispatched or not, has an error or not.
- The HTTP controllers, dependency wiring, command line, settings, health probes and authentication.
- Migration scripts, row-level security and grants as SQL: only their effect on the modelled rows and databases appears.
- Company rows other than by their id, and `CompanyRepository.add`: a page is a list of ids.
- Clients that delete rows between page requests: no duplicates and the order still hold (`CompanyPages.PagesAscend`), completeness is not claimed.
- The router's freshness while a tenant's database is moved: a `for_tenant` under way may install a placement read before the move, after the `evict`; placement is fixed within a call and agreement with the registry is claimed for cache misses only.
- Pools in use after their eviction: a caller may still hold a pool another thread disposes.
- Overlapping `complete` calls for one tenant, and catalogues that change between releases.
- The SQL connection steps inside one operation: each operation, recording included, may raise before or after its effect, and each grant statement is an operation of its own.
- PassesSpendBudget: speaks of one relay that finds no row locked; the statement for many relays is `OutboxBudget.RelaysSpendBudget`.
- RelayDrains: speaks of one relay that finds no row locked; for many relays `OutboxBudget.RelaysSpendBudget` bounds the passes and `OutboxBudget.EmptyClaimMeansDrained` says when they are done.
- ClaimedWithinBound: speaks of one relay whose passes commit and find no row locked; the statement for many relays is `OutboxWait.CommitsWhileWaiting`.
- A relay pass whose commit takes effect and then reports an error: the rows are those of a committed pass, but `run_pass` does not count them.
- `TenantModules.disable` returns nothing in the source; the model's result lists the key switched off, for the lemmas about undoing.
- `ModuleCatalog` is a value, not a class: nothing updates it after construction. Its fill loop, sort loop and worklist are methods with loops.
- A company page and the claim query are functions: each is one query over the committed rows.
- Which pass a lost claim's rows go to next: any later claim may take them, in the order of the query.
