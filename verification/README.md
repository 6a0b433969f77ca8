# CertVault, verified

A Dafny 4.11 model of the stateful parts of CertVault, with proofs. Verify it with
`dafny verify dfyconfig.toml`. The model takes the form of the code: objects with
mutable fields are classes, loops are loops, and each method is proved against a
specification whose own properties are the main results. Protocols with crashes,
several processes or several callers are state machines over their atomic steps.

| part | files |
|---|---|
| OIDC login state store: rate limits, single-use keys, sweep timer | `LoginBuckets`, `OidcStore`, `OidcLimits`, `OidcLifetime`, `OidcDecisions`, `OidcStateStore` |
| Issuance queue, worker, recovery and versions | `IssuanceTables`, `IssuanceProtocol`, `IssuanceSafety`, `IssuanceSteps`, `IssuanceResults`, `IssuanceInterruptions`, `IssuanceGaps`, `IssuanceManager`, `IssuanceCompletion`, `IssuanceSettling`, `DirectIssuance` |
| Bundle downloads and their cache | `BundleCache`, `BundleRequests` |
| DNS credentials through the process environment | `CredentialEnvironment` |
| Self-update of the client scripts | `ClientUpdater`, `ClientUpdateSafety`, `ClientUpdateProgress`, `ClientUpdateHazard`, `ClientDirectories` |
| Text search in the audit log | `AuditSearch` |
| Zones and configuration validation | `ZoneConfig` |
| Certificate chains and the drift test | `CertificateArtifacts`, `CodecWitness`, `ConfigurationDrift` |
| Shared: results, collections, strings | `Prelude`, `Text` |

## Assumptions

- Random login keys are never drawn twice and the clock does not run backwards; tokens and times are real numbers. The lifetime results also take the sweep timer to fire when due.
- One server runs per database and every transaction is atomic. The API requests manual issuance only (backend/api/certificate_handlers.go:69); scheduled jobs come from the worker's own reconciliation. Calls outside the model (the certificate authority, storage, cancellation) succeed or fail as the events or parameters say.
- The three reads behind a listing of certificates are one moment. Admissions, and a reconciliation of the configuration by a command in another process (backend/cli/api_key.go:237), can come between them. Terms and enabled state come from the first read only, so such a reconciliation is one that comes after the listing, and admission reads the enabled state again. A job admitted in between is seen or is not, and both are covered by what the listing is allowed to miss.
- A bundle's contents depend on its version row and its files only; version rows do not change.
- The constructor of a DNS provider reads the environment and does not change it.
- `flock` excludes as documented and is released when a process ends; a rename is atomic. The installer is not at work at the same time, and nobody edits the links or `next-check` by hand. An update and the synchronization that follows it are separate processes, which allows more interleavings than the launcher does.
- The PEM and X.509 libraries meet the laws of `CertificateArtifacts.Lawful`; `CodecWitness` shows that they can be met.
- Letters are folded in ASCII only, as SQLite's LIKE does; texts contain no NUL. SQLite refuses LIKE patterns longer than its limit (50,000 bytes by default), and the search text is not bounded; the results are about patterns within the limit.

## Where the code falls short of a promise

- The client documentation says that an interrupted update does not prevent synchronization. A HUP, INT or TERM that the updater handles after `mv` has switched `current` and before `candidate` is cleared makes the clean-up remove the new version. `CurrentAlwaysComplete` shows that this window is the only one, and `HazardIsReachable` that it is open from every installation.
- Setting up providers takes the wildcard off a domain twice. With a zone that is itself a wildcard and stands alone, a certificate is accepted whose provider is not found. `ProviderFoundIff` gives the exact condition for a domain, `ProvidersFoundIff` for the zones.
- An issuance that fails after cancellation is marked as interrupted. The cancellation is read before the outcome is written (backend/service/manager.go:203-207), so one that comes in between is missed. `CancelledJobFailsMarked` shows that this is the only way, `CancellationCanBeMissed` is such a run.
- A certificate is checked to be enabled once, before the order is prepared (backend/service/manager.go:229-246). If it is disabled in between, the order still starts; no version is added. `DisabledIsNotOrderedIff` shows that this is the only way, `OrderCanOutrunDisabling` is such a run.
- `Manager.Issue` (no caller in the server) writes its outcome whatever the row's status is. `DirectIssuesMoveForwardIff` shows that jobs beside it only move forward if and only if no recovery comes while it is under way and is then overwritten; `RecoveryCanOvertake` is such a run. The queue bound and at most one version per job need no condition; quarantine holds beside considerate callers, and `DirectCallersCanBreakQuarantine` is a run with another.

## Model

| member | source | states |
|---|---|---|
| `LoginBuckets.RefillsCompose` | backend/api/auth/oidc_state_store.go:32-41 | Refilling a bucket at one time and again later gives the bucket that one refill at the later time gives. |
| `LoginBuckets.RefillIsSound` | backend/api/auth/oidc_state_store.go:32-41 | A refill keeps tokens between zero and the burst and takes none away. |
| `LoginBuckets.CreditGrowsAtRate` | backend/api/auth/oidc_state_store.go:32-41 | Waiting adds at most the rate times the time waited. |
| `LoginBuckets.IdleMinuteRefillsBurst` | backend/api/auth/oidc_state_store.go:151-155 | A client idle for 60 seconds has exactly the bucket of a client never seen: 60 times 8/60 is the burst. |
| `LoginBuckets.ShorterIdleIsVisible` | backend/api/auth/oidc_state_store.go:151-155 | With any shorter idle time an emptied client would gain tokens by being forgotten. |
| `OidcStore.StepKeepsInv` | backend/api/auth/oidc_state_store.go:55-175 | Every operation keeps the caps, sound buckets, and a sweep armed whenever anything is held. |
| `OidcStore.RunKeepsInv` | backend/api/auth/oidc_state_store.go:55-175 | The invariant over every run with a non-decreasing clock and keys never drawn twice. |
| `OidcStore.ReachableInv` | backend/api/auth/oidc_state_store.go:43-53 | From the empty store: at most 1,024 flows, 16 per peer, 1,024 tracked clients, and an armed timer unless empty or closed. |
| `OidcLimits.StepSpendsCredit` | backend/api/auth/oidc_state_store.go:65-93 | Right after a step the credit of a peer, or of all, has dropped by one exactly for an admission in scope; a sweep never raises it. |
| `OidcLimits.CreditPaysForAdmissions` | backend/api/auth/oidc_state_store.go:55-100 | Admissions until the end of a window are paid for by the credit at hand plus what the rate adds. |
| `OidcLimits.WindowBound` | backend/api/auth/oidc_state_store.go:55-160 | For any window in any run, admissions are at most the burst plus rate times length, although peer buckets are deleted and recreated. |
| `OidcLimits.PeerWindowBound` | backend/api/auth/oidc_state_store.go:15-16 | One peer: at most 8 + 8T/60 admissions in any T seconds. |
| `OidcLimits.GlobalWindowBound` | backend/api/auth/oidc_state_store.go:17-19 | All peers: at most 32 + 8T admissions in any T seconds. |
| `OidcLimits.SimilarStoresAnswerAlike` | backend/api/auth/oidc_state_store.go:55-160 | A store that forgets idle clients and one that never does, once similar, answer alike for ever. |
| `OidcLimits.ForgettingIsUnobservable` | backend/api/auth/oidc_state_store.go:70-78 | Over every run every answer equals that of a store without forgetting and without the cap on clients, except for the logins that cap turns away. |
| `OidcLifetime.FlowLifetime` | backend/api/auth/oidc_state_store.go:96-98 | With a punctual timer every stored flow is younger than 660 seconds at every moment, and an open store that holds anything has a sweep due within a minute. |
| `OidcLifetime.IdleStoreDrains` | backend/api/auth/oidc_state_store.go:135-160 | From every reachable open store, eleven timer firings without requests leave empty maps and no timer. |
| `OidcLifetime.KeyIsSingleUse` | backend/api/auth/oidc_state_store.go:112-124 | In every run a key is redeemed at most once. |
| `OidcLifetime.FlowsAreIssued` | backend/api/auth/oidc_state_store.go:80-93 | Every stored flow is as it was issued, under the key it was issued with. |
| `OidcLifetime.RedemptionMatchesIssue` | backend/api/auth/oidc_state_store.go:112-124 | A redeemed key was issued; the browser token shown is the one issued; the state returned is the one issued, expired exactly from ten minutes on. |
| `OidcDecisions.CreditIsLeast` | backend/api/auth/oidc_state_store.go:32-41 | The tokens at hand are the least that any window ending now leaves of the bound, and some window leaves exactly them. |
| `OidcDecisions.LoginAdmittedIff` | backend/api/auth/oidc_state_store.go:55-101 | After any run a login is admitted if and only if the store was never closed, fewer than 1,024 logins and 16 of the peer are pending, the peer is tracked or fewer than 1,024 are, and no window ending now is exhausted for the peer (8 and 8 a minute) or for all (32 and 8 a second). |
| `OidcDecisions.FlowsArePending` | backend/api/auth/oidc_state_store.go:80-160 | The stored flows are exactly the logins of the history that nothing has ended, with the values issued. |
| `OidcDecisions.KeyRedeemedIff` | backend/api/auth/oidc_state_store.go:112-124 | A key is redeemed if and only if the token shown is the one issued with it and, since the login, it was not redeemed, discarded, closed or swept ten minutes later or more; expired exactly from ten minutes on. |
| `OidcDecisions.TrackedIff` | backend/api/auth/oidc_state_store.go:78-160 | A peer is tracked if and only if it was admitted with no close since and no sweep a minute later or more. |
| `OidcStateStores.OidcStateStore.constructor` | backend/api/auth/oidc_state_store.go:45-53 | The zero store is the empty store. |
| `OidcStateStores.OidcStateStore.Reserve` | backend/api/auth/oidc_state_store.go:55-101 | In place: new maps, buckets and timer are those of the operation; `counts` stays the tally of flows per peer. |
| `OidcStateStores.OidcStateStore.Remove` | backend/api/auth/oidc_state_store.go:103-110 | Removes one flow; `counts` stays exact with no zero entry. |
| `OidcStateStores.OidcStateStore.Take` | backend/api/auth/oidc_state_store.go:112-124 | Redeems a key, or leaves the store alone. |
| `OidcStateStores.OidcStateStore.Discard` | backend/api/auth/oidc_state_store.go:126-133 | Afterwards the flow is gone; every other flow, every bucket and the timer are as before. |
| `OidcStateStores.OidcStateStore.Sweep` | backend/api/auth/oidc_state_store.go:135-160 | Whatever the order of the maps, removes exactly the expired flows and idle clients and re-arms the timer exactly if anything is left. |
| `OidcStateStores.OidcStateStore.Close` | backend/api/auth/oidc_state_store.go:162-175 | Empties the store for good. |
| `OidcStateStores.TallyCounts` | backend/api/auth/oidc_state_store.go:59 | A peer's entry in `counts` is the number of its flows; no entry means none. |
| `OidcStateStores.TallyRemoved` | backend/api/auth/oidc_state_store.go:103-110 | Decrementing and dropping a zero keeps the tally exact. |
| `IssuanceSafety.AdmitContract` | backend/database/repository/job_repository.go:43-85 | Not found exactly for certificates not enabled; the pending job if there is one, even when the queue is full; refused exactly when 64 are pending; otherwise one new row. |
| `IssuanceSafety.AppendKeepsJobs` | backend/database/repository/job_repository.go:55-80 | A new job keeps at most one pending per certificate, at most 64 in all, and quarantine. |
| `IssuanceSafety.ConsiderKeepsWorker` | backend/service/manager.go:157-183 | Enqueueing from a listing made earlier keeps the invariant, whatever API requests were admitted since. |
| `IssuanceSafety.StepKeepsWorker` | backend/service/manager.go:57-117 | Every step keeps the worker invariant and moves the job table only forward. |
| `IssuanceResults.StepKeepsSystem` | backend/service/manager.go:57-267 | Every step keeps the agreement of jobs and versions too. |
| `IssuanceResults.AtMostOnceIssuance` | backend/service/manager.go:246-249 | Over every run with crashes, failed finishes and restarts: no job is claimed twice, no ACME order is started twice for a job, ids are claimed in increasing order. |
| `IssuanceResults.JobsOnlyMoveForward` | backend/database/repository/job_repository.go:135-182 | Between any two moments no job leaves succeeded or failed, none goes from running to queued, finished rows do not change. |
| `IssuanceResults.InterruptedIsQuarantined` | backend/service/manager.go:163-165 | The job that directly follows an interrupted job of the same certificate is never a scheduled one. |
| `IssuanceResults.QueueIsBounded` | backend/database/repository/job_repository.go:30-71 | At most 64 pending jobs, at most one per certificate, in every reachable state. |
| `IssuanceResults.FirstInFirstOut` | backend/database/repository/job_repository.go:112-121 | While a job waits, claims made plus queued jobs ahead is constant: nothing overtakes it. |
| `IssuanceResults.JobsAndVersionsAgree` | backend/service/manager.go:199-267 | A succeeded job added exactly one version, of its certificate; a queued one or one failed without the interrupted prefix added none; no job added two. |
| `IssuanceResults.FailedRenewalKeepsVersion` | backend/database/repository/certificate_repository.go:217-233 | If every job not finished before ends queued or plainly failed, the current version is unchanged. |
| `IssuanceResults.DisabledIsLeftAlone` | backend/service/manager.go:225-265 | From the moment a certificate is not enabled until definitions are loaded that enable it, no run admits a job, adds a version or starts an order for it, jobs queued or under way included; the one exception is the order of a job whose check came before. |
| `IssuanceResults.DisabledIsNotOrderedIff` | backend/service/manager.go:229-246 | Such a certificate gets no order in any run that follows if and only if the worker was not between its check and its order. |
| `IssuanceGaps.OrderCanOutrunDisabling` | backend/service/manager.go:229-246 | A run reaches that moment: the certificate is disabled and its order is about to start. |
| `IssuanceSteps.StepMoves` | backend/database/repository/job_repository.go:109-182 | All that a step can do: a row stays, is claimed, is interrupted by recovery or gets the outcome settled by the worker at work on it; orders and versions come from the active job, whose certificate is enabled when it is checked and when its version is added. |
| `IssuanceInterruptions.StepAbandons` | backend/database/repository/job_repository.go:135-141 | A running job that the worker is not at work on stays so until recovery marks it; nothing is done for it, and a marked job stays marked. |
| `IssuanceInterruptions.CrashedJobIsInterrupted` | backend/service/manager.go:57-75 | A job running at a crash is never claimed, ordered or given a version again, whatever follows, and is failed and marked as interrupted from the first recovery on. |
| `IssuanceInterruptions.CancelledJobFailsMarked` | backend/service/manager.go:202-210 | A job running when the worker is cancelled can never end as a failure without the mark, whatever follows, if and only if its outcome was not already settled as an unmarked failure. |
| `IssuanceGaps.CancellationCanBeMissed` | backend/service/manager.go:202-210 | A run reaches that moment, and the failure is then written without the mark. |
| `IssuanceInterruptions.InterruptedWaitsForCaller` | backend/service/manager.go:163-165 | The next job of a certificate whose job ran at a crash is never a scheduled one. |
| `IssuanceResults.HealthIsExplained` | backend/database/repository/certificate_repository.go:293-299 | In every reachable state a certificate shown as valid has a version, and a shown error is that of one of its failed jobs. |
| `DirectIssuance.FinishMovesForwardIff` | backend/database/repository/job_repository.go:143-182 | Writing an outcome moves the table forward exactly if the row is pending or already has that outcome. |
| `DirectIssuance.MoveKeepsShared` | backend/service/manager.go:186-197 | Beside the server and other direct callers, the row of a direct issuance runs unless a recovery failed it; a move goes backward exactly if it records another outcome after that. |
| `DirectIssuance.DirectIssuesMoveForwardIff` | backend/service/manager.go:186-209 | Over every run with any number of direct issuances, jobs only move forward if and only if no direct issuance records its outcome after a recovery that came while it was under way. |
| `DirectIssuance.RecoveryCanOvertake` | backend/service/manager.go:186-197 | A run in which that happens: a failed job becomes succeeded. |
| `DirectIssuance.DirectIssuesKeepBounds` | backend/database/repository/job_repository.go:43-99 | Beside any direct issuances, over every run: at most 64 pending jobs, at most one per certificate, and no job added two versions. |
| `DirectIssuance.ConsiderateCallersKeepQuarantine` | backend/service/manager.go:163-197 | Quarantine holds over every run if direct callers ask for no scheduled job after an interrupted one and mark none of theirs as interrupted behind a reconciliation that has listed it otherwise. |
| `DirectIssuance.DirectCallersCanBreakQuarantine` | backend/service/manager.go:186-197 | A run in which a direct caller is given a scheduled job after an interrupted one. |
| `IssuanceManagers.Database.Admit` | backend/database/repository/job_repository.go:43-85 | The transaction: result and new table are those of admission. |
| `IssuanceManagers.Database.Start` | backend/database/repository/job_repository.go:88-99 | Only a newly created running job is returned. |
| `IssuanceManagers.Database.Claim` | backend/database/repository/job_repository.go:109-133 | The transaction of a claim. |
| `IssuanceManagers.Database.RecoverInterrupted` | backend/database/repository/job_repository.go:137-141 | Every running row becomes failed and interrupted, all others stay. |
| `IssuanceManagers.Database.Finish` | backend/database/repository/job_repository.go:143-182 | Writes the outcome to the job, and a failure to its certificate. |
| `IssuanceManagers.Database.AddVersion` | backend/database/repository/certificate_repository.go:265-301 | Appends the version and marks the certificate valid, or does nothing when it is not enabled. |
| `IssuanceManagers.Database.Reconcile` | backend/database/repository/certificate_repository.go:17-69 | The upsert loop and the disabling statement together give the configured table. |
| `IssuanceManagers.Database.LatestJobs` | backend/database/repository/certificate_repository.go:175-206 | Maps each certificate to its job with the highest id. |
| `IssuanceManagers.Database.CurrentVersions` | backend/database/repository/certificate_repository.go:107-141 | Maps each certificate to its newest version. |
| `IssuanceManagers.Database.List` | backend/database/repository/certificate_repository.go:71-105 | Lists exactly the enabled certificates, each with its terms, its latest job and its current version. |
| `IssuanceManagers.Manager.Enqueue` | backend/service/manager.go:134-148 | Accepts exactly the three kinds for a configured and enabled certificate, and admits those as the transaction does. |
| `IssuanceManagers.Manager.Reconcile` | backend/service/manager.go:150-184 | The loop, with the window and drift decision taken for each listed certificate, is a run of the protocol's listing and considering steps. |
| `IssuanceManagers.Manager.Visit` | backend/service/manager.go:157-183 | One turn of the loop is one considering step. |
| `IssuanceManagers.Manager.Issue` | backend/service/manager.go:199-267 | One issuance with its deferred finish is a run of the protocol's steps. It succeeds exactly if the kind is one of three, the certificate is configured, enabled and enabled in the database, no call fails and the outcome is written; then its version is added and the row succeeded, else the row failed and no version is added. |
| `IssuanceManagers.Manager.Attempt` | backend/service/manager.go:225-266 | The body up to the deferred finish adds the version exactly under those conditions and otherwise no version; it stops at the first failing call. |
| `IssuanceCompletion.IssuedIff` | backend/service/manager.go:199-267 | Exactly when a claimed job gets its order, its version and success, by kind, configuration, database and failing calls; every other row stays. |
| `IssuanceCompletion.HealthFollowsIssue` | backend/database/repository/certificate_repository.go:293-299 | Adding the version makes the certificate valid; a recorded failure makes it show the error of its job. |
| `IssuanceCompletion.QueueHeadIsIssued` | backend/service/manager.go:96-106 | A ready worker serves the first queued job next: one order, one version, success, if nothing fails. |
| `IssuanceCompletion.StartUpLeadsToReady` | backend/service/manager.go:57-80 | A server that starts loads the configuration, marks exactly what was running, reconciles, and is ready to claim. |
| `IssuanceCompletion.TickReconciles` | backend/service/manager.go:80-116 | At every tick a ready worker reconciles and is ready again. |
| `IssuanceCompletion.RequestIsQueued` | backend/database/repository/job_repository.go:43-85 | A request for a configured and enabled certificate with no job pending is queued while fewer than 64 are pending, whatever the worker is doing. |
| `IssuanceSettling.ReconcileSchedulesWhatIsDue` | backend/service/manager.go:157-183 | A reconciliation adds scheduled jobs exactly for listed certificates that are automatic, not interrupted, and without version, inside the window, with other names or known to have another key type; each of them that is enabled then has a pending job, unless the queue is full. |
| `IssuanceSettling.SuitableIsDueInWindow` | backend/service/manager.go:167-176 | A version that is what is asked for is due exactly inside its renewal window, also when its file cannot be read. |
| `IssuanceSettling.StepStaysSettled` | backend/service/manager.go:150-184 | No step schedules a settled certificate before its window or unsettles it, unless its terms change or a newer version is added. |
| `IssuanceSettling.IssuedCertificateSettles` | backend/service/manager.go:418-430 | Once a certificate with the names and key type asked for is saved as the newest, no run schedules it again before its renewal window, while its terms stay and no newer version is added. |
| `IssuanceSettling.RenewedExactlyInWindow` | backend/service/manager.go:167-182 | A reconciliation gives a settled certificate a job only inside its window, and inside it does so if it is automatic, enabled and not interrupted and the queue is not full. |
| `BundleCaches.BundleCache.Get` | backend/api/bundle.go:31-63 | Search, move, build, evict and append in place do what the lookup specifies; eviction never indexes an empty list; `size` stays the sum of the lengths. |
| `BundleCaches.GetIsTransparent` | backend/api/bundle.go:35-63 | One request returns what building would return and keeps every entry faithful. |
| `BundleCaches.EvictIsFit` | backend/api/bundle.go:53-57 | Evicting leaves the longest suffix that fits together with the new entry. |
| `BundleCaches.FitAfterHit` | backend/api/bundle.go:35-41 | Moving a held key to the end keeps the longest-fit form. |
| `BundleCaches.FitAfterMiss` | backend/api/bundle.go:53-60 | Adding a key keeps the longest-fit form, also when it had been evicted before. |
| `BundleCaches.ServeKeepsFit` | backend/api/bundle.go:31-63 | After any requests the keys held are the longest fitting suffix of the recency order. |
| `BundleCaches.CacheIsTransparent` | backend/api/bundle.go:31-63 | After any requests a request gets what building its key yields, errors and oversized bundles included. |
| `BundleCaches.CacheHoldsLongestFit` | backend/api/bundle.go:24-29 | Keys distinct, size the sum of lengths and at most 8 MiB, entries exactly the longest fitting suffix of the recency order. |
| `BundleCaches.RecencyIff` | backend/api/bundle.go:35-60 | The recency order has exactly the requested keys whose bundle can be built and is at most 8 MiB large, in the order of their last requests. |
| `BundleRequests.KeyIsInjective` | backend/api/bundle.go:95 | Keys are equal exactly for the same version row and the same files, given that row ids are unique. |
| `BundleRequests.KeyIgnoresFileOrder` | backend/api/bundle.go:71-72 | The order in which files are requested does not change the key. |
| `BundleRequests.CheckFiles` | backend/api/bundle.go:71-87 | Accepts exactly distinct, supported, allowed files, and returns them sorted. |
| `BundleRequests.SortedIsSelectable` | backend/api/bundle.go:78 | Comparing neighbours of the sorted list finds every duplicate. |
| `BundleRequests.ArchiveOf` | backend/api/bundle.go:124-142 | Succeeds exactly if every file can be read; entries are in order and only the private key has mode 0600. |
| `BundleRequests.BuildBundle` | backend/api/bundle.go:119-155 | Succeeds exactly if every file can be read, and then packs an archive of exactly the files with their contents and modes; else the error is that of the first file that cannot be read. |
| `BundleRequests.Download` | backend/api/bundle.go:65-117 | Each response comes under its exact condition. After any earlier requests a bundle that is served packs the archive of its own version and sorted files; refusals leave the cache alone. |
| `BundleRequests.DownloadsAreFresh` | backend/api/bundle.go:94-106 | Whatever was downloaded before, a download gets the bundle of its own version and files. |
| `CredentialEnvironment.SortedKeys` | backend/service/mux_provider.go:69-74 | The keys, each once, in order. |
| `CredentialEnvironment.NotYetAssigned` | backend/service/mux_provider.go:76-84 | When a key is reached neither it nor its file variable has been written, so its check reads the initial environment. |
| `CredentialEnvironment.AssignNext` | backend/service/mux_provider.go:86-94 | One key changes the assignment of its target only; a file variable overrides the literal. |
| `CredentialEnvironment.Apply` | backend/service/mux_provider.go:76-109 | One iteration: its failure is the key's verdict against the initial environment; otherwise it sets its target; either way everything stays restorable. |
| `CredentialEnvironment.SetUp` | backend/service/mux_provider.go:69-109 | Succeeds exactly if nothing is wrong with any key, and then the environment is the closed form; otherwise it fails with the first failing key in sorted order. |
| `CredentialEnvironment.Restore` | backend/service/mux_provider.go:54-67 | In any order of the saved variables the initial environment is back and no restoration fails. |
| `CredentialEnvironment.WithCredentialEnvironment` | backend/service/mux_provider.go:49-112 | On every exit the environment is as before; the constructor runs exactly if every key is inherited, readable or acceptable as above, in the environment of the closed form; else the failure is that of the first failing key in sorted order. |
| `CredentialEnvironment.ClosedForm` | backend/service/mux_provider.go:86-94 | A variable is the trimmed contents of its file if given, else its literal if given, else its initial value. |
| `CredentialEnvironment.AllPassIff` | backend/service/mux_provider.go:76-108 | Nothing is wrong exactly if every empty key is in the initial environment, every other file key names a readable file with acceptable contents and target, and every other key and value is acceptable. |
| `CredentialEnvironment.FailureIff` | backend/service/mux_provider.go:76-108 | Exactly when a key is missing, unreadable or unsettable. |
| `ClientUpdateSafety.StepKeepsInv` | web/client/update.sh:16-110 | Every step of every process, failing command and hard stop keeps the invariant on files, links and locks, except the one hazard. |
| `ClientUpdateSafety.StageKeepsInv` | web/client/update.sh:73-80 | Staging touches only a fresh directory that no link names. |
| `ClientUpdateSafety.SwitchKeepsInv` | web/client/update.sh:92-102 | Switching and pruning keep both links on complete directories. |
| `ClientUpdateSafety.HazardBreaksCurrent` | web/client/update.sh:32-38 | A trapped signal handled right after the switch removes the directory that `current` names. |
| `ClientUpdateSafety.CurrentAlwaysComplete` | web/client/update.sh:92-93 | `current` names a complete version at every moment of a run if and only if no trapped signal is handled between these lines. |
| `ClientUpdateSafety.SyncKeepsItsDirectory` | web/client/launcher.sh:16-19 | A synchronization stays in the directory it entered, which stays current and complete while it runs. |
| `ClientUpdateSafety.LockHoldersProceed` | web/client/update.sh:86-88 | A synchronization with the lock finds its script, and an updater with the lock a version name. |
| `ClientUpdateSafety.CompletedUpdateLeavesTwo` | web/client/update.sh:84-102 | A completed update leaves exactly two version directories, both complete: the current one, and as `previous` the one that `current` named until it last changed. |
| `ClientUpdateHazard.HazardIsReachable` | web/client/update.sh:32-38 | From every installation, if the server offers another revision, a run ends in the window and leaves `current` without its scripts. |
| `ClientUpdateSafety.ChecksAreSpaced` | web/client/update.sh:19-27 | Two checks of the server are at least an hour apart, a day if the earlier one completed, over every run. |
| `ClientUpdateProgress.NewRevisionGetsInstalled` | web/client/update.sh:16-110 | An undisturbed check that is due and finds another revision leaves it current and complete, the former version as previous, no other directory, and the next check due in a day. |
| `ClientUpdateProgress.InstalledRevisionStays` | web/client/update.sh:40-65 | A check that finds the installed revision changes nothing but the time of the next check, a day later. |
| `ClientUpdateProgress.EarlyCheckDoesNothing` | web/client/update.sh:19-22 | Before its time a check changes nothing. |
| `ClientUpdateProgress.FailedCheckIsRetried` | web/client/update.sh:24-27 | After a check that fails the next one is due in an hour. |
| `ClientUpdateProgress.SynchronizationRuns` | web/client/launcher.sh:14-19 | A synchronization that is not held up runs from the current version. |
| `ClientDirectories.ClientDirectory.Stage` | web/client/update.sh:73-80 | Creates the candidate with all three scripts and its revision, as a run of the protocol. |
| `ClientDirectories.ClientDirectory.ExtractAll` | web/client/update.sh:74-79 | The loop over the archive's scripts. |
| `ClientDirectories.ClientDirectory.Activate` | web/client/update.sh:86-102 | Switches, records the former version as previous and prunes, as a run of the protocol. |
| `ClientDirectories.ClientDirectory.Prune` | web/client/update.sh:98-102 | In any order removes exactly the directories that neither link names. |
| `AuditSearch.EscapedMatchesStart` | backend/database/repository/audit_repository.go:159 | An escaped text followed by `%` matches exactly what starts with the text up to ASCII case. |
| `AuditSearch.PercentMatchesAnywhere` | backend/database/repository/audit_repository.go:161 | With `%` in front the match may start anywhere. |
| `AuditSearch.EscapingPreservesMeaning` | backend/database/repository/audit_repository.go:153-162 | For every search text that is not blank and every string, the pattern matches exactly if the trimmed text occurs in it up to ASCII case. |
| `AuditSearch.Search` | backend/database/repository/audit_repository.go:91-107 | Finds exactly the rows with the text in one of five fields and with listed actors, actions and resources, as often as they occur; a blank text filters nothing. |
| `ZoneConfig.CoversParent` | backend/config/config.go:262 | A zone other than the domain covers it exactly if it covers the domain's parent. |
| `ZoneConfig.SameLengthSameZone` | backend/config/config.go:259-268 | Two zones of one length that cover a domain are the same zone. |
| `ZoneConfig.NearestIsLongest` | backend/config/config.go:259-268 | Walking up from the domain finds the longest covering zone, or there is none. |
| `ZoneConfig.FindZone` | backend/config/config.go:259-268 | For any order of the map the result is the credential of that zone. |
| `ZoneConfig.ValidateZones` | backend/config/config.go:134-143 | Accepts exactly zones with a name and a known credential, and builds the zone map. |
| `ZoneConfig.ValidateCertificate` | backend/config/config.go:152-172 | Accepts exactly certificates with domains, a supported key type, a known credential and covered domains. |
| `ZoneConfig.ValidateCertificates` | backend/config/config.go:145-173 | Also names, which are given and distinct. |
| `ZoneConfig.ValidateHooks` | backend/config/config.go:175-181 | Accepts exactly hooks that name known certificates. |
| `ZoneConfig.Validate` | backend/config/config.go:124-183 | Accepts exactly the valid configurations, for credentials, zones, certificates and hooks. |
| `ZoneConfig.ValidIff` | backend/config/config.go:124-183 | What validation accepts, spelled out: names, known credentials, supported key types, and a configured zone at or above every domain of a certificate without its own credential. |
| `ZoneConfig.CredentialForDomain` | backend/config/config.go:243-257 | The certificate's own credential, else that of the nearest zone of the lower-cased domain. |
| `ZoneConfig.OwnCredentialServes` | backend/config/config.go:243-246 | A certificate's own credential answers whatever zones cover the domain. |
| `ZoneConfig.ValidatedDomainsResolve` | backend/config/config.go:168-172 | In a valid configuration every domain of every certificate has a credential, although only one of the two lookups lower-cases. |
| `ZoneConfig.LongestZoneServes` | backend/config/config.go:243-268 | A certificate without own credential is served by the longest covering zone. |
| `ZoneConfig.ProviderFoundIff` | backend/service/manager.go:373-382 | In a valid configuration the provider of a certificate's domain is found if and only if the certificate has its own credential or the domain without its wildcard is not itself a wildcard zone that stands alone. |
| `ZoneConfig.ProvidersFoundIff` | backend/service/manager.go:373-382 | Every valid set of certificates over the given credentials and zones gets its providers if and only if no wildcard zone stands alone. |
| `ZoneConfig.LoneWildcardZone` | backend/service/manager.go:376 | A concrete valid configuration with a certificate whose provider is not found. |
| `CertificateArtifacts.ParseCertificatePem` | backend/service/certificate_artifacts.go:62-86 | The loop parses block after block and stops at the first bad one. |
| `CertificateArtifacts.ParsePrint` | backend/service/certificate_artifacts.go:45-54 | Parsing undoes printing, for every list of certificates (section 5 of RFC 7468). |
| `CertificateArtifacts.ParseIff` | backend/service/certificate_artifacts.go:62-86 | Parsing accepts exactly texts of certificate blocks without headers, one after the other up to white space, and gives their certificates. |
| `CertificateArtifacts.UnseenMembers` | backend/service/certificate_artifacts.go:47-55 | The chain has exactly the bytes not seen before. |
| `CertificateArtifacts.UnseenInOrder` | backend/service/certificate_artifacts.go:47-55 | The chain is in the order of first occurrence. |
| `CertificateArtifacts.PrintUnseen` | backend/service/certificate_artifacts.go:47-55 | The loop prints that chain. |
| `CertificateArtifacts.NormalizeCertificateArtifacts` | backend/service/certificate_artifacts.go:20-60 | The method computes the normalization, errors included. |
| `CertificateArtifacts.ArtifactsReadBack` | backend/service/certificate_artifacts.go:34-57 | Leaf, chain and full chain read back as the leaf, the chain and both; the chain has every issuer's bytes but the leaf's once, in order. |
| `CertificateArtifacts.NormalizeIff` | backend/service/certificate_artifacts.go:20-43 | Succeeds exactly if there is a response whose certificates can be read, at least one, and, if it is alone, whose separate issuers can be read. |
| `CertificateArtifacts.NormalizeTwice` | backend/service/certificate_artifacts.go:20-60 | Normalizing the full chain again gives the same artifacts. |
| `CodecWitness.LawsCanBeMet` | backend/service/certificate_artifacts.go:71-79 | The laws assumed of the PEM and X.509 libraries are consistent: a codec meets them. |
| `ConfigurationDrift.SameDomains` | backend/service/configuration_drift.go:57-79 | True exactly if the lower-cased name sets are equal. |
| `ConfigurationDrift.Drift` | backend/service/configuration_drift.go:18-55 | Drift exactly if names differ or the known key type differs; an error exactly if names agree and the key type cannot be told. |
| `ConfigurationDrift.Decide` | backend/service/manager.go:167-176 | Issue exactly without version, inside the window, or on drift; leave alone exactly if outside the window and matching. |
| `ConfigurationDrift.KeyTypeIsRecognized` | backend/service/configuration_drift.go:81-95 | A key is given the name of a supported type exactly if it is of that type; other curves and kinds of keys are given none. |
| `Text.SpacesAre` | backend/database/repository/audit_repository.go:154 | White space is exactly the code points with the Unicode property White_Space. |
| `Text.TrimSpaceCuts` | backend/database/repository/audit_repository.go:154 | Trimming cuts all white space off both ends and nothing else. |
| `Text.LowerCharPairs` | backend/service/configuration_drift.go:61 | Lower-casing pairs the letters of the two ASCII alphabets and leaves all else alone. |
| `Text.LeqIff` | backend/service/mux_provider.go:74 | The order of sorted names: the first difference decides, prefixes come first. |

## Left out

- OidcStateStores.OidcStateStore.Reserve: the key is a parameter that is required not to be in use; drawing random values is not modelled.
- CertificateArtifacts.ParsePrint: base64 and the line format of PEM are behind the laws of the codec, because they are library code.
- ClientUpdateSafety.SyncKeepsItsDirectory: what `sync.sh` does in its directory is not part of this model.
- AuditSearch.Search: paging, sorting and counting are not modelled.
- ZoneConfig.Validate: the checks of authentication, ACME and server settings are not modelled; they do not touch zones or certificates. Which error is reported is not specified.
- BundleRequests.Download: tar bytes, SHA-256 and audit rows are parameters or left out.
- Direct synchronous issuance (`Manager.Issue`): its start, its version and its outcome are moves of `DirectIssuance`; the calls in between can fail at any point and are not separate moves.
- The endless loop, tickers and wake channel of `Manager.Run`: its steps are the worker's events, in any order its position allows.
- Files written for a version, and the timestamps of jobs and certificates: no property here depends on them. The order of listed certificates is left open.
- Signature, size and content checks of a downloaded archive: they are the event that verifies a manifest or a failing command.
- Hooks, notifications, HTTP handlers, the console, the command line and health checks: plumbing around the state modelled here.
