# A verified model of finna-app's stateful cores

finna-app collects multi-cloud costs and resource waste. Most of it is API and I/O code; this
project models the parts that carry state over time or compute under adversity, and proves what
they keep over every run:

| modules | what they model |
|---|---|
| `WastageState`, `WastageUpsert`, `OrderStatistic`, `WastageLifecycle`, `WastageRunner` | the wastage scan: one transaction of upserts, auto-resolve by an order statistic over past runs, run records, user actions |
| `RateLimit` | the per-IP sliding-window limiter of the OIDC routes |
| `ExpiringStore`, `LoginState` | one-time login state with expiry and sweeper |
| `DeviceFlow`, `DeviceFlowSafety` | the RFC 8628 device flow with interleaved polls that hold a code across await points |
| `Supervisor`, `SupervisorSafety` | extractor processes, monitor threads, cancel and shutdown sharing a locked registry |
| `Ingestion`, `SpendLogs` | batched `ON CONFLICT DO NOTHING` inserts under crashes, and the page walk that feeds them |
| `Encryption`, `Migration` | config encryption and the one-shot migration of legacy rows |
| `Currency` | ECB rates and conversion with two roundings |
| `Labels` | GCP labels in list and string form |
| `ProviderCache`, `ProviderCalls`, `TokenVerification` | the two-level OIDC metadata and key cache, called in sequence and interleaved, and the two ID-token checks |
| `ConnectionPool` | pool checkouts under retries and failing queries |

Where the code changes state step by step the model is a class or a method with loops; each such
method is proved equal to a function of the old state, and the results below are lemmas about that
function. `log`, `started`, `finishes`, `lapsed` and similar fields are history variables. Times are
integers counted in clock ticks; database, network, clock and thread scheduling enter as parameters
that may take any value.

## Where code and documentation differ

- Auto-resolve is documented to resolve a finding absent for N consecutive runs
  (`backend/app/wastage/runner.py:11-13`). The current run is not yet done when it reads the cutoff,
  so the N-th missed done run leaves the finding open and run N + 1 resolves it
  (`NPlusOneRunsResolve`, `MissTiming`, `OneMissLeavesOpen`). The model follows the code.
- `exchange_device_code` is documented to raise OIDCError when the request fails
  (`backend/app/api/oidc.py:626-627`); an HTTP error status other than 400 raises another exception,
  which drops the code instead of re-storing it. The model follows the code (`Failed(false)`).
- RFC 8628, section 3.5, has a client poll again after authorization_pending and slow_down. If such
  an answer carries an `expires_in` that `int()` raises on, the code is lost
  (`backend/app/api/routes/oidc_device_auth.py:229`, 239; `Ends`).
- The migration is described as changing format only (`scripts/migrate_config_encryption.py:31-32`).
  It changes a row's meaning exactly when the decrypted dict uses a marker name (`MeaningKeptIff`,
  `MarkerNameLost`).
- It is described as leaving alone only marked rows without legacy fields (lines 33-35). It skips
  every row whose marker is true, so a sensitive field next to the marker stays readable
  (`SensitiveInTheClearIff`, `MarkedRowKeepsSecret`).
- A cancel that returned True does not mean the row ends failed: the monitor writes its verdict
  without the lock, and the last writer wins (`LastWriter`, `CancelEitherWay`).
- A query helper whose dict parameters do not serialise keeps its connection
  (`backend/app/api/db.py:341-467`; `RunHelper`, `UnserialisableLeaks`).
- The page walk reads one page from a server that answers bare lists, because such an answer is
  wrapped as the only page (`FetchSpendLogs`, `BareListLosesRow`).

## Model

| member | source | states |
|---|---|---|
| WastageRunner.WastageStore.RunScan | backend/app/wastage/runner.py:125-229 | for every registry, inventory, threshold and failure, the call leaves the state one scan step describes, raises on exactly the paths that re-raise, and adds one run row: done with the number of (row, rule) pairs that gave a finding, error with zero, or still running if the close failed |
| WastageRunner.ProviderRulesAre | backend/app/wastage/runner.py:174-178 | the rules a scan runs are the registered ones whose id is the provider, a dot and anything, all of them, in registry order |
| WastageRunner.ScanFindsIff | backend/app/wastage/runner.py:174-204 | a scan upserts a finding if and only if a registered rule of its provider reports it for some row |
| WastageRunner.FoundInOrder | backend/app/wastage/runner.py:186-204 | the upserts come row by row, and rule by rule within a row |
| WastageRunner.WastageStore.FoldInventory | backend/app/wastage/runner.py:186-206 | the nested loop commits the ordered fold of upserts over the findings, or nothing if the iterator, an upsert or the commit raises |
| WastageRunner.FoundInCount | backend/app/wastage/runner.py:187-204 | findings_count is the number of (row, rule) pairs whose rule neither raised nor returned None |
| WastageRunner.FoundInIff | backend/app/wastage/runner.py:187-204 | a finding is upserted if and only if some rule of the provider reports it for some row |
| WastageRunner.WastageStore.AutoResolveStale | backend/app/wastage/runner.py:281-337 | resolves against the cutoff run, does nothing without enough done runs, swallows database errors, lets other exceptions out |
| WastageLifecycle.RunRowsFinal | backend/app/wastage/runner.py:261-278 | over every run of events a run row is closed, with end and count, by the event that opened it or never: nothing later touches it, and a queued run stays running for good |
| WastageUpsert.UpsertAllEffect | backend/app/wastage/runner.py:72-97 | row by row: nothing deleted, unseen rows untouched, a sighted row carries its last finding's data and keeps identity, first sighting and status, a new one is open |
| WastageUpsert.UpsertAllRaises | alembic/versions/006_resource_wastage.py:27-48 | the upserts raise if and only if a row to be inserted repeats a finding_id that a row before it holds |
| WastageLifecycle.ScanAllOrNothing | backend/app/wastage/runner.py:170-227 | a scan that raises anywhere before its commit leaves the findings table as it was; otherwise its keys are the old ones and the found ones |
| OrderStatistic.NthLargestVersusCount | backend/app/wastage/runner.py:109-117 | being older than the n-th newest started_at is having n started_at above |
| WastageLifecycle.MissesAreLaterStarts | backend/app/wastage/runner.py:99-117 | in every reachable state the done runs started after an open row's last_seen_at are the done runs since its last committed sighting |
| WastageLifecycle.AutoResolveExact | backend/app/wastage/runner.py:99-117 | a scan resolves a row if and only if it commits without sighting it, auto-resolve runs, the row is an open one of its provider, and at least threshold done runs of the provider came since its last committed sighting |
| WastageLifecycle.NewRowOpen | backend/app/wastage/runner.py:68-90 | rows appear exactly for newly found keys of a committed scan, open and dated by it, and that same scan never resolves them |
| WastageLifecycle.MissTiming | backend/app/wastage/runner.py:214-227 | after d clean missed runs, with failed runs, other providers' scans and actions on other rows in between, an open row missed m times before is open iff d is 0 or m + d <= threshold |
| WastageLifecycle.NPlusOneRunsResolve | backend/app/wastage/runner.py:296-319 | a row just sighted survives N missed done runs and is resolved by run N + 1 |
| WastageLifecycle.OneMissLeavesOpen | backend/app/wastage/runner.py:214-227 | threshold one, concretely: the run that misses the finding leaves it open, the next resolves it |
| WastageLifecycle.ReachableInv | backend/app/wastage/runner.py:68-107 | over every run of scans, queued runs and user actions on an increasing clock: ids unique, first_seen_at <= last_seen_at, and an open row's last_seen_at is the start of its last committed sighting |
| WastageLifecycle.RunEvolves | backend/app/wastage/runner.py:68-97 | over every run no row is deleted, first_seen_at and identity never change, last_seen_at never decreases, no row returns to open |
| WastageLifecycle.ScanKeepsDecisions | backend/app/wastage/runner.py:99-107 | a scan never changes the status of acked, ignored or resolved rows |
| WastageLifecycle.OtherProviderUntouched | backend/app/wastage/runner.py:174-205 | a scan leaves another provider's row unchanged if and only if it does not commit a finding under that row's key |
| WastageRunner.WastageStore.SetFindingStatus | backend/app/api/queries/wastage_queries.py:130-156 | status, tags and last_seen_at of the row with that id change, and the result says whether there is one |
| WastageLifecycle.ActionTouchesOneRow | backend/app/api/queries/wastage_queries.py:130-156 | in every reachable state ack, resolve and ignore set their status and the time on one row, an ignore reason becomes its tag, every other tag and column stays, and no other row changes |
| RateLimit.RateLimiter.CheckRateLimit | backend/app/api/routes/oidc_device_auth.py:45-55 | one call prunes the ip's list, refuses when it is full, else records the call, and leaves other ips alone |
| RateLimit.StoreTracksHistory | backend/app/api/routes/oidc_device_auth.py:49-54 | the stored list always prunes to what the whole accepted history prunes to |
| RateLimit.RefusedIff | backend/app/api/routes/oidc_device_auth.py:45-55 | a call is refused if and only if max_attempts accepted calls of its ip lie in the window ending at it |
| RateLimit.WindowBound | backend/app/api/routes/oidc_auth.py:40-50 | over any call sequence on a non-decreasing clock no half-open window holds more than max_attempts accepted calls of an ip |
| RateLimit.IpsIndependent | backend/app/api/routes/oidc_auth.py:40-50 | every answer an ip gets is the one it would get alone |
| RateLimit.BoundOnAnyClockIff | backend/app/api/routes/oidc_auth.py:40-50 | with times in any order the window bound holds of all call sequences if and only if max_attempts <= 1 or window <= 0; otherwise it rests on the callers keeping the monotonic clock's order |
| ExpiringStore.TakeIff | backend/app/api/oidc.py:509-535 | on any clock a consume returns a value if and only if the last event naming the key was a put that has not expired and that no sweep stamped past its expiry removed, and returns that put's value |
| ExpiringStore.AtMostOnce | backend/app/api/oidc.py:532-535 | on any clock, between two successful consumes of one key lies a put of it, whose value the second returns |
| ExpiringStore.SweepsInvisibleIff | backend/app/api/oidc.py:538-545 | on any clock, sweeps change some consume's result if and only if some consume comes in time for a last put that a sweep stamped past its expiry has removed |
| ExpiringStore.SweepsInvisible | backend/app/api/oidc.py:538-545 | on a clock that does not go back sweeps anywhere change neither which consumes succeed nor what they return, for login states and device codes |
| ExpiringStore.SweepShowsIfClockSteps | backend/app/api/oidc.py:540-541 | when the wall clock steps back a sweep shows: a concrete run |
| LoginState.StoredThenConsumed | backend/app/api/oidc.py:491-535 | after a store, and until another event names the state, a consume yields exactly the stored triple, up to 600 seconds later and unless a later-stamped sweep came first |
| LoginState.ConsumedOnce | backend/app/api/oidc.py:532-535 | once consumed, and until stored again, a state yields nothing |
| LoginState.LoginStates.ValidateAndConsumeState | backend/app/api/oidc.py:509-535 | is the take of the store: missing, expired and valid states with their errors, gone afterwards in each case but the empty state |
| LoginState.LoginStates.ClearExpiredStates | backend/app/api/oidc.py:538-545 | removes exactly the expired states |
| DeviceFlow.Ends | backend/app/api/routes/oidc_device_auth.py:194-335 | which reply ends a poll how, in both directions: what keeps the code pollable, what uses it up (an unusable expires_in included), when a user is created |
| DeviceFlow.DeviceCodes.OnPollBegin | backend/app/api/routes/oidc_device_auth.py:185-192 | pops the code and holds it, or answers that it is unknown or expired |
| DeviceFlow.DeviceCodes.OnPollEnd | backend/app/api/routes/oidc_device_auth.py:205-335 | re-stores the held code or drops it, as the reply demands |
| DeviceFlow.DeviceCodes.GetAndConsumeDeviceCode | backend/app/api/oidc.py:685-697 | is the take of the expiring store |
| DeviceFlow.DeviceCodes.ClearExpiredDeviceCodes | backend/app/api/oidc.py:700-707 | removes exactly the expired codes |
| DeviceFlowSafety.ReachableInv | backend/app/api/routes/oidc_device_auth.py:185-245 | in every interleaving each started code is in exactly one place: stored, held by one poll, used up, or lapsed |
| DeviceFlowSafety.NeverSharedOrDuplicated | backend/app/api/oidc.py:657-697 | a code is never both stored and held, and never held by two polls |
| DeviceFlowSafety.OneFinalPollPerCode | backend/app/api/routes/oidc_device_auth.py:283-317 | at most one poll of a code ends for good; so at most one completes and at most one creates a user |
| DeviceFlowSafety.UsedUpForGood | backend/app/api/routes/oidc_device_auth.py:242-243 | after such an end no later poll of the code gets past the pop |
| DeviceFlowSafety.MetadataKept | backend/app/api/routes/oidc_device_auth.py:320-329 | whatever a code went through, it keeps provider, credentials and interval |
| DeviceFlowSafety.PoppedCodeReturns | backend/app/api/routes/oidc_device_auth.py:221-245 | a held code is back in the store after the poll if and only if its ending is not final |
| DeviceFlowSafety.StoredIff | backend/app/api/oidc.py:657-707 | over every interleaving a code is stored, to expire at x, if and only if its start or a re-storing poll end put it so and since then no poll of it began and no sweep stamped past x came; lifetimes are the given expires_in, 300 without one, 300 on a retry |
| DeviceFlowSafety.PollHoldsIff | backend/app/api/routes/oidc_device_auth.py:185-188 | a poll begun at t gets past the pop if and only if its code is so put with t <= x |
| SupervisorSafety.ReachableInv | backend/app/api/runner.py:181-382 | the inductive invariant of the registry, the lock, the run rows and the counters over every interleaving |
| SupervisorSafety.EndedForGood | backend/app/api/runner.py:291-296 | once a run's monitor has ended the run is never in the registry again, and its status is terminal and never changes |
| SupervisorSafety.SuccessMeansExitZero | backend/app/api/runner.py:258-275 | a success row implies that the process exited with 0 |
| SupervisorSafety.FailedMeansExitNonZero | backend/app/api/runner.py:273-293 | a failed row implies that the process exited with another code, unless a cancel or the shutdown wrote the row, or the shutdown or an exception cut the monitor short |
| SupervisorSafety.CancelTrueAtMostOnce | backend/app/api/runner.py:365-382 | cancel returns True at most once a run, only after the process has exited |
| SupervisorSafety.LastWriter | backend/app/api/runner.py:291-293 | over every interleaving, after the monitor's write the row holds failed if a cancel or the shutdown wrote later, and the monitor's verdict if not, whatever they wrote before |
| SupervisorSafety.StatusBeforeMonitor | backend/app/api/runner.py:365-382 | until the monitor writes, the row is failed if a cancel or the shutdown wrote, and unchanged if not |
| SupervisorSafety.CancelEitherWay | backend/app/api/runner.py:365-382 | a run whose process exited with zero and whose cancel returned True can be left failed or success: both schedules |
| SupervisorSafety.TotalsBounded | backend/app/api/runner.py:237-283 | for every provider success plus failed never exceeds running, running never exceeds the processes started, and success never exceeds the processes that exited with 0 |
| SupervisorSafety.TotalsExact | backend/app/api/runner.py:278-281 | success and failed count the runs whose monitor counted that result |
| SupervisorSafety.RegisteredIff | backend/app/api/runner.py:240-296 | over every interleaving a run is in the registry if and only if it was registered, its monitor has not ended, no cancel of it returned True and the shutdown has not cleared the registry since; a cancel then gets hold of it whenever the lock is free |
| SupervisorSafety.ShutdownVisitsAll | backend/app/api/runner.py:306-324 | while the shutdown holds the lock every run registered when it took it gets its row written failed, unless that write raises |
| SupervisorSafety.MonitorNotStuck | backend/app/api/runner.py:245-296 | with the lock free, the monitor of an exited process can always go on until it ends |
| SupervisorSafety.HolderNotStuck | backend/app/api/runner.py:306-382 | whoever holds the lock can go on unless it waits for a live process |
| SupervisorSafety.CompletesNormally | backend/app/api/runner.py:181-303 | an undisturbed run with exit 0, event by event: success, out of the registry, counted once as running and once as success |
| Ingestion.CostRecords.InsertBatch | extractors/gcp_billing.py:235-289 | one batch is all or nothing, and the count is the table's growth |
| Ingestion.CostRecords.InsertRecords | extractors/aws_cost.py:262-271 | for any batch size the table and result are those of the unbatched insert, or of the batches before the one that raised; a zero size raises and a negative one inserts nothing |
| Ingestion.CostRecords.Extract | extractors/gcp_billing.py:440-470 | the streamed insert equals the unbatched one for any batch size and its total is the table's growth; it raises if and only if a flush or a row it reaches fails, and has then committed exactly the whole batches before it |
| Ingestion.FirstWinsAt | extractors/gcp_billing.py:220-230 | rows already there stay; otherwise the first record of an id is its row |
| Ingestion.FirstWinsGrowth | extractors/gcp_billing.py:272-289 | the table grows by the number of distinct new ids |
| Ingestion.Converges | extractors/aws_cost.py:246-271 | any number of runs failing after any batches, then one complete run, give the table of one uninterrupted insert |
| Ingestion.ConvergesUpToStamps | extractors/aws_cost.py:246-271 | the same when every attempt re-extracts the data with new ingestion times, up to those times |
| SpendLogs.FetchSpendLogs | extractors/litellm_cost.py:88-116 | all rows in order with at most n / p + 1 requests; from a server of bare lists exactly the first page, complete iff it holds all rows |
| SpendLogs.BareListLosesRow | extractors/litellm_cost.py:88-116 | two rows in bare lists of one a page: the second is lost |
| Encryption.EncryptConfig | utils/encryption.py:70-112 | returns non-dicts and dicts without secret names as they are, raises without a key, else hides every secret field, lists their names and keeps every other field |
| Encryption.SensitiveIff | utils/encryption.py:21-34 | a name is sensitive if and only if it is one of the seven listed or has secret, password, token or key in it in any letter case |
| Encryption.LegacyStrings | utils/encryption.py:157-165 | a legacy string decrypts to the document it is base64 of, else to the one it is the JSON of, else to an empty dict |
| Encryption.RoundTripIff | utils/encryption.py:70-155 | decrypt(encrypt(c)) = c if and only if c uses no marker name, or has nothing sensitive and no true marker |
| Encryption.NothingSensitiveLeft | utils/encryption.py:106-112 | in a sealed dict no secret name is readable, every other non-marker field is as it was, and the marker lists exactly the secret names |
| Encryption.ReservedNotSensitive | utils/encryption.py:21-34 | the marker names match no sensitive pattern under case folding |
| Encryption.WrongKeyRedacts | utils/encryption.py:145-152 | under another key or none the result is the config without its sensitive fields |
| Migration.ConfigTable.MigrateTable | scripts/migrate_config_encryption.py:63-116 | raises iff some row needs a key that is missing and then changes nothing; counts the rows and the rows to change, the same in a dry run; a committed run migrates every row |
| Migration.MeaningKeptIff | scripts/migrate_config_encryption.py:70-114 | a row keeps its decrypted meaning if and only if it was not rewritten or its dict uses no marker name |
| Migration.ChangesIff | scripts/migrate_config_encryption.py:70-98 | a row is rewritten if and only if it is unmarked and encodes, in one of the three legacy shapes, a document with a secret field or a true marker; the run raises if and only if one with a secret field meets no key |
| Migration.LegacyMeaningKeptIff | scripts/migrate_config_encryption.py:70-114 | a row of any of the three legacy shapes keeps its document if and only if it has neither secret nor marker, or uses none of the marker names |
| Migration.MarkerNameLost | scripts/migrate_config_encryption.py:70-114 | a plain dict with a secret and a field named __data__ loses that field |
| Migration.SecondRunChangesNothing | scripts/migrate_config_encryption.py:33-35 | after a committed run a second one counts and changes nothing |
| Migration.SensitiveInTheClearIff | scripts/migrate_config_encryption.py:58-114 | after a committed run a row holds a sensitive field readable if and only if it carried the marker before and held one then |
| Migration.MarkedRowKeepsSecret | scripts/migrate_config_encryption.py:58-73 | such a row: skipped as canonical with a readable client_secret |
| Currency.ConvertToUsdRates | extractors/exchange_rates.py:128-177 | every listed currency gets its quantised rate and USD gets 1, EUR passes through unless listed, a feed without USD and a zero rate raise |
| Currency.HalfEvenIff | extractors/common.py:54-54 | the second rounding is the nearest integer, even on ties, and nothing else |
| Currency.HalfUpIff | extractors/exchange_rates.py:171-173 | the first rounding is the nearest integer, away from zero on ties, and nothing else |
| Currency.Quantize6Iff | extractors/common.py:54-54 | a converted cost is the nearest multiple of 10^-6, the even one on a tie, and nothing else |
| Currency.Quantize8Iff | extractors/exchange_rates.py:171-173 | a rate is the nearest multiple of 10^-8, away from zero on a tie, and nothing else |
| Currency.ConversionError | extractors/common.py:46-54 | a conversion is within 0.5e-6 + abs(cost) * 0.5e-8 of cost * usd / c |
| Currency.ConversionOdd | extractors/common.py:46-54 | refunds mirror charges |
| Currency.ConversionMonotone | extractors/common.py:46-54 | a larger cost never converts to less, for a rate that is not negative |
| Currency.BatchDrift | extractors/common.py:46-54 | n records converted one by one differ from their converted sum by at most n / 2 millionths, rounded down, or (n + 1) / 2 when n leaves remainder 3 modulo 4 |
| Currency.BatchDriftReached | extractors/common.py:46-54 | for every n a batch of n records reaches that bound |
| Currency.HalfEachCoversIff | extractors/common.py:46-54 | half a millionth a record covers every batch of n records if and only if n does not leave remainder 3 modulo 4 |
| Currency.ContextHarmless | extractors/exchange_rates.py:171-173 | the rounding of the quotient to 28 digits changes no quantised rate, for a USD rate below 10^19 units of the last decimal place it shares with the other rate |
| Labels.LabelsToTags | extractors/gcp_shared.py:144-173 | the tag map of each of the three formats |
| Labels.TagsAre | extractors/gcp_shared.py:144-173 | every tag of every form: the last entry with that key of a list or string, the non-null item of a dict |
| Labels.PaddedPair | extractors/gcp_shared.py:163-167 | a piece gives the trimmed text before its first colon as key and the trimmed rest as value, whatever spaces surround them |
| Labels.StripOf | extractors/gcp_shared.py:164-167 | trimming removes exactly the spaces at both ends |
| Labels.SplitJoins | extractors/gcp_shared.py:163-163 | the pieces of a string hold no separator and joined with it are the string |
| Labels.ExtractProjectLabel | extractors/gcp_shared.py:117-141 | the first "project" of a list or string, else "" |
| Labels.FormatsAgree | extractors/gcp_shared.py:117-173 | labels the string form can carry give the same tags and the same project from both forms, repeated keys included |
| Labels.ProjectIsTagIff | extractors/gcp_shared.py:117-173 | for any labels the extracted project is the "project" tag, or "" without one, if and only if the first and last such entry of the list or string agree, or the dict has no such non-empty tag |
| Labels.ProjectTagIff | extractors/gcp_shared.py:117-173 | a list or string has the tag if and only if it holds a "project" entry, and without one the label is "" |
| ProviderCache.Caches.DiscoverProvider | backend/app/api/oidc.py:51-94 | hit, failed request, incomplete metadata and store, for the issuer without trailing slashes |
| ProviderCache.Caches.GetJwks | backend/app/api/oidc.py:97-137 | the same for keys at the jwks_uri the metadata names |
| ProviderCache.JwksFresh | backend/app/api/oidc.py:97-137 | returned keys were received under 300 s ago or in this call, from the jwks_uri of complete metadata received under 3600 s ago or in this call |
| ProviderCache.CachedIsUncached | backend/app/api/oidc.py:51-137 | against an unchanging provider every call of every sequence answers what fetching afresh would |
| ProviderCache.JwksUncachedIff | backend/app/api/oidc.py:80-132 | a fresh request answers a key set if and only if the issuer's metadata has the three endpoints, its jwks_uri is not empty and that uri answers the set |
| ProviderCache.RStripIff | backend/app/api/oidc.py:64-64 | the cache key is the issuer without its trailing slashes, and nothing else |
| ProviderCache.CachedAnswers | backend/app/api/oidc.py:66-121 | until 3600 s or 300 s are over a cached key set answers every call of its issuer, whatever calls come between and whatever the provider would answer |
| ProviderCalls.InterleavedIsUncached | backend/app/api/oidc.py:51-137 | the same for calls that interleave at their awaits, in any order and at any times |
| ProviderCalls.InterleavedFresh | backend/app/api/oidc.py:51-137 | over every interleaving on a clock in order, whatever the provider answers, keys were received under 300 s before the call got them, from the jwks_uri of whole metadata under 3600 s old when the call began or received since |
| ProviderCalls.FreshAnswersAtOnce | backend/app/api/oidc.py:66-121 | a call that begins with fresh metadata and keys in the caches answers at once without a request |
| ProviderCalls.ArrivalsAreCached | backend/app/api/oidc.py:91-135 | what arrives is cached with its time, and the keys of an answer are in the cache when it is given |
| ProviderCalls.NoCallLost | backend/app/api/oidc.py:51-137 | every call that begins is answered once or still pending |
| TokenVerification.SelectKey | backend/app/api/oidc.py:289-310 | the first key with the kid, unless it is an empty object, else the first RS or ES key |
| TokenVerification.SelectedUnique | backend/app/api/oidc.py:410-428 | that choice is unique |
| TokenVerification.SelectedIff | backend/app/api/oidc.py:289-310 | which key, by its position in the list |
| TokenVerification.AcceptableIff | backend/app/api/oidc.py:379-467 | what both checks demand, spelled out: no none or HS algorithm, the chosen key, exp, iat within 300 s, issuer, audience |
| TokenVerification.VerifyIdTokenNoNonce | backend/app/api/oidc.py:362-467 | accepts claims if and only if every check of section 3.1.3.7 of OpenID Connect Core 1.0 that the code makes holds of them |
| TokenVerification.VerifyIdToken | backend/app/api/oidc.py:235-359 | accepts claims if and only if the check without nonce accepts them and their nonce is the expected one |
| ConnectionPool.Pool.GetConnection | backend/app/api/db.py:211-247 | at most three attempts; the first live connection is checked out, a database error before it raises, and in every other case nothing more is checked out and it raises |
| ConnectionPool.Pool.RunHelper | backend/app/api/db.py:341-467 | when the parameters serialise or are only wrapped the pool is as before whatever it answers and whether or not the query fails; otherwise exactly the connection it served stays out; which error is raised when |
| ConnectionPool.NetCheckouts | backend/app/api/db.py:341-467 | a sequence of helper calls ends with one connection more out for each call that was served one and could not dump its parameters, and with the same ones iff there is none |
| ConnectionPool.SerialisableCallsReturnAll | backend/app/api/db.py:341-467 | any sequence of calls with serialisable parameters brings the pool back to where it was, failing queries included |
| ConnectionPool.UnserialisableLeaks | backend/app/api/db.py:341-376 | such a call, concretely: the error is raised and the connection stays out |

## Left out

- Overlapping scans of one provider: the upsert writes last_seen_at unguarded, so two scans at once could move it back. Scans and user actions are modelled one after another on an increasing clock.
- set_finding_status issues its UPDATE through a helper that never commits; the model takes it as committed.
- A commit that fails is taken as rolled back; error texts of runs, log lines and return messages are not modelled.
- finding_id and record_id are hashes of joined fields; they are plain strings here, and nothing is claimed about collisions of the hash or of the joined text.
- Rules, inventory normalisers, category maps, pricing and the individual extractors' field mapping: only easy members.
- Supervisor: modelled on values, one step function over an event, because the threads interleave inside the source's functions; the updates of run rows by the monitor and by cancel are taken to succeed, and runs whose process never spawned stay running.
- InterleavedFresh, InterleavedIsUncached: modelled on values, one step function over what runs between two awaits; each turn reads the clock once.
- Device-code lifetime: pending and error re-stores grant a fresh expiry, so nothing bounds the flow by the first expires_in; slow_down leaves the interval as it is.
- OnPollEnd: what the handler does with the user row beyond creating it, claim mappings, domain filters and the issued token are one parameter of the poll.
- RunHelper: the pool is present, its putconn works, and row conversion is not modelled.
- ConvertToUsdRates: keys of the feed are distinct, as in the dict it stands for; the upsert of rates by (currency, date) and the loading of rates, which ignores the date, are not modelled.
- ContextHarmless: the product cost * rate and other conversions take decimals as exact, as they are within 28 digits.
- Encryption: Fernet is a constructor that opens only under its key, JSON numbers are reals, and only payloads that encrypt_config itself seals occur in tokens; the two decoders of legacy strings are arbitrary functions.
- MigrateTable: one table and its transaction; the command line runs two tables in one.
- Extract: its loop is the method Stream, with the last flush after it.
- InsertRecords: reports attempted records, so its result is not the table's growth; the unpartitioned table with record_id as primary key is assumed.
- Pagination headers, log sanitising, routing, health tables, Grafana, schema migrations and HTTP clients: plumbing or easy arithmetic.
