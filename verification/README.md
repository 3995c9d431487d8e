# Verified model of the gateway's stateful cores

This project models, in Dafny, the parts of the gateway whose correctness spans many
functions, and proves what they promise over whole runs.

| file | what it models |
|---|---|
| `refresh_registry.dfy`, `refresh_protocol.dfy`, `refresh_outcomes.dfy` | the refresh of ChatGPT credentials: single-flight calls, the per-session lease, the irreversible remote exchange, pending commits and the compare-and-swap write, as a class and as a step relation over every interleaving; and, from histories of the events alone, which credential each outcome carries |
| `usage_observation.dfy` | the merge of quota observations and the one-owner queue in front of it |
| `import_drafts.dfy` | parsing and sealing of provider-import drafts |
| `auth_sessions.dfy`, `auth_outcomes.dfy`, `auth_service.dfy` | the state behind the service lock: logins, the callback endpoint, the expiry timer, drafts and their capacity; first as functions on states with their invariants and what they accomplish over every run, then as the class whose methods compute them |
| `circuit_breaker.dfy` | the sliding-window breaker against one that forgets nothing |
| `error_rules.dfy`, `rule_sets.dfy`, `rule_matching.dfy`, `probe_planning.dfy` | validation, compilation and matching of internal-error rules, the detection plan, and when a planned probe can help |
| `retry_ledger.dfy`, `retry_decisions.dfy` | the retry ledger and the decisions it has to pay for |
| `failover.dfy` | failover chains in both of their representations |
| `analytics_window.dfy` | time windows and their buckets |
| `api_catalog.dfy`, `routing.dfy` | the table of request contracts, path ownership and rewriting |
| `collections.dfy`, `ordering.dfy`, `text.dfy` | shared facts about sums, sequences, strict orders and ASCII text |

Concurrency is modelled by steps: one step is one critical section, one lease operation, one
remote call or one store operation, and the theorems quantify over every sequence of enabled
steps (`After(run)`). Each class method is proved to produce the state that the corresponding
step function gives, so the theorems about runs apply to the objects.

## Assumptions about the environment

- The mutation lease of a session is exclusive, and every writer of the session holds it.
- A successful exchange returns material that was never exchanged (section 6 of RFC 6749), and
  other writers store only such material.
- Login identifiers, state values and exchange operations are never generated twice.
- The clock is a parameter of every section. It need not be monotone except where a theorem
  says so.

## Where promises need a condition

- A timer meets the earliest expiry on time exactly when the clock reading used to arm it was
  taken at that moment and the expiry had not passed (`TimerIsOnTimeIffReadingIsCurrent`). Some
  sections read the clock before they obtain the lock.
- The pruned breaker is exact for one window. When windows change, a caller is right to rely on
  any question asked at or above the highest prune cutoff so far (`AnswersAboveFloor`); the exact
  conditions are `CountIsRightIffNothingPrunedIsAskedFor` for counts and
  `TripIsRightIffThresholdIsNotAmongThePruned` for trips, and a growing window can miss a failure.
- A failed persist call loses what neither it nor an earlier one saved; the exact condition is
  `FailureLosesExactlyTheUnsaved`.
- A generation whose answer was kept is never sent again (`KeptGenerationsAreNeverSentAgain`). One
  whose answer was rejected here can be (`RejectedGenerationsCanBeSentAgain`).
- Outside replacement and writes in flight, the cache of recent credentials holds the stored generation
  (`CachedCredentialsAreStored`). Preference between two credentials is not antisymmetric; the exact
  condition is in `PreferenceMeaning`.
- Accepted observations are spaced between two overwrites of the snapshot, by another writer of
  the session or by the forced usage fetch (`ObservationsAreSpacedBetweenOverwrites`).
- The two failover representations agree exactly on chains of identified providers that never
  repeat at once (`HistoriesAgreeIffMoving`), and cycle detection ignores a missing identifier
  (`UnidentifiedProvidersRepeat`).
- A probe is planned exactly when some candidate can act. It can lead to something exactly when
  such a candidate can win, which the keywords decide (`ProbeCanHelpIffUnshadowed`); a rule set
  for which it never does is `ProbeCanBeInVain`.

## Model

| member | source | states |
|---|---|---|
| `RefreshProtocol.NoGenerationExchangedTwice` | internal/providerauth/service_refresh_coordination.go:15-54 | In every interleaving of refreshes, invalidations, metadata writes, failed and committed-but-error writes, no two successful exchanges consumed the same generation, and whoever is about to exchange holds the stored, never exchanged generation |
| `RefreshProtocol.KeptGenerationsAreNeverSentAgain` | internal/providerauth/chatgpt_refresh.go:20-64 | In every run a generation is sent again only if the earlier request was refused or its answer rejected here; after a kept answer it is never sent again |
| `RefreshProtocol.RejectedGenerationsCanBeSentAgain` | internal/providerauth/chatgpt_refresh.go:54-64 | The condition is needed: with every answer rejected here, one generation can be sent any number of times |
| `RefreshProtocol.NoExchangeResultIsLost` | internal/providerauth/service_refresh_coordination.go:265-290 | In every run each successful exchange is still held, or it was committed or superseded and its source is no longer stored |
| `RefreshProtocol.PendingLeavesOnlyResolved` | internal/providerauth/service_refresh_coordination.go:292-367 | A pending commit leaves its map only after the store holds its credential, or after a reload showed other material or another subject; invalidation never removes it, and recording never replaces an unresolved one |
| `RefreshProtocol.RunsKeepExchangeInv` | internal/providerauth/service_refresh_coordination.go:317-367 | The key invariant over every run: if the stored material has been exchanged, the result of exactly that exchange is pending or in the lease holder's hand |
| `RefreshProtocol.VersionNeverRegresses` | internal/providerauth/service_refresh_coordination.go:317-340 | The branch for a stored version behind the pending source is unreachable |
| `RefreshProtocol.SameSourceSameSubject` | internal/providerauth/service_refresh_coordination.go:317-340 | The comparison of subjects in a resume is redundant: when the stored material is still the pending source, the subject is the pending one |
| `RefreshProtocol.CasKeepsExchangeInv` | internal/providerauth/service_profile.go:112-153 | A compare-and-swap write that is applied, refused, or applied although it reports an error keeps the key invariant |
| `RefreshProtocol.WaitersShareTheirLeadersOutcome` | internal/providerauth/service_refresh_coordination.go:238-263 | Every registered or open call has exactly one leader at work, a leader closes only an open call, and every waiter that was not cancelled returns the outcome of the call it joined |
| `RefreshProtocol.DetachedLeaderSparesReplacement` | internal/providerauth/service_refresh_coordination.go:385-403 | A call is unregistered only by its own leader or by invalidation, so a detached leader never removes its replacement; outcomes are written once |
| `RefreshProtocol.ObservationsAreSpacedBetweenOverwrites` | internal/providerauth/service_usage_observation.go:133-164 | In every run, from any point after which no other writer replaces the session and no forced fetch is stored: accepted observations are at least 30 seconds apart and the fetch time never goes back |
| `RefreshOutcomes.OutcomesAreJustified` | internal/providerauth/service_refresh_coordination.go:15-54 | In every run, whoever joined a call and returns a credential got either the stored one, read under the lease and expiring beyond now plus the window, from an unforced call or one that found a pending commit, and no exchange was sent; or the credential that the leader\'s own write stored of its own exchange, sent because it was due. A failure means that the lease, the reload, the exchange or the write failed |
| `RefreshOutcomes.ForcedRefreshesExchange` | internal/providerauth/service_refresh_coordination.go:50-53 | A forced refresh that found nothing pending never succeeds without an exchange of its own, and returns the material of that exchange |
| `RefreshOutcomes.ExchangesAreDue` | internal/providerauth/service_refresh_coordination.go:46-53 | In every run every exchange request, kept or not, is for the stored record as read under this lease, and only if the call was forced with nothing pending or the record does not outlive now plus the window |
| `RefreshOutcomes.RevokedSessionsSendNothing` | internal/providerauth/service_refresh_coordination.go:492-535 | In every run, once a terminal refusal or a lost authorisation was recorded, the session stays inactive and no exchange is requested until another writer makes it active again |
| `RefreshOutcomes.CachedCredentialsAreStored` | internal/providerauth/service_refresh_coordination.go:317-367 | In every run, from any point where the cache was empty and after which no other writer replaced the session: with the lease free and nothing pending, a cached credential holds the stored generation, also after writes that committed and reported an error |
| `RefreshRegistry.Registry.PruneRecent` | internal/providerauth/service_refresh_coordination.go:444-450 | The loop removes exactly the expired recent entries, for every session |
| `RefreshRegistry.Registry.Begin` | internal/providerauth/service_refresh_coordination.go:369-383 | Joins the registered call or registers a fresh one; exactly the first caller leads |
| `RefreshRegistry.Registry.Finish` | internal/providerauth/service_refresh_coordination.go:385-403 | Fills and closes the call, and unregisters it only if it is still the registered one |
| `RefreshRegistry.Registry.Invalidate` | internal/providerauth/service_refresh_coordination.go:79-101 | The loop drops the recent entry and the registered call of exactly the named sessions and no pending commit |
| `RefreshRegistry.Registry.Record` | internal/providerauth/service_refresh_coordination.go:265-290 | Sets the pending commit of one session and changes nothing else |
| `RefreshRegistry.Registry.Forget` | internal/providerauth/service_refresh_coordination.go:298-304 | Removes a pending commit only if it is still the given one |
| `RefreshRegistry.Registry.StoreRecent` | internal/providerauth/service_refresh_coordination.go:405-419 | Prunes, then remembers the credential for the reuse window |
| `RefreshRegistry.Registry.ReuseRecent` | internal/providerauth/service_refresh_coordination.go:421-480 | A recent credential replaces the caller's copy exactly when there is one, unexpired and preferred, for the named session |
| `RefreshRegistry.PreferenceMeaning` | internal/providerauth/service_refresh_coordination.go:452-480 | What is preferred is complete and of the same account; of two complete credentials the later refreshed is preferred; each is preferred to the other exactly when one was refreshed later and the other, with the same refresh token, expires later |
| `UsageObservation.MergingKeepsTheLatestWindows` | internal/providerauth/service_usage_observation.go:133-164 | Over every sequence of observations each window is the one of the latest accepted observation that carried it: partial observations erase nothing |
| `UsageObservation.MergingKeepsTheLatestPlan` | internal/providerauth/service_usage_observation.go:133-164 | Over every sequence of observations the plan is the one that the latest accepted observation naming a plan named |
| `UsageObservation.ObservationQueue.Begin` | internal/providerauth/service_usage_observation.go:43-59 | The first caller owns the entry; others leave the newest snapshot waiting |
| `UsageObservation.ObservationQueue.TakeQueued` | internal/providerauth/service_usage_observation.go:61-76 | Takes the waiting snapshot, or removes the entry when there is none |
| `UsageObservation.ObservationQueue.Finish` | internal/providerauth/service_usage_observation.go:78-82 | Removes the entry of one session only |
| `ObservationProtocol.DrainPersistsEveryObservation` | internal/providerauth/service_usage_observation.go:19-82 | In every run an entry has one owner, and when a drain ends every accepted observation is covered by a successful persist call with an equal or later fetch time |
| `ObservationProtocol.FailureLosesExactlyTheUnsaved` | internal/providerauth/service_usage_observation.go:19-41 | In every run, when a failed persist call ends a drain, every accepted observation is covered if and only if the failed snapshot and the one waiting behind it were each covered by an earlier successful persist call |
| `ObservationProtocol.FailureDropsTheQueue` | internal/providerauth/service_usage_observation.go:19-41 | An instance: the first persist call fails while a later observation waits, which is lost |
| `ImportDrafts.BindDispositions` | internal/providerauth/service_chatgpt_provider_import.go:265-296 | The sealing loop reports the first error in document order or attaches every disposition |
| `ImportDrafts.AcceptedIffDistinctAndValid` | internal/providerauth/service_chatgpt_provider_import.go:270-296 | Dispositions are accepted if and only if they name distinct candidates and each is valid for its candidate's state |
| `ImportDrafts.SealingDecidesEveryCandidate` | internal/providerauth/service_chatgpt_provider_import.go:233-349 | Pigeonhole: an accepted sealing leaves exactly one validated disposition on every candidate |
| `ImportDrafts.GenerateID` | internal/providerauth/service_chatgpt_provider_import.go:217-228 | Finds the first unused non-blank identifier within eight attempts, or there is none |
| `ImportDrafts.ParseCandidates` | internal/providerauth/sub2api_parser.go:77-128 | The parse loop gives every candidate a unique identifier, marks repeated ready accounts as duplicates without secrets, and fails only on an empty document or when eight identifiers in a row are unusable |
| `ImportDrafts.OneReadyPerAccount` | internal/providerauth/sub2api_parser.go:97-128 | Two ready candidates of a document never share an account |
| `ImportDrafts.ReadyIffFirstOfItsAccount` | internal/providerauth/sub2api_parser.go:97-128 | Exactly the first ready account of each trimmed identifier stays ready; later ones become duplicates, and no other state changes |
| `ImportDrafts.StagedIsWellFormed` | internal/providerauth/service_chatgpt_provider_import.go:151-168 | Unique identifiers make the staged draft list each candidate once |
| `AuthSessions.CapacityIsConserved` | internal/providerauth/service_chatgpt_provider_import_lifecycle.go:21-82 | In every run, shutdown during staging included, slots equal staged drafts plus reservations and bytes equal staged sizes plus reserved sizes, within 32 drafts and 32 MiB |
| `AuthSessions.DeleteIsExact` | internal/providerauth/service_chatgpt_provider_import_lifecycle.go:231-246 | Deleting a draft gives back one slot and exactly its bytes: the subtraction never saturates |
| `AuthSessions.UnreserveKeepsInv` | internal/providerauth/service_chatgpt_provider_import_lifecycle.go:56-67 | Releasing a reservation never saturates either |
| `AuthSessions.StagingOverwritesNothing` | internal/providerauth/service_chatgpt_provider_import.go:170-197 | The accounting is never found inconsistent, and staging never overwrites a draft |
| `AuthSessions.PendingLoginsAreServed` | internal/providerauth/service_callback_lifecycle.go:16-42 | In every run the two pending maps agree and a pending login implies an active endpoint |
| `AuthSessions.EveryExpiryIsCovered` | internal/providerauth/service_callback_lifecycle.go:44-81 | After every section each expiry is covered by a timer of the current epoch, due no later than it or at once |
| `AuthSessions.OnlyTheCurrentTimerExpires` | internal/providerauth/service_callback_lifecycle.go:83-104 | A callback with a stale epoch changes nothing; the current one leaves nothing expired |
| `AuthSessions.TimerIsOnTimeIffReadingIsCurrent` | internal/providerauth/service_callback_lifecycle.go:44-81 | The timer meets the earliest expiry on time exactly when the clock reading was current and the expiry had not passed; otherwise it is late by the age of the reading |
| `AuthSessions.ClaimedAtMostOnce` | internal/providerauth/service_chatgpt_login.go:463-476 | A successful claim finds the state value unclaimed and marks it |
| `AuthSessions.NoStateIsClaimedTwice` | internal/providerauth/service_chatgpt_login.go:463-476 | In every run the number of successful claims of a state value is at most one |
| `AuthSessions.ClaimsAreForGood` | internal/providerauth/service_chatgpt_login.go:463-476 | No step ever unmarks a claimed state value |
| `AuthSessions.NothingIsAdmittedAfterShutdown` | internal/providerauth/service_callback_lifecycle.go:154-182 | Once shut down, every later step leaves no login, completed credential or draft |
| `AuthSessions.ClaimedDraftIsStable` | internal/providerauth/service_chatgpt_provider_import_lifecycle.go:95-254 | In every run only its own release or finalization, or a shutdown, changes a claimed draft |
| `AuthSessions.ClaimsAreSeparated` | internal/providerauth/service_chatgpt_provider_import_lifecycle.go:95-229 | In every run, between two successful claims of a draft lies its release or finalization, or a shutdown |
| `AuthSessions.ClaimHandsOutDecidedCandidates` | internal/providerauth/service_chatgpt_provider_import_lifecycle.go:95-141 | In every run a claim succeeds only on a sealed draft whose candidates all carry a validated disposition |
| `AuthSessions.RunsKeepInv` | internal/providerauth/service.go:139-152 | Every run of critical sections keeps the maps, endpoint, drafts, accounting and timer invariants together |
| `AuthOutcomes.CompletedLoginsCanBePolled` | internal/providerauth/service_chatgpt_login.go:332-377 | In every run, a code exchange that returns an account while the service runs stores the completed login with that account and the time to live, and every poll finds it until it expires, is finalized, is replaced under its identifier, or the service shuts down |
| `AuthOutcomes.PollsSeeTheUnexpired` | internal/providerauth/service_chatgpt_login.go:141-172 | A poll sees exactly the pending and completed logins that have not expired at its reading, and finalizing a login removes that one only |
| `AuthOutcomes.PendingLoginsStay` | internal/providerauth/service_chatgpt_login.go:444-476 | In every run a pending login stays as it is until its expiry, its own claim, cancellation or exchange, or a shutdown |
| `AuthOutcomes.StartedLoginsArePending` | internal/providerauth/service_callback_lifecycle.go:31-42 | A started login is pending under its identifier and its state for the time to live, with the endpoint active |
| `AuthOutcomes.ClaimsRenewTheLogin` | internal/providerauth/service_chatgpt_login.go:463-476 | In every run a callback claims a state exactly while its login is indexed and unexpired; the login keeps its identifier and gets a new time to live |
| `AuthOutcomes.EndedLoginsAreGone` | internal/providerauth/service_chatgpt_login.go:315-395 | In every run a cancelled state, a failed exchange and a finished one leave no pending login behind |
| `AuthOutcomes.IdleEndpointsAreStopped` | internal/providerauth/service_callback_lifecycle.go:83-133 | The timer and a reconciliation go on to stop the endpoint exactly when it is active and no pending login is unexpired |
| `AuthOutcomes.ShutdownStopsTheEndpoint` | internal/providerauth/service_callback_lifecycle.go:154-182 | In every run a shutdown keeps the lifecycle lock until an active endpoint is stopped, and it is inactive for good afterwards |
| `AuthOutcomes.FinalizingRemoves` | internal/providerauth/service_chatgpt_provider_import_lifecycle.go:178-207 | In every run finalizing succeeds exactly on a claimed draft; the draft, one slot and exactly its bytes are gone and every other draft is the same. A refusal changes nothing but removes its own draft when that is idle and expired |
| `AuthOutcomes.FinalizedDraftsAreNotClaimedAgain` | internal/providerauth/service_chatgpt_provider_import_lifecycle.go:95-207 | In every run, once a draft was finalized, no claim of its identifier succeeds unless a draft is staged under that identifier in between |
| `AuthOutcomes.ReleasingKeepsWhileTheWindowLasts` | internal/providerauth/service_chatgpt_provider_import_lifecycle.go:145-173 | In every run releasing a claimed draft keeps it, idle, exactly while its review window lasts, and removes it with its slot and bytes afterwards |
| `AuthOutcomes.CancellingRemovesIdleDrafts` | internal/providerauth/service_chatgpt_provider_import_lifecycle.go:211-229 | In every run cancelling removes exactly an idle draft, and otherwise changes no draft and no counter |
| `AuthOutcomes.ClaimingMarks` | internal/providerauth/service_chatgpt_provider_import_lifecycle.go:95-141 | In every run a claim succeeds exactly on a sealed, idle, unexpired draft and marks it |
| `AuthOutcomes.SealingSeals` | internal/providerauth/service_chatgpt_provider_import.go:233-302 | In every run sealing succeeds exactly on an unsealed, unexpired draft whose candidates the dispositions name once each and validly, and leaves every candidate decided |
| `AuthOutcomes.ReservingIsRefusedIff` | internal/providerauth/service_chatgpt_provider_import_lifecycle.go:21-54 | In every run a reservation is refused exactly for a large document, a shutdown, or a limit that the live drafts and the reservations fill |
| `AuthOutcomes.StagingAddsIff` | internal/providerauth/service_chatgpt_provider_import.go:170-197 | In every run staging succeeds exactly while running, with an unused identifier and enough memory, and adds the draft to the live ones |
| `AuthOutcomes.DraftsLeaveOnlyForAReason` | internal/providerauth/service_chatgpt_provider_import_lifecycle.go:95-254 | In every run a draft leaves only by expiry while idle or at its release, by its cancellation while idle, by its finalization while claimed, or by a shutdown, and only its own seal, claim and release change it |
| `AuthOutcomes.DraftErrorsAreTrue` | internal/providerauth/service_chatgpt_provider_import_lifecycle.go:95-207 | Sealing, claiming and finalizing report only what is true of the draft they were asked for |
| `AuthService.EarliestExpiry` | internal/providerauth/service_callback_lifecycle.go:58-80 | The three loops find the least expiry over pending logins, completed logins and unclaimed drafts, or that there is none |
| `AuthService.Service.SyncTimer` | internal/providerauth/service_callback_lifecycle.go:44-81 | Re-arms the timer for the earliest expiry under a new epoch |
| `AuthService.Service.DeleteImportLocked` | internal/providerauth/service_chatgpt_provider_import_lifecycle.go:231-246 | Deletes the draft and adjusts the counters, keeping what they count beyond the drafts |
| `AuthService.Service.PruneImportsLocked` | internal/providerauth/service_chatgpt_provider_import_lifecycle.go:248-254 | The loop leaves exactly the claimed and the unexpired drafts and frees exactly the rest |
| `AuthService.Service.PruneSessionsLocked` | internal/providerauth/service_chatgpt_login.go:444-456 | Removes exactly the expired logins, credentials and drafts, from both pending maps |
| `AuthService.Service.BeginCheck` | internal/providerauth/service_callback_lifecycle.go:16-30 | First section of a login start |
| `AuthService.Service.BeginStore` | internal/providerauth/service_callback_lifecycle.go:31-42 | Second section: stores the login in both maps and re-arms the timer |
| `AuthService.Service.Expire` | internal/providerauth/service_callback_lifecycle.go:83-104 | The timer callback, with its epoch guard and its decision to stop the endpoint |
| `AuthService.Service.Reconcile` | internal/providerauth/service_callback_lifecycle.go:114-133 | Prunes and decides whether the idle endpoint is stopped |
| `AuthService.Service.StopEndpoint` | internal/providerauth/service_callback_lifecycle.go:143-150 | Marks the endpoint inactive and re-arms the timer |
| `AuthService.Service.Shutdown` | internal/providerauth/service_callback_lifecycle.go:154-182 | Clears every map by its loops and disarms the timer, once |
| `AuthService.Service.Poll` | internal/providerauth/service_chatgpt_login.go:141-172 | Status: completed before pending, expired if neither |
| `AuthService.Service.FinalizeLogin` | internal/providerauth/service_chatgpt_login.go:246-266 | Consumes a completed login, or reports that there is none |
| `AuthService.Service.ClaimLogin` | internal/providerauth/service_chatgpt_login.go:463-476 | Claims a pending login exactly when its state is still indexed after pruning |
| `AuthService.Service.CancelLogin` | internal/providerauth/service_chatgpt_login.go:379-395 | Deletes the pending login of a cancelled callback from both maps |
| `AuthService.Service.ExchangeFailed` | internal/providerauth/service_chatgpt_login.go:315-323 | A failed code exchange forgets the claimed login |
| `AuthService.Service.ExchangeDone` | internal/providerauth/service_chatgpt_login.go:332-377 | Stores a completed login unless the service is shut down or the login is incomplete |
| `AuthService.Service.Reserve` | internal/providerauth/service_chatgpt_provider_import_lifecycle.go:21-54 | Reserves a slot and bytes, with each of the refusals in order |
| `AuthService.Service.Unreserve` | internal/providerauth/service_chatgpt_provider_import_lifecycle.go:56-67 | Gives a reservation back |
| `AuthService.Service.UniqueID` | internal/providerauth/service_chatgpt_provider_import.go:170-185 | Keeps an unused first identifier; gives up only when eight generated identifiers in a row are blank, or eight tries at ever later positions all collide |
| `AuthService.Service.Stage` | internal/providerauth/service_chatgpt_provider_import.go:170-197 | Regenerates colliding identifiers, then turns the reservation into a staged draft |
| `AuthService.Service.SealDraft` | internal/providerauth/service_chatgpt_provider_import.go:233-302 | Seals a draft or reports the first of the refusals, changing nothing |
| `AuthService.Service.ClaimDraft` | internal/providerauth/service_chatgpt_provider_import_lifecycle.go:95-141 | Claims a sealed idle draft and hands out its candidates in document order |
| `AuthService.Service.ReleaseDraft` | internal/providerauth/service_chatgpt_provider_import_lifecycle.go:145-173 | Makes a claimed draft idle again, or destroys it when its window elapsed |
| `AuthService.Service.FinalizeDraft` | internal/providerauth/service_chatgpt_provider_import_lifecycle.go:178-207 | Consumes a claimed draft even after its window elapsed |
| `AuthService.Service.CancelDraft` | internal/providerauth/service_chatgpt_provider_import_lifecycle.go:211-229 | Deletes an idle draft and refuses on a claimed one |
| `CircuitBreaking.CircuitBreaker.RecordFailure` | internal/health/circuit.go:28-49 | Keeps the failures inside the window plus the new one, and trips exactly at the threshold |
| `CircuitBreaking.CircuitBreaker.GetFailureCount` | internal/health/circuit.go:52-66 | Counts the kept failures inside the window |
| `CircuitBreaking.CircuitBreaker.ResetProvider` | internal/health/circuit.go:69-73 | Forgets one provider only |
| `CircuitBreaking.CircuitBreaker.CleanUp` | internal/health/circuit.go:77-97 | The loop prunes every provider and drops those left empty |
| `CircuitBreaking.AgreesAboveFloor` | internal/health/circuit.go:28-97 | In every run whatsoever, no failure later than the highest prune cutoff is lost |
| `CircuitBreaking.AnswersAboveFloor` | internal/health/circuit.go:28-66 | For any clock and windows, a call that asks at or above the highest prune cutoff, which its caller can check, answers as the full history would |
| `CircuitBreaking.PruningIsInvisible` | internal/health/circuit.go:28-97 | With a clock that never goes back, one window and cleanups no shorter than it, every call answers as the full history since the last reset would |
| `CircuitBreaking.AnswersCountTheWindow` | internal/health/circuit.go:28-66 | Under the same conditions, in terms of the calls alone: the count is the number of failures recorded inside the window and not reset since, and a failure trips exactly when they and itself reach the threshold |
| `CircuitBreaking.CountIsRightIffNothingPrunedIsAskedFor` | internal/health/circuit.go:52-66 | For changing positive windows the count is right exactly when no failure lies between the asked cutoff and the highest prune cutoff |
| `CircuitBreaking.TripIsRightIffThresholdIsNotAmongThePruned` | internal/health/circuit.go:28-49 | For changing positive windows a failure trips the breaker as it should exactly unless the threshold falls among the pruned failures that were asked for |
| `CircuitBreaking.GrowingWindowLosesAFailure` | internal/health/circuit.go:28-66 | A run whose window grows and whose count misses a failure |
| `CircuitBreaking.ProvidersDoNotInterfere` | internal/health/circuit.go:28-97 | Dropping all calls for other providers from a run changes nothing for this one |
| `ErrorRules.ValidateKeywords` | internal/errorrule/validation.go:108-141 | The loop accepts exactly 1 to 16 distinct, normalised, non-empty keywords of at most 128 bytes without control characters |
| `ErrorRules.KeywordBytesFit` | internal/errorrule/validation.go:137-139 | The per-rule byte limit follows from the other limits |
| `ErrorRules.ValidateSpec` | internal/errorrule/validation.go:57-86 | A specification is accepted exactly when all its parts are valid |
| `ErrorRules.NormalizeKeywords` | internal/errorrule/validation.go:40-52 | The deduplicating loop |
| `ErrorRules.NormalizedHoldsEachFormOnce` | internal/errorrule/validation.go:40-52 | A normalised list holds exactly the normal forms of the given keywords, each once |
| `ErrorRules.NormalizedIsStable` | internal/errorrule/validation.go:40-52 | Normalising twice changes nothing |
| `RuleSets.ValidateRule` | internal/errorrule/ruleset.go:50-84 | Accepts a rule exactly when it is valid and differs from all earlier rules in identifier, generation and position |
| `RuleSets.CompileRuleSet` | internal/errorrule/ruleset.go:16-48 | Compilation accepts exactly the lists with valid rules, distinct identities and dense positions; the 8 MiB check rejects none of them |
| `RuleSets.MatcherBytesFit` | internal/errorrule/ruleset.go:41-43 | Matcher bytes are at most 256 * 2048, so the 8 MiB check cannot trip |
| `RuleSets.CompiledPositionsAreDense` | internal/errorrule/ruleset.go:45-47 | Positions are a permutation: after sorting, rule i has position i |
| `RuleSets.CompilationIgnoresOrder` | internal/errorrule/ruleset.go:16-48 | Every arrangement of the rules compiles alike |
| `Ordering.SortOrders` | internal/errorrule/ruleset.go:45-47 | Sorting puts distinct elements of a strict total order in order |
| `Ordering.InOrderIsUnique` | internal/errorrule/match.go:81-83 | At most one arrangement of given elements is in order, so an unstable sort has one result |
| `Text.NormalizeIdempotent` | internal/errorrule/match.go:163-165 | Trimming and lower-casing twice changes nothing |
| `RuleMatching.CollectCandidates` | internal/errorrule/match.go:71-85 | The filtering loop and sort of the enabled applicable rules; none for other than built-in APIs |
| `RuleMatching.PrecedenceIsAStrictTotalOrder` | internal/errorrule/match.go:94-119 | Precedence strictly and totally orders rules with distinct identifiers in every scope |
| `RuleMatching.MatchRule` | internal/errorrule/match.go:121-161 | The keyword and field loops |
| `RuleMatching.MatchMeaning` | internal/errorrule/match.go:121-161 | A rule matches when all, or else some, of its keywords occur in a field; the match reports exactly the keywords found, in order, and exactly their fields |
| `RuleMatching.MatchesTheTextAsItArrives` | internal/errorrule/match.go:121-165 | A rule with valid keywords matches exactly when all, or else some, of them occur in a field of the error as it arrived, whatever the case of its letters and the space around it; the fields reported are those that hold one |
| `RuleMatching.RunMatch` | internal/errorrule/match.go:43-57 | The loop over candidates and the choice of the winner |
| `RuleMatching.MatchIgnoresOrder` | internal/errorrule/match.go:43-85 | Match returns the same list and winner for every permutation of the rules |
| `RuleMatching.WinnerIsFirstInPrecedence` | internal/errorrule/match.go:43-119 | A winner exists exactly when an enabled applicable rule matches, and it precedes every other such rule |
| `RuleMatching.WinnerBeatsAllOthers` | internal/errorrule/match.go:43-119 | The winner is global only if no competing rule is for the provider; within its kind it is for all APIs only if none is for exactly this one; among rules alike in both it has the least position and, on equal positions, the first identifier |
| `RuleMatching.MatchesAreOrdered` | internal/errorrule/match.go:43-119 | The list holds the match of every competing rule and nothing else, each before those that it beats in the same terms |
| `RuleMatching.PlanDetection` | internal/errorrule/match.go:184-201 | The planning loop |
| `RuleMatching.ProbeTestIsExact` | internal/errorrule/match.go:184-201 | A valid action passes the planner's test exactly when some ledger, budget and eligibility make it retry, switch or abort |
| `RuleMatching.PlanIsSound` | internal/errorrule/match.go:184-201 | no_candidate: exactly for an API outside the table or a scope no enabled rule applies to; nothing matches any fields. observe_only: no matching rule can retry, switch or abort. probe: exactly when some candidate can |
| `ProbePlanning.ProbeCanHelpIffUnshadowed` | internal/errorrule/match.go:121-201 | For every accepted rule set, some error makes a winner act if and only if some candidate that calls for a probe can win, which its keywords and those of the candidates before it decide |
| `ProbePlanning.CanWinWins` | internal/errorrule/match.go:121-161 | The fields that make a candidate match while none before it does |
| `ProbePlanning.ProbeCanBeInVain` | internal/errorrule/match.go:184-201 | A concrete accepted two-rule set for which a probe is planned in every built-in scope although no error makes a winner act |
| `Text.NormalFormMeaning` | internal/errorrule/match.go:163-165 | The normal forms are exactly the trimmed texts without upper-case letters |
| `RetryLedger.Counters.Clone` | internal/errorrule/ledger.go:115-128 | The copying loop gives a map with the same counts that shares nothing with the original |
| `RetryLedger.StartStored` | internal/errorrule/ledger.go:70-102 | Copy-on-write: the given ledger keeps all its counts, and a started attempt is charged to a ledger whose three maps did not exist before |
| `RetryLedger.LedgersAreConserved` | internal/errorrule/ledger.go:55-102 | In every run the logical count is the sum of provider counts, and legacy plus rule retries of a provider are at most its attempts |
| `RetryLedger.CountersTallyTheRun` | internal/errorrule/ledger.go:55-102 | In every run each counter is the number of attempts started of its kind: in all, on the provider, as a legacy retry, as a retry under the rule |
| `RetryLedger.OverflowIffTotalIsFull` | internal/errorrule/ledger.go:70-102 | In conserved ledgers, exactly when an attempt starts and which refusal it meets otherwise; the total overflows first, so the three other overflow checks are redundant |
| `RetryLedger.BudgetIsKept` | internal/errorrule/ledger.go:45-53 | Under one positive budget no run starts more attempts than it |
| `RetryDecisions.RetryIsAffordable` | internal/errorrule/decision.go:134-156 | A decided retry can be started, and under retry_then_switch an attempt on another provider still can afterwards |
| `RetryDecisions.SwitchIsAffordable` | internal/errorrule/decision.go:147-153 | A decided switch can be started |
| `RetryDecisions.SettledDecisionsArePayable` | internal/errorrule/decision.go:111-209 | Every valid matched error is settled, and the ledger can pay for it: a retry can be started, a switch has its alternate and can be started, and nothing else starts an attempt |
| `RetryDecisions.ReasonsAreTrue` | internal/errorrule/decision.go:111-209 | The reason of every decision is true of its input, before and after the search for an alternate, and a switch says whether the provider was unavailable or the rule spent |
| `RetryDecisions.VisibleResponsesAreNeverRetried` | internal/errorrule/decision.go:111-171 | Once the client has seen something nothing is retried or switched; the response is observed, or aborted exactly where a retrying action says disconnect |
| `RetryDecisions.RetriesAreRecorded` | internal/errorrule/ledger.go:104-113 | Granted retries equal the recorded ones, and no rule exceeds its budget on any provider |
| `RetryDecisions.RetriesAreBounded` | internal/errorrule/decision.go:111-158 | Even without a global limit, the retries granted on one provider number at most the sum of the rules' budgets |
| `Failover.StricterScope` | internal/model/failover.go:160-180 | The result is one of the two scopes and no wider than either |
| `Failover.AnyVendorMatch` | internal/model/failover.go:130-140 | Some vendor other than the wildcard matches |
| `Failover.AllVendorsMatch` | internal/model/failover.go:145-155 | The list is not empty and every vendor in it matches |
| `Failover.IsFailoverVendorAllowed` | internal/model/switch.go:191-213 | The branches of the vendor check |
| `Failover.FailoverAllowedIff` | internal/model/failover.go:193-198 | For every chain and candidate, over providers and vendors: admission if and only if the budget and the cycle check allow it, the strictest scope lets the chain out, and the candidate accepts: never with scope none, and with scope vendor exactly when every known vendor of the chain, of which there is one, matches its own |
| `Failover.AdmittedIff` | internal/model/switch.go:173-213 | A whole chain is admitted if and only if each of its hops meets these conditions |
| `Failover.FailoverContext.Update` | internal/model/failover.go:47-54 | Appends to the chain and vendors, tightens the scope, counts the retry |
| `Failover.ProviderSwitchHistory.RecordProvider` | internal/model/switch.go:91-105 | Ignores missing identifiers and same-provider retries, counts the rest |
| `Failover.ProviderContinuityContext.ObserveProvider` | internal/model/switch.go:155-169 | Keeps the first origin and vendor, appends the vendor, tightens the scope |
| `Failover.HistoriesAgreeIffMoving` | internal/model/failover.go:61-70 | The split history equals the older context exactly for chains in which every provider has an identifier and none follows itself |
| `Failover.RepresentationsStayInLockstep` | internal/model/failover.go:193-198 | Along such chains both halves agree, and IsFailoverAllowed equals the two split checks |
| `Failover.ScopeOnlyTightens` | internal/model/failover.go:47-54 | The strictest scope only tightens along a chain |
| `Failover.NoneEndsTheRun` | internal/model/switch.go:198-200 | No hop is admitted once the scope is none |
| `Failover.VendorScopeFreezesVendors` | internal/model/switch.go:191-213 | Once the scope is vendor, the set of concrete contaminated vendors never grows |
| `Failover.AdmittedChains` | internal/model/switch.go:173-185 | Only a missing identifier can repeat in an admitted chain; the switch count is the chain length minus one and within the budget |
| `Failover.RunsEndOnAFinitePool` | internal/model/switch.go:173-185 | Runs over a finite pool of identified providers end within its size |
| `Failover.UnidentifiedProvidersRepeat` | internal/model/switch.go:107-112 | A provider without an identifier can be admitted any number of times |
| `AnalyticsWindow.AlignUTC` | internal/analyticswindow/window.go:289-297 | The corrected truncating remainder gives the latest multiple of the step not after the instant, before the epoch too |
| `AnalyticsWindow.ValidateBucketCount` | internal/analyticswindow/window.go:274-287 | Counting by steps rejects exactly the windows whose closed-form count exceeds 512 |
| `AnalyticsWindow.Buckets` | internal/analyticswindow/window.go:244-272 | The loop lists exactly the clipped buckets, or the error |
| `AnalyticsWindow.BucketsPartitionTheWindow` | internal/analyticswindow/window.go:244-272 | For every pair of instants the buckets are non-empty, contiguous, span the window, and each instant lies in exactly one, keyed by its own aligned start |
| `AnalyticsWindow.WholeStepsCount` | internal/analyticswindow/window.go:274-287 | A window of n whole steps has n buckets when aligned and n + 1 otherwise |
| `AnalyticsWindow.FixedPeriodsFit` | internal/analyticswindow/window.go:316-336 | Fixed periods with permitted granularities have at most 289 buckets |
| `AnalyticsWindow.ResolveNeverHasTooManyBuckets` | internal/analyticswindow/window.go:142-212 | The too-many-buckets error is unreachable when resolving a request |
| `AnalyticsWindow.ResolvesIffAskedFor` | internal/analyticswindow/window.go:142-212 | A request resolves to a window if and only if it asks for that window by the table in seconds: the named or usual period, granularity and end, each given at most once |
| `AnalyticsWindow.AllOfTimeResolvesIff` | internal/analyticswindow/window.go:218-240 | All of time resolves against the earliest row exactly when there is none, or it lies in range before the end and the buckets are not too many |
| `AnalyticsWindow.AcceptedRequestsHaveBuckets` | internal/analyticswindow/window.go:142-240 | From an accepted request to its buckets: the window covers exactly the period asked for and always has its buckets |
| `Routing.DecodePathSegments` | internal/apicontract/routing.go:254-268 | The decoding loop |
| `Routing.MatchPath` | internal/apicontract/routing.go:224-252 | The segment comparison loop, exact and prefix |
| `Routing.ResolveRequest` | internal/apicontract/routing.go:163-188 | The search through namespaces, the route table and custom tools |
| `Routing.ResolveFindsTheOwner` | internal/apicontract/routing.go:163-188 | For paths whose segments decode, resolution never fails and finds an API exactly when it owns the method and the decoded segments |
| `Routing.OwnershipDependsOnSegments` | internal/apicontract/routing.go:98-114 | Two paths with the same decoded segments have the same owner, whatever their spelling |
| `Routing.PlainPathsAreRoutedByTheirRawSegments` | internal/apicontract/routing.go:98-114 | A path without escapes has the same owner whether or not it is decoded, by its raw segments |
| `Routing.OwnerIsUnique` | internal/apicontract/catalog.go:99-200 | At most one built-in or custom contract owns a method and path |
| `Routing.RouteDecidesFamily` | internal/apicontract/catalog.go:99-200 | The bare routes of different contracts are disjoint |
| `Routing.RouteOwnsMeaning` | internal/apicontract/routing.go:217-252 | A route owns its own method, or HEAD where it is for GET; an exact route its own segments, a prefix route exactly those that begin with its own up to the last slash and go on |
| `Routing.RewriteDropsTheOwnersSegments` | internal/apicontract/routing.go:190-215 | The rewrite drops exactly the owner's namespace segments and at most one v1 segment where the policy says so, and keeps the remaining bytes |
| `Routing.WellFormedPathsAreRoutedToTheirOwner` | internal/apicontract/routing.go:106-135 | The whole interpretation of a percent-encoded path: owner, upstream path and the WebSocket requirement |

## Left out

- HTTP handlers, JSON decoding, SQLite, configuration, logging and the web UI: only the outcomes of their calls appear, as parameters or nondeterministic steps.
- JWT verification, hashing, random values and UUID generation: opaque, with the freshness assumptions above.
- Text is ASCII: Unicode trimming, lower-casing, control characters and UTF-8 validity are not modelled.
- Liveness of goroutines and timers: the model says what a step does when it happens, not that it happens.
- Sessions that are deleted and created again. A response lost on the way back is an exchange that failed.
- Wrap-around of the 64-bit timer epoch.
- The lease of several sessions at once: the refresh protocol follows one session.
- The forced usage fetch and replacement by another writer are steps of the refresh protocol, but both store a snapshot without comparing fetch times (internal/providerauth/service_profile.go:68-73), so claims about fetch times hold between such overwrites only.
- The OAuth client, verifier and credential carried by a login: a completed login carries its account only.
- Draft operations take identifiers already trimmed; an empty one is refused by the callers' first check.
- Which validation message a rejected rule or specification produces: the model has one outcome for all of them.
- A missing (nil) rule set, failover context or provider interface beyond the cases listed in the table.
- The observation time kept in a continuity context, which admission never reads.
- Granularities that are not whole seconds, which no table entry has.
- The library sort is modelled by an insertion sort that returns a new sequence; its result is the only one in order (Ordering.InOrderIsUnique).
- Bare-route patterns are written as segments; the pattern text is their join.
- The check before a coordinated refresh, which returns an unexpired credential without taking the lease (internal/providerauth/service_refresh_coordination.go:219-236): runs start where a call asks for the refresh.
- Configuration import, scope selection, routing policy, evidence encoding and the health manager's database transitions: mostly branch-by-branch validation, or stores that are not part of this model.
- The agreement of decisions with the evidence validator is not claimed: that validator rejects two reasons that decisions may give.
- RefreshProtocol.NoGenerationExchangedTwice: counts the exchanges whose answers were kept. An exchange that the endpoint performed and whose answer is then rejected here, because it cannot be decoded or names another account (internal/providerauth/chatgpt_refresh.go:48-64, 112-150), keeps nothing and may be sent again; RefreshProtocol.KeptGenerationsAreNeverSentAgain says when, and RefreshProtocol.RejectedGenerationsCanBeSentAgain that it can happen.
- RefreshProtocol.NoExchangeResultIsLost: an answer that was rejected here is no result, so it is not tracked.
- RefreshRegistry.Registry.Invalidate: does not count the invalidated generations for the log.
- ImportDrafts.ParseCandidates: does not carry the warnings and preview items that the loop also builds.
- AuthService.Service.Poll: does not carry the texts of the status response.
- AuthService.Service.ExchangeDone: keeps the account identifier of the credential only.
- ErrorRules.ValidateSpec: one outcome for all rejections, over ASCII text.
- ErrorRules.ValidateKeywords: one outcome for all rejections; UTF-8 validity and control characters beyond ASCII are not modelled.
- ErrorRules.NormalizeKeywords: trims and lower-cases ASCII only.
- RuleSets.ValidateRule: one outcome for all rejections.
- RuleSets.CompileRuleSet: one outcome for all rejections.
- Text.NormalizeIdempotent: ASCII only.
