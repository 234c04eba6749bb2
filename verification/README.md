# dmanager in Dafny

dmanager is a Go daemon that mirrors a Docker host's containers into SQLite, upgrades
them, streams changes to a React client and guards access with sessions, passkeys and a
login rate limiter. This project models its stateful protocols and proves what they keep.

| file | models |
|---|---|
| `ContainerTable.dfy` | the `containers` table and startup reconciliation |
| `UpgradeProtocol.dfy` | an upgrade interleaved with the FIFO event monitor and the rest of the host, as a state machine over daemon calls and queries |
| `UpgradeCode.dfy` | the event handler, the network plan and the commit as code on the table, tied to the state machine |
| `UpgradeWitness.dfy`, `UpgradeState.dfy` | runs that complete on either path; exactly when the columns the upgrade copies from the daemon end up right |
| `ClientView.dfy`, `UpgradeClient.dfy`, `UpgradeListing.dfy` | the browser's container list with debounced deletes, alone and fed by an upgrade; exactly when it ends up right |
| `RateLimit.dfy`, `RateLimiter.dfy`, `LoginRaces.dfy` | the limiter against a full-history specification, its bounds, the code in place, and overlapping logins |
| `Sessions.dfy`, `SessionRaces.dfy`, `SessionService.dfy` | session lifecycle over serialized runs and over interleaved requests, and the code in place |
| `Challenges.dfy`, `ChallengeRaces.dfy` | WebAuthn challenges over serialized runs and over interleaved requests |
| `LogFrames.dfy`, `LogBuffer.dfy`, `LogSyncer.dfy` | log stream decoding, the log ring, the client log queue |
| `Broker.dfy`, `BrokerRaces.dfy` | the event broker, with single and with overlapping publishes |
| `AuditRetention.dfy` | audit trimming by text comparison |

`dafny verify dfyconfig.toml` checks everything. Times are integers (nanoseconds, or seconds
for the audit trail); external parts appear as parameters, nondeterministic steps or maps.
Handlers that touch shared state in several queries are split into those queries in the
container protocol, in the log syncer and in the files named `Races`; the files beside those
have the serialized runs.

Where a promise turned out false of the code, there is a run that breaks it and the exact
condition under which it holds:

- The upgrade's comment promises an atomic swap that avoids races. For ids and settings the
  model confirms it (`CompletedUpgrade`, `SwapNeverConflicts`). The `state` it writes was
  sampled earlier. When the swap finds the old row this does no harm: the monitor still has
  an event of the replacement to handle and corrects the row. The fallback can leave "running"
  for a container that has exited (`StaleStateHappens`); `ReplacementRowIsExact` says when.
- The table keeps the settings, but the monitor can publish a row it read before the commit
  after the upgrade's own notice, and then every browser shows auto-update off
  (`StaleListingHappens`); `ListingIsExact` says when.
- Reconciliation against an empty host list deletes nothing, although its comment says that
  orphans are deleted (`ReconciledMatchesHost`).
- Logins tried one after the other never put more than eight failures on record
  (`LoginsStayBelowCap`). With `m` of a key under way at once, two or more, the bound is `8 + m`,
  and it holds as long as `m` is at most 24 or the platform saturates the conversion of a lockout
  out of range; otherwise the lockout of the 33rd failure ends too early (`OverlapBoundIff`).
- A session's idle deadline never moves back when requests are serialized, but can when they
  overlap (`TouchRewindsIff`). Worse, a request that read the row before another one extended
  it can find its copy expired and delete the row, so an active user loses the session
  (`ActiveSessionLost`); `ActiveUnderRaces` says when an active user keeps it, and
  `SlackIsTight` that it asks no more promptness of the requests than it must. Purging is
  unobservable in serialized runs, but a purge between a request's clock reading and its write can
  cost an active user the session (`PurgeCostsSession`); `PurgeCostsIff` says when.
- A passkey challenge completes one ceremony when Finish requests are serialized, but two when
  both look it up before either marks it (`ReuseHappens`); `SharedIff` says when.

## Model

| member | source | states |
|---|---|---|
| `ContainerTable.UpsertAllContents` | internal/container/sync.go:23-40 | after upserting any host list: the ids are the old ones and the host's, old rows keep all settings, newcomers get the column defaults, rows off the host are untouched |
| `ContainerTable.ReconciledMatchesHost` | internal/container/sync.go:20-45 | the table's ids are exactly the host's if and only if the host list is nonempty or the table was empty; in any case survivors keep every setting, newcomers get the defaults, and each row shows image, image id, state and the name without its leading slash as last listed or, for an empty list, is unchanged |
| `ContainerTable.SwapColumns` | internal/db/containers.sql.go:253-280 | column by column: with the old id there and the new one free the row moves to the new id with the given name, image, image id, state and time, `update_available` 0 and the other settings kept, and no other row changes; otherwise nothing does |
| `ContainerTable.Containers.UpsertContainerFromEvent` | internal/db/containers.sql.go:305-333 | writes the four observed columns, keeps the settings of an existing row, gives a new one the defaults |
| `ContainerTable.Containers.UpdateContainerForUpgrade` | internal/db/containers.sql.go:253-280 | moves the row to the new id, clearing `update_available`; zero rows when the old id is absent, a conflict when both ids are present |
| `ContainerTable.Containers.DeleteOrphanContainers` | internal/db/containers.sql.go:24-41 | deletes the rows not listed, or none for an empty list |
| `ContainerTable.Containers.SyncContainers` | internal/container/sync.go:13-48 | the loop leaves the reconciled table |
| `UpgradeProtocol.StepKeeps` | internal/container/upgrade.go:48-274 | every step of the host, the monitor and the upgrade keeps the invariant: no row outlives its destroy event, no live container is missed, and the old settings reach the replacement's row |
| `UpgradeProtocol.RunKeeps` | internal/container/upgrade.go:48-274 | the invariant holds in every reachable state of every interleaving |
| `UpgradeProtocol.CompletedUpgrade` | internal/container/upgrade.go:130-246 | in every interleaving of a completed upgrade, once the queue drains the old id has no row and the fresh new id has one with `auto_update`, digest and check time as before the run and `update_available` 0, by swap or fallback; the replacement is on all the old networks |
| `UpgradeProtocol.SwapNeverConflicts` | internal/container/upgrade.go:209-227 | in every reachable state the swap is not a primary-key conflict |
| `UpgradeProtocol.DrainedTableMirrorsHost` | internal/docker/monitor.go:53-101 | whatever the upgrade's outcome, once drained the table's ids are live, equal the host's ids if no inspection of a live container failed, and bystanders keep their settings |
| `UpgradeCode.HandleEvent` | internal/docker/monitor.go:53-101 | for create, start, stop, die and update of a live container that can be inspected: its row shows name, image, image id and state as inspected, settings are kept or defaulted, and the row is announced; for destroy and delete the row goes and that is announced; anything else changes and announces nothing |
| `UpgradeCode.HandlerIsMonitorRun` | internal/docker/monitor.go:53-101 | the handler, uninterrupted, is a run of the protocol's monitor |
| `UpgradeCode.PlanNetworks` | internal/container/upgrade.go:140-153 | for nonempty names the first network and the others make up the networks, whatever the iteration order |
| `UpgradeCode.CommitUpgrade` | internal/container/upgrade.go:207-265 | a conflict exactly when both ids have rows; otherwise the new row, column by column, with the old row's settings or the loaded ones if it is gone, no other row changed, and the notices in order |
| `UpgradeCode.CommitIsProtocolRun` | internal/container/upgrade.go:207-265 | the commit, uninterrupted, is a run of the protocol |
| `UpgradeWitness.EitherPathCompletes` | internal/container/upgrade.go:207-246 | from every initial state there are complete, drained runs through the swap and through the fallback |
| `UpgradeState.CommittedColumns` | internal/container/upgrade.go:200-246 | over every run, the step that commits leaves in the replacement's row the old name and image, the image id the pull reported, the state the upgrade saw, the settings of the start, `update_available` 0 and the time; the old row is gone and no other row changes |
| `UpgradeState.ReplacementRowIsExact` | internal/container/upgrade.go:200-246 | once drained, any of the daemon's columns of the replacement's row are right if and only if the swap wrote the row; or, in the state in which the fallback wrote it, what it wrote was right, or the monitor had an event of the container to handle or a snapshot of it to write; or the container changed later |
| `UpgradeState.StaleStateHappens` | internal/container/upgrade.go:200-217 | from every initial state there is a complete, drained run that leaves "running" for an exited container |
| `ClientView.IdsAlwaysDistinct` | frontend/src/hooks/useContainers.ts:234-270 | for any messages and timer firings at all, listed ids stay pairwise distinct |
| `ClientView.SaveMembers` | frontend/src/hooks/useContainers.ts:250-268 | a save leaves exactly the saved entry under its name, whether it matched by id, by name or not at all |
| `ClientView.SaveAgreesIff` | frontend/src/hooks/useContainers.ts:250-268 | if the list minus armed entries is the table, then after a save it still is if and only if no other container in the table has the name |
| `ClientView.ListIsTable` | frontend/src/hooks/useContainers.ts:234-270 | for every input sequence with stable, distinct live names, the list minus armed entries is the table at every step, and the list is the table when no timer is armed |
| `ClientView.RecreatedInPlace` | frontend/src/hooks/useContainers.ts:235-268 | a container deleted and saved again under its name before the timer goes off keeps its place in the list and the timer is off; if it goes off instead, exactly that entry goes |
| `ClientView.ContainersHook.OnMessage` | frontend/src/hooks/useContainers.ts:234-270 | a delete leaves the list and arms a timer for the entry's name; a save disarms the timer of its name and replaces the entry with its id, else the one with its name, else appends |
| `ClientView.ContainersHook.OnTimer` | frontend/src/hooks/useContainers.ts:242-245 | an armed timer removes exactly the entries with its id and disarms itself |
| `UpgradeClient.RunTells` | internal/container/upgrade.go:248-265 | in every reachable state the messages carry the ids' own names, none deletes a live replacement, and while destroy(old) is queued so is an event of the replacement |
| `UpgradeClient.LastSaveWins` | frontend/src/hooks/useContainers.ts:250-268 | a client's entry for the replacement is exactly what the last save it heard about either container says, whatever it missed and whatever its timers did |
| `UpgradeClient.ClientFollowsUpgrade` | frontend/src/hooks/useContainers.ts:234-270 | at any point of any run, for any received part of the messages and any timer schedule, a client lists the replacement and not the old container if and only if the last save it received about either is the replacement's; with all messages and no failed inspection that is so once the upgrade is complete and drained |
| `UpgradeListing.ListsCarriedOverIff` | frontend/src/hooks/useContainers.ts:250-268 | at any point of any run, for any received part of the messages, a client lists the replacement with the settings carried over if and only if the last save it received about the pair is the replacement's and has a `last_updated_at` |
| `UpgradeListing.ListingIsExact` | cmd/serve.go:110-130 | a client that received everything lists the replacement with the settings carried over if and only if, when the upgrade published its notice, the monitor was not holding a row of it without a `last_updated_at`, that is one read before the commit, or had another event of the container to handle, or the container changed later |
| `UpgradeListing.StaleListingHappens` | cmd/serve.go:110-130 | from every initial state there is a complete, drained run after which the table has the settings and every client that received everything shows auto-update off |
| `RateLimit.BackoffExact` | internal/auth/ratelimit.go:122-136 | the product fits int64 exactly up to count 32; there the lockout is min(base * 2^(count-5), max), within [base, max], and the maximum from count 9 on |
| `RateLimit.BackoffMonotone` | internal/auth/ratelimit.go:122-136 | the lockout is nondecreasing in the count, from 5 to 32 |
| `RateLimiter.BackoffTable` | internal/auth/ratelimit.go:122-136 | the lockouts in nanoseconds: one, two, four and eight minutes for 5 to 8 failures and fifteen minutes for 9 to 32 |
| `RateLimit.StepHidden` | internal/auth/ratelimit.go:49-148 | every operation answers as the specification does and stays in step with it |
| `RateLimit.ForgettingIsUnobservable` | internal/auth/ratelimit.go:49-182 | for every run under a nondecreasing clock, all answers equal those of the specification that keeps whole histories |
| `RateLimit.AtMostEight` | internal/auth/ratelimit.go:112-136 | a history in which failures respect lockouts never has nine in one window |
| `RateLimit.NineSpanAWindow` | internal/auth/ratelimit.go:112-136 | any nine consecutive failures of a history in which failures respect lockouts span at least 15 minutes |
| `RateLimit.LockoutAtMostEightMinutes` | internal/auth/ratelimit.go:122-136 | no lockout of a history in which failures respect lockouts exceeds eight minutes |
| `RateLimit.GatedRunsStayBelowCap` | internal/auth/service.go:250-281 | in every serialized run of checked failures no record ever holds more than eight failures and no answer exceeds eight minutes, whatever the float conversion would do out of range |
| `RateLimit.HistoriesAreRealizable` | internal/auth/service.go:250-281 | every respectful history is that of a gated run |
| `RateLimit.EightIsReached` | internal/auth/ratelimit.go:122-136 | the bound is tight: a gated run with eight failures recorded and an eight-minute lockout |
| `RateLimiter.CompactInPlace` | internal/auth/ratelimit.go:112-120 | the compaction that shares its own buffer leaves exactly the recent failures, in order |
| `RateLimiter.AttemptTable.CheckKey` | internal/auth/ratelimit.go:69-82 | what remains until `lockedUntil`, zero for an empty, unknown or unlocked key |
| `RateLimiter.AttemptTable.RecordFailureKey` | internal/auth/ratelimit.go:102-140 | the failures of the last fifteen minutes and the new one; no lock below five, and for each count up to 32 the lockout in nanoseconds |
| `RateLimiter.AttemptTable.EvictExpired` | internal/auth/ratelimit.go:150-182 | deleting while ranging leaves exactly the records that are locked or have a failure of the last fifteen minutes |
| `RateLimiter.HasRecent` | internal/auth/ratelimit.go:155-161 | finds a recent failure if and only if there is one |
| `RateLimiter.RateLimiter.Check` | internal/auth/ratelimit.go:49-67 | locked exactly when one of the two keys is, for the longer of the two waits; only stale records go |
| `RateLimiter.RateLimiter.RecordFailure` | internal/auth/ratelimit.go:86-100 | each nonempty key has its failures of the last fifteen minutes and the new one; others lose at most stale records |
| `RateLimiter.RateLimiter.RecordSuccess` | internal/auth/ratelimit.go:142-148 | forgets the user's record only |
| `RateLimiter.LoginsAreGated` | internal/auth/service.go:240-283 | any run of logins, one after the other, is a gated run |
| `RateLimiter.LoginsStayBelowCap` | internal/auth/service.go:240-283 | whatever logins are tried one after the other, no key holds more than eight failures, no wait exceeds eight minutes, and every answer is that of the full history |
| `LoginRaces.PairIsLogin` | internal/auth/service.go:250-283 | a check directly followed by its outcome does to the limiter what the login handler does |
| `LoginRaces.OverlapBound` | internal/auth/service.go:250-281 | over every interleaving of checks and outcomes with at most `m` logins of a key under way, no key holds more than `8 + m` failures, for `m` up to 24 or a saturating conversion |
| `LoginRaces.BoundIsReached` | internal/auth/ratelimit.go:122-136 | for every `m` from two on there is a run that puts `8 + m` failures on record |
| `LoginRaces.BoundIsExceeded` | internal/auth/ratelimit.go:128-132 | for every other `m` and conversion there is a run that exceeds the bound: the 33rd failure computes a lockout out of range, which ends before the failures leave the window |
| `LoginRaces.OverlapBoundIff` | internal/auth/ratelimit.go:102-140 | for `m` from two on, `8 + m` bounds the failures of a key in every run in which at most `m` of its logins are under way if and only if `m` is at most 24 or the conversion saturates |
| `RateLimiter.Login` | internal/auth/service.go:240-300 | which of the four results, if and only if: missing input, a locked key, wrong or right credentials; the announced wait is the lockout rounded up to seconds; after a login the user has no record and addresses keep theirs, after wrong credentials both keys have one more failure |
| `Sessions.RunDeadlines` | internal/auth/interceptor.go:64-75 | over every serialized run, for standard and remember-me sessions and validated timeouts, idle deadlines never move back and never exceed the absolute one, which never changes, and a removed session never comes back |
| `Sessions.RemovedNeverReturns` | internal/auth/interceptor.go:46-62 | a session no longer in the table never authenticates again |
| `Sessions.AcceptedThenRejected` | internal/auth/interceptor.go:40-88 | over every run the verdicts on a token are acceptances followed by rejections |
| `Sessions.PurgesAreUnobservable` | internal/auth/purge.go:15-23 | leaving all purges out of a serialized run changes no verdict |
| `Sessions.PurgeSchedulesAgree` | internal/auth/purge.go:15-23 | serialized runs that differ only in where purges happen authenticate the same requests |
| `Sessions.UnusedLifetime` | internal/auth/service.go:185-201 | a session issued and not used is accepted at a time if and only if nobody of its user ended it and the time is within the idle timeout of its kind, remember-me or standard, from issue |
| `Sessions.AbsoluteLifetime` | internal/auth/service.go:185-201 | after any run, a session just accepted is accepted again within half an idle timeout if and only if nobody of its user ends it and the absolute timeout of its kind from issue is not over |
| `Sessions.ActiveSessionStays` | internal/auth/interceptor.go:54-75 | a session just accepted is accepted again within floor(idle/2) and by the absolute deadline if and only if no request of its own user logged it out or revoked it; nobody else's requests and no purge cost it |
| `Sessions.HalfIdleIsTight` | internal/auth/interceptor.go:64-65 | a request one tick more than half an idle timeout after an accepted one can be rejected |
| `Sessions.RunShortLived` | internal/auth/service.go:199-201 | a standard session is never granted more than one idle timeout beyond the present |
| `Sessions.SilentSessionEnds` | internal/auth/interceptor.go:54-75 | a standard session silent for more than the idle timeout is rejected, whatever others do |
| `SessionRaces.TouchRewindsIff` | internal/auth/interceptor.go:64-75 | with overlapping requests a touch moves the idle deadline back if and only if a request that took a later time has already touched the row, short of the absolute deadline |
| `SessionRaces.RewindHappens` | internal/auth/interceptor.go:46-75 | for every sizeable configuration there is a run of requests that each write within a tick, leading to a touch that moves the idle deadline back |
| `SessionRaces.StartIsIssue` | internal/auth/service.go:185-222 | starting a session in the interleaved model is issuing one in the serialized model |
| `SessionRaces.TripleIsAuthenticate` | internal/auth/interceptor.go:40-75 | reading, taking the time and writing at one moment is the interceptor of the serialized model |
| `SessionRaces.DeadlinesUnderRaces` | internal/auth/interceptor.go:54-75 | over every interleaving the idle deadline stays within the absolute one fixed at issue, and a standard session inactive for more than the idle timeout is expired |
| `SessionRaces.StepDropsIff` | internal/auth/interceptor.go:46-62 | an issued session has a row after a step if and only if it had one before and the step was no removal of it, no purge past the row's deadlines, and no write of a request that took a time past the deadline it had read, whatever the row says by now |
| `SessionRaces.PresentIff` | internal/db/sessions.sql.go:174-187 | over every interleaving a row is there if and only if no removal, no purge past its deadlines and no write of a request that found its copy expired has taken it away; a touch already under way never brings it back |
| `SessionRaces.ActiveSessionLost` | internal/auth/interceptor.go:46-75 | for every sizeable configuration there is a run of requests that each write within a tick, with no removal and no purge, that ends with a session accepted one tick earlier and extended by a whole idle timeout, deleted by a request that had read the row before |
| `SessionRaces.ActiveUnderRaces` | internal/auth/interceptor.go:54-75 | over every interleaving of requests that each write within half of (idle - floor(idle/2)) of their reading, a session accepted within half an idle timeout and not past its absolute deadline is accepted again if and only if no removal, no purge past its deadlines and no request that found its copy expired has taken it away |
| `SessionRaces.SlackIsTight` | internal/auth/interceptor.go:64-75 | for every larger slack and sizeable configuration there is a run in which nothing takes the session away and it has expired all the same |
| `SessionRaces.PurgeCostsIff` | internal/auth/purge.go:15-23 | a purge takes away a session that is active later if and only if a request under way at the purge is accepted after it |
| `SessionRaces.PurgeCostsSession` | internal/auth/purge.go:15-23 | for every configuration with room to slide there is a run in which a purge does, and which without the purge extends the session by a whole idle timeout |
| `SessionService.AuthService.IssueSession` | internal/auth/service.go:185-222 | inserts the session with the idle and absolute timeouts of its kind from now, failing on a duplicate token |
| `SessionService.AuthService.Authenticate` | internal/auth/interceptor.go:40-88 | which of the four verdicts, by the row's two deadlines and the user; an expired row goes, an accepted one slides to the idle timeout from now within the absolute deadline once half of it is used up, and no other row changes |
| `SessionService.AuthService.Serve` | internal/auth/service.go:302-320 | exactly which rows logout, revocation of one and of all others take away |
| `Challenges.RowsStem` | internal/db/webauthn.sql.go:37-78 | every row stems from one Begin with its bytes, kind, owner and deadline |
| `Challenges.CompletionHasOrigin` | internal/auth/service.go:569-600 | a completed ceremony has a Begin of its own kind with the same bytes less than 120 s earlier; a registration's was made for the same user |
| `Challenges.ClaimsAreDistinct` | internal/auth/service.go:739-751 | two claims of a serialized run never share a row |
| `Challenges.CompletionsMapInjectively` | internal/auth/service.go:726-751 | completed ceremonies of a serialized run map injectively to Begin operations |
| `Challenges.UsableForTwoMinutes` | internal/auth/service.go:569-600 | a Finish with the bytes of a Begin nobody else used completes if and only if it is verified, of the same kind and owner, and less than 120 s later |
| `Challenges.PurgeLeavesFresh` | internal/db/webauthn.sql.go:266-274 | after a purge every row left stems from a Begin at most 120 s old and is not consumed |
| `Challenges.PurgesAreUnobservable` | internal/db/webauthn.sql.go:266-274 | purging anywhere in a serialized run changes no outcome |
| `ChallengeRaces.PairIsFinish` | internal/auth/service.go:739-751 | a lookup directly followed by its marking is the serialized operation |
| `ChallengeRaces.FoundAgainIff` | internal/db/webauthn.sql.go:170-195 | over every interleaving a row found by a query is found again by it if and only if it has not expired and nobody marked it in between |
| `ChallengeRaces.SharedIff` | internal/auth/service.go:739-751 | two requests go on with one challenge if and only if they asked for the same bytes of the same kind, the later lookup came before it expired, and nobody marked it between the lookups |
| `ChallengeRaces.SharedOverlap` | internal/auth/service.go:739-751 | two requests go on with one challenge only if one looked it up before the other marked it, or the marking failed |
| `ChallengeRaces.MarkedForGood` | internal/db/webauthn.sql.go:14-24 | over every interleaving a row once marked is found by no later lookup |
| `ChallengeRaces.CleansAreUnobservable` | internal/db/webauthn.sql.go:266-274 | over every interleaving, leaving all purges out changes neither what any lookup finds nor what any request goes on with |
| `ChallengeRaces.ReuseHappens` | internal/db/webauthn.sql.go:14-24 | a run in which two requests go on with one challenge, both markings succeeding |
| `ChallengeRaces.ClaimHasOrigin` | internal/auth/service.go:569-600 | over every interleaving a request goes on only with the challenge of a Begin of its kind with the same bytes less than 120 s before its lookup; a registration's was made for the same user |
| `Challenges.ChallengeStore.GetUnconsumed` | internal/db/webauthn.sql.go:170-195 | finds an unconsumed, unexpired row with the bytes and kind, if there is one |
| `Challenges.ChallengeStore.TryLogin` | internal/auth/service.go:739-751 | consumes what it finds before anything else is verified |
| `Challenges.ChallengeStore.TryRegistration` | internal/auth/service.go:583-600 | consumes only the caller's own challenge |
| `LogFrames.TruncationKeepsCompleteFrames` | internal/container/logs.go:145-163 | cutting an encoded stream anywhere yields exactly the lines of the complete frames |
| `LogFrames.DecodeEncodeAll` | internal/container/logs.go:137-196 | decoding any concatenation of frames yields all their lines in order |
| `LogFrames.SplitTerminated` | internal/container/logs.go:165-169 | splitting finds terminated lines and an unterminated tail again |
| `LogFrames.SplitLosesNothing` | internal/container/logs.go:165-169 | any payload is its pieces joined by newlines |
| `LogFrames.SplitIsUnique` | internal/container/logs.go:165-169 | the pieces are the only newline-free ones of which that is true |
| `LogFrames.ParseLosesNothing` | internal/container/logs.go:172-180 | timestamp and text rebuild the line |
| `LogFrames.StampedLine` | internal/container/logs.go:172-180 | what is before the first space, if it is a timestamp, arrives as the timestamp and what follows the space as the text |
| `LogFrames.FrameStream` | internal/container/logs.go:182-185 | a message is from stderr if and only if the first byte of its frame is 2 |
| `LogFrames.StreamRoundTrip` | internal/container/logs.go:137-196 | for any batches of lines of stdout (written as 1) or stderr (written as 2), with or without timestamps and carriage returns, and any cut, the messages are exactly the lines that arrived whole, in order, each with its text, timestamp and stream |
| `LogFrames.Reader.ReadFull` | internal/container/logs.go:145-157 | fills the buffer or fails where the data ends |
| `LogFrames.ReadFrame` | internal/container/logs.go:145-163 | one round uses at least eight bytes and contributes its frame's lines |
| `LogFrames.SendLines` | internal/container/logs.go:165-195 | one message for every line but an empty last piece, without its carriage return, split at the first space if what is before is a timestamp, and from stderr exactly for kind 2 |
| `LogFrames.StreamLogs` | internal/container/logs.go:135-197 | the loop ends and sends exactly the decoded lines |
| `LogBuffer.AddHolds` | internal/logging/buffer.go:28-38 | adding keeps the slice and cursor a rotation of the last `capacity` entries |
| `LogBuffer.FilterNewest` | internal/logging/buffer.go:57-83 | the backward loop returns the first `limit` matches of the reversed list, or all for a nonpositive limit |
| `LogBuffer.NewestMeans` | internal/logging/buffer.go:40-84 | a query returns entries of the last `capacity`, newest first, that have the level and contain the text in message, component or metadata, at most `limit`, and leaves out a sought one only if older than all returned and for the limit |
| `LogBuffer.RingBuffer.Add` | internal/logging/buffer.go:28-38 | extends the history by one entry |
| `LogBuffer.RingBuffer.Get` | internal/logging/buffer.go:40-84 | the newest matching entries of the last `capacity` ever added, for any case folding |
| `LogSyncer.LostIffCleared` | frontend/src/services/syncer.ts:17-67 | however enqueues, failed reads, calls, deletes and clears, and reloads interleave, an entry is lost if and only if the queue was cleared while the entry was in it and not yet accepted |
| `LogSyncer.EntriesAreNeverLost` | frontend/src/services/syncer.ts:55-63 | in every run in which the queue is never cleared every entry is still queued or was accepted |
| `LogSyncer.AcceptedOnceInOrder` | frontend/src/services/syncer.ts:22-54 | without failures the server accepts every entry exactly once, in id order |
| `LogSyncer.EachStepIsProgress` | frontend/src/services/syncer.ts:22-54 | every step but an enqueue or a new start leaves strictly less to do |
| `LogSyncer.LoopEnds` | frontend/src/services/syncer.ts:22-54 | from any reachable state, without new entries the loop ends within four steps per entry and three more |
| `LogSyncer.Syncer.SyncRound` | frontend/src/services/syncer.ts:22-63 | one round, whatever the read, the call, the delete and the clear answer and whatever is queued meanwhile, is a run of the model; and what each answer leaves of the queue: the first 50 gone, nothing gone, or everything gone |
| `LogSyncer.Syncer.SyncPendingLogs` | frontend/src/services/syncer.ts:17-67 | the whole loop is a run of the model; undisturbed, it delivers the whole queue in order and empties it; a second call while syncing does nothing |
| `Broker.ReaderSeesWhatFitted` | internal/container/broker.go:39-50 | received plus buffered events are exactly those published while the channel had room |
| `Broker.ReaderSeesInOrder` | internal/container/broker.go:39-50 | received plus buffered events are an in-order subsequence of what was published since subscribing |
| `Broker.NothingMissedIff` | internal/container/broker.go:39-50 | nothing is missed if and only if no publish found 100 events waiting |
| `Broker.BuffersBounded` | internal/container/broker.go:26-28 | no channel ever holds more than 100 events |
| `Broker.SilentAfterUnsubscribe` | internal/container/broker.go:31-37 | nothing is sent to a channel after it unsubscribes |
| `Broker.EventBroker.Subscribe` | internal/container/broker.go:22-29 | is the model's step: a fresh, empty channel |
| `Broker.EventBroker.Unsubscribe` | internal/container/broker.go:31-37 | is the model's step, and closes the channel |
| `Broker.EventBroker.Publish` | internal/container/broker.go:39-50 | in whatever order it visits the channels, every subscriber with fewer than 100 events waiting gets the event at the end, none of them closed |
| `BrokerRaces.EachChannelIsSerial` | internal/container/broker.go:39-50 | however publishes overlap, each channel is as if they had happened one at a time in the order in which they reached it, so it misses nothing if and only if it was never full |
| `BrokerRaces.SerialPublishesAgree` | internal/container/broker.go:39-50 | while no two publishes overlap, two subscribed channels are sent the same events in the same order |
| `BrokerRaces.OrdersDiffer` | internal/container/broker.go:39-50 | two overlapping publishes may reach two channels in different orders |
| `AuditRetention.DayNumberInClosedForm` | internal/audit/audit.go:155 | the number of a day from a table of the months and the Gregorian rule of leap years |
| `AuditRetention.DaysEarlier` | internal/audit/audit.go:155 | the date that many days earlier, across months and leap years |
| `AuditRetention.DigitsOrder` | internal/audit/audit.go:61-65 | zero-padded decimals compare as numbers and are injective |
| `AuditRetention.FormatReadsBack` | internal/audit/audit.go:61-65 | a formatted time has year, month, day, hour, minute and second in decimal at their places, with the separators of the layout |
| `AuditRetention.TextOrderIsTimeOrder` | internal/audit/audit.go:61-65 | for years 0 to 9999 text order is chronological order and formatting is injective |
| `AuditRetention.RetentionDays` | internal/audit/audit.go:111-125 | the window is 7, 30, 90, 180 or 365 days for any stored text, and the stored one if it is one of those |
| `AuditRetention.RetentionOfNumber` | internal/audit/audit.go:119-124 | one of those is read with or without a plus sign and leading zeros |
| `AuditRetention.RetentionOfNonsense` | internal/audit/audit.go:112-124 | no setting and any text that is no number mean 90 days |
| `AuditRetention.StoredDaysAreUsed` | internal/settings/service.go:99-125 | a number written by the settings page is the window used if and only if it is 7, 30, 90, 180 or 365; otherwise the window is 90 |
| `AuditRetention.TrimIsExact` | internal/db/audit_logs.sql.go:179-190 | trimming deletes exactly the rows older than the window |
| `AuditRetention.RecordKeepsTheWindow` | internal/audit/audit.go:127-159 | recording keeps the new row, its detail cut to 2000 bytes, and exactly the old rows of the window, for any setting text |
| `AuditRetention.Recorder.Record` | internal/audit/audit.go:127-159 | inserts the entry, its detail cut by bytes, and trims; a failed insert changes nothing and a failed trim leaves the insert |

## Left out

- Lost Docker events on reconnect, failed queries, and other writers of the two rows' settings during an upgrade: the code makes no promise there.
- UpgradeProtocol.CompletedUpgrade: does not speak of `image_id` and `state`, for which `UpgradeState.CommittedColumns` and `UpgradeState.ReplacementRowIsExact` are the statements.
- UpgradeState.ReplacementRowIsExact: assumes, as `UpgradeListing.ListingIsExact` does, that no inspection of a live container failed.
- UpgradeClient.ClientFollowsUpgrade: assumes, as the lemmas of `UpgradeListing` do, that no third container carries the name.
- ClientView.ListIsTable: starts from a fetched list; a later refetch racing with the stream is not modelled, nor are React's re-invocations of updaters.
- The columns `created_at` and `updated_at`, and the textual encoding of times outside the audit trail.
- UpgradeProtocol.RunKeeps: a container id keeps its name and image; a rename is an event the monitor ignores.
- RateLimit.ForgettingIsUnobservable: what the conversion of an out-of-range float yields is a parameter, as Go leaves it to the platform.
- RateLimit.GatedRunsStayBelowCap: the early failure records of `FinishPasskeyLogin`, which follow no check, are outside gated runs.
- RateLimiter.LoginsStayBelowCap: logins are serialized; `LoginRaces` has the overlapping ones.
- Sessions.PurgesAreUnobservable: requests are serialized, as they are for `Sessions.PurgeSchedulesAgree`; `SessionRaces.PurgeCostsIff` has the overlapping ones.
- Broker.EventBroker.Publish: one publish at a time; `BrokerRaces` has the overlapping ones.
- Challenges.FirstMatch: of several rows with equal bytes the oldest is taken.
- LogFrames.StreamLogs: cancellation, send errors, the TTY branch, and the RFC 3339 parser itself, which is a parameter.
- LogSyncer.Syncer.SyncPendingLogs: one page drains the queue, and after finitely many rounds the world behaves.
- AuditRetention.Recorder.Record: clocks outside the years 1 to 9999 are not modelled.
- One-line queries and lemmas about single steps are not listed above.
- `runPurge`, auth events, password hashing, credential checks, notifications, mail, Tailscale, configuration loading, admin RPCs and the rest of the user interface: thin wrappers or foreign code.
