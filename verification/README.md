# Verified models of the game backend's protocols

A Dafny project about the parts of the backend that keep promises over time: the distributed lock and the
at-most-once transaction senders, refresh-token families, rate limits and login lockout, the translation
caches, cursor pagination, the saga and the session ledger, referral rewards, the audit CSV, the HTML
escaper, the action log and the integrity report. `dafny verify dfyconfig.toml` checks everything.

Each module covers one service. Where the service updates its own fields or tables, the model is a class
whose methods take the same branches in the same order, and each method is proved against a specification
over the old state; what holds over whole runs is then proved about that specification. Where callers
interleave (the lock, the senders) the model is a state machine whose events are the steps between two
awaits, so any number of callers and any schedule is a list of events.

| file | subject |
|---|---|
| `DistributedLock.dfy` | `SET NX PX` lock with compare-and-delete release |
| `BlockchainSender.dfy` | mint, transfer and burn: check the cache, lock, check again, execute, store, release |
| `RefreshTokens.dfy` | refresh-token families and access-token revocation |
| `RateWindows.dfy`, `LoginLockout.dfy`, `InputIntegrity.dfy` | arithmetic of time windows |
| `Translations.dfy` | caches in front of the translation tables |
| `CursorPages.dfy` | cursor pagination |
| `Saga.dfy`, `GameSessions.dfy` | compensating saga and its largest client |
| `Referrals.dfy` | referral graph and reward ledger |
| `Text.dfy`, `CsvExport.dfy`, `HtmlEscape.dfy` | printers and the readers that invert them |
| `ActionLog.dfy`, `IntegrityReport.dfy` | in-memory game sessions |
| `Common.dfy` | options, results, expiring records |

## What the models take as given

Redis commands, cache calls and database statements are atomic steps, and an expired record reads as a
missing one. Tokens and UUIDs are fresh; a signature verifies only if the service made it; hashes and
encodings are injective. The clock is a parameter that does not run backwards. Cache lifetimes are seconds,
as `src/cache/cache.service.ts:763` documents them; the submission list's theorem holds for any lifetime of
at least one window. Within one service object calls do not overlap; the lock and the senders are the
exception. The senders' theorem has three provisos, stated in the model: Redis answers, an accepted
transaction is followed by its cache write, and no holder overruns its lease before that write.
`OverrunDuplicates` and `CrashDuplicates` show that the last two are needed. A started session's columns that the
insert does not give read as 0 or absent.

## Where the code does less than it says

- A negative lock TTL falls back to the configured default, which is not clamped; `NormalizeTtl` states
  exactly when the result is in range.
- Rotating a refresh token does not renew the user's list of families, so logging out everywhere misses a
  session that has been kept alive past one lifetime. `LogoutAllExactly` gives the condition,
  `RotatedSessionSurvivesLogoutAll` a run.
- An access token without an expiry claim is accepted again when its revocation record expires
  (`RevocationIsFinal`, both directions). `signAccessToken` always sets one, so this concerns only tokens
  signed elsewhere with the same secret; the TTL arithmetic has a branch for them.
- A refused `updateLanguage` that asked for a new default has already cleared the old one and keeps the
  cached default code; `UpdateLanguage` says exactly when the cache invariant is lost and
  `RefusedUpdateMisleads` is a run of calls after which the answer differs from the database's.
- The neighbour check on sequence numbers misses a repetition across a gap, and checks nothing when the
  first input is unnumbered. `NeighbourCheckIsSoundExactly`: it makes the numbers increase if and only if at
  most one input is numbered or the numbered ones come first.
- A report whose idempotency record cannot be stored returns an error although it has been credited
  (`ReportSession`). The saga's compensations put every table back, whichever step fails, exactly when the
  report was not flagged or the first step refused it: the flag and its reason are not taken back
  (`CompensationsRestore`, `RunReportSaga`); the database rollback does that.
- A registration with a bad referral code is refused after the user has been saved (`Register`).
- `startSession` of the in-memory service records its start action before the session is stored, so it
  always throws for a new id (`StartSession`); the log theorems start from sessions already stored.
- The service numbers its own actions by the length of the log, so they are refused once a client has
  skipped a number, and the status has changed by then (`OwnActionRecorded`, `ChangeStatus`).
- Metadata quotes are doubled twice in the CSV; a reader finds the JSON text only if it has no quotes, and
  one extra undoubling recovers it (`CellsAreLabelled`).
- A cursor page with a limit of zero fails exactly while entries remain; `RequestFails` gives the condition
  for every limit, negative ones included.

## Model

| member | source | states |
|---|---|---|
| DistributedLock.NormalizeTtl | src/cache/distributed-lock.service.ts:273-293 | a request that is not negative is clamped to 100..3600000 and a negative one gives the default as it is; the result is in that range exactly when the request is not negative or the default is in range |
| DistributedLock.DistributedLockService.Acquire | src/cache/distributed-lock.service.ts:72-142 | with Redis up only a live stored key refuses, and success stores this token for the normalised time; otherwise the process-local set decides and failures are counted |
| DistributedLock.DistributedLockService.Release | src/cache/distributed-lock.service.ts:151-203 | true exactly when the live stored token is the holder's own, and then the key is gone; an entry with another token or under another key is never touched, in any mode |
| DistributedLock.NextKeepsInv | src/cache/distributed-lock.service.ts:72-203 | acquire, release, crash, tick and expiry each keep: tokens are unique and a live lease owns the stored entry |
| DistributedLock.RunKeepsInv | src/cache/distributed-lock.service.ts:72-203 | that invariant after any run |
| DistributedLock.LiveLeaseOwnsToken | src/cache/distributed-lock.service.ts:72-203 | after any run an unexpired, unreleased lease still owns the stored token |
| DistributedLock.MutualExclusion | src/cache/distributed-lock.service.ts:72-142 | after any run two unexpired leases on one key belong to one worker |
| DistributedLock.LateReleaseIsHarmless | src/cache/distributed-lock.service.ts:11-17 | after any run a release by another worker, however late, leaves a live holder its entry |
| DistributedLock.ExpiryNeverExtended | src/cache/distributed-lock.service.ts:72-142 | no event of any run extends the life of an entry once its token was issued |
| DistributedLock.AbandonedLockExpires | src/cache/distributed-lock.service.ts:72-142 | a holder that never releases blocks its key at most for the normalised TTL, at most an hour |
| DistributedLock.FreeKeyIsGranted | src/cache/distributed-lock.service.ts:72-142 | after any run a key is granted if and only if it has no live entry, and then for the requested time clamped to 100 ms and an hour; a refusal changes no entry |
| DistributedLock.ReleaseFreesTheKey | src/cache/distributed-lock.service.ts:151-203 | after any run a live holder's release removes its entry at once, and no event touches the entry of a key it does not name |
| BlockchainSender.NextKeepsLockInv | src/blockchain/blockchain.service.ts:184-251 | every step of every caller keeps token ownership: a caller between lock and cache write owns the stored token |
| BlockchainSender.SectionIsExclusive | src/blockchain/blockchain.service.ts:206-231 | two callers between lock and cache write are the same caller |
| BlockchainSender.ExecuteKeepsInv | src/blockchain/blockchain.service.ts:207-230 | when `execute` succeeds the previous stored result has expired, so accepted transactions stay a lifetime apart |
| BlockchainSender.StoreKeepsInv | src/blockchain/blockchain.service.ts:230-231 | the invariant survives the cache write, after which a cache read gives the last accepted transaction's hash |
| BlockchainSender.NextKeepsInv | src/blockchain/blockchain.service.ts:158-268 | the inductive invariant of the whole protocol, one event of any kind |
| BlockchainSender.RunKeepsInv | src/blockchain/blockchain.service.ts:158-268 | the invariant after any interleaving of any number of callers |
| BlockchainSender.LogIsPaced | src/blockchain/blockchain.service.ts:231 | any two accepted transactions are one result lifetime apart for each transaction between them |
| BlockchainSender.AtMostOncePerLifetime | src/blockchain/blockchain.service.ts:158-268 | in every interleaving accepted transactions are an hour apart and their number is bounded by the elapsed time |
| BlockchainSender.EveryReturnIsCurrent | src/blockchain/blockchain.service.ts:158-268 | in every interleaving of any length every normal return carries the hash of the last transaction accepted by the instant its result was read or stored |
| BlockchainSender.SeenDuringCall | src/blockchain/blockchain.service.ts:167-248 | that instant lies between the beginning of the call and the return |
| BlockchainSender.AtMostOnceAndAgreement | src/blockchain/blockchain.service.ts:158-268 | while an accepted transaction's stored result lives every normal return carries its hash, and two returns differ only if a transaction was accepted between their reads |
| BlockchainSender.LiveResultIsReturned | src/blockchain/blockchain.service.ts:167-220 | in every interleaving a caller that finds a live result on its first, second or last look executes nothing and returns the last accepted hash, whatever the others do before it goes on |
| BlockchainSender.ThrowHasACause | src/blockchain/blockchain.service.ts:186-204 | in every run a caller that throws has had its execution or tracking fail, or found no live result on its last look |
| BlockchainSender.FailureThrows | src/blockchain/blockchain.service.ts:199-268 | after any run a caller that fails in one of those ways accepts and stores nothing and throws, whatever the others do before it goes on |
| BlockchainSender.NobodyLeavesTheLock | src/blockchain/blockchain.service.ts:249-251 | in every run without crashes a lock that is held is held by a caller still at work, so one that has returned or thrown has given it back |
| BlockchainSender.FourRefusals | src/cache/cache.service.ts:440-486 | in every run a caller looks a last time after exactly four refusals of the lock, and one that holds it was refused at most three times |
| BlockchainSender.SecondCallerGetsTheSameHash | src/blockchain/blockchain.service.ts:158-268 | a run in which one caller executes and returns and a later one returns the same hash without executing, with the lock free again |
| BlockchainSender.WaitingCallerGetsTheSameHash | src/blockchain/blockchain.service.ts:184-220 | a run in which a caller already waits for the lock while another executes, and returns that hash from its second look |
| BlockchainSender.NextHourExecutesAgain | src/blockchain/blockchain.service.ts:230-231 | a run in which the same transaction is accepted again 3600000 ms later |
| BlockchainSender.OverrunDuplicates | src/blockchain/blockchain.service.ts:184-231 | without the lease proviso there is a run that accepts two transactions at once |
| BlockchainSender.CrashDuplicates | src/blockchain/blockchain.service.ts:224-231 | without the cache-write proviso there is a run that accepts a second one as soon as the lock expires |
| RefreshTokens.AuthTokenService.GenerateRefreshToken | src/auth/providers/auth-token.service.ts:129-155 | a login mints a fresh token, its family record and an entry in the user's list, as the step function of the run model says |
| RefreshTokens.AuthTokenService.RotateRefreshToken | src/auth/providers/auth-token.service.ts:166-260 | the four refusals and the accepted rotation with their whole effect on the records |
| RefreshTokens.AuthTokenService.RevokeRefreshFamily | src/auth/providers/auth-token.service.ts:320-336 | a live family is marked and renewed, a missing one is left alone, no other changes |
| RefreshTokens.AuthTokenService.RevokeAllUserRefreshTokens | src/auth/providers/auth-token.service.ts:279-293 | the loop marks exactly the live families that the tracked list names and drops the list |
| RefreshTokens.RunKeepsInv | src/auth/providers/auth-token.service.ts:129-293 | after any run token ids are unique, a family's current id is its newest, and the accepted rotations form chains |
| RefreshTokens.OneAcceptableToken | src/auth/providers/auth-token.service.ts:166-260 | after any run each family has at most one acceptable token |
| RefreshTokens.RunKeepsOwnerInv | src/auth/providers/auth-token.service.ts:129-293 | after any run a family's tokens have its owner as subject, and a user's list names only that user's families |
| RefreshTokens.OthersAreLeftAlone | src/auth/providers/auth-token.service.ts:166-293 | after any run a rotation of another family's token (fresh, stale or forged), a login, and a logout of another user or with a list that does not name the family leave every other token accepted if and only if it was |
| RefreshTokens.AnswerMeans | src/auth/providers/auth-token.service.ts:166-260 | after any run a token is answered as invalid exactly when it is forged or expired, as revoked exactly when its family is dead, as used exactly when a newer one of its live family was issued, and accepted in all other cases |
| RefreshTokens.IssuedTokenIsAccepted | src/auth/providers/auth-token.service.ts:129-260 | a token just issued is accepted after any run that spares its family if and only if its lifetime is not over |
| RefreshTokens.IssuedToTheOwner | src/auth/providers/auth-token.service.ts:236-260 | a rotation issues a token with a new id for the same user and family, a login one of a new family for that user |
| RefreshTokens.RotationsFormChains | src/auth/providers/auth-token.service.ts:166-260 | no token is accepted twice, and a rotation presents what the family's previous one issued |
| RefreshTokens.DeadStaysDead | src/auth/providers/auth-token.service.ts:320-353 | once a family's record is marked or gone, no continuation accepts a token of it |
| RefreshTokens.ReuseKillsFamily | src/auth/providers/auth-token.service.ts:195-235 | presenting a verified token that is not the current one ends its family for good |
| RefreshTokens.LogoutAllExactly | src/auth/providers/auth-token.service.ts:279-293 | logout everywhere ends a usable family if and only if the list names it, which is certain within one lifetime of its login; the list is dropped |
| RefreshTokens.RotatedSessionSurvivesLogoutAll | src/auth/providers/auth-token.service.ts:343-353 | for every lifetime of two seconds or more there is a run in which a rotated session survives logout everywhere |
| RefreshTokens.RevocationIsFinal | src/auth/providers/auth-token.service.ts:94-120 | a revoked access token is refused for ever if and only if it carries an expiry, as every token of `signAccessToken` does |
| RateWindows.WsRateLimiter.IsAllowed | src/common/gateways/realtime.gateway.ts:50-67 | allowed exactly when fewer than the limit of kept calls are inside the window; a refused call stores nothing |
| RateWindows.SubmissionRates.Submit | src/common/services/session-integrity.service.ts:274-319 | suspicious exactly when more than ten kept submissions are inside the minute; otherwise the pruned list is stored |
| RateWindows.KeptDecidesAsHistory | src/common/gateways/realtime.gateway.ts:57-66 | after any calls with a nondecreasing clock the pruned list shows a later call what the full history of accepted calls would |
| RateWindows.StoredDecidesAsHistory | src/common/services/session-integrity.service.ts:274-319 | the same for the expiring record, for every lifetime of at least one window |
| RateWindows.KeptAcceptsTheSame | src/common/gateways/realtime.gateway.ts:57-66 | the calls accepted by the pruned list are those accepted by the full history |
| RateWindows.StoredAcceptsTheSame | src/common/services/session-integrity.service.ts:274-319 | so are those accepted by the expiring record |
| RateWindows.EveryWindowIsBounded | src/common/gateways/realtime.gateway.ts:50-67 | every half-open interval of one window's length, wherever it starts, holds at most the limit of the calls the limiter accepts |
| RateWindows.AcceptedExactlyWhenRoom | src/common/gateways/realtime.gateway.ts:50-67 | after any calls the next one is accepted if and only if fewer than the limit of the accepted ones lie in the window that ends with it |
| RateWindows.ElevenPerMinute | src/common/services/session-integrity.service.ts:298-313 | the expiring record accepts at most eleven submissions in any minute |
| RateWindows.StoredExactlyWhenRoom | src/common/services/session-integrity.service.ts:298-319 | the same for the expiring record |
| RateWindows.SubmittedExactlyWhenRoom | src/common/services/session-integrity.service.ts:298-319 | a submission is refused if and only if eleven accepted ones lie in the minute that ends with it |
| LoginLockout.LoginGuard.CheckAccountLockout | src/auth/providers/auth.service.ts:435-466 | locked exactly while the record says so; a lockout that has run out is forgotten with its counter; other keys are untouched |
| LoginLockout.LoginGuard.RecordFailedAttempt | src/auth/providers/auth.service.ts:468-498 | the counter grows, expiring with its first failure where the store has INCR and with its last otherwise, and reaching the limit writes the lockout record |
| LoginLockout.LoginGuard.ClearFailedAttempts | src/auth/providers/auth.service.ts:500-512 | both records of the key are gone and no other key changes |
| LoginLockout.LoginGuard.ValidateUser | src/auth/providers/auth.service.ts:112-164 | the outcome of every branch, and a password is compared exactly when the key is not locked and the account is active |
| LoginLockout.LoginGuard.GetRemainingLockoutTime | src/auth/providers/auth.service.ts:536-565 | positive exactly while locked, and then the rounded-up number of seconds |
| LoginLockout.NextKeepsKeyInv | src/auth/providers/auth.service.ts:435-498 | every event keeps: without a live lockout record the live counter is below the limit |
| LoginLockout.LimitMeansLocked | src/auth/providers/auth.service.ts:435-498 | after any run an attempt that passes the check finds the counter below the limit, and the one that reaches it locks the key for exactly the lockout duration |
| LoginLockout.AttemptMeans | src/auth/providers/auth.service.ts:112-164 | one attempt after any run: a wrong password or unknown account adds one to the counter, a success sets it to zero, the rest leave it, and a locked key changes nothing; the expiry of the counter and of the lockout are stated as instants |
| LoginLockout.WelcomeForgets | src/auth/providers/auth.service.ts:500-512 | after any run and a success the next failure, whenever it comes, is the first |
| LoginLockout.FailuresAreBounded | src/auth/providers/auth.service.ts:468-498 | from fresh keys, without a success or unlock, a run of length T records at most N * (T / min(window, lockout) + 1) failures |
| InputIntegrity.ValidateSessionTiming | src/common/services/session-integrity.service.ts:33-119 | accepted if and only if the duration is in range and, when there are inputs, every timestamp is a number, none is negative, future or a week old, and their span is within 5% of the duration |
| InputIntegrity.CountWithin | src/common/services/session-integrity.service.ts:131-142 | the counting-map loop accepts exactly the lists in which no key occurs more often than the limit |
| InputIntegrity.Span | src/common/services/session-integrity.service.ts:82-85 | the least and the greatest timestamp |
| InputIntegrity.ValidateInputSequence | src/common/services/session-integrity.service.ts:121-214 | accepted if and only if all six rules hold, each stated without the loop that checks it |
| InputIntegrity.AnyIntervalIsBounded | src/common/services/session-integrity.service.ts:169-193 | the aligned buckets bound every interval: 100 inputs in any second, 20 in any 100 ms |
| InputIntegrity.TotalIsBounded | src/common/services/session-integrity.service.ts:81-180 | inputs accepted by both validators number at most 50 * (floor(1.05 * duration / 1000) + 2) |
| InputIntegrity.SequencesIncrease | src/common/services/session-integrity.service.ts:154-167 | in an accepted list two numbers increase when no input up to the later one lacks a number |
| InputIntegrity.TimeAdvances | src/common/services/session-integrity.service.ts:131-152 | an accepted list is in order of time over all pairs, and at most five inputs share an instant |
| InputIntegrity.FourClientsAreRefused | src/common/services/session-integrity.service.ts:195-211 | when the first input names a client, inputs of four clients anywhere in the list are refused |
| InputIntegrity.NeighbourCheckIsSoundExactly | src/common/services/session-integrity.service.ts:154-167 | for each choice of which inputs are numbered: every accepted list of that shape has increasing numbers if and only if at most one is numbered or the numbered ones form a prefix |
| InputIntegrity.UnsafeShapeRepeats | src/common/services/session-integrity.service.ts:154-167 | for every other shape an accepted list that does not increase |
| InputIntegrity.Unchecked | src/common/services/session-integrity.service.ts:155 | with an unnumbered first input an accepted list in which all numbers are equal |
| InputIntegrity.GapHidesRepetition | src/common/services/session-integrity.service.ts:158-159 | three accepted inputs with a repeated number around an unnumbered one |
| Translations.TranslationService.GetFromCache | src/translation/services/translation.service.ts:416-425 | the cached map exactly when there is one that has not expired, and an expired one is dropped; what it returns mirrors an active language's rows |
| Translations.TranslationService.SetCache | src/translation/services/translation.service.ts:427-430 | the map is kept under the code until 300000 ms later, and no other code changes |
| Translations.TranslationService.GetDefaultLanguageCode | src/translation/services/translation.service.ts:452-463 | the code a lookup would use, resolved from then on |
| Translations.TranslationService.GetTranslation | src/translation/services/translation.service.ts:232-291 | row by row, whatever is cached: without an active language of that code NotFound; else its row for the key; else, while the cached default is right, the default language's non-empty row; else a non-empty default value; else the key |
| Translations.TranslationService.AnswerFromRows | src/translation/services/translation.service.ts:243-277 | the same when the cache has no answer |
| Translations.TranslationService.FallbackTranslation | src/translation/services/translation.service.ts:249-270 | the default language's value for the key, or nothing |
| Translations.TranslationService.FindTranslationsByLanguage | src/translation/services/translation.service.ts:188-230 | an active language's rows, exactly, from the cache or not, and a miss caches them for 300000 ms |
| Translations.TranslationService.CreateLanguage | src/translation/services/translation.service.ts:46-75 | refused exactly for a taken code; a new default clears the others; the invariant holds after |
| Translations.TranslationService.UpdateLanguage | src/translation/services/translation.service.ts:97-127 | the tables after each outcome; a refusal leaves the cached default code unchanged, so that code stays right if and only if it is not the refused change of default over a resolved one |
| Translations.DefaultAfterCreate | src/translation/services/translation.service.ts:59-69 | a language created as the default becomes the only one, another leaves the default as it was |
| Translations.UpdateMeans | src/translation/services/translation.service.ts:107-120 | an accepted update sets on that language each field that was given and no other; being the default moves to it, is given up or stays, as the patch says |
| Translations.TranslationService.DeleteLanguage | src/translation/services/translation.service.ts:129-147 | the default is refused; otherwise the language and its rows go and the invariant holds |
| Translations.TranslationService.CreateTranslation | src/translation/services/translation.service.ts:150-186 | added exactly when the language exists and lacks the key |
| Translations.TranslationService.UpdateTranslation | src/translation/services/translation.service.ts:293-319 | the patched row, or a refusal exactly when another row has the key |
| Translations.TranslationService.DeleteTranslation | src/translation/services/translation.service.ts:321-338 | that row goes and no other |
| Translations.TranslationService.BulkCreateTranslations | src/translation/services/translation.service.ts:340-392 | afterwards each key has the last value of an item whose statements did not fail and no other lookup changed; the counters are the keys that were new and the rest, and the error list names the failed items in order |
| Translations.EveryItemIsAccountedFor | src/translation/services/translation.service.ts:352-382 | created, updated and failed items are all the items |
| Translations.LastItemWins | src/translation/services/translation.service.ts:352-382 | a key is written exactly when an item for it does not fail, and has the value of the last such item |
| Translations.FailuresAreListed | src/translation/services/translation.service.ts:376-382 | every failed item is named in the error list, behind the failures before it |
| Translations.TranslationService.Upsert | src/translation/services/translation.service.ts:353-380 | one item: the rows so far overlaid with it, and whether its key was new |
| Translations.TranslationService.ClearAllCache | src/translation/services/translation.service.ts:437-442 | restores the invariant from any default state without touching the tables |
| Translations.CachedAnswer | src/translation/services/translation.service.ts:232-291 | an entry of a cached map is what the cache-free lookup answers |
| Translations.OwnTextIsAnswered | src/translation/services/translation.service.ts:232-248 | the cache-free lookup answers NotFound exactly when no active language has the code, and otherwise gives the row of the key if there is one |
| Translations.AnswerMeans | src/translation/services/translation.service.ts:249-277 | without a row of its own a key has the default language's text, then a non-empty default value, then itself |
| Translations.StaysCurrent | src/translation/services/translation.service.ts:432-435 | a cached map stays exact across any change to other languages |
| Translations.PutLanguageKeepsSound | src/translation/services/translation.service.ts:107-123 | writing a language and dropping one code's cache keeps every constraint and every other cached map exact |
| Translations.NewLanguageKeepsSound | src/translation/services/translation.service.ts:46-75 | creating one keeps every cached map exact |
| Translations.DropLanguageKeepsSound | src/translation/services/translation.service.ts:140-144 | the same for deleting a language with its rows |
| Translations.PutRowKeepsSound | src/translation/services/translation.service.ts:150-186 | the same for writing a row |
| Translations.OverlayStep | src/translation/services/translation.service.ts:353-380 | one upsert turns the overlay of some items into the overlay of one more, and counts a key as new at most once |
| Translations.StaleAnswer | src/translation/services/translation.service.ts:249-270 | with no default left, a cached default code is still answered from |
| Translations.RefusedUpdateMisleads | src/translation/services/translation.service.ts:107-124 | a run of calls on a new service after which `getTranslation` differs from the database's answer |
| CursorPages.Insert | src/leaderboard/leaderboard-pagination.service.ts:285-288 | inserting into a sorted list keeps it sorted and adds exactly the entry |
| CursorPages.Sort | src/leaderboard/leaderboard-pagination.service.ts:285-288 | the comparator's sort is sorted and a permutation |
| CursorPages.SortIsDetermined | src/leaderboard/leaderboard-pagination.service.ts:285-288 | with distinct users any sorted permutation is that list |
| CursorPages.FilterKeeps | src/leaderboard/leaderboard-pagination.service.ts:89-153 | a filter keeps each entry it accepts as often as it occurs and drops all others |
| CursorPages.AllFiltersKeep | src/leaderboard/leaderboard-pagination.service.ts:89-153 | filters in turn keep exactly the entries that pass all of them |
| CursorPages.ListedSelects | src/leaderboard/leaderboard-pagination.service.ts:279-288 | the list the pages are cut from has exactly the entries that pass the filters, by rank |
| CursorPages.FindCursor | src/leaderboard/leaderboard-pagination.service.ts:293-295 | the first entry with the cursor, or -1 exactly when there is none |
| CursorPages.CutPage | src/leaderboard/leaderboard-pagination.service.ts:290-320 | the page after the cursor's entry with both neighbouring cursors, for every limit |
| CursorPages.RequestFails | src/leaderboard/leaderboard-pagination.service.ts:301-308 | with a limit of zero or more a request fails if and only if the limit is zero and entries remain after the cursor; with a negative one it succeeds if and only if the slice wraps past its start |
| CursorPages.GetCursorPage | src/leaderboard/leaderboard-pagination.service.ts:266-321 | a page of the entries that pass the filters, each as often as it occurs and by rank; the caller's own array is ranked in place exactly when no filter is given |
| CursorPages.NextCursorContinues | src/leaderboard/leaderboard-pagination.service.ts:304-308 | the next cursor leads to the position where the page ended |
| CursorPages.WalkEnumerates | src/leaderboard/leaderboard-pagination.service.ts:266-330 | following the cursors yields exactly the entries that pass the filters, once each and by rank, in max(1, ceil(n/limit)) pages; each previous cursor is the one passed in, the flags tell whether pages come before and after, and all but the last are full |
| CursorPages.CursorsLeadToTheEnd | src/leaderboard/leaderboard-pagination.service.ts:290-320 | from any list the cursors do lead to a last page |
| Saga.SagaBuilder.AddStep | src/common/saga/saga.builder.ts:14-21 | steps keep the order in which they were added |
| Saga.SagaBuilder.Rollback | src/common/saga/saga.builder.ts:31-37 | the completed steps' compensations, last first, once each, whether or not they throw |
| Saga.SagaBuilder.Run | src/common/saga/saga.builder.ts:23-40 | steps 0..k once in order, then compensations k-1..0, then the failing step's error; without a failure all steps and no compensation |
| Saga.FirstFailure | src/common/saga/saga.builder.ts:25-30 | the step that ends the run: it throws in the context its predecessors leave and none of them does |
| Saga.FailureFound | src/common/saga/saga.builder.ts:25-30 | a failing prefix decides the run whatever follows |
| Saga.BackwardUndoesForward | src/common/saga/saga.builder.ts:31-37 | inverse compensations in reverse order restore the initial context |
| Saga.FailedSagaRestores | src/common/saga/saga.builder.ts:23-40 | a failed saga of inverted steps ends in its initial context if the failing step changed nothing |
| GameSessions.GameSessionService.StartSession | src/game-session/game-session.service.ts:108-148 | the table gets one session more, unreported and with the fields of the insert; every ledger stays as it was |
| GameSessions.GameSessionService.ReportSession | src/game-session/game-session.service.ts:150-458 | a report is credited at most once, a refused one changes no table, each refusal is the first failing step's, the result is kept for 600000 ms, and every user's statistics are the number, sum and maximum of the reported sessions |
| GameSessions.LedgerOfReport | src/game-session/game-session.service.ts:309-328 | marking one session used adds exactly its score to its user's ledger |
| GameSessions.LedgerMeans | src/game-session/game-session.service.ts:309-328 | of any session table: the games played are the size of the set of the user's reported sessions, the total is their scores' sum, the highest score is at least 0 and each of them and is 0 or one of them |
| GameSessions.RepeatedReport | src/common/services/idempotency.service.ts:17-43 | a report repeated within 600000 ms gives the same session and credits nothing more; after a failed store it is told that the session has been reported |
| GameSessions.TamperedReportIsRefused | src/game-session/game-session.service.ts:614-635 | an acceptable report's signature on another report, of that session or of another unreported one, is accepted if and only if nonce, challenge, score, duration, number of inputs and first and last timestamps are the same |
| GameSessions.CreditKeepsBalance | src/game-session/game-session.service.ts:211-340 | a credited report keeps every user's statistics equal to the ledger |
| GameSessions.TableSteps | src/game-session/game-session.service.ts:211-339 | the three table steps stop at the first refusal or credit the report |
| GameSessions.SagaOutcome | src/game-session/game-session.service.ts:210-406 | the saga fails with the first refusal in step order and otherwise leaves the report credited |
| GameSessions.GameSessionService.RunReportSaga | src/game-session/game-session.service.ts:195-406 | the saga credits the report or fails with the first refusal, and the context a failure returns has every table as it was if and only if the report was not flagged or the first step refused it |
| GameSessions.TableFailure | src/game-session/game-session.service.ts:211-339 | which of the table steps fails first |
| GameSessions.FailurePoint | src/game-session/game-session.service.ts:210-406 | for each failing step the context it leaves |
| GameSessions.RollbackSteps | src/game-session/game-session.service.ts:210-406 | for each failing step what its predecessors' compensations make of a context |
| GameSessions.TablesUndone | src/game-session/game-session.service.ts:266-338 | undoing the table steps leaves only the suspicion |
| GameSessions.OutcomeOfReport | src/game-session/game-session.service.ts:210-406 | the saga's error and tables in both outcomes, for any step list that is the report's |
| GameSessions.CompensationsRestore | src/game-session/game-session.service.ts:210-406 | for every failing step, what the saga returns has every table as it was if and only if it is the first step or the report was not flagged |
| GameSessions.CreditKeepsPristine | src/game-session/game-session.service.ts:241-265 | an unreported session stays as it was started and has no input events |
| GameSessions.WithoutNew | src/game-session/game-session.service.ts:301-307 | deleting a session's input events undoes saving them |
| GameSessions.ChunkArray | src/game-session/game-session.service.ts:637-643 | the batches are full except perhaps the last, none is empty, and together they are the array |
| GameSessions.ChunksFlatten | src/game-session/game-session.service.ts:637-643 | the batches of any array, joined, are the array |
| GameSessions.BatchesAreSaved | src/game-session/game-session.service.ts:286-299 | saving batch by batch appends exactly the events of all inputs in order |
| Referrals.ReferralService.GenerateUniqueReferralCode | src/refferal/services/referral.service.ts:32-52 | a drawn code nobody has, or an error exactly when all ten draws are taken |
| Referrals.ReferralService.ValidateReferralCode | src/refferal/services/referral.service.ts:54-83 | no code, an invalid one, the user's own, an already referred user, or the owner of the code |
| Referrals.ReferralService.CreateReferralRelationship | src/refferal/services/referral.service.ts:85-148 | for any two users one edge, its bonus and the referee's record of it; forest and ledger are kept when the referee is new and the referrer was saved earlier |
| Referrals.ReferralService.HandleRegistrationComplete | src/refferal/services/referral.service.ts:150-199 | pays the referrer of the one unpaid referral and raises its flag, or changes no referral or reward |
| Referrals.ReferralService.HandleFirstGameComplete | src/refferal/services/referral.service.ts:201-251 | the same for the milestone, which also completes the referral |
| Referrals.ReferralService.SaveUser | src/refferal/services/auth.service.ts:20-46 | refused exactly for a known email or username or when every draw is taken; otherwise one user more |
| Referrals.ReferralService.ApplyCode | src/refferal/services/auth.service.ts:48-60 | refused exactly for a code nobody had or the new user's own; otherwise the edge to its owner |
| Referrals.ReferralService.Complete | src/refferal/services/auth.service.ts:48-63 | with a code, the edge and both first rewards; without one, only the completed registration |
| Referrals.ReferralService.Register | src/refferal/services/auth.service.ts:17-66 | all tables after each outcome, including the user that a refused code leaves behind; forest and ledger are kept |
| Referrals.ReferralService.GetReferralStats | src/refferal/services/referral.service.ts:253-289 | the counts are the sizes of the sets of referrals made and completed, the rewards paid are 1000 cents if referred plus 500 per referral plus 1500 per completed one, and nothing is pending |
| Referrals.CountsAreSizes | src/refferal/services/referral.service.ts:262-266 | counting row by row gives the size of the set of positions |
| Referrals.ChainsEnd | src/refferal/services/referral.service.ts:54-107 | following `referredBy` ends within as many steps as earlier users and never returns to its start |
| Referrals.FindUnpaid | src/refferal/services/referral.service.ts:161-165 | a referral of the user that is unpaid for the event, or none exactly when all are paid |
| Referrals.EventKeepsForest | src/refferal/services/referral.service.ts:150-251 | either handler keeps the graph a forest whose flags agree with the users' |
| Referrals.NewReferralKeepsForest | src/refferal/services/referral.service.ts:94-107 | an edge from an earlier user to one without a referrer keeps the forest |
| Referrals.LedgerAfterReferral | src/refferal/services/referral.service.ts:131-148 | a new referral and its bonus keep every user's total and every referral's rewards right |
| Referrals.LedgerAfterEvent | src/refferal/services/referral.service.ts:167-184 | a raised flag and its payment keep them right |
| Referrals.SecondCallPaysNothing | src/refferal/services/referral.service.ts:161-184 | after a handler has paid, calling it again finds nothing to pay |
| CsvExport.EscapedFieldIsRead | src/audit/services/audit-log.service.ts:234 | a quoted cell with any content is read back, and the reader stops right behind it |
| CsvExport.LineIsRead | src/audit/services/audit-log.service.ts:233-235 | a written row is read back cell by cell |
| CsvExport.LinesAreRead | src/audit/services/audit-log.service.ts:231-236 | any rows joined by line breaks are read back |
| CsvExport.HeaderIsRead | src/audit/services/audit-log.service.ts:209-232 | the unquoted column names are read back |
| CsvExport.ExportRoundTrips | src/audit/services/audit-log.service.ts:200-242 | reading the export of any logs by the rules of RFC 4180 gives the column names and exactly the cells |
| CsvExport.ExportLogs | src/audit/services/audit-log.service.ts:200-208 | the text is empty exactly when there are no logs |
| CsvExport.UndoubleInverts | src/audit/services/audit-log.service.ts:228 | undoing the extra doubling recovers the text |
| CsvExport.CellsAreLabelled | src/audit/services/audit-log.service.ts:209-229 | under each column's name stands that column's value; the metadata JSON is recovered by one undoubling and stands there unchanged exactly when it has no quote |
| HtmlEscape.ReplaceConcat | src/common/gateways/realtime.gateway.ts:437-444 | a replacement pass distributes over concatenation |
| HtmlEscape.EscapeOne | src/common/gateways/realtime.gateway.ts:437-444 | on one character the five passes, in this order, are the entity table |
| HtmlEscape.FivePassesAreOne | src/common/gateways/realtime.gateway.ts:437-444 | the five passes equal one substitution per character |
| HtmlEscape.EscapedIsClean | src/common/gateways/realtime.gateway.ts:437-444 | no raw angle bracket or quote is left |
| HtmlEscape.DecodeInverts | src/common/gateways/realtime.gateway.ts:437-444 | decoding the five entities gives the original text back |
| ActionLog.GameSessionServiceImpl.RecordAction | src/interfaces/game-sessions/game-session.service.ts:248-326 | recorded exactly when the timestamp is 0 to 300000 ms old, the sequence number exceeds every recorded one and the phase of the log allows the action; every stored log stays legal |
| ActionLog.GameSessionServiceImpl.StartSession | src/interfaces/game-sessions/game-session.service.ts:26-78 | throws for every id that is not already stored |
| ActionLog.GameSessionServiceImpl.ChangeStatus | src/interfaces/game-sessions/game-session.service.ts:162-175 | the status changes even when the action that goes with it is refused |
| ActionLog.GameSessionServiceImpl.PauseSession | src/interfaces/game-sessions/game-session.service.ts:150-184 | only an active session; the pause is logged and counted, or refused with the status already changed |
| ActionLog.GameSessionServiceImpl.ResumeSession | src/interfaces/game-sessions/game-session.service.ts:186-217 | only a paused session, likewise |
| ActionLog.GameSessionServiceImpl.AbandonSession | src/interfaces/game-sessions/game-session.service.ts:219-246 | from any status, likewise |
| ActionLog.GameSessionServiceImpl.EndSession | src/interfaces/game-sessions/game-session.service.ts:80-148 | only an active or paused session; the recommendation decides the final status |
| ActionLog.RecordedStaysLegal | src/interfaces/game-sessions/game-session.service.ts:281-326 | an action that validates extends a legal log to a legal log |
| ActionLog.StartsOnceEndsOnce | src/interfaces/game-sessions/game-session.service.ts:372-440 | a legal log starts with its only start, every neighbouring pair is allowed, and nothing follows complete or abandon |
| ActionLog.TableIsPhases | src/interfaces/game-sessions/game-session.service.ts:372-440 | the transition table accepts a log if and only if a five-phase automaton does, and they agree on the phase |
| ActionLog.BalanceOfPhase | src/interfaces/game-sessions/game-session.service.ts:406-407 | pauses exceed resumes by one exactly on hold or when abandoned on hold |
| ActionLog.PausesBalance | src/interfaces/game-sessions/game-session.service.ts:372-440 | pauses minus resumes of a legal log is 0 or 1 |
| ActionLog.LastIsGreatest | src/interfaces/game-sessions/game-session.service.ts:303-307 | exceeding the maximum is exceeding the last number |
| ActionLog.OwnActionRecorded | src/interfaces/game-sessions/game-session.service.ts:118-122 | the service's own action is recorded if and only if the last number is at most the length of the log and the phase allows it |
| IntegrityReport.SessionIntegrityService.RunCheck | src/interfaces/game-sessions/session-integrity.service.ts:63-76 | one block: the result is pushed, with an anomaly of its severity if it failed |
| IntegrityReport.SessionIntegrityService.DetectReplay | src/interfaces/game-sessions/session-integrity.service.ts:423-451 | a critical failure exactly for data seen before, and the data is remembered |
| IntegrityReport.SessionIntegrityService.RunFirstChecks | src/interfaces/game-sessions/session-integrity.service.ts:63-106 | the checks before the replay check |
| IntegrityReport.SessionIntegrityService.RunChecks | src/interfaces/game-sessions/session-integrity.service.ts:62-164 | all seven checks in order up to the first that throws, with one anomaly for each failure |
| IntegrityReport.SessionIntegrityService.ValidateSession | src/interfaces/game-sessions/session-integrity.service.ts:54-206 | the report of the checks or of the catch path, what is remembered, and that seen data is always rejected |
| IntegrityReport.GenerateIntegrityReport | src/interfaces/game-sessions/session-integrity.service.ts:625-690 | the step-by-step scoring equals the closed formula whose properties follow |
| IntegrityReport.CountsOfAnomalies | src/interfaces/game-sessions/session-integrity.service.ts:66-75 | as many anomalies as failed checks, and a critical one exactly when a failed check is critical |
| IntegrityReport.ReportMeans | src/interfaces/game-sessions/session-integrity.service.ts:625-690 | invalid exactly for a critical failure, accepted exactly when valid, confidence at most 50 and risk at least 65 when invalid, scores in 0..100 with sum at least 100 |
| IntegrityReport.ScoresAddUp | src/interfaces/game-sessions/session-integrity.service.ts:638-652 | the scores start at 100 and 0, and each further check moves them by its own amount: failed 20 and 25, warning 10 and 10, and for a failure 30 and 40 more if critical, 15 and 20 if high, down to 0 and up to 100 |
| IntegrityReport.MoreChecksNeverHelp | src/interfaces/game-sessions/session-integrity.service.ts:625-690 | a further check never raises confidence, lowers risk or improves the status |
| IntegrityReport.CriticalFailures | src/interfaces/game-sessions/session-integrity.service.ts:62-164 | the pushed checks hold a critical failure exactly when an enabled check came to one |
| IntegrityReport.AfterThrow | src/interfaces/game-sessions/session-integrity.service.ts:184-205 | nothing is pushed after a check has thrown |
| IntegrityReport.MadeIsPushed | src/interfaces/game-sessions/session-integrity.service.ts:62-164 | each check that is enabled and reached is pushed, in order, and no other is |
| IntegrityReport.ReportOfSession | src/interfaces/game-sessions/session-integrity.service.ts:54-206 | on every path: invalid exactly for an exception or a critical failure, the bounds on the scores, and after an exception the one failed signature check with scores 0 and 100 |

## Left out

- Lock modes that change in mid-run: the class models every single call with Redis absent or failing, the
  run theorems assume Redis up throughout.
- `withLock`, `runWithLock`, `setIfNotExists`, `waitForValue` and the wait between lock attempts: wrappers
  around modelled steps, or timing only.
- Custom idempotency keys of the senders: the default keys are modelled; the transfer and burn keys ignore
  the amount, so the agreement theorem covers calls with different amounts.
- Calls whose `SET` or `execute` fails after it was applied: a failure is taken to have had no effect.
- Prometheus counters, histograms, logging, analytics, mail and notifications: no effect on the properties.
- Refresh tokens without `jti` or `family` and unparsable lifetimes: a token is a complete record and a
  lifetime a positive number of seconds; the per-token revocation records are written and never read.
- Hashing of email, address and device into lockout keys, and the texts of rejections.
- InputIntegrity.ValidateInputSequence: takes numeric timestamps, as the guards call it after the timing check
  has refused all others; timestamps are exact reals, so rounding is not modelled.
- Signature cache and payload hash of `detectReplayAttack`: only its rate list is modelled.
- Names, namespaces and interpolation of translations; keys such as `constructor` that a JavaScript object
  inherits; callers that modify a returned cached map.
- Offset pagination and fuzzy search; a filter is any predicate, applied in turn, so the theorems hold for
  whatever the filters test; `localeCompare` is a rank and the cursor encoding a pair.
- GameSessions.GameSessionService.ReportSession: leaderboard submission and badge award only succeed or fail;
  what they and their compensations write is not part of this model.
- `WalletService`, transaction receipts, balances, avatars and WebSocket plumbing: network or foreign code.
- JSON export, archiving and file names of the audit service.
- IntegrityReport.SessionIntegrityService.ValidateSession: the six checks other than the replay check are inputs, so
  the theorems hold for whatever they come to; how each reaches its outcome is not modelled.
- Concurrent registrations and handlers, and database failures inside them.
