# Seraphim: a verified model of its stateful protocols

This project models, in Dafny, the parts of the Seraphim backend whose correctness depends on more
than one call: caches that forget, transactions that roll back, tokens that rotate, two tasks that
share a queue, settings that are stored encrypted, and bulk rewrites under uniqueness constraints.
`dafny verify dfyconfig.toml` checks all of it.

| file | what it models |
|---|---|
| `Dedup.dfy`, `FaceHash.dfy` | the sliding-window cache of seen faces and the hash of an unknown face |
| `ReviewQueue.dfy`, `ReviewRecords.dfy`, `NameList.dfy` | the review queue of name matching, its participants, aliases and transactions; what each request leaves behind; name-list intake |
| `TokenRotation.dfy` | refresh-token rotation over an expiring denylist |
| `TaskFeed.dfy`, `FeederLife.dfy`, `EventStream.dfy`, `TaskMessage.dfy` | the server-sent task feed: two tasks and a queue, the life of the feeder, the wire format, the published text |
| `SettingsStore.dfy` | the settings table, its three writers, its loader and the in-memory cache |
| `LegacyRemap.dfy`, `MemberName.dfy` | the S24 migration in both SQL dialects; the name `member:<id>` and its parsers |
| `Backfill.dfy`, `BackfillRows.dfy`, `FieldSeed.dfy`, `Orphans.dfy` | enrollment backfill and sample counts, the custom-field seed, the orphan review |
| `Prelude.dfy` | optional values, maximum and minimum |

How it is put together.  An object that the source updates in place is a class whose methods are
proved against a function of the old state; lemmas about those functions, and about runs of them,
carry the results.  What the code reads from outside (clock, driver row counts, lookups, the remote
recognition service, failures) is a parameter, so the results hold for every such answer.

## Where the code and its documentation part

The model follows the code.  Each point below is stated by a lemma with its exact condition; most name another lemma
that gives a concrete failing input.

- README.md:699 documents a 30-second window, and a setting carries that default; the cache uses a constant of 60 seconds,
  so that a second sighting is suppressed exactly if it comes less than 60 seconds after the first (`Dedup.RepeatedWithinWindow`).
- Suppression windows hold under a clock that does not go back; with one that does, an accepted sighting can be
  repeated after 10 s (`Dedup.AcceptedSightingsSpaced`, `Dedup.BackwardClockNotSpaced`).
- The resolve endpoint documents that an item already resolved answers 409.  Teaching an alias, within a resolve or
  through its own endpoint, sets the row to accepted, and an accepted row passes the check.  Matches and rejections
  are final exactly in the runs where no resolve completes a lesson and none is completed on a matched or rejected
  row; rejections alone stand exactly where none is completed on a rejected row (`ReviewQueue.PromisesKeptExactly`,
  `ReviewQueue.SecondResolveRefused`, `ReviewQueue.TeachingOverridesRejection`).
- The teach endpoint adds no participant, so an accepted row has its participant exactly where the taught contact
  attended the event already (`ReviewQueue.AcceptedRowsAttendedExactly`).
- A resolve answers 200 and records nothing exactly if its lesson does not commit the match and either the closing commits
  fail, which the endpoint swallows, or the lesson's first commit has failed (`ReviewQueue.ResolveRecords`).  So it does
  when an alias over the 255 characters of its column aborts the transaction (`ReviewQueue.LongAliasLosesTheMatch`).
- The reprocess response adds up exactly when no row raises after an earlier match of the same run
  (`ReviewQueue.ReprocessCounts`, `ReviewQueue.LostMatchStaysCounted`).
- The name-list response documents matched + skipped_existing + review_queue = total; this holds exactly when the
  single matches are distinct contacts (`NameList.DocumentedSumExactly`, `NameList.SameContactTwice`).
- A rotated refresh token is refused while the denylist works and is asked before the token expires.  If the clock
  passes `exp` between the signature check and the denylist lookup of one call, the entry may be gone and the token is
  exchanged again (`TokenRotation.ReadmittedExactly`, `TokenRotation.ExchangedOnceExactly`, `TokenRotation.SlowCallExchangesTwice`).
- The feeder documents that end-of-stream is not signalled on cancellation; it is all the same when an await of the
  broadcaster's cleanup fails while the cancellation passes through (`TaskFeed.EofExactly`,
  `TaskFeed.CancelledFeederSignalsEof`).
- backend/app/routers/settings.py:45 describes sensitive keys as masked on read and encrypted at rest; a bulk PUT stores
  them in the clear, and creates a missing one unmasked (`SettingsStore.SensitiveRowExactly`, `SettingsStore.BulkPutShowsApiKey`).
- A sensitive setting reads back exactly when SETTINGS_FERNET_KEY is unset or a valid key: the writer falls back to
  the derived key when it is invalid, the loader does not (`SettingsStore.SensitiveValueReadsBack`,
  `SettingsStore.InvalidKeyLosesValue`).  Over runs the cache holds null for exactly the values lost in this way and not
  written since (`SettingsStore.CacheFollowsExactly`).
- The two dialects of the S24 migration differ on a stashed link without a match (PostgreSQL keeps the old id, SQLite
  clears it), on names that are not `member:<digits>`, and on numbers of more than 32 bits, which fail in PostgreSQL
  (`LegacyRemap.DialectsAgreeOnLinks`, `LegacyRemap.DialectsAgreeOnTables`; inputs in `LegacyRemap.DialectsDifferOnLinks`,
  `LegacyRemap.DialectsDifferOnNames`, `LegacyRemap.WideNumberFails`).
- A remapped name and an untouched one can come to name the same contact (`LegacyRemap.RemapMergesExactly`, `LegacyRemap.RemapMergesTwo`).
- A backfill over a directory without a known subject fails as a whole where foreign keys are enforced
  (`Backfill.ForeignKeyFailsExactly`, `Backfill.UnknownDirectoryFails`).
- Relinking an orphan that was never enrolled at the recognition service fails as soon as there is a second such
  subject (`Orphans.RelinkExactly`, `Orphans.TwoUnenrolledCannotRelink`).

## Assumptions

- The clock does not go back (`Dedup.Chronological`, `TokenRotation.Ordered`); `Dedup.ClockMustNotGoBack` shows that this is needed.
- Each endpoint call is one step, except that a refresh or logout call reads the clock several times.
- `TokenRotation`: any lookup or write of the denylist may fail; an entry that was written is kept until its time to live has
  passed, on the server's clock; a new `jti` is fresh; only tokens this server signed pass `verify_token`.
- `ReviewQueue`: a rollback, and a commit that fails, take the session back to the last commit; one request runs at a time.
- `TaskFeed`: the Redis client raises a cancellation where it is delivered; putting on the unbounded queue does not wait; taking an item from the queue is atomic, and the heartbeat is positive.
- `LegacyRemap`: ids are positive and external ids have 32 bits.
- `SettingsStore`: decrypting with the key of encryption gives back the text, and an invalid key decrypts nothing.

## Model

| member | source | states |
|---|---|---|
| Dedup.DedupCache.IsDuplicate | backend/app/services/dedup.py:16-31 | one question to the cache changes its two fields and answers as the decision function that the lemmas below tie to the full history |
| Dedup.DedupCache.Cleanup | backend/app/services/dedup.py:41-48 | a cleanup drops exactly the expired subjects and ring entries and keeps the others in order |
| Dedup.RefinesHistory | backend/app/services/dedup.py:16-48 | under a nondecreasing clock every run answers as an unbounded history does: a known subject is a duplicate iff accepted less than 60 s ago, an unknown face iff its hash occurs, live, among the last 100 accepted; at the time of the last operation the ring is a suffix of the history with every one of those 100 still live, and the map has the newest sighting of every subject still live |
| Dedup.RingHolds100 | backend/app/services/dedup.py:14-31 | without cleanups the ring holds the last 100 accepted unknown faces, or all if there are fewer |
| Dedup.RepeatedWithinWindow | backend/app/services/dedup.py:12-22 | a subject seen a second time is a duplicate iff less than 60 s have passed, whatever the setting says |
| Dedup.CleanupIsInvisible | backend/app/services/dedup.py:41-48 | two runs with the same questions at the same times get the same answers, wherever cleanups are inserted in either |
| Dedup.ClockMustNotGoBack | backend/app/services/dedup.py:17-31 | with a clock that goes back a cleanup changes a later answer, by a concrete pair of runs |
| Dedup.AcceptedSightingsSpaced | backend/app/services/dedup.py:16-48 | in every run of the cache under a nondecreasing clock, sightings of one subject answered "no duplicate" are 60 s apart; two such answers for one unknown hash closer than that have at least 100 accepted unknown faces between them |
| Dedup.BackwardClockNotSpaced | backend/app/services/dedup.py:18-48 | with a clock that goes back and a cleanup between, two sightings of one subject 10 s apart are accepted |
| Dedup.AcceptanceRate | backend/app/services/dedup.py:18-23 | in such a run, within any span the cache accepts at most span/60s + 1 sightings of one subject |
| FaceHash.HashIgnoresLighting | backend/app/services/dedup.py:36-39 | the hash is unchanged by any change of contrast and brightness a*g+b with a > 0 |
| FaceHash.HashHasZeroBit | backend/app/services/dedup.py:36-39 | the hash has 64 bits, of which at least one is 0 |
| FaceHash.BitsExactly | backend/app/services/dedup.py:36-39 | a bit is 1 iff its pixel is brighter than the mean of the 64 |
| FaceHash.FlatExactly | backend/app/services/dedup.py:36-39 | the hash is all zeros iff all 64 pixels are equal |
| ReviewQueue.DbSession.ResolveItem | backend/app/routers/name_match.py:400-496 | the answer, the commit points and the final database of a resolve request, whichever of its commits fail |
| ReviewQueue.DbSession.TeachAlias | backend/app/services/name_match.py:821-900 | a lesson commits what the session holds first and the accepted row second; which of the two survive each failure, and what a rollback leaves in the session |
| ReviewQueue.DbSession.TeachItem | backend/app/routers/name_aliases.py:266-315 | the teach endpoint answers 404, 400, 422 or runs the lesson, whatever the status of the row |
| ReviewQueue.DbSession.UnmatchItem | backend/app/routers/name_match.py:521-570 | a rejection is refused on decided rows and otherwise commits exactly the rejected row, or nothing |
| ReviewQueue.DbSession.ReprocessAll | backend/app/routers/name_match.py:273-371 | the loop with its rollbacks, its commit point and its three counters |
| ReviewQueue.InsertKeeps | backend/app/routers/name_match.py:69-97 | insert-or-ignore keeps participants unique, keeps every row and makes the contact attend |
| ReviewQueue.MatchedRowsAttended | backend/app/routers/name_match.py:273-337 | at every commit point of every run of enqueue, resolve, teach, unmatch, skip, reprocess and Claude steps, with any failures, each matched row with an event has its participant and participants are unique |
| ReviewQueue.AcceptedRowsAttendedExactly | backend/app/routers/name_aliases.py:281-311 | the accepted rows have theirs too iff no call of the teach endpoint in the run accepts, for a row with an event, a contact that does not attend it |
| ReviewQueue.PromisesKeptExactly | backend/app/routers/name_match.py:410-490 | from commit point to later commit point: matched and rejected rows keep status, contact and resolver iff no resolve completes a lesson and the teach endpoint completes none on such a row; rejected rows keep theirs iff it completes none on a rejected row |
| ReviewQueue.TeachingOverridesRejection | backend/app/routers/name_aliases.py:281-311 | a concrete run in which a rejected item ends accepted, without a participant for its event |
| ReviewQueue.NeverPendingAgain | backend/app/routers/attendance.py:236-242 | in every run, the Claude pass and teaching included, a row that has left pending is in the queue at every later commit point and not pending |
| ReviewQueue.SecondResolveRefused | backend/app/routers/name_match.py:391-415 | after a resolve that answered ok, whatever became of its commits, a second one answers 409 iff the first neither completed a lesson nor lost its match |
| ReviewQueue.ResolveRecords | backend/app/routers/name_match.py:438-491 | a resolve that answered ok records the contact and actor on that row only, and adds at most that contact to that event; or it records nothing, iff its lesson did not commit the match and the closing commits failed or came after a failed first commit |
| ReviewQueue.ReprocessRecords | backend/app/routers/name_match.py:307-326 | a reprocess run changes a row only to a match with the pipeline's choice, without a resolver |
| ReviewQueue.ReprocessCounts | backend/app/routers/name_match.py:281-371 | rows processed = surviving matches + still pending; processed = auto_matched + still_pending iff no row raises after an earlier match |
| ReviewQueue.ReprocessIdempotent | backend/app/routers/name_match.py:262-270 | an exception-free run adds up, and with the same lookups and contacts a second run matches nothing and changes nothing |
| ReviewRecords.AnswersExactly | backend/app/routers/name_match.py:403-430 | a resolve or a rejection goes through iff the row is pending, accepted or skipped, a resolve and a lesson only on a contact that is there and not deleted; which refusal comes first |
| ReviewRecords.ContactsAreUsable | backend/app/routers/name_match.py:417-428 | no commit of any request links a row to a contact that the request has not found, or has found deleted |
| ReviewRecords.ParticipantsAreSettled | backend/app/routers/name_match.py:69-97 | no commit of any request removes or alters a participant, or adds one without a row matched or accepted on that contact for that event |
| ReviewRecords.ResolveRecordsInFull | backend/app/routers/name_match.py:432-472 | a resolve that keeps its match leaves the row, the participant and the alias with exactly the contact, actor, time, status and source it was given, and the rest of the row alone |
| ReviewRecords.UnmatchRecords | backend/app/routers/name_match.py:536-566 | a saved rejection changes that row only, keeps its contact, and touches no other row, participant or alias |
| ReviewRecords.TeachRecords | backend/app/services/name_match.py:821-900 | the given alias, or else the normalised name, names the contact from the first commit on; the row is accepted by the second only; no participant is added |
| ReviewRecords.ReprocessMatchesNamed | backend/app/routers/name_match.py:288-326 | with any faults, a reprocess run matches a row only to the contact of an alias, without one to the only candidate, and among several to the one Claude chose, if it is not deleted |
| ReviewRecords.ReprocessMatchesExactly | backend/app/routers/name_match.py:288-326 | in an exception-free run a pending row ends matched to a contact iff the pipeline names it in that way and it is not deleted |
| ReviewRecords.AmbiguousStaysPending | backend/app/routers/name_match.py:301-305 | an ambiguous name without alias and without a choice by Claude stays as it was at every commit point |
| ReviewRecords.ReprocessCommitsExactly | backend/app/routers/name_match.py:328-352 | a reprocess run commits once at its end iff the commits succeed and no row escapes its handler |
| NameList.Attendance.ProcessNameList | backend/app/routers/attendance.py:63-162 | matched is the number of distinct contacts that did not attend, matched + skipped_existing the number of distinct contacts, by row count or by counting before and after |
| NameList.InsertAllAdds | backend/app/routers/attendance.py:119-140 | the bulk insert keeps every row, adds one per newcomer, makes exactly the listed contacts attend and keeps participants unique |
| NameList.InsertAllRows | backend/app/routers/attendance.py:119-140 | each row inserted is for a contact of the list that did not attend, as attended, with the source and the caller of the request |
| NameList.CountGrows | backend/app/routers/attendance.py:110-154 | rows counted after minus rows counted before is the number of rows inserted |
| NameList.CountInExactly | backend/app/routers/attendance.py:110-117 | the counts are of the rows of that event for those contacts |
| NameList.DocumentedSumExactly | backend/app/routers/attendance.py:287 | the documented sum equals the total iff every single match has a contact and no two share one |
| NameList.RepeatInsertsNothing | backend/app/routers/attendance.py:288-289 | the same resolved list again inserts nothing and alters no row |
| TokenRotation.AuthServer.DoLogin | backend/app/routers/auth.py:105-129 | a login issues a token with a fresh jti and founds a family |
| TokenRotation.AuthServer.DoRefresh | backend/app/routers/auth.py:176-245 | a refresh refuses, or denies the old jti and issues the successor, with every reading of the clock separate and a denylist whose lookup and write may each fail |
| TokenRotation.AuthServer.DoLogout | backend/app/routers/auth.py:135-153 | a logout denies the jti of a token that verifies, without asking the denylist |
| TokenRotation.RefreshIssuesExactly | backend/app/routers/auth.py:182-197 | a refresh at one instant, its lookup answered, issues iff the token is a signed, unexpired refresh token that is not denied; a refused call changes nothing, and an access token is always refused |
| TokenRotation.IssuedIsNew | backend/app/routers/auth.py:221-231 | what a login or refresh issues is a refresh token with a jti nobody has had, for the configured days or 7, in a new family or in that of the exchanged token |
| TokenRotation.LogoutDenies | backend/app/routers/auth.py:135-153 | a recorded logout denies exactly the jti of a token that verifies, until exp, denied before or not; it changes nothing else and always answers alike |
| TokenRotation.DenyCoversExp | backend/app/utils/token_denylist.py:58-66 | an entry written with ttl = exp - int(now) lasts until exp, and is written for every token that still verifies |
| TokenRotation.ExchangedOnceExactly | backend/app/routers/auth.py:183-207 | in any run of login, refresh, logout, clock ticks and expiring entries, however lookups and writes of the denylist fare, each jti is exchanged at most once iff no call verifies an exchanged token and finds no entry for it |
| TokenRotation.ExchangedAtMostOnce | backend/app/routers/auth.py:183-207 | from the start, in every run with a working denylist whose refresh calls ask it before exp, no jti is exchanged twice, through any expiry of entries |
| TokenRotation.ReadmittedExactly | backend/app/routers/auth.py:184-197 | a token whose exchange was recorded is accepted again iff it verified and the lookup failed or came after the entry had expired, which is past exp |
| TokenRotation.SlowCallExchangesTwice | backend/app/routers/auth.py:184-197 | a concrete run in which that happens and one family holds two accepted tokens |
| TokenRotation.OneLiveTokenPerFamily | backend/app/routers/auth.py:221-231 | at every instant of a run without such a readmission, and with every exchange recorded, a login family has at most one token that refresh or the storage cookie path accepts |
| TokenRotation.LogoutEndsFamily | backend/app/routers/auth.py:138-146 | after a recorded logout with the family's current token neither refresh nor the storage cookie path accepts any token of the family, in any later run of prompt calls on a working denylist |
| TokenRotation.ExchangedStaysRefused | backend/app/routers/storage.py:46-55 | in every such run an exchanged token is accepted at no later instant, neither by /auth/refresh nor by the storage cookie path |
| TokenRotation.FailOpen | backend/app/utils/token_denylist.py:58-80 | after an exchange the old token is still accepted, by refresh and the storage cookie path, iff its write was lost and exp is ahead, unless the lookup had failed on a token denied before |
| TokenRotation.LegacyTokenRotates | backend/app/routers/auth.py:174-207 | over any number of uses, a token without a jti founds one new family for each use before it expires, and none after |
| TaskFeed.Connection.FeederResumes | backend/app/sse.py:52-69 | what the feeder does when the await it is suspended at ends or fails: before the inner try, in the listen loop, or in one of the three awaits of the cleanup |
| TaskFeed.Connection.LeaveFeeder | backend/app/main.py:212-227 | whichever exception is in flight, the handlers of the broadcaster and the finally of the feeder put end-of-stream, unless a cancellation reaches the feeder |
| TaskFeed.Connection.FeederCancelled | backend/app/sse.py:52-69 | where a cancellation meets the feeder decides whether it starts the cleanup, replaces the exception in flight, or ends a task that has not begun |
| TaskFeed.Connection.CheckClient | backend/app/main.py:231-233 | a gone client stops the loop and cancels a running feeder |
| TaskFeed.Connection.EndWait | backend/app/main.py:234-245 | a wait ends in one frame for the oldest message, in a stop for end-of-stream, or in a keepalive |
| TaskFeed.EveryRunSafe | backend/app/main.py:206-252 | in every interleaving the items yielded, then those queued, are the items put, in order; end-of-stream is put at most once and last, never yielded, only by a finished feeder, and by every feeder that finishes before the generator leaves |
| TaskFeed.FramesExactly | backend/app/main.py:231-245 | in every run the frames are those its actions say: a keepalive for each timeout, and for the n-th completed get the n-th message that Redis delivered |
| TaskFeed.MessageIsDelivered | backend/app/main.py:217-241 | a message that arrives while the client waits is the next frame |
| TaskFeed.IdleIsKeptAlive | backend/app/main.py:234-245 | while nothing is published each wait can time out, and n of them yield n keepalives |
| TaskFeed.StoppedForAReason | backend/app/main.py:231-252 | a generator that finds the client gone or is cancelled stops; one that has stopped did so for that reason, or on completing a get |
| FeederLife.FeederLives | backend/app/sse.py:52-69 | a feeder has finished iff what happened to it is a complete life: broken off before listening, or listening, its end, and three steps of cleanup that may be broken off at any one |
| FeederLife.CancelledAgain | backend/app/main.py:246-252 | a generator cancelled again while it waits for the feeder cuts the cleanup short, without end-of-stream |
| TaskFeed.EofExactly | backend/app/main.py:219-227 | in every run end-of-stream is signalled iff the feeder has finished and no cancellation reached it, or an await of the cleanup failed while one was passing through |
| TaskFeed.CancelledFeederSignalsEof | backend/app/sse.py:61-69 | a concrete run in which the client leaves, the feeder is cancelled, and end-of-stream is signalled all the same |
| TaskFeed.StoppedIsFinal | backend/app/main.py:246-252 | after the generator has stopped nothing more is yielded |
| TaskFeed.EndedStreamDrains | backend/app/main.py:231-241 | once the source has ended and while the client stays, the loop stops within a bound given by the queue length, and by then every message has been yielded |
| TaskFeed.ClientSeesPublished | backend/app/main.py:229-245 | in every run the client has decoded, in order, exactly the messages that Redis delivered and that have left the queue, and all of them at the end of the stream |
| EventStream.RoundTrip | backend/app/main.py:241-245 | messages without CR or LF decode to plain message events, in order, with keepalives at arbitrary points |
| EventStream.DecodesExactly | backend/app/main.py:241-245 | the decoded texts are the messages sent iff no message holds a CR or an LF |
| TaskMessage.TaskUpdateOneLine | backend/app/routers/tasks.py:139-142 | a published task update is one line for every id and every status text |
| TaskMessage.TaskUpdateReadsBack | backend/app/routers/tasks.py:139-142 | a JSON reader gets back the id and the status from the published text, whatever characters the status holds |
| TaskMessage.TaskUpdatesArrive | backend/app/routers/tasks.py:139-142 | in every run of a feed on which Redis delivers task updates, the client reads the first of these updates, in order and unchanged, and all of them at the end of the stream |
| SettingsStore.LoadRows | backend/app/config.py:59-90 | the two-pass loader maps every key to its plain value, decrypting under the key derived from the secret's row |
| SettingsStore.SettingsApi.UpdateSettings | backend/app/routers/settings.py:102-138 | a refused bulk PUT changes neither table nor cache, an accepted one applies every entry and reloads |
| SettingsStore.SettingsApi.UpdateSettingByKey | backend/app/routers/settings.py:209-290 | outcome, row and cache of a single-key PUT, encryption failing closed |
| SettingsStore.SettingsApi.ToggleSafeMode | backend/app/routers/settings.py:167-181 | safe mode sets that one row and reloads |
| SettingsStore.BulkOutcome | backend/app/routers/settings.py:102-115 | a bulk PUT is accepted iff no entry is immutable or blanks a protected key |
| SettingsStore.SingleOutcome | backend/app/routers/settings.py:209-260 | the outcomes of a single-key PUT: 403 for the three immutable keys, 400 for a blank setup_complete, 404 for a missing row; a refused or masked one leaves the table alone |
| SettingsStore.NoKeyFailsClosed | backend/app/routers/settings.py:240-265 | without a secret and a valid environment key a sensitive value is refused, not stored in the clear |
| SettingsStore.RefusedNeverChange | backend/app/routers/settings.py:34-45 | no run of the writers changes the rows of jwt_secret, database_url and redis_url |
| SettingsStore.SetUpStays | backend/app/routers/settings.py:38-40 | once set, setup_complete is blanked by no run of the writers |
| SettingsStore.CacheRefinesPlainMap | backend/app/routers/settings.py:93-290 | with the environment key unset or valid, after any run of the three writers the cache is the plain map of the values last set, masked resubmits leave theirs, the secret is unchanged and every encrypted row still decrypts |
| SettingsStore.CacheFollowsExactly | backend/app/services/settings_service.py:38-64 | under any environment key, after any run the cache is the plain map except that it holds null for each sensitive value set under an invalid key and not written since; so it is the plain map iff there is none |
| SettingsStore.SensitiveValueReadsBack | backend/app/services/settings_service.py:38-64 | a sensitive value set by a single-key PUT is read back iff the environment's key is unset or valid |
| SettingsStore.SensitiveRowExactly | backend/app/routers/settings.py:45-51 | when a call changes the row of a sensitive key, it ends encrypted iff the call is a single-key PUT of a value, and masked iff it is a single-key PUT or the row was masked before |
| SettingsStore.SensitiveIsHidden | backend/app/routers/settings.py:46-59 | a value set by a single-key PUT of one of the four sensitive keys is stored encrypted and shown as the mask |
| SettingsStore.ResubmitIsIdentity | backend/app/routers/settings.py:54-59 | sending back what GET shows, masks included, leaves the cache unchanged |
| LegacyRemap.Upgrade | backend/alembic/versions/s24_fr_transition_bridge.py:63-204 | the migration changes nothing iff subjects are stashed and no contact has a legacy id, or PostgreSQL meets a number that does not fit; else every row is rewritten once from its own old value, and exactly the stashed subjects left without a contact are logged |
| LegacyRemap.LinkRemapped | backend/alembic/versions/s24_fr_transition_bridge.py:91-174 | a stashed link takes the id of the row whose legacy id it holds; an unmatched one stays in PostgreSQL and is cleared in SQLite; the stash and unstashed links stay |
| LegacyRemap.LoggedExactly | backend/alembic/versions/s24_fr_transition_bridge.py:110-155 | the log names a subject iff it is stashed, unmatched, and had no contact or is migrated by SQLite |
| LegacyRemap.NamesByValue | backend/alembic/versions/s24_fr_transition_bridge.py:179-204 | a member:<digits> name takes the id of the contact whose legacy id it carries; any other name outside SQLite's looser match stays as it is |
| LegacyRemap.CastReads | backend/alembic/versions/s24_fr_transition_bridge.py:192-204 | SQLite's cast reads a number behind blanks, up to what is no digit, with either sign, within 64 bits |
| LegacyRemap.DialectsAgreeOnNames | backend/alembic/versions/s24_fr_transition_bridge.py:179-204 | the two dialects rewrite a name alike iff it is member:<digits>, or SQLite's looser match passes it by or reads nobody's legacy id in it |
| LegacyRemap.DialectsAgreeOnTables | backend/alembic/versions/s24_fr_transition_bridge.py:179-204 | on a whole column they agree iff no name's number overflows PostgreSQL's cast and none is remapped by SQLite only |
| LegacyRemap.DialectsDifferOnNames | backend/alembic/versions/s24_fr_transition_bridge.py:192-204 | a concrete name on which they differ |
| LegacyRemap.DialectsAgreeOnLinks | backend/alembic/versions/s24_fr_transition_bridge.py:91-108 | the two dialects rewrite a stashed link alike iff it is unstashed or matched, or had no current id |
| LegacyRemap.RemapDoesNotMerge | backend/alembic/versions/s24_fr_transition_bridge.py:171-187 | two remapped names are equal afterwards iff they carried the same legacy number |
| LegacyRemap.RemapMergesExactly | backend/alembic/versions/s24_fr_transition_bridge.py:171-204 | any two member:<digits> names, remapped or not, name one contact afterwards iff their numbers were equal or one was the new id of the other's contact and nobody's legacy id |
| LegacyRemap.RemapNamesTheContact | backend/alembic/versions/s24_fr_transition_bridge.py:171-204 | a remapped name is parsed as the contact whose legacy id it carried |
| LegacyRemap.SecondRunChangesNames | backend/alembic/versions/s24_fr_transition_bridge.py:179-204 | in either dialect running the step again keeps a remapped name iff the new id is nobody else's legacy id |
| LegacyRemap.LookupIsTheMatch | backend/app/models.py:110-118 | under the partial unique index a row's join has one match, so the rewrite is determined |
| MemberName.NameReadsBack | backend/app/routers/audit.py:24-31 | for every id the written name is read back as that id by the audit and the task view |
| MemberName.NamesDistinct | backend/app/routers/pit.py:113 | two ids print alike iff they are equal |
| MemberName.NumberIsRead | backend/app/routers/audit.py:24-31 | the parsers read a number between blanks and with either sign |
| MemberName.NumeralsExactly | backend/app/routers/audit.py:24-31 | digits are read iff underscores stand singly between two of them |
| MemberName.NameIsShown | backend/app/routers/tasks.py:19-30 | the task view shows first and last name with one blank between, or the one that is there |
| Backfill.Enrollment.BackfillEnrollment | backend/app/routers/enrollment.py:432-532 | the nested loops leave the rows, counts and report of the scan function the lemmas below describe, or nothing where the foreign key is enforced and violated |
| Backfill.ForeignKeyFailsExactly | backend/app/models.py:454-458 | an enforced foreign key ends the run iff it pushes an image that has no row from a directory that has no subject; a dry run never |
| Backfill.ReportAddsUp | backend/app/routers/enrollment.py:468-519 | samples_found = samples_pushed + errors; a dry run finds the same samples and writes nothing |
| Backfill.ScanRows | backend/app/routers/enrollment.py:455-529 | one row per subject and path is kept; every scanned subject that is known and not purged has its number of rows as count; purged and unscanned subjects keep rows and count |
| Backfill.ScanAddsNothingExactly | backend/app/routers/enrollment.py:487-510 | a run adds no row iff every image it manages to push has one already |
| Backfill.SecondRunAddsNothing | backend/app/routers/enrollment.py:487-510 | a second run on the same disk adds no row if it pushes nothing the first failed to push |
| BackfillRows.RowsAddedExactly | backend/app/routers/enrollment.py:487-529 | a subject that is not purged ends with its rows before and one for each image of its directory that was pushed and had none, and if scanned and known with that number as its count |
| BackfillRows.FirstBackfillCounts | backend/app/routers/enrollment.py:487-529 | n distinct images of a known subject without rows, all pushed, give n rows and the count n |
| BackfillRows.ScanCarries | backend/app/routers/enrollment.py:495-508 | every row of a pushed image carries the image id the service gave it; old rows are otherwise unchanged, new ones marked as backfill |
| BackfillRows.ScanKeepsIds | backend/app/routers/enrollment.py:474-508 | a row whose image is not pushed keeps its image id |
| BackfillRows.ReportCounts | backend/app/routers/enrollment.py:455-519 | the report counts the directories, the images of those not purged, and of these the ones the service took |
| BackfillRows.PurgedIsUntouched | backend/app/routers/enrollment.py:461-472 | a purged subject keeps its rows and its record, whatever is in its directory |
| Backfill.Enrollment.DeleteFaceSample | backend/app/routers/enrollment.py:192-233 | a refused removal changes nothing, an accepted one removes that sample and recounts its subject |
| Backfill.DeleteExactly | backend/app/routers/enrollment.py:192-222 | a sample is removed iff it is there and its subject is linked to that contact and not purged; that sample only, and no other subject changes |
| Backfill.RemovalKeepsCounts | backend/app/routers/enrollment.py:222-231 | a removal takes one row from its subject, keeps every count equal to its rows and leaves other subjects alone |
| FieldSeed.Connection.Seed | backend/app/seeds/custom_fields_seed.py:57-201 | the loops leave the tables of the seed function, or fail exactly when a section's group is missing |
| FieldSeed.SeedEstablishes | backend/app/seeds/custom_fields_seed.py:57-201 | from any tables under the constraints the seed never fails, keeps every row and both constraints, and ends with every listed group and field |
| FieldSeed.SeedLists | backend/app/seeds/custom_fields_seed.py:154-201 | after the seed each listed field is there under a contact group of its section's name |
| FieldSeed.SeedAddsAsListed | backend/app/seeds/custom_fields_seed.py:86-201 | every row added is active and carries the listed values, options and help text included, a field under its section's group |
| FieldSeed.SeedIdempotent | backend/app/seeds/custom_fields_seed.py:29-32 | the seed changes nothing iff everything listed is there, so running it again is the identity |
| FieldSeed.ChurchSectionsClosed | backend/app/seeds/custom_fields_seed.py:45-152 | every section of the shipped tables belongs to a listed group |
| Orphans.Review.RelinkOrphan | backend/app/routers/fr_transition.py:344-365 | a relink answers as documented, or fails in its second lookup, and sets contact, name and flag of that subject only |
| Orphans.RelinkExactly | backend/app/services/enrollment.py:234-257 | a relink goes through iff subject and contact exist and the subject has a recognition id or is the only one without |
| Orphans.Review.RetireOrphan | backend/app/routers/fr_transition.py:386-396 | a retirement flags and purges that subject only |
| Orphans.ActionRecords | backend/app/routers/fr_transition.py:344-396 | a relinked subject carries the contact given and shows its first and last name; a retired one is flagged and purged at that time; what else they carried stays |
| Orphans.CountedOnce | backend/app/routers/fr_transition.py:57-92 | every subject is remapped, orphaned, or purged while unlinked or flagged, and counted once |
| Orphans.ActionTakesOneOff | backend/app/routers/fr_transition.py:292-396 | an action that goes through takes its subject, and no other, off the orphan list |
| Orphans.ListEmpties | backend/app/routers/fr_transition.py:292-396 | reviewing listed orphans shortens the list by one each time, so it is empty after exactly as many actions as it was long |

## Left out

- Name scoring, the Claude call, Fernet, bcrypt, JWT signing, image resizing and decoding, Redis and SQL engines: given functions or parameters.
- HTTP status details, paging, audit-log rows, `updated_by`, `updated_at` and log texts.
- Concurrent requests on the same review row, and several processes each with its own settings cache.
- How aliases are looked up: reprocessing takes the pipeline's answers as given, so it holds for any aliases.
- TaskFeed.EndedStreamDrains: a heartbeat of zero or less is not modelled; `wait_for` then never lets the queue be read.
- LegacyRemap.Upgrade: with no legacy id on any contact it is up to PostgreSQL's planner whether a number is cast at all; the
  model then casts none.  The guards on missing stash columns are the case in which no row has a stash; dropping columns and
  creating the consent table are not modelled.
- Backfill.Enrollment.BackfillEnrollment: failures other than reading, the remote call, a path with two rows and the foreign key
  are not modelled.
- FieldSeed.SeedAddsAsListed: timestamps are not carried, and option lists are carried as sequences, not as JSON text.
- ReviewQueue.MatchedRowsAttended: removing participants (backend/app/services/bulk_service.py:323), merging or deleting
  contacts and deleting events, which change rows through foreign keys, are not steps of the model.
- Orphans.Review.RelinkOrphan: its two commits are one step.
- MemberName.NameReadsBack: int() also reads digits and blanks outside ASCII, which no name written here contains.
- The endpoints of pit.py and the accuracy score of audit.py: beyond the name they write they would add only easy members.
- The event feed's cookie authentication, cameras, health, leaderboard, analytics, exports and the frontend.
