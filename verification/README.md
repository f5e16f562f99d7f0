# A verified model of the WhatsApp gateway's core protocols

The gateway accepts messages over HTTP, stores them in Postgres, queues them in Asynq (Redis), sends
them through per-session WhatsApp clients under a throttle, and follows their receipts. This project
models the parts of it that keep state over time and proves what they guarantee over every run:

- **Throttle** (`Throttle`, `SessionRows`, `Breaker`, `ThrottleRuns`): the sliding window, the minimum
  interval with jitter and the failure cooldown, shared by concurrent workers. Every clock reading and
  every random draw is an explicit input of the pass that takes it.
- **Message lifecycle** (`Jobs`, `Lifecycle`, `LifecycleSafety`, `LifecycleRestart`, `LifecycleFate`,
  `LifecycleServing`, `LifecycleLedger`, `LifecycleHandover`, `Handlers`): send requests, the two-insert
  transaction, the task queue, the worker with its retries, deletion, crashes between any two steps, store
  writes that fail, and recovery of the oldest 1000 waiting rows at the next start. Runs are arbitrary
  sequences of steps; a step that is not enabled changes nothing. `Handlers` and `LifecycleRestart` show
  that the code of the send handler, of the worker and of Recover is a run of that system.
- **Receipts** (`Receipts`): delivered and read receipts over the Memory and the Postgres store.
- **Text** (`Templates`, `Sse`): template substitution in random map order; the event stream printer
  and the admin client's chunked reader.
- **Smaller state machines** (`Broker`, `RateWindow`, `RefreshTokens`, `Migrations`).

Instants are integers in nanoseconds. Postgres appears as atomic transactions, row locks and unique
indexes; Asynq as unique task IDs, at most three retries after an error, and an archive that keeps the
ID of a task that used them up. Hashes are injective. Message IDs are UUID values.

## What holds only under a condition

Several properties one would expect of the code hold only under a condition. Each has a concrete
counterexample and, where the table says "if and only if", the exact condition.

- **Window cap.** A pass breaks the cap if and only if the last minute is full and either `time.Until` is
  read too late, or a pass that had read a later `now` got the lock first and dropped an entry
  (`CapBrokenIff`, `LateReading`, `OutOfLockOrder`). Passes at most `lag` behind exceed it by at most one
  message per 100 ms of lag, and can do so (`CapExcess`, `ExcessIsReached`); in lock order the cap holds
  over whole runs (`WindowCap`).
- **Spacing and cooldown.** They hold in any clock order, except for a pass whose second `time.Until`
  reading falls exactly on the expiry of the oldest entry (`SpacingBrokenIff`, `OvertakenPass`).
- **Cooldown trigger.** The tight number of failures within a minute is max(1, 2·threshold − 2), one less
  than a pigeonhole argument gives. The tight bound of the API-key window is 2·limit − 1.
- **Templates.** The result depends on the map order if and only if a variable's token can appear in values
  of other variables put side by side with text (`ConfluentIffClear`), which for values of text and tokens
  means that one mentions another variable that would change it (`ConfluentIff`).
- **Recovery.** A failed status write followed by a successful job write leaves a queued message without a
  waiting row, and when its task is gone too, for ever (`StuckForeverIff`, `LostWhileQueued`). An archived
  task keeps its ID, so a restart skips it although its message is still queued (`ArchivedWhileQueued`).
  Rows beyond the first 1000 wait until older ones are done (`RestartTask`, `Revives`).
- **Accepted but not sent.** After a failed submission the row waits without a task; a retry with the same
  key is answered 200, and only a restart sends the message (`WaitsForRestartIff`, `AcceptedButWaiting`).
- **Double sending.** A message can be handed to WhatsApp twice: when its sent status or its completed row
  cannot be written, or the worker crashes after handing it over (`HandedOverOnce`, `HandedAgainIff`,
  `SentTwice`, `SentTwiceByRestart`).
- **Resend.** The URL, file name, MIME type, priority and delay are not copied, so a resent message behaves as
  the original only if there was no media URL to lose (`ResendIff`).
- **Refresh.** A refresh within the second the old token was issued in returns the same token, so the old
  one stays accepted (`Refresh`). A logout is undone by a request of that user that has passed its check
  and not yet stored its token (`LogoutIsFinalIff`).
- **Rate limit answer.** docs/BILLING_INTEGRATION.md:147 tells callers to expect 429; the code answers an
  exhausted API key like a wrong one. The model follows the code.

## Model

| member | source | states |
|---|---|---|
| `Throttle.Compact` | internal/throttle/limiter.go:35-43 | the in-place `recent[:0]` loop leaves exactly the entries after the cutoff, in order |
| `Throttle.Append` | internal/throttle/limiter.go:58 | append extends the slice by the instant, in place or in a fresh array |
| `Throttle.Limiter.constructor` | internal/throttle/limiter.go:18-20 | a new limiter remembers nothing about any session |
| `Throttle.Limiter.Forget` | internal/throttle/limiter.go:35-43 | compaction of one session's slice; every other session unchanged |
| `Throttle.Limiter.Demand` | internal/throttle/limiter.go:44-55 | the wait is the larger of cooldown and spacing, replaced by the window's expiry when the window is full |
| `Throttle.Limiter.Remember` | internal/throttle/limiter.go:57-58 | an admission becomes the session's last and newest entry; others unchanged |
| `Throttle.Limiter.Pass` | internal/throttle/limiter.go:29-62 | the section under the mutex, on arrays, refines the pass function on values and touches no other session |
| `Throttle.Limiter.Wait` | internal/throttle/limiter.go:21-71 | the retry loop ends admitted, cancelled or with a query error exactly as the script of passes dictates, with the number of passes |
| `Throttle.WaitOutcome` | internal/throttle/limiter.go:21-71 | the first pass that is not refused decides: admitted, with its instant recorded as the last and newest; a query error exactly when it selects no row; cancelled when every pass is refused |
| `Throttle.OutcomeIsUnique` | internal/throttle/limiter.go:21-71 | that leaves one result and one remembered state for each script |
| `SessionRows.MergeStaysInRange` | internal/httpapi/server.go:1044-1056 | an accepted update keeps every throttle setting in its range |
| `SessionRows.AcceptedIff` | internal/httpapi/server.go:1048-1054 | a request is accepted exactly when each given field is in its range |
| `SessionRows.MergeSetsWhatIsGiven` | internal/httpapi/server.go:1056 | each given setting is what the row then holds, each missing one stays, and the failure counter, its window and the cooldown are left alone |
| `SessionRows.SessionTable.UpdateThrottle` | internal/httpapi/server.go:1032-1066 | refused exactly when some field is out of range, and then naming the first such field; an error exactly when the statement is reported as failed, 404 exactly when the session is missing; the row is merged field by field and stays in range, also when the report of success is lost |
| `SessionRows.SessionTable.RecordFailure` | internal/throttle/limiter.go:73-101 | error exactly on a reported database failure or a missing session; the row moves as specified whenever the transaction commits, reported or not, an old cooldown surviving when no new one starts |
| `SessionRows.SessionTable.RecordSuccess` | internal/throttle/limiter.go:103-106 | clears counter, window and cooldown of that session only |
| `Breaker.CounterFollowsStreak` | internal/throttle/limiter.go:73-106 | after every history, the counter counts the newest failures since the last success, the oldest of which anchored the window |
| `Breaker.TripIsJustified` | internal/throttle/limiter.go:85-95 | soundness: a cooldown starts only on the last of at least `threshold` failures within less than a minute with no success among them |
| `Breaker.FailuresTrip` | internal/throttle/limiter.go:85-95 | completeness: after any history, max(1, 2·threshold − 2) failures within less than a minute start a cooldown |
| `Breaker.EnoughIsTight` | internal/throttle/limiter.go:85-95 | one failure less can pass without a cooldown, for every threshold from 2 |
| `Breaker.NewSession` | migrations/001_initial.sql:4 | the settings of a new session, all in range |
| `Breaker.CooldownIff` | internal/throttle/limiter.go:92-106 | the stored cooldown ends at an instant if and only if the newest tripping failure since the last success came the configured pause before it; nothing else changes it |
| `ThrottleRuns.PassRemembers` | internal/throttle/limiter.go:35-58 | the compacted list answers every query about the last minute as the full history would |
| `ThrottleRuns.AdmissionOwesNothing` | internal/throttle/limiter.go:30-56 | an admitted pass met cooldown and drawn interval if and only if it was not overtaken by the clock |
| `ThrottleRuns.StepKeeps` | internal/throttle/limiter.go:21-71 | every step of every worker keeps the run invariant: ranges, faithful memory, spacing, cooldown |
| `ThrottleRuns.RunKeeps` | internal/throttle/limiter.go:21-71 | that invariant holds after every run |
| `ThrottleRuns.SingleAdmitsIff` | internal/throttle/limiter.go:28-56 | a pass with one reading is admitted if and only if the cooldown is over, interval and drawn jitter have passed since the last admission, and fewer than `max` remembered ones are less than a minute old |
| `ThrottleRuns.AdmittedIff` | internal/throttle/limiter.go:28-56 | after any run and for a pass that is not behind, the same in terms of the history of admissions |
| `ThrottleRuns.WaitIsShortest` | internal/throttle/limiter.go:44-63 | until the wait is over, a pass with the same draw would be refused again |
| `ThrottleRuns.RunsKeepOrder` | internal/throttle/limiter.go:33-61 | with single readings the remembered instants ascend and the last is the newest, so the first is the oldest |
| `ThrottleRuns.WorkersCoolDown` | internal/throttle/limiter.go:25-32 | after any run, a worker that selects the row is refused at every reading before the end of the cooldown in force, and owes no cooldown otherwise |
| `ThrottleRuns.FailuresStopWorkers` | internal/throttle/limiter.go:25-32 | after enough failures within a minute, every worker is refused for the whole configured pause |
| `ThrottleRuns.SpacingBrokenIff` | internal/throttle/limiter.go:44-61 | after any run and with any readings, an admission respects cooldown and interval if and only if it is not overtaken |
| `ThrottleRuns.Spacing` | internal/throttle/limiter.go:44-61 | two admissions between which nothing is overtaken, the later one included, are in order, at least 100 ms per admission and the later one's interval apart, in any clock order |
| `ThrottleRuns.FullWindowAdmitsIff` | internal/throttle/limiter.go:53-56 | a full window admits exactly when `time.Until` is read too late |
| `ThrottleRuns.CapBrokenIff` | internal/throttle/limiter.go:36-61 | after any run and for any readings, a pass breaks the cap if and only if the last minute of the history is full and either `time.Until` is read too late or a pass ahead has dropped an entry from the list; a pass that is not behind needs the first, one with a single reading the second |
| `ThrottleRuns.BehindBound` | internal/throttle/limiter.go:35-61 | a pass that is behind exceeds the cap at most by the admissions of its minute that the furthest pass had dropped |
| `ThrottleRuns.CapWithLag` | internal/throttle/limiter.go:28-61 | over whole runs whose passes are at most `lag` behind, every admission leaves at most `max` admissions in its minute plus those of the first `lag` of that minute |
| `ThrottleRuns.CapExcess` | internal/throttle/limiter.go:28-61 | so a lag lets a session exceed its cap by at most one message per 100 ms of it |
| `ThrottleRuns.ExcessIsReached` | internal/throttle/limiter.go:25-61 | the bound is tight: for each excess up to 599 there is a run with cap 1 that reaches it |
| `ThrottleRuns.TimesIncrease` | internal/throttle/limiter.go:48-58 | with single readings, admissions are recorded in strictly increasing order, whatever the lock order |
| `ThrottleRuns.WindowCap` | internal/throttle/limiter.go:33-61 | without lag, every admission leaves at most `max` admissions of the session in the minute ending with it, even when the cap changes between passes |
| `ThrottleRuns.RefusalGains` | internal/throttle/limiter.go:48-69 | after a refusal and its sleep, the cooldown is over, the window has lost an entry if it was full, and only a larger draw can refuse for spacing |
| `ThrottleRuns.WaitEnds` | internal/throttle/limiter.go:22-70 | an undisturbed Wait is admitted within jitter_ms + 2 passes, plus one per entry over the cap |
| `ThrottleRuns.OutOfLockOrder` | internal/throttle/limiter.go:28-43 | a run whose clock readings are out of lock order exceeds cap 1 |
| `ThrottleRuns.LateReading` | internal/throttle/limiter.go:53-56 | a run whose `time.Until` is read late exceeds cap 1 |
| `ThrottleRuns.OvertakenPass` | internal/throttle/limiter.go:53-56 | a run in which an overtaken pass breaks the spacing rule |
| `RateWindow.RateTable.Verify` | internal/auth/service.go:138-152 | the locked section decides as specified on the key's own window and leaves other keys alone |
| `RateWindow.KeysAreIndependent` | internal/auth/service.go:139-151 | after any interleaving, what the shared map holds for a key is decided by that key's calls alone |
| `RateWindow.TraceHasShape` | internal/auth/service.go:141-150 | accepted calls fall into windows of at most `limit` calls that open at least a minute apart |
| `RateWindow.UnlimitedPasses` | internal/auth/service.go:138 | a key without a positive limit is always let through |
| `RateWindow.RefusedIff` | internal/auth/service.go:142-148 | after any run, a call is refused if and only if the newest window opened less than a minute ago and holds `limit` accepted calls |
| `RateWindow.SpanOfTwice` | internal/auth/service.go:141-150 | 2·limit consecutive accepted calls take at least a minute |
| `RateWindow.RateBound` | internal/auth/service.go:138-152 | any half-open minute holds at most 2·limit − 1 accepted calls of a key, each anchored window at most limit |
| `RateWindow.RateBoundIsTight` | internal/auth/service.go:138-152 | the bound is reached for every limit |
| `Templates.ResolveTemplate` | internal/httpapi/server.go:1336-1341 | the loop computes the sequence of rewrites in the given map order |
| `Templates.ReplaceIsSubstitute` | internal/httpapi/server.go:1338 | one leftmost ReplaceAll on the text is one substitution on the segments, for any value |
| `Templates.Confluence` | internal/httpapi/server.go:1336-1341 | when literals and values avoid one of the two braces, every map order equals the simultaneous substitution, unknown tokens intact |
| `Templates.ConfluentIff` | internal/httpapi/server.go:1336-1341 | for values made of text and tokens, any two orders agree on every body, and give the simultaneous substitution, if and only if no value mentions another variable that would change it |
| `Templates.CollidesIffMentioned` | internal/httpapi/server.go:1336-1341 | for such values a token can appear only where a value mentions its variable |
| `Templates.ConfluentIffClear` | internal/httpapi/server.go:1336-1341 | for arbitrary values, any two orders agree on every body if and only if no variable's token can appear in values of other variables put side by side with text, except one that stands for itself; and the same condition decides whether every order gives the simultaneous substitution |
| `Templates.AgreementClears` | internal/httpapi/server.go:1336-1341 | if all orders agree, no token that stands for something else can appear in values of any set of other variables |
| `Templates.ReplaceMarked` | internal/httpapi/server.go:1338 | resolving a variable that cannot collide replaces its tokens and copies all text and values around them |
| `Templates.ValuesWithBothBraces` | internal/httpapi/server.go:1336-1341 | two map orders that give different texts because of a value with a token |
| `Templates.KeysWithBraces` | internal/httpapi/server.go:1336-1341 | two map orders that give different texts because of a key with braces |
| `Sse.WriteEvents` | internal/httpapi/server.go:201-212 | the write loop prints the greeting and one frame per event |
| `Sse.SplitContinues` | internal/admin/ui/assets/app.js:352 | splitting the kept remainder together with more input continues the split of the whole stream |
| `Sse.HandleBlocks` | internal/admin/ui/assets/app.js:353-361 | the inner loop hands on exactly the readable blocks with known names, in order |
| `Sse.ConnectEvents` | internal/admin/ui/assets/app.js:351-362 | for any stream and any cut into chunks, the client handles exactly the blocks of the whole stream |
| `Sse.BodyReadsBack` | internal/admin/ui/assets/app.js:354-359 | the two patterns recover name and data of a printed event |
| `Sse.RoundTripIff` | internal/httpapi/server.go:201-212 | the client reads back exactly the printed events, in order, if and only if each has a one-line trimmed name and one-line non-empty data |
| `Sse.EndToEnd` | internal/admin/ui/assets/app.js:351-362 | however the stream of printable events is cut, the client handles exactly those with known names, in order; all of them when every name is known |
| `Sse.KnownPicks` | internal/admin/ui/assets/app.js:360 | for any stream, what is handled is what was read under a known name, position by position |
| `Sse.StreamIs` | internal/httpapi/server.go:201-211 | the text on the wire: the greeting, then one frame per event |
| `Sse.FieldIff` | internal/admin/ui/assets/app.js:354-357 | a line matches if and only if it is the prefix, at most one space and some text |
| `Sse.FirstFieldIff` | internal/admin/ui/assets/app.js:354-357 | the first line that matches decides |
| `Sse.TrimIs` | internal/admin/ui/assets/app.js:356 | trimming removes white space at both ends and nothing else |
| `Sse.Characters` | internal/admin/ui/assets/app.js:354-357 | which characters end a line and which are trimmed |
| `Broker.EventBroker.constructor` | internal/events/broker.go:35 | a new broker has no subscriber |
| `Broker.EventBroker.Subscribe` | internal/events/broker.go:51-56 | adds one open, empty channel |
| `Broker.EventBroker.Unsubscribe` | internal/events/broker.go:56-63 | closes that channel and removes it; a second call changes nothing |
| `Broker.EventBroker.Dispatch` | internal/events/broker.go:36-50 | offers the event once to every subscriber and to no other channel, in whatever map order |
| `Broker.StepIsSafe` | internal/events/broker.go:36-64 | no step sends on a closed channel or closes one twice; subscribers are exactly the open channels |
| `Broker.StepIsCounted` | internal/events/broker.go:43-48 | a step changes what a channel was offered by a dispatch exactly as it changes what that dispatch owes it |
| `Broker.BrokerIsSafe` | internal/events/broker.go:36-64 | over all interleavings: never a panic, buffers at most 32, received plus buffered is exactly the taken offers in order, losses only to a full buffer, each finished dispatch offered exactly once to each of its subscribers |
| `Broker.EventOfIff` | internal/events/broker.go:36-50 | a dispatch begins once, and has the event it began with |
| `Broker.OffersAreDispatched` | internal/events/broker.go:43-48 | over all interleavings, every offer carries the event its dispatch began with, and is lost if and only if the buffer held 32 events |
| `RefreshTokens.UserTable.Issue` | internal/auth/service.go:79-98 | stores the digest of the returned token, if the user exists |
| `RefreshTokens.UserTable.Refresh` | internal/auth/service.go:100-112 | succeeds exactly on an unexpired token equal to the stored one; afterwards the old token is still accepted exactly when issued in the same second |
| `RefreshTokens.UserTable.Logout` | internal/auth/service.go:217-220 | clears the column of that user only |
| `RefreshTokens.UserTable.ChangePassword` | internal/auth/service.go:222-236 | clears the column exactly when the user exists and the old password is right |
| `RefreshTokens.TableIsCurrent` | internal/auth/service.go:79-112 | after every interleaving, each column holds the last write for its user |
| `RefreshTokens.AcceptedIsLastStored` | internal/auth/service.go:100-112 | in every reachable state, a token is accepted if and only if it is unexpired and the last value stored for its user, so at most one, and none after a logout until the next store |
| `RefreshTokens.AcceptedForSevenDays` | internal/auth/service.go:79-112 | a token is accepted, while it is the last one stored for its user, until seven days after the second it was signed in |
| `RefreshTokens.LogoutIsFinalIff` | internal/auth/service.go:217-236 | short of a new login, a logout or password change is final if and only if no request of the user is between its check and its store |
| `Migrations.SortSorts` | internal/database/postgres.go:38 | sorting gives the same names in strictly increasing byte order |
| `Migrations.LessIff` | internal/database/postgres.go:38 | the order is by the first character that differs, a prefix first |
| `Migrations.FilesOf` | internal/database/postgres.go:33-38 | the files of a run are exactly the entries that are no directories and end in .sql |
| `Migrations.Database.Migrate` | internal/database/postgres.go:27-71 | the loop over the sorted .sql files behaves as the run function for every point of interruption |
| `Migrations.RunKeepsPrefix` | internal/database/postgres.go:42-69 | a run, wherever it stops, keeps the applied files a recorded prefix of the sorted list |
| `Migrations.RunsConverge` | internal/database/postgres.go:42-69 | so does any number of interrupted runs; once one reports success, every file is applied exactly once, in order |
| `Migrations.SameAsCleanRun` | internal/database/postgres.go:27-71 | interrupted runs followed by a complete one leave the database of one clean run, which succeeds |
| `Jobs.DecodeInverts` | internal/queue/queue.go:17-28 | both JSON forms of a job, with and without omitted empty fields, decode to the job |
| `Jobs.FieldsOf` | internal/queue/queue.go:17-28 | the live form leaves out exactly the six optional fields that are zero, the stored form none |
| `Jobs.DecodeIff` | internal/queue/queue.go:88-91 | a stored row decodes if and only if every field it has is of the right type |
| `Jobs.DecodedField` | internal/queue/queue.go:88-91 | each field of the decoded job is what the row holds, or zero where it is missing |
| `Jobs.NothingDecodes` | internal/queue/queue.go:88-91 | an empty object decodes to a job of zero values |
| `Jobs.TaskQueue.constructor` | internal/queue/queue.go:60-70 | the queue starts empty |
| `Jobs.TaskQueue.Enqueue` | internal/queue/queue.go:72-83 | stores one fresh task unless the ID is taken or Redis is away: with its job, in the queue by the sign of its priority, delayed by a positive delay |
| `Jobs.TaskQueue.RecoverRow` | internal/queue/queue.go:87-97 | one row: an ID conflict counts as success, a bad payload or an outage as failure |
| `Jobs.TaskQueue.Recover` | internal/queue/queue.go:86-100 | stops exactly at the first row that cannot be read or submitted; the rows before it are recovered |
| `Jobs.RecoverAddsMissing` | internal/queue/queue.go:86-100 | a full recovery keeps every stored task, adds exactly one fresh task per listed job without one, and nothing else |
| `Jobs.RecoverTwice` | internal/queue/queue.go:86-100 | recovering again changes nothing |
| `Jobs.RecoveredTaskIsLive` | internal/store/memory.go:324 | the task recovered from the persisted row is the one the live submission makes, in the same queue |
| `Jobs.DeliverableIff` | internal/queue/queue.go:172-188 | some surroundings let a message be delivered if and only if it is a text, or media with a URL |
| `Jobs.ResendIff` | internal/httpapi/server.go:1267-1293 | a resent message behaves as the original in all surroundings if and only if there was no media URL to lose, and can be delivered at all if and only if it is a text |
| `Jobs.ResentIsOriginalIff` | internal/httpapi/server.go:1269-1287 | a resend keeps session, recipient, type and content, and is the whole original if and only if that has no media fields, priority or delay |
| `Jobs.BlankCharacters` | internal/queue/queue.go:176 | which characters count as white space in a URL |
| `Jobs.BlankConcat` | internal/queue/queue.go:176 | a URL is blank when all its characters are |
| `Lifecycle.ExecContinues` | internal/httpapi/server.go:1118-1166 | what runs from a reachable state is itself part of a run |
| `Lifecycle.RunJobIsARun` | internal/queue/queue.go:140-212 | while the gateway serves, the steps of one job are a run of the gateway that touches nothing else |
| `LifecycleSafety.JobStepKeepsEntry` | internal/queue/queue.go:140-212 | every step of a job keeps task, row and message consistent, and the two tables in step with the log of writes |
| `LifecycleSafety.CrashKeepsEntry` | internal/queue/queue.go:140-212 | so does a crash at any point of the handler |
| `LifecycleSafety.CrashedTask` | internal/queue/queue.go:77 | the task of an interrupted handler is delivered again, counted as a retry if that was noted, and archived after the third |
| `LifecycleSafety.StepKeepsUnique` | migrations/001_initial.sql:8 | every step keeps at most one message row per idempotency key |
| `LifecycleSafety.StepKeepsAnswers` | internal/httpapi/server.go:1128-1165 | every step keeps accepted answers, given or promised, naming the message of their key |
| `LifecycleSafety.RunKeeps` | internal/httpapi/server.go:1118-1166 | these invariants hold after every run, crashes included |
| `LifecycleSafety.Idempotency` | internal/httpapi/server.go:1118-1165 | at most one row per key at any time, and any two 200 or 202 answers for a key without deletion name the same message, over all interleavings |
| `LifecycleSafety.OnlyTheInserterEnqueues` | internal/httpapi/server.go:1145-1164 | a request that reaches Enqueue performed, at an earlier step of the run, the insert of its ID where there was none, shares it with no other request, and submits the job of its row without conflict |
| `LifecycleSafety.RowsCarryRequests` | internal/httpapi/server.go:1139-1160 | after any run, every stored job, and the job of its task, is that of a request which arrived, field by field, and its message has the request's key |
| `LifecycleRestart.QueuedIsWaiting` | internal/queue/queue.go:189-211 | durability and its limit: after any run with crashes, a queued message has a waiting row if and only if its status was written or its row was not; where that fails, a status write of the failure path had failed |
| `LifecycleRestart.SelectedAreOldest` | internal/store/memory.go:288-289 | the list holds at most 1000 waiting rows, all if there are not more, and none is left out for a younger one |
| `LifecycleRestart.UnlistedIsNotRecovered` | internal/store/memory.go:289 | a row that is not listed is not recovered |
| `LifecycleRestart.RecoveryIsARun` | internal/queue/queue.go:86-100 | the recovery steps of the first n listed rows, in order, are a run that leaves the queue n rounds of Recover leave and changes nothing else, for a Recover that stops early as well |
| `LifecycleRestart.RestartTask` | internal/queue/queue.go:86-100 | after recovery, as a run of the gateway, a job has exactly its stored task, or a fresh one if it was among the first 1000 waiting rows, or none, and nothing else differs |
| `LifecycleRestart.RestartRecoversAll` | internal/store/memory.go:288-305 | with at most 1000 waiting rows, recovery leaves every waiting job with exactly one task with its own job and queue, live if and only if it was not archived |
| `LifecycleFate.StuckForeverIff` | internal/queue/queue.go:86-100 | after any run, a queued message can never leave the queue again, whatever happens, if and only if its row was written and its task is gone or archived |
| `LifecycleFate.WayOut` | internal/store/memory.go:288-305 | in every other case some continuation takes it out of the queue, recovering only listed rows |
| `LifecycleFate.Revives` | internal/store/memory.go:288-305 | a waiting job without a live task gets one again, if need be after restarts in which older waiting jobs fail and drop out of the list of 1000, and its own log does not change |
| `LifecycleFate.ArchivedWhileQueued` | internal/queue/queue.go:145-149 | a run in which four failed waits archive the task of a message that stays queued, and a crash with full recovery leaves it archived |
| `LifecycleFate.LostWhileQueued` | internal/queue/queue.go:189-200 | a run from the start in which a failed status write and an error 463 leave a text queued for ever, without task or waiting row |
| `LifecycleLedger.JobStepKeepsShape` | internal/queue/queue.go:140-212 | every step keeps a job's history a number of whole retried failures followed by the current handler's part |
| `LifecycleLedger.RunKeepsLedger` | internal/queue/queue.go:140-212 | that shape holds after every run, for every job without a failed write or an interrupted attempt |
| `LifecycleLedger.Conservation` | internal/store/memory.go:284-287 | between attempts, the attempts counter equals the failed plus sent events and the recorded outcomes, at most 1 + MaxRetry, with at most one sent event |
| `LifecycleLedger.NothingAfterTheEnd` | internal/queue/queue.go:196-211 | nothing is done for such a job after message.sent or after the message.failed of an error 463 |
| `LifecycleHandover.RunKeepsHandover` | internal/queue/queue.go:160-212 | after every run, a hand-over that nothing reopened belongs to a handler that is finishing, or to a job with neither task nor waiting row |
| `LifecycleHandover.HandedOverOnce` | internal/queue/queue.go:203-211 | in every run, between two hand-overs of a message to WhatsApp the sent status or the completed row could not be written or the attempt was interrupted; without such a fault there is at most one |
| `LifecycleHandover.HandedAgainIff` | internal/queue/queue.go:140-212 | from every reachable state and over all continuations, restarts included, a message can be handed over (again) without a fault of its own job if and only if it can be sent at all and its job comes back: its task is to be attempted, or is or will be gone with the row still waiting; its last hand-over was then reopened |
| `LifecycleHandover.SentTwice` | internal/queue/queue.go:203-205 | a run in which a text is handed over twice because its sent status could not be written |
| `LifecycleHandover.SentTwiceByRestart` | internal/queue/queue.go:206-211 | a run in which a sent text whose completed row could not be written is handed over again after a restart that interrupts nothing |
| `LifecycleServing.WaitsForRestartIff` | internal/httpapi/server.go:1159-1165 | a queued message of a serving gateway cannot leave the queue without a restart if and only if no request is about to enqueue it and its task is gone, archived, or in a last attempt that could not write the status |
| `LifecycleServing.AcceptedButWaiting` | internal/httpapi/server.go:1128-1163 | a run in which a failed submission is answered 503, the retry with the same key 200, and the message waits for a restart |
| `Handlers.JobWorker.Fail` | internal/queue/queue.go:190-201 | the failure path records, tries both writes, dispatches and ends or retries the task, in that order, whichever writes fail |
| `Handlers.JobWorker.Succeed` | internal/queue/queue.go:203-211 | the success path in its order, ending the task; a status that cannot be written retries it |
| `Handlers.JobWorker.HandleTask` | internal/queue/queue.go:140-212 | the whole handler leaves what one attempt should, by what it meets, touches no other job, and is a run of the transition system, whichever writes fail |
| `Handlers.HandlerMeans` | internal/queue/queue.go:145-211 | the message is handed over if and only if the throttle lets it through, there is a client, it is a text or media with a URL for a media client, and WhatsApp accepts it; otherwise the failure is recorded and written, and the task ends if and only if the send was tried and met error 463; log, message, row and task in each case |
| `Handlers.HandlerIsARun` | internal/queue/queue.go:140-212 | refinement: one uninterrupted run of the handler is a run of the gateway, whichever store writes fail |
| `Handlers.Gateway.FindKey` | internal/httpapi/server.go:1128-1134 | finds a row exactly when the query works and the key is taken, and then one that holds it |
| `Handlers.Gateway.Settle` | internal/httpapi/server.go:1145-1158 | after a failed insert: 200 naming the winner exactly when it can be found, else 500 |
| `Handlers.Gateway.InsertAndEnqueue` | internal/httpapi/server.go:1159-1165 | 202 exactly when the submission is done, with the row and the task of that job; else 503 |
| `Handlers.Gateway.SendMessage` | internal/httpapi/server.go:1118-1166 | 200, 202, 500 and 503 exactly by the outcomes of lookups, insert and submission; an accepted request is stored and queued with all its fields; a failed insert stores nothing; other messages are left alone; and it is a run of the transition system |
| `Handlers.PutIsARun` | internal/store/memory.go:315-329 | the insert transaction, for each way it can end, as steps of the transition system |
| `Handlers.RefusedIsARun` | internal/httpapi/server.go:1145-1158 | the insert-race fallback as a run |
| `Handlers.QueuedIsARun` | internal/httpapi/server.go:1159-1165 | insert and submission as a run |
| `Receipts.SessionManager.HandleReceipt` | internal/whatsapp/session_manager.go:217-247 | a batch of IDs is a sequence of single turns, those with a store error skipped; other receipt types change nothing |
| `Receipts.SessionManager.HandleReceipts` | internal/whatsapp/session_manager.go:217-247 | a sequence of receipts is one sequence of turns, so the results below hold for it |
| `Receipts.ReceiptsAreTurns` | internal/whatsapp/session_manager.go:218-226 | the turns of any receipts ask only for delivered and read |
| `Receipts.TurnMoves` | internal/whatsapp/session_manager.go:230-245 | over either store and any iteration order, a turn moves each row by itself, or nothing on a store error, and reports exactly the row it moves, if the update is known to be done |
| `Receipts.EachRowByItself` | internal/whatsapp/session_manager.go:217-247 | over a run of receipts, each message's status and events depend on the receipts that reach it alone |
| `Receipts.AfterIsHighest` | internal/store/memory.go:280-283 | the final status is the highest of those seen and never moves down |
| `Receipts.SentMessage` | internal/whatsapp/session_manager.go:233-245 | from sent: final status by the receipts that reach it, delivered and read reported at most once each, delivered never after read; without store errors read is reported exactly when received |
| `Receipts.SentMessageByKind` | internal/whatsapp/session_manager.go:217-247 | after any sequence of receipts a sent message is read if and only if a read receipt for it reached the store, otherwise delivered if and only if a delivery receipt did; message.read and message.delivered follow, each at most once |
| `Receipts.PostgresIsGuarded` | internal/store/memory.go:280-283 | whatever the rows, the Postgres update touches only sent or delivered rows of that session and non-empty ID |
| `Receipts.MemoryUpdatesFirst` | internal/store/memory.go:201-212 | Memory overwrites the first match in its iteration order and nothing else; no match is an error |
| `Receipts.Confluence` | internal/whatsapp/session_manager.go:217-247 | runs in which the same receipts reach the store, in any order, repetition and store, leave the same rows |
| `Receipts.StoresAgree` | internal/store/memory.go:201-224 | the unguarded Memory store and the guarded Postgres update give the same rows and events |

## Left out

- Request validation, HTTP routing and JSON request decoding of the send, resend and throttle handlers; the model starts after them. The clamp of a negative delay in sendMessage is part of that.
- CRUD of templates, webhooks, API keys and sessions, the dashboard, monitoring and message listings: they would only add easy members.
- The WhatsApp client library, media transfer, QR codes and the session status writes driven by its callbacks.
- Webhook delivery, HMAC, AES-GCM, bcrypt, JWT signatures and IP rules; a wrong signature is a token that cannot be read, a password check is a boolean.
- The admin interface apart from its stream loop; the UTF-8 decoding of the stream and JSON.parse of the payload, so the model's stream is a sequence of characters.
- JSON is modelled by field, not by character; a priority or delay outside 32 bits appears as a failed insert.
- The limiter's memory is lost when the gateway restarts; no cap or spacing is claimed across a restart.
- deleteMessage reads the status and deletes in two statements; the model does both in one step, which is the same because a status never returns to queued.
- The lookup and update of one receipt are one step in `Lifecycle`; `Receipts` models them apart, under their mutex, with their store errors.
- Two gateways that migrate the same database at once.
- Templates.ConfluentIffClear: asks for brace-free keys, because a key with braces is no variable name of a body; such a key can still match across two tokens, as `Templates.KeysWithBraces` shows, and may then agree with the substitution by accident of its value.
- Templates.ConfluentIff: speaks of values made of brace-free text and tokens; `Templates.ConfluentIffClear` covers all values.
- LifecycleLedger.Conservation: speaks of jobs none of whose store writes failed and none of whose attempts was interrupted, since a crash between a record and its event breaks the equality.
- The creation times by which waiting rows are listed are taken to follow the order in which their inserts commit.
