# Models of the backend's shared state

The backend sends scheduled Telegram messages for many accounts. A scheduler, bot handlers, API calls and
background health checks change the same rows and keys, and the code protects them with compare-and-set
revisions, expiring locks with owner tokens, and loops that rebuild lists. This project models that code in
Dafny, one module for each component, and proves what it keeps over whole runs. `dafny verify dfyconfig.toml`
checks everything.

Every method follows the statements of the source and is tied by its contract to a specification function;
the lemmas are about those functions and about runs of them. What an operation does to rows and columns is stated
by lemmas that do not mention the functions it is computed with, most of them named `...Exactly`. Clocks, random draws, tokens, checksums, regular
expression matches, parsed entities and the outcomes of Telegram calls are arguments. Redis keys are maps with expiry times.
A session that locks its rows, or writes them under a compare of the revision, is one atomic step, and a Telegram
call between two sessions is a gap in which any other step may run. The sessions of task runs hold no lock while
they send: in `Schedule.dfy` and `TargetRuns.dfy` they load at one step and commit what they have changed at
another, and so do the bot's edits in `MediaCaptureRuns.dfy`.

- `SqlSplitter.dfy` - the migration runner's statement splitter: a lexer with four modes, proved equal to a
  recursive decomposition of the text, which in turn is characterised without the lexer's loop (the one way to
  cut the text into pieces that hold no top-level semicolon) and by a character-at-a-time reference scanner.
  Characters are a datatype of classes: the quotes, the dollar sign, the semicolon, tag characters, white space
  and all others.
- `Migrations.dfy` - apply and rollback over version records, with a fault allowed at every statement. Runs of
  applies, rollbacks by steps, dry runs and new releases keep the applied versions a prefix of the file list,
  whatever the scripts do; the schema is the fold of that prefix as long as the down scripts undo what their
  up scripts did on the schemas actually reached.
- `MediaCapture.dfy`, `MediaCaptureRuns.dfy` - the task-media capture protocol: its sessions, and all
  interleavings of them with copies in flight, lost workers, edits, clears, deletions, and the two kinds of edit
  the revision does not order: batch edits of tasks of content version 1 and the bot's unlocked edits.
- `Schedule.dfy` - every exit path of a task run, escaping exceptions included, and what it writes to the row's
  next run; and runs in which these and the row's other writers overlap, each loading the row at one time and
  committing the columns it has changed at another. Only scheduled runs exclude each other, by the processing lock.
- `TaskQueue.dfy` - the sorted set of due tasks, its producer loop and its claim script, interleaved at every
  command.
- `Leases.dfy` - the owner-token lease behind the scheduler's processing lock and the phone-code store.
- `SendSlots.dfy` - the rate limiter's two expiring locks under any interleaving of callers.
- `Allocator.dfy` - the choice of a developer app for an account, and migration away from an unhealthy app.
- `Targets.dfy`, `TargetIssues.dfy`, `TargetRuns.dfy` - target lists with runtime metadata, saves that reset or
  keep their suspensions, the issue rows that must agree with them, and runs and saves that overlap: each loads
  the list once and commits the whole of it.
- `TextVariation.dfy` - zero-width characters inserted into a text around protected spans.
- `ResourceSync.dfy` - full synchronisation of an account's dialogs into its resource rows.
- `Entities.dfy` - completion of parsed message entities with usernames and links.

Where the code does not keep a property unconditionally, the exact condition is proved and a concrete run shows
the failure:

- rollbacks by steps take the last applied file if and only if name order is number order (`StepsTakeLastExactly`,
  `UnequalWidthsLoseThePrefix`), and a rollback by version keeps a prefix if and only if it names the last applied
  one (`RollbackByVersionPrefix`);
- the revisions of a task go on numbering its writes if and only if no bot edit commits a revision that has been
  written over meanwhile and no batch edit sets one to another value (`RevisionsExactly`,
  `StaleBotEditSharesRevision`), and a completion writes over nothing but batch edits of tasks of version 1
  (`OverwritesOnlyBatchEdits`, `BatchEditIsOverwritten`);
- a run leaves its task due again at once if and only if an exception escapes from it while the task is due
  (`NotDueAgainExactly`);
- a commit keeps the spacing of a task's runs if and only if it does not undercut (`StoreKeepsExactly`,
  `ObservationBreaksSpacing`, `StaleSuspensionBreaksSpacing`);
- a producer's write keeps a queued score least if and only if it meets no smaller score (`LeastNextExactly`,
  `TwoProducersRaise`);
- a second holder gets into a lease if and only if no lease is live (`SecondEntryExactly`, `OverrunShares`);
- a back-off release deletes another caller's live lock, and breaks the locks' invariant, if and only if its own
  lock has expired and the key is locked again (`ReleaseDeletesOtherExactly`, `ReleaseKeepsExactly`,
  `LateReleaseBreaksSpacing`);
- a suspension removes exactly its target if and only if the task has an explicit target or the key is not collected
  (`SuspensionRemovesExactly`);
- a save collects the targets submitted if and only if they are not just the task's own, or none of these is
  suspended (`SaveCollectsSubmittedExactly`, `SameListKeepsSuspension`);
- a run's commit keeps issue rows and target list in agreement if and only if it stores no row that differs from what
  its send would make of the row as it is by then, writes back no suspension that another run's send has cleared
  since the load, and leaves none that its own send has cleared in a list it does not write (`CommitKeepsExactly`,
  `OverlappingRunsMiscount`, `StaleListRevives`, `UnwrittenListLeavesSuspended`);
- a full sync commits if and only if no two recognised dialogs share an id (`FullSync`).

## Model

| member | source | states |
|---|---|---|
| SqlSplitter.ScanTag | backend/database/runtime/migration_manager.py:72-74 | the inner scan stops at the first character after the dollar sign that no tag can contain |
| SqlSplitter.SplitSqlStatements | backend/database/runtime/migration_manager.py:44-112 | the loop over the five variables returns the trimmed non-empty segments of the stripped text, an absent text counting as empty |
| SqlSplitter.OpeningTagAt | backend/database/runtime/migration_manager.py:71-80 | the lookahead opens a dollar quote exactly when a run of tag characters ends in a second dollar sign |
| SqlSplitter.TokenBarrier | backend/database/runtime/migration_manager.py:61-96 | no lookahead (tag, closing tag, doubled quote) reads past a semicolon or white space, so text put behind one never changes a token |
| SqlSplitter.LexStrip | backend/database/runtime/migration_manager.py:99-111 | trimming a piece never changes the mode it is lexed to |
| SqlSplitter.SegmentsCharacterised | backend/database/runtime/migration_manager.py:58-111 | the segments are the only sequence of pieces that joins with ";" to the text, holds no top-level semicolon inside a piece and ends every piece but the last at top level |
| SqlSplitter.SplitFixpoint | backend/database/runtime/migration_manager.py:44-112 | splitting the emitted statements joined with ";" gives exactly those statements again, for every text |
| SqlSplitter.EachStatementAlone | backend/database/runtime/migration_manager.py:44-112 | every emitted statement is non-empty, trimmed and splits to itself alone, even a last one that ends inside a quoted block |
| SqlSplitter.SplitCutsAtTopLevel | backend/database/runtime/migration_manager.py:55-112 | a semicolon is a cut exactly when an independent character-at-a-time scanner is at top level there; the pieces join to the stripped text and the output is the trimmed non-empty ones in order |
| Migrations.NameOrderIsNumberOrder | backend/database/runtime/migration_manager.py:163-191 | versions of equal width are enough for name order to be number order |
| Migrations.StepsTakeLastExactly | backend/database/runtime/migration_manager.py:489-499 | for discovered files a one-step rollback of every applied prefix takes its last file if and only if the order of the file names is the order of the version numbers |
| Migrations.UnequalWidthsLoseThePrefix | backend/database/runtime/migration_manager.py:489-499 | with versions 9 and 10 applied, one rollback step takes 10 and leaves a set that is no prefix of the file list |
| Migrations.MigrationManager.RunStatements | backend/database/runtime/migration_manager.py:365-367 | the statements run on a working copy; a break reports how many had run and leaves the committed schema alone |
| Migrations.MigrationManager.ApplyPendingMigrations | backend/database/runtime/migration_manager.py:326-412 | one apply call: skips, checksum mismatches, applied and failed records, and the counters returned |
| Migrations.MigrationManager.RollbackMigrations | backend/database/runtime/migration_manager.py:456-613 | one rollback call over the candidate rows: missing files, dry runs, failures in the middle and rolled-back records |
| Migrations.ApplyOneExactly | backend/database/runtime/migration_manager.py:356-411 | a file is applied with all its statements and its record, or leaves the schema alone and a failed record with the number of statements that had run before the one that failed or the break; which, follows from statements and fault alone |
| Migrations.RollbackOneExactly | backend/database/runtime/migration_manager.py:507-603 | a version is rolled back with all statements of its script, or stays applied with the reason on its record; every column of the record that is kept |
| Migrations.EditedFileRefused | backend/database/runtime/migration_manager.py:194-197 | if the first file edited since it was applied follows only applied ones, the call is refused at it and leaves the database as it was; edited is said of the checksum strings and the legacy table |
| Migrations.EditedFileStops | backend/database/runtime/migration_manager.py:338-353 | wherever an edited file stands, the call does what applying the files before it does, and is refused there if that completes |
| Migrations.AppliedFilesExactly | backend/database/runtime/migration_manager.py:341-353 | with every file applied a call changes nothing, and skips them all exactly if none has been edited |
| Migrations.CompletesUnedited | backend/database/runtime/migration_manager.py:338-412 | a call completes only if no applied file has been edited |
| Migrations.ApplyKeepsPrefix | backend/database/runtime/migration_manager.py:338-412 | an apply call that breaks anywhere leaves a longer or equal prefix applied, the schema being the fold of that prefix, and completes exactly if it reaches the whole list, with both counters exact |
| Migrations.NewestAreLast | backend/database/runtime/migration_manager.py:489-499 | the candidate query by steps returns the last applied files, last first |
| Migrations.RollbackRowsKeep | backend/database/runtime/migration_manager.py:507-613 | rolling back the last applied files shortens the prefix one by one, by all of them exactly when nothing breaks, and takes the schema back to the shorter fold, if each down script undoes its up script on the schema reached |
| Migrations.ApplyVersions | backend/database/runtime/migration_manager.py:338-412 | whatever the scripts do and wherever they break, an apply call leaves a prefix applied, no shorter than before, and the whole list if it completes |
| Migrations.RollbackVersions | backend/database/runtime/migration_manager.py:507-613 | whatever the down scripts do and wherever they break, a rollback of the last files leaves a prefix applied |
| Migrations.DryRunKeepsPrefix | backend/database/runtime/migration_manager.py:511-548 | a dry run changes neither the schema nor which versions are applied |
| Migrations.RunKeepsPrefix | backend/database/runtime/migration_manager.py:326-613 | in every state of every run of applies, rollbacks by steps, dry runs and releases, each breaking anywhere and with scripts that do anything, the applied versions are a prefix of the file list |
| Migrations.RunKeepsSchema | backend/database/runtime/migration_manager.py:326-613 | if moreover each down script undoes its up script on the schemas the file list leads to, the schema is always the fold of that prefix |
| Migrations.SecondApplyDoesNothing | backend/database/runtime/migration_manager.py:342-353 | after a completed apply another one executes nothing, changes nothing and skips every file |
| Migrations.RollbackByVersionPrefix | backend/database/runtime/migration_manager.py:473-486 | rolling back one version by name keeps the applied versions a prefix exactly when it is the last applied one |
| MediaCapture.MediaStore.ReplaceWaiting | backend/task_media/capture_service.py:136-158 | retires every active capture of the task, or rolls everything back when one is still processing in time |
| MediaCapture.MediaStore.CreateCapture | backend/task_media/capture_service.py:96-133 | the checks in order and the one new waiting capture at the task's revision |
| MediaCapture.MediaStore.ActivateCapture | backend/task_media/capture_activation.py:34-156 | expiry before state, state before context; what each failing check writes |
| MediaCapture.MediaStore.ClaimCapture | backend/task_media/capture_service.py:264-312 | only a waiting, unexpired capture in its context moves to processing, once |
| MediaCapture.MediaStore.CompleteCapture | backend/task_media/capture_service.py:315-418 | the completion of a copy: orphan, expired, conflicting or applied |
| MediaCapture.MediaStore.GetCaptureStatus | backend/task_media/capture_service.py:172-187 | a poll by the owner expires an overdue active capture and changes nothing else |
| MediaCapture.MediaStore.ReleaseCaptureForRetry | backend/task_media/mutation_service.py:106-121 | a broken copy puts a processing capture back to waiting |
| MediaCapture.MediaStore.FailProcessingCapture | backend/task_media/mutation_service.py:93-103 | only a processing capture is failed |
| MediaCapture.MediaStore.DeleteTaskMedia | backend/task_media/mutation_service.py:28-63 | clearing at the expected revision bumps it and cancels the active captures, otherwise nothing changes |
| MediaCapture.CreateExactly | backend/task_media/capture_service.py:96-158 | opening succeeds exactly under the conditions on task, account, operator, bot and captures in progress; the new row, what becomes of the task's other captures, and what each refusal says |
| MediaCapture.ActivateExactly | backend/task_media/capture_activation.py:34-156 | activation succeeds exactly for the right sender, in time, once, while task and account stand; which refusals write what |
| MediaCapture.ClaimExactly | backend/task_media/capture_service.py:264-312 | a reply claims exactly the waiting capture of its sender and prompt, in time and in context; no other row is touched |
| MediaCapture.CompletionExactlyWhen | backend/task_media/capture_service.py:357-418 | a completion succeeds exactly for a processing, unexpired capture of an unchanged task without buttons, short enough and on the same account; every column of task and capture afterwards, what each failure says, and that the copy is recorded either way |
| MediaCapture.CaptureTouchesExactly | backend/task_media/mutation_service.py:93-121 | what a poll, a retry and a failure report change, and only on a capture in the state and, for the poll, of the owner they are for |
| MediaCapture.DeleteMediaExactly | backend/task_media/mutation_service.py:28-63 | clearing goes through exactly for the owner at the expected revision: no media, the next revision, other columns and tasks as they were, active captures of the task cancelled and all others untouched; otherwise nothing changes |
| MediaCapture.SaveTaskExactly | backend/h5_backend/services/task/service.py:284-315 | a save goes through exactly for the owner at the expected revision; it keeps media and captures while the account stays and clears and cancels them otherwise |
| MediaCapture.OtherWritesExactly | backend/task_media/migration.py:212-295 | the migration moves exactly a version-1 task at the expected revision; a bot edit sets its own columns and the revision after the one it has loaded |
| MediaCapture.DeletionsExactly | backend/h5_backend/services/task/service.py:319-336 | a task is deleted with its captures exactly if none is processing; an account takes its tasks and their captures with it |
| MediaCapture.MissingRowsExactly | backend/task_media/capture_service.py:357-389 | a session that finds no row changes nothing and says so |
| MediaCapture.MediaStore.BatchUpdateTasks | backend/h5_backend/services/task/service.py:388-424 | the loop over the ids: tasks that are missing or of another user are passed over, a task of version 2 takes everything back, any other column is set as given |
| MediaCapture.BatchEditsExactly | backend/h5_backend/services/task/service.py:409-411 | a batch edit that goes through sets exactly the named columns of exactly the listed tasks of the user, and leaves everything else as it is |
| MediaCapture.BatchGoesThroughExactly | backend/h5_backend/services/task/service.py:392-407 | it goes through exactly if no listed task of the user is of version 2, and none is listed again after being set to it |
| MediaCaptureRuns.NextKeeps | backend/task_media/capture_service.py:58-418 | every step of every actor - sessions, copies, edits, batch edits, the bot's unlocked edits, clears, deletions of tasks and accounts, the migration of old media - keeps the protocol's invariant on captures, workers and writers |
| MediaCaptureRuns.AtMostOneActive | backend/task_media/capture_service.py:136-158 | after any run a task has at most one capture waiting or processing, and a capture has at most one copy worker, during which it is not waiting |
| MediaCaptureRuns.RevisionsExactly | backend/task_media/mutation_service.py:66-90 | a step keeps the revisions numbering the logged writes exactly unless a bot edit commits over a revision it has not loaded, or a batch edit sets the revision of a task to another value |
| MediaCaptureRuns.OneWriterPerRevision | backend/task_media/mutation_service.py:66-90 | in a run without such steps every revision of a task above the first has exactly one successful writer |
| MediaCaptureRuns.CaptureWritesFirst | backend/task_media/mutation_service.py:66-90 | in such a run a capture writes at most once, its write yields expected + 1 and is the first revision written of the task since the capture was opened, whatever interleaves with the copy: a task saved or cleared meanwhile is not written |
| MediaCaptureRuns.OverwritesOnlyBatchEdits | backend/task_media/capture_service.py:357-418 | in such a run the task a completion writes is as it was when the capture was opened, unless a batch edit of it, then not of version 2, came in between |
| MediaCaptureRuns.BatchEditIsOverwritten | backend/h5_backend/services/task/service.py:409-411 | a batch edit of a version-1 task sets its media while a copy is in flight, and the completion succeeds and writes over it |
| MediaCaptureRuns.StaleBotEditSharesRevision | backend/bot/handlers/task/editing.py:67-75 | a bot edit that loaded the task before a completion commits the revision that the completion has written |
| MediaCaptureRuns.CompletedHasWritten | backend/task_media/capture_service.py:408-418 | a capture shown completed has written its task at expected + 1, and the media of a task no batch edit has touched belongs to the task's account |
| MediaCaptureRuns.EndedStaysEnded | backend/task_media/capture_service.py:357-389 | a capture that has left waiting and processing never returns there and never writes again, even with its copy in flight |
| MediaCaptureRuns.RelabelledExactlyWhen | backend/task_media/capture_activation.py:97-123 | an ended capture's label changes exactly when its link is opened by an allowed actor after the deadline, and then to expired |
| MediaCaptureRuns.ReportChangesNothing | backend/task_media/capture_service.py:241-246 | after a rejected completion the failure report finds the capture no longer processing and changes nothing |
| Schedule.TaskRow.HandleTaskFailure | backend/scheduler/core/task_lifecycle.py:78-110 | counter, retry time and automatic disabling |
| Schedule.TaskRow.SuspendTask | backend/scheduler/core/task_lifecycle.py:113-135 | suspension only raises the next run of an enabled task |
| Schedule.TaskRow.ValidateAndResolve | backend/scheduler/core/task_runner.py:258-429 | the exits before the constraints, in the source's order, an escaping exception among them, and what each writes |
| Schedule.TaskRow.CheckScheduleConstraints | backend/scheduler/core/task_runner.py:467-583 | start, end, daily hours and the second look at the observation |
| Schedule.TaskRow.ExecuteTaskOnce | backend/scheduler/core/task_runner.py:761-894 | a whole run: the exits, the outcome of sending, flood suspensions, exceptions nothing handles |
| Schedule.SendsExactly | backend/scheduler/core/task_runner.py:258-583 | a scheduled run sends exactly if the task is enabled and due, account, targets, client, dates and observation let it, and the hour lies within the daily hours counted around the clock; what a success, a failure and a flood error write |
| Schedule.StopsExactly | backend/scheduler/core/task_runner.py:273-583 | for each thing that stops a run before the sending, the status and the whole row it leaves |
| Schedule.LeavesRowExactly | backend/scheduler/core/task_runner.py:258-280 | a disabled task or an escaping exception leaves the row, but for a missing next run that has been repaired |
| Schedule.ManualSendsExactly | backend/scheduler/core/task_runner.py:761-894 | a manual run looks at no schedule, sends exactly if account, targets, client and observation let it, and never disables the task for its failures |
| Schedule.OtherWritersExactly | backend/scheduler/core/task_lifecycle.py:78-135 | what a timeout, a suspension and start-up recovery write |
| Schedule.RunSpacingExactly | backend/scheduler/core/task_runner.py:258-380 | every exit path keeps the next run at least an interval after the start of the last success, except the early observation deferral exactly when what it writes is earlier; a run succeeds only when spaced |
| Schedule.NotDueAgainExactly | backend/scheduler/core/task_runner.py:761-894 | after a scheduled run the task is disabled or its next run lies in the future, exactly unless an exception escapes while it is due: at once, or past the checks of licence, account and observation with a next run that has come |
| Schedule.ManualRunKeepsSchedule | backend/scheduler/core/task_runner.py:761-773 | on the row it has loaded, a manual run changes the next run only through a flood suspension, and only to a later time |
| Schedule.StoreWritesExactly | backend/scheduler/core/task_lifecycle.py:22-135 | a commit takes over the columns its session has changed and leaves the others as written since |
| Schedule.UndisturbedIsOutcome | backend/scheduler/core/task_lifecycle.py:22-135 | an event with nothing between its load and its commit leaves its own result |
| Schedule.DisabledStays | backend/scheduler/core/worker.py:249-368 | whatever overlaps, no run, suspension, timeout or restart enables a disabled task again |
| Schedule.StoreKeepsExactly | backend/scheduler/core/task_lifecycle.py:113-135 | a commit keeps the next run an interval after the last success exactly unless it undercuts: the early observation deferral, or a manual run, suspension or recovery that loaded the row before a success and now writes an earlier time over it |
| Schedule.SuccessfulRunsSpaced | backend/scheduler/core/worker.py:249-368 | over any interleaving of loads and commits of scheduled runs (also queued twice), manual runs, suspensions, timeouts, restarts and runs cut off by exceptions, any two successful runs start at least one interval apart as long as no commit undercuts |
| Schedule.ObservationBreaksSpacing | backend/scheduler/core/task_runner.py:327-345 | with an observation it fails: sent at 0 and again at 100 with an interval of an hour |
| Schedule.StaleSuspensionBreaksSpacing | backend/scheduler/core/task_lifecycle.py:121-131 | with a manual run that loaded the row before a success it fails: its flood suspension until 100 overwrites the next run at 3600 |
| TaskQueue.EnqueueDueTasks | backend/scheduler/core/queue_ops.py:56-82 | the producer loop's commands for any answers to its reads: one read per task, and a write exactly if no score or a larger one was read |
| TaskQueue.CommandsAreSteps | backend/scheduler/core/queue_ops.py:77-82 | under any interference a producer's read step goes on to the write, with the score, that the loop issues for that answer |
| TaskQueue.Scheduler.GetPendingTasks | backend/scheduler/core/queue_ops.py:12-24 | the claim script's result and what it leaves |
| TaskQueue.ClaimTakesSmallestDue | backend/scheduler/core/queue_ops.py:12-24 | a claim returns at most a batch of the smallest scores between 0 and now, by score and member, removes exactly what it returns, and leaves nothing due while the batch has room |
| TaskQueue.DelaysExactly | backend/scheduler/core/queue_ops.py:57-75 | which delays the two draws can add for a task's own interval, jitter, account weight and priority |
| TaskQueue.AloneEnqueues | backend/scheduler/core/queue_ops.py:77-82 | when nobody else uses the queue, one producer call only adds missing tasks and lowers scores |
| TaskQueue.ClaimsUseUpInsertions | backend/scheduler/core/queue_ops.py:12-24 | in every run of any producers and consumers, interleaved at every command, the claims of a task are its insertions minus whether it is still queued |
| TaskQueue.LeastNextExactly | backend/scheduler/core/queue_ops.py:78-82 | a step keeps every queued score the least time proposed since the last claim exactly unless it writes over a smaller score |
| TaskQueue.ScoreIsLeastProposed | backend/scheduler/core/queue_ops.py:56-111 | in every run in which no write meets a smaller score, a queued score is the least time proposed since the last claim and at most 420 seconds after the first proposal |
| TaskQueue.OneProducerKeepsLeast | backend/scheduler/core/queue_ops.py:56-111 | so it is with one producer at a time for each task, whatever is claimed between its reads and its writes |
| TaskQueue.TwoProducersRaise | backend/scheduler/core/queue_ops.py:78-82 | two producers that both read no score raise it from 100 to 300 |
| Leases.LoginCooldownStore.AcquirePhoneCodeSend | backend/bot/session/login_cooldown_store.py:36-78 | takes the lease exactly when none is live, and otherwise returns the holder's remaining time |
| Leases.LoginCooldownStore.RefreshPhoneCodeSend | backend/bot/session/login_cooldown_store.py:46-58 | extends exactly the caller's own live lease |
| Leases.LoginCooldownStore.ReleasePhoneCodeSend | backend/bot/session/login_cooldown_store.py:60-65 | deletes exactly the caller's own live lease |
| Leases.CommandsExactly | backend/bot/session/login_cooldown_store.py:36-65 | whose a key is at any later time after each command: a set takes only a free key, delete and extend touch only the token's own, and each says whether it did |
| Leases.StepsExactly | backend/scheduler/core/worker.py:275-344 | who is inside and whose every key is after each step of a run, a crash leaving the key to its expiry |
| Leases.LeaveFrees | backend/scheduler/core/worker.py:338-344 | a holder that leaves within its lease lets another one in at the same moment, which could not get in before |
| Leases.AtMostOneInside | backend/scheduler/core/worker.py:275-344 | over a clock that never goes back, if the sections still open are within their leases, no two share a key |
| Leases.StaleHolderTouchesNothing | backend/scheduler/core/worker.py:338-344 | a step by one token never touches another token's live key, and a refresh of a lost lease reports it |
| Leases.SecondEntryExactly | backend/scheduler/core/worker.py:279-287 | a newcomer gets in beside a holder exactly when no lease on the key is live, which takes a holder past its own |
| Leases.OverrunShares | backend/scheduler/core/worker.py:275-284 | a run in which a holder overruns its lease and two are inside |
| SendSlots.WaitForSlot | backend/bot/safety/rate_limiter.py:189-232 | the loop's commands follow the protocol and end returned or with nothing held; it returns at the first turn with both locks free and gives up exactly at the deadline |
| SendSlots.CommandsMoveCallers | backend/bot/safety/rate_limiter.py:209-228 | a caller's command moves it as the loop's automaton does, to a return exactly with a new slot, and a command out of place is no step |
| SendSlots.LocksExactly | backend/bot/safety/rate_limiter.py:111-172 | how long each lock holds after each step - one second for an account, two for a peer -, what a release frees, and when a caller gives up; no other lock or caller is touched |
| SendSlots.SlotsSpaced | backend/bot/safety/rate_limiter.py:111-159 | under any interleaving two slots of an account rest on locks set at least 1 s apart, two of a peer at least 2 s apart, if no back-off release comes so late that it meets a lock set since |
| SendSlots.SlotHasBothLocks | backend/bot/safety/rate_limiter.py:209-228 | every slot rests on its own account lock and its own peer lock, set in that order for its account and peer and never taken back |
| SendSlots.ReleaseDeletesOtherExactly | backend/bot/safety/rate_limiter.py:161-172 | a back-off release deletes another caller's live lock if and only if its own lock has expired and the key is locked again; before that it deletes its own |
| SendSlots.ReleaseKeepsExactly | backend/bot/safety/rate_limiter.py:161-172 | it keeps the locks' invariant if and only if it does not do so |
| SendSlots.LateReleaseBreaksSpacing | backend/bot/safety/rate_limiter.py:219-224 | a late release lets two slots of an account rest on locks 50 ms apart |
| Allocator.DeveloperAppService.ListAssignableCandidates | backend/bot/developer_apps/service.py:384-414 | the loop's list of active, healthy, unblocked apps with room, with usage and weight |
| Allocator.DeveloperAppService.GetDefaultAppId | backend/bot/developer_apps/service.py:661-686 | the stored default while it is active, else the first active app, which is stored |
| Allocator.DeveloperAppService.ResolveAssignableAppId | backend/bot/developer_apps/service.py:448-577 | the tiers in order, with the cursor and default they write |
| Allocator.DeveloperAppService.MigrateAccountsFromUnhealthyApp | backend/bot/developer_apps/service.py:1101-1148 | the loop over the app's accounts, each assigned anew or marked stalled |
| Allocator.CandidatesExactly | backend/bot/developer_apps/service.py:384-414 | the list holds exactly the active, healthy, unblocked apps with fewer accounts than their limit, not counting the excluded one, each once with that number, by rising id |
| Allocator.AvailableExactlyWhenListed | backend/bot/developer_apps/service.py:363-382 | the single-app capacity check agrees with membership in the candidate list |
| Allocator.DefaultAppExactly | backend/bot/developer_apps/service.py:661-686 | the default stays while it names an active app and else becomes the active app of least id |
| Allocator.ResolveExactly | backend/bot/developer_apps/service.py:448-577 | resolution assigns exactly when some app may be assigned and always one of these; without one it raises exactly when some app is active, and changes at most the default setting |
| Allocator.ResolveHonoursPreferences | backend/bot/developer_apps/service.py:480-515 | the request's preference wins over the user's stored one, both over the pick, if they may be assigned, and move no cursor; the weight pick is the best by weight, usage and id of all that may be assigned |
| Allocator.RoundRobinTakesNext | backend/bot/developer_apps/service.py:429-446 | a round-robin resolution takes the next app after the cursor's, wrapping round, and stores it as the cursor |
| Allocator.RoundRobinIsFair | backend/bot/developer_apps/service.py:429-446 | of as many resolutions in a row as apps may be assigned, each app gets exactly one, wherever the cursor was: the cursor the service stores is what makes it so |
| Allocator.MigrateOneExactly | backend/bot/developer_apps/service.py:1101-1148 | one account moves exactly if there is room elsewhere, with every column of its row moved or stalled, uses one place of it, and pushes no app over its limit |
| Allocator.MigrationHonoursPreference | backend/bot/developer_apps/service.py:1117-1124 | it moves to the app its user prefers, if there is room there |
| Allocator.MigrateExactly | backend/bot/developer_apps/service.py:1101-1148 | migration partitions the rows into migrated and stalled, moves exactly the first min(n, free places) of them (all with an unlimited healthy app), leaves none of these on the app, touches no other account and keeps every limit |
| Targets.TaskRow.CollectTaskTargets | backend/scheduler/core/task_execution.py:46-104 | the loop, the legacy fallback and the removal of duplicates |
| Targets.TaskRow.UpdateTaskTargetFailureMetadata | backend/scheduler/core/task_issue_state.py:56-94 | exactly the matching items get the error and the suspension, the others stay as they are |
| Targets.TaskRow.UpdateTaskTargetSuccessMetadata | backend/scheduler/core/task_issue_state.py:97-123 | exactly the matching items are cleared and active |
| Targets.MergeTargetRuntimeMetadata | backend/scheduler/core/task_issue_state.py:126-182 | the table of existing items (the last of a key wins) and what survives a submission |
| Targets.NormalizeTargetPeers | backend/h5_backend/services/task/helpers.py:30-94 | refuses a list with an item that is no valid target, and otherwise keeps the first of every key with what addresses it and its title |
| Targets.HasTargetCollectionChanged | backend/scheduler/core/task_issue_state.py:185-197 | compares the two lists as collections of type, id and access hash; identities that differ only in a missing hash have no order and fail it |
| Targets.NormalizeTargets | backend/h5_backend/services/task/payload.py:52-107 | the save of a list, of nothing, or of the legacy target, and what is refused |
| Targets.RewritesExactly | backend/scheduler/core/task_issue_state.py:56-123 | every column of every item after a failed and after a successful send: the objects of the key are rewritten, all else stays |
| Targets.MergeExactly | backend/scheduler/core/task_issue_state.py:126-182 | every column of a merged target, from the submission and from the last existing item of its key |
| Targets.NormalizesExactly | backend/h5_backend/services/task/helpers.py:30-94 | of a list of explicit targets the first one of every key is kept, in order, with address and title alone |
| Targets.CollectionChangedExactly | backend/scheduler/core/task_issue_state.py:25-42 | the collection has changed exactly if some address occurs a different number of times |
| Targets.SaveExactly | backend/h5_backend/services/task/payload.py:52-107 | a save with targets is refused exactly for an empty list, an item that is no target, or an own list that cannot be compared; what it writes, the delivery states being reset exactly if the collection has changed |
| Targets.SaveNothingExactly | backend/h5_backend/services/task/payload.py:69-85 | a save without targets keeps the list or falls back to the legacy target, and when it is refused |
| Targets.CollectExactly | backend/scheduler/core/task_execution.py:46-104 | for every key the first target that is not suspended is sent to, with its access hash and title, in the order of the list; the legacy target exactly when no explicit one is listed |
| Targets.SuspensionRemovesExactly | backend/scheduler/core/task_issue_state.py:78-92 | a suspension removes exactly that target, order and rest unchanged, precisely when the task has an explicit target or the key is not collected (the legacy target cannot be suspended) |
| Targets.SuccessCollectsAgain | backend/scheduler/core/task_issue_state.py:97-123 | a success makes an explicit target collected again and changes nothing about the others |
| Targets.SuspensionThenSuccess | backend/scheduler/core/task_issue_state.py:56-123 | a suspension followed by a success collects what was collected before, if no item of the key was suspended already and the title written is the one collected |
| Targets.SubmissionCollectsExactly | backend/scheduler/core/task_issue_state.py:126-182 | after a merge the first occurrences of the valid submitted targets are collected in order, except those that stay suspended; it is all of them exactly if the states are reset or the last existing item of none of them is suspended; a list without a valid target falls back to the legacy one |
| Targets.SaveCollectsSubmittedExactly | backend/h5_backend/services/task/payload.py:88-100 | a save collects exactly the submitted targets, in order, if and only if the collection has changed or none of them is suspended in the task's list |
| Targets.SameListKeepsSuspension | backend/h5_backend/services/task/payload.py:88-100 | a list with user 1 suspended, submitted as it is, leaves user 1 suspended |
| TargetIssues.IssueTable.RecordTaskTargetSendIssue | backend/scheduler/core/task_issue_state.py:200-281 | one row per target; the counter restarts when the issue changed or was resolved |
| TargetIssues.IssueTable.ResolveTaskTargetSendIssue | backend/scheduler/core/task_issue_state.py:284-311 | an active row is resolved with its counter and flag cleared |
| TargetIssues.SameRunIsLongest | backend/scheduler/core/task_issue_state.py:250-261 | that run is the longest such suffix |
| TargetIssues.FailureSuspendsExactly | backend/scheduler/core/task_runner.py:645-697 | after a failure a listed target is collected exactly if its run of equal failures is short of the threshold |
| TargetIssues.ClassifiedExactly | backend/scheduler/core/task_issue_classifier.py:19-150 | error type, category and reason of every error |
| TargetIssues.FailureDropsExactly | backend/scheduler/core/task_issue_classifier.py:19-150 | after a failure a listed target is not collected exactly if the error is one of the nine that forbid sending, or it was the third empty result in a row |
| TargetIssues.EmptyResultSuspendsAtThird | backend/scheduler/core/task_issue_classifier.py:107-150 | after a success, empty results suspend a target at the third in a row and not before |
| TargetIssues.SaveKeeps | backend/h5_backend/services/task/payload.py:52-107 | a save, whether it resets or keeps the suspensions, keeps issue rows and target list in agreement |
| TargetRuns.StoredExactly | backend/scheduler/core/task_issue_state.py:212-311 | what a commit makes of an issue row others have changed since it was read, column by column |
| TargetRuns.StepsExactly | backend/scheduler/core/task_runner.py:271-717 | the database changes only by a commit that meets no row inserted meanwhile; what every step does to the flights |
| TargetRuns.CommitKeepsExactly | backend/scheduler/core/task_runner.py:614-717 | a commit of a run or save that overlaps others keeps every row true to its target's failures and every suspension backed by a row, exactly unless it miscounts, revives a suspension or leaves one; a second insert of a row takes the commit back |
| TargetRuns.SuspendedTargetsHaveIssues | backend/scheduler/core/task_runner.py:271-717 | over any interleaving of loads, sends, saves and commits in which no commit does one of the three, a suspended explicit target has an active, auto-suspended row, and a row's counter is the length of the run of equal classifications at the end of its failures since the last success |
| TargetRuns.AloneIsHarmless | backend/scheduler/core/task_runner.py:614-717 | a run that commits to the list and rows it has read does none of the three |
| TargetRuns.UndisturbedRunIsTurns | backend/scheduler/core/task_runner.py:614-717 | a run nobody disturbs leaves what its sends would leave if each read and wrote the row on its own |
| TargetRuns.StaleListRevives | backend/scheduler/core/task_runner.py:671-677 | a run loads a list with user 1 suspended, the user saves another one, a manual run reaches user 1, and the first run's commit brings the old list back: suspended with a resolved row, and a target the user added is gone |
| TargetRuns.OverlappingRunsMiscount | backend/scheduler/core/task_issue_state.py:250-261 | two runs read the counter as 1 and both write 2: the third empty result in a row does not suspend |
| TargetRuns.UnwrittenListLeavesSuspended | backend/scheduler/core/task_runner.py:645-664 | a run with nothing to change in its own list leaves a target suspended by another run over a row that its own send has made no longer auto-suspended |
| TextVariation.AddZeroWidthChars | backend/bot/safety/rate_limiter.py:236-257 | appends one to three zero-width characters and shows the reader the same text |
| TextVariation.SafeInvisibleInsertPositions | backend/bot/safety/rate_limiter.py:259-272 | exactly the positions strictly inside no protected span, the first of a non-empty text always among them |
| TextVariation.InsertEach | backend/bot/safety/rate_limiter.py:297-298 | inserting from the last position to the first puts one character before each chosen position of the original |
| TextVariation.AddInvisibleVariation | backend/bot/safety/rate_limiter.py:274-300 | for every non-empty text and every draw, erasing zero-width characters gives the same as before, the length grows by 2 to 5, and every protected span of the text with its tail reappears in one piece, pushed by the positions up to its start |
| TextVariation.SpreadKeeps | backend/bot/safety/rate_limiter.py:267-272 | a stretch with no chosen position strictly inside stays in one piece, and where it moves to |
| ResourceSync.SyncSession.SyncPeer | backend/bot/resources/sync_ops.py:42-105 | one peer: skipped, updated in place and taken off the existing ones, or added |
| ResourceSync.SyncSession.Deactivate | backend/bot/resources/sync_ops.py:148-151 | the rows no dialog was met for become inactive, and those that were active are counted |
| ResourceSync.ResourceTable.FullSync | backend/bot/resources/sync_ops.py:108-160 | the sync commits its outcome exactly when no two recognised dialogs share an id; otherwise the unique constraint fails it and the rows stay as they were |
| ResourceSync.ActiveAreSynced | backend/bot/resources/sync_ops.py:129-151 | after a committed sync the active resources are exactly the recognised dialogs, each with its own data, and other rows keep all but their activity |
| ResourceSync.CountersAgree | backend/bot/resources/sync_ops.py:137-151 | synced + failed is the number of dialogs, the table grows by the new rows, and deleted counts exactly the active rows that are no longer active |
| ResourceSync.UpdatedExactly | backend/bot/resources/peer_utils.py:62-70 | the rows counted as updated are exactly those brought back to life or found with another title, username, description or mark |
| ResourceSync.ErrorExactly | backend/bot/resources/sync_ops.py:153-154 | an error is reported exactly if every dialog is broken, and it is the first with a text |
| ResourceSync.RepeatReportsNothing | backend/bot/resources/peer_utils.py:62-70 | syncing the same dialogs again reports 0 new, 0 updated, 0 deleted and leaves what the later sync alone would have left |
| Entities.BuildTelegramEntities | backend/scheduler/core/task_execution.py:280-302 | the two loops and the sort, nothing for an empty text or an empty list |
| Entities.CompletionKeepsAndCovers | backend/scheduler/core/task_execution.py:263-302 | every parsed entity is kept, added ones are usernames or links that overlap no other link, every non-empty match is overlapped by a link, and the result is that list sorted by offset, longest first |
| Entities.CompleteIsFilter | backend/scheduler/core/task_execution.py:289-299 | for the ordered disjoint matches of a pattern exactly those that no earlier link overlaps are added |
| Entities.SortIsStable | backend/scheduler/core/task_execution.py:301 | entities with the same offset and length keep their order |

## Left out

- `_cleanup_chunk` and the parsing of migration files by marker (backend/database/runtime/migration_manager.py:115-143): it drops blank and `--` lines even inside quoted blocks, so no meaning is claimed through it; statements of a file are arguments.
- Migrations.RollbackByVersionPrefix: a rollback by version other than the last breaks the prefix, so runs contain rollbacks by steps only.
- Migrations.RunKeepsPrefix: between releases files are only appended; the columns of a record that no decision reads (times, durations, messages) are not kept.
- Row locks and their order between completion and creation of a capture, and the unlocked read of a poll: sessions are serialised.
- The choice of tasks in the migration of old media (backend/task_media/migration.py:212-295): its two writes are steps.
- MediaCapture.MediaStore.BatchUpdateTasks: its load and its commit are one step, only the columns the protocol reads are set, and in `TargetRuns` it does not write target lists.
- The bot's unlocked edits (backend/bot/handlers/task): one of them stands for all, setting buttons and text at the revision it has loaded.
- The transport of media: downloads, uploads and the copy into saved messages happen in the gap between claim and completion, with any outcome.
- The rollback of a task update that would enable a task without text (backend/h5_backend/services/task/service.py:265-317): an edit either writes the next revision or does nothing.
- Schedule.SuccessfulRunsSpaced: the user's edits of the interval or the next run are not events, because they set the spacing anew; a success is one that was committed, and a run's holder is taken to be within its processing lease.
- Schedule.TaskRow.ExecuteTaskOnce: a session's several commits count as one at its end, except for what a commit leaves behind when an exception escapes later.
- Task logs, notifications, message counters and the circuit breaker's own state around a run.
- The deletion of all processing keys at start-up (backend/scheduler/core/worker.py:118-126): it would let a second worker in while the first still runs.
- The reload of claimed tasks from the database (backend/scheduler/core/queue_ops.py:103-111): it only drops tasks that were disabled meanwhile.
- The retry of a Redis command (backend/bot/safety/rate_limiter.py:93-107): a repeated delete whose first reply was lost can remove another caller's lock within the first lock's own expiry, so no claim of `SendSlots` covers it.
- SendSlots.WaitForSlot: the answers to its lock attempts are arguments of the loop; the interleaving of many callers is in the steps of the same module.
- `acquire_locks_and_send` (backend/bot/safety/rate_limiter.py:355-391): it frees both locks early, so no spacing holds through it.
- Leases: the remaining time is read at the same instant as the failed acquisition.
- Health probes, audits and the return of stalled accounts to a recovered app (backend/bot/developer_apps/service.py:1150-1446).
- TargetIssues.IssueTable.RecordTaskTargetSendIssue: times, titles and notification marks of a row are not kept, and the user-facing text is the error it is made from.
- TargetRuns.SuspendedTargetsHaveIssues: a save's compare of the task revision is left out, so the runs contain saves the code refuses; deletions of the task and its rows are no steps.
- Targets.NormalizeTargets: the aliases of the keys of a submitted item, access hashes that are not numbers, and the form with a single target outside a list.
- The identifiers of last sent messages and the resolution of a target to a Telegram entity (backend/scheduler/core/task_execution.py:107-222).
- TextVariation.AddInvisibleVariation: the protected patterns are an arbitrary function from text to spans within it, and the early return without a candidate position is absent because position 0 is always one.
- ResourceSync.ResourceTable.FullSync: a missing client or a failing dialog query ends before the rows are touched and is not modelled, nor is the synchronisation of a single peer in a session of its own (backend/bot/resources/sync_ops.py:85-104); title and description are what the helpers return.
- Entities: HTML parsing, the two patterns and surrogate pairs; offsets are those of the parsed text.
- Account client cache, encryption, API routers, bot pages, access control, licensing, frontend and deployment: thin layers over the above or outside it.
