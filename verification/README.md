# Dump-task session and APK-installer decision rules

This project models two parts of the GetInfoByApk repository and proves properties of each.

**The dump-task session.** This is the server side of the `CreateTask` streaming call.
- **Task context** (`TaskContext`). One context serves one session:
  - a dialog broker: `AskAsync` registers a waiter under a dialog id, publishes the request and waits; `SetDialogResult` completes the waiter;
  - an event feed, first in first out;
  - a progress slot of capacity one that keeps only the latest snapshot;
  - a cancellation signal;
  - `Dispose`, which cancels and then completes the three feeds.
- **Task body** (`TaskBody`). This covers:
  - how `RunAsync` turns the way a task ends into a `DumpExitCode`;
  - the `ConfirmAsync` and `Progress` helpers;
  - the steps of the reference `AdbBackupTask`.
- **Session** (`DumpService`). This covers:
  - the command loop: Start, Stop, dialog answer and Ping;
  - the three feeds that move dialogs, events and progress into the single outbox;
  - the `finally` teardown.

  The outbox is the sequence of messages appended to the session's outgoing channel. Concurrency is replaced by arbitrary interleavings of steps (`DumpService.Step`). A step is a command, a call the task makes on the context, one feed iteration, or the transport's cancellation.

**The client log list** (`ViewLog`). Each line is stamped and appended, and the list is kept to 2000 entries.

**The installer's decision rules.** Every ADB call becomes an input: the screen, package presence, command output, and how the race between ADB and the UI watcher ended.
- **Brand handlers** (`BrandHandlers`):
  - what the Oppo and Xiaomi handlers detect on the focused window;
  - which states they handle;
  - which handler a brand string gets from the factory.
- **Strategy choice** (`StrategyFactory`): the strategy picked from the Android version string.
- **Installer engine** (`InstallerEngine`):
  - the UI watcher;
  - the `pm install` classification;
  - the decision table applied after the race.
- **Robust strategy** (`RobustStrategy`):
  - the same decision table, without the time-out exit;
  - `pm install` with a retry without `-g`;
  - a watcher whose package check is a stub.

Some things the proofs show about the code as it stands:
- **The teardown's final progress snapshot never reaches the outbox.** The teardown puts it into the progress slot after the feeds' token has been cancelled, and a torn-down session's feeds append nothing (`DumpService.AsWrittenFinalProgressStranded`). A whole session (`DumpService.Serve`) uses the intended teardown, which appends the snapshot just before `Finished` (see "## Findings").
- **The engine's time-out exit is unreachable.** The engine's own watcher never reports `OverTime` (`InstallerEngine.TimeoutBranchUnreachable`).
- **A watcher that throws and finishes first ends the engine's install with nothing done.** Testing its result for a time-out throws into the catch-all; the robust strategy carries on instead (`RobustStrategy.EngineAbortsWhereRobustContinues`).
- **The robust strategy always calls its handler with Success when ADB fails.** Its package check always answers true, so its watcher reports Success at the first poll. As a result, a failed ADB install hands Success to the handler and then falls back (`RobustStrategy.LostRaceFallsBack`).
- **The two `pm install` classifiers disagree on silent output** (`RobustStrategy.ClassifiersDisagreeOnSilence`).
- **An Oppo device never gets the Oppo handler.** The factory gives it the default handler (`BrandHandlers.OppoGetsDefault`).

## Model

| member | source | states |
|---|---|---|
| TaskContext.GuidNotBlank | Greeter/Server/Services/DumpTaskContext.cs:39-40 | a fresh "N"-formatted guid is never blank, so it can always replace a blank dialog id |
| TaskContext.InitialValid | Greeter/Server/Services/DumpTaskContext.cs:12-30 | a new context satisfies the broker invariant: nothing pending, nothing waiting, not cancelled, not closed |
| TaskContext.AskId | Greeter/Server/Services/DumpTaskContext.cs:39-40 | the id a dialog is asked under is never blank, and a non-blank id is kept as given |
| TaskContext.AskBegin | Greeter/Server/Services/DumpTaskContext.cs:37-52 | a taken id fails with the duplicate error and changes nothing; a published ask registers exactly one new waiting waiter under its id and appends exactly the normalised request to the dialog feed; once cancellation has fired every ask fails, and its waiter is cancelled |
| TaskContext.AskEndAsWritten | Greeter/Server/Services/DumpTaskContext.cs:54-55 | the `finally` as written empties the id, whoever owns it: when the entry belongs to another ask that is still waiting, the broker invariant is broken, because that waiter is no longer referred to |
| TaskContext.AskEnd | Greeter/Server/Services/DumpTaskContext.cs:54-55 | the intended `finally` never removes another ask's entry and never adds one; it changes nothing but the table, keeps the broker invariant, and hands the caller the answer or the cancellation its waiter completed with |
| TaskContext.TryComplete | Greeter/Server/Services/DumpTaskContext.cs:48-62 | completing leaves the waiter completed and every other waiter as it was; a waiter that has already completed keeps its first result |
| TaskContext.SetDialogResult | Greeter/Server/Services/DumpTaskContext.cs:58-63 | a blank or unknown id changes nothing; a pending id is removed, and only its waiter is answered |
| TaskContext.Cancel | Greeter/Server/Services/DumpTaskContext.cs:46-50 | the first cancellation empties the pending table and cancels exactly the waiters it referred to, leaving the feeds alone; later cancellations do nothing |
| TaskContext.WriteEvent | Greeter/Server/Services/DumpTaskContext.cs:78-82 | the events already queued keep their order, and the new event comes after them, stamped with the time of writing and otherwise unchanged; nothing else changes; once closed, the write is dropped |
| TaskContext.Log | Greeter/Server/Services/DumpTaskContext.cs:69-76 | each log call appends one event at its level and touches neither dialogs nor progress |
| TaskContext.ReportProgress | Greeter/Server/Services/DumpTaskContext.cs:88-92 | the next read of the progress feed returns this snapshot, whatever the slot held before; nothing else changes; once closed, the report is dropped |
| TaskContext.Dispose | Greeter/Server/Services/DumpTaskContext.cs:97-104 | disposal leaves the context cancelled and closed; from a valid context nobody is left waiting and nothing is pending; unread dialogs, events and the progress slot stay as they were |
| TaskContext.TakeDialog | Greeter/Server/Services/DumpTaskContext.cs:65-66 | a read returns nothing exactly when no dialog is queued; otherwise the request read, put back in front of the rest, is the queue before the read; nothing else changes |
| TaskContext.TakeEvent | Greeter/Server/Services/DumpTaskContext.cs:84-85 | a read returns nothing exactly when no event is queued; otherwise the event read, put back in front of the rest, is the queue before the read; nothing else changes |
| TaskContext.TakeProgress | Greeter/Server/Services/DumpTaskContext.cs:94-95 | a read empties the slot, and putting back what it returned restores the context exactly |
| TaskContextProperties.AskBeginPreservesValid | Greeter/Server/Services/DumpTaskContext.cs:37-52 | asking keeps the broker invariant |
| TaskContextProperties.SetDialogResultPreservesValid | Greeter/Server/Services/DumpTaskContext.cs:58-63 | answering keeps the broker invariant |
| TaskContext.CancelReleasesAll | Greeter/Server/Services/DumpTaskContext.cs:46-50 | after cancellation no caller is left waiting and nothing is pending |
| TaskContextProperties.AskEndLeavesNothing | Greeter/Server/Services/DumpTaskContext.cs:54-55 | once an ask's waiter has completed, the table no longer refers to it, so the intended `finally` has nothing to remove |
| TaskContextProperties.ApplyPreservesValid | Greeter/Server/Services/DumpTaskContext.cs:37-104 | the broker invariant survives every call in every interleaving |
| TaskContextProperties.CompletedWaiterStays | Greeter/Server/Services/DumpTaskContext.cs:46-63 | a completed waiter keeps its answer or its cancellation, whatever call comes next |
| TaskContextProperties.OnlyDisposeCloses | Greeter/Server/Services/DumpTaskContext.cs:97-104 | a call closes the feeds exactly when it is `Dispose`, or when they were already closed |
| TaskContextProperties.NoWaiterOutlivesDispose | Greeter/Server/Services/DumpTaskContext.cs:97-104 | after any interleaving of calls ending in disposal, nothing is pending and no ask is still waiting |
| TaskContextProperties.AnswerThenCancel | Greeter/Server/Services/DumpTaskContext.cs:58-63 | an answer that arrives before cancellation wins: the waiter stays answered |
| TaskContextProperties.CancelThenAnswer | Greeter/Server/Services/DumpTaskContext.cs:46-50 | cancellation that arrives before the answer wins: the waiter stays cancelled |
| TaskContextProperties.StaleAnswerIsNoOp | Greeter/Server/Services/DumpTaskContext.cs:60-62 | a response with a blank or unknown id is dropped without any effect |
| TaskContextProperties.DuplicateAskChangesNothing | Greeter/Server/Services/DumpTaskContext.cs:43-44 | asking under a pending id fails and leaves the existing waiter and the dialog feed untouched |
| TaskContextProperties.AnsweredAskRoundTrip | Greeter/Server/Services/DumpTaskContext.cs:37-63 | an ask under a free id, answered under the id it was published with, returns exactly that answer to its caller; the pending table is then as it was before the ask, the invariant holds, and the request stays on the dialog feed |
| TaskContextProperties.AnswerOwnAsk | Greeter/Server/Services/DumpTaskContext.cs:58-63 | answering a pending ask under its own id completes exactly that waiter with the response and removes exactly its entry, keeping the invariant |
| TaskContextProperties.CancelledAskRoundTrip | Greeter/Server/Services/DumpTaskContext.cs:37-55 | an ask still waiting when the session is cancelled fails with cancellation, and nothing is left pending |
| TaskContextProperties.ProgressKeepsLatest | Greeter/Server/Services/DumpTaskContext.cs:20-27 | however many snapshots are reported between two reads, the reader sees only the last |
| TaskContextProperties.EventsInWriteOrder | Greeter/Server/Services/DumpTaskContext.cs:78-82 | events are read in write order, each with its own write time, and every write after closing is dropped |
| TaskContextProperties.WritesAfterDisposeDropped | Greeter/Server/Services/DumpTaskContext.cs:97-104 | events and progress written after disposal change nothing |
| TaskContextProperties.AsWrittenFinallyOrphansReusedId | Greeter/Server/Services/DumpTaskContext.cs:54-55 | as written, an ask that reuses an answered id before the first ask's `finally` runs is left waiting with no table entry, so neither an answer nor disposal can complete it |
| TaskContextProperties.FinallyKeepsReusedId | Greeter/Server/Services/DumpTaskContext.cs:54-55 | with the intended `finally`, the same interleaving keeps the invariant, and disposal cancels the second ask |
| TaskBody.RunAsync | Greeter/Server/Services/DumpTaskBase.cs:20-39 | the exit code is Success, Cancel or Error exactly when the body completed, threw a cancellation or threw anything else; the body's log lines sit between one entry line and one closing line at the matching level |
| TaskBody.ConfirmAskedAsBuilt | Greeter/Server/Services/DumpTaskBase.cs:43-51 | a confirm question is a kind-2 dialog with an empty payload and no time-out; while the session is live and its fresh id is free, it is published exactly as built |
| TaskBody.ProgressDefaults | Greeter/Server/Services/DumpTaskBase.cs:53-65 | a progress report given only a percent has state RUNNING and zero counters |
| TaskBody.WorkPercentRises | Greeter/Server/Services/DumpTaskBase.cs:107-112 | the work steps report strictly rising percents from 14 to 95 |
| TaskBody.WorkLoop | Greeter/Server/Services/DumpTaskBase.cs:107-112 | the work loop reports one RUNNING snapshot per finished step, in order, and stops early exactly when cancellation is seen before the tenth step |
| TaskBody.ReferencePercentsInRange | Greeter/Server/Services/DumpTaskBase.cs:76-116 | every percent the reference task reports lies in 0..100 |
| TaskBody.DeclinedConfirmCancels | Greeter/Server/Services/DumpTaskBase.cs:99-104 | a declined confirm reports 0 with state CANCEL last, and the run ends with exit code Cancel |
| TaskBody.SuccessScheduleRises | Greeter/Server/Services/DumpTaskBase.cs:76-116 | on the success path the percents are 0, 5, 14, ..., 95, 100, never decreasing, and the run ends with Success |
| TaskBody.OnlyCompletedRunSucceeds | Greeter/Server/Services/DumpTaskBase.cs:76-116 | the run succeeds exactly when the delay is not cancelled, the answer is OK and no work step sees cancellation; only a completed run reports 100 |
| DumpService.ReplyTaskId | Greeter/Server/Services/DumpService.cs:122 | a reply carries the request's task id, or "single" when that is blank, so it is never blank |
| DumpService.Dispatch | Greeter/Server/Services/DumpService.cs:124-193 | in the intended loop, which writes without observing the session token, every command except an empty one gets exactly one reply; only the first Start records a task; Stop cancels; a dialog answer goes to the broker; nothing else changes |
| DumpService.AsWrittenStopNeverAcked | Greeter/Server/Services/DumpService.cs:159-166 | as written, Stop's acknowledgement is never appended, and the command loop ends with an exception |
| DumpService.AsWrittenAgreesBeforeCancel | Greeter/Server/Services/DumpService.cs:124-193 | apart from Stop, and before cancellation, the loop as written does exactly what `Dispatch` does |
| DumpService.AsWrittenEndsOnceCancelled | Greeter/Server/Services/DumpService.cs:124-193 | as written, once the session token is cancelled, every command with a reply ends the loop with nothing appended, while the intended loop still appends the reply |
| DumpService.StopAlwaysAcked | Greeter/Server/Services/DumpService.cs:159-166 | with the correction, Stop is acknowledged in every state and leaves the task handle alone |
| DumpService.FeedDialog | Greeter/Server/Services/DumpService.cs:44-66 | while the token is live, the oldest unread dialog moves to the outbox under "single"; once cancelled, the feed does nothing |
| DumpService.FeedEvent | Greeter/Server/Services/DumpService.cs:68-89 | while the token is live, the oldest unread event moves to the outbox under "single"; once cancelled, the feed does nothing |
| DumpService.FeedProgress | Greeter/Server/Services/DumpService.cs:91-113 | while the token is live, the slot's snapshot moves to the outbox under "single" and the slot empties; once cancelled, the feed does nothing |
| DumpService.NextKeepsRunning | Greeter/Server/Services/DumpService.cs:115-194 | every interleaved step keeps the running invariant (broker invariant, open feeds, one start acknowledgement exactly when a task is recorded, no `Finished`), never rewrites the outbox, and never replaces a recorded task |
| DumpService.RunSteps | Greeter/Server/Services/DumpService.cs:115-194 | any run of steps keeps the running invariant and only appends to the outbox |
| DumpService.AtMostOneStart | Greeter/Server/Services/DumpService.cs:126-157 | however commands and the task interleave, at most one "Task starting" is ever appended, and one is appended exactly when a task is recorded |
| DumpService.LaterStartRefused | Greeter/Server/Services/DumpService.cs:127-135 | a later Start is refused with "Task already started" and leaves the first task's handle in place |
| DumpService.PingAnsweredByPong | Greeter/Server/Services/DumpService.cs:182-192 | a Ping is answered by exactly one Pong with its own sequence number, and nothing else changes |
| DumpService.DialogAnswerAlwaysAcked | Greeter/Server/Services/DumpService.cs:168-180 | a dialog answer is acknowledged whether or not its id is pending; an unknown id leaves the broker unchanged |
| DumpService.FinishCodeOf | Greeter/Server/Services/DumpService.cs:208-213 | the finish code is success, cancel or error exactly when the exit code is Success, Cancel or Error |
| DumpService.FinalProgress | Greeter/Server/Services/DumpService.cs:215-224 | the final percent is 100 exactly for Success and 0 otherwise, with state SUCCESS, CANCEL or ERROR to match |
| DumpService.TeardownOrder | Greeter/Server/Services/DumpService.cs:196-245 | teardown cancels first; `Finished` is appended exactly when a task was started, immediately before the outbox is completed; feeds are joined after completion and before the writer |
| DumpService.TeardownResult | Greeter/Server/Services/DumpService.cs:196-245 | teardown adds exactly one `Finished` (matching the settled code) when a task was started and nothing otherwise; it completes the outbox, joins everything and disposes the context with nobody waiting; the final snapshot is left in the slot |
| DumpService.NothingAfterTeardown | Greeter/Server/Services/DumpService.cs:241-245 | after teardown no feed appends anything more |
| DumpService.AsWrittenFinalProgressStranded | Greeter/Server/Services/DumpService.cs:196-239 | as written, the teardown of a started session appends only `Finished`; the final snapshot stays in the progress slot, and the progress feed never moves it |
| DumpService.IntendedTeardownDeliversFinal | Greeter/Server/Services/DumpService.cs:196-245 | with the correction, a started session's teardown appends the snapshot matching the exit code and then `Finished`; a session without a task is torn down exactly as written; either way the outbox is completed, everything joined and the context disposed |
| DumpService.FinishedIsLast | Greeter/Server/Services/DumpService.cs:115-245 | every whole session that started a task ends its outbox with the final snapshot for the task's code followed by exactly one `Finished` carrying that code; a session that never started one has none |
| ViewLog.Log | BasicMvvmSample/ViewModels/DumpViewModel.cs:40-45 | the stamped line becomes the newest entry; below the bound nothing is lost; at the bound only the oldest entry is dropped, so a list within 2000 entries stays within 2000 |
| ViewLog.LogOntoLast | BasicMvvmSample/ViewModels/DumpViewModel.cs:40-45 | logging onto the newest 2000 of a history gives the newest 2000 of the history extended by that line |
| ViewLog.LogAllKeepsNewest | BasicMvvmSample/ViewModels/DumpViewModel.cs:40-45 | from a list within the bound, any number of log calls leaves exactly the newest 2000 of all entries, oldest first |
| InstallModel.UiState | InstallApkDemo/InstallApkDemo/Strategies/InstallerEngine.cs:58 | any state other than UnknownBlock is exactly what the watcher returned, so OverTime can only come from the watcher; a watcher that faulted or was cancelled leaves UnknownBlock |
| BrandHandlers.MentionsAny | InstallApkDemo/InstallApkDemo/Brandhandler/OppoHandler.cs:24-28 | a focus matches a keyword list exactly when some keyword occurs in it, ignoring case |
| BrandHandlers.OppoDetectState | InstallApkDemo/InstallApkDemo/Brandhandler/OppoHandler.cs:17-31 | an installed target wins, then a security-center keyword (account required), then an installer-activity keyword (click); otherwise None; never UnknownBlock |
| BrandHandlers.OppoHandle | InstallApkDemo/InstallApkDemo/Brandhandler/OppoHandler.cs:33-50 | Oppo handles exactly the click state; the account prompt is left to the fallback |
| BrandHandlers.OppoAccountBeatsClick | InstallApkDemo/InstallApkDemo/Brandhandler/OppoHandler.cs:17-50 | any focus that names a security-center keyword verbatim is an account prompt, whatever installer activity it also names, and Oppo leaves it to the fallback |
| BrandHandlers.DetectIgnoresCase | InstallApkDemo/InstallApkDemo/Brandhandler/OppoHandler.cs:24-28 | detection gives the same state for a focus and for its lower-cased form |
| BrandHandlers.XiaomiDetectState | InstallApkDemo/InstallApkDemo/Brandhandler/XiaomiHandler.cs:9-17 | Xiaomi detects a click exactly when the MIUI installer is named in the focus, ignoring case, and None otherwise |
| BrandHandlers.XiaomiHandle | InstallApkDemo/InstallApkDemo/Brandhandler/XiaomiHandler.cs:19-30 | Xiaomi handles nothing but the click, and handles exactly the states the Oppo handler does |
| BrandHandlers.Detect | InstallApkDemo/InstallApkDemo/Strategies/InstallerEngine.cs:113 | no detector reports UnknownBlock, and Xiaomi's never reports Success or an account prompt |
| BrandHandlers.Handle | InstallApkDemo/InstallApkDemo/Strategies/InstallerEngine.cs:78 | each handler resolves exactly the click state |
| BrandHandlers.DetectedThenHandled | InstallApkDemo/InstallApkDemo/Strategies/InstallerEngine.cs:74-85 | a detected state is handled exactly when it is the click, so an Oppo account prompt always goes to the fallback |
| BrandHandlers.GetHandler | InstallApkDemo/InstallApkDemo/Brandhandler/BrandHandlerFactory.cs:7-37 | the trimmed, lower-cased brand huawei or honor gets the Huawei handler, xiaomi or redmi the Xiaomi handler, and every other brand the default handler; the Oppo handler is never returned |
| BrandHandlers.NormalizeBrandIdempotent | InstallApkDemo/InstallApkDemo/Brandhandler/BrandHandlerFactory.cs:12 | normalising a brand twice is normalising it once, so a brand and its normal form get the same handler |
| BrandHandlers.HonorIsHuawei | InstallApkDemo/InstallApkDemo/Brandhandler/BrandHandlerFactory.cs:20-24 | capitals do not matter: "HONOR" gets the Huawei handler |
| BrandHandlers.OppoGetsDefault | InstallApkDemo/InstallApkDemo/Brandhandler/BrandHandlerFactory.cs:28-37 | "OPPO" falls through to the default handler |
| StrategyFactory.MajorVersion | InstallApkDemo/InstallApkDemo/Strategies/StrategyFactory.cs:13-20 | the major version is the digits before the first '.' of the trimmed output, or 0 when they do not form a number |
| StrategyFactory.GetStrategy | InstallApkDemo/InstallApkDemo/Strategies/StrategyFactory.cs:30-37 | the modern strategy is chosen exactly when the major version is at least 11 |
| StrategyFactory.BrandIrrelevant | InstallApkDemo/InstallApkDemo/Strategies/StrategyFactory.cs:23-37 | the brand is read but never changes the strategy |
| StrategyFactory.PrintedVersionRoundTrip | InstallApkDemo/InstallApkDemo/Strategies/StrategyFactory.cs:10-37 | any version printed as a number, a dot and more text reads back as that number, and the strategy follows the threshold |
| StrategyFactory.PlainVersionRoundTrip | InstallApkDemo/InstallApkDemo/Strategies/StrategyFactory.cs:13-20 | a version without a dot reads back as the whole number |
| StrategyFactory.UnreadableIsLegacy | InstallApkDemo/InstallApkDemo/Strategies/StrategyFactory.cs:16-37 | any version output whose trimmed text before the first dot is empty or not all digits counts as 0 and gets the legacy strategy |
| InstallerEngine.WatchResult | InstallApkDemo/InstallApkDemo/Strategies/InstallerEngine.cs:104-124 | the watcher reports None exactly when no poll settles; it never reports UnknownBlock or OverTime |
| InstallerEngine.FirstSettlingPollWins | InstallApkDemo/InstallApkDemo/Strategies/InstallerEngine.cs:106-119 | the first poll that sees the package installed or a decisive state decides the watcher's result |
| InstallerEngine.WaitForUI | InstallApkDemo/InstallApkDemo/Strategies/InstallerEngine.cs:104-124 | the polling loop returns the first settling poll's value, or None when cancellation ends it |
| InstallerEngine.AdbVerdictDrivesTable | InstallApkDemo/InstallApkDemo/Strategies/InstallerEngine.cs:57-141 | unless the race ends in the exception handler or the time-out exit, the handler is consulted exactly when `pm install` threw or printed "Failure"; after a clean output the fallback runs exactly when the package check misses |
| InstallerEngine.InstallAsync | InstallApkDemo/InstallApkDemo/Strategies/InstallerEngine.cs:21-100 | a watcher that finished first without a result makes reading its result throw, so the run does nothing more; a timed-out watcher only kills ADB; otherwise the run ends with one dismissal and falls back at most once. It falls back exactly when ADB "succeeded" but the package is missing, or ADB failed and the handler cannot resolve the watcher's state. The handler is consulted, with that state, exactly when ADB failed |
| InstallerEngine.TimeoutBranchUnreachable | InstallApkDemo/InstallApkDemo/Strategies/InstallerEngine.cs:42-48 | with the engine's own watcher the time-out exit is never taken and ADB is never killed; a run does nothing exactly when the watcher finished first without a result, and every other run ends with the dismissal |
| InstallerEngine.AdbSuccessTable | InstallApkDemo/InstallApkDemo/Strategies/InstallerEngine.cs:62-71 | a verified ADB install only dismisses, and a fake success falls back once |
| InstallerEngine.AdbFailureTable | InstallApkDemo/InstallApkDemo/Strategies/InstallerEngine.cs:72-86 | after a failed ADB install a click prompt is handled, and every other state falls back |
| InstallerEngine.SilentWatcherFallsBack | InstallApkDemo/InstallApkDemo/Strategies/InstallerEngine.cs:121-123 | a watcher that never settles leaves None, which no handler resolves, so a failed ADB install falls back |
| InstallerEngine.ThrowingWatcherAborts | InstallApkDemo/InstallApkDemo/Strategies/InstallerEngine.cs:39-99 | a watcher that faulted and finished first ends the install in the catch-all, with no fallback and no dismissal, whatever ADB did |
| RobustStrategy.RunAdbInstall | InstallApkDemo/InstallApkDemo/Strategies/RobustAutomationStrategy.cs:75-93 | the install is retried without `-g` exactly when the first output reports the permission-grant error; it succeeds exactly when the last output, lower-cased, mentions "success" |
| RobustStrategy.RetryAtMostOnceWithoutGrant | InstallApkDemo/InstallApkDemo/Strategies/RobustAutomationStrategy.cs:75-93 | at most two commands run: the first grants permissions, the second never does, and the second runs exactly when the first output reports the grant error |
| RobustStrategy.VerdictIgnoresCase | InstallApkDemo/InstallApkDemo/Strategies/RobustAutomationStrategy.cs:90 | lower-casing the output the verdict reads, the retry's or the first one when no retry follows, never changes the verdict |
| RobustStrategy.ClassifiersDisagreeOnSilence | InstallApkDemo/InstallApkDemo/Strategies/RobustAutomationStrategy.cs:90 | empty output is a success for the engine and a failure for the robust strategy |
| RobustStrategy.WatchRule | InstallApkDemo/InstallApkDemo/Strategies/RobustAutomationStrategy.cs:95-112 | the first settling poll decides; without one the watcher reports UnknownBlock, or ends cancelled when its delay throws; it never reports None |
| RobustStrategy.StubbedWatcherSaysSuccess | InstallApkDemo/InstallApkDemo/Strategies/RobustAutomationStrategy.cs:97-119 | with the stubbed package check, a watcher that polls at all reports Success at once |
| RobustStrategy.Install | InstallApkDemo/InstallApkDemo/Strategies/RobustAutomationStrategy.cs:10-71 | there is no early exit: every run ends with one dismissal and falls back at most once. It falls back exactly when the check fails after an ADB success, or ADB failed and the handler cannot resolve the state. The handler is consulted exactly when ADB failed |
| RobustStrategy.SuccessNeverFallsBack | InstallApkDemo/InstallApkDemo/Strategies/RobustAutomationStrategy.cs:37-47 | with the stub, an ADB success only dismisses |
| RobustStrategy.LostRaceFallsBack | InstallApkDemo/InstallApkDemo/Strategies/RobustAutomationStrategy.cs:48-61 | with the stub, a failed ADB install hands Success to the handler, which refuses it, so the fallback runs |
| RobustStrategy.AgreesWithEngine | InstallApkDemo/InstallApkDemo/Strategies/RobustAutomationStrategy.cs:33-64 | outside the engine's two early exits, the robust table and the engine's table take the same actions |
| RobustStrategy.EngineAbortsWhereRobustContinues | InstallApkDemo/InstallApkDemo/Strategies/RobustAutomationStrategy.cs:26-61 | where the engine gives up because the watcher finished first without a result, the robust strategy never reads that result: after an ADB success it only dismisses, and after a failure it hands UnknownBlock to the handler and ends with the dismissal |

## Left out

- **Concurrency.** Thread-pool scheduling, `Task.WhenAny` races and token linking are replaced by interleavings of steps, or by the `Race` input. Wire delivery by the session's writer is not modelled: the outbox is the order of appends to the outgoing channel.
- **AdbBackupTask's background loop.** It writes ten log lines one second apart, and its timing is not modelled. Its writes are ordinary `TaskCall` log steps.
- **The task's opening log and progress report.** They are `TaskCall` steps that the interleaving may place anywhere, even before any Start. They are not tied to the Start command.
- **Clocks, fresh guids and the 30-second install time-out.** These are inputs.
- **Null references.** Dafny has no null: a null response to `SetDialogResult` and the `?? ""` defaults do not arise.
- **Conversion to protocol messages.** Enum numbering and timestamp conversion are not modelled. Messages keep the model's own types.
- **Dispose's `_cts.Dispose()`.** A later `Cancel` throwing `ObjectDisposedException` is not modelled; the session never cancels after disposal.
- **The ADB side effects of the handlers.** Key presses, taps, delays, fallback launches and console output are not modelled. Fallback and dismissal appear only as the actions `Fallback` and `Dismiss`. `TryKillAdbInstallProcess` is empty in the repository and appears only as `KillAdb`.
- **HuaweiHandler, DefaultBrandHandler and the Modern and Legacy strategies.** These are not part of this model. Only which one the factories return is modelled.
- **Exceptions thrown by device and handler calls after the race.** The package re-check `IsPackageInstalled` (InstallerEngine.cs:66), `TryKillAdbInstallProcess` on the time-out path and the handler calls all run inside `InstallAsync`'s try, and any of them throwing would end the run through the catch-all. The model takes the re-check as a plain `packagePresent` answer and assumes each of these calls returns. An exception inside the watcher is modelled only as the watcher's task faulting.
- **Signatures that do not match the handler interface.** The robust strategy calls handler methods with signatures the handler classes do not declare. The model takes them to be the same detection and handling rules.
- DumpService.Dispatch: models the intended command loop. Every reply is appended whatever the state of the session token, where each write in DumpService.cs:129-191 observes that token and ends the loop once it is cancelled, by Stop, the teardown or the transport. `DumpService.Next` likewise keeps dispatching commands after `TransportCancelled`, and ends an ask with the intended `finally` (`TaskContext.AskEnd`). The loop as written is `DumpService.DispatchAsWritten`.
- TaskContext.ReportProgress: the percent is an integer, where the repository uses a double.
- TaskContext.AskBegin: uses one cancellation signal, the session's linked token. `AskAsync` registers its callback on its caller's token, and the only caller in the repository passes that linked token.
- StrategyFactory.MajorVersion: reads only plain ASCII digit strings. `double.TryParse` also accepts signs, exponents, group separators, culture-specific digits and whitespace inside the first part (as in "11 .0"). All of these read as 0 here. It also accepts "Infinity" and the infinity symbol, which pass the `version >= 11` test and select the modern strategy; here they read as 0 and select the legacy one.
- BrandHandlers.MentionsAny: ignores case for ASCII letters only, where `OrdinalIgnoreCase` also folds other letters.
- BrandHandlers.GetHandler: lower-cases ASCII letters only, where `ToLower()` follows the current culture.

## Findings

| source | as written | input that shows it | evidently intended | confidence | as-written member | corrected member |
|---|---|---|---|---|---|---|
| Greeter/Server/Services/DumpService.cs:159-166 | Stop cancels the task scope, which the session token is linked to, and then writes its acknowledgement with that same token. The write fails at once with a cancellation exception, so nothing is appended and the exception ends the command loop | any Stop request, in any session state | Stop is acknowledged with "Cancel requested" and the loop keeps reading commands | medium, not executed | DumpService.AsWrittenStopNeverAcked | DumpService.StopAlwaysAcked |
| Greeter/Server/Services/DumpService.cs:196-239 | The teardown cancels the session token, which ends every feed, and only then reports the final progress snapshot into the progress slot; `Finished` is written straight to the outbox, but the snapshot never is | any session that started a task: its outbox ends with `Finished` and holds no final snapshot | a final snapshot matching the exit code is delivered before `Finished` | medium, not executed | DumpService.AsWrittenFinalProgressStranded | DumpService.IntendedTeardownDeliversFinal |
| Greeter/Server/Services/DumpTaskContext.cs:54-55 | The `finally` of `AskAsync` removes the table entry by id alone | ask A under "x" is answered; before A's continuation runs, ask B registers "x" again; A's `finally` then removes B's entry, and B waits forever | the `finally` removes the entry only while it still belongs to the same ask | high, not executed | TaskContextProperties.AsWrittenFinallyOrphansReusedId | TaskContextProperties.FinallyKeepsReusedId |
