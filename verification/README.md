# Blitz, modelled and proved in Dafny

Blitz is a coding agent. Beneath its interfaces it keeps promises that range over whole runs: an undo gives
back what was there, a patch is applied entirely or not at all, a compacted conversation loses nothing, a lock
is never held twice, a stopped scheduler starts nothing. This project models the parts of Blitz that make those
promises and proves them. `dafny verify dfyconfig.toml` checks everything.

How the files hang together, a module each:

- `PatchEngine`, `UnifiedDiff`, `UnifiedDiffRoundTrip`, `UnifiedDiffErrors`: reading unified diffs (the "Diff -u or -U Output Format"
  of the `diff` utility in POSIX.1-2017), finding where hunks go, and applying them.
- `CheckpointStore` says what the undo store does, as functions on values; `Checkpoints` is the store's object with
  its turns, changes and tables on the heap, each method proved against those functions; `CheckpointTurns`,
  `CheckpointHistory`, `CheckpointUndo`, `CheckpointBooks` and `CheckpointShape` prove what holds over runs.
  `Workspace` is the object through which tools write, and `PatchPlan` plans and executes a patch of many files.
- `Compaction` is one compaction of a conversation; `CompactionRuns` is about any run of appends and compactions.
- `PathLocks`, `Scheduler`, `LiveRuns`, `GrepSchedule` and `SharedOpening` are protocols of goroutines, as state
  machines whose steps are the critical sections and channel operations of the source, in every order.
  `SchedulerAnswers` and `SharedOpeningAnswers` say why their callers are told what they are, and `CronEntries` is the
  table of scheduled jobs.
- `CircuitBreaker` and `ModelFallback`: the breaker's object and every history of its calls, and the chain of models
  that must use it properly.
- `Grep` searches one file and says what a search of many means; `Globs` and `PathPolicy` compile blocked-path patterns.
- `TomlLines`, `TomlEdits`, `TomlFrames`, `TomlSettings`: editing single lines of a TOML v1.0.0 file in place ("Table",
  "Comment") without disturbing the rest.
- `SessionStore` says what each operation on saved sessions does, one file step after another; `SessionSnapshots`
  proves what snapshots are promised, `SessionTranscripts` what becomes of transcripts and what saving and opening do;
  `SessionStorage` is the storage object.
- `GoStrings` and `Results` hold what several of them share.

Strings are sequences of characters. A file system is a map from paths to contents and modes, and each of its
primitives may fail. What a failing primitive leaves behind is part of the model where the source can tell.

## Where the code and its descriptions part

- A clean rollback reports that no files were changed. A deleted file comes back with the default mode, or with that
  of a file left in its place, and a create that fails once its file exists may leave it there
  (`PatchPlan.CleanExactlyUnlessLeftBehind` and `PatchPlan.ModesAfterRollback` say exactly when,
  `PatchPlan.RollbackFallsShort` shows both).
- `originals` is described as each file's earliest snapshot. Trimming forgets it even when a later turn touched the same
  file (`CheckpointBooks.TrimKeepsOriginals` says exactly when), and then a newer change takes its place
  (`CheckpointBooks.ForgottenIsReplaced`; `CheckpointBooks.OriginalsGoWrong` is such a run). An undo keeps the entries of
  the files it did not put back, whose turn is gone (`CheckpointBooks.UndoKeepsOriginals` says exactly when it matters).
- A failed restore leaves its bytes in the account although its turn is gone (`CheckpointBooks.BytesAreAccountedFor`
  counts them).
- Compaction is meant to drop nothing unsummarized, but a summary can exclude only what is there when it is made. An
  event recorded later with a time inside its span is lost, and no other is, as long as its reference is its own
  (`CompactionRuns.LostExactlyIfLate`; `CompactionRuns.LateArrivalIsLost` is such a run). A reference shared with an
  earlier event can put that off until the next compaction (`CompactionRuns.TwinIsLostLater`).
- Snapshot names are unique, and snapshots do not change, unless removing the replaced snapshot's metadata fails: that
  failure is ignored (`SessionSnapshots.NamesStayUnique` and `SessionSnapshots.SnapshotsNeverChange` say
  exactly what then goes wrong).
- A rescan that cannot open a workspace drops the entries of all its workers until the next rescan that can, since
  what was not seen is dropped (`CronEntries.CronTable.Rescan` with a list that lacks them).
- A glob is compiled byte by byte, so a character beyond ASCII in a pattern becomes others in the expression, and the
  pattern no longer means what it says (`Globs.CompilingKeepsMeaning`: exactly the ASCII ones do).

## Model

| member | source | states |
|---|---|---|
| PatchEngine.FindBlockMeaning | internal/tools/patch.go:319-346 | the block found is the match nearest the expected line, lowest index on ties, under the strictest comparison that matches at or after `from`; only when none does is the whole file searched; -1 exactly when no trimmed match exists anywhere |
| PatchEngine.NearestMeaning | internal/tools/patch.go:324-341 | the distance loop's result is the nearest match (lowest on ties), -1 when there is none |
| PatchEngine.MatchesMean | internal/tools/patch.go:319-341 | a block matches where its lines are the lines there: as they stand, up to blanks at their ends, or up to white space around them |
| PatchEngine.SearchBlock | internal/tools/patch.go:319-346 | the three passes and the retry from line 0, as loops over the lines, compute that block |
| PatchEngine.SearchNearest | internal/tools/patch.go:324-341 | one pass over the candidate lines finds the nearest match |
| PatchEngine.SearchLine | internal/tools/patch.go:357-370 | the two passes for a section anchor, both from `from`: the first line equal to it once both are trimmed, otherwise the first that contains it |
| PatchEngine.FindLineMeaning | internal/tools/patch.go:357-370 | the line found for an anchor is the first from there on that equals it once both are trimmed, otherwise the first that contains it, and there is none exactly when no line does either |
| PatchEngine.ApplyMeans | internal/tools/patch.go:261-315 | hunk after hunk, for every list: the block looked for starts at the anchor or where the hunk before ended and is the nearest match under the strictest comparison that matches there; lines to insert go below the anchor, to the hint, or to the end; each error has its exact cause; what comes out is the lines with each block replaced |
| PatchEngine.OneHunkWithoutHint | internal/tools/patch.go:281-300 | one hunk as a begin-patch block gives it: its block is the first match at or after the anchor, and an insertion goes just below the anchor, or to the end without one |
| PatchEngine.ApplyIsStrict | internal/tools/patch.go:261-315 | when every hunk's old lines stand at hint+delta, in order, the fuzzy search changes nothing: the result is strict line-number patching |
| PatchEngine.SwapUndoes | internal/tools/patch.go:261-315 | applying the swapped hunks at their new positions gives the original lines back |
| PatchEngine.ApplyChangesLineCount | internal/tools/patch.go:261-315 | the line count changes by the sum of |new|-|old| over all hunks |
| PatchEngine.JoinUndoesSplit | internal/tools/patch.go:372-385 | joining a split text restores it |
| PatchEngine.SplitUndoesJoin | internal/tools/patch.go:372-385 | splitting joined lines restores them exactly when they are empty, the final newline is kept or the last line is not empty |
| PatchEngine.ApplyHunks | internal/tools/patch.go:261-315 | the loop over hunks, with its CR LF recursion (which ends because the text gets shorter), returns the patched text or the first hunk's error |
| PatchEngine.TextRoundTrip | internal/tools/patch.go:261-315 | on texts: strict patching, and the swapped hunks restore the text exactly when the final newline survived, which is said for every text |
| PatchEngine.CRLFCommutes | internal/tools/patch.go:262-268 | patching commutes with LF-to-CRLF conversion, errors included |
| UnifiedDiff.Parse | internal/tools/patch.go:55-147 | the line scan, the add/delete settling and every error of the unified-diff parser, against the recursive reading of the format |
| UnifiedDiff.ScanLines | internal/tools/patch.go:61-128 | the scanning loop with its current file and hunk equals that reading |
| UnifiedDiffRoundTrip.PrintParseRoundTrip | internal/tools/patch.go:44-147 | printing any list of file diffs, with any metadata lines before each file and after each hunk, any timestamps, section headings and backslash markers, and parsing it gives the same list back exactly when no hunk has a removed line starting `-- ` just before an added line starting `++ ` |
| UnifiedDiffRoundTrip.OnePatchPerHeader | internal/tools/patch.go:61-128 | a successful parse yields one patch for every header pair in the text, whatever else the text holds |
| UnifiedDiffRoundTrip.FalseHeadersAddPatches | internal/tools/patch.go:61-128 | a diff with such a pair of lines parses, if at all, to more patches than were printed |
| UnifiedDiffRoundTrip.HeaderParses | internal/tools/patch.go:98-110 | every hunk header is read back to its start line, whether its counts are shown or left out, as a count of one is |
| UnifiedDiffRoundTrip.HeaderIsRead | internal/tools/patch.go:44-110 | a line is taken for a hunk header exactly when it has that form, digit by digit, and its start line is the first number |
| UnifiedDiffErrors.ParseFails | internal/tools/patch.go:73-143 | every error of the parser exactly when it has its cause: the first line in trouble, no file header in the text, the first file with nothing to do; and nothing else is refused |
| UnifiedDiffErrors.CRLFParses | internal/tools/patch.go:47-53 | a diff with CR LF line ends parses to the same patches, or the same error |
| UnifiedDiffErrors.FinalNewlineIsOptional | internal/tools/patch.go:56-112 | and one without the newline at its end as one with it |
| UnifiedDiffErrors.OtherFormatIsToldApart | internal/tools/patch.go:47-53 | only a text that holds the marker of the other format is left to its parser |
| UnifiedDiffErrors.NewLinesAreAll | internal/tools/patch.go:131-139 | an added file's content is what all its hunks show of the new side, one after the other |
| CheckpointStore.TrimMeaning | internal/tools/checkpoint.go:179-190 | trimming drops whole turns from the oldest end, never the last, until the budget fits or one turn is left |
| CheckpointTurns.SuccessTurns | internal/tools/checkpoint.go:107-175 | a tool edit that succeeds leaves its path recorded once in the current turn, the oldest content kept and the newest noted, and at most oldest turns trimmed |
| CheckpointTurns.FailureTurns | internal/tools/checkpoint.go:134-160 | an edit that fails leaves the turns as they were but for trimming |
| CheckpointTurns.RestoreTouched | internal/tools/workspace.go:529-546 | restoring a turn puts each recorded file's existence, bytes and mode back |
| CheckpointTurns.RestoreOther | internal/tools/checkpoint.go:255-271 | and touches no other file, nor one whose restore fails |
| CheckpointTurns.StepShape | internal/tools/checkpoint.go:92-277 | every operation keeps paths distinct within a turn and only the last turn empty |
| CheckpointHistory.LedgerHolds | internal/tools/checkpoint.go:83-277 | over every run, outside edits and failures included, the retained turns record exactly the files changed through the tools and what the tools left in them |
| CheckpointHistory.UndoRefusesExactlyOnDrift | internal/tools/checkpoint.go:219-254 | an unforced undo is refused, changing nothing, exactly when there is nothing to undo, a snapshot was too large, or a touched file differs from what the tools left |
| CheckpointHistory.UndoMeans | internal/tools/checkpoint.go:219-277 | after any run, for any undo, forced or not: which error exactly when; otherwise every file the turn recorded that can be put back is as the turn found it, every other file stays, and that turn is gone |
| CheckpointHistory.SnapshotIsFound | internal/tools/workspace.go:496-527 | a snapshot is the file as it is, or that there is none, and too large exactly for a file that cannot be read or is over the limit |
| CheckpointUndo.ChainHolds | internal/tools/checkpoint.go:83-277 | over tracked runs each retained turn's changes lead from the disk it started with to the disk the next one started with |
| CheckpointUndo.UndosGoBack | internal/tools/checkpoint.go:219-277 | k undos give back the disk from before the k-th most recent changing turn |
| CheckpointUndo.UndoIsInverse | internal/tools/checkpoint.go:219-277 | so after any run of turns, successful and failing writes, creates, deletes, undos and trimming, k undos restore the whole disk, modes included |
| CheckpointUndo.UntouchedFilesNeverChange | internal/tools/checkpoint.go:83-277 | a file no operation names never changes, whatever is undone |
| CheckpointBooks.BytesAreAccountedFor | internal/tools/checkpoint.go:107-277 | `bytes` is the sum of the retained snapshots' sizes plus exactly what failed restores left unadjusted |
| CheckpointBooks.BudgetAfterRecording | internal/tools/checkpoint.go:107-131 | after a new change is recorded the budget holds or one turn is left |
| CheckpointBooks.OriginalsAreOldest | internal/tools/checkpoint.go:107-277 | without trimming or failed restores `originals` holds, for each touched path, the change of the oldest retained turn that touches it |
| CheckpointBooks.UndoKeepsOriginals | internal/tools/checkpoint.go:244-277 | one undo, forced or with failing restores, keeps that so exactly when every file it did not put back was touched by an earlier retained turn; where one was not, its entry stays although no turn touches it any more |
| CheckpointBooks.TrimKeepsOriginals | internal/tools/checkpoint.go:179-190 | from a state where `originals` is exact, a trimming keeps it so exactly when no path of a dropped turn is touched by a retained one |
| CheckpointBooks.ForgottenIsReplaced | internal/tools/checkpoint.go:107-131 | the next change recorded for a path without an original becomes its original, and the wrong one exactly when an earlier turn that touched the path is still retained |
| CheckpointBooks.OriginalsGoWrong | internal/tools/checkpoint.go:179-190 | a run of ordinary writes reaches both: a touched file without an original, then with one that is not its earliest |
| CheckpointShape.UndoSound | internal/tools/checkpoint.go:219-277 | an undo keeps the turns well formed and every number in them below the counters |
| Checkpoints.Checkpoints.Begin | internal/tools/checkpoint.go:83-103 | the store object's new turn, with its clipped label and no second empty turn |
| Checkpoints.Checkpoints.Before | internal/tools/checkpoint.go:107-131 | recording a path updates turns, index, originals and bytes together, trims, and says whether it was new |
| Checkpoints.Checkpoints.Discard | internal/tools/checkpoint.go:134-160 | retracting a failed edit takes the change out of the turn, the index, the originals and the bytes |
| Checkpoints.Checkpoints.After | internal/tools/checkpoint.go:163-175 | a successful edit sets what the tool left, in the change object every table shares |
| Checkpoints.Checkpoints.TrimLocked | internal/tools/checkpoint.go:179-190 | the trimming loop over the turn objects reaches the trimmed store |
| Checkpoints.Checkpoints.Undo | internal/tools/checkpoint.go:219-277 | refusals leave store and files alone; otherwise every file is put back last change first and the turn and its accounts go, failed restores left unadjusted |
| Workspace.Workspace.WriteFileAtomic | internal/tools/workspace.go:375-392 | a write snapshots the file, replaces its bytes keeping its mode, and records or retracts the change |
| Workspace.Workspace.CreateExclusive | internal/tools/workspace.go:336-369 | a create never overwrites; one that fails once its file exists, on closing it or on both writing it and removing it again, leaves it there unrecorded, with whatever it holds by then |
| Workspace.Workspace.RemoveFile | internal/tools/workspace.go:470-494 | a remove snapshots the file first and records or retracts the change |
| Workspace.Workspace.RollBack | internal/tools/patch.go:570-588 | the rollback loop goes through the checkpoint store like any other edit, last step first |
| Workspace.Workspace.ExecutePlan | internal/tools/patch.go:563-619 | executing a plan changes disk and store as the run of tool operations it lists, so every theorem about runs covers it |
| PatchPlan.AllOrNothing | internal/tools/patch.go:563-619 | for every plan and every way its steps may fail: applied, the planned contents and nothing else; rolled back cleanly, at every path exactly the content and mode that is said; and no path outside the plan is touched either way |
| PatchPlan.CleanExactlyUnlessLeftBehind | internal/tools/patch.go:563-619 | a clean rollback gives every content back exactly unless the failing step was a create that left its file where there had been none; then that file, with what was left in it, is the only one too many |
| PatchPlan.ModesAfterRollback | internal/tools/patch.go:570-588 | and every mode, but for exactly the files a step had removed: those get the default mode, or that of a file left in their place |
| PatchPlan.RollbackFallsShort | internal/tools/workspace.go:350-366 | a plan where both happen: a deleted file comes back with another mode and a created one stays behind |
| PatchPlan.PlanPatch | internal/tools/patch.go:509-560 | the planning loop, its refusals in order, against the plan of each entry |
| PatchPlan.PlanMeaning | internal/tools/patch.go:509-560 | an accepted plan does what each patch asks, entry by entry: an add makes its content where nothing was, a delete takes away what was there, an update becomes what the patch engine says, in place or where it is moved to; and planning fails for the first patch with a cause, with that cause, and for nothing else |
| PatchPlan.StandsExactlyIfSame | internal/tools/pathlock.go:90-111 | what was planned for a file still stands exactly when the file reads as it did then, or could not be read then and is not there now |
| PatchPlan.PlannedThenApplied | internal/tools/pathlock.go:98-111 | a plan that still fits after approval is applied all or nothing, though the disk may have changed elsewhere: every patch is carried out, or every path is as a rollback leaves it; and no file that no patch mentions is touched |
| Compaction.FindCut | internal/runtime/compact.go:71-81 | the backward search finds the start of the keep-th most recent user turn, or that there are not so many |
| Compaction.TranscriptEvents | internal/runtime/compact.go:147-187 | the summarizer's input: summaries in place of what they cover, every uncovered event, in order |
| Compaction.MakeSummary | internal/runtime/compact.go:218-266 | the range is the window's time span, and exactly the events after the window inside it that no rolled-up summary spans are excluded |
| Compaction.Compact | internal/runtime/compact.go:41-126 | one compaction: every refusal leaves the log alone, success cuts where the turns to keep start and appends one event whose summarizer read the window's transcript |
| Compaction.DecideMeans | internal/runtime/compact.go:42-118 | it cuts where the turns to keep begin, keepTurns of them and at least one; there is nothing to compact exactly when there is no such place with anything new before it; no text, and a clock that is behind, each exactly when that is the cause |
| Compaction.ProseIsTheTexts | internal/runtime/compact.go:195-212 | what is recorded of an answer is its texts that are not empty, every one, in order, and nothing else |
| Compaction.WindowIsCovered | internal/runtime/compact.go:218-248 | every event of the window is covered by the summary made of it, unless a later event shares its reference |
| Compaction.CutKeepsCallWithResult | internal/runtime/compact.go:61-85 | a tool call whose result comes before the next prompt is on the same side of the cut as the result, which is itself never taken for a prompt |
| CompactionRuns.RunsAreRecorded | internal/runtime/compact.go:218-266 | over any run each summary was made from the window before its cut, and ends before it was recorded |
| CompactionRuns.OnlyTheWindowIsCovered | internal/runtime/compact.go:228-248 | no event outside a compaction's window, recorded before or after it, becomes covered by it, unless that event arrived late itself |
| CompactionRuns.CoveredIsReached | internal/runtime/compact.go:147-187 | an event that did not arrive late and that a summary covers was read by its summarizer, or is in a summary that was |
| CompactionRuns.LostExactlyIfLate | internal/runtime/compact.go:41-266 | over any run and with any clock, an ordinary event whose reference is its own is shown raw, or reaches a summary no other replaced, if and only if no summary recorded before it spans its time |
| CompactionRuns.NothingIsLost | internal/runtime/compact.go:41-266 | whatever its reference and whatever happens to others, an event that did not arrive late is shown raw or reached, through summarizer inputs, by a summary no other replaced |
| CompactionRuns.SurvivesExactlyIfRead | internal/runtime/compact.go:147-187 | and any event, late or not, exactly when no summary covers it or some summarizer was handed it |
| CompactionRuns.CoveredOnArrivalIsLost | internal/runtime/compact.go:154-187 | an event that a summary covers when it is recorded is never handed to a summarizer |
| CompactionRuns.NothingIsLostInClockOrder | internal/runtime/compact.go:41-266 | in particular when timestamps never decrease |
| CompactionRuns.NewestIsLostIffCovered | internal/runtime/compact.go:154-170 | at the moment it is appended, and whatever its reference, an event is lost exactly when a recorded summary covers it: spans its time and does not exclude its reference |
| CompactionRuns.LateArrivalIsLost | internal/runtime/compact.go:239-248 | which does happen: a run with an out-of-order timestamp that loses an event |
| CompactionRuns.TwinIsLostLater | internal/runtime/compact.go:234-248 | and of two late events with one reference the second is still shown when it arrives and lost by the next compaction |
| PathLocks.SortedIs | internal/tools/pathlock.go:68-70 | the keys are locked in ascending order, each once, and are exactly the paths asked for |
| PathLocks.WorksUnderItsLocks | internal/tools/pathlock.go:63-89 | a tool finishes its work only while it holds every path it asked for |
| PathLocks.LocksWhatItAsks | internal/tools/pathlock.go:63-89 | and the paths it locks are those it asked for, over every run |
| PathLocks.MutualExclusion | internal/tools/pathlock.go:30-89 | for any number of tools locking any paths, with cancellation at any wait, no two hold the same path |
| PathLocks.EntryExactlyWhileUsed | internal/tools/pathlock.go:30-61 | a path has an entry exactly while some tool holds or waits for it, and the entry's count is their number |
| PathLocks.ReleaseActsOnItsLock | internal/tools/pathlock.go:49-55 | a release finds the very lock object that was acquired, never a missing entry, and never blocks |
| PathLocks.DoneHoldsNothing | internal/tools/pathlock.go:71-89 | a tool that returned, cancelled or not, holds nothing and is counted nowhere |
| PathLocks.NoDeadlock | internal/tools/pathlock.go:63-89 | while any tool is unfinished some unfinished tool can go on uncancelled |
| PathLocks.EveryToolFinishes | internal/tools/pathlock.go:63-89 | every run is bounded by the tools' remaining steps, and where it stops all tools are done and the map is empty |
| Scheduler.SlotsAreBounded | internal/server/scheduler.go:237-324 | at most MaxConcurrent slots are held; each start takes at most one and has given it back by the time it is over, on every path |
| Scheduler.OnePerWorker | internal/server/scheduler.go:304-316 | at most one scheduled start per worker waits for a slot and at most one run per worker is going |
| Scheduler.MarksAreOwned | internal/app/workers.go:227-243 | the waiting and running marks name exactly the workers that are, so none is shut out by a stale mark |
| Scheduler.ExactlyOneAnswer | internal/server/scheduler.go:249-292 | a start's goroutine says exactly one of started and failed, and start returns that |
| Scheduler.StopIsFinal | internal/server/scheduler.go:107-124 | once stop has returned no run is going and none ever starts, whatever is called afterwards, although cron may fire after the cancellation and a cancellation may come between a check and its count |
| Scheduler.NothingIsStuck | internal/server/scheduler.go:237-324 | while a start is unfinished something can go on: the mutex holder, or the holder of a slot when all are taken |
| Scheduler.EveryStartReturns | internal/server/scheduler.go:237-324 | from any reachable state the starts take a bounded number of steps, and where none can go on each has returned exactly one of a run and an error |
| Scheduler.StartedRunsAreFound | internal/server/scheduler.go:256-286 | at any time a run that was announced, and whose record did not fail to be appended, is live or in the log |
| Scheduler.LookUpFindsIt | internal/server/worker.go:177-195 | so looking such a run up among the live ones and then in the log finds it, whatever happens in between |
| SchedulerAnswers.ErrorsHaveCauses | internal/server/scheduler.go:237-324 | a start that has returned failed exactly if at one of its steps the workspace could not be opened, it was a request and every slot was taken, it was scheduled and the worker was waiting already, the scheduler had stopped, or the worker could not be loaded, had a run going or lost its session; and otherwise it has its run |
| SchedulerAnswers.RequestsNeverWait | internal/server/scheduler.go:297-303 | a request never waits for a slot |
| SchedulerAnswers.CancellingReleases | internal/server/scheduler.go:317-323 | cancelling lets go of everyone who waits for a slot |
| SchedulerAnswers.LockExcludes | internal/server/scheduler.go:92-105 | while one start holds the lock no step but its own changes what the lock guards |
| SchedulerAnswers.NothingIsAddedAfterStop | internal/server/scheduler.go:94-115 | once stop has had the lock nothing is added to the wait group, so its wait never races an addition |
| SchedulerAnswers.CronHasEnded | internal/server/scheduler.go:107-115 | once stop has returned every start that cron made has returned, and cron makes no more |
| SchedulerAnswers.StopGoesOn | internal/server/scheduler.go:107-115 | stop goes on whenever no start can, each of its steps bringing it nearer to returning |
| CronEntries.CronTable.Register | internal/server/scheduler.go:174-212 | an unchanged worker keeps its job, a changed one gets a new one, a bad schedule loses its entry, and only a new worker catches up |
| CronEntries.CronTable.Rescan | internal/server/scheduler.go:141-170 | after a rescan cron has exactly one job for each worker found whose schedule parses, unchanged ones undisturbed, and none besides |
| CronEntries.RegisteredMeans | internal/server/scheduler.go:174-201 | what registering leaves of a worker: its entry as it was if hash, expression and time zone are unchanged, else one with just those found, and none if the schedule does not parse |
| CronEntries.MatchesMeans | internal/server/scheduler.go:174-201 | one job for each worker entered, the one its entry names, and no others |
| LiveRuns.AddWakesEveryone | internal/server/scheduler.go:222-231 | an addition wakes every watcher that waits, whatever it had seen; `LiveRun.Add` is proved to be that addition and to keep what every watcher saw true |
| LiveRuns.AddedIsDelivered | internal/server/worker.go:199-228 | no event is missed: whatever happens after it was added, a watcher that waits unwoken, or whose stream ended well, has sent it |
| LiveRuns.SentInOrder | internal/server/worker.go:199-228 | every watcher has sent a prefix of the run's events: from the start, each once, in order |
| LiveRuns.NoMissedWakeUp | internal/server/worker.go:199-228 | a watcher that waits and is not woken has sent everything and the run goes on |
| LiveRuns.EndsWithFinished | internal/server/worker.go:218-221 | a stream ends well only after the Finished event, which is its last and only one |
| LiveRuns.FailsExactlyIfGivenUp | internal/server/worker.go:199-228 | a stream fails exactly if one of its sends failed or its reader went away while it waited |
| LiveRuns.OnlyAdditionsWake | internal/server/worker.go:199-228 | a watcher is woken only by what was added since it last looked |
| LiveRuns.WatchersFinish | internal/server/worker.go:199-228 | once the run is over no watcher is blocked and each of its steps brings it nearer to its end |
| CircuitBreaker.Breaker.Allow | internal/breaker/breaker.go:41-52 | a call is let through exactly when closed or cooled down with no trial out, and retryIn points at the end of the cooldown |
| CircuitBreaker.Breaker.Failure | internal/breaker/breaker.go:67-82 | a failure opens the breaker at the threshold or reopens it after a failed trial, and reports the streak and the cooldown |
| CircuitBreaker.OpenExactlyFromThreshold | internal/breaker/breaker.go:41-90 | over any history the breaker is open exactly when the failures since the last success reach the threshold |
| CircuitBreaker.OpensAtTheThresholdthFailure | internal/breaker/breaker.go:67-82 | a closed breaker opens exactly at the threshold-th consecutive failure |
| CircuitBreaker.CooldownDoubles | internal/breaker/breaker.go:70-81 | after k failed trials the cooldown is min(15s*2^k, 5min), and a trial runs only in an open breaker |
| CircuitBreaker.CooldownBounds | internal/breaker/breaker.go:29-32 | open implies a cooldown between 15 seconds and 5 minutes |
| CircuitBreaker.OneTrialAtATime | internal/breaker/breaker.go:41-52 | between a granted trial and the next outcome every caller is refused, however late |
| CircuitBreaker.ClosedUntilCooldownEnds | internal/breaker/breaker.go:41-83 | before the cooldown ends nobody is let through, whatever stale outcomes arrive, short of a success |
| CircuitBreaker.AllowsExactly | internal/breaker/breaker.go:41-90 | over any history exactly the callers are let through that should be: too few failures in a row, or the doubled cooldown since the last opening over and no trial out |
| ModelFallback.FallbackModel.Try | internal/runtime/fallback.go:87-118 | one model: what it yields before its stream ends, the consumer stops or an error comes, and exactly one verdict to its breaker |
| ModelFallback.FallbackModel.Pass | internal/runtime/fallback.go:65-80 | one pass over the chain: who was asked, who was tried, and what each breaker was told |
| ModelFallback.FallbackModel.GenerateContent | internal/runtime/fallback.go:58-83 | a whole call, for every chain, breaker state, model and consumer |
| ModelFallback.OneModelAnswers | internal/runtime/fallback.go:58-118 | all responses come from the last model tried, in its order, and are marked exactly when that is a fallback |
| ModelFallback.TriedOnceInOrder | internal/runtime/fallback.go:65-80 | each model is tried at most once, in order, and exactly those let through are |
| ModelFallback.ForcedOnlyWhenNoneAllowed | internal/runtime/fallback.go:61-64 | an open breaker is overridden only when every breaker in the chain refused |
| ModelFallback.NothingAfterTheEnd | internal/runtime/fallback.go:92-116 | nothing is yielded after the consumer stops or after an error |
| ModelFallback.FailsOnlyWhenAllFail | internal/runtime/fallback.go:78-82 | the call fails altogether exactly when its last pass asked every model and each one let through failed before producing anything; it then yields just their errors, in order |
| ModelFallback.MovesOnExactlyFromFailures | internal/runtime/fallback.go:72-106 | a call moves on from a model exactly when it failed before producing anything with the turn still wanted, and that is what its breaker hears and the call keeps |
| ModelFallback.YieldsWhatTheModelSaid | internal/runtime/fallback.go:87-118 | a model that settles the call is given on as long as the consumer goes on, then the error that ended it, if one did; the breaker hears a failure, no verdict for a cancelled turn, or that it answered |
| ModelFallback.SomebodyIsTried | internal/runtime/fallback.go:61-77 | no chain is failed unasked |
| ModelFallback.BreakersAfterACall | internal/runtime/fallback.go:65-118 | what a call does to each breaker: nothing to one not tried, in use again if it answered, as it was if the turn was cancelled, and let through by nobody for the cooldown if it was let through and failed |
| ModelFallback.NoTrialLeftBehind | internal/runtime/fallback.go:87-118 | a call that ran alone leaves no trial reserved |
| ModelFallback.TrialMeansInFlight | internal/runtime/fallback.go:58-118 | over concurrent calls a reserved trial belongs to the call it was granted to, which is still in flight |
| ModelFallback.CallIsOneFlight | internal/runtime/fallback.go:58-118 | and each call of the chain is one such flight for each breaker: it enters at most once, is forced only if refused, and leaves exactly once if it went ahead |
| ModelFallback.NeverStuck | internal/breaker/breaker.go:41-90 | so no breaker stays half open: with nothing in flight a caller is let through once the cooldown ends |
| Grep.PrefilterIsSound | internal/tools/grep.go:80-105 | a file the literal whole-file check rejects has no matching line, case-insensitively too |
| Grep.FileMatchesMean | internal/tools/grep.go:212-261 | a file's matches are exactly the lines that match, numbered and in order; a file that cannot be read, is too large or has an early zero byte has none |
| Grep.GrepFile | internal/tools/grep.go:212-261 | a file's search returns its first max matches, line numbers and endings right, though it stops early and skips by the prefilter |
| Grep.CappingChangesNothing | internal/tools/grep.go:196-206 | capping each file changes nothing in the first max of all files' matches |
| Grep.Gather | internal/tools/grep.go:200-205 | the consumer's loop takes matches up to max and says when it is full |
| GrepSchedule.ParallelEqualsSequential | internal/tools/grep.go:153-208 | for every schedule of producer, workers and consumer a search that returns has the first max matches of all files in walk order |
| GrepSchedule.NeverStuck | internal/tools/grep.go:153-208 | until then some step can be taken, whatever the sizes of the queue and the pool |
| GrepSchedule.SearchesEnd | internal/tools/grep.go:153-208 | no schedule is longer than 6 steps a file and 2; where nothing can be done the consumer has returned, the producer has stopped and every worker has given its place back |
| GrepSchedule.FewAreInFlight | internal/tools/grep.go:153-157 | at most the workers scan at once, and until the search returns no file is touched further on than the queue's length from those gathered |
| Globs.GlobToRegex | internal/tools/pathpolicy.go:126-148 | the index loop writes the expression of each glob piece |
| Globs.CompiledReadsBack | internal/tools/pathpolicy.go:126-148 | the text written is a valid expression and reads back as the pieces of what was compiled, metacharacters escaped |
| Globs.CompiledMeans | internal/tools/pathpolicy.go:126-148 | on newline-free paths it accepts exactly what a direct matcher accepts for the text compiled, which is the bytes of the glob |
| Globs.CompilingKeepsMeaning | internal/tools/pathpolicy.go:126-148 | so it accepts for every path just what the glob itself matches if and only if the glob is ASCII |
| PathPolicy.NewPathMatcher | internal/tools/pathpolicy.go:39-80 | the rules made from a list of patterns, or the first pattern refused |
| PathPolicy.RefusesTheFirstUnusable | internal/tools/pathpolicy.go:39-50 | a list is refused exactly for its first pattern that holds a double quote or a newline |
| PathPolicy.Match | internal/tools/pathpolicy.go:83-94 | the first rule that matches gives the pattern |
| PathPolicy.MatcherMeans | internal/tools/pathpolicy.go:39-94 | a path matches some rule exactly when some pattern, read by bytes, blocks it: absolute, by name anywhere, or under a root, itself or an ancestor; with ASCII patterns, exactly when one blocks it as written |
| PathPolicy.DescendantsAreBlocked | internal/tools/pathpolicy.go:57-70 | everything under a blocked path is blocked by the same rule |
| PathPolicy.TrailingSlashIsIgnored | internal/tools/pathpolicy.go:51-52 | a slash at the end of a pattern makes no difference to what it blocks |
| TomlLines.CommentStart | internal/config/locale.go:125-141 | the scan for a comment outside strings |
| TomlLines.OneKeyPerLine | internal/config/locale.go:103-105 | no line assigns two different keys |
| TomlLines.KeyForm | internal/config/locale.go:103-106 | a line has an assignment of a key exactly when it begins with it and an equals sign, white space apart |
| TomlLines.TableForm | internal/config/locale.go:15-16 | a line is a table's exactly when it has that form, brackets doubled or not, with a comment or none |
| TomlLines.TableNameIsRead | internal/config/locale.go:15-100 | the table is the one named between the brackets, white space apart, and a header unless they are doubled |
| TomlLines.AssigningIsRead | internal/config/locale.go:103-141 | an assignment is read as its value, with its comment, by its key, however it is spaced |
| TomlLines.StringsAreClosed | internal/config/locale.go:125-141 | quotes, number signs and, in literal strings, backslashes inside a string neither end it nor start a comment |
| TomlLines.AssignmentReadsBack | internal/config/locale.go:106-112 | a written assignment is read back with its value, indentation and comment |
| TomlEdits.SetTomlKey | internal/config/locale.go:80-122 | the edit of the document: replace, insert after the table's text, or append the table |
| TomlEdits.RemoveTomlKey | internal/config/agentmodels.go:46-60 | removal of the first assignment of the key in the table |
| TomlFrames.SetThenLookup | internal/config/locale.go:80-122 | after a set the table's key has the value, for every document |
| TomlFrames.SetKeepsOtherLookups | internal/config/locale.go:80-122 | and every other lookup is as it was |
| TomlFrames.OtherLinesKeepTheirOrder | internal/config/locale.go:80-122 | one line changes: the first assignment of the key in the table is replaced where it stands, or one is put in just after the table's last text, or the new table follows all there is; the other non-blank lines stay as they were |
| TomlFrames.RemoveThenLookup | internal/config/agentmodels.go:46-60 | a key assigned at most once is gone after a removal |
| TomlFrames.RemoveKeepsOtherLookups | internal/config/agentmodels.go:46-60 | and every other lookup is as it was |
| TomlFrames.RemoveUndoesSet | internal/config/agentmodels.go:46-60 | remove after set restores the document exactly when its table was there without the key |
| TomlSettings.RemoveEmptyTable | internal/config/modelsettings.go:159-181 | the header goes only when nothing but blanks and comments follows, with at most one blank line |
| TomlSettings.WithoutEmptyMeans | internal/config/modelsettings.go:159-181 | the header goes exactly when no line up to the next table says anything, with one of two blank lines it leaves together; every other line stays |
| TomlSettings.DroppingKeepsLookups | internal/config/modelsettings.go:159-181 | dropping it changes no lookup |
| TomlSettings.BusyTableStays | internal/config/modelsettings.go:168-175 | a table with an assignment left keeps its header |
| TomlSettings.EditSettings | internal/config/modelsettings.go:117-127 | the fold over the setting keys, on the text of the file |
| TomlSettings.SavingMeans | internal/config/modelsettings.go:117-127 | saving leaves exactly the set keys with their values and changes no other lookup |
| SessionStorage.Storage.CreateSession | internal/session/session.go:147-172 | a new session is written, then made active |
| SessionStorage.Storage.AddMessage | internal/session/session.go:175-207 | a message is appended to the active session's log, memory and metadata, and names an untitled session |
| SessionStorage.Storage.SetLastTurn | internal/session/session.go:324-342 | the turn is recorded in memory for the active session and in the metadata |
| SessionStorage.Storage.Snapshot | internal/session/snapshot.go:48-80 | a snapshot is written before the one it replaces is removed, refusals leave the store alone |
| SessionStorage.Storage.Open | internal/session/snapshot.go:86-145 | an ID resumes in place, a snapshot by name or ID is branched and never made active |
| SessionSnapshots.SnapshotsNeverChange | internal/session/snapshot.go:48-208 | no operation changes a snapshot at any of its file steps, with exactly one exception: a replace that cannot remove the old metadata but removes the transcript under it |
| SessionSnapshots.CopiesAreWhole | internal/session/snapshot.go:172-202 | at every step of a copy its target is invisible or whole, and an interrupted copy stays invisible |
| SessionSnapshots.ReplaceAlwaysHasOne | internal/session/snapshot.go:72-79 | at every step of a replace a snapshot of that name is on disk |
| SessionSnapshots.NamesStayUnique | internal/session/snapshot.go:48-80 | names stay unique exactly when the replaced metadata could be removed |
| SessionSnapshots.StaysSound | internal/session/snapshot.go:86-145 | the active session is never a snapshot, after any operation |
| SessionSnapshots.GoneStays | internal/session/snapshot.go:48-145 | an ID that is gone never comes back |
| SessionSnapshots.SnapshotsSurviveRuns | internal/session/snapshot.go:48-208 | over any run a snapshot still there has the transcript and the name it was saved with |
| SessionTranscripts.TranscriptIsWhatWasTold | internal/session/session.go:175-207 | over any run a session's transcript and event log are what they were and then exactly what was added to that session since, in order |
| SessionTranscripts.MemoryMatchesDisk | internal/session/session.go:147-322 | over any run, whatever fails, the transcript in memory of the session being continued is the one on disk |
| SessionTranscripts.MetadataMatchesDisk | internal/session/session.go:147-342 | and its metadata too, when no file step fails |
| SessionTranscripts.EditsMean | internal/session/session.go:175-342 | what an operation does to the title and the last turn of the session being continued, and that it leaves the rest of its metadata alone |
| SessionTranscripts.FirstPromptNames | internal/session/session.go:199-201 | a conversation without a title is called after its first prompt, and no later one changes that |
| SessionTranscripts.SaveMeans | internal/session/snapshot.go:48-80 | a snapshot is made exactly when the name is valid and free, or may be replaced, the source holds anything and the copy succeeds; it has the source's transcript, title and workspace, the one it replaces goes, and nothing else changes |
| SessionTranscripts.OpeningASnapshot | internal/session/snapshot.go:86-145 | a snapshot that is opened, by its name or, where that names none, its ID, starts a new session with its transcript and title, and leaves everything else alone |
| SessionTranscripts.OpeningASession | internal/session/snapshot.go:86-98 | opening a session continues it in place, one without a workspace being adopted; anything else opens nothing |
| SessionTranscripts.IdsAreSafe | internal/session/session.go:31-143 | the exact form of IDs, none of which is hidden or holds what means something in a path |
| SessionTranscripts.NamesAreNoIds | internal/session/snapshot.go:14-27 | every ID made for a session is valid and none can be a snapshot's name |
| SharedOpening.OneOpenerPerDirectory | internal/server/server.go:118-174 | at most one opener call per directory is in flight, and none for an open directory |
| SharedOpening.OpeningAndOpenAreDisjoint | internal/server/server.go:132-146 | `opening` and `workspaces` never share a key |
| SharedOpening.WaitersAgree | internal/server/server.go:140-146 | all who waited for one opener call and did not give up get the same result |
| SharedOpening.WaitersAreServed | internal/server/server.go:140-174 | nobody waits in vain |
| SharedOpening.NothingOpensAfterClose | internal/server/server.go:86-100 | after Close nothing is registered, then or ever |
| SharedOpening.NeverClosedTwice | internal/server/server.go:86-100 | no workspace is closed twice |
| SharedOpening.EveryWorkspaceIsClosedOnce | internal/server/server.go:151-190 | after Close every workspace opened before or meanwhile has been closed exactly once |
| SharedOpeningAnswers.EveryCallIsAnswered | internal/server/server.go:118-146 | a caller is refused at once if the server has closed, gets an open directory's workspace at once, and otherwise shares the opening in flight or starts one; it stops waiting unanswered exactly if it gives up |
| SharedOpeningAnswers.OutcomesHaveCauses | internal/server/server.go:149-174 | an opening was busy, or failed, exactly if its opener said so; else those who wait get the workspace exactly if the server was not closed when it was settled |
| SharedOpeningAnswers.WorkspacesAreTheirOwn | internal/server/server.go:118-174 | the workspace of a directory, or of an opening, is the one opened for it |
| SharedOpeningAnswers.ClosedExactlyOnceAsked | internal/server/server.go:86-100 | the server is closed exactly once somebody has closed it |

## Left out

- LLM providers, HTTP, web search, MCP, telemetry, the terminal and desktop interfaces, sandboxes and the command policy.
- Directories, symbolic links, temporary files and fsync: a write replaces a file's bytes in one step or fails without effect; the mode a created file gets is a parameter.
- Display names and times of turns, `List`, `SessionDiff` and the diff statistics of a patch: they only read the modelled state.
- Workspaces without a checkpoint store, and two tools inside one file operation at once: a tool operation is one step of a run.
- The other patch syntax, between begin and end markers (`internal/tools/patch.go:160-256`): it feeds the same hunks to the same engine.
- Which paths may be written: `PatchPlan.PlanPatch` takes it as a parameter.
- SHA-256 is modelled as telling all contents apart: the store keeps the content itself where the source keeps its hash.
- PatchEngine.TextRoundTrip: for texts without carriage returns, which `PatchEngine.CRLFCommutes` carries over to CR LF texts that have a newline.
- UnifiedDiffRoundTrip.PrintParseRoundTrip: for diffs whose text holds no CR LF and no begin-patch marker, as such a text goes to another parser or is normalised first.
- CheckpointUndo.UndoIsInverse: for runs without outside edits, files too large for a snapshot, failed restores and creates that fail after their file exists; `CheckpointHistory.UndoRefusesExactlyOnDrift` covers the others.
- CheckpointTurns.RestoreTouched: a restore that fails is one whose path is among the failing ones, and has no effect at all.
- CompactionRuns.LostExactlyIfLate: only compactions record summaries, event IDs are distinct, and "shown raw" is by the rule the source applies to the summarizer's input; the prompt builder of the agent kit is not part of this model.
- Compaction.Compact: one summarizer answer per call, without its cost, the branch of the event, inline data and nil parts; an event without content has no parts.
- PathLocks.NoDeadlock: the work between acquiring and releasing is one step that ends.
- PathLocks, Scheduler, LiveRuns, GrepSchedule and SharedOpening are step systems on values: their subject is every interleaving, which a method run alone does not have. Memory ordering below the mutexes and channels is not part of this model.
- Scheduler: opening the workspace, reading a worker, creating its session and its turn are steps that may fail or end in any order; the rescan loop's own count in the wait group, the records of skipped runs and the time a run takes are left out.
- Scheduler.EveryStartReturns: a run's turn is one step that ends, and no further starts are asked for meanwhile.
- Scheduler.StartedRunsAreFound: a record that cannot be appended is lost by the source too, which only warns.
- CronEntries.CronTable.Rescan: each worker appears once in a scan, as its directory makes it do; parsing schedules and computing whether a run was missed are parameters.
- LiveRuns.WatchersFinish: for watchers whose sends do not fail and that are not cancelled.
- ModelFallback.FallbackModel.GenerateContent: run alone, so a breaker changes only by its own calls; concurrent calls are the subject of `ModelFallback.TrialMeansInFlight`, with `ModelFallback.CallIsOneFlight`. Model names, nil responses, log lines and the request are left out, and the consumer is any function of what it was given so far.
- CircuitBreaker.Breaker.Allow: the clock is a parameter of each call; counting failures does not overflow.
- Grep.PrefilterIsSound: case folding is any function on single characters, and other regular expressions have no prefilter, as in the source. Walking directories and cutting a long line for display are parameters.
- GrepSchedule.ParallelEqualsSequential: for searches nobody cancels from outside.
- Globs.CompilingKeepsMeaning: patterns and paths are valid UTF-8 and paths hold no newline; case-insensitive file systems are left out, and the reader of expressions knows only the syntax the compiler uses.
- PathPolicy.MatcherMeans: home expansion and the resolution of symbolic links in a pattern are parameters.
- TomlFrames.SetThenLookup: lines are read one at a time, so a multi-line string that contains what looks like a table or an assignment is read as one. Keys are bare or one double-quoted string, values have their strings closed, and a table name that holds `]` is not recognised by the source either.
- TomlSettings.SavingMeans: each key is assigned at most once in its table, as TOML requires. The check of the result with a TOML decoder, validating numbers and replacing the file are left out.
- SessionStorage.Storage.Snapshot: for stores whose names are unique and whose metadata can be read, so that there is one snapshot to find; the older layout of one file for a session, times, agents and counts of messages are left out.
- SessionStorage.Storage.Open: likewise.
- SessionStorage.Storage.AddMessage: an append that fails writes nothing; records appended after a torn line are not part of this model.
- The image cache of a workspace (`internal/server/server.go:205-233`), usage sums and steering queues: they would only add easy members.
