# Download queue: a Dafny model

The system is a desktop front end to an external video downloader. In
`workers.py`, a `DownloadManager` keeps these pieces of state:

- a registry of task records, keyed by an integer id it hands out;
- an ordered queue of waiting ids;
- the set of ids that have a running `DownloadWorker`;
- a concurrency limit.

Each worker runs one attempt of one task. It builds a file-name prefix and a
format selector from the task, and reads the downloader's output line by
line. From those lines it reports progress and metrics. Once its process
has started, it ends the attempt with exactly one outcome: paused, canceled
(after deleting partial files) or finished with an exit code. Each outcome frees a slot, and the finished and
canceled outcomes admit more waiting tasks. In `ui.py`, the main window
keeps one card per task. It keeps shown progress from going down, caps it
at 99 until the task is done, and moves a card to the finished list or
removes it. It also builds the list of qualities offered for a video.

The model has these modules:

- `Options`: an option type.
- `Decimal`: integers written as decimal text.
- `TaskStatus`: the status literals.
- `WorkerNaming`: the safe prefix, the format selector, and the six cleanup
  globs with a `*` matcher.
- `WorkerOutput`: the unit table, the per-line handler, the read loop, and
  exit reconciliation.
- `Scheduler`: each locked manager method as a step function on a `Sched`
  value, with the lemmas.
- `Manager`: class `DownloadManager`. Its fields are updated in place, and
  every method is proved to produce `Scheduler`'s step of the old state.
- `Cards`: the card bookkeeping as a `Board` value with step functions, and
  classes `Card` and `MainWin` proved to follow those steps.
- `Quality`: the resolution list and the height read back from it.

Some behaviours of the code are easy to misread. The model follows the code
in each of them:

- A line with 37.5% of 120 MiB reports 44.4 MB downloaded, not 45.0. The
  code multiplies by the truncated integer percentage.
- With limit 1, enqueuing A and then B with priority starts A at once,
  because the slot is free. B waits at the front of the queue and is
  admitted when A finishes (`Scheduler.PriorityScenario`).
- Pausing does not put a task back in the queue; only `resume` does. Resume
  does no check, so an active id can also be queued.
- Creating the output directory and starting the process both happen
  before the worker's guarded block (workers.py:168 and 198, the `try` at
  204). If either fails, the thread ends with no signal at all
  (`WorkerOutput.RunEndsWithOneOutcome`). Only a missing executable gives a
  failure outcome (code 127). A task whose worker ends silently keeps its
  slot: only an outcome for its own id frees it
  (`Scheduler.OtherOutcomesKeepActive` and the lemmas beside it).
- With a height h, the fallback after "+bestaudio/" is capped as well:
  `best[height<=h]`, not plain `best` (`WorkerNaming.FormatSelectorCeiling`).
- With a slot free, resuming a task that is still downloading starts a
  second worker for it. The slot entry is overwritten, so the running count
  does not include the first worker (`Scheduler.ResumeOfActiveRestarts`).
- A title with no safe character other than spaces, or with none at all,
  gives the bare prefix "ph_" (workers.py:101). That task's cleanup then
  matches the ".part" files named with every task's prefix
  (`WorkerNaming.BlankTitleCleansEveryPart`).

## Model

| member | source | states |
|---|---|---|
| Scheduler.ClampLimit | workers.py:287 | the limit is at least 1, and any n ≥ 1 is kept as is |
| Scheduler.Init | workers.py:285-293 | the manager starts with no tasks, no queue, no active ids, next id 1, limit max(1, n), and satisfies the state invariant |
| Scheduler.NewTask | workers.py:303-304 | defined by the body; characterised by `EnqueueFreshId`: the record is "queued", with progress 0, an empty path, and "—" for an empty title |
| Scheduler.WorkerFor | workers.py:350 | defined by the body; characterised by `AdmitLogsPopped`: the worker is built from the record's url, directory, title and height and the fragment count |
| Scheduler.AdmitOne | workers.py:346-359 | one admission turn drops the queue front, keeps the id set, the next id and the limit, and adds at most one active id |
| Scheduler.AdmitOneKeepsValid | workers.py:346-359 | one admission turn preserves the state invariant |
| Scheduler.AdmitOneStarts | workers.py:346-352 | popping an id that has a record makes it active and "Загрузка" |
| Scheduler.AdmitOneTasks | workers.py:347-352 | popping an id changes only that id's record, to "Загрузка" |
| Scheduler.Admit | workers.py:343-359 | admission changes nothing when no slot is free; what is left is a suffix of the queue; the record ids, the next id, the limit and the fragment count are unchanged |
| Scheduler.AdmitStops | workers.py:345-346 | admission ends with an empty queue or a full set of slots |
| Scheduler.AdmitBounds | workers.py:345 | admission never shrinks the active set, and when it starts below the limit it never goes past it |
| Scheduler.AdmitKeepsValid | workers.py:343-359 | admission preserves the state invariant |
| Scheduler.AdmitLast | workers.py:345-346 | with a slot free and a single id waiting, admission is one turn |
| Scheduler.AdmitUnfold | workers.py:345-359 | below the limit with a non-empty queue, admission is one turn followed by admission |
| Scheduler.PoppedCount | workers.py:345-348 | one admission turn consumes exactly one queue entry |
| Scheduler.PoppedPrefix | workers.py:345-348 | the popped ids are the queue front followed by the ids the rest of the admission pops |
| Scheduler.PoppedStep | workers.py:345-348 | one admission turn consumes exactly the queue front, and the popped ids are that front followed by the rest's popped ids |
| Scheduler.AdmitMarksPopped | workers.py:347-355 | after admission, exactly the popped ids that have a record are "Загрузка"; every other record is unchanged |
| Scheduler.AdmitActivatesPopped | workers.py:347-352 | an id is active after admission iff it was active before, or it was popped and has a record (popped ids without a record are discarded) |
| Scheduler.StartEventsIgnoreStatus | workers.py:353-354 | the status event and worker start logged for a popped id do not depend on the status the record had before |
| Scheduler.AdmitLogsPopped | workers.py:353-359 | admission appends to the log, in queue order, a status event with the "Загрузка" record and then a worker start, for each popped id that has a record |
| Scheduler.StartEvents | workers.py:353-359 | defined by the body; characterised by `AdmitLogsPopped` and `StartEventsIgnoreStatus`: one status event and one worker start per popped id with a record, in queue order |
| Scheduler.AdmitFills | workers.py:345 | with distinct queued ids that are not active, admission leaves min(limit, active + queued) tasks active |
| Scheduler.AddTask | workers.py:300-310 | adding a task preserves the state invariant |
| Scheduler.Enqueue | workers.py:299-312 | enqueue preserves the state invariant |
| Scheduler.EnqueueFreshId | workers.py:301-311 | the id handed out is the next id, which no record holds; the next id then moves past it; the record is "queued" with progress 0; the id goes first with priority and last without; one task_added event is logged; afterwards every id is at most the new one |
| Scheduler.RemoveAll | workers.py:321 | the filtered queue holds exactly the elements of the queue other than the id, and is no longer than the queue |
| Scheduler.Cancel | workers.py:314-324 | cancel preserves the state invariant |
| Scheduler.CancelCases | workers.py:314-324 | for an active id: status "canceling", active set and queue unchanged, one worker-cancel request. For a queued id that is not active: every entry of it leaves the queue, status "canceled", one status event. For any other id: nothing changes. In every case no other record changes |
| Scheduler.Pause | workers.py:326-331 | pause acts only on an active id: that status becomes "Пауза" and one worker-pause request is logged, with no status event; the queue and the active set are unchanged |
| Scheduler.Resume | workers.py:333-340 | resume preserves the state invariant |
| Scheduler.Requeue | workers.py:335-339 | defined by the body; characterised by `ResumeCases`: the id goes first in the queue and its record becomes "queued" |
| Scheduler.ResumeCases | workers.py:333-340 | resume of an id with no record changes nothing; otherwise the id is put first in the queue as "queued", with no check, and admission follows |
| Scheduler.ResumeOfActiveDuplicates | workers.py:333-340 | resuming an active task while every slot is taken leaves it both active and queued |
| Scheduler.SetLimit | workers.py:295-297 | setting the limit preserves the state invariant |
| Scheduler.SetLimitNeverEvicts | workers.py:295-297 | the new limit is max(1, n); every active id stays active; if the new limit is not above the active count, nothing starts |
| Scheduler.OnPaused | workers.py:361-368 | the paused handler preserves the state invariant |
| Scheduler.OnProgress | workers.py:371-375 | the record, if any, takes the value; nothing else changes; the progress event is logged whether or not a record exists |
| Scheduler.OnMetrics | workers.py:377-382 | the record, if any, takes the metrics; nothing else changes; the metrics event is logged whether or not a record exists |
| Scheduler.ReleaseKeepsValid | workers.py:361-401 | freeing an id's slot, with or without rewriting that id's record, preserves the state invariant |
| Scheduler.Finish | workers.py:384-390 | the locked part of the finished handler preserves the state invariant |
| Scheduler.FinishShape | workers.py:384-390 | the locked part of the finished handler frees exactly that id's slot and leaves the queue, the record ids and the limit alone |
| Scheduler.Abort | workers.py:395-400 | the locked part of the canceled handler preserves the state invariant |
| Scheduler.FinishStatus | workers.py:389 | defined by the body; characterised by `OutcomeHandlers`: "Готово" for rc 0 and "Ошибка(rc)" otherwise |
| Scheduler.OnFinished | workers.py:384-393 | the finished handler preserves the state invariant |
| Scheduler.OnCanceled | workers.py:395-403 | the canceled handler preserves the state invariant |
| Scheduler.FinishCases | workers.py:384-392 | the locked part of the finished handler leaves the queue, the ids, the limit and every other record and slot alone. With a record, that record gets the new status (and the path when one is reported) and exactly one status event carrying it is logged. Without a record, only the slot is freed |
| Scheduler.AbortCases | workers.py:395-402 | the locked part of the canceled handler leaves the queue, the ids, the limit and every other record and slot alone. With a record, that record becomes "Отменено" and exactly one status event is logged. Without a record, only the slot is freed |
| Scheduler.OnPausedCases | workers.py:361-368 | the paused handler leaves the queue, the ids, the limit and every other record and slot alone; with a record that record becomes "Пауза"; without one only the slot is freed |
| Scheduler.OutcomeHandlers | workers.py:361-403 | each outcome handler removes exactly its own id from the active set and sets its status: "Пауза"; "Готово" for rc 0 and "Ошибка(rc)" otherwise; or "Отменено". A finish with an empty path keeps the old path. A missing record logs nothing. Only the finished and canceled handlers admit |
| Scheduler.RemoveKeyCard | workers.py:367 | removing an id never grows the active set |
| Scheduler.SubsetCard | workers.py:367 | a subset is no larger than its superset |
| Scheduler.CommandsKeepLimit | workers.py:295-359 | enqueue, cancel, pause and resume never take the active count over the limit; a new limit no lower than the active count is respected |
| Scheduler.EnqueueKeepsLimit | workers.py:299-312 | enqueue never takes the active count over the limit |
| Scheduler.ResumeKeepsLimit | workers.py:333-340 | resume never takes the active count over the limit |
| Scheduler.SetLimitKeepsLimit | workers.py:295-297 | a new limit no lower than the active count is respected after admission |
| Scheduler.OutcomesKeepLimit | workers.py:361-403 | the outcome handlers, with the admission that follows, never take the active count over the limit |
| Scheduler.ReleaseKeepsLimit | workers.py:384-403 | admission after a slot is freed keeps to the limit |
| Scheduler.EnqueueIntoFreeSlot | workers.py:299-312 | a task enqueued when a slot is free and nothing waits starts at once as "Загрузка" |
| Scheduler.EnqueueIntoFullSlots | workers.py:299-312 | a task enqueued when every slot is taken only joins the queue, at the front with priority and at the back without |
| Scheduler.FinishHandsSlotOn | workers.py:384-393 | with limit 1, when the only running task finishes, the single queued task takes its slot |
| Scheduler.PriorityScenario | workers.py:299-359 | with limit 1: A is enqueued and runs; B is enqueued with priority and waits; when A finishes, B runs and the queue is empty |
| Scheduler.DistinctTail | workers.py:346 | dropping the front of a queue with distinct ids keeps the rest distinct, and the front does not occur in it |
| Scheduler.DistinctCons | workers.py:309 | putting a new id first keeps the ids distinct |
| Scheduler.DistinctSnoc | workers.py:311 | putting a new id last keeps the ids distinct |
| Scheduler.RemoveAllDistinct | workers.py:321 | filtering an id out of a queue with distinct ids keeps them distinct |
| Scheduler.AdmitOneKeepsTidy | workers.py:346-359 | one admission turn keeps the queue tidy (each waiting id once, none running) |
| Scheduler.AdmitKeepsTidy | workers.py:343-359 | admission keeps the queue tidy |
| Scheduler.EnqueueKeepsTidy | workers.py:299-312 | adding a task and enqueueing keep the queue tidy, because the new id is neither waiting nor running |
| Scheduler.TidyAdmitFills | workers.py:343-359 | from a tidy state within the limit, admission leaves min(limit, active + queued) tasks active |
| Scheduler.EnqueueIsAdmit | workers.py:299-312 | enqueue is adding the task followed by admission |
| Scheduler.AddTaskShape | workers.py:300-311 | adding a task lengthens the queue by one and leaves the active set and the limit alone |
| Scheduler.EnqueueFills | workers.py:299-312 | enqueueing into a tidy state within the limit leaves min(limit, active + queued + 1) tasks active |
| Scheduler.CancelKeepsTidy | workers.py:314-324 | cancel keeps the queue tidy |
| Scheduler.PauseKeepsTidy | workers.py:326-331 | pause keeps the queue tidy |
| Scheduler.SetLimitKeepsTidy | workers.py:295-297 | setting the limit keeps the queue tidy |
| Scheduler.HandlersKeepTidy | workers.py:361-403 | the paused, finished, canceled, progress and metrics handlers keep the queue tidy |
| Scheduler.ResumeBreaksTidy | workers.py:333-340 | with every slot taken, resuming a running or a waiting id makes the queue untidy: a running id waits, or an id waits twice |
| Scheduler.ResumeWhenFull | workers.py:333-345 | with every slot taken, resume of a known id only requeues it |
| Scheduler.RunningQueuedUntidy | workers.py:333-340 | a state where a running id also waits is not tidy |
| Scheduler.RepeatedUntidy | workers.py:333-340 | a state where an id waits twice is not tidy |
| Scheduler.ResumeOfActiveRestarts | workers.py:333-359 | with a slot free, resuming a task that is still downloading pops it again: a second "Загрузка" status event and worker start are logged for it, and it stays active under the same single slot entry |
| Scheduler.AdmitKeepsActive | workers.py:343-359 | admission never takes a slot away |
| Scheduler.EnqueueKeepsActive | workers.py:299-312 | enqueue leaves every running task active |
| Scheduler.RequestsKeepActive | workers.py:314-331 | cancel, pause and the progress and metrics reports leave every running task active |
| Scheduler.ResumeAndLimitKeepActive | workers.py:295-340 | resume and a new limit leave every running task active |
| Scheduler.OtherOutcomesKeepActive | workers.py:361-403 | an outcome for another id leaves a running task active, so only its own outcome frees its slot |
| Manager.DownloadManager.TryStartMore | workers.py:343-359 | the loop leaves the object in the state `Scheduler.Admit` computes from the old state |
| Manager.DownloadManager.SetMaxConcurrent | workers.py:295-297 | the new state is `Scheduler.SetLimit` of the old one, and the invariant holds |
| Manager.DownloadManager.Enqueue | workers.py:299-312 | returns the old next id; the new state is `Scheduler.Enqueue` of the old one, and the invariant holds |
| Manager.DownloadManager.Cancel | workers.py:314-324 | the new state is `Scheduler.Cancel` of the old one, and the invariant holds |
| Manager.DownloadManager.Pause | workers.py:326-331 | the new state is `Scheduler.Pause` of the old one, and the invariant holds |
| Manager.DownloadManager.Resume | workers.py:333-340 | the new state is `Scheduler.Resume` of the old one, and the invariant holds |
| Manager.DownloadManager.OnPaused | workers.py:361-368 | the new state is `Scheduler.OnPaused` of the old one |
| Manager.DownloadManager.OnProgress | workers.py:371-375 | the new state is `Scheduler.OnProgress` of the old one |
| Manager.DownloadManager.OnMetrics | workers.py:377-382 | the new state is `Scheduler.OnMetrics` of the old one |
| Manager.DownloadManager.OnFinished | workers.py:384-393 | the new state is `Scheduler.OnFinished` of the old one |
| Manager.DownloadManager.OnCanceled | workers.py:395-403 | the new state is `Scheduler.OnCanceled` of the old one |
| TaskStatus.ErrorTextShape | workers.py:391 | a status text starts with "Ошибка(" exactly when it is an error status |
| TaskStatus.TextInjective | workers.py:303-399 | different statuses have different texts; in particular "canceled" (queued cancel) and "Отменено" (active cancel) stay distinct |
| TaskStatus.Text | workers.py:303-399 | defined by the body; characterised by `ErrorTextShape` and `TextInjective`: each status has its own literal, and only error statuses start with "Ошибка(" |
| Decimal.NatToString | workers.py:171 | the text of a natural number is non-empty and all digits, with no leading zero unless the number is 0 |
| Decimal.IntToString | workers.py:391 | the text of an integer is non-empty and starts with '-' exactly when the integer is negative |
| Decimal.ParseInt | workers.py:171 | a number can be read back only from non-empty text |
| Decimal.NatRoundTrip | workers.py:171 | reading back the text of a natural number gives the number |
| Decimal.NegativeRoundTrip | workers.py:391 | reading back the text of a negative integer gives the integer |
| Decimal.ParseNegative | workers.py:391 | a minus sign followed by digits reads back as the negated value of the digits |
| Decimal.NonNegativeRoundTrip | workers.py:171 | reading back the text of a non-negative integer gives the integer |
| Decimal.IntRoundTrip | workers.py:391 | reading back the text of an integer gives the integer |
| Decimal.IntToStringInjective | workers.py:391 | different integers have different texts |
| WorkerNaming.KeepSafe | workers.py:101 | the kept characters are all alphanumeric, space, '-' or '_', and no more than the title has; a character occurs in the result exactly when it occurs in the title and is safe |
| WorkerNaming.KeepSafeAppend | workers.py:101 | filtering works piecewise over a concatenation, so the kept characters keep their order |
| WorkerNaming.TrimStart | workers.py:101 | leading spaces are removed: what remains is a suffix, what was cut is all spaces, and what remains does not start with a space |
| WorkerNaming.TrimEnd | workers.py:101 | trailing spaces are removed: what remains is a prefix, what was cut is all spaces, and what remains does not end with a space |
| WorkerNaming.Strip | workers.py:101 | defined by the body; characterised by `StripShape`, `StripEnds` and `StripIdempotent`: `str.strip()` on spaces |
| WorkerNaming.Sanitize | workers.py:101 | defined by the body; characterised by `SafePrefixShape`, `StripKeepsSafe` and `SanitizeIdempotent`: the safe characters of the title, stripped |
| WorkerNaming.SafePrefix | workers.py:101 | defined by the body; characterised by `SafePrefixShape` and the cleanup lemmas: "ph_" followed by the sanitised title |
| WorkerNaming.SafePrefixShape | workers.py:101 | the prefix is "ph_" followed by a slice of the filtered title that has only spaces on each side of it, contains only safe characters, and neither begins nor ends with a space |
| WorkerNaming.StripShape | workers.py:101 | stripping keeps a slice of the text that has only spaces on each side of it |
| WorkerNaming.StripEnds | workers.py:101 | stripped text neither begins nor ends with a space |
| WorkerNaming.StripKeepsSafe | workers.py:101 | stripping text made of safe characters leaves only safe characters |
| WorkerNaming.KeepSafeOfSafe | workers.py:101 | filtering text that is already all safe changes nothing |
| WorkerNaming.TrimStartOfTrimmed | workers.py:101 | trimming text that does not start with a space changes nothing |
| WorkerNaming.StripIdempotent | workers.py:101 | stripping twice is stripping once |
| WorkerNaming.SanitizeIdempotent | workers.py:101 | sanitising a sanitised title changes nothing |
| WorkerNaming.FormatSelector | workers.py:170-173 | defined by the body; characterised by `FormatSelectorCeiling` |
| WorkerNaming.FormatSelectorCeiling | workers.py:170-173 | the selector is "bestvideo+bestaudio/best" exactly when there is no height or the height is 0. Otherwise it is "bestvideo[height<=h]+bestaudio/best[height<=h]": both the video stream and the single-file fallback are capped, and each number reads back as the height |
| WorkerNaming.FiveParts | workers.py:171 | each part of a five-part concatenation can be sliced back out of it |
| WorkerNaming.CleanupPatterns | workers.py:146-153 | there are six patterns: the prefix followed by each of "*.part", "*.-Frag*", "*-Frag*", "*.ytdl", "*.tmp", "*.temp" in turn |
| WorkerNaming.Glob | workers.py:155 | defined by the body; characterised by `GlobLiteralHead`, `GlobLiteralHeadIntro` and `GlobStarTail`: `*`-only, case-sensitive matching of a whole name |
| WorkerNaming.GlobLiteralHead | workers.py:155 | a name matched by a pattern that starts with a literal starts with that literal, and the rest of the name matches the rest of the pattern |
| WorkerNaming.GlobLiteralHeadIntro | workers.py:155 | a literal followed by a matched name matches the literal followed by the pattern |
| WorkerNaming.GlobStarTail | workers.py:155 | '*' followed by a literal matches anything that ends with that literal |
| WorkerNaming.CleanupScopedByPrefix | workers.py:146-155 | every file name any cleanup pattern matches starts with the task's prefix |
| WorkerNaming.CleanupRemovesPart | workers.py:147 | for a prefix without '*', any file named the prefix, then any text, then ".part" is matched by the first pattern |
| WorkerNaming.CleanupRemovesControlFile | workers.py:150 | for a prefix without '*', any file named the prefix, then any text, then ".ytdl" is matched by the fourth pattern |
| WorkerNaming.CleanupOverlapsLongerPrefix | workers.py:146-155 | when one task's prefix begins another's, its cleanup also matches any file named with the other prefix and ending in ".part" |
| WorkerNaming.StripOfSpaces | workers.py:101 | stripping text made only of spaces leaves nothing |
| WorkerNaming.BlankTitlePrefix | workers.py:101 | a title whose safe characters are all spaces, or which has none, gives the prefix "ph_" |
| WorkerNaming.BlankTitleCleansEveryPart | workers.py:101-155 | the cleanup of such a task matches any file named with any task's prefix, then any text, then ".part" |
| WorkerOutput.CountOutcomes | workers.py:262-274 | the number of outcome signals is at most the number of signals |
| WorkerOutput.CountOutcomesAppend | workers.py:205-274 | outcome counts add up over concatenated signal lists |
| WorkerOutput.Multiplier | workers.py:250-252 | the factor is 1/1024 exactly for "KiB" and "KB", 1024 exactly for "GiB" and "GB", and 1 for every other unit |
| WorkerOutput.UnitLabelsAgree | workers.py:250 | a binary unit label and its decimal twin give the same factor |
| WorkerOutput.UnitExamples | workers.py:250-252 | 512 KiB is 0.5 MB, 256 KiB/s is 0.25 MB/s, and 2 GiB is 2048 MB |
| WorkerOutput.Trunc | workers.py:237 | `int()` of a float truncates towards zero |
| WorkerOutput.NextDest | workers.py:220-231 | defined by the body; characterised by `HandleLineCases` and `LatestPathWins`: a Merger path beats a Destination path, and without either the path stays |
| WorkerOutput.DetailMetrics | workers.py:242-256 | defined by the body; characterised by `HandleLineCases` and `DownloadedUsesTruncatedPercent`: metrics exist exactly when the detail parses and a percentage is bound |
| WorkerOutput.HandleLine | workers.py:219-256 | one line emits at most a progress event and a metrics event, never an outcome |
| WorkerOutput.HandleLineCases | workers.py:219-256 | the path after a line follows `NextDest` (a Merger line beats a Destination line). A percentage sets `pct` to its truncation and is reported first; a bare percentage is all that is reported. Without one, `pct` stays and no progress goes out. Metrics go out, last, exactly when the line is a detailed one whose numbers parse and `pct` is bound, with downloaded = total × pct / 100 |
| WorkerOutput.DownloadedUsesTruncatedPercent | workers.py:237-254 | a detailed line emits the truncated percentage, then metrics whose downloaded size is total × truncated percent / 100; for a fractional percentage that is below total × percent / 100 |
| WorkerOutput.ExampleLine | workers.py:234-254 | the line "37.5% of 120.00MiB at 3.20MiB/s ETA 00:25" gives progress 37 and metrics (44.4, 120.0, 3.2, "00:25") |
| WorkerOutput.DrainWith | workers.py:205-256 | defined by the body; characterised by `ReadLoop`, `PauseIgnoresLaterReads` and `CancelSilencesRest` |
| WorkerOutput.Drain | workers.py:205-256 | defined by the body; characterised by `DrainHasNoOutcome` and `LatestPathWins`: `DrainWith` with `HandleLine` |
| WorkerOutput.Examined | workers.py:205-231 | defined by the body; characterised by `LatestPathWins`: the lines the loop parses, before a pause and while no cancel is seen |
| WorkerOutput.LastAnnounced | workers.py:220-231 | defined by the body; characterised by `LatestPathWins` and `LastAnnouncedCons`: the last path the parsed lines announce |
| WorkerOutput.ReadLoop | workers.py:205-256 | for any per-line handler, the loop ends in the state, and with the signals, that `DrainWith` defines from the start of the stream; `Run` passes `HandleLine`, which makes that `Drain` |
| WorkerOutput.PauseIgnoresLaterReads | workers.py:206-208 | once the pause flag reads as set, no later read affects the loop's result |
| WorkerOutput.CancelSilencesRest | workers.py:216-217 | once the cancel flag reads as set, the remaining lines are consumed with no signal and no state change |
| WorkerOutput.LatestPathWins | workers.py:220-231 | the destination at the end of the loop is the last path that any parsed line announced (a Merger line beats a Destination line), or the start value if none did |
| WorkerOutput.LastAnnouncedCons | workers.py:220-231 | reading one more line first is the same as starting from that line's destination |
| WorkerOutput.DrainHasNoOutcome | workers.py:205-256 | the read loop emits no outcome |
| WorkerOutput.ExitCode | workers.py:258 | defined by the body; characterised by `ReconcilePriority`: `poll() or 0` |
| WorkerOutput.PathText | workers.py:274 | defined by the body; characterised by `RunEndsWithOneOutcome`: the last announced path as text, or "" when none was |
| WorkerOutput.Reconcile | workers.py:258-274 | defined by the body; characterised by `ReconcilePriority` |
| WorkerOutput.ReconcilePriority | workers.py:258-274 | exactly one outcome ends the attempt. Pause beats cancel, and cancel beats the exit code. Progress 100 is emitted exactly when neither flag is set and rc = poll() or 0 is 0. Partial-file cleanup happens exactly on cancel without pause |
| WorkerOutput.Run | workers.py:162-274 | the attempt's signals are those of `RunEvents`: "yt-dlp не найден" with code 127 when the downloader is missing; nothing when the directory or the process cannot be created; otherwise the loop's signals followed by the reconciliation's |
| WorkerOutput.RunEvents | workers.py:162-274 | defined by the body; characterised by `Run` and `RunEndsWithOneOutcome` |
| WorkerOutput.RunEndsWithOneOutcome | workers.py:162-274 | an attempt emits no signal exactly when the downloader is found but the directory or the process cannot be created. Every other attempt emits exactly one outcome, as its last signal; the flags select which one; a finished outcome reports the exit code and the last announced path |
| Cards.Capped | ui.py:467-469 | a value of 100 or more is shown as 99, and lower values are unchanged |
| Cards.LastOf | ui.py:464 | defined by the body; characterised by `ProgressCases`: the recorded progress, or -1 when none is |
| Cards.AddStep | ui.py:423-437 | defined by the body; characterised by `MainWin.OnTaskAdded`: a fresh card in the queue list with bar 0 |
| Cards.ProgressStep | ui.py:462-475 | defined by the body; characterised by `ProgressCases`, `ProgressNeverFalls` and `ProgressAfterDoneShows99` |
| Cards.ApplyProgress | ui.py:462-475 | defined by the body; characterised by `ProgressRunMonotone`: a run of progress signals, one `ProgressStep` each |
| Cards.ProgressCases | ui.py:462-475 | a progress value changes the bookkeeping exactly when it is not below the recorded value and its capped form differs from it. Then the capped value is recorded even without a card, an existing card's bar shows it, and no other card changes |
| Cards.ProgressNeverFalls | ui.py:462-472 | while the recorded value is at most 99, an update never lowers it and never takes it past 99; an accepted update raises it strictly; other tasks are untouched |
| Cards.ProgressRunMonotone | ui.py:462-475 | over any run of progress values from a recorded value at most 99, the recorded value never falls and stays at most 99; a card whose bar matches it keeps matching |
| Cards.ProgressAfterDoneShows99 | ui.py:464-475 | once a finished card has recorded 100, a later value of 100 or more is recorded and shown as 99 |
| Cards.IsDoneText | ui.py:493 | defined by the body; characterised by `StatusCases`: "Готово" or "done" |
| Cards.StatusStep | ui.py:483-522 | defined by the body; characterised by `StatusCases`, `ManagerStatusesOnCards` and `FinishedStaysFinished` |
| Cards.StatusCases | ui.py:483-522 | "Отменено" removes the card and keeps the recorded progress. "Готово" or "done" puts an existing card in the finished list with bar 100, and records 100. Any other status, or a finishing status without a card, changes nothing |
| Cards.ManagerStatusesOnCards | ui.py:487-514 | of the manager's statuses, only "Отменено" removes a card ("canceled" keeps it), only "Готово" finishes it, and the rest change nothing |
| Cards.FinishedStaysFinished | ui.py:506-510 | a card in the finished list never returns to the queue list; it leaves the board only by "Отменено" for its own id |
| Cards.QueueCount | ui.py:454 | defined by the body; characterised by `CountsPartition` and `DoneMovesOneCount`: the cards in the queue list |
| Cards.FinishedCount | ui.py:455 | defined by the body; characterised by `CountsPartition`, `DoneMovesOneCount` and `DeleteDropsOneCount`: the cards in the finished list |
| Cards.CountsPartition | ui.py:453-457 | the queue count and the finished count add up to the number of cards |
| Cards.DoneMovesOneCount | ui.py:493-513 | finishing a queued card moves one from the queue count to the finished count |
| Cards.DeleteStep | ui.py:199-215 | defined by the body; characterised by `DeleteCases` and `DeleteDropsOneCount` |
| Cards.DeleteCases | ui.py:199-215 | deleting a task's file removes its card exactly when the path is known and the removal raised no error; the recorded progress and every other card are unchanged |
| Cards.DeleteDropsOneCount | ui.py:199-215 | deleting the file of a finished card lowers the finished count by one and leaves the queue count |
| Cards.MainWin.OnTaskAdded | ui.py:423-437 | a fresh card in the queue list with bar 0 is filed under the id, titled "—" when the title is empty; the bookkeeping follows `AddStep` |
| Cards.MainWin.OnTaskProgress | ui.py:462-475 | the bookkeeping follows `ProgressStep`, and the set of cards is unchanged |
| Cards.MainWin.OnTaskStatus | ui.py:483-522 | the bookkeeping follows `StatusStep` |
| Cards.MainWin.DeleteFile | ui.py:199-215 | the bookkeeping follows `DeleteStep` |
| Quality.AsInt | ui.py:385 | `int` values are kept, `bool` values become 0 or 1, and anything else is dropped |
| Quality.IntHeights | ui.py:385 | x is in the integer list exactly when some element of the fetched list converts to x |
| Quality.InsertDescending | ui.py:386 | inserting into a strictly descending list keeps it strictly descending and adds exactly that value |
| Quality.DescendingSet | ui.py:386 | the sorted set is strictly descending and holds exactly the values of its input |
| Quality.DescendingUnique | ui.py:386 | two strictly descending lists with the same elements are equal, so the sorted set is the only such list |
| Quality.SameHead | ui.py:386 | two non-empty strictly descending lists with the same elements start with the same value |
| Quality.SameTailElements | ui.py:386 | after that common first value, the rest of both lists are strictly descending and hold the same elements |
| Quality.Entries | ui.py:384-386 | defined by the body; characterised by `EntriesShape` and `EntriesMembers` |
| Quality.EntriesShape | ui.py:384-386 | the box has one entry more than the height list: "Авто" first, then entry i + 1 for height i |
| Quality.EntriesMembers | ui.py:384-386 | a height has an entry exactly when it is in the height list |
| Quality.QualityItems | ui.py:384-386 | defined by the body; characterised by `QualityItemsShape`; the fetched values are `HeightValue`s, Python `int`, `bool` or anything else |
| Quality.QualityItemsShape | ui.py:384-386 | the box holds "Авто" first, then one entry per distinct integer height in strictly descending order; a height is offered exactly when the fetched list holds it |
| Quality.Label | ui.py:386 | an entry for height h is labelled with the decimal text of h followed by "p" |
| Quality.SelectedHeight | ui.py:394-396 | the auto entry gives no height; a height entry gives its height |
| Quality.SelectionToFormat | ui.py:384-396 | different entries have different labels; the chosen entry asks for the best overall format exactly when it is the auto entry or height 0 |
| Quality.LabelsDiffer | ui.py:384-386 | no height label equals the auto label |

## Left out

- Threads, `threading.Lock` and Qt signal delivery are left out. Each locked
  method is one atomic step, and the signals it emits are appended to a log.
  The pause and cancel flags, which other threads set, are inputs to the
  read loop (`Requests`).
- The worker is represented by the arguments it was built with
  (`WorkerSpec`). Its slots and `start()` are those of `WorkerOutput`.
- Process handling is left out because it is I/O: `find_yt_dlp`, `Popen`,
  `poll`, `terminate`, `kill`, the platform signal, and the 40 × 100 ms wait
  in `DownloadWorker.cancel` (workers.py:106-138). Whether the downloader was
  found, whether the directory and the process could be created, and the
  value `poll()` returns, are parameters.
- `WorkerOutput.DrainWith`: the stream of reads is finite. A stream that runs
  out before a read shows the process gone stands for an attempt observed
  up to that read; the source keeps polling, with a 50 ms sleep, until the
  process exits (workers.py:210-214).
- `_cleanup_partial` is a second cleanup run inside `DownloadWorker.cancel`,
  and behaves the same as the one modelled. It is left out with the rest of
  that method.
- Filesystem effects are left out: `mkdir`, `glob` and `unlink`, and
  `Path.resolve`. The only effect modelled is the pattern strings handed to
  cleanup, plus a matcher for `*`.
- `WorkerNaming.Glob` matches case-sensitively, as `Path.glob` does on POSIX.
  On Windows `Path.glob` ignores case, which is not modelled.
- The downloader's own file naming is not modelled. It names files from
  the template "ph_%(title)s.%(ext)s" (workers.py:175), with the title as
  the downloader writes it, while the prefix keeps only the safe characters
  (workers.py:101). For the title "A.B" the prefix is "ph_AB" but the file
  is "ph_A.B.mp4.part". The cleanup lemmas are about any file named with
  the prefix; whether a task's own files carry its prefix is not captured.
- Regular expressions are not modelled. Each line arrives as the results of
  its four searches, and `float()` of a matched number is its value or
  `None`.
- `WorkerOutput.Multiplier`: `real` stands in for Python's `float`, so
  rounding is not modelled.
- `url.strip()` and `out_dir.strip()` in the worker's constructor
  (workers.py:90-91) are left out. They affect the arguments passed to the
  process, and `out_dir` also names the directory that is created and the
  one cleanup searches. Both are file-system or process effects, which the
  model leaves out.
- `WorkerNaming.KeepSafe`: `str.isalnum` is a parameter, because Unicode
  character classes are not modelled.
- `WorkerNaming.Strip` removes only spaces. That is equivalent to
  `str.strip()` only when `isAlnum` is false on whitespace, which Python's
  `str.isalnum` is.
- `FetchMetaWorker` is left out: it does JSON parsing, an HTTP thumbnail
  fetch and a subprocess call. Its list of heights is an input to
  `Quality`.
- The widgets are left out: labels, button texts and enabled states,
  visibility, pixmaps, and the metrics text of `_on_task_metrics`
  (ui.py:477-481). The "Пауза", "Загрузка" and "Ошибка" branches of
  `_on_task_status` only change widgets, so they are no-ops in the
  bookkeeping. The tab captions show `QueueCount` and `FinishedCount`.
- `_toggle_pause`, `_reveal_in_folder`, `_cancel_all`, `add_to_queue` and
  `download_now` in ui.py are left out. They are UI commands that call the
  manager's modelled operations or the filesystem. `_delete_file` is
  modelled only for its bookkeeping (`Cards.DeleteStep`): removing the file
  is its `unlinked` input, and the message boxes are left out.
- `app.py` is bootstrap and configuration I/O, and is not part of this
  model.
