# veto: verified model

veto routes coding tasks to models, runs them, and keeps what it did in a few files under `~/.veto` that several
processes share. This project models the parts of it where that is hard to get right, and proves what they are for:

- the redacted event log, appended to by every process and rewritten or unlinked by any of them, as a step system of
  system calls that refines an abstract log (`event_log.dfy`), with the operations and requests behind its effects
  (`log_runs.dfy`) and what it holds line by line after writes that stopped partway (`log_lines.dfy`), the bytes of one log file (`ledger_file.dfy`) and the deletion of a mission from
  it (`history_delete.dfy`, `grouping.dfy`);
- the replacement of the running executable by a verified download, on a disk whose calls fail by an arbitrary
  schedule and whose power may go at any point (`binary_replace.dfy`, `manifest.dfy`, `release_archive.dfy`,
  `release_check.dfy`);
- the control service, its lock-protected tables and its subscriber channels (`control_service.dfy`, `monitor.dfy`,
  `runner.dfy`, `subscriptions.dfy`);
- the files that are read, changed and replaced under a lock, as one generic step system (`locked_store.dfy`) and its
  two users, the availability of native agents (`availability.dfy`) and the mission index (`mission_index.dfy`);
- the listing of a process tree from parent links that need not form a tree (`process_tree.dfy`);
- the two loops that execute a plan, with plan validation and review acceptance (`plan_exec.dfy`, `plan.dfy`,
  `review.dfy`);
- the throttle of the update check and the order of versions (`update_throttle.dfy`, `versions.dfy`);
- the column-narrowing loop of the terminal tables (`table_width.dfy`), the offline replay of routing policies with its
  percentile and its float64 averages (`eval_replay.dfy`, `percentile.dfy`, `floats.dfy`), and the fold of the Codex event stream (`codex_events.dfy`).

`seqs.dfy`, `text.dfy` and `sorting.dfy` hold the sequence, string and sorting theory the others share.

Conventions. Code that changes state step by step is a class or a method with loops, proved against a function or a
predicate over values; what the program promises is then proved about that specification. Interleavings are step
systems whose steps are single system calls or single locked sections, and theorems about them hold for every run.
Routing, models, reviewers, downloads, JSON, SHA-256, clocks and terminals are parameters: arbitrary functions, with
the assumption on them (a faithful codec, a clock that does not turn back) in the `requires` where it is needed.
Text is a sequence of characters, and where the code counts bytes their UTF-8 sizes are added up; the contents of
binaries hold one character per byte.

## Where the code does less than it seems to promise

Each of these is a lemma that says exactly when the stronger promise holds.

- A log line of 1 MiB or more ends the reading of its file, and the history view then drops the whole file
  (`pkg/ledger/ledger.go:153-176`, `cmd/veto/tui_data.go:259-263`), while Append bounds only the detail of an event.
  Every other event then goes unread or unseen: `LedgerFile.MixedLogReplays`, `OverlongLineHidesTheRest`,
  `OverlongLineHidesTheLog`, `LogLines.ReadersSeeSurvivors`.
- An append never looks whether the log ends in a newline (`cmd/veto/logger.go:90-107`, `pkg/ledger/ledger.go:144-146`).
  What is left of a write that stopped partway, on a full disk or when the process dies, is glued to the next append of
  any process, and neither is read, though Read is there so that one damaged record cannot hide another
  (`pkg/ledger/ledger.go:151-152`): `LogLines.ReadersSeeSurvivors`, `TornBytesHideTheNextAppend`,
  `AppendAfterTornWriteIsNotRead`.
- History deletion decodes the raw line, replay trims it first, with a wider idea of a blank than JSON has
  (`cmd/veto/tui_history.go:146`, `pkg/ledger/ledger.go:159-164`). A selected event on a line with such blanks is shown
  but not deleted, and deleting an over-long line lets the lines after it be read again:
  `HistoryDelete.RewriteRemovesExactlyTheSelected`, `TrimmedLineIsNotRemoved`, `RemovalCanUncover`,
  `DeletedMissionIsNotShown`, `DeletedMissionIsStillShown`.
- Missions are grouped by the raw run id and deleted by the trimmed one (`internal/tui/model.go:2769-2782`,
  `cmd/veto/tui_history.go:22-53`): `HistoryDelete.DeletionIsExactlyTheMission`.
- The seven-day rotation unlinks logs without the sidecar lock (`cmd/veto/logger.go:38-50`). An append between its check
  and its write is then acknowledged and lost, and a rewrite between its read and its rename brings the rotated lines
  back: `EventLog.RotationIsSafeExactlyWhenUnused`, `RotationLosesAnAppend`, `RotationIsUndone`.
- When the directory sync after a replacement fails and the rollback fails too, the deferred cleanup still removes the
  backup, the only copy of the original left (`cmd/veto/doctor_release.go:500-531`): `BinaryReplace.AtomicReplace` leaves
  a backup behind only when its very last call fails.
- Execute deletes its entry in the action table before it saves the routing history
  (`internal/application/controlplane_service.go:297-310`). A second Execute of the same action can run meanwhile, and
  the first can overwrite its status: `ControlService.EnteredAgainExactlyWhileSaving`, `OverlapsOnlyWhileSaving`,
  `SavingOverlaps`.
- A runner whose adapter supports none of the three ways to execute returns after its started event without a
  terminal one (`internal/application/runner.go:179-180`). The session count of the control service is then one too
  high for good: `ControlService.SessionsCountExecutions`, `IdleCountIsZeroExactlyWithoutUnclosedRuns`. The adapters in
  the repository (Anthropic, OpenAI, command line, Codex, OpenCode) all implement Execute, so only another one gets there.
- In mode `abort-ask`, and for any mode it does not know, the command line can exit with status 0 after a failed step
  (`cmd/veto/exec.go:183`): `PlanExec.FailureIsAcceptedExactlyWhenAsked`.
- The recursion over process children does not return when the root is its own ancestor
  (`pkg/executor/process_tree_linux.go:59-70`): `ProcessTree.ReturnsExactlyWithoutRootCycle`.
- The total of reported Codex tokens wraps around at 2^63 (`pkg/executor/codex_cli.go:250`):
  `CodexEvents.ExecuteWithEvents`.
- The averages of a replay report are float64 sums in task order (`internal/eval/eval.go:355-364`). The same selections
  in another order can give other averages, and nothing else: `EvalReplay.MetricsIgnoreOrder`, `OrderShowsInTheAverage`,
  `LatencyIgnoresOrder`, `Floats.OrdersAgreeExactlyWhenNeighboursSwap`.

## Model

| member | source | states |
|---|---|---|
| `LedgerFile.Read` | pkg/ledger/ledger.go:153-176 | returns the valid events before the first line too long for the scanner, in order, each of schema 1 with id, run, type and time set, counts the other non-blank lines before it as corrupt, and reports an error exactly when there is such a line |
| `LedgerFile.StampedReplays` | pkg/ledger/ledger.go:128-147 | Append refuses exactly a blank run id or type; what it accepts, redacted and stamped with id and time and otherwise as it was, added to a file of whole lines, is read back after what was read before, exactly when neither its line nor an earlier one is too long for the scanner |
| `LedgerFile.MixedLogReplays` | pkg/ledger/ledger.go:128-176 | of a file of appended events and any other lines, Read returns exactly the appended events before the first line too long to read; all of them if and only if no such line stands at or before one of them |
| `LedgerFile.OverlongLineHidesTheRest` | pkg/ledger/ledger.go:153-176 | the failing input: an event after a line of 1 MiB is not returned |
| `LedgerFile.OverlongLineHidesTheLog` | cmd/veto/tui_data.go:259-263 | the history view takes all events of a small enough log, or none if one line is too long |
| `LedgerFile.BoundedIsSuffix` | cmd/veto/tui_data.go:319-336 | the bounded reader sees whole lines, a suffix of those in the file, never a torn one |
| `LedgerFile.BoundedReplayIsSuffix` | cmd/veto/tui_data.go:319-336 | what the history view shows of a log is a suffix of what Read returns of it whenever every line fits the scanner |
| `LedgerFile.RewrittenLines` | cmd/veto/tui_history.go:140-160 | a rewrite keeps or drops each line whole and byte for byte, a torn last one included |
| `LedgerFile.RemoveMatching` | cmd/veto/tui_history.go:140-163 | the removal loop keeps exactly the unselected lines, reports exactly the run ids it removed, and leaves the bytes alone when nothing matches |
| `LedgerFile.RemovedRunsExact` | cmd/veto/tui_history.go:143-160 | a run id is reported exactly when some removed line carries it |
| `LedgerFile.NothingRemoved` | cmd/veto/tui_history.go:161-163 | a rewrite in which no line matches would not change a byte |
| `Text.SizeIsThatOfTheEncoding` | pkg/ledger/ledger.go:149-156 | the bytes counted for a character are those of its UTF-8 encoding, from which it can be read back |
| `Text.SpacesByCodePoint` | pkg/ledger/ledger.go:159 | what trimming takes for a blank is the Unicode property White_Space |
| `EventLog.LockProtectsFile` | cmd/veto/tui_history.go:126-185 | while one thread holds the sidecar lock of a path, no step of another changes the bytes there or relinks them |
| `EventLog.StagedFileIsPrivate` | cmd/veto/tui_history.go:164-183 | a staged rewrite is reachable under no name and staged by nobody else until its own rename |
| `EventLog.StepKeepsInv` | cmd/veto/logger.go:90-129 | every system call of every process, a write that stops partway, every death of a process and every rotation of a log no thread is using keep locks and mutexes exclusive and what each thread knows true |
| `EventLog.StepRefinesLog` | cmd/veto/tui_history.go:56-185 | each step, torn writes and rotations included, is one append, torn append, filter or emptying of the abstract log of every path, or invisible |
| `EventLog.WritesReachTheLinkedFile` | cmd/veto/logger.go:109-129 | an append is written to the file that is linked at the log path at that moment, never to an unlinked one |
| `EventLog.RunRefinesLog` | cmd/veto/logger.go:90-129 | after any run from any state that satisfies the invariant, in which no log is rotated while a thread is using it, the file at a path is its abstract log |
| `EventLog.TearThenAppend` | cmd/veto/logger.go:90-107 | after a write that stops partway the next append of the same thread goes through, right behind the torn bytes |
| `LogRuns.RewriteRuns` | cmd/veto/tui_history.go:126-185 | undisturbed, a rewrite leaves the log without exactly the lines it was asked to remove, every other log as it was, and its lock free |
| `LogRuns.RemoveRuns` | cmd/veto/tui_history.go:56-87 | undisturbed, a removal empties the log it was asked to remove and no other |
| `LogRuns.OpenedLogTakesAppends` | cmd/veto/logger.go:52-72 | a log opened, new or old, takes the next append as its last line |
| `LogRuns.RefreshedAppendLands` | cmd/veto/logger.go:109-129 | an append whose open file is no longer at the path goes to the file that is, or to a new one |
| `LogRuns.DeathFreesTheLocks` | cmd/veto/logger.go:90-107 | a process that dies keeps no lock, mutex or open log, and costs no other process one |
| `LogRuns.EffectsAnswerRequests` | cmd/veto/tui_history.go:126-185 | in every run, whatever is appended to, cut from or emptied of a log is what that same thread was last asked for, or a rotation |
| `EventLog.RotationLosesAnAppend` | cmd/veto/logger.go:90-107 | a failing input: an append already past its check is acknowledged and its line is in no log |
| `EventLog.RotationIsUndone` | cmd/veto/tui_history.go:164-183 | another: the rename of a rewrite already staged brings the rotated lines back |
| `EventLog.RotationIsSafeExactlyWhenUnused` | cmd/veto/logger.go:38-50 | after a rotation every later run, with such safe rotations among its steps, still acts as abstract operations on every log, if and only if no thread was between check and write and none was rewriting the log into something |
| `LogLines.LogHoldsExactlySurvivors` | cmd/veto/tui_history.go:56-185 | under every interleaving of such runs, with processes dying and writes stopping at any point, a log that began empty is exactly the complete appends that no later rewrite selected and no later deletion or rotation dropped, in order, each behind the torn bytes it was appended to, and then torn bytes without a newline |
| `LogLines.UntornLogIsWhole` | cmd/veto/logger.go:90-107 | where no write to it stopped partway it is those appends, each whole on its own line |
| `LogLines.ReadersSeeSurvivors` | pkg/ledger/ledger.go:151-176 | Read of that log returns, in order, the event of each surviving append before the first line too long to read and without torn bytes before it, then what torn bytes at the very end decode to; the events of all surviving appends if and only if all lines fit and no torn write stands directly before one |
| `LogLines.TornBytesHideTheNextAppend` | pkg/ledger/ledger.go:151-176 | the failing input: an encoded event behind torn bytes is not returned, which it is without them |
| `LogLines.AppendAfterTornWriteIsNotRead` | cmd/veto/logger.go:90-107 | a run that gets there from any state with a thread about to write to an empty log |
| `Grouping.GroupBy` | internal/tui/model.go:2784-2798 | the grouping loop yields each key once, in order of first appearance, with exactly the items of that key in order |
| `HistoryDelete.HistoryMissions` | internal/tui/model.go:2784-2798 | missions partition the history by key, in order of first appearance, losing and repeating no row |
| `HistoryDelete.KeysTellMissions` | internal/tui/model.go:2769-2782 | two rows have one key if and only if the first of their ids that is not blank is the same kind of id and the same text |
| `HistoryDelete.Representative` | internal/tui/model.go:2800-2810 | a mission is represented by its first fixable row, and by its first row if none is fixable |
| `HistoryDelete.DeletionIsRefusedExactlyForBlankRuns` | cmd/veto/tui_history.go:22-53 | the delete of a replayed row is refused if and only if its run id is blank |
| `HistoryDelete.RequestsSelect` | cmd/veto/tui_history.go:37-52 | a request selects by the run, else the task, else the one event it names, without the blanks around it, and is refused if and only if it names none |
| `HistoryDelete.RowsAreRequested` | internal/tui/model.go:3081-3106 | a row is requested by its run, else by its task, else by its event, and not at all without any |
| `HistoryDelete.DeletionIsExactlyTheMission` | internal/tui/model.go:2769-2798 | the deletion selects every event grouped with the row and no other, if and only if its run id has no surrounding blanks |
| `HistoryDelete.AgreesExactlyWhenTight` | cmd/veto/tui_history.go:146-148 | for JSON, the line of a selected event is removed if and only if only JSON blanks surround its text, and no other line that replays is |
| `HistoryDelete.TrimmedLineIsNotRemoved` | pkg/ledger/ledger.go:159-164 | the failing input: a no-break space before an encoded event leaves it replayed and not removed |
| `HistoryDelete.AppendedLinesAgree` | cmd/veto/tui_history.go:187-195 | replay and removal agree on every line an append wrote |
| `HistoryDelete.UndecodableSurvive` | cmd/veto/tui_history.go:143-160 | lines that do not decode survive a rewrite byte for byte, in order |
| `HistoryDelete.RewriteRemovesExactlyTheSelected` | cmd/veto/tui_history.go:126-195 | for any file, Read returns after the rewrite what it returned before minus exactly the selected events, if and only if no selected line it reads has foreign blanks and removing the line that stopped it uncovers nothing |
| `HistoryDelete.RemovalCanUncover` | cmd/veto/tui_history.go:143-160 | the failing input: with a selected line too long to read gone, the event after it appears |
| `HistoryDelete.DeletingRemovesExactlyTheMission` | internal/tui/model.go:3081-3106 | deleting a row whose run id has no surrounding blanks: each log then reads as before without exactly the events grouped under its mission, if and only if that condition holds of the log |
| `HistoryDelete.DeletedMissionIsNotShown` | cmd/veto/tui_data.go:255-336 | of any log rewritten so, the history view takes no event of that mission, if and only if the window it reads holds a line too long to read or no selected line with foreign blanks; it takes none if the log had no such line |
| `HistoryDelete.DeletedMissionIsStillShown` | cmd/veto/tui_data.go:319-336 | the failing input: behind an over-long line that falls out of the window the selected event is shown before the deletion and after it, though Read never returns it |
| `HistoryDelete.AppendedLogsAreDeletable` | cmd/veto/tui_history.go:126-195 | a log of appended lines that all fit meets the condition for every selector |
| `HistoryDelete.DeleteMission` | cmd/veto/tui_history.go:88-116 | the loop over the logs rewrites every one of them, and collects exactly the selected run and the runs of removed lines |
| `ReleaseArchive.SafePathIsProper` | cmd/veto/doctor_release.go:394-400 | a name is safe if and only if it has no backslash and splits on "/" into components none of which is empty, "." or ".." |
| `Manifest.ParseChecksum` | cmd/veto/doctor_release.go:183-212 | a digest is found if and only if every line is blank or lists something and exactly one lists the target, and then it is the one that line spells |
| `Manifest.DecodesExactlyWhatIsSpelled` | cmd/veto/doctor_release.go:203-206 | a text decodes to some bytes if and only if it is each of them as two hexadecimal digits of either case, the high one first |
| `Manifest.ListedExactlyWhenDenoted` | cmd/veto/doctor_release.go:186-206 | a line lists a digest and a name if and only if it is the 32 bytes spelled, blanks, perhaps a star, and the safe name, with blanks around |
| `Manifest.ListedOnceExactly` | cmd/veto/doctor_release.go:183-212 | so for the whole manifest |
| `ReleaseArchive.ExtractTar` | cmd/veto/doctor_release.go:325-358 | extraction yields the one expected member, whole and within the bound, if and only if the archive is it and at most its directory |
| `ReleaseArchive.ExtractZip` | cmd/veto/doctor_release.go:360-392 | accepts and yields by the same specification as the tar extractor |
| `ReleaseArchive.HeldExactly` | cmd/veto/doctor_release.go:325-392 | an archive holds the binary if and only if one member is a regular file of that path, whole, of the size it claims and at most 64 MiB, and every other one is the directory it is directly in |
| `BinaryReplace.RenameHolds` | cmd/veto/doctor_release.go:520-522 | renaming a synced whole file over the target leaves only allowed bytes there, in every directory version a power loss can bring back |
| `BinaryReplace.SyncDirHolds` | cmd/veto/doctor_release.go:483-490 | a directory sync leaves exactly the present bytes to survive |
| `BinaryReplace.WriteBeside` | cmd/veto/doctor_release.go:496-519 | a new file beside the target is whole and synced exactly when five calls work, and no other file is touched at any point |
| `BinaryReplace.Stage` | cmd/veto/doctor_release.go:496-519 | the backup is whole and synced under its own name before the target is touched |
| `BinaryReplace.RollBack` | cmd/veto/doctor_release.go:523-531 | after a failed directory sync, a working rename restores the original and consumes the backup, durably when the sync after it works |
| `BinaryReplace.Conclude` | cmd/veto/doctor_release.go:532-536 | dropping the backup never changes the target, and a last working sync makes it durable |
| `BinaryReplace.AtomicReplace` | cmd/veto/doctor_release.go:494-537 | under any pattern of failing calls the target holds whole original or candidate bytes at every point and after a power loss there; which return happens, and what it leaves, is exactly determined; success means candidate in, backup gone, durable; it is installed if and only if nine calls work, and a backup is left behind only when the last call fails |
| `ReleaseCheck.FetchCandidate` | cmd/veto/doctor_release.go:230-253 | a candidate is returned if and only if archive, manifest and member agree, and it carries the expected digest |
| `ReleaseCheck.StageCandidate` | cmd/veto/doctor_release.go:260-284 | staging leaves the executable alone and, exactly when its five calls work, a whole synced candidate beside it |
| `ReleaseCheck.Replace` | cmd/veto/doctor_release.go:260-300 | when the repair reports success, when it only stages, and which of the two binaries is in place at the end, also after an error; one of the two is throughout |
| `ReleaseCheck.Repair` | cmd/veto/doctor_release.go:230-300 | at every point of a repair the executable is what was found or carries the expected digest; exactly when it reports replaced or staged, and exactly when the digest is in place at the end |
| `ReleaseCheck.Fix` | cmd/veto/doctor_release.go:81-95 | a repair counts as fixed if and only if it put the binary in place and either reported no error or left it readable |
| `ReleaseCheck.CheckIntegrity` | cmd/veto/doctor_release.go:36-96 | the exact conditions for WARN, PASS and FIXED, a failed repair that still left the expected binary included; PASS or FIXED imply that the manifest lists the installed bytes; nothing is touched without leave to fix |
| `ProcessTree.BuildChildren` | pkg/executor/process_tree_linux.go:28-57 | the map holds exactly the parent links read, and gives each pid at most one parent |
| `ProcessTree.CycleContainsRoot` | pkg/executor/process_tree_linux.go:59-70 | with one parent each, a cycle reachable from the root contains the root |
| `ProcessTree.AncestorsAreOrdered` | pkg/executor/process_tree_linux.go:59-70 | two ancestors of one pid lie on one line |
| `ProcessTree.ChildIsSmaller` | pkg/executor/process_tree_linux.go:62-66 | a child has strictly fewer descendants than its parent, which is why the recursion ends |
| `ProcessTree.Collector.Visit` | pkg/executor/process_tree_linux.go:60-67 | the closure appends the listing of its argument to the captured slice and returns |
| `ProcessTree.ListingMembers` | pkg/executor/process_tree_linux.go:59-70 | exactly the proper descendants are listed |
| `ProcessTree.ListingOfOrdered` | pkg/executor/process_tree_linux.go:59-70 | each of them once, and every child before its parent |
| `ProcessTree.DescendantPids` | pkg/executor/process_tree_linux.go:59-70 | lists every proper descendant exactly once, children first, and never the root |
| `ProcessTree.CycleNeverReturns` | pkg/executor/process_tree_linux.go:62-67 | a pid that is its own descendant is never done at any depth |
| `ProcessTree.ReturnsExactlyWithoutRootCycle` | pkg/executor/process_tree_linux.go:59-70 | with one parent each, the recursion returns if and only if the root is not its own ancestor |
| `Runner.Execute` | internal/application/runner.go:108-202 | which events are emitted with which metrics, when there is no error, and which output is returned, also beside an error; the terminal event tells completion, truncation and deadline apart, and knows a cost exactly when it was reported or can be reckoned |
| `Runner.BracketedExactlyWhenSupported` | internal/application/runner.go:144-201 | a started event is followed by exactly one terminal event if and only if the resolved adapter supports the request |
| `ControlService.Service.Begin` | internal/application/controlplane_service.go:289-296 | Execute is let in exactly while no thread works on the action, as one step that keeps the invariant |
| `ControlService.Service.End` | internal/application/controlplane_service.go:297-301 | after the deferred delete the table holds exactly the actions the other threads work on |
| `ControlService.Service.Cancel` | internal/application/controlplane_service.go:238-247 | finds the cancel function of the one thread working on the action, or fails exactly when there is none |
| `ControlService.Service.RecordExecution` | internal/application/controlplane_service.go:529-576 | one step of the system; ending an execution always lowers the session count by one |
| `ControlService.Service.RecordTool` | internal/application/controlplane_service.go:578-603 | the branches on tool, approval and artifact events are one step of the system and keep its invariant |
| `ControlService.Service.RecordChoice` | internal/application/controlplane_service.go:629-645 | the same for an accepted model |
| `ControlService.Service.SetSnapshot` | internal/application/controlplane_service.go:669-689 | the same for a new snapshot of a thread in flight: the whole monitor stays, status and action are the new ones, and an unset model or provider stays |
| `MonitorShows.MonitorShowsTheLast` | internal/application/controlplane_service.go:529-576 | over any run, usage, cost and latency shown are those of the last execution that ended, and the last model, provider and runtime those that it or a later choice named, whatever snapshots are set in between |
| `MonitorShows.SnapshotShowsTheLast` | internal/application/controlplane_service.go:669-689 | model, provider and lists shown are the last ones set to something or chosen, the status the last one set |
| `ControlService.StepKeepsInv` | internal/application/controlplane_service.go:289-301 | every locked section in any interleaving keeps the table, the reports to come and the session count in step |
| `ControlService.TableIsTheUndeletedActions` | internal/application/controlplane_service.go:289-301 | in every reachable state the table is exactly the actions between check and delete, each in one thread, with its cancel function |
| `ControlService.EnteredAgainExactlyWhileSaving` | internal/application/controlplane_service.go:289-310 | an action in flight can be entered again if and only if all its Executes are past their delete |
| `ControlService.OverlapsOnlyWhileSaving` | internal/application/controlplane_service.go:297-310 | of two Executes of one action in flight together, one is past its delete |
| `ControlService.SavingOverlaps` | internal/application/controlplane_service.go:302-310 | the reachable overlap: the second Execute is running while the first, failing to save, shows its own status |
| `ControlService.SessionsCountExecutions` | internal/application/controlplane_service.go:529-576 | in every reachable state the session count is the runs between start and end plus the unclosed ones already started, and the decrement guard never fires |
| `ControlService.IdleCountIsZeroExactlyWithoutUnclosedRuns` | internal/application/controlplane_service.go:529-576 | once no action is worked on the count is zero if and only if every routed run found an adapter that supports its request |
| `ControlService.UnsupportedRunLeaks` | internal/application/runner.go:176-181 | one run on an adapter that cannot execute leaves the idle count at one |
| `ControlService.ClippedIsNetExactlyUnguarded` | internal/application/controlplane_service.go:582-593 | a guarded count is ups minus downs if and only if no prefix has more downs, and otherwise more |
| `ControlService.MonitorCountsAreExact` | internal/application/controlplane_service.go:578-603 | over any run, whatever snapshots are set in between, tools and approvals shown are started less ended, if and only if none ended that had not started, and every artifact is counted |
| `Subscriptions.StepKeepsInv` | internal/application/controlplane_service.go:655-667 | subscribing, cleaning up, publishing and receiving keep closed channels out of the table and every channel in publishing order |
| `Subscriptions.SubscribersAreSafe` | internal/application/controlplane_service.go:217-236 | no interleaving sends on a closed channel or closes one twice; each subscriber gets, per publisher, an in-order subsequence of what was published, with at most 64 pending |
| `Subscriptions.SubscribersGetEverything` | internal/application/controlplane_service.go:217-236 | a subscriber that is never 64 events behind gets everything published since it subscribed, from every publisher in order, but for the one event a publisher may be about to send |
| `Subscriptions.PendingIsNotReceived` | internal/application/controlplane_service.go:655-667 | what is pending in a channel is what was sent into it and not yet received |
| `Subscriptions.CleanupCloses` | internal/application/controlplane_service.go:224-234 | once its subscription is cleaned up a channel is closed for good, gets nothing more and is in no table |
| `LockedStore.StepStaysGuarded` | pkg/dispatch/availability.go:58-81 | while a caller is inside the lock nobody else is, and what it has read of the file is still there |
| `LockedStore.NoUpdateIsLost` | pkg/dispatch/availability.go:50-111 | in every interleaving, with callers failing or dying anywhere, the file is what the effective requests make it one after the other, in the order of the times they read |
| `LockedStore.LoneUpdateLands` | pkg/dispatch/availability.go:58-83 | undisturbed, a caller gets the lock and the file becomes what its request makes of it at the present time |
| `Availability.ActiveEntries` | pkg/dispatch/availability.go:171-179 | the loop keeps exactly the unexpired entries of known agents, in order |
| `Availability.Others` | pkg/dispatch/availability.go:69-74 | the loop keeps exactly the entries of other agents, in order |
| `Availability.NamedExactly` | pkg/dispatch/availability.go:54-57 | a name means an agent if and only if, blanks around it aside, it is spelled like it up to the case of letters |
| `Availability.Store.List` | pkg/dispatch/availability.go:37-48 | an absent file lists nothing, a corrupt one fails, any other lists its active entries |
| `Availability.Store.Set` | pkg/dispatch/availability.go:50-84 | it succeeds if and only if the duration is positive, the name is spelled like one of the two agents, the file is not corrupt and the calls work; what the file then holds; otherwise it stays as it was |
| `Availability.Store.Clear` | pkg/dispatch/availability.go:86-111 | the same for clearing one agent or all, with the file removed once nothing is left |
| `Availability.Store.IsUnavailable` | pkg/dispatch/availability.go:113-124 | true if and only if an active entry names the agent in any letter case, and false on a corrupt file |
| `Availability.PurgingIsUnseen` | pkg/dispatch/availability.go:171-179 | dropping expired entries at a write shows in no later listing |
| `Availability.RequestMatches` | pkg/dispatch/availability.go:50-111 | a request does to the file what it does to a map from agent to mark that never purges |
| `Availability.StoreRefinesMap` | pkg/dispatch/availability.go:50-168 | after every interleaving the file is exactly the unexpired part of that map at the last write: at most one entry per known agent, sorted |
| `Availability.ReadersSeeTheMap` | pkg/dispatch/availability.go:37-48 | a lock-free listing, at any time from its read on, is exactly the unexpired marks |
| `Availability.LastRequestDecides` | pkg/dispatch/availability.go:50-84 | an agent is marked until the expiry of its last Set unless it was cleared since |
| `Availability.ClearedAgentsStayClear` | pkg/dispatch/availability.go:86-111 | a cleared agent is unmarked until it is set again |
| `Availability.ListedUntilExpiry` | pkg/dispatch/availability.go:50-84 | an agent is listed from its last Set, under any spelling of its name, if and only if the time it was set for is not over, unless it was cleared since |
| `Availability.ClearedAreNotListed` | pkg/dispatch/availability.go:86-111 | an agent cleared under any spelling, or with all of them, is not listed until it is set again |
| `Sorting.SortIsStable` | cmd/veto/missions.go:98 | sorting keeps the order of elements the comparison does not tell apart |
| `Sorting.SortedIsUnique` | pkg/dispatch/availability.go:142 | a sorted permutation is unique when the comparison tells all elements apart, so the unstable sort gives the same file |
| `Sorting.LessIsLexicographic` | pkg/dispatch/availability.go:142 | one name sorts before another if and only if it is a proper prefix or has the smaller character at the first difference |
| `Sorting.LastOfInsert` | cmd/veto/missions.go:98-101 | trimming to the last n before an insertion or only after it ends the same |
| `MissionIndex.Place` | cmd/veto/missions.go:86-97 | the loop replaces the first record of the run in place, or appends |
| `MissionIndex.Index.Save` | cmd/veto/missions.go:47-103 | when a save succeeds, and that a refused or failed one leaves the file as it was |
| `MissionIndex.SaveKeepsWellFormed` | cmd/veto/missions.go:86-101 | run ids stay unique, records stay in time order, never more than 500 |
| `MissionIndex.SaveDropsOnlyAnOldest` | cmd/veto/missions.go:86-101 | a save loses nothing, or one record that is as old as any, and that only when the index was full and the run new |
| `MissionIndex.SaveIsIdempotent` | cmd/veto/missions.go:86-101 | saving the same record again changes nothing, even one that was too old to be kept |
| `MissionIndex.TimeSortIsStable` | cmd/veto/missions.go:98 | the time-sort of all saves is a permutation in time order in which saves of one time stay in save order |
| `MissionIndex.IndexIsTheLatest` | cmd/veto/missions.go:77-102 | after saves of different runs the index is the last 500 of that sort of everything ever saved |
| `MissionIndex.RacingSavesAreAllKept` | cmd/veto/missions.go:64-102 | the same for saves racing from any number of processes |
| `Plan.ValidatePlan` | cmd/veto/plan.go:55-84 | the violations listed are exactly the ones the plan has |
| `Plan.KindsAreKnown` | pkg/router/types.go:15-24 | the seven kinds of work and three risks a plan may name |
| `Plan.CriteriaAreTight` | cmd/veto/exec.go:341-353 | no acceptance criterion is blank or has blanks around it |
| `Plan.CriteriaArePartedBySeparators` | cmd/veto/exec.go:341-353 | a newline and a semicolon both part the criteria before from those after |
| `Plan.CriterionOfUnbroken` | cmd/veto/exec.go:341-353 | a text without either is one criterion, trimmed, or none when blank |
| `Plan.PiecesAreCriteria` | cmd/veto/exec.go:341-353 | every stretch between separators that is not blank is a criterion |
| `Review.ValidateReviewResult` | internal/application/review.go:165-187 | a review is accepted if and only if it answers every criterion in order, its score is in range and its verdict is whether all were met |
| `Review.ReviewOutput` | internal/application/review.go:46-79 | a review passes if and only if a reviewer answered, the answer is valid and it says passed; anything else fails closed |
| `PlanExec.CmdExec` | cmd/veto/exec.go:79-191 | the exact condition for exit status 0 in every mode, where the loop stops, and what the final review is asked |
| `PlanExec.RunTuiExec` | cmd/veto/tui.go:837-945 | the exact condition for success of the second loop, in every mode and with cancellation, and that the final review is the command line's, asked whenever every step has passed uncancelled and there are criteria |
| `PlanExec.ExecutorsAgree` | cmd/veto/tui.go:874-944 | in modes abort and continue, uncancelled, both loops accept the same plans |
| `PlanExec.FailureIsAcceptedExactlyWhenAsked` | cmd/veto/exec.go:183-190 | a plan with a failed step exits with status 0 if and only if the mode is neither and every failure was answered with yes |
| `PlanExec.AcceptanceIsEarned` | cmd/veto/exec.go:126-181 | a plan that either loop accepts in a mode that asks nobody after a failure had every step run, after passed dependencies, every criterion reported met by its own words, and no regression reported |
| `PlanExec.EveryWordIsConfirmed` | cmd/veto/exec.go:79-181 | in such a plan every stretch of every step that is not blank was confirmed in its own words by the review of its step, which saw that step and its output, and by the final one, which also confirmed that there is no regression |
| `PlanExec.FinalReviewSeesEveryOutput` | cmd/veto/exec.go:160-181 | the final reviewer is shown the outputs of all steps in order, with separators |
| `PlanExec.TuiModesAgree` | cmd/veto/tui.go:852-865 | the second loop knows four modes, of which the empty one and auto are abort |
| `Versions.ParseStableVersion` | cmd/veto/update.go:112-126 | a version parses if and only if it is three runs of digits within 64 bits, after an optional v |
| `Versions.ParsedExactlyWhenDotted` | cmd/veto/update.go:112-126 | a text parses to a version if and only if, after an optional v, it is three runs of digits with points between them and their values fit 64 bits |
| `Versions.RenderedIsParsed` | cmd/veto/update.go:112-126 | a written version is read back as itself |
| `Versions.NewerStableVersion` | cmd/veto/update.go:95-110 | the loop decides precedence of the numbers, and fails exactly when either version does not parse |
| `Versions.WrittenVersionsCompare` | cmd/veto/update.go:95-110 | of two written versions the one with the larger number at the first difference is newer |
| `Versions.NewerIsStrictOrder` | cmd/veto/update.go:95-110 | being newer is transitive, asymmetric and total on different versions |
| `UpdateThrottle.CacheFile.RunAutomaticUpdate` | cmd/veto/update.go:48-89 | what is fetched, offered, installed and stored; only a newer version is ever offered, and nothing is installed without a yes |
| `UpdateThrottle.MemoryLasts` | cmd/veto/update.go:48-93 | whatever an invocation does, the cache keeps enough of an earlier offer to hold the same version back for a day |
| `UpdateThrottle.OffersAreADayApart` | cmd/veto/update.go:48-93 | over any invocations, two offers of one version are at least 24 hours apart, whatever was offered in between |
| `UpdateThrottle.FetchesAreADayApart` | cmd/veto/update.go:54-63 | within 24 hours of a successful fetch none is even tried |
| `UpdateThrottle.FetchesExactlyDaily` | cmd/veto/update.go:50-63 | in any run from an absent cache, an invocation of a stable version tries to fetch if and only if no fetch has succeeded in the last 24 hours |
| `UpdateThrottle.OffersExactlyDaily` | cmd/veto/update.go:48-93 | and it offers the last version fetched if and only if that is newer, its own fetch did not fail, and the last offer was of another version or at least 24 hours ago |
| `TableWidth.Measure` | internal/tui/model.go:2481-2496 | natural widths are the widest of header and cells, least widths at most six |
| `TableWidth.NaturalIsWidest` | internal/tui/model.go:2481-2496 | a natural width holds the header and every cell of its column, and is that of one of them or one |
| `TableWidth.LeastIsTheHeaderWithinSix` | internal/tui/model.go:2481-2496 | a column may shrink to its header, but a long one to six cells and one without to one |
| `TableWidth.WidthAddsUp` | internal/tui/model.go:2497-2512 | a table is as wide as its columns and two cells between each and the next |
| `TableWidth.Candidate` | internal/tui/model.go:2499-2507 | the inner loop finds the first column of the largest positive slack |
| `TableWidth.Shrink` | internal/tui/model.go:2497-2512 | the loop ends, between least and natural widths, at exactly the width there is room for or the least possible, and fairly |
| `TableWidth.FairIsUnique` | internal/tui/model.go:2497-2512 | bounds, fairness and total width leave a single table |
| `TableWidth.ColumnWidths` | internal/tui/model.go:2476-2512 | the table fits unless all columns are at their least, and a column that lost a cell is within one cell of the slackest |
| `EvalReplay.Validate` | internal/eval/eval.go:139-178 | a corpus is accepted if and only if it is well formed, with unique models and tasks |
| `EvalReplay.OrderIsStrictWeak` | internal/eval/eval.go:239-259 | ranking by a key and by name is an order a sort can use |
| `EvalReplay.SortingSelectsTheLeast` | internal/eval/eval.go:201-274 | a sorting policy selects the least accepting candidate by key and name, if there is one, and attempts is its rank among all |
| `EvalReplay.PoliciesSelectTheLeast` | internal/eval/eval.go:239-284 | so for cheapest with estimated cost and strongest with tier |
| `EvalReplay.CheapestIsCheapest` | internal/eval/eval.go:239-248 | what the cheapest policy selects costs no more than any candidate that would accept, by the estimate |
| `EvalReplay.StrongestIsStrongest` | internal/eval/eval.go:250-284 | what the strongest selects is large if a large candidate would accept, and at least mid if a mid one would |
| `EvalReplay.SelectionsReport` | internal/eval/eval.go:204-235 | a selection reports the recorded outcome of the model it names, each value under its name, and an unresolved one nothing |
| `EvalReplay.SelectOne` | internal/eval/eval.go:204-235 | the inner loop takes the first accepting model and counts the attempts; an adaptive policy then knows besides what it knew every model it asked with its answer, and the outcome of the one that accepted, any other policy nothing more |
| `EvalReplay.EvaluatePolicy` | internal/eval/eval.go:201-237 | one selection for each task in order, made with what was learned from the tasks before it, selected plus unresolved are the tasks, and without adaptation each selection depends on its task alone |
| `EvalReplay.Summarize` | internal/eval/eval.go:286-330 | the metrics are the counts, rates, averages and percentiles of the selections, with budget violations and confidence errors, each float64 operation rounding as it may |
| `EvalReplay.MetricsOfOne` | internal/eval/eval.go:286-330 | the metrics of one resolved task are its own numbers, each under its own name |
| `EvalReplay.BudgetIsOfTheTask` | internal/eval/eval.go:339-346 | a selection breaks a budget if and only if its own task has one and it cost more |
| `EvalReplay.MetricsIgnoreOrder` | internal/eval/eval.go:286-364 | permuting the selections leaves counters, success rate, percentiles and sample count alone, and every average whose values add up to the same in every order or without rounding |
| `EvalReplay.OrderShowsInTheAverage` | internal/eval/eval.go:355-364 | the failing input: costs 0.1, 0.2 and 0.3 have another float64 average in reverse |
| `EvalReplay.LatencyIgnoresOrder` | internal/eval/eval.go:286-364 | the average latency depends on no order as long as all waits add up to at most 2^53 milliseconds |
| `Floats.OrdersAgreeExactlyWhenNeighboursSwap` | internal/eval/eval.go:355-364 | all orders of some values add up to the same, if and only if exchanging two neighbours changes the sum in none of them |
| `Floats.RoundedIsClosest` | internal/eval/eval.go:355-364 | no value of 53 significant bits is closer to the exact sum or quotient than the one the failing input is computed with |
| `EvalReplay.TaskOrderIsIrrelevant` | internal/eval/eval.go:201-237 | for a policy that does not adapt, permuting the tasks of a corpus only permutes the selections, and changes no metric but an average, by rounding |
| `Percentile.RankIsLeastCover` | internal/eval/eval.go:371-373 | the index is in bounds, and the value there is at most exactly those that cover 95 percent |
| `Percentile.Percentile95` | internal/eval/eval.go:366-374 | the result is the least element that at least 95 percent of the values do not exceed |
| `Percentile.PercentileIsOneValue` | internal/eval/eval.go:366-374 | which is one value, whatever order they came in |
| `CodexEvents.ExecutionState.Process` | pkg/executor/codex_cli.go:207-267 | what one line adds to the output, the writer, the tool events and the usage, which failure text it records, and when it is an error |
| `CodexEvents.MessageExactly` | pkg/executor/codex_cli.go:234-244 | a line brings a message if and only if it is a completed agent message with some text, and then that text trimmed |
| `CodexEvents.ToolsAreShown` | pkg/executor/codex_cli.go:269-297 | the four kinds of tool call shown, by what name, state and exit code |
| `CodexEvents.UsageIsOfLastTurn` | pkg/executor/codex_cli.go:246-255 | the usage is that of the last completed turn, its input and output each its own, negative numbers as zero and no more cached than read |
| `CodexEvents.Scan` | pkg/executor/codex_cli.go:159-178 | no failure is recorded if and only if the whole stream is readable; then the state is the fold of all its lines |
| `CodexEvents.ExecuteWithEvents` | pkg/executor/codex_cli.go:130-255 | there is no error if and only if nothing went wrong anywhere and some message came; then the output is the last message and the writer got all of them in order; the usage is that of the last turn, its cached tokens lie between zero and the input, and its total is the sum if and only if the sum fits 64 bits |

## Left out

- The experiment log (`cmd/veto/native_dispatch.go:233-252`): it appends without the sidecar lock, so what is proved of the event log is not claimed for it.
- LogLines.LogHoldsExactlySurvivors: a power loss, after which appends that were never synced may be gone; runs with a rotation of a log that a thread is using, about which `EventLog.RotationIsSafeExactlyWhenUnused` says what goes wrong.
- LogLines.ReadersSeeSurvivors: that an encoded event behind other text does not decode is an assumption on the codec, which holds of JSON: an array, an object or a string that the text before it leaves open stays open or ends at the first quote of the event.
- HistoryDelete.DeletedMissionIsNotShown: the view sorts the events of all logs by time and keeps the latest of them; the lemma is about what it takes from one log.
- HistoryDelete.RewriteRemovesExactlyTheSelected: JSON is any faithful codec that ignores its own four blanks around a value and refuses every other one; text that is not valid UTF-8 is not modelled.
- The mission-index side of history deletion (`cmd/veto/tui_history.go:201-216`): it takes only the in-process mutex, so `MissionIndex.RacingSavesAreAllKept` is about saves racing saves.
- BinaryReplace.AtomicReplace: a failing rename, remove or sync changes nothing, a file sync makes its bytes durable, and the executable found is taken to be durable already; two veto processes repairing at once are not modelled.
- ReleaseArchive.ExtractTar: gzip, tar and zip framing are a parameter, the list of members each with its path, kind, declared size and body; a reader error between members is a member without a body.
- ReleaseCheck.CheckIntegrity: the ownership and permission checks, the version the candidate reports and the downloads are answers of a parameter, and the executable's path is given.
- Availability.Store.Set: an entry's expiry is an unbounded integer, and letter case is ASCII, which decides the same for the two agent names.
- Availability.StoreRefinesMap: the clock does not turn back between requests; the sort is the stable one, which by `Sorting.SortedIsUnique` every sort agrees with here.
- MissionIndex.Index.Save: redaction and bounding of the objective are done before the record comes in.
- Plan.ValidatePlan: YAML parsing and the interactive conversion of an invalid plan; an invalid plan is refused.
- PlanExec.CmdExec: timeouts, and the terminal, which is a parameter that says where the user would answer yes; the outcome of each step and each review is a parameter, the same for both loops where they are compared.
- Review.ReviewOutput: prompts and JSON extraction; the reviewer is a parameter that answers each query or fails.
- UpdateThrottle.OffersAreADayApart: reads and writes of the cache work, and two versions are the same when their strings are.
- EvalReplay.Summarize: float64 values are finite and stand for the reals they are; that a sum may overflow to infinity is not modelled.
- EvalReplay.OrderShowsInTheAverage: of float64 addition and division it assumes rounding to the nearest 53 significant bits, ties to even, on positive multiples of 2^-55.
- EvalReplay.PoliciesSelectTheLeast: the hard filter and the cost estimate are parameters; the static policy's ranking is not part of this model.
- Runner.Execute: a reckoned cost is a real number; prompts, recording in the router's store and the event detail text; elapsed time is given.
- CodexEvents.ExecuteWithEvents: launching the process and its environment; the lines, the exit and the deadline are a parameter, and a failed write delivers nothing.
- Subscriptions.SubscribersAreSafe: waiting of blocked goroutines and the order in which locks are granted; only what can happen is modelled.
- Page ranges, palette ranges and number formatting of the interface: single clamped expressions.
- Redaction patterns, keyword inference, prompts, credentials, OAuth, HTTP executors, the dashboard and all rendering: string heuristics, network and user interface around small decisions.
- Routing itself: the manager, the admission gate and the candidate filter are parameters wherever they are called.
