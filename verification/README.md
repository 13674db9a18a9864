# Verified model of goharness

A Dafny model of the parts of goharness that keep state for a long time or share it between goroutines: the
conversation log and what is sent of it, the sub-agent scheduler, the task graph, the file tools, and the two search
algorithms. `dafny verify dfyconfig.toml` checks all of it.

| file | what it models |
|---|---|
| Wrappers, Messages, Text | messages, the rule that every tool call is answered by the tool messages right after it, and the string functions used |
| SessionLog, SessionRefinement | a session as a cache of its store: append, delete a round, truncate, reset, reload, compact |
| EventBridge, WriteBack, WriteBackUsage, WriteBackPairing, WriteBackRetry, WriteBackContents | the bridge that writes an engine run back into the session while it goes on; token usage, pairing, what a refusal costs, and what arrives of calls and pictures |
| PairingRepair, RepairContents | cutting back to the last user message in front of an unanswered call, and what is left of the user's words |
| Sanitizing, SanitizingExact, RequestAssembly, RequestStability, RequestValidity, RequestContents | the two clean-ups of a window, what they repair, the LLM request, the compactor's request, what a request says, and when requests extend one another |
| Compaction, CompactionSession | captures, summaries, cursor moves and appends in any interleaving, and the session's own compaction as a run of these |
| SubAgents, SubAgentScheduler, SubAgentSafety, SubAgentClaims, SubAgentProgress, SubAgentCollapse, CircuitBreaker, BreakerTiming, DispatchContents | the session table, the scheduler under all interleavings and panics, the breaker for tasks that run out of iterations |
| DecisionRouting, Sponsorship | permissions and answers on their way to waiting sub-agents, and stopping the sub-agents of a main session |
| TaskGraph, TaskGraphSafety, TaskLife | dependencies between tasks, one update of them, and the life of a task |
| LineDiff | the diff that Edit and Write report |
| EditMatching, FileState, FileStateSafety, FileContents | finding and replacing text, read-before-write, lost updates, what is in a file |
| FileModify | backups, confirming, rolling back |
| GlobMatch, GrepContext | globstar matching, context printing |

Objects that the program updates in place are classes (`Session`, `Store`, `Recorder`, `SubAgentManager`, `WaitTable`,
`SponsorTable`, `TaskStore`, `FileTools`, `ModifySession`); their methods have the program's loops and branches, and
each `ensures` ties the whole new state to a function of the old one. The lemmas are about those functions. Where
goroutines meet, one step is what happens within one hold of a lock (or one wait), and the lemmas range over all
sequences of steps.

Calls into the outside world are parameters. A store that may refuse is a number `accepts`, the number of calls it
still takes, so every prefix of successes followed by a failure is covered. Clocks are parameters (`now`); ids drawn at
random are only required to be new; a content hash is the content itself. `resolve`, `hit` and `m` stand for reading a
picture, matching a line, and matching one path segment.

## What does not hold

Some promises made in comments of the program hold only under a condition. The model keeps the code as it is; for each
of them one lemma states the exact condition, over all inputs, and where it helps another one gives an input.

- A diff is always a patch, but not always a shortest one: the backtrack sees only the last two table rows. It is
  shortest exactly if no step of it loses (`LineDiff.WalkShortfall`). On the texts themselves: it keeps all that they
  share exactly if the shared lines stand in the same order in both (`LineDiff.WalkOfChange`), pure deletions always
  come out right (`LineDiff.WalkOfDeletion`), and pure insertions have their own condition (`LineDiff.WalkOfInsertion`,
  `LineDiff.InsertionCanFallShort`, `LineDiff.WalkCanFallShort`).
- One task update with both lists can close a cycle, because the edges of the first list are not stored when the
  second one is checked (`TaskGraphSafety.UpdateAcyclic`, `TaskGraphSafety.TwoListsCloseCycle`); a refused update can
  leave one-sided notes behind (`TaskGraphSafety.UpdateInverse`, `TaskGraphSafety.RefusedLeavesNote`).
- Naming a session in a dispatch can put two tasks under one claim (`SubAgentClaims.StepExclusive`,
  `SubAgentCollapse.NamesCollapse`).
- A second decision for one wait is reported delivered and answers the next request of the task
  (`DecisionRouting.RunRoutes`, `DecisionRouting.SecondAnswersNext`).
- A run of another task on the anchored session opens the circuit breaker again (`CircuitBreaker.ForeignRunResets`),
  and so does the 129th anchor for a dispatch that names a session below the limit or is located on one
  (`CircuitBreaker.ForgottenAnchorReopens`, `CircuitBreaker.UnanchoredDispatch`). A failure is settled before it is
  recorded: the limit of three in a row holds if dispatches wait for the recording (`BreakerTiming.PunctualBound`), and
  waiting for the settling is not enough (`BreakerTiming.SixInARow`).
- Messages appended while a compaction is under way are forgotten by its cursor move (`Compaction.StepForgets`,
  `Compaction.AloneForgetsAppended`).
- After a refused append the write-back says again what had been taken (`WriteBackRetry.RetryRepeats`). Even if nothing
  had been taken, the messages that had been prepared have been counted: their usages, drawn ids and pictures are gone
  or go to later messages (`WriteBackRetry.RetryUsage`, `WriteBackRetry.RetryDrawsAgain`, `WriteBackRetry.RetryPairs`).
- A record that the token ledger refuses is in the total all the same (`WriteBackUsage.RunBalances`).
- Mixed rounds with and without ids, blank results and pictures between sibling results break the pairing
  (`WriteBackPairing.LanePairs`).
- A cursor clamped by a truncation is not stored (`SessionRefinement.TruncateThenReload`), and a refused truncation
  leaves memory cut (`PairingRepair.RefusedRepairDropsMemory`).
- `sanitizeMessagesForLLM` keeps orphaned results (`SanitizingExact.OrphansGo`) and is not idempotent
  (`SanitizingExact.SanitizeIdempotent`, `SanitizingExact.SanitizeNotIdempotent`), contrary to its comments; the
  compactor's request does not always extend the main one (`RequestStability.CompactionExtends`,
  `RequestStability.HalfAnsweredDiffers`).
- Both clean-ups go by ids alone, so a cleaned window need not be a valid request (`RequestValidity.StripPairs`,
  `RequestValidity.SanitizePairs`, `RequestValidity.ReusedIdStaysOpen`), and a late result rewrites what was sent before
  it (`RequestStability.PrefixStable`, `RequestStability.LateAnswerRewrites`).
- The third matching attempt of Edit is idle (`EditMatching.NewlineAttemptIsIdle`), and `limit` -1 is refused for
  several occurrences although it is documented as "all" (`FileStateSafety.UnlimitedRefused`).
- A change within the recorded millisecond is overwritten (`FileStateSafety.ApplyHonest`,
  `FileStateSafety.DisguisedChangeIsLost`), and a reading answered from the cache does not make a file editable again
  (`FileStateSafety.ReadingsMakeFresh`).
- Rolling back a file that was new does not delete it, and an old backup under the same bare name can be written over
  it, or over another file, or over one that is named twice (`FileModify.RollbackRestores`, `FileModify.NewFileStays`,
  `FileModify.OneBackupForTwo`, `FileModify.NamedTwice`).
- Splitting a path into the reused buffer leaves a stale last segment for empty paths and trailing separators
  (`GlobMatch.StaleSegment`); files below the searched directory never have such a path (`GlobMatch.RelativePath`).

## Model

| member | source | states |
|---|---|---|
| `LineDiff.GenerateDiff` | tools/diffutil/diff.go:33-104 | the hunks are a patch from old to new and, inverted, from new to old; there are none exactly for equal texts, and nothing is added exactly if the new text is what deleting lines leaves of the old one; added minus removed is the change in length; hunks do not touch |
| `LineDiff.DiffLoop` | tools/diffutil/diff.go:44-98 | for any common subsequence at all the merge loop yields hunks that describe the change completely and stay apart |
| `LineDiff.LcsRows` | tools/diffutil/diff.go:123-140 | the two-row table pass ends with the last two rows of the true LCS-length table |
| `LineDiff.FillRow` | tools/diffutil/diff.go:127-139 | one row of the table, from the row before it |
| `LineDiff.ComputeLcs` | tools/diffutil/diff.go:117-158 | the backtrack over the last two rows, as the walk the lemmas below are about |
| `LineDiff.LcsLenUpper` | tools/diffutil/diff.go:117-140 | no common subsequence is longer than the table entry |
| `LineDiff.LcsLenReached` | tools/diffutil/diff.go:117-140 | some common subsequence is as long as the table entry |
| `LineDiff.WalkIsCommon` | tools/diffutil/diff.go:142-157 | what the backtrack finds is a common subsequence of both texts |
| `LineDiff.WalkShortfall` | tools/diffutil/diff.go:142-157 | for any two texts it falls short of the longest one by as many lines as its steps lose |
| `LineDiff.WalkOfChange` | tools/diffutil/diff.go:142-157 | whatever is deleted and inserted, it keeps every line that both texts have exactly if these lines stand in the same order, equally often, in both texts; it is then longest |
| `LineDiff.WalkOfDeletion` | tools/diffutil/diff.go:142-157 | it is the whole new text, and so longest, exactly if lines were only deleted |
| `LineDiff.WalkOfInsertion` | tools/diffutil/diff.go:142-157 | where lines were only inserted, it is longest exactly if at each inserted line (in the embedding from the end) the new text in front of it has no less in common with the old text than the new text up to it has with the old text less its last line |
| `LineDiff.InsertionCanFallShort` | tools/diffutil/diff.go:142-157 | an insertion that it gets wrong: xyx to xyyx |
| `LineDiff.WalkCanFallShort` | tools/diffutil/diff.go:142-157 | concrete texts on which it is not the longest |
| `LineDiff.WalkOfEqual` | tools/diffutil/diff.go:142-157 | on equal texts it is the whole text |
| `LineDiff.DescribesPatches` | tools/diffutil/diff.go:44-98 | hunks that describe a change, applied at their old positions, produce the new text |
| `LineDiff.DescribesInverted` | tools/diffutil/diff.go:44-98 | inverted hunks describe the reverse change |
| `LineDiff.TotalsBalance` | tools/diffutil/diff.go:108-114 | the totals of any describing hunks differ by the change in length |
| `LineDiff.SumChanges` | tools/diffutil/diff.go:108-114 | the two totals over all hunks |
| `PairingRepair.FindToolPairingBreak` | agents/pairing_repair.go:45-76 | the cut point: behind the last user message in front of the first unanswered call |
| `PairingRepair.CutPointComplete` | agents/pairing_repair.go:45-76 | no cut exactly for well-paired windows |
| `PairingRepair.CutIsLongest` | agents/pairing_repair.go:45-76 | the kept prefix is well-paired and the longest one that ends in a user message |
| `PairingRepair.RepairToolPairingBreak` | agents/pairing_repair.go:88-147 | the whole new session state for every point at which the store may refuse; the reported ids are exactly the calls cut |
| `PairingRepair.PutBackAll` | agents/pairing_repair.go:116-142 | what is appended behind the cut, up to the first refusal |
| `PairingRepair.Collect` | agents/pairing_repair.go:97-106 | the calls and the user messages of the cut part |
| `PairingRepair.RepairedIsSound` | agents/pairing_repair.go:88-147 | a repaired window is well-paired, not empty, ends in a user message, and needs no repair |
| `PairingRepair.RepairedUsers` | agents/pairing_repair.go:116-142 | user messages in front of the cut, then those behind it that can be stored, then the notice only if there is none at all |
| `PairingRepair.RepairKeepsUsers` | agents/pairing_repair.go:116-142 | all user messages survive in order, and the notice comes in exactly when there was none, if and only if no user message behind the cut is blank |
| `PairingRepair.RepairCompletes` | agents/pairing_repair.go:88-147 | with a willing store: cursor and older messages untouched, memory and store in step, window repaired |
| `PairingRepair.RefusedRepairDropsMemory` | agents/pairing_repair.go:108-114 | a refused truncation leaves memory cut and the store whole |
| `RepairContents.RepairedWords` | agents/pairing_repair.go:116-142 | by the fields alone: the texts, pictures and times of the user messages behind a repair are those in front of the cut, then those behind it that are not blank, in order; and the notice, exactly if that is nothing |
| `RepairContents.RepairKeepsWords` | agents/pairing_repair.go:116-142 | they are exactly those of the old window if and only if that has any and no user message behind the cut is blank |
| `RepairContents.RepairStopsAnywhere` | agents/pairing_repair.go:108-142 | wherever the store gives up behind the truncation, memory and store have the same well-paired beginning of the repaired window |
| `RepairContents.CutCalls` | agents/pairing_repair.go:97-106 | a call is reported as cut exactly if a message behind the cut asks for it |
| `PairingRepair.Pendings.InvalidateAfterRepair` | agents/pairing_repair.go:155-172 | pending requests of cut calls are withdrawn, and so is a question without a call id |
| `PairingRepair.SurvivorsStillAsked` | agents/pairing_repair.go:155-172 | a request that survives belongs to a call the repaired window still asks; one whose call is gone does not survive |
| `RepairContents.SurvivesExactly` | agents/pairing_repair.go:155-172 | a pending request survives exactly if no message behind the cut asks for its call |
| `Messages.WellPairedAppend` | agents/pairing_repair.go:45-76 | well-paired pieces make a well-paired window |
| `Messages.WellPairedSplit` | agents/pairing_repair.go:45-76 | cutting in front of a message that is no result keeps both sides well-paired |
| `SessionLog.Session.Append` | session/session.go:562-592 | blank messages dropped, each kept one stored and then appended, up to the first refusal |
| `SessionLog.Session.DeleteRound` | session/session.go:667-702 | the round of a user message leaves memory only after the store has deleted all of it |
| `SessionLog.Session.Truncate` | session/session.go:744-769 | memory and cursor are cut, the store only its history |
| `SessionLog.Session.Reset` | session/session.go:716-736 | history and cursor cleared, in memory and, as far as it accepts, in the store |
| `SessionLog.Session.Reload` | session/session.go:434-452 | history and cursor as the store has them |
| `SessionLog.Session.Current` | session/session.go:410-419 | the messages from the cursor on |
| `SessionLog.GetRoundRange` | session/session.go:597-613 | the end of the round that starts at a user message |
| `SessionLog.FindMessageIndexByTimestamp` | session/session.go:646-658 | the last user message with this timestamp, else the first message of any role with it; -1 exactly if there is none |
| `SessionLog.Session.ExecuteFullCompaction` | session/compaction.go:107-131 | the cursor moves to the end of the history; nothing is deleted |
| `SessionLog.Session.DoCompact` | session/compaction.go:245-315 | the cursor moves exactly when a summary was made and delivered; otherwise the failure time is noted |
| `SessionLog.Session.TryCompact` | session/compaction.go:333-372 | cooldown, then the 80 percent threshold, then a compaction |
| `SessionLog.Session.ForceCompact` | session/compaction.go:379-404 | the fixed threshold, then a compaction, cooldown or not |
| `SessionLog.EstimateWindow` | session/compaction.go:39-49 | completion and reasoning tokens where known, else the character estimate |
| `SessionLog.EstimateText` | session/compaction.go:14-24 | 0.3 per ASCII character and 0.6 per other, summed up in double precision, each sum rounded to the nearest double, ties to even; then rounded down, plus one |
| `SessionLog.TenCharacters` | session/compaction.go:14-24 | ten ASCII characters are estimated at three tokens, not four: their sum stays just under three |
| `SessionLog.FiveWide` | session/compaction.go:14-24 | five characters beyond ASCII come to three tokens and are estimated at four |
| `SessionRefinement.StepSynced` | session/session.go:562-769 | for every operation: memory and store stay in step exactly under its condition (every store call accepted, unique timestamps, no cut below the cursor) |
| `SessionRefinement.StepInBounds` | session/session.go:562-769 | the cursor stays within the messages exactly unless the session reloads from a store that is out of step |
| `SessionRefinement.RunRefines` | session/session.go:562-769 | over whole runs memory is the image of the store, and reloading changes nothing |
| `SessionRefinement.ReloadSyncs` | session/session.go:434-452 | a reload that the store answers puts memory in step with it, whatever it held |
| `SessionRefinement.ResetForgets` | session/session.go:716-736 | an accepted reset leaves nothing in memory or store; a refused one leaves memory as it was |
| `SessionRefinement.AppendAdds` | session/session.go:562-592 | an accepted append puts every message with text or calls, and no other, behind the others in order; two appends are one of both |
| `SessionRefinement.DeletionIsExact` | session/session.go:667-702 | deleting by timestamps removes the round and nothing else exactly when no other message shares one |
| `SessionRefinement.RoundShape` | session/session.go:597-613 | a round is one user message and everything up to the next |
| `SessionRefinement.DeleteRoundKeepsPairing` | session/session.go:667-702 | a deleted round leaves the rest well-paired |
| `SessionRefinement.TruncateThenReload` | session/session.go:744-769 | a clamped cursor is not stored: a reload is out of bounds exactly if the cut was below it |
| `SessionRefinement.FailureHoldsTheCursor` | session/compaction.go:245-372 | a failed compaction leaves the cursor where it is until the cooldown is over, whatever else the session does |
| `Compaction.StepForgets` | session/compaction.go:69-131 | no step forgets a message but a cursor move, which forgets exactly those that came behind its captured window and no accepted summary has seen |
| `Compaction.NeverForgets` | session/compaction.go:245-315 | over every interleaving nothing is deleted, and if no move is late every message left of the cursor was in a window whose summary was accepted |
| `Compaction.UndisturbedIsPunctual` | session/compaction.go:69-131 | moves are never late if nothing is appended between capture and move |
| `Compaction.LateMoveForgets` | session/compaction.go:107-131 | a move forgets something new exactly if it is late |
| `Compaction.AloneForgetsAppended` | session/compaction.go:245-315 | one compaction on its own forgets exactly what was appended while it was under way |
| `CompactionSession.CompactsExactly` | session/compaction.go:245-315 | a compaction of a window moves the cursor if and only if there is a sink and a compactor, this answers some text on the cleaned window, and that takes this very text; otherwise nothing but the failure time changes |
| `CompactionSession.TriesExactly` | session/compaction.go:333-372 | the automatic one starts exactly if no failure is younger than five minutes and the window has more than 80 percent of the known context length |
| `CompactionSession.ForcesExactly` | session/compaction.go:379-404 | the one on demand starts exactly if the window has more than a hundred thousand tokens |
| `CompactionSession.WindowTokensAppend` | session/compaction.go:39-49 | a window has the tokens of its parts |
| `CompactionSession.TokensOfOne` | session/compaction.go:39-49 | an answer with reported usage counts what was generated for it, any other message what its text is estimated at |
| `CompactionSession.DoCompactSteps` | session/compaction.go:245-315 | the method's compaction is a capture, a delivery and a move of the interleaving machine, or a capture and a failure |
| `CompactionSession.SessionForgetsNothing` | session/compaction.go:245-404 | over every run of appends and of compactions tried, forced and failing, every message in front of the cursor was in a window of which a sink took the text that a compactor made of it |
| `EventBridge.Recorder.BeginRun` | agents/event_bridge.go:433-441 | base, watermark and all per-run bookkeeping start afresh |
| `EventBridge.Recorder.RecordUsage` | agents/event_bridge.go:216-271 | a reported call is handed to the ledger at once, an unreported one is left to be estimated |
| `EventBridge.Recorder.BookUsage` | agents/event_bridge.go:264-270 | the ledger takes the record or refuses it; the total grows in either case |
| `EventBridge.Recorder.AccumulateTotal` | agents/event_bridge.go:323-330 | field by field sum, the estimate mark aside |
| `EventBridge.EstimateCallUsage` | agents/event_bridge.go:277-293 | everything in front of the answer as prompt, the answer as completion |
| `EventBridge.Recorder.ConsumeUsage` | agents/event_bridge.go:473-488 | the next call's usage, consumed once |
| `EventBridge.Recorder.QueueCalls` | agents/event_bridge.go:489-498 | ids queued in call order, drawn where missing |
| `EventBridge.Recorder.TakeToolResult` | agents/event_bridge.go:506-523 | the oldest waiting id for a result without one, and the pictures of its position |
| `EventBridge.Recorder.PrepareMessage` | agents/event_bridge.go:466-527 | one engine message as a session message, with all bookkeeping |
| `EventBridge.Recorder.WriteOneMessage` | agents/event_bridge.go:466-547 | one message and its pictures appended, as far as the store accepts |
| `EventBridge.Recorder.WriteBackNewMessages` | agents/event_bridge.go:455-551 | the messages behind the watermark are appended to the session; the watermark moves only if all were taken |
| `WriteBackContents.IdentifiedAt` | agents/event_bridge.go:489-498 | calls one for one, each with its name and arguments, and its id if it has one, else the next drawn |
| `WriteBackContents.AssistantStored` | agents/event_bridge.go:469-502 | an assistant message is stored with the engine's text, reasoning and calls, none of them without an id |
| `WriteBackContents.OthersStored` | agents/event_bridge.go:503-527 | a result is stored with its text under the id it names, else the oldest waiting one; any other message with its role and text and nothing else |
| `WriteBackContents.ImageForIs` | agents/event_bridge.go:511-521 | the pictures of a position are those of its first entry that has any |
| `WriteBackContents.PicturesWritten` | agents/event_bridge.go:506-545 | behind a write the session shows, in order and under the tool's name, all pictures of each result's position, and no others |
| `WriteBackContents.MarksSayStop` | agents/event_bridge.go:499-502 | every finish mark says "stop" |
| `WriteBackContents.EstimateSays` | agents/event_bridge.go:277-293 | prompt is what stands in front of the answer, message by message; completion the answer's text and reasoning; total both; marked as an estimate |
| `WriteBackContents.PromptGrows` | agents/event_bridge.go:277-293 | the estimated prompt depends on what stands in front of the answer only |
| `WriteBackContents.IterationsCounted` | agents/event_bridge.go:216-222 | the iterations counted are one more than the highest reported |
| `WriteBackContents.BegunRunPairs` | agents/event_bridge.go:433-441 | whatever the bridge held, a run that begins is paired by its own rounds and pictures alone |
| `WriteBackContents.BegunRunCarries` | agents/event_bridge.go:433-441 | and its answers carry what was reported for its own calls, counted from the first |
| `WriteBackRuns.WriteFromEmits` | agents/event_bridge.go:465-550 | a write-back goes through exactly when the store takes all there is to write; otherwise a prefix is in and the watermark stays |
| `WriteBackRuns.RunIsOneWrite` | agents/event_bridge.go:433-551 | the outcome of a run is that of registering everything and writing the last snapshot once |
| `WriteBackRuns.OneSnapshotSuffices` | agents/event_bridge.go:433-551 | any chain of growing snapshots leaves the bridge and the session as one write of the last snapshot does, the finish mark aside |
| `WriteBackRuns.WrittenOnceInOrder` | agents/event_bridge.go:465-546 | every storable message past the base is written once and in order |
| `WriteBackRetry.RefusalExact` | agents/event_bridge.go:465-547 | a write-back is refused exactly if there is a message at which more is to be written than the store takes |
| `WriteBackRetry.RetryRepeats` | agents/event_bridge.go:528-550 | a refused write-back and the next one say everything in front of the refused message twice, and that message too if its own text was taken; nothing is said twice exactly if none of these says anything |
| `WriteBackRetry.RetryUsage` | agents/event_bridge.go:473-488 | the retry gives each assistant message the usage of the call so many places later as assistant messages had been prepared; the usages are right exactly if the reports agree over that distance |
| `WriteBackRetry.RetryLosesUsage` | agents/event_bridge.go:473-488 | with a report for every assistant message and none beyond, they are right exactly if no assistant message had been prepared |
| `WriteBackRetry.RetryDrawsAgain` | agents/event_bridge.go:489-498 | the retry writes the calls that would have been written exactly if none of the prepared ones was without an id |
| `WriteBackRetry.RetryUntouched` | agents/event_bridge.go:465-550 | a refusal leaves no trace in the bridge exactly if neither an assistant nor a tool message had been prepared |
| `WriteBackRetry.RetryPairs` | agents/event_bridge.go:489-545 | over complete rounds what the retry writes is well-paired exactly if no result is blank, no pictures (looked up so many places later as results had been prepared, or left over) come between sibling results, and no round without ids finds ids waiting, from a round with ids or from the refused attempt |
| `WriteBackUsage.UsageAligned` | agents/event_bridge.go:473-488 | the k-th assistant message carries the usage of the k-th call |
| `WriteBackUsage.RunCarries` | agents/event_bridge.go:216-550 | over whole runs, snapshots arriving at any time, the session gets exactly the usages last reported for its calls, the k-th assistant message that of the k-th call |
| `WriteBackUsage.WriteBooksOnce` | agents/event_bridge.go:473-488 | a write hands exactly the estimates of the calls it consumes to the ledger |
| `WriteBackUsage.RunBooksOnce` | agents/event_bridge.go:216-550 | over whole runs the ledger is handed every exact usage that was reported and the estimate of every other call whose message was written, each once; what it takes and what it refuses add up to that |
| `WriteBackUsage.RunBalances` | agents/event_bridge.go:216-330 | over every run the total is the sum of the records taken and refused; it is the sum of those taken exactly if the refused ones come to nothing, which for counts means that none of them counts anything |
| `WriteBackUsage.SumIsByField` | agents/event_bridge.go:323-330 | a sum of usages, in whatever order, sums up each of the five counts |
| `WriteBackRuns.FinishMarkExact` | agents/event_bridge.go:499-502 | the finish mark is set exactly if the last write-back still had the answer to write |
| `WriteBackPairing.LanePairs` | agents/event_bridge.go:465-546 | over complete rounds: well-paired exactly if no result is blank, no pictures come between sibling results, and no round without ids follows one with ids |
| `WriteBackPairing.RunPairs` | agents/event_bridge.go:433-551 | the same for whole runs with snapshots at any time, and a well-paired session stays so |
| `WriteBackPairing.NamedRound` | agents/event_bridge.go:489-523 | a round whose calls have ids |
| `WriteBackPairing.UnnamedRound` | agents/event_bridge.go:489-523 | a round whose ids are drawn: paired exactly if nothing else waits in the queue |
| `WriteBackPairing.ResultsAnswer` | agents/event_bridge.go:503-545 | the run of results answers the ids up to the first pictures, blank results aside |
| `RequestAssembly.StripOrphanedToolCalls` | agents/system_prompt.go:12-46 | every message less its unanswered calls, and none left without calls and text |
| `RequestAssembly.StripIdempotent` | agents/system_prompt.go:12-46 | stripping twice is stripping once |
| `RequestAssembly.StripLeavesAnswered` | agents/system_prompt.go:12-46 | every call that is left has its result in the output |
| `RequestAssembly.StripIdentity` | agents/system_prompt.go:12-46 | nothing changes exactly if every call has an id and a result somewhere |
| `RequestValidity.StripPairs` | agents/system_prompt.go:12-46 | a stripped window is well-paired exactly if every call that is answered anywhere is answered by the tool messages right behind it, messages that strip to nothing aside |
| `RequestValidity.SanitizePairs` | session/compaction.go:137-211 | a sanitized window is well-paired exactly if every message without an incomplete call is answered by the tool messages right behind it |
| `RequestValidity.CutOffIsRepaired` | agents/system_prompt.go:8-46 | a well-paired window that a cancelled run cut off anywhere is well-paired again after either clean-up, if no two results share an id |
| `RequestValidity.ReusedIdStaysOpen` | agents/system_prompt.go:13-31 | with a reused id an unanswered call stays |
| `RequestAssembly.AssembleMessages` | agents/prompt_assembler.go:65-130 | system messages, rendered window, and the question unless the window ends in it |
| `RequestAssembly.RenderUser` | agents/prompt_assembler.go:78-103 | text and pictures of a user message, lost pictures as placeholders |
| `RequestContents.RequestSays` | agents/prompt_assembler.go:65-130 | field by field: the system messages, then each message of the cleaned window with its role and text, an assistant's reasoning and calls, a result's call id, a user's text and pictures (a lost one named by its path), then the question unless it is empty or the window ends in it |
| `RequestContents.SameRequest` | agents/prompt_assembler.go:65-130 | histories that are sent as the same request agree in length and, illustrated messages aside, in all these fields |
| `RequestContents.StripSays` | agents/system_prompt.go:12-46 | the clean-up drops exactly the messages with calls, none of them answered, and no text, and keeps the others in order with all their fields and their answered calls |
| `RequestStability.PrefixStable` | agents/prompt_assembler.go:65-130 | appending to a window only appends to the request exactly if no later result answers an earlier orphan, or nothing from the first such orphan on had been sent |
| `RequestStability.AnsweredExtends` | agents/prompt_assembler.go:65-130 | well-paired windows are extended safely by anything |
| `RequestStability.LateAnswerRewrites` | agents/prompt_assembler.go:69-74 | a late result always rewrites what was sent before it, if the message that asks for it has text |
| `RequestAssembly.WellPairedUntouched` | session/compaction.go:137-211 | both clean-ups leave well-paired windows alone |
| `Sanitizing.SanitizeWindow` | session/compaction.go:137-211 | the two passes over the window |
| `RequestAssembly.SanitizeIdentity` | session/compaction.go:137-211 | sanitizing changes nothing exactly if no called id lacks a result |
| `RequestAssembly.SanitizeNeverEmpty` | session/compaction.go:137-234 | sanitizing never empties a window, so its caller's empty branch is idle; no tool message has an incomplete id |
| `SanitizingExact.SanitizeExact` | session/compaction.go:178-208 | what becomes of each message, by its place: results in the run behind a message with an incomplete call go, such messages lose their calls, all else stays |
| `SanitizingExact.SanitizeIdempotent` | session/compaction.go:137-211 | a second pass changes nothing exactly if every id that a message without incomplete calls asks for has a result outside those runs |
| `SanitizingExact.SanitizeNotIdempotent` | session/compaction.go:137-211 | a family of windows on which a second pass changes more, contrary to the comment in the compactor |
| `SanitizingExact.OrphansGo` | session/compaction.go:133-211 | no orphaned result is left, as the comment has it, exactly if every one stands in the run of tool messages behind a message with an incomplete call |
| `RequestStability.CompactionExtends` | agents/compactor.go:160-183 | the compactor's request is the main request and one user message exactly if every message with an incomplete call has no answered one, has text, and is not directly followed by a tool message |
| `RequestStability.HalfAnsweredDiffers` | agents/compactor.go:160-183 | with one of two calls answered the two requests differ |
| `SubAgents.SubAgentManager.FindIdleSession` | agents/subagent.go:272-297 | a most recently used idle session of the profile, claimed; none exactly if there is none |
| `SubAgents.SubAgentManager.LatestStored` | agents/subagent.go:311-322 | the first of the latest matching sessions of a listing |
| `SubAgents.SubAgentManager.RecoverLatestSession` | agents/subagent.go:302-351 | that session is loaded, registered and claimed, unless it is in the table |
| `SubAgents.SubAgentManager.GetOrCreate` | agents/subagent.go:182-263 | named, idle, recovered or created, in this order, always claimed |
| `SubAgents.SubAgentManager.TouchSession` | agents/subagent.go:355-361 | the time of last use |
| `SubAgents.SubAgentManager.ReleaseSpawn` | agents/subagent.go:367-373 | the claim is given back |
| `SubAgents.SubAgentManager.Submit` | agents/subagent.go:492-636 | the receipt and the table after a dispatch, for every way it can end; a tripped breaker gives the claim back, failures behind the claim do not |
| `SubAgents.SubAgentManager.RecordIterationOutcome` | agents/subagent.go:835-846 | the streak grows, or starts afresh |
| `SubAgents.SubAgentManager.RecordFailedTaskAnchor` | agents/subagent.go:156-163 | the anchor is set, the table emptied first at its limit |
| `SubAgents.SubAgentManager.SettleOutcome` | agents/subagent.go:772-793 | the failure reason, and what it leaves in both tables |
| `DispatchContents.LatestIs` | agents/subagent.go:311-322 | the latest of a listing is listed with the profile, none of it is later, and none in front of it as late |
| `DispatchContents.EndingExact` | agents/subagent.go:772-793 | when a run is settled as failed, for which reason, and when it counts as out of iterations, by its error, answer and termination |
| `DispatchContents.DispatchTable` | agents/subagent.go:492-636 | a dispatch touches one session at most: accepted it is claimed, tripped it is not; all else in the table stays |
| `DispatchContents.ReceiptExact` | agents/subagent.go:492-636 | who is refused for what; an accepted run is asked to go on exactly if its session has failed for want of iterations, else the whole task |
| `DispatchContents.NamedIsTaken` | agents/subagent.go:182-198 | a named or anchored dispatch is accepted on that session or not at all, loaded if it is not in the table |
| `DispatchContents.IdleIsReused` | agents/subagent.go:272-297 | an unnamed one goes on with an idle session of its profile that was used last, if there is any |
| `DispatchContents.NewOnlyIfNone` | agents/subagent.go:199-263 | a new session is taken only if none is idle: the store's latest of the profile, unless that is in the table or does not load, else a created one |
| `DispatchContents.RunIsReused` | agents/subagent.go:355-373 | a session just run on is the one the next unnamed dispatch of its profile takes |
| `SubAgentSafety.StepSound` | agents/subagent.go:645-784 | slots, locks and settlements are kept by every step |
| `SubAgentSafety.RunSound` | agents/subagent.go:645-784 | over every interleaving: at most twenty slots held, each lock held by the one task that executes on the session, no entry settled twice |
| `SubAgentSafety.OneExecutes` | agents/subagent.go:694-705 | no two tasks ever execute on one session at once |
| `SubAgentClaims.StepExclusive` | agents/subagent.go:182-373 | one step keeps claims exclusive exactly unless it is a dispatch that names a session taken at that moment |
| `SubAgentClaims.RunExclusive` | agents/subagent.go:182-373 | in runs without names (an anchor counts as one) each session is taken by one task at most, and marked exactly while it is |
| `SubAgentClaims.InitialExclusive` | agents/subagent.go:137-145 | a manager without tasks and claims starts exclusive |
| `SubAgentCollapse.NamesCollapse` | agents/subagent.go:182-198 | a run with names in which two tasks share one claim |
| `SubAgentProgress.RunsEnd` | agents/subagent.go:645-830 | a run has no more steps than the work at its start and thirteen per dispatch |
| `SubAgentProgress.SomethingMoves` | agents/subagent.go:672-676 | while a task is not over some task can move without panicking: slots and locks do not deadlock |
| `SubAgentProgress.EverythingSettles` | agents/subagent.go:492-512 | carried on until nothing moves, every run ends with each registered entry settled exactly once, all slots free and all locks open, whatever panicked |
| `CircuitBreaker.AnchoredDispatch` | agents/subagent.go:528-581 | an anchored dispatch runs on the anchored session or not at all, and exactly if its streak is below the limit and nothing else is in the way |
| `CircuitBreaker.AcceptedDispatch` | agents/subagent.go:548-573 | an accepted dispatch runs on a registered session below the limit |
| `CircuitBreaker.BreakerBounds` | agents/subagent.go:528-581 | over every run in which each dispatch comes after the recording of the one before (a run and its recording are one turn), a task runs out of iterations at most three times in a row, whatever its dispatches name |
| `BreakerTiming.PunctualBound` | agents/subagent.go:774-793 | with settling, counting and anchoring as steps of their own: the limit holds over every run in which each dispatch comes after the recording of the one before |
| `BreakerTiming.SixInARow` | agents/subagent.go:774-793 | it is not enough that each comes after the settling: from any tables with two sessions without failures, a caller that dispatches a task again as soon as it is told of a failure gets six in a row |
| `BreakerTiming.ParallelBound` | agents/subagent.go:528-581 | with at most so many dispatches at once whose outcome is not on record, anchor or not: failures in a row stay within the limit less one plus that many, for the anchored session, or for each of as many sessions if there is no anchor at first |
| `CircuitBreaker.TrippedForGood` | agents/subagent.go:528-581 | behind three in a row every dispatch of the task is refused |
| `CircuitBreaker.ForeignRunResets` | agents/subagent.go:835-846 | another task's run on the anchored session opens the breaker exactly unless it runs out of iterations too |
| `CircuitBreaker.AnchorsBounded` | agents/subagent.go:156-163 | the anchor table keeps its limit; recording keeps the other anchors exactly while it is below it |
| `CircuitBreaker.UnanchoredDispatch` | agents/subagent.go:528-581 | without an anchor a dispatch is accepted exactly if nothing else is in the way and the session it names, or is located on, is below the limit |
| `CircuitBreaker.ForgottenAnchorReopens` | agents/subagent.go:156-163 | after another task's anchor is recorded, a tripped task that is dispatched on another session below the limit is accepted exactly if the table was full (and nothing else is in the way) |
| `DecisionRouting.WaitTable.RegisterWait` | agents/subagent.go:900-909 | the wait is registered if the session is known |
| `DecisionRouting.WaitTable.ClearWait` | agents/subagent.go:915-924 | only the task's own registration goes |
| `DecisionRouting.WaitTable.FindPending` | agents/subagent.go:931-957 | the named session's waiter, else an earliest one; none exactly if there is none |
| `DecisionRouting.MainSession.ResolveDecision` | agents/permission.go:162-230 | a decision is applied to the main session's own request exactly if that waits and the decision is untargeted or targets it; one that names another session is sent exactly if that one waits and takes it; an untargeted one without a request of its own is sent to an earliest waiter or, if that does not take it, is no decision |
| `DecisionRouting.StepRegistered` | agents/subagent.go:900-924 | no clear removes another task's registration, and none is overwritten |
| `DecisionRouting.RunRoutes` | agents/subagent.go:900-988 | over every interleaving from the start on: exactly the waits in progress are registered; what was delivered to a task was received by it or is in its slot; no wait receives twice; a decision answers the wait it was looked up for exactly if that was open when it was sent |
| `DecisionRouting.WaiterIsFound` | agents/subagent.go:931-957 | a waiting task is found by its session's name, and nobody who has waited less is preferred to it |
| `DecisionRouting.SecondAnswersNext` | agents/permission.go:286-338 | of two decisions for one wait the second is delivered too, and answers the next request of the task |
| `Sponsorship.SponsorTable.RegisterSponsored` | agents/subagent.go:379-391 | the cancel function is enrolled under main and sub-session |
| `Sponsorship.SponsorTable.UnregisterSponsored` | agents/subagent.go:395-409 | the entry goes, and an empty main session with it |
| `Sponsorship.SponsorTable.CancelSponsored` | agents/subagent.go:415-436 | exactly the tasks enrolled under the main session, taken off the table |
| `Sponsorship.SponsorTable.RunningSessions` | agents/subagent.go:462-477 | every enrolled sub-session once |
| `Sponsorship.RunExact` | agents/subagent.go:379-436 | over every run from the start on, stopping a main session cancels exactly its executions that are enrolled and not stopped yet; nobody is stopped twice |
| `TaskGraph.CanReach` | tools/task_update.go:212-234 | terminates on every graph, and says yes exactly if there is a path |
| `TaskGraph.TaskStore.AddBlockEdges` | tools/task_update.go:116-148 | the first list: edges noted in the other tasks, or refused |
| `TaskGraph.TaskStore.AddBlockerEdges` | tools/task_update.go:150-182 | the second list likewise |
| `TaskGraph.TaskStore.Execute` | tools/task_update.go:41-197 | the store and the outcome after one update |
| `TaskGraphSafety.RefusedExactly` | tools/task_update.go:116-185 | an update is refused for a cycle exactly if a task to be blocked leads to it, or it leads to one it is to wait for |
| `TaskGraphSafety.UpdateAcyclic` | tools/task_update.go:116-185 | one update keeps the graph free of cycles exactly unless it goes through with a task to be blocked that leads to a task to be waited for |
| `TaskGraphSafety.RunAcyclic` | tools/task_update.go:116-185 | over every run of creations, deletions and updates with one list the graph stays free of cycles |
| `TaskGraphSafety.TwoListsCloseCycle` | tools/task_update.go:116-185 | a store and an update with two lists that close a cycle |
| `TaskGraphSafety.UpdateInverse` | tools/task_update.go:116-185 | the two lists of all tasks stay inverse exactly if the update goes through with every id in the store; or is refused where, of the stored ids in front of the refused one, the task blocks those of the first list already and waits for those of the second one, if that was reached; or does nothing |
| `TaskGraphSafety.RefusedLeavesNote` | tools/task_update.go:116-148 | a refused update that leaves a task waiting for one that does not know of it |
| `TaskLife.UpdateStores` | tools/task_update.go:61-114 | an update that goes through stores the status and details it was given; no update changes those of another task, or of this one if it does not go through |
| `TaskLife.RefusedStatus` | tools/task_update.go:102-114 | a change of status is refused exactly unless it leads from pending or in progress to in progress or an end |
| `TaskLife.PlainChange` | tools/task_update.go:61-114 | a change that names no tasks goes through exactly if its status is allowed |
| `TaskLife.NothingAsked` | tools/task_update.go:61-185 | an update changes nothing exactly if it asks for nothing |
| `TaskLife.UpdateLists` | tools/task_update.go:116-185 | an update that goes through adds exactly the named ids to the task's lists, and the task to the lists of exactly the stored ones |
| `TaskLife.ListsStayDistinct` | tools/task_update.go:116-185 | no list comes to name a task twice |
| `TaskLife.LifeCycle` | tools/task_update.go:102-114 | over every run a finished task stays as it was finished, and none that was begun is pending again, until it is deleted or created anew |
| `TaskGraph.ReachesWithEdge` | tools/task_update.go:212-234 | what one more edge makes reachable |
| `TaskGraph.AcyclicWithEdge` | tools/task_update.go:116-125 | one more edge keeps a graph acyclic exactly if its target does not reach its source |
| `FileState.FileTools.SetStale` | tools/filestate/stale_state.go:52-71 | the state is recorded with the file's own time; at the limit the table is emptied first |
| `FileState.FileTools.CheckStale` | tools/filestate/stale_state.go:104-166 | unread, gone, fresh or changed; a touched file is recorded anew |
| `FileState.FileTools.DeleteStale` | tools/filestate/stale_state.go:170-172 | the record goes, its count stays |
| `FileState.FileTools.PerformEdit` | tools/edit.go:211-346 | files, records and outcome after an edit, branch by branch |
| `FileState.FileTools.PerformWrite` | tools/write.go:186-297 | files, records and outcome after a write, appending or not |
| `FileState.FileTools.ReadText` | tools/read_text.go:70-181 | a repeated reading of an unchanged file is answered from the cache; any other one whose window fits records the file |
| `FileContents.WriteLeaves` | tools/write.go:186-297 | a write leaves the very text it was given and records it; an appending one the old text, closed by a newline if it lacks one, and the new one; a refused one changes nothing; no other file changes |
| `FileContents.EditLeaves` | tools/edit.go:211-346 | an edit fills an empty file with its text, or leaves the file but for the replaced occurrences and records that; any other outcome changes no file |
| `FileContents.EditCounts` | tools/edit.go:303-335 | how many occurrences a successful edit replaces, and says it replaced: as many as asked for, if there are so many |
| `FileContents.EditRefused` | tools/edit.go:211-310 | why an edit does not go through |
| `FileContents.VerdictExact` | tools/filestate/stale_state.go:104-166 | the four verdicts, and that a fresh file is recorded with its own time from then on |
| `FileContents.ReadShows` | tools/read_text.go:70-181 | a reading changes no file and shows what the file holds, exactly if its window fits and is not cached |
| `FileContents.LastWriter` | tools/write.go:186-297 | over every run of readings, edits, writes and outside changes a file holds what the last event that changed it put there |
| `FileStateSafety.RunBounded` | tools/filestate/stale_state.go:62-68 | over every run the table holds no more entries than its counter says, and the counter keeps its limit |
| `FileStateSafety.ApplyHonest` | tools/filestate/stale_state.go:134-155 | one event keeps records honest exactly unless it puts other content under a recorded time |
| `FileStateSafety.FreshExact` | tools/filestate/stale_state.go:104-166 | a file is fresh exactly if it was read and holds what was recorded |
| `FileStateSafety.NoLostUpdates` | tools/edit.go:269-346 | over every interleaving of readings, edits, writes and outside changes without such a disguise, what an edit or overwrite replaces is what was recorded |
| `FileStateSafety.DisguisedChangeIsLost` | tools/filestate/stale_state.go:134-137 | an outside change of a recorded file is lost to an overwrite behind it exactly if it put other content under the recorded time |
| `FileStateSafety.AppendAddsLines` | tools/write.go:199-222 | appending never joins lines: the appended text starts on a line of its own |
| `FileStateSafety.EditGlues` | tools/edit.go:281-335 | a successful edit takes the file apart at the occurrences it was asked for and glues it with the new text; a single edit has one occurrence |
| `FileStateSafety.UnlimitedRefused` | tools/edit.go:292-318 | limit -1 is refused where there are several occurrences, unless all are asked for |
| `FileStateSafety.RecordingForgets` | tools/filestate/stale_state.go:62-68 | recording one file keeps the others exactly while the counter is below its limit |
| `FileStateSafety.ReadingsMakeFresh` | tools/read_text.go:70-95 | over any readings of a file it becomes fit to be edited exactly if it was so before, or one of them fits and its window was not cached under the file's time; readings answered from the cache change nothing |
| `EditMatching.NormalizeQuotes` | tools/edit.go:449-463 | curly quotes become plain ones |
| `EditMatching.QuotesExact` | tools/edit.go:449-463 | which eight characters become which two, and that no other changes |
| `EditMatching.MatchExact` | tools/edit.go:412-445 | a match is found exactly if the file has the text up to quotes; it is in the file, and is the text itself where the file has that |
| `EditMatching.MatchIsFirst` | tools/edit.go:412-430 | where the file does not have the text itself, the first place that has it up to quotes is found |
| `EditMatching.NewlineAttemptIsIdle` | tools/edit.go:431-442 | the third attempt never finds anything |
| `EditMatching.ReplacedIsGlued` | tools/edit.go:303-331 | replacing cuts at the first occurrences and glues with the new text |
| `EditMatching.CutAtFirst` | tools/edit.go:303-331 | texts are cut at their first occurrences: none begins inside a piece, and none is left behind if all are asked for |
| `FileModify.ModifySession.TrackModify` | session/file_modify.go:43-94 | a backup of an existing file at its first tracking |
| `FileModify.ModifySession.RemoveModifyFile` | session/file_modify.go:242-250 | the list filtered in its own space |
| `FileModify.ModifySession.ResolveTargets` | session/file_modify.go:253-267 | the named files that are tracked, or all |
| `FileModify.ModifySession.ConfirmModify` | session/file_modify.go:106-138 | backups and tracking of the targets go |
| `FileModify.ModifySession.Rollback` | session/file_modify.go:150-204 | targets with a backup have it back; backups and tracking of all targets go |
| `FileModify.RunFaithful` | session/file_modify.go:43-204 | over every run, from every session: nothing tracked twice, backups for tracked files only, each with the bytes at first tracking; a tracked file that existed then has one, or was tracked before the run without a break |
| `FileModify.RollbackRestores` | session/file_modify.go:150-204 | behind any run a target is as it was when first tracked exactly if it takes an old backup that holds these bytes; or takes none, and has a backup of its own or is so already; other files keep their bytes |
| `FileModify.ConfirmKeepsFiles` | session/file_modify.go:106-138 | confirming leaves every file alone |
| `FileModify.OldGoesToFirst` | session/file_modify.go:326-336 | of targets named once, an old backup goes to the first one of its bare name without a backup of its own |
| `FileModify.BaseIs` | session/file_modify.go:310-315 | the bare name is what stands behind the last separator |
| `FileModify.NewFileStays` | session/file_modify.go:326-336 | a new file that is rolled back alone is absent exactly if it is absent before and there is no old backup of its bare name |
| `FileModify.OneBackupForTwo` | session/file_modify.go:326-336 | of two files of one bare name without backups of their own, the first one rolled back takes the one old backup and the second one stays as it is |
| `FileModify.NamedTwice` | session/file_modify.go:253-267 | a file with a backup of its own that is named twice ends up with the bytes of an old backup of its bare name, if there is one, else with its own |
| `GlobMatch.MatchGlobSegments` | tools/glob.go:292-315 | says yes exactly if the path falls into one run per pattern segment: any run for a globstar, one matching segment otherwise |
| `GlobMatch.CompileGlobPattern` | tools/glob.go:228-243 | the segments as written, less empty ones and repeated globstars |
| `GlobMatch.SegmentsOf` | tools/glob.go:228-243 | a pattern written from proper segments compiles to these, white space around it and a leading `./` aside |
| `GlobMatch.BackslashesSeparate` | tools/glob.go:228-232 | backslashes separate like slashes |
| `GlobMatch.SegmentsProper` | tools/glob.go:233-241 | no compiled segment is empty, a dot alone, or has a separator |
| `GlobMatch.CompiledMatches` | tools/glob.go:228-243 | compiling changes no match and leaves no two globstars in a row |
| `GlobMatch.DoubleStar` | tools/glob.go:292-315 | two globstars match what one does, wherever they stand |
| `GlobMatch.SplitPathSegs` | tools/glob.go:250-267 | the plain split, but for a last segment left as the buffer had it |
| `GlobMatch.StaleSegment` | tools/glob.go:250-267 | equal to the plain split exactly if the path fills its last segment, is too deep, or finds an empty segment there |
| `GlobMatch.MatchGlobEntry` | tools/glob.go:273-280 | base name for one-segment patterns, relative path otherwise, whatever the buffer held |
| `GlobMatch.RelativePath` | tools/glob.go:273-280 | files below the directory always have such a relative path |
| `GrepContext.CollectMatches` | tools/grep.go:595-612 | exactly the matching lines, ascending |
| `GrepContext.MergeIntervals` | tools/grep.go:615-632 | ordered intervals with gaps that cover exactly the union of the windows |
| `GrepContext.EmitWithContext` | tools/grep.go:636-674 | the rows of the simple specification for the lines in the intervals |
| `GrepContext.GrepWithContext` | tools/grep.go:502-523 | both passes print what the simple specification says of the hits and their context |
| `GrepContext.RowsAreWantedLines` | tools/grep.go:636-674 | every wanted line once and in order, marked as it is, and nothing else but separators |
| `GrepContext.RowsGrouped` | tools/grep.go:636-674 | separators exactly between printed lines that are no neighbours |
| `Text.TrimSpaceEmptyIffBlank` | session/session.go:565-573 | the blank test of Append and of the strip: trimming leaves nothing exactly of white space |
| `Text.TrimSpaceExact` | session/session.go:565-573 | trimming takes white space off both ends and nothing else, until there is none |
| `Text.JoinSplit` | tools/diffutil/diff.go:34-35 | splitting into lines loses nothing |

## Left out

- EventBridge.Recorder.RecordUsage: whether the token ledger takes a record comes with the report, also for a record that is written later, when the call is estimated; its broadcast is left out, and so are a record's names and times.
- EventBridge.Recorder.WriteBackNewMessages: message timestamps come from the clock and are 0 here; joining text blocks is taken as done; the picture message carries only its opening words.
- PairingRepair.RepairToolPairingBreak: the notice is represented by its opening words; error texts that trigger a repair are not matched.
- PairingRepair.Pendings.InvalidateAfterRepair: the event sent for a withdrawn request is only its flag.
- SessionLog.Session.Append: the hooks behind an append (title, usage statistics) and lazy loading are not modelled.
- SessionLog.Session.DeleteRound: the store's Delete is taken to remove every message with that timestamp; the interface in session/session_types.go does not say so, and SessionRefinement.DeletionIsExact and StepSynced rest on it.
- SessionLog.Session.TryCompact: the threshold of 0.8 times the context length is computed in integers, which comes to the same as in double precision for lengths below 2^50.
- SessionLog.Session.DoCompact: handlers for start and end, and their numbers, are not modelled; the compactor's retry is one answer.
- Compaction.NeverForgets: thresholds and cooldown are not in this machine (they are in SessionLog); truncation, deletion and reset beside a compaction are not either.
- RequestAssembly.AssembleMessages: the content blocks of the client library are text, image and placeholder; system sections are given.
- CircuitBreaker.BreakerBounds: the recording of streak and anchor is one turn with the run, where the program settles the task first; the steps are taken apart in BreakerTiming.
- BreakerTiming.ParallelBound: looking up the anchor, claiming the session and reading its streak are one step; failures are counted in the order in which they are recorded; no other task runs on this one's sessions.
- SubAgents.SubAgentManager.Submit: title snapshots, harvest records, events and log lines are left out; the digest of a task text is the text itself.
- SubAgentProgress.EverythingSettles: executions are taken to end; a panic inside Complete or Fail is not modelled, nor one in front of the goroutine's own recover.
- DecisionRouting.RunRoutes: the wait marker on disk and the permission sidecar are left out; executing or denying the pending tool call is not part of the routing.
- Sponsorship.RunExact: cancelling all main sessions at once is the same loop twice and left out.
- TaskGraph.TaskStore.Execute: a task's texts and metadata are one value; errors of the key-value store and the reminder after every third completed task are left out.
- FileState.FileTools.PerformEdit: directory creation, permissions and I/O errors are left out, tool calls are atomic, and the reported diff is the business of LineDiff.
- FileState.FileTools.PerformWrite: the same; byte counts and line counts of the result are left out.
- FileState.FileTools.ReadText: the window of lines, its note and its next offset are left out (a window that ends one line before the last does not announce it); the cache's own bound is not modelled.
- EditMatching.MatchExact: texts are sequences of characters, so broken UTF-8 is not modelled.
- FileModify.ModifySession.Rollback: failing file operations, persistence of the list and its events are left out; backup keys of different paths are taken to differ.
- GlobMatch.MatchGlobSegments: how one segment matches (`filepath.Match`) is a parameter; walking the directory, skipping hidden and heavy directories, sorting and the limit are left out.
- GrepContext.GrepWithContext: how a line matches is a parameter; scanner errors, over-long lines, the external grep and paging are left out.
- LineDiff.WalkShortfall: where shared lines were moved or stand more often in one text, and it is no pure insertion, the condition is on the backtrack's steps.
- LineDiff.GenerateDiff: the unified-diff text and its cut at a size limit are left out.
- The sandbox, the engine, the model client, web tools, document conversion, configuration and the file-system store are not part of this model.
