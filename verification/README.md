# Verified model of baude

baude runs many coding-agent sessions over Git worktrees. This project models
the parts of it whose mistakes lose work, and proves what those parts promise
for every input, every answer of Git and the operating system, and every run.

| module | models |
|---|---|
| `Repository` | the durable aggregate, its four counters, and the checks a save performs |
| `LifecycleReducer` | the lifecycle reducer, the candidate it selects, the engine that persists before it acts |
| `Reconciliation` | the ordered Git check of a checkout and how its answer is recorded |
| `Placement` | when a row may be put into a well-formed state |
| `LifecycleTransitions`, `Reopen`, `Activation`, `ActivationRetry` | the operations that move a checkout row, each a method over the aggregate proved equal to a function of the state |
| `ActivationConditions`, `RetryConditions` | exactly when an activation and its retry go through, and when what they leave can be saved |
| `LifecycleAnswers` | what each of those operations answers and writes, field by field, said over its inputs alone |
| `LifecycleRoundTrips` | what those operations undo of one another |
| `SaveableRuns` | safety over any run of all of them, under exact guards |
| `WorktreeInventory`, `RemovalStatus`, `DefaultBranch` | the readers of Git's worktree list and porcelain-v2 status, and the default-branch resolution over a ref store |
| `ShellQuoting`, `HookSettings` | quoting of hook commands, the recogniser of seeded commands, the settings merge |
| `PermissionFrames`, `EventTail` | the JSON-RPC loop over a byte stream and the two offset-tracked file tails |
| `ProjectDirName` | the sanitised, hashed project-directory name |
| `MarkerRace`, `Admission` | ownership markers created by racing writers, and the row and directory a repository is admitted to |
| `DesktopNotifier` | the banner state machine |
| `FailingInputs` | concrete inputs for the ways the program does less than it says or was meant to |

`Prelude`, `Bytes`, `Json` and `GitTypes` hold shared vocabulary. State the
program updates in place is a class; each mutating method states its whole new
state through a function, and the laws are proved about that function. Git,
the file system, clocks, JSON and UTF-8 decoding, digests and display texts are
parameters, so the laws hold whatever they answer.

Where the code and its comments differ, the model follows the code:

- The permission loop is documented to skip a malformed frame. It does not:
  "incomplete" and "undecodable" are one answer, so it waits.
  `PermissionFrames.UndecodableLineBlocks` and `UndecodableHeadedFrameBlocks`
  say when a frame is served; inputs `FailingInputs.EmptyLineSilencesTheServer`,
  `MissingLengthSilencesTheServer`.
- Header framing is documented as LSP style, where more than one header may
  stand. A second header line makes the length unreadable:
  `PermissionFrames.HeaderIsReadExactly`, `AnotherHeaderIsNotRead`; input
  `FailingInputs.SecondHeaderSilencesTheServer`.
- `revoke_removal_authority`, `mark_stopped_active_recovery`,
  `mark_activation_recovery` and `mark_removed_checkout_unavailable` report no
  failure on rows that still carry a runtime record, and what they leave cannot
  be saved: `LifecycleTransitions.ProtectionSavesExactlyWithoutRuntime`,
  `RetryConditions.RecoveryMarkSavesExactly`; input
  `FailingInputs.RevokingRunningIsUnsaveable`.
- A validation refusal inside an activation or a retry leaves the written rows
  in memory, and an admission validates nothing. Each operation has its exact
  condition, and the run theorem guards on these: `ActivationConditions.PendingSavesExactly`,
  `ExecutionSavesExactly`, `RetryConditions.RetrySavesExactly`,
  `Admission.EnsureSavesExactly`; inputs `FailingInputs.StrayPendingIsRefused`,
  `LeftBehindElsewhereIsUnsaveable`, `RetryUnderAMovedMainIsRefused`,
  `AdmittingAMovedMainIsUnsaveable`.
- When a worktree is left behind by a failed compensation, the recovery row
  drops the recorded owner of the branch: `RetryConditions.OwnerSurvivesExactly`,
  `DroppedOwnerIsNeverReused`; input
  `FailingInputs.FailedCompensationForgetsTheOwner`.
- After a session id changes, the stamp gate of the event tail is kept:
  `EventTail.RotationReadsUnlessStampsCollide`; input
  `FailingInputs.EqualStampsHideTheNewFile`.
- A tail that ends inside a multi-byte character is not read at all:
  `EventTail.QuietPollCatchesUp`; input
  `FailingInputs.HalfACharacterStallsTheTail`.
- Recording an adopted remote HEAD is documented to make later resolutions take
  the ordinary path. Git follows symbolic refs to their end, so that holds only
  of an ordinary ref: `DefaultBranch.ResolvingAgainAgrees`; inputs
  `FailingInputs.AdoptedHeadLoops`, `AdoptedChainAnswersItsEnd`.

## Model

| member | source | states |
|---|---|---|
| `Repository.ValidateAcceptsExactlyWellFormed` | baude-core/src/repository.rs:894-1062 | the ordered early-returning checks accept a state iff it is declaratively well formed: unique keys and common directories, orders unique across all three lists, no dangling repository, one repository per path, unique main and default roles, counters strictly above every key and order, standalone runtimes matching |
| `Repository.SaveAcceptsExactlySaveable` | baude-core/src/repository.rs:669-787 | the save accepts iff the state is well formed and every row's views and runtime record agree with its lifecycle |
| `Repository.SaveableRowsAgree` | baude-core/src/repository.rs:709-787 | the rows of an accepted state agree with themselves, lifecycle by lifecycle: intent, availability and its cause, and a runtime record of the very generation exactly where one may be |
| `Repository.RefusalNamesARealFault` | baude-core/src/repository.rs:669-1062 | whatever refusal the save reports, the state has that very fault: rows of its lists carry the key, path, role or order it names, two distinct ones where it says duplicate |
| `Repository.AllocationIsFresh` | baude-core/src/repository.rs:798-892 | a number handed out is used by no row of any list, and advancing the counter keeps the state saveable |
| `Repository.ShapeDecidesWellFormed` | baude-core/src/repository.rs:894-1062 | well-formedness depends on keys, places, roles and orders alone, so no lifecycle change can break or mend it |
| `Repository.UpdateKeepsSaveable` | baude-core/src/repository.rs:709-769 | replacing one row by another version of itself keeps the state saveable iff the new version passes the row check |
| `Repository.SavedCheckout.SetLifecycle` | baude-core/src/repository.rs:414-444 | the two derived views agree with the new lifecycle whatever the row was; identity, runtime record, session and branch stay |
| `Repository.RepositoryState.Validate` | baude-core/src/repository.rs:894-1062 | the loops over growing hash sets and maps report exactly the first violation in row order |
| `Repository.RepositoryState.ValidateForSave` | baude-core/src/repository.rs:669-677 | likewise for the save, lifecycle checks after the graph checks |
| `LifecycleReducer.CandidateKeepsRowSaveable` | baude-core/src/lifecycle.rs:48-154 | any transition the reducer selects takes a saveable row to a saveable row of the same identity, so generation and runtime record never part |
| `LifecycleReducer.ApplyCandidate` | baude-core/src/lifecycle.rs:141-154 | exactly the named row moves; a missing key changes nothing |
| `LifecycleReducer.LifecycleEngine.DriveEvent` | baude-core/src/lifecycle.rs:170-198 | the in-place drive is the model's step, for every answer of the adapter |
| `LifecycleReducer.EngineKeepsMemoryDurable` | baude-core/src/lifecycle.rs:162-202 | over every event sequence and failure script: memory holds the last persisted lifecycle, the trace lists exactly the persisted transitions, every effect directly follows the acceptance of the candidate that authorises it, and the durable row stays saveable |
| `LifecycleAnswers.ProtectionsEndExactly` | baude-core/src/lifecycle.rs:48-154 | a protection ends by an event iff it kept the intent and the runtime is extinct, or removal authority is restored over a tombstone; every other event leaves it |
| `LifecycleAnswers.OneEventMovesEach` | baude-core/src/lifecycle.rs:48-154 | each unprotected lifecycle answers to exactly one event, with its own next lifecycle, generation and effect; committed removal answers to none |
| `Reconciliation.DriftMeansOnlyTheBranchFailed` | baude-core/src/git.rs:462-524 | a branch drift is reported iff common directory, path and lock state were all verified and only the branch differs, and it carries the branch Git reported |
| `Reconciliation.RecordCheckoutReconciliation` | baude-core/src/lifecycle.rs:586-635 | the in-place recording is the model's |
| `Reconciliation.RoundReachesFixpoint` | baude-core/src/lifecycle.rs:506-635 | for fixed Git facts a second reconcile-then-record round changes nothing and blames the same cause |
| `Reconciliation.RoundBlamesExactly` | baude-core/src/lifecycle.rs:506-635 | a round blames a row iff its identity is unverified or a pinned branch moved; only the three drift protections are ever lifted or relabelled |
| `Reconciliation.BranchProvenance` | baude-core/src/lifecycle.rs:506-635 | over any rounds a pinned row keeps its branch and session; a following row's branch is its first or one Git reported for this verified checkout |
| `Reconciliation.RoundKeepsRow` | baude-core/src/lifecycle.rs:586-635 | one round keeps identity, runtime record, management and saveability |
| `LifecycleAnswers.RoundNamesTheCause` | baude-core/src/lifecycle.rs:506-635 | the cause blamed is that of the first fact that failed, a branch change carrying what was recorded and what was seen |
| `LifecycleAnswers.RecordingWritesTheRow` | baude-core/src/lifecycle.rs:586-635 | Git's answer is recorded on that row alone, and blamed as a round blames it |
| `LifecycleAnswers.RefusalsCarryTheFacts` | baude-core/src/git.rs:462-524 | each refusal carries the recorded value as expected and Git's as observed, and the two differ |
| `LifecycleAnswers.AdoptionIsShown` | baude-core/src/lifecycle.rs:506-584 | a following row shows the adopted ref without `refs/heads/`, nothing when detached, and its session is otherwise the same |
| `LifecycleTransitions.MarkCheckoutActive` | baude-core/src/lifecycle.rs:459-473 | the in-place operation is the model's |
| `LifecycleTransitions.PlanCloseOn` | baude-core/src/lifecycle.rs:891-917 | the in-place close, rolled back on a refusal, is the model's |
| `LifecycleTransitions.MarkTeardownPendingOn` | baude-core/src/lifecycle.rs:919-942 | the in-place operation is the model's |
| `LifecycleTransitions.ReconcileTeardownRecovery` | baude-core/src/lifecycle.rs:1013-1083 | the in-place retry is the model's, for every answer of the operating system |
| `LifecycleTransitions.RevokeRemovalAuthorityOn` | baude-core/src/lifecycle.rs:872-889 | the in-place operation is the model's |
| `LifecycleTransitions.MarkStoppedActiveRecovery` | baude-core/src/lifecycle.rs:944-965 | the in-place operation is the model's |
| `LifecycleTransitions.MarkRemovedCheckoutUnavailable` | baude-core/src/lifecycle.rs:852-867 | the in-place operation is the model's; an unknown key changes nothing |
| `LifecycleTransitions.CommitRemovedCheckout` | baude-core/src/lifecycle.rs:825-850 | the in-place removal is the model's, guarded by the confirmation |
| `LifecycleTransitions.DisownRefusedCheckout` | baude-core/src/lifecycle.rs:1166-1184 | the in-place disowning, rolled back on a refusal, is the model's |
| `LifecycleTransitions.ProtectionSavesExactlyWithoutRuntime` | baude-core/src/lifecycle.rs:852-965 | revoking authority, marking a removed row and marking stopped-active recovery report no failure on a saveable state, and leave a saveable one iff no runtime record is attached |
| `LifecycleTransitions.RevokingARunningCheckoutCannotBeSaved` | baude-core/src/lifecycle.rs:872-889 | on a running checkout the revocation succeeds and cannot be saved |
| `LifecycleTransitions.RemovalKeepsSaveable` | baude-core/src/lifecycle.rs:825-850 | dropping any row keeps a saveable state saveable and is never refused |
| `LifecycleTransitions.DisownRepairsExactlyOneRow` | baude-core/src/lifecycle.rs:1166-1184 | disowning succeeds iff the only fault was that row's lifecycle; otherwise nothing changes |
| `LifecycleTransitions.TeardownKeepsSaveable` | baude-core/src/lifecycle.rs:919-1083 | both teardown operations keep a saveable state saveable; a retry succeeds iff the row awaits one |
| `LifecycleAnswers.MarkingsNameTheirCause` | baude-core/src/lifecycle.rs:852-965 | each marking protects that row alone under the cause it was given, and drops management exactly where it revokes it |
| `LifecycleAnswers.RetriedTeardownAndDisowning` | baude-core/src/lifecycle.rs:1013-1184 | a teardown that fails again carries the new report; a disowned row loses its runtime record and nothing else |
| `LifecycleAnswers.FinishedTeardownIsExtinction` | baude-core/src/lifecycle.rs:1013-1083 | a teardown retried to its end does to the row what the reducer does when the runtime is extinct |
| `LifecycleAnswers.UnknownKeysAreNamed` | baude-core/src/lifecycle.rs:459-2469 | no operation on a key nobody has writes anything, and each reports that key or answers no |
| `LifecycleRoundTrips.FullCycleReturnsHome` | baude-core/src/lifecycle.rs:48-154 | the six events of one runtime's life run the row under exactly that generation and bring it back to where it was |
| `LifecycleRoundTrips.CloseGoesThroughExactly` | baude-core/src/lifecycle.rs:891-917 | a close succeeds iff the session handed back describes the row's own place; then the row rests with it, else nothing changed |
| `LifecycleRoundTrips.TeardownEndsAsClose` | baude-core/src/lifecycle.rs:919-1083 | a partial teardown keeps intent and runtime record, and once a retry completes it the state equals what a close would have left |
| `LifecycleRoundTrips.MarkActiveThenCloseIsIdentity` | baude-core/src/lifecycle.rs:459-917 | marking a row at rest active and closing it with the session it had gives back the very state, and marking twice is marking once |
| `LifecycleRoundTrips.ReopenThenCloseIsIdentity` | baude-core/src/lifecycle.rs:891-1403 | reopening a row at rest whose repository is available, and closing it with its old session, gives back the very state, whatever else the state holds |
| `LifecycleRoundTrips.RemovalGoesThroughExactly` | baude-core/src/lifecycle.rs:825-850 | a removal is committed iff it is of the confirmed child of the confirmed repository; then that child alone is gone, else nothing |
| `LifecycleRoundTrips.PendingThenAbsentIsUndone` | baude-core/src/lifecycle.rs:2131-2432 | recording a pending child and then finding it nowhere restores the state exactly |
| `LifecycleRoundTrips.PendingRemembers` | baude-core/src/lifecycle.rs:2131-2187 | the pending child is appended protected, and remembers the branch and exactly the worktree that held it |
| `Reopen.PlanReopenOn` | baude-core/src/lifecycle.rs:1241-1403 | the in-place reopen over clones is the model's |
| `Reopen.ReopenIsTotal` | baude-core/src/lifecycle.rs:1241-1403 | on a saveable state it succeeds iff the row may reopen, never refuses for persistence, and always leaves a saveable state |
| `Reopen.RefusalOnlyBlocks` | baude-core/src/lifecycle.rs:1241-1403 | a refusal changes at most that row's lifecycle, views and runtime and its repository's health, and never turns intent on |
| `Reopen.LiveChildIsLeftAlone` | baude-core/src/lifecycle.rs:1241-1403 | a refusal beside a live child with a runtime record leaves the state untouched |
| `Reopen.RefusalIsRecorded` | baude-core/src/lifecycle.rs:1241-1403 | otherwise an unprotected row is protected under the cause Git proved |
| `Reopen.ReopenAuthorizesDurableIntent` | baude-core/src/lifecycle.rs:1198-1403 | a success leaves durable intent, the live child's own generation, and a resume target that is still stored |
| `LifecycleAnswers.ReopenDispatches` | baude-core/src/lifecycle.rs:1198-1403 | a success focuses iff the child is live, restarts iff it exited, spawns iff there is none, with its own id; a conversation is resumed iff it is the stored one and the backend has it or the child is live |
| `LifecycleAnswers.ReopenWritesExactly` | baude-core/src/lifecycle.rs:1241-1403 | a success leaves the row running under the live child's generation or active, drops a lost conversation, makes its repository available, and touches nothing else |
| `LifecycleAnswers.ReopenRefusalNamesTheCause` | baude-core/src/lifecycle.rs:1241-1403 | the cause a refusal reports is the standing protection's, or the reconcile's where that may speak |
| `Activation.RecordPendingActivation` | baude-core/src/lifecycle.rs:2131-2187 | the in-place recording is the model's |
| `Activation.ExecuteActivation` | baude-core/src/lifecycle.rs:2494-2780 | the in-place execution with snapshot and rollback is the model's |
| `Activation.ExecutionIsTransactional` | baude-core/src/lifecycle.rs:2494-2780 | on any error the state is the entry state or differs only in the prepared row, now a protected recovery; on success the child is finalized or gone in favour of the reused row; no other row's lifecycle or health ever changes |
| `LifecycleAnswers.FreshActivationAnswers` | baude-core/src/lifecycle.rs:2471-2706 | a new row and the answer agree on key, place and management, which holds iff this program added the worktree; branch, role, session and lifecycle are the prepared ones |
| `LifecycleAnswers.StandingActivationAnswers` | baude-core/src/lifecycle.rs:2596-2706 | a row that stood there keeps its flag, role, numbers and runtime record, and its own flag is the one answered |
| `LifecycleAnswers.LeftBehindIsDescribed` | baude-core/src/lifecycle.rs:2494-2780 | a worktree left behind is recorded under the prepared key at its path, protected, with branch, created flag and both failures as Git gave them |
| `LifecycleAnswers.ExecutionErrorsAreNamed` | baude-core/src/lifecycle.rs:2494-2706 | a failure that leaves nothing behind reports its own reason: the failed discovery, Git's refusal, or the occupant and its cause |
| `Placement.PlacedExactly` | baude-core/src/repository.rs:894-1062 | a row put over another or behind the last leaves a well-formed state well formed iff its numbers are handed out and unused, its repository owns it, its path is no standalone's and every other row tolerates it |
| `Placement.PlacedSavesExactly` | baude-core/src/repository.rs:669-1062 | ... and a saveable state saveable iff it also passes its own check |
| `ActivationConditions.PendingSavesExactly` | baude-core/src/lifecycle.rs:2131-2187 | recording a pending child of a fresh key succeeds iff its row fits, iff the result can be saved; a refusal leaves the row in memory |
| `ActivationConditions.StandingIsNeverRefused` | baude-core/src/lifecycle.rs:2596-2640 | a confirmed activation onto a row that may stand is never refused on a saveable state: no well-formedness is left to check |
| `ActivationConditions.ExecutionSucceedsExactly` | baude-core/src/lifecycle.rs:2494-2780 | on a saveable state an execution succeeds iff Git activated, the fresh discovery confirms it, and the row at the path may stand or, where there is none, the new row fits |
| `ActivationConditions.ExecutionSavesExactly` | baude-core/src/lifecycle.rs:2494-2780 | what an execution leaves can be saved iff it was accepted, or no added worktree was left behind, or the child left behind fits |
| `ActivationRetry.ReconcileActivationRecovery` | baude-core/src/lifecycle.rs:2211-2432 | the in-place retry is the model's |
| `ActivationRetry.MarkActivationRecovery` | baude-core/src/lifecycle.rs:2434-2469 | the in-place marking is the model's; the owner comes from the row itself |
| `ActivationRetry.ProvenanceSurvivesRetries` | baude-core/src/lifecycle.rs:2211-2469 | over any number of blocked retries branch, created flag, owner and compensation stay, every earlier verification text remains a suffix, and no other row moves |
| `ActivationRetry.RetryRespectsOthers` | baude-core/src/lifecycle.rs:2211-2432 | whatever a retry concludes, no unavailable row of another key changes |
| `ActivationRetry.RetrySettlesOnEvidence` | baude-core/src/lifecycle.rs:2211-2432 | a child is dropped or finalized only on a worktree Git lists, at its path or at the recorded owner's |
| `RetryConditions.RetryDecides` | baude-core/src/lifecycle.rs:2211-2432 | on a saveable state a child that is nowhere is dropped; one in place is finalized iff Git names the recorded main worktree, and otherwise refused with the row already edited and the state ill-formed; untrusted or inconclusive facts block |
| `RetryConditions.ReuseDecides` | baude-core/src/lifecycle.rs:2211-2432 | when the old owner still holds the branch, the child becomes its row iff it fits there; a row already there is reused iff it may be and Git names its main worktree, and never touched when it may not |
| `RetryConditions.RetrySavesExactly` | baude-core/src/lifecycle.rs:2211-2432 | what a retry leaves can be saved, and the validation does not refuse it, iff those conditions on state and facts hold |
| `RetryConditions.RecoveryMarkSavesExactly` | baude-core/src/lifecycle.rs:2434-2469 | marking a recovery always succeeds on a saveable state, and leaves one that can be saved iff no runtime record is attached |
| `RetryConditions.OwnerSurvivesExactly` | baude-core/src/lifecycle.rs:2494-2780 | through a failing execution a child keeps the recorded owner of its branch iff no added worktree was left behind or none was recorded |
| `RetryConditions.DroppedOwnerIsNeverReused` | baude-core/src/lifecycle.rs:2211-2780 | once a worktree was left behind, no retry, under any facts, settles on the worktree that held the branch before |
| `LifecycleAnswers.FinalizationClaimsNothingNew` | baude-core/src/lifecycle.rs:2211-2432 | a finalized child keeps flag and role in place; re-pointed at the recorded owner's worktree it claims no authority over it |
| `LifecycleAnswers.ReuseClaimsNothingNew` | baude-core/src/lifecycle.rs:2330-2416 | a row that already stood at the owner's worktree keeps flag, role and record, a held runtime goes on, and the child is gone |
| `LifecycleAnswers.BlockedRetrySaysWhatItRecords` | baude-core/src/lifecycle.rs:2211-2432 | a blocked retry answers its own key and the very detail it records, the prior verification being its suffix |
| `LifecycleAnswers.RecoveryMarkCarries` | baude-core/src/lifecycle.rs:2434-2469 | a recovery mark carries branch, created flag and texts as given, and the owner the row recorded |
| `SaveableRuns.OrdinaryRunsStaySaveable` | baude-core/src/lifecycle.rs:48-1403 | any sequence of reducer events, marks, recordings, closes, reopens, teardowns, removals, disownings and allocations, with any answers, ends saveable with every lifecycle generation the recorded one's |
| `SaveableRuns.StepSavesExactly` | baude-core/src/lifecycle.rs:48-2780 | whatever the operation, what it leaves of a saveable state can be saved iff its guard, a condition on the state and the operation's input, holds before it |
| `SaveableRuns.RunsStaySaveableExactly` | baude-core/src/lifecycle.rs:48-2780 | over any run of all operations every state passed can be saved, with every generation the recorded one's, iff each operation meets its guard where it stands |
| `WorktreeInventory.ParseWorktreePorcelain` | baude-core/src/git.rs:209-289 | the loop with its mutable builder is the fold the laws are about |
| `WorktreeInventory.ParsingUndoesPrinting` | baude-core/src/git.rs:176-289 | parsing a printed non-empty inventory gives back exactly its worktrees |
| `WorktreeInventory.AcceptedIsCoherent` | baude-core/src/git.rs:176-289 | on any bytes, an accepted inventory is non-empty and every record has exactly one of branch and detached unless bare, neither when bare |
| `WorktreeInventory.TruncationNeverInvents` | baude-core/src/git.rs:209-289 | every prefix of a printed inventory fails or parses to a prefix of its worktrees |
| `WorktreeInventory.WorktreesInGitsWords` | baude-core/src/git.rs:176-289 | in Git's own words: a worktree on a branch, a detached one locked for a reason and prunable, and a bare one read as just that, for any path, commit, ref and reason |
| `RemovalStatus.ParseRemovalStatus` | baude-core/src/git.rs:2223-2306 | the index loop computes the verdict on the bytes |
| `RemovalStatus.TrackedBlockers` | baude-core/src/git.rs:2179-2221 | the pushes per status letter, and the faults in their order |
| `RemovalStatus.StatusIsExact` | baude-core/src/git.rs:2154-2306 | bytes are accepted as some records iff those records are valid and the bytes are their print |
| `RemovalStatus.VerdictOnPrinted` | baude-core/src/git.rs:2223-2306 | a printed list yields its records' blockers in order, paths byte for byte |
| `RemovalStatus.EmptyVerdictMeansCleanTree` | baude-core/src/git.rs:2223-2306 | an accepted verdict is empty iff the output was |
| `RemovalStatus.OriginalPathIsOpaque` | baude-core/src/git.rs:2258-2281 | a rename's original path is never read as a record, whatever it looks like |
| `RemovalStatus.LettersDecide` | baude-core/src/git.rs:2179-2306 | a printed ordinary or renamed record reports exactly the blockers its two letters and its submodule field tell of, on its own path, index before worktree before submodule |
| `RemovalStatus.OtherRecordsDecide` | baude-core/src/git.rs:2179-2306 | untracked, ignored and unmerged records report their path as just that, a conflict also a changed submodule |
| `RemovalStatus.OidsAreHexadecimal` | baude-core/src/git.rs:2171-2173 | an object name is accepted iff it is one or more hexadecimal digits |
| `RemovalStatus.ScoresAreDecimal` | baude-core/src/git.rs:2258-2281 | a similarity score is accepted iff it is `R` or `C` and a decimal number |
| `RemovalStatus.PathsInGitsWords` | baude-core/src/git.rs:2154-2306 | in Git's own words, an untracked and an ignored path |
| `RemovalStatus.AdditionInGitsWords` | baude-core/src/git.rs:2154-2306 | ... a path added to the index, for any octal modes and hexadecimal object names |
| `RemovalStatus.RenameInGitsWords` | baude-core/src/git.rs:2154-2306 | ... a rename in the index, whose blocker is on the new path |
| `RemovalStatus.ConflictInGitsWords` | baude-core/src/git.rs:2154-2306 | ... a conflict |
| `DefaultBranch.RefStore.ResolveDefaultBranch` | baude-core/src/git.rs:719-931 | the loops over remotes and worktrees, the reading of symbolic refs to the end of their chain, and the one write, are the model's |
| `DefaultBranch.ResolutionIsConservative` | baude-core/src/git.rs:719-1016 | an error writes nothing; an answer names an existing branch of an admissible remote; the only write ever gives a HEAD to a remote when no remote had one |
| `DefaultBranch.ElectionIsUnanimous` | baude-core/src/git.rs:875-931 | linked worktrees elect a ref iff some voter tracks it and none tracks another; it is ambiguous iff two disagree |
| `DefaultBranch.ResolvingAgainAgrees` | baude-core/src/git.rs:719-1016 | a second resolution gives the same answer and writes nothing iff some remote's HEAD answered already, or the elected upstream is an ordinary ref other than the HEAD that records it |
| `DefaultBranch.TrackedIsConfigured` | baude-core/src/git.rs:719-1016 | what a branch tracks is the ref configured for it, iff that is a branch of an admissible remote with a commit behind it |
| `DefaultBranch.RemotesAre` | baude-core/src/git.rs:719-1016 | the remotes asked are the main branch's, unless it is the repository itself or `origin`, then `origin` |
| `DefaultBranch.EarlierRemotesHaveNone` | baude-core/src/git.rs:719-1016 | a recorded HEAD answers only when every remote asked before has none or one that leads to no commit |
| `DefaultBranch.RefusalsAreTrue` | baude-core/src/git.rs:719-1016 | each refusal is true of the refs: the main branch detached, unborn or not the snapshot's, the HEAD named leading astray or nowhere, the voters disagreeing on the refs listed, no remote with a HEAD, or that very command failing |
| `ShellQuoting.UnquoteInvertsQuote` | baude-core/src/hook.rs:111-127 | unquoting accepts a string iff quoting produced it, and returns what was quoted |
| `ShellQuoting.QuotedReadsLiterally` | baude-core/src/hook.rs:102-113 | inside any command line a quoted string adds exactly its own characters to the word it stands in (POSIX Shell Command Language, sections 2.2.1 and 2.2.2) |
| `ShellQuoting.QuotedArgumentsReadBack` | baude-core/src/hook.rs:102-113 | any list of arguments, quoted and joined, is read back as that list |
| `ShellQuoting.SeededIsExact` | baude-core/src/hook.rs:141-167 | recognised are exactly the quoted or raw absolute path of a `baude` or `bauded` binary followed by ` hook` |
| `ShellQuoting.EveryInstallIsRecognised` | baude-core/src/hook.rs:88-167 | in every directory, with or without an extension, the seeded command is recognised and a shell runs that binary with one argument |
| `HookSettings.MergeHookSettings` | baude-core/src/hook.rs:209-243 | the in-place edit of the cloned tree is the model's merge |
| `HookSettings.ShapeIsExact` | baude-core/src/hook.rs:175-187 | the shape test accepts the written group and nothing else |
| `HookSettings.GroupsAbsorb` | baude-core/src/hook.rs:226-240 | a later merge erases an earlier one iff the earlier command was recognised, the same, or already in a user's group |
| `HookSettings.MergeAbsorbs` | baude-core/src/hook.rs:209-243 | for a recognised earlier command, merging twice is merging the last |
| `HookSettings.MergeIsIdempotent` | baude-core/src/hook.rs:209-243 | merging any command twice is merging it once |
| `HookSettings.OnlyTheLastLauncherShows` | baude-core/src/hook.rs:189-243 | any history of recognised launchers leaves what its last one alone would |
| `HookSettings.HistoryKeepsUserGroups` | baude-core/src/hook.rs:189-243 | over any history the user's groups keep contents and order, followed only by groups unrecognised launchers wrote |
| `HookSettings.OneSeedPerEvent` | baude-core/src/hook.rs:189-243 | after any history ending recognised, each event holds at most one seed, the last one's, at the end |
| `HookSettings.FallbackSurvivesEveryLaunch` | baude-core/src/hook.rs:67-71 | the group of the fallback command survives any history of launches |
| `HookSettings.SiblingsAreUntouched` | baude-core/src/hook.rs:189-243 | no history touches another key or another event |
| `HookSettings.PureGroupIsSeedGroup` | baude-core/src/hook.rs:283-286 | a group is pure iff this program could have written it |
| `HookSettings.SeedingNeverHidesUserContent` | baude-core/src/hook.rs:209-286 | a file reads as pure seed after seeding iff it held nothing of the user's before |
| `PermissionFrames.FrameIsStable` | baude-core/src/permission.rs:249-306 | a frame found on a prefix is the frame of every extension, in either framing and any mixture of CRLF and LF |
| `PermissionFrames.RunPermissionMcp` | baude-core/src/permission.rs:515-540 | for any cutting of the input into reads, replies and questions are those of the concatenated bytes |
| `PermissionFrames.DrainAppend` | baude-core/src/permission.rs:515-540 | draining early and then receiving more is receiving it all first |
| `PermissionFrames.RepliesAreAddressed` | baude-core/src/permission.rs:459-497 | a reply exists iff the request has an id (JSON-RPC 2.0, section 4.1), carries it, is a result or an error, and has each error code under exactly its condition |
| `PermissionFrames.OnlyAllowPermits` | baude-core/src/permission.rs:341-365 | only the exact word permits, with the very input asked about; everything else denies and carries no input |
| `PermissionFrames.AnswersMatchIds` | baude-core/src/permission.rs:459-540 | over a whole run there is one reply per request with an id, in order, and none for the others |
| `PermissionFrames.DrainAnswers` | baude-core/src/permission.rs:515-540 | what is written is what is owed, cut off at the first write that fails |
| `PermissionFrames.EveryFrameIsRead` | baude-core/src/permission.rs:249-306 | lines, and bodies under any header block that declares their length, ended by either kind of blank line, are all read back in any mixture |
| `PermissionFrames.HeaderIsReadExactly` | baude-core/src/permission.rs:275-295 | a header block declares a length iff its text is a name, a colon and nothing but that number with blanks around it, up to the end or another colon |
| `PermissionFrames.StandardIsValid` | baude-core/src/permission.rs:275-295 | the block clients print declares the length they meant, given that ASCII is UTF-8 |
| `PermissionFrames.AnotherHeaderIsNotRead` | baude-core/src/permission.rs:275-295 | a block with another header line after the length is never read |
| `PermissionFrames.WellFramedIsServed` | baude-core/src/permission.rs:249-540 | a client that frames well gets exactly the replies owed for as long as writing works |
| `PermissionFrames.UndecodableLineBlocks` | baude-core/src/permission.rs:249-262 | a complete line is served and passed iff it decodes; one that does not blocks whatever follows |
| `PermissionFrames.UndecodableHeadedFrameBlocks` | baude-core/src/permission.rs:272-306 | a headed frame with complete headers is served once its body arrived iff its length is usable and its body decodes; otherwise it blocks whatever follows |
| `PermissionFrames.HandshakeAnswers` | baude-core/src/permission.rs:315-497 | `initialize` answers protocol, server and version; `tools/list` lists the one tool and the fields it reads |
| `PermissionFrames.QuestionReads` | baude-core/src/permission.rs:315-497 | a question is a call of the one tool, with the tool's name and the input under the first of three names that has one |
| `PermissionFrames.EachQuestionGetsItsDecision` | baude-core/src/permission.rs:459-540 | over a whole run each question is asked once, in order, and its reply carries the decision given to it |
| `EventTail.ClaudeMeta.ReadEventTail` | baude-core/src/meta.rs:873-970 | the in-place poll keeps status, last tool, notification, stop and ring equal to one pass over all events seen, the ring being exactly the last 200 |
| `EventTail.ClaudeMeta.ReadTranscriptTail` | baude-core/src/meta.rs:746-804 | the in-place poll keeps totals, last usage, model, title and mode equal to one pass, totals being the exact sums cut to 64 bits once |
| `EventTail.PollKeepsFollowing` | baude-core/src/meta.rs:873-970 | one poll, while the file grows under it, keeps offset and events in step; if nothing fails no line complete at the stat stays unread, even with frozen stamps |
| `EventTail.AnyScheduleFollows` | baude-core/src/meta.rs:873-970 | over any schedule of appends and polls the tail has seen exactly the lines before its offset |
| `EventTail.QuietPollCatchesUp` | baude-core/src/meta.rs:873-970 | a poll of a quiet file ends just past the last newline with everything seen iff the remainder was UTF-8 or held no new line |
| `EventTail.TranscriptIsOnePass` | baude-core/src/meta.rs:746-804 | over any schedule of appends and polls the records read are those of the lines before the offset |
| `EventTail.QuietTranscriptPollCatchesUp` | baude-core/src/meta.rs:746-804 | a poll of a quiet transcript ends just past the last newline with everything read iff the remainder was UTF-8 or held no new line |
| `EventTail.RotationReadsUnlessStampsCollide` | baude-core/src/meta.rs:873-910 | after a rotation the new file is read iff its stamps differ from the ones kept |
| `EventTail.EventMeans` | baude-core/src/meta.rs:873-970 | what one event does to status, last tool, notification and stop, by its name, and that the ring keeps the last 200 |
| `EventTail.RecordMeans` | baude-core/src/meta.rs:746-804 | what one record does to usage, totals, model, title and mode, counts that are no 64-bit numbers being zero |
| `EventTail.WrittenEventReadsBack` | baude-core/src/hook.rs:55-65 | what the hook writes is what the tail reads, or nothing when the payload names no event |
| `ProjectDirName.HashIsPolynomial` | baude-core/src/meta.rs:87-89 | the wrapping fold equals the base-31 polynomial of the UTF-16 units reduced once to signed 32 bits |
| `ProjectDirName.Base36Loop` | baude-core/src/meta.rs:97-109 | the push-and-reverse loop prints the model's numeral |
| `ProjectDirName.Base36IsNumeral` | baude-core/src/meta.rs:97-109 | the digits' value is the number, with no leading zero |
| `ProjectDirName.NamesAreSafe` | baude-core/src/meta.rs:74-109 | every name is at most 207 characters of ASCII letters, digits and dashes |
| `ProjectDirName.LongNamesCollide` | baude-core/src/meta.rs:74-109 | two long paths share a name iff their first 200 sanitised units and the magnitudes of their reduced polynomials agree |
| `ProjectDirName.ShortAndLongDiffer` | baude-core/src/meta.rs:74-109 | a short path and a long one never share a name |
| `ProjectDirName.UnitsReadBack` | baude-core/src/meta.rs:87-89 | a character's units are its code, or the surrogate pair the UTF-16 formula takes back to it |
| `ProjectDirName.NamesAreRead` | baude-core/src/meta.rs:74-109 | each of the first 200 units shows as itself iff it is an ASCII letter or digit, else as a dash; a long name continues with a dash and the numeral of its hash's magnitude |
| `MarkerRace.ReadMarkerSettled` | baude-core/src/marker.rs:152-173 | the answer is the first valid look of ten, or the tenth |
| `MarkerRace.WriteMarker` | baude-core/src/marker.rs:88-149 | each outcome under exactly its condition on the create and the looks |
| `MarkerRace.RaceIsSafe` | baude-core/src/marker.rs:88-227 | over every interleaving of create, partial fills, failures and looks: at most one writer creates, all who succeed share one common directory, and anyone told otherwise has another |
| `MarkerRace.OnceFilledNobodyGivesUp` | baude-core/src/marker.rs:115-173 | once the marker is filled, a writer whose own calls work never ends without an answer |
| `MarkerRace.ReadMarkerFailsClosed` | baude-core/src/marker.rs:185-227 | a marker is valid iff a plain file of at most 64 KiB decodes to a known scheme; absence, links, size and unreadable files each have their own answer |
| `Admission.AllocateSuffixedRepositoryPath` | baude-core/src/lifecycle.rs:2001-2067 | the loop returns the least usable suffix from 2 to 1000; it is exhausted iff none is usable, and breaks off iff the base or the first free candidate cannot be created |
| `Admission.Workspace.EnsureRepository` | baude-core/src/lifecycle.rs:1655-1791 | state, disk and answer are the model's: a known repository is observed afresh, a new one gets key, order, directory, marker and row, however far the admission gets |
| `Admission.EnsureSavesExactly` | baude-core/src/lifecycle.rs:1655-1791 | what an admission leaves can be saved iff a known repository's main worktree did not move, or it has no rows and no standalone stands at the new one; or a new one's is no standalone's, when a row was added |
| `Admission.ReadmissionComesHome` | baude-core/src/lifecycle.rs:1655-2067 | with nothing deleted, re-admission after losing the state lands on the same directory and writes nothing, whatever admissions came between |
| `Admission.ReadmissionRestoresPhysicalKey` | baude-core/src/lifecycle.rs:1655-1791 | admitted again to any state that does not know it, a repository gets back its physical key |
| `Admission.HomesAreDistinct` | baude-core/src/lifecycle.rs:1655-2067 | no two repositories share a directory, even when their digests collide |
| `Admission.InterruptedExactly` | baude-core/src/lifecycle.rs:1655-2067 | a failing creation breaks an admission off iff it comes to that creation: of the base, of the directory, of its marker, or of the marker's text |
| `Admission.RefusedOnlyWhenFull` | baude-core/src/lifecycle.rs:1795-2067 | a complete admission is refused iff all thousand names are taken by others |
| `Admission.PhysicalKeyIsInjective` | baude-core/src/lifecycle.rs:1703-1717 | the key tells directories apart, those of one digest by their suffix |
| `Admission.PhysicalKeysAreDistinct` | baude-core/src/lifecycle.rs:1655-2067 | two repositories admitted to one disk, with nothing deleted, never carry one physical key, equal digests included |
| `Admission.AdmissionRecords` | baude-core/src/lifecycle.rs:1655-1791 | a new row carries fresh numbers, Git's paths and the key of the directory marked as its own; a collision is reported iff the plain name was somebody else's |
| `Admission.ReadmissionOfTheKnown` | baude-core/src/lifecycle.rs:1655-1683 | admitting a known repository observes its main worktree afresh, marks it available, answers its key and touches nothing else |
| `DesktopNotifier.DesktopNotifier.Tick` | baude/src/notify_desktop.rs:56-132 | the loops over sets and map are the model's tick, banners with title, body and sound |
| `DesktopNotifier.TickIsPointwise` | baude/src/notify_desktop.rs:56-132 | with distinct keys each key moves by its own row alone, and the banners are those the rows deserve and have not had, in row order |
| `DesktopNotifier.FiresExactly` | baude/src/notify_desktop.rs:56-132 | over every run a banner fires iff its row deserves it and every earlier one of its kind was re-armed since |
| `DesktopNotifier.FinishedFiresOnTheEdge` | baude/src/notify_desktop.rs:103-113 | a finished banner fires iff an unarchived row is completed and was busy on the tick before |
| `DesktopNotifier.BannersAreSeparated` | baude/src/notify_desktop.rs:56-132 | two input banners are separated by a busy, archived or absent tick; two exit banners by an absence |
| `DesktopNotifier.BannersFireAsSaid` | baude/src/notify_desktop.rs:56-132 | over every run: input after ten seconds of waiting, once until busy or away; permission at once, once while pending; an exit once, and only of a row seen alive the tick before |
| `DesktopNotifier.BannersSayWhatTheyAreFor` | baude/src/notify_desktop.rs:56-132 | every banner names its row and its kind; the two that need an answer sound, the others are silent |
| `FailingInputs.RevokingRunningIsUnsaveable` | baude-core/src/lifecycle.rs:872-889 | a saveable state with one running row: the revocation succeeds, the result cannot be saved |
| `FailingInputs.RetryUnderAMovedMainIsRefused` | baude-core/src/lifecycle.rs:2300-2316 | a pending child in place under a moved main worktree: the retry errs, and the edited state is ill-formed |
| `FailingInputs.StrayPendingIsRefused` | baude-core/src/lifecycle.rs:2131-2187 | a pending child of an unknown repository: refused, kept in memory, not saveable |
| `FailingInputs.FailedCompensationForgetsTheOwner` | baude-core/src/lifecycle.rs:2494-2780 | a pending child with a recorded owner, an added worktree and a failed removal: the owner is gone, and facts that would have settled the child no longer do |
| `FailingInputs.AdmittingAMovedMainIsUnsaveable` | baude-core/src/lifecycle.rs:1655-1683 | a known repository with a row, its main worktree moved: the admission succeeds, the result cannot be saved |
| `FailingInputs.LeftBehindElsewhereIsUnsaveable` | baude-core/src/lifecycle.rs:2494-2780 | a failed removal after a discovery naming another main worktree: the execution errs, and what stays in memory cannot be saved |
| `FailingInputs.ListingIsAnswered` | baude-core/src/permission.rs:249-540 | a well-framed listing request by itself gets its one reply, under its id |
| `FailingInputs.EmptyLineSilencesTheServer` | baude-core/src/permission.rs:515-540 | an empty line, then that same request: no reply |
| `FailingInputs.MissingLengthSilencesTheServer` | baude-core/src/permission.rs:515-540 | a header block without a length, then the same request: no reply |
| `FailingInputs.SecondHeaderSilencesTheServer` | baude-core/src/permission.rs:275-295 | a length line and a type line over a complete body: no reply, whatever follows |
| `FailingInputs.HalfACharacterStallsTheTail` | baude-core/src/meta.rs:912-931 | a complete line followed by half a character: the offset stays at zero |
| `FailingInputs.EqualStampsHideTheNewFile` | baude-core/src/meta.rs:883-910 | two files of one length and one stamp: after the rotation the second is not read |
| `FailingInputs.AdoptedHeadLoops` | baude-core/src/git.rs:719-1016 | a tracked branch symbolic to an ordinary remote HEAD: adopted once, not found again |
| `FailingInputs.AdoptedChainAnswersItsEnd` | baude-core/src/git.rs:719-1016 | a tracked branch symbolic to another: the branch is adopted, and asking again answers the other |

## Left out

- Running Git, processes, PTYs, sockets, `osascript`, clocks and the environment: each is an arbitrary answer.
- SHA-256, base64, UTF-8 and JSON decoding: parameters; framing round trips assume only that ASCII decodes to itself (for the header block clients print), the marker race only that no strict prefix of a printed marker decodes.
- The texts of errors and observations: constants or parameters.
- Checkout rows are values in the aggregate's list, because the list owns them; aliasing between rows is not modelled.
- `EventTail.ClaudeMeta.ReadTranscriptTail`: totals wrap at 64 bits; a build with overflow checks would panic there instead, and the usage bridge file may overwrite the model name.
- `Admission.Workspace.EnsureRepository`: directories are a digest and a suffix rather than a joined name; digests are twelve hexadecimal digits, so the names are distinct. Of the collision report only whether there is one is kept.
- `DefaultBranch.RefStore.ResolveDefaultBranch`: a Git command that exits oddly, or prints what is no single UTF-8 line, is one failed probe; the text of the failure is not kept.
- Admissions racing for one directory: the race is modelled at the marker, the admissions themselves one after another.
- Paths that are not UTF-8: `ProjectDirName` starts from the text the lossy conversion gives.
- Deleting or replacing markers and directories by hand.
- `topology_blockers` and the submodule listing: field comparisons, and a suffix rule that is ambiguous for paths containing ` (`.
- `startup_recovery_program` lists recovery steps from a table, `RepositoryReservations` holds one entry per repository behind a mutex, `allocate_checkout_key_skipping_existing` allocates until a path is free, and `compensate_uncommitted_activation` asks Git to remove a worktree: none of them writes a row.
- The two quoting forms a shell also knows (double quotes and `$'...'`) and expansions: the evaluator gives no reading for them.
- Merging of `.mcp.json`, permission-mode flags and the bridge, launch, breadcrumb and folder-workspace files.
