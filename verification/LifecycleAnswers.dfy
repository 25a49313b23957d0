/** What each lifecycle operation answers and writes, field by field, said over
    its inputs alone (baude-core/src/lifecycle.rs). */
module LifecycleAnswers {
  import opened Prelude
  import opened Repository
  import opened LifecycleReducer
  import opened GitTypes
  import opened Reconciliation
  import opened LifecycleTransitions
  import opened Placement
  import opened Reopen
  import opened Activation
  import opened ActivationConditions
  import opened ActivationRetry
  import opened RetryConditions

  // ----- The reducer -----

  /** A protection ends by an event only where it kept the user's intent and the
      runtime is gone, or where removal authority is restored over a tombstone. */
  lemma ProtectionsEndExactly(cause: UnavailableCause, event: Event)
    ensures var t := Reduce(Protected(cause), event);
      && (t.effects != [] <==>
          ((event.RuntimeExtinct? && (cause.TeardownPending? || cause.StoppedActiveRecovery?))
           || (event.RestoreRemovalAuthority? && cause.RemovalTombstone?)))
      && (t.effects == [] ==> t.state == Protected(cause))
      && (t.effects != [] ==> t.state == if event.RuntimeExtinct? then CheckoutLifecycle.Inactive else CheckoutLifecycle.Active)
  {
  }

  /** Outside protection each lifecycle answers to one event, and none once removal is committed. */
  lemma OneEventMovesEach(state: CheckoutLifecycle, event: Event)
    requires !state.Protected?
    ensures Reduce(state, event).effects != [] <==> match state
      case Inactive => event.RequestActivation?
      case Activating => event.ActivationVerified?
      case Active => event.LaunchRegistered?
      case Launching(_) => event.LaunchReleased?
      case Running(_) => event.RequestClose?
      case Stopping(_) => event.RuntimeExtinct?
      case RemovalCommitted => false
    ensures Reduce(state, event).effects == [] ==> Reduce(state, event).state == state
    ensures Reduce(state, event).effects != [] ==> match state
      case Inactive => Reduce(state, event) == Transition(Activating, [PersistActivation])
      case Activating => Reduce(state, event) == Transition(CheckoutLifecycle.Active, [PersistActive])
      case Active => Reduce(state, event) == Transition(Launching(event.runtime.generation), [PersistRuntime])
      case Launching(generation) => Reduce(state, event) == Transition(Running(generation), [ReleaseRuntime])
      case Running(generation) => Reduce(state, event) == Transition(Stopping(generation), [PersistStop])
      case _ => Reduce(state, event) == Transition(CheckoutLifecycle.Inactive, [PersistInactive])
  {
  }

  /** Retrying a teardown to its end does to the row what the reducer does when the runtime is extinct. */
  lemma FinishedTeardownIsExtinction(s: StateView, key: U64, i: nat)
    requires FindCheckout(s.checkouts, key) == Some(i)
    requires s.checkouts[i].lifecycle.Protected? && s.checkouts[i].lifecycle.cause.TeardownPending? && s.checkouts[i].ViewsAgree()
    ensures RecoverTeardown(s, key, Ok(())).0 == s.(checkouts := s.checkouts[i := CandidateFor(s.checkouts[i], RuntimeExtinct).ApplyToRow(s.checkouts[i])])
  {
  }

  // ----- Protections -----

  /** Row `i` alone is protected under this cause; what it owns and where it stands stays. */
  predicate ProtectedUnder(s: StateView, s': StateView, i: nat, cause: UnavailableCause) {
    && i < |s.checkouts| && |s'.checkouts| == |s.checkouts|
    && s' == s.(checkouts := s.checkouts[i := s'.checkouts[i]])
    && var row, row' := s.checkouts[i], s'.checkouts[i];
      && row'.lifecycle == Protected(cause) && row'.health == Unavailable(cause)
      && (row'.activeIntent <==> cause.TeardownPending? || cause.StoppedActiveRecovery?)
      && SameIdentity(row, row') && row'.observedBranch == row.observedBranch && row'.session.branch == row.session.branch
  }

  /** Each marking names the very cause it was given, and drops management or the runtime record exactly where it must. */
  lemma MarkingsNameTheirCause(s: StateView, key: U64, i: nat, agent: bool, shell: bool, detail: string, report: TeardownReport)
    requires FindCheckout(s.checkouts, key) == Some(i)
    ensures var row := s.checkouts[i];
      var revoked, removed := RevokeRemovalAuthority(s, key).0, MarkRemovedUnavailable(s, key, detail);
      var stopped, torn := MarkStoppedActive(s, key, agent, shell, detail).0, MarkTeardownPending(s, key, report).0;
      && ProtectedUnder(s, revoked, i, RemovalTombstone("removal authority revoked before Git mutation"))
      && !revoked.checkouts[i].managedByBaude && revoked.checkouts[i].ownedRuntime == row.ownedRuntime
      && ProtectedUnder(s, removed, i, RemovalTombstone(detail))
      && !removed.checkouts[i].managedByBaude && removed.checkouts[i].ownedRuntime == row.ownedRuntime
      && ProtectedUnder(s, stopped, i, StoppedActiveRecovery(agent, shell, detail))
      && stopped.checkouts[i].managedByBaude == row.managedByBaude && stopped.checkouts[i].ownedRuntime == row.ownedRuntime
      && ProtectedUnder(s, torn, i, UnavailableCause.TeardownPending(report))
      && torn.checkouts[i].managedByBaude == row.managedByBaude && torn.checkouts[i].ownedRuntime == row.ownedRuntime
      && torn.checkouts[i].session == row.session.(shellOpen := report.shellPid.Some?)
  {
    hide FirstViolation, FindCheckout;
  }

  /** A retried teardown that fails again carries the new report; a disowned row loses its record. */
  lemma RetriedTeardownAndDisowning(s: StateView, key: U64, i: nat, report: TeardownReport, detail: string)
    requires FindCheckout(s.checkouts, key) == Some(i)
    ensures AwaitsTeardown(s.checkouts[i]) ==>
      var again := RecoverTeardown(s, key, Err(report)).0;
      && ProtectedUnder(s, again, i, UnavailableCause.TeardownPending(report))
      && again.checkouts[i].ownedRuntime == s.checkouts[i].ownedRuntime && again.checkouts[i].session == s.checkouts[i].session
    ensures Disown(s, key, detail).1 ==>
      var disowned := Disown(s, key, detail).0;
      && ProtectedUnder(s, disowned, i, Other(detail))
      && disowned.checkouts[i].ownedRuntime.None? && disowned.checkouts[i].managedByBaude == s.checkouts[i].managedByBaude
  {
    hide FirstViolation, FirstSaveViolation, FindCheckout;
  }

  /** No operation on a key nobody has writes anything, and each says so. */
  lemma UnknownKeysAreNamed(s: StateView, key: U64, runtime: RetainedSession, report: TeardownReport, request: ReopenRequest,
                            targetExists: string -> bool, facts: RetryFacts)
    requires FindCheckout(s.checkouts, key).None? && request.checkout == key
    ensures MarkActive(s, key) == (s, Some(MissingCheckout(key)))
    ensures RecordReconciliation(s, key, Ok(())) == Err(MissingCheckout(key))
    ensures PlanClose(s, key, runtime) == (s, Err(LifecycleCheckoutMissing(key)))
    ensures MarkTeardownPending(s, key, report) == (s, Err(LifecycleCheckoutMissing(key)))
    ensures RecoverTeardown(s, key, Err(report)) == (s, Err(LifecycleCheckoutMissing(key)))
    ensures RevokeRemovalAuthority(s, key) == (s, Err(LifecycleCheckoutMissing(key)))
    ensures MarkStoppedActive(s, key, false, false, "") == (s, Err(LifecycleCheckoutMissing(key)))
    ensures MarkRecovery(s, key, "", None, "", "") == (s, Err(LifecycleCheckoutMissing(key)))
    ensures MarkRemovedUnavailable(s, key, "") == s && Disown(s, key, "") == (s, false)
    ensures PlanReopen(s, request, targetExists) == (s, Err(Missing))
    ensures Retry(s, key, facts) == (s, Err(LifecycleCheckoutMissing(key)))
  {
  }

  /** A recovery mark carries what it was given, and the owner the row already recorded. */
  lemma RecoveryMarkCarries(s: StateView, key: U64, i: nat, branch: string, created: Option<bool>, verification: string, compensation: string)
    requires FindCheckout(s.checkouts, key) == Some(i)
    ensures var after := MarkRecovery(s, key, branch, created, verification, compensation).0;
      var owner := match s.checkouts[i].health
        case Unavailable(PendingActivation(_, _, owner)) => owner
        case Unavailable(ActivationRecovery(_, _, owner, _, _)) => owner
        case _ => None;
      && ProtectedUnder(s, after, i, ActivationRecovery(branch, created, owner, verification, compensation))
      && after.checkouts[i].ownedRuntime == s.checkouts[i].ownedRuntime && after.checkouts[i].managedByBaude == s.checkouts[i].managedByBaude
  {
    hide FirstViolation, FindCheckout;
  }

  // ----- Reconciliation -----

  /** What Git answered about a row is recorded on that row alone, and blamed as a round blames it. */
  lemma RecordingWritesTheRow(s: StateView, key: U64, i: nat, facts: GitFacts, commonDir: Path)
    requires FindCheckout(s.checkouts, key) == Some(i)
    ensures var row := s.checkouts[i];
      var answer := ReconcileCheckout(facts, commonDir, row.observedPath, row.observedBranch);
      var recorded := RecordReconciliation(s, key, if answer.Ok? then Ok(()) else Err(answer.error));
      && recorded.Ok? && recorded.value.1 == Round(row, facts, commonDir).1
      && |recorded.value.0.checkouts| == |s.checkouts| && recorded.value.0.checkouts[i] == Round(row, facts, commonDir).0
      && recorded.value.0 == s.(checkouts := s.checkouts[i := recorded.value.0.checkouts[i]])
  {
  }

  /** The cause a refused reconcile is blamed on: the first fact that failed, with what was recorded and what was seen. */
  lemma RoundNamesTheCause(row: SavedCheckout, facts: GitFacts, commonDir: Path)
    ensures var blamed := Round(row, facts, commonDir).1;
      if !facts.present then blamed == Some(Missing)
      else if facts.discovery.Err? then blamed == Some(Other(facts.discovery.error))
      else
        var git := facts.discovery.value;
        if git.commonDir != commonDir then blamed == Some(IdentityChanged)
        else if git.selected.path != row.observedPath then blamed == Some(PathChanged)
        else if git.selected.locked || git.selected.prunable then blamed == Some(LockedOrPrunable)
        else if !row.role.ManagedBranch? then blamed.None?
        else if git.selected.detached then blamed == Some(Detached)
        else if git.selected.branch != row.observedBranch then blamed == Some(BranchChanged(row.observedBranch, git.selected.branch))
        else blamed.None?
  {
  }

  /** A refusal carries what was recorded as expected and what was seen as observed. */
  lemma RefusalsCarryTheFacts(facts: GitFacts, commonDir: Path, path: Path, branch: Option<string>)
    requires ReconcileCheckout(facts, commonDir, path, branch).Err?
    ensures match ReconcileCheckout(facts, commonDir, path, branch).error
      case CheckoutMissing(p) => p == path && !facts.present
      case DiscoveryFailed(p, detail) => p == path && facts.discovery == Err(detail)
      case CommonDirChanged(expected, observed) => expected == commonDir != observed == facts.discovery.value.commonDir
      case WorktreeMoved(expected, observed) => expected == path != observed == facts.discovery.value.selected.path
      case BranchDrifted(expected, observed) => expected == branch != observed == facts.discovery.value.selected.branch
      case HeadDetached => facts.discovery.value.selected.detached
      case WorktreeLocked => facts.discovery.value.selected.locked || facts.discovery.value.selected.prunable
  {
  }

  /** A following row that adopts a branch shows its short name: the ref without `refs/heads/`, and nothing when detached. */
  lemma AdoptionIsShown(row: SavedCheckout, facts: GitFacts, commonDir: Path)
    requires Follows(row) && IdentityVerified(facts, commonDir, row.observedPath)
    requires facts.discovery.value.selected.detached || facts.discovery.value.selected.branch != row.observedBranch
    ensures var after, git := Round(row, facts, commonDir).0, facts.discovery.value.selected;
      && (git.detached ==> after.observedBranch.None? && after.session.branch.None?)
      && (!git.detached ==> after.observedBranch == git.branch && (git.branch.Some? <==> after.session.branch.Some?))
      && (!git.detached && git.branch.Some? ==>
          (git.branch.value == "refs/heads/" + after.session.branch.value
           || (!("refs/heads/" <= git.branch.value) && after.session.branch == git.branch)))
      && after.session == row.session.(branch := after.session.branch)
  {
  }

  // ----- Reopen -----

  /** What a successful reopen dispatches and resumes: a live child is focused,
      an exited one restarted, and without one a runtime is spawned; the stored
      conversation is resumed exactly while the backend has it or the child is live. */
  lemma ReopenDispatches(s: StateView, request: ReopenRequest, targetExists: string -> bool)
    requires PlanReopen(s, request, targetExists).1.Ok?
    ensures FindCheckout(s.checkouts, request.checkout).Some?
    ensures var plan, row := PlanReopen(s, request, targetExists).1.value, s.checkouts[FindCheckout(s.checkouts, request.checkout).value];
      && (forall id :: plan.dispatch == Focus(id) <==> request.runtime == Live(id))
      && (forall id :: plan.dispatch == Restart(id) <==> request.runtime == Exited(id))
      && (plan.dispatch == Spawn <==> request.runtime == Absent)
      && plan.repository == row.repositoryKey && plan.checkout == request.checkout
      && (forall c :: plan.mode == ResumeId(c) <==> row.session.resumeId == Some(c) && (request.runtime.Live? || targetExists(c)))
  {
    hide FirstSaveViolation, FindCheckout, PutWithHealth;
  }

  /** The row as a reopen leaves it: running under the live child's own
      generation or active; its session loses a conversation that is gone and
      shows an adopted branch, and is otherwise the same. */
  predicate Reopened(row: SavedCheckout, row': SavedCheckout, request: ReopenRequest, targetExists: string -> bool) {
    && row'.lifecycle == (if request.runtime.Live? && row.ownedRuntime.Some? then Running(row.ownedRuntime.value.generation) else CheckoutLifecycle.Active)
    && row'.ownedRuntime == (if request.runtime.Live? then row.ownedRuntime else None)
    && row'.managedByBaude == row.managedByBaude
    && row'.session == row.session.(resumeId := row'.session.resumeId, branch := row'.session.branch)
    && row'.session.resumeId == (if row.session.resumeId.Some? && (request.runtime.Live? || targetExists(row.session.resumeId.value))
                                 then row.session.resumeId else None)
    && (request.reconciliation.Ok? ==> row'.session.branch == row.session.branch && row'.observedBranch == row.observedBranch)
  }

  lemma ResumeIs(stored: Option<string>, live: bool, targetExists: string -> bool)
    ensures ResumeMode(stored, id => live || targetExists(id)).0 == if stored.Some? && (live || targetExists(stored.value)) then stored else None
  {
  }

  lemma ReopenedRowIs(row: SavedCheckout, request: ReopenRequest, targetExists: string -> bool)
    ensures Reopened(row, ReopenedRow(row, request, ResumeMode(row.session.resumeId, id => request.runtime.Live? || targetExists(id)).0),
                     request, targetExists)
  {
    hide ResumeMode;
    ResumeIs(row.session.resumeId, request.runtime.Live?, targetExists);
    ReopenedFrom(row, request, ResumeMode(row.session.resumeId, id => request.runtime.Live? || targetExists(id)).0);
  }

  lemma ReopenedFrom(row: SavedCheckout, request: ReopenRequest, resumeId: Option<string>)
    ensures var row' := ReopenedRow(row, request, resumeId);
      && row'.lifecycle == (if request.runtime.Live? && row.ownedRuntime.Some? then Running(row.ownedRuntime.value.generation) else CheckoutLifecycle.Active)
      && row'.ownedRuntime == (if request.runtime.Live? then row.ownedRuntime else None)
      && row'.managedByBaude == row.managedByBaude
      && row'.session == row.session.(resumeId := resumeId, branch := row'.session.branch)
      && (request.reconciliation.Ok? ==> row'.session.branch == row.session.branch && row'.observedBranch == row.observedBranch)
  {
    hide SavedCheckout.SetLifecycle, ShortBranch, AdoptedBranch;
  }

  /** A successful reopen leaves that row and its repository available, and nothing else changed. */
  lemma ReopenWritesExactly(s: StateView, request: ReopenRequest, targetExists: string -> bool)
    requires PlanReopen(s, request, targetExists).1.Ok?
    ensures FindCheckout(s.checkouts, request.checkout).Some?
    ensures var i := FindCheckout(s.checkouts, request.checkout).value;
      var after, r := PlanReopen(s, request, targetExists).0, FindRepository(s.repositories, s.checkouts[i].repositoryKey);
      && |after.checkouts| == |s.checkouts| && Reopened(s.checkouts[i], after.checkouts[i], request, targetExists)
      && after == s.(checkouts := s.checkouts[i := after.checkouts[i]],
                     repositories := if r.None? then s.repositories
                                     else s.repositories[r.value := s.repositories[r.value].(health := Available)])
  {
    hide FirstSaveViolation, FindCheckout, FindRepository, ReopenedRow, Reopened;
    var row := s.checkouts[FindCheckout(s.checkouts, request.checkout).value];
    ReopenedRowIs(row, request, targetExists);
  }

  /** The cause a refused reopen reports: the reconcile's own where it may speak, else the protection that holds. */
  lemma ReopenRefusalNamesTheCause(s: StateView, request: ReopenRequest, targetExists: string -> bool)
    requires Saveable(s) && FindCheckout(s.checkouts, request.checkout).Some? && PlanReopen(s, request, targetExists).1.Err?
    ensures var row, cause := s.checkouts[FindCheckout(s.checkouts, request.checkout).value], PlanReopen(s, request, targetExists).1.error;
      var refused := request.reconciliation.Err? && (request.reconciliation.error.BranchDrift().None? || row.role.ManagedBranch?);
      if row.lifecycle.RemovalCommitted? then cause == RemovalTombstone("removal committed")
      else if row.lifecycle.Protected? && !(refused && row.lifecycle.cause.IdentityChanged? && request.reconciliation.error.BranchDrift().Some?) then
        cause == row.lifecycle.cause
      else refused && cause == CauseOf(request.reconciliation.error)
  {
    hide Saveable, FirstSaveViolation, FindCheckout, PutWithHealth, ReopenedRow, RefusedRow, Complete, CommitIfSaveable, SavedCheckout.SetLifecycle;
    ReopenIsTotal(s, request, targetExists);
  }

  // ----- Activation -----

  /** What an activation records and answers on a new row: the disposition and
      the place Git named, and management exactly when this program added the worktree. */
  predicate FreshlyRecorded(row: SavedCheckout, done: RecordedActivation, prepared: PreparedActivation, outcome: ActivationOutcome, main: Path, name: string) {
    var path, linked := outcome.record.path, outcome.record.path != main;
    && done == RecordedActivation(prepared.repository, prepared.checkout, outcome.disposition, !outcome.disposition.Reused?, path, main, prepared.branch)
    && row.key == prepared.checkout && row.repositoryKey == prepared.repository && row.firstSeenOrder == prepared.firstSeenOrder
    && row.managedByBaude == !outcome.disposition.Reused? && row.role == (if linked then ManagedBranch else Main)
    && row.observedPath == path && row.observedBranch == Some("refs/heads/" + prepared.branch)
    && row.lifecycle.Active? && row.activeIntent && row.health.Available? && row.ownedRuntime.None?
    && row.session == RetainedSession(name, path, main, Some(prepared.branch), linked, false, false, false, None)
  }

  lemma FreshActivationAnswers(s: StateView, prepared: PreparedActivation, git: ActivationGit, nameOf: Path -> string, textOf: LifecycleError -> string)
    requires Execute(s, prepared, git, nameOf, textOf).1.Ok?
    requires FindAt(s.checkouts, prepared.repository, git.activation.value.record.path).None?
    ensures var (after, r) := Execute(s, prepared, git, nameOf, textOf);
      var main := git.afterwards.value.mainWorktree;
      exists row <- after.checkouts ::
        FreshlyRecorded(row, r.value, prepared, git.activation.value, main, nameOf(main) + ":" + prepared.branch)
  {
    hide FirstViolation, FindAt, FindRepository, Recover;
    RecoverNeverSucceeds(s);
    var main := git.afterwards.value.mainWorktree;
    PutOrPushKeepsOthers(s, ActivatedRow(prepared, git.activation.value, main, SessionName(nameOf, main, prepared.branch)));
  }

  /** On a row that stood there: its own flag, role, numbers and record stay, its
      flag is the one answered, and its session now shows the branch at that place. */
  predicate StandingRecorded(row: SavedCheckout, row': SavedCheckout, done: RecordedActivation, prepared: PreparedActivation,
                             outcome: ActivationOutcome, main: Path)
  {
    var path := outcome.record.path;
    && done == RecordedActivation(prepared.repository, row.key, outcome.disposition, row.managedByBaude, path, main, prepared.branch)
    && row'.key == row.key && row'.managedByBaude == row.managedByBaude && row'.role == row.role && row'.firstSeenOrder == row.firstSeenOrder
    && row'.observedPath == path && row'.observedBranch == Some("refs/heads/" + prepared.branch) && row'.ownedRuntime == row.ownedRuntime
    && row'.lifecycle == (if row.key == prepared.checkout then CheckoutLifecycle.Active else row.lifecycle)
    && row'.session == row.session.(cwd := path, repoRoot := main, branch := Some(prepared.branch), isWorktree := path != main)
  }

  lemma StandingActivationAnswers(s: StateView, i: nat, prepared: PreparedActivation, git: ActivationGit,
                                  nameOf: Path -> string, textOf: LifecycleError -> string)
    requires Execute(s, prepared, git, nameOf, textOf).1.Ok?
    requires FindAt(s.checkouts, prepared.repository, git.activation.value.record.path) == Some(i)
    ensures var (after, r) := Execute(s, prepared, git, nameOf, textOf);
      exists row' <- after.checkouts ::
        StandingRecorded(s.checkouts[i], row', r.value, prepared, git.activation.value, git.afterwards.value.mainWorktree)
  {
    hide FirstViolation, FindAt, FindRepository, Recover;
    RecoverNeverSucceeds(s);
    hide OccupantRow, StandingRecorded, Others;
    var row, path, main := s.checkouts[i], git.activation.value.record.path, git.afterwards.value.mainWorktree;
    var row' := OccupantRow(row, prepared, path, main);
    var rows := s.checkouts[i := row'];
    OccupantIs(row, prepared, git.activation.value, main);
    assert rows[i] == row' && row' in rows;
    if row.key != prepared.checkout { KeptByOthers(rows, i, prepared.checkout); }
  }

  lemma OccupantIs(row: SavedCheckout, prepared: PreparedActivation, outcome: ActivationOutcome, main: Path)
    requires OccupantFault(row, prepared).None? && row.observedPath == outcome.record.path
    ensures var done := RecordedActivation(prepared.repository, row.key, outcome.disposition, row.managedByBaude, outcome.record.path, main, prepared.branch);
      StandingRecorded(row, OccupantRow(row, prepared, outcome.record.path, main), done, prepared, outcome, main)
    ensures OccupantRow(row, prepared, outcome.record.path, main).key == row.key
  {
  }

  /** The child a failed compensation leaves: protected at the added worktree,
      with the branch, whether it was created, and both failures as Git gave them. */
  predicate RecoveryRecorded(row: SavedCheckout, prepared: PreparedActivation, git: ActivationGit)
    requires git.discovery.Ok?
  {
    var main := git.discovery.value.mainWorktree;
    && row.key == prepared.checkout && row.repositoryKey == prepared.repository && row.firstSeenOrder == prepared.firstSeenOrder
    && row.role.ManagedBranch? && row.managedByBaude && !row.activeIntent && row.ownedRuntime.None?
    && row.observedBranch == Some("refs/heads/" + prepared.branch)
    && row.session.repoRoot == main && row.session.branch == Some(prepared.branch) && row.session.isWorktree && row.session.cwd == row.observedPath
    && row.lifecycle.Protected? && row.health == Unavailable(row.lifecycle.cause)
    && match git.activation
       case Err(PostAddCompensationFailed(branch, created, verification, compensation)) =>
         row.observedPath == prepared.managedPath
         && row.lifecycle.cause == ActivationRecovery(branch, Some(created), None, verification, compensation)
       case Ok(outcome) =>
         && row.observedPath == outcome.record.path && row.lifecycle.cause.ActivationRecovery? && git.removal.Err?
         && row.lifecycle.cause.branch == prepared.branch && row.lifecycle.cause.createdBranch == Some(outcome.disposition.Created?)
         && row.lifecycle.cause.compensation == git.removal.error
       case _ => false
  }

  lemma LeftBehindIsDescribed(s: StateView, prepared: PreparedActivation, git: ActivationGit, nameOf: Path -> string, textOf: LifecycleError -> string)
    requires Execute(s, prepared, git, nameOf, textOf).1.Err? && LeavesWorktreeBehind(git)
    ensures exists row <- Execute(s, prepared, git, nameOf, textOf).0.checkouts :: RecoveryRecorded(row, prepared, git)
  {
    hide FirstViolation, Finalize, PutOrPush;
    var main := git.discovery.value.mainWorktree;
    if git.activation.Err? {
      var f := git.activation.error;
      var row := RecoveryRow(prepared, prepared.managedPath, main, SessionName(nameOf, main, prepared.branch), f.branch, f.createdBranch, f.verification, f.compensation);
      PutOrPushKeepsOthers(s, row);
    } else {
      var outcome, result := git.activation.value, Finalize(s, prepared, git.activation.value, git.afterwards, nameOf);
      var row := RecoveryRow(prepared, outcome.record.path, main, prepared.branch, prepared.branch,
                             outcome.disposition.Created?, textOf(result.error), git.removal.error);
      PutOrPushKeepsOthers(s, row);
    }
  }

  /** A failing execution that leaves nothing behind reports its own reason. */
  lemma ExecutionErrorsAreNamed(s: StateView, prepared: PreparedActivation, git: ActivationGit, nameOf: Path -> string, textOf: LifecycleError -> string)
    requires !LeavesWorktreeBehind(git)
    ensures var r := Execute(s, prepared, git, nameOf, textOf).1;
      if git.discovery.Err? then r == Err(Discovery(git.discovery.error))
      else if git.activation.Err? then r == Err(Git(git.activation.error.detail))
      else if git.afterwards.Err? then r == Err(Discovery(git.afterwards.error))
      else if Confirmed(s, prepared, git.activation.value.record, git.afterwards) then
        forall i | FindAt(s.checkouts, prepared.repository, git.activation.value.record.path) == Some(i)
          && s.checkouts[i].observedBranch == Some("refs/heads/" + prepared.branch) && s.checkouts[i].key != prepared.checkout
          && s.checkouts[i].health.Unavailable? ::
          r == Err(OccupiedProtected(s.checkouts[i].key, s.checkouts[i].health.cause))
      else r.Err? && (r.error.Topology? || r.error == RepositoryMissing(prepared.repository))
  {
    hide FirstViolation, FindAt, FindRepository;
  }

  // ----- The retry -----

  /** What finalizing settles on the row at `path`: active there, under the branch, with nothing of its past but numbers. */
  predicate SettledAt(row: SavedCheckout, row': SavedCheckout, branch: string, path: Path, main: Path) {
    && row'.key == row.key && row'.repositoryKey == row.repositoryKey && row'.firstSeenOrder == row.firstSeenOrder
    && row'.lifecycle.Active? && row'.activeIntent && row'.health.Available?
    && row'.observedPath == path && row'.observedBranch == Some("refs/heads/" + branch)
    && row'.session == row.session.(cwd := path, repoRoot := main, branch := Some(branch), isWorktree := path != main)
  }

  lemma FinalizedRowIs(row: SavedCheckout, path: Path, main: Path, branch: string)
    ensures SettledAt(row, FinalizedRow(row, row.observedPath, main, branch), branch, row.observedPath, main)
    ensures FinalizedRow(row, row.observedPath, main, branch).managedByBaude == row.managedByBaude
    ensures FinalizedRow(row, row.observedPath, main, branch).role == row.role
    ensures SettledAt(row, AdoptedRow(row, path, main, branch), branch, path, main)
    ensures !AdoptedRow(row, path, main, branch).managedByBaude
    ensures AdoptedRow(row, path, main, branch).role == if path == main then Main else ManagedBranch
  {
  }

  /** A finalized child stands where it stood, with its flag and role, or at the
      recorded owner's worktree, and then this program claims no authority over it. */
  lemma FinalizationClaimsNothingNew(s: StateView, key: U64, i: nat, facts: RetryFacts)
    requires Saveable(s) && FindCheckout(s.checkouts, key) == Some(i) && ProvenanceOf(s.checkouts[i]).Some?
    requires Retry(s, key, facts).1 == Ok(Finalized(key))
    ensures facts.discovery.Ok?
    ensures var after, row, p := Retry(s, key, facts).0, s.checkouts[i], ProvenanceOf(s.checkouts[i]).value;
      var main := facts.discovery.value.mainWorktree;
      && |after.checkouts| == |s.checkouts|
      && var row' := after.checkouts[i];
         if row'.observedPath == row.observedPath then
           SettledAt(row, row', p.branch, row.observedPath, main) && row'.managedByBaude == row.managedByBaude && row'.role == row.role
         else
           p.owner == Some(row'.observedPath) && SettledAt(row, row', p.branch, row'.observedPath, main)
           && !row'.managedByBaude && row'.role == if row'.observedPath == main then Main else ManagedBranch
  {
    hide Saveable, WellFormed, Fits, FirstViolation, FindCheckout, Retry, ProvenanceOf, Trusted, FinalizedRow, AdoptedRow, ReusedRow, InPlace, Gone,
         WithOwner, Without, FindSibling, SettledAt;
    var row, p := s.checkouts[i], ProvenanceOf(s.checkouts[i]).value;
    RetryDecides(s, key, i, facts);
    TrustedMeansDiscovered(s, i, facts);
    var git := facts.discovery.value;
    if InPlace(git.worktrees, row.observedPath, p.branch) {
      FinalizedRowIs(row, row.observedPath, git.mainWorktree, p.branch);
    } else {
      OwnerIsElsewhere(git.worktrees, row.observedPath, p, facts.pathExists);
      ReuseDecides(s, key, i, facts);
      FinalizedRowIs(row, p.owner.value, git.mainWorktree, p.branch);
    }
  }

  /** A blocked retry answers its own key, and either touched nothing or recorded
      the very detail it answers: what was seen, then what was known before. */
  lemma BlockedRetrySaysWhatItRecords(s: StateView, key: U64, facts: RetryFacts)
    requires var r := Retry(s, key, facts).1; r.Ok? && r.value.Blocked?
    ensures FindCheckout(s.checkouts, key).Some?
    ensures var after, r, i := Retry(s, key, facts).0, Retry(s, key, facts).1.value, FindCheckout(s.checkouts, key).value;
      && r.checkout == key && ProvenanceOf(s.checkouts[i]).Some?
      && (after != s ==>
          && i < |after.checkouts| && ProvenanceOf(after.checkouts[i]).Some? && ProvenanceOf(after.checkouts[i]).value.verification == r.detail
          && r.detail == facts.observation + "; prior verification: " + ProvenanceOf(s.checkouts[i]).value.verification)
  {
    hide FirstViolation, FindCheckout, FindRepository, WorktreeAt, WorktreeOn, FindSibling, Others, FinalizedRow, AdoptedRow, ReusedRow;
    var i := FindCheckout(s.checkouts, key).value;
    var p := ProvenanceOf(s.checkouts[i]).value;
    assert facts.observation + PriorText(p.verification) == facts.observation + "; prior verification: " + p.verification;
  }

  lemma OwnerIsElsewhere(worktrees: seq<WorktreeRecord>, path: Path, p: Provenance, pathExists: bool)
    requires WithOwner(worktrees, path, p, pathExists)
    ensures p.owner.Some? && p.owner.value != path
  {
  }

  /** A row that already stood at the owner's worktree keeps its flag, role and
      record; a runtime it holds goes on, else it is active; and the child is gone. */
  lemma ReuseClaimsNothingNew(s: StateView, key: U64, i: nat, facts: RetryFacts)
    requires Saveable(s) && FindCheckout(s.checkouts, key) == Some(i) && ProvenanceOf(s.checkouts[i]).Some?
    requires var r := Retry(s, key, facts).1; r.Ok? && r.value.Finalized? && r.value.checkout != key
    ensures var after, reused, p := Retry(s, key, facts).0, Retry(s, key, facts).1.value.checkout, ProvenanceOf(s.checkouts[i]).value;
      && facts.discovery.Ok?
      && (forall c <- after.checkouts :: c.key != key)
      && exists row <- s.checkouts, row' <- after.checkouts ::
        && row.key == reused && row'.key == reused && p.owner == Some(row.observedPath)
        && row' == row.(session := row'.session, lifecycle := row'.lifecycle, activeIntent := row'.activeIntent, health := row'.health)
        && row'.lifecycle == (if row.lifecycle.HoldsRuntime() then row.lifecycle else CheckoutLifecycle.Active)
        && row'.session == row.session.(cwd := row.observedPath, repoRoot := facts.discovery.value.mainWorktree, branch := Some(p.branch),
                                        isWorktree := row.observedPath != facts.discovery.value.mainWorktree)
  {
    hide Saveable, WellFormed, Fits, FirstViolation, FindCheckout, Retry, ProvenanceOf, Trusted, FinalizedRow, AdoptedRow, InPlace, Gone,
         WithOwner, Without, FindSibling, SavedCheckout.Saveable;
    var row, p := s.checkouts[i], ProvenanceOf(s.checkouts[i]).value;
    RetryDecides(s, key, i, facts);
    TrustedMeansDiscovered(s, i, facts);
    OwnerIsElsewhere(facts.discovery.value.worktrees, row.observedPath, p, facts.pathExists);
    ReuseDecides(s, key, i, facts);
    var at := FindSibling(s.checkouts, row.key, row.repositoryKey, p.owner.value).value;
    var row' := ReusedRow(s.checkouts[at], p.owner.value, facts.discovery.value.mainWorktree, p.branch);
    var placed := Put(s, at, row');
    SaveableIsWellFormed(s);
    KeysDiffer(s, i);
    assert placed.checkouts[at] == row' && s.checkouts[at] in s.checkouts;
    KeptAfterRemoval(placed, i, at);
  }

  lemma KeptAfterRemoval(s: StateView, i: nat, at: nat)
    requires i < |s.checkouts| && at < |s.checkouts| && at != i
    requires forall j | 0 <= j < |s.checkouts| && j != i :: s.checkouts[j].key != s.checkouts[i].key
    ensures s.checkouts[at] in Without(s, i).checkouts && forall c <- Without(s, i).checkouts :: c.key != s.checkouts[i].key
  {
    hide Without;
    var kept := Without(s, i).checkouts;
    assert kept[if at < i then at else at - 1] == s.checkouts[at];
  }
}
