/** Safety over whole runs: any interleaving of the lifecycle operations, with
    any answers from Git, the operating system and the backend, keeps the
    aggregate saveable exactly under a condition on each operation's input, so
    every lifecycle generation is the recorded runtime's. */
module SaveableRuns {
  import opened Prelude
  import opened Repository
  import opened LifecycleReducer
  import opened GitTypes
  import opened Reconciliation
  import opened LifecycleTransitions
  import opened Placement
  import opened Reopen
  import opened Activation
  import opened ActivationConditions
  import opened ActivationRetry
  import opened RetryConditions
  import opened Admission

  datatype Operation =
    | DriveEvent(key: U64, event: Event)
    | MarkActiveRow(key: U64)
    | RecordAnswer(key: U64, reconciled: Result<(), Refusal>)
    | CloseRow(key: U64, runtime: RetainedSession)
    | ReopenRow(request: ReopenRequest, targetExists: string -> bool)
    | ReportTeardown(key: U64, report: TeardownReport)
    | RetryTeardown(key: U64, torn: Result<(), TeardownReport>)
    | CommitRemoval(confirmation: RemovalConfirmation, removal: VerifiedRemoval)
    | DisownRow(key: U64, detail: string)
    | AllocateKeys(repository: bool, checkout: bool, standalone: bool, order: bool)
    | RevokeAuthority(key: U64)
    | MarkStopped(key: U64, agent: bool, shell: bool, detail: string)
    | MarkRemoved(key: U64, detail: string)
    | MarkRecoveryRow(key: U64, branch: string, created: Option<bool>, verification: string, compensation: string)
    | EnsureOne(disk: Disk, snapshot: RepositorySnapshot, digest: string, fate: Fate)
    | RecordPendingRow(snapshot: RepositorySnapshot, prepared: PreparedActivation, nameOf: Path -> string)
    | ExecuteOne(prepared: PreparedActivation, git: ActivationGit, nameOf: Path -> string, textOf: LifecycleError -> string)
    | RetryActivation(key: U64, facts: RetryFacts)

  /** The counter after an allocation, if one is wanted. */
  function Advance(counter: U64, wanted: bool): U64 {
    if wanted then Advanced(counter) else counter
  }

  /** The state after one operation, and whether `validate` refused what it wrote. */
  function Perform(s: StateView, op: Operation): (StateView, bool) {
    match op
    case DriveEvent(key, event) =>
      var found := FindCheckout(s.checkouts, key);
      if found.None? || Reduce(s.checkouts[found.value].lifecycle, event).effects == [] then (s, false)
      else (CandidateFor(s.checkouts[found.value], event).ApplyTo(s).value, false)
    case MarkActiveRow(key) => (MarkActive(s, key).0, false)
    case RecordAnswer(key, answer) =>
      var r := RecordReconciliation(s, key, answer);
      (if r.Ok? then r.value.0 else s, false)
    case CloseRow(key, runtime) => (PlanClose(s, key, runtime).0, false)
    case ReopenRow(request, targetExists) => (PlanReopen(s, request, targetExists).0, false)
    case ReportTeardown(key, report) => var r := MarkTeardownPending(s, key, report); (r.0, RefusedByValidate(r.1))
    case RetryTeardown(key, torn) => var r := RecoverTeardown(s, key, torn); (r.0, RefusedByValidate(r.1))
    case CommitRemoval(confirmation, removal) => var r := CommitRemoved(s, confirmation, removal); (r.0, RefusedByValidate(r.1))
    case DisownRow(key, detail) => (Disown(s, key, detail).0, false)
    case AllocateKeys(repository, checkout, standalone, order) =>
      (s.(nextRepositoryKey := Advance(s.nextRepositoryKey, repository), nextCheckoutKey := Advance(s.nextCheckoutKey, checkout),
          nextStandaloneKey := Advance(s.nextStandaloneKey, standalone), nextFirstSeenOrder := Advance(s.nextFirstSeenOrder, order)), false)
    case RevokeAuthority(key) => var r := RevokeRemovalAuthority(s, key); (r.0, RefusedByValidate(r.1))
    case MarkStopped(key, agent, shell, detail) => var r := MarkStoppedActive(s, key, agent, shell, detail); (r.0, RefusedByValidate(r.1))
    case MarkRemoved(key, detail) => (MarkRemovedUnavailable(s, key, detail), false)
    case MarkRecoveryRow(key, branch, created, verification, compensation) =>
      var r := MarkRecovery(s, key, branch, created, verification, compensation); (r.0, RefusedByValidate(r.1))
    case EnsureOne(disk, snapshot, digest, fate) => (Ensure(s, disk, snapshot, digest, fate).0, false)
    case RecordPendingRow(snapshot, prepared, nameOf) => var r := RecordPending(s, snapshot, prepared, nameOf); (r.0, RefusedByValidate(r.1))
    case ExecuteOne(prepared, git, nameOf, textOf) => var r := Execute(s, prepared, git, nameOf, textOf); (r.0, RefusedByValidate(r.1))
    case RetryActivation(key, facts) => var r := Retry(s, key, facts); (r.0, RefusedByValidate(r.1))
  }

  /** The operations that mark a protection without dropping the runtime record. */
  predicate Protects(op: Operation) {
    op.RevokeAuthority? || op.MarkStopped? || op.MarkRemoved? || op.MarkRecoveryRow?
  }

  /** The operations that can never leave a state the save refuses. */
  predicate Ordinary(op: Operation) {
    !Protects(op) && !op.EnsureOne? && !op.RecordPendingRow? && !op.ExecuteOne? && !op.RetryActivation?
  }

  /** When what an operation leaves can be saved, said over the state and the
      operation's input before it is performed. */
  ghost predicate Guarded(s: StateView, op: Operation) {
    match op
    case EnsureOne(disk, snapshot, digest, fate) => EnsureSaves(s, disk, snapshot, digest, fate)
    case RecordPendingRow(snapshot, prepared, nameOf) =>
      FindCheckout(s.checkouts, prepared.checkout).None? ==> Fits(s, |s.checkouts|, PendingRow(prepared, snapshot, nameOf))
    case ExecuteOne(prepared, git, nameOf, _) => ExecutionSaves(s, prepared, git, nameOf)
    case RetryActivation(key, facts) => RetrySaves(s, key, facts)
    case _ => Protects(op) ==> NoRuntime(s, op.key)
  }

  predicate NoRuntime(s: StateView, key: U64) {
    var found := FindCheckout(s.checkouts, key);
    found.Some? ==> s.checkouts[found.value].ownedRuntime.None?
  }

  lemma DriveKeepsSaveable(s: StateView, key: U64, event: Event)
    requires Saveable(s)
    ensures Saveable(Perform(s, DriveEvent(key, event)).0)
  {
    hide Saveable, SavedCheckout.Saveable;
    var found := FindCheckout(s.checkouts, key);
    if found.Some? && Reduce(s.checkouts[found.value].lifecycle, event).effects != [] {
      var row := s.checkouts[found.value];
      RowsAreSaveable(s, found.value);
      CandidateKeepsRowSaveable(row, event);
      UpdateKeepsSaveable(s, found.value, CandidateFor(row, event).ApplyToRow(row));
    }
  }

  lemma RecordKeepsSaveable(s: StateView, key: U64, answer: Result<(), Refusal>)
    requires Saveable(s)
    ensures Saveable(Perform(s, RecordAnswer(key, answer)).0)
  {
    hide Saveable, SavedCheckout.Saveable, RecordOnRow;
    var found := FindCheckout(s.checkouts, key);
    if found.Some? {
      var row := s.checkouts[found.value];
      RowsAreSaveable(s, found.value);
      RecordingKeepsSaveable(row, answer);
      RecordedBranch(row, answer);
      UpdateKeepsSaveable(s, found.value, RecordOnRow(row, answer).0);
    }
  }

  lemma CommitKeepsSaveable(s: StateView, confirmation: RemovalConfirmation, removal: VerifiedRemoval)
    requires Saveable(s)
    ensures var r := Perform(s, CommitRemoval(confirmation, removal)); Saveable(r.0) && !r.1
  {
    hide Saveable, FirstViolation;
    var found := FindCheckout(s.checkouts, confirmation.checkout);
    if found.Some? { RemovalKeepsSaveable(s, found.value); }
  }

  lemma AllocationKeepsSaveable(s: StateView, repository: bool, checkout: bool, standalone: bool, order: bool)
    requires Saveable(s)
    ensures Saveable(Perform(s, AllocateKeys(repository, checkout, standalone, order)).0)
  {
    hide RepositoriesDistinct, CheckoutsPlaced, StandalonesPlaced, OrdersUnique, SavedCheckout.Saveable;
    AdvanceKeepsSaveable(s, Perform(s, AllocateKeys(repository, checkout, standalone, order)).0);
  }

  lemma RevokeSavesExactly(s: StateView, key: U64)
    requires Saveable(s)
    ensures Saveable(Perform(s, RevokeAuthority(key)).0) <==> NoRuntime(s, key)
  {
    hide Saveable, RevokeRemovalAuthority, MarkStoppedActive, MarkRemovedUnavailable, FindCheckout;
    if FindCheckout(s.checkouts, key).Some? { ProtectionSavesExactlyWithoutRuntime(s, key, false, false, ""); }
    else { UnknownRowsStay(s, key, false, false, ""); }
  }

  lemma StoppedSavesExactly(s: StateView, key: U64, agent: bool, shell: bool, detail: string)
    requires Saveable(s)
    ensures Saveable(Perform(s, MarkStopped(key, agent, shell, detail)).0) <==> NoRuntime(s, key)
  {
    hide Saveable, RevokeRemovalAuthority, MarkStoppedActive, MarkRemovedUnavailable, FindCheckout;
    if FindCheckout(s.checkouts, key).Some? { ProtectionSavesExactlyWithoutRuntime(s, key, agent, shell, detail); }
    else { UnknownRowsStay(s, key, agent, shell, detail); }
  }

  lemma RemovedSavesExactly(s: StateView, key: U64, detail: string)
    requires Saveable(s)
    ensures Saveable(Perform(s, MarkRemoved(key, detail)).0) <==> NoRuntime(s, key)
  {
    hide Saveable, RevokeRemovalAuthority, MarkStoppedActive, MarkRemovedUnavailable, FindCheckout;
    if FindCheckout(s.checkouts, key).Some? { ProtectionSavesExactlyWithoutRuntime(s, key, false, false, detail); }
    else { UnknownRowsStay(s, key, false, false, detail); }
  }

  lemma UnknownRowsStay(s: StateView, key: U64, agent: bool, shell: bool, detail: string)
    requires FindCheckout(s.checkouts, key).None?
    ensures RevokeRemovalAuthority(s, key).0 == s && MarkStoppedActive(s, key, agent, shell, detail).0 == s
    ensures MarkRemovedUnavailable(s, key, detail) == s
  {
  }

  lemma RecoveryStepSavesExactly(s: StateView, key: U64, branch: string, created: Option<bool>, verification: string, compensation: string)
    requires Saveable(s)
    ensures Saveable(Perform(s, MarkRecoveryRow(key, branch, created, verification, compensation)).0) <==> NoRuntime(s, key)
  {
    hide Saveable, FirstViolation, ProvenanceOf;
    var found := FindCheckout(s.checkouts, key);
    if found.Some? { RecoveryMarkSavesExactly(s, key, found.value, branch, created, verification, compensation); }
  }

  lemma ProtectionSavesExactly(s: StateView, op: Operation)
    requires Saveable(s) && Protects(op)
    ensures Saveable(Perform(s, op).0) <==> NoRuntime(s, op.key)
  {
    hide Saveable, Perform, NoRuntime;
    match op
    case RevokeAuthority(key) => RevokeSavesExactly(s, key);
    case MarkStopped(key, agent, shell, detail) => StoppedSavesExactly(s, key, agent, shell, detail);
    case MarkRemoved(key, detail) => RemovedSavesExactly(s, key, detail);
    case MarkRecoveryRow(key, branch, created, verification, compensation) =>
      RecoveryStepSavesExactly(s, key, branch, created, verification, compensation);
  }

  lemma DisownKeepsSaveable(s: StateView, key: U64, detail: string)
    requires Saveable(s)
    ensures Saveable(Disown(s, key, detail).0)
  {
    hide Saveable, Disown;
    DisownRepairsExactlyOneRow(s, key, detail);
  }

  /** One ordinary operation: saveable in, saveable out, and nothing was refused. */
  lemma OrdinaryKeepsSaveable(s: StateView, op: Operation)
    requires Saveable(s) && Ordinary(op)
    ensures Saveable(Perform(s, op).0) && !Perform(s, op).1
  {
    hide Saveable, MarkActive, PlanClose, PlanReopen, MarkTeardownPending, RecoverTeardown, CommitRemoved, Disown,
         RecordReconciliation, FindCheckout, Reduce, CandidateFor, Advance;
    match op
    case DriveEvent(key, event) => DriveKeepsSaveable(s, key, event);
    case MarkActiveRow(key) => MarkActiveAlwaysKeepsSaveable(s, key);
    case RecordAnswer(key, answer) => RecordKeepsSaveable(s, key, answer);
    case CloseRow(key, runtime) => CloseAlwaysKeepsSaveable(s, key, runtime);
    case ReopenRow(request, targetExists) => ReopenIsTotal(s, request, targetExists);
    case ReportTeardown(key, report) => TeardownAlwaysKeepsSaveable(s, key, report, Ok(()));
    case RetryTeardown(key, torn) => TeardownAlwaysKeepsSaveable(s, key, NO_REPORT, torn);
    case CommitRemoval(confirmation, removal) => CommitKeepsSaveable(s, confirmation, removal);
    case DisownRow(key, detail) => DisownKeepsSaveable(s, key, detail);
    case AllocateKeys(repository, checkout, standalone, order) => AllocationKeepsSaveable(s, repository, checkout, standalone, order);
  }

  const NO_REPORT := TeardownReport(None, None, None, None, false, false, "")

  lemma MarkActiveAlwaysKeepsSaveable(s: StateView, key: U64)
    requires Saveable(s)
    ensures Saveable(MarkActive(s, key).0)
  {
    hide Saveable;
    if FindCheckout(s.checkouts, key).Some? { MarkActiveKeepsSaveable(s, key, FindCheckout(s.checkouts, key).value); }
  }

  lemma CloseAlwaysKeepsSaveable(s: StateView, key: U64, runtime: RetainedSession)
    requires Saveable(s)
    ensures Saveable(PlanClose(s, key, runtime).0)
  {
    hide Saveable, FirstViolation;
    if FindCheckout(s.checkouts, key).Some? { CloseKeepsSaveable(s, key, FindCheckout(s.checkouts, key).value, runtime); }
  }

  lemma TeardownAlwaysKeepsSaveable(s: StateView, key: U64, report: TeardownReport, torn: Result<(), TeardownReport>)
    requires Saveable(s)
    ensures var r := MarkTeardownPending(s, key, report); Saveable(r.0) && !RefusedByValidate(r.1)
    ensures var r := RecoverTeardown(s, key, torn); Saveable(r.0) && !RefusedByValidate(r.1)
  {
    hide Saveable, Checked;
    if FindCheckout(s.checkouts, key).Some? { TeardownKeepsSaveable(s, key, FindCheckout(s.checkouts, key).value, report, torn); }
  }

  lemma PendingStepSavesExactly(s: StateView, snapshot: RepositorySnapshot, prepared: PreparedActivation, nameOf: Path -> string)
    requires Saveable(s)
    ensures var op := RecordPendingRow(snapshot, prepared, nameOf); Saveable(Perform(s, op).0) <==> Guarded(s, op)
  {
    hide Saveable, Fits, PendingRow, FirstViolation;
    if FindCheckout(s.checkouts, prepared.checkout).None? { PendingSavesExactly(s, snapshot, prepared, nameOf); }
  }

  /** One operation, whichever it is: what it leaves can be saved exactly under its guard. */
  lemma StepSavesExactly(s: StateView, op: Operation)
    requires Saveable(s)
    ensures Saveable(Perform(s, op).0) <==> Guarded(s, op)
  {
    hide Saveable, RecordPending, Execute, Retry, Ensure, EnsureSaves, ExecutionSaves, RetrySaves, Fits, NoRuntime;
    if Ordinary(op) {
      OrdinaryKeepsSaveable(s, op);
    } else if Protects(op) {
      ProtectionSavesExactly(s, op);
    } else {
      match op
      case EnsureOne(disk, snapshot, digest, fate) => EnsureSavesExactly(s, disk, snapshot, digest, fate);
      case RecordPendingRow(snapshot, prepared, nameOf) => PendingStepSavesExactly(s, snapshot, prepared, nameOf);
      case ExecuteOne(prepared, git, nameOf, textOf) => ExecutionSavesExactly(s, prepared, git, nameOf, textOf);
      case RetryActivation(key, facts) => RetrySavesExactly(s, key, facts);
    }
  }

  // ----- Runs -----

  function Run(s: StateView, ops: seq<Operation>): StateView {
    if ops == [] then s else Perform(Run(s, ops[..|ops| - 1]), ops[|ops| - 1]).0
  }

  ghost predicate AllGuarded(s: StateView, ops: seq<Operation>) {
    ops == [] || (AllGuarded(s, ops[..|ops| - 1]) && Guarded(Run(s, ops[..|ops| - 1]), ops[|ops| - 1]))
  }

  /** The lifecycle generation and the runtime record never part. */
  ghost predicate GenerationsMatch(s: StateView) {
    forall c <- s.checkouts :: c.lifecycle.HoldsRuntime() ==>
      c.ownedRuntime.Some? && c.ownedRuntime.value.generation == c.lifecycle.generation
  }

  lemma SaveableMatchesGenerations(s: StateView)
    requires Saveable(s)
    ensures GenerationsMatch(s)
  {
  }

  /** Every run of ordinary operations, whatever the answers, ends saveable. */
  lemma {:induction false} OrdinaryRunsStaySaveable(s: StateView, ops: seq<Operation>)
    requires Saveable(s) && forall op <- ops :: Ordinary(op)
    ensures Saveable(Run(s, ops)) && GenerationsMatch(Run(s, ops))
  {
    hide Saveable, Perform, Ordinary, GenerationsMatch;
    if ops != [] {
      OrdinaryRunsStaySaveable(s, ops[..|ops| - 1]);
      OrdinaryKeepsSaveable(Run(s, ops[..|ops| - 1]), ops[|ops| - 1]);
    }
    SaveableMatchesGenerations(Run(s, ops));
  }

  lemma RunOneMore(s: StateView, ops: seq<Operation>, k: nat)
    requires k < |ops|
    ensures Run(s, ops[..k + 1]) == Perform(Run(s, ops[..k]), ops[k]).0
    ensures AllGuarded(s, ops[..k + 1]) <==> AllGuarded(s, ops[..k]) && Guarded(Run(s, ops[..k]), ops[k])
  {
    hide Perform, Guarded;
    assert ops[..k + 1][..k] == ops[..k] && ops[..k + 1][k] == ops[k];
  }

  lemma {:induction false} RunsSaveUpTo(s: StateView, ops: seq<Operation>, n: nat)
    requires Saveable(s) && n <= |ops|
    ensures AllGuarded(s, ops[..n]) <==> forall k | 0 <= k <= n :: Saveable(Run(s, ops[..k]))
  {
    hide Saveable, Perform, Guarded, Run;
    if n == 0 {
      NoSteps(s);
    } else {
      RunsSaveUpTo(s, ops, n - 1);
      RunOneMore(s, ops, n - 1);
      if AllGuarded(s, ops[..n - 1]) { StepSavesExactly(Run(s, ops[..n - 1]), ops[n - 1]); }
    }
  }

  lemma NoSteps(s: StateView)
    ensures Run(s, []) == s && AllGuarded(s, [])
  {
  }

  /** Any run at all: every state it passes can be saved, with every lifecycle
      generation the recorded one's, exactly when every operation meets its
      guard where it stands. */
  lemma RunsStaySaveableExactly(s: StateView, ops: seq<Operation>)
    requires Saveable(s)
    ensures AllGuarded(s, ops) <==> forall k | 0 <= k <= |ops| :: Saveable(Run(s, ops[..k]))
    ensures AllGuarded(s, ops) ==> Saveable(Run(s, ops)) && GenerationsMatch(Run(s, ops))
  {
    hide Saveable, Perform, Guarded, GenerationsMatch, Run;
    assert ops[..|ops|] == ops;
    RunsSaveUpTo(s, ops, |ops|);
    if AllGuarded(s, ops) {
      assert Saveable(Run(s, ops[..|ops|]));
      SaveableMatchesGenerations(Run(s, ops));
    }
  }
}
