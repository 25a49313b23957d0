/** When each step of an activation goes through, and when what it leaves can
    be saved, as conditions on the state and on Git's answers
    (baude-core/src/lifecycle.rs). */
module ActivationConditions {
  import opened Prelude
  import opened Repository
  import opened GitTypes
  import opened LifecycleTransitions
  import opened Placement
  import opened Activation

  /** Where a row of this key goes: over the row that has it, else behind the last. */
  function Slot(s: StateView, key: U64): (slot: nat)
    ensures slot <= |s.checkouts|
  {
    var found := FindCheckout(s.checkouts, key);
    if found.Some? then found.value else |s.checkouts|
  }

  lemma PutOrPushIsPlaced(s: StateView, row: SavedCheckout)
    ensures PutOrPush(s, row) == Placed(s, Slot(s, row.key), row)
  {
  }

  // ----- The pending child -----

  /** Recording a pending child succeeds, and leaves a state that can be saved,
      exactly when its row fits behind the others; a refusal leaves the row in memory. */
  lemma PendingSavesExactly(s: StateView, snapshot: RepositorySnapshot, prepared: PreparedActivation, nameOf: Path -> string)
    requires Saveable(s) && FindCheckout(s.checkouts, prepared.checkout).None?
    ensures var (after, result) := RecordPending(s, snapshot, prepared, nameOf);
      && (result.Ok? <==> Fits(s, |s.checkouts|, PendingRow(prepared, snapshot, nameOf)))
      && (result.Ok? <==> Saveable(after))
      && after == Placed(s, |s.checkouts|, PendingRow(prepared, snapshot, nameOf))
  {
    hide Saveable, WellFormed, Fits, FirstViolation, FindCheckout, PendingRow;
    SaveableIsWellFormed(s);
    PendingRowSaves(prepared, snapshot, nameOf);
    var row := PendingRow(prepared, snapshot, nameOf);
    PlacedExactly(s, |s.checkouts|, row);
    PlacedSavesExactly(s, |s.checkouts|, row);
    ValidateAcceptsExactlyWellFormed(Placed(s, |s.checkouts|, row));
  }

  lemma PendingRowSaves(prepared: PreparedActivation, snapshot: RepositorySnapshot, nameOf: Path -> string)
    ensures PendingRow(prepared, snapshot, nameOf).Saveable()
  {
  }

  // ----- The standing row -----

  /** The fresh discovery at the added path confirms the activation: same path,
      the requested branch, and the repository on record. */
  predicate Confirmed(s: StateView, prepared: PreparedActivation, record: WorktreeRecord, afterwards: Result<RepositorySnapshot, string>) {
    && afterwards.Ok? && afterwards.value.selected.path == record.path
    && record.branch == Some(FullRef(prepared.branch)) == afterwards.value.selected.branch
    && var found := FindRepository(s.repositories, prepared.repository);
      && found.Some?
      && s.repositories[found.value].commonDir == afterwards.value.commonDir
      && s.repositories[found.value].mainWorktree == afterwards.value.mainWorktree
  }

  /** A row already at the path may stand: it holds the same branch, and it is
      the pending child itself or an available row of another key. */
  predicate MayStand(row: SavedCheckout, prepared: PreparedActivation) {
    && row.observedBranch == Some(FullRef(prepared.branch))
    && if row.key == prepared.checkout then IsPending(row.health) else row.health.Available?
  }

  lemma {:induction false} OthersDropOne(before: seq<SavedCheckout>, row: SavedCheckout, after: seq<SavedCheckout>)
    requires forall c <- before + after :: c.key != row.key
    ensures Others(before + [row] + after, row.key) == before + after
    decreases before
  {
    var rows := before + [row] + after;
    if before == [] {
      assert rows[1..] == after == before + after;
      OthersTwice(after, row.key);
    } else {
      var head, rest := before[0], before[1..];
      assert rows[1..] == rest + [row] + after && before + after == [head] + (rest + after);
      OthersDropOne(rest, row, after);
      assert head in before + after;
    }
  }

  lemma ClearedByKey(s: StateView, i: nat)
    requires i < |s.checkouts| && forall j | 0 <= j < |s.checkouts| && j != i :: s.checkouts[j].key != s.checkouts[i].key
    ensures Cleared(s, s.checkouts[i].key) == Without(s, i)
  {
    var before, row, after := s.checkouts[..i], s.checkouts[i], s.checkouts[i + 1..];
    assert s.checkouts == before + [row] + after;
    OthersDropOne(before, row, after);
  }

  lemma ClearedIsWithout(s: StateView, i: nat)
    requires Saveable(s) && i < |s.checkouts|
    ensures Cleared(s, s.checkouts[i].key) == Without(s, i) && Checked(Cleared(s, s.checkouts[i].key)).1.Ok?
  {
    hide SavedCheckout.Saveable, Cleared, Without;
    KeysDiffer(s, i);
    ClearedByKey(s, i);
    RemovalKeepsSaveable(s, i);
  }

  lemma OccupantKeepsIdentity(s: StateView, i: nat, prepared: PreparedActivation, record: WorktreeRecord, afterwards: Result<RepositorySnapshot, string>)
    requires WellFormed(s) && Confirmed(s, prepared, record, afterwards)
    requires FindAt(s.checkouts, prepared.repository, record.path) == Some(i)
    ensures SameIdentity(s.checkouts[i], OccupantRow(s.checkouts[i], prepared, record.path, afterwards.value.mainWorktree))
  {
    hide WellFormed;
    RepositoryOf(s, i);
  }

  lemma OccupantSaves(row: SavedCheckout, prepared: PreparedActivation, path: Path, mainWorktree: Path)
    requires row.Saveable() && MayStand(row, prepared)
    ensures OccupantFault(row, prepared).None? && OccupantRow(row, prepared, path, mainWorktree).Saveable()
  {
  }

  /** A confirmed activation onto a row that may stand is never refused: the
      rows it leaves, with the pending child dropped, can be saved. */
  lemma StandingIsNeverRefused(s: StateView, i: nat, prepared: PreparedActivation, outcome: ActivationOutcome,
                               afterwards: Result<RepositorySnapshot, string>, name: string)
    requires Saveable(s) && Confirmed(s, prepared, outcome.record, afterwards)
    requires FindAt(s.checkouts, prepared.repository, outcome.record.path) == Some(i) && MayStand(s.checkouts[i], prepared)
    ensures var recorded := Recorded(s, prepared, outcome, afterwards.value.mainWorktree, name);
      recorded.Ok? && Saveable(recorded.value.0)
  {
    hide Saveable, WellFormed, FindAt, FindCheckout, Others, SavedCheckout.Saveable, OccupantRow, OccupantFault, FirstViolation, Without;
    SaveableIsWellFormed(s);
    RowsAreSaveable(s, i);
    var row, main := s.checkouts[i], afterwards.value.mainWorktree;
    OccupantKeepsIdentity(s, i, prepared, outcome.record, afterwards);
    OccupantSaves(row, prepared, outcome.record.path, main);
    var placed := Put(s, i, OccupantRow(row, prepared, outcome.record.path, main));
    RowTransitionKeepsSaveable(s, i, OccupantRow(row, prepared, outcome.record.path, main));
    if row.key != prepared.checkout { ClearingKeepsSaveable(placed, prepared.checkout); }
  }

  lemma ClearingKeepsSaveable(s: StateView, key: U64)
    requires Saveable(s)
    ensures Saveable(Cleared(s, key)) && Checked(Cleared(s, key)).1.Ok?
  {
    hide Saveable, WellFormed, Others, FirstViolation, Without;
    SaveableIsWellFormed(s);
    var found := FindCheckout(s.checkouts, key);
    if found.Some? {
      ClearedIsWithout(s, found.value);
      RemovalKeepsSaveable(s, found.value);
    } else {
      OthersTwice(s.checkouts, key);
      CheckedExactly(s);
    }
  }

  // ----- Execution -----

  /** Where a verified activation would put its row, when none stands there. */
  function FreshRow(prepared: PreparedActivation, git: ActivationGit, nameOf: Path -> string): SavedCheckout
    requires git.activation.Ok? && git.afterwards.Ok?
  {
    var main := git.afterwards.value.mainWorktree;
    ActivatedRow(prepared, git.activation.value, main, SessionName(nameOf, main, prepared.branch))
  }

  /** The activation is confirmed, and its row may stand or fits. */
  ghost predicate Accepted(s: StateView, prepared: PreparedActivation, git: ActivationGit, nameOf: Path -> string) {
    && git.discovery.Ok? && git.activation.Ok?
    && Confirmed(s, prepared, git.activation.value.record, git.afterwards)
    && match FindAt(s.checkouts, prepared.repository, git.activation.value.record.path)
       case Some(i) => MayStand(s.checkouts[i], prepared)
       case None => Fits(s, Slot(s, prepared.checkout), FreshRow(prepared, git, nameOf))
  }

  lemma FreshRowExactly(s: StateView, prepared: PreparedActivation, git: ActivationGit, nameOf: Path -> string)
    requires Saveable(s) && git.activation.Ok? && git.afterwards.Ok?
    ensures var next := PutOrPush(s, FreshRow(prepared, git, nameOf));
      && (FirstViolation(next).None? <==> Fits(s, Slot(s, prepared.checkout), FreshRow(prepared, git, nameOf)))
      && (FirstViolation(next).None? ==> Saveable(next))
  {
    hide Saveable, WellFormed, Fits, FirstViolation, Slot, SavedCheckout.Saveable, PutOrPush;
    var row := FreshRow(prepared, git, nameOf);
    SaveableIsWellFormed(s);
    FreshRowSaves(prepared, git, nameOf);
    PutOrPushIsPlaced(s, row);
    PlacedExactly(s, Slot(s, prepared.checkout), row);
    PlacedSavesExactly(s, Slot(s, prepared.checkout), row);
    ValidateAcceptsExactlyWellFormed(PutOrPush(s, row));
  }

  lemma FreshRowSaves(prepared: PreparedActivation, git: ActivationGit, nameOf: Path -> string)
    requires git.activation.Ok? && git.afterwards.Ok?
    ensures FreshRow(prepared, git, nameOf).Saveable() && FreshRow(prepared, git, nameOf).key == prepared.checkout
  {
  }

  /** Finalizing a confirmed activation succeeds exactly when its row may stand
      or fits, and then it leaves a state that can be saved. */
  lemma FinalizeExactly(s: StateView, prepared: PreparedActivation, git: ActivationGit, nameOf: Path -> string)
    requires Saveable(s) && git.discovery.Ok? && git.activation.Ok?
    ensures var result := Finalize(s, prepared, git.activation.value, git.afterwards, nameOf);
      && (result.Ok? <==> Accepted(s, prepared, git, nameOf))
      && (result.Ok? ==> Saveable(result.value.0))
  {
    hide Saveable, WellFormed, Fits, FirstViolation, FindAt, FindRepository, Slot, PutOrPush, ActivatedRow, OccupantRow, Cleared;
    var outcome := git.activation.value;
    if Confirmed(s, prepared, outcome.record, git.afterwards) {
      var main := git.afterwards.value.mainWorktree;
      var standing := FindAt(s.checkouts, prepared.repository, outcome.record.path);
      if standing.None? {
        FreshRowExactly(s, prepared, git, nameOf);
      } else if MayStand(s.checkouts[standing.value], prepared) {
        var name := SessionName(nameOf, main, prepared.branch);
        StandingIsNeverRefused(s, standing.value, prepared, outcome, git.afterwards, name);
        ValidateAcceptsExactlyWellFormed(Recorded(s, prepared, outcome, main, name).value.0);
        SaveableIsWellFormed(Recorded(s, prepared, outcome, main, name).value.0);
      }
    }
  }

  /** On a saveable state an execution succeeds exactly when Git activated the
      branch, the fresh discovery confirms it, and a row already at the path may
      stand or, where there is none, the new row fits. */
  lemma ExecutionSucceedsExactly(s: StateView, prepared: PreparedActivation, git: ActivationGit,
                                 nameOf: Path -> string, textOf: LifecycleError -> string)
    requires Saveable(s)
    ensures Execute(s, prepared, git, nameOf, textOf).1.Ok? <==> Accepted(s, prepared, git, nameOf)
  {
    hide Saveable, Finalize, Recover, Accepted;
    RecoverNeverSucceeds(s);
    AcceptedMeansActivated(s, prepared, git, nameOf);
    if git.discovery.Ok? && git.activation.Ok? { FinalizeExactly(s, prepared, git, nameOf); }
  }

  lemma AcceptedMeansActivated(s: StateView, prepared: PreparedActivation, git: ActivationGit, nameOf: Path -> string)
    ensures Accepted(s, prepared, git, nameOf) ==> git.discovery.Ok? && git.activation.Ok?
  {
  }

  lemma RecoverNeverSucceeds(s: StateView)
    ensures forall row, error :: Recover(s, row, error).1.Err?
  {
  }

  /** Git added a worktree and could not take it away again. */
  predicate LeavesWorktreeBehind(git: ActivationGit) {
    git.discovery.Ok? && match git.activation
      case Err(failure) => failure.PostAddCompensationFailed?
      case Ok(outcome) => outcome.AddedByBaude() && git.removal.Err?
  }

  /** Where the child left behind by a failed compensation stands. */
  function LeftBehind(prepared: PreparedActivation, git: ActivationGit): SavedCheckout
    requires git.discovery.Ok?
  {
    RecoveryRow(prepared, if git.activation.Ok? then git.activation.value.record.path else prepared.managedPath,
                git.discovery.value.mainWorktree, "", prepared.branch, false, "", "")
  }

  /** Whether a row fits depends on its identity alone. */
  lemma FitsByIdentity(s: StateView, i: nat, a: SavedCheckout, b: SavedCheckout)
    requires SameIdentity(a, b)
    ensures Fits(s, i, a) <==> Fits(s, i, b)
  {
    assert forall r :: OwnedBy(a, r) <==> OwnedBy(b, r);
    assert forall c :: CheckoutsCompatible(c, a) <==> CheckoutsCompatible(c, b);
  }

  lemma RecoverExactly(s: StateView, row: SavedCheckout, error: LifecycleError)
    requires Saveable(s) && row.Saveable() && !error.Validation?
    ensures Saveable(Recover(s, row, error).0) <==> Fits(s, Slot(s, row.key), row)
    ensures RefusedByValidate(Recover(s, row, error).1) <==> !Fits(s, Slot(s, row.key), row)
  {
    hide Saveable, WellFormed, Fits, FirstViolation, Slot, SavedCheckout.Saveable, PutOrPush;
    SaveableIsWellFormed(s);
    PutOrPushIsPlaced(s, row);
    PlacedExactly(s, Slot(s, row.key), row);
    PlacedSavesExactly(s, Slot(s, row.key), row);
    ValidateAcceptsExactlyWellFormed(PutOrPush(s, row));
  }

  lemma RecoveryRowIs(prepared: PreparedActivation, git: ActivationGit, path: Path, name: string, branch: string,
                      created: bool, verification: string, compensation: string)
    requires git.discovery.Ok?
    requires path == if git.activation.Ok? then git.activation.value.record.path else prepared.managedPath
    ensures var row := RecoveryRow(prepared, path, git.discovery.value.mainWorktree, name, branch, created, verification, compensation);
      row.Saveable() && SameIdentity(LeftBehind(prepared, git), row) && row.key == prepared.checkout
  {
  }

  /** What an execution leaves can be saved exactly when it was accepted, or no
      compensation failed, or the child left behind fits. */
  ghost predicate ExecutionSaves(s: StateView, prepared: PreparedActivation, git: ActivationGit, nameOf: Path -> string) {
    Accepted(s, prepared, git, nameOf) || !LeavesWorktreeBehind(git)
    || Fits(s, Slot(s, prepared.checkout), LeftBehind(prepared, git))
  }

  lemma ExecutionSavesExactly(s: StateView, prepared: PreparedActivation, git: ActivationGit,
                              nameOf: Path -> string, textOf: LifecycleError -> string)
    requires Saveable(s)
    ensures Saveable(Execute(s, prepared, git, nameOf, textOf).0) <==> ExecutionSaves(s, prepared, git, nameOf)
  {
    hide Saveable, Finalize, Recover, Accepted, Fits, Slot, RecoveryRow, LeftBehind, SavedCheckout.Saveable;
    AcceptedMeansActivated(s, prepared, git, nameOf);
    if git.discovery.Ok? {
      var main := git.discovery.value.mainWorktree;
      if git.activation.Err? && git.activation.error.PostAddCompensationFailed? {
        var f := git.activation.error;
        var name := SessionName(nameOf, main, prepared.branch);
        LeavingBehind(s, prepared, git, prepared.managedPath, name, f.branch, f.createdBranch, f.verification, f.compensation, Git(f.compensation));
      }
      if git.activation.Ok? {
        FinalizeExactly(s, prepared, git, nameOf);
        var outcome, result := git.activation.value, Finalize(s, prepared, git.activation.value, git.afterwards, nameOf);
        if result.Err? && outcome.AddedByBaude() && git.removal.Err? {
          LeavingBehind(s, prepared, git, outcome.record.path, prepared.branch, prepared.branch, outcome.disposition.Created?,
                        textOf(result.error), git.removal.error,
                        CompensationFailed(prepared.checkout, textOf(result.error), git.removal.error));
        }
      }
    }
  }

  lemma LeavingBehind(s: StateView, prepared: PreparedActivation, git: ActivationGit, path: Path, name: string, branch: string,
                      created: bool, verification: string, compensation: string, error: LifecycleError)
    requires Saveable(s) && git.discovery.Ok? && !error.Validation?
    requires path == if git.activation.Ok? then git.activation.value.record.path else prepared.managedPath
    ensures var row := RecoveryRow(prepared, path, git.discovery.value.mainWorktree, name, branch, created, verification, compensation);
      Saveable(Recover(s, row, error).0) <==> Fits(s, Slot(s, prepared.checkout), LeftBehind(prepared, git))
  {
    hide Saveable, Recover, Fits, Slot, RecoveryRow, LeftBehind, SavedCheckout.Saveable;
    var row := RecoveryRow(prepared, path, git.discovery.value.mainWorktree, name, branch, created, verification, compensation);
    RecoveryRowIs(prepared, git, path, name, branch, created, verification, compensation);
    RecoverExactly(s, row, error);
    FitsByIdentity(s, Slot(s, prepared.checkout), LeftBehind(prepared, git), row);
  }
}
