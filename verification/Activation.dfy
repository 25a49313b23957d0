/** Branch activation as a transaction over the aggregate: the pending child
    recorded before Git runs, the verified execution with exact rollback, and
    the restart-time recovery (baude-core/src/lifecycle.rs). Every answer of
    Git and of the file system is a value. */
module Activation {
  import opened Prelude
  import opened Repository
  import opened GitTypes
  import opened Reconciliation
  import opened LifecycleTransitions

  datatype PreparedActivation = PreparedActivation(
    repository: U64, branch: string, managedPath: Path, checkout: U64, firstSeenOrder: U64)

  datatype Disposition = Created | Activated | Reused

  datatype ActivationOutcome = ActivationOutcome(disposition: Disposition, record: WorktreeRecord) {
    predicate AddedByBaude() {
      !disposition.Reused?
    }
  }

  datatype ActivationFailure =
    | PostAddCompensationFailed(branch: string, createdBranch: bool, verification: string, compensation: string)
    | ActivationRefused(detail: string)

  /** Git's answers during one execution: discovery, the activation itself, the
      fresh discovery at the added path, and the removal that compensates. */
  datatype ActivationGit = ActivationGit(
    discovery: Result<RepositorySnapshot, string>,
    activation: Result<ActivationOutcome, ActivationFailure>,
    afterwards: Result<RepositorySnapshot, string>,
    removal: Result<(), string>)

  datatype RecordedActivation = RecordedActivation(
    repository: U64, checkout: U64, disposition: Disposition, managedByBaude: bool,
    path: Path, mainWorktree: Path, branch: string)

  function FullRef(branch: string): string {
    HEADS + branch
  }

  /** The rows other than those with this key, in order. */
  function Others(rows: seq<SavedCheckout>, key: U64): (kept: seq<SavedCheckout>)
    ensures forall c <- kept :: c in rows && c.key != key
  {
    if rows == [] then []
    else (if rows[0].key == key then [] else [rows[0]]) + Others(rows[1..], key)
  }

  /** `clear_pending_activation`. */
  function Cleared(s: StateView, key: U64): StateView {
    s.(checkouts := Others(s.checkouts, key))
  }

  /** Replace the first row with the new row's key, or append it. */
  function PutOrPush(s: StateView, row: SavedCheckout): StateView {
    var found := FindCheckout(s.checkouts, row.key);
    if found.Some? then Put(s, found.value, row) else s.(checkouts := s.checkouts + [row])
  }

  /** The session is named after its repository and branch. */
  function SessionName(nameOf: Path -> string, mainWorktree: Path, branch: string): string {
    nameOf(mainWorktree) + ":" + branch
  }

  function FreshSession(name: string, cwd: Path, mainWorktree: Path, branch: string, isWorktree: bool): RetainedSession {
    RetainedSession(name, cwd, mainWorktree, Some(branch), isWorktree, false, false, false, None)
  }

  /** Where a verified activation lives now. */
  function Relocated(session: RetainedSession, path: Path, mainWorktree: Path, branch: string): RetainedSession {
    session.(cwd := path, repoRoot := mainWorktree, branch := Some(branch), isWorktree := path != mainWorktree)
  }

  /** The first worktree Git lists on a full ref. */
  function WorktreeOn(worktrees: seq<WorktreeRecord>, fullRef: string): (found: Option<WorktreeRecord>)
    ensures found.Some? ==> found.value in worktrees && found.value.branch == Some(fullRef)
  {
    if worktrees == [] then None
    else if worktrees[0].branch == Some(fullRef) then Some(worktrees[0])
    else WorktreeOn(worktrees[1..], fullRef)
  }

  function WorktreeAt(worktrees: seq<WorktreeRecord>, path: Path): (found: Option<WorktreeRecord>)
    ensures found.Some? ==> found.value in worktrees && found.value.path == path
  {
    if worktrees == [] then None
    else if worktrees[0].path == path then Some(worktrees[0])
    else WorktreeAt(worktrees[1..], path)
  }

  // ----- Recording the pending child -----

  function PendingRow(prepared: PreparedActivation, snapshot: RepositorySnapshot, nameOf: Path -> string): SavedCheckout {
    var owner := WorktreeOn(snapshot.worktrees, FullRef(prepared.branch));
    SavedCheckout(
      prepared.checkout, prepared.repository, ManagedBranch, true, prepared.managedPath,
      Some(FullRef(prepared.branch)), prepared.firstSeenOrder, Activating, None, false,
      FreshSession(SessionName(nameOf, snapshot.mainWorktree, prepared.branch), prepared.managedPath, snapshot.mainWorktree, prepared.branch, true),
      Unavailable(PendingActivation(prepared.branch, None, if owner.None? then None else Some(owner.value.path))))
  }

  function RecordPending(s: StateView, snapshot: RepositorySnapshot, prepared: PreparedActivation, nameOf: Path -> string):
    (StateView, Result<(), LifecycleError>)
  {
    if FindCheckout(s.checkouts, prepared.checkout).Some? then (s, Err(Topology("pending activation checkout already exists")))
    else Checked(s.(checkouts := s.checkouts + [PendingRow(prepared, snapshot, nameOf)]))
  }

  method RecordPendingActivation(state: RepositoryState, snapshot: RepositorySnapshot, prepared: PreparedActivation, nameOf: Path -> string)
    returns (result: Result<(), LifecycleError>)
    modifies state
    ensures (state.View(), result) == RecordPending(old(state.View()), snapshot, prepared, nameOf)
  {
    var found := state.Position(prepared.checkout);
    if found.Some? { return Err(Topology("pending activation checkout already exists")); }
    state.checkouts := state.checkouts + [PendingRow(prepared, snapshot, nameOf)];
    result := CheckAfterMutation(state);
  }

  // ----- Executing the activation -----

  function RecoveryRow(prepared: PreparedActivation, path: Path, mainWorktree: Path, name: string, branch: string,
                       createdBranch: bool, verification: string, compensation: string): SavedCheckout
  {
    var cause := ActivationRecovery(branch, Some(createdBranch), None, verification, compensation);
    SavedCheckout(
      prepared.checkout, prepared.repository, ManagedBranch, true, path, Some(FullRef(prepared.branch)),
      prepared.firstSeenOrder, Protected(cause), None, false,
      FreshSession(name, path, mainWorktree, prepared.branch, true), Unavailable(cause))
  }

  function ActivatedRow(prepared: PreparedActivation, outcome: ActivationOutcome, mainWorktree: Path, name: string): SavedCheckout {
    var path := outcome.record.path;
    SavedCheckout(
      prepared.checkout, prepared.repository, if path != mainWorktree then ManagedBranch else Main,
      outcome.AddedByBaude(), path, Some(FullRef(prepared.branch)), prepared.firstSeenOrder,
      CheckoutLifecycle.Active, None, true,
      FreshSession(name, path, mainWorktree, prepared.branch, path != mainWorktree), Available)
  }

  /** The first row of a repository at a path. */
  function FindAt(rows: seq<SavedCheckout>, repository: U64, path: Path): (found: Option<nat>)
    ensures found.Some? ==> found.value < |rows| && rows[found.value].repositoryKey == repository && rows[found.value].observedPath == path
    ensures found.None? ==> forall c <- rows :: c.repositoryKey != repository || c.observedPath != path
  {
    if rows == [] then None
    else if rows[0].repositoryKey == repository && rows[0].observedPath == path then Some(0)
    else
      var rest := FindAt(rows[1..], repository, path);
      if rest.None? then None else Some(rest.value + 1)
  }

  predicate IsPending(health: Health) {
    health.Unavailable? && health.cause.PendingActivation?
  }

  /** The checks on Git's facts before any row is touched. */
  function TopologyFault(s: StateView, prepared: PreparedActivation, record: WorktreeRecord, afterwards: Result<RepositorySnapshot, string>):
    Option<LifecycleError>
  {
    if afterwards.Err? then Some(Discovery(afterwards.error))
    else if afterwards.value.selected.path != record.path || record.branch != Some(FullRef(prepared.branch))
         || afterwards.value.selected.branch != Some(FullRef(prepared.branch)) then
      Some(Topology("unexpected worktree"))
    else
      var repository := FindRepository(s.repositories, prepared.repository);
      if repository.None? then Some(RepositoryMissing(prepared.repository))
      else if s.repositories[repository.value].commonDir != afterwards.value.commonDir
           || s.repositories[repository.value].mainWorktree != afterwards.value.mainWorktree then
        Some(Topology("repository identity changed during activation"))
      else None
  }

  /** Why the row already at the activated path may not be used, if so. */
  function OccupantFault(row: SavedCheckout, prepared: PreparedActivation): Option<LifecycleError> {
    if row.observedBranch != Some(FullRef(prepared.branch)) then Some(Topology("checkout changed branch identity"))
    else if row.key != prepared.checkout then
      if row.health.Unavailable? then Some(OccupiedProtected(row.key, row.health.cause)) else None
    else if !IsPending(row.health) then Some(Topology("activation checkout lost its pending candidate"))
    else None
  }

  function OccupantRow(row: SavedCheckout, prepared: PreparedActivation, path: Path, mainWorktree: Path): SavedCheckout {
    var moved := if row.key == prepared.checkout then row.SetLifecycle(CheckoutLifecycle.Active) else row;
    moved.(session := Relocated(moved.session, path, mainWorktree, prepared.branch))
  }

  /** The rows a verified activation leaves, before validation. */
  function Recorded(s: StateView, prepared: PreparedActivation, outcome: ActivationOutcome, mainWorktree: Path, name: string):
    Result<(StateView, RecordedActivation), LifecycleError>
  {
    var path := outcome.record.path;
    var existing := FindAt(s.checkouts, prepared.repository, path);
    if existing.Some? then
      var row := s.checkouts[existing.value];
      var fault := OccupantFault(row, prepared);
      if fault.Some? then Err(fault.value)
      else
        var placed := Put(s, existing.value, OccupantRow(row, prepared, path, mainWorktree));
        Ok((if row.key != prepared.checkout then Cleared(placed, prepared.checkout) else placed,
            RecordedActivation(prepared.repository, row.key, outcome.disposition, row.managedByBaude, path, mainWorktree, prepared.branch)))
    else
      Ok((PutOrPush(s, ActivatedRow(prepared, outcome, mainWorktree, name)),
          RecordedActivation(prepared.repository, prepared.checkout, outcome.disposition, outcome.AddedByBaude(), path, mainWorktree, prepared.branch)))
  }

  function Finalize(s: StateView, prepared: PreparedActivation, outcome: ActivationOutcome,
                    afterwards: Result<RepositorySnapshot, string>, nameOf: Path -> string):
    Result<(StateView, RecordedActivation), LifecycleError>
  {
    var fault := TopologyFault(s, prepared, outcome.record, afterwards);
    if fault.Some? then Err(fault.value)
    else
      var recorded := Recorded(s, prepared, outcome, afterwards.value.mainWorktree, SessionName(nameOf, afterwards.value.mainWorktree, prepared.branch));
      if recorded.Ok? && FirstViolation(recorded.value.0).Some? then Err(Validation(FirstViolation(recorded.value.0).value))
      else recorded
  }

  /** Put the recovery child on the untouched state, then report `error` unless validation refuses first. */
  function Recover(s: StateView, row: SavedCheckout, error: LifecycleError): (StateView, Result<RecordedActivation, LifecycleError>) {
    var checked := Checked(PutOrPush(s, row));
    (checked.0, Err(if checked.1.Err? then checked.1.error else error))
  }

  /** `nameOf` and `textOf` are the display texts of a path and of an error. */
  function Execute(s: StateView, prepared: PreparedActivation, git: ActivationGit,
                   nameOf: Path -> string, textOf: LifecycleError -> string):
    (StateView, Result<RecordedActivation, LifecycleError>)
  {
    if git.discovery.Err? then (s, Err(Discovery(git.discovery.error)))
    else
      var main := git.discovery.value.mainWorktree;
      if git.activation.Err? then
        match git.activation.error
        case ActivationRefused(detail) => (s, Err(Git(detail)))
        case PostAddCompensationFailed(branch, created, verification, compensation) =>
          Recover(s, RecoveryRow(prepared, prepared.managedPath, main, SessionName(nameOf, main, prepared.branch), branch, created, verification, compensation),
                  Git(compensation))
      else
        var outcome := git.activation.value;
        var result := Finalize(s, prepared, outcome, git.afterwards, nameOf);
        if result.Ok? then (result.value.0, Ok(result.value.1))
        else if outcome.AddedByBaude() && git.removal.Err? then
          Recover(s, RecoveryRow(prepared, outcome.record.path, main, prepared.branch, prepared.branch,
                                 outcome.disposition.Created?, textOf(result.error), git.removal.error),
                  CompensationFailed(prepared.checkout, textOf(result.error), git.removal.error))
        else (s, Err(result.error))
  }

  method PutRecovery(state: RepositoryState, row: SavedCheckout, error: LifecycleError) returns (result: Result<RecordedActivation, LifecycleError>)
    modifies state
    ensures (state.View(), result) == Recover(old(state.View()), row, error)
  {
    var found := state.Position(row.key);
    if found.Some? {
      state.checkouts := state.checkouts[found.value := row];
    } else {
      state.checkouts := state.checkouts + [row];
    }
    var checked := CheckAfterMutation(state);
    result := Err(if checked.Err? then checked.error else error);
  }

  /** The index of the first row of a repository at a path. */
  method PositionAt(state: RepositoryState, repository: U64, path: Path) returns (found: Option<nat>)
    ensures found == FindAt(state.checkouts, repository, path)
  {
    for i := 0 to |state.checkouts|
      invariant FindAt(state.checkouts, repository, path) ==
        match FindAt(state.checkouts[i..], repository, path) case None => None case Some(k) => Some(i + k)
    {
      if state.checkouts[i].repositoryKey == repository && state.checkouts[i].observedPath == path { return Some(i); }
      assert state.checkouts[i..][1..] == state.checkouts[i + 1..];
    }
    found := None;
  }

  method Retain(rows: seq<SavedCheckout>, key: U64) returns (kept: seq<SavedCheckout>)
    ensures kept == Others(rows, key)
  {
    kept := [];
    for i := 0 to |rows|
      invariant kept == Others(rows[..i], key)
    {
      assert rows[..i + 1] == rows[..i] + [rows[i]];
      OthersOfAppended(rows[..i], rows[i], key);
      if rows[i].key != key { kept := kept + [rows[i]]; }
    }
    assert rows[..|rows|] == rows;
  }

  /** `state.checkouts.retain(|saved| saved.key != checkout)`. */
  method ClearPendingActivation(state: RepositoryState, key: U64)
    modifies state
    ensures state.View() == Cleared(old(state.View()), key)
  {
    var kept := Retain(state.checkouts, key);
    state.checkouts := kept;
  }

  /** The closure of `execute_activation`: it edits the state in place, and on
      an error may leave it half edited for the caller to roll back. */
  method FinalizeActivation(state: RepositoryState, prepared: PreparedActivation, outcome: ActivationOutcome,
                            afterwards: Result<RepositorySnapshot, string>, nameOf: Path -> string)
    returns (result: Result<RecordedActivation, LifecycleError>)
    modifies state
    ensures match Finalize(old(state.View()), prepared, outcome, afterwards, nameOf)
      case Ok((next, recorded)) => result == Ok(recorded) && state.View() == next
      case Err(error) => result == Err(error)
  {
    hide FirstViolation, FindAt, FindRepository, FindCheckout, Others;
    var fault := TopologyFault(state.View(), prepared, outcome.record, afterwards);
    if fault.Some? { return Err(fault.value); }
    var path, main := outcome.record.path, afterwards.value.mainWorktree;
    var existing := PositionAt(state, prepared.repository, path);
    var checkout, managed := prepared.checkout, outcome.AddedByBaude();
    if existing.Some? {
      var row := state.checkouts[existing.value];
      var occupied := OccupantFault(row, prepared);
      if occupied.Some? { return Err(occupied.value); }
      if row.key == prepared.checkout { row := row.SetLifecycle(CheckoutLifecycle.Active); }
      row := row.(session := Relocated(row.session, path, main, prepared.branch));
      state.checkouts := state.checkouts[existing.value := row];
      checkout, managed := row.key, row.managedByBaude;
    } else {
      var activated := ActivatedRow(prepared, outcome, main, SessionName(nameOf, main, prepared.branch));
      var pending := state.Position(prepared.checkout);
      if pending.Some? {
        state.checkouts := state.checkouts[pending.value := activated];
      } else {
        state.checkouts := state.checkouts + [activated];
      }
    }
    if checkout != prepared.checkout { ClearPendingActivation(state, prepared.checkout); }
    var refusal := state.Validate();
    if refusal.Some? { return Err(Validation(refusal.value)); }
    result := Ok(RecordedActivation(prepared.repository, checkout, outcome.disposition, managed, path, main, prepared.branch));
  }

  method ExecuteActivation(state: RepositoryState, prepared: PreparedActivation, git: ActivationGit,
                           nameOf: Path -> string, textOf: LifecycleError -> string)
    returns (result: Result<RecordedActivation, LifecycleError>)
    modifies state
    ensures (state.View(), result) == Execute(old(state.View()), prepared, git, nameOf, textOf)
  {
    hide FirstViolation, Recover, Finalize;
    var before := state.View();
    if git.discovery.Err? { return Err(Discovery(git.discovery.error)); }
    var main := git.discovery.value.mainWorktree;
    if git.activation.Err? {
      match git.activation.error {
        case ActivationRefused(detail) => return Err(Git(detail));
        case PostAddCompensationFailed(branch, created, verification, compensation) =>
          result := PutRecovery(state,
            RecoveryRow(prepared, prepared.managedPath, main, SessionName(nameOf, main, prepared.branch), branch, created, verification, compensation),
            Git(compensation));
          return;
      }
    }
    var outcome := git.activation.value;
    result := FinalizeActivation(state, prepared, outcome, git.afterwards, nameOf);
    if result.Err? {
      state.Replace(before);
      if outcome.AddedByBaude() {
        if git.removal.Err? {
          var text := textOf(result.error);
          result := PutRecovery(state,
            RecoveryRow(prepared, outcome.record.path, main, prepared.branch, prepared.branch,
                        outcome.disposition.Created?, text, git.removal.error),
            CompensationFailed(prepared.checkout, text, git.removal.error));
        }
      }
    }
  }

  // ----- The transaction laws -----

  /** `b` is `a` with at most its session presentation changed. */
  predicate Untouched(a: SavedCheckout, b: SavedCheckout) {
    b == a.(session := b.session)
  }

  predicate AllUntouched(a: seq<SavedCheckout>, b: seq<SavedCheckout>) {
    |a| == |b| && forall k | 0 <= k < |a| :: Untouched(a[k], b[k])
  }

  /** Row for row: same keys, and the rows of other keys at most re-presented. */
  predicate Edited(a: seq<SavedCheckout>, b: seq<SavedCheckout>, key: U64) {
    |a| == |b| && forall k | 0 <= k < |a| :: a[k].key == b[k].key && (a[k].key != key ==> Untouched(a[k], b[k]))
  }

  /** An edit of the rows with this key is invisible to `Others`, up to presentation. */
  lemma {:induction false} OthersOfEdited(a: seq<SavedCheckout>, b: seq<SavedCheckout>, key: U64)
    requires Edited(a, b, key)
    ensures AllUntouched(Others(a, key), Others(b, key))
  {
    hide Untouched;
    if a != [] {
      assert Edited(a[1..], b[1..], key);
      OthersOfEdited(a[1..], b[1..], key);
    }
  }

  lemma {:induction false} OthersOfReplaced(rows: seq<SavedCheckout>, i: nat, row: SavedCheckout)
    requires i < |rows| && rows[i].key == row.key
    ensures Others(rows[i := row], row.key) == Others(rows, row.key)
  {
    if i > 0 {
      assert rows[i := row][1..] == rows[1..][i - 1 := row];
      OthersOfReplaced(rows[1..], i - 1, row);
    } else {
      assert rows[0 := row][1..] == rows[1..];
    }
  }

  lemma {:induction false} OthersOfAppended(rows: seq<SavedCheckout>, row: SavedCheckout, key: U64)
    ensures Others(rows + [row], key) == Others(rows, key) + (if row.key == key then [] else [row])
  {
    if rows != [] {
      assert (rows + [row])[1..] == rows[1..] + [row];
      OthersOfAppended(rows[1..], row, key);
    }
  }

  lemma {:induction false} OthersTwice(rows: seq<SavedCheckout>, key: U64)
    ensures Others(Others(rows, key), key) == Others(rows, key)
    ensures (forall c <- rows :: c.key != key) ==> Others(rows, key) == rows
  {
    if rows != [] {
      OthersTwice(rows[1..], key);
      var rest := Others(rows[1..], key);
      if rows[0].key == key { assert Others(rows, key) == rest; }
      else { assert Others(rows, key) == [rows[0]] + rest && ([rows[0]] + rest)[1..] == rest; }
    }
  }

  lemma PutOrPushKeepsOthers(s: StateView, row: SavedCheckout)
    ensures Others(PutOrPush(s, row).checkouts, row.key) == Others(s.checkouts, row.key)
    ensures PutOrPush(s, row) == s.(checkouts := PutOrPush(s, row).checkouts)
    ensures row in PutOrPush(s, row).checkouts
  {
    var found := FindCheckout(s.checkouts, row.key);
    if found.Some? {
      OthersOfReplaced(s.checkouts, found.value, row);
      assert s.checkouts[found.value := row][found.value] == row;
    } else {
      OthersOfAppended(s.checkouts, row, row.key);
    }
  }

  /** On an error the state is the entry state, or differs only in the row of
      the prepared key, which then is a protected activation recovery. */
  predicate RolledBack(s: StateView, s': StateView, key: U64) {
    || s' == s
    || (&& s' == s.(checkouts := s'.checkouts)
        && Others(s'.checkouts, key) == Others(s.checkouts, key)
        && exists row <- s'.checkouts :: row.key == key && row.lifecycle.Protected? && row.lifecycle.cause.ActivationRecovery?
             && s' == PutOrPush(s, row))
  }

  lemma RecoverRollsBack(s: StateView, row: SavedCheckout, error: LifecycleError)
    requires row.lifecycle.Protected? && row.lifecycle.cause.ActivationRecovery?
    ensures RolledBack(s, Recover(s, row, error).0, row.key) && Recover(s, row, error).1.Err?
  {
    hide FirstViolation;
    PutOrPushKeepsOthers(s, row);
  }

  /** On success the pending child is finalized as this very activation, or is
      gone in favour of the available row that already held the branch. */
  predicate Settled(s: StateView, s': StateView, prepared: PreparedActivation, done: RecordedActivation) {
    && s' == s.(checkouts := s'.checkouts)
    && AllUntouched(Others(s.checkouts, prepared.checkout), Others(s'.checkouts, prepared.checkout))
    && (exists row <- s'.checkouts :: row.key == done.checkout && row.observedPath == done.path
          && row.observedBranch == Some(FullRef(prepared.branch)) && row.health.Available? && row.repositoryKey == prepared.repository)
    && (done.checkout != prepared.checkout ==> forall row <- s'.checkouts :: row.key != prepared.checkout)
    && (done.checkout == prepared.checkout ==>
          exists row <- s'.checkouts :: row.key == prepared.checkout && row.lifecycle.Active? && row.observedPath == done.path)
  }

  lemma FreshRowSettles(s: StateView, prepared: PreparedActivation, outcome: ActivationOutcome, mainWorktree: Path, name: string)
    requires FindAt(s.checkouts, prepared.repository, outcome.record.path).None?
    ensures var recorded := Recorded(s, prepared, outcome, mainWorktree, name);
      recorded.Ok? && Settled(s, recorded.value.0, prepared, recorded.value.1)
  {
    var row := ActivatedRow(prepared, outcome, mainWorktree, name);
    PutOrPushKeepsOthers(s, row);
    var s' := PutOrPush(s, row);
    assert AllUntouched(Others(s.checkouts, prepared.checkout), Others(s'.checkouts, prepared.checkout));
  }

  lemma OccupantSettles(s: StateView, prepared: PreparedActivation, outcome: ActivationOutcome, mainWorktree: Path, name: string)
    requires FindAt(s.checkouts, prepared.repository, outcome.record.path).Some?
    requires Recorded(s, prepared, outcome, mainWorktree, name).Ok?
    ensures var recorded := Recorded(s, prepared, outcome, mainWorktree, name);
      Settled(s, recorded.value.0, prepared, recorded.value.1)
  {
    hide FindAt, OccupantRow, OccupantFault;
    var i := FindAt(s.checkouts, prepared.repository, outcome.record.path).value;
    var row := s.checkouts[i];
    var row' := OccupantRow(row, prepared, outcome.record.path, mainWorktree);
    OccupantStands(row, prepared, outcome.record.path, mainWorktree);
    var rows := s.checkouts[i := row'];
    OthersOfEdited(s.checkouts, rows, prepared.checkout);
    OthersTwice(rows, prepared.checkout);
    assert rows[i] == row';
    if row.key != prepared.checkout { KeptByOthers(rows, i, prepared.checkout); }
  }

  lemma OccupantStands(row: SavedCheckout, prepared: PreparedActivation, path: Path, mainWorktree: Path)
    requires OccupantFault(row, prepared).None?
    ensures var row' := OccupantRow(row, prepared, path, mainWorktree);
      && row'.key == row.key && row'.observedPath == row.observedPath && row'.repositoryKey == row.repositoryKey
      && row'.observedBranch == Some(FullRef(prepared.branch)) && row'.health.Available?
      && (row.key == prepared.checkout ==> row'.lifecycle.Active?)
      && (row.key != prepared.checkout ==> Untouched(row, row'))
  {
  }

  lemma {:induction false} KeptByOthers(rows: seq<SavedCheckout>, i: nat, key: U64)
    requires i < |rows| && rows[i].key != key
    ensures rows[i] in Others(rows, key)
  {
    if i > 0 { KeptByOthers(rows[1..], i - 1, key); }
  }

  /** Activation execution is a transaction, whatever Git answers. */
  lemma ExecutionIsTransactional(s: StateView, prepared: PreparedActivation, git: ActivationGit,
                                 nameOf: Path -> string, textOf: LifecycleError -> string)
    ensures var r := Execute(s, prepared, git, nameOf, textOf);
      && (r.1.Err? ==> RolledBack(s, r.0, prepared.checkout))
      && (r.1.Ok? ==> Settled(s, r.0, prepared, r.1.value))
  {
    hide FirstViolation, Recover, RolledBack, Settled, Recorded;
    if git.discovery.Ok? {
      var main := git.discovery.value.mainWorktree;
      if git.activation.Err? {
        if git.activation.error.PostAddCompensationFailed? {
          var f := git.activation.error;
          RecoverRollsBack(s, RecoveryRow(prepared, prepared.managedPath, main, SessionName(nameOf, main, prepared.branch), f.branch, f.createdBranch, f.verification, f.compensation),
                           Git(f.compensation));
        }
      } else {
        var outcome := git.activation.value;
        var result := Finalize(s, prepared, outcome, git.afterwards, nameOf);
        if result.Ok? {
          if FindAt(s.checkouts, prepared.repository, outcome.record.path).None? {
            FreshRowSettles(s, prepared, outcome, git.afterwards.value.mainWorktree, SessionName(nameOf, git.afterwards.value.mainWorktree, prepared.branch));
          } else {
            OccupantSettles(s, prepared, outcome, git.afterwards.value.mainWorktree, SessionName(nameOf, git.afterwards.value.mainWorktree, prepared.branch));
          }
        } else if outcome.AddedByBaude() && git.removal.Err? {
          RecoverRollsBack(s, RecoveryRow(prepared, outcome.record.path, main, prepared.branch, prepared.branch,
                                          outcome.disposition.Created?, textOf(result.error), git.removal.error),
                           CompensationFailed(prepared.checkout, textOf(result.error), git.removal.error));
        } else {
          EntryStateIsRolledBack(s, prepared.checkout);
        }
      }
    }
    EntryStateIsRolledBack(s, prepared.checkout);
  }

  lemma EntryStateIsRolledBack(s: StateView, key: U64)
    ensures RolledBack(s, s, key)
  {
  }
}
