/** The ordered Git check that authorizes reuse of a checkout
    (baude-core/src/git.rs) and how its answer is recorded on the durable row
    (baude-core/src/lifecycle.rs). Git's answers are values. */
module Reconciliation {
  import opened Prelude
  import opened Repository
  import opened GitTypes

  datatype Refusal =
    | CheckoutMissing(path: Path)
    | DiscoveryFailed(path: Path, detail: string)
    | CommonDirChanged(expectedDir: Path, observedDir: Path)
    | WorktreeMoved(expectedPath: Path, observedPath: Path)
    | BranchDrifted(expected: Option<string>, observed: Option<string>)
    | HeadDetached
    | WorktreeLocked
  {
    /** The branch Git reports when the branch is the only fact that failed. */
    function BranchDrift(): Option<Option<string>> {
      match this
      case BranchDrifted(_, observed) => Some(observed)
      case HeadDetached => Some(None)
      case _ => None
    }
  }

  function ReconcileCheckout(facts: GitFacts, commonDir: Path, path: Path, branch: Option<string>): Result<RepositorySnapshot, Refusal> {
    if !facts.present then Err(CheckoutMissing(path))
    else if facts.discovery.Err? then Err(DiscoveryFailed(path, facts.discovery.error))
    else
      var snapshot := facts.discovery.value;
      if snapshot.commonDir != commonDir then Err(CommonDirChanged(commonDir, snapshot.commonDir))
      else if snapshot.selected.path != path then Err(WorktreeMoved(path, snapshot.selected.path))
      else if snapshot.selected.locked || snapshot.selected.prunable then Err(WorktreeLocked)
      else if snapshot.selected.detached then Err(HeadDetached)
      else if snapshot.selected.branch != branch then Err(BranchDrifted(branch, snapshot.selected.branch))
      else Ok(snapshot)
  }

  /** Common directory, path and lock state are the recorded ones. */
  predicate IdentityVerified(facts: GitFacts, commonDir: Path, path: Path) {
    && facts.present && facts.discovery.Ok?
    && facts.discovery.value.commonDir == commonDir
    && facts.discovery.value.selected.path == path
    && !facts.discovery.value.selected.locked && !facts.discovery.value.selected.prunable
  }

  /** The branch Git reports for a verified checkout; `None` when detached. */
  function ReportedBranch(facts: GitFacts): Option<string>
    requires facts.discovery.Ok?
  {
    if facts.discovery.value.selected.detached then None else facts.discovery.value.selected.branch
  }

  /** Branch facts are compared last: a drift is reported exactly when every
      identity fact was verified and only the branch differs. */
  lemma DriftMeansOnlyTheBranchFailed(facts: GitFacts, commonDir: Path, path: Path, branch: Option<string>)
    ensures var r := ReconcileCheckout(facts, commonDir, path, branch);
      && (r.Ok? || r.error.BranchDrift().Some? <==> IdentityVerified(facts, commonDir, path))
      && (r.Ok? <==> IdentityVerified(facts, commonDir, path)
                     && !facts.discovery.value.selected.detached && ReportedBranch(facts) == branch)
      && (r.Err? && r.error.BranchDrift().Some? ==> r.error.BranchDrift().value == ReportedBranch(facts))
  {
  }

  // ----- Recording the answer on the row -----

  /** Main and default rows follow their branch; a managed branch row is pinned to it. */
  predicate Follows(row: SavedCheckout) {
    !row.role.ManagedBranch?
  }

  function AdoptedBranch(row: SavedCheckout, refusal: Refusal): Option<Option<string>> {
    if Follows(row) then refusal.BranchDrift() else None
  }

  const HEADS := "refs/heads/"

  function ShortBranch(full: string): string {
    if HEADS <= full then full[|HEADS|..] else full
  }

  function ReobserveBranch(row: SavedCheckout, observed: Option<string>): SavedCheckout {
    row.(observedBranch := observed,
         session := row.session.(branch := if observed.None? then None else Some(ShortBranch(observed.value))))
  }

  /** The protections a verified reconcile disproves. */
  predicate LiftsOnReconcile(row: SavedCheckout) {
    row.lifecycle.Protected?
    && (row.lifecycle.cause.IdentityChanged? || row.lifecycle.cause.BranchChanged? || row.lifecycle.cause.Detached?)
  }

  /** A stale identity claim gives way to the branch cause Git now proves. */
  predicate RelabelsProtection(row: SavedCheckout, cause: UnavailableCause) {
    && row.lifecycle.Protected? && row.lifecycle.cause.IdentityChanged?
    && (cause.BranchChanged? || cause.Detached?)
  }

  function CauseOf(refusal: Refusal): (cause: UnavailableCause)
    ensures !cause.KeepsIntent()
  {
    match refusal
    case CheckoutMissing(_) => Missing
    case CommonDirChanged(_, _) => IdentityChanged
    case WorktreeMoved(_, _) => PathChanged
    case BranchDrifted(expected, observed) => BranchChanged(expected, observed)
    case HeadDetached => Detached
    case WorktreeLocked => LockedOrPrunable
    case DiscoveryFailed(_, detail) => Other(detail)
  }

  function RecordOnRow(row: SavedCheckout, answer: Result<(), Refusal>): (SavedCheckout, Option<UnavailableCause>) {
    var adopted := if answer.Ok? then None else AdoptedBranch(row, answer.error);
    var seen := if adopted.Some? then ReobserveBranch(row, adopted.value) else row;
    if answer.Ok? || adopted.Some? then
      if LiftsOnReconcile(seen) then (seen.SetLifecycle(CheckoutLifecycle.Inactive), None)
      else if seen.lifecycle.IsProtected() then (seen, None)
      else (seen.SetLifecycle(if seen.activeIntent then CheckoutLifecycle.Active else CheckoutLifecycle.Inactive), None)
    else
      var cause := CauseOf(answer.error);
      if !row.lifecycle.IsProtected() || RelabelsProtection(row, cause) then
        (row.SetLifecycle(Protected(cause)), Some(cause))
      else (row, Some(cause))
  }

  function RecordReconciliation(s: StateView, key: U64, answer: Result<(), Refusal>):
    Result<(StateView, Option<UnavailableCause>), ValidationError>
  {
    var found := FindCheckout(s.checkouts, key);
    if found.None? then Err(MissingCheckout(key))
    else
      var recorded := RecordOnRow(s.checkouts[found.value], answer);
      Ok((s.(checkouts := s.checkouts[found.value := recorded.0]), recorded.1))
  }

  method RecordCheckoutReconciliation(state: RepositoryState, key: U64, answer: Result<(), Refusal>)
    returns (result: Result<Option<UnavailableCause>, ValidationError>)
    modifies state
    ensures match RecordReconciliation(old(state.View()), key, answer)
      case Ok((next, cause)) => state.View() == next && result == Ok(cause)
      case Err(e) => state.View() == old(state.View()) && result == Err(e)
  {
    var found := state.Position(key);
    if found.None? { return Err(MissingCheckout(key)); }
    var saved := state.checkouts[found.value];
    var unavailable: Option<UnavailableCause> := None;
    if answer.Err? {
      var adopted := AdoptedBranch(saved, answer.error);
      if adopted.Some? { saved := ReobserveBranch(saved, adopted.value); }
      else { unavailable := Some(CauseOf(answer.error)); }
    }
    if unavailable.None? && LiftsOnReconcile(saved) {
      saved := saved.SetLifecycle(CheckoutLifecycle.Inactive);
    } else if unavailable.None? && saved.lifecycle.HoldsRuntime() {
    } else if unavailable.None? && !saved.lifecycle.IsProtected() {
      saved := saved.SetLifecycle(if saved.activeIntent then CheckoutLifecycle.Active else CheckoutLifecycle.Inactive);
    } else if unavailable.Some? && (!saved.lifecycle.IsProtected() || RelabelsProtection(saved, unavailable.value)) {
      saved := saved.SetLifecycle(Protected(unavailable.value));
    }
    state.checkouts := state.checkouts[found.value := saved];
    result := Ok(unavailable);
  }

  // ----- Rounds of reconcile-then-record -----

  /** One round: ask Git about the row as recorded, record the answer. */
  function Round(row: SavedCheckout, facts: GitFacts, commonDir: Path): (SavedCheckout, Option<UnavailableCause>) {
    var r := ReconcileCheckout(facts, commonDir, row.observedPath, row.observedBranch);
    RecordOnRow(row, if r.Ok? then Ok(()) else Err(r.error))
  }

  lemma RecordingIsIdempotent(row: SavedCheckout, answer: Result<(), Refusal>)
    ensures RecordOnRow(RecordOnRow(row, answer).0, answer) == RecordOnRow(row, answer)
  {
  }

  lemma AdoptionSettles(row: SavedCheckout, refusal: Refusal)
    requires AdoptedBranch(row, refusal).Some?
    ensures RecordOnRow(RecordOnRow(row, Err(refusal)).0, Ok(())) == RecordOnRow(row, Err(refusal))
  {
  }

  lemma RecordedBranch(row: SavedCheckout, answer: Result<(), Refusal>)
    ensures var next := RecordOnRow(row, answer).0;
      && SameIdentity(row, next) && Follows(next) == Follows(row)
      && next.ownedRuntime == row.ownedRuntime && next.managedByBaude == row.managedByBaude
      && (answer.Err? && AdoptedBranch(row, answer.error).Some? ==> next.observedBranch == AdoptedBranch(row, answer.error).value)
      && (answer.Ok? || AdoptedBranch(row, answer.error).None? ==> next.observedBranch == row.observedBranch && next.session == row.session)
  {
  }

  /** For fixed Git facts a second round changes nothing and blames the same cause. */
  lemma RoundReachesFixpoint(row: SavedCheckout, facts: GitFacts, commonDir: Path)
    ensures Round(Round(row, facts, commonDir).0, facts, commonDir) == Round(row, facts, commonDir)
  {
    hide RecordOnRow;
    var r := ReconcileCheckout(facts, commonDir, row.observedPath, row.observedBranch);
    var answer: Result<(), Refusal> := if r.Ok? then Ok(()) else Err(r.error);
    RecordedBranch(row, answer);
    RecordingIsIdempotent(row, answer);
    if r.Err? && AdoptedBranch(row, r.error).Some? { AdoptionSettles(row, r.error); }
  }

  /** The identity is verified, and the branch is the recorded one unless the row follows it. */
  predicate AcceptableFor(row: SavedCheckout, facts: GitFacts, commonDir: Path) {
    && IdentityVerified(facts, commonDir, row.observedPath)
    && (Follows(row) || (!facts.discovery.value.selected.detached && ReportedBranch(facts) == row.observedBranch))
  }

  /** A round blames a row exactly when its identity could not be verified or
      a pinned row's branch moved; it never touches a protection other than
      the three that branch drift can have produced. */
  lemma RoundBlamesExactly(row: SavedCheckout, facts: GitFacts, commonDir: Path)
    ensures var r := Round(row, facts, commonDir);
      && (r.1.None? <==> AcceptableFor(row, facts, commonDir))
      && (row.lifecycle.IsProtected() && !LiftsOnReconcile(row) ==> r.0.lifecycle == row.lifecycle && r.0.health == row.health)
      && (LiftsOnReconcile(row) ==> (r.0.lifecycle.Inactive? <==> r.1.None?))
      && (LiftsOnReconcile(row) && r.1.Some? ==> r.0.lifecycle.Protected? && LiftsOnReconcile(r.0))
      && (!row.lifecycle.IsProtected() ==>
            r.0.lifecycle == match r.1 case Some(cause) => Protected(cause)
                             case None => if row.activeIntent then CheckoutLifecycle.Active else CheckoutLifecycle.Inactive)
  {
  }

  /** What a round may do to a row's identity and branch. */
  predicate RoundRespects(row: SavedCheckout, facts: GitFacts, commonDir: Path, next: SavedCheckout) {
    && SameIdentity(row, next) && next.ownedRuntime == row.ownedRuntime && next.managedByBaude == row.managedByBaude
    && (!Follows(row) ==> next.observedBranch == row.observedBranch && next.session == row.session)
    && (next.observedBranch != row.observedBranch ==>
          IdentityVerified(facts, commonDir, row.observedPath) && next.observedBranch == ReportedBranch(facts))
  }

  lemma RoundKeepsRow(row: SavedCheckout, facts: GitFacts, commonDir: Path)
    ensures RoundRespects(row, facts, commonDir, Round(row, facts, commonDir).0)
    ensures row.Saveable() ==> Round(row, facts, commonDir).0.Saveable()
  {
    hide RecordOnRow, SavedCheckout.Saveable;
    var r := ReconcileCheckout(facts, commonDir, row.observedPath, row.observedBranch);
    RecordedBranch(row, if r.Ok? then Ok(()) else Err(r.error));
    if row.Saveable() { RecordingKeepsSaveable(row, if r.Ok? then Ok(()) else Err(r.error)); }
  }

  lemma RecordingKeepsSaveable(row: SavedCheckout, answer: Result<(), Refusal>)
    requires row.Saveable()
    ensures RecordOnRow(row, answer).0.Saveable()
  {
  }

  /** The row after each of a series of rounds with arbitrary Git answers. */
  function Rounds(row: SavedCheckout, commonDir: Path, answers: seq<GitFacts>): SavedCheckout {
    if answers == [] then row
    else Round(Rounds(row, commonDir, answers[..|answers| - 1]), answers[|answers| - 1], commonDir).0
  }

  /** Over any series of rounds a pinned row never changes its branch, and a
      following row's branch is its first one or what Git reported in some
      round for this very common directory and path, unlocked. */
  lemma {:induction false} BranchProvenance(row: SavedCheckout, commonDir: Path, answers: seq<GitFacts>)
    ensures var last := Rounds(row, commonDir, answers);
      && SameIdentity(row, last)
      && (!Follows(row) ==> last.observedBranch == row.observedBranch && last.session == row.session)
      && (last.observedBranch == row.observedBranch
          || exists facts <- answers :: IdentityVerified(facts, commonDir, row.observedPath) && ReportedBranch(facts) == last.observedBranch)
      && (row.Saveable() ==> last.Saveable())
  {
    if answers != [] {
      var front, facts := answers[..|answers| - 1], answers[|answers| - 1];
      BranchProvenance(row, commonDir, front);
      RoundKeepsRow(Rounds(row, commonDir, front), facts, commonDir);
      assert answers == front + [facts];
    }
  }
}
