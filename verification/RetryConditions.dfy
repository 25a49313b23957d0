/** What a retry of an interrupted activation concludes and when what it leaves
    can be saved, as conditions on the state and on Git's facts; and what a
    failed compensation costs it (baude-core/src/lifecycle.rs). */
module RetryConditions {
  import opened Prelude
  import opened Repository
  import opened GitTypes
  import opened LifecycleTransitions
  import opened Placement
  import opened Activation
  import opened ActivationConditions
  import opened ActivationRetry

  /** The retry may believe Git's inventory. */
  predicate Trusted(s: StateView, i: nat, facts: RetryFacts)
    requires i < |s.checkouts|
  {
    var found := FindRepository(s.repositories, s.checkouts[i].repositoryKey);
    found.Some? && facts.discovery.Ok? && facts.discovery.value.commonDir == s.repositories[found.value].commonDir
  }

  /** Neither the path nor the branch has a worktree, and nothing stands at the path. */
  predicate Gone(worktrees: seq<WorktreeRecord>, path: Path, branch: string, pathExists: bool) {
    !pathExists && forall w <- worktrees :: w.path != path && w.branch != Some(FullRef(branch))
  }

  /** One usable worktree is the first on the path and the first on the branch. */
  predicate InPlace(worktrees: seq<WorktreeRecord>, path: Path, branch: string) {
    var atPath, atRef := WorktreeAt(worktrees, path), WorktreeOn(worktrees, FullRef(branch));
    atPath.Some? && atRef.Some? && atPath.value.path == atRef.value.path && Usable(atPath.value)
  }

  /** The worktree on the branch is the one recorded before activation began. */
  predicate WithOwner(worktrees: seq<WorktreeRecord>, path: Path, p: Provenance, pathExists: bool) {
    var atRef := WorktreeOn(worktrees, FullRef(p.branch));
    !pathExists && (forall w <- worktrees :: w.path != path) && atRef.Some? && p.owner == Some(atRef.value.path) && Usable(atRef.value)
  }

  lemma TrustedMeansDiscovered(s: StateView, i: nat, facts: RetryFacts)
    requires i < |s.checkouts| && Trusted(s, i, facts)
    ensures facts.discovery.Ok?
  {
  }

  lemma ProvenanceMeansNoRuntime(row: SavedCheckout)
    requires row.Saveable() && ProvenanceOf(row).Some?
    ensures row.ownedRuntime.None?
  {
  }

  /** A row in recovery holds no runtime and stands in a repository on record. */
  lemma RowMayBeRetried(s: StateView, i: nat)
    requires Saveable(s) && i < |s.checkouts| && ProvenanceOf(s.checkouts[i]).Some?
    ensures s.checkouts[i].ownedRuntime.None? && FindRepository(s.repositories, s.checkouts[i].repositoryKey).Some?
  {
    hide WellFormed, SavedCheckout.ViewsAgree;
    RowsAreSaveable(s, i);
    ProvenanceMeansNoRuntime(s.checkouts[i]);
    RepositoryOf(s, i);
  }

  /** The branches of a retry, in order. */
  lemma RetryCases(s: StateView, key: U64, i: nat, facts: RetryFacts)
    requires FindCheckout(s.checkouts, key) == Some(i) && ProvenanceOf(s.checkouts[i]).Some?
    requires FindRepository(s.repositories, s.checkouts[i].repositoryKey).Some?
    ensures var r, row, p := Retry(s, key, facts), s.checkouts[i], ProvenanceOf(s.checkouts[i]).value;
      if !Trusted(s, i, facts) then r == BlockRetry(s, key, p, facts.observation)
      else
        var snapshot := facts.discovery.value;
        if Gone(snapshot.worktrees, row.observedPath, p.branch, facts.pathExists) then
          r == Resolve(Checked(Cleared(s, key)), ClearedAbsent(key))
        else if InPlace(snapshot.worktrees, row.observedPath, p.branch) then
          r == Resolve(Checked(Put(s, i, FinalizedRow(row, row.observedPath, snapshot.mainWorktree, p.branch))), Finalized(key))
        else if !WithOwner(snapshot.worktrees, row.observedPath, p, facts.pathExists) then r == BlockRetry(s, key, p, facts.observation)
        else r == ReuseOwner(s, i, p, p.owner.value, snapshot.mainWorktree)
  {
    hide FindCheckout, FindRepository, WorktreeAt, WorktreeOn, ReuseOwner, BlockRetry, FinalizedRow, Cleared, Checked, ProvenanceOf, Resolve, Usable;
    if facts.discovery.Ok? {
      NoWorktreeMissed(facts.discovery.value.worktrees, s.checkouts[i].observedPath, FullRef(ProvenanceOf(s.checkouts[i]).value.branch));
    }
  }

  lemma OwnerIsNeither(worktrees: seq<WorktreeRecord>, path: Path, p: Provenance, pathExists: bool)
    requires WithOwner(worktrees, path, p, pathExists)
    ensures !Gone(worktrees, path, p.branch, pathExists) && !InPlace(worktrees, path, p.branch)
  {
    NoWorktreeMissed(worktrees, path, FullRef(p.branch));
  }

  // ----- Each branch and its validation -----

  lemma RowsInRetrySave(row: SavedCheckout, path: Path, mainWorktree: Path, branch: string)
    requires row.ownedRuntime.None?
    ensures FinalizedRow(row, path, mainWorktree, branch).Saveable() && AdoptedRow(row, path, mainWorktree, branch).Saveable()
  {
  }

  lemma ReusedRowSaves(row: SavedCheckout, path: Path, mainWorktree: Path, branch: string)
    requires row.Saveable() && row.health.Available?
    ensures ReusedRow(row, path, mainWorktree, branch).Saveable()
  {
  }

  lemma BlockKeepsSaveable(s: StateView, key: U64, i: nat, facts: RetryFacts)
    requires Saveable(s) && FindCheckout(s.checkouts, key) == Some(i)
    requires ProvenanceOf(s.checkouts[i]).Some? && s.checkouts[i].ownedRuntime.None?
    ensures var r := BlockRetry(s, key, ProvenanceOf(s.checkouts[i]).value, facts.observation);
      r.1.Ok? && r.1.value.Blocked? && Saveable(r.0)
  {
    hide Saveable, FirstViolation;
    var p := ProvenanceOf(s.checkouts[i]).value;
    RowTransitionKeepsSaveable(s, i, s.checkouts[i].SetLifecycle(
      Protected(ActivationRecovery(p.branch, p.createdBranch, p.owner, facts.observation + PriorText(p.verification), p.compensation))));
  }

  /** Finalizing a row where it stands is refused exactly when Git now names
      another main worktree, and then the edited row stays in memory. */
  lemma FinalizingExactly(s: StateView, i: nat, main: Path, branch: string)
    requires Saveable(s) && i < |s.checkouts| && s.checkouts[i].ownedRuntime.None?
    ensures var row := s.checkouts[i];
      var next := Put(s, i, FinalizedRow(row, row.observedPath, main, branch));
      if main == row.session.repoRoot then Checked(next).1.Ok? && Saveable(next)
      else RefusedByValidate(Checked(next).1) && !WellFormed(next) && next != s
  {
    hide Saveable, WellFormed, FirstViolation, SavedCheckout.Saveable, Checked;
    var row := s.checkouts[i];
    var row' := FinalizedRow(row, row.observedPath, main, branch);
    SaveableIsWellFormed(s);
    RepositoryOf(s, i);
    RowsInRetrySave(row, row.observedPath, main, branch);
    CheckedExactly(Put(s, i, row'));
    if main == row.session.repoRoot {
      RowTransitionKeepsSaveable(s, i, row');
    } else if WellFormed(Put(s, i, row')) {
      OneOwner(s, i, row');
    }
    assert Put(s, i, row').checkouts[i] == row';
  }

  /** Re-pointing the row at the worktree that owned the branch all along is refused exactly when it does not fit there. */
  lemma AdoptingExactly(s: StateView, i: nat, path: Path, main: Path, branch: string)
    requires Saveable(s) && i < |s.checkouts| && s.checkouts[i].ownedRuntime.None?
    ensures var row := AdoptedRow(s.checkouts[i], path, main, branch);
      if Fits(s, i, row) then Checked(Put(s, i, row)).1.Ok? && Saveable(Put(s, i, row))
      else RefusedByValidate(Checked(Put(s, i, row)).1) && !WellFormed(Put(s, i, row))
  {
    hide Saveable, WellFormed, Fits, FirstViolation, SavedCheckout.Saveable, Checked, AdoptedRow;
    var row := AdoptedRow(s.checkouts[i], path, main, branch);
    SaveableIsWellFormed(s);
    RowsInRetrySave(s.checkouts[i], path, main, branch);
    PlacedExactly(s, i, row);
    PlacedSavesExactly(s, i, row);
    CheckedExactly(Put(s, i, row));
  }

  /** Reusing the row that stands there is refused exactly when Git now names another main worktree. */
  lemma ReusingExactly(s: StateView, at: nat, i: nat, main: Path, branch: string)
    requires Saveable(s) && at < |s.checkouts| && i < |s.checkouts| && at != i && s.checkouts[at].health.Available?
    ensures var placed := Put(s, at, ReusedRow(s.checkouts[at], s.checkouts[at].observedPath, main, branch));
      var next := Cleared(placed, s.checkouts[i].key);
      && next == Without(placed, i)
      && if main == s.checkouts[at].session.repoRoot then Checked(next).1.Ok? && Saveable(next)
         else RefusedByValidate(Checked(next).1) && !WellFormed(next)
  {
    hide Saveable, WellFormed, FirstViolation, SavedCheckout.Saveable, Checked, Without;
    var row := s.checkouts[at];
    var row' := ReusedRow(row, row.observedPath, main, branch);
    var placed := Put(s, at, row');
    var next := Cleared(placed, s.checkouts[i].key);
    SaveableIsWellFormed(s);
    RowsAreSaveable(s, at);
    RepositoryOf(s, at);
    ReusedRowSaves(row, row.observedPath, main, branch);
    KeysDiffer(s, i);
    ClearedByKey(placed, i);
    CheckedExactly(next);
    if main == row.session.repoRoot {
      RowTransitionKeepsSaveable(s, at, row');
      RemovalKeepsSaveable(placed, i);
    } else if WellFormed(next) {
      KeptByOthers(placed.checkouts, at, s.checkouts[i].key);
      MainWorktreeIsShared(s, row, next, row');
    }
  }

  // ----- The conclusions -----

  /** What a retry concludes, whenever Git's facts decide it: a child that is
      nowhere is dropped; one in place is finalized, or refused with the row
      edited when Git names another main worktree; and one about which the
      facts say neither stays blocked. */
  lemma RetryDecides(s: StateView, key: U64, i: nat, facts: RetryFacts)
    requires Saveable(s) && FindCheckout(s.checkouts, key) == Some(i) && ProvenanceOf(s.checkouts[i]).Some?
    ensures var r, row, p := Retry(s, key, facts), s.checkouts[i], ProvenanceOf(s.checkouts[i]).value;
      && (!Trusted(s, i, facts) ==> r.1.Ok? && r.1.value.Blocked? && Saveable(r.0))
      && (Trusted(s, i, facts) ==>
        var snapshot := facts.discovery.value;
        if Gone(snapshot.worktrees, row.observedPath, p.branch, facts.pathExists) then
          r == (Without(s, i), Ok(ClearedAbsent(key))) && Saveable(r.0)
        else if InPlace(snapshot.worktrees, row.observedPath, p.branch) then
          && r.0 == Put(s, i, FinalizedRow(row, row.observedPath, snapshot.mainWorktree, p.branch))
          && if snapshot.mainWorktree == row.session.repoRoot then r.1 == Ok(Finalized(key)) && Saveable(r.0)
             else RefusedByValidate(r.1) && !WellFormed(r.0) && r.0 != s
        else !WithOwner(snapshot.worktrees, row.observedPath, p, facts.pathExists) ==> r.1.Ok? && r.1.value.Blocked? && Saveable(r.0))
  {
    hide Saveable, WellFormed, FirstViolation, FindCheckout, FindRepository, WorktreeAt, WorktreeOn, ReuseOwner, BlockRetry, FinalizedRow,
         Cleared, Without, Usable, Retry, ProvenanceOf, Trusted;
    var row, p := s.checkouts[i], ProvenanceOf(s.checkouts[i]).value;
    RowMayBeRetried(s, i);
    BlockKeepsSaveable(s, key, i, facts);
    RetryCases(s, key, i, facts);
    ClearedIsWithout(s, i);
    RemovalKeepsSaveable(s, i);
    if Trusted(s, i, facts) {
      TrustedMeansDiscovered(s, i, facts);
      FinalizingExactly(s, i, facts.discovery.value.mainWorktree, p.branch);
    }
  }

  /** The branch is still with the worktree that held it before activation: the
      child becomes that worktree's row if it fits there, unless a row already
      stands there, which is then reused when it may be and never touched when
      it may not. */
  lemma ReuseDecides(s: StateView, key: U64, i: nat, facts: RetryFacts)
    requires Saveable(s) && FindCheckout(s.checkouts, key) == Some(i) && ProvenanceOf(s.checkouts[i]).Some?
    requires Trusted(s, i, facts)
    requires WithOwner(facts.discovery.value.worktrees, s.checkouts[i].observedPath, ProvenanceOf(s.checkouts[i]).value, facts.pathExists)
    ensures var r, row, p := Retry(s, key, facts), s.checkouts[i], ProvenanceOf(s.checkouts[i]).value;
      var main := facts.discovery.value.mainWorktree;
      var sibling := FindSibling(s.checkouts, row.key, row.repositoryKey, p.owner.value);
      if sibling.None? then
        var adopted := AdoptedRow(row, p.owner.value, main, p.branch);
        r.0 == Put(s, i, adopted)
        && if Fits(s, i, adopted) then r.1 == Ok(Finalized(key)) && Saveable(r.0) else RefusedByValidate(r.1) && !WellFormed(r.0)
      else
        var occupant := s.checkouts[sibling.value];
        if occupant.observedBranch != Some(FullRef(p.branch)) then r.1.Err? && !RefusedByValidate(r.1) && r.0 == s
        else if occupant.health.Unavailable? then r.1.Ok? && r.1.value.Blocked? && r.0 == s
        else
          r.0 == Without(Put(s, sibling.value, ReusedRow(occupant, p.owner.value, main, p.branch)), i)
          && if main == occupant.session.repoRoot then r.1 == Ok(Finalized(occupant.key)) && Saveable(r.0)
             else RefusedByValidate(r.1) && !WellFormed(r.0)
  {
    hide Saveable, WellFormed, Fits, FirstViolation, FindCheckout, FindRepository, WorktreeAt, WorktreeOn, BlockRetry,
         Cleared, Without, Retry, ProvenanceOf, Trusted, FindSibling, AdoptedRow, ReusedRow, InPlace, Gone;
    TrustedMeansDiscovered(s, i, facts);
    var row, p, main := s.checkouts[i], ProvenanceOf(s.checkouts[i]).value, facts.discovery.value.mainWorktree;
    RowMayBeRetried(s, i);
    RetryCases(s, key, i, facts);
    OwnerIsNeither(facts.discovery.value.worktrees, row.observedPath, p, facts.pathExists);
    var sibling := FindSibling(s.checkouts, row.key, row.repositoryKey, p.owner.value);
    if sibling.None? {
      AdoptingExactly(s, i, p.owner.value, main, p.branch);
    } else if s.checkouts[sibling.value].health.Available? {
      ReusingExactly(s, sibling.value, i, main, p.branch);
    }
  }

  /** The row may be re-pointed at its branch's old owner, or the row standing there reused. */
  ghost predicate ReuseSaves(s: StateView, i: nat, p: Provenance, main: Path)
    requires i < |s.checkouts| && p.owner.Some?
  {
    var row := s.checkouts[i];
    match FindSibling(s.checkouts, row.key, row.repositoryKey, p.owner.value)
    case None => Fits(s, i, AdoptedRow(row, p.owner.value, main, p.branch))
    case Some(k) =>
      var occupant := s.checkouts[k];
      occupant.observedBranch == Some(FullRef(p.branch)) && occupant.health.Available? ==> main == occupant.session.repoRoot
  }

  /** What a retry leaves can be saved, said over the state and Git's facts. */
  ghost predicate RetrySaves(s: StateView, key: U64, facts: RetryFacts) {
    var found := FindCheckout(s.checkouts, key);
    found.Some? && ProvenanceOf(s.checkouts[found.value]).Some? && Trusted(s, found.value, facts) ==>
      var row, snapshot := s.checkouts[found.value], facts.discovery.value;
      var p := ProvenanceOf(row).value;
      && (InPlace(snapshot.worktrees, row.observedPath, p.branch) ==> snapshot.mainWorktree == row.session.repoRoot)
      && (WithOwner(snapshot.worktrees, row.observedPath, p, facts.pathExists) ==> ReuseSaves(s, found.value, p, snapshot.mainWorktree))
  }

  lemma RetrySavesExactly(s: StateView, key: U64, facts: RetryFacts)
    requires Saveable(s)
    ensures Saveable(Retry(s, key, facts).0) <==> RetrySaves(s, key, facts)
    ensures RefusedByValidate(Retry(s, key, facts).1) <==> !RetrySaves(s, key, facts)
  {
    hide WellFormed, Fits, SavedCheckout.Saveable, Retry, ProvenanceOf, Trusted, Gone, InPlace, WithOwner, FinalizedRow, AdoptedRow, ReusedRow,
         Without, FindSibling, FindCheckout;
    var found := FindCheckout(s.checkouts, key);
    if found.None? || ProvenanceOf(s.checkouts[found.value]).None? {
      NothingToRetry(s, key, facts);
    } else {
      var i, row, p := found.value, s.checkouts[found.value], ProvenanceOf(s.checkouts[found.value]).value;
      RetryDecides(s, key, i, facts);
      if Trusted(s, i, facts) {
        TrustedMeansDiscovered(s, i, facts);
        var worktrees := facts.discovery.value.worktrees;
        NotTwoWays(worktrees, row.observedPath, p, facts.pathExists);
        if WithOwner(worktrees, row.observedPath, p, facts.pathExists) {
          OwnerIsNamed(worktrees, row.observedPath, p, facts.pathExists);
          ReuseDecides(s, key, i, facts);
        }
      }
    }
  }

  lemma NothingToRetry(s: StateView, key: U64, facts: RetryFacts)
    requires var found := FindCheckout(s.checkouts, key); found.None? || ProvenanceOf(s.checkouts[found.value]).None?
    ensures Retry(s, key, facts).0 == s && !RefusedByValidate(Retry(s, key, facts).1)
  {
  }

  lemma OwnerIsNamed(worktrees: seq<WorktreeRecord>, path: Path, p: Provenance, pathExists: bool)
    requires WithOwner(worktrees, path, p, pathExists)
    ensures p.owner.Some?
  {
  }

  lemma NotTwoWays(worktrees: seq<WorktreeRecord>, path: Path, p: Provenance, pathExists: bool)
    ensures Gone(worktrees, path, p.branch, pathExists) ==> !InPlace(worktrees, path, p.branch) && !WithOwner(worktrees, path, p, pathExists)
    ensures InPlace(worktrees, path, p.branch) ==> !WithOwner(worktrees, path, p, pathExists)
  {
    NoWorktreeMissed(worktrees, path, FullRef(p.branch));
  }

  // ----- Marking the recovery by hand -----

  /** Marking a recovery succeeds on every saveable state, and leaves one that
      can be saved exactly when the row holds no runtime record. */
  lemma RecoveryMarkSavesExactly(s: StateView, key: U64, i: nat, branch: string, created: Option<bool>, verification: string, compensation: string)
    requires Saveable(s) && FindCheckout(s.checkouts, key) == Some(i)
    ensures var r := MarkRecovery(s, key, branch, created, verification, compensation);
      r.1.Ok? && (Saveable(r.0) <==> s.checkouts[i].ownedRuntime.None?)
  {
    hide Saveable, WellFormed, FirstViolation;
    var row := s.checkouts[i];
    var owner := if ProvenanceOf(row).None? then None else ProvenanceOf(row).value.owner;
    var marked := row.SetLifecycle(Protected(ActivationRecovery(branch, created, owner, verification, compensation)));
    UpdateKeepsSaveable(s, i, marked);
    CheckedExactly(Put(s, i, marked));
  }

  // ----- What a failed compensation forgets -----

  /** A child in recovery keeps the recorded owner of its branch through a
      failing execution exactly when no compensation failed or none was recorded. */
  lemma OwnerSurvivesExactly(s: StateView, i: nat, prepared: PreparedActivation, git: ActivationGit,
                             nameOf: Path -> string, textOf: LifecycleError -> string)
    requires FindCheckout(s.checkouts, prepared.checkout) == Some(i) && ProvenanceOf(s.checkouts[i]).Some?
    requires Execute(s, prepared, git, nameOf, textOf).1.Err?
    ensures var after := Execute(s, prepared, git, nameOf, textOf).0;
      && FindCheckout(after.checkouts, prepared.checkout) == Some(i) && ProvenanceOf(after.checkouts[i]).Some?
      && (ProvenanceOf(after.checkouts[i]).value.owner == ProvenanceOf(s.checkouts[i]).value.owner <==>
          !LeavesWorktreeBehind(git) || ProvenanceOf(s.checkouts[i]).value.owner.None?)
      && (LeavesWorktreeBehind(git) ==> ProvenanceOf(after.checkouts[i]).value.owner.None?)
  {
    hide FirstViolation, Finalize, FindCheckout;
    var after := Execute(s, prepared, git, nameOf, textOf).0;
    if LeavesWorktreeBehind(git) { FindSurvivesUpdate(s.checkouts, i, after.checkouts[i]); }
  }

  /** A retry of a child without a recorded owner finalizes it only where it stands. */
  lemma WithoutOwnerNothingIsReused(s: StateView, key: U64, i: nat, facts: RetryFacts)
    requires FindCheckout(s.checkouts, key) == Some(i) && ProvenanceOf(s.checkouts[i]).Some?
    requires ProvenanceOf(s.checkouts[i]).value.owner.None?
    requires Retry(s, key, facts).1.Ok? && Retry(s, key, facts).1.value.Finalized?
    ensures Retry(s, key, facts).1 == Ok(Finalized(key)) && Trusted(s, i, facts)
    ensures InPlace(facts.discovery.value.worktrees, s.checkouts[i].observedPath, ProvenanceOf(s.checkouts[i]).value.branch)
    ensures Retry(s, key, facts).0 == Put(s, i, FinalizedRow(s.checkouts[i], s.checkouts[i].observedPath,
      facts.discovery.value.mainWorktree, ProvenanceOf(s.checkouts[i]).value.branch))
  {
    hide FirstViolation, FindCheckout, WorktreeAt, WorktreeOn, FinalizedRow;
    RetryCases(s, key, i, facts);
  }

  /** Once a compensation has failed, no retry ever reuses the worktree that
      held the branch before, whatever Git then reports. */
  lemma DroppedOwnerIsNeverReused(s: StateView, i: nat, prepared: PreparedActivation, git: ActivationGit,
                                  nameOf: Path -> string, textOf: LifecycleError -> string, facts: RetryFacts)
    requires FindCheckout(s.checkouts, prepared.checkout) == Some(i) && ProvenanceOf(s.checkouts[i]).Some?
    requires Execute(s, prepared, git, nameOf, textOf).1.Err? && LeavesWorktreeBehind(git)
    ensures var after := Execute(s, prepared, git, nameOf, textOf).0;
      var r := Retry(after, prepared.checkout, facts);
      i < |after.checkouts| && (r.1.Ok? && r.1.value.Finalized? ==>
        r.1.value.checkout == prepared.checkout && facts.discovery.Ok?
        && r.0 == Put(after, i, FinalizedRow(after.checkouts[i], after.checkouts[i].observedPath, facts.discovery.value.mainWorktree,
                                             ProvenanceOf(after.checkouts[i]).value.branch)))
  {
    hide Execute, Retry, ProvenanceOf, FindCheckout, Trusted;
    OwnerSurvivesExactly(s, i, prepared, git, nameOf, textOf);
    var after := Execute(s, prepared, git, nameOf, textOf).0;
    var r := Retry(after, prepared.checkout, facts);
    if r.1.Ok? && r.1.value.Finalized? {
      WithoutOwnerNothingIsReused(after, prepared.checkout, i, facts);
      TrustedMeansDiscovered(after, i, facts);
    }
  }
}
