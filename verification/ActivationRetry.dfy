/** Restart-time recovery of an interrupted activation, and what survives any
    number of blocked retries (baude-core/src/lifecycle.rs). */
module ActivationRetry {
  import opened Prelude
  import opened Repository
  import opened GitTypes
  import opened LifecycleTransitions
  import opened Activation

  /** What a retry sees: Git's discovery from the recorded main worktree,
      whether the expected path exists, and the text that describes it. */
  datatype RetryFacts = RetryFacts(discovery: Result<RepositorySnapshot, string>, pathExists: bool, observation: string)

  datatype Resolution = ClearedAbsent(checkout: U64) | Finalized(checkout: U64) | Blocked(checkout: U64, detail: string)

  /** The provenance a row in recovery carries. */
  datatype Provenance = Provenance(
    branch: string, createdBranch: Option<bool>, owner: Option<Path>, verification: string, compensation: string)

  const INTERRUPTED := "activation interrupted before finalization"

  function ProvenanceOf(row: SavedCheckout): Option<Provenance> {
    match row.health
    case Unavailable(PendingActivation(branch, created, owner)) => Some(Provenance(branch, created, owner, INTERRUPTED, ""))
    case Unavailable(ActivationRecovery(branch, created, owner, verification, compensation)) =>
      Some(Provenance(branch, created, owner, verification, compensation))
    case _ => None
  }

  function PriorText(verification: string): string {
    "; prior verification: " + verification
  }

  /** `mark_activation_recovery`: the pre-existing owner is taken from the row itself. */
  function MarkRecovery(s: StateView, key: U64, branch: string, created: Option<bool>, verification: string, compensation: string):
    (StateView, Result<(), LifecycleError>)
  {
    var found := FindCheckout(s.checkouts, key);
    if found.None? then (s, Err(LifecycleCheckoutMissing(key)))
    else
      var row := s.checkouts[found.value];
      var owner := if ProvenanceOf(row).None? then None else ProvenanceOf(row).value.owner;
      Checked(Put(s, found.value, row.SetLifecycle(Protected(ActivationRecovery(branch, created, owner, verification, compensation)))))
  }

  method MarkActivationRecovery(state: RepositoryState, key: U64, branch: string, created: Option<bool>, verification: string, compensation: string)
    returns (result: Result<(), LifecycleError>)
    modifies state
    ensures (state.View(), result) == MarkRecovery(old(state.View()), key, branch, created, verification, compensation)
  {
    hide FirstViolation, FindCheckout, SavedCheckout.SetLifecycle;
    var found := state.Position(key);
    if found.None? { return Err(LifecycleCheckoutMissing(key)); }
    var row := state.checkouts[found.value];
    var owner: Option<Path> := None;
    match row.health {
      case Unavailable(PendingActivation(_, _, preexisting)) => owner := preexisting;
      case Unavailable(ActivationRecovery(_, _, preexisting, _, _)) => owner := preexisting;
      case _ =>
    }
    row := row.SetLifecycle(Protected(ActivationRecovery(branch, created, owner, verification, compensation)));
    state.checkouts := state.checkouts[found.value := row];
    result := CheckAfterMutation(state);
  }

  /** A worktree Git reports in use on a branch, neither locked nor prunable. */
  predicate Usable(record: WorktreeRecord) {
    !record.detached && !record.locked && !record.prunable
  }

  /** Keep the row blocked, prefixing what was seen now to what was known before. */
  function BlockRetry(s: StateView, key: U64, p: Provenance, observation: string): (StateView, Result<Resolution, LifecycleError>) {
    var detail := observation + PriorText(p.verification);
    var marked := MarkRecovery(s, key, p.branch, p.createdBranch, detail, p.compensation);
    (marked.0, if marked.1.Err? then Err(marked.1.error) else Ok(Blocked(key, detail)))
  }

  function Resolve(checked: (StateView, Result<(), LifecycleError>), resolution: Resolution): (StateView, Result<Resolution, LifecycleError>) {
    (checked.0, if checked.1.Err? then Err(checked.1.error) else Ok(resolution))
  }

  /** The row finalized at `path`. */
  function FinalizedRow(row: SavedCheckout, path: Path, mainWorktree: Path, branch: string): SavedCheckout {
    row.SetLifecycle(CheckoutLifecycle.Active).(
      observedBranch := Some(FullRef(branch)), session := Relocated(row.session, path, mainWorktree, branch))
  }

  /** The row re-pointed at the worktree that owned the branch all along. */
  function AdoptedRow(row: SavedCheckout, path: Path, mainWorktree: Path, branch: string): SavedCheckout {
    FinalizedRow(row, path, mainWorktree, branch).(
      observedPath := path, managedByBaude := false, role := if path == mainWorktree then Main else ManagedBranch)
  }

  /** The sibling row that already stands for the owning worktree, put back to use. */
  function ReusedRow(row: SavedCheckout, path: Path, mainWorktree: Path, branch: string): SavedCheckout {
    var active := if row.lifecycle.HoldsRuntime() then row else row.SetLifecycle(CheckoutLifecycle.Active);
    active.(session := Relocated(active.session, path, mainWorktree, branch))
  }

  /** The first other row of a repository at a path. */
  function FindSibling(rows: seq<SavedCheckout>, key: U64, repository: U64, path: Path): (found: Option<nat>)
    ensures found.Some? ==> found.value < |rows| && rows[found.value].key != key
    ensures found.Some? ==> rows[found.value].repositoryKey == repository && rows[found.value].observedPath == path
  {
    if rows == [] then None
    else if rows[0].key != key && rows[0].repositoryKey == repository && rows[0].observedPath == path then Some(0)
    else
      var rest := FindSibling(rows[1..], key, repository, path);
      if rest.None? then None else Some(rest.value + 1)
  }

  /** Reuse the worktree that owned the branch before activation began. */
  function ReuseOwner(s: StateView, i: nat, p: Provenance, path: Path, mainWorktree: Path): (StateView, Result<Resolution, LifecycleError>)
    requires i < |s.checkouts|
  {
    var row := s.checkouts[i];
    var sibling := FindSibling(s.checkouts, row.key, row.repositoryKey, path);
    if sibling.None? then Resolve(Checked(Put(s, i, AdoptedRow(row, path, mainWorktree, p.branch))), Finalized(row.key))
    else
      var occupant := s.checkouts[sibling.value];
      if occupant.observedBranch != Some(FullRef(p.branch)) then (s, Err(Topology("checkout changed branch identity")))
      else if occupant.health.Unavailable? then (s, Ok(Blocked(row.key, "occupied checkout has unresolved recovery")))
      else
        var next := Cleared(Put(s, sibling.value, ReusedRow(occupant, path, mainWorktree, p.branch)), row.key);
        Resolve(Checked(next), Finalized(occupant.key))
  }

  function Retry(s: StateView, key: U64, facts: RetryFacts): (StateView, Result<Resolution, LifecycleError>) {
    var found := FindCheckout(s.checkouts, key);
    if found.None? then (s, Err(LifecycleCheckoutMissing(key)))
    else
      var i, row := found.value, s.checkouts[found.value];
      var provenance := ProvenanceOf(row);
      if provenance.None? then (s, Err(Topology("checkout is not activation recovery")))
      else
        var p, repository := provenance.value, FindRepository(s.repositories, row.repositoryKey);
        if repository.None? then (s, Err(RepositoryMissing(row.repositoryKey)))
        else if facts.discovery.Err? || facts.discovery.value.commonDir != s.repositories[repository.value].commonDir then
          BlockRetry(s, key, p, facts.observation)
        else
          var snapshot := facts.discovery.value;
          var atPath := WorktreeAt(snapshot.worktrees, row.observedPath);
          var atRef := WorktreeOn(snapshot.worktrees, FullRef(p.branch));
          if atPath.None? && atRef.None? && !facts.pathExists then
            Resolve(Checked(Cleared(s, key)), ClearedAbsent(key))
          else if atPath.Some? && atRef.Some? && atPath.value.path == atRef.value.path && Usable(atPath.value) then
            Resolve(Checked(Put(s, i, FinalizedRow(row, row.observedPath, snapshot.mainWorktree, p.branch))), Finalized(key))
          else if atPath.None? && atRef.Some? && p.owner == Some(atRef.value.path) && !facts.pathExists && Usable(atRef.value) then
            ReuseOwner(s, i, p, atRef.value.path, snapshot.mainWorktree)
          else BlockRetry(s, key, p, facts.observation)
  }

  method SiblingPosition(state: RepositoryState, key: U64, repository: U64, path: Path) returns (found: Option<nat>)
    ensures found == FindSibling(state.checkouts, key, repository, path)
  {
    for i := 0 to |state.checkouts|
      invariant FindSibling(state.checkouts, key, repository, path) ==
        match FindSibling(state.checkouts[i..], key, repository, path) case None => None case Some(k) => Some(i + k)
    {
      var row := state.checkouts[i];
      if row.key != key && row.repositoryKey == repository && row.observedPath == path { return Some(i); }
      assert state.checkouts[i..][1..] == state.checkouts[i + 1..];
    }
    found := None;
  }

  method ReuseBranchOwner(state: RepositoryState, i: nat, p: Provenance, path: Path, mainWorktree: Path)
    returns (result: Result<Resolution, LifecycleError>)
    requires i < |state.checkouts|
    modifies state
    ensures (state.View(), result) == ReuseOwner(old(state.View()), i, p, path, mainWorktree)
  {
    hide FirstViolation, FindSibling, Others;
    var row := state.checkouts[i];
    var sibling := SiblingPosition(state, row.key, row.repositoryKey, path);
    var finalized := row.key;
    if sibling.Some? {
      var occupant := state.checkouts[sibling.value];
      if occupant.observedBranch != Some(FullRef(p.branch)) { return Err(Topology("checkout changed branch identity")); }
      if occupant.health.Unavailable? { return Ok(Blocked(row.key, "occupied checkout has unresolved recovery")); }
      if !occupant.lifecycle.HoldsRuntime() { occupant := occupant.SetLifecycle(CheckoutLifecycle.Active); }
      occupant := occupant.(session := Relocated(occupant.session, path, mainWorktree, p.branch));
      state.checkouts := state.checkouts[sibling.value := occupant];
      finalized := occupant.key;
    } else {
      row := row.(observedPath := path, observedBranch := Some(FullRef(p.branch)), managedByBaude := false);
      row := row.(role := if path == mainWorktree then Main else ManagedBranch);
      row := row.SetLifecycle(CheckoutLifecycle.Active);
      row := row.(session := Relocated(row.session, path, mainWorktree, p.branch));
      state.checkouts := state.checkouts[i := row];
    }
    if finalized != row.key { ClearPendingActivation(state, row.key); }
    var checked := CheckAfterMutation(state);
    if checked.Err? { return Err(checked.error); }
    result := Ok(Finalized(finalized));
  }

  method BlockActivationRetry(state: RepositoryState, key: U64, p: Provenance, observation: string)
    returns (result: Result<Resolution, LifecycleError>)
    modifies state
    ensures (state.View(), result) == BlockRetry(old(state.View()), key, p, observation)
  {
    var detail := observation + PriorText(p.verification);
    var marked := MarkActivationRecovery(state, key, p.branch, p.createdBranch, detail, p.compensation);
    if marked.Err? { return Err(marked.error); }
    result := Ok(Blocked(key, detail));
  }

  method ReconcileActivationRecovery(state: RepositoryState, key: U64, facts: RetryFacts) returns (result: Result<Resolution, LifecycleError>)
    modifies state
    ensures (state.View(), result) == Retry(old(state.View()), key, facts)
  {
    hide FirstViolation, FindCheckout, FindRepository, ReuseOwner, BlockRetry, Others, WorktreeAt, WorktreeOn;
    var found := state.Position(key);
    if found.None? { return Err(LifecycleCheckoutMissing(key)); }
    var i, row := found.value, state.checkouts[found.value];
    var provenance := ProvenanceOf(row);
    if provenance.None? { return Err(Topology("checkout is not activation recovery")); }
    var p := provenance.value;
    var repository := state.RepositoryPosition(row.repositoryKey);
    if repository.None? { return Err(RepositoryMissing(row.repositoryKey)); }
    var snapshot;
    match facts.discovery {
      case Err(_) =>
        result := BlockActivationRetry(state, key, p, facts.observation);
        return;
      case Ok(discovered) => snapshot := discovered;
    }
    if snapshot.commonDir != state.repositories[repository.value].commonDir {
      result := BlockActivationRetry(state, key, p, facts.observation);
      return;
    }
    var atPath := WorktreeAt(snapshot.worktrees, row.observedPath);
    var atRef := WorktreeOn(snapshot.worktrees, FullRef(p.branch));
    var checked;
    if atPath.None? && atRef.None? && !facts.pathExists {
      ClearPendingActivation(state, key);
      checked := CheckAfterMutation(state);
      if checked.Err? { return Err(checked.error); }
      return Ok(ClearedAbsent(key));
    }
    if atPath.Some? && atRef.Some? && atPath.value.path == atRef.value.path && Usable(atPath.value) {
      row := row.SetLifecycle(CheckoutLifecycle.Active);
      row := row.(observedBranch := Some(FullRef(p.branch)));
      row := row.(session := Relocated(row.session, row.observedPath, snapshot.mainWorktree, p.branch));
      state.checkouts := state.checkouts[i := row];
      checked := CheckAfterMutation(state);
      if checked.Err? { return Err(checked.error); }
      return Ok(Finalized(key));
    }
    if atPath.None? && atRef.Some? && p.owner == Some(atRef.value.path) && !facts.pathExists && Usable(atRef.value) {
      result := ReuseBranchOwner(state, i, p, atRef.value.path, snapshot.mainWorktree);
      return;
    }
    result := BlockActivationRetry(state, key, p, facts.observation);
  }

  // ----- Laws -----

  /** `older` is a suffix of `newer`. */
  predicate Suffix(older: string, newer: string) {
    |older| <= |newer| && newer[|newer| - |older|..] == older
  }

  /** Everything but the verification text is the same, and that only grew in front. */
  predicate Carries(before: Provenance, after: Provenance) {
    && after.branch == before.branch && after.createdBranch == before.createdBranch
    && after.owner == before.owner && after.compensation == before.compensation
    && Suffix(before.verification, after.verification)
  }

  lemma CarriesTransitively(a: Provenance, b: Provenance, c: Provenance)
    requires Carries(a, b) && Carries(b, c)
    ensures Carries(a, c)
  {
    var x, y, z := a.verification, b.verification, c.verification;
    assert y == z[|z| - |y|..];
    assert x == y[|y| - |x|..];
    assert z[|z| - |x|..] == z[|z| - |y|..][|y| - |x|..];
  }

  /** No row of another key that is unavailable is changed; an available one
      keeps its identity, runtime record and place. */
  predicate OthersRespected(a: seq<SavedCheckout>, b: seq<SavedCheckout>) {
    |a| == |b| && forall k | 0 <= k < |a| :: RowRespected(a[k], b[k])
  }

  predicate RowRespected(a: SavedCheckout, b: SavedCheckout) {
    && b == a.(session := b.session, lifecycle := b.lifecycle, activeIntent := b.activeIntent, health := b.health)
    && (a.health.Unavailable? ==> b == a)
    && (b.health.Available? == a.health.Available?)
  }

  lemma {:induction false} OthersOfReuse(rows: seq<SavedCheckout>, i: nat, row: SavedCheckout, key: U64)
    requires i < |rows| && rows[i].key == row.key && row.key != key && RowRespected(rows[i], row)
    ensures OthersRespected(Others(rows, key), Others(rows[i := row], key))
  {
    hide RowRespected;
    if i > 0 {
      assert rows[i := row][1..] == rows[1..][i - 1 := row];
      OthersOfReuse(rows[1..], i - 1, row, key);
    } else {
      assert rows[0 := row][1..] == rows[1..];
    }
    RespectIsReflexive(Others(rows, key));
    RespectIsReflexive(Others(rows[1..], key));
  }

  lemma RespectIsReflexive(rows: seq<SavedCheckout>)
    ensures OthersRespected(rows, rows)
    ensures forall c <- rows :: RowRespected(c, c)
  {
  }

  /** Row `i` stays the row of `key`, still in recovery with its provenance, and no other row moved. */
  ghost predicate CarriesRow(s: StateView, s': StateView, key: U64, i: nat)
    requires i < |s.checkouts|
  {
    && FindCheckout(s'.checkouts, key) == Some(i)
    && |s'.checkouts| == |s.checkouts|
    && (forall k | 0 <= k < |s.checkouts| && k != i :: s'.checkouts[k] == s.checkouts[k])
    && SameIdentity(s.checkouts[i], s'.checkouts[i])
    && ProvenanceOf(s.checkouts[i]).Some? && ProvenanceOf(s'.checkouts[i]).Some?
    && Carries(ProvenanceOf(s.checkouts[i]).value, ProvenanceOf(s'.checkouts[i]).value)
  }

  lemma CarriesItself(s: StateView, key: U64, i: nat)
    requires FindCheckout(s.checkouts, key) == Some(i) && ProvenanceOf(s.checkouts[i]).Some?
    ensures CarriesRow(s, s, key, i)
  {
  }

  lemma BlockRetryCarries(s: StateView, key: U64, i: nat, observation: string)
    requires FindCheckout(s.checkouts, key) == Some(i) && ProvenanceOf(s.checkouts[i]).Some?
    ensures CarriesRow(s, BlockRetry(s, key, ProvenanceOf(s.checkouts[i]).value, observation).0, key, i)
  {
    hide FirstViolation, FindCheckout;
    var p := ProvenanceOf(s.checkouts[i]).value;
    var detail := observation + PriorText(p.verification);
    assert detail[|detail| - |p.verification|..] == p.verification;
    var s' := BlockRetry(s, key, p, observation).0;
    FindSurvivesUpdate(s.checkouts, i, s'.checkouts[i]);
    assert s'.checkouts == s.checkouts[i := s'.checkouts[i]];
  }

  /** One blocked retry: the provenance is carried, and no other row moves at all. */
  lemma BlockedRetryCarries(s: StateView, key: U64, facts: RetryFacts)
    requires var r := Retry(s, key, facts); r.1.Ok? && r.1.value.Blocked?
    ensures FindCheckout(s.checkouts, key).Some?
    ensures CarriesRow(s, Retry(s, key, facts).0, key, FindCheckout(s.checkouts, key).value)
  {
    hide FirstViolation, FindRepository, Others, WorktreeAt, WorktreeOn, BlockRetry, CarriesRow;
    var i := FindCheckout(s.checkouts, key).value;
    CarriesItself(s, key, i);
    BlockRetryCarries(s, key, i, facts.observation);
  }

  lemma {:induction false} FindSurvivesUpdate(rows: seq<SavedCheckout>, i: nat, row: SavedCheckout)
    requires FindCheckout(rows, row.key) == Some(i)
    ensures FindCheckout(rows[i := row], row.key) == Some(i)
  {
    if i > 0 {
      assert rows[i := row][1..] == rows[1..][i - 1 := row];
      FindSurvivesUpdate(rows[1..], i - 1, row);
    }
  }

  /** Retry after retry, as long as each is blocked. */
  function Retries(s: StateView, key: U64, answers: seq<RetryFacts>): StateView {
    if answers == [] then s else Retry(Retries(s, key, answers[..|answers| - 1]), key, answers[|answers| - 1]).0
  }

  predicate AllBlocked(s: StateView, key: U64, answers: seq<RetryFacts>) {
    answers == [] ||
      var front := answers[..|answers| - 1];
      var last := Retry(Retries(s, key, front), key, answers[|answers| - 1]).1;
      AllBlocked(s, key, front) && last.Ok? && last.value.Blocked?
  }

  /** Provenance survives any number of blocked retries with arbitrary Git
      answers, every earlier verification text stays a suffix, and no other row
      changes. */
  lemma {:induction false} ProvenanceSurvivesRetries(s: StateView, key: U64, i: nat, answers: seq<RetryFacts>)
    requires FindCheckout(s.checkouts, key) == Some(i) && ProvenanceOf(s.checkouts[i]).Some?
    requires AllBlocked(s, key, answers)
    ensures CarriesRow(s, Retries(s, key, answers), key, i)
  {
    if answers == [] {
      CarriesItself(s, key, i);
    } else {
      hide Retry, ProvenanceOf, Carries, FindCheckout;
      var front := answers[..|answers| - 1];
      var mid, last := Retries(s, key, front), Retries(s, key, answers);
      ProvenanceSurvivesRetries(s, key, i, front);
      BlockedRetryCarries(mid, key, answers[|answers| - 1]);
      CarriesTransitively(ProvenanceOf(s.checkouts[i]).value, ProvenanceOf(mid.checkouts[i]).value, ProvenanceOf(last.checkouts[i]).value);
    }
  }

  /** Whatever a retry concludes, rows of other keys that are unavailable are
      exactly as before, in place. */
  lemma RetryRespectsOthers(s: StateView, key: U64, facts: RetryFacts)
    ensures OthersRespected(Others(s.checkouts, key), Others(Retry(s, key, facts).0.checkouts, key))
    ensures Retry(s, key, facts).0 == s.(checkouts := Retry(s, key, facts).0.checkouts)
  {
    hide FirstViolation, FindRepository, Others, WorktreeAt, WorktreeOn, OthersRespected, ReuseOwner, BlockRetry, ProvenanceOf;
    RespectIsReflexive(Others(s.checkouts, key));
    var found := FindCheckout(s.checkouts, key);
    if found.Some? {
      var i, row := found.value, s.checkouts[found.value];
      OthersTwice(s.checkouts, key);
      if ProvenanceOf(row).Some? { BlockRespectsOthers(s, key, i, facts.observation); }
      if ProvenanceOf(row).Some? && facts.discovery.Ok? {
        var p := ProvenanceOf(row).value;
        OthersOfReplaced(s.checkouts, i, FinalizedRow(row, row.observedPath, facts.discovery.value.mainWorktree, p.branch));
        var atRef := WorktreeOn(facts.discovery.value.worktrees, FullRef(p.branch));
        if atRef.Some? { ReuseRespectsOthers(s, i, p, atRef.value.path, facts.discovery.value.mainWorktree); }
      }
    }
  }

  lemma BlockRespectsOthers(s: StateView, key: U64, i: nat, observation: string)
    requires FindCheckout(s.checkouts, key) == Some(i) && ProvenanceOf(s.checkouts[i]).Some?
    ensures var s' := BlockRetry(s, key, ProvenanceOf(s.checkouts[i]).value, observation).0;
      Others(s'.checkouts, key) == Others(s.checkouts, key) && s' == s.(checkouts := s'.checkouts)
  {
    hide FirstViolation, Others;
    var s' := BlockRetry(s, key, ProvenanceOf(s.checkouts[i]).value, observation).0;
    OthersOfReplaced(s.checkouts, i, s'.checkouts[i]);
    assert s'.checkouts == s.checkouts[i := s'.checkouts[i]];
  }

  lemma ReuseRespectsOthers(s: StateView, i: nat, p: Provenance, path: Path, mainWorktree: Path)
    requires i < |s.checkouts|
    ensures var r, key := ReuseOwner(s, i, p, path, mainWorktree), s.checkouts[i].key;
      OthersRespected(Others(s.checkouts, key), Others(r.0.checkouts, key)) && r.0 == s.(checkouts := r.0.checkouts)
  {
    hide FirstViolation, FindSibling, Others, OthersRespected;
    var row := s.checkouts[i];
    RespectIsReflexive(Others(s.checkouts, row.key));
    OthersOfReplaced(s.checkouts, i, AdoptedRow(row, path, mainWorktree, p.branch));
    var sibling := FindSibling(s.checkouts, row.key, row.repositoryKey, path);
    if sibling.Some? && s.checkouts[sibling.value].health.Available? {
      var reused := ReusedRow(s.checkouts[sibling.value], path, mainWorktree, p.branch);
      OthersOfReuse(s.checkouts, sibling.value, reused, row.key);
      OthersTwice(s.checkouts[sibling.value := reused], row.key);
    }
  }

  /** A retry settles only on evidence: the child is dropped only when neither
      path nor branch has a worktree, and finalized only on a usable worktree
      Git lists on the very branch, at the row's path or at the owner recorded
      before activation. */
  lemma RetrySettlesOnEvidence(s: StateView, key: U64, facts: RetryFacts)
    requires Retry(s, key, facts).1.Ok? && !Retry(s, key, facts).1.value.Blocked?
    ensures var r := Retry(s, key, facts);
      var row := s.checkouts[FindCheckout(s.checkouts, key).value];
      var p := ProvenanceOf(row).value;
      && facts.discovery.Ok?
      && (r.1.value.ClearedAbsent? ==>
            && !facts.pathExists
            && (forall w <- facts.discovery.value.worktrees :: w.path != row.observedPath && w.branch != Some(FullRef(p.branch)))
            && (forall c <- r.0.checkouts :: c.key != key))
      && (r.1.value.Finalized? ==>
            exists w <- facts.discovery.value.worktrees, u <- facts.discovery.value.worktrees, c <- r.0.checkouts ::
              && Usable(u) && u.path == w.path && w.branch == Some(FullRef(p.branch))
              && (w.path == row.observedPath || (p.owner == Some(w.path) && !facts.pathExists))
              && c.key == r.1.value.checkout && c.observedPath == w.path
              && c.observedBranch == Some(FullRef(p.branch)) && c.health.Available?)
  {
    hide FirstViolation, FindRepository, FindSibling, ReuseOwner;
    var i := FindCheckout(s.checkouts, key).value;
    var row := s.checkouts[i];
    var p := ProvenanceOf(row).value;
    var worktrees := facts.discovery.value.worktrees;
    NoWorktreeMissed(worktrees, row.observedPath, FullRef(p.branch));
    var r := Retry(s, key, facts);
    if r.1.value.Finalized? {
      var atPath, atRef := WorktreeAt(worktrees, row.observedPath), WorktreeOn(worktrees, FullRef(p.branch));
      if atPath.Some? {
        var c := r.0.checkouts[i];
        assert atPath.value in worktrees && atRef.value in worktrees && c in r.0.checkouts;
      } else {
        ReuseSettles(s, i, p, atRef.value.path, facts.discovery.value.mainWorktree);
      }
    } else {
      ReuseNeverClears(s, i, p, facts);
    }
  }

  lemma ReuseNeverClears(s: StateView, i: nat, p: Provenance, facts: RetryFacts)
    requires i < |s.checkouts|
    ensures forall path, mainWorktree :: var r := ReuseOwner(s, i, p, path, mainWorktree).1; r.Ok? ==> !r.value.ClearedAbsent?
  {
    hide FirstViolation, FindSibling, Others;
  }

  lemma ReuseSettles(s: StateView, i: nat, p: Provenance, path: Path, mainWorktree: Path)
    requires i < |s.checkouts|
    requires var r := ReuseOwner(s, i, p, path, mainWorktree); r.1.Ok? && r.1.value.Finalized?
    ensures var r := ReuseOwner(s, i, p, path, mainWorktree);
      exists c <- r.0.checkouts :: c.key == r.1.value.checkout && c.observedPath == path
        && c.observedBranch == Some(FullRef(p.branch)) && c.health.Available?
  {
    hide FirstViolation, FindSibling, Others;
    var row, r := s.checkouts[i], ReuseOwner(s, i, p, path, mainWorktree);
    var sibling := FindSibling(s.checkouts, row.key, row.repositoryKey, path);
    if sibling.None? {
      assert r.0.checkouts[i] in r.0.checkouts;
    } else {
      var rows := s.checkouts[sibling.value := ReusedRow(s.checkouts[sibling.value], path, mainWorktree, p.branch)];
      KeptByOthers(rows, sibling.value, row.key);
    }
  }

  lemma {:induction false} NoWorktreeMissed(worktrees: seq<WorktreeRecord>, path: Path, fullRef: string)
    ensures WorktreeAt(worktrees, path).None? <==> forall w <- worktrees :: w.path != path
    ensures WorktreeOn(worktrees, fullRef).None? <==> forall w <- worktrees :: w.branch != Some(fullRef)
  {
    if worktrees != [] { NoWorktreeMissed(worktrees[1..], path, fullRef); }
  }
}
