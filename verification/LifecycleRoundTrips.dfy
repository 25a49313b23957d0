/** What one lifecycle operation undoes of another, and exactly when each goes
    through: laws across the operations of baude-core/src/lifecycle.rs. */
module LifecycleRoundTrips {
  import opened Prelude
  import opened Repository
  import opened LifecycleReducer
  import opened GitTypes
  import opened LifecycleTransitions
  import opened Placement
  import opened Reopen
  import opened Activation
  import opened ActivationConditions
  import opened ActivationRetry
  import opened RetryConditions

  // ----- The reducer -----

  function Moved(row: SavedCheckout, event: Event): SavedCheckout {
    CandidateFor(row, event).ApplyToRow(row)
  }

  function Applied(row: SavedCheckout, events: seq<Event>): SavedCheckout {
    if events == [] then row else Moved(Applied(row, events[..|events| - 1]), events[|events| - 1])
  }

  lemma AppliedOne(row: SavedCheckout, events: seq<Event>, event: Event)
    ensures Applied(row, events + [event]) == Moved(Applied(row, events), event)
  {
    assert (events + [event])[..|events|] == events;
  }

  lemma MovedKeepsTheRest(row: SavedCheckout, event: Event)
    ensures AtRest(Moved(row, event), row.session) == AtRest(row, row.session) && Moved(row, event).session == row.session
    ensures Moved(row, event).lifecycle == Reduce(row.lifecycle, event).state
    ensures Moved(row, event).ownedRuntime == if event.LaunchRegistered? then Some(event.runtime) else if event.RuntimeExtinct? then None else row.ownedRuntime
    ensures Moved(row, event).ViewsAgree()
  {
  }

  lemma RestingRow(row: SavedCheckout)
    requires row.ViewsAgree() && row.lifecycle.Inactive? && row.ownedRuntime.None?
    ensures AtRest(row, row.session) == row
  {
  }

  /** The whole life of a runtime: from rest through one generation and back,
      leaving the row as it was; on the way it runs under that generation. */
  lemma FullCycleReturnsHome(row: SavedCheckout, runtime: OwnedRuntime)
    requires row.Saveable() && row.lifecycle.Inactive?
    ensures var up := [RequestActivation, ActivationVerified, LaunchRegistered(runtime), LaunchReleased];
      && Applied(row, up).lifecycle == Running(runtime.generation) && Applied(row, up).ownedRuntime == Some(runtime)
      && Applied(row, up + [RequestClose, RuntimeExtinct]) == row
  {
    var r1 := Moved(row, RequestActivation);
    var r2 := Moved(r1, ActivationVerified);
    var r3 := Moved(r2, LaunchRegistered(runtime));
    var r4 := Moved(r3, LaunchReleased);
    var r5 := Moved(r4, RequestClose);
    var r6 := Moved(r5, RuntimeExtinct);
    RestingRow(row);
    hide Moved, AtRest, SavedCheckout.ViewsAgree;
    MovedKeepsTheRest(row, RequestActivation);
    MovedKeepsTheRest(r1, ActivationVerified);
    MovedKeepsTheRest(r2, LaunchRegistered(runtime));
    MovedKeepsTheRest(r3, LaunchReleased);
    MovedKeepsTheRest(r4, RequestClose);
    MovedKeepsTheRest(r5, RuntimeExtinct);
    RestingRow(r6);
    CycleApplied(row, runtime);
  }

  lemma CycleApplied(row: SavedCheckout, runtime: OwnedRuntime)
    ensures var up := [RequestActivation, ActivationVerified, LaunchRegistered(runtime), LaunchReleased];
      var top := Moved(Moved(Moved(Moved(row, RequestActivation), ActivationVerified), LaunchRegistered(runtime)), LaunchReleased);
      Applied(row, up) == top && Applied(row, up + [RequestClose, RuntimeExtinct]) == Moved(Moved(top, RequestClose), RuntimeExtinct)
  {
    hide Moved;
    var up := [RequestActivation, ActivationVerified, LaunchRegistered(runtime), LaunchReleased];
    assert up == [] + [RequestActivation] + [ActivationVerified] + [LaunchRegistered(runtime)] + [LaunchReleased];
    AppliedOne(row, [], RequestActivation);
    AppliedOne(row, [] + [RequestActivation], ActivationVerified);
    AppliedOne(row, [] + [RequestActivation] + [ActivationVerified], LaunchRegistered(runtime));
    AppliedOne(row, [] + [RequestActivation] + [ActivationVerified] + [LaunchRegistered(runtime)], LaunchReleased);
    AppliedOne(row, up, RequestClose);
    AppliedOne(row, up + [RequestClose], RuntimeExtinct);
    assert up + [RequestClose, RuntimeExtinct] == up + [RequestClose] + [RuntimeExtinct];
  }

  // ----- Close, teardown and reopen -----

  /** The row at rest, with this session. */
  function AtRest(row: SavedCheckout, session: RetainedSession): SavedCheckout {
    row.(session := session, lifecycle := CheckoutLifecycle.Inactive, activeIntent := false, health := Available, ownedRuntime := None)
  }

  /** A close goes through exactly when the session handed back describes the
      row's own place; then the row is at rest with it, and otherwise nothing changed. */
  lemma CloseGoesThroughExactly(s: StateView, key: U64, i: nat, runtime: RetainedSession)
    requires Saveable(s) && FindCheckout(s.checkouts, key) == Some(i)
    ensures PlanClose(s, key, runtime).1.Ok? <==> SamePlace(s.checkouts[i], runtime)
    ensures PlanClose(s, key, runtime).0 ==
      if SamePlace(s.checkouts[i], runtime) then s.(checkouts := s.checkouts[i := AtRest(s.checkouts[i], runtime)]) else s
  {
    hide Saveable, WellFormed, FirstViolation;
    SaveableIsWellFormed(s);
    var row := Closed(s.checkouts[i], runtime);
    ValidateAcceptsExactlyWellFormed(Put(s, i, row));
    if SamePlace(s.checkouts[i], runtime) { UpdateKeepsSaveable(s, i, row); }
    if WellFormed(Put(s, i, row)) { OneOwner(s, i, row); }
  }

  /** A teardown that stopped only part of a runtime keeps the user's intent and
      the runtime record; once a retry finishes it, the row ends exactly where a
      close with that shell flag would have put it. */
  lemma TeardownEndsAsClose(s: StateView, key: U64, i: nat, report: TeardownReport)
    requires Saveable(s) && FindCheckout(s.checkouts, key) == Some(i)
    ensures var pending := MarkTeardownPending(s, key, report).0;
      && |pending.checkouts| == |s.checkouts|
      && pending.checkouts[i].activeIntent && pending.checkouts[i].ownedRuntime == s.checkouts[i].ownedRuntime
      && pending.checkouts[i].health == Unavailable(UnavailableCause.TeardownPending(report))
      && RecoverTeardown(pending, key, Ok(())).0
        == PlanClose(s, key, s.checkouts[i].session.(shellOpen := report.shellPid.Some?)).0
  {
    var session := s.checkouts[i].session.(shellOpen := report.shellPid.Some?);
    CloseGoesThroughExactly(s, key, i, session);
    TornDownRow(s.checkouts[i], report);
    hide Saveable, WellFormed, FirstViolation, FindCheckout, TornDown, AtRest, SavedCheckout.SetLifecycle, PlanClose;
    var row := TornDown(s.checkouts[i], report);
    FindSurvivesUpdate(s.checkouts, i, row);
    assert s.checkouts[i := row][i := AtRest(s.checkouts[i], session)] == s.checkouts[i := AtRest(s.checkouts[i], session)];
  }

  lemma TornDownRow(row: SavedCheckout, report: TeardownReport)
    ensures var torn := TornDown(row, report);
      && torn.key == row.key && torn.activeIntent && torn.ownedRuntime == row.ownedRuntime
      && torn.health == Unavailable(UnavailableCause.TeardownPending(report))
      && torn.SetLifecycle(CheckoutLifecycle.Inactive).(ownedRuntime := None)
        == AtRest(row, row.session.(shellOpen := report.shellPid.Some?))
  {
  }

  /** A row may be marked active exactly when nothing protects it and it claims
      no runtime; then it is active and nothing else differs. */
  lemma MarkActiveExactly(s: StateView, key: U64, i: nat)
    requires Saveable(s) && FindCheckout(s.checkouts, key) == Some(i)
    ensures var row := s.checkouts[i];
      && (MarkActive(s, key).1.None? <==> row.lifecycle.Inactive? || row.lifecycle.Active?)
      && MarkActive(s, key).0 == (if row.lifecycle.Inactive? || row.lifecycle.Active?
        then s.(checkouts := s.checkouts[i := row.(lifecycle := CheckoutLifecycle.Active, activeIntent := true, health := Available)]) else s)
  {
  }

  /** Marking a row at rest active and closing it with the session it had is no
      change at all, and marking an active row again is none either. */
  lemma MarkActiveThenCloseIsIdentity(s: StateView, key: U64, i: nat)
    requires Saveable(s) && FindCheckout(s.checkouts, key) == Some(i)
    ensures var marked := MarkActive(s, key).0;
      && MarkActive(marked, key).0 == marked
      && (s.checkouts[i].lifecycle.Inactive? ==>
        marked != s && PlanClose(marked, key, s.checkouts[i].session).1.Ok? && PlanClose(marked, key, s.checkouts[i].session).0 == s)
  {
    hide Saveable, WellFormed, MarkActive, PlanClose, FindCheckout, SavedCheckout.ViewsAgree, SavedCheckout.RuntimeAgrees;
    var marked, row := MarkActive(s, key).0, s.checkouts[i];
    RowsAreSaveable(s, i);
    MarkActiveKeepsSaveable(s, key, i);
    MarkActiveExactly(s, key, i);
    MarkedRow(s, key, i);
    MarkActiveExactly(marked, key, i);
    if row.lifecycle.Inactive? {
      RestMeansNoIntent(row);
      RestingRow(row);
      CloseGoesThroughExactly(marked, key, i, row.session);
      assert marked.checkouts[i := row] == s.checkouts;
    }
  }

  lemma MarkedRow(s: StateView, key: U64, i: nat)
    requires FindCheckout(s.checkouts, key) == Some(i)
    ensures FindCheckout(MarkActive(s, key).0.checkouts, key) == Some(i)
  {
    FindSurvivesUpdate(s.checkouts, i, s.checkouts[i].SetLifecycle(CheckoutLifecycle.Active));
  }

  /** The repository the row belongs to is available. */
  predicate RepositoryAvailable(s: StateView, i: nat)
    requires i < |s.checkouts|
  {
    var found := FindRepository(s.repositories, s.checkouts[i].repositoryKey);
    found.Some? ==> s.repositories[found.value].health.Available?
  }

  /** Reopening a row at rest and closing it with the session it had is no change at all. */
  lemma ReopenThenCloseIsIdentity(s: StateView, key: U64, i: nat, targetExists: string -> bool)
    requires Saveable(s) && FindCheckout(s.checkouts, key) == Some(i) && s.checkouts[i].lifecycle.Inactive?
    requires RepositoryAvailable(s, i)
    ensures var after := PlanReopen(s, ReopenRequest(key, Ok(()), Absent), targetExists);
      && after.1.Ok? && after.0 != s
      && PlanClose(after.0, key, s.checkouts[i].session).1.Ok? && PlanClose(after.0, key, s.checkouts[i].session).0 == s
  {
    hide Saveable, WellFormed, PlanReopen, PlanClose, FindCheckout, SavedCheckout.Saveable, AtRest, OwnedBy;
    var request := ReopenRequest(key, Ok(()), Absent);
    var row := s.checkouts[i];
    RowsAreSaveable(s, i);
    RestMeansNoIntent(row);
    ReopenIsTotal(s, request, targetExists);
    ReopenAuthorizesDurableIntent(s, request, targetExists);
    var after := PlanReopen(s, request, targetExists).0;
    var row' := after.checkouts[i];
    FindSurvivesUpdate(s.checkouts, i, row');
    CloseGoesThroughExactly(after, key, i, row.session);
    HealthyRepositories(s, request, i, targetExists);
    assert s.checkouts[i := row'][i := row] == s.checkouts;
  }

  lemma RestMeansNoIntent(row: SavedCheckout)
    requires row.Saveable() && row.lifecycle.Inactive?
    ensures !row.activeIntent && row.ownedRuntime.None?
  {
  }

  lemma HealthyRepositories(s: StateView, request: ReopenRequest, i: nat, targetExists: string -> bool)
    requires Saveable(s) && FindCheckout(s.checkouts, request.checkout) == Some(i) && s.checkouts[i].lifecycle.Inactive?
    requires request.reconciliation.Ok? && request.runtime.Absent?
    requires RepositoryAvailable(s, i)
    ensures var after := PlanReopen(s, request, targetExists).0;
      && after == s.(checkouts := after.checkouts) && |after.checkouts| == |s.checkouts|
      && AtRest(after.checkouts[i], s.checkouts[i].session) == s.checkouts[i]
  {
    hide Saveable, FirstSaveViolation, FindCheckout;
    RowsAreSaveable(s, i);
    var found := FindRepository(s.repositories, s.checkouts[i].repositoryKey);
    if found.Some? {
      var r := s.repositories[found.value];
      assert r in s.repositories && r.(health := Available) == r;
      assert s.repositories[found.value := r] == s.repositories;
    }
  }

  /** A confirmed removal goes through exactly when the verified removal is of
      the confirmed child; then that child alone is gone, and otherwise nothing is. */
  lemma RemovalGoesThroughExactly(s: StateView, confirmation: RemovalConfirmation, removal: VerifiedRemoval)
    requires Saveable(s)
    ensures var (after, result) := CommitRemoved(s, confirmation, removal);
      && (result.Ok? <==>
          (removal.removedPath == confirmation.path && removal.branchRef == confirmation.branchRef
           && exists c <- s.checkouts :: c.key == confirmation.checkout && c.repositoryKey == confirmation.repository))
      && after == s.(checkouts := after.checkouts)
      && (result.Err? ==> after == s)
      && (result.Ok? ==> |after.checkouts| == |s.checkouts| - 1)
      && (result.Ok? ==> forall c :: c in after.checkouts <==> c in s.checkouts && c.key != confirmation.checkout)
  {
    hide Saveable, WellFormed, FirstViolation, Without;
    SaveableIsWellFormed(s);
    var found := FindCheckout(s.checkouts, confirmation.checkout);
    if found.Some? {
      var i := found.value;
      KeysDiffer(s, i);
      RemovalKeepsSaveable(s, i);
      WithoutKeepsTheRest(s, i);
      KeptRows(s, i);
      assert s.checkouts[i] in s.checkouts;
      forall c <- s.checkouts | c.key == confirmation.checkout ensures c == s.checkouts[i] {
        var k :| 0 <= k < |s.checkouts| && s.checkouts[k] == c;
      }
    }
  }

  lemma KeptRows(s: StateView, i: nat)
    requires i < |s.checkouts| && forall j | 0 <= j < |s.checkouts| && j != i :: s.checkouts[j].key != s.checkouts[i].key
    ensures forall c :: c in Without(s, i).checkouts <==> c in s.checkouts && c.key != s.checkouts[i].key
  {
    hide Without;
    var kept := Without(s, i).checkouts;
    forall c | c in s.checkouts && c.key != s.checkouts[i].key ensures c in kept {
      var k :| 0 <= k < |s.checkouts| && s.checkouts[k] == c;
      assert kept[if k < i then k else k - 1] == c;
    }
    forall c | c in kept ensures c in s.checkouts && c.key != s.checkouts[i].key {
      var k :| 0 <= k < |kept| && kept[k] == c;
    }
  }

  // ----- Activation -----

  /** A discovery answers for the very repository the row belongs to. */
  predicate KnownByDiscovery(s: StateView, repository: U64, facts: RetryFacts) {
    var found := FindRepository(s.repositories, repository);
    found.Some? && facts.discovery.Ok? && facts.discovery.value.commonDir == s.repositories[found.value].commonDir
  }

  /** A pending child recorded before Git ran, and found nowhere afterwards, is undone without a trace. */
  lemma PendingThenAbsentIsUndone(s: StateView, snapshot: RepositorySnapshot, prepared: PreparedActivation, nameOf: Path -> string, facts: RetryFacts)
    requires Saveable(s) && RecordPending(s, snapshot, prepared, nameOf).1.Ok?
    requires KnownByDiscovery(s, prepared.repository, facts)
    requires Gone(facts.discovery.value.worktrees, prepared.managedPath, prepared.branch, facts.pathExists)
    ensures Retry(RecordPending(s, snapshot, prepared, nameOf).0, prepared.checkout, facts) == (s, Ok(ClearedAbsent(prepared.checkout)))
  {
    PendingShape(s, snapshot, prepared, nameOf);
    hide Saveable, FirstViolation, FindCheckout, Gone, Trusted, RecordPending, PendingRow, Retry, ProvenanceOf, Without;
    var pending := RecordPending(s, snapshot, prepared, nameOf).0;
    var i := |s.checkouts|;
    PendingSavesExactly(s, snapshot, prepared, nameOf);
    PendingRemembers(s, snapshot, prepared, nameOf);
    FindAppended(s.checkouts, pending.checkouts[i]);
    PendingIsTrusted(s, snapshot, prepared, nameOf, facts);
    RetryDecides(pending, prepared.checkout, i, facts);
    WithoutLast(s, pending);
  }

  lemma PendingIsTrusted(s: StateView, snapshot: RepositorySnapshot, prepared: PreparedActivation, nameOf: Path -> string, facts: RetryFacts)
    requires FindCheckout(s.checkouts, prepared.checkout).None? && KnownByDiscovery(s, prepared.repository, facts)
    ensures var pending := RecordPending(s, snapshot, prepared, nameOf).0;
      |pending.checkouts| == |s.checkouts| + 1 && Trusted(pending, |s.checkouts|, facts)
  {
    hide FirstViolation, FindCheckout, FindRepository;
  }

  lemma PendingShape(s: StateView, snapshot: RepositorySnapshot, prepared: PreparedActivation, nameOf: Path -> string)
    requires RecordPending(s, snapshot, prepared, nameOf).1.Ok?
    ensures FindCheckout(s.checkouts, prepared.checkout).None?
    ensures RecordPending(s, snapshot, prepared, nameOf).0 == s.(checkouts := s.checkouts + [PendingRow(prepared, snapshot, nameOf)])
  {
  }

  lemma WithoutLast(s: StateView, pending: StateView)
    requires |pending.checkouts| == |s.checkouts| + 1 && pending.checkouts[..|s.checkouts|] == s.checkouts
    requires pending == s.(checkouts := pending.checkouts)
    ensures Without(pending, |s.checkouts|) == s
  {
  }

  /** The pending child is the last row, protected, and remembers the requested
      branch and exactly the worktree that held it before Git ran, if one did. */
  lemma PendingRemembers(s: StateView, snapshot: RepositorySnapshot, prepared: PreparedActivation, nameOf: Path -> string)
    requires FindCheckout(s.checkouts, prepared.checkout).None?
    ensures var pending := RecordPending(s, snapshot, prepared, nameOf).0;
      && |pending.checkouts| == |s.checkouts| + 1 && pending.checkouts[..|s.checkouts|] == s.checkouts
      && var row := pending.checkouts[|s.checkouts|];
        && row.key == prepared.checkout && row.lifecycle.Activating? && !row.activeIntent && row.managedByBaude
        && row.observedPath == prepared.managedPath && row.session.cwd == prepared.managedPath
        && row.session.repoRoot == snapshot.mainWorktree && row.session.isWorktree
        && ProvenanceOf(row).Some?
        && var p := ProvenanceOf(row).value;
          && p.branch == prepared.branch && p.createdBranch.None?
          && (p.owner.None? <==> forall w <- snapshot.worktrees :: w.branch != Some(FullRef(prepared.branch)))
          && (p.owner.Some? ==> exists w <- snapshot.worktrees :: w.path == p.owner.value && w.branch == Some(FullRef(prepared.branch)))
  {
    hide FirstViolation;
    NoWorktreeMissed(snapshot.worktrees, "", FullRef(prepared.branch));
    assert (s.checkouts + [PendingRow(prepared, snapshot, nameOf)])[..|s.checkouts|] == s.checkouts;
  }

  lemma {:induction false} FindAppended(rows: seq<SavedCheckout>, row: SavedCheckout)
    requires FindCheckout(rows, row.key).None?
    ensures FindCheckout(rows + [row], row.key) == Some(|rows|)
  {
    if rows != [] {
      assert (rows + [row])[1..] == rows[1..] + [row];
      FindAppended(rows[1..], row);
    }
  }
}
