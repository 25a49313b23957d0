/** The transitions runtime owners drive on one durable row: marking active,
    close, teardown and its recovery, reopen, confirmed removal, and disowning
    a row the save refused (baude-core/src/lifecycle.rs). Each method is proved
    equal to a function of the state; the laws are about that function. */
module LifecycleTransitions {
  import opened Prelude
  import opened Repository

  datatype LifecycleError =
    | Discovery(detail: string)
    | Git(detail: string)
    | Validation(refusal: ValidationError)
    | RepositoryMissing(repository: U64)
    | LifecycleCheckoutMissing(checkout: U64)
    | OccupiedProtected(checkout: U64, cause: UnavailableCause)
    | Topology(detail: string)
    | CompensationFailed(checkout: U64, verification: string, compensation: string)

  function Put(s: StateView, i: nat, row: SavedCheckout): StateView
    requires i < |s.checkouts|
  {
    s.(checkouts := s.checkouts[i := row])
  }

  /** `validate()?` after a mutation: the state is kept either way, the error reported. */
  function Checked(next: StateView): (StateView, Result<(), LifecycleError>) {
    var refusal := FirstViolation(next);
    (next, if refusal.Some? then Err(Validation(refusal.value)) else Ok(()))
  }

  /** The error is the validation's own. */
  predicate RefusedByValidate<T>(result: Result<T, LifecycleError>) {
    result.Err? && result.error.Validation?
  }

  /** What the check after a mutation answers. */
  lemma CheckedExactly(next: StateView)
    ensures Checked(next).0 == next
    ensures if WellFormed(next) then Checked(next).1.Ok? else RefusedByValidate(Checked(next).1)
  {
    ValidateAcceptsExactlyWellFormed(next);
  }

  method CheckAfterMutation(state: RepositoryState) returns (result: Result<(), LifecycleError>)
    ensures (state.View(), result) == Checked(state.View())
  {
    var refusal := state.Validate();
    if refusal.Some? { return Err(Validation(refusal.value)); }
    result := Ok(());
  }

  // ----- Marking a verified row active -----

  function MarkActive(s: StateView, key: U64): (StateView, Option<ValidationError>) {
    var found := FindCheckout(s.checkouts, key);
    if found.None? then (s, Some(MissingCheckout(key)))
    else if s.checkouts[found.value].lifecycle.IsProtected() then (s, Some(ContradictoryLifecycle(key)))
    else (Put(s, found.value, s.checkouts[found.value].SetLifecycle(CheckoutLifecycle.Active)), None)
  }

  method MarkCheckoutActive(state: RepositoryState, key: U64) returns (refusal: Option<ValidationError>)
    modifies state
    ensures (state.View(), refusal) == MarkActive(old(state.View()), key)
  {
    var found := state.Position(key);
    if found.None? { return Some(MissingCheckout(key)); }
    if state.checkouts[found.value].lifecycle.IsProtected() { return Some(ContradictoryLifecycle(key)); }
    state.checkouts := state.checkouts[found.value := state.checkouts[found.value].SetLifecycle(CheckoutLifecycle.Active)];
    refusal := None;
  }

  // ----- Retained close -----

  function Closed(row: SavedCheckout, runtime: RetainedSession): SavedCheckout {
    row.(session := runtime).SetLifecycle(CheckoutLifecycle.Inactive).(ownedRuntime := None)
  }

  function PlanClose(s: StateView, key: U64, runtime: RetainedSession): (StateView, Result<(), LifecycleError>) {
    var found := FindCheckout(s.checkouts, key);
    if found.None? then (s, Err(LifecycleCheckoutMissing(key)))
    else
      var next := Put(s, found.value, Closed(s.checkouts[found.value], runtime));
      if FirstViolation(next).Some? then (s, Err(Validation(FirstViolation(next).value))) else (next, Ok(()))
  }

  method PlanCloseOn(state: RepositoryState, key: U64, runtime: RetainedSession) returns (result: Result<(), LifecycleError>)
    modifies state
    ensures (state.View(), result) == PlanClose(old(state.View()), key, runtime)
  {
    var before := state.View();
    var found := state.Position(key);
    if found.None? { return Err(LifecycleCheckoutMissing(key)); }
    var row := state.checkouts[found.value];
    row := row.(session := runtime);
    row := row.SetLifecycle(CheckoutLifecycle.Inactive);
    row := row.(ownedRuntime := None);
    state.checkouts := state.checkouts[found.value := row];
    var refusal := state.Validate();
    if refusal.Some? {
      state.Replace(before);
      return Err(Validation(refusal.value));
    }
    result := Ok(());
  }

  // ----- Teardown that stopped only part of a runtime -----

  function TornDown(row: SavedCheckout, report: TeardownReport): SavedCheckout {
    row.(session := row.session.(shellOpen := report.shellPid.Some?)).SetLifecycle(Protected(TeardownPending(report)))
  }

  function MarkTeardownPending(s: StateView, key: U64, report: TeardownReport): (StateView, Result<(), LifecycleError>) {
    var found := FindCheckout(s.checkouts, key);
    if found.None? then (s, Err(LifecycleCheckoutMissing(key)))
    else Checked(Put(s, found.value, TornDown(s.checkouts[found.value], report)))
  }

  method MarkTeardownPendingOn(state: RepositoryState, key: U64, report: TeardownReport) returns (result: Result<(), LifecycleError>)
    modifies state
    ensures (state.View(), result) == MarkTeardownPending(old(state.View()), key, report)
  {
    var found := state.Position(key);
    if found.None? { return Err(LifecycleCheckoutMissing(key)); }
    var row := state.checkouts[found.value];
    row := row.(session := row.session.(shellOpen := report.shellPid.Some?));
    row := row.SetLifecycle(Protected(TeardownPending(report)));
    state.checkouts := state.checkouts[found.value := row];
    result := CheckAfterMutation(state);
  }

  predicate AwaitsTeardown(row: SavedCheckout) {
    row.health.Unavailable? && row.health.cause.TeardownPending?
  }

  /** Retry a recorded teardown; `answer` is what the operating system reported. */
  function RecoverTeardown(s: StateView, key: U64, answer: Result<(), TeardownReport>): (StateView, Result<(), LifecycleError>) {
    var found := FindCheckout(s.checkouts, key);
    if found.None? then (s, Err(LifecycleCheckoutMissing(key)))
    else if !AwaitsTeardown(s.checkouts[found.value]) then (s, Err(Topology("not pending teardown")))
    else if answer.Ok? then
      Checked(Put(s, found.value, s.checkouts[found.value].SetLifecycle(CheckoutLifecycle.Inactive).(ownedRuntime := None)))
    else Checked(Put(s, found.value, s.checkouts[found.value].SetLifecycle(Protected(TeardownPending(answer.error)))))
  }

  method ReconcileTeardownRecovery(state: RepositoryState, key: U64, answer: Result<(), TeardownReport>)
    returns (result: Result<(), LifecycleError>)
    modifies state
    ensures (state.View(), result) == RecoverTeardown(old(state.View()), key, answer)
  {
    var found := state.Position(key);
    if found.None? { return Err(LifecycleCheckoutMissing(key)); }
    var row := state.checkouts[found.value];
    match row.health {
      case Unavailable(TeardownPending(_)) =>
      case _ => return Err(Topology("not pending teardown"));
    }
    match answer {
      case Ok(_) =>
        row := row.SetLifecycle(CheckoutLifecycle.Inactive);
        row := row.(ownedRuntime := None);
      case Err(report) => row := row.SetLifecycle(Protected(TeardownPending(report)));
    }
    state.checkouts := state.checkouts[found.value := row];
    result := CheckAfterMutation(state);
  }

  // ----- Protections that do not drop the runtime record -----

  function RevokeRemovalAuthority(s: StateView, key: U64): (StateView, Result<(), LifecycleError>) {
    var found := FindCheckout(s.checkouts, key);
    if found.None? then (s, Err(LifecycleCheckoutMissing(key)))
    else Checked(Put(s, found.value, s.checkouts[found.value].(managedByBaude := false)
      .SetLifecycle(Protected(RemovalTombstone("removal authority revoked before Git mutation")))))
  }

  method RevokeRemovalAuthorityOn(state: RepositoryState, key: U64) returns (result: Result<(), LifecycleError>)
    modifies state
    ensures (state.View(), result) == RevokeRemovalAuthority(old(state.View()), key)
  {
    var found := state.Position(key);
    if found.None? { return Err(LifecycleCheckoutMissing(key)); }
    var row := state.checkouts[found.value].(managedByBaude := false);
    row := row.SetLifecycle(Protected(RemovalTombstone("removal authority revoked before Git mutation")));
    state.checkouts := state.checkouts[found.value := row];
    result := CheckAfterMutation(state);
  }

  function MarkStoppedActive(s: StateView, key: U64, agent: bool, shell: bool, detail: string): (StateView, Result<(), LifecycleError>) {
    var found := FindCheckout(s.checkouts, key);
    if found.None? then (s, Err(LifecycleCheckoutMissing(key)))
    else Checked(Put(s, found.value, s.checkouts[found.value].SetLifecycle(Protected(StoppedActiveRecovery(agent, shell, detail)))))
  }

  method MarkStoppedActiveRecovery(state: RepositoryState, key: U64, agent: bool, shell: bool, detail: string)
    returns (result: Result<(), LifecycleError>)
    modifies state
    ensures (state.View(), result) == MarkStoppedActive(old(state.View()), key, agent, shell, detail)
  {
    var found := state.Position(key);
    if found.None? { return Err(LifecycleCheckoutMissing(key)); }
    var row := state.checkouts[found.value].SetLifecycle(Protected(StoppedActiveRecovery(agent, shell, detail)));
    state.checkouts := state.checkouts[found.value := row];
    result := CheckAfterMutation(state);
  }

  /** A removal that left something behind: the tombstone is set without a check. */
  function MarkRemovedUnavailable(s: StateView, key: U64, detail: string): StateView {
    var found := FindCheckout(s.checkouts, key);
    if found.None? then s
    else Put(s, found.value, s.checkouts[found.value].(managedByBaude := false).SetLifecycle(Protected(RemovalTombstone(detail))))
  }

  method MarkRemovedCheckoutUnavailable(state: RepositoryState, key: U64, detail: string)
    modifies state
    ensures state.View() == MarkRemovedUnavailable(old(state.View()), key, detail)
  {
    var found := state.Position(key);
    if found.Some? {
      var row := state.checkouts[found.value].(managedByBaude := false);
      row := row.SetLifecycle(Protected(RemovalTombstone(detail)));
      state.checkouts := state.checkouts[found.value := row];
    }
  }

  lemma TombstoneSavesExactlyWithoutRuntime(row: SavedCheckout, detail: string)
    ensures var next := row.(managedByBaude := false).SetLifecycle(Protected(RemovalTombstone(detail)));
      SameIdentity(row, next) && (next.Saveable() <==> row.ownedRuntime.None?)
  {
  }

  lemma StoppedActiveSavesExactlyWithoutRuntime(row: SavedCheckout, agent: bool, shell: bool, detail: string)
    ensures var next := row.SetLifecycle(Protected(StoppedActiveRecovery(agent, shell, detail)));
      SameIdentity(row, next) && (next.Saveable() <==> row.ownedRuntime.None?)
  {
  }

  /** These report no failure on any saveable state, yet what they leave can be
      saved exactly when no runtime record is attached to the row. */
  lemma ProtectionSavesExactlyWithoutRuntime(s: StateView, key: U64, agent: bool, shell: bool, detail: string)
    requires Saveable(s) && FindCheckout(s.checkouts, key).Some?
    ensures var row := s.checkouts[FindCheckout(s.checkouts, key).value];
      && RevokeRemovalAuthority(s, key).1.Ok? && MarkStoppedActive(s, key, agent, shell, detail).1.Ok?
      && (Saveable(RevokeRemovalAuthority(s, key).0) <==> row.ownedRuntime.None?)
      && (Saveable(MarkStoppedActive(s, key, agent, shell, detail).0) <==> row.ownedRuntime.None?)
      && (Saveable(MarkRemovedUnavailable(s, key, detail)) <==> row.ownedRuntime.None?)
  {
    hide Saveable, WellFormed, FirstViolation, FindCheckout, SavedCheckout.SetLifecycle, SavedCheckout.Saveable, Checked;
    var i := FindCheckout(s.checkouts, key).value;
    var row := s.checkouts[i];
    var revoked := row.(managedByBaude := false).SetLifecycle(Protected(RemovalTombstone("removal authority revoked before Git mutation")));
    var removed := row.(managedByBaude := false).SetLifecycle(Protected(RemovalTombstone(detail)));
    var stopped := row.SetLifecycle(Protected(StoppedActiveRecovery(agent, shell, detail)));
    TombstoneSavesExactlyWithoutRuntime(row, "removal authority revoked before Git mutation");
    TombstoneSavesExactlyWithoutRuntime(row, detail);
    StoppedActiveSavesExactlyWithoutRuntime(row, agent, shell, detail);
    UpdateKeepsSaveable(s, i, revoked);
    UpdateKeepsSaveable(s, i, removed);
    UpdateKeepsSaveable(s, i, stopped);
    CheckedExactly(Put(s, i, revoked));
    CheckedExactly(Put(s, i, stopped));
  }

  /** A running checkout shows the gap: revoking its removal authority succeeds and cannot be saved. */
  lemma RevokingARunningCheckoutCannotBeSaved(s: StateView, key: U64)
    requires Saveable(s) && FindCheckout(s.checkouts, key).Some?
    requires s.checkouts[FindCheckout(s.checkouts, key).value].lifecycle.Running?
    ensures RevokeRemovalAuthority(s, key).1.Ok? && !Saveable(RevokeRemovalAuthority(s, key).0)
  {
    var i := FindCheckout(s.checkouts, key).value;
    assert s.checkouts[i] in s.checkouts;
    ProtectionSavesExactlyWithoutRuntime(s, key, false, false, "");
  }

  // ----- Confirmed removal -----

  datatype RemovalConfirmation = RemovalConfirmation(repository: U64, checkout: U64, path: Path, branchRef: string)

  datatype VerifiedRemoval = VerifiedRemoval(removedPath: Path, branchRef: string)

  function CommitRemoved(s: StateView, confirmation: RemovalConfirmation, removal: VerifiedRemoval): (StateView, Result<(), LifecycleError>) {
    var found := FindCheckout(s.checkouts, confirmation.checkout);
    if found.None? then (s, Err(LifecycleCheckoutMissing(confirmation.checkout)))
    else if s.checkouts[found.value].repositoryKey != confirmation.repository
         || removal.removedPath != confirmation.path || removal.branchRef != confirmation.branchRef then
      (s, Err(Topology("verified removal no longer matches confirmed child")))
    else Checked(Without(s, found.value))
  }

  method CommitRemovedCheckout(state: RepositoryState, confirmation: RemovalConfirmation, removal: VerifiedRemoval)
    returns (result: Result<(), LifecycleError>)
    modifies state
    ensures (state.View(), result) == CommitRemoved(old(state.View()), confirmation, removal)
  {
    var found := state.Position(confirmation.checkout);
    if found.None? { return Err(LifecycleCheckoutMissing(confirmation.checkout)); }
    if state.checkouts[found.value].repositoryKey != confirmation.repository
       || removal.removedPath != confirmation.path || removal.branchRef != confirmation.branchRef {
      return Err(Topology("verified removal no longer matches confirmed child"));
    }
    state.checkouts := state.checkouts[..found.value] + state.checkouts[found.value + 1..];
    result := CheckAfterMutation(state);
  }

  function Without(s: StateView, i: nat): (s': StateView)
    requires i < |s.checkouts|
    ensures |s'.checkouts| == |s.checkouts| - 1
    ensures forall a | 0 <= a < |s'.checkouts| :: s'.checkouts[a] == s.checkouts[if a < i then a else a + 1]
    ensures forall c <- s'.checkouts :: c in s.checkouts
  {
    s.(checkouts := s.checkouts[..i] + s.checkouts[i + 1..])
  }

  lemma RemovalKeepsPlacement(s: StateView, i: nat)
    requires CheckoutsPlaced(s) && OrdersUnique(s) && i < |s.checkouts|
    ensures CheckoutsPlaced(Without(s, i)) && OrdersUnique(Without(s, i))
  {
    hide OwnedBy, CheckoutsCompatible, Without;
    var kept := Without(s, i).checkouts;
    assert Without(s, i) == s.(checkouts := kept) by { WithoutKeepsTheRest(s, i); }
    forall a, b | 0 <= a < b < |kept|
      ensures CheckoutsCompatible(kept[a], kept[b]) && kept[a].firstSeenOrder != kept[b].firstSeenOrder
    {
      var a', b' := if a < i then a else a + 1, if b < i then b else b + 1;
      assert CheckoutsCompatible(s.checkouts[a'], s.checkouts[b']);
    }
  }

  lemma WithoutKeepsTheRest(s: StateView, i: nat)
    requires i < |s.checkouts|
    ensures Without(s, i) == s.(checkouts := Without(s, i).checkouts)
  {
  }

  /** Dropping any row keeps a saveable state saveable: siblings, parent and counters are untouched. */
  lemma RemovalKeepsSaveable(s: StateView, i: nat)
    requires Saveable(s) && i < |s.checkouts|
    ensures Saveable(Without(s, i)) && Checked(Without(s, i)).1.Ok?
  {
    hide CheckoutsPlaced, OrdersUnique, SavedCheckout.Saveable, FirstViolation, Without;
    WithoutKeepsTheRest(s, i);
    RemovalKeepsPlacement(s, i);
    ValidateAcceptsExactlyWellFormed(Without(s, i));
  }

  // ----- Disowning a row the durable save refused -----

  function Disowned(row: SavedCheckout, detail: string): SavedCheckout {
    row.SetLifecycle(Protected(Other(detail))).(ownedRuntime := None)
  }

  function Disown(s: StateView, key: U64, detail: string): (StateView, bool) {
    var found := FindCheckout(s.checkouts, key);
    if found.None? then (s, false)
    else
      var next := Put(s, found.value, Disowned(s.checkouts[found.value], detail));
      if FirstSaveViolation(next).Some? then (s, false) else (next, true)
  }

  method DisownRefusedCheckout(state: RepositoryState, key: U64, detail: string) returns (disowned: bool)
    modifies state
    ensures (state.View(), disowned) == Disown(old(state.View()), key, detail)
  {
    var before := state.View();
    var found := state.Position(key);
    if found.None? { return false; }
    var row := state.checkouts[found.value].SetLifecycle(Protected(Other(detail)));
    row := row.(ownedRuntime := None);
    state.checkouts := state.checkouts[found.value := row];
    var refusal := state.ValidateForSave();
    if refusal.Some? {
      state.Replace(before);
      return false;
    }
    disowned := true;
  }

  /** Disowning repairs a state exactly when its fault is that one row's
      lifecycle: the rest is well formed and every other row passes. */
  lemma DisownRepairsExactlyOneRow(s: StateView, key: U64, detail: string)
    ensures Disown(s, key, detail).1 <==>
      (FindCheckout(s.checkouts, key).Some? && WellFormed(s)
       && forall i | 0 <= i < |s.checkouts| && i != FindCheckout(s.checkouts, key).value :: s.checkouts[i].Saveable())
    ensures Disown(s, key, detail).1 ==> Saveable(Disown(s, key, detail).0)
    ensures !Disown(s, key, detail).1 ==> Disown(s, key, detail).0 == s
  {
    hide WellFormed, SavedCheckout.Saveable, FirstSaveViolation, Disowned;
    var found := FindCheckout(s.checkouts, key);
    if found.Some? {
      DisownedRowSaves(s.checkouts[found.value], detail);
      var row := Disowned(s.checkouts[found.value], detail);
      var next := Put(s, found.value, row);
      ShapeDecidesWellFormed(s, next);
      SaveAcceptsExactlySaveable(next);
      assert next.checkouts[found.value] == row;
      assert forall i | 0 <= i < |s.checkouts| && i != found.value :: next.checkouts[i] == s.checkouts[i];
      assert Saveable(next) ==> forall i | 0 <= i < |s.checkouts| :: next.checkouts[i] in next.checkouts;
    }
  }

  lemma DisownedRowSaves(row: SavedCheckout, detail: string)
    ensures Disowned(row, detail).Saveable() && SameIdentity(row, Disowned(row, detail))
  {
  }

  lemma RowTransitionKeepsSaveable(s: StateView, i: nat, row: SavedCheckout)
    requires Saveable(s) && i < |s.checkouts| && SameIdentity(s.checkouts[i], row) && row.Saveable()
    ensures Saveable(Put(s, i, row)) && Checked(Put(s, i, row)).1.Ok?
  {
    UpdateKeepsSaveable(s, i, row);
    ValidateAcceptsExactlyWellFormed(Put(s, i, row));
  }

  lemma MarkActiveKeepsSaveable(s: StateView, key: U64, i: nat)
    requires Saveable(s) && FindCheckout(s.checkouts, key) == Some(i)
    ensures Saveable(MarkActive(s, key).0)
  {
    assert s.checkouts[i] in s.checkouts;
    if !s.checkouts[i].lifecycle.IsProtected() {
      RowTransitionKeepsSaveable(s, i, s.checkouts[i].SetLifecycle(CheckoutLifecycle.Active));
    }
  }

  lemma CloseKeepsSaveable(s: StateView, key: U64, i: nat, runtime: RetainedSession)
    requires Saveable(s) && FindCheckout(s.checkouts, key) == Some(i)
    ensures Saveable(PlanClose(s, key, runtime).0)
  {
    var row := Closed(s.checkouts[i], runtime);
    var next := Put(s, i, row);
    ValidateAcceptsExactlyWellFormed(next);
    if WellFormed(next) {
      forall c <- next.checkouts ensures c.Saveable() {
        if c != row {
          var k :| 0 <= k < |next.checkouts| && next.checkouts[k] == c;
          assert s.checkouts[k] in s.checkouts;
        }
      }
    }
  }

  lemma TeardownKeepsSaveable(s: StateView, key: U64, i: nat, report: TeardownReport, answer: Result<(), TeardownReport>)
    requires Saveable(s) && FindCheckout(s.checkouts, key) == Some(i)
    ensures var r := MarkTeardownPending(s, key, report); Saveable(r.0) && r.1.Ok?
    ensures var r := RecoverTeardown(s, key, answer); Saveable(r.0) && (r.1.Ok? <==> AwaitsTeardown(s.checkouts[i]))
  {
    RowsAreSaveable(s, i);
    hide Saveable, Checked;
    var row := s.checkouts[i];
    RowTransitionKeepsSaveable(s, i, TornDown(row, report));
    RowTransitionKeepsSaveable(s, i, row.SetLifecycle(CheckoutLifecycle.Inactive).(ownedRuntime := None));
    if AwaitsTeardown(row) && answer.Err? {
      RowTransitionKeepsSaveable(s, i, row.SetLifecycle(Protected(TeardownPending(answer.error))));
    }
  }

  lemma RowsAreSaveable(s: StateView, i: nat)
    requires Saveable(s) && i < |s.checkouts|
    ensures s.checkouts[i].Saveable()
  {
    assert s.checkouts[i] in s.checkouts;
  }
}
