/** `plan_reopen`: the shared reopen transition after a fresh reconcile
    (baude-core/src/lifecycle.rs). */
module Reopen {
  import opened Prelude
  import opened Repository
  import opened Reconciliation
  import opened LifecycleTransitions

  datatype ReopenRuntime = Absent | Live(id: U64) | Exited(id: U64)

  datatype Dispatch = Focus(id: U64) | Restart(id: U64) | Spawn

  datatype SpawnMode = ResumeId(conversation: string) | ContinueLatest

  datatype ReopenRequest = ReopenRequest(checkout: U64, reconciliation: Result<(), Refusal>, runtime: ReopenRuntime)

  datatype ReopenPlan = ReopenPlan(repository: U64, checkout: U64, dispatch: Dispatch, mode: SpawnMode)

  /** The stored conversation is resumed only while the backend still has it. */
  function ResumeMode(stored: Option<string>, targetExists: string -> bool): (Option<string>, SpawnMode) {
    if stored.Some? && targetExists(stored.value) then (stored, ResumeId(stored.value)) else (None, ContinueLatest)
  }

  /** `next` is committed only if the save would accept it. */
  function CommitIfSaveable(s: StateView, next: StateView): StateView {
    if FirstSaveViolation(next).None? then next else s
  }

  function PutWithHealth(s: StateView, i: nat, row: SavedCheckout, health: Health): StateView
    requires i < |s.checkouts|
  {
    var repository := FindRepository(s.repositories, s.checkouts[i].repositoryKey);
    var next := Put(s, i, row);
    if repository.None? then next
    else next.(repositories := s.repositories[repository.value := s.repositories[repository.value].(health := health)])
  }

  /** The reconcile verified this row, as far as its branch binding asks. */
  predicate Verified(row: SavedCheckout, reconciliation: Result<(), Refusal>) {
    reconciliation.Ok? || AdoptedBranch(row, reconciliation.error).Some?
  }

  function ReopenedRow(row: SavedCheckout, request: ReopenRequest, resumeId: Option<string>): SavedCheckout {
    var seen := if request.reconciliation.Ok? then row
                else
                  var adopted := AdoptedBranch(row, request.reconciliation.error);
                  if adopted.Some? then ReobserveBranch(row, adopted.value) else row;
    var resumed := seen.(session := seen.session.(resumeId := resumeId));
    if !request.runtime.Live? then resumed.SetLifecycle(CheckoutLifecycle.Active).(ownedRuntime := None)
    else if resumed.ownedRuntime.Some? then resumed.SetLifecycle(Running(resumed.ownedRuntime.value.generation))
    else resumed.SetLifecycle(CheckoutLifecycle.Active)
  }

  function RefusedRow(row: SavedCheckout, runtime: ReopenRuntime, cause: UnavailableCause): SavedCheckout {
    var blocked := row.SetLifecycle(Protected(cause));
    if runtime.Live? then blocked else blocked.(ownedRuntime := None)
  }

  function DispatchFor(runtime: ReopenRuntime): Dispatch {
    match runtime
    case Live(id) => Focus(id)
    case Exited(id) => Restart(id)
    case Absent => Spawn
  }

  /** `targetExists` is the backend's answer about a stored conversation in the row's path. */
  function PlanReopen(s: StateView, request: ReopenRequest, targetExists: string -> bool):
    (StateView, Result<ReopenPlan, UnavailableCause>)
  {
    var found := FindCheckout(s.checkouts, request.checkout);
    if found.None? then (s, Err(Missing))
    else
      var i, row := found.value, s.checkouts[found.value];
      var verified := Verified(row, request.reconciliation);
      var lifted := verified && LiftsOnReconcile(row);
      if !verified && RelabelsProtection(row, CauseOf(request.reconciliation.error)) then
        var cause := CauseOf(request.reconciliation.error);
        (CommitIfSaveable(s, PutWithHealth(s, i, row.SetLifecycle(Protected(cause)), Unavailable(cause))), Err(cause))
      else if row.lifecycle.Protected? && !lifted then (s, Err(row.lifecycle.cause))
      else if row.lifecycle.RemovalCommitted? then (s, Err(RemovalTombstone("removal committed")))
      else if !verified then
        var cause := CauseOf(request.reconciliation.error);
        (CommitIfSaveable(s, PutWithHealth(s, i, RefusedRow(row, request.runtime, cause), Unavailable(cause))), Err(cause))
      else Complete(s, i, request, targetExists)
  }

  /** The transition of a verified, unprotected row. */
  function Complete(s: StateView, i: nat, request: ReopenRequest, targetExists: string -> bool):
    (StateView, Result<ReopenPlan, UnavailableCause>)
    requires i < |s.checkouts|
  {
    var row := s.checkouts[i];
    var resume := ResumeMode(row.session.resumeId, id => request.runtime.Live? || targetExists(id));
    var next := PutWithHealth(s, i, ReopenedRow(row, request, resume.0), Available);
    if FirstSaveViolation(next).Some? then (s, Err(Other("reopen would not persist")))
    else (next, Ok(ReopenPlan(row.repositoryKey, request.checkout, DispatchFor(request.runtime), resume.1)))
  }

  /** Replace the aggregate by `next` if the save would accept it; otherwise leave it. */
  method CommitCandidate(state: RepositoryState, next: StateView) returns (committed: bool)
    modifies state
    ensures committed == FirstSaveViolation(next).None?
    ensures state.View() == if committed then next else old(state.View())
  {
    var before := state.View();
    state.Replace(next);
    var refusal := state.ValidateForSave();
    committed := refusal.None?;
    if !committed { state.Replace(before); }
  }

  /** Record a block on a clone, and commit it only if the save would accept it. */
  method Block(state: RepositoryState, i: nat, row: SavedCheckout, cause: UnavailableCause)
    requires i < |state.checkouts|
    modifies state
    ensures state.View() == CommitIfSaveable(old(state.View()), PutWithHealth(old(state.View()), i, row, Unavailable(cause)))
  {
    var repository := state.RepositoryPosition(state.checkouts[i].repositoryKey);
    var next := Put(state.View(), i, row);
    if repository.Some? {
      next := next.(repositories := next.repositories[repository.value := next.repositories[repository.value].(health := Unavailable(cause))]);
    }
    var _ := CommitCandidate(state, next);
  }

  /** The success path: build the reopened row on a clone and commit it. */
  method CompleteReopen(state: RepositoryState, i: nat, adopted: Option<Option<string>>, request: ReopenRequest, targetExists: string -> bool)
    returns (result: Result<ReopenPlan, UnavailableCause>)
    requires i < |state.checkouts|
    requires adopted == if request.reconciliation.Ok? then None else AdoptedBranch(state.checkouts[i], request.reconciliation.error)
    modifies state
    ensures (state.View(), result) == Complete(old(state.View()), i, request, targetExists)
  {
    hide FirstSaveViolation, FindRepository;
    var row := state.checkouts[i];
    var repository := state.RepositoryPosition(row.repositoryKey);
    if adopted.Some? { row := ReobserveBranch(row, adopted.value); }
    var resume := ResumeMode(row.session.resumeId, id => request.runtime.Live? || targetExists(id));
    row := row.(session := row.session.(resumeId := resume.0));
    if request.runtime.Live? {
      var lifecycle := if row.ownedRuntime.Some? then Running(row.ownedRuntime.value.generation) else CheckoutLifecycle.Active;
      row := row.SetLifecycle(lifecycle);
    } else {
      row := row.SetLifecycle(CheckoutLifecycle.Active);
      row := row.(ownedRuntime := None);
    }
    var next := Put(state.View(), i, row);
    if repository.Some? {
      next := next.(repositories := next.repositories[repository.value := next.repositories[repository.value].(health := Available)]);
    }
    var committed := CommitCandidate(state, next);
    if !committed { return Err(Other("reopen would not persist")); }
    result := Ok(ReopenPlan(row.repositoryKey, request.checkout, DispatchFor(request.runtime), resume.1));
  }

  method PlanReopenOn(state: RepositoryState, request: ReopenRequest, targetExists: string -> bool)
    returns (result: Result<ReopenPlan, UnavailableCause>)
    modifies state
    ensures (state.View(), result) == PlanReopen(old(state.View()), request, targetExists)
  {
    hide FirstSaveViolation, FindCheckout, PutWithHealth, Complete;
    var found := state.Position(request.checkout);
    if found.None? { return Err(Missing); }
    var i := found.value;
    var reconciliation, adopted := request.reconciliation, None;
    if reconciliation.Err? {
      adopted := AdoptedBranch(state.checkouts[i], reconciliation.error);
      if adopted.Some? { reconciliation := Ok(()); }
    }
    var lifted := reconciliation.Ok? && LiftsOnReconcile(state.checkouts[i]);
    if reconciliation.Err? {
      var cause := CauseOf(reconciliation.error);
      if RelabelsProtection(state.checkouts[i], cause) {
        Block(state, i, state.checkouts[i].SetLifecycle(Protected(cause)), cause);
        return Err(cause);
      }
    }
    if !lifted {
      match state.checkouts[i].lifecycle {
        case Protected(cause) => return Err(cause);
        case RemovalCommitted => return Err(RemovalTombstone("removal committed"));
        case _ =>
      }
    }
    if reconciliation.Err? {
      var cause := CauseOf(reconciliation.error);
      var row := state.checkouts[i].SetLifecycle(Protected(cause));
      if !request.runtime.Live? { row := row.(ownedRuntime := None); }
      Block(state, i, row, cause);
      return Err(cause);
    }
    result := CompleteReopen(state, i, adopted, request, targetExists);
  }

  // ----- Laws -----

  lemma PutWithHealthSaves(s: StateView, i: nat, row: SavedCheckout, health: Health)
    requires Saveable(s) && i < |s.checkouts| && SameIdentity(s.checkouts[i], row)
    ensures FirstSaveViolation(PutWithHealth(s, i, row, health)).None? <==> row.Saveable()
  {
    hide WellFormed, FirstSaveViolation;
    var next := PutWithHealth(s, i, row, health);
    ShapeDecidesWellFormed(s, next);
    SaveAcceptsExactlySaveable(next);
    assert next.checkouts[i] == row;
    assert forall k | 0 <= k < |next.checkouts| && k != i :: next.checkouts[k] == s.checkouts[k];
  }

  /** When a reopen goes through: the row exists, the reconcile verified it,
      and no protection other than a drift protection, nor a committed removal,
      holds it. */
  predicate MayReopen(s: StateView, request: ReopenRequest) {
    var found := FindCheckout(s.checkouts, request.checkout);
    && found.Some?
    && var row := s.checkouts[found.value];
       && Verified(row, request.reconciliation)
       && !row.lifecycle.RemovalCommitted?
       && (row.lifecycle.Protected? ==> LiftsOnReconcile(row))
  }

  lemma ReopenedRowIsSaveable(row: SavedCheckout, request: ReopenRequest, resumeId: Option<string>)
    ensures ReopenedRow(row, request, resumeId).Saveable() && SameIdentity(row, ReopenedRow(row, request, resumeId))
    ensures var next := ReopenedRow(row, request, resumeId);
      && next.activeIntent && next.health.Available? && next.session.resumeId == resumeId
      && next.ownedRuntime == (if request.runtime.Live? then row.ownedRuntime else None)
      && (next.lifecycle.HoldsRuntime() <==> next.ownedRuntime.Some?)
  {
  }

  lemma RefusedRowSaves(row: SavedCheckout, runtime: ReopenRuntime, cause: UnavailableCause)
    requires !cause.KeepsIntent()
    ensures SameIdentity(row, RefusedRow(row, runtime, cause)) && !RefusedRow(row, runtime, cause).activeIntent
    ensures RefusedRow(row, runtime, cause).Saveable() <==> (runtime.Live? ==> row.ownedRuntime.None?)
  {
  }

  /** On a saveable state `plan_reopen` is total: it succeeds exactly when the
      row may reopen, so it never takes the "would not persist" refusal, and
      every outcome leaves a saveable state. */
  lemma ReopenIsTotal(s: StateView, request: ReopenRequest, targetExists: string -> bool)
    requires Saveable(s)
    ensures PlanReopen(s, request, targetExists).1.Ok? <==> MayReopen(s, request)
    ensures Saveable(PlanReopen(s, request, targetExists).0)
  {
    hide Saveable, FirstSaveViolation, PutWithHealth, ReopenedRow, RefusedRow;
    var found := FindCheckout(s.checkouts, request.checkout);
    SaveAcceptsExactlySaveable(PlanReopen(s, request, targetExists).0);
    if found.Some? {
      var i, row := found.value, s.checkouts[found.value];
      var resume := ResumeMode(row.session.resumeId, id => request.runtime.Live? || targetExists(id));
      ReopenedRowIsSaveable(row, request, resume.0);
      PutWithHealthSaves(s, i, ReopenedRow(row, request, resume.0), Available);
    }
  }

  /** Lifecycle, views and runtime record alone may differ, and intent is not turned on. */
  predicate RowOnlyBlocked(row: SavedCheckout, row': SavedCheckout) {
    && row' == row.(lifecycle := row'.lifecycle, activeIntent := row'.activeIntent,
                    health := row'.health, ownedRuntime := row'.ownedRuntime)
    && (row'.activeIntent ==> row.activeIntent)
  }

  /** Only row `i` and its repository's health may differ, and of the row only
      lifecycle, views and runtime record. */
  predicate OnlyBlocks(s: StateView, s': StateView, i: nat)
    requires i < |s.checkouts|
  {
    && |s'.checkouts| == |s.checkouts|
    && s'.checkouts == s.checkouts[i := s'.checkouts[i]]
    && RowOnlyBlocked(s.checkouts[i], s'.checkouts[i])
    && var r := FindRepository(s.repositories, s.checkouts[i].repositoryKey);
       && (s'.repositories == s.repositories
           || (r.Some? && |s'.repositories| == |s.repositories|
               && s'.repositories == s.repositories[r.value := s.repositories[r.value].(health := s'.repositories[r.value].health)]))
       && s' == s.(checkouts := s'.checkouts, repositories := s'.repositories)
  }

  lemma NothingBlocked(s: StateView, i: nat)
    requires i < |s.checkouts|
    ensures OnlyBlocks(s, s, i)
  {
  }

  lemma RefusedRowBlocks(row: SavedCheckout, runtime: ReopenRuntime, cause: UnavailableCause)
    requires !cause.KeepsIntent()
    ensures RowOnlyBlocked(row, RefusedRow(row, runtime, cause))
  {
  }

  lemma BlockingOnlyBlocks(s: StateView, i: nat, row: SavedCheckout, health: Health)
    requires i < |s.checkouts| && RowOnlyBlocked(s.checkouts[i], row)
    ensures OnlyBlocks(s, PutWithHealth(s, i, row, health), i)
  {
    hide RowOnlyBlocked, FindRepository;
  }

  /** A refusal blocks at most the requested row and its repository's health,
      and never turns active intent on; beside a live child that has a runtime
      record it touches nothing. */
  lemma RefusalOnlyBlocks(s: StateView, request: ReopenRequest, targetExists: string -> bool)
    requires PlanReopen(s, request, targetExists).1.Err?
    ensures var found := FindCheckout(s.checkouts, request.checkout);
      && (found.None? ==> PlanReopen(s, request, targetExists).0 == s)
      && (found.Some? ==> OnlyBlocks(s, PlanReopen(s, request, targetExists).0, found.value))
  {
    hide FirstSaveViolation, OnlyBlocks, PutWithHealth, RefusedRow, ReopenedRow;
    var found := FindCheckout(s.checkouts, request.checkout);
    if found.Some? {
      var i, row := found.value, s.checkouts[found.value];
      NothingBlocked(s, i);
      if !Verified(row, request.reconciliation) {
        var cause := CauseOf(request.reconciliation.error);
        BlockingOnlyBlocks(s, i, row.SetLifecycle(Protected(cause)), Unavailable(cause));
        RefusedRowBlocks(row, request.runtime, cause);
        BlockingOnlyBlocks(s, i, RefusedRow(row, request.runtime, cause), Unavailable(cause));
      }
    }
  }

  lemma LiveChildIsLeftAlone(s: StateView, request: ReopenRequest, targetExists: string -> bool)
    requires Saveable(s) && request.runtime.Live?
    requires var found := FindCheckout(s.checkouts, request.checkout);
      found.Some? && s.checkouts[found.value].ownedRuntime.Some?
    requires PlanReopen(s, request, targetExists).1.Err?
    ensures PlanReopen(s, request, targetExists).0 == s
  {
    hide Saveable, FirstSaveViolation, RefusedRow, ReopenedRow, PutWithHealth, FindCheckout, SavedCheckout.SetLifecycle, ResumeMode;
    var i := FindCheckout(s.checkouts, request.checkout).value;
    var row := s.checkouts[i];
    RowsAreSaveable(s, i);
    if !Verified(row, request.reconciliation) {
      var cause := CauseOf(request.reconciliation.error);
      RefusedRowSaves(row, request.runtime, cause);
      PutWithHealthSaves(s, i, RefusedRow(row, request.runtime, cause), Unavailable(cause));
    }
  }

  /** A refused reconcile on a row nothing else protects is recorded under the
      cause the refusal proves, unless a live child owns the row's record. */
  lemma RefusalIsRecorded(s: StateView, request: ReopenRequest, targetExists: string -> bool)
    requires Saveable(s) && FindCheckout(s.checkouts, request.checkout).Some?
    requires var row := s.checkouts[FindCheckout(s.checkouts, request.checkout).value];
      && !Verified(row, request.reconciliation)
      && !row.lifecycle.Protected? && !row.lifecycle.RemovalCommitted?
      && (request.runtime.Live? ==> row.ownedRuntime.None?)
    ensures var r := PlanReopen(s, request, targetExists);
      var i := FindCheckout(s.checkouts, request.checkout).value;
      && r.1 == Err(CauseOf(request.reconciliation.error))
      && |r.0.checkouts| == |s.checkouts|
      && r.0.checkouts[i].lifecycle == Protected(CauseOf(request.reconciliation.error))
      && r.0.checkouts[i].ownedRuntime.None?
  {
    hide Saveable, FirstSaveViolation, PutWithHealth;
    var i := FindCheckout(s.checkouts, request.checkout).value;
    var row := s.checkouts[i];
    var cause := CauseOf(request.reconciliation.error);
    RefusedRowSaves(row, request.runtime, cause);
    PutWithHealthSaves(s, i, RefusedRow(row, request.runtime, cause), Unavailable(cause));
    PutWithHealthRow(s, i, RefusedRow(row, request.runtime, cause), Unavailable(cause));
  }

  lemma PutWithHealthRow(s: StateView, i: nat, row: SavedCheckout, health: Health)
    requires i < |s.checkouts|
    ensures PutWithHealth(s, i, row, health).checkouts == s.checkouts[i := row]
  {
  }

  /** A successful reopen authorizes a runtime only over a row whose active
      intent is durable, under the recorded generation when a live child has one. */
  lemma ReopenAuthorizesDurableIntent(s: StateView, request: ReopenRequest, targetExists: string -> bool)
    requires Saveable(s) && MayReopen(s, request)
    ensures var r := PlanReopen(s, request, targetExists);
      var i := FindCheckout(s.checkouts, request.checkout).value;
      && r.1.Ok? && |r.0.checkouts| == |s.checkouts|
      && r.0.checkouts[i].activeIntent && r.0.checkouts[i].health.Available?
      && SameIdentity(s.checkouts[i], r.0.checkouts[i])
      && r.0.checkouts == s.checkouts[i := r.0.checkouts[i]]
      && r.0.checkouts[i].ownedRuntime == (if request.runtime.Live? then s.checkouts[i].ownedRuntime else None)
      && (r.0.checkouts[i].lifecycle.HoldsRuntime() <==> r.0.checkouts[i].ownedRuntime.Some?)
      && (r.1.value.mode.ResumeId? ==> r.0.checkouts[i].session.resumeId == Some(r.1.value.mode.conversation))
      && (r.1.value.mode.ContinueLatest? ==> r.0.checkouts[i].session.resumeId.None?)
  {
    ReopenIsTotal(s, request, targetExists);
    hide Saveable, FirstSaveViolation, PutWithHealth, ReopenedRow, Verified, MayReopen;
    var i := FindCheckout(s.checkouts, request.checkout).value;
    var row := s.checkouts[i];
    var resume := ResumeMode(row.session.resumeId, id => request.runtime.Live? || targetExists(id));
    ReopenedRowIsSaveable(row, request, resume.0);
    PutWithHealthRow(s, i, ReopenedRow(row, request, resume.0), Available);
  }
}
