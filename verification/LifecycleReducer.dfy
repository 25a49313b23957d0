/** The lifecycle reducer, the durable candidate it selects, and the engine
    that persists a candidate before it attempts the effect it authorizes
    (baude-core/src/lifecycle.rs). */
module LifecycleReducer {
  import opened Prelude
  import opened Repository

  datatype Event =
    | RequestActivation
    | ActivationVerified
    | LaunchRegistered(runtime: OwnedRuntime)
    | LaunchReleased
    | RequestClose
    | RuntimeExtinct
    | RestoreRemovalAuthority

  datatype TraceEntry =
    | PersistActivation
    | PersistActive
    | PersistRuntime
    | ReleaseRuntime
    | PersistStop
    | PersistInactive

  datatype Transition = Transition(state: CheckoutLifecycle, effects: seq<TraceEntry>)

  function Reduce(state: CheckoutLifecycle, event: Event): Transition {
    match (state, event)
    case (Inactive, RequestActivation) => Transition(Activating, [PersistActivation])
    case (Activating, ActivationVerified) => Transition(Active, [PersistActive])
    case (Active, LaunchRegistered(runtime)) => Transition(Launching(runtime.generation), [PersistRuntime])
    case (Launching(generation), LaunchReleased) => Transition(Running(generation), [ReleaseRuntime])
    case (Running(generation), RequestClose) => Transition(Stopping(generation), [PersistStop])
    case (Stopping(_), RuntimeExtinct) => Transition(Inactive, [PersistInactive])
    case (Protected(TeardownPending(_)), RuntimeExtinct) => Transition(Inactive, [PersistInactive])
    case (Protected(StoppedActiveRecovery(_, _, _)), RuntimeExtinct) => Transition(Inactive, [PersistInactive])
    case (Protected(RemovalTombstone(_)), RestoreRemovalAuthority) => Transition(Active, [PersistActive])
    case _ => Transition(state, [])
  }

  datatype RuntimeCandidate = Keep | Set(runtime: OwnedRuntime) | Clear

  datatype Candidate = Candidate(checkout: U64, lifecycle: CheckoutLifecycle, runtime: RuntimeCandidate) {
    function ApplyToRow(row: SavedCheckout): SavedCheckout {
      var moved := row.SetLifecycle(lifecycle);
      match runtime
      case Keep => moved
      case Set(r) => moved.(ownedRuntime := Some(r))
      case Clear => moved.(ownedRuntime := None)
    }

    function ApplyTo(s: StateView): Result<StateView, ValidationError> {
      var found := FindCheckout(s.checkouts, checkout);
      if found.None? then Err(MissingCheckout(checkout))
      else Ok(s.(checkouts := s.checkouts[found.value := ApplyToRow(s.checkouts[found.value])]))
    }
  }

  function CandidateFor(row: SavedCheckout, event: Event): Candidate {
    Candidate(row.key, Reduce(row.lifecycle, event).state,
              match event
              case LaunchRegistered(runtime) => Set(runtime)
              case RuntimeExtinct => Clear
              case _ => Keep)
  }

  method ApplyCandidate(state: RepositoryState, candidate: Candidate) returns (refusal: Option<ValidationError>)
    modifies state
    ensures match candidate.ApplyTo(old(state.View()))
      case Ok(next) => refusal.None? && state.View() == next
      case Err(e) => refusal == Some(e) && state.View() == old(state.View())
  {
    var found := state.Position(candidate.checkout);
    if found.None? { return Some(MissingCheckout(candidate.checkout)); }
    var row := state.checkouts[found.value].SetLifecycle(candidate.lifecycle);
    match candidate.runtime {
      case Keep =>
      case Set(runtime) => row := row.(ownedRuntime := Some(runtime));
      case Clear => row := row.(ownedRuntime := None);
    }
    state.checkouts := state.checkouts[found.value := row];
    refusal := None;
  }

  /** A transition the reducer selects for a saveable row leaves it saveable,
      so the row's generation and its runtime record never part. */
  lemma CandidateKeepsRowSaveable(row: SavedCheckout, event: Event)
    requires row.Saveable() && Reduce(row.lifecycle, event).effects != []
    ensures CandidateFor(row, event).ApplyToRow(row).Saveable()
    ensures SameIdentity(row, CandidateFor(row, event).ApplyToRow(row))
  {
  }

  // ----- The engine -----

  /** One call the engine makes to its adapter, with the adapter's answer. */
  datatype Call = Persist(candidate: Candidate, accepted: bool) | Effect(entry: TraceEntry, applied: bool)

  datatype Step = Step(event: Event, persistOk: bool, effectOk: bool)

  datatype EngineView = EngineView(row: SavedCheckout, trace: seq<TraceEntry>, calls: seq<Call>)

  function Drive(m: EngineView, step: Step): EngineView {
    var transition := Reduce(m.row.lifecycle, step.event);
    var candidate := CandidateFor(m.row, step.event);
    if transition.effects == [] then m
    else if !step.persistOk then m.(calls := m.calls + [Persist(candidate, false)])
    else EngineView(m.row.SetLifecycle(transition.state), m.trace + transition.effects,
                    m.calls + [Persist(candidate, true), Effect(transition.effects[0], step.effectOk)])
  }

  function Run(m: EngineView, steps: seq<Step>): EngineView {
    if steps == [] then m else Drive(Run(m, steps[..|steps| - 1]), steps[|steps| - 1])
  }

  class LifecycleEngine {
    var trace: seq<TraceEntry>
    /** Every adapter call so far, with its answer. */
    var calls: seq<Call>

    constructor ()
      ensures trace == [] && calls == []
    {
      trace, calls := [], [];
    }

    /** Drive one event on `checkout`; the adapter's answers arrive as `step`. */
    method DriveEvent(checkout: SavedCheckout, step: Step) returns (row: SavedCheckout, failed: bool)
      modifies this
      ensures EngineView(row, trace, calls) == Drive(EngineView(checkout, old(trace), old(calls)), step)
      ensures failed <==> Reduce(checkout.lifecycle, step.event).effects != [] && !(step.persistOk && step.effectOk)
    {
      row := checkout;
      var transition := Reduce(checkout.lifecycle, step.event);
      if transition.effects == [] { return row, false; }
      var candidate := CandidateFor(checkout, step.event);
      calls := calls + [Persist(candidate, step.persistOk)];
      if !step.persistOk { return row, true; }
      row := row.SetLifecycle(transition.state);
      trace := trace + transition.effects;
      failed := false;
      for i := 0 to |transition.effects|
        invariant !failed && (i > 0 ==> step.effectOk)
        invariant row == checkout.SetLifecycle(transition.state) && trace == old(trace) + transition.effects
        invariant calls == old(calls) + [Persist(candidate, true)] + EffectCalls(transition.effects[..i])
      {
        assert i == 0 && EffectCalls(transition.effects[..0]) == [] && EffectCalls(transition.effects[..1]) == [Effect(transition.effects[0], true)];
        calls := calls + [Effect(transition.effects[i], step.effectOk)];
        assert calls == old(calls) + [Persist(candidate, true), Effect(transition.effects[0], step.effectOk)];
        if !step.effectOk { return row, true; }
      }
    }
  }

  /** The adapter calls that applied these effects. */
  function EffectCalls(effects: seq<TraceEntry>): seq<Call> {
    seq(|effects|, i requires 0 <= i < |effects| => Effect(effects[i], true))
  }

  // ----- What a run of the engine guarantees, said over the adapter's log alone -----

  /** The candidates the adapter accepted, oldest first. */
  function Persisted(calls: seq<Call>): seq<Candidate> {
    if calls == [] then []
    else
      var earlier, last := Persisted(calls[..|calls| - 1]), calls[|calls| - 1];
      if last.Persist? && last.accepted then earlier + [last.candidate] else earlier
  }

  /** The lifecycle a restart would load. */
  function LastPersisted(initial: CheckoutLifecycle, calls: seq<Call>): CheckoutLifecycle {
    var accepted := Persisted(calls);
    if accepted == [] then initial else accepted[|accepted| - 1].lifecycle
  }

  /** The durable row: every accepted candidate applied in turn. */
  function Durable(initial: SavedCheckout, accepted: seq<Candidate>): SavedCheckout {
    if accepted == [] then initial
    else accepted[|accepted| - 1].ApplyToRow(Durable(initial, accepted[..|accepted| - 1]))
  }

  /** The one effect that may follow a persisted lifecycle. */
  function Authorizes(lifecycle: CheckoutLifecycle): Option<TraceEntry> {
    match lifecycle
    case Activating => Some(PersistActivation)
    case Active => Some(PersistActive)
    case Launching(_) => Some(PersistRuntime)
    case Running(_) => Some(ReleaseRuntime)
    case Stopping(_) => Some(PersistStop)
    case Inactive => Some(PersistInactive)
    case _ => None
  }

  /** Each effect attempt directly follows the acceptance of the candidate that
      authorizes it, and each acceptance is followed by its effect attempt. */
  predicate PersistsBeforeEffects(calls: seq<Call>) {
    && (forall i | 0 <= i < |calls| && calls[i].Effect? ::
          && i > 0 && calls[i - 1].Persist? && calls[i - 1].accepted
          && Authorizes(calls[i - 1].candidate.lifecycle) == Some(calls[i].entry))
    && (forall i | 0 <= i < |calls| && calls[i].Persist? && calls[i].accepted ::
          i + 1 < |calls| && calls[i + 1].Effect?)
  }

  predicate TraceListsPersisted(trace: seq<TraceEntry>, accepted: seq<Candidate>) {
    && |trace| == |accepted|
    && forall i | 0 <= i < |trace| :: Authorizes(accepted[i].lifecycle) == Some(trace[i])
  }

  lemma PersistedExtends(calls: seq<Call>, call: Call)
    ensures Persisted(calls + [call])
         == if call.Persist? && call.accepted then Persisted(calls) + [call.candidate] else Persisted(calls)
  {
    assert (calls + [call])[..|calls|] == calls;
  }

  /** What the engine keeps: memory holds the last durable lifecycle, the trace
      lists exactly the persisted transitions, and no effect is attempted
      before its candidate is durable. */
  ghost predicate InStep(initial: SavedCheckout, m: EngineView) {
    && m.row.lifecycle == LastPersisted(initial.lifecycle, m.calls)
    && TraceListsPersisted(m.trace, Persisted(m.calls))
    && PersistsBeforeEffects(m.calls)
    && Durable(initial, Persisted(m.calls)).lifecycle == m.row.lifecycle
    && (initial.Saveable() ==> Durable(initial, Persisted(m.calls)).Saveable())
  }

  lemma RefusalKeepsInStep(initial: SavedCheckout, m: EngineView, candidate: Candidate)
    requires InStep(initial, m)
    ensures InStep(initial, m.(calls := m.calls + [Persist(candidate, false)]))
  {
    PersistedExtends(m.calls, Persist(candidate, false));
  }

  lemma AcceptedCallsExtend(calls: seq<Call>, candidate: Candidate, entry: TraceEntry, applied: bool)
    requires PersistsBeforeEffects(calls) && Authorizes(candidate.lifecycle) == Some(entry)
    ensures PersistsBeforeEffects(calls + [Persist(candidate, true), Effect(entry, applied)])
    ensures Persisted(calls + [Persist(candidate, true), Effect(entry, applied)]) == Persisted(calls) + [candidate]
  {
    PersistedExtends(calls, Persist(candidate, true));
    PersistedExtends(calls + [Persist(candidate, true)], Effect(entry, applied));
    assert calls + [Persist(candidate, true)] + [Effect(entry, applied)]
        == calls + [Persist(candidate, true), Effect(entry, applied)];
  }

  lemma DurableExtends(initial: SavedCheckout, accepted: seq<Candidate>, candidate: Candidate)
    ensures Durable(initial, accepted + [candidate]) == candidate.ApplyToRow(Durable(initial, accepted))
  {
    assert (accepted + [candidate])[..|accepted|] == accepted;
  }

  /** A selected candidate applied to the durable row that shares its lifecycle. */
  lemma CandidateMovesDurable(row: SavedCheckout, durable: SavedCheckout, event: Event)
    requires durable.lifecycle == row.lifecycle && Reduce(row.lifecycle, event).effects != []
    ensures var transition := Reduce(row.lifecycle, event);
      && CandidateFor(row, event).lifecycle == transition.state
      && transition.effects == [transition.effects[0]]
      && Authorizes(transition.state) == Some(transition.effects[0])
    ensures CandidateFor(row, event).ApplyToRow(durable).lifecycle == Reduce(row.lifecycle, event).state
    ensures durable.Saveable() ==> CandidateFor(row, event).ApplyToRow(durable).Saveable()
  {
    if durable.Saveable() { CandidateKeepsRowSaveable(durable, event); }
  }

  lemma AcceptanceKeepsInStep(initial: SavedCheckout, m: EngineView, step: Step)
    requires InStep(initial, m)
    requires Reduce(m.row.lifecycle, step.event).effects != [] && step.persistOk
    ensures InStep(initial, Drive(m, step))
  {
    hide Reduce, Authorizes, CandidateFor, Durable, Persisted, PersistsBeforeEffects, SavedCheckout.Saveable, Candidate.ApplyToRow;
    var candidate := CandidateFor(m.row, step.event);
    var entry := Reduce(m.row.lifecycle, step.event).effects[0];
    CandidateMovesDurable(m.row, Durable(initial, Persisted(m.calls)), step.event);
    AcceptedCallsExtend(m.calls, candidate, entry, step.effectOk);
    DurableExtends(initial, Persisted(m.calls), candidate);
  }

  lemma DriveKeepsInStep(initial: SavedCheckout, m: EngineView, step: Step)
    requires InStep(initial, m)
    ensures InStep(initial, Drive(m, step))
  {
    hide InStep;
    if Reduce(m.row.lifecycle, step.event).effects != [] {
      if step.persistOk { AcceptanceKeepsInStep(initial, m, step); }
      else { RefusalKeepsInStep(initial, m, CandidateFor(m.row, step.event)); }
    }
  }

  /** For every event sequence and every script of adapter answers. */
  lemma {:induction false} EngineKeepsMemoryDurable(initial: SavedCheckout, steps: seq<Step>)
    ensures InStep(initial, Run(EngineView(initial, [], []), steps))
  {
    if steps != [] {
      EngineKeepsMemoryDurable(initial, steps[..|steps| - 1]);
      DriveKeepsInStep(initial, Run(EngineView(initial, [], []), steps[..|steps| - 1]), steps[|steps| - 1]);
    }
  }
}
