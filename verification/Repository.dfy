/** The durable, workspace-scoped aggregate: repositories, their checkouts,
    standalone sessions and the four monotonic counters, with the checks the
    durable save performs (baude-core/src/repository.rs). */
module Repository {
  import opened Prelude

  /** A pathname: its bytes, one character per byte. */
  type Path = string

  type Generation = U64

  datatype ProcessIdentity = ProcessIdentity(pid: nat, startTime: U64, processGroup: int, session: int)

  datatype ShellOwnership = ShellClosed | ShellOwned(identity: ProcessIdentity)

  datatype OwnedRuntime = OwnedRuntime(generation: Generation, agent: ProcessIdentity, shell: ShellOwnership)

  /** What a close that stopped only part of the runtime reports. */
  datatype TeardownReport = TeardownReport(
    agentPid: Option<nat>, shellPid: Option<nat>,
    agentIdentity: Option<ProcessIdentity>, shellIdentity: Option<ProcessIdentity>,
    agentStopped: bool, shellStopped: bool, detail: string)

  datatype UnavailableCause =
    | Missing
    | NotRepository
    | IdentityChanged
    | PathChanged
    | BranchChanged(expected: Option<string>, observed: Option<string>)
    | Detached
    | LockedOrPrunable
    | RemovalTombstone(detail: string)
    | TeardownPending(report: TeardownReport)
    | PendingActivation(branch: string, createdBranch: Option<bool>, preexistingOwner: Option<Path>)
    | ActivationRecovery(branch: string, createdBranch: Option<bool>, preexistingOwner: Option<Path>,
                         verification: string, compensation: string)
    | StoppedActiveRecovery(agentRestarted: bool, shellRestarted: bool, detail: string)
    | Io(detail: string)
    | Other(detail: string)
  {
    /** The two causes that keep a user's active intent while they protect a row. */
    predicate KeepsIntent() {
      TeardownPending? || StoppedActiveRecovery?
    }
  }

  datatype Health = Available | Unavailable(cause: UnavailableCause)

  datatype CheckoutLifecycle =
    | Inactive
    | Active
    | Activating
    | Launching(generation: Generation)
    | Running(generation: Generation)
    | Stopping(generation: Generation)
    | RemovalCommitted
    | Protected(cause: UnavailableCause)
  {
    predicate IsProtected() {
      !Inactive? && !Active?
    }

    /** The lifecycles that claim a runtime. */
    predicate HoldsRuntime() {
      Launching? || Running? || Stopping?
    }

    predicate WantsRuntime() {
      Active? || HoldsRuntime() || (Protected? && cause.KeepsIntent())
    }
  }

  datatype StandaloneLifecycle =
    | StandaloneInactive
    | StandaloneActive
    | StandaloneLaunching(generation: Generation)
    | StandaloneRunning(generation: Generation)
    | StandaloneStopping(generation: Generation)
    | StandaloneProtectedTeardown(generation: Generation)
    | StandaloneMissing
    | StandaloneIo(detail: string)
  {
    function RuntimeGeneration(): Option<Generation> {
      if StandaloneLaunching? || StandaloneRunning? || StandaloneStopping? || StandaloneProtectedTeardown?
      then Some(generation)
      else None
    }
  }

  datatype CheckoutRole = Main | PrimaryDefault | ManagedBranch

  datatype RetainedSession = RetainedSession(
    name: string, cwd: Path, repoRoot: Path, branch: Option<string>, isWorktree: bool,
    shellOpen: bool, archived: bool, archivedByUser: bool, resumeId: Option<string>)

  datatype SavedRepository = SavedRepository(
    key: U64, commonDir: Path, mainWorktree: Path, firstSeenOrder: U64, health: Health, physicalKey: string)

  datatype SavedCheckout = SavedCheckout(
    key: U64, repositoryKey: U64, role: CheckoutRole, managedByBaude: bool,
    observedPath: Path, observedBranch: Option<string>, firstSeenOrder: U64,
    lifecycle: CheckoutLifecycle, ownedRuntime: Option<OwnedRuntime>,
    activeIntent: bool, session: RetainedSession, health: Health)
  {
    /** Move the row to `next`, keeping the two derived views in step. */
    function SetLifecycle(next: CheckoutLifecycle): (row: SavedCheckout)
      ensures row.ownedRuntime == ownedRuntime && SameIdentity(this, row)
      ensures row.lifecycle == next && row.ViewsAgree()
      ensures row.managedByBaude == managedByBaude && row.session == session
      ensures row.observedBranch == observedBranch
    {
      this.(lifecycle := next,
            activeIntent := next.WantsRuntime(),
            health := match next
              case Inactive => Available
              case Active => Available
              case Launching(_) => Available
              case Running(_) => Available
              case Stopping(_) => Available
              case Activating =>
                if health.Unavailable? && health.cause.PendingActivation? then health
                else Unavailable(Other("activation pending"))
              case RemovalCommitted => Unavailable(RemovalTombstone("removal committed"))
              case Protected(cause) => Unavailable(cause))
    }

    /** The first half of the save's per-row check: the presentation views
        agree with the lifecycle. */
    predicate ViewsAgree() {
      match lifecycle
      case Inactive => !activeIntent && health.Available?
      case Active => activeIntent && health.Available?
      case Launching(_) => activeIntent && health.Available?
      case Running(_) => activeIntent && health.Available?
      case Stopping(_) => activeIntent && health.Available?
      case Activating => !activeIntent && health.Unavailable?
      case RemovalCommitted => !activeIntent && health.Unavailable? && health.cause.RemovalTombstone?
      case Protected(cause) => activeIntent == cause.KeepsIntent() && health == Unavailable(cause)
    }

    /** The second half: a lifecycle that claims a runtime has exactly the
        recorded one, and only a pending teardown may keep a record besides. */
    predicate RuntimeAgrees() {
      if lifecycle.HoldsRuntime() then ownedRuntime.Some? && ownedRuntime.value.generation == lifecycle.generation
      else ownedRuntime.Some? ==> lifecycle.Protected? && lifecycle.cause.TeardownPending?
    }

    predicate Saveable() {
      ViewsAgree() && RuntimeAgrees()
    }
  }

  /** Two versions of one row agree on everything `WellFormed` looks at. */
  predicate SameIdentity(a: SavedCheckout, b: SavedCheckout) {
    && a.key == b.key && a.repositoryKey == b.repositoryKey && a.role == b.role
    && a.observedPath == b.observedPath && a.firstSeenOrder == b.firstSeenOrder
    && a.session.cwd == b.session.cwd && a.session.repoRoot == b.session.repoRoot
    && a.session.isWorktree == b.session.isWorktree
  }

  datatype StandaloneSession = StandaloneSession(
    key: U64, canonicalPath: Path, firstSeenOrder: U64,
    lifecycle: StandaloneLifecycle, ownedRuntime: Option<OwnedRuntime>)
  {
    predicate RuntimeAgrees() {
      match (lifecycle.RuntimeGeneration(), ownedRuntime)
      case (Some(expected), Some(runtime)) => expected == runtime.generation
      case (None, None) => true
      case _ => false
    }
  }

  /** The aggregate as a value. */
  datatype StateView = StateView(
    nextRepositoryKey: U64, nextCheckoutKey: U64, nextStandaloneKey: U64, nextFirstSeenOrder: U64,
    repositories: seq<SavedRepository>, checkouts: seq<SavedCheckout>, standalones: seq<StandaloneSession>)

  datatype ValidationError =
    | DuplicateRepositoryKey(key: U64)
    | DuplicateRepositoryIdentity(path: Path)
    | DuplicateCheckoutKey(key: U64)
    | DuplicateStandaloneKey(key: U64)
    | DuplicateStandalonePath(path: Path)
    | StandaloneCheckoutPathConflict(path: Path)
    | MissingCheckout(key: U64)
    | DuplicateCheckoutOwnership(path: Path, firstRepository: U64, secondRepository: U64)
    | RetainedCheckoutPathMismatch(key: U64)
    | RetainedRepositoryPathMismatch(key: U64)
    | RetainedWorktreeFlagMismatch(key: U64)
    | DanglingRepositoryKey(key: U64)
    | DuplicateRole(repositoryKey: U64, role: CheckoutRole)
    | RegressingRepositoryCounter
    | RegressingCheckoutCounter
    | RegressingStandaloneCounter
    | RegressingOrderCounter
    | DuplicateFirstSeenOrder(order: U64)
    | ContradictoryLifecycle(key: U64)
    | ContradictoryStandaloneLifecycle(key: U64)
    | ExhaustedRepositoryCounter
    | ExhaustedCheckoutCounter
    | ExhaustedStandaloneCounter
    | ExhaustedOrderCounter

  // ----- Which states are well formed, said once and declaratively -----

  /** No counter has reached its sentinel. */
  predicate CountersBelowLimit(s: StateView) {
    && s.nextRepositoryKey != U64_MAX && s.nextCheckoutKey != U64_MAX
    && s.nextStandaloneKey != U64_MAX && s.nextFirstSeenOrder != U64_MAX
  }

  /** Every counter is strictly above every number it has handed out. */
  ghost predicate CountersAbove(s: StateView) {
    && CountersBelowLimit(s)
    && 0 < s.nextRepositoryKey && 0 < s.nextCheckoutKey && 0 < s.nextStandaloneKey && 0 < s.nextFirstSeenOrder
    && (forall r <- s.repositories :: r.key < s.nextRepositoryKey && r.firstSeenOrder < s.nextFirstSeenOrder)
    && (forall c <- s.checkouts :: c.key < s.nextCheckoutKey && c.firstSeenOrder < s.nextFirstSeenOrder)
    && (forall t <- s.standalones :: t.key < s.nextStandaloneKey && t.firstSeenOrder < s.nextFirstSeenOrder)
  }

  ghost predicate RepositoriesDistinct(s: StateView) {
    forall i, j | 0 <= i < j < |s.repositories| ::
      s.repositories[i].key != s.repositories[j].key && s.repositories[i].commonDir != s.repositories[j].commonDir
  }

  ghost predicate OwnedBy(c: SavedCheckout, r: SavedRepository) {
    && c.repositoryKey == r.key
    && c.session.cwd == c.observedPath
    && c.session.repoRoot == r.mainWorktree
    && c.session.isWorktree == (c.observedPath != r.mainWorktree)
  }

  /** Two rows may share a list: distinct keys, one owning repository per path,
      one main and one default row per repository. */
  ghost predicate CheckoutsCompatible(a: SavedCheckout, b: SavedCheckout) {
    && a.key != b.key
    && (a.observedPath == b.observedPath ==> a.repositoryKey == b.repositoryKey)
    && (a.repositoryKey == b.repositoryKey && a.role == b.role ==> a.role.ManagedBranch?)
  }

  ghost predicate CheckoutsPlaced(s: StateView) {
    && (forall c <- s.checkouts :: exists r <- s.repositories :: OwnedBy(c, r))
    && (forall i, j | 0 <= i < j < |s.checkouts| :: CheckoutsCompatible(s.checkouts[i], s.checkouts[j]))
  }

  ghost predicate StandalonesPlaced(s: StateView) {
    && (forall i, j | 0 <= i < j < |s.standalones| ::
          s.standalones[i].key != s.standalones[j].key
          && s.standalones[i].canonicalPath != s.standalones[j].canonicalPath)
    && (forall t <- s.standalones, c <- s.checkouts :: t.canonicalPath != c.observedPath)
    && (forall t <- s.standalones, r <- s.repositories :: t.canonicalPath != r.mainWorktree)
    && (forall t <- s.standalones :: t.RuntimeAgrees())
  }

  ghost predicate RepositoryOrdersUnique(s: StateView) {
    forall i, j | 0 <= i < j < |s.repositories| :: s.repositories[i].firstSeenOrder != s.repositories[j].firstSeenOrder
  }

  ghost predicate CheckoutOrdersUnique(s: StateView) {
    && (forall i, j | 0 <= i < j < |s.checkouts| :: s.checkouts[i].firstSeenOrder != s.checkouts[j].firstSeenOrder)
    && (forall r <- s.repositories, c <- s.checkouts :: r.firstSeenOrder != c.firstSeenOrder)
  }

  ghost predicate StandaloneOrdersUnique(s: StateView) {
    && (forall i, j | 0 <= i < j < |s.standalones| :: s.standalones[i].firstSeenOrder != s.standalones[j].firstSeenOrder)
    && (forall r <- s.repositories, t <- s.standalones :: r.firstSeenOrder != t.firstSeenOrder)
    && (forall c <- s.checkouts, t <- s.standalones :: c.firstSeenOrder != t.firstSeenOrder)
  }

  /** First-seen orders are unique across all three lists. */
  ghost predicate OrdersUnique(s: StateView) {
    RepositoryOrdersUnique(s) && CheckoutOrdersUnique(s) && StandaloneOrdersUnique(s)
  }

  ghost predicate WellFormed(s: StateView) {
    && CountersAbove(s)
    && RepositoriesDistinct(s)
    && CheckoutsPlaced(s)
    && StandalonesPlaced(s)
    && OrdersUnique(s)
  }

  /** What the durable save accepts. */
  ghost predicate Saveable(s: StateView) {
    WellFormed(s) && forall c <- s.checkouts :: c.Saveable()
  }

  /** The first row with this key. */
  function FindCheckout(checkouts: seq<SavedCheckout>, key: U64): (found: Option<nat>)
    ensures found.Some? ==> found.value < |checkouts| && checkouts[found.value].key == key
    ensures found.Some? ==> forall i | 0 <= i < found.value :: checkouts[i].key != key
    ensures found.None? ==> forall c <- checkouts :: c.key != key
  {
    if checkouts == [] then None
    else if checkouts[0].key == key then Some(0)
    else
      var rest := FindCheckout(checkouts[1..], key);
      if rest.None? then None else Some(rest.value + 1)
  }

  /** Two states agree on everything `WellFormed` looks at: only lifecycles,
      views, runtimes, branches, session presentation and health may differ. */
  ghost predicate SameShape(s: StateView, s': StateView) {
    && s'.nextRepositoryKey == s.nextRepositoryKey && s'.nextCheckoutKey == s.nextCheckoutKey
    && s'.nextStandaloneKey == s.nextStandaloneKey && s'.nextFirstSeenOrder == s.nextFirstSeenOrder
    && s'.standalones == s.standalones
    && |s'.repositories| == |s.repositories|
    && (forall i | 0 <= i < |s.repositories| :: SameRepository(s.repositories[i], s'.repositories[i]))
    && |s'.checkouts| == |s.checkouts|
    && (forall i | 0 <= i < |s.checkouts| :: SameIdentity(s.checkouts[i], s'.checkouts[i]))
  }

  predicate SameRepository(a: SavedRepository, b: SavedRepository) {
    a.key == b.key && a.commonDir == b.commonDir && a.mainWorktree == b.mainWorktree && a.firstSeenOrder == b.firstSeenOrder
  }

  lemma ShapeElements(s: StateView, s': StateView)
    requires SameShape(s, s')
    ensures forall c <- s'.checkouts :: exists d <- s.checkouts :: SameIdentity(d, c)
    ensures forall r <- s'.repositories :: exists q <- s.repositories :: SameRepository(q, r)
  {
    forall c <- s'.checkouts ensures exists d <- s.checkouts :: SameIdentity(d, c) {
      var k :| 0 <= k < |s'.checkouts| && s'.checkouts[k] == c;
      assert s.checkouts[k] in s.checkouts;
    }
    forall r <- s'.repositories ensures exists q <- s.repositories :: SameRepository(q, r) {
      var k :| 0 <= k < |s'.repositories| && s'.repositories[k] == r;
      assert s.repositories[k] in s.repositories;
    }
  }

  lemma ShapeKeepsOwner(s: StateView, s': StateView, c: SavedCheckout)
    requires SameShape(s, s') && CheckoutsPlaced(s) && c in s'.checkouts
    ensures exists r <- s'.repositories :: OwnedBy(c, r)
  {
    var k :| 0 <= k < |s'.checkouts| && s'.checkouts[k] == c;
    var d := s.checkouts[k];
    assert d in s.checkouts && SameIdentity(d, c);
    var q :| q in s.repositories && OwnedBy(d, q);
    var j :| 0 <= j < |s.repositories| && s.repositories[j] == q;
    var r := s'.repositories[j];
    assert r in s'.repositories && SameRepository(q, r) && OwnedBy(c, r);
  }

  lemma ShapeKeepsPlacement(s: StateView, s': StateView)
    requires SameShape(s, s') && CheckoutsPlaced(s)
    ensures CheckoutsPlaced(s')
  {
    forall c <- s'.checkouts ensures exists r <- s'.repositories :: OwnedBy(c, r) { ShapeKeepsOwner(s, s', c); }
    forall i, j | 0 <= i < j < |s'.checkouts| ensures CheckoutsCompatible(s'.checkouts[i], s'.checkouts[j]) {
      var a, b := s.checkouts[i], s.checkouts[j];
      assert SameIdentity(a, s'.checkouts[i]) && SameIdentity(b, s'.checkouts[j]);
      assert CheckoutsCompatible(a, b);
    }
  }

  lemma ShapeKeepsOrders(s: StateView, s': StateView)
    requires SameShape(s, s') && OrdersUnique(s)
    ensures OrdersUnique(s')
  {
    ShapeElements(s, s');
    forall i, j | 0 <= i < j < |s'.repositories| ensures s'.repositories[i].firstSeenOrder != s'.repositories[j].firstSeenOrder {
      assert SameRepository(s.repositories[i], s'.repositories[i]) && SameRepository(s.repositories[j], s'.repositories[j]);
    }
    forall i, j | 0 <= i < j < |s'.checkouts| ensures s'.checkouts[i].firstSeenOrder != s'.checkouts[j].firstSeenOrder {
      assert SameIdentity(s.checkouts[i], s'.checkouts[i]) && SameIdentity(s.checkouts[j], s'.checkouts[j]);
    }
    forall r <- s'.repositories, c <- s'.checkouts ensures r.firstSeenOrder != c.firstSeenOrder {
      var q :| q in s.repositories && SameRepository(q, r);
      var d :| d in s.checkouts && SameIdentity(d, c);
    }
  }

  lemma ShapeKeepsCounters(s: StateView, s': StateView)
    requires SameShape(s, s') && CountersAbove(s) && StandalonesPlaced(s) && RepositoriesDistinct(s)
    ensures CountersAbove(s') && StandalonesPlaced(s') && RepositoriesDistinct(s')
  {
    ShapeElements(s, s');
    ShapeKeepsRepositories(s, s');
    hide RepositoriesDistinct;
  }

  lemma ShapeKeepsRepositories(s: StateView, s': StateView)
    requires SameShape(s, s') && RepositoriesDistinct(s)
    ensures RepositoriesDistinct(s')
  {
    forall i, j | 0 <= i < j < |s'.repositories|
      ensures s'.repositories[i].key != s'.repositories[j].key && s'.repositories[i].commonDir != s'.repositories[j].commonDir
    {
      assert SameRepository(s.repositories[i], s'.repositories[i]) && SameRepository(s.repositories[j], s'.repositories[j]);
    }
  }

  /** Well-formedness depends on the shape alone. */
  lemma ShapeDecidesWellFormed(s: StateView, s': StateView)
    requires SameShape(s, s')
    ensures WellFormed(s) <==> WellFormed(s')
  {
    hide CheckoutsPlaced, OrdersUnique, CountersAbove, StandalonesPlaced, RepositoriesDistinct;
    if WellFormed(s) {
      ShapeKeepsPlacement(s, s');
      ShapeKeepsOrders(s, s');
      ShapeKeepsCounters(s, s');
    }
    if WellFormed(s') {
      assert SameShape(s', s);
      ShapeKeepsPlacement(s', s);
      ShapeKeepsOrders(s', s);
      ShapeKeepsCounters(s', s);
    }
  }

  /** Another version of row `i` keeps a saveable state saveable exactly when it passes the row check. */
  lemma UpdateKeepsSaveable(s: StateView, i: nat, row: SavedCheckout)
    requires Saveable(s) && i < |s.checkouts| && SameIdentity(s.checkouts[i], row)
    ensures WellFormed(s.(checkouts := s.checkouts[i := row]))
    ensures Saveable(s.(checkouts := s.checkouts[i := row])) <==> row.Saveable()
  {
    ShapeDecidesWellFormed(s, s.(checkouts := s.checkouts[i := row]));
    assert s.checkouts[i := row][i] == row;
  }

  // ----- The checks in the order the save performs them -----

  function RepositoryViolation(s: StateView, i: nat): Option<ValidationError>
    requires i < |s.repositories|
  {
    var r, earlier := s.repositories[i], s.repositories[..i];
    if exists q <- earlier :: q.key == r.key then Some(DuplicateRepositoryKey(r.key))
    else if exists q <- earlier :: q.commonDir == r.commonDir then Some(DuplicateRepositoryIdentity(r.commonDir))
    else if exists q <- earlier :: q.firstSeenOrder == r.firstSeenOrder then Some(DuplicateFirstSeenOrder(r.firstSeenOrder))
    else None
  }

  function FindRepository(repositories: seq<SavedRepository>, key: U64): (found: Option<nat>)
    ensures found.Some? ==> found.value < |repositories| && repositories[found.value].key == key
    ensures found.Some? ==> forall i | 0 <= i < found.value :: repositories[i].key != key
    ensures found.None? ==> forall r <- repositories :: r.key != key
  {
    if repositories == [] then None
    else if repositories[0].key == key then Some(0)
    else
      var rest := FindRepository(repositories[1..], key);
      if rest.None? then None else Some(rest.value + 1)
  }

  /** The repository that the last of `rows` on `path` belongs to. */
  function PathOwner(rows: seq<SavedCheckout>, path: Path): (owner: Option<U64>)
    ensures owner.None? ==> forall c <- rows :: c.observedPath != path
    ensures owner.Some? ==> exists c <- rows :: c.observedPath == path && c.repositoryKey == owner.value
  {
    if rows == [] then None
    else if rows[|rows| - 1].observedPath == path then Some(rows[|rows| - 1].repositoryKey)
    else PathOwner(rows[..|rows| - 1], path)
  }

  function CheckoutViolation(s: StateView, i: nat): Option<ValidationError>
    requires i < |s.checkouts|
  {
    var c, earlier := s.checkouts[i], s.checkouts[..i];
    var found := FindRepository(s.repositories, c.repositoryKey);
    var owner := PathOwner(earlier, c.observedPath);
    if exists d <- earlier :: d.key == c.key then Some(DuplicateCheckoutKey(c.key))
    else if found.None? then Some(DanglingRepositoryKey(c.repositoryKey))
    else
      var mainWorktree := s.repositories[found.value].mainWorktree;
      if c.session.cwd != c.observedPath then Some(RetainedCheckoutPathMismatch(c.key))
      else if c.session.repoRoot != mainWorktree then Some(RetainedRepositoryPathMismatch(c.key))
      else if c.session.isWorktree != (c.observedPath != mainWorktree) then Some(RetainedWorktreeFlagMismatch(c.key))
      else if owner.Some? && owner.value != c.repositoryKey then
        Some(DuplicateCheckoutOwnership(c.observedPath, owner.value, c.repositoryKey))
      else if (exists r <- s.repositories :: r.firstSeenOrder == c.firstSeenOrder)
           || (exists d <- earlier :: d.firstSeenOrder == c.firstSeenOrder) then
        Some(DuplicateFirstSeenOrder(c.firstSeenOrder))
      else if !c.role.ManagedBranch? && (exists d <- earlier :: d.repositoryKey == c.repositoryKey && d.role == c.role) then
        Some(DuplicateRole(c.repositoryKey, c.role))
      else None
  }

  function StandaloneViolation(s: StateView, i: nat): Option<ValidationError>
    requires i < |s.standalones|
  {
    var t, earlier := s.standalones[i], s.standalones[..i];
    if exists u <- earlier :: u.key == t.key then Some(DuplicateStandaloneKey(t.key))
    else if exists u <- earlier :: u.canonicalPath == t.canonicalPath then Some(DuplicateStandalonePath(t.canonicalPath))
    else if (exists c <- s.checkouts :: c.observedPath == t.canonicalPath)
         || (exists r <- s.repositories :: r.mainWorktree == t.canonicalPath) then
      Some(StandaloneCheckoutPathConflict(t.canonicalPath))
    else if (exists r <- s.repositories :: r.firstSeenOrder == t.firstSeenOrder)
         || (exists c <- s.checkouts :: c.firstSeenOrder == t.firstSeenOrder)
         || (exists u <- earlier :: u.firstSeenOrder == t.firstSeenOrder) then
      Some(DuplicateFirstSeenOrder(t.firstSeenOrder))
    else None
  }

  function CounterViolation(s: StateView): Option<ValidationError> {
    if s.nextRepositoryKey == 0 || exists r <- s.repositories :: r.key >= s.nextRepositoryKey then
      Some(RegressingRepositoryCounter)
    else if s.nextCheckoutKey == 0 || exists c <- s.checkouts :: c.key >= s.nextCheckoutKey then
      Some(RegressingCheckoutCounter)
    else if s.nextStandaloneKey == 0 || exists t <- s.standalones :: t.key >= s.nextStandaloneKey then
      Some(RegressingStandaloneCounter)
    else if s.nextFirstSeenOrder == 0
         || (exists r <- s.repositories :: r.firstSeenOrder >= s.nextFirstSeenOrder)
         || (exists c <- s.checkouts :: c.firstSeenOrder >= s.nextFirstSeenOrder)
         || (exists t <- s.standalones :: t.firstSeenOrder >= s.nextFirstSeenOrder) then
      Some(RegressingOrderCounter)
    else None
  }

  /** The first complaint in a list of row-by-row verdicts. */
  function FirstSome<T>(verdicts: seq<Option<T>>): (first: Option<T>)
    ensures first.Some? ==> first in verdicts
  {
    if verdicts == [] then None
    else if verdicts[0].Some? then verdicts[0]
    else FirstSome(verdicts[1..])
  }

  function RepositoryVerdicts(s: StateView): (verdicts: seq<Option<ValidationError>>)
    ensures |verdicts| == |s.repositories|
    ensures forall i | 0 <= i < |s.repositories| :: verdicts[i] == RepositoryViolation(s, i)
  {
    seq(|s.repositories|, i requires 0 <= i < |s.repositories| => RepositoryViolation(s, i))
  }

  function CheckoutVerdicts(s: StateView): (verdicts: seq<Option<ValidationError>>)
    ensures |verdicts| == |s.checkouts|
    ensures forall i | 0 <= i < |s.checkouts| :: verdicts[i] == CheckoutViolation(s, i)
  {
    seq(|s.checkouts|, i requires 0 <= i < |s.checkouts| => CheckoutViolation(s, i))
  }

  function StandaloneVerdicts(s: StateView): (verdicts: seq<Option<ValidationError>>)
    ensures |verdicts| == |s.standalones|
    ensures forall i | 0 <= i < |s.standalones| :: verdicts[i] == StandaloneViolation(s, i)
  {
    seq(|s.standalones|, i requires 0 <= i < |s.standalones| => StandaloneViolation(s, i))
  }

  function StandaloneRuntimeViolation(t: StandaloneSession): Option<ValidationError> {
    if t.RuntimeAgrees() then None else Some(ContradictoryStandaloneLifecycle(t.key))
  }

  function StandaloneRuntimeVerdicts(standalones: seq<StandaloneSession>): (verdicts: seq<Option<ValidationError>>)
    ensures |verdicts| == |standalones|
    ensures forall i | 0 <= i < |standalones| :: verdicts[i] == StandaloneRuntimeViolation(standalones[i])
  {
    seq(|standalones|, i requires 0 <= i < |standalones| => StandaloneRuntimeViolation(standalones[i]))
  }

  function LifecycleViolation(c: SavedCheckout): Option<ValidationError> {
    if c.Saveable() then None else Some(ContradictoryLifecycle(c.key))
  }

  function LifecycleVerdicts(checkouts: seq<SavedCheckout>): (verdicts: seq<Option<ValidationError>>)
    ensures |verdicts| == |checkouts|
    ensures forall i | 0 <= i < |checkouts| :: verdicts[i] == LifecycleViolation(checkouts[i])
  {
    seq(|checkouts|, i requires 0 <= i < |checkouts| => LifecycleViolation(checkouts[i]))
  }

  /** The refusal `validate` reports first, if any. */
  function FirstViolation(s: StateView): Option<ValidationError> {
    if s.nextRepositoryKey == U64_MAX then Some(ExhaustedRepositoryCounter)
    else if s.nextCheckoutKey == U64_MAX then Some(ExhaustedCheckoutCounter)
    else if s.nextStandaloneKey == U64_MAX then Some(ExhaustedStandaloneCounter)
    else if s.nextFirstSeenOrder == U64_MAX then Some(ExhaustedOrderCounter)
    else if FirstSome(RepositoryVerdicts(s)).Some? then FirstSome(RepositoryVerdicts(s))
    else if FirstSome(CheckoutVerdicts(s)).Some? then FirstSome(CheckoutVerdicts(s))
    else if FirstSome(StandaloneVerdicts(s)).Some? then FirstSome(StandaloneVerdicts(s))
    else if CounterViolation(s).Some? then CounterViolation(s)
    else FirstSome(StandaloneRuntimeVerdicts(s.standalones))
  }

  function FirstSaveViolation(s: StateView): Option<ValidationError> {
    if FirstViolation(s).Some? then FirstViolation(s) else FirstSome(LifecycleVerdicts(s.checkouts))
  }

  // ----- The ordered checks accept exactly the well-formed states -----

  lemma {:induction false} FirstSomeFindsAny<T>(verdicts: seq<Option<T>>)
    ensures FirstSome(verdicts).None? <==> forall k | 0 <= k < |verdicts| :: verdicts[k].None?
  {
    if verdicts != [] && verdicts[0].None? {
      FirstSomeFindsAny(verdicts[1..]);
      assert forall k | 1 <= k < |verdicts| :: verdicts[k] == verdicts[1..][k - 1];
    }
  }

  lemma StandaloneRuntimesClean(standalones: seq<StandaloneSession>)
    ensures FirstSome(StandaloneRuntimeVerdicts(standalones)).None? <==> forall t <- standalones :: t.RuntimeAgrees()
  {
    FirstSomeFindsAny(StandaloneRuntimeVerdicts(standalones));
  }

  lemma LifecyclesClean(checkouts: seq<SavedCheckout>)
    ensures FirstSome(LifecycleVerdicts(checkouts)).None? <==> forall c <- checkouts :: c.Saveable()
  {
    FirstSomeFindsAny(LifecycleVerdicts(checkouts));
  }

  lemma RepositoriesScanned(s: StateView)
    ensures FirstSome(RepositoryVerdicts(s)).None? <==> forall k | 0 <= k < |s.repositories| :: RepositoryViolation(s, k).None?
  {
    FirstSomeFindsAny(RepositoryVerdicts(s));
  }

  lemma CheckoutsScanned(s: StateView)
    ensures FirstSome(CheckoutVerdicts(s)).None? <==> forall k | 0 <= k < |s.checkouts| :: CheckoutViolation(s, k).None?
  {
    FirstSomeFindsAny(CheckoutVerdicts(s));
  }

  lemma StandalonesScanned(s: StateView)
    ensures FirstSome(StandaloneVerdicts(s)).None? <==> forall k | 0 <= k < |s.standalones| :: StandaloneViolation(s, k).None?
  {
    FirstSomeFindsAny(StandaloneVerdicts(s));
  }

  lemma RepositoryClean(s: StateView, k: nat)
    requires k < |s.repositories|
    ensures RepositoryViolation(s, k).None? <==>
      forall i | 0 <= i < k :: s.repositories[i].key != s.repositories[k].key
        && s.repositories[i].commonDir != s.repositories[k].commonDir
        && s.repositories[i].firstSeenOrder != s.repositories[k].firstSeenOrder
  {
    assert forall i | 0 <= i < k :: s.repositories[i] in s.repositories[..k];
  }

  lemma RepositoriesClean(s: StateView)
    ensures FirstSome(RepositoryVerdicts(s)).None? <==> (RepositoriesDistinct(s) && RepositoryOrdersUnique(s))
  {
    RepositoriesScanned(s);
    forall k | 0 <= k < |s.repositories| { RepositoryClean(s, k); }
  }

  /** One checkout passes its checks exactly when it is placed beside the rows before it. */
  ghost predicate PlacedAt(s: StateView, k: nat)
    requires k < |s.checkouts|
  {
    var c := s.checkouts[k];
    && (exists r <- s.repositories :: OwnedBy(c, r))
    && (forall r <- s.repositories :: r.firstSeenOrder != c.firstSeenOrder)
    && (forall i | 0 <= i < k :: CheckoutsCompatible(s.checkouts[i], c) && s.checkouts[i].firstSeenOrder != c.firstSeenOrder)
  }

  /** What the scan of the earlier rows tells of one of them. */
  lemma CompatibleWithEarlier(s: StateView, i: nat, k: nat)
    requires i < k < |s.checkouts| && CheckoutViolation(s, k).None?
    requires forall a, b | 0 <= a < b < k :: CheckoutsCompatible(s.checkouts[a], s.checkouts[b])
    ensures CheckoutsCompatible(s.checkouts[i], s.checkouts[k]) && s.checkouts[i].firstSeenOrder != s.checkouts[k].firstSeenOrder
  {
    hide PathOwner, FindRepository;
    var c, d, earlier := s.checkouts[k], s.checkouts[i], s.checkouts[..k];
    assert d == earlier[i] && d in earlier;
    var owner := PathOwner(earlier, c.observedPath);
    if d.observedPath == c.observedPath {
      var e :| e in earlier && e.observedPath == c.observedPath && e.repositoryKey == owner.value;
      var j :| 0 <= j < k && s.checkouts[j] == e;
      assert i < j ==> CheckoutsCompatible(s.checkouts[i], s.checkouts[j]);
      assert j < i ==> CheckoutsCompatible(s.checkouts[j], s.checkouts[i]);
    }
  }

  lemma CleanIsOwned(s: StateView, k: nat)
    requires k < |s.checkouts| && CheckoutViolation(s, k).None?
    ensures exists r <- s.repositories :: OwnedBy(s.checkouts[k], r)
    ensures forall r <- s.repositories :: r.firstSeenOrder != s.checkouts[k].firstSeenOrder
  {
    hide PathOwner, FindRepository;
    var found := FindRepository(s.repositories, s.checkouts[k].repositoryKey);
    assert OwnedBy(s.checkouts[k], s.repositories[found.value]);
  }

  lemma PlacedIsClean(s: StateView, k: nat)
    requires RepositoriesDistinct(s) && k < |s.checkouts| && PlacedAt(s, k)
    ensures CheckoutViolation(s, k).None?
  {
    hide PathOwner, FindRepository;
    var c, earlier := s.checkouts[k], s.checkouts[..k];
    var found := FindRepository(s.repositories, c.repositoryKey);
    forall d <- earlier ensures CheckoutsCompatible(d, c) && d.firstSeenOrder != c.firstSeenOrder {
      var i :| 0 <= i < k && s.checkouts[i] == d;
    }
    var r :| r in s.repositories && OwnedBy(c, r);
    assert s.repositories[found.value] == r;
  }

  lemma CheckoutClean(s: StateView, k: nat)
    requires RepositoriesDistinct(s) && k < |s.checkouts|
    requires forall i, j | 0 <= i < j < k :: CheckoutsCompatible(s.checkouts[i], s.checkouts[j])
    ensures CheckoutViolation(s, k).None? <==> PlacedAt(s, k)
  {
    hide CheckoutViolation, CheckoutsCompatible, OwnedBy;
    if PlacedAt(s, k) { PlacedIsClean(s, k); }
    if CheckoutViolation(s, k).None? {
      CleanIsOwned(s, k);
      forall i | 0 <= i < k { CompatibleWithEarlier(s, i, k); }
    }
  }

  lemma {:induction false} CheckoutsCleanUpTo(s: StateView, n: nat)
    requires RepositoriesDistinct(s) && n <= |s.checkouts|
    ensures (forall k | 0 <= k < n :: CheckoutViolation(s, k).None?) <==> (forall k | 0 <= k < n :: PlacedAt(s, k))
    ensures (forall k | 0 <= k < n :: PlacedAt(s, k)) ==>
      forall i, j | 0 <= i < j < n :: CheckoutsCompatible(s.checkouts[i], s.checkouts[j])
  {
    hide CheckoutViolation, CheckoutsCompatible, OwnedBy;
    if n > 0 {
      CheckoutsCleanUpTo(s, n - 1);
      if forall k | 0 <= k < n - 1 :: PlacedAt(s, k) { CheckoutClean(s, n - 1); }
    }
  }

  ghost predicate StandalonePlacedAt(s: StateView, k: nat)
    requires k < |s.standalones|
  {
    var t := s.standalones[k];
    && (forall c <- s.checkouts :: t.canonicalPath != c.observedPath && c.firstSeenOrder != t.firstSeenOrder)
    && (forall r <- s.repositories :: t.canonicalPath != r.mainWorktree && r.firstSeenOrder != t.firstSeenOrder)
    && (forall i | 0 <= i < k :: s.standalones[i].key != t.key
          && s.standalones[i].canonicalPath != t.canonicalPath && s.standalones[i].firstSeenOrder != t.firstSeenOrder)
  }

  lemma StandaloneClean(s: StateView, k: nat)
    requires k < |s.standalones|
    ensures StandaloneViolation(s, k).None? <==> StandalonePlacedAt(s, k)
  {
    assert forall i | 0 <= i < k :: s.standalones[i] in s.standalones[..k];
  }

  lemma StandalonesClean(s: StateView)
    ensures (FirstSome(StandaloneVerdicts(s)).None? && FirstSome(StandaloneRuntimeVerdicts(s.standalones)).None?)
      <==> (StandalonesPlaced(s) && StandaloneOrdersUnique(s))
  {
    hide StandaloneViolation;
    StandalonesScanned(s);
    StandaloneRuntimesClean(s.standalones);
    forall k | 0 <= k < |s.standalones| { StandaloneClean(s, k); }
    if forall k | 0 <= k < |s.standalones| :: StandalonePlacedAt(s, k) {
      forall t <- s.standalones
        ensures forall c <- s.checkouts :: t.canonicalPath != c.observedPath && c.firstSeenOrder != t.firstSeenOrder
        ensures forall r <- s.repositories :: t.canonicalPath != r.mainWorktree && r.firstSeenOrder != t.firstSeenOrder
      {
        var k :| 0 <= k < |s.standalones| && s.standalones[k] == t;
        assert StandalonePlacedAt(s, k);
      }
      forall i, j | 0 <= i < j < |s.standalones|
        ensures s.standalones[i].key != s.standalones[j].key
        ensures s.standalones[i].canonicalPath != s.standalones[j].canonicalPath
        ensures s.standalones[i].firstSeenOrder != s.standalones[j].firstSeenOrder
      {
        assert StandalonePlacedAt(s, j);
      }
    }
  }

  lemma AllPlacedTogether(s: StateView)
    ensures (forall k | 0 <= k < |s.checkouts| :: PlacedAt(s, k)) <==> (CheckoutsPlaced(s) && CheckoutOrdersUnique(s))
  {
    hide CheckoutsCompatible, OwnedBy;
    if CheckoutsPlaced(s) && CheckoutOrdersUnique(s) {
      forall k | 0 <= k < |s.checkouts| ensures PlacedAt(s, k) {
        assert s.checkouts[k] in s.checkouts;
      }
    }
    if forall k | 0 <= k < |s.checkouts| :: PlacedAt(s, k) {
      forall c <- s.checkouts
        ensures exists r <- s.repositories :: OwnedBy(c, r)
        ensures forall r <- s.repositories :: r.firstSeenOrder != c.firstSeenOrder
      {
        var k :| 0 <= k < |s.checkouts| && s.checkouts[k] == c;
        assert PlacedAt(s, k);
      }
      forall i, j | 0 <= i < j < |s.checkouts|
        ensures CheckoutsCompatible(s.checkouts[i], s.checkouts[j])
        ensures s.checkouts[i].firstSeenOrder != s.checkouts[j].firstSeenOrder
      {
        assert PlacedAt(s, j);
      }
    }
  }

  lemma CheckoutsClean(s: StateView)
    requires RepositoriesDistinct(s)
    ensures FirstSome(CheckoutVerdicts(s)).None? <==> (CheckoutsPlaced(s) && CheckoutOrdersUnique(s))
  {
    hide CheckoutViolation, PlacedAt, CheckoutsPlaced, CheckoutOrdersUnique;
    CheckoutsScanned(s);
    CheckoutsCleanUpTo(s, |s.checkouts|);
    AllPlacedTogether(s);
  }

  lemma CountersClean(s: StateView)
    requires CountersBelowLimit(s)
    ensures CounterViolation(s).None? <==> CountersAbove(s)
  {
  }

  /** The ordered, early-returning checks accept exactly the well-formed states. */
  lemma ValidateAcceptsExactlyWellFormed(s: StateView)
    ensures FirstViolation(s).None? <==> WellFormed(s)
  {
    RepositoriesClean(s);
    if RepositoriesDistinct(s) { CheckoutsClean(s); }
    StandalonesClean(s);
    if CountersBelowLimit(s) { CountersClean(s); }
  }

  /** ... and the save accepts exactly the saveable ones. */
  lemma SaveAcceptsExactlySaveable(s: StateView)
    ensures FirstSaveViolation(s).None? <==> Saveable(s)
  {
    ValidateAcceptsExactlyWellFormed(s);
    LifecyclesClean(s.checkouts);
  }

  /** What the rows of an accepted state say, lifecycle by lifecycle: who wants a
      runtime, who is available, and who carries the record of which generation. */
  lemma SaveableRowsAgree(s: StateView)
    requires Saveable(s)
    ensures forall c <- s.checkouts ::
      && (c.health.Available? <==> c.lifecycle.Inactive? || c.lifecycle.Active? || c.lifecycle.Launching? || c.lifecycle.Running? || c.lifecycle.Stopping?)
      && (c.lifecycle.Protected? ==> c.health.Unavailable? && c.health.cause == c.lifecycle.cause)
      && (c.activeIntent <==> if c.lifecycle.Protected? then c.lifecycle.cause.TeardownPending? || c.lifecycle.cause.StoppedActiveRecovery?
                              else c.health.Available? && !c.lifecycle.Inactive?)
      && (c.lifecycle.Launching? || c.lifecycle.Running? || c.lifecycle.Stopping? ==>
            c.ownedRuntime.Some? && c.ownedRuntime.value.generation == c.lifecycle.generation)
      && (c.ownedRuntime.Some? ==> c.lifecycle.Launching? || c.lifecycle.Running? || c.lifecycle.Stopping?
                                   || (c.lifecycle.Protected? && c.lifecycle.cause.TeardownPending?))
    ensures forall t <- s.standalones ::
      && (t.ownedRuntime.Some? <==> t.lifecycle.StandaloneLaunching? || t.lifecycle.StandaloneRunning?
                                    || t.lifecycle.StandaloneStopping? || t.lifecycle.StandaloneProtectedTeardown?)
      && (t.ownedRuntime.Some? ==> t.ownedRuntime.value.generation == t.lifecycle.generation)
  {
    hide CountersAbove, RepositoriesDistinct, CheckoutsPlaced;
    forall t <- s.standalones ensures t.RuntimeAgrees() { }
  }

  // ----- A refusal names a real fault -----

  /** The state really has the fault the refusal names. */
  ghost predicate Exhibits(s: StateView, e: ValidationError) {
    match e
    case DuplicateRepositoryKey(key) =>
      exists i, j | 0 <= i < j < |s.repositories| :: s.repositories[i].key == key == s.repositories[j].key
    case DuplicateRepositoryIdentity(path) =>
      exists i, j | 0 <= i < j < |s.repositories| :: s.repositories[i].commonDir == path == s.repositories[j].commonDir
    case DuplicateCheckoutKey(key) =>
      exists i, j | 0 <= i < j < |s.checkouts| :: s.checkouts[i].key == key == s.checkouts[j].key
    case DuplicateStandaloneKey(key) =>
      exists i, j | 0 <= i < j < |s.standalones| :: s.standalones[i].key == key == s.standalones[j].key
    case DuplicateStandalonePath(path) =>
      exists i, j | 0 <= i < j < |s.standalones| :: s.standalones[i].canonicalPath == path == s.standalones[j].canonicalPath
    case StandaloneCheckoutPathConflict(path) =>
      && (exists t <- s.standalones :: t.canonicalPath == path)
      && ((exists c <- s.checkouts :: c.observedPath == path) || (exists r <- s.repositories :: r.mainWorktree == path))
    case DuplicateCheckoutOwnership(path, first, second) =>
      first != second
      && (exists c <- s.checkouts :: c.observedPath == path && c.repositoryKey == first)
      && (exists c <- s.checkouts :: c.observedPath == path && c.repositoryKey == second)
    case RetainedCheckoutPathMismatch(key) => exists c <- s.checkouts :: c.key == key && c.session.cwd != c.observedPath
    case RetainedRepositoryPathMismatch(key) =>
      exists c <- s.checkouts, r <- s.repositories ::
        c.key == key && r.key == c.repositoryKey && c.session.repoRoot != r.mainWorktree
    case RetainedWorktreeFlagMismatch(key) =>
      exists c <- s.checkouts, r <- s.repositories ::
        c.key == key && r.key == c.repositoryKey && c.session.isWorktree != (c.observedPath != r.mainWorktree)
    case DanglingRepositoryKey(key) =>
      (exists c <- s.checkouts :: c.repositoryKey == key) && forall r <- s.repositories :: r.key != key
    case DuplicateRole(repository, role) =>
      !role.ManagedBranch? && exists i, j | 0 <= i < j < |s.checkouts| ::
        s.checkouts[i].repositoryKey == repository == s.checkouts[j].repositoryKey
        && s.checkouts[i].role == role == s.checkouts[j].role
    case RegressingRepositoryCounter => s.nextRepositoryKey == 0 || exists r <- s.repositories :: r.key >= s.nextRepositoryKey
    case RegressingCheckoutCounter => s.nextCheckoutKey == 0 || exists c <- s.checkouts :: c.key >= s.nextCheckoutKey
    case RegressingStandaloneCounter => s.nextStandaloneKey == 0 || exists t <- s.standalones :: t.key >= s.nextStandaloneKey
    case RegressingOrderCounter => s.nextFirstSeenOrder == 0 || exists o: U64 :: o >= s.nextFirstSeenOrder && HasOrder(s, o)
    case DuplicateFirstSeenOrder(order) => OrderShared(s, order)
    case ContradictoryLifecycle(key) => exists c <- s.checkouts :: c.key == key && !c.Saveable()
    case ContradictoryStandaloneLifecycle(key) => exists t <- s.standalones :: t.key == key && !t.RuntimeAgrees()
    case ExhaustedRepositoryCounter => s.nextRepositoryKey == U64_MAX
    case ExhaustedCheckoutCounter => s.nextCheckoutKey == U64_MAX
    case ExhaustedStandaloneCounter => s.nextStandaloneKey == U64_MAX
    case ExhaustedOrderCounter => s.nextFirstSeenOrder == U64_MAX
    case MissingCheckout(_) => false
  }

  /** Two distinct rows, of one list or of two, carry this order. */
  ghost predicate OrderShared(s: StateView, order: U64) {
    || (exists i, j | 0 <= i < j < |s.repositories| :: s.repositories[i].firstSeenOrder == order == s.repositories[j].firstSeenOrder)
    || (exists i, j | 0 <= i < j < |s.checkouts| :: s.checkouts[i].firstSeenOrder == order == s.checkouts[j].firstSeenOrder)
    || (exists i, j | 0 <= i < j < |s.standalones| :: s.standalones[i].firstSeenOrder == order == s.standalones[j].firstSeenOrder)
    || (exists r <- s.repositories, c <- s.checkouts :: r.firstSeenOrder == order == c.firstSeenOrder)
    || (exists r <- s.repositories, t <- s.standalones :: r.firstSeenOrder == order == t.firstSeenOrder)
    || (exists c <- s.checkouts, t <- s.standalones :: c.firstSeenOrder == order == t.firstSeenOrder)
  }

  ghost predicate HasOrder(s: StateView, order: U64) {
    || (exists r <- s.repositories :: r.firstSeenOrder == order)
    || (exists c <- s.checkouts :: c.firstSeenOrder == order)
    || (exists t <- s.standalones :: t.firstSeenOrder == order)
  }

  lemma RepositoryFault(s: StateView, i: nat)
    requires i < |s.repositories| && RepositoryViolation(s, i).Some?
    ensures Exhibits(s, RepositoryViolation(s, i).value)
  {
    var r := s.repositories[i];
    assert forall q <- s.repositories[..i] :: exists j | 0 <= j < i :: s.repositories[j] == q;
  }

  lemma CheckoutOrderFault(s: StateView, i: nat)
    requires i < |s.checkouts|
    requires CheckoutViolation(s, i).Some? && CheckoutViolation(s, i).value.DuplicateFirstSeenOrder?
    ensures CheckoutViolation(s, i).value.order == s.checkouts[i].firstSeenOrder && OrderShared(s, s.checkouts[i].firstSeenOrder)
  {
    hide PathOwner, FindRepository;
    var c := s.checkouts[i];
    assert c in s.checkouts;
    if d: SavedCheckout :| d in s.checkouts[..i] && d.firstSeenOrder == c.firstSeenOrder {
      var j :| 0 <= j < i && s.checkouts[j] == d;
    }
  }

  /** The rest of the checkout refusals, but for the order. */
  lemma CheckoutRowFault(s: StateView, i: nat)
    requires i < |s.checkouts|
    requires CheckoutViolation(s, i).Some? && !CheckoutViolation(s, i).value.DuplicateFirstSeenOrder?
    ensures Exhibits(s, CheckoutViolation(s, i).value)
  {
    hide PathOwner, FindRepository, OrderShared, HasOrder;
    var c := s.checkouts[i];
    assert c in s.checkouts;
    assert forall d <- s.checkouts[..i] :: exists j | 0 <= j < i :: s.checkouts[j] == d;
    assert forall d <- s.checkouts[..i] :: d in s.checkouts;
    var found := FindRepository(s.repositories, c.repositoryKey);
    if found.Some? { assert s.repositories[found.value] in s.repositories; }
  }

  lemma CheckoutFault(s: StateView, i: nat)
    requires i < |s.checkouts| && CheckoutViolation(s, i).Some?
    ensures Exhibits(s, CheckoutViolation(s, i).value)
  {
    hide CheckoutViolation, OrderShared;
    if CheckoutViolation(s, i).value.DuplicateFirstSeenOrder? { CheckoutOrderFault(s, i); } else { CheckoutRowFault(s, i); }
  }

  lemma StandaloneFault(s: StateView, i: nat)
    requires i < |s.standalones| && StandaloneViolation(s, i).Some?
    ensures Exhibits(s, StandaloneViolation(s, i).value)
  {
    var t := s.standalones[i];
    assert t in s.standalones;
    assert forall u <- s.standalones[..i] :: exists j | 0 <= j < i :: s.standalones[j] == u;
  }

  lemma CounterFault(s: StateView)
    requires CounterViolation(s).Some?
    ensures Exhibits(s, CounterViolation(s).value)
  {
    if CounterViolation(s).value.RegressingOrderCounter? && s.nextFirstSeenOrder != 0 {
      if r: SavedRepository :| r in s.repositories && r.firstSeenOrder >= s.nextFirstSeenOrder {
        assert HasOrder(s, r.firstSeenOrder);
      } else if c: SavedCheckout :| c in s.checkouts && c.firstSeenOrder >= s.nextFirstSeenOrder {
        assert HasOrder(s, c.firstSeenOrder);
      } else {
        var u: StandaloneSession :| u in s.standalones && u.firstSeenOrder >= s.nextFirstSeenOrder;
        assert HasOrder(s, u.firstSeenOrder);
      }
    }
  }

  lemma LimitFault(s: StateView)
    requires !CountersBelowLimit(s)
    ensures FirstViolation(s).Some? && Exhibits(s, FirstViolation(s).value)
  {
    hide FirstSome, RepositoryVerdicts, CheckoutVerdicts, StandaloneVerdicts, StandaloneRuntimeVerdicts, CounterViolation;
    hide OrderShared, HasOrder, SavedCheckout.Saveable, StandaloneSession.RuntimeAgrees;
  }

  lemma RuntimeFault(s: StateView, i: nat)
    requires i < |s.standalones| && StandaloneRuntimeViolation(s.standalones[i]).Some?
    ensures Exhibits(s, StandaloneRuntimeViolation(s.standalones[i]).value)
  {
    assert s.standalones[i] in s.standalones;
  }

  lemma LifecycleFault(s: StateView, i: nat)
    requires i < |s.checkouts| && LifecycleViolation(s.checkouts[i]).Some?
    ensures Exhibits(s, LifecycleViolation(s.checkouts[i]).value)
  {
    assert s.checkouts[i] in s.checkouts;
  }

  /** Every refusal of the save names a fault the state has. */
  lemma RefusalNamesARealFault(s: StateView)
    requires FirstSaveViolation(s).Some?
    ensures Exhibits(s, FirstSaveViolation(s).value)
  {
    hide RepositoryViolation, CheckoutViolation, StandaloneViolation, CounterViolation, StandaloneRuntimeViolation, LifecycleViolation, Exhibits;
    if FirstViolation(s).Some? {
      if !CountersBelowLimit(s) {
        LimitFault(s);
      } else if FirstSome(RepositoryVerdicts(s)).Some? {
        var i :| 0 <= i < |s.repositories| && RepositoryVerdicts(s)[i] == FirstSome(RepositoryVerdicts(s));
        RepositoryFault(s, i);
      } else if FirstSome(CheckoutVerdicts(s)).Some? {
        var i :| 0 <= i < |s.checkouts| && CheckoutVerdicts(s)[i] == FirstSome(CheckoutVerdicts(s));
        CheckoutFault(s, i);
      } else if FirstSome(StandaloneVerdicts(s)).Some? {
        var i :| 0 <= i < |s.standalones| && StandaloneVerdicts(s)[i] == FirstSome(StandaloneVerdicts(s));
        StandaloneFault(s, i);
      } else if CounterViolation(s).Some? {
        CounterFault(s);
      } else {
        var verdicts := StandaloneRuntimeVerdicts(s.standalones);
        var i :| 0 <= i < |s.standalones| && verdicts[i] == FirstSome(verdicts);
        RuntimeFault(s, i);
      }
    } else {
      var verdicts := LifecycleVerdicts(s.checkouts);
      var i :| 0 <= i < |s.checkouts| && verdicts[i] == FirstSome(verdicts);
      LifecycleFault(s, i);
    }
  }

  // ----- The aggregate as the owner updates it -----

  lemma {:induction false} FirstSomeIsFirst<T>(verdicts: seq<Option<T>>, i: nat)
    requires i < |verdicts| && verdicts[i].Some? && forall k | 0 <= k < i :: verdicts[k].None?
    ensures FirstSome(verdicts) == verdicts[i]
  {
    if i > 0 { FirstSomeIsFirst(verdicts[1..], i - 1); }
  }

  /** The counter after handing out `counter`, unless that would reach the sentinel. */
  function Successor(counter: U64): (next: Option<U64>)
    ensures next.Some? <==> counter + 1 < U64_MAX
  {
    if counter == U64_MAX || counter + 1 == U64_MAX then None else Some(counter + 1)
  }

  /** A key allocated on a well-formed state is fresh, and the state stays saveable. */
  lemma AllocationIsFresh(s: StateView)
    requires Saveable(s)
    ensures forall r <- s.repositories :: r.key != s.nextRepositoryKey && r.firstSeenOrder != s.nextFirstSeenOrder
    ensures forall c <- s.checkouts :: c.key != s.nextCheckoutKey && c.firstSeenOrder != s.nextFirstSeenOrder
    ensures forall t <- s.standalones :: t.key != s.nextStandaloneKey && t.firstSeenOrder != s.nextFirstSeenOrder
    ensures var n := Successor(s.nextRepositoryKey); n.Some? ==> Saveable(s.(nextRepositoryKey := n.value))
    ensures var n := Successor(s.nextCheckoutKey); n.Some? ==> Saveable(s.(nextCheckoutKey := n.value))
    ensures var n := Successor(s.nextStandaloneKey); n.Some? ==> Saveable(s.(nextStandaloneKey := n.value))
    ensures var n := Successor(s.nextFirstSeenOrder); n.Some? ==> Saveable(s.(nextFirstSeenOrder := n.value))
  {
    hide RepositoriesDistinct, CheckoutsPlaced, StandalonesPlaced, OrdersUnique, SavedCheckout.Saveable;
    AdvanceKeepsSaveable(s, s.(nextRepositoryKey := Advanced(s.nextRepositoryKey)));
    AdvanceKeepsSaveable(s, s.(nextCheckoutKey := Advanced(s.nextCheckoutKey)));
    AdvanceKeepsSaveable(s, s.(nextStandaloneKey := Advanced(s.nextStandaloneKey)));
    AdvanceKeepsSaveable(s, s.(nextFirstSeenOrder := Advanced(s.nextFirstSeenOrder)));
  }

  /** The counter after one allocation, successful or not. */
  function Advanced(counter: U64): U64 {
    if Successor(counter).Some? then Successor(counter).value else counter
  }

  /** The same rows under counters that only moved up, below the sentinel. */
  predicate OnlyAdvanced(s: StateView, s': StateView) {
    && s' == s.(nextRepositoryKey := s'.nextRepositoryKey, nextCheckoutKey := s'.nextCheckoutKey,
                nextStandaloneKey := s'.nextStandaloneKey, nextFirstSeenOrder := s'.nextFirstSeenOrder)
    && s.nextRepositoryKey <= s'.nextRepositoryKey < U64_MAX && s.nextCheckoutKey <= s'.nextCheckoutKey < U64_MAX
    && s.nextStandaloneKey <= s'.nextStandaloneKey < U64_MAX && s.nextFirstSeenOrder <= s'.nextFirstSeenOrder < U64_MAX
  }

  lemma AdvanceKeepsSaveable(s: StateView, s': StateView)
    requires Saveable(s) && OnlyAdvanced(s, s')
    ensures Saveable(s')
  {
    hide SavedCheckout.Saveable;
    AdvanceKeepsRows(s, s');
    hide RepositoriesDistinct, CheckoutsPlaced, StandalonesPlaced, OrdersUnique;
  }

  lemma AdvanceKeepsRows(s: StateView, s': StateView)
    requires s'.repositories == s.repositories && s'.checkouts == s.checkouts && s'.standalones == s.standalones
    ensures RepositoriesDistinct(s) ==> RepositoriesDistinct(s')
    ensures CheckoutsPlaced(s) ==> CheckoutsPlaced(s')
    ensures StandalonesPlaced(s) ==> StandalonesPlaced(s')
    ensures OrdersUnique(s) ==> OrdersUnique(s')
  {
  }

  lemma PathOwnerExtends(rows: seq<SavedCheckout>, c: SavedCheckout)
    ensures forall p :: PathOwner(rows + [c], p) == if c.observedPath == p then Some(c.repositoryKey) else PathOwner(rows, p)
  {
    assert (rows + [c])[..|rows|] == rows;
  }

  /** The hash sets and the hash map the checkout loop of `validate` fills. */
  datatype SeenCheckouts = SeenCheckouts(
    keys: set<U64>, owners: map<Path, U64>, orders: set<U64>, roles: set<(U64, CheckoutRole)>)
  {
    function With(c: SavedCheckout): SeenCheckouts {
      SeenCheckouts(
        keys + {c.key}, owners[c.observedPath := c.repositoryKey], orders + {c.firstSeenOrder},
        if c.role.ManagedBranch? then roles else roles + {(c.repositoryKey, c.role)})
    }
  }

  /** What they hold after the loop has passed `rows`. */
  function SeenAfter(rows: seq<SavedCheckout>, repositoryOrders: set<U64>): SeenCheckouts {
    if rows == [] then SeenCheckouts({}, map[], repositoryOrders, {})
    else SeenAfter(rows[..|rows| - 1], repositoryOrders).With(rows[|rows| - 1])
  }

  lemma {:induction false} SeenAfterHolds(rows: seq<SavedCheckout>, repositoryOrders: set<U64>)
    ensures var seen := SeenAfter(rows, repositoryOrders);
      && seen.keys == (set d <- rows :: d.key)
      && seen.owners.Keys == (set d <- rows :: d.observedPath)
      && (forall p <- seen.owners :: PathOwner(rows, p) == Some(seen.owners[p]))
      && seen.orders == repositoryOrders + (set d <- rows :: d.firstSeenOrder)
      && seen.roles == (set d <- rows | !d.role.ManagedBranch? :: (d.repositoryKey, d.role))
  {
    if rows != [] {
      var front, c := rows[..|rows| - 1], rows[|rows| - 1];
      SeenAfterHolds(front, repositoryOrders);
      assert rows == front + [c];
      PathOwnerExtends(front, c);
    }
  }

  /** Looking a row up in them answers what a scan of `rows` would. */
  lemma SeenTells(rows: seq<SavedCheckout>, repositoryOrders: set<U64>, c: SavedCheckout)
    ensures var seen, owner := SeenAfter(rows, repositoryOrders), PathOwner(rows, c.observedPath);
      && (c.key in seen.keys <==> exists d <- rows :: d.key == c.key)
      && (c.observedPath in seen.owners <==> owner.Some?)
      && (owner.Some? ==> owner == Some(seen.owners[c.observedPath]))
      && (c.firstSeenOrder in seen.orders <==>
          c.firstSeenOrder in repositoryOrders || exists d <- rows :: d.firstSeenOrder == c.firstSeenOrder)
      && (!c.role.ManagedBranch? ==>
          ((c.repositoryKey, c.role) in seen.roles <==> exists d <- rows :: d.repositoryKey == c.repositoryKey && d.role == c.role))
  {
    hide PathOwner, SeenAfter;
    SeenAfterHolds(rows, repositoryOrders);
  }

  class RepositoryState {
    var nextRepositoryKey: U64
    var nextCheckoutKey: U64
    var nextStandaloneKey: U64
    var nextFirstSeenOrder: U64
    var repositories: seq<SavedRepository>
    var checkouts: seq<SavedCheckout>
    var standalones: seq<StandaloneSession>

    function View(): StateView
      reads this
    {
      StateView(nextRepositoryKey, nextCheckoutKey, nextStandaloneKey, nextFirstSeenOrder,
                repositories, checkouts, standalones)
    }

    constructor ()
      ensures Saveable(View())
      ensures repositories == [] && checkouts == [] && standalones == []
    {
      nextRepositoryKey, nextCheckoutKey, nextStandaloneKey, nextFirstSeenOrder := 1, 1, 1, 1;
      repositories, checkouts, standalones := [], [], [];
    }

    /** `*self = next`. */
    method Replace(next: StateView)
      modifies this
      ensures View() == next
    {
      nextRepositoryKey, nextCheckoutKey := next.nextRepositoryKey, next.nextCheckoutKey;
      nextStandaloneKey, nextFirstSeenOrder := next.nextStandaloneKey, next.nextFirstSeenOrder;
      repositories, checkouts, standalones := next.repositories, next.checkouts, next.standalones;
    }

    /** The index of the first checkout with this key. */
    method Position(key: U64) returns (found: Option<nat>)
      ensures found == FindCheckout(checkouts, key)
    {
      for i := 0 to |checkouts|
        invariant forall k | 0 <= k < i :: checkouts[k].key != key
      {
        if checkouts[i].key == key { return Some(i); }
      }
      found := None;
    }

    /** The index of the first repository with this key. */
    method RepositoryPosition(key: U64) returns (found: Option<nat>)
      ensures found == FindRepository(repositories, key)
    {
      for i := 0 to |repositories|
        invariant forall k | 0 <= k < i :: repositories[k].key != key
      {
        if repositories[i].key == key { return Some(i); }
      }
      found := None;
    }

    method AllocateRepositoryKey() returns (key: Option<U64>)
      modifies this`nextRepositoryKey
      ensures key == if Successor(old(nextRepositoryKey)).Some? then Some(old(nextRepositoryKey)) else None
      ensures nextRepositoryKey == if key.Some? then key.value + 1 else old(nextRepositoryKey)
    {
      if nextRepositoryKey == U64_MAX { return None; }
      var next := nextRepositoryKey + 1;
      if next == U64_MAX { return None; }
      key := Some(nextRepositoryKey);
      nextRepositoryKey := next;
    }

    method AllocateCheckoutKey() returns (key: Option<U64>)
      modifies this`nextCheckoutKey
      ensures key == if Successor(old(nextCheckoutKey)).Some? then Some(old(nextCheckoutKey)) else None
      ensures nextCheckoutKey == if key.Some? then key.value + 1 else old(nextCheckoutKey)
    {
      if nextCheckoutKey == U64_MAX { return None; }
      var next := nextCheckoutKey + 1;
      if next == U64_MAX { return None; }
      key := Some(nextCheckoutKey);
      nextCheckoutKey := next;
    }

    method AllocateStandaloneKey() returns (key: Option<U64>)
      modifies this`nextStandaloneKey
      ensures key == if Successor(old(nextStandaloneKey)).Some? then Some(old(nextStandaloneKey)) else None
      ensures nextStandaloneKey == if key.Some? then key.value + 1 else old(nextStandaloneKey)
    {
      if nextStandaloneKey == U64_MAX { return None; }
      var next := nextStandaloneKey + 1;
      if next == U64_MAX { return None; }
      key := Some(nextStandaloneKey);
      nextStandaloneKey := next;
    }

    method AllocateFirstSeenOrder() returns (order: Option<U64>)
      modifies this`nextFirstSeenOrder
      ensures order == if Successor(old(nextFirstSeenOrder)).Some? then Some(old(nextFirstSeenOrder)) else None
      ensures nextFirstSeenOrder == if order.Some? then order.value + 1 else old(nextFirstSeenOrder)
    {
      if nextFirstSeenOrder == U64_MAX { return None; }
      var next := nextFirstSeenOrder + 1;
      if next == U64_MAX { return None; }
      order := Some(nextFirstSeenOrder);
      nextFirstSeenOrder := next;
    }

    /** The repository loop of `validate`. */
    method ValidateRepositories() returns (refusal: Option<ValidationError>, orders: set<U64>)
      ensures refusal == FirstSome(RepositoryVerdicts(View()))
      ensures refusal.None? ==> orders == (set r <- repositories :: r.firstSeenOrder)
    {
      var keys, identities := {}, {};
      orders := {};
      ghost var verdicts := RepositoryVerdicts(View());
      for i := 0 to |repositories|
        invariant keys == set r <- repositories[..i] :: r.key
        invariant identities == set r <- repositories[..i] :: r.commonDir
        invariant orders == set r <- repositories[..i] :: r.firstSeenOrder
        invariant forall k | 0 <= k < i :: verdicts[k].None?
      {
        var r := repositories[i];
        assert repositories[..i + 1] == repositories[..i] + [r];
        if verdicts[i].Some? { FirstSomeIsFirst(verdicts, i); }
        if r.key in keys { return Some(DuplicateRepositoryKey(r.key)), orders; }
        keys := keys + {r.key};
        if r.commonDir in identities { return Some(DuplicateRepositoryIdentity(r.commonDir)), orders; }
        identities := identities + {r.commonDir};
        if r.firstSeenOrder in orders { return Some(DuplicateFirstSeenOrder(r.firstSeenOrder)), orders; }
        orders := orders + {r.firstSeenOrder};
      }
      assert repositories[..|repositories|] == repositories;
      FirstSomeFindsAny(verdicts);
      refusal := None;
    }

    /** One turn of the checkout loop of `validate`. */
    method ValidateCheckout(i: nat, byKey: map<U64, Path>, seen: SeenCheckouts) returns (refusal: Option<ValidationError>)
      requires i < |checkouts|
      requires seen == SeenAfter(checkouts[..i], set r <- repositories :: r.firstSeenOrder)
      requires byKey.Keys == set r <- repositories :: r.key
      requires forall r <- repositories :: byKey[r.key] == r.mainWorktree
      ensures refusal == CheckoutViolation(View(), i)
    {
      hide PathOwner, SeenAfter, FindRepository;
      var c := checkouts[i];
      SeenTells(checkouts[..i], set r <- repositories :: r.firstSeenOrder, c);
      if c.key in seen.keys { return Some(DuplicateCheckoutKey(c.key)); }
      if c.repositoryKey !in byKey { return Some(DanglingRepositoryKey(c.repositoryKey)); }
      var mainWorktree := byKey[c.repositoryKey];
      assert mainWorktree == repositories[FindRepository(repositories, c.repositoryKey).value].mainWorktree;
      if c.session.cwd != c.observedPath { return Some(RetainedCheckoutPathMismatch(c.key)); }
      if c.session.repoRoot != mainWorktree { return Some(RetainedRepositoryPathMismatch(c.key)); }
      if c.session.isWorktree != (c.observedPath != mainWorktree) { return Some(RetainedWorktreeFlagMismatch(c.key)); }
      if c.observedPath in seen.owners && seen.owners[c.observedPath] != c.repositoryKey {
        return Some(DuplicateCheckoutOwnership(c.observedPath, seen.owners[c.observedPath], c.repositoryKey));
      }
      if c.firstSeenOrder in seen.orders { return Some(DuplicateFirstSeenOrder(c.firstSeenOrder)); }
      if !c.role.ManagedBranch? && (c.repositoryKey, c.role) in seen.roles {
        return Some(DuplicateRole(c.repositoryKey, c.role));
      }
      refusal := None;
    }

    /** `repositories_by_key`. */
    method MainWorktreesByKey() returns (byKey: map<U64, Path>)
      requires RepositoriesDistinct(View())
      ensures byKey.Keys == set r <- repositories :: r.key
      ensures forall r <- repositories :: byKey[r.key] == r.mainWorktree
    {
      byKey := map[];
      for i := 0 to |repositories|
        invariant byKey.Keys == set r <- repositories[..i] :: r.key
        invariant forall k | 0 <= k < i :: byKey[repositories[k].key] == repositories[k].mainWorktree
      {
        assert repositories[..i + 1] == repositories[..i] + [repositories[i]];
        byKey := byKey[repositories[i].key := repositories[i].mainWorktree];
      }
      assert repositories[..|repositories|] == repositories;
    }

    /** The checkout loop of `validate`, entered with the orders the repository loop filled. */
    method ValidateCheckouts(repositoryOrders: set<U64>)
      returns (refusal: Option<ValidationError>, seen: SeenCheckouts)
      requires RepositoriesDistinct(View())
      requires repositoryOrders == set r <- repositories :: r.firstSeenOrder
      ensures refusal == FirstSome(CheckoutVerdicts(View()))
      ensures refusal.None? ==> seen == SeenAfter(checkouts, repositoryOrders)
    {
      hide CheckoutViolation;
      var byKey := MainWorktreesByKey();
      seen := SeenCheckouts({}, map[], repositoryOrders, {});
      ghost var verdicts := CheckoutVerdicts(View());
      for i := 0 to |checkouts|
        invariant seen == SeenAfter(checkouts[..i], repositoryOrders)
        invariant forall k | 0 <= k < i :: verdicts[k].None?
      {
        refusal := ValidateCheckout(i, byKey, seen);
        if refusal.Some? {
          FirstSomeIsFirst(verdicts, i);
          return;
        }
        assert checkouts[..i + 1][..i] == checkouts[..i];
        seen := seen.With(checkouts[i]);
      }
      assert checkouts[..|checkouts|] == checkouts;
      FirstSomeFindsAny(verdicts);
      refusal := None;
    }

    /** One turn of the standalone loop of `validate`. */
    method ValidateStandalone(i: nat, checkoutPaths: set<Path>, keys: set<U64>, paths: set<Path>, orders: set<U64>)
      returns (refusal: Option<ValidationError>)
      requires i < |standalones|
      requires checkoutPaths == set c <- checkouts :: c.observedPath
      requires keys == set u <- standalones[..i] :: u.key
      requires paths == set u <- standalones[..i] :: u.canonicalPath
      requires orders == (set r <- repositories :: r.firstSeenOrder) + (set c <- checkouts :: c.firstSeenOrder)
                       + (set u <- standalones[..i] :: u.firstSeenOrder)
      ensures refusal == StandaloneViolation(View(), i)
    {
      var t := standalones[i];
      if t.key in keys { return Some(DuplicateStandaloneKey(t.key)); }
      if t.canonicalPath in paths { return Some(DuplicateStandalonePath(t.canonicalPath)); }
      if t.canonicalPath in checkoutPaths { return Some(StandaloneCheckoutPathConflict(t.canonicalPath)); }
      if exists r <- repositories :: r.mainWorktree == t.canonicalPath {
        return Some(StandaloneCheckoutPathConflict(t.canonicalPath));
      }
      if t.firstSeenOrder in orders { return Some(DuplicateFirstSeenOrder(t.firstSeenOrder)); }
      refusal := None;
    }

    /** The standalone loop of `validate`. */
    method ValidateStandalones(checkoutPaths: set<Path>, earlierOrders: set<U64>)
      returns (refusal: Option<ValidationError>)
      requires checkoutPaths == set c <- checkouts :: c.observedPath
      requires earlierOrders == (set r <- repositories :: r.firstSeenOrder) + (set c <- checkouts :: c.firstSeenOrder)
      ensures refusal == FirstSome(StandaloneVerdicts(View()))
    {
      hide StandaloneViolation, FirstSome, StandaloneVerdicts;
      var keys, paths, orders := {}, {}, earlierOrders;
      ghost var verdicts := StandaloneVerdicts(View());
      for i := 0 to |standalones|
        invariant keys == set u <- standalones[..i] :: u.key
        invariant paths == set u <- standalones[..i] :: u.canonicalPath
        invariant orders == earlierOrders + set u <- standalones[..i] :: u.firstSeenOrder
        invariant forall k | 0 <= k < i :: verdicts[k].None?
      {
        refusal := ValidateStandalone(i, checkoutPaths, keys, paths, orders);
        if refusal.Some? {
          FirstSomeIsFirst(verdicts, i);
          return;
        }
        var t := standalones[i];
        assert standalones[..i + 1] == standalones[..i] + [t];
        keys, paths, orders := keys + {t.key}, paths + {t.canonicalPath}, orders + {t.firstSeenOrder};
      }
      FirstSomeFindsAny(verdicts);
      refusal := None;
    }

    method ValidateStandaloneLifecycles() returns (refusal: Option<ValidationError>)
      ensures refusal == FirstSome(StandaloneRuntimeVerdicts(standalones))
    {
      ghost var verdicts := StandaloneRuntimeVerdicts(standalones);
      for i := 0 to |standalones|
        invariant forall k | 0 <= k < i :: verdicts[k].None?
      {
        if !standalones[i].RuntimeAgrees() {
          FirstSomeIsFirst(verdicts, i);
          return Some(ContradictoryStandaloneLifecycle(standalones[i].key));
        }
      }
      FirstSomeFindsAny(verdicts);
      refusal := None;
    }

    method ValidateCounters() returns (refusal: Option<ValidationError>)
      ensures refusal == CounterViolation(View())
    {
      if nextRepositoryKey == 0 || exists r <- repositories :: r.key >= nextRepositoryKey {
        return Some(RegressingRepositoryCounter);
      }
      if nextCheckoutKey == 0 || exists c <- checkouts :: c.key >= nextCheckoutKey {
        return Some(RegressingCheckoutCounter);
      }
      if nextStandaloneKey == 0 || exists t <- standalones :: t.key >= nextStandaloneKey {
        return Some(RegressingStandaloneCounter);
      }
      if nextFirstSeenOrder == 0
         || (exists r <- repositories :: r.firstSeenOrder >= nextFirstSeenOrder)
         || (exists c <- checkouts :: c.firstSeenOrder >= nextFirstSeenOrder)
         || (exists t <- standalones :: t.firstSeenOrder >= nextFirstSeenOrder) {
        return Some(RegressingOrderCounter);
      }
      refusal := None;
    }

    method Validate() returns (refusal: Option<ValidationError>)
      ensures refusal == FirstViolation(View())
    {
      if nextRepositoryKey == U64_MAX { return Some(ExhaustedRepositoryCounter); }
      if nextCheckoutKey == U64_MAX { return Some(ExhaustedCheckoutCounter); }
      if nextStandaloneKey == U64_MAX { return Some(ExhaustedStandaloneCounter); }
      if nextFirstSeenOrder == U64_MAX { return Some(ExhaustedOrderCounter); }
      var repositoryOrders, seen;
      refusal, repositoryOrders := ValidateRepositories();
      if refusal.Some? { return; }
      RepositoriesClean(View());
      refusal, seen := ValidateCheckouts(repositoryOrders);
      if refusal.Some? { return; }
      SeenAfterHolds(checkouts, repositoryOrders);
      refusal := ValidateStandalones(seen.owners.Keys, seen.orders);
      if refusal.Some? { return; }
      refusal := ValidateCounters();
      if refusal.Some? { return; }
      refusal := ValidateStandaloneLifecycles();
    }

    method ValidateLifecycleViews() returns (refusal: Option<ValidationError>)
      ensures refusal == FirstSome(LifecycleVerdicts(checkouts))
    {
      ghost var verdicts := LifecycleVerdicts(checkouts);
      for i := 0 to |checkouts|
        invariant forall k | 0 <= k < i :: verdicts[k].None?
      {
        if !checkouts[i].ViewsAgree() || !checkouts[i].RuntimeAgrees() {
          FirstSomeIsFirst(verdicts, i);
          return Some(ContradictoryLifecycle(checkouts[i].key));
        }
      }
      FirstSomeFindsAny(verdicts);
      refusal := None;
    }

    method ValidateForSave() returns (refusal: Option<ValidationError>)
      ensures refusal == FirstSaveViolation(View())
    {
      refusal := Validate();
      if refusal.None? { refusal := ValidateLifecycleViews(); }
    }
  }
}
