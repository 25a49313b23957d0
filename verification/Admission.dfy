/** Admitting a repository: its row in the durable state, and the directory it
    gets, the one named after its digest or a suffixed one beside it when that
    is taken (baude-core/src/lifecycle.rs). */
module Admission {
  import opened Prelude
  import opened Bytes
  import opened Repository
  import opened GitTypes

  const MAX_SUFFIX: nat := 1000

  /** A directory under the worktrees base; suffix 1 is the plain name. */
  datatype Directory = Directory(digest: string, suffix: nat)

  /** What reading a directory's marker says. */
  datatype Marker = NoMarker | Unreadable | MarkedBy(commonDir: Path)

  type Disk = map<Directory, Marker>

  /** How far an admission gets once it has its directory. */
  datatype Fate = Completes | StopsAtBase | StopsBeforeDirectory | StopsBeforeMarker | StopsWithinMarker

  datatype AdmissionRefusal = Exhausted | Interrupted | CountersExhausted

  predicate Ours(disk: Disk, dir: Directory, commonDir: Path) {
    dir in disk && disk[dir] == MarkedBy(commonDir)
  }

  /** Free, or ours from an earlier admission: anything else is never touched. */
  predicate Usable(disk: Disk, dir: Directory, commonDir: Path) {
    dir !in disk || Ours(disk, dir, commonDir)
  }

  /** The plain name is taken: it exists and its marker does not name the requester. */
  predicate Collides(disk: Disk, dir: Directory, commonDir: Path) {
    dir in disk && !Ours(disk, dir, commonDir)
  }

  /** The first suffix, from `from` on, whose directory is usable. */
  function LeastUsable(disk: Disk, digest: string, commonDir: Path, from: nat): (least: Option<nat>)
    ensures least.Some? ==> from <= least.value <= MAX_SUFFIX && Usable(disk, Directory(digest, least.value), commonDir)
    ensures forall s: nat | from <= s <= MAX_SUFFIX && (least.None? || s < least.value) :: !Usable(disk, Directory(digest, s), commonDir)
    decreases MAX_SUFFIX + 1 - from
  {
    if from > MAX_SUFFIX then None
    else if Usable(disk, Directory(digest, from), commonDir) then Some(from)
    else LeastUsable(disk, digest, commonDir, from + 1)
  }

  /** The directory an admission chooses, if it can be created. The base
      directory is created only on the way to a suffixed name. */
  function Choice(disk: Disk, commonDir: Path, digest: string, fate: Fate): Result<Directory, AdmissionRefusal> {
    var least := LeastUsable(disk, digest, commonDir, 1);
    if fate == StopsAtBase && least != Some(1) then Err(Interrupted)
    else if least.None? then Err(Exhausted)
    else if Directory(digest, least.value) !in disk && fate == StopsBeforeDirectory then Err(Interrupted)
    else Ok(Directory(digest, least.value))
  }

  /** Where an admission of a repository the state does not know ends up. */
  function Home(disk: Disk, commonDir: Path, digest: string, fate: Fate): Result<Directory, AdmissionRefusal> {
    var choice := Choice(disk, commonDir, digest, fate);
    if choice.Ok? && (fate == StopsBeforeMarker || (choice.value !in disk && fate == StopsWithinMarker)) then Err(Interrupted) else choice
  }

  /** What it leaves on disk. */
  function Admitted(disk: Disk, commonDir: Path, digest: string, fate: Fate): Disk {
    var choice := Choice(disk, commonDir, digest, fate);
    if choice.Err? || choice.value in disk then disk
    else disk[choice.value :=
      if fate.StopsBeforeMarker? then NoMarker else if fate.StopsWithinMarker? then Unreadable else MarkedBy(commonDir)]
  }

  /** The least usable suffix from 2 on; the base or a free candidate may fail to be created. */
  method AllocateSuffixedRepositoryPath(disk: Disk, digest: string, commonDir: Path, fate: Fate) returns (chosen: Result<Directory, AdmissionRefusal>)
    ensures chosen.Ok? ==>
      && chosen.value.digest == digest && 2 <= chosen.value.suffix <= MAX_SUFFIX
      && Usable(disk, chosen.value, commonDir)
      && forall s: nat | 2 <= s < chosen.value.suffix :: !Usable(disk, Directory(digest, s), commonDir)
    ensures chosen.Err? ==> chosen.error.Exhausted? || chosen.error.Interrupted?
    ensures chosen == Err(Exhausted) <==>
      fate != StopsAtBase && forall s: nat | 2 <= s <= MAX_SUFFIX :: !Usable(disk, Directory(digest, s), commonDir)
    ensures chosen == Err(Interrupted) <==>
      (fate == StopsAtBase
       || (fate == StopsBeforeDirectory && exists s: nat | 2 <= s <= MAX_SUFFIX ::
             Directory(digest, s) !in disk && forall k: nat | 2 <= k < s :: !Usable(disk, Directory(digest, k), commonDir)))
  {
    if fate == StopsAtBase { return Err(Interrupted); }
    for suffix := 2 to MAX_SUFFIX + 1
      invariant forall s: nat | 2 <= s < suffix :: !Usable(disk, Directory(digest, s), commonDir)
    {
      var candidate := Directory(digest, suffix);
      if candidate !in disk {
        if fate == StopsBeforeDirectory { return Err(Interrupted); }
        return Ok(candidate);
      }
      if disk[candidate] == MarkedBy(commonDir) { return Ok(candidate); }
    }
    chosen := Err(Exhausted);
  }

  // ----- The row in the durable state -----

  function FindCommon(repositories: seq<SavedRepository>, commonDir: Path): (found: Option<nat>)
    ensures found.Some? ==> found.value < |repositories| && repositories[found.value].commonDir == commonDir
    ensures found.None? ==> forall r <- repositories :: r.commonDir != commonDir
  {
    if repositories == [] then None
    else if repositories[0].commonDir == commonDir then Some(0)
    else
      var rest := FindCommon(repositories[1..], commonDir);
      if rest.None? then None else Some(rest.value + 1)
  }

  /** The key in the directory's name. */
  function PhysicalKey(dir: Directory): string {
    if dir.suffix == 1 then dir.digest else dir.digest + "-" + Decimal(dir.suffix)
  }

  /** A known repository is observed afresh: its main worktree is the one Git names now. */
  function Reobserved(s: StateView, k: nat, snapshot: RepositorySnapshot): StateView
    requires k < |s.repositories|
  {
    s.(repositories := s.repositories[k := s.repositories[k].(mainWorktree := snapshot.mainWorktree, health := Available)])
  }

  function WithRepository(s: StateView, key: U64, order: U64, snapshot: RepositorySnapshot, physicalKey: string): StateView {
    s.(repositories := s.repositories + [SavedRepository(key, snapshot.commonDir, snapshot.mainWorktree, order, Available, physicalKey)])
  }

  /** State, disk and answer of one admission: the key, and whether the plain name was taken. */
  function Ensure(s: StateView, disk: Disk, snapshot: RepositorySnapshot, digest: string, fate: Fate):
    (StateView, Disk, Result<(U64, bool), AdmissionRefusal>)
  {
    var known := FindCommon(s.repositories, snapshot.commonDir);
    if known.Some? then (Reobserved(s, known.value, snapshot), disk, Ok((s.repositories[known.value].key, false)))
    else if Successor(s.nextRepositoryKey).None? then (s, disk, Err(CountersExhausted))
    else
      var s1 := s.(nextRepositoryKey := Advanced(s.nextRepositoryKey));
      if Successor(s.nextFirstSeenOrder).None? then (s1, disk, Err(CountersExhausted))
      else
        var s2 := s1.(nextFirstSeenOrder := Advanced(s.nextFirstSeenOrder));
        var home := Home(disk, snapshot.commonDir, digest, fate);
        (if home.Err? then s2 else WithRepository(s2, s.nextRepositoryKey, s.nextFirstSeenOrder, snapshot, PhysicalKey(home.value)),
         Admitted(disk, snapshot.commonDir, digest, fate),
         if home.Err? then Err(home.error) else Ok((s.nextRepositoryKey, home.value.suffix != 1)))
  }

  /** The durable state beside the directories it refers to. */
  class Workspace {
    const state: RepositoryState
    var disk: Disk

    constructor (state: RepositoryState, disk: Disk)
      ensures this.state == state && this.disk == disk
    {
      this.state := state;
      this.disk := disk;
    }

    method CommonPosition(commonDir: Path) returns (found: Option<nat>)
      ensures found == FindCommon(state.repositories, commonDir)
    {
      for i := 0 to |state.repositories|
        invariant FindCommon(state.repositories, commonDir) ==
          match FindCommon(state.repositories[i..], commonDir) case None => None case Some(k) => Some(i + k)
      {
        if state.repositories[i].commonDir == commonDir { return Some(i); }
        assert state.repositories[i..][1..] == state.repositories[i + 1..];
      }
      found := None;
    }

    /** The plain name if it is free or ours, else the least usable suffix. */
    method ChooseDirectory(commonDir: Path, digest: string, fate: Fate) returns (chosen: Result<Directory, AdmissionRefusal>)
      ensures chosen == Choice(disk, commonDir, digest, fate)
    {
      var target := Directory(digest, 1);
      if !Collides(disk, target, commonDir) {
        LeastIs(disk, digest, commonDir, 1, 1);
        return if target !in disk && fate == StopsBeforeDirectory then Err(Interrupted) else Ok(target);
      }
      chosen := AllocateSuffixedRepositoryPath(disk, digest, commonDir, fate);
      if chosen == Err(Interrupted) && fate == StopsBeforeDirectory {
        ghost var s: nat :| 2 <= s <= MAX_SUFFIX && Directory(digest, s) !in disk
          && forall k: nat | 2 <= k < s :: !Usable(disk, Directory(digest, k), commonDir);
        LeastIs(disk, digest, commonDir, 1, s);
      }
      if chosen.Ok? { LeastIs(disk, digest, commonDir, 1, chosen.value.suffix); }
    }

    /** Choose, create and mark the directory; how far it gets is `fate`. */
    method AdmitDirectory(commonDir: Path, digest: string, fate: Fate) returns (result: Result<Directory, AdmissionRefusal>)
      modifies this
      ensures result == Home(old(disk), commonDir, digest, fate) && disk == Admitted(old(disk), commonDir, digest, fate)
    {
      hide LeastUsable;
      var chosen := ChooseDirectory(commonDir, digest, fate);
      if chosen.Err? { return chosen; }
      var dir := chosen.value;
      if dir !in disk { disk := disk[dir := NoMarker]; }
      if fate == StopsBeforeMarker { return Err(Interrupted); }
      if disk[dir] == NoMarker {
        if fate == StopsWithinMarker {
          disk := disk[dir := Unreadable];
          return Err(Interrupted);
        }
        disk := disk[dir := MarkedBy(commonDir)];
      }
      result := Ok(dir);
    }

    method EnsureRepository(snapshot: RepositorySnapshot, digest: string, fate: Fate) returns (result: Result<(U64, bool), AdmissionRefusal>)
      modifies this, state
      ensures (state.View(), disk, result) == Ensure(old(state.View()), old(disk), snapshot, digest, fate)
    {
      hide LeastUsable, Home, Admitted, FindCommon;
      var known := CommonPosition(snapshot.commonDir);
      if known.Some? {
        var saved := state.repositories[known.value];
        saved := saved.(commonDir := snapshot.commonDir);
        saved := saved.(mainWorktree := snapshot.mainWorktree);
        saved := saved.(health := Available);
        state.repositories := state.repositories[known.value := saved];
        return Ok((saved.key, false));
      }
      var key := state.AllocateRepositoryKey();
      if key.None? { return Err(CountersExhausted); }
      var order := state.AllocateFirstSeenOrder();
      if order.None? { return Err(CountersExhausted); }
      var dir := AdmitDirectory(snapshot.commonDir, digest, fate);
      if dir.Err? { return Err(dir.error); }
      state.repositories := state.repositories +
        [SavedRepository(key.value, snapshot.commonDir, snapshot.mainWorktree, order.value, Available, PhysicalKey(dir.value))];
      result := Ok((key.value, dir.value.suffix != 1));
    }
  }

  /** What an admission leaves can be saved: a known repository's main worktree
      did not move, or it has no rows and no standalone stands at the new one; a
      new repository's main worktree is no standalone's. */
  ghost predicate EnsureSaves(s: StateView, disk: Disk, snapshot: RepositorySnapshot, digest: string, fate: Fate) {
    match FindCommon(s.repositories, snapshot.commonDir)
    case Some(k) =>
      s.repositories[k].mainWorktree == snapshot.mainWorktree
      || ((forall c <- s.checkouts :: c.repositoryKey != s.repositories[k].key)
          && forall t <- s.standalones :: t.canonicalPath != snapshot.mainWorktree)
    case None =>
      Successor(s.nextRepositoryKey).Some? && Successor(s.nextFirstSeenOrder).Some? && Home(disk, snapshot.commonDir, digest, fate).Ok?
      ==> forall t <- s.standalones :: t.canonicalPath != snapshot.mainWorktree
  }

  lemma ReobservingExactly(s: StateView, k: nat, snapshot: RepositorySnapshot)
    requires Saveable(s) && k < |s.repositories|
    ensures Saveable(Reobserved(s, k, snapshot)) <==>
      (s.repositories[k].mainWorktree == snapshot.mainWorktree
       || ((forall c <- s.checkouts :: c.repositoryKey != s.repositories[k].key)
           && forall t <- s.standalones :: t.canonicalPath != snapshot.mainWorktree))
  {
    hide SavedCheckout.Saveable, StandaloneSession.RuntimeAgrees;
    var s', r := Reobserved(s, k, snapshot), s.repositories[k];
    if r.mainWorktree == snapshot.mainWorktree {
      ShapeDecidesWellFormed(s, s');
    } else {
      if Saveable(s') { MovedMainHasNoRows(s, k, snapshot); }
      if (forall c <- s.checkouts :: c.repositoryKey != r.key) && forall t <- s.standalones :: t.canonicalPath != snapshot.mainWorktree {
        MovingMainOfNone(s, k, snapshot);
      }
    }
  }

  lemma MovedMainHasNoRows(s: StateView, k: nat, snapshot: RepositorySnapshot)
    requires WellFormed(s) && k < |s.repositories| && s.repositories[k].mainWorktree != snapshot.mainWorktree
    requires WellFormed(Reobserved(s, k, snapshot))
    ensures forall c <- s.checkouts :: c.repositoryKey != s.repositories[k].key
    ensures forall t <- s.standalones :: t.canonicalPath != snapshot.mainWorktree
  {
    hide CountersAbove, OrdersUnique, CheckoutsCompatible, StandaloneSession.RuntimeAgrees;
    var s' := Reobserved(s, k, snapshot);
    assert s'.repositories[k].mainWorktree == snapshot.mainWorktree;
    forall c <- s.checkouts ensures c.repositoryKey != s.repositories[k].key {
      var r :| r in s.repositories && OwnedBy(c, r);
      var r' :| r' in s'.repositories && OwnedBy(c, r');
      var i :| 0 <= i < |s.repositories| && s.repositories[i] == r;
      var j :| 0 <= j < |s.repositories| && s'.repositories[j] == r';
      assert s.repositories[j].key == r'.key == r.key;
      assert i == j;
    }
  }

  /** A repository is the old one of its index, but for main worktree and health. */
  lemma ReobservedElements(s: StateView, k: nat, snapshot: RepositorySnapshot)
    requires k < |s.repositories|
    ensures var s' := Reobserved(s, k, snapshot);
      && |s'.repositories| == |s.repositories|
      && (forall i | 0 <= i < |s.repositories| && i != k :: s'.repositories[i] == s.repositories[i])
      && (forall r <- s'.repositories :: r in s.repositories || r == s'.repositories[k])
      && s'.repositories[k] == s.repositories[k].(mainWorktree := snapshot.mainWorktree, health := Available)
      && s' == s.(repositories := s'.repositories)
  {
  }

  lemma MovingMainKeepsPlacement(s: StateView, k: nat, snapshot: RepositorySnapshot)
    requires CheckoutsPlaced(s) && k < |s.repositories|
    requires forall c <- s.checkouts :: c.repositoryKey != s.repositories[k].key
    ensures CheckoutsPlaced(Reobserved(s, k, snapshot))
  {
    hide CheckoutsCompatible, Reobserved;
    ReobservedElements(s, k, snapshot);
    var s' := Reobserved(s, k, snapshot);
    forall c <- s.checkouts ensures exists r <- s'.repositories :: OwnedBy(c, r) {
      var r :| r in s.repositories && OwnedBy(c, r);
      var i :| 0 <= i < |s.repositories| && s.repositories[i] == r;
      assert s'.repositories[i] == r;
    }
  }

  lemma MovingMainKeepsTheRest(s: StateView, k: nat, snapshot: RepositorySnapshot)
    requires CountersAbove(s) && RepositoriesDistinct(s) && StandalonesPlaced(s) && k < |s.repositories|
    requires forall t <- s.standalones :: t.canonicalPath != snapshot.mainWorktree
    ensures var s' := Reobserved(s, k, snapshot); CountersAbove(s') && RepositoriesDistinct(s') && StandalonesPlaced(s')
  {
    hide Reobserved, StandaloneSession.RuntimeAgrees;
    ReobservedElements(s, k, snapshot);
    assert s.repositories[k] in s.repositories;
  }

  lemma MovingMainKeepsOrders(s: StateView, k: nat, snapshot: RepositorySnapshot)
    requires OrdersUnique(s) && k < |s.repositories|
    ensures OrdersUnique(Reobserved(s, k, snapshot))
  {
    hide Reobserved;
    ReobservedElements(s, k, snapshot);
    assert s.repositories[k] in s.repositories;
  }

  lemma MovingMainOfNone(s: StateView, k: nat, snapshot: RepositorySnapshot)
    requires Saveable(s) && k < |s.repositories|
    requires forall c <- s.checkouts :: c.repositoryKey != s.repositories[k].key
    requires forall t <- s.standalones :: t.canonicalPath != snapshot.mainWorktree
    ensures Saveable(Reobserved(s, k, snapshot))
  {
    hide CountersAbove, RepositoriesDistinct, CheckoutsPlaced, StandalonesPlaced, OrdersUnique, SavedCheckout.Saveable;
    MovingMainKeepsPlacement(s, k, snapshot);
    MovingMainKeepsTheRest(s, k, snapshot);
    MovingMainKeepsOrders(s, k, snapshot);
  }

  function Counted(s: StateView): StateView {
    s.(nextRepositoryKey := Advanced(s.nextRepositoryKey), nextFirstSeenOrder := Advanced(s.nextFirstSeenOrder))
  }

  /** The state with one more repository, under numbers just handed out. */
  function Joined(s: StateView, snapshot: RepositorySnapshot, physicalKey: string): StateView {
    WithRepository(Counted(s), s.nextRepositoryKey, s.nextFirstSeenOrder, snapshot, physicalKey)
  }

  lemma JoinedElements(s: StateView, snapshot: RepositorySnapshot, physicalKey: string)
    ensures var s', n := Joined(s, snapshot, physicalKey), |s.repositories|;
      && s' == Counted(s).(repositories := s'.repositories)
      && |s'.repositories| == n + 1 && s'.repositories[n] in s'.repositories
      && s'.repositories[n].key == s.nextRepositoryKey && s'.repositories[n].firstSeenOrder == s.nextFirstSeenOrder
      && s'.repositories[n].commonDir == snapshot.commonDir && s'.repositories[n].mainWorktree == snapshot.mainWorktree
      && (forall i | 0 <= i < n :: s'.repositories[i] == s.repositories[i])
      && (forall q <- s.repositories :: q in s'.repositories)
      && (forall q <- s'.repositories :: q in s.repositories || q == s'.repositories[n])
  {
  }

  lemma JoiningKeepsCounters(s: StateView, snapshot: RepositorySnapshot, physicalKey: string)
    requires CountersAbove(s) && Successor(s.nextRepositoryKey).Some? && Successor(s.nextFirstSeenOrder).Some?
    ensures CountersAbove(Joined(s, snapshot, physicalKey))
  {
    hide Joined;
    JoinedElements(s, snapshot, physicalKey);
  }

  lemma JoiningKeepsOrders(s: StateView, snapshot: RepositorySnapshot, physicalKey: string)
    requires CountersAbove(s) && OrdersUnique(s)
    ensures OrdersUnique(Joined(s, snapshot, physicalKey))
  {
    hide Joined;
    JoinedElements(s, snapshot, physicalKey);
  }

  lemma JoiningKeepsRepositories(s: StateView, snapshot: RepositorySnapshot, physicalKey: string)
    requires CountersAbove(s) && RepositoriesDistinct(s) && forall r <- s.repositories :: r.commonDir != snapshot.commonDir
    ensures RepositoriesDistinct(Joined(s, snapshot, physicalKey))
  {
    hide Joined;
    JoinedElements(s, snapshot, physicalKey);
  }

  lemma JoiningKeepsPlacement(s: StateView, snapshot: RepositorySnapshot, physicalKey: string)
    requires CheckoutsPlaced(s) && StandalonesPlaced(s)
    ensures CheckoutsPlaced(Joined(s, snapshot, physicalKey))
    ensures StandalonesPlaced(Joined(s, snapshot, physicalKey)) <==> forall t <- s.standalones :: t.canonicalPath != snapshot.mainWorktree
  {
    hide Joined, CheckoutsCompatible, OwnedBy, StandaloneSession.RuntimeAgrees;
    JoinedElements(s, snapshot, physicalKey);
    var s' := Joined(s, snapshot, physicalKey);
    forall c <- s'.checkouts ensures exists r <- s'.repositories :: OwnedBy(c, r) {
      var r :| r in s.repositories && OwnedBy(c, r);
    }
  }

  lemma NewRepositoryExactly(s: StateView, snapshot: RepositorySnapshot, physicalKey: string)
    requires Saveable(s) && Successor(s.nextRepositoryKey).Some? && Successor(s.nextFirstSeenOrder).Some?
    requires forall r <- s.repositories :: r.commonDir != snapshot.commonDir
    ensures Saveable(Joined(s, snapshot, physicalKey)) <==> forall t <- s.standalones :: t.canonicalPath != snapshot.mainWorktree
  {
    hide CountersAbove, RepositoriesDistinct, CheckoutsPlaced, StandalonesPlaced, OrdersUnique, SavedCheckout.Saveable;
    JoiningKeepsCounters(s, snapshot, physicalKey);
    JoiningKeepsRepositories(s, snapshot, physicalKey);
    JoiningKeepsPlacement(s, snapshot, physicalKey);
    JoiningKeepsOrders(s, snapshot, physicalKey);
  }

  /** An admission of a saveable state leaves one that can be saved under exactly that condition. */
  lemma EnsureSavesExactly(s: StateView, disk: Disk, snapshot: RepositorySnapshot, digest: string, fate: Fate)
    requires Saveable(s)
    ensures Saveable(Ensure(s, disk, snapshot, digest, fate).0) <==> EnsureSaves(s, disk, snapshot, digest, fate)
  {
    hide Saveable, WellFormed, Home, Admitted, FindCommon, Successor, Advanced;
    var known := FindCommon(s.repositories, snapshot.commonDir);
    if known.Some? {
      ReobservingExactly(s, known.value, snapshot);
    } else {
      CountingKeepsSaveable(s);
      var home := Home(disk, snapshot.commonDir, digest, fate);
      if Successor(s.nextRepositoryKey).Some? && Successor(s.nextFirstSeenOrder).Some? && home.Ok? {
        NewRepositoryExactly(s, snapshot, PhysicalKey(home.value));
      }
    }
  }

  lemma CountingKeepsSaveable(s: StateView)
    requires Saveable(s)
    ensures Saveable(s.(nextRepositoryKey := Advanced(s.nextRepositoryKey)))
    ensures Saveable(s.(nextRepositoryKey := Advanced(s.nextRepositoryKey), nextFirstSeenOrder := Advanced(s.nextFirstSeenOrder)))
  {
    hide RepositoriesDistinct, CheckoutsPlaced, StandalonesPlaced, OrdersUnique, SavedCheckout.Saveable;
    AdvanceKeepsSaveable(s, s.(nextRepositoryKey := Advanced(s.nextRepositoryKey)));
    AdvanceKeepsSaveable(s, s.(nextRepositoryKey := Advanced(s.nextRepositoryKey), nextFirstSeenOrder := Advanced(s.nextFirstSeenOrder)));
  }

  // ----- Losing the state -----

  datatype Request = Request(commonDir: Path, digest: string, fate: Fate)

  function AdmitAll(disk: Disk, requests: seq<Request>): Disk
    decreases requests
  {
    if requests == [] then disk
    else AdmitAll(Admitted(disk, requests[0].commonDir, requests[0].digest, requests[0].fate), requests[1..])
  }

  /** Nothing on disk is deleted or rewritten. */
  predicate Grows(before: Disk, after: Disk) {
    forall dir <- before :: dir in after && after[dir] == before[dir]
  }

  lemma {:induction false} AdmissionsOnlyAdd(disk: Disk, requests: seq<Request>)
    ensures Grows(disk, AdmitAll(disk, requests))
    decreases requests
  {
    hide LeastUsable;
    if requests != [] {
      var r := requests[0];
      AdmissionsOnlyAdd(Admitted(disk, r.commonDir, r.digest, r.fate), requests[1..]);
    }
  }

  lemma LeastIs(disk: Disk, digest: string, commonDir: Path, from: nat, s: nat)
    requires from <= s <= MAX_SUFFIX && Usable(disk, Directory(digest, s), commonDir)
    requires forall k: nat | from <= k < s :: !Usable(disk, Directory(digest, k), commonDir)
    ensures LeastUsable(disk, digest, commonDir, from) == Some(s)
  {
  }

  /** An admitted repository owns its directory, and no earlier candidate could have held it. */
  lemma AdmittedIsOwner(disk: Disk, commonDir: Path, digest: string, fate: Fate)
    requires Home(disk, commonDir, digest, fate).Ok?
    ensures var dir, after := Home(disk, commonDir, digest, fate).value, Admitted(disk, commonDir, digest, fate);
      && dir.digest == digest && Ours(after, dir, commonDir)
      && forall s: nat | 1 <= s < dir.suffix :: Collides(after, Directory(digest, s), commonDir)
  {
    hide LeastUsable;
  }

  /** With nothing deleted, a repository admitted again after its state is lost
      lands on the directory it had, suffixed or not, whatever other admissions,
      finished or broken off, came between; and nothing more is written. */
  lemma ReadmissionComesHome(disk: Disk, commonDir: Path, digest: string, fate: Fate, between: seq<Request>)
    requires Home(disk, commonDir, digest, fate).Ok?
    ensures var later := AdmitAll(Admitted(disk, commonDir, digest, fate), between);
      && Home(later, commonDir, digest, Completes) == Home(disk, commonDir, digest, fate)
      && Admitted(later, commonDir, digest, Completes) == later
  {
    hide LeastUsable, AdmitAll;
    var dir, after := Home(disk, commonDir, digest, fate).value, Admitted(disk, commonDir, digest, fate);
    var later := AdmitAll(after, between);
    AdmittedIsOwner(disk, commonDir, digest, fate);
    AdmissionsOnlyAdd(after, between);
    assert Ours(later, dir, commonDir) && Usable(later, dir, commonDir);
    forall s: nat | 1 <= s < dir.suffix ensures !Usable(later, Directory(digest, s), commonDir) {
      assert Collides(after, Directory(digest, s), commonDir);
      assert Directory(digest, s) in after;
    }
    LeastIs(later, digest, commonDir, 1, dir.suffix);
  }

  /** At the level of the state: admitted again to any state that does not know
      it, the repository gets back the physical key it had. */
  lemma ReadmissionRestoresPhysicalKey(s: StateView, disk: Disk, snapshot: RepositorySnapshot, digest: string, fate: Fate,
                                       between: seq<Request>, lost: StateView)
    requires FindCommon(s.repositories, snapshot.commonDir).None? && Ensure(s, disk, snapshot, digest, fate).2.Ok?
    requires FindCommon(lost.repositories, snapshot.commonDir).None?
    requires Successor(lost.nextRepositoryKey).Some? && Successor(lost.nextFirstSeenOrder).Some?
    ensures var first := Ensure(s, disk, snapshot, digest, fate);
      var again := Ensure(lost, AdmitAll(first.1, between), snapshot, digest, Completes);
      && again.2.Ok? && again.1 == AdmitAll(first.1, between)
      && again.0.repositories[|lost.repositories|].physicalKey == first.0.repositories[|s.repositories|].physicalKey
  {
    hide Home, Admitted, AdmitAll, FindCommon;
    ReadmissionComesHome(disk, snapshot.commonDir, digest, fate, between);
  }

  /** No two repositories are ever at home in one directory, even when their digests collide. */
  lemma HomesAreDistinct(disk: Disk, a: Request, between: seq<Request>, b: Request)
    requires a.commonDir != b.commonDir
    requires Home(disk, a.commonDir, a.digest, a.fate).Ok?
    ensures var later := AdmitAll(Admitted(disk, a.commonDir, a.digest, a.fate), between);
      Home(later, b.commonDir, b.digest, b.fate) != Home(disk, a.commonDir, a.digest, a.fate)
  {
    hide LeastUsable, AdmitAll;
    AdmittedIsOwner(disk, a.commonDir, a.digest, a.fate);
    AdmissionsOnlyAdd(Admitted(disk, a.commonDir, a.digest, a.fate), between);
  }

  /** The key tells directories apart: of one digest always, and of two digests that hold no dash. */
  lemma PhysicalKeyIsInjective(a: Directory, b: Directory)
    requires a.digest == b.digest || ('-' !in a.digest && '-' !in b.digest)
    ensures PhysicalKey(a) == PhysicalKey(b) <==> a == b
  {
    hide Decimal;
    var x, y := PhysicalKey(a), PhysicalKey(b);
    DecimalIsInjective(a.suffix, b.suffix);
    if a.suffix != 1 { assert x[|a.digest|] == '-' && x[..|a.digest|] == a.digest && x[|a.digest| + 1..] == Decimal(a.suffix); }
    if b.suffix != 1 { assert y[|b.digest|] == '-' && y[..|b.digest|] == b.digest && y[|b.digest| + 1..] == Decimal(b.suffix); }
    assert forall k | 0 <= k < |a.digest| :: x[k] == a.digest[k];
    assert forall k | 0 <= k < |b.digest| :: y[k] == b.digest[k];
  }

  /** What an admission of a new repository records and answers: a fresh key and
      order, Git's common directory and main worktree, the key of the directory
      it got, and a collision exactly when the plain name was somebody else's. */
  lemma AdmissionRecords(s: StateView, disk: Disk, snapshot: RepositorySnapshot, digest: string, fate: Fate)
    requires FindCommon(s.repositories, snapshot.commonDir).None? && Ensure(s, disk, snapshot, digest, fate).2.Ok?
    ensures var (after, disk', r) := Ensure(s, disk, snapshot, digest, fate);
      && after.repositories[..|s.repositories|] == s.repositories && |after.repositories| == |s.repositories| + 1
      && var row := after.repositories[|s.repositories|];
        && row.key == s.nextRepositoryKey == r.value.0 && row.firstSeenOrder == s.nextFirstSeenOrder
        && after.nextRepositoryKey == s.nextRepositoryKey + 1 && after.nextFirstSeenOrder == s.nextFirstSeenOrder + 1
        && row.commonDir == snapshot.commonDir && row.mainWorktree == snapshot.mainWorktree && row.health.Available?
        && (r.value.1 <==> Collides(disk, Directory(digest, 1), snapshot.commonDir))
        && (!r.value.1 ==> row.physicalKey == digest)
        && exists suffix: nat | 1 <= suffix <= MAX_SUFFIX ::
          Ours(disk', Directory(digest, suffix), snapshot.commonDir) && row.physicalKey == PhysicalKey(Directory(digest, suffix))
  {
    hide LeastUsable, Home, Admitted, FindCommon;
    HomeIs(disk, snapshot.commonDir, digest, fate);
    AdmittedIsOwner(disk, snapshot.commonDir, digest, fate);
  }

  lemma HomeIs(disk: Disk, commonDir: Path, digest: string, fate: Fate)
    requires Home(disk, commonDir, digest, fate).Ok?
    ensures var dir := Home(disk, commonDir, digest, fate).value;
      dir.digest == digest && 1 <= dir.suffix <= MAX_SUFFIX && (dir.suffix == 1 <==> !Collides(disk, Directory(digest, 1), commonDir))
  {
    hide LeastUsable;
  }

  /** A known repository keeps everything but what Git was asked afresh. */
  lemma ReadmissionOfTheKnown(s: StateView, k: nat, disk: Disk, snapshot: RepositorySnapshot, digest: string, fate: Fate)
    requires FindCommon(s.repositories, snapshot.commonDir) == Some(k)
    ensures var (after, disk', r) := Ensure(s, disk, snapshot, digest, fate);
      && r == Ok((s.repositories[k].key, false)) && disk' == disk
      && after == s.(repositories := s.repositories[k := s.repositories[k].(mainWorktree := snapshot.mainWorktree, health := Available)])
  {
  }

  /** Two repositories admitted to one disk, with nothing deleted, never carry
      one physical key, whatever admissions come between and whatever state
      either is admitted to, equal digests included. */
  lemma PhysicalKeysAreDistinct(s: StateView, disk: Disk, a: RepositorySnapshot, digestA: string, fateA: Fate, between: seq<Request>,
                                t: StateView, b: RepositorySnapshot, digestB: string, fateB: Fate)
    requires a.commonDir != b.commonDir && (digestA == digestB || ('-' !in digestA && '-' !in digestB))
    requires FindCommon(s.repositories, a.commonDir).None? && Ensure(s, disk, a, digestA, fateA).2.Ok?
    requires FindCommon(t.repositories, b.commonDir).None?
    requires Ensure(t, AdmitAll(Ensure(s, disk, a, digestA, fateA).1, between), b, digestB, fateB).2.Ok?
    ensures var first := Ensure(s, disk, a, digestA, fateA);
      var second := Ensure(t, AdmitAll(first.1, between), b, digestB, fateB);
      first.0.repositories[|s.repositories|].physicalKey != second.0.repositories[|t.repositories|].physicalKey
  {
    hide LeastUsable, Home, Admitted, FindCommon, AdmitAll, PhysicalKey;
    var later := AdmitAll(Admitted(disk, a.commonDir, digestA, fateA), between);
    HomeIs(disk, a.commonDir, digestA, fateA);
    HomeIs(later, b.commonDir, digestB, fateB);
    HomesAreDistinct(disk, Request(a.commonDir, digestA, fateA), between, Request(b.commonDir, digestB, fateB));
    PhysicalKeyIsInjective(Home(disk, a.commonDir, digestA, fateA).value, Home(later, b.commonDir, digestB, fateB).value);
  }

  /** Suffix `s` is free and every smaller name is somebody else's. */
  predicate FirstFree(disk: Disk, digest: string, commonDir: Path, s: nat) {
    && 1 <= s <= MAX_SUFFIX && Directory(digest, s) !in disk
    && forall k: nat | 1 <= k < s :: Collides(disk, Directory(digest, k), commonDir)
  }

  /** A failing creation interrupts an admission exactly when it comes to that
      creation: of the base when the plain name is somebody else's, of a directory
      or the text of its marker when the home is a free name, of a marker whenever
      there is a home. */
  lemma InterruptedExactly(disk: Disk, commonDir: Path, digest: string, fate: Fate)
    ensures Home(disk, commonDir, digest, fate) == Err(Interrupted) <==> match fate
      case Completes => false
      case StopsAtBase => Collides(disk, Directory(digest, 1), commonDir)
      case StopsBeforeMarker => exists s: nat | 1 <= s <= MAX_SUFFIX :: Usable(disk, Directory(digest, s), commonDir)
      case _ => exists s: nat :: FirstFree(disk, digest, commonDir, s)
  {
    var least := LeastUsable(disk, digest, commonDir, 1);
    if least.Some? && Directory(digest, least.value) !in disk { assert FirstFree(disk, digest, commonDir, least.value); }
  }

  /** An admission that is not broken off is refused exactly when all thousand names are taken by others. */
  lemma RefusedOnlyWhenFull(disk: Disk, commonDir: Path, digest: string)
    ensures Home(disk, commonDir, digest, Completes).Err?
      <==> forall s: nat | 1 <= s <= 1000 :: Collides(disk, Directory(digest, s), commonDir)
  {
    hide LeastUsable;
    var least := LeastUsable(disk, digest, commonDir, 1);
    if least.None? {
      forall s: nat | 1 <= s <= MAX_SUFFIX ensures Collides(disk, Directory(digest, s), commonDir) {
        assert !Usable(disk, Directory(digest, s), commonDir);
      }
    } else {
      assert Usable(disk, Directory(digest, least.value), commonDir);
    }
  }
}
