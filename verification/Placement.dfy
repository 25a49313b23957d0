/** When a checkout row may be put into a well-formed state, in place of a row
    or behind the last one. */
module Placement {
  import opened Repository

  /** `row` in place of row `i`, or appended when `i` is the length. */
  function Placed(s: StateView, i: nat, row: SavedCheckout): StateView
    requires i <= |s.checkouts|
  {
    s.(checkouts := if i < |s.checkouts| then s.checkouts[i := row] else s.checkouts + [row])
  }

  /** The row's numbers are handed out and its order is nobody else's. */
  ghost predicate NumbersFit(s: StateView, i: nat, row: SavedCheckout) {
    && row.key < s.nextCheckoutKey && row.firstSeenOrder < s.nextFirstSeenOrder
    && (forall r <- s.repositories :: r.firstSeenOrder != row.firstSeenOrder)
    && (forall t <- s.standalones :: t.firstSeenOrder != row.firstSeenOrder)
    && (forall j | 0 <= j < |s.checkouts| && j != i :: s.checkouts[j].firstSeenOrder != row.firstSeenOrder)
  }

  /** Its repository is on record, its path is no standalone's, and every other row tolerates it. */
  ghost predicate PlaceFits(s: StateView, i: nat, row: SavedCheckout) {
    && (exists r <- s.repositories :: OwnedBy(row, r))
    && (forall t <- s.standalones :: t.canonicalPath != row.observedPath)
    && (forall j | 0 <= j < |s.checkouts| && j != i :: CheckoutsCompatible(s.checkouts[j], row))
  }

  /** What has to be checked of the state and the row before it is put there. */
  ghost predicate Fits(s: StateView, i: nat, row: SavedCheckout) {
    NumbersFit(s, i, row) && PlaceFits(s, i, row)
  }

  lemma PlacedAtIndex(s: StateView, i: nat, row: SavedCheckout)
    requires i <= |s.checkouts|
    ensures var rows := Placed(s, i, row).checkouts;
      && i < |rows| && rows[i] == row && row in rows && |rows| >= |s.checkouts|
      && (forall j | 0 <= j < |rows| && j != i :: j < |s.checkouts| && rows[j] == s.checkouts[j] && rows[j] in s.checkouts)
      && (forall j | 0 <= j < |s.checkouts| && j != i :: rows[j] == s.checkouts[j])
      && (forall c <- rows :: c == row || c in s.checkouts)
  {
  }

  lemma FittingPlace(s: StateView, i: nat, row: SavedCheckout)
    requires CheckoutsPlaced(s) && StandalonesPlaced(s) && i <= |s.checkouts| && PlaceFits(s, i, row)
    ensures CheckoutsPlaced(Placed(s, i, row)) && StandalonesPlaced(Placed(s, i, row))
  {
    hide OwnedBy, Placed;
    var s' := Placed(s, i, row);
    PlacedKeepsTheRest(s, i, row);
    PlacedAtIndex(s, i, row);
    forall a, b | 0 <= a < b < |s'.checkouts| ensures CheckoutsCompatible(s'.checkouts[a], s'.checkouts[b]) {
      var x, y := s'.checkouts[a], s'.checkouts[b];
      if a == i { assert y == s.checkouts[b] && CheckoutsCompatible(s.checkouts[b], row); }
      else if b != i { assert x == s.checkouts[a] && y == s.checkouts[b] && CheckoutsCompatible(s.checkouts[a], s.checkouts[b]); }
    }
  }

  lemma PlacedKeepsTheRest(s: StateView, i: nat, row: SavedCheckout)
    requires i <= |s.checkouts|
    ensures Placed(s, i, row) == s.(checkouts := Placed(s, i, row).checkouts)
  {
  }

  lemma FittingNumbers(s: StateView, i: nat, row: SavedCheckout)
    requires CountersAbove(s) && OrdersUnique(s) && i <= |s.checkouts| && NumbersFit(s, i, row)
    ensures CountersAbove(Placed(s, i, row)) && OrdersUnique(Placed(s, i, row))
  {
    hide Placed;
    PlacedKeepsTheRest(s, i, row);
    PlacedAtIndex(s, i, row);
  }

  lemma PlacedNumbers(s: StateView, i: nat, row: SavedCheckout)
    requires i <= |s.checkouts| && CountersAbove(Placed(s, i, row)) && OrdersUnique(Placed(s, i, row))
    ensures NumbersFit(s, i, row)
  {
    hide Placed;
    PlacedKeepsTheRest(s, i, row);
    PlacedAtIndex(s, i, row);
    var rows := Placed(s, i, row).checkouts;
    forall j | 0 <= j < |s.checkouts| && j != i ensures s.checkouts[j].firstSeenOrder != row.firstSeenOrder {
      assert rows[j] == s.checkouts[j] && rows[i] == row;
    }
  }

  lemma PlacedPlace(s: StateView, i: nat, row: SavedCheckout)
    requires i <= |s.checkouts| && CheckoutsPlaced(Placed(s, i, row)) && StandalonesPlaced(Placed(s, i, row))
    ensures PlaceFits(s, i, row)
  {
    hide OwnedBy, Placed;
    PlacedKeepsTheRest(s, i, row);
    PlacedAtIndex(s, i, row);
    var rows := Placed(s, i, row).checkouts;
    forall j | 0 <= j < |s.checkouts| && j != i ensures CheckoutsCompatible(s.checkouts[j], row) {
      assert CheckoutsCompatible(rows[if j < i then j else i], rows[if j < i then i else j]);
    }
  }

  /** Putting a row into a well-formed state leaves it well formed exactly when the row fits. */
  lemma PlacedExactly(s: StateView, i: nat, row: SavedCheckout)
    requires WellFormed(s) && i <= |s.checkouts|
    ensures WellFormed(Placed(s, i, row)) <==> Fits(s, i, row)
  {
    hide CountersAbove, OrdersUnique, CheckoutsPlaced, StandalonesPlaced, NumbersFit, PlaceFits;
    if Fits(s, i, row) {
      FittingNumbers(s, i, row);
      FittingPlace(s, i, row);
    }
    if WellFormed(Placed(s, i, row)) {
      PlacedNumbers(s, i, row);
      PlacedPlace(s, i, row);
    }
  }

  /** ... and a saveable one saveable exactly when the row also passes its own check. */
  lemma PlacedSavesExactly(s: StateView, i: nat, row: SavedCheckout)
    requires Saveable(s) && i <= |s.checkouts|
    ensures Saveable(Placed(s, i, row)) <==> Fits(s, i, row) && row.Saveable()
  {
    hide WellFormed, Fits, SavedCheckout.Saveable, Placed;
    PlacedExactly(s, i, row);
    PlacedAtIndex(s, i, row);
  }

  // ----- What a well-formed state says of one of its rows -----

  lemma SaveableIsWellFormed(s: StateView)
    requires Saveable(s)
    ensures WellFormed(s)
  {
  }

  lemma PlacedRow(s: StateView, i: nat)
    requires WellFormed(s) && i < |s.checkouts|
    ensures exists r <- s.repositories :: OwnedBy(s.checkouts[i], r)
  {
    assert s.checkouts[i] in s.checkouts;
  }

  /** The repository a row of a well-formed state stands in. */
  lemma RepositoryOf(s: StateView, i: nat)
    requires WellFormed(s) && i < |s.checkouts|
    ensures var found := FindRepository(s.repositories, s.checkouts[i].repositoryKey);
      found.Some? && OwnedBy(s.checkouts[i], s.repositories[found.value])
  {
    hide CountersAbove, StandalonesPlaced, OrdersUnique, CheckoutsCompatible;
    PlacedRow(s, i);
    var r :| r in s.repositories && OwnedBy(s.checkouts[i], r);
    var found := FindRepository(s.repositories, s.checkouts[i].repositoryKey).value;
    var k :| 0 <= k < |s.repositories| && s.repositories[k] == r;
    assert k == found;
  }

  lemma KeysDiffer(s: StateView, i: nat)
    requires WellFormed(s) && i < |s.checkouts|
    ensures forall j | 0 <= j < |s.checkouts| && j != i :: s.checkouts[j].key != s.checkouts[i].key
  {
    forall j | 0 <= j < |s.checkouts| && j != i ensures s.checkouts[j].key != s.checkouts[i].key {
      if j < i { assert CheckoutsCompatible(s.checkouts[j], s.checkouts[i]); }
      else { assert CheckoutsCompatible(s.checkouts[i], s.checkouts[j]); }
    }
  }

  /** The session describes the place the row already stands at. */
  predicate SamePlace(row: SavedCheckout, session: RetainedSession) {
    session.cwd == row.session.cwd && session.repoRoot == row.session.repoRoot && session.isWorktree == row.session.isWorktree
  }

  /** Rows of one repository agree on its main worktree. */
  lemma MainWorktreeIsShared(s: StateView, c: SavedCheckout, s': StateView, d: SavedCheckout)
    requires WellFormed(s) && WellFormed(s') && s'.repositories == s.repositories
    requires c in s.checkouts && d in s'.checkouts && c.repositoryKey == d.repositoryKey
    ensures c.session.repoRoot == d.session.repoRoot
  {
    hide CountersAbove, StandalonesPlaced, OrdersUnique, CheckoutsCompatible;
    var i :| 0 <= i < |s.checkouts| && s.checkouts[i] == c;
    var j :| 0 <= j < |s'.checkouts| && s'.checkouts[j] == d;
    RepositoryOf(s, i);
    RepositoryOf(s', j);
  }

  /** A version of a row that still belongs to its repository and path stands at the same place. */
  lemma OneOwner(s: StateView, i: nat, row: SavedCheckout)
    requires WellFormed(s) && i < |s.checkouts| && row.repositoryKey == s.checkouts[i].repositoryKey && row.observedPath == s.checkouts[i].observedPath
    requires WellFormed(s.(checkouts := s.checkouts[i := row]))
    ensures SamePlace(s.checkouts[i], row.session)
  {
    hide CountersAbove, StandalonesPlaced, OrdersUnique, CheckoutsCompatible;
    var s' := s.(checkouts := s.checkouts[i := row]);
    assert s'.checkouts[i] == row;
    RepositoryOf(s, i);
    RepositoryOf(s', i);
  }
}
