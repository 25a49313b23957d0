/** When a desktop banner is posted: one state machine over ticks of sidebar
    rows (baude/src/notify_desktop.rs). */
module DesktopNotifier {
  import opened Prelude

  const WAITING_DEBOUNCE_MS: nat := 10_000

  datatype Status = Waiting | Busy | Completed | Exited

  datatype Kind = NeedsInput | NeedsPermission | Finished | Gone

  datatype Row = Row(key: string, name: string, status: Status, waitingFor: Option<U64>, reason: Option<string>, archived: bool) {
    predicate IsPermission() {
      reason == Some("permission")
    }

    function Waited(): nat {
      if waitingFor.Some? then waitingFor.value else 0
    }
  }

  /** What is posted, with the row and the reason it is posted for. */
  datatype Banner = Banner(key: string, kind: Kind, title: string, body: string, sound: Option<string>)

  /** The calm banners, an exit and a finished turn, are silent. */
  function BannerFor(r: Row, kind: Kind): Banner {
    match kind
    case NeedsInput => Banner(r.key, kind, r.name + " is waiting for you", "", Some("Glass"))
    case NeedsPermission => Banner(r.key, kind, r.name + " needs permission", "wants to run a tool — approve?", Some("Glass"))
    case Finished => Banner(r.key, kind, r.name + " finished", "", None)
    case Gone => Banner(r.key, kind, r.name + " exited", "", None)
  }

  datatype State = State(
    waiting: set<string>, permission: set<string>, completed: set<string>, exited: set<string>, lastStatus: map<string, Status>)
  {
    /** The key has had its banner of this kind and is not re-armed yet. */
    predicate Notified(kind: Kind, key: string) {
      match kind
      case NeedsInput => key in waiting
      case NeedsPermission => key in permission
      case Finished => key in completed
      case Gone => key in exited
    }

    function Last(key: string): Option<Status> {
      if key in lastStatus then Some(lastStatus[key]) else None
    }

    /** Everything about keys that are gone is forgotten. */
    function Retain(live: set<string>): State {
      State(waiting * live, permission * live, completed * live, exited * live,
            map key | key in lastStatus && key in live :: lastStatus[key])
    }
  }

  const INITIAL := State({}, {}, {}, {}, map[])

  function Keys(rows: seq<Row>): set<string> {
    set r | r in rows :: r.key
  }

  /** One row: the new state, and the banner it posts if it does. */
  function RowStep(s: State, r: Row): (State, seq<Banner>) {
    var prev := s.Last(r.key);
    var s1 := s.(lastStatus := s.lastStatus[r.key := r.status]);
    if r.archived then
      (s1.(waiting := s1.waiting - {r.key}, permission := s1.permission - {r.key}, completed := s1.completed - {r.key}), [])
    else
      var s2 := if r.IsPermission() then s1 else s1.(permission := s1.permission - {r.key});
      match r.status
      case Waiting =>
        if r.IsPermission() then
          (s2.(permission := s2.permission + {r.key}), if r.key in s2.permission then [] else [BannerFor(r, NeedsPermission)])
        else if r.Waited() >= WAITING_DEBOUNCE_MS && r.key !in s2.waiting then
          (s2.(waiting := s2.waiting + {r.key}), [BannerFor(r, NeedsInput)])
        else (s2, [])
      case Completed =>
        if prev == Some(Busy) && r.key !in s2.completed then
          (s2.(completed := s2.completed + {r.key}), [BannerFor(r, Finished)])
        else (s2, [])
      case Exited =>
        if prev.Some? && prev != Some(Exited) && r.key !in s2.exited then
          (s2.(exited := s2.exited + {r.key}), [BannerFor(r, Gone)])
        else (s2, [])
      case Busy => (s2.(waiting := s2.waiting - {r.key}, completed := s2.completed - {r.key}), [])
  }

  function Rows(s: State, rows: seq<Row>): (State, seq<Banner>) {
    if rows == [] then (s, [])
    else
      var (s', out) := Rows(s, rows[..|rows| - 1]);
      var (s'', more) := RowStep(s', rows[|rows| - 1]);
      (s'', out + more)
  }

  function Ticked(s: State, rows: seq<Row>): (State, seq<Banner>) {
    Rows(s.Retain(Keys(rows)), rows)
  }

  class DesktopNotifier {
    var notifiedWaiting: set<string>
    var notifiedPermission: set<string>
    var notifiedCompleted: set<string>
    var notifiedExited: set<string>
    var lastStatus: map<string, Status>

    function Current(): State
      reads this
    {
      State(notifiedWaiting, notifiedPermission, notifiedCompleted, notifiedExited, lastStatus)
    }

    constructor ()
      ensures Current() == INITIAL
    {
      notifiedWaiting, notifiedPermission, notifiedCompleted, notifiedExited, lastStatus := {}, {}, {}, {}, map[];
    }

    /** Visit one row; a set insertion that finds the key there posts nothing. */
    method Visit(r: Row) returns (posted: seq<Banner>)
      modifies this
      ensures (Current(), posted) == RowStep(old(Current()), r)
    {
      posted := [];
      var prev := Current().Last(r.key);
      lastStatus := lastStatus[r.key := r.status];
      if r.archived {
        notifiedWaiting := notifiedWaiting - {r.key};
        notifiedPermission := notifiedPermission - {r.key};
        notifiedCompleted := notifiedCompleted - {r.key};
        return;
      }
      if !r.IsPermission() { notifiedPermission := notifiedPermission - {r.key}; }
      match r.status {
        case Waiting =>
          if r.IsPermission() {
            if r.key !in notifiedPermission { posted := [Banner(r.key, NeedsPermission, r.name + " needs permission", "wants to run a tool — approve?", Some("Glass"))]; }
            notifiedPermission := notifiedPermission + {r.key};
          } else if r.Waited() >= WAITING_DEBOUNCE_MS && r.key !in notifiedWaiting {
            notifiedWaiting := notifiedWaiting + {r.key};
            posted := [Banner(r.key, NeedsInput, r.name + " is waiting for you", "", Some("Glass"))];
          }
        case Completed =>
          if prev == Some(Busy) && r.key !in notifiedCompleted {
            notifiedCompleted := notifiedCompleted + {r.key};
            posted := [Banner(r.key, Finished, r.name + " finished", "", None)];
          }
        case Exited =>
          if prev.Some? && prev != Some(Exited) && r.key !in notifiedExited {
            notifiedExited := notifiedExited + {r.key};
            posted := [Banner(r.key, Gone, r.name + " exited", "", None)];
          }
        case Busy =>
          notifiedWaiting := notifiedWaiting - {r.key};
          notifiedCompleted := notifiedCompleted - {r.key};
      }
    }

    method Tick(rows: seq<Row>) returns (out: seq<Banner>)
      modifies this
      ensures (Current(), out) == Ticked(old(Current()), rows)
    {
      var live := set r | r in rows :: r.key;
      notifiedWaiting := notifiedWaiting * live;
      notifiedPermission := notifiedPermission * live;
      notifiedCompleted := notifiedCompleted * live;
      notifiedExited := notifiedExited * live;
      lastStatus := map key | key in lastStatus && key in live :: lastStatus[key];
      ghost var retained := Current();
      out := [];
      for i := 0 to |rows|
        invariant (Current(), out) == Rows(retained, rows[..i])
      {
        assert rows[..i + 1][..i] == rows[..i];
        var posted := Visit(rows[i]);
        out := out + posted;
      }
      assert rows[..|rows|] == rows;
    }
  }

  // ----- One tick, key by key -----

  /** What forgets that a banner was posted. */
  predicate Rearms(kind: Kind, row: Option<Row>) {
    row.None? || match kind
      case NeedsInput => row.value.archived || row.value.status == Busy
      case NeedsPermission => row.value.archived || !row.value.IsPermission()
      case Finished => row.value.archived || row.value.status == Busy
      case Gone => false
  }

  /** What deserves a banner, given the status on the tick before. */
  predicate Deserves(kind: Kind, row: Option<Row>, prev: Option<Status>) {
    row.Some? && !row.value.archived && match kind
      case NeedsInput => row.value.status == Waiting && !row.value.IsPermission() && row.value.Waited() >= WAITING_DEBOUNCE_MS
      case NeedsPermission => row.value.status == Waiting && row.value.IsPermission()
      case Finished => row.value.status == Completed && prev == Some(Busy)
      case Gone => row.value.status == Exited && prev.Some? && prev != Some(Exited)
  }

  predicate Distinct(rows: seq<Row>) {
    forall i, j | 0 <= i < j < |rows| :: rows[i].key != rows[j].key
  }

  function RowFor(rows: seq<Row>, key: string): (row: Option<Row>)
    ensures row.Some? ==> row.value in rows && row.value.key == key
    ensures row.None? <==> key !in Keys(rows)
  {
    if rows == [] then None
    else if rows[|rows| - 1].key == key then Some(rows[|rows| - 1])
    else
      assert rows == rows[..|rows| - 1] + [rows[|rows| - 1]];
      RowFor(rows[..|rows| - 1], key)
  }

  predicate Posts(s: State, r: Row, kind: Kind) {
    Deserves(kind, Some(r), s.Last(r.key)) && !s.Notified(kind, r.key)
  }

  /** The banners of a tick, each decided from the state before it: in row order, one at most for a row. */
  function Posted(s: State, rows: seq<Row>): seq<Banner> {
    if rows == [] then []
    else
      var r := rows[|rows| - 1];
      Posted(s, rows[..|rows| - 1]) +
        if Posts(s, r, NeedsInput) then [BannerFor(r, NeedsInput)]
        else if Posts(s, r, NeedsPermission) then [BannerFor(r, NeedsPermission)]
        else if Posts(s, r, Finished) then [BannerFor(r, Finished)]
        else if Posts(s, r, Gone) then [BannerFor(r, Gone)]
        else []
  }

  /** How one key moves on a tick, by its own row or by having none. */
  predicate Moves(s: State, s': State, key: string, row: Option<Row>) {
    && s'.Last(key) == (if row.Some? then Some(row.value.status) else None)
    && forall kind :: s'.Notified(kind, key) == (!Rearms(kind, row) && (s.Notified(kind, key) || Deserves(kind, row, s.Last(key))))
  }

  predicate Same(s: State, s': State, key: string) {
    s'.Last(key) == s.Last(key) && forall kind :: s'.Notified(kind, key) == s.Notified(kind, key)
  }

  lemma RowStepPointwise(s: State, r: Row, key: string)
    ensures if key == r.key then Moves(s, RowStep(s, r).0, key, Some(r)) else Same(s, RowStep(s, r).0, key)
    ensures RowStep(s, r).1 == Posted(s, [r])
  {
    assert Posted(s, [r][..0]) == [];
  }

  /** Keys no row of the tick names are left alone; every other key moves once, by its own row. */
  lemma {:induction false} RowsPointwise(s: State, rows: seq<Row>, key: string)
    requires Distinct(rows)
    ensures var (s', row) := (Rows(s, rows).0, RowFor(rows, key));
      if row.None? then Same(s, s', key) else Moves(s, s', key, row)
  {
    hide RowStep, Rearms, Deserves, State.Notified, State.Last;
    if rows != [] {
      var init, r := rows[..|rows| - 1], rows[|rows| - 1];
      RowsPointwise(s, init, key);
      RowStepPointwise(Rows(s, init).0, r, key);
      FreshKey(rows);
    }
  }

  lemma FreshKey(rows: seq<Row>)
    requires rows != [] && Distinct(rows)
    ensures rows[|rows| - 1].key !in Keys(rows[..|rows| - 1]) && Distinct(rows[..|rows| - 1])
  {
  }

  lemma {:induction false} RowsPost(s: State, rows: seq<Row>)
    requires Distinct(rows)
    ensures Rows(s, rows).1 == Posted(s, rows)
  {
    hide RowStep, Deserves, State.Notified, State.Last;
    if rows != [] {
      var init, r := rows[..|rows| - 1], rows[|rows| - 1];
      FreshKey(rows);
      RowsPost(s, init);
      RowsPointwise(s, init, r.key);
      RowStepPointwise(Rows(s, init).0, r, r.key);
      assert [r][..0] == [];
    }
  }

  lemma RetainPointwise(s: State, rows: seq<Row>, key: string)
    ensures var r := s.Retain(Keys(rows));
      if key in Keys(rows) then Same(s, r, key) else r.Last(key).None? && forall kind :: !r.Notified(kind, key)
  {
  }

  /** A tick treats every key by its own row alone, and posts exactly what each
      row deserves and has not had, in row order. */
  lemma TickIsPointwise(s: State, rows: seq<Row>, key: string)
    requires Distinct(rows)
    ensures Moves(s, Ticked(s, rows).0, key, RowFor(rows, key))
    ensures Ticked(s, rows).1 == Posted(s, rows)
  {
    hide State.Notified, State.Last, State.Retain, RowFor;
    var live := s.Retain(Keys(rows));
    RetainPointwise(s, rows, key);
    RowsPointwise(live, rows, key);
    RowsPost(live, rows);
    PostedAgrees(s, live, rows);
  }

  lemma PostedAgrees(s: State, live: State, rows: seq<Row>)
    requires live == s.Retain(Keys(rows))
    ensures Posted(live, rows) == Posted(s, rows)
  {
    hide State.Retain, State.Notified, State.Last;
    forall r | r in rows ensures Same(s, live, r.key) { RetainPointwise(s, rows, r.key); }
    SamePosted(s, live, rows);
  }

  lemma {:induction false} SamePosted(s: State, live: State, rows: seq<Row>)
    requires forall r | r in rows :: Same(s, live, r.key)
    ensures Posted(live, rows) == Posted(s, rows)
  {
    hide Deserves, State.Notified, State.Last;
    if rows != [] { SamePosted(s, live, rows[..|rows| - 1]); }
  }

  // ----- Whole runs -----

  predicate AllDistinct(ticks: seq<seq<Row>>) {
    forall n | 0 <= n < |ticks| :: Distinct(ticks[n])
  }

  function After(ticks: seq<seq<Row>>): State {
    if ticks == [] then INITIAL else Ticked(After(ticks[..|ticks| - 1]), ticks[|ticks| - 1]).0
  }

  /** The banners of tick `n` of a run. */
  function BannersAt(ticks: seq<seq<Row>>, n: nat): seq<Banner>
    requires n < |ticks|
  {
    Ticked(After(ticks[..n]), ticks[n]).1
  }

  predicate Fired(ticks: seq<seq<Row>>, n: nat, key: string, kind: Kind)
    requires n < |ticks|
  {
    exists b <- BannersAt(ticks, n) :: b.key == key && b.kind == kind
  }

  /** The status of the tick before, if the key had a row then. */
  function Before(ticks: seq<seq<Row>>, n: nat, key: string): Option<Status>
    requires n < |ticks|
  {
    if n == 0 || RowFor(ticks[n - 1], key).None? then None else Some(RowFor(ticks[n - 1], key).value.status)
  }

  predicate RearmedBetween(ticks: seq<seq<Row>>, m: int, n: int, key: string, kind: Kind)
    requires -1 <= m <= n <= |ticks|
  {
    exists t | m < t < n :: Rearms(kind, RowFor(ticks[t], key))
  }

  lemma OneKindAtMost(s: State, r: Row, a: Kind, b: Kind)
    requires Posts(s, r, a) && Posts(s, r, b)
    ensures a == b
  {
  }

  predicate Holds(out: seq<Banner>, key: string, kind: Kind) {
    exists b <- out :: b.key == key && b.kind == kind
  }

  lemma RowPosts(s: State, r: Row, key: string, kind: Kind)
    ensures Holds(Posted(s, [r]), key, kind) <==> r.key == key && Posts(s, r, kind)
  {
    hide Posts;
    assert [r][..0] == [];
    forall other | Posts(s, r, kind) && Posts(s, r, other) ensures other == kind { OneKindAtMost(s, r, kind, other); }
  }

  lemma {:induction false} PostedHolds(s: State, rows: seq<Row>, key: string, kind: Kind)
    requires Distinct(rows)
    ensures Holds(Posted(s, rows), key, kind) <==> (RowFor(rows, key).Some? && Posts(s, RowFor(rows, key).value, kind))
  {
    hide Posts;
    if rows != [] {
      var init, r := rows[..|rows| - 1], rows[|rows| - 1];
      FreshKey(rows);
      PostedHolds(s, init, key, kind);
      RowPosts(s, r, key, kind);
      assert [r][..0] == [];
      HoldsConcat(Posted(s, init), Posted(s, [r]), key, kind);
      assert Posted(s, rows) == Posted(s, init) + Posted(s, [r]);
    }
  }

  lemma HoldsConcat(a: seq<Banner>, b: seq<Banner>, key: string, kind: Kind)
    ensures Holds(a + b, key, kind) <==> Holds(a, key, kind) || Holds(b, key, kind)
  {
  }

  lemma FiredIff(ticks: seq<seq<Row>>, n: nat, key: string, kind: Kind)
    requires AllDistinct(ticks) && n < |ticks|
    ensures Fired(ticks, n, key, kind)
      <==> (RowFor(ticks[n], key).Some? && Posts(After(ticks[..n]), RowFor(ticks[n], key).value, kind))
  {
    hide Posts, Ticked, RowFor, Distinct;
    TickIsPointwise(After(ticks[..n]), ticks[n], key);
    PostedHolds(After(ticks[..n]), ticks[n], key, kind);
  }

  lemma SamePrefix(ticks: seq<seq<Row>>, n: nat, key: string, kind: Kind)
    requires AllDistinct(ticks) && n < |ticks| - 1
    ensures var init := ticks[..|ticks| - 1];
      AllDistinct(init) && (Fired(init, n, key, kind) <==> Fired(ticks, n, key, kind))
  {
    hide After, Ticked, Distinct;
    assert ticks[..|ticks| - 1][..n] == ticks[..n];
  }

  /** After a run the state remembers, for each key, the last status and which
      banners fired since their last re-arming; nothing else. */
  lemma {:induction false} StateIsHistory(ticks: seq<seq<Row>>, key: string, kind: Kind)
    requires AllDistinct(ticks)
    ensures After(ticks).Notified(kind, key)
      <==> (exists m: nat | m < |ticks| :: Fired(ticks, m, key, kind) && !RearmedBetween(ticks, m, |ticks|, key, kind))
    ensures After(ticks).Last(key) == LastSeen(ticks, key)
  {
    hide Posts, Ticked, RowFor, Distinct, Rearms, Deserves, Fired;
    if ticks == [] {
      NothingNotified(kind, key);
    } else {
      var n := |ticks| - 1;
      var init := ticks[..n];
      assert AllDistinct(init);
      StateIsHistory(init, key, kind);
      TickIsPointwise(After(init), ticks[n], key);
      FiredIff(ticks, n, key, kind);
      FiredNeverRearms(After(init), RowFor(ticks[n], key), key, kind);
      forall m: nat | m < n ensures Fired(init, m, key, kind) <==> Fired(ticks, m, key, kind) { SamePrefix(ticks, m, key, kind); }
      forall m: nat | m < n
        ensures RearmedBetween(ticks, m, n + 1, key, kind) <==> RearmedBetween(init, m, n, key, kind) || Rearms(kind, RowFor(ticks[n], key))
      {
        RearmedOneMore(ticks, m, key, kind);
      }
    }
  }

  lemma RearmedOneMore(ticks: seq<seq<Row>>, m: nat, key: string, kind: Kind)
    requires m < |ticks| - 1
    ensures var n := |ticks| - 1;
      RearmedBetween(ticks, m, n + 1, key, kind) <==> RearmedBetween(ticks[..n], m, n, key, kind) || Rearms(kind, RowFor(ticks[n], key))
  {
    hide Rearms, RowFor;
    var n := |ticks| - 1;
    assert forall t | m < t < n :: ticks[..n][t] == ticks[t];
    if Rearms(kind, RowFor(ticks[n], key)) { assert RearmedBetween(ticks, m, n + 1, key, kind); }
  }

  lemma NothingNotified(kind: Kind, key: string)
    ensures !INITIAL.Notified(kind, key) && INITIAL.Last(key).None?
  {
  }

  lemma FiredNeverRearms(s: State, row: Option<Row>, key: string, kind: Kind)
    requires row.Some? ==> row.value.key == key
    ensures row.Some? && Posts(s, row.value, kind) ==> !Rearms(kind, row)
    ensures (row.Some? && Posts(s, row.value, kind)) <==> Deserves(kind, row, s.Last(key)) && !s.Notified(kind, key)
  {
  }

  function LastSeen(ticks: seq<seq<Row>>, key: string): Option<Status> {
    if ticks == [] || RowFor(ticks[|ticks| - 1], key).None? then None
    else Some(RowFor(ticks[|ticks| - 1], key).value.status)
  }

  /** A banner fires exactly when the row deserves it and every earlier one of
      its kind for that key has been re-armed since. */
  lemma FiresExactly(ticks: seq<seq<Row>>, n: nat, key: string, kind: Kind)
    requires AllDistinct(ticks) && n < |ticks|
    ensures Fired(ticks, n, key, kind) <==>
      && Deserves(kind, RowFor(ticks[n], key), Before(ticks, n, key))
      && forall m: nat | m < n && Fired(ticks, m, key, kind) :: RearmedBetween(ticks, m, n, key, kind)
  {
    hide Posts, Ticked, RowFor, Distinct, Rearms, Deserves, Fired;
    var init := ticks[..n];
    FiredIff(ticks, n, key, kind);
    StateIsHistory(init, key, kind);
    FiredNeverRearms(After(init), RowFor(ticks[n], key), key, kind);
    forall m: nat | m < n
      ensures Fired(init, m, key, kind) <==> Fired(ticks, m, key, kind)
      ensures RearmedBetween(init, m, n, key, kind) <==> RearmedBetween(ticks, m, n, key, kind)
    {
      PrefixFires(ticks, n, m, key, kind);
    }
  }

  lemma PrefixFires(ticks: seq<seq<Row>>, n: nat, m: nat, key: string, kind: Kind)
    requires m < n <= |ticks|
    ensures Fired(ticks[..n], m, key, kind) <==> Fired(ticks, m, key, kind)
    ensures RearmedBetween(ticks[..n], m, n, key, kind) <==> RearmedBetween(ticks, m, n, key, kind)
  {
    hide After, Ticked, Rearms, RowFor;
    assert ticks[..n][..m] == ticks[..m];
    assert forall t | m <= t < n :: ticks[..n][t] == ticks[t];
  }

  /** A finished banner fires on every edge out of a busy tick, and only there. */
  lemma FinishedFiresOnTheEdge(ticks: seq<seq<Row>>, n: nat, key: string)
    requires AllDistinct(ticks) && n < |ticks|
    ensures Fired(ticks, n, key, Finished) <==>
      var row := RowFor(ticks[n], key);
      row.Some? && !row.value.archived && row.value.status == Completed && Before(ticks, n, key) == Some(Busy)
  {
    hide Fired, RowFor, Distinct;
    FiresExactly(ticks, n, key, Finished);
    if Before(ticks, n, key) == Some(Busy) {
      FiresExactly(ticks, n - 1, key, Finished);
      forall m: nat | m < n && Fired(ticks, m, key, Finished) ensures RearmedBetween(ticks, m, n, key, Finished) {
        assert Rearms(Finished, RowFor(ticks[n - 1], key));
      }
    }
  }

  /** Between two input banners for a key there is a tick where it was busy,
      archived or absent; between two exit banners, one where it was absent. */
  lemma BannersAreSeparated(ticks: seq<seq<Row>>, m: nat, n: nat, key: string)
    requires AllDistinct(ticks) && m < n < |ticks|
    ensures Fired(ticks, m, key, NeedsInput) && Fired(ticks, n, key, NeedsInput) ==>
      exists t | m < t < n :: RowFor(ticks[t], key).None? || RowFor(ticks[t], key).value.archived || RowFor(ticks[t], key).value.status == Busy
    ensures Fired(ticks, m, key, Gone) && Fired(ticks, n, key, Gone) ==> exists t | m < t < n :: RowFor(ticks[t], key).None?
  {
    hide Fired, RowFor, Distinct;
    FiresExactly(ticks, n, key, NeedsInput);
    FiresExactly(ticks, n, key, Gone);
  }

  /** The key had no row at `t`, or an archived one. */
  predicate Away(ticks: seq<seq<Row>>, t: nat, key: string)
    requires t < |ticks|
  {
    RowFor(ticks[t], key).None? || RowFor(ticks[t], key).value.archived
  }

  /** In so many words: input is asked for after ten seconds of waiting, once
      until the row is busy or away; permission is asked for at once, once until
      it is no longer pending or the row is away; an exit is told once while the
      row is there, and only of a row seen alive on the tick before. */
  lemma BannersFireAsSaid(ticks: seq<seq<Row>>, n: nat, key: string)
    requires AllDistinct(ticks) && n < |ticks|
    ensures var row := RowFor(ticks[n], key);
      && (Fired(ticks, n, key, NeedsInput) <==>
          && !Away(ticks, n, key) && row.value.status == Waiting && row.value.reason != Some("permission")
          && row.value.waitingFor.Some? && row.value.waitingFor.value >= 10_000
          && forall m: nat | m < n && Fired(ticks, m, key, NeedsInput) ::
            exists t: nat | m < t < n :: Away(ticks, t, key) || RowFor(ticks[t], key).value.status == Busy)
      && (Fired(ticks, n, key, NeedsPermission) <==>
          && !Away(ticks, n, key) && row.value.status == Waiting && row.value.reason == Some("permission")
          && forall m: nat | m < n && Fired(ticks, m, key, NeedsPermission) ::
            exists t: nat | m < t < n :: Away(ticks, t, key) || RowFor(ticks[t], key).value.reason != Some("permission"))
      && (Fired(ticks, n, key, Gone) <==>
          && !Away(ticks, n, key) && row.value.status == Exited
          && n > 0 && RowFor(ticks[n - 1], key).Some? && RowFor(ticks[n - 1], key).value.status != Exited
          && forall m: nat | m < n && Fired(ticks, m, key, Gone) :: exists t: nat | m < t < n :: RowFor(ticks[t], key).None?)
  {
    hide Fired, RowFor, Distinct, RearmedBetween;
    FiresExactly(ticks, n, key, NeedsInput);
    FiresExactly(ticks, n, key, NeedsPermission);
    FiresExactly(ticks, n, key, Gone);
    forall m: nat | m < n
      ensures RearmedBetween(ticks, m, n, key, NeedsInput) <==>
        exists t: nat | m < t < n :: Away(ticks, t, key) || RowFor(ticks[t], key).value.status == Busy
      ensures RearmedBetween(ticks, m, n, key, NeedsPermission) <==>
        exists t: nat | m < t < n :: Away(ticks, t, key) || RowFor(ticks[t], key).value.reason != Some("permission")
      ensures RearmedBetween(ticks, m, n, key, Gone) <==> exists t: nat | m < t < n :: RowFor(ticks[t], key).None?
    {
      RearmedAsSaid(ticks, m, n, key);
    }
  }

  lemma RearmedAsSaid(ticks: seq<seq<Row>>, m: nat, n: nat, key: string)
    requires m < n < |ticks|
    ensures RearmedBetween(ticks, m, n, key, NeedsInput) <==>
      exists t: nat | m < t < n :: Away(ticks, t, key) || RowFor(ticks[t], key).value.status == Busy
    ensures RearmedBetween(ticks, m, n, key, NeedsPermission) <==>
      exists t: nat | m < t < n :: Away(ticks, t, key) || RowFor(ticks[t], key).value.reason != Some("permission")
    ensures RearmedBetween(ticks, m, n, key, Gone) <==> exists t: nat | m < t < n :: RowFor(ticks[t], key).None?
  {
    hide RowFor;
    forall kind | RearmedBetween(ticks, m, n, key, kind) ensures exists t: nat | m < t < n :: Rearms(kind, RowFor(ticks[t], key)) {
      var t :| m < t < n && Rearms(kind, RowFor(ticks[t], key));
    }
  }

  /** Every banner names its row and says what it is posted for; the two that need nobody are silent. */
  lemma {:induction false} BannersSayWhatTheyAreFor(s: State, rows: seq<Row>, b: Banner)
    requires b in Posted(s, rows)
    ensures exists r <- rows :: b.key == r.key && match b.kind
      case NeedsInput => b.title == r.name + " is waiting for you" && b.body == "" && b.sound == Some("Glass")
      case NeedsPermission => b.title == r.name + " needs permission" && b.body == "wants to run a tool — approve?" && b.sound == Some("Glass")
      case Finished => b.title == r.name + " finished" && b.body == "" && b.sound.None?
      case Gone => b.title == r.name + " exited" && b.body == "" && b.sound.None?
  {
    hide Posts;
    var init, r := rows[..|rows| - 1], rows[|rows| - 1];
    assert r in rows && forall q <- init :: q in rows;
    if b in Posted(s, init) { BannersSayWhatTheyAreFor(s, init, b); }
  }
}
