/** Git's NUL-delimited worktree inventory (baude-core/src/git.rs). */
module WorktreeInventory {
  import opened Prelude
  import opened Bytes
  import opened GitTypes

  datatype Fault =
    | NotTerminated
    | UnexpectedWorktree
    | FieldBeforePath
    | BadHead
    | BadBranch
    | BranchNotUtf8
    | MissingHead
    | BareWithCheckout
    | BranchXorDetached
    | UnknownField
    | NoWorktrees

  const WORKTREE: Bytes := "worktree "
  const HEAD: Bytes := "HEAD "
  const BRANCH: Bytes := "branch "
  const BARE: Bytes := "bare"
  const DETACHED: Bytes := "detached"
  const LOCKED: Bytes := "locked"
  const PRUNABLE: Bytes := "prunable"

  /** UTF-8 decoding of a branch ref, left open. */
  type Utf8 = Bytes -> Option<string>

  datatype Builder = Builder(
    path: Bytes, hasHead: bool, branch: Option<string>, bare: bool, detached: bool, locked: bool, prunable: bool)
  {
    function Finish(): Result<WorktreeRecord, Fault> {
      if !bare && !hasHead then Err(MissingHead)
      else if bare && (hasHead || branch.Some? || detached) then Err(BareWithCheckout)
      else if !bare && branch.Some? == detached then Err(BranchXorDetached)
      else Ok(WorktreeRecord(path, branch, bare, detached, locked, prunable))
    }

    function Field(field: Bytes, utf8: Utf8): Result<Builder, Fault> {
      if HEAD <= field then
        if hasHead || field == HEAD then Err(BadHead) else Ok(this.(hasHead := true))
      else if BRANCH <= field then
        if branch.Some? || field == BRANCH then Err(BadBranch)
        else if utf8(field[|BRANCH|..]).None? then Err(BranchNotUtf8)
        else Ok(this.(branch := utf8(field[|BRANCH|..])))
      else if field == BARE then Ok(this.(bare := true))
      else if field == DETACHED then Ok(this.(detached := true))
      else if field == LOCKED || LOCKED + " " <= field then Ok(this.(locked := true))
      else if field == PRUNABLE || PRUNABLE + " " <= field then Ok(this.(prunable := true))
      else Err(UnknownField)
    }
  }

  datatype Progress = Progress(current: Option<Builder>, records: seq<WorktreeRecord>)

  function Step(p: Progress, field: Bytes, utf8: Utf8): Result<Progress, Fault> {
    if field == [] then
      if p.current.None? then Ok(p)
      else
        var finished := p.current.value.Finish();
        if finished.Err? then Err(finished.error) else Ok(Progress(None, p.records + [finished.value]))
    else if WORKTREE <= field then
      if p.current.Some? || field == WORKTREE then Err(UnexpectedWorktree)
      else Ok(p.(current := Some(Builder(field[|WORKTREE|..], false, None, false, false, false, false))))
    else if p.current.None? then Err(FieldBeforePath)
    else
      var built := p.current.value.Field(field, utf8);
      if built.Err? then Err(built.error) else Ok(p.(current := Some(built.value)))
  }

  function Fold(p: Progress, fields: seq<Bytes>, utf8: Utf8): Result<Progress, Fault>
    decreases fields
  {
    if fields == [] then Ok(p)
    else
      var next := Step(p, fields[0], utf8);
      if next.Err? then next else Fold(next.value, fields[1..], utf8)
  }

  const START := Progress(None, [])

  function Parse(bytes: Bytes, utf8: Utf8): Result<seq<WorktreeRecord>, Fault> {
    if !EndsWith(bytes, [NUL, NUL]) then Err(NotTerminated)
    else
      var folded := Fold(START, Split(bytes, NUL), utf8);
      if folded.Err? then Err(folded.error)
      else if folded.value.records == [] then Err(NoWorktrees)
      else Ok(folded.value.records)
  }

  method ParseWorktreePorcelain(bytes: Bytes, utf8: Utf8) returns (result: Result<seq<WorktreeRecord>, Fault>)
    ensures result == Parse(bytes, utf8)
  {
    if bytes == [] || !EndsWith(bytes, [NUL, NUL]) { return Err(NotTerminated); }
    var records: seq<WorktreeRecord> := [];
    var current: Option<Builder> := None;
    var fields := Split(bytes, NUL);
    for i := 0 to |fields|
      invariant Fold(START, fields, utf8) == Fold(Progress(current, records), fields[i..], utf8)
    {
      var field := fields[i];
      if field == [] {
        if current.Some? {
          var finished := current.value.Finish();
          if finished.Err? { return Err(finished.error); }
          records := records + [finished.value];
          current := None;
        }
        continue;
      }
      if WORKTREE <= field {
        if current.Some? || field == WORKTREE { return Err(UnexpectedWorktree); }
        current := Some(Builder(field[|WORKTREE|..], false, None, false, false, false, false));
        continue;
      }
      if current.None? { return Err(FieldBeforePath); }
      var built := current.value.Field(field, utf8);
      if built.Err? { return Err(built.error); }
      current := Some(built.value);
    }
    if records == [] { return Err(NoWorktrees); }
    result := Ok(records);
  }

  // ----- What Git prints -----

  datatype Checkout = Bare | OnBranch(head: Bytes, ref: Bytes) | DetachedAt(head: Bytes)

  /** One worktree as Git prints it; a lock or prune mark may carry a reason. */
  datatype Printed = Printed(path: Bytes, checkout: Checkout, locked: Option<Bytes>, prunable: Option<Bytes>) {
    function CheckoutFields(): seq<Bytes> {
      match checkout
      case Bare => [BARE]
      case OnBranch(head, ref) => [HEAD + head, BRANCH + ref]
      case DetachedAt(head) => [HEAD + head, DETACHED]
    }

    function Fields(): seq<Bytes> {
      [WORKTREE + path] + CheckoutFields() + Mark(LOCKED, locked) + Mark(PRUNABLE, prunable)
    }

    predicate WellFormed(utf8: Utf8) {
      && path != [] && (forall f <- Fields() :: NUL !in f)
      && match checkout
         case Bare => true
         case OnBranch(head, ref) => head != [] && ref != [] && utf8(ref).Some?
         case DetachedAt(head) => head != []
    }

    function Record(utf8: Utf8): WorktreeRecord {
      WorktreeRecord(path, if checkout.OnBranch? then utf8(checkout.ref) else None,
                     checkout.Bare?, checkout.DetachedAt?, locked.Some?, prunable.Some?)
    }
  }

  function Mark(word: Bytes, reason: Option<Bytes>): seq<Bytes> {
    match reason
    case None => []
    case Some(text) => [if text == [] then word else word + " " + text]
  }

  function Print(printed: seq<Printed>): Bytes {
    if printed == [] then [] else Terminated(printed[0].Fields(), NUL) + [NUL] + Print(printed[1..])
  }

  function Records(printed: seq<Printed>, utf8: Utf8): (records: seq<WorktreeRecord>)
    ensures |records| == |printed|
    ensures forall i | 0 <= i < |printed| :: records[i] == printed[i].Record(utf8)
  {
    if printed == [] then [] else [printed[0].Record(utf8)] + Records(printed[1..], utf8)
  }

  // ----- Parsing undoes printing -----

  lemma {:induction false} FoldConcat(p: Progress, a: seq<Bytes>, b: seq<Bytes>, utf8: Utf8)
    ensures Fold(p, a + b, utf8) ==
      var first := Fold(p, a, utf8);
      if first.Err? then first else Fold(first.value, b, utf8)
    decreases a
  {
    if a == [] {
      assert a + b == b;
    } else {
      assert (a + b)[1..] == a[1..] + b;
      var next := Step(p, a[0], utf8);
      if next.Ok? { FoldConcat(next.value, a[1..], b, utf8); }
    }
  }

  lemma FoldOne(p: Progress, field: Bytes, utf8: Utf8)
    ensures Fold(p, [field], utf8) == Step(p, field, utf8)
  {
    var next := Step(p, field, utf8);
    if next.Ok? { assert Fold(next.value, [field][1..], utf8) == Ok(next.value); }
  }

  lemma FoldMark(p: Progress, word: Bytes, reason: Option<Bytes>, utf8: Utf8)
    requires p.current.Some? && (word == LOCKED || word == PRUNABLE)
    ensures Fold(p, Mark(word, reason), utf8) ==
      var b := p.current.value;
      Ok(p.(current := Some(if reason.None? then b
                            else if word == LOCKED then b.(locked := true) else b.(prunable := true))))
  {
    if reason.Some? {
      var field := Mark(word, reason)[0];
      assert field[0] == word[0] && field[0] != 'w' && field[0] != 'H' && field[0] != 'b' && field[0] != 'd';
      FoldOne(p, field, utf8);
    }
  }

  lemma FoldCheckout(p: Progress, r: Printed, utf8: Utf8)
    requires r.WellFormed(utf8)
    requires p.current == Some(Builder(r.path, false, None, false, false, false, false))
    ensures Fold(p, r.CheckoutFields(), utf8) == Ok(p.(current := Some(Builder(
      r.path, !r.checkout.Bare?, r.Record(utf8).branch, r.checkout.Bare?, r.checkout.DetachedAt?, false, false))))
  {
    match r.checkout
    case Bare => FoldOne(p, BARE, utf8);
    case OnBranch(head, ref) =>
      FoldHead(p, head, utf8);
      var p' := p.(current := Some(p.current.value.(hasHead := true)));
      var field := BRANCH + ref;
      assert field[0] == 'b' && field[|BRANCH|..] == ref;
      FoldOne(p', field, utf8);
      FoldConcat(p, [HEAD + head], [field], utf8);
      assert r.CheckoutFields() == [HEAD + head] + [field];
    case DetachedAt(head) =>
      FoldHead(p, head, utf8);
      assert DETACHED[0] == 'd';
      FoldOne(p.(current := Some(p.current.value.(hasHead := true))), DETACHED, utf8);
      FoldConcat(p, [HEAD + head], [DETACHED], utf8);
      assert r.CheckoutFields() == [HEAD + head] + [DETACHED];
  }

  lemma FoldHead(p: Progress, head: Bytes, utf8: Utf8)
    requires p.current.Some? && !p.current.value.hasHead && head != []
    ensures Fold(p, [HEAD + head], utf8) == Ok(p.(current := Some(p.current.value.(hasHead := true))))
  {
    var field := HEAD + head;
    assert field[0] == 'H' && |field| > |HEAD|;
    FoldOne(p, field, utf8);
  }

  lemma FoldRecord(records: seq<WorktreeRecord>, r: Printed, utf8: Utf8)
    requires r.WellFormed(utf8)
    ensures Fold(Progress(None, records), r.Fields() + [[]], utf8) == Ok(Progress(None, records + [r.Record(utf8)]))
  {
    hide Fold;
    var p0 := Progress(None, records);
    var opening := WORKTREE + r.path;
    assert |opening| > |WORKTREE| && opening[|WORKTREE|..] == r.path;
    FoldOne(p0, opening, utf8);
    var p1 := p0.(current := Some(Builder(r.path, false, None, false, false, false, false)));
    FoldCheckout(p1, r, utf8);
    FoldConcat(p0, [opening], r.CheckoutFields(), utf8);
    var p2 := Fold(p1, r.CheckoutFields(), utf8).value;
    FoldMark(p2, LOCKED, r.locked, utf8);
    FoldConcat(p0, [opening] + r.CheckoutFields(), Mark(LOCKED, r.locked), utf8);
    var p3 := Fold(p2, Mark(LOCKED, r.locked), utf8).value;
    FoldMark(p3, PRUNABLE, r.prunable, utf8);
    FoldConcat(p0, [opening] + r.CheckoutFields() + Mark(LOCKED, r.locked), Mark(PRUNABLE, r.prunable), utf8);
    var p4 := Fold(p3, Mark(PRUNABLE, r.prunable), utf8).value;
    FoldOne(p4, [], utf8);
    FoldConcat(p0, r.Fields(), [[]], utf8);
  }

  predicate AllWellFormed(printed: seq<Printed>, utf8: Utf8) {
    forall r <- printed :: r.WellFormed(utf8)
  }

  function AllFields(printed: seq<Printed>): seq<Bytes> {
    if printed == [] then [] else printed[0].Fields() + [[]] + AllFields(printed[1..])
  }

  lemma {:induction false} SplitPrinted(printed: seq<Printed>, utf8: Utf8)
    requires AllWellFormed(printed, utf8)
    ensures Split(Print(printed), NUL) == AllFields(printed) + [[]]
  {
    hide Printed.Fields, Printed.WellFormed, Split, Terminated, Solid, AllFields;
    if printed == [] {
      NothingIsPrinted();
    } else {
      var fields, rest := printed[0].Fields(), Print(printed[1..]);
      FieldsHaveNoNul(printed[0], utf8);
      SplitPrinted(printed[1..], utf8);
      SplitUndoesTerminated(fields, [NUL] + rest, NUL);
      SplitOneField([], rest, NUL);
      FieldsUnfold(printed);
      assert [] + [NUL] + rest == [NUL] + rest;
      assert Print(printed) == Terminated(fields, NUL) + ([NUL] + rest);
      assert Split(Print(printed), NUL) == fields + ([[]] + Split(rest, NUL));
      assert fields + ([[]] + Split(rest, NUL)) == (fields + [[]]) + Split(rest, NUL);
    }
  }

  lemma NothingIsPrinted()
    ensures Split(Print([]), NUL) == AllFields([]) + [[]]
  {
  }

  lemma FieldsHaveNoNul(r: Printed, utf8: Utf8)
    requires r.WellFormed(utf8)
    ensures forall f <- r.Fields() :: NUL !in f
  {
    hide Printed.Fields;
  }

  lemma FieldsUnfold(printed: seq<Printed>)
    requires printed != []
    ensures AllFields(printed) + [[]] == (printed[0].Fields() + [[]]) + (AllFields(printed[1..]) + [[]])
  {
    hide Printed.Fields;
  }

  lemma RecordsUnfold(records: seq<WorktreeRecord>, printed: seq<Printed>, utf8: Utf8)
    requires printed != []
    ensures records + Records(printed, utf8) == (records + [printed[0].Record(utf8)]) + Records(printed[1..], utf8)
  {
    hide Printed.Record;
  }

  lemma {:induction false} FoldPrinted(records: seq<WorktreeRecord>, printed: seq<Printed>, utf8: Utf8)
    requires AllWellFormed(printed, utf8)
    ensures Fold(Progress(None, records), AllFields(printed) + [[]], utf8) == Ok(Progress(None, records + Records(printed, utf8)))
    decreases printed
  {
    if printed == [] {
      var p := Progress(None, records);
      assert AllFields(printed) + [[]] == [[]];
      FoldOne(p, [], utf8);
      assert records + Records(printed, utf8) == records;
    } else {
      hide Fold, AllFields, Printed.Fields, Printed.WellFormed, Printed.Record, Records;
      FoldRecord(records, printed[0], utf8);
      FoldPrinted(records + [printed[0].Record(utf8)], printed[1..], utf8);
      FoldConcat(Progress(None, records), printed[0].Fields() + [[]], AllFields(printed[1..]) + [[]], utf8);
      FieldsUnfold(printed);
      RecordsUnfold(records, printed, utf8);
    }
  }

  lemma {:induction false} PrintedEnds(printed: seq<Printed>)
    requires printed != []
    ensures EndsWith(Print(printed), [NUL, NUL])
  {
    if |printed| == 1 {
      TerminatedEnds(printed[0].Fields());
      assert Print(printed) == Terminated(printed[0].Fields(), NUL) + [NUL];
    } else {
      PrintedEnds(printed[1..]);
    }
  }

  lemma {:induction false} TerminatedEnds(fields: seq<Bytes>)
    requires fields != []
    ensures var t := Terminated(fields, NUL); |t| > 0 && t[|t| - 1] == NUL
  {
    if |fields| > 1 { TerminatedEnds(fields[1..]); }
  }

  /** Parsing gives back exactly the worktrees Git printed. */
  lemma ParsingUndoesPrinting(printed: seq<Printed>, utf8: Utf8)
    requires printed != [] && AllWellFormed(printed, utf8)
    ensures Parse(Print(printed), utf8) == Ok(Records(printed, utf8))
  {
    PrintedEnds(printed);
    SplitPrinted(printed, utf8);
    FoldPrinted([], printed, utf8);
    assert [] + Records(printed, utf8) == Records(printed, utf8);
  }

  // ----- Every accepted record is coherent -----

  /** Exactly one of branch and detached, unless bare; neither when bare. */
  predicate Coherent(r: WorktreeRecord) {
    if r.bare then r.branch.None? && !r.detached else r.branch.Some? != r.detached
  }

  lemma {:induction false} FoldKeepsCoherent(p: Progress, fields: seq<Bytes>, utf8: Utf8)
    requires forall r <- p.records :: Coherent(r)
    ensures var f := Fold(p, fields, utf8); f.Ok? ==> forall r <- f.value.records :: Coherent(r)
    decreases fields
  {
    if fields != [] && Step(p, fields[0], utf8).Ok? {
      FoldKeepsCoherent(Step(p, fields[0], utf8).value, fields[1..], utf8);
    }
  }

  /** Whatever the bytes, an accepted inventory is non-empty and coherent. */
  lemma AcceptedIsCoherent(bytes: Bytes, utf8: Utf8)
    requires Parse(bytes, utf8).Ok?
    ensures Parse(bytes, utf8).value != [] && forall r <- Parse(bytes, utf8).value :: Coherent(r)
  {
    FoldKeepsCoherent(START, Split(bytes, NUL), utf8);
  }

  // ----- A cut-off inventory never parses to something else -----

  predicate Solid(field: Bytes) {
    field != [] && NUL !in field
  }

  /** The first `n` bytes end in two NULs. */
  predicate DoubleNulAt(bytes: Bytes, n: int) {
    2 <= n <= |bytes| && bytes[n - 2] == NUL && bytes[n - 1] == NUL
  }

  lemma {:induction false} TerminatedHasNoDoubleNul(fields: seq<Bytes>)
    requires forall f <- fields :: Solid(f)
    ensures forall n :: !DoubleNulAt(Terminated(fields, NUL), n)
    ensures fields != [] ==> Terminated(fields, NUL) != [] && Terminated(fields, NUL)[0] != NUL
  {
    if fields != [] {
      TerminatedHasNoDoubleNul(fields[1..]);
      var f, rest := fields[0], Terminated(fields[1..], NUL);
      var all := f + [NUL] + rest;
      assert f in fields && Solid(f) && f[0] in f;
      forall n | 2 <= n <= |all| ensures !DoubleNulAt(all, n) {
        if n <= |f| + 1 { assert all[n - 2] == f[n - 2] && f[n - 2] in f; }
        else if n == |f| + 2 { assert all[n - 1] == rest[0]; }
        else { assert !DoubleNulAt(rest, n - 1 - |f|); }
      }
    }
  }

  lemma FieldsAreSolid(r: Printed, utf8: Utf8)
    requires r.WellFormed(utf8)
    ensures forall f <- r.Fields() :: Solid(f)
    ensures r.Fields() != []
  {
  }

  /** Where double NULs can be at the head of a printed inventory: only at the end of the first record. */
  lemma PrintedHead(printed: seq<Printed>, utf8: Utf8)
    requires printed != [] && AllWellFormed(printed, utf8)
    ensures var t, rest := Terminated(printed[0].Fields(), NUL), Print(printed[1..]);
      && Print(printed) == t + [NUL] + rest
      && (forall m | m <= |t| :: !DoubleNulAt(Print(printed), m))
      && (rest != [] ==> rest[0] != NUL)
  {
    hide Printed.Fields, Printed.WellFormed;
    var t := Terminated(printed[0].Fields(), NUL);
    FieldsAreSolid(printed[0], utf8);
    TerminatedHasNoDoubleNul(printed[0].Fields());
    forall m | m <= |t| ensures !DoubleNulAt(Print(printed), m) {
      assert !DoubleNulAt(t, m);
    }
    if |printed| > 1 {
      FieldsAreSolid(printed[1], utf8);
      TerminatedHasNoDoubleNul(printed[1].Fields());
      assert printed[1..][0] == printed[1];
    }
  }

  lemma {:induction false} DoubleNulEndsARecord(printed: seq<Printed>, n: nat, utf8: Utf8) returns (k: nat)
    requires AllWellFormed(printed, utf8)
    requires DoubleNulAt(Print(printed), n)
    ensures 0 < k <= |printed| && Print(printed)[..n] == Print(printed[..k])
  {
    hide Printed.Fields, Printed.WellFormed, Terminated;
    assert printed != [];
    PrintedHead(printed, utf8);
    var t, rest := Terminated(printed[0].Fields(), NUL), Print(printed[1..]);
    if n == |t| + 1 {
      k := 1;
      assert printed[..1] == [printed[0]] && [printed[0]][1..] == [];
      assert Print([printed[0]]) == t + [NUL] + Print([]);
      assert Print(printed)[..n] == t + [NUL];
    } else {
      assert n >= |t| + 3;
      var m := n - |t| - 1;
      assert Print(printed)[n - 2] == rest[m - 2] && Print(printed)[n - 1] == rest[m - 1];
      var j := DoubleNulEndsARecord(printed[1..], m, utf8);
      k := j + 1;
      assert printed[..k][1..] == printed[1..][..j] && printed[..k][0] == printed[0];
      assert Print(printed)[..n] == t + [NUL] + rest[..m];
    }
  }

  /** Every prefix of a printed inventory fails, or parses to a prefix of its worktrees. */
  lemma TruncationNeverInvents(printed: seq<Printed>, n: nat, utf8: Utf8)
    requires AllWellFormed(printed, utf8) && n <= |Print(printed)|
    ensures var r := Parse(Print(printed)[..n], utf8);
      r.Err? || (exists k | 0 < k <= |printed| :: r.value == Records(printed, utf8)[..k])
  {
    hide Printed.Fields, Printed.WellFormed, Printed.Record, Print, Fold, Split;
    var cut := Print(printed)[..n];
    if EndsWith(cut, [NUL, NUL]) {
      assert cut[n - 2] == cut[n - 2..][0] && cut[n - 1] == cut[n - 2..][1];
      var k := DoubleNulEndsARecord(printed, n, utf8);
      ParsingUndoesPrinting(printed[..k], utf8);
      assert Records(printed[..k], utf8) == Records(printed, utf8)[..k];
    }
  }

  function Line(text: Bytes): Bytes {
    text + [NUL]
  }

  lemma LinesOf(a: Bytes, b: Bytes, c: Bytes, d: Bytes, e: Bytes)
    ensures Terminated([a, b], NUL) == Line(a) + Line(b)
    ensures Terminated([a, b, c], NUL) == Line(a) + Line(b) + Line(c)
    ensures Terminated([a, b, c, d, e], NUL) == Line(a) + Line(b) + Line(c) + Line(d) + Line(e)
  {
    assert forall x: Bytes :: Terminated([x], NUL) == Line(x);
    assert [a, b] == [a] + [b] && [a, b, c] == [a, b] + [c] && [a, b, c, d, e] == [a, b, c] + [d] + [e];
    TerminatedConcat([a], [b], NUL);
    TerminatedConcat([a, b], [c], NUL);
    TerminatedConcat([a, b, c], [d], NUL);
    TerminatedConcat([a, b, c] + [d], [e], NUL);
  }

  lemma OneIsRead(r: Printed, utf8: Utf8)
    requires r.WellFormed(utf8)
    ensures Parse(Terminated(r.Fields(), NUL) + [NUL], utf8) == Ok([r.Record(utf8)])
  {
    hide Parse, Terminated, Printed.Fields, Printed.WellFormed, Printed.Record;
    ParsingUndoesPrinting([r], utf8);
    assert [r][1..] == [] && Print([r]) == Terminated(r.Fields(), NUL) + [NUL];
    assert Records([r], utf8) == [r.Record(utf8)];
  }

  lemma FieldsInGitsWords(path: Bytes, head: Bytes, ref: Bytes, reason: Bytes)
    requires reason != []
    ensures Printed(path, OnBranch(head, ref), None, None).Fields() == [WORKTREE + path, HEAD + head, BRANCH + ref]
    ensures Printed(path, DetachedAt(head), Some(reason), Some([])).Fields()
      == [WORKTREE + path, HEAD + head, DETACHED, LOCKED + " " + reason, PRUNABLE]
    ensures Printed(path, Bare, None, None).Fields() == [WORKTREE + path, BARE]
  {
  }

  /** The three kinds of worktree in Git's own words: one on a branch, a
      detached one locked for a reason and prunable, and a bare one. */
  lemma WorktreesInGitsWords(path: Bytes, head: Bytes, ref: Bytes, reason: Bytes, utf8: Utf8)
    requires path != [] && head != [] && ref != [] && reason != [] && utf8(ref).Some?
    requires NUL !in path && NUL !in head && NUL !in ref && NUL !in reason
    ensures Parse(Line("worktree " + path) + Line("HEAD " + head) + Line("branch " + ref) + [NUL], utf8)
      == Ok([WorktreeRecord(path, utf8(ref), false, false, false, false)])
    ensures Parse(Line("worktree " + path) + Line("HEAD " + head) + Line("detached") + Line("locked " + reason) + Line("prunable") + [NUL], utf8)
      == Ok([WorktreeRecord(path, None, false, true, true, true)])
    ensures Parse(Line("worktree " + path) + Line("bare") + [NUL], utf8)
      == Ok([WorktreeRecord(path, None, true, false, false, false)])
  {
    hide Parse, Terminated;
    var branch := Printed(path, OnBranch(head, ref), None, None);
    var detached := Printed(path, DetachedAt(head), Some(reason), Some([]));
    var bare := Printed(path, Bare, None, None);
    assert LOCKED + " " + reason == "locked " + reason;
    FieldsInGitsWords(path, head, ref, reason);
    assert branch.WellFormed(utf8) && detached.WellFormed(utf8) && bare.WellFormed(utf8);
    hide Printed.Fields, Printed.WellFormed;
    OneIsRead(branch, utf8);
    OneIsRead(detached, utf8);
    OneIsRead(bare, utf8);
    LinesOf(WORKTREE + path, HEAD + head, BRANCH + ref, [], []);
    LinesOf(WORKTREE + path, HEAD + head, DETACHED, LOCKED + " " + reason, PRUNABLE);
    LinesOf(WORKTREE + path, BARE, [], [], []);
  }
}
