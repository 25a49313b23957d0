/** Porcelain-v2 status as the removal preflight reads it: every record is
    either understood exactly or the inspection fails (baude-core/src/git.rs). */
module RemovalStatus {
  import opened Prelude
  import opened Bytes

  datatype Blocker =
    | Untracked(path: Bytes)
    | Ignored(path: Bytes)
    | StagedAdd(path: Bytes)
    | StagedDelete(path: Bytes)
    | StagedRename(path: Bytes)
    | StagedModification(path: Bytes)
    | UnstagedDelete(path: Bytes)
    | UnstagedModification(path: Bytes)
    | Conflict(path: Bytes)
    | SubmoduleChange(path: Bytes)

  datatype Fault =
    | NotTerminated
    | EmptyRecord
    | EmptyUntrackedPath
    | EmptyIgnoredPath
    | InvalidOrdinary
    | InvalidRenamed
    | NoOriginalPath
    | InvalidUnmerged
    | UnknownKind
    | InvalidXy
    | InvalidSubmodule
    | EmptyTrackedPath
    | NoChange

  const SPACE: Byte := ' '
  const CLEAN: Bytes := "N..."

  predicate AllIn(field: Bytes, alphabet: string) {
    forall b <- field :: b in alphabet
  }

  predicate ValidXy(xy: Bytes) {
    |xy| == 2 && AllIn(xy, ".MADRCUT")
  }

  predicate ValidSubmodule(field: Bytes) {
    field == CLEAN || (|field| == 4 && field[0] == 'S' && field[1] in ".C" && field[2] in ".M" && field[3] in ".U")
  }

  predicate ValidMode(field: Bytes) {
    |field| == 6 && AllIn(field, "01234567")
  }

  predicate ValidOid(field: Bytes) {
    field != [] && AllIn(field, "0123456789abcdefABCDEF")
  }

  predicate ValidScore(field: Bytes) {
    |field| >= 2 && field[0] in "RC" && AllIn(field[1..], "0123456789")
  }

  /** What the index half of a status letter pair blocks. */
  function IndexBlockers(letter: Byte, path: Bytes): seq<Blocker> {
    if letter == '.' then []
    else if letter == 'A' then [StagedAdd(path)]
    else if letter == 'D' then [StagedDelete(path)]
    else if letter == 'R' then [StagedRename(path)]
    else if letter == 'U' then [Conflict(path)]
    else [StagedModification(path)]
  }

  function WorktreeBlockers(letter: Byte, path: Bytes): seq<Blocker> {
    if letter == '.' then []
    else if letter == 'D' then [UnstagedDelete(path)]
    else if letter == 'M' || letter == 'T' then [UnstagedModification(path)]
    else [Conflict(path)]
  }

  function SubmoduleBlockers(submodule: Bytes, path: Bytes): seq<Blocker> {
    if submodule == CLEAN then [] else [SubmoduleChange(path)]
  }

  // ----- Records as Git prints them -----

  datatype Record =
    | UntrackedRecord(path: Bytes)
    | IgnoredRecord(path: Bytes)
    | OrdinaryRecord(xy: Bytes, submodule: Bytes, modes: seq<Bytes>, oids: seq<Bytes>, path: Bytes)
    | RenamedRecord(xy: Bytes, submodule: Bytes, modes: seq<Bytes>, oids: seq<Bytes>, score: Bytes, path: Bytes, original: Bytes)
    | UnmergedRecord(xy: Bytes, submodule: Bytes, modes: seq<Bytes>, oids: seq<Bytes>, path: Bytes)
  {
    predicate ValidHeader(modeCount: nat, oidCount: nat)
      requires !UntrackedRecord? && !IgnoredRecord?
    {
      && ValidXy(xy) && ValidSubmodule(submodule)
      && |modes| == modeCount && (forall m <- modes :: ValidMode(m))
      && |oids| == oidCount && (forall o <- oids :: ValidOid(o))
    }

    predicate Valid() {
      && path != [] && NUL !in path
      && match this
         case UntrackedRecord(_) => true
         case IgnoredRecord(_) => true
         case OrdinaryRecord(_, _, _, _, _) => ValidHeader(3, 2) && (xy != ".." || submodule != CLEAN)
         case RenamedRecord(_, _, _, _, _, _, _) =>
           ValidHeader(3, 2) && (xy != ".." || submodule != CLEAN) && ValidScore(score) && original != [] && NUL !in original
         case UnmergedRecord(_, _, _, _, _) => ValidHeader(4, 3)
    }

    /** The space-separated columns of a tracked record. */
    function Columns(): (columns: seq<Bytes>)
      requires !UntrackedRecord? && !IgnoredRecord?
      ensures |columns| > 0
    {
      match this
      case OrdinaryRecord(_, _, _, _, _) => ["1", xy, submodule] + modes + oids + [path]
      case RenamedRecord(_, _, _, _, _, _, _) => ["2", xy, submodule] + modes + oids + [score, path]
      case UnmergedRecord(_, _, _, _, _) => ["u", xy, submodule] + modes + oids + [path]
    }

    /** The NUL-terminated fields; a rename carries its original path in a second one. */
    function Fields(): (fields: seq<Bytes>)
      ensures |fields| == if RenamedRecord? then 2 else 1
    {
      match this
      case UntrackedRecord(_) => ["? " + path]
      case IgnoredRecord(_) => ["! " + path]
      case RenamedRecord(_, _, _, _, _, _, _) => [Join(Columns(), SPACE), original]
      case _ => [Join(Columns(), SPACE)]
    }

    /** What the record blocks; the path is the one the record names, byte for byte. */
    function Blockers(): seq<Blocker>
      requires Valid()
    {
      match this
      case UntrackedRecord(_) => [Untracked(path)]
      case IgnoredRecord(_) => [Ignored(path)]
      case UnmergedRecord(_, _, _, _, _) => [Conflict(path)] + SubmoduleBlockers(submodule, path)
      case _ => IndexBlockers(xy[0], path) + WorktreeBlockers(xy[1], path) + SubmoduleBlockers(submodule, path)
    }
  }

  function Print(records: seq<Record>): Bytes {
    if records == [] then [] else Terminated(records[0].Fields(), NUL) + Print(records[1..])
  }

  predicate AllValid(records: seq<Record>) {
    forall r <- records :: r.Valid()
  }

  function AllBlockers(records: seq<Record>): seq<Blocker>
    requires AllValid(records)
  {
    if records == [] then [] else records[0].Blockers() + AllBlockers(records[1..])
  }

  // ----- The parser as a function of the fields -----

  function TrackedFault(xy: Bytes, submodule: Bytes, path: Bytes): Option<Fault> {
    if !ValidXy(xy) then Some(InvalidXy)
    else if !ValidSubmodule(submodule) then Some(InvalidSubmodule)
    else if path == [] then Some(EmptyTrackedPath)
    else if xy == ".." && submodule == CLEAN then Some(NoChange)
    else None
  }

  predicate ValidColumns(columns: seq<Bytes>, modes: nat, oids: nat)
    requires |columns| >= 3 + modes + oids
  {
    (forall m <- columns[3..3 + modes] :: ValidMode(m)) && (forall o <- columns[3 + modes..3 + modes + oids] :: ValidOid(o))
  }

  /** Read one record off the front of the fields. */
  function ReadRecord(fields: seq<Bytes>): (read: Result<Record, Fault>)
    requires fields != []
    ensures read.Ok? ==> |read.value.Fields()| <= |fields|
  {
    var record := fields[0];
    if record == [] then Err(EmptyRecord)
    else if "? " <= record then
      if record[2..] == [] then Err(EmptyUntrackedPath) else Ok(UntrackedRecord(record[2..]))
    else if "! " <= record then
      if record[2..] == [] then Err(EmptyIgnoredPath) else Ok(IgnoredRecord(record[2..]))
    else if "1 " <= record then
      var c := SplitN(record, SPACE, 9);
      if |c| != 9 || !ValidColumns(c, 3, 2) then Err(InvalidOrdinary)
      else if TrackedFault(c[1], c[2], c[8]).Some? then Err(TrackedFault(c[1], c[2], c[8]).value)
      else Ok(OrdinaryRecord(c[1], c[2], c[3..6], c[6..8], c[8]))
    else if "2 " <= record then
      var c := SplitN(record, SPACE, 10);
      if |c| != 10 || !ValidColumns(c, 3, 2) || !ValidScore(c[8]) then Err(InvalidRenamed)
      else if |fields| == 1 || fields[1] == [] then Err(NoOriginalPath)
      else if TrackedFault(c[1], c[2], c[9]).Some? then Err(TrackedFault(c[1], c[2], c[9]).value)
      else Ok(RenamedRecord(c[1], c[2], c[3..6], c[6..8], c[8], c[9], fields[1]))
    else if "u " <= record then
      var c := SplitN(record, SPACE, 11);
      if |c| != 11 || !ValidXy(c[1]) || !ValidSubmodule(c[2]) || !ValidColumns(c, 4, 3) || c[10] == [] then Err(InvalidUnmerged)
      else Ok(UnmergedRecord(c[1], c[2], c[3..7], c[7..10], c[10]))
    else Err(UnknownKind)
  }

  function ReadAll(fields: seq<Bytes>): (r: Result<seq<Record>, Fault>)
    decreases |fields|
  {
    if fields == [] then Ok([])
    else
      var first := ReadRecord(fields);
      if first.Err? then Err(first.error)
      else
        var rest := ReadAll(fields[|first.value.Fields()|..]);
        if rest.Err? then rest else Ok([first.value] + rest.value)
  }

  function Parse(bytes: Bytes): Result<seq<Record>, Fault> {
    if bytes == [] then Ok([])
    else if bytes[|bytes| - 1] != NUL then Err(NotTerminated)
    else ReadAll(Split(bytes[..|bytes| - 1], NUL))
  }

  // ----- A record read is exactly the record printed -----

  /** Neither a column separator nor a record terminator. */
  predicate Solid(field: Bytes) {
    SPACE !in field && NUL !in field
  }

  lemma AlphabetsAreSolid(field: Bytes)
    ensures ValidXy(field) || ValidSubmodule(field) || ValidMode(field) || ValidOid(field) || ValidScore(field) ==> Solid(field)
  {
    if ValidScore(field) { assert field == [field[0]] + field[1..] && Solid(field[1..]); }
  }

  lemma HeaderIsSolid(r: Record, first: Bytes)
    requires r.Valid() && !r.UntrackedRecord? && !r.IgnoredRecord? && Solid(first)
    ensures forall f <- [first, r.xy, r.submodule] + r.modes + r.oids :: Solid(f)
  {
    hide ValidXy, ValidSubmodule, ValidMode, ValidOid;
    AlphabetsAreSolid(r.xy);
    AlphabetsAreSolid(r.submodule);
    forall m <- r.modes ensures Solid(m) { AlphabetsAreSolid(m); }
    forall o <- r.oids ensures Solid(o) { AlphabetsAreSolid(o); }
  }

  lemma ColumnsHaveNoSpace(r: Record)
    requires r.Valid() && !r.UntrackedRecord? && !r.IgnoredRecord?
    ensures forall i | 0 <= i < |r.Columns()| - 1 :: SPACE !in r.Columns()[i]
    ensures forall i | 0 <= i < |r.Columns()| :: NUL !in r.Columns()[i]
  {
    var first: Bytes := r.Columns()[0];
    HeaderIsSolid(r, first);
    if r.RenamedRecord? { AlphabetsAreSolid(r.score); }
    var header := [first, r.xy, r.submodule] + r.modes + r.oids;
    hide Solid, ValidXy, ValidSubmodule, ValidMode, ValidOid, ValidScore;
    assert r.Columns() == header + if r.RenamedRecord? then [r.score, r.path] else [r.path];
    forall i | 0 <= i < |r.Columns()| ensures NUL !in r.Columns()[i] && (i < |r.Columns()| - 1 ==> SPACE !in r.Columns()[i]) {
      if i < |header| {
        assert r.Columns()[i] == header[i] && header[i] in header;
        SolidMeans(header[i]);
      } else if r.RenamedRecord? && i == |header| {
        SolidMeans(r.score);
      }
    }
  }

  lemma SolidMeans(field: Bytes)
    requires Solid(field)
    ensures SPACE !in field && NUL !in field
  {
  }

  lemma {:induction false} JoinHasNoNul(parts: seq<Bytes>)
    requires |parts| > 0 && forall i | 0 <= i < |parts| :: NUL !in parts[i]
    ensures NUL !in Join(parts, SPACE)
  {
    if |parts| > 1 { JoinHasNoNul(parts[1..]); }
  }

  lemma FieldsHaveNoNul(r: Record)
    requires r.Valid()
    ensures forall f <- r.Fields() :: NUL !in f
  {
    if !r.UntrackedRecord? && !r.IgnoredRecord? {
      ColumnsHaveNoSpace(r);
      JoinHasNoNul(r.Columns());
    }
  }

  lemma JoinStarts(columns: seq<Bytes>)
    requires |columns| > 1 && |columns[0]| == 1
    ensures [columns[0][0], SPACE] <= Join(columns, SPACE)
  {
  }

  lemma ReadUndoesPrint(r: Record, rest: seq<Bytes>)
    requires r.Valid()
    ensures ReadRecord(r.Fields() + rest) == Ok(r)
  {
    hide SplitN, Join, ValidXy, ValidSubmodule, ValidMode, ValidOid, ValidScore;
    var fields := r.Fields() + rest;
    if r.UntrackedRecord? || r.IgnoredRecord? {
      assert fields[0] == r.Fields()[0] && fields[0][2..] == r.path && fields[0][0] == (if r.UntrackedRecord? then '?' else '!');
    } else {
      var c := r.Columns();
      ColumnsHaveNoSpace(r);
      SplitNUndoesJoin(c, SPACE);
      JoinStarts(c);
      TrackedReadsBack(r);
      assert fields[0] == Join(c, SPACE) && fields[0] != [];
      assert fields[0][0] == c[0][0] && fields[0][1] == ' ';
      assert r.RenamedRecord? ==> fields[1] == r.original;
    }
  }

  lemma TrackedReadsBack(r: Record)
    requires r.Valid() && !r.UntrackedRecord? && !r.IgnoredRecord?
    ensures var c := r.Columns();
      if r.OrdinaryRecord? then |c| == 9 && c[3..6] == r.modes && c[6..8] == r.oids && c[8] == r.path
      else if r.RenamedRecord? then |c| == 10 && c[3..6] == r.modes && c[6..8] == r.oids && c[8] == r.score && c[9] == r.path
      else |c| == 11 && c[3..7] == r.modes && c[7..10] == r.oids && c[10] == r.path
    ensures r.Columns()[1] == r.xy && r.Columns()[2] == r.submodule
  {
  }

  /** The record is valid and prints back to the fields it was read from. */
  predicate Faithful(r: Record, fields: seq<Bytes>) {
    r.Valid() && |r.Fields()| <= |fields| && fields[..|r.Fields()|] == r.Fields()
  }

  lemma PathReadIsFaithful(fields: seq<Bytes>)
    requires fields != [] && NUL !in fields[0] && ReadRecord(fields).Ok?
    requires ReadRecord(fields).value.UntrackedRecord? || ReadRecord(fields).value.IgnoredRecord?
    ensures Faithful(ReadRecord(fields).value, fields)
  {
    hide SplitN, Join, TrackedFault, ValidColumns, ValidXy, ValidSubmodule, ValidScore;
    var record := fields[0];
    assert record == [record[0], record[1]] + record[2..];
    assert forall b <- record[2..] :: b in record;
  }

  /** What splitting a tracked record into columns tells. */
  lemma ColumnsOf(record: Bytes, n: nat)
    requires n > 1 && |record| >= 2 && record[1] == SPACE && record[0] != SPACE && NUL !in record
    ensures var c := SplitN(record, SPACE, n);
      Join(c, SPACE) == record && c[0] == [record[0]] && NUL !in c[|c| - 1]
  {
    var c := SplitN(record, SPACE, n);
    JoinUndoesSplitN(record, SPACE, n);
    LastPartHasNoNul(c, record);
    FirstColumn(record, n);
  }

  lemma OrdinaryReadIsFaithful(fields: seq<Bytes>)
    requires fields != [] && NUL !in fields[0] && ReadRecord(fields).Ok? && ReadRecord(fields).value.OrdinaryRecord?
    ensures Faithful(ReadRecord(fields).value, fields)
  {
    hide SplitN, Join, ValidXy, ValidSubmodule, ValidMode, ValidOid, ValidScore;
    ColumnsOf(fields[0], 9);
    Regrouped(SplitN(fields[0], SPACE, 9), [fields[0][0]]);
    assert ReadRecord(fields).value.Columns() == SplitN(fields[0], SPACE, 9);
  }

  lemma RenamedReadIsFaithful(fields: seq<Bytes>)
    requires fields != [] && (forall f <- fields :: NUL !in f) && ReadRecord(fields).Ok? && ReadRecord(fields).value.RenamedRecord?
    ensures Faithful(ReadRecord(fields).value, fields)
  {
    hide SplitN, Join, ValidXy, ValidSubmodule, ValidMode, ValidOid, ValidScore;
    ColumnsOf(fields[0], 10);
    Regrouped(SplitN(fields[0], SPACE, 10), [fields[0][0]]);
    assert ReadRecord(fields).value.Columns() == SplitN(fields[0], SPACE, 10);
  }

  /** Columns cut into their groups and put together again. */
  lemma Regrouped(c: seq<Bytes>, head: Bytes)
    requires |c| == 9 || |c| == 10 || |c| == 11
    requires c[0] == head
    ensures |c| == 9 ==> [head, c[1], c[2]] + c[3..6] + c[6..8] + [c[8]] == c
    ensures |c| == 10 ==> [head, c[1], c[2]] + c[3..6] + c[6..8] + [c[8], c[9]] == c
    ensures |c| == 11 ==> [head, c[1], c[2]] + c[3..7] + c[7..10] + [c[10]] == c
  {
  }

  lemma UnmergedReadIsFaithful(fields: seq<Bytes>)
    requires fields != [] && NUL !in fields[0] && ReadRecord(fields).Ok? && ReadRecord(fields).value.UnmergedRecord?
    ensures Faithful(ReadRecord(fields).value, fields)
  {
    hide SplitN, Join, ValidXy, ValidSubmodule, ValidMode, ValidOid, ValidScore;
    ColumnsOf(fields[0], 11);
    Regrouped(SplitN(fields[0], SPACE, 11), [fields[0][0]]);
    assert ReadRecord(fields).value.Columns() == SplitN(fields[0], SPACE, 11);
  }

  lemma ReadIsFaithful(fields: seq<Bytes>)
    requires fields != [] && (forall f <- fields :: NUL !in f) && ReadRecord(fields).Ok?
    ensures Faithful(ReadRecord(fields).value, fields)
  {
    hide ReadRecord, Faithful;
    match ReadRecord(fields).value
    case OrdinaryRecord(_, _, _, _, _) => OrdinaryReadIsFaithful(fields);
    case RenamedRecord(_, _, _, _, _, _, _) => RenamedReadIsFaithful(fields);
    case UnmergedRecord(_, _, _, _, _) => UnmergedReadIsFaithful(fields);
    case _ => PathReadIsFaithful(fields);
  }

  lemma {:induction false} LastPartHasNoNul(parts: seq<Bytes>, whole: Bytes)
    requires |parts| > 0 && Join(parts, SPACE) == whole && NUL !in whole
    ensures NUL !in parts[|parts| - 1]
  {
    if |parts| > 1 {
      assert forall b <- Join(parts[1..], SPACE) :: b in whole;
      LastPartHasNoNul(parts[1..], Join(parts[1..], SPACE));
    }
  }

  lemma FirstColumn(record: Bytes, n: nat)
    requires n > 1 && |record| >= 2 && record[1] == SPACE && record[0] != SPACE
    ensures SplitN(record, SPACE, n)[0] == [record[0]]
  {
    IndexIs(record, SPACE, 1);
  }

  // ----- The whole output -----

  lemma {:induction false} ReadAllUndoesPrint(records: seq<Record>)
    requires AllValid(records)
    ensures ReadAll(AllFields(records)) == Ok(records)
  {
    if records != [] {
      var rest := AllFields(records[1..]);
      ReadUndoesPrint(records[0], rest);
      ReadAllUndoesPrint(records[1..]);
      assert (records[0].Fields() + rest)[|records[0].Fields()|..] == rest;
      assert AllFields(records) == records[0].Fields() + rest && [records[0]] + records[1..] == records;
    }
  }

  function AllFields(records: seq<Record>): seq<Bytes> {
    if records == [] then [] else records[0].Fields() + AllFields(records[1..])
  }

  lemma {:induction false} AllFieldsHaveNoNul(records: seq<Record>)
    requires AllValid(records)
    ensures forall f <- AllFields(records) :: NUL !in f
  {
    if records != [] {
      FieldsHaveNoNul(records[0]);
      AllFieldsHaveNoNul(records[1..]);
    }
  }

  lemma {:induction false} PrintIsTerminated(records: seq<Record>)
    ensures Print(records) == Terminated(AllFields(records), NUL)
  {
    if records != [] {
      PrintIsTerminated(records[1..]);
      TerminatedConcat(records[0].Fields(), AllFields(records[1..]), NUL);
    }
  }

  lemma {:induction false} ReadAllIsPrinted(fields: seq<Bytes>)
    requires (forall f <- fields :: NUL !in f) && ReadAll(fields).Ok?
    ensures AllValid(ReadAll(fields).value) && AllFields(ReadAll(fields).value) == fields
    decreases |fields|
  {
    hide ReadRecord, Record.Valid, Record.Fields;
    if fields != [] {
      var first := ReadRecord(fields).value;
      ReadIsFaithful(fields);
      ReadAllIsPrinted(fields[|first.Fields()|..]);
      assert ReadAll(fields).value[1..] == ReadAll(fields[|first.Fields()|..]).value;
    }
  }

  /** Exact and fail-closed: the inspection accepts a byte string exactly when
      it is the print of some valid records, and then it reads those records. */
  lemma StatusIsExact(bytes: Bytes, records: seq<Record>)
    ensures Parse(bytes) == Ok(records) <==> AllValid(records) && bytes == Print(records)
  {
    hide Parse, Print, AllValid;
    if AllValid(records) && bytes == Print(records) {
      if records != [] { PrintedReadsBack(records); } else { PrintOfNone(); }
    }
    if Parse(bytes) == Ok(records) { ReadIsPrinted(bytes, records); }
  }

  lemma ReadIsPrinted(bytes: Bytes, records: seq<Record>)
    requires Parse(bytes) == Ok(records)
    ensures AllValid(records) && bytes == Print(records)
  {
    hide Record.Valid, ReadAll, Print, Split;
    PrintIsTerminated(records);
    if bytes == [] {
      PrintOfNone();
    } else {
      var fields := Split(bytes[..|bytes| - 1], NUL);
      ReadAllIsPrinted(fields);
      JoinUndoesSplit(bytes[..|bytes| - 1], NUL);
      TerminatedIsJoin(fields, NUL);
    }
  }

  lemma PrintedReadsBack(records: seq<Record>)
    requires records != [] && AllValid(records)
    ensures Parse(Print(records)) == Ok(records)
  {
    hide Record.Valid, ReadAll, Print;
    var fields := AllFields(records);
    FieldsOfSome(records);
    PrintIsTerminated(records);
    AllFieldsHaveNoNul(records);
    ReadAllUndoesPrint(records);
    TerminatedIsJoin(fields, NUL);
    SplitUndoesJoin(fields, NUL);
    assert Print(records)[..|Print(records)| - 1] == Join(fields, NUL);
  }

  lemma FieldsOfSome(records: seq<Record>)
    requires records != []
    ensures AllFields(records) != []
  {
  }

  /** The blockers reported for a printed list are the records' own, in order. */
  function Verdict(bytes: Bytes): Result<seq<Blocker>, Fault> {
    var parsed := Parse(bytes);
    if parsed.Err? then Err(parsed.error)
    else
      StatusIsExact(bytes, parsed.value);
      Ok(AllBlockers(parsed.value))
  }

  lemma VerdictOnPrinted(records: seq<Record>)
    requires AllValid(records)
    ensures Verdict(Print(records)) == Ok(AllBlockers(records))
  {
    StatusIsExact(Print(records), records);
  }

  // ----- What each status letter means -----

  /** Either letter can tell of a conflict. */
  predicate ToldAsConflict(xy: Bytes)
    requires |xy| == 2
  {
    xy[0] == 'U' || xy[1] in {'A', 'R', 'C', 'U'}
  }

  /** Why a changed record reports this blocker, said over its letters and its submodule field. */
  predicate Told(b: Blocker, r: Record)
    requires r.OrdinaryRecord? || r.RenamedRecord?
    requires |r.xy| == 2
  {
    match b
    case StagedAdd(path) => path == r.path && r.xy[0] == 'A'
    case StagedDelete(path) => path == r.path && r.xy[0] == 'D'
    case StagedRename(path) => path == r.path && r.xy[0] == 'R'
    case StagedModification(path) => path == r.path && r.xy[0] in {'M', 'C', 'T'}
    case UnstagedDelete(path) => path == r.path && r.xy[1] == 'D'
    case UnstagedModification(path) => path == r.path && r.xy[1] in {'M', 'T'}
    case Conflict(path) => path == r.path && ToldAsConflict(r.xy)
    case SubmoduleChange(path) => path == r.path && r.submodule != "N..."
    case _ => false
  }

  /** The part of a verdict a blocker belongs to: the index, the worktree, the submodule. */
  predicate InOrder(index: seq<Blocker>, worktree: seq<Blocker>, submodule: seq<Blocker>, r: Record)
    requires r.OrdinaryRecord? || r.RenamedRecord?
    requires |r.xy| == 2
  {
    && |index| == (if r.xy[0] == '.' then 0 else 1) && |worktree| == (if r.xy[1] == '.' then 0 else 1)
    && |submodule| == (if r.submodule == "N..." then 0 else 1)
    && (forall b <- index :: b.StagedAdd? || b.StagedDelete? || b.StagedRename? || b.StagedModification? || (b.Conflict? && r.xy[0] == 'U'))
    && (forall b <- worktree :: b.UnstagedDelete? || b.UnstagedModification? || (b.Conflict? && r.xy[1] in {'A', 'R', 'C', 'U'}))
    && (forall b <- submodule :: b.SubmoduleChange?)
  }

  /** A printed ordinary or renamed record reports exactly the blockers its two
      letters and its submodule field tell of, on its own path, at most one for
      each, index before worktree before submodule. */
  lemma LettersDecide(r: Record)
    requires r.Valid() && (r.OrdinaryRecord? || r.RenamedRecord?)
    ensures |r.xy| == 2
    ensures exists index, worktree, submodule ::
      Verdict(Print([r])) == Ok(index + worktree + submodule) && InOrder(index, worktree, submodule, r)
    ensures forall b :: b in Verdict(Print([r])).value <==> Told(b, r)
  {
    hide Print, Verdict, Record.Blockers, InOrder, Told, ValidMode, ValidOid, ValidScore, ValidSubmodule, AllIn;
    OneVerdict(r);
    BlockersAreTold(r);
  }

  lemma BlockersAreTold(r: Record)
    requires r.Valid() && (r.OrdinaryRecord? || r.RenamedRecord?)
    ensures |r.xy| == 2
    ensures exists index, worktree, submodule :: r.Blockers() == index + worktree + submodule && InOrder(index, worktree, submodule, r)
    ensures forall b :: b in r.Blockers() <==> Told(b, r)
  {
    hide ValidMode, ValidOid, ValidScore, ValidSubmodule, AllIn, IndexBlockers, WorktreeBlockers, SubmoduleBlockers, InOrder, Told;
    LettersAreKnown(r.xy);
    var index, worktree, submodule := IndexBlockers(r.xy[0], r.path), WorktreeBlockers(r.xy[1], r.path), SubmoduleBlockers(r.submodule, r.path);
    PartsAreInOrder(r);
    forall b ensures b in r.Blockers() <==> Told(b, r) {
      PartsAreTold(r, b);
      assert b in index + worktree + submodule <==> b in index || b in worktree || b in submodule;
    }
  }

  lemma PartsAreInOrder(r: Record)
    requires r.OrdinaryRecord? || r.RenamedRecord?
    requires ValidXy(r.xy)
    ensures InOrder(IndexBlockers(r.xy[0], r.path), WorktreeBlockers(r.xy[1], r.path), SubmoduleBlockers(r.submodule, r.path), r)
  {
    hide AllIn, IndexBlockers, WorktreeBlockers, SubmoduleBlockers;
    LettersAreKnown(r.xy);
    IndexLetter(r.xy[0], r.path);
    WorktreeLetter(r.xy[1], r.path);
    SubmoduleField(r.submodule, r.path);
  }

  lemma PartsAreTold(r: Record, b: Blocker)
    requires r.OrdinaryRecord? || r.RenamedRecord?
    requires ValidXy(r.xy)
    ensures Told(b, r) <==>
      b in IndexBlockers(r.xy[0], r.path) || b in WorktreeBlockers(r.xy[1], r.path) || b in SubmoduleBlockers(r.submodule, r.path)
  {
    hide AllIn, IndexBlockers, WorktreeBlockers, SubmoduleBlockers;
    LettersAreKnown(r.xy);
    IndexLetter(r.xy[0], r.path);
    WorktreeLetter(r.xy[1], r.path);
    SubmoduleField(r.submodule, r.path);
  }

  lemma OneVerdict(r: Record)
    requires r.Valid()
    ensures Verdict(Print([r])) == Ok(r.Blockers())
  {
    hide Print, Verdict, Record.Valid, Record.Blockers;
    VerdictOnPrinted([r]);
    assert [r][1..] == [] && r.Blockers() + [] == r.Blockers();
  }

  lemma IndexLetter(letter: Byte, path: Bytes)
    requires letter in {'.', 'M', 'A', 'D', 'R', 'C', 'U', 'T'}
    ensures |IndexBlockers(letter, path)| == if letter == '.' then 0 else 1
    ensures forall b :: b in IndexBlockers(letter, path) <==>
      || (b == StagedAdd(path) && letter == 'A') || (b == StagedDelete(path) && letter == 'D') || (b == StagedRename(path) && letter == 'R')
      || (b == StagedModification(path) && letter in {'M', 'C', 'T'}) || (b == Conflict(path) && letter == 'U')
  {
  }

  lemma WorktreeLetter(letter: Byte, path: Bytes)
    requires letter in {'.', 'M', 'A', 'D', 'R', 'C', 'U', 'T'}
    ensures |WorktreeBlockers(letter, path)| == if letter == '.' then 0 else 1
    ensures forall b :: b in WorktreeBlockers(letter, path) <==>
      || (b == UnstagedDelete(path) && letter == 'D') || (b == UnstagedModification(path) && letter in {'M', 'T'})
      || (b == Conflict(path) && letter in {'A', 'R', 'C', 'U'})
  {
  }

  lemma SubmoduleField(submodule: Bytes, path: Bytes)
    ensures |SubmoduleBlockers(submodule, path)| == if submodule == "N..." then 0 else 1
    ensures forall b :: b in SubmoduleBlockers(submodule, path) <==> b == SubmoduleChange(path) && submodule != "N..."
  {
  }

  lemma LettersAreKnown(xy: Bytes)
    requires ValidXy(xy)
    ensures xy[0] in {'.', 'M', 'A', 'D', 'R', 'C', 'U', 'T'} && xy[1] in {'.', 'M', 'A', 'D', 'R', 'C', 'U', 'T'}
  {
    assert xy[0] in xy && xy[1] in xy;
  }

  /** The other records report one thing: an untracked or ignored path, or a
      conflict, which a changed submodule adds to. */
  lemma OtherRecordsDecide(r: Record)
    requires r.Valid() && !r.OrdinaryRecord? && !r.RenamedRecord?
    ensures Verdict(Print([r])) == Ok(match r
      case UntrackedRecord(path) => [Untracked(path)]
      case IgnoredRecord(path) => [Ignored(path)]
      case UnmergedRecord(_, submodule, _, _, path) => if submodule == "N..." then [Conflict(path)] else [Conflict(path), SubmoduleChange(path)]
      case _ => [])
  {
    hide Print, Verdict, ValidMode, ValidOid, ValidXy, ValidSubmodule;
    OneVerdict(r);
    if r.UnmergedRecord? {
      assert [Conflict(r.path)] + [] == [Conflict(r.path)];
      assert [Conflict(r.path)] + [SubmoduleChange(r.path)] == [Conflict(r.path), SubmoduleChange(r.path)];
    }
  }

  function Columned(columns: seq<Bytes>): Bytes
    requires |columns| > 0
  {
    Join(columns, SPACE) + [NUL]
  }

  predicate Octal(mode: Bytes) {
    |mode| == 6 && forall b <- mode :: '0' <= b <= '7'
  }

  predicate Hexadecimal(oid: Bytes) {
    oid != [] && forall b <- oid :: '0' <= b <= '9' || 'a' <= b <= 'f' || 'A' <= b <= 'F'
  }

  lemma ModesAreOctal(mode: Bytes)
    ensures ValidMode(mode) <==> Octal(mode)
  {
    assert forall i | 0 <= i < 8 :: "01234567"[i] in "01234567";
  }

  lemma OidsAreHexadecimal(oid: Bytes)
    ensures ValidOid(oid) <==> Hexadecimal(oid)
  {
    assert forall i | 0 <= i < 22 :: "0123456789abcdefABCDEF"[i] in "0123456789abcdefABCDEF";
  }

  lemma OnePrinted(r: Record)
    ensures Print([r]) == Terminated(r.Fields(), NUL)
    ensures !r.RenamedRecord? ==> Print([r]) == r.Fields()[0] + [NUL]
    ensures r.RenamedRecord? ==> Print([r]) == r.Fields()[0] + [NUL] + r.Fields()[1] + [NUL]
  {
    hide Record.Fields;
    assert [r][1..] == [] && Print([]) == [];
    assert Terminated(r.Fields()[1..], NUL) == if r.RenamedRecord? then r.Fields()[1] + [NUL] + [] else [];
  }

  /** The similarity score, letter by letter. */
  lemma ScoresAreDecimal(field: Bytes)
    ensures ValidScore(field) <==> |field| >= 2 && (field[0] == 'R' || field[0] == 'C') && forall b <- field[1..] :: '0' <= b <= '9'
  {
    assert forall i | 0 <= i < 10 :: "0123456789"[i] in "0123456789";
    assert forall b: Byte :: b in "0123456789" <==> '0' <= b <= '9';
  }

  predicate Objects(modes: seq<Bytes>, oids: seq<Bytes>) {
    (forall m <- modes :: Octal(m)) && (forall o <- oids :: Hexadecimal(o))
  }

  lemma ObjectsAreValid(modes: seq<Bytes>, oids: seq<Bytes>)
    requires Objects(modes, oids)
    ensures (forall m <- modes :: ValidMode(m)) && (forall o <- oids :: ValidOid(o))
  {
    hide ValidOid, ValidMode, Octal, Hexadecimal;
    forall m <- modes ensures ValidMode(m) { ModesAreOctal(m); }
    forall o <- oids ensures ValidOid(o) { OidsAreHexadecimal(o); }
  }

  /** In Git's own words: an untracked path and an ignored one, ... */
  lemma PathsInGitsWords(path: Bytes)
    requires path != [] && NUL !in path
    ensures Verdict("? " + path + [NUL]) == Ok([Untracked(path)])
    ensures Verdict("! " + path + [NUL]) == Ok([Ignored(path)])
  {
    hide Verdict, Print;
    Says(UntrackedRecord(path), [Untracked(path)]);
    Says(IgnoredRecord(path), [Ignored(path)]);
  }

  /** ... an addition to the index, for any path, modes and object names, ... */
  lemma AdditionInGitsWords(path: Bytes, modes: seq<Bytes>, oids: seq<Bytes>)
    requires path != [] && NUL !in path && |modes| == 3 && |oids| == 2 && Objects(modes, oids)
    ensures Verdict(Columned(["1", "A.", "N..."] + modes + oids + [path])) == Ok([StagedAdd(path)])
  {
    hide Verdict, Print, Join, ValidOid, ValidMode, Objects;
    ObjectsAreValid(modes, oids);
    Says(OrdinaryRecord("A.", "N...", modes, oids, path), [StagedAdd(path)]);
  }

  /** ... a rename in the index, ... */
  lemma RenameInGitsWords(path: Bytes, original: Bytes, modes: seq<Bytes>, oids: seq<Bytes>)
    requires path != [] && original != [] && NUL !in path && NUL !in original
    requires |modes| == 3 && |oids| == 2 && Objects(modes, oids)
    ensures Verdict(Columned(["2", "R.", "N..."] + modes + oids + ["R100", path]) + original + [NUL]) == Ok([StagedRename(path)])
  {
    hide Verdict, Print, Join, ValidOid, ValidMode, Objects;
    ObjectsAreValid(modes, oids);
    Says(RenamedRecord("R.", "N...", modes, oids, "R100", path, original), [StagedRename(path)]);
  }

  /** ... and a conflict. */
  lemma ConflictInGitsWords(path: Bytes, modes: seq<Bytes>, oids: seq<Bytes>)
    requires path != [] && NUL !in path && |modes| == 4 && |oids| == 3 && Objects(modes, oids)
    ensures Verdict(Columned(["u", "UU", "N..."] + modes + oids + [path])) == Ok([Conflict(path)])
  {
    hide Verdict, Print, Join, ValidOid, ValidMode, Objects;
    ObjectsAreValid(modes, oids);
    Says(UnmergedRecord("UU", "N...", modes, oids, path), [Conflict(path)]);
  }

  lemma Says(r: Record, blockers: seq<Blocker>)
    requires r.Valid() && r.Blockers() == blockers
    ensures !r.RenamedRecord? ==> Verdict(r.Fields()[0] + [NUL]) == Ok(blockers)
    ensures r.RenamedRecord? ==> Verdict(r.Fields()[0] + [NUL] + r.Fields()[1] + [NUL]) == Ok(blockers)
  {
    hide Record.Fields, Record.Valid, Record.Blockers, Verdict, Print;
    OnePrinted(r);
    OneVerdict(r);
  }

  /** An accepted verdict is empty only for empty output. */
  lemma EmptyVerdictMeansCleanTree(bytes: Bytes)
    ensures Verdict(bytes) == Ok([]) <==> bytes == []
  {
    hide Record.Valid, Record.Blockers, ReadAll, Print;
    if Parse(bytes).Ok? && bytes != [] {
      var records := Parse(bytes).value;
      StatusIsExact(bytes, records);
      if records == [] { PrintOfNone(); }
      else { EveryRecordBlocks(records[0]); }
    }
  }

  lemma PrintOfNone()
    ensures Print([]) == [] && Parse([]) == Ok([]) && AllValid([])
  {
  }

  lemma EveryRecordBlocks(r: Record)
    requires r.Valid()
    ensures r.Blockers() != []
  {
  }

  /** A rename's original path is never read as a record, whatever it looks like. */
  lemma OriginalPathIsOpaque(before: seq<Record>, r: Record, original: Bytes, after: seq<Record>)
    requires AllValid(before) && r.RenamedRecord? && r.Valid() && AllValid(after)
    requires original != [] && NUL !in original
    ensures Verdict(Print(before + [r] + after)) == Verdict(Print(before + [r.(original := original)] + after))
    ensures Verdict(Print(before + [r] + after)) == Ok(AllBlockers(before) + r.Blockers() + AllBlockers(after))
  {
    var r' := r.(original := original);
    BlockersConcat(before, r, after);
    BlockersConcat(before, r', after);
    VerdictOnPrinted(before + [r] + after);
    VerdictOnPrinted(before + [r'] + after);
  }

  lemma {:induction false} BlockersConcat(before: seq<Record>, r: Record, after: seq<Record>)
    requires AllValid(before) && r.Valid() && AllValid(after)
    ensures AllValid(before + [r] + after)
    ensures AllBlockers(before + [r] + after) == AllBlockers(before) + r.Blockers() + AllBlockers(after)
  {
    hide Record.Valid, Record.Blockers;
    if before == [] {
      assert (before + [r] + after)[1..] == after;
    } else {
      assert (before + [r] + after)[1..] == before[1..] + [r] + after;
      BlockersConcat(before[1..], r, after);
    }
  }

  // ----- The loop the preflight runs -----

  method TrackedBlockers(xy: Bytes, submodule: Bytes, path: Bytes) returns (result: Result<seq<Blocker>, Fault>)
    ensures result == (if TrackedFault(xy, submodule, path).Some? then Err(TrackedFault(xy, submodule, path).value)
                       else Ok(IndexBlockers(xy[0], path) + WorktreeBlockers(xy[1], path) + SubmoduleBlockers(submodule, path)))
  {
    hide AllIn, ValidSubmodule;
    if !ValidXy(xy) { return Err(InvalidXy); }
    if !ValidSubmodule(submodule) { return Err(InvalidSubmodule); }
    if path == [] { return Err(EmptyTrackedPath); }
    assert xy == [xy[0], xy[1]];
    var blockers: seq<Blocker> := [];
    match xy[0] {
      case '.' =>
      case 'A' => blockers := blockers + [StagedAdd(path)];
      case 'D' => blockers := blockers + [StagedDelete(path)];
      case 'R' => blockers := blockers + [StagedRename(path)];
      case 'U' => blockers := blockers + [Conflict(path)];
      case _ => blockers := blockers + [StagedModification(path)];
    }
    match xy[1] {
      case '.' =>
      case 'D' => blockers := blockers + [UnstagedDelete(path)];
      case 'M' => blockers := blockers + [UnstagedModification(path)];
      case 'T' => blockers := blockers + [UnstagedModification(path)];
      case _ => blockers := blockers + [Conflict(path)];
    }
    assert blockers == IndexBlockers(xy[0], path) + WorktreeBlockers(xy[1], path);
    if submodule != CLEAN { blockers := blockers + [SubmoduleChange(path)]; }
    assert blockers == IndexBlockers(xy[0], path) + WorktreeBlockers(xy[1], path) + SubmoduleBlockers(submodule, path);
    if blockers == [] { return Err(NoChange); }
    result := Ok(blockers);
  }

  predicate NulFree(fields: seq<Bytes>) {
    forall f <- fields :: NUL !in f
  }

  /** The verdict on the fields still to be read. */
  function VerdictOf(fields: seq<Bytes>): Result<seq<Blocker>, Fault>
    requires NulFree(fields)
  {
    var read := ReadAll(fields);
    if read.Err? then Err(read.error)
    else
      ReadAllIsPrinted(fields);
      Ok(AllBlockers(read.value))
  }

  function Prepend(blockers: seq<Blocker>, rest: Result<seq<Blocker>, Fault>): Result<seq<Blocker>, Fault> {
    if rest.Err? then rest else Ok(blockers + rest.value)
  }

  lemma VerdictStep(fields: seq<Bytes>)
    requires fields != [] && NulFree(fields)
    ensures var read := ReadRecord(fields);
      if read.Err? then VerdictOf(fields) == Err(read.error)
      else
        && read.value.Valid()
        && VerdictOf(fields) == Prepend(read.value.Blockers(), VerdictOf(fields[|read.value.Fields()|..]))
  {
    hide ReadRecord, Record.Valid, Record.Fields, Record.Blockers;
    var read := ReadRecord(fields);
    if read.Ok? {
      ReadIsFaithful(fields);
      var all := ReadAll(fields);
      if all.Ok? {
        ReadAllIsPrinted(fields);
        assert all.value[1..] == ReadAll(fields[|read.value.Fields()|..]).value;
      }
    }
  }

  lemma PrependTwice(a: seq<Blocker>, b: seq<Blocker>, rest: Result<seq<Blocker>, Fault>)
    ensures Prepend(a, Prepend(b, rest)) == Prepend(a + b, rest)
    ensures Prepend([], rest) == rest
  {
    if rest.Ok? { assert a + (b + rest.value) == a + b + rest.value && [] + rest.value == rest.value; }
  }

  lemma VerdictWhole(bytes: Bytes)
    requires bytes != [] && bytes[|bytes| - 1] == NUL
    ensures Verdict(bytes) == VerdictOf(Split(bytes[..|bytes| - 1], NUL))
    ensures Verdict(bytes) == Prepend([], Verdict(bytes))
    ensures VerdictOf([]) == Ok([])
  {
    hide ReadRecord, Record.Valid;
    PrependTwice([], [], Verdict(bytes));
  }

  /** The loop body: the blockers of the first record, and how many fields it took. */
  method ReadBlockers(fields: seq<Bytes>) returns (result: Result<seq<Blocker>, Fault>, taken: nat)
    requires fields != [] && NulFree(fields)
    ensures match ReadRecord(fields)
      case Err(fault) => result == Err(fault)
      case Ok(record) => record.Valid() && result == Ok(record.Blockers()) && taken == |record.Fields()|
  {
    hide SplitN, Join, ValidColumns, ValidXy, ValidSubmodule, ValidMode, ValidOid, ValidScore, IndexBlockers, WorktreeBlockers;
    if ReadRecord(fields).Ok? { ReadIsFaithful(fields); }
    var record := fields[0];
    taken := 1;
    if record == [] { return Err(EmptyRecord), taken; }
    if "? " <= record {
      if record[2..] == [] { return Err(EmptyUntrackedPath), taken; }
      return Ok([Untracked(record[2..])]), taken;
    } else if "! " <= record {
      if record[2..] == [] { return Err(EmptyIgnoredPath), taken; }
      return Ok([Ignored(record[2..])]), taken;
    } else if "1 " <= record {
      var c := SplitN(record, SPACE, 9);
      if |c| != 9 || !ValidColumns(c, 3, 2) { return Err(InvalidOrdinary), taken; }
      result := TrackedBlockers(c[1], c[2], c[8]);
    } else if "2 " <= record {
      var c := SplitN(record, SPACE, 10);
      if |c| != 10 || !ValidColumns(c, 3, 2) || !ValidScore(c[8]) { return Err(InvalidRenamed), taken; }
      taken := 2;
      if |fields| < 2 || fields[1] == [] { return Err(NoOriginalPath), taken; }
      result := TrackedBlockers(c[1], c[2], c[9]);
    } else if "u " <= record {
      var c := SplitN(record, SPACE, 11);
      if |c| != 11 || !ValidXy(c[1]) || !ValidSubmodule(c[2]) || !ValidColumns(c, 4, 3) || c[10] == [] {
        return Err(InvalidUnmerged), taken;
      }
      var blockers := [Conflict(c[10])];
      if c[2] != CLEAN { blockers := blockers + [SubmoduleChange(c[10])]; }
      assert blockers == [Conflict(c[10])] + SubmoduleBlockers(c[2], c[10]);
      result := Ok(blockers);
    } else {
      result := Err(UnknownKind);
    }
  }

  method ParseRemovalStatus(bytes: Bytes) returns (result: Result<seq<Blocker>, Fault>)
    ensures result == Verdict(bytes)
  {
    hide ReadAll, AllBlockers, SplitN, TrackedFault, ValidColumns, ValidXy, ValidSubmodule, ValidScore;
    EmptyVerdictMeansCleanTree(bytes);
    if bytes == [] { return Ok([]); }
    if bytes[|bytes| - 1] != NUL { return Err(NotTerminated); }
    var fields := Split(bytes[..|bytes| - 1], NUL);
    var blockers: seq<Blocker> := [];
    var index := 0;
    assert fields[0..] == fields;
    VerdictWhole(bytes);
    while index < |fields|
      invariant 0 <= index <= |fields|
      invariant VerdictOf(fields) == Prepend(blockers, VerdictOf(fields[index..]))
    {
      VerdictStep(fields[index..]);
      var found, taken := ReadBlockers(fields[index..]);
      if found.Err? { return found; }
      PrependTwice(blockers, found.value, VerdictOf(fields[index..][taken..]));
      assert fields[index..][taken..] == fields[index + taken..];
      blockers := blockers + found.value;
      index := index + taken;
    }
    assert fields[index..] == [] && blockers + [] == blockers;
    result := Ok(blockers);
  }
}
