/** Inputs on which the program does less than it says or was meant to: at least
    one for each such failure the other modules give the exact condition of. */
module FailingInputs {
  import opened Prelude
  import opened Bytes
  import opened Repository
  import opened GitTypes
  import opened LifecycleTransitions
  import opened Activation
  import opened ActivationConditions
  import opened ActivationRetry
  import opened RetryConditions
  import Admission
  import DefaultBranch
  import EventTail
  import PermissionFrames
  import opened Json

  // ----- States -----

  const REPOSITORY := SavedRepository(1, "/r/.git", "/r", 1, Available, "d")

  const IDENTITY := ProcessIdentity(7, 1, 7, 7)

  /** A checkout of the main worktree with a running agent. */
  const RUNNING := SavedCheckout(
    1, 1, Main, true, "/r", Some("refs/heads/main"), 2, Running(5), Some(OwnedRuntime(5, IDENTITY, ShellClosed)), true,
    RetainedSession("r", "/r", "/r", Some("main"), false, false, false, false, None), Available)

  const AT_WORK := StateView(9, 9, 9, 9, [REPOSITORY], [RUNNING], [])

  /** A child recorded before Git ran; its branch was held at `/o`. */
  const PENDING := SavedCheckout(
    1, 1, ManagedBranch, true, "/w", Some("refs/heads/b"), 2, Activating, None, false,
    RetainedSession("r:b", "/w", "/r", Some("b"), true, false, false, false, None),
    Unavailable(PendingActivation("b", None, Some("/o"))))

  const INTERRUPTED_STATE := StateView(9, 9, 9, 9, [REPOSITORY], [PENDING], [])

  const CHILD := WorktreeRecord("/w", Some("refs/heads/b"), false, false, false, false)
  const OWNER := WorktreeRecord("/o", Some("refs/heads/b"), false, false, false, false)

  lemma AtWorkIsSaveable()
    ensures Saveable(AT_WORK) && FindCheckout(AT_WORK.checkouts, 1) == Some(0)
  {
    assert REPOSITORY in AT_WORK.repositories && OwnedBy(RUNNING, REPOSITORY);
  }

  lemma InterruptedIsSaveable()
    ensures Saveable(INTERRUPTED_STATE) && FindCheckout(INTERRUPTED_STATE.checkouts, 1) == Some(0)
    ensures ProvenanceOf(PENDING) == Some(Provenance("b", None, Some("/o"), INTERRUPTED, ""))
  {
    assert "/w"[1] != "/r"[1];
    assert REPOSITORY in INTERRUPTED_STATE.repositories && OwnedBy(PENDING, REPOSITORY);
  }

  // ----- The lifecycle -----

  /** Revoking the running checkout's removal authority succeeds, and the save refuses the result. */
  lemma RevokingRunningIsUnsaveable()
    ensures Saveable(AT_WORK)
    ensures RevokeRemovalAuthority(AT_WORK, 1).1.Ok? && !Saveable(RevokeRemovalAuthority(AT_WORK, 1).0)
  {
    hide Saveable, RevokeRemovalAuthority;
    AtWorkIsSaveable();
    RevokingARunningCheckoutCannotBeSaved(AT_WORK, 1);
  }

  const MOVED_FACTS := RetryFacts(Ok(RepositorySnapshot("/r/.git", "/moved", CHILD, [CHILD])), true, "seen")

  /** Git lists the child in place, under a main worktree that has moved: the
      retry errs, and the row it edited stays in memory and cannot be saved. */
  lemma RetryUnderAMovedMainIsRefused()
    ensures Saveable(INTERRUPTED_STATE)
    ensures var r := Retry(INTERRUPTED_STATE, 1, MOVED_FACTS);
      RefusedByValidate(r.1) && r.0 != INTERRUPTED_STATE && !WellFormed(r.0)
  {
    hide Saveable, WellFormed, Retry, ProvenanceOf;
    InterruptedIsSaveable();
    assert FullRef("b") == "refs/heads/b";
    assert WorktreeAt([CHILD], "/w") == Some(CHILD) && WorktreeOn([CHILD], FullRef("b")) == Some(CHILD);
    assert CHILD in [CHILD] && "/moved" != "/r";
    RetryDecides(INTERRUPTED_STATE, 1, 0, MOVED_FACTS);
  }

  /** A pending child of a repository nobody recorded is refused, and stays in memory. */
  lemma StrayPendingIsRefused(snapshot: RepositorySnapshot, nameOf: Path -> string)
    ensures var (after, result) := RecordPending(AT_WORK, snapshot, PreparedActivation(7, "b", "/w", 2, 3), nameOf);
      result.Err? && after != AT_WORK && !Saveable(after)
  {
    hide Saveable;
    AtWorkIsSaveable();
    var prepared := PreparedActivation(7, "b", "/w", 2, 3);
    assert FindCheckout(AT_WORK.checkouts, 2).None?;
    PendingSavesExactly(AT_WORK, snapshot, prepared, nameOf);
  }

  const PREPARED := PreparedActivation(1, "b", "/w", 1, 2)

  /** Git adds the worktree, cannot be asked about it again, and cannot remove it. */
  const HALF_DONE := ActivationGit(
    Ok(RepositorySnapshot("/r/.git", "/r", CHILD, [CHILD])), Ok(ActivationOutcome(Created, CHILD)), Err("no answer"), Err("busy"))

  /** Afterwards somebody cleans up: the branch is back with the worktree that held it. */
  const CLEANED_UP := RetryFacts(Ok(RepositorySnapshot("/r/.git", "/r", OWNER, [OWNER])), false, "seen")

  /** The recorded owner is gone after the failed compensation. The facts under
      which the pending child would have been settled by its owner's worktree
      now leave it blocked. */
  lemma FailedCompensationForgetsTheOwner(nameOf: Path -> string, textOf: LifecycleError -> string)
    ensures var after := Execute(INTERRUPTED_STATE, PREPARED, HALF_DONE, nameOf, textOf).0;
      && |after.checkouts| == 1 && ProvenanceOf(after.checkouts[0]).Some?
      && ProvenanceOf(PENDING).value.owner == Some("/o") && ProvenanceOf(after.checkouts[0]).value.owner.None?
      && Retry(INTERRUPTED_STATE, 1, CLEANED_UP).1 == Ok(Finalized(1))
      && (Retry(after, 1, CLEANED_UP).1.Ok? ==> !Retry(after, 1, CLEANED_UP).1.value.Finalized?)
  {
    hide Saveable, WellFormed, Retry, FirstViolation;
    InterruptedIsSaveable();
    assert FullRef("b") == "refs/heads/b";
    var after := Execute(INTERRUPTED_STATE, PREPARED, HALF_DONE, nameOf, textOf).0;
    OwnerSurvivesExactly(INTERRUPTED_STATE, 0, PREPARED, HALF_DONE, nameOf, textOf);
    assert "/o"[1] != "/w"[1];
    assert WorktreeAt([OWNER], "/w").None? && WorktreeOn([OWNER], FullRef("b")) == Some(OWNER);
    ReuseDecides(INTERRUPTED_STATE, 1, 0, CLEANED_UP);
    assert "/o"[1] != "/r"[1];
    assert REPOSITORY in INTERRUPTED_STATE.repositories && OwnedBy(AdoptedRow(PENDING, "/o", "/r", "b"), REPOSITORY);
    if Retry(after, 1, CLEANED_UP).1.Ok? && Retry(after, 1, CLEANED_UP).1.value.Finalized? {
      WithoutOwnerNothingIsReused(after, 1, 0, CLEANED_UP);
    }
  }

  /** The same, after a discovery that names a main worktree nobody recorded. */
  const HALF_DONE_ELSEWHERE := HALF_DONE.(discovery := Ok(RepositorySnapshot("/r/.git", "/moved", CHILD, [CHILD])))

  /** The child left behind does not fit, and what stays in memory cannot be saved. */
  lemma LeftBehindElsewhereIsUnsaveable(nameOf: Path -> string, textOf: LifecycleError -> string)
    ensures Saveable(INTERRUPTED_STATE)
    ensures var r := Execute(INTERRUPTED_STATE, PREPARED, HALF_DONE_ELSEWHERE, nameOf, textOf); r.1.Err? && !Saveable(r.0)
  {
    hide Saveable, Execute;
    InterruptedIsSaveable();
    assert "/moved" != "/r";
    assert forall r <- INTERRUPTED_STATE.repositories :: !OwnedBy(LeftBehind(PREPARED, HALF_DONE_ELSEWHERE), r);
    ExecutionSavesExactly(INTERRUPTED_STATE, PREPARED, HALF_DONE_ELSEWHERE, nameOf, textOf);
    ExecutionSucceedsExactly(INTERRUPTED_STATE, PREPARED, HALF_DONE_ELSEWHERE, nameOf, textOf);
  }

  /** The main worktree of a known repository moved: its checkout no longer
      belongs to it, and the admission reports success. */
  lemma AdmittingAMovedMainIsUnsaveable(disk: Admission.Disk, digest: string, fate: Admission.Fate)
    ensures var snapshot := RepositorySnapshot("/r/.git", "/moved", CHILD, [CHILD]);
      var r := Admission.Ensure(AT_WORK, disk, snapshot, digest, fate);
      r.2.Ok? && !Saveable(r.0)
  {
    hide Saveable;
    AtWorkIsSaveable();
    var snapshot := RepositorySnapshot("/r/.git", "/moved", CHILD, [CHILD]);
    assert Admission.FindCommon(AT_WORK.repositories, "/r/.git") == Some(0);
    assert RUNNING in AT_WORK.checkouts && "/moved" != "/r";
    Admission.EnsureSavesExactly(AT_WORK, disk, snapshot, digest, fate);
  }

  // ----- The permission server -----

  const LISTING: Bytes := "{\"id\":1,\"method\":\"tools/list\"}"

  const LIST_REQUEST: Json := Obj(map["id" := Int(1), "method" := Str("tools/list")])

  /** A decoder that reads the listing, and no empty line; writing works. */
  predicate ReadsListing(w: PermissionFrames.World) {
    w.decode(LISTING) == Some(LIST_REQUEST) && w.decode([]).None? && !w.writeFails(0)
  }

  /** By itself the request is answered. */
  lemma ListingIsAnswered(w: PermissionFrames.World)
    requires ReadsListing(w)
    ensures var served := PermissionFrames.Drain(PermissionFrames.Open(LISTING + [PermissionFrames.LF], [], 0), w);
      |served.replies| == 1 && served.replies[0].At("id") == Int(1)
  {
    hide PermissionFrames.StartsWithIgnoreCase, PermissionFrames.ParseFrame, PermissionFrames.Drain;
    ListingIsALine();
    var wire := LISTING + [PermissionFrames.LF];
    assert wire + [] == wire;
    PermissionFrames.LineReadsBack(PermissionFrames.Line(LISTING), [], w);
    PermissionFrames.DrainUnfolds(PermissionFrames.Open(wire, [], 0), w);
    assert wire[|wire|..] == [];
    var reply := PermissionFrames.Dispatch(LIST_REQUEST, "", w);
    assert "tools/list" != "tools/call" by { assert "tools/list"[6] != "tools/call"[6]; }
    assert "tools/list" != "initialize" by { assert "tools/list"[0] != "initialize"[0]; }
    assert PermissionFrames.Serve([], [], 0, LIST_REQUEST, w) == PermissionFrames.Open([], [reply.value], 0);
    PermissionFrames.NothingToRead(w);
    PermissionFrames.DrainUnfolds(PermissionFrames.Open([], [reply.value], 0), w);
  }

  lemma ListingIsALine()
    ensures PermissionFrames.LF !in LISTING && !PermissionFrames.StartsWithIgnoreCase(LISTING, PermissionFrames.CONTENT_LENGTH)
  {
    assert PermissionFrames.Lower(LISTING[0]) == '{' && PermissionFrames.Lower(PermissionFrames.CONTENT_LENGTH[0]) == 'c';
  }

  /** After an empty line the same request is never answered. */
  lemma EmptyLineSilencesTheServer(w: PermissionFrames.World)
    requires ReadsListing(w)
    ensures PermissionFrames.Drain(PermissionFrames.Open([PermissionFrames.LF] + (LISTING + [PermissionFrames.LF]), [], 0), w).replies == []
  {
    hide PermissionFrames.Drain;
    var rest := LISTING + [PermissionFrames.LF];
    assert [] + [PermissionFrames.LF] + rest == [PermissionFrames.LF] + rest;
    PermissionFrames.UndecodableLineBlocks([], rest, [], 0, w);
  }

  /** A frame whose header names no length. */
  const NO_LENGTH: Bytes := PermissionFrames.NAME + [':'] + PermissionFrames.CRLF_PAIR

  /** After it the same request is never answered either. */
  lemma MissingLengthSilencesTheServer(w: PermissionFrames.World)
    requires ReadsListing(w) && w.utf8(PermissionFrames.NAME + [':']) == Some(PermissionFrames.NAME + [':'])
    ensures PermissionFrames.Drain(PermissionFrames.Open(NO_LENGTH + (LISTING + [PermissionFrames.LF]), [], 0), w).replies == []
  {
    hide PermissionFrames.Drain, PermissionFrames.FindSeparator, PermissionFrames.SecondField, PermissionFrames.StartsWithIgnoreCase;
    var header: Bytes := PermissionFrames.NAME + [':'];
    assert header + PermissionFrames.CRLF_PAIR + [] == NO_LENGTH;
    assert PermissionFrames.NoBlankLine(header);
    PermissionFrames.HeaderSeparator(header, true, []);
    assert NO_LENGTH[..|header|] == header;
    NoLengthHeader();
    PermissionFrames.UndecodableHeadedFrameBlocks(NO_LENGTH, LISTING + [PermissionFrames.LF], [], 0, w);
  }

  const LENGTH_LINE: Bytes := PermissionFrames.NAME + ": 2"
  const TYPE_LINE: Bytes := "Content-Type: x"

  /** A length, and a second header line. */
  const TWO_HEADERS: Bytes := LENGTH_LINE + [PermissionFrames.CR, PermissionFrames.LF] + TYPE_LINE

  /** A client that also names the type of its two-byte body is never answered, whatever it sends after. */
  lemma SecondHeaderSilencesTheServer(rest: Bytes, w: PermissionFrames.World)
    requires w.utf8(TWO_HEADERS) == Some(TWO_HEADERS)
    ensures PermissionFrames.Drain(PermissionFrames.Open(TWO_HEADERS + PermissionFrames.CRLF_PAIR + "{}" + rest, [], 0), w).replies == []
  {
    hide PermissionFrames.Drain, PermissionFrames.FindSeparator, PermissionFrames.StartsWithIgnoreCase, PermissionFrames.DeclaredLength,
         PermissionFrames.NoBlankLine, PermissionFrames.Blank;
    var buf := TWO_HEADERS + PermissionFrames.CRLF_PAIR + "{}";
    TwoHeaders();
    PermissionFrames.HeaderSeparator(TWO_HEADERS, true, "{}");
    assert buf[..|TWO_HEADERS|] == TWO_HEADERS;
    PermissionFrames.HeaderIsStable(TWO_HEADERS, PermissionFrames.CRLF_PAIR + "{}");
    assert buf == TWO_HEADERS + (PermissionFrames.CRLF_PAIR + "{}");
    PermissionFrames.AnotherHeaderIsNotRead(TWO_HEADERS, w, PermissionFrames.NAME, " 2\r", "Content-Type", ": x");
    PermissionFrames.UndecodableHeadedFrameBlocks(buf, rest, [], 0, w);
    assert buf + rest == TWO_HEADERS + PermissionFrames.CRLF_PAIR + "{}" + rest;
  }

  lemma TwoHeaders()
    ensures PermissionFrames.NoBlankLine(TWO_HEADERS) && PermissionFrames.StartsWithIgnoreCase(TWO_HEADERS, PermissionFrames.CONTENT_LENGTH)
    ensures |TWO_HEADERS| >= |PermissionFrames.CONTENT_LENGTH|
    ensures TWO_HEADERS == PermissionFrames.NAME + ":" + (" 2\r" + [PermissionFrames.LF] + "Content-Type") + ": x"
    ensures ':' !in PermissionFrames.NAME && ':' !in " 2\r" && ':' !in "Content-Type"
    ensures !PermissionFrames.Blank(" 2\r") && !PermissionFrames.Blank("Content-Type")
  {
    hide PermissionFrames.NoBlankLine;
    assert !PermissionFrames.IsWhitespace(" 2\r"[1]) && !PermissionFrames.IsWhitespace("Content-Type"[0]);
    LinesArePlain();
    TwoLines(LENGTH_LINE, TYPE_LINE);
    assert forall i | 0 <= i < |PermissionFrames.CONTENT_LENGTH| :: TWO_HEADERS[i] == (PermissionFrames.NAME + ":")[i];
  }

  lemma LinesArePlain()
    ensures PermissionFrames.CR !in LENGTH_LINE && PermissionFrames.LF !in LENGTH_LINE
    ensures PermissionFrames.CR !in TYPE_LINE && PermissionFrames.LF !in TYPE_LINE
  {
  }

  lemma TwoLines(a: Bytes, b: Bytes)
    requires PermissionFrames.CR !in a && PermissionFrames.LF !in a && PermissionFrames.CR !in b && PermissionFrames.LF !in b && |b| > 0
    ensures PermissionFrames.NoBlankLine(a + [PermissionFrames.CR, PermissionFrames.LF] + b)
  {
    var header := a + [PermissionFrames.CR, PermissionFrames.LF] + b;
    assert forall i | 0 <= i < |a| :: header[i] == a[i] && a[i] in a;
    assert forall i | |a| + 2 <= i < |header| :: header[i] == b[i - |a| - 2] && b[i - |a| - 2] in b;
  }

  lemma NoLengthHeader()
    ensures PermissionFrames.SecondField(PermissionFrames.NAME + [':']) == Some("")
    ensures PermissionFrames.StartsWithIgnoreCase(NO_LENGTH, PermissionFrames.CONTENT_LENGTH)
  {
    var header: Bytes := PermissionFrames.NAME + [':'];
    assert header[..|PermissionFrames.NAME|] == PermissionFrames.NAME && header[|PermissionFrames.NAME| + 1..] == "";
    IndexIs(header, ':', |PermissionFrames.NAME|);
    assert forall i | 0 <= i < |PermissionFrames.CONTENT_LENGTH| :: NO_LENGTH[i] == header[i];
  }

  // ----- The event tail -----

  /** One line, then the first byte of a two-byte character. */
  const HALF_A_CHARACTER: Bytes := ['{', '}', '\n', '\U{C3}']

  /** The line is complete, yet a poll reads nothing of it. */
  lemma HalfACharacterStallsTheTail(path: string, stat: Option<Option<int>>, d: EventTail.Decoder)
    requires !d.valid(HALF_A_CHARACTER)
    ensures EventTail.LineEnd(HALF_A_CHARACTER) == 3
    ensures EventTail.Run([EventTail.Append(HALF_A_CHARACTER), EventTail.Poll(stat, [], true, [], true)], path, d).1.offset == 0
  {
    var steps := [EventTail.Append(HALF_A_CHARACTER)];
    assert steps + [EventTail.Poll(stat, [], true, [], true)] == [EventTail.Append(HALF_A_CHARACTER), EventTail.Poll(stat, [], true, [], true)];
    assert steps[..0] == [] && [] + HALF_A_CHARACTER == HALF_A_CHARACTER;
    assert EventTail.Run(steps, path, d) == (HALF_A_CHARACTER, EventTail.UNREAD);
    assert HALF_A_CHARACTER[0..] == HALF_A_CHARACTER;
    assert HALF_A_CHARACTER[..3] == ['{', '}', '\n'];
    var poll := EventTail.Poll(stat, [], true, [], true);
    assert HALF_A_CHARACTER + [] == HALF_A_CHARACTER;
    EventTail.UndecodableTailWaits(EventTail.UNREAD, path, poll.LookAt(HALF_A_CHARACTER), d);
  }

  const FIRST: Bytes := ['1', '\n']
  const SECOND: Bytes := ['2', '\n']

  /** Two event files of one length, written in one tick of the clock: after the
      session moves from the first to the second, the second is not read. */
  lemma EqualStampsHideTheNewFile(d: EventTail.Decoder)
    requires d.valid(FIRST) && d.valid(SECOND)
    ensures var look1, look2 := EventTail.Look(Some(0), Some(2), true, 2, Some(FIRST)), EventTail.Look(Some(0), Some(2), true, 2, Some(SECOND));
      var t := EventTail.PollEvents(EventTail.UNREAD, "a", look1, d);
      && t.offset == 2 && EventTail.LineEnd(SECOND) == 2
      && EventTail.PollEvents(t, "b", look2, d).offset == 0
  {
    assert FIRST[0..] == FIRST && FIRST[..2] == FIRST;
    var t := EventTail.PollEvents(EventTail.UNREAD, "a", EventTail.Look(Some(0), Some(2), true, 2, Some(FIRST)), d);
    assert t.path == Some("a") && "a"[0] != "b"[0];
    EventTail.RotationReadsUnlessStampsCollide(t, "b", SECOND, Some(0), d);
  }

  // ----- The default branch -----

  const MAIN := "refs/heads/main"
  const ORIGIN_MAIN := "refs/remotes/origin/main"
  const ORIGIN_HEAD := "refs/remotes/origin/HEAD"
  const ORIGIN_TRUNK := "refs/remotes/origin/trunk"

  /** `origin/HEAD` is an ordinary ref, and the tracked `origin/main` is symbolic to it. */
  const LOOPING: DefaultBranch.Refs := map[
    DefaultBranch.HEAD := DefaultBranch.Symbolic(MAIN), MAIN := DefaultBranch.Commit,
    ORIGIN_MAIN := DefaultBranch.Symbolic(ORIGIN_HEAD), ORIGIN_HEAD := DefaultBranch.Commit]

  /** There is no `origin/HEAD`, and the tracked `origin/main` is symbolic to `origin/trunk`. */
  const CHAINED: DefaultBranch.Refs := map[
    DefaultBranch.HEAD := DefaultBranch.Symbolic(MAIN), MAIN := DefaultBranch.Commit,
    ORIGIN_MAIN := DefaultBranch.Symbolic(ORIGIN_TRUNK), ORIGIN_TRUNK := DefaultBranch.Commit]

  const ON_MAIN := WorktreeRecord("/r", Some(MAIN), false, false, false, false)

  const TRACKING := DefaultBranch.Setup(
    map[MAIN := DefaultBranch.Upstream("origin", ORIGIN_MAIN)], RepositorySnapshot("/r/.git", "/r", ON_MAIN, [ON_MAIN]),
    (probe: DefaultBranch.Probe) => true)

  lemma OriginRefs()
    ensures DefaultBranch.RemoteHead("origin") == ORIGIN_HEAD
    ensures DefaultBranch.Stripped(ORIGIN_MAIN, DefaultBranch.Prefix("origin")) == Some("main")
    ensures DefaultBranch.Stripped(ORIGIN_TRUNK, DefaultBranch.Prefix("origin")) == Some("trunk")
    ensures DefaultBranch.Stripped(MAIN, DefaultBranch.HEADS) == Some("main")
    ensures |DefaultBranch.HEAD| == 4 && |MAIN| == 15 && |ORIGIN_MAIN| == 24 && |ORIGIN_HEAD| == 24 && |ORIGIN_TRUNK| == 25
    ensures ORIGIN_MAIN != ORIGIN_HEAD
  {
    assert ORIGIN_MAIN[20] == 'm' && ORIGIN_HEAD[20] == 'H';
    assert ORIGIN_MAIN[|DefaultBranch.Prefix("origin")|..] == "main";
    assert ORIGIN_TRUNK[|DefaultBranch.Prefix("origin")|..] == "trunk";
    assert MAIN[|DefaultBranch.HEADS|..] == "main";
  }

  /** The main branch is `main`, it tracks `origin/main`, and that is adopted. */
  lemma MainIsAdopted(refs: DefaultBranch.Refs)
    requires refs == LOOPING || refs == CHAINED
    ensures DefaultBranch.MainBranch(TRACKING, refs) == Ok(MAIN)
    ensures DefaultBranch.Remotes(TRACKING, MAIN) == ["origin"]
    ensures DefaultBranch.ScanRemotes(TRACKING, refs, ["origin"], None) == DefaultBranch.Nothing(None)
    ensures DefaultBranch.Elected(TRACKING, refs, MAIN, ["origin"]) == Ok(Some(DefaultBranch.Tracked("origin", ORIGIN_MAIN, "main")))
    ensures DefaultBranch.Resolve(TRACKING, refs)
      == (refs[ORIGIN_HEAD := DefaultBranch.Symbolic(ORIGIN_MAIN)], Ok(DefaultBranch.DefaultOf("origin", ORIGIN_MAIN, "main")))
  {
    hide DefaultBranch.RemoteHead, DefaultBranch.Stripped;
    OriginRefs();
    assert "origin"[0] != "."[0] && ["origin"][1..] == [];
    assert DefaultBranch.End(refs, MAIN, 3) == Some(MAIN);
    assert DefaultBranch.Leads(refs, refs[ORIGIN_MAIN].to, 3);
  }

  /** The default is adopted, and asking again does not find it. */
  lemma AdoptedHeadLoops()
    ensures DefaultBranch.Resolve(TRACKING, LOOPING).1.Ok?
    ensures DefaultBranch.Resolve(TRACKING, DefaultBranch.Resolve(TRACKING, LOOPING).0) != DefaultBranch.Resolve(TRACKING, LOOPING)
  {
    hide DefaultBranch.Resolve, DefaultBranch.MainBranch, DefaultBranch.Elected;
    OriginRefs();
    MainIsAdopted(LOOPING);
    DefaultBranch.ResolvingAgainAgrees(TRACKING, LOOPING);
  }

  /** `main` is adopted, and asking again answers `trunk`. */
  lemma AdoptedChainAnswersItsEnd()
    ensures DefaultBranch.Resolve(TRACKING, CHAINED).1 == Ok(DefaultBranch.DefaultOf("origin", ORIGIN_MAIN, "main"))
    ensures DefaultBranch.Resolve(TRACKING, DefaultBranch.Resolve(TRACKING, CHAINED).0).1
      == Ok(DefaultBranch.DefaultOf("origin", ORIGIN_TRUNK, "trunk"))
  {
    hide DefaultBranch.RemoteHead, DefaultBranch.Stripped, DefaultBranch.MainBranch, DefaultBranch.Elected, DefaultBranch.Remotes;
    OriginRefs();
    MainIsAdopted(CHAINED);
    DefaultBranch.MainBranchSurvives(TRACKING, CHAINED, "origin", ORIGIN_MAIN);
    var refs' := CHAINED[ORIGIN_HEAD := DefaultBranch.Symbolic(ORIGIN_MAIN)];
    assert DefaultBranch.End(refs', ORIGIN_TRUNK, 2) == Some(ORIGIN_TRUNK);
    assert DefaultBranch.End(refs', ORIGIN_MAIN, 3) == Some(ORIGIN_TRUNK);
    assert DefaultBranch.ReadChain(refs', ORIGIN_HEAD) == DefaultBranch.PointsAt(ORIGIN_TRUNK);
  }
}
