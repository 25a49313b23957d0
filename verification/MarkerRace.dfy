/** The ownership marker of a repository directory: read fail-closed, and
    created and filled in separate steps by racing writers (baude-core/src/marker.rs). */
module MarkerRace {
  import opened Prelude
  import opened Bytes

  datatype Metadata = Metadata(commonDir: Bytes, schemeVersion: nat, recordedAt: U64)

  datatype Invalidity = Symlink | Oversized(size: nat) | Malformed | SchemeTooNew(version: nat)

  datatype MarkerRead = Missing | Valid(meta: Metadata) | Invalid(reason: Invalidity)

  const MAX_MARKER_SIZE := 64 * 1024
  const CURRENT_SCHEME_VERSION := 1

  /** The JSON form of a marker, left open but for what JSON promises: it
      decodes to what was printed, and no strict prefix of it decodes. */
  datatype Format = Format(print_: Metadata -> Bytes, decode: Bytes -> Option<Metadata>)

  ghost predicate PrefixFree(f: Format) {
    forall m: Metadata :: f.print_(m) != [] && f.decode(f.print_(m)) == Some(m) && NoPrefixDecodes(f, f.print_(m))
  }

  predicate NoPrefixDecodes(f: Format, whole: Bytes) {
    forall n | 0 <= n < |whole| :: f.decode(whole[..n]).None?
  }

  /** What the filesystem answers: the stat, then the content if it can be read. */
  datatype Sight = NotFound | StatFailed | Found(symlink: bool, size: nat, content: Option<Bytes>)

  /** An error only when the filesystem fails; anything odd in the file is invalid. */
  function ReadMarker(sight: Sight, f: Format): Option<MarkerRead> {
    match sight
    case NotFound => Some(Missing)
    case StatFailed => None
    case Found(symlink, size, content) =>
      if symlink then Some(Invalid(Symlink))
      else if size > MAX_MARKER_SIZE then Some(Invalid(Oversized(size)))
      else if content.None? then None
      else Some(Understand(content.value, f))
  }

  function Understand(content: Bytes, f: Format): MarkerRead {
    var meta := f.decode(content);
    if meta.None? then Invalid(Malformed)
    else if meta.value.schemeVersion > CURRENT_SCHEME_VERSION then Invalid(SchemeTooNew(meta.value.schemeVersion))
    else Valid(meta.value)
  }

  /** Fail-closed: a marker is valid exactly when a plain file of at most 64 KiB
      decodes to a scheme this program knows; missing only when there is no file;
      no answer at all only when the filesystem fails; and each other oddity is named. */
  lemma ReadMarkerFailsClosed(sight: Sight, f: Format)
    ensures forall meta :: ReadMarker(sight, f) == Some(Valid(meta)) <==>
      (sight.Found? && !sight.symlink && sight.size <= 65536 && sight.content.Some? && f.decode(sight.content.value) == Some(meta)
       && meta.schemeVersion <= 1)
    ensures ReadMarker(sight, f) == Some(Missing) <==> sight.NotFound?
    ensures ReadMarker(sight, f).None? <==>
      sight.StatFailed? || (sight.Found? && !sight.symlink && sight.size <= 65536 && sight.content.None?)
    ensures ReadMarker(sight, f) == Some(Invalid(Symlink)) <==> sight.Found? && sight.symlink
    ensures forall n :: ReadMarker(sight, f) == Some(Invalid(Oversized(n))) <==> sight.Found? && !sight.symlink && sight.size == n > 65536
  {
  }

  const ATTEMPTS: nat := 10

  predicate Settled(read: Option<MarkerRead>) {
    read.Some? && read.value.Valid?
  }

  /** Look again while the marker is not valid, ten times at most: the answer is
      the first valid one, or the tenth if there is none. */
  method ReadMarkerSettled(sights: nat -> Sight, f: Format) returns (last: Option<MarkerRead>, looks: nat)
    ensures 1 <= looks <= 10 && last == ReadMarker(sights(looks - 1), f)
    ensures forall i | 0 <= i < looks - 1 :: !Settled(ReadMarker(sights(i), f))
    ensures Settled(last) || looks == 10
  {
    last := ReadMarker(sights(0), f);
    looks := 1;
    for attempt := 1 to ATTEMPTS
      invariant looks == attempt && last == ReadMarker(sights(looks - 1), f)
      invariant forall i | 0 <= i < looks - 1 :: !Settled(ReadMarker(sights(i), f))
    {
      if Settled(last) { return; }
      last := ReadMarker(sights(attempt), f);
      looks := looks + 1;
    }
  }

  datatype Outcome = Created | AlreadyOwned(existing: Metadata) | OwnedByOther(existing: Metadata) | UnknownOwner

  /** What a loser makes of one look. */
  function Judge(read: Option<MarkerRead>, meta: Metadata): (verdict: Outcome)
    ensures !verdict.Created?
  {
    if !Settled(read) then UnknownOwner
    else if read.value.meta.commonDir == meta.commonDir then AlreadyOwned(read.value.meta)
    else OwnedByOther(read.value.meta)
  }

  /** The exclusive create: done, and then filled and synced or not; lost; or refused. */
  datatype Attempt = Made(filled: bool) | Lost | Refused

  /** A winner owns the marker only once it is filled; a loser goes by the first
      valid marker of its ten looks, and without one the owner is unknown. */
  method WriteMarker(attempt: Attempt, sights: nat -> Sight, meta: Metadata, f: Format) returns (outcome: Outcome)
    ensures outcome == Created <==> attempt == Made(true)
    ensures outcome == UnknownOwner <==>
      (attempt == Made(false) || attempt == Refused || (attempt == Lost && forall i | 0 <= i < ATTEMPTS :: !Settled(ReadMarker(sights(i), f))))
    ensures outcome.AlreadyOwned? || outcome.OwnedByOther? ==>
      attempt == Lost && exists i | 0 <= i < ATTEMPTS :: FirstSettled(sights, i, f) && outcome == Judge(ReadMarker(sights(i), f), meta)
  {
    match attempt {
      case Made(filled) => outcome := if filled then Created else UnknownOwner;
      case Refused => outcome := UnknownOwner;
      case Lost =>
        var last, looks := ReadMarkerSettled(sights, f);
        outcome := Judge(last, meta);
        if Settled(last) { assert FirstSettled(sights, looks - 1, f); }
    }
  }

  predicate FirstSettled(sights: nat -> Sight, i: nat, f: Format) {
    Settled(ReadMarker(sights(i), f)) && forall j | 0 <= j < i :: !Settled(ReadMarker(sights(j), f))
  }

  // ----- Racing writers -----

  datatype Phase =
    | Start
    /** Created the file; that much of its own text is in it. */
    | Filling(written: nat)
    /** Lost the create; looked that many times without an answer. */
    | Looking(looks: nat)
    | Done(outcome: Outcome)

  /** The marker file and every writer; `creator` records who created the file. */
  datatype World = World(file: Option<Bytes>, phases: seq<Phase>, creator: Option<nat>)

  datatype Step =
    | Create(writer: nat, fails: bool)
    /** Some more bytes reach the file; the write or the sync may fail after them. */
    | Fill(writer: nat, more: nat, fails: bool)
    /** One look; the size may have been taken before later bytes arrived. */
    | Look(writer: nat, size: nat, fails: bool)

  predicate Enabled(w: World, step: Step) {
    && step.writer < |w.phases|
    && match step
       case Create(i, _) => w.phases[i].Start?
       case Fill(i, _, _) => w.phases[i].Filling?
       case Look(i, size, _) => w.phases[i].Looking? && (w.file.Some? ==> size <= |w.file.value|)
  }

  function Next(w: World, step: Step, metas: seq<Metadata>, f: Format): World
    requires |metas| == |w.phases| && Enabled(w, step)
  {
    var i := step.writer;
    match step
    case Create(_, fails) =>
      if fails then w.(phases := w.phases[i := Done(UnknownOwner)])
      else if w.file.Some? then w.(phases := w.phases[i := Looking(0)])
      else World(Some([]), w.phases[i := Filling(0)], Some(i))
    case Fill(_, more, fails) =>
      var text := f.print_(metas[i]);
      var written := if w.phases[i].written + more < |text| then w.phases[i].written + more else |text|;
      w.(file := Some(text[..written]),
         phases := w.phases[i := if fails then Done(UnknownOwner) else if written == |text| then Done(Created) else Filling(written)])
    case Look(_, size, fails) =>
      var sight := if fails then StatFailed else if w.file.None? then NotFound else Found(false, size, w.file);
      var read := ReadMarker(sight, f);
      var looks := w.phases[i].looks + 1;
      w.(phases := w.phases[i := if Settled(read) || looks >= ATTEMPTS then Done(Judge(read, metas[i])) else Looking(looks)])
  }

  ghost predicate Reaches(w: World, steps: seq<Step>, end: World, metas: seq<Metadata>, f: Format)
    requires |metas| == |w.phases|
    decreases steps
  {
    if steps == [] then end == w
    else Enabled(w, steps[0]) && Reaches(Next(w, steps[0], metas, f), steps[1..], end, metas, f)
  }

  /** A directory before the race: with or without a marker someone left there. */
  predicate Initial(w: World) {
    w.creator.None? && forall i | 0 <= i < |w.phases| :: w.phases[i].Start?
  }

  /** Who the marker says owns the directory. */
  function Owner(w: World, f: Format): Option<Metadata> {
    if w.file.Some? && Understand(w.file.value, f).Valid? then Some(Understand(w.file.value, f).meta) else None
  }

  predicate CreatorOnly(phase: Phase) {
    phase.Filling? || phase == Done(Created)
  }

  /** Only the creator fills, and the file is exactly what it has written; a
      loser's verdict names the owner the marker still names. */
  ghost predicate Inv(w: World, metas: seq<Metadata>, f: Format) {
    && |metas| == |w.phases|
    && (forall i | 0 <= i < |w.phases| && CreatorOnly(w.phases[i]) :: w.creator == Some(i))
    && (w.creator.Some? ==>
      var c := w.creator.value;
      && c < |w.phases| && w.file.Some? && Written(w.file.value, metas[c], f)
      && !w.phases[c].Start? && !w.phases[c].Looking?
      && (w.phases[c] == Done(Created) ==> w.file == Some(f.print_(metas[c])))
      && (w.phases[c].Filling? ==> w.phases[c].written == |w.file.value| < |f.print_(metas[c])|))
    && (forall i | 0 <= i < |w.phases| :: Truthful(w.phases[i], metas[i], Owner(w, f)))
  }

  predicate Written(content: Bytes, meta: Metadata, f: Format) {
    content <= f.print_(meta)
  }

  predicate Truthful(phase: Phase, meta: Metadata, owner: Option<Metadata>) {
    && (phase.Done? && (phase.outcome.AlreadyOwned? || phase.outcome.OwnedByOther?) ==>
      owner == Some(phase.outcome.existing) && (phase.outcome.AlreadyOwned? <==> phase.outcome.existing.commonDir == meta.commonDir))
    && (phase == Done(Created) ==> owner == Some(meta))
  }

  /** Every writer signs with a scheme it can read back, and leaves a readable text. */
  predicate Current(metas: seq<Metadata>) {
    forall m <- metas :: m.schemeVersion <= CURRENT_SCHEME_VERSION
  }

  lemma WrittenOwner(content: Bytes, meta: Metadata, f: Format)
    requires PrefixFree(f) && Written(content, meta, f)
    ensures Understand(content, f).Valid? ==> content == f.print_(meta) && Understand(content, f).meta == meta
    ensures content == f.print_(meta) && meta.schemeVersion <= CURRENT_SCHEME_VERSION ==> Understand(content, f) == Valid(meta)
  {
    assert NoPrefixDecodes(f, f.print_(meta));
    if |content| < |f.print_(meta)| { assert content == f.print_(meta)[..|content|]; }
  }

  lemma OwnerIsStable(w: World, step: Step, metas: seq<Metadata>, f: Format)
    requires PrefixFree(f) && Inv(w, metas, f) && Enabled(w, step)
    ensures Owner(w, f).Some? ==> Owner(Next(w, step, metas, f), f) == Owner(w, f)
  {
    hide Judge, ReadMarker, Understand, Truthful, PrefixFree;
    if step.Fill? {
      assert CreatorOnly(w.phases[step.writer]);
      WrittenOwner(w.file.value, metas[step.writer], f);
    }
  }

  lemma StepKeepsCreator(w: World, step: Step, metas: seq<Metadata>, f: Format)
    requires PrefixFree(f) && Current(metas) && Inv(w, metas, f) && Enabled(w, step)
    ensures var w' := Next(w, step, metas, f);
      && (forall i | 0 <= i < |w'.phases| && CreatorOnly(w'.phases[i]) :: w'.creator == Some(i))
      && (w'.creator.Some? ==>
        var c := w'.creator.value;
        && c < |w'.phases| && w'.file.Some? && Written(w'.file.value, metas[c], f)
        && !w'.phases[c].Start? && !w'.phases[c].Looking?
        && (w'.phases[c] == Done(Created) ==> w'.file == Some(f.print_(metas[c])))
        && (w'.phases[c].Filling? ==> w'.phases[c].written == |w'.file.value| < |f.print_(metas[c])|))
  {
    hide Judge, ReadMarker, Understand, Truthful;
    var i := step.writer;
    var text := f.print_(metas[i]);
    assert text != [] && text[..|text|] == text;
    if step.Fill? { assert CreatorOnly(w.phases[i]); }
    if step.Create? && w.file.None? { assert w.creator.None?; }
  }

  lemma StepKeepsTruth(w: World, step: Step, metas: seq<Metadata>, f: Format)
    requires PrefixFree(f) && Current(metas) && Inv(w, metas, f) && Enabled(w, step)
    ensures var w' := Next(w, step, metas, f);
      forall i | 0 <= i < |w'.phases| :: Truthful(w'.phases[i], metas[i], Owner(w', f))
  {
    hide PrefixFree;
    var i, w' := step.writer, Next(w, step, metas, f);
    OwnerIsStable(w, step, metas, f);
    forall j | 0 <= j < |w'.phases| ensures Truthful(w'.phases[j], metas[j], Owner(w', f)) {
      assert Truthful(w.phases[j], metas[j], Owner(w, f));
      if j == i && step.Fill? {
        assert CreatorOnly(w.phases[i]) && metas[i] in metas;
        WrittenOwner(w'.file.value, metas[i], f);
      }
    }
  }

  lemma {:induction false} RunKeepsInv(w: World, steps: seq<Step>, end: World, metas: seq<Metadata>, f: Format)
    requires PrefixFree(f) && Current(metas) && Inv(w, metas, f) && Reaches(w, steps, end, metas, f)
    ensures Inv(end, metas, f)
    ensures Owner(w, f).Some? ==> Owner(end, f) == Owner(w, f)
    decreases steps
  {
    hide PrefixFree, Current, Owner, Truthful, Enabled, Next, CreatorOnly, Written;
    if steps != [] {
      OwnerIsStable(w, steps[0], metas, f);
      StepKeepsCreator(w, steps[0], metas, f);
      StepKeepsTruth(w, steps[0], metas, f);
      PhasesKept(w, steps[0], metas, f);
      RunKeepsInv(Next(w, steps[0], metas, f), steps[1..], end, metas, f);
    }
  }

  lemma PhasesKept(w: World, step: Step, metas: seq<Metadata>, f: Format)
    requires |metas| == |w.phases| && Enabled(w, step)
    ensures |Next(w, step, metas, f).phases| == |w.phases|
  {
    hide Judge, ReadMarker;
  }

  predicate Succeeded(phase: Phase) {
    phase == Done(Created) || (phase.Done? && phase.outcome.AlreadyOwned?)
  }

  /** Whatever the interleaving, the crashes and the failures: at most one writer
      creates the marker, everyone who succeeds holds the directory for the same
      common directory, and nobody who succeeds shares it with one told otherwise. */
  lemma RaceIsSafe(w: World, steps: seq<Step>, end: World, metas: seq<Metadata>, f: Format, i: nat, j: nat)
    requires PrefixFree(f) && Current(metas) && |metas| == |w.phases| && Initial(w)
    requires Reaches(w, steps, end, metas, f) && i < |end.phases| && j < |end.phases| && |end.phases| == |metas|
    ensures end.phases[i] == Done(Created) && end.phases[j] == Done(Created) ==> i == j
    ensures Succeeded(end.phases[i]) && Succeeded(end.phases[j]) ==> metas[i].commonDir == metas[j].commonDir
    ensures Succeeded(end.phases[i]) && end.phases[j].Done? && end.phases[j].outcome.OwnedByOther? ==>
      metas[j].commonDir != metas[i].commonDir == end.phases[j].outcome.existing.commonDir
  {
    hide PrefixFree, Current, Reaches, Owner;
    RunKeepsInv(w, steps, end, metas, f);
    assert Truthful(end.phases[i], metas[i], Owner(end, f)) && Truthful(end.phases[j], metas[j], Owner(end, f));
    assert CreatorOnly(end.phases[i]) && CreatorOnly(end.phases[j]) ==> i == j;
  }

  predicate FailsFor(step: Step, i: nat) {
    step.writer == i && ((step.Create? && step.fails) || (step.Look? && step.fails))
  }

  /** Not yet through, or through with a definite answer. */
  predicate Decided(phase: Phase) {
    phase.Start? || (phase.Looking? && phase.looks < ATTEMPTS) || (phase.Done? && !phase.outcome.UnknownOwner?)
  }

  /** Once the marker is filled, no later look is in vain: a writer that has not
      given up before, and whose own calls do not fail, never ends without an answer. */
  lemma {:induction false} OnceFilledNobodyGivesUp(w: World, steps: seq<Step>, end: World, metas: seq<Metadata>, f: Format, i: nat)
    requires PrefixFree(f) && Current(metas) && Inv(w, metas, f) && Reaches(w, steps, end, metas, f)
    requires i < |w.phases| && Decided(w.phases[i]) && Owner(w, f).Some? && |w.file.value| <= MAX_MARKER_SIZE
    requires forall s <- steps :: !FailsFor(s, i)
    ensures i < |end.phases| && Decided(end.phases[i])
    decreases steps
  {
    hide PrefixFree, Current, Truthful, CreatorOnly, Written, Next, Owner, Decided;
    if steps != [] {
      var next := Next(w, steps[0], metas, f);
      StepDecides(w, steps[0], metas, f, i);
      RunKeepsInv(w, steps[..1], next, metas, f) by { assert steps[..1] == [steps[0]] && steps[..1][1..] == []; }
      OnceFilledNobodyGivesUp(next, steps[1..], end, metas, f, i);
    }
  }

  lemma StepDecides(w: World, step: Step, metas: seq<Metadata>, f: Format, i: nat)
    requires PrefixFree(f) && Inv(w, metas, f) && Enabled(w, step) && !FailsFor(step, i)
    requires i < |w.phases| && Decided(w.phases[i]) && Owner(w, f).Some? && |w.file.value| <= MAX_MARKER_SIZE
    ensures var w' := Next(w, step, metas, f);
      |w'.phases| == |w.phases| && Decided(w'.phases[i]) && w'.file == w.file
  {
    hide PrefixFree, Understand, Truthful;
    if step.Fill? {
      assert CreatorOnly(w.phases[step.writer]);
      WrittenOwner(w.file.value, metas[step.writer], f);
    }
  }
}
